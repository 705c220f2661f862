/**
 The transmit equalizer of src/platform/tx_eq.c over the reals. The cosine is any
 function with value 1 at 0; nothing else about it is needed.
 */
module TxEq {
  import opened Numbers
  import opened LinearSolver

  const TAPS: nat := 17
  const CENTER: nat := 8
  const COEFFICIENTS: nat := 9
  const PI: real := 3.14159265358979323846
  const REGULARIZATION: real := 0.03
  const SAMPLE_RATE: real := 48000.0
  const HEADROOM: real := 7.9

  type Cosine = real -> real

  function Omega(frequency: real): real {
    2.0 * PI * frequency / SAMPLE_RATE
  }

  // ---------------------------------------------------------------- gain

  /** The phase of a tap relative to the centre of the filter. */
  function Angle(omega: real, tap: nat): real {
    omega * (tap as real - CENTER as real)
  }

  /** Contribution of taps 0 .. n - 1 to the zero-phase gain. */
  function GainTo(taps: seq<real>, cos: Cosine, omega: real, n: nat): real
    requires n <= |taps|
  {
    if n == 0 then 0.0 else GainTo(taps, cos, omega, n - 1) + taps[n - 1] * cos(Angle(omega, n - 1))
  }

  function Gain(taps: seq<real>, cos: Cosine, frequency: real): real
    requires |taps| == TAPS
  {
    GainTo(taps, cos, Omega(frequency), TAPS)
  }

  method ZeroPhaseGain(taps: seq<real>, cos: Cosine, frequency: real) returns (gain: real)
    requires |taps| == TAPS
    ensures gain == Gain(taps, cos, frequency)
  {
    var omega := Omega(frequency);
    gain := 0.0;
    for tap := 0 to TAPS
      invariant gain == GainTo(taps, cos, omega, tap)
    {
      gain := gain + taps[tap] * cos(Angle(omega, tap));
    }
  }

  function AbsSum(taps: seq<real>): real {
    if taps == [] then 0.0 else AbsSum(taps[..|taps| - 1]) + Abs(taps[|taps| - 1])
  }

  predicate Symmetric(taps: seq<real>) {
    forall i | 0 <= i < |taps| :: taps[i] == taps[|taps| - 1 - i]
  }

  // ---------------------------------------------------------------- blending with the identity

  function Unit(row: nat): real {
    if row == CENTER then 1.0 else 0.0
  }

  /** The filter `blend` of the way from the identity to the designed one. */
  function Blended(designed: seq<real>, blend: real): (r: seq<real>)
    ensures |r| == |designed|
  {
    seq(|designed|, row requires 0 <= row < |designed| => Unit(row) + blend * (designed[row] - Unit(row)))
  }

  /** What the identity filter contributes. */
  function UnitGain(cos: Cosine, omega: real, n: nat): real {
    if n > CENTER then cos(omega * 0.0) else 0.0
  }

  lemma BlendTerm(u: real, b: real, d: real, c: real)
    ensures (u + b * (d - u)) * c == u * c + b * (d * c - u * c)
  {}

  lemma BlendSum(x: real, y: real, b: real, p: real, q: real)
    ensures (x + b * (y - x)) + (p + b * (q - p)) == (x + p) + b * ((y + q) - (x + p))
  {}

  lemma GainStep(taps: seq<real>, cos: Cosine, omega: real, n: nat)
    requires 0 < n <= |taps|
    ensures GainTo(taps, cos, omega, n) == GainTo(taps, cos, omega, n - 1) + Product(taps[n - 1], cos(Angle(omega, n - 1)))
  {}

  /** The point `blend` of the way from x to y. */
  function Mix(x: real, y: real, blend: real): real {
    x + blend * (y - x)
  }

  lemma MixSum(x: real, y: real, u: real, d: real, c: real, blend: real)
    ensures Mix(x, y, blend) + Product(Mix(u, d, blend), c) == Mix(x + Product(u, c), y + Product(d, c), blend)
  {
    BlendTerm(u, blend, d, c);
    BlendSum(x, y, blend, u * c, d * c);
  }

  lemma {:induction false} BlendedGain(designed: seq<real>, blend: real, cos: Cosine, omega: real, n: nat)
    requires n <= |designed|
    ensures GainTo(Blended(designed, blend), cos, omega, n) == Mix(UnitGain(cos, omega, n), GainTo(designed, cos, omega, n), blend)
  {
    if n > 0 {
      BlendedGain(designed, blend, cos, omega, n - 1);
      UnitStep(cos, omega, n);
      GainStep(designed, cos, omega, n);
      GainStep(Blended(designed, blend), cos, omega, n);
      assert Blended(designed, blend)[n - 1] == Mix(Unit(n - 1), designed[n - 1], blend);
      hide UnitGain, Unit, Angle, GainTo, Blended, Mix, Product;
      MixSum(UnitGain(cos, omega, n - 1), GainTo(designed, cos, omega, n - 1), Unit(n - 1), designed[n - 1], cos(Angle(omega, n - 1)), blend);
    }
  }

  lemma UnitStep(cos: Cosine, omega: real, n: nat)
    requires n > 0
    ensures UnitGain(cos, omega, n) == UnitGain(cos, omega, n - 1) + Product(Unit(n - 1), cos(Angle(omega, n - 1)))
  {
    if n - 1 == CENTER {
      assert (n - 1) as real - CENTER as real == 0.0;
    }
  }

  lemma CosineOfZero(cos: Cosine, omega: real)
    requires cos(0.0) == 1.0
    ensures cos(omega * 0.0) == 1.0
  {
    assert omega * 0.0 == 0.0;
  }

  /** Blending keeps unit gain wherever the designed filter has it. */
  lemma BlendKeepsUnitGain(designed: seq<real>, blend: real, cos: Cosine, frequency: real)
    requires |designed| == TAPS && cos(0.0) == 1.0 && Gain(designed, cos, frequency) == 1.0
    ensures Gain(Blended(designed, blend), cos, frequency) == 1.0
  {
    BlendedGain(designed, blend, cos, Omega(frequency), TAPS);
    CosineOfZero(cos, Omega(frequency));
  }

  /** With nothing of the design left the gain is one at every frequency, and so is the sum of the taps. */
  lemma IdentityIsAcceptable(designed: seq<real>, cos: Cosine)
    requires |designed| == TAPS && cos(0.0) == 1.0
    ensures forall f :: Gain(Blended(designed, 0.0), cos, f) == 1.0
    ensures AbsSum(Blended(designed, 0.0)) == 1.0
  {
    forall f ensures Gain(Blended(designed, 0.0), cos, f) == 1.0 {
      BlendedGain(designed, 0.0, cos, Omega(f), TAPS);
      CosineOfZero(cos, Omega(f));
    }
    UnitSum(designed, TAPS);
    assert Blended(designed, 0.0)[..TAPS] == Blended(designed, 0.0);
  }

  lemma {:induction false} UnitSum(designed: seq<real>, n: nat)
    requires n <= |designed|
    ensures AbsSum(Blended(designed, 0.0)[..n]) == if n > CENTER then 1.0 else 0.0
  {
    if n > 0 {
      UnitSum(designed, n - 1);
      var b := Blended(designed, 0.0);
      assert b[..n][..n - 1] == b[..n - 1];
      assert b[n - 1] == Unit(n - 1);
    }
  }

  lemma BlendKeepsSymmetry(designed: seq<real>, blend: real)
    requires |designed| == TAPS && Symmetric(designed)
    ensures Symmetric(Blended(designed, blend))
  {}

  // ---------------------------------------------------------------- acceptance

  /** Gain above 0.05 at low, low + 100, ... up to high. */
  ghost predicate Passes(taps: seq<real>, cos: Cosine, low: real, high: real)
    requires |taps| == TAPS
  {
    forall k: nat :: Step(low, k) <= high ==> Gain(taps, cos, Step(low, k)) > 0.05
  }

  function Step(low: real, k: nat): real {
    low + 100.0 * k as real
  }

  ghost predicate Acceptable(taps: seq<real>, cos: Cosine, low: real, high: real)
    requires |taps| == TAPS
  {
    AbsSum(taps) <= HEADROOM && Passes(taps, cos, low, high)
  }

  method CheckBand(taps: seq<real>, cos: Cosine, low: real, high: real) returns (acceptable: bool)
    requires |taps| == TAPS
    ensures acceptable <==> Passes(taps, cos, low, high)
  {
    hide Gain;
    acceptable := true;
    var frequency := low;
    ghost var k: nat := 0;
    while acceptable && frequency <= high
      invariant frequency == Step(low, k) || !acceptable
      invariant acceptable ==> forall j: nat :: j < k ==> Gain(taps, cos, Step(low, j)) > 0.05
      invariant !acceptable ==> !Passes(taps, cos, low, high)
      decreases acceptable, high - frequency
    {
      var gain := ZeroPhaseGain(taps, cos, frequency);
      acceptable := gain > 0.05;
      frequency := frequency + 100.0;
      k := k + 1;
    }
    if acceptable {
      forall j: nat | Step(low, j) <= high ensures Gain(taps, cos, Step(low, j)) > 0.05 {
        assert Step(low, j) < Step(low, k);
      }
    }
  }

  method AbsoluteSum(taps: seq<real>) returns (sum: real)
    ensures sum == AbsSum(taps)
  {
    sum := 0.0;
    for row := 0 to |taps|
      invariant sum == AbsSum(taps[..row])
    {
      sum := sum + Abs(taps[row]);
      assert taps[..row + 1][..row] == taps[..row];
    }
    assert taps[..|taps|] == taps;
  }

  /** Blends 1, 0.95, 0.9, ..., 0. */
  function BlendStep(k: nat): real {
    1.0 - 0.05 * k as real
  }

  /** Of the twenty-one blends, `taps` is the first acceptable one; nothing nearer the design would do. */
  ghost predicate FirstAcceptable(designed: seq<real>, cos: Cosine, low: real, high: real, k: nat, taps: seq<real>)
    requires |designed| == TAPS
  {
    && k <= 20 && taps == Blended(designed, BlendStep(k)) && Acceptable(taps, cos, low, high)
    && forall j: nat | j < k :: !Acceptable(Blended(designed, BlendStep(j)), cos, low, high)
  }

  /**
   The blend loop, from the design towards the identity in steps of one twentieth: it
   stops at the first acceptable blend, in exact arithmetic at the identity if not before.
   */
  method BlendUntilAcceptable(designed: seq<real>, cos: Cosine, low: real, high: real)
    returns (acceptable: bool, taps: seq<real>, ghost used: nat)
    requires |designed| == TAPS && cos(0.0) == 1.0
    ensures acceptable && FirstAcceptable(designed, cos, low, high, used, taps)
  {
    IdentityIsAcceptable(designed, cos);
    hide Blended, Gain, AbsSum, Passes;
    var blend := 1.0;
    ghost var k := 0;
    acceptable, taps, used := false, designed, 0;
    while blend >= 0.0 && !acceptable
      invariant 0 <= k <= 21 && blend == BlendStep(k)
      invariant acceptable ==> FirstAcceptable(designed, cos, low, high, used, taps)
      invariant !acceptable ==> k <= 20 && forall j: nat | j < k :: !Acceptable(Blended(designed, BlendStep(j)), cos, low, high)
      decreases 21 - k
    {
      taps := Blend(designed, blend);
      used := k;
      var sum := AbsoluteSum(taps);
      acceptable := sum <= HEADROOM;
      if acceptable {
        acceptable := CheckBand(taps, cos, low, high);
      }
      if k == 20 {
        assert blend == 0.0;
        PassesEverywhere(taps, cos, low, high);
      }
      blend := blend - 0.05;
      k := k + 1;
    }
  }

  /** Blending with all of the design is the design. */
  lemma WholeBlend(designed: seq<real>)
    ensures Blended(designed, 1.0) == designed
  {}

  /** So an acceptable design is used as it is. */
  lemma AcceptableIsKept(designed: seq<real>, cos: Cosine, low: real, high: real, k: nat, taps: seq<real>)
    requires |designed| == TAPS && Acceptable(designed, cos, low, high) && FirstAcceptable(designed, cos, low, high, k, taps)
    ensures taps == designed
  {
    WholeBlend(designed);
    assert BlendStep(0) == 1.0;
    hide Blended, Acceptable;
  }

  lemma PassesEverywhere(taps: seq<real>, cos: Cosine, low: real, high: real)
    requires |taps| == TAPS && forall f :: Gain(taps, cos, f) == 1.0
    ensures Passes(taps, cos, low, high)
  {
    hide Gain;
  }

  method Blend(designed: seq<real>, blend: real) returns (taps: seq<real>)
    ensures taps == Blended(designed, blend)
  {
    taps := [];
    for row := 0 to |designed|
      invariant |taps| == row && forall i | 0 <= i < row :: taps[i] == Blended(designed, blend)[i]
    {
      var identity := if row == CENTER then 1.0 else 0.0;
      taps := taps + [identity + blend * (designed[row] - identity)];
    }
  }

  // ---------------------------------------------------------------- the least-squares system

  datatype Points = Points(frequencies: seq<nat>, amplitudes: seq<real>)

  predicate InBand(f: nat, low: real, high: real) {
    low <= f as real <= high
  }

  /** A point of the band: its amplitude is positive and its frequency rises above the one before. */
  predicate GoodPoint(p: Points, k: nat)
    requires |p.frequencies| == |p.amplitudes| && k < |p.frequencies|
  {
    p.amplitudes[k] > 0.0 && (k > 0 ==> p.frequencies[k] > p.frequencies[k - 1])
  }

  function Used(p: Points, low: real, high: real, n: nat): nat
    requires n <= |p.frequencies|
  {
    if n == 0 then 0 else Used(p, low, high, n - 1) + if InBand(p.frequencies[n - 1], low, high) then 1 else 0
  }

  predicate Usable(p: Points, carrier: real, low: real, high: real)
    requires |p.frequencies| == |p.amplitudes|
  {
    && |p.frequencies| >= 3 && carrier > 0.0 && low >= 0.0 && high > low
    && (forall k | 0 <= k < |p.frequencies| && InBand(p.frequencies[k], low, high) :: GoodPoint(p, k))
    && Used(p, low, high, |p.frequencies|) >= 3
  }

  method Validate(p: Points, carrier: real, low: real, high: real) returns (ok: bool)
    requires |p.frequencies| == |p.amplitudes|
    ensures ok <==> Usable(p, carrier, low, high)
  {
    if |p.frequencies| < 3 || carrier <= 0.0 || low < 0.0 || high <= low {
      return false;
    }
    var used := 0;
    for point := 0 to |p.frequencies|
      invariant used == Used(p, low, high, point)
      invariant forall k | 0 <= k < point && InBand(p.frequencies[k], low, high) :: GoodPoint(p, k)
    {
      if low <= p.frequencies[point] as real <= high {
        if p.amplitudes[point] <= 0.0 || (point > 0 && p.frequencies[point] <= p.frequencies[point - 1]) {
          return false;
        }
        used := used + 1;
      }
    }
    return used >= 3;
  }

  function Basis(cos: Cosine, f: nat, column: nat): real {
    if column == 0 then 1.0 else 2.0 * cos(Omega(f as real) * column as real)
  }

  /** The inverse response wanted at a point, limited to 2.5. */
  function Desired(reference: real, amplitude: real): real
    requires amplitude > 0.0
  {
    if reference / amplitude > 2.5 then 2.5 else reference / amplitude
  }

  /** What point k adds to an entry of the normal equations. */
  function Share(p: Points, cos: Cosine, reference: real, k: nat, row: nat, column: nat): real
    requires k < |p.frequencies| == |p.amplitudes| && p.amplitudes[k] > 0.0
  {
    Basis(cos, p.frequencies[k], row)
    * if column < COEFFICIENTS then Basis(cos, p.frequencies[k], column) else Desired(reference, p.amplitudes[k])
  }

  /** The sum of the in-band points' shares. */
  function Normal(p: Points, cos: Cosine, reference: real, low: real, high: real, n: nat, row: nat, column: nat): real
    requires n <= |p.frequencies| == |p.amplitudes|
    requires forall k | 0 <= k < n && InBand(p.frequencies[k], low, high) :: p.amplitudes[k] > 0.0
  {
    if n == 0 then 0.0
    else
      Normal(p, cos, reference, low, high, n - 1, row, column)
      + if InBand(p.frequencies[n - 1], low, high) then Share(p, cos, reference, n - 1, row, column) else 0.0
  }

  /** Regularization pulls towards the identity filter. */
  function Pull(row: nat, column: nat): real {
    if row == column || (row == 0 && column == COEFFICIENTS) then REGULARIZATION else 0.0
  }

  ghost predicate NormalSystem(m: Matrix, p: Points, cos: Cosine, reference: real, low: real, high: real)
    requires |p.frequencies| == |p.amplitudes|
    requires forall k | 0 <= k < |p.frequencies| && InBand(p.frequencies[k], low, high) :: p.amplitudes[k] > 0.0
  {
    Shaped(m, COEFFICIENTS) && forall row, column | 0 <= row < COEFFICIENTS && 0 <= column <= COEFFICIENTS ::
      m[row][column] == Normal(p, cos, reference, low, high, |p.frequencies|, row, column) + Pull(row, column)
  }

  method AddPoint(normal: array2<real>, p: Points, cos: Cosine, reference: real, k: nat)
    requires normal.Length0 == COEFFICIENTS && normal.Length1 == COEFFICIENTS + 1
    requires k < |p.frequencies| == |p.amplitudes| && p.amplitudes[k] > 0.0
    modifies normal
    ensures forall row, column | 0 <= row < COEFFICIENTS && 0 <= column <= COEFFICIENTS ::
      normal[row, column] == old(normal[row, column]) + Share(p, cos, reference, k, row, column)
  {
    hide Basis, Desired;
    var f := p.frequencies[k];
    var desired := Desired(reference, p.amplitudes[k]);
    for row := 0 to COEFFICIENTS
      invariant forall r, c | 0 <= r < COEFFICIENTS && 0 <= c <= COEFFICIENTS ::
        normal[r, c] == old(normal[r, c]) + if r < row then Share(p, cos, reference, k, r, c) else 0.0
    {
      for column := 0 to COEFFICIENTS
        invariant forall r, c | 0 <= r < COEFFICIENTS && 0 <= c <= COEFFICIENTS ::
          normal[r, c] == old(normal[r, c]) + if r < row || (r == row && c < column) then Share(p, cos, reference, k, r, c) else 0.0
      {
        normal[row, column] := normal[row, column] + Basis(cos, f, row) * Basis(cos, f, column);
      }
      normal[row, COEFFICIENTS] := normal[row, COEFFICIENTS] + Basis(cos, f, row) * desired;
    }
  }

  method BuildNormal(p: Points, cos: Cosine, reference: real, low: real, high: real) returns (normal: array2<real>)
    requires |p.frequencies| == |p.amplitudes|
    requires forall k | 0 <= k < |p.frequencies| && InBand(p.frequencies[k], low, high) :: p.amplitudes[k] > 0.0
    ensures fresh(normal) && normal.Length0 == COEFFICIENTS && normal.Length1 == COEFFICIENTS + 1
    ensures NormalSystem(Rows(normal), p, cos, reference, low, high)
  {
    hide Share;
    normal := new real[COEFFICIENTS, COEFFICIENTS + 1]((r, c) => 0.0);
    for point := 0 to |p.frequencies|
      invariant forall r, c | 0 <= r < COEFFICIENTS && 0 <= c <= COEFFICIENTS ::
        normal[r, c] == Normal(p, cos, reference, low, high, point, r, c)
    {
      if low <= p.frequencies[point] as real <= high {
        AddPoint(normal, p, cos, reference, point);
      }
    }
    hide Normal;
    for row := 0 to COEFFICIENTS
      invariant forall r, c | 0 <= r < COEFFICIENTS && 0 <= c <= COEFFICIENTS ::
        normal[r, c] == Normal(p, cos, reference, low, high, |p.frequencies|, r, c) + if r < row then Pull(r, c) else 0.0
    {
      normal[row, row] := normal[row, row] + REGULARIZATION;
      normal[row, COEFFICIENTS] := normal[row, COEFFICIENTS] + if row == 0 then REGULARIZATION else 0.0;
    }
  }
}
