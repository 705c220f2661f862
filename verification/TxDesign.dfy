/**
 `rtnc_tx_eq_design` of src/platform/tx_eq.c: least squares, mirroring, unit gain at
 the carrier, and blending; and the centred convolution that applies the filter.
 */
module TxDesign {
  import opened Numbers
  import opened LinearSolver
  import opened TxEq
  import TxOptimal
  import TxPivots

  // ---------------------------------------------------------------- interpolation

  /** r is on the straight line between points k - 1 and k at frequency f. */
  predicate OnSegment(p: Points, k: nat, f: real, r: real)
    requires 0 < k < |p.frequencies| == |p.amplitudes|
  {
    var x, y := p.frequencies[k - 1] as real, p.frequencies[k] as real;
    x < f <= y && (r - p.amplitudes[k - 1]) * (y - x) == (f - x) * (p.amplitudes[k] - p.amplitudes[k - 1])
  }

  /** The response at f: the first or last amplitude outside the points, else linear between two of them. */
  predicate Interpolated(p: Points, f: real, r: real)
    requires 0 < |p.frequencies| == |p.amplitudes|
  {
    var n := |p.frequencies|;
    if f <= p.frequencies[0] as real then r == p.amplitudes[0]
    else if forall k | 0 <= k < n :: f > p.frequencies[k] as real then r == p.amplitudes[n - 1]
    else exists k | 0 < k < n :: OnSegment(p, k, f, r) && FirstAbove(p, k, f)
  }

  predicate FirstAbove(p: Points, k: nat, f: real)
    requires k < |p.frequencies|
  {
    f <= p.frequencies[k] as real && forall j | 0 <= j < k :: f > p.frequencies[j] as real
  }

  lemma OnlyOnSegment(p: Points, k: nat, f: real, r: real, s: real)
    requires 0 < k < |p.frequencies| == |p.amplitudes| && OnSegment(p, k, f, r) && OnSegment(p, k, f, s)
    ensures r == s
  {
    var x, y := p.frequencies[k - 1] as real, p.frequencies[k] as real;
    OneHeight(r, s, p.amplitudes[k - 1], y - x, (f - x) * (p.amplitudes[k] - p.amplitudes[k - 1]));
  }

  lemma OneHeight(r: real, s: real, start: real, run: real, area: real)
    requires run != 0.0 && (r - start) * run == area && (s - start) * run == area
    ensures r == s
  {
    Cancel(r - start, s - start, run);
  }

  /** There is one response at each frequency, in order or not. */
  lemma InterpolatedOnce(p: Points, f: real, r: real, s: real)
    requires 0 < |p.frequencies| == |p.amplitudes| && Interpolated(p, f, r) && Interpolated(p, f, s)
    ensures r == s
  {
    hide OnSegment;
    if f > p.frequencies[0] as real && exists k | 0 <= k < |p.frequencies| :: f <= p.frequencies[k] as real {
      var i :| 0 < i < |p.frequencies| && OnSegment(p, i, f, r) && FirstAbove(p, i, f);
      var j :| 0 < j < |p.frequencies| && OnSegment(p, j, f, s) && FirstAbove(p, j, f);
      assert i == j;
      OnlyOnSegment(p, i, f, r, s);
    }
  }

  /** `interpolate`; the two frequencies it divides by are never equal, sorted or not. */
  method Interpolate(p: Points, f: real) returns (r: real)
    requires 0 < |p.frequencies| == |p.amplitudes|
    ensures Interpolated(p, f, r)
  {
    if f <= p.frequencies[0] as real {
      return p.amplitudes[0];
    }
    for point := 1 to |p.frequencies|
      invariant forall k | 0 <= k < point :: f > p.frequencies[k] as real
    {
      if f <= p.frequencies[point] as real {
        var x, y := p.frequencies[point - 1] as real, p.frequencies[point] as real;
        assert f > x;
        var fraction := (f - x) / (y - x);
        r := p.amplitudes[point - 1] + fraction * (p.amplitudes[point] - p.amplitudes[point - 1]);
        Slope(f - x, y - x, p.amplitudes[point] - p.amplitudes[point - 1]);
        assert OnSegment(p, point, f, r) && FirstAbove(p, point, f);
        return;
      }
    }
    r := p.amplitudes[|p.frequencies| - 1];
  }

  lemma Slope(rise: real, run: real, height: real)
    requires run != 0.0
    ensures (rise / run) * height * run == rise * height
  {
    assert (rise / run) * run == rise;
  }

  // ---------------------------------------------------------------- mirror and normalize

  function Distance(row: nat): nat
    requires row < TAPS
  {
    if row > CENTER then row - CENTER else CENTER - row
  }

  function Mirrored(coefficients: seq<real>): (r: seq<real>)
    requires |coefficients| == COEFFICIENTS
    ensures |r| == TAPS && Symmetric(r)
  {
    seq(TAPS, row requires 0 <= row < TAPS => coefficients[Distance(row)])
  }

  method Mirror(coefficients: seq<real>) returns (taps: seq<real>)
    requires |coefficients| == COEFFICIENTS
    ensures taps == Mirrored(coefficients)
  {
    taps := [];
    for row := 0 to TAPS
      invariant |taps| == row && forall i | 0 <= i < row :: taps[i] == coefficients[Distance(i)]
    {
      taps := taps + [coefficients[Distance(row)]];
    }
  }

  lemma {:induction false} DividedGain(taps: seq<real>, g: real, cos: Cosine, omega: real, n: nat)
    requires g != 0.0 && n <= |taps|
    ensures GainTo(Divided(taps, g), cos, omega, n) * g == GainTo(taps, cos, omega, n)
  {
    if n > 0 {
      DividedGain(taps, g, cos, omega, n - 1);
      var c, s := cos(Angle(omega, n - 1)), Divided(taps, g);
      Cancel(taps[n - 1], 0.0, g);
      hide Angle;
      Factor(s[n - 1], c, g);
      Distribute(GainTo(s, cos, omega, n - 1), s[n - 1] * c, g);
    }
  }

  /** Dividing by the gain at the carrier gives unit gain there. */
  lemma UnitAtCarrier(taps: seq<real>, cos: Cosine, carrier: real)
    requires |taps| == TAPS && Gain(taps, cos, carrier) != 0.0
    ensures Gain(Divided(taps, Gain(taps, cos, carrier)), cos, carrier) == 1.0
  {
    var g := Gain(taps, cos, carrier);
    DividedGain(taps, g, cos, Omega(carrier), TAPS);
    hide GainTo, Omega, Divided;
    Cancel(Gain(Divided(taps, g), cos, carrier), 1.0, g);
  }

  lemma DividedSymmetric(taps: seq<real>, g: real)
    requires g != 0.0 && Symmetric(taps)
    ensures Symmetric(Divided(taps, g))
  {}

  method Normalize(taps: seq<real>, g: real) returns (r: seq<real>)
    requires g != 0.0
    ensures r == Divided(taps, g)
  {
    r := [];
    for row := 0 to |taps|
      invariant |r| == row && forall i | 0 <= i < row :: r[i] == taps[i] / g
    {
      r := r + [taps[row] / g];
    }
  }

  // ---------------------------------------------------------------- design

  /** c is the one solution of the normal equations of the points. */
  ghost predicate LeastSquares(p: Points, cos: Cosine, carrier: real, low: real, high: real, c: seq<real>)
    requires |p.frequencies| == |p.amplitudes| && Usable(p, carrier, low, high)
  {
    exists m: Matrix, reference: real ::
      && Interpolated(p, carrier, reference) && NormalSystem(m, p, cos, reference, low, high) && |c| == COEFFICIENTS
      && OnlySolution(m, c)
  }

  ghost predicate OnlySolution(m: Matrix, c: seq<real>) {
    forall x: seq<real> | |x| == |c| :: Solves(m, x) <==> x == c
  }

  /** The coefficients are determined by the points. */
  lemma LeastSquaresOnce(p: Points, cos: Cosine, carrier: real, low: real, high: real, c: seq<real>, e: seq<real>)
    requires |p.frequencies| == |p.amplitudes| && Usable(p, carrier, low, high)
    requires LeastSquares(p, cos, carrier, low, high, c) && LeastSquares(p, cos, carrier, low, high, e)
    ensures c == e
  {
    hide Interpolated, Normal, Pull, Solves;
    var m: Matrix, r: real :|
      Interpolated(p, carrier, r) && NormalSystem(m, p, cos, r, low, high) && |c| == COEFFICIENTS && OnlySolution(m, c);
    var l: Matrix, s: real :|
      Interpolated(p, carrier, s) && NormalSystem(l, p, cos, s, low, high) && |e| == COEFFICIENTS && OnlySolution(l, e);
    InterpolatedOnce(p, carrier, r, s);
    forall row | 0 <= row < COEFFICIENTS ensures m[row] == l[row] {
      assert forall column | 0 <= column <= COEFFICIENTS :: m[row][column] == l[row][column];
    }
    assert m == l;
    assert Solves(m, c) && Solves(m, e);
  }

  /** The elimination always finds its pivots, so there are always coefficients. */
  method Coefficients(p: Points, cos: Cosine, carrier: real, low: real, high: real) returns (ok: bool, c: seq<real>)
    requires |p.frequencies| == |p.amplitudes| && Usable(p, carrier, low, high)
    ensures ok && |c| == COEFFICIENTS && LeastSquares(p, cos, carrier, low, high, c)
  {
    hide Interpolated, NormalSystem, Solves, Stuck, NearlySingular;
    var reference := Interpolate(p, carrier);
    var normal := BuildNormal(p, cos, reference, low, high);
    ghost var m := Rows(normal);
    TxPivots.NormalIsRegular(m, p, cos, reference, low, high);
    ok, c := Solve(normal);
    assert OnlySolution(m, c);
  }

  /**
   A design fails exactly on unusable points or when the raw carrier gain is below 0.1:
   neither the elimination nor the blend ever fails. A design that succeeds is
   symmetric, keeps the headroom, has gain one at the carrier and more than 0.05 at
   every 100 Hz step of the band, and no blend nearer the raw design does.
   */
  method Design(p: Points, cos: Cosine, carrier: real, low: real, high: real)
    returns (ok: bool, taps: seq<real>, ghost c: seq<real>, ghost used: nat)
    requires |p.frequencies| == |p.amplitudes| && cos(0.0) == 1.0
    ensures Usable(p, carrier, low, high) ==> |c| == COEFFICIENTS && LeastSquares(p, cos, carrier, low, high, c)
    ensures ok <==> Usable(p, carrier, low, high) && Gain(Mirrored(c), cos, carrier) >= 0.1
    ensures ok ==> |taps| == TAPS && Symmetric(taps) && Acceptable(taps, cos, low, high) && Gain(taps, cos, carrier) == 1.0
    ensures ok ==> AbsSum(taps) <= 7.9 && forall k: nat :: low + 100.0 * k as real <= high ==> Gain(taps, cos, Step(low, k)) > 0.05
    ensures ok ==> FirstAcceptable(Divided(Mirrored(c), Gain(Mirrored(c), cos, carrier)), cos, low, high, used, taps)
  {
    hide Usable, LeastSquares, Gain, Acceptable, Mirrored, Divided, Blended, Symmetric;
    ok, taps, c, used := false, [], [], 0;
    var usable := Validate(p, carrier, low, high);
    if !usable {
      return;
    }
    var solved, coefficients := Coefficients(p, cos, carrier, low, high);
    if !solved {
      assert false;
    }
    c := coefficients;
    var raw := Mirror(coefficients);
    var carrierGain := ZeroPhaseGain(raw, cos, carrier);
    if carrierGain < 0.1 {
      return;
    }
    var designed := Normalize(raw, carrierGain);
    UnitAtCarrier(raw, cos, carrier);
    DividedSymmetric(raw, carrierGain);
    ok, taps, used := BlendUntilAcceptable(designed, cos, low, high);
    AcceptableIs(taps, cos, low, high);
    BlendKeepsUnitGain(designed, BlendStep(used), cos, carrier);
    BlendKeepsSymmetry(designed, BlendStep(used));
  }

  lemma AcceptableIs(taps: seq<real>, cos: Cosine, low: real, high: real)
    requires |taps| == TAPS && Acceptable(taps, cos, low, high)
    ensures AbsSum(taps) <= 7.9 && forall k: nat :: low + 100.0 * k as real <= high ==> Gain(taps, cos, Step(low, k)) > 0.05
  {
    hide Gain, AbsSum;
    forall k: nat | low + 100.0 * k as real <= high ensures Gain(taps, cos, Step(low, k)) > 0.05 {
      assert Step(low, k) <= high;
    }
  }

  /** The coefficients behind every design are the best ones for the interpolated carrier response. */
  lemma DesignIsOptimal(p: Points, cos: Cosine, carrier: real, low: real, high: real, c: seq<real>) returns (reference: real)
    requires |p.frequencies| == |p.amplitudes| && Usable(p, carrier, low, high) && |c| == COEFFICIENTS
    requires LeastSquares(p, cos, carrier, low, high, c)
    ensures Interpolated(p, carrier, reference) && TxOptimal.Design(p, cos, reference, low, high).Valid()
    ensures TxOptimal.Optimal(TxOptimal.Design(p, cos, reference, low, high), c)
  {
    hide Interpolated, NormalSystem, TxOptimal.Cost, Solves;
    var m: Matrix, r: real :|
      Interpolated(p, carrier, r) && NormalSystem(m, p, cos, r, low, high) && |c| == COEFFICIENTS && OnlySolution(m, c);
    reference := r;
    var d := TxOptimal.Design(p, cos, r, low, high);
    forall x: seq<real> | |x| == COEFFICIENTS && x != c ensures TxOptimal.Cost(d, x) > TxOptimal.Cost(d, c) {
      TxOptimal.SolutionIsOptimal(d, m, c, x);
    }
  }

  // ---------------------------------------------------------------- the filter behind the coefficients

  ghost predicate Even(cos: Cosine) {
    forall x :: cos(-x) == cos(x)
  }

  /** What a pair of equal taps at distance n contributes. */
  function Harmonic(cos: Cosine, omega: real, n: nat): real {
    2.0 * cos(omega * n as real)
  }

  /** Both taps at distance j from the centre. */
  lemma PairOfTaps(x: seq<real>, cos: Cosine, omega: real, j: nat)
    requires |x| == COEFFICIENTS && Even(cos) && 0 < j < COEFFICIENTS
    ensures Product(Mirrored(x)[CENTER - j], cos(Angle(omega, CENTER - j))) + Product(Mirrored(x)[CENTER + j], cos(Angle(omega, CENTER + j)))
         == Product(Harmonic(cos, omega, j), x[j])
  {
    assert Angle(omega, CENTER + j) == omega * j as real;
    assert Angle(omega, CENTER - j) == -(omega * j as real);
  }

  lemma MiddleTap(x: seq<real>, cos: Cosine, omega: real)
    requires |x| == COEFFICIENTS && cos(0.0) == 1.0
    ensures Product(Mirrored(x)[CENTER], cos(Angle(omega, CENTER))) == Product(1.0, x[0])
  {
    assert Angle(omega, CENTER) == 0.0;
  }

  /** Taps within distance n of the centre. */
  function Around(taps: seq<real>, cos: Cosine, omega: real, n: nat): real
    requires |taps| == TAPS && n <= CENTER
  {
    if n == 0 then Product(taps[CENTER], cos(Angle(omega, CENTER)))
    else
      Around(taps, cos, omega, n - 1) + Product(taps[CENTER - n], cos(Angle(omega, CENTER - n))) + Product(taps[CENTER + n], cos(Angle(omega, CENTER + n)))
  }

  lemma {:induction false} AroundIsSum(taps: seq<real>, cos: Cosine, omega: real, n: nat)
    requires |taps| == TAPS && n <= CENTER
    ensures Around(taps, cos, omega, n) == GainTo(taps, cos, omega, CENTER + n + 1) - GainTo(taps, cos, omega, CENTER - n)
  {
    hide GainTo, Product, Angle;
    GainStep(taps, cos, omega, CENTER + n + 1);
    if n > 0 {
      AroundIsSum(taps, cos, omega, n - 1);
      GainStep(taps, cos, omega, CENTER - n + 1);
    }
  }

  lemma {:induction false} AroundIsModel(d: TxOptimal.Design, k: nat, x: seq<real>, n: nat)
    requires k < |d.p.frequencies| && |x| == COEFFICIENTS && Even(d.cos) && d.cos(0.0) == 1.0 && n <= CENTER
    ensures Around(Mirrored(x), d.cos, Omega(d.p.frequencies[k] as real), n) == TxOptimal.Model(d, k, x, n + 1)
  {
    hide Mirrored, Product, Angle, Omega, Harmonic, Product, TxOptimal.Model, Even;
    var omega := Omega(d.p.frequencies[k] as real);
    ModelStep(d, k, x, n);
    if n == 0 {
      MiddleTap(x, d.cos, omega);
    } else {
      AroundIsModel(d, k, x, n - 1);
      PairOfTaps(x, d.cos, omega, n);
      AroundStep(Mirrored(x), d.cos, omega, n);
      hide Around;
    }
  }

  lemma AroundStep(taps: seq<real>, cos: Cosine, omega: real, n: nat)
    requires |taps| == TAPS && 0 < n <= CENTER
    ensures Around(taps, cos, omega, n) == Around(taps, cos, omega, n - 1)
         + (Product(taps[CENTER - n], cos(Angle(omega, CENTER - n))) + Product(taps[CENTER + n], cos(Angle(omega, CENTER + n))))
  {
    hide Product, Angle;
  }

  lemma ModelStep(d: TxOptimal.Design, k: nat, x: seq<real>, n: nat)
    requires k < |d.p.frequencies| && n < |x| == COEFFICIENTS
    ensures var basis := if n == 0 then 1.0 else Harmonic(d.cos, Omega(d.p.frequencies[k] as real), n);
      TxOptimal.Model(d, k, x, n + 1) == (if n == 0 then 0.0 else TxOptimal.Model(d, k, x, n)) + Product(basis, x[n])
  {
    hide Product, Omega;
  }

  /** The response that the least squares fit is the gain of the mirrored filter. */
  lemma ModelIsGain(d: TxOptimal.Design, k: nat, x: seq<real>)
    requires k < |d.p.frequencies| && |x| == COEFFICIENTS && Even(d.cos) && d.cos(0.0) == 1.0
    ensures TxOptimal.Model(d, k, x, COEFFICIENTS) == Gain(Mirrored(x), d.cos, d.p.frequencies[k] as real)
  {
    AroundIsModel(d, k, x, CENTER);
    AroundIsSum(Mirrored(x), d.cos, Omega(d.p.frequencies[k] as real), CENTER);
    hide Mirrored, Around, Omega;
  }

  /**
   Where the fit is perfect the filter makes the channel flat, at the level of the
   carrier, unless that would take more than 2.5; there it is 2.5.
   */
  lemma PerfectFitIsFlat(d: TxOptimal.Design, k: nat, x: seq<real>)
    requires d.Valid() && k < |d.p.frequencies| && d.Counts(k) && |x| == COEFFICIENTS && Even(d.cos) && d.cos(0.0) == 1.0
    requires TxOptimal.Error(d, k, x) == 0.0
    ensures var gain := Gain(Mirrored(x), d.cos, d.p.frequencies[k] as real);
      if d.reference <= 2.5 * d.p.amplitudes[k] then gain * d.p.amplitudes[k] == d.reference else gain == 2.5
  {
    ModelIsGain(d, k, x);
    Level(d.reference, d.p.amplitudes[k]);
    hide Gain, Mirrored, TxOptimal.Model;
  }

  lemma Level(reference: real, amplitude: real)
    requires amplitude > 0.0
    ensures reference <= 2.5 * amplitude ==> Desired(reference, amplitude) * amplitude == reference
    ensures reference > 2.5 * amplitude ==> Desired(reference, amplitude) == 2.5
  {
    var q := reference / amplitude;
    assert q * amplitude == reference;
    if q > 2.5 {
      Grows(2.5, q, amplitude);
    } else if q < 2.5 {
      Grows(q, 2.5, amplitude);
    }
  }

  lemma Grows(x: real, y: real, k: real)
    requires x < y && k > 0.0
    ensures x * k < y * k
  {}

  /** A frequency of f Hz turns f times in a second of samples. */
  lemma TurnsPerSecond(f: real)
    ensures Omega(f) * 48000.0 == f * (2.0 * 3.14159265358979323846)
  {}

  // ---------------------------------------------------------------- convolution

  /** Sample index + CENTER - tap, zero outside the waveform. */
  function SampleAt(samples: seq<real>, index: nat, tap: nat): real {
    var at := index + CENTER - tap;
    if 0 <= at < |samples| then samples[at] else 0.0
  }

  function ConvolvedTo(taps: seq<real>, samples: seq<real>, index: nat, n: nat): real
    requires n <= |taps|
  {
    if n == 0 then 0.0 else ConvolvedTo(taps, samples, index, n - 1) + taps[n - 1] * SampleAt(samples, index, n - 1)
  }

  function Reals(samples: seq<int>): (r: seq<real>)
    ensures |r| == |samples| && forall i | 0 <= i < |r| :: r[i] == samples[i] as real
  {
    seq(|samples|, i requires 0 <= i < |samples| => samples[i] as real)
  }

  method ApplySample(taps: seq<real>, samples: seq<int>, index: nat) returns (output: real)
    requires |taps| == TAPS
    ensures output == if index < |samples| then ConvolvedTo(taps, Reals(samples), index, TAPS) else 0.0
  {
    if index >= |samples| {
      return 0.0;
    }
    output := 0.0;
    for tap := 0 to TAPS
      invariant output == ConvolvedTo(taps, Reals(samples), index, tap)
    {
      var leading := if CENTER > tap then CENTER - tap else 0;
      var trailing := if tap > CENTER then tap - CENTER else 0;
      assert index + CENTER - tap == index + leading - trailing;
      if index >= trailing && index + leading < |samples| {
        output := output + taps[tap] * samples[index + leading - trailing] as real;
      } else {
        assert taps[tap] * 0.0 == 0.0;
      }
    }
  }

  function Backwards(samples: seq<real>): (r: seq<real>)
    ensures |r| == |samples|
  {
    seq(|samples|, i requires 0 <= i < |samples| => samples[|samples| - 1 - i])
  }

  lemma SampleBackwards(samples: seq<real>, index: nat, tap: nat)
    requires index < |samples| && tap < TAPS
    ensures SampleAt(Backwards(samples), |samples| - 1 - index, tap) == SampleAt(samples, index, TAPS - 1 - tap)
  {}

  /** The same sum from the other end: taps n .. 16. */
  function ConvolvedFrom(taps: seq<real>, samples: seq<real>, index: nat, n: nat): real
    requires n <= |taps|
    decreases |taps| - n
  {
    if n == |taps| then 0.0 else taps[n] * SampleAt(samples, index, n) + ConvolvedFrom(taps, samples, index, n + 1)
  }

  lemma {:induction false} TwoHalves(taps: seq<real>, samples: seq<real>, index: nat, n: nat)
    requires n <= |taps|
    ensures ConvolvedTo(taps, samples, index, n) + ConvolvedFrom(taps, samples, index, n) == ConvolvedTo(taps, samples, index, |taps|)
    decreases |taps| - n
  {
    hide SampleAt;
    if n < |taps| {
      TwoHalves(taps, samples, index, n + 1);
    }
  }

  lemma {:induction false} MirroredSum(taps: seq<real>, samples: seq<real>, index: nat, n: nat)
    requires |taps| == TAPS && Symmetric(taps) && index < |samples| && n <= TAPS
    ensures ConvolvedTo(taps, Backwards(samples), |samples| - 1 - index, n) == ConvolvedFrom(taps, samples, index, TAPS - n)
  {
    hide SampleAt, Backwards;
    if n > 0 {
      MirroredSum(taps, samples, index, n - 1);
      SampleBackwards(samples, index, n - 1);
    }
  }

  /** A symmetric filter delays nothing: filtering a waveform backwards is filtering it and turning the result round. */
  lemma ZeroPhase(taps: seq<real>, samples: seq<real>, index: nat)
    requires |taps| == TAPS && Symmetric(taps) && index < |samples|
    ensures ConvolvedTo(taps, Backwards(samples), |samples| - 1 - index, TAPS) == ConvolvedTo(taps, samples, index, TAPS)
  {
    MirroredSum(taps, samples, index, TAPS);
    TwoHalves(taps, samples, index, 0);
  }

  // ---------------------------------------------------------------- what the filter does to a tone

  /** The addition theorem, all that is asked of the cosine here. */
  ghost predicate Adds(cos: Cosine) {
    forall x, y :: cos(x + y) + cos(x - y) == 2.0 * (cos(x) * cos(y))
  }

  /** The samples that the filter sees around `index` are a tone of this frequency. */
  predicate Tone(samples: seq<real>, cos: Cosine, omega: real, phase: real, index: nat) {
    && CENTER <= index && index + CENTER < |samples|
    && forall i | index - CENTER <= i <= index + CENTER :: samples[i] == cos(Phase(omega, phase, i))
  }

  function Phase(omega: real, phase: real, i: nat): real {
    omega * i as real + phase
  }

  lemma PhaseShifts(omega: real, phase: real, index: nat, tap: nat)
    requires tap < TAPS && CENTER <= index
    ensures Phase(omega, phase, index) + Angle(omega, tap) == Phase(omega, phase, index - CENTER + tap)
    ensures Phase(omega, phase, index) - Angle(omega, tap) == Phase(omega, phase, index + CENTER - tap)
  {}

  /** The taps against the samples in the order in which they come. */
  function Forwards(taps: seq<real>, samples: seq<real>, index: nat, n: nat): real
    requires n <= |taps| == TAPS && CENTER <= index && index + CENTER < |samples|
  {
    if n == 0 then 0.0 else Forwards(taps, samples, index, n - 1) + Product(taps[n - 1], samples[index - CENTER + n - 1])
  }

  lemma {:induction false} ForwardsIsFrom(taps: seq<real>, samples: seq<real>, index: nat, n: nat)
    requires n <= |taps| == TAPS && Symmetric(taps) && CENTER <= index && index + CENTER < |samples|
    ensures Forwards(taps, samples, index, n) == ConvolvedFrom(taps, samples, index, TAPS - n)
  {
    if n > 0 {
      ForwardsIsFrom(taps, samples, index, n - 1);
      assert SampleAt(samples, index, TAPS - n) == samples[index - CENTER + n - 1];
    }
  }

  lemma TonePair(cos: Cosine, omega: real, phase: real, index: nat, tap: nat)
    requires Adds(cos) && tap < TAPS && CENTER <= index
    ensures cos(Phase(omega, phase, index + CENTER - tap)) + cos(Phase(omega, phase, index - CENTER + tap))
         == 2.0 * (cos(Phase(omega, phase, index)) * cos(Angle(omega, tap)))
  {
    PhaseShifts(omega, phase, index, tap);
    AddsAt(cos, Phase(omega, phase, index), Angle(omega, tap));
    hide Adds, Angle, Phase;
  }

  lemma AddsAt(cos: Cosine, x: real, y: real)
    requires Adds(cos)
    ensures cos(x + y) + cos(x - y) == 2.0 * (cos(x) * cos(y))
  {}

  lemma {:induction false} ToneSum(taps: seq<real>, cos: Cosine, omega: real, phase: real, samples: seq<real>, index: nat, n: nat)
    requires n <= |taps| == TAPS && Adds(cos) && Tone(samples, cos, omega, phase, index)
    ensures ConvolvedTo(taps, samples, index, n) + Forwards(taps, samples, index, n) == 2.0 * Product(samples[index], GainTo(taps, cos, omega, n))
  {
    hide Adds, Angle, Phase, Product, ConvolvedTo, Forwards, GainTo;
    SumsStart(taps, cos, omega, samples, index);
    if n > 0 {
      ToneSum(taps, cos, omega, phase, samples, index, n - 1);
      SumsStep(taps, cos, omega, samples, index, n);
      GainStep(taps, cos, omega, n);
      var before, after, c := samples[index + CENTER - (n - 1)], samples[index - CENTER + n - 1], cos(Angle(omega, n - 1));
      TonePair(cos, omega, phase, index, n - 1);
      hide Tone;
      ToneTerm(taps[n - 1], before, after, samples[index], c, GainTo(taps, cos, omega, n - 1));
    }
  }

  lemma SumsStart(taps: seq<real>, cos: Cosine, omega: real, samples: seq<real>, index: nat)
    requires |taps| == TAPS && CENTER <= index && index + CENTER < |samples|
    ensures ConvolvedTo(taps, samples, index, 0) == 0.0 && Forwards(taps, samples, index, 0) == 0.0
    ensures Product(samples[index], GainTo(taps, cos, omega, 0)) == 0.0
  {}

  lemma SumsStep(taps: seq<real>, cos: Cosine, omega: real, samples: seq<real>, index: nat, n: nat)
    requires |taps| == TAPS && CENTER <= index && index + CENTER < |samples| && 0 < n <= TAPS
    ensures ConvolvedTo(taps, samples, index, n) == ConvolvedTo(taps, samples, index, n - 1) + Product(taps[n - 1], samples[index + CENTER - (n - 1)])
    ensures Forwards(taps, samples, index, n) == Forwards(taps, samples, index, n - 1) + Product(taps[n - 1], samples[index - CENTER + n - 1])
  {}

  lemma ToneTerm(tap: real, before: real, after: real, middle: real, c: real, gain: real)
    requires before + after == 2.0 * (middle * c)
    ensures Product(tap, before) + Product(tap, after) + 2.0 * Product(middle, gain) == 2.0 * Product(middle, gain + Product(tap, c))
  {
    assert tap * before + tap * after == tap * (before + after);
    assert tap * (2.0 * (middle * c)) == 2.0 * (middle * (tap * c));
  }

  /** A symmetric filter multiplies a tone by its gain at that frequency, without any delay. */
  lemma ToneResponse(taps: seq<real>, cos: Cosine, frequency: real, phase: real, samples: seq<real>, index: nat)
    requires |taps| == TAPS && Symmetric(taps) && Adds(cos) && Tone(samples, cos, Omega(frequency), phase, index)
    ensures ConvolvedTo(taps, samples, index, TAPS) == Product(samples[index], Gain(taps, cos, frequency))
  {
    hide Omega, ConvolvedTo, ConvolvedFrom, Forwards, GainTo, Adds, Product;
    ToneSum(taps, cos, Omega(frequency), phase, samples, index, TAPS);
    ForwardsIsFrom(taps, samples, index, TAPS);
    TwoHalves(taps, samples, index, 0);
    SumsStart(taps, cos, Omega(frequency), samples, index);
    hide Tone;
  }
}
