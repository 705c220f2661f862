/**
 The register is the cyclic redundancy check: the remainder of the message, extended
 by sixteen zeros and with its first sixteen bits inverted, on division by
 x^16 + x^12 + x^5 + 1. Polynomials over GF(2) are rows of bits, highest power first.
 */
module CrcPolynomial {
  import opened Bits
  import opened Crc
  import opened CrcErrors

  function None(n: nat): (r: seq<bool>)
    ensures |r| == n && forall i | 0 <= i < n :: !r[i]
  {
    seq(n, i => false)
  }

  function Ones(n: nat): (r: seq<bool>)
    ensures |r| == n && forall i | 0 <= i < n :: r[i]
  {
    seq(n, i => true)
  }

  /** x^16 + x^12 + x^5 + 1. */
  function Generator(): (g: seq<bool>)
    ensures |g| == 17 && forall i | 0 <= i <= 16 :: g[i] <==> i == 0 || i == 4 || i == 11 || i == 16
  {
    seq(17, i => i == 0 || i == 4 || i == 11 || i == 16)
  }

  /** Long multiplication: each further coefficient of q doubles the product and adds g or nothing. */
  function Multiplied(q: seq<bool>, g: seq<bool>): (r: seq<bool>)
    requires |g| > 0
    ensures |r| == |q| + |g| - 1
  {
    if q == [] then None(|g| - 1)
    else
      var n := |q| - 1;
      Xor(Multiplied(q[..n], g) + [false], if q[n] then None(n) + g else None(n + |g|))
  }

  /** The register as a polynomial of degree below 16. */
  function Coefficients(c: Word): (r: seq<bool>)
    ensures |r| == 16
  {
    BitsOf([Hi(c), Lo(c)])
  }

  // ---------------------------------------------------------------- one coefficient at a time

  lemma HighCoefficient(c: Word, t: nat)
    requires t < 8
    ensures Bit(Hi(c), t) == Coefficient(c, 15 - t)
  {}

  lemma LowCoefficient(c: Word, t: nat)
    requires t < 8
    ensures Bit(Lo(c), t) == Coefficient(c, 7 - t)
  {}

  lemma CoefficientsAt(c: Word)
    ensures forall i | 0 <= i < 16 :: Coefficients(c)[i] == Coefficient(c, 15 - i)
  {
    hide Bit, Hi, Lo, Coefficient;
    forall i | 0 <= i < 16 ensures Coefficients(c)[i] == Coefficient(c, 15 - i) {
      if i < 8 {
        HighCoefficient(c, i);
      } else {
        LowCoefficient(c, i - 8);
      }
    }
  }

  lemma TapCoefficient(top: bool, i: nat)
    requires i < 16
    ensures Coefficient(Tap(top), 15 - i) == (top && Generator()[i + 1])
    ensures Coefficient(In(top), 15 - i) == (top && i == 0)
  {}

  lemma PresetCoefficient(i: nat)
    requires i < 16
    ensures Coefficient(PRESET, i)
  {}

  // ---------------------------------------------------------------- one message bit

  /** Doubling the remainder and adding the next bit leaves the new remainder and the generator, once or not at all. */
  lemma RemainderStep(c: Word, b: bool, i: nat)
    requires i <= 16
    ensures Balanced(Coefficients(c), Coefficients(Feed(c, b)), b, Top(Add(c, In(b))), i)
  {
    hide Coefficients, Coefficient, Double, Add, Tap, In, Top, Generator;
    var x := Add(c, In(b));
    CoefficientsAt(c);
    CoefficientsAt(Feed(c, b));
    TopIsCoefficient(x);
    CoefficientAdd(c, In(b), 15);
    TapCoefficient(b, 0);
    GeneratorLeads();
    if i > 0 {
      CoefficientAdd(Double(x), Tap(Top(x)), 16 - i);
      TapCoefficient(Top(x), i - 1);
      CoefficientDouble(x, 16 - i);
      if i < 16 {
        CoefficientAdd(c, In(b), 15 - i);
        TapCoefficient(b, i);
      }
    }
  }

  lemma GeneratorLeads()
    ensures Generator()[0] && Generator()[16]
  {}

  /** The quotient, coefficient by coefficient. */
  function Quotient(c: Word, message: seq<bool>): (q: seq<bool>)
    ensures |q| == |message|
  {
    if message == [] then []
    else
      var n := |message| - 1;
      Quotient(c, message[..n]) + [Top(Add(FeedAll(c, message[..n]), In(message[n])))]
  }

  /** x^16 times the message plus x^n times the preset. */
  function Dividend(message: seq<bool>, preset: seq<bool>): (r: seq<bool>)
    requires |preset| == 16
    ensures |r| == |message| + 16
  {
    Xor(message + None(16), preset + None(|message|))
  }

  lemma DividendGrows(message: seq<bool>, preset: seq<bool>)
    requires |preset| == 16 && message != []
    ensures var n := |message| - 1;
      Dividend(message, preset) == Xor(Dividend(message[..n], preset) + [false], (None(n) + [message[n]]) + None(16))
  {}

  lemma ProductGrows(q: seq<bool>, g: seq<bool>)
    requires |g| > 0 && q != []
    ensures var n := |q| - 1; Multiplied(q, g) == Xor(Multiplied(q[..n], g) + [false], if q[n] then None(n) + g else None(n + |g|))
  {}

  /** Twice the old remainder plus the bit is the generator, once or not at all, plus the new remainder, at coefficient k. */
  predicate Balanced(before: seq<bool>, after: seq<bool>, b: bool, t: bool, k: nat)
    requires |before| == |after| == 16 && k <= 16
  {
    ((k < 16 && before[k]) != (k == 0 && b)) == ((t && Generator()[k]) != (k > 0 && after[k - 1]))
  }

  lemma StepAt(product: seq<bool>, before: seq<bool>, after: seq<bool>, b: bool, t: bool, n: nat, i: nat)
    requires |product| == n + 16 && |before| == |after| == 16 && i < n + 17
    requires i >= n ==> Balanced(before, after, b, t, i - n)
    ensures Xor(Xor(product, None(n) + before) + [false], (None(n) + [b]) + None(16))[i]
         == Xor(Xor(product + [false], if t then None(n) + Generator() else None(n + 17)), None(n + 1) + after)[i]
  {
    hide Generator;
  }

  /** For any preset the register is the remainder. */
  lemma {:induction false} RegisterIsRemainder(c: Word, message: seq<bool>)
    ensures Dividend(message, Coefficients(c))
         == Xor(Multiplied(Quotient(c, message), Generator()), None(|message|) + Coefficients(FeedAll(c, message)))
  {
    hide Coefficients, Generator, Feed, Xor, None, Top;
    if message == [] {
      EmptyMessage(Coefficients(c));
    } else {
      var n := |message| - 1;
      var m, b := message[..n], message[n];
      var r, s := FeedAll(c, m), FeedAll(c, message);
      var q := Quotient(c, message);
      RegisterIsRemainder(c, m);
      DividendGrows(message, Coefficients(c));
      assert q[..n] == Quotient(c, m);
      ProductGrows(q, Generator());
      LongStep(Multiplied(q[..n], Generator()), r, b, n);
    }
  }

  lemma EmptyMessage(preset: seq<bool>)
    requires |preset| == 16
    ensures Dividend([], preset) == Xor(Multiplied([], Generator()), None(0) + preset)
  {}

  lemma LongStep(product: seq<bool>, r: Word, b: bool, n: nat)
    requires |product| == n + 16
    ensures Xor(Xor(product, None(n) + Coefficients(r)) + [false], (None(n) + [b]) + None(16))
         == Xor(Xor(product + [false], if Top(Add(r, In(b))) then None(n) + Generator() else None(n + 17)), None(n + 1) + Coefficients(Feed(r, b)))
  {
    hide Coefficients, Generator, Feed, Top, Xor, Balanced;
    var before, after, t := Coefficients(r), Coefficients(Feed(r, b)), Top(Add(r, In(b)));
    var x := Xor(Xor(product, None(n) + before) + [false], (None(n) + [b]) + None(16));
    var y := Xor(Xor(product + [false], if t then None(n) + Generator() else None(n + 17)), None(n + 1) + after);
    forall i | 0 <= i < n + 17 ensures x[i] == y[i] {
      if i >= n {
        RemainderStep(r, b, i - n);
      }
      StepAt(product, before, after, b, t, n, i);
    }
  }

  lemma PresetIsOnes()
    ensures Coefficients(PRESET) == Ones(16)
  {
    hide Coefficients, Coefficient;
    CoefficientsAt(PRESET);
    forall i | 0 <= i < 16 ensures Coefficients(PRESET)[i] {
      PresetCoefficient(15 - i);
    }
  }

  /** x^16 M + x^n (x^15 + ... + 1) == Q (x^16 + x^12 + x^5 + 1) + R. */
  predicate Divides(message: seq<bool>, q: seq<bool>, r: seq<bool>)
    requires |q| == |message| && |r| == 16
  {
    Xor(message + None(16), Ones(16) + None(|message|)) == Xor(Multiplied(q, Generator()), None(|message|) + r)
  }

  /**
   CRC-16/CCITT-FALSE: every message, extended by sixteen zeros and with its first
   sixteen bits inverted, leaves the register on division by the generator.
   */
  lemma CrcIsRemainder(message: seq<bool>)
    ensures exists q: seq<bool> :: |q| == |message| && Divides(message, q, Coefficients(FeedAll(PRESET, message)))
  {
    hide Coefficients, Generator, FeedAll, Xor, None, Ones, Multiplied;
    PresetIsOnes();
    RegisterIsRemainder(PRESET, message);
    assert |Quotient(PRESET, message)| == |message|;
  }

  /** There is only one such remainder of degree below 16, and one quotient. */
  lemma {:induction false} QuotientUnique(q: seq<bool>, p: seq<bool>)
    requires |q| == |p| && Multiplied(q, Generator())[..|q|] == Multiplied(p, Generator())[..|p|]
    ensures q == p
  {
    hide Multiplied, Generator;
    if q != [] {
      var n := |q| - 1;
      GeneratorLeads();
      ProductGrows(q, Generator());
      ProductGrows(p, Generator());
      var x, y := Multiplied(q[..n], Generator()), Multiplied(p[..n], Generator());
      forall i | 0 <= i < n ensures x[..n][i] == y[..n][i] {
        assert Multiplied(q, Generator())[..|q|][i] == x[i] && Multiplied(p, Generator())[..|p|][i] == y[i];
      }
      assert x[..n] == y[..n];
      QuotientUnique(q[..n], p[..n]);
      assert Multiplied(q, Generator())[..|q|][n] == (x[n] != q[n]) && Multiplied(p, Generator())[..|p|][n] == (y[n] != p[n]);
      assert q == q[..n] + [q[n]] && p == p[..n] + [p[n]];
    }
  }

  lemma RemainderUnique(q: seq<bool>, r: seq<bool>, p: seq<bool>, s: seq<bool>)
    requires |q| == |p| && |r| == |s| == 16
    requires Xor(Multiplied(q, Generator()), None(|q|) + r) == Xor(Multiplied(p, Generator()), None(|p|) + s)
    ensures q == p && r == s
  {
    hide Multiplied, Generator;
    var x, y := Multiplied(q, Generator()), Multiplied(p, Generator());
    SumsSplit(x, y, |q|, r, s);
    QuotientUnique(q, p);
  }

  /** Equal sums agree in the high coefficients, and with equal products in the low ones. */
  lemma SumsSplit(x: seq<bool>, y: seq<bool>, n: nat, r: seq<bool>, s: seq<bool>)
    requires |x| == |y| == n + 16 && |r| == |s| == 16 && Xor(x, None(n) + r) == Xor(y, None(n) + s)
    ensures x[..n] == y[..n] && (x == y ==> r == s)
  {
    var a, b := Xor(x, None(n) + r), Xor(y, None(n) + s);
    forall i | 0 <= i < n ensures x[..n][i] == y[..n][i] {
      assert a[i] == b[i];
    }
    forall i | 0 <= i < 16 ensures x == y ==> r[i] == s[i] {
      assert a[n + i] == b[n + i];
    }
  }

  // ---------------------------------------------------------------- the check value

  lemma NextByte(bytes: seq<Byte>, d: Byte, next: seq<Byte>, c: Word, r: Word)
    requires next == bytes + [d] && FeedAll(PRESET, BitsOf(bytes)) == c && Shifts(Add(c, Raised(d)), 8) == r
    ensures FeedAll(PRESET, BitsOf(next)) == r
  {
    hide Shifts, Add, Raised, FeedAll, BitsOf;
    BitsOfConcat(bytes, [d]);
    FeedConcat(PRESET, BitsOf(bytes), BitsOf([d]));
    ByteIsShifts(c, d);
  }

  lemma CheckShifts()
    ensures Shifts(Add(0xffff, Raised(0x31)), 8) == 0xc782
    ensures Shifts(Add(0xc782, Raised(0x32)), 8) == 0x3dba
    ensures Shifts(Add(0x3dba, Raised(0x33)), 8) == 0x5bce
    ensures Shifts(Add(0x5bce, Raised(0x34)), 8) == 0x5349
    ensures Shifts(Add(0x5349, Raised(0x35)), 8) == 0x4560
    ensures Shifts(Add(0x4560, Raised(0x36)), 8) == 0x2ef4
    ensures Shifts(Add(0x2ef4, Raised(0x37)), 8) == 0x7718
    ensures Shifts(Add(0x7718, Raised(0x38)), 8) == 0xa12b
    ensures Shifts(Add(0xa12b, Raised(0x39)), 8) == 0x29b1
  {}

  /** The register over "123456789" is 0x29b1. */
  lemma CheckValue()
    ensures FeedAll(PRESET, BitsOf([0x31, 0x32, 0x33, 0x34, 0x35, 0x36, 0x37, 0x38, 0x39])) == 0x29b1
  {
    CheckShifts();
    NothingFed();
    hide Shifts, Add, Raised, FeedAll, BitsOf;
    var d := [0x31, 0x32, 0x33, 0x34, 0x35, 0x36, 0x37, 0x38, 0x39];
    NextByte(d[..0], 0x31, d[..1], 0xffff, 0xc782);
    NextByte(d[..1], 0x32, d[..2], 0xc782, 0x3dba);
    NextByte(d[..2], 0x33, d[..3], 0x3dba, 0x5bce);
    NextByte(d[..3], 0x34, d[..4], 0x5bce, 0x5349);
    NextByte(d[..4], 0x35, d[..5], 0x5349, 0x4560);
    NextByte(d[..5], 0x36, d[..6], 0x4560, 0x2ef4);
    NextByte(d[..6], 0x37, d[..7], 0x2ef4, 0x7718);
    NextByte(d[..7], 0x38, d[..8], 0x7718, 0xa12b);
    NextByte(d[..8], 0x39, d[..9], 0xa12b, 0x29b1);
    assert d[..9] == d;
  }

  lemma NothingFed()
    ensures forall none: seq<Byte> | none == [] :: FeedAll(PRESET, BitsOf(none)) == 0xffff
  {}
}
