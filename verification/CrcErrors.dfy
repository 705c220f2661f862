/**
 Which error patterns the CRC register sees: every non-zero burst of at most 16
 bits, and every odd number of flipped bits.
 */
module CrcErrors {
  import opened Bits
  import opened Crc

  /** Some bit differs, and all that differ lie in bits lo .. lo + 15. */
  ghost predicate Burst(bits: seq<bool>, lo: nat) {
    && (exists k | 0 <= k < |bits| :: bits[k])
    && forall k | 0 <= k < |bits| && bits[k] :: lo <= k < lo + 16
  }

  predicate OddCount(bits: seq<bool>) {
    bits != [] && OddCount(bits[..|bits| - 1]) != bits[|bits| - 1]
  }

  // ---------------------------------------------------------------- bursts

  /** Sixteen bits that leave a cleared register cleared are all false. */
  lemma SixteenBits(w: seq<bool>)
    requires |w| == 16 && FeedAll(0, w) == 0
    ensures AllFalse(w)
  {
    hide Feed, FeedAll, Pack;
    var bytes := Pack(w);
    PackBits(w);
    assert bytes == [bytes[0], bytes[1]];
    OnlyOwnContents(0, bytes[0], bytes[1]);
    assert bytes[0] == 0 && bytes[1] == 0 by {
      JoinedZero(bytes[0], bytes[1]);
    }
    forall i | 0 <= i < 16 ensures !w[i] {
      OrBit(0, 0, i % 8);
      hide Bit;
      assert w[i] == BitsOf(bytes)[i];
    }
  }

  lemma JoinedZero(h: Byte, l: Byte)
    requires 0 == Joined(h, l)
    ensures h == 0 && l == 0
  {
    PartsJoined(h, l);
    assert Hi(0) == 0 && Lo(0) == 0;
    hide Hi, Lo, Joined;
  }

  lemma BurstIsSeen(bits: seq<bool>, lo: nat)
    requires |bits| >= 16 && Burst(bits, lo)
    ensures FeedAll(0, bits) != 0
  {
    hide Feed, FeedAll;
    var at := if lo + 16 <= |bits| then lo else |bits| - 16;
    var before, w, after := bits[..at], bits[at..at + 16], bits[at + 16..];
    assert bits == (before + w) + after;
    FeedConcat(0, before + w, after);
    FeedConcat(0, before, w);
    ZerosKeepNonZero(0, before);
    ZerosKeepNonZero(FeedAll(0, w), after);
    var k :| 0 <= k < |bits| && bits[k];
    assert bits[k] == w[k - at];
    if FeedAll(0, w) == 0 {
      SixteenBits(w);
    }
  }

  // ---------------------------------------------------------------- odd numbers of errors

  function Power(i: nat): Word
    requires i < 16
  {
    if i == 0 then 0x1 else if i == 1 then 0x2 else if i == 2 then 0x4 else if i == 3 then 0x8
    else if i == 4 then 0x10 else if i == 5 then 0x20 else if i == 6 then 0x40 else if i == 7 then 0x80
    else if i == 8 then 0x100 else if i == 9 then 0x200 else if i == 10 then 0x400 else if i == 11 then 0x800
    else if i == 12 then 0x1000 else if i == 13 then 0x2000 else if i == 14 then 0x4000 else 0x8000
  }

  /** Coefficientwise product. */
  function Product(a: Word, m: Word): Word {
    a & m
  }

  function Masked(c: Word, i: nat): Word
    requires i < 16
  {
    Product(c, Power(i))
  }

  predicate Coefficient(c: Word, i: nat)
    requires i < 16
  {
    Masked(c, i) != 0
  }

  /** Whether an odd number of the coefficients 0 .. n - 1 is set. */
  predicate OddBelow(c: Word, n: nat)
    requires n <= 16
  {
    n > 0 && OddBelow(c, n - 1) != Coefficient(c, n - 1)
  }

  lemma CoefficientDouble(c: Word, i: nat)
    requires i < 16
    ensures Coefficient(Double(c), i) == (i > 0 && Coefficient(c, i - 1))
  {}

  lemma CoefficientAdd(a: Word, b: Word, i: nat)
    requires i < 16
    ensures Coefficient(Add(a, b), i) == (Coefficient(a, i) != Coefficient(b, i))
  {
    MaskedAdd(a, b, i);
    AddCancels(Masked(a, i), Masked(b, i));
    OneBit(a, i);
    OneBit(b, i);
    hide Add, Power, Masked;
  }

  lemma MaskedAdd(a: Word, b: Word, i: nat)
    requires i < 16
    ensures Masked(Add(a, b), i) == Add(Masked(a, i), Masked(b, i))
  {
    Distribute(a, b, Power(i));
    hide Power, Product, Add;
  }

  lemma Distribute(a: Word, b: Word, m: Word)
    ensures Product(Add(a, b), m) == Add(Product(a, m), Product(b, m))
  {}

  lemma OneBit(a: Word, i: nat)
    requires i < 16
    ensures Masked(a, i) == 0 || Masked(a, i) == Power(i)
    ensures Power(i) != 0
  {}

  lemma {:induction false} OddDouble(c: Word, n: nat)
    requires n < 16
    ensures OddBelow(Double(c), n + 1) == OddBelow(c, n)
  {
    hide Double, Coefficient;
    CoefficientDouble(c, n);
    if n > 0 {
      OddDouble(c, n - 1);
    }
  }

  lemma {:induction false} OddAdd(a: Word, b: Word, n: nat)
    requires n <= 16
    ensures OddBelow(Add(a, b), n) == (OddBelow(a, n) != OddBelow(b, n))
  {
    hide Add, Coefficient;
    if n > 0 {
      OddAdd(a, b, n - 1);
      CoefficientAdd(a, b, n - 1);
    }
  }

  lemma {:induction false} OddOfZero(n: nat)
    requires n <= 16
    ensures !OddBelow(0, n)
  {
    if n > 0 {
      OddOfZero(n - 1);
      OneBit(0, n - 1);
    }
  }

  lemma ThreeTaps()
    ensures OddBelow(0x1021, 16) && OddBelow(0x8000, 16)
  {
    assert forall i | 0 <= i < 16 :: Coefficient(0x1021, i) == (i == 0 || i == 5 || i == 12) by {
      forall i | 0 <= i < 16 ensures Coefficient(0x1021, i) == (i == 0 || i == 5 || i == 12) {}
    }
    assert forall i | 0 <= i < 16 :: Coefficient(0x8000, i) == (i == 15) by {
      forall i | 0 <= i < 16 ensures Coefficient(0x8000, i) == (i == 15) {}
    }
    hide Coefficient;
    assert OddBelow(0x1021, 4) && OddBelow(0x1021, 5);
    assert !OddBelow(0x1021, 6) && !OddBelow(0x1021, 9) && !OddBelow(0x1021, 12);
    assert OddBelow(0x1021, 13);
    assert !OddBelow(0x8000, 4) && !OddBelow(0x8000, 8) && !OddBelow(0x8000, 12) && !OddBelow(0x8000, 15);
  }

  lemma TopIsCoefficient(c: Word)
    ensures Top(c) == Coefficient(c, 15)
  {}

  /** The generator has an even number of terms, so a shift keeps the parity of the register. */
  lemma OddShift(c: Word)
    ensures OddBelow(Shift(c), 16) == OddBelow(c, 16)
  {
    hide Add, Double, Top, Coefficient;
    OddAdd(Double(c), Tap(Top(c)), 16);
    OddDouble(c, 15);
    TopIsCoefficient(c);
    ThreeTaps();
    OddOfZero(16);
  }

  lemma {:induction false} OddFeeds(bits: seq<bool>)
    ensures OddBelow(FeedAll(0, bits), 16) == OddCount(bits)
  {
    hide Add, Shift, OddBelow;
    OddOfZero(16);
    if bits != [] {
      var n := |bits| - 1;
      OddFeeds(bits[..n]);
      var c, x := FeedAll(0, bits[..n]), In(bits[n]);
      OddAdd(c, x, 16);
      OddShift(Add(c, x));
      ThreeTaps();
    }
  }

  lemma OddIsSeen(bits: seq<bool>)
    requires OddCount(bits)
    ensures FeedAll(0, bits) != 0
  {
    OddFeeds(bits);
    OddOfZero(16);
    hide FeedAll;
  }
}
