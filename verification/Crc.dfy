/**
 The CRC-16/CCITT-FALSE register of src/framing/frame.c as a linear machine over
 GF(2): the generator is that of section 4.1.6 of CCSDS 132.0-B, preset to ones.
 */
module Crc {
  import opened Bits

  type Word = bv16

  const PRESET: Word := 0xffff

  /** Addition in the register's vector space. */
  function Add(a: Word, b: Word): Word {
    a ^ b
  }

  function Double(c: Word): Word {
    c << 1
  }

  predicate Top(c: Word) {
    c & 0x8000 != 0
  }

  /** The generator's low part, when the bit shifted out is set. */
  function Tap(top: bool): Word {
    if top then 0x1021 else 0
  }

  /** One shift of the register. */
  function Shift(c: Word): Word {
    Add(Double(c), Tap(Top(c)))
  }

  function In(b: bool): Word {
    if b then 0x8000 else 0
  }

  /** One message bit enters at the top. */
  function Feed(c: Word, b: bool): Word {
    Shift(Add(c, In(b)))
  }

  /** A message, first bit first. */
  function FeedAll(c: Word, bits: seq<bool>): Word {
    if bits == [] then c else Feed(FeedAll(c, bits[..|bits| - 1]), bits[|bits| - 1])
  }

  // ---------------------------------------------------------------- single shifts

  lemma DoubleAdd(a: Word, b: Word)
    ensures Double(Add(a, b)) == Add(Double(a), Double(b))
  {}

  lemma TopAdd(a: Word, b: Word)
    ensures Top(Add(a, b)) == (Top(a) != Top(b))
  {}

  lemma TapAdd(x: bool, y: bool)
    ensures Tap(x != y) == Add(Tap(x), Tap(y)) && In(x != y) == Add(In(x), In(y))
  {}

  lemma Reassociate(a: Word, b: Word, c: Word)
    ensures Add(Add(a, b), c) == Add(a, Add(b, c))
  {}

  lemma Commute(a: Word, b: Word)
    ensures Add(a, b) == Add(b, a)
  {}

  lemma Regroup(a: Word, b: Word, c: Word, d: Word)
    ensures Add(Add(a, b), Add(c, d)) == Add(Add(a, c), Add(b, d))
  {
    hide Add;
    Reassociate(a, b, Add(c, d));
    Reassociate(b, c, d);
    Commute(b, c);
    Reassociate(c, b, d);
    Reassociate(a, c, Add(b, d));
  }

  lemma AddZero(c: Word)
    ensures Add(c, 0) == c && Add(c, c) == 0
  {}

  lemma ShiftAdd(a: Word, b: Word)
    ensures Shift(Add(a, b)) == Add(Shift(a), Shift(b))
  {
    hide Top, Tap, Add, Double;
    DoubleAdd(a, b);
    TopAdd(a, b);
    TapAdd(Top(a), Top(b));
    Regroup(Double(a), Double(b), Tap(Top(a)), Tap(Top(b)));
  }

  function Below(r: Word): Word {
    r & 0x7fff
  }

  lemma TopMask(r: Word)
    ensures r & 0x8000 == In(Top(r))
  {}

  lemma TopAndBelow(r: Word)
    ensures (r & 0x8000) ^ (r & 0x7fff) == r
  {}

  lemma SplitTop(r: Word)
    ensures Add(In(Top(r)), Below(r)) == r
  {
    TopMask(r);
    TopAndBelow(r);
    hide In, Top;
  }

  lemma BelowShifts(r: Word)
    ensures !Top(Below(r)) && Double(Below(r)) == Double(r)
  {}

  lemma ShiftBelow(r: Word)
    ensures Shift(Below(r)) == Double(r)
  {
    BelowShifts(r);
    AddZero(Double(r));
    hide Top, Add, Double, Below;
  }

  lemma PassBit(x: Word, r: Word)
    ensures Shift(Add(x, r)) == Add(Feed(x, Top(r)), Double(r))
  {
    hide Top, In, Add, Double, Below, Shift;
    SplitTop(r);
    Reassociate(x, In(Top(r)), Below(r));
    ShiftAdd(Add(x, In(Top(r))), Below(r));
    ShiftBelow(r);
  }

  // ---------------------------------------------------------------- the byte loop

  function Raised(d: Byte): Word {
    (d as Word) << 8
  }

  /** What is left of a byte in the register after k shifts. */
  function Rest(d: Byte, k: nat): Word
    requires k <= 8
  {
    if k == 0 then Raised(d) else Double(Rest(d, k - 1))
  }

  lemma RestTop(d: Byte)
    ensures forall k | 0 <= k < 8 :: Top(Rest(d, k)) == Bit(d, k)
    ensures Rest(d, 8) == 0
  {
    RestShift(d);
    forall k | 0 <= k < 8 ensures Top(Rest(d, k)) == Bit(d, k) {
      RestMask(d, k);
    }
  }

  lemma RestShift(d: Byte)
    ensures Rest(d, 1) == (d as Word) << 9 && Rest(d, 2) == (d as Word) << 10 && Rest(d, 3) == (d as Word) << 11
    ensures Rest(d, 4) == (d as Word) << 12 && Rest(d, 5) == (d as Word) << 13 && Rest(d, 6) == (d as Word) << 14
    ensures Rest(d, 7) == (d as Word) << 15 && Rest(d, 8) == 0
  {
    assert Rest(d, 0) == (d as Word) << 8;
    assert Rest(d, 1) == (d as Word) << 9;
    assert Rest(d, 2) == (d as Word) << 10;
    assert Rest(d, 3) == (d as Word) << 11;
    assert Rest(d, 4) == (d as Word) << 12;
    assert Rest(d, 5) == (d as Word) << 13;
    assert Rest(d, 6) == (d as Word) << 14;
    assert Rest(d, 7) == (d as Word) << 15;
  }

  lemma RestMask(d: Byte, k: nat)
    requires k < 8
    ensures Top(Rest(d, k)) == Bit(d, k)
  {
    RestShift(d);
    assert Rest(d, 0) == (d as Word) << 8;
    hide Rest;
  }

  /** The loops of `rtnc_crc16_ccitt_false`: a byte is XORed in, then eight shifts. */
  method CrcOf(data: seq<Byte>) returns (crc: Word)
    ensures crc == FeedAll(PRESET, BitsOf(data))
  {
    hide Feed, Bit, Top, BitsOf;
    crc := PRESET;
    assert BitsOf(data)[..0] == [];
    for index := 0 to |data|
      invariant crc == FeedAll(PRESET, BitsOf(data)[..8 * index])
    {
      RestTop(data[index]);
      crc := CrcByte(crc, data, index);
    }
    assert BitsOf(data)[..8 * |data|] == BitsOf(data);
  }

  method CrcByte(start: Word, data: seq<Byte>, index: nat) returns (crc: Word)
    requires index < |data| && start == FeedAll(PRESET, BitsOf(data)[..8 * index])
    ensures crc == FeedAll(PRESET, BitsOf(data)[..8 * (index + 1)])
  {
    hide Feed, FeedAll, Bit, Top, Add, Double, Tap, Shift;
    crc := Xored(start, data[index]);
    ghost var d := data[index];
    for bit := 0 to 8
      invariant crc == Add(FeedAll(PRESET, BitsOf(data)[..8 * index + bit]), Rest(d, bit))
    {
      PassBit(FeedAll(PRESET, BitsOf(data)[..8 * index + bit]), Rest(d, bit));
      RestTop(d);
      FeedNext(data, index, bit);
      crc := Shifted(crc);
    }
    RestTop(d);
    AddZero(crc);
    AddZero(FeedAll(PRESET, BitsOf(data)[..8 * (index + 1)]));
  }

  method Xored(crc: Word, d: Byte) returns (r: Word)
    ensures r == Add(crc, Raised(d))
  {
    var high := (d as Word) << 8;
    assert high == Raised(d);
    hide Raised;
    r := crc ^ high;
  }

  method Shifted(crc: Word) returns (r: Word)
    ensures r == Shift(crc)
  {
    AddZero(Double(crc));
    r := if crc & 0x8000 != 0 then (crc << 1) ^ 0x1021 else crc << 1;
  }

  lemma FeedNext(data: seq<Byte>, q: nat, t: nat)
    requires q < |data| && t < 8
    ensures FeedAll(PRESET, BitsOf(data)[..8 * q + t + 1]) == Feed(FeedAll(PRESET, BitsOf(data)[..8 * q + t]), Bit(data[q], t))
  {
    hide Feed, Bit;
    assert BitsOf(data)[..8 * q + t + 1][..8 * q + t] == BitsOf(data)[..8 * q + t];
  }

  // ---------------------------------------------------------------- linearity

  lemma FeedAdd(a: Word, b: Word, x: bool, y: bool)
    ensures Feed(Add(a, b), x != y) == Add(Feed(a, x), Feed(b, y))
  {
    hide In, Shift, Tap, Add;
    TapAdd(x, y);
    Regroup(a, b, In(x), In(y));
    ShiftAdd(Add(a, In(x)), Add(b, In(y)));
  }

  lemma {:induction false} FeedAllAdd(a: Word, b: Word, x: seq<bool>, y: seq<bool>)
    requires |x| == |y|
    ensures FeedAll(Add(a, b), Xor(x, y)) == Add(FeedAll(a, x), FeedAll(b, y))
  {
    hide Feed, Add;
    var n := |x|;
    if n > 0 {
      FeedAllAdd(a, b, x[..n - 1], y[..n - 1]);
      FeedAdd(FeedAll(a, x[..n - 1]), FeedAll(b, y[..n - 1]), x[n - 1], y[n - 1]);
      assert Xor(x, y)[..n - 1] == Xor(x[..n - 1], y[..n - 1]);
    }
  }

  lemma {:induction false} FeedConcat(c: Word, x: seq<bool>, y: seq<bool>)
    ensures FeedAll(c, x + y) == FeedAll(FeedAll(c, x), y)
  {
    hide Feed;
    if y == [] {
      assert x + y == x;
    } else {
      FeedConcat(c, x, y[..|y| - 1]);
      assert (x + y)[..|x + y| - 1] == x + y[..|y| - 1];
    }
  }

  // ---------------------------------------------------------------- zeros

  predicate AllFalse(bits: seq<bool>) {
    forall i | 0 <= i < |bits| :: !bits[i]
  }

  lemma ShiftIsOneToOne(c: Word)
    ensures Shift(c) == 0 <==> c == 0
  {
    if Top(c) {
      assert ((c << 1) ^ 0x1021) & 1 == 1;
    } else {
      AddZero(Double(c));
    }
  }

  /** Zero bits never turn a non-zero register into zero, nor zero into non-zero. */
  lemma {:induction false} ZerosKeepNonZero(c: Word, zeros: seq<bool>)
    requires AllFalse(zeros)
    ensures FeedAll(c, zeros) == 0 <==> c == 0
  {
    hide Shift, Add;
    if zeros != [] {
      ZerosKeepNonZero(c, zeros[..|zeros| - 1]);
      ShiftIsOneToOne(FeedAll(c, zeros[..|zeros| - 1]));
      AddZero(FeedAll(c, zeros[..|zeros| - 1]));
    }
  }

  // ---------------------------------------------------------------- the residue

  function Hi(c: Word): Byte {
    (c >> 8) as Byte
  }

  function Lo(c: Word): Byte {
    (c & 0xff) as Byte
  }

  function Joined(h: Byte, l: Byte): Word {
    Raised(h) | (l as Word)
  }

  function Shifts(c: Word, n: nat): Word {
    if n == 0 then c else Shift(Shifts(c, n - 1))
  }

  /** Feeding one byte is eight shifts after XORing it in. */
  lemma {:induction false} ByteFeeds(c: Word, d: Byte, n: nat)
    requires n <= 8
    ensures Shifts(Add(c, Raised(d)), n) == Add(FeedAll(c, BitsOf([d])[..n]), Rest(d, n))
  {
    hide Shift, Feed, Bit, Top, Add, Double, Raised;
    if n > 0 {
      ByteFeeds(c, d, n - 1);
      RestTop(d);
      PassBit(FeedAll(c, BitsOf([d])[..n - 1]), Rest(d, n - 1));
      assert BitsOf([d])[..n][..n - 1] == BitsOf([d])[..n - 1];
    }
  }

  lemma ByteIsShifts(c: Word, d: Byte)
    ensures FeedAll(c, BitsOf([d])) == Shifts(Add(c, Raised(d)), 8)
  {
    hide Shift, Feed, Bit, Rest, Top, Add, Raised, FeedAll, Shifts;
    ByteFeeds(c, d, 8);
    RestTop(d);
    AddZero(FeedAll(c, BitsOf([d])));
    assert BitsOf([d])[..8] == BitsOf([d]);
  }

  /** The low byte, shifted n times, has not reached the top. */
  lemma {:induction false} LowByteShifts(l: Byte, n: nat)
    requires n <= 8
    ensures Shifts(l as Word, n) == LowByte(l, n)
  {
    hide Shift;
    if n > 0 {
      LowByteShifts(l, n - 1);
      LowByteStep(l, n - 1);
    }
  }

  function LowByte(l: Byte, n: nat): Word
    requires n <= 8
  {
    if n == 0 then l as Word else if n == 1 then (l as Word) << 1 else if n == 2 then (l as Word) << 2
    else if n == 3 then (l as Word) << 3 else if n == 4 then (l as Word) << 4 else if n == 5 then (l as Word) << 5
    else if n == 6 then (l as Word) << 6 else if n == 7 then (l as Word) << 7 else (l as Word) << 8
  }

  lemma LowByteStep(l: Byte, n: nat)
    requires n < 8
    ensures Shift(LowByte(l, n)) == LowByte(l, n + 1)
  {
    LowByteBelow(l, n);
    AddZero(Double(LowByte(l, n)));
    hide Top, Add, Double;
  }

  lemma LowByteBelow(l: Byte, n: nat)
    requires n < 8
    ensures !Top(LowByte(l, n)) && Double(LowByte(l, n)) == LowByte(l, n + 1)
  {}

  lemma HighByteCancels(h: Byte, l: Byte)
    ensures Add(Joined(h, l), Raised(h)) == l as Word
  {}

  lemma PartsJoined(h: Byte, l: Byte)
    ensures Hi(Joined(h, l)) == h && Lo(Joined(h, l)) == l
  {}

  lemma JoinsParts(c: Word)
    ensures Joined(Hi(c), Lo(c)) == c
  {}

  /** A register fed with its own contents becomes zero. */
  lemma OwnContents(h: Byte, l: Byte)
    ensures FeedAll(Joined(h, l), BitsOf([h, l])) == 0
  {
    hide Shift, Feed, Bit, Joined, Hi, Lo, Shifts, Add, FeedAll, Raised;
    assert BitsOf([h, l]) == BitsOf([h]) + BitsOf([l]) by {
      assert [h, l] == [h] + [l];
      BitsOfConcat([h], [l]);
    }
    hide BitsOf;
    FeedConcat(Joined(h, l), BitsOf([h]), BitsOf([l]));
    ByteIsShifts(Joined(h, l), h);
    HighByteCancels(h, l);
    LowByteShifts(l, 8);
    assert LowByte(l, 8) == Raised(l) by {
      LowByteRaised(l);
    }
    ByteIsShifts(Raised(l), l);
    AddZero(Raised(l));
    ZeroShifts(8);
  }

  lemma LowByteRaised(l: Byte)
    ensures LowByte(l, 8) == Raised(l)
  {}

  lemma {:induction false} ZeroShifts(n: nat)
    ensures Shifts(0, n) == 0
  {
    if n > 0 {
      ZeroShifts(n - 1);
      ShiftIsOneToOne(0);
    }
  }

  lemma AddCancels(a: Word, b: Word)
    ensures Add(a, b) == 0 <==> a == b
  {
    hide Add;
    AddZero(a);
    AddZero(b);
    Commute(0, b);
    Reassociate(a, b, b);
  }

  /** Only its own contents bring a register to zero. */
  lemma OnlyOwnContents(c: Word, h: Byte, l: Byte)
    ensures FeedAll(c, BitsOf([h, l])) == 0 <==> c == Joined(h, l)
  {
    hide Shift, Feed, Bit, Joined, FeedAll, Add, BitsOf;
    var own, bits := Joined(h, l), BitsOf([h, l]);
    FeedAllAdd(c, own, bits, bits);
    OwnContents(h, l);
    AddZero(FeedAll(c, bits));
    ZerosKeepNonZero(Add(c, own), Xor(bits, bits));
    AddCancels(c, own);
  }
}
