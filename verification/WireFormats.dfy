/**
 The formats on the air in plain numbers: byte strings are big-endian numbers,
 symbols their digits, and frame and fragment headers count as documented.
 */
module WireFormats {
  import opened Bits
  import opened Octets
  import opened Crc
  import opened CrcPolynomial
  import opened Frame
  import opened Fragmentation
  import opened Symbols

  /** A byte string read as a number, first byte highest. */
  function Number(bytes: seq<Byte>): nat {
    if bytes == [] then 0 else 256 * Number(bytes[..|bytes| - 1]) + bytes[|bytes| - 1] as nat
  }

  /** Symbols read as the digits of a number to this base, first symbol highest. */
  function Digits(symbols: seq<nat>, base: nat): nat {
    if symbols == [] then 0 else base * Digits(symbols[..|symbols| - 1], base) + symbols[|symbols| - 1]
  }

  // ---------------------------------------------------------------- bits of bytes

  lemma {:induction false} ValueOfBoth(x: seq<bool>, y: seq<bool>)
    ensures Value(x + y) == Value(x) * Symbols.Power(|y|) + Value(y)
    decreases |y|
  {
    if y == [] {
      assert x + y == x;
    } else {
      var n := |y| - 1;
      ValueOfBoth(x, y[..n]);
      assert (x + y)[..|x| + n] == x + y[..n];
      ValueStep(x + y, |x| + |y|);
      ValueStep(y, |y|);
      assert (x + y)[..|x| + |y|] == x + y && y[..|y|] == y;
      OneMoreBit(Value(x), Symbols.Power(n), Value(y[..n]), Weight(y[n], 1));
      hide Value, Weight;
    }
  }

  lemma OneMoreBit(v: nat, p: nat, w: nat, bit: nat)
    ensures 2 * (v * p + w) + bit == v * (2 * p) + (2 * w + bit)
  {}

  function Weight(bit: bool, w: nat): nat {
    if bit then w else 0
  }

  lemma ValueStep(r: seq<bool>, k: nat)
    requires 0 < k <= |r|
    ensures Value(r[..k]) == 2 * Value(r[..k - 1]) + Weight(r[k - 1], 1)
    ensures Value(r[..0]) == 0
  {
    assert r[..k][..k - 1] == r[..k - 1];
  }

  lemma ByteValue(b: Byte)
    ensures Value(BitsOf([b])) == b as nat
  {
    var r := BitsOf([b]);
    EightBits(r);
    BinaryByte(b);
    hide Value, BitsOf;
  }

  lemma Weighs(bit: bool, w: nat)
    ensures Weight(bit, w) == w * Weight(bit, 1)
  {}

  /** The value of the first n bits. */
  function ValueTo(r: seq<bool>, n: nat): nat
    requires n <= |r|
  {
    Value(r[..n])
  }

  lemma ValueToStep(r: seq<bool>, n: nat)
    requires 0 < n <= |r|
    ensures ValueTo(r, n) == 2 * ValueTo(r, n - 1) + Weight(r[n - 1], 1) && ValueTo(r, 0) == 0
  {
    ValueStep(r, n);
    hide Weight;
  }

  lemma ValueToAll(r: seq<bool>)
    ensures ValueTo(r, |r|) == Value(r)
  {
    assert r[..|r|] == r;
  }

  lemma FourBits(r: seq<bool>, n: nat)
    requires n + 4 <= |r|
    ensures ValueTo(r, n + 4) == 16 * ValueTo(r, n) + Weight(r[n], 8) + Weight(r[n + 1], 4) + Weight(r[n + 2], 2) + Weight(r[n + 3], 1)
  {
    hide ValueTo, Weight;
    ValueToStep(r, n + 1);
    ValueToStep(r, n + 2);
    ValueToStep(r, n + 3);
    ValueToStep(r, n + 4);
    Weighs(r[n], 8);
    Weighs(r[n + 1], 4);
    Weighs(r[n + 2], 2);
  }

  lemma EightBits(r: seq<bool>)
    requires |r| == 8
    ensures Value(r) == 16 * (Weight(r[0], 8) + Weight(r[1], 4) + Weight(r[2], 2) + Weight(r[3], 1))
                        + Weight(r[4], 8) + Weight(r[5], 4) + Weight(r[6], 2) + Weight(r[7], 1)
  {
    hide ValueTo, Value, Weight;
    FourBits(r, 0);
    FourBits(r, 4);
    ValueToStep(r, 1);
    ValueToAll(r);
  }

  lemma BinaryByte(b: Byte)
    ensures b as nat == 16 * (Weight(Bit(b, 0), 8) + Weight(Bit(b, 1), 4) + Weight(Bit(b, 2), 2) + Weight(Bit(b, 3), 1))
                        + Weight(Bit(b, 4), 8) + Weight(Bit(b, 5), 4) + Weight(Bit(b, 6), 2) + Weight(Bit(b, 7), 1)
  {}

  lemma NothingIsZero()
    ensures Value(BitsOf([])) == 0
  {}

  /** The first byte and the first bit of a byte are the most significant. */
  lemma {:induction false} BytesAreBinary(bytes: seq<Byte>)
    ensures Value(BitsOf(bytes)) == Number(bytes)
  {
    hide BitsOf, Value, Symbols.Power;
    if bytes == [] {
      NothingIsZero();
    } else {
      var n := |bytes| - 1;
      BytesAreBinary(bytes[..n]);
      assert bytes == bytes[..n] + [bytes[n]];
      BitsOfConcat(bytes[..n], [bytes[n]]);
      ValueOfBoth(BitsOf(bytes[..n]), BitsOf([bytes[n]]));
      ByteValue(bytes[n]);
      PowerOfByte();
    }
  }

  lemma PowerOfByte()
    ensures Symbols.Power(8) == 256
  {}

  // ---------------------------------------------------------------- digits of symbols

  /** The first n bits of the stream, zeros past its end. */
  function Stream(bits: seq<bool>, n: nat): (r: seq<bool>)
    ensures |r| == n && forall i | 0 <= i < n :: r[i] == StreamBit(bits, i)
  {
    seq(n, i requires 0 <= i < n => StreamBit(bits, i))
  }

  lemma StreamGrows(bits: seq<bool>, k: nat, b: nat)
    ensures Stream(bits, Place(k + 1, b, 0)) == Stream(bits, Place(k, b, 0)) + SymbolBits(bits, k, b)
  {
    assert Place(k + 1, b, 0) == Place(k, b, 0) + b;
    forall t | 0 <= t < b ensures Place(k, b, t) == Place(k, b, 0) + t {}
    hide Place, StreamBit;
  }

  lemma {:induction false} DigitsOfStream(bytes: seq<Byte>, b: nat, k: nat)
    requires SymbolWidth(b) && k <= |SymbolsOf(bytes, b)|
    ensures Digits(SymbolsOf(bytes, b)[..k], Symbols.Power(b)) == Value(Stream(BitsOf(bytes), Place(k, b, 0)))
  {
    hide Value, BitsOf, Place, SymbolBits, Symbols.Power;
    var symbols := SymbolsOf(bytes, b);
    if k == 0 {
      NothingStreamed(BitsOf(bytes), b);
    } else {
      DigitsOfStream(bytes, b, k - 1);
      assert symbols[..k][..k - 1] == symbols[..k - 1];
      StreamGrows(BitsOf(bytes), k - 1, b);
      ValueOfBoth(Stream(BitsOf(bytes), Place(k - 1, b, 0)), SymbolBits(BitsOf(bytes), k - 1, b));
    }
  }

  lemma NothingStreamed(bits: seq<bool>, b: nat)
    ensures Value(Stream(bits, Place(0, b, 0))) == 0
  {
    assert Stream(bits, Place(0, b, 0)) == [];
  }

  lemma {:induction false} NoValue(n: nat)
    ensures Value(seq(n, i => false)) == 0
  {
    if n > 0 {
      NoValue(n - 1);
      assert seq(n, i => false)[..n - 1] == seq(n - 1, i => false);
    }
  }

  /**
   The symbols of a byte string are its digits to the base 2^b, the last one filled up
   with zero bits: together they are the number, times a power of two.
   */
  lemma SymbolsAreDigits(bytes: seq<Byte>, b: nat)
    requires SymbolWidth(b)
    ensures var fill := Place(|SymbolsOf(bytes, b)|, b, 0) - 8 * |bytes|;
      0 <= fill < b && Digits(SymbolsOf(bytes, b), Symbols.Power(b)) == Number(bytes) * Symbols.Power(fill)
  {
    var count := |SymbolsOf(bytes, b)|;
    FillIsShort(|bytes|, b);
    var fill := Place(count, b, 0) - 8 * |bytes|;
    DigitsOfStream(bytes, b, count);
    assert SymbolsOf(bytes, b)[..count] == SymbolsOf(bytes, b);
    hide Value, Digits, Symbols.Power, Place, BitsOf, Number;
    assert Stream(BitsOf(bytes), Place(count, b, 0)) == BitsOf(bytes) + seq(fill, i => false);
    ValueOfBoth(BitsOf(bytes), seq(fill, i => false));
    NoValue(fill);
    BytesAreBinary(bytes);
  }

  lemma FillIsShort(bytes: nat, b: nat)
    requires SymbolWidth(b)
    ensures 8 * bytes <= Place(SymbolCount(bytes, b), b, 0) < 8 * bytes + b
  {
    var q := SymbolCount(bytes, b);
    assert 8 * bytes + b - 1 == b * q + (8 * bytes + b - 1) % b;
  }

  // ---------------------------------------------------------------- headers

  /** The fragment header is the countdown, plus 128 in a continuation. */
  lemma FragmentHeaderIs(continuation: bool, remaining: nat)
    requires remaining < 128
    ensures HeaderByte(continuation, remaining) as nat == remaining + if continuation then 128 else 0
  {
    OctetValue(remaining);
    SmallOctet(remaining);
    if continuation {
      HighBit(remaining as Byte);
    }
  }

  lemma HighBit(b: Byte)
    requires b < 128
    ensures (b | 0x80) as nat == b as nat + 128
  {}

  /** The first byte of a frame is the payload length less one; the last two make the whole a multiple of the generator. */
  lemma FrameHeaderIs(payload: seq<Byte>)
    requires Framable(payload)
    ensures FrameOf(payload)[0] as nat == |payload| - 1 && FrameOf(payload)[1..1 + |payload|] == payload
  {
    OctetValue(|payload| - 1);
    hide FeedAll, BitsOf;
  }

  lemma SampleShifts()
    ensures Shifts(Add(0xffff, Raised(0x00)), 8) == 0xe1f0 && Shifts(Add(0xe1f0, Raised(0x42)), 8) == 0x7589
  {}

  /** The frame of the single byte 42. */
  lemma FrameSample()
    ensures FrameOf([0x42]) == [0x00, 0x42, 0x75, 0x89]
  {
    SampleShifts();
    NothingFed();
    SampleParts();
    hide Shifts, Add, Raised, FeedAll, BitsOf, Hi, Lo;
    NextByte([], 0x00, [0x00], 0xffff, 0xe1f0);
    NextByte([0x00], 0x42, [0x00, 0x42], 0xe1f0, 0x7589);
    assert Protected([0x42]) == [0x00, 0x42];
  }

  lemma SampleParts()
    ensures Hi(0x7589) == 0x75 && Lo(0x7589) == 0x89 && LengthByte(1) == 0x00
  {}
}
