/**
 Bytes seen as rows of bits, most significant bit first, and parities of bit
 rows over GF(2).  Every codec in this project moves between the two views.
 */
module Bits {

  type Byte = bv8

  /** The byte `1U << (7U - i)`. */
  function Mask(i: nat): Byte
    requires i < 8
  {
    if i == 0 then 0x80 else if i == 1 then 0x40 else if i == 2 then 0x20 else if i == 3 then 0x10
    else if i == 4 then 0x08 else if i == 5 then 0x04 else if i == 6 then 0x02 else 0x01
  }

  /** Bit i of a byte, counted from the most significant bit. */
  predicate Bit(b: Byte, i: nat)
    requires i < 8
  {
    b & Mask(i) != 0
  }

  /** The bits of a byte string in wire order. */
  function BitsOf(bytes: seq<Byte>): (r: seq<bool>)
    ensures |r| == 8 * |bytes|
  {
    seq(8 * |bytes|, i requires 0 <= i < 8 * |bytes| => Bit(bytes[i / 8], i % 8))
  }

  /** The byte under construction after n bits of bits[base..] were OR-ed into a cleared byte. */
  function PackByte(bits: seq<bool>, base: nat, n: nat): Byte
    requires n <= 8 && base + n <= |bits|
  {
    if n == 0 then 0
    else PackByte(bits, base, n - 1) | (if bits[base + n - 1] then Mask(n - 1) else 0)
  }

  /** The byte string whose bits are `bits`. */
  function Pack(bits: seq<bool>): (r: seq<Byte>)
    requires |bits| % 8 == 0
    ensures |r| == |bits| / 8
  {
    seq(|bits| / 8, q requires 0 <= q < |bits| / 8 => PackByte(bits, 8 * q, 8))
  }

  lemma OrBit(b: Byte, n: nat, t: nat)
    requires n < 8 && t < 8
    ensures Bit(b | Mask(n), t) == (Bit(b, t) || t == n)
    ensures Bit(b | 0, t) == Bit(b, t)
    ensures !Bit(0, t)
  {
    assert b | 0 == b;
    OrMask(b, Mask(n), Mask(t));
  }

  lemma OrMask(b: Byte, m: Byte, t: Byte)
    ensures (b | m) & t == (b & t) | (m & t)
    ensures (b & t) | 0 == b & t
    ensures (b & t) | t == t
  {}

  lemma {:induction false} PackByteBit(bits: seq<bool>, base: nat, n: nat, t: nat)
    requires n <= 8 && base + n <= |bits| && t < 8
    ensures Bit(PackByte(bits, base, n), t) == (t < n && bits[base + t])
  {
    if n == 0 {
      OrBit(0, 0, t);
    } else {
      PackByteBit(bits, base, n - 1, t);
      OrBit(PackByte(bits, base, n - 1), n - 1, t);
    }
  }

  lemma PackBits(bits: seq<bool>)
    requires |bits| % 8 == 0
    ensures BitsOf(Pack(bits)) == bits
  {
    forall i | 0 <= i < |bits| ensures BitsOf(Pack(bits))[i] == bits[i] {
      PackByteBit(bits, 8 * (i / 8), 8, i % 8);
    }
  }

  /** A byte is determined by its eight bits. */
  lemma ByteExt(a: Byte, b: Byte)
    requires forall t | 0 <= t < 8 :: Bit(a, t) == Bit(b, t)
    ensures a == b
  {
    assert Bit(a, 0) == Bit(b, 0);
    assert Bit(a, 1) == Bit(b, 1);
    assert Bit(a, 2) == Bit(b, 2);
    assert Bit(a, 3) == Bit(b, 3);
    assert Bit(a, 4) == Bit(b, 4);
    assert Bit(a, 5) == Bit(b, 5);
    assert Bit(a, 6) == Bit(b, 6);
    assert Bit(a, 7) == Bit(b, 7);
    ByteExtMasks(a, b);
  }

  lemma ByteExtMasks(a: Byte, b: Byte)
    requires (a & 0x80 != 0) == (b & 0x80 != 0) && (a & 0x40 != 0) == (b & 0x40 != 0)
    requires (a & 0x20 != 0) == (b & 0x20 != 0) && (a & 0x10 != 0) == (b & 0x10 != 0)
    requires (a & 0x08 != 0) == (b & 0x08 != 0) && (a & 0x04 != 0) == (b & 0x04 != 0)
    requires (a & 0x02 != 0) == (b & 0x02 != 0) && (a & 0x01 != 0) == (b & 0x01 != 0)
    ensures a == b
  {}

  lemma BytesExt(a: seq<Byte>, b: seq<Byte>)
    requires BitsOf(a) == BitsOf(b)
    ensures a == b
  {
    assert |a| == |b| by { assert |BitsOf(a)| == |BitsOf(b)|; }
    forall q | 0 <= q < |a| ensures a[q] == b[q] {
      forall t | 0 <= t < 8 ensures Bit(a[q], t) == Bit(b[q], t) {
        assert BitsOf(a)[8 * q + t] == BitsOf(b)[8 * q + t];
      }
      ByteExt(a[q], b[q]);
    }
  }

  lemma BitsOfConcat(a: seq<Byte>, b: seq<Byte>)
    ensures BitsOf(a + b) == BitsOf(a) + BitsOf(b)
  {}

  /** Parity of the bitwise product of a and b over positions lo..hi. */
  function Dot(a: seq<bool>, b: seq<bool>, lo: nat, hi: nat): bool
    requires lo <= hi <= |a| && hi <= |b|
    decreases hi - lo
  {
    if lo == hi then false else Dot(a, b, lo, hi - 1) != (a[hi - 1] && b[hi - 1])
  }

  function Xor(a: seq<bool>, b: seq<bool>): (r: seq<bool>)
    requires |a| == |b|
    ensures |r| == |a|
  {
    seq(|a|, i requires 0 <= i < |a| => a[i] != b[i])
  }

  /** The GF(2) inner product is linear in its first argument. */
  lemma {:induction false} DotXor(a: seq<bool>, b: seq<bool>, x: seq<bool>, lo: nat, hi: nat)
    requires |a| == |b| && lo <= hi <= |a| && hi <= |x|
    ensures Dot(Xor(a, b), x, lo, hi) == (Dot(a, x, lo, hi) != Dot(b, x, lo, hi))
    decreases hi - lo
  {
    if lo < hi {
      DotXor(a, b, x, lo, hi - 1);
    }
  }

  /** Inner products depend on nothing outside the range. */
  lemma {:induction false} DotLocal(a: seq<bool>, b: seq<bool>, c: seq<bool>, d: seq<bool>, lo: nat, hi: nat, shift: nat)
    requires lo <= hi && hi + shift <= |a| && hi + shift <= |b| && hi <= |c| && hi <= |d|
    requires forall i | lo <= i < hi :: a[i + shift] == c[i] && b[i + shift] == d[i]
    ensures Dot(a, b, lo + shift, hi + shift) == Dot(c, d, lo, hi)
    decreases hi - lo
  {
    if lo < hi {
      DotLocal(a, b, c, d, lo, hi - 1, shift);
    }
  }

  /** Inner products add over adjacent ranges. */
  lemma {:induction false} DotSplit(a: seq<bool>, b: seq<bool>, lo: nat, mid: nat, hi: nat)
    requires lo <= mid <= hi <= |a| && hi <= |b|
    ensures Dot(a, b, lo, hi) == (Dot(a, b, lo, mid) != Dot(a, b, mid, hi))
    decreases hi - mid
  {
    if mid < hi {
      DotSplit(a, b, lo, mid, hi - 1);
    }
  }

  /** The first n bits of `bits` stand at bytes[at..]; the rest of the byte under construction is clear. */
  ghost predicate Written(bytes: seq<Byte>, at: nat, bits: seq<bool>, n: nat)
    requires n <= |bits| && at + (n + 7) / 8 <= |bytes|
  {
    forall q | 0 <= q < (n + 7) / 8 :: bytes[at + q] == PackByte(bits, 8 * q, if 8 * q + 8 <= n then 8 else n - 8 * q)
  }

  /** The byte that bit n belongs to holds the bits before it. */
  lemma ByteSoFar(bytes: seq<Byte>, at: nat, bits: seq<bool>, n: nat)
    requires n < |bits| && at + n / 8 < |bytes| && Written(bytes, at, bits, n)
    ensures n % 8 != 0 ==> bytes[at + n / 8] == PackByte(bits, 8 * (n / 8), n % 8)
    ensures PackByte(bits, 8 * (n / 8), 0) == 0
  {}

  lemma PackNext(bits: seq<bool>, base: nat, t: nat)
    requires t < 8 && base + t < |bits|
    ensures PackByte(bits, base, t + 1) == PackByte(bits, base, t) | if bits[base + t] then Mask(t) else 0
    ensures PackByte(bits, base, t) | 0 == PackByte(bits, base, t)
  {}

  lemma WrittenNext(before: seq<Byte>, after: seq<Byte>, at: nat, bits: seq<bool>, n: nat)
    requires n < |bits| && at + n / 8 < |before| == |after| && Written(before, at, bits, n)
    requires forall i | 0 <= i < |before| && i != at + n / 8 :: after[i] == before[i]
    requires after[at + n / 8] == PackByte(bits, 8 * (n / 8), n % 8 + 1)
    ensures Written(after, at, bits, n + 1)
  {
    hide PackByte;
    forall p | 0 <= p < (n + 8) / 8
      ensures after[at + p] == PackByte(bits, 8 * p, if 8 * p + 8 <= n + 1 then 8 else n + 1 - 8 * p)
    {
      if p < n / 8 {
        assert before[at + p] == PackByte(bits, 8 * p, 8);
      }
    }
  }

  /** ORs bit n into its byte, which is clear when it is reached. */
  method OrInto(out: array<Byte>, at: nat, n: nat, bit: bool, ghost bits: seq<bool>)
    requires n < |bits| && bits[n] == bit && at + n / 8 < out.Length && Written(out[..], at, bits, n)
    requires n % 8 == 0 ==> out[at + n / 8] == 0
    modifies out
    ensures Written(out[..], at, bits, n + 1)
    ensures forall i | 0 <= i < out.Length && i != at + n / 8 :: out[i] == old(out[i])
  {
    ghost var before := out[..];
    ByteSoFar(before, at, bits, n);
    PackNext(bits, 8 * (n / 8), n % 8);
    hide PackByte, Mask, Written;
    if bit {
      out[at + n / 8] := out[at + n / 8] | Mask(n % 8);
    }
    WrittenNext(before, out[..], at, bits, n);
  }

  /** Appends bit n: clears each byte when it is first touched, then ORs the bit into place. */
  method PutBit(out: array<Byte>, at: nat, n: nat, bit: bool, ghost bits: seq<bool>)
    requires n < |bits| && bits[n] == bit && at + n / 8 < out.Length
    requires Written(out[..], at, bits, n)
    modifies out
    ensures Written(out[..], at, bits, n + 1)
    ensures forall i | 0 <= i < out.Length && i != at + n / 8 :: out[i] == old(out[i])
  {
    hide PackByte;
    if n % 8 == 0 {
      out[at + n / 8] := 0;
    }
    OrInto(out, at, n, bit, bits);
  }

  /** Bytes from bit n on are clear. */
  predicate ClearFrom(bytes: seq<Byte>, n: nat) {
    forall q | 0 <= q < |bytes| && n <= 8 * q :: bytes[q] == 0
  }

  lemma StaysClear(before: seq<Byte>, after: seq<Byte>, n: nat)
    requires |before| == |after| && ClearFrom(before, n) && forall i | 0 <= i < |before| && i != n / 8 :: after[i] == before[i]
    ensures ClearFrom(after, n + 1)
  {}

  lemma WrittenBits(bytes: seq<Byte>, at: nat, bits: seq<bool>)
    requires |bits| % 8 == 0 && at + |bits| / 8 <= |bytes| && Written(bytes, at, bits, |bits|)
    ensures bytes[at..at + |bits| / 8] == Pack(bits)
    ensures BitsOf(bytes[at..at + |bits| / 8]) == bits
  {
    assert bytes[at..at + |bits| / 8] == Pack(bits);
    PackBits(bits);
  }

  lemma PackOfBits(bytes: seq<Byte>)
    ensures Pack(BitsOf(bytes)) == bytes
  {
    hide Pack;
    PackBits(BitsOf(bytes));
    BytesExt(Pack(BitsOf(bytes)), bytes);
  }

  /** Bytes are written once their bits are. */
  lemma BytesWritten(bytes: seq<Byte>, at: nat, data: seq<Byte>, bits: seq<bool>)
    requires at + |data| <= |bytes| && BitsOf(data) <= bits
    requires forall q | 0 <= q < |data| :: bytes[at + q] == data[q]
    ensures Written(bytes, at, bits, 8 * |data|)
  {
    forall q | 0 <= q < |data| ensures bytes[at + q] == PackByte(bits, 8 * q, 8) {
      forall t | 0 <= t < 8 ensures Bit(PackByte(bits, 8 * q, 8), t) == Bit(data[q], t) {
        PackByteBit(bits, 8 * q, 8, t);
        assert BitsOf(data)[8 * q + t] == bits[8 * q + t];
      }
      ByteExt(PackByte(bits, 8 * q, 8), data[q]);
    }
  }

  /** Byte-by-byte copy into a buffer. */
  method CopyInto(source: seq<Byte>, target: array<Byte>, at: nat)
    requires at + |source| <= target.Length
    modifies target
    ensures forall i | 0 <= i < |source| :: target[at + i] == source[i]
    ensures forall i | 0 <= i < target.Length && !(at <= i < at + |source|) :: target[i] == old(target[i])
  {
    var index := 0;
    while index < |source|
      invariant 0 <= index <= |source|
      invariant forall i | 0 <= i < index :: target[at + i] == source[i]
      invariant forall i | 0 <= i < target.Length && !(at <= i < at + |source|) :: target[i] == old(target[i])
    {
      target[at + index] := source[index];
      index := index + 1;
    }
  }

  lemma BitsAt(bytes: seq<Byte>, q: nat, t: nat)
    requires q < |bytes| && t < 8
    ensures BitsOf(bytes)[8 * q + t] == Bit(bytes[q], t)
  {
    assert (8 * q + t) / 8 == q && (8 * q + t) % 8 == t;
  }
}
