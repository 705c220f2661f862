/**
 Bit placement of src/modem/offline.c: bytes cut into symbols of 1 to 4 bits, the
 last one filled up with zeros, and soft values put back in wire order.
 */
module Symbols {
  import opened Numbers
  import opened Arithmetic
  import opened Bits
  import opened Signs

  predicate SymbolWidth(b: nat) {
    1 <= b <= 4
  }

  function SymbolCount(bytes: nat, b: nat): nat
    requires SymbolWidth(b)
  {
    (8 * bytes + b - 1) / b
  }

  /** Bit i of the stream, zero past its end. */
  predicate StreamBit(bits: seq<bool>, i: nat) {
    i < |bits| && bits[i]
  }

  /** Wire position of bit t of symbol k. */
  function Place(k: nat, b: nat, t: nat): nat {
    k * b + t
  }

  function SymbolBits(bits: seq<bool>, k: nat, b: nat): (r: seq<bool>)
    ensures |r| == b
  {
    seq(b, t requires 0 <= t < b => StreamBit(bits, Place(k, b, t)))
  }

  /** A bit row read as a binary number, first bit highest. */
  function Value(bits: seq<bool>): nat {
    if bits == [] then 0 else 2 * Value(bits[..|bits| - 1]) + if bits[|bits| - 1] then 1 else 0
  }

  function Power(n: nat): (r: nat)
    ensures r > 0
  {
    if n == 0 then 1 else 2 * Power(n - 1)
  }

  /** Bit t of a symbol of b bits, first bit highest. */
  predicate HardBit(symbol: nat, b: nat, t: nat)
    requires t < b
  {
    symbol / Power(b - 1 - t) % 2 == 1
  }

  lemma {:induction false} HardBitOfValue(bits: seq<bool>, t: nat)
    requires t < |bits|
    ensures HardBit(Value(bits), |bits|, t) == bits[t]
  {
    var n := |bits|;
    var high := Value(bits[..n - 1]);
    if t < n - 1 {
      HardBitOfValue(bits[..n - 1], t);
      Halve(Value(bits), Power(n - 2 - t));
    }
  }

  /** Dividing by 2p is halving, then dividing by p. */
  lemma Halve(x: nat, p: nat)
    requires p > 0
    ensures x / (2 * p) == (x / 2) / p
  {
    var q, r := (x / 2) / p, (x / 2) % p;
    assert x / 2 == p * q + r;
    var rest := x - (2 * p) * q;
    assert (2 * p) * q == 2 * (p * q);
    assert 0 <= rest < 2 * p;
    Quotient(x, 2 * p, q, rest);
  }

  lemma PlaceParts(k: nat, b: nat, t: nat)
    requires t < b
    ensures Place(k, b, t) / b == k && Place(k, b, t) % b == t
  {
    assert k * b == b * k;
    Quotient(Place(k, b, t), b, k, t);
  }

  lemma PlaceInside(i: nat, b: nat, bytes: nat)
    requires SymbolWidth(b) && i < 8 * bytes
    ensures i / b < SymbolCount(bytes, b) && Place(i / b, b, i % b) == i
  {
    assert i == b * (i / b) + i % b;
  }

  // ---------------------------------------------------------------- transmit side

  /** `read_symbol_bits`. */
  method ReadSymbolBits(bytes: seq<Byte>, index: nat, b: nat) returns (symbol: nat)
    requires SymbolWidth(b)
    ensures symbol == Value(SymbolBits(BitsOf(bytes), index, b))
  {
    hide StreamBit, BitsOf, Place, Bit;
    symbol := 0;
    ghost var row := SymbolBits(BitsOf(bytes), index, b);
    for bit := 0 to b
      invariant symbol == Value(row[..bit])
    {
      var source := index * b + bit;
      symbol := symbol * 2;
      if source < 8 * |bytes| {
        symbol := symbol + if Bit(bytes[source / 8], source % 8) then 1 else 0;
      }
      SourceBit(bytes, source);
      PlaceIs(index, b, bit);
      assert row[..bit + 1][..bit] == row[..bit];
    }
    assert row[..b] == row;
  }

  lemma PlaceIs(k: nat, b: nat, t: nat)
    ensures Place(k, b, t) == k * b + t
  {}

  lemma SourceBit(bytes: seq<Byte>, i: nat)
    ensures StreamBit(BitsOf(bytes), i) == (i < 8 * |bytes| && Bit(bytes[i / 8], i % 8))
  {}

  function SymbolsOf(bytes: seq<Byte>, b: nat): (r: seq<nat>)
    requires SymbolWidth(b)
    ensures |r| == SymbolCount(|bytes|, b)
  {
    seq(SymbolCount(|bytes|, b), k requires k >= 0 => Value(SymbolBits(BitsOf(bytes), k, b)))
  }

  /** The payload symbols, in the order they are mapped. */
  method EmitSymbols(bytes: seq<Byte>, b: nat) returns (symbols: seq<nat>)
    requires SymbolWidth(b)
    ensures symbols == SymbolsOf(bytes, b)
  {
    hide Value, SymbolBits, BitsOf;
    symbols := [];
    for index := 0 to SymbolCount(|bytes|, b)
      invariant symbols == SymbolsOf(bytes, b)[..index]
    {
      var symbol := ReadSymbolBits(bytes, index, b);
      symbols := symbols + [symbol];
    }
  }

  // ---------------------------------------------------------------- receive side

  /** What the demapper reports for one symbol: its decision and one soft value a bit. */
  datatype Demapped = Demapped(symbol: nat, llr: seq<real>)

  predicate Demaps(demapped: seq<Demapped>, bytes: nat, b: nat)
    requires SymbolWidth(b)
  {
    |demapped| >= SymbolCount(bytes, b) && forall k | 0 <= k < |demapped| :: |demapped[k].llr| >= b
  }

  /** The soft values of the stream in wire order. */
  function Llrs(demapped: seq<Demapped>, bytes: nat, b: nat): (r: seq<real>)
    requires SymbolWidth(b) && Demaps(demapped, bytes, b)
    ensures |r| == 8 * bytes
  {
    seq(8 * bytes, i requires 0 <= i < 8 * bytes => (PlaceInside(i, b, bytes); demapped[i / b].llr[i % b]))
  }

  function HardBits(demapped: seq<Demapped>, bytes: nat, b: nat): (r: seq<bool>)
    requires SymbolWidth(b) && Demaps(demapped, bytes, b)
    ensures |r| == 8 * bytes
  {
    seq(8 * bytes, i requires 0 <= i < 8 * bytes => (PlaceInside(i, b, bytes); HardBit(demapped[i / b].symbol, b, i % b)))
  }

  /** The first n bits of the stream are in place. */
  ghost predicate Placed(bytes: seq<Byte>, llr: seq<real>, soft: seq<real>, hard: seq<bool>, n: nat)
    requires n <= |hard| == |soft| == 8 * |bytes| && n <= |llr|
  {
    llr[..n] == soft[..n] && Written(bytes, 0, hard, n) && ClearFrom(bytes, n)
  }

  method PlaceBit(bytes: array<Byte>, llr: array<real>, n: nat, softBit: real, hardBit: bool, ghost soft: seq<real>, ghost hard: seq<bool>)
    requires n < |hard| == |soft| == 8 * bytes.Length <= llr.Length && soft[n] == softBit && hard[n] == hardBit
    requires Placed(bytes[..], llr[..], soft, hard, n)
    modifies bytes, llr
    ensures Placed(bytes[..], llr[..], soft, hard, n + 1)
  {
    hide Written;
    ghost var before := bytes[..];
    OrInto(bytes, 0, n, hardBit, hard);
    StaysClear(before, bytes[..], n);
    hide ClearFrom;
    llr[n] := softBit;
    assert soft[..n + 1] == soft[..n] + [softBit];
  }

  /** `decode_bytes`: all soft values of the stream, each once and in wire order, and the hard decisions. */
  method DecodeBytes(demapped: seq<Demapped>, byteCount: nat, b: nat, bytes: array<Byte>, llr: array<real>)
    requires SymbolWidth(b) && Demaps(demapped, byteCount, b) && bytes.Length == byteCount && 8 * byteCount <= llr.Length
    modifies bytes, llr
    ensures llr[..8 * byteCount] == Llrs(demapped, byteCount, b)
    ensures BitsOf(bytes[..]) == HardBits(demapped, byteCount, b)
  {
    var bitCount := 8 * byteCount;
    ghost var soft, hard := Llrs(demapped, byteCount, b), HardBits(demapped, byteCount, b);
    for index := 0 to byteCount
      invariant forall i | 0 <= i < index :: bytes[i] == 0
    {
      bytes[index] := 0;
    }
    hide Placed, BitsOf, Power, SymbolCount;
    var written := 0;
    Starts(bytes[..], llr[..], soft, hard);
    for k := 0 to SymbolCount(byteCount, b)
      invariant written == Min(Place(k, b, 0), bitCount) && Placed(bytes[..], llr[..], soft, hard, written)
    {
      for bit := 0 to b
        invariant written == Min(Place(k, b, bit), bitCount) && Placed(bytes[..], llr[..], soft, hard, written)
      {
        var destination := k * b + bit;
        if destination < bitCount {
          PlaceParts(k, b, bit);
          PlaceBit(bytes, llr, destination, demapped[k].llr[bit], HardBit(demapped[k].symbol, b, bit), soft, hard);
          written := written + 1;
        }
      }
      PlaceNext(k, b);
    }
    AllPlaced(byteCount, b);
    Ends(bytes[..], llr[..], soft, hard);
  }

  lemma Starts(bytes: seq<Byte>, llr: seq<real>, soft: seq<real>, hard: seq<bool>)
    requires |hard| == |soft| == 8 * |bytes| && forall i | 0 <= i < |bytes| :: bytes[i] == 0
    ensures Placed(bytes, llr, soft, hard, 0)
  {}

  lemma Ends(bytes: seq<Byte>, llr: seq<real>, soft: seq<real>, hard: seq<bool>)
    requires |hard| == |soft| == 8 * |bytes| <= |llr| && Placed(bytes, llr, soft, hard, |hard|)
    ensures llr[..|soft|] == soft && BitsOf(bytes) == hard
  {
    hide BitsOf, Written, ClearFrom;
    WrittenBits(bytes, 0, hard);
    assert bytes[0..|bytes|] == bytes;
    assert soft[..|soft|] == soft;
  }

  lemma PlaceNext(k: nat, b: nat)
    ensures Place(k, b, b) == Place(k + 1, b, 0)
  {}

  lemma AllPlaced(bytes: nat, b: nat)
    requires SymbolWidth(b)
    ensures Place(SymbolCount(bytes, b), b, 0) >= 8 * bytes
  {}

  // ---------------------------------------------------------------- channel

  /** Every soft value of every symbol leans strictly towards the bit that was mapped. */
  ghost predicate FaithfulChannel(symbols: seq<nat>, demapped: seq<Demapped>, b: nat) {
    && |demapped| >= |symbols| && (forall k | 0 <= k < |demapped| :: |demapped[k].llr| >= b)
    && forall k, t | 0 <= k < |symbols| && 0 <= t < b :: Signed(demapped[k].llr[t], HardBit(symbols[k], b, t)) > 0.0
  }

  /** Through such a channel every wire bit gets back exactly one soft value, on its side of zero. */
  lemma StreamArrives(bytes: seq<Byte>, demapped: seq<Demapped>, b: nat, i: nat)
    requires SymbolWidth(b) && FaithfulChannel(SymbolsOf(bytes, b), demapped, b) && i < 8 * |bytes|
    ensures Demaps(demapped, |bytes|, b)
    ensures Signed(Llrs(demapped, |bytes|, b)[i], BitsOf(bytes)[i]) > 0.0
  {
    hide Value, HardBit, BitsOf, SymbolCount;
    PlaceInside(i, b, |bytes|);
    var k, t := i / b, i % b;
    HardBitOfValue(SymbolBits(BitsOf(bytes), k, b), t);
    assert SymbolsOf(bytes, b)[k] == Value(SymbolBits(BitsOf(bytes), k, b));
    assert Signed(demapped[k].llr[t], HardBit(SymbolsOf(bytes, b)[k], b, t)) > 0.0;
  }
}
