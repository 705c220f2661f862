/**
 The systematic LDPC encoder and the normalized min-sum decoder of
 src/fec/ldpc.c.  A code is an edge list grouped by parity check, plus one byte
 mask row per parity bit.  Log-likelihood ratios are reals: positive means bit
 zero, negative means bit one.
 */
module Ldpc {
  import opened Bits

  datatype Option<+T> = None | Some(value: T)

  datatype Code = Code(
    variableCount: nat,
    informationCount: nat,
    offsets: seq<nat>,
    edges: seq<nat>,
    masks: seq<seq<Byte>>)
  {
    function CheckCount(): nat
      requires |offsets| > 0
    {
      |offsets| - 1
    }

    /** What the table generator guarantees of every table it writes. */
    ghost predicate WellFormed() {
      && |offsets| > 0 && offsets[0] == 0 && offsets[|offsets| - 1] == |edges|
      && (forall c, d | 0 <= c < d < |offsets| :: offsets[c] < offsets[d])
      && (forall c | 0 <= c < |offsets| - 1 :: offsets[c] + 2 <= offsets[c + 1])
      && (forall e | 0 <= e < |edges| :: edges[e] < variableCount)
    }

    ghost predicate InRow(c: nat, e: nat)
      requires WellFormed()
    {
      c < CheckCount() && offsets[c] <= e < offsets[c + 1]
    }

    /** Variables of one check are strictly increasing, so no check names a variable twice. */
    ghost predicate SortedRows()
      requires WellFormed()
    {
      forall c: nat, e: nat, f: nat | InRow(c, e) && InRow(c, f) && e < f :: edges[e] < edges[f]
    }
  }

  /** The check that owns edge e. */
  function RowOf(code: Code, e: nat, from: nat := 0): (c: nat)
    requires code.WellFormed() && e < |code.edges|
    requires from < code.CheckCount() && code.offsets[from] <= e
    ensures code.InRow(c, e)
    decreases code.CheckCount() - from
  {
    if e < code.offsets[from + 1] then from else RowOf(code, e, from + 1)
  }

  lemma RowUnique(code: Code, c: nat, d: nat, e: nat)
    requires code.WellFormed() && code.InRow(c, e) && code.InRow(d, e)
    ensures c == d
  {}

  // ---------------------------------------------------------------- parity checks

  /** Parity of the bits named by edges lo..hi. */
  function RowParity(edges: seq<nat>, bits: seq<bool>, lo: nat, hi: nat): bool
    requires lo <= hi <= |edges|
    requires forall e | lo <= e < hi :: edges[e] < |bits|
    decreases hi - lo
  {
    if lo == hi then false else RowParity(edges, bits, lo, hi - 1) != bits[edges[hi - 1]]
  }

  predicate Satisfied(code: Code, bits: seq<bool>, c: nat)
    requires code.WellFormed() && |bits| == code.variableCount && c < code.CheckCount()
  {
    !RowParity(code.edges, bits, code.offsets[c], code.offsets[c + 1])
  }

  ghost predicate Codeword(code: Code, bits: seq<bool>)
    requires code.WellFormed()
  {
    |bits| == code.variableCount && forall c | 0 <= c < code.CheckCount() :: Satisfied(code, bits, c)
  }

  /** Number of violated checks among the first n. */
  function Syndrome(code: Code, bits: seq<bool>, n: nat): (w: nat)
    requires code.WellFormed() && |bits| == code.variableCount && n <= code.CheckCount()
    ensures w == 0 <==> forall c | 0 <= c < n :: Satisfied(code, bits, c)
  {
    if n == 0 then 0
    else Syndrome(code, bits, n - 1) + (if Satisfied(code, bits, n - 1) then 0 else 1)
  }

  // ---------------------------------------------------------------- encoder

  /** Parity of the set bits of a byte, by the folded 16-entry table. */
  predicate Parity8(value: Byte) {
    var folded := (value ^ (value >> 4)) & 0x0f;
    ((0x6996 as bv16) >> folded) & 1 != 0
  }

  lemma Parity8Bits(v: Byte)
    ensures Parity8(v) == (((((((((v & 0x80 != 0) != (v & 0x40 != 0)) != (v & 0x20 != 0)) != (v & 0x10 != 0))
                              != (v & 0x08 != 0)) != (v & 0x04 != 0)) != (v & 0x02 != 0)) != (v & 0x01 != 0)))
  {}

  ghost predicate Encodable(code: Code) {
    && |code.masks| > 0 && code.informationCount > 0 && code.informationCount % 8 == 0 && code.variableCount % 8 == 0
    && code.variableCount == code.informationCount + |code.masks|
    && forall j | 0 <= j < |code.masks| :: |code.masks[j]| == code.informationCount / 8
  }

  /** The bits of mask row j. */
  function MaskRow(code: Code, j: nat): (r: seq<bool>)
    requires Encodable(code) && j < |code.masks|
    ensures |r| == code.informationCount
  {
    BitsOf(code.masks[j])
  }

  /** Parity bit j of the systematic word is the inner product of mask row j with the information bits. */
  function ParityBits(code: Code, info: seq<bool>): (r: seq<bool>)
    requires Encodable(code) && |info| == code.informationCount
    ensures |r| == |code.masks|
  {
    seq(|code.masks|, j requires 0 <= j < |code.masks| => Dot(MaskRow(code, j), info, 0, code.informationCount))
  }

  function SystematicWord(code: Code, info: seq<bool>): (r: seq<bool>)
    requires Encodable(code) && |info| == code.informationCount
    ensures |r| == code.variableCount
  {
    info + ParityBits(code, info)
  }

  /** Eight masked bits at a time or one at a time: the same parity. */
  lemma DotByte(a: seq<Byte>, b: seq<Byte>, n: nat)
    requires n < |a| == |b|
    ensures Dot(BitsOf(a), BitsOf(b), 0, 8 * n + 8) == (Dot(BitsOf(a), BitsOf(b), 0, 8 * n) != Parity8(b[n] & a[n]))
  {
    hide *;
    MaskTable();
    DotStep(a, b, n, 0);
    DotStep(a, b, n, 1);
    DotStep(a, b, n, 2);
    DotStep(a, b, n, 3);
    DotStep(a, b, n, 4);
    DotStep(a, b, n, 5);
    DotStep(a, b, n, 6);
    DotStep(a, b, n, 7);
    Parity8Bits(b[n] & a[n]);
  }

  lemma MaskTable()
    ensures Mask(0) == 0x80 && Mask(1) == 0x40 && Mask(2) == 0x20 && Mask(3) == 0x10
    ensures Mask(4) == 0x08 && Mask(5) == 0x04 && Mask(6) == 0x02 && Mask(7) == 0x01
  {}

  lemma DotStep(a: seq<Byte>, b: seq<Byte>, n: nat, t: nat)
    requires n < |a| == |b| && t < 8
    ensures Dot(BitsOf(a), BitsOf(b), 0, 8 * n + (t + 1)) ==
            (Dot(BitsOf(a), BitsOf(b), 0, 8 * n + t) != ((b[n] & a[n]) & Mask(t) != 0))
  {
    hide BitsOf, Dot, Mask;
    BitsAt(a, n, t);
    BitsAt(b, n, t);
    DotNext(BitsOf(a), BitsOf(b), 8 * n + t);
    OneMask(t);
    SingleBit(b[n], a[n], Mask(t));
  }

  lemma DotNext(x: seq<bool>, y: seq<bool>, k: nat)
    requires k < |x| && k < |y|
    ensures Dot(x, y, 0, k + 1) == (Dot(x, y, 0, k) != (x[k] && y[k]))
  {}

  lemma OneMask(t: nat)
    requires t < 8
    ensures Mask(t) == 0x80 || Mask(t) == 0x40 || Mask(t) == 0x20 || Mask(t) == 0x10 || Mask(t) == 0x08
      || Mask(t) == 0x04 || Mask(t) == 0x02 || Mask(t) == 0x01
  {}

  lemma SingleBit(v: Byte, m: Byte, k: Byte)
    requires k == 0x80 || k == 0x40 || k == 0x20 || k == 0x10 || k == 0x08 || k == 0x04 || k == 0x02 || k == 0x01
    ensures ((v & m) & k != 0) == (v & k != 0 && m & k != 0)
  {}

  method MaskedBit(code: Code, information: seq<Byte>, j: nat) returns (bit: bool)
    requires Encodable(code) && |information| == code.informationCount / 8 && j < |code.masks|
    ensures bit == ParityBits(code, BitsOf(information))[j]
  {
    bit := false;
    var i := 0;
    while i < |information|
      invariant 0 <= i <= |information|
      invariant bit == Dot(BitsOf(code.masks[j]), BitsOf(information), 0, 8 * i)
    {
      DotByte(code.masks[j], information, i);
      bit := bit != Parity8(information[i] & code.masks[j][i]);
      i := i + 1;
    }
  }

  /** Writes the systematic codeword of `information` into codeword[at..]; a code without masks is refused. */
  method EncodeSystematic(code: Code, information: seq<Byte>, codeword: array<Byte>, at: nat, codewordBytes: nat)
    returns (ok: bool)
    requires at + codewordBytes <= codeword.Length
    requires |code.masks| > 0 ==> code.variableCount == code.informationCount + |code.masks|
    requires forall j | 0 <= j < |code.masks| :: |code.masks[j]| == code.informationCount / 8
    modifies codeword
    ensures ok <==> Encodable(code) && |information| == code.informationCount / 8 && codewordBytes >= code.variableCount / 8
    ensures ok ==> codeword[at..at + code.variableCount / 8] == Pack(SystematicWord(code, BitsOf(information)))
    ensures forall i | 0 <= i < codeword.Length && (!ok || !(at <= i < at + code.variableCount / 8)) :: codeword[i] == old(codeword[i])
  {
    if |code.masks| == 0 || code.informationCount == 0 || code.informationCount % 8 != 0 || code.variableCount % 8 != 0
       || |information| != code.informationCount / 8 || codewordBytes < code.variableCount / 8 {
      return false;
    }
    WriteWord(code, information, codeword, at);
    return true;
  }

  lemma WordPrefix(code: Code, info: seq<bool>)
    requires Encodable(code) && |info| == code.informationCount
    ensures info <= SystematicWord(code, info)
  {}

  lemma ParityBitAt(code: Code, info: seq<bool>, j: nat)
    requires Encodable(code) && |info| == code.informationCount && j < |code.masks|
    ensures SystematicWord(code, info)[code.informationCount + j] == ParityBits(code, info)[j]
  {}

  method AppendParity(code: Code, information: seq<Byte>, codeword: array<Byte>, at: nat)
    requires Encodable(code) && |information| == code.informationCount / 8
    requires at + code.variableCount / 8 <= codeword.Length
    requires Written(codeword[..], at, SystematicWord(code, BitsOf(information)), code.informationCount)
    modifies codeword
    ensures Written(codeword[..], at, SystematicWord(code, BitsOf(information)), code.variableCount)
    ensures forall i | 0 <= i < codeword.Length && !(at <= i < at + code.variableCount / 8) :: codeword[i] == old(codeword[i])
  {
    hide SystematicWord, ParityBits, BitsOf, Written;
    ghost var word := SystematicWord(code, BitsOf(information));
    var j := 0;
    while j < code.variableCount - code.informationCount
      invariant 0 <= j <= |code.masks|
      invariant Written(codeword[..], at, word, code.informationCount + j)
      invariant forall i | 0 <= i < codeword.Length && !(at <= i < at + code.variableCount / 8) :: codeword[i] == old(codeword[i])
    {
      var bit := MaskedBit(code, information, j);
      ParityBitAt(code, BitsOf(information), j);
      PutBit(codeword, at, code.informationCount + j, bit, word);
      j := j + 1;
    }
  }

  method WriteWord(code: Code, information: seq<Byte>, codeword: array<Byte>, at: nat)
    requires Encodable(code) && |information| == code.informationCount / 8
    requires at + code.variableCount / 8 <= codeword.Length
    modifies codeword
    ensures codeword[at..at + code.variableCount / 8] == Pack(SystematicWord(code, BitsOf(information)))
    ensures forall i | 0 <= i < codeword.Length && !(at <= i < at + code.variableCount / 8) :: codeword[i] == old(codeword[i])
  {
    hide SystematicWord, BitsOf, Written, Pack, PackByte;
    ghost var word := SystematicWord(code, BitsOf(information));
    WordPrefix(code, BitsOf(information));
    CopyInto(information, codeword, at);
    BytesWritten(codeword[..], at, information, word);
    AppendParity(code, information, codeword, at);
    WrittenBits(codeword[..], at, word);
    assert codeword[..][at..at + code.variableCount / 8] == codeword[at..at + code.variableCount / 8];
  }
}
