/**
 Block layout of src/fec/fec.c: which input byte, transmitted byte and received
 value belongs where, and the uncoded mode.
 */
module FecLayout {
  import opened Bits

  datatype Mode = Uncoded | Robust | Normal | Fast

  datatype Status = Ok | BufferTooSmall | UnsupportedMode | InvalidBlock | DecodeFailure

  const SIZE_MAX: nat := 0xffff_ffff_ffff_ffff
  const WORD: nat := SIZE_MAX + 1
  const MAX_BLOCKS: nat := 20
  const NORMALIZATION: real := 0.75
  const MAX_ITERATIONS: nat := 30

  predicate Coded(mode: Mode) {
    mode == Robust || mode == Normal
  }

  /** Transmitted bytes per eight information bytes. */
  function BlockBytes(mode: Mode): nat
    requires Coded(mode)
  {
    if mode == Robust then 16 else 12
  }

  /** Bytes sent for n blocks. */
  function SentBytes(mode: Mode, n: nat): nat
    requires Coded(mode)
  {
    if mode == Robust then 16 * n else 12 * n
  }

  function BlockCount(inputBytes: nat): nat {
    (inputBytes + 7) / 8
  }

  /** `rtnc_fec_encoded_size`; the product wraps at the word size. */
  function EncodedSize(mode: Mode, inputBytes: nat): nat {
    if mode == Uncoded then inputBytes
    else if Coded(mode) && inputBytes != 0 && inputBytes <= SIZE_MAX - 7 then SentBytes(mode, BlockCount(inputBytes)) % WORD
    else 0
  }

  /** Blocks that fit the announced size: all of them unless the product wraps. */
  function BlocksSent(mode: Mode, inputBytes: nat): nat
    requires Coded(mode)
  {
    if mode == Robust then EncodedSize(mode, inputBytes) / 16 else EncodedSize(mode, inputBytes) / 12
  }

  lemma AllBlocksSent(mode: Mode, inputBytes: nat)
    requires Coded(mode) && 0 < inputBytes <= SIZE_MAX - 7
    ensures SentBytes(mode, BlocksSent(mode, inputBytes)) <= EncodedSize(mode, inputBytes) && BlocksSent(mode, inputBytes) <= BlockCount(inputBytes)
    ensures BlocksSent(mode, inputBytes) == BlockCount(inputBytes) <==> SentBytes(mode, BlockCount(inputBytes)) < WORD
    ensures SentBytes(mode, BlockCount(inputBytes)) < WORD ==> EncodedSize(mode, inputBytes) == SentBytes(mode, BlockCount(inputBytes))
  {}

  // ---------------------------------------------------------------- encoding

  /** Byte i of the input, zero past its end. */
  function InputByte(input: seq<Byte>, i: nat): Byte {
    if i < |input| then input[i] else 0
  }

  /** Information block b. */
  function BlockInput(input: seq<Byte>, b: nat): (r: seq<Byte>)
    ensures |r| == 8 && forall i | 0 <= i < 8 :: r[i] == InputByte(input, 8 * b + i)
  {
    seq(8, i requires 0 <= i < 8 => InputByte(input, 8 * b + i))
  }

  method LoadBlock(input: seq<Byte>, b: nat) returns (information: seq<Byte>)
    requires 8 * b < |input|
    ensures information == BlockInput(input, b)
  {
    var offset := 8 * b;
    var remaining := |input| - offset;
    var copyBytes := if remaining < 8 then remaining else 8;
    information := input[offset..offset + copyBytes] + seq(8 - copyBytes, i => 0);
  }

  /** Received values per block. */
  function Width(mode: Mode): nat
    requires Coded(mode)
  {
    if mode == Robust then 128 else 96
  }

  /** Received values of n blocks. */
  function Values(mode: Mode, n: nat): nat
    requires Coded(mode)
  {
    if mode == Robust then 128 * n else 96 * n
  }

  /** Value of codeword position i when the block starts at `base`; NORMAL does not send positions 64..95. */
  function PositionLlr(mode: Mode, llr: seq<real>, base: nat, i: nat): real
    requires Coded(mode) && base + Width(mode) <= |llr| && i < 128
  {
    if mode == Robust || i < 64 then llr[base + i] else if i < 96 then 0.0 else llr[base + i - 32]
  }

  /** Place of codeword byte q of block b among the transmitted bytes. */
  function SentAt(mode: Mode, b: nat, q: nat): nat
    requires Coded(mode) && (mode == Robust || q < 8 || 12 <= q)
  {
    SentBytes(mode, b) + if mode == Robust || q < 8 then q else q - 4
  }

  predicate Punctured(v: nat) {
    64 <= v < 96
  }

  /** A transmitted position reads the value received for its bit; the others read zero. */
  lemma PositionValue(mode: Mode, llr: seq<real>, b: nat, i: nat)
    requires Coded(mode) && Values(mode, b + 1) <= |llr| && i < 128
    ensures mode == Normal && Punctured(i) ==> PositionLlr(mode, llr, Values(mode, b), i) == 0.0
    ensures mode == Robust || !Punctured(i) ==>
      && (mode == Robust || i / 8 < 8 || 12 <= i / 8)
      && 8 * SentAt(mode, b, i / 8) + i % 8 < |llr|
      && PositionLlr(mode, llr, Values(mode, b), i) == llr[8 * SentAt(mode, b, i / 8) + i % 8]
  {}

  /** The 128 values of block b. */
  function BlockLlr(mode: Mode, llr: seq<real>, b: nat): (r: seq<real>)
    requires Coded(mode) && Values(mode, b + 1) <= |llr|
    ensures |r| == 128 && forall i | 0 <= i < 128 :: r[i] == PositionLlr(mode, llr, Values(mode, b), i)
  {
    seq(128, i requires 0 <= i < 128 => PositionLlr(mode, llr, Values(mode, b), i))
  }

  /** The input completed with zero bytes to n whole blocks. */
  function Padded(input: seq<Byte>, n: nat): (r: seq<Byte>)
    ensures |r| == 8 * n && forall i | 0 <= i < 8 * n :: r[i] == InputByte(input, i)
  {
    seq(8 * n, i requires 0 <= i < 8 * n => InputByte(input, i))
  }

  lemma PaddedStep(input: seq<Byte>, k: nat)
    ensures k == 0 ==> Padded(input, k) == []
    ensures k > 0 ==> Padded(input, k) == Padded(input, k - 1) + BlockInput(input, k - 1)
  {
    hide InputByte;
  }

  // ---------------------------------------------------------------- uncoded mode

  function HardBits(llr: seq<real>): (bits: seq<bool>)
    ensures |bits| == |llr| && forall i | 0 <= i < |llr| :: bits[i] == (llr[i] < 0.0)
  {
    seq(|llr|, i requires 0 <= i < |llr| => llr[i] < 0.0)
  }

  lemma WrittenNone(bytes: seq<Byte>, at: nat, bits: seq<bool>)
    requires at <= |bytes|
    ensures Written(bytes, at, bits, 0)
  {}

  /** Uncoded reception: the output is cleared, then one hard decision per value is ORed in. */
  method HardDecide(llr: seq<real>, output: array<Byte>)
    requires |llr| % 8 == 0 && |llr| / 8 <= output.Length
    modifies output
    ensures output[..|llr| / 8] == Pack(HardBits(llr))
  {
    ghost var bits := HardBits(llr);
    for index := 0 to |llr| / 8
      invariant forall i | 0 <= i < index :: output[i] == 0
    {
      output[index] := 0;
    }
    hide Pack, Written, HardBits;
    WrittenNone(output[..], 0, bits);
    var bit := 0;
    while bit < |llr|
      invariant 0 <= bit <= |llr| && Written(output[..], 0, bits, bit) && ClearFrom(output[..|llr| / 8], bit)
    {
      ByteInside(bit, |llr|);
      ghost var before := output[..|llr| / 8];
      assert before[bit / 8] == output[bit / 8];
      OrInto(output, 0, bit, llr[bit] < 0.0, bits);
      StaysClear(before, output[..|llr| / 8], bit);
      bit := bit + 1;
    }
    WrittenBits(output[..], 0, bits);
    assert output[..][0..|llr| / 8] == output[..|llr| / 8];
  }

  lemma ByteInside(bit: nat, n: nat)
    requires bit < n && n % 8 == 0
    ensures bit / 8 < n / 8 && (bit + 7) / 8 <= (bit + 8) / 8 <= n / 8
  {}
}
