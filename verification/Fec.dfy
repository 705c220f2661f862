/**
 The forward error correction layer of src/fec/fec.c: input cut into eight-byte
 blocks, each sent as a TC(128,64) codeword (ROBUST) or as that codeword without
 parity bits 64..95 (NORMAL), and decoded block by block, weakest block first.
 */
module Fec {
  import opened Bits
  import opened Ldpc
  import opened FecLayout
  import opened Tc128Code

  function Word(info: seq<Byte>): (r: seq<bool>)
    requires |info| == 8
    ensures |r| == 128
  {
    hide TcCode;
    SystematicWord(TcCode(), BitsOf(info))
  }

  function CodewordBytes(info: seq<Byte>): (r: seq<Byte>)
    requires |info| == 8
    ensures |r| == 16
  {
    hide Word, PackByte;
    Pack(Word(info))
  }

  /** A codeword as it is sent: whole, or without bytes 8 to 11. */
  function Shortened(mode: Mode, codeword: seq<Byte>): (r: seq<Byte>)
    requires Coded(mode) && |codeword| == 16
    ensures |r| == BlockBytes(mode)
  {
    if mode == Robust then codeword else codeword[..8] + codeword[12..]
  }

  /** What goes on the air for one block. */
  function SentBlock(mode: Mode, info: seq<Byte>): (r: seq<Byte>)
    requires Coded(mode) && |info| == 8
    ensures |r| == BlockBytes(mode)
  {
    Shortened(mode, CodewordBytes(info))
  }

  function Encoded(mode: Mode, input: seq<Byte>, n: nat): (r: seq<Byte>)
    requires Coded(mode)
    ensures |r| == SentBytes(mode, n)
  {
    hide SentBlock;
    if n == 0 then [] else Encoded(mode, input, n - 1) + SentBlock(mode, BlockInput(input, n - 1))
  }

  method EncodeTc128(information: seq<Byte>, codeword: array<Byte>, at: nat)
    requires |information| == 8 && at + 16 <= codeword.Length
    modifies codeword
    ensures codeword[at..at + 16] == CodewordBytes(information)
    ensures forall i | 0 <= i < codeword.Length && !(at <= i < at + 16) :: codeword[i] == old(codeword[i])
  {
    hide TcCode, Pack, SystematicWord, BitsOf;
    var ok := EncodeSystematic(TcCode(), information, codeword, at, 16);
  }

  method SendBlock(mode: Mode, information: seq<Byte>, encoded: array<Byte>, at: nat)
    requires Coded(mode) && |information| == 8 && at + BlockBytes(mode) <= encoded.Length
    modifies encoded
    ensures encoded[at..at + BlockBytes(mode)] == SentBlock(mode, information)
    ensures forall i | 0 <= i < encoded.Length && !(at <= i < at + BlockBytes(mode)) :: encoded[i] == old(encoded[i])
  {
    hide CodewordBytes;
    if mode == Robust {
      EncodeTc128(information, encoded, at);
    } else {
      var codeword := new Byte[16];
      EncodeTc128(information, codeword, 0);
      CopyInto(codeword[..8], encoded, at);
      CopyInto(codeword[12..16], encoded, at + 8);
      assert codeword[0..16] == codeword[..];
    }
  }

  /**
   `rtnc_fec_encode`.  The announced size is the block product modulo the word size
   and only the blocks that fit it are written; `AllBlocksSent` says when that is all.
   */
  method FecEncode(mode: Mode, input: seq<Byte>, encoded: array<Byte>, capacity: nat) returns (status: Status, encodedBytes: nat)
    requires capacity <= encoded.Length
    modifies encoded
    ensures mode == Fast <==> status == UnsupportedMode
    ensures status == InvalidBlock <==> Coded(mode) && EncodedSize(mode, |input|) == 0
    ensures status == BufferTooSmall <==> mode != Fast && status != InvalidBlock && capacity < EncodedSize(mode, |input|)
    ensures status == Ok ==> encodedBytes == EncodedSize(mode, |input|) <= capacity
    ensures status == Ok && mode == Uncoded ==> encoded[..encodedBytes] == input
    ensures status == Ok && Coded(mode) ==>
      var blocks := BlocksSent(mode, |input|);
      SentBytes(mode, blocks) <= encodedBytes && encoded[..SentBytes(mode, blocks)] == Encoded(mode, input, blocks)
    ensures status != DecodeFailure
  {
    hide Encoded, EncodedSize;
    encodedBytes := 0;
    if Coded(mode) {
      var required := EncodedSize(mode, |input|);
      if required == 0 {
        return InvalidBlock, 0;
      }
      if capacity < required {
        return BufferTooSmall, 0;
      }
      NotEmpty(mode, |input|);
      AllBlocksSent(mode, |input|);
      EncodeBlocks(mode, input, BlocksSent(mode, |input|), encoded);
      return Ok, required;
    }
    if mode == Fast {
      return UnsupportedMode, 0;
    }
    NotCoded(|input|);
    if capacity < |input| {
      return BufferTooSmall, 0;
    }
    CopyInto(input, encoded, 0);
    assert encoded[..|input|] == input;
    return Ok, |input|;
  }

  lemma NotEmpty(mode: Mode, inputBytes: nat)
    requires Coded(mode) && EncodedSize(mode, inputBytes) > 0
    ensures 0 < inputBytes <= SIZE_MAX - 7
  {}

  lemma NotCoded(inputBytes: nat)
    ensures EncodedSize(Uncoded, inputBytes) == inputBytes
  {}

  method EncodeBlocks(mode: Mode, input: seq<Byte>, blocks: nat, encoded: array<Byte>)
    requires Coded(mode) && blocks <= BlockCount(|input|) && SentBytes(mode, blocks) <= encoded.Length
    modifies encoded
    ensures encoded[..SentBytes(mode, blocks)] == Encoded(mode, input, blocks)
  {
    hide SentBlock, BlockInput;
    var block := 0;
    while block < blocks
      invariant 0 <= block <= blocks
      invariant encoded[..SentBytes(mode, block)] == Encoded(mode, input, block)
    {
      ghost var before := encoded[..SentBytes(mode, block)];
      var information := LoadBlock(input, block);
      SendBlock(mode, information, encoded, SentBytes(mode, block));
      assert encoded[..SentBytes(mode, block)] == before;
      assert encoded[..SentBytes(mode, block + 1)] == before + encoded[SentBytes(mode, block)..SentBytes(mode, block + 1)];
      block := block + 1;
    }
  }
}
