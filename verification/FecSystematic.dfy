/**
 What goes on the air in the coded modes: the input itself and the parity that
 completes it, and what the uncoded mode gives back.
 */
module FecSystematic {
  import opened Bits
  import opened Ldpc
  import opened LdpcTable
  import opened Tc128
  import opened Tc128Code
  import opened Tc128Table
  import opened FecLayout
  import opened Fec
  import opened FecRoundTrip

  lemma WordIs(info: seq<Byte>, parity: seq<bool>)
    requires |info| == 8 && |parity| == 64 && SatisfiesRows(TcRows(), BitsOf(info) + parity)
    ensures Word(info) == BitsOf(info) + parity
  {
    hide TcRows, TcCode, TcMasks, BitsOf, MaskProducts, ParityBits, SatisfiesRows;
    TcCompletion(BitsOf(info), parity);
    TcParityBits(BitsOf(info));
  }

  /** The codeword bytes of a block: the information and this parity. */
  ghost predicate Completes(info: seq<Byte>, parity: seq<bool>) {
    |info| == 8 && |parity| == 64 && SatisfiesRows(TcRows(), BitsOf(info) + parity)
  }

  lemma CutBytes(bytes: seq<Byte>, info: seq<Byte>, parity: seq<bool>)
    requires |bytes| == 16 && |info| == 8 && |parity| == 64 && BitsOf(bytes) == BitsOf(info) + parity
    ensures bytes[..8] == info && BitsOf(bytes[8..]) == parity && BitsOf(bytes[12..]) == parity[32..]
  {
    BitsOfCut(bytes, 8);
    BitsOfCut(bytes, 12);
    hide BitsOf;
    assert BitsOf(bytes)[..64] == BitsOf(info);
    BytesExt(bytes[..8], info);
    assert BitsOf(bytes)[64..] == parity;
    assert BitsOf(bytes)[96..] == parity[32..];
  }

  lemma CodewordBytesAre(info: seq<Byte>, parity: seq<bool>)
    requires Completes(info, parity)
    ensures CodewordBytes(info)[..8] == info && BitsOf(CodewordBytes(info)[8..]) == parity
    ensures BitsOf(CodewordBytes(info)[12..]) == parity[32..]
  {
    hide TcRows, Word, CodewordBytes, SatisfiesRows, BitsOf;
    WordIs(info, parity);
    CodewordBits(info);
    CutBytes(CodewordBytes(info), info, parity);
  }

  lemma BitsOfCut(bytes: seq<Byte>, n: nat)
    requires n <= |bytes|
    ensures BitsOf(bytes[..n]) == BitsOf(bytes)[..8 * n] && BitsOf(bytes[n..]) == BitsOf(bytes)[8 * n..]
  {
    BitsOfConcat(bytes[..n], bytes[n..]);
    assert bytes == bytes[..n] + bytes[n..];
    hide BitsOf;
  }

  lemma SentBlockIs(mode: Mode, info: seq<Byte>, parity: seq<bool>)
    requires Coded(mode) && Completes(info, parity)
    ensures SentBlock(mode, info)[..8] == info && BitsOf(SentBlock(mode, info)[8..]) == if mode == Robust then parity else parity[32..]
  {
    CodewordBytesAre(info, parity);
    hide CodewordBytes, Completes, BitsOf;
    var bytes := CodewordBytes(info);
    assert SentBlock(mode, info)[..8] == bytes[..8];
    assert SentBlock(mode, info)[8..] == if mode == Robust then bytes[8..] else bytes[12..];
  }

  /** Block b of what is sent. */
  function BlockSent(mode: Mode, encoded: seq<Byte>, b: nat): (r: seq<Byte>)
    requires Coded(mode) && SentBytes(mode, b + 1) <= |encoded|
    ensures |r| == BlockBytes(mode)
  {
    encoded[SentBytes(mode, b)..SentBytes(mode, b + 1)]
  }

  /**
   For every block: first the eight information bytes, zero-filled past the input, then
   the one parity that satisfies all checks with them, whole in ROBUST and its second
   half in NORMAL.
   */
  lemma SentIsSystematic(mode: Mode, input: seq<Byte>, n: nat, b: nat, parity: seq<bool>)
    requires Coded(mode) && b < n && Completes(BlockInput(input, b), parity)
    ensures SentBytes(mode, b + 1) <= |Encoded(mode, input, n)|
    ensures var block := BlockSent(mode, Encoded(mode, input, n), b);
      && (forall i | 0 <= i < 8 :: block[i] == InputByte(input, 8 * b + i))
      && BitsOf(block[8..]) == if mode == Robust then parity else parity[32..]
  {
    hide Completes, Encoded, SentBlock, BitsOf, InputByte;
    EncodedBlock(mode, input, n, b);
    var info := BlockInput(input, b);
    SentBlockIs(mode, info, parity);
    forall i | 0 <= i < 8 ensures SentBlock(mode, info)[i] == info[i] {
      assert SentBlock(mode, info)[..8][i] == info[i];
    }
  }

  /** There is such a parity for every block. */
  lemma SomeParity(info: seq<Byte>) returns (parity: seq<bool>)
    requires |info| == 8
    ensures Completes(info, parity)
  {
    hide TcRows, TcMasks, BitsOf, MaskProducts, SatisfiesRows;
    parity := MaskProducts(TcMasks(), BitsOf(info));
    TcMasksSatisfy(BitsOf(info));
  }

  /** The uncoded mode returns what right-signed values say. */
  lemma UncodedRoundTrips(input: seq<Byte>, llr: seq<real>)
    requires RightSigns(llr, BitsOf(input))
    ensures Pack(HardBits(llr)) == input
  {
    assert HardBits(llr) == BitsOf(input);
    PackOfBits(input);
  }
}
