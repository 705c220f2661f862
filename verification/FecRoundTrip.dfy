/**
 End to end through src/fec/fec.c: what `rtnc_fec_decode` returns, and that it
 recovers what `rtnc_fec_encode` sent.
 */
module FecRoundTrip {
  import opened Signs
  import opened Bits
  import opened Ldpc
  import opened LdpcTable
  import opened MinSum
  import opened MinSumTheory
  import opened MinSumRecovery
  import opened BlockOrder
  import opened Tc128
  import opened Tc128Code
  import opened Tc128Table
  import opened Tc128Decode
  import opened FecLayout
  import opened Fec
  import opened FecDecode

  predicate WholeBlocks(mode: Mode, count: nat)
    requires Coded(mode)
  {
    count != 0 && count % Width(mode) == 0 && count / Width(mode) <= 20
  }

  /** What the coded modes report. */
  ghost predicate CodedResult(mode: Mode, llr: seq<real>, capacity: nat, output: seq<Byte>, status: Status, outputBytes: nat, stats: Stats)
    requires Coded(mode)
  {
    var n := |llr| / Width(mode);
    if !WholeBlocks(mode, |llr|) then status == InvalidBlock
    else if capacity < 8 * n then status == BufferTooSmall
    else if !AllConverge(mode, llr, n) then
      && status == DecodeFailure && outputBytes == 0 && !stats.converged && stats.syndromeWeight > 0
      && Stopped(mode, llr, n, stats.iterations, stats.syndromeWeight)
    else
      && status == Ok && outputBytes == 8 * n <= |output| && output[..outputBytes] == Output(mode, llr, n)
      && stats.converged && stats.iterations == SumTo(Iterations(mode, llr, n), n) && stats.syndromeWeight == 0
  }

  /** What the uncoded mode reports. */
  ghost predicate UncodedResult(llr: seq<real>, capacity: nat, output: seq<Byte>, status: Status, outputBytes: nat, stats: Stats) {
    if |llr| % 8 != 0 then status == InvalidBlock
    else if capacity < |llr| / 8 then status == BufferTooSmall
    else
      && status == Ok && outputBytes == |llr| / 8 <= |output| && output[..outputBytes] == Pack(HardBits(llr))
      && stats == Stats(true, 0, 0)
  }

  /** `rtnc_fec_decode` on a valid argument list. */
  method FecDecodeAll(mode: Mode, llr: seq<real>, output: array<Byte>, capacity: nat)
    returns (status: Status, outputBytes: nat, stats: Stats)
    requires capacity <= output.Length
    modifies output
    ensures mode == Fast ==> status == UnsupportedMode
    ensures Coded(mode) ==> CodedResult(mode, llr, capacity, output[..], status, outputBytes, stats)
    ensures mode == Uncoded ==> UncodedResult(llr, capacity, output[..], status, outputBytes, stats)
  {
    hide CodedResult, UncodedResult;
    if Coded(mode) {
      status, outputBytes, stats := DecodeCoded(mode, llr, output, capacity);
    } else if mode == Fast {
      return UnsupportedMode, 0, Stats(false, 0, 0);
    } else {
      status, outputBytes, stats := DecodeUncoded(llr, output, capacity);
    }
  }

  method DecodeCoded(mode: Mode, llr: seq<real>, output: array<Byte>, capacity: nat)
    returns (status: Status, outputBytes: nat, stats: Stats)
    requires Coded(mode) && capacity <= output.Length
    modifies output
    ensures CodedResult(mode, llr, capacity, output[..], status, outputBytes, stats)
  {
    hide AllConverge, Output, Iterations, SumTo, Stopped;
    var n := |llr| / Width(mode);
    if |llr| == 0 || |llr| % Width(mode) != 0 || n > MAX_BLOCKS {
      return InvalidBlock, 0, Stats(false, 0, 0);
    }
    if capacity < 8 * n {
      return BufferTooSmall, 0, Stats(false, 0, 0);
    }
    assert Values(mode, n) == |llr|;
    var ok, iterations, syndrome := DecodeBlocks(mode, llr, n, output);
    if !ok {
      return DecodeFailure, 0, Stats(false, iterations, syndrome);
    }
    assert output[..][..8 * n] == output[..8 * n];
    return Ok, 8 * n, Stats(true, iterations, syndrome);
  }

  method DecodeUncoded(llr: seq<real>, output: array<Byte>, capacity: nat)
    returns (status: Status, outputBytes: nat, stats: Stats)
    requires capacity <= output.Length
    modifies output
    ensures UncodedResult(llr, capacity, output[..], status, outputBytes, stats)
  {
    hide Pack, HardBits;
    if |llr| % 8 != 0 {
      return InvalidBlock, 0, Stats(false, 0, 0);
    }
    if capacity < |llr| / 8 {
      return BufferTooSmall, 0, Stats(false, 0, 0);
    }
    HardDecide(llr, output);
    assert output[..][..|llr| / 8] == output[..|llr| / 8];
    return Ok, |llr| / 8, Stats(true, 0, 0);
  }

  // ---------------------------------------------------------------- round trip

  /** Every received value leans strictly towards the bit that was sent. */
  ghost predicate RightSigns(llr: seq<real>, bits: seq<bool>) {
    |llr| == |bits| && forall i | 0 <= i < |llr| :: Signed(llr[i], bits[i]) > 0.0
  }

  lemma EncodedStep(mode: Mode, input: seq<Byte>, n: nat)
    requires Coded(mode) && n > 0
    ensures Encoded(mode, input, n) == Encoded(mode, input, n - 1) + SentBlock(mode, BlockInput(input, n - 1))
  {
    hide SentBlock, BlockInput;
  }

  lemma {:induction false} EncodedBlock(mode: Mode, input: seq<Byte>, n: nat, b: nat)
    requires Coded(mode) && b < n
    ensures SentBytes(mode, b + 1) <= |Encoded(mode, input, n)|
    ensures Encoded(mode, input, n)[SentBytes(mode, b)..SentBytes(mode, b + 1)] == SentBlock(mode, BlockInput(input, b))
  {
    hide SentBlock, BlockInput, Encoded;
    EncodedStep(mode, input, n);
    if b < n - 1 {
      EncodedBlock(mode, input, n - 1, b);
    }
  }

  /** Where codeword byte q travels in the sent block. */
  lemma SentByte(mode: Mode, info: seq<Byte>, q: nat)
    requires Coded(mode) && |info| == 8 && q < 16 && (mode == Robust || q < 8 || 12 <= q)
    ensures var at := if mode == Robust || q < 8 then q else q - 4;
      at < BlockBytes(mode) && SentBlock(mode, info)[at] == CodewordBytes(info)[q]
  {
    hide CodewordBytes;
  }

  lemma CodewordBit(info: seq<Byte>, q: nat, t: nat)
    requires |info| == 8 && q < 16 && t < 8
    ensures Bit(CodewordBytes(info)[q], t) == Word(info)[8 * q + t]
  {
    CodewordBits(info);
    hide Word, CodewordBytes, Bit, BitsOf;
    BitsAt(CodewordBytes(info), q, t);
  }

  lemma CodewordBits(info: seq<Byte>)
    requires |info| == 8
    ensures BitsOf(CodewordBytes(info)) == Word(info)
  {
    hide Word;
    PackBits(Word(info));
  }

  lemma WordIsCodeword(info: seq<Byte>)
    requires |info| == 8
    ensures TcCode().WellFormed() && Codeword(TcCode(), Word(info))
  {
    hide TcCode, TcRows, ParityBits, Lists, Codeword;
    TcSystematic();
    ShippedTable();
    var u := BitsOf(info);
    assert Codeword(TcCode(), u + ParityBits(TcCode(), u));
  }

  /** The received value that carries codeword position 8 * q + t has the right sign. */
  lemma ByteSign(mode: Mode, input: seq<Byte>, n: nat, llr: seq<real>, b: nat, q: nat, t: nat)
    requires Coded(mode) && b < n && q < 16 && t < 8 && (mode == Robust || q < 8 || 12 <= q)
    requires RightSigns(llr, BitsOf(Encoded(mode, input, n)))
    ensures 8 * SentAt(mode, b, q) + t < |llr|
    ensures Signed(llr[8 * SentAt(mode, b, q) + t], Word(BlockInput(input, b))[8 * q + t]) > 0.0
  {
    hide Word, BlockInput, SentBlock, Encoded, Bit, BitsOf, CodewordBytes, Signed;
    var info, all := BlockInput(input, b), Encoded(mode, input, n);
    var inside := if mode == Robust || q < 8 then q else q - 4;
    EncodedBlock(mode, input, n, b);
    SentByte(mode, info, q);
    assert all[SentBytes(mode, b) + inside] == SentBlock(mode, info)[inside];
    BitsAt(all, SentBytes(mode, b) + inside, t);
    CodewordBit(info, q, t);
  }

  lemma SentSign(mode: Mode, input: seq<Byte>, n: nat, llr: seq<real>, b: nat, i: nat)
    requires Coded(mode) && b < n && i < 128 && RightSigns(llr, BitsOf(Encoded(mode, input, n)))
    requires Values(mode, b + 1) <= |llr| && (mode == Robust || !Punctured(i))
    ensures Signed(PositionLlr(mode, llr, Values(mode, b), i), Word(BlockInput(input, b))[i]) > 0.0
  {
    hide Word, BlockInput, BitsOf, Signed, Encoded, RightSigns, SentAt, PositionLlr;
    PositionValue(mode, llr, b, i);
    var q, t := i / 8, i % 8;
    assert i == 8 * q + t;
    ByteSign(mode, input, n, llr, b, q, t);
  }

  lemma PositionSign(mode: Mode, input: seq<Byte>, n: nat, llr: seq<real>, b: nat, i: nat)
    requires Coded(mode) && b < n && i < 128 && RightSigns(llr, BitsOf(Encoded(mode, input, n)))
    requires Values(mode, b + 1) <= |llr|
    ensures mode == Robust || !Punctured(i) ==>
      Signed(PositionLlr(mode, llr, Values(mode, b), i), Word(BlockInput(input, b))[i]) > 0.0
    ensures mode == Normal && Punctured(i) ==> PositionLlr(mode, llr, Values(mode, b), i) == 0.0
  {
    hide Word, BlockInput, BitsOf, Signed, Encoded, RightSigns, SentAt, PositionLlr, Punctured;
    if mode == Robust || !Punctured(i) {
      SentSign(mode, input, n, llr, b, i);
    } else {
      PositionValue(mode, llr, b, i);
    }
  }

  lemma BlocksReceived(mode: Mode, input: seq<Byte>, n: nat, llr: seq<real>, b: nat)
    requires Coded(mode) && b < n && RightSigns(llr, BitsOf(Encoded(mode, input, n)))
    ensures Values(mode, b + 1) <= Values(mode, n) == |llr|
  {
    hide SentBlock, BlockInput, BitsOf;
  }

  lemma BlockAgrees(mode: Mode, input: seq<Byte>, n: nat, llr: seq<real>, b: nat)
    requires Coded(mode) && b < n && RightSigns(llr, BitsOf(Encoded(mode, input, n)))
    ensures Values(mode, b + 1) <= |llr|
    ensures Agrees(TcCode(), Word(BlockInput(input, b)), BlockLlr(mode, llr, b))
    ensures forall i | 0 <= i < 128 && !Punctured(i) :: BlockLlr(mode, llr, b)[i] != 0.0
  {
    hide Word, BlockInput, TcCode, Encoded, RightSigns, PositionLlr, BitsOf;
    BlocksReceived(mode, input, n, llr, b);
    forall i | 0 <= i < 128
      ensures Signed(BlockLlr(mode, llr, b)[i], Word(BlockInput(input, b))[i]) >= 0.0
      ensures !Punctured(i) ==> BlockLlr(mode, llr, b)[i] != 0.0
    {
      PositionSign(mode, input, n, llr, b, i);
    }
  }

  /** One block: sign-correct values give back the codeword in one iteration, erased parity bits included. */
  lemma BlockRoundTrip(mode: Mode, input: seq<Byte>, n: nat, llr: seq<real>, b: nat)
    requires Coded(mode) && b < n && RightSigns(llr, BitsOf(Encoded(mode, input, n)))
    ensures Values(mode, b + 1) <= |llr|
    ensures BlockRun(mode, llr, b) == Outcome(Word(BlockInput(input, b)), true, 1, 0)
    ensures BlockOutput(mode, llr, b) == BlockInput(input, b)
  {
    hide Word, BlockInput, TcCode, Encoded, Decode, Codeword, RightSigns, BlockLlr, Agrees, BitsOf, InformationBytes;
    var info := BlockInput(input, b);
    BlockAgrees(mode, input, n, llr, b);
    WordIsCodeword(info);
    ShippedTable();
    hide TcTable, Code.WellFormed;
    TcErasuresFilled(TcCode(), Word(info), BlockLlr(mode, llr, b), NORMALIZATION, MAX_ITERATIONS);
    InformationHalf(info);
  }

  lemma InformationHalf(info: seq<Byte>)
    requires |info| == 8
    ensures InformationBytes(Word(info)) == info
  {
    hide TcCode, Pack, BitsOf;
    assert Word(info)[..64] == BitsOf(info);
    PackOfBits(info);
  }

  lemma {:induction false} OutputIsPadded(mode: Mode, input: seq<Byte>, n: nat, llr: seq<real>, k: nat)
    requires Coded(mode) && k <= n && RightSigns(llr, BitsOf(Encoded(mode, input, n))) && Values(mode, k) <= |llr|
    ensures Output(mode, llr, k) == Padded(input, k)
  {
    hide BlockInput, Encoded, RightSigns, BlockOutput, Padded, BitsOf, Output, BlockRun, Word;
    if k > 0 {
      OutputIsPadded(mode, input, n, llr, k - 1);
      BlockRoundTrip(mode, input, n, llr, k - 1);
    }
    OutputStep(mode, llr, k);
    PaddedStep(input, k);
  }

  lemma {:induction false} OneIterationEach(mode: Mode, input: seq<Byte>, n: nat, llr: seq<real>, k: nat)
    requires Coded(mode) && k <= n && RightSigns(llr, BitsOf(Encoded(mode, input, n))) && Values(mode, n) <= |llr|
    ensures SumTo(Iterations(mode, llr, n), k) == k
  {
    hide BlockInput, Encoded, RightSigns, BlockRun, BitsOf, Word;
    if k > 0 {
      OneIterationEach(mode, input, n, llr, k - 1);
      BlockRoundTrip(mode, input, n, llr, k - 1);
    }
  }

  lemma OutputStep(mode: Mode, llr: seq<real>, k: nat)
    requires Coded(mode) && Values(mode, k) <= |llr|
    ensures k == 0 ==> Output(mode, llr, k) == []
    ensures k > 0 ==> Output(mode, llr, k) == Output(mode, llr, k - 1) + BlockOutput(mode, llr, k - 1)
  {
    hide BlockOutput;
  }

  /**
   Both coded modes return every input, zero-padded to whole blocks, with exactly
   one decoder iteration per block.
   */
  lemma FecRoundTrips(mode: Mode, input: seq<Byte>, llr: seq<real>)
    requires Coded(mode) && input != [] && RightSigns(llr, BitsOf(Encoded(mode, input, BlockCount(|input|))))
    ensures var n := BlockCount(|input|);
      && |llr| == Values(mode, n) && AllConverge(mode, llr, n)
      && Output(mode, llr, n) == Padded(input, n)
      && SumTo(Iterations(mode, llr, n), n) == n
  {
    hide Encoded, BlockRun, BlockOutput, Output, Iterations, RightSigns, BitsOf, Word, BlockInput, Padded, SumTo;
    var n := BlockCount(|input|);
    BlocksReceived(mode, input, n, llr, 0);
    OutputIsPadded(mode, input, n, llr, n);
    OneIterationEach(mode, input, n, llr, n);
    forall b | 0 <= b < n ensures BlockConverges(mode, llr, b) {
      BlockRoundTrip(mode, input, n, llr, b);
    }
  }

  /**
   A block is decoded alone: values that are weak or wrong in a set of positions
   no two of which share a check do not disturb it, whatever the other blocks hold.
   */
  lemma BlockCorrectsErrors(mode: Mode, llr: seq<real>, b: nat, info: seq<Byte>, weak: set<nat>, low: real, high: real)
    requires Coded(mode) && Values(mode, b + 1) <= |llr| && |info| == 8 && TcCode().WellFormed()
    requires low >= 0.0 && 3.75 * low < high
    requires ChannelMargins(Word(info), BlockLlr(mode, llr, b), weak, low, high) && NoSharedCheck(TcCode(), weak)
    ensures BlockRun(mode, llr, b) == Outcome(Word(info), true, 1, 0) && BlockOutput(mode, llr, b) == info
  {
    hide TcCode, Word, Decode, Codeword, ChannelMargins, NoSharedCheck, BlockLlr;
    WordIsCodeword(info);
    ShippedTable();
    TcErrorsCorrected(TcCode(), Word(info), BlockLlr(mode, llr, b), weak, MAX_ITERATIONS, low, high);
    InformationHalf(info);
  }
}
