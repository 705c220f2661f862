/**
 `rtnc_fec_decode` of src/fec/fec.c: blocks are decoded in order of confidence,
 yet the result is a function of the blocks alone.
 */
module FecDecode {
  import opened Bits
  import opened Ldpc
  import opened MinSum
  import opened BlockOrder
  import opened Tc128Code
  import opened Tc128Decode
  import opened FecLayout

  function BlockRun(mode: Mode, llr: seq<real>, b: nat): (r: Outcome)
    requires Coded(mode) && Values(mode, b + 1) <= |llr|
    ensures |r.bits| == 128 && (r.converged <==> r.syndromeWeight == 0)
  {
    ShippedTable();
    Decode(TcCode(), BlockLlr(mode, llr, b), NORMALIZATION, MAX_ITERATIONS)
  }

  /** The information half of the decided bits, eight to a byte. */
  function InformationBytes(bits: seq<bool>): (r: seq<Byte>)
    requires |bits| == 128
    ensures |r| == 8
  {
    Pack(bits[..64])
  }

  function BlockOutput(mode: Mode, llr: seq<real>, b: nat): (r: seq<Byte>)
    requires Coded(mode) && Values(mode, b + 1) <= |llr|
    ensures |r| == 8
  {
    InformationBytes(BlockRun(mode, llr, b).bits)
  }

  /** The first n blocks, decoded, in block order. */
  function Output(mode: Mode, llr: seq<real>, n: nat): seq<Byte>
    requires Coded(mode) && Values(mode, n) <= |llr|
  {
    if n == 0 then [] else Output(mode, llr, n - 1) + BlockOutput(mode, llr, n - 1)
  }

  function Iterations(mode: Mode, llr: seq<real>, n: nat): (r: seq<nat>)
    requires Coded(mode) && Values(mode, n) <= |llr|
    ensures |r| == n
  {
    seq(n, b requires 0 <= b < n => (BlockFits(mode, b, n); BlockRun(mode, llr, b).iterations))
  }

  /** Unsatisfied checks each block is left with. */
  function Syndromes(mode: Mode, llr: seq<real>, n: nat): (r: seq<nat>)
    requires Coded(mode) && Values(mode, n) <= |llr|
    ensures |r| == n
  {
    seq(n, b requires 0 <= b < n => (BlockFits(mode, b, n); BlockRun(mode, llr, b).syndromeWeight))
  }

  lemma BlockFits(mode: Mode, b: nat, n: nat)
    requires Coded(mode) && b < n
    ensures Values(mode, b + 1) <= Values(mode, n) && Values(mode, n) == n * Width(mode)
  {}

  ghost predicate AllConverge(mode: Mode, llr: seq<real>, n: nat)
    requires Coded(mode) && Values(mode, n) <= |llr|
  {
    forall b | 0 <= b < n :: BlockConverges(mode, llr, b)
  }

  ghost predicate BlockConverges(mode: Mode, llr: seq<real>, b: nat)
    requires Coded(mode)
  {
    Values(mode, b + 1) <= |llr| && BlockRun(mode, llr, b).converged
  }

  // ---------------------------------------------------------------- one block

  method LoadLlr(mode: Mode, llr: seq<real>, b: nat) returns (block: seq<real>)
    requires Coded(mode) && Values(mode, b + 1) <= |llr|
    ensures block == BlockLlr(mode, llr, b)
  {
    if mode == Robust {
      block := llr[128 * b..128 * b + 128];
    } else {
      block := Expand(llr, 96 * b);
    }
  }

  /** NORMAL's 96 values spread over the codeword positions they were sent from. */
  method Expand(llr: seq<real>, base: nat) returns (block: seq<real>)
    requires base + 96 <= |llr|
    ensures |block| == 128 && forall i | 0 <= i < 128 :: block[i] == PositionLlr(Normal, llr, base, i)
  {
    var expanded := new real[128](i => 0.0);
    for bit := 0 to 64
      invariant forall i | 0 <= i < 128 :: expanded[i] == if i < bit then llr[base + i] else 0.0
    {
      expanded[bit] := llr[base + bit];
    }
    for bit := 0 to 32
      invariant forall i | 0 <= i < 96 + bit :: expanded[i] == PositionLlr(Normal, llr, base, i)
    {
      expanded[96 + bit] := llr[base + 64 + bit];
    }
    block := expanded[..];
  }

  method StoreInformation(bits: seq<bool>, output: array<Byte>, at: nat)
    requires |bits| == 128 && at + 8 <= output.Length
    modifies output
    ensures output[at..at + 8] == InformationBytes(bits)
    ensures forall i | 0 <= i < output.Length && !(at <= i < at + 8) :: output[i] == old(output[i])
  {
    hide Pack, Written;
    ghost var word := bits[..64];
    var bit := 0;
    WrittenNone(output[..], at, word);
    while bit < 64
      invariant 0 <= bit <= 64 && Written(output[..], at, word, bit)
      invariant forall i | 0 <= i < output.Length && !(at <= i < at + 8) :: output[i] == old(output[i])
    {
      PutBit(output, at, bit, bits[bit], word);
      bit := bit + 1;
    }
    WrittenBits(output[..], at, word);
    assert output[..][at..at + 8] == output[at..at + 8];
  }

  method DecodeBlock(mode: Mode, llr: seq<real>, b: nat, output: array<Byte>) returns (stats: Stats)
    requires Coded(mode) && Values(mode, b + 1) <= |llr| && 8 * b + 8 <= output.Length
    modifies output
    ensures output[8 * b..8 * b + 8] == BlockOutput(mode, llr, b)
    ensures forall i | 0 <= i < output.Length && !(8 * b <= i < 8 * b + 8) :: output[i] == old(output[i])
    ensures var run := BlockRun(mode, llr, b); stats == Stats(run.converged, run.iterations, run.syndromeWeight)
  {
    hide BlockRun, InformationBytes;
    var decoded;
    decoded, stats := RunBlock(mode, llr, b);
    StoreInformation(decoded, output, 8 * b);
  }

  method RunBlock(mode: Mode, llr: seq<real>, b: nat) returns (bits: seq<bool>, stats: Stats)
    requires Coded(mode) && Values(mode, b + 1) <= |llr|
    ensures var run := BlockRun(mode, llr, b);
      bits == run.bits && stats == Stats(run.converged, run.iterations, run.syndromeWeight)
  {
    hide TcCode, Decode, BlockLlr;
    var block := LoadLlr(mode, llr, b);
    ShippedTable();
    hide Code.WellFormed, ListsTc;
    bits, stats := RunCode(TcCode(), block);
  }

  method RunCode(code: Code, block: seq<real>) returns (bits: seq<bool>, stats: Stats)
    requires code.WellFormed() && code.variableCount == |block| == 128 && |code.edges| <= 512
    ensures var run := Decode(code, block, 0.75, 30);
      bits == run.bits && stats == Stats(run.converged, run.iterations, run.syndromeWeight)
  {
    hide Decode, Code.WellFormed;
    var variableToCheck, checkToVariable, posterior := new real[512], new real[512], new real[128];
    var decoded := new bool[128];
    var ok;
    ok, stats := DecodeNormalizedMinSum(code, block, NORMALIZATION, MAX_ITERATIONS, decoded,
                                        variableToCheck, checkToVariable, posterior);
    bits := decoded[..];
    assert decoded[..128] == decoded[..];
  }

  // ---------------------------------------------------------------- all blocks

  ghost predicate BlockStored(mode: Mode, llr: seq<real>, b: nat, output: seq<Byte>)
    requires Coded(mode)
  {
    Values(mode, b + 1) <= |llr| && 8 * b + 8 <= |output| && output[8 * b..8 * b + 8] == BlockOutput(mode, llr, b)
  }

  lemma {:induction false} StoredOutput(mode: Mode, llr: seq<real>, n: nat, output: seq<Byte>)
    requires Coded(mode) && Values(mode, n) <= |llr| && 8 * n <= |output|
    requires forall b | 0 <= b < n :: BlockStored(mode, llr, b, output)
    ensures output[..8 * n] == Output(mode, llr, n)
  {
    hide BlockOutput;
    if n > 0 {
      StoredOutput(mode, llr, n - 1, output);
      assert BlockStored(mode, llr, n - 1, output);
      assert output[..8 * n] == output[..8 * (n - 1)] + output[8 * (n - 1)..8 * n];
    }
  }

  /** The first k visited blocks converged and their bytes stand at their place. */
  ghost predicate Visited(mode: Mode, llr: seq<real>, visiting: seq<nat>, k: nat, output: seq<Byte>)
    requires Coded(mode) && k <= |visiting|
  {
    forall i | 0 <= i < k :: BlockConverges(mode, llr, visiting[i]) && BlockStored(mode, llr, visiting[i], output)
  }

  lemma StoredElsewhere(mode: Mode, llr: seq<real>, b: nat, c: nat, before: seq<Byte>, after: seq<Byte>)
    requires Coded(mode) && b != c && |before| == |after| && BlockStored(mode, llr, b, before)
    requires forall i | 0 <= i < |before| && !(8 * c <= i < 8 * c + 8) :: after[i] == before[i]
    ensures BlockStored(mode, llr, b, after)
  {
    hide BlockOutput;
    assert after[8 * b..8 * b + 8] == before[8 * b..8 * b + 8];
  }

  lemma VisitStep(mode: Mode, llr: seq<real>, visiting: seq<nat>, k: nat, before: seq<Byte>, after: seq<Byte>)
    requires Coded(mode) && k < |visiting| && |before| == |after| && Visited(mode, llr, visiting, k, before)
    requires BlockConverges(mode, llr, visiting[k]) && BlockStored(mode, llr, visiting[k], after)
    requires forall i | 0 <= i < |before| && !(8 * visiting[k] <= i < 8 * visiting[k] + 8) :: after[i] == before[i]
    ensures Visited(mode, llr, visiting, k + 1, after)
  {
    hide BlockStored, BlockConverges;
    forall i | 0 <= i < k ensures BlockStored(mode, llr, visiting[i], after) {
      if visiting[i] != visiting[k] {
        StoredElsewhere(mode, llr, visiting[i], visiting[k], before, after);
      }
    }
  }

  lemma AllVisited(mode: Mode, llr: seq<real>, n: nat, key: seq<real>, output: seq<Byte>)
    requires Coded(mode) && Values(mode, n) <= |llr| && 8 * n <= |output| && n == |key|
    requires Visited(mode, llr, Order(key, n), n, output)
    ensures AllConverge(mode, llr, n) && output[..8 * n] == Output(mode, llr, n)
    ensures Total(Iterations(mode, llr, n), Order(key, n)) == SumTo(Iterations(mode, llr, n), n)
  {
    hide BlockOutput, Order, BlockConverges, BlockStored, Iterations, Output, SumTo, Total;
    OrderCovers(key, n);
    forall b | 0 <= b < n ensures BlockConverges(mode, llr, b) && BlockStored(mode, llr, b, output) {
      assert b in Order(key, n);
      var i :| 0 <= i < |Order(key, n)| && Order(key, n)[i] == b;
    }
    StoredOutput(mode, llr, n, output);
    OrderTotal(key, Iterations(mode, llr, n), n);
  }

  method VisitBlock(mode: Mode, llr: seq<real>, n: nat, ghost visiting: seq<nat>, ghost k: nat, block: nat, output: array<Byte>)
    returns (stats: Stats)
    requires Coded(mode) && Values(mode, n) == |llr| && 8 * n <= output.Length
    requires k < |visiting| && visiting[k] == block < n && Visited(mode, llr, visiting, k, output[..])
    modifies output
    ensures stats.converged == BlockConverges(mode, llr, block) && stats.iterations == Iterations(mode, llr, n)[block]
    ensures stats.converged <==> stats.syndromeWeight == 0
    ensures stats.syndromeWeight == Syndromes(mode, llr, n)[block]
    ensures stats.converged ==> Visited(mode, llr, visiting, k + 1, output[..])
    ensures forall i | 8 * n <= i < output.Length :: output[i] == old(output[i])
  {
    hide BlockRun, BlockOutput, Visited;
    BlockFits(mode, block, n);
    ghost var before := output[..];
    stats := DecodeBlock(mode, llr, block, output);
    if stats.converged {
      assert output[..][8 * block..8 * block + 8] == output[8 * block..8 * block + 8];
      VisitStep(mode, llr, visiting, k, before, output[..]);
    }
  }

  /** Block indices in the order of visit. */
  function Visiting(mode: Mode, llr: seq<real>, n: nat): (r: seq<nat>)
    requires Coded(mode) && Values(mode, n) <= |llr|
    ensures |r| == n && forall i | 0 <= i < n :: r[i] < n
  {
    assert n * Width(mode) == Values(mode, n);
    Order(Keys(llr, n, Width(mode)), n)
  }

  /** The k-th block visited is the first that leaves checks unsatisfied; it and the blocks before it have been run. */
  ghost predicate StopsAt(visiting: seq<nat>, iterations: seq<nat>, syndromes: seq<nat>, k: nat, total: nat, syndrome: nat)
    requires |iterations| == |syndromes| && forall i | 0 <= i < |visiting| :: visiting[i] < |iterations|
  {
    && k < |visiting| && (forall i | 0 <= i < k :: syndromes[visiting[i]] == 0)
    && 0 < syndrome == syndromes[visiting[k]] && total == Total(iterations, visiting[..k]) + iterations[visiting[k]]
  }

  /** Decoding stops at some block. */
  ghost predicate Stopped(mode: Mode, llr: seq<real>, n: nat, total: nat, syndrome: nat)
    requires Coded(mode) && Values(mode, n) <= |llr|
  {
    exists k: nat :: StopsAt(Visiting(mode, llr, n), Iterations(mode, llr, n), Syndromes(mode, llr, n), k, total, syndrome)
  }

  method DecodeBlocks(mode: Mode, llr: seq<real>, n: nat, output: array<Byte>) returns (ok: bool, iterations: nat, syndrome: nat)
    requires Coded(mode) && Values(mode, n) == |llr| && 8 * n <= output.Length
    modifies output
    ensures ok <==> AllConverge(mode, llr, n)
    ensures ok ==> output[..8 * n] == Output(mode, llr, n) && iterations == SumTo(Iterations(mode, llr, n), n)
    ensures !ok ==> Stopped(mode, llr, n, iterations, syndrome)
    ensures ok <==> syndrome == 0
    ensures forall i | 8 * n <= i < output.Length :: output[i] == old(output[i])
  {
    hide Keys, Order, Visited, Output, Iterations, BlockConverges, SumTo, Syndromes;
    assert n * Width(mode) == Values(mode, n);
    ghost var key := Keys(llr, n, Width(mode));
    ghost var f, w := Iterations(mode, llr, n), Syndromes(mode, llr, n);
    var order := new nat[n];
    WeakestBlocksFirst(llr, n, Width(mode), order);
    ghost var visiting := Visiting(mode, llr, n);
    iterations, syndrome := 0, 0;
    VisitNone(mode, llr, visiting, output[..]);
    var k := 0;
    while k < n
      invariant 0 <= k <= n && order[..n] == visiting
      invariant Visited(mode, llr, visiting, k, output[..]) && forall i | 0 <= i < k :: w[visiting[i]] == 0
      invariant iterations == Total(f, visiting[..k]) && syndrome == 0
      invariant forall i | 8 * n <= i < output.Length :: output[i] == old(output[i])
    {
      var block := order[k];
      assert block == visiting[k];
      var stats := VisitBlock(mode, llr, n, visiting, k, block, output);
      iterations := iterations + stats.iterations;
      syndrome := syndrome + stats.syndromeWeight;
      if !stats.converged {
        assert StopsAt(visiting, f, w, k, iterations, syndrome);
        return false, iterations, syndrome;
      }
      assert visiting[..k + 1][..k] == visiting[..k];
      k := k + 1;
    }
    assert visiting[..n] == visiting;
    AllVisited(mode, llr, n, key, output[..]);
    assert output[..][..8 * n] == output[..8 * n];
    return true, iterations, syndrome;
  }

  lemma VisitNone(mode: Mode, llr: seq<real>, visiting: seq<nat>, output: seq<Byte>)
    requires Coded(mode)
    ensures Visited(mode, llr, visiting, 0, output)
  {}
}
