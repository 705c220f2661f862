/**
 Normalized min-sum decoding, `rtnc_ldpc_decode_normalized_min_sum` of
 src/fec/ldpc.c: the message-passing rounds as functions of the channel values,
 and the in-place decoder proved to compute them.
 */
module MinSum {
  import opened Numbers
  import opened Ldpc

  /** Smallest magnitude among messages lo..hi except index skip; None stands for the initial infinity. */
  function MinAbs(m: seq<real>, lo: nat, hi: nat, skip: nat): (r: Option<real>)
    requires lo <= hi <= |m|
    ensures r.None? ==> hi - lo <= 1
    ensures hi > lo && (skip != hi - 1 || hi - lo > 1) ==> r.Some?
    decreases hi - lo
  {
    if lo == hi then None
    else
      var rest := MinAbs(m, lo, hi - 1, skip);
      if hi - 1 == skip then rest
      else if rest.None? || Abs(m[hi - 1]) < rest.value then Some(Abs(m[hi - 1]))
      else rest
  }

  /** Whether an odd number of the other messages is negative. */
  function Negative(m: seq<real>, lo: nat, hi: nat, skip: nat): bool
    requires lo <= hi <= |m|
    decreases hi - lo
  {
    if lo == hi then false
    else Negative(m, lo, hi - 1, skip) != (hi - 1 != skip && m[hi - 1] < 0.0)
  }

  function CheckMessage(m: seq<real>, lo: nat, hi: nat, target: nat, norm: real): real
    requires lo + 2 <= hi <= |m|
  {
    (if Negative(m, lo, hi, target) then -norm else norm) * MinAbs(m, lo, hi, target).value
  }

  // ---------------------------------------------------------------- one round

  /** Check-to-variable messages of one round. */
  function CheckPass(code: Code, norm: real, m: seq<real>): (r: seq<real>)
    requires code.WellFormed() && |m| == |code.edges|
    ensures |r| == |code.edges|
  {
    seq(|code.edges|, e requires 0 <= e < |code.edges| =>
      var c := RowOf(code, e);
      CheckMessage(m, code.offsets[c], code.offsets[c + 1], e, norm))
  }

  lemma CheckPassAt(code: Code, norm: real, m: seq<real>, c: nat, e: nat)
    requires code.WellFormed() && |m| == |code.edges| && code.InRow(c, e)
    ensures code.offsets[c] + 2 <= code.offsets[c + 1] <= |m|
    ensures e < |m| && CheckPass(code, norm, m)[e] == CheckMessage(m, code.offsets[c], code.offsets[c + 1], e, norm)
  {
    RowUnique(code, c, RowOf(code, e), e);
  }

  /** Sum of the messages arriving at variable v over the first n edges. */
  function Incoming(edges: seq<nat>, m: seq<real>, v: nat, n: nat): real
    requires n <= |edges| == |m|
  {
    if n == 0 then 0.0
    else Incoming(edges, m, v, n - 1) + (if edges[n - 1] == v then m[n - 1] else 0.0)
  }

  function VariablePass(code: Code, llr: seq<real>, m: seq<real>): (r: seq<real>)
    requires code.WellFormed() && |llr| == code.variableCount && |m| == |code.edges|
    ensures |r| == code.variableCount
  {
    seq(code.variableCount, v requires 0 <= v < code.variableCount => llr[v] + Incoming(code.edges, m, v, |m|))
  }

  function Hard(posterior: seq<real>): (bits: seq<bool>)
    ensures |bits| == |posterior|
    ensures forall v | 0 <= v < |bits| :: bits[v] <==> posterior[v] < 0.0
  {
    seq(|posterior|, v requires 0 <= v < |posterior| => posterior[v] < 0.0)
  }

  /** Variable-to-check messages of the next round: the posterior without the edge's own contribution. */
  function Extrinsic(code: Code, posterior: seq<real>, m: seq<real>): (r: seq<real>)
    requires code.WellFormed() && |posterior| == code.variableCount && |m| == |code.edges|
    ensures |r| == |code.edges|
  {
    seq(|code.edges|, e requires 0 <= e < |code.edges| => posterior[code.edges[e]] - m[e])
  }

  function ChannelMessages(code: Code, llr: seq<real>): (r: seq<real>)
    requires code.WellFormed() && |llr| == code.variableCount
    ensures |r| == |code.edges|
  {
    seq(|code.edges|, e requires 0 <= e < |code.edges| => llr[code.edges[e]])
  }

  // ---------------------------------------------------------------- all rounds

  /** Variable-to-check messages after k completed rounds. */
  function Messages(code: Code, llr: seq<real>, norm: real, k: nat): (r: seq<real>)
    requires code.WellFormed() && |llr| == code.variableCount
    ensures |r| == |code.edges|
  {
    if k == 0 then ChannelMessages(code, llr)
    else
      var returned := CheckPass(code, norm, Messages(code, llr, norm, k - 1));
      Extrinsic(code, VariablePass(code, llr, returned), returned)
  }

  /** Posterior values computed in round k + 1. */
  function Posterior(code: Code, llr: seq<real>, norm: real, k: nat): (r: seq<real>)
    requires code.WellFormed() && |llr| == code.variableCount
    ensures |r| == code.variableCount
  {
    VariablePass(code, llr, CheckPass(code, norm, Messages(code, llr, norm, k)))
  }

  datatype Outcome = Outcome(bits: seq<bool>, converged: bool, iterations: nat, syndromeWeight: nat)

  /** The run from round k on: stop at the first round whose hard decisions satisfy every check. */
  function Run(code: Code, llr: seq<real>, norm: real, limit: nat, k: nat): (r: Outcome)
    requires code.WellFormed() && |llr| == code.variableCount && k < limit
    ensures |r.bits| == code.variableCount && k < r.iterations <= limit && (r.converged <==> r.syndromeWeight == 0)
    decreases limit - k
  {
    var bits := Hard(Posterior(code, llr, norm, k));
    var weight := Syndrome(code, bits, code.CheckCount());
    if weight == 0 then Outcome(bits, true, k + 1, 0)
    else if k + 1 == limit then Outcome(bits, false, limit, weight)
    else Run(code, llr, norm, limit, k + 1)
  }

  function Decode(code: Code, llr: seq<real>, norm: real, limit: nat): (r: Outcome)
    requires code.WellFormed() && |llr| == code.variableCount && limit > 0
    ensures |r.bits| == code.variableCount && 1 <= r.iterations <= limit && (r.converged <==> r.syndromeWeight == 0)
  {
    Run(code, llr, norm, limit, 0)
  }

  // ---------------------------------------------------------------- the in-place decoder

  method OutgoingMessage(m: array<real>, lo: nat, hi: nat, target: nat, norm: real) returns (message: real)
    requires lo + 2 <= hi <= m.Length && lo <= target < hi
    ensures message == CheckMessage(m[..hi], lo, hi, target, norm)
  {
    var minimum: Option<real> := None;
    var negative := false;
    var other := lo;
    while other < hi
      invariant lo <= other <= hi
      invariant minimum == MinAbs(m[..hi], lo, other, target)
      invariant negative == Negative(m[..hi], lo, other, target)
    {
      if other != target {
        negative := negative != (m[other] < 0.0);
        if minimum.None? || Abs(m[other]) < minimum.value {
          minimum := Some(Abs(m[other]));
        }
      }
      other := other + 1;
    }
    message := (if negative then -norm else norm) * minimum.value;
  }

  lemma {:induction false} CheckMessageLocal(m: seq<real>, n: seq<real>, lo: nat, hi: nat, target: nat)
    requires lo <= hi <= |m| && hi <= |n| && forall i | lo <= i < hi :: m[i] == n[i]
    ensures MinAbs(m, lo, hi, target) == MinAbs(n, lo, hi, target)
    ensures Negative(m, lo, hi, target) == Negative(n, lo, hi, target)
    decreases hi - lo
  {
    if lo < hi {
      CheckMessageLocal(m, n, lo, hi - 1, target);
    }
  }

  method RunCheckPass(code: Code, norm: real, variableToCheck: array<real>, checkToVariable: array<real>)
    requires code.WellFormed() && variableToCheck != checkToVariable
    requires |code.edges| <= variableToCheck.Length && |code.edges| <= checkToVariable.Length
    modifies checkToVariable
    ensures checkToVariable[..|code.edges|] == CheckPass(code, norm, variableToCheck[..|code.edges|])
  {
    hide CheckPass;
    ghost var result := CheckPass(code, norm, variableToCheck[..|code.edges|]);
    var check := 0;
    while check < code.CheckCount()
      invariant 0 <= check <= code.CheckCount()
      invariant forall e | 0 <= e < code.offsets[check] :: checkToVariable[e] == result[e]
    {
      RunCheck(code, norm, check, variableToCheck, checkToVariable);
      check := check + 1;
    }
  }

  method RunCheck(code: Code, norm: real, check: nat, variableToCheck: array<real>, checkToVariable: array<real>)
    requires code.WellFormed() && variableToCheck != checkToVariable && check < code.CheckCount()
    requires |code.edges| <= variableToCheck.Length && |code.edges| <= checkToVariable.Length
    modifies checkToVariable
    ensures forall e: nat | code.InRow(check, e) :: checkToVariable[e] == CheckPass(code, norm, variableToCheck[..|code.edges|])[e]
    ensures forall e | 0 <= e < code.offsets[check] :: checkToVariable[e] == old(checkToVariable[e])
  {
    hide CheckMessage, CheckPass;
    ghost var m := variableToCheck[..|code.edges|];
    ghost var result := CheckPass(code, norm, m);
    var lo, hi := code.offsets[check], code.offsets[check + 1];
    assert lo + 2 <= hi <= |code.edges|;
    var target := lo;
    while target < hi
      invariant lo <= target <= hi
      invariant forall e | lo <= e < target :: checkToVariable[e] == result[e]
      invariant forall e | 0 <= e < lo :: checkToVariable[e] == old(checkToVariable[e])
    {
      var message := OutgoingMessage(variableToCheck, lo, hi, target, norm);
      CheckPassAt(code, norm, m, check, target);
      SameCheckMessage(m, variableToCheck[..hi], lo, hi, target, norm);
      checkToVariable[target] := message;
      target := target + 1;
    }
  }

  lemma SameCheckMessage(m: seq<real>, n: seq<real>, lo: nat, hi: nat, target: nat, norm: real)
    requires lo + 2 <= hi <= |m| && hi <= |n| && forall i | lo <= i < hi :: m[i] == n[i]
    ensures CheckMessage(m, lo, hi, target, norm) == CheckMessage(n, lo, hi, target, norm)
  {
    CheckMessageLocal(m, n, lo, hi, target);
  }

  method RunVariablePass(code: Code, llr: seq<real>, checkToVariable: array<real>, posterior: array<real>)
    requires code.WellFormed() && |llr| == code.variableCount && checkToVariable != posterior
    requires |code.edges| <= checkToVariable.Length && code.variableCount <= posterior.Length
    modifies posterior
    ensures posterior[..code.variableCount] == VariablePass(code, llr, checkToVariable[..|code.edges|])
  {
    ghost var m := checkToVariable[..|code.edges|];
    var variable := 0;
    while variable < code.variableCount
      invariant 0 <= variable <= code.variableCount
      invariant forall v | 0 <= v < variable :: posterior[v] == VariablePass(code, llr, m)[v]
    {
      var sum := llr[variable];
      var edge := 0;
      while edge < |code.edges|
        invariant 0 <= edge <= |code.edges| && sum == llr[variable] + Incoming(code.edges, m, variable, edge)
      {
        if code.edges[edge] == variable {
          sum := sum + checkToVariable[edge];
        }
        edge := edge + 1;
      }
      posterior[variable] := sum;
      variable := variable + 1;
    }
  }

  method UpdateHardBits(code: Code, posterior: array<real>, bits: array<bool>) returns (syndromeWeight: nat)
    requires code.WellFormed() && code.variableCount <= posterior.Length && code.variableCount <= bits.Length
    modifies bits
    ensures bits[..code.variableCount] == Hard(posterior[..code.variableCount])
    ensures syndromeWeight == Syndrome(code, Hard(posterior[..code.variableCount]), code.CheckCount())
  {
    var variable := 0;
    while variable < code.variableCount
      invariant 0 <= variable <= code.variableCount
      invariant forall v | 0 <= v < variable :: bits[v] == (posterior[v] < 0.0)
    {
      bits[variable] := posterior[variable] < 0.0;
      variable := variable + 1;
    }
    assert bits[..code.variableCount] == Hard(posterior[..code.variableCount]);
    syndromeWeight := CountViolated(code, bits);
  }

  method CountViolated(code: Code, bits: array<bool>) returns (syndromeWeight: nat)
    requires code.WellFormed() && code.variableCount <= bits.Length
    ensures syndromeWeight == Syndrome(code, bits[..code.variableCount], code.CheckCount())
  {
    hide Satisfied;
    syndromeWeight := 0;
    var check := 0;
    while check < code.CheckCount()
      invariant 0 <= check <= code.CheckCount() && syndromeWeight == Syndrome(code, bits[..code.variableCount], check)
    {
      var parity := CheckParity(code, bits, check);
      syndromeWeight := syndromeWeight + (if parity then 1 else 0);
      check := check + 1;
    }
  }

  method CheckParity(code: Code, bits: array<bool>, check: nat) returns (parity: bool)
    requires code.WellFormed() && code.variableCount <= bits.Length && check < code.CheckCount()
    ensures parity == !Satisfied(code, bits[..code.variableCount], check)
  {
    parity := false;
    var edge := code.offsets[check];
    while edge < code.offsets[check + 1]
      invariant code.offsets[check] <= edge <= code.offsets[check + 1]
      invariant parity == RowParity(code.edges, bits[..code.variableCount], code.offsets[check], edge)
    {
      parity := parity != bits[code.edges[edge]];
      edge := edge + 1;
    }
  }

  method LoadChannel(code: Code, llr: seq<real>, variableToCheck: array<real>, checkToVariable: array<real>)
    requires code.WellFormed() && |llr| == code.variableCount && variableToCheck != checkToVariable
    requires |code.edges| <= variableToCheck.Length && |code.edges| <= checkToVariable.Length
    modifies variableToCheck, checkToVariable
    ensures variableToCheck[..|code.edges|] == ChannelMessages(code, llr)
  {
    var edge := 0;
    while edge < |code.edges|
      invariant 0 <= edge <= |code.edges|
      invariant forall e | 0 <= e < edge :: variableToCheck[e] == llr[code.edges[e]]
    {
      variableToCheck[edge] := llr[code.edges[edge]];
      checkToVariable[edge] := 0.0;
      edge := edge + 1;
    }
  }

  method RunExtrinsic(code: Code, posterior: array<real>, checkToVariable: array<real>, variableToCheck: array<real>)
    requires code.WellFormed() && variableToCheck != checkToVariable && variableToCheck != posterior
    requires |code.edges| <= variableToCheck.Length && |code.edges| <= checkToVariable.Length && code.variableCount <= posterior.Length
    modifies variableToCheck
    ensures variableToCheck[..|code.edges|]
         == Extrinsic(code, posterior[..code.variableCount], checkToVariable[..|code.edges|])
  {
    var edge := 0;
    while edge < |code.edges|
      invariant 0 <= edge <= |code.edges|
      invariant forall e | 0 <= e < edge :: variableToCheck[e] == posterior[code.edges[e]] - checkToVariable[e]
    {
      variableToCheck[edge] := posterior[code.edges[edge]] - checkToVariable[edge];
      edge := edge + 1;
    }
  }

  datatype Stats = Stats(converged: bool, iterations: nat, syndromeWeight: nat)

  /** False only for a bad normalization, a zero round limit or a workspace that is too small. */
  method DecodeNormalizedMinSum(code: Code, llr: seq<real>, norm: real, maxIterations: nat, decoded: array<bool>,
                                variableToCheck: array<real>, checkToVariable: array<real>, posterior: array<real>)
    returns (ok: bool, stats: Stats)
    requires code.WellFormed() && |llr| == code.variableCount && code.variableCount <= decoded.Length
    requires variableToCheck != checkToVariable && variableToCheck != posterior && checkToVariable != posterior
    modifies decoded, variableToCheck, checkToVariable, posterior
    ensures ok <==> 0.0 < norm <= 1.0 && maxIterations > 0 && |code.edges| <= variableToCheck.Length
                    && |code.edges| <= checkToVariable.Length && code.variableCount <= posterior.Length
    ensures ok ==>
      var run := Decode(code, llr, norm, maxIterations);
      decoded[..code.variableCount] == run.bits && stats == Stats(run.converged, run.iterations, run.syndromeWeight)
  {
    hide CheckPass, VariablePass, Hard, Extrinsic, ChannelMessages, Syndrome, Code.WellFormed;
    stats := Stats(false, 0, 0);
    if norm <= 0.0 || norm > 1.0 || maxIterations == 0 || variableToCheck.Length < |code.edges|
       || checkToVariable.Length < |code.edges| || posterior.Length < code.variableCount {
      return false, stats;
    }
    LoadChannel(code, llr, variableToCheck, checkToVariable);
    var iteration := 1;
    while true
      invariant 1 <= iteration <= maxIterations
      invariant variableToCheck[..|code.edges|] == Messages(code, llr, norm, iteration - 1)
      invariant Decode(code, llr, norm, maxIterations) == Run(code, llr, norm, maxIterations, iteration - 1)
      decreases maxIterations - iteration
    {
      RunCheckPass(code, norm, variableToCheck, checkToVariable);
      RunVariablePass(code, llr, checkToVariable, posterior);
      var weight := UpdateHardBits(code, posterior, decoded);
      stats := Stats(weight == 0, iteration, weight);
      if weight == 0 || iteration == maxIterations {
        return true, stats;
      }
      RunExtrinsic(code, posterior, checkToVariable, variableToCheck);
      iteration := iteration + 1;
    }
  }
}
