/**
 What the min-sum decoder guarantees: soundness of convergence, sign agreement
 over every round, recovery of erasures in peeling order, and a bound on the
 channel errors that one round corrects.
 */
module MinSumTheory {
  import opened Numbers
  import opened Signs
  import opened Ldpc
  import opened MinSum

  // ---------------------------------------------------------------- one check

  /** Parity of the bits on edges lo..hi except skip. */
  function Others(edges: seq<nat>, bits: seq<bool>, lo: nat, hi: nat, skip: nat): bool
    requires lo <= hi <= |edges| && forall e | lo <= e < hi :: edges[e] < |bits|
    decreases hi - lo
  {
    if lo == hi then false
    else Others(edges, bits, lo, hi - 1, skip) != (hi - 1 != skip && bits[edges[hi - 1]])
  }

  lemma {:induction false} OthersParity(edges: seq<nat>, bits: seq<bool>, lo: nat, hi: nat, skip: nat)
    requires lo <= hi <= |edges| && forall e | lo <= e < hi :: edges[e] < |bits|
    ensures Others(edges, bits, lo, hi, skip)
         == (RowParity(edges, bits, lo, hi) != (lo <= skip < hi && bits[edges[skip]]))
    decreases hi - lo
  {
    if lo < hi {
      OthersParity(edges, bits, lo, hi - 1, skip);
    }
  }

  lemma {:induction false} RightSigns(edges: seq<nat>, bits: seq<bool>, m: seq<real>, lo: nat, hi: nat, skip: nat)
    requires lo <= hi <= |edges| && hi <= |m| && forall e | lo <= e < hi :: edges[e] < |bits|
    requires forall e | lo <= e < hi && e != skip :: Signed(m[e], bits[edges[e]]) > 0.0
    ensures Negative(m, lo, hi, skip) == Others(edges, bits, lo, hi, skip)
    decreases hi - lo
  {
    if lo < hi {
      RightSigns(edges, bits, m, lo, hi - 1, skip);
    }
  }

  lemma {:induction false} MinAbsBounds(m: seq<real>, lo: nat, hi: nat, skip: nat, b: real)
    requires lo <= hi <= |m| && MinAbs(m, lo, hi, skip).Some?
    ensures MinAbs(m, lo, hi, skip).value >= 0.0
    ensures forall o | lo <= o < hi && o != skip :: MinAbs(m, lo, hi, skip).value <= Abs(m[o])
    ensures (forall o | lo <= o < hi && o != skip :: b <= Abs(m[o])) ==> b <= MinAbs(m, lo, hi, skip).value
    decreases hi - lo
  {
    if MinAbs(m, lo, hi - 1, skip).Some? {
      MinAbsBounds(m, lo, hi - 1, skip, b);
    } else {
      NoOthers(m, lo, hi - 1, skip);
    }
  }

  lemma {:induction false} NoOthers(m: seq<real>, lo: nat, hi: nat, skip: nat)
    requires lo <= hi <= |m| && MinAbs(m, lo, hi, skip).None?
    ensures hi <= lo + 1 && (lo < hi ==> skip == lo)
    decreases hi - lo
  {
    if lo < hi {
      NoOthers(m, lo, hi - 1, skip);
    }
  }

  /** The row of one satisfied check, and the signs its messages carry. */
  ghost predicate RowSigned(edges: seq<nat>, bits: seq<bool>, m: seq<real>, lo: nat, hi: nat, skip: nat, b: real)
    requires lo <= hi <= |edges| && hi <= |m| && forall e | lo <= e < hi :: edges[e] < |bits|
  {
    forall f | lo <= f < hi && f != skip :: Signed(m[f], bits[edges[f]]) >= b
  }

  lemma RowAgrees(edges: seq<nat>, bits: seq<bool>, m: seq<real>, lo: nat, hi: nat, e: nat, norm: real, b: real)
    requires lo + 2 <= hi <= |edges| && hi <= |m| && (forall f | lo <= f < hi :: edges[f] < |bits|)
    requires lo <= e < hi && norm > 0.0 && b >= 0.0
    requires !RowParity(edges, bits, lo, hi) && RowSigned(edges, bits, m, lo, hi, e, b)
    ensures Signed(CheckMessage(m, lo, hi, e, norm), bits[edges[e]]) >= norm * b
  {
    hide *;
    var min := MinAbs(m, lo, hi, e).value;
    CheckMessageForm(m, lo, hi, e, norm);
    RowMagnitudes(edges, bits, m, lo, hi, e, b);
    ScaledOrder(norm, b, min);
    ScaledOrder(norm, 0.0, min);
    if min == 0.0 {
      ByFor(CheckMessage(m, lo, hi, e, norm), Negative(m, lo, hi, e), bits[edges[e]], norm * min, norm * b);
    } else {
      RightSigns(edges, bits, m, lo, hi, e);
      OthersParity(edges, bits, lo, hi, e);
      assert Negative(m, lo, hi, e) == bits[edges[e]];
      ByFor(CheckMessage(m, lo, hi, e, norm), Negative(m, lo, hi, e), bits[edges[e]], norm * min, norm * b);
    }
  }

  lemma RowMagnitudes(edges: seq<nat>, bits: seq<bool>, m: seq<real>, lo: nat, hi: nat, e: nat, b: real)
    requires lo <= hi <= |edges| && hi <= |m| && (forall f | lo <= f < hi :: edges[f] < |bits|) && b >= 0.0
    requires RowSigned(edges, bits, m, lo, hi, e, b) && MinAbs(m, lo, hi, e).Some?
    ensures 0.0 <= b <= MinAbs(m, lo, hi, e).value
    ensures MinAbs(m, lo, hi, e).value != 0.0 ==>
              forall f | lo <= f < hi && f != e :: Signed(m[f], bits[edges[f]]) > 0.0
  {
    MinAbsBounds(m, lo, hi, e, b);
  }

  lemma CheckMessageForm(m: seq<real>, lo: nat, hi: nat, target: nat, norm: real)
    requires lo + 2 <= hi <= |m|
    ensures MinAbs(m, lo, hi, target).Some?
    ensures CheckMessage(m, lo, hi, target, norm) ==
            var y := norm * MinAbs(m, lo, hi, target).value;
            if Negative(m, lo, hi, target) then -y else y
  {
    assert (-norm) * MinAbs(m, lo, hi, target).value == -(norm * MinAbs(m, lo, hi, target).value);
  }

  lemma ByFor(x: real, negative: bool, bit: bool, y: real, z: real)
    requires x == (if negative then -y else y) && y >= z && (y == 0.0 || negative == bit)
    ensures Signed(x, bit) >= z
  {}

  lemma ScaledOrder(norm: real, x: real, y: real)
    requires norm > 0.0 && x <= y
    ensures norm * x <= norm * y
  {}

  /**
   When every other message of a satisfied check has the right sign and magnitude
   at least b, its answer has the right sign and magnitude at least norm * b.
   With b = 0 this is weak agreement: right sign or zero.
   */
  lemma CheckAgrees(code: Code, word: seq<bool>, norm: real, m: seq<real>, c: nat, e: nat, b: real)
    requires code.WellFormed() && |word| == code.variableCount && |m| == |code.edges| && norm > 0.0 && b >= 0.0
    requires code.InRow(c, e) && Satisfied(code, word, c)
    requires forall f: nat | code.InRow(c, f) && f != e :: Signed(m[f], word[code.edges[f]]) >= b
    ensures Signed(CheckPass(code, norm, m)[e], word[code.edges[e]]) >= norm * b
  {
    hide CheckMessage, CheckPass, RowParity;
    var lo, hi := code.offsets[c], code.offsets[c + 1];
    CheckPassAt(code, norm, m, c, e);
    forall f | lo <= f < hi && f != e ensures Signed(m[f], word[code.edges[f]]) >= b {
      assert code.InRow(c, f);
    }
    RowAgrees(code.edges, word, m, lo, hi, e, norm, b);
  }

  /** One weak message caps the answer: whatever its sign, its magnitude is at most norm * a. */
  lemma CheckCapped(code: Code, norm: real, m: seq<real>, c: nat, e: nat, f: nat, a: real, bit: bool)
    requires code.WellFormed() && |m| == |code.edges| && norm > 0.0
    requires code.InRow(c, e) && code.InRow(c, f) && f != e && Abs(m[f]) <= a
    ensures Signed(CheckPass(code, norm, m)[e], bit) >= -(norm * a)
  {
    hide MinAbs, Negative, CheckPass;
    var lo, hi := code.offsets[c], code.offsets[c + 1];
    CheckPassAt(code, norm, m, c, e);
    var min := MinAbs(m, lo, hi, e).value;
    MinAbsBounds(m, lo, hi, e, 0.0);
    ScaledOrder(norm, min, a);
    ScaledOrder(norm, 0.0, min);
    assert (-norm) * min == -(norm * min);
  }

  // ---------------------------------------------------------------- one variable

  /** Number of edges among the first n that end in v. */
  function Degree(edges: seq<nat>, v: nat, n: nat): nat
    requires n <= |edges|
  {
    if n == 0 then 0 else Degree(edges, v, n - 1) + (if edges[n - 1] == v then 1 else 0)
  }

  lemma {:induction false} IncomingBound(edges: seq<nat>, m: seq<real>, v: nat, n: nat, bit: bool, x: real)
    requires n <= |edges| == |m|
    requires forall e | 0 <= e < n && edges[e] == v :: Signed(m[e], bit) >= x
    ensures Signed(Incoming(edges, m, v, n), bit) >= Degree(edges, v, n) as real * x
  {
    if n > 0 {
      IncomingBound(edges, m, v, n - 1, bit, x);
      var d := Degree(edges, v, n - 1) as real;
      assert (d + 1.0) * x == d * x + x;
    }
  }

  /** If every arriving message agrees with `bit`, dropping one of them leaves a sum that agrees. */
  lemma {:induction false} IncomingWithout(edges: seq<nat>, m: seq<real>, v: nat, n: nat, bit: bool, skip: nat)
    requires n <= |edges| == |m| && skip < n && edges[skip] == v
    requires forall e | 0 <= e < n && edges[e] == v && e != skip :: Signed(m[e], bit) >= 0.0
    ensures Signed(Incoming(edges, m, v, n) - m[skip], bit) >= 0.0
    ensures forall e | 0 <= e < n && edges[e] == v && e != skip ::
              Signed(Incoming(edges, m, v, n) - m[skip], bit) >= Signed(m[e], bit)
  {
    if skip == n - 1 {
      IncomingBound(edges, m, v, n - 1, bit, 0.0);
      IncomingDominates(edges, m, v, n - 1, bit);
    } else {
      IncomingWithout(edges, m, v, n - 1, bit, skip);
    }
  }

  lemma {:induction false} IncomingDominates(edges: seq<nat>, m: seq<real>, v: nat, n: nat, bit: bool)
    requires n <= |edges| == |m|
    requires forall e | 0 <= e < n && edges[e] == v :: Signed(m[e], bit) >= 0.0
    ensures Signed(Incoming(edges, m, v, n), bit) >= 0.0
    ensures forall e | 0 <= e < n && edges[e] == v :: Signed(Incoming(edges, m, v, n), bit) >= Signed(m[e], bit)
  {
    if n > 0 {
      IncomingDominates(edges, m, v, n - 1, bit);
    }
  }

  // ---------------------------------------------------------------- soundness of convergence

  /** A converged run returns a codeword, whatever the channel delivered. */
  lemma {:induction false} ConvergedRunIsCodeword(code: Code, llr: seq<real>, norm: real, limit: nat, k: nat)
    requires code.WellFormed() && |llr| == code.variableCount && k < limit
    ensures Run(code, llr, norm, limit, k).converged <==> Codeword(code, Run(code, llr, norm, limit, k).bits)
    ensures Run(code, llr, norm, limit, k).converged <==> Run(code, llr, norm, limit, k).syndromeWeight == 0
    ensures exists j | k <= j < limit ::
              Run(code, llr, norm, limit, k).bits == Hard(Posterior(code, llr, norm, j))
              && Run(code, llr, norm, limit, k).iterations == j + 1
    decreases limit - k
  {
    hide Posterior, Hard, Satisfied;
    var bits := Hard(Posterior(code, llr, norm, k));
    if Syndrome(code, bits, code.CheckCount()) != 0 && k + 1 < limit {
      ConvergedRunIsCodeword(code, llr, norm, limit, k + 1);
    } else {
      assert Run(code, llr, norm, limit, k).bits == Hard(Posterior(code, llr, norm, k));
    }
  }

  /** A run stops no later than the first round whose hard decisions form a codeword. */
  lemma {:induction false} RunStopsBy(code: Code, llr: seq<real>, norm: real, limit: nat, k: nat, j: nat)
    requires code.WellFormed() && |llr| == code.variableCount && k <= j < limit
    requires Codeword(code, Hard(Posterior(code, llr, norm, j)))
    ensures Run(code, llr, norm, limit, k).converged && Run(code, llr, norm, limit, k).iterations <= j + 1
    decreases j - k
  {
    hide Posterior, Hard;
    if k < j {
      RunStopsBy(code, llr, norm, limit, k + 1, j);
    }
  }

  // ---------------------------------------------------------------- sign agreement in every round

  ghost predicate Agrees(code: Code, word: seq<bool>, llr: seq<real>)
    requires |word| == |llr|
  {
    forall v | 0 <= v < |llr| :: Signed(llr[v], word[v]) >= 0.0
  }

  ghost predicate MessagesAgree(code: Code, word: seq<bool>, m: seq<real>)
    requires code.WellFormed() && |word| == code.variableCount && |m| == |code.edges|
  {
    forall e | 0 <= e < |m| :: Signed(m[e], word[code.edges[e]]) >= 0.0
  }

  lemma ChecksAgree(code: Code, word: seq<bool>, norm: real, m: seq<real>)
    requires code.WellFormed() && Codeword(code, word) && |m| == |code.edges| && norm > 0.0
    requires MessagesAgree(code, word, m)
    ensures MessagesAgree(code, word, CheckPass(code, norm, m))
  {
    forall e | 0 <= e < |m| ensures Signed(CheckPass(code, norm, m)[e], word[code.edges[e]]) >= 0.0 {
      var c := RowOf(code, e);
      CheckAgrees(code, word, norm, m, c, e, 0.0);
    }
  }

  lemma VariablesAgree(code: Code, word: seq<bool>, llr: seq<real>, m: seq<real>)
    requires code.WellFormed() && |word| == |llr| == code.variableCount && |m| == |code.edges|
    requires Agrees(code, word, llr) && MessagesAgree(code, word, m)
    ensures MessagesAgree(code, word, Extrinsic(code, VariablePass(code, llr, m), m))
    ensures forall v | 0 <= v < |llr| :: Signed(VariablePass(code, llr, m)[v], word[v]) >= Signed(llr[v], word[v])
  {
    forall e | 0 <= e < |m|
      ensures Signed(Extrinsic(code, VariablePass(code, llr, m), m)[e], word[code.edges[e]]) >= 0.0
    {
      IncomingWithout(code.edges, m, code.edges[e], |m|, word[code.edges[e]], e);
    }
    forall v | 0 <= v < |llr| ensures Signed(VariablePass(code, llr, m)[v], word[v]) >= Signed(llr[v], word[v]) {
      IncomingDominates(code.edges, m, v, |m|, word[v]);
    }
  }

  /**
   If no channel value contradicts a codeword, then in every round no message and
   no posterior contradicts it, and each posterior is at least as confident as
   the channel value it started from.
   */
  lemma {:induction false} AgreementInEveryRound(code: Code, word: seq<bool>, llr: seq<real>, norm: real, k: nat)
    requires code.WellFormed() && Codeword(code, word) && |llr| == code.variableCount && norm > 0.0
    requires Agrees(code, word, llr)
    ensures MessagesAgree(code, word, Messages(code, llr, norm, k))
    ensures MessagesAgree(code, word, CheckPass(code, norm, Messages(code, llr, norm, k)))
    ensures forall v | 0 <= v < |llr| :: Signed(Posterior(code, llr, norm, k)[v], word[v]) >= Signed(llr[v], word[v])
  {
    hide CheckPass, VariablePass, Extrinsic;
    if k > 0 {
      AgreementInEveryRound(code, word, llr, norm, k - 1);
      VariablesAgree(code, word, llr, CheckPass(code, norm, Messages(code, llr, norm, k - 1)));
    }
    ChecksAgree(code, word, norm, Messages(code, llr, norm, k));
    VariablesAgree(code, word, llr, CheckPass(code, norm, Messages(code, llr, norm, k)));
  }

  /** Consequently no received bit is ever decoded wrong, converged or not; only erased ones can be. */
  lemma ReceivedBitsStayRight(code: Code, word: seq<bool>, llr: seq<real>, norm: real, limit: nat)
    requires code.WellFormed() && Codeword(code, word) && |llr| == code.variableCount && norm > 0.0 && limit > 0
    requires Agrees(code, word, llr)
    ensures forall v | 0 <= v < |llr| && (llr[v] != 0.0 || !word[v]) :: Decode(code, llr, norm, limit).bits[v] == word[v]
  {
    hide Posterior, Messages, CheckPass, Codeword, Run;
    ConvergedRunIsCodeword(code, llr, norm, limit, 0);
    var j :| 0 <= j < limit && Decode(code, llr, norm, limit).bits == Hard(Posterior(code, llr, norm, j));
    AgreementInEveryRound(code, word, llr, norm, j);
  }
}
