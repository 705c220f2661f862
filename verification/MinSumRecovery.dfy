/**
 Two guarantees that the min-sum decoder finds the transmitted word: erasures
 that can be peeled off one check at a time are filled within as many rounds as
 the peeling takes, and isolated weak or wrong channel values are corrected in
 the first round when their magnitude is small enough.
 */
module MinSumRecovery {
  import opened Numbers
  import opened Signs
  import opened Ldpc
  import opened MinSum
  import opened MinSumTheory

  // ---------------------------------------------------------------- erasures, in peeling order

  /**
   A schedule that peels the erasures: level 0 was received; a variable of higher
   level has an edge into some check all of whose other variables have lower level.
   */
  ghost predicate Peels(code: Code, llr: seq<real>, level: seq<nat>, via: seq<nat>)
    requires code.WellFormed() && |llr| == code.variableCount
  {
    && |level| == |via| == code.variableCount
    && (forall v | 0 <= v < |level| && level[v] == 0 :: llr[v] != 0.0)
    && (forall v | 0 <= v < |level| && level[v] > 0 :: via[v] < |code.edges| && code.edges[via[v]] == v)
    && (forall v, f: nat | 0 <= v < |level| && level[v] > 0 && code.InRow(RowOf(code, via[v]), f) && f != via[v] ::
          level[code.edges[f]] < level[v])
  }

  /** After k rounds every edge of a recovered variable, except the one that recovered it, carries a strict message. */
  ghost predicate Strict(code: Code, word: seq<bool>, level: seq<nat>, via: seq<nat>, m: seq<real>, k: nat)
    requires code.WellFormed() && |word| == |level| == |via| == code.variableCount && |m| == |code.edges|
  {
    forall e | 0 <= e < |m| && level[code.edges[e]] <= k && (level[code.edges[e]] > 0 ==> via[code.edges[e]] != e) ::
      Signed(m[e], word[code.edges[e]]) > 0.0
  }

  lemma {:induction false} MinAbsPositive(m: seq<real>, lo: nat, hi: nat, skip: nat)
    requires lo <= hi <= |m| && MinAbs(m, lo, hi, skip).Some?
    requires forall o | lo <= o < hi && o != skip :: m[o] != 0.0
    ensures MinAbs(m, lo, hi, skip).value > 0.0
    decreases hi - lo
  {
    if MinAbs(m, lo, hi - 1, skip).Some? {
      MinAbsPositive(m, lo, hi - 1, skip);
    }
  }

  /** A satisfied check that hears only strictly right messages gives a strictly right answer. */
  lemma CheckStrict(code: Code, word: seq<bool>, norm: real, m: seq<real>, c: nat, e: nat)
    requires code.WellFormed() && |word| == code.variableCount && |m| == |code.edges| && norm > 0.0
    requires code.InRow(c, e) && Satisfied(code, word, c)
    requires forall f: nat | code.InRow(c, f) && f != e :: Signed(m[f], word[code.edges[f]]) > 0.0
    ensures Signed(CheckPass(code, norm, m)[e], word[code.edges[e]]) > 0.0
  {
    hide CheckPass, MinAbs, Satisfied;
    var lo, hi := code.offsets[c], code.offsets[c + 1];
    CheckPassAt(code, norm, m, c, e);
    CheckMessageForm(m, lo, hi, e, norm);
    var b := MinAbs(m, lo, hi, e).value;
    forall o | lo <= o < hi && o != e ensures m[o] != 0.0 {
      assert code.InRow(c, o);
    }
    MinAbsPositive(m, lo, hi, e);
    MinAbsBounds(m, lo, hi, e, b);
    CheckAgrees(code, word, norm, m, c, e, b);
  }

  /** A variable that helps to recover v was itself recovered through another check. */
  lemma RecoveredElsewhere(code: Code, llr: seq<real>, level: seq<nat>, via: seq<nat>, v: nat, f: nat)
    requires code.WellFormed() && |llr| == code.variableCount && Peels(code, llr, level, via)
    requires v < |level| && level[v] > 0 && f != via[v] && code.InRow(RowOf(code, via[v]), f)
    ensures var u := code.edges[f]; level[u] < level[v] && (level[u] > 0 ==> via[u] != f)
  {
    RowUnique(code, RowOf(code, via[v]), RowOf(code, f), f);
    assert code.InRow(RowOf(code, f), via[v]);
  }

  /** The recovering edge of a level-(k+1) variable hears only strict messages in round k + 1. */
  lemma ViaStrict(code: Code, word: seq<bool>, llr: seq<real>, norm: real, level: seq<nat>, via: seq<nat>, m: seq<real>, k: nat, v: nat)
    requires code.WellFormed() && Codeword(code, word) && |word| == |llr| == code.variableCount && |m| == |code.edges| && norm > 0.0
    requires Peels(code, llr, level, via) && Strict(code, word, level, via, m, k)
    requires v < |level| && 0 < level[v] <= k + 1
    ensures Signed(CheckPass(code, norm, m)[via[v]], word[v]) > 0.0
  {
    hide CheckPass;
    var e := via[v];
    var c := RowOf(code, e);
    forall f: nat | code.InRow(c, f) && f != e ensures Signed(m[f], word[code.edges[f]]) > 0.0 {
      RecoveredElsewhere(code, llr, level, via, v, f);
    }
    CheckStrict(code, word, norm, m, c, e);
  }

  lemma StrictExtrinsic(code: Code, word: seq<bool>, llr: seq<real>, norm: real, level: seq<nat>, via: seq<nat>, m: seq<real>, k: nat)
    requires code.WellFormed() && Codeword(code, word) && |word| == |llr| == code.variableCount && |m| == |code.edges| && norm > 0.0
    requires Agrees(code, word, llr) && MessagesAgree(code, word, m)
    requires Peels(code, llr, level, via) && Strict(code, word, level, via, m, k)
    ensures var returned := CheckPass(code, norm, m);
      Strict(code, word, level, via, Extrinsic(code, VariablePass(code, llr, returned), returned), k + 1)
  {
    hide CheckPass, RowOf, Codeword;
    var r := CheckPass(code, norm, m);
    var p := VariablePass(code, llr, r);
    ChecksAgree(code, word, norm, m);
    forall e | 0 <= e < |m| && level[code.edges[e]] <= k + 1 && (level[code.edges[e]] > 0 ==> via[code.edges[e]] != e)
      ensures Signed(Extrinsic(code, p, r)[e], word[code.edges[e]]) > 0.0
    {
      var v := code.edges[e];
      IncomingWithout(code.edges, r, v, |r|, word[v], e);
      if level[v] > 0 {
        ViaStrict(code, word, llr, norm, level, via, m, k, v);
      }
    }
  }

  lemma StrictPosterior(code: Code, word: seq<bool>, llr: seq<real>, norm: real, level: seq<nat>, via: seq<nat>, m: seq<real>, k: nat)
    requires code.WellFormed() && Codeword(code, word) && |word| == |llr| == code.variableCount && |m| == |code.edges| && norm > 0.0
    requires Agrees(code, word, llr) && MessagesAgree(code, word, m)
    requires Peels(code, llr, level, via) && Strict(code, word, level, via, m, k)
    ensures forall v | 0 <= v < |level| && level[v] <= k + 1 ::
              Signed(VariablePass(code, llr, CheckPass(code, norm, m))[v], word[v]) > 0.0
  {
    hide CheckPass, RowOf, Codeword;
    var r := CheckPass(code, norm, m);
    ChecksAgree(code, word, norm, m);
    forall v | 0 <= v < |level| && level[v] <= k + 1 ensures Signed(VariablePass(code, llr, r)[v], word[v]) > 0.0 {
      IncomingDominates(code.edges, r, v, |r|, word[v]);
      if level[v] > 0 {
        ViaStrict(code, word, llr, norm, level, via, m, k, v);
      }
    }
  }

  lemma {:induction false} StrictRounds(code: Code, word: seq<bool>, llr: seq<real>, norm: real, level: seq<nat>, via: seq<nat>, k: nat)
    requires code.WellFormed() && Codeword(code, word) && |word| == |llr| == code.variableCount && norm > 0.0
    requires Agrees(code, word, llr) && Peels(code, llr, level, via)
    ensures Strict(code, word, level, via, Messages(code, llr, norm, k), k)
    ensures forall v | 0 <= v < |level| && level[v] <= k + 1 :: Signed(Posterior(code, llr, norm, k)[v], word[v]) > 0.0
  {
    hide CheckPass, VariablePass, Extrinsic, RowOf, Codeword;
    if k > 0 {
      StrictRounds(code, word, llr, norm, level, via, k - 1);
      AgreementInEveryRound(code, word, llr, norm, k - 1);
      StrictExtrinsic(code, word, llr, norm, level, via, Messages(code, llr, norm, k - 1), k - 1);
    }
    AgreementInEveryRound(code, word, llr, norm, k);
    StrictPosterior(code, word, llr, norm, level, via, Messages(code, llr, norm, k), k);
  }

  lemma {:induction false} OthersEqual(edges: seq<nat>, x: seq<bool>, y: seq<bool>, lo: nat, hi: nat, skip: nat)
    requires lo <= hi <= |edges| && |x| == |y| && forall e | lo <= e < hi :: edges[e] < |x|
    requires forall e | lo <= e < hi && e != skip :: x[edges[e]] == y[edges[e]]
    ensures Others(edges, x, lo, hi, skip) == Others(edges, y, lo, hi, skip)
    decreases hi - lo
  {
    if lo < hi {
      OthersEqual(edges, x, y, lo, hi - 1, skip);
    }
  }

  /** Two codewords that agree where the channel delivered something agree wherever the schedule reaches. */
  lemma {:induction false} PeeledWordIsUnique(code: Code, llr: seq<real>, level: seq<nat>, via: seq<nat>, x: seq<bool>, y: seq<bool>, v: nat)
    requires code.WellFormed() && Codeword(code, x) && Codeword(code, y) && |llr| == code.variableCount
    requires Peels(code, llr, level, via) && v < |level|
    requires forall u | 0 <= u < |level| && level[u] == 0 :: x[u] == y[u]
    ensures x[v] == y[v]
    decreases level[v]
  {
    if level[v] > 0 {
      var e := via[v];
      var c := RowOf(code, e);
      var lo, hi := code.offsets[c], code.offsets[c + 1];
      forall f | lo <= f < hi && f != e ensures x[code.edges[f]] == y[code.edges[f]] {
        assert code.InRow(c, f);
        PeeledWordIsUnique(code, llr, level, via, x, y, code.edges[f]);
      }
      OthersEqual(code.edges, x, y, lo, hi, e);
      OthersParity(code.edges, x, lo, hi, e);
      OthersParity(code.edges, y, lo, hi, e);
      assert Satisfied(code, x, c) && Satisfied(code, y, c);
    }
  }

  lemma PeeledRound(code: Code, word: seq<bool>, llr: seq<real>, norm: real, level: seq<nat>, via: seq<nat>, rounds: nat)
    requires code.WellFormed() && Codeword(code, word) && |word| == |llr| == code.variableCount && norm > 0.0
    requires Agrees(code, word, llr) && Peels(code, llr, level, via)
    requires 1 <= rounds && |level| == code.variableCount && forall v | 0 <= v < |level| :: level[v] <= rounds
    ensures Hard(Posterior(code, llr, norm, rounds - 1)) == word
  {
    hide *;
    StrictRounds(code, word, llr, norm, level, via, rounds - 1);
    PositiveIsRight(Posterior(code, llr, norm, rounds - 1), word);
  }

  lemma PositiveIsRight(values: seq<real>, word: seq<bool>)
    requires |values| == |word| && forall v | 0 <= v < |values| :: Signed(values[v], word[v]) > 0.0
    ensures Hard(values) == word
  {}

  /**
   If no received value contradicts the codeword and the erasures peel off in
   `rounds` levels, the decoder converges to exactly that codeword within
   max(1, rounds) iterations.
   */
  lemma PeelableErasuresAreFilled(code: Code, word: seq<bool>, llr: seq<real>, norm: real, limit: nat,
                                  level: seq<nat>, via: seq<nat>, rounds: nat)
    requires code.WellFormed() && Codeword(code, word) && |word| == |llr| == code.variableCount && norm > 0.0
    requires Agrees(code, word, llr) && Peels(code, llr, level, via)
    requires 1 <= rounds <= limit && forall v | 0 <= v < |level| :: level[v] <= rounds
    ensures Decode(code, llr, norm, limit).bits == word
    ensures Decode(code, llr, norm, limit).converged && Decode(code, llr, norm, limit).iterations <= rounds
    ensures Decode(code, llr, norm, limit).syndromeWeight == 0
  {
    PeeledRound(code, word, llr, norm, level, via, rounds);
    hide Posterior, Run, Codeword, Hard, Agrees;
    RunStopsBy(code, llr, norm, limit, 0, rounds - 1);
    ConvergedRunIsCodeword(code, llr, norm, limit, 0);
    ReceivedBitsStayRight(code, word, llr, norm, limit);
    var got := Decode(code, llr, norm, limit).bits;
    forall v | 0 <= v < |level| ensures got[v] == word[v] {
      PeeledWordIsUnique(code, llr, level, via, got, word, v);
    }
  }

  // ---------------------------------------------------------------- isolated errors

  /** Outside `weak` the channel is right with magnitude at least b; inside it may even be wrong, with magnitude at most a. */
  ghost predicate ChannelMargins(word: seq<bool>, llr: seq<real>, weak: set<nat>, a: real, b: real)
    requires |word| == |llr|
  {
    forall v: nat | v < |llr| :: if v in weak then Abs(llr[v]) <= a else Signed(llr[v], word[v]) >= b
  }

  ghost predicate NoSharedCheck(code: Code, weak: set<nat>)
    requires code.WellFormed()
  {
    forall c: nat, e: nat, f: nat | code.InRow(c, e) && code.InRow(c, f) && e != f ::
      code.edges[e] in weak ==> code.edges[f] !in weak
  }

  /** The scaled magnitudes leave a margin at every variable, whatever its degree. */
  ghost predicate DegreeMargins(code: Code, weak: set<nat>, norm: real, a: real, b: real) {
    forall v: nat | v < code.variableCount ::
      var d := Degree(code.edges, v, |code.edges|) as real;
      if v in weak then a < d * (norm * b) else d * (norm * a) < b
  }

  /** First-round answers: at least norm * b to a weak variable, at least -norm * a to any other. */
  lemma FirstAnswers(code: Code, word: seq<bool>, llr: seq<real>, weak: set<nat>, norm: real, a: real, b: real, e: nat)
    requires code.WellFormed() && Codeword(code, word) && |word| == |llr| == code.variableCount && norm > 0.0 && a >= 0.0 && b > 0.0
    requires ChannelMargins(word, llr, weak, a, b) && NoSharedCheck(code, weak) && e < |code.edges|
    ensures var answer := Signed(CheckPass(code, norm, ChannelMessages(code, llr))[e], word[code.edges[e]]);
      if code.edges[e] in weak then answer >= norm * b else answer >= -(norm * a)
  {
    hide CheckPass, RowOf;
    var m := ChannelMessages(code, llr);
    var c := RowOf(code, e);
    if f: nat :| code.InRow(c, f) && f != e && code.edges[f] in weak {
      CheckCapped(code, norm, m, c, e, f, a, word[code.edges[e]]);
    } else {
      assert Satisfied(code, word, c);
      CheckAgrees(code, word, norm, m, c, e, b);
      ScaledOrder(norm, 0.0, b);
      ScaledOrder(norm, 0.0, a);
    }
  }

  lemma FirstIncoming(code: Code, word: seq<bool>, llr: seq<real>, weak: set<nat>, norm: real, a: real, b: real, v: nat)
    requires code.WellFormed() && Codeword(code, word) && |word| == |llr| == code.variableCount && norm > 0.0 && a >= 0.0 && b > 0.0
    requires ChannelMargins(word, llr, weak, a, b) && NoSharedCheck(code, weak) && v < code.variableCount
    ensures var r := CheckPass(code, norm, ChannelMessages(code, llr));
      var d := Degree(code.edges, v, |code.edges|) as real;
      Signed(Incoming(code.edges, r, v, |r|), word[v]) >= if v in weak then d * (norm * b) else -(d * (norm * a))
  {
    hide CheckPass, ChannelMessages, Codeword, NoSharedCheck, ChannelMargins, Incoming, Degree, Signed;
    var r := CheckPass(code, norm, ChannelMessages(code, llr));
    var x := if v in weak then norm * b else -(norm * a);
    forall e | 0 <= e < |r| && code.edges[e] == v ensures Signed(r[e], word[v]) >= x {
      FirstAnswers(code, word, llr, weak, norm, a, b, e);
    }
    IncomingBound(code.edges, r, v, |r|, word[v], x);
    NegatedProduct(Degree(code.edges, v, |code.edges|) as real, norm * a);
  }

  lemma NegatedProduct(d: real, y: real)
    ensures d * -y == -(d * y)
  {}

  lemma FirstPosterior(code: Code, word: seq<bool>, llr: seq<real>, weak: set<nat>, norm: real, a: real, b: real, v: nat)
    requires code.WellFormed() && Codeword(code, word) && |word| == |llr| == code.variableCount && norm > 0.0 && a >= 0.0 && b > 0.0
    requires ChannelMargins(word, llr, weak, a, b) && NoSharedCheck(code, weak) && DegreeMargins(code, weak, norm, a, b)
    requires v < code.variableCount
    ensures Signed(Posterior(code, llr, norm, 0)[v], word[v]) > 0.0
  {
    hide CheckPass, ChannelMessages, Codeword, NoSharedCheck, Incoming, Degree, Code.WellFormed;
    FirstIncoming(code, word, llr, weak, norm, a, b, v);
  }

  /**
   Error correction: weak or wrong channel values of magnitude at most a, no two
   of them in one check, are all corrected in the first round.
   */
  lemma IsolatedErrorsAreCorrected(code: Code, word: seq<bool>, llr: seq<real>, weak: set<nat>, norm: real, limit: nat, a: real, b: real)
    requires code.WellFormed() && Codeword(code, word) && |llr| == code.variableCount && norm > 0.0 && limit > 0 && a >= 0.0 && b > 0.0
    requires ChannelMargins(word, llr, weak, a, b) && NoSharedCheck(code, weak) && DegreeMargins(code, weak, norm, a, b)
    ensures Decode(code, llr, norm, limit) == Outcome(word, true, 1, 0)
  {
    hide Posterior;
    forall v: nat | v < code.variableCount ensures Hard(Posterior(code, llr, norm, 0))[v] == word[v] {
      FirstPosterior(code, word, llr, weak, norm, a, b, v);
    }
    assert Hard(Posterior(code, llr, norm, 0)) == word;
  }
}
