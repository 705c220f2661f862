/**
 What the messages mean. A next message is the channel value plus the answers of
 the other checks; an answer is the difference between the least costs of the two
 parities of the other bits; and on a code without cycles, with normalization 1, the
 posterior of a bit is the difference between the least costs of all codewords with
 that bit one and with that bit zero.
 */
module MinSumExact {
  import opened Numbers
  import opened Ldpc
  import opened MinSum
  import opened MinSumTheory

  // ---------------------------------------------------------------- the next message

  /** Sum of the messages on the edges of variable v other than `skip`, among the first n. */
  function FromOthers(edges: seq<nat>, m: seq<real>, v: nat, skip: Option<nat>, n: nat): real
    requires n <= |edges| == |m|
  {
    if n == 0 then 0.0
    else FromOthers(edges, m, v, skip, n - 1) + if edges[n - 1] == v && skip != Some(n - 1) then m[n - 1] else 0.0
  }

  lemma {:induction false} WithoutOne(edges: seq<nat>, m: seq<real>, v: nat, skip: nat, n: nat)
    requires n <= |edges| == |m| && skip < |edges| && edges[skip] == v
    ensures Incoming(edges, m, v, n) == FromOthers(edges, m, v, Some(skip), n) + if skip < n then m[skip] else 0.0
  {
    if n > 0 {
      WithoutOne(edges, m, v, skip, n - 1);
    }
  }

  lemma {:induction false} WithAll(edges: seq<nat>, m: seq<real>, v: nat, n: nat)
    requires n <= |edges| == |m|
    ensures Incoming(edges, m, v, n) == FromOthers(edges, m, v, None, n)
  {
    if n > 0 {
      WithAll(edges, m, v, n - 1);
    }
  }

  /** Round k + 1 tells a check the channel value and what the other checks of the variable answered in round k. */
  lemma NextMessage(code: Code, llr: seq<real>, norm: real, k: nat, e: nat)
    requires code.WellFormed() && |llr| == code.variableCount && e < |code.edges|
    ensures var v := code.edges[e];
      Messages(code, llr, norm, k + 1)[e]
      == llr[v] + FromOthers(code.edges, CheckPass(code, norm, Messages(code, llr, norm, k)), v, Some(e), |code.edges|)
  {
    hide CheckPass;
    WithoutOne(code.edges, CheckPass(code, norm, Messages(code, llr, norm, k)), code.edges[e], e, |code.edges|);
  }

  lemma PosteriorHearsAll(code: Code, llr: seq<real>, norm: real, k: nat, v: nat)
    requires code.WellFormed() && |llr| == code.variableCount && v < code.variableCount
    ensures Posterior(code, llr, norm, k)[v]
         == llr[v] + FromOthers(code.edges, CheckPass(code, norm, Messages(code, llr, norm, k)), v, None, |code.edges|)
  {
    hide CheckPass;
    WithAll(code.edges, CheckPass(code, norm, Messages(code, llr, norm, k)), v, |code.edges|);
  }

  // ---------------------------------------------------------------- one check

  /** Sum of the chosen messages on edges lo .. hi - 1 other than `skip`. */
  function Chosen(m: seq<real>, pick: seq<bool>, lo: nat, hi: nat, skip: nat): real
    requires lo <= hi <= |m| && hi <= |pick|
    decreases hi - lo
  {
    if lo == hi then 0.0
    else Chosen(m, pick, lo, hi - 1, skip) + if hi - 1 != skip && pick[hi - 1] then m[hi - 1] else 0.0
  }

  /** Whether an odd number of them is chosen. */
  function Odd(pick: seq<bool>, lo: nat, hi: nat, skip: nat): bool
    requires lo <= hi <= |pick|
    decreases hi - lo
  {
    if lo == hi then false else Odd(pick, lo, hi - 1, skip) != (hi - 1 != skip && pick[hi - 1])
  }

  /** The cheapest choice of all takes the negative messages. */
  function Negatives(m: seq<real>, lo: nat, hi: nat, skip: nat): real
    requires lo <= hi <= |m|
    decreases hi - lo
  {
    if lo == hi then 0.0
    else Negatives(m, lo, hi - 1, skip) + if hi - 1 != skip && m[hi - 1] < 0.0 then m[hi - 1] else 0.0
  }

  /** What the cheapest choice of the given parity costs. */
  function Cheapest(m: seq<real>, lo: nat, hi: nat, skip: nat, odd: bool): real
    requires lo + 2 <= hi <= |m|
  {
    Negatives(m, lo, hi, skip) + if odd == Negative(m, lo, hi, skip) then 0.0 else MinAbs(m, lo, hi, skip).value
  }

  lemma {:induction false} NoCheaperChoice(m: seq<real>, pick: seq<bool>, lo: nat, hi: nat, skip: nat)
    requires lo <= hi <= |m| && hi <= |pick|
    ensures Chosen(m, pick, lo, hi, skip) >= Negatives(m, lo, hi, skip)
    ensures Odd(pick, lo, hi, skip) != Negative(m, lo, hi, skip) ==>
      MinAbs(m, lo, hi, skip).Some? && Chosen(m, pick, lo, hi, skip) >= Negatives(m, lo, hi, skip) + MinAbs(m, lo, hi, skip).value
    decreases hi - lo
  {
    if lo < hi {
      NoCheaperChoice(m, pick, lo, hi - 1, skip);
    }
  }

  lemma {:induction false} ChosenLocal(m: seq<real>, pick: seq<bool>, other: seq<bool>, lo: nat, hi: nat, skip: nat)
    requires lo <= hi <= |m| && hi <= |pick| && hi <= |other| && forall i | lo <= i < hi && i != skip :: pick[i] == other[i]
    ensures Chosen(m, pick, lo, hi, skip) == Chosen(m, other, lo, hi, skip) && Odd(pick, lo, hi, skip) == Odd(other, lo, hi, skip)
    decreases hi - lo
  {
    if lo < hi {
      ChosenLocal(m, pick, other, lo, hi - 1, skip);
    }
  }

  /** The choice that takes the negative messages. */
  function Minus(m: seq<real>): (pick: seq<bool>)
    ensures |pick| == |m|
  {
    seq(|m|, i requires 0 <= i < |m| => m[i] < 0.0)
  }

  lemma {:induction false} MinusCosts(m: seq<real>, lo: nat, hi: nat, skip: nat)
    requires lo <= hi <= |m|
    ensures Chosen(m, Minus(m), lo, hi, skip) == Negatives(m, lo, hi, skip) && Odd(Minus(m), lo, hi, skip) == Negative(m, lo, hi, skip)
    decreases hi - lo
  {
    if lo < hi {
      MinusCosts(m, lo, hi - 1, skip);
    }
  }

  /** Turning the weakest choice round changes the parity at the least price. */
  lemma {:induction false} OtherParity(m: seq<real>, lo: nat, hi: nat, skip: nat) returns (pick: seq<bool>)
    requires lo <= hi <= |m| && MinAbs(m, lo, hi, skip).Some?
    ensures |pick| == |m| && Odd(pick, lo, hi, skip) != Negative(m, lo, hi, skip)
    ensures Chosen(m, pick, lo, hi, skip) == Negatives(m, lo, hi, skip) + MinAbs(m, lo, hi, skip).value
    decreases hi - lo
  {
    var i, rest := hi - 1, MinAbs(m, lo, hi - 1, skip);
    if i != skip && (rest.None? || Abs(m[i]) < rest.value) {
      pick := Minus(m)[i := !(m[i] < 0.0)];
      ChosenLocal(m, pick, Minus(m), lo, i, skip);
      MinusCosts(m, lo, i, skip);
    } else {
      var p := OtherParity(m, lo, i, skip);
      pick := p[i := m[i] < 0.0];
      ChosenLocal(m, pick, p, lo, i, skip);
    }
  }

  lemma SomeOther(m: seq<real>, lo: nat, hi: nat, skip: nat)
    requires lo + 2 <= hi <= |m|
    ensures MinAbs(m, lo, hi, skip).Some?
  {}

  ghost predicate Attains(m: seq<real>, lo: nat, hi: nat, skip: nat, odd: bool, pick: seq<bool>)
    requires lo + 2 <= hi <= |m|
  {
    |pick| == |m| && Odd(pick, lo, hi, skip) == odd && Chosen(m, pick, lo, hi, skip) == Cheapest(m, lo, hi, skip, odd)
  }

  /** `Cheapest` is the least cost of a choice with that parity. */
  lemma CheapestIsLeast(m: seq<real>, lo: nat, hi: nat, skip: nat, odd: bool) returns (pick: seq<bool>)
    requires lo + 2 <= hi <= |m|
    ensures Attains(m, lo, hi, skip, odd, pick)
    ensures forall other: seq<bool> | |other| == |m| && Odd(other, lo, hi, skip) == odd ::
      Chosen(m, other, lo, hi, skip) >= Cheapest(m, lo, hi, skip, odd)
  {
    SomeOther(m, lo, hi, skip);
    if odd == Negative(m, lo, hi, skip) {
      pick := Minus(m);
      MinusCosts(m, lo, hi, skip);
    } else {
      pick := OtherParity(m, lo, hi, skip);
    }
    forall other: seq<bool> | |other| == |m| && Odd(other, lo, hi, skip) == odd
      ensures Chosen(m, other, lo, hi, skip) >= Cheapest(m, lo, hi, skip, odd)
    {
      NoCheaperChoice(m, other, lo, hi, skip);
    }
  }

  /** With normalization 1 a check answers with the price of a one: the least odd cost minus the least even cost of the others. */
  lemma AnswerIsPrice(m: seq<real>, lo: nat, hi: nat, target: nat)
    requires lo + 2 <= hi <= |m|
    ensures CheckMessage(m, lo, hi, target, 1.0) == Cheapest(m, lo, hi, target, true) - Cheapest(m, lo, hi, target, false)
  {
    CheckMessageForm(m, lo, hi, target, 1.0);
  }
}
