/**
 Codes without cycles: with normalization 1 the decoder computes the exact price of
 every bit, and with it the codeword of least cost.
 */
module MinSumTrees {
  import opened Ldpc
  import opened MinSum
  import opened MinSumTheory
  import opened MinSumExact

  /**
   The graph of variables and checks hung up as trees: `top` is the edge by which a
   check hangs from a variable, `up` the one by which a variable hangs from a check;
   a variable without one is a root. Heights grow upwards.
   */
  datatype Forest = Forest(top: seq<nat>, up: seq<Option<nat>>, height: seq<nat>)

  /** Every edge is the one its check or the one its variable hangs by, and nothing hangs in a circle. */
  ghost predicate Hangs(code: Code, t: Forest)
    requires code.WellFormed()
  {
    && |t.top| == code.CheckCount() && |t.up| == |t.height| == code.variableCount
    && (forall c | 0 <= c < code.CheckCount() :: code.InRow(c, t.top[c]))
    && (forall c: nat, e: nat | code.InRow(c, e) ::
          if e == t.top[c] then t.up[code.edges[e]] != Some(e)
          else t.up[code.edges[e]] == Some(e) && t.height[code.edges[e]] < t.height[code.edges[t.top[c]]])
    && (forall v | 0 <= v < code.variableCount && t.up[v].Some? ::
          t.up[v].value < |code.edges| && code.edges[t.up[v].value] == v)
  }

  /** What a word costs: the channel values of its ones. */
  function Cost(llr: seq<real>, word: seq<bool>, n: nat): real
    requires n <= |llr| == |word|
  {
    if n == 0 then 0.0 else Cost(llr, word, n - 1) + if word[n - 1] then llr[n - 1] else 0.0
  }

  // ---------------------------------------------------------------- costs hung up

  /** The share of the roots among the first n variables. */
  function RootCost(t: Forest, lean: seq<real>, word: seq<bool>, n: nat): real
    requires n <= |lean| == |word| == |t.up|
  {
    if n == 0 then 0.0 else RootCost(t, lean, word, n - 1) + if t.up[n - 1].None? && word[n - 1] then lean[n - 1] else 0.0
  }

  /** What the ones among the first n variables say upwards, over the first k edges. */
  function Upwards(t: Forest, m: seq<real>, word: seq<bool>, n: nat, k: nat): real
    requires n <= |word| == |t.up| && k <= |m|
  {
    if n == 0 then 0.0
    else Upwards(t, m, word, n - 1, k) + if t.up[n - 1].Some? && t.up[n - 1].value < k && word[n - 1] then m[t.up[n - 1].value] else 0.0
  }

  /** What the ones among the first n variables hear from below, over the first k edges. */
  function Heard(edges: seq<nat>, t: Forest, r: seq<real>, word: seq<bool>, n: nat, k: nat): real
    requires n <= |word| == |t.up| && k <= |edges| == |r|
  {
    if n == 0 then 0.0
    else Heard(edges, t, r, word, n - 1, k) + if word[n - 1] then FromOthers(edges, r, n - 1, t.up[n - 1], k) else 0.0
  }

  /**
   Messages that have come to rest: what a variable says upwards, or its posterior at
   a root, is its channel value plus what it hears from below, and a check answers
   upwards with the price of a one.
   */
  ghost predicate AtRest(code: Code, t: Forest, llr: seq<real>, lean: seq<real>, m: seq<real>, r: seq<real>)
    requires code.WellFormed() && Hangs(code, t)
  {
    && |llr| == |lean| == code.variableCount && |m| == |r| == |code.edges|
    && (forall v | 0 <= v < code.variableCount && t.up[v].Some? :: lean[v] == m[t.up[v].value])
    && (forall v | 0 <= v < code.variableCount :: lean[v] == llr[v] + FromOthers(code.edges, r, v, t.up[v], |r|))
    && (forall c | 0 <= c < code.CheckCount() :: Priced(code, m, r, c, t.top[c]))
  }

  ghost predicate Priced(code: Code, m: seq<real>, r: seq<real>, c: nat, e: nat)
    requires code.WellFormed() && |m| == |r| == |code.edges| && code.InRow(c, e)
  {
    r[e] == Cheapest(m, code.offsets[c], code.offsets[c + 1], e, true) - Cheapest(m, code.offsets[c], code.offsets[c + 1], e, false)
  }

  lemma {:induction false} CostSplits(code: Code, t: Forest, llr: seq<real>, lean: seq<real>, m: seq<real>, r: seq<real>, word: seq<bool>, n: nat)
    requires code.WellFormed() && Hangs(code, t) && AtRest(code, t, llr, lean, m, r) && n <= |word| == code.variableCount
    ensures Cost(llr, word, n) == RootCost(t, lean, word, n) + Upwards(t, m, word, n, |m|) - Heard(code.edges, t, r, word, n, |r|)
  {
    hide FromOthers, Priced;
    if n > 0 {
      CostSplits(code, t, llr, lean, m, r, word, n - 1);
    }
  }

  lemma {:induction false} UpwardsStep(t: Forest, m: seq<real>, word: seq<bool>, n: nat, k: nat, v: nat)
    requires n <= |word| == |t.up| && k < |m| && v < |word| && forall u | 0 <= u < |t.up| && t.up[u] == Some(k) :: u == v
    ensures Upwards(t, m, word, n, k + 1) == Upwards(t, m, word, n, k) + if v < n && t.up[v] == Some(k) && word[v] then m[k] else 0.0
  {
    if n > 0 {
      UpwardsStep(t, m, word, n - 1, k, v);
    }
  }

  lemma {:induction false} HeardStep(edges: seq<nat>, t: Forest, r: seq<real>, word: seq<bool>, n: nat, k: nat)
    requires n <= |word| == |t.up| && k < |edges| == |r| && edges[k] < |word|
    ensures Heard(edges, t, r, word, n, k + 1)
         == Heard(edges, t, r, word, n, k) + if edges[k] < n && t.up[edges[k]] != Some(k) && word[edges[k]] then r[k] else 0.0
  {
    if n > 0 {
      HeardStep(edges, t, r, word, n - 1, k);
    }
  }

  lemma {:induction false} NothingYet(edges: seq<nat>, t: Forest, m: seq<real>, r: seq<real>, word: seq<bool>, n: nat)
    requires n <= |word| == |t.up| && |edges| == |r| == |m|
    ensures Upwards(t, m, word, n, 0) == 0.0 && Heard(edges, t, r, word, n, 0) == 0.0
  {
    if n > 0 {
      NothingYet(edges, t, m, r, word, n - 1);
    }
  }

  // ---------------------------------------------------------------- check by check

  /** The bits of a word edge by edge. */
  function OnEdges(code: Code, word: seq<bool>): (pick: seq<bool>)
    requires code.WellFormed() && |word| == code.variableCount
    ensures |pick| == |code.edges|
  {
    seq(|code.edges|, e requires 0 <= e < |code.edges| => word[code.edges[e]])
  }

  /** What check c adds: what its lower bits cost, less the price its upper bit has paid. */
  function CheckShare(code: Code, t: Forest, m: seq<real>, r: seq<real>, word: seq<bool>, c: nat): real
    requires code.WellFormed() && |word| == code.variableCount && |m| == |r| == |code.edges|
    requires c < code.CheckCount() == |t.top| && code.InRow(c, t.top[c])
  {
    Chosen(m, OnEdges(code, word), code.offsets[c], code.offsets[c + 1], t.top[c])
    - if word[code.edges[t.top[c]]] then r[t.top[c]] else 0.0
  }

  function Shares(code: Code, t: Forest, m: seq<real>, r: seq<real>, word: seq<bool>, n: nat): real
    requires code.WellFormed() && Hangs(code, t) && |word| == code.variableCount && |m| == |r| == |code.edges|
    requires n <= code.CheckCount()
  {
    if n == 0 then 0.0 else Shares(code, t, m, r, word, n - 1) + CheckShare(code, t, m, r, word, n - 1)
  }

  /** Upwards minus heard over the first k edges. */
  function Balance(code: Code, t: Forest, m: seq<real>, r: seq<real>, word: seq<bool>, k: nat): real
    requires |word| == |t.up| && k <= |m| == |r| == |code.edges|
  {
    Upwards(t, m, word, |word|, k) - Heard(code.edges, t, r, word, |word|, k)
  }

  lemma BalanceStep(code: Code, t: Forest, m: seq<real>, r: seq<real>, word: seq<bool>, c: nat, e: nat)
    requires code.WellFormed() && Hangs(code, t) && |word| == code.variableCount && |m| == |r| == |code.edges| && code.InRow(c, e)
    ensures Balance(code, t, m, r, word, e + 1) == Balance(code, t, m, r, word, e)
         + if !word[code.edges[e]] then 0.0 else if e == t.top[c] then -r[e] else m[e]
  {
    hide Upwards, Heard;
    UpwardsStep(t, m, word, |word|, e, code.edges[e]);
    HeardStep(code.edges, t, r, word, |word|, e);
  }

  lemma {:induction false} RowBalance(code: Code, t: Forest, m: seq<real>, r: seq<real>, word: seq<bool>, c: nat, e: nat)
    requires code.WellFormed() && Hangs(code, t) && |word| == code.variableCount && |m| == |r| == |code.edges|
    requires c < code.CheckCount() && code.offsets[c] <= e <= code.offsets[c + 1] <= |m|
    ensures Balance(code, t, m, r, word, e) == Balance(code, t, m, r, word, code.offsets[c])
         + Chosen(m, OnEdges(code, word), code.offsets[c], e, t.top[c])
         - if t.top[c] < e && word[code.edges[t.top[c]]] then r[t.top[c]] else 0.0
  {
    hide Balance;
    if e > code.offsets[c] {
      RowBalance(code, t, m, r, word, c, e - 1);
      BalanceStep(code, t, m, r, word, c, e - 1);
      assert OnEdges(code, word)[e - 1] == word[code.edges[e - 1]];
    }
  }

  lemma {:induction false} BalanceIsShares(code: Code, t: Forest, m: seq<real>, r: seq<real>, word: seq<bool>, n: nat)
    requires code.WellFormed() && Hangs(code, t) && |word| == code.variableCount && |m| == |r| == |code.edges|
    requires n <= code.CheckCount()
    ensures code.offsets[n] <= |m| && Balance(code, t, m, r, word, code.offsets[n]) == Shares(code, t, m, r, word, n)
  {
    hide Chosen, OnEdges;
    if n == 0 {
      NothingYet(code.edges, t, m, r, word, |word|);
    } else {
      BalanceIsShares(code, t, m, r, word, n - 1);
      RowBalance(code, t, m, r, word, n - 1, code.offsets[n]);
      hide Balance;
    }
  }

  /** The cost of any word is what its roots cost plus the shares of the checks. */
  lemma CostIsShares(code: Code, t: Forest, llr: seq<real>, lean: seq<real>, m: seq<real>, r: seq<real>, word: seq<bool>)
    requires code.WellFormed() && Hangs(code, t) && AtRest(code, t, llr, lean, m, r) && |word| == code.variableCount
    ensures Cost(llr, word, |word|) == RootCost(t, lean, word, |word|) + Shares(code, t, m, r, word, code.CheckCount())
  {
    CostSplits(code, t, llr, lean, m, r, word, |word|);
    BalanceIsShares(code, t, m, r, word, code.CheckCount());
    hide Cost, RootCost, Upwards, Heard, Shares, AtRest, Hangs;
  }

  // ---------------------------------------------------------------- no codeword is cheaper

  /** The least share of the checks. */
  function Ground(code: Code, t: Forest, m: seq<real>, n: nat): real
    requires code.WellFormed() && Hangs(code, t) && |m| == |code.edges| && n <= code.CheckCount()
  {
    if n == 0 then 0.0
    else Ground(code, t, m, n - 1) + Cheapest(m, code.offsets[n - 1], code.offsets[n], t.top[n - 1], false)
  }

  /** The least the roots among the first n variables can cost when variable v is `bit`. */
  function RootFloor(t: Forest, lean: seq<real>, v: nat, bit: bool, n: nat): real
    requires n <= |lean| == |t.up|
  {
    if n == 0 then 0.0
    else
      RootFloor(t, lean, v, bit, n - 1)
      + if t.up[n - 1].None? && (if n - 1 == v then bit else lean[n - 1] < 0.0) then lean[n - 1] else 0.0
  }

  lemma {:induction false} RootsCostMore(t: Forest, lean: seq<real>, word: seq<bool>, v: nat, n: nat)
    requires n <= |lean| == |word| == |t.up| && v < |word|
    ensures RootCost(t, lean, word, n) >= RootFloor(t, lean, v, word[v], n)
  {
    if n > 0 {
      RootsCostMore(t, lean, word, v, n - 1);
    }
  }

  lemma {:induction false} OddOnEdges(code: Code, word: seq<bool>, lo: nat, hi: nat, skip: nat)
    requires code.WellFormed() && |word| == code.variableCount && lo <= hi <= |code.edges|
    ensures Odd(OnEdges(code, word), lo, hi, skip) == (RowParity(code.edges, word, lo, hi) != (lo <= skip < hi && word[code.edges[skip]]))
    decreases hi - lo
  {
    if lo < hi {
      OddOnEdges(code, word, lo, hi - 1, skip);
    }
  }

  lemma ShareOfCheck(code: Code, t: Forest, m: seq<real>, r: seq<real>, word: seq<bool>, c: nat)
    requires code.WellFormed() && |word| == code.variableCount && |m| == |r| == |code.edges|
    requires c < code.CheckCount() == |t.top| && code.InRow(c, t.top[c]) && Priced(code, m, r, c, t.top[c]) && Satisfied(code, word, c)
    ensures CheckShare(code, t, m, r, word, c) >= Cheapest(m, code.offsets[c], code.offsets[c + 1], t.top[c], false)
  {
    var lo, hi, top := code.offsets[c], code.offsets[c + 1], t.top[c];
    OddOnEdges(code, word, lo, hi, top);
    hide Cheapest, Chosen, Odd, OnEdges;
    var pick := CheapestIsLeast(m, lo, hi, top, word[code.edges[top]]);
  }

  lemma {:induction false} SharesCostMore(code: Code, t: Forest, m: seq<real>, r: seq<real>, word: seq<bool>, n: nat)
    requires code.WellFormed() && Hangs(code, t) && |m| == |r| == |code.edges| && n <= code.CheckCount()
    requires Codeword(code, word) && forall c | 0 <= c < code.CheckCount() :: Priced(code, m, r, c, t.top[c])
    ensures Shares(code, t, m, r, word, n) >= Ground(code, t, m, n)
  {
    hide Cheapest, CheckShare, Satisfied, Priced;
    if n > 0 {
      SharesCostMore(code, t, m, r, word, n - 1);
      assert Satisfied(code, word, n - 1);
      ShareOfCheck(code, t, m, r, word, n - 1);
    }
  }

  lemma NoCodewordIsCheaper(code: Code, t: Forest, llr: seq<real>, lean: seq<real>, m: seq<real>, r: seq<real>, word: seq<bool>, v: nat)
    requires code.WellFormed() && Hangs(code, t) && AtRest(code, t, llr, lean, m, r) && Codeword(code, word) && v < |word|
    ensures Cost(llr, word, |word|) >= RootFloor(t, lean, v, word[v], |lean|) + Ground(code, t, m, code.CheckCount())
  {
    CostIsShares(code, t, llr, lean, m, r, word);
    RootsCostMore(t, lean, word, v, |word|);
    hide Cost, RootCost, Shares, Ground, RootFloor, Priced, Codeword, Hangs;
    SharesCostMore(code, t, m, r, word, code.CheckCount());
  }

  // ---------------------------------------------------------------- one that costs no more

  /** The cheapest lower bits of check c when its upper bit is `bit`. */
  ghost function BestBelow(code: Code, t: Forest, m: seq<real>, c: nat, bit: bool): (pick: seq<bool>)
    requires code.WellFormed() && Hangs(code, t) && |m| == |code.edges| && c < code.CheckCount()
    ensures Attains(m, code.offsets[c], code.offsets[c + 1], t.top[c], bit, pick)
  {
    var lo, hi := code.offsets[c], code.offsets[c + 1];
    assert exists pick :: Attains(m, lo, hi, t.top[c], bit, pick) by {
      var pick := CheapestIsLeast(m, lo, hi, t.top[c], bit);
    }
    var pick :| Attains(m, lo, hi, t.top[c], bit, pick);
    pick
  }

  function Highest(height: seq<nat>): (h: nat)
    ensures forall i | 0 <= i < |height| :: height[i] <= h
  {
    if height == [] then 0
    else
      var rest := Highest(height[..|height| - 1]);
      if height[|height| - 1] > rest then height[|height| - 1] else rest
  }

  /** Bit u of the cheapest word with bit v given, from the roots down. */
  ghost function BestBit(code: Code, t: Forest, lean: seq<real>, m: seq<real>, v: nat, bit: bool, u: nat): bool
    requires code.WellFormed() && Hangs(code, t) && |lean| == code.variableCount && |m| == |code.edges| && u < code.variableCount
    decreases Highest(t.height) - t.height[u]
  {
    if t.up[u].None? then (if u == v then bit else lean[u] < 0.0)
    else
      var e := t.up[u].value;
      var c := RowOf(code, e);
      BestBelow(code, t, m, c, BestBit(code, t, lean, m, v, bit, code.edges[t.top[c]]))[e]
  }

  ghost function BestWord(code: Code, t: Forest, lean: seq<real>, m: seq<real>, v: nat, bit: bool): (word: seq<bool>)
    requires code.WellFormed() && Hangs(code, t) && |lean| == code.variableCount && |m| == |code.edges|
    ensures |word| == code.variableCount
  {
    seq(code.variableCount, u requires 0 <= u < code.variableCount => BestBit(code, t, lean, m, v, bit, u))
  }

  lemma BestBelowTaken(code: Code, t: Forest, lean: seq<real>, m: seq<real>, v: nat, bit: bool, c: nat, e: nat)
    requires code.WellFormed() && Hangs(code, t) && |lean| == code.variableCount && |m| == |code.edges| && code.InRow(c, e) && e != t.top[c]
    ensures var word := BestWord(code, t, lean, m, v, bit);
      OnEdges(code, word)[e] == BestBelow(code, t, m, c, word[code.edges[t.top[c]]])[e]
  {
    RowUnique(code, c, RowOf(code, e), e);
    hide BestBelow;
  }

  lemma BestShare(code: Code, t: Forest, lean: seq<real>, m: seq<real>, r: seq<real>, v: nat, bit: bool, c: nat)
    requires code.WellFormed() && Hangs(code, t) && |lean| == code.variableCount && |m| == |r| == |code.edges| && c < code.CheckCount()
    requires Priced(code, m, r, c, t.top[c])
    ensures var word := BestWord(code, t, lean, m, v, bit);
      && Satisfied(code, word, c)
      && CheckShare(code, t, m, r, word, c) == Cheapest(m, code.offsets[c], code.offsets[c + 1], t.top[c], false)
  {
    var word := BestWord(code, t, lean, m, v, bit);
    var lo, hi, top := code.offsets[c], code.offsets[c + 1], t.top[c];
    var best := BestBelow(code, t, m, c, word[code.edges[top]]);
    forall e | lo <= e < hi && e != top ensures OnEdges(code, word)[e] == best[e] {
      assert code.InRow(c, e);
      BestBelowTaken(code, t, lean, m, v, bit, c, e);
    }
    hide BestWord, BestBelow, Chosen, Odd, OnEdges, Cheapest, Hangs;
    ChosenLocal(m, OnEdges(code, word), best, lo, hi, top);
    OddOnEdges(code, word, lo, hi, top);
  }

  lemma {:induction false} BestShares(code: Code, t: Forest, lean: seq<real>, m: seq<real>, r: seq<real>, v: nat, bit: bool, n: nat)
    requires code.WellFormed() && Hangs(code, t) && |lean| == code.variableCount && |m| == |r| == |code.edges| && n <= code.CheckCount()
    requires forall c | 0 <= c < code.CheckCount() :: Priced(code, m, r, c, t.top[c])
    ensures Shares(code, t, m, r, BestWord(code, t, lean, m, v, bit), n) == Ground(code, t, m, n)
  {
    hide BestWord, Cheapest, CheckShare, Satisfied, Priced;
    if n > 0 {
      BestShares(code, t, lean, m, r, v, bit, n - 1);
      BestShare(code, t, lean, m, r, v, bit, n - 1);
    }
  }

  lemma {:induction false} BestRoots(code: Code, t: Forest, lean: seq<real>, m: seq<real>, v: nat, bit: bool, n: nat)
    requires code.WellFormed() && Hangs(code, t) && n <= |lean| == code.variableCount && |m| == |code.edges|
    ensures RootCost(t, lean, BestWord(code, t, lean, m, v, bit), n) == RootFloor(t, lean, v, bit, n)
  {
    hide BestBelow;
    if n > 0 {
      BestRoots(code, t, lean, m, v, bit, n - 1);
    }
  }

  /** The word built from the roots down is a codeword and costs the least possible. */
  lemma BestWordIsBest(code: Code, t: Forest, llr: seq<real>, lean: seq<real>, m: seq<real>, r: seq<real>, v: nat, bit: bool)
    requires code.WellFormed() && Hangs(code, t) && AtRest(code, t, llr, lean, m, r) && v < code.variableCount && t.up[v].None?
    ensures var word := BestWord(code, t, lean, m, v, bit);
      && Codeword(code, word) && word[v] == bit
      && Cost(llr, word, |word|) == RootFloor(t, lean, v, bit, |lean|) + Ground(code, t, m, code.CheckCount())
  {
    var word := BestWord(code, t, lean, m, v, bit);
    CostIsShares(code, t, llr, lean, m, r, word);
    BestRoots(code, t, lean, m, v, bit, |word|);
    BestShares(code, t, lean, m, r, v, bit, code.CheckCount());
    assert word[v] == bit;
    hide BestWord, Cost, RootCost, Shares, Ground, RootFloor, Priced, Satisfied;
    forall c | 0 <= c < code.CheckCount() ensures Satisfied(code, word, c) {
      BestShare(code, t, lean, m, r, v, bit, c);
    }
  }

  lemma {:induction false} FloorDiffers(t: Forest, lean: seq<real>, v: nat, n: nat)
    requires n <= |lean| == |t.up| && v < |lean| && t.up[v].None?
    ensures RootFloor(t, lean, v, true, n) == RootFloor(t, lean, v, false, n) + if v < n then lean[v] else 0.0
  {
    if n > 0 {
      FloorDiffers(t, lean, v, n - 1);
    }
  }

  /** x is the least cost of a codeword whose bit v is `bit`. */
  ghost predicate LeastCost(code: Code, llr: seq<real>, v: nat, bit: bool, x: real)
    requires code.WellFormed() && |llr| == code.variableCount && v < code.variableCount
  {
    && (exists word: seq<bool> :: Codeword(code, word) && word[v] == bit && Cost(llr, word, |word|) == x)
    && forall word: seq<bool> | Codeword(code, word) && word[v] == bit :: Cost(llr, word, |word|) >= x
  }

  lemma RestingPrice(code: Code, t: Forest, llr: seq<real>, lean: seq<real>, m: seq<real>, r: seq<real>, v: nat) returns (zero: real, one: real)
    requires code.WellFormed() && Hangs(code, t) && AtRest(code, t, llr, lean, m, r) && v < code.variableCount && t.up[v].None?
    ensures LeastCost(code, llr, v, false, zero) && LeastCost(code, llr, v, true, one) && lean[v] == one - zero
  {
    hide Hangs, AtRest, BestWord, Satisfied, Cost, RootFloor, Ground;
    RestSizes(code, t, llr, lean, m, r);
    zero := RootFloor(t, lean, v, false, |lean|) + Ground(code, t, m, code.CheckCount());
    one := RootFloor(t, lean, v, true, |lean|) + Ground(code, t, m, code.CheckCount());
    FloorDiffers(t, lean, v, |lean|);
    BestWordIsBest(code, t, llr, lean, m, r, v, false);
    BestWordIsBest(code, t, llr, lean, m, r, v, true);
    forall word: seq<bool> | Codeword(code, word) ensures Cost(llr, word, |word|) >= if word[v] then one else zero {
      NoCodewordIsCheaper(code, t, llr, lean, m, r, word, v);
    }
  }

  lemma RestSizes(code: Code, t: Forest, llr: seq<real>, lean: seq<real>, m: seq<real>, r: seq<real>)
    requires code.WellFormed() && Hangs(code, t) && AtRest(code, t, llr, lean, m, r)
    ensures |llr| == |lean| == code.variableCount == |t.up| && |m| == |r| == |code.edges|
  {}

  // ---------------------------------------------------------------- the messages come to rest

  lemma {:induction false} OthersLocal(m: seq<real>, n: seq<real>, lo: nat, hi: nat, target: nat)
    requires lo <= hi <= |m| == |n| && forall i | lo <= i < hi && i != target :: m[i] == n[i]
    ensures MinAbs(m, lo, hi, target) == MinAbs(n, lo, hi, target) && Negative(m, lo, hi, target) == Negative(n, lo, hi, target)
    decreases hi - lo
  {
    if lo < hi {
      OthersLocal(m, n, lo, hi - 1, target);
    }
  }

  lemma {:induction false} HeardAlike(edges: seq<nat>, r: seq<real>, s: seq<real>, v: nat, skip: Option<nat>, n: nat)
    requires n <= |edges| == |r| == |s| && forall f | 0 <= f < n && edges[f] == v && skip != Some(f) :: r[f] == s[f]
    ensures FromOthers(edges, r, v, skip, n) == FromOthers(edges, s, v, skip, n)
  {
    if n > 0 {
      HeardAlike(edges, r, s, v, skip, n - 1);
    }
  }

  lemma {:induction false} HeardNothing(edges: seq<nat>, r: seq<real>, v: nat, skip: Option<nat>, n: nat)
    requires n <= |edges| == |r| && forall f | 0 <= f < n && edges[f] == v :: skip == Some(f)
    ensures FromOthers(edges, r, v, skip, n) == 0.0
  {
    if n > 0 {
      HeardNothing(edges, r, v, skip, n - 1);
    }
  }

  /** An edge of v other than the one it hangs by is the one its check hangs by. */
  lemma OtherEdgeIsTop(code: Code, t: Forest, v: nat, f: nat)
    requires code.WellFormed() && Hangs(code, t) && f < |code.edges| && code.edges[f] == v && t.up[v] != Some(f)
    ensures t.top[RowOf(code, f)] == f
  {}

  /** Every check has an edge below the one it hangs by. */
  lemma SomeLower(code: Code, t: Forest, c: nat)
    requires code.WellFormed() && Hangs(code, t) && c < code.CheckCount()
    ensures t.height[code.edges[t.top[c]]] > 0
  {
    var lo := code.offsets[c];
    assert code.InRow(c, lo) && code.InRow(c, lo + 1);
    assert lo != t.top[c] || lo + 1 != t.top[c];
  }

  /** What a check answers upwards stands still once the messages from below do. */
  lemma AnswerStands(code: Code, t: Forest, m: seq<real>, n: seq<real>, c: nat)
    requires code.WellFormed() && Hangs(code, t) && |m| == |n| == |code.edges| && c < code.CheckCount()
    requires forall e: nat | code.InRow(c, e) && e != t.top[c] :: m[e] == n[e]
    ensures CheckPass(code, 1.0, m)[t.top[c]] == CheckPass(code, 1.0, n)[t.top[c]]
  {
    var lo, hi, top := code.offsets[c], code.offsets[c + 1], t.top[c];
    CheckPassAt(code, 1.0, m, c, top);
    CheckPassAt(code, 1.0, n, c, top);
    hide CheckPass, Hangs;
    forall i | lo <= i < hi && i != top ensures m[i] == n[i] {
      assert code.InRow(c, i);
    }
    OthersLocal(m, n, lo, hi, top);
  }

  /** After as many rounds as its height the message upwards of a variable stands still. */
  lemma {:induction false} MessageStands(code: Code, t: Forest, llr: seq<real>, k: nat, v: nat)
    requires code.WellFormed() && Hangs(code, t) && |llr| == code.variableCount && v < code.variableCount && t.up[v].Some?
    requires t.height[v] <= k
    ensures t.up[v].value < |code.edges| && Messages(code, llr, 1.0, k)[t.up[v].value] == Messages(code, llr, 1.0, k + 1)[t.up[v].value]
    decreases k
  {
    hide Messages, CheckPass, FromOthers;
    var e := t.up[v].value;
    assert e < |code.edges| && code.edges[e] == v;
    NextMessage(code, llr, 1.0, k, e);
    if k == 0 {
      FirstMessage(code, llr, e);
      LeafHearsNothing(code, t, CheckPass(code, 1.0, Messages(code, llr, 1.0, 0)), v);
    } else {
      NextMessage(code, llr, 1.0, k - 1, e);
      var r, s := CheckPass(code, 1.0, Messages(code, llr, 1.0, k - 1)), CheckPass(code, 1.0, Messages(code, llr, 1.0, k));
      forall f | 0 <= f < |code.edges| && code.edges[f] == v && Some(e) != Some(f) ensures r[f] == s[f] {
        BelowStands(code, t, llr, k, v, f);
      }
      hide Hangs;
      HeardAlike(code.edges, r, s, v, Some(e), |code.edges|);
    }
  }

  lemma FirstMessage(code: Code, llr: seq<real>, e: nat)
    requires code.WellFormed() && |llr| == code.variableCount && e < |code.edges|
    ensures Messages(code, llr, 1.0, 0)[e] == llr[code.edges[e]]
  {}

  /** A variable of height zero has no other edge. */
  lemma LeafHearsNothing(code: Code, t: Forest, r: seq<real>, v: nat)
    requires code.WellFormed() && Hangs(code, t) && |r| == |code.edges| && v < code.variableCount && t.up[v].Some? && t.height[v] == 0
    ensures FromOthers(code.edges, r, v, t.up[v], |r|) == 0.0
  {
    forall f | 0 <= f < |code.edges| && code.edges[f] == v ensures t.up[v] == Some(f) {
      if t.up[v] != Some(f) {
        OtherEdgeIsTop(code, t, v, f);
        SomeLower(code, t, RowOf(code, f));
      }
    }
    HeardNothing(code.edges, r, v, t.up[v], |r|);
  }

  lemma {:induction false} BelowStands(code: Code, t: Forest, llr: seq<real>, k: nat, v: nat, f: nat)
    requires code.WellFormed() && Hangs(code, t) && |llr| == code.variableCount && v < code.variableCount
    requires 0 < k && t.height[v] <= k && f < |code.edges| && code.edges[f] == v && t.up[v] != Some(f)
    ensures CheckPass(code, 1.0, Messages(code, llr, 1.0, k - 1))[f] == CheckPass(code, 1.0, Messages(code, llr, 1.0, k))[f]
    decreases k, 0
  {
    hide Messages, CheckPass;
    var c := RowOf(code, f);
    OtherEdgeIsTop(code, t, v, f);
    var m, n := Messages(code, llr, 1.0, k - 1), Messages(code, llr, 1.0, k);
    forall g: nat | code.InRow(c, g) && g != f ensures m[g] == n[g] {
      MessageStands(code, t, llr, k - 1, code.edges[g]);
    }
    AnswerStands(code, t, m, n, c);
  }

  /** Messages upwards, posteriors at the roots. */
  function Lean(code: Code, t: Forest, llr: seq<real>, k: nat): (lean: seq<real>)
    requires code.WellFormed() && Hangs(code, t) && |llr| == code.variableCount
    ensures |lean| == code.variableCount
  {
    seq(code.variableCount, v requires 0 <= v < code.variableCount =>
      if t.up[v].Some? then Messages(code, llr, 1.0, k)[t.up[v].value] else Posterior(code, llr, 1.0, k)[v])
  }

  /** No variable that hangs from a check is higher than k. */
  ghost predicate Within(t: Forest, k: nat) {
    |t.up| == |t.height| && forall v | 0 <= v < |t.up| && t.up[v].Some? :: t.height[v] <= k
  }

  lemma ComesToRest(code: Code, t: Forest, llr: seq<real>, k: nat)
    requires code.WellFormed() && Hangs(code, t) && |llr| == code.variableCount && Within(t, k)
    ensures AtRest(code, t, llr, Lean(code, t, llr, k), Messages(code, llr, 1.0, k), CheckPass(code, 1.0, Messages(code, llr, 1.0, k)))
  {
    hide Messages, CheckPass, Posterior, FromOthers, Cheapest;
    var lean, m := Lean(code, t, llr, k), Messages(code, llr, 1.0, k);
    var r := CheckPass(code, 1.0, m);
    forall v | 0 <= v < code.variableCount ensures lean[v] == llr[v] + FromOthers(code.edges, r, v, t.up[v], |r|) {
      if t.up[v].Some? {
        MessageStands(code, t, llr, k, v);
        NextMessage(code, llr, 1.0, k, t.up[v].value);
      } else {
        PosteriorHearsAll(code, llr, 1.0, k, v);
      }
    }
    forall c | 0 <= c < code.CheckCount() ensures Priced(code, m, r, c, t.top[c]) {
      CheckPassAt(code, 1.0, m, c, t.top[c]);
      AnswerIsPrice(m, code.offsets[c], code.offsets[c + 1], t.top[c]);
    }
  }

  // ---------------------------------------------------------------- exactness

  /**
   With normalization 1, once the graph hangs from bit v and k rounds have reached every
   height, the posterior of v is the price of a one: the least cost of all codewords
   with bit v one minus the least cost of all with bit v zero.
   */
  lemma PosteriorIsPrice(code: Code, t: Forest, llr: seq<real>, k: nat, v: nat) returns (zero: real, one: real)
    requires code.WellFormed() && Hangs(code, t) && |llr| == code.variableCount && v < code.variableCount
    requires t.up[v].None? && Within(t, k)
    ensures LeastCost(code, llr, v, false, zero) && LeastCost(code, llr, v, true, one)
    ensures Posterior(code, llr, 1.0, k)[v] == one - zero
  {
    ComesToRest(code, t, llr, k);
    var m := Messages(code, llr, 1.0, k);
    assert Lean(code, t, llr, k)[v] == Posterior(code, llr, 1.0, k)[v];
    hide Hangs, AtRest, Messages, CheckPass, Posterior, Lean, LeastCost;
    zero, one := RestingPrice(code, t, llr, Lean(code, t, llr, k), m, CheckPass(code, 1.0, m), v);
  }

  /** The graph has no cycle: it hangs from every bit, and no deeper than k. */
  ghost predicate CycleFree(code: Code, k: nat)
    requires code.WellFormed()
  {
    forall v | 0 <= v < code.variableCount :: CanHang(code, v, k)
  }

  ghost predicate CanHang(code: Code, v: nat, k: nat)
    requires code.WellFormed() && v < code.variableCount
  {
    exists t: Forest :: HangsFrom(code, t, v, k)
  }

  ghost predicate HangsFrom(code: Code, t: Forest, v: nat, k: nat)
    requires code.WellFormed() && v < code.variableCount
  {
    Hangs(code, t) && t.up[v].None? && Within(t, k)
  }

  /** Every other codeword costs more. */
  ghost predicate OnlyBest(code: Code, llr: seq<real>, word: seq<bool>)
    requires code.WellFormed() && |llr| == code.variableCount
  {
    Codeword(code, word) && forall other: seq<bool> | Codeword(code, other) && other != word :: Cost(llr, other, |other|) > Cost(llr, word, |word|)
  }

  lemma BestBitWins(code: Code, llr: seq<real>, word: seq<bool>, v: nat, zero: real, one: real)
    requires code.WellFormed() && |llr| == code.variableCount && OnlyBest(code, llr, word) && v < |word|
    requires LeastCost(code, llr, v, false, zero) && LeastCost(code, llr, v, true, one)
    ensures word[v] <==> one - zero < 0.0
  {
    hide Cost, Satisfied;
    var a: seq<bool> :| Codeword(code, a) && a[v] == false && Cost(llr, a, |a|) == zero;
    var b: seq<bool> :| Codeword(code, b) && b[v] == true && Cost(llr, b, |b|) == one;
  }

  lemma CodewordSize(code: Code, word: seq<bool>)
    requires code.WellFormed() && Codeword(code, word)
    ensures |word| == code.variableCount
  {}

  /**
   On a code without cycles min-sum decoding is maximum likelihood: when one codeword
   costs less than all others, the decisions of round k + 1 are that codeword, and a
   run with that many rounds converges.
   */
  lemma DecidesTheBestCodeword(code: Code, llr: seq<real>, k: nat, limit: nat, word: seq<bool>)
    requires code.WellFormed() && |llr| == code.variableCount && CycleFree(code, k) && OnlyBest(code, llr, word) && k < limit
    ensures Hard(Posterior(code, llr, 1.0, k)) == word
    ensures Decode(code, llr, 1.0, limit).converged && Decode(code, llr, 1.0, limit).iterations <= k + 1
  {
    CodewordSize(code, word);
    hide Posterior, Hangs, Within, LeastCost, OnlyBest, Codeword, Run;
    forall v | 0 <= v < code.variableCount ensures Hard(Posterior(code, llr, 1.0, k))[v] == word[v] {
      assert CanHang(code, v, k);
      var t: Forest :| HangsFrom(code, t, v, k);
      var zero, one := PosteriorIsPrice(code, t, llr, k, v);
      BestBitWins(code, llr, word, v, zero, one);
    }
    assert Hard(Posterior(code, llr, 1.0, k)) == word;
    BestIsCodeword(code, llr, word);
    RunStopsBy(code, llr, 1.0, limit, 0, k);
  }

  lemma BestIsCodeword(code: Code, llr: seq<real>, word: seq<bool>)
    requires code.WellFormed() && |llr| == code.variableCount && OnlyBest(code, llr, word)
    ensures Codeword(code, word)
  {}

  /** Two checks in a row, over three bits: as cycle-free as a code can be. */
  function Chain(): (code: Code)
    ensures code.WellFormed()
  {
    Code(3, 1, [0, 2, 4], [0, 1, 1, 2], [])
  }

  lemma ChainEdges()
    ensures Chain().CheckCount() == 2 && Chain().variableCount == 3 && Chain().edges == [0, 1, 1, 2]
    ensures forall c: nat, e: nat :: Chain().InRow(c, e) <==> (c == 0 && e < 2) || (c == 1 && 2 <= e < 4)
  {}

  lemma ChainHangsFrom(t: Forest, v: nat)
    requires v < 3
    requires t == if v == 0 then Forest([0, 2], [None, Some(1), Some(3)], [2, 1, 0])
                  else if v == 1 then Forest([1, 2], [Some(0), None, Some(3)], [0, 1, 0])
                  else Forest([1, 3], [Some(0), Some(2), None], [0, 1, 2])
    ensures HangsFrom(Chain(), t, v, 1)
  {
    ChainEdges();
    hide Chain, Code.InRow;
  }

  lemma ChainHangs()
    ensures CycleFree(Chain(), 1)
  {
    hide HangsFrom;
    forall v: nat | v < 3 ensures CanHang(Chain(), v, 1) {
      var t := if v == 0 then Forest([0, 2], [None, Some(1), Some(3)], [2, 1, 0])
               else if v == 1 then Forest([1, 2], [Some(0), None, Some(3)], [0, 1, 0])
               else Forest([1, 3], [Some(0), Some(2), None], [0, 1, 2]);
      ChainHangsFrom(t, v);
    }
  }
}
