/**
 `weakest_blocks_first` of src/fec/fec.c: a stable in-place insertion sort of the
 block indices by the confidence of their received values.
 */
module BlockOrder {
  import opened Numbers
  import opened Signs

  /** Sum of the magnitudes of the first n values from `base` on. */
  function Confidence(llr: seq<real>, base: nat, n: nat): real
    requires base + n <= |llr|
  {
    if n == 0 then 0.0 else Confidence(llr, base, n - 1) + Abs(llr[base + n - 1])
  }

  /** How well the first n values from `base` on agree with a word: each counts for its bit or against it. */
  function Agreement(llr: seq<real>, word: seq<bool>, base: nat, n: nat): real
    requires base + n <= |llr| && n <= |word|
  {
    if n == 0 then 0.0 else Agreement(llr, word, base, n - 1) + Signed(llr[base + n - 1], word[n - 1])
  }

  /** Confidence is the best agreement that any word reaches, and the hard decisions reach it. */
  lemma {:induction false} ConfidenceIsBestAgreement(llr: seq<real>, word: seq<bool>, base: nat, n: nat)
    requires base + n <= |llr| && n <= |word|
    ensures Agreement(llr, word, base, n) <= Confidence(llr, base, n)
    ensures (forall i | 0 <= i < n :: word[i] == (llr[base + i] < 0.0)) ==> Agreement(llr, word, base, n) == Confidence(llr, base, n)
  {
    if n > 0 {
      ConfidenceIsBestAgreement(llr, word, base, n - 1);
    }
  }

  function Insert(key: seq<real>, x: nat, s: seq<nat>): seq<nat>
    requires x < |key| && forall i | 0 <= i < |s| :: s[i] < |key|
  {
    var n := |s|;
    if n == 0 || key[s[n - 1]] <= key[x] then s + [x] else Insert(key, x, s[..n - 1]) + [s[n - 1]]
  }

  /** Blocks 0..n in increasing order of their key, equal keys in block order. */
  function Order(key: seq<real>, n: nat): (s: seq<nat>)
    requires n <= |key|
    ensures |s| == n && forall i | 0 <= i < n :: s[i] < n
  {
    if n == 0 then []
    else
      InsertKeeps(key, n - 1, Order(key, n - 1), n);
      Insert(key, n - 1, Order(key, n - 1))
  }

  lemma {:induction false} InsertKeeps(key: seq<real>, x: nat, s: seq<nat>, bound: nat)
    requires x < |key| && x < bound && forall i | 0 <= i < |s| :: s[i] < |key| && s[i] < bound
    ensures |Insert(key, x, s)| == |s| + 1 && forall i | 0 <= i <= |s| :: Insert(key, x, s)[i] < bound
    ensures x in Insert(key, x, s) && forall b | b in s :: b in Insert(key, x, s)
  {
    var n := |s|;
    if n > 0 && !(key[s[n - 1]] <= key[x]) {
      InsertKeeps(key, x, s[..n - 1], bound);
      assert s == s[..n - 1] + [s[n - 1]];
    }
  }

  /** Every block is visited. */
  lemma {:induction false} OrderCovers(key: seq<real>, n: nat)
    requires n <= |key|
    ensures forall b | 0 <= b < n :: b in Order(key, n)
  {
    if n > 0 {
      OrderCovers(key, n - 1);
      InsertKeeps(key, n - 1, Order(key, n - 1), n);
    }
  }

  /** a may be visited before b. */
  predicate Before(key: seq<real>, a: nat, b: nat)
    requires a < |key| && b < |key|
  {
    key[a] < key[b] || (key[a] == key[b] && a < b)
  }

  ghost predicate StablySorted(key: seq<real>, s: seq<nat>) {
    (forall i | 0 <= i < |s| :: s[i] < |key|) && forall i, j | 0 <= i < j < |s| :: Before(key, s[i], s[j])
  }

  lemma {:induction false} InsertSorted(key: seq<real>, x: nat, s: seq<nat>)
    requires x < |key| && StablySorted(key, s) && forall i | 0 <= i < |s| :: s[i] < x
    ensures |Insert(key, x, s)| == |s| + 1 && StablySorted(key, Insert(key, x, s))
    ensures forall i | 0 <= i <= |s| :: Insert(key, x, s)[i] == x || Insert(key, x, s)[i] in s
  {
    var n := |s|;
    if n > 0 && !(key[s[n - 1]] <= key[x]) {
      var rest, last := s[..n - 1], s[n - 1];
      InsertSorted(key, x, rest);
      var r := Insert(key, x, rest);
      forall i | 0 <= i < n ensures Before(key, r[i], last) {
        if r[i] != x {
          var j :| 0 <= j < |rest| && rest[j] == r[i];
          assert Before(key, s[j], s[n - 1]);
        }
      }
    }
  }

  /** The order is the strict lexicographic one on (confidence, block), which leaves no freedom. */
  lemma {:induction false} OrderStablySorted(key: seq<real>, n: nat)
    requires n <= |key|
    ensures StablySorted(key, Order(key, n))
  {
    if n > 0 {
      OrderStablySorted(key, n - 1);
      InsertSorted(key, n - 1, Order(key, n - 1));
    }
  }

  /** Sum of f over the listed blocks. */
  function Total(f: seq<nat>, s: seq<nat>): nat
    requires forall i | 0 <= i < |s| :: s[i] < |f|
  {
    if |s| == 0 then 0 else Total(f, s[..|s| - 1]) + f[s[|s| - 1]]
  }

  function SumTo(f: seq<nat>, n: nat): nat
    requires n <= |f|
  {
    if n == 0 then 0 else SumTo(f, n - 1) + f[n - 1]
  }

  lemma {:induction false} InsertTotal(key: seq<real>, f: seq<nat>, x: nat, s: seq<nat>)
    requires x < |key| == |f| && forall i | 0 <= i < |s| :: s[i] < |key|
    ensures forall i | 0 <= i < |Insert(key, x, s)| :: Insert(key, x, s)[i] < |f|
    ensures Total(f, Insert(key, x, s)) == Total(f, s) + f[x]
  {
    var n := |s|;
    InsertKeeps(key, x, s, |f|);
    if n > 0 && !(key[s[n - 1]] <= key[x]) {
      InsertTotal(key, f, x, s[..n - 1]);
      var r := Insert(key, x, s[..n - 1]);
      assert (r + [s[n - 1]])[..|r|] == r;
    } else {
      assert (s + [x])[..n] == s;
    }
  }

  /** Sums over the visiting order are sums over the blocks. */
  lemma {:induction false} OrderTotal(key: seq<real>, f: seq<nat>, n: nat)
    requires n <= |key| == |f|
    ensures Total(f, Order(key, n)) == SumTo(f, n)
  {
    if n > 0 {
      OrderTotal(key, f, n - 1);
      InsertTotal(key, f, n - 1, Order(key, n - 1));
    }
  }

  // ---------------------------------------------------------------- the in-place sort

  function Keys(llr: seq<real>, count: nat, bits: nat): (key: seq<real>)
    requires count * bits <= |llr|
    ensures |key| == count
  {
    seq(count, b requires 0 <= b < count =>
      BlockInside(b, count, bits);
      Confidence(llr, b * bits, bits))
  }

  lemma BlockInside(b: nat, count: nat, bits: nat)
    requires b < count
    ensures b * bits + bits <= count * bits
  {
    assert count * bits == (b + 1) * bits + (count - (b + 1)) * bits;
    assert (count - (b + 1)) * bits >= 0;
  }

  method BlockConfidence(llr: seq<real>, base: nat, bits: nat) returns (sum: real)
    requires base + bits <= |llr|
    ensures sum == Confidence(llr, base, bits)
  {
    sum := 0.0;
    for bit := 0 to bits
      invariant sum == Confidence(llr, base, bit)
    {
      sum := sum + Abs(llr[base + bit]);
    }
  }

  method WeakestBlocksFirst(llr: seq<real>, count: nat, bits: nat, order: array<nat>)
    requires count * bits <= |llr| && count <= order.Length
    modifies order
    ensures order[..count] == Order(Keys(llr, count, bits), count)
  {
    var confidence := new real[count];
    for block := 0 to count
      invariant order[..block] == seq(block, i => i)
      invariant confidence[..block] == Keys(llr, count, bits)[..block]
    {
      BlockInside(block, count, bits);
      order[block] := block;
      confidence[block] := BlockConfidence(llr, block * bits, bits);
    }
    ghost var key := Keys(llr, count, bits);
    assert confidence[..] == key;
    var block := 1;
    assert count > 0 ==> order[..1] == Order(key, 1);
    while block < count
      invariant 1 <= block && (count > 0 ==> block <= count)
      invariant confidence[..] == key
      invariant count > 0 ==> order[..block] == Order(key, block)
      invariant forall i | block <= i < count :: order[i] == i
    {
      InsertInPlace(confidence[..], order, block);
      block := block + 1;
    }
    if count == 0 {
      assert order[..0] == Order(key, 0);
    }
  }

  lemma InsertSplit(key: seq<real>, x: nat, s: seq<nat>, n: nat)
    requires x < |key| && n <= |s| && (forall i | 0 <= i < |s| :: s[i] < |key|)
    requires forall i | n <= i < |s| :: key[s[i]] > key[x]
    ensures Insert(key, x, s) == Insert(key, x, s[..n]) + s[n..]
    decreases |s|
  {
    if n == |s| {
      assert s[..n] == s;
    } else {
      var rest := s[..|s| - 1];
      InsertSplit(key, x, rest, n);
      assert rest[..n] == s[..n] && s[n..] == rest[n..] + [s[|s| - 1]];
    }
  }

  /** One round: shifts larger entries of the sorted prefix up and drops block `at` into the gap. */
  method InsertInPlace(key: seq<real>, order: array<nat>, at: nat)
    requires at < |key| && at < order.Length
    requires order[..at] == Order(key, at) && order[at] == at
    modifies order
    ensures order[..at + 1] == Order(key, at + 1)
    ensures forall i | at < i < order.Length :: order[i] == old(order[i])
  {
    hide Order, Insert;
    ghost var s := Order(key, at);
    var position := at;
    while position > 0 && key[order[position - 1]] > key[at]
      invariant 0 <= position <= at
      invariant forall i | 0 <= i < position :: order[i] == s[i]
      invariant forall i | position < i <= at :: order[i] == s[i - 1]
      invariant forall i | position <= i < at :: key[s[i]] > key[at]
      invariant forall i | at < i < order.Length :: order[i] == old(order[i])
    {
      order[position] := order[position - 1];
      position := position - 1;
    }
    order[position] := at;
    OrderStep(key, at, position);
    assert order[..at + 1] == s[..position] + [at] + s[position..];
  }

  lemma OrderStep(key: seq<real>, at: nat, n: nat)
    requires at < |key| && n <= at
    requires n > 0 ==> key[Order(key, at)[n - 1]] <= key[at]
    requires forall i | n <= i < at :: key[Order(key, at)[i]] > key[at]
    ensures Order(key, at + 1) == Order(key, at)[..n] + [at] + Order(key, at)[n..]
  {
    InsertSplit(key, at, Order(key, at), n);
  }
}
