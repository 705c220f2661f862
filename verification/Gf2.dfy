/**
 The GF(2) Gauss-Jordan elimination of tools/generate_ldpc_table.py.  A Python
 integer used as a bit mask is a row of bits here: `left` rows are indexed by
 information column, `right` rows by parity column followed by the identity the
 generator appends.
 */
module Gf2 {
  import opened Bits
  import opened Ldpc

  ghost predicate Shaped(left: seq<seq<bool>>, right: seq<seq<bool>>, k: nat, m: nat) {
    |left| == |right| == m && forall i | 0 <= i < m :: |left[i]| == k && |right[i]| == 2 * m
  }

  /** Row i of the system: the information part equals the parity part. */
  predicate Holds(l: seq<bool>, r: seq<bool>, u: seq<bool>, p: seq<bool>)
    requires |l| == |u| && |r| == 2 * |p|
  {
    Dot(l, u, 0, |u|) == Dot(r, p, 0, |p|)
  }

  ghost predicate Solves(left: seq<seq<bool>>, right: seq<seq<bool>>, u: seq<bool>, p: seq<bool>)
    requires Shaped(left, right, |u|, |p|)
  {
    forall i | 0 <= i < |p| :: Holds(left[i], right[i], u, p)
  }

  ghost predicate SameSolutions(l: seq<seq<bool>>, r: seq<seq<bool>>, l': seq<seq<bool>>, r': seq<seq<bool>>, k: nat, m: nat)
    requires Shaped(l, r, k, m) && Shaped(l', r', k, m)
  {
    forall u: seq<bool>, p: seq<bool> | |u| == k && |p| == m :: Solves(l, r, u, p) <==> Solves(l', r', u, p)
  }

  /** Columns 0..c of the parity half are unit columns. */
  ghost predicate Reduced(right: seq<seq<bool>>, c: nat)
    requires c <= |right| && forall i | 0 <= i < |right| :: |right[i]| == 2 * |right|
  {
    forall i, j | 0 <= i < |right| && 0 <= j < c :: right[i][j] == (i == j)
  }

  lemma SwapKeepsSolutions(l: seq<seq<bool>>, r: seq<seq<bool>>, k: nat, m: nat, a: nat, b: nat)
    requires Shaped(l, r, k, m) && a < m && b < m
    ensures var l', r' := l[a := l[b]][b := l[a]], r[a := r[b]][b := r[a]];
            Shaped(l', r', k, m) && SameSolutions(l, r, l', r', k, m)
  {
    var l', r' := l[a := l[b]][b := l[a]], r[a := r[b]][b := r[a]];
    forall u: seq<bool>, p: seq<bool> | |u| == k && |p| == m ensures Solves(l, r, u, p) <==> Solves(l', r', u, p) {
      hide Holds;
      if Solves(l, r, u, p) {
        forall i | 0 <= i < m ensures Holds(l'[i], r'[i], u, p) {}
      }
      if Solves(l', r', u, p) {
        assert Holds(l'[a], r'[a], u, p) && Holds(l'[b], r'[b], u, p);
        forall i | 0 <= i < m ensures Holds(l[i], r[i], u, p) {
          assert i != a && i != b ==> Holds(l'[i], r'[i], u, p);
        }
      }
    }
  }

  lemma XorKeepsSolutions(l: seq<seq<bool>>, r: seq<seq<bool>>, k: nat, m: nat, c: nat, i: nat)
    requires Shaped(l, r, k, m) && c < m && i < m && i != c
    ensures var l', r' := l[i := Xor(l[i], l[c])], r[i := Xor(r[i], r[c])];
            Shaped(l', r', k, m) && SameSolutions(l, r, l', r', k, m)
  {
    var l', r' := l[i := Xor(l[i], l[c])], r[i := Xor(r[i], r[c])];
    forall u: seq<bool>, p: seq<bool> | |u| == k && |p| == m ensures Solves(l, r, u, p) <==> Solves(l', r', u, p) {
      DotXor(l[i], l[c], u, 0, k);
      DotXor(r[i], r[c], p, 0, m);
      hide Dot, Xor;
      assert Holds(l[c], r[c], u, p) ==> (Holds(l[i], r[i], u, p) <==> Holds(l'[i], r'[i], u, p));
      hide Holds;
      if Solves(l, r, u, p) {
        forall j | 0 <= j < m ensures Holds(l'[j], r'[j], u, p) {}
      }
      if Solves(l', r', u, p) {
        assert Holds(l'[c], r'[c], u, p) && Holds(l'[i], r'[i], u, p);
        forall j | 0 <= j < m ensures Holds(l[j], r[j], u, p) {
          assert j != i ==> Holds(l'[j], r'[j], u, p);
        }
      }
    }
  }

  // ---------------------------------------------------------------- elimination

  /** `next(index for index in range(column, parity_bits) if right[index] has column)`; None when it is exhausted. */
  method FindPivot(right: seq<seq<bool>>, column: nat) returns (pivot: Option<nat>)
    requires column < |right| && forall i | 0 <= i < |right| :: column < |right[i]|
    ensures pivot.Some? ==> column <= pivot.value < |right| && right[pivot.value][column]
    ensures pivot.None? ==> forall i | column <= i < |right| :: !right[i][column]
  {
    var index := column;
    while index < |right|
      invariant column <= index <= |right| && forall i | column <= i < index :: !right[i][column]
    {
      if right[index][column] {
        return Some(index);
      }
      index := index + 1;
    }
    return None;
  }

  /** Clears `column` from every row but the pivot row, which sits at index `column`. */
  method ClearColumn(left0: seq<seq<bool>>, right0: seq<seq<bool>>, column: nat, ghost k: nat)
    returns (left: seq<seq<bool>>, right: seq<seq<bool>>)
    requires Shaped(left0, right0, k, |right0|) && column < |right0|
    requires Reduced(right0, column) && right0[column][column]
    ensures Shaped(left, right, k, |right0|) && Reduced(right, column + 1)
    ensures SameSolutions(left0, right0, left, right, k, |right0|)
  {
    hide SameSolutions;
    ghost var m := |right0|;
    left, right := left0, right0;
    SameRefl(left, right, k, m);
    var row := 0;
    while row < |right0|
      invariant 0 <= row <= m && Shaped(left, right, k, m) && Reduced(right, column)
      invariant left[column] == left0[column] && right[column] == right0[column]
      invariant forall i | 0 <= i < row :: right[i][column] == (i == column)
      invariant SameSolutions(left0, right0, left, right, k, m)
    {
      if row != column && right[row][column] {
        XorKeepsSolutions(left, right, k, m, column, row);
        ghost var l, r := left, right;
        right := right[row := Xor(right[row], right[column])];
        left := left[row := Xor(left[row], left[column])];
        SameTrans(left0, right0, l, r, left, right, k, m);
      }
      row := row + 1;
    }
  }

  lemma SameRefl(l: seq<seq<bool>>, r: seq<seq<bool>>, k: nat, m: nat)
    requires Shaped(l, r, k, m)
    ensures SameSolutions(l, r, l, r, k, m)
  {}

  lemma SameTrans(l: seq<seq<bool>>, r: seq<seq<bool>>, l': seq<seq<bool>>, r': seq<seq<bool>>,
                  l'': seq<seq<bool>>, r'': seq<seq<bool>>, k: nat, m: nat)
    requires Shaped(l, r, k, m) && Shaped(l', r', k, m) && Shaped(l'', r'', k, m)
    requires SameSolutions(l, r, l', r', k, m) && SameSolutions(l', r', l'', r'', k, m)
    ensures SameSolutions(l, r, l'', r'', k, m)
  {
    forall u: seq<bool>, p: seq<bool> | |u| == k && |p| == m ensures Solves(l, r, u, p) <==> Solves(l'', r'', u, p) {
      assert Solves(l, r, u, p) <==> Solves(l', r', u, p);
    }
  }

  function Zeros(n: nat): (r: seq<bool>)
    ensures |r| == n
  {
    seq(n, i => false)
  }

  /** A nonzero parity word that satisfies every check together with the zero information word. */
  ghost predicate Kernel(left: seq<seq<bool>>, right: seq<seq<bool>>, k: nat, p: seq<bool>)
    requires Shaped(left, right, k, |p|)
  {
    Solves(left, right, Zeros(k), p) && exists i | 0 <= i < |p| :: p[i]
  }

  /**
   Gauss-Jordan over GF(2).  Success leaves left rows that express each parity bit
   by information bits alone, for exactly the solutions of the original system;
   it fails exactly when the parity half is singular.
   */
  method Eliminate(left0: seq<seq<bool>>, right0: seq<seq<bool>>, ghost k: nat) returns (masks: Option<seq<seq<bool>>>)
    requires Shaped(left0, right0, k, |right0|)
    ensures masks.None? <==> exists p: seq<bool> | |p| == |right0| :: Kernel(left0, right0, k, p)
    ensures masks.Some? ==> |masks.value| == |right0| && (forall i | 0 <= i < |right0| :: |masks.value[i]| == k)
    ensures masks.Some? ==> forall u: seq<bool>, p: seq<bool> | |u| == k && |p| == |right0| ::
              Solves(left0, right0, u, p) <==> p == Products(masks.value, u)
  {
    hide SameSolutions, Kernel;
    ghost var m := |right0|;
    var left, right := left0, right0;
    SameRefl(left, right, k, m);
    var column := 0;
    while column < |right0|
      invariant 0 <= column <= m && Shaped(left, right, k, m) && Reduced(right, column)
      invariant SameSolutions(left0, right0, left, right, k, m)
    {
      var pivot := FindPivot(right, column);
      if pivot.None? {
        ghost var p := SingularWitness(left, right, k, column);
        KernelTransfers(left0, right0, left, right, k, p);
        return None;
      }
      SwapKeepsSolutions(left, right, k, m, column, pivot.value);
      ghost var l, r := left, right;
      right := right[column := right[pivot.value]][pivot.value := right[column]];
      left := left[column := left[pivot.value]][pivot.value := left[column]];
      SameTrans(left0, right0, l, r, left, right, k, m);
      l, r := left, right;
      left, right := ClearColumn(left, right, column, k);
      SameTrans(left0, right0, l, r, left, right, k, m);
      column := column + 1;
    }
    masks := Some(left);
    ReducedSolutions(left0, right0, left, right, k);
  }

  // ---------------------------------------------------------------- what the end states mean

  /** Each row's product with u. */
  function Products(rows: seq<seq<bool>>, u: seq<bool>): (r: seq<bool>)
    requires forall i | 0 <= i < |rows| :: |rows[i]| == |u|
    ensures |r| == |rows|
  {
    seq(|rows|, i requires 0 <= i < |rows| => Dot(rows[i], u, 0, |u|))
  }

  lemma {:induction false} DotUnit(r: seq<bool>, p: seq<bool>, i: nat, n: nat)
    requires n <= |r| && n <= |p| && forall j | 0 <= j < n :: r[j] == (j == i)
    ensures Dot(r, p, 0, n) == (i < n && p[i])
  {
    if n > 0 {
      DotUnit(r, p, i, n - 1);
    }
  }

  lemma {:induction false} DotZero(l: seq<bool>, u: seq<bool>, lo: nat, n: nat)
    requires lo <= n <= |l| && n <= |u| && forall j | lo <= j < n :: !l[j] || !u[j]
    ensures !Dot(l, u, lo, n)
    decreases n - lo
  {
    if lo < n {
      DotZero(l, u, lo, n - 1);
    }
  }

  lemma ReducedRow(left: seq<seq<bool>>, right: seq<seq<bool>>, u: seq<bool>, p: seq<bool>, i: nat)
    requires Shaped(left, right, |u|, |p|) && Reduced(right, |p|) && i < |p|
    ensures Holds(left[i], right[i], u, p) <==> p[i] == Products(left, u)[i]
  {
    DotUnit(right[i], p, i, |p|);
  }

  lemma ReducedSystem(left: seq<seq<bool>>, right: seq<seq<bool>>, u: seq<bool>, p: seq<bool>)
    requires Shaped(left, right, |u|, |p|) && Reduced(right, |p|)
    ensures Solves(left, right, u, p) <==> p == Products(left, u)
  {
    hide Holds, Products;
    forall i | 0 <= i < |p| ensures Holds(left[i], right[i], u, p) <==> p[i] == Products(left, u)[i] {
      ReducedRow(left, right, u, p, i);
    }
  }

  lemma ReducedSolutions(l0: seq<seq<bool>>, r0: seq<seq<bool>>, left: seq<seq<bool>>, right: seq<seq<bool>>, k: nat)
    requires Shaped(l0, r0, k, |r0|) && Shaped(left, right, k, |r0|) && Reduced(right, |r0|)
    requires SameSolutions(l0, r0, left, right, k, |r0|)
    ensures forall u: seq<bool>, p: seq<bool> | |u| == k && |p| == |r0| :: Solves(l0, r0, u, p) <==> p == Products(left, u)
    ensures !exists p: seq<bool> | |p| == |r0| :: Kernel(l0, r0, k, p)
  {
    forall u: seq<bool>, p: seq<bool> | |u| == k && |p| == |r0|
      ensures Solves(l0, r0, u, p) <==> p == Products(left, u)
    {
      ReducedSystem(left, right, u, p);
      assert Solves(l0, r0, u, p) <==> Solves(left, right, u, p);
    }
    forall p: seq<bool> | |p| == |r0| ensures !Kernel(l0, r0, k, p) {
      assert Solves(l0, r0, Zeros(k), p) <==> p == Products(left, Zeros(k));
      forall i | 0 <= i < |p| ensures !Products(left, Zeros(k))[i] {
        DotZero(left[i], Zeros(k), 0, k);
      }
    }
  }

  lemma KernelTransfers(l0: seq<seq<bool>>, r0: seq<seq<bool>>, left: seq<seq<bool>>, right: seq<seq<bool>>, k: nat, p: seq<bool>)
    requires Shaped(l0, r0, k, |p|) && Shaped(left, right, k, |p|) && SameSolutions(l0, r0, left, right, k, |p|)
    requires Kernel(left, right, k, p)
    ensures Kernel(l0, r0, k, p)
  {
    assert Solves(l0, r0, Zeros(k), p) <==> Solves(left, right, Zeros(k), p);
  }

  /** A column without a pivot yields a kernel word: its own bit plus the rows that still carry it. */
  lemma SingularWitness(left: seq<seq<bool>>, right: seq<seq<bool>>, k: nat, c: nat) returns (p: seq<bool>)
    requires Shaped(left, right, k, |right|) && c < |right| && Reduced(right, c)
    requires forall i | c <= i < |right| :: !right[i][c]
    ensures |p| == |right| && Kernel(left, right, k, p)
  {
    var m := |right|;
    p := seq(m, j requires 0 <= j < m => if j < c then right[j][c] else j == c);
    forall i | 0 <= i < m ensures Holds(left[i], right[i], Zeros(k), p) {
      DotZero(left[i], Zeros(k), 0, k);
      DotUnit(right[i], p, i, c);
      DotSplit(right[i], p, 0, c + 1, m);
      DotZero(right[i], p, c + 1, m);
    }
    assert p[c];
  }
}
