/**
 The in-place pivoting Gauss-Jordan elimination `solve` of src/platform/tx_eq.c over
 the reals, on an n by n + 1 matrix. Each row operation skips the columns already
 reduced and still keeps the solutions of the original system.
 */
module LinearSolver {
  import opened Numbers

  type Matrix = seq<seq<real>>

  const TINY: real := 0.0000000001

  predicate Shaped(m: Matrix, n: nat) {
    |m| == n && forall r | 0 <= r < n :: |m[r]| == n + 1
  }

  /** The left-hand side of an equation, columns 0 .. n - 1. */
  function Dot(row: seq<real>, x: seq<real>, n: nat): real
    requires n <= |row| && n <= |x|
  {
    if n == 0 then 0.0 else Dot(row, x, n - 1) + row[n - 1] * x[n - 1]
  }

  predicate Holds(row: seq<real>, x: seq<real>) {
    |row| == |x| + 1 && Dot(row, x, |x|) == row[|x|]
  }

  predicate Solves(m: Matrix, x: seq<real>) {
    forall r | 0 <= r < |m| :: Holds(m[r], x)
  }

  /** The two systems have the same solutions. */
  ghost predicate SameSolutions(m: Matrix, k: Matrix, n: nat) {
    forall x: seq<real> | |x| == n :: Solves(m, x) <==> Solves(k, x)
  }

  // ---------------------------------------------------------------- row operations

  function Swapped(m: Matrix, i: nat, j: nat): Matrix
    requires i < |m| && j < |m|
  {
    m[i := m[j]][j := m[i]]
  }

  function Divided(row: seq<real>, d: real): (r: seq<real>)
    requires d != 0.0
    ensures |r| == |row|
  {
    seq(|row|, c requires 0 <= c < |row| => row[c] / d)
  }

  function Reduced(row: seq<real>, f: real, pivot: seq<real>): (r: seq<real>)
    requires |row| == |pivot|
    ensures |r| == |row|
  {
    seq(|row|, c requires 0 <= c < |row| => row[c] - f * pivot[c])
  }

  lemma SwapKeeps(m: Matrix, i: nat, j: nat, n: nat)
    requires Shaped(m, n) && i < n && j < n
    ensures SameSolutions(m, Swapped(m, i, j), n)
  {
    hide Holds;
    var k := Swapped(m, i, j);
    forall x: seq<real> | |x| == n ensures Solves(m, x) <==> Solves(k, x) {
      if Solves(k, x) {
        forall r | 0 <= r < n ensures Holds(m[r], x) {
          assert Holds(k[if r == i then j else if r == j then i else r], x);
        }
      }
    }
  }

  lemma Cancel(a: real, b: real, d: real)
    requires d != 0.0
    ensures a * d == b * d <==> a == b
    ensures (a / d) * d == a
  {}

  lemma Factor(a: real, b: real, d: real)
    ensures a * b * d == (a * d) * b
  {}

  lemma {:induction false} DividedDot(row: seq<real>, d: real, x: seq<real>, n: nat)
    requires d != 0.0 && n <= |row| && n <= |x|
    ensures Dot(Divided(row, d), x, n) * d == Dot(row, x, n)
  {
    if n > 0 {
      DividedDot(row, d, x, n - 1);
      var s := Divided(row, d);
      Cancel(row[n - 1], 0.0, d);
      Factor(s[n - 1], x[n - 1], d);
      Distribute(Dot(s, x, n - 1), s[n - 1] * x[n - 1], d);
    }
  }

  lemma Distribute(a: real, b: real, d: real)
    ensures (a + b) * d == a * d + b * d
  {}

  lemma DividedHolds(row: seq<real>, d: real, x: seq<real>)
    requires d != 0.0 && |row| == |x| + 1
    ensures Holds(Divided(row, d), x) <==> Holds(row, x)
  {
    var n := |x|;
    DividedDot(row, d, x, n);
    Cancel(Dot(Divided(row, d), x, n), Divided(row, d)[n], d);
    Cancel(row[n], 0.0, d);
    hide Dot;
  }

  lemma DivideKeeps(m: Matrix, i: nat, d: real, n: nat)
    requires Shaped(m, n) && i < n && d != 0.0
    ensures SameSolutions(m, m[i := Divided(m[i], d)], n)
  {
    hide Holds, Divided;
    var k := m[i := Divided(m[i], d)];
    forall x: seq<real> | |x| == n ensures Solves(m, x) <==> Solves(k, x) {
      DividedHolds(m[i], d, x);
      if Solves(k, x) {
        assert Holds(k[i], x);
        forall r | 0 <= r < n ensures Holds(m[r], x) {
          assert Holds(k[r], x);
        }
      }
    }
  }

  lemma ReduceTerm(a: real, f: real, p: real, x: real)
    ensures (a - f * p) * x == a * x - f * (p * x)
  {}

  lemma ReduceSum(a: real, b: real, f: real, p: real, q: real)
    ensures (a - f * p) + (b - f * q) == (a + b) - f * (p + q)
  {}

  lemma {:induction false} ReducedDot(row: seq<real>, f: real, pivot: seq<real>, x: seq<real>, n: nat)
    requires |row| == |pivot| && n <= |row| && n <= |x|
    ensures Dot(Reduced(row, f, pivot), x, n) == Dot(row, x, n) - f * Dot(pivot, x, n)
  {
    if n > 0 {
      ReducedDot(row, f, pivot, x, n - 1);
      ReduceTerm(row[n - 1], f, pivot[n - 1], x[n - 1]);
      ReduceSum(Dot(row, x, n - 1), row[n - 1] * x[n - 1], f, Dot(pivot, x, n - 1), pivot[n - 1] * x[n - 1]);
    }
  }

  lemma ReducedHolds(row: seq<real>, f: real, pivot: seq<real>, x: seq<real>)
    requires |row| == |pivot| == |x| + 1 && Holds(pivot, x)
    ensures Holds(Reduced(row, f, pivot), x) <==> Holds(row, x)
  {
    ReducedDot(row, f, pivot, x, |x|);
    hide Dot;
  }

  lemma ReduceKeeps(m: Matrix, i: nat, f: real, p: nat, n: nat)
    requires Shaped(m, n) && i < n && p < n && i != p
    ensures SameSolutions(m, m[i := Reduced(m[i], f, m[p])], n)
  {
    hide Holds, Reduced;
    var k := m[i := Reduced(m[i], f, m[p])];
    forall x: seq<real> | |x| == n ensures Solves(m, x) <==> Solves(k, x) {
      if Solves(m, x) {
        assert Holds(m[p], x) && Holds(m[i], x);
        ReducedHolds(m[i], f, m[p], x);
        assert Solves(k, x);
      }
      if Solves(k, x) {
        assert k[p] == m[p] && Holds(k[p], x) && Holds(k[i], x);
        ReducedHolds(m[i], f, m[p], x);
        forall r | 0 <= r < n ensures Holds(m[r], x) {
          assert Holds(k[r], x);
        }
      }
    }
  }

  // ---------------------------------------------------------------- reduced systems

  /** Columns 0 .. k - 1 are those of the identity. */
  predicate UnitColumns(m: Matrix, k: nat, n: nat)
    requires Shaped(m, n) && k <= n
  {
    forall r, c | 0 <= r < n && 0 <= c < k :: m[r][c] == if r == c then 1.0 else 0.0
  }

  /** No entry of column k from row k on is large enough to divide by. */
  predicate TinyColumn(m: Matrix, k: nat, n: nat)
    requires Shaped(m, n) && k < n
  {
    forall r | k <= r < n :: -TINY < m[r][k] < TINY
  }

  lemma {:induction false} UnitDot(m: Matrix, r: nat, x: seq<real>, n: nat, k: nat)
    requires Shaped(m, n) && UnitColumns(m, n, n) && r < n && |x| == n && k <= n
    ensures Dot(m[r], x, k) == if r < k then x[r] else 0.0
  {
    if k > 0 {
      UnitDot(m, r, x, n, k - 1);
    }
  }

  /** A fully reduced system says what its solution is. */
  lemma ReducedSystem(m: Matrix, n: nat, x: seq<real>)
    requires Shaped(m, n) && UnitColumns(m, n, n) && |x| == n
    ensures Solves(m, x) <==> forall r | 0 <= r < n :: x[r] == m[r][n]
  {
    forall r | 0 <= r < n ensures Holds(m[r], x) <==> x[r] == m[r][n] {
      UnitDot(m, r, x, n, n);
    }
    hide Holds, Dot;
    if Solves(m, x) {
      forall r | 0 <= r < n ensures x[r] == m[r][n] {
        assert Holds(m[r], x);
      }
    }
  }

  lemma Chain(a: Matrix, b: Matrix, c: Matrix, n: nat)
    requires SameSolutions(a, b, n) && SameSolutions(b, c, n)
    ensures SameSolutions(a, c, n)
  {
    hide Solves;
  }

  // ---------------------------------------------------------------- what no pivot means

  predicate Null(m: Matrix, x: seq<real>, k: nat, n: nat)
    requires Shaped(m, n) && |x| == n && k <= n
  {
    forall i | 0 <= i < k :: Dot(m[i], x, n) == 0.0
  }

  predicate RowsAgree(a: Matrix, m: Matrix, place: seq<nat>, x: seq<real>, n: nat)
    requires Shaped(a, n) && Shaped(m, n) && |x| == |place| == n && forall r | 0 <= r < n :: place[r] < n
  {
    forall r | 0 <= r < n :: Dot(a[place[r]], x, n) == Dot(m[r], x, n)
  }

  /** Where the first k rows of m vanish, every row of m is worth the row of a it comes from. */
  ghost predicate Descends(a: Matrix, m: Matrix, place: seq<nat>, k: nat, n: nat)
    requires Shaped(a, n) && Shaped(m, n) && k <= n
  {
    && |place| == n && (forall r | 0 <= r < n :: place[r] < n) && (forall j: nat | j < n :: j in place)
    && forall x: seq<real> | |x| == n && Null(m, x, k, n) :: RowsAgree(a, m, place, x, n)
  }

  function InPlace(n: nat): (r: seq<nat>)
    ensures |r| == n && forall i | 0 <= i < n :: r[i] == i
  {
    seq(n, i => i)
  }

  lemma DescendsAtFirst(a: Matrix, n: nat)
    requires Shaped(a, n)
    ensures Descends(a, a, InPlace(n), 0, n)
  {
    hide Dot;
    var place := InPlace(n);
    forall j: nat | j < n ensures j in place {
      assert place[j] == j;
    }
  }

  lemma SwapDescends(a: Matrix, m: Matrix, place: seq<nat>, k: nat, j: nat, n: nat)
    requires Shaped(a, n) && Shaped(m, n) && k <= j < n && Descends(a, m, place, k, n)
    ensures Descends(a, Swapped(m, k, j), place[k := place[j]][j := place[k]], k, n)
  {
    hide Dot;
    var t, p := Swapped(m, k, j), place[k := place[j]][j := place[k]];
    forall i: nat | i < n ensures i in p {
      assert i in place;
      var r :| 0 <= r < n && place[r] == i;
      assert p[if r == k then j else if r == j then k else r] == i;
    }
    forall x: seq<real> | |x| == n && Null(t, x, k, n) ensures RowsAgree(a, t, p, x, n) {
      forall i | 0 <= i < k ensures Dot(m[i], x, n) == 0.0 {
        assert t[i] == m[i];
      }
      assert RowsAgree(a, m, place, x, n);
    }
  }

  /** Where row k of t vanishes, t has the values of m. */
  ghost predicate KeptOn(m: Matrix, t: Matrix, k: nat, n: nat)
    requires Shaped(m, n) && Shaped(t, n) && k < n
  {
    forall x: seq<real> | |x| == n && Dot(t[k], x, n) == 0.0 :: forall r | 0 <= r < n :: Dot(t[r], x, n) == Dot(m[r], x, n)
  }

  lemma DividedKept(m: Matrix, k: nat, d: real, n: nat)
    requires Shaped(m, n) && k < n && d != 0.0
    ensures KeptOn(m, m[k := Divided(m[k], d)], k, n)
  {
    var t := m[k := Divided(m[k], d)];
    forall x: seq<real> | |x| == n && Dot(t[k], x, n) == 0.0 ensures forall r | 0 <= r < n :: Dot(t[r], x, n) == Dot(m[r], x, n) {
      DividedDot(m[k], d, x, n);
      hide Dot, Divided;
    }
  }

  lemma ReducedKept(m: Matrix, t: Matrix, k: nat, row: nat, f: real, n: nat)
    requires Shaped(m, n) && Shaped(t, n) && k < n && row < n && row != k && KeptOn(m, t, k, n)
    ensures KeptOn(m, t[row := Reduced(t[row], f, t[k])], k, n)
  {
    var u := t[row := Reduced(t[row], f, t[k])];
    forall x: seq<real> | |x| == n && Dot(u[k], x, n) == 0.0 ensures forall r | 0 <= r < n :: Dot(u[r], x, n) == Dot(m[r], x, n) {
      ReducedDot(t[row], f, t[k], x, n);
      hide Dot, Reduced;
      assert f * 0.0 == 0.0;
    }
  }

  lemma ClearDescends(a: Matrix, m: Matrix, t: Matrix, place: seq<nat>, k: nat, n: nat)
    requires Shaped(a, n) && Shaped(m, n) && Shaped(t, n) && k < n && Descends(a, m, place, k, n) && KeptOn(m, t, k, n)
    ensures Descends(a, t, place, k + 1, n)
  {
    hide Dot;
    forall x: seq<real> | |x| == n && Null(t, x, k + 1, n) ensures RowsAgree(a, t, place, x, n) {
      assert Dot(t[k], x, n) == 0.0;
      forall i | 0 <= i < k ensures Dot(m[i], x, n) == 0.0 {
        assert Dot(t[i], x, n) == Dot(m[i], x, n);
      }
      assert RowsAgree(a, m, place, x, n);
    }
  }

  /** Some direction of size at least one is all but annihilated. */
  ghost predicate NearlySingular(a: Matrix, n: nat)
    requires Shaped(a, n)
  {
    exists x: seq<real>, column: nat :: |x| == n && NearlyNull(a, x, column, n)
  }

  predicate NearlyNull(a: Matrix, x: seq<real>, column: nat, n: nat)
    requires Shaped(a, n) && |x| == n
  {
    column < n && x[column] == 1.0 && forall j | 0 <= j < n :: -TINY < Dot(a[j], x, n) < TINY
  }

  /** The direction along which the first k rows vanish and column k has weight one. */
  function Direction(m: Matrix, k: nat, n: nat): (x: seq<real>)
    requires Shaped(m, n) && k < n
    ensures |x| == n
  {
    seq(n, c requires 0 <= c < n => if c < k then -m[c][k] else if c == k then 1.0 else 0.0)
  }

  lemma {:induction false} DirectionDot(m: Matrix, k: nat, n: nat, r: nat, c: nat)
    requires Shaped(m, n) && k < n && UnitColumns(m, k, n) && r < n && c <= n
    ensures Dot(m[r], Direction(m, k, n), c)
         == if c <= k then (if r < c then -m[r][k] else 0.0) else if r < k then 0.0 else m[r][k]
  {
    if c > 0 {
      DirectionDot(m, k, n, r, c - 1);
      var x := Direction(m, k, n)[c - 1];
      assert c - 1 < k ==> m[r][c - 1] * x == if r == c - 1 then x else 0.0;
      assert c - 1 > k ==> m[r][c - 1] * x == 0.0;
    }
  }

  lemma TinyIsNearlySingular(a: Matrix, m: Matrix, place: seq<nat>, k: nat, n: nat)
    requires Shaped(a, n) && Shaped(m, n) && k < n && UnitColumns(m, k, n) && TinyColumn(m, k, n) && Descends(a, m, place, k, n)
    ensures NearlySingular(a, n)
  {
    var x := Direction(m, k, n);
    forall r | 0 <= r < n ensures Dot(m[r], x, n) == if r < k then 0.0 else m[r][k] {
      DirectionDot(m, k, n, r, n);
    }
    hide Dot;
    assert Null(m, x, k, n) && RowsAgree(a, m, place, x, n);
    forall j | 0 <= j < n ensures -TINY < Dot(a[j], x, n) < TINY {
      assert j in place;
      var r :| 0 <= r < n && place[r] == j;
    }
    assert NearlyNull(a, x, k, n);
  }

  // ---------------------------------------------------------------- in place

  ghost function Rows(a: array2<real>): (m: Matrix)
    reads a
    ensures |m| == a.Length0 && forall r | 0 <= r < |m| :: |m[r]| == a.Length1
  {
    seq(a.Length0, r requires 0 <= r < a.Length0 reads a => RowOf(a, r))
  }

  ghost function RowOf(a: array2<real>, r: nat): (s: seq<real>)
    requires r < a.Length0
    reads a
    ensures |s| == a.Length1
  {
    seq(a.Length1, c requires 0 <= c < a.Length1 reads a => a[r, c])
  }

  /** Exchanges two rows from column `from` on; before it both are zero. */
  method SwapRows(a: array2<real>, i: nat, j: nat, from: nat)
    requires i < a.Length0 && j < a.Length0 && from <= a.Length1
    requires forall c | 0 <= c < from :: a[i, c] == a[j, c]
    modifies a
    ensures Rows(a) == Swapped(old(Rows(a)), i, j)
  {
    for item := from to a.Length1
      invariant forall c | 0 <= c < item :: a[i, c] == old(a[j, c]) && a[j, c] == old(a[i, c])
      invariant forall r, c | 0 <= r < a.Length0 && 0 <= c < a.Length1 && ((r != i && r != j) || c >= item) :: a[r, c] == old(a[r, c])
    {
      a[i, item], a[j, item] := a[j, item], a[i, item];
    }
    forall r | 0 <= r < a.Length0 ensures RowOf(a, r) == Swapped(old(Rows(a)), i, j)[r] {}
  }

  method DivideRow(a: array2<real>, i: nat, from: nat)
    requires i < a.Length0 && from < a.Length1 && a[i, from] != 0.0
    requires forall c | 0 <= c < from :: a[i, c] == 0.0
    modifies a
    ensures Rows(a) == old(Rows(a))[i := Divided(old(Rows(a))[i], old(a[i, from]))]
  {
    var divisor := a[i, from];
    for item := from to a.Length1
      invariant forall c | 0 <= c < a.Length1 :: a[i, c] == if from <= c < item then old(a[i, c]) / divisor else old(a[i, c])
      invariant forall r, c | 0 <= r < a.Length0 && 0 <= c < a.Length1 && r != i :: a[r, c] == old(a[r, c])
    {
      a[i, item] := a[i, item] / divisor;
    }
    assert 0.0 / divisor == 0.0;
    assert RowOf(a, i) == Divided(old(RowOf(a, i)), divisor);
    forall r | 0 <= r < a.Length0 && r != i ensures RowOf(a, r) == old(RowOf(a, r)) {}
  }

  method ReduceRow(a: array2<real>, i: nat, p: nat, from: nat)
    requires i < a.Length0 && p < a.Length0 && i != p && from < a.Length1
    requires forall c | 0 <= c < from :: a[p, c] == 0.0
    modifies a
    ensures Rows(a) == old(Rows(a))[i := Reduced(old(Rows(a))[i], old(a[i, from]), old(Rows(a))[p])]
  {
    var factor := a[i, from];
    for item := from to a.Length1
      invariant forall c | 0 <= c < a.Length1 :: a[i, c] == if from <= c < item then old(a[i, c]) - factor * old(a[p, c]) else old(a[i, c])
      invariant forall r, c | 0 <= r < a.Length0 && 0 <= c < a.Length1 && r != i :: a[r, c] == old(a[r, c])
    {
      a[i, item] := a[i, item] - factor * a[p, item];
    }
    ghost var row := Reduced(old(RowOf(a, i)), factor, old(RowOf(a, p)));
    forall c | 0 <= c < a.Length1 ensures RowOf(a, i)[c] == row[c] {
      if c < from {
        assert old(RowOf(a, p))[c] == 0.0;
        assert row[c] == old(RowOf(a, i))[c] - factor * 0.0;
      }
    }
    assert RowOf(a, i) == row;
    forall r | 0 <= r < a.Length0 && r != i ensures RowOf(a, r) == old(RowOf(a, r)) {}
  }

  /** The first row from `column` on whose entry there is largest in size. */
  method FindPivot(a: array2<real>, column: nat) returns (pivot: nat)
    requires column < a.Length0 && column < a.Length1
    ensures column <= pivot < a.Length0
    ensures forall r | column <= r < a.Length0 :: Abs(a[r, column]) <= Abs(a[pivot, column])
  {
    pivot := column;
    for row := column + 1 to a.Length0
      invariant column <= pivot < a.Length0
      invariant forall r | column <= r < row :: Abs(a[r, column]) <= Abs(a[pivot, column])
    {
      if Abs(a[row, column]) > Abs(a[pivot, column]) {
        pivot := row;
      }
    }
  }

  lemma SwapUnits(m: Matrix, i: nat, j: nat, k: nat, n: nat)
    requires Shaped(m, n) && k <= i < n && k <= j < n && UnitColumns(m, k, n)
    ensures Shaped(Swapped(m, i, j), n) && UnitColumns(Swapped(m, i, j), k, n)
  {}

  lemma DivideUnits(m: Matrix, k: nat, n: nat)
    requires Shaped(m, n) && k < n && UnitColumns(m, k, n) && m[k][k] != 0.0
    ensures var d := m[k := Divided(m[k], m[k][k])]; Shaped(d, n) && UnitColumns(d, k, n) && d[k][k] == 1.0
  {}

  /** Columns before k are units; column k is one in row k and zero in the other rows before `row`. */
  predicate PartlyReduced(m: Matrix, k: nat, row: nat, n: nat)
    requires Shaped(m, n) && k < n
  {
    && UnitColumns(m, k, n) && m[k][k] == 1.0
    && forall r | 0 <= r < row && r < n && r != k :: m[r][k] == 0.0
  }

  lemma ReduceUnits(m: Matrix, k: nat, row: nat, n: nat)
    requires Shaped(m, n) && k < n && row < n && row != k && PartlyReduced(m, k, row, n)
    ensures var d := m[row := Reduced(m[row], m[row][k], m[k])]; Shaped(d, n) && PartlyReduced(d, k, row + 1, n)
  {
    var f := m[row][k];
    assert f * 0.0 == 0.0 && f * 1.0 == f;
    assert forall c | 0 <= c < k :: m[k][c] == 0.0;
  }

  lemma Entry(a: array2<real>, r: nat, c: nat)
    requires r < a.Length0 && c < a.Length1
    ensures Rows(a)[r][c] == a[r, c]
  {}

  /** Makes column k that of the identity, dividing by the pivot and clearing the other rows. */
  method ClearColumn(a: array2<real>, k: nat)
    requires k < a.Length0 && a.Length1 == a.Length0 + 1
    requires Shaped(Rows(a), a.Length0) && UnitColumns(Rows(a), k, a.Length0) && a[k, k] != 0.0
    modifies a
    ensures Shaped(Rows(a), a.Length0) && UnitColumns(Rows(a), k + 1, a.Length0)
    ensures SameSolutions(old(Rows(a)), Rows(a), a.Length0) && KeptOn(old(Rows(a)), Rows(a), k, a.Length0)
  {
    var n := a.Length0;
    ghost var start := Rows(a);
    DivideKeeps(start, k, start[k][k], n);
    DivideUnits(start, k, n);
    DividedKept(start, k, start[k][k], n);
    hide SameSolutions, Divided, Reduced, KeptOn;
    Leading(a, k, k);
    DivideRow(a, k, k);
    for row := 0 to n
      invariant Shaped(Rows(a), n) && PartlyReduced(Rows(a), k, row, n) && SameSolutions(start, Rows(a), n)
      invariant KeptOn(start, Rows(a), k, n)
    {
      if row != k {
        ghost var m := Rows(a);
        ReduceUnits(m, k, row, n);
        ReduceKeeps(m, row, m[row][k], k, n);
        ReducedKept(start, m, k, row, m[row][k], n);
        Chain(start, m, m[row := Reduced(m[row], m[row][k], m[k])], n);
        Leading(a, k, k);
        Entry(a, row, k);
        ReduceRow(a, row, k, k);
      }
    }
    AllReduced(Rows(a), k, n);
  }

  lemma AllReduced(m: Matrix, k: nat, n: nat)
    requires Shaped(m, n) && k < n && PartlyReduced(m, k, n, n)
    ensures UnitColumns(m, k + 1, n)
  {}

  /** A row from k on is zero before column k. */
  lemma Leading(a: array2<real>, r: nat, k: nat)
    requires a.Length1 == a.Length0 + 1 && k <= r < a.Length0 && Shaped(Rows(a), a.Length0) && UnitColumns(Rows(a), k, a.Length0)
    ensures forall c | 0 <= c < k :: a[r, c] == 0.0
  {
    forall c | 0 <= c < k ensures a[r, c] == 0.0 {
      Entry(a, r, c);
    }
  }

  /** How elimination can fail: an equivalent, partly reduced system has no pivot in its next column. */
  ghost predicate Stuck(m: Matrix, k: Matrix, column: nat, n: nat) {
    Shaped(k, n) && column < n && SameSolutions(m, k, n) && UnitColumns(k, column, n) && TinyColumn(k, column, n)
  }

  /** Columns before `column` are done and nothing about the system has been lost. */
  ghost predicate Progress(start: Matrix, m: Matrix, place: seq<nat>, column: nat, n: nat) {
    && Shaped(start, n) && Shaped(m, n) && column <= n
    && UnitColumns(m, column, n) && SameSolutions(start, m, n) && Descends(start, m, place, column, n)
  }

  method SwapPivot(a: array2<real>, pivot: nat, column: nat, ghost start: Matrix, ghost place: seq<nat>) returns (ghost next: seq<nat>)
    requires a.Length1 == a.Length0 + 1 && column < pivot < a.Length0 && Progress(start, Rows(a), place, column, a.Length0)
    modifies a
    ensures Progress(start, Rows(a), next, column, a.Length0) && a[column, column] == old(a[pivot, column])
  {
    var n := a.Length0;
    ghost var m := Rows(a);
    hide SameSolutions, Descends;
    SwapUnits(m, column, pivot, column, n);
    SwapKeeps(m, column, pivot, n);
    SwapDescends(start, m, place, column, pivot, n);
    PlaceInside(start, m, place, column, n);
    next := place[column := place[pivot]][pivot := place[column]];
    Chain(start, m, Swapped(m, column, pivot), n);
    Leading(a, column, column);
    Leading(a, pivot, column);
    Entry(a, pivot, column);
    SwapRows(a, column, pivot, column);
    Entry(a, column, column);
  }

  method EliminateColumn(a: array2<real>, column: nat, ghost start: Matrix, ghost place: seq<nat>) returns (ok: bool, ghost next: seq<nat>)
    requires a.Length1 == a.Length0 + 1 && column < a.Length0 && Progress(start, Rows(a), place, column, a.Length0)
    modifies a
    ensures ok ==> Progress(start, Rows(a), next, column + 1, a.Length0)
    ensures !ok ==> Stuck(start, Rows(a), column, a.Length0) && NearlySingular(start, a.Length0)
  {
    hide SameSolutions, Descends, KeptOn, NearlySingular;
    var n := a.Length0;
    next := place;
    var pivot := FindPivot(a, column);
    if Abs(a[pivot, column]) < TINY {
      NoPivot(a, pivot, column);
      TinyIsNearlySingular(start, Rows(a), place, column, n);
      return false, next;
    }
    if pivot != column {
      next := SwapPivot(a, pivot, column, start, place);
    }
    ghost var m := Rows(a);
    ClearColumn(a, column);
    Chain(start, m, Rows(a), n);
    ClearDescends(start, m, Rows(a), next, column, n);
    ok := true;
  }

  /**
   `solve`: on success the result is the one and only solution of the system given; on
   failure some direction of size at least one is all but annihilated by the matrix.
   */
  method Solve(a: array2<real>) returns (ok: bool, solution: seq<real>)
    requires a.Length1 == a.Length0 + 1
    modifies a
    ensures ok ==> |solution| == a.Length0
    ensures ok ==> forall x: seq<real> | |x| == a.Length0 :: Solves(old(Rows(a)), x) <==> x == solution
    ensures !ok ==> exists k: Matrix, column: nat :: Stuck(old(Rows(a)), k, column, a.Length0)
    ensures !ok ==> Shaped(old(Rows(a)), a.Length0) && NearlySingular(old(Rows(a)), a.Length0)
  {
    var n := a.Length0;
    ghost var start := Rows(a);
    Same(start, n);
    DescendsAtFirst(start, n);
    ghost var place := InPlace(n);
    solution := [];
    hide SameSolutions, Descends, NearlySingular, Stuck;
    for column := 0 to n
      invariant Progress(start, Rows(a), place, column, n)
    {
      ok, place := EliminateColumn(a, column, start, place);
      if !ok {
        return;
      }
    }
    ok := true;
    solution := LastColumn(a);
    Solved(start, Rows(a), n, solution);
  }

  lemma PlaceInside(a: Matrix, m: Matrix, place: seq<nat>, k: nat, n: nat)
    requires Shaped(a, n) && Shaped(m, n) && k <= n && Descends(a, m, place, k, n)
    ensures |place| == n
  {}

  lemma Same(m: Matrix, n: nat)
    ensures SameSolutions(m, m, n)
  {}

  lemma NoPivot(a: array2<real>, pivot: nat, column: nat)
    requires a.Length1 == a.Length0 + 1 && column <= pivot < a.Length0 && Shaped(Rows(a), a.Length0)
    requires Abs(a[pivot, column]) < TINY
    requires forall r | column <= r < a.Length0 :: Abs(a[r, column]) <= Abs(a[pivot, column])
    ensures TinyColumn(Rows(a), column, a.Length0)
  {
    forall r | column <= r < a.Length0 ensures -TINY < Rows(a)[r][column] < TINY {
      Entry(a, r, column);
    }
  }

  method LastColumn(a: array2<real>) returns (solution: seq<real>)
    requires a.Length1 == a.Length0 + 1
    ensures |solution| == a.Length0 && forall r | 0 <= r < a.Length0 :: solution[r] == Rows(a)[r][a.Length0]
  {
    solution := [];
    for column := 0 to a.Length0
      invariant |solution| == column && forall r | 0 <= r < column :: solution[r] == a[r, a.Length0]
    {
      solution := solution + [a[column, a.Length0]];
    }
    forall r | 0 <= r < a.Length0 ensures solution[r] == Rows(a)[r][a.Length0] {
      Entry(a, r, a.Length0);
    }
  }

  lemma Solved(start: Matrix, m: Matrix, n: nat, solution: seq<real>)
    requires Shaped(m, n) && UnitColumns(m, n, n) && SameSolutions(start, m, n)
    requires |solution| == n && forall r | 0 <= r < n :: solution[r] == m[r][n]
    ensures forall x: seq<real> | |x| == n :: Solves(start, x) <==> x == solution
  {
    hide Solves, UnitColumns;
    forall x: seq<real> | |x| == n ensures Solves(start, x) <==> x == solution {
      ReducedSystem(m, n, x);
    }
  }
}
