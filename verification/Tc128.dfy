/**
 The CCSDS TC(128,64) code of tools/codes/ccsds_tc128.json and its generated
 table src/fec/codes/ccsds_tc128.h: sixteen-by-sixteen circulants, every check of
 degree eight, and mask rows that are rotations of sixteen generator words.
 */
module Tc128 {
  import opened LdpcTable
  import opened MinSumTheory

  function Blocks(): seq<seq<seq<nat>>> {
    [[[0, 7], [2], [14], [6], [], [0], [13], [0]],
     [[6], [0, 15], [0], [1], [0], [], [0], [7]],
     [[4], [1], [0, 15], [14], [11], [0], [], [3]],
     [[0], [1], [9], [0, 13], [14], [1], [0], []]]
  }

  function TcMatrix(): Matrix {
    Circulants(16, Blocks(), 64)
  }

  // ---------------------------------------------------------------- counting variables in rows

  lemma {:induction false} DegreeConcat(a: seq<nat>, b: seq<nat>, v: nat, n: nat)
    requires n <= |b|
    ensures Degree(a + b, v, |a| + n) == Degree(a, v, |a|) + Degree(b, v, n)
  {
    if n == 0 {
      DegreeLocal(a + b, a, v, |a|);
    } else {
      DegreeConcat(a, b, v, n - 1);
    }
  }

  lemma {:induction false} DegreeLocal(a: seq<nat>, b: seq<nat>, v: nat, n: nat)
    requires n <= |a| && n <= |b| && a[..n] == b[..n]
    ensures Degree(a, v, n) == Degree(b, v, n)
  {
    if n > 0 {
      assert a[n - 1] == a[..n][n - 1] && a[..n - 1] == a[..n][..n - 1] && b[..n - 1] == b[..n][..n - 1];
      DegreeLocal(a, b, v, n - 1);
    }
  }

  lemma {:induction false} DegreeInsert(x: nat, s: seq<nat>, v: nat)
    ensures |Insert(x, s)| == |s| + 1
    ensures Degree(Insert(x, s), v, |s| + 1) == Degree(s, v, |s|) + (if x == v then 1 else 0)
  {
    var n := |s|;
    if n == 0 || s[n - 1] <= x {
      DegreeLocal(s + [x], s, v, n);
    } else {
      DegreeInsert(x, s[..n - 1], v);
      DegreeLocal(Insert(x, s), Insert(x, s[..n - 1]), v, n);
      DegreeLocal(s, s[..n - 1], v, n - 1);
    }
  }

  lemma {:induction false} DegreeSorted(s: seq<nat>, v: nat)
    ensures |Sorted(s)| == |s| && Degree(Sorted(s), v, |s|) == Degree(s, v, |s|)
  {
    var n := |s|;
    if n > 0 {
      DegreeSorted(s[..n - 1], v);
      DegreeInsert(s[n - 1], Sorted(s[..n - 1]), v);
      DegreeLocal(s, s[..n - 1], v, n - 1);
    }
  }

  /** How many of the first n shifts send local row i to position t of the block. */
  function Hits(shifts: seq<nat>, i: nat, t: nat, n: nat): nat
    requires n <= |shifts|
  {
    if n == 0 then 0 else Hits(shifts, i, t, n - 1) + (if (i + shifts[n - 1]) % 16 == t then 1 else 0)
  }

  lemma {:induction false} BlockDegree(column: nat, shifts: seq<nat>, i: nat, n: nat, v: nat)
    requires n <= |shifts|
    ensures Degree(BlockVariables(16, column, shifts, i, n), v, n) == if v / 16 == column then Hits(shifts, i, v % 16, n) else 0
  {
    if n > 0 {
      var shorter, last := BlockVariables(16, column, shifts, i, n - 1), column * 16 + (i + shifts[n - 1]) % 16;
      BlockDegree(column, shifts, i, n - 1, v);
      DegreeLocal(BlockVariables(16, column, shifts, i, n), shorter, v, n - 1);
      assert last == v <==> column == v / 16 && (i + shifts[n - 1]) % 16 == v % 16;
    }
  }

  /** Variable v stands in a row as often as the shifts of its block column hit it. */
  lemma {:induction false} RowDegree(columns: seq<seq<nat>>, i: nat, n: nat, v: nat)
    requires n <= |columns|
    ensures var row := RowVariables(16, columns, i, n);
      Degree(row, v, |row|) == if v / 16 < n then Hits(columns[v / 16], i, v % 16, |columns[v / 16]|) else 0
  {
    if n > 0 {
      var shorter, block := RowVariables(16, columns, i, n - 1), BlockVariables(16, n - 1, columns[n - 1], i, |columns[n - 1]|);
      RowDegree(columns, i, n - 1, v);
      BlockDegree(n - 1, columns[n - 1], i, |columns[n - 1]|, v);
      DegreeConcat(shorter, block, v, |block|);
    }
  }

  function TotalShifts(columns: seq<seq<nat>>, n: nat): nat
    requires n <= |columns|
  {
    if n == 0 then 0 else TotalShifts(columns, n - 1) + |columns[n - 1]|
  }

  lemma {:induction false} RowLength(columns: seq<seq<nat>>, i: nat, n: nat)
    requires n <= |columns|
    ensures |RowVariables(16, columns, i, n)| == TotalShifts(columns, n)
  {
    if n > 0 {
      RowLength(columns, i, n - 1);
    }
  }

  lemma {:induction false} DegreeAtLeast(s: seq<nat>, i: nat, n: nat)
    requires i < n <= |s|
    ensures Degree(s, s[i], n) >= 1
    ensures forall j | i < j < n && s[j] == s[i] :: Degree(s, s[i], n) >= 2
  {
    if i < n - 1 {
      DegreeAtLeast(s, i, n - 1);
    }
  }

  lemma {:induction false} DegreePositive(s: seq<nat>, v: nat, n: nat)
    requires n <= |s| && Degree(s, v, n) > 0
    ensures exists i | 0 <= i < n :: s[i] == v
  {
    if s[n - 1] != v {
      DegreePositive(s, v, n - 1);
    }
  }

  /** An ascending row without repetitions is strictly increasing. */
  lemma StrictRow(s: seq<nat>)
    requires Ascending(s) && |s| >= 2 && forall v: nat :: Degree(s, v, |s|) <= 1
    ensures GoodRow(s)
  {
    forall i, j | 0 <= i < j < |s| ensures s[i] < s[j] {
      DegreeAtLeast(s, i, |s|);
      assert Degree(s, s[i], |s|) <= 1;
    }
  }

  // ---------------------------------------------------------------- the rows of TC128

  /** Eight block columns per block row, at most two shifts in each, all smaller than the block. */
  ghost predicate SmallBlocks(blocks: seq<seq<seq<nat>>>) {
    && |blocks| == 4
    && (forall b | 0 <= b < 4 :: |blocks[b]| == 8)
    && (forall b, k | 0 <= b < 4 && 0 <= k < 8 :: SmallShifts(blocks[b][k]))
  }

  predicate SmallShifts(shifts: seq<nat>) {
    |shifts| == 0 || (|shifts| == 1 && shifts[0] < 16)
    || (|shifts| == 2 && shifts[0] < 16 && shifts[1] < 16 && shifts[0] != shifts[1])
  }

  lemma TcBlocks()
    ensures SmallBlocks(Blocks())
  {
    BlockShape(0);
    BlockShape(1);
    BlockShape(2);
    BlockShape(3);
  }

  lemma BlockShape(b: nat)
    requires b < 4
    ensures |Blocks()| == 4 && |Blocks()[b]| == 8 && forall k | 0 <= k < 8 :: SmallShifts(Blocks()[b][k])
  {}

  function TcRows(): seq<seq<nat>> {
    ExpandedRows(16, Blocks())
  }

  /** Check r: its block row's circulants at its local row, sorted. */
  function TcRow(r: nat): seq<nat>
    requires r < 64
  {
    TcBlocks();
    Sorted(RowVariables(16, Blocks()[r / 16], r % 16, 8))
  }

  lemma {:induction false} RawRowAt(blocks: seq<seq<seq<nat>>>, n: nat, r: nat)
    requires SmallBlocks(blocks) && n <= 4 && r < 16 * n
    ensures |RawRows(16, blocks, n)| == 16 * n
    ensures RawRows(16, blocks, n)[r] == RowVariables(16, blocks[r / 16], r % 16, 8)
  {
    hide RowVariables, RawRows;
    RawLength(16, blocks, n - 1, n - 1);
    RawStep(16, blocks, n - 1);
    if r < 16 * (n - 1) {
      RawRowAt(blocks, n - 1, r);
    } else {
      assert r / 16 == n - 1 && r % 16 == r - 16 * (n - 1) && |blocks[n - 1]| == 8;
    }
  }

  lemma TcRowsAt()
    ensures |TcRows()| == 64 && forall r | 0 <= r < 64 :: TcRows()[r] == TcRow(r)
  {
    hide RowVariables, Sorted, Blocks;
    TcBlocks();
    RawRowAt(Blocks(), 4, 0);
    forall r | 0 <= r < 64 ensures TcRows()[r] == TcRow(r) {
      RawRowAt(Blocks(), 4, r);
    }
  }

  lemma SmallHits(shifts: seq<nat>, i: nat, t: nat)
    requires SmallShifts(shifts) && i < 16
    ensures Hits(shifts, i, t, |shifts|) <= 1
  {
    if |shifts| == 2 {
      assert (i + shifts[0]) % 16 != (i + shifts[1]) % 16;
      assert Hits(shifts, i, t, 1) == if (i + shifts[0]) % 16 == t then 1 else 0;
    }
  }

  lemma TcShiftCount(b: nat)
    requires b < 4
    ensures |Blocks()[b]| == 8 && TotalShifts(Blocks()[b], 8) == 8
  {}

  /** Occurrences of v in check r. */
  function TcCount(r: nat, v: nat): nat
    requires r < 64
  {
    TcBlocks();
    if v < 128 then Hits(Blocks()[r / 16][v / 16], r % 16, v % 16, |Blocks()[r / 16][v / 16]|) else 0
  }

  lemma TcRowDegree(r: nat, v: nat)
    requires r < 64
    ensures |TcRow(r)| == 8 && Degree(TcRow(r), v, 8) == TcCount(r, v) <= 1
  {
    hide RowVariables, Sorted, Hits, Degree, Blocks;
    TcBlocks();
    var b, i := r / 16, r % 16;
    var raw := RowVariables(16, Blocks()[b], i, 8);
    TcShiftCount(b);
    RowLength(Blocks()[b], i, 8);
    DegreeSorted(raw, v);
    RowDegree(Blocks()[b], i, 8, v);
    if v < 128 {
      SmallHits(Blocks()[b][v / 16], i, v % 16);
    }
  }

  lemma TcRowShape(r: nat)
    requires r < 64
    ensures |TcRow(r)| == 8 && GoodRow(TcRow(r)) && forall e | 0 <= e < 8 :: TcRow(r)[e] < 128
  {
    hide RowVariables, Sorted, Hits, Degree, GoodRow, Blocks;
    TcRowDegree(r, 0);
    forall v: nat ensures Degree(TcRow(r), v, 8) <= 1 {
      TcRowDegree(r, v);
    }
    TcBlocks();
    SortedSorts(RowVariables(16, Blocks()[r / 16], r % 16, 8));
    StrictRow(TcRow(r));
    forall e | 0 <= e < 8 ensures TcRow(r)[e] < 128 {
      DegreeAtLeast(TcRow(r), e, 8);
      TcRowDegree(r, TcRow(r)[e]);
    }
  }
}
