/**
 The code table generator `render` of tools/generate_ldpc_table.py: circulant
 expansion, the edge list, and the parity masks found by elimination.
 */
module LdpcTable {
  import opened Bits
  import opened Ldpc
  import opened Gf2

  /** The two JSON forms of a parity-check matrix. */
  datatype Matrix =
    | Rows(rows: seq<seq<nat>>, informationBits: nat)
    | Circulants(size: nat, blocks: seq<seq<seq<nat>>>, informationBits: nat)

  /** A table, or the Python exception that ends the run: an empty maximum, a bad row, an exhausted pivot search, a zero range step. */
  datatype Rendered = Table(code: Code) | EmptyMaximum | BadRow | NoPivot | ZeroStep

  // ---------------------------------------------------------------- circulant expansion

  function BlockVariables(size: nat, column: nat, shifts: seq<nat>, localRow: nat, n: nat): (r: seq<nat>)
    requires size > 0 && n <= |shifts|
    ensures |r| == n && forall j | 0 <= j < n :: r[j] == column * size + (localRow + shifts[j]) % size
  {
    if n == 0 then []
    else BlockVariables(size, column, shifts, localRow, n - 1) + [column * size + (localRow + shifts[n - 1]) % size]
  }

  /** Variables of one check before sorting: the circulant blocks of its block row from left to right. */
  function RowVariables(size: nat, columns: seq<seq<nat>>, localRow: nat, n: nat): seq<nat>
    requires size > 0 && n <= |columns|
  {
    if n == 0 then []
    else RowVariables(size, columns, localRow, n - 1)
         + BlockVariables(size, n - 1, columns[n - 1], localRow, |columns[n - 1]|)
  }

  ghost predicate Ascending(s: seq<nat>) {
    forall i, j | 0 <= i < j < |s| :: s[i] <= s[j]
  }
  ghost predicate Below(s: seq<nat>, y: nat) { forall i | 0 <= i < |s| :: s[i] <= y }

  function Insert(x: nat, s: seq<nat>): (r: seq<nat>)
  {
    var n := |s|;
    if n == 0 || s[n - 1] <= x then s + [x]
    else Insert(x, s[..n - 1]) + [s[n - 1]]
  }

  lemma {:induction false} InsertAscending(x: nat, s: seq<nat>)
    requires Ascending(s)
    ensures Ascending(Insert(x, s))
    ensures forall y | x <= y && Below(s, y) :: Below(Insert(x, s), y)
  {
    var n := |s|;
    if n > 0 && s[n - 1] > x {
      InsertAscending(x, s[..n - 1]);
      assert Below(s[..n - 1], s[n - 1]);
      assert Below(Insert(x, s[..n - 1]), s[n - 1]);
      forall y | x <= y && Below(s, y) ensures Below(Insert(x, s), y) {
        assert Below(s[..n - 1], y);
      }
    }
  }
  lemma {:induction false} InsertMultiset(x: nat, s: seq<nat>)
    ensures multiset(Insert(x, s)) == multiset(s) + multiset{x}
  {
    var n := |s|;
    if n > 0 && s[n - 1] > x {
      InsertMultiset(x, s[..n - 1]);
      assert s == s[..n - 1] + [s[n - 1]];
    }
  }

  /** Python's `sorted`. */
  function Sorted(s: seq<nat>): seq<nat> {
    if |s| == 0 then [] else Insert(s[|s| - 1], Sorted(s[..|s| - 1]))
  }

  lemma {:induction false} SortedSorts(s: seq<nat>)
    ensures Ascending(Sorted(s)) && multiset(Sorted(s)) == multiset(s)
  {
    if |s| > 0 {
      var rest, x := s[..|s| - 1], s[|s| - 1];
      SortedSorts(rest);
      InsertAscending(x, Sorted(rest));
      InsertMultiset(x, Sorted(rest));
      assert s == rest + [x];
    }
  }

  /** The unsorted rows of the first n block rows, in order. */
  function RawRows(size: nat, blocks: seq<seq<seq<nat>>>, n: nat): (r: seq<seq<nat>>)
    requires size > 0 && n <= |blocks|
  {
    if n == 0 then [] else RawRows(size, blocks, n - 1) + BlockRow(size, blocks[n - 1])
  }

  function BlockRow(size: nat, columns: seq<seq<nat>>): (r: seq<seq<nat>>)
    requires size > 0
    ensures |r| == size
    ensures forall i | 0 <= i < size :: r[i] == RowVariables(size, columns, i, |columns|)
  {
    seq(size, i requires 0 <= i < size => RowVariables(size, columns, i, |columns|))
  }

  lemma {:induction false} RawLength(size: nat, blocks: seq<seq<seq<nat>>>, c: nat, n: nat)
    requires size > 0 && c <= n <= |blocks|
    ensures |RawRows(size, blocks, n)| == n * size
    ensures |RawRows(size, blocks, c)| <= |RawRows(size, blocks, n)|
  {
    if c < n {
      RawLength(size, blocks, c, n - 1);
    } else if n > 0 {
      RawLength(size, blocks, n - 1, n - 1);
    }
    assert n > 0 ==> n * size == (n - 1) * size + size;
  }

  /** The rows the circulant description stands for. */
  function ExpandedRows(size: nat, blocks: seq<seq<seq<nat>>>): (r: seq<seq<nat>>) {
    if size == 0 then []
    else
      var raw := RawRows(size, blocks, |blocks|);
      seq(|raw|, i requires 0 <= i < |raw| => Sorted(raw[i]))
  }

  method AppendBlock(rows0: seq<seq<nat>>, size: nat, base: nat, column: nat, shifts: seq<nat>) returns (rows: seq<seq<nat>>)
    requires size > 0 && base + size <= |rows0|
    ensures |rows| == |rows0|
    ensures forall i | 0 <= i < |rows| :: rows[i] ==
              if base <= i < base + size then rows0[i] + BlockVariables(size, column, shifts, i - base, |shifts|) else rows0[i]
  {
    hide BlockVariables;
    rows := rows0;
    var localRow := 0;
    while localRow < size
      invariant 0 <= localRow <= size && |rows| == |rows0|
      invariant forall i | 0 <= i < |rows| :: rows[i] ==
                  if base <= i < base + localRow then rows0[i] + BlockVariables(size, column, shifts, i - base, |shifts|) else rows0[i]
    {
      var row := AppendShifts(rows[base + localRow], size, column, shifts, localRow);
      rows := rows[base + localRow := row];
      localRow := localRow + 1;
    }
  }

  method AppendShifts(row0: seq<nat>, size: nat, column: nat, shifts: seq<nat>, localRow: nat) returns (row: seq<nat>)
    requires size > 0
    ensures row == row0 + BlockVariables(size, column, shifts, localRow, |shifts|)
  {
    row := row0;
    var s := 0;
    while s < |shifts|
      invariant 0 <= s <= |shifts| && row == row0 + BlockVariables(size, column, shifts, localRow, s)
    {
      row := row + [column * size + (localRow + shifts[s]) % size];
      s := s + 1;
    }
  }

  method ExpandBlockRow(rows0: seq<seq<nat>>, size: nat, base: nat, columns: seq<seq<nat>>) returns (rows: seq<seq<nat>>)
    requires size > 0 && base + size <= |rows0|
    ensures |rows| == |rows0|
    ensures forall i | 0 <= i < |rows| :: rows[i] ==
              if base <= i < base + size then rows0[i] + RowVariables(size, columns, i - base, |columns|) else rows0[i]
  {
    hide BlockVariables, RowVariables;
    rows := rows0;
    RowStep(size, columns, 0);
    var column := 0;
    while column < |columns|
      invariant 0 <= column <= |columns| && |rows| == |rows0|
      invariant forall i | 0 <= i < |rows| && !(base <= i < base + size) :: rows[i] == rows0[i]
      invariant forall i | base <= i < base + size :: rows[i] == rows0[i] + RowVariables(size, columns, i - base, column)
    {
      RowStep(size, columns, column);
      rows := AppendBlock(rows, size, base, column, columns[column]);
      column := column + 1;
    }
  }

  lemma RowStep(size: nat, columns: seq<seq<nat>>, n: nat)
    requires size > 0 && n <= |columns|
    ensures n == 0 ==> forall s: seq<nat>, i: nat :: s + RowVariables(size, columns, i, n) == s
    ensures n < |columns| ==> forall s: seq<nat>, i: nat ::
              s + RowVariables(size, columns, i, n + 1)
              == s + RowVariables(size, columns, i, n) + BlockVariables(size, n, columns[n], i, |columns[n]|)
  {
    forall s: seq<nat>, i: nat | n < |columns|
      ensures s + RowVariables(size, columns, i, n + 1)
           == s + RowVariables(size, columns, i, n) + BlockVariables(size, n, columns[n], i, |columns[n]|)
    {
      hide BlockVariables;
      assert RowVariables(size, columns, i, n + 1)
          == RowVariables(size, columns, i, n) + BlockVariables(size, n, columns[n], i, |columns[n]|);
    }
  }

  method Expand(size: nat, blocks: seq<seq<seq<nat>>>) returns (rows: seq<seq<nat>>)
    ensures rows == ExpandedRows(size, blocks)
  {
    rows := seq(|blocks| * size, i => []);
    if size > 0 {
      RawLength(size, blocks, |blocks|, |blocks|);
      rows := FillRows(rows, size, blocks);
    }
    rows := SortRows(rows);
  }

  method FillRows(rows0: seq<seq<nat>>, size: nat, blocks: seq<seq<seq<nat>>>) returns (rows: seq<seq<nat>>)
    requires size > 0 && |rows0| == |RawRows(size, blocks, |blocks|)| && forall i | 0 <= i < |rows0| :: rows0[i] == []
    ensures rows == RawRows(size, blocks, |blocks|)
  {
    hide RowVariables, RawRows;
    rows := rows0;
    RawStep(size, blocks, 0);
    var blockRow := 0;
    var base := 0;
    while blockRow < |blocks|
      invariant 0 <= blockRow <= |blocks| && base == |RawRows(size, blocks, blockRow)| <= |rows| == |rows0|
      invariant forall i | base <= i < |rows| :: rows[i] == []
      invariant forall r | 0 <= r < base :: rows[r] == RawRows(size, blocks, blockRow)[r]
    {
      RawLength(size, blocks, blockRow + 1, |blocks|);
      RawStep(size, blocks, blockRow);
      rows := ExpandBlockRow(rows, size, base, blocks[blockRow]);
      blockRow := blockRow + 1;
      base := base + size;
    }
  }

  lemma RawStep(size: nat, blocks: seq<seq<seq<nat>>>, n: nat)
    requires size > 0 && n <= |blocks|
    ensures n == 0 ==> RawRows(size, blocks, n) == []
    ensures n < |blocks| ==> RawRows(size, blocks, n + 1) == RawRows(size, blocks, n) + BlockRow(size, blocks[n])
  {}

  method SortRows(rows0: seq<seq<nat>>) returns (rows: seq<seq<nat>>)
    ensures |rows| == |rows0| && forall i | 0 <= i < |rows| :: rows[i] == Sorted(rows0[i])
  {
    rows := [];
    for i := 0 to |rows0|
      invariant |rows| == i && forall j | 0 <= j < i :: rows[j] == Sorted(rows0[j])
    {
      rows := rows + [Sorted(rows0[i])];
    }
  }

  // ---------------------------------------------------------------- the edge list

  /** `row == sorted(set(row))` and degree at least two. */
  predicate GoodRow(row: seq<nat>) {
    |row| >= 2 && forall i, j | 0 <= i < j < |row| :: row[i] < row[j]
  }

  function Edges(rows: seq<seq<nat>>, n: nat): seq<nat>
    requires n <= |rows|
  {
    if n == 0 then [] else Edges(rows, n - 1) + rows[n - 1]
  }

  /** The table lists the rows one after the other, with offsets to where each starts. */
  ghost predicate Lists(code: Code, rows: seq<seq<nat>>) {
    && code.WellFormed() && code.CheckCount() == |rows| && code.SortedRows()
    && forall c | 0 <= c < |rows| :: code.edges[code.offsets[c]..code.offsets[c + 1]] == rows[c]
  }

  ghost predicate WithinVariables(rows: seq<seq<nat>>, variables: nat) {
    forall r, i | 0 <= r < |rows| && 0 <= i < |rows[r]| :: rows[r][i] < variables
  }

  ghost predicate Names(rows: seq<seq<nat>>, v: nat) {
    exists r | 0 <= r < |rows| :: v in rows[r]
  }

  method Maximum(rows: seq<seq<nat>>) returns (maximum: Option<nat>)
    ensures maximum.None? <==> |rows| == 0 || exists r | 0 <= r < |rows| :: |rows[r]| == 0
    ensures maximum.Some? ==> WithinVariables(rows, maximum.value + 1) && Names(rows, maximum.value)
  {
    maximum := None;
    for r := 0 to |rows|
      invariant maximum.None? ==> r == 0
      invariant maximum.Some? ==> r > 0
      invariant forall q | 0 <= q < r :: |rows[q]| > 0
      invariant forall q, i | 0 <= q < r && 0 <= i < |rows[q]| :: rows[q][i] <= maximum.value
      invariant maximum.Some? ==> Names(rows, maximum.value)
    {
      if |rows[r]| == 0 {
        return None;
      }
      var best := rows[r][0];
      for i := 1 to |rows[r]|
        invariant best in rows[r] && forall j | 0 <= j < i :: rows[r][j] <= best
      {
        best := if rows[r][i] > best then rows[r][i] else best;
      }
      maximum := Some(if maximum.None? || best > maximum.value then best else maximum.value);
    }
  }

  method BuildEdges(rows: seq<seq<nat>>) returns (ok: bool, offsets: seq<nat>, edges: seq<nat>)
    ensures ok <==> forall r | 0 <= r < |rows| :: GoodRow(rows[r])
    ensures ok ==> |offsets| == |rows| + 1 && edges == Edges(rows, |rows|)
    ensures ok ==> forall c | 0 <= c <= |rows| :: offsets[c] == |Edges(rows, c)|
  {
    hide GoodRow, Edges;
    EdgesStep(rows, 0);
    offsets, edges := [0], [];
    var r := 0;
    while r < |rows|
      invariant 0 <= r <= |rows| && |offsets| == r + 1 && edges == Edges(rows, r)
      invariant forall q | 0 <= q < r :: GoodRow(rows[q])
      invariant forall c | 0 <= c <= r :: offsets[c] == |Edges(rows, c)|
    {
      if !GoodRow(rows[r]) {
        return false, [], [];
      }
      EdgesStep(rows, r);
      edges := edges + rows[r];
      offsets := offsets + [|edges|];
      r := r + 1;
    }
    return true, offsets, edges;
  }

  lemma EdgesStep(rows: seq<seq<nat>>, r: nat)
    requires r <= |rows|
    ensures r == 0 ==> Edges(rows, r) == []
    ensures r < |rows| ==> Edges(rows, r + 1) == Edges(rows, r) + rows[r]
  {}

  lemma {:induction false} EdgesPrefix(rows: seq<seq<nat>>, c: nat, n: nat)
    requires c <= n <= |rows|
    ensures Edges(rows, c) <= Edges(rows, n)
  {
    if c < n {
      EdgesPrefix(rows, c, n - 1);
    }
  }

  lemma EdgesListRows(code: Code, rows: seq<seq<nat>>, c: nat)
    requires c < |rows| && |code.offsets| == |rows| + 1 && code.edges == Edges(rows, |rows|)
    requires forall d | 0 <= d <= |rows| :: code.offsets[d] == |Edges(rows, d)|
    ensures code.offsets[c] + |rows[c]| == code.offsets[c + 1] <= |code.edges|
    ensures code.edges[code.offsets[c]..code.offsets[c + 1]] == rows[c]
  {
    EdgesPrefix(rows, c + 1, |rows|);
    var shorter, all := Edges(rows, c + 1), code.edges;
    assert all[..|shorter|] == shorter == Edges(rows, c) + rows[c];
    assert all[code.offsets[c]..code.offsets[c + 1]] == all[..|shorter|][code.offsets[c]..];
  }

  lemma ListsRows(code: Code, rows: seq<seq<nat>>)
    requires |rows| > 0 && |code.offsets| == |rows| + 1 && code.edges == Edges(rows, |rows|)
    requires forall c | 0 <= c <= |rows| :: code.offsets[c] == |Edges(rows, c)|
    requires forall r | 0 <= r < |rows| :: GoodRow(rows[r])
    requires forall r, i | 0 <= r < |rows| && 0 <= i < |rows[r]| :: rows[r][i] < code.variableCount
    ensures Lists(code, rows)
  {
    hide GoodRow, Edges, Code.SortedRows;
    OffsetsGrow(code, rows);
    EdgesFromRows(rows, |rows|, code.variableCount);
    EdgesStep(rows, 0);
    forall c | 0 <= c < |rows|
      ensures code.edges[code.offsets[c]..code.offsets[c + 1]] == rows[c]
    {
      EdgesListRows(code, rows, c);
    }
    RowsSorted(code, rows);
  }

  lemma RowsSorted(code: Code, rows: seq<seq<nat>>)
    requires code.WellFormed() && code.CheckCount() == |rows|
    requires forall c | 0 <= c < |rows| :: code.edges[code.offsets[c]..code.offsets[c + 1]] == rows[c]
    requires forall r | 0 <= r < |rows| :: GoodRow(rows[r])
    ensures code.SortedRows()
  {
    forall c: nat, e: nat, f: nat | code.InRow(c, e) && code.InRow(c, f) && e < f
      ensures code.edges[e] < code.edges[f]
    {
      var lo, hi := code.offsets[c], code.offsets[c + 1];
      var row := rows[c];
      assert row == code.edges[lo..hi];
      assert row[e - lo] == code.edges[e] && row[f - lo] == code.edges[f];
      assert GoodRow(row);
    }
  }

  lemma OffsetsGrow(code: Code, rows: seq<seq<nat>>)
    requires |code.offsets| == |rows| + 1
    requires forall c | 0 <= c <= |rows| :: code.offsets[c] == |Edges(rows, c)|
    requires forall r | 0 <= r < |rows| :: GoodRow(rows[r])
    ensures forall c, d | 0 <= c < d < |code.offsets| :: code.offsets[c] < code.offsets[d]
    ensures forall c | 0 <= c < |rows| :: code.offsets[c] + 2 <= code.offsets[c + 1]
  {
    forall c | 0 <= c < |rows| ensures code.offsets[c] + 2 <= code.offsets[c + 1] {
      assert GoodRow(rows[c]) && Edges(rows, c + 1) == Edges(rows, c) + rows[c];
    }
    forall c, d | 0 <= c < d < |code.offsets| ensures code.offsets[c] < code.offsets[d] {
      EdgesPrefix(rows, c + 1, d);
    }
  }

  lemma {:induction false} EdgesFromRows(rows: seq<seq<nat>>, n: nat, bound: nat)
    requires n <= |rows| && forall r, i | 0 <= r < |rows| && 0 <= i < |rows[r]| :: rows[r][i] < bound
    ensures forall e | 0 <= e < |Edges(rows, n)| :: Edges(rows, n)[e] < bound
  {
    if n > 0 {
      EdgesFromRows(rows, n - 1, bound);
    }
  }

  // ---------------------------------------------------------------- rows as equations

  /** Every row names an even number of one bits. */
  ghost predicate SatisfiesRows(rows: seq<seq<nat>>, bits: seq<bool>) {
    forall c | 0 <= c < |rows| :: Even(rows[c], bits)
  }

  ghost predicate Even(row: seq<nat>, bits: seq<bool>) {
    (forall e | 0 <= e < |row| :: row[e] < |bits|) && !RowParity(row, bits, 0, |row|)
  }

  lemma {:induction false} RowParityShift(edges: seq<nat>, row: seq<nat>, bits: seq<bool>, lo: nat, n: nat)
    requires lo + n <= |edges| && n <= |row|
    requires forall e | 0 <= e < n :: row[e] < |bits|
    requires forall e | lo <= e < lo + n :: edges[e] == row[e - lo]
    ensures RowParity(edges, bits, lo, lo + n) == RowParity(row, bits, 0, n)
  {
    if n > 0 {
      RowParityShift(edges, row, bits, lo, n - 1);
    }
  }

  /** The codewords of a table are the words that satisfy its rows. */
  lemma CodewordsOfRows(code: Code, rows: seq<seq<nat>>, bits: seq<bool>)
    requires Lists(code, rows) && |bits| == code.variableCount
    ensures Codeword(code, bits) <==> SatisfiesRows(rows, bits)
  {
    forall c | 0 <= c < |rows| ensures Satisfied(code, bits, c) == Even(rows[c], bits) {
      CheckOfRow(code, rows, bits, c);
    }
  }

  lemma CheckOfRow(code: Code, rows: seq<seq<nat>>, bits: seq<bool>, c: nat)
    requires Lists(code, rows) && |bits| == code.variableCount && c < |rows|
    ensures Satisfied(code, bits, c) == Even(rows[c], bits)
  {
    hide Code.SortedRows;
    var lo, hi, row := code.offsets[c], code.offsets[c + 1], rows[c];
    assert row == code.edges[lo..hi];
    forall e | 0 <= e < |row| ensures code.edges[lo + e] == row[e] < |bits| {}
    RowParityShift(code.edges, row, bits, lo, |row|);
  }

  /** Which of the columns from..from+n the row names. */
  function Indicator(row: seq<nat>, from: nat, n: nat): (r: seq<bool>)
    ensures |r| == n && forall j | 0 <= j < n :: r[j] == ((from + j) in row)
  {
    seq(n, j requires 0 <= j < n => (from + j) in row)
  }

  lemma {:induction false} DotFlip(a: seq<bool>, b: seq<bool>, x: seq<bool>, t: nat, n: nat)
    requires n <= |a| && n <= |b| && n <= |x| && forall j | 0 <= j < n :: a[j] == (b[j] || j == t)
    requires t < n ==> !b[t]
    ensures Dot(a, x, 0, n) == (Dot(b, x, 0, n) != (t < n && x[t]))
  {
    if n > 0 {
      DotFlip(a, b, x, t, n - 1);
    }
  }

  /** The parity over a strictly increasing row is the product with its indicator. */
  lemma {:induction false} RowParityIsProduct(row: seq<nat>, bits: seq<bool>, n: nat)
    requires n <= |row| && forall i, j | 0 <= i < j < n :: row[i] < row[j]
    requires forall e | 0 <= e < n :: row[e] < |bits|
    ensures RowParity(row, bits, 0, n) == Dot(Indicator(row[..n], 0, |bits|), bits, 0, |bits|)
  {
    if n == 0 {
      DotZero(Indicator(row[..n], 0, |bits|), bits, 0, |bits|);
    } else {
      RowParityIsProduct(row, bits, n - 1);
      var longer, shorter, t := Indicator(row[..n], 0, |bits|), Indicator(row[..n - 1], 0, |bits|), row[n - 1];
      assert row[..n] == row[..n - 1] + [t];
      DotFlip(longer, shorter, bits, t, |bits|);
    }
  }

  /** The bit masks the generator makes of a row: its information columns, then its parity columns and the identity. */
  function LeftMask(row: seq<nat>, k: nat): seq<bool> {
    Indicator(row, 0, k)
  }

  function RightMask(row: seq<nat>, k: nat, m: nat, rowIndex: nat): seq<bool> {
    Indicator(row, k, m) + seq(m, j => j == rowIndex)
  }

  lemma RowEquation(row: seq<nat>, u: seq<bool>, p: seq<bool>, rowIndex: nat)
    requires GoodRow(row) && forall e | 0 <= e < |row| :: row[e] < |u| + |p|
    ensures Even(row, u + p) <==> Holds(LeftMask(row, |u|), RightMask(row, |u|, |p|, rowIndex), u, p)
  {
    hide Dot, Indicator, LeftMask, RightMask;
    RowParityIsProduct(row, u + p, |row|);
    assert row[..|row|] == row;
    IndicatorSplit(row, u, p, rowIndex);
  }

  lemma IndicatorSplit(row: seq<nat>, u: seq<bool>, p: seq<bool>, rowIndex: nat)
    ensures Dot(Indicator(row, 0, |u + p|), u + p, 0, |u + p|)
         == (Dot(LeftMask(row, |u|), u, 0, |u|) != Dot(RightMask(row, |u|, |p|, rowIndex), p, 0, |p|))
  {
    hide Dot;
    var k, m, all := |u|, |p|, Indicator(row, 0, |u + p|);
    DotSplit(all, u + p, 0, k, k + m);
    DotLocal(all, u + p, LeftMask(row, k), u, 0, k, 0);
    forall j | 0 <= j < m ensures all[j + k] == RightMask(row, k, m, rowIndex)[j] {
      assert 0 + (j + k) == k + j;
    }
    DotLocal(all, u + p, RightMask(row, k, m, rowIndex), p, 0, m, k);
  }

  function Pow2(n: nat): nat {
    if n == 0 then 1 else 2 * Pow2(n - 1)
  }

  /** The number in which bit i of the row weighs 2^i. */
  function Number(bits: seq<bool>): nat {
    if bits == [] then 0
    else
      var i := |bits| - 1;
      Number(bits[..i]) + if bits[i] then Pow2(i) else 0
  }

  lemma {:induction false} SetBit(bits: seq<bool>, t: nat)
    requires t < |bits| && !bits[t]
    ensures Number(bits[t := true]) == Number(bits) + Pow2(t)
  {
    var i, more := |bits| - 1, bits[t := true];
    if t == i {
      assert more[..i] == bits[..i];
    } else {
      SetBit(bits[..i], t);
      assert more[..i] == bits[..i][t := true];
    }
  }

  lemma {:induction false} NoBits(bits: seq<bool>, n: nat)
    requires n <= |bits| && forall i | n <= i < |bits| :: !bits[i]
    ensures Number(bits) == Number(bits[..n])
    decreases |bits|
  {
    if n < |bits| {
      NoBits(bits[..|bits| - 1], n);
      assert bits[..|bits| - 1][..n] == bits[..n];
    } else {
      assert bits[..n] == bits;
    }
  }

  function FromTop(bits: seq<bool>): (r: seq<bool>)
    ensures |r| == |bits|
  {
    seq(|bits|, j requires 0 <= j < |bits| => bits[|bits| - 1 - j])
  }

  /** Information columns of the first e entries, the first column last. */
  function LeftBits(row: seq<nat>, k: nat, e: nat): (r: seq<bool>)
    requires e <= |row|
    ensures |r| == k
  {
    seq(k, j requires 0 <= j < k => (k - 1 - j) in row[..e])
  }

  function RightBits(row: seq<nat>, k: nat, m: nat, e: nat): (r: seq<bool>)
    requires e <= |row|
    ensures |r| == m
  {
    seq(m, j requires 0 <= j < m => (k + j) in row[..e])
  }

  lemma NextEntry(row: seq<nat>, k: nat, m: nat, e: nat)
    requires GoodRow(row) && e < |row| && row[e] < k + m
    ensures row[e] < k ==> (var t := k - 1 - row[e];
      !LeftBits(row, k, e)[t] && LeftBits(row, k, e + 1) == LeftBits(row, k, e)[t := true]) && RightBits(row, k, m, e + 1) == RightBits(row, k, m, e)
    ensures row[e] >= k ==> (var t := row[e] - k;
      !RightBits(row, k, m, e)[t] && RightBits(row, k, m, e + 1) == RightBits(row, k, m, e)[t := true]) && LeftBits(row, k, e + 1) == LeftBits(row, k, e)
  {
    assert row[..e + 1] == row[..e] + [row[e]];
  }

  /** The sums of shifts for one row are the numbers whose bits are its two masks; the left one counts columns from the top. */
  method SumShifts(row: seq<nat>, k: nat, m: nat, rowIndex: nat) returns (left: nat, right: nat)
    requires GoodRow(row) && rowIndex < m && forall e | 0 <= e < |row| :: row[e] < k + m
    ensures left == Number(FromTop(LeftMask(row, k)))
    ensures right == Number(RightMask(row, k, m, rowIndex))
  {
    hide GoodRow, LeftBits, RightBits, Number;
    left, right := 0, 0;
    NoEntries(row, k, m);
    var e := 0;
    while e < |row|
      invariant 0 <= e <= |row| && left == Number(LeftBits(row, k, e)) && right == Number(RightBits(row, k, m, e))
    {
      NextEntry(row, k, m, e);
      if row[e] < k {
        SetBit(LeftBits(row, k, e), k - 1 - row[e]);
        left := left + Pow2(k - 1 - row[e]);
      } else {
        SetBit(RightBits(row, k, m, e), row[e] - k);
        right := right + Pow2(row[e] - k);
      }
      e := e + 1;
    }
    AllEntries(row, k, m, rowIndex);
    right := right + Pow2(m + rowIndex);
  }

  lemma NoEntries(row: seq<nat>, k: nat, m: nat)
    ensures Number(LeftBits(row, k, 0)) == 0 && Number(RightBits(row, k, m, 0)) == 0
  {
    NoBits(LeftBits(row, k, 0), 0);
    NoBits(RightBits(row, k, m, 0), 0);
  }

  lemma AllEntries(row: seq<nat>, k: nat, m: nat, rowIndex: nat)
    requires rowIndex < m
    ensures FromTop(LeftMask(row, k)) == LeftBits(row, k, |row|)
    ensures Number(RightMask(row, k, m, rowIndex)) == Number(RightBits(row, k, m, |row|)) + Pow2(m + rowIndex)
  {
    hide Number;
    assert row[..|row|] == row;
    var low, mask := RightBits(row, k, m, |row|), RightMask(row, k, m, rowIndex);
    var clear := mask[m + rowIndex := false];
    assert clear[..m] == low;
    NoBits(clear, m);
    SetBit(clear, m + rowIndex);
    assert clear[m + rowIndex := true] == mask;
  }

  /** The mask numbers as rows of bits. */
  method BuildMasks(rows: seq<seq<nat>>, k: nat) returns (left: seq<seq<bool>>, right: seq<seq<bool>>)
    ensures Shaped(left, right, k, |rows|)
    ensures forall i | 0 <= i < |rows| :: left[i] == LeftMask(rows[i], k) && right[i] == RightMask(rows[i], k, |rows|, i)
  {
    left, right := [], [];
    for i := 0 to |rows|
      invariant |left| == |right| == i
      invariant forall j | 0 <= j < i :: left[j] == LeftMask(rows[j], k) && right[j] == RightMask(rows[j], k, |rows|, j)
    {
      left := left + [LeftMask(rows[i], k)];
      right := right + [RightMask(rows[i], k, |rows|, i)];
    }
  }

  lemma SystemOfRows(rows: seq<seq<nat>>, left: seq<seq<bool>>, right: seq<seq<bool>>, u: seq<bool>, p: seq<bool>)
    requires |p| == |rows| && Shaped(left, right, |u|, |p|)
    requires forall i | 0 <= i < |rows| :: left[i] == LeftMask(rows[i], |u|) && right[i] == RightMask(rows[i], |u|, |rows|, i)
    requires forall i | 0 <= i < |rows| :: GoodRow(rows[i])
    requires forall r, i | 0 <= r < |rows| && 0 <= i < |rows[r]| :: rows[r][i] < |u| + |p|
    ensures SatisfiesRows(rows, u + p) <==> Solves(left, right, u, p)
  {
    hide Even, Holds, GoodRow, LeftMask, RightMask;
    forall i | 0 <= i < |rows| ensures Even(rows[i], u + p) <==> Holds(left[i], right[i], u, p) {
      RowEquation(rows[i], u, p, i);
    }
  }

  // ---------------------------------------------------------------- render

  function MatrixRows(matrix: Matrix): seq<seq<nat>> {
    match matrix
    case Rows(rows, _) => rows
    case Circulants(size, blocks, _) => ExpandedRows(size, blocks)
  }

  /** For every information word, the encoder's parity bits complete it to the one codeword that starts with it. */
  ghost predicate SystematicEncoder(code: Code)
    requires code.WellFormed()
  {
    Encodable(code) && forall u: seq<bool>, p: seq<bool> | |u| == code.informationCount && |p| == |code.masks| ::
      Codeword(code, u + p) <==> p == ParityBits(code, u)
  }

  /** Some nonzero parity word completes the zero information word: the parity columns are linearly dependent. */
  ghost predicate SingularParity(rows: seq<seq<nat>>, k: nat, m: nat) {
    exists p: seq<bool> | |p| == m :: SatisfiesRows(rows, Zeros(k) + p) && exists i | 0 <= i < m :: p[i]
  }

  /** `left` and `right` are the bit masks of well-formed rows over k + |rows| variables. */
  ghost predicate MasksOf(rows: seq<seq<nat>>, left: seq<seq<bool>>, right: seq<seq<bool>>, k: nat) {
    && Shaped(left, right, k, |rows|)
    && (forall i | 0 <= i < |rows| :: left[i] == LeftMask(rows[i], k) && right[i] == RightMask(rows[i], k, |rows|, i))
    && (forall i | 0 <= i < |rows| :: GoodRow(rows[i]))
    && WithinVariables(rows, k + |rows|)
  }

  lemma SystemOfMasks(rows: seq<seq<nat>>, left: seq<seq<bool>>, right: seq<seq<bool>>, u: seq<bool>, p: seq<bool>)
    requires |p| == |rows| && MasksOf(rows, left, right, |u|)
    ensures SatisfiesRows(rows, u + p) <==> Solves(left, right, u, p)
  {
    hide GoodRow, LeftMask, RightMask, SatisfiesRows, Solves;
    SystemOfRows(rows, left, right, u, p);
  }

  lemma SingularIsKernel(rows: seq<seq<nat>>, left: seq<seq<bool>>, right: seq<seq<bool>>, k: nat)
    requires MasksOf(rows, left, right, k)
    ensures SingularParity(rows, k, |rows|) <==> exists p: seq<bool> | |p| == |rows| :: Kernel(left, right, k, p)
  {
    forall p: seq<bool> | |p| == |rows|
      ensures Kernel(left, right, k, p) <==> SatisfiesRows(rows, Zeros(k) + p) && exists i | 0 <= i < |rows| :: p[i]
    {
      hide MasksOf, SatisfiesRows, Solves;
      SystemOfMasks(rows, left, right, Zeros(k), p);
    }
  }

  /** The parity word the mask bytes assign to u. */
  function MaskProducts(masks: seq<seq<Byte>>, u: seq<bool>): (p: seq<bool>)
    requires forall j | 0 <= j < |masks| :: 8 * |masks[j]| == |u|
    ensures |p| == |masks|
  {
    seq(|masks|, j requires 0 <= j < |masks| => Dot(BitsOf(masks[j]), u, 0, |u|))
  }

  ghost predicate MasksSolve(rows: seq<seq<nat>>, masks: seq<seq<Byte>>, k: nat) {
    && k % 8 == 0 && |masks| == |rows| && (forall j | 0 <= j < |masks| :: |masks[j]| == k / 8)
    && forall u: seq<bool>, p: seq<bool> | |u| == k && |p| == |rows| ::
         SatisfiesRows(rows, u + p) <==> p == MaskProducts(masks, u)
  }

  /** The emitted mask bytes give the products the elimination found. */
  lemma PackedMasksSolve(rows: seq<seq<nat>>, left: seq<seq<bool>>, right: seq<seq<bool>>, found: seq<seq<bool>>, masks: seq<seq<Byte>>, k: nat)
    requires MasksOf(rows, left, right, k) && k % 8 == 0 && |rows| == |found| == |masks|
    requires forall i | 0 <= i < |found| :: |found[i]| == k && masks[i] == Pack(found[i])
    requires forall u: seq<bool>, p: seq<bool> | |u| == k && |p| == |rows| :: Solves(left, right, u, p) <==> p == Products(found, u)
    ensures MasksSolve(rows, masks, k)
  {
    hide MasksOf, SatisfiesRows, Solves, Pack;
    forall u: seq<bool>, p: seq<bool> | |u| == k && |p| == |rows|
      ensures SatisfiesRows(rows, u + p) <==> p == MaskProducts(masks, u)
    {
      SystemOfMasks(rows, left, right, u, p);
      PackedProducts(found, masks, u);
    }
  }

  lemma PackedProducts(found: seq<seq<bool>>, masks: seq<seq<Byte>>, u: seq<bool>)
    requires |found| == |masks| && |u| % 8 == 0
    requires forall i | 0 <= i < |found| :: |found[i]| == |u| && 8 * |masks[i]| == |u| && masks[i] == Pack(found[i])
    ensures Products(found, u) == MaskProducts(masks, u)
  {
    forall j | 0 <= j < |masks| ensures Products(found, u)[j] == MaskProducts(masks, u)[j] {
      hide Pack, Dot;
      PackBits(found[j]);
    }
  }

  lemma MasksEncode(code: Code, rows: seq<seq<nat>>)
    requires Lists(code, rows) && Encodable(code) && |rows| == |code.masks| && MasksSolve(rows, code.masks, code.informationCount)
    ensures SystematicEncoder(code)
  {
    forall u: seq<bool>, p: seq<bool> | |u| == code.informationCount && |p| == |code.masks|
      ensures Codeword(code, u + p) <==> p == ParityBits(code, u)
    {
      hide SatisfiesRows, Codeword, Dot;
      CodewordsOfRows(code, rows, u + p);
      assert ParityBits(code, u) == MaskProducts(code.masks, u);
    }
  }

  method PackMasks(masks: seq<seq<bool>>, k: nat) returns (bytes: seq<seq<Byte>>)
    requires k % 8 == 0 && forall i | 0 <= i < |masks| :: |masks[i]| == k
    ensures |bytes| == |masks| && forall i | 0 <= i < |masks| :: bytes[i] == Pack(masks[i])
  {
    bytes := [];
    for i := 0 to |masks|
      invariant |bytes| == i && forall j | 0 <= j < i :: bytes[j] == Pack(masks[j])
    {
      bytes := bytes + [Pack(masks[i])];
    }
  }

  /** Elimination applies when the information is whole bytes and there is one check per parity bit. */
  method FindMasks(rows: seq<seq<nat>>, k: nat) returns (masks: Option<seq<seq<Byte>>>)
    requires k % 8 == 0 && WithinVariables(rows, k + |rows|) && forall i | 0 <= i < |rows| :: GoodRow(rows[i])
    ensures masks.None? <==> SingularParity(rows, k, |rows|)
    ensures masks.Some? ==> |masks.value| == |rows| && MasksSolve(rows, masks.value, k)
  {
    hide GoodRow, LeftMask, RightMask, Kernel, SingularParity, MasksSolve, WithinVariables, Pack;
    var left, right := BuildMasks(rows, k);
    SingularIsKernel(rows, left, right, k);
    var found := Eliminate(left, right, k);
    if found.None? {
      return None;
    }
    var bytes := PackMasks(found.value, k);
    PackedMasksSolve(rows, left, right, found.value, bytes, k);
    return Some(bytes);
  }

  /**
   What a finished table promises: it lists exactly the given rows over as few
   variables as they name; it has masks
   exactly when elimination applies, and then the parity columns are independent
   and (for whole bytes of codeword) the masks are the systematic encoder.
   */
  ghost predicate Faithful(code: Code, rows: seq<seq<nat>>, k: nat) {
    && Lists(code, rows) && code.informationCount == k
    && code.variableCount > 0 && WithinVariables(rows, code.variableCount) && Names(rows, code.variableCount - 1)
    && (|code.masks| > 0 <==> k % 8 == 0 && code.variableCount == k + |rows|)
    && (|code.masks| > 0 ==> !SingularParity(rows, k, |rows|))
    && (|code.masks| > 0 && code.variableCount % 8 == 0 ==> SystematicEncoder(code))
  }

  /** Elimination runs: whole bytes of information and one check for each further variable that the rows name. */
  ghost predicate Square(rows: seq<seq<nat>>, k: nat) {
    |rows| > 0 && k % 8 == 0 && WithinVariables(rows, k + |rows|) && Names(rows, k + |rows| - 1)
  }

  lemma SquareIs(rows: seq<seq<nat>>, variables: nat, k: nat)
    requires |rows| > 0 && variables > 0 && WithinVariables(rows, variables) && Names(rows, variables - 1)
    ensures Square(rows, k) <==> k % 8 == 0 && variables == k + |rows|
  {
    if Square(rows, k) {
      var r :| 0 <= r < |rows| && variables - 1 in rows[r];
      var q :| 0 <= q < |rows| && k + |rows| - 1 in rows[q];
    }
  }

  /**
   The generator.  Each of the four ways to raise is taken exactly under its
   condition; otherwise the table lists exactly the given rows, and when it carries
   masks they form the systematic encoder of the code.
   */
  method Render(matrix: Matrix) returns (result: Rendered)
    ensures result.EmptyMaximum? <==> |MatrixRows(matrix)| == 0 || exists r | 0 <= r < |MatrixRows(matrix)| :: |MatrixRows(matrix)[r]| == 0
    ensures result.BadRow? <==> !result.EmptyMaximum? && exists r | 0 <= r < |MatrixRows(matrix)| :: !GoodRow(MatrixRows(matrix)[r])
    ensures result.NoPivot? <==>
      (&& !result.EmptyMaximum? && !result.BadRow? && Square(MatrixRows(matrix), matrix.informationBits)
       && SingularParity(MatrixRows(matrix), matrix.informationBits, |MatrixRows(matrix)|))
    ensures result.ZeroStep? <==>
      (&& !result.EmptyMaximum? && !result.BadRow? && Square(MatrixRows(matrix), matrix.informationBits)
       && !result.NoPivot? && matrix.informationBits == 0)
    ensures result.Table? ==> Faithful(result.code, MatrixRows(matrix), matrix.informationBits)
  {
    hide GoodRow, SingularParity, Faithful, WithinVariables, ExpandedRows, MasksSolve, Names, Square;
    var rows;
    match matrix {
      case Rows(given, _) => rows := given;
      case Circulants(size, blocks, _) => rows := Expand(size, blocks);
    }
    var k := matrix.informationBits;
    var maximum := Maximum(rows);
    if maximum.None? {
      return EmptyMaximum;
    }
    var variables := maximum.value + 1;
    var ok, offsets, edges := BuildEdges(rows);
    if !ok {
      return BadRow;
    }
    SquareIs(rows, variables, k);
    var failure, masks := ParityMasks(rows, variables, k);
    if failure.Some? {
      return failure.value;
    }
    result := Table(Code(variables, k, offsets, edges, masks));
    FinishedTable(result.code, rows);
  }

  lemma FinishedTable(code: Code, rows: seq<seq<nat>>)
    requires |rows| > 0 && |code.offsets| == |rows| + 1 && code.edges == Edges(rows, |rows|)
    requires forall c | 0 <= c <= |rows| :: code.offsets[c] == |Edges(rows, c)|
    requires forall r | 0 <= r < |rows| :: GoodRow(rows[r])
    requires code.variableCount > 0 && WithinVariables(rows, code.variableCount) && Names(rows, code.variableCount - 1)
    requires if code.informationCount % 8 == 0 && code.variableCount == code.informationCount + |rows|
             then code.informationCount > 0 && MasksSolve(rows, code.masks, code.informationCount)
                  && !SingularParity(rows, code.informationCount, |rows|)
             else code.masks == []
    ensures Faithful(code, rows, code.informationCount)
  {
    hide GoodRow, SingularParity, Lists, SystematicEncoder, WithinVariables, Edges, Names;
    RowsListed(code, rows);
    if |code.masks| > 0 && code.variableCount % 8 == 0 {
      MasksAreEncoder(code, rows);
    }
  }

  method ParityMasks(rows: seq<seq<nat>>, variables: nat, k: nat) returns (failure: Option<Rendered>, masks: seq<seq<Byte>>)
    requires |rows| > 0 && WithinVariables(rows, variables) && forall i | 0 <= i < |rows| :: GoodRow(rows[i])
    ensures failure.Some? ==> k % 8 == 0 && variables == k + |rows|
    ensures failure.Some? ==> failure.value == if SingularParity(rows, k, |rows|) then NoPivot else ZeroStep
    ensures failure == Some(ZeroStep) ==> k == 0
    ensures failure.None? ==> if k % 8 == 0 && variables == k + |rows|
                              then k > 0 && MasksSolve(rows, masks, k) && !SingularParity(rows, k, |rows|)
                              else masks == []
  {
    hide GoodRow, SingularParity, WithinVariables, MasksSolve;
    if k % 8 != 0 || variables != k + |rows| {
      return None, [];
    }
    var found := FindMasks(rows, k);
    if found.None? {
      return Some(NoPivot), [];
    }
    if k / 8 == 0 {
      return Some(ZeroStep), [];
    }
    return None, found.value;
  }

  lemma MasksAreEncoder(code: Code, rows: seq<seq<nat>>)
    requires Lists(code, rows) && MasksSolve(rows, code.masks, code.informationCount)
    requires code.informationCount > 0 && code.variableCount == code.informationCount + |rows|
    requires |rows| > 0 && code.variableCount % 8 == 0
    ensures SystematicEncoder(code)
  {
    MasksEncode(code, rows);
  }

  lemma RowsListed(code: Code, rows: seq<seq<nat>>)
    requires |rows| > 0 && |code.offsets| == |rows| + 1 && code.edges == Edges(rows, |rows|)
    requires forall c | 0 <= c <= |rows| :: code.offsets[c] == |Edges(rows, c)|
    requires forall r | 0 <= r < |rows| :: GoodRow(rows[r])
    requires WithinVariables(rows, code.variableCount)
    ensures Lists(code, rows)
  {
    ListsRows(code, rows);
  }
}
