/**
 What min-sum decoding of TC(128,64) is sure to do: fill the 32 punctured parity
 bits in one round, and correct isolated wrong values in one round.
 */
module Tc128Decode {
  import opened Ldpc
  import opened LdpcTable
  import opened FecLayout
  import opened MinSum
  import opened MinSumTheory
  import opened MinSumRecovery
  import opened Tc128
  import opened Tc128Code

  /** A table over the checks of TC128; the shipped one is such a table. */
  ghost predicate TcTable(code: Code) {
    code.variableCount == 128 && |code.edges| == 512 && ListsTc(code)
  }

  ghost predicate ListsTc(code: Code) {
    Lists(code, TcRows())
  }

  lemma ShippedTable()
    ensures TcTable(TcCode()) && TcCode().WellFormed()
  {
    hide TcCode, TcRows;
    TcLists();
  }

  // ---------------------------------------------------------------- edges of TC128

  /** Edge e of check r carries a variable of that row, and no other edge of r carries the same. */
  lemma TcEdge(code: Code, r: nat, e: nat)
    requires TcTable(code) && code.WellFormed() && code.InRow(r, e)
    ensures r < 64 && e < |code.edges| && code.edges[e] < 128 && code.edges[e] in TcRow(r)
    ensures forall f: nat | code.InRow(r, f) && f != e :: code.edges[f] != code.edges[e]
  {
    hide TcRow, TcRows;
    TcRowsAt();
    EdgeOfRow(code, TcRows(), r, e);
    assert TcRows()[r] == TcRow(r);
  }

  lemma EdgeOfRow(code: Code, rows: seq<seq<nat>>, r: nat, e: nat)
    requires Lists(code, rows) && code.InRow(r, e)
    ensures r < |rows| && code.edges[e] in rows[r]
    ensures forall f: nat | code.InRow(r, f) && f != e :: code.edges[f] != code.edges[e]
  {
    assert code.edges[e] == code.edges[code.offsets[r]..code.offsets[r + 1]][e - code.offsets[r]];
    forall f: nat | code.InRow(r, f) && f != e ensures code.edges[f] != code.edges[e] {
      if f < e {
        assert code.edges[f] < code.edges[e];
      } else {
        assert code.edges[e] < code.edges[f];
      }
    }
  }

  lemma RowNeedsEdge(code: Code, rows: seq<seq<nat>>, r: nat, v: nat)
    requires Lists(code, rows) && r < |rows| && v in rows[r]
    ensures exists e: nat :: code.InRow(r, e) && code.edges[e] == v
  {
    var i :| 0 <= i < |rows[r]| && rows[r][i] == v;
    var e := code.offsets[r] + i;
    assert rows[r] == code.edges[code.offsets[r]..code.offsets[r + 1]];
    assert code.edges[e] == code.edges[code.offsets[r]..code.offsets[r + 1]][i];
    assert code.InRow(r, e);
  }

  // ---------------------------------------------------------------- the punctured positions

  /** The check whose only punctured variable is v. */
  function FillingRow(v: nat): (r: nat)
    requires Punctured(v)
    ensures r < 32
  {
    if v < 80 then 16 + (v - 64) else v - 80
  }

  lemma FillingBlocks()
    ensures SmallBlocks(Blocks())
    ensures Blocks()[0][4] == [] && Blocks()[0][5] == [0] && Blocks()[1][4] == [0] && Blocks()[1][5] == []
  {
    TcBlocks();
  }

  lemma FillingShift(v: nat, u: nat)
    requires Punctured(v) && Punctured(u)
    ensures FillingRow(v) / 16 == if v / 16 == 4 then 1 else 0
    ensures (u % 16 + 16 - FillingRow(v) % 16) % 16 == 0 <==> u % 16 == v % 16
  {}

  lemma SameVariable(v: nat, u: nat)
    requires Punctured(v) && Punctured(u)
    ensures (v / 16 == 4 || v / 16 == 5) && (u / 16 == 4 || u / 16 == 5)
    ensures u == v <==> u / 16 == v / 16 && u % 16 == v % 16
  {}

  lemma OnlyErasure(v: nat, u: nat)
    requires Punctured(v) && Punctured(u)
    ensures u in TcRow(FillingRow(v)) <==> u == v
  {
    hide TcRow, Blocks, FillingRow;
    InTcRow(FillingRow(v), u);
    FillingBlocks();
    FillingShift(v, u);
    SameVariable(v, u);
  }

  /** The edge through which the first round recovers v. */
  ghost predicate Fills(code: Code, v: nat, e: nat)
    requires code.WellFormed()
  {
    Punctured(v) && code.InRow(FillingRow(v), e) && code.edges[e] == v
  }

  lemma FillingEdge(code: Code, v: nat) returns (e: nat)
    requires TcTable(code) && code.WellFormed() && Punctured(v)
    ensures Fills(code, v, e)
  {
    hide TcRow, TcRows;
    TcRowsAt();
    OnlyErasure(v, v);
    RowNeedsEdge(code, TcRows(), FillingRow(v), v);
    e :| code.InRow(FillingRow(v), e) && code.edges[e] == v;
  }

  lemma {:induction false} FillingEdges(code: Code, n: nat) returns (via: seq<nat>)
    requires TcTable(code) && code.WellFormed() && n <= 128
    ensures |via| == n && forall v | 0 <= v < n && Punctured(v) :: Fills(code, v, via[v])
  {
    hide TcTable, Fills, Code.WellFormed;
    via := [];
    if n > 0 {
      var shorter := FillingEdges(code, n - 1);
      var e := 0;
      if Punctured(n - 1) {
        e := FillingEdge(code, n - 1);
      }
      via := shorter + [e];
    }
  }

  ghost function TcLevels(): (level: seq<nat>)
    ensures |level| == 128 && forall v | 0 <= v < 128 :: level[v] == if Punctured(v) then 1 else 0
  {
    seq(128, v requires 0 <= v < 128 => if Punctured(v) then 1 else 0)
  }

  lemma FilledByReceived(code: Code, v: nat, e: nat, f: nat)
    requires TcTable(code) && code.WellFormed() && Fills(code, v, e) && code.InRow(RowOf(code, e), f) && f != e
    ensures code.edges[f] < 128 && !Punctured(code.edges[f])
  {
    hide TcTable, TcRow, RowOf;
    var r := FillingRow(v);
    RowUnique(code, r, RowOf(code, e), e);
    TcEdge(code, r, e);
    TcEdge(code, r, f);
    if Punctured(code.edges[f]) {
      OnlyErasure(v, code.edges[f]);
    }
  }

  lemma TcPeels(code: Code, llr: seq<real>, via: seq<nat>)
    requires TcTable(code) && code.WellFormed() && |llr| == |via| == 128
    requires forall v | 0 <= v < 128 && Punctured(v) :: Fills(code, v, via[v])
    requires forall v | 0 <= v < 128 && !Punctured(v) :: llr[v] != 0.0
    ensures Peels(code, llr, TcLevels(), via)
  {
    hide RowOf, ListsTc;
    forall v, f: nat | 0 <= v < 128 && Punctured(v) && code.InRow(RowOf(code, via[v]), f) && f != via[v]
      ensures code.edges[f] < 128 && !Punctured(code.edges[f])
    {
      FilledByReceived(code, v, via[v], f);
    }
  }

  /**
   With the punctured parity bits erased and every received value nonzero and of
   the right sign, one round returns the transmitted codeword.
   */
  lemma TcErasuresFilled(code: Code, word: seq<bool>, llr: seq<real>, norm: real, limit: nat)
    requires TcTable(code) && code.WellFormed() && Codeword(code, word) && |word| == |llr| == 128 && norm > 0.0 && limit > 0
    requires Agrees(code, word, llr) && forall v | 0 <= v < 128 && !Punctured(v) :: llr[v] != 0.0
    ensures Decode(code, llr, norm, limit) == Outcome(word, true, 1, 0)
  {
    hide ListsTc, Decode, Codeword, Fills, Peels, Code.WellFormed;
    var via := FillingEdges(code, 128);
    TcPeels(code, llr, via);
    PeelableErasuresAreFilled(code, word, llr, norm, limit, TcLevels(), via, 1);
  }

  // ---------------------------------------------------------------- variable degrees

  /** Occurrences of position t in the first n rows of a circulant. */
  function CirculantHits(shifts: seq<nat>, t: nat, n: nat): nat {
    if n == 0 then 0 else CirculantHits(shifts, t, n - 1) + Hits(shifts, n - 1, t, |shifts|)
  }

  function Before(shift: nat, t: nat, n: nat): nat
    requires shift < 16
  {
    if (t + 16 - shift) % 16 < n then 1 else 0
  }

  lemma BeforeStep(shift: nat, t: nat, n: nat)
    requires shift < 16 && t < 16 && n < 16
    ensures Before(shift, t, n + 1) == Before(shift, t, n) + if (n + shift) % 16 == t then 1 else 0
  {}

  lemma {:induction false} CirculantHitsAre(shifts: seq<nat>, t: nat, n: nat)
    requires SmallShifts(shifts) && t < 16 && n <= 16
    ensures |shifts| == 0 ==> CirculantHits(shifts, t, n) == 0
    ensures |shifts| == 1 ==> CirculantHits(shifts, t, n) == Before(shifts[0], t, n)
    ensures |shifts| == 2 ==> CirculantHits(shifts, t, n) == Before(shifts[0], t, n) + Before(shifts[1], t, n)
  {
    if n > 0 {
      CirculantHitsAre(shifts, t, n - 1);
      HitsExpanded(shifts, n - 1, t);
      if |shifts| > 0 {
        BeforeStep(shifts[0], t, n - 1);
      }
      if |shifts| == 2 {
        BeforeStep(shifts[1], t, n - 1);
      }
      hide Before, Hits;
    }
  }

  lemma HitsExpanded(shifts: seq<nat>, i: nat, t: nat)
    requires SmallShifts(shifts)
    ensures |shifts| == 0 ==> Hits(shifts, i, t, |shifts|) == 0
    ensures |shifts| == 1 ==> Hits(shifts, i, t, |shifts|) == if (i + shifts[0]) % 16 == t then 1 else 0
    ensures |shifts| == 2 ==>
      Hits(shifts, i, t, |shifts|) == (if (i + shifts[0]) % 16 == t then 1 else 0) + (if (i + shifts[1]) % 16 == t then 1 else 0)
  {
    if |shifts| == 2 {
      assert Hits(shifts, i, t, 1) == if (i + shifts[0]) % 16 == t then 1 else 0;
    }
  }

  /** Occurrences of v in the first n checks. */
  function CountUpTo(v: nat, n: nat): nat
    requires n <= 64
  {
    if n == 0 then 0 else CountUpTo(v, n - 1) + TcCount(n - 1, v)
  }

  lemma {:induction false} DegreeIsCount(v: nat, n: nat)
    requires n <= 64 && |TcRows()| == 64
    ensures |Edges(TcRows(), n)| == 8 * n && Degree(Edges(TcRows(), n), v, 8 * n) == CountUpTo(v, n)
  {
    hide TcRows, TcRow, TcCount;
    if n > 0 {
      DegreeIsCount(v, n - 1);
      TcRowsAt();
      TcRowDegree(n - 1, v);
      DegreeConcat(Edges(TcRows(), n - 1), TcRows()[n - 1], v, 8);
    }
  }

  lemma {:induction false} CountBlock(v: nat, b: nat, n: nat)
    requires v < 128 && b < 4 && n <= 16 && SmallBlocks(Blocks())
    ensures CountUpTo(v, 16 * b + n) == CountUpTo(v, 16 * b) + CirculantHits(Blocks()[b][v / 16], v % 16, n)
  {
    hide Blocks, Hits;
    if n > 0 {
      CountBlock(v, b, n - 1);
      assert (16 * b + n - 1) / 16 == b && (16 * b + n - 1) % 16 == n - 1;
    }
  }

  lemma ColumnWeights(k: nat)
    requires k < 8
    ensures SmallBlocks(Blocks())
    ensures |Blocks()[0][k]| + |Blocks()[1][k]| + |Blocks()[2][k]| + |Blocks()[3][k]| == if k < 4 then 5 else 3
  {
    TcBlocks();
    assert k == 0 || k == 1 || k == 2 || k == 3 || k == 4 || k == 5 || k == 6 || k == 7;
  }

  /** Every information bit takes part in five checks, every parity bit in three. */
  lemma TcDegrees(v: nat)
    requires v < 128
    ensures |Edges(TcRows(), |TcRows()|)| == 512
    ensures Degree(Edges(TcRows(), |TcRows()|), v, 512) == if v < 64 then 5 else 3
  {
    hide TcRows, Blocks, TcCount, CountUpTo, Degree, Edges;
    TcRowsAt();
    DegreeIsCount(v, 64);
    CountStart(v);
    ColumnWeights(v / 16);
    CountWholeBlock(v, 0);
    CountWholeBlock(v, 1);
    CountWholeBlock(v, 2);
    CountWholeBlock(v, 3);
  }

  lemma CountStart(v: nat)
    ensures CountUpTo(v, 0) == 0
  {}

  lemma CountWholeBlock(v: nat, b: nat)
    requires v < 128 && b < 4 && SmallBlocks(Blocks())
    ensures CountUpTo(v, 16 * b + 16) == CountUpTo(v, 16 * b) + |Blocks()[b][v / 16]|
  {
    hide Blocks, CountUpTo;
    CountBlock(v, b, 16);
    CirculantHitsAre(Blocks()[b][v / 16], v % 16, 16);
  }

  // ---------------------------------------------------------------- isolated errors

  lemma {:induction false} EdgesAreRows(code: Code, rows: seq<seq<nat>>, c: nat)
    requires Lists(code, rows) && c <= |rows|
    ensures code.edges[..code.offsets[c]] == Edges(rows, c)
  {
    if c > 0 {
      EdgesAreRows(code, rows, c - 1);
      assert code.edges[code.offsets[c - 1]..code.offsets[c]] == rows[c - 1];
      assert code.edges[..code.offsets[c]] == code.edges[..code.offsets[c - 1]] + rows[c - 1];
    }
  }

  lemma TcEdges(code: Code)
    requires TcTable(code)
    ensures code.edges == Edges(TcRows(), |TcRows()|)
  {
    hide TcRows, Edges;
    EdgesAreRows(code, TcRows(), |TcRows()|);
    assert code.edges[..|code.edges|] == code.edges;
  }

  /** With normalization 3/4, values of magnitude at most a are corrected when the rest reach b > 3.75 a. */
  lemma TcErrorsCorrected(code: Code, word: seq<bool>, llr: seq<real>, weak: set<nat>, limit: nat, a: real, b: real)
    requires TcTable(code) && code.WellFormed() && Codeword(code, word) && |word| == |llr| == 128 && limit > 0
    requires a >= 0.0 && 3.75 * a < b
    requires ChannelMargins(word, llr, weak, a, b) && NoSharedCheck(code, weak)
    ensures Decode(code, llr, 0.75, limit) == Outcome(word, true, 1, 0)
  {
    hide ListsTc, Decode, Codeword, ChannelMargins, NoSharedCheck, Degree, TcRows, Code.WellFormed, Edges;
    TcEdges(code);
    forall v: nat | v < 128
      ensures var d := Degree(code.edges, v, |code.edges|) as real;
              if v in weak then a < d * (0.75 * b) else d * (0.75 * a) < b
    {
      TcDegrees(v);
    }
    IsolatedErrorsAreCorrected(code, word, llr, weak, 0.75, limit, a, b);
  }

  /** The sixteen bits of one parity block never meet in a check, so all of them may be wrong at once. */
  lemma ParityBlockIsIsolated(code: Code, weak: set<nat>, k: nat)
    requires TcTable(code) && code.WellFormed() && k < 4 && forall v | v in weak :: 64 + 16 * k <= v < 80 + 16 * k
    ensures NoSharedCheck(code, weak)
  {
    hide TcTable, TcRow;
    forall c: nat, e: nat, f: nat |
      code.InRow(c, e) && code.InRow(c, f) && e != f && code.edges[e] in weak
      ensures code.edges[f] !in weak
    {
      TcEdge(code, c, e);
      TcEdge(code, c, f);
      var u, v := code.edges[e], code.edges[f];
      if v in weak {
        OneParityVariable(c, k, u, v);
      }
    }
  }

  lemma OneParityVariable(r: nat, k: nat, u: nat, v: nat)
    requires r < 64 && k < 4 && u in TcRow(r) && v in TcRow(r) && u / 16 == 4 + k && v / 16 == 4 + k
    ensures u == v
  {
    hide TcRow, Blocks;
    InTcRow(r, u);
    InTcRow(r, v);
    OneShift(r / 16, k);
  }

  lemma OneShift(b: nat, k: nat)
    requires b < 4 && k < 4
    ensures SmallBlocks(Blocks()) && |Blocks()[b][4 + k]| <= 1
  {
    TcBlocks();
    assert b == 0 || b == 1 || b == 2 || b == 3;
    assert k == 0 || k == 1 || k == 2 || k == 3;
  }
}
