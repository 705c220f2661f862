/**
 The TC(128,64) table as a linear code: the shipped masks complete every
 information word to a codeword, that completion is unique, and the generator run
 on the circulant description can only write this table.
 */
module Tc128Table {
  import opened Bits
  import opened Ldpc
  import opened Gf2
  import opened LdpcTable
  import opened Tc128
  import opened Tc128Code

  // ---------------------------------------------------------------- the masks satisfy every check

  lemma {:induction false} DotThree(r: seq<bool>, p: seq<bool>, a: nat, b: nat, c: nat, n: nat)
    requires n <= |r| && n <= |p| && a != b && a != c && b != c && a < |p| && b < |p| && c < |p|
    requires forall j | 0 <= j < n :: r[j] == (j == a || j == b || j == c)
    ensures Dot(r, p, 0, n) == (((a < n && p[a]) != (b < n && p[b])) != (c < n && p[c]))
  {
    if n > 0 {
      DotThree(r, p, a, b, c, n - 1);
    }
  }

  lemma DistinctColumns(r: nat)
    requires r < 64
    ensures ParityColumn(r, 0) < ParityColumn(r, 1) < ParityColumn(r, 2)
  {
    hide Term;
    TermRange(r / 16, 0);
    TermRange(r / 16, 1);
    TermRange(r / 16, 2);
  }

  /** The parity half of check r is the sum of three parity bits. */
  lemma RightProduct(r: nat, p: seq<bool>)
    requires r < 64 && |p| == 64
    ensures Dot(RightMask(TcRow(r), 64, 64, r), p, 0, 64)
         == ((p[ParityColumn(r, 0)] != p[ParityColumn(r, 1)]) != p[ParityColumn(r, 2)])
  {
    hide TcRow, ParityColumn;
    var mask := RightMask(TcRow(r), 64, 64, r);
    forall j | 0 <= j < 64
      ensures mask[j] == (j == ParityColumn(r, 0) || j == ParityColumn(r, 1) || j == ParityColumn(r, 2))
    {
      RightColumns(r, j);
    }
    DistinctColumns(r);
    DotThree(mask, p, ParityColumn(r, 0), ParityColumn(r, 1), ParityColumn(r, 2), 64);
  }

  /** The information half of check r is the sum of the products with the three masks. */
  lemma LeftProduct(r: nat, u: seq<bool>)
    requires r < 64 && |u| == 64
    ensures Dot(LeftMask(TcRow(r), 64), u, 0, 64)
         == ((Dot(TcMaskRow(ParityColumn(r, 0)), u, 0, 64) != Dot(TcMaskRow(ParityColumn(r, 1)), u, 0, 64))
             != Dot(TcMaskRow(ParityColumn(r, 2)), u, 0, 64))
  {
    hide TcRow, ParityColumn, MaskBit;
    var m0, m1, m2 := TcMaskRow(ParityColumn(r, 0)), TcMaskRow(ParityColumn(r, 1)), TcMaskRow(ParityColumn(r, 2));
    var left := LeftMask(TcRow(r), 64);
    forall i | 0 <= i < 64 ensures left[i] == Xor(Xor(m0, m1), m2)[i] {
      LeftColumns(r, i);
    }
    assert left == Xor(Xor(m0, m1), m2);
    DotXor(Xor(m0, m1), m2, u, 0, 64);
    DotXor(m0, m1, u, 0, 64);
  }

  lemma MaskProductAt(u: seq<bool>, j: nat)
    requires |u| == 64 && j < 64
    ensures MaskProducts(TcMasks(), u)[j] == Dot(TcMaskRow(j), u, 0, 64)
  {
    hide TcMasks, TcMaskRow, Dot, MaskBytes, BitsOf;
    TcMaskBits(j);
  }

  lemma TcRowHolds(r: nat, u: seq<bool>)
    requires r < 64 && |u| == 64
    ensures Even(TcRow(r), u + MaskProducts(TcMasks(), u))
  {
    hide TcRow, TcMasks, TcMaskRow, MaskProducts, Dot, LeftMask, RightMask, Even, GoodRow, ParityColumn;
    var p := MaskProducts(TcMasks(), u);
    RightProduct(r, p);
    LeftProduct(r, u);
    MaskProductAt(u, ParityColumn(r, 0));
    MaskProductAt(u, ParityColumn(r, 1));
    MaskProductAt(u, ParityColumn(r, 2));
    TcRowShape(r);
    RowEquation(TcRow(r), u, p, r);
  }

  /** Every information word followed by its mask products satisfies all 64 checks. */
  lemma TcMasksSatisfy(u: seq<bool>)
    requires |u| == 64
    ensures SatisfiesRows(TcRows(), u + MaskProducts(TcMasks(), u))
  {
    hide TcRows, TcRow, TcMasks, MaskProducts, Even;
    TcRowsAt();
    forall r | 0 <= r < 64 ensures Even(TcRows()[r], u + MaskProducts(TcMasks(), u)) {
      TcRowHolds(r, u);
    }
  }

  // ---------------------------------------------------------------- the parity columns are independent

  /** First row of block k of the inverse of the parity half, cut by block row. */
  function InverseWord(k: nat, b: nat): bv16
    requires k < 4 && b < 4
  {
    if k == 0 then (if b == 0 then 0x359c else if b == 1 then 0x393d else if b == 2 then 0x7f72 else 0x95dc)
    else if k == 1 then (if b == 0 then 0xc8be else if b == 1 then 0x386b else if b == 2 then 0xf670 else 0x7d9d)
    else if k == 2 then (if b == 0 then 0xb22f else if b == 1 then 0x78c1 else if b == 2 then 0x86f1 else 0x69bc)
    else (if b == 0 then 0xd9c3 else if b == 1 then 0xfe60 else if b == 2 then 0xc1fc else 0x307e)
  }

  /** Whether check r takes part in isolating parity bit q. */
  predicate InverseBit(q: nat, r: nat)
    requires q < 64 && r < 64
  {
    Bit16(InverseWord(q / 16, r / 16), (r % 16 + 16 - q % 16) % 16)
  }

  /** Block row and shift of the n-th circulant in parity block column k. */
  function ColumnTerm(k: nat, n: nat): (nat, nat)
    requires k < 4 && n < 3
  {
    if k == 0 then (if n == 0 then (1, 0) else if n == 1 then (2, 11) else (3, 14))
    else if k == 1 then (if n == 0 then (0, 0) else if n == 1 then (2, 0) else (3, 1))
    else if k == 2 then (if n == 0 then (0, 13) else if n == 1 then (1, 0) else (3, 0))
    else (if n == 0 then (0, 0) else if n == 1 then (1, 7) else (2, 3))
  }

  function ColumnWord(q: nat, k: nat, n: nat): bv16
    requires q < 4 && k < 4 && n < 3
  {
    Rotate(InverseWord(q, ColumnTerm(k, n).0), ColumnTerm(k, n).1)
  }

  /** The inverse words against each parity block column leave the identity circulant or nothing. */
  lemma InverseIdentity(q: nat, k: nat)
    requires q < 4 && k < 4
    ensures ThreeWords(ColumnWord(q, k, 0), ColumnWord(q, k, 1), ColumnWord(q, k, 2)) == if q == k then 0x8000 else 0
  {
    if q == 0 {
      InverseIdentity0(k);
    } else if q == 1 {
      InverseIdentity1(k);
    } else if q == 2 {
      InverseIdentity2(k);
    } else {
      InverseIdentity3(k);
    }
  }

  lemma InverseIdentity0(k: nat)
    requires k < 4
    ensures ThreeWords(ColumnWord(0, k, 0), ColumnWord(0, k, 1), ColumnWord(0, k, 2)) == if k == 0 then 0x8000 else 0
  {
    hide Rotate;
    Rotations(InverseWord(0, 0));
    Rotations(InverseWord(0, 1));
    Rotations(InverseWord(0, 2));
    Rotations(InverseWord(0, 3));
    assert k == 0 || k == 1 || k == 2 || k == 3;
  }

  lemma InverseIdentity1(k: nat)
    requires k < 4
    ensures ThreeWords(ColumnWord(1, k, 0), ColumnWord(1, k, 1), ColumnWord(1, k, 2)) == if k == 1 then 0x8000 else 0
  {
    hide Rotate;
    Rotations(InverseWord(1, 0));
    Rotations(InverseWord(1, 1));
    Rotations(InverseWord(1, 2));
    Rotations(InverseWord(1, 3));
    assert k == 0 || k == 1 || k == 2 || k == 3;
  }

  lemma InverseIdentity2(k: nat)
    requires k < 4
    ensures ThreeWords(ColumnWord(2, k, 0), ColumnWord(2, k, 1), ColumnWord(2, k, 2)) == if k == 2 then 0x8000 else 0
  {
    hide Rotate;
    Rotations(InverseWord(2, 0));
    Rotations(InverseWord(2, 1));
    Rotations(InverseWord(2, 2));
    Rotations(InverseWord(2, 3));
    assert k == 0 || k == 1 || k == 2 || k == 3;
  }

  lemma InverseIdentity3(k: nat)
    requires k < 4
    ensures ThreeWords(ColumnWord(3, k, 0), ColumnWord(3, k, 1), ColumnWord(3, k, 2)) == if k == 3 then 0x8000 else 0
  {
    hide Rotate;
    Rotations(InverseWord(3, 0));
    Rotations(InverseWord(3, 1));
    Rotations(InverseWord(3, 2));
    Rotations(InverseWord(3, 3));
    assert k == 0 || k == 1 || k == 2 || k == 3;
  }

  /** The n-th check that names parity column c. */
  function NamingRow(c: nat, n: nat): (r: nat)
    requires c < 64 && n < 3
    ensures r < 64
  {
    16 * ColumnTerm(c / 16, n).0 + (c % 16 + 16 - ColumnTerm(c / 16, n).1) % 16
  }

  lemma ColumnTermRange(k: nat, n: nat)
    requires k < 4 && n < 3
    ensures ColumnTerm(k, n).0 < 4 && ColumnTerm(k, n).1 < 16
    ensures ColumnTerm(k, 0).0 < ColumnTerm(k, 1).0 < ColumnTerm(k, 2).0
  {}

  lemma ColumnShifts(b: nat, k: nat, d: nat)
    requires b < 4 && k < 4 && d < 16
    ensures SmallBlocks(Blocks())
    ensures d in Blocks()[b][4 + k] <==> (b, d) == ColumnTerm(k, 0) || (b, d) == ColumnTerm(k, 1) || (b, d) == ColumnTerm(k, 2)
  {
    TcBlocks();
    assert b == 0 || b == 1 || b == 2 || b == 3;
    assert k == 0 || k == 1 || k == 2 || k == 3;
  }

  lemma ModRow(r: nat, b: nat, c: nat, s: nat)
    requires c < 16 && s < 16
    ensures r == 16 * b + (c + 16 - s) % 16 <==> r / 16 == b && (c + 16 - r % 16) % 16 == s
  {}

  lemma NamingRowOf(c: nat, r: nat, n: nat)
    requires c < 64 && r < 64 && n < 3
    ensures r == NamingRow(c, n) <==> (r / 16, (c % 16 + 16 - r % 16) % 16) == ColumnTerm(c / 16, n)
  {
    ColumnTermRange(c / 16, n);
    hide ColumnTerm;
    ModRow(r, ColumnTerm(c / 16, n).0, c % 16, ColumnTerm(c / 16, n).1);
  }

  lemma ColumnRows(c: nat, r: nat)
    requires c < 64 && r < 64
    ensures 64 + c in TcRow(r) <==> r == NamingRow(c, 0) || r == NamingRow(c, 1) || r == NamingRow(c, 2)
  {
    hide TcRow, Blocks, ColumnTerm, NamingRow;
    InTcRow(r, 64 + c);
    assert (64 + c) / 16 == 4 + c / 16 && (64 + c) % 16 == c % 16;
    ColumnShifts(r / 16, c / 16, (c % 16 + 16 - r % 16) % 16);
    NamingRowOf(c, r, 0);
    NamingRowOf(c, r, 1);
    NamingRowOf(c, r, 2);
  }

  lemma ModTwice(c: nat, s: nat, q: nat)
    requires c < 16 && s < 16 && q < 16
    ensures ((c + 16 - s) % 16 + 16 - q) % 16 == (c + 32 - s - q) % 16
  {}

  lemma ModBack(c: nat, s: nat, q: nat)
    requires c < 16 && s < 16 && q < 16
    ensures ((c + 16 - s) % 16 + 16 - q) % 16 == ((c + 16 - q) % 16 + 16 - s) % 16
  {
    ModTwice(c, s, q);
    ModTwice(c, q, s);
  }

  lemma NamingParts(c: nat, n: nat)
    requires c < 64 && n < 3
    ensures NamingRow(c, n) / 16 == ColumnTerm(c / 16, n).0
    ensures NamingRow(c, n) % 16 == (c % 16 + 16 - ColumnTerm(c / 16, n).1) % 16
  {
    hide ColumnTerm;
  }

  lemma InverseAt(q: nat, c: nat, n: nat)
    requires q < 64 && c < 64 && n < 3
    ensures InverseBit(q, NamingRow(c, n)) == Bit16(ColumnWord(q / 16, c / 16, n), (c % 16 + 16 - q % 16) % 16)
  {
    hide InverseWord, Rotate, Bit16, ColumnTerm, NamingRow;
    ColumnTermRange(c / 16, n);
    NamingParts(c, n);
    var b, s := ColumnTerm(c / 16, n).0, ColumnTerm(c / 16, n).1;
    var d := (c % 16 + 16 - q % 16) % 16;
    RotateBit(InverseWord(q / 16, b), s, d);
    ModBack(c % 16, s, q % 16);
    assert (NamingRow(c, n) % 16 + 16 - q % 16) % 16 == (d + 16 - s) % 16;
  }

  lemma InverseBits(q: nat, k: nat, d: nat)
    requires q < 4 && k < 4 && d < 16
    ensures ((Bit16(ColumnWord(q, k, 0), d) != Bit16(ColumnWord(q, k, 1), d)) != Bit16(ColumnWord(q, k, 2), d))
        <==> (q == k && d == 0)
  {
    hide ColumnWord, Bit16, ThreeWords;
    InverseIdentity(q, k);
    ThreeBits(ColumnWord(q, k, 0), ColumnWord(q, k, 1), ColumnWord(q, k, 2), d);
    OneBit(0, d);
    assert Bit16Mask(0) == 0x8000;
  }

  lemma InverseColumn(q: nat, c: nat)
    requires q < 64 && c < 64
    ensures ((InverseBit(q, NamingRow(c, 0)) != InverseBit(q, NamingRow(c, 1))) != InverseBit(q, NamingRow(c, 2))) == (q == c)
  {
    hide ColumnWord, Bit16, NamingRow, InverseBit;
    InverseAt(q, c, 0);
    InverseAt(q, c, 1);
    InverseAt(q, c, 2);
    InverseBits(q / 16, c / 16, (c % 16 + 16 - q % 16) % 16);
  }

  /** Sum of the first n rows selected by `pick`. */
  function Combine(pick: seq<bool>, rows: seq<seq<bool>>, width: nat, n: nat): (r: seq<bool>)
    requires n <= |rows| == |pick| && forall i | 0 <= i < |rows| :: |rows[i]| == width
    ensures |r| == width
  {
    if n == 0 then Zeros(width)
    else if pick[n - 1] then Xor(Combine(pick, rows, width, n - 1), rows[n - 1])
    else Combine(pick, rows, width, n - 1)
  }

  function Column(rows: seq<seq<bool>>, width: nat, c: nat): (r: seq<bool>)
    requires c < width && forall i | 0 <= i < |rows| :: |rows[i]| == width
    ensures |r| == |rows|
  {
    seq(|rows|, i requires 0 <= i < |rows| => rows[i][c])
  }

  lemma {:induction false} CombineColumn(pick: seq<bool>, rows: seq<seq<bool>>, width: nat, n: nat, c: nat)
    requires n <= |rows| == |pick| && (forall i | 0 <= i < |rows| :: |rows[i]| == width) && c < width
    ensures Combine(pick, rows, width, n)[c] == Dot(Column(rows, width, c), pick, 0, n)
  {
    if n > 0 {
      CombineColumn(pick, rows, width, n - 1, c);
    }
  }

  /** A word orthogonal to every row is orthogonal to their combinations. */
  lemma {:induction false} CombineProduct(pick: seq<bool>, rows: seq<seq<bool>>, p: seq<bool>, n: nat)
    requires n <= |rows| == |pick| && forall i | 0 <= i < |rows| :: |rows[i]| == |p| && !Dot(rows[i], p, 0, |p|)
    ensures !Dot(Combine(pick, rows, |p|, n), p, 0, |p|)
  {
    if n == 0 {
      DotZero(Zeros(|p|), p, 0, |p|);
    } else {
      CombineProduct(pick, rows, p, n - 1);
      DotXor(Combine(pick, rows, |p|, n - 1), rows[n - 1], p, 0, |p|);
    }
  }

  function TcRightRow(r: nat): (mask: seq<bool>)
    requires r < 64
    ensures |mask| == 64
  {
    Indicator(TcRow(r), 64, 64)
  }

  function TcRightRows(): (r: seq<seq<bool>>)
    ensures |r| == 64 && forall i | 0 <= i < 64 :: |r[i]| == 64
  {
    seq(64, r requires 0 <= r < 64 => TcRightRow(r))
  }

  function InversePick(q: nat): (r: seq<bool>)
    requires q < 64
    ensures |r| == 64
  {
    seq(64, r requires 0 <= r < 64 => InverseBit(q, r))
  }

  lemma CombinedIsUnit(q: nat, c: nat)
    requires q < 64 && c < 64
    ensures Combine(InversePick(q), TcRightRows(), 64, 64)[c] == (c == q)
  {
    hide TcRow, NamingRow, InverseBit, Combine;
    var column := Column(TcRightRows(), 64, c);
    forall r | 0 <= r < 64
      ensures column[r] == (r == NamingRow(c, 0) || r == NamingRow(c, 1) || r == NamingRow(c, 2))
    {
      ColumnRows(c, r);
    }
    DistinctNaming(c);
    DotThree(column, InversePick(q), NamingRow(c, 0), NamingRow(c, 1), NamingRow(c, 2), 64);
    CombineColumn(InversePick(q), TcRightRows(), 64, 64, c);
    InverseColumn(q, c);
  }

  lemma DistinctNaming(c: nat)
    requires c < 64
    ensures NamingRow(c, 0) < NamingRow(c, 1) < NamingRow(c, 2)
  {
    ColumnTermRange(c / 16, 0);
    ColumnTermRange(c / 16, 1);
    ColumnTermRange(c / 16, 2);
    hide ColumnTerm;
  }

  /** No nonzero parity word is orthogonal to the parity half of every check. */
  lemma TcParityIndependent(p: seq<bool>)
    requires |p| == 64 && forall r | 0 <= r < 64 :: !Dot(TcRightRows()[r], p, 0, 64)
    ensures p == Zeros(64)
  {
    hide TcRightRows, InversePick, Combine;
    forall q | 0 <= q < 64 ensures !p[q] {
      var unit := Combine(InversePick(q), TcRightRows(), 64, 64);
      CombineProduct(InversePick(q), TcRightRows(), p, 64);
      forall c | 0 <= c < 64 ensures unit[c] == (c == q) {
        CombinedIsUnit(q, c);
      }
      DotUnit(unit, p, q, 64);
    }
  }

  // ---------------------------------------------------------------- the code and its generator

  lemma RightRowIs(r: nat)
    requires r < 64
    ensures var mask := RightMask(TcRow(r), 64, 64, r);
      |mask| == 128 && forall j | 0 <= j < 64 :: TcRightRows()[r][j] == mask[j]
  {
    hide TcRow;
  }

  /** The sum of the three parity bits that check r names. */
  predicate ParitySum(r: nat, p: seq<bool>)
    requires r < 64 && |p| == 64
  {
    (p[ParityColumn(r, 0)] != p[ParityColumn(r, 1)]) != p[ParityColumn(r, 2)]
  }

  lemma RowBalances(r: nat, u: seq<bool>, p: seq<bool>)
    requires r < 64 && |u| == |p| == 64 && Even(TcRow(r), u + p)
    ensures ParitySum(r, p) == Dot(LeftMask(TcRow(r), 64), u, 0, 64)
  {
    hide TcRow, Dot, LeftMask, RightMask, Even, GoodRow, ParityColumn;
    TcRowShape(r);
    RowEquation(TcRow(r), u, p, r);
    RightProduct(r, p);
  }

  lemma RightRowSum(r: nat, p: seq<bool>)
    requires r < 64 && |p| == 64
    ensures Dot(TcRightRows()[r], p, 0, 64) == ParitySum(r, p)
  {
    hide TcRow, TcRightRows, Dot, RightMask, ParityColumn;
    RightRowIs(r);
    RightProduct(r, p);
    DotLocal(RightMask(TcRow(r), 64, 64, r), p, TcRightRows()[r], p, 0, 64, 0);
  }

  lemma RowFixesParity(r: nat, u: seq<bool>, p: seq<bool>, q: seq<bool>)
    requires r < 64 && |u| == |p| == |q| == 64 && Even(TcRow(r), u + p) && Even(TcRow(r), u + q)
    ensures !Dot(TcRightRows()[r], Xor(p, q), 0, 64)
  {
    hide TcRow, TcRightRows, Dot, LeftMask, Even, ParityColumn;
    RowBalances(r, u, p);
    RowBalances(r, u, q);
    RightRowSum(r, Xor(p, q));
  }

  lemma TcCompletionUnique(u: seq<bool>, p: seq<bool>, q: seq<bool>)
    requires |u| == |p| == |q| == 64 && SatisfiesRows(TcRows(), u + p) && SatisfiesRows(TcRows(), u + q)
    ensures p == q
  {
    hide TcRows, TcRow, TcRightRows, Even;
    TcRowsAt();
    forall r | 0 <= r < 64 ensures !Dot(TcRightRows()[r], Xor(p, q), 0, 64) {
      assert Even(TcRows()[r], u + p) && Even(TcRows()[r], u + q);
      RowFixesParity(r, u, p, q);
    }
    TcParityIndependent(Xor(p, q));
    forall j | 0 <= j < 64 ensures p[j] == q[j] {
      assert Xor(p, q)[j] == Zeros(64)[j];
    }
  }

  /** A completion of an information word is a codeword exactly when it is the mask products. */
  lemma TcCompletion(u: seq<bool>, p: seq<bool>)
    requires |u| == |p| == 64
    ensures SatisfiesRows(TcRows(), u + p) <==> p == MaskProducts(TcMasks(), u)
  {
    hide TcRows, TcMasks, MaskProducts, SatisfiesRows;
    TcMasksSatisfy(u);
    if SatisfiesRows(TcRows(), u + p) {
      TcCompletionUnique(u, p, MaskProducts(TcMasks(), u));
    }
  }

  lemma TcParityBits(u: seq<bool>)
    requires |u| == 64
    ensures ParityBits(TcCode(), u) == MaskProducts(TcMasks(), u)
  {
    hide TcRows, TcMasks, Dot, BitsOf;
    TcCodeParts();
    hide TcCode;
  }

  /** The shipped masks are the systematic encoder: each information word has exactly one codeword, the encoder's. */
  lemma TcSystematic()
    ensures Lists(TcCode(), TcRows()) && SystematicEncoder(TcCode())
  {
    hide TcRows, TcMasks, MaskProducts, ParityBits, SatisfiesRows, Codeword, Lists;
    TcLists();
    TcCodeParts();
    ListsWellFormed(TcCode(), TcRows());
    hide TcCode;
    forall u: seq<bool>, p: seq<bool> | |u| == 64 && |p| == 64
      ensures Codeword(TcCode(), u + p) <==> p == ParityBits(TcCode(), u)
    {
      TcParityBits(u);
      CodewordsOfRows(TcCode(), TcRows(), u + p);
      TcCompletion(u, p);
    }
  }

  lemma TcNotSingular()
    ensures !SingularParity(TcRows(), 64, 64)
  {
    hide TcRows, TcMasks, TcMaskRow, SatisfiesRows, Dot;
    TcMasksSatisfy(Zeros(64));
    forall p: seq<bool> | |p| == 64 && SatisfiesRows(TcRows(), Zeros(64) + p) ensures forall i | 0 <= i < 64 :: !p[i] {
      TcCompletionUnique(Zeros(64), p, MaskProducts(TcMasks(), Zeros(64)));
      forall i | 0 <= i < 64 ensures !p[i] {
        DotZero(BitsOf(TcMasks()[i]), Zeros(64), 0, 64);
      }
    }
  }

  lemma {:induction false} SameEdges(a: Code, b: Code, rows: seq<seq<nat>>, c: nat)
    requires Lists(a, rows) && Lists(b, rows) && c <= |rows|
    ensures a.offsets[c] == b.offsets[c] && a.edges[..a.offsets[c]] == b.edges[..b.offsets[c]]
  {
    if c > 0 {
      SameEdges(a, b, rows, c - 1);
      assert a.edges[a.offsets[c - 1]..a.offsets[c]] == rows[c - 1] == b.edges[b.offsets[c - 1]..b.offsets[c]];
      assert a.edges[..a.offsets[c]] == a.edges[..a.offsets[c - 1]] + rows[c - 1];
      assert b.edges[..b.offsets[c]] == b.edges[..b.offsets[c - 1]] + rows[c - 1];
    }
  }

  function Unit(n: nat, i: nat): (r: seq<bool>)
    ensures |r| == n
  {
    seq(n, j => j == i)
  }

  lemma UnitBits(n: nat, i: nat)
    ensures forall j | 0 <= j < n :: Unit(n, i)[j] == (j == i)
  {}

  lemma {:induction false} DotUnitRight(l: seq<bool>, i: nat, n: nat)
    requires n <= |l|
    ensures Dot(l, Unit(|l|, i), 0, n) == (i < n && l[i])
  {
    hide Unit;
    UnitBits(|l|, i);
    if n > 0 {
      DotUnitRight(l, i, n - 1);
      DotNext(l, Unit(|l|, i), n - 1);
    }
  }

  /** Product j with the i-th unit word is bit i of mask j. */
  lemma MaskBitIs(code: Code, j: nat, i: nat)
    requires code.WellFormed() && Encodable(code) && j < |code.masks| && i < code.informationCount
    ensures ParityBits(code, Unit(code.informationCount, i))[j] == MaskRow(code, j)[i]
  {
    hide Dot;
    DotUnitRight(MaskRow(code, j), i, code.informationCount);
  }

  lemma SameParity(a: Code, b: Code, u: seq<bool>)
    requires a.WellFormed() && b.WellFormed() && SystematicEncoder(a) && SystematicEncoder(b)
    requires a.variableCount == b.variableCount && a.informationCount == b.informationCount == |u|
    requires forall bits: seq<bool> | |bits| == a.variableCount :: Codeword(a, bits) <==> Codeword(b, bits)
    ensures ParityBits(a, u) == ParityBits(b, u)
  {
    hide Codeword, ParityBits;
    assert Codeword(a, u + ParityBits(a, u));
    assert |u + ParityBits(a, u)| == a.variableCount;
    assert Codeword(b, u + ParityBits(a, u));
  }

  lemma SameMaskRow(a: Code, b: Code, j: nat)
    requires Encodable(a) && Encodable(b) && a.informationCount == b.informationCount && j < |a.masks| && j < |b.masks|
    requires forall i | 0 <= i < a.informationCount :: MaskRow(a, j)[i] == MaskRow(b, j)[i]
    ensures a.masks[j] == b.masks[j]
  {
    hide BitsOf;
    assert MaskRow(a, j) == MaskRow(b, j);
    BytesExt(a.masks[j], b.masks[j]);
  }

  /** Two encoders of the same code have the same mask bytes. */
  lemma SameMasks(a: Code, b: Code)
    requires a.WellFormed() && b.WellFormed() && SystematicEncoder(a) && SystematicEncoder(b)
    requires a.variableCount == b.variableCount && a.informationCount == b.informationCount
    requires forall bits: seq<bool> | |bits| == a.variableCount :: Codeword(a, bits) <==> Codeword(b, bits)
    ensures a.masks == b.masks
  {
    hide Dot, Codeword, BitsOf, MaskRow, ParityBits;
    forall j | 0 <= j < |a.masks| ensures a.masks[j] == b.masks[j] {
      forall i | 0 <= i < a.informationCount ensures MaskRow(a, j)[i] == MaskRow(b, j)[i] {
        var u := Unit(a.informationCount, i);
        SameParity(a, b, u);
        MaskBitIs(a, j, i);
        MaskBitIs(b, j, i);
      }
      SameMaskRow(a, b, j);
    }
  }

  lemma TcNames127()
    ensures |TcRows()| == 64 && Names(TcRows(), 127)
  {
    hide TcRows, TcRow, Blocks;
    TcRowsAt();
    InTcRow(15, 127);
    LastBlock();
    assert 127 in TcRows()[15];
  }

  lemma LastBlock()
    ensures SmallBlocks(Blocks()) && 0 in Blocks()[0][7]
  {
    TcBlocks();
    assert Blocks()[0][7][0] == 0;
  }

  lemma SameCodewords(a: Code, b: Code, rows: seq<seq<nat>>)
    requires Lists(a, rows) && Lists(b, rows) && a.variableCount == b.variableCount
    ensures forall bits: seq<bool> | |bits| == a.variableCount :: Codeword(a, bits) <==> Codeword(b, bits)
  {
    forall bits: seq<bool> | |bits| == a.variableCount ensures Codeword(a, bits) <==> Codeword(b, bits) {
      CodewordsOfRows(a, rows, bits);
      CodewordsOfRows(b, rows, bits);
    }
  }

  lemma ListsWellFormed(code: Code, rows: seq<seq<nat>>)
    requires Lists(code, rows)
    ensures code.WellFormed()
  {}

  lemma OnlyOneTable(code: Code)
    requires Faithful(code, TcRows(), 64)
    ensures code == TcCode()
  {
    hide TcRows, Lists, SystematicEncoder, SingularParity, TcCode, Codeword;
    TcRowsGood();
    TcNames127();
    TcLists();
    TcSystematic();
    assert code.variableCount == 128;
    assert |code.masks| > 0;
    SameTable(code, TcCode());
    ListsWellFormed(code, TcRows());
    ListsWellFormed(TcCode(), TcRows());
    SameCodewords(code, TcCode(), TcRows());
    SameMasks(code, TcCode());
  }

  lemma SameTable(a: Code, b: Code)
    requires Lists(a, TcRows()) && Lists(b, TcRows())
    ensures a.edges == b.edges && a.offsets == b.offsets
  {
    hide TcRows;
    var n := |TcRows()|;
    SameEdges(a, b, TcRows(), n);
    assert a.edges == a.edges[..a.offsets[n]] && b.edges == b.edges[..b.offsets[n]];
    forall c | 0 <= c < |a.offsets| ensures a.offsets[c] == b.offsets[c] {
      SameEdges(a, b, TcRows(), c);
    }
  }

  /** Running the generator on the CCSDS description writes exactly the shipped table. */
  method RegenerateTc128() returns (result: Rendered)
    ensures result == Table(TcCode())
  {
    hide TcRows, TcCode, Faithful, SingularParity, GoodRow;
    TcRowsGood();
    RowsNotEmpty();
    TcNotSingular();
    result := Render(TcMatrix());
    assert MatrixRows(TcMatrix()) == TcRows() by {
      MatrixIsRows();
    }
    OnlyOneTable(result.code);
  }

  lemma MatrixIsRows()
    ensures MatrixRows(TcMatrix()) == TcRows()
  {}

  lemma RowsNotEmpty()
    ensures forall r | 0 <= r < |TcRows()| :: |TcRows()[r]| > 0
  {
    hide TcRows;
    TcRowsGood();
    forall r | 0 <= r < |TcRows()| ensures |TcRows()[r]| > 0 {
      assert GoodRow(TcRows()[r]);
    }
  }
}
