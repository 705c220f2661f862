/**
 The TC(128,64) table itself: the shipped parity masks complete every information
 word to a codeword, the parity columns are independent, and hence the generator
 run on the circulant description writes exactly this table.
 */
module Tc128Code {
  import opened Bits
  import opened Ldpc
  import opened LdpcTable
  import opened MinSumTheory
  import opened Tc128

  // ---------------------------------------------------------------- sixteen-bit circulant rows

  /** The word whose only one bit is bit t, most significant first. */
  function Bit16Mask(t: nat): bv16
    requires t < 16
  {
    if t == 0 then 0x8000 else if t == 1 then 0x4000 else if t == 2 then 0x2000 else if t == 3 then 0x1000
    else if t == 4 then 0x0800 else if t == 5 then 0x0400 else if t == 6 then 0x0200 else if t == 7 then 0x0100
    else if t == 8 then 0x0080 else if t == 9 then 0x0040 else if t == 10 then 0x0020 else if t == 11 then 0x0010
    else if t == 12 then 0x0008 else if t == 13 then 0x0004 else if t == 14 then 0x0002 else 0x0001
  }

  predicate Bit16(w: bv16, t: nat)
    requires t < 16
  {
    Meets(w, Bit16Mask(t))
  }

  predicate Meets(w: bv16, m: bv16) {
    w & m != 0
  }

  function Rotate1(w: bv16): bv16 {
    (w >> 1) | (w << 15)
  }

  /** w rotated right by s bits. */
  function Rotate(w: bv16, s: nat): bv16 {
    if s == 0 then w else Rotate1(Rotate(w, s - 1))
  }

  /** The rotations that the circulants need, each as two shifts. */
  lemma Rotations(w: bv16)
    ensures Rotate(w, 0) == w
    ensures Rotate(w, 1) == (w >> 1) | (w << 15)
    ensures Rotate(w, 3) == (w >> 3) | (w << 13)
    ensures Rotate(w, 7) == (w >> 7) | (w << 9)
    ensures Rotate(w, 11) == (w >> 11) | (w << 5)
    ensures Rotate(w, 13) == (w >> 13) | (w << 3)
    ensures Rotate(w, 14) == (w >> 14) | (w << 2)
  {
    assert Rotate(w, 1) == (w >> 1) | (w << 15);
    assert Rotate(w, 2) == (w >> 2) | (w << 14);
    assert Rotate(w, 3) == (w >> 3) | (w << 13);
    assert Rotate(w, 4) == (w >> 4) | (w << 12);
    assert Rotate(w, 5) == (w >> 5) | (w << 11);
    assert Rotate(w, 6) == (w >> 6) | (w << 10);
    assert Rotate(w, 7) == (w >> 7) | (w << 9);
    assert Rotate(w, 8) == (w >> 8) | (w << 8);
    assert Rotate(w, 9) == (w >> 9) | (w << 7);
    assert Rotate(w, 10) == (w >> 10) | (w << 6);
    assert Rotate(w, 11) == (w >> 11) | (w << 5);
    assert Rotate(w, 12) == (w >> 12) | (w << 4);
    assert Rotate(w, 13) == (w >> 13) | (w << 3);
    assert Rotate(w, 14) == (w >> 14) | (w << 2);
  }

  predicate MaskPair(m: bv16, n: bv16) {
    n == (m << 1) | (m >> 15)
  }

  lemma Rotate1Mask(w: bv16, m: bv16, n: bv16)
    requires MaskPair(m, n)
    ensures Meets(Rotate1(w), m) == Meets(w, n)
  {}

  lemma MaskRotates(d: nat)
    requires d < 16
    ensures MaskPair(Bit16Mask(d), Bit16Mask((d + 15) % 16))
  {}

  lemma Rotate1Bit(w: bv16, d: nat)
    requires d < 16
    ensures Bit16(Rotate1(w), d) == Bit16(w, (d + 15) % 16)
  {
    hide Rotate1, Bit16Mask, MaskPair, Meets;
    MaskRotates(d);
    Rotate1Mask(w, Bit16Mask(d), Bit16Mask((d + 15) % 16));
  }

  lemma {:induction false} RotateBit(w: bv16, s: nat, d: nat)
    requires d < 16 && s < 16
    ensures Bit16(Rotate(w, s), d) == Bit16(w, (d + 16 - s) % 16)
  {
    hide Rotate1, Bit16;
    if s > 0 {
      Rotate1Bit(Rotate(w, s - 1), d);
      RotateBit(w, s - 1, (d + 15) % 16);
      assert ((d + 15) % 16 + 16 - (s - 1)) % 16 == (d + 16 - s) % 16;
    }
  }

  predicate OneBitMask(m: bv16) {
    m == 0x8000 || m == 0x4000 || m == 0x2000 || m == 0x1000 || m == 0x0800 || m == 0x0400 || m == 0x0200 || m == 0x0100
    || m == 0x0080 || m == 0x0040 || m == 0x0020 || m == 0x0010 || m == 0x0008 || m == 0x0004 || m == 0x0002 || m == 0x0001
  }

  lemma MaskHasOneBit(d: nat)
    requires d < 16
    ensures OneBitMask(Bit16Mask(d))
  {}

  lemma XorMasked(x: bv16, y: bv16, m: bv16)
    requires OneBitMask(m)
    ensures Meets(x ^ y, m) == (Meets(x, m) != Meets(y, m))
  {}

  lemma XorBit16(x: bv16, y: bv16, d: nat)
    requires d < 16
    ensures Bit16(x ^ y, d) == (Bit16(x, d) != Bit16(y, d))
  {
    hide Bit16Mask, OneBitMask, Meets;
    MaskHasOneBit(d);
    XorMasked(x, y, Bit16Mask(d));
  }

  function ThreeWords(x: bv16, y: bv16, z: bv16): bv16 {
    (x ^ y) ^ z
  }

  lemma ThreeBits(x: bv16, y: bv16, z: bv16, d: nat)
    requires d < 16
    ensures Bit16(ThreeWords(x, y, z), d) == ((Bit16(x, d) != Bit16(y, d)) != Bit16(z, d))
  {
    hide Bit16;
    XorBit16(x ^ y, z, d);
    XorBit16(x, y, d);
  }

  /** First row of the circulant with the given shifts. */
  function ShiftWord(shifts: seq<nat>): bv16
    requires SmallShifts(shifts)
  {
    if |shifts| == 0 then 0 else if |shifts| == 1 then Bit16Mask(shifts[0])
    else Bit16Mask(shifts[0]) ^ Bit16Mask(shifts[1])
  }

  lemma OneBit(s: nat, d: nat)
    requires s < 16 && d < 16
    ensures Bit16(Bit16Mask(s), d) == (s == d) && !Bit16(0, d)
  {}

  lemma ShiftWordBit(shifts: seq<nat>, d: nat)
    requires SmallShifts(shifts) && d < 16
    ensures Bit16(ShiftWord(shifts), d) == (d in shifts)
  {
    hide Bit16Mask, Bit16;
    OneBit(0, d);
    if |shifts| > 0 {
      OneBit(shifts[0], d);
    }
    if |shifts| == 2 {
      OneBit(shifts[1], d);
      XorBit16(Bit16Mask(shifts[0]), Bit16Mask(shifts[1]), d);
    }
  }

  // ---------------------------------------------------------------- the parity masks

  /** First mask row of parity block k, cut into the words of the four information blocks. */
  function Generator(k: nat, c: nat): bv16
    requires k < 4 && c < 4
  {
    if k == 0 then (if c == 0 then 0x4b38 else if c == 1 then 0x3377 else if c == 2 then 0x8091 else 0x2ab9)
    else if k == 1 then (if c == 0 then 0x6b34 else if c == 1 then 0x3f64 else if c == 2 then 0xcebf else 0x2fa2)
    else if k == 2 then (if c == 0 then 0x997b else if c == 1 then 0x926e else if c == 2 then 0xe559 else 0x3d31)
    else (if c == 0 then 0x21e8 else if c == 1 then 0x8c10 else if c == 2 then 0xe472 else 0xc42b)
  }

  /** Mask row 16 * k + j is the first row of its block with every word rotated right by j. */
  predicate MaskBit(p: nat, i: nat)
    requires p < 64 && i < 64
  {
    Bit16(Generator(p / 16, i / 16), (i % 16 + 16 - p % 16) % 16)
  }

  /** Parity block and shift of the n-th parity circulant in block row b. */
  function Term(b: nat, n: nat): (nat, nat)
    requires b < 4 && n < 3
  {
    if b == 0 then (if n == 0 then (1, 0) else if n == 1 then (2, 13) else (3, 0))
    else if b == 1 then (if n == 0 then (0, 0) else if n == 1 then (2, 0) else (3, 7))
    else if b == 2 then (if n == 0 then (0, 11) else if n == 1 then (1, 0) else (3, 3))
    else (if n == 0 then (0, 14) else if n == 1 then (1, 1) else (2, 0))
  }

  /** The three mask words that meet in block row b over information block c, rotated into place. */
  function TermWord(b: nat, n: nat, c: nat): bv16
    requires b < 4 && n < 3 && c < 4
  {
    Rotate(Generator(Term(b, n).0, c), Term(b, n).1)
  }

  /** In every block row the rotated mask words cancel the information circulants. */
  lemma WordIdentity(b: nat, c: nat)
    requires b < 4 && c < 4
    ensures SmallBlocks(Blocks())
    ensures ThreeWords(TermWord(b, 0, c), TermWord(b, 1, c), TermWord(b, 2, c)) == ShiftWord(Blocks()[b][c])
  {
    TcBlocks();
    if b == 0 {
      WordIdentity0(c);
    } else if b == 1 {
      WordIdentity1(c);
    } else if b == 2 {
      WordIdentity2(c);
    } else {
      WordIdentity3(c);
    }
  }

  lemma WordIdentity0(c: nat)
    requires c < 4 && SmallBlocks(Blocks())
    ensures ThreeWords(TermWord(0, 0, c), TermWord(0, 1, c), TermWord(0, 2, c)) == ShiftWord(Blocks()[0][c])
  {
    hide Rotate;
    Rotations(Generator(0, c));
    Rotations(Generator(1, c));
    Rotations(Generator(2, c));
    Rotations(Generator(3, c));
    assert c == 0 || c == 1 || c == 2 || c == 3;
  }

  lemma WordIdentity1(c: nat)
    requires c < 4 && SmallBlocks(Blocks())
    ensures ThreeWords(TermWord(1, 0, c), TermWord(1, 1, c), TermWord(1, 2, c)) == ShiftWord(Blocks()[1][c])
  {
    hide Rotate;
    Rotations(Generator(0, c));
    Rotations(Generator(1, c));
    Rotations(Generator(2, c));
    Rotations(Generator(3, c));
    assert c == 0 || c == 1 || c == 2 || c == 3;
  }

  lemma WordIdentity2(c: nat)
    requires c < 4 && SmallBlocks(Blocks())
    ensures ThreeWords(TermWord(2, 0, c), TermWord(2, 1, c), TermWord(2, 2, c)) == ShiftWord(Blocks()[2][c])
  {
    hide Rotate;
    Rotations(Generator(0, c));
    Rotations(Generator(1, c));
    Rotations(Generator(2, c));
    Rotations(Generator(3, c));
    assert c == 0 || c == 1 || c == 2 || c == 3;
  }

  lemma WordIdentity3(c: nat)
    requires c < 4 && SmallBlocks(Blocks())
    ensures ThreeWords(TermWord(3, 0, c), TermWord(3, 1, c), TermWord(3, 2, c)) == ShiftWord(Blocks()[3][c])
  {
    hide Rotate;
    Rotations(Generator(0, c));
    Rotations(Generator(1, c));
    Rotations(Generator(2, c));
    Rotations(Generator(3, c));
    assert c == 0 || c == 1 || c == 2 || c == 3;
  }

  function TcMaskRow(p: nat): (r: seq<bool>)
    requires p < 64
    ensures |r| == 64
  {
    seq(64, i requires 0 <= i < 64 => MaskBit(p, i))
  }

  /** A mask row as its eight bytes. */
  function MaskBytes(row: seq<bool>): (r: seq<Byte>)
    requires |row| == 64
    ensures |r| == 8
  {
    Pack(row)
  }

  lemma MaskBytesHold(row: seq<bool>)
    requires |row| == 64
    ensures BitsOf(MaskBytes(row)) == row
  {
    PackBits(row);
  }

  lemma TcMaskBits(p: nat)
    requires p < 64
    ensures BitsOf(TcMasks()[p]) == TcMaskRow(p)
  {
    hide TcMaskRow, MaskBytes;
    MaskBytesHold(TcMaskRow(p));
  }

  /** The 64 mask rows of the table, eight bytes each. */
  function TcMasks(): (r: seq<seq<Byte>>)
    ensures |r| == 64
    ensures forall p | 0 <= p < 64 :: r[p] == MaskBytes(TcMaskRow(p))
  {
    seq(64, p requires 0 <= p < 64 => MaskBytes(TcMaskRow(p)))
  }

  /** `ccsds_tc128`. */
  function TcCode(): (code: Code)
    ensures code.variableCount == 128 && code.informationCount == 64 && Encodable(code)
  {
    hide TcRows, Edges, TcMaskRow, BitsOf;
    TcRowsAt();
    Code(128, 64, seq(65, c requires 0 <= c < 65 => |Edges(TcRows(), c)|), Edges(TcRows(), 64), TcMasks())
  }

  lemma {:induction false} TcEdgeCount(n: nat)
    requires n <= 64 && |TcRows()| == 64
    ensures |Edges(TcRows(), n)| == 8 * n
  {
    hide TcRows;
    if n > 0 {
      TcEdgeCount(n - 1);
      TcRowsAt();
      TcRowShape(n - 1);
    }
  }

  lemma TcCodeParts()
    ensures |TcRows()| == 64 && |TcCode().offsets| == 65 && TcCode().edges == Edges(TcRows(), 64) && TcCode().masks == TcMasks()
    ensures forall c | 0 <= c <= 64 :: TcCode().offsets[c] == |Edges(TcRows(), c)|
  {
    hide TcRows, TcMasks, TcMaskRow, BitsOf, Edges;
    TcRowsAt();
  }

  lemma TcRowsGood()
    ensures |TcRows()| == 64 && WithinVariables(TcRows(), 128) && forall r | 0 <= r < 64 :: GoodRow(TcRows()[r])
  {
    hide TcRows, GoodRow, TcRow;
    TcRowsAt();
    forall r | 0 <= r < 64
      ensures GoodRow(TcRows()[r]) && forall i | 0 <= i < |TcRows()[r]| :: TcRows()[r][i] < 128
    {
      TcRowShape(r);
    }
  }

  lemma TcLists()
    ensures Lists(TcCode(), TcRows()) && |TcRows()| == 64 && |TcCode().edges| == 512
  {
    hide TcRows, TcCode, GoodRow, Lists, Edges, WithinVariables;
    TcRowsGood();
    TcCodeParts();
    TcEdgeCount(64);
    RowsListed(TcCode(), TcRows());
  }

  // ---------------------------------------------------------------- the shipped masks satisfy every check

  lemma ModHit(i: nat, s: nat, t: nat)
    requires i < 16 && s < 16 && t < 16
    ensures (i + s) % 16 == t <==> (t + 16 - i) % 16 == s
  {}

  lemma HitsIn(shifts: seq<nat>, i: nat, t: nat)
    requires SmallShifts(shifts) && i < 16 && t < 16
    ensures Hits(shifts, i, t, |shifts|) > 0 <==> (t + 16 - i) % 16 in shifts
  {
    var d := (t + 16 - i) % 16;
    forall s | 0 <= s < |shifts| ensures (i + shifts[s]) % 16 == t <==> d == shifts[s] {
      ModHit(i, shifts[s], t);
    }
    HitsOf(shifts, i, t, d, |shifts|);
    assert d in shifts <==> d in shifts[..|shifts|] by {
      assert shifts[..|shifts|] == shifts;
    }
  }

  lemma {:induction false} HitsOf(shifts: seq<nat>, i: nat, t: nat, d: nat, n: nat)
    requires n <= |shifts| && forall s | 0 <= s < |shifts| :: (i + shifts[s]) % 16 == t <==> d == shifts[s]
    ensures Hits(shifts, i, t, n) > 0 <==> d in shifts[..n]
  {
    if n > 0 {
      HitsOf(shifts, i, t, d, n - 1);
      assert shifts[..n] == shifts[..n - 1] + [shifts[n - 1]];
    }
  }

  /** Whether check r names variable v, read off the circulant that covers v. */
  lemma InTcRow(r: nat, v: nat)
    requires r < 64 && v < 128
    ensures SmallBlocks(Blocks())
    ensures v in TcRow(r) <==> (v % 16 + 16 - r % 16) % 16 in Blocks()[r / 16][v / 16]
  {
    hide Hits, Degree, Blocks;
    var row := TcRow(r);
    TcRowDegree(r, v);
    TcBlocks();
    HitsIn(Blocks()[r / 16][v / 16], r % 16, v % 16);
    if v in row {
      var i :| 0 <= i < |row| && row[i] == v;
      DegreeAtLeast(row, i, 8);
    }
    if Degree(row, v, 8) > 0 {
      DegreePositive(row, v, 8);
    }
  }

  /** Parity column of the n-th parity variable of check r. */
  function ParityColumn(r: nat, n: nat): (j: nat)
    requires r < 64 && n < 3
    ensures j < 64
  {
    16 * Term(r / 16, n).0 + (r % 16 + Term(r / 16, n).1) % 16
  }

  lemma TermShifts(b: nat, k: nat, d: nat)
    requires b < 4 && k < 4 && d < 16
    ensures SmallBlocks(Blocks())
    ensures d in Blocks()[b][4 + k] <==> (k, d) == Term(b, 0) || (k, d) == Term(b, 1) || (k, d) == Term(b, 2)
  {
    TcBlocks();
    assert b == 0 || b == 1 || b == 2 || b == 3;
    assert k == 0 || k == 1 || k == 2 || k == 3;
  }

  lemma TermRange(b: nat, n: nat)
    requires b < 4 && n < 3
    ensures Term(b, n).0 < 4 && Term(b, n).1 < 16
    ensures Term(b, 0).0 < Term(b, 1).0 < Term(b, 2).0
  {}

  lemma RightColumns(r: nat, j: nat)
    requires r < 64 && j < 64
    ensures 64 + j in TcRow(r) <==> j == ParityColumn(r, 0) || j == ParityColumn(r, 1) || j == ParityColumn(r, 2)
  {
    hide TcRow, Blocks, Term;
    var b, k, d := r / 16, j / 16, (j % 16 + 16 - r % 16) % 16;
    InTcRow(r, 64 + j);
    TermShifts(b, k, d);
    assert (64 + j) / 16 == 4 + k && (64 + j) % 16 == j % 16;
    ColumnOf(r, j, 0);
    ColumnOf(r, j, 1);
    ColumnOf(r, j, 2);
  }

  lemma ColumnOf(r: nat, j: nat, n: nat)
    requires r < 64 && j < 64 && n < 3
    ensures j == ParityColumn(r, n) <==> (j / 16, (j % 16 + 16 - r % 16) % 16) == Term(r / 16, n)
  {
    TermRange(r / 16, n);
    hide Term;
    ModSolve(j, Term(r / 16, n).0, r % 16, Term(r / 16, n).1);
  }

  lemma ModSolve(j: nat, k: nat, r: nat, s: nat)
    requires r < 16 && s < 16
    ensures j == 16 * k + (r + s) % 16 <==> j / 16 == k && (j % 16 + 16 - r) % 16 == s
  {}

  lemma ModShift(x: nat, r: nat, s: nat)
    requires x < 16 && r < 16 && s < 16
    ensures (x + 16 - (r + s) % 16) % 16 == ((x + 16 - r) % 16 + 16 - s) % 16
  {
    assert (x + 16 - (r + s) % 16) % 16 == (x + 32 - r - s) % 16;
    assert ((x + 16 - r) % 16 + 16 - s) % 16 == (x + 32 - r - s) % 16;
  }

  /** Three rotated mask words, bit by bit. */
  lemma WordBits(b: nat, c: nat, d: nat)
    requires b < 4 && c < 4 && d < 16
    ensures SmallBlocks(Blocks())
    ensures d in Blocks()[b][c]
        <==> ((Bit16(TermWord(b, 0, c), d) != Bit16(TermWord(b, 1, c), d)) != Bit16(TermWord(b, 2, c), d))
  {
    hide Blocks, TermWord, ShiftWord, Bit16, ThreeWords;
    WordIdentity(b, c);
    ShiftWordBit(Blocks()[b][c], d);
    ThreeBits(TermWord(b, 0, c), TermWord(b, 1, c), TermWord(b, 2, c), d);
  }

  /** Over every information column the three masks of a check cancel its circulant. */
  lemma LeftColumns(r: nat, i: nat)
    requires r < 64 && i < 64
    ensures i in TcRow(r)
        <==> ((MaskBit(ParityColumn(r, 0), i) != MaskBit(ParityColumn(r, 1), i)) != MaskBit(ParityColumn(r, 2), i))
  {
    hide TcRow, Blocks, TermWord, Bit16, MaskBit, ParityColumn;
    InTcRow(r, i);
    WordBits(r / 16, i / 16, (i % 16 + 16 - r % 16) % 16);
    MaskOfTerm(r, i, 0);
    MaskOfTerm(r, i, 1);
    MaskOfTerm(r, i, 2);
  }

  lemma MaskOfTerm(r: nat, i: nat, n: nat)
    requires r < 64 && i < 64 && n < 3
    ensures MaskBit(ParityColumn(r, n), i) == Bit16(TermWord(r / 16, n, i / 16), (i % 16 + 16 - r % 16) % 16)
  {
    hide Generator, Rotate, Bit16, Term, ParityColumn;
    TermRange(r / 16, n);
    ColumnParts(r, n);
    var k, s := Term(r / 16, n).0, Term(r / 16, n).1;
    var d := (i % 16 + 16 - r % 16) % 16;
    RotateBit(Generator(k, i / 16), s, d);
    ModShift(i % 16, r % 16, s);
    assert (i % 16 + 16 - ParityColumn(r, n) % 16) % 16 == (d + 16 - s) % 16;
  }

  lemma ColumnParts(r: nat, n: nat)
    requires r < 64 && n < 3
    ensures ParityColumn(r, n) / 16 == Term(r / 16, n).0 && ParityColumn(r, n) % 16 == (r % 16 + Term(r / 16, n).1) % 16
  {
    hide Term;
    ColumnRemainder(Term(r / 16, n).0, r % 16, Term(r / 16, n).1);
  }

  lemma ColumnRemainder(k: nat, r: nat, s: nat)
    ensures (16 * k + (r + s) % 16) / 16 == k && (16 * k + (r + s) % 16) % 16 == (r + s) % 16
  {}
}
