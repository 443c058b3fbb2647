/** What the parts of the model compute, in the words of RFC 8439: the state as a
    matrix of four rows of four words. */
module ChaCha20Standard {
  import opened Words
  import opened WordBits
  import opened ChaCha20

  /** Word `4 * r + i` stands in row `r` and column `i`. */
  function Column(m: State, i: nat): Quad
    requires i < 4
  {
    Quad(m[i], m[4 + i], m[8 + i], m[12 + i])
  }

  /** Row `r` is rotated left by `r`: diagonals become columns. */
  function ShiftRows(m: State): State
  {
    [m[0], m[1], m[2], m[3], m[5], m[6], m[7], m[4], m[10], m[11], m[8], m[9], m[15], m[12], m[13], m[14]]
  }

  /** The diagonal that starts in column `i`, wrapping around in each row. */
  function InRow1(i: nat): nat { if i < 3 then 5 + i else 1 + i }

  function InRow2(i: nat): nat { if i < 2 then 10 + i else 6 + i }

  function InRow3(i: nat): nat { if i < 1 then 15 + i else 11 + i }

  function Diagonal(m: State, i: nat): Quad
    requires i < 4
  {
    Quad(m[i], m[InRow1(i)], m[InRow2(i)], m[InRow3(i)])
  }

  lemma ShiftedColumn(m: State, i: nat)
    requires i < 4
    ensures Column(ShiftRows(m), i) == Diagonal(m, i)
    ensures Column(ShiftRows(m), 0) == Quad(m[0], m[5], m[10], m[15])
    ensures Column(ShiftRows(m), 1) == Quad(m[1], m[6], m[11], m[12])
    ensures Column(ShiftRows(m), 2) == Quad(m[2], m[7], m[8], m[13])
    ensures Column(ShiftRows(m), 3) == Quad(m[3], m[4], m[9], m[14])
  {
  }

  lemma AddStandard(x: Word, y: Word)
    ensures Add(x, y) == (x as int + y as int) % 0x1_0000_0000
  {
  }

  /** The four operations of section 2.1. */
  lemma QuarterStandard(q: Quad)
    ensures var a := Add(q.a, q.b); var d := RotateLeft(XorW(q.d, a), 16);
      var c := Add(q.c, d); var b := RotateLeft(XorW(q.b, c), 12);
      var a' := Add(a, b); var d' := RotateLeft(XorW(d, a'), 8);
      var c' := Add(c, d'); var b' := RotateLeft(XorW(b, c'), 7);
      Quarter(q) == Quad(a', b', c', d')
  {
  }

  // ---------- A double round is a column round and a diagonal round ----------

  lemma ColumnStep(m: State, i: nat, k: nat)
    requires i < 4 && k < 4
    ensures Column(QuarterRound(i, 4 + i, 8 + i, 12 + i, m), k) ==
      if k == i then Quarter(Column(m, i)) else Column(m, k)
  {
    QuarterRoundIsQuarter(i, 4 + i, 8 + i, 12 + i, m);
    PutColumn(m, i, k, Quarter(Column(m, i)));
  }

  lemma PutColumn(m: State, i: nat, k: nat, q: Quad)
    requires i < 4 && k < 4
    ensures Column(Put(m, i, 4 + i, 8 + i, 12 + i, q), k) == if k == i then q else Column(m, k)
  {
  }

  lemma DiagonalStep(m: State, i: nat, k: nat)
    requires i < 4 && k < 4
    ensures Diagonal(QuarterRound(i, InRow1(i), InRow2(i), InRow3(i), m), k)
      == if k == i then Quarter(Diagonal(m, i)) else Diagonal(m, k)
  {
    QuarterRoundIsQuarter(i, InRow1(i), InRow2(i), InRow3(i), m);
    PutDiagonal(m, i, k, Quarter(Diagonal(m, i)));
  }

  lemma PutDiagonal(m: State, i: nat, k: nat, q: Quad)
    requires i < 4 && k < 4
    ensures Diagonal(Put(m, i, InRow1(i), InRow2(i), InRow3(i), q), k)
      == if k == i then q else Diagonal(m, k)
  {
  }

  /** Quarter rounds on the columns, one after the other. */
  function ColumnRounds(m: State, n: nat): State
    requires n <= 4
  {
    if n == 0 then m
    else var i := n - 1; QuarterRound(i, 4 + i, 8 + i, 12 + i, ColumnRounds(m, i))
  }

  function DiagonalRounds(m: State, n: nat): State
    requires n <= 4
  {
    if n == 0 then m
    else
      var i := n - 1;
      QuarterRound(i, InRow1(i), InRow2(i), InRow3(i), DiagonalRounds(m, i))
  }

  lemma {:induction false} ColumnsDone(m: State, n: nat, k: nat)
    requires n <= 4 && k < 4
    ensures Column(ColumnRounds(m, n), k) == if k < n then Quarter(Column(m, k)) else Column(m, k)
  {
    if n > 0 {
      ColumnStep(ColumnRounds(m, n - 1), n - 1, k);
      ColumnsDone(m, n - 1, k);
    }
  }

  lemma {:induction false} DiagonalsDone(m: State, n: nat, k: nat)
    requires n <= 4 && k < 4
    ensures Diagonal(DiagonalRounds(m, n), k) == if k < n then Quarter(Diagonal(m, k)) else Diagonal(m, k)
  {
    if n > 0 {
      DiagonalStep(DiagonalRounds(m, n - 1), n - 1, k);
      DiagonalsDone(m, n - 1, k);
    }
  }

  lemma NextColumn(m: State, n: nat, next: State)
    requires n < 4 && next == QuarterRound(n, 4 + n, 8 + n, 12 + n, ColumnRounds(m, n))
    ensures ColumnRounds(m, n + 1) == next
  {
  }

  lemma NextDiagonal(m: State, n: nat, b: nat, c: nat, d: nat, next: State)
    requires n < 4 && b == InRow1(n) && c == InRow2(n) && d == InRow3(n)
    requires next == QuarterRound(n, b, c, d, DiagonalRounds(m, n))
    ensures DiagonalRounds(m, n + 1) == next
  {
  }

  lemma FourColumns(m: State, n: nat, m1: State, m2: State, m3: State, m4: State)
    requires n == 4
    requires m1 == QuarterRound(0, 4, 8, 12, m) && m2 == QuarterRound(1, 5, 9, 13, m1)
    requires m3 == QuarterRound(2, 6, 10, 14, m2) && m4 == QuarterRound(3, 7, 11, 15, m3)
    ensures ColumnRounds(m, n) == m4
  {
    NextColumn(m, n - 4, m1);
    NextColumn(m, n - 3, m2);
    NextColumn(m, n - 2, m3);
    NextColumn(m, n - 1, m4);
  }

  lemma FourDiagonals(m: State, n: nat, m1: State, m2: State, m3: State, m4: State)
    requires n == 4
    requires m1 == QuarterRound(0, 5, 10, 15, m) && m2 == QuarterRound(1, 6, 11, 12, m1)
    requires m3 == QuarterRound(2, 7, 8, 13, m2) && m4 == QuarterRound(3, 4, 9, 14, m3)
    ensures DiagonalRounds(m, n) == m4
  {
    assert DiagonalRounds(m, n - 4) == m;
    NextDiagonal(m, n - 4, 5, 10, 15, m1);
    NextDiagonal(m, n - 3, 6, 11, 12, m2);
    NextDiagonal(m, n - 2, 7, 8, 13, m3);
    NextDiagonal(m, n - 1, 4, 9, 14, m4);
  }

  lemma DoubleRoundSplit(m: State, n: nat)
    requires n == 4
    ensures DoubleRound(m) == DiagonalRounds(ColumnRounds(m, n), n)
  {
    var m1 := QuarterRound(0, 4, 8, 12, m);
    var m2 := QuarterRound(1, 5, 9, 13, m1);
    var m3 := QuarterRound(2, 6, 10, 14, m2);
    var m4 := QuarterRound(3, 7, 11, 15, m3);
    var d1 := QuarterRound(0, 5, 10, 15, m4);
    var d2 := QuarterRound(1, 6, 11, 12, d1);
    var d3 := QuarterRound(2, 7, 8, 13, d2);
    FourColumns(m, n, m1, m2, m3, m4);
    FourDiagonals(m4, n, d1, d2, d3, QuarterRound(3, 4, 9, 14, d3));
  }

  /** Section 2.3: a double round applies the quarter round to every column, and then
      to every column of the state with row `r` rotated left by `r`. */
  lemma DoubleRoundStandard(m: State) returns (mid: State)
    ensures forall i | 0 <= i < 4 :: Column(mid, i) == Quarter(Column(m, i))
    ensures forall i | 0 <= i < 4 :: Column(ShiftRows(DoubleRound(m)), i) == Quarter(Column(ShiftRows(mid), i))
  {
    var n := 4;
    mid := ColumnRounds(m, n);
    DoubleRoundSplit(m, n);
    ColumnsShifted(m, mid, DoubleRound(m), n);
  }

  lemma ColumnsShifted(m: State, mid: State, end: State, n: nat)
    requires n == 4 && mid == ColumnRounds(m, n) && end == DiagonalRounds(mid, n)
    ensures forall i | 0 <= i < 4 :: Column(mid, i) == Quarter(Column(m, i))
    ensures forall i | 0 <= i < 4 :: Column(ShiftRows(end), i) == Quarter(Column(ShiftRows(mid), i))
  {
    forall i | 0 <= i < 4 ensures Column(mid, i) == Quarter(Column(m, i)) { ColumnsDone(m, n, i); }
    forall i | 0 <= i < 4 ensures Column(ShiftRows(end), i) == Quarter(Column(ShiftRows(mid), i)) {
      DiagonalsDone(mid, n, i);
      ShiftedColumn(end, i);
      ShiftedColumn(mid, i);
    }
  }

  /** The permutation is ten double rounds. */
  lemma PermuteStandard(m: State, n: nat)
    ensures Permute(m) == Iterate(DoubleRound, m, 10)
    ensures Iterate(DoubleRound, m, 0) == m
    ensures Iterate(DoubleRound, m, n + 1) == DoubleRound(Iterate(DoubleRound, m, n))
  {
  }

  // ---------- The block function and the cipher ----------

  /** Word `i` of a block: the state with the counter added to word 12, plus its
      permutation. */
  lemma BlockStandard(f: Permutation, ctr: Word, st0: State, i: nat)
    requires i < 16
    ensures var st := st0[12 := ((st0[12] as int + ctr as int) % 0x1_0000_0000) as Word];
      Core(f, ctr, st0)[i] == (st[i] as int + f(st)[i] as int) % 0x1_0000_0000
  {
  }

  /** A block's bytes are its words in little-endian order. */
  lemma BlockBytesStandard(f: Permutation, ctr: Word, st0: State, i: nat)
    requires i < 16
    ensures var b := BlockBytes(f, ctr, st0);
      Core(f, ctr, st0)[i] as int
        == b[4 * i] as int + 256 * b[4 * i + 1] as int + 65536 * b[4 * i + 2] as int + 16777216 * b[4 * i + 3] as int
  {
    BytesWeigh(Core(f, ctr, st0)[i]);
  }

  /** The initial state: four constants, and key and nonce in little-endian order. */
  lemma InitStandard(key: seq<Byte>, iv: seq<Byte>, ctr: Word, i: nat)
    requires |key| == 32 && |iv| == 12
    ensures Init(key, iv, ctr)[..4] == [0x6170_7865, 0x3320_646e, 0x7962_2d32, 0x6b20_6574]
    ensures Init(key, iv, ctr)[12] == ctr
    ensures i < 8 ==>
      Init(key, iv, ctr)[4 + i] as int
      == key[4 * i] as int + 256 * key[4 * i + 1] as int + 65536 * key[4 * i + 2] as int
         + 16777216 * key[4 * i + 3] as int
    ensures i < 3 ==>
      Init(key, iv, ctr)[13 + i] as int
      == iv[4 * i] as int + 256 * iv[4 * i + 1] as int + 65536 * iv[4 * i + 2] as int + 16777216 * iv[4 * i + 3] as int
  {
    InitLayout(key, iv, ctr);
    if i < 8 {
      LeWordWeighs(key, i);
      assert Init(key, iv, ctr)[4..12][i] == LeWords(key, 8)[i];
    }
    if i < 3 {
      LeWordWeighs(iv, i);
      assert Init(key, iv, ctr)[13..16][i] == LeWords(iv, 3)[i];
    }
  }
}
