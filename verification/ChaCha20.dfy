/** ChaCha20 of RFC 8439, over messages of any length. */
module ChaCha20 {
  import opened Words

  type State = s: seq<Word> | |s| == 16 witness seq(16, _ => 0)

  // ---------- Rounds ----------

  /** One line: add, xor and rotate in place. */
  function Line(a: nat, b: nat, d: nat, s: nat, m: State): State
    requires a < 16 && b < 16 && d < 16 && s <= 32
  {
    var m1 := m[a := Add(m[a], m[b])];
    var m2 := m1[d := XorW(m1[d], m1[a])];
    m2[d := RotateLeft(m2[d], s)]
  }

  function QuarterRound(a: nat, b: nat, c: nat, d: nat, m: State): State
    requires a < 16 && b < 16 && c < 16 && d < 16
  {
    Line(c, d, b, 7, Line(a, b, d, 8, Line(c, d, b, 12, Line(a, b, d, 16, m))))
  }

  /** Four column rounds, then four diagonal rounds. */
  function DoubleRound(m: State): State
  {
    var m := QuarterRound(0, 4, 8, 12, m);
    var m := QuarterRound(1, 5, 9, 13, m);
    var m := QuarterRound(2, 6, 10, 14, m);
    var m := QuarterRound(3, 7, 11, 15, m);
    var m := QuarterRound(0, 5, 10, 15, m);
    var m := QuarterRound(1, 6, 11, 12, m);
    var m := QuarterRound(2, 7, 8, 13, m);
    QuarterRound(3, 4, 9, 14, m)
  }

  function Iterate(f: State -> State, m: State, n: nat): State
  {
    if n == 0 then m else f(Iterate(f, m, n - 1))
  }

  const TEN: nat := 10

  /** The permutation of the block function: ten double rounds. */
  function Permute(m: State): State { Iterate(DoubleRound, m, TEN) }

  method Rounds(state: State) returns (st: State)
    ensures st == Permute(state)
  {
    st := state;
    for i := 0 to TEN
      invariant st == Iterate(DoubleRound, state, i)
    {
      st := DoubleRound(st);
    }
  }

  // ---------- The quarter round of section 2.1 ----------

  datatype Quad = Quad(a: Word, b: Word, c: Word, d: Word)

  /** Half of section 2.1 of RFC 8439: two of its four lines. */
  function HalfQuarter(q: Quad, s: nat, t: nat): Quad
    requires s <= 32 && t <= 32
  {
    var a := Add(q.a, q.b);
    var d := RotateLeft(XorW(q.d, a), s);
    var c := Add(q.c, d);
    var b := RotateLeft(XorW(q.b, c), t);
    Quad(a, b, c, d)
  }

  function Quarter(q: Quad): Quad { HalfQuarter(HalfQuarter(q, 16, 12), 8, 7) }

  predicate Distinct4(a: nat, b: nat, c: nat, d: nat)
  {
    a < 16 && b < 16 && c < 16 && d < 16 && a != b && a != c && a != d && b != c && b != d && c != d
  }

  function At(m: State, a: nat, b: nat, c: nat, d: nat): Quad
    requires Distinct4(a, b, c, d)
  {
    Quad(m[a], m[b], m[c], m[d])
  }

  function Put(m: State, a: nat, b: nat, c: nat, d: nat, q: Quad): State
    requires Distinct4(a, b, c, d)
  {
    m[a := q.a][b := q.b][c := q.c][d := q.d]
  }

  lemma TwoLines(a: nat, b: nat, c: nat, d: nat, s: nat, t: nat, m: State)
    requires Distinct4(a, b, c, d) && s <= 32 && t <= 32
    ensures Line(c, d, b, t, Line(a, b, d, s, m)) == Put(m, a, b, c, d, HalfQuarter(At(m, a, b, c, d), s, t))
  {
  }

  /** On distinct positions the state changes in those four words only, and
      they change as the standard says. */
  lemma QuarterRoundIsQuarter(a: nat, b: nat, c: nat, d: nat, m: State)
    requires Distinct4(a, b, c, d)
    ensures QuarterRound(a, b, c, d, m) == Put(m, a, b, c, d, Quarter(At(m, a, b, c, d)))
  {
    var q := HalfQuarter(At(m, a, b, c, d), 16, 12);
    TwoLines(a, b, c, d, 16, 12, m);
    TwoLines(a, b, c, d, 8, 7, Put(m, a, b, c, d, q));
    PutTwice(m, a, b, c, d, q, HalfQuarter(q, 8, 7));
  }

  lemma PutTwice(m: State, a: nat, b: nat, c: nat, d: nat, q: Quad, r: Quad)
    requires Distinct4(a, b, c, d)
    ensures At(Put(m, a, b, c, d, q), a, b, c, d) == q
    ensures Put(Put(m, a, b, c, d, q), a, b, c, d, r) == Put(m, a, b, c, d, r)
  {
  }

  // ---------- Every round can be undone ----------

  function Unline(a: nat, b: nat, d: nat, s: nat, m: State): State
    requires a < 16 && b < 16 && d < 16 && s <= 32
  {
    var m1 := m[d := RotateRight(m[d], s)];
    var m2 := m1[d := XorW(m1[d], m1[a])];
    m2[a := Sub(m2[a], m2[b])]
  }

  lemma LineInverse(a: nat, b: nat, d: nat, s: nat, m: State)
    requires a < 16 && b < 16 && d < 16 && s <= 32 && a != b && a != d && b != d
    ensures Unline(a, b, d, s, Line(a, b, d, s, m)) == m
    ensures Line(a, b, d, s, Unline(a, b, d, s, m)) == m
  {
    RotateCancels(XorW(m[d], Add(m[a], m[b])), s);
    RotateCancels(m[d], s);
    AddCancels(m[a], m[b]);
    XorWCancels(m[d], Add(m[a], m[b]));
    XorWCancels(RotateRight(m[d], s), m[a]);
  }

  function UnquarterRound(a: nat, b: nat, c: nat, d: nat, m: State): State
    requires a < 16 && b < 16 && c < 16 && d < 16
  {
    Unline(a, b, d, 16, Unline(c, d, b, 12, Unline(a, b, d, 8, Unline(c, d, b, 7, m))))
  }

  /** The quarter round on distinct positions is a bijection of states. */
  lemma QuarterRoundInverse(a: nat, b: nat, c: nat, d: nat, m: State)
    requires Distinct4(a, b, c, d)
    ensures UnquarterRound(a, b, c, d, QuarterRound(a, b, c, d, m)) == m
    ensures QuarterRound(a, b, c, d, UnquarterRound(a, b, c, d, m)) == m
  {
    var m1 := Line(a, b, d, 16, m);
    var m2 := Line(c, d, b, 12, m1);
    var m3 := Line(a, b, d, 8, m2);
    LineInverse(a, b, d, 16, m);
    LineInverse(c, d, b, 12, m1);
    LineInverse(a, b, d, 8, m2);
    LineInverse(c, d, b, 7, m3);
    var n3 := Unline(c, d, b, 7, m);
    var n2 := Unline(a, b, d, 8, n3);
    var n1 := Unline(c, d, b, 12, n2);
    LineInverse(c, d, b, 7, m);
    LineInverse(a, b, d, 8, n3);
    LineInverse(c, d, b, 12, n2);
    LineInverse(a, b, d, 16, n1);
  }

  function UndoubleRound(m: State): State
  {
    var m := UnquarterRound(3, 4, 9, 14, m);
    var m := UnquarterRound(2, 7, 8, 13, m);
    var m := UnquarterRound(1, 6, 11, 12, m);
    var m := UnquarterRound(0, 5, 10, 15, m);
    var m := UnquarterRound(3, 7, 11, 15, m);
    var m := UnquarterRound(2, 6, 10, 14, m);
    var m := UnquarterRound(1, 5, 9, 13, m);
    UnquarterRound(0, 4, 8, 12, m)
  }

  lemma DoubleRoundInverse(m: State)
    ensures UndoubleRound(DoubleRound(m)) == m && DoubleRound(UndoubleRound(m)) == m
  {
    var m1 := QuarterRound(0, 4, 8, 12, m);
    var m2 := QuarterRound(1, 5, 9, 13, m1);
    var m3 := QuarterRound(2, 6, 10, 14, m2);
    var m4 := QuarterRound(3, 7, 11, 15, m3);
    var m5 := QuarterRound(0, 5, 10, 15, m4);
    var m6 := QuarterRound(1, 6, 11, 12, m5);
    var m7 := QuarterRound(2, 7, 8, 13, m6);
    QuarterRoundInverse(0, 4, 8, 12, m);
    QuarterRoundInverse(1, 5, 9, 13, m1);
    QuarterRoundInverse(2, 6, 10, 14, m2);
    QuarterRoundInverse(3, 7, 11, 15, m3);
    QuarterRoundInverse(0, 5, 10, 15, m4);
    QuarterRoundInverse(1, 6, 11, 12, m5);
    QuarterRoundInverse(2, 7, 8, 13, m6);
    QuarterRoundInverse(3, 4, 9, 14, m7);
    var n7 := UnquarterRound(3, 4, 9, 14, m);
    var n6 := UnquarterRound(2, 7, 8, 13, n7);
    var n5 := UnquarterRound(1, 6, 11, 12, n6);
    var n4 := UnquarterRound(0, 5, 10, 15, n5);
    var n3 := UnquarterRound(3, 7, 11, 15, n4);
    var n2 := UnquarterRound(2, 6, 10, 14, n3);
    var n1 := UnquarterRound(1, 5, 9, 13, n2);
    QuarterRoundInverse(3, 4, 9, 14, m);
    QuarterRoundInverse(2, 7, 8, 13, n7);
    QuarterRoundInverse(1, 6, 11, 12, n6);
    QuarterRoundInverse(0, 5, 10, 15, n5);
    QuarterRoundInverse(3, 7, 11, 15, n4);
    QuarterRoundInverse(2, 6, 10, 14, n3);
    QuarterRoundInverse(1, 5, 9, 13, n2);
    QuarterRoundInverse(0, 4, 8, 12, n1);
  }

  lemma {:induction false} IterateInverse(f: State -> State, g: State -> State, m: State, n: nat)
    requires forall x :: g(f(x)) == x
    ensures Iterate(g, Iterate(f, m, n), n) == m
    decreases n
  {
    if n > 0 {
      IterateShift(g, Iterate(f, m, n), n - 1);
      IterateInverse(f, g, m, n - 1);
    }
  }

  lemma {:induction false} IterateShift(g: State -> State, m: State, n: nat)
    ensures g(Iterate(g, m, n)) == Iterate(g, g(m), n)
    decreases n
  {
    if n > 0 { IterateShift(g, m, n - 1); }
  }

  /** The rounds permute the states, however many there are. */
  lemma RoundsInverse(m: State, n: nat)
    ensures Iterate(UndoubleRound, Iterate(DoubleRound, m, n), n) == m
    ensures Iterate(DoubleRound, Iterate(UndoubleRound, m, n), n) == m
  {
    forall x: State
      ensures UndoubleRound(DoubleRound(x)) == x && DoubleRound(UndoubleRound(x)) == x
    {
      DoubleRoundInverse(x);
    }
    IterateInverse(DoubleRound, UndoubleRound, m, n);
    IterateInverse(UndoubleRound, DoubleRound, m, n);
  }

  // ---------- Blocks ----------

  method AddState(state: State, other: State) returns (r: State)
    ensures r == Sums(state, other)
  {
    r := state;
    for i := 0 to 16
      invariant forall k | 0 <= k < 16 :: r[k] == if k < i then Add(state[k], other[k]) else state[k]
    {
      r := r[i := Add(r[i], other[i])];
    }
  }

  function Sums(x: State, y: State): State { seq(16, i requires 0 <= i < 16 => Add(x[i], y[i])) }

  function Xors(x: State, y: State): State { seq(16, i requires 0 <= i < 16 => XorW(x[i], y[i])) }

  method XorState(state: State, other: State) returns (r: State)
    ensures r == Xors(state, other)
  {
    r := state;
    for i := 0 to 16
      invariant forall k | 0 <= k < 16 :: r[k] == if k < i then XorW(state[k], other[k]) else state[k]
    {
      r := r[i := XorW(r[i], other[i])];
    }
  }

  /** What follows holds for any permutation in the block function. */
  type Permutation = State -> State

  ghost predicate Computes(f: Permutation)
  {
    forall x: State {:trigger Permute(x)} :: f(x) == Permute(x)
  }

  /** The block function of section 2.3: the permuted state added to the state. */
  function Core(f: Permutation, ctr: Word, st0: State): State
  {
    var state := st0[12 := Add(st0[12], ctr)];
    Sums(state, f(state))
  }

  method ChaCha20Core(ctr: Word, st0: State, ghost f: Permutation) returns (r: State)
    requires Computes(f)
    ensures r == Core(f, ctr, st0)
  {
    var state := st0[12 := Add(st0[12], ctr)];
    var k := Rounds(state);
    r := AddState(state, k);
  }

  type Block = b: seq<Byte> | |b| == 64 witness seq(64, _ => 0)

  /** The serialised block for one counter value. */
  function BlockBytes(f: Permutation, ctr: Word, st0: State): Block { LeBytes(Core(f, ctr, st0)) }

  /** The first `count` blocks of the key stream: block `k` uses the counter
      advanced by `k`. */
  function KeyBlocks(f: Permutation, st0: State, count: nat): (ks: seq<Block>)
    ensures |ks| == count
  {
    if count == 0 then [] else KeyBlocks(f, st0, count - 1) + [BlockBytes(f, AsU32(count - 1), st0)]
  }

  lemma {:induction false} KeyBlockAt(f: Permutation, st0: State, count: nat, k: nat)
    requires k < count
    ensures KeyBlocks(f, st0, count)[k] == BlockBytes(f, AsU32(k), st0)
    decreases count
  {
    if k < count - 1 { KeyBlockAt(f, st0, count - 1, k); }
  }

  /** Every byte is xored with its key stream byte. */
  function XorStream(ks: seq<Block>, m: seq<Byte>): (c: seq<Byte>)
    requires |m| <= 64 * |ks|
    ensures |c| == |m|
  {
    seq(|m|, p requires 0 <= p < |m| => StreamByte(ks, m, p))
  }

  function StreamByte(ks: seq<Block>, m: seq<Byte>, p: nat): Byte
    requires p < |m| <= 64 * |ks|
  {
    XorB(m[p], ks[p / 64][p % 64])
  }

  /** Section 2.4 of RFC 8439. */
  function Cipher(f: Permutation, st0: State, m: seq<Byte>): (c: seq<Byte>)
    ensures |c| == |m|
  {
    XorStream(KeyBlocks(f, st0, (|m| + 63) / 64), m)
  }

  method ToLeU32s(bytes: seq<Byte>, n: nat) returns (out: seq<Word>)
    requires 4 * n <= |bytes|
    ensures out == LeWords(bytes, n)
  {
    var a := new Word[n](_ => 0);
    for i := 0 to n
      invariant forall k | 0 <= k < i :: a[k] == LeWord(bytes, k)
    {
      a[i] := LeWord(bytes, i);
    }
    out := a[..];
  }

  method U32sToLeBytes(state: State) returns (out: seq<Byte>)
    ensures out == LeBytes(state)
  {
    var a := new Byte[64](_ => 0);
    for i := 0 to 16
      invariant forall p | 0 <= p < 4 * i :: a[p] == ByteOf(state[p / 4], p % 4)
    {
      for j := 0 to 4
        invariant forall p | 0 <= p < 4 * i + j :: a[p] == ByteOf(state[p / 4], p % 4)
      {
        a[i * 4 + j] := ByteOf(state[i], j);
      }
    }
    out := a[..];
  }

  method UpdateArray(array0: seq<Byte>, val: seq<Byte>) returns (out: seq<Byte>)
    requires |val| <= |array0|
    ensures out == val + array0[|val|..]
  {
    var a := new Byte[|array0|](i requires 0 <= i < |array0| => array0[i]);
    for i := 0 to |val|
      invariant forall k | 0 <= k < |array0| :: a[k] == if k < i then val[k] else array0[k]
    {
      a[i] := val[i];
    }
    out := a[..];
  }

  /** Byte `p` of an encrypted block is the plaintext byte xored with byte `p` of
      the core state. */
  lemma XorBlock(st: State, plain: seq<Byte>, p: nat)
    requires |plain| == 64 && p < 64
    ensures LeBytes(Xors(st, LeWords(plain, 16)))[p] == XorB(LeBytes(st)[p], plain[p])
  {
    ByteOfXor(st[p / 4], LeWord(plain, p / 4), p % 4);
    ByteOfLeWord(plain, p);
  }

  lemma XorBCommutes(x: Byte, y: Byte)
    ensures XorB(x, y) == XorB(y, x)
  {
    XorSymmetric(x, y);
  }

  predicate Xored(out: seq<Byte>, plain: seq<Byte>, ks: Block)
  {
    |out| == |plain| <= 64 && forall p | 0 <= p < |plain| :: out[p] == XorB(plain[p], ks[p])
  }

  method EncryptBlock(st0: State, ctr: Word, plain: Block, ghost f: Permutation) returns (out: seq<Byte>)
    requires Computes(f)
    ensures Xored(out, plain, BlockBytes(f, ctr, st0))
  {
    var st := ChaCha20Core(ctr, st0, f);
    var pl := ToLeU32s(plain, 16);
    var encrypted := XorState(st, pl);
    out := U32sToLeBytes(encrypted);
    XoredBlock(st, plain);
  }

  lemma XoredBlock(st: State, plain: Block)
    ensures Xored(LeBytes(Xors(st, LeWords(plain, 16))), plain, LeBytes(st))
  {
    forall p | 0 <= p < 64 ensures LeBytes(Xors(st, LeWords(plain, 16)))[p] == XorB(plain[p], LeBytes(st)[p]) {
      XorBlock(st, plain, p);
      XorBCommutes(LeBytes(st)[p], plain[p]);
    }
  }

  /** The last, short block is padded with zeros and cut again. */
  method EncryptLast(st0: State, ctr: Word, plain: seq<Byte>, ghost f: Permutation) returns (out: seq<Byte>)
    requires Computes(f)
    requires |plain| <= 64
    ensures Xored(out, plain, BlockBytes(f, ctr, st0))
  {
    var b := UpdateArray(seq(64, _ => 0), plain);
    var e := EncryptBlock(st0, ctr, b, f);
    out := e[..|plain|];
  }

  method Update(st0: State, m: seq<Byte>, ghost f: Permutation) returns (out: seq<Byte>)
    requires Computes(f)
    ensures out == Cipher(f, st0, m)
  {
    var numBlocks, remainder := |m| / 64, |m| % 64;
    ghost var ks := KeyBlocks(f, st0, (|m| + 63) / 64);
    out := [];
    for i := 0 to numBlocks
      invariant 64 * i <= |m| && out == XorStream(ks, m[..64 * i])
    {
      var b := EncryptBlock(st0, AsU32(i), m[64 * i..64 * i + 64], f);
      KeyBlockAt(f, st0, |ks|, i);
      StreamOneMore(ks, m, i, 64 * i + 64, b);
      out := out + b;
    }
    assert m[..|m|] == m;
    if remainder != 0 {
      var b := EncryptLast(st0, AsU32(numBlocks), m[64 * numBlocks..|m|], f);
      KeyBlockAt(f, st0, |ks|, numBlocks);
      StreamOneMore(ks, m, numBlocks, |m|, b);
      out := out + b;
    }
  }

  /** One more block, full or not. */
  lemma StreamOneMore(ks: seq<Block>, m: seq<Byte>, i: nat, end: nat, b: seq<Byte>)
    requires 64 * i <= end <= |m| <= 64 * |ks| && i < |ks| && Xored(b, m[64 * i..end], ks[i])
    ensures XorStream(ks, m[..end]) == XorStream(ks, m[..64 * i]) + b
  {
    forall p | 0 <= p < end ensures XorStream(ks, m[..end])[p] == (XorStream(ks, m[..64 * i]) + b)[p] {
      if p >= 64 * i { assert p / 64 == i && p % 64 == p - 64 * i; }
    }
  }

  // ---------- Properties of the cipher ----------

  lemma StreamTwice(ks: seq<Block>, m: seq<Byte>)
    requires |m| <= 64 * |ks|
    ensures XorStream(ks, XorStream(ks, m)) == m
  {
    forall p | 0 <= p < |m| ensures XorStream(ks, XorStream(ks, m))[p] == m[p] {
      XorBCancels(m[p], ks[p / 64][p % 64]);
    }
  }

  /** Encrypting twice returns the message. */
  lemma CipherTwice(f: Permutation, st0: State, m: seq<Byte>)
    ensures Cipher(f, st0, Cipher(f, st0, m)) == m
  {
    StreamTwice(KeyBlocks(f, st0, (|m| + 63) / 64), m);
  }

  /** A state whose counter word has been advanced by `k`, modulo 2^32. */
  function Advanced(st0: State, k: nat): State { st0[12 := Add(st0[12], AsU32(k))] }

  lemma AdvanceBlock(f: Permutation, st0: State, k: nat, i: nat)
    ensures BlockBytes(f, AsU32(i), Advanced(st0, k)) == BlockBytes(f, AsU32(k + i), st0)
  {
    AsU32Add(k, i, st0[12]);
    var ctr, base := AsU32(i), Advanced(st0, k);
    assert base[12 := Add(base[12], ctr)] == st0[12 := Add(st0[12], AsU32(k + i))];
  }

  lemma {:induction false} KeyBlocksSplit(f: Permutation, st0: State, k: nat, count: nat)
    ensures KeyBlocks(f, st0, k + count) == KeyBlocks(f, st0, k) + KeyBlocks(f, Advanced(st0, k), count)
    decreases count
  {
    if count > 0 {
      KeyBlocksSplit(f, st0, k, count - 1);
      AdvanceBlock(f, st0, k, count - 1);
    }
  }

  lemma StreamSplit(ks: seq<Block>, ks': seq<Block>, a: seq<Byte>, b: seq<Byte>)
    requires |a| == 64 * |ks| && |b| <= 64 * |ks'|
    ensures XorStream(ks + ks', a + b) == XorStream(ks, a) + XorStream(ks', b)
  {
    forall p | 0 <= p < |a + b| ensures XorStream(ks + ks', a + b)[p] == (XorStream(ks, a) + XorStream(ks', b))[p] {
      if p >= |a| {
        var q := p - |a|;
        assert p / 64 == |ks| + q / 64 && p % 64 == q % 64;
      }
    }
  }

  /** Encrypting a message split at a block boundary is encrypting its parts, the
      second with the counter advanced. */
  lemma SplitAtBlock(f: Permutation, st0: State, a: seq<Byte>, b: seq<Byte>, k: nat)
    requires |a| == 64 * k
    ensures Cipher(f, st0, a + b) == Cipher(f, st0, a) + Cipher(f, Advanced(st0, k), b)
  {
    var count := (|b| + 63) / 64;
    assert (|a + b| + 63) / 64 == k + count && (|a| + 63) / 64 == k;
    KeyBlocksSplit(f, st0, k, count);
    StreamSplit(KeyBlocks(f, st0, k), KeyBlocks(f, Advanced(st0, k), count), a, b);
  }

  /** Byte `p` of the cipher text is byte `p` of the message xored with byte
      `p mod 64` of key stream block `p div 64`. */
  lemma CipherAt(f: Permutation, st0: State, m: seq<Byte>, p: nat)
    requires p < |m|
    ensures Cipher(f, st0, m)[p] == XorB(m[p], BlockBytes(f, AsU32(p / 64), st0)[p % 64])
  {
    var ks := KeyBlocks(f, st0, (|m| + 63) / 64);
    KeyBlockAt(f, st0, |ks|, p / 64);
    assert Cipher(f, st0, m)[p] == StreamByte(ks, m, p);
  }

  // ---------- The whole cipher ----------

  /** Section 2.3: constants, key, counter and nonce. */
  function Init(key: seq<Byte>, iv: seq<Byte>, ctr: Word): State
    requires |key| == 32 && |iv| == 12
  {
    var (k, n) := (LeWords(key, 8), LeWords(iv, 3));
    [0x6170_7865, 0x3320_646e, 0x7962_2d32, 0x6b20_6574,
     k[0], k[1], k[2], k[3], k[4], k[5], k[6], k[7], ctr, n[0], n[1], n[2]]
  }

  /** The bytes of "expand 32-byte k". */
  const EXPAND: seq<Byte> := [101, 120, 112, 97, 110, 100, 32, 51, 50, 45, 98, 121, 116, 101, 32, 107]

  /** The parts of the initial state, in the standard's order. */
  lemma InitLayout(key: seq<Byte>, iv: seq<Byte>, ctr: Word)
    requires |key| == 32 && |iv| == 12
    ensures var st := Init(key, iv, ctr);
      st[..4] == LeWords(EXPAND, 4) && st[4..12] == LeWords(key, 8) && st[12] == ctr && st[13..16] == LeWords(iv, 3)
  {
  }

  method ChaCha20(m: seq<Byte>, key: seq<Byte>, iv: seq<Byte>, ctr: Word) returns (out: seq<Byte>)
    requires |key| == 32 && |iv| == 12
    ensures out == Cipher(Permute, Init(key, iv, ctr), m)
  {
    var k := ToLeU32s(key, 8);
    var n := ToLeU32s(iv, 3);
    var state := [0x6170_7865, 0x3320_646e, 0x7962_2d32, 0x6b20_6574,
                  k[0], k[1], k[2], k[3], k[4], k[5], k[6], k[7], ctr, n[0], n[1], n[2]];
    out := Update(state, m, Permute);
  }

  /** Decryption is encryption, for every key, nonce, counter and message. */
  method EncryptThenDecrypt(m: seq<Byte>, key: seq<Byte>, iv: seq<Byte>, ctr: Word) returns (c: seq<Byte>, p: seq<Byte>)
    requires |key| == 32 && |iv| == 12
    ensures |c| == |m| && p == m
  {
    c := ChaCha20(m, key, iv, ctr);
    p := ChaCha20(c, key, iv, ctr);
    CipherTwice(Permute, Init(key, iv, ctr), m);
  }
}
