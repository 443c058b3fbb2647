/** 32-bit words as integers with explicit wrap-around, bytes, and the
    conversions between them. */
module Words {
  import opened Arithmetic

  type Word = x: int | 0 <= x < 0x1_0000_0000
  type Byte = b: int | 0 <= b < 256

  /** `wrapping_add` and its inverse. */
  function Add(x: Word, y: Word): Word { (x + y) % 0x1_0000_0000 }

  function Sub(x: Word, y: Word): Word { (x - y) % 0x1_0000_0000 }

  /** `n as u32` */
  function AsU32(n: nat): Word { n % 0x1_0000_0000 }

  lemma AddCancels(x: Word, y: Word)
    ensures Sub(Add(x, y), y) == x && Add(Sub(x, y), y) == x
  {
  }

  lemma AsU32Add(a: nat, b: nat, w: Word)
    ensures Add(Add(w, AsU32(a)), AsU32(b)) == Add(w, AsU32(a + b))
  {
    var x: nat, y: nat := AsU32(a), AsU32(b);
    assert AsU32(a + b) == AsU32(x + y);
    AddAssociates(w, x, y);
  }

  lemma AddAssociates(w: Word, x: Word, y: Word)
    ensures Add(Add(w, x), y) == Add(w, Add(x, y))
  {
    WrapOnce(w, x);
    WrapOnce(x, y);
    WrapOnce(Add(w, x), y);
    WrapOnce(w, Add(x, y));
  }

  lemma WrapOnce(x: Word, y: Word)
    ensures Add(x, y) == if x + y < 0x1_0000_0000 then x + y else x + y - 0x1_0000_0000
  {
  }

  // ---------- Bitwise operations ----------

  /** Exclusive or, bit by bit from the least significant one. */
  function Xor(x: nat, y: nat): nat
    decreases x + y
  {
    if x == 0 && y == 0 then 0 else (x + y) % 2 + 2 * Xor(x / 2, y / 2)
  }

  lemma XorHalf(x: nat, y: nat)
    ensures Xor(x, y) == (x + y) % 2 + 2 * Xor(x / 2, y / 2)
    ensures Xor(x, y) / 2 == Xor(x / 2, y / 2) && Xor(x, y) % 2 == (x + y) % 2
  {
  }

  lemma {:induction false} XorCancels(x: nat, y: nat)
    ensures Xor(Xor(x, y), y) == x
    decreases x + y
  {
    if x != 0 || y != 0 {
      var z := Xor(x, y);
      XorHalf(x, y);
      XorCancels(x / 2, y / 2);
      XorHalf(z, y);
      ParityCancels(x, y, z);
    }
  }

  lemma ParityCancels(x: nat, y: nat, z: nat)
    requires z % 2 == (x + y) % 2
    ensures (z + y) % 2 == x % 2
  {
  }

  lemma {:induction false} XorBound(x: nat, y: nat, n: nat)
    requires x < Pow2(n) && y < Pow2(n)
    ensures Xor(x, y) < Pow2(n)
    decreases n
  {
    if n > 0 && (x != 0 || y != 0) { XorBound(x / 2, y / 2, n - 1); }
  }

  /** The low `n` bits of an exclusive or depend on the low `n` bits only. */
  lemma {:induction false} XorLow(x: nat, y: nat, n: nat)
    ensures Xor(x, y) % Pow2(n) == Xor(x % Pow2(n), y % Pow2(n))
    decreases n
  {
    if n > 0 {
      var p := Pow2(n - 1);
      var x', y', z := x % (2 * p), y % (2 * p), Xor(x, y);
      XorLow(x / 2, y / 2, n - 1);
      ModDouble(x, p);
      ModDouble(y, p);
      ModDouble(z, p);
      XorHalf(x, y);
      XorHalf(x', y');
      SameParity(x, y, x', y');
      assert z % (2 * p) == z % 2 + 2 * (Xor(x / 2, y / 2) % p);
    }
  }

  lemma SameParity(x: nat, y: nat, x': nat, y': nat)
    requires x % 2 == x' % 2 && y % 2 == y' % 2
    ensures (x + y) % 2 == (x' + y') % 2
  {
  }

  function XorW(x: Word, y: Word): Word
  {
    Pow2Words();
    XorBound(x, y, 32);
    Xor(x, y)
  }

  function XorB(x: Byte, y: Byte): Byte
  {
    Pow2Words();
    XorBound(x, y, 8);
    Xor(x, y)
  }

  lemma {:induction false} XorSymmetric(x: nat, y: nat)
    ensures Xor(x, y) == Xor(y, x)
    decreases x + y
  {
    if x != 0 || y != 0 { XorSymmetric(x / 2, y / 2); }
  }

  lemma XorWCancels(x: Word, y: Word)
    ensures XorW(XorW(x, y), y) == x
  {
    XorCancels(x, y);
  }

  lemma XorBCancels(x: Byte, y: Byte)
    ensures XorB(XorB(x, y), y) == x
  {
    XorCancels(x, y);
  }

  lemma {:induction false} XorAssociates(x: nat, y: nat, z: nat)
    ensures Xor(Xor(x, y), z) == Xor(x, Xor(y, z))
    decreases x + y + z
  {
    if x != 0 || y != 0 || z != 0 {
      XorAssociates(x / 2, y / 2, z / 2);
      HalvesAssociate(x, y, z);
      SameNumber(Xor(Xor(x, y), z), Xor(x, Xor(y, z)));
    }
  }

  lemma HalvesAssociate(x: nat, y: nat, z: nat)
    requires Xor(Xor(x / 2, y / 2), z / 2) == Xor(x / 2, Xor(y / 2, z / 2))
    ensures Xor(Xor(x, y), z) / 2 == Xor(x, Xor(y, z)) / 2
    ensures Xor(Xor(x, y), z) % 2 == Xor(x, Xor(y, z)) % 2
  {
    XorParts(x, y);
    XorParts(y, z);
    XorParts(Xor(x, y), z);
    XorParts(x, Xor(y, z));
    ParityAssociates(x, y, z, Xor(x, y), Xor(y, z));
  }

  lemma SameNumber(l: nat, r: nat)
    requires l / 2 == r / 2 && l % 2 == r % 2
    ensures l == r
  {
  }

  lemma XorParts(x: nat, y: nat)
    ensures Xor(x, y) / 2 == Xor(x / 2, y / 2) && Xor(x, y) % 2 == (x + y) % 2
  {
    XorHalf(x, y);
  }

  lemma ParityAssociates(x: nat, y: nat, z: nat, u: nat, v: nat)
    requires u % 2 == (x + y) % 2 && v % 2 == (y + z) % 2
    ensures (u + z) % 2 == (x + v) % 2
  {
  }

  /** Bitwise and. */
  function And(x: nat, y: nat): (r: nat)
    ensures r <= x
    decreases x
  {
    if x == 0 then 0 else (if x % 2 == 1 && y % 2 == 1 then 1 else 0) + 2 * And(x / 2, y / 2)
  }

  function AndW(x: Word, y: Word): Word { And(x, y) }

  function NotW(x: Word): Word { 0xFFFF_FFFF - x }

  // ---------- Rotation and shift ----------

  /** A number below `p * q` swaps its high and low parts. */
  function Swap(x: nat, p: nat, q: nat): nat
    requires p >= 1
  {
    x % p * q + x / p
  }

  lemma SwapSwaps(x: nat, p: nat, q: nat)
    requires p >= 1 && q >= 1 && x < p * q
    ensures Swap(x, p, q) < p * q && Swap(Swap(x, p, q), q, p) == x
  {
    var h, l := x / p, x % p;
    assert x == h * p + l;
    if h >= q { MulMonotone(p, q, h); }
    DivModUnique(Swap(x, p, q), q, l, h);
    MulMonotone(q, l + 1, p);
  }

  function RotateRight(x: Word, n: nat): Word
    requires n <= 32
  {
    Pow2Words();
    Pow2Sum(n, 32 - n);
    SwapSwaps(x, Pow2(n), Pow2(32 - n));
    Swap(x, Pow2(n), Pow2(32 - n))
  }

  function RotateLeft(x: Word, n: nat): Word
    requires n <= 32
  {
    RotateRight(x, 32 - n)
  }

  lemma RotateCancels(x: Word, n: nat)
    requires n <= 32
    ensures RotateRight(RotateLeft(x, n), n) == x && RotateLeft(RotateRight(x, n), n) == x
  {
    Pow2Words();
    Pow2Sum(n, 32 - n);
    Pow2Sum(32 - n, n);
    SwapSwaps(x, Pow2(n), Pow2(32 - n));
    SwapSwaps(x, Pow2(32 - n), Pow2(n));
  }

  function ShiftRight(x: Word, n: nat): Word { Quotient(x, Pow2(n)); x / Pow2(n) }

  lemma Quotient(x: nat, p: nat)
    requires p >= 1
    ensures 0 <= x / p <= x
  {
    assert x == p * (x / p) + x % p;
    MulMonotone(x / p, 1, p);
  }

  // ---------- Bytes ----------

  /** Byte `j`, least significant first. */
  function ByteOf(w: Word, j: nat): Byte
    requires j < 4
  {
    if j == 0 then w % 256
    else if j == 1 then w / 0x100 % 256
    else if j == 2 then w / 0x1_0000 % 256
    else w / 0x100_0000
  }

  function FromBytes(b0: Byte, b1: Byte, b2: Byte, b3: Byte): Word
  {
    b0 + 0x100 * b1 + 0x1_0000 * b2 + 0x100_0000 * b3
  }

  lemma BytesOfFrom(b0: Byte, b1: Byte, b2: Byte, b3: Byte)
    ensures var w := FromBytes(b0, b1, b2, b3);
      w % 256 == b0 && w / 0x100 % 256 == b1 && w / 0x1_0000 % 256 == b2 && w / 0x100_0000 == b3
  {
    var w := FromBytes(b0, b1, b2, b3);
    assert w / 0x100 == b1 + 0x100 * b2 + 0x1_0000 * b3;
    assert w / 0x1_0000 == b2 + 0x100 * b3;
  }

  lemma XorQuarter(x: nat, y: nat)
    ensures Xor(x, y) / 4 == Xor(x / 4, y / 4)
  {
    XorHalf(x, y);
    XorHalf(x / 2, y / 2);
    assert x / 2 / 2 == x / 4 && y / 2 / 2 == y / 4 && Xor(x, y) / 2 / 2 == Xor(x, y) / 4;
  }

  lemma XorSixteenth(x: nat, y: nat)
    ensures Xor(x, y) / 16 == Xor(x / 16, y / 16)
  {
    XorQuarter(x, y);
    XorQuarter(x / 4, y / 4);
    assert x / 4 / 4 == x / 16 && y / 4 / 4 == y / 16 && Xor(x, y) / 4 / 4 == Xor(x, y) / 16;
  }

  /** Exclusive or commutes with dropping the low byte, and with keeping it. */
  lemma XorByte(x: nat, y: nat)
    ensures Xor(x, y) / 256 == Xor(x / 256, y / 256)
    ensures Xor(x, y) % 256 == Xor(x % 256, y % 256)
  {
    XorSixteenth(x, y);
    XorSixteenth(x / 16, y / 16);
    assert x / 16 / 16 == x / 256 && y / 16 / 16 == y / 256 && Xor(x, y) / 16 / 16 == Xor(x, y) / 256;
    var eight := 8;
    XorLow(x, y, eight);
    Pow2Words();
  }

  lemma ByteOfXor(x: Word, y: Word, j: nat)
    requires j < 4
    ensures ByteOf(XorW(x, y), j) == XorB(ByteOf(x, j), ByteOf(y, j))
  {
    XorByte(x, y);
    XorByte(x / 0x100, y / 0x100);
    XorByte(x / 0x1_0000, y / 0x1_0000);
    HighBytes(x);
    HighBytes(y);
    HighBytes(XorW(x, y));
  }

  lemma HighBytes(w: Word)
    ensures w / 0x100 / 0x100 == w / 0x1_0000 && w / 0x1_0000 / 0x100 == w / 0x100_0000
  {
  }

  /** Word `i` of the bytes, in either byte order. */
  function LeWord(b: seq<Byte>, i: nat): Word
    requires 4 * i + 4 <= |b|
  {
    FromBytes(b[4 * i], b[4 * i + 1], b[4 * i + 2], b[4 * i + 3])
  }

  function BeWord(b: seq<Byte>, i: nat): Word
    requires 4 * i + 4 <= |b|
  {
    FromBytes(b[4 * i + 3], b[4 * i + 2], b[4 * i + 1], b[4 * i])
  }

  function LeWords(b: seq<Byte>, n: nat): (w: seq<Word>)
    requires 4 * n <= |b|
    ensures |w| == n
  {
    seq(n, i requires 0 <= i < n => LeWord(b, i))
  }

  function LeBytes(w: seq<Word>): (b: seq<Byte>)
    ensures |b| == 4 * |w|
  {
    seq(4 * |w|, p requires 0 <= p < 4 * |w| => ByteOf(w[p / 4], p % 4))
  }

  function BeBytes(w: seq<Word>): (b: seq<Byte>)
    ensures |b| == 4 * |w|
  {
    seq(4 * |w|, p requires 0 <= p < 4 * |w| => ByteOf(w[p / 4], 3 - p % 4))
  }

  /** Byte `p` of the words read from `b` is byte `p` of `b`. */
  lemma ByteOfLeWord(b: seq<Byte>, p: nat)
    requires p < |b| && |b| % 4 == 0
    ensures ByteOf(LeWord(b, p / 4), p % 4) == b[p]
  {
    var i := p / 4;
    BytesOfFrom(b[4 * i], b[4 * i + 1], b[4 * i + 2], b[4 * i + 3]);
  }
}
