/** The word operations, bit by bit. Bit 0 is the least significant. */
module WordBits {
  import opened Arithmetic
  import opened Words

  function Bit(x: nat, j: nat): (b: nat)
    ensures b <= 1
  {
    if j == 0 then x % 2 else Bit(x / 2, j - 1)
  }

  /** Bit `j` is the binary digit of weight 2^j. */
  lemma {:induction false} BitIsDigit(x: nat, j: nat)
    ensures Bit(x, j) == x / Pow2(j) % 2
  {
    if j > 0 {
      BitIsDigit(x / 2, j - 1);
      HalfThenDivide(x, Pow2(j - 1));
    }
  }

  lemma BitFirst(x: nat)
    ensures Bit(x, 0) == x % 2
  {
  }

  lemma BitNext(x: nat, j: nat)
    ensures Bit(x, j + 1) == Bit(x / 2, j)
  {
  }

  /** Numbers of `n` bits are the same when their bits are. */
  lemma {:induction false} BitsDetermine(x: nat, y: nat, n: nat)
    requires x < Pow2(n) && y < Pow2(n) && forall j | 0 <= j < n :: Bit(x, j) == Bit(y, j)
    ensures x == y
    decreases n
  {
    if n > 0 {
      BitFirst(x);
      BitFirst(y);
      forall j | 0 <= j < n - 1 ensures Bit(x / 2, j) == Bit(y / 2, j) {
        BitNext(x, j);
        BitNext(y, j);
      }
      BitsDetermine(x / 2, y / 2, n - 1);
    }
  }

  lemma {:induction false} XorBit(x: nat, y: nat, j: nat)
    ensures Bit(Xor(x, y), j) == (Bit(x, j) + Bit(y, j)) % 2
    decreases j
  {
    XorHalf(x, y);
    if j == 0 {
      ParityOfSum(x, y);
    } else {
      BitNext(x, j - 1);
      BitNext(y, j - 1);
      BitNext(Xor(x, y), j - 1);
      XorBit(x / 2, y / 2, j - 1);
    }
  }

  lemma ParityOfSum(x: nat, y: nat)
    ensures (x + y) % 2 == (x % 2 + y % 2) % 2
  {
  }

  function Both(a: nat, b: nat): nat { if a == 1 && b == 1 then 1 else 0 }

  lemma AndParts(x: nat, y: nat)
    ensures And(x, y) / 2 == And(x / 2, y / 2) && And(x, y) % 2 == Both(x % 2, y % 2)
  {
  }

  lemma {:induction false} AndBit(x: nat, y: nat, j: nat)
    ensures Bit(And(x, y), j) == Both(Bit(x, j), Bit(y, j))
    decreases j
  {
    AndParts(x, y);
    if j > 0 {
      BitNext(x, j - 1);
      BitNext(y, j - 1);
      BitNext(And(x, y), j - 1);
      AndBit(x / 2, y / 2, j - 1);
    }
  }

  lemma {:induction false} ComplementBit(x: nat, n: nat, j: nat)
    requires x < Pow2(n) && j < n
    ensures Bit(Pow2(n) - 1 - x, j) == 1 - Bit(x, j)
    decreases j
  {
    HalfComplement(x, Pow2(n - 1));
    if j > 0 { ComplementBit(x / 2, n - 1, j - 1); }
  }

  lemma HalfComplement(x: nat, p: nat)
    requires x < 2 * p
    ensures (2 * p - 1 - x) / 2 == p - 1 - x / 2 && (2 * p - 1 - x) % 2 == 1 - x % 2
  {
  }

  lemma NotBit(x: Word, j: nat)
    requires j < 32
    ensures Bit(NotW(x), j) == 1 - Bit(x, j)
  {
    Pow2Words();
    var n := 32;
    ComplementBit(x, n, j);
  }

  /** The bits of a number of two parts. */
  lemma {:induction false} HighLowBit(h: nat, l: nat, n: nat, j: nat)
    requires l < Pow2(n)
    ensures Bit(h * Pow2(n) + l, j) == if j < n then Bit(l, j) else Bit(h, j - n)
    decreases n
  {
    if n > 0 {
      var q := Pow2(n - 1);
      var v := h * Pow2(n) + l;
      TwiceProduct(h, q);
      assert v == 2 * (h * q) + l && v / 2 == h * q + l / 2;
      if j > 0 {
        BitNext(v, j - 1);
        BitNext(l, j - 1);
        HighLowBit(h, l / 2, n - 1, j - 1);
      }
    }
  }

  lemma QuotientBit(x: nat, n: nat, q: nat, j: nat)
    requires q == x / Pow2(n)
    ensures Bit(q, j) == Bit(x, j + n)
  {
    var h, l := DivMod(x, Pow2(n));
    HighLowBit(h, l, n, j + n);
  }

  lemma RemainderBit(x: nat, n: nat, j: nat)
    requires j < n
    ensures Bit(x % Pow2(n), j) == Bit(x, j)
  {
    var h, l := DivMod(x, Pow2(n));
    HighLowBit(h, l, n, j);
  }

  lemma ShiftRightBit(x: Word, n: nat, j: nat)
    ensures Bit(ShiftRight(x, n), j) == Bit(x, j + n)
  {
    QuotientBit(x, n, ShiftRight(x, n), j);
  }

  /** Bit `j` of a word rotated right by `n` is its bit `(j + n) mod 32`. */
  lemma RotateRightBit(x: Word, n: nat, j: nat)
    requires n <= 32 && j < 32
    ensures Bit(RotateRight(x, n), j) == Bit(x, (j + n) % 32)
  {
    Pow2Words();
    Pow2Sum(n, 32 - n);
    RotatedBit(x, n, 32 - n, j);
    ModOnce(j + n);
  }

  lemma ModOnce(k: nat)
    requires k < 64
    ensures k % 32 == if k < 32 then k else k - 32
  {
  }

  lemma RotatedBit(x: nat, n: nat, k: nat, j: nat)
    requires x < Pow2(n) * Pow2(k) && j < n + k
    ensures Bit(Swap(x, Pow2(n), Pow2(k)), j) == Bit(x, if j + n < n + k then j + n else j - k)
  {
    var h, l := DivMod(x, Pow2(n));
    if h >= Pow2(k) { MulMonotone(Pow2(n), Pow2(k), h); }
    HighLowBit(l, h, k, j);
    if j < k { QuotientBit(x, n, h, j); } else { RemainderBit(x, n, j - k); }
  }

  lemma RotateLeftBit(x: Word, n: nat, j: nat)
    requires n <= 32 && j < 32
    ensures Bit(RotateLeft(x, n), j) == Bit(x, (j + 32 - n) % 32)
  {
    RotateRightBit(x, 32 - n, j);
  }

  lemma WordBit(x: Word, y: Word, j: nat)
    ensures Bit(XorW(x, y), j) == (Bit(x, j) + Bit(y, j)) % 2
    ensures Bit(AndW(x, y), j) == if Bit(x, j) == 1 && Bit(y, j) == 1 then 1 else 0
  {
    XorBit(x, y, j);
    AndBit(x, y, j);
  }

  /** The bytes of a word weigh powers of 256, the first the least. */
  lemma BytesWeigh(w: Word)
    ensures w as int == ByteOf(w, 0) as int + 256 * ByteOf(w, 1) as int + 65536 * ByteOf(w, 2) as int
      + 16777216 * ByteOf(w, 3) as int
  {
    HighBytes(w);
    var w1, w2 := w / 256, w / 65536;
    assert w as int == 256 * w1 + w % 256;
    assert w1 == 256 * w2 + w1 % 256;
    assert w2 == 256 * (w / 16777216) + w2 % 256;
  }

  /** A little-endian word of four bytes. */
  lemma LeWordWeighs(b: seq<Byte>, i: nat)
    requires 4 * i + 4 <= |b|
    ensures LeWord(b, i) == b[4 * i] as int + 256 * b[4 * i + 1] as int + 65536 * b[4 * i + 2] as int
                          + 16777216 * b[4 * i + 3] as int
  {
  }
}
