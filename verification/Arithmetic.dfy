/** Powers of two, products and quotients, shared by the models that count bits. */
module Arithmetic {

  function Pow2(n: nat): (p: nat)
    ensures p >= 1
  {
    if n == 0 then 1 else 2 * Pow2(n - 1)
  }

  lemma {:induction false} Pow2Monotone(m: nat, n: nat)
    requires m <= n
    ensures Pow2(m) <= Pow2(n)
  {
    if m < n { Pow2Monotone(m, n - 1); }
  }

  lemma {:induction false} Pow2Sum(m: nat, n: nat)
    ensures Pow2(m) * Pow2(n) == Pow2(m + n)
  {
    if m > 0 {
      Pow2Sum(m - 1, n);
      TwiceProduct(Pow2(m - 1), Pow2(n));
    }
  }

  lemma Pow2Eight(n: nat)
    ensures Pow2(n + 8) == 256 * Pow2(n) && Pow2(n + 8) == 2 * Pow2(n + 7) && Pow2(n + 8) == 4 * Pow2(n + 6)
  {
    assert Pow2(n + 2) == 4 * Pow2(n);
    assert Pow2(n + 4) == 4 * Pow2(n + 2);
    assert Pow2(n + 6) == 4 * Pow2(n + 4);
    assert Pow2(n + 8) == 4 * Pow2(n + 6);
  }

  /** The widths of units, symbols and bytes. */
  lemma Pow2Values()
    ensures Pow2(2) == 4 && Pow2(6) == 64 && Pow2(8) == 256 && Pow2(15) == 0x8000 && Pow2(16) == 0x1_0000
  {
    Pow2Eight(0);
    Pow2Eight(8);
  }

  /** The widths of words. */
  lemma Pow2Words()
    ensures Pow2(8) == 256 && Pow2(16) == 0x1_0000 && Pow2(24) == 0x100_0000
    ensures Pow2(30) == 0x4000_0000 && Pow2(31) == 0x8000_0000 && Pow2(32) == 0x1_0000_0000
  {
    Pow2Eight(0);
    Pow2Eight(8);
    Pow2Eight(16);
    Pow2Eight(24);
  }

  lemma Pow2SixtyThree()
    ensures Pow2(63) == 0x8000_0000_0000_0000
  {
    Pow2Words();
    Pow2Eight(32);
    Pow2Eight(40);
    Pow2Eight(48);
    Pow2Eight(56);
  }

  // ---------- Products and quotients ----------

  lemma TwiceProduct(q: nat, p: nat)
    ensures q * (2 * p) == 2 * (q * p) && (2 * q) * p == 2 * (q * p)
  {
  }

  lemma MulMonotone(p: nat, a: nat, b: nat)
    requires a <= b
    ensures p * a <= p * b && p * (a + 1) == p * a + p && p * (b + 1) == p * b + p && p * b == b * p
  {
  }

  lemma DivMod(x: nat, d: nat) returns (q: nat, r: nat)
    requires d >= 1
    ensures x == q * d + r && r < d && q == x / d && r == x % d
  {
    q, r := x / d, x % d;
  }

  lemma DivModUnique(x: nat, m: nat, q: nat, r: nat)
    requires m >= 1 && r < m && x == q * m + r
    ensures x / m == q && x % m == r
  {
    var q', r' := DivMod(x, m);
    Apart(m, q, q');
  }

  /** Different multiples of `m` are at least `m` apart. */
  lemma Apart(m: nat, a: nat, b: nat)
    ensures (a < b ==> a * m + m <= b * m) && (b < a ==> b * m + m <= a * m)
  {
    if a < b { MulMonotone(m, a + 1, b); }
    if b < a { MulMonotone(m, b + 1, a); }
  }

  lemma HalfThenDivide(x: nat, p: nat)
    requires p >= 1
    ensures x / 2 / p == x / (2 * p)
  {
    var q, r := DivMod(x, 2 * p);
    var y := q * p;
    TwiceProduct(q, p);
    assert x == 2 * y + r;
    DivModUnique(x / 2, p, q, r / 2);
  }

  lemma ModDouble(x: nat, p: nat)
    requires p >= 1
    ensures x % (2 * p) == x % 2 + 2 * (x / 2 % p)
    ensures x % (2 * p) / 2 == x / 2 % p && x % (2 * p) % 2 == x % 2
  {
    var q, r := DivMod(x / 2, p);
    TwiceProduct(q, p);
    var y := q * p;
    assert x == 2 * (y + r) + x % 2;
    DivModUnique(x, 2 * p, q, 2 * r + x % 2);
  }
}
