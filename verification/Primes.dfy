/** The prime numbers below 312, by trial division. */
module Primes {
  import opened Arithmetic

  predicate IsPrime(n: nat) { n >= 2 && forall d | 2 <= d < n :: n % d != 0 }

  /** No prime below 18 divides the number, unless it is the number. */
  predicate Passes(n: nat)
  {
    && (n == 2 || n % 2 != 0) && (n == 3 || n % 3 != 0) && (n == 5 || n % 5 != 0) && (n == 7 || n % 7 != 0)
    && (n == 11 || n % 11 != 0) && (n == 13 || n % 13 != 0) && (n == 17 || n % 17 != 0)
  }

  lemma Product(a: nat, b: nat, c: nat, d: nat)
    requires a <= c && b <= d
    ensures a * b <= c * d
  {
  }

  /** A number below 324 that is not prime has a divisor below 18. */
  lemma SmallDivisor(n: nat, d: nat) returns (s: nat)
    requires 2 <= d < n < 324 && n % d == 0
    ensures 2 <= s < 18 && s < n && n % s == 0
  {
    var e := n / d;
    assert n == d * e;
    if d < 18 {
      s := d;
    } else {
      s := e;
      if e >= 18 { Product(18, 18, d, e); }
      Cofactor(n, d, e);
    }
  }

  lemma Cofactor(n: nat, d: nat, e: nat)
    requires 2 <= d < n && n == d * e
    ensures 2 <= e < n && n % e == 0
  {
    assert e != 0 && e != 1;
    DivModUnique(n, e, d, 0);
    Product(2, e, d, e);
  }

  lemma Transitive(n: nat, s: nat, p: nat)
    requires s >= 1 && p >= 1 && n % s == 0 && s % p == 0
    ensures n % p == 0
  {
    var a, b := n / s, s / p;
    assert n == a * s && s == b * p;
    assert n == (a * b) * p;
    DivModUnique(n, p, a * b, 0);
  }

  /** Then one of the primes below 18 divides it. */
  lemma SmallPrimeDivides(n: nat, s: nat)
    requires 2 <= s < 18 && s < n && n % s == 0
    ensures !Passes(n)
  {
    var p := if s % 2 == 0 then 2 else if s % 3 == 0 then 3 else s;
    Transitive(n, s, p);
    assert p in {2, 3, 5, 7, 11, 13, 17};
  }

  /** Below 324 trial division by the primes below 18 decides. */
  lemma PassesIffPrime(n: nat)
    requires 2 <= n < 324
    ensures IsPrime(n) <==> Passes(n)
  {
    if !IsPrime(n) {
      var d :| 2 <= d < n && n % d == 0;
      var s := SmallDivisor(n, d);
      SmallPrimeDivides(n, s);
    }
  }

  // ---------- The first 64 primes ----------

  const PRIMES: seq<nat> :=
    [2, 3, 5, 7, 11, 13, 17, 19] +
    [23, 29, 31, 37, 41, 43, 47, 53] +
    [59, 61, 67, 71, 73, 79, 83, 89] +
    [97, 101, 103, 107, 109, 113, 127, 131] +
    [137, 139, 149, 151, 157, 163, 167, 173] +
    [179, 181, 191, 193, 197, 199, 211, 223] +
    [227, 229, 233, 239, 241, 251, 257, 263] +
    [269, 271, 277, 281, 283, 293, 307, 311]

  lemma Pass0()
    ensures forall i | 0 <= i < 32 :: Passes(PRIMES[i])
  {
  }

  lemma Pass1()
    ensures forall i | 32 <= i < 64 :: Passes(PRIMES[i])
  {
  }

  predicate Skips(n: nat, q: nat) { n >= q || !Passes(n) }

  /** The next prime after `p` is `q`, no more than 14 away. */
  predicate Gap(p: nat, q: nat)
  {
    && p < q <= p + 14
    && Skips(p + 1, q) && Skips(p + 2, q) && Skips(p + 3, q) && Skips(p + 4, q) && Skips(p + 5, q)
    && Skips(p + 6, q) && Skips(p + 7, q) && Skips(p + 8, q) && Skips(p + 9, q) && Skips(p + 10, q)
    && Skips(p + 11, q) && Skips(p + 12, q) && Skips(p + 13, q)
  }

  lemma Gaps0()
    ensures forall i | 0 <= i < 8 :: Gap(PRIMES[i], PRIMES[i + 1])
  {
  }

  lemma Gaps1()
    ensures forall i | 8 <= i < 16 :: Gap(PRIMES[i], PRIMES[i + 1])
  {
  }

  lemma Gaps2()
    ensures forall i | 16 <= i < 24 :: Gap(PRIMES[i], PRIMES[i + 1])
  {
  }

  lemma Gaps3()
    ensures forall i | 24 <= i < 32 :: Gap(PRIMES[i], PRIMES[i + 1])
  {
  }

  lemma Gaps4()
    ensures forall i | 32 <= i < 40 :: Gap(PRIMES[i], PRIMES[i + 1])
  {
  }

  lemma Gaps5()
    ensures forall i | 40 <= i < 48 :: Gap(PRIMES[i], PRIMES[i + 1])
  {
  }

  lemma Gaps6()
    ensures forall i | 48 <= i < 56 :: Gap(PRIMES[i], PRIMES[i + 1])
  {
  }

  lemma Gaps7()
    ensures forall i | 56 <= i < 63 :: Gap(PRIMES[i], PRIMES[i + 1])
  {
  }

  lemma Gaps(i: nat)
    requires i + 1 < 64
    ensures Gap(PRIMES[i], PRIMES[i + 1])
  {
    if i < 8 { Gaps0(); } else if i < 16 { Gaps1(); } else if i < 24 { Gaps2(); } else if i < 32 { Gaps3(); }
    else if i < 40 { Gaps4(); } else if i < 48 { Gaps5(); } else if i < 56 { Gaps6(); } else { Gaps7(); }
  }

  lemma GapSkips(p: nat, q: nat, n: nat)
    requires Gap(p, q) && p < n < q
    ensures !Passes(n)
  {
    assert 1 <= n - p <= 13;
    assert Skips(n, q);
  }

  lemma {:induction false} Increasing(i: nat, j: nat)
    requires i < j < 64
    ensures PRIMES[i] < PRIMES[j]
  {
    Gaps(j - 1);
    if i < j - 1 { Increasing(i, j - 1); }
  }

  /** A number that passes is listed. */
  lemma {:induction false} PassingListed(n: nat, i: nat)
    requires i < 64 && 2 <= n <= PRIMES[i] && Passes(n)
    ensures n in PRIMES
  {
    if n < PRIMES[i] {
      assert PRIMES[0] == 2;
      Gaps(i - 1);
      if n > PRIMES[i - 1] {
        GapSkips(PRIMES[i - 1], PRIMES[i], n);
      } else {
        PassingListed(n, i - 1);
      }
    }
  }

  /** The list holds the prime numbers up to its last, in increasing order. */
  ghost predicate FirstPrimes(ps: seq<nat>)
  {
    && (forall i, j | 0 <= i < j < |ps| :: ps[i] < ps[j])
    && ps != [] && forall n | n <= ps[|ps| - 1] :: n in ps <==> IsPrime(n)
  }

  lemma AreFirstPrimes()
    ensures |PRIMES| == 64 && FirstPrimes(PRIMES)
  {
    forall i, j | 0 <= i < j < 64 ensures PRIMES[i] < PRIMES[j] { Increasing(i, j); }
    forall n | n <= PRIMES[63] ensures n in PRIMES <==> IsPrime(n) { ListedIffPrime(n); }
  }

  lemma ListedIffPrime(n: nat)
    requires n <= 311
    ensures n in PRIMES <==> IsPrime(n)
  {
    Pass0();
    Pass1();
    if n in PRIMES {
      var i :| 0 <= i < 64 && PRIMES[i] == n;
      if i > 0 { Increasing(0, i); }
      assert n >= 2;
      PassesIffPrime(n);
    } else if n >= 2 {
      if Passes(n) { PassingListed(n, 63); }
      PassesIffPrime(n);
    }
  }
}
