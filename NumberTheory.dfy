/**
  Elementary number theory behind the psi tables: primality, least prime
  factors, Euclid's lemma, powers, and the von Mangoldt function as the
  explicit-formula scripts tabulate it.
 */
module NumberTheory {

  /** n is prime: at least 2, and no d in [2, n) divides it. */
  predicate IsPrime(n: nat)
  {
    n >= 2 && forall d :: 2 <= d < n ==> n % d != 0
  }

  /** The least d >= lo dividing n (n itself divides n, so the search always ends). */
  function LeastFactorFrom(n: nat, lo: nat): (d: nat)
    requires 2 <= lo <= n
    ensures lo <= d <= n && n % d == 0
    ensures forall k :: lo <= k < d ==> n % k != 0
    decreases n - lo
  {
    if n % lo == 0 then lo else LeastFactorFrom(n, lo + 1)
  }

  /** The smallest factor above 1 of n >= 2, which is its least prime factor. */
  function LeastPrimeFactor(n: nat): (p: nat)
    requires n >= 2
    ensures 2 <= p <= n && n % p == 0
    ensures forall k :: 2 <= k < p ==> n % k != 0
  {
    LeastFactorFrom(n, 2)
  }

  lemma MulAtLeast(a: int, d: int)
    requires a > 0 && d >= 1
    ensures a * d >= a
  {
  }

  lemma MulDistributes(a: int, b: int, c: int)
    ensures a * b - a * c == a * (b - c)
  {
  }

  /** Division with remainder has only one answer. */
  lemma DivModUnique(x: int, a: int, q: int, r: int)
    requires a > 0 && 0 <= r < a && x == a * q + r
    ensures x / a == q && x % a == r
  {
    var q', r' := x / a, x % a;
    assert x == a * q' + r';
    if q' > q {
      MulDistributes(a, q', q);
      MulAtLeast(a, q' - q);
    } else if q' < q {
      MulDistributes(a, q, q');
      MulAtLeast(a, q - q');
    }
  }

  lemma MulMod(a: nat, m: nat)
    requires a > 0
    ensures (a * m) % a == 0 && (a * m) / a == m
  {
    DivModUnique(a * m, a, m, 0);
  }

  lemma {:induction false} DividesTransitive(a: nat, b: nat, c: nat)
    requires a > 0 && b > 0 && b % a == 0 && c % b == 0
    ensures c % a == 0
  {
    var r, q := b / a, c / b;
    assert b == a * r;
    assert c == b * q;
    assert c == a * (r * q);
    MulMod(a, r * q);
  }

  /** The least factor above 1 is prime. */
  lemma LeastPrimeFactorIsPrime(n: nat)
    requires n >= 2
    ensures IsPrime(LeastPrimeFactor(n))
  {
    var p := LeastPrimeFactor(n);
    forall d | 2 <= d < p ensures p % d != 0 {
      if p % d == 0 {
        DividesTransitive(d, p, n);
      }
    }
  }

  /** n is prime exactly when it is its own least prime factor. */
  lemma PrimeIffOwnLeastFactor(n: nat)
    requires n >= 2
    ensures IsPrime(n) <==> LeastPrimeFactor(n) == n
  {
  }

  /** A composite number has its least prime factor at most its square root. */
  lemma CompositeLeastFactorSquare(n: nat)
    requires n >= 2 && LeastPrimeFactor(n) < n
    ensures LeastPrimeFactor(n) * LeastPrimeFactor(n) <= n
  {
    var p := LeastPrimeFactor(n);
    var m := n / p;
    assert n == p * m;
    assert m >= 2;
    MulMod(m, p);
    assert n % m == 0;
    assert m >= p;
  }

  /** p to the power k. */
  function Pow(p: nat, k: nat): (r: nat)
    ensures p >= 1 ==> r >= 1
  {
    if k == 0 then 1 else p * Pow(p, k - 1)
  }

  /** m with every factor p divided out: the while m % p == 0: m //= p loop. */
  function StripFactor(m: nat, p: nat): (r: nat)
    requires m >= 1 && p >= 2
    ensures r >= 1 && r % p != 0
    decreases m
  {
    if m % p == 0 then
      DivModUnique(m, p, m / p, 0);
      assert m / p < m by { MulAtLeast(m / p, p); }
      StripFactor(m / p, p)
    else m
  }

  /** Dividing out p leaves 1 exactly when n is a positive power of p. */
  lemma StripFactorOne(n: nat, p: nat)
    requires n >= 2 && p >= 2
    ensures StripFactor(n, p) == 1 <==> exists k :: k >= 1 && n == Pow(p, k)
  {
    if StripFactor(n, p) == 1 {
      var k := StripOneExponent(n, p);
    }
    if exists k :: k >= 1 && n == Pow(p, k) {
      var k :| k >= 1 && n == Pow(p, k);
      StripFactorOfPower(p, k);
    }
  }

  /** When dividing out p leaves 1, the exponent of p in n. */
  lemma {:induction false} StripOneExponent(n: nat, p: nat) returns (k: nat)
    requires n >= 2 && p >= 2 && StripFactor(n, p) == 1
    ensures k >= 1 && n == Pow(p, k)
    decreases n
  {
    assert n % p == 0;
    var m := n / p;
    DivModUnique(n, p, m, 0);
    assert StripFactor(m, p) == 1;
    if m == 1 {
      k := 1;
      assert Pow(p, k) == p * Pow(p, 0);
    } else {
      assert m < n by { MulAtLeast(m, p); }
      var j := StripOneExponent(m, p);
      k := j + 1;
      assert Pow(p, k) == p * Pow(p, j);
    }
  }

  lemma {:induction false} StripFactorOfPower(p: nat, k: nat)
    requires p >= 2
    ensures StripFactor(Pow(p, k), p) == 1
  {
    if k > 0 {
      var m := Pow(p, k - 1);
      assert Pow(p, k) == p * m;
      MulMod(p, m);
      StripFactorOfPower(p, k - 1);
    }
  }

  /**
    The von Mangoldt function as the explicit scripts tabulate it: log p
    when n is a power of its least prime factor p, and 0 otherwise.
   */
  function Mangoldt(n: nat, Log: real -> real): real
  {
    if n < 2 then 0.0
    else
      var p := LeastPrimeFactor(n);
      if StripFactor(n, p) == 1 then Log(p as real) else 0.0
  }

  /** psi(n): the sum of the von Mangoldt function over 1..n. */
  function Psi(n: nat, Log: real -> real): real
  {
    if n == 0 then 0.0 else Psi(n - 1, Log) + Mangoldt(n, Log)
  }

  /**
    Euclid's lemma by descent on the multiplier: a prime q dividing r * m
    with 0 < r < q divides m.
   */
  lemma {:induction false} EuclidDescent(q: nat, r: nat, m: nat)
    requires IsPrime(q) && 1 <= r < q && (r * m) % q == 0
    ensures m % q == 0
    decreases r
  {
    if r > 1 {
      var b, s := q / r, q % r;
      assert s != 0;
      assert q == r * b + s;
      var t := (r * m) / q;
      assert r * m == q * t;
      assert q * m == b * (r * m) + s * m by {
        assert q * m == (r * b + s) * m;
      }
      assert s * m == q * (m - b * t) by {
        assert b * (r * m) == q * (b * t);
      }
      assert m - b * t >= 0 by {
        if m - b * t < 0 {
          MulAtLeast(q, b * t - m);
        }
      }
      MulMod(q, m - b * t);
      EuclidDescent(q, s, m);
    }
  }

  /** A prime dividing a positive power of the prime p is p. */
  lemma {:induction false} PrimeDividesPrimePower(q: nat, p: nat, k: nat)
    requires IsPrime(q) && IsPrime(p) && k >= 1 && Pow(p, k) % q == 0
    ensures q == p
    decreases k
  {
    if q != p {
      var m := Pow(p, k - 1);
      var r, a := p % q, p / q;
      assert r != 0 by {
        if q < p { assert p % q != 0; } else { DivModUnique(p, q, 0, p); }
      }
      assert p == q * a + r;
      var t := (p * m) / q;
      assert p * m == q * t;
      assert r * m == q * (t - a * m) by {
        assert p * m == q * (a * m) + r * m by {
          assert p * m == (q * a + r) * m;
        }
      }
      assert t - a * m >= 0 by {
        if t - a * m < 0 {
          MulAtLeast(q, a * m - t);
        }
      }
      MulMod(q, t - a * m);
      EuclidDescent(q, r, m);
      if k > 1 {
        PrimeDividesPrimePower(q, p, k - 1);
      }
    }
  }

  /** The least prime factor of p^k is p. */
  lemma LeastFactorOfPrimePower(p: nat, k: nat)
    requires IsPrime(p) && k >= 1
    ensures Pow(p, k) >= 2 && LeastPrimeFactor(Pow(p, k)) == p
  {
    PowAtLeastBase(p, k);
    var d := LeastPrimeFactor(Pow(p, k));
    LeastPrimeFactorIsPrime(Pow(p, k));
    PrimeDividesPrimePower(d, p, k);
  }

  lemma {:induction false} PowAtLeastBase(p: nat, k: nat)
    requires p >= 1 && k >= 1
    ensures Pow(p, k) >= p
  {
    if k > 1 {
      PowAtLeastBase(p, k - 1);
      MulAtLeast(p, Pow(p, k - 1));
    }
  }

  /** Lambda(p^k) = log p for every prime p and k >= 1. */
  lemma MangoldtAtPrimePower(p: nat, k: nat, Log: real -> real)
    requires IsPrime(p) && k >= 1
    ensures Mangoldt(Pow(p, k), Log) == Log(p as real)
  {
    LeastFactorOfPrimePower(p, k);
    StripFactorOfPower(p, k);
  }

  /** Lambda vanishes at every n that is not a positive power of a prime. */
  lemma MangoldtOffPrimePowers(n: nat, Log: real -> real)
    requires forall p, k :: IsPrime(p) && k >= 1 ==> n != Pow(p, k)
    ensures Mangoldt(n, Log) == 0.0
  {
    if n >= 2 {
      var p := LeastPrimeFactor(n);
      LeastPrimeFactorIsPrime(n);
      StripFactorOne(n, p);
    }
  }

  /** psi is non-decreasing when log is non-negative at the primes. */
  lemma {:induction false} PsiNonDecreasing(m: nat, n: nat, Log: real -> real)
    requires forall p :: IsPrime(p) ==> Log(p as real) >= 0.0
    requires m <= n
    ensures Psi(m, Log) <= Psi(n, Log)
    decreases n
  {
    if m < n {
      PsiNonDecreasing(m, n - 1, Log);
      if n >= 2 {
        LeastPrimeFactorIsPrime(n);
      }
    }
  }
}
