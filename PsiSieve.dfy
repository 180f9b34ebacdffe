/**
  psi_exact_upto, common to the three explicit-formula scripts: a
  smallest-prime-factor sieve, the table of log p at the primes, the von
  Mangoldt table by dividing out the least prime factor, and the running
  sum psi.
 */
module PsiSieve {
  import opened NumberTheory

  /** int(xmax ** 0.5), the largest r with r * r <= n. */
  function ISqrt(n: nat): (r: nat)
    ensures r * r <= n < (r + 1) * (r + 1) && r <= n
  {
    if n == 0 then 0
    else
      var s := ISqrt(n - 1);
      if (s + 1) * (s + 1) <= n then s + 1 else s
  }

  /** The value the sieve leaves in spf[n]: n itself at 0 and 1, the least prime factor from 2 on. */
  function Spf(n: nat): (p: nat)
    ensures n < 2 ==> p == n
    ensures n >= 2 ==> 2 <= p <= n && n % p == 0
  {
    if n < 2 then n else LeastPrimeFactor(n)
  }

  /** spf[n] after the sieve has handled every i below bound. */
  function Marked(n: nat, bound: nat): nat
  {
    if n >= 2 && LeastPrimeFactor(n) < bound && LeastPrimeFactor(n) * LeastPrimeFactor(n) <= n
    then LeastPrimeFactor(n) else n
  }

  lemma SquareMonotone(a: nat, b: nat)
    requires a * a < b * b
    ensures a < b
  {
  }

  lemma SquareLe(a: nat, b: nat)
    requires a <= b
    ensures a * a <= b * b
  {
  }

  /** Once the bound passes the square root of n, spf[n] holds its final value. */
  lemma MarkedComplete(n: nat, bound: nat)
    requires n < bound * bound
    ensures Marked(n, bound) == Spf(n)
  {
    if n >= 2 {
      var p := LeastPrimeFactor(n);
      if p < n {
        CompositeLeastFactorSquare(n);
        SquareMonotone(p, bound);
      }
    }
  }

  /** spf[i] == i when the sieve reaches i exactly when i is prime. */
  lemma MarkedAtOwnBound(i: nat)
    requires i >= 2
    ensures Marked(i, i) == i <==> IsPrime(i)
  {
    PrimeIffOwnLeastFactor(i);
    if LeastPrimeFactor(i) < i {
      CompositeLeastFactorSquare(i);
    }
  }

  /** Raising the bound past a number that is nobody's least prime factor changes nothing. */
  lemma MarkedSkip(n: nat, i: nat)
    requires !IsPrime(i)
    ensures Marked(n, i + 1) == Marked(n, i)
  {
    if n >= 2 {
      LeastPrimeFactorIsPrime(n);
    }
  }

  /** Raising the bound past i changes only the multiples of i from i * i on. */
  lemma MarkedOffProgression(n: nat, i: nat)
    requires i >= 2 && (n % i != 0 || n < i * i)
    ensures Marked(n, i + 1) == Marked(n, i)
  {
  }

  /** On the progression i*i, i*i + i, ..., a number not yet marked gets i. */
  lemma MarkedOnProgression(j: nat, i: nat)
    requires IsPrime(i) && j % i == 0 && j >= i * i
    ensures Marked(j, i + 1) == if Marked(j, i) == j then i else Marked(j, i)
  {
    var p := LeastPrimeFactor(j);
    assert p <= i;
    if p < i {
      assert p * p <= i * i by { assert p * p <= p * i <= i * i; }
    }
  }

  /** Between two consecutive multiples of i lie no multiples of i. */
  lemma BetweenMultiples(j: nat, i: nat, n: nat)
    requires i >= 1 && j % i == 0 && j < n <= j + i
    ensures n % i == 0 <==> n == j + i
  {
    DivModUnique(j, i, j / i, 0);
    if n < j + i {
      DivModUnique(n, i, j / i, n - j);
    } else {
      DivModUnique(n, i, j / i + 1, 0);
    }
  }

  /** The first loop of psi_exact_upto: spf = list(range(xmax+1)), then the sieve over i <= int(xmax**0.5). */
  method SieveSmallestFactors(xmax: nat) returns (spf: array<nat>)
    ensures fresh(spf) && spf.Length == xmax + 1
    ensures forall n :: 0 <= n <= xmax ==> spf[n] == Spf(n)
  {
    spf := new nat[xmax + 1](n => n);
    var r := ISqrt(xmax);
    var i := 2;
    while i <= r
      invariant 2 <= i && (i <= r + 1 || r < 2)
      invariant forall n :: 0 <= n <= xmax ==> spf[n] == Marked(n, i)
    {
      MarkedAtOwnBound(i);
      if spf[i] == i {
        SieveMultiples(spf, i);
      } else {
        forall n | 0 <= n <= xmax ensures Marked(n, i + 1) == Marked(n, i) {
          MarkedSkip(n, i);
        }
      }
      i := i + 1;
    }
    SquareLe(r + 1, i);
    forall n | 0 <= n <= xmax ensures spf[n] == Spf(n) {
      MarkedComplete(n, i);
    }
  }

  /** The inner loop: for j in range(i*i, xmax+1, i): if spf[j] == j: spf[j] = i. */
  method SieveMultiples(spf: array<nat>, i: nat)
    requires IsPrime(i) && spf.Length >= 1
    requires forall n :: 0 <= n < spf.Length ==> spf[n] == Marked(n, i)
    modifies spf
    ensures forall n :: 0 <= n < spf.Length ==> spf[n] == Marked(n, i + 1)
  {
    var j := i * i;
    forall n | 0 <= n < spf.Length && n < j ensures Marked(n, i + 1) == Marked(n, i) {
      MarkedOffProgression(n, i);
    }
    MulMod(i, i);
    while j < spf.Length
      invariant j % i == 0 && j >= i * i
      invariant forall n :: 0 <= n < spf.Length ==> spf[n] == if n < j then Marked(n, i + 1) else Marked(n, i)
    {
      MarkedOnProgression(j, i);
      if spf[j] == j {
        spf[j] := i;
      }
      forall n | j < n < j + i ensures Marked(n, i + 1) == Marked(n, i) {
        BetweenMultiples(j, i, n);
        MarkedOffProgression(n, i);
      }
      BetweenMultiples(j, i, j + i);
      j := j + i;
    }
  }

  /** logp[i] = log(i) at the primes i <= xmax, 0.0 elsewhere. */
  method LogAtPrimes(spf: array<nat>, Log: real -> real) returns (logp: array<real>)
    requires forall n :: 0 <= n < spf.Length ==> spf[n] == Spf(n)
    ensures fresh(logp) && logp.Length == spf.Length
    ensures forall n :: 0 <= n < logp.Length ==> logp[n] == if IsPrime(n) then Log(n as real) else 0.0
  {
    logp := new real[spf.Length](_ => 0.0);
    var i := 2;
    while i < spf.Length
      invariant 2 <= i <= spf.Length || spf.Length < 2
      invariant forall n :: 0 <= n < logp.Length ==>
        logp[n] == if n < i && IsPrime(n) then Log(n as real) else 0.0
    {
      PrimeIffOwnLeastFactor(i);
      if spf[i] == i {
        logp[i] := Log(i as real);
      }
      i := i + 1;
    }
  }

  /** lam[n] = logp[p] when n is a power of its smallest prime factor p = spf[n], 0.0 otherwise. */
  method MangoldtTable(spf: array<nat>, logp: array<real>, Log: real -> real) returns (lam: array<real>)
    requires logp.Length == spf.Length
    requires forall n :: 0 <= n < spf.Length ==> spf[n] == Spf(n)
    requires forall n :: 0 <= n < logp.Length ==> logp[n] == if IsPrime(n) then Log(n as real) else 0.0
    ensures fresh(lam) && lam.Length == spf.Length
    ensures forall n :: 0 <= n < lam.Length ==> lam[n] == Mangoldt(n, Log)
  {
    lam := new real[spf.Length](_ => 0.0);
    var n := 2;
    while n < spf.Length
      invariant 2 <= n <= spf.Length || spf.Length < 2
      invariant forall k :: 0 <= k < lam.Length ==> lam[k] == if k < n then Mangoldt(k, Log) else 0.0
    {
      var p := spf[n];
      var m := DivideOut(n, p);
      LeastPrimeFactorIsPrime(n);
      if m == 1 {
        lam[n] := logp[p];
      }
      n := n + 1;
    }
  }

  lemma DivideStep(m: nat, p: nat)
    requires m >= 1 && p >= 2 && m % p == 0
    ensures 1 <= m / p < m && StripFactor(m / p, p) == StripFactor(m, p)
  {
    DivModUnique(m, p, m / p, 0);
    MulAtLeast(m / p, p);
  }

  /** m = n; while m % p == 0: m //= p. */
  method DivideOut(n: nat, p: nat) returns (m: nat)
    requires n >= 1 && p >= 2
    ensures m == StripFactor(n, p)
  {
    m := n;
    while m % p == 0
      invariant 1 <= m && StripFactor(m, p) == StripFactor(n, p)
      decreases m
    {
      DivideStep(m, p);
      m := m / p;
    }
  }

  /** psi[n] = lam[1] + ... + lam[n], the running sum the table holds (lam[0] is never added). */
  function RunSum(lam: seq<real>, n: nat): real
    requires n < |lam|
  {
    if n == 0 then 0.0 else RunSum(lam, n - 1) + lam[n]
  }

  /** The running sum of the von Mangoldt table is Chebyshev's psi. */
  lemma {:induction false} RunSumIsPsi(lam: seq<real>, n: nat, Log: real -> real)
    requires n < |lam|
    requires forall k :: 0 <= k < |lam| ==> lam[k] == Mangoldt(k, Log)
    ensures RunSum(lam, n) == Psi(n, Log)
  {
    if n > 0 {
      RunSumIsPsi(lam, n - 1, Log);
    }
  }

  /** psi[0] = 0 and psi[n] = psi[n-1] + lam[n]: the running sum of the table lam, read-only here. */
  method RunningSum(lam: seq<real>) returns (psi: array<real>)
    ensures fresh(psi) && psi.Length == |lam|
    ensures forall n :: 0 <= n < psi.Length ==> psi[n] == RunSum(lam, n)
  {
    psi := new real[|lam|](_ => 0.0);
    if |lam| == 0 {
      return;
    }
    var run := 0.0;
    for n := 1 to |lam|
      invariant run == RunSum(lam, n - 1)
      invariant forall k :: 0 <= k < n ==> psi[k] == RunSum(lam, k)
    {
      run := run + lam[n];
      psi[n] := run;
    }
  }

  /** psi_exact_upto(xmax): the table psi[0..xmax] of Chebyshev's function. */
  method PsiExactUpto(xmax: nat, Log: real -> real) returns (psi: seq<real>)
    ensures |psi| == xmax + 1
    ensures forall n :: 0 <= n <= xmax ==> psi[n] == Psi(n, Log)
  {
    var spf := SieveSmallestFactors(xmax);
    var logp := LogAtPrimes(spf, Log);
    var lam := MangoldtTable(spf, logp, Log);
    var table := RunningSum(lam[..]);
    psi := table[..];
    forall n | 0 <= n <= xmax ensures psi[n] == Psi(n, Log) {
      RunSumIsPsi(lam[..], n, Log);
    }
  }
}
