/**
  The prime-power part of HR-StepA/close_stepA.py used under the RH option:
  primes_upto (a sieve of Eratosthenes), psi_integer (log p summed over the
  prime powers p^k <= n), and the small-x check that turns them into C_small.
 */
module StepAPrimes {
  import opened NumberTheory
  import opened PsiSieve
  import opened Numerics

  predicate Increasing(s: seq<nat>)
  {
    forall i, j :: 0 <= i < j < |s| ==> s[i] < s[j]
  }

  /** sieve[m] once every p below bound has been processed: m is at least 2 and not struck out. */
  predicate Unstruck(m: nat, bound: nat)
  {
    m >= 2 && Marked(m, bound) == m
  }

  /** The marking of one prime: sieve[p*p : n+1 : p] = [False] * ... */
  method StrikeMultiples(sieve: array<bool>, p: nat)
    requires IsPrime(p)
    requires forall m :: 0 <= m < sieve.Length ==> sieve[m] == Unstruck(m, p)
    modifies sieve
    ensures forall m :: 0 <= m < sieve.Length ==> sieve[m] == Unstruck(m, p + 1)
  {
    var j := p * p;
    forall m | 0 <= m < sieve.Length && m < j ensures Marked(m, p + 1) == Marked(m, p) {
      MarkedOffProgression(m, p);
    }
    MulMod(p, p);
    while j < sieve.Length
      invariant j % p == 0 && j >= p * p
      invariant forall m :: 0 <= m < sieve.Length ==> sieve[m] == if m < j then Unstruck(m, p + 1) else Unstruck(m, p)
    {
      MarkedOnProgression(j, p);
      MulAtLeast(p, p);
      sieve[j] := false;
      forall m | j < m < j + p ensures Marked(m, p + 1) == Marked(m, p) {
        BetweenMultiples(j, p, m);
        MarkedOffProgression(m, p);
      }
      BetweenMultiples(j, p, j + p);
      j := j + p;
    }
  }

  /** One pass of the outer sieve loop: strike the multiples of p when p is still unstruck. */
  method SieveRound(sieve: array<bool>, p: nat) returns (next: nat)
    requires 2 <= p < sieve.Length
    requires forall m :: 0 <= m < sieve.Length ==> sieve[m] == Unstruck(m, p)
    modifies sieve
    ensures next == p + 1
    ensures forall m :: 0 <= m < sieve.Length ==> sieve[m] == Unstruck(m, next)
  {
    next := p + 1;
    MarkedAtOwnBound(p);
    if sieve[p] {
      StrikeMultiples(sieve, p);
    } else {
      forall m | 0 <= m < sieve.Length ensures Marked(m, next) == Marked(m, p) {
        MarkedSkip(m, p);
      }
    }
  }

  /** primes_upto(n): the primes <= n in increasing order. */
  method PrimesUpto(n: nat) returns (primes: seq<nat>)
    requires n >= 1
    ensures Increasing(primes)
    ensures forall q :: q in primes <==> 2 <= q <= n && IsPrime(q)
  {
    var sieve := new bool[n + 1](_ => true);
    sieve[0] := false;
    sieve[1] := false;
    var r := ISqrt(n);
    var p := 2;
    while p <= r
      invariant 2 <= p && (p <= r + 1 || r < 2)
      invariant forall m :: 0 <= m <= n ==> sieve[m] == Unstruck(m, p)
    {
      p := SieveRound(sieve, p);
    }
    SquareLe(r + 1, p);
    forall m | 2 <= m <= n ensures sieve[m] <==> IsPrime(m) {
      MarkedComplete(m, p);
      PrimeIffOwnLeastFactor(m);
    }
    primes := CollectPrimes(sieve, n);
  }

  /** [i for i in range(n+1) if sieve[i]], on a sieve that is exact from 2 to n and false at 0 and 1. */
  method CollectPrimes(sieve: array<bool>, n: nat) returns (primes: seq<nat>)
    requires sieve.Length == n + 1 && n >= 1 && !sieve[0] && !sieve[1]
    requires forall m :: 2 <= m <= n ==> (sieve[m] <==> IsPrime(m))
    ensures Increasing(primes)
    ensures forall q :: q in primes <==> 2 <= q <= n && IsPrime(q)
  {
    primes := [];
    var i := 0;
    while i <= n
      invariant 0 <= i <= n + 1
      invariant Increasing(primes) && forall k :: 0 <= k < |primes| ==> primes[k] < i
      invariant forall q :: q in primes <==> 2 <= q < i && IsPrime(q)
    {
      if sieve[i] {
        primes := primes + [i];
      }
      i := i + 1;
    }
  }

  predicate AllAtLeastTwo(primes: seq<nat>)
  {
    forall i :: 0 <= i < |primes| ==> primes[i] >= 2
  }

  /** The while pk <= n loop of psi_integer from pk on: log p once for each of pk, pk*p, pk*p^2, ... up to n. */
  function PowerLogs(pk: nat, p: nat, n: nat, Log: real -> real): real
    requires pk >= 1 && p >= 2
    decreases n + 1 - pk
  {
    if pk > n then 0.0
    else
      MulAtLeast(pk, p);
      Log(p as real) + PowerLogs(pk * p, p, n, Log)
  }

  /** psi_integer(n, primes): the sum of PowerLogs over the primes, stopping at the first one above n. */
  function PsiIntegerSum(n: nat, primes: seq<nat>, Log: real -> real): real
    requires AllAtLeastTwo(primes)
  {
    if |primes| == 0 || primes[0] > n then 0.0
    else PowerLogs(primes[0], primes[0], n, Log) + PsiIntegerSum(n, primes[1..], Log)
  }

  /** psi_integer(n, primes) as the loop computes it. */
  method PsiInteger(n: nat, primes: seq<nat>, Log: real -> real) returns (s: real)
    requires AllAtLeastTwo(primes)
    ensures s == PsiIntegerSum(n, primes, Log)
  {
    s := 0.0;
    var i := 0;
    while i < |primes|
      invariant 0 <= i <= |primes|
      invariant s + PsiIntegerSum(n, primes[i..], Log) == PsiIntegerSum(n, primes, Log)
    {
      var p := primes[i];
      assert primes[i..][1..] == primes[i + 1..];
      if p > n {
        break;
      }
      var pk := p;
      ghost var s0 := s;
      while pk <= n
        invariant pk >= 1
        invariant s + PowerLogs(pk, p, n, Log) == s0 + PowerLogs(p, p, n, Log)
        decreases n + 1 - pk
      {
        s := s + Log(p as real);
        MulAtLeast(pk, p);
        pk := pk * p;
      }
      i := i + 1;
    }
  }

  /** n lies on the progression pk, pk*p, pk*p^2, ... */
  ghost predicate OnPowers(n: nat, pk: nat, p: nat)
  {
    exists j: nat :: n == pk * Pow(p, j)
  }

  lemma OnPowersBelow(n: nat, pk: nat, p: nat)
    requires pk > n && p >= 2
    ensures !OnPowers(n, pk, p)
  {
    forall j: nat ensures n != pk * Pow(p, j) {
      MulAtLeast(pk, Pow(p, j));
    }
  }

  lemma PowAssoc(pk: nat, p: nat, j: nat)
    ensures pk * Pow(p, j + 1) == pk * p * Pow(p, j)
  {
    assert pk * Pow(p, j + 1) == pk * (p * Pow(p, j));
  }

  /** Above its first term, the progression from pk continues as the progression from pk * p. */
  lemma OnPowersShift(n: nat, pk: nat, p: nat)
    requires pk < n && p >= 2
    ensures OnPowers(n, pk * p, p) <==> OnPowers(n, pk, p)
  {
    if OnPowers(n, pk * p, p) {
      var j: nat :| n == pk * p * Pow(p, j);
      PowAssoc(pk, p, j);
    }
    if OnPowers(n, pk, p) {
      var j: nat :| n == pk * Pow(p, j);
      assert j != 0;
      PowAssoc(pk, p, j - 1);
    }
  }

  /** Going from n - 1 to n adds log p to the inner loop's sum exactly when n is on the progression. */
  lemma {:induction false} PowerLogsStep(pk: nat, p: nat, n: nat, Log: real -> real)
    requires pk >= 1 && p >= 2 && n >= 1
    ensures PowerLogs(pk, p, n, Log) == PowerLogs(pk, p, n - 1, Log) + if OnPowers(n, pk, p) then Log(p as real) else 0.0
    decreases n + 1 - pk
  {
    MulAtLeast(pk, p);
    if pk > n {
      OnPowersBelow(n, pk, p);
    } else if pk == n {
      assert n == pk * Pow(p, 0);
    } else {
      PowerLogsStep(pk * p, p, n, Log);
      OnPowersShift(n, pk, p);
    }
  }

  /** The inner-loop sums of every listed prime, without the early stop. */
  function AllPowerLogs(n: nat, primes: seq<nat>, Log: real -> real): real
    requires AllAtLeastTwo(primes)
  {
    if |primes| == 0 then 0.0
    else PowerLogs(primes[0], primes[0], n, Log) + AllPowerLogs(n, primes[1..], Log)
  }

  /** The log p of every listed prime p of which n is a positive power. */
  ghost function Hits(n: nat, primes: seq<nat>, Log: real -> real): real
    requires AllAtLeastTwo(primes)
  {
    if |primes| == 0 then 0.0
    else (if OnPowers(n, primes[0], primes[0]) then Log(primes[0] as real) else 0.0) + Hits(n, primes[1..], Log)
  }

  lemma {:induction false} AllPowerLogsAbove(n: nat, primes: seq<nat>, Log: real -> real)
    requires AllAtLeastTwo(primes) && forall i :: 0 <= i < |primes| ==> primes[i] > n
    ensures AllPowerLogs(n, primes, Log) == 0.0
  {
    if |primes| > 0 {
      AllPowerLogsAbove(n, primes[1..], Log);
    }
  }

  /** On an increasing list, stopping at the first prime above n loses nothing. */
  lemma {:induction false} EarlyStopLosesNothing(n: nat, primes: seq<nat>, Log: real -> real)
    requires AllAtLeastTwo(primes) && Increasing(primes)
    ensures PsiIntegerSum(n, primes, Log) == AllPowerLogs(n, primes, Log)
  {
    if |primes| > 0 {
      if primes[0] > n {
        AllPowerLogsAbove(n, primes, Log);
      } else {
        EarlyStopLosesNothing(n, primes[1..], Log);
      }
    }
  }

  lemma {:induction false} AllPowerLogsStep(n: nat, primes: seq<nat>, Log: real -> real)
    requires AllAtLeastTwo(primes) && n >= 1
    ensures AllPowerLogs(n, primes, Log) == AllPowerLogs(n - 1, primes, Log) + Hits(n, primes, Log)
  {
    if |primes| > 0 {
      PowerLogsStep(primes[0], primes[0], n, Log);
      AllPowerLogsStep(n, primes[1..], Log);
    }
  }

  /** n is a positive power of the prime p exactly when p is its least prime factor and dividing p out leaves 1. */
  lemma OnPowersOfPrime(n: nat, p: nat)
    requires IsPrime(p)
    ensures OnPowers(n, p, p) <==> n >= 2 && LeastPrimeFactor(n) == p && StripFactor(n, p) == 1
  {
    if OnPowers(n, p, p) {
      var j: nat :| n == p * Pow(p, j);
      assert n == Pow(p, j + 1);
      LeastFactorOfPrimePower(p, j + 1);
      StripFactorOfPower(p, j + 1);
    }
    if n >= 2 && LeastPrimeFactor(n) == p && StripFactor(n, p) == 1 {
      StripFactorOne(n, p);
      var k :| k >= 1 && n == Pow(p, k);
      assert n == p * Pow(p, k - 1);
    }
  }

  predicate AllPrime(primes: seq<nat>)
  {
    forall i :: 0 <= i < |primes| ==> IsPrime(primes[i])
  }

  /** Over increasing primes, the hits at n are Lambda(n) when n's least prime factor is listed. */
  lemma {:induction false} HitsAreMangoldt(n: nat, primes: seq<nat>, Log: real -> real)
    requires AllPrime(primes) && Increasing(primes)
    requires n >= 2 ==> LeastPrimeFactor(n) in primes
    ensures AllAtLeastTwo(primes) && Hits(n, primes, Log) == Mangoldt(n, Log)
  {
    if |primes| > 0 {
      var p := primes[0];
      OnPowersOfPrime(n, p);
      if n >= 2 && LeastPrimeFactor(n) == p {
        HitsNone(n, primes[1..], Log);
      } else {
        HitsAreMangoldt(n, primes[1..], Log);
      }
    }
  }

  lemma {:induction false} HitsNone(n: nat, primes: seq<nat>, Log: real -> real)
    requires AllPrime(primes) && (n >= 2 ==> LeastPrimeFactor(n) !in primes)
    ensures AllAtLeastTwo(primes) && Hits(n, primes, Log) == 0.0
  {
    if |primes| > 0 {
      OnPowersOfPrime(n, primes[0]);
      HitsNone(n, primes[1..], Log);
    }
  }

  /**
    psi_integer over primes_upto(N) agrees with the sieve tables of the
    explicit-formula scripts: for n <= N it is psi(n).
   */
  lemma {:induction false} PsiIntegerIsPsi(n: nat, bound: nat, primes: seq<nat>, Log: real -> real)
    requires Increasing(primes) && forall q :: q in primes <==> 2 <= q <= bound && IsPrime(q)
    requires n <= bound
    ensures AllAtLeastTwo(primes) && PsiIntegerSum(n, primes, Log) == Psi(n, Log)
  {
    assert AllPrime(primes) by {
      forall i | 0 <= i < |primes| ensures IsPrime(primes[i]) {
        assert primes[i] in primes;
      }
    }
    EarlyStopLosesNothing(n, primes, Log);
    AllPowerLogsIsPsi(n, bound, primes, Log);
  }

  lemma {:induction false} AllPowerLogsIsPsi(n: nat, bound: nat, primes: seq<nat>, Log: real -> real)
    requires AllPrime(primes) && Increasing(primes) && forall q :: q in primes <==> 2 <= q <= bound && IsPrime(q)
    requires n <= bound
    ensures AllAtLeastTwo(primes) && AllPowerLogs(n, primes, Log) == Psi(n, Log)
  {
    if n == 0 {
      AllPowerLogsAbove(0, primes, Log);
    } else {
      AllPowerLogsIsPsi(n - 1, bound, primes, Log);
      AllPowerLogsStep(n, primes, Log);
      if n >= 2 {
        LeastPrimeFactorIsPrime(n);
      }
      HitsAreMangoldt(n, primes, Log);
    }
  }

  /** The Schoenfeld constant of the RH mode, C_RH = 1/(8 pi). */
  const CRh: real := 1.0 / (8.0 * Pi)

  /** The upper end of the small-x check, Xcheck. */
  const XCheck: nat := 1000

  /** sqrt(n) * log(n)^2, the denominator of the small-x ratio. */
  function SmallDenom(n: nat, Log: real -> real, Sqrt: real -> real): real
  {
    Sqrt(n as real) * (Log(n as real) * Log(n as real))
  }

  /** n takes part in the small-x check: log n > 0 and the denominator is not zero. */
  predicate Checked(n: nat, Log: real -> real, Sqrt: real -> real)
  {
    Log(n as real) > 0.0 && SmallDenom(n, Log, Sqrt) != 0.0
  }

  /** |psi_integer(n, P) - n| / denom at a checked n. */
  function SmallRatio(n: nat, primes: seq<nat>, Log: real -> real, Sqrt: real -> real): real
    requires AllAtLeastTwo(primes) && Checked(n, Log, Sqrt)
  {
    Abs(PsiIntegerSum(n, primes, Log) - n as real) / SmallDenom(n, Log, Sqrt)
  }

  /** One round of the C_small loop: None when n is skipped, else the ratio at n. */
  method RatioAt(n: nat, primes: seq<nat>, Log: real -> real, Sqrt: real -> real) returns (r: Option<real>)
    requires AllAtLeastTwo(primes)
    ensures r.Some? <==> Checked(n, Log, Sqrt)
    ensures r.Some? ==> r.value == SmallRatio(n, primes, Log, Sqrt)
  {
    var l := Log(n as real);
    if l <= 0.0 {
      return None;
    }
    var denom := Sqrt(n as real) * (l * l);
    if denom == 0.0 {
      return None;
    }
    var psi := PsiInteger(n, primes, Log);
    r := Some(Abs(psi - n as real) / denom);
  }

  /** The C_small loop: the largest ratio over the checked n in [2, xcheck], or 0. */
  method SmallXCheck(xcheck: nat, primes: seq<nat>, Log: real -> real, Sqrt: real -> real) returns (cSmall: real)
    requires AllAtLeastTwo(primes)
    ensures cSmall >= 0.0
    ensures forall n :: 2 <= n <= xcheck && Checked(n, Log, Sqrt) ==> SmallRatio(n, primes, Log, Sqrt) <= cSmall
    ensures cSmall == 0.0 || exists n :: 2 <= n <= xcheck && Checked(n, Log, Sqrt) && cSmall == SmallRatio(n, primes, Log, Sqrt)
  {
    cSmall := 0.0;
    ghost var at: nat := 0;
    var n := 2;
    while n <= xcheck
      invariant 2 <= n && (n <= xcheck + 1 || n == 2)
      invariant cSmall >= 0.0
      invariant forall k :: 2 <= k < n && Checked(k, Log, Sqrt) ==> SmallRatio(k, primes, Log, Sqrt) <= cSmall
      invariant cSmall == 0.0 || (2 <= at < n && Checked(at, Log, Sqrt) && cSmall == SmallRatio(at, primes, Log, Sqrt))
    {
      var r := RatioAt(n, primes, Log, Sqrt);
      if r.None? {
        n := n + 1;
        continue;
      }
      var ratio := r.value;
      if ratio > cSmall {
        cSmall, at := ratio, n;
      }
      n := n + 1;
    }
    assert cSmall == 0.0 || (2 <= at <= xcheck && Checked(at, Log, Sqrt) && cSmall == SmallRatio(at, primes, Log, Sqrt));
  }

  lemma RatioBound(a: real, d: real, c: real, c': real)
    requires d > 0.0 && a / d <= c <= c'
    ensures a <= c' * d
  {
    assert a == (a / d) * d;
    assert (a / d) * d <= c * d;
    assert c * d <= c' * d;
  }

  /**
    The RH mode's small-x block: P = primes_upto(Xcheck), the C_small loop,
    and C_tot_RH = max(C_RH, C_small), which then bounds |psi(n) - n| by
    C_tot_RH * sqrt(n) * log(n)^2 at every checked n in [2, Xcheck].
   */
  method RhSmallRange(Log: real -> real, Sqrt: real -> real) returns (cSmall: real, cTotRh: real)
    ensures cSmall >= 0.0 && cTotRh >= CRh && cTotRh >= cSmall && (cTotRh == CRh || cTotRh == cSmall)
    ensures forall n :: 2 <= n <= XCheck && Checked(n, Log, Sqrt) && SmallDenom(n, Log, Sqrt) > 0.0 ==>
      Abs(Psi(n, Log) - n as real) <= cTotRh * SmallDenom(n, Log, Sqrt)
  {
    var primes := PrimesUpto(XCheck);
    PrimesAtLeastTwo(primes, XCheck);
    cSmall := SmallXCheck(XCheck, primes, Log, Sqrt);
    cTotRh := Max(CRh, cSmall);
    SmallRangeBound(XCheck, primes, cSmall, cTotRh, Log, Sqrt);
  }

  lemma PrimesAtLeastTwo(primes: seq<nat>, bound: nat)
    requires forall q :: q in primes <==> 2 <= q <= bound && IsPrime(q)
    ensures AllAtLeastTwo(primes)
  {
    forall i | 0 <= i < |primes| ensures primes[i] >= 2 {
      assert primes[i] in primes;
    }
  }

  /** The largest ratio over [2, bound], raised to C_tot_RH, bounds |psi(n) - n| at every checked n there. */
  lemma SmallRangeBound(bound: nat, primes: seq<nat>, cSmall: real, cTotRh: real, Log: real -> real, Sqrt: real -> real)
    requires Increasing(primes) && forall q :: q in primes <==> 2 <= q <= bound && IsPrime(q)
    requires AllAtLeastTwo(primes) && cSmall <= cTotRh
    requires forall n :: 2 <= n <= bound && Checked(n, Log, Sqrt) ==> SmallRatio(n, primes, Log, Sqrt) <= cSmall
    ensures forall n :: 2 <= n <= bound && Checked(n, Log, Sqrt) && SmallDenom(n, Log, Sqrt) > 0.0 ==>
      Abs(Psi(n, Log) - n as real) <= cTotRh * SmallDenom(n, Log, Sqrt)
  {
    forall n | 2 <= n <= bound && Checked(n, Log, Sqrt) && SmallDenom(n, Log, Sqrt) > 0.0
      ensures Abs(Psi(n, Log) - n as real) <= cTotRh * SmallDenom(n, Log, Sqrt)
    {
      PsiIntegerIsPsi(n, bound, primes, Log);
      SmallRangeAt(n, Psi(n, Log), primes, cSmall, cTotRh, Log, Sqrt);
    }
  }

  /** At a checked n where psi = psi_integer(n, P), the ratio bound of the C_small loop bounds |psi - n|. */
  lemma SmallRangeAt(n: nat, psi: real, primes: seq<nat>, cSmall: real, cTotRh: real, Log: real -> real, Sqrt: real -> real)
    requires 2 <= n && Checked(n, Log, Sqrt) && SmallDenom(n, Log, Sqrt) > 0.0
    requires AllAtLeastTwo(primes) && PsiIntegerSum(n, primes, Log) == psi
    requires SmallRatio(n, primes, Log, Sqrt) <= cSmall <= cTotRh
    ensures Abs(psi - n as real) <= cTotRh * SmallDenom(n, Log, Sqrt)
  {
    RatioBound(Abs(psi - n as real), SmallDenom(n, Log, Sqrt), cSmall, cTotRh);
  }
}
