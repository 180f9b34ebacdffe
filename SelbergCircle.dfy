/**
  The circle version of the Selberg sandwich (bs_selberg_circle.py): the
  Fejer-weighted trigonometric polynomials S+ and S- of degree
  N = floor(Delta) around the indicator of [-beta, beta] on R/Z, their
  evaluation as cosine sums, the edge-centred Fejer bump, the optional
  forcing pass, and the grid certificate.

  sin and cos are parameters; pi is the double constant Pi.
 */
module SelbergCircle {
  import opened Numerics
  import opened Enforcement

  /** The forcing loop of the circle model: tolerance 1e-10, overshoot 1.01, floor 1e-16, no cap. */
  const CircleTol: real := 0.0000000001
  const CircleOvershoot: real := 1.01
  const CircleFloor: real := 0.0000000000000001
  const CircleItmax: nat := 30
  const CircleRule: StepRule := StepRule(CircleTol, CircleOvershoot, CircleFloor, None)

  /** Below this |sin(pi x)| the Fejer kernel takes its value N + 1 at the peak. */
  const FejerCutoff: real := 0.00000000000001

  datatype CircleError = DeltaBelowOne | EmptyGrid

  /** N = int(math.floor(Delta)). */
  function Degree(delta: real): int
  {
    delta.Floor
  }

  /** The Fejer weight 1 - k/(N+1) of frequency k. */
  function FejerWeight(n: nat, k: nat): (w: real)
    requires 1 <= k <= n
    ensures 0.0 < w < 1.0
  {
    assert (k as real) / ((n + 1) as real) < 1.0;
    1.0 - (k as real) / ((n + 1) as real)
  }

  /** The coefficient at frequency +-k (1 <= k <= N), the same in both rows. */
  function CoeffValue(beta: real, n: nat, k: nat, sin: real -> real): real
    requires 1 <= k <= n
  {
    FejerWeight(n, k) * (sin(2.0 * Pi * beta * (k as real)) / (Pi * (k as real)))
  }

  /** The centre coefficients a0+ = 2 beta + 1/(N+1) and a0- = 2 beta - 1/(N+1). */
  function A0(beta: real, n: nat, plus: bool): real
  {
    if plus then 2.0 * beta + 1.0 / ((n + 1) as real) else 2.0 * beta - 1.0 / ((n + 1) as real)
  }

  function Dist(j: nat, n: nat): nat
  {
    if j >= n then j - n else n - j
  }

  /** One row of the coefficient table, indexed by n + N for the frequencies -N..N. */
  function SelbergRow(beta: real, n: nat, plus: bool, sin: real -> real): (row: seq<real>)
    ensures |row| == 2 * n + 1
    ensures row[n] == A0(beta, n, plus)
    ensures forall k {:trigger row[n + k]} :: 1 <= k <= n ==> row[n + k] == row[n - k] == CoeffValue(beta, n, k, sin)
  {
    seq(2 * n + 1, j requires 0 <= j < 2 * n + 1 =>
      if j == n then A0(beta, n, plus) else CoeffValue(beta, n, Dist(j, n), sin))
  }

  /** The two rows differ only at the centre, where a0+ - a0- = 2/(N+1). */
  lemma RowsDifferOnlyAtCentre(beta: real, n: nat, sin: real -> real)
    ensures var p, m := SelbergRow(beta, n, true, sin), SelbergRow(beta, n, false, sin);
      p[n] - m[n] == 2.0 / ((n + 1) as real) &&
      forall j :: 0 <= j < 2 * n + 1 && j != n ==> p[j] == m[j]
  {
    var d := 1.0 / ((n + 1) as real);
    assert d + d == 2.0 / ((n + 1) as real);
  }

  /** The integer frequencies np.arange(-N, N+1). */
  function Freqs(n: nat): (f: seq<int>)
    ensures |f| == 2 * n + 1
    ensures forall j {:trigger f[j]} :: 0 <= j < |f| ==> f[j] == j - n
  {
    seq(2 * n + 1, j requires 0 <= j < 2 * n + 1 => j - n)
  }

  /** What selberg_coeffs returns: the degree, the frequencies and the 2 x (2N+1) table. */
  datatype Coefficients = Coefficients(n: nat, freqs: seq<int>, table: array2<real>)

  /** Row b of a table, as a vector. */
  function Row(table: array2<real>, b: nat): (row: seq<real>)
    requires b < table.Length0
    reads table
    ensures |row| == table.Length1
  {
    seq(table.Length1, j requires 0 <= j < table.Length1 reads table => table[b, j])
  }

  /** The value cell (b, j) holds once frequencies 1..filled have been written. */
  function Cell(beta: real, n: nat, filled: nat, b: nat, j: nat, sin: real -> real): real
    requires filled <= n
  {
    if j == n then A0(beta, n, b == 0)
    else if 1 <= Dist(j, n) <= filled then CoeffValue(beta, n, Dist(j, n), sin)
    else 0.0
  }

  /** Every cell of the 2 x (2N+1) table holds its value once frequencies 1..filled are written. */
  ghost predicate Filled(table: array2<real>, beta: real, n: nat, filled: nat, sin: real -> real)
    requires filled <= n
    reads table
  {
    table.Length0 == 2 && table.Length1 == 2 * n + 1 &&
    forall b, j :: 0 <= b < 2 && 0 <= j < 2 * n + 1 ==> table[b, j] == Cell(beta, n, filled, b, j, sin)
  }

  /** One round of the loop: frequency k written at n - k and n + k in both rows. */
  method FillFrequency(table: array2<real>, beta: real, n: nat, k: nat, sin: real -> real)
    requires 1 <= k <= n && Filled(table, beta, n, k - 1, sin)
    modifies table
    ensures Filled(table, beta, n, k, sin)
  {
    var w := 1.0 - (k as real) / ((n + 1) as real);
    var s := sin(2.0 * Pi * beta * (k as real)) / (Pi * (k as real));
    var c := w * s;
    assert c == CoeffValue(beta, n, k, sin);
    table[0, n + k] := c;
    table[0, n - k] := c;
    table[1, n + k] := c;
    table[1, n - k] := c;
    forall b, j | 0 <= b < 2 && 0 <= j < 2 * n + 1
      ensures table[b, j] == Cell(beta, n, k, b, j, sin)
    {
      if j != n + k && j != n - k {
        assert table[b, j] == old(table[b, j]);
        assert Dist(j, n) != k;
      }
    }
  }

  /** A completely filled table holds the two Selberg rows. */
  lemma FilledRows(table: array2<real>, beta: real, n: nat, sin: real -> real)
    requires Filled(table, beta, n, n, sin)
    ensures Row(table, 0) == SelbergRow(beta, n, true, sin)
    ensures Row(table, 1) == SelbergRow(beta, n, false, sin)
  {
  }

  /**
    selberg_coeffs: fails when floor(Delta) < 1, before any table exists;
    otherwise fills the two rows centre first, then frequency by frequency.
   */
  method SelbergCoeffs(beta: real, delta: real, sin: real -> real) returns (r: Result<Coefficients, CircleError>)
    ensures r.Err? <==> Degree(delta) < 1
    ensures r.Err? ==> r.error == DeltaBelowOne
    ensures r.Ok? ==>
      var c := r.value;
      c.n == Degree(delta) && c.freqs == Freqs(c.n) && fresh(c.table) &&
      c.table.Length0 == 2 && c.table.Length1 == 2 * c.n + 1 &&
      Row(c.table, 0) == SelbergRow(beta, c.n, true, sin) &&
      Row(c.table, 1) == SelbergRow(beta, c.n, false, sin)
  {
    var big := Degree(delta);
    if big < 1 {
      return Err(DeltaBelowOne);
    }
    var n: nat := big;
    var table := new real[2, 2 * n + 1]((b, j) => 0.0);
    table[0, n] := A0(beta, n, true);
    table[1, n] := A0(beta, n, false);
    assert Filled(table, beta, n, 0, sin);
    var k := 1;
    while k <= n
      invariant 1 <= k <= n + 1
      invariant Filled(table, beta, n, k - 1, sin)
    {
      FillFrequency(table, beta, n, k, sin);
      k := k + 1;
    }
    FilledRows(table, beta, n, sin);
    r := Ok(Coefficients(n, Freqs(n), table));
  }

  /** The partial cosine sum a[N] + sum_{j=1..k} 2 a[N+j] cos(2 pi j x). */
  function PartialCosineSum(a: seq<real>, n: nat, k: nat, x: real, cos: real -> real): real
    requires k <= n && 2 * n < |a|
  {
    if k == 0 then a[n]
    else PartialCosineSum(a, n, k - 1, x, cos) + CosineTerm(a[n + k], k, x, cos)
  }

  /** The term 2 a_k cos(2 pi k x) of frequency k. */
  function CosineTerm(ak: real, k: nat, x: real, cos: real -> real): real
  {
    2.0 * ak * cos(2.0 * Pi * (k as real) * x)
  }

  /** The degree eval_trig reads off the frequency vector: (len(n) - 1) // 2. */
  function HalfLength(freqs: seq<int>): (h: nat)
    requires |freqs| >= 1
    ensures 2 * h < |freqs|
  {
    (|freqs| - 1) / 2
  }

  /** S(x) = a[N] + 2 sum_{k=1..N} a[N+k] cos(2 pi k x) with N = (len(n) - 1) // 2. */
  function TrigValue(freqs: seq<int>, a: seq<real>, x: real, cos: real -> real): real
    requires 1 <= |freqs| <= |a|
  {
    PartialCosineSum(a, HalfLength(freqs), HalfLength(freqs), x, cos)
  }

  /** val += 2 a_k cos(2 pi k xs), one vectorised update of eval_trig. */
  function AddCosineTerm(val: seq<real>, ak: real, k: nat, xs: seq<real>, cos: real -> real): (r: seq<real>)
    requires |val| == |xs|
    ensures |r| == |xs|
    ensures forall i {:trigger r[i]} :: 0 <= i < |xs| ==> r[i] == val[i] + CosineTerm(ak, k, xs[i], cos)
  {
    seq(|xs|, i requires 0 <= i < |xs| => val[i] + CosineTerm(ak, k, xs[i], cos))
  }

  /** eval_trig: the value array starts at a[N] and gains one cosine term per frequency. */
  method EvalTrig(freqs: seq<int>, a: seq<real>, xs: seq<real>, cos: real -> real) returns (val: seq<real>)
    requires 1 <= |freqs| <= |a|
    ensures |val| == |xs|
    ensures forall i :: 0 <= i < |xs| ==> val[i] == TrigValue(freqs, a, xs[i], cos)
  {
    var n := (|freqs| - 1) / 2;
    var a0 := a[n];
    val := seq(|xs|, i requires 0 <= i < |xs| => a0);
    var k := 1;
    while k <= n
      invariant 1 <= k <= n + 1
      invariant |val| == |xs|
      invariant forall i :: 0 <= i < |xs| ==> val[i] == PartialCosineSum(a, n, k - 1, xs[i], cos)
    {
      var ak := a[n + k];
      val := AddCosineTerm(val, ak, k, xs, cos);
      k := k + 1;
    }
  }

  /** The cosine sum reads only a[N..2N]: coefficient vectors that agree there give the same S. */
  lemma {:induction false} CosineSumReadsUpperHalf(a: seq<real>, a': seq<real>, n: nat, k: nat, x: real, cos: real -> real)
    requires k <= n && 2 * n < |a| && 2 * n < |a'|
    requires forall j :: n <= j <= 2 * n ==> a[j] == a'[j]
    ensures PartialCosineSum(a, n, k, x, cos) == PartialCosineSum(a', n, k, x, cos)
  {
    if k > 0 {
      CosineSumReadsUpperHalf(a, a', n, k - 1, x, cos);
    }
  }

  /** Two coefficient vectors that differ only at the centre give sums that differ by that much everywhere. */
  lemma {:induction false} CosineSumCentreShift(a: seq<real>, a': seq<real>, n: nat, k: nat, x: real, cos: real -> real)
    requires k <= n && 2 * n < |a| && 2 * n < |a'|
    requires forall j :: n < j <= 2 * n ==> a[j] == a'[j]
    ensures PartialCosineSum(a, n, k, x, cos) - PartialCosineSum(a', n, k, x, cos) == a[n] - a'[n]
  {
    if k > 0 {
      CosineSumCentreShift(a, a', n, k - 1, x, cos);
    }
  }

  /** The unforced polynomials keep the constant vertical distance S+ - S- = 2/(N+1) = 2 E_theory. */
  lemma UnforcedGap(beta: real, n: nat, x: real, sin: real -> real, cos: real -> real)
    ensures var fr := Freqs(n);
      TrigValue(fr, SelbergRow(beta, n, true, sin), x, cos) - TrigValue(fr, SelbergRow(beta, n, false, sin), x, cos)
        == 2.0 / ((n + 1) as real)
  {
    var p, m := SelbergRow(beta, n, true, sin), SelbergRow(beta, n, false, sin);
    RowsDifferOnlyAtCentre(beta, n, sin);
    assert HalfLength(Freqs(n)) == n;
    CosineSumCentreShift(p, m, n, n, x, cos);
  }

  /** Sampled on any grid, the unforced pair keeps the gap 2/(N+1) at every sample. */
  lemma UnforcedSamplesGap(beta: real, n: nat, xs: seq<real>, splus: seq<real>, sminus: seq<real>, sin: real -> real, cos: real -> real)
    requires |splus| == |sminus| == |xs|
    requires forall i :: 0 <= i < |xs| ==> splus[i] == TrigValue(Freqs(n), SelbergRow(beta, n, true, sin), xs[i], cos)
    requires forall i :: 0 <= i < |xs| ==> sminus[i] == TrigValue(Freqs(n), SelbergRow(beta, n, false, sin), xs[i], cos)
    ensures forall i :: 0 <= i < |xs| ==> splus[i] - sminus[i] == 2.0 / ((n + 1) as real)
  {
    forall i | 0 <= i < |xs| ensures splus[i] - sminus[i] == 2.0 / ((n + 1) as real) {
      UnforcedGap(beta, n, xs[i], sin, cos);
    }
  }

  /** _Fejer(N, x): N + 1 at the peak, (1/(N+1)) (sin(pi (N+1) x) / sin(pi x))^2 elsewhere. */
  function Fejer(n: nat, x: real, sin: real -> real): (r: real)
    ensures r >= 0.0
    ensures Abs(sin(Pi * x)) < FejerCutoff ==> r == (n + 1) as real
  {
    var s := sin(Pi * ((n + 1) as real) * x);
    var d := sin(Pi * x);
    if Abs(d) < FejerCutoff then (n + 1) as real
    else
      var q := Sq(s / d);
      assert (1.0 / ((n + 1) as real)) * q >= 0.0;
      (1.0 / ((n + 1) as real)) * q
  }

  /** _bump_fejer: Fejer bumps centred at +beta and -beta, sampled on xs. */
  function BumpFejer(n: nat, beta: real, xs: seq<real>, sin: real -> real): (bump: seq<real>)
    ensures |bump| == |xs|
    ensures forall i {:trigger bump[i]} :: 0 <= i < |xs| ==>
      bump[i] == Fejer(n, xs[i] - beta, sin) + Fejer(n, xs[i] + beta, sin) && bump[i] >= 0.0
  {
    seq(|xs|, i requires 0 <= i < |xs| => Fejer(n, xs[i] - beta, sin) + Fejer(n, xs[i] + beta, sin))
  }

  /** The forcing rule satisfies the loop's standing assumptions. */
  lemma CircleRuleValid()
    ensures ValidRule(CircleRule)
  {
  }

  /**
    _enforce_majorant / _enforce_minorant: on a copy of S, at most 30 rounds,
    and the result is S moved by one non-negative multiple of the bump,
    with every gap at least as large as before; either it passes or all
    30 rounds were used.
   */
  method EnforceCircle(dir: Direction, xs: seq<real>, s: seq<real>, chi: seq<real>, n: nat, beta: real, sin: real -> real)
    returns (s': seq<real>)
    requires |s| == |chi| == |xs| > 0
    ensures var bump := BumpFejer(n, beta, xs, sin);
      var run := EnforceRun(dir, CircleRule, s, chi, bump, CircleItmax);
      s' == run.values && run.lift >= 0.0 && s' == Move(dir, s, run.lift, bump) &&
      (Passes(dir, CircleRule, s', chi) || run.rounds == CircleItmax) &&
      forall j :: 0 <= j < |s| ==> if dir == Above then s'[j] >= s[j] else s'[j] <= s[j]
  {
    var bump := BumpFejer(n, beta, xs, sin);
    CircleRuleValid();
    s' := Enforce(dir, CircleRule, s, chi, bump, CircleItmax);
    RunIsBumpMultiple(dir, CircleRule, s, chi, bump, CircleItmax);
    RunOutcome(dir, CircleRule, s, chi, bump, CircleItmax);
    RunMovesOutward(dir, CircleRule, s, chi, bump, CircleItmax);
  }

  /**
    One circle round at a worst point where the bump is at least 1e-16
    lifts that gap to -0.01 * mg > 0 (the step is never capped here).
   */
  lemma CircleRoundRepairs(dir: Direction, s: seq<real>, chi: seq<real>, bump: seq<real>)
    requires |s| == |chi| == |bump| > 0
    requires !Passes(dir, CircleRule, s, chi)
    requires bump[ArgMin(Gaps(dir, s, chi))] >= CircleFloor
    ensures var g := Gaps(dir, s, chi);
      Gaps(dir, Move(dir, s, Alpha(dir, CircleRule, s, chi, bump), bump), chi)[ArgMin(g)] == -0.01 * MinOf(g) > 0.0
  {
    var g := Gaps(dir, s, chi);
    assert Uncapped(CircleRule, g[ArgMin(g)], bump[ArgMin(g)]);
    RoundRepairsWorstPoint(dir, CircleRule, s, chi, bump);
  }

  /** The samples S(xs[i]) of a coefficient row. */
  function TrigSamples(freqs: seq<int>, a: seq<real>, xs: seq<real>, cos: real -> real): (v: seq<real>)
    requires 1 <= |freqs| <= |a|
    ensures |v| == |xs|
    ensures forall i {:trigger v[i]} :: 0 <= i < |xs| ==> v[i] == TrigValue(freqs, a, xs[i], cos)
  {
    seq(|xs|, i requires 0 <= i < |xs| => TrigValue(freqs, a, xs[i], cos))
  }

  /** The certificate: coefficients, grid, checked samples, flags and L1 errors. */
  datatype CircleReport = CircleReport(
    n: nat, aPlus: seq<real>, aMinus: seq<real>,
    xs: seq<real>, chi: seq<real>, splus: seq<real>, sminus: seq<real>,
    okPlus: bool, okMinus: bool, minGapPlus: real, minGapMinus: real,
    eTheory: real, ePlusGrid: real, eMinusGrid: real)

  /**
    Lines 104-111: sample both polynomials on the grid and, when forcing,
    run the repair loop on each sample vector; unforced samples are the
    polynomial values and keep the gap 2/(N+1).
   */
  method SampleCandidates(beta: real, n: nat, gridN: nat, force: bool, sin: real -> real, cos: real -> real)
    returns (xs: seq<real>, chi: seq<real>, splus: seq<real>, sminus: seq<real>)
    requires gridN >= 1
    ensures xs == Linspace(-0.5, 0.5, gridN) && chi == Indicator(xs, beta)
    ensures |splus| == |sminus| == gridN
    ensures !force ==> splus == TrigSamples(Freqs(n), SelbergRow(beta, n, true, sin), xs, cos)
    ensures !force ==> sminus == TrigSamples(Freqs(n), SelbergRow(beta, n, false, sin), xs, cos)
    ensures !force ==> forall i :: 0 <= i < gridN ==> splus[i] - sminus[i] == 2.0 / ((n + 1) as real)
    ensures force ==> splus == EnforceRun(Above, CircleRule, TrigSamples(Freqs(n), SelbergRow(beta, n, true, sin), xs, cos),
                                          chi, BumpFejer(n, beta, xs, sin), CircleItmax).values
    ensures force ==> sminus == EnforceRun(Below, CircleRule, TrigSamples(Freqs(n), SelbergRow(beta, n, false, sin), xs, cos),
                                           chi, BumpFejer(n, beta, xs, sin), CircleItmax).values
    ensures force ==> forall i :: 0 <= i < gridN ==>
      splus[i] >= TrigValue(Freqs(n), SelbergRow(beta, n, true, sin), xs[i], cos) &&
      sminus[i] <= TrigValue(Freqs(n), SelbergRow(beta, n, false, sin), xs[i], cos)
  {
    var freqs := Freqs(n);
    xs := Linspace(-0.5, 0.5, gridN);
    splus := EvalTrig(freqs, SelbergRow(beta, n, true, sin), xs, cos);
    sminus := EvalTrig(freqs, SelbergRow(beta, n, false, sin), xs, cos);
    assert splus == TrigSamples(freqs, SelbergRow(beta, n, true, sin), xs, cos);
    assert sminus == TrigSamples(freqs, SelbergRow(beta, n, false, sin), xs, cos);
    chi := Indicator(xs, beta);
    if force {
      var unforcedPlus, unforcedMinus := splus, sminus;
      splus := EnforceCircle(Above, xs, splus, chi, n, beta, sin);
      sminus := EnforceCircle(Below, xs, sminus, chi, n, beta, sin);
      forall i | 0 <= i < gridN
        ensures splus[i] >= TrigValue(freqs, SelbergRow(beta, n, true, sin), xs[i], cos)
        ensures sminus[i] <= TrigValue(freqs, SelbergRow(beta, n, false, sin), xs[i], cos)
      {
        assert splus[i] >= unforcedPlus[i] && sminus[i] <= unforcedMinus[i];
      }
    } else {
      UnforcedSamplesGap(beta, n, xs, splus, sminus, sin, cos);
    }
  }

  /**
    The main block: coefficients, samples on linspace(-0.5, 0.5, gridN),
    optional forcing, flags min gap >= -1e-12, E_theory = 1/(N+1) and
    the grid L1 errors of the positive parts of the gaps.
   */
  method CircleCertificate(beta: real, delta: real, gridN: int, force: bool, sin: real -> real, cos: real -> real)
    returns (r: Result<CircleReport, CircleError>)
    ensures r.Err? <==> Degree(delta) < 1 || gridN < 1
    ensures r.Err? ==> r.error == (if Degree(delta) < 1 then DeltaBelowOne else EmptyGrid)
    ensures r.Ok? ==> r.value.n == Degree(delta)
    ensures r.Ok? ==> r.value.aPlus == SelbergRow(beta, r.value.n, true, sin)
    ensures r.Ok? ==> r.value.aMinus == SelbergRow(beta, r.value.n, false, sin)
    ensures r.Ok? ==> r.value.xs == Linspace(-0.5, 0.5, gridN) && r.value.chi == Indicator(r.value.xs, beta)
    ensures r.Ok? ==> |r.value.splus| == |r.value.sminus| == gridN
    ensures r.Ok? && !force ==> forall i :: 0 <= i < gridN ==>
      r.value.splus[i] - r.value.sminus[i] == 2.0 / ((r.value.n + 1) as real)
    ensures r.Ok? && !force ==> r.value.splus == TrigSamples(Freqs(r.value.n), r.value.aPlus, r.value.xs, cos)
    ensures r.Ok? && !force ==> r.value.sminus == TrigSamples(Freqs(r.value.n), r.value.aMinus, r.value.xs, cos)
    ensures r.Ok? && force ==>
      r.value.splus == EnforceRun(Above, CircleRule, TrigSamples(Freqs(r.value.n), r.value.aPlus, r.value.xs, cos),
                                 r.value.chi, BumpFejer(r.value.n, beta, r.value.xs, sin), CircleItmax).values
    ensures r.Ok? && force ==>
      r.value.sminus == EnforceRun(Below, CircleRule, TrigSamples(Freqs(r.value.n), r.value.aMinus, r.value.xs, cos),
                                 r.value.chi, BumpFejer(r.value.n, beta, r.value.xs, sin), CircleItmax).values
    ensures r.Ok? && force ==> forall i :: 0 <= i < gridN ==>
      r.value.splus[i] >= TrigValue(Freqs(r.value.n), r.value.aPlus, r.value.xs[i], cos) &&
      r.value.sminus[i] <= TrigValue(Freqs(r.value.n), r.value.aMinus, r.value.xs[i], cos)
    ensures r.Ok? ==> r.value.minGapPlus == MinOf(Gaps(Above, r.value.splus, r.value.chi))
    ensures r.Ok? ==> r.value.minGapMinus == MinOf(Gaps(Below, r.value.sminus, r.value.chi))
    ensures r.Ok? ==> (r.value.okPlus <==> r.value.minGapPlus >= -OkTolerance)
    ensures r.Ok? ==> (r.value.okMinus <==> r.value.minGapMinus >= -OkTolerance)
    ensures r.Ok? ==> r.value.eTheory == 1.0 / ((r.value.n + 1) as real) && r.value.eTheory > 0.0
    ensures r.Ok? ==> r.value.ePlusGrid == Trapezoid(PositivePart(Gaps(Above, r.value.splus, r.value.chi)), r.value.xs)
    ensures r.Ok? ==> r.value.eMinusGrid == Trapezoid(PositivePart(Gaps(Below, r.value.sminus, r.value.chi)), r.value.xs)
    ensures r.Ok? ==> r.value.ePlusGrid >= 0.0 && r.value.eMinusGrid >= 0.0
  {
    var coeffs := SelbergCoeffs(beta, delta, sin);
    if coeffs.Err? {
      return Err(coeffs.error);
    }
    if gridN < 1 {
      return Err(EmptyGrid);
    }
    var n := coeffs.value.n;
    var aPlus := Row(coeffs.value.table, 0);
    var aMinus := Row(coeffs.value.table, 1);
    var xs, chi, splus, sminus := SampleCandidates(beta, n, gridN, force, sin, cos);

    var gapPlus := Gaps(Above, splus, chi);
    var gapMinus := Gaps(Below, sminus, chi);
    var minPlus := MinOf(gapPlus);
    var minMinus := MinOf(gapMinus);
    var okp := minPlus >= -OkTolerance;
    var okm := minMinus >= -OkTolerance;

    var eTheory := 1.0 / ((n + 1) as real);
    assert eTheory > 0.0 by { ReciprocalPositive((n + 1) as real); }
    LinspaceNonDecreasing(-0.5, 0.5, gridN);
    var ePlus := GridL1(gapPlus, xs);
    var eMinus := GridL1(gapMinus, xs);

    r := Ok(CircleReport(n, aPlus, aMinus, xs, chi, splus, sminus, okp, okm, minPlus, minMinus, eTheory, ePlus, eMinus));
  }
}
