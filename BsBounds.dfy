/**
  The fixed-weight Beurling-Selberg pair (HR-StepA/bs_bounds.py).

  S+- = chi_[-beta,beta] * K_Delta +- (c/Delta) (K_Delta(x - beta) + K_Delta(x + beta)),
  checked on linspace(-beta - 6/Delta, beta + 6/Delta, Nx), with an
  optional loop that raises the bump weight c by 5% until both sides
  pass or c reaches 5, and the closed-form spectra of the pair.
 */
module BsBounds {
  import opened Numerics
  import opened Enforcement
  import opened Kernels

  /** Table resolution: samples per unit 1/Delta, default and with --tight. */
  const DefaultStepFactor: real := 20.0
  const TightStepFactor: real := 40.0
  /** Kernel-table tail beyond 2 beta, in units of 1/Delta, default and with --tight. */
  const DefaultTailFactor: real := 12.0
  const TightTailFactor: real := 20.0
  /** The check window extends 6/Delta beyond each edge. */
  const WindowPerDelta: real := 6.0
  /** The auto-c loop multiplies c by 1.05 and gives up once c >= 5. */
  const GrowthFactor: real := 1.05
  const CLimit: real := 5.0

  function StepFactor(tight: bool): real
  {
    if tight then TightStepFactor else DefaultStepFactor
  }

  function TailFactor(tight: bool): real
  {
    if tight then TightTailFactor else DefaultTailFactor
  }

  /** The table step 1/(factor * Delta). */
  function BoundsStep(delta: real, tight: bool): (h: real)
    requires delta > 0.0
    ensures h > 0.0
    ensures h == 1.0 / (StepFactor(tight) * delta)
  {
    ReciprocalPositive(StepFactor(tight) * delta);
    1.0 / (StepFactor(tight) * delta)
  }

  /** U = 2 beta + tail/Delta. */
  function BoundsHalfWidth(beta: real, delta: real, tight: bool): (u: real)
    requires beta >= 0.0 && delta > 0.0
    ensures u > 2.0 * beta
  {
    2.0 * beta + TailFactor(tight) / delta
  }

  /** The antiderivative table of K_Delta used by conv_chi_K. */
  function BoundsTable(beta: real, delta: real, tight: bool, sin: real -> real): (tab: Table)
    requires beta >= 0.0 && delta > 0.0
    ensures ValidTable(tab) && NonDecreasing(tab.g)
    ensures tab.lo == -BoundsHalfWidth(beta, delta, tight) && tab.step == BoundsStep(delta, tight)
  {
    KernelTable(BoundsHalfWidth(beta, delta, tight), BoundsStep(delta, tight), delta, BoundsKernelEps, sin)
  }

  /** conv_chi_K at one point: antideriv(x + beta) - antideriv(x - beta), never negative. */
  function ConvChiK(x: real, beta: real, delta: real, tight: bool, sin: real -> real): (r: real)
    requires beta >= 0.0 && delta > 0.0
    ensures r >= 0.0
    ensures r == Conv(BoundsTable(beta, delta, tight, sin), x, beta)
  {
    ConvNonNegative(BoundsTable(beta, delta, tight, sin), x, beta);
    Conv(BoundsTable(beta, delta, tight, sin), x, beta)
  }

  /** The edge bump (c/Delta)(K_Delta(x - beta) + K_Delta(x + beta)); non-negative when c is. */
  function SelbergBump(x: real, beta: real, delta: real, c: real, sin: real -> real): (r: real)
    requires delta > 0.0
    ensures c >= 0.0 ==> r >= 0.0
  {
    var k := KDelta(x - beta, delta, BoundsKernelEps, sin) + KDelta(x + beta, delta, BoundsKernelEps, sin);
    var w := c / delta;
    assert c >= 0.0 ==> w >= 0.0;
    NonNegProductIf(w, k);
    w * k
  }

  lemma NonNegProductIf(w: real, k: real)
    requires k >= 0.0
    ensures w >= 0.0 ==> w * k >= 0.0
  {
  }

  /** One sample of S+ (plus) or S- (not plus). */
  function SelbergAt(x: real, beta: real, delta: real, c: real, tight: bool, plus: bool, sin: real -> real): real
    requires beta >= 0.0 && delta > 0.0
  {
    var conv := ConvChiK(x, beta, delta, tight, sin);
    var bump := SelbergBump(x, beta, delta, c, sin);
    if plus then conv + bump else conv - bump
  }

  /** What build_selberg returns. */
  datatype Candidate = Candidate(
    xs: seq<real>, chi: seq<real>, splus: seq<real>, sminus: seq<real>,
    okPlus: bool, okMinus: bool, minGapPlus: real, minGapMinus: real)

  /** The check grid linspace(-beta - 6/Delta, beta + 6/Delta, nx). */
  function BoundsGrid(beta: real, delta: real, nx: nat): (xs: seq<real>)
    requires beta >= 0.0 && delta > 0.0
    ensures |xs| == nx && NonDecreasing(xs)
  {
    var w := WindowPerDelta / delta;
    LinspaceNonDecreasing(-beta - w, beta + w, nx);
    Linspace(-beta - w, beta + w, nx)
  }

  function Samples(xs: seq<real>, beta: real, delta: real, c: real, tight: bool, plus: bool, sin: real -> real): (s: seq<real>)
    requires beta >= 0.0 && delta > 0.0
    ensures |s| == |xs|
    ensures forall i {:trigger s[i]} :: 0 <= i < |xs| ==> s[i] == SelbergAt(xs[i], beta, delta, c, tight, plus, sin)
  {
    seq(|xs|, i requires 0 <= i < |xs| => SelbergAt(xs[i], beta, delta, c, tight, plus, sin))
  }

  /** The flags and minimum gaps of a sampled pair. */
  function MakeCandidate(xs: seq<real>, chi: seq<real>, splus: seq<real>, sminus: seq<real>): (cand: Candidate)
    requires |xs| == |chi| == |splus| == |sminus| > 0
    ensures cand.xs == xs && cand.chi == chi && cand.splus == splus && cand.sminus == sminus
    ensures cand.minGapPlus == MinOf(Gaps(Above, splus, chi)) && cand.minGapMinus == MinOf(Gaps(Below, sminus, chi))
    ensures cand.okPlus <==> cand.minGapPlus >= -OkTolerance
    ensures cand.okMinus <==> cand.minGapMinus >= -OkTolerance
  {
    var gp := MinOf(Gaps(Above, splus, chi));
    var gm := MinOf(Gaps(Below, sminus, chi));
    Candidate(xs, chi, splus, sminus, gp >= -OkTolerance, gm >= -OkTolerance, gp, gm)
  }

  /**
    build_selberg: conv +- bump on the grid, the indicator, and the flags
    min(S+ - chi) >= -1e-12 and min(chi - S-) >= -1e-12.
   */
  function BuildSelberg(beta: real, delta: real, c: real, nx: nat, tight: bool, sin: real -> real): (cand: Candidate)
    requires beta >= 0.0 && delta > 0.0 && nx >= 1
    ensures cand.xs == BoundsGrid(beta, delta, nx) && cand.chi == Indicator(cand.xs, beta)
    ensures cand.splus == Samples(cand.xs, beta, delta, c, tight, true, sin)
    ensures cand.sminus == Samples(cand.xs, beta, delta, c, tight, false, sin)
    ensures cand == MakeCandidate(cand.xs, cand.chi, cand.splus, cand.sminus)
    ensures |cand.xs| == |cand.chi| == |cand.splus| == |cand.sminus| == nx
  {
    var xs := BoundsGrid(beta, delta, nx);
    MakeCandidate(xs, Indicator(xs, beta), Samples(xs, beta, delta, c, tight, true, sin), Samples(xs, beta, delta, c, tight, false, sin))
  }

  /**
    The pair differs by twice the bump and averages to the convolution:
    S+ - S- = 2 (c/Delta)(K(x - beta) + K(x + beta)) and S+ + S- = 2 chi*K.
   */
  lemma SelbergSpread(beta: real, delta: real, c: real, nx: nat, tight: bool, sin: real -> real, i: nat)
    requires beta >= 0.0 && delta > 0.0 && nx >= 1 && i < nx
    ensures var cand := BuildSelberg(beta, delta, c, nx, tight, sin);
      cand.splus[i] - cand.sminus[i] == 2.0 * SelbergBump(cand.xs[i], beta, delta, c, sin) &&
      cand.splus[i] + cand.sminus[i] == 2.0 * ConvChiK(cand.xs[i], beta, delta, tight, sin)
  {
    var cand := BuildSelberg(beta, delta, c, nx, tight, sin);
    assert cand.splus[i] == SelbergAt(cand.xs[i], beta, delta, c, tight, true, sin);
    assert cand.sminus[i] == SelbergAt(cand.xs[i], beta, delta, c, tight, false, sin);
  }

  /** With a non-negative weight the pair is ordered: S- <= S+ at every grid point. */
  lemma SelbergOrdered(beta: real, delta: real, c: real, nx: nat, tight: bool, sin: real -> real)
    requires beta >= 0.0 && delta > 0.0 && nx >= 1 && c >= 0.0
    ensures var cand := BuildSelberg(beta, delta, c, nx, tight, sin);
      forall i :: 0 <= i < nx ==> cand.sminus[i] <= cand.splus[i]
  {
    var cand := BuildSelberg(beta, delta, c, nx, tight, sin);
    forall i | 0 <= i < nx ensures cand.sminus[i] <= cand.splus[i] {
      SelbergSpread(beta, delta, c, nx, tight, sin, i);
    }
  }

  /** The grid L1 errors: trapezoid integrals of the unclipped S+ - chi and chi - S-. */
  function L1Errors(cand: Candidate): (e: (real, real))
    requires |cand.xs| == |cand.chi| == |cand.splus| == |cand.sminus|
  {
    (Trapezoid(Gaps(Above, cand.splus, cand.chi), cand.xs), Trapezoid(Gaps(Below, cand.sminus, cand.chi), cand.xs))
  }

  /** E_plus + E_minus is the integral of S+ - S- over the grid. */
  lemma L1ErrorsSum(cand: Candidate)
    requires |cand.xs| == |cand.chi| == |cand.splus| == |cand.sminus|
    ensures L1Errors(cand).0 + L1Errors(cand).1 == Trapezoid(Sub(cand.splus, cand.sminus), cand.xs)
  {
    var y, z := Gaps(Above, cand.splus, cand.chi), Gaps(Below, cand.sminus, cand.chi);
    TrapezoidAdditive(y, z, cand.xs);
    var sum := seq(|y|, i requires 0 <= i < |y| => y[i] + z[i]);
    assert sum == Sub(cand.splus, cand.sminus);
  }

  /**
    With c >= 0 the two errors of build_selberg's pair add up to the
    integral of 2 * bump >= 0 (each error alone may be negative).
   */
  lemma L1ErrorsSumNonNegative(beta: real, delta: real, c: real, nx: nat, tight: bool, sin: real -> real)
    requires beta >= 0.0 && delta > 0.0 && nx >= 1 && c >= 0.0
    ensures var e := L1Errors(BuildSelberg(beta, delta, c, nx, tight, sin)); e.0 + e.1 >= 0.0
  {
    var cand := BuildSelberg(beta, delta, c, nx, tight, sin);
    L1ErrorsSum(cand);
    SelbergOrdered(beta, delta, c, nx, tight, sin);
    var d := Sub(cand.splus, cand.sminus);
    forall i | 0 <= i < |d| ensures d[i] >= 0.0 {
      assert cand.sminus[i] <= cand.splus[i];
    }
    TrapezoidNonNegative(d, cand.xs);
  }

  /** hat_S at one frequency: the triangle, the indicator's transform, the bump term and both spectra. */
  datatype Spectrum = Spectrum(sPlusHat: real, sMinusHat: real, lam: real, hchi: real, bump: real)

  /** hat_S: Lambda(|xi|/Delta) * (hat chi(xi) +- (2c/Delta) cos(2 pi beta xi)). */
  function HatS(beta: real, delta: real, c: real, xi: real, sin: real -> real, cos: real -> real): (sp: Spectrum)
    requires delta > 0.0
    ensures sp.lam == TriHat(xi, delta) && sp.hchi == HatChi(xi, beta, sin)
    ensures sp.bump == (2.0 * c / delta) * cos(2.0 * Pi * beta * xi)
    ensures c == 0.0 ==> sp.sPlusHat == sp.sMinusHat
    ensures sp.sPlusHat - sp.sMinusHat == 2.0 * sp.lam * sp.bump
    ensures sp.sPlusHat + sp.sMinusHat == 2.0 * sp.lam * sp.hchi
    ensures Abs(xi) >= delta ==> sp.sPlusHat == 0.0 && sp.sMinusHat == 0.0
    ensures xi == 0.0 ==> sp.lam == 1.0 && sp.hchi == 2.0 * beta
  {
    var lam := TriHat(xi, delta);
    var hchi := HatChi(xi, beta, sin);
    var bump := (2.0 * c / delta) * cos(2.0 * Pi * beta * xi);
    SpectraIdentities(lam, hchi, bump);
    Spectrum(lam * (hchi + bump), lam * (hchi - bump), lam, hchi, bump)
  }

  lemma SpectraIdentities(lam: real, h: real, b: real)
    ensures lam * (h + b) - lam * (h - b) == 2.0 * lam * b
    ensures lam * (h + b) + lam * (h - b) == 2.0 * lam * h
    ensures lam == 0.0 ==> lam * (h + b) == 0.0 && lam * (h - b) == 0.0
  {
  }

  /** Errors of the corrected main block. */
  datatype BoundsError = NonPositiveStartWeight

  /** What the main block reports: the final weight, the rounds taken, the candidate and the L1 errors. */
  datatype BoundsReport = BoundsReport(c: real, rounds: nat, cand: Candidate, ePlus: real, eMinus: real)

  predicate BothOk(cand: Candidate)
  {
    cand.okPlus && cand.okMinus
  }

  /**
    One round of the loop as written: the weight is multiplied by 1.05.
    A zero weight is a fixed point.
   */
  function GrowWeight(c: real): (c': real)
    ensures c > 0.0 ==> c' > c
    ensures c == 0.0 ==> c' == 0.0
    ensures c < 0.0 ==> c' < c
  {
    c * GrowthFactor
  }

  /**
    The auto-c loop exactly as written (lines 100-105), run for at most
    fuel rounds; passes(c) says whether the candidate built with weight c
    has both flags.  The result is the weight when the loop stops or the
    fuel runs out.
   */
  function AutoCAsWritten(passes: real -> bool, c: real, fuel: nat): (r: real)
    ensures c > 0.0 ==> r >= c
    ensures c == 0.0 ==> r == 0.0
    ensures c < 0.0 ==> r <= c
    decreases fuel
  {
    if fuel == 0 || passes(c) || c >= CLimit then c
    else AutoCAsWritten(passes, GrowWeight(c), fuel - 1)
  }

  /**
    With c0 = 0 and a failing candidate the loop as written never stops:
    after any number of rounds the weight is still 0, so the candidate is
    the same and the loop condition still holds.
   */
  lemma {:induction false} ZeroStartNeverStops(passes: real -> bool, fuel: nat)
    requires !passes(0.0)
    ensures AutoCAsWritten(passes, 0.0, fuel) == 0.0
    ensures !passes(AutoCAsWritten(passes, 0.0, fuel)) && AutoCAsWritten(passes, 0.0, fuel) < CLimit
    decreases fuel
  {
    if fuel > 0 {
      assert GrowWeight(0.0) == 0.0;
      ZeroStartNeverStops(passes, fuel - 1);
    }
  }

  /**
    With c0 < 0 the weight only falls, so it never reaches 5: when no
    candidate built with a weight at most c0 passes, the loop as written
    never stops either.
   */
  lemma NegativeStartNeverStops(passes: real -> bool, c0: real, fuel: nat)
    requires c0 < 0.0
    requires forall w :: w <= c0 ==> !passes(w)
    ensures var c := AutoCAsWritten(passes, c0, fuel); c <= c0 && !passes(c) && c < CLimit
  {
  }

  /** A smaller weight gives a smaller edge bump, the kernels being non-negative. */
  lemma BumpMonotoneInWeight(x: real, beta: real, delta: real, w: real, c: real, sin: real -> real)
    requires delta > 0.0 && w <= c
    ensures SelbergBump(x, beta, delta, w, sin) <= SelbergBump(x, beta, delta, c, sin)
  {
    var k := KDelta(x - beta, delta, BoundsKernelEps, sin) + KDelta(x + beta, delta, BoundsKernelEps, sin);
    assert k >= 0.0;
    assert w / delta <= c / delta;
    assert (c / delta - w / delta) * k >= 0.0;
  }

  /**
    A negative weight crosses the pair: where the bump is below -1e-12,
    S+ - S- = 2 bump < -2e-12, so one of the two gaps at that point, and
    with it one flag, fails.
   */
  lemma CrossedPairFails(beta: real, delta: real, c: real, nx: nat, tight: bool, sin: real -> real, i: nat)
    requires beta >= 0.0 && delta > 0.0 && nx >= 1 && i < nx
    requires SelbergBump(BoundsGrid(beta, delta, nx)[i], beta, delta, c, sin) < -OkTolerance
    ensures !BothOk(BuildSelberg(beta, delta, c, nx, tight, sin))
  {
    var cand := BuildSelberg(beta, delta, c, nx, tight, sin);
    SelbergSpread(beta, delta, c, nx, tight, sin, i);
    var gp, gm := Gaps(Above, cand.splus, cand.chi), Gaps(Below, cand.sminus, cand.chi);
    assert gp[i] + gm[i] < -2.0 * OkTolerance;
    assert MinOf(gp) <= gp[i] && MinOf(gm) <= gm[i];
  }

  /**
    From a negative c0 whose bump is below -1e-12 at some grid point,
    every weight the loop as written reaches (all at most c0) fails, so
    with NegativeStartNeverStops the loop never ends.
   */
  lemma NegativeStartAlwaysFails(beta: real, delta: real, c0: real, nx: nat, tight: bool, sin: real -> real, i: nat)
    requires beta >= 0.0 && delta > 0.0 && nx >= 1 && i < nx && c0 < 0.0
    requires SelbergBump(BoundsGrid(beta, delta, nx)[i], beta, delta, c0, sin) < -OkTolerance
    ensures forall w :: w <= c0 ==> !BothOk(BuildSelberg(beta, delta, w, nx, tight, sin))
  {
    forall w | w <= c0 ensures !BothOk(BuildSelberg(beta, delta, w, nx, tight, sin)) {
      BumpMonotoneInWeight(BoundsGrid(beta, delta, nx)[i], beta, delta, w, c0, sin);
      CrossedPairFails(beta, delta, w, nx, tight, sin, i);
    }
  }

  /**
    Both minimum gaps are non-decreasing in the weight: S+ - chi = conv -
    chi + bump and chi - S- = chi - conv + bump, and the bump grows with c.
   */
  lemma GapsGrowWithWeight(beta: real, delta: real, w: real, c: real, nx: nat, tight: bool, sin: real -> real)
    requires beta >= 0.0 && delta > 0.0 && nx >= 1 && w <= c
    ensures BuildSelberg(beta, delta, w, nx, tight, sin).minGapPlus <= BuildSelberg(beta, delta, c, nx, tight, sin).minGapPlus
    ensures BuildSelberg(beta, delta, w, nx, tight, sin).minGapMinus <= BuildSelberg(beta, delta, c, nx, tight, sin).minGapMinus
  {
    var lo, hi := BuildSelberg(beta, delta, w, nx, tight, sin), BuildSelberg(beta, delta, c, nx, tight, sin);
    var lp, hp := Gaps(Above, lo.splus, lo.chi), Gaps(Above, hi.splus, hi.chi);
    var lm, hm := Gaps(Below, lo.sminus, lo.chi), Gaps(Below, hi.sminus, hi.chi);
    forall j | 0 <= j < nx ensures hp[j] >= lp[j] && hm[j] >= lm[j] {
      BumpMonotoneInWeight(lo.xs[j], beta, delta, w, c, sin);
      assert lo.splus[j] == SelbergAt(lo.xs[j], beta, delta, w, tight, true, sin);
      assert hi.splus[j] == SelbergAt(lo.xs[j], beta, delta, c, tight, true, sin);
      assert lo.sminus[j] == SelbergAt(lo.xs[j], beta, delta, w, tight, false, sin);
      assert hi.sminus[j] == SelbergAt(lo.xs[j], beta, delta, c, tight, false, sin);
    }
    MinOfMonotone(lp, hp);
    MinOfMonotone(lm, hm);
  }

  /** A failing weight makes every smaller weight fail too. */
  lemma FailingWeightFailsBelow(beta: real, delta: real, c0: real, nx: nat, tight: bool, sin: real -> real)
    requires beta >= 0.0 && delta > 0.0 && nx >= 1
    requires !BothOk(BuildSelberg(beta, delta, c0, nx, tight, sin))
    ensures forall w :: w <= c0 ==> !BothOk(BuildSelberg(beta, delta, w, nx, tight, sin))
  {
    forall w | w <= c0 ensures !BothOk(BuildSelberg(beta, delta, w, nx, tight, sin)) {
      GapsGrowWithWeight(beta, delta, w, c0, nx, tight, sin);
    }
  }

  /**
    Every start that BoundsCertificate refuses (--auto-c, c0 <= 0 and a
    failing candidate) is one on which the loop as written never stops:
    after any number of rounds the weight is at most c0, its candidate
    still fails and the weight is still below 5.
   */
  lemma RefusedStartLoopsForever(beta: real, delta: real, c0: real, nx: nat, tight: bool, sin: real -> real, fuel: nat)
    requires beta >= 0.0 && delta > 0.0 && nx >= 1 && c0 <= 0.0
    requires !BothOk(BuildSelberg(beta, delta, c0, nx, tight, sin))
    ensures var c := AutoCAsWritten(w => BothOk(BuildSelberg(beta, delta, w, nx, tight, sin)), c0, fuel);
      c <= c0 && !BothOk(BuildSelberg(beta, delta, c, nx, tight, sin)) && c < CLimit
  {
    var passes := w => BothOk(BuildSelberg(beta, delta, w, nx, tight, sin));
    if c0 == 0.0 {
      ZeroStartNeverStops(passes, fuel);
    } else {
      FailingWeightFailsBelow(beta, delta, c0, nx, tight, sin);
      NegativeStartNeverStops(passes, c0, fuel);
    }
  }

  /** The weight after k rounds of growth: c0 * 1.05^k. */
  function Grown(c0: real, k: nat): real
  {
    if k == 0 then c0 else Grown(c0, k - 1) * GrowthFactor
  }

  /** A bound on the rounds of the corrected loop, from c0 * (1 + 0.05 k) <= c < 5. */
  function RoundBound(c0: real): nat
    requires c0 > 0.0
  {
    if c0 >= CLimit then 0 else ((CLimit - c0) / (0.05 * c0)).Floor + 1
  }

  /**
    The auto-c loop, corrected: it is entered only with c0 > 0 or a
    passing candidate, so it stops, with c = c0 * 1.05^k, after fewer than
    (5 - c0) / (0.05 c0) + 1 rounds, when both flags hold or c >= 5.
   */
  method AutoC(build: real -> Candidate, c0: real) returns (c: real, k: nat, cand: Candidate)
    requires c0 > 0.0 || BothOk(build(c0))
    ensures cand == build(c) && c == Grown(c0, k)
    ensures BothOk(cand) || c >= CLimit
    ensures c >= c0 && (k == 0 ==> c == c0) && (k > 0 ==> c < CLimit * GrowthFactor)
  {
    c, k := c0, 0;
    cand := build(c);
    var bound := if c0 > 0.0 then RoundBound(c0) else 0;
    while (!cand.okPlus || !cand.okMinus) && c < CLimit
      invariant cand == build(c) && c == Grown(c0, k)
      invariant c0 > 0.0 || BothOk(cand)
      invariant c >= c0 && (k == 0 ==> c == c0) && (k > 0 ==> c < CLimit * GrowthFactor)
      invariant c0 > 0.0 ==> c >= c0 + 0.05 * c0 * (k as real) && k <= bound
      decreases bound - k
    {
      RoundsBounded(c0, c, k);
      c := c * GrowthFactor;
      cand := build(c);
      k := k + 1;
    }
  }

  /**
    The main block with the corrected loop: with --auto-c, a start weight
    c0 <= 0 whose candidate fails is refused instead of looping forever.
   */
  method BoundsCertificate(beta: real, delta: real, c0: real, nx: nat, autoC: bool, tight: bool, sin: real -> real)
    returns (r: Result<BoundsReport, BoundsError>)
    requires beta >= 0.0 && delta > 0.0 && nx >= 1
    ensures r.Err? <==> autoC && c0 <= 0.0 && !BothOk(BuildSelberg(beta, delta, c0, nx, tight, sin))
    ensures r.Ok? ==> r.value.cand == BuildSelberg(beta, delta, r.value.c, nx, tight, sin)
    ensures r.Ok? ==> r.value.c == Grown(c0, r.value.rounds)
    ensures r.Ok? ==> (r.value.ePlus, r.value.eMinus) == L1Errors(r.value.cand)
    ensures r.Ok? && !autoC ==> r.value.rounds == 0
    ensures r.Ok? && autoC ==> BothOk(r.value.cand) || r.value.c >= CLimit
    ensures r.Ok? && r.value.rounds > 0 ==> r.value.c < CLimit * GrowthFactor
  {
    var build := (w: real) => BuildSelberg(beta, delta, w, nx, tight, sin);
    var c, k, cand := c0, 0, build(c0);
    if autoC {
      if c0 <= 0.0 && !BothOk(cand) {
        return Err(NonPositiveStartWeight);
      }
      c, k, cand := AutoC(build, c0);
      assert cand == BuildSelberg(beta, delta, c, nx, tight, sin);
    }
    var e := L1Errors(cand);
    r := Ok(BoundsReport(c, k, cand, e.0, e.1));
  }

  /** While c < 5 the round count is below the bound, and one more round keeps the linear lower bound. */
  lemma RoundsBounded(c0: real, c: real, k: nat)
    requires c0 > 0.0 && c >= c0 + 0.05 * c0 * (k as real) && c < CLimit
    ensures k < RoundBound(c0)
    ensures c * GrowthFactor >= c0 + 0.05 * c0 * ((k + 1) as real)
  {
    var q := (CLimit - c0) / (0.05 * c0);
    assert 0.05 * c0 * (k as real) < CLimit - c0;
    assert (k as real) < q by {
      ReciprocalPositive(0.05 * c0);
      DivStrict(0.05 * c0 * (k as real), CLimit - c0, 0.05 * c0);
      assert 0.05 * c0 * (k as real) / (0.05 * c0) == k as real;
    }
    assert c * GrowthFactor == c + 0.05 * c;
    assert 0.05 * c >= 0.05 * c0;
  }

  lemma DivStrict(a: real, b: real, d: real)
    requires a < b && d > 0.0
    ensures a / d < b / d
  {
  }
}
