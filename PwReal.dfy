/**
  The real-line Paley-Wiener sandwich (HR-StepA/bs_pw_real.py).

  The base candidate is the convolution chi_[-beta,beta] * K_Delta, read
  from a trapezoidal antiderivative table of K_Delta.  A composite bump
  (two edge kernels plus half a centre kernel, over Delta) is added to and
  subtracted from it, the capped greedy loop repairs what is left, and a
  final constant "DC nudge" closes any remaining negative gap.
 */
module PwReal {
  import opened Numerics
  import opened Enforcement
  import opened Kernels

  /** Loop constants of enforce_majorant / enforce_minorant. */
  const PwTol: real := 0.00000000001
  const PwOvershoot: real := 1.05
  const PwFloor: real := 0.001
  const PwCap: real := 0.2
  const PwItmax: nat := 800
  const PwRule: StepRule := StepRule(PwTol, PwOvershoot, PwFloor, Some(PwCap))

  /** The DC nudge overshoots the larger deficit by 2%. */
  const NudgeFactor: real := 1.02

  /** Half-width of the certified x window beyond the edges, in units of 1/Delta. */
  const WindowPerDelta: real := 24.0
  /** Extra half-width of the kernel table beyond beta, in units of 1/Delta. */
  const TailPerDelta: real := 32.0
  /** Table samples per unit 1/Delta. */
  const SamplesPerDelta: real := 60.0

  lemma PwRuleValid()
    ensures ValidRule(PwRule)
  {
  }

  /** The table step 1/(60 Delta). */
  function PwStep(delta: real): (h: real)
    requires delta > 0.0
    ensures h > 0.0
  {
    ReciprocalPositive(SamplesPerDelta * delta);
    1.0 / (SamplesPerDelta * delta)
  }

  /** U = beta + 32/Delta, the table covers [-U, U]. */
  function PwHalfWidth(beta: real, delta: real): (u: real)
    requires beta >= 0.0 && delta > 0.0
    ensures u > beta
  {
    beta + TailPerDelta / delta
  }

  /** The antiderivative table built by build_initial. */
  function PwTable(beta: real, delta: real, sin: real -> real): Table
    requires beta >= 0.0 && delta > 0.0
  {
    KernelTable(PwHalfWidth(beta, delta), PwStep(delta), delta, RealLineKernelEps, sin)
  }

  /** bump_edge at one sample: K_Delta(x - beta) + K_Delta(x + beta). */
  function EdgeBump(x: real, beta: real, delta: real, sin: real -> real): (r: real)
    requires delta > 0.0
    ensures r >= 0.0
  {
    KDelta(x - beta, delta, RealLineKernelEps, sin) + KDelta(x + beta, delta, RealLineKernelEps, sin)
  }

  /**
    build_initial: the table G is filled by the cumulative trapezoid sum,
    base is conv(xs) read from it and bump_edge the two edge kernels.
   */
  method BuildInitial(beta: real, delta: real, xs: seq<real>, sin: real -> real)
    returns (base: seq<real>, bumpEdge: seq<real>)
    requires beta >= 0.0 && delta > 0.0
    ensures base == PwBase(beta, delta, xs, sin)
    ensures |base| == |bumpEdge| == |xs|
    ensures forall i :: 0 <= i < |xs| ==> base[i] == Conv(PwTable(beta, delta, sin), xs[i], beta) && base[i] >= 0.0
    ensures forall i :: 0 <= i < |xs| ==> bumpEdge[i] == EdgeBump(xs[i], beta, delta, sin) && bumpEdge[i] >= 0.0
  {
    var step := PwStep(delta);
    var u := PwHalfWidth(beta, delta);
    var uu := Arange(-u, u + step, step);
    var ku := KernelSamples(uu, delta, RealLineKernelEps, sin);
    var g := CumulativeTable(ku, step);
    var tab := Table(-u, step, g);
    KernelTableUnfold(u, step, delta, RealLineKernelEps, sin);
    base := seq(|xs|, i requires 0 <= i < |xs| => Conv(tab, xs[i], beta));
    forall i | 0 <= i < |xs| ensures base[i] >= 0.0 {
      ConvNonNegative(tab, xs[i], beta);
    }
    bumpEdge := seq(|xs|, i requires 0 <= i < |xs| => EdgeBump(xs[i], beta, delta, sin));
  }

  /** The base candidate conv(xs): chi_[-beta,beta] * K_Delta read from the table at every sample, never negative. */
  function PwBase(beta: real, delta: real, xs: seq<real>, sin: real -> real): (base: seq<real>)
    requires beta >= 0.0 && delta > 0.0
    ensures |base| == |xs|
    ensures forall i {:trigger base[i]} :: 0 <= i < |xs| ==> base[i] >= 0.0
  {
    var tab := PwTable(beta, delta, sin);
    KernelTableUnfold(PwHalfWidth(beta, delta), PwStep(delta), delta, RealLineKernelEps, sin);
    forall i | 0 <= i < |xs| ensures Conv(tab, xs[i], beta) >= 0.0 {
      ConvNonNegative(tab, xs[i], beta);
    }
    seq(|xs|, i requires 0 <= i < |xs| => Conv(tab, xs[i], beta))
  }

  /** The composite bump B = (bump_edge + 0.5 * bump_center) / Delta; it is non-negative. */
  function CompositeBump(xs: seq<real>, beta: real, delta: real, sin: real -> real): (b: seq<real>)
    requires delta > 0.0
    ensures |b| == |xs|
    ensures forall i {:trigger b[i]} :: 0 <= i < |xs| ==>
      b[i] == (EdgeBump(xs[i], beta, delta, sin) + 0.5 * KDelta(xs[i], delta, RealLineKernelEps, sin)) / delta
    ensures forall i {:trigger b[i]} :: 0 <= i < |xs| ==> b[i] >= 0.0
  {
    seq(|xs|, i requires 0 <= i < |xs| => BumpAt(xs[i], beta, delta, sin))
  }

  function BumpAt(x: real, beta: real, delta: real, sin: real -> real): (r: real)
    requires delta > 0.0
    ensures r == (EdgeBump(x, beta, delta, sin) + 0.5 * KDelta(x, delta, RealLineKernelEps, sin)) / delta
    ensures r >= 0.0
  {
    var num := EdgeBump(x, beta, delta, sin) + 0.5 * KDelta(x, delta, RealLineKernelEps, sin);
    assert num >= 0.0;
    num / delta
  }

  /** lo <= hi at every sample. */
  predicate Ordered(lo: seq<real>, hi: seq<real>)
  {
    |lo| == |hi| && forall i :: 0 <= i < |lo| ==> lo[i] <= hi[i]
  }

  /** The starting pair base + 0.5 B and base - 0.5 B is ordered: S- <= S+ at every sample. */
  lemma StartOrdered(base: seq<real>, b: seq<real>)
    requires |base| == |b|
    requires forall j :: 0 <= j < |b| ==> b[j] >= 0.0
    ensures forall j :: 0 <= j < |base| ==> Move(Below, base, 0.5, b)[j] <= Move(Above, base, 0.5, b)[j]
  {
    var lo, hi := Move(Below, base, 0.5, b), Move(Above, base, 0.5, b);
    forall j | 0 <= j < |base| ensures lo[j] <= hi[j] {
      assert 0.5 * b[j] >= 0.0;
    }
  }

  /** Every round of the capped loop moves by a step in (0, 0.2]. */
  lemma PwStepBounded(dir: Direction, s: seq<real>, chi: seq<real>, b: seq<real>)
    requires |s| == |chi| == |b| > 0
    requires !Passes(dir, PwRule, s, chi)
    ensures 0.0 < Alpha(dir, PwRule, s, chi, b) <= PwCap
  {
    var g := Gaps(dir, s, chi);
    PwRuleValid();
    StepSizePositive(PwRule, MinOf(g), b[ArgMin(g)]);
  }

  /**
    A round whose step is not clipped at 0.2, at a worst point where B is
    at least 1e-3, lifts that gap to -0.05 * mg > 0.
   */
  lemma PwRoundRepairs(dir: Direction, s: seq<real>, chi: seq<real>, b: seq<real>)
    requires |s| == |chi| == |b| > 0
    requires !Passes(dir, PwRule, s, chi)
    requires var g := Gaps(dir, s, chi); var i := ArgMin(g);
      b[i] >= PwFloor && Uncapped(PwRule, g[i], b[i])
    ensures var g := Gaps(dir, s, chi);
      Gaps(dir, Move(dir, s, Alpha(dir, PwRule, s, chi, b), b), chi)[ArgMin(g)] == -0.05 * MinOf(g) > 0.0
  {
    PwRuleValid();
    RoundRepairsWorstPoint(dir, PwRule, s, chi, b);
  }

  /**
    A round whose step is clipped at 0.2 raises the worst gap by exactly
    0.2 * B[i], so each clipped round makes progress of at least 2e-4 there.
   */
  lemma PwRoundCapped(dir: Direction, s: seq<real>, chi: seq<real>, b: seq<real>)
    requires |s| == |chi| == |b| > 0
    requires !Passes(dir, PwRule, s, chi)
    requires var g := Gaps(dir, s, chi); var i := ArgMin(g);
      b[i] >= PwFloor && !Uncapped(PwRule, g[i], b[i])
    ensures var g := Gaps(dir, s, chi); var i := ArgMin(g);
      Gaps(dir, Move(dir, s, Alpha(dir, PwRule, s, chi, b), b), chi)[i] == g[i] + PwCap * b[i] >= g[i] + PwCap * PwFloor
  {
    var g := Gaps(dir, s, chi);
    var i := ArgMin(g);
    assert Alpha(dir, PwRule, s, chi, b) == StepSize(PwRule, g[i], b[i]) == PwCap;
    GapsAfterMove(dir, s, chi, PwCap, b, i);
  }

  /**
    enforce_majorant (dir Above) / enforce_minorant (dir Below): at most 800
    capped rounds on a copy of S; the result is S moved outward by a
    non-negative multiple of B, and it passes unless all 800 rounds ran.
   */
  method EnforcePw(dir: Direction, s: seq<real>, chi: seq<real>, b: seq<real>) returns (s': seq<real>)
    requires |s| == |chi| == |b| > 0
    requires forall j :: 0 <= j < |b| ==> b[j] >= 0.0
    ensures var run := EnforceRun(dir, PwRule, s, chi, b, PwItmax);
      s' == run.values && run.lift >= 0.0 && s' == Move(dir, s, run.lift, b) &&
      (Passes(dir, PwRule, s', chi) || run.rounds == PwItmax)
    ensures forall j :: 0 <= j < |s| ==> if dir == Above then s'[j] >= s[j] else s'[j] <= s[j]
  {
    PwRuleValid();
    s' := Enforce(dir, PwRule, s, chi, b, PwItmax);
    RunIsBumpMultiple(dir, PwRule, s, chi, b, PwItmax);
    RunOutcome(dir, PwRule, s, chi, b, PwItmax);
    RunMovesOutward(dir, PwRule, s, chi, b, PwItmax);
  }

  /** The deficit of one side: max(0, -min gap). */
  function Need(dir: Direction, s: seq<real>, chi: seq<real>): (d: real)
    requires |s| == |chi| > 0
    ensures d >= 0.0 && d >= -MinOf(Gaps(dir, s, chi))
  {
    Max(0.0, -MinOf(Gaps(dir, s, chi)))
  }

  /** A side's ok flag: its minimum gap is at least -1e-12. */
  predicate SideOk(dir: Direction, s: seq<real>, chi: seq<real>)
    requires |s| == |chi| > 0
  {
    MinOf(Gaps(dir, s, chi)) >= -OkTolerance
  }

  /** The constant the nudge shifts by: 0 when both sides are ok, else 1.02 times the larger deficit. */
  function NudgeAmount(splus: seq<real>, sminus: seq<real>, chi: seq<real>): (eps: real)
    requires |splus| == |sminus| == |chi| > 0
    ensures eps >= 0.0
    ensures eps == 0.0 <==> SideOk(Above, splus, chi) && SideOk(Below, sminus, chi)
  {
    if SideOk(Above, splus, chi) && SideOk(Below, sminus, chi) then 0.0
    else NudgeFactor * Max(Need(Above, splus, chi), Need(Below, sminus, chi))
  }

  /** Shifting S by a constant shifts every gap by that constant, in the direction of the side. */
  lemma GapsShift(dir: Direction, s: seq<real>, chi: seq<real>, e: real)
    requires |s| == |chi|
    ensures Gaps(dir, Shift(s, if dir == Above then e else -e), chi) == Shift(Gaps(dir, s, chi), e)
  {
    var l, r := Gaps(dir, Shift(s, if dir == Above then e else -e), chi), Shift(Gaps(dir, s, chi), e);
    forall j | 0 <= j < |s| ensures l[j] == r[j] {
    }
  }

  /** After the nudge by NudgeAmount a side's minimum gap is at least 0. */
  lemma NudgeClosesSide(dir: Direction, s: seq<real>, chi: seq<real>, eps: real)
    requires |s| == |chi| > 0
    requires eps >= NudgeFactor * Need(dir, s, chi)
    ensures MinOf(Gaps(dir, Shift(s, if dir == Above then eps else -eps), chi)) >= 0.0
  {
    var g := Gaps(dir, s, chi);
    GapsShift(dir, s, chi, eps);
    MinOfShift(g, eps);
    var m := MinOf(g);
    if m < 0.0 {
      assert eps >= NudgeFactor * -m;
    }
  }

  /**
    When a flag fails the nudge amount is positive and, in exact
    arithmetic, both shifted sides pass.
   */
  lemma NudgeRestoresFlags(splus: seq<real>, sminus: seq<real>, chi: seq<real>)
    requires |splus| == |sminus| == |chi| > 0
    requires !SideOk(Above, splus, chi) || !SideOk(Below, sminus, chi)
    ensures var eps := NudgeAmount(splus, sminus, chi);
      eps > 0.0 && SideOk(Above, Shift(splus, eps), chi) && SideOk(Below, Shift(sminus, -eps), chi)
  {
    var eps := NudgeAmount(splus, sminus, chi);
    var up, down := Need(Above, splus, chi), Need(Below, sminus, chi);
    assert up > 0.0 || down > 0.0;
    assert eps >= NudgeFactor * up && eps >= NudgeFactor * down;
    NudgeClosesSide(Above, splus, chi, eps);
    NudgeClosesSide(Below, sminus, chi, eps);
  }

  /**
    Lines 98-113: when a flag fails, S+ is raised and S- lowered by
    eps = 1.02 * max(need_up, need_down); both flags hold afterwards.
   */
  method DcNudge(splus: seq<real>, sminus: seq<real>, chi: seq<real>)
    returns (splus': seq<real>, sminus': seq<real>, okp: bool, okm: bool)
    requires |splus| == |sminus| == |chi| > 0
    ensures var eps := NudgeAmount(splus, sminus, chi);
      splus' == Shift(splus, eps) && sminus' == Shift(sminus, -eps)
    ensures okp == SideOk(Above, splus', chi) && okm == SideOk(Below, sminus', chi)
    ensures okp && okm
  {
    okp := SideOk(Above, splus, chi);
    okm := SideOk(Below, sminus, chi);
    splus', sminus' := splus, sminus;
    if !okp || !okm {
      var needUp := Need(Above, splus, chi);
      var needDown := Need(Below, sminus, chi);
      var eps := NudgeFactor * Max(needUp, needDown);
      assert eps == NudgeAmount(splus, sminus, chi);
      NudgeRestoresFlags(splus, sminus, chi);
      if eps > 0.0 {
        splus' := Shift(splus, eps);
        sminus' := Shift(sminus, -eps);
        okp := SideOk(Above, splus', chi);
        okm := SideOk(Below, sminus', chi);
      } else {
        // a failing flag makes eps positive
        assert false;
      }
    } else {
      ShiftZero(splus); ShiftZero(sminus);
    }
  }

  lemma ShiftZero(s: seq<real>)
    ensures Shift(s, 0.0) == s && Shift(s, -0.0) == s
  {
  }

  /** What the main block reports. */
  datatype PwReport = PwReport(
    xs: seq<real>, chi: seq<real>, splus: seq<real>, sminus: seq<real>,
    okPlus: bool, okMinus: bool, minGapPlus: real, minGapMinus: real,
    ePlusGrid: real, eMinusGrid: real, target: real)

  /** The certified grid linspace(-beta - 24/Delta, beta + 24/Delta, gridN). */
  function PwGrid(beta: real, delta: real, gridN: nat): (xs: seq<real>)
    requires beta >= 0.0 && delta > 0.0
    ensures |xs| == gridN && NonDecreasing(xs)
  {
    var w := WindowPerDelta / delta;
    LinspaceNonDecreasing(-beta - w, beta + w, gridN);
    Linspace(-beta - w, beta + w, gridN)
  }

  /**
    One side after build_initial and the repair loop: base + 0.5 B
    enforced from above, or base - 0.5 B from below, with the composite
    bump B.
   */
  function PwEnforced(dir: Direction, beta: real, delta: real, xs: seq<real>, chi: seq<real>, sin: real -> real): seq<real>
    requires beta >= 0.0 && delta > 0.0 && |xs| == |chi| > 0
  {
    var base, b := PwBase(beta, delta, xs, sin), CompositeBump(xs, beta, delta, sin);
    EnforceRun(dir, PwRule, Move(dir, base, 0.5, b), chi, b, PwItmax).values
  }

  /** The pair after the DC nudge: S+ raised and S- lowered by NudgeAmount of the enforced pair. */
  predicate NudgedPair(splus: seq<real>, sminus: seq<real>, up: seq<real>, down: seq<real>, chi: seq<real>)
  {
    |up| == |down| == |chi| > 0 &&
    splus == Shift(up, NudgeAmount(up, down, chi)) && sminus == Shift(down, -NudgeAmount(up, down, chi))
  }

  /**
    The main block (lines 84-117): start from base +- 0.5 B, enforce both
    sides, nudge, and report flags, minimum gaps and grid L1 errors.
    In exact arithmetic both flags hold and S- <= S+ at every sample.
   */
  method PwCertificate(beta: real, delta: real, gridN: nat, sin: real -> real) returns (rep: PwReport)
    requires beta >= 0.0 && delta > 0.0 && gridN >= 1
    ensures rep.xs == PwGrid(beta, delta, gridN) && rep.chi == Indicator(rep.xs, beta)
    ensures |rep.splus| == |rep.sminus| == gridN
    ensures rep.minGapPlus == MinOf(Gaps(Above, rep.splus, rep.chi))
    ensures rep.minGapMinus == MinOf(Gaps(Below, rep.sminus, rep.chi))
    ensures rep.okPlus <==> rep.minGapPlus >= -OkTolerance
    ensures rep.okMinus <==> rep.minGapMinus >= -OkTolerance
    ensures rep.okPlus && rep.okMinus
    ensures Ordered(rep.sminus, rep.splus)
    ensures NudgedPair(rep.splus, rep.sminus, PwEnforced(Above, beta, delta, rep.xs, rep.chi, sin),
                       PwEnforced(Below, beta, delta, rep.xs, rep.chi, sin), rep.chi)
    ensures rep.ePlusGrid == Trapezoid(PositivePart(Gaps(Above, rep.splus, rep.chi)), rep.xs)
    ensures rep.eMinusGrid == Trapezoid(PositivePart(Gaps(Below, rep.sminus, rep.chi)), rep.xs)
    ensures rep.ePlusGrid >= 0.0 && rep.eMinusGrid >= 0.0
    ensures rep.target == 1.0 / delta
  {
    var xs := PwGrid(beta, delta, gridN);
    var chi := Indicator(xs, beta);
    var base, bumpEdge := BuildInitial(beta, delta, xs, sin);
    var b := CompositeBump(xs, beta, delta, sin);

    var up, down := EnforcedPair(base, b, chi);
    assert up == PwEnforced(Above, beta, delta, xs, chi, sin);
    assert down == PwEnforced(Below, beta, delta, xs, chi, sin);
    var splus, sminus, okp, okm := DcNudge(up, down, chi);
    NudgeKeepsOrder(up, down, NudgeAmount(up, down, chi), splus, sminus);

    var gapP := Gaps(Above, splus, chi);
    var gapM := Gaps(Below, sminus, chi);
    var ePlus := GridL1(gapP, xs);
    var eMinus := GridL1(gapM, xs);
    rep := PwReport(xs, chi, splus, sminus, okp, okm, MinOf(gapP), MinOf(gapM), ePlus, eMinus, 1.0 / delta);
  }

  /**
    Lines 93-96: enforce base + 0.5 B from above and base - 0.5 B from
    below; the enforced pair stays ordered, S- <= S+.
   */
  method EnforcedPair(base: seq<real>, b: seq<real>, chi: seq<real>) returns (splus: seq<real>, sminus: seq<real>)
    requires |base| == |b| == |chi| > 0
    requires forall j :: 0 <= j < |b| ==> b[j] >= 0.0
    ensures splus == EnforceRun(Above, PwRule, Move(Above, base, 0.5, b), chi, b, PwItmax).values
    ensures sminus == EnforceRun(Below, PwRule, Move(Below, base, 0.5, b), chi, b, PwItmax).values
    ensures |splus| == |sminus| == |base|
    ensures Ordered(sminus, splus)
  {
    var startPlus := Move(Above, base, 0.5, b);
    var startMinus := Move(Below, base, 0.5, b);
    StartOrdered(base, b);
    splus := EnforcePw(Above, startPlus, chi, b);
    sminus := EnforcePw(Below, startMinus, chi, b);
  }

  /** The nudge keeps the pair ordered. */
  lemma NudgeKeepsOrder(splus: seq<real>, sminus: seq<real>, eps: real, splus': seq<real>, sminus': seq<real>)
    requires |splus| == |sminus| && eps >= 0.0
    requires splus' == Shift(splus, eps) && sminus' == Shift(sminus, -eps)
    requires Ordered(sminus, splus)
    ensures Ordered(sminus', splus')
  {
  }
}
