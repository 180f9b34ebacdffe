/**
  The greedy worst-point enforcement loop shared by the circle model
  (_enforce_majorant / _enforce_minorant) and the real-line model
  (enforce_majorant / enforce_minorant).

  One round: compute the gap vector (S - chi above, chi - S below); stop if
  its minimum mg is at least -tol; otherwise take the first index i of the
  minimum, the step alpha = -overshoot * mg / max(B[i], floor), optionally
  clipped into [0, cap], and move S by alpha * B in the enforcing
  direction.  The two source variants differ only in the constants.
 */
module Enforcement {
  import opened Numerics

  /** Above: majorant (gap = S - chi, S is raised); Below: minorant (gap = chi - S, S is lowered). */
  datatype Direction = Above | Below

  /** The constants of one variant of the loop; cap None means alpha is not clipped. */
  datatype StepRule = StepRule(tol: real, overshoot: real, floor: real, cap: Option<real>)

  predicate ValidRule(rule: StepRule)
  {
    rule.tol >= 0.0 && rule.overshoot > 1.0 && rule.floor > 0.0 &&
    (rule.cap.Some? ==> rule.cap.value > 0.0)
  }

  /** The signed sandwich gap at every grid point. */
  function Gaps(dir: Direction, s: seq<real>, chi: seq<real>): (g: seq<real>)
    requires |s| == |chi|
    ensures |g| == |s|
    ensures forall j {:trigger g[j]} :: 0 <= j < |s| ==> g[j] == (if dir == Above then s[j] - chi[j] else chi[j] - s[j])
  {
    if dir == Above then Sub(s, chi) else Sub(chi, s)
  }

  /** S + alpha*B (Above) or S - alpha*B (Below). */
  function Move(dir: Direction, s: seq<real>, alpha: real, b: seq<real>): (r: seq<real>)
    requires |s| == |b|
    ensures |r| == |s|
    ensures forall j {:trigger r[j]} :: 0 <= j < |s| ==> r[j] == (if dir == Above then s[j] + alpha * b[j] else s[j] - alpha * b[j])
  {
    seq(|s|, j requires 0 <= j < |s| => if dir == Above then s[j] + alpha * b[j] else s[j] - alpha * b[j])
  }

  /** The step of one round, from the minimum gap mg and the bump value bi at the worst point. */
  function StepSize(rule: StepRule, mg: real, bi: real): real
    requires rule.floor > 0.0
  {
    var alpha := -rule.overshoot * mg / Max(bi, rule.floor);
    match rule.cap
    case None => alpha
    case Some(c) => Min(Max(alpha, 0.0), c)
  }

  /** The cap, if any, does not cut the full step -overshoot * mg / bi. */
  predicate Uncapped(rule: StepRule, mg: real, bi: real)
    requires bi > 0.0
  {
    rule.cap.Some? ==> -rule.overshoot * mg / bi <= rule.cap.value
  }

  /** What a run of the loop produces: the final samples, the total multiple of B added, and the rounds taken. */
  datatype Run = Run(values: seq<real>, lift: real, rounds: nat)

  /** The stopping test of the loop: the minimum gap is at least -tol. */
  predicate Passes(dir: Direction, rule: StepRule, s: seq<real>, chi: seq<real>)
    requires |s| == |chi| > 0
  {
    MinOf(Gaps(dir, s, chi)) >= -rule.tol
  }

  /** The step taken by one round on candidate s. */
  function Alpha(dir: Direction, rule: StepRule, s: seq<real>, chi: seq<real>, b: seq<real>): real
    requires |s| == |chi| == |b| > 0
    requires rule.floor > 0.0
  {
    var gap := Gaps(dir, s, chi);
    StepSize(rule, MinOf(gap), b[ArgMin(gap)])
  }

  /** The loop of at most fuel rounds, as a function of its inputs. */
  function EnforceRun(dir: Direction, rule: StepRule, s: seq<real>, chi: seq<real>, b: seq<real>, fuel: nat): (r: Run)
    requires |s| == |chi| == |b| > 0
    requires rule.floor > 0.0
    ensures |r.values| == |s| && r.rounds <= fuel
    decreases fuel
  {
    if fuel == 0 || Passes(dir, rule, s, chi) then Run(s, 0.0, 0)
    else
      var alpha := Alpha(dir, rule, s, chi, b);
      var rest := EnforceRun(dir, rule, Move(dir, s, alpha, b), chi, b, fuel - 1);
      Run(rest.values, alpha + rest.lift, rest.rounds + 1)
  }

  /** The loop itself: S is copied, then updated in place round by round. */
  method Enforce(dir: Direction, rule: StepRule, s0: seq<real>, chi: seq<real>, b: seq<real>, itmax: nat)
    returns (s: seq<real>)
    requires |s0| == |chi| == |b| > 0
    requires rule.floor > 0.0
    ensures s == EnforceRun(dir, rule, s0, chi, b, itmax).values
  {
    s := s0;
    var fuel := itmax;
    ghost var target := EnforceRun(dir, rule, s0, chi, b, itmax).values;
    while fuel > 0
      invariant |s| == |s0|
      invariant target == EnforceRun(dir, rule, s, chi, b, fuel).values
    {
      var next, left, done := EnforceRound(dir, rule, s, chi, b, fuel, target);
      if done {
        return;
      }
      s, fuel := next, left;
    }
    RunOutOfFuel(dir, rule, s, chi, b);
  }

  lemma RunOutOfFuel(dir: Direction, rule: StepRule, s: seq<real>, chi: seq<real>, b: seq<real>)
    requires |s| == |chi| == |b| > 0 && rule.floor > 0.0
    ensures EnforceRun(dir, rule, s, chi, b, 0).values == s
  {
  }

  /**
    One round of the loop: stop on a passing candidate, otherwise move by the
    round's step; either way the run from the new state ends where the run
    from the old one does.
   */
  method EnforceRound(dir: Direction, rule: StepRule, s: seq<real>, chi: seq<real>, b: seq<real>, fuel: nat, ghost target: seq<real>)
    returns (s': seq<real>, left: nat, done: bool)
    requires |s| == |chi| == |b| > 0 && rule.floor > 0.0 && fuel > 0
    requires target == EnforceRun(dir, rule, s, chi, b, fuel).values
    ensures |s'| == |s| && left < fuel
    ensures done ==> target == s
    ensures !done ==> target == EnforceRun(dir, rule, s', chi, b, left).values
  {
    left := fuel - 1;
    if Passes(dir, rule, s, chi) {
      return s, left, true;
    }
    var alpha := Alpha(dir, rule, s, chi, b);
    s' := Move(dir, s, alpha, b);
    done := false;
  }

  /** Every round's step is strictly positive, and never above the cap when there is one. */
  lemma StepSizePositive(rule: StepRule, mg: real, bi: real)
    requires ValidRule(rule) && mg < -rule.tol
    ensures StepSize(rule, mg, bi) > 0.0
    ensures rule.cap.Some? ==> StepSize(rule, mg, bi) <= rule.cap.value
  {
    var den := Max(bi, rule.floor);
    assert -rule.overshoot * mg > 0.0;
  }

  /** Moving by alpha changes each gap by exactly alpha * B, in both directions. */
  lemma GapsAfterMove(dir: Direction, s: seq<real>, chi: seq<real>, alpha: real, b: seq<real>, j: int)
    requires |s| == |chi| == |b| && 0 <= j < |s|
    ensures Gaps(dir, Move(dir, s, alpha, b), chi)[j] == Gaps(dir, s, chi)[j] + alpha * b[j]
  {
  }

  /** Two moves along B compose into one move by the sum of the steps. */
  lemma MoveTwice(dir: Direction, s: seq<real>, a1: real, a2: real, b: seq<real>)
    requires |s| == |b|
    ensures Move(dir, Move(dir, s, a1, b), a2, b) == Move(dir, s, a1 + a2, b)
  {
    var m1, m2, m := Move(dir, Move(dir, s, a1, b), a2, b), Move(dir, s, a1, b), Move(dir, s, a1 + a2, b);
    forall j | 0 <= j < |s| ensures m1[j] == m[j] {
      assert (a1 + a2) * b[j] == a1 * b[j] + a2 * b[j];
    }
  }

  /** A move by zero changes nothing. */
  lemma MoveZero(dir: Direction, s: seq<real>, b: seq<real>)
    requires |s| == |b|
    ensures Move(dir, s, 0.0, b) == s
  {
    var m := Move(dir, s, 0.0, b);
    forall j | 0 <= j < |s| ensures m[j] == s[j] {
      assert 0.0 * b[j] == 0.0;
    }
  }

  /**
    A point is repaired by a step computed from its own gap: when the bump
    there is at least the floor and the step is not capped below the full
    lift, the gap at that point becomes -(overshoot - 1) times what it was,
    which is positive.
   */
  lemma StepRepairsPoint(dir: Direction, rule: StepRule, s: seq<real>, chi: seq<real>, b: seq<real>, i: nat)
    requires |s| == |chi| == |b| && i < |s| && ValidRule(rule)
    requires Gaps(dir, s, chi)[i] < -rule.tol && b[i] >= rule.floor
    requires Uncapped(rule, Gaps(dir, s, chi)[i], b[i])
    ensures var mg := Gaps(dir, s, chi)[i];
      Gaps(dir, Move(dir, s, StepSize(rule, mg, b[i]), b), chi)[i] == -(rule.overshoot - 1.0) * mg > 0.0
  {
    var mg := Gaps(dir, s, chi)[i];
    RepairArithmetic(rule, mg, b[i]);
    GapsAfterMove(dir, s, chi, StepSize(rule, mg, b[i]), b, i);
  }

  /** In particular one round repairs the worst point, under the same conditions there. */
  lemma RoundRepairsWorstPoint(dir: Direction, rule: StepRule, s: seq<real>, chi: seq<real>, b: seq<real>)
    requires |s| == |chi| == |b| > 0 && ValidRule(rule)
    requires !Passes(dir, rule, s, chi)
    requires var i := ArgMin(Gaps(dir, s, chi));
      b[i] >= rule.floor && Uncapped(rule, Gaps(dir, s, chi)[i], b[i])
    ensures var g := Gaps(dir, s, chi);
      Gaps(dir, Move(dir, s, Alpha(dir, rule, s, chi, b), b), chi)[ArgMin(g)] == -(rule.overshoot - 1.0) * MinOf(g) > 0.0
  {
    var g := Gaps(dir, s, chi);
    var i := ArgMin(g);
    assert g[i] == MinOf(g) < -rule.tol;
    assert Alpha(dir, rule, s, chi, b) == StepSize(rule, g[i], b[i]);
    StepRepairsPoint(dir, rule, s, chi, b, i);
  }

  /** The arithmetic of one uncapped repair: alpha * B[i] == -overshoot * mg. */
  lemma RepairArithmetic(rule: StepRule, mg: real, bi: real)
    requires ValidRule(rule) && mg < -rule.tol && bi >= rule.floor
    requires Uncapped(rule, mg, bi)
    ensures StepSize(rule, mg, bi) * bi == -rule.overshoot * mg
    ensures mg + StepSize(rule, mg, bi) * bi == -(rule.overshoot - 1.0) * mg > 0.0
  {
    var raw := -rule.overshoot * mg / bi;
    assert Max(bi, rule.floor) == bi;
    assert -rule.overshoot * mg > 0.0;
    assert raw > 0.0;
    assert StepSize(rule, mg, bi) == raw;
    assert raw * bi == -rule.overshoot * mg;
  }

  /** Every round moves by a positive step, so the total step of the run is never negative. */
  lemma {:induction false} RunLiftNonNegative(dir: Direction, rule: StepRule, s: seq<real>, chi: seq<real>, b: seq<real>, fuel: nat)
    requires |s| == |chi| == |b| > 0 && ValidRule(rule)
    ensures EnforceRun(dir, rule, s, chi, b, fuel).lift >= 0.0
    decreases fuel
  {
    if fuel != 0 && !Passes(dir, rule, s, chi) {
      var gap := Gaps(dir, s, chi);
      var alpha := Alpha(dir, rule, s, chi, b);
      StepSizePositive(rule, MinOf(gap), b[ArgMin(gap)]);
      RunLiftNonNegative(dir, rule, Move(dir, s, alpha, b), chi, b, fuel - 1);
    }
  }

  /** The rounds' moves add up: the result is the input moved along B by the run's total step. */
  lemma {:induction false} RunValuesAreMove(dir: Direction, rule: StepRule, s: seq<real>, chi: seq<real>, b: seq<real>, fuel: nat)
    requires |s| == |chi| == |b| > 0 && rule.floor > 0.0
    ensures var r := EnforceRun(dir, rule, s, chi, b, fuel);
      r.values == Move(dir, s, r.lift, b)
    decreases fuel
  {
    if fuel == 0 || Passes(dir, rule, s, chi) {
      MoveZero(dir, s, b);
    } else {
      var s' := Move(dir, s, Alpha(dir, rule, s, chi, b), b);
      RunValuesAreMove(dir, rule, s', chi, b, fuel - 1);
      RoundAddsStep(dir, rule, s, chi, b, fuel);
    }
  }

  /** One round followed by the rest of the run moves by the round's step plus the rest's total step. */
  lemma RoundAddsStep(dir: Direction, rule: StepRule, s: seq<real>, chi: seq<real>, b: seq<real>, fuel: nat)
    requires |s| == |chi| == |b| > 0 && rule.floor > 0.0
    requires fuel > 0 && !Passes(dir, rule, s, chi)
    requires var s' := Move(dir, s, Alpha(dir, rule, s, chi, b), b);
      var rest := EnforceRun(dir, rule, s', chi, b, fuel - 1);
      rest.values == Move(dir, s', rest.lift, b)
    ensures var r := EnforceRun(dir, rule, s, chi, b, fuel);
      r.values == Move(dir, s, r.lift, b)
  {
    var alpha := Alpha(dir, rule, s, chi, b);
    var rest := EnforceRun(dir, rule, Move(dir, s, alpha, b), chi, b, fuel - 1);
    assert EnforceRun(dir, rule, s, chi, b, fuel) == Run(rest.values, alpha + rest.lift, rest.rounds + 1);
    MoveTwice(dir, s, alpha, rest.lift, b);
  }

  /**
    Frequency-support invariant: whatever the loop does, its result is the
    input moved along B by one non-negative total step.
   */
  lemma RunIsBumpMultiple(dir: Direction, rule: StepRule, s: seq<real>, chi: seq<real>, b: seq<real>, fuel: nat)
    requires |s| == |chi| == |b| > 0 && ValidRule(rule)
    ensures var r := EnforceRun(dir, rule, s, chi, b, fuel);
      r.lift >= 0.0 && r.values == Move(dir, s, r.lift, b)
  {
    RunLiftNonNegative(dir, rule, s, chi, b, fuel);
    RunValuesAreMove(dir, rule, s, chi, b, fuel);
  }

  /** A pointwise larger vector has a minimum at least as large. */
  lemma MinOfMonotone(g: seq<real>, h: seq<real>)
    requires |g| == |h| > 0
    requires forall j :: 0 <= j < |g| ==> h[j] >= g[j]
    ensures MinOf(h) >= MinOf(g)
  {
    var k := ArgMin(h);
    assert g[k] >= MinOf(g);
  }

  /** With a non-negative bump, a non-negative step never shrinks a gap. */
  lemma MoveNeverShrinksGaps(dir: Direction, s: seq<real>, chi: seq<real>, alpha: real, b: seq<real>)
    requires |s| == |chi| == |b| && alpha >= 0.0
    requires forall j :: 0 <= j < |b| ==> b[j] >= 0.0
    ensures forall j :: 0 <= j < |s| ==> Gaps(dir, Move(dir, s, alpha, b), chi)[j] >= Gaps(dir, s, chi)[j]
  {
    forall j | 0 <= j < |s| ensures Gaps(dir, Move(dir, s, alpha, b), chi)[j] >= Gaps(dir, s, chi)[j] {
      GapsAfterMove(dir, s, chi, alpha, b, j);
      assert alpha * b[j] >= 0.0;
    }
  }

  /** With a non-negative bump no gap ever shrinks, so the worst gap never gets worse. */
  lemma RunNeverShrinksGaps(dir: Direction, rule: StepRule, s: seq<real>, chi: seq<real>, b: seq<real>, fuel: nat)
    requires |s| == |chi| == |b| > 0 && ValidRule(rule)
    requires forall j :: 0 <= j < |b| ==> b[j] >= 0.0
    ensures var g, g' := Gaps(dir, s, chi), Gaps(dir, EnforceRun(dir, rule, s, chi, b, fuel).values, chi);
      (forall j :: 0 <= j < |s| ==> g'[j] >= g[j]) && MinOf(g') >= MinOf(g)
  {
    var r := EnforceRun(dir, rule, s, chi, b, fuel);
    RunIsBumpMultiple(dir, rule, s, chi, b, fuel);
    MoveNeverShrinksGaps(dir, s, chi, r.lift, b);
    MinOfMonotone(Gaps(dir, s, chi), Gaps(dir, r.values, chi));
  }

  /** With a non-negative bump the majorant is only ever raised and the minorant only ever lowered. */
  lemma RunMovesOutward(dir: Direction, rule: StepRule, s: seq<real>, chi: seq<real>, b: seq<real>, fuel: nat)
    requires |s| == |chi| == |b| > 0 && ValidRule(rule)
    requires forall j :: 0 <= j < |b| ==> b[j] >= 0.0
    ensures var v := EnforceRun(dir, rule, s, chi, b, fuel).values;
      forall j :: 0 <= j < |s| ==> if dir == Above then v[j] >= s[j] else v[j] <= s[j]
  {
    var r := EnforceRun(dir, rule, s, chi, b, fuel);
    RunIsBumpMultiple(dir, rule, s, chi, b, fuel);
    MoveOutward(dir, s, r.lift, b);
  }

  lemma MoveOutward(dir: Direction, s: seq<real>, alpha: real, b: seq<real>)
    requires |s| == |b| && alpha >= 0.0
    requires forall j :: 0 <= j < |b| ==> b[j] >= 0.0
    ensures var v := Move(dir, s, alpha, b);
      forall j :: 0 <= j < |s| ==> if dir == Above then v[j] >= s[j] else v[j] <= s[j]
  {
    var v := Move(dir, s, alpha, b);
    forall j | 0 <= j < |s| ensures if dir == Above then v[j] >= s[j] else v[j] <= s[j] {
      assert alpha * b[j] >= 0.0;
    }
  }

  /**
    The loop ends in one of two ways: the candidate passes (minimum gap at
    least -tol), or the round budget is used up.
   */
  lemma {:induction false} RunOutcome(dir: Direction, rule: StepRule, s: seq<real>, chi: seq<real>, b: seq<real>, fuel: nat)
    requires |s| == |chi| == |b| > 0 && rule.floor > 0.0
    ensures var r := EnforceRun(dir, rule, s, chi, b, fuel);
      Passes(dir, rule, r.values, chi) || r.rounds == fuel
    decreases fuel
  {
    if fuel != 0 && !Passes(dir, rule, s, chi) {
      RunOutcome(dir, rule, Move(dir, s, Alpha(dir, rule, s, chi, b), b), chi, b, fuel - 1);
    }
  }

  /** A candidate that already passes is returned as it is, after zero rounds. */
  lemma PassingCandidateUnchanged(dir: Direction, rule: StepRule, s: seq<real>, chi: seq<real>, b: seq<real>, fuel: nat)
    requires |s| == |chi| == |b| > 0 && rule.floor > 0.0
    requires Passes(dir, rule, s, chi)
    ensures EnforceRun(dir, rule, s, chi, b, fuel) == Run(s, 0.0, 0)
  {
  }
}
