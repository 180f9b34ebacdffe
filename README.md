# HR-StepA core, modelled in Dafny

HR-StepA is a set of numerical scripts about the error term of the prime
counting function ψ(x). This project models five groups of them. Each
model states in its contracts what the script computes and proves the
properties the scripts rely on.

- **Beurling–Selberg sandwiches.** These are three constructions of a
  majorant S⁺ and a minorant S⁻ of the indicator χ of [-β, β]:
  - on the circle (`bs_selberg_circle.py`): Selberg's trigonometric
    polynomials of degree N = ⌊Δ⌋, evaluated as cosine sums, with an
    optional Fejér-bump repair loop;
  - on the real line (`bs_pw_real.py`): a trapezoid-integrated
    convolution χ * K_Δ, two bounded repair loops and a final constant
    ("DC") nudge;
  - with a fixed bump weight c (`bs_bounds.py`): the same convolution
    plus c/Δ times the edge bumps, an optional growth search for c, and
    the Fourier-side spectra.

  The modules are `SelbergCircle`, `PwReal` and `BsBounds`. They share
  the kernel and tabulated-antiderivative machinery in `Kernels`, and the
  repair loop, common to all enforcement routines, in `Enforcement`.
- **Zero-ordinate ingestion** (`prepare_lmfdb_zeros.py`, module
  `ZeroIngest`). It covers:
  - the HTML-gate detector;
  - the md5 list parser;
  - the height read from a file name;
  - the first-ordinate seek;
  - the per-file chain follower, with its skip budget and step limit;
  - the global strictly increasing merge.

  The string primitives it needs (strip, split, lower, find, substring
  test, the decimal-number scanner) are in `Text`.
- **ψ by sieve and the truncated explicit formula**
  (`explicit_compare_policy.py`, `explicit_compare_policy_param.py`,
  `explicit_adaptive_target.py`). The modules are `PsiSieve`,
  `ExplicitFormula` and `NumberTheory`. They cover:
  - the smallest-prime-factor sieve, the von Mangoldt table and the
    running sum ψ;
  - reading the ordinates;
  - the truncated sum over zeros;
  - the logarithmic x grid;
  - the three rules that choose the height T;
  - the binary search for the shortest prefix of zeros that meets a
    target ratio.
- **Step-A constant closing** (`HR-StepA/close_stepA.py`, modules
  `CloseStepA` and `StepAPrimes`). It covers:
  - loading and deduplicating the ordinates;
  - the derived constants C0', T0 and X0;
  - the geometric scan for the maximum of the Vinogradov–Korobov term;
  - assembling C_bajo, C_empalme and C_tot;
  - under the RH option, the small-range check that |ψ(n) − n| stays
    within C_tot_RH·√n·log²n for 2 ≤ n ≤ 1000.

Shared numeric vocabulary is in `Numerics`: min, argmin, linspace, the
indicator, the trapezoid rule, round-half-even and ceiling. `Sorting`
holds insertion sort and set sorting.

Floating-point values are modelled as exact reals. sin, cos, log, sqrt,
exp and the rounded exponential grid point are parameters: the scripts
call them, and the model treats them as given functions. A property that
needs a fact about one of them takes it as a precondition. Examples are
`log p ≥ 0` at primes and `sqrt(y) > 0` for y > 0.

## Model

| member | source | states |
|---|---|---|
| SelbergCircle.FejerWeight | HR-StepA/bs_selberg_circle.py:28 | the Fejér weight 1 − k/(N+1) lies strictly between 0 and 1 for 1 ≤ k ≤ N |
| SelbergCircle.SelbergRow | HR-StepA/bs_selberg_circle.py:17-34 | a coefficient row has 2N+1 entries, holds a0 at the centre, and holds the same weighted sine coefficient at N+k and N−k |
| SelbergCircle.RowsDifferOnlyAtCentre | HR-StepA/bs_selberg_circle.py:17-34 | the S⁺ and S⁻ rows agree everywhere except the centre, where they differ by exactly 2/(N+1) |
| SelbergCircle.Freqs | HR-StepA/bs_selberg_circle.py:19 | the frequency vector has 2N+1 entries, and entry j is j − N |
| SelbergCircle.FillFrequency | HR-StepA/bs_selberg_circle.py:27-34 | one loop round writes the four cells of frequency k into the 2×(2N+1) table and keeps every cell already filled |
| SelbergCircle.FilledRows | HR-StepA/bs_selberg_circle.py:20-35 | once every frequency is filled, row 0 of the table is the S⁺ row and row 1 is the S⁻ row |
| SelbergCircle.SelbergCoeffs | HR-StepA/bs_selberg_circle.py:13-35 | fails with DeltaBelowOne exactly when ⌊Δ⌋ < 1; otherwise it returns N = ⌊Δ⌋, frequencies −N..N, and a fresh table whose two rows are the S⁺ and S⁻ rows |
| SelbergCircle.HalfLength | HR-StepA/bs_selberg_circle.py:39 | (len(n) − 1) // 2 stays inside the coefficient vector |
| SelbergCircle.AddCosineTerm | HR-StepA/bs_selberg_circle.py:43-44 | one vector update adds 2·a_k·cos(2πkx) to every sample and changes nothing else |
| SelbergCircle.EvalTrig | HR-StepA/bs_selberg_circle.py:37-45 | every returned sample equals the cosine-sum value of the polynomial at that point |
| SelbergCircle.CosineSumReadsUpperHalf | HR-StepA/bs_selberg_circle.py:40-44 | the evaluation reads only the coefficients from the centre upward, so rows that agree there evaluate alike |
| SelbergCircle.CosineSumCentreShift | HR-StepA/bs_selberg_circle.py:40-44 | rows that agree above the centre evaluate to values that differ by exactly the difference of their centre coefficients |
| SelbergCircle.TrigValue | HR-StepA/bs_selberg_circle.py:37-45 | defines the value of a coefficient row at x: a0 plus 2·a_k·cos(2πkx) for k = 1..N, the reference EvalTrig and TrigSamples are stated against |
| SelbergCircle.UnforcedGap | HR-StepA/bs_selberg_circle.py:105-106 | at every point, the unforced S⁺ minus S⁻ is the constant 2/(N+1) |
| SelbergCircle.UnforcedSamplesGap | HR-StepA/bs_selberg_circle.py:104-106 | the same constant gap holds for every grid sample |
| SelbergCircle.Fejer | HR-StepA/bs_selberg_circle.py:48-53 | the Fejér kernel is non-negative, and it is N+1 where abs(sin(πx)) is below the cut-off |
| SelbergCircle.BumpFejer | HR-StepA/bs_selberg_circle.py:55-58 | the bump at each sample is the sum of the Fejér kernels centred at ±β, and it is non-negative |
| SelbergCircle.CircleRuleValid | HR-StepA/bs_selberg_circle.py:66-69 | the circle step rule (tolerance 1e-10, overshoot 1.01, floor 1e-16, no cap) meets the conditions the repair lemmas need |
| SelbergCircle.EnforceCircle | HR-StepA/bs_selberg_circle.py:60-84 | the repair loop returns the start plus a non-negative multiple of the Fejér bump, moved outward (up for S⁺, down for S⁻); it either passes or uses all 30 rounds |
| SelbergCircle.CircleRoundRepairs | HR-StepA/bs_selberg_circle.py:64-70 | one round lifts the worst point to exactly −0.01 times the old minimum gap, which is positive |
| SelbergCircle.TrigSamples | HR-StepA/bs_selberg_circle.py:105-106 | the sample vector holds the polynomial's value at every grid point |
| SelbergCircle.SampleCandidates | HR-StepA/bs_selberg_circle.py:104-111 | the grid is linspace(−½, ½, gridN) and χ is its indicator; unforced samples are the polynomial values at the grid points, 2/(N+1) apart; forced samples are exactly the repair runs (EnforceRun with the Fejér bump and 30 rounds) started from those values, and lie outward of them |
| SelbergCircle.CircleCertificate | HR-StepA/bs_selberg_circle.py:97-125 | fails exactly when ⌊Δ⌋ < 1 or the grid is empty; otherwise reports N, both rows, the grid, the samples (the polynomial values, or the repair runs from them with --force), both minimum gaps, ok flags that hold exactly when a gap is ≥ −1e-12, the theoretical error 1/(N+1) > 0, and grid L1 errors equal to the trapezoid integrals of max(gap, 0), hence ≥ 0 |
| Enforcement.Gaps | HR-StepA/bs_pw_real.py:49-62 | the gap vector is S − χ for a majorant and χ − S for a minorant, point by point |
| Enforcement.Move | HR-StepA/bs_pw_real.py:56-69 | a move adds α·bump to a majorant and subtracts it from a minorant, point by point |
| Enforcement.EnforceRun | HR-StepA/bs_pw_real.py:46-70 | the repair loop as a function: the final values keep the length, and the number of rounds never exceeds itmax |
| Enforcement.Enforce | HR-StepA/bs_pw_real.py:46-70 | the imperative loop returns exactly the values of the repair run |
| Enforcement.RunOutOfFuel | HR-StepA/bs_pw_real.py:48 | with no rounds left the loop returns its start unchanged |
| Enforcement.EnforceRound | HR-StepA/bs_pw_real.py:48-56 | one loop round either stops (the gap passes the tolerance) or moves the samples; the rest of the run from the new samples gives the same result |
| Enforcement.StepSizePositive | HR-StepA/bs_pw_real.py:53-55 | with a violated tolerance the step is positive, and it is at most the cap when there is one |
| Enforcement.GapsAfterMove | HR-StepA/bs_pw_real.py:49-56 | a move raises each gap by exactly α times the bump at that point, in both directions |
| Enforcement.MoveTwice | HR-StepA/bs_pw_real.py:56-69 | two successive moves along the same bump equal one move by the sum of the steps |
| Enforcement.MoveZero | HR-StepA/bs_pw_real.py:56-69 | a zero step leaves the samples unchanged |
| Enforcement.StepRepairsPoint | HR-StepA/bs_pw_real.py:53-56 | an uncapped step taken at a violated point leaves that point's gap at −(overshoot − 1)·gap, which is positive |
| Enforcement.RoundRepairsWorstPoint | HR-StepA/bs_pw_real.py:49-56 | an uncapped round lifts the argmin point to −(overshoot − 1) times the old minimum gap, which is positive |
| Enforcement.RepairArithmetic | HR-StepA/bs_pw_real.py:53-56 | an uncapped step times the bump is exactly −overshoot times the gap |
| Enforcement.RunLiftNonNegative | HR-StepA/bs_pw_real.py:46-70 | the total lift over a run is non-negative |
| Enforcement.RunValuesAreMove | HR-StepA/bs_pw_real.py:46-70 | the run's result is the start moved once by the total lift |
| Enforcement.RoundAddsStep | HR-StepA/bs_pw_real.py:48-56 | one more round composes with the rest of the run into a single move |
| Enforcement.RunIsBumpMultiple | HR-StepA/bs_pw_real.py:46-70 | a run ends at the start plus a non-negative multiple of the bump |
| Enforcement.MinOfMonotone | HR-StepA/bs_pw_real.py:50 | a pointwise larger gap vector has a larger minimum |
| Enforcement.MoveNeverShrinksGaps | HR-StepA/bs_pw_real.py:49-56 | with a non-negative bump and step, no gap decreases |
| Enforcement.RunNeverShrinksGaps | HR-StepA/bs_pw_real.py:46-70 | after a run, no gap is smaller than before and neither is the minimum gap |
| Enforcement.RunMovesOutward | HR-StepA/bs_pw_real.py:46-70 | a run only raises a majorant and only lowers a minorant |
| Enforcement.MoveOutward | HR-StepA/bs_pw_real.py:56-69 | one non-negative move only raises a majorant and only lowers a minorant |
| Enforcement.RunOutcome | HR-StepA/bs_pw_real.py:48-51 | a run ends passing the tolerance or after exactly itmax rounds |
| Enforcement.PassingCandidateUnchanged | HR-StepA/bs_pw_real.py:50-51 | a candidate that already passes is returned unchanged after zero rounds |
| PwReal.PwRuleValid | HR-StepA/bs_pw_real.py:51-55 | the real-line rule (tolerance 1e-11, overshoot 1.05, floor 1e-3, cap 0.2) meets the repair lemmas' conditions |
| PwReal.PwStep | HR-StepA/bs_pw_real.py:24 | the table step 1/(60Δ) is positive |
| PwReal.PwHalfWidth | HR-StepA/bs_pw_real.py:25-26 | the table half-width β + 32/Δ exceeds β |
| PwReal.EdgeBump | HR-StepA/bs_pw_real.py:42 | the edge bump K_Δ(x−β) + K_Δ(x+β) is non-negative |
| PwReal.BuildInitial | HR-StepA/bs_pw_real.py:23-43 | base is the table convolution at each x and is non-negative; bump_edge is the edge bump at each x and is non-negative |
| PwReal.PwBase | HR-StepA/bs_pw_real.py:23-41 | the base candidate has one sample per grid point, each the table convolution and non-negative |
| PwReal.CompositeBump | HR-StepA/bs_pw_real.py:89-90 | the composite bump is (edge bump + ½·K_Δ(x)) / Δ at each point and is non-negative |
| PwReal.BumpAt | HR-StepA/bs_pw_real.py:90 | one composite-bump sample is that quotient and is non-negative |
| PwReal.StartOrdered | HR-StepA/bs_pw_real.py:93-94 | the starting pair base ± ½·B is ordered: S⁻ ≤ S⁺ |
| PwReal.PwStepBounded | HR-StepA/bs_pw_real.py:53-55 | while the tolerance is violated, each step lies in (0, 0.2] |
| PwReal.PwRoundRepairs | HR-StepA/bs_pw_real.py:49-56 | an uncapped round leaves the worst point's gap at −0.05 times the old minimum, which is positive |
| PwReal.PwRoundCapped | HR-StepA/bs_pw_real.py:53-56 | a capped round raises the worst gap by 0.2 times its bump, hence by at least 0.2·1e-3 |
| PwReal.EnforcePw | HR-StepA/bs_pw_real.py:46-70 | the 800-round loop returns the start plus a non-negative multiple of B, moved outward; it either passes or uses all rounds |
| PwReal.Need | HR-StepA/bs_pw_real.py:104-105 | the needed shift is non-negative and at least minus the minimum gap |
| PwReal.NudgeAmount | HR-StepA/bs_pw_real.py:103-106 | the nudge is non-negative, and it is zero exactly when both sides already pass |
| PwReal.GapsShift | HR-StepA/bs_pw_real.py:108-111 | shifting S by a constant shifts every gap by that constant |
| PwReal.NudgeClosesSide | HR-StepA/bs_pw_real.py:106-111 | a shift of at least 1.02 times the need makes that side's minimum gap non-negative |
| PwReal.NudgeRestoresFlags | HR-StepA/bs_pw_real.py:103-113 | when either side fails, the nudge is positive and both ok flags hold afterwards |
| PwReal.DcNudge | HR-StepA/bs_pw_real.py:98-113 | returns S⁺ + ε and S⁻ − ε with flags recomputed from the shifted pair, and both flags hold |
| PwReal.ShiftZero | HR-StepA/bs_pw_real.py:107 | when the nudge is zero the pair is unchanged |
| PwReal.PwGrid | HR-StepA/bs_pw_real.py:84 | the grid has gridN points and is non-decreasing |
| PwReal.PwCertificate | HR-StepA/bs_pw_real.py:82-117 | the report holds the grid and χ; S⁺ and S⁻ are the repair runs from base ± ½B shifted out by the DC nudge amount of that pair; the minimum gaps; flags that hold exactly when a gap is ≥ −1e-12 and that both hold; an ordered pair S⁻ ≤ S⁺; grid L1 errors equal to the trapezoid integrals of max(gap, 0); and the target 1/Δ |
| PwReal.EnforcedPair | HR-StepA/bs_pw_real.py:93-96 | the pair is the two repair runs from base ± ½·B, and it stays ordered |
| PwReal.PwEnforced | HR-StepA/bs_pw_real.py:90-96 | defines one side of the pair before the nudge: the repair run from base + ½B (above) or base − ½B (below) with the composite bump, the reference PwCertificate is stated against |
| PwReal.NudgeKeepsOrder | HR-StepA/bs_pw_real.py:107-109 | shifting S⁺ up and S⁻ down by ε ≥ 0 keeps S⁻ ≤ S⁺ |
| Kernels.KDelta | HR-StepA/bs_pw_real.py:6-14 | the Fejér-type kernel K_Δ is non-negative and equals Δ where abs(x) is below ε |
| Kernels.BoundsOverwriteAgrees | HR-StepA/bs_bounds.py:16-18 | the first value written at the origin, (1/Δ)·Δ², equals the Δ that overwrites it |
| Kernels.TriHat | HR-StepA/bs_bounds.py:21-24 | Λ(abs(ξ)/Δ) lies in [0, 1], is 1 at 0, is 0 for abs(ξ) ≥ Δ, and is positive inside |
| Kernels.NpSinc | HR-StepA/bs_bounds.py:28 | the normalised sinc is 1 at 0 |
| Kernels.HatChi | HR-StepA/bs_bounds.py:26-28 | the transform of χ equals 2β at ξ = 0 |
| Kernels.ArangeLength | HR-StepA/bs_pw_real.py:27 | the length of arange(start, stop, step) puts the last point below stop and one more step at or past it |
| Kernels.Arange | HR-StepA/bs_pw_real.py:27 | arange's points are start + i·step, as many as ArangeLength gives |
| Kernels.Panel | HR-StepA/bs_pw_real.py:30 | a trapezoid panel with non-negative heights and step is non-negative |
| Kernels.TrapezoidTable | HR-StepA/bs_pw_real.py:30 | the cumulative table starts at 0, and each entry is the previous one plus one panel |
| Kernels.CumulativeTable | HR-StepA/bs_pw_real.py:30 | the accumulating loop builds exactly that table |
| Kernels.TableAppend | HR-StepA/bs_pw_real.py:30 | the table of a longer prefix extends the shorter prefix's table by one panel |
| Kernels.TableNonDecreasing | HR-StepA/bs_pw_real.py:28-30 | with a non-negative kernel and step, the antiderivative table is non-decreasing |
| Kernels.TableStep | HR-StepA/bs_pw_real.py:30 | each entry of such a table is at most every later entry |
| Kernels.Clip | HR-StepA/bs_pw_real.py:32 | np.clip returns a value inside [lo, hi]: the input when it already lies there, otherwise the nearer end |
| Kernels.Position | HR-StepA/bs_pw_real.py:32-33 | the fractional index lies in [0, len−1], is 0 at or left of the table and len−1 at or right of it |
| Kernels.Interp | HR-StepA/bs_pw_real.py:34-37 | linear interpolation lies between the two bracketing entries and is exact at integer positions |
| Kernels.BetweenEnds | HR-StepA/bs_pw_real.py:37 | a + f·(b − a) with 0 ≤ f ≤ 1 lies between a and b |
| Kernels.Antideriv | HR-StepA/bs_pw_real.py:31-37 | the antiderivative is the first table entry left of the table and the last one right of it |
| Kernels.AntiderivMonotone | HR-StepA/bs_pw_real.py:31-37 | over a non-decreasing table, the antiderivative is monotone in t |
| Kernels.PositionMonotone | HR-StepA/bs_pw_real.py:32-33 | the fractional index is monotone in t |
| Kernels.InterpMonotone | HR-StepA/bs_pw_real.py:34-37 | interpolation into a non-decreasing table is monotone in the position |
| Kernels.ConvNonNegative | HR-StepA/bs_pw_real.py:38-40 | with β ≥ 0, the convolution G(x+β) − G(x−β) is non-negative |
| Kernels.Conv | HR-StepA/bs_pw_real.py:38-40 | defines conv(x) = G(x + β) − G(x − β) on the antiderivative table; ConvNonNegative proves it non-negative |
| Kernels.KernelSamples | HR-StepA/bs_pw_real.py:28 | K_Δ sampled on the arange grid keeps its length, and every sample is non-negative |
| Kernels.KernelTable | HR-StepA/bs_pw_real.py:24-30 | the table over [−U, U] is valid and non-decreasing, starts at −U with the given step, and has arange's length |
| Kernels.KernelTableUnfold | HR-StepA/bs_pw_real.py:27-30 | the table is the trapezoid accumulation of K_Δ on arange(−U, U+step, step) |
| BsBounds.BoundsStep | HR-StepA/bs_bounds.py:33-34 | the step is 1/(20Δ), or 1/(40Δ) with --tight, and is positive |
| BsBounds.BoundsHalfWidth | HR-StepA/bs_bounds.py:35-37 | the table half-width 2β + 12/Δ (20/Δ with --tight) exceeds 2β |
| BsBounds.BoundsTable | HR-StepA/bs_bounds.py:37-40 | the antiderivative table is valid and non-decreasing, and starts at −U with the chosen step |
| BsBounds.ConvChiK | HR-StepA/bs_bounds.py:30-49 | the convolution χ * K_Δ is the table convolution at x and is non-negative |
| BsBounds.SelbergBump | HR-StepA/bs_bounds.py:57 | (c/Δ)·(K_Δ(x−β) + K_Δ(x+β)) is non-negative when c ≥ 0 |
| BsBounds.BoundsGrid | HR-StepA/bs_bounds.py:53-55 | the grid linspace(−β−6/Δ, β+6/Δ, Nx) has Nx points and is non-decreasing |
| BsBounds.Samples | HR-StepA/bs_bounds.py:56-59 | each sample is conv ± bump at its grid point |
| BsBounds.MakeCandidate | HR-StepA/bs_bounds.py:60-68 | the returned record carries the minimum gaps of both sides, and ok flags that hold exactly when a gap is ≥ −1e-12 |
| BsBounds.BuildSelberg | HR-StepA/bs_bounds.py:51-68 | the candidate is built on the default grid, with conv ± bump samples and χ, and its gaps and flags come from those samples |
| BsBounds.SelbergSpread | HR-StepA/bs_bounds.py:56-59 | S⁺ − S⁻ is twice the bump and S⁺ + S⁻ is twice the convolution, at every grid point |
| BsBounds.SelbergOrdered | HR-StepA/bs_bounds.py:57-59 | with c ≥ 0, S⁻ ≤ S⁺ at every grid point |
| BsBounds.L1ErrorsSum | HR-StepA/bs_bounds.py:108-110 | E⁺ + E⁻ is the trapezoid integral of S⁺ − S⁻ |
| BsBounds.L1Errors | HR-StepA/bs_bounds.py:108-110 | defines E⁺ and E⁻ as the trapezoid integrals of the signed gaps S⁺ − χ and χ − S⁻, as the source does (not of their positive parts); L1ErrorsSum and L1ErrorsSumNonNegative state what their sum is |
| BsBounds.L1ErrorsSumNonNegative | HR-StepA/bs_bounds.py:108-110 | with c ≥ 0, E⁺ + E⁻ is non-negative |
| BsBounds.HatS | HR-StepA/bs_bounds.py:70-77 | Λ is the triangle at ξ and χ̂ the indicator transform; the bump term is (2c/Δ)·cos(2πβξ); the spectra satisfy Ŝ⁺ − Ŝ⁻ = 2Λ·bump and Ŝ⁺ + Ŝ⁻ = 2Λ·χ̂, so they coincide for c = 0; both vanish for abs(ξ) ≥ Δ; at 0, Λ = 1 and χ̂ = 2β |
| BsBounds.SpectraIdentities | HR-StepA/bs_bounds.py:75-76 | the sum and difference identities of Λ(h ± b), and both vanish when Λ = 0 |
| BsBounds.GrowWeight | HR-StepA/bs_bounds.py:103 | c·1.05 exceeds c when c > 0, stays 0 when c = 0, and falls below c when c < 0 |
| BsBounds.ZeroStartNeverStops | HR-StepA/bs_bounds.py:100-105 | as written, a search that starts at c0 = 0 with a failing candidate never moves: c stays 0, it still fails and stays below 5, so the loop has no exit |
| BsBounds.AutoCAsWritten | HR-StepA/bs_bounds.py:100-105 | the loop as written, run for a bounded number of rounds: from c > 0 the weight never falls, from c = 0 it stays 0, and from c < 0 it never rises |
| BsBounds.NegativeStartNeverStops | HR-StepA/bs_bounds.py:100-105 | as written, from c0 < 0 with every weight ≤ c0 failing, the weight stays ≤ c0, still fails and stays below 5, so the loop has no exit |
| BsBounds.BumpMonotoneInWeight | HR-StepA/bs_bounds.py:57 | a smaller weight c gives a smaller edge bump at every x |
| BsBounds.CrossedPairFails | HR-StepA/bs_bounds.py:51-67 | a grid point whose bump is below −1e-12 makes S⁺ − S⁻ < −2e-12 there, so one flag fails |
| BsBounds.NegativeStartAlwaysFails | HR-StepA/bs_bounds.py:51-67 | from c0 < 0 with a bump below −1e-12 at some grid point, every weight ≤ c0 gives a failing candidate |
| BsBounds.GapsGrowWithWeight | HR-StepA/bs_bounds.py:51-67 | both minimum gaps of build_selberg's candidate are non-decreasing in the weight c |
| BsBounds.FailingWeightFailsBelow | HR-StepA/bs_bounds.py:51-67 | a weight whose candidate fails makes every smaller weight's candidate fail |
| BsBounds.RefusedStartLoopsForever | HR-StepA/bs_bounds.py:100-105 | on every start BoundsCertificate refuses (c0 ≤ 0, failing candidate) the loop as written never stops: after any number of rounds c ≤ c0, its candidate fails and c < 5 |
| BsBounds.AutoC | HR-StepA/bs_bounds.py:97-105 | the search returns c0·1.05^k and the candidate built at it; that candidate passes or c ≥ 5; when k > 0, c < 5·1.05 |
| BsBounds.BoundsCertificate | HR-StepA/bs_bounds.py:92-110 | fails exactly when --auto-c starts at c0 ≤ 0 with a failing candidate; otherwise reports the candidate at c = c0·1.05^k (k = 0 without --auto-c), its trapezoid L1 errors, and, with --auto-c, a passing candidate or c ≥ 5 |
| BsBounds.RoundsBounded | HR-StepA/bs_bounds.py:102-105 | from c0 > 0, the number of growth rounds is bounded, so the search ends |
| Numerics.Abs | HR-StepA/bs_bounds.py:23 | abs(x) is non-negative and is x or −x |
| Numerics.Max | HR-StepA/close_stepA.py:141 | max(a, b) is at least both and is one of them |
| Numerics.Min | HR-StepA/bs_pw_real.py:55 | min(a, b) is at most both and is one of them |
| Numerics.MinOf | HR-StepA/bs_pw_real.py:50 | np.min is a lower bound of every entry |
| Numerics.MinOfIn | HR-StepA/bs_pw_real.py:50 | np.min is one of the entries |
| Numerics.ArgMin | HR-StepA/bs_pw_real.py:52 | np.argmin is the first index holding the minimum |
| Numerics.Shift | HR-StepA/bs_pw_real.py:108-109 | adding a scalar to an array adds it to every entry |
| Numerics.Sub | HR-StepA/bs_bounds.py:109-110 | elementwise difference of two arrays |
| Numerics.PositivePart | HR-StepA/bs_pw_real.py:116-117 | np.maximum(v, 0) is non-negative, at least v, and either v or 0 |
| Numerics.MinOfShift | HR-StepA/bs_pw_real.py:108-113 | the minimum of a shifted array is the old minimum plus the shift |
| Numerics.Linspace | HR-StepA/bs_selberg_circle.py:104 | linspace has n points, starts at lo, ends at hi when n ≥ 2, and is evenly spaced |
| Numerics.LinPointLast | HR-StepA/bs_selberg_circle.py:104 | the last evenly spaced point is exactly hi |
| Numerics.LinspaceNonDecreasing | HR-StepA/bs_selberg_circle.py:104 | with lo ≤ hi, linspace is non-decreasing |
| Numerics.Indicator | HR-StepA/bs_selberg_circle.py:107 | χ is 1 exactly where −β ≤ x ≤ β and 0 exactly elsewhere |
| Numerics.TrapezoidNonNegative | HR-StepA/bs_selberg_circle.py:124-125 | np.trapezoid of non-negative values over a non-decreasing grid is non-negative |
| Numerics.TrapezoidAdditive | HR-StepA/bs_bounds.py:108-110 | np.trapezoid is additive in the integrand |
| Numerics.GridL1 | HR-StepA/bs_pw_real.py:116-117 | the grid L1 error is the trapezoid integral of max(gap, 0) over the grid, and it is non-negative |
| Numerics.RoundHalfEven | HR-StepA/close_stepA.py:54 | Python's round lands within ½ of its argument, and on an exact tie it lands on the even integer |
| Numerics.Ceil | HR-StepA/bs_pw_real.py:27 | the ceiling is at least r and less than r + 1 |
| Sorting.InsertSpec | explicit_compare_policy.py:13 | inserting into a sorted list keeps it sorted and adds exactly that element |
| Sorting.Sort | explicit_compare_policy.py:13 | list.sort yields a non-decreasing permutation of its input |
| Sorting.HasLeast | HR-StepA/close_stepA.py:55 | every non-empty finite set of reals has a least element |
| Sorting.SortSet | HR-StepA/close_stepA.py:55 | sorted(set) is strictly increasing and has exactly the set's elements |
| Text.Strip | prepare_lmfdb_zeros.py:26 | str.strip leaves no whitespace at either end |
| Text.StripIsSlice | prepare_lmfdb_zeros.py:26 | str.strip removes only a whitespace prefix and a whitespace suffix |
| Text.StripTrimmed | prepare_lmfdb_zeros.py:26 | stripping an already trimmed string returns it unchanged |
| Text.Split | prepare_lmfdb_zeros.py:28 | str.split returns non-empty tokens without whitespace |
| Text.SplitKeepsVisible | prepare_lmfdb_zeros.py:28 | joining the tokens of str.split gives back exactly the non-whitespace characters, in order |
| Text.SplitWord | prepare_lmfdb_zeros.py:28 | splitting a single word yields that word, and an empty string yields nothing |
| Text.Lower | prepare_lmfdb_zeros.py:13 | str.lower maps each character and leaves no capital letter |
| Text.LowerIdempotent | prepare_lmfdb_zeros.py:13 | lower-casing twice is lower-casing once |
| Text.Contains | prepare_lmfdb_zeros.py:14 | the substring test holds exactly when the pattern occurs at some position |
| Text.UpperNeverInLower | prepare_lmfdb_zeros.py:13-14 | a pattern with a capital letter never occurs in a lower-cased string |
| Text.Find | prepare_lmfdb_zeros.py:31 | str.find returns the first index of the character, or −1 when it is absent |
| Text.DecimalString | prepare_lmfdb_zeros.py:7 | a natural's decimal text is a non-empty run of digits with no leading zero |
| Text.DigitsRoundTrip | prepare_lmfdb_zeros.py:7 | reading a natural's decimal text back gives the natural |
| Text.DigitRun | prepare_lmfdb_zeros.py:7 | the scanner's digit run is maximal |
| Text.Mantissa | prepare_lmfdb_zeros.py:7 | a mantissa starts with a digit or with '.' followed by a digit, and nothing else starts one |
| Text.Exponent | prepare_lmfdb_zeros.py:7 | an exponent part never moves the match end backwards |
| Text.MatchAt | prepare_lmfdb_zeros.py:7 | a match found at a position consumes at least one character |
| Text.ParseNumsOfNatural | prepare_lmfdb_zeros.py:44-49 | the numbers found in a natural's decimal text are exactly that natural |
| Text.ParseNums | prepare_lmfdb_zeros.py:44-49 | the numbers found in a line (NUM_RE.findall, each converted exactly) are at most one per character, and a line with no digit has none |
| Text.ScanFrom | prepare_lmfdb_zeros.py:7 | scanning from a position finds at most one number per remaining character, and none when no digit remains |
| Text.DigitsAreIntegral | prepare_lmfdb_zeros.py:40-42 | a natural is integral |
| ZeroIngest.HtmlHint | prepare_lmfdb_zeros.py:8-10 | every one of the ten gate hints is non-empty |
| ZeroIngest.AnyHintFrom | prepare_lmfdb_zeros.py:14 | the any() over hints holds exactly when one of the remaining hints occurs |
| ZeroIngest.DetectHtmlGate | prepare_lmfdb_zeros.py:12-14 | a line is a gate page exactly when some hint occurs in its lower-cased form |
| ZeroIngest.UpperDoctypeHintNeverFires | prepare_lmfdb_zeros.py:8-14 | the upper-case "<!DOCTYPE html" hint can never match a lower-cased line |
| ZeroIngest.HtmlGateIgnoresCase | prepare_lmfdb_zeros.py:12-14 | the detector gives the same verdict on a line and on its lower-cased form |
| ZeroIngest.Md5Parse | prepare_lmfdb_zeros.py:26-33 | a line yields an entry exactly when it is non-empty, not a comment, and has ≥ 2 fields; the md5 is the first field; the name is the stripped text after the first '*' when there is one, otherwise the last field |
| ZeroIngest.Md5Name | prepare_lmfdb_zeros.py:31-32 | the name is the trimmed text after '*' when there is one, otherwise the last field |
| ZeroIngest.Md5Entries | prepare_lmfdb_zeros.py:25-33 | one parse result per line |
| ZeroIngest.LoadMd5 | prepare_lmfdb_zeros.py:22-34 | the loop builds the map of the parsed entries |
| ZeroIngest.MapOfLastWins | prepare_lmfdb_zeros.py:33 | a name maps to the md5 of its last entry |
| ZeroIngest.Md5LastWins | prepare_lmfdb_zeros.py:22-34 | in the loaded map, a name maps to the md5 on the last line that names it |
| ZeroIngest.MapOfKeys | prepare_lmfdb_zeros.py:33 | every key of the map comes from an entry with that name and md5 |
| ZeroIngest.Md5KeysFromLines | prepare_lmfdb_zeros.py:22-34 | every key of the loaded map comes from a line carrying that name and md5 |
| ZeroIngest.DigitRunBack | prepare_lmfdb_zeros.py:37 | the digit run that ends at a position is maximal to the left |
| ZeroIngest.BasenameHeight | prepare_lmfdb_zeros.py:36-38 | a name ending in "zeros_<digits>.dat" yields the value of those digits, and any other name yields None |
| ZeroIngest.HeightOfStandardName | prepare_lmfdb_zeros.py:36-38 | the height of "zeros_<n>.dat" is n |
| ZeroIngest.AtLeast | prepare_lmfdb_zeros.py:53 | the filter keeps exactly the values at the threshold, with their multiplicities |
| ZeroIngest.CandidateList | prepare_lmfdb_zeros.py:51-53 | a candidate is a value on the line that is ≥ 10 and ≥ start_thr |
| ZeroIngest.StartThreshold | prepare_lmfdb_zeros.py:84-88 | start_thr is height·start_frac for a height ≥ 1000, and 10 otherwise |
| ZeroIngest.SeekVerdict | prepare_lmfdb_zeros.py:68-75 | a line is passed over exactly when it is blank, a gate page or without numbers; a found value is the least number on the line at max(10, start_thr); a barren line has numbers but no candidate |
| ZeroIngest.SeekNums | prepare_lmfdb_zeros.py:71-75 | Passed exactly when there are no numbers; Found holds the least candidate; Barren when there are numbers but no candidate |
| ZeroIngest.SeekVerdicts | prepare_lmfdb_zeros.py:67-75 | one verdict per line |
| ZeroIngest.Seek | prepare_lmfdb_zeros.py:64-80 | the scan over the line verdicts: a found value comes with a line number inside the file whose verdict is Found with that value; no value comes with line number −1 |
| ZeroIngest.SeekResult | prepare_lmfdb_zeros.py:64-80 | the seek returns the first Found line and its 1-based number, every earlier line having been passed over or barren before max_scan; or (None, −1) when no line is found or a barren line at or past max_scan comes before any found line |
| ZeroIngest.SeekAtThreshold | prepare_lmfdb_zeros.py:64-80 | a found ordinate is ≥ max(10, start_thr), on a line inside the file |
| ZeroIngest.FastSeekFirstGamma | prepare_lmfdb_zeros.py:64-80 | the scanning loop returns exactly the seek's result |
| ZeroIngest.SeekScan | prepare_lmfdb_zeros.py:67-80 | the loop over verdicts returns exactly the seek's result |
| ZeroIngest.DatCandidates | prepare_lmfdb_zeros.py:120-125 | the candidate set is the values ≥ max(10, start_thr); the direct second field only repeats one of them |
| ZeroIngest.DatClassify | prepare_lmfdb_zeros.py:108-127 | a line is ignored exactly when it is blank, a comment or a gate page; it has no numbers exactly when it is not ignored and the scanner finds none; otherwise the candidates are the numbers at max(10, start_thr) |
| ZeroIngest.DatClasses | prepare_lmfdb_zeros.py:107-127 | one class per line |
| ZeroIngest.DatRun | prepare_lmfdb_zeros.py:107-152 | the selection loop with its cumulative skip counter, from a line on: a success keeps the values already kept as a prefix; a failure is TooManySkips at a line after the start |
| ZeroIngest.Window | prepare_lmfdb_zeros.py:134-135 | the window keeps the candidates above last and at most max_step above it |
| ZeroIngest.DatChoose | prepare_lmfdb_zeros.py:134-149 | take the nearest candidate above last within max_step; skip exactly the ignored lines; miss exactly when no candidate qualifies |
| ZeroIngest.ChainIncreasing | prepare_lmfdb_zeros.py:151-152 | a chain of accepted ordinates is strictly increasing |
| ZeroIngest.ChainExtend | prepare_lmfdb_zeros.py:151-152 | appending a value above the last, within max_step and at the threshold, keeps a chain |
| ZeroIngest.DatRunKeepsChain | prepare_lmfdb_zeros.py:107-152 | a successful follow extends the chain it started from; a failure is "too many skips" at a line after the start |
| ZeroIngest.DatClassesAtThreshold | prepare_lmfdb_zeros.py:120-125 | every candidate of every classified line is ≥ max(10, start_thr) |
| ZeroIngest.ReadDatChain | prepare_lmfdb_zeros.py:82-158 | a file's ordinates form a strictly increasing chain at the threshold, with steps ≤ max_step, starting at the seek's value |
| ZeroIngest.ReadDatAt | prepare_lmfdb_zeros.py:82-158 | read_dat_file at a given start threshold: fails with the no-start error exactly when the seek finds nothing, and a success starts with the seek's value |
| ZeroIngest.ReadDat | prepare_lmfdb_zeros.py:82-158 | read_dat_file for a named file: a success is strictly increasing and every value is ≥ 10 |
| ZeroIngest.ReadDatLines | prepare_lmfdb_zeros.py:94-152 | the reader's loop returns exactly the file's modelled result |
| ZeroIngest.ReadDatAtSeek | prepare_lmfdb_zeros.py:94-107 | no seek value fails with the "no start candidate" error; otherwise following starts after the seek line with the found value kept |
| ZeroIngest.ReadDatFile | prepare_lmfdb_zeros.py:82-158 | the reader returns exactly the modelled result for the name's start threshold |
| ZeroIngest.FollowFile | prepare_lmfdb_zeros.py:107-152 | the follow loop returns exactly the modelled run, and an error names a line after the start |
| ZeroIngest.MergeLists | prepare_lmfdb_zeros.py:195-211 | the kept and dropped lists are exactly Merged of the files' values in order; the kept list is strictly increasing, every dropped value is ≤ its last value, kept plus dropped are the input values, and the first input value is kept |
| ZeroIngest.MergeKeepKeepsState | prepare_lmfdb_zeros.py:208-211 | appending a value above the last kept one keeps the merge invariant |
| ZeroIngest.MergeDropKeepsState | prepare_lmfdb_zeros.py:208-210 | dropping a value ≤ the last kept one keeps the merge invariant |
| ZeroIngest.MergeFile | prepare_lmfdb_zeros.py:206-211 | merging one file's list gives exactly Merged of it onto the current lists; it keeps the invariant, extends the kept list, accounts for every value, and keeps the first value of a first file |
| ZeroIngest.Merged | prepare_lmfdb_zeros.py:206-211 | the value-by-value merge rule (keep a value above the last kept one or when nothing is kept, else drop it) only extends the kept and dropped lists and accounts for every value |
| ZeroIngest.MergedAppend | prepare_lmfdb_zeros.py:195-211 | merging two files one after the other is merging their concatenation |
| ZeroIngest.MergedExample | prepare_lmfdb_zeros.py:206-211 | for the values 1, 3, 2 the merge keeps 1 and 3 and drops 2 |
| ExplicitFormula.FailHasRejected | explicit_compare_policy.py:10-12 | when reading fails, some line is non-blank and float() rejects it |
| ExplicitFormula.RejectedFails | explicit_compare_policy.py:10-12 | one rejected line makes the whole read fail |
| ExplicitFormula.LineValuesFail | explicit_compare_policy.py:7-14 | reading fails exactly when some non-blank line is not a float |
| ExplicitFormula.LineValues | explicit_compare_policy.py:7-14 | defines the values float() gives the non-blank stripped lines, or None at a rejected line; LineValuesFail and ReadGammas state when it fails |
| ExplicitFormula.ReadGammas | explicit_compare_policy.py:7-14 | fails exactly when a line is rejected; otherwise returns a sorted permutation of the values of the non-blank lines |
| ExplicitFormula.LineValuesStaysFailed | explicit_compare_policy.py:10-12 | a failure in a prefix of the file is a failure of the file |
| ExplicitFormula.CutIndex | explicit_compare_policy.py:39-40 | the loop breaks at the first ordinate above T, and every earlier ordinate is ≤ T |
| ExplicitFormula.CutIndexSorted | explicit_compare_policy.py:39-40 | on sorted ordinates, exactly those ≤ T are summed |
| ExplicitFormula.Tail | explicit_compare_policy.py:45 | defines the tail log(2π) + ½·log(1 − x⁻²) subtracted by the truncated formula |
| ExplicitFormula.TruncatedPsi | explicit_compare_policy.py:35-46 | defines x − (the zero terms of the ordinates up to T) − tail, the value PsiExplicitTruncated returns |
| ExplicitFormula.PsiExplicitTruncated | explicit_compare_policy.py:35-46 | the loop returns x − (sum of zero terms up to T) − tail |
| ExplicitFormula.CutIndexAll | explicit_compare_policy.py:39-40 | with T at or above the last ordinate, every ordinate is summed |
| ExplicitFormula.CutIndexAtOrdinate | explicit_compare_policy.py:39-40 | with T equal to ordinate k of an increasing list, exactly k+1 ordinates are summed |
| ExplicitFormula.Clamp | explicit_compare_policy.py:56 | max(lo, min(x, hi)) is at least lo, at most hi unless hi < lo, and is x when x lies in range |
| ExplicitFormula.DedupAdjacent | explicit_compare_policy.py:57-58 | adjacent deduplication never grows, keeps a non-empty list non-empty, and keeps the last value |
| ExplicitFormula.DedupAdjacentSpec | explicit_compare_policy.py:57-58 | the result has no adjacent repeats and the same values as its input |
| ExplicitFormula.DedupAdjacentIncreasing | explicit_compare_policy.py:57-58 | on a non-decreasing list, the result is strictly increasing |
| ExplicitFormula.ClampedGrid | explicit_compare_policy.py:53-56 | the k raw grid points, each clamped into [xmin, xmax] |
| ExplicitFormula.MakeXPoints | explicit_compare_policy.py:48-59 | fails exactly when k > 1 and log(xmax) is undefined; k ≤ 1 gives [max(xmin, xmax)]; otherwise the deduplicated clamped grid, 1..k points, each ≥ max(2, xmin) and ≤ xmax unless it is that lower end; every point is ≤ xmax exactly when max(2, xmin) ≤ xmax, so a larger xmin puts every point past the ψ table |
| ExplicitFormula.ClampedPoints | explicit_compare_policy.py:51-59 | the loop returns the deduplicated clamped grid |
| ExplicitFormula.PushPoint | explicit_compare_policy.py:57-58 | one conditional append deduplicates the list extended by the point |
| ExplicitFormula.DedupAppend | explicit_compare_policy.py:57-58 | extending the input by x appends x unless it repeats the last kept value |
| ExplicitFormula.ClampedPointsRange | explicit_compare_policy.py:49-58 | every point is ≥ 2 and either ≤ xmax or the lower end |
| ExplicitFormula.Max2 | explicit_compare_policy.py:49 | max(2, xmin) is at least both and is one of them |
| ExplicitFormula.XPointsIncreasing | explicit_compare_policy.py:48-59 | with a monotone raw grid, the x points are strictly increasing |
| ExplicitFormula.Prefixes | explicit_adaptive_target.py:51-53 | one prefix sum per ordinate |
| ExplicitFormula.PrefixesStep | explicit_adaptive_target.py:51-53 | each prefix is the previous prefix plus that ordinate's term |
| ExplicitFormula.ExplicitTermsForX | explicit_adaptive_target.py:43-54 | the loop returns exactly the prefix sums of the zero terms at x |
| ExplicitFormula.PrefixIsTruncation | explicit_adaptive_target.py:56-60 | using prefix k equals the truncated formula with T = γ_k (T = 0 for k = −1) on increasing ordinates |
| ExplicitFormula.Ratio | explicit_adaptive_target.py:88-89 | the ratio is non-negative |
| ExplicitFormula.RatioScales | explicit_adaptive_target.py:89 | for a positive denominator, ratio·denominator = abs(remainder) |
| ExplicitFormula.MeetsMonotoneSpec | explicit_adaptive_target.py:82-93 | when meeting the target is monotone in k, every larger k also meets it |
| ExplicitFormula.FirstMeeting | explicit_adaptive_target.py:82-93 | the least meeting index, or the last index, lies in range |
| ExplicitFormula.FirstMeetingLeast | explicit_adaptive_target.py:82-93 | that index meets the target (or is the last index) and no smaller one meets it |
| ExplicitFormula.FirstMeetingIs | explicit_adaptive_target.py:82-93 | any index with those two properties is that index |
| ExplicitFormula.Probe | explicit_adaptive_target.py:86-90 | one probe decides whether prefix k meets the target |
| ExplicitFormula.ChooseK | explicit_adaptive_target.py:82-93 | best_k lies in −1..n−1 and meets the target unless it is the last index; under monotonicity it is the least meeting index |
| ExplicitFormula.AdaptiveRow | explicit_adaptive_target.py:78-100 | None (the IndexError of psi[x]) exactly when x is past the end of the ψ table; otherwise pe = psi[x], and the row's count, T, ψ value, remainder and ratio agree; the ratio meets the target unless every zero was used; on increasing ordinates the value is the truncated formula at T |
| ExplicitFormula.RowIsTruncation | explicit_adaptive_target.py:95-99 | a row built from a prefix equals the truncated formula at its T |
| ExplicitFormula.ClampToLast | explicit_compare_policy.py:93-94 | T never exceeds the last ordinate and is unchanged when already below it |
| ExplicitFormula.TNeverAboveLast | explicit_compare_policy.py:82-94 | every T rule, after the clamp, is at most the last ordinate |
| ExplicitFormula.PolicyIsDefaultParam | explicit_compare_policy_param.py:74-80 | the fixed policy is the parametrised policy at its defaults 500, 3000, 700, 2000 and 5000 |
| ExplicitFormula.ClampKeepsCut | explicit_compare_policy.py:93-94 | clamping T to the last ordinate sums the same ordinates |
| ExplicitFormula.CutIndexMonotone | explicit_compare_policy.py:39-40 | a larger T never sums fewer ordinates |
| ExplicitFormula.ParamTMonotone | explicit_compare_policy_param.py:74-80 | under ordered thresholds, the parametrised T is monotone in x |
| ExplicitFormula.ParamRawT | explicit_compare_policy_param.py:73-78 | defines the b1/b2 policy before the clamp: max(Tmin_low, √x) below b1, T_mid below b2, T_high otherwise |
| ExplicitFormula.ParamT | explicit_compare_policy_param.py:73-79 | defines the parametrised height: the raw policy clamped to the last ordinate (TNeverAboveLast, ParamTMonotone) |
| ExplicitFormula.ModeT | explicit_compare_policy.py:80-94 | defines the --T_mode heights (constant, max(T_min, √x), and the 700/2000/5000 policy) clamped to the last ordinate |
| ExplicitFormula.CompareRow | explicit_compare_policy.py:96-100 | None (the IndexError of psi[x], also at explicit_compare_policy_param.py:82) exactly when x is past the end of the ψ table; otherwise pe = psi[x], px is the truncated formula, rem = pe − px, and the ratio is non-negative with ratio·denominator = abs(rem) for a positive denominator |
| PsiSieve.ISqrt | explicit_compare_policy.py:18 | the integer square root r satisfies r² ≤ n < (r+1)² |
| PsiSieve.Spf | explicit_compare_policy.py:17-21 | the sieve's target: n itself below 2, otherwise a factor of n between 2 and n (the least prime factor) |
| PsiSieve.MarkedComplete | explicit_compare_policy.py:17-21 | once the sieve bound's square exceeds n, the marked factor is n's least prime factor |
| PsiSieve.MarkedAtOwnBound | explicit_compare_policy.py:19 | spf[i] is still i when round i is reached exactly when i is prime |
| PsiSieve.MarkedOnProgression | explicit_compare_policy.py:20-21 | round i sets spf[j] to i on its progression exactly when spf[j] was still j |
| PsiSieve.SieveSmallestFactors | explicit_compare_policy.py:17-21 | the sieve array holds the least prime factor of every n ≤ xmax (n itself for n < 2) |
| PsiSieve.SieveMultiples | explicit_compare_policy.py:20-21 | one inner loop advances the whole array by one sieve round |
| PsiSieve.LogAtPrimes | explicit_compare_policy.py:22-24 | logp[n] is log n at primes and 0 elsewhere |
| PsiSieve.MangoldtTable | explicit_compare_policy.py:25-29 | lam[n] is the von Mangoldt value Λ(n) |
| PsiSieve.DivideOut | explicit_compare_policy.py:28 | the division loop leaves n with every factor p removed |
| PsiSieve.RunSumIsPsi | explicit_compare_policy.py:30-32 | the running sum of Λ up to n is ψ(n) |
| PsiSieve.RunSum | explicit_compare_policy.py:30-32 | defines the running sum lam[1] + … + lam[n]; RunSumIsPsi proves it is ψ(n) |
| PsiSieve.RunningSum | explicit_compare_policy.py:30-32 | psi[n] is the running sum up to n |
| PsiSieve.PsiExactUpto | explicit_compare_policy.py:16-33 | the returned list has xmax+1 entries and entry n is ψ(n) |
| NumberTheory.LeastPrimeFactor | explicit_compare_policy.py:17-21 | the least factor ≥ 2 of n divides n and no smaller k ≥ 2 does |
| NumberTheory.LeastPrimeFactorIsPrime | explicit_compare_policy.py:17-21 | the least factor is prime |
| NumberTheory.PrimeIffOwnLeastFactor | explicit_compare_policy.py:24 | n is prime exactly when it is its own least factor |
| NumberTheory.CompositeLeastFactorSquare | explicit_compare_policy.py:18 | a composite's least factor squared is at most n, so sieving to √xmax suffices |
| NumberTheory.StripFactor | explicit_compare_policy.py:28 | dividing out p leaves a positive number that p no longer divides |
| NumberTheory.StripFactorOne | explicit_compare_policy.py:28-29 | stripping p leaves 1 exactly when n is a power of p |
| NumberTheory.LeastFactorOfPrimePower | explicit_compare_policy.py:27-29 | the least factor of p^k is p |
| NumberTheory.MangoldtAtPrimePower | explicit_compare_policy.py:29 | Λ(p^k) = log p |
| NumberTheory.MangoldtOffPrimePowers | explicit_compare_policy.py:25-29 | Λ(n) = 0 when n is not a prime power |
| NumberTheory.PsiNonDecreasing | explicit_compare_policy.py:30-32 | ψ is non-decreasing when log is non-negative at primes |
| StepAPrimes.StrikeMultiples | HR-StepA/close_stepA.py:195-196 | the slice assignment strikes exactly the multiples of p from p² on |
| StepAPrimes.SieveRound | HR-StepA/close_stepA.py:193-196 | one outer round advances the sieve from bound p to p+1 |
| StepAPrimes.PrimesUpto | HR-StepA/close_stepA.py:189-197 | the result is increasing and holds exactly the primes ≤ n |
| StepAPrimes.CollectPrimes | HR-StepA/close_stepA.py:197 | collecting the unstruck indices gives the primes ≤ n in increasing order |
| StepAPrimes.PsiInteger | HR-StepA/close_stepA.py:198-207 | the nested loops compute the sum of log p over prime powers p^k ≤ n |
| StepAPrimes.PowerLogsStep | HR-StepA/close_stepA.py:203-206 | raising n by one adds log p exactly when n is a power of p |
| StepAPrimes.PowerLogs | HR-StepA/close_stepA.py:203-206 | defines the inner loop's sum: log p once for every power of p from pk up to n |
| StepAPrimes.PsiIntegerSum | HR-StepA/close_stepA.py:198-207 | defines psi_integer: the power sums over the listed primes up to the first prime above n; PsiIntegerIsPsi proves it is ψ(n) |
| StepAPrimes.EarlyStopLosesNothing | HR-StepA/close_stepA.py:201-202 | on increasing primes, the early break at p > n loses no term |
| StepAPrimes.OnPowersOfPrime | HR-StepA/close_stepA.py:203-206 | n is visited by the inner loop of p exactly when p is n's least factor and stripping p leaves 1 |
| StepAPrimes.HitsAreMangoldt | HR-StepA/close_stepA.py:201-206 | the contribution to n across all primes is Λ(n) |
| StepAPrimes.PsiIntegerIsPsi | HR-StepA/close_stepA.py:198-207 | with the primes up to a bound ≥ n, psi_integer(n) is ψ(n) |
| StepAPrimes.AllPowerLogsIsPsi | HR-StepA/close_stepA.py:198-207 | the sum over all listed primes is ψ(n) |
| StepAPrimes.RatioAt | HR-StepA/close_stepA.py:212-216 | a ratio is produced exactly when log n > 0 and the denominator is non-zero, and it is abs(ψ(n) − n)/(√n·log²n) |
| StepAPrimes.SmallRatio | HR-StepA/close_stepA.py:212-216 | defines abs(psi_integer(n) − n)/(√n·log²n), the ratio the C_small loop maximises |
| StepAPrimes.SmallXCheck | HR-StepA/close_stepA.py:210-217 | C_small is non-negative, bounds every checked ratio for 2 ≤ n ≤ Xcheck, and is 0 or one of them |
| StepAPrimes.RhSmallRange | HR-StepA/close_stepA.py:187-218 | C_tot_RH = max(1/(8π), C_small), and abs(ψ(n) − n) ≤ C_tot_RH·√n·log²n for every checked 2 ≤ n ≤ 1000 |
| StepAPrimes.SmallRangeBound | HR-StepA/close_stepA.py:209-218 | a bound on every ratio gives the ψ bound on the whole small range |
| StepAPrimes.SmallRangeAt | HR-StepA/close_stepA.py:214-218 | a bound on one ratio gives the ψ bound at that n |
| CloseStepA.Candidates | HR-StepA/close_stepA.py:38 | the candidates are exactly the values in [10, 1e14] |
| CloseStepA.Plausible | HR-StepA/close_stepA.py:38 | defines the plausible range 10 ≤ v ≤ 1e14 |
| CloseStepA.ParseGammaFromLine | HR-StepA/close_stepA.py:28-40 | None exactly for blank or comment lines and lines without a value in [10, 1e14]; otherwise the least such value on the line |
| CloseStepA.ParseGammaOfNatural | HR-StepA/close_stepA.py:28-40 | a line holding one natural in [10, 1e14] parses to that natural |
| CloseStepA.Round12 | HR-StepA/close_stepA.py:54 | round(g, 12) is on the 10⁻¹² grid, lies within ½·10⁻¹² of g, and on an exact tie is an even multiple of 10⁻¹² |
| CloseStepA.Round12Idempotent | HR-StepA/close_stepA.py:54 | rounding twice is rounding once |
| CloseStepA.Round12AtLeastTen | HR-StepA/close_stepA.py:54 | rounding keeps a value ≥ 10 at least 10 |
| CloseStepA.KeptValue | HR-StepA/close_stepA.py:51-53 | a kept value is ≥ 10 and ≤ Tcap when there is a cap |
| CloseStepA.KeptValues | HR-StepA/close_stepA.py:50-53 | one verdict per line |
| CloseStepA.FileSets | HR-StepA/close_stepA.py:44-54 | each loaded file contributes its rounded values and each skipped file contributes nothing |
| CloseStepA.SeenOf | HR-StepA/close_stepA.py:50-54 | defines the set of rounded kept values of one file; LinesSeenMembers characterises it |
| CloseStepA.UnionOf | HR-StepA/close_stepA.py:44-54 | defines the union of the per-file sets |
| CloseStepA.EntriesSeen | HR-StepA/close_stepA.py:44-54 | defines the set seen over the folder; EntriesSeenMembers characterises it |
| CloseStepA.LinesSeenMembers | HR-StepA/close_stepA.py:50-54 | a value is seen in a file exactly when it is the rounding of some line's kept value |
| CloseStepA.EntriesSeenMembers | HR-StepA/close_stepA.py:44-54 | a value is seen in the folder exactly when some loaded file sees it |
| CloseStepA.SeenAtLeastTen | HR-StepA/close_stepA.py:42-55 | every seen value is ≥ 10 |
| CloseStepA.ReadLine | HR-StepA/close_stepA.py:51-53 | one line's verdict |
| CloseStepA.ReadLines | HR-StepA/close_stepA.py:50-54 | the per-file loop adds exactly the file's rounded values to the set |
| CloseStepA.LoadGammas | HR-StepA/close_stepA.py:42-55 | the result is strictly increasing, holds exactly the seen values, and each is ≥ 10 |
| CloseStepA.LoadedOnGrid | HR-StepA/close_stepA.py:54 | every loaded value is already on the 10⁻¹² grid |
| CloseStepA.InvRhoSumNonNegative | HR-StepA/close_stepA.py:59-61 | S1 and C0' are non-negative |
| CloseStepA.InvRhoSum | HR-StepA/close_stepA.py:57-58 | defines S1 = Σ 1/abs(ρ) with abs(ρ) = √(¼ + γ²) |
| CloseStepA.C0Prime | HR-StepA/close_stepA.py:59 | defines C0' = S1/(log 2)² with zeros, else 0 |
| CloseStepA.T0 | HR-StepA/close_stepA.py:60-62 | defines T0 as the largest loaded ordinate (the last of the sorted list), else 0; T0Bounds states its bounds |
| CloseStepA.X0 | HR-StepA/close_stepA.py:65 | X0 = T0² is non-negative |
| CloseStepA.T0Bounds | HR-StepA/close_stepA.py:62-65 | T0 bounds every ordinate; with zeros, T0 ≥ 10 and X0 ≥ 100; X0 = 0 exactly when there are none |
| CloseStepA.ScanStart | HR-StepA/close_stepA.py:165 | the scan starts at max(X0, x1) for a non-zero x1, and at X0 otherwise |
| CloseStepA.ScanPoint | HR-StepA/close_stepA.py:164-172 | the j-th scan point start·r^j; from a positive start with r ≥ 1 it never falls below the start |
| CloseStepA.MaxFromX0 | HR-StepA/close_stepA.py:163-174 | None exactly when X0 ≤ 0; otherwise the scan stops at the first step or cap limit, returns the largest F over the visited points, and returns the first point attaining it |
| CloseStepA.Assemble | HR-StepA/close_stepA.py:141-181 | C_R = max(0, A3 − 1/(4π)); C_bajo = 1/(4π) + C0' + C_R; C_empalme = max(C_bajo, F(X0)); over exact reals C_tot exceeds the three by exactly 1e-12 over their maximum (in doubles the margin is absorbed, see Left out) |
| CloseStepA.ConstantsPositive | HR-StepA/close_stepA.py:179-181 | with C0' ≥ 0, C_bajo ≥ 1/(4π) > 0 and C_tot > 1/(4π) |
| CloseStepA.CloseConstants | HR-StepA/close_stepA.py:58-181 | loads the zeros and derives X0; C_alto exists exactly when X0 > 0; the constants are assembled from them; over exact reals C_tot exceeds F(X0) and F at every scanned point (in doubles the margin is absorbed, see Left out) |

## Left out

- Floating point: values are exact reals and integers are unbounded. Rounding error, NaN and infinity, and float overflow are not modelled. This is the main gap between the model and numpy.
- sin, cos, log, sqrt and exp are parameters. So are Python's float() on a token and the rounded exponential grid point int(round(exp(...))) of make_x_points (the Raw parameter). Their numerical behaviour is not modelled.
- File and console I/O is not modelled: argparse, JSON/NPZ/CSV writing, plots, gzip detection, md5_of and printing. Each file is given as its list of lines. A folder is given as a list of (name, is-file, lines) entries in os.listdir order, and that order is a parameter.
- The CSV write loops of the explicit-formula scripts are modelled as the computation of one row per x point. Each row reads psi[x] from a ψ table given as a sequence; the table that psi_exact_upto(xmax) builds has xmax + 1 entries (PsiSieve.PsiExactUpto).
- CloseStepA.Assemble, CloseStepA.CloseConstants: in doubles, max(...) + 1e-12 (close_stepA.py:181) equals the maximum once it reaches 2^14, because half an ulp there (about 1.8e-12) exceeds 1e-12. The default scan (x1 = 1e6, 2000 steps of ×1.05) makes C_alto far larger than that, so as written C_tot == C_alto and C_tot does not exceed F at the best scanned point. The strict inequalities of these two members hold only in the exact-real model.
- Text.Strip, Text.Lower: whitespace, digits and case mapping are ASCII only. Unicode whitespace, Unicode digits and non-ASCII case mappings are not modelled.
- ZeroIngest.BasenameHeight: the regex's `$` also matches before a final newline. File names never end in one, so only the end of the string is modelled.
- The file order of prepare_lmfdb_zeros.py (sorted by length, then name) and the --pattern, --only and md5-check console flow are left out. The merge takes the per-file lists in the order given.
- PsiSieve.ISqrt: int(xmax**0.5) is modelled as the exact integer square root. Float rounding of the square root is not modelled.
- The ζ'/ζ contour scan, the kernel constant sup_h2_kernel and the VK JSON defaults of close_stepA.py are not modelled. A3 and the VK function F (with B_VK and b_VK inside it) enter as parameters; x1 is an optional parameter with the default 1e6.
- CloseStepA.MaxFromX0: steps is a natural and r is given. The optional steps=None (an unbounded scan) is not modelled.
- StepAPrimes.RatioAt: the guards `L <= 0` and `denom == 0` are modelled as stated. The fact that sqrt and log make them fire only at n = 1 is not used.
- CloseStepA.Round12: rounds the exact real g·10¹² half to even. Python's round(g, 12) rounds the binary double, so a value that looks like a decimal tie may round either way.
- CloseStepA.InvRhoSumNonNegative: log 2 is the constant Ln2 = 0.6931471805599453, the double nearest to it, not a computed logarithm.
- ExplicitFormula.MakeXPoints: a negative xmax with k ≤ 1 returns [max(xmin, xmax)] as in the source. The log of a non-positive xmax is the error case.
- PsiSieve.RunningSum: reads lam as an immutable sequence. The source's list is not aliased anywhere.
- The bad-line log strings of prepare_lmfdb_zeros.py (badlog) are left out. Only the decision to drop or skip a value is modelled.
- SelbergCircle.CircleCertificate: the grid step dx, the plot and the JSON report are left out. An empty grid, on which np.min raises, is the EmptyGrid error.
- PwReal.PwCertificate, BsBounds.BoundsCertificate, BsBounds.BuildSelberg: require β ≥ 0, Δ > 0 and a non-empty grid. Δ = 0 divides by zero and an empty grid makes np.min raise. A negative β yields a negative table half-width, which is not modelled.
- PwReal.PwCertificate: the Fourier-side diagnostic (lines 119 onward) is left out, and so is the plot.
- BsBounds: the Fourier grid of hat_S is modelled one frequency at a time (HatS). The plot and JSON output are left out.
- Not part of this model, because they are pipeline drivers, exporters or backups rather than core logic: explicit_pipeline.py, bs_bridge_export.py, close_stepA.backup.py, the two certify scripts, li_verify_full.py, redownload_bad.py, generate_zeros.py, scan_fast.py and coverage_report.py.

## Findings

| source | as written | input that shows it | evidently intended | confidence | as-written member | corrected member |
|---|---|---|---|---|---|---|
| HR-StepA/bs_bounds.py:100-105 | with --auto-c, c grows only by c *= 1.05 while c < 5. From c0 = 0 the weight stays 0 (ZeroStartNeverStops). From c0 < 0 it only falls, and the minimum gaps fall with it (GapsGrowWithWeight), so a failing start keeps failing (NegativeStartNeverStops). Every start with c0 ≤ 0 and a failing candidate loops forever (RefusedStartLoopsForever) | --auto-c --c0 0, with any β, Δ whose c = 0 candidate fails the gap check; or any negative --c0 whose candidate fails, for example one whose edge bump is below −1e-12 at some grid point (NegativeStartAlwaysFails) | the search terminates, which needs a positive start weight; a non-positive start with a failing candidate is reported as an error | not executed | BsBounds.ZeroStartNeverStops | BsBounds.BoundsCertificate |
