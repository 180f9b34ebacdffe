/**
  The real-line kernel machinery shared by bs_pw_real.py and bs_bounds.py:
  the Fejer-type kernel K_Delta, the triangle and indicator spectra, the
  arange grid, the cumulative trapezoid table G of K_Delta, its
  clip-bracket-interpolate lookup (antideriv) and the convolution
  chi * K_Delta read off as a difference of two lookups.

  sin is a parameter: only the facts the code relies on (squares are
  non-negative, the explicit value at 0) are used.
 */
module Kernels {
  import opened Numerics

  /** The cut-off below which K_Delta is replaced by its limit at 0, in bs_pw_real.py. */
  const RealLineKernelEps: real := 0.000000000000000001
  /** The same cut-off in bs_bounds.py. */
  const BoundsKernelEps: real := 0.000000000000000000000000000001

  /**
    K_Delta(x) = (1/Delta) (sin(pi Delta x) / (pi x))^2, with the value
    Delta wherever |x| < eps (where the formula is evaluated at z = eps
    and then overwritten).
   */
  function KDelta(x: real, delta: real, eps: real, sin: real -> real): (r: real)
    requires delta > 0.0 && eps > 0.0
    ensures r >= 0.0
    ensures Abs(x) < eps ==> r == delta
  {
    if Abs(x) < eps then delta
    else
      var s := sin(Pi * delta * x);
      NonNegProduct(1.0 / delta, Sq(s / (Pi * x)));
      (1.0 / delta) * Sq(s / (Pi * x))
  }

  /**
    bs_bounds.py first stores (1/Delta) * Delta^2 at the small points and
    then overwrites it with Delta: in exact arithmetic the two agree, so
    the overwrite changes nothing.
   */
  lemma BoundsOverwriteAgrees(delta: real)
    requires delta > 0.0
    ensures (1.0 / delta) * Sq(delta) == delta
  {
    calc {
      (1.0 / delta) * Sq(delta);
      (1.0 / delta) * delta * delta;
      { assert (1.0 / delta) * delta == 1.0; }
      delta;
    }
  }

  /** Lambda(|xi|/Delta) = max(0, 1 - |xi|/Delta), the spectrum of K_Delta. */
  function TriHat(xi: real, delta: real): (r: real)
    requires delta > 0.0
    ensures 0.0 <= r <= 1.0
    ensures xi == 0.0 ==> r == 1.0
    ensures Abs(xi) >= delta ==> r == 0.0
    ensures Abs(xi) < delta ==> r > 0.0
  {
    var q := Abs(xi) / delta;
    assert Abs(xi) >= delta ==> q >= 1.0;
    assert Abs(xi) < delta ==> q < 1.0;
    Max(0.0, 1.0 - q)
  }

  /** NumPy's normalised sinc: sin(pi x)/(pi x), and exactly 1 at x = 0. */
  function NpSinc(x: real, sin: real -> real): (r: real)
    ensures x == 0.0 ==> r == 1.0
  {
    if x == 0.0 then 1.0 else sin(Pi * x) / (Pi * x)
  }

  /** The Fourier transform of the indicator of [-beta, beta]: 2 beta sinc(2 beta xi). */
  function HatChi(xi: real, beta: real, sin: real -> real): (r: real)
    ensures xi == 0.0 ==> r == 2.0 * beta
  {
    2.0 * beta * NpSinc(2.0 * beta * xi, sin)
  }

  /** The number of samples np.arange(start, stop, step) produces for a positive step. */
  function ArangeLength(start: real, stop: real, step: real): (n: nat)
    requires step > 0.0
    ensures stop > start ==> n >= 1
    ensures n > 0 ==> start + ((n - 1) as real) * step < stop
    ensures start + (n as real) * step >= stop
  {
    var c := Ceil((stop - start) / step);
    CeilBrackets(start, stop, step, c);
    if c <= 0 then 0 else c
  }

  /** The step count ceil((stop - start)/step) reaches stop, and one step fewer stays below it. */
  lemma CeilBrackets(start: real, stop: real, step: real, c: int)
    requires step > 0.0 && c == Ceil((stop - start) / step)
    ensures start + (c as real) * step >= stop
    ensures start + ((c - 1) as real) * step < stop
  {
    var q := (stop - start) / step;
    DivMulCancel(stop - start, step);
    MulRight(c as real, q, step);
    assert ((c - 1) as real) < q;
    MulRightStrict((c - 1) as real, q, step);
    assert ((c - 1) as real) * step < q * step;
    assert q * step == stop - start;
    assert ((c - 1) as real) * step < stop - start;
  }

  lemma DivMulCancel(x: real, step: real)
    requires step > 0.0
    ensures (x / step) * step == x
  {
  }

  lemma MulRight(a: real, q: real, step: real)
    requires a >= q && step > 0.0
    ensures a * step >= q * step
  {
  }

  lemma MulRightStrict(a: real, q: real, step: real)
    requires a < q && step > 0.0
    ensures a * step < q * step
  {
  }

  /** np.arange(start, stop, step): start, start + step, ... strictly below stop. */
  function Arange(start: real, stop: real, step: real): (uu: seq<real>)
    requires step > 0.0
    ensures |uu| == ArangeLength(start, stop, step)
    ensures forall i {:trigger uu[i]} :: 0 <= i < |uu| ==> uu[i] == start + (i as real) * step
  {
    seq(ArangeLength(start, stop, step), i requires 0 <= i => start + (i as real) * step)
  }

  /** One trapezoid panel of width h between samples a and b. */
  function Panel(a: real, b: real, h: real): (r: real)
    ensures a >= 0.0 && b >= 0.0 && h >= 0.0 ==> r >= 0.0
  {
    HalfProductNonNegative(a + b, h);
    0.5 * (a + b) * h
  }

  lemma HalfProductNonNegative(a: real, h: real)
    ensures a >= 0.0 && h >= 0.0 ==> 0.5 * a * h >= 0.0
  {
    if a >= 0.0 && h >= 0.0 {
      assert a * h >= 0.0;
    }
  }

  /**
    The cumulative trapezoid table of samples ku on a grid of step h:
    [0] followed by the running sums of the panels (the concatenation of
    [0.0] with np.cumsum of the panel areas).
   */
  function TrapezoidTable(ku: seq<real>, h: real): (g: seq<real>)
    ensures |g| == if |ku| == 0 then 1 else |ku|
    ensures g[0] == 0.0
    ensures forall j {:trigger g[j + 1]} :: 0 <= j < |g| - 1 ==> g[j + 1] == g[j] + Panel(ku[j], ku[j + 1], h)
    decreases |ku|
  {
    if |ku| <= 1 then [0.0]
    else
      var p := TrapezoidTable(ku[..|ku| - 1], h);
      p + [p[|p| - 1] + Panel(ku[|ku| - 2], ku[|ku| - 1], h)]
  }

  /** The table is built by one running accumulator over the panels. */
  method CumulativeTable(ku: seq<real>, h: real) returns (g: seq<real>)
    ensures g == TrapezoidTable(ku, h)
  {
    g := [0.0];
    if |ku| == 0 {
      return;
    }
    var j := 1;
    while j < |ku|
      invariant 1 <= j <= |ku|
      invariant |g| == j && g == TrapezoidTable(ku[..j], h)
    {
      TableAppend(ku, j, h);
      g := g + [g[j - 1] + Panel(ku[j - 1], ku[j], h)];
      j := j + 1;
    }
    assert ku[..j] == ku;
  }

  /** Extending the samples by one extends the table by one panel. */
  lemma TableAppend(ku: seq<real>, j: nat, h: real)
    requires 1 <= j < |ku|
    ensures TrapezoidTable(ku[..j + 1], h) == TrapezoidTable(ku[..j], h) + [TrapezoidTable(ku[..j], h)[j - 1] + Panel(ku[j - 1], ku[j], h)]
  {
    var next := ku[..j + 1];
    assert next[..j] == ku[..j];
  }

  /** With non-negative samples and step the table never decreases. */
  lemma TableNonDecreasing(ku: seq<real>, h: real)
    requires h >= 0.0
    requires forall j :: 0 <= j < |ku| ==> ku[j] >= 0.0
    ensures NonDecreasing(TrapezoidTable(ku, h))
  {
    var g := TrapezoidTable(ku, h);
    forall i, j | 0 <= i <= j < |g| ensures g[i] <= g[j] {
      TableStep(g, ku, h, i, j);
    }
  }

  lemma {:induction false} TableStep(g: seq<real>, ku: seq<real>, h: real, i: nat, j: nat)
    requires g == TrapezoidTable(ku, h) && h >= 0.0
    requires forall k :: 0 <= k < |ku| ==> ku[k] >= 0.0
    requires i <= j < |g|
    ensures g[i] <= g[j]
    decreases j - i
  {
    if i < j {
      TableStep(g, ku, h, i + 1, j);
      assert g[i + 1] == g[i] + Panel(ku[i], ku[i + 1], h);
    }
  }

  /**
    A lookup table: the grid is uu[i] = lo + i*step for i < |g|, and g
    holds the antiderivative at those nodes.
   */
  datatype Table = Table(lo: real, step: real, g: seq<real>)

  predicate ValidTable(tab: Table)
  {
    tab.step > 0.0 && |tab.g| >= 1
  }

  /** The last grid node uu[-1]. */
  function Hi(tab: Table): real
  {
    tab.lo + ((|tab.g| - 1) as real) * tab.step
  }

  /** np.clip(t, lo, hi). */
  function Clip(t: real, lo: real, hi: real): (r: real)
    requires lo <= hi
    ensures lo <= r <= hi
    ensures lo <= t <= hi ==> r == t
    ensures t <= lo ==> r == lo
    ensures t >= hi ==> r == hi
  {
    Min(Max(t, lo), hi)
  }

  /** The fractional grid position (tt - uu[0]) / step of the clipped query. */
  function Position(tab: Table, t: real): (p: real)
    requires ValidTable(tab)
    ensures 0.0 <= p <= (|tab.g| - 1) as real
    ensures t <= tab.lo ==> p == 0.0
    ensures t >= Hi(tab) ==> p == (|tab.g| - 1) as real
  {
    var n1 := (|tab.g| - 1) as real;
    assert Hi(tab) >= tab.lo by { NonNegProduct(n1, tab.step); }
    var tt := Clip(t, tab.lo, Hi(tab));
    DivBounds(tt - tab.lo, n1, tab.step);
    (tt - tab.lo) / tab.step
  }

  lemma DivBounds(d: real, n1: real, step: real)
    requires step > 0.0 && 0.0 <= d <= n1 * step
    ensures 0.0 <= d / step <= n1
    ensures d == n1 * step ==> d / step == n1
  {
  }

  /** Linear interpolation between g[floor p] and g[min(floor p + 1, |g|-1)]. */
  function Interp(g: seq<real>, p: real): (r: real)
    requires |g| >= 1 && 0.0 <= p <= (|g| - 1) as real
    ensures var i0 := p.Floor; var i1 := if i0 + 1 < |g| - 1 then i0 + 1 else |g| - 1;
      0 <= i0 <= i1 < |g| &&
      Min(g[i0], g[i1]) <= r <= Max(g[i0], g[i1])
    ensures p == (p.Floor as real) ==> r == g[p.Floor]
  {
    var i0 := p.Floor;
    var i1 := if i0 + 1 < |g| - 1 then i0 + 1 else |g| - 1;
    var frac := p - i0 as real;
    BetweenEnds(g[i0], g[i1], frac);
    g[i0] + frac * (g[i1] - g[i0])
  }

  lemma BetweenEnds(a: real, b: real, f: real)
    requires 0.0 <= f <= 1.0
    ensures Min(a, b) <= a + f * (b - a) <= Max(a, b)
  {
    if a <= b {
      NonNegProduct(f, b - a);
      NonNegProduct(1.0 - f, b - a);
      assert b - (a + f * (b - a)) == (1.0 - f) * (b - a);
    } else {
      NonNegProduct(f, a - b);
      NonNegProduct(1.0 - f, a - b);
      assert a - (a + f * (b - a)) == f * (a - b);
      assert (a + f * (b - a)) - b == (1.0 - f) * (a - b);
    }
  }

  /** antideriv(t): clip into [uu[0], uu[-1]], bracket, interpolate. */
  function Antideriv(tab: Table, t: real): (r: real)
    requires ValidTable(tab)
    ensures t <= tab.lo ==> r == tab.g[0]
    ensures t >= Hi(tab) ==> r == tab.g[|tab.g| - 1]
  {
    Interp(tab.g, Position(tab, t))
  }

  /** The interpolated lookup of a non-decreasing table is monotone in the query. */
  lemma AntiderivMonotone(tab: Table, t1: real, t2: real)
    requires ValidTable(tab) && NonDecreasing(tab.g) && t1 <= t2
    ensures Antideriv(tab, t1) <= Antideriv(tab, t2)
  {
    PositionMonotone(tab, t1, t2);
    InterpMonotone(tab.g, Position(tab, t1), Position(tab, t2));
  }

  lemma PositionMonotone(tab: Table, t1: real, t2: real)
    requires ValidTable(tab) && t1 <= t2
    ensures Position(tab, t1) <= Position(tab, t2)
  {
    var n1 := (|tab.g| - 1) as real;
    assert Hi(tab) >= tab.lo by { NonNegProduct(n1, tab.step); }
    var a := Clip(t1, tab.lo, Hi(tab)) - tab.lo;
    var b := Clip(t2, tab.lo, Hi(tab)) - tab.lo;
    assert a <= b;
    DivMonotone(a, b, tab.step);
  }

  lemma InterpMonotone(g: seq<real>, p: real, q: real)
    requires |g| >= 1 && NonDecreasing(g)
    requires 0.0 <= p <= q <= (|g| - 1) as real
    ensures Interp(g, p) <= Interp(g, q)
  {
    var i, j := p.Floor, q.Floor;
    var ip := if i + 1 < |g| - 1 then i + 1 else |g| - 1;
    var jq := if j + 1 < |g| - 1 then j + 1 else |g| - 1;
    var fp, fq := p - i as real, q - j as real;
    if i == j {
      assert g[i] <= g[ip];
      assert fp <= fq;
      NonNegProduct(fq - fp, g[ip] - g[i]);
      assert fq * (g[ip] - g[i]) - fp * (g[ip] - g[i]) == (fq - fp) * (g[ip] - g[i]);
    } else {
      assert i < j;
      assert g[ip] <= g[j];
      assert Interp(g, p) <= g[ip];
      assert g[j] <= Interp(g, q);
    }
  }

  /** conv(x) = antideriv(x + beta) - antideriv(x - beta): chi_[-beta,beta] * K_Delta at x. */
  function Conv(tab: Table, x: real, beta: real): (r: real)
    requires ValidTable(tab)
  {
    Antideriv(tab, x + beta) - Antideriv(tab, x - beta)
  }

  /** The convolution of the indicator with a non-negative kernel is non-negative. */
  lemma ConvNonNegative(tab: Table, x: real, beta: real)
    requires ValidTable(tab) && NonDecreasing(tab.g) && beta >= 0.0
    ensures Conv(tab, x, beta) >= 0.0
  {
    AntiderivMonotone(tab, x - beta, x + beta);
  }

  /** The samples K_Delta(uu[i]). */
  function KernelSamples(uu: seq<real>, delta: real, eps: real, sin: real -> real): (ku: seq<real>)
    requires delta > 0.0 && eps > 0.0
    ensures |ku| == |uu|
    ensures forall i {:trigger ku[i]} :: 0 <= i < |uu| ==> ku[i] == KDelta(uu[i], delta, eps, sin) && ku[i] >= 0.0
  {
    seq(|uu|, i requires 0 <= i < |uu| => KDelta(uu[i], delta, eps, sin))
  }

  /**
    The table of antiderivative values of K_Delta on arange(-U, U + step, step),
    as a lookup table.
   */
  function KernelTable(u: real, step: real, delta: real, eps: real, sin: real -> real): (tab: Table)
    requires u > 0.0 && step > 0.0 && delta > 0.0 && eps > 0.0
    ensures ValidTable(tab) && NonDecreasing(tab.g)
    ensures tab.lo == -u && tab.step == step
    ensures |tab.g| == ArangeLength(-u, u + step, step)
  {
    var uu := Arange(-u, u + step, step);
    var ku := KernelSamples(uu, delta, eps, sin);
    TableNonDecreasing(ku, step);
    Table(-u, step, TrapezoidTable(ku, step))
  }

  /** The table KernelTable builds, spelled out. */
  lemma KernelTableUnfold(u: real, step: real, delta: real, eps: real, sin: real -> real)
    requires u > 0.0 && step > 0.0 && delta > 0.0 && eps > 0.0
    ensures KernelTable(u, step, delta, eps, sin)
      == Table(-u, step, TrapezoidTable(KernelSamples(Arange(-u, u + step, step), delta, eps, sin), step))
  {
  }
}
