/**
  Shared numeric vocabulary of the sandwich engine and the helper scripts.

  NumPy's vectorised primitives (np.min, np.argmin, np.linspace,
  np.trapezoid, np.maximum, boolean masks) are modelled here once, over
  exact reals.  Transcendental functions are never given bodies: every
  member that needs sin, cos, log, sqrt or exp takes it as a parameter.
 */
module Numerics {

  datatype Option<T> = None | Some(value: T)

  datatype Result<T, E> = Ok(value: T) | Err(error: E)

  /** The grid check shared by the three sandwich scripts: a side is ok when its minimum gap is at least -1e-12. */
  const OkTolerance: real := 0.000000000001

  /** The double nearest to pi, as Python's math.pi and NumPy's np.pi. */
  const Pi: real := 3.141592653589793

  function Abs(x: real): (r: real)
    ensures r >= 0.0 && (r == x || r == -x)
  {
    if x < 0.0 then -x else x
  }

  /** Python's max(a, b) on two reals. */
  function Max(a: real, b: real): (r: real)
    ensures r >= a && r >= b && (r == a || r == b)
  {
    if b > a then b else a
  }

  /** Python's min(a, b) on two reals. */
  function Min(a: real, b: real): (r: real)
    ensures r <= a && r <= b && (r == a || r == b)
  {
    if b < a then b else a
  }

  function Sq(x: real): (r: real)
    ensures r >= 0.0
  {
    x * x
  }

  /** np.min of a non-empty vector. */
  function MinOf(s: seq<real>): (m: real)
    requires |s| > 0
    ensures forall i :: 0 <= i < |s| ==> m <= s[i]
  {
    if |s| == 1 then s[0] else Min(s[0], MinOf(s[1..]))
  }

  /** The minimum is one of the samples. */
  lemma MinOfIn(s: seq<real>)
    requires |s| > 0
    ensures MinOf(s) in s
  {
    assert s[ArgMin(s)] == MinOf(s);
  }

  /** np.argmin: the FIRST index holding the minimum. */
  function ArgMin(s: seq<real>): (k: nat)
    requires |s| > 0
    ensures k < |s| && s[k] == MinOf(s)
    ensures forall j :: 0 <= j < k ==> s[j] > s[k]
  {
    if |s| == 1 then 0
    else
      var t := ArgMin(s[1..]);
      if s[0] <= s[1..][t] then 0 else t + 1
  }

  /** The vector s + c (a scalar added to every sample). */
  function Shift(s: seq<real>, c: real): (r: seq<real>)
    ensures |r| == |s| && forall i :: 0 <= i < |s| ==> r[i] == s[i] + c
  {
    seq(|s|, i requires 0 <= i < |s| => s[i] + c)
  }

  /** The vector a - b. */
  function Sub(a: seq<real>, b: seq<real>): (r: seq<real>)
    requires |a| == |b|
    ensures |r| == |a| && forall i {:trigger r[i]} :: 0 <= i < |a| ==> r[i] == a[i] - b[i]
  {
    seq(|a|, i requires 0 <= i < |a| => a[i] - b[i])
  }

  /** np.maximum(s, 0.0). */
  function PositivePart(s: seq<real>): (r: seq<real>)
    ensures |r| == |s|
    ensures forall i :: 0 <= i < |s| ==> r[i] >= 0.0 && r[i] >= s[i] && (r[i] == s[i] || r[i] == 0.0)
  {
    seq(|s|, i requires 0 <= i < |s| => Max(s[i], 0.0))
  }

  /** Adding a constant to every sample moves the minimum by that constant. */
  lemma MinOfShift(s: seq<real>, c: real)
    requires |s| > 0
    ensures MinOf(Shift(s, c)) == MinOf(s) + c
  {
    var m, m' := MinOf(s), MinOf(Shift(s, c));
    var i := ArgMin(s);
    var j := ArgMin(Shift(s, c));
    assert m' <= Shift(s, c)[i];
  }

  /** The product of two non-negative reals is non-negative. */
  lemma NonNegProduct(a: real, b: real)
    requires a >= 0.0 && b >= 0.0
    ensures a * b >= 0.0
  {
  }

  /** Dividing by a positive real keeps the order. */
  lemma DivMonotone(a: real, b: real, d: real)
    requires a <= b && d > 0.0
    ensures a / d <= b / d
  {
  }

  /** Multiplying by a non-zero real and dividing by it again gives the value back. */
  lemma MulDivCancel(d: real, w: real)
    requires d != 0.0
    ensures (d * w) / d == w
  {
  }

  lemma ReciprocalPositive(d: real)
    requires d > 0.0
    ensures 1.0 / d > 0.0
  {
  }

  predicate NonDecreasing(s: seq<real>)
  {
    forall i, j :: 0 <= i <= j < |s| ==> s[i] <= s[j]
  }

  predicate StrictlyIncreasing(s: seq<real>)
  {
    forall i, j :: 0 <= i < j < |s| ==> s[i] < s[j]
  }

  /** Sample i of np.linspace(lo, hi, n) for n >= 2: lo + i (hi - lo) / (n - 1). */
  function LinPoint(lo: real, hi: real, n: nat, i: nat): real
    requires n >= 2
  {
    lo + (i as real) * (hi - lo) / ((n - 1) as real)
  }

  /** np.linspace(lo, hi, n) over exact reals: n evenly spaced samples, both ends included. */
  function Linspace(lo: real, hi: real, n: nat): (xs: seq<real>)
    ensures |xs| == n
    ensures n >= 1 ==> xs[0] == lo
    ensures n >= 2 ==> xs[n - 1] == hi
    ensures n >= 2 ==> forall i {:trigger xs[i]} :: 0 <= i < n ==> xs[i] == LinPoint(lo, hi, n, i)
  {
    if n == 0 then []
    else if n == 1 then [lo]
    else
      LinPointLast(lo, hi, n);
      seq(n, i requires 0 <= i < n => LinPoint(lo, hi, n, i))
  }

  /** The last sample is the upper end. */
  lemma LinPointLast(lo: real, hi: real, n: nat)
    requires n >= 2
    ensures LinPoint(lo, hi, n, n - 1) == hi
  {
    var d := (n - 1) as real;
    MulDivCancel(d, hi - lo);
    assert LinPoint(lo, hi, n, n - 1) == lo + (d * (hi - lo)) / d;
  }

  /** Later samples of an increasing range are no smaller. */
  lemma LinPointMonotone(lo: real, hi: real, n: nat, i: nat, j: nat)
    requires lo <= hi && n >= 2 && i <= j
    ensures LinPoint(lo, hi, n, i) <= LinPoint(lo, hi, n, j)
  {
    var w := hi - lo;
    NonNegProduct((j - i) as real, w);
    assert (j as real) * w - (i as real) * w == ((j - i) as real) * w;
    DivMonotone((i as real) * w, (j as real) * w, (n - 1) as real);
  }

  lemma LinspaceNonDecreasing(lo: real, hi: real, n: nat)
    requires lo <= hi
    ensures NonDecreasing(Linspace(lo, hi, n))
  {
    if n >= 2 {
      var xs := Linspace(lo, hi, n);
      forall i, j | 0 <= i <= j < n ensures xs[i] <= xs[j] {
        LinPointMonotone(lo, hi, n, i, j);
      }
    }
  }

  /** The sampled indicator of the closed interval [-beta, beta]: ((xs>=-beta)&(xs<=beta)).astype(float). */
  function Indicator(xs: seq<real>, beta: real): (chi: seq<real>)
    ensures |chi| == |xs|
    ensures forall i :: 0 <= i < |xs| ==>
      (chi[i] == 1.0 <==> -beta <= xs[i] <= beta) && (chi[i] == 0.0 <==> !(-beta <= xs[i] <= beta))
  {
    seq(|xs|, i requires 0 <= i < |xs| => if -beta <= xs[i] && xs[i] <= beta then 1.0 else 0.0)
  }

  /** np.trapezoid(y, x): the sum of (x[i+1]-x[i]) * (y[i]+y[i+1]) / 2. */
  function Trapezoid(y: seq<real>, x: seq<real>): real
    requires |y| == |x|
    decreases |y|
  {
    if |y| < 2 then 0.0
    else (x[1] - x[0]) * (y[0] + y[1]) / 2.0 + Trapezoid(y[1..], x[1..])
  }

  /** The trapezoid rule is non-negative on a non-negative integrand over a non-decreasing grid. */
  lemma {:induction false} TrapezoidNonNegative(y: seq<real>, x: seq<real>)
    requires |y| == |x|
    requires NonDecreasing(x)
    requires forall i :: 0 <= i < |y| ==> y[i] >= 0.0
    ensures Trapezoid(y, x) >= 0.0
    decreases |y|
  {
    if |y| >= 2 {
      assert x[0] <= x[1];
      var w, h := x[1] - x[0], y[0] + y[1];
      assert w >= 0.0 && h >= 0.0;
      assert w * h >= 0.0;
      TrapezoidNonNegative(y[1..], x[1..]);
    }
  }

  /** The trapezoid rule is additive in the integrand. */
  lemma {:induction false} TrapezoidAdditive(y: seq<real>, z: seq<real>, x: seq<real>)
    requires |y| == |z| == |x|
    ensures Trapezoid(seq(|y|, i requires 0 <= i < |y| => y[i] + z[i]), x) == Trapezoid(y, x) + Trapezoid(z, x)
    decreases |y|
  {
    var s := seq(|y|, i requires 0 <= i < |y| => y[i] + z[i]);
    if |y| >= 2 {
      var s' := seq(|y| - 1, i requires 0 <= i < |y| - 1 => y[1..][i] + z[1..][i]);
      assert s[1..] == s';
      TrapezoidAdditive(y[1..], z[1..], x[1..]);
      var w := x[1] - x[0];
      assert w * (s[0] + s[1]) / 2.0 == w * (y[0] + y[1]) / 2.0 + w * (z[0] + z[1]) / 2.0;
    }
  }

  /** The grid L1 error of one side of a sandwich: the trapezoid integral of max(gap, 0) over the grid, never negative. */
  function GridL1(gap: seq<real>, xs: seq<real>): (e: real)
    requires |gap| == |xs| && NonDecreasing(xs)
    ensures e == Trapezoid(PositivePart(gap), xs)
    ensures e >= 0.0
  {
    TrapezoidNonNegative(PositivePart(gap), xs);
    Trapezoid(PositivePart(gap), xs)
  }

  /** Python's round(r) to an integer: ties go to the even neighbour. */
  function RoundHalfEven(r: real): (n: int)
    ensures Abs(r - n as real) <= 0.5
    ensures Abs(r - n as real) == 0.5 ==> n % 2 == 0
  {
    var f := r.Floor;
    var d := r - f as real;
    if d < 0.5 then f
    else if d > 0.5 then f + 1
    else if f % 2 == 0 then f else f + 1
  }

  /** NumPy's ceil, for the length of np.arange. */
  function Ceil(r: real): (c: int)
    ensures c as real >= r && (c as real) - 1.0 < r
  {
    -((-r).Floor)
  }
}
