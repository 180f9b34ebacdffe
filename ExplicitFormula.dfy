/**
  The explicit-formula side shared by explicit_compare_policy_param.py,
  explicit_compare_policy.py and explicit_adaptive_target.py: the sorted
  list of ordinates, the x grid, the sum over zeros truncated at a height T,
  and its prefix sums.  log, sqrt, cos, sin, exp and float() are parameters.
 */
module ExplicitFormula {
  import opened Numerics
  import opened Text
  import opened Sorting

  // ---------------------------------------------------------------------
  // read_gammas
  // ---------------------------------------------------------------------

  /** float() of every non-blank stripped line, in order; None at the first line float() rejects. */
  function LineValues(lines: seq<string>, Float: string -> Option<real>): (r: Option<seq<real>>)
  {
    if |lines| == 0 then Some([])
    else
      var rest := LineValues(lines[..|lines| - 1], Float);
      var s := Strip(lines[|lines| - 1]);
      if rest.None? then None
      else if |s| == 0 then rest
      else match Float(s)
        case None => None
        case Some(v) => Some(rest.value + [v])
  }

  /** A non-blank line that float() rejects. */
  predicate Rejected(line: string, Float: string -> Option<real>)
  {
    |Strip(line)| > 0 && Float(Strip(line)).None?
  }

  /** A failed read has a rejected line. */
  lemma {:induction false} FailHasRejected(lines: seq<string>, Float: string -> Option<real>)
    requires LineValues(lines, Float).None?
    ensures exists i :: 0 <= i < |lines| && Rejected(lines[i], Float)
  {
    var init := lines[..|lines| - 1];
    if LineValues(init, Float).None? {
      FailHasRejected(init, Float);
      var i :| 0 <= i < |init| && Rejected(init[i], Float);
      assert lines[i] == init[i];
    } else {
      assert Rejected(lines[|lines| - 1], Float);
    }
  }

  /** A rejected line fails the read. */
  lemma {:induction false} RejectedFails(lines: seq<string>, Float: string -> Option<real>, i: nat)
    requires i < |lines| && Rejected(lines[i], Float)
    ensures LineValues(lines, Float).None?
  {
    var init := lines[..|lines| - 1];
    if i < |init| {
      assert init[i] == lines[i];
      RejectedFails(init, Float, i);
    }
  }

  /** The values fail exactly when some non-blank line is not a number. */
  lemma LineValuesFail(lines: seq<string>, Float: string -> Option<real>)
    ensures LineValues(lines, Float).None? <==> exists i :: 0 <= i < |lines| && Rejected(lines[i], Float)
  {
    if LineValues(lines, Float).None? {
      FailHasRejected(lines, Float);
    }
    if exists i :: 0 <= i < |lines| && Rejected(lines[i], Float) {
      var i :| 0 <= i < |lines| && Rejected(lines[i], Float);
      RejectedFails(lines, Float, i);
    }
  }

  /** read_gammas: the values of the non-blank lines, sorted ascending; None when float() raises. */
  method ReadGammas(lines: seq<string>, Float: string -> Option<real>) returns (r: Option<seq<real>>)
    ensures r.None? <==> LineValues(lines, Float).None?
    ensures r.Some? ==> NonDecreasing(r.value) && multiset(r.value) == multiset(LineValues(lines, Float).value)
  {
    var gs: seq<real> := [];
    var i := 0;
    while i < |lines|
      invariant 0 <= i <= |lines|
      invariant LineValues(lines[..i], Float) == Some(gs)
    {
      assert lines[..i + 1][..i] == lines[..i];
      var s := Strip(lines[i]);
      if |s| > 0 {
        var v := Float(s);
        if v.None? {
          LineValuesStaysFailed(lines, i + 1, Float);
          return None;
        }
        gs := gs + [v.value];
      }
      i := i + 1;
    }
    assert lines[..|lines|] == lines;
    r := Some(Sort(gs));
  }

  /** Once a prefix of the lines fails, the whole file fails. */
  lemma {:induction false} LineValuesStaysFailed(lines: seq<string>, i: nat, Float: string -> Option<real>)
    requires i <= |lines| && LineValues(lines[..i], Float).None?
    ensures LineValues(lines, Float).None?
    decreases |lines| - i
  {
    if i < |lines| {
      assert lines[..i + 1][..i] == lines[..i];
      LineValuesStaysFailed(lines, i + 1, Float);
    } else {
      assert lines[..i] == lines;
    }
  }

  // ---------------------------------------------------------------------
  // The sum over zeros
  // ---------------------------------------------------------------------

  /** The term of one ordinate g at log x = l and sqrt x = sq: 2 sq (cos(g l)/2 + g sin(g l)) / (1/4 + g^2). */
  function ZeroTerm(g: real, l: real, sq: real, Cos: real -> real, Sin: real -> real): real
  {
    2.0 * sq * ((0.5 * Cos(g * l) + g * Sin(g * l)) / (0.25 + g * g))
  }

  /** The terms of a list of ordinates, summed left to right. */
  function SumTerms(gs: seq<real>, l: real, sq: real, Cos: real -> real, Sin: real -> real): real
  {
    if |gs| == 0 then 0.0
    else SumTerms(gs[..|gs| - 1], l, sq, Cos, Sin) + ZeroTerm(gs[|gs| - 1], l, sq, Cos, Sin)
  }

  /** log(2 pi) + log(1 - x^-2) / 2, the trivial-zero and constant part of the explicit formula. */
  function Tail(x: nat, Log: real -> real): real
    requires x >= 2
  {
    Log(2.0 * Pi) + 0.5 * Log(1.0 - 1.0 / ((x * x) as real))
  }

  /** The number of leading ordinates <= T: the loop breaks at the first g > T. */
  function CutIndex(gs: seq<real>, t: real): (k: nat)
    ensures k <= |gs|
    ensures forall i :: 0 <= i < k ==> gs[i] <= t
    ensures k < |gs| ==> gs[k] > t
  {
    if |gs| == 0 || gs[0] > t then 0 else 1 + CutIndex(gs[1..], t)
  }

  /** On a sorted list the cut keeps exactly the ordinates <= T. */
  lemma CutIndexSorted(gs: seq<real>, t: real)
    requires NonDecreasing(gs)
    ensures forall i :: 0 <= i < |gs| ==> (i < CutIndex(gs, t) <==> gs[i] <= t)
  {
    var k := CutIndex(gs, t);
    forall i | k <= i < |gs| ensures gs[i] > t {
      assert gs[k] <= gs[i];
    }
  }

  /** x - sum over the leading ordinates <= T - tail: the value psi_explicit_truncated returns. */
  function TruncatedPsi(x: nat, gs: seq<real>, t: real, Log: real -> real, Sqrt: real -> real, Cos: real -> real, Sin: real -> real): real
    requires x >= 2
  {
    x as real - SumTerms(gs[..CutIndex(gs, t)], Log(x as real), Sqrt(x as real), Cos, Sin) - Tail(x, Log)
  }

  /** psi_explicit_truncated: accumulate the terms until the first g > T. */
  method PsiExplicitTruncated(x: nat, gs: seq<real>, t: real, Log: real -> real, Sqrt: real -> real, Cos: real -> real, Sin: real -> real)
    returns (px: real)
    requires x >= 2
    ensures px == TruncatedPsi(x, gs, t, Log, Sqrt, Cos, Sin)
  {
    var l := Log(x as real);
    var sq := Sqrt(x as real);
    var s := 0.0;
    var i := 0;
    while i < |gs|
      invariant 0 <= i <= CutIndex(gs, t)
      invariant s == SumTerms(gs[..i], l, sq, Cos, Sin)
    {
      if gs[i] > t {
        break;
      }
      assert gs[..i + 1][..i] == gs[..i];
      s := s + ZeroTerm(gs[i], l, sq, Cos, Sin);
      i := i + 1;
    }
    px := x as real - s - Tail(x, Log);
  }

  /** With T at or above the last of a sorted list, every ordinate is used. */
  lemma CutIndexAll(gs: seq<real>, t: real)
    requires NonDecreasing(gs) && |gs| > 0 && gs[|gs| - 1] <= t
    ensures CutIndex(gs, t) == |gs|
  {
    CutIndexSorted(gs, t);
  }

  /** On a strictly increasing list, cutting at the k-th ordinate keeps k + 1 of them. */
  lemma CutIndexAtOrdinate(gs: seq<real>, k: nat)
    requires StrictlyIncreasing(gs) && k < |gs|
    ensures CutIndex(gs, gs[k]) == k + 1
  {
    CutIndexSorted(gs, gs[k]);
    if k + 1 < |gs| {
      assert gs[k] < gs[k + 1];
    }
  }

  // ---------------------------------------------------------------------
  // make_x_points
  // ---------------------------------------------------------------------

  /** max(lo, min(x, hi)): the clamp of a grid point. */
  function Clamp(x: int, lo: int, hi: int): (c: int)
    ensures c >= lo && (c <= hi || c == lo)
    ensures lo <= x <= hi ==> c == x
  {
    if x < hi then (if x < lo then lo else x) else (if hi < lo then lo else hi)
  }

  /** s without the elements equal to their predecessor in the output. */
  function DedupAdjacent(s: seq<int>): (d: seq<int>)
    ensures |d| <= |s| && (|s| > 0 ==> |d| > 0)
    ensures |s| > 0 ==> d[|d| - 1] == s[|s| - 1]
  {
    if |s| == 0 then []
    else
      var d := DedupAdjacent(s[..|s| - 1]);
      if |d| > 0 && d[|d| - 1] == s[|s| - 1] then d else d + [s[|s| - 1]]
  }

  predicate NoAdjacentRepeats(d: seq<int>)
  {
    forall i :: 0 < i < |d| ==> d[i - 1] != d[i]
  }

  /** No two neighbours of the output are equal, and it holds exactly the values of the input. */
  lemma {:induction false} DedupAdjacentSpec(s: seq<int>)
    ensures NoAdjacentRepeats(DedupAdjacent(s))
    ensures forall x :: x in DedupAdjacent(s) <==> x in s
  {
    if |s| > 0 {
      var init := s[..|s| - 1];
      DedupAdjacentSpec(init);
      assert s == init + [s[|s| - 1]];
    }
  }

  predicate IntNonDecreasing(s: seq<int>)
  {
    forall i, j :: 0 <= i <= j < |s| ==> s[i] <= s[j]
  }

  predicate IntIncreasing(s: seq<int>)
  {
    forall i, j :: 0 <= i < j < |s| ==> s[i] < s[j]
  }

  /** A non-decreasing list loses its repeats and comes out strictly increasing. */
  lemma {:induction false} DedupAdjacentIncreasing(s: seq<int>)
    requires IntNonDecreasing(s)
    ensures IntIncreasing(DedupAdjacent(s))
  {
    if |s| > 0 {
      var init := s[..|s| - 1];
      DedupAdjacentSpec(init);
      DedupAdjacentIncreasing(init);
      var d := DedupAdjacent(init);
      forall x | x in d ensures x <= s[|s| - 1] {
        var i :| 0 <= i < |init| && init[i] == x;
      }
    }
  }

  /** The clamped grid: point i is max(xmin, min(Raw(i), xmax)). */
  function ClampedGrid(k: nat, xmin: int, xmax: int, Raw: int -> int): (g: seq<int>)
    ensures |g| == k && forall i :: 0 <= i < k ==> g[i] == Clamp(Raw(i), xmin, xmax)
  {
    seq(k, i requires 0 <= i < k => Clamp(Raw(i), xmin, xmax))
  }

  /**
    make_x_points(xmax, k, xmin): one point max(xmin', xmax) when k <= 1,
    otherwise the k geometric grid points clamped into [xmin', xmax] with
    adjacent repeats dropped, where xmin' = max(2, xmin).  Raw(i) is
    int(round(exp(L0 + t_i (L1 - L0)))), the rounded grid point before the
    clamp.  None stands for the ValueError of log(xmax) when xmax <= 0.
   */
  method MakeXPoints(xmax: int, k: int, xmin: int, Raw: int -> int) returns (r: Option<seq<int>>)
    ensures r.None? <==> k > 1 && xmax <= 0
    ensures r.Some? ==> 1 <= |r.value| <= if k > 1 then k else 1
    ensures r.Some? ==> NoAdjacentRepeats(r.value)
    ensures r.Some? ==> forall i :: 0 <= i < |r.value| ==> Max2(xmin) <= r.value[i] && (r.value[i] <= xmax || r.value[i] == Max2(xmin))
    ensures r.Some? && k <= 1 ==> r.value == [if xmax > Max2(xmin) then xmax else Max2(xmin)]
    ensures r.Some? ==> ((forall i :: 0 <= i < |r.value| ==> r.value[i] <= xmax) <==> Max2(xmin) <= xmax)
    ensures r.Some? && k > 1 ==> r.value == DedupAdjacent(ClampedGrid(k, Max2(xmin), xmax, Raw))
  {
    var lo := Max2(xmin);
    if k <= 1 {
      var one := [if xmax > lo then xmax else lo];
      assert one[0] <= xmax <==> lo <= xmax;
      return Some(one);
    }
    if xmax <= 0 {
      return None;
    }
    var xs := ClampedPoints(k, lo, xmax, Raw);
    DedupAdjacentSpec(ClampedGrid(k, lo, xmax, Raw));
    ClampedPointsRange(k, lo, xmax, Raw);
    assert |xs| > 0 && lo <= xs[0];
    r := Some(xs);
  }

  /** The loop of make_x_points: each clamped grid point is appended unless it repeats the last one kept. */
  method ClampedPoints(k: nat, lo: int, xmax: int, Raw: int -> int) returns (xs: seq<int>)
    ensures xs == DedupAdjacent(ClampedGrid(k, lo, xmax, Raw))
  {
    xs := [];
    var i := 0;
    ghost var grid := ClampedGrid(k, lo, xmax, Raw);
    while i < k
      invariant 0 <= i <= k
      invariant xs == DedupAdjacent(grid[..i])
    {
      var x := Clamp(Raw(i), lo, xmax);
      assert grid[..i + 1] == grid[..i] + [x];
      xs := PushPoint(xs, grid[..i], x);
      i := i + 1;
    }
    assert grid[..k] == grid;
  }

  /** xs.append(x) unless x repeats the last point kept. */
  method PushPoint(xs: seq<int>, ghost seen: seq<int>, x: int) returns (xs': seq<int>)
    requires xs == DedupAdjacent(seen)
    ensures xs' == DedupAdjacent(seen + [x])
  {
    DedupAppend(seen, x);
    xs' := xs;
    if |xs| == 0 || x != xs[|xs| - 1] {
      xs' := xs + [x];
    }
  }

  /** One more input element: dropped when it repeats the last output element, appended otherwise. */
  lemma DedupAppend(s: seq<int>, x: int)
    ensures var d := DedupAdjacent(s);
      DedupAdjacent(s + [x]) == if |d| > 0 && d[|d| - 1] == x then d else d + [x]
  {
    assert (s + [x])[..|s|] == s;
  }

  /** Every x point is at least 2, and at most xmax unless it is the lower end itself. */
  lemma ClampedPointsRange(k: nat, lo: int, xmax: int, Raw: int -> int)
    requires lo >= 2
    ensures var d := DedupAdjacent(ClampedGrid(k, lo, xmax, Raw));
      forall j :: 0 <= j < |d| ==> lo <= d[j] && (d[j] <= xmax || d[j] == lo)
  {
    var g := ClampedGrid(k, lo, xmax, Raw);
    var d := DedupAdjacent(g);
    DedupAdjacentSpec(g);
    forall j | 0 <= j < |d| ensures lo <= d[j] && (d[j] <= xmax || d[j] == lo) {
      assert d[j] in d;
      assert d[j] in g;
    }
  }

  /** max(2, int(xmin)). */
  function Max2(xmin: int): (m: int)
    ensures m >= 2 && m >= xmin && (m == 2 || m == xmin)
  {
    if xmin > 2 then xmin else 2
  }

  /** A non-decreasing raw grid gives strictly increasing x points. */
  lemma XPointsIncreasing(k: nat, xmin: int, xmax: int, Raw: int -> int)
    requires forall i, j :: 0 <= i <= j < k ==> Raw(i) <= Raw(j)
    ensures IntIncreasing(DedupAdjacent(ClampedGrid(k, Max2(xmin), xmax, Raw)))
  {
    var g := ClampedGrid(k, Max2(xmin), xmax, Raw);
    assert IntNonDecreasing(g);
    DedupAdjacentIncreasing(g);
  }

  // ---------------------------------------------------------------------
  // explicit_adaptive_target: prefix sums and the choice of k
  // ---------------------------------------------------------------------

  /** The prefix sums S_0, ..., S_{n-1} of the terms: S_i sums the terms of the first i + 1 ordinates. */
  function Prefixes(gs: seq<real>, l: real, sq: real, Cos: real -> real, Sin: real -> real): (pref: seq<real>)
    ensures |pref| == |gs|
  {
    seq(|gs|, i requires 0 <= i < |gs| => SumTerms(gs[..i + 1], l, sq, Cos, Sin))
  }

  /** Consecutive prefix sums differ by exactly one term, and the first is the first term. */
  lemma PrefixesStep(gs: seq<real>, l: real, sq: real, Cos: real -> real, Sin: real -> real, i: nat)
    requires i < |gs|
    ensures Prefixes(gs, l, sq, Cos, Sin)[i] ==
      (if i == 0 then 0.0 else Prefixes(gs, l, sq, Cos, Sin)[i - 1]) + ZeroTerm(gs[i], l, sq, Cos, Sin)
  {
    assert gs[..i + 1][..i] == gs[..i];
    assert gs[..i + 1][i] == gs[i];
    if i == 0 {
      assert SumTerms(gs[..0], l, sq, Cos, Sin) == 0.0;
    }
  }

  /** explicit_terms_for_x: the terms of every ordinate, then their running sums. */
  method ExplicitTermsForX(x: nat, gs: seq<real>, Log: real -> real, Sqrt: real -> real, Cos: real -> real, Sin: real -> real)
    returns (pref: seq<real>)
    ensures pref == Prefixes(gs, Log(x as real), Sqrt(x as real), Cos, Sin)
  {
    var l := Log(x as real);
    var sq := Sqrt(x as real);
    var terms: seq<real> := [];
    for i := 0 to |gs|
      invariant |terms| == i
      invariant forall j :: 0 <= j < i ==> terms[j] == ZeroTerm(gs[j], l, sq, Cos, Sin)
    {
      terms := terms + [ZeroTerm(gs[i], l, sq, Cos, Sin)];
    }
    pref := [];
    var acc := 0.0;
    for i := 0 to |terms|
      invariant |pref| == i
      invariant acc == SumTerms(gs[..i], l, sq, Cos, Sin)
      invariant forall j :: 0 <= j < i ==> pref[j] == SumTerms(gs[..j + 1], l, sq, Cos, Sin)
    {
      assert gs[..i + 1][..i] == gs[..i];
      acc := acc + terms[i];
      pref := pref + [acc];
    }
  }

  /** psi_explicit_from_prefix: x - S_k - tail, with S_{-1} = 0 (no ordinate used). */
  function PsiFromPrefix(x: nat, pref: seq<real>, k: int, Log: real -> real): real
    requires x >= 2 && -1 <= k < |pref|
  {
    x as real - (if k >= 0 then pref[k] else 0.0) - Tail(x, Log)
  }

  /**
    Reading the prefix sums at index k is the truncated formula at T = gs[k]
    (at T = 0 for k = -1 when every ordinate is positive): the adaptive
    search and the fixed-T scripts evaluate the same quantity.
   */
  lemma PrefixIsTruncation(x: nat, gs: seq<real>, k: int, Log: real -> real, Sqrt: real -> real, Cos: real -> real, Sin: real -> real)
    requires x >= 2 && -1 <= k < |gs| && StrictlyIncreasing(gs)
    requires k == -1 ==> forall i :: 0 <= i < |gs| ==> gs[i] > 0.0
    ensures PsiFromPrefix(x, Prefixes(gs, Log(x as real), Sqrt(x as real), Cos, Sin), k, Log)
         == TruncatedPsi(x, gs, if k >= 0 then gs[k] else 0.0, Log, Sqrt, Cos, Sin)
  {
    if k >= 0 {
      CutIndexAtOrdinate(gs, k);
    } else {
      assert CutIndex(gs, 0.0) == 0 by {
        if |gs| > 0 {
          assert gs[0] > 0.0;
        }
      }
      assert gs[..0] == [];
    }
  }

  /** |rem| / (sqrt(x) log(x)^2), or 0 when that denominator is not positive. */
  function Ratio(rem: real, denom: real): (q: real)
    ensures q >= 0.0
  {
    if denom > 0.0 then Abs(rem) / denom else 0.0
  }

  /** With a positive denominator the ratio scales back to the size of the remainder. */
  lemma RatioScales(rem: real, denom: real)
    requires denom > 0.0
    ensures Ratio(rem, denom) * denom == Abs(rem)
  {
  }

  function Denom(x: nat, Log: real -> real, Sqrt: real -> real): real
  {
    Sqrt(x as real) * (Log(x as real) * Log(x as real))
  }

  /** Using the ordinates up to index k meets the target ratio at x. */
  predicate Meets(x: nat, pe: real, pref: seq<real>, k: int, target: real, Log: real -> real, Sqrt: real -> real)
    requires x >= 2 && -1 <= k < |pref|
  {
    Ratio(pe - PsiFromPrefix(x, pref, k, Log), Denom(x, Log, Sqrt)) <= target
  }

  /**
    Once the target is met at index k or later, using one more ordinate keeps
    meeting it: the condition under which the binary search finds the least k.
   */
  predicate MeetsMonotone(x: nat, pe: real, pref: seq<real>, target: real, Log: real -> real, Sqrt: real -> real, k: int)
    requires x >= 2 && -1 <= k <= |pref| - 1
    decreases |pref| - k
  {
    k == |pref| - 1 ||
    ((Meets(x, pe, pref, k, target, Log, Sqrt) ==> Meets(x, pe, pref, k + 1, target, Log, Sqrt)) &&
     MeetsMonotone(x, pe, pref, target, Log, Sqrt, k + 1))
  }

  /** Step-by-step monotonicity gives it between any two indices. */
  lemma {:induction false} MeetsMonotoneSpec(x: nat, pe: real, pref: seq<real>, target: real, Log: real -> real, Sqrt: real -> real, k: int)
    requires x >= 2 && -1 <= k <= |pref| - 1
    requires MeetsMonotone(x, pe, pref, target, Log, Sqrt, k)
    ensures forall i, j :: k <= i <= j < |pref| && Meets(x, pe, pref, i, target, Log, Sqrt) ==> Meets(x, pe, pref, j, target, Log, Sqrt)
    decreases |pref| - k
  {
    if k < |pref| - 1 {
      MeetsMonotoneSpec(x, pe, pref, target, Log, Sqrt, k + 1);
    }
  }

  /**
    The reference the binary search is measured against: a linear scan from
    index k for the first index that meets the target, or the last index
    when none does.
   */
  function FirstMeeting(x: nat, pe: real, pref: seq<real>, target: real, Log: real -> real, Sqrt: real -> real, k: int): (r: int)
    requires x >= 2 && -1 <= k <= |pref| - 1
    ensures k <= r <= |pref| - 1
    decreases |pref| - k
  {
    if k == |pref| - 1 || Meets(x, pe, pref, k, target, Log, Sqrt) then k
    else FirstMeeting(x, pe, pref, target, Log, Sqrt, k + 1)
  }

  /** The scan returns an index that meets the target (or the last one), and no earlier index meets it. */
  lemma {:induction false} FirstMeetingLeast(x: nat, pe: real, pref: seq<real>, target: real, Log: real -> real, Sqrt: real -> real, k: int)
    requires x >= 2 && -1 <= k <= |pref| - 1
    ensures var r := FirstMeeting(x, pe, pref, target, Log, Sqrt, k);
      (r == |pref| - 1 || Meets(x, pe, pref, r, target, Log, Sqrt)) &&
      forall j :: k <= j < r ==> !Meets(x, pe, pref, j, target, Log, Sqrt)
    decreases |pref| - k
  {
    if !(k == |pref| - 1 || Meets(x, pe, pref, k, target, Log, Sqrt)) {
      FirstMeetingLeast(x, pe, pref, target, Log, Sqrt, k + 1);
    }
  }

  /** An index that meets the target (or is the last), with no earlier meeting index from k on, is what the scan finds. */
  lemma {:induction false} FirstMeetingIs(x: nat, pe: real, pref: seq<real>, target: real, Log: real -> real, Sqrt: real -> real, k: int, r: int)
    requires x >= 2 && -1 <= k <= r <= |pref| - 1
    requires r == |pref| - 1 || Meets(x, pe, pref, r, target, Log, Sqrt)
    requires forall j :: k <= j < r ==> !Meets(x, pe, pref, j, target, Log, Sqrt)
    ensures FirstMeeting(x, pe, pref, target, Log, Sqrt, k) == r
    decreases r - k
  {
    if k < r {
      FirstMeetingIs(x, pe, pref, target, Log, Sqrt, k + 1, r);
    }
  }

  /** One probe of the binary search. */
  method Probe(x: nat, pe: real, pref: seq<real>, k: int, target: real, Log: real -> real, Sqrt: real -> real) returns (b: bool)
    requires x >= 2 && -1 <= k < |pref|
    ensures b == Meets(x, pe, pref, k, target, Log, Sqrt)
  {
    var px := PsiFromPrefix(x, pref, k, Log);
    var rem := pe - px;
    var ratio := Ratio(rem, Denom(x, Log, Sqrt));
    b := ratio <= target;
  }

  /**
    The binary search of explicit_adaptive_target over k in -1 .. n - 1:
    the result is -1 .. n - 1, meets the target unless it is the last index,
    and, when meeting the target is monotone in k, it is the least k that
    meets it.
   */
  method ChooseK(x: nat, pe: real, pref: seq<real>, target: real, Log: real -> real, Sqrt: real -> real) returns (bestK: int)
    requires x >= 2
    ensures -1 <= bestK <= |pref| - 1
    ensures bestK == |pref| - 1 || Meets(x, pe, pref, bestK, target, Log, Sqrt)
    ensures MeetsMonotone(x, pe, pref, target, Log, Sqrt, -1) ==> bestK == FirstMeeting(x, pe, pref, target, Log, Sqrt, -1)
  {
    var lo, hi := -1, |pref| - 1;
    bestK := hi;
    while lo < hi
      invariant -1 <= lo <= hi <= |pref| - 1 && bestK == hi
      invariant hi == |pref| - 1 || Meets(x, pe, pref, hi, target, Log, Sqrt)
      invariant MeetsMonotone(x, pe, pref, target, Log, Sqrt, -1) ==>
        forall k :: -1 <= k < lo ==> !Meets(x, pe, pref, k, target, Log, Sqrt)
      decreases hi - lo
    {
      var mid := (lo + hi) / 2;
      var ok := Probe(x, pe, pref, mid, target, Log, Sqrt);
      if ok {
        bestK, hi := mid, mid;
      } else {
        if MeetsMonotone(x, pe, pref, target, Log, Sqrt, -1) {
          MeetsMonotoneSpec(x, pe, pref, target, Log, Sqrt, -1);
        }
        lo := mid + 1;
      }
    }
    if MeetsMonotone(x, pe, pref, target, Log, Sqrt, -1) {
      FirstMeetingIs(x, pe, pref, target, Log, Sqrt, -1, bestK);
    }
  }

  /** One output row: psi(x), the explicit value, the chosen height T (the last ordinate used, 0 when none) and the number of ordinates used. */
  datatype Row = Row(pe: real, px: real, rem: real, ratio: real, t: real, count: nat)

  /**
    One row of explicit_adaptive_target for the point x, reading pe = psi[x]
    from the exact table psi; None is the IndexError of a point past the
    table's end.
   */
  method AdaptiveRow(x: nat, psi: seq<real>, gs: seq<real>, target: real, Log: real -> real, Sqrt: real -> real, Cos: real -> real, Sin: real -> real)
    returns (r: Option<Row>)
    requires x >= 2
    ensures r.None? <==> x >= |psi|
    ensures r.Some? ==> r.value.pe == psi[x]
    ensures r.Some? ==> r.value.count <= |gs|
    ensures r.Some? && r.value.count == 0 ==> r.value.t == 0.0
    ensures r.Some? && r.value.count > 0 ==> r.value.t == gs[r.value.count - 1]
    ensures r.Some? ==> r.value.px == PsiFromPrefix(x, Prefixes(gs, Log(x as real), Sqrt(x as real), Cos, Sin), r.value.count - 1, Log)
    ensures r.Some? ==> r.value.rem == r.value.pe - r.value.px && r.value.ratio == Ratio(r.value.rem, Denom(x, Log, Sqrt))
    ensures r.Some? ==> r.value.count == |gs| || r.value.ratio <= target
    ensures r.Some? && StrictlyIncreasing(gs) && (r.value.count > 0 || forall i :: 0 <= i < |gs| ==> gs[i] > 0.0) ==>
      r.value.px == TruncatedPsi(x, gs, r.value.t, Log, Sqrt, Cos, Sin)
  {
    if x >= |psi| {
      return None;
    }
    var pe := psi[x];
    var pref := ExplicitTermsForX(x, gs, Log, Sqrt, Cos, Sin);
    var k := ChooseK(x, pe, pref, target, Log, Sqrt);
    var px := PsiFromPrefix(x, pref, k, Log);
    var rem := pe - px;
    var ratio := Ratio(rem, Denom(x, Log, Sqrt));
    var t := if k >= 0 then gs[k] else 0.0;
    var row := Row(pe, px, rem, ratio, t, k + 1);
    RowIsTruncation(x, gs, row, Log, Sqrt, Cos, Sin);
    r := Some(row);
  }

  /** A row read off the prefix sums is the truncated formula at its height. */
  lemma RowIsTruncation(x: nat, gs: seq<real>, row: Row, Log: real -> real, Sqrt: real -> real, Cos: real -> real, Sin: real -> real)
    requires x >= 2 && row.count <= |gs|
    requires row.count == 0 ==> row.t == 0.0
    requires row.count > 0 ==> row.t == gs[row.count - 1]
    requires row.px == PsiFromPrefix(x, Prefixes(gs, Log(x as real), Sqrt(x as real), Cos, Sin), row.count - 1, Log)
    ensures StrictlyIncreasing(gs) && (row.count > 0 || forall i :: 0 <= i < |gs| ==> gs[i] > 0.0) ==>
      row.px == TruncatedPsi(x, gs, row.t, Log, Sqrt, Cos, Sin)
  {
    if StrictlyIncreasing(gs) && (row.count > 0 || forall i :: 0 <= i < |gs| ==> gs[i] > 0.0) {
      PrefixIsTruncation(x, gs, row.count - 1, Log, Sqrt, Cos, Sin);
    }
  }

  // ---------------------------------------------------------------------
  // Choice of the height T in the two compare scripts
  // ---------------------------------------------------------------------

  /** `if gammas and T > gammas[-1]: T = gammas[-1]`. */
  function ClampToLast(t: real, gs: seq<real>): (r: real)
    ensures r <= t && (r == t || (|gs| > 0 && r == gs[|gs| - 1]))
    ensures |gs| > 0 ==> r <= gs[|gs| - 1]
    ensures |gs| > 0 && t <= gs[|gs| - 1] ==> r == t
  {
    if |gs| > 0 && t > gs[|gs| - 1] then gs[|gs| - 1] else t
  }

  /** The b1/b2 policy of explicit_compare_policy_param, before the clamp. */
  function ParamRawT(x: nat, b1: int, b2: int, tMinLow: real, tMid: real, tHigh: real, Sqrt: real -> real): real
  {
    if x < b1 then Max(tMinLow, Sqrt(x as real))
    else if x < b2 then tMid
    else tHigh
  }

  /** The height used by explicit_compare_policy_param at x. */
  function ParamT(x: nat, b1: int, b2: int, tMinLow: real, tMid: real, tHigh: real, gs: seq<real>, Sqrt: real -> real): real
  {
    ClampToLast(ParamRawT(x, b1, b2, tMinLow, tMid, tHigh, Sqrt), gs)
  }

  /** The --T_mode choices of explicit_compare_policy. */
  datatype TMode = Constant | SqrtX | Policy

  /** The height used by explicit_compare_policy at x. */
  function ModeT(mode: TMode, x: nat, tConst: real, tMin: real, gs: seq<real>, Sqrt: real -> real): real
  {
    var t := match mode
      case Constant => tConst
      case SqrtX => Max(tMin, Sqrt(x as real))
      case Policy =>
        if x < 500 then Max(700.0, Sqrt(x as real))
        else if x < 3000 then 2000.0
        else 5000.0;
    ClampToLast(t, gs)
  }

  /** The T used is never above the last ordinate, in any mode and under any parameters. */
  lemma TNeverAboveLast(mode: TMode, x: nat, tConst: real, tMin: real, b1: int, b2: int, tMinLow: real, tMid: real, tHigh: real, gs: seq<real>, Sqrt: real -> real)
    requires |gs| > 0
    ensures ModeT(mode, x, tConst, tMin, gs, Sqrt) <= gs[|gs| - 1]
    ensures ParamT(x, b1, b2, tMinLow, tMid, tHigh, gs, Sqrt) <= gs[|gs| - 1]
  {
  }

  /** The fixed "policy" mode is the parametric policy at its default parameters 500, 3000, 700, 2000, 5000. */
  lemma PolicyIsDefaultParam(x: nat, tConst: real, tMin: real, gs: seq<real>, Sqrt: real -> real)
    ensures ModeT(Policy, x, tConst, tMin, gs, Sqrt) == ParamT(x, 500, 3000, 700.0, 2000.0, 5000.0, gs, Sqrt)
  {
  }

  /** Clamping T to the last ordinate never changes which ordinates a sorted list contributes. */
  lemma ClampKeepsCut(t: real, gs: seq<real>)
    requires NonDecreasing(gs)
    ensures CutIndex(gs, ClampToLast(t, gs)) == CutIndex(gs, t)
  {
    if |gs| > 0 && t > gs[|gs| - 1] {
      CutIndexAll(gs, gs[|gs| - 1]);
      CutIndexAll(gs, t);
    }
  }

  /** Raising T never drops an ordinate from a sorted list. */
  lemma CutIndexMonotone(gs: seq<real>, t: real, t': real)
    requires NonDecreasing(gs) && t <= t'
    ensures CutIndex(gs, t) <= CutIndex(gs, t')
  {
    CutIndexSorted(gs, t);
    CutIndexSorted(gs, t');
    var k := CutIndex(gs, t);
    if k > 0 {
      assert gs[k - 1] <= t';
    }
  }

  /**
    With tMinLow <= tMid <= tHigh, b1 <= b2, sqrt non-decreasing and
    sqrt(x) <= tMid below b1, the parametric height is non-decreasing in x,
    so the later points of the grid use at least as many ordinates.
   */
  lemma ParamTMonotone(x: nat, y: nat, b1: int, b2: int, tMinLow: real, tMid: real, tHigh: real, gs: seq<real>, Sqrt: real -> real)
    requires x <= y && b1 <= b2 && tMinLow <= tMid <= tHigh
    requires Sqrt(x as real) <= Sqrt(y as real)
    requires y < b1 || Sqrt(x as real) <= tMid
    ensures ParamT(x, b1, b2, tMinLow, tMid, tHigh, gs, Sqrt) <= ParamT(y, b1, b2, tMinLow, tMid, tHigh, gs, Sqrt)
  {
  }

  /** One row of a compare script: psi(x), the truncated formula, its remainder and its ratio. */
  datatype Compared = Compared(pe: real, px: real, rem: real, ratio: real)

  /**
    One row of a compare script at height T, reading pe = psi[x] from the
    exact table psi; None is the IndexError of a point past the table's end.
   */
  method CompareRow(x: nat, psi: seq<real>, gs: seq<real>, t: real, Log: real -> real, Sqrt: real -> real, Cos: real -> real, Sin: real -> real)
    returns (r: Option<Compared>)
    requires x >= 2
    ensures r.None? <==> x >= |psi|
    ensures r.Some? ==> r.value.pe == psi[x]
    ensures r.Some? ==> r.value.px == TruncatedPsi(x, gs, t, Log, Sqrt, Cos, Sin)
    ensures r.Some? ==> r.value.rem == r.value.pe - r.value.px && r.value.ratio >= 0.0
    ensures r.Some? && Denom(x, Log, Sqrt) > 0.0 ==> r.value.ratio * Denom(x, Log, Sqrt) == Abs(r.value.rem)
  {
    if x >= |psi| {
      return None;
    }
    var pe := psi[x];
    var px := PsiExplicitTruncated(x, gs, t, Log, Sqrt, Cos, Sin);
    var rem := pe - px;
    var ratio := Ratio(rem, Denom(x, Log, Sqrt));
    if Denom(x, Log, Sqrt) > 0.0 {
      RatioScales(rem, Denom(x, Log, Sqrt));
    }
    r := Some(Compared(pe, px, rem, ratio));
  }
}
