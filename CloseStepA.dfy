/**
  close_stepA.py outside the zeta'/zeta scan: the ordinate reader, the
  loading of a folder of ordinate files into a sorted, de-duplicated list,
  the height T0 and X0 = T0^2, the sum C0' over the ordinates, the
  geometric scan of the Vinogradov-Korobov bound F from X0 upwards, and the
  assembly of the final constants.  The kernel constant A3, the function F
  and sqrt are parameters.
 */
module CloseStepA {
  import opened Numerics
  import opened Text
  import opened Sorting

  // ---------------------------------------------------------------------
  // parse_gamma_from_line
  // ---------------------------------------------------------------------

  /** The range an ordinate must lie in to be read from a line: 10 <= v <= 1e14. */
  predicate Plausible(v: real)
  {
    10.0 <= v <= 100000000000000.0
  }

  /** The values of a line that lie in the plausible range, in order. */
  function Candidates(vals: seq<real>): (c: seq<real>)
    ensures forall v :: v in c <==> v in vals && Plausible(v)
  {
    if |vals| == 0 then []
    else
      var c := Candidates(vals[..|vals| - 1]);
      assert vals == vals[..|vals| - 1] + [vals[|vals| - 1]];
      if Plausible(vals[|vals| - 1]) then c + [vals[|vals| - 1]] else c
  }

  /** A stripped line that is blank or a comment. */
  predicate Skipped(s: string)
  {
    |s| == 0 || StartsWith(s, "#") || StartsWith(s, "//")
  }

  /**
    The ordinate of one line: the least numeric token of the stripped line
    that lies in [10, 1e14]; None for a blank line, a comment, or a line
    without such a token.
   */
  function ParseGammaFromLine(line: string): (r: Option<real>)
    ensures r.None? <==> Skipped(Strip(line)) || forall v :: v in ParseNums(Strip(line)) ==> !Plausible(v)
    ensures r.Some? ==> Plausible(r.value) && r.value in ParseNums(Strip(line))
    ensures r.Some? ==> forall v :: v in ParseNums(Strip(line)) && Plausible(v) ==> r.value <= v
  {
    var s := Strip(line);
    if Skipped(s) then None
    else
      var cand := Candidates(ParseNums(s));
      if |cand| == 0 then None
      else
        MinOfIn(cand);
        Some(MinOf(cand))
  }

  /** A line holding only the digits of a plausible whole ordinate reads back as that ordinate. */
  lemma ParseGammaOfNatural(n: nat)
    requires 10 <= n <= 100000000000000
    ensures ParseGammaFromLine(DecimalString(n)) == Some(n as real)
  {
    var ds := DecimalString(n);
    StripTrimmed(ds);
    assert !Skipped(ds) by {
      assert IsDigit(ds[0]);
    }
    ParseNumsOfNatural(n);
    assert Candidates([n as real]) == [n as real] by {
      assert [n as real][..0] == [];
    }
  }

  // ---------------------------------------------------------------------
  // load_gammas
  // ---------------------------------------------------------------------

  const Scale12: real := 1000000000000.0

  /** round(g, 12): g on the grid of 1e-12, ties to even. */
  function Round12(g: real): (r: real)
    ensures (r * Scale12).Floor as real == r * Scale12
    ensures Abs(r - g) <= 0.5 / Scale12
    ensures Abs(r - g) == 0.5 / Scale12 ==> (r * Scale12).Floor % 2 == 0
  {
    var n := RoundHalfEven(g * Scale12);
    assert (n as real / Scale12) * Scale12 == n as real;
    assert Abs(n as real / Scale12 - g) == Abs(n as real - g * Scale12) / Scale12;
    n as real / Scale12
  }

  /** Rounding twice is rounding once. */
  lemma Round12Idempotent(g: real)
    ensures Round12(Round12(g)) == Round12(g)
  {
    var n := RoundHalfEven(g * Scale12);
    assert Round12(g) * Scale12 == n as real;
    assert (n as real).Floor == n;
  }

  /** Rounding keeps a plausible ordinate at least 10. */
  lemma Round12AtLeastTen(g: real)
    requires g >= 10.0
    ensures Round12(g) >= 10.0
  {
    var n := RoundHalfEven(g * Scale12);
    assert n as real >= g * Scale12 - 0.5;
    assert n >= 10000000000000;
  }

  /** A directory entry: its name, whether it is a regular file, and its lines. */
  datatype Entry = Entry(name: string, isFile: bool, lines: seq<string>)

  /** The files read: regular files whose lower-cased name does not contain "hash". */
  predicate Loaded(e: Entry)
  {
    e.isFile && !Contains(Lower(e.name), "hash")
  }

  /** The ordinate a line contributes, unless it has none or it lies above the cap. */
  function KeptValue(line: string, tcap: Option<real>): (r: Option<real>)
    ensures r.Some? ==> r.value >= 10.0 && (tcap.Some? ==> r.value <= tcap.value)
  {
    match ParseGammaFromLine(line)
    case None => None
    case Some(g) => if tcap.Some? && g > tcap.value then None else Some(g)
  }

  /** The value each line contributes, line by line. */
  function KeptValues(lines: seq<string>, tcap: Option<real>): (vs: seq<Option<real>>)
    ensures |vs| == |lines| && forall j :: 0 <= j < |lines| ==> vs[j] == KeptValue(lines[j], tcap)
  {
    seq(|lines|, j requires 0 <= j < |lines| => KeptValue(lines[j], tcap))
  }

  /** The rounded values of a list of contributions. */
  function SeenOf(vs: seq<Option<real>>): set<real>
  {
    if |vs| == 0 then {}
    else
      var v := vs[|vs| - 1];
      SeenOf(vs[..|vs| - 1]) + (if v.Some? then {Round12(v.value)} else {})
  }

  /** The rounded ordinates of a file's lines. */
  function LinesSeen(lines: seq<string>, tcap: Option<real>): set<real>
  {
    SeenOf(KeptValues(lines, tcap))
  }

  /** The rounded ordinates of each file, empty for the files that are not read. */
  function FileSets(es: seq<Entry>, tcap: Option<real>): (ss: seq<set<real>>)
    ensures |ss| == |es| && forall i :: 0 <= i < |es| ==> ss[i] == if Loaded(es[i]) then LinesSeen(es[i].lines, tcap) else {}
  {
    seq(|es|, i requires 0 <= i < |es| => if Loaded(es[i]) then LinesSeen(es[i].lines, tcap) else {})
  }

  function UnionOf(ss: seq<set<real>>): set<real>
  {
    if |ss| == 0 then {} else UnionOf(ss[..|ss| - 1]) + ss[|ss| - 1]
  }

  /** The rounded ordinates of every loaded file. */
  function EntriesSeen(es: seq<Entry>, tcap: Option<real>): set<real>
  {
    UnionOf(FileSets(es, tcap))
  }

  lemma {:induction false} UnionOfMembers(ss: seq<set<real>>, x: real)
    ensures x in UnionOf(ss) <==> exists i :: 0 <= i < |ss| && x in ss[i]
  {
    if |ss| > 0 {
      var init := ss[..|ss| - 1];
      UnionOfMembers(init, x);
      if exists i :: 0 <= i < |init| && x in init[i] {
        var i :| 0 <= i < |init| && x in init[i];
        assert ss[i] == init[i];
      }
      if exists i :: 0 <= i < |ss| && x in ss[i] {
        var i :| 0 <= i < |ss| && x in ss[i];
        if i < |init| {
          assert init[i] == ss[i];
        }
      }
    }
  }

  /** A value is among the rounded contributions exactly when some contribution rounds to it. */
  lemma {:induction false} SeenOfMembers(vs: seq<Option<real>>, x: real)
    ensures x in SeenOf(vs) <==> exists j :: 0 <= j < |vs| && vs[j].Some? && x == Round12(vs[j].value)
  {
    if |vs| > 0 {
      var init := vs[..|vs| - 1];
      SeenOfMembers(init, x);
      if exists j :: 0 <= j < |init| && init[j].Some? && x == Round12(init[j].value) {
        var j :| 0 <= j < |init| && init[j].Some? && x == Round12(init[j].value);
        assert vs[j] == init[j];
      }
      if exists j :: 0 <= j < |vs| && vs[j].Some? && x == Round12(vs[j].value) {
        var j :| 0 <= j < |vs| && vs[j].Some? && x == Round12(vs[j].value);
        if j < |init| {
          assert init[j] == vs[j];
        }
      }
    }
  }

  /** A value is seen in a file exactly when some line of it contributes an ordinate that rounds to it. */
  lemma LinesSeenMembers(lines: seq<string>, tcap: Option<real>, x: real)
    ensures x in LinesSeen(lines, tcap) <==>
      exists j :: 0 <= j < |lines| && KeptValue(lines[j], tcap).Some? && x == Round12(KeptValue(lines[j], tcap).value)
  {
    var vs := KeptValues(lines, tcap);
    SeenOfMembers(vs, x);
    if x in LinesSeen(lines, tcap) {
      var j :| 0 <= j < |vs| && vs[j].Some? && x == Round12(vs[j].value);
      assert KeptValue(lines[j], tcap) == vs[j];
    }
    if exists j :: 0 <= j < |lines| && KeptValue(lines[j], tcap).Some? && x == Round12(KeptValue(lines[j], tcap).value) {
      var j :| 0 <= j < |lines| && KeptValue(lines[j], tcap).Some? && x == Round12(KeptValue(lines[j], tcap).value);
      assert vs[j] == KeptValue(lines[j], tcap);
    }
  }

  /** A value is seen in the folder exactly when it is seen in some loaded file. */
  lemma EntriesSeenMembers(es: seq<Entry>, tcap: Option<real>, x: real)
    ensures x in EntriesSeen(es, tcap) <==> exists i :: 0 <= i < |es| && Loaded(es[i]) && x in LinesSeen(es[i].lines, tcap)
  {
    var ss := FileSets(es, tcap);
    UnionOfMembers(ss, x);
    if x in EntriesSeen(es, tcap) {
      var i :| 0 <= i < |ss| && x in ss[i];
      assert Loaded(es[i]);
    }
  }

  /** Every seen value is at least 10. */
  lemma {:induction false} SeenAtLeastTen(es: seq<Entry>, tcap: Option<real>, x: real)
    requires x in EntriesSeen(es, tcap)
    ensures x >= 10.0
  {
    EntriesSeenMembers(es, tcap, x);
    var i :| 0 <= i < |es| && Loaded(es[i]) && x in LinesSeen(es[i].lines, tcap);
    LinesSeenMembers(es[i].lines, tcap, x);
    var j :| 0 <= j < |es[i].lines| && KeptValue(es[i].lines[j], tcap).Some? && x == Round12(KeptValue(es[i].lines[j], tcap).value);
    Round12AtLeastTen(KeptValue(es[i].lines[j], tcap).value);
  }

  /** One line: its ordinate, dropped when it lies above the cap. */
  method ReadLine(line: string, tcap: Option<real>) returns (v: Option<real>)
    ensures v == KeptValue(line, tcap)
  {
    var g := ParseGammaFromLine(line);
    if g.None? || (tcap.Some? && g.value > tcap.value) {
      return None;
    }
    v := g;
  }

  /** The lines of one file, each adding its rounded ordinate to the set. */
  method ReadLines(lines: seq<string>, tcap: Option<real>, seen0: set<real>) returns (seen: set<real>)
    ensures seen == seen0 + LinesSeen(lines, tcap)
  {
    seen := seen0;
    ghost var vs := KeptValues(lines, tcap);
    for j := 0 to |lines|
      invariant seen == seen0 + SeenOf(vs[..j])
    {
      assert vs[..j + 1][..j] == vs[..j];
      var v := ReadLine(lines[j], tcap);
      if v.Some? {
        seen := seen + {Round12(v.value)};
      }
    }
    assert vs[..|vs|] == vs;
  }

  /**
    load_gammas: the set of rounded ordinates of every line of every loaded
    file, listed in increasing order.
   */
  method LoadGammas(es: seq<Entry>, tcap: Option<real>) returns (gs: seq<real>)
    ensures gs == SortSet(EntriesSeen(es, tcap))
    ensures StrictlyIncreasing(gs) && forall x :: x in gs <==> x in EntriesSeen(es, tcap)
    ensures forall i :: 0 <= i < |gs| ==> gs[i] >= 10.0
  {
    var seen: set<real> := {};
    ghost var ss := FileSets(es, tcap);
    for i := 0 to |es|
      invariant seen == UnionOf(ss[..i])
    {
      assert ss[..i + 1][..i] == ss[..i];
      var e := es[i];
      if e.isFile && !Contains(Lower(e.name), "hash") {
        seen := ReadLines(e.lines, tcap, seen);
      }
    }
    assert ss[..|ss|] == ss;
    gs := SortSet(seen);
    forall i | 0 <= i < |gs| ensures gs[i] >= 10.0 {
      assert gs[i] in gs;
      SeenAtLeastTen(es, tcap, gs[i]);
    }
  }

  /** Rounding is stable on the loaded list: every loaded value is already on the 1e-12 grid. */
  lemma LoadedOnGrid(es: seq<Entry>, tcap: Option<real>, x: real)
    requires x in EntriesSeen(es, tcap)
    ensures Round12(x) == x
  {
    EntriesSeenMembers(es, tcap, x);
    var i :| 0 <= i < |es| && Loaded(es[i]) && x in LinesSeen(es[i].lines, tcap);
    LinesSeenMembers(es[i].lines, tcap, x);
    var j :| 0 <= j < |es[i].lines| && KeptValue(es[i].lines[j], tcap).Some? && x == Round12(KeptValue(es[i].lines[j], tcap).value);
    Round12Idempotent(KeptValue(es[i].lines[j], tcap).value);
  }

  // ---------------------------------------------------------------------
  // C0', T0 and X0
  // ---------------------------------------------------------------------

  /** The double nearest to log 2. */
  const Ln2: real := 0.6931471805599453

  /** S1: the sum of 1/|rho| = 1/sqrt(1/4 + g^2) over the ordinates. */
  function InvRhoSum(gs: seq<real>, Sqrt: real -> real): real
  {
    if |gs| == 0 then 0.0
    else
      var rho := Sqrt(0.25 + gs[|gs| - 1] * gs[|gs| - 1]);
      InvRhoSum(gs[..|gs| - 1], Sqrt) + (if rho != 0.0 then 1.0 / rho else 0.0)
  }

  /** C0' = S1 / (log 2)^2, or 0 without ordinates. */
  function C0Prime(gs: seq<real>, Sqrt: real -> real): real
  {
    if |gs| > 0 then InvRhoSum(gs, Sqrt) / (Ln2 * Ln2) else 0.0
  }

  /** With a positive square root, S1 and so C0' are never negative. */
  lemma {:induction false} InvRhoSumNonNegative(gs: seq<real>, Sqrt: real -> real)
    requires forall y :: y > 0.0 ==> Sqrt(y) > 0.0
    ensures InvRhoSum(gs, Sqrt) >= 0.0 && C0Prime(gs, Sqrt) >= 0.0
  {
    if |gs| > 0 {
      var g := gs[|gs| - 1];
      InvRhoSumNonNegative(gs[..|gs| - 1], Sqrt);
      assert Sqrt(0.25 + g * g) > 0.0;
      ReciprocalPositive(Sqrt(0.25 + g * g));
    }
  }

  /** T0: the largest ordinate, or 0 without ordinates. */
  function T0(gs: seq<real>): real
  {
    if |gs| > 0 then gs[|gs| - 1] else 0.0
  }

  /** X0 = T0^2 when T0 > 0, else 0. */
  function X0(t0: real): (x: real)
    ensures x >= 0.0
  {
    if t0 > 0.0 then t0 * t0 else 0.0
  }

  /** On the loaded list, T0 bounds every ordinate, and a non-empty list gives T0 >= 10 and X0 >= 100. */
  lemma T0Bounds(gs: seq<real>)
    requires StrictlyIncreasing(gs) && forall i :: 0 <= i < |gs| ==> gs[i] >= 10.0
    ensures forall i :: 0 <= i < |gs| ==> gs[i] <= T0(gs)
    ensures |gs| > 0 ==> T0(gs) >= 10.0 && X0(T0(gs)) >= 100.0
    ensures |gs| == 0 <==> X0(T0(gs)) == 0.0
  {
    if |gs| > 0 {
      var t := T0(gs);
      assert t >= 10.0;
      assert t * t >= 10.0 * t;
    }
  }

  // ---------------------------------------------------------------------
  // max_from_X0
  // ---------------------------------------------------------------------

  /** The j-th point of the scan: start multiplied j times by r. */
  function ScanPoint(start: real, r: real, j: nat): (x: real)
    ensures start > 0.0 && r >= 1.0 ==> x >= start
  {
    if j == 0 then start else ScanPoint(start, r, j - 1) * r
  }

  /** The first point of the scan, max(X0, x1 or X0): an x1 of None or 0 falls back to X0. */
  function ScanStart(x0: real, x1: Option<real>): (s: real)
    ensures s >= x0
    ensures x1.Some? && x1.value != 0.0 ==> s == Max(x0, x1.value)
  {
    Max(x0, if x1.Some? && x1.value != 0.0 then x1.value else x0)
  }

  /** The scan stops at point j: after `steps` multiplications, or once the point reaches xcap. */
  predicate ScanStops(start: real, r: real, j: nat, steps: nat, xcap: Option<real>)
  {
    j >= steps || (xcap.Some? && ScanPoint(start, r, j) >= xcap.value)
  }

  /**
    max_from_X0: None when X0 <= 0; otherwise the scan visits the points
    start * r^j for j = 0 .. n, where n is the first index at which the scan
    stops, and returns the largest value of F on them with the first point
    that attains it.
   */
  method MaxFromX0(x0: real, F: real -> real, r: real, steps: nat, xcap: Option<real>, x1: Option<real>)
    returns (res: Option<(real, real)>, ghost n: nat, ghost jBest: nat)
    ensures res.None? <==> x0 <= 0.0
    ensures res.Some? ==> n <= steps && ScanStops(ScanStart(x0, x1), r, n, steps, xcap)
    ensures res.Some? ==> forall j :: 0 <= j < n ==> !ScanStops(ScanStart(x0, x1), r, j, steps, xcap)
    ensures res.Some? ==> jBest <= n && res.value.1 == ScanPoint(ScanStart(x0, x1), r, jBest) && res.value.0 == F(res.value.1)
    ensures res.Some? ==> forall j :: 0 <= j <= n ==> F(ScanPoint(ScanStart(x0, x1), r, j)) <= res.value.0
    ensures res.Some? ==> forall j :: 0 <= j < jBest ==> F(ScanPoint(ScanStart(x0, x1), r, j)) < res.value.0
  {
    if x0 <= 0.0 {
      return None, 0, 0;
    }
    var start := ScanStart(x0, x1);
    var x := start;
    var best := F(x);
    var xbest := x;
    var k: nat := 0;
    jBest := 0;
    while true
      invariant k <= steps
      invariant x == ScanPoint(start, r, k)
      invariant forall j :: 0 <= j < k ==> !ScanStops(start, r, j, steps, xcap)
      invariant jBest <= k && xbest == ScanPoint(start, r, jBest) && best == F(xbest)
      invariant forall j :: 0 <= j <= k ==> F(ScanPoint(start, r, j)) <= best
      invariant forall j :: 0 <= j < jBest ==> F(ScanPoint(start, r, j)) < best
      decreases steps - k
    {
      if k >= steps {
        break;
      }
      if xcap.Some? && x >= xcap.value {
        break;
      }
      assert !ScanStops(start, r, k, steps, xcap);
      x := x * r;
      k := k + 1;
      assert x == ScanPoint(start, r, k);
      var v := F(x);
      if v > best {
        best, xbest := v, x;
        jBest := k;
      }
    }
    n := k;
    res := Some((best, xbest));
  }

  // ---------------------------------------------------------------------
  // The final constants
  // ---------------------------------------------------------------------

  /** The margin added to the largest of the three constants. */
  const Margin: real := 0.000000000001

  /** 1/(4 pi), the leading constant of the lower range. */
  const QuarterInvPi: real := 1.0 / (4.0 * Pi)

  datatype Constants = Constants(cR: real, cBajo: real, cEmpalme: real, cTot: real)

  /** `C_alto or 0.0`. */
  function OrZero(c: Option<real>): real
  {
    if c.Some? then c.value else 0.0
  }

  /**
    C_R = max(0, A3 - 1/(4 pi)), C_bajo = 1/(4 pi) + C0' + C_R,
    C_empalme = max(C_bajo, F(X0)) (C_bajo without X0) and
    C_tot = max(C_bajo, C_alto or 0, C_empalme) + 1e-12, over exact reals
    (in doubles the margin vanishes once the maximum reaches 2^14).
   */
  function Assemble(a3: real, c0p: real, cAlto: Option<real>, fX0: Option<real>): (c: Constants)
    ensures c.cR >= 0.0 && c.cR >= a3 - QuarterInvPi && (c.cR == 0.0 || c.cR == a3 - QuarterInvPi)
    ensures c.cBajo == QuarterInvPi + c0p + c.cR
    ensures c.cEmpalme >= c.cBajo && (fX0.Some? ==> c.cEmpalme >= fX0.value)
    ensures c.cEmpalme == c.cBajo || (fX0.Some? && c.cEmpalme == fX0.value)
    ensures c.cTot > c.cBajo && c.cTot > c.cEmpalme && c.cTot > OrZero(cAlto)
    ensures c.cTot - Margin == c.cBajo || c.cTot - Margin == OrZero(cAlto) || c.cTot - Margin == c.cEmpalme
  {
    var cR := Max(0.0, a3 - QuarterInvPi);
    var cBajo := QuarterInvPi + c0p + cR;
    var cEmpalme := if fX0.Some? then Max(cBajo, fX0.value) else cBajo;
    Constants(cR, cBajo, cEmpalme, Max(Max(cBajo, OrZero(cAlto)), cEmpalme) + Margin)
  }

  /** With C0' >= 0, every constant is positive. */
  lemma ConstantsPositive(a3: real, c0p: real, cAlto: Option<real>, fX0: Option<real>)
    requires c0p >= 0.0
    ensures Assemble(a3, c0p, cAlto, fX0).cBajo >= QuarterInvPi > 0.0
    ensures Assemble(a3, c0p, cAlto, fX0).cTot > QuarterInvPi
  {
  }

  /** The growth factor and the step budget of the scan as the script calls it. */
  const ScanRatio: real := 1.05
  const ScanSteps: nat := 2000

  /** The fallback for x1 when the Vinogradov-Korobov file gives none. */
  const DefaultX1: real := 1000000.0

  /** x1 from the Vinogradov-Korobov file, 1e6 when it gives none. */
  function X1Of(vkX1: Option<real>): real
  {
    if vkX1.Some? then vkX1.value else DefaultX1
  }

  /**
    The constant part of close_stepA: load the ordinates, take T0 and X0,
    scan F from X0 and assemble the constants.  C_tot bounds F, with the
    margin, at X0 and at every point of the scan.
   */
  method CloseConstants(es: seq<Entry>, a3: real, F: real -> real, Sqrt: real -> real, xcap: Option<real>, vkX1: Option<real>)
    returns (gs: seq<real>, x0: real, cAlto: Option<real>, c: Constants, ghost n: nat)
    ensures StrictlyIncreasing(gs) && forall x :: x in gs <==> x in EntriesSeen(es, None)
    ensures x0 == X0(T0(gs)) && (|gs| == 0 <==> x0 == 0.0)
    ensures cAlto.Some? <==> x0 > 0.0
    ensures c == Assemble(a3, C0Prime(gs, Sqrt), cAlto, if x0 > 0.0 then Some(F(x0)) else None)
    ensures x0 > 0.0 ==> c.cTot > F(x0)
    ensures x0 > 0.0 ==> forall j :: 0 <= j <= n ==> F(ScanPoint(ScanStart(x0, Some(X1Of(vkX1))), ScanRatio, j)) < c.cTot
  {
    gs := LoadGammas(es, None);
    T0Bounds(gs);
    var c0p := C0Prime(gs, Sqrt);
    x0 := X0(T0(gs));
    var res: Option<(real, real)>;
    ghost var jBest: nat;
    res, n, jBest := MaxFromX0(x0, F, ScanRatio, ScanSteps, xcap, Some(X1Of(vkX1)));
    cAlto := if res.Some? then Some(res.value.0) else None;
    var fX0 := if x0 > 0.0 then Some(F(x0)) else None;
    c := Assemble(a3, c0p, cAlto, fX0);
  }
}
