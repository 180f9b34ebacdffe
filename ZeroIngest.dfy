/**
  The zero-ordinate ingestion of prepare_lmfdb_zeros.py: recognising
  HTML gate pages, reading an md5 manifest, reading the height out of a
  file name, picking the first ordinate of a file, following the file
  line by line while keeping the ordinates strictly increasing with
  bounded steps, and merging the per-file lists.

  A file is the sequence of its lines; Decimal values are exact reals.
 */
module ZeroIngest {

  import opened Numerics
  import opened Text

  // ---------------------------------------------------------------------
  // HTML gate pages
  // ---------------------------------------------------------------------

  /** The number of hint strings. */
  const HintCount: nat := 10

  /** The hint strings, in the source's order; the second one holds upper-case letters. */
  function HtmlHint(k: nat): (h: string)
    requires k < HintCount
    ensures |h| > 0
  {
    match k
    case 0 => "<!doctype html"
    case 1 => "<!DOCTYPE html"
    case 2 => "<html"
    case 3 => "cloudflare"
    case 4 => "captcha"
    case 5 => "please enable javascript"
    case 6 => "access denied"
    case 7 => "verifying you are human"
    case 8 => "<title>lmfdb"
    case _ => "beta.lmfdb.org"
  }

  /** any(h in low for h in hints[k:]). */
  function AnyHintFrom(low: string, k: nat): (b: bool)
    requires k <= HintCount
    ensures b <==> exists j :: k <= j < HintCount && Occurs(low, HtmlHint(j))
    decreases HintCount - k
  {
    if k == HintCount then false
    else Contains(low, HtmlHint(k)) || AnyHintFrom(low, k + 1)
  }

  /** A line is a gate page when its lower-cased text contains one of the hints. */
  function DetectHtmlGate(s: string): (b: bool)
    ensures b <==> exists k :: 0 <= k < HintCount && Occurs(Lower(s), HtmlHint(k))
  {
    AnyHintFrom(Lower(s), 0)
  }

  /** The upper-case doctype hint can never fire: it is only ever compared with lower-cased text. */
  lemma UpperDoctypeHintNeverFires(s: string)
    ensures !Occurs(Lower(s), HtmlHint(1))
  {
    UpperNeverInLower(s, HtmlHint(1), 2);
  }

  /** The gate test does not depend on letter case. */
  lemma HtmlGateIgnoresCase(s: string)
    ensures DetectHtmlGate(Lower(s)) == DetectHtmlGate(s)
  {
    LowerIdempotent(s);
  }

  // ---------------------------------------------------------------------
  // md5 manifest
  // ---------------------------------------------------------------------

  datatype Md5Entry = Md5Entry(name: string, md5: string)

  /**
    One stripped manifest line: blank lines, lines starting with '#' or
    ';' and lines with fewer than two tokens are skipped; the md5 is the
    first token.
   */
  function Md5Parse(line: string): (e: Option<Md5Entry>)
    ensures e.Some? <==> |line| > 0 && line[0] != '#' && line[0] != ';' && |Split(line)| >= 2
    ensures e.Some? ==> e.value.md5 == Split(line)[0] && |e.value.md5| > 0 && NoSpace(e.value.md5)
    ensures e.Some? && Find(line, '*') < 0 ==> e.value.name == Split(line)[|Split(line)| - 1]
    ensures e.Some? && Find(line, '*') >= 0 ==> e.value.name == Strip(line[Find(line, '*') + 1..])
    ensures e.Some? && |e.value.name| > 0 ==> !IsSpace(e.value.name[0]) && !IsSpace(e.value.name[|e.value.name| - 1])
  {
    if |line| == 0 || line[0] == '#' || line[0] == ';' then None
    else
      var parts := Split(line);
      if |parts| < 2 then None
      else Some(Md5Entry(Md5Name(line, Find(line, '*'), parts), parts[0]))
  }

  /**
    The file name of a manifest line whose first '*' is at index star (-1
    when there is none): the stripped text after the star, or else the last
    token.
   */
  function Md5Name(line: string, star: int, parts: seq<string>): (name: string)
    requires -1 <= star < |line| && |parts| > 0 && NoSpace(parts[|parts| - 1])
    ensures star < 0 ==> name == parts[|parts| - 1]
    ensures star >= 0 ==> name == Strip(line[star + 1..])
    ensures |name| > 0 ==> !IsSpace(name[0]) && !IsSpace(name[|name| - 1])
  {
    if star >= 0 then Strip(line[star + 1..]) else parts[|parts| - 1]
  }

  /** A raw manifest line, stripped first. */
  function Md5Line(raw: string): Option<Md5Entry>
  {
    Md5Parse(Strip(raw))
  }

  /** The parsed form of every manifest line, in order. */
  function Md5Entries(lines: seq<string>): (es: seq<Option<Md5Entry>>)
    ensures |es| == |lines|
  {
    seq(|lines|, i requires 0 <= i < |lines| => Md5Line(lines[i]))
  }

  /** Parsed manifest lines folded into a map: a later entry for the same name overwrites an earlier one. */
  function MapOf(es: seq<Option<Md5Entry>>): map<string, string>
  {
    if |es| == 0 then map[]
    else
      var m := MapOf(es[..|es| - 1]);
      match es[|es| - 1]
      case None => m
      case Some(e) => m[e.name := e.md5]
  }

  /** The manifest after reading the given lines in order. */
  function Md5Map(lines: seq<string>): map<string, string>
  {
    MapOf(Md5Entries(lines))
  }

  /** load_md5 over the lines of a manifest. */
  method LoadMd5(lines: seq<string>) returns (m: map<string, string>)
    ensures m == Md5Map(lines)
  {
    ghost var es := Md5Entries(lines);
    m := map[];
    var i := 0;
    while i < |lines|
      invariant 0 <= i <= |lines|
      invariant m == MapOf(es[..i])
    {
      assert es[..i + 1][..i] == es[..i];
      assert es[i] == Md5Line(lines[i]);
      match Md5Line(lines[i]) {
        case None =>
        case Some(e) => m := m[e.name := e.md5];
      }
      i := i + 1;
    }
    assert es[..|lines|] == es;
  }

  lemma {:induction false} MapOfLastWins(es: seq<Option<Md5Entry>>, j: nat, e: Md5Entry)
    requires j < |es| && es[j] == Some(e)
    requires forall k :: j < k < |es| ==> es[k].None? || es[k].value.name != e.name
    ensures e.name in MapOf(es) && MapOf(es)[e.name] == e.md5
    decreases |es|
  {
    var init := es[..|es| - 1];
    if j < |es| - 1 {
      assert forall k :: j < k < |init| ==> init[k] == es[k];
      MapOfLastWins(init, j, e);
    }
  }

  /** The last line naming a file decides its md5. */
  lemma Md5LastWins(lines: seq<string>, j: nat, e: Md5Entry)
    requires j < |lines| && Md5Line(lines[j]) == Some(e)
    requires forall k :: j < k < |lines| ==> Md5Line(lines[k]).None? || Md5Line(lines[k]).value.name != e.name
    ensures e.name in Md5Map(lines) && Md5Map(lines)[e.name] == e.md5
  {
    var es := Md5Entries(lines);
    forall k | j < k < |es| ensures es[k].None? || es[k].value.name != e.name {
      assert es[k] == Md5Line(lines[k]);
    }
    MapOfLastWins(es, j, e);
  }

  lemma {:induction false} MapOfKeys(es: seq<Option<Md5Entry>>, name: string)
    requires name in MapOf(es)
    ensures exists j :: 0 <= j < |es| && es[j] == Some(Md5Entry(name, MapOf(es)[name]))
    decreases |es|
  {
    var init := es[..|es| - 1];
    var last := es[|es| - 1];
    if last.Some? && last.value.name == name {
      assert es[|es| - 1] == Some(Md5Entry(name, MapOf(es)[name]));
    } else {
      MapOfKeys(init, name);
      var j :| 0 <= j < |init| && init[j] == Some(Md5Entry(name, MapOf(init)[name]));
      assert es[j] == init[j];
    }
  }

  /** Every name in the manifest map comes from a manifest line carrying that md5. */
  lemma Md5KeysFromLines(lines: seq<string>, name: string)
    requires name in Md5Map(lines)
    ensures exists j :: 0 <= j < |lines| && Md5Line(lines[j]) == Some(Md5Entry(name, Md5Map(lines)[name]))
  {
    var es := Md5Entries(lines);
    MapOfKeys(es, name);
    var j :| 0 <= j < |es| && es[j] == Some(Md5Entry(name, MapOf(es)[name]));
    assert Md5Line(lines[j]) == es[j];
  }

  // ---------------------------------------------------------------------
  // File-name height
  // ---------------------------------------------------------------------

  /** fn ends in "zeros_<digits>.dat" with "zeros_" starting at k and at least one digit. */
  predicate HeightMatchAt(fn: string, k: int)
  {
    0 <= k && k + 6 < |fn| - 4 && fn[k..k + 6] == "zeros_" && fn[|fn| - 4..] == ".dat"
    && AllDigits(fn[k + 6..|fn| - 4])
  }

  /** The start of the run of digits that ends just before index j. */
  function DigitRunBack(s: string, j: nat): (q: nat)
    requires j <= |s|
    ensures q <= j && AllDigits(s[q..j])
    ensures q > 0 ==> !IsDigit(s[q - 1])
  {
    if j == 0 || !IsDigit(s[j - 1]) then j
    else
      var q := DigitRunBack(s, j - 1);
      assert s[q..j] == s[q..j - 1] + [s[j - 1]];
      q
  }

  lemma {:induction false} DigitRunBackExact(s: string, p: nat, j: nat)
    requires p <= j <= |s| && AllDigits(s[p..j])
    requires p > 0 ==> !IsDigit(s[p - 1])
    ensures DigitRunBack(s, j) == p
    decreases j
  {
    if j > p {
      assert s[j - 1] == s[p..j][j - 1 - p];
      assert s[p..j - 1] == s[p..j][..j - 1 - p];
      DigitRunBackExact(s, p, j - 1);
    }
  }

  /**
    basename_height: the number in a name ending in "zeros_<digits>.dat",
    and None for any other name.
   */
  function BasenameHeight(fn: string): (h: Option<nat>)
    ensures h.Some? ==> exists k :: HeightMatchAt(fn, k) && h.value == DigitsValue(fn[k + 6..|fn| - 4])
    ensures h.None? ==> forall k :: !HeightMatchAt(fn, k)
  {
    if |fn| < 4 || fn[|fn| - 4..] != ".dat" then None
    else
      var e := |fn| - 4;
      var q := DigitRunBack(fn, e);
      if q < e && q >= 6 && fn[q - 6..q] == "zeros_" then
        assert HeightMatchAt(fn, q - 6);
        Some(DigitsValue(fn[q..e]))
      else
        assert forall k :: !HeightMatchAt(fn, k) by {
          forall k | HeightMatchAt(fn, k) ensures false {
            assert fn[k + 5] == fn[k..k + 6][5];
            DigitRunBackExact(fn, k + 6, e);
          }
        }
        None
  }

  /** The standard file names are recognised: "zeros_" + str(n) + ".dat" has height n. */
  lemma HeightOfStandardName(n: nat)
    ensures BasenameHeight("zeros_" + DecimalString(n) + ".dat") == Some(n)
  {
    var ds := DecimalString(n);
    var fn := "zeros_" + ds + ".dat";
    var e := |fn| - 4;
    assert fn[6..e] == ds && fn[e..] == ".dat" && fn[0..6] == "zeros_";
    assert fn[5] == '_';
    DigitRunBackExact(fn, 6, e);
    DigitsRoundTrip(n);
  }

  // ---------------------------------------------------------------------
  // Candidates and thresholds
  // ---------------------------------------------------------------------

  /** The values of nums that are at least thr, in their original order. */
  function AtLeast(nums: seq<real>, thr: real): (r: seq<real>)
    ensures |r| <= |nums|
    ensures forall v :: v in r <==> v in nums && v >= thr
    ensures forall v {:trigger multiset(r)[v]} :: multiset(r)[v] == if v >= thr then multiset(nums)[v] else 0
  {
    if |nums| == 0 then []
    else
      var rest := AtLeast(nums[1..], thr);
      assert nums == [nums[0]] + nums[1..];
      if nums[0] >= thr then [nums[0]] + rest else rest
  }

  /** candidate_list: the values at or above max(10, start_thr), in order. */
  function CandidateList(nums: seq<real>, startThr: real): (r: seq<real>)
    ensures forall v :: v in r <==> v in nums && v >= 10.0 && v >= startThr
  {
    AtLeast(nums, Max(10.0, startThr))
  }

  /** The search threshold of read_dat_file: height times start_frac for a height of at least 1000, else 10. */
  function StartThreshold(base: Option<nat>, startFrac: real): (t: real)
    ensures base.Some? && base.value >= 1000 ==> t == (base.value as real) * startFrac
    ensures !(base.Some? && base.value >= 1000) ==> t == 10.0
  {
    match base
    case Some(b) => if b != 0 && b >= 1000 then (b as real) * startFrac else 10.0
    case None => 10.0
  }

  // ---------------------------------------------------------------------
  // First ordinate of a file
  // ---------------------------------------------------------------------

  /** What fast_seek_first_gamma makes of one line. */
  datatype SeekLine =
    | Passed        // blank, a gate page, or no number: the line-count limit is not consulted
    | Barren        // numbers, but none at the threshold
    | Found(g: real)

  /** One line of fast_seek_first_gamma: a found value is the smallest number of the line at max(10, startThr). */
  function SeekVerdict(raw: string, startThr: real): (v: SeekLine)
    ensures v.Found? ==>
      (var nums := ParseNums(Strip(raw));
       v.g in nums && v.g >= Max(10.0, startThr) && forall u :: u in nums && u >= Max(10.0, startThr) ==> v.g <= u)
    ensures v == Barren ==> |ParseNums(Strip(raw))| > 0 && CandidateList(ParseNums(Strip(raw)), startThr) == []
    ensures v == Passed <==> |Strip(raw)| == 0 || DetectHtmlGate(Strip(raw)) || |ParseNums(Strip(raw))| == 0
  {
    var line := Strip(raw);
    if |line| == 0 || DetectHtmlGate(line) then Passed
    else SeekNums(ParseNums(line), startThr)
  }

  function SeekNums(nums: seq<real>, startThr: real): (v: SeekLine)
    ensures v.Found? ==>
      v.g in nums && v.g >= Max(10.0, startThr) && (forall u :: u in nums && u >= Max(10.0, startThr) ==> v.g <= u)
    ensures v == Barren ==> |nums| > 0 && CandidateList(nums, startThr) == []
    ensures v == Passed <==> |nums| == 0
  {
    if |nums| == 0 then Passed
    else
      var cands := CandidateList(nums, startThr);
      if |cands| > 0 then
        var g := MinOf(cands);
        MinOfIn(cands);
        assert forall u :: u in cands ==> g <= u;
        Found(g)
      else Barren
  }

  /** The verdict of every line of a file. */
  function SeekVerdicts(lines: seq<string>, startThr: real): (vs: seq<SeekLine>)
    ensures |vs| == |lines|
    ensures forall i {:trigger SeekVerdict(lines[i], startThr)} :: 0 <= i < |lines| ==> vs[i] == SeekVerdict(lines[i], startThr)
  {
    seq(|lines|, i requires 0 <= i < |lines| => SeekVerdict(lines[i], startThr))
  }

  /**
    The scan of fast_seek_first_gamma over the line verdicts from index i
    (line number i + 1): the first Found line wins; a Barren line whose
    number is at least maxScan ends the scan without a result.
   */
  function Seek(vs: seq<SeekLine>, maxScan: int, i: nat): (r: (Option<real>, int))
    requires i <= |vs|
    ensures r.0.None? ==> r.1 == -1
    ensures r.0.Some? ==> i < r.1 <= |vs| && vs[r.1 - 1] == Found(r.0.value)
    decreases |vs| - i
  {
    if i == |vs| then (None, -1)
    else
      match vs[i]
      case Found(g) => (Some(g), i + 1)
      case Barren => if i + 1 >= maxScan then (None, -1) else Seek(vs, maxScan, i + 1)
      case Passed => Seek(vs, maxScan, i + 1)
  }

  /**
    What the scan returns: the value of the first Found line and its line
    number, every earlier line being Passed or a Barren line before the
    limit; or (None, -1) when no line is Found or a Barren line at or past
    the limit stopped the scan.
   */
  lemma {:induction false} SeekResult(vs: seq<SeekLine>, maxScan: int, i: nat)
    requires i <= |vs|
    ensures var r := Seek(vs, maxScan, i);
      && (r.0.None? ==> r.1 == -1)
      && (r.0.Some? ==> i < r.1 <= |vs| && vs[r.1 - 1] == Found(r.0.value))
      && (r.0.Some? ==> forall j :: i <= j < r.1 - 1 ==> vs[j] == Passed || (vs[j] == Barren && j + 1 < maxScan))
      && (r.0.None? ==>
            (forall j :: i <= j < |vs| ==> !vs[j].Found?)
            || (exists j :: i <= j < |vs| && vs[j] == Barren && j + 1 >= maxScan && NoneFound(vs, i, j)))
    decreases |vs| - i
  {
    if i < |vs| && !vs[i].Found? {
      if vs[i] == Barren && i + 1 >= maxScan {
        assert NoneFound(vs, i, i);
      } else {
        SeekResult(vs, maxScan, i + 1);
        var r := Seek(vs, maxScan, i + 1);
        if r.0.None? && exists j :: i + 1 <= j < |vs| && vs[j] == Barren && j + 1 >= maxScan && NoneFound(vs, i + 1, j) {
          var j :| i + 1 <= j < |vs| && vs[j] == Barren && j + 1 >= maxScan && NoneFound(vs, i + 1, j);
          assert NoneFound(vs, i, j);
        }
      }
    }
  }

  /** No line from i up to (not including) j is Found. */
  predicate NoneFound(vs: seq<SeekLine>, i: nat, j: nat)
    requires i <= j <= |vs|
  {
    forall k :: i <= k < j ==> !vs[k].Found?
  }

  /** The line number of a found ordinate is within the file, and the ordinate is at the threshold. */
  lemma SeekAtThreshold(lines: seq<string>, startThr: real, maxScan: int)
    ensures var r := Seek(SeekVerdicts(lines, startThr), maxScan, 0);
      r.0.Some? ==> 0 < r.1 <= |lines| && r.0.value >= Max(10.0, startThr)
  {
    var vs := SeekVerdicts(lines, startThr);
    SeekResult(vs, maxScan, 0);
    var r := Seek(vs, maxScan, 0);
    if r.0.Some? {
      assert vs[r.1 - 1] == SeekVerdict(lines[r.1 - 1], startThr);
    }
  }

  /**
    fast_seek_first_gamma over the lines of a file.  Each line's verdict
    depends on its text alone, so the verdicts are formed first and then
    scanned; the scan stops where the source stops reading.
   */
  method FastSeekFirstGamma(lines: seq<string>, startThr: real, maxScan: int) returns (g: Option<real>, ln: int)
    ensures (g, ln) == Seek(SeekVerdicts(lines, startThr), maxScan, 0)
  {
    g, ln := SeekScan(SeekVerdicts(lines, startThr), maxScan);
  }

  /** The scanning loop of fast_seek_first_gamma over the line verdicts. */
  method SeekScan(vs: seq<SeekLine>, maxScan: int) returns (g: Option<real>, ln: int)
    ensures (g, ln) == Seek(vs, maxScan, 0)
  {
    var i := 0;
    while i < |vs|
      invariant 0 <= i <= |vs|
      invariant Seek(vs, maxScan, i) == Seek(vs, maxScan, 0)
    {
      var v := vs[i];
      if v.Found? {
        return Some(v.g), i + 1;
      }
      if v == Barren && i + 1 >= maxScan {
        break;
      }
      i := i + 1;
    }
    return None, -1;
  }

  // ---------------------------------------------------------------------
  // Following a file
  // ---------------------------------------------------------------------

  datatype IngestError =
    | NoStartCandidate
    | TooManySkips(lineNumber: nat)

  /** The candidates of read_dat_file: nums[1] first when nums[0] is a whole number and nums[1] is at the threshold, then every value at the threshold. */
  function DatCandidates(nums: seq<real>, startThr: real): (c: seq<real>)
    ensures forall v :: v in c <==> v in nums && v >= Max(10.0, startThr)
  {
    var thr := Max(10.0, startThr);
    var direct := if |nums| >= 2 && IsIntegral(nums[0]) && nums[1] >= thr then [nums[1]] else [];
    direct + AtLeast(nums, thr)
  }

  /** What read_dat_file sees in one line before comparing with the last value. */
  datatype DatClass =
    | Ignored                      // blank, a comment, or a gate page
    | NoNumbers
    | Numbers(cands: seq<real>)   // the candidates, possibly none

  function DatClassify(raw: string, startThr: real): (c: DatClass)
    ensures c.Numbers? ==> forall v :: v in c.cands <==> v in ParseNums(Strip(raw)) && v >= Max(10.0, startThr)
    ensures var line := Strip(raw);
      c.Ignored? <==> |line| == 0 || line[0] == '#' || line[0] == ';' || DetectHtmlGate(line)
    ensures c.NoNumbers? <==> !c.Ignored? && |ParseNums(Strip(raw))| == 0
  {
    var line := Strip(raw);
    if |line| == 0 || line[0] == '#' || line[0] == ';' then Ignored
    else if DetectHtmlGate(line) then Ignored
    else
      var nums := ParseNums(line);
      if |nums| == 0 then NoNumbers else Numbers(DatCandidates(nums, startThr))
  }

  /** The classification of every line of a file. */
  function DatClasses(lines: seq<string>, startThr: real): (cs: seq<DatClass>)
    ensures |cs| == |lines|
    ensures forall i {:trigger DatClassify(lines[i], startThr)} :: 0 <= i < |lines| ==> cs[i] == DatClassify(lines[i], startThr)
  {
    seq(|lines|, i requires 0 <= i < |lines| => DatClassify(lines[i], startThr))
  }

  /** The candidates strictly above last and at most maxStep above it. */
  function Window(cands: seq<real>, last: real, maxStep: real): (w: seq<real>)
    ensures forall v :: v in w <==> v in cands && v > last && v - last <= maxStep
  {
    if |cands| == 0 then []
    else
      var rest := Window(cands[1..], last, maxStep);
      assert cands == [cands[0]] + cands[1..];
      if cands[0] > last && cands[0] - last <= maxStep then [cands[0]] + rest else rest
  }

  /** What read_dat_file does with one line given the last value. */
  datatype DatStep =
    | Skip          // the line does not count
    | Miss          // no number, no candidate, or no candidate in the step window
    | Take(g: real)

  /**
    The choice of read_dat_file: a taken value lies in (last, last + maxStep],
    is a candidate, and no candidate in that window is smaller.
   */
  function DatChoose(c: DatClass, last: real, maxStep: real): (s: DatStep)
    ensures s.Take? ==> c.Numbers? && s.g in c.cands && last < s.g && s.g - last <= maxStep
    ensures s.Take? ==> forall u :: u in c.cands && last < u && u - last <= maxStep ==> s.g <= u
    ensures s.Skip? <==> c.Ignored?
    ensures s.Miss? <==> c.NoNumbers? || (c.Numbers? && forall u :: u in c.cands ==> u <= last || u - last > maxStep)
  {
    match c
    case Ignored => Skip
    case NoNumbers => Miss
    case Numbers(cands) =>
      if |cands| == 0 then Miss
      else
        var w := Window(cands, last, maxStep);
        if |w| == 0 then Miss
        else
          var g := MinOf(w);
          MinOfIn(w);
          assert forall u :: u in w ==> g <= u;
          Take(g)
  }

  /**
    The selection loop of read_dat_file from line index i on, with the
    kept values, the last value and the cumulative skip count.
   */
  function DatRun(cs: seq<DatClass>, i: nat, kept: seq<real>, last: real, skips: nat,
                  maxSkips: int, maxStep: real): (r: Result<seq<real>, IngestError>)
    requires i <= |cs|
    ensures r.Ok? ==> kept <= r.value
    ensures r.Err? ==> r.error.TooManySkips? && i < r.error.lineNumber <= |cs|
    decreases |cs| - i
  {
    if i == |cs| then Ok(kept)
    else
      match DatChoose(cs[i], last, maxStep)
      case Skip => DatRun(cs, i + 1, kept, last, skips, maxSkips, maxStep)
      case Miss =>
        if skips + 1 > maxSkips then Err(TooManySkips(i + 1))
        else DatRun(cs, i + 1, kept, last, skips + 1, maxSkips, maxStep)
      case Take(g) => DatRun(cs, i + 1, kept + [g], g, skips, maxSkips, maxStep)
  }

  /** Non-empty, every value at the threshold, each next value above the previous by at most maxStep. */
  predicate Chain(gs: seq<real>, thr: real, maxStep: real)
  {
    |gs| > 0
    && (forall i :: 0 <= i < |gs| ==> gs[i] >= thr)
    && (forall i :: 0 <= i < |gs| - 1 ==> gs[i] < gs[i + 1] && gs[i + 1] - gs[i] <= maxStep)
  }

  /** A chain is strictly increasing. */
  lemma {:induction false} ChainIncreasing(gs: seq<real>, thr: real, maxStep: real)
    requires Chain(gs, thr, maxStep)
    ensures StrictlyIncreasing(gs)
    decreases |gs|
  {
    if |gs| > 1 {
      var init := gs[..|gs| - 1];
      assert Chain(init, thr, maxStep) by {
        assert forall i :: 0 <= i < |init| ==> init[i] == gs[i];
      }
      ChainIncreasing(init, thr, maxStep);
      forall i, j | 0 <= i < j < |gs| ensures gs[i] < gs[j] {
        if j < |gs| - 1 {
          assert init[i] < init[j];
        } else if i < j - 1 {
          assert init[i] < init[j - 1];
        }
      }
    }
  }

  /** A chain extended by a value at the threshold within one step above its end is a chain. */
  lemma ChainExtend(gs: seq<real>, g: real, thr: real, maxStep: real)
    requires Chain(gs, thr, maxStep) && g >= thr
    requires gs[|gs| - 1] < g && g - gs[|gs| - 1] <= maxStep
    ensures Chain(gs + [g], thr, maxStep)
  {
    var hs := gs + [g];
    forall i | 0 <= i < |hs| - 1 ensures hs[i] < hs[i + 1] && hs[i + 1] - hs[i] <= maxStep {
      if i < |gs| - 1 {
        assert hs[i] == gs[i] && hs[i + 1] == gs[i + 1];
      }
    }
  }

  /** Classified lines whose candidates are all at the threshold. */
  predicate AtThreshold(cs: seq<DatClass>, thr: real)
  {
    forall i :: 0 <= i < |cs| && cs[i].Numbers? ==> forall u :: u in cs[i].cands ==> u >= thr
  }

  /** The selection loop only ever extends a chain, and the kept prefix stays. */
  lemma {:induction false} DatRunKeepsChain(cs: seq<DatClass>, i: nat, kept: seq<real>, last: real, skips: nat,
                                            maxSkips: int, thr: real, maxStep: real)
    requires i <= |cs| && AtThreshold(cs, thr)
    requires Chain(kept, thr, maxStep) && last == kept[|kept| - 1]
    ensures var r := DatRun(cs, i, kept, last, skips, maxSkips, maxStep);
      r.Ok? ==> Chain(r.value, thr, maxStep) && kept <= r.value
    ensures var r := DatRun(cs, i, kept, last, skips, maxSkips, maxStep);
      r.Err? ==> r.error.TooManySkips? && i < r.error.lineNumber <= |cs|
    decreases |cs| - i
  {
    if i < |cs| {
      match DatChoose(cs[i], last, maxStep)
      case Skip =>
        DatRunKeepsChain(cs, i + 1, kept, last, skips, maxSkips, thr, maxStep);
      case Miss =>
        if skips + 1 <= maxSkips {
          DatRunKeepsChain(cs, i + 1, kept, last, skips + 1, maxSkips, thr, maxStep);
        }
      case Take(g) =>
        assert g in cs[i].cands;
        ChainExtend(kept, g, thr, maxStep);
        DatRunKeepsChain(cs, i + 1, kept + [g], g, skips, maxSkips, thr, maxStep);
    }
  }

  /** Every candidate of a classified file is at max(10, startThr). */
  lemma DatClassesAtThreshold(lines: seq<string>, startThr: real)
    ensures AtThreshold(DatClasses(lines, startThr), Max(10.0, startThr))
  {
    var cs := DatClasses(lines, startThr);
    forall i | 0 <= i < |cs| && cs[i].Numbers?
      ensures forall u :: u in cs[i].cands ==> u >= Max(10.0, startThr)
    {
      assert cs[i] == DatClassify(lines[i], startThr);
    }
  }

  /**
    What read_dat_file returns for the lines of a file read with the given
    start threshold: the error when the seek finds no first ordinate, and
    otherwise the selection loop started on the seek's line (which is read
    again) with that ordinate kept.
   */
  function ReadDatAt(lines: seq<string>, startThr: real, maxSkips: int, maxStep: real): (r: Result<seq<real>, IngestError>)
    ensures r == Err(NoStartCandidate) <==> Seek(SeekVerdicts(lines, startThr), maxSkips, 0).0.None?
    ensures r.Ok? ==> Seek(SeekVerdicts(lines, startThr), maxSkips, 0).0.Some? &&
                      |r.value| > 0 && r.value[0] == Seek(SeekVerdicts(lines, startThr), maxSkips, 0).0.value
  {
    SeekAtThreshold(lines, startThr, maxSkips);
    var (g0, ln0) := Seek(SeekVerdicts(lines, startThr), maxSkips, 0);
    if g0.None? then Err(NoStartCandidate)
    else FollowAt(lines, startThr, ln0, g0.value, maxSkips, maxStep)
  }

  /** The selection loop over the classified lines from the seek's line number ln0 on, holding g0. */
  function FollowAt(lines: seq<string>, startThr: real, ln0: int, g0: real, maxSkips: int, maxStep: real): Result<seq<real>, IngestError>
    requires 0 < ln0 <= |lines|
  {
    DatRun(DatClasses(lines, startThr), ln0 - 1, [g0], g0, 0, maxSkips, maxStep)
  }

  /** read_dat_file for a file: the start threshold comes from the height in its base name. */
  function ReadDat(fn: string, lines: seq<string>, maxSkips: int, startFrac: real, maxStep: real): (r: Result<seq<real>, IngestError>)
    ensures r.Ok? ==> StrictlyIncreasing(r.value) && forall j :: 0 <= j < |r.value| ==> r.value[j] >= 10.0
  {
    var thr := StartThreshold(BasenameHeight(fn), startFrac);
    ReadDatChain(lines, thr, maxSkips, maxStep);
    ReadDatAt(lines, thr, maxSkips, maxStep)
  }

  /**
    On success read_dat_file gives a strictly increasing chain at
    max(10, startThr) that starts at the seek's ordinate.
   */
  lemma ReadDatChain(lines: seq<string>, startThr: real, maxSkips: int, maxStep: real)
    ensures var r := ReadDatAt(lines, startThr, maxSkips, maxStep);
      r.Ok? ==> Chain(r.value, Max(10.0, startThr), maxStep) && StrictlyIncreasing(r.value)
    ensures var r := ReadDatAt(lines, startThr, maxSkips, maxStep);
      r.Ok? ==> var s := Seek(SeekVerdicts(lines, startThr), maxSkips, 0); s.0.Some? && r.value[0] == s.0.value
  {
    var thr := Max(10.0, startThr);
    var (g0, ln0) := Seek(SeekVerdicts(lines, startThr), maxSkips, 0);
    ReadDatAtSeek(lines, startThr, maxSkips, maxStep, g0, ln0);
    if g0.Some? {
      var cs := DatClasses(lines, startThr);
      DatClassesAtThreshold(lines, startThr);
      assert Chain([g0.value], thr, maxStep);
      DatRunKeepsChain(cs, ln0 - 1, [g0.value], g0.value, 0, maxSkips, thr, maxStep);
      var r := DatRun(cs, ln0 - 1, [g0.value], g0.value, 0, maxSkips, maxStep);
      if r.Ok? {
        ChainIncreasing(r.value, thr, maxStep);
        assert [g0.value] <= r.value;
      }
    }
  }

  /** read_dat_file over the lines of a file, once the start threshold is known. */
  method ReadDatLines(lines: seq<string>, startThr: real, maxSkips: int, maxStep: real)
    returns (r: Result<seq<real>, IngestError>)
    ensures r == ReadDatAt(lines, startThr, maxSkips, maxStep)
  {
    var g0, ln0 := FastSeekFirstGamma(lines, startThr, maxSkips);
    ReadDatAtSeek(lines, startThr, maxSkips, maxStep, g0, ln0);
    if g0.None? {
      return Err(NoStartCandidate);
    }
    r := FollowFile(DatClasses(lines, startThr), ln0 - 1, g0.value, maxSkips, maxStep);
  }

  /** ReadDatAt once the seek has given (g0, ln0): the error, or the selection loop from line ln0. */
  lemma ReadDatAtSeek(lines: seq<string>, startThr: real, maxSkips: int, maxStep: real, g0: Option<real>, ln0: int)
    requires (g0, ln0) == Seek(SeekVerdicts(lines, startThr), maxSkips, 0)
    ensures g0.None? ==> ReadDatAt(lines, startThr, maxSkips, maxStep) == Err(NoStartCandidate)
    ensures g0.Some? ==> 0 < ln0 <= |lines| && g0.value >= Max(10.0, startThr)
    ensures g0.Some? ==>
      ReadDatAt(lines, startThr, maxSkips, maxStep) == DatRun(DatClasses(lines, startThr), ln0 - 1, [g0.value], g0.value, 0, maxSkips, maxStep)
  {
    SeekAtThreshold(lines, startThr, maxSkips);
  }

  /** read_dat_file over the base name and the lines of a file. */
  method ReadDatFile(fn: string, lines: seq<string>, maxSkips: int, startFrac: real, maxStep: real)
    returns (r: Result<seq<real>, IngestError>)
    ensures r == ReadDat(fn, lines, maxSkips, startFrac, maxStep)
  {
    var startThr := StartThreshold(BasenameHeight(fn), startFrac);
    r := ReadDatLines(lines, startThr, maxSkips, maxStep);
  }

  /**
    The selection loop of read_dat_file over the classified lines from
    index start on, holding g0 as the first value.  A taken value always
    exceeds the last one, so the non-monotone branch of the source cannot
    run; the chain the loop builds is ReadDatChain's.
   */
  method FollowFile(cs: seq<DatClass>, start: nat, g0: real, maxSkips: int, maxStep: real)
    returns (r: Result<seq<real>, IngestError>)
    requires start <= |cs|
    ensures r == DatRun(cs, start, [g0], g0, 0, maxSkips, maxStep)
    ensures r.Err? ==> r.error.TooManySkips? && start < r.error.lineNumber <= |cs|
  {
    var kept := [g0];
    var last := g0;
    var skips: nat := 0;
    var i := start;
    while i < |cs|
      invariant start <= i <= |cs|
      invariant DatRun(cs, i, kept, last, skips, maxSkips, maxStep) == DatRun(cs, start, [g0], g0, 0, maxSkips, maxStep)
    {
      match DatChoose(cs[i], last, maxStep) {
        case Skip =>
        case Miss =>
          skips := skips + 1;
          if skips > maxSkips {
            return Err(TooManySkips(i + 1));
          }
        case Take(g) =>
          if g <= last {
            // the non-monotone branch of the source: every window value exceeds last
            assert false;
          }
          kept := kept + [g];
          last := g;
      }
      i := i + 1;
    }
    return Ok(kept);
  }

  // ---------------------------------------------------------------------
  // Global merge
  // ---------------------------------------------------------------------

  /** The per-file lists one after another. */
  function Flatten(lists: seq<seq<real>>): (vs: seq<real>)
  {
    if |lists| == 0 then [] else Flatten(lists[..|lists| - 1]) + lists[|lists| - 1]
  }

  /**
    The merge rule, value by value in input order: a value is kept when
    nothing is kept yet or it exceeds the last kept value, and is dropped
    otherwise.  Returns the kept and the dropped values.
   */
  function Merged(out: seq<real>, dropped: seq<real>, vs: seq<real>): (r: (seq<real>, seq<real>))
    ensures out <= r.0 && dropped <= r.1
    ensures |r.0| + |r.1| == |out| + |dropped| + |vs|
    decreases |vs|
  {
    if |vs| == 0 then (out, dropped)
    else if |out| > 0 && vs[0] <= out[|out| - 1] then Merged(out, dropped + [vs[0]], vs[1..])
    else Merged(out + [vs[0]], dropped, vs[1..])
  }

  /** A later value below the last kept one is dropped even when it exceeds an earlier kept value. */
  lemma MergedExample()
    ensures Merged([], [], [1.0, 3.0, 2.0]) == ([1.0, 3.0], [2.0])
  {
    var e: seq<real> := [];
    assert [1.0, 3.0, 2.0][1..] == [3.0, 2.0] && [3.0, 2.0][1..] == [2.0] && [2.0][1..] == [];
    assert e + [1.0] == [1.0] && [1.0] + [3.0] == [1.0, 3.0] && e + [2.0] == [2.0];
    assert Merged([], [], [1.0, 3.0, 2.0]) == Merged([1.0], [], [3.0, 2.0]);
    assert Merged([1.0], [], [3.0, 2.0]) == Merged([1.0, 3.0], [], [2.0]);
    assert Merged([1.0, 3.0], [], [2.0]) == Merged([1.0, 3.0], [2.0], []);
  }

  /** Merging a + b is merging a, then merging b into the result. */
  lemma {:induction false} MergedAppend(out: seq<real>, dropped: seq<real>, a: seq<real>, b: seq<real>)
    ensures var m := Merged(out, dropped, a); Merged(out, dropped, a + b) == Merged(m.0, m.1, b)
    decreases |a|
  {
    if |a| > 0 {
      assert (a + b)[0] == a[0] && (a + b)[1..] == a[1..] + b;
      if |out| > 0 && a[0] <= out[|out| - 1] {
        MergedAppend(out, dropped + [a[0]], a[1..], b);
      } else {
        MergedAppend(out + [a[0]], dropped, a[1..], b);
      }
    } else {
      assert a + b == b;
    }
  }

  /** Kept values strictly increasing, and every dropped value at most the last kept one. */
  predicate MergeState(out: seq<real>, dropped: seq<real>)
  {
    StrictlyIncreasing(out) && forall d :: d in dropped ==> |out| > 0 && d <= out[|out| - 1]
  }

  /**
    The global merge of main: a value is kept when it exceeds the last
    kept value and logged as dropped otherwise.  The kept list is strictly
    increasing, kept and dropped together are the input values, and every
    dropped value is at most the final last kept value.
   */
  method MergeLists(lists: seq<seq<real>>) returns (out: seq<real>, dropped: seq<real>)
    ensures (out, dropped) == Merged([], [], Flatten(lists))
    ensures MergeState(out, dropped)
    ensures multiset(out) + multiset(dropped) == multiset(Flatten(lists))
    ensures |out| + |dropped| == |Flatten(lists)|
    ensures |Flatten(lists)| > 0 ==> |out| > 0 && out[0] == Flatten(lists)[0]
  {
    out, dropped := [], [];
    var i := 0;
    while i < |lists|
      invariant 0 <= i <= |lists|
      invariant (out, dropped) == Merged([], [], Flatten(lists[..i]))
      invariant MergeState(out, dropped)
      invariant multiset(out) + multiset(dropped) == multiset(Flatten(lists[..i]))
      invariant |Flatten(lists[..i])| > 0 ==> |out| > 0 && out[0] == Flatten(lists[..i])[0]
    {
      assert lists[..i + 1][..i] == lists[..i];
      assert Flatten(lists[..i + 1]) == Flatten(lists[..i]) + lists[i];
      MergedAppend([], [], Flatten(lists[..i]), lists[i]);
      out, dropped := MergeFile(out, dropped, lists[i]);
      i := i + 1;
    }
    assert lists[..|lists|] == lists;
    assert |multiset(Flatten(lists))| == |Flatten(lists)|;
  }

  lemma MergeKeepKeepsState(out: seq<real>, dropped: seq<real>, v: real)
    requires MergeState(out, dropped) && (|out| == 0 || v > out[|out| - 1])
    ensures MergeState(out + [v], dropped)
  {
    var out' := out + [v];
    forall i, j | 0 <= i < j < |out'| ensures out'[i] < out'[j] {
      if j < |out| {
        assert out'[i] == out[i] && out'[j] == out[j];
      } else if i < |out| - 1 {
        assert out[i] < out[|out| - 1];
      }
    }
  }

  lemma MergeDropKeepsState(out: seq<real>, dropped: seq<real>, v: real)
    requires MergeState(out, dropped) && |out| > 0 && v <= out[|out| - 1]
    ensures MergeState(out, dropped + [v])
  {
  }

  /** Adding one element commutes with a union. */
  lemma UnionAddOne(a: multiset<real>, b: multiset<real>, v: real)
    ensures a + (b + multiset{v}) == (a + b) + multiset{v}
    ensures (a + multiset{v}) + b == (a + b) + multiset{v}
  {
  }

  /** The merge of one file's values into the kept and dropped lists. */
  method MergeFile(out0: seq<real>, dropped0: seq<real>, g: seq<real>) returns (out: seq<real>, dropped: seq<real>)
    requires MergeState(out0, dropped0)
    ensures (out, dropped) == Merged(out0, dropped0, g)
    ensures MergeState(out, dropped)
    ensures multiset(out) + multiset(dropped) == multiset(out0) + multiset(dropped0) + multiset(g)
    ensures out0 <= out
    ensures |out0| == 0 && |g| > 0 ==> |out| > 0 && out[0] == g[0]
  {
    out, dropped := out0, dropped0;
    ghost var m0 := multiset(out0) + multiset(dropped0);
    var j := 0;
    while j < |g|
      invariant 0 <= j <= |g|
      invariant Merged(out, dropped, g[j..]) == Merged(out0, dropped0, g)
      invariant MergeState(out, dropped) && out0 <= out
      invariant multiset(out) + multiset(dropped) == m0 + multiset(g[..j])
      invariant |out0| == 0 && j == 0 ==> |out| == 0
      invariant |out0| == 0 && j > 0 ==> |out| > 0 && out[0] == g[0]
    {
      var v := g[j];
      assert g[j..][0] == v && g[j..][1..] == g[j + 1..];
      assert g[..j + 1] == g[..j] + [v];
      assert multiset(g[..j + 1]) == multiset(g[..j]) + multiset{v};
      UnionAddOne(m0, multiset(g[..j]), v);
      UnionAddOne(multiset(out), multiset(dropped), v);
      if |out| > 0 && v <= out[|out| - 1] {
        MergeDropKeepsState(out, dropped, v);
        assert multiset(dropped + [v]) == multiset(dropped) + multiset{v};
        dropped := dropped + [v];
      } else {
        MergeKeepKeepsState(out, dropped, v);
        assert multiset(out + [v]) == multiset(out) + multiset{v};
        out := out + [v];
      }
      j := j + 1;
    }
    assert g[..|g|] == g;
  }
}
