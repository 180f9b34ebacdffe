/**
  The string vocabulary of the two zero-ordinate readers: Python's
  str.strip, str.split, str.lower, str.find, str.startswith and the
  substring test, plus a scanner for the decimal-number pattern

      [-+]?(?:\d+(?:\.\d*)?|\.\d+)(?:[eE][-+]?\d+)?

  applied with re.findall and converted exactly (Decimal, or float over
  exact reals).  Characters are ASCII: whitespace is the ASCII set that
  str.isspace accepts, digits are '0'..'9', and lower-casing maps 'A'..'Z'.
 */
module Text {

  import opened Numerics

  /** The ASCII characters str.isspace accepts: tab, newline, vertical tab, form feed, carriage return, the four separators 0x1c..0x1f, and the space. */
  predicate IsSpace(c: char)
  {
    c == ' ' || (9 <= c as int <= 13) || (28 <= c as int <= 31)
  }

  predicate IsDigit(c: char)
  {
    '0' <= c <= '9'
  }

  predicate AllSpace(s: string)
  {
    forall i :: 0 <= i < |s| ==> IsSpace(s[i])
  }

  predicate NoSpace(s: string)
  {
    forall i :: 0 <= i < |s| ==> !IsSpace(s[i])
  }

  predicate AllDigits(s: string)
  {
    forall i :: 0 <= i < |s| ==> IsDigit(s[i])
  }

  /** The number of leading whitespace characters. */
  function LeadingSpace(s: string): (k: nat)
    ensures k <= |s| && AllSpace(s[..k])
    ensures k < |s| ==> !IsSpace(s[k])
  {
    if |s| == 0 || !IsSpace(s[0]) then 0 else 1 + LeadingSpace(s[1..])
  }

  /** The length of s without its trailing whitespace. */
  function TrailingStart(s: string): (k: nat)
    ensures k <= |s| && AllSpace(s[k..])
    ensures k > 0 ==> !IsSpace(s[k - 1])
  {
    if |s| == 0 || !IsSpace(s[|s| - 1]) then |s| else TrailingStart(s[..|s| - 1])
  }

  /** str.strip(): s with leading and trailing whitespace removed. */
  function Strip(s: string): (r: string)
    ensures |r| > 0 ==> !IsSpace(r[0]) && !IsSpace(r[|r| - 1])
  {
    var i := LeadingSpace(s);
    s[i..i + TrailingStart(s[i..])]
  }

  /** Strip removes only whitespace, and only at the two ends. */
  lemma StripIsSlice(s: string)
    ensures exists i, j :: 0 <= i <= j <= |s| && Strip(s) == s[i..j] && AllSpace(s[..i]) && AllSpace(s[j..])
  {
    var i := LeadingSpace(s);
    var k := TrailingStart(s[i..]);
    var j := i + k;
    assert s[i..][..k] == s[i..j];
    assert AllSpace(s[j..]) by {
      assert s[i..][k..] == s[j..];
    }
    assert 0 <= i <= j <= |s| && Strip(s) == s[i..j] && AllSpace(s[..i]) && AllSpace(s[j..]);
  }

  /** Stripping a string that is empty or has no whitespace at either end leaves it as it is. */
  lemma StripTrimmed(s: string)
    requires |s| > 0 ==> !IsSpace(s[0]) && !IsSpace(s[|s| - 1])
    ensures Strip(s) == s
  {
    assert LeadingSpace(s) == 0;
    assert s[0..] == s;
  }

  /** The length of the leading run of non-whitespace characters. */
  function TokenEnd(s: string): (k: nat)
    ensures k <= |s| && NoSpace(s[..k])
    ensures k < |s| ==> IsSpace(s[k])
  {
    if |s| == 0 || IsSpace(s[0]) then 0 else 1 + TokenEnd(s[1..])
  }

  /** All the characters of a list of strings, in order. */
  function Concat(ts: seq<string>): string
  {
    if |ts| == 0 then [] else ts[0] + Concat(ts[1..])
  }

  /** The non-whitespace characters of s, in order. */
  function Visible(s: string): (r: string)
    ensures NoSpace(r)
  {
    if |s| == 0 then []
    else if IsSpace(s[0]) then Visible(s[1..])
    else [s[0]] + Visible(s[1..])
  }

  lemma {:induction false} VisibleAppend(a: string, b: string)
    ensures Visible(a + b) == Visible(a) + Visible(b)
    decreases |a|
  {
    if |a| > 0 {
      assert (a + b)[1..] == a[1..] + b;
      VisibleAppend(a[1..], b);
    } else {
      assert a + b == b;
    }
  }

  lemma {:induction false} VisibleOfNoSpace(s: string)
    requires NoSpace(s)
    ensures Visible(s) == s
    decreases |s|
  {
    if |s| > 0 {
      VisibleOfNoSpace(s[1..]);
      assert s == [s[0]] + s[1..];
    }
  }

  /**
    str.split() with no separator: the maximal runs of non-whitespace.
    Every token is non-empty and whitespace-free, and together they hold
    exactly the visible characters of s, in order.
   */
  function Split(s: string): (ts: seq<string>)
    ensures forall i :: 0 <= i < |ts| ==> |ts[i]| > 0 && NoSpace(ts[i])
    decreases |s|
  {
    if |s| == 0 then []
    else if IsSpace(s[0]) then Split(s[1..])
    else
      var k := TokenEnd(s);
      [s[..k]] + Split(s[k..])
  }

  /** The tokens of s hold exactly its visible characters, in order. */
  lemma {:induction false} SplitKeepsVisible(s: string)
    ensures Concat(Split(s)) == Visible(s)
    decreases |s|
  {
    if |s| > 0 {
      if IsSpace(s[0]) {
        SplitKeepsVisible(s[1..]);
      } else {
        var k := TokenEnd(s);
        SplitKeepsVisible(s[k..]);
        assert s == s[..k] + s[k..];
        VisibleAppend(s[..k], s[k..]);
        VisibleOfNoSpace(s[..k]);
      }
    }
  }

  /** A string with no whitespace at all splits into nothing when empty and into itself otherwise. */
  lemma SplitWord(w: string)
    requires NoSpace(w)
    ensures Split(w) == if |w| == 0 then [] else [w]
  {
    if |w| > 0 {
      TokenEndOfWord(w);
      assert w[..|w|] == w;
    }
  }

  lemma {:induction false} TokenEndOfWord(w: string)
    requires NoSpace(w)
    ensures TokenEnd(w) == |w|
  {
    if |w| > 0 {
      TokenEndOfWord(w[1..]);
    }
  }

  function LowerChar(c: char): (d: char)
    ensures !('A' <= d <= 'Z')
    ensures ('A' <= c <= 'Z') || d == c
  {
    if 'A' <= c <= 'Z' then (c as int + 32) as char else c
  }

  /** str.lower() on ASCII: every upper-case letter replaced by its lower-case letter. */
  function Lower(s: string): (r: string)
    ensures |r| == |s|
    ensures forall i {:trigger r[i]} :: 0 <= i < |s| ==> r[i] == LowerChar(s[i])
    ensures forall i {:trigger r[i]} :: 0 <= i < |s| ==> !('A' <= r[i] <= 'Z')
  {
    seq(|s|, i requires 0 <= i < |s| => LowerChar(s[i]))
  }

  /** Lower-casing is idempotent. */
  lemma LowerIdempotent(s: string)
    ensures Lower(Lower(s)) == Lower(s)
  {
  }

  predicate StartsWith(s: string, p: string)
  {
    |p| <= |s| && s[..|p|] == p
  }

  predicate OccursAt(s: string, p: string, i: int)
  {
    0 <= i <= |s| - |p| && s[i..i + |p|] == p
  }

  /** `p in s` for strings: p occurs at some offset of s. */
  ghost predicate Occurs(s: string, p: string)
  {
    exists i :: OccursAt(s, p, i)
  }

  /** The substring test, scanning s from the left: true exactly when p occurs in s. */
  function Contains(s: string, p: string): (b: bool)
    ensures b <==> Occurs(s, p)
    decreases |s|
  {
    if StartsWith(s, p) then assert OccursAt(s, p, 0); true
    else if |s| <= |p| then
      assert !Occurs(s, p) by {
        forall i | 0 <= i <= |s| - |p| ensures !OccursAt(s, p, i) {
          assert i == 0;
        }
      }
      false
    else
      var b := Contains(s[1..], p);
      assert Occurs(s, p) ==> Occurs(s[1..], p) by {
        if Occurs(s, p) {
          var i :| OccursAt(s, p, i);
          assert s[1..][i - 1..i - 1 + |p|] == s[i..i + |p|];
          assert OccursAt(s[1..], p, i - 1);
        }
      }
      assert Occurs(s[1..], p) ==> Occurs(s, p) by {
        if Occurs(s[1..], p) {
          var i :| OccursAt(s[1..], p, i);
          assert s[1..][i..i + |p|] == s[i + 1..i + 1 + |p|];
          assert OccursAt(s, p, i + 1);
        }
      }
      b
  }

  /** A pattern holding an upper-case letter never occurs in a lower-cased string. */
  lemma UpperNeverInLower(s: string, p: string, k: nat)
    requires k < |p| && 'A' <= p[k] <= 'Z'
    ensures !Contains(Lower(s), p)
  {
    var l := Lower(s);
    forall i | 0 <= i <= |l| - |p| ensures !OccursAt(l, p, i) {
      assert l[i..i + |p|][k] == l[i + k];
    }
  }

  /** str.find(c): the first index holding c, or -1. */
  function Find(s: string, c: char): (k: int)
    ensures -1 <= k < |s|
    ensures k >= 0 ==> s[k] == c && forall j :: 0 <= j < k ==> s[j] != c
    ensures k == -1 ==> forall j :: 0 <= j < |s| ==> s[j] != c
  {
    if |s| == 0 then -1
    else if s[0] == c then 0
    else
      var k := Find(s[1..], c);
      if k == -1 then -1 else k + 1
  }

  function DigitValue(c: char): (d: nat)
    requires IsDigit(c)
    ensures d < 10
  {
    c as int - '0' as int
  }

  function DigitChar(d: nat): (c: char)
    requires d < 10
    ensures IsDigit(c) && DigitValue(c) == d
  {
    ('0' as int + d) as char
  }

  /** int() of a string of decimal digits (leading zeros allowed). */
  function DigitsValue(ds: string): nat
    requires AllDigits(ds)
  {
    if |ds| == 0 then 0 else 10 * DigitsValue(ds[..|ds| - 1]) + DigitValue(ds[|ds| - 1])
  }

  /** str(n): the decimal digits of a natural number, without leading zeros. */
  function DecimalString(n: nat): (ds: string)
    ensures |ds| > 0 && AllDigits(ds)
    ensures |ds| > 1 ==> ds[0] != '0'
  {
    if n < 10 then [DigitChar(n)] else DecimalString(n / 10) + [DigitChar(n % 10)]
  }

  /** Reading back the digits of n gives n. */
  lemma {:induction false} DigitsRoundTrip(n: nat)
    ensures DigitsValue(DecimalString(n)) == n
  {
    var ds := DecimalString(n);
    if n >= 10 {
      DigitsRoundTrip(n / 10);
      assert ds[..|ds| - 1] == DecimalString(n / 10);
    }
  }

  function Pow10(e: nat): (p: nat)
    ensures p >= 1
  {
    if e == 0 then 1 else 10 * Pow10(e - 1)
  }

  /** v * 10^e for a signed exponent, as Decimal's exponent notation means. */
  function Scale10(v: real, e: int): real
  {
    if e >= 0 then v * (Pow10(e) as real) else v / (Pow10(-e) as real)
  }

  /** The end of the run of digits that starts at index i. */
  function DigitRun(s: string, i: nat): (j: nat)
    requires i <= |s|
    ensures i <= j <= |s| && AllDigits(s[i..j])
    ensures j < |s| ==> !IsDigit(s[j])
    decreases |s| - i
  {
    if i == |s| || !IsDigit(s[i]) then i else DigitRun(s, i + 1)
  }

  /** A token found by the scanner: where it ends and the value Decimal(token) denotes. */
  datatype Token = Token(end: nat, value: real)

  /** The part \d+(?:\.\d*)? | \.\d+ of the pattern, starting exactly at j. */
  function Mantissa(s: string, j: nat): (t: Option<Token>)
    requires j <= |s|
    ensures t.Some? ==> j < t.value.end <= |s|
    ensures t.Some? ==> IsDigit(s[j]) || (s[j] == '.' && j + 1 < |s| && IsDigit(s[j + 1]))
    ensures t.None? ==> j == |s| || (!IsDigit(s[j]) && (s[j] != '.' || j + 1 == |s| || !IsDigit(s[j + 1])))
  {
    if j < |s| && IsDigit(s[j]) then
      var k := DigitRun(s, j);
      var whole := DigitsValue(s[j..k]) as real;
      if k < |s| && s[k] == '.' then
        var m := DigitRun(s, k + 1);
        Some(Token(m, whole + (DigitsValue(s[k + 1..m]) as real) / (Pow10(m - k - 1) as real)))
      else Some(Token(k, whole))
    else if j + 1 < |s| && s[j] == '.' && IsDigit(s[j + 1]) then
      var m := DigitRun(s, j + 1);
      Some(Token(m, (DigitsValue(s[j + 1..m]) as real) / (Pow10(m - j - 1) as real)))
    else None
  }

  /** The optional part (?:[eE][-+]?\d+)? applied after a mantissa ending at e. */
  function Exponent(s: string, m: Token): (t: Token)
    requires m.end <= |s|
    ensures m.end <= t.end <= |s|
  {
    var e := m.end;
    if e < |s| && (s[e] == 'e' || s[e] == 'E') then
      var signed := e + 1 < |s| && (s[e + 1] == '+' || s[e + 1] == '-');
      var f := if signed then e + 2 else e + 1;
      if f < |s| && IsDigit(s[f]) then
        var g := DigitRun(s, f);
        var x: int := DigitsValue(s[f..g]);
        Token(g, Scale10(m.value, if signed && s[e + 1] == '-' then -x else x))
      else m
    else m
  }

  /** The leftmost-greedy match of the number pattern at exactly index i, if any. */
  function MatchAt(s: string, i: nat): (t: Option<Token>)
    requires i < |s|
    ensures t.Some? ==> i < t.value.end <= |s|
  {
    var signed := s[i] == '+' || s[i] == '-';
    var j := if signed then i + 1 else i;
    match Mantissa(s, j)
    case None => None
    case Some(m) =>
      var x := Exponent(s, m);
      Some(Token(x.end, if signed && s[i] == '-' then -x.value else x.value))
  }

  /** re.findall from index i on: matches are tried left to right and never overlap. */
  function ScanFrom(s: string, i: nat): (r: seq<real>)
    requires i <= |s|
    ensures |r| <= |s| - i
    ensures (forall k :: i <= k < |s| ==> !IsDigit(s[k])) ==> r == []
    decreases |s| - i
  {
    if i == |s| then []
    else match MatchAt(s, i)
      case None => ScanFrom(s, i + 1)
      case Some(t) => [t.value] + ScanFrom(s, t.end)
  }

  /** Every numeric token of a line, converted exactly. */
  function ParseNums(s: string): (r: seq<real>)
    ensures |r| <= |s|
    ensures (forall k :: 0 <= k < |s| ==> !IsDigit(s[k])) ==> r == []
  {
    ScanFrom(s, 0)
  }

  /** Scanning a line that holds only the digits of n finds n and nothing else. */
  lemma ParseNumsOfNatural(n: nat)
    ensures ParseNums(DecimalString(n)) == [n as real]
  {
    var s := DecimalString(n);
    assert DigitRun(s, 0) == |s| by { DigitRunAll(s, 0); }
    assert s[0..|s|] == s;
    DigitsRoundTrip(n);
    assert Mantissa(s, 0) == Some(Token(|s|, n as real));
    assert MatchAt(s, 0) == Some(Token(|s|, n as real));
    assert ScanFrom(s, 0) == [n as real] + ScanFrom(s, |s|);
  }

  lemma {:induction false} DigitRunAll(s: string, i: nat)
    requires i <= |s| && AllDigits(s)
    ensures DigitRun(s, i) == |s|
    decreases |s| - i
  {
    if i < |s| {
      DigitRunAll(s, i + 1);
    }
  }

  /** Whether a real is a whole number, as Decimal.to_integral_value() leaves it unchanged. */
  predicate IsIntegral(x: real)
  {
    x == x.Floor as real
  }

  /** A token of digits without fraction or exponent is a whole number. */
  lemma DigitsAreIntegral(n: nat)
    ensures IsIntegral(n as real)
  {
  }
}
