/**
  Python's list.sort() and sorted(set) on reals, as insertion into a sorted
  list and as repeated extraction of the least element.
 */
module Sorting {
  import opened Numerics

  /** x inserted before the first element of s not below it. */
  function Insert(x: real, s: seq<real>): seq<real>
  {
    if |s| == 0 || x <= s[0] then [x] + s
    else [s[0]] + Insert(x, s[1..])
  }

  predicate AllAtLeast(lo: real, s: seq<real>)
  {
    forall i :: 0 <= i < |s| ==> lo <= s[i]
  }

  /** A sorted list stays sorted with a new head no larger than its elements. */
  lemma ConsSorted(a: real, t: seq<real>)
    requires AllAtLeast(a, t) && NonDecreasing(t)
    ensures NonDecreasing([a] + t)
  {
    var r := [a] + t;
    forall i, j | 0 <= i <= j < |r| ensures r[i] <= r[j] {
      if i > 0 {
        assert r[i] == t[i - 1] && r[j] == t[j - 1];
      }
    }
  }

  /** Insertion keeps a lower bound that x also meets. */
  lemma {:induction false} InsertAtLeast(lo: real, x: real, s: seq<real>)
    requires AllAtLeast(lo, s) && lo <= x
    ensures AllAtLeast(lo, Insert(x, s))
  {
    if |s| > 0 && x > s[0] {
      InsertAtLeast(lo, x, s[1..]);
    }
  }

  /** Inserting into a sorted list gives a sorted list holding one more x. */
  lemma {:induction false} InsertSpec(x: real, s: seq<real>)
    requires NonDecreasing(s)
    ensures NonDecreasing(Insert(x, s)) && multiset(Insert(x, s)) == multiset(s) + multiset{x}
  {
    assert |s| > 0 ==> s == [s[0]] + s[1..];
    if |s| == 0 || x <= s[0] {
      ConsSorted(x, s);
    } else {
      var t := s[1..];
      InsertSpec(x, t);
      InsertAtLeast(s[0], x, t);
      ConsSorted(s[0], Insert(x, t));
    }
  }

  /** list.sort(): the values in non-decreasing order, each kept as often as it occurs. */
  function Sort(s: seq<real>): (r: seq<real>)
    ensures NonDecreasing(r) && multiset(r) == multiset(s)
  {
    if |s| == 0 then []
    else
      assert s == [s[0]] + s[1..];
      InsertSpec(s[0], Sort(s[1..]));
      Insert(s[0], Sort(s[1..]))
  }

  predicate IsLeast(m: real, s: set<real>)
  {
    m in s && forall x :: x in s ==> m <= x
  }

  lemma EmptyOrInhabited(s: set<real>)
    ensures s == {} || exists m :: m in s
  {
    if forall y :: y !in s {
      assert s == {};
    }
  }

  /** A non-empty finite set of reals has a least element. */
  lemma {:induction false} HasLeast(s: set<real>)
    requires s != {}
    ensures exists m :: IsLeast(m, s)
    decreases |s|
  {
    EmptyOrInhabited(s);
    var y :| y in s;
    if s == {y} {
      assert IsLeast(y, s);
    } else {
      HasLeast(s - {y});
      var m' :| IsLeast(m', s - {y});
      var m := if y < m' then y else m';
      forall x | x in s ensures m <= x {
        if x != y {
          assert x in s - {y};
        }
      }
      assert IsLeast(m, s);
    }
  }

  /** sorted(s) for a set: its elements in strictly increasing order. */
  function SortSet(s: set<real>): (r: seq<real>)
    ensures StrictlyIncreasing(r) && |r| == |s|
    ensures forall x :: x in r <==> x in s
    decreases |s|
  {
    if s == {} then []
    else
      HasLeast(s);
      var m :| IsLeast(m, s);
      var t := SortSet(s - {m});
      [m] + t
  }
}
