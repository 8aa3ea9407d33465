/** Sorted, duplicate-free sequences. */
module Ordering {

  ghost predicate TotalOrder<T(!new)>(lte: (T, T) -> bool) {
    && (forall x, y :: lte(x, y) || lte(y, x))
    && (forall x, y :: lte(x, y) && lte(y, x) ==> x == y)
    && (forall x, y, z :: lte(x, y) && lte(y, z) ==> lte(x, z))
  }

  function Elements<T>(s: seq<T>): set<T> {
    set x | x in s
  }

  predicate Distinct<T(==)>(s: seq<T>) {
    forall i, j :: 0 <= i < j < |s| ==> s[i] != s[j]
  }

  predicate StrictlySorted<T(==)>(lte: (T, T) -> bool, s: seq<T>) {
    forall i, j :: 0 <= i < j < |s| ==> lte(s[i], s[j]) && s[i] != s[j]
  }

  predicate LowerBound<T(!new)>(lte: (T, T) -> bool, s: set<T>, least: T) {
    forall y :: y in s ==> lte(least, y)
  }

  lemma {:induction false} LeastExists<T(!new)>(lte: (T, T) -> bool, s: set<T>)
    requires TotalOrder(lte)
    requires s != {}
    ensures exists least :: least in s && LowerBound(lte, s, least)
  {
    var pick :| pick in s;
    var rest := s - {pick};
    if rest == {} {
      assert s == {pick};
    } else {
      LeastExists(lte, rest);
      var other :| other in rest && LowerBound(lte, rest, other);
      var least := if lte(other, pick) then other else pick;
      forall y | y in s ensures lte(least, y) {
        if y != pick { assert y in rest; }
      }
    }
  }

  ghost function Least<T(!new)>(lte: (T, T) -> bool, s: set<T>): (least: T)
    requires TotalOrder(lte)
    requires s != {}
    ensures least in s && LowerBound(lte, s, least)
  {
    LeastExists(lte, s);
    var x :| x in s && LowerBound(lte, s, x);
    x
  }

  /** The elements of a set in ascending order. */
  ghost function Ascending<T(!new)>(lte: (T, T) -> bool, s: set<T>): (r: seq<T>)
    requires TotalOrder(lte)
    ensures StrictlySorted(lte, r)
    ensures forall x :: x in r <==> x in s
    decreases |s|
  {
    if s == {} then []
    else
      var least := Least(lte, s);
      var rest := s - {least};
      assert |rest| < |s|;
      [least] + Ascending(lte, rest)
  }

  /** Two ascending sequences over the same elements are the same sequence. */
  lemma {:induction false} AscendingUnique<T(!new)>(lte: (T, T) -> bool, a: seq<T>, b: seq<T>)
    requires TotalOrder(lte)
    requires StrictlySorted(lte, a) && StrictlySorted(lte, b)
    requires forall x :: x in a <==> x in b
    ensures a == b
  {
    assert a == [] || a[0] in b;
    assert b == [] || b[0] in a;
    if a != [] {
      var i :| 0 <= i < |b| && b[i] == a[0];
      var j :| 0 <= j < |a| && a[j] == b[0];
      assert lte(b[0], b[i]) && lte(a[0], a[j]);
      assert a[0] == b[0];
      forall x ensures x in a[1..] <==> x in b[1..] {
        if x in a[1..] {
          assert x in b && x != a[0];
        }
        if x in b[1..] {
          assert x in a && x != b[0];
        }
      }
      AscendingUnique(lte, a[1..], b[1..]);
      assert a == [a[0]] + a[1..] && b == [b[0]] + b[1..];
    }
  }

  /** A strictly sorted sequence is the ascending list of its own elements. */
  lemma AscendingOfSorted<T(!new)>(lte: (T, T) -> bool, s: seq<T>)
    requires TotalOrder(lte)
    requires StrictlySorted(lte, s)
    ensures Ascending(lte, Elements(s)) == s
  {
    AscendingUnique(lte, Ascending(lte, Elements(s)), s);
  }

  /** Comparing neighbours is enough to compare all pairs. */
  lemma {:induction false} NeighboursSuffice<T(!new)>(lte: (T, T) -> bool, s: seq<T>)
    requires TotalOrder(lte)
    requires forall i :: 0 < i < |s| ==> lte(s[i - 1], s[i])
    ensures forall i, j :: 0 <= i < j < |s| ==> lte(s[i], s[j])
  {
    if s != [] {
      var front := s[..|s| - 1];
      forall i | 0 < i < |front| ensures lte(front[i - 1], front[i]) {
        assert front[i] == s[i];
      }
      NeighboursSuffice(lte, front);
      forall i, j | 0 <= i < j < |s| ensures lte(s[i], s[j]) {
        if j < |s| - 1 {
          assert lte(front[i], front[j]);
        } else if i < j - 1 {
          assert lte(front[i], front[j - 1]);
          assert lte(s[i], s[j - 1]) && lte(s[j - 1], s[j]);
        }
      }
    }
  }

  lemma ElementsOfConcat<T>(a: seq<T>, b: seq<T>)
    ensures Elements(a + b) == Elements(a) + Elements(b)
  {}

  /** A list has no repetition exactly when it has as many elements as entries. */
  lemma {:induction false} DistinctByCount<T>(s: seq<T>)
    ensures |Elements(s)| <= |s|
    ensures Distinct(s) <==> |Elements(s)| == |s|
  {
    if s == [] {
      assert Elements(s) == {};
    } else {
      var front, last := s[..|s| - 1], s[|s| - 1];
      DistinctByCount(front);
      assert s == front + [last];
      ElementsOfConcat(front, [last]);
      assert Elements([last]) == {last};
      if last in front {
        assert Elements(s) == Elements(front);
        var i :| 0 <= i < |front| && front[i] == last;
        assert s[i] == s[|s| - 1];
      } else {
        assert last !in Elements(front);
        if Distinct(front) {
          assert Distinct(s);
        } else {
          var i, j :| 0 <= i < j < |front| && front[i] == front[j];
          assert s[i] == s[j];
        }
      }
    }
  }

  /** Insertion into an ordered set held as a sorted sequence. */
  method InsertSorted<T(==,!new)>(lte: (T, T) -> bool, s: seq<T>, x: T) returns (r: seq<T>)
    requires TotalOrder(lte)
    requires StrictlySorted(lte, s)
    ensures StrictlySorted(lte, r)
    ensures forall y :: y in r <==> y in s || y == x
  {
    var i := 0;
    while i < |s| && s[i] != x && lte(s[i], x)
      invariant 0 <= i <= |s|
      invariant forall k :: 0 <= k < i ==> lte(s[k], x) && s[k] != x
    {
      i := i + 1;
    }
    if i < |s| && s[i] == x { return s; }
    r := s[..i] + [x] + s[i..];
    if i < |s| {
      assert forall k :: i < k < |s| ==> lte(s[i], s[k]);
    }
  }

  /** Sorting and removing repetitions leaves the elements in ascending order. */
  method SortDedup<T(==,!new)>(lte: (T, T) -> bool, s: seq<T>) returns (r: seq<T>)
    requires TotalOrder(lte)
    ensures r == Ascending(lte, Elements(s))
  {
    r := [];
    for i := 0 to |s|
      invariant StrictlySorted(lte, r)
      invariant forall y :: y in r <==> y in s[..i]
    {
      assert s[..i + 1] == s[..i] + [s[i]];
      r := InsertSorted(lte, r, s[i]);
    }
    assert s[..|s|] == s;
    AscendingUnique(lte, r, Ascending(lte, Elements(s)));
  }
}
