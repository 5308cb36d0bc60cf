/** The array sort of JavaScript: stable, by a comparison function. */
module Sorting {

  /** A comparison that orders: its sign flips with the arguments, and "not after" chains. */
  ghost predicate Orders<T(!new)>(compare: (T, T) -> int) {
    && (forall a, b :: compare(a, b) <= 0 <==> compare(b, a) >= 0)
    && (forall a, b, c :: compare(a, b) <= 0 && compare(b, c) <= 0 ==> compare(a, c) <= 0)
  }

  predicate Ascending<T>(s: seq<T>, compare: (T, T) -> int) {
    forall i, j :: 0 <= i < j < |s| ==> compare(s[i], s[j]) <= 0
  }

  /** x goes behind everything that does not come after it. */
  function Insert<T>(s: seq<T>, x: T, compare: (T, T) -> int): seq<T> {
    if s == [] then [x]
    else if compare(s[|s| - 1], x) <= 0 then s + [x]
    else Insert(s[..|s| - 1], x, compare) + [s[|s| - 1]]
  }

  function Sorted<T>(s: seq<T>, compare: (T, T) -> int): seq<T> {
    if s == [] then [] else Insert(Sorted(s[..|s| - 1], compare), s[|s| - 1], compare)
  }

  function Map<T, U>(s: seq<T>, f: T -> U): (r: seq<U>)
    ensures |r| == |s| && forall i :: 0 <= i < |s| ==> r[i] == f(s[i])
  {
    if s == [] then [] else Map(s[..|s| - 1], f) + [f(s[|s| - 1])]
  }

  function Filter<T>(s: seq<T>, p: T -> bool): seq<T> {
    if s == [] then [] else Filter(s[..|s| - 1], p) + if p(s[|s| - 1]) then [s[|s| - 1]] else []
  }

  lemma {:induction false} InsertAscends<T(!new)>(s: seq<T>, x: T, compare: (T, T) -> int)
    requires Orders(compare) && Ascending(s, compare)
    ensures Ascending(Insert(s, x, compare), compare)
    ensures forall y :: y in Insert(s, x, compare) ==> y in s || y == x
  {
    if s != [] && compare(s[|s| - 1], x) > 0 {
      var init, last := s[..|s| - 1], s[|s| - 1];
      InsertAscends(init, x, compare);
      var r := Insert(init, x, compare);
      forall i | 0 <= i < |r| ensures compare(r[i], last) <= 0 {
        assert r[i] in init || r[i] == x;
      }
    }
  }

  lemma {:induction false} SortedAscends<T(!new)>(s: seq<T>, compare: (T, T) -> int)
    requires Orders(compare)
    ensures Ascending(Sorted(s, compare), compare)
  {
    if s != [] {
      SortedAscends(s[..|s| - 1], compare);
      InsertAscends(Sorted(s[..|s| - 1], compare), s[|s| - 1], compare);
    }
  }

  lemma {:induction false} InsertPermutes<T, U>(s: seq<T>, x: T, compare: (T, T) -> int, f: T -> U)
    ensures multiset(Map(Insert(s, x, compare), f)) == multiset(Map(s, f)) + multiset{f(x)}
  {
    if s != [] {
      var init, last := s[..|s| - 1], s[|s| - 1];
      if compare(last, x) <= 0 {
        assert (s + [x])[..|s|] == s;
      } else {
        InsertPermutes(init, x, compare, f);
        var r := Insert(init, x, compare);
        assert (r + [last])[..|r|] == r;
      }
    }
  }

  /** Sorting permutes; in particular it permutes whatever is read off the elements. */
  lemma {:induction false} SortedPermutes<T, U>(s: seq<T>, compare: (T, T) -> int, f: T -> U)
    ensures multiset(Map(Sorted(s, compare), f)) == multiset(Map(s, f))
  {
    if s != [] {
      SortedPermutes(s[..|s| - 1], compare, f);
      InsertPermutes(Sorted(s[..|s| - 1], compare), s[|s| - 1], compare, f);
    }
  }

  function Ties<T>(compare: (T, T) -> int, a: T): T -> bool {
    b => compare(a, b) == 0
  }

  lemma FilterMore<T>(s: seq<T>, x: T, p: T -> bool)
    ensures Filter(s + [x], p) == Filter(s, p) + if p(x) then [x] else []
  {
    assert (s + [x])[..|s|] == s;
  }

  lemma {:induction false} InsertStable<T(!new)>(s: seq<T>, x: T, compare: (T, T) -> int, a: T)
    requires Orders(compare)
    ensures Filter(Insert(s, x, compare), Ties(compare, a))
            == Filter(s, Ties(compare, a)) + if compare(a, x) == 0 then [x] else []
  {
    hide Orders, Filter;
    var ties := Ties(compare, a);
    if s == [] || compare(s[|s| - 1], x) <= 0 {
      FilterMore(s, x, ties);
      assert s == [] ==> s + [x] == [x];
    } else {
      var init, last := s[..|s| - 1], s[|s| - 1];
      InsertStable(init, x, compare, a);
      NotBothTied(compare, a, x, last);
      FilterMore(Insert(init, x, compare), last, ties);
      FilterMore(init, last, ties);
      assert init + [last] == s;
      assert Insert(s, x, compare) == Insert(init, x, compare) + [last];
    }
  }

  lemma NotBothTied<T(!new)>(compare: (T, T) -> int, a: T, x: T, y: T)
    requires Orders(compare) && compare(y, x) > 0
    ensures !(compare(a, x) == 0 && compare(a, y) == 0)
  {
    assert compare(a, y) == 0 ==> compare(y, a) <= 0;
  }

  /** Elements that compare equal keep their order. */
  lemma {:induction false} SortedStable<T(!new)>(s: seq<T>, compare: (T, T) -> int, a: T)
    requires Orders(compare)
    ensures Filter(Sorted(s, compare), Ties(compare, a)) == Filter(s, Ties(compare, a))
  {
    if s != [] {
      SortedStable(s[..|s| - 1], compare, a);
      InsertStable(Sorted(s[..|s| - 1], compare), s[|s| - 1], compare, a);
    }
  }
}
