/** Sorting by insertion under any order; equal elements keep their places. */
module Sorting {

  ghost predicate Distinct<T(!new)>(s: seq<T>) {
    forall i, j :: 0 <= i < j < |s| ==> s[i] != s[j]
  }

  /** Any two elements compare, and comparing is transitive. */
  ghost predicate IsOrder<T(!new)>(before: (T, T) -> bool) {
    && (forall a, b :: before(a, b) || before(b, a))
    && (forall a, b, c :: before(a, b) && before(b, c) ==> before(a, c))
  }

  ghost predicate IsSorted<T(!new)>(before: (T, T) -> bool, s: seq<T>) {
    forall i, j :: 0 <= i < j < |s| ==> before(s[i], s[j])
  }

  function Insert<T>(before: (T, T) -> bool, x: T, s: seq<T>): seq<T> {
    if s == [] || before(x, s[0]) then [x] + s else [s[0]] + Insert(before, x, s[1..])
  }

  function Sort<T>(before: (T, T) -> bool, s: seq<T>): seq<T> {
    if s == [] then [] else Insert(before, s[0], Sort(before, s[1..]))
  }

  lemma {:induction false} InsertMembers<T>(before: (T, T) -> bool, x: T, s: seq<T>)
    ensures multiset(Insert(before, x, s)) == multiset(s) + multiset{x}
    ensures |Insert(before, x, s)| == |s| + 1
  {
    if s != [] && !before(x, s[0]) {
      assert s == [s[0]] + s[1..];
      InsertMembers(before, x, s[1..]);
    }
  }

  lemma InsertedIn<T>(before: (T, T) -> bool, x: T, s: seq<T>, y: T)
    ensures y in Insert(before, x, s) <==> y == x || y in s
  {
    InsertMembers(before, x, s);
    assert y in Insert(before, x, s) <==> y in multiset(Insert(before, x, s));
    assert y in s <==> y in multiset(s);
  }

  lemma {:induction false} InsertOrders<T(!new)>(before: (T, T) -> bool, x: T, s: seq<T>)
    requires IsOrder(before) && IsSorted(before, s)
    ensures IsSorted(before, Insert(before, x, s))
  {
    if s != [] {
      var r := Insert(before, x, s[1..]);
      if before(x, s[0]) {
        assert forall k :: 0 <= k < |s| ==> before(x, s[k]);
      } else {
        InsertOrders(before, x, s[1..]);
        forall k | 0 <= k < |r|
          ensures before(s[0], r[k])
        {
          InsertedIn(before, x, s[1..], r[k]);
        }
      }
    }
  }

  /** Sorting orders a list and neither drops, adds nor repeats an element. */
  lemma {:induction false} SortOrders<T(!new)>(before: (T, T) -> bool, s: seq<T>)
    requires IsOrder(before)
    ensures IsSorted(before, Sort(before, s))
    ensures multiset(Sort(before, s)) == multiset(s) && |Sort(before, s)| == |s|
  {
    if s != [] {
      assert s == [s[0]] + s[1..];
      SortOrders(before, s[1..]);
      InsertOrders(before, s[0], Sort(before, s[1..]));
      InsertMembers(before, s[0], Sort(before, s[1..]));
    }
  }

  lemma SortedIn<T(!new)>(before: (T, T) -> bool, s: seq<T>, x: T)
    requires IsOrder(before)
    ensures x in Sort(before, s) <==> x in s
  {
    SortOrders(before, s);
    assert x in Sort(before, s) <==> x in multiset(Sort(before, s));
    assert x in s <==> x in multiset(s);
  }

  lemma {:induction false} DistinctBag<T(!new)>(s: seq<T>)
    ensures Distinct(s) <==> forall x :: multiset(s)[x] <= 1
  {
    if s != [] {
      var init, last := s[..|s| - 1], s[|s| - 1];
      assert s == init + [last];
      DistinctBag(init);
      if Distinct(s) {
        assert last !in multiset(init) by { assert last !in init; }
      } else if Distinct(init) {
        var i, j :| 0 <= i < j < |s| && s[i] == s[j];
        assert j == |s| - 1 && init[i] == last;
        assert last in multiset(init);
        assert multiset(s)[last] >= 2;
      } else {
        var x :| multiset(init)[x] > 1;
        assert multiset(s)[x] > 1;
      }
    }
  }

  /** Sorting repeats nothing that was not repeated before. */
  lemma SortKeepsDistinct<T(!new)>(before: (T, T) -> bool, s: seq<T>)
    requires IsOrder(before)
    ensures Distinct(Sort(before, s)) <==> Distinct(s)
  {
    SortOrders(before, s);
    DistinctBag(s);
    DistinctBag(Sort(before, s));
  }
}
