/** Python's `sorted` with a numeric key: the stable sort, and what stability means. */
module Sorting {

  predicate Ordered<T>(s: seq<T>, key: T -> real) {
    forall i, j :: 0 <= i < j < |s| ==> key(s[i]) <= key(s[j])
  }

  /** Places `x` after every item whose key is not larger. */
  function Place<T>(s: seq<T>, x: T, key: T -> real): seq<T> {
    if s == [] then [x]
    else if key(s[|s| - 1]) <= key(x) then s + [x]
    else Place(s[..|s| - 1], x, key) + [s[|s| - 1]]
  }

  function SortBy<T>(s: seq<T>, key: T -> real): seq<T> {
    if s == [] then [] else Place(SortBy(s[..|s| - 1], key), s[|s| - 1], key)
  }

  /** The items with one key, in their order. */
  function WithKey<T>(s: seq<T>, key: T -> real, v: real): seq<T> {
    if s == [] then []
    else
      var rest := WithKey(s[..|s| - 1], key, v);
      if key(s[|s| - 1]) == v then rest + [s[|s| - 1]] else rest
  }

  lemma Ends<T>(s: seq<T>, x: T)
    ensures (s + [x])[..|s|] == s && (s + [x])[|s|] == x && |s + [x]| - 1 == |s|
  {
  }

  lemma {:induction false} PlaceItems<T>(s: seq<T>, x: T, key: T -> real)
    ensures |Place(s, x, key)| == |s| + 1
    ensures multiset(Place(s, x, key)) == multiset(s) + multiset{x}
    ensures forall i :: 0 <= i <= |s| ==> Place(s, x, key)[i] == x || Place(s, x, key)[i] in s
  {
    if s != [] && key(s[|s| - 1]) > key(x) {
      PlaceItems(s[..|s| - 1], x, key);
      assert s == s[..|s| - 1] + [s[|s| - 1]];
    }
  }

  lemma {:induction false} PlaceOrdered<T>(s: seq<T>, x: T, key: T -> real)
    requires Ordered(s, key)
    ensures Ordered(Place(s, x, key), key)
  {
    if s != [] && key(s[|s| - 1]) > key(x) {
      var front, last := s[..|s| - 1], s[|s| - 1];
      PlaceOrdered(front, x, key);
      PlaceItems(front, x, key);
      var t := Place(front, x, key);
      forall i | 0 <= i < |t|
        ensures key(t[i]) <= key(last)
      {
        if t[i] != x {
          var j :| 0 <= j < |front| && front[j] == t[i];
          assert key(s[j]) <= key(s[|s| - 1]);
        }
      }
    }
  }

  lemma {:induction false} PlaceStable<T>(s: seq<T>, x: T, key: T -> real, v: real)
    requires Ordered(s, key)
    ensures WithKey(Place(s, x, key), key, v) == WithKey(s + [x], key, v)
  {
    Ends(s, x);
    if s != [] && key(s[|s| - 1]) > key(x) {
      var front, last := s[..|s| - 1], s[|s| - 1];
      PlaceStable(front, x, key, v);
      Ends(front, x);
      Ends(Place(front, x, key), last);
      if key(x) == v {
        assert key(last) != v;
      }
    }
  }

  /** SORTING: an ordered permutation in which the items with equal keys keep their order. */
  lemma {:induction false} SortFacts<T>(s: seq<T>, key: T -> real)
    ensures Ordered(SortBy(s, key), key)
    ensures multiset(SortBy(s, key)) == multiset(s)
    ensures |SortBy(s, key)| == |s|
    ensures forall v :: WithKey(SortBy(s, key), key, v) == WithKey(s, key, v)
  {
    if s != [] {
      var front, last := s[..|s| - 1], s[|s| - 1];
      SortFacts(front, key);
      var t := SortBy(front, key);
      PlaceItems(t, last, key);
      PlaceOrdered(t, last, key);
      assert s == front + [last];
      forall v
        ensures WithKey(SortBy(s, key), key, v) == WithKey(s, key, v)
      {
        PlaceStable(t, last, key, v);
        Ends(t, last);
      }
    }
  }

  /** Sorting what is ordered already changes nothing. */
  lemma {:induction false} SortKeeps<T>(s: seq<T>, key: T -> real)
    requires Ordered(s, key)
    ensures SortBy(s, key) == s
  {
    if s != [] {
      SortKeeps(s[..|s| - 1], key);
      assert s == s[..|s| - 1] + [s[|s| - 1]];
    }
  }
}
