/** Go's `sort.Slice` and `sort.SliceStable` by descending score. */
module Sorting {

  ghost predicate Descending<T>(s: seq<T>, score: T -> real) {
    forall i, j :: 0 <= i < j < |s| ==> score(s[i]) >= score(s[j])
  }

  function Insert<T>(s: seq<T>, x: T, score: T -> real): (r: seq<T>)
    ensures |r| == |s| + 1
  {
    if s == [] || score(s[|s|-1]) >= score(x) then s + [x]
    else Insert(s[..|s|-1], x, score) + [s[|s|-1]]
  }

  /** `sort.SliceStable`. */
  function StableSort<T>(s: seq<T>, score: T -> real): (r: seq<T>)
    ensures |r| == |s|
  {
    if s == [] then [] else Insert(StableSort(s[..|s|-1], score), s[|s|-1], score)
  }

  lemma {:induction false} InsertKeepsAll<T>(s: seq<T>, x: T, score: T -> real)
    ensures multiset(Insert(s, x, score)) == multiset(s) + multiset{x}
  {
    if s != [] && score(s[|s|-1]) < score(x) {
      InsertKeepsAll(s[..|s|-1], x, score);
      assert s == s[..|s|-1] + [s[|s|-1]];
    }
  }

  /** Everything in `s` and `x` bounds the result from above. */
  lemma {:induction false} InsertBounded<T>(s: seq<T>, x: T, score: T -> real, low: real)
    requires forall i :: 0 <= i < |s| ==> score(s[i]) >= low
    requires score(x) >= low
    ensures forall i :: 0 <= i < |s| + 1 ==> score(Insert(s, x, score)[i]) >= low
  {
    if s != [] && score(s[|s|-1]) < score(x) {
      InsertBounded(s[..|s|-1], x, score, low);
    }
  }

  lemma {:induction false} InsertDescending<T>(s: seq<T>, x: T, score: T -> real)
    requires Descending(s, score)
    ensures Descending(Insert(s, x, score), score)
  {
    if s != [] && score(s[|s|-1]) < score(x) {
      InsertDescending(s[..|s|-1], x, score);
      InsertBounded(s[..|s|-1], x, score, score(s[|s|-1]));
    }
  }

  lemma {:induction false} StableSortSorts<T>(s: seq<T>, score: T -> real)
    ensures Descending(StableSort(s, score), score)
    ensures multiset(StableSort(s, score)) == multiset(s)
  {
    if s != [] {
      StableSortSorts(s[..|s|-1], score);
      InsertDescending(StableSort(s[..|s|-1], score), s[|s|-1], score);
      InsertKeepsAll(StableSort(s[..|s|-1], score), s[|s|-1], score);
      assert s == s[..|s|-1] + [s[|s|-1]];
    }
  }

  /** The elements with one particular score, in order. */
  function Ties<T>(s: seq<T>, score: T -> real, v: real): seq<T> {
    if s == [] then []
    else Ties(s[..|s|-1], score, v) + if score(s[|s|-1]) == v then [s[|s|-1]] else []
  }

  lemma {:induction false} InsertKeepsTies<T>(s: seq<T>, x: T, score: T -> real, v: real)
    ensures Ties(Insert(s, x, score), score, v) == Ties(s, score, v) + if score(x) == v then [x] else []
  {
    if s != [] && score(s[|s|-1]) < score(x) {
      InsertKeepsTies(s[..|s|-1], x, score, v);
      assert Insert(s, x, score)[..|s|] == Insert(s[..|s|-1], x, score);
    } else {
      assert (s + [x])[..|s|] == s;
    }
  }

  /** The sort is stable: elements with equal scores keep their order. */
  lemma {:induction false} StableSortIsStable<T>(s: seq<T>, score: T -> real, v: real)
    ensures Ties(StableSort(s, score), score, v) == Ties(s, score, v)
  {
    if s != [] {
      StableSortIsStable(s[..|s|-1], score, v);
      InsertKeepsTies(StableSort(s[..|s|-1], score), s[|s|-1], score, v);
    }
  }

  /** `sort.Slice`: some descending rearrangement; ties may come in any order. */
  method SortSlice<T>(s: seq<T>, score: T -> real) returns (r: seq<T>)
    ensures Descending(r, score) && multiset(r) == multiset(s)
  {
    StableSortSorts(s, score);
    r := StableSort(s, score);
  }

  // ----- rearranging keeps distinct keys distinct -----

  ghost predicate DistinctKeys<T, K(!new)>(s: seq<T>, key: T -> K) {
    forall i, j :: 0 <= i < j < |s| ==> key(s[i]) != key(s[j])
  }

  lemma OccursTwice<T>(s: seq<T>, i: nat, j: nat)
    requires i < j < |s| && s[i] == s[j]
    ensures multiset(s)[s[i]] >= 2
  {
    assert s == s[..j] + [s[j]] + s[j+1..];
    assert multiset(s) == multiset(s[..j]) + multiset{s[j]} + multiset(s[j+1..]);
    assert s[..j][i] in s[..j];
  }

  lemma OccursOnce<T>(s: seq<T>, a: nat)
    requires a < |s| && forall j :: 0 <= j < |s| && j != a ==> s[j] != s[a]
    ensures multiset(s)[s[a]] == 1
  {
    assert s == s[..a] + [s[a]] + s[a+1..];
    assert multiset(s) == multiset(s[..a]) + multiset{s[a]} + multiset(s[a+1..]);
    assert s[a] !in s[..a] && s[a] !in s[a+1..];
  }

  lemma RearrangedDistinct<T, K(!new)>(s: seq<T>, r: seq<T>, key: T -> K)
    requires DistinctKeys(s, key) && multiset(r) == multiset(s)
    ensures DistinctKeys(r, key)
  {
    forall i, j | 0 <= i < j < |r| ensures key(r[i]) != key(r[j]) {
      assert r[i] in multiset(r) && r[j] in multiset(r);
      var a :| 0 <= a < |s| && s[a] == r[i];
      var b :| 0 <= b < |s| && s[b] == r[j];
      if a == b {
        OccursOnce(s, a);
        OccursTwice(r, i, j);
      }
    }
  }

  /** Distinct elements of a set are no more than the set has. */
  lemma {:induction false} DistinctFit<T>(s: seq<T>, all: set<T>)
    requires forall i, j :: 0 <= i < j < |s| ==> s[i] != s[j]
    requires forall i :: 0 <= i < |s| ==> s[i] in all
    ensures |s| <= |all|
  {
    if s != [] { DistinctFit(s[..|s|-1], all - {s[|s|-1]}); }
  }

  // ----- sorting renamed elements -----

  function MapAll<T, U>(g: T -> U, s: seq<T>): (r: seq<U>)
    ensures |r| == |s| && forall i :: 0 <= i < |s| ==> r[i] == g(s[i])
  {
    seq(|s|, i requires 0 <= i < |s| => g(s[i]))
  }

  lemma {:induction false} InsertMapped<T, U>(s: seq<T>, x: T, g: T -> U, f: U -> real, h: T -> real)
    requires f(g(x)) == h(x) && forall i :: 0 <= i < |s| ==> f(g(s[i])) == h(s[i])
    ensures Insert(MapAll(g, s), g(x), f) == MapAll(g, Insert(s, x, h))
  {
    if s == [] || h(s[|s|-1]) >= h(x) {
      assert MapAll(g, s) + [g(x)] == MapAll(g, s + [x]);
    } else {
      var front := s[..|s|-1];
      InsertMapped(front, x, g, f, h);
      assert MapAll(g, s)[..|s|-1] == MapAll(g, front);
      assert MapAll(g, Insert(front, x, h)) + [g(s[|s|-1])] == MapAll(g, Insert(front, x, h) + [s[|s|-1]]);
    }
  }

  /** Renaming the elements commutes with sorting when it keeps the keys. */
  lemma {:induction false} SortMapped<T, U>(s: seq<T>, g: T -> U, f: U -> real, h: T -> real)
    requires forall i :: 0 <= i < |s| ==> f(g(s[i])) == h(s[i])
    ensures StableSort(MapAll(g, s), f) == MapAll(g, StableSort(s, h))
  {
    if s != [] {
      var front := s[..|s|-1];
      SortMapped(front, g, f, h);
      assert MapAll(g, s)[..|s|-1] == MapAll(g, front);
      StableSortSorts(front, h);
      forall i | 0 <= i < |front| ensures f(g(StableSort(front, h)[i])) == h(StableSort(front, h)[i]) {
        assert StableSort(front, h)[i] in multiset(StableSort(front, h));
        var j :| 0 <= j < |front| && front[j] == StableSort(front, h)[i];
        assert s[j] == front[j];
      }
      InsertMapped(StableSort(front, h), s[|s|-1], g, f, h);
    }
  }

  /** Sorting by a constant changes nothing. */
  lemma {:induction false} SortByConstant<T>(s: seq<T>, f: T -> real)
    requires forall i :: 0 <= i < |s| ==> f(s[i]) == 0.0
    ensures StableSort(s, f) == s
  {
    if s != [] {
      SortByConstant(s[..|s|-1], f);
      assert s == s[..|s|-1] + [s[|s|-1]];
    }
  }
}
