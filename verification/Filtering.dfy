/** Dropping the elements of a list whose key is in a set, keeping the order:
    what SQL deletes and the in-place slice filters of the store both do. */
module Filtering {

  function Without<T>(s: seq<T>, key: T -> nat, gone: set<nat>): (r: seq<T>)
    ensures |r| <= |s|
  {
    if s == [] then []
    else
      var last := s[|s|-1];
      Without(s[..|s|-1], key, gone) + (if key(last) in gone then [] else [last])
  }

  /** The elements with one particular key, in order. */
  function Having<T>(s: seq<T>, key: T -> nat, k: nat): seq<T> {
    if s == [] then []
    else
      var last := s[|s|-1];
      Having(s[..|s|-1], key, k) + (if key(last) == k then [last] else [])
  }

  ghost function Keys<T>(s: seq<T>, key: T -> nat): set<nat> {
    set i | 0 <= i < |s| :: key(s[i])
  }

  lemma KeysSnoc<T>(s: seq<T>, key: T -> nat)
    requires s != []
    ensures Keys(s, key) == Keys(s[..|s|-1], key) + {key(s[|s|-1])}
  {
    forall k | k in Keys(s, key) ensures k in Keys(s[..|s|-1], key) + {key(s[|s|-1])} {
      var i :| 0 <= i < |s| && key(s[i]) == k;
      assert i < |s| - 1 ==> s[..|s|-1][i] == s[i];
    }
    forall k | k in Keys(s[..|s|-1], key) ensures k in Keys(s, key) {
      var i :| 0 <= i < |s| - 1 && key(s[..|s|-1][i]) == k;
      assert s[i] == s[..|s|-1][i];
    }
  }

  lemma {:induction false} WithoutConcat<T>(a: seq<T>, b: seq<T>, key: T -> nat, gone: set<nat>)
    ensures Without(a + b, key, gone) == Without(a, key, gone) + Without(b, key, gone)
  {
    if b == [] {
      assert a + b == a;
    } else {
      assert (a + b)[..|a+b|-1] == a + b[..|b|-1];
      WithoutConcat(a, b[..|b|-1], key, gone);
    }
  }

  lemma {:induction false} HavingConcat<T>(a: seq<T>, b: seq<T>, key: T -> nat, k: nat)
    ensures Having(a + b, key, k) == Having(a, key, k) + Having(b, key, k)
  {
    if b == [] {
      assert a + b == a;
    } else {
      assert (a + b)[..|a+b|-1] == a + b[..|b|-1];
      HavingConcat(a, b[..|b|-1], key, k);
    }
  }

  lemma WithoutOne<T>(x: T, key: T -> nat, gone: set<nat>)
    ensures Without([x], key, gone) == if key(x) in gone then [] else [x]
  {
    assert [x][..0] == [];
  }

  lemma HavingOne<T>(x: T, key: T -> nat, k: nat)
    ensures Having([x], key, k) == if key(x) == k then [x] else []
  {
    assert [x][..0] == [];
  }

  lemma {:induction false} WithoutTwice<T>(s: seq<T>, key: T -> nat, a: set<nat>, b: set<nat>)
    ensures Without(Without(s, key, a), key, b) == Without(s, key, a + b)
  {
    if s != [] {
      var init, last := s[..|s|-1], s[|s|-1];
      WithoutTwice(init, key, a, b);
      WithoutConcat(Without(init, key, a), if key(last) in a then [] else [last], key, b);
      WithoutOne(last, key, b);
    }
  }

  lemma {:induction false} WithoutAll<T>(s: seq<T>, key: T -> nat, gone: set<nat>)
    requires Keys(s, key) <= gone
    ensures Without(s, key, gone) == []
  {
    if s != [] {
      KeysSnoc(s, key);
      WithoutAll(s[..|s|-1], key, gone);
    }
  }

  lemma {:induction false} HavingAbsent<T>(s: seq<T>, key: T -> nat, k: nat)
    ensures Having(s, key, k) == [] <==> k !in Keys(s, key)
  {
    if s != [] {
      KeysSnoc(s, key);
      HavingAbsent(s[..|s|-1], key, k);
    }
  }

  lemma {:induction false} HavingWithout<T>(s: seq<T>, key: T -> nat, gone: set<nat>, k: nat)
    ensures Having(Without(s, key, gone), key, k) == if k in gone then [] else Having(s, key, k)
  {
    if s != [] {
      var init, last := s[..|s|-1], s[|s|-1];
      HavingWithout(init, key, gone, k);
      HavingConcat(Without(init, key, gone), if key(last) in gone then [] else [last], key, k);
      HavingOne(last, key, k);
    }
  }

  /** Filtering on one key and selecting on another commute. */
  lemma {:induction false} HavingWithoutOther<T>(s: seq<T>, key: T -> nat, k: nat, other: T -> nat, gone: set<nat>)
    ensures Having(Without(s, other, gone), key, k) == Without(Having(s, key, k), other, gone)
  {
    if s != [] {
      var init, last := s[..|s|-1], s[|s|-1];
      HavingWithoutOther(init, key, k, other, gone);
      WithoutOne(last, other, gone);
      HavingOne(last, key, k);
      HavingConcat(Without(init, other, gone), Without([last], other, gone), key, k);
      WithoutConcat(Having(init, key, k), Having([last], key, k), other, gone);
    }
  }

  lemma KeysConcat<T>(a: seq<T>, b: seq<T>, key: T -> nat)
    ensures Keys(a + b, key) == Keys(a, key) + Keys(b, key)
  {
    forall k ensures k in Keys(a + b, key) <==> k in Keys(a, key) + Keys(b, key) {
      HavingConcat(a, b, key, k);
      HavingAbsent(a, key, k);
      HavingAbsent(b, key, k);
      HavingAbsent(a + b, key, k);
    }
  }

  lemma KeysWithout<T>(s: seq<T>, key: T -> nat, gone: set<nat>)
    ensures Keys(Without(s, key, gone), key) == Keys(s, key) - gone
  {
    forall k ensures k in Keys(Without(s, key, gone), key) <==> k in Keys(s, key) - gone {
      HavingWithout(s, key, gone, k);
      HavingAbsent(s, key, k);
      HavingAbsent(Without(s, key, gone), key, k);
    }
  }

  lemma KeysWithoutOther<T>(s: seq<T>, key: T -> nat, other: T -> nat, gone: set<nat>)
    ensures Keys(Without(s, other, gone), key) <= Keys(s, key)
  {
    forall k | k in Keys(Without(s, other, gone), key) ensures k in Keys(s, key) {
      HavingAbsent(Without(s, other, gone), key, k);
      HavingWithoutOther(s, key, k, other, gone);
      HavingAbsent(s, key, k);
    }
  }

  lemma AppendAgree<T>(x: seq<T>, y: seq<T>, l: seq<T>, r: seq<T>, xy: bool, lr: bool)
    requires if xy then x == y else |x| < |y|
    requires if lr then l == r else |l| < |r|
    ensures if xy && lr then x + l == y + r else |x + l| < |y + r|
  {}

  /** Filtering out more keys changes nothing exactly when none of the extra
      keys occurs. */
  lemma {:induction false} WithoutMore<T>(s: seq<T>, key: T -> nat, big: set<nat>, small: set<nat>)
    requires small <= big
    ensures if Keys(s, key) !! (big - small) then Without(s, key, big) == Without(s, key, small)
            else |Without(s, key, big)| < |Without(s, key, small)|
  {
    if s != [] {
      var init, last := s[..|s|-1], s[|s|-1];
      KeysSnoc(s, key);
      WithoutMore(init, key, big, small);
      AppendAgree(Without(init, key, big), Without(init, key, small),
                  if key(last) in big then [] else [last], if key(last) in small then [] else [last],
                  Keys(init, key) !! (big - small), key(last) !in big - small);
    }
  }

  lemma WithoutNone<T>(s: seq<T>, key: T -> nat, gone: set<nat>)
    requires Keys(s, key) !! gone
    ensures Without(s, key, gone) == s
  {
    WithoutMore(s, key, gone, {});
    WithoutNothing(s, key);
    assert gone - {} == gone;
  }

  lemma {:induction false} WithoutNothing<T>(s: seq<T>, key: T -> nat)
    ensures Without(s, key, {}) == s
  {
    if s != [] {
      WithoutNothing(s[..|s|-1], key);
      assert s == s[..|s|-1] + [s[|s|-1]];
    }
  }

  /** No element with a key in `big` but not in `small` has another key outside `gone`. */
  predicate NoStragglers<T>(s: seq<T>, key: T -> nat, big: set<nat>, small: set<nat>, other: T -> nat, gone: set<nat>) {
    forall i :: 0 <= i < |s| && key(s[i]) in big && key(s[i]) !in small ==> other(s[i]) in gone
  }

  lemma NoStragglersSnoc<T>(s: seq<T>, key: T -> nat, big: set<nat>, small: set<nat>, other: T -> nat, gone: set<nat>)
    requires s != []
    ensures NoStragglers(s, key, big, small, other, gone) <==>
            NoStragglers(s[..|s|-1], key, big, small, other, gone)
            && (key(s[|s|-1]) in big && key(s[|s|-1]) !in small ==> other(s[|s|-1]) in gone)
  {
    var init := s[..|s|-1];
    assert forall i :: 0 <= i < |init| ==> init[i] == s[i];
    assert s[|s|-1] == s[|init|];
  }

  lemma WithoutSnoc<T>(s: seq<T>, key: T -> nat, gone: set<nat>)
    requires s != []
    ensures Without(s, key, gone) == Without(s[..|s|-1], key, gone) + Without([s[|s|-1]], key, gone)
  {
    WithoutOne(s[|s|-1], key, gone);
  }

  lemma FiltersAgreeOnOne<T>(x: T, key: T -> nat, big: set<nat>, small: set<nat>, other: T -> nat, gone: set<nat>)
    requires small <= big
    ensures var l, r := Without(Without([x], key, big), other, gone), Without(Without([x], other, gone), key, small);
            if key(x) in big && key(x) !in small ==> other(x) in gone then l == r else |l| < |r|
  {
    WithoutOne(x, key, big);
    WithoutOne(x, key, small);
    WithoutOne(x, other, gone);
  }

  lemma FiltersAgreeOnNone<T>(key: T -> nat, big: set<nat>, small: set<nat>, other: T -> nat, gone: set<nat>)
    ensures Without(Without([], key, big), other, gone) == Without(Without([], other, gone), key, small)
  {}

  lemma {:induction false} FiltersAgree<T>(s: seq<T>, key: T -> nat, big: set<nat>, small: set<nat>,
                                           other: T -> nat, gone: set<nat>)
    requires small <= big
    ensures var x, y := Without(Without(s, key, big), other, gone), Without(Without(s, other, gone), key, small);
            if NoStragglers(s, key, big, small, other, gone) then x == y else |x| < |y|
  {
    hide Without;
    if s == [] {
      FiltersAgreeOnNone(key, big, small, other, gone);
    } else {
      hide NoStragglers;
      var init, last := s[..|s|-1], s[|s|-1];
      FiltersAgree(init, key, big, small, other, gone);
      NoStragglersSnoc(s, key, big, small, other, gone);
      FiltersAgreeOnOne(last, key, big, small, other, gone);
      WithoutSnoc(s, key, big);
      WithoutSnoc(s, other, gone);
      var a, b := Without([last], key, big), Without([last], other, gone);
      WithoutConcat(Without(init, key, big), a, other, gone);
      WithoutConcat(Without(init, other, gone), b, key, small);
      AppendAgree(Without(Without(init, key, big), other, gone), Without(Without(init, other, gone), key, small),
                  Without(a, other, gone), Without(b, key, small),
                  NoStragglers(init, key, big, small, other, gone),
                  key(last) in big && key(last) !in small ==> other(last) in gone);
    }
  }
}
