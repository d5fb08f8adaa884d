/** When the fused order is determined: the result map is walked in any order, so
    documents with equal scores may come out either way round. */
module FusionOrder {
  import opened Options
  import opened RankFusion
  import opened RankLaws
  import opened Sorting

  // ----- there always is a result -----

  function Flatten(rankings: seq<seq<RagDocument>>): seq<RagDocument> {
    if rankings == [] then [] else Flatten(rankings[..|rankings|-1]) + rankings[|rankings|-1]
  }

  /** The contents that occur, each once. */
  function Contents(docs: seq<RagDocument>): (cs: seq<string>)
    ensures forall i, j :: 0 <= i < j < |cs| ==> cs[i] != cs[j]
    ensures forall c :: c in cs <==> HasContent(docs, c)
  {
    if docs == [] then []
    else
      var front, c := Contents(docs[..|docs|-1]), docs[|docs|-1].content;
      assert docs == docs[..|docs|-1] + [docs[|docs|-1]];
      if c in front then front else front + [c]
  }

  lemma {:induction false} FirstInListed(list: seq<RagDocument>, c: string, n: nat)
    requires n <= |list| && FirstIn(list, c, n).Some?
    ensures FirstIn(list, c, n).value in list
  {
    if FirstIn(list, c, n - 1).Some? { FirstInListed(list, c, n - 1); }
  }

  lemma {:induction false} ListedExactly(rankings: seq<seq<RagDocument>>, c: string)
    ensures HasContent(Flatten(rankings), c) <==> FirstOf(rankings, c, |rankings|).Some?
  {
    if rankings != [] {
      var front, list := rankings[..|rankings|-1], rankings[|rankings|-1];
      ListedExactly(front, c);
      FirstOfPrefix(front, rankings, c, |front|);
      if FirstIn(list, c, |list|).Some? {
        FirstInListed(list, c, |list|);
        FirstInHasContent(list, c, |list|);
      }
      if i :| 0 <= i < |list| && list[i].content == c { FirstInFound(list, i, |list|); }
    }
  }

  lemma {:induction false} FirstOfPrefix(a: seq<seq<RagDocument>>, b: seq<seq<RagDocument>>, c: string, m: nat)
    requires m <= |a| <= |b| && forall i :: 0 <= i < m ==> a[i] == b[i]
    ensures FirstOf(a, c, m) == FirstOf(b, c, m)
  {
    if m > 0 { FirstOfPrefix(a, b, c, m - 1); }
  }

  /** Some fusion result. */
  lemma FusionExists(rankings: seq<seq<RagDocument>>, k: int) returns (full: seq<RagDocument>)
    requires k > 0
    ensures IsFusion(full, rankings, k)
  {
    hide Score, FirstOf, HasContent, Contents;
    var cs := Contents(Flatten(rankings));
    forall c ensures c in cs <==> FirstOf(rankings, c, |rankings|).Some? { ListedExactly(rankings, c); }
    var docs := seq(|cs|, i requires 0 <= i < |cs| && FirstOf(rankings, cs[i], |rankings|).Some? =>
                            Fused(rankings, cs[i], k));
    forall i | 0 <= i < |cs| ensures docs[i].content == cs[i] { FirstHasContent(rankings, cs[i], |rankings|); }
    forall c | FirstOf(rankings, c, |rankings|).Some? ensures Fused(rankings, c, k) in docs {
      var i :| 0 <= i < |cs| && cs[i] == c;
      assert docs[i] == Fused(rankings, c, k);
    }
    StableSortSorts(docs, DOC_SCORE);
    full := StableSort(docs, DOC_SCORE);
    SortKeepsMerge(docs, full, rankings, k);
  }

  // ----- rearranging ties -----

  lemma SameMembers(x: seq<RagDocument>, y: seq<RagDocument>, rankings: seq<seq<RagDocument>>, k: int)
    requires k > 0 && IsFusion(x, rankings, k) && IsFusion(y, rankings, k)
    ensures forall d :: d in x ==> d in y
  {
    hide Score, FirstOf;
  }

  /** Two documents with the same score can change places. */
  lemma TieSwaps(x: seq<RagDocument>, rankings: seq<seq<RagDocument>>, k: int, i: nat, j: nat)
    requires k > 0 && IsFusion(x, rankings, k) && i < |x| && j < |x| && i != j && x[i].score == x[j].score
    ensures var y := x[i := x[j]][j := x[i]]; IsFusion(y, rankings, k) && y != x
  {
    hide IsMerge;
    var y := x[i := x[j]][j := x[i]];
    assert multiset(y) == multiset(x);
    SortKeepsMerge(x, y, rankings, k);
    assert forall n :: 0 <= n < |x| ==> DOC_SCORE(y[n]) == DOC_SCORE(x[n]);
    ContentsDiffer(x, rankings, k, i, j);
  }

  lemma ContentsDiffer(x: seq<RagDocument>, rankings: seq<seq<RagDocument>>, k: int, i: nat, j: nat)
    requires k > 0 && IsMerge(x, rankings, k) && i < |x| && j < |x| && i != j
    ensures x[i] != x[j]
  {
    var lo, hi := if i < j then i else j, if i < j then j else i;
    assert DOC_CONTENT(x[lo]) != DOC_CONTENT(x[hi]);
  }

  lemma PlacesOf(x: seq<RagDocument>, rankings: seq<seq<RagDocument>>, k: int, c: string, d: string)
      returns (i: nat, j: nat)
    requires k > 0 && IsFusion(x, rankings, k) && c != d
    requires FirstOf(rankings, c, |rankings|).Some? && FirstOf(rankings, d, |rankings|).Some?
    requires Score(rankings, c, k, |rankings|) == Score(rankings, d, k, |rankings|)
    ensures i < |x| && j < |x| && i != j && x[i].score == x[j].score
  {
    hide Score, FirstOf;
    FirstHasContent(rankings, c, |rankings|);
    FirstHasContent(rankings, d, |rankings|);
    assert Fused(rankings, c, k) in x && Fused(rankings, d, k) in x;
    i :| 0 <= i < |x| && x[i] == Fused(rankings, c, k);
    j :| 0 <= j < |x| && x[j] == Fused(rankings, d, k);
  }

  lemma DistinctDocs(x: seq<RagDocument>, rankings: seq<seq<RagDocument>>, k: int)
    requires k > 0 && IsMerge(x, rankings, k)
    ensures forall i, j :: 0 <= i < j < |x| ==> x[i] != x[j]
  {
    hide IsMerge;
    forall i, j | 0 <= i < j < |x| ensures x[i] != x[j] { ContentsDiffer(x, rankings, k, i, j); }
  }

  lemma NoLonger(x: seq<RagDocument>, y: seq<RagDocument>, rankings: seq<seq<RagDocument>>, k: int)
    requires k > 0 && IsFusion(x, rankings, k) && IsFusion(y, rankings, k)
    ensures |x| <= |y|
  {
    hide IsMerge;
    SameMembers(x, y, rankings, k);
    DistinctDocs(x, rankings, k);
    var all := set i | 0 <= i < |y| :: y[i];
    forall i | 0 <= i < |x| ensures x[i] in all { assert x[i] in x; }
    DistinctFit(x, all);
    ElementsFit(y, |y|);
  }

  lemma {:induction false} ElementsFit(y: seq<RagDocument>, n: nat)
    requires n <= |y|
    ensures |set i | 0 <= i < n :: y[i]| <= n
  {
    if n > 0 {
      ElementsFit(y, n - 1);
      assert (set i | 0 <= i < n :: y[i]) == (set i | 0 <= i < n - 1 :: y[i]) + {y[n-1]};
    }
  }

  /** At each place all results have the same score. */
  lemma SameScores(x: seq<RagDocument>, y: seq<RagDocument>, rankings: seq<seq<RagDocument>>, k: int)
    requires k > 0 && IsFusion(x, rankings, k) && IsFusion(y, rankings, k)
    ensures |x| == |y| && forall i :: 0 <= i < |x| ==> x[i].score == y[i].score
  {
    hide IsFusion;
    NoLonger(x, y, rankings, k);
    NoLonger(y, x, rankings, k);
    forall i | 0 <= i < |x| ensures x[i].score == y[i].score {
      NotHigher(x, y, rankings, k, i);
      NotHigher(y, x, rankings, k, i);
    }
  }

  lemma NotHigher(x: seq<RagDocument>, y: seq<RagDocument>, rankings: seq<seq<RagDocument>>, k: int, i: nat)
    requires k > 0 && IsFusion(x, rankings, k) && IsFusion(y, rankings, k) && i < |x| && i < |y|
    ensures x[i].score <= y[i].score
  {
    hide IsMerge;
    if x[i].score > y[i].score {
      SameMembers(x, y, rankings, k);
      DistinctDocs(x, rankings, k);
      var front := x[..i+1];
      var all := set m | 0 <= m < i :: y[m];
      ByScore(x);
      ByScore(y);
      forall m | 0 <= m < |front| ensures front[m] in all {
        assert front[m] == x[m] && x[m] in x;
        var q :| 0 <= q < |y| && y[q] == x[m];
      }
      DistinctFit(front, all);
      ElementsFit(y, i);
      assert false;
    }
  }

  // ----- two keys -----

  /** Ordered by `f`, and by fused score where `f` is equal. */
  predicate Before(f: RagDocument -> real, x: RagDocument, y: RagDocument) {
    f(x) > f(y) || (f(x) == f(y) && x.score >= y.score)
  }

  predicate Tied(f: RagDocument -> real, x: RagDocument, y: RagDocument) {
    f(x) == f(y) && x.score == y.score
  }

  ghost predicate LexSorted(docs: seq<RagDocument>, f: RagDocument -> real) {
    forall i, j :: 0 <= i < j < |docs| ==> Before(f, docs[i], docs[j])
  }

  /** Nothing among the first `m` ties with anything after it. */
  predicate NoTieBefore(docs: seq<RagDocument>, f: RagDocument -> real, m: nat) {
    forall i, j :: 0 <= i < j < |docs| && i < m ==> !Tied(f, docs[i], docs[j])
  }

  ghost predicate AllDistinct(docs: seq<RagDocument>) {
    forall i, j :: 0 <= i < j < |docs| ==> docs[i] != docs[j]
  }

  lemma {:induction false} InsertLex(s: seq<RagDocument>, x: RagDocument, f: RagDocument -> real)
    requires LexSorted(s, f) && forall i :: 0 <= i < |s| ==> s[i].score >= x.score
    ensures LexSorted(Insert(s, x, f), f)
  {
    if s != [] && f(s[|s|-1]) < f(x) {
      var front, last := s[..|s|-1], s[|s|-1];
      InsertLex(front, x, f);
      InsertKeepsAll(front, x, f);
      var r := Insert(front, x, f);
      forall i | 0 <= i < |r| ensures Before(f, r[i], last) {
        assert r[i] in multiset(r);
        if r[i] != x {
          var j :| 0 <= j < |front| && front[j] == r[i];
          assert Before(f, s[j], s[|s|-1]);
        }
      }
    }
  }

  /** A stable sort of a list in fused order is ordered by both keys. */
  lemma {:induction false} SortsByBoth(docs: seq<RagDocument>, f: RagDocument -> real)
    requires Descending(docs, DOC_SCORE)
    ensures LexSorted(StableSort(docs, f), f)
  {
    if docs != [] {
      var front, last := docs[..|docs|-1], docs[|docs|-1];
      assert forall i, j :: 0 <= i < j < |front| ==> DOC_SCORE(front[i]) >= DOC_SCORE(front[j]);
      SortsByBoth(front, f);
      StableSortSorts(front, f);
      var r := StableSort(front, f);
      forall i | 0 <= i < |r| ensures r[i].score >= last.score {
        assert r[i] in multiset(r);
        var j :| 0 <= j < |front| && front[j] == r[i];
        assert DOC_SCORE(docs[j]) >= DOC_SCORE(docs[|docs|-1]);
      }
      InsertLex(r, last, f);
    }
  }

  lemma SortKeepsDistinct(docs: seq<RagDocument>, f: RagDocument -> real)
    requires AllDistinct(docs)
    ensures AllDistinct(StableSort(docs, f)) && forall d :: d in StableSort(docs, f) <==> d in docs
  {
    StableSortSorts(docs, f);
    var id := (d: RagDocument) => d;
    assert DistinctKeys(docs, id);
    RearrangedDistinct(docs, StableSort(docs, f), id);
    assert forall i, j :: 0 <= i < j < |docs| ==> id(StableSort(docs, f)[i]) != id(StableSort(docs, f)[j]);
    forall d ensures d in StableSort(docs, f) <==> d in docs {
      assert d in multiset(StableSort(docs, f)) <==> d in multiset(docs);
    }
  }

  lemma ByScore(x: seq<RagDocument>)
    requires Descending(x, DOC_SCORE)
    ensures forall i, j :: 0 <= i < j < |x| ==> x[i].score >= x[j].score
  {
    assert forall i, j :: 0 <= i < j < |x| ==> DOC_SCORE(x[i]) >= DOC_SCORE(x[j]);
  }

  lemma SameBelow(x: seq<RagDocument>, y: seq<RagDocument>, i: nat)
    requires i <= |x| && i <= |y| && x[..i] == y[..i]
    ensures forall t :: 0 <= t < i ==> x[t] == y[t]
  {
    forall t | 0 <= t < i ensures x[t] == y[t] { assert x[..i][t] == y[..i][t]; }
  }

  /** Two ordered lists, the second without some of the later elements of the first:
      they agree as long as the first has no ties. */
  lemma {:induction false} SamePrefix(x: seq<RagDocument>, y: seq<RagDocument>, f: RagDocument -> real, m: nat)
    requires LexSorted(x, f) && LexSorted(y, f) && AllDistinct(x) && AllDistinct(y)
    requires (forall d :: d in y ==> d in x) && m <= |x| && forall i :: 0 <= i < m ==> x[i] in y
    requires NoTieBefore(x, f, m)
    ensures m <= |y| && x[..m] == y[..m]
  {
    if m > 0 {
      var i := m - 1;
      SamePrefix(x, y, f, i);
      NextTied(x, y, f, i);
      SameBelow(x, y, i);
      assert y[i] in y;
      var p :| 0 <= p < |x| && x[p] == y[i];
      assert p == i;
      assert x[..m] == x[..i] + [x[i]] && y[..m] == y[..i] + [y[i]];
    }
  }

  /** After a common prefix, the second list goes on with something tied. */
  lemma NextTied(x: seq<RagDocument>, y: seq<RagDocument>, f: RagDocument -> real, i: nat)
    requires LexSorted(x, f) && LexSorted(y, f) && AllDistinct(x) && AllDistinct(y)
    requires (forall d :: d in y ==> d in x) && i < |x| && x[i] in y && i <= |y| && x[..i] == y[..i]
    ensures i < |y| && Tied(f, y[i], x[i])
  {
    SameBelow(x, y, i);
    var q :| 0 <= q < |y| && y[q] == x[i];
    assert y[i] in y;
    var p :| 0 <= p < |x| && x[p] == y[i];
    if q != i {
      assert Before(f, y[i], y[q]);
      if p != i { assert Before(f, x[i], x[p]); }
    }
  }

  // ----- one result after truncation -----

  const SAME: RagDocument -> real := (d: RagDocument) => 0.0

  /** Two results tie at a place that is returned. */
  predicate TieReturned(full: seq<RagDocument>, topK: int) {
    exists i, j :: 0 <= i < j < |full| && full[i].score == full[j].score && (topK <= 0 || i < topK)
  }

  lemma FusionLex(x: seq<RagDocument>, rankings: seq<seq<RagDocument>>, k: int)
    requires k > 0 && IsFusion(x, rankings, k)
    ensures LexSorted(x, SAME) && AllDistinct(x)
  {
    hide IsMerge;
    DistinctDocs(x, rankings, k);
    assert forall i, j :: 0 <= i < j < |x| ==> DOC_SCORE(x[i]) >= DOC_SCORE(x[j]);
  }

  lemma UntiedAgree(full: seq<RagDocument>, other: seq<RagDocument>, rankings: seq<seq<RagDocument>>, k: int, topK: int)
    requires k > 0 && IsFusion(full, rankings, k) && IsFusion(other, rankings, k) && !TieReturned(full, topK)
    ensures Truncated(other, topK) == Truncated(full, topK)
  {
    hide IsFusion, LexSorted, NoTieBefore, TieReturned, Truncated, AllDistinct;
    var m := if topK <= 0 || topK > |full| then |full| else topK;
    SameScores(full, other, rankings, k);
    SameMembers(full, other, rankings, k);
    SameMembers(other, full, rankings, k);
    FusionLex(full, rankings, k);
    FusionLex(other, rankings, k);
    forall i | 0 <= i < m ensures full[i] in other { assert full[i] in full; }
    NoTieReturned(full, topK, m);
    SamePrefix(full, other, SAME, m);
    SameTruncation(full, other, topK, m);
  }

  lemma NoTieReturned(full: seq<RagDocument>, topK: int, m: nat)
    requires !TieReturned(full, topK) && (topK <= 0 || m <= topK)
    ensures NoTieBefore(full, SAME, m)
  {}

  lemma SameTruncation(x: seq<RagDocument>, y: seq<RagDocument>, topK: int, m: nat)
    requires |x| == |y| && m == (if topK <= 0 || topK > |x| then |x| else topK) && x[..m] == y[..m]
    ensures Truncated(x, topK) == Truncated(y, topK)
  {
    assert x[..|x|] == x && y[..|y|] == y;
  }

  /** `RRFusion` has exactly one result if and only if no two contents tie at a place
      that is returned. */
  lemma OneResultBy(full: seq<RagDocument>, rankings: seq<seq<RagDocument>>, k: int, topK: int)
    requires k > 0 && IsFusion(full, rankings, k)
    ensures (forall x, y :: IsResult(x, rankings, k, topK) && IsResult(y, rankings, k, topK) ==> x == y)
       <==> !TieReturned(full, topK)
  {
    hide IsFusion;
    if TieReturned(full, topK) {
      var i, j :| 0 <= i < j < |full| && full[i].score == full[j].score && (topK <= 0 || i < topK);
      var other := full[i := full[j]][j := full[i]];
      TieSwaps(full, rankings, k, i, j);
      assert IsResult(Truncated(full, topK), rankings, k, topK) && IsResult(Truncated(other, topK), rankings, k, topK);
      FusionDistinct(full, rankings, k, i, j);
      assert Truncated(full, topK)[i] == full[i] && Truncated(other, topK)[i] == full[j];
    } else {
      forall x, y | IsResult(x, rankings, k, topK) && IsResult(y, rankings, k, topK) ensures x == y {
        var u :| IsFusion(u, rankings, k) && x == Truncated(u, topK);
        var v :| IsFusion(v, rankings, k) && y == Truncated(v, topK);
        UntiedAgree(full, u, rankings, k, topK);
        UntiedAgree(full, v, rankings, k, topK);
      }
    }
  }

  lemma FusionDistinct(x: seq<RagDocument>, rankings: seq<seq<RagDocument>>, k: int, i: nat, j: nat)
    requires k > 0 && IsFusion(x, rankings, k) && i < |x| && j < |x| && i != j
    ensures x[i] != x[j]
  {
    ContentsDiffer(x, rankings, k, i, j);
  }

  // ----- the same by counting -----

  /** The contents with a fused score above `v`. */
  function Above(rankings: seq<seq<RagDocument>>, k: int, v: real): set<string>
    requires k > 0
  {
    set c | c in Contents(Flatten(rankings)) && Score(rankings, c, k, |rankings|) > v
  }

  predicate Occurs(rankings: seq<seq<RagDocument>>, c: string) {
    FirstOf(rankings, c, |rankings|).Some?
  }

  /** Ties only where at least `topK` contents are better. */
  ghost predicate TiesBelow(rankings: seq<seq<RagDocument>>, k: int, topK: int)
    requires k > 0
  {
    forall c, d :: c != d && Occurs(rankings, c) && Occurs(rankings, d)
                   && Score(rankings, c, k, |rankings|) == Score(rankings, d, k, |rankings|) ==>
      topK > 0 && |Above(rankings, k, Score(rankings, c, k, |rankings|))| >= topK
  }

  lemma FusionMember(full: seq<RagDocument>, rankings: seq<seq<RagDocument>>, k: int, i: nat)
    requires k > 0 && IsFusion(full, rankings, k) && i < |full|
    ensures Occurs(rankings, full[i].content) && full[i].score == Score(rankings, full[i].content, k, |rankings|)
  {
    hide Score, FirstOf;
    assert full[i] in full;
  }

  /** The contents above the score at place `t` stand before it; if all before `t`
      are above, they are exactly those. */
  lemma AboveAtMost(full: seq<RagDocument>, rankings: seq<seq<RagDocument>>, k: int, t: nat)
    requires k > 0 && IsFusion(full, rankings, k) && t < |full|
    ensures |Above(rankings, k, full[t].score)| <= t
  {
    hide Score, FirstOf, Contents, IsMerge;
    var cs := MapAll(DOC_CONTENT, full[..t]);
    var above := Above(rankings, k, full[t].score);
    ByScore(full);
    forall c | c in above ensures c in cs {
      ListedExactly(rankings, c);
      var m := PlaceOf(full, rankings, k, c);
      assert cs[m] == c;
    }
    assert above <= (set i | 0 <= i < |cs| :: cs[i]);
    SubsetFits(above, cs);
  }

  lemma {:induction false} SubsetFits(few: set<string>, cs: seq<string>)
    requires forall c :: c in few ==> c in cs
    ensures |few| <= |cs|
  {
    if cs == [] {
      assert few == {};
    } else {
      var front, last := cs[..|cs|-1], cs[|cs|-1];
      SubsetFits(few - {last}, front);
      if last in few { assert |few - {last}| == |few| - 1; } else { assert few - {last} == few; }
    }
  }

  lemma PlaceOf(full: seq<RagDocument>, rankings: seq<seq<RagDocument>>, k: int, c: string) returns (m: nat)
    requires k > 0 && IsFusion(full, rankings, k) && Occurs(rankings, c)
    ensures m < |full| && full[m].content == c && full[m].score == Score(rankings, c, k, |rankings|)
  {
    hide Score, FirstOf;
    FirstHasContent(rankings, c, |rankings|);
    assert Fused(rankings, c, k) in full;
    m :| 0 <= m < |full| && full[m] == Fused(rankings, c, k);
  }

  lemma AboveAtLeast(full: seq<RagDocument>, rankings: seq<seq<RagDocument>>, k: int, t: nat, v: real)
    requires k > 0 && IsFusion(full, rankings, k) && t <= |full| && forall i :: 0 <= i < t ==> full[i].score > v
    ensures |Above(rankings, k, v)| >= t
  {
    hide Score, FirstOf, Contents, IsMerge;
    var cs := MapAll(DOC_CONTENT, full[..t]);
    forall i | 0 <= i < |cs| ensures cs[i] in Above(rankings, k, v) {
      FusionMember(full, rankings, k, i);
      ListedExactly(rankings, cs[i]);
    }
    forall i, j | 0 <= i < j < |cs| ensures cs[i] != cs[j] { DistinctAt(full, rankings, k, i, j); }
    DistinctFit(cs, Above(rankings, k, v));
  }

  lemma DistinctAt(full: seq<RagDocument>, rankings: seq<seq<RagDocument>>, k: int, i: nat, j: nat)
    requires k > 0 && IsMerge(full, rankings, k) && i < j < |full|
    ensures full[i].content != full[j].content
  {
    assert DOC_CONTENT(full[i]) != DOC_CONTENT(full[j]);
  }

  lemma {:induction false} FirstAtMost(full: seq<RagDocument>, v: real, i: nat) returns (t: nat)
    requires i < |full| && full[i].score <= v
    ensures t <= i && full[t].score <= v && forall m :: 0 <= m < t ==> full[m].score > v
  {
    if m: nat :| m < i && full[m].score <= v { t := FirstAtMost(full, v, m); } else { t := i; }
  }

  lemma TiesCounted(full: seq<RagDocument>, rankings: seq<seq<RagDocument>>, k: int, topK: int)
    requires k > 0 && IsFusion(full, rankings, k)
    ensures TieReturned(full, topK) <==> !TiesBelow(rankings, k, topK)
  {
    hide Score, FirstOf, Above, IsMerge;
    if TieReturned(full, topK) {
      var i, j :| 0 <= i < j < |full| && full[i].score == full[j].score && (topK <= 0 || i < topK);
      FusionMember(full, rankings, k, i);
      FusionMember(full, rankings, k, j);
      DistinctAt(full, rankings, k, i, j);
      AboveAtMost(full, rankings, k, i);
      assert Occurs(rankings, full[i].content) && Occurs(rankings, full[j].content);
    }
    if !TiesBelow(rankings, k, topK) {
      var c, d :| c != d && Occurs(rankings, c) && Occurs(rankings, d)
        && Score(rankings, c, k, |rankings|) == Score(rankings, d, k, |rankings|)
        && !(topK > 0 && |Above(rankings, k, Score(rankings, c, k, |rankings|))| >= topK);
      var i := PlaceOf(full, rankings, k, c);
      var j := PlaceOf(full, rankings, k, d);
      var v := full[i].score;
      var t := FirstAtMost(full, v, if i < j then i else j);
      AboveAtLeast(full, rankings, k, t, v);
      var later := if i < j then j else i;
      assert t < later && DOC_SCORE(full[t]) >= DOC_SCORE(full[later]);
      assert full[t].score == full[later].score;
    }
  }

  /** So the returned list is determined if and only if contents tie only where at
      least `topK` contents have a larger score; without truncation, not at all. */
  lemma OneResultExactly(rankings: seq<seq<RagDocument>>, k: int, topK: int)
    requires k > 0
    ensures (forall x, y :: IsResult(x, rankings, k, topK) && IsResult(y, rankings, k, topK) ==> x == y)
       <==> TiesBelow(rankings, k, topK)
  {
    hide IsFusion, IsResult, TieReturned, TiesBelow;
    var full := FusionExists(rankings, k);
    OneResultBy(full, rankings, k, topK);
    TiesCounted(full, rankings, k, topK);
  }
}
