/** What reciprocal rank fusion guarantees, whatever the lists. */
module RankLaws {
  import opened Options
  import opened RankFusion
  import opened Sorting

  lemma WeightPositive(k: int, rank: nat)
    requires k > 0
    ensures Weight(k, rank) > 0.0
  {}

  lemma WeightDecreases(k: int, a: nat, b: nat)
    requires k > 0 && a < b
    ensures Weight(k, a) > Weight(k, b)
  {
    var x, y := (k + a) as real, (k + b) as real;
    assert 0.0 < x < y;
    assert (1.0 / x) * x == 1.0 && (1.0 / y) * y == 1.0;
    if 1.0 / x <= 1.0 / y {
      ProductGrows(1.0 / x, 1.0 / y, x, y);
    }
  }

  lemma ProductGrows(p: real, q: real, x: real, y: real)
    requires 0.0 < p <= q && 0.0 < x < y
    ensures p * x < q * y
  {
    assert p * x < p * y;
    assert p * y <= q * y;
  }

  // ----- the order of the lists does not matter -----

  function ListScore(lists: seq<seq<RagDocument>>, c: string, k: int): real
    requires k > 0
  {
    Score(lists, c, k, |lists|)
  }

  lemma {:induction false} ScorePrefix(a: seq<seq<RagDocument>>, b: seq<seq<RagDocument>>, c: string, k: int, m: nat)
    requires k > 0 && m <= |a| <= |b| && forall i :: 0 <= i < m ==> a[i] == b[i]
    ensures Score(a, c, k, m) == Score(b, c, k, m)
  {
    if m > 0 { ScorePrefix(a, b, c, k, m - 1); }
  }

  lemma {:induction false} ScoreConcat(a: seq<seq<RagDocument>>, b: seq<seq<RagDocument>>, c: string, k: int)
    requires k > 0
    ensures ListScore(a + b, c, k) == ListScore(a, c, k) + ListScore(b, c, k)
  {
    if b == [] {
      assert a + b == a;
    } else {
      var init := b[..|b|-1];
      ScoreConcat(a, init, c, k);
      assert forall i :: 0 <= i < |a + init| ==> (a + init)[i] == (a + b)[i];
      ScorePrefix(a + init, a + b, c, k, |a + init|);
      ScorePrefix(init, b, c, k, |init|);
    }
  }

  lemma ScoreOne(l: seq<RagDocument>, c: string, k: int)
    requires k > 0
    ensures ListScore([l], c, k) == Gain(l, c, k, |l|)
  {
    assert Score([l], c, k, 0) == 0.0;
  }

  /** Taking one list out takes its gain out. */
  lemma ScoreWithout(b: seq<seq<RagDocument>>, i: nat, c: string, k: int)
    requires k > 0 && i < |b|
    ensures ListScore(b, c, k) == ListScore(b[..i] + b[i+1..], c, k) + Gain(b[i], c, k, |b[i]|)
    ensures multiset(b[..i] + b[i+1..]) == multiset(b) - multiset{b[i]}
  {
    hide Score, Gain;
    var front, back := b[..i], b[i+1..];
    assert b == front + [b[i]] + back;
    assert multiset(b) == multiset(front) + multiset{b[i]} + multiset(back);
    ScoreConcat(front + [b[i]], back, c, k);
    ScoreConcat(front, [b[i]], c, k);
    ScoreOne(b[i], c, k);
    ScoreConcat(front, back, c, k);
  }

  /** A fused score depends on which lists there are, not on their order. */
  lemma {:induction false} ScoreIgnoresOrder(a: seq<seq<RagDocument>>, b: seq<seq<RagDocument>>, c: string, k: int)
    requires k > 0 && multiset(a) == multiset(b)
    ensures ListScore(a, c, k) == ListScore(b, c, k)
    decreases |a|
  {
    hide ListScore, Score, Gain;
    if a == [] {
      assert |multiset(b)| == |b|;
      assert b == [];
    } else {
      assert a[0] in multiset(a);
      var i :| 0 <= i < |b| && b[i] == a[0];
      ScoreWithout(a, 0, c, k);
      ScoreWithout(b, i, c, k);
      ScoreIgnoresOrder(a[..0] + a[1..], b[..i] + b[i+1..], c, k);
    }
  }

  // ----- the scores add up -----

  function TotalScore(docs: seq<RagDocument>): real {
    if docs == [] then 0.0 else TotalScore(docs[..|docs|-1]) + docs[|docs|-1].score
  }

  /** The sum of all weights in a list of length `n`. */
  function ListWeight(k: int, n: nat): real
    requires k > 0
  {
    if n == 0 then 0.0 else ListWeight(k, n - 1) + Weight(k, n)
  }

  function AllWeight(rankings: seq<seq<RagDocument>>, k: int, m: nat): real
    requires k > 0 && m <= |rankings|
  {
    if m == 0 then 0.0 else AllWeight(rankings, k, m - 1) + ListWeight(k, |rankings[m-1]|)
  }

  function SumGain(docs: seq<RagDocument>, list: seq<RagDocument>, k: int, n: nat): real
    requires k > 0 && n <= |list|
  {
    if docs == [] then 0.0
    else SumGain(docs[..|docs|-1], list, k, n) + Gain(list, docs[|docs|-1].content, k, n)
  }

  function SumScore(docs: seq<RagDocument>, rankings: seq<seq<RagDocument>>, k: int, m: nat): real
    requires k > 0 && m <= |rankings|
  {
    if docs == [] then 0.0
    else SumScore(docs[..|docs|-1], rankings, k, m) + Score(rankings, docs[|docs|-1].content, k, m)
  }

  predicate HasContent(docs: seq<RagDocument>, c: string) {
    exists d :: d in docs && d.content == c
  }

  /** Adding one place of a list adds its weight once per document with that content. */
  lemma {:induction false} SumGainStep(docs: seq<RagDocument>, list: seq<RagDocument>, k: int, n: nat)
    requires k > 0 && 0 < n <= |list| && DistinctContents(docs)
    ensures SumGain(docs, list, k, n) == SumGain(docs, list, k, n - 1)
      + (if HasContent(docs, list[n-1].content) then Weight(k, n) else 0.0)
  {
    if docs != [] {
      var init, last := docs[..|docs|-1], docs[|docs|-1];
      DistinctInit(docs);
      SumGainStep(init, list, k, n);
      assert docs == init + [last];
    }
  }

  lemma DistinctInit(docs: seq<RagDocument>)
    requires DistinctContents(docs) && docs != []
    ensures DistinctContents(docs[..|docs|-1])
    ensures forall d :: d in docs[..|docs|-1] ==> d.content != docs[|docs|-1].content
  {
    var init := docs[..|docs|-1];
    assert forall i :: 0 <= i < |init| ==> init[i] == docs[i];
    forall i, j | 0 <= i < j < |init| ensures DOC_CONTENT(init[i]) != DOC_CONTENT(init[j]) {
      assert DOC_CONTENT(docs[i]) != DOC_CONTENT(docs[j]);
    }
    forall d | d in init ensures d.content != docs[|docs|-1].content {
      var i :| 0 <= i < |init| && init[i] == d;
      assert DOC_CONTENT(docs[i]) != DOC_CONTENT(docs[|docs|-1]);
    }
  }

  /** `docs` has an entry for every content of the list. */
  ghost predicate Covers(docs: seq<RagDocument>, list: seq<RagDocument>) {
    forall i :: 0 <= i < |list| ==> HasContent(docs, list[i].content)
  }

  lemma {:induction false} SumGainNothing(docs: seq<RagDocument>, list: seq<RagDocument>, k: int)
    requires k > 0
    ensures SumGain(docs, list, k, 0) == 0.0
  {
    if docs != [] { SumGainNothing(docs[..|docs|-1], list, k); }
  }

  lemma {:induction false} SumGainTotal(docs: seq<RagDocument>, list: seq<RagDocument>, k: int, n: nat)
    requires k > 0 && n <= |list| && DistinctContents(docs) && Covers(docs, list)
    ensures SumGain(docs, list, k, n) == ListWeight(k, n)
  {
    if n == 0 {
      SumGainNothing(docs, list, k);
    } else {
      SumGainTotal(docs, list, k, n - 1);
      SumGainStep(docs, list, k, n);
      assert HasContent(docs, list[n-1].content);
    }
  }

  lemma {:induction false} SumScoreStep(docs: seq<RagDocument>, rankings: seq<seq<RagDocument>>, k: int, m: nat)
    requires k > 0 && 0 < m <= |rankings|
    ensures SumScore(docs, rankings, k, m) == SumScore(docs, rankings, k, m - 1)
                                              + SumGain(docs, rankings[m-1], k, |rankings[m-1]|)
  {
    if docs != [] { SumScoreStep(docs[..|docs|-1], rankings, k, m); }
  }

  lemma {:induction false} SumScoreNothing(docs: seq<RagDocument>, rankings: seq<seq<RagDocument>>, k: int)
    requires k > 0
    ensures SumScore(docs, rankings, k, 0) == 0.0
  {
    if docs != [] { SumScoreNothing(docs[..|docs|-1], rankings, k); }
  }

  lemma {:induction false} SumScoreTotal(docs: seq<RagDocument>, rankings: seq<seq<RagDocument>>, k: int, m: nat)
    requires k > 0 && m <= |rankings| && DistinctContents(docs)
    requires forall i :: 0 <= i < m ==> Covers(docs, rankings[i])
    ensures SumScore(docs, rankings, k, m) == AllWeight(rankings, k, m)
  {
    if m == 0 {
      SumScoreNothing(docs, rankings, k);
    } else {
      SumScoreTotal(docs, rankings, k, m - 1);
      SumScoreStep(docs, rankings, k, m);
      SumGainTotal(docs, rankings[m-1], k, |rankings[m-1]|);
    }
  }

  lemma {:induction false} FirstInFound(list: seq<RagDocument>, i: nat, n: nat)
    requires i < n <= |list|
    ensures FirstIn(list, list[i].content, n).Some?
  {
    if i < n - 1 { FirstInFound(list, i, n - 1); }
  }

  lemma {:induction false} FirstOfFound(rankings: seq<seq<RagDocument>>, j: nat, i: nat, m: nat)
    requires j < m <= |rankings| && i < |rankings[j]|
    ensures FirstOf(rankings, rankings[j][i].content, m).Some?
  {
    if j < m - 1 { FirstOfFound(rankings, j, i, m - 1); } else { FirstInFound(rankings[j], i, |rankings[j]|); }
  }

  lemma FusionCovers(docs: seq<RagDocument>, rankings: seq<seq<RagDocument>>, k: int, j: nat)
    requires k > 0 && IsMerge(docs, rankings, k) && j < |rankings|
    ensures Covers(docs, rankings[j])
  {
    forall i | 0 <= i < |rankings[j]| ensures HasContent(docs, rankings[j][i].content) {
      var c := rankings[j][i].content;
      FirstOfFound(rankings, j, i, |rankings|);
      FirstHasContent(rankings, c, |rankings|);
      var d := Fused(rankings, c, k);
      assert d in docs && d.content == c;
    }
  }

  lemma {:induction false} TotalIsSum(docs: seq<RagDocument>, rankings: seq<seq<RagDocument>>, k: int)
    requires k > 0 && forall i :: 0 <= i < |docs| ==> docs[i].score == ListScore(rankings, docs[i].content, k)
    ensures TotalScore(docs) == SumScore(docs, rankings, k, |rankings|)
  {
    if docs != [] {
      assert forall i :: 0 <= i < |docs| - 1 ==> docs[..|docs|-1][i] == docs[i];
      TotalIsSum(docs[..|docs|-1], rankings, k);
    }
  }

  /** Before truncation the scores add up to the weights of all places of all lists. */
  lemma ScoresAddUp(full: seq<RagDocument>, rankings: seq<seq<RagDocument>>, k: int)
    requires k > 0 && IsFusion(full, rankings, k)
    ensures TotalScore(full) == AllWeight(rankings, k, |rankings|)
  {
    hide Score, FirstOf, SumScore, AllWeight, TotalScore;
    forall j | 0 <= j < |rankings| ensures Covers(full, rankings[j]) { FusionCovers(full, rankings, k, j); }
    SumScoreTotal(full, rankings, k, |rankings|);
    forall i | 0 <= i < |full| ensures full[i].score == ListScore(rankings, full[i].content, k) {
      assert full[i] in full;
    }
    TotalIsSum(full, rankings, k);
  }

  // ----- dominance -----

  /** Content `c` stands at place `i` of the list, and nowhere else. */
  predicate OnlyAt(list: seq<RagDocument>, c: string, i: nat) {
    i < |list| && list[i].content == c && forall j :: 0 <= j < |list| && j != i ==> list[j].content != c
  }

  predicate Absent(list: seq<RagDocument>, c: string) {
    forall j :: 0 <= j < |list| ==> list[j].content != c
  }

  /** Wherever `e` is listed, it is listed once and `d` stands ahead of it. */
  ghost predicate Dominates(rankings: seq<seq<RagDocument>>, d: string, e: string) {
    forall i :: 0 <= i < |rankings| ==>
      Absent(rankings[i], e)
      || exists q: nat :: OnlyAt(rankings[i], e, q) && exists p :: 0 <= p < q && rankings[i][p].content == d
  }

  lemma {:induction false} GainNonNegative(list: seq<RagDocument>, c: string, k: int, n: nat)
    requires k > 0 && n <= |list|
    ensures Gain(list, c, k, n) >= 0.0
  {
    if n > 0 { GainNonNegative(list, c, k, n - 1); WeightPositive(k, n); }
  }

  lemma {:induction false} GainAtLeast(list: seq<RagDocument>, p: nat, k: int, n: nat)
    requires k > 0 && p < n <= |list|
    ensures Gain(list, list[p].content, k, n) >= Weight(k, p + 1)
  {
    if p < n - 1 {
      GainAtLeast(list, p, k, n - 1);
      WeightPositive(k, n);
    } else {
      GainNonNegative(list, list[p].content, k, n - 1);
    }
  }

  lemma {:induction false} GainOnlyAt(list: seq<RagDocument>, c: string, q: nat, k: int, n: nat)
    requires k > 0 && n <= |list| && OnlyAt(list, c, q)
    ensures Gain(list, c, k, n) == if q < n then Weight(k, q + 1) else 0.0
  {
    if n > 0 { GainOnlyAt(list, c, q, k, n - 1); }
  }

  lemma {:induction false} GainAbsent(list: seq<RagDocument>, c: string, k: int, n: nat)
    requires k > 0 && n <= |list| && Absent(list, c)
    ensures Gain(list, c, k, n) == 0.0
  {
    if n > 0 { GainAbsent(list, c, k, n - 1); }
  }

  lemma {:induction false} AbsentNotFirst(list: seq<RagDocument>, c: string, n: nat)
    requires n <= |list| && Absent(list, c)
    ensures FirstIn(list, c, n).None?
  {
    if n > 0 { AbsentNotFirst(list, c, n - 1); }
  }

  lemma DominatedGain(list: seq<RagDocument>, d: string, e: string, k: int)
    requires k > 0
    requires Absent(list, e)
      || exists q: nat :: OnlyAt(list, e, q) && exists p :: 0 <= p < q && list[p].content == d
    ensures Gain(list, d, k, |list|) >= Gain(list, e, k, |list|)
    ensures FirstIn(list, e, |list|).Some? ==> Gain(list, d, k, |list|) > Gain(list, e, k, |list|)
  {
    hide Gain, Weight;
    if Absent(list, e) {
      GainAbsent(list, e, k, |list|);
      GainNonNegative(list, d, k, |list|);
      AbsentNotFirst(list, e, |list|);
    } else {
      var q: nat :| OnlyAt(list, e, q) && exists p :: 0 <= p < q && list[p].content == d;
      var p :| 0 <= p < q && list[p].content == d;
      GainOnlyAt(list, e, q, k, |list|);
      GainAtLeast(list, p, k, |list|);
      WeightDecreases(k, p + 1, q + 1);
    }
  }

  lemma {:induction false} DominatedScore(rankings: seq<seq<RagDocument>>, d: string, e: string, k: int, m: nat)
    requires k > 0 && m <= |rankings| && Dominates(rankings, d, e)
    ensures Score(rankings, d, k, m) >= Score(rankings, e, k, m)
    ensures FirstOf(rankings, e, m).Some? ==> Score(rankings, d, k, m) > Score(rankings, e, k, m)
  {
    hide Gain, FirstIn;
    if m > 0 {
      DominatedScore(rankings, d, e, k, m - 1);
      DominatedGain(rankings[m-1], d, e, k);
    }
  }

  lemma {:induction false} DominatorListed(rankings: seq<seq<RagDocument>>, d: string, e: string, m: nat)
    requires m <= |rankings| && Dominates(rankings, d, e) && FirstOf(rankings, e, m).Some?
    ensures FirstOf(rankings, d, m).Some?
  {
    if FirstOf(rankings, e, m - 1).Some? {
      DominatorListed(rankings, d, e, m - 1);
    } else {
      var list := rankings[m-1];
      if Absent(list, e) {
        AbsentNotFirst(list, e, |list|);
      } else {
        var q: nat :| OnlyAt(list, e, q) && exists p :: 0 <= p < q && list[p].content == d;
        var p :| 0 <= p < q && list[p].content == d;
        FirstInFound(list, p, |list|);
      }
    }
  }

  /** If `d` stands ahead of `e` in every list that has `e`, the fused result
      has `d` before `e`, and truncation never keeps `e` without `d`. */
  lemma FusionRespectsDominance(full: seq<RagDocument>, rankings: seq<seq<RagDocument>>, k: int, topK: int,
                                d: string, j: nat)
    requires k > 0 && IsFusion(full, rankings, k) && j < |full| && Dominates(rankings, d, full[j].content)
    ensures exists i :: 0 <= i < j && full[i].content == d
    ensures j < |Truncated(full, topK)| ==> exists i :: 0 <= i < j && Truncated(full, topK)[i].content == d
  {
    hide Score, FirstOf;
    var e := full[j].content;
    assert full[j] in full;
    DominatorListed(rankings, d, e, |rankings|);
    FirstHasContent(rankings, d, |rankings|);
    DominatedScore(rankings, d, e, k, |rankings|);
    var best := Fused(rankings, d, k);
    assert best in full && best.content == d;
    var i :| 0 <= i < |full| && full[i] == best;
    assert DOC_SCORE(full[i]) > DOC_SCORE(full[j]);
    assert i < j;
    if j < |Truncated(full, topK)| {
      assert Truncated(full, topK)[i] == full[i];
    }
  }
}
