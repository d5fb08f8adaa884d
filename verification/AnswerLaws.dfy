/** What a search answers, told by what its recalls return. */
module AnswerLaws {
  import opened Options
  import opened RankFusion
  import opened SearchCache
  import opened Sorting

  /** Results asked for, and the recall window. */
  function Wanted(topK: int): int {
    if topK <= 0 then 5 else topK
  }

  function Window(topK: int): int {
    if Wanted(topK) * 4 < 20 then 20 else Wanted(topK) * 4
  }

  function VectorHits(c: Corpus, a: Ask): Docs {
    var found := c.vector(a.query, a.kb, Window(a.topK));
    if found.Some? then found.value else []
  }

  function TextHits(c: Corpus, a: Ask): Docs {
    c.bm25(a.query, a.kb, Window(a.topK))
  }

  /** Six tenths of the old score, not counted below zero, and four tenths of the
      keyword score. */
  function NewScores(c: Corpus, query: string, docs: Docs): (r: Docs)
    ensures |r| == |docs|
  {
    seq(|docs|, i requires 0 <= i < |docs| =>
      docs[i].(score := (if docs[i].score > 0.0 then 0.6 * docs[i].score else 0.0)
                        + 0.4 * c.keywordScore(query, docs[i])))
  }

  /** `out` is what is shown of `docs`: without a reranker the first ones, with it the
      ones with the best new scores, best first and otherwise in their old order. */
  ghost predicate ShownOf(c: Corpus, a: Ask, docs: Docs, out: Docs) {
    if !c.hasReranker then out == if |docs| > Wanted(a.topK) then docs[..Wanted(a.topK)] else docs
    else exists order: seq<nat> :: IsBestOrder(NewScores(c, a.query, docs), order)
                                   && ShowsFirst(NewScores(c, a.query, docs), order, out, Wanted(a.topK))
  }

  /** `order` lists all places by descending score, equal scores by place. */
  ghost predicate IsBestOrder(docs: Docs, order: seq<nat>) {
    |order| == |docs|
    && (forall i :: 0 <= i < |order| ==> order[i] < |docs|)
    && (forall i, j :: 0 <= i < j < |order| ==>
          docs[order[i]].score > docs[order[j]].score
          || (docs[order[i]].score == docs[order[j]].score && order[i] < order[j]))
  }

  ghost predicate ShowsFirst(docs: Docs, order: seq<nat>, out: Docs, n: int) {
    |out| == (if |docs| > n then n else |docs|)
    && |out| <= |order| && forall i :: 0 <= i < |out| ==> order[i] < |docs| && out[i] == docs[order[i]]
  }

  // ----- the stable sort as an order of places -----

  lemma {:induction false} InsertPlace(s: Docs, x: RagDocument) returns (p: nat)
    requires Descending(s, DOC_SCORE)
    ensures p <= |s| && Insert(s, x, DOC_SCORE) == s[..p] + [x] + s[p..]
    ensures forall i :: 0 <= i < |s| ==> (i < p <==> s[i].score >= x.score)
  {
    if s == [] || s[|s|-1].score >= x.score {
      p := |s|;
      forall i | 0 <= i < |s| ensures s[i].score >= x.score {
        assert i < |s| - 1 ==> DOC_SCORE(s[i]) >= DOC_SCORE(s[|s|-1]);
      }
      assert s[..p] == s && s[p..] == [];
    } else {
      var init := s[..|s|-1];
      p := InsertPlace(init, x);
      assert init[..p] == s[..p] && s[p..] == init[p..] + [s[|s|-1]];
      assert forall i :: 0 <= i < |init| ==> init[i] == s[i];
    }
  }

  lemma {:induction false} StableOrder(docs: Docs) returns (order: seq<nat>)
    ensures IsBestOrder(docs, order) && |StableSort(docs, DOC_SCORE)| == |order|
    ensures forall i :: 0 <= i < |order| ==> StableSort(docs, DOC_SCORE)[i] == docs[order[i]]
  {
    hide Insert, Descending;
    if docs == [] {
      order := [];
    } else {
      var n := |docs| - 1;
      var front, x := docs[..n], docs[n];
      var before := StableOrder(front);
      var sorted := StableSort(front, DOC_SCORE);
      StableSortSorts(front, DOC_SCORE);
      var p := InsertPlace(sorted, x);
      order := before[..p] + [n] + before[p..];
      assert forall i :: 0 <= i < n ==> front[i] == docs[i];
      PutIn(docs, before, p);
    }
  }

  lemma PutIn(docs: Docs, before: seq<nat>, p: nat)
    requires docs != [] && IsBestOrder(docs[..|docs|-1], before) && p <= |before|
    requires forall i :: 0 <= i < |before| ==>
               before[i] < |docs| - 1 && (i < p <==> docs[before[i]].score >= docs[|docs|-1].score)
    ensures IsBestOrder(docs, before[..p] + [|docs| - 1] + before[p..])
  {
    var n := |docs| - 1;
    var order := before[..p] + [n] + before[p..];
    forall i | 0 <= i < |order| ensures order[i] == if i < p then before[i] else if i == p then n else before[i-1] {}
    forall i, j | 0 <= i < j < |order|
      ensures docs[order[i]].score > docs[order[j]].score
              || (docs[order[i]].score == docs[order[j]].score && order[i] < order[j])
    {
      if i != p && j != p {
        var a, b := if i < p then i else i - 1, if j < p then j else j - 1;
        assert docs[..n][before[a]] == docs[before[a]] && docs[..n][before[b]] == docs[before[b]];
      }
    }
  }

  // ----- what is shown of the documents found -----

  lemma SameScores(c: Corpus, query: string, docs: Docs)
    ensures AllRescored(c, query, docs) == NewScores(c, query, docs)
  {}

  lemma ShownIsShown(c: Corpus, a: Ask, docs: Docs)
    ensures var k := Wanted(a.topK);
            ShownOf(c, a, docs, Truncated(if c.hasReranker then Reranked(c, a.query, docs, k) else docs, k))
  {
    hide StableSort, IsBestOrder, NewScores, AllRescored;
    if c.hasReranker {
      SameScores(c, a.query, docs);
      var scored := NewScores(c, a.query, docs);
      var order := StableOrder(scored);
      var sorted, k := StableSort(scored, DOC_SCORE), Wanted(a.topK);
      BestInRange(scored, order);
      assert Truncated(Truncated(sorted, k), k) == Truncated(sorted, k);
      assert ShowsFirst(scored, order, Truncated(sorted, k), k);
    }
  }

  lemma BestInRange(docs: Docs, order: seq<nat>)
    requires IsBestOrder(docs, order)
    ensures |order| == |docs| && forall i :: 0 <= i < |order| ==> order[i] < |docs|
  {}

  /** Which list an answer shows: the fused one when both recalls have something, else
      the recall that has, else the keyword fallback's; an error exactly when the
      fallback is needed and fails. */
  lemma AnswerExactly(c: Corpus, a: Ask, r: Option<Docs>)
    requires a.query != "" && CouldAnswer(c, a, r)
    ensures var vectors, texts := VectorHits(c, a), TextHits(c, a);
            var matches := c.tfidf(a.query, a.kb, Wanted(a.topK));
            if c.vecAvailable && vectors != [] && texts != [] then
              r.Some? && exists fused :: IsResult(fused, [vectors, texts], 60, Window(a.topK))
                                         && ShownOf(c, a, fused, r.value)
            else if c.vecAvailable && vectors != [] then r.Some? && ShownOf(c, a, vectors, r.value)
            else if c.vecAvailable && texts != [] then r.Some? && ShownOf(c, a, texts, r.value)
            else if matches.None? then r == None
            else r.Some? && ShownOf(c, a, matches.value, r.value)
  {
    hide IsResult, ShownOf, Reranked;
    var n, k := Window(a.topK), Wanted(a.topK);
    assert RecallWindow(EffectiveTopK(a.topK)) == n && EffectiveTopK(a.topK) == k;
    var vectors, texts := VectorHits(c, a), TextHits(c, a);
    var recalled :| FinishesAs(c, a, recalled, r);
    if Fuses(c, a.query, a.kb, n) { FusedNotEmpty(c, a.query, a.kb, n, recalled); }
    var found := if recalled != [] then Some(recalled) else c.tfidf(a.query, a.kb, k);
    if found.Some? {
      ShownIsShown(c, a, found.value);
      if found.value == [] { NothingShown(c, a); }
    }
  }

  lemma NothingShown(c: Corpus, a: Ask)
    ensures ShownOf(c, a, [], [])
  {
    if c.hasReranker { assert IsBestOrder(NewScores(c, a.query, []), []); }
  }

  lemma ShownCount(c: Corpus, a: Ask, docs: Docs, out: Docs)
    requires ShownOf(c, a, docs, out)
    ensures |out| == if |docs| > Wanted(a.topK) then Wanted(a.topK) else |docs|
  {}

  /** Some recall has an answer. */
  predicate Recalls(c: Corpus, a: Ask) {
    c.vecAvailable && (VectorHits(c, a) != [] || TextHits(c, a) != [])
  }

  /** When some recall answers, the keyword fallback has no influence, and the answer
      is neither an error nor empty. */
  lemma FallbackUnused(c: Corpus, a: Ask, tfidf: (string, nat, int) -> Option<Docs>, r: Option<Docs>)
    requires a.query != "" && Recalls(c, a)
    ensures CouldAnswer(c, a, r) <==> CouldAnswer(c.(tfidf := tfidf), a, r)
    ensures CouldAnswer(c, a, r) ==> r.Some? && r.value != []
  {
    hide IsResult, ShownOf, Finish;
    var c' := c.(tfidf := tfidf);
    var n := RecallWindow(EffectiveTopK(a.topK));
    assert n == Window(a.topK);
    forall recalled: Docs ensures FinishesAs(c, a, recalled, r) <==> FinishesAs(c', a, recalled, r) {
      if CouldRecall(c, a.query, a.kb, n, recalled) { RecallFinishes(c, a, tfidf, recalled); }
    }
    if CouldAnswer(c, a, r) {
      var recalled :| FinishesAs(c, a, recalled, r);
      assert FinishesAs(c', a, recalled, r);
      RecallFinishes(c, a, tfidf, recalled);
    }
    if CouldAnswer(c', a, r) {
      var recalled :| FinishesAs(c', a, recalled, r);
      assert FinishesAs(c, a, recalled, r);
    }
  }

  lemma RecallFinishes(c: Corpus, a: Ask, tfidf: (string, nat, int) -> Option<Docs>, recalled: Docs)
    requires Recalls(c, a) && CouldRecall(c, a.query, a.kb, Window(a.topK), recalled)
    ensures Finish(c, a, recalled) == Finish(c.(tfidf := tfidf), a, recalled)
    ensures Finish(c, a, recalled).Some? && Finish(c, a, recalled).value != []
  {
    hide StableSort, IsResult;
    if Fuses(c, a.query, a.kb, Window(a.topK)) { FusedNotEmpty(c, a.query, a.kb, Window(a.topK), recalled); }
    assert recalled != [];
    assert AllRescored(c, a.query, recalled) == AllRescored(c.(tfidf := tfidf), a.query, recalled);
  }
}
