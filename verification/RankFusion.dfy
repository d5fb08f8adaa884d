/** Reciprocal rank fusion of several result lists. */
module RankFusion {
  import opened Options
  import opened Sorting

  datatype RagDocument = RagDocument(title: string, content: string, source: string, score: real, chunkIdx: nat)

  const DOC_SCORE: RagDocument -> real := (d: RagDocument) => d.score

  const DOC_CONTENT: RagDocument -> string := (d: RagDocument) => d.content

  const DEFAULT_K := 60

  function EffectiveK(k: int): (e: int)
    ensures e > 0
  {
    if k <= 0 then DEFAULT_K else k
  }

  // ----- what fusion computes -----

  /** The weight of the 1-based rank `rank`. */
  function Weight(k: int, rank: nat): real
    requires k > 0
  {
    1.0 / ((k + rank) as real)
  }

  /** What the first `n` places of one list give to a content. */
  function Gain(list: seq<RagDocument>, c: string, k: int, n: nat): real
    requires k > 0 && n <= |list|
  {
    if n == 0 then 0.0 else Gain(list, c, k, n - 1) + (if list[n-1].content == c then Weight(k, n) else 0.0)
  }

  /** The fused score over the first `m` lists. */
  function Score(rankings: seq<seq<RagDocument>>, c: string, k: int, m: nat): real
    requires k > 0 && m <= |rankings|
  {
    if m == 0 then 0.0 else Score(rankings, c, k, m - 1) + Gain(rankings[m-1], c, k, |rankings[m-1]|)
  }

  function FirstIn(list: seq<RagDocument>, c: string, n: nat): Option<RagDocument>
    requires n <= |list|
  {
    if n == 0 then None
    else if FirstIn(list, c, n - 1).Some? then FirstIn(list, c, n - 1)
    else if list[n-1].content == c then Some(list[n-1])
    else None
  }

  /** The first document with content `c` in the first `m` lists. */
  function FirstOf(rankings: seq<seq<RagDocument>>, c: string, m: nat): Option<RagDocument>
    requires m <= |rankings|
  {
    if m == 0 then None
    else if FirstOf(rankings, c, m - 1).Some? then FirstOf(rankings, c, m - 1)
    else FirstIn(rankings[m-1], c, |rankings[m-1]|)
  }

  ghost predicate DistinctContents(docs: seq<RagDocument>) {
    DistinctKeys(docs, DOC_CONTENT)
  }

  function Fused(rankings: seq<seq<RagDocument>>, c: string, k: int): RagDocument
    requires k > 0 && FirstOf(rankings, c, |rankings|).Some?
  {
    FirstOf(rankings, c, |rankings|).value.(score := Score(rankings, c, k, |rankings|))
  }

  /** One entry per content that occurs, with its fused score. */
  ghost predicate IsMerge(docs: seq<RagDocument>, rankings: seq<seq<RagDocument>>, k: int)
    requires k > 0
  {
    DistinctContents(docs)
    && (forall d :: d in docs ==>
          FirstOf(rankings, d.content, |rankings|).Some? && d == Fused(rankings, d.content, k))
    && (forall c :: FirstOf(rankings, c, |rankings|).Some? ==> Fused(rankings, c, k) in docs)
  }

  /** A fusion result before truncation. */
  ghost predicate IsFusion(docs: seq<RagDocument>, rankings: seq<seq<RagDocument>>, k: int)
    requires k > 0
  {
    IsMerge(docs, rankings, k) && Descending(docs, DOC_SCORE)
  }

  function Truncated(docs: seq<RagDocument>, topK: int): seq<RagDocument> {
    if topK > 0 && |docs| > topK then docs[..topK] else docs
  }

  /** What fusion returns: some fusion result, cut off. */
  ghost predicate IsResult(result: seq<RagDocument>, rankings: seq<seq<RagDocument>>, k: int, topK: int)
    requires k > 0
  {
    exists full :: IsFusion(full, rankings, k) && result == Truncated(full, topK)
  }

  lemma FusedResult(full: seq<RagDocument>, rankings: seq<seq<RagDocument>>, k: int, topK: int)
    requires k > 0 && IsMerge(full, rankings, k) && Descending(full, DOC_SCORE)
    ensures IsResult(Truncated(full, topK), rankings, k, topK)
  {
    hide IsMerge, Descending;
    assert IsFusion(full, rankings, k);
  }

  lemma NothingToFuse(k: int, topK: int)
    requires k > 0
    ensures IsResult([], [], k, topK)
  {
    FusedResult([], [], k, topK);
  }

  // ----- the loops -----

  datatype Entry = Entry(doc: RagDocument, score: real)

  function Unscored(d: RagDocument): RagDocument { d.(score := 0.0) }

  /** The map after the first `m` lists; the entries' own scores do not matter. */
  ghost predicate Merged(merged: map<string, Entry>, rankings: seq<seq<RagDocument>>, k: int, m: nat)
    requires k > 0 && m <= |rankings|
  {
    forall c ::
      (c in merged <==> FirstOf(rankings, c, m).Some?)
      && (c in merged ==> merged[c].score == Score(rankings, c, k, m)
                          && Unscored(merged[c].doc) == Unscored(FirstOf(rankings, c, m).value))
      && (c !in merged ==> Score(rankings, c, k, m) == 0.0)
  }

  /** The map `now` after the first `n` places of a list have been added to `before`. */
  ghost predicate Added(before: map<string, Entry>, now: map<string, Entry>, list: seq<RagDocument>, k: int, n: nat)
    requires k > 0 && n <= |list|
  {
    forall c ::
      (c in now <==> c in before || FirstIn(list, c, n).Some?)
      && (c in now ==>
            now[c].score == (if c in before then before[c].score else 0.0) + Gain(list, c, k, n)
            && Unscored(now[c].doc) == Unscored(if c in before then before[c].doc else FirstIn(list, c, n).value))
      && (c !in now ==> Gain(list, c, k, n) == 0.0)
  }

  method AddRanking(before: map<string, Entry>, list: seq<RagDocument>, k: int) returns (merged: map<string, Entry>)
    requires k > 0
    ensures Added(before, merged, list, k, |list|)
  {
    merged := before;
    for rank := 0 to |list|
      invariant Added(before, merged, list, k, rank)
    {
      var doc := list[rank];
      var key := doc.content;
      var entry := if key in merged then merged[key] else Entry(doc, 0.0);
      entry := entry.(score := entry.score + 1.0 / ((k + (rank + 1)) as real));
      if doc.score > entry.doc.score {
        entry := entry.(doc := entry.doc.(score := doc.score));
      }
      AddOne(before, merged, list, k, rank, entry);
      merged := merged[key := entry];
    }
  }

  lemma AddOne(before: map<string, Entry>, merged: map<string, Entry>, list: seq<RagDocument>, k: int, n: nat,
               entry: Entry)
    requires k > 0 && n < |list| && Added(before, merged, list, k, n)
    requires var key := list[n].content;
             entry.score == (if key in merged then merged[key].score else 0.0) + Weight(k, n + 1)
             && Unscored(entry.doc) == Unscored(if key in merged then merged[key].doc else list[n])
    ensures Added(before, merged[list[n].content := entry], list, k, n + 1)
  {
    var key := list[n].content;
    var now := merged[key := entry];
    forall c
      ensures c in now <==> c in before || FirstIn(list, c, n + 1).Some?
      ensures c in now ==>
            now[c].score == (if c in before then before[c].score else 0.0) + Gain(list, c, k, n + 1)
            && Unscored(now[c].doc) == Unscored(if c in before then before[c].doc else FirstIn(list, c, n + 1).value)
      ensures c !in now ==> Gain(list, c, k, n + 1) == 0.0
    {
      assert c in merged <==> c in before || FirstIn(list, c, n).Some?;
    }
  }

  method RRFusion(rankings: seq<seq<RagDocument>>, k: int, topK: int) returns (result: seq<RagDocument>)
    ensures IsResult(result, rankings, EffectiveK(k), topK)
  {
    hide IsFusion, IsResult, Merged, Added, IsMerge, Descending;
    if |rankings| == 0 {
      NothingToFuse(EffectiveK(k), topK);
      return [];
    }
    var kk := if k <= 0 then DEFAULT_K else k;
    var merged: map<string, Entry> := map[];
    NothingMerged(rankings, kk);
    for i := 0 to |rankings|
      invariant Merged(merged, rankings, kk, i)
    {
      ghost var before := merged;
      merged := AddRanking(merged, rankings[i], kk);
      MergedStep(before, merged, rankings, kk, i);
    }
    result := Collect(merged, rankings, kk);
    StableSortSorts(result, DOC_SCORE);
    SortKeepsMerge(result, StableSort(result, DOC_SCORE), rankings, kk);
    result := StableSort(result, DOC_SCORE);
    FusedResult(result, rankings, kk, topK);
    if topK > 0 && |result| > topK {
      result := result[..topK];
    }
  }

  lemma NothingMerged(rankings: seq<seq<RagDocument>>, k: int)
    requires k > 0
    ensures Merged(map[], rankings, k, 0)
  {}

  lemma MergedStep(before: map<string, Entry>, now: map<string, Entry>, rankings: seq<seq<RagDocument>>, k: int, m: nat)
    requires k > 0 && m < |rankings| && Merged(before, rankings, k, m)
    requires Added(before, now, rankings[m], k, |rankings[m]|)
    ensures Merged(now, rankings, k, m + 1)
  {
    forall c
      ensures (c in now <==> FirstOf(rankings, c, m + 1).Some?)
      ensures c in now ==> now[c].score == Score(rankings, c, k, m + 1)
                           && Unscored(now[c].doc) == Unscored(FirstOf(rankings, c, m + 1).value)
      ensures c !in now ==> Score(rankings, c, k, m + 1) == 0.0
    {
      assert c in before <==> FirstOf(rankings, c, m).Some?;
      assert c in now <==> c in before || FirstIn(rankings[m], c, |rankings[m]|).Some?;
    }
  }

  /** Turns the map into a list, in whatever order the map is walked. */
  method Collect(merged: map<string, Entry>, rankings: seq<seq<RagDocument>>, k: int) returns (docs: seq<RagDocument>)
    requires k > 0 && Merged(merged, rankings, k, |rankings|)
    ensures IsMerge(docs, rankings, k)
  {
    hide FirstOf, Score;
    docs := [];
    var remaining := merged.Keys;
    while remaining != {}
      invariant remaining <= merged.Keys
      invariant DistinctContents(docs)
      invariant forall d :: d in docs ==>
        d.content in merged.Keys - remaining
        && FirstOf(rankings, d.content, |rankings|).Some? && d == Fused(rankings, d.content, k)
      invariant forall c :: c in merged.Keys - remaining ==>
        FirstOf(rankings, c, |rankings|).Some? && Fused(rankings, c, k) in docs
      decreases remaining
    {
      var c :| c in remaining;
      FirstHasContent(rankings, c, |rankings|);
      var doc := merged[c].doc.(score := merged[c].score);
      assert doc == Fused(rankings, c, k) by {
        assert Unscored(merged[c].doc) == Unscored(FirstOf(rankings, c, |rankings|).value);
        assert doc == Unscored(merged[c].doc).(score := merged[c].score);
      }
      docs := docs + [doc];
      remaining := remaining - {c};
    }
  }

  lemma {:induction false} FirstInHasContent(list: seq<RagDocument>, c: string, n: nat)
    requires n <= |list| && FirstIn(list, c, n).Some?
    ensures FirstIn(list, c, n).value.content == c
  {
    if FirstIn(list, c, n - 1).Some? { FirstInHasContent(list, c, n - 1); }
  }

  lemma {:induction false} FirstHasContent(rankings: seq<seq<RagDocument>>, c: string, m: nat)
    requires m <= |rankings|
    ensures FirstOf(rankings, c, m).Some? ==> FirstOf(rankings, c, m).value.content == c
  {
    if m > 0 {
      FirstHasContent(rankings, c, m - 1);
      var list := rankings[m-1];
      if FirstIn(list, c, |list|).Some? { FirstInHasContent(list, c, |list|); }
    }
  }

  lemma SortKeepsMerge(docs: seq<RagDocument>, sorted: seq<RagDocument>, rankings: seq<seq<RagDocument>>, k: int)
    requires k > 0 && IsMerge(docs, rankings, k) && multiset(sorted) == multiset(docs)
    ensures IsMerge(sorted, rankings, k)
  {
    assert forall d :: d in sorted <==> d in multiset(sorted);
    assert forall d :: d in docs <==> d in multiset(docs);
    RearrangedDistinct(docs, sorted, DOC_CONTENT);
  }
}
