/** The search over its real sources: the in-memory vector store, the rows of the
    full-text index, and the keyword fallback. */
module SearchSources {
  import opened AnswerLaws
  import opened FusionOrder
  import opened Indexing
  import opened KeywordSearch
  import opened Options
  import opened RankFusion
  import opened SearchCache
  import opened Sorting
  import opened Vectors
  import opened VectorStore

  // ----- vector recall -----

  function ToDocument(r: SearchResult, cut: string -> string): RagDocument {
    RagDocument("", cut(r.content), "", r.score, r.chunkIndex)
  }

  /** `docs` show the records at `picks`, each with its own similarity. */
  ghost predicate Shows(docs: Docs, rs: seq<VectorRecord>, picks: seq<nat>, query: Vector, sqrt: real -> real,
                        cut: string -> string)
    requires IsSquareRoot(sqrt)
  {
    |docs| == |picks|
    && forall i :: 0 <= i < |picks| ==>
         picks[i] < |rs| && docs[i] == ToDocument(Hit(rs[picks[i]], query, sqrt), cut)
  }

  /** What vector recall may return; `query` is None when it cannot be embedded. */
  ghost predicate IsVectorRecall(r: Option<Docs>, rs: seq<VectorRecord>, query: Option<Vector>, kb: nat, topK: nat,
                                 sqrt: real -> real, cut: string -> string)
    requires IsSquareRoot(sqrt)
  {
    if query == None || query == Some([]) then r == None
    else r.Some? && exists picks :: IsTopK(rs, query.value, kb, topK, sqrt, picks)
                                    && Shows(r.value, rs, picks, query.value, sqrt, cut)
  }

  /** `vectorSearch`. */
  method VectorSearch(store: InMemoryVectorStore, query: Option<Vector>, kb: nat, topK: nat, sqrt: real -> real,
                      cut: string -> string)
      returns (r: Option<Docs>)
    requires IsSquareRoot(sqrt)
    ensures IsVectorRecall(r, store.records, query, kb, topK, sqrt, cut)
  {
    hide IsTopK, Hit;
    if query.None? { return None; }
    var out, picks := store.Search(query.value, kb, topK, sqrt);
    if out.EmptyQuery? { return None; }
    var results := out.results;
    var docs: Docs := [];
    for i := 0 to |results|
      invariant |docs| == i
      invariant forall j :: 0 <= j < i ==> docs[j] == ToDocument(results[j], cut)
    {
      docs := docs + [ToDocument(results[i], cut)];
    }
    InStore(store.records, query.value, kb, topK, sqrt, picks);
    assert Shows(docs, store.records, picks, query.value, sqrt, cut);
    return Some(docs);
  }

  lemma InStore(rs: seq<VectorRecord>, query: Vector, kb: nat, topK: nat, sqrt: real -> real, picks: seq<nat>)
    requires IsSquareRoot(sqrt) && IsTopK(rs, query, kb, topK, sqrt, picks)
    ensures |picks| <= topK && forall i :: 0 <= i < |picks| ==> picks[i] < |rs| && (kb > 0 ==> rs[picks[i]].kbId == kb)
  {
    hide Cosine;
  }

  /** `d` shows the record: no title, no source, its shortened text, its chunk index,
      and how similar it is to the query. */
  ghost predicate ShowsRecord(d: RagDocument, r: VectorRecord, query: Vector, kb: nat, sqrt: real -> real,
                              cut: string -> string)
    requires IsSquareRoot(sqrt)
  {
    d.title == "" && d.source == "" && d.content == cut(r.content) && d.chunkIdx == r.chunkIndex
    && d.score == Cosine(query, r.embedding, sqrt)
    && |r.embedding| == |query| && (kb == 0 || r.kbId == kb)
  }

  lemma PickShown(docs: Docs, rs: seq<VectorRecord>, query: Vector, kb: nat, topK: nat, sqrt: real -> real,
                  cut: string -> string, picks: seq<nat>, x: nat)
    requires IsSquareRoot(sqrt) && IsTopK(rs, query, kb, topK, sqrt, picks) && Shows(docs, rs, picks, query, sqrt, cut)
    requires x < |picks|
    ensures picks[x] < |rs| && x < |docs| && ShowsRecord(docs[x], rs[picks[x]], query, kb, sqrt, cut)
  {
    hide Cosine;
  }

  lemma PicksSorted(docs: Docs, rs: seq<VectorRecord>, query: Vector, kb: nat, topK: nat, sqrt: real -> real,
                    cut: string -> string, picks: seq<nat>)
    requires IsSquareRoot(sqrt) && IsTopK(rs, query, kb, topK, sqrt, picks) && Shows(docs, rs, picks, query, sqrt, cut)
    ensures |docs| == |picks| <= topK
    ensures forall x, y :: 0 <= x < y < |docs| ==> docs[x].score >= docs[y].score
  {
    hide Cosine;
  }

  lemma UnpickedIsWorse(docs: Docs, rs: seq<VectorRecord>, query: Vector, kb: nat, topK: nat, sqrt: real -> real,
                        cut: string -> string, picks: seq<nat>, i: nat)
    requires IsSquareRoot(sqrt) && IsTopK(rs, query, kb, topK, sqrt, picks) && Shows(docs, rs, picks, query, sqrt, cut)
    requires i < |rs| && |rs[i].embedding| == |query| && (kb == 0 || rs[i].kbId == kb) && i !in picks
    ensures |docs| == topK && forall x :: 0 <= x < topK ==> docs[x].score >= Cosine(query, rs[i].embedding, sqrt)
  {
    hide Cosine;
    assert IsCandidate(rs[i], query, kb);
  }

  /** The record is shown, or topK others that are at least as similar. */
  ghost predicate ShownOrBeaten(docs: Docs, r: VectorRecord, query: Vector, kb: nat, topK: nat, sqrt: real -> real,
                                cut: string -> string)
    requires IsSquareRoot(sqrt)
  {
    (exists d :: d in docs && ShowsRecord(d, r, query, kb, sqrt, cut))
    || (|docs| == topK && forall x :: 0 <= x < topK ==> docs[x].score >= Cosine(query, r.embedding, sqrt))
  }

  /** Vector recall fails exactly without a query vector. Otherwise each document shows
      a record of the knowledge base, the most similar come first, and a comparable
      record is missing only if topK others are at least as similar. */
  lemma RecallExactly(r: Option<Docs>, rs: seq<VectorRecord>, query: Option<Vector>, kb: nat, topK: nat,
                      sqrt: real -> real, cut: string -> string)
    requires IsSquareRoot(sqrt) && IsVectorRecall(r, rs, query, kb, topK, sqrt, cut)
    ensures r == None <==> query == None || query == Some([])
    ensures r.Some? ==>
              |r.value| <= topK
              && (forall x, y :: 0 <= x < y < |r.value| ==> r.value[x].score >= r.value[y].score)
              && (forall d :: d in r.value ==>
                    exists i :: 0 <= i < |rs| && ShowsRecord(d, rs[i], query.value, kb, sqrt, cut))
              && (forall i :: 0 <= i < |rs| && |rs[i].embedding| == |query.value| && (kb == 0 || rs[i].kbId == kb) ==>
                    ShownOrBeaten(r.value, rs[i], query.value, kb, topK, sqrt, cut))
  {
    hide Cosine, IsTopK, Shows, ShowsRecord, IsSquareRoot;
    if r.Some? {
      var docs, q := r.value, query.value;
      var picks :| IsTopK(rs, q, kb, topK, sqrt, picks) && Shows(docs, rs, picks, q, sqrt, cut);
      PicksSorted(docs, rs, q, kb, topK, sqrt, cut, picks);
      forall d | d in docs ensures exists i :: 0 <= i < |rs| && ShowsRecord(d, rs[i], q, kb, sqrt, cut) {
        var x :| 0 <= x < |docs| && docs[x] == d;
        PickShown(docs, rs, q, kb, topK, sqrt, cut, picks, x);
      }
      forall i | 0 <= i < |rs| && |rs[i].embedding| == |q| && (kb == 0 || rs[i].kbId == kb)
        ensures ShownOrBeaten(docs, rs[i], q, kb, topK, sqrt, cut)
      {
        if i in picks {
          var x :| 0 <= x < |picks| && picks[x] == i;
          PickShown(docs, rs, q, kb, topK, sqrt, cut, picks, x);
          assert docs[x] in docs;
        } else {
          UnpickedIsWorse(docs, rs, q, kb, topK, sqrt, cut, picks, i);
        }
      }
    }
  }

  // ----- a corpus over its sources -----

  /** What is stored: vectors, chunk rows, documents; and how a query is read. */
  datatype Sources = Sources(vectors: seq<VectorRecord>, embedQuery: string -> Option<Vector>, sqrt: real -> real,
                             rows: seq<ChunkRow>, db: Database, hasKeywords: string -> bool,
                             score: (string, Row) -> real, cut: string -> string)

  function ScoreFor(w: Sources, query: string): Row -> real {
    (row: Row) => w.score(query, row)
  }

  /** The full-text query selects by knowledge base. */
  ghost predicate FromRow(w: Sources, kb: nat, content: string) {
    exists i :: 0 <= i < |w.rows| && (kb > 0 ==> w.rows[i].kbId == kb) && content == w.cut(w.rows[i].content)
  }

  ghost predicate Backed(c: Corpus, w: Sources) {
    IsSquareRoot(w.sqrt)
    && (forall query, kb: nat, n: nat ::
          IsVectorRecall(c.vector(query, kb, n), w.vectors, w.embedQuery(query), kb, n, w.sqrt, w.cut))
    && (forall query, kb: nat, n: nat, d :: d in c.bm25(query, kb, n) ==> FromRow(w, kb, d.content))
    && (forall query, kb: nat, n: nat ::
          IsTopMatches(c.tfidf(query, kb, n), w.db, kb, w.hasKeywords(query), n, ScoreFor(w, query), w.cut))
  }

  // ----- answers come from the knowledge base that was asked -----

  ghost predicate FromVector(w: Sources, kb: nat, content: string) {
    exists i :: 0 <= i < |w.vectors| && (kb > 0 ==> w.vectors[i].kbId == kb) && content == w.cut(w.vectors[i].content)
  }

  ghost predicate FromDocument(w: Sources, kb: nat, content: string) {
    w.db.Ready? && exists i :: 0 <= i < |w.db.rows| && (kb > 0 ==> w.db.rows[i].kbId == kb)
                               && content == w.cut(w.db.rows[i].content)
  }

  /** Some text stored in the knowledge base, cut to its shown length; knowledge
      base 0 stands for all of them. */
  ghost predicate InKb(w: Sources, kb: nat, content: string) {
    FromVector(w, kb, content) || FromRow(w, kb, content) || FromDocument(w, kb, content)
  }

  ghost predicate AllInKb(w: Sources, kb: nat, docs: Docs) {
    forall d :: d in docs ==> InKb(w, kb, d.content)
  }

  lemma VectorsInKb(w: Sources, kb: nat, query: Option<Vector>, n: nat, r: Option<Docs>)
    requires IsSquareRoot(w.sqrt) && IsVectorRecall(r, w.vectors, query, kb, n, w.sqrt, w.cut)
    ensures r.Some? ==> AllInKb(w, kb, r.value)
  {
    hide IsTopK, Cosine;
    if r.Some? {
      var picks :| IsTopK(w.vectors, query.value, kb, n, w.sqrt, picks)
        && Shows(r.value, w.vectors, picks, query.value, w.sqrt, w.cut);
      InStore(w.vectors, query.value, kb, n, w.sqrt, picks);
      forall d | d in r.value ensures FromVector(w, kb, d.content) {
        var i :| 0 <= i < |r.value| && r.value[i] == d;
        assert d.content == w.cut(w.vectors[picks[i]].content);
      }
    }
  }

  lemma MatchesInKb(w: Sources, kb: nat, query: string, n: nat, r: Option<Docs>)
    requires IsTopMatches(r, w.db, kb, w.hasKeywords(query), n, ScoreFor(w, query), w.cut)
    ensures r.Some? ==> |r.value| <= n && AllInKb(w, kb, r.value)
  {
    hide Matching, Descending;
    if r.Some? && w.hasKeywords(query) {
      var all := Matching(w.db.rows, kb, ScoreFor(w, query), w.cut);
      var dropped :| IsRanking(r.value, dropped, all, n);
      forall d | d in r.value ensures FromDocument(w, kb, d.content) {
        assert d in multiset(r.value + dropped) && d in multiset(all);
        MatchingExactly(w.db.rows, kb, ScoreFor(w, query), w.cut, d);
      }
    }
  }

  lemma {:induction false} FirstInOf(list: Docs, content: string, n: nat)
    requires n <= |list| && FirstIn(list, content, n).Some?
    ensures exists d :: d in list && d.content == content
  {
    if FirstIn(list, content, n - 1).Some? {
      FirstInOf(list, content, n - 1);
    } else {
      assert list[n-1] in list;
    }
  }

  /** A fused content occurs in one of the two lists. */
  lemma OccursInOne(a: Docs, b: Docs, content: string)
    requires Occurs([a, b], content)
    ensures exists d :: (d in a || d in b) && d.content == content
  {
    hide FirstIn;
    var rankings := [a, b];
    assert FirstOf(rankings, content, 2).Some? ==>
        FirstOf(rankings, content, 1).Some? || FirstIn(b, content, |b|).Some?;
    assert FirstOf(rankings, content, 1).Some? ==>
        FirstOf(rankings, content, 0).Some? || FirstIn(a, content, |a|).Some?;
    if FirstIn(a, content, |a|).Some? { FirstInOf(a, content, |a|); } else { FirstInOf(b, content, |b|); }
  }

  lemma RecallInKb(c: Corpus, w: Sources, query: string, kb: nat, n: nat, docs: Docs)
    requires Backed(c, w) && CouldRecall(c, query, kb, n, docs)
    ensures AllInKb(w, kb, docs)
  {
    hide InKb, IsVectorRecall, IsTopMatches, IsFusion, Occurs;
    VectorsInKb(w, kb, w.embedQuery(query), n, c.vector(query, kb, n));
    var a, b := FromVectors(c, query, kb, n), c.bm25(query, kb, n);
    forall d | d in b ensures InKb(w, kb, d.content) { RowInKb(w, kb, d.content); }
    if Fuses(c, query, kb, n) {
      var full :| IsFusion(full, [a, b], DEFAULT_K) && docs == Truncated(full, n);
      forall d | d in docs ensures InKb(w, kb, d.content) {
        var i :| 0 <= i < |full| && full[i] == d;
        FusionMember(full, [a, b], DEFAULT_K, i);
        OccursInOne(a, b, d.content);
      }
    }
  }

  lemma RowInKb(w: Sources, kb: nat, content: string)
    requires FromRow(w, kb, content)
    ensures InKb(w, kb, content)
  {}

  /** Reranking changes scores and order, no content. */
  lemma RerankedInKb(c: Corpus, w: Sources, query: string, kb: nat, docs: Docs, topK: int)
    requires AllInKb(w, kb, docs)
    ensures AllInKb(w, kb, Reranked(c, query, docs, topK))
  {
    hide InKb, StableSort;
    var rescored := AllRescored(c, query, docs);
    var sorted := StableSort(rescored, DOC_SCORE);
    StableSortSorts(rescored, DOC_SCORE);
    forall d | d in sorted ensures InKb(w, kb, d.content) {
      assert d in multiset(sorted) && d in rescored;
      var i :| 0 <= i < |rescored| && rescored[i] == d;
      assert docs[i] in docs && d.content == docs[i].content;
    }
    assert forall d :: d in Truncated(sorted, topK) ==> d in sorted;
  }

  lemma FinishInKb(c: Corpus, w: Sources, a: Ask, recalled: Docs)
    requires Backed(c, w) && AllInKb(w, a.kb, recalled)
    ensures Finish(c, a, recalled).Some? ==> AllInKb(w, a.kb, Finish(c, a, recalled).value)
  {
    hide InKb, Reranked, IsTopMatches, IsVectorRecall;
    var k := EffectiveTopK(a.topK);
    MatchesInKb(w, a.kb, a.query, k, c.tfidf(a.query, a.kb, k));
    var found := if recalled != [] then Some(recalled) else c.tfidf(a.query, a.kb, k);
    if found.Some? {
      RerankedInKb(c, w, a.query, a.kb, found.value, k);
      var shown := if c.hasReranker then Reranked(c, a.query, found.value, k) else found.value;
      assert forall d :: d in Truncated(shown, k) ==> d in shown;
    }
  }

  lemma AnswerInKb(c: Corpus, w: Sources, a: Ask, r: Option<Docs>)
    requires Backed(c, w) && CouldAnswer(c, a, r)
    ensures r.Some? ==> AllInKb(w, a.kb, r.value)
  {
    hide Backed, InKb, CouldRecall, Finish;
    if a.query != "" {
      var recalled :| FinishesAs(c, a, recalled, r);
      RecallInKb(c, w, a.query, a.kb, RecallWindow(EffectiveTopK(a.topK)), recalled);
      FinishInKb(c, w, a, recalled);
    }
  }

  /** On every run, whatever Redis loses and however query hashes collide, every
      document of every answer is some text stored in the knowledge base asked. */
  lemma AnswersStayInKb(c: Corpus, w: Sources, trace: seq<Event>, i: nat)
    requires Backed(c, w) && IsTrace(c, trace) && i < |trace| && trace[i].Query? && trace[i].answer.Some?
    ensures AllInKb(w, trace[i].ask.kb, trace[i].answer.value)
    decreases |trace|
  {
    hide Backed, AllInKb, CouldAnswer, CacheKey, CacheOf;
    var front, asks := trace[..|trace|-1], set j | 0 <= j < |trace| && trace[j].Query? :: trace[j].ask;
    if i < |front| {
      AnswersStayInKb(c, w, front, i);
    } else {
      var x, cache := trace[i], CacheOf(c, front);
      assert Over(front, asks) by { assert forall j :: 0 <= j < |front| ==> front[j] == trace[j]; }
      CacheStaysSound(c, front, asks);
      if Hits(c, cache, x.ask, x.readOk) {
        var b :| b in asks && AnswerOf(c, b, CacheKey(c, x.ask), cache[CacheKey(c, x.ask)]);
        CacheKeyExact(c, b, x.ask);
        AnswerInKb(c, w, b, x.answer);
      } else {
        AnswerInKb(c, w, x.ask, x.answer);
      }
    }
  }

  // ----- exact answers -----

  lemma OthersAreWorse(rs: seq<VectorRecord>, query: Vector, kb: nat, n: nat, k: nat, sqrt: real -> real,
                       picks: seq<nat>)
    requires IsSquareRoot(sqrt) && k < |picks| && IsTopK(rs, query, kb, n, sqrt, picks)
    ensures forall j, i :: 0 <= j < |rs| && IsCandidate(rs[j], query, kb) && j !in picks[..k] && 0 <= i < k ==>
              picks[i] < |rs| && Cosine(query, rs[picks[i]].embedding, sqrt) >= Cosine(query, rs[j].embedding, sqrt)
  {
    hide Cosine, IsSquareRoot, IsCandidate;
    assert forall i :: 0 <= i < k ==> picks[..k][i] == picks[i];
    forall j, i | 0 <= j < |rs| && IsCandidate(rs[j], query, kb) && j !in picks[..k] && 0 <= i < k
      ensures Cosine(query, rs[picks[i]].embedding, sqrt) >= Cosine(query, rs[j].embedding, sqrt)
    {
      if j in picks {
        var at :| 0 <= at < |picks| && picks[at] == j;
        assert at >= k;
      }
    }
  }

  /** The best `n` begin with the best `k`. */
  lemma TopKPrefix(rs: seq<VectorRecord>, query: Vector, kb: nat, n: nat, k: nat, sqrt: real -> real, picks: seq<nat>)
    requires IsSquareRoot(sqrt) && k <= n && IsTopK(rs, query, kb, n, sqrt, picks)
    ensures IsTopK(rs, query, kb, k, sqrt, if |picks| > k then picks[..k] else picks)
  {
    hide Cosine, IsSquareRoot, IsCandidate;
    if |picks| > k {
      OthersAreWorse(rs, query, kb, n, k, sqrt, picks);
      assert forall i :: 0 <= i < k ==> picks[..k][i] == picks[i];
    }
  }

  /** Some stored vector can be compared with the query in the knowledge base asked. */
  predicate HasCandidate(w: Sources, query: string, kb: nat) {
    var q := w.embedQuery(query);
    q.Some? && q.value != []
    && exists i :: 0 <= i < |w.vectors| && (kb == 0 || w.vectors[i].kbId == kb) && |w.vectors[i].embedding| == |q.value|
  }

  lemma VectorHitsExactly(c: Corpus, w: Sources, query: string, kb: nat, n: nat)
    requires Backed(c, w) && n > 0
    ensures FromVectors(c, query, kb, n) != [] <==> HasCandidate(w, query, kb)
  {
    hide Cosine;
    var found, q := c.vector(query, kb, n), w.embedQuery(query);
    assert IsVectorRecall(found, w.vectors, q, kb, n, w.sqrt, w.cut);
    if q.Some? && q.value != [] {
      var picks :| IsTopK(w.vectors, q.value, kb, n, w.sqrt, picks)
        && Shows(found.value, w.vectors, picks, q.value, w.sqrt, w.cut);
      if picks != [] {
        assert IsCandidate(w.vectors[picks[0]], q.value, kb);
      } else {
        forall i | 0 <= i < |w.vectors| ensures !IsCandidate(w.vectors[i], q.value, kb) {
          assert i !in picks;
        }
      }
    }
  }

  /** What a search answers without a reranker: with stored vectors to compare and no
      full-text hits the topK most similar records; with full-text hits only, the
      first topK of them; with both, the first topK of a fusion of the two recalls;
      with neither, what the keyword fallback makes of the stored documents. */
  lemma PlainAnswerExact(c: Corpus, w: Sources, a: Ask, r: Option<Docs>)
    requires Backed(c, w) && CouldAnswer(c, a, r) && a.query != "" && !c.hasReranker
    ensures var n, k, texts := Window(a.topK), Wanted(a.topK), TextHits(c, a);
            var vectors := c.vecAvailable && HasCandidate(w, a.query, a.kb);
            if vectors && texts == [] then
              r.Some? && IsVectorRecall(r, w.vectors, w.embedQuery(a.query), a.kb, k, w.sqrt, w.cut)
            else if vectors then
              r.Some? && exists recall, fused :: IsVectorRecall(Some(recall), w.vectors, w.embedQuery(a.query), a.kb, n,
                                                                w.sqrt, w.cut)
                                                 && IsResult(fused, [recall, texts], 60, n)
                                                 && r.value == if |fused| > k then fused[..k] else fused
            else if c.vecAvailable && texts != [] then r == Some(if |texts| > k then texts[..k] else texts)
            else IsTopMatches(r, w.db, a.kb, w.hasKeywords(a.query), k, ScoreFor(w, a.query), w.cut)
  {
    hide IsTopK, Cosine, IsTopMatches, Shows, IsResult, CouldAnswer, HasCandidate;
    var n, k := Window(a.topK), Wanted(a.topK);
    AnswerExactly(c, a, r);
    VectorHitsExactly(c, w, a.query, a.kb, n);
    MatchesInKb(w, a.kb, a.query, k, c.tfidf(a.query, a.kb, k));
    var found := c.vector(a.query, a.kb, n);
    assert IsVectorRecall(found, w.vectors, w.embedQuery(a.query), a.kb, n, w.sqrt, w.cut);
    assert VectorHits(c, a) == FromVectors(c, a.query, a.kb, n);
    var matches := c.tfidf(a.query, a.kb, k);
    assert IsTopMatches(matches, w.db, a.kb, w.hasKeywords(a.query), k, ScoreFor(w, a.query), w.cut);
    if c.vecAvailable && VectorHits(c, a) != [] {
      assert found == Some(VectorHits(c, a));
      if TextHits(c, a) == [] {
        var query := w.embedQuery(a.query).value;
        var picks :| IsTopK(w.vectors, query, a.kb, n, w.sqrt, picks)
          && Shows(found.value, w.vectors, picks, query, w.sqrt, w.cut);
        TopKPrefix(w.vectors, query, a.kb, n, k, w.sqrt, picks);
        ShowsPrefix(found.value, w.vectors, picks, query, w.sqrt, w.cut, k);
      }
    }
  }

  lemma ShowsPrefix(docs: Docs, rs: seq<VectorRecord>, picks: seq<nat>, query: Vector, sqrt: real -> real,
                    cut: string -> string, k: nat)
    requires IsSquareRoot(sqrt) && k > 0 && Shows(docs, rs, picks, query, sqrt, cut)
    ensures Shows(Truncated(docs, k), rs, if |picks| > k then picks[..k] else picks, query, sqrt, cut)
  {
    hide Cosine, Hit;
  }
}
