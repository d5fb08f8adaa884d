/** Knowledge-base search: retrieval with fallbacks, heuristic reranking,
    truncation, and the result cache in front of it all. */
module SearchCache {
  import opened AnswerOrder
  import opened FusionOrder
  import opened Numerals
  import opened Options
  import opened RankFusion
  import opened RankLaws
  import opened Sorting
  import opened Text

  type Docs = seq<RagDocument>

  /** What a search asks outside itself; over a fixed corpus these are functions.
      `vector` is None when embedding or the vector store fails, `tfidf` when the
      database does. */
  datatype Corpus = Corpus(
    vecAvailable: bool,
    vector: (string, nat, int) -> Option<Docs>,
    bm25: (string, nat, int) -> Docs,
    tfidf: (string, nat, int) -> Option<Docs>,
    hasReranker: bool,
    keywordScore: (string, RagDocument) -> real,
    hash: string -> nat)

  datatype Ask = Ask(query: string, kb: nat, topK: int)

  // ----- the pipeline without a cache -----

  function EffectiveTopK(topK: int): (k: int)
    ensures k > 0
  {
    if topK <= 0 then 5 else topK
  }

  function RecallWindow(topK: int): (n: int)
    ensures n > 0 && (topK > 0 ==> n >= topK)
  {
    if topK * 4 < 20 then 20 else topK * 4
  }

  function FromVectors(c: Corpus, query: string, kb: nat, n: int): Docs {
    var found := c.vector(query, kb, n);
    if found.Some? then found.value else []
  }

  /** Both recalls have something, so their lists are fused. */
  predicate Fuses(c: Corpus, query: string, kb: nat, n: int) {
    c.vecAvailable && FromVectors(c, query, kb, n) != [] && c.bm25(query, kb, n) != []
  }

  function Rankings(c: Corpus, query: string, kb: nat, n: int): seq<Docs> {
    [FromVectors(c, query, kb, n), c.bm25(query, kb, n)]
  }

  /** What hybrid recall can come up with: fusion leaves ties open. */
  ghost predicate CouldRecall(c: Corpus, query: string, kb: nat, n: int, docs: Docs) {
    if Fuses(c, query, kb, n) then IsResult(docs, Rankings(c, query, kb, n), DEFAULT_K, n)
    else docs == if !c.vecAvailable then []
                 else if FromVectors(c, query, kb, n) != [] then FromVectors(c, query, kb, n)
                 else c.bm25(query, kb, n)
  }

  function Rescored(c: Corpus, query: string, d: RagDocument): RagDocument {
    d.(score := 0.6 * (if d.score < 0.0 then 0.0 else d.score) + 0.4 * c.keywordScore(query, d))
  }

  function AllRescored(c: Corpus, query: string, docs: Docs): (r: Docs)
    ensures |r| == |docs| && forall i :: 0 <= i < |docs| ==> r[i] == Rescored(c, query, docs[i])
  {
    seq(|docs|, i requires 0 <= i < |docs| => Rescored(c, query, docs[i]))
  }

  function Reranked(c: Corpus, query: string, docs: Docs, topK: int): Docs {
    Truncated(StableSort(AllRescored(c, query, docs), DOC_SCORE), topK)
  }

  /** What follows recall: keyword fallback, reranking, truncation; None is an error. */
  function Finish(c: Corpus, a: Ask, recalled: Docs): Option<Docs> {
    var k := EffectiveTopK(a.topK);
    match if recalled != [] then Some(recalled) else c.tfidf(a.query, a.kb, k)
    case None => None
    case Some(docs) =>
      if docs == [] then Some([])
      else Some(Truncated(if c.hasReranker then Reranked(c, a.query, docs, k) else docs, k))
  }

  ghost predicate FinishesAs(c: Corpus, a: Ask, recalled: Docs, r: Option<Docs>) {
    CouldRecall(c, a.query, a.kb, RecallWindow(EffectiveTopK(a.topK)), recalled) && Finish(c, a, recalled) == r
  }

  /** An answer the pipeline can compute from scratch. */
  ghost predicate CouldAnswer(c: Corpus, a: Ask, r: Option<Docs>) {
    if a.query == "" then r == Some([]) else exists recalled :: FinishesAs(c, a, recalled, r)
  }

  // ----- with the cache -----

  function CacheKey(c: Corpus, a: Ask): string {
    "rag:search:" + (Decimal(a.kb) + ":" + (Decimal(EffectiveTopK(a.topK)) + ":" + Hex(c.hash(a.query))))
  }

  type Cache = map<string, Docs>

  predicate Hits(c: Corpus, cache: Cache, a: Ask, readOk: bool) {
    readOk && a.query != "" && CacheKey(c, a) in cache
  }

  /** The answer to one search: the cached one on a hit, else a computed one. */
  ghost predicate Answered(c: Corpus, cache: Cache, a: Ask, readOk: bool, r: Option<Docs>) {
    if Hits(c, cache, a, readOk) then r == Some(cache[CacheKey(c, a)]) else CouldAnswer(c, a, r)
  }

  function CacheAfter(c: Corpus, cache: Cache, a: Ask, readOk: bool, writeOk: bool, r: Option<Docs>): Cache {
    if Hits(c, cache, a, readOk) || !writeOk || r.None? || r.value == [] then cache
    else cache[CacheKey(c, a) := r.value]
  }

  class RagSearch {
    const corpus: Corpus
    var cache: Cache

    constructor (corpus: Corpus)
      ensures this.corpus == corpus && cache == map[]
    {
      this.corpus, cache := corpus, map[];
    }

    /** `readOk` and `writeOk` say whether Redis can be read and written just then;
        without Redis both are false. */
    method Search(a: Ask, readOk: bool, writeOk: bool) returns (r: Option<Docs>)
      modifies this
      ensures Answered(corpus, old(cache), a, readOk, r)
      ensures cache == CacheAfter(corpus, old(cache), a, readOk, writeOk, r)
    {
      hide Reranked, CacheKey, CouldRecall;
      var topK := a.topK;
      if topK <= 0 { topK := 5; }
      if a.query == "" { return Some([]); }
      var key := CacheKey(corpus, a);
      if readOk && key in cache { return Some(cache[key]); }
      var recallN := topK * 4;
      if recallN < 20 { recallN := 20; }
      var finalDocs := Recall(a, recallN);
      ghost var recalled := finalDocs;
      assert FinishesAs(corpus, a, recalled, Finish(corpus, a, recalled));
      if |finalDocs| == 0 {
        var docs := corpus.tfidf(a.query, a.kb, topK);
        if docs.None? { return None; }
        finalDocs := docs.value;
      }
      if |finalDocs| == 0 { return Some(finalDocs); }
      if corpus.hasReranker {
        finalDocs := Rerank(a.query, finalDocs, topK);
      }
      if |finalDocs| > topK { finalDocs := finalDocs[..topK]; }
      if writeOk && |finalDocs| > 0 {
        cache := cache[key := finalDocs];
      }
      return Some(finalDocs);
    }

    /** Vector and full-text recall, fused when both answer. */
    method Recall(a: Ask, recallN: int) returns (finalDocs: Docs)
      ensures CouldRecall(corpus, a.query, a.kb, recallN, finalDocs)
    {
      hide IsResult;
      finalDocs := [];
      if corpus.vecAvailable {
        var vecDocs: Docs := [];
        var found := corpus.vector(a.query, a.kb, recallN);
        if found.Some? { vecDocs := found.value; }
        var bmDocs := corpus.bm25(a.query, a.kb, recallN);
        if |vecDocs| > 0 && |bmDocs| > 0 {
          finalDocs := RRFusion([vecDocs, bmDocs], DEFAULT_K, recallN);
        } else if |vecDocs| > 0 {
          finalDocs := vecDocs;
        } else if |bmDocs| > 0 {
          finalDocs := bmDocs;
        }
      }
    }

    /** Rewrites every score in place, sorts stably, truncates. */
    method Rerank(query: string, input: Docs, topK: int) returns (docs: Docs)
      ensures docs == Reranked(corpus, query, input, topK)
    {
      docs := input;
      for i := 0 to |docs|
        invariant |docs| == |input|
        invariant forall j :: 0 <= j < i ==> docs[j] == Rescored(corpus, query, input[j])
        invariant forall j :: i <= j < |docs| ==> docs[j] == input[j]
      {
        var keywordScore := corpus.keywordScore(query, docs[i]);
        var vectorScore := docs[i].score;
        if vectorScore < 0.0 { vectorScore := 0.0; }
        docs := docs[i := docs[i].(score := 0.6 * vectorScore + 0.4 * keywordScore)];
      }
      assert docs == AllRescored(corpus, query, input);
      docs := StableSort(docs, DOC_SCORE);
      if topK > 0 && |docs| > topK { docs := docs[..topK]; }
    }
  }

  // ----- keys -----

  lemma PlainDigits(n: nat, base: nat)
    requires 2 <= base <= 16
    ensures Lacks(Print(n, base), ':') && Lacks(Print(n, base), '-')
  {}

  /** Two requests share a cache key exactly when knowledge base, effective
      result count and query hash agree. */
  lemma CacheKeyExact(c: Corpus, a: Ask, b: Ask)
    ensures CacheKey(c, a) == CacheKey(c, b) <==>
            a.kb == b.kb && EffectiveTopK(a.topK) == EffectiveTopK(b.topK) && c.hash(a.query) == c.hash(b.query)
  {
    hide Print;
    var prefix := "rag:search:";
    var s, t := CacheKey(c, a), CacheKey(c, b);
    if s == t {
      var ak, bk := EffectiveTopK(a.topK), EffectiveTopK(b.topK);
      var ax := Decimal(ak) + ":" + Hex(c.hash(a.query));
      var bx := Decimal(bk) + ":" + Hex(c.hash(b.query));
      assert Decimal(a.kb) + ":" + ax == s[|prefix|..] == t[|prefix|..] == Decimal(b.kb) + ":" + bx;
      PlainDigits(a.kb, 10);
      PlainDigits(b.kb, 10);
      FirstSeparator(Decimal(a.kb), ax, Decimal(b.kb), bx, ':');
      PlainDigits(ak, 10);
      PlainDigits(bk, 10);
      FirstSeparator(Decimal(ak), Hex(c.hash(a.query)), Decimal(bk), Hex(c.hash(b.query)), ':');
      PrintInjective(a.kb, b.kb, 10);
      PrintInjective(ak, bk, 10);
      PrintInjective(c.hash(a.query), c.hash(b.query), 16);
    }
  }

  // ----- runs -----

  /** Searches with the answers they got, in any order, while Redis may fail and
      entries may expire. */
  datatype Event = Query(ask: Ask, readOk: bool, writeOk: bool, answer: Option<Docs>) | Expire(keys: set<string>)

  function StepCache(c: Corpus, cache: Cache, x: Event): Cache {
    match x
    case Query(a, readOk, writeOk, r) => CacheAfter(c, cache, a, readOk, writeOk, r)
    case Expire(keys) => cache - keys
  }

  function CacheOf(c: Corpus, trace: seq<Event>): Cache {
    if trace == [] then map[] else StepCache(c, CacheOf(c, trace[..|trace|-1]), trace[|trace|-1])
  }

  ghost predicate Allowed(c: Corpus, cache: Cache, x: Event) {
    x.Query? ==> Answered(c, cache, x.ask, x.readOk, x.answer)
  }

  /** A run of the service: every answer is one that `Search` can give there. */
  ghost predicate IsTrace(c: Corpus, trace: seq<Event>) {
    trace != [] ==>
      IsTrace(c, trace[..|trace|-1]) && Allowed(c, CacheOf(c, trace[..|trace|-1]), trace[|trace|-1])
  }

  /** Every answer of the run is one the pipeline alone could give. */
  ghost predicate Transparent(c: Corpus, trace: seq<Event>) {
    forall i :: 0 <= i < |trace| && trace[i].Query? ==> CouldAnswer(c, trace[i].ask, trace[i].answer)
  }

  predicate Over(trace: seq<Event>, asks: set<Ask>) {
    forall i :: 0 <= i < |trace| && trace[i].Query? ==> trace[i].ask in asks
  }

  /** Sharing a key does no harm: whatever can be cached for the first request could
      be computed for the second. */
  ghost predicate Harmless(c: Corpus, a: Ask, b: Ask) {
    (a.query != "" && b.query != "" && CacheKey(c, a) == CacheKey(c, b)) ==>
      forall docs: Docs :: docs != [] && CouldAnswer(c, a, Some(docs)) ==> CouldAnswer(c, b, Some(docs))
  }

  ghost predicate AllHarmless(c: Corpus, asks: set<Ask>) {
    forall a, b :: a in asks && b in asks ==> Harmless(c, a, b)
  }

  ghost predicate AnswerOf(c: Corpus, a: Ask, key: string, docs: Docs) {
    a.query != "" && CacheKey(c, a) == key && docs != [] && CouldAnswer(c, a, Some(docs))
  }

  /** Every cached entry could be computed for some request with its key. */
  ghost predicate Sound(c: Corpus, cache: Cache, asks: set<Ask>) {
    forall key :: key in cache ==> exists a :: a in asks && AnswerOf(c, a, key, cache[key])
  }

  lemma CachesOwnAnswer(c: Corpus, cache: Cache, x: Event, asks: set<Ask>)
    requires Sound(c, cache, asks) && Allowed(c, cache, x) && (x.Query? ==> x.ask in asks)
    ensures Sound(c, StepCache(c, cache, x), asks)
  {
    hide CacheKey, CouldAnswer;
    var cache' := StepCache(c, cache, x);
    if x.Query? && cache' != cache {
      var key := CacheKey(c, x.ask);
      assert cache' == cache[key := x.answer.value];
      WasComputed(c, cache, x);
      EmptyQueryAnswer(c, x.ask, x.answer);
      assert AnswerOf(c, x.ask, key, cache'[key]);
    }
  }

  lemma EmptyQueryAnswer(c: Corpus, a: Ask, r: Option<Docs>)
    ensures a.query == "" && CouldAnswer(c, a, r) ==> r == Some([])
  {}

  lemma WasComputed(c: Corpus, cache: Cache, x: Event)
    requires x.Query? && Allowed(c, cache, x) && !Hits(c, cache, x.ask, x.readOk)
    ensures CouldAnswer(c, x.ask, x.answer)
  {}

  lemma {:induction false} CacheStaysSound(c: Corpus, trace: seq<Event>, asks: set<Ask>)
    requires IsTrace(c, trace) && Over(trace, asks)
    ensures Sound(c, CacheOf(c, trace), asks)
  {
    hide CouldAnswer, CacheKey, Allowed, StepCache;
    if trace != [] {
      var front := trace[..|trace|-1];
      assert forall i :: 0 <= i < |front| ==> front[i] == trace[i];
      CacheStaysSound(c, front, asks);
      CachesOwnAnswer(c, CacheOf(c, front), trace[|trace|-1], asks);
    }
  }

  /** One search over a sound cache of harmless requests. */
  lemma HarmlessAnswer(c: Corpus, cache: Cache, a: Ask, readOk: bool, r: Option<Docs>, asks: set<Ask>)
    requires Sound(c, cache, asks) && AllHarmless(c, asks) && a in asks && Answered(c, cache, a, readOk, r)
    ensures CouldAnswer(c, a, r)
  {
    hide CouldAnswer, CacheKey;
    if Hits(c, cache, a, readOk) {
      var b :| b in asks && AnswerOf(c, b, CacheKey(c, a), cache[CacheKey(c, a)]);
      assert Harmless(c, b, a);
    }
  }

  lemma {:induction false} HarmlessIsTransparent(c: Corpus, trace: seq<Event>, asks: set<Ask>)
    requires IsTrace(c, trace) && Over(trace, asks) && AllHarmless(c, asks)
    ensures Transparent(c, trace)
  {
    hide CouldAnswer, CacheKey, Answered, AllHarmless, CacheOf;
    if trace != [] {
      var front, x := trace[..|trace|-1], trace[|trace|-1];
      assert forall i :: 0 <= i < |front| ==> front[i] == trace[i];
      HarmlessIsTransparent(c, front, asks);
      CacheStaysSound(c, front, asks);
      if x.Query? { HarmlessAnswer(c, CacheOf(c, front), x.ask, x.readOk, x.answer, asks); }
    }
  }

  /** A harmful pair shows at once: asking the first, then the second. */
  lemma HarmShows(c: Corpus, a: Ask, b: Ask) returns (trace: seq<Event>)
    requires !Harmless(c, a, b)
    ensures IsTrace(c, trace) && Over(trace, {a, b}) && !Transparent(c, trace)
  {
    hide CouldAnswer, CacheKey;
    var docs: Docs :| docs != [] && CouldAnswer(c, a, Some(docs)) && !CouldAnswer(c, b, Some(docs));
    var first, second := Query(a, false, true, Some(docs)), Query(b, true, true, Some(docs));
    trace := [first, second];
    assert trace[..1] == [first] && [first][..0] == [];
    assert CacheOf(c, []) == map[];
    assert CacheOf(c, [first]) == map[CacheKey(c, a) := docs];
    assert IsTrace(c, [first]);
    assert trace[1] == second;
  }

  /** Over a fixed corpus, the cache is invisible on every run of a set of requests,
      whatever expires or fails: each answer is one the pipeline could give. This
      holds if and only if no two of the requests share a key although the first
      has an answer that the second cannot have. */
  lemma CacheTransparentExactly(c: Corpus, asks: set<Ask>)
    ensures (forall trace :: IsTrace(c, trace) && Over(trace, asks) ==> Transparent(c, trace)) <==> AllHarmless(c, asks)
  {
    hide Transparent, Harmless, IsTrace;
    if AllHarmless(c, asks) {
      forall trace | IsTrace(c, trace) && Over(trace, asks) ensures Transparent(c, trace) {
        HarmlessIsTransparent(c, trace, asks);
      }
    } else {
      var a, b :| a in asks && b in asks && !Harmless(c, a, b);
      var trace := HarmShows(c, a, b);
      assert Over(trace, asks);
    }
  }

  /** Without hash collisions among the queries, the cache is invisible. */
  lemma NoCollisionIsHarmless(c: Corpus, asks: set<Ask>)
    requires forall a, b :: a in asks && b in asks && c.hash(a.query) == c.hash(b.query) ==> a.query == b.query
    ensures AllHarmless(c, asks)
  {
    hide CacheKey, CouldAnswer;
    forall a, b | a in asks && b in asks ensures Harmless(c, a, b) {
      CacheKeyExact(c, a, b);
      if CacheKey(c, a) == CacheKey(c, b) {
        forall docs: Docs | CouldAnswer(c, a, Some(docs)) ensures CouldAnswer(c, b, Some(docs)) {
          SameQuestion(c, a, b, Some(docs));
        }
      }
    }
  }

  /** Only query, knowledge base and effective result count matter. */
  lemma SameQuestion(c: Corpus, a: Ask, b: Ask, r: Option<Docs>)
    requires a.query == b.query && a.kb == b.kb && EffectiveTopK(a.topK) == EffectiveTopK(b.topK)
    requires CouldAnswer(c, a, r)
    ensures CouldAnswer(c, b, r)
  {
    hide CouldRecall, Reranked;
    if a.query != "" {
      var recalled :| FinishesAs(c, a, recalled, r);
      assert FinishesAs(c, b, recalled, r);
    }
  }

  // ----- how many answers a request has -----

  /** Every request has an answer. */
  lemma AlwaysAnswered(c: Corpus, a: Ask) returns (r: Option<Docs>)
    ensures CouldAnswer(c, a, r)
  {
    hide IsFusion, Finish;
    var n := RecallWindow(EffectiveTopK(a.topK));
    var recalled: Docs;
    if Fuses(c, a.query, a.kb, n) {
      var full := FusionExists(Rankings(c, a.query, a.kb, n), DEFAULT_K);
      recalled := Truncated(full, n);
      assert IsResult(recalled, Rankings(c, a.query, a.kb, n), DEFAULT_K, n);
    } else {
      recalled := if !c.vecAvailable then []
                  else if FromVectors(c, a.query, a.kb, n) != [] then FromVectors(c, a.query, a.kb, n)
                  else c.bm25(a.query, a.kb, n);
    }
    r := if a.query == "" then Some([]) else Finish(c, a, recalled);
    if a.query != "" { assert FinishesAs(c, a, recalled, r); }
  }

  /** What the recalled documents are ordered by before their fused score. */
  function RankKey(c: Corpus, query: string): RagDocument -> real {
    (d: RagDocument) => if c.hasReranker then Rescored(c, query, d).score else 0.0
  }

  function Shown(c: Corpus, query: string): RagDocument -> RagDocument {
    (d: RagDocument) => if c.hasReranker then Rescored(c, query, d) else d
  }

  lemma TruncatedMapped(g: RagDocument -> RagDocument, docs: seq<RagDocument>, k: int)
    ensures Truncated(MapAll(g, docs), k) == MapAll(g, Truncated(docs, k))
    ensures Truncated(Truncated(docs, k), k) == Truncated(docs, k)
  {}

  /** Reranking and truncation as one ordering of the recalled documents. */
  lemma FinishIsBest(c: Corpus, a: Ask, docs: Docs)
    requires docs != []
    ensures Finish(c, a, docs)
         == Some(MapAll(Shown(c, a.query), Best(docs, RankKey(c, a.query), EffectiveTopK(a.topK))))
  {
    hide StableSort, Truncated;
    var key, shown, k := RankKey(c, a.query), Shown(c, a.query), EffectiveTopK(a.topK);
    if c.hasReranker {
      assert AllRescored(c, a.query, docs) == MapAll(shown, docs);
      SortMapped(docs, shown, DOC_SCORE, key);
      TruncatedMapped(shown, StableSort(docs, key), k);
      TruncatedMapped(shown, MapAll(shown, StableSort(docs, key)), k);
    } else {
      SortByConstant(docs, key);
      assert MapAll(shown, Truncated(docs, k)) == Truncated(docs, k);
    }
  }

  lemma FusedNotEmpty(c: Corpus, query: string, kb: nat, n: int, docs: Docs)
    requires n > 0 && Fuses(c, query, kb, n) && IsResult(docs, Rankings(c, query, kb, n), DEFAULT_K, n)
    ensures docs != []
  {
    hide Score;
    var rankings := Rankings(c, query, kb, n);
    var full :| IsFusion(full, rankings, DEFAULT_K) && docs == Truncated(full, n);
    FirstOfFound(rankings, 0, 0, |rankings|);
    assert Fused(rankings, rankings[0][0].content, DEFAULT_K) in full;
  }

  /** Documents of fusion results are told apart by what is shown of them. */
  lemma ShownApart(c: Corpus, query: string, rankings: seq<Docs>, x: Docs, y: Docs)
    requires forall d :: d in x || d in y ==> Occurs(rankings, d.content) && d == Fused(rankings, d.content, DEFAULT_K)
    requires MapAll(Shown(c, query), x) == MapAll(Shown(c, query), y)
    ensures x == y
  {
    hide FirstOf, Score;
    var shown := Shown(c, query);
    assert |x| == |MapAll(shown, x)| == |MapAll(shown, y)| == |y|;
    forall i | 0 <= i < |x| ensures x[i] == y[i] {
      assert x[i] in x && y[i] in y;
      assert MapAll(shown, x)[i].content == MapAll(shown, y)[i].content;
    }
  }

  lemma BestAreFused(docs: Docs, rankings: seq<Docs>, n: int, f: RagDocument -> real, k: nat)
    requires IsResult(docs, rankings, DEFAULT_K, n)
    ensures forall d :: d in Best(docs, f, k) ==>
              Occurs(rankings, d.content) && d == Fused(rankings, d.content, DEFAULT_K)
  {
    hide FirstOf, Score;
    var full :| IsFusion(full, rankings, DEFAULT_K) && docs == Truncated(full, n);
    StableSortSorts(docs, f);
    forall d | d in Best(docs, f, k)
      ensures Occurs(rankings, d.content) && d == Fused(rankings, d.content, DEFAULT_K)
    {
      assert d in StableSort(docs, f);
      assert d in multiset(StableSort(docs, f));
      assert d in docs && d in full;
    }
  }

  /** Two fused recalls lead to the same answer if and only if they agree on the best. */
  lemma AnswersAgree(c: Corpus, a: Ask, x: Docs, y: Docs)
    requires var n := RecallWindow(EffectiveTopK(a.topK)); Fuses(c, a.query, a.kb, n)
    requires var n := RecallWindow(EffectiveTopK(a.topK));
             CouldRecall(c, a.query, a.kb, n, x) && CouldRecall(c, a.query, a.kb, n, y)
    ensures Finish(c, a, x) == Finish(c, a, y)
       <==> Best(x, RankKey(c, a.query), EffectiveTopK(a.topK)) == Best(y, RankKey(c, a.query), EffectiveTopK(a.topK))
  {
    hide Best, Finish, Fuses, IsResult, RankKey, Shown;
    var n, k, key := RecallWindow(EffectiveTopK(a.topK)), EffectiveTopK(a.topK), RankKey(c, a.query);
    var rankings := Rankings(c, a.query, a.kb, n);
    FusedNotEmpty(c, a.query, a.kb, n, x);
    FusedNotEmpty(c, a.query, a.kb, n, y);
    FinishIsBest(c, a, x);
    FinishIsBest(c, a, y);
    if Finish(c, a, x) == Finish(c, a, y) {
      BestAreFused(x, rankings, n, key, k);
      BestAreFused(y, rankings, n, key, k);
      ShownApart(c, a.query, rankings, Best(x, key, k), Best(y, key, k));
    }
  }

  /** Every answer to a request is the same. */
  ghost predicate OneAnswer(c: Corpus, a: Ask) {
    forall x, y :: CouldAnswer(c, a, x) && CouldAnswer(c, a, y) ==> x == y
  }

  /** A hybrid search has one answer if and only if each of the first topK places, in
      the order by final and then by fused score, is settled: no later document ties
      with it in both, and the recall window does not cut through its fused ties. */
  lemma HybridAnswerExactly(c: Corpus, a: Ask, full: Docs)
    requires var n := RecallWindow(EffectiveTopK(a.topK));
             a.query != "" && Fuses(c, a.query, a.kb, n) && IsFusion(full, Rankings(c, a.query, a.kb, n), DEFAULT_K)
    ensures OneAnswer(c, a)
       <==> SettledUpTo(full, RecallWindow(EffectiveTopK(a.topK)), RankKey(c, a.query), EffectiveTopK(a.topK))
  {
    hide Fuses, IsFusion, IsResult, SettledUpTo, RankKey, Best, Finish;
    var n, k, key := RecallWindow(EffectiveTopK(a.topK)), EffectiveTopK(a.topK), RankKey(c, a.query);
    var rankings := Rankings(c, a.query, a.kb, n);
    SettledExactly(full, rankings, DEFAULT_K, n, key, k);
    if SettledUpTo(full, n, key, k) {
      forall x, y | CouldAnswer(c, a, x) && CouldAnswer(c, a, y) ensures x == y {
        var u :| FinishesAs(c, a, u, x);
        var v :| FinishesAs(c, a, v, y);
        AnswersAgree(c, a, u, v);
      }
    } else {
      var u, v :| IsResult(u, rankings, DEFAULT_K, n) && IsResult(v, rankings, DEFAULT_K, n)
        && Best(u, key, k) != Best(v, key, k);
      AnswersAgree(c, a, u, v);
      assert FinishesAs(c, a, u, Finish(c, a, u)) && FinishesAs(c, a, v, Finish(c, a, v));
      assert CouldAnswer(c, a, Finish(c, a, u)) && CouldAnswer(c, a, Finish(c, a, v));
      assert Finish(c, a, u) != Finish(c, a, v);
    }
  }

  lemma OtherAnswer(c: Corpus, a: Ask)
    requires a.query == "" || !Fuses(c, a.query, a.kb, RecallWindow(EffectiveTopK(a.topK)))
    ensures OneAnswer(c, a)
  {
    hide Fuses, Finish;
    forall x, y | CouldAnswer(c, a, x) && CouldAnswer(c, a, y) ensures x == y {
      if a.query != "" {
        var u :| FinishesAs(c, a, u, x);
        var v :| FinishesAs(c, a, v, y);
      }
    }
  }

  /** The request is not a hybrid search, or its places are settled. */
  ghost predicate Decided(c: Corpus, a: Ask) {
    var n := RecallWindow(EffectiveTopK(a.topK));
    a.query != "" && Fuses(c, a.query, a.kb, n) ==>
      forall full :: IsFusion(full, Rankings(c, a.query, a.kb, n), DEFAULT_K) ==>
        SettledUpTo(full, n, RankKey(c, a.query), EffectiveTopK(a.topK))
  }

  /** A request has one answer if and only if it is decided. */
  lemma OneAnswerExactly(c: Corpus, a: Ask)
    ensures OneAnswer(c, a) <==> Decided(c, a)
  {
    hide Fuses, IsFusion, SettledUpTo, OneAnswer;
    var n := RecallWindow(EffectiveTopK(a.topK));
    if a.query != "" && Fuses(c, a.query, a.kb, n) {
      var rankings := Rankings(c, a.query, a.kb, n);
      forall full | IsFusion(full, rankings, DEFAULT_K)
        ensures OneAnswer(c, a) <==> SettledUpTo(full, n, RankKey(c, a.query), EffectiveTopK(a.topK))
      {
        HybridAnswerExactly(c, a, full);
      }
      var full := FusionExists(rankings, DEFAULT_K);
    } else {
      OtherAnswer(c, a);
    }
  }

  predicate SameAsk(x: Event, y: Event) {
    x.Query? && y.Query? && x.ask == y.ask
  }

  /** Equal requests of the run got equal answers. */
  ghost predicate Consistent(trace: seq<Event>) {
    forall i, j :: 0 <= i < |trace| && 0 <= j < |trace| && SameAsk(trace[i], trace[j]) ==>
      trace[i].answer == trace[j].answer
  }

  /** On every run of a set of requests, whatever expires or fails, asking the same
      again gives the same answer, from the cache or not, if and only if every
      request is decided and no two share a key harmfully. */
  lemma RepeatsAgreeExactly(c: Corpus, asks: set<Ask>)
    ensures (forall trace: seq<Event> :: IsTrace(c, trace) && Over(trace, asks) ==> Consistent(trace))
       <==> (forall a :: a in asks ==> Decided(c, a)) && AllHarmless(c, asks)
  {
    hide CouldAnswer, Decided, Harmless, IsTrace;
    if !forall a :: a in asks ==> Decided(c, a) {
      var a :| a in asks && !Decided(c, a);
      OneAnswerExactly(c, a);
      var x, y :| CouldAnswer(c, a, x) && CouldAnswer(c, a, y) && x != y;
      var trace := AskedTwice(c, a, x, y);
      assert Over(trace, asks);
    } else if !AllHarmless(c, asks) {
      var a, b :| a in asks && b in asks && !Harmless(c, a, b);
      var trace := AskedBetween(c, a, b);
      assert Over(trace, asks);
    } else {
      forall trace: seq<Event> | IsTrace(c, trace) && Over(trace, asks) ensures Consistent(trace) {
        HarmlessIsTransparent(c, trace, asks);
        forall i, j | 0 <= i < |trace| && 0 <= j < |trace| && SameAsk(trace[i], trace[j])
          ensures trace[i].answer == trace[j].answer
        {
          OneAnswerExactly(c, trace[i].ask);
        }
      }
    }
  }

  /** Harmful sharing: the second request, the first, and the second again. */
  lemma AskedBetween(c: Corpus, a: Ask, b: Ask) returns (trace: seq<Event>)
    requires !Harmless(c, a, b)
    ensures IsTrace(c, trace) && Over(trace, {a, b}) && !Consistent(trace)
  {
    hide CouldAnswer, CacheKey;
    var docs: Docs :| docs != [] && CouldAnswer(c, a, Some(docs)) && !CouldAnswer(c, b, Some(docs));
    var own := AlwaysAnswered(c, b);
    var x, y, z := Query(b, false, false, own), Query(a, false, true, Some(docs)), Query(b, true, true, Some(docs));
    trace := [x, y, z];
    assert trace[..2] == [x, y] && [x, y][..1] == [x] && [x][..0] == [];
    assert CacheOf(c, []) == map[] && CacheOf(c, [x]) == map[];
    assert CacheOf(c, [x, y]) == map[CacheKey(c, a) := docs];
    assert IsTrace(c, [x]) && IsTrace(c, [x, y]);
    assert trace[0] == x && trace[2] == z;
  }

  /** Two answers to one request, without Redis. */
  lemma AskedTwice(c: Corpus, a: Ask, x: Option<Docs>, y: Option<Docs>) returns (trace: seq<Event>)
    requires CouldAnswer(c, a, x) && CouldAnswer(c, a, y) && x != y
    ensures IsTrace(c, trace) && Over(trace, {a}) && !Consistent(trace)
  {
    hide CouldAnswer, CacheKey;
    var first, second := Query(a, false, false, x), Query(a, false, false, y);
    trace := [first, second];
    assert trace[..1] == [first] && [first][..0] == [];
    assert IsTrace(c, [first]);
    assert trace[0] == first && trace[1] == second;
  }

  /** This happens: without a reranker, two recalls of one document each give two
      answers, one way round and the other. */
  lemma TwoBestHits(c: Corpus, a: Ask, x: RagDocument, y: RagDocument)
    requires var n := RecallWindow(EffectiveTopK(a.topK));
             c.vecAvailable && !c.hasReranker && a.query != "" && x.content != y.content
             && c.vector(a.query, a.kb, n) == Some([x]) && c.bm25(a.query, a.kb, n) == [y]
    ensures !OneAnswer(c, a)
  {
    hide IsFusion, StableSort, OneAnswer;
    var n, k, key := RecallWindow(EffectiveTopK(a.topK)), EffectiveTopK(a.topK), RankKey(c, a.query);
    var rankings := Rankings(c, a.query, a.kb, n);
    assert rankings == [[x], [y]];
    var full := FusionExists(rankings, DEFAULT_K);
    HybridAnswerExactly(c, a, full);
    var i, j := RivalsTie(full, rankings, x, y);
    SortByConstant(full, key);
    assert !SettledAt(full, n, key, full, 0);
  }

  lemma RivalsTie(full: Docs, rankings: seq<Docs>, x: RagDocument, y: RagDocument) returns (i: nat, j: nat)
    requires rankings == [[x], [y]] && x.content != y.content && IsFusion(full, rankings, DEFAULT_K)
    ensures |full| == 2 && full[0].score == full[1].score
  {
    RivalScores(rankings, x, y);
    i, j := PlacesOf(full, rankings, DEFAULT_K, x.content, y.content);
    hide Score, FirstOf;
    forall m | 0 <= m < |full| ensures full[m].content in {x.content, y.content} {
      FusionMember(full, rankings, DEFAULT_K, m);
    }
    var contents := MapAll(DOC_CONTENT, full);
    forall u, v | 0 <= u < v < |contents| ensures contents[u] != contents[v] {
      DistinctAt(full, rankings, DEFAULT_K, u, v);
    }
    DistinctFit(contents, {x.content, y.content});
  }

  lemma OneHit(x: RagDocument, c: string)
    ensures FirstIn([x], c, 1).Some? <==> c == x.content
  {
    assert FirstIn([x], c, 0) == None;
  }

  lemma RivalScores(rankings: seq<Docs>, x: RagDocument, y: RagDocument)
    requires rankings == [[x], [y]] && x.content != y.content
    ensures forall c :: Occurs(rankings, c) <==> c == x.content || c == y.content
    ensures Score(rankings, x.content, DEFAULT_K, 2) == Score(rankings, y.content, DEFAULT_K, 2)
  {
    assert |rankings| == 2 && rankings[0] == [x] && rankings[1] == [y];
    forall c ensures Occurs(rankings, c) <==> c == x.content || c == y.content {
      OneHit(x, c);
      OneHit(y, c);
      assert FirstOf(rankings, c, 0) == None;
      assert FirstOf(rankings, c, 1) == FirstIn(rankings[0], c, |rankings[0]|);
      assert Occurs(rankings, c) <==> FirstOf(rankings, c, 1).Some? || FirstIn(rankings[1], c, |rankings[1]|).Some?;
    }
    assert Score(rankings, x.content, DEFAULT_K, 0) == 0.0 && Score(rankings, y.content, DEFAULT_K, 0) == 0.0;
    assert Gain([x], x.content, DEFAULT_K, 0) == 0.0 && Gain([y], x.content, DEFAULT_K, 0) == 0.0;
    assert Gain([x], y.content, DEFAULT_K, 0) == 0.0 && Gain([y], y.content, DEFAULT_K, 0) == 0.0;
  }

  // ----- sizes, and no Redis -----

  lemma AnswerBounded(c: Corpus, a: Ask, r: Option<Docs>)
    requires CouldAnswer(c, a, r)
    ensures r.Some? ==> |r.value| <= EffectiveTopK(a.topK)
  {
    hide CouldRecall, Reranked;
    if a.query != "" {
      var recalled :| FinishesAs(c, a, recalled, r);
    }
  }

  /** No search ever returns more than the requested number of documents, not
      even when query hashes collide. */
  lemma NeverMoreThanTopK(c: Corpus, trace: seq<Event>, a: Ask, readOk: bool, r: Option<Docs>)
    requires IsTrace(c, trace) && Answered(c, CacheOf(c, trace), a, readOk, r)
    ensures r.Some? ==> |r.value| <= EffectiveTopK(a.topK)
  {
    hide CouldAnswer, CacheKey, CacheOf, IsTrace;
    var asks := set i | 0 <= i < |trace| && trace[i].Query? :: trace[i].ask;
    assert Over(trace, asks);
    CacheStaysSound(c, trace, asks);
    var cache := CacheOf(c, trace);
    if Hits(c, cache, a, readOk) {
      var b :| b in asks && AnswerOf(c, b, CacheKey(c, a), cache[CacheKey(c, a)]);
      CacheKeyExact(c, b, a);
      AnswerBounded(c, b, r);
    } else {
      AnswerBounded(c, a, r);
    }
  }

  /** Without Redis nothing is ever cached and every answer is computed. */
  lemma {:induction false} NoRedisNoCache(c: Corpus, trace: seq<Event>)
    requires IsTrace(c, trace)
    requires forall i :: 0 <= i < |trace| && trace[i].Query? ==> !trace[i].readOk && !trace[i].writeOk
    ensures CacheOf(c, trace) == map[] && Transparent(c, trace)
  {
    hide CouldAnswer, CacheKey;
    if trace != [] {
      var front := trace[..|trace|-1];
      assert forall i :: 0 <= i < |front| ==> front[i] == trace[i];
      NoRedisNoCache(c, front);
    }
  }
}
