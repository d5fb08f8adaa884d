/** The in-memory vector store: a list of records, rewritten in place by
    filtering, and searched by brute force. */
module VectorStore {
  import opened Filtering
  import opened Sorting
  import opened Vectors

  datatype VectorRecord =
    VectorRecord(chunkId: nat, docId: nat, kbId: nat, chunkIndex: nat, content: string, embedding: Vector)

  datatype SearchResult = SearchResult(chunkId: nat, docId: nat, chunkIndex: nat, content: string, score: real)

  datatype Outcome = Found(results: seq<SearchResult>) | EmptyQuery

  // ----- what the operations mean -----

  const DOC_OF: VectorRecord -> nat := (r: VectorRecord) => r.docId
  const KB_OF: VectorRecord -> nat := (r: VectorRecord) => r.kbId

  ghost function DocIds(rs: seq<VectorRecord>): set<nat> {
    Keys(rs, DOC_OF)
  }

  /** The records of documents outside `docs`, in order. */
  function WithoutDocs(rs: seq<VectorRecord>, docs: set<nat>): seq<VectorRecord> {
    Without(rs, DOC_OF, docs)
  }

  function WithoutKb(rs: seq<VectorRecord>, kb: nat): seq<VectorRecord> {
    Without(rs, KB_OF, {kb})
  }

  /** The records of one document, in order: the store seen as a map. */
  function Of(rs: seq<VectorRecord>, doc: nat): seq<VectorRecord> {
    Having(rs, DOC_OF, doc)
  }

  ghost function Upserted(rs: seq<VectorRecord>, batch: seq<VectorRecord>): seq<VectorRecord> {
    WithoutDocs(rs, DocIds(batch)) + batch
  }

  predicate IsCandidate(r: VectorRecord, query: Vector, kb: nat) {
    (kb > 0 ==> r.kbId == kb) && |r.embedding| == |query|
  }

  function Hit(r: VectorRecord, query: Vector, sqrt: real -> real): SearchResult
    requires IsSquareRoot(sqrt)
  {
    SearchResult(r.chunkId, r.docId, r.chunkIndex, r.content, Cosine(query, r.embedding, sqrt))
  }

  /** `picks` are the positions of the `topK` best candidates, best first. */
  ghost predicate IsTopK(rs: seq<VectorRecord>, query: Vector, kb: nat, topK: nat, sqrt: real -> real, picks: seq<nat>)
    requires IsSquareRoot(sqrt)
  {
    (forall i :: 0 <= i < |picks| ==> picks[i] < |rs| && IsCandidate(rs[picks[i]], query, kb))
    && (forall i, j :: 0 <= i < j < |picks| ==> picks[i] != picks[j])
    && (forall i, j :: 0 <= i < j < |picks| ==>
         Cosine(query, rs[picks[i]].embedding, sqrt) >= Cosine(query, rs[picks[j]].embedding, sqrt))
    && |picks| <= topK
    && (forall k :: 0 <= k < |rs| && IsCandidate(rs[k], query, kb) && k !in picks ==>
         |picks| == topK
         && forall i :: 0 <= i < |picks| ==>
              Cosine(query, rs[picks[i]].embedding, sqrt) >= Cosine(query, rs[k].embedding, sqrt))
  }

  // ----- the store -----

  datatype Scored = Scored(idx: nat, score: real)

  const IDX_OF: Scored -> nat := (s: Scored) => s.idx
  const SCORE_OF: Scored -> real := (s: Scored) => s.score

  class InMemoryVectorStore {
    var records: seq<VectorRecord>

    constructor ()
      ensures records == []
    {
      records := [];
    }

    method UpsertVectors(batch: seq<VectorRecord>)
      modifies this
      ensures records == Upserted(old(records), batch)
    {
      var docIds: set<nat> := {};
      for i := 0 to |batch|
        invariant docIds == DocIds(batch[..i]) && records == old(records)
      {
        KeysSnoc(batch[..i+1], DOC_OF);
        assert batch[..i+1][..i] == batch[..i];
        docIds := docIds + {batch[i].docId};
      }
      assert batch[..|batch|] == batch && docIds == DocIds(batch);
      // `filtered` shares the backing array that is still being read
      var backing, kept := records, 0;
      for i := 0 to |backing|
        invariant records == old(records) && |backing| == |records| && kept <= i
        invariant backing[..kept] == WithoutDocs(records[..i], docIds)
        invariant backing[i..] == records[i..]
      {
        assert records[..i+1][..i] == records[..i];
        var r := backing[i];
        assert r == records[i..][0] == records[i];
        if r.docId !in docIds {
          backing := backing[kept := r];
          kept := kept + 1;
        }
      }
      assert records[..|records|] == records;
      records := backing[..kept];
      records := records + batch;
    }

    method DeleteByDoc(docId: nat)
      modifies this
      ensures records == WithoutDocs(old(records), {docId})
    {
      var backing, kept := records, 0;
      for i := 0 to |backing|
        invariant |backing| == |records| && kept <= i
        invariant backing[..kept] == WithoutDocs(records[..i], {docId})
        invariant backing[i..] == records[i..]
      {
        assert records[..i+1][..i] == records[..i];
        var r := backing[i];
        assert r == records[i..][0] == records[i];
        if r.docId != docId {
          backing := backing[kept := r];
          kept := kept + 1;
        }
      }
      assert records[..|records|] == records;
      records := backing[..kept];
    }

    method DeleteByKB(kbId: nat)
      modifies this
      ensures records == WithoutKb(old(records), kbId)
    {
      var backing, kept := records, 0;
      for i := 0 to |backing|
        invariant |backing| == |records| && kept <= i
        invariant backing[..kept] == WithoutKb(records[..i], kbId)
        invariant backing[i..] == records[i..]
      {
        assert records[..i+1][..i] == records[..i];
        var r := backing[i];
        assert r == records[i..][0] == records[i];
        if r.kbId != kbId {
          backing := backing[kept := r];
          kept := kept + 1;
        }
      }
      assert records[..|records|] == records;
      records := backing[..kept];
    }

    /** Exact top-k: every result is a candidate with its own similarity, best
        first, and no candidate left out scores higher. */
    method Search(query: Vector, kb: nat, topK: nat, sqrt: real -> real)
        returns (out: Outcome, ghost picks: seq<nat>)
      requires IsSquareRoot(sqrt)
      ensures out.EmptyQuery? <==> query == []
      ensures out.Found? ==> IsTopK(records, query, kb, topK, sqrt, picks)
      ensures out.Found? ==> |out.results| == |picks|
      ensures out.Found? ==> forall i :: 0 <= i < |picks| ==> out.results[i] == Hit(records[picks[i]], query, sqrt)
    {
      hide Cosine, IsTopK, Descending;
      picks := [];
      if query == [] { return EmptyQuery, []; }
      var scoredList: seq<Scored> := [];
      for i := 0 to |records|
        invariant ScoresUpTo(records, query, kb, sqrt, scoredList, i)
      {
        var r := records[i];
        if kb > 0 && r.kbId != kb { continue; }
        if |r.embedding| != |query| { continue; }
        var s := CosineSimilarity(query, r.embedding, sqrt);
        scoredList := scoredList + [Scored(i, s)];
      }
      ghost var all := scoredList;
      scoredList := SortSlice(scoredList, SCORE_OF);
      ghost var full := scoredList;
      if |scoredList| > topK { scoredList := scoredList[..topK]; }
      var results: seq<SearchResult> := [];
      for i := 0 to |scoredList|
        invariant |results| == |picks| == i
        invariant forall j :: 0 <= j < i ==> picks[j] == scoredList[j].idx < |records|
        invariant forall j :: 0 <= j < i ==> results[j] == Hit(records[picks[j]], query, sqrt)
      {
        assert full[i] in multiset(full) && full[i] in all;
        var sc := scoredList[i];
        var r := records[sc.idx];
        results := results + [SearchResult(r.chunkId, r.docId, r.chunkIndex, r.content, sc.score)];
        picks := picks + [sc.idx];
      }
      out := Found(results);
      BestOfSorted(records, query, kb, topK, sqrt, all, full, picks);
    }
  }

  /** The scored list after looking at the first `n` records. */
  ghost predicate ScoresUpTo(rs: seq<VectorRecord>, query: Vector, kb: nat, sqrt: real -> real, list: seq<Scored>,
                             n: nat)
    requires IsSquareRoot(sqrt) && n <= |rs|
  {
    (forall s :: s in list ==> s.idx < n && IsCandidate(rs[s.idx], query, kb)
                               && s.score == Cosine(query, rs[s.idx].embedding, sqrt))
    && (forall i, j :: 0 <= i < j < |list| ==> list[i].idx < list[j].idx)
    && (forall k :: 0 <= k < n && IsCandidate(rs[k], query, kb) ==>
         Scored(k, Cosine(query, rs[k].embedding, sqrt)) in list)
  }

  lemma BestOfSorted(rs: seq<VectorRecord>, query: Vector, kb: nat, topK: nat, sqrt: real -> real,
                     all: seq<Scored>, full: seq<Scored>, picks: seq<nat>)
    requires IsSquareRoot(sqrt) && ScoresUpTo(rs, query, kb, sqrt, all, |rs|)
    requires multiset(full) == multiset(all) && Descending(full, SCORE_OF)
    requires |picks| == (if |full| > topK then topK else |full|)
    requires forall i :: 0 <= i < |picks| ==> picks[i] == full[i].idx
    ensures IsTopK(rs, query, kb, topK, sqrt, picks)
  {
    forall i | 0 <= i < |full| ensures full[i] in all { assert full[i] in multiset(full); }
    RearrangedDistinct(all, full, IDX_OF);
    assert forall i, j :: 0 <= i < j < |full| ==> IDX_OF(full[i]) != IDX_OF(full[j]);
    forall k | 0 <= k < |rs| && IsCandidate(rs[k], query, kb) && k !in picks
      ensures |picks| == topK
      ensures forall i :: 0 <= i < |picks| ==>
                Cosine(query, rs[picks[i]].embedding, sqrt) >= Cosine(query, rs[k].embedding, sqrt)
    {
      var s := Scored(k, Cosine(query, rs[k].embedding, sqrt));
      assert s in multiset(all) && s in full;
      var at :| 0 <= at < |full| && full[at] == s;
      assert at >= |picks|;
    }
  }

  // ----- the store as a map from document to records -----

  /** An upsert replaces exactly the batch's documents by the batch's records. */
  lemma UpsertRefinesMap(rs: seq<VectorRecord>, batch: seq<VectorRecord>, doc: nat)
    ensures Of(Upserted(rs, batch), doc) == if doc in DocIds(batch) then Of(batch, doc) else Of(rs, doc)
  {
    HavingConcat(WithoutDocs(rs, DocIds(batch)), batch, DOC_OF, doc);
    HavingWithout(rs, DOC_OF, DocIds(batch), doc);
    HavingAbsent(batch, DOC_OF, doc);
  }

  lemma DeleteByDocRefinesMap(rs: seq<VectorRecord>, gone: nat, doc: nat)
    ensures Of(WithoutDocs(rs, {gone}), doc) == if doc == gone then [] else Of(rs, doc)
  {
    HavingWithout(rs, DOC_OF, {gone}, doc);
  }

  /** Deleting a knowledge base removes its records from every document. */
  lemma DeleteByKbRefinesMap(rs: seq<VectorRecord>, kb: nat, doc: nat)
    ensures Of(WithoutKb(rs, kb), doc) == WithoutKb(Of(rs, doc), kb)
    ensures kb !in Keys(Of(WithoutKb(rs, kb), doc), KB_OF)
  {
    HavingWithoutOther(rs, DOC_OF, doc, KB_OF, {kb});
    KeysWithout(Of(rs, doc), KB_OF, {kb});
  }

  lemma BatchTwice(rs: seq<VectorRecord>, batch: seq<VectorRecord>)
    ensures WithoutDocs(Upserted(rs, batch), DocIds(batch)) == WithoutDocs(rs, DocIds(batch))
  {
    var docs := DocIds(batch);
    WithoutConcat(WithoutDocs(rs, docs), batch, DOC_OF, docs);
    WithoutTwice(rs, DOC_OF, docs, docs);
    assert docs + docs == docs;
    WithoutAll(batch, DOC_OF, docs);
  }

  /** Writing the same batch twice is writing it once, and the other documents'
      records stay in the same order. */
  lemma UpsertIdempotent(rs: seq<VectorRecord>, batch: seq<VectorRecord>)
    ensures Upserted(Upserted(rs, batch), batch) == Upserted(rs, batch)
    ensures WithoutDocs(Upserted(rs, batch), DocIds(batch)) == WithoutDocs(rs, DocIds(batch))
  {
    BatchTwice(rs, batch);
  }

  /** Deleting a document after an upsert is upserting the rest into a store
      that never had the document. */
  lemma DeleteByDocCommutes(rs: seq<VectorRecord>, batch: seq<VectorRecord>, doc: nat)
    ensures WithoutDocs(Upserted(rs, batch), {doc}) == Upserted(WithoutDocs(rs, {doc}), WithoutDocs(batch, {doc}))
  {
    var docs := DocIds(batch);
    WithoutConcat(WithoutDocs(rs, docs), batch, DOC_OF, {doc});
    KeysWithout(batch, DOC_OF, {doc});
    WithoutTwice(rs, DOC_OF, docs, {doc});
    WithoutTwice(rs, DOC_OF, {doc}, docs - {doc});
    assert docs + {doc} == {doc} + (docs - {doc});
  }

  /** Deleting a knowledge base commutes with an upsert exactly when no record
      of a document that the batch rewrites wholly inside that knowledge base
      was stored under another one. */
  lemma DeleteByKbCommutes(rs: seq<VectorRecord>, batch: seq<VectorRecord>, kb: nat)
    ensures WithoutKb(Upserted(rs, batch), kb) == Upserted(WithoutKb(rs, kb), WithoutKb(batch, kb))
       <==> NoStragglers(rs, DOC_OF, DocIds(batch), DocIds(WithoutKb(batch, kb)), KB_OF, {kb})
  {
    var big, small := DocIds(batch), DocIds(WithoutKb(batch, kb));
    WithoutConcat(WithoutDocs(rs, big), batch, KB_OF, {kb});
    KeysWithoutOther(batch, DOC_OF, KB_OF, {kb});
    FiltersAgree(rs, DOC_OF, big, small, KB_OF, {kb});
    var x, y, z := WithoutKb(WithoutDocs(rs, big), kb), WithoutDocs(WithoutKb(rs, kb), small), WithoutKb(batch, kb);
    if |x| < |y| {
      assert |x + z| < |y + z|;
    }
  }
}
