/** When batch indexing stores the vectors that indexing in turn stores, whatever
    inserts fail. */
module InsertFailures {
  import opened BatchRefinement
  import opened BatchTheorems
  import opened Filtering
  import opened Indexing
  import opened Text
  import opened Vectors
  import opened VectorStore

  /** Which of its document's embeddings chunk `i` takes when the document is indexed alone. */
  function OwnCursor(env: Env, w: Work, i: nat): (at: nat)
    requires i <= |w.chunks|
    ensures at <= i
  {
    |Created(env, w, i, 0)|
  }

  /** Every stored chunk finds the same text under the cursor of the batch and under
      the cursor of its own document. */
  predicate SameTexts(env: Env, ws: seq<Work>) {
    forall n, i :: 0 <= n < |ws| && 0 <= i < |ws[n].chunks| && env.createOk(ws[n].docId, i) ==>
      Cursor(env, ws, n, i) < |AllChunks(ws, |ws|)|
      && AllChunks(ws, |ws|)[Cursor(env, ws, n, i)] == ws[n].chunks[OwnCursor(env, ws[n], i)]
  }

  lemma SameOwnCount(env: Env, w: Work, i: nat, id: nat)
    requires i <= |w.chunks|
    ensures |Created(env, w, i, id)| == OwnCursor(env, w, i)
  {
    CreatedCount(env, w, i, id);
    CreatedCount(env, w, i, 0);
  }

  // ----- same texts, same records -----

  lemma SameEmbeddings(env: Env, ws: seq<Work>, n: nat, id: nat, e: string -> Vector)
    requires n < |ws| && SameTexts(env, ws)
    ensures var w, at, all := ws[n], |NewRows(env, ws, n, id)|, AllChunks(ws, |ws|);
            var created := Created(env, w, |w.chunks|, id + at);
            Records(created, EmbedAll(e, all), at, |created|) == Records(created, EmbedAll(e, w.chunks), 0, |created|)
  {
    hide Created, NewRows, AllChunks, Records;
    var w, at, all := ws[n], |NewRows(env, ws, n, id)|, AllChunks(ws, |ws|);
    var created := Created(env, w, |w.chunks|, id + at);
    SameCount(env, ws, n, id);
    NewRowsShort(env, ws, n, id);
    ChunkPlace(ws, n, |ws|);
    forall j | 0 <= j < |created| ensures EmbedAll(e, all)[at + j] == EmbedAll(e, w.chunks)[j] {
      var i := CreatedFrom(env, w, |w.chunks|, id + at, j);
      SameOwnCount(env, w, i, id + at);
      assert Cursor(env, ws, n, i) == at + j;
    }
    RecordsShift(created, EmbedAll(e, all), at, EmbedAll(e, w.chunks), |created|);
  }

  lemma {:induction false} SameTextsSuffice(env: Env, ws: seq<Work>, n: nat, id: nat, e: string -> Vector)
    requires n <= |ws| && env.hasStore && SameTexts(env, ws)
    ensures BatchRecords(env, ws, n, id, EmbedAll(e, AllChunks(ws, |ws|)))
         == LoopRecords(WithEmbedder(env, e), ws, n, id)
  {
    hide Records, Created, NewRows, AllChunks, Embedded, SameTexts;
    if n > 0 {
      SameTextsSuffice(env, ws, n - 1, id, e);
      var w, at := ws[n-1], |NewRows(env, ws, n - 1, id)|;
      NewRowsSame(env, e, ws, n - 1, id);
      CreatedSame(env, e, w, |w.chunks|, id + at);
      EmbeddedIs(WithEmbedder(env, e), w.chunks, e);
      SameEmbeddings(env, ws, n - 1, id, e);
    }
  }

  // ----- a different text shows -----

  lemma {:induction false} LoopRecordFrom(env: Env, ws: seq<Work>, m: nat, id: nat, e: string -> Vector,
                                          r: VectorRecord)
      returns (n: nat, i: nat)
    requires m <= |ws| && env.hasStore && r in LoopRecords(WithEmbedder(env, e), ws, m, id)
    ensures n < m && i < |ws[n].chunks| && r.docId == ws[n].docId && r.chunkIndex == i
    ensures r.embedding == e(ws[n].chunks[OwnCursor(env, ws[n], i)]) && r.embedding != []
    decreases m
  {
    hide Records, Created, NewRows, Embedded;
    if r in LoopRecords(WithEmbedder(env, e), ws, m - 1, id) {
      n, i := LoopRecordFrom(env, ws, m - 1, id, e, r);
    } else {
      n := m - 1;
      var w, at := ws[n], id + |NewRows(env, ws, n, id)|;
      NewRowsSame(env, e, ws, n, id);
      CreatedSame(env, e, w, |w.chunks|, at);
      EmbeddedIs(WithEmbedder(env, e), w.chunks, e);
      var created := Created(env, w, |w.chunks|, at);
      var j := RecordFrom(created, EmbedAll(e, w.chunks), 0, |created|, r);
      i := CreatedFrom(env, w, |w.chunks|, at, j);
      SameOwnCount(env, w, i, at);
    }
  }

  lemma DifferentTextShows(env: Env, ws: seq<Work>, id: nat) returns (e: string -> Vector)
    requires env.hasStore && Distinct(ws) && !SameTexts(env, ws)
    ensures BatchRecords(env, ws, |ws|, id, EmbedAll(e, AllChunks(ws, |ws|)))
         != LoopRecords(WithEmbedder(env, e), ws, |ws|, id)
  {
    hide BatchRecords, LoopRecords, AllChunks, Cursor, OwnCursor;
    var all := AllChunks(ws, |ws|);
    var n, i :| 0 <= n < |ws| && 0 <= i < |ws[n].chunks| && env.createOk(ws[n].docId, i)
      && !(Cursor(env, ws, n, i) < |all| && all[Cursor(env, ws, n, i)] == ws[n].chunks[OwnCursor(env, ws[n], i)]);
    CursorInRange(env, ws, n, i);
    var wrong := all[Cursor(env, ws, n, i)];
    e := t => if t == wrong then [1.0] else [0.0];
    BatchRecordAt(env, ws, |ws|, id, EmbedAll(e, all), n, i);
    var r := ChunkRecord(env, ws, id, EmbedAll(e, all), n, i);
    assert r.embedding[0] == 1.0 && e(ws[n].chunks[OwnCursor(env, ws[n], i)])[0] == 0.0;
    if r in LoopRecords(WithEmbedder(env, e), ws, |ws|, id) {
      var n', i' := LoopRecordFrom(env, ws, |ws|, id, e, r);
    }
  }

  // ----- what is stored -----

  /** No vectors of a document with chunks are left from earlier indexing. */
  ghost predicate FreshVectors(s: State, ws: seq<Work>) {
    forall i :: 0 <= i < |ws| && ws[i].chunks != [] ==> ws[i].docId !in DocIds(s.vectors)
  }

  lemma LoopStores(env: Env, s: State, ws: seq<Work>, e: string -> Vector)
    requires env.hasStore && Distinct(ws)
    ensures IndexEach(WithEmbedder(env, e), s, ws, |ws|).vectors
         == WithoutDocs(s.vectors, ActiveIds(ws, |ws|)) + LoopRecords(WithEmbedder(env, e), ws, |ws|, s.nextId)
  {
    hide IndexEach, LoopRecords, NewRows, ActiveIds, Without, DocsAfter;
    LoopClosed(WithEmbedder(env, e), s, ws, |ws|);
  }

  lemma BatchRecordDocs(env: Env, ws: seq<Work>, id: nat, embeddings: seq<Vector>)
    ensures DocIds(BatchRecords(env, ws, |ws|, id, embeddings)) <= ActiveIds(ws, |ws|)
  {
    hide BatchRecords, Cursor;
    var records := BatchRecords(env, ws, |ws|, id, embeddings);
    forall k | k in DocIds(records) ensures k in ActiveIds(ws, |ws|) {
      var j :| 0 <= j < |records| && DOC_OF(records[j]) == k;
      var n, i := BatchRecordFrom(env, ws, |ws|, id, embeddings, records[j]);
      assert ws[n].chunks != [] && ws[n].docId == k;
    }
  }

  /** Over fresh documents both ways only add records. */
  lemma FreshStores(env: Env, s: State, ws: seq<Work>, e: string -> Vector)
    requires env.hasStore && Distinct(ws) && FreshVectors(s, ws)
    ensures IndexBatch(WithEmbedder(env, e), s, ws).vectors
         == s.vectors + BatchRecords(env, ws, |ws|, s.nextId, EmbedAll(e, AllChunks(ws, |ws|)))
    ensures IndexEach(WithEmbedder(env, e), s, ws, |ws|).vectors
         == s.vectors + LoopRecords(WithEmbedder(env, e), ws, |ws|, s.nextId)
  {
    hide IndexBatch, IndexEach, BatchRecords, LoopRecords, AllChunks, Without, Keys;
    var records := BatchRecords(env, ws, |ws|, s.nextId, EmbedAll(e, AllChunks(ws, |ws|)));
    BatchStores(env, s, ws, e);
    LoopStores(env, s, ws, e);
    BatchRecordDocs(env, ws, s.nextId, EmbedAll(e, AllChunks(ws, |ws|)));
    WithoutNone(s.vectors, DOC_OF, ActiveIds(ws, |ws|));
    WithoutNone(s.vectors, DOC_OF, DocIds(records));
  }

  lemma BatchVectorOf(env: Env, ws: seq<Work>, id: nat, e: string -> Vector, r: VectorRecord) returns (t: string)
    requires r in BatchRecords(env, ws, |ws|, id, EmbedAll(e, AllChunks(ws, |ws|)))
    ensures r.embedding == e(t) && e(t) != []
  {
    hide BatchRecords, AllChunks, Cursor;
    var all := AllChunks(ws, |ws|);
    var n, i := BatchRecordFrom(env, ws, |ws|, id, EmbedAll(e, all), r);
    t := all[Cursor(env, ws, n, i)];
  }

  /** An embedder without vectors makes no records. */
  lemma NoVectorsNoRecords(env: Env, ws: seq<Work>, id: nat, e: string -> Vector)
    requires env.hasStore && forall t :: e(t) == []
    ensures BatchRecords(env, ws, |ws|, id, EmbedAll(e, AllChunks(ws, |ws|))) == []
    ensures LoopRecords(WithEmbedder(env, e), ws, |ws|, id) == []
  {
    hide BatchRecords, LoopRecords, AllChunks, Cursor, OwnCursor;
    var batch := BatchRecords(env, ws, |ws|, id, EmbedAll(e, AllChunks(ws, |ws|)));
    var loop := LoopRecords(WithEmbedder(env, e), ws, |ws|, id);
    if batch != [] {
      var t := BatchVectorOf(env, ws, id, e, batch[0]);
    }
    if loop != [] {
      var n, i := LoopRecordFrom(env, ws, |ws|, id, e, loop[0]);
    }
  }

  /** With such an embedder the batch leaves old vectors that indexing in turn deletes. */
  lemma StaleShows(env: Env, s: State, ws: seq<Work>, e: string -> Vector)
    requires env.hasStore && Distinct(ws) && forall t :: e(t) == []
    requires IndexBatch(WithEmbedder(env, e), s, ws).vectors == IndexEach(WithEmbedder(env, e), s, ws, |ws|).vectors
    ensures FreshVectors(s, ws)
  {
    hide IndexBatch, IndexEach, BatchRecords, LoopRecords, AllChunks, Without, Keys;
    BatchStores(env, s, ws, e);
    LoopStores(env, s, ws, e);
    NoVectorsNoRecords(env, ws, s.nextId, e);
    NoKeys([]);
    WithoutMore(s.vectors, DOC_OF, ActiveIds(ws, |ws|), {});
    forall i | 0 <= i < |ws| && ws[i].chunks != [] ensures ws[i].docId in ActiveIds(ws, |ws|) {}
  }

  /** Whichever inserts fail, batch indexing and indexing in turn store the same
      vectors for every embedder, if and only if no vectors of the documents were
      there before and every stored chunk finds the same text under both cursors. */
  lemma SameVectorsExactly(env: Env, s: State, ws: seq<Work>)
    requires env.hasStore && Distinct(ws)
    ensures (forall e: string -> Vector ::
               IndexBatch(WithEmbedder(env, e), s, ws).vectors
               == IndexEach(WithEmbedder(env, e), s, ws, |ws|).vectors)
       <==> FreshVectors(s, ws) && SameTexts(env, ws)
  {
    hide IndexBatch, IndexEach, BatchRecords, LoopRecords, AllChunks, FreshVectors, SameTexts, WithEmbedder, EmbedAll;
    if FreshVectors(s, ws) && SameTexts(env, ws) {
      forall e: string -> Vector
        ensures IndexBatch(WithEmbedder(env, e), s, ws).vectors
             == IndexEach(WithEmbedder(env, e), s, ws, |ws|).vectors
      {
        FreshStores(env, s, ws, e);
        SameTextsSuffice(env, ws, |ws|, s.nextId, e);
      }
    } else if !FreshVectors(s, ws) {
      var e: string -> Vector := t => [];
      if IndexBatch(WithEmbedder(env, e), s, ws).vectors == IndexEach(WithEmbedder(env, e), s, ws, |ws|).vectors {
        StaleShows(env, s, ws, e);
      }
    } else {
      var e := DifferentTextShows(env, ws, s.nextId);
      FreshStores(env, s, ws, e);
      SameTail(s.vectors, BatchRecords(env, ws, |ws|, s.nextId, EmbedAll(e, AllChunks(ws, |ws|))),
               LoopRecords(WithEmbedder(env, e), ws, |ws|, s.nextId));
    }
  }
}
