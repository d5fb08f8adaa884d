/** When batch indexing and indexing in turn agree, and which vector a chunk
    gets when row inserts fail. */
module BatchTheorems {
  import opened BatchRefinement
  import opened Chunking
  import opened Filtering
  import opened Indexing
  import opened Options
  import opened Sorting
  import opened Text
  import opened Vectors
  import opened VectorStore

  function EmbedAll(e: string -> Vector, ts: seq<string>): (vs: seq<Vector>)
    ensures |vs| == |ts| && forall i :: 0 <= i < |ts| ==> vs[i] == e(ts[i])
  {
    MapAll(e, ts)
  }

  /** The embedding service never fails and looks at each text by itself. */
  ghost predicate Pointwise(env: Env, e: string -> Vector) {
    forall ts :: env.embedder(ts) == Some(EmbedAll(e, ts))
  }

  /** Every row insert succeeds. */
  ghost predicate AllCreated(env: Env) {
    forall doc: nat, i: nat :: env.createOk(doc, i)
  }

  // ----- the two ways make the same records -----

  lemma {:induction false} CreatedAll(env: Env, w: Work, n: nat, id: nat)
    requires n <= |w.chunks| && AllCreated(env)
    ensures var rows := Created(env, w, n, id);
            |rows| == n && forall j :: 0 <= j < n ==> rows[j] == ChunkRow(id + j, w.kbId, w.docId, j, w.chunks[j])
  {
    if n > 0 { CreatedAll(env, w, n - 1, id); }
  }

  lemma {:induction false} NewRowsCount(env: Env, ws: seq<Work>, n: nat, id: nat)
    requires n <= |ws| && AllCreated(env)
    ensures |NewRows(env, ws, n, id)| == |AllChunks(ws, n)|
  {
    if n > 0 {
      NewRowsCount(env, ws, n - 1, id);
      CreatedAll(env, ws[n-1], |ws[n-1].chunks|, id + |NewRows(env, ws, n - 1, id)|);
    }
  }

  /** Where a document's chunks stand among all chunks. */
  lemma {:induction false} ChunkPlace(ws: seq<Work>, n: nat, m: nat)
    requires n < m <= |ws|
    ensures |AllChunks(ws, n)| + |ws[n].chunks| <= |AllChunks(ws, m)|
    ensures forall i {:trigger ws[n].chunks[i]} :: 0 <= i < |ws[n].chunks| ==>
      AllChunks(ws, m)[|AllChunks(ws, n)| + i] == ws[n].chunks[i]
    decreases m
  {
    if n < m - 1 { ChunkPlace(ws, n, m - 1); }
  }

  lemma {:induction false} RecordsShift(rows: seq<ChunkRow>, a: seq<Vector>, at: nat, b: seq<Vector>, n: nat)
    requires n <= |rows| && n <= |b| && at + n <= |a| && forall j :: 0 <= j < n ==> a[at + j] == b[j]
    ensures Records(rows, a, at, n) == Records(rows, b, 0, n)
  {
    if n > 0 {
      RecordsShift(rows, a, at, b, n - 1);
      assert a[at + (n - 1)] == b[n-1];
    }
  }

  lemma EmbeddedIs(env: Env, ts: seq<string>, e: string -> Vector)
    requires env.hasStore && Pointwise(env, e)
    ensures Embedded(env, ts) == EmbedAll(e, ts)
  {
    if ts == [] { assert EmbedAll(e, ts) == []; }
  }

  lemma SameRecordsOne(env: Env, ws: seq<Work>, n: nat, id: nat, e: string -> Vector, created: seq<ChunkRow>)
    requires n < |ws| && AllCreated(env) && env.hasStore && Pointwise(env, e) && |created| == |ws[n].chunks|
    ensures Records(created, Embedded(env, AllChunks(ws, |ws|)), |NewRows(env, ws, n, id)|, |created|)
         == Records(created, Embedded(env, ws[n].chunks), 0, |created|)
  {
    var at, all := |AllChunks(ws, n)|, AllChunks(ws, |ws|);
    NewRowsCount(env, ws, n, id);
    ChunkPlace(ws, n, |ws|);
    EmbeddedIs(env, all, e);
    EmbeddedIs(env, ws[n].chunks, e);
    forall j | 0 <= j < |ws[n].chunks| ensures EmbedAll(e, all)[at + j] == EmbedAll(e, ws[n].chunks)[j] {
      assert all[at + j] == ws[n].chunks[j];
    }
    RecordsShift(created, EmbedAll(e, all), at, EmbedAll(e, ws[n].chunks), |created|);
  }

  lemma {:induction false} SameRecords(env: Env, ws: seq<Work>, n: nat, id: nat, e: string -> Vector)
    requires n <= |ws| && AllCreated(env) && env.hasStore && Pointwise(env, e)
    ensures BatchRecords(env, ws, n, id, Embedded(env, AllChunks(ws, |ws|))) == LoopRecords(env, ws, n, id)
  {
    hide Records, Created, Embedded, AllChunks;
    if n > 0 {
      SameRecords(env, ws, n - 1, id, e);
      var at := id + |NewRows(env, ws, n - 1, id)|;
      CreatedAll(env, ws[n-1], |ws[n-1].chunks|, at);
      SameRecordsOne(env, ws, n - 1, id, e, Created(env, ws[n-1], |ws[n-1].chunks|, at));
    }
  }

  lemma EmbeddedNothing(env: Env, ts: seq<string>)
    requires !env.hasStore
    ensures Embedded(env, ts) == []
  {}

  lemma {:induction false} NoStoreNoRecords(env: Env, ws: seq<Work>, n: nat, id: nat)
    requires n <= |ws| && !env.hasStore
    ensures LoopRecords(env, ws, n, id) == [] && BatchRecords(env, ws, n, id, []) == []
  {
    hide Records, Created, NewRows, Embedded;
    if n > 0 {
      NoStoreNoRecords(env, ws, n - 1, id);
      EmbeddedNothing(env, ws[n-1].chunks);
      var at := |NewRows(env, ws, n - 1, id)|;
      var created := Created(env, ws[n-1], |ws[n-1].chunks|, id + at);
      NoEmbeddingsNoRecords(created, 0, |created|);
      NoEmbeddingsNoRecords(created, at, |created|);
    }
  }

  // ----- which documents get records -----

  predicate NoVectors(w: Work, e: string -> Vector) {
    forall i :: 0 <= i < |w.chunks| ==> e(w.chunks[i]) == []
  }

  function VectorIds(ws: seq<Work>, n: nat, e: string -> Vector): set<nat>
    requires n <= |ws|
  {
    set i | 0 <= i < n && !NoVectors(ws[i], e) :: ws[i].docId
  }

  lemma {:induction false} RecordsExist(rows: seq<ChunkRow>, w: Work, e: string -> Vector, n: nat)
    requires n <= |w.chunks| == |rows| && forall j :: 0 <= j < n ==> rows[j].docId == w.docId
    ensures DocIds(Records(rows, EmbedAll(e, w.chunks), 0, n))
         == if forall i :: 0 <= i < n ==> e(w.chunks[i]) == [] then {} else {w.docId}
  {
    if n > 0 {
      RecordsExist(rows, w, e, n - 1);
      var v := e(w.chunks[n-1]);
      var last := if v != [] then [RecordOf(rows[n-1], v)] else [];
      KeysConcat(Records(rows, EmbedAll(e, w.chunks), 0, n - 1), last, DOC_OF);
      assert v != [] ==> Keys(last, DOC_OF) == {w.docId} by {
        if v != [] { assert DOC_OF(last[0]) in Keys(last, DOC_OF); }
      }
    }
  }

  lemma {:induction false} LoopRecordDocs(env: Env, ws: seq<Work>, n: nat, id: nat, e: string -> Vector)
    requires n <= |ws| && AllCreated(env) && env.hasStore && Pointwise(env, e)
    ensures DocIds(LoopRecords(env, ws, n, id)) == VectorIds(ws, n, e)
  {
    hide Records, Created, NewRows, Embedded, Keys;
    if n > 0 {
      LoopRecordDocs(env, ws, n - 1, id, e);
      var w, at := ws[n-1], id + |NewRows(env, ws, n - 1, id)|;
      var created := Created(env, w, |w.chunks|, at);
      CreatedAll(env, w, |w.chunks|, at);
      RecordsExist(created, w, e, |w.chunks|);
      EmbeddedIs(env, w.chunks, e);
      KeysConcat(LoopRecords(env, ws, n - 1, id), Records(created, Embedded(env, w.chunks), 0, |created|), DOC_OF);
      assert VectorIds(ws, n, e) == VectorIds(ws, n - 1, e) + (if NoVectors(w, e) then {} else {w.docId});
    } else {
      NoKeys(LoopRecords(env, ws, n, id));
    }
  }

  lemma NoKeys(rs: seq<VectorRecord>)
    requires rs == []
    ensures DocIds(rs) == {}
  {}

  // ----- the exact condition -----

  /** Nothing is left from earlier indexing where the two ways clean up
      differently: no rows (in PostgreSQL) of a document without chunks, and no
      vectors of a document whose chunks all come back without a vector. */
  ghost predicate NothingStale(env: Env, s: State, ws: seq<Work>, e: string -> Vector) {
    (env.pg ==> forall i :: 0 <= i < |ws| && ws[i].chunks == [] ==> ws[i].docId !in Keys(s.rows, ROW_DOC))
    && (env.hasStore ==> forall i :: 0 <= i < |ws| && ws[i].chunks != [] && NoVectors(ws[i], e) ==>
          ws[i].docId !in DocIds(s.vectors))
  }

  lemma RowsAgree(env: Env, s: State, ws: seq<Work>)
    requires Distinct(ws)
    ensures var x, y := OldRows(env, s, Ids(ws, |ws|)), OldRows(env, s, ActiveIds(ws, |ws|));
            if env.pg ==> forall i :: 0 <= i < |ws| && ws[i].chunks == [] ==> ws[i].docId !in Keys(s.rows, ROW_DOC)
            then x == y else |x| < |y|
  {
    var big, small := Ids(ws, |ws|), ActiveIds(ws, |ws|);
    IdsSubset(ws, |ws|);
    WithoutMore(s.rows, ROW_DOC, big, small);
    forall k | k in big - small ensures exists i :: 0 <= i < |ws| && ws[i].chunks == [] && ws[i].docId == k {
      var i :| 0 <= i < |ws| && ws[i].docId == k;
      assert ws[i].chunks == [];
    }
    forall i | 0 <= i < |ws| && ws[i].chunks == [] ensures ws[i].docId in big - small {}
  }

  lemma VectorsAgree(s: State, ws: seq<Work>, e: string -> Vector)
    requires Distinct(ws)
    ensures var x, y := WithoutDocs(s.vectors, VectorIds(ws, |ws|, e)), WithoutDocs(s.vectors, ActiveIds(ws, |ws|));
            if forall i :: (0 <= i < |ws| && ws[i].chunks != [] && NoVectors(ws[i], e)
                            ==> ws[i].docId !in DocIds(s.vectors))
            then x == y else |y| < |x|
  {
    var big, small := ActiveIds(ws, |ws|), VectorIds(ws, |ws|, e);
    assert small <= big;
    WithoutMore(s.vectors, DOC_OF, big, small);
    forall k | k in big - small
      ensures exists i :: 0 <= i < |ws| && ws[i].chunks != [] && NoVectors(ws[i], e) && ws[i].docId == k
    {
      var i :| 0 <= i < |ws| && ws[i].chunks != [] && ws[i].docId == k;
      assert NoVectors(ws[i], e);
    }
    forall i | 0 <= i < |ws| && ws[i].chunks != [] && NoVectors(ws[i], e) ensures ws[i].docId in big - small {}
  }

  /** What the batch leaves in the store, whether or not it made records. */
  lemma BatchVectors(s: State, records: seq<VectorRecord>)
    ensures (if records == [] then s.vectors else Upserted(s.vectors, records))
         == WithoutDocs(s.vectors, DocIds(records)) + records
  {
    if records == [] {
      WithoutNone(s.vectors, DOC_OF, DocIds(records));
    }
  }

  /** For distinct documents, an embedder that works text by text and inserts
      that succeed, the batch leaves exactly the state that indexing the
      documents in turn leaves, if and only if nothing stale was there. */
  lemma BatchRefinesLoop(env: Env, s: State, ws: seq<Work>, e: string -> Vector)
    requires Distinct(ws) && AllCreated(env) && (env.hasStore ==> Pointwise(env, e))
    ensures IndexBatch(env, s, ws) == IndexEach(env, s, ws, |ws|) <==> NothingStale(env, s, ws, e)
  {
    var n := |ws|;
    var embeddings := Embedded(env, AllChunks(ws, n));
    BatchClosed(env, s, ws, embeddings, n);
    LoopClosed(env, s, ws, n);
    RowsAgree(env, s, ws);
    VectorsAgree(s, ws, e);
    var records := LoopRecords(env, ws, n, s.nextId);
    if env.hasStore {
      SameRecords(env, ws, n, s.nextId, e);
      LoopRecordDocs(env, ws, n, s.nextId, e);
    } else {
      NoStoreNoRecords(env, ws, n, s.nextId);
    }
    BatchVectors(s, records);
    ResultsAgree(env, s, ws, e);
  }

  lemma ResultsAgree(env: Env, s: State, ws: seq<Work>, e: string -> Vector)
    requires var n, records := |ws|, LoopRecords(env, ws, |ws|, s.nextId);
             BatchIs(env, s, ws, Embedded(env, AllChunks(ws, n)), n, BatchResult(env, s, ws))
             && LoopIs(env, s, ws, n, IndexEach(env, s, ws, n))
             && BatchRecords(env, ws, n, s.nextId, Embedded(env, AllChunks(ws, n))) == records
             && (if env.hasStore then DocIds(records) == VectorIds(ws, n, e) else records == [])
             && (if records == [] then s.vectors else Upserted(s.vectors, records))
                == WithoutDocs(s.vectors, DocIds(records)) + records
    requires var x, y := OldRows(env, s, Ids(ws, |ws|)), OldRows(env, s, ActiveIds(ws, |ws|));
             if env.pg ==> forall i :: 0 <= i < |ws| && ws[i].chunks == [] ==> ws[i].docId !in Keys(s.rows, ROW_DOC)
             then x == y else |x| < |y|
    requires var x, y := WithoutDocs(s.vectors, VectorIds(ws, |ws|, e)), WithoutDocs(s.vectors, ActiveIds(ws, |ws|));
             if forall i :: (0 <= i < |ws| && ws[i].chunks != [] && NoVectors(ws[i], e)
                            ==> ws[i].docId !in DocIds(s.vectors))
             then x == y else |y| < |x|
    ensures IndexBatch(env, s, ws) == IndexEach(env, s, ws, |ws|) <==> NothingStale(env, s, ws, e)
  {
    hide Without, Keys, Ids, ActiveIds, VectorIds, LoopRecords, BatchRecords;
    hide NewRows, Embedded, AllChunks, BatchUpTo, IndexEach, DocsAfter;
    var n, records := |ws|, LoopRecords(env, ws, |ws|, s.nextId);
    var added := NewRows(env, ws, n, s.nextId);
    var a, b := IndexBatch(env, s, ws), IndexEach(env, s, ws, n);
    var x, y := OldRows(env, s, Ids(ws, n)), OldRows(env, s, ActiveIds(ws, n));
    assert a.rows == x + added && b.rows == y + added;
    SuffixEqual(x, y, added);
    if env.hasStore {
      SuffixEqual(WithoutDocs(s.vectors, DocIds(records)), WithoutDocs(s.vectors, ActiveIds(ws, n)), records);
    } else {
      assert s.vectors + [] == s.vectors;
    }
  }

  lemma SuffixEqual<T>(x: seq<T>, y: seq<T>, z: seq<T>)
    ensures x + z == y + z <==> x == y
  {
    if x + z == y + z {
      assert |x + z| == |y + z|;
      assert x == (x + z)[..|x|] && y == (y + z)[..|y|];
    }
  }

  /** With documents that are not blank and an embedder that answers every text
      with a vector, nothing can be stale. */
  lemma BatchEqualsLoop(env: Env, s: State, docs: seq<Document>, e: string -> Vector)
    requires Indexable(env, docs) && AllCreated(env) && Pointwise(env, e) && forall t :: e(t) != []
    requires forall i, j :: 0 <= i < j < |docs| ==> docs[i].id != docs[j].id
    requires forall i :: 0 <= i < |docs| ==> !Blank(docs[i].content)
    ensures IndexBatch(env, s, PrepareAll(env, docs)) == IndexEach(env, s, PrepareAll(env, docs), |docs|)
  {
    hide *;
    var ws := PrepareAll(env, docs);
    forall i | 0 <= i < |docs| ensures ws[i].docId == docs[i].id && ws[i].chunks != [] {
      PreparedAt(env, docs, i);
    }
    NeverStale(env, s, ws, e);
    AreDistinct(ws);
    BatchRefinesLoop(env, s, ws, e);
  }

  lemma AreDistinct(ws: seq<Work>)
    requires forall i, j :: 0 <= i < j < |ws| ==> ws[i].docId != ws[j].docId
    ensures Distinct(ws)
  {}

  lemma NeverStale(env: Env, s: State, ws: seq<Work>, e: string -> Vector)
    requires (forall i :: 0 <= i < |ws| ==> ws[i].chunks != []) && forall t :: e(t) != []
    ensures NothingStale(env, s, ws, e)
  {
    forall i | 0 <= i < |ws| ensures !NoVectors(ws[i], e) { assert e(ws[i].chunks[0]) != []; }
  }

  lemma {:induction false} PreparedAt(env: Env, docs: seq<Document>, i: nat)
    requires Indexable(env, docs) && i < |docs|
    ensures PrepareAll(env, docs)[i] == Prepare(env, docs[i])
    ensures Prepare(env, docs[i]).docId == docs[i].id
    ensures Prepare(env, docs[i]).chunks == [] <==> Blank(docs[i].content)
    decreases |docs|
  {
    hide ChunksOf;
    EmptyIffBlank(docs[i].content, env.cfg);
    if i < |docs| - 1 {
      PreparedAt(env, docs[..|docs|-1], i);
    }
  }

  /** An example of the difference, one blank document: in turn, its old rows stay;
      in a batch they are deleted. */
  lemma BlankDocumentRows(env: Env, s: State, w: Work)
    requires env.pg && w.chunks == []
    ensures IndexEach(env, s, [w], 1).rows == s.rows
    ensures IndexBatch(env, s, [w]).rows == RowsWithout(s.rows, {w.docId})
  {
    hide Without;
    assert IndexEach(env, s, [w], 0) == s;
    var embeddings := Embedded(env, AllChunks([w], 1));
    assert BatchUpTo(env, s, [w], embeddings, 0) == Batch(s.rows, s.nextId, s.docs, [], 0);
    assert Created(env, w, 0, s.nextId) == [];
  }

  // ----- failed inserts shift the vectors -----

  function FailedIn(env: Env, w: Work, n: nat): nat {
    if n == 0 then 0 else FailedIn(env, w, n - 1) + (if env.createOk(w.docId, n - 1) then 0 else 1)
  }

  /** The inserts that failed before chunk `i` of document `n`. */
  function FailedBefore(env: Env, ws: seq<Work>, n: nat, i: nat): nat
    requires n < |ws| || (n == |ws| && i == 0)
  {
    (if i == 0 then 0 else FailedIn(env, ws[n], i))
    + (if n == 0 then 0 else FailedBefore(env, ws, n - 1, |ws[n-1].chunks|))
  }

  /** Where the embedding cursor stands when chunk `i` of document `n` comes up. */
  function Cursor(env: Env, ws: seq<Work>, n: nat, i: nat): nat
    requires n < |ws| && i <= |ws[n].chunks|
  {
    |NewRows(env, ws, n, 0)| + |Created(env, ws[n], i, 0)|
  }

  lemma {:induction false} CreatedCount(env: Env, w: Work, n: nat, id: nat)
    requires n <= |w.chunks|
    ensures |Created(env, w, n, id)| + FailedIn(env, w, n) == n
  {
    if n > 0 { CreatedCount(env, w, n - 1, id); }
  }

  lemma {:induction false} NewRowsShort(env: Env, ws: seq<Work>, n: nat, id: nat)
    requires n <= |ws|
    ensures |NewRows(env, ws, n, id)| + FailedBefore(env, ws, n, 0) == |AllChunks(ws, n)|
  {
    if n > 0 {
      NewRowsShort(env, ws, n - 1, id);
      CreatedCount(env, ws[n-1], |ws[n-1].chunks|, id + |NewRows(env, ws, n - 1, id)|);
    }
  }

  /** After k failed inserts the cursor is exactly k positions behind. */
  lemma CursorLags(env: Env, ws: seq<Work>, n: nat, i: nat)
    requires n < |ws| && i <= |ws[n].chunks|
    ensures Cursor(env, ws, n, i) + FailedBefore(env, ws, n, i) == |AllChunks(ws, n)| + i
  {
    NewRowsShort(env, ws, n, 0);
    CreatedCount(env, ws[n], i, 0);
  }

  lemma {:induction false} CreatedRow(env: Env, w: Work, n: nat, id: nat, i: nat)
    requires i < n <= |w.chunks| && env.createOk(w.docId, i)
    ensures var j, rows := |Created(env, w, i, id)|, Created(env, w, n, id);
            j < |rows| && rows[j] == ChunkRow(id + j, w.kbId, w.docId, i, w.chunks[i])
  {
    if i < n - 1 { CreatedRow(env, w, n - 1, id, i); }
  }

  lemma {:induction false} CreatedFrom(env: Env, w: Work, n: nat, id: nat, j: nat) returns (i: nat)
    requires n <= |w.chunks| && j < |Created(env, w, n, id)|
    ensures i < n && env.createOk(w.docId, i) && |Created(env, w, i, id)| == j
    ensures Created(env, w, n, id)[j] == ChunkRow(id + j, w.kbId, w.docId, i, w.chunks[i])
  {
    if j < |Created(env, w, n - 1, id)| {
      i := CreatedFrom(env, w, n - 1, id, j);
    } else {
      i := n - 1;
    }
  }

  lemma {:induction false} RecordAt(rows: seq<ChunkRow>, embeddings: seq<Vector>, offset: nat, n: nat, j: nat)
    requires j < n <= |rows| && offset + j < |embeddings| && embeddings[offset + j] != []
    ensures RecordOf(rows[j], embeddings[offset + j]) in Records(rows, embeddings, offset, n)
  {
    if j < n - 1 { RecordAt(rows, embeddings, offset, n - 1, j); }
  }

  lemma {:induction false} RecordFrom(rows: seq<ChunkRow>, embeddings: seq<Vector>, offset: nat, n: nat,
                                      r: VectorRecord)
      returns (j: nat)
    requires n <= |rows| && r in Records(rows, embeddings, offset, n)
    ensures j < n && offset + j < |embeddings| && r == RecordOf(rows[j], embeddings[offset + j])
    ensures r.embedding != []
  {
    if r in Records(rows, embeddings, offset, n - 1) {
      j := RecordFrom(rows, embeddings, offset, n - 1, r);
    } else {
      j := n - 1;
    }
  }

  lemma {:induction false} SameCount(env: Env, ws: seq<Work>, n: nat, id: nat)
    requires n <= |ws|
    ensures |NewRows(env, ws, n, id)| == |NewRows(env, ws, n, 0)|
  {
    NewRowsShort(env, ws, n, id);
    NewRowsShort(env, ws, n, 0);
  }

  /** The record that chunk `i` of document `n` gets, if its embedding is not empty. */
  function ChunkRecord(env: Env, ws: seq<Work>, id: nat, embeddings: seq<Vector>, n: nat, i: nat): VectorRecord
    requires n < |ws| && i < |ws[n].chunks| && Cursor(env, ws, n, i) < |embeddings|
  {
    var at := Cursor(env, ws, n, i);
    RecordOf(ChunkRow(id + at, ws[n].kbId, ws[n].docId, i, ws[n].chunks[i]), embeddings[at])
  }

  lemma {:induction false} BatchRecordAt(env: Env, ws: seq<Work>, m: nat, id: nat, embeddings: seq<Vector>,
                                         n: nat, i: nat)
    requires n < m <= |ws| && i < |ws[n].chunks| && env.createOk(ws[n].docId, i)
    requires Cursor(env, ws, n, i) < |embeddings| && embeddings[Cursor(env, ws, n, i)] != []
    ensures ChunkRecord(env, ws, id, embeddings, n, i) in BatchRecords(env, ws, m, id, embeddings)
    decreases m
  {
    hide Records, Created, NewRows;
    if n < m - 1 {
      BatchRecordAt(env, ws, m - 1, id, embeddings, n, i);
    } else {
      var w, at := ws[n], |NewRows(env, ws, n, id)|;
      SameCount(env, ws, n, id);
      var rows := Created(env, w, |w.chunks|, id + at);
      CreatedCount(env, w, i, id + at);
      CreatedCount(env, w, i, 0);
      CreatedRow(env, w, |w.chunks|, id + at, i);
      RecordAt(rows, embeddings, at, |rows|, |Created(env, w, i, id + at)|);
    }
  }

  lemma {:induction false} BatchRecordFrom(env: Env, ws: seq<Work>, m: nat, id: nat, embeddings: seq<Vector>,
                                           r: VectorRecord)
      returns (n: nat, i: nat)
    requires m <= |ws| && r in BatchRecords(env, ws, m, id, embeddings)
    ensures n < m && i < |ws[n].chunks| && env.createOk(ws[n].docId, i) && Cursor(env, ws, n, i) < |embeddings|
    ensures r == ChunkRecord(env, ws, id, embeddings, n, i) && r.embedding != []
    decreases m
  {
    hide Records, Created, NewRows;
    if r in BatchRecords(env, ws, m - 1, id, embeddings) {
      n, i := BatchRecordFrom(env, ws, m - 1, id, embeddings, r);
    } else {
      n := m - 1;
      var w, at := ws[n], |NewRows(env, ws, n, id)|;
      SameCount(env, ws, n, id);
      var rows := Created(env, w, |w.chunks|, id + at);
      var j := RecordFrom(rows, embeddings, at, |rows|, r);
      i := CreatedFrom(env, w, |w.chunks|, id + at, j);
      CreatedCount(env, w, i, id + at);
      CreatedCount(env, w, i, 0);
    }
  }

  /** Every record carries the embedding of its own content. */
  ghost predicate Aligned(records: seq<VectorRecord>, e: string -> Vector) {
    forall r :: r in records ==> r.embedding == e(r.content)
  }

  /** Each stored chunk equals the chunk that many places earlier as inserts
      failed before it; in particular this holds when no insert fails. */
  predicate ShiftHarmless(env: Env, ws: seq<Work>) {
    forall n, i :: 0 <= n < |ws| && 0 <= i < |ws[n].chunks| && env.createOk(ws[n].docId, i) ==>
      Cursor(env, ws, n, i) < |AllChunks(ws, |ws|)|
      && AllChunks(ws, |ws|)[Cursor(env, ws, n, i)] == ws[n].chunks[i]
  }

  lemma CursorInRange(env: Env, ws: seq<Work>, n: nat, i: nat)
    requires n < |ws| && i < |ws[n].chunks|
    ensures Cursor(env, ws, n, i) < |AllChunks(ws, |ws|)|
  {
    CursorLags(env, ws, n, i);
    ChunkPlace(ws, n, |ws|);
  }

  /** A chunk stored after k failed inserts gets the embedding of the chunk k
      positions earlier in the batch. */
  lemma VectorOfChunk(env: Env, ws: seq<Work>, id: nat, e: string -> Vector, n: nat, i: nat)
    requires n < |ws| && i < |ws[n].chunks| && env.createOk(ws[n].docId, i) && forall t :: e(t) != []
    ensures var all, at := AllChunks(ws, |ws|), |AllChunks(ws, n)| + i;
            var k := FailedBefore(env, ws, n, i);
            k <= at < |all| && all[at] == ws[n].chunks[i]
            && exists r :: r in BatchRecords(env, ws, |ws|, id, EmbedAll(e, all))
                 && r.docId == ws[n].docId && r.chunkIndex == i && r.content == all[at] && r.embedding == e(all[at - k])
  {
    hide BatchRecords, NewRows, Created, AllChunks;
    var all := AllChunks(ws, |ws|);
    CursorLags(env, ws, n, i);
    ChunkPlace(ws, n, |ws|);
    assert ws[n].chunks[i] == all[|AllChunks(ws, n)| + i];
    BatchRecordAt(env, ws, |ws|, id, EmbedAll(e, all), n, i);
    var r := ChunkRecord(env, ws, id, EmbedAll(e, all), n, i);
    assert r in BatchRecords(env, ws, |ws|, id, EmbedAll(e, all));
  }

  lemma ShiftSuffices(env: Env, ws: seq<Work>, id: nat, e: string -> Vector)
    requires ShiftHarmless(env, ws)
    ensures Aligned(BatchRecords(env, ws, |ws|, id, EmbedAll(e, AllChunks(ws, |ws|))), e)
  {
    hide BatchRecords, NewRows, Created, AllChunks, Cursor;
    var all := AllChunks(ws, |ws|);
    forall r | r in BatchRecords(env, ws, |ws|, id, EmbedAll(e, all)) ensures r.embedding == e(r.content) {
      var n, i := BatchRecordFrom(env, ws, |ws|, id, EmbedAll(e, all), r);
      assert all[Cursor(env, ws, n, i)] == ws[n].chunks[i];
    }
  }

  /** One embedder is enough to expose a harmful shift. */
  lemma ShiftNecessary(env: Env, ws: seq<Work>, id: nat, n: nat, i: nat) returns (e: string -> Vector)
    requires n < |ws| && i < |ws[n].chunks| && env.createOk(ws[n].docId, i)
    requires Cursor(env, ws, n, i) < |AllChunks(ws, |ws|)|
    requires AllChunks(ws, |ws|)[Cursor(env, ws, n, i)] != ws[n].chunks[i]
    ensures !Aligned(BatchRecords(env, ws, |ws|, id, EmbedAll(e, AllChunks(ws, |ws|))), e)
  {
    hide BatchRecords, NewRows, Created, AllChunks, Cursor;
    var all := AllChunks(ws, |ws|);
    var wrong := all[Cursor(env, ws, n, i)];
    e := t => if t == wrong then [1.0] else [0.0];
    BatchRecordAt(env, ws, |ws|, id, EmbedAll(e, all), n, i);
    var r := ChunkRecord(env, ws, id, EmbedAll(e, all), n, i);
    assert r.embedding == [1.0] && e(r.content) == [0.0];
    assert [1.0][0] != [0.0][0];
  }

  /** Whatever the embedder, every record carries the embedding of its own
      content, if and only if the failed inserts shift no chunk onto a
      different one. */
  lemma AlignedExactly(env: Env, ws: seq<Work>, id: nat)
    ensures (forall e: string -> Vector ::
               Aligned(BatchRecords(env, ws, |ws|, id, EmbedAll(e, AllChunks(ws, |ws|))), e))
       <==> ShiftHarmless(env, ws)
  {
    if ShiftHarmless(env, ws) {
      forall e: string -> Vector
        ensures Aligned(BatchRecords(env, ws, |ws|, id, EmbedAll(e, AllChunks(ws, |ws|))), e)
      {
        ShiftSuffices(env, ws, id, e);
      }
    } else {
      var e := HarmfulRecords(env, ws, id);
    }
  }

  /** No failed insert, no shift. */
  lemma NoFailureNoShift(env: Env, ws: seq<Work>)
    requires AllCreated(env)
    ensures ShiftHarmless(env, ws)
  {
    hide NewRows, Created, AllChunks;
    forall n, i | 0 <= n < |ws| && 0 <= i < |ws[n].chunks|
      ensures Cursor(env, ws, n, i) < |AllChunks(ws, |ws|)|
              && AllChunks(ws, |ws|)[Cursor(env, ws, n, i)] == ws[n].chunks[i]
    {
      CreatedAll(env, ws[n], i, 0);
      NewRowsCount(env, ws, n, 0);
      ChunkPlace(ws, n, |ws|);
      assert ws[n].chunks[i] == AllChunks(ws, |ws|)[|AllChunks(ws, n)| + i];
    }
  }

  // ----- the stored vectors -----

  /** The same environment with an embedder that works text by text. */
  function WithEmbedder(env: Env, e: string -> Vector): Env {
    env.(embedder := (ts: seq<string>) => Some(EmbedAll(e, ts)))
  }

  lemma {:induction false} CreatedSame(env: Env, e: string -> Vector, w: Work, n: nat, id: nat)
    requires n <= |w.chunks|
    ensures Created(WithEmbedder(env, e), w, n, id) == Created(env, w, n, id)
  {
    if n > 0 { CreatedSame(env, e, w, n - 1, id); }
  }

  lemma {:induction false} NewRowsSame(env: Env, e: string -> Vector, ws: seq<Work>, n: nat, id: nat)
    requires n <= |ws|
    ensures NewRows(WithEmbedder(env, e), ws, n, id) == NewRows(env, ws, n, id)
  {
    if n > 0 {
      NewRowsSame(env, e, ws, n - 1, id);
      CreatedSame(env, e, ws[n-1], |ws[n-1].chunks|, id + |NewRows(env, ws, n - 1, id)|);
    }
  }

  lemma {:induction false} BatchRecordsSame(env: Env, e: string -> Vector, ws: seq<Work>, n: nat, id: nat,
                                            embeddings: seq<Vector>)
    requires n <= |ws|
    ensures BatchRecords(WithEmbedder(env, e), ws, n, id, embeddings) == BatchRecords(env, ws, n, id, embeddings)
  {
    hide Records, Created, NewRows;
    if n > 0 {
      BatchRecordsSame(env, e, ws, n - 1, id, embeddings);
      NewRowsSame(env, e, ws, n - 1, id);
      CreatedSame(env, e, ws[n-1], |ws[n-1].chunks|, id + |NewRows(env, ws, n - 1, id)|);
    }
  }

  /** What a batch leaves in the store. */
  lemma BatchStores(env: Env, s: State, ws: seq<Work>, e: string -> Vector)
    requires env.hasStore && Distinct(ws)
    ensures var records := BatchRecords(env, ws, |ws|, s.nextId, EmbedAll(e, AllChunks(ws, |ws|)));
            IndexBatch(WithEmbedder(env, e), s, ws).vectors == WithoutDocs(s.vectors, DocIds(records)) + records
  {
    hide BatchUpTo, BatchRecords, NewRows, Embedded, AllChunks, Upserted, Without, Keys;
    var env', all := WithEmbedder(env, e), AllChunks(ws, |ws|);
    EmbeddedIs(env', all, e);
    BatchClosed(env', s, ws, Embedded(env', all), |ws|);
    BatchRecordsSame(env, e, ws, |ws|, s.nextId, EmbedAll(e, all));
    BatchVectors(s, BatchRecords(env, ws, |ws|, s.nextId, EmbedAll(e, all)));
  }

  lemma {:induction false} KeptMember(rs: seq<VectorRecord>, gone: set<nat>, r: VectorRecord)
    requires r in WithoutDocs(rs, gone)
    ensures r in rs
  {
    var front := rs[..|rs|-1];
    if r in WithoutDocs(front, gone) { KeptMember(front, gone, r); }
  }

  /** Keeping some of an aligned store and adding records. */
  lemma KeptAligned(rs: seq<VectorRecord>, gone: set<nat>, added: seq<VectorRecord>, e: string -> Vector)
    requires Aligned(rs, e)
    ensures Aligned(WithoutDocs(rs, gone) + added, e) <==> Aligned(added, e)
  {
    forall r | r in WithoutDocs(rs, gone) ensures r.embedding == e(r.content) { KeptMember(rs, gone, r); }
    forall r | r in added ensures r in WithoutDocs(rs, gone) + added {}
  }

  /** Some embedder and store without vectors show a harmful shift. */
  lemma HarmfulRecords(env: Env, ws: seq<Work>, id: nat) returns (e: string -> Vector)
    requires !ShiftHarmless(env, ws)
    ensures !Aligned(BatchRecords(env, ws, |ws|, id, EmbedAll(e, AllChunks(ws, |ws|))), e)
  {
    hide BatchRecords, AllChunks, Cursor, Aligned;
    var n, i :| 0 <= n < |ws| && 0 <= i < |ws[n].chunks| && env.createOk(ws[n].docId, i)
      && !(Cursor(env, ws, n, i) < |AllChunks(ws, |ws|)|
           && AllChunks(ws, |ws|)[Cursor(env, ws, n, i)] == ws[n].chunks[i]);
    CursorInRange(env, ws, n, i);
    e := ShiftNecessary(env, ws, id, n, i);
  }

  /** For every embedder, a batch turns an aligned store into an aligned store, if and
      only if its failed inserts shift no chunk onto a different one. */
  lemma BatchStoreAlignedExactly(env: Env, ws: seq<Work>)
    requires env.hasStore && Distinct(ws)
    ensures (forall e: string -> Vector, s: State ::
               Aligned(s.vectors, e) ==> Aligned(IndexBatch(WithEmbedder(env, e), s, ws).vectors, e))
       <==> ShiftHarmless(env, ws)
  {
    hide IndexBatch, BatchRecords, AllChunks, Aligned, WithEmbedder, ShiftHarmless;
    if ShiftHarmless(env, ws) {
      forall e: string -> Vector, s: State | Aligned(s.vectors, e)
        ensures Aligned(IndexBatch(WithEmbedder(env, e), s, ws).vectors, e)
      {
        BatchStores(env, s, ws, e);
        ShiftSuffices(env, ws, s.nextId, e);
        var records := BatchRecords(env, ws, |ws|, s.nextId, EmbedAll(e, AllChunks(ws, |ws|)));
        KeptAligned(s.vectors, DocIds(records), records, e);
      }
    } else {
      var s := State([], 0, map[], []);
      var e := HarmfulRecords(env, ws, 0);
      NothingStored(e);
      BatchStores(env, s, ws, e);
      var records := BatchRecords(env, ws, |ws|, 0, EmbedAll(e, AllChunks(ws, |ws|)));
      KeptAligned([], DocIds(records), records, e);
    }
  }

  lemma NothingStored(e: string -> Vector)
    ensures Aligned([], e)
  {}

  /** One document alone makes the records of a batch of one. */
  lemma OneStores(env: Env, s: State, w: Work, e: string -> Vector) returns (gone: set<nat>)
    requires env.hasStore
    ensures IndexOne(WithEmbedder(env, e), s, w).vectors
         == WithoutDocs(s.vectors, gone) + BatchRecords(env, [w], 1, s.nextId, EmbedAll(e, AllChunks([w], 1)))
  {
    hide Records, Created, Upserted, IndexOne, Embedded, Without;
    var env' := WithEmbedder(env, e);
    gone := if w.chunks == [] then {} else {w.docId};
    BatchOfOne(env, w, s.nextId, EmbedAll(e, AllChunks([w], 1)));
    CreatedSame(env, e, w, |w.chunks|, s.nextId);
    EmbeddedIs(env', w.chunks, e);
    if w.chunks == [] {
      IndexOneBlank(env', s, w);
      WithoutNone(s.vectors, DOC_OF, {});
      assert s.vectors + [] == s.vectors;
    } else {
      IndexOneActive(env', s, w);
    }
  }

  lemma BatchOfOne(env: Env, w: Work, id: nat, embeddings: seq<Vector>)
    ensures AllChunks([w], 1) == w.chunks
    ensures BatchRecords(env, [w], 1, id, embeddings)
         == Records(Created(env, w, |w.chunks|, id), embeddings, 0, |Created(env, w, |w.chunks|, id)|)
  {
    hide Records, Created;
    assert AllChunks([w], 0) == [] && NewRows(env, [w], 0, id) == [];
    assert BatchRecords(env, [w], 0, id, embeddings) == [];
  }

  /** The same for indexing one document: failed inserts shift there as well. */
  lemma DocumentStoreAlignedExactly(env: Env, w: Work)
    requires env.hasStore
    ensures (forall e: string -> Vector, s: State ::
               Aligned(s.vectors, e) ==> Aligned(IndexOne(WithEmbedder(env, e), s, w).vectors, e))
       <==> ShiftHarmless(env, [w])
  {
    hide IndexOne, BatchRecords, AllChunks, Aligned, WithEmbedder, ShiftHarmless;
    if ShiftHarmless(env, [w]) {
      forall e: string -> Vector, s: State | Aligned(s.vectors, e)
        ensures Aligned(IndexOne(WithEmbedder(env, e), s, w).vectors, e)
      {
        var gone := OneStores(env, s, w, e);
        ShiftSuffices(env, [w], s.nextId, e);
        KeptAligned(s.vectors, gone, BatchRecords(env, [w], 1, s.nextId, EmbedAll(e, AllChunks([w], 1))), e);
      }
    } else {
      var s := State([], 0, map[], []);
      var e := HarmfulRecords(env, [w], 0);
      NothingStored(e);
      var gone := OneStores(env, s, w, e);
      KeptAligned([], gone, BatchRecords(env, [w], 1, 0, EmbedAll(e, AllChunks([w], 1))), e);
    }
  }
}
