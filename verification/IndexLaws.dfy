/** What indexing leaves behind, field by field: every new vector belongs to a row
    that was inserted for its document, and search finds it where it should. */
module IndexLaws {
  import opened BatchRefinement
  import opened BatchTheorems
  import opened Chunking
  import opened Filtering
  import opened Indexing
  import opened Vectors
  import opened VectorStore

  // ----- membership -----

  lemma {:induction false} WithoutMember<T>(s: seq<T>, key: T -> nat, gone: set<nat>, x: T)
    ensures x in Without(s, key, gone) <==> x in s && key(x) !in gone
  {
    if s != [] {
      var front, last := s[..|s|-1], s[|s|-1];
      WithoutMember(front, key, gone, x);
      assert s == front + [last];
    }
  }

  lemma {:induction false} CreatedInRange(env: Env, w: Work, n: nat, id: nat, row: ChunkRow)
    requires n <= |w.chunks| && row in Created(env, w, n, id)
    ensures id <= row.id < id + |Created(env, w, n, id)|
    ensures row.kbId == w.kbId && row.docId == w.docId && row.index < n && row.content == w.chunks[row.index]
    ensures env.createOk(w.docId, row.index)
  {
    if row in Created(env, w, n - 1, id) { CreatedInRange(env, w, n - 1, id, row); }
  }

  lemma CreatedHas(env: Env, w: Work, n: nat, id: nat, i: nat)
    requires i < n <= |w.chunks| && env.createOk(w.docId, i)
    ensures exists row :: row in Created(env, w, n, id) && row.index == i && row.kbId == w.kbId
                          && row.docId == w.docId && row.content == w.chunks[i]
  {
    CreatedRow(env, w, n, id, i);
    assert Created(env, w, n, id)[|Created(env, w, i, id)|] in Created(env, w, n, id);
  }

  // ----- one document -----

  /** A vector and a row speak of the same chunk. */
  predicate Matching(v: VectorRecord, row: ChunkRow) {
    v.chunkId == row.id && v.docId == row.docId && v.kbId == row.kbId && v.chunkIndex == row.index
    && v.content == row.content
  }

  lemma RecordMatches(rows: seq<ChunkRow>, embeddings: seq<Vector>, offset: nat, v: VectorRecord)
      returns (row: ChunkRow)
    requires v in Records(rows, embeddings, offset, |rows|)
    ensures row in rows && Matching(v, row)
  {
    var j := RecordFrom(rows, embeddings, offset, |rows|, v);
    row := rows[j];
  }

  lemma OneVectors(env: Env, s: State, w: Work, v: VectorRecord)
    requires v in IndexOne(env, s, w).vectors && v !in s.vectors
    ensures env.hasStore && w.chunks != []
    ensures var created := Created(env, w, |w.chunks|, s.nextId);
            v in Records(created, Embedded(env, w.chunks), 0, |created|)
            && IndexOne(env, s, w).rows == OldRows(env, s, {w.docId}) + created
  {
    hide Created, Records, Embedded, Without, IndexOne;
    var created := Created(env, w, |w.chunks|, s.nextId);
    if w.chunks == [] {
      IndexOneBlank(env, s, w);
    } else {
      IndexOneActive(env, s, w);
      WithoutMember(s.vectors, DOC_OF, {w.docId}, v);
      if !env.hasStore {
        EmbeddedNothing(env, w.chunks);
        NoEmbeddingsNoRecords(created, 0, |created|);
      }
    }
  }

  /** Every vector that indexing a document adds has a row inserted for it in the final
      table, with the same chunk id, document, knowledge base, index and content, which
      are those of the document and its chunk. */
  lemma NewVectorHasRow(env: Env, s: State, w: Work, v: VectorRecord) returns (row: ChunkRow)
    requires v in IndexOne(env, s, w).vectors && v !in s.vectors
    ensures row in IndexOne(env, s, w).rows && row.id >= s.nextId && Matching(v, row)
    ensures v.docId == w.docId && v.kbId == w.kbId && v.embedding != []
    ensures v.chunkIndex < |w.chunks| && v.content == w.chunks[v.chunkIndex]
  {
    hide Created, Records, Embedded, IndexOne, Matching;
    OneVectors(env, s, w, v);
    var created := Created(env, w, |w.chunks|, s.nextId);
    row := RecordMatches(created, Embedded(env, w.chunks), 0, v);
    CreatedInRange(env, w, |w.chunks|, s.nextId, row);
    MatchingFields(v, row);
    var j := RecordFrom(created, Embedded(env, w.chunks), 0, |created|, v);
  }

  lemma MatchingFields(v: VectorRecord, row: ChunkRow)
    requires Matching(v, row)
    ensures v.chunkId == row.id && v.docId == row.docId && v.kbId == row.kbId && v.chunkIndex == row.index
            && v.content == row.content
  {}

  /** After indexing a document with chunks, the rows are those of the other documents,
      one new row for every chunk whose insert succeeds, and, without PostgreSQL,
      the old rows. */
  lemma RowsExactly(env: Env, s: State, w: Work, row: ChunkRow)
    requires w.chunks != []
    ensures var rows := IndexOne(env, s, w).rows;
            var kept := row in s.rows && (row.docId != w.docId || !env.pg);
            (kept ==> row in rows)
            && (row in rows && !kept ==>
                  row.id >= s.nextId && row.docId == w.docId && row.kbId == w.kbId && row.index < |w.chunks|
                  && row.content == w.chunks[row.index] && env.createOk(w.docId, row.index))
            && (forall i :: 0 <= i < |w.chunks| && env.createOk(w.docId, i) ==>
                  exists r :: r in rows && r.id >= s.nextId && r.docId == w.docId && r.kbId == w.kbId
                              && r.index == i && r.content == w.chunks[i])
  {
    hide Created, Records, Embedded, IndexOne, Without;
    IndexOneActive(env, s, w);
    var created := Created(env, w, |w.chunks|, s.nextId);
    WithoutMember(s.rows, ROW_DOC, {w.docId}, row);
    if row in created { CreatedInRange(env, w, |w.chunks|, s.nextId, row); }
    forall i | 0 <= i < |w.chunks| && env.createOk(w.docId, i)
      ensures exists r :: r in created && r.id >= s.nextId && r.docId == w.docId && r.kbId == w.kbId
                          && r.index == i && r.content == w.chunks[i]
    {
      CreatedHas(env, w, |w.chunks|, s.nextId, i);
      var r :| r in created && r.index == i && r.kbId == w.kbId && r.docId == w.docId && r.content == w.chunks[i];
      CreatedInRange(env, w, |w.chunks|, s.nextId, r);
    }
  }

  /** Indexing leaves the vectors of other documents alone; with a store and chunks, all
      vectors of the document are new afterwards. */
  lemma OldVectorsGone(env: Env, s: State, w: Work, v: VectorRecord)
    ensures v.docId != w.docId ==> (v in IndexOne(env, s, w).vectors <==> v in s.vectors)
    ensures env.hasStore && w.chunks != [] && v.docId == w.docId && v in IndexOne(env, s, w).vectors ==>
              v.chunkId >= s.nextId
    ensures !env.hasStore || w.chunks == [] ==> IndexOne(env, s, w).vectors == s.vectors
  {
    hide Created, Records, Embedded, Without, IndexOne, Matching;
    var created := Created(env, w, |w.chunks|, s.nextId);
    var records := Records(created, Embedded(env, w.chunks), 0, |created|);
    WithoutMember(s.vectors, DOC_OF, {w.docId}, v);
    if w.chunks == [] { IndexOneBlank(env, s, w); } else { IndexOneActive(env, s, w); }
    if !env.hasStore {
      EmbeddedNothing(env, w.chunks);
      NoEmbeddingsNoRecords(created, 0, |created|);
      assert s.vectors + [] == s.vectors;
    }
    if v in records {
      var row := RecordMatches(created, Embedded(env, w.chunks), 0, v);
      CreatedInRange(env, w, |w.chunks|, s.nextId, row);
      MatchingFields(v, row);
    }
  }

  /** The document is ready with as many chunks as it has, unless saving fails; no
      other document's status changes. */
  lemma StatusExactly(env: Env, s: State, w: Work, doc: nat)
    ensures var docs := IndexOne(env, s, w).docs;
            if doc == w.docId && env.saveOk(doc) then doc in docs && docs[doc] == Ready(|w.chunks|)
            else (doc in docs <==> doc in s.docs) && (doc in docs ==> docs[doc] == s.docs[doc])
  {
    hide Created, Records, Embedded, Without;
  }

  // ----- a batch, with repeated documents or without -----

  lemma {:induction false} BatchParts(env: Env, s: State, ws: seq<Work>, embeddings: seq<Vector>, n: nat)
    requires n <= |ws|
    ensures var b, added := BatchUpTo(env, s, ws, embeddings, n), |NewRows(env, ws, n, s.nextId)|;
            b.records == BatchRecords(env, ws, n, s.nextId, embeddings)
            && b.nextId == s.nextId + added && b.offset == added
  {
    hide Created, Records, RowsWithout;
    if n > 0 { BatchParts(env, s, ws, embeddings, n - 1); }
  }

  /** The row of chunk `i` of the n-th document. */
  function RowOf(env: Env, s: State, ws: seq<Work>, n: nat, i: nat): ChunkRow
    requires n < |ws| && i < |ws[n].chunks|
  {
    ChunkRow(s.nextId + Cursor(env, ws, n, i), ws[n].kbId, ws[n].docId, i, ws[n].chunks[i])
  }

  lemma RowWritten(env: Env, s: State, ws: seq<Work>, embeddings: seq<Vector>, n: nat, i: nat)
    requires n < |ws| && i < |ws[n].chunks| && env.createOk(ws[n].docId, i)
    ensures RowOf(env, s, ws, n, i) in BatchUpTo(env, s, ws, embeddings, n + 1).rows
    ensures RowOf(env, s, ws, n, i).id < BatchUpTo(env, s, ws, embeddings, n + 1).nextId
  {
    hide Records, RowsWithout, NewRows;
    var w, id := ws[n], BatchUpTo(env, s, ws, embeddings, n).nextId;
    BatchParts(env, s, ws, embeddings, n);
    SameCount(env, ws, n, s.nextId);
    CreatedCount(env, w, i, id);
    CreatedCount(env, w, i, 0);
    CreatedRow(env, w, |w.chunks|, id, i);
    var created := Created(env, w, |w.chunks|, id);
    assert created[|Created(env, w, i, id)|] in created;
    CreatedInRange(env, w, |w.chunks|, id, RowOf(env, s, ws, n, i));
  }

  lemma StepRows(env: Env, s: State, ws: seq<Work>, embeddings: seq<Vector>, m: nat, row: ChunkRow)
    requires m < |ws|
    ensures var b := BatchUpTo(env, s, ws, embeddings, m);
            row in BatchUpTo(env, s, ws, embeddings, m + 1).rows <==>
              (row in b.rows && (env.pg ==> row.docId != ws[m].docId))
              || row in Created(env, ws[m], |ws[m].chunks|, b.nextId)
  {
    hide Created, Records, Without;
    WithoutMember(BatchUpTo(env, s, ws, embeddings, m).rows, ROW_DOC, {ws[m].docId}, row);
  }

  lemma {:induction false} IdsGrow(env: Env, s: State, ws: seq<Work>, embeddings: seq<Vector>, n: nat, m: nat)
    requires n <= m <= |ws|
    ensures BatchUpTo(env, s, ws, embeddings, n).nextId <= BatchUpTo(env, s, ws, embeddings, m).nextId
    decreases m
  {
    hide Created, Records, RowsWithout;
    if n < m { IdsGrow(env, s, ws, embeddings, n, m - 1); }
  }

  /** A row stays unless PostgreSQL cleans up for the same document again. */
  lemma {:induction false} RowStaysExactly(env: Env, s: State, ws: seq<Work>, embeddings: seq<Vector>,
                                           n: nat, i: nat, m: nat)
    requires n < m <= |ws| && i < |ws[n].chunks| && env.createOk(ws[n].docId, i)
    ensures RowOf(env, s, ws, n, i) in BatchUpTo(env, s, ws, embeddings, m).rows <==>
            (env.pg ==> forall t :: n < t < m ==> ws[t].docId != ws[n].docId)
    decreases m
  {
    hide Created, BatchUpTo, RowOf;
    RowWritten(env, s, ws, embeddings, n, i);
    if n < m - 1 {
      RowStaysExactly(env, s, ws, embeddings, n, i, m - 1);
      var row, b := RowOf(env, s, ws, n, i), BatchUpTo(env, s, ws, embeddings, m - 1);
      StepRows(env, s, ws, embeddings, m - 1, row);
      IdsGrow(env, s, ws, embeddings, n + 1, m - 1);
      RowFields(env, s, ws, n, i);
      if row in Created(env, ws[m-1], |ws[m-1].chunks|, b.nextId) {
        CreatedInRange(env, ws[m-1], |ws[m-1].chunks|, b.nextId, row);
      }
    }
  }

  lemma RowFields(env: Env, s: State, ws: seq<Work>, n: nat, i: nat)
    requires n < |ws| && i < |ws[n].chunks|
    ensures var row := RowOf(env, s, ws, n, i);
            row.docId == ws[n].docId && row.kbId == ws[n].kbId && row.index == i && row.content == ws[n].chunks[i]
            && row.id == s.nextId + Cursor(env, ws, n, i)
  {}

  lemma BatchAdds(env: Env, s: State, ws: seq<Work>, v: VectorRecord)
    ensures var records := BatchRecords(env, ws, |ws|, s.nextId, Embedded(env, AllChunks(ws, |ws|)));
            (v in IndexBatch(env, s, ws).vectors ==> v in s.vectors || v in records)
            && (v in records ==> v in IndexBatch(env, s, ws).vectors)
  {
    hide Created, Records, Embedded, AllChunks, BatchUpTo, BatchRecords, NewRows, Without, Keys;
    var embeddings := Embedded(env, AllChunks(ws, |ws|));
    BatchParts(env, s, ws, embeddings, |ws|);
    var records := BatchRecords(env, ws, |ws|, s.nextId, embeddings);
    WithoutMember(s.vectors, DOC_OF, DocIds(records), v);
  }

  /** Every vector that a batch adds is that of a chunk of one of its documents: it has
      the document's id and knowledge base and the chunk's index and content. Its
      row is in the final table if and only if PostgreSQL did not clean up for the
      same document again, later in the batch. */
  lemma NewVectorOfBatch(env: Env, s: State, ws: seq<Work>, v: VectorRecord) returns (n: nat, i: nat)
    requires v in IndexBatch(env, s, ws).vectors && v !in s.vectors
    ensures n < |ws| && i < |ws[n].chunks| && env.createOk(ws[n].docId, i)
    ensures v.docId == ws[n].docId && v.kbId == ws[n].kbId && v.chunkIndex == i && v.content == ws[n].chunks[i]
    ensures v.chunkId >= s.nextId && v.embedding != []
    ensures ChunkRow(v.chunkId, v.kbId, v.docId, v.chunkIndex, v.content) in IndexBatch(env, s, ws).rows <==>
            (env.pg ==> forall t :: n < t < |ws| ==> ws[t].docId != ws[n].docId)
  {
    hide Created, Records, Embedded, AllChunks, BatchUpTo, BatchRecords, NewRows, Cursor;
    var embeddings := Embedded(env, AllChunks(ws, |ws|));
    BatchAdds(env, s, ws, v);
    n, i := BatchRecordFrom(env, ws, |ws|, s.nextId, embeddings, v);
    RowStaysExactly(env, s, ws, embeddings, n, i, |ws|);
  }

  /** Every inserted chunk whose embedding is not empty is stored. */
  lemma ChunkIsStored(env: Env, s: State, ws: seq<Work>, n: nat, i: nat)
    requires n < |ws| && i < |ws[n].chunks| && env.createOk(ws[n].docId, i)
    requires var embeddings := Embedded(env, AllChunks(ws, |ws|));
             Cursor(env, ws, n, i) < |embeddings| && embeddings[Cursor(env, ws, n, i)] != []
    ensures exists v :: v in IndexBatch(env, s, ws).vectors && v.docId == ws[n].docId && v.kbId == ws[n].kbId
                        && v.chunkIndex == i && v.content == ws[n].chunks[i]
                        && v.embedding == Embedded(env, AllChunks(ws, |ws|))[Cursor(env, ws, n, i)]
  {
    hide Created, Records, Embedded, AllChunks, BatchUpTo, BatchRecords, NewRows, Cursor;
    var embeddings := Embedded(env, AllChunks(ws, |ws|));
    BatchRecordAt(env, ws, |ws|, s.nextId, embeddings, n, i);
    var v := ChunkRecord(env, ws, s.nextId, embeddings, n, i);
    BatchAdds(env, s, ws, v);
  }

  // ----- what search and deletion make of it -----

  /** A vector that a batch adds can be found in the knowledge base of its document and
      in the search over all of them (0), and in no other; it is deleted with that
      knowledge base and with no other; and a hit names its chunk. */
  lemma NewVectorFound(env: Env, s: State, ws: seq<Work>, v: VectorRecord, query: Vector, kb: nat, sqrt: real -> real)
      returns (n: nat, i: nat)
    requires v in IndexBatch(env, s, ws).vectors && v !in s.vectors && IsSquareRoot(sqrt)
    ensures n < |ws| && i < |ws[n].chunks|
    ensures IsCandidate(v, query, kb) <==> (kb == 0 || kb == ws[n].kbId) && |v.embedding| == |query|
    ensures v in WithoutKb(IndexBatch(env, s, ws).vectors, kb) <==> kb != ws[n].kbId
    ensures var hit := Hit(v, query, sqrt);
            hit.docId == ws[n].docId && hit.chunkIndex == i && hit.content == ws[n].chunks[i]
            && hit.chunkId == v.chunkId
  {
    hide IndexBatch, Cosine, Without;
    n, i := NewVectorOfBatch(env, s, ws, v);
    WithoutMember(IndexBatch(env, s, ws).vectors, KB_OF, {kb}, v);
  }

  /** The same for indexing one document. */
  lemma NewVectorOfOneFound(env: Env, s: State, w: Work, v: VectorRecord, query: Vector, kb: nat)
    requires v in IndexOne(env, s, w).vectors && v !in s.vectors
    ensures IsCandidate(v, query, kb) <==> (kb == 0 || kb == w.kbId) && |v.embedding| == |query|
    ensures v in WithoutKb(IndexOne(env, s, w).vectors, kb) <==> kb != w.kbId
  {
    hide IndexOne, Without;
    var row := NewVectorHasRow(env, s, w, v);
    WithoutMember(IndexOne(env, s, w).vectors, KB_OF, {kb}, v);
  }

  /** From a document's content to its vectors: each has the document's id and knowledge
      base and the text of one of its chunks. */
  lemma DocumentVectors(env: Env, s: State, doc: Document, v: VectorRecord)
    requires Terminates(doc.content, env.cfg)
    requires v in IndexOne(env, s, Prepare(env, doc)).vectors && v !in s.vectors
    ensures v.docId == doc.id && v.kbId == doc.kbId && v.content in ChunksOf(doc.content, env.cfg)
  {
    hide IndexOne, ChunksOf;
    var row := NewVectorHasRow(env, s, Prepare(env, doc), v);
  }

  lemma BatchDocumentVectors(env: Env, s: State, docs: seq<Document>, v: VectorRecord) returns (n: nat)
    requires Indexable(env, docs)
    requires v in IndexBatch(env, s, PrepareAll(env, docs)).vectors && v !in s.vectors
    ensures n < |docs| && v.docId == docs[n].id && v.kbId == docs[n].kbId
    ensures v.content in ChunksOf(docs[n].content, env.cfg)
  {
    hide IndexBatch, ChunksOf;
    var i: nat;
    n, i := NewVectorOfBatch(env, s, PrepareAll(env, docs), v);
    PreparedAt(env, docs, n);
  }
}
