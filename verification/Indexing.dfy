/** Storing a document's chunks and their vectors, one document at a time and
    in batches that share one embedding call. */
module Indexing {
  import opened Chunking
  import opened Filtering
  import opened Options
  import opened Text
  import opened Vectors
  import opened VectorStore

  datatype Document = Document(id: nat, kbId: nat, content: string)

  datatype ChunkRow = ChunkRow(id: nat, kbId: nat, docId: nat, index: nat, content: string)

  datatype DocState = Ready(chunkCount: nat)

  /** The environment: which database holds chunk rows, whether a vector store is
      injected, what the embedding service answers, which row inserts succeed, and
      which documents can be saved. */
  datatype Env = Env(cfg: ChunkConfig, pg: bool, hasStore: bool,
                     embedder: seq<string> -> Option<seq<Vector>>,
                     createOk: (nat, nat) -> bool, saveOk: nat -> bool)

  /** What a batch reports for a document. */
  datatype BatchIndexResult = BatchIndexResult(docId: nat, chunkCount: nat, success: bool)

  datatype State = State(rows: seq<ChunkRow>, nextId: nat, docs: map<nat, DocState>, vectors: seq<VectorRecord>)

  /** A document with its chunks: what both ways of indexing work on. */
  datatype Work = Work(docId: nat, kbId: nat, chunks: seq<string>)

  predicate Indexable(env: Env, docs: seq<Document>) {
    forall i :: 0 <= i < |docs| ==> Terminates(docs[i].content, env.cfg)
  }

  function Prepare(env: Env, doc: Document): Work
    requires Terminates(doc.content, env.cfg)
  {
    Work(doc.id, doc.kbId, ChunksOf(doc.content, env.cfg))
  }

  function PrepareAll(env: Env, docs: seq<Document>): (ws: seq<Work>)
    requires Indexable(env, docs)
    ensures |ws| == |docs|
  {
    if docs == [] then [] else PrepareAll(env, docs[..|docs|-1]) + [Prepare(env, docs[|docs|-1])]
  }

  // ----- what indexing means -----

  const ROW_DOC: ChunkRow -> nat := (r: ChunkRow) => r.docId

  function RowsWithout(rows: seq<ChunkRow>, docs: set<nat>): seq<ChunkRow> {
    Without(rows, ROW_DOC, docs)
  }

  /** The rows inserted for the first `n` chunks, numbered from `id`. */
  function Created(env: Env, w: Work, n: nat, id: nat): (r: seq<ChunkRow>)
    requires n <= |w.chunks|
    ensures |r| <= n
  {
    if n == 0 then []
    else
      var before := Created(env, w, n - 1, id);
      if env.createOk(w.docId, n - 1)
      then before + [ChunkRow(id + |before|, w.kbId, w.docId, n - 1, w.chunks[n-1])]
      else before
  }

  function RecordOf(row: ChunkRow, v: Vector): VectorRecord {
    VectorRecord(row.id, row.docId, row.kbId, row.index, row.content, v)
  }

  /** The vector records of the first `n` rows, the row at `j` taking the
      embedding at `offset + j`; rows without an embedding are skipped. */
  function Records(rows: seq<ChunkRow>, embeddings: seq<Vector>, offset: nat, n: nat): seq<VectorRecord>
    requires n <= |rows|
  {
    if n == 0 then []
    else
      var at := offset + n - 1;
      Records(rows, embeddings, offset, n - 1)
      + (if at < |embeddings| && embeddings[at] != [] then [RecordOf(rows[n-1], embeddings[at])] else [])
  }

  function Embedded(env: Env, chunks: seq<string>): seq<Vector> {
    if env.hasStore && chunks != [] && env.embedder(chunks).Some? then env.embedder(chunks).value else []
  }

  function Saved(env: Env, docs: map<nat, DocState>, doc: nat, chunkCount: nat): map<nat, DocState> {
    if env.saveOk(doc) then docs[doc := Ready(chunkCount)] else docs
  }

  ghost function IndexOne(env: Env, s: State, w: Work): State {
    if w.chunks == [] then s.(docs := Saved(env, s.docs, w.docId, 0))
    else
      var rows := if env.pg then RowsWithout(s.rows, {w.docId}) else s.rows;
      var vectors := if env.hasStore then WithoutDocs(s.vectors, {w.docId}) else s.vectors;
      var created := Created(env, w, |w.chunks|, s.nextId);
      var records := Records(created, Embedded(env, w.chunks), 0, |created|);
      State(rows + created, s.nextId + |created|, Saved(env, s.docs, w.docId, |w.chunks|),
            if records == [] then vectors else Upserted(vectors, records))
  }

  /** `IndexDocument` on each of the first `n` documents in turn. */
  ghost function IndexEach(env: Env, s: State, ws: seq<Work>, n: nat): State
    requires n <= |ws|
  {
    if n == 0 then s else IndexOne(env, IndexEach(env, s, ws, n - 1), ws[n-1])
  }

  function AllChunks(ws: seq<Work>, n: nat): seq<string>
    requires n <= |ws|
  {
    if n == 0 then [] else AllChunks(ws, n - 1) + ws[n-1].chunks
  }

  /** The batch after `n` documents: everything but the vectors is written, the
      records wait, and `offset` points into the embeddings. */
  datatype Batch = Batch(rows: seq<ChunkRow>, nextId: nat, docs: map<nat, DocState>,
                         records: seq<VectorRecord>, offset: nat)

  function BatchOne(env: Env, b: Batch, w: Work, embeddings: seq<Vector>): Batch {
    var created := Created(env, w, |w.chunks|, b.nextId);
    Batch((if env.pg then RowsWithout(b.rows, {w.docId}) else b.rows) + created,
          b.nextId + |created|,
          Saved(env, b.docs, w.docId, |w.chunks|),
          b.records + Records(created, embeddings, b.offset, |created|),
          b.offset + |created|)
  }

  function BatchUpTo(env: Env, s: State, ws: seq<Work>, embeddings: seq<Vector>, n: nat): Batch
    requires n <= |ws|
  {
    if n == 0 then Batch(s.rows, s.nextId, s.docs, [], 0)
    else BatchOne(env, BatchUpTo(env, s, ws, embeddings, n - 1), ws[n-1], embeddings)
  }

  function BatchResult(env: Env, s: State, ws: seq<Work>): Batch {
    BatchUpTo(env, s, ws, Embedded(env, AllChunks(ws, |ws|)), |ws|)
  }

  ghost function IndexBatch(env: Env, s: State, ws: seq<Work>): State {
    var b := BatchResult(env, s, ws);
    State(b.rows, b.nextId, b.docs, if b.records == [] then s.vectors else Upserted(s.vectors, b.records))
  }

  function Reported(ws: seq<Work>): (rs: seq<BatchIndexResult>)
    ensures |rs| == |ws|
    ensures forall i :: 0 <= i < |ws| ==> rs[i] == BatchIndexResult(ws[i].docId, |ws[i].chunks|, true)
  {
    seq(|ws|, i requires 0 <= i < |ws| => BatchIndexResult(ws[i].docId, |ws[i].chunks|, true))
  }

  // ----- the service -----

  class RagService {
    const env: Env
    const store: InMemoryVectorStore
    var chunkRows: seq<ChunkRow>
    var nextChunkId: nat
    var docTable: map<nat, DocState>

    constructor (env: Env, store: InMemoryVectorStore)
      ensures this.env == env && this.store == store
      ensures View() == State([], 1, map[], store.records)
    {
      this.env, this.store := env, store;
      chunkRows, nextChunkId, docTable := [], 1, map[];
    }

    ghost function View(): State
      reads this, store
    {
      State(chunkRows, nextChunkId, docTable, store.records)
    }

    /** `Create`: a new row gets the next key, unless the insert fails. */
    method CreateRow(w: Work, index: nat) returns (row: Option<ChunkRow>)
      requires index < |w.chunks|
      modifies this`chunkRows, this`nextChunkId
      ensures row == (if env.createOk(w.docId, index)
                      then Some(ChunkRow(old(nextChunkId), w.kbId, w.docId, index, w.chunks[index])) else None)
      ensures chunkRows == (if row.Some? then old(chunkRows) + [row.value] else old(chunkRows))
      ensures nextChunkId == (if row.Some? then old(nextChunkId) + 1 else old(nextChunkId))
    {
      if !env.createOk(w.docId, index) { return None; }
      row := Some(ChunkRow(nextChunkId, w.kbId, w.docId, index, w.chunks[index]));
      chunkRows := chunkRows + [row.value];
      nextChunkId := nextChunkId + 1;
    }

    method SaveDocument(doc: nat, chunkCount: nat) returns (ok: bool)
      modifies this`docTable
      ensures docTable == Saved(env, old(docTable), doc, chunkCount) && (ok <==> env.saveOk(doc))
    {
      ok := env.saveOk(doc);
      if ok { docTable := docTable[doc := Ready(chunkCount)]; }
    }

    /** One embedding call; a failed call leaves the chunks without vectors. */
    method Embed(chunks: seq<string>) returns (embeddings: seq<Vector>)
      ensures embeddings == Embedded(env, chunks)
    {
      embeddings := [];
      if env.hasStore && |chunks| > 0 {
        var answer := env.embedder(chunks);
        if answer.Some? { embeddings := answer.value; }
      }
    }

    /** Step 4 of `IndexDocument`: the rows that could be inserted. */
    method CreateRows(w: Work) returns (created: seq<ChunkRow>)
      modifies this`chunkRows, this`nextChunkId
      ensures created == Created(env, w, |w.chunks|, old(nextChunkId))
      ensures chunkRows == old(chunkRows) + created && nextChunkId == old(nextChunkId) + |created|
    {
      created := [];
      for i := 0 to |w.chunks|
        invariant created == Created(env, w, i, old(nextChunkId))
        invariant chunkRows == old(chunkRows) + created && nextChunkId == old(nextChunkId) + |created|
      {
        var row := CreateRow(w, i);
        if row.None? { continue; }
        created := created + [row.value];
      }
    }

    /** Step 5 of `IndexDocument`: pairing rows with embeddings. */
    method BuildRecords(rows: seq<ChunkRow>, embeddings: seq<Vector>) returns (records: seq<VectorRecord>)
      ensures records == Records(rows, embeddings, 0, |rows|)
    {
      records := [];
      for i := 0 to |rows|
        invariant records == Records(rows, embeddings, 0, i)
      {
        if i >= |embeddings| || |embeddings[i]| == 0 { continue; }
        records := records + [RecordOf(rows[i], embeddings[i])];
      }
    }

    /** An error is returned when the document cannot be saved, and only then. */
    method IndexDocument(doc: Document) returns (ok: bool)
      requires Terminates(doc.content, env.cfg)
      modifies this, store
      ensures View() == IndexOne(env, old(View()), Prepare(env, doc)) && (ok <==> env.saveOk(doc.id))
    {
      var chunks := ChunkText(doc.content, env.cfg);
      ok := IndexChunks(Work(doc.id, doc.kbId, chunks));
    }

    /** `IndexDocument` after chunking. */
    method IndexChunks(w: Work) returns (ok: bool)
      modifies this, store
      ensures View() == IndexOne(env, old(View()), w) && (ok <==> env.saveOk(w.docId))
    {
      if |w.chunks| == 0 {
        ok := SaveDocument(w.docId, 0);
        return;
      }
      if env.pg { chunkRows := RowsWithout(chunkRows, {w.docId}); }
      if env.hasStore { store.DeleteByDoc(w.docId); }
      var embeddings := Embed(w.chunks);
      var createdChunks := CreateRows(w);
      if env.hasStore && |embeddings| > 0 {
        var records := BuildRecords(createdChunks, embeddings);
        if |records| > 0 { store.UpsertVectors(records); }
      } else {
        NoEmbeddingsNoRecords(createdChunks, 0, |createdChunks|);
      }
      ok := SaveDocument(w.docId, |w.chunks|);
    }

    /** Step 1 of `BatchIndexDocuments`: all chunks, with their documents. */
    method CollectChunks(docs: seq<Document>) returns (ws: seq<Work>, allChunks: seq<string>)
      requires Indexable(env, docs)
      ensures ws == PrepareAll(env, docs) && allChunks == AllChunks(ws, |ws|)
    {
      ws, allChunks := [], [];
      for i := 0 to |docs|
        invariant ws == PrepareAll(env, docs[..i]) && allChunks == AllChunks(ws, |ws|)
      {
        PrepareSnoc(env, docs, i);
        var chunks := ChunkText(docs[i].content, env.cfg);
        AllChunksSnoc(ws, Work(docs[i].id, docs[i].kbId, chunks));
        ws := ws + [Work(docs[i].id, docs[i].kbId, chunks)];
        allChunks := allChunks + chunks;
      }
      assert docs[..|docs|] == docs;
    }

    /** Success is reported for every document, whatever failed. */
    method BatchIndexDocuments(docs: seq<Document>) returns (results: seq<BatchIndexResult>)
      requires Indexable(env, docs)
      modifies this, store
      ensures View() == IndexBatch(env, old(View()), PrepareAll(env, docs))
      ensures results == Reported(PrepareAll(env, docs))
    {
      var ws, allChunks := CollectChunks(docs);
      if |docs| == 0 { return []; }
      var allEmbeddings := Embed(allChunks);
      results := IndexCollected(ws, allEmbeddings);
    }

    /** Steps 3 and 4 of `BatchIndexDocuments`. */
    method IndexCollected(ws: seq<Work>, allEmbeddings: seq<Vector>) returns (results: seq<BatchIndexResult>)
      requires allEmbeddings == Embedded(env, AllChunks(ws, |ws|))
      modifies this, store
      ensures View() == IndexBatch(env, old(View()), ws) && results == Reported(ws)
    {
      hide Created, Records, RowsWithout, Upserted, AllChunks;
      results := [];
      ghost var start := View();
      var embeddingOffset: nat := 0;
      var allRecords: seq<VectorRecord> := [];
      for n := 0 to |ws|
        invariant store.records == start.vectors && results == Reported(ws)[..n]
        invariant Batch(chunkRows, nextChunkId, docTable, allRecords, embeddingOffset)
               == BatchUpTo(env, start, ws, allEmbeddings, n)
      {
        embeddingOffset, allRecords := WriteDocument(ws[n], allEmbeddings, embeddingOffset, allRecords);
        results := results + [BatchIndexResult(ws[n].docId, |ws[n].chunks|, true)];
      }
      if !env.hasStore { BatchWithoutEmbeddings(env, start, ws, |ws|); }
      if env.hasStore && |allRecords| > 0 {
        store.UpsertVectors(allRecords);
      }
    }

    /** One document of the batch: cleanup, rows and records, status. */
    method WriteDocument(w: Work, embeddings: seq<Vector>, offset: nat, records: seq<VectorRecord>)
        returns (offset': nat, records': seq<VectorRecord>)
      requires !env.hasStore ==> embeddings == []
      modifies this
      ensures Batch(chunkRows, nextChunkId, docTable, records', offset')
           == BatchOne(env, old(Batch(chunkRows, nextChunkId, docTable, records, offset)), w, embeddings)
    {
      if env.pg { chunkRows := RowsWithout(chunkRows, {w.docId}); }
      offset', records' := WriteChunks(w, embeddings, offset, records);
      var _ := SaveDocument(w.docId, |w.chunks|);
    }

    /** The inner loop of the batch: each inserted row takes the embedding under
        the running cursor. */
    method WriteChunks(w: Work, embeddings: seq<Vector>, offset: nat, records: seq<VectorRecord>)
        returns (offset': nat, records': seq<VectorRecord>)
      requires !env.hasStore ==> embeddings == []
      modifies this`chunkRows, this`nextChunkId
      ensures var created := Created(env, w, |w.chunks|, old(nextChunkId));
              chunkRows == old(chunkRows) + created && nextChunkId == old(nextChunkId) + |created|
              && offset' == offset + |created|
              && records' == records + Records(created, embeddings, offset, |created|)
    {
      hide Written;
      offset', records' := offset, records;
      ghost var id, rows := nextChunkId, chunkRows;
      NothingWritten(env, w, id, rows, embeddings, offset, records);
      for i := 0 to |w.chunks|
        invariant Written(env, w, i, id, rows, embeddings, offset, records, chunkRows, nextChunkId, offset', records')
      {
        WrittenStep(env, w, i, id, rows, embeddings, offset, records, chunkRows, nextChunkId, offset', records');
        var row := CreateRow(w, i);
        if row.None? { continue; }
        if env.hasStore && offset' < |embeddings| && |embeddings[offset']| > 0 {
          records' := records' + [RecordOf(row.value, embeddings[offset'])];
        }
        offset' := offset' + 1;
      }
      AllWritten(env, w, id, rows, embeddings, offset, records, chunkRows, nextChunkId, offset', records');
    }
  }

  lemma PrepareSnoc(env: Env, docs: seq<Document>, i: nat)
    requires i < |docs| && Indexable(env, docs)
    ensures PrepareAll(env, docs[..i+1]) == PrepareAll(env, docs[..i]) + [Prepare(env, docs[i])]
  {
    assert docs[..i+1][..i] == docs[..i];
  }

  lemma AllChunksSnoc(ws: seq<Work>, w: Work)
    ensures AllChunks(ws + [w], |ws| + 1) == AllChunks(ws, |ws|) + w.chunks
  {
    AllChunksPrefix(ws, ws + [w], |ws|);
  }

  lemma {:induction false} AllChunksPrefix(ws: seq<Work>, more: seq<Work>, n: nat)
    requires n <= |ws| <= |more| && more[..|ws|] == ws
    ensures AllChunks(ws, n) == AllChunks(more, n)
  {
    if n > 0 {
      AllChunksPrefix(ws, more, n - 1);
      assert more[..|ws|][n-1] == more[n-1];
    }
  }

  lemma NoRecordsYet(embeddings: seq<Vector>, offset: nat)
    ensures Records([], embeddings, offset, 0) == []
  {}

  /** What one document of a batch has written after its first `n` chunks. */
  ghost predicate Written(env: Env, w: Work, n: nat, id: nat, rows: seq<ChunkRow>, embeddings: seq<Vector>, offset: nat,
                          records: seq<VectorRecord>, rows': seq<ChunkRow>, id': nat, offset': nat,
                          records': seq<VectorRecord>)
    requires n <= |w.chunks|
  {
    var created := Created(env, w, n, id);
    rows' == rows + created && id' == id + |created| && offset' == offset + |created|
    && records' == records + Records(created, embeddings, offset, |created|)
  }

  lemma NothingWritten(env: Env, w: Work, id: nat, rows: seq<ChunkRow>, embeddings: seq<Vector>, offset: nat,
                       records: seq<VectorRecord>)
    ensures Written(env, w, 0, id, rows, embeddings, offset, records, rows, id, offset, records)
  {
    NoRecordsYet(embeddings, offset);
    assert rows + [] == rows && records + [] == records;
  }

  lemma WrittenStep(env: Env, w: Work, n: nat, id: nat, rows: seq<ChunkRow>, embeddings: seq<Vector>, offset: nat,
                    records: seq<VectorRecord>, rows': seq<ChunkRow>, id': nat, offset': nat,
                    records': seq<VectorRecord>)
    requires n < |w.chunks| && (!env.hasStore ==> embeddings == [])
    requires Written(env, w, n, id, rows, embeddings, offset, records, rows', id', offset', records')
    ensures var row := ChunkRow(id', w.kbId, w.docId, n, w.chunks[n]);
            var next := if env.hasStore && offset' < |embeddings| && |embeddings[offset']| > 0
                        then records' + [RecordOf(row, embeddings[offset'])] else records';
            if env.createOk(w.docId, n)
            then Written(env, w, n + 1, id, rows, embeddings, offset, records,
                         rows' + [row], id' + 1, offset' + 1, next)
            else Written(env, w, n + 1, id, rows, embeddings, offset, records, rows', id', offset', records')
  {
    hide Records;
    if env.createOk(w.docId, n) {
      var created, row := Created(env, w, n, id), ChunkRow(id', w.kbId, w.docId, n, w.chunks[n]);
      RecordsSnoc(created, row, embeddings, offset);
      ConcatAssoc(rows, created, [row]);
      var last := if offset' < |embeddings| && embeddings[offset'] != []
                  then [RecordOf(row, embeddings[offset'])] else [];
      ConcatAssoc(records, Records(created, embeddings, offset, |created|), last);
      assert records' + [] == records';
    }
  }

  lemma AllWritten(env: Env, w: Work, id: nat, rows: seq<ChunkRow>, embeddings: seq<Vector>, offset: nat,
                   records: seq<VectorRecord>, rows': seq<ChunkRow>, id': nat, offset': nat,
                   records': seq<VectorRecord>)
    requires Written(env, w, |w.chunks|, id, rows, embeddings, offset, records, rows', id', offset', records')
    ensures var created := Created(env, w, |w.chunks|, id);
            rows' == rows + created && id' == id + |created| && offset' == offset + |created|
            && records' == records + Records(created, embeddings, offset, |created|)
  {}

  lemma RecordsSnoc(rows: seq<ChunkRow>, row: ChunkRow, embeddings: seq<Vector>, offset: nat)
    ensures var at := offset + |rows|;
            Records(rows + [row], embeddings, offset, |rows| + 1) ==
            Records(rows, embeddings, offset, |rows|)
            + (if at < |embeddings| && embeddings[at] != [] then [RecordOf(row, embeddings[at])] else [])
  {
    RecordsPrefix(rows, rows + [row], embeddings, offset, |rows|);
  }

  lemma {:induction false} NoEmbeddingsNoRecords(rows: seq<ChunkRow>, offset: nat, n: nat)
    requires n <= |rows|
    ensures Records(rows, [], offset, n) == []
  {
    if n > 0 { NoEmbeddingsNoRecords(rows, offset, n - 1); }
  }

  lemma {:induction false} BatchWithoutEmbeddings(env: Env, s: State, ws: seq<Work>, n: nat)
    requires n <= |ws|
    ensures BatchUpTo(env, s, ws, [], n).records == []
  {
    if n > 0 {
      BatchWithoutEmbeddings(env, s, ws, n - 1);
      var b := BatchUpTo(env, s, ws, [], n - 1);
      var created := Created(env, ws[n-1], |ws[n-1].chunks|, b.nextId);
      NoEmbeddingsNoRecords(created, b.offset, |created|);
    }
  }

  lemma {:induction false} RecordsPrefix(rows: seq<ChunkRow>, more: seq<ChunkRow>, embeddings: seq<Vector>,
                                         offset: nat, n: nat)
    requires n <= |rows| <= |more| && forall i :: 0 <= i < |rows| ==> rows[i] == more[i]
    ensures Records(rows, embeddings, offset, n) == Records(more, embeddings, offset, n)
  {
    if n > 0 { RecordsPrefix(rows, more, embeddings, offset, n - 1); }
  }
}
