/** Batch indexing against indexing one document after another. */
module BatchRefinement {
  import opened Filtering
  import opened Indexing
  import opened Text
  import opened Vectors
  import opened VectorStore

  // ----- closed forms of the two ways, for distinct documents -----

  predicate Distinct(ws: seq<Work>) {
    forall i, j :: 0 <= i < j < |ws| ==> ws[i].docId != ws[j].docId
  }

  function Ids(ws: seq<Work>, n: nat): set<nat>
    requires n <= |ws|
  {
    set i | 0 <= i < n :: ws[i].docId
  }

  /** The documents that have chunks. */
  function ActiveIds(ws: seq<Work>, n: nat): set<nat>
    requires n <= |ws|
  {
    set i | 0 <= i < n && ws[i].chunks != [] :: ws[i].docId
  }

  function NewRows(env: Env, ws: seq<Work>, n: nat, id: nat): seq<ChunkRow>
    requires n <= |ws|
  {
    if n == 0 then []
    else
      var before := NewRows(env, ws, n - 1, id);
      before + Created(env, ws[n-1], |ws[n-1].chunks|, id + |before|)
  }

  /** The records of the batch: one cursor runs through all embeddings. */
  function BatchRecords(env: Env, ws: seq<Work>, n: nat, id: nat, embeddings: seq<Vector>): seq<VectorRecord>
    requires n <= |ws|
  {
    if n == 0 then []
    else
      var at := |NewRows(env, ws, n - 1, id)|;
      var created := Created(env, ws[n-1], |ws[n-1].chunks|, id + at);
      BatchRecords(env, ws, n - 1, id, embeddings) + Records(created, embeddings, at, |created|)
  }

  /** The records of the loop: every document has its own embeddings. */
  function LoopRecords(env: Env, ws: seq<Work>, n: nat, id: nat): seq<VectorRecord>
    requires n <= |ws|
  {
    if n == 0 then []
    else
      var created := Created(env, ws[n-1], |ws[n-1].chunks|, id + |NewRows(env, ws, n - 1, id)|);
      LoopRecords(env, ws, n - 1, id) + Records(created, Embedded(env, ws[n-1].chunks), 0, |created|)
  }

  function DocsAfter(env: Env, docs: map<nat, DocState>, ws: seq<Work>, n: nat): map<nat, DocState>
    requires n <= |ws|
  {
    if n == 0 then docs else Saved(env, DocsAfter(env, docs, ws, n - 1), ws[n-1].docId, |ws[n-1].chunks|)
  }

  // ----- facts about one document -----

  lemma IdsStep(ws: seq<Work>, n: nat)
    requires 0 < n <= |ws|
    ensures Ids(ws, n) == Ids(ws, n - 1) + {ws[n-1].docId}
    ensures ActiveIds(ws, n)
         == if ws[n-1].chunks == [] then ActiveIds(ws, n - 1) else ActiveIds(ws, n - 1) + {ws[n-1].docId}
    ensures ActiveIds(ws, n) <= Ids(ws, n)
    ensures Distinct(ws) ==> ws[n-1].docId !in Ids(ws, n - 1)
  {}

  lemma {:induction false} CreatedIds(env: Env, w: Work, n: nat, id: nat)
    requires n <= |w.chunks|
    ensures Keys(Created(env, w, n, id), ROW_DOC) <= {w.docId}
  {
    if n > 0 { CreatedIds(env, w, n - 1, id); }
  }

  lemma {:induction false} NewRowsIds(env: Env, ws: seq<Work>, n: nat, id: nat)
    requires n <= |ws|
    ensures Keys(NewRows(env, ws, n, id), ROW_DOC) <= Ids(ws, n)
  {
    if n > 0 {
      var before := NewRows(env, ws, n - 1, id);
      NewRowsIds(env, ws, n - 1, id);
      CreatedIds(env, ws[n-1], |ws[n-1].chunks|, id + |before|);
      KeysConcat(before, Created(env, ws[n-1], |ws[n-1].chunks|, id + |before|), ROW_DOC);
      IdsStep(ws, n);
    }
  }

  lemma {:induction false} RecordsIds(rows: seq<ChunkRow>, embeddings: seq<Vector>, offset: nat, n: nat)
    requires n <= |rows|
    ensures DocIds(Records(rows, embeddings, offset, n)) <= Keys(rows, ROW_DOC)
  {
    if n > 0 {
      RecordsIds(rows, embeddings, offset, n - 1);
      var at := offset + n - 1;
      var last := if at < |embeddings| && embeddings[at] != [] then [RecordOf(rows[n-1], embeddings[at])] else [];
      KeysConcat(Records(rows, embeddings, offset, n - 1), last, DOC_OF);
      assert rows[n-1].docId in Keys(rows, ROW_DOC);
    }
  }

  lemma WorkRecordsIds(env: Env, w: Work, id: nat, embeddings: seq<Vector>, offset: nat)
    ensures var created := Created(env, w, |w.chunks|, id);
            DocIds(Records(created, embeddings, offset, |created|)) <= (if w.chunks == [] then {} else {w.docId})
  {
    var created := Created(env, w, |w.chunks|, id);
    CreatedIds(env, w, |w.chunks|, id);
    RecordsIds(created, embeddings, offset, |created|);
  }

  lemma {:induction false} LoopRecordsIds(env: Env, ws: seq<Work>, n: nat, id: nat)
    requires n <= |ws|
    ensures DocIds(LoopRecords(env, ws, n, id)) <= ActiveIds(ws, n)
  {
    if n > 0 {
      LoopRecordsIds(env, ws, n - 1, id);
      IdsStep(ws, n);
      var at := id + |NewRows(env, ws, n - 1, id)|;
      var created := Created(env, ws[n-1], |ws[n-1].chunks|, at);
      WorkRecordsIds(env, ws[n-1], at, Embedded(env, ws[n-1].chunks), 0);
      var own := Records(created, Embedded(env, ws[n-1].chunks), 0, |created|);
      KeysConcat(LoopRecords(env, ws, n - 1, id), own, DOC_OF);
    }
  }

  /** Cleaning up one document leaves what was written for the others alone. */
  lemma CleanOne<T>(prior: seq<T>, added: seq<T>, key: T -> nat, gone: set<nat>, doc: nat)
    requires doc !in Keys(added, key)
    ensures Without(Without(prior, key, gone) + added, key, {doc}) == Without(prior, key, gone + {doc}) + added
  {
    WithoutConcat(Without(prior, key, gone), added, key, {doc});
    WithoutTwice(prior, key, gone, {doc});
    WithoutNone(added, key, {doc});
  }

  // ----- the closed forms hold -----

  function OldRows(env: Env, s: State, gone: set<nat>): seq<ChunkRow> {
    if env.pg then RowsWithout(s.rows, gone) else s.rows
  }

  function OldVectors(env: Env, s: State, gone: set<nat>): seq<VectorRecord> {
    if env.hasStore then WithoutDocs(s.vectors, gone) else s.vectors
  }

  lemma OldNothing(env: Env, s: State, gone: set<nat>)
    requires gone == {}
    ensures OldRows(env, s, gone) == s.rows && OldVectors(env, s, gone) == s.vectors
  {
    WithoutNone(s.rows, ROW_DOC, gone);
    WithoutNone(s.vectors, DOC_OF, gone);
  }

  ghost predicate BatchIs(env: Env, s: State, ws: seq<Work>, embeddings: seq<Vector>, n: nat, b: Batch)
    requires n <= |ws|
  {
    var added := NewRows(env, ws, n, s.nextId);
    b == Batch(OldRows(env, s, Ids(ws, n)) + added, s.nextId + |added|, DocsAfter(env, s.docs, ws, n),
               BatchRecords(env, ws, n, s.nextId, embeddings), |added|)
  }

  lemma BatchStep(env: Env, s: State, ws: seq<Work>, embeddings: seq<Vector>, n: nat, b: Batch)
    requires 0 < n <= |ws| && Distinct(ws) && BatchIs(env, s, ws, embeddings, n - 1, b)
    ensures BatchIs(env, s, ws, embeddings, n, BatchOne(env, b, ws[n-1], embeddings))
  {
    hide Without, Keys, Records, Created, Ids, Embedded;
    var w, before := ws[n-1], NewRows(env, ws, n - 1, s.nextId);
    IdsStep(ws, n);
    NewRowsIds(env, ws, n - 1, s.nextId);
    CleanOne(s.rows, before, ROW_DOC, Ids(ws, n - 1), w.docId);
    ConcatAssoc(OldRows(env, s, Ids(ws, n)), before, Created(env, w, |w.chunks|, b.nextId));
  }

  lemma {:induction false} BatchClosed(env: Env, s: State, ws: seq<Work>, embeddings: seq<Vector>, n: nat)
    requires n <= |ws| && Distinct(ws)
    ensures BatchIs(env, s, ws, embeddings, n, BatchUpTo(env, s, ws, embeddings, n))
  {
    if n == 0 {
      OldNothing(env, s, Ids(ws, 0));
    } else {
      BatchClosed(env, s, ws, embeddings, n - 1);
      BatchStep(env, s, ws, embeddings, n, BatchUpTo(env, s, ws, embeddings, n - 1));
    }
  }

  ghost predicate LoopIs(env: Env, s: State, ws: seq<Work>, n: nat, t: State)
    requires n <= |ws|
  {
    var added := NewRows(env, ws, n, s.nextId);
    t == State(OldRows(env, s, ActiveIds(ws, n)) + added, s.nextId + |added|, DocsAfter(env, s.docs, ws, n),
               OldVectors(env, s, ActiveIds(ws, n)) + LoopRecords(env, ws, n, s.nextId))
  }

  lemma IndexOneBlank(env: Env, t: State, w: Work)
    requires w.chunks == []
    ensures var created := Created(env, w, |w.chunks|, t.nextId);
            created == [] && Records(created, Embedded(env, w.chunks), 0, |created|) == []
            && IndexOne(env, t, w) == t.(docs := Saved(env, t.docs, w.docId, |w.chunks|))
  {}

  lemma IndexOneActive(env: Env, t: State, w: Work)
    requires w.chunks != []
    ensures var created := Created(env, w, |w.chunks|, t.nextId);
            IndexOne(env, t, w) ==
            State(OldRows(env, t, {w.docId}) + created, t.nextId + |created|, Saved(env, t.docs, w.docId, |w.chunks|),
                  OldVectors(env, t, {w.docId}) + Records(created, Embedded(env, w.chunks), 0, |created|))
  {
    hide Created, Records, Without, RowsWithout;
    var created := Created(env, w, |w.chunks|, t.nextId);
    var records := Records(created, Embedded(env, w.chunks), 0, |created|);
    WorkRecordsIds(env, w, t.nextId, Embedded(env, w.chunks), 0);
    if !env.hasStore {
      NoEmbeddingsNoRecords(created, 0, |created|);
    } else if records != [] {
      assert DOC_OF(records[0]) in DocIds(records);
      assert DocIds(records) == {w.docId};
      WithoutTwice(t.vectors, DOC_OF, {w.docId}, {w.docId});
      assert {w.docId} + {w.docId} == {w.docId};
    }
  }

  lemma LoopStep(env: Env, s: State, ws: seq<Work>, n: nat, t: State)
    requires 0 < n <= |ws| && Distinct(ws) && LoopIs(env, s, ws, n - 1, t)
    ensures LoopIs(env, s, ws, n, IndexOne(env, t, ws[n-1]))
  {
    hide Without, Keys, Records, Created, Ids, ActiveIds, Embedded, IndexOne;
    var w, before, written := ws[n-1], NewRows(env, ws, n - 1, s.nextId), LoopRecords(env, ws, n - 1, s.nextId);
    var created := Created(env, w, |w.chunks|, t.nextId);
    IdsStep(ws, n);
    if w.chunks == [] {
      IndexOneBlank(env, t, w);
      assert before + created == before;
      assert written + Records(created, Embedded(env, w.chunks), 0, |created|) == written;
    } else {
      IndexOneActive(env, t, w);
      NewRowsIds(env, ws, n - 1, s.nextId);
      CleanOne(s.rows, before, ROW_DOC, ActiveIds(ws, n - 1), w.docId);
      ConcatAssoc(OldRows(env, s, ActiveIds(ws, n)), before, created);
      LoopRecordsIds(env, ws, n - 1, s.nextId);
      IdsSubset(ws, n - 1);
      CleanOne(s.vectors, written, DOC_OF, ActiveIds(ws, n - 1), w.docId);
      var own := Records(created, Embedded(env, w.chunks), 0, |created|);
      ConcatAssoc(OldVectors(env, s, ActiveIds(ws, n)), written, own);
    }
  }

  lemma IdsSubset(ws: seq<Work>, n: nat)
    requires n <= |ws|
    ensures ActiveIds(ws, n) <= Ids(ws, n)
  {}

  lemma {:induction false} LoopClosed(env: Env, s: State, ws: seq<Work>, n: nat)
    requires n <= |ws| && Distinct(ws)
    ensures LoopIs(env, s, ws, n, IndexEach(env, s, ws, n))
  {
    if n == 0 {
      OldNothing(env, s, ActiveIds(ws, 0));
    } else {
      LoopClosed(env, s, ws, n - 1);
      LoopStep(env, s, ws, n, IndexEach(env, s, ws, n - 1));
    }
  }
}
