/** The keyword fallback: score every ready document, keep the positive ones,
    sort them in place, truncate. */
module KeywordSearch {
  import opened Options
  import opened RankFusion
  import opened Sorting

  /** A row of `knowledge_documents` in state ready, `text` standing for what is scored and returned. */
  datatype Row = Row(kbId: nat, title: string, content: string, source: string)

  function Scored(row: Row, score: Row -> real, cut: string -> string): RagDocument {
    RagDocument(row.title, cut(row.content), row.source, score(row), 0)
  }

  predicate Matches(row: Row, kb: nat, score: Row -> real) {
    (kb == 0 || row.kbId == kb) && score(row) > 0.0
  }

  /** The documents that match, in table order. */
  function Matching(rows: seq<Row>, kb: nat, score: Row -> real, cut: string -> string): seq<RagDocument> {
    if rows == [] then []
    else Matching(rows[..|rows|-1], kb, score, cut)
         + if Matches(rows[|rows|-1], kb, score) then [Scored(rows[|rows|-1], score, cut)] else []
  }

  /** Exchanging two elements of the tail rearranges the tail only. */
  lemma SwapInTail(s: seq<RagDocument>, i: nat, j: nat, t: seq<RagDocument>)
    requires i < j < |s| && t == s[i := s[j]][j := s[i]]
    ensures t[..i] == s[..i] && multiset(t[i..]) == multiset(s[i..])
  {
    assert t[i..] == s[i..][0 := s[j]][j - i := s[i]];
  }

  lemma SameWhole(s: seq<RagDocument>, t: seq<RagDocument>, i: nat)
    requires i <= |s| == |t| && s[..i] == t[..i] && multiset(s[i..]) == multiset(t[i..])
    ensures multiset(s) == multiset(t)
  {
    assert s == s[..i] + s[i..] && t == t[..i] + t[i..];
  }

  /** The inner loop: brings the best of the tail to position `i`. */
  method BringBestTo(docs: array<RagDocument>, i: nat)
    requires i < docs.Length
    modifies docs
    ensures docs[..][..i] == old(docs[..])[..i]
    ensures multiset(docs[..][i..]) == multiset(old(docs[..])[i..])
    ensures forall q :: i < q < docs.Length ==> docs[i].score >= docs[q].score
  {
    for j := i + 1 to docs.Length
      invariant docs[..][..i] == old(docs[..])[..i]
      invariant multiset(docs[..][i..]) == multiset(old(docs[..])[i..])
      invariant forall q :: i < q < j ==> docs[i].score >= docs[q].score
    {
      if docs[i].score < docs[j].score {
        ghost var was := docs[..];
        docs[i], docs[j] := docs[j], docs[i];
        SwapInTail(was, i, j, docs[..]);
      }
    }
  }

  /** Nothing in the tail beats anything in front of it, however the tail moves. */
  lemma TailStaysBelow(s: seq<RagDocument>, t: seq<RagDocument>, bound: real)
    requires multiset(s) == multiset(t)
    requires forall q :: 0 <= q < |s| ==> bound >= s[q].score
    ensures forall q :: 0 <= q < |t| ==> bound >= t[q].score
  {
    forall q | 0 <= q < |t| ensures bound >= t[q].score {
      assert t[q] in multiset(t);
      var p :| 0 <= p < |s| && s[p] == t[q];
    }
  }

  /** `sortDocumentsByScore`: exchange sort in place. */
  method SortDocumentsByScore(docs: array<RagDocument>)
    modifies docs
    ensures multiset(docs[..]) == multiset(old(docs[..]))
    ensures Descending(docs[..], DOC_SCORE)
  {
    var i := 0;
    while i < docs.Length - 1
      invariant 0 <= i && (i < docs.Length || i == docs.Length == 0)
      invariant multiset(docs[..]) == multiset(old(docs[..]))
      invariant forall p :: 0 <= p < i ==> Dominates(docs[p].score, docs[p+1..])
    {
      ghost var was := docs[..];
      BringBestTo(docs, i);
      assert docs[..][..i] == docs[..i] && docs[..][i..] == docs[i..];
      SameWhole(docs[..], was, i);
      forall p | 0 <= p < i ensures Dominates(docs[p].score, docs[p+1..]) {
        assert docs[p+1..] == docs[..][p+1..i] + docs[i..];
        assert was[p+1..] == was[p+1..i] + was[i..];
        assert docs[p] == docs[..i][p] == was[p];
        assert docs[..][p+1..i] == docs[..i][p+1..] == was[p+1..i];
        DominatesRearranged(was[p].score, was[p+1..i], was[i..], docs[i..]);
      }
      i := i + 1;
    }
    forall p, q | 0 <= p < q < docs.Length ensures docs[p].score >= docs[q].score {
      if p < i { assert docs[p+1..][q - p - 1] == docs[q]; }
    }
  }

  predicate Dominates(bound: real, s: seq<RagDocument>) {
    forall q :: 0 <= q < |s| ==> bound >= s[q].score
  }

  lemma DominatesRearranged(bound: real, front: seq<RagDocument>, s: seq<RagDocument>, t: seq<RagDocument>)
    requires Dominates(bound, front + s) && multiset(s) == multiset(t)
    ensures Dominates(bound, front + t)
  {
    assert forall q :: 0 <= q < |s| ==> (front + s)[|front| + q] == s[q];
    assert forall q :: 0 <= q < |front| ==> (front + s)[q] == front[q];
    TailStaysBelow(s, t, bound);
  }

  /** The database as the fallback meets it: not configured, failing, or holding
      these ready documents. */
  datatype Database = Missing | Failing | Ready(rows: seq<Row>)

  /** What the fallback may return: None is an error, and otherwise the results and
      the dropped documents are together the matching ones, best first. */
  ghost predicate IsTopMatches(r: Option<seq<RagDocument>>, db: Database, kb: nat, hasKeywords: bool, topK: nat,
                               score: Row -> real, cut: string -> string) {
    if db.Missing? then r == None
    else if !hasKeywords then r == Some([])
    else if db.Failing? then r == None
    else r.Some? && |r.value| <= topK
         && exists dropped :: IsRanking(r.value, dropped, Matching(db.rows, kb, score, cut), topK)
  }

  ghost predicate IsRanking(results: seq<RagDocument>, dropped: seq<RagDocument>, all: seq<RagDocument>, topK: nat) {
    multiset(results + dropped) == multiset(all) && Descending(results + dropped, DOC_SCORE)
    && (dropped != [] ==> |results| == topK)
  }

  method FindMatching(rows: seq<Row>, kb: nat, score: Row -> real, cut: string -> string)
      returns (results: seq<RagDocument>)
    ensures results == Matching(rows, kb, score, cut)
  {
    results := [];
    for i := 0 to |rows|
      invariant results == Matching(rows[..i], kb, score, cut)
    {
      assert rows[..i+1][..i] == rows[..i];
      if (kb == 0 || rows[i].kbId == kb) && score(rows[i]) > 0.0 {
        results := results + [Scored(rows[i], score, cut)];
      }
    }
    assert rows[..|rows|] == rows;
  }

  /** `tfidfSearch`. */
  method TfidfSearch(db: Database, kb: nat, hasKeywords: bool, topK: nat, score: Row -> real, cut: string -> string)
      returns (r: Option<seq<RagDocument>>)
    ensures IsTopMatches(r, db, kb, hasKeywords, topK, score, cut)
  {
    hide Matching, Descending;
    if db.Missing? { return None; }
    if !hasKeywords { return Some([]); }
    if db.Failing? { return None; }
    var results := FindMatching(db.rows, kb, score, cut);
    ghost var all := results;
    var docs := new RagDocument[|results|](i requires 0 <= i < |results| => results[i]);
    assert docs[..] == results;
    SortDocumentsByScore(docs);
    results := docs[..];
    if |results| > topK {
      assert results == results[..topK] + results[topK..];
      assert IsRanking(results[..topK], results[topK..], all, topK);
      results := results[..topK];
    } else {
      assert results + [] == results;
      assert IsRanking(results, [], all, topK);
    }
    return Some(results);
  }

  // ----- what the results are -----

  /** `d` shows one of the documents: of the knowledge base (0 for all), with a positive score. */
  predicate Presents(rows: seq<Row>, kb: nat, score: Row -> real, cut: string -> string, d: RagDocument) {
    exists i :: 0 <= i < |rows| && PresentsRow(rows[i], kb, score, cut, d)
  }

  predicate PresentsRow(row: Row, kb: nat, score: Row -> real, cut: string -> string, d: RagDocument) {
    (kb == 0 || row.kbId == kb) && score(row) > 0.0
    && d.title == row.title && d.content == cut(row.content) && d.source == row.source
    && d.score == score(row) && d.chunkIdx == 0
  }

  lemma {:induction false} MatchingExactly(rows: seq<Row>, kb: nat, score: Row -> real, cut: string -> string,
                                           d: RagDocument)
    ensures d in Matching(rows, kb, score, cut) <==> Presents(rows, kb, score, cut, d)
  {
    if rows != [] {
      var front := rows[..|rows|-1];
      MatchingExactly(front, kb, score, cut, d);
      assert forall i :: 0 <= i < |front| ==> front[i] == rows[i];
    }
  }

  /** Every result shows a document of the knowledge base with a positive score; the best
      come first; and whatever is left out scores no higher than any of topK results. */
  lemma ResultsExactly(r: Option<seq<RagDocument>>, rows: seq<Row>, kb: nat, topK: nat, score: Row -> real,
                       cut: string -> string)
    requires IsTopMatches(r, Ready(rows), kb, true, topK, score, cut)
    ensures r.Some? && |r.value| <= topK
    ensures forall x, y :: 0 <= x < y < |r.value| ==> r.value[x].score >= r.value[y].score
    ensures forall d :: d in r.value ==> Presents(rows, kb, score, cut, d)
    ensures forall d :: Presents(rows, kb, score, cut, d) && d !in r.value ==>
              |r.value| == topK && forall x :: 0 <= x < topK ==> r.value[x].score >= d.score
  {
    hide Matching, IsRanking, Presents;
    var results, all := r.value, Matching(rows, kb, score, cut);
    var dropped :| IsRanking(results, dropped, all, topK);
    RankedFirst(results, dropped, all, topK);
    forall d | d in results ensures Presents(rows, kb, score, cut, d) { MatchingExactly(rows, kb, score, cut, d); }
    forall d | Presents(rows, kb, score, cut, d) && d !in results
      ensures |results| == topK && forall x :: 0 <= x < topK ==> results[x].score >= d.score
    {
      MatchingExactly(rows, kb, score, cut, d);
      DroppedIsWorse(results, dropped, all, topK, d);
    }
  }

  /** An error exactly without a database, or when it fails on a query with keywords;
      without keywords nothing is found. */
  lemma ErrorsExactly(r: Option<seq<RagDocument>>, db: Database, kb: nat, hasKeywords: bool, topK: nat,
                      score: Row -> real, cut: string -> string)
    requires IsTopMatches(r, db, kb, hasKeywords, topK, score, cut)
    ensures r == None <==> db == Missing || (hasKeywords && db == Failing)
    ensures db != Missing && !hasKeywords ==> r == Some([])
  {
    hide IsRanking;
  }

  lemma RankedFirst(results: seq<RagDocument>, dropped: seq<RagDocument>, all: seq<RagDocument>, topK: nat)
    requires IsRanking(results, dropped, all, topK)
    ensures forall x :: 0 <= x < |results| ==> results[x] in all
    ensures forall x, y :: 0 <= x < y < |results| ==> results[x].score >= results[y].score
  {
    var both := results + dropped;
    forall x | 0 <= x < |results| ensures both[x] == results[x] && results[x] in all {
      assert both[x] in multiset(both) && both[x] in multiset(all);
    }
    forall x, y | 0 <= x < y < |results| ensures results[x].score >= results[y].score {
      assert DOC_SCORE(both[x]) >= DOC_SCORE(both[y]);
    }
  }

  lemma DroppedIsWorse(results: seq<RagDocument>, dropped: seq<RagDocument>, all: seq<RagDocument>, topK: nat,
                       d: RagDocument)
    requires IsRanking(results, dropped, all, topK) && d in all && d !in results
    ensures |results| == topK && forall x :: 0 <= x < topK ==> results[x].score >= d.score
  {
    var both := results + dropped;
    assert d in multiset(all) && d in multiset(both);
    var p :| 0 <= p < |both| && both[p] == d;
    assert p >= |results| && dropped[p - |results|] == d;
    forall x | 0 <= x < |results| ensures results[x].score >= d.score {
      assert DOC_SCORE(both[x]) >= DOC_SCORE(both[p]);
    }
  }
}
