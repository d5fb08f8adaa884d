/** Fusion, cut off at the recall window, then sorted stably by another key and cut
    off again: when the outcome is determined although fusion leaves ties open. */
module AnswerOrder {
  import opened FusionOrder
  import opened Options
  import opened RankFusion
  import opened RankLaws
  import opened Sorting

  /** What is returned of a recall: the first `k` by the key `f`. */
  function Best(docs: seq<RagDocument>, f: RagDocument -> real, k: nat): seq<RagDocument> {
    Truncated(StableSort(docs, f), k)
  }

  /** The cut at `n` falls between two documents with the same fused score. */
  predicate Straddles(full: seq<RagDocument>, n: nat)
    requires n > 0
  {
    |full| > n && full[n-1].score == full[n].score
  }

  /** Where the documents that tie with the last one inside the window end. */
  function TieEnd(full: seq<RagDocument>, n: nat): (e: nat)
    requires 0 < n <= |full|
    ensures n <= e <= |full|
    ensures forall p :: n - 1 <= p < e ==> full[p].score == full[n-1].score
    ensures e < |full| ==> full[e].score != full[n-1].score
    decreases |full| - n
  {
    if n == |full| || full[n].score != full[n-1].score then n else TieEnd(full, n + 1)
  }

  /** The documents that some recall contains. */
  function Reach(full: seq<RagDocument>, n: nat): seq<RagDocument>
    requires n > 0
  {
    if |full| <= n then full else full[..TieEnd(full, n)]
  }

  /** Place `i` of the order by `f` is open to no choice: no later document ties in
      both keys, and the document is in every recall. */
  ghost predicate SettledAt(full: seq<RagDocument>, n: nat, f: RagDocument -> real, sorted: seq<RagDocument>, i: nat)
    requires n > 0 && i < |sorted|
  {
    (forall j :: i < j < |sorted| ==> !Tied(f, sorted[i], sorted[j]))
    && (Straddles(full, n) ==> sorted[i].score > full[n-1].score)
  }

  ghost predicate SettledUpTo(full: seq<RagDocument>, n: nat, f: RagDocument -> real, m: nat)
    requires n > 0
  {
    var sorted := StableSort(Reach(full, n), f);
    forall i :: 0 <= i < |sorted| && i < m ==> SettledAt(full, n, f, sorted, i)
  }

  // ----- what every recall has in common -----

  lemma InFusion(full: seq<RagDocument>, rankings: seq<seq<RagDocument>>, k: int)
    requires k > 0 && IsFusion(full, rankings, k)
    ensures AllDistinct(full) && LexSorted(full, SAME) && Descending(full, DOC_SCORE)
    ensures forall i, j :: 0 <= i < j < |full| ==> full[i].score >= full[j].score
  {
    hide IsMerge;
    FusionLex(full, rankings, k);
    ByScore(full);
  }

  lemma Prefixes(full: seq<RagDocument>, m: nat)
    requires m <= |full| && AllDistinct(full) && Descending(full, DOC_SCORE)
    ensures AllDistinct(full[..m]) && Descending(full[..m], DOC_SCORE)
  {
    forall i, j | 0 <= i < j < m ensures DOC_SCORE(full[..m][i]) >= DOC_SCORE(full[..m][j]) {
      assert full[..m][i] == full[i] && full[..m][j] == full[j];
    }
  }

  lemma ReachOrdered(full: seq<RagDocument>, rankings: seq<seq<RagDocument>>, k: int, n: nat)
    requires k > 0 && n > 0 && IsFusion(full, rankings, k)
    ensures AllDistinct(Reach(full, n)) && Descending(Reach(full, n), DOC_SCORE)
    ensures AllDistinct(Truncated(full, n)) && Descending(Truncated(full, n), DOC_SCORE)
    ensures |Reach(full, n)| >= |Truncated(full, n)|
  {
    hide IsFusion, Descending, AllDistinct;
    InFusion(full, rankings, k);
    Prefixes(full, |Reach(full, n)|);
    Prefixes(full, |Truncated(full, n)|);
    assert full[..|full|] == full;
  }

  /** A document is in reach if and only if its score is not below the last score in
      the window. */
  lemma ReachByScore(full: seq<RagDocument>, n: nat, p: nat)
    requires n > 0 && p < |full| && forall i, j :: 0 <= i < j < |full| ==> full[i].score >= full[j].score
    requires |full| <= n || full[p].score >= full[n-1].score
    ensures full[p] in Reach(full, n)
  {
    if |full| > n {
      var e := TieEnd(full, n);
      assert p < e;
      assert full[..e][p] == full[p];
    }
  }

  /** Every recall lies within reach and has everything above the tie at the cut. */
  lemma RecallWithinReach(full: seq<RagDocument>, other: seq<RagDocument>, rankings: seq<seq<RagDocument>>,
                          k: int, n: nat)
    requires k > 0 && n > 0 && IsFusion(full, rankings, k) && IsFusion(other, rankings, k)
    ensures forall d :: d in Truncated(other, n) ==> d in Reach(full, n)
    ensures forall d :: d in Reach(full, n) && (Straddles(full, n) ==> d.score > full[n-1].score) ==>
              d in Truncated(other, n)
  {
    hide IsFusion, LexSorted, Descending, AllDistinct;
    SameScores(full, other, rankings, k);
    InFusion(full, rankings, k);
    InFusion(other, rankings, k);
    SameMembers(full, other, rankings, k);
    SameMembers(other, full, rankings, k);
    forall d | d in Truncated(other, n) ensures d in Reach(full, n) {
      var u :| 0 <= u < |Truncated(other, n)| && Truncated(other, n)[u] == d;
      assert other[u] == d && d in other;
      var p :| 0 <= p < |full| && full[p] == d;
      ReachByScore(full, n, p);
    }
    forall d | d in Reach(full, n) && (Straddles(full, n) ==> d.score > full[n-1].score)
      ensures d in Truncated(other, n)
    {
      AboveTheCut(full, other, n, d);
    }
  }

  lemma AboveTheCut(full: seq<RagDocument>, other: seq<RagDocument>, n: nat, d: RagDocument)
    requires n > 0 && |full| == |other| && forall i :: 0 <= i < |full| ==> full[i].score == other[i].score
    requires forall i, j :: 0 <= i < j < |full| ==> full[i].score >= full[j].score
    requires d in Reach(full, n) && (Straddles(full, n) ==> d.score > full[n-1].score) && (d in full ==> d in other)
    ensures d in Truncated(other, n)
  {
    var p :| 0 <= p < |Reach(full, n)| && Reach(full, n)[p] == d;
    assert full[p] == d && d in full;
    var u :| 0 <= u < |other| && other[u] == d;
    if |full| > n {
      assert full[p].score >= full[n-1].score;
      assert u < n;
      assert other[..n][u] == d;
    }
  }

  // ----- settled places agree -----

  /** Up to a settled place, every recall sorts to the same documents, and the next
      one ties with the expected one if the recall has that. */
  lemma SettledPrefix(full: seq<RagDocument>, other: seq<RagDocument>, rankings: seq<seq<RagDocument>>, k: int, n: nat,
                      f: RagDocument -> real, m: nat)
    requires k > 0 && n > 0 && IsFusion(full, rankings, k) && IsFusion(other, rankings, k)
    requires SettledUpTo(full, n, f, m) && m <= |Reach(full, n)|
    ensures var x, y := StableSort(Reach(full, n), f), StableSort(Truncated(other, n), f);
            m <= |y| && x[..m] == y[..m]
            && LexSorted(x, f) && LexSorted(y, f) && AllDistinct(x) && AllDistinct(y)
            && (forall d :: d in x <==> d in Reach(full, n)) && (forall d :: d in y <==> d in Truncated(other, n))
  {
    hide IsFusion, LexSorted, Descending, AllDistinct, NoTieBefore, Reach, Truncated;
    var x, y := StableSort(Reach(full, n), f), StableSort(Truncated(other, n), f);
    ReachOrdered(full, rankings, k, n);
    ReachOrdered(other, rankings, k, n);
    SortsByBoth(Reach(full, n), f);
    SortsByBoth(Truncated(other, n), f);
    SortKeepsDistinct(Reach(full, n), f);
    SortKeepsDistinct(Truncated(other, n), f);
    RecallWithinReach(full, other, rankings, k, n);
    forall i | 0 <= i < m ensures x[i] in y {
      assert SettledAt(full, n, f, x, i);
      assert x[i] in x;
    }
    SettledUntied(full, n, f, m);
    SamePrefix(x, y, f, m);
  }

  lemma SettledUntied(full: seq<RagDocument>, n: nat, f: RagDocument -> real, m: nat)
    requires n > 0 && SettledUpTo(full, n, f, m)
    ensures NoTieBefore(StableSort(Reach(full, n), f), f, m)
  {
    var x := StableSort(Reach(full, n), f);
    forall i, j | 0 <= i < j < |x| && i < m ensures !Tied(f, x[i], x[j]) {
      assert SettledAt(full, n, f, x, i);
    }
  }

  lemma SettledAgree(full: seq<RagDocument>, other: seq<RagDocument>, rankings: seq<seq<RagDocument>>, kk: int, n: nat,
                     f: RagDocument -> real, k: nat)
    requires kk > 0 && 0 < k <= n && IsFusion(full, rankings, kk) && IsFusion(other, rankings, kk)
    requires SettledUpTo(full, n, f, k)
    ensures Best(Truncated(other, n), f, k) == Best(Reach(full, n), f, k)
  {
    hide IsFusion, LexSorted, SettledUpTo, StableSort;
    var x, y := StableSort(Reach(full, n), f), StableSort(Truncated(other, n), f);
    var m := if |x| < k then |x| else k;
    FewerSettled(full, n, f, k, m);
    SettledPrefix(full, other, rankings, kk, n, f, m);
    SameScores(full, other, rankings, kk);
    if |x| <= k { assert x[..m] == x; }
    assert |y| <= |x| by { ReachOrdered(full, rankings, kk, n); }
    assert |x| <= k ==> y[..m] == y;
  }

  lemma FewerSettled(full: seq<RagDocument>, n: nat, f: RagDocument -> real, k: nat, m: nat)
    requires n > 0 && m <= k && SettledUpTo(full, n, f, k)
    ensures SettledUpTo(full, n, f, m)
  {}

  // ----- unsettled places differ -----

  /** Some fusion has `g` inside the window, if it ties with the cut. */
  lemma BringIn(full: seq<RagDocument>, rankings: seq<seq<RagDocument>>, k: int, n: nat, g: RagDocument)
      returns (other: seq<RagDocument>)
    requires k > 0 && n > 0 && IsFusion(full, rankings, k) && g in Reach(full, n)
    ensures IsFusion(other, rankings, k) && g in Truncated(other, n)
  {
    hide IsFusion;
    var p :| 0 <= p < |Reach(full, n)| && Reach(full, n)[p] == g;
    assert full[p] == g;
    if |full| <= n || p < n {
      other := full;
      assert Truncated(other, n)[p] == g;
    } else {
      TieSwaps(full, rankings, k, n - 1, p);
      other := full[n - 1 := full[p]][p := full[n - 1]];
      assert Truncated(other, n)[n - 1] == g;
    }
  }

  /** Some fusion has `z` outside the window, if the tie straddles it. */
  lemma BringOut(full: seq<RagDocument>, rankings: seq<seq<RagDocument>>, k: int, n: nat, z: RagDocument)
      returns (other: seq<RagDocument>)
    requires k > 0 && n > 0 && IsFusion(full, rankings, k) && Straddles(full, n)
    requires z in full && z.score == full[n-1].score
    ensures IsFusion(other, rankings, k) && z !in Truncated(other, n)
  {
    hide IsFusion;
    var p :| 0 <= p < |full| && full[p] == z;
    if p == n {
      other := full;
    } else {
      TieSwaps(full, rankings, k, p, n);
      other := full[p := full[n]][n := full[p]];
    }
    assert other[n] == z;
    OutsideStays(other, rankings, k, n);
  }

  lemma OutsideStays(other: seq<RagDocument>, rankings: seq<seq<RagDocument>>, k: int, n: nat)
    requires k > 0 && 0 < n < |other| && IsFusion(other, rankings, k)
    ensures other[n] !in Truncated(other, n)
  {
    hide IsMerge;
    DistinctDocs(other, rankings, k);
    forall u | 0 <= u < n ensures other[..n][u] != other[n] {}
  }

  /** The first unsettled place holds a document that a tie at the cut can exclude. */
  lemma ExcludedDiffers(full: seq<RagDocument>, rankings: seq<seq<RagDocument>>, kk: int, n: nat,
                        f: RagDocument -> real, k: nat, i: nat)
      returns (u: seq<RagDocument>, v: seq<RagDocument>)
    requires kk > 0 && 0 < k <= n && IsFusion(full, rankings, kk) && i < k && i < |Reach(full, n)|
    requires SettledUpTo(full, n, f, i) && Straddles(full, n)
    requires StableSort(Reach(full, n), f)[i].score == full[n-1].score
    ensures IsFusion(u, rankings, kk) && IsFusion(v, rankings, kk)
    ensures Best(Truncated(u, n), f, k) != Best(Truncated(v, n), f, k)
  {
    hide IsFusion, LexSorted, Reach, AllDistinct, Descending;
    var x := StableSort(Reach(full, n), f);
    assert x[i] in Reach(full, n) by { SettledPrefix(full, full, rankings, kk, n, f, i); assert x[i] in x; }
    u := BringIn(full, rankings, kk, n, x[i]);
    SettledPrefix(full, u, rankings, kk, n, f, i);
    RecallWithinReach(full, u, rankings, kk, n);
    var y := StableSort(Truncated(u, n), f);
    NextTied(x, y, f, i);
    var z := y[i];
    assert z in y && z in Truncated(u, n);
    InRecallInFusion(u, n, z);
    SameMembers(u, full, rankings, kk);
    v := BringOut(full, rankings, kk, n, z);
    SettledPrefix(full, v, rankings, kk, n, f, i);
    assert Best(Truncated(u, n), f, k)[i] == z;
    BestFromRecall(v, n, f, k, z);
  }

  lemma InRecallInFusion(u: seq<RagDocument>, n: nat, z: RagDocument)
    requires z in Truncated(u, n)
    ensures z in u
  {}

  lemma BestFromRecall(v: seq<RagDocument>, n: nat, f: RagDocument -> real, k: nat, z: RagDocument)
    requires z !in Truncated(v, n)
    ensures z !in Best(Truncated(v, n), f, k)
  {
    var y := StableSort(Truncated(v, n), f);
    StableSortSorts(Truncated(v, n), f);
    forall d | d in Best(Truncated(v, n), f, k) ensures d in Truncated(v, n) {
      assert d in y;
      assert d in multiset(y);
    }
  }

  function Exchange(z: RagDocument, w: RagDocument): RagDocument -> RagDocument {
    (d: RagDocument) => if d == z then w else if d == w then z else d
  }

  /** Exchanging two documents that tie in both keys exchanges them in the outcome. */
  lemma ExchangeShows(full: seq<RagDocument>, rankings: seq<seq<RagDocument>>, kk: int, n: nat,
                      f: RagDocument -> real, k: nat, i: nat, q: nat) returns (v: seq<RagDocument>)
    requires kk > 0 && 0 < k <= n && IsFusion(full, rankings, kk)
    requires var y := StableSort(Truncated(full, n), f); i < q < |y| && i < k && AllDistinct(y) && Tied(f, y[i], y[q])
    requires forall d :: d in StableSort(Truncated(full, n), f) ==> d in Truncated(full, n)
    ensures IsFusion(v, rankings, kk) && Best(Truncated(full, n), f, k) != Best(Truncated(v, n), f, k)
  {
    hide IsFusion, StableSort;
    var docs, y := Truncated(full, n), StableSort(Truncated(full, n), f);
    var z, w := y[i], y[q];
    assert z in y && w in y && z != w;
    var a :| 0 <= a < |docs| && docs[a] == z;
    var b :| 0 <= b < |docs| && docs[b] == w;
    assert full[a] == z && full[b] == w;
    TieSwaps(full, rankings, kk, a, b);
    v := full[a := full[b]][b := full[a]];
    var swap := Exchange(z, w);
    ExchangeIsSwap(full, rankings, kk, n, a, b);
    SortMapped(docs, swap, f, f);
    KeptAt(y, i, k);
    KeptAt(MapAll(swap, y), i, k);
  }

  lemma KeptAt(y: seq<RagDocument>, i: nat, k: nat)
    requires i < |y| && i < k
    ensures i < |Truncated(y, k)| && Truncated(y, k)[i] == y[i]
  {}

  lemma ExchangeIsSwap(full: seq<RagDocument>, rankings: seq<seq<RagDocument>>, k: int, n: nat, a: nat, b: nat)
    requires k > 0 && IsFusion(full, rankings, k) && a < |full| && b < |full| && a != b
    requires a < |Truncated(full, n)| && b < |Truncated(full, n)|
    ensures Truncated(full[a := full[b]][b := full[a]], n) == MapAll(Exchange(full[a], full[b]), Truncated(full, n))
  {
    hide IsMerge;
    DistinctDocs(full, rankings, k);
    var v := full[a := full[b]][b := full[a]];
    var mapped := MapAll(Exchange(full[a], full[b]), Truncated(full, n));
    forall m | 0 <= m < |mapped| ensures Truncated(v, n)[m] == mapped[m] {
      assert Truncated(full, n)[m] == full[m];
      assert m != a ==> full[m] != full[a];
      assert m != b ==> full[m] != full[b];
    }
  }

  /** The first unsettled place ties with a later document, both in every recall. */
  lemma TiedDiffers(full: seq<RagDocument>, rankings: seq<seq<RagDocument>>, kk: int, n: nat,
                    f: RagDocument -> real, k: nat, i: nat, j: nat) returns (v: seq<RagDocument>)
    requires kk > 0 && 0 < k <= n && IsFusion(full, rankings, kk) && i < k
    requires SettledUpTo(full, n, f, i)
    requires var x := StableSort(Reach(full, n), f);
             i < j < |x| && Tied(f, x[i], x[j]) && (Straddles(full, n) ==> x[i].score > full[n-1].score)
    ensures IsFusion(v, rankings, kk) && Best(Truncated(full, n), f, k) != Best(Truncated(v, n), f, k)
  {
    hide IsFusion, LexSorted, Reach, Descending, Truncated, Best;
    var x, y := StableSort(Reach(full, n), f), StableSort(Truncated(full, n), f);
    SettledPrefix(full, full, rankings, kk, n, f, i);
    RecallWithinReach(full, full, rankings, kk, n);
    assert x[i] in x && x[j] in x;
    assert x[i] in y && x[j] in y;
    NextTied(x, y, f, i);
    var w := if y[i] == x[i] then x[j] else x[i];
    var q :| 0 <= q < |y| && y[q] == w;
    SameBelow(x, y, i);
    assert q > i;
    v := ExchangeShows(full, rankings, kk, n, f, k, i, q);
  }

  lemma {:induction false} FirstUnsettled(full: seq<RagDocument>, n: nat, f: RagDocument -> real, k: nat)
      returns (i: nat)
    requires n > 0 && !SettledUpTo(full, n, f, k)
    ensures i < k && i < |StableSort(Reach(full, n), f)| && SettledUpTo(full, n, f, i)
    ensures !SettledAt(full, n, f, StableSort(Reach(full, n), f), i)
  {
    if SettledUpTo(full, n, f, k - 1) {
      i := k - 1;
    } else {
      i := FirstUnsettled(full, n, f, k - 1);
    }
  }

  lemma UnsettledDiffers(full: seq<RagDocument>, rankings: seq<seq<RagDocument>>, kk: int, n: nat,
                         f: RagDocument -> real, k: nat) returns (u: seq<RagDocument>, v: seq<RagDocument>)
    requires kk > 0 && 0 < k <= n && IsFusion(full, rankings, kk) && !SettledUpTo(full, n, f, k)
    ensures IsFusion(u, rankings, kk) && IsFusion(v, rankings, kk)
    ensures Best(Truncated(u, n), f, k) != Best(Truncated(v, n), f, k)
  {
    hide IsFusion, SettledUpTo, Best, StableSort, Reach;
    var i := FirstUnsettled(full, n, f, k);
    var x := StableSort(Reach(full, n), f);
    if Straddles(full, n) && x[i].score <= full[n-1].score {
      AtTheCut(full, rankings, kk, n, f, i);
      u, v := ExcludedDiffers(full, rankings, kk, n, f, k, i);
    } else {
      var j :| i < j < |x| && Tied(f, x[i], x[j]);
      u := full;
      v := TiedDiffers(full, rankings, kk, n, f, k, i, j);
    }
  }

  lemma AtTheCut(full: seq<RagDocument>, rankings: seq<seq<RagDocument>>, k: int, n: nat,
                 f: RagDocument -> real, i: nat)
    requires k > 0 && n > 0 && IsFusion(full, rankings, k) && |full| > n
    requires i < |StableSort(Reach(full, n), f)| && StableSort(Reach(full, n), f)[i].score <= full[n-1].score
    ensures StableSort(Reach(full, n), f)[i].score == full[n-1].score
  {
    hide IsFusion;
    InFusion(full, rankings, k);
    ReachOrdered(full, rankings, k, n);
    SortKeepsDistinct(Reach(full, n), f);
    var x := StableSort(Reach(full, n), f);
    assert x[i] in x;
    var p :| 0 <= p < |Reach(full, n)| && Reach(full, n)[p] == x[i];
    assert full[p] == x[i];
  }

  /** The outcome is the same for every result that fusion may give, if and only if
      the first `k` places are settled. */
  lemma SettledExactly(full: seq<RagDocument>, rankings: seq<seq<RagDocument>>, kk: int, n: nat,
                       f: RagDocument -> real, k: nat)
    requires kk > 0 && 0 < k <= n && IsFusion(full, rankings, kk)
    ensures (forall x, y :: IsResult(x, rankings, kk, n) && IsResult(y, rankings, kk, n) ==>
              Best(x, f, k) == Best(y, f, k))
       <==> SettledUpTo(full, n, f, k)
  {
    hide IsFusion, SettledUpTo, Best, Truncated, Reach;
    if SettledUpTo(full, n, f, k) {
      forall x, y | IsResult(x, rankings, kk, n) && IsResult(y, rankings, kk, n)
        ensures Best(x, f, k) == Best(y, f, k)
      {
        var u :| IsFusion(u, rankings, kk) && x == Truncated(u, n);
        var v :| IsFusion(v, rankings, kk) && y == Truncated(v, n);
        SettledAgree(full, u, rankings, kk, n, f, k);
        SettledAgree(full, v, rankings, kk, n, f, k);
      }
    } else {
      var u, v := UnsettledDiffers(full, rankings, kk, n, f, k);
      assert IsResult(Truncated(u, n), rankings, kk, n) && IsResult(Truncated(v, n), rankings, kk, n);
    }
  }
}
