/** How rank fusion compares contents by the places they hold, and whose other
    fields a fused document carries. */
module FusionComparison {
  import opened FusionOrder
  import opened Options
  import opened RankFusion
  import opened RankLaws
  import opened Sorting

  /** `c` is listed once in all, in list `l` at the 1-based place `r`. */
  predicate Once(rankings: seq<seq<RagDocument>>, c: string, l: nat, r: nat) {
    r > 0 && l < |rankings| && OnlyAt(rankings[l], c, r - 1)
    && forall t :: 0 <= t < |rankings| && t != l ==> Absent(rankings[t], c)
  }

  /** `c` is listed in two lists, once each, at the places `p` and `q`. */
  predicate Twice(rankings: seq<seq<RagDocument>>, c: string, i: nat, p: nat, j: nat, q: nat) {
    p > 0 && q > 0 && i < j < |rankings| && OnlyAt(rankings[i], c, p - 1) && OnlyAt(rankings[j], c, q - 1)
    && forall t :: 0 <= t < |rankings| && t != i && t != j ==> Absent(rankings[t], c)
  }

  lemma {:induction false} OnceScores(rankings: seq<seq<RagDocument>>, c: string, l: nat, r: nat, k: int, m: nat)
    requires k > 0 && m <= |rankings| && Once(rankings, c, l, r)
    ensures Score(rankings, c, k, m) == if l < m then 1.0 / ((k + r) as real) else 0.0
  {
    hide Gain, OnlyAt, Absent;
    if m > 0 {
      OnceScores(rankings, c, l, r, k, m - 1);
      var list := rankings[m-1];
      if m - 1 == l { GainOnlyAt(list, c, r - 1, k, |list|); AtPlace(list, c, r - 1); }
      else { GainAbsent(list, c, k, |list|); }
    }
  }

  lemma AtPlace(list: seq<RagDocument>, c: string, i: nat)
    requires OnlyAt(list, c, i)
    ensures i < |list| && list[i].content == c
  {}

  lemma {:induction false} TwiceScores(rankings: seq<seq<RagDocument>>, c: string, i: nat, p: nat, j: nat, q: nat,
                                       k: int, m: nat)
    requires k > 0 && m <= |rankings| && Twice(rankings, c, i, p, j, q)
    ensures Score(rankings, c, k, m)
         == (if i < m then 1.0 / ((k + p) as real) else 0.0) + (if j < m then 1.0 / ((k + q) as real) else 0.0)
  {
    hide Gain, OnlyAt, Absent;
    if m > 0 {
      TwiceScores(rankings, c, i, p, j, q, k, m - 1);
      var list := rankings[m-1];
      if m - 1 == i { GainOnlyAt(list, c, p - 1, k, |list|); AtPlace(list, c, p - 1); }
      else if m - 1 == j { GainOnlyAt(list, c, q - 1, k, |list|); AtPlace(list, c, q - 1); }
      else { GainAbsent(list, c, k, |list|); }
    }
  }

  lemma Fractions(a: real, b: real, e: real)
    requires a > 0.0 && b > 0.0 && e > 0.0
    ensures 1.0 / a + 1.0 / b > 1.0 / e <==> (a + b) * e > a * b
    ensures 1.0 / a + 1.0 / b == 1.0 / e <==> (a + b) * e == a * b
  {
    var s, t := 1.0 / a + 1.0 / b, 1.0 / e;
    var scale := (a * b) * e;
    assert scale > 0.0;
    SumScaled(a, b);
    Rearranged(s, a * b, e);
    Rearranged(t, e, a * b);
    assert s * scale == (a + b) * e && t * scale == a * b;
    ScaledOrder(s, t, scale);
  }

  lemma SumScaled(a: real, b: real)
    requires a > 0.0 && b > 0.0
    ensures (1.0 / a + 1.0 / b) * (a * b) == a + b
  {
    var x, y := 1.0 / a, 1.0 / b;
    assert x * a == 1.0 && y * b == 1.0;
    assert x * (a * b) == (x * a) * b;
    assert y * (a * b) == (y * b) * a;
  }

  lemma Rearranged(x: real, y: real, z: real)
    ensures x * (y * z) == (x * y) * z && x * (z * y) == (x * y) * z
  {}

  lemma ScaledOrder(s: real, t: real, scale: real)
    requires scale > 0.0
    ensures (s > t <==> s * scale > t * scale) && (s == t <==> s * scale == t * scale)
  {
    assert (s - t) * scale == s * scale - t * scale;
    if s > t { assert (s - t) * scale > 0.0; }
    if s < t { assert (t - s) * scale > 0.0; }
  }

  lemma FractionsOfPlaces(k: int, p: nat, q: nat, r: nat)
    requires k > 0
    ensures var a, b, e := 1.0 / ((k + p) as real), 1.0 / ((k + q) as real), 1.0 / ((k + r) as real);
            (a + b > e <==> (2 * k + p + q) * (k + r) > (k + p) * (k + q))
            && (a + b == e <==> (2 * k + p + q) * (k + r) == (k + p) * (k + q))
  {
    Fractions((k + p) as real, (k + q) as real, (k + r) as real);
    ProductOfInts((k + p) + (k + q), k + r);
    ProductOfInts(k + p, k + q);
  }

  lemma ProductOfInts(x: int, y: int)
    ensures (x as real) * (y as real) == (x * y) as real
  {}

  /** A content listed at the places p and q of two lists stands, in every fusion
      result, before one listed only at place r if and only if
      (2k + p + q)(k + r) > (k + p)(k + q); they tie if and only if the two are equal. */
  lemma TwoPlacesAgainstOne(full: seq<RagDocument>, rankings: seq<seq<RagDocument>>, k: int,
                            c: string, i: nat, p: nat, j: nat, q: nat, d: string, l: nat, r: nat)
      returns (x: nat, y: nat)
    requires k > 0 && IsFusion(full, rankings, k)
    requires Twice(rankings, c, i, p, j, q) && Once(rankings, d, l, r)
    ensures x < |full| && full[x].content == c && y < |full| && full[y].content == d
    ensures (2 * k + p + q) * (k + r) > (k + p) * (k + q) <==> full[x].score > full[y].score
    ensures (2 * k + p + q) * (k + r) == (k + p) * (k + q) <==> full[x].score == full[y].score
    ensures (2 * k + p + q) * (k + r) > (k + p) * (k + q) ==> x < y
    ensures (2 * k + p + q) * (k + r) < (k + p) * (k + q) ==> y < x
  {
    hide Score, Gain, FirstOf, IsMerge;
    TwiceScores(rankings, c, i, p, j, q, k, |rankings|);
    OnceScores(rankings, d, l, r, k, |rankings|);
    FirstOfFound(rankings, i, p - 1, |rankings|);
    FirstOfFound(rankings, l, r - 1, |rankings|);
    x := PlaceOf(full, rankings, k, c);
    y := PlaceOf(full, rankings, k, d);
    FractionsOfPlaces(k, p, q, r);
    assert DOC_SCORE(full[x]) == full[x].score && DOC_SCORE(full[y]) == full[y].score;
  }

  lemma MulOrder(x: int, y: int, z: int)
    requires x <= y && z >= 0
    ensures z * x <= z * y
  {
    assert z * y - z * x == z * (y - x);
  }

  lemma BelowTwice(a: int, b: int, m: int)
    requires 0 < a && b < 2 * m
    ensures a * b <= 2 * (a * m) - a
  {
    MulOrder(b, 2 * m - 1, a);
    assert a * (2 * m - 1) == 2 * (a * m) - a;
  }

  lemma SumTimes(a: int, b: int, m: int)
    ensures (a + b) * m == a * m + b * m && a * b == b * a
  {}

  lemma SmallProduct(a: int, b: int, m: int, e: int)
    requires 0 < a < 2 * m && 0 < b < 2 * m && m <= e
    ensures (a + b) * e > a * b
  {
    BelowTwice(a, b, m);
    BelowTwice(b, a, m);
    SumTimes(a, b, m);
    MulOrder(m, e, a + b);
  }

  lemma EarlyPlaces(k: int, p: nat, q: nat, r: nat)
    requires k > 0 && p > 0 && q > 0 && r > 0
    ensures p <= k + 1 && q <= k + 1 ==> (2 * k + p + q) * (k + r) > (k + p) * (k + q)
    ensures p == q == k + 2 && r == 1 ==> (2 * k + p + q) * (k + r) == (k + p) * (k + q)
  {
    if p <= k + 1 && q <= k + 1 {
      SmallProduct(k + p, k + q, k + 1, k + r);
      assert 2 * k + p + q == (k + p) + (k + q);
    }
    if p == q == k + 2 && r == 1 { FourSquares(k + 1); }
  }

  lemma FourSquares(m: int)
    ensures (4 * m) * m == (2 * m) * (2 * m)
  {}

  /** The consensus law: two lists that have a content among their first k + 1 places
      outvote any single list; at place k + 2 of both, the content ties with one that
      leads a list. */
  lemma ConsensusWins(full: seq<RagDocument>, rankings: seq<seq<RagDocument>>, k: int,
                      c: string, i: nat, p: nat, j: nat, q: nat, d: string, l: nat, r: nat)
      returns (x: nat, y: nat)
    requires k > 0 && IsFusion(full, rankings, k)
    requires Twice(rankings, c, i, p, j, q) && Once(rankings, d, l, r)
    ensures x < |full| && full[x].content == c && y < |full| && full[y].content == d
    ensures p <= k + 1 && q <= k + 1 ==> x < y
    ensures p == q == k + 2 && r == 1 ==> full[x].score == full[y].score
  {
    hide IsFusion, Twice, Once;
    x, y := TwoPlacesAgainstOne(full, rankings, k, c, i, p, j, q, d, l, r);
    PlacesPositive(rankings, c, i, p, j, q, d, l, r);
    EarlyPlaces(k, p, q, r);
  }

  lemma PlacesPositive(rankings: seq<seq<RagDocument>>, c: string, i: nat, p: nat, j: nat, q: nat,
                       d: string, l: nat, r: nat)
    requires Twice(rankings, c, i, p, j, q) && Once(rankings, d, l, r)
    ensures p > 0 && q > 0 && r > 0
  {}

  /** With the default parameters that is place 61: no returned list has a content of
      one list without every content that two lists have among their first 61. */
  lemma DefaultConsensus(result: seq<RagDocument>, rankings: seq<seq<RagDocument>>, k: int, topK: int, y: nat,
                         c: string, i: nat, p: nat, j: nat, q: nat, l: nat, r: nat)
      returns (x: nat)
    requires k <= 0 && IsResult(result, rankings, EffectiveK(k), topK) && y < |result|
    requires Twice(rankings, c, i, p, j, q) && Once(rankings, result[y].content, l, r) && p <= 61 && q <= 61
    ensures x < y && result[x].content == c
  {
    hide IsFusion, Twice, Once;
    var full: seq<RagDocument> :| IsFusion(full, rankings, EffectiveK(k)) && result == Truncated(full, topK);
    var at, one := ConsensusWins(full, rankings, EffectiveK(k), c, i, p, j, q, result[y].content, l, r);
    assert full[y].content == result[y].content;
    SamePlace(full, rankings, EffectiveK(k), one, y);
    x := at;
  }

  /** And no further: at place 62 of both lists it ties with the first of another. */
  lemma DefaultTie(full: seq<RagDocument>, rankings: seq<seq<RagDocument>>, k: int,
                   c: string, i: nat, j: nat, d: string, l: nat)
      returns (x: nat, y: nat)
    requires k <= 0 && IsFusion(full, rankings, EffectiveK(k))
    requires Twice(rankings, c, i, 62, j, 62) && Once(rankings, d, l, 1)
    ensures x < |full| && full[x].content == c && y < |full| && full[y].content == d
    ensures full[x].score == full[y].score
  {
    hide IsFusion, Twice, Once;
    x, y := ConsensusWins(full, rankings, EffectiveK(k), c, i, 62, j, 62, d, l, 1);
  }

  lemma SamePlace(full: seq<RagDocument>, rankings: seq<seq<RagDocument>>, k: int, x: nat, y: nat)
    requires k > 0 && IsFusion(full, rankings, k) && x < |full| && y < |full| && full[x].content == full[y].content
    ensures x == y
  {
    hide FirstOf, Score;
    assert DOC_CONTENT(full[x]) == DOC_CONTENT(full[y]);
  }

  // ----- the other fields -----

  lemma {:induction false} FirstInPlace(list: seq<RagDocument>, c: string, n: nat) returns (i: nat)
    requires n <= |list| && FirstIn(list, c, n).Some?
    ensures i < n && list[i] == FirstIn(list, c, n).value && list[i].content == c
    ensures forall j :: 0 <= j < i ==> list[j].content != c
  {
    if FirstIn(list, c, n - 1).Some? {
      i := FirstInPlace(list, c, n - 1);
    } else {
      i := n - 1;
      forall j | 0 <= j < i ensures list[j].content != c {
        if list[j].content == c { FirstInFound(list, j, n - 1); }
      }
    }
  }

  lemma {:induction false} FirstOfPlace(rankings: seq<seq<RagDocument>>, c: string, m: nat) returns (l: nat, i: nat)
    requires m <= |rankings| && FirstOf(rankings, c, m).Some?
    ensures l < m && i < |rankings[l]| && rankings[l][i] == FirstOf(rankings, c, m).value
    ensures rankings[l][i].content == c && forall j :: 0 <= j < i ==> rankings[l][j].content != c
    ensures forall t :: 0 <= t < l ==> Absent(rankings[t], c)
  {
    if FirstOf(rankings, c, m - 1).Some? {
      l, i := FirstOfPlace(rankings, c, m - 1);
    } else {
      l := m - 1;
      i := FirstInPlace(rankings[l], c, |rankings[l]|);
      forall t | 0 <= t < l ensures Absent(rankings[t], c) {
        forall j | 0 <= j < |rankings[t]| ensures rankings[t][j].content != c {
          if rankings[t][j].content == c { FirstOfFound(rankings, t, j, m - 1); }
        }
      }
    }
  }

  /** A fused document has title, source and chunk index of the first document with
      its content: in the first list that has one, the first in that list. */
  lemma FirstOccurrenceShown(result: seq<RagDocument>, rankings: seq<seq<RagDocument>>, k: int, topK: int, x: nat)
      returns (l: nat, i: nat)
    requires k > 0 && IsResult(result, rankings, k, topK) && x < |result|
    ensures l < |rankings| && i < |rankings[l]|
    ensures var first := rankings[l][i];
            result[x].content == first.content && result[x].title == first.title && result[x].source == first.source
            && result[x].chunkIdx == first.chunkIdx
    ensures forall j :: 0 <= j < i ==> rankings[l][j].content != result[x].content
    ensures forall t :: 0 <= t < l ==> Absent(rankings[t], result[x].content)
  {
    hide FirstOf, Score, Absent;
    var full: seq<RagDocument> :| IsFusion(full, rankings, k) && result == Truncated(full, topK);
    assert full[x] in full && full[x] == result[x];
    l, i := FirstOfPlace(rankings, result[x].content, |rankings|);
  }
}
