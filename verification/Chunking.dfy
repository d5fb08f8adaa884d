/** Splitting a document into chunks for embedding: whole paragraphs are packed
    together by byte length, long ones are sliced by character with overlap. */
module Chunking {
  import opened Text

  datatype ChunkConfig = ChunkConfig(chunkSize: int, overlap: int)

  const DEFAULT_CONFIG := ChunkConfig(500, 50)

  function Effective(cfg: ChunkConfig): (e: ChunkConfig)
    ensures e.chunkSize > 0
  {
    if cfg.chunkSize <= 0 then DEFAULT_CONFIG else cfg
  }

  /** A chunk together with how it came about: joined paragraphs, or one window
      of a long paragraph (`first` marks the window at the paragraph's start). */
  datatype Chunk = Packed(text: string) | Slice(text: string, first: bool)

  function Texts(chunks: seq<Chunk>): (ts: seq<string>)
    ensures |ts| == |chunks|
  {
    if chunks == [] then [] else [chunks[0].text] + Texts(chunks[1..])
  }

  lemma {:induction false} TextsConcat(a: seq<Chunk>, b: seq<Chunk>)
    ensures Texts(a + b) == Texts(a) + Texts(b)
  {
    if a == [] {
      assert a + b == b;
    } else {
      assert (a + b)[1..] == a[1..] + b;
      TextsConcat(a[1..], b);
    }
  }

  /** The non-blank pieces, trimmed. */
  function Kept(pieces: seq<string>): seq<string> {
    if pieces == [] then []
    else
      var p := TrimSpace(pieces[0]);
      (if p == "" then [] else [p]) + Kept(pieces[1..])
  }

  /** The trimmed non-empty paragraphs of a text, in order. */
  function Paragraphs(text: string): seq<string> {
    Kept(Split(text))
  }

  /** When the slicing loop comes to an end: its step is positive, or no long
      paragraph needs a second window. */
  predicate SlicingEnds(paras: seq<string>, cfg: ChunkConfig) {
    forall k :: 0 <= k < |paras| ==> Sliceable(paras[k], cfg)
  }

  predicate Terminates(text: string, cfg: ChunkConfig) {
    SlicingEnds(Paragraphs(text), Effective(cfg))
  }

  function Min(a: int, b: int): int { if a < b then a else b }

  /** The windows of `p` that start at `i` or later. */
  function SlicesFrom(p: string, i: nat, cfg: ChunkConfig): (r: seq<Chunk>)
    requires cfg.chunkSize > 0
    requires cfg.overlap < cfg.chunkSize || |p| <= cfg.chunkSize
    ensures forall k :: 0 <= k < |r| ==> r[k].Slice?
    ensures r == [] <==> i >= |p|
    decreases |p| - i
  {
    if i >= |p| then []
    else
      var end := Min(i + cfg.chunkSize, |p|);
      [Slice(p[i..end], i == 0)]
      + (if end >= |p| then [] else SlicesFrom(p, i + (cfg.chunkSize - cfg.overlap), cfg))
  }

  predicate NeedsFlush(current: string, para: string, cfg: ChunkConfig) {
    ByteLen(current) > 0 && ByteLen(current) + ByteLen(para) + 1 > cfg.chunkSize
  }

  function Appended(current: string, para: string): string {
    if current == "" then para else current + PARAGRAPH_BREAK + para
  }

  function Flushed(current: string): seq<Chunk> {
    if current == "" then [] else [Packed(current)]
  }

  predicate Sliceable(para: string, cfg: ChunkConfig) {
    cfg.overlap < cfg.chunkSize || |para| <= cfg.chunkSize || ByteLen(para) <= cfg.chunkSize
  }

  /** What one paragraph emits, and what is waiting afterwards. */
  function PackOne(para: string, cfg: ChunkConfig, current: string): (r: (seq<Chunk>, string))
    requires cfg.chunkSize > 0 && Sliceable(para, cfg)
  {
    var flush := NeedsFlush(current, para, cfg);
    var emitted := if flush then [Packed(current)] else [];
    var open := if flush then "" else current;
    if ByteLen(para) > cfg.chunkSize
    then (emitted + SlicesFrom(para, 0, cfg), open)
    else (emitted, Appended(open, para))
  }

  /** The chunks for `paras` when `current` is waiting to be emitted. */
  function Pack(paras: seq<string>, cfg: ChunkConfig, current: string): seq<Chunk>
    requires cfg.chunkSize > 0 && SlicingEnds(paras, cfg)
  {
    if paras == [] then Flushed(current)
    else
      var (emitted, waiting) := PackOne(paras[0], cfg, current);
      emitted + Pack(paras[1..], cfg, waiting)
  }

  /** The chunks of a text. */
  function Plan(text: string, cfg: ChunkConfig): seq<Chunk>
    requires Terminates(text, cfg)
  {
    Pack(Paragraphs(text), Effective(cfg), "")
  }

  function ChunksOf(text: string, cfg: ChunkConfig): seq<string>
    requires Terminates(text, cfg)
  {
    Texts(Plan(text, cfg))
  }

  // ----- the loop -----

  lemma KeptStep(pieces: seq<string>, n: nat, cfg: ChunkConfig)
    requires n < |pieces| && SlicingEnds(Kept(pieces[n..]), cfg)
    ensures var p, rest := TrimSpace(pieces[n]), Kept(pieces[n+1..]);
            Kept(pieces[n..]) == (if p == "" then rest else [p] + rest)
            && SlicingEnds(rest, cfg) && (p != "" ==> Sliceable(p, cfg))
  {
    assert pieces[n..][1..] == pieces[n+1..];
    var p, paras := TrimSpace(pieces[n]), Kept(pieces[n..]);
    assert p != "" ==> paras[0] == p && paras[1..] == Kept(pieces[n+1..]);
  }

  lemma PackTexts(para: string, rest: seq<string>, cfg: ChunkConfig, chunks: seq<string>, current: string)
    requires cfg.chunkSize > 0 && SlicingEnds([para] + rest, cfg) && SlicingEnds(rest, cfg) && Sliceable(para, cfg)
    ensures var (emitted, waiting) := PackOne(para, cfg, current);
            chunks + Texts(Pack([para] + rest, cfg, current))
            == chunks + Texts(emitted) + Texts(Pack(rest, cfg, waiting))
  {
    assert ([para] + rest)[1..] == rest;
    TextsConcat(PackOne(para, cfg, current).0, Pack(rest, cfg, PackOne(para, cfg, current).1));
  }

  method ChunkText(text: string, config: ChunkConfig) returns (chunks: seq<string>)
    requires Terminates(text, config)
    ensures chunks == ChunksOf(text, config)
  {
    var cfg := config;
    if cfg.chunkSize <= 0 { cfg := DEFAULT_CONFIG; }
    if text == "" {
      return [];
    }
    var paragraphs := Split(text);
    chunks := [];
    var current, currentLen := "", 0;
    ghost var goal := ChunksOf(text, config);
    for n := 0 to |paragraphs|
      invariant currentLen == ByteLen(current)
      invariant SlicingEnds(Kept(paragraphs[n..]), cfg)
      invariant chunks + Texts(Pack(Kept(paragraphs[n..]), cfg, current)) == goal
    {
      var para := TrimSpace(paragraphs[n]);
      KeptStep(paragraphs, n, cfg);
      if para == "" {
        continue;
      }
      PackTexts(para, Kept(paragraphs[n+1..]), cfg, chunks, current);
      chunks, current, currentLen := PackParagraph(para, cfg, chunks, current, currentLen);
    }
    assert Kept(paragraphs[|paragraphs|..]) == [];
    if current != "" {
      chunks := chunks + [current];
    }
    assert chunks == goal;
    EmptyIffBlank(text, config);
    if |chunks| == 0 && TrimSpace(text) != "" {
      chunks := chunks + [TrimSpace(text)];
    }
  }

  lemma AppendedLen(current: string, para: string)
    ensures ByteLen(Appended(current, para))
         == if current == "" then ByteLen(para) else ByteLen(current) + 2 + ByteLen(para)
    ensures current == "" ==> current + para == para
  {
    ByteLenConcat(current, PARAGRAPH_BREAK);
    ByteLenConcat(current + PARAGRAPH_BREAK, para);
    assert ByteLen(PARAGRAPH_BREAK) == 2;
  }

  /** The body of `ChunkText`'s loop for one non-empty paragraph. */
  method PackParagraph(para: string, cfg: ChunkConfig, chunks: seq<string>, current: string, currentLen: nat)
      returns (chunks': seq<string>, current': string, currentLen': nat)
    requires cfg.chunkSize > 0 && Sliceable(para, cfg) && currentLen == ByteLen(current)
    ensures chunks' == chunks + Texts(PackOne(para, cfg, current).0)
    ensures current' == PackOne(para, cfg, current).1
    ensures currentLen' == ByteLen(current')
  {
    PackOneTexts(para, cfg, chunks, current);
    chunks', current', currentLen' := chunks, current, currentLen;
    if currentLen > 0 && currentLen + ByteLen(para) + 1 > cfg.chunkSize {
      chunks' := chunks' + [current];
      current', currentLen' := "", 0;
    }
    if ByteLen(para) > cfg.chunkSize {
      chunks' := AppendSlices(chunks', para, cfg);
    } else {
      AppendedLen(current', para);
      if currentLen' > 0 {
        current' := current' + PARAGRAPH_BREAK;
        currentLen' := currentLen' + 2;
      }
      current' := current' + para;
      currentLen' := currentLen' + ByteLen(para);
    }
  }

  lemma PackOneTexts(para: string, cfg: ChunkConfig, chunks: seq<string>, current: string)
    requires cfg.chunkSize > 0 && Sliceable(para, cfg)
    ensures var flushed := chunks + (if NeedsFlush(current, para, cfg) then [current] else []);
            chunks + Texts(PackOne(para, cfg, current).0) ==
            if ByteLen(para) > cfg.chunkSize then flushed + Texts(SlicesFrom(para, 0, cfg)) else flushed
  {
    var emitted := if NeedsFlush(current, para, cfg) then [Packed(current)] else [];
    if ByteLen(para) > cfg.chunkSize {
      TextsConcat(emitted, SlicesFrom(para, 0, cfg));
    }
  }

  /** The slicing loop of `ChunkText`. */
  method AppendSlices(chunks: seq<string>, para: string, cfg: ChunkConfig) returns (r: seq<string>)
    requires cfg.chunkSize > 0
    requires cfg.overlap < cfg.chunkSize || |para| <= cfg.chunkSize
    ensures r == chunks + Texts(SlicesFrom(para, 0, cfg))
  {
    r := chunks;
    var i := 0;
    while i < |para|
      invariant i >= 0
      invariant r + Texts(SlicesFrom(para, i, cfg)) == chunks + Texts(SlicesFrom(para, 0, cfg))
      decreases |para| - i
    {
      var end := i + cfg.chunkSize;
      if end > |para| { end := |para|; }
      r := r + [para[i..end]];
      if end >= |para| { break; }
      TextsConcat([Slice(para[i..end], i == 0)], SlicesFrom(para, i + (cfg.chunkSize - cfg.overlap), cfg));
      i := i + (cfg.chunkSize - cfg.overlap);
    }
  }

  // ----- nothing is lost or reordered -----

  /** Undoes one chunk: a packed chunk is split at its joints, a first window
      opens a paragraph, a later one continues it after its overlap. */
  function Undo(paras: seq<string>, chunk: Chunk, overlap: nat): seq<string> {
    match chunk
    case Packed(t) => paras + Split(t)
    case Slice(t, first) =>
      if first || paras == [] || |t| < overlap then paras + [t]
      else paras[..|paras|-1] + [paras[|paras|-1] + t[overlap..]]
  }

  function Rebuild(paras: seq<string>, chunks: seq<Chunk>, overlap: nat): seq<string>
    decreases |chunks|
  {
    if chunks == [] then paras
    else Rebuild(Undo(paras, chunks[0], overlap), chunks[1..], overlap)
  }

  lemma {:induction false} RebuildConcat(paras: seq<string>, a: seq<Chunk>, b: seq<Chunk>, overlap: nat)
    ensures Rebuild(paras, a + b, overlap) == Rebuild(Rebuild(paras, a, overlap), b, overlap)
    decreases |a|
  {
    if a == [] {
      assert a + b == b;
    } else {
      assert (a + b)[1..] == a[1..] + b;
      RebuildConcat(Undo(paras, a[0], overlap), a[1..], b, overlap);
    }
  }

  lemma RebuildCons(paras: seq<string>, chunks: seq<Chunk>, c: Chunk, rest: seq<Chunk>, overlap: nat)
    requires chunks == [c] + rest
    ensures Rebuild(paras, chunks, overlap) == Rebuild(Undo(paras, c, overlap), rest, overlap)
  {
    assert chunks[0] == c && chunks[1..] == rest;
  }

  lemma UndoFirst(paras: seq<string>, t: string, overlap: nat)
    ensures Undo(paras, Slice(t, true), overlap) == paras + [t]
  {}

  lemma UndoLater(paras: seq<string>, known: string, t: string, overlap: nat)
    requires overlap <= |t|
    ensures Undo(paras + [known], Slice(t, false), overlap) == paras + [known + t[overlap..]]
  {}

  /** Windows after the first complete a paragraph known up to `i + overlap`. */
  lemma {:induction false} RebuildLaterSlices(paras: seq<string>, p: string, i: nat, cfg: ChunkConfig, known: string)
    requires 0 <= cfg.overlap < cfg.chunkSize && i > 0 && i + cfg.overlap < |p| && known == p[..i + cfg.overlap]
    ensures Rebuild(paras + [known], SlicesFrom(p, i, cfg), cfg.overlap) == paras + [p]
    decreases |p| - i
  {
    hide SlicesFrom, Undo;
    LaterSlice(p, i, cfg);
    var end := Min(i + cfg.chunkSize, |p|);
    var t := p[i..end];
    var rest := if end >= |p| then [] else SlicesFrom(p, i + (cfg.chunkSize - cfg.overlap), cfg);
    var grown := paras + [known + t[cfg.overlap..]];
    assert Rebuild(grown, rest, cfg.overlap) == paras + [p] by {
      if end < |p| {
        RebuildLaterSlices(paras, p, i + (cfg.chunkSize - cfg.overlap), cfg, known + t[cfg.overlap..]);
      }
    }
    UndoLater(paras, known, t, cfg.overlap);
    RebuildCons(paras + [known], SlicesFrom(p, i, cfg), Slice(t, false), rest, cfg.overlap);
  }

  lemma LaterSlice(p: string, i: nat, cfg: ChunkConfig)
    requires 0 <= cfg.overlap < cfg.chunkSize && i > 0 && i + cfg.overlap < |p|
    ensures var end := Min(i + cfg.chunkSize, |p|);
            SlicesFrom(p, i, cfg) == [Slice(p[i..end], false)]
              + (if end >= |p| then [] else SlicesFrom(p, i + (cfg.chunkSize - cfg.overlap), cfg))
            && p[..i + cfg.overlap] + p[i..end][cfg.overlap..] == p[..end]
            && (end >= |p| ==> p[..end] == p)
  {}

  lemma FirstSlice(p: string, cfg: ChunkConfig) returns (first: string, rest: seq<Chunk>)
    requires cfg.chunkSize > 0 && (cfg.overlap < cfg.chunkSize || |p| <= cfg.chunkSize) && p != []
    ensures SlicesFrom(p, 0, cfg) == [Slice(first, true)] + rest
    ensures |p| <= cfg.chunkSize ==> first == p && rest == []
    ensures |p| > cfg.chunkSize ==>
      first == p[..cfg.chunkSize] && rest == SlicesFrom(p, cfg.chunkSize - cfg.overlap, cfg)
  {
    first := p[0..Min(cfg.chunkSize, |p|)];
    rest := SlicesFrom(p, 0, cfg)[1..];
  }

  // ----- what a negative overlap skips -----

  function Concat(ts: seq<string>): string {
    if ts == [] then "" else ts[0] + Concat(ts[1..])
  }

  /** What undoing drops from each later window. */
  function Dropped(cfg: ChunkConfig): nat {
    if cfg.overlap < 0 then 0 else cfg.overlap
  }

  /** A paragraph that needs a second window. */
  predicate Long(p: string, cfg: ChunkConfig) {
    |p| > cfg.chunkSize
  }

  /** What undoing gives back of a paragraph: all of it, or its windows side by
      side when the overlap is negative. */
  function Recovered(p: string, cfg: ChunkConfig): string
    requires cfg.chunkSize > 0 && Sliceable(p, cfg)
  {
    if cfg.overlap >= 0 || !Long(p, cfg) then p else Concat(Texts(SlicesFrom(p, 0, cfg)))
  }

  function AllRecovered(paras: seq<string>, cfg: ChunkConfig): (r: seq<string>)
    requires cfg.chunkSize > 0 && SlicingEnds(paras, cfg)
    ensures |r| == |paras| && forall k :: 0 <= k < |paras| ==> r[k] == Recovered(paras[k], cfg)
  {
    seq(|paras|, k requires 0 <= k < |paras| => Recovered(paras[k], cfg))
  }

  /** With a negative overlap, windows of a long paragraph miss some of it. */
  lemma {:induction false} GapsLoseText(p: string, i: nat, cfg: ChunkConfig)
    requires cfg.chunkSize > 0 > cfg.overlap
    ensures i <= |p| ==> |Concat(Texts(SlicesFrom(p, i, cfg)))| <= |p| - i
    ensures i > |p| ==> Concat(Texts(SlicesFrom(p, i, cfg))) == ""
    ensures i + cfg.chunkSize < |p| ==> |Concat(Texts(SlicesFrom(p, i, cfg)))| < |p| - i
    decreases |p| - i
  {
    if i + cfg.chunkSize < |p| {
      var rest := SlicesFrom(p, i + (cfg.chunkSize - cfg.overlap), cfg);
      GapsLoseText(p, i + (cfg.chunkSize - cfg.overlap), cfg);
      assert SlicesFrom(p, i, cfg)[1..] == rest;
      assert Texts(SlicesFrom(p, i, cfg))[1..] == Texts(rest);
    } else if i < |p| {
      var only := SlicesFrom(p, i, cfg);
      assert only[1..] == [];
      assert Texts(only)[1..] == [];
    }
  }

  lemma RecoveredExactly(p: string, cfg: ChunkConfig)
    requires cfg.chunkSize > 0 && Sliceable(p, cfg)
    ensures Recovered(p, cfg) == p <==> cfg.overlap >= 0 || !Long(p, cfg)
  {
    if cfg.overlap < 0 { GapsLoseText(p, 0, cfg); }
  }

  lemma {:induction false} LaterWindows(p: string, i: nat, cfg: ChunkConfig)
    requires cfg.chunkSize > 0 && cfg.overlap < cfg.chunkSize && i > 0
    ensures forall k :: 0 <= k < |SlicesFrom(p, i, cfg)| ==> !SlicesFrom(p, i, cfg)[k].first
    decreases |p| - i
  {
    if i < |p| && i + cfg.chunkSize < |p| { LaterWindows(p, i + (cfg.chunkSize - cfg.overlap), cfg); }
  }

  /** Later windows put side by side. */
  lemma {:induction false} RebuildGaps(paras: seq<string>, known: string, windows: seq<Chunk>)
    requires forall k :: 0 <= k < |windows| ==> windows[k].Slice? && !windows[k].first
    ensures Rebuild(paras + [known], windows, 0) == paras + [known + Concat(Texts(windows))]
    decreases |windows|
  {
    if windows == [] {
      assert known + Concat(Texts(windows)) == known;
    } else {
      var t := windows[0].text;
      UndoLater(paras, known, t, 0);
      assert t[0..] == t;
      RebuildGaps(paras, known + t, windows[1..]);
      assert Texts(windows)[1..] == Texts(windows[1..]);
      assert known + t + Concat(Texts(windows[1..])) == known + (t + Concat(Texts(windows[1..])));
    }
  }

  lemma RebuildWithGaps(paras: seq<string>, p: string, cfg: ChunkConfig)
    requires cfg.chunkSize > 0 > cfg.overlap && Long(p, cfg)
    ensures Rebuild(paras, SlicesFrom(p, 0, cfg), 0) == paras + [Concat(Texts(SlicesFrom(p, 0, cfg)))]
  {
    var first, rest := FirstSlice(p, cfg);
    LaterWindows(p, cfg.chunkSize - cfg.overlap, cfg);
    UndoFirst(paras, first, 0);
    RebuildCons(paras, SlicesFrom(p, 0, cfg), Slice(first, true), rest, 0);
    RebuildGaps(paras, first, rest);
    assert SlicesFrom(p, 0, cfg)[1..] == rest;
    assert Texts(SlicesFrom(p, 0, cfg))[1..] == Texts(rest);
  }

  lemma RebuildSlices(paras: seq<string>, p: string, cfg: ChunkConfig)
    requires cfg.chunkSize > 0 && (cfg.overlap < cfg.chunkSize || |p| <= cfg.chunkSize) && p != []
    ensures Rebuild(paras, SlicesFrom(p, 0, cfg), Dropped(cfg)) == paras + [Recovered(p, cfg)]
  {
    hide Concat;
    if cfg.overlap < 0 && Long(p, cfg) {
      RebuildWithGaps(paras, p, cfg);
    } else {
      var first, rest := FirstSlice(p, cfg);
      assert Rebuild(paras + [first], rest, Dropped(cfg)) == paras + [p] by {
        if |p| > cfg.chunkSize {
          RebuildLaterSlices(paras, p, cfg.chunkSize - cfg.overlap, cfg, first);
        }
      }
      UndoFirst(paras, first, Dropped(cfg));
      RebuildCons(paras, SlicesFrom(p, 0, cfg), Slice(first, true), rest, Dropped(cfg));
    }
  }

  predicate AllClean(paras: seq<string>) {
    forall k :: 0 <= k < |paras| ==> CleanParagraph(paras[k])
  }

  lemma JoinNonEmpty(ps: seq<string>)
    requires ps != [] && AllClean(ps)
    ensures Join(ps, PARAGRAPH_BREAK) != ""
  {
  }

  lemma RebuildFlushed(done: seq<string>, waiting: seq<string>, overlap: nat)
    requires AllClean(waiting)
    ensures Rebuild(done, Flushed(Join(waiting, PARAGRAPH_BREAK)), overlap) == done + waiting
  {
    if waiting != [] {
      SplitAfterJoin(waiting);
      JoinNonEmpty(waiting);
      assert Flushed(Join(waiting, PARAGRAPH_BREAK))[1..] == [];
    }
  }

  /** One round of packing, with the open chunk given by its paragraphs. */
  lemma PackOneShape(waiting: seq<string>, para: string, cfg: ChunkConfig)
      returns (emitted: seq<Chunk>, kept: seq<string>)
    requires cfg.chunkSize > 0 && Sliceable(para, cfg) && para != "" && AllClean(waiting)
    ensures (emitted == [] && kept == waiting)
         || (emitted == Flushed(Join(waiting, PARAGRAPH_BREAK)) && kept == [] && waiting != []
             && NeedsFlush(Join(waiting, PARAGRAPH_BREAK), para, cfg))
    ensures ByteLen(para) > cfg.chunkSize ==>
      kept == [] && PackOne(para, cfg, Join(waiting, PARAGRAPH_BREAK)) == (emitted + SlicesFrom(para, 0, cfg), "")
    ensures ByteLen(para) <= cfg.chunkSize ==>
      PackOne(para, cfg, Join(waiting, PARAGRAPH_BREAK)) == (emitted, Join(kept + [para], PARAGRAPH_BREAK))
  {
    var current := Join(waiting, PARAGRAPH_BREAK);
    if waiting != [] { JoinNonEmpty(waiting); }
    if NeedsFlush(current, para, cfg) {
      emitted, kept := [Packed(current)], [];
    } else {
      emitted, kept := [], waiting;
    }
    JoinSnoc(kept, para, PARAGRAPH_BREAK);
  }

  lemma RebuildOne(done: seq<string>, waiting: seq<string>, para: string, cfg: ChunkConfig)
      returns (done': seq<string>, waiting': seq<string>)
    requires cfg.chunkSize > 0 && Sliceable(para, cfg) && CleanParagraph(para) && AllClean(waiting)
    ensures var (emitted, current) := PackOne(para, cfg, Join(waiting, PARAGRAPH_BREAK));
            Rebuild(done, emitted, Dropped(cfg)) == done' && current == Join(waiting', PARAGRAPH_BREAK)
    ensures done' + waiting' == done + waiting + [Recovered(para, cfg)] && AllClean(waiting')
  {
    hide Concat;
    var emitted, kept := PackOneShape(waiting, para, cfg);
    RebuildFlushed(done, waiting, Dropped(cfg));
    var undone := Rebuild(done, emitted, Dropped(cfg));
    assert undone + kept == done + waiting;
    if ByteLen(para) > cfg.chunkSize {
      RebuildConcat(done, emitted, SlicesFrom(para, 0, cfg), Dropped(cfg));
      RebuildSlices(undone, para, cfg);
      done', waiting' := undone + [Recovered(para, cfg)], [];
    } else {
      done', waiting' := undone, kept + [para];
      assert undone + (kept + [para]) == (undone + kept) + [para];
    }
  }

  lemma RebuildHead(done: seq<string>, paras: seq<string>, cfg: ChunkConfig, current: string)
    requires cfg.chunkSize > 0 && SlicingEnds(paras, cfg) && paras != []
    ensures var (emitted, waiting) := PackOne(paras[0], cfg, current);
            Rebuild(done, Pack(paras, cfg, current), Dropped(cfg)) ==
            Rebuild(Rebuild(done, emitted, Dropped(cfg)), Pack(paras[1..], cfg, waiting), Dropped(cfg))
  {
    var (emitted, waiting) := PackOne(paras[0], cfg, current);
    RebuildConcat(done, emitted, Pack(paras[1..], cfg, waiting), Dropped(cfg));
  }

  lemma {:induction false} RebuildPack(done: seq<string>, waiting: seq<string>, paras: seq<string>, cfg: ChunkConfig,
                                       all: seq<string>)
    requires cfg.chunkSize > 0 && SlicingEnds(paras, cfg) && AllClean(paras) && AllClean(waiting)
    requires all == done + waiting + AllRecovered(paras, cfg)
    ensures Rebuild(done, Pack(paras, cfg, Join(waiting, PARAGRAPH_BREAK)), Dropped(cfg)) == all
    decreases |paras|
  {
    hide Recovered, CleanParagraph;
    if paras == [] {
      RebuildFlushed(done, waiting, Dropped(cfg));
    } else {
      var done', waiting' := RebuildOne(done, waiting, paras[0], cfg);
      RebuildHead(done, paras, cfg, Join(waiting, PARAGRAPH_BREAK));
      assert AllRecovered(paras, cfg)[1..] == AllRecovered(paras[1..], cfg);
      MoveHead(done + waiting, AllRecovered(paras, cfg), done' + waiting');
      RebuildPack(done', waiting', paras[1..], cfg, all);
    }
  }

  lemma MoveHead(a: seq<string>, b: seq<string>, c: seq<string>)
    requires b != [] && c == a + [b[0]]
    ensures c + b[1..] == a + b
  {}

  lemma {:induction false} KeptAreClean(pieces: seq<string>)
    requires forall k :: 0 <= k < |pieces| ==> NoBreak(pieces[k])
    ensures AllClean(Kept(pieces))
  {
    if pieces != [] {
      TrimmedIsClean(pieces[0]);
      KeptAreClean(pieces[1..]);
    }
  }

  lemma TrimmedIsClean(piece: string)
    requires NoBreak(piece)
    ensures TrimSpace(piece) != "" ==> CleanParagraph(TrimSpace(piece))
  {
    var p := TrimSpace(piece);
    var front, back := TrimShape(piece);
    forall i | 0 <= i < |p| - 1 ensures !(p[i] == '\n' && p[i+1] == '\n') {
      var k := |front| + i;
      assert piece[k] == p[i] && piece[k+1] == p[i+1];
    }
  }

  lemma ParagraphsAreClean(text: string)
    ensures AllClean(Paragraphs(text))
  {
    SplitHasNoBreak(text);
    KeptAreClean(Split(text));
  }

  /** Undoing the chunks gives back every paragraph, in order, as far as its
      windows cover it. */
  lemma ChunkingRecovers(text: string, cfg: ChunkConfig)
    requires Terminates(text, cfg)
    ensures Rebuild([], Plan(text, cfg), Dropped(Effective(cfg))) == AllRecovered(Paragraphs(text), Effective(cfg))
  {
    hide Concat, Recovered;
    ParagraphsAreClean(text);
    RebuildPack([], [], Paragraphs(text), Effective(cfg), AllRecovered(Paragraphs(text), Effective(cfg)));
  }

  /** Chunking loses nothing if and only if the overlap is not negative or no
      paragraph needs a second window. */
  lemma LosslessExactly(text: string, cfg: ChunkConfig)
    requires Terminates(text, cfg)
    ensures Rebuild([], Plan(text, cfg), Dropped(Effective(cfg))) == Paragraphs(text)
       <==> Effective(cfg).overlap >= 0
            || forall k :: 0 <= k < |Paragraphs(text)| ==> !Long(Paragraphs(text)[k], Effective(cfg))
  {
    hide Recovered, Rebuild, Plan, Paragraphs, Long, Effective;
    var paras, e := Paragraphs(text), Effective(cfg);
    ChunkingRecovers(text, cfg);
    forall k | 0 <= k < |paras| ensures Recovered(paras[k], e) == paras[k] <==> e.overlap >= 0 || !Long(paras[k], e) {
      RecoveredExactly(paras[k], e);
    }
    var back := AllRecovered(paras, e);
    assert forall k :: 0 <= k < |paras| ==> back[k] == Recovered(paras[k], e);
  }

  /** With an ordinary overlap chunking loses and reorders nothing. */
  lemma ChunkingIsLossless(text: string, cfg: ChunkConfig)
    requires 0 <= Effective(cfg).overlap < Effective(cfg).chunkSize
    ensures Rebuild([], Plan(text, cfg), Effective(cfg).overlap) == Paragraphs(text)
  {
    hide Rebuild, Plan, Paragraphs;
    LosslessExactly(text, cfg);
  }

  // ----- empty exactly for blank text -----

  lemma {:induction false} BlankJoin(ps: seq<string>)
    ensures Blank(Join(ps, PARAGRAPH_BREAK)) <==> forall p :: p in ps ==> Blank(p)
  {
    if |ps| > 1 {
      BlankJoin(ps[1..]);
      var a, b := ps[0] + PARAGRAPH_BREAK, Join(ps[1..], PARAGRAPH_BREAK);
      BlankConcat(ps[0], PARAGRAPH_BREAK);
      BlankConcat(a, b);
      assert forall p :: p in ps <==> p == ps[0] || p in ps[1..];
    } else if |ps| == 1 {
      assert forall p :: p in ps <==> p == ps[0];
    }
  }

  lemma BlankConcat(a: string, b: string)
    ensures Blank(a + b) <==> Blank(a) && Blank(b)
  {
    var s := a + b;
    if Blank(s) {
      assert forall i :: 0 <= i < |a| ==> a[i] == s[i];
      forall i | 0 <= i < |b| ensures IsSpace(b[i]) { assert b[i] == s[|a| + i]; }
    }
  }

  lemma {:induction false} KeptEmpty(pieces: seq<string>)
    ensures Kept(pieces) == [] <==> forall p :: p in pieces ==> Blank(p)
  {
    if pieces != [] {
      KeptEmpty(pieces[1..]);
      var front, back := TrimShape(pieces[0]);
      assert forall p :: p in pieces <==> p == pieces[0] || p in pieces[1..];
    }
  }

  lemma {:induction false} PackEmpty(paras: seq<string>, cfg: ChunkConfig, current: string)
    requires cfg.chunkSize > 0 && SlicingEnds(paras, cfg) && forall k :: 0 <= k < |paras| ==> paras[k] != ""
    ensures Pack(paras, cfg, current) == [] <==> current == "" && paras == []
    decreases |paras|
  {
    if paras != [] {
      PackEmpty(paras[1..], cfg, PackOne(paras[0], cfg, current).1);
    }
  }

  /** There is no chunk exactly when the text is blank, so the fallback that
      emits the whole trimmed text never runs. */
  lemma EmptyIffBlank(text: string, cfg: ChunkConfig)
    requires Terminates(text, cfg)
    ensures ChunksOf(text, cfg) == [] <==> Blank(text)
    ensures Blank(text) <==> TrimSpace(text) == ""
  {
    var front, back := TrimShape(text);
    JoinAfterSplit(text);
    BlankJoin(Split(text));
    KeptEmpty(Split(text));
    ParagraphsAreClean(text);
    PackEmpty(Paragraphs(text), Effective(cfg), "");
    assert |ChunksOf(text, cfg)| == |Plan(text, cfg)|;
  }

  // ----- sizes and counts -----

  predicate SizeOk(chunk: Chunk, cfg: ChunkConfig) {
    match chunk
    case Packed(t) => ByteLen(t) <= cfg.chunkSize + 1
    case Slice(t, _) => |t| <= cfg.chunkSize
  }

  lemma {:induction false} SliceSizes(p: string, i: nat, cfg: ChunkConfig)
    requires cfg.chunkSize > 0 && (cfg.overlap < cfg.chunkSize || |p| <= cfg.chunkSize)
    ensures forall c :: c in SlicesFrom(p, i, cfg) ==> SizeOk(c, cfg)
    decreases |p| - i
  {
    if i < |p| && i + cfg.chunkSize < |p| {
      SliceSizes(p, i + (cfg.chunkSize - cfg.overlap), cfg);
    }
  }

  lemma PackOneSizes(para: string, cfg: ChunkConfig, current: string)
    requires cfg.chunkSize > 0 && Sliceable(para, cfg) && ByteLen(current) <= cfg.chunkSize + 1
    ensures forall c :: c in PackOne(para, cfg, current).0 ==> SizeOk(c, cfg)
    ensures ByteLen(PackOne(para, cfg, current).1) <= cfg.chunkSize + 1
  {
    if ByteLen(para) > cfg.chunkSize {
      SliceSizes(para, 0, cfg);
    } else {
      AppendedLen(current, para);
      AppendedLen("", para);
    }
  }

  lemma {:induction false} PackSizes(paras: seq<string>, cfg: ChunkConfig, current: string)
    requires cfg.chunkSize > 0 && SlicingEnds(paras, cfg) && ByteLen(current) <= cfg.chunkSize + 1
    ensures forall c :: c in Pack(paras, cfg, current) ==> SizeOk(c, cfg)
    decreases |paras|
  {
    if paras != [] {
      PackOneSizes(paras[0], cfg, current);
      PackSizes(paras[1..], cfg, PackOne(paras[0], cfg, current).1);
    }
  }

  /** A packed chunk has at most one byte more than the configured size, a slice
      at most the configured number of characters. */
  lemma ChunkSizes(text: string, cfg: ChunkConfig)
    requires Terminates(text, cfg)
    ensures forall c :: c in Plan(text, cfg) ==> SizeOk(c, Effective(cfg))
  {
    PackSizes(Paragraphs(text), Effective(cfg), "");
  }

  predicate Overfull(chunk: Chunk, cfg: ChunkConfig) {
    chunk.Packed? && ByteLen(chunk.text) > cfg.chunkSize
  }

  /** The paragraph joins a waiting chunk with exactly one byte to spare: the room
      test counts one byte for the joint, two are written. */
  predicate TightJoin(para: string, cfg: ChunkConfig, current: string) {
    current != "" && ByteLen(para) <= cfg.chunkSize && ByteLen(current) + ByteLen(para) + 1 == cfg.chunkSize
  }

  /** Some paragraph does, when packing goes on with `current` waiting. */
  predicate SomeTightJoin(paras: seq<string>, cfg: ChunkConfig, current: string)
    requires cfg.chunkSize > 0 && SlicingEnds(paras, cfg)
  {
    paras != []
    && (TightJoin(paras[0], cfg, current) || SomeTightJoin(paras[1..], cfg, PackOne(paras[0], cfg, current).1))
  }

  predicate AnyOverfull(chunks: seq<Chunk>, cfg: ChunkConfig) {
    exists k :: 0 <= k < |chunks| && Overfull(chunks[k], cfg)
  }

  lemma AnyOverfullConcat(a: seq<Chunk>, b: seq<Chunk>, cfg: ChunkConfig)
    ensures AnyOverfull(a + b, cfg) <==> AnyOverfull(a, cfg) || AnyOverfull(b, cfg)
  {
    if k :| 0 <= k < |a| && Overfull(a[k], cfg) { assert (a + b)[k] == a[k]; }
    if k :| 0 <= k < |b| && Overfull(b[k], cfg) { assert (a + b)[|a| + k] == b[k]; }
    if k :| 0 <= k < |a + b| && Overfull((a + b)[k], cfg) {
      if k < |a| { assert a[k] == (a + b)[k]; } else { assert b[k - |a|] == (a + b)[k]; }
    }
  }

  lemma SlicesNotOverfull(p: string, i: nat, cfg: ChunkConfig)
    requires cfg.chunkSize > 0 && (cfg.overlap < cfg.chunkSize || |p| <= cfg.chunkSize)
    ensures !AnyOverfull(SlicesFrom(p, i, cfg), cfg)
  {}

  /** One paragraph: what is emitted is overfull only if it was waiting overfull,
      and what waits is overfull only after a tight join or if it was before. */
  lemma OneOverfull(para: string, cfg: ChunkConfig, current: string)
    requires cfg.chunkSize > 0 && Sliceable(para, cfg) && para != ""
    ensures var (emitted, waiting) := PackOne(para, cfg, current);
            (AnyOverfull(emitted, cfg) || ByteLen(waiting) > cfg.chunkSize
             <==> ByteLen(current) > cfg.chunkSize || TightJoin(para, cfg, current))
  {
    hide Overfull, AnyOverfull, SlicesFrom;
    AppendedLen(current, para);
    AppendedLen("", para);
    var emitted := if NeedsFlush(current, para, cfg) then [Packed(current)] else [];
    FlushOverfull(current, emitted, cfg);
    if ByteLen(para) > cfg.chunkSize {
      AnyOverfullConcat(emitted, SlicesFrom(para, 0, cfg), cfg);
      SlicesNotOverfull(para, 0, cfg);
    }
  }

  lemma FlushOverfull(current: string, emitted: seq<Chunk>, cfg: ChunkConfig)
    requires emitted == [] || emitted == [Packed(current)]
    ensures AnyOverfull(emitted, cfg) <==> emitted != [] && ByteLen(current) > cfg.chunkSize
  {
    if emitted != [] { assert emitted[0] == Packed(current); }
  }

  lemma {:induction false} PackOverfull(paras: seq<string>, cfg: ChunkConfig, current: string)
    requires cfg.chunkSize > 0 && SlicingEnds(paras, cfg) && forall k :: 0 <= k < |paras| ==> paras[k] != ""
    ensures AnyOverfull(Pack(paras, cfg, current), cfg)
       <==> ByteLen(current) > cfg.chunkSize || SomeTightJoin(paras, cfg, current)
    decreases |paras|
  {
    hide Overfull, AnyOverfull, TightJoin, PackOne;
    if paras == [] {
      FlushOverfull(current, Flushed(current), cfg);
    } else {
      var (emitted, waiting) := PackOne(paras[0], cfg, current);
      OneOverfull(paras[0], cfg, current);
      PackOverfull(paras[1..], cfg, waiting);
      AnyOverfullConcat(emitted, Pack(paras[1..], cfg, waiting), cfg);
    }
  }

  /** A packed chunk exceeds the configured size, by one byte, if and only if some
      paragraph joins a waiting chunk with exactly one byte to spare. */
  lemma PackedChunkExceedsExactly(text: string, cfg: ChunkConfig)
    requires Terminates(text, cfg)
    ensures (exists k :: 0 <= k < |Plan(text, cfg)| && Overfull(Plan(text, cfg)[k], Effective(cfg)))
       <==> SomeTightJoin(Paragraphs(text), Effective(cfg), "")
  {
    hide Overfull, SomeTightJoin;
    ParagraphsAreClean(text);
    PackOverfull(Paragraphs(text), Effective(cfg), "");
    assert Plan(text, cfg) == Pack(Paragraphs(text), Effective(cfg), "");
  }

  /** The extra byte does occur: the joint counts one byte when room is checked
      and two when it is written. */
  lemma PackedChunkMayExceedSize()
    ensures var cfg := ChunkConfig(3, 0);
            Plan("a\n\nb", cfg) == [Packed("a\n\nb")] && ByteLen("a\n\nb") == cfg.chunkSize + 1
  {
    var t := "a\n\nb";
    assert Split("b") == ["b"];
    assert t[1..] == "\n\nb" && t[1..][2..] == "b";
    assert Split(t[1..]) == ["", "b"];
    assert [t[0]] + "" == "a";
    assert Split(t) == ["a", "b"];
    assert TrimSpace("a") == "a" && TrimSpace("b") == "b";
    assert Kept(["b"]) == ["b"];
    assert ["a", "b"][1..] == ["b"];
    assert Paragraphs(t) == ["a", "b"];
    var cfg := ChunkConfig(3, 0);
    assert ByteLen("a") == 1 && ByteLen("b") == 1;
    assert Pack([], cfg, t) == [Packed(t)];
    assert ["b"][1..] == [];
    assert "a" + PARAGRAPH_BREAK + "b" == t;
    assert Pack(["b"], cfg, "a") == [Packed(t)];
    assert ByteLen(t[3..]) == 1 && ByteLen(t[2..]) == 2 && ByteLen(t[1..]) == 3;
  }

  function CeilDiv(a: int, b: int): int
    requires b > 0
  {
    (a + b - 1) / b
  }

  lemma CeilDivStep(a: int, b: int)
    requires b > 0
    ensures CeilDiv(a + b, b) == CeilDiv(a, b) + 1
  {
    assert (a + b + b - 1) == (a + b - 1) + b;
    DivAddOne(a + b - 1, b);
  }

  lemma DivAddOne(x: int, b: int)
    requires b > 0
    ensures (x + b) / b == x / b + 1
  {
    var q, r := x / b, x % b;
    assert x + b == (q + 1) * b + r;
    DivUnique(x + b, b, q + 1, r);
  }

  lemma DivUnique(x: int, b: int, q: int, r: int)
    requires b > 0 && 0 <= r < b && x == q * b + r
    ensures x / b == q
  {
    var k := x / b - q;
    assert x == (x / b) * b + x % b;
    assert k * b == r - x % b;
    if k >= 1 { MulAtLeast(k, b); }
    if k <= -1 { MulAtLeast(-k, b); }
  }

  lemma MulAtLeast(k: int, b: int)
    requires k >= 1 && b > 0
    ensures k * b >= b
  {}

  lemma {:induction false} LaterSliceCount(p: string, i: nat, cfg: ChunkConfig)
    requires 0 <= cfg.overlap < cfg.chunkSize && i + cfg.overlap < |p|
    ensures |SlicesFrom(p, i, cfg)| == CeilDiv(|p| - i - cfg.overlap, cfg.chunkSize - cfg.overlap)
    decreases |p| - i
  {
    var step := cfg.chunkSize - cfg.overlap;
    var left := |p| - i - cfg.overlap;
    if i + cfg.chunkSize >= |p| {
      assert 0 < left <= step;
      DivUnique(left + step - 1, step, 1, left - 1);
    } else {
      LaterSliceCount(p, i + step, cfg);
      CeilDivStep(left - step, step);
    }
  }

  /** A sliced paragraph of n > ChunkSize characters gives exactly
      ceil((n - Overlap) / (ChunkSize - Overlap)) windows; a shorter one, sliced
      because of its byte length, gives one. */
  lemma SliceCount(p: string, cfg: ChunkConfig)
    requires 0 <= cfg.overlap < cfg.chunkSize && p != ""
    ensures |SlicesFrom(p, 0, cfg)| ==
            if |p| > cfg.chunkSize then CeilDiv(|p| - cfg.overlap, cfg.chunkSize - cfg.overlap) else 1
  {
    if |p| > cfg.chunkSize {
      LaterSliceCount(p, 0, cfg);
    }
  }

  // ----- packing is greedy -----

  /** The chunk emitted first starts with the paragraph that waits longest. */
  lemma {:induction false} FirstPacked(waiting: seq<string>, paras: seq<string>, cfg: ChunkConfig, head: string)
    requires cfg.chunkSize > 0 && SlicingEnds(paras, cfg) && AllClean(paras) && AllClean(waiting)
    requires if waiting != [] then head == waiting[0] else paras != [] && head == paras[0]
    ensures var plan := Pack(paras, cfg, Join(waiting, PARAGRAPH_BREAK));
            plan != [] && (plan[0].Packed? ==> Split(plan[0].text)[0] == head)
    decreases |paras|
  {
    if waiting != [] {
      SplitAfterJoin(waiting);
      JoinNonEmpty(waiting);
    }
    if paras != [] {
      var emitted, kept := PackOneShape(waiting, paras[0], cfg);
      if emitted == [] && ByteLen(paras[0]) <= cfg.chunkSize {
        FirstPacked(waiting + [paras[0]], paras[1..], cfg, head);
      }
    }
  }

  /** Neighbouring packed chunks could not have shared their joint: with the
      paragraph that opens the second one, the first would have been too long. */
  ghost predicate Greedy(plan: seq<Chunk>, cfg: ChunkConfig) {
    forall i :: 0 <= i < |plan| - 1 && plan[i].Packed? && plan[i+1].Packed? ==>
      ByteLen(plan[i].text) + ByteLen(Split(plan[i+1].text)[0]) + 1 > cfg.chunkSize
  }

  lemma {:induction false} PackGreedy(waiting: seq<string>, paras: seq<string>, cfg: ChunkConfig)
    requires cfg.chunkSize > 0 && SlicingEnds(paras, cfg) && AllClean(paras) && AllClean(waiting)
    ensures Greedy(Pack(paras, cfg, Join(waiting, PARAGRAPH_BREAK)), cfg)
    decreases |paras|
  {
    if paras == [] { return; }
    var para, rest := paras[0], paras[1..];
    var emitted, kept := PackOneShape(waiting, para, cfg);
    if ByteLen(para) > cfg.chunkSize {
      PackGreedy([], rest, cfg);
      GreedyConcat(emitted, SlicesFrom(para, 0, cfg), Pack(rest, cfg, ""), cfg);
    } else {
      PackGreedy(kept + [para], rest, cfg);
      FirstPacked(kept + [para], rest, cfg, (kept + [para])[0]);
      GreedyCons(emitted, Pack(rest, cfg, Join(kept + [para], PARAGRAPH_BREAK)), cfg);
    }
  }

  lemma GreedyCons(emitted: seq<Chunk>, tail: seq<Chunk>, cfg: ChunkConfig)
    requires |emitted| <= 1 && tail != [] && Greedy(tail, cfg)
    requires emitted != [] && emitted[0].Packed? && tail[0].Packed? ==>
      ByteLen(emitted[0].text) + ByteLen(Split(tail[0].text)[0]) + 1 > cfg.chunkSize
    ensures Greedy(emitted + tail, cfg)
  {
    var plan := emitted + tail;
    forall i | 0 <= i < |plan| - 1 && plan[i].Packed? && plan[i+1].Packed?
      ensures ByteLen(plan[i].text) + ByteLen(Split(plan[i+1].text)[0]) + 1 > cfg.chunkSize
    {
      if i >= |emitted| {
        var k := i - |emitted|;
        assert plan[i] == tail[k] && plan[i+1] == tail[k+1];
      }
    }
  }

  lemma GreedyConcat(emitted: seq<Chunk>, slices: seq<Chunk>, tail: seq<Chunk>, cfg: ChunkConfig)
    requires |emitted| <= 1 && slices != [] && (forall k :: 0 <= k < |slices| ==> slices[k].Slice?) && Greedy(tail, cfg)
    ensures Greedy(emitted + slices + tail, cfg)
  {
    var plan := slices + tail;
    assert slices[0] in slices;
    assert forall i :: 0 <= i < |slices| ==> plan[i] == slices[i] && slices[i].Slice?;
    forall i | 0 <= i < |plan| - 1 && plan[i].Packed? && plan[i+1].Packed?
      ensures ByteLen(plan[i].text) + ByteLen(Split(plan[i+1].text)[0]) + 1 > cfg.chunkSize
    {
      var k := i - |slices|;
      assert plan[i] == tail[k] && plan[i+1] == tail[k+1];
    }
    GreedyCons(emitted, plan, cfg);
    assert emitted + plan == emitted + slices + tail;
  }

  /** Packing puts as many paragraphs into each chunk as the size test admits. */
  lemma ChunkingIsGreedy(text: string, cfg: ChunkConfig)
    requires Terminates(text, cfg)
    ensures Greedy(Plan(text, cfg), Effective(cfg))
  {
    ParagraphsAreClean(text);
    PackGreedy([], Paragraphs(text), Effective(cfg));
  }

  /** A chunk size of zero or less stands for 500 characters with an overlap of 50,
      whatever overlap was given; any other configuration is taken as it is. */
  lemma DefaultSizes(text: string, cfg: ChunkConfig)
    requires Terminates(text, cfg)
    ensures var used := if cfg.chunkSize > 0 then cfg else ChunkConfig(500, 50);
            Terminates(text, used) && ChunksOf(text, cfg) == ChunksOf(text, used)
  {}
}
