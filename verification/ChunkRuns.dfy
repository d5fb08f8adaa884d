/** `ChunkText` as a machine that takes one loop round at a time, so that ending,
    looping for ever and crashing can be told apart. */
module ChunkRuns {
  import opened Chunking
  import opened Text

  /** Between two rounds of the paragraph loop, between two rounds of the slicing
      loop, returned, or stopped by a slice with a negative start. */
  datatype State =
    | Packing(pieces: seq<string>, chunks: seq<string>, current: string)
    | Slicing(para: string, cursor: int, pieces: seq<string>, chunks: seq<string>, current: string)
    | Returned(chunks: seq<string>)
    | Crashed

  /** The last lines of `ChunkText`. */
  function Finish(text: string, chunks: seq<string>, current: string): seq<string> {
    var all := if current == "" then chunks else chunks + [current];
    if all == [] && TrimSpace(text) != "" then [TrimSpace(text)] else all
  }

  function Step(text: string, cfg: ChunkConfig, s: State): State
    requires cfg.chunkSize > 0
  {
    match s
    case Packing(pieces, chunks, current) =>
      if pieces == [] then Returned(Finish(text, chunks, current))
      else
        var para, rest := TrimSpace(pieces[0]), pieces[1..];
        if para == "" then Packing(rest, chunks, current)
        else
          var flush := NeedsFlush(current, para, cfg);
          var emitted, open := if flush then chunks + [current] else chunks, if flush then "" else current;
          if ByteLen(para) > cfg.chunkSize then Slicing(para, 0, rest, emitted, open)
          else Packing(rest, emitted, Appended(open, para))
    case Slicing(para, i, rest, chunks, current) =>
      if i >= |para| then Packing(rest, chunks, current)
      else if i < 0 then Crashed
      else
        var end := Min(i + cfg.chunkSize, |para|);
        if end >= |para| then Packing(rest, chunks + [para[i..end]], current)
        else Slicing(para, i + (cfg.chunkSize - cfg.overlap), rest, chunks + [para[i..end]], current)
    case Returned(_) => s
    case Crashed => s
  }

  function Start(text: string): State {
    if text == "" then Returned([]) else Packing(Split(text), [], "")
  }

  /** The state after `n` rounds. */
  function After(text: string, cfg: ChunkConfig, s: State, n: nat): State
    requires cfg.chunkSize > 0
  {
    if n == 0 then s else Step(text, cfg, After(text, cfg, s, n - 1))
  }

  /** A whole call, with the configuration the code really uses. */
  function Run(text: string, cfg: ChunkConfig, n: nat): State {
    After(text, Effective(cfg), Start(text), n)
  }

  ghost predicate Returns(text: string, cfg: ChunkConfig, chunks: seq<string>) {
    exists n: nat :: Run(text, cfg, n) == Returned(chunks)
  }

  ghost predicate Crashes(text: string, cfg: ChunkConfig) {
    exists n: nat :: Run(text, cfg, n) == Crashed
  }

  ghost predicate LoopsForever(text: string, cfg: ChunkConfig) {
    forall n: nat :: !Run(text, cfg, n).Returned? && Run(text, cfg, n) != Crashed
  }

  // ----- runs in pieces -----

  lemma {:induction false} AfterTwo(text: string, cfg: ChunkConfig, s: State, m: nat, n: nat)
    requires cfg.chunkSize > 0
    ensures After(text, cfg, s, m + n) == After(text, cfg, After(text, cfg, s, m), n)
    decreases n
  {
    hide Step;
    if n > 0 { AfterTwo(text, cfg, s, m, n - 1); }
  }

  lemma AfterFirst(text: string, cfg: ChunkConfig, s: State, n: nat)
    requires cfg.chunkSize > 0
    ensures After(text, cfg, s, n + 1) == After(text, cfg, Step(text, cfg, s), n)
  {
    hide Step;
    AfterTwo(text, cfg, s, 1, n);
    assert After(text, cfg, s, 1) == Step(text, cfg, After(text, cfg, s, 0));
  }

  /** A call that has returned or crashed stays so. */
  lemma {:induction false} EndIsFinal(text: string, cfg: ChunkConfig, s: State, n: nat)
    requires cfg.chunkSize > 0 && (s.Returned? || s == Crashed)
    ensures After(text, cfg, s, n) == s
  {
    if n > 0 { EndIsFinal(text, cfg, s, n - 1); }
  }

  // ----- slicing one paragraph -----

  /** The slicing loop of a paragraph that is short enough or moves forward. */
  lemma {:induction false} SlicingFinishes(text: string, cfg: ChunkConfig, para: string, i: nat,
                                           rest: seq<string>, chunks: seq<string>, current: string) returns (n: nat)
    requires cfg.chunkSize > 0 && (cfg.overlap < cfg.chunkSize || |para| <= cfg.chunkSize)
    ensures After(text, cfg, Slicing(para, i, rest, chunks, current), n)
         == Packing(rest, chunks + Texts(SlicesFrom(para, i, cfg)), current)
    decreases |para| - i
  {
    hide Step, After, SlicesFrom, Texts;
    var s := Slicing(para, i, rest, chunks, current);
    OneRound(text, cfg, s);
    if i >= |para| {
      n := 1;
      NoWindows(para, i, cfg);
      SlicingRound(text, cfg, para, i, rest, chunks, current);
      assert chunks + [] == chunks;
    } else {
      var end := Min(i + cfg.chunkSize, |para|);
      WindowsFrom(para, i, cfg);
      SlicingRound(text, cfg, para, i, rest, chunks, current);
      if end >= |para| {
        n := 1;
      } else {
        var next := i + (cfg.chunkSize - cfg.overlap);
        var m := SlicingFinishes(text, cfg, para, next, rest, chunks + [para[i..end]], current);
        AfterFirst(text, cfg, s, m);
        Regroup(chunks, [para[i..end]], Texts(SlicesFrom(para, next, cfg)));
        n := m + 1;
      }
    }
  }

  lemma OneRound(text: string, cfg: ChunkConfig, s: State)
    requires cfg.chunkSize > 0
    ensures After(text, cfg, s, 1) == Step(text, cfg, s)
  {
    hide Step;
    assert After(text, cfg, s, 1) == Step(text, cfg, After(text, cfg, s, 0));
  }

  lemma SlicingRound(text: string, cfg: ChunkConfig, para: string, i: nat,
                     rest: seq<string>, chunks: seq<string>, current: string)
    requires cfg.chunkSize > 0
    ensures var end := Min(i + cfg.chunkSize, |para|);
            Step(text, cfg, Slicing(para, i, rest, chunks, current)) ==
            if i >= |para| then Packing(rest, chunks, current)
            else if end >= |para| then Packing(rest, chunks + [para[i..end]], current)
            else Slicing(para, i + (cfg.chunkSize - cfg.overlap), rest, chunks + [para[i..end]], current)
  {}

  lemma NoWindows(para: string, i: nat, cfg: ChunkConfig)
    requires cfg.chunkSize > 0 && (cfg.overlap < cfg.chunkSize || |para| <= cfg.chunkSize) && i >= |para|
    ensures Texts(SlicesFrom(para, i, cfg)) == []
  {}

  lemma Regroup(a: seq<string>, b: seq<string>, c: seq<string>)
    ensures a + b + c == a + (b + c)
  {}

  lemma WindowsFrom(para: string, i: nat, cfg: ChunkConfig)
    requires cfg.chunkSize > 0 && (cfg.overlap < cfg.chunkSize || |para| <= cfg.chunkSize) && i < |para|
    ensures var end := Min(i + cfg.chunkSize, |para|);
            Texts(SlicesFrom(para, i, cfg)) == [para[i..end]]
            + if end >= |para| then [] else Texts(SlicesFrom(para, i + (cfg.chunkSize - cfg.overlap), cfg))
  {
    var end := Min(i + cfg.chunkSize, |para|);
    var first := [Slice(para[i..end], i == 0)];
    assert first[1..] == [];
    if end < |para| { TextsConcat(first, SlicesFrom(para, i + (cfg.chunkSize - cfg.overlap), cfg)); }
  }

  function Copies(window: string, n: nat): seq<string> {
    if n == 0 then [] else Copies(window, n - 1) + [window]
  }

  /** With the overlap equal to the chunk size, every round of the slicing loop
      stays at the start and appends the same window again. */
  lemma {:induction false} SlicingRepeats(text: string, cfg: ChunkConfig, para: string,
                                          rest: seq<string>, chunks: seq<string>, current: string, n: nat)
    requires cfg.overlap == cfg.chunkSize > 0 && Long(para, cfg)
    ensures After(text, cfg, Slicing(para, 0, rest, chunks, current), n)
         == Slicing(para, 0, rest, chunks + Copies(para[..cfg.chunkSize], n), current)
  {
    if n == 0 {
      assert chunks + [] == chunks;
    } else {
      SlicingRepeats(text, cfg, para, rest, chunks, current, n - 1);
      var window := para[..cfg.chunkSize];
      assert para[0..cfg.chunkSize] == window;
      assert chunks + Copies(window, n - 1) + [window] == chunks + Copies(window, n);
    }
  }

  /** With a larger overlap, the second round slices at a negative index. */
  lemma SlicingCrashes(text: string, cfg: ChunkConfig, para: string,
                       rest: seq<string>, chunks: seq<string>, current: string)
    requires cfg.overlap > cfg.chunkSize > 0 && Long(para, cfg)
    ensures After(text, cfg, Slicing(para, 0, rest, chunks, current), 1)
         == Slicing(para, cfg.chunkSize - cfg.overlap, rest, chunks + [para[..cfg.chunkSize]], current)
    ensures After(text, cfg, Slicing(para, 0, rest, chunks, current), 2) == Crashed
  {
    var s := Slicing(para, 0, rest, chunks, current);
    assert para[0..cfg.chunkSize] == para[..cfg.chunkSize];
    OneRound(text, cfg, s);
  }

  // ----- the whole call -----

  /** One piece that can be sliced: some rounds later its paragraph is packed. */
  lemma PieceFinishes(text: string, cfg: ChunkConfig, pieces: seq<string>, chunks: seq<string>, current: string)
      returns (n: nat)
    requires cfg.chunkSize > 0 && pieces != [] && Sliceable(TrimSpace(pieces[0]), cfg)
    ensures var para := TrimSpace(pieces[0]);
            After(text, cfg, Packing(pieces, chunks, current), n)
            == if para == "" then Packing(pieces[1..], chunks, current)
               else Packing(pieces[1..], chunks + Texts(PackOne(para, cfg, current).0), PackOne(para, cfg, current).1)
  {
    hide Step, After, TrimSpace, SlicesFrom, PackOne, NeedsFlush;
    var s := Packing(pieces, chunks, current);
    var para := TrimSpace(pieces[0]);
    OneRound(text, cfg, s);
    n := 1;
    if para == "" {
      BlankRound(text, cfg, pieces, chunks, current);
    } else {
      var open := PackingRound(text, cfg, pieces, chunks, current);
      PackOneTexts(para, cfg, chunks, current);
      if ByteLen(para) > cfg.chunkSize {
        var next := Step(text, cfg, s);
        var m := SlicingFinishes(text, cfg, para, 0, pieces[1..], next.chunks, next.current);
        AfterFirst(text, cfg, s, m);
        n := m + 1;
      }
    }
  }

  lemma BlankRound(text: string, cfg: ChunkConfig, pieces: seq<string>, chunks: seq<string>, current: string)
    requires cfg.chunkSize > 0 && pieces != [] && TrimSpace(pieces[0]) == ""
    ensures Step(text, cfg, Packing(pieces, chunks, current)) == Packing(pieces[1..], chunks, current)
  {
    hide TrimSpace;
  }

  lemma PackingRound(text: string, cfg: ChunkConfig, pieces: seq<string>, chunks: seq<string>, current: string)
      returns (open: string)
    requires cfg.chunkSize > 0 && pieces != [] && TrimSpace(pieces[0]) != "" && Sliceable(TrimSpace(pieces[0]), cfg)
    ensures var para, rest := TrimSpace(pieces[0]), pieces[1..];
            var flushed := chunks + (if NeedsFlush(current, para, cfg) then [current] else []);
            open == PackOne(para, cfg, current).1
            && Step(text, cfg, Packing(pieces, chunks, current)) ==
               if ByteLen(para) > cfg.chunkSize then Slicing(para, 0, rest, flushed, open)
               else Packing(rest, flushed, open)
  {
    hide TrimSpace, NeedsFlush, SlicesFrom, ByteLen, Appended;
    open := PackOne(TrimSpace(pieces[0]), cfg, current).1;
    assert chunks + [] == chunks;
  }

  lemma ParagraphsOf(pieces: seq<string>)
    requires pieces != []
    ensures Kept(pieces) == (if TrimSpace(pieces[0]) == "" then [] else [TrimSpace(pieces[0])]) + Kept(pieces[1..])
  {}

  lemma {:induction false} PackingReturns(text: string, cfg: ChunkConfig, pieces: seq<string>,
                                          chunks: seq<string>, current: string) returns (n: nat)
    requires cfg.chunkSize > 0 && SlicingEnds(Kept(pieces), cfg)
    ensures After(text, cfg, Packing(pieces, chunks, current), n)
         == Returned(Finish(text, chunks + Texts(Pack(Kept(pieces), cfg, current)), ""))
    decreases |pieces|
  {
    hide TrimSpace, NeedsFlush, SlicesFrom, Kept, PackOne, Sliceable;
    var s := Packing(pieces, chunks, current);
    if pieces == [] {
      n := 1;
      NothingKept();
      OneRound(text, cfg, s);
      FinishFlushes(text, chunks, current);
    } else {
      var para, rest := TrimSpace(pieces[0]), pieces[1..];
      ParagraphsOf(pieces);
      HeadAndRest(para, Kept(rest), cfg, Kept(pieces));
      if para == "" { BlankSliceable(cfg); }
      var m := PieceFinishes(text, cfg, pieces, chunks, current);
      var k;
      if para == "" {
        k := PackingReturns(text, cfg, rest, chunks, current);
      } else {
        PackTexts(para, Kept(rest), cfg, chunks, current);
        var (emitted, waiting) := PackOne(para, cfg, current);
        k := PackingReturns(text, cfg, rest, chunks + Texts(emitted), waiting);
      }
      AfterTwo(text, cfg, s, m, k);
      n := m + k;
    }
  }

  lemma NothingKept()
    ensures Kept([]) == []
  {}

  lemma BlankSliceable(cfg: ChunkConfig)
    requires cfg.chunkSize > 0
    ensures Sliceable("", cfg)
  {}

  lemma HeadAndRest(para: string, rest: seq<string>, cfg: ChunkConfig, all: seq<string>)
    requires all == (if para == "" then [] else [para]) + rest
    ensures para != "" ==> (SlicingEnds(all, cfg) <==> Sliceable(para, cfg) && SlicingEnds(rest, cfg))
    ensures para == "" ==> all == rest
  {
    hide Sliceable;
    if para != "" {
      assert all[0] == para;
      assert forall k :: 0 <= k < |rest| ==> all[k+1] == rest[k];
      assert forall k :: 1 <= k < |all| ==> all[k] == rest[k-1];
    }
  }

  lemma FinishFlushes(text: string, chunks: seq<string>, current: string)
    ensures Finish(text, chunks, current) == Finish(text, chunks + Texts(Flushed(current)), "")
  {
    if current == "" {
      assert chunks + Texts(Flushed(current)) == chunks;
    } else {
      assert Flushed(current)[1..] == [];
      assert Texts(Flushed(current)) == [current];
    }
  }

  /** Otherwise the call comes to a paragraph it cannot slice. */
  lemma {:induction false} PackingGetsStuck(text: string, cfg: ChunkConfig, pieces: seq<string>,
                                            chunks: seq<string>, current: string) returns (n: nat, s: State)
    requires cfg.chunkSize > 0 && !SlicingEnds(Kept(pieces), cfg)
    ensures After(text, cfg, Packing(pieces, chunks, current), n) == s
    ensures s.Slicing? && s.cursor == 0 && Long(s.para, cfg) && cfg.overlap >= cfg.chunkSize
    decreases |pieces|
  {
    hide TrimSpace, NeedsFlush, SlicesFrom, Kept, PackOne;
    if pieces == [] { NothingKept(); }
    var start := Packing(pieces, chunks, current);
    var para, rest := TrimSpace(pieces[0]), pieces[1..];
    ParagraphsOf(pieces);
    HeadAndRest(para, Kept(rest), cfg, Kept(pieces));
    if para == "" || Sliceable(para, cfg) {
      if para == "" { BlankSliceable(cfg); }
      var m := PieceFinishes(text, cfg, pieces, chunks, current);
      var there := After(text, cfg, start, m);
      var k;
      k, s := PackingGetsStuck(text, cfg, rest, there.chunks, there.current);
      AfterTwo(text, cfg, start, m, k);
      n := m + k;
    } else {
      n, s := 1, Step(text, cfg, start);
      OneRound(text, cfg, start);
    }
  }

  lemma TerminatesReturns(text: string, cfg: ChunkConfig)
    requires Terminates(text, cfg)
    ensures Returns(text, cfg, ChunksOf(text, cfg))
  {
    hide TrimSpace, Step, After, Pack, Split;
    var e := Effective(cfg);
    var chunks := ChunksOf(text, cfg);
    EmptyIffBlank(text, cfg);
    if text == "" {
      assert Run(text, cfg, 0) == Start(text) by { AfterNothing(text, e, Start(text)); }
      BlankText();
      assert Run(text, cfg, 0) == Returned(chunks);
    } else {
      var n := PackingReturns(text, e, Split(text), [], "");
      assert [] + chunks == chunks;
      assert Run(text, cfg, n) == Returned(chunks);
    }
  }

  lemma AfterNothing(text: string, cfg: ChunkConfig, s: State)
    requires cfg.chunkSize > 0
    ensures After(text, cfg, s, 0) == s
  {}

  lemma BlankText()
    ensures Blank("")
  {}

  lemma NotTerminating(text: string, cfg: ChunkConfig)
    requires !Terminates(text, cfg)
    ensures Effective(cfg).overlap == Effective(cfg).chunkSize ==> LoopsForever(text, cfg)
    ensures Effective(cfg).overlap > Effective(cfg).chunkSize ==> Crashes(text, cfg)
    ensures Effective(cfg).overlap >= Effective(cfg).chunkSize
  {
    hide TrimSpace, Step, After, Kept, Split;
    var e := Effective(cfg);
    if text == "" { NoParagraphs(); }
    var n, s := PackingGetsStuck(text, e, Split(text), [], "");
    if e.overlap > e.chunkSize {
      SlicingCrashes(text, e, s.para, s.pieces, s.chunks, s.current);
      AfterTwo(text, e, Start(text), n, 2);
      assert Run(text, cfg, n + 2) == Crashed;
    } else {
      forall m: nat ensures !Run(text, cfg, m).Returned? && Run(text, cfg, m) != Crashed {
        StaysStuck(text, e, Start(text), n, s, m);
      }
    }
  }

  lemma NoParagraphs()
    ensures Kept(Split("")) == []
  {
    assert Kept([""]) == [];
  }

  /** A run that reaches an endless slicing loop has not ended and never will. */
  lemma StaysStuck(text: string, cfg: ChunkConfig, start: State, n: nat, s: State, m: nat)
    requires cfg.overlap == cfg.chunkSize > 0 && After(text, cfg, start, n) == s
    requires s.Slicing? && s.cursor == 0 && Long(s.para, cfg)
    ensures !After(text, cfg, start, m).Returned? && After(text, cfg, start, m) != Crashed
  {
    hide Step, After;
    if m >= n {
      AfterTwo(text, cfg, start, n, m - n);
      SlicingRepeats(text, cfg, s.para, s.pieces, s.chunks, s.current, m - n);
    } else {
      var there := After(text, cfg, start, m);
      AfterTwo(text, cfg, start, m, n - m);
      if there.Returned? || there == Crashed { EndIsFinal(text, cfg, there, n - m); }
    }
  }

  /** `ChunkText` returns if and only if the overlap is below the chunk size or no
      paragraph needs a second window, and then returns the planned chunks.
      Otherwise it loops for ever when the two are equal and crashes on a negative
      index when the overlap is larger. */
  lemma ChunkTextEndsExactly(text: string, cfg: ChunkConfig)
    ensures (exists chunks :: Returns(text, cfg, chunks)) <==> Terminates(text, cfg)
    ensures Terminates(text, cfg) ==> Returns(text, cfg, ChunksOf(text, cfg))
    ensures Crashes(text, cfg) <==> !Terminates(text, cfg) && Effective(cfg).overlap > Effective(cfg).chunkSize
    ensures LoopsForever(text, cfg) <==> !Terminates(text, cfg) && Effective(cfg).overlap == Effective(cfg).chunkSize
  {
    hide Run, Terminates, ChunksOf;
    if Terminates(text, cfg) {
      TerminatesReturns(text, cfg);
      NotBoth(text, cfg, ChunksOf(text, cfg));
    } else {
      NotTerminating(text, cfg);
      forall chunks ensures !Returns(text, cfg, chunks) {
        if Returns(text, cfg, chunks) { NotBoth(text, cfg, chunks); }
      }
      if Crashes(text, cfg) {
        var n: nat :| Run(text, cfg, n) == Crashed;
      }
    }
  }

  /** The three outcomes exclude each other. */
  lemma NotBoth(text: string, cfg: ChunkConfig, chunks: seq<string>)
    requires Returns(text, cfg, chunks)
    ensures !Crashes(text, cfg) && !LoopsForever(text, cfg)
  {
    hide After, Start;
    var n: nat :| Run(text, cfg, n) == Returned(chunks);
    if m: nat :| Run(text, cfg, m) == Crashed {
      var e, s := Effective(cfg), Start(text);
      if m >= n {
        AfterTwo(text, e, s, n, m - n);
        EndIsFinal(text, e, Returned(chunks), m - n);
      } else {
        AfterTwo(text, e, s, m, n - m);
        EndIsFinal(text, e, Crashed, n - m);
      }
    }
  }
}
