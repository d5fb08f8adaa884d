/** The text of a WordprocessingML document: one pass over the characters of
    `word/document.xml` (ECMA-376 Part 1, sections 17.3.1.22 and 17.3.3.31). */
module WordText {
  import opened Edits
  import opened Text

  // ----- the scanner -----

  predicate OpensParagraph(tag: string) {
    "<w:p " <= tag || tag == "<w:p>" || "<w:p>" <= tag
  }

  predicate OpensText(tag: string) {
    "<w:t " <= tag || tag == "<w:t>" || "<w:t>" <= tag
  }

  datatype Scan = Scan(out: string, inWt: bool, inWp: bool, inTag: bool, tagBuf: string)

  const START := Scan("", false, false, false, "")

  /** What the end of a tag does. */
  function CloseTag(s: Scan, tag: string): Scan {
    var s1 := if OpensParagraph(tag) then s.(out := if s.inWp then s.out + "\n" else s.out, inWp := true) else s;
    var s2 := if OpensText(tag) then s1.(inWt := true) else s1;
    var s3 := if tag == "</w:t>" then s2.(inWt := false) else s2;
    if tag == "</w:p>" then s3.(out := s3.out + "\n", inWp := false) else s3
  }

  function ScanChar(s: Scan, c: char): Scan {
    if c == '<' then s.(inTag := true, tagBuf := "<")
    else if c == '>' then CloseTag(s.(inTag := false, tagBuf := s.tagBuf + ">"), s.tagBuf + ">")
    else if s.inTag then s.(tagBuf := s.tagBuf + [c])
    else if s.inWt then s.(out := s.out + [c])
    else s
  }

  const STEP: (Scan, char) -> Scan := (s: Scan, c: char) => ScanChar(s, c)

  /** `extractWtText`. */
  method ExtractWtText(xml: string) returns (text: string)
    ensures text == TrimSpace(Fold(STEP, START, xml).out)
  {
    hide OpensParagraph, OpensText;
    var sb := "";
    var inWt, inWp, inTag := false, false, false;
    var tagBuf := "";
    var i := 0;
    while i < |xml|
      invariant 0 <= i <= |xml|
      invariant Fold(STEP, START, xml) == Fold(STEP, Scan(sb, inWt, inWp, inTag, tagBuf), xml[i..])
    {
      var c := xml[i];
      i := i + 1;
      if c == '<' {
        inTag := true;
        tagBuf := "<";
        continue;
      }
      if c == '>' {
        tagBuf := tagBuf + ">";
        inTag := false;
        var tag := tagBuf;
        if OpensParagraph(tag) {
          if inWp { sb := sb + "\n"; }
          inWp := true;
        }
        if OpensText(tag) { inWt := true; }
        if tag == "</w:t>" { inWt := false; }
        if tag == "</w:p>" {
          sb := sb + "\n";
          inWp := false;
        }
        continue;
      }
      if inTag {
        tagBuf := tagBuf + [c];
        continue;
      }
      if inWt { sb := sb + [c]; }
    }
    return TrimSpace(sb);
  }

  // ----- documents -----

  /** What stands inside a paragraph: text runs, self-closing text runs, other tags,
      and loose characters between tags. */
  datatype Piece =
    | Run(attrs: string, text: string)
    | EmptyRun(attrs: string)
    | Other(body: string)
    | Loose(chars: string)

  /** A document is a list of paragraphs, self-closing paragraphs, and pieces between them. */
  datatype Block =
    | Paragraph(attrs: string, pieces: seq<Piece>)
    | EmptyParagraph(attrs: string)
    | Outside(piece: Piece)

  predicate Attributes(attrs: string) {
    Lacks(attrs, '<') && Lacks(attrs, '>') && (attrs == "" || attrs[0] == ' ')
  }

  predicate Unmatched(tag: string) {
    !OpensParagraph(tag) && !OpensText(tag) && tag != "</w:t>" && tag != "</w:p>"
  }

  predicate GoodPiece(p: Piece) {
    match p
    case Run(attrs, text) => Attributes(attrs) && Lacks(text, '<')
    case EmptyRun(attrs) => Attributes(attrs)
    case Other(body) => Lacks(body, '<') && Lacks(body, '>') && Unmatched("<" + body + ">")
    case Loose(chars) => Lacks(chars, '<') && Lacks(chars, '>')
  }

  predicate GoodPieces(ps: seq<Piece>) {
    forall i :: 0 <= i < |ps| ==> GoodPiece(ps[i])
  }

  /** Text stands inside paragraphs only. */
  predicate GoodBlock(b: Block) {
    match b
    case Paragraph(attrs, pieces) => Attributes(attrs) && GoodPieces(pieces)
    case EmptyParagraph(attrs) => Attributes(attrs)
    case Outside(p) => GoodPiece(p) && !p.Run?
  }

  predicate GoodDocument(bs: seq<Block>) {
    forall i :: 0 <= i < |bs| ==> GoodBlock(bs[i])
  }

  function RunTag(attrs: string): string { "<" + ("w:t" + attrs) + ">" }

  function EmptyRunTag(attrs: string): string { "<" + ("w:t" + (attrs + "/")) + ">" }

  function ParagraphTag(attrs: string): string { "<" + ("w:p" + attrs) + ">" }

  function EmptyParagraphTag(attrs: string): string { "<" + ("w:p" + (attrs + "/")) + ">" }

  const RUN_END := "<" + "/w:t" + ">"

  const PARAGRAPH_END := "<" + "/w:p" + ">"

  function RenderPiece(p: Piece): string {
    match p
    case Run(attrs, text) => RunTag(attrs) + (text + RUN_END)
    case EmptyRun(attrs) => EmptyRunTag(attrs)
    case Other(body) => "<" + body + ">"
    case Loose(chars) => chars
  }

  function RenderPieces(ps: seq<Piece>): string {
    if ps == [] then "" else RenderPiece(ps[0]) + RenderPieces(ps[1..])
  }

  function RenderBlock(b: Block): string {
    match b
    case Paragraph(attrs, pieces) => ParagraphTag(attrs) + (RenderPieces(pieces) + PARAGRAPH_END)
    case EmptyParagraph(attrs) => EmptyParagraphTag(attrs)
    case Outside(p) => RenderPiece(p)
  }

  function Render(bs: seq<Block>): string {
    if bs == [] then "" else RenderBlock(bs[0]) + Render(bs[1..])
  }

  // ----- their text -----

  function PieceText(p: Piece): string {
    if p.Run? then p.text else ""
  }

  function PiecesText(ps: seq<Piece>): string {
    if ps == [] then "" else PieceText(ps[0]) + PiecesText(ps[1..])
  }

  /** One line for every paragraph. */
  function Lines(bs: seq<Block>): seq<string> {
    if bs == [] then []
    else (match bs[0]
          case Paragraph(_, pieces) => [PiecesText(pieces)]
          case EmptyParagraph(_) => [""]
          case Outside(_) => []) + Lines(bs[1..])
  }

  /** Without the `>` signs, which the scanner always takes for the end of a tag. */
  function Drop(s: string): (r: string)
    ensures |r| <= |s| && Lacks(r, '>') && (Lacks(s, '<') ==> Lacks(r, '<'))
    ensures Lacks(s, '>') <==> r == s
  {
    if s == "" then "" else (if s[0] == '>' then "" else [s[0]]) + Drop(s[1..])
  }

  // ----- what the scanner makes of it -----

  /** Whether the scanner takes what follows for text: a self-closing run with
      attributes opens a run that only the end of the next one closes. */
  function OpenAfter(p: Piece, open: bool): bool {
    match p
    case Run(_, _) => false
    case EmptyRun(attrs) => open || attrs != ""
    case _ => open
  }

  function OpenAfterAll(ps: seq<Piece>, open: bool): bool {
    if ps == [] then open else OpenAfterAll(ps[1..], OpenAfter(ps[0], open))
  }

  /** A `>` in a run is lost. */
  function TextEdit(c: char): Edit {
    if c == '>' then Lost('>') else Both(c)
  }

  function TextEdits(text: string): (es: seq<Edit>)
    ensures |es| == |text| && forall i :: 0 <= i < |text| ==> es[i] == TextEdit(text[i])
  {
    seq(|text|, i requires 0 <= i < |text| => TextEdit(text[i]))
  }

  lemma {:induction false} TextTexts(text: string)
    ensures Written(TextEdits(text)) == Drop(text) && Wanted(TextEdits(text)) == text
  {
    hide Drop, Lacks, Written, Wanted, TextEdits;
    TextEditsStep(text);
    EditsStep(TextEdits(text));
    if text != "" { TextTexts(text[1..]); }
  }

  lemma TextEditsStep(text: string)
    ensures if text == "" then TextEdits(text) == [] && Drop(text) == ""
            else TextEdits(text)[0] == TextEdit(text[0]) && TextEdits(text)[1..] == TextEdits(text[1..])
                 && Drop(text) == (if text[0] == '>' then "" else [text[0]]) + Drop(text[1..])
                 && text == [text[0]] + text[1..]
  {
    hide Lacks;
  }

  function LeakEdits(chars: string): (es: seq<Edit>)
    ensures Written(es) == chars && Wanted(es) == "" && |es| == |chars|
    ensures forall i :: 0 <= i < |es| ==> es[i] == Leak(chars[i])
  {
    if chars == "" then []
    else
      assert ([Leak(chars[0])] + LeakEdits(chars[1..]))[1..] == LeakEdits(chars[1..]);
      [Leak(chars[0])] + LeakEdits(chars[1..])
  }

  function PieceEdits(p: Piece, open: bool): seq<Edit> {
    match p
    case Run(_, text) => TextEdits(text)
    case Loose(chars) => if open then LeakEdits(chars) else []
    case _ => []
  }

  function PiecesEdits(ps: seq<Piece>, open: bool): seq<Edit> {
    if ps == [] then [] else PieceEdits(ps[0], open) + PiecesEdits(ps[1..], OpenAfter(ps[0], open))
  }

  const BREAK: seq<Edit> := [Both('\n')]

  function Lead(due: bool): seq<Edit> {
    if due then BREAK else []
  }

  /** A self-closing paragraph with attributes owes its line break until the next
      paragraph (`due`); without attributes it is not seen, and its line is lost. */
  function BlockEdits(b: Block, open: bool, due: bool): seq<Edit> {
    match b
    case Paragraph(_, pieces) => Lead(due) + (PiecesEdits(pieces, open) + BREAK)
    case EmptyParagraph(attrs) => if attrs == "" then [Lost('\n')] else Lead(due)
    case Outside(p) => PieceEdits(p, open)
  }

  function OpenAfterBlock(b: Block, open: bool): bool {
    match b
    case Paragraph(_, pieces) => OpenAfterAll(pieces, open)
    case EmptyParagraph(_) => open
    case Outside(p) => OpenAfter(p, open)
  }

  function DueAfter(b: Block, due: bool): bool {
    match b
    case Paragraph(_, _) => false
    case EmptyParagraph(attrs) => due || attrs != ""
    case Outside(_) => due
  }

  /** A document as edits between what is extracted and its lines. */
  function DocEdits(bs: seq<Block>, open: bool, due: bool): seq<Edit> {
    if bs == [] then if due then [Lost('\n')] else []
    else BlockEdits(bs[0], open, due) + DocEdits(bs[1..], OpenAfterBlock(bs[0], open), DueAfter(bs[0], due))
  }

  // ----- scanning what was rendered -----

  lemma {:induction false} ScanBody(s: Scan, body: string)
    requires s.inTag && Lacks(body, '<') && Lacks(body, '>')
    ensures Fold(STEP, s, body) == s.(tagBuf := s.tagBuf + body)
    decreases body
  {
    hide CloseTag;
    if body != "" {
      ScanBody(ScanChar(s, body[0]), body[1..]);
      assert s.tagBuf + [body[0]] + body[1..] == s.tagBuf + body;
    } else {
      assert s.tagBuf + body == s.tagBuf;
    }
  }

  /** A whole tag acts as its text says, whatever was buffered before. */
  lemma ScanTag(s: Scan, body: string)
    requires Lacks(body, '<') && Lacks(body, '>')
    ensures Fold(STEP, s, "<" + body + ">")
         == var tag := "<" + body + ">"; CloseTag(s.(inTag := false, tagBuf := tag), tag)
  {
    hide CloseTag;
    FoldConcat(STEP, s, "<" + body, ">");
    FoldConcat(STEP, s, "<", body);
    var inside := s.(inTag := true, tagBuf := "<");
    assert Fold(STEP, s, "<") == Fold(STEP, inside, "") == inside;
    ScanBody(inside, body);
    var closing := inside.(tagBuf := "<" + body);
    assert Fold(STEP, closing, ">") == Fold(STEP, ScanChar(closing, '>'), "");
  }

  /** Text between tags: kept inside a text run, dropped outside. A `>` in a run
      closes the run's own opening tag once more and is lost. */
  lemma {:induction false} ScanText(s: Scan, text: string)
    requires !s.inTag && Lacks(text, '<')
    requires Lacks(text, '>') || (s.inWt && OpensText(s.tagBuf))
    ensures var r := Fold(STEP, s, text);
            r.out == (if s.inWt then s.out + Drop(text) else s.out)
            && r.inWt == s.inWt && r.inWp == s.inWp && !r.inTag
    decreases text
  {
    hide OpensText, ScanChar, Drop, Fold;
    FoldStep(STEP, s, text);
    DropStep(s.out, text);
    if text != "" {
      ScanTextChar(s, text[0]);
      ScanText(ScanChar(s, text[0]), text[1..]);
    }
  }

  lemma DropStep(out: string, text: string)
    ensures out + Drop(text)
         == if text == "" then out else (if text[0] == '>' then out else out + [text[0]]) + Drop(text[1..])
  {
    hide Lacks;
    if text != "" { PutChar(out, text[0], Drop(text[1..])); }
  }

  lemma PutChar(out: string, c: char, rest: string)
    ensures out + ([c] + rest) == (out + [c]) + rest && out + ("" + rest) == out + rest
  {}

  lemma ScanTextChar(s: Scan, c: char)
    requires !s.inTag && c != '<'
    requires c == '>' ==> s.inWt && OpensText(s.tagBuf)
    ensures var r := ScanChar(s, c);
            r.out == (if s.inWt && c != '>' then s.out + [c] else s.out)
            && r.inWt == s.inWt && r.inWp == s.inWp && !r.inTag
            && (OpensText(s.tagBuf) ==> OpensText(r.tagBuf))
  {
    hide OpensText, OpensParagraph;
    if c == '>' { StaysOpen(s.tagBuf); }
  }

  lemma StaysOpen(tag: string)
    requires OpensText(tag)
    ensures OpensText(tag + ">") && !OpensParagraph(tag + ">") && tag + ">" != "</w:t>" && tag + ">" != "</w:p>"
  {
    assert tag[3] == 't' && tag[1] == 'w';
    assert (tag + ">")[3] == 't' && (tag + ">")[1] == 'w';
    assert tag[..5] == (tag + ">")[..5];
  }

  /** Outside tags: what was written, whether a run is open, whether a paragraph is. */
  predicate Between(s: Scan, out: string, open: bool, inWp: bool) {
    s.out == out && s.inWt == open && s.inWp == inWp && !s.inTag
  }

  lemma RunTags(attrs: string)
    requires Attributes(attrs)
    ensures var tag := "<" + ("w:t" + attrs) + ">";
            OpensText(tag) && !OpensParagraph(tag) && tag != "</w:t>" && tag != "</w:p>"
    ensures var tag := "<" + ("w:p" + attrs) + ">";
            OpensParagraph(tag) && !OpensText(tag) && tag != "</w:t>" && tag != "</w:p>"
    ensures !OpensText("</w:t>") && !OpensParagraph("</w:t>") && !OpensText("</w:p>") && !OpensParagraph("</w:p>")
  {
    var t, p := "<" + ("w:t" + attrs) + ">", "<" + ("w:p" + attrs) + ">";
    assert t[1] == 'w' && t[3] == 't' && p[1] == 'w' && p[3] == 'p';
    assert t[4] == (if attrs == "" then '>' else ' ') && p[4] == (if attrs == "" then '>' else ' ');
    assert t[..5] == (if attrs == "" then "<w:t>" else "<w:t ");
    assert p[..5] == (if attrs == "" then "<w:p>" else "<w:p ");
  }

  lemma EmptyTags(attrs: string)
    requires Attributes(attrs)
    ensures var tag := EmptyRunTag(attrs);
            (OpensText(tag) <==> attrs != "") && !OpensParagraph(tag) && tag != "</w:t>" && tag != "</w:p>"
    ensures var tag := EmptyParagraphTag(attrs);
            (OpensParagraph(tag) <==> attrs != "") && !OpensText(tag) && tag != "</w:t>" && tag != "</w:p>"
  {
    var t, p := EmptyRunTag(attrs), EmptyParagraphTag(attrs);
    assert t[1] == 'w' && t[3] == 't' && p[1] == 'w' && p[3] == 'p';
    assert t[4] == (if attrs == "" then '/' else ' ') && p[4] == (if attrs == "" then '/' else ' ');
    assert t[..5] == (if attrs == "" then "<w:t/" else "<w:t ");
    assert p[..5] == (if attrs == "" then "<w:p/" else "<w:p ");
  }

  lemma EmptyTagBodies(attrs: string)
    requires Attributes(attrs)
    ensures Lacks("w:t" + (attrs + "/"), '<') && Lacks("w:t" + (attrs + "/"), '>')
    ensures Lacks("w:p" + (attrs + "/"), '<') && Lacks("w:p" + (attrs + "/"), '>')
  {}

  lemma ScanRun(s: Scan, attrs: string, text: string)
    requires Attributes(attrs) && Lacks(text, '<') && !s.inTag
    ensures Between(Fold(STEP, s, RunTag(attrs) + (text + RUN_END)), s.out + Drop(text), false, s.inWp)
  {
    hide OpensText, OpensParagraph, Fold, ScanChar, Drop;
    RunTags(attrs);
    FoldConcat(STEP, s, RunTag(attrs), text + RUN_END);
    ScanTag(s, "w:t" + attrs);
    var inside := Fold(STEP, s, RunTag(attrs));
    FoldConcat(STEP, inside, text, RUN_END);
    ScanText(inside, text);
    ScanTag(Fold(STEP, inside, text), "/w:t");
  }

  lemma ScanPiece(s: Scan, p: Piece, out: string, open: bool, inWp: bool)
    requires GoodPiece(p) && Between(s, out, open, inWp)
    ensures Between(Fold(STEP, s, RenderPiece(p)), out + Written(PieceEdits(p, open)), OpenAfter(p, open), inWp)
  {
    hide OpensText, OpensParagraph, Fold, ScanChar, Drop, Written;
    NothingWritten();
    assert out + "" == out;
    match p
    case Run(attrs, text) =>
      TextTexts(text);
      ScanRun(s, attrs, text);
    case EmptyRun(attrs) =>
      EmptyTags(attrs);
      EmptyTagBodies(attrs);
      ScanTag(s, "w:t" + (attrs + "/"));
    case Other(body) =>
      ScanTag(s, body);
    case Loose(chars) =>
      ScanText(s, chars);
      assert Drop(chars) == chars;
  }

  lemma {:induction false} ScanPieces(s: Scan, ps: seq<Piece>, out: string, open: bool, inWp: bool)
    requires GoodPieces(ps) && Between(s, out, open, inWp)
    ensures Between(Fold(STEP, s, RenderPieces(ps)), out + Written(PiecesEdits(ps, open)), OpenAfterAll(ps, open), inWp)
    decreases ps
  {
    hide RenderPiece, GoodPiece, ScanChar, PieceEdits, Fold, Written, OpenAfter;
    if ps == [] {
      NothingWritten();
      FoldStep(STEP, s, "");
      assert out + "" == out;
    } else {
      ScanPiece(s, ps[0], out, open, inWp);
      FoldConcat(STEP, s, RenderPiece(ps[0]), RenderPieces(ps[1..]));
      var middle, open' := out + Written(PieceEdits(ps[0], open)), OpenAfter(ps[0], open);
      ScanPieces(Fold(STEP, s, RenderPiece(ps[0])), ps[1..], middle, open', inWp);
      EditsConcat(PieceEdits(ps[0], open), PiecesEdits(ps[1..], open'));
      ConcatAssoc(out, Written(PieceEdits(ps[0], open)), Written(PiecesEdits(ps[1..], open')));
    }
  }

  lemma ScanOpening(s: Scan, attrs: string, out: string, open: bool, due: bool)
    requires Attributes(attrs) && Between(s, out, open, due)
    ensures Between(Fold(STEP, s, ParagraphTag(attrs)), out + Written(Lead(due)), open, true)
  {
    hide OpensText, OpensParagraph, Fold, ScanChar, Written;
    RunTags(attrs);
    ScanTag(s, "w:p" + attrs);
    BreakWritten();
    NothingWritten();
    assert out + "" == out;
  }

  lemma ScanClosing(s: Scan, out: string, open: bool)
    requires Between(s, out, open, true)
    ensures Between(Fold(STEP, s, PARAGRAPH_END), out + "\n", open, false)
  {
    hide OpensText, OpensParagraph, Fold, ScanChar;
    RunTags("");
    ScanTag(s, "/w:p");
  }

  lemma ScanParagraph(s: Scan, attrs: string, pieces: seq<Piece>, out: string, open: bool, due: bool)
    requires Attributes(attrs) && GoodPieces(pieces) && Between(s, out, open, due)
    ensures var b := Paragraph(attrs, pieces);
            Between(Fold(STEP, s, RenderBlock(b)), out + Written(BlockEdits(b, open, due)),
                    OpenAfterAll(pieces, open), false)
  {
    hide Fold, RenderPieces, PiecesEdits, Written, OpenAfterAll;
    hide Between, GoodPieces, Attributes, ParagraphTag, ScanChar;
    var inner, es := RenderPieces(pieces), PiecesEdits(pieces, open);
    var lead := Lead(due);
    FoldConcat(STEP, s, ParagraphTag(attrs), inner + PARAGRAPH_END);
    var s1, out1 := Fold(STEP, s, ParagraphTag(attrs)), out + Written(lead);
    ScanOpening(s, attrs, out, open, due);
    FoldConcat(STEP, s1, inner, PARAGRAPH_END);
    ScanPieces(s1, pieces, out1, open, true);
    ScanClosing(Fold(STEP, s1, inner), out1 + Written(es), OpenAfterAll(pieces, open));
    BreakWritten();
    EditsConcat(lead, es + BREAK);
    EditsConcat(es, BREAK);
    ConcatAssoc(out, Written(lead), Written(es) + "\n");
    ConcatAssoc(out1, Written(es), "\n");
  }

  lemma BreakWritten()
    ensures Written(BREAK) == "\n" && Wanted(BREAK) == "\n"
    ensures Written([Lost('\n')]) == "" && Wanted([Lost('\n')]) == "\n"
  {
    assert BREAK[1..] == [] && [Lost('\n')][1..] == [];
  }

  lemma ScanBlock(s: Scan, b: Block, out: string, open: bool, due: bool)
    requires GoodBlock(b) && Between(s, out, open, due)
    ensures Between(Fold(STEP, s, RenderBlock(b)), out + Written(BlockEdits(b, open, due)),
                    OpenAfterBlock(b, open), DueAfter(b, due))
  {
    hide OpensText, OpensParagraph, Fold, ScanChar, Written, PieceEdits, RenderPiece, GoodPiece;
    match b
    case Paragraph(attrs, pieces) =>
      ScanParagraph(s, attrs, pieces, out, open, due);
    case EmptyParagraph(attrs) =>
      EmptyTags(attrs);
      EmptyTagBodies(attrs);
      ScanTag(s, "w:p" + (attrs + "/"));
      BreakWritten();
      NothingWritten();
      assert out + "" == out;
    case Outside(p) =>
      ScanPiece(s, p, out, open, due);
  }

  lemma {:induction false} ScanBlocks(s: Scan, bs: seq<Block>, out: string, open: bool, due: bool)
    requires GoodDocument(bs) && Between(s, out, open, due)
    ensures Fold(STEP, s, Render(bs)).out == out + Written(DocEdits(bs, open, due))
    decreases bs
  {
    hide RenderBlock, GoodBlock, ScanChar, BlockEdits, Fold, Written, OpenAfterBlock;
    if bs == [] {
      BreakWritten();
      NothingWritten();
      FoldStep(STEP, s, "");
      assert out + "" == out;
    } else {
      ScanBlock(s, bs[0], out, open, due);
      FoldConcat(STEP, s, RenderBlock(bs[0]), Render(bs[1..]));
      var open', due' := OpenAfterBlock(bs[0], open), DueAfter(bs[0], due);
      var middle := out + Written(BlockEdits(bs[0], open, due));
      ScanBlocks(Fold(STEP, s, RenderBlock(bs[0])), bs[1..], middle, open', due');
      EditsConcat(BlockEdits(bs[0], open, due), DocEdits(bs[1..], open', due'));
      ConcatAssoc(out, Written(BlockEdits(bs[0], open, due)), Written(DocEdits(bs[1..], open', due')));
    }
  }

  // ----- the lines are what is wanted -----

  lemma {:induction false} PiecesWanted(ps: seq<Piece>, open: bool)
    ensures Wanted(PiecesEdits(ps, open)) == PiecesText(ps)
  {
    hide Wanted;
    NothingWritten();
    if ps != [] {
      PiecesWanted(ps[1..], OpenAfter(ps[0], open));
      EditsConcat(PieceEdits(ps[0], open), PiecesEdits(ps[1..], OpenAfter(ps[0], open)));
      if ps[0].Run? { TextTexts(ps[0].text); }
      assert Wanted(PieceEdits(ps[0], open)) == PieceText(ps[0]);
    }
  }

  function Owed(due: bool): string {
    if due then "\n" else ""
  }

  lemma BlockWanted(b: Block, open: bool, due: bool, rest: seq<string>)
    requires GoodBlock(b)
    ensures var own := match b
                       case Paragraph(_, pieces) => [PiecesText(pieces)]
                       case EmptyParagraph(_) => [""]
                       case Outside(_) => [];
            Wanted(BlockEdits(b, open, due)) + (Owed(DueAfter(b, due)) + EndEach(rest, "\n"))
            == Owed(due) + EndEach(own + rest, "\n")
  {
    hide Wanted, EndEach, GoodPiece;
    BreakWritten();
    NothingWritten();
    var tail := EndEach(rest, "\n");
    match b
    case Paragraph(_, pieces) =>
      var es, lead := PiecesEdits(pieces, open), Lead(due);
      PiecesWanted(pieces, open);
      EditsConcat(lead, es + BREAK);
      EditsConcat(es, BREAK);
      EndEachFrom(Owed(due), PiecesText(pieces), rest, "\n");
      ConcatAssoc(Owed(due), PiecesText(pieces), "\n");
      assert "" + tail == tail;
    case EmptyParagraph(attrs) =>
      EndEachFrom(Owed(due), "", rest, "\n");
      assert Owed(due) + "" == Owed(due);
      ConcatAssoc("\n", Owed(due), tail);
      ConcatAssoc(Owed(due), "\n", tail);
      ConcatAssoc("", "\n", tail);
      assert "" + ("\n" + tail) == "\n" + tail;
    case Outside(p) =>
      assert [] + rest == rest;
      assert PieceEdits(p, open) == [] || p.Loose?;
      assert "" + (Owed(due) + tail) == Owed(due) + tail;
  }

  lemma {:induction false} DocWanted(bs: seq<Block>, open: bool, due: bool)
    requires GoodDocument(bs)
    ensures Wanted(DocEdits(bs, open, due)) == Owed(due) + EndEach(Lines(bs), "\n")
    decreases bs
  {
    hide Wanted, BlockEdits, GoodBlock, OpenAfterBlock, DueAfter, EndEach;
    if bs == [] {
      BreakWritten();
      NothingWritten();
      EndEachIsJoin([], "\n");
    } else {
      var open', due' := OpenAfterBlock(bs[0], open), DueAfter(bs[0], due);
      DocWanted(bs[1..], open', due');
      EditsConcat(BlockEdits(bs[0], open, due), DocEdits(bs[1..], open', due'));
      BlockWanted(bs[0], open, due, Lines(bs[1..]));
    }
  }

  lemma {:induction false} PiecesEditsGood(ps: seq<Piece>, open: bool)
    requires GoodPieces(ps)
    ensures forall e :: e in PiecesEdits(ps, open) ==> if e.Lost? then e.c == '>' else e.c != '>'
  {
    hide OpensParagraph, OpensText;
    if ps != [] {
      PiecesEditsGood(ps[1..], OpenAfter(ps[0], open));
      forall e | e in PieceEdits(ps[0], open) ensures if e.Lost? then e.c == '>' else e.c != '>' {
        assert GoodPiece(ps[0]);
      }
    }
  }

  lemma {:induction false} DocEditsGood(bs: seq<Block>, open: bool, due: bool)
    requires GoodDocument(bs)
    ensures forall e :: e in DocEdits(bs, open, due) ==> if e.Lost? then e.c == '\n' || e.c == '>' else e.c != '>'
    decreases bs
  {
    hide GoodPiece, PieceEdits, PiecesEdits, GoodPieces;
    if bs != [] {
      DocEditsGood(bs[1..], OpenAfterBlock(bs[0], open), DueAfter(bs[0], due));
      assert GoodBlock(bs[0]);
      match bs[0]
      case Paragraph(_, pieces) => PiecesEditsGood(pieces, open);
      case EmptyParagraph(_) =>
      case Outside(p) => OnePiece(p, open);
    }
  }

  lemma OnePiece(p: Piece, open: bool)
    requires GoodPiece(p)
    ensures forall e :: e in PieceEdits(p, open) ==> if e.Lost? then e.c == '>' else e.c != '>'
  {
    PiecesEditsGood([p], open);
    assert PiecesEdits([p][1..], OpenAfter(p, open)) == [];
  }

  // ----- the round trip -----

  /** What is extracted, for every document: the runs without their `>`, the loose
      characters that leak, and the line breaks that are seen. */
  lemma ExtractionLaw(bs: seq<Block>)
    requires GoodDocument(bs)
    ensures Fold(STEP, START, Render(bs)).out == Written(DocEdits(bs, false, false))
  {
    hide Fold, Render, DocEdits;
    ScanBlocks(START, bs, "", false, false);
    assert "" + Written(DocEdits(bs, false, false)) == Written(DocEdits(bs, false, false));
  }

  lemma LinesWanted(bs: seq<Block>)
    requires GoodDocument(bs)
    ensures TrimSpace(Wanted(DocEdits(bs, false, false))) == TrimSpace(Join(Lines(bs), "\n"))
  {
    hide TrimSpace, EndEach, DocEdits, Lines;
    DocWanted(bs, false, false);
    var lines := Lines(bs);
    assert "" + EndEach(lines, "\n") == EndEach(lines, "\n");
    EndEachIsJoin(lines, "\n");
    if lines != [] { TrimIgnoresBlankEnd(Join(lines, "\n"), "\n"); }
  }

  /** Every document comes back as its lines, trimmed, if and only if no run has a `>`,
      nothing visible leaks, and between the first and the last visible character
      leaked line breaks make up exactly for the lost lines of self-closing
      paragraphs without attributes. */
  lemma RoundTripExactly(bs: seq<Block>)
    requires GoodDocument(bs)
    ensures TrimSpace(Fold(STEP, START, Render(bs)).out) == TrimSpace(Join(Lines(bs), "\n"))
       <==> ComesBack(DocEdits(bs, false, false))
  {
    hide Fold, Render, DocEdits, TrimSpace, ComesBack, Lines;
    var es := DocEdits(bs, false, false);
    ExtractionLaw(bs);
    LinesWanted(bs);
    DocEditsGood(bs, false, false);
    forall i | 0 <= i < |es| ensures if es[i].Lost? then es[i].c == '\n' || es[i].c == '>' else es[i].c != '>' {
      assert es[i] in es;
    }
    TrimmedEqualExactly(es);
  }

  // ----- ordinary documents -----

  /** No self-closing run with attributes, no self-closing paragraph without. */
  predicate Ordinary(bs: seq<Block>) {
    forall i :: 0 <= i < |bs| ==>
      match bs[i]
      case Paragraph(_, pieces) => NoLeaks(pieces)
      case EmptyParagraph(attrs) => attrs != ""
      case Outside(p) => NoLeaks([p])
  }

  predicate NoLeaks(ps: seq<Piece>) {
    forall i :: 0 <= i < |ps| && ps[i].EmptyRun? ==> ps[i].attrs == ""
  }

  predicate Whole(ps: seq<Piece>) {
    forall i :: 0 <= i < |ps| && ps[i].Run? ==> Lacks(ps[i].text, '>')
  }

  /** No run of the document has a `>`. */
  predicate AllWhole(bs: seq<Block>) {
    forall i :: 0 <= i < |bs| && bs[i].Paragraph? ==> Whole(bs[i].pieces)
  }

  predicate AllBoth(es: seq<Edit>) {
    forall i :: 0 <= i < |es| ==> es[i].Both?
  }

  lemma {:induction false} OrdinaryPieces(ps: seq<Piece>)
    requires NoLeaks(ps)
    ensures !OpenAfterAll(ps, false)
    ensures Whole(ps) ==> AllBoth(PiecesEdits(ps, false))
    ensures !Whole(ps) ==> exists e :: e in PiecesEdits(ps, false) && e.Lost? && e.c == '>'
  {
    if ps != [] {
      var rest := ps[1..];
      assert forall i :: 0 <= i < |rest| ==> rest[i] == ps[i+1];
      assert forall i :: 1 <= i < |ps| ==> ps[i] == rest[i-1];
      OrdinaryPieces(rest);
      var es, more := PieceEdits(ps[0], false), PiecesEdits(rest, false);
      assert forall e :: e in es ==> e in es + more;
      if ps[0].Run? && !Lacks(ps[0].text, '>') {
        var i :| 0 <= i < |es| && es[i].Lost?;
        assert es[i] in es + more;
      }
    }
  }

  lemma AllWholeStep(bs: seq<Block>)
    requires bs != []
    ensures AllWhole(bs) <==> (bs[0].Paragraph? ==> Whole(bs[0].pieces)) && AllWhole(bs[1..])
    ensures Ordinary(bs) ==> Ordinary([bs[0]]) && Ordinary(bs[1..])
  {
    hide Whole, NoLeaks;
    var rest := bs[1..];
    assert forall i :: 0 <= i < |rest| ==> rest[i] == bs[i+1];
    assert forall i :: 1 <= i < |bs| ==> bs[i] == rest[i-1];
  }

  /** Nothing but common characters, up to a line break owed at the end. */
  predicate Unchanged(es: seq<Edit>) {
    forall i :: 0 <= i < |es| ==> es[i].Both? || (i == |es| - 1 && es[i] == Lost('\n'))
  }

  lemma {:induction false} OrdinaryDoc(bs: seq<Block>, due: bool)
    requires GoodDocument(bs) && Ordinary(bs)
    ensures if AllWhole(bs) then Unchanged(DocEdits(bs, false, due)) else Lost('>') in DocEdits(bs, false, due)
    decreases bs
  {
    hide BlockEdits, OpenAfterBlock, GoodBlock, Ordinary, AllWhole, Whole;
    if bs != [] {
      var due' := DueAfter(bs[0], due);
      AllWholeStep(bs);
      OrdinaryBlock(bs[0], due);
      OrdinaryDoc(bs[1..], due');
      var es, more := BlockEdits(bs[0], false, due), DocEdits(bs[1..], false, due');
      assert DocEdits(bs, false, due) == es + more;
    } else {
      NothingWhole();
    }
  }

  lemma NothingWhole()
    ensures AllWhole([])
  {}

  lemma OrdinaryBlock(b: Block, due: bool)
    requires GoodBlock(b) && Ordinary([b])
    ensures !OpenAfterBlock(b, false)
    ensures if b.Paragraph? ==> Whole(b.pieces) then AllBoth(BlockEdits(b, false, due))
            else Lost('>') in BlockEdits(b, false, due)
  {
    hide GoodPiece, PiecesEdits, OpenAfterAll, Whole;
    assert [b][0] == b;
    match b
    case Paragraph(_, pieces) =>
      OrdinaryPieces(pieces);
      if !Whole(pieces) {
        var e :| e in PiecesEdits(pieces, false) && e.Lost? && e.c == '>';
        assert e == Lost('>') && e in BlockEdits(b, false, due);
      }
    case EmptyParagraph(_) =>
    case Outside(p) =>
      assert [p][0] == p;
  }

  /** Without such runs and paragraphs the lines come back if and only if no run
      contains a `>`. */
  lemma OrdinaryRoundTrip(bs: seq<Block>)
    requires GoodDocument(bs) && Ordinary(bs)
    ensures TrimSpace(Fold(STEP, START, Render(bs)).out) == TrimSpace(Join(Lines(bs), "\n")) <==> AllWhole(bs)
  {
    hide Fold, Render, DocEdits, TrimSpace, Lines, Ordinary, AllWhole, GoodDocument, Core, Balanced;
    var es := DocEdits(bs, false, false);
    RoundTripExactly(bs);
    OrdinaryDoc(bs, false);
    if AllWhole(bs) {
      UnchangedComesBack(es);
    } else {
      var i :| 0 <= i < |es| && es[i] == Lost('>');
      assert !NothingVisible(es);
    }
  }

  // ----- what leaks -----

  /** Loose characters leak after pieces exactly when a self-closing run with
      attributes stands among them with no run after it, or a run was open before
      and none closed it. */
  lemma {:induction false} LeaksExactly(ps: seq<Piece>, open: bool)
    ensures OpenAfterAll(ps, open) <==>
            (exists i :: 0 <= i < |ps| && OpensAt(ps, i)) || (open && NoRunFrom(ps, 0))
    decreases ps
  {
    hide OpensAt, NoRunFrom;
    if ps == [] {
      NoRunAfter(ps);
    } else {
      LeaksExactly(ps[1..], OpenAfter(ps[0], open));
      ShiftedRuns(ps, 0);
      FirstOpens(ps);
      SomeOpens(ps);
    }
  }

  /** A self-closing run with attributes and no run after it. */
  predicate OpensAt(ps: seq<Piece>, i: nat)
    requires i < |ps|
  {
    ps[i].EmptyRun? && ps[i].attrs != "" && NoRunFrom(ps, i)
  }

  predicate NoRunFrom(ps: seq<Piece>, i: nat) {
    forall j :: i <= j < |ps| ==> !ps[j].Run?
  }

  lemma NoRunAfter(ps: seq<Piece>)
    ensures NoRunFrom(ps, |ps|)
  {}

  lemma FirstOpens(ps: seq<Piece>)
    requires ps != []
    ensures NoRunFrom(ps, 0) <==> !ps[0].Run? && NoRunFrom(ps, 1)
    ensures OpensAt(ps, 0) <==> ps[0].EmptyRun? && ps[0].attrs != "" && NoRunFrom(ps, 1)
  {}

  lemma SomeOpens(ps: seq<Piece>)
    requires ps != []
    ensures (exists i :: 0 <= i < |ps| && OpensAt(ps, i))
       <==> OpensAt(ps, 0) || exists i :: 0 <= i < |ps[1..]| && OpensAt(ps[1..], i)
  {
    var rest := ps[1..];
    forall i | 0 <= i < |rest| ensures OpensAt(rest, i) <==> OpensAt(ps, i + 1) { ShiftedRuns(ps, i); }
    if i :| 0 <= i < |ps| && OpensAt(ps, i) {
      assert i > 0 ==> OpensAt(rest, i - 1);
    }
  }

  lemma ShiftedRuns(ps: seq<Piece>, i: nat)
    requires ps != [] && i <= |ps| - 1
    ensures NoRunFrom(ps[1..], i) <==> NoRunFrom(ps, i + 1)
  {
    assert forall j :: 0 <= j < |ps| - 1 ==> ps[1..][j] == ps[j+1];
    assert forall j :: 1 <= j < |ps| ==> ps[j] == ps[1..][j-1];
  }
}
