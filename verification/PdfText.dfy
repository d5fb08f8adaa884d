/** The text of PDF show operators: one pass over a line such as
    `(Hello) Tj`, with backslash escapes. */
module PdfText {
  import opened Text

  datatype Scan = Scan(out: string, inParen: bool, escape: bool)

  const START := Scan("", false, false)

  function ScanChar(s: Scan, c: char): Scan {
    if s.escape then s.(out := s.out + [c], escape := false)
    else if c == '\\' then s.(escape := true)
    else if c == '(' then s.(inParen := true)
    else if c == ')' then Scan(if s.inParen then s.out + " " else s.out, false, false)
    else if s.inParen then s.(out := s.out + [c])
    else s
  }

  const STEP: (Scan, char) -> Scan := (s: Scan, c: char) => ScanChar(s, c)

  /** `extractParenthesesText`. */
  method ExtractParenthesesText(line: string) returns (text: string)
    ensures text == TrimSpace(Fold(STEP, START, line).out)
  {
    var sb := "";
    var inParen, escape := false, false;
    var i := 0;
    while i < |line|
      invariant 0 <= i <= |line|
      invariant Fold(STEP, START, line) == Fold(STEP, Scan(sb, inParen, escape), line[i..])
    {
      var r := line[i];
      i := i + 1;
      if escape {
        sb := sb + [r];
        escape := false;
        continue;
      }
      if r == '\\' {
        escape := true;
        continue;
      }
      if r == '(' {
        inParen := true;
        continue;
      }
      if r == ')' {
        if inParen { sb := sb + " "; }
        inParen := false;
        continue;
      }
      if inParen { sb := sb + [r]; }
    }
    return TrimSpace(sb);
  }

  // ----- lines -----

  predicate Special(c: char) {
    c == '\\' || c == '(' || c == ')'
  }

  predicate Ordinary(s: string) {
    forall i :: 0 <= i < |s| ==> !Special(s[i])
  }

  /** One character of a literal string, as it stands or after a backslash. */
  datatype Unit = Bare(c: char) | Escaped(c: char)

  /** The content of any literal string: a bare backslash always escapes. */
  predicate Literal(us: seq<Unit>) {
    forall i :: 0 <= i < |us| ==> us[i].c == '\\' ==> us[i].Escaped?
  }

  /** No parenthesis without a backslash. */
  predicate Clean(us: seq<Unit>) {
    forall i :: 0 <= i < |us| && us[i].Bare? ==> us[i].c != '(' && us[i].c != ')'
  }

  function RawUnit(u: Unit): string {
    if u.Escaped? then ['\\', u.c] else [u.c]
  }

  function Raw(us: seq<Unit>): string {
    if us == [] then "" else RawUnit(us[0]) + Raw(us[1..])
  }

  function Meaning(us: seq<Unit>): string {
    if us == [] then "" else [us[0].c] + Meaning(us[1..])
  }

  /** Operands one after the other, each with what stands before it. */
  datatype Operand = Operand(before: string, content: seq<Unit>)

  predicate GoodLine(ops: seq<Operand>, after: string) {
    (forall i :: 0 <= i < |ops| ==> Ordinary(ops[i].before) && Literal(ops[i].content)) && Ordinary(after)
  }

  function Render(ops: seq<Operand>, after: string): string {
    if ops == [] then after
    else ops[0].before + ("(" + (Raw(ops[0].content) + (")" + Render(ops[1..], after))))
  }

  function Texts(ops: seq<Operand>): (ts: seq<string>)
    ensures |ts| == |ops| && forall i :: 0 <= i < |ops| ==> ts[i] == Meaning(ops[i].content)
  {
    if ops == [] then [] else [Meaning(ops[0].content)] + Texts(ops[1..])
  }

  // ----- counting parentheses -----

  const PAREN: char -> bool := (c: char) => c == '(' || c == ')'

  function EscapedParens(us: seq<Unit>): nat {
    if us == [] then 0 else (if us[0].Escaped? && PAREN(us[0].c) then 1 else 0) + EscapedParens(us[1..])
  }

  function LineParens(ops: seq<Operand>): nat {
    if ops == [] then 0 else EscapedParens(ops[0].content) + LineParens(ops[1..])
  }

  lemma {:induction false} MeaningParens(us: seq<Unit>)
    ensures CountOf(PAREN, Meaning(us)) >= EscapedParens(us)
    ensures CountOf(PAREN, Meaning(us)) == EscapedParens(us) <==> Clean(us)
  {
    if us != [] {
      var rest := us[1..];
      MeaningParens(rest);
      assert Meaning(us)[1..] == Meaning(rest);
      assert forall i :: 0 <= i < |rest| ==> rest[i] == us[i+1];
      assert forall i :: 1 <= i < |us| ==> us[i] == rest[i-1];
    }
  }

  lemma {:induction false} JoinedParens(ops: seq<Operand>)
    ensures CountOf(PAREN, EndEach(Texts(ops), " ")) >= LineParens(ops)
    ensures CountOf(PAREN, EndEach(Texts(ops), " ")) == LineParens(ops)
       <==> forall i :: 0 <= i < |ops| ==> Clean(ops[i].content)
  {
    hide CountOf, Clean, EscapedParens, Meaning;
    if ops == [] {
      CountOfNone(PAREN, EndEach(Texts(ops), " "));
    } else {
      var rest := ops[1..];
      JoinedParens(rest);
      MeaningParens(ops[0].content);
      assert Texts(ops)[1..] == Texts(rest);
      CountOfConcat(PAREN, Texts(ops)[0] + " ", EndEach(Texts(rest), " "));
      CountOfConcat(PAREN, Texts(ops)[0], " ");
      CountOfNone(PAREN, " ");
      assert forall i :: 0 <= i < |rest| ==> rest[i] == ops[i+1];
      assert forall i :: 1 <= i < |ops| ==> ops[i] == rest[i-1];
    }
  }

  // ----- scanning -----

  lemma {:induction false} ScanGap(s: Scan, gap: string)
    requires !s.escape && Ordinary(gap)
    ensures Fold(STEP, s, gap) == if s.inParen then s.(out := s.out + gap) else s
    decreases gap
  {
    if gap != "" {
      ScanGap(ScanChar(s, gap[0]), gap[1..]);
      ConcatAssoc(s.out, [gap[0]], gap[1..]);
      assert gap == [gap[0]] + gap[1..];
    } else {
      assert s.out + gap == s.out;
    }
  }

  /** The scanner's state after one unit. */
  function ScanUnit(s: Scan, u: Unit): Scan {
    if u.Escaped? then s.(out := s.out + [u.c]) else ScanChar(s, u.c)
  }

  lemma ScanRawUnit(s: Scan, u: Unit, rest: string)
    requires !s.escape && (u.c == '\\' ==> u.Escaped?)
    ensures Fold(STEP, s, RawUnit(u) + rest) == Fold(STEP, ScanUnit(s, u), rest)
    ensures !ScanUnit(s, u).escape
  {
    hide Fold;
    if u.Escaped? {
      assert RawUnit(u) + rest == ['\\'] + ([u.c] + rest);
      FoldOne(STEP, s, '\\', [u.c] + rest);
      FoldOne(STEP, s.(escape := true), u.c, rest);
    } else {
      FoldOne(STEP, s, u.c, rest);
    }
  }

  /** Bare parentheses never reach the output, escaped ones always do. */
  lemma UnitParens(s: Scan, u: Unit)
    requires !s.escape
    ensures CountOf(PAREN, ScanUnit(s, u).out)
         == CountOf(PAREN, s.out) + if u.Escaped? && PAREN(u.c) then 1 else 0
  {
    hide CountOf;
    CountOfConcat(PAREN, s.out, [u.c]);
    CountOfConcat(PAREN, s.out, " ");
    CountOfNone(PAREN, " ");
    if PAREN(u.c) { CountOfSingle(u.c); } else { CountOfNone(PAREN, [u.c]); }
  }

  lemma CountOfSingle(c: char)
    requires PAREN(c)
    ensures CountOf(PAREN, [c]) == 1
  {
    assert [c][1..] == "";
  }

  /** A string's content: clean content is copied; in any case the parentheses that
      come out are the escaped ones. */
  lemma {:induction false} ScanContent(s: Scan, us: seq<Unit>)
    requires !s.escape && Literal(us)
    ensures var r := Fold(STEP, s, Raw(us));
            !r.escape && CountOf(PAREN, r.out) == CountOf(PAREN, s.out) + EscapedParens(us)
            && (s.inParen && Clean(us) ==> r == s.(out := s.out + Meaning(us)))
    decreases us
  {
    hide Fold, CountOf;
    FoldStep(STEP, s, "");
    if us == [] {
      assert s.out + "" == s.out;
    } else {
      var next := ScanUnit(s, us[0]);
      ScanRawUnit(s, us[0], Raw(us[1..]));
      UnitParens(s, us[0]);
      ScanContent(next, us[1..]);
      if s.inParen && Clean(us) {
        assert us[0].Bare? ==> us[0].c != '(' && us[0].c != ')';
        assert Clean(us[1..]);
        ConcatAssoc(s.out, [us[0].c], Meaning(us[1..]));
      }
    }
  }

  lemma ScanOperand(out: string, op: Operand, rest: string) returns (out': string)
    requires Ordinary(op.before) && Literal(op.content)
    ensures Fold(STEP, Scan(out, false, false), op.before + ("(" + (Raw(op.content) + (")" + rest))))
         == Fold(STEP, Scan(out', false, false), rest)
    ensures CountOf(PAREN, out') == CountOf(PAREN, out) + EscapedParens(op.content)
    ensures Clean(op.content) ==> out' == out + Meaning(op.content) + " "
  {
    hide Fold, Raw, Meaning, CountOf, EscapedParens, Clean, Ordinary, Literal;
    var s, inside := Scan(out, false, false), Scan(out, true, false);
    FoldConcat(STEP, s, op.before, "(" + (Raw(op.content) + (")" + rest)));
    ScanGap(s, op.before);
    FoldOne(STEP, s, '(', Raw(op.content) + (")" + rest));
    FoldConcat(STEP, inside, Raw(op.content), ")" + rest);
    ScanContent(inside, op.content);
    var after := Fold(STEP, inside, Raw(op.content));
    FoldOne(STEP, after, ')', rest);
    out' := ScanChar(after, ')').out;
    CountOfConcat(PAREN, after.out, " ");
    CountOfNone(PAREN, " ");
  }

  lemma {:induction false} ScanLine(out: string, ops: seq<Operand>, after: string)
    requires GoodLine(ops, after)
    ensures var r := Fold(STEP, Scan(out, false, false), Render(ops, after)).out;
            CountOf(PAREN, r) == CountOf(PAREN, out) + LineParens(ops)
            && ((forall i :: 0 <= i < |ops| ==> Clean(ops[i].content)) ==> r == out + EndEach(Texts(ops), " "))
    decreases ops
  {
    hide Fold, Ordinary, Literal, EndEach, CountOf, EscapedParens, Clean, Meaning;
    if ops == [] {
      ScanGap(Scan(out, false, false), after);
      NothingWritten(out);
    } else {
      var rest := ops[1..];
      assert forall i :: 0 <= i < |rest| ==> rest[i] == ops[i+1];
      var out' := ScanOperand(out, ops[0], Render(rest, after));
      ScanLine(out', rest, after);
      assert Texts(ops) == [Meaning(ops[0].content)] + Texts(rest);
      EndEachFrom(out, Meaning(ops[0].content), Texts(rest), " ");
    }
  }

  lemma NothingWritten(out: string)
    ensures out + EndEach([], " ") == out
  {}

  // ----- the round trip -----

  lemma JoinedTrims(texts: seq<string>)
    ensures TrimSpace(EndEach(texts, " ")) == TrimSpace(Join(texts, " "))
  {
    hide TrimSpace, EndEach;
    EndEachIsJoin(texts, " ");
    if texts != [] { TrimIgnoresBlankEnd(Join(texts, " "), " "); }
  }

  /** The strings of a line come back, a blank between them, trimmed, if and only
      if none of them contains a parenthesis without a backslash. */
  lemma RoundTripExactly(ops: seq<Operand>, after: string)
    requires GoodLine(ops, after)
    ensures TrimSpace(Fold(STEP, START, Render(ops, after)).out) == TrimSpace(Join(Texts(ops), " "))
       <==> forall i :: 0 <= i < |ops| ==> Clean(ops[i].content)
  {
    hide Fold, Render, Texts, TrimSpace, EndEach, CountOf, Clean, GoodLine, LineParens;
    var r, whole := Fold(STEP, START, Render(ops, after)).out, EndEach(Texts(ops), " ");
    ScanLine("", ops, after);
    assert "" + whole == whole;
    CountOfNone(PAREN, "");
    JoinedParens(ops);
    JoinedTrims(Texts(ops));
    CountOfTrimmed(PAREN, r);
    CountOfTrimmed(PAREN, whole);
  }

  /** A text as string content: special characters get a backslash. */
  function Escaping(t: string): (us: seq<Unit>)
    ensures Literal(us) && Clean(us) && Meaning(us) == t
  {
    if t == "" then []
    else [if Special(t[0]) then Escaped(t[0]) else Bare(t[0])] + Escaping(t[1..])
  }

  function Write(befores: seq<string>, texts: seq<string>): (ops: seq<Operand>)
    requires |befores| == |texts|
    ensures |ops| == |texts|
  {
    seq(|texts|, i requires 0 <= i < |texts| => Operand(befores[i], Escaping(texts[i])))
  }

  /** So any strings written with their special characters escaped come back. */
  lemma EscapedRoundTrip(befores: seq<string>, texts: seq<string>, after: string)
    requires |befores| == |texts| && (forall i :: 0 <= i < |befores| ==> Ordinary(befores[i])) && Ordinary(after)
    ensures TrimSpace(Fold(STEP, START, Render(Write(befores, texts), after)).out) == TrimSpace(Join(texts, " "))
  {
    hide Fold, Render, TrimSpace, Join, Escaping, Meaning, Clean, Literal, Ordinary;
    RoundTripExactly(Write(befores, texts), after);
    assert Texts(Write(befores, texts)) == texts;
  }

  /** What a nested pair does: the text after it is lost. */
  lemma NestedParenthesesCut(a: string, b: string, c: string)
    requires Ordinary(a) && Ordinary(b) && Ordinary(c)
    ensures Fold(STEP, START, "(" + (a + ("(" + (b + (")" + (c + ")")))))).out == a + b + " "
  {
    hide Fold, Ordinary;
    var s0, s1 := Scan("", true, false), Scan(a, true, false);
    FoldOne(STEP, START, '(', a + ("(" + (b + (")" + (c + ")")))));
    FoldConcat(STEP, s0, a, "(" + (b + (")" + (c + ")"))));
    ScanGap(s0, a);
    assert "" + a == a;
    FoldOne(STEP, s1, '(', b + (")" + (c + ")")));
    FoldConcat(STEP, s1, b, ")" + (c + ")"));
    ScanGap(s1, b);
    FoldOne(STEP, Scan(a + b, true, false), ')', c + ")");
    var s2 := Scan(a + b + " ", false, false);
    FoldConcat(STEP, s2, c, ")");
    ScanGap(s2, c);
    assert ")" == [')'] + "";
    FoldOne(STEP, s2, ')', "");
    FoldStep(STEP, s2, "");
  }
}
