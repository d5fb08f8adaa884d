/** Strings as Go's `strings` package sees them: sequences of code points,
    each of which takes one to four bytes in UTF-8. */
module Text {

  const PARAGRAPH_BREAK: string := "\n\n"

  function Utf8Width(c: char): nat {
    if (c as int) < 0x80 then 1
    else if (c as int) < 0x800 then 2
    else if (c as int) < 0x1_0000 then 3
    else 4
  }

  /** Go's `len(s)`: the number of bytes. */
  function ByteLen(s: string): (n: nat)
    ensures n >= |s|
  {
    if s == [] then 0 else Utf8Width(s[0]) + ByteLen(s[1..])
  }

  lemma {:induction false} ByteLenConcat(a: string, b: string)
    ensures ByteLen(a + b) == ByteLen(a) + ByteLen(b)
  {
    if a == [] {
      assert a + b == b;
    } else {
      assert (a + b)[1..] == a[1..] + b;
      ByteLenConcat(a[1..], b);
    }
  }

  /** `unicode.IsSpace`. */
  predicate IsSpace(c: char) {
    var n := c as int;
    9 <= n <= 13 || n == 0x20 || n == 0x85 || n == 0xA0 || n == 0x1680
    || 0x2000 <= n <= 0x200a || n == 0x2028 || n == 0x2029 || n == 0x202f
    || n == 0x205f || n == 0x3000
  }

  predicate Blank(s: string) {
    forall i :: 0 <= i < |s| ==> IsSpace(s[i])
  }

  predicate Lacks(s: string, c: char) {
    forall i :: 0 <= i < |s| ==> s[i] != c
  }

  function TrimLeft(s: string): string {
    if s != [] && IsSpace(s[0]) then TrimLeft(s[1..]) else s
  }

  function TrimRight(s: string): string {
    if s != [] && IsSpace(s[|s|-1]) then TrimRight(s[..|s|-1]) else s
  }

  /** `strings.TrimSpace`. */
  function TrimSpace(s: string): string {
    TrimRight(TrimLeft(s))
  }

  lemma {:induction false} TrimLeftShape(s: string) returns (front: string)
    ensures s == front + TrimLeft(s) && Blank(front)
    ensures TrimLeft(s) != [] ==> !IsSpace(TrimLeft(s)[0])
  {
    hide IsSpace;
    if s != [] && IsSpace(s[0]) {
      var rest := TrimLeftShape(s[1..]);
      front := [s[0]] + rest;
      assert s == [s[0]] + s[1..];
    } else {
      front := [];
      assert s == front + TrimLeft(s);
    }
  }

  lemma {:induction false} TrimRightShape(s: string) returns (back: string)
    ensures s == TrimRight(s) + back && Blank(back)
    ensures TrimRight(s) != [] ==> !IsSpace(TrimRight(s)[|TrimRight(s)|-1])
  {
    hide IsSpace;
    if s != [] && IsSpace(s[|s|-1]) {
      var rest := TrimRightShape(s[..|s|-1]);
      back := rest + [s[|s|-1]];
      assert s == s[..|s|-1] + [s[|s|-1]];
      ConcatAssoc(TrimRight(s), rest, [s[|s|-1]]);
    } else {
      back := [];
      assert s == TrimRight(s) + back;
    }
  }

  /** Trimming removes blanks at the two ends only and leaves no blank there. */
  lemma TrimShape(s: string) returns (front: string, back: string)
    ensures s == front + TrimSpace(s) + back
    ensures Blank(front) && Blank(back)
    ensures TrimSpace(s) != [] ==> !IsSpace(TrimSpace(s)[0]) && !IsSpace(TrimSpace(s)[|TrimSpace(s)|-1])
    ensures TrimSpace(s) == [] <==> Blank(s)
  {
    front := TrimLeftShape(s);
    back := TrimRightShape(TrimLeft(s));
    var t := TrimSpace(s);
    assert TrimLeft(s) == t + back;
    assert s == front + t + back;
    if t != [] {
      assert TrimLeft(s)[0] == t[0];
      assert s[|front|] == t[0];
    }
  }

  /** Nothing for `TrimSpace` to remove. */
  predicate Trimmed(t: string) {
    t == [] || (!IsSpace(t[0]) && !IsSpace(t[|t|-1]))
  }

  /** Trimming removes exactly the blanks around a trimmed text. */
  lemma TrimPadded(front: string, t: string, back: string)
    requires Blank(front) && Blank(back) && Trimmed(t)
    ensures TrimSpace(front + t + back) == t
  {
    var s := front + t + back;
    var f, b := TrimShape(s);
    var u := TrimSpace(s);
    if t != [] {
      assert s[|front|] == t[0] && s[|front| + |t| - 1] == t[|t|-1];
      assert u != [];
      assert s[|f|] == u[0] && s[|f| + |u| - 1] == u[|u|-1];
      assert |f| == |front|;
      assert forall i :: |front| + |t| <= i < |s| ==> s[i] == back[i - |front| - |t|];
      assert forall i :: |f| + |u| <= i < |s| ==> s[i] == b[i - |f| - |u|];
      assert t == s[|front|..|front| + |t|] == u;
    } else {
      assert forall i :: 0 <= i < |s| ==> s[i] == if i < |front| then front[i] else back[i - |front|];
    }
  }

  /** Blanks at the end make no difference to what trimming leaves. */
  lemma TrimIgnoresBlankEnd(s: string, blank: string)
    requires Blank(blank)
    ensures TrimSpace(s + blank) == TrimSpace(s)
  {
    var f, b := TrimShape(s);
    assert s + blank == f + TrimSpace(s) + (b + blank);
    assert Trimmed(TrimSpace(s));
    assert Blank(b + blank);
    TrimPadded(f, TrimSpace(s), b + blank);
  }

  /** A trimmed, non-empty string without a paragraph break inside. */
  predicate CleanParagraph(p: string) {
    p != [] && !IsSpace(p[0]) && !IsSpace(p[|p|-1]) && NoBreak(p)
  }

  predicate NoBreak(p: string) {
    forall i :: 0 <= i < |p| - 1 ==> !(p[i] == '\n' && p[i+1] == '\n')
  }

  lemma NoBreakTail(p: string)
    requires |p| >= 2 && NoBreak(p)
    ensures !(p[0] == '\n' && p[1] == '\n') && NoBreak(p[1..])
  {
    assert p[0+1] == p[1];
    var q := p[1..];
    forall i | 0 <= i < |q| - 1 ensures !(q[i] == '\n' && q[i+1] == '\n') {
      var k := i + 1;
      assert q[i] == p[k] && q[i+1] == p[k+1];
    }
  }

  /** `strings.Split(s, "\n\n")`. */
  function Split(s: string): (ps: seq<string>)
    ensures |ps| >= 1
  {
    if |s| < 2 then [s]
    else if s[0] == '\n' && s[1] == '\n' then [""] + Split(s[2..])
    else
      var rest := Split(s[1..]);
      [[s[0]] + rest[0]] + rest[1..]
  }

  /** `strings.Join(ps, sep)`. */
  function Join(ps: seq<string>, sep: string): string {
    if |ps| == 0 then "" else if |ps| == 1 then ps[0] else ps[0] + sep + Join(ps[1..], sep)
  }

  lemma SplitHead(s: string)
    requires Split(s)[0] != ""
    ensures s != "" && Split(s)[0][0] == s[0]
  {}

  lemma {:induction false} SplitHasNoBreak(s: string)
    ensures forall k :: 0 <= k < |Split(s)| ==> NoBreak(Split(s)[k])
  {
    if |s| < 2 {
    } else if s[0] == '\n' && s[1] == '\n' {
      SplitHasNoBreak(s[2..]);
    } else {
      SplitHasNoBreak(s[1..]);
      var rest := Split(s[1..]);
      var head := [s[0]] + rest[0];
      forall i | 0 <= i < |head| - 1 ensures !(head[i] == '\n' && head[i+1] == '\n') {
        if i == 0 {
          SplitHead(s[1..]);
          assert head[1] == rest[0][0] == s[1..][0];
        } else {
          var k := i - 1;
          assert head[i] == rest[0][k] && head[i+1] == rest[0][k+1];
        }
      }
    }
  }

  lemma JoinCons(p: string, ps: seq<string>, sep: string)
    requires ps != []
    ensures Join([p] + ps, sep) == p + sep + Join(ps, sep)
  {
    assert ([p] + ps)[1..] == ps;
  }

  lemma JoinExtendsHead(c: char, ps: seq<string>, sep: string)
    requires ps != []
    ensures Join([[c] + ps[0]] + ps[1..], sep) == [c] + Join(ps, sep)
  {
    var qs := [[c] + ps[0]] + ps[1..];
    assert qs[1..] == ps[1..];
    if |ps| > 1 {
      assert [c] + (ps[0] + sep + Join(ps[1..], sep)) == ([c] + ps[0]) + sep + Join(ps[1..], sep);
    }
  }

  /** Splitting and joining again is the identity. */
  lemma {:induction false} JoinAfterSplit(s: string)
    ensures Join(Split(s), PARAGRAPH_BREAK) == s
  {
    if |s| < 2 {
    } else if s[0] == '\n' && s[1] == '\n' {
      JoinAfterSplit(s[2..]);
      JoinCons("", Split(s[2..]), PARAGRAPH_BREAK);
      assert s == "" + PARAGRAPH_BREAK + s[2..];
    } else {
      JoinAfterSplit(s[1..]);
      JoinExtendsHead(s[0], Split(s[1..]), PARAGRAPH_BREAK);
      assert s == [s[0]] + s[1..];
    }
  }

  lemma {:induction false} SplitAfterParagraph(p: string, rest: string)
    requires NoBreak(p) && (p != [] ==> p[|p|-1] != '\n')
    ensures Split(p + PARAGRAPH_BREAK + rest) == [p] + Split(rest)
  {
    var s := p + PARAGRAPH_BREAK + rest;
    if p == [] {
      assert s[2..] == rest;
    } else {
      var q := p[1..];
      assert s[1..] == q + PARAGRAPH_BREAK + rest;
      if q != [] { assert p[0] == s[0] && p[1] == s[1]; }
      SplitAfterParagraph(q, rest);
      assert [s[0]] + q == p;
    }
  }

  lemma {:induction false} SplitUnbroken(p: string)
    requires NoBreak(p)
    ensures Split(p) == [p]
  {
    if |p| >= 2 {
      NoBreakTail(p);
      SplitUnbroken(p[1..]);
      assert [p[0]] + p[1..] == p;
    }
  }

  /** Joining clean paragraphs and splitting again is the identity. */
  lemma {:induction false} SplitAfterJoin(ps: seq<string>)
    requires |ps| >= 1 && forall k :: 0 <= k < |ps| ==> CleanParagraph(ps[k])
    ensures Split(Join(ps, PARAGRAPH_BREAK)) == ps
  {
    if |ps| == 1 {
      SplitUnbroken(ps[0]);
    } else {
      SplitAfterParagraph(ps[0], Join(ps[1..], PARAGRAPH_BREAK));
      SplitAfterJoin(ps[1..]);
      assert ps == [ps[0]] + ps[1..];
    }
  }

  lemma {:induction false} JoinSnoc(ps: seq<string>, p: string, sep: string)
    ensures Join(ps + [p], sep) == if ps == [] then p else Join(ps, sep) + sep + p
  {
    if |ps| >= 1 {
      assert (ps + [p])[1..] == ps[1..] + [p];
      JoinSnoc(ps[1..], p, sep);
      if |ps| > 1 {
        assert Join(ps + [p], sep) == ps[0] + sep + (Join(ps[1..], sep) + sep + p);
      }
    }
  }

  /** Every part followed by the separator, the last one too. */
  function EndEach(ps: seq<string>, sep: string): string {
    if ps == [] then "" else ps[0] + sep + EndEach(ps[1..], sep)
  }

  lemma {:induction false} EndEachIsJoin(ps: seq<string>, sep: string)
    ensures EndEach(ps, sep) == if ps == [] then "" else Join(ps, sep) + sep
  {
    if |ps| > 1 {
      EndEachIsJoin(ps[1..], sep);
      assert ps[0] + sep + (Join(ps[1..], sep) + sep) == ps[0] + sep + Join(ps[1..], sep) + sep;
    } else if |ps| == 1 {
      assert EndEach(ps, sep) == ps[0] + sep + "";
    }
  }

  lemma ConcatAssoc<T>(a: seq<T>, b: seq<T>, c: seq<T>)
    ensures (a + b) + c == a + (b + c)
  {}

  lemma SameTail<T>(p: seq<T>, x: seq<T>, y: seq<T>)
    ensures p + x == p + y <==> x == y
  {
    if p + x == p + y {
      assert x == (p + x)[|p|..] && y == (p + y)[|p|..];
    }
  }

  lemma EndEachFrom(out: string, p: string, ps: seq<string>, sep: string)
    ensures out + EndEach([p] + ps, sep) == (out + p + sep) + EndEach(ps, sep)
  {
    assert ([p] + ps)[1..] == ps;
    ConcatAssoc(out, p, sep);
    ConcatAssoc(out, p + sep, EndEach(ps, sep));
  }

  // ----- one pass over a text -----

  function Fold<S>(step: (S, char) -> S, s: S, text: string): S
    decreases text
  {
    if text == "" then s else Fold(step, step(s, text[0]), text[1..])
  }

  lemma {:induction false} FoldConcat<S>(step: (S, char) -> S, s: S, a: string, b: string)
    ensures Fold(step, s, a + b) == Fold(step, Fold(step, s, a), b)
    decreases a
  {
    if a == "" {
      assert a + b == b;
    } else {
      assert (a + b)[0] == a[0] && (a + b)[1..] == a[1..] + b;
      FoldConcat(step, step(s, a[0]), a[1..], b);
    }
  }

  lemma FoldStep<S>(step: (S, char) -> S, s: S, text: string)
    ensures Fold(step, s, text) == if text == "" then s else Fold(step, step(s, text[0]), text[1..])
  {}

  lemma FoldOne<S>(step: (S, char) -> S, s: S, c: char, rest: string)
    ensures Fold(step, s, [c] + rest) == Fold(step, step(s, c), rest)
  {
    assert ([c] + rest)[1..] == rest;
  }

  /** How many characters a text has for which `f` holds. */
  function CountOf(f: char -> bool, s: string): nat {
    if s == "" then 0 else (if f(s[0]) then 1 else 0) + CountOf(f, s[1..])
  }

  lemma {:induction false} CountOfConcat(f: char -> bool, a: string, b: string)
    ensures CountOf(f, a + b) == CountOf(f, a) + CountOf(f, b)
  {
    if a == "" {
      assert a + b == b;
    } else {
      assert (a + b)[1..] == a[1..] + b;
      CountOfConcat(f, a[1..], b);
    }
  }

  lemma {:induction false} CountOfNone(f: char -> bool, s: string)
    requires forall i :: 0 <= i < |s| ==> !f(s[i])
    ensures CountOf(f, s) == 0
  {
    if s != "" { CountOfNone(f, s[1..]); }
  }

  /** Trimming takes no character away that is not a blank. */
  lemma CountOfTrimmed(f: char -> bool, s: string)
    requires forall c :: IsSpace(c) ==> !f(c)
    ensures CountOf(f, TrimSpace(s)) == CountOf(f, s)
  {
    hide CountOf;
    var front, back := TrimShape(s);
    CountOfConcat(f, front + TrimSpace(s), back);
    CountOfConcat(f, front, TrimSpace(s));
    CountOfNone(f, front);
    CountOfNone(f, back);
  }
}
