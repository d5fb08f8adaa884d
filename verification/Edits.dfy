/** Two texts told as one list of edits, and when they agree up to blanks at the ends. */
module Edits {
  import opened Text

  /** A character of both texts, one that only leaked into the written text, or one
      that only the wanted text has. */
  datatype Edit = Both(c: char) | Leak(c: char) | Lost(c: char)

  function Written(es: seq<Edit>): string {
    if es == [] then "" else (if es[0].Lost? then "" else [es[0].c]) + Written(es[1..])
  }

  function Wanted(es: seq<Edit>): string {
    if es == [] then "" else (if es[0].Leak? then "" else [es[0].c]) + Wanted(es[1..])
  }

  lemma EditsStep(es: seq<Edit>)
    ensures Written(es) == if es == [] then "" else (if es[0].Lost? then "" else [es[0].c]) + Written(es[1..])
    ensures Wanted(es) == if es == [] then "" else (if es[0].Leak? then "" else [es[0].c]) + Wanted(es[1..])
  {}

  lemma {:induction false} EditsConcat(a: seq<Edit>, b: seq<Edit>)
    ensures Written(a + b) == Written(a) + Written(b)
    ensures Wanted(a + b) == Wanted(a) + Wanted(b)
  {
    if a == [] {
      assert a + b == b;
    } else {
      assert (a + b)[1..] == a[1..] + b;
      EditsConcat(a[1..], b);
      ConcatAssoc(if a[0].Lost? then "" else [a[0].c], Written(a[1..]), Written(b));
      ConcatAssoc(if a[0].Leak? then "" else [a[0].c], Wanted(a[1..]), Wanted(b));
    }
  }

  // ----- counting -----

  function CountLeaks(f: char -> bool, es: seq<Edit>): nat {
    if es == [] then 0 else (if es[0].Leak? && f(es[0].c) then 1 else 0) + CountLeaks(f, es[1..])
  }

  function CountLost(f: char -> bool, es: seq<Edit>): nat {
    if es == [] then 0 else (if es[0].Lost? && f(es[0].c) then 1 else 0) + CountLost(f, es[1..])
  }

  lemma {:induction false} CountsDiffer(f: char -> bool, es: seq<Edit>)
    ensures CountOf(f, Written(es)) + CountLost(f, es) == CountOf(f, Wanted(es)) + CountLeaks(f, es)
  {
    if es != [] {
      CountsDiffer(f, es[1..]);
      var c := [es[0].c];
      CountOfConcat(f, c, Written(es[1..]));
      CountOfConcat(f, c, Wanted(es[1..]));
      assert "" + Written(es[1..]) == Written(es[1..]) && "" + Wanted(es[1..]) == Wanted(es[1..]);
      assert c[1..] == "";
      assert CountOf(f, c) == if f(es[0].c) then 1 else 0;
    }
  }

  lemma {:induction false} NoLeaksCounted(f: char -> bool, es: seq<Edit>)
    ensures CountLeaks(f, es) == 0 <==> forall i :: 0 <= i < |es| && es[i].Leak? ==> !f(es[i].c)
    ensures CountLost(f, es) == 0 <==> forall i :: 0 <= i < |es| && es[i].Lost? ==> !f(es[i].c)
  {
    if es != [] {
      var rest := es[1..];
      NoLeaksCounted(f, rest);
      assert forall i :: 0 <= i < |rest| ==> rest[i] == es[i+1];
      assert forall i :: 1 <= i < |es| ==> es[i] == rest[i-1];
    }
  }

  // ----- line breaks that make up for each other -----

  /** Leaked and lost line breaks cancel out before every other character, and nothing
      else leaks or is lost. `due` is how many more were written than wanted. */
  predicate Balanced(es: seq<Edit>, due: int) {
    if es == [] then due == 0
    else match es[0]
      case Both(c) => if c == '\n' then Balanced(es[1..], due) else due == 0 && Balanced(es[1..], 0)
      case Leak(c) => c == '\n' && Balanced(es[1..], due + 1)
      case Lost(c) => c == '\n' && Balanced(es[1..], due - 1)
  }

  function Breaks(n: nat): string {
    if n == 0 then "" else "\n" + Breaks(n - 1)
  }

  lemma {:induction false} BreaksThenBreak(n: nat, rest: string)
    ensures Breaks(n) + ("\n" + rest) == Breaks(n + 1) + rest
  {
    if n > 0 {
      BreaksThenBreak(n - 1, rest);
      ConcatAssoc("\n", Breaks(n - 1), "\n" + rest);
      ConcatAssoc("\n", Breaks(n), rest);
    } else {
      assert Breaks(1) == "\n";
      assert "" + ("\n" + rest) == "\n" + rest;
    }
  }

  /** Breaks in front of another character can be counted. */
  lemma {:induction false} BreaksCount(a: nat, b: nat, x: string, y: string)
    requires (x == "" || x[0] != '\n') && (y == "" || y[0] != '\n')
    ensures Breaks(a) + x == Breaks(b) + y <==> a == b && x == y
  {
    if a == 0 || b == 0 {
      assert Breaks(a) + x == if a == 0 then x else "\n" + (Breaks(a - 1) + x);
      assert Breaks(b) + y == if b == 0 then y else "\n" + (Breaks(b - 1) + y);
      assert a > 0 ==> ("\n" + (Breaks(a - 1) + x))[0] == '\n';
      assert b > 0 ==> ("\n" + (Breaks(b - 1) + y))[0] == '\n';
    } else {
      BreaksCount(a - 1, b - 1, x, y);
      ConcatAssoc("\n", Breaks(a - 1), x);
      ConcatAssoc("\n", Breaks(b - 1), y);
      SameTail("\n", Breaks(a - 1) + x, Breaks(b - 1) + y);
    }
  }

  lemma {:induction false} BalancedExactly(es: seq<Edit>, a: nat, b: nat)
    requires forall i :: 0 <= i < |es| && !es[i].Both? ==> es[i].c == '\n'
    ensures Breaks(a) + Written(es) == Breaks(b) + Wanted(es) <==> Balanced(es, a - b)
    decreases es
  {
    hide Breaks;
    if es == [] {
      BreaksCount(a, b, "", "");
    } else {
      var rest := es[1..];
      assert forall i :: 0 <= i < |rest| ==> rest[i] == es[i+1];
      if es[0].c != '\n' {
        BreaksCount(a, b, Written(es), Wanted(es));
        NoBreaks(Written(rest));
        NoBreaks(Wanted(rest));
        BalancedExactly(rest, 0, 0);
        SameTail([es[0].c], Written(rest), Wanted(rest));
      } else {
        BreaksThenBreak(a, Written(rest));
        BreaksThenBreak(b, Wanted(rest));
        assert "" + Written(rest) == Written(rest) && "" + Wanted(rest) == Wanted(rest);
        BalancedExactly(rest, if es[0].Lost? then a else a + 1, if es[0].Leak? then b else b + 1);
      }
    }
  }

  lemma NoBreaks(s: string)
    ensures Breaks(0) + s == s
  {}

  /** Two texts are equal if and only if their edits balance. */
  lemma EqualExactly(es: seq<Edit>)
    requires forall i :: 0 <= i < |es| && es[i].Lost? ==> es[i].c == '\n'
    ensures Written(es) == Wanted(es) <==> Balanced(es, 0)
  {
    var other := (c: char) => c != '\n';
    CountsDiffer(other, es);
    NoLeaksCounted(other, es);
    if Balanced(es, 0) { BalancedOnlyBreaks(es, 0); }
    if Written(es) == Wanted(es) || Balanced(es, 0) {
      BalancedExactly(es, 0, 0);
      NoBreaks(Written(es));
      NoBreaks(Wanted(es));
    }
  }

  lemma {:induction false} BalancedOnlyBreaks(es: seq<Edit>, due: int)
    requires Balanced(es, due)
    ensures forall i :: 0 <= i < |es| && !es[i].Both? ==> es[i].c == '\n'
    decreases es
  {
    if es != [] {
      var rest := es[1..];
      var d := match es[0] {
        case Both(c) => if c == '\n' then due else 0
        case Leak(_) => due + 1
        case Lost(_) => due - 1
      };
      BalancedOnlyBreaks(rest, d);
      assert forall i :: 1 <= i < |es| ==> es[i] == rest[i-1];
    }
  }

  // ----- up to blanks at the ends -----

  function StripLeft(es: seq<Edit>): seq<Edit> {
    if es != [] && IsSpace(es[0].c) then StripLeft(es[1..]) else es
  }

  function StripRight(es: seq<Edit>): seq<Edit> {
    if es != [] && IsSpace(es[|es|-1].c) then StripRight(es[..|es|-1]) else es
  }

  /** From the first to the last character that is not a blank. */
  function Core(es: seq<Edit>): seq<Edit> {
    StripLeft(StripRight(es))
  }

  predicate BlankEdits(es: seq<Edit>) {
    forall i :: 0 <= i < |es| ==> IsSpace(es[i].c)
  }

  lemma {:induction false} StripLeftShape(es: seq<Edit>) returns (front: seq<Edit>)
    ensures es == front + StripLeft(es) && BlankEdits(front)
    ensures StripLeft(es) != [] ==> !IsSpace(StripLeft(es)[0].c)
  {
    hide IsSpace;
    if es != [] && IsSpace(es[0].c) {
      var rest := StripLeftShape(es[1..]);
      front := [es[0]] + rest;
      assert es == [es[0]] + es[1..];
      ConcatAssoc([es[0]], rest, StripLeft(es));
    } else {
      front := [];
      assert es == front + StripLeft(es);
    }
  }

  lemma {:induction false} StripRightShape(es: seq<Edit>) returns (back: seq<Edit>)
    ensures es == StripRight(es) + back && BlankEdits(back)
    ensures StripRight(es) != [] ==> !IsSpace(StripRight(es)[|StripRight(es)|-1].c)
  {
    hide IsSpace;
    if es != [] && IsSpace(es[|es|-1].c) {
      var rest := StripRightShape(es[..|es|-1]);
      back := rest + [es[|es|-1]];
      assert es == es[..|es|-1] + [es[|es|-1]];
      ConcatAssoc(StripRight(es), rest, [es[|es|-1]]);
    } else {
      back := [];
      assert es == StripRight(es) + back;
    }
  }

  lemma CoreShape(es: seq<Edit>) returns (front: seq<Edit>, back: seq<Edit>)
    ensures es == front + Core(es) + back && BlankEdits(front) && BlankEdits(back)
    ensures Core(es) != [] ==> !IsSpace(Core(es)[0].c) && !IsSpace(Core(es)[|Core(es)|-1].c)
  {
    hide StripLeft, StripRight, IsSpace;
    back := StripRightShape(es);
    front := StripLeftShape(StripRight(es));
    if Core(es) != [] {
      assert Core(es)[|Core(es)|-1] == StripRight(es)[|StripRight(es)|-1];
    }
  }

  lemma {:induction false} BlankTexts(es: seq<Edit>)
    requires BlankEdits(es)
    ensures Blank(Written(es)) && Blank(Wanted(es))
  {
    hide IsSpace;
    if es != [] {
      var rest := es[1..];
      assert forall i :: 0 <= i < |rest| ==> rest[i] == es[i+1];
      BlankTexts(rest);
    }
  }

  lemma FirstAndLast(es: seq<Edit>)
    requires es != [] && es[0].Both? && es[|es|-1].Both?
    ensures var s, t, n := Written(es), Wanted(es), |es| - 1;
            s != "" && t != "" && s[0] == es[0].c && t[0] == es[0].c
            && s[|s|-1] == es[n].c && t[|t|-1] == es[n].c
  {
    var n := |es| - 1;
    assert es == es[..n] + [es[n]];
    EditsConcat(es[..n], [es[n]]);
    assert [es[n]][1..] == [];
    assert Written([es[n]]) == [es[n].c] && Wanted([es[n]]) == [es[n].c];
  }

  /** No visible character leaks, and only line breaks are lost. */
  predicate NothingVisible(es: seq<Edit>) {
    forall i :: 0 <= i < |es| ==> (es[i].Leak? ==> IsSpace(es[i].c)) && (es[i].Lost? ==> es[i].c == '\n')
  }

  /** What can be looked up in the edits. */
  predicate ComesBack(es: seq<Edit>) {
    NothingVisible(es) && Balanced(Core(es), 0)
  }

  lemma TrimmedCore(es: seq<Edit>)
    requires NothingVisible(es)
    ensures TrimSpace(Written(es)) == Written(Core(es)) && TrimSpace(Wanted(es)) == Wanted(Core(es))
    ensures NothingVisible(Core(es))
  {
    hide IsSpace, TrimSpace, Core, Written, Wanted;
    var front, back := CoreShape(es);
    var core := Core(es);
    assert forall i :: 0 <= i < |core| ==> core[i] == es[|front| + i];
    EditsConcat(front + core, back);
    EditsConcat(front, core);
    BlankTexts(front);
    BlankTexts(back);
    BreakIsSpace();
    if core != [] { FirstAndLast(core); } else { NothingWritten(); }
    TrimPadded(Written(front), Written(core), Written(back));
    TrimPadded(Wanted(front), Wanted(core), Wanted(back));
  }

  lemma BreakIsSpace()
    ensures IsSpace('\n') && !IsSpace('>')
  {}

  lemma NothingWritten()
    ensures Written([]) == "" && Wanted([]) == ""
  {}

  /** The two texts agree after trimming if and only if no visible character leaks or
      is lost, and between the first and the last visible character leaked line
      breaks make up exactly for lost ones. */
  lemma TrimmedEqualExactly(es: seq<Edit>)
    requires forall i :: 0 <= i < |es| ==> if es[i].Lost? then es[i].c == '\n' || es[i].c == '>' else es[i].c != '>'
    ensures TrimSpace(Written(es)) == TrimSpace(Wanted(es)) <==> ComesBack(es)
  {
    hide TrimSpace, Core, IsSpace, CountOf, Balanced;
    if TrimSpace(Written(es)) == TrimSpace(Wanted(es)) {
      VisibleCounted(es);
    }
    if NothingVisible(es) {
      TrimmedCore(es);
      EqualExactly(Core(es));
    }
  }

  lemma VisibleCounted(es: seq<Edit>)
    requires forall i :: 0 <= i < |es| ==> if es[i].Lost? then es[i].c == '\n' || es[i].c == '>' else es[i].c != '>'
    requires TrimSpace(Written(es)) == TrimSpace(Wanted(es))
    ensures NothingVisible(es)
  {
    hide TrimSpace, IsSpace, CountOf, Written, Wanted;
    var closing := (c: char) => c == '>';
    var visible := (c: char) => !IsSpace(c) && c != '>';
    BreakIsSpace();
    CountOfTrimmed(closing, Written(es));
    CountOfTrimmed(closing, Wanted(es));
    CountsDiffer(closing, es);
    NoLeaksCounted(closing, es);
    CountOfTrimmed(visible, Written(es));
    CountOfTrimmed(visible, Wanted(es));
    CountsDiffer(visible, es);
    NoLeaksCounted(visible, es);
  }

  /** Edits that change nothing, up to a line break at the end. */
  lemma UnchangedComesBack(es: seq<Edit>)
    requires forall i :: 0 <= i < |es| ==> es[i].Both? || (i == |es| - 1 && es[i] == Lost('\n'))
    ensures ComesBack(es)
  {
    hide IsSpace, Balanced, Core, BlankEdits;
    BreakIsSpace();
    var front, back := CoreShape(es);
    var core := Core(es);
    forall i | 0 <= i < |core| ensures core[i].Both? {
      MiddleAt(es, front, core, back, i);
    }
    AllBothBalanced(core);
  }

  lemma MiddleAt(es: seq<Edit>, front: seq<Edit>, core: seq<Edit>, back: seq<Edit>, i: nat)
    requires es == front + core + back && i < |core|
    ensures core[i] == es[|front| + i] && |es| == |front| + |core| + |back|
  {}

  lemma {:induction false} AllBothBalanced(es: seq<Edit>)
    requires forall i :: 0 <= i < |es| ==> es[i].Both?
    ensures Balanced(es, 0)
  {
    if es != [] { AllBothBalanced(es[1..]); }
  }
}
