/** Numbers printed by `%d` and `%x`, and keys built from them with separators. */
module Numerals {
  import opened Text

  function Digit(d: nat): (c: char)
    requires d < 16
    ensures '0' <= c <= '9' || 'a' <= c <= 'f'
  {
    if d < 10 then ('0' as int + d) as char else ('a' as int + d - 10) as char
  }

  function Print(n: nat, base: nat): (s: string)
    requires 2 <= base <= 16
    ensures s != ""
    ensures forall i :: 0 <= i < |s| ==> '0' <= s[i] <= '9' || 'a' <= s[i] <= 'f'
  {
    if n < base then [Digit(n)] else Print(n / base, base) + [Digit(n % base)]
  }

  function Decimal(n: nat): string { Print(n, 10) }

  function Hex(n: nat): string { Print(n, 16) }

  lemma DigitsDiffer(i: nat, j: nat)
    requires i < 16 && j < 16 && Digit(i) == Digit(j)
    ensures i == j
  {}

  lemma DivModDetermine(m: nat, n: nat, base: nat)
    requires base >= 2 && m / base == n / base && m % base == n % base
    ensures m == n
  {
    assert m == (m / base) * base + m % base && n == (n / base) * base + n % base;
  }

  lemma DivSmaller(n: nat, base: nat)
    requires 2 <= base <= n
    ensures 0 < n / base < n
  {}

  lemma PrintShort(n: nat, base: nat)
    requires 2 <= base <= 16
    ensures |Print(n, base)| == 1 <==> n < base
    ensures n < base ==> Print(n, base) == [Digit(n)]
  {
    if n >= base { assert |Print(n / base, base)| >= 1; }
  }

  /** A number can be read back from its digits. */
  lemma {:induction false} PrintInjective(m: nat, n: nat, base: nat)
    requires 2 <= base <= 16 && Print(m, base) == Print(n, base)
    ensures m == n
  {
    hide Digit;
    var s, t := Print(m, base), Print(n, base);
    PrintShort(m, base);
    PrintShort(n, base);
    if m < base {
      assert Digit(m) == s[0] == t[0] == Digit(n);
      DigitsDiffer(m, n);
    } else {
      assert Print(m / base, base) == s[..|s|-1] == t[..|t|-1] == Print(n / base, base);
      assert Digit(m % base) == s[|s|-1] == t[|t|-1] == Digit(n % base);
      DigitsDiffer(m % base, n % base);
      DivSmaller(m, base);
      PrintInjective(m / base, n / base, base);
      DivModDetermine(m, n, base);
    }
  }

  /** A separator that occurs in neither front part fixes the split. */
  lemma FirstSeparator(a: string, x: string, b: string, y: string, c: char)
    requires Lacks(a, c) && Lacks(b, c) && a + [c] + x == b + [c] + y
    ensures a == b && x == y
  {
    var s, t := a + [c] + x, b + [c] + y;
    assert s[|a|] == c && t[|b|] == c;
    assert |a| == |b|;
    assert a == s[..|a|] && b == t[..|b|];
    assert x == s[|a|+1..] && y == t[|b|+1..];
  }

  /** A separator that occurs in neither back part fixes the split. */
  lemma LastSeparator(a: string, x: string, b: string, y: string, c: char)
    requires Lacks(x, c) && Lacks(y, c) && a + [c] + x == b + [c] + y
    ensures a == b && x == y
  {
    var s, t := a + [c] + x, b + [c] + y;
    assert s[|a|] == c && t[|b|] == c;
    assert |x| == |y|;
    assert a == s[..|a|] && b == t[..|b|];
    assert x == s[|a|+1..] && y == t[|b|+1..];
  }
}
