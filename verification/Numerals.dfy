/** Decimal printing and parsing of integers, as Python's `f"{n}"` and `int(s)` do it. */
module Numerals {

  function Digit(d: nat): (c: char)
    requires d < 10
    ensures IsDigit(c) && DigitValue(c) == d
  {
    '0' + d as char
  }

  predicate IsDigit(c: char) {
    '0' <= c <= '9'
  }

  function DigitValue(c: char): (d: nat)
    requires IsDigit(c)
    ensures d < 10
  {
    c as int - '0' as int
  }

  /** `str.isdigit` on ASCII text: false for the empty string. */
  predicate IsDigits(s: string) {
    s != [] && AllDigits(s)
  }

  predicate AllDigits(s: string) {
    forall i :: 0 <= i < |s| ==> IsDigit(s[i])
  }

  function Decimal(n: nat): string {
    if n < 10 then [Digit(n)] else Decimal(n / 10) + [Digit(n % 10)]
  }

  function Print(n: int): string {
    if n < 0 then "-" + Decimal(-n) else Decimal(n)
  }

  function Parse(s: string): nat
    requires AllDigits(s)
  {
    if s == [] then 0 else 10 * Parse(s[..|s| - 1]) + DigitValue(s[|s| - 1])
  }

  lemma {:induction false} ParseDecimal(n: nat)
    ensures IsDigits(Decimal(n)) && Parse(Decimal(n)) == n
  {
    var s := Decimal(n);
    if n >= 10 {
      ParseDecimal(n / 10);
      assert s[..|s| - 1] == Decimal(n / 10);
    } else {
      assert s[..0] == [];
    }
  }

  /** The notation itself: decimal digits, most significant first, and a sign before a negative number. */
  lemma Notation(n: nat, d: nat)
    requires d < 10
    ensures Print(d) == ["0123456789"[d]]
    ensures n > 0 ==> Print(10 * n + d) == Print(n) + ["0123456789"[d]]
    ensures n > 0 ==> Print(0 - n) == "-" + Print(n)
  {
    DigitIsLiteral(d);
    assert (10 * n + d) / 10 == n && (10 * n + d) % 10 == d;
  }

  lemma DigitIsLiteral(d: nat)
    requires d < 10
    ensures Digit(d) == "0123456789"[d]
  {
    var digits := "0123456789";
    if d < 5 {
      assert d == 0 || d == 1 || d == 2 || d == 3 || d == 4;
    } else {
      assert d == 5 || d == 6 || d == 7 || d == 8 || d == 9;
    }
  }

  lemma SignShows(n: int)
    ensures Print(n) != [] && (Print(n)[0] == '-' <==> n < 0)
  {
    ParseDecimal(if n < 0 then -n else n);
  }

  /** Distinct integers print differently. */
  lemma PrintIsInjective(m: int, n: int)
    requires Print(m) == Print(n)
    ensures m == n
  {
    ParseDecimal(if m < 0 then -m else m);
    ParseDecimal(if n < 0 then -n else n);
    SignShows(m);
    SignShows(n);
    if m < 0 {
      assert Print(m)[1..] == Decimal(-m) && Print(n)[1..] == Decimal(-n);
    }
  }

  /** Printing never lengthens a numeral. */
  lemma {:induction false} PrintIsShortest(s: string)
    requires IsDigits(s)
    ensures |Decimal(Parse(s))| <= |s|
    decreases |s|
  {
    var front := s[..|s| - 1];
    if front == [] {
      assert Parse(s) == DigitValue(s[0]);
    } else {
      PrintIsShortest(front);
      assert Parse(s) / 10 == Parse(front);
    }
  }

  function Pow10(k: nat): nat {
    if k == 0 then 1 else 10 * Pow10(k - 1)
  }

  lemma {:induction false} DecimalLength(n: nat, k: nat)
    requires k >= 1 && n < Pow10(k)
    ensures |Decimal(n)| <= k
    decreases k
  {
    if n >= 10 {
      DecimalLength(n / 10, k - 1);
    }
  }

  // --- splitting at a separator -----------------------------------------------------------------

  /** A character of a printed integer. */
  predicate IsNumeral(c: char) {
    IsDigit(c) || c == '-'
  }

  lemma PrintIsNumeral(n: int)
    ensures Print(n) != [] && forall i :: 0 <= i < |Print(n)| ==> IsNumeral(Print(n)[i])
  {
    ParseDecimal(if n < 0 then -n else n);
  }

  predicate Free(s: string, c: char) {
    forall i :: 0 <= i < |s| ==> s[i] != c
  }

  lemma PrintIsFree(n: int, c: char)
    requires !IsNumeral(c)
    ensures Free(Print(n), c)
  {
    PrintIsNumeral(n);
  }

  /** Text before the first separator determines where it splits. */
  lemma SplitIsUnique(a: string, b: string, c: char, x: string, y: string)
    requires Free(a, c) && Free(b, c) && a + [c] + x == b + [c] + y
    ensures a == b && x == y
  {
    var l, r := a + [c] + x, b + [c] + y;
    assert l[|a|] == c && r[|b|] == c;
    assert forall i :: 0 <= i < |a| ==> l[i] == a[i];
    assert forall i :: 0 <= i < |b| ==> r[i] == b[i];
    assert |a| == |b|;
    assert l[..|a|] == a && r[..|b|] == b;
    assert l[|a| + 1..] == x && r[|b| + 1..] == y;
  }
}
