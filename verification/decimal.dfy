/** Decimal text: what `str` prints for an int, and what `int` reads from ASCII text. */
module Decimal {
  import opened Wrappers

  predicate IsDigit(c: char) {
    '0' <= c <= '9'
  }

  function DigitOf(d: nat): char
    requires d < 10
  {
    ('0' as int + d) as char
  }

  function ValueOf(c: char): nat
    requires IsDigit(c)
  {
    c as int - '0' as int
  }

  /** ASCII white space: what `str.strip` and `\s` treat as such. */
  predicate IsSpace(c: char) {
    c == ' ' || 9 <= c as int <= 13 || 28 <= c as int <= 31
  }

  function PrintNat(n: nat): (s: string)
    ensures s != [] && forall i :: 0 <= i < |s| ==> IsDigit(s[i])
    ensures |s| > 1 ==> s[0] != '0'
    ensures n > 0 ==> s[0] != '0'
  {
    if n < 10 then [DigitOf(n)] else PrintNat(n / 10) + [DigitOf(n % 10)]
  }

  function Print(n: int): (s: string)
    ensures s != [] && (IsDigit(s[0]) || s[0] == '-') && IsDigit(s[|s| - 1])
  {
    if n < 0 then "-" + PrintNat(-n) else PrintNat(n)
  }

  /** Digits with single underscores between them; `after` says whether a digit was just read. */
  function ParseDigits(s: string, sum: int, after: bool): Option<int> {
    if s == [] then if after then Some(sum) else None
    else if IsDigit(s[0]) then ParseDigits(s[1..], 10 * sum + ValueOf(s[0]), true)
    else if s[0] == '_' && after then ParseDigits(s[1..], sum, false)
    else None
  }

  function TrimLeft(s: string): string {
    if s != [] && IsSpace(s[0]) then TrimLeft(s[1..]) else s
  }

  function TrimRight(s: string): string {
    if s != [] && IsSpace(s[|s| - 1]) then TrimRight(s[..|s| - 1]) else s
  }

  function Parse(text: string): Option<int> {
    var s := TrimRight(TrimLeft(text));
    if s != [] && s[0] == '-' then
      var r := ParseDigits(s[1..], 0, false);
      if r.Some? then Some(-r.value) else None
    else if s != [] && s[0] == '+' then ParseDigits(s[1..], 0, false)
    else ParseDigits(s, 0, false)
  }

  lemma {:induction false} AppendDigit(s: string, sum: int, after: bool, c: char)
    requires IsDigit(c) && ParseDigits(s, sum, after).Some?
    ensures ParseDigits(s + [c], sum, after) == Some(10 * ParseDigits(s, sum, after).value + ValueOf(c))
  {
    if s == [] {
      assert [c][1..] == [];
    } else {
      assert (s + [c])[1..] == s[1..] + [c];
      if IsDigit(s[0]) {
        AppendDigit(s[1..], 10 * sum + ValueOf(s[0]), true, c);
      } else {
        AppendDigit(s[1..], sum, false, c);
      }
    }
  }

  lemma {:induction false} ParsePrintNat(n: nat)
    ensures ParseDigits(PrintNat(n), 0, false) == Some(n)
  {
    if n < 10 {
      assert [DigitOf(n)][1..] == [];
    } else {
      ParsePrintNat(n / 10);
      AppendDigit(PrintNat(n / 10), 0, false, DigitOf(n % 10));
    }
  }

  /** Reading back a printed int gives the int, hence printing is injective. */
  lemma ParsePrint(n: int)
    ensures Parse(Print(n)) == Some(n)
  {
    ParsePrintNat(if n < 0 then -n else n);
    assert n < 0 ==> Print(n)[1..] == PrintNat(-n);
  }

  lemma PrintIsInjective(a: int, b: int)
    ensures Print(a) == Print(b) <==> a == b
  {
    ParsePrint(a);
    ParsePrint(b);
  }

  /** Blank, tab, line feed, vertical tab, form feed, carriage return and the four ASCII separators. */
  lemma WhiteSpace(c: char)
    ensures IsSpace(c) <==> c as int in {32, 9, 10, 11, 12, 13, 28, 29, 30, 31}
  {
  }
}
