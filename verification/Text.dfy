/** C strings and the numbers written in them; a char stands for one byte. */
module Text {

  predicate IsDigit(c: char) { '0' <= c <= '9' }

  predicate AllDigits(s: string) { forall i :: 0 <= i < |s| ==> IsDigit(s[i]) }

  /** printf's %d for a number that is not negative. */
  function Dec(n: nat): (s: string)
    ensures s != "" && AllDigits(s)
  {
    if n < 10 then [(n as char) + '0'] else Dec(n / 10) + [((n % 10) as char) + '0']
  }

  /** The number a row of digits stands for. */
  function Value(s: string): nat
    requires AllDigits(s)
  {
    if s == "" then 0 else Value(s[..|s| - 1]) * 10 + (s[|s| - 1] - '0') as nat
  }

  lemma {:induction false} ValueOfDec(n: nat)
    ensures Value(Dec(n)) == n
  {
    if n >= 10 {
      ValueOfDec(n / 10);
      assert Dec(n)[..|Dec(n)| - 1] == Dec(n / 10);
    }
  }

  function Power(base: nat, k: nat): nat { if k == 0 then 1 else base * Power(base, k - 1) }

  lemma {:induction false} DecLength(n: nat, k: nat)
    requires k >= 1 && n < Power(10, k)
    ensures |Dec(n)| <= k
  {
    if n >= 10 { DecLength(n / 10, k - 1); }
  }

  lemma DecIsShort(n: nat)
    requires n < 0x1_0000
    ensures |Dec(n)| <= 5
  {
    assert Power(10, 5) == 100000;
    DecLength(n, 5);
  }

  /** The digits a string starts with. */
  function Digits(s: string): (d: string)
    ensures d <= s && AllDigits(d)
  {
    if s == "" || !IsDigit(s[0]) then "" else [s[0]] + Digits(s[1..])
  }

  lemma {:induction false} DigitsOf(d: string, rest: string)
    requires AllDigits(d) && (rest == "" || !IsDigit(rest[0]))
    ensures Digits(d + rest) == d
  {
    if d == "" {
      assert d + rest == rest;
    } else {
      DigitsOf(d[1..], rest);
      assert (d + rest)[1..] == d[1..] + rest;
    }
  }

  predicate IsSpace(c: char) { c == ' ' || '\t' <= c <= '\r' }

  function SkipSpace(s: string): (r: string)
    ensures |r| <= |s|
  {
    if s != "" && IsSpace(s[0]) then SkipSpace(s[1..]) else s
  }

  /** atoi, up to overflow: blanks, a sign, digits. */
  function Atoi(s: string): int {
    var t := SkipSpace(s);
    if t != "" && t[0] == '-' then -(Value(Digits(t[1..])) as int)
    else if t != "" && t[0] == '+' then Value(Digits(t[1..]))
    else Value(Digits(t))
  }

  lemma AtoiOfDec(n: nat)
    ensures Atoi(Dec(n)) == n
  {
    DigitsOf(Dec(n), "");
    assert Dec(n) + "" == Dec(n);
    assert IsDigit(Dec(n)[0]);
    ValueOfDec(n);
  }

  /** The place of the first c, or the end. */
  function IndexOf(s: string, c: char): (i: nat)
    ensures i <= |s| && (i < |s| ==> s[i] == c) && forall k :: 0 <= k < i ==> s[k] != c
  {
    if s == "" || s[0] == c then 0 else 1 + IndexOf(s[1..], c)
  }

  lemma IndexOfIs(s: string, c: char, i: nat)
    requires i <= |s| && (i < |s| ==> s[i] == c) && forall k :: 0 <= k < i ==> s[k] != c
    ensures IndexOf(s, c) == i
  {
  }

  /** What C sees of a buffer: up to its first NUL. */
  function CString(s: string): string { s[..IndexOf(s, '\0')] }

  function Cut(s: string, most: nat): string { if |s| <= most then s else s[..most] }

  /** fgets: one line with its newline, or as much of it as the buffer takes. */
  function LineLength(s: string, most: nat): nat
    ensures LineLength(s, most) <= |s| && (s != "" && most > 0 ==> LineLength(s, most) > 0)
  {
    var i := IndexOf(s, '\n');
    var whole := if i < |s| then i + 1 else i;
    if whole <= most then whole else most
  }

  /** strcspn with "\r\n": the part before a line end. */
  function UntilBreak(s: string): string {
    s[..if IndexOf(s, '\r') < IndexOf(s, '\n') then IndexOf(s, '\r') else IndexOf(s, '\n')]
  }
}
