/** The few string operations the models share. */
module Text {
  /** What JavaScript's trim strips: white space and line terminators. */
  predicate IsSpace(c: char) {
    || '\t' <= c <= '\r' || c == ' ' || c == '\U{A0}' || c == '\U{1680}' || '\U{2000}' <= c <= '\U{200A}'
    || c == '\U{2028}' || c == '\U{2029}' || c == '\U{202F}' || c == '\U{205F}' || c == '\U{3000}' || c == '\U{FEFF}'
  }

  function TrimLeft(s: string): string {
    if s != [] && IsSpace(s[0]) then TrimLeft(s[1..]) else s
  }

  function TrimRight(s: string): string {
    if s != [] && IsSpace(s[|s| - 1]) then TrimRight(s[..|s| - 1]) else s
  }

  function Trim(s: string): string { TrimLeft(TrimRight(s)) }

  lemma {:induction false} TrimRightKeepsStart(s: string)
    ensures TrimRight(s) != [] ==> TrimRight(s)[0] == s[0]
    ensures TrimRight(TrimRight(s)) == TrimRight(s)
  {
    if s != [] && IsSpace(s[|s| - 1]) { TrimRightKeepsStart(s[..|s| - 1]); }
  }

  lemma {:induction false} TrimLeftKeepsEnd(s: string)
    ensures TrimLeft(s) != [] ==> TrimLeft(s)[|TrimLeft(s)| - 1] == s[|s| - 1]
    ensures TrimLeft(TrimLeft(s)) == TrimLeft(s)
  {
    if s != [] && IsSpace(s[0]) { TrimLeftKeepsEnd(s[1..]); }
  }

  lemma {:induction false} TrimmedRight(s: string)
    ensures TrimRight(s) != [] ==> !IsSpace(TrimRight(s)[|TrimRight(s)| - 1])
  {
    if s != [] && IsSpace(s[|s| - 1]) { TrimmedRight(s[..|s| - 1]); }
  }

  /** What is trimmed already stays as it is. */
  lemma TrimTwice(s: string)
    ensures Trim(Trim(s)) == Trim(s)
  {
    var right := TrimRight(s);
    TrimLeftKeepsEnd(right);
    TrimmedRight(s);
  }

  predicate IsDigit(c: char) { '0' <= c <= '9' }

  predicate Digits(s: string) { forall i :: 0 <= i < |s| ==> IsDigit(s[i]) }

  /** The number plain decimal digits stand for; no digits stand for zero, as in JavaScript. */
  function NumberOf(s: string): (n: nat)
    requires Digits(s)
  {
    if s == [] then 0 else 10 * NumberOf(s[..|s| - 1]) + (s[|s| - 1] - '0') as nat
  }

  /** Two digits, with a leading zero below ten. */
  function TwoDigits(n: nat): (s: string)
    requires n < 100
    ensures |s| == 2 && Digits(s)
  {
    ['0' + (n / 10) as char, '0' + (n % 10) as char]
  }

  lemma TwoDigitsReadBack(n: nat)
    requires n < 100
    ensures NumberOf(TwoDigits(n)) == n
  {
    var s := TwoDigits(n);
    assert s[..1][..0] == [] && s[..1][0] == s[0];
    assert NumberOf(s[..1]) == n / 10;
  }
}
