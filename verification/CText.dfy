/** The C library's character classes and scanning functions, in the C locale.
    A C string is a Dafny string without '\0'; reading at its end yields '\0'. */
module CText {
  const NUL: char := '\0'

  function At(s: string, i: nat): char {
    if i < |s| then s[i] else NUL
  }

  predicate IsSpace(c: char) {
    c == ' ' || '\t' <= c <= '\r'
  }

  predicate IsDigit(c: char) {
    '0' <= c <= '9'
  }

  predicate IsXDigit(c: char) {
    IsDigit(c) || 'a' <= c <= 'f' || 'A' <= c <= 'F'
  }

  function DigitValue(c: char): nat
    requires IsXDigit(c)
  {
    if IsDigit(c) then c as int - '0' as int
    else if 'a' <= c then c as int - 'a' as int + 10
    else c as int - 'A' as int + 10
  }

  function SkipSpace(s: string): (r: string)
    ensures |r| <= |s| && r == s[|s| - |r|..]
    ensures r != [] ==> !IsSpace(r[0])
  {
    if s != [] && IsSpace(s[0]) then SkipSpace(s[1..]) else s
  }

  /** The number of leading characters of s that satisfy p. */
  function Span(s: string, p: char -> bool): (n: nat)
    ensures n <= |s|
    ensures forall i | 0 <= i < n :: p(s[i])
    ensures n < |s| ==> !p(s[n])
  {
    if s != [] && p(s[0]) then 1 + Span(s[1..], p) else 0
  }

  lemma {:induction false} SpanOf(a: string, b: string, p: char -> bool)
    requires forall c | c in a :: p(c)
    requires b != [] ==> !p(b[0])
    ensures Span(a + b, p) == |a|
  {
    if a != [] {
      assert (a + b)[1..] == a[1..] + b;
      SpanOf(a[1..], b, p);
    }
  }

  /** The length of the word s starts with. */
  function WordEnd(s: string): (n: nat)
    ensures n <= |s| && (s != [] && !IsSpace(s[0]) ==> n > 0)
  {
    if s == [] || IsSpace(s[0]) then 0 else 1 + WordEnd(s[1..])
  }

  lemma {:induction false} WordEndIs(w: string, rest: string)
    requires forall c | c in w :: !IsSpace(c)
    requires rest != [] ==> IsSpace(rest[0])
    ensures WordEnd(w + rest) == |w|
  {
    if w == [] {
      assert w + rest == rest;
    } else {
      assert (w + rest)[1..] == w[1..] + rest;
      WordEndIs(w[1..], rest);
    }
  }

  /** The position of c in s, or |s| (strchr returning NULL). */
  function Find(s: string, c: char): (n: nat)
    ensures n <= |s| && c !in s[..n]
    ensures n < |s| ==> s[n] == c
  {
    if s == [] || s[0] == c then 0
    else
      var n := Find(s[1..], c);
      assert s[..n + 1] == [s[0]] + s[1..][..n];
      n + 1
  }

  lemma FindIs(s: string, c: char, n: nat)
    requires n <= |s| && c !in s[..n]
    requires n < |s| ==> s[n] == c
    ensures Find(s, c) == n
  {
    var m := Find(s, c);
    assert forall i | 0 <= i < n :: s[i] == s[..n][i];
    assert forall i | 0 <= i < m :: s[i] == s[..m][i];
  }

  /** The value of a digit string, most significant digit first. */
  function Value(digits: string, base: nat): nat
    requires forall c | c in digits :: IsXDigit(c)
  {
    if digits == [] then 0
    else
      var n := |digits| - 1;
      assert forall c | c in digits[..n] :: c in digits;
      Value(digits[..n], base) * base + DigitValue(digits[n])
  }

  // ----- The characters themselves -----

  const LOWER := "0123456789abcdef"
  const UPPER := "0123456789ABCDEF"

  /** A digit stands for its place in the alphabet, in either case, and nothing else is one. */
  lemma DigitsMean(v: nat)
    requires v < 16
    ensures IsXDigit(LOWER[v]) && DigitValue(LOWER[v]) == v && (IsDigit(LOWER[v]) <==> v < 10)
    ensures IsXDigit(UPPER[v]) && DigitValue(UPPER[v]) == v
  {
  }

  lemma NoOtherDigits(c: char)
    requires IsXDigit(c)
    ensures DigitValue(c) < 16 && (c == LOWER[DigitValue(c)] || c == UPPER[DigitValue(c)])
  {
  }

  lemma SpacesMean(c: char)
    ensures IsSpace(c) <==> c == ' ' || c == '\t' || c == '\n' || c == '\U{B}' || c == '\U{C}' || c == '\r'
  {
  }

  predicate AllHex(digits: string) {
    forall c | c in digits :: IsXDigit(c)
  }

  function Power(base: nat, n: nat): nat {
    if n == 0 then 1 else base * Power(base, n - 1)
  }

  /** In two parts of a number, the first counts in units of the base to the length of the second. */
  lemma {:induction false} ValueJoins(a: string, b: string, base: nat)
    requires AllHex(a) && AllHex(b)
    ensures AllHex(a + b) && Value(a + b, base) == Value(a, base) * Power(base, |b|) + Value(b, base)
  {
    if b == [] {
      assert a + b == a;
    } else {
      var n := |b| - 1;
      assert forall c | c in b[..n] :: c in b;
      assert b[n] in b;
      ValueJoins(a, b[..n], base);
      assert (a + b)[..|a + b| - 1] == a + b[..n];
      Distributes(Value(a, base), Power(base, n), Value(b[..n], base), base);
    }
  }

  lemma Distributes(x: nat, p: nat, y: nat, base: nat)
    ensures (x * p + y) * base == x * (base * p) + y * base
  {
  }
}
