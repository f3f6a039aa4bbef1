/** How a usb.ids file is cut into lines: line ends, lines too long for the buffer, and the end of the file. */
module UsbIdsLineEnds {
  import opened CText
  import opened UsbIdsSpec
  import opened UsbIdsForms

  /** No line end and no end of string. */
  predicate Unbroken(t: string) {
    '\n' !in t && '\r' !in t && NUL !in t
  }

  /** A buffer counts up to its first line end or zero, whatever follows. */
  lemma TrimmedAt(t: string, end: char, more: string)
    requires Unbroken(t) && (end == '\n' || end == '\r' || end == NUL)
    ensures Trimmed(t + ([end] + more)) == t
  {
    var b := t + ([end] + more);
    var s := b[..Find(b, NUL)];
    PrefixBefore(t, b, NUL);
    var u := s[..Find(s, '\r')];
    PrefixBefore(t, s, '\r');
    PrefixBefore(t, u, '\n');
  }

  /** Text without c stays when its continuation is cut at c. */
  lemma PrefixBefore(t: string, b: string, c: char)
    requires t <= b && c !in t
    ensures t <= b[..Find(b, c)]
    ensures |b| > |t| && b[|t|] == c ==> b[..Find(b, c)] == t
    ensures |b| > |t| && b[|t|] != c ==> |b[..Find(b, c)]| > |t| && b[..Find(b, c)][|t|] == b[|t|]
    ensures b == t ==> b[..Find(b, c)] == t
  {
    var n := Find(b, c);
    NotWithin(t, b, c, n);
    if n > |t| {
      assert b[..n][|t|] == b[|t|];
    }
  }

  lemma NotWithin(t: string, b: string, c: char, n: nat)
    requires t <= b && c !in t && n <= |b| && (n < |b| ==> b[n] == c)
    ensures n >= |t|
  {
    assert forall i | 0 <= i < |t| :: b[i] in t;
  }

  lemma Unended(t: string)
    requires Unbroken(t)
    ensures Trimmed(t) == t
  {
    FindIs(t, NUL, |t|);
    FindIs(t, '\r', |t|);
    FindIs(t, '\n', |t|);
  }

  /** The last line counts without a line end. */
  lemma LastLine(t: string)
    requires t != [] && PlainLine(t)
    ensures Lines(t) == [Classify(t)]
  {
    FindIs(t, '\n', |t|);
    assert t[..|t|] == t && t[|t|..] == [];
    Unended(t);
  }

  /** A line may end in a carriage return before its newline. */
  lemma ReturnIgnored(t: string, rest: string)
    requires Unbroken(t) && |t| <= 509
    ensures Lines(t + ("\r\n" + rest)) == [Classify(t)] + Lines(rest)
  {
    var f := t + ("\r\n" + rest);
    assert f[..|t| + 1] == t + "\r" && f[|t| + 1] == '\n';
    FindIs(f, '\n', |t| + 1);
    assert f[..|t| + 2] == t + (['\r'] + "\n") && f[|t| + 2..] == rest;
    TrimmedAt(t, '\r', "\n");
  }

  /** A line of more than 510 characters is read as two lines or more, cut after 511 characters. */
  lemma LongLineSplit(a: string, rest: string)
    requires Unbroken(a) && |a| == 511
    ensures Lines(a + rest) == [Classify(a)] + Lines(rest)
  {
    var f := a + rest;
    assert f[..511] == a && f[511..] == rest;
    NotWithin(a, f, '\n', Find(f, '\n'));
    Unended(a);
  }
}
