/** The line forms of the usb.ids file format and what the parser reads from them. */
module UsbIdsForms {
  import opened Wrappers
  import opened Words
  import opened CText
  import opened UsbIdsSpec

  predicate IsId(digits: string) {
    digits != [] && AllHex(digits)
  }

  predicate IsBlank(sep: string) {
    sep != [] && forall c | c in sep :: IsSpace(c)
  }

  predicate IsName(name: string) {
    name != [] && !IsSpace(name[0])
  }

  /** An id, white space and a name. */
  function IdText(digits: string, sep: string, name: string): string {
    digits + (sep + name)
  }

  /** The id these digits stand for, kept in an unsigned int. */
  function IdOf(digits: string): u32
    requires IsId(digits)
  {
    Clamped(Value(digits, 16))
  }

  lemma {:induction false} HexBound(digits: string)
    requires AllHex(digits)
    ensures Value(digits, 16) < Power(16, |digits|)
  {
    if digits != [] {
      var n := |digits| - 1;
      assert forall c | c in digits[..n] :: c in digits;
      HexBound(digits[..n]);
      assert digits[n] in digits;
    }
  }

  lemma EightDigits(n: nat)
    requires n <= 8
    ensures Power(16, n) <= 0x1_0000_0000 && Power(16, 8) == 0x1_0000_0000
  {
    assert Power(16, 4) == 0x1_0000 by {
      assert Power(16, 2) == 0x100;
    }
    assert Power(16, 6) == 0x100_0000;
    assert Power(16, 8) == 0x1_0000_0000;
  }

  /** Up to eight digits keep their value. */
  lemma ShortIdKept(digits: string)
    requires IsId(digits) && |digits| <= 8
    ensures IdOf(digits) == Value(digits, 16)
  {
    HexBound(digits);
    EightDigits(|digits|);
  }

  /** What can stand right behind the digits of an id. */
  predicate EndsId(rest: string) {
    rest != [] ==> !IsXDigit(rest[0]) && rest[0] != 'x' && rest[0] != 'X'
  }

  /** Longer ids keep their last eight digits, up to sixteen of them. */
  lemma LongIdCut(high: string, low: string)
    requires AllHex(high) && IsId(low) && |high| <= 8 && |low| == 8
    ensures IsId(high + low) && IdOf(high + low) == Value(low, 16)
  {
    ValueJoins(high, low, 16);
    HexBound(high);
    HexBound(low);
    EightDigits(|high|);
    CutToLow(Value(high, 16), Value(low, 16));
  }

  lemma CutToLow(h: nat, l: nat)
    requires h < 0x1_0000_0000 && l < 0x1_0000_0000
    ensures Clamped(h * 0x1_0000_0000 + l) == l
  {
  }

  lemma NoHexMark(digits: string, rest: string)
    requires IsId(digits) && EndsId(rest)
    ensures var s := digits + rest; IsXDigit(At(s, 0)) && At(s, 1) != 'x' && At(s, 1) != 'X'
  {
    var s := digits + rest;
    assert s[0] == digits[0] && digits[0] in digits;
    if |digits| > 1 {
      assert s[1] == digits[1] && digits[1] in digits;
    } else if rest != [] {
      assert s[1] == rest[0];
    }
  }

  lemma HexNumberOf(s: string, digits: string, rest: string)
    requires s == digits + rest && IsXDigit(At(s, 0)) && At(s, 1) != 'x' && At(s, 1) != 'X'
    requires IsId(digits) && Span(s, IsXDigit) == |digits|
    ensures HexNumber(s) == (IdOf(digits), rest)
  {
    assert s[..|digits|] == digits && s[|digits|..] == rest;
  }

  lemma NumberReadsBack(digits: string, rest: string)
    requires IsId(digits) && EndsId(rest)
    ensures IsXDigit(At(digits + rest, 0))
    ensures HexNumber(digits + rest) == (IdOf(digits), rest)
  {
    NoHexMark(digits, rest);
    SpanOf(digits, rest, IsXDigit);
    HexNumberOf(digits + rest, digits, rest);
  }

  /** An id may stand behind 0x. */
  lemma MarkedNumber(x: char, digits: string, rest: string)
    requires (x == 'x' || x == 'X') && IsId(digits) && (rest != [] ==> !IsXDigit(rest[0]))
    ensures HexNumber(['0', x] + (digits + rest)) == (IdOf(digits), rest)
  {
    var s := ['0', x] + (digits + rest);
    assert s[2..] == digits + rest && s[2] == digits[0] && digits[0] in digits;
    SpanOf(digits, rest, IsXDigit);
    assert s[2..][..|digits|] == digits && s[2..][|digits|..] == rest;
  }

  lemma {:induction false} BlanksSkipped(sep: string, name: string)
    requires (forall c | c in sep :: IsSpace(c)) && IsName(name)
    ensures SkipSpace(sep + name) == name
  {
    if sep == [] {
      assert sep + name == name;
    } else {
      assert (sep + name)[1..] == sep[1..] + name;
      assert sep[0] in sep;
      assert forall c | c in sep[1..] :: c in sep;
      BlanksSkipped(sep[1..], name);
    }
  }

  /** The name is what follows the id without leading white space, if anything does. */
  lemma AnyIdAndName(digits: string, rest: string)
    requires IsId(digits) && EndsId(rest)
    ensures var s := digits + rest;
      s != [] && s[0] == digits[0] && IsXDigit(s[0]) && IsXDigit(At(s, 0))
      && IdAndName(s) == if SkipSpace(rest) == [] then None else Some((IdOf(digits), SkipSpace(rest)))
  {
    assert digits[0] in digits;
    NumberReadsBack(digits, rest);
  }

  lemma IdAndNameReadBack(digits: string, sep: string, name: string)
    requires IsId(digits) && IsBlank(sep) && IsName(name)
    ensures var s := IdText(digits, sep, name);
      s != [] && s[0] == digits[0] && IsXDigit(s[0]) && IdAndName(s) == Some((IdOf(digits), name))
  {
    assert sep[0] in sep;
    AnyIdAndName(digits, sep + name);
    BlanksSkipped(sep, name);
  }

  // ----- The branches of the parser -----

  lemma NotPrefix(p: string, s: string, i: nat)
    requires i < |p| && (i < |s| ==> p[i] != s[i])
    ensures !(p <= s)
  {
  }

  /** None of the marks checked before the ids. */
  predicate NoMark(s: string) {
    && s != [] && s[0] != '#' && !("PHYSDES " <= s) && !("PHY " <= s) && !("BIAS " <= s)
    && !("L " <= s) && !("C " <= s) && !("AT" <= s) && !("HCC" <= s)
  }

  lemma UnmarkedForm(s: string)
    requires NoMark(s)
    ensures Classify(s) ==
            if IsXDigit(s[0]) then
              match IdAndName(s) case None => Other case Some((id, name)) => VendorLine(id, name)
            else if s[0] == '\t' && IsXDigit(At(s, 1)) then
              match IdAndName(s[1..]) case None => Other case Some((id, name)) => Indented(id, name)
            else if s[0] == '\t' && At(s, 1) == '\t' && IsXDigit(At(s, 2)) then
              match IdAndName(s[2..]) case None => Other case Some((id, name)) => DoubleIndented(id, name)
            else if "HUT " <= s then UsageTable else Other
  {
  }

  lemma NoMarkOnTab(s: string)
    requires s != [] && s[0] == '\t'
    ensures NoMark(s) && !("HUT " <= s)
  {
    NotPrefix("PHYSDES ", s, 0);
    NotPrefix("PHY ", s, 0);
    NotPrefix("BIAS ", s, 0);
    NotPrefix("L ", s, 0);
    NotPrefix("C ", s, 0);
    NotPrefix("AT", s, 0);
    NotPrefix("HCC", s, 0);
    NotPrefix("HUT ", s, 0);
  }

  /** Lines that start with a tab. */
  lemma TabForm(s: string)
    requires s != [] && s[0] == '\t'
    ensures Classify(s) ==
            if IsXDigit(At(s, 1)) then
              match IdAndName(s[1..]) case None => Other case Some((id, name)) => Indented(id, name)
            else if At(s, 1) == '\t' && IsXDigit(At(s, 2)) then
              match IdAndName(s[2..]) case None => Other case Some((id, name)) => DoubleIndented(id, name)
            else Other
  {
    NoMarkOnTab(s);
    UnmarkedForm(s);
  }

  /** One tab and an id. */
  lemma OneTabForm(s: string)
    requires s != [] && s[0] == '\t' && IsXDigit(At(s, 1))
    ensures Classify(s) == match IdAndName(s[1..]) case None => Other case Some((id, name)) => Indented(id, name)
  {
    TabForm(s);
  }

  /** Two tabs and an id. */
  lemma TwoTabsForm(s: string)
    requires s != [] && s[0] == '\t' && At(s, 1) == '\t' && IsXDigit(At(s, 2))
    ensures Classify(s) == match IdAndName(s[2..]) case None => Other case Some((id, name)) => DoubleIndented(id, name)
  {
    TabForm(s);
  }

  lemma NoMarkOnHex(s: string)
    requires s != [] && IsXDigit(s[0]) && (|s| > 1 ==> s[1] != ' ' || s[0] != 'C')
    requires |s| > 1 ==> s[1] != 'T' && s[1] != 'I'
    ensures NoMark(s)
  {
    NotPrefix("PHYSDES ", s, 0);
    NotPrefix("PHY ", s, 0);
    NotPrefix("BIAS ", s, 1);
    NotPrefix("L ", s, 0);
    NotPrefix("C ", s, if s[0] == 'C' then 1 else 0);
    NotPrefix("AT", s, 1);
    NotPrefix("HCC", s, 0);
  }

  /** Lines that start with a hex digit and end there or go on with a hex digit or white space. */
  lemma HexForm(s: string)
    requires s != [] && IsXDigit(s[0]) && (|s| > 1 ==> IsXDigit(s[1]) || IsSpace(s[1]))
    requires |s| > 1 ==> !(s[0] == 'C' && s[1] == ' ')
    ensures Classify(s) == match IdAndName(s) case None => Other case Some((id, name)) => VendorLine(id, name)
  {
    NoMarkOnHex(s);
    UnmarkedForm(s);
  }

  lemma ClassMark(t: string)
    requires |t| >= 2 && t[0] == 'C' && t[1] == ' '
    ensures "C " <= t
  {
  }

  lemma NoMarkBeforeClass(t: string)
    requires t != [] && t[0] == 'C'
    ensures !("PHYSDES " <= t) && !("PHY " <= t) && !("BIAS " <= t) && !("L " <= t)
  {
    NotPrefix("PHYSDES ", t, 0);
    NotPrefix("PHY ", t, 0);
    NotPrefix("BIAS ", t, 0);
    NotPrefix("L ", t, 0);
  }

  lemma MarkedForm(t: string)
    requires t != [] && t[0] != '#'
    requires !("PHYSDES " <= t) && !("PHY " <= t) && !("BIAS " <= t) && !("L " <= t) && "C " <= t
    ensures Classify(t) == ClassifyClass(SkipSpace(t[2..]))
  {
  }

  /** Lines that start with the mark of a class. */
  lemma ClassForm(t: string)
    requires |t| >= 2 && t[0] == 'C' && t[1] == ' '
    ensures Classify(t) == ClassifyClass(SkipSpace(t[2..]))
  {
    ClassMark(t);
    NoMarkBeforeClass(t);
    MarkedForm(t);
  }

  // ----- The forms -----

  /** An id and a name are a vendor, but for the one-digit id C with a blank after it, which is
      taken for the mark of a class. */
  lemma VendorReadsBack(t: string, digits: string, sep: string, name: string)
    requires IsId(digits) && IsBlank(sep) && IsName(name) && t == IdText(digits, sep, name)
    ensures Classify(t) ==
            if digits == "C" && sep[0] == ' ' then ClassifyClass(name) else VendorLine(IdOf(digits), name)
  {
    if digits == "C" && sep[0] == ' ' {
      assert t[0] == 'C' && t[1] == sep[0] && t[2..] == sep[1..] + name;
      assert forall c | c in sep[1..] :: c in sep;
      BlanksSkipped(sep[1..], name);
      ClassForm(t);
    } else {
      IdAndNameReadBack(digits, sep, name);
      SecondCharacter(t, digits, sep, name);
      HexForm(t);
    }
  }

  lemma SecondCharacter(t: string, digits: string, sep: string, name: string)
    requires IsId(digits) && IsBlank(sep) && t == IdText(digits, sep, name)
    ensures |t| >= 2 && t[0] == digits[0] && (IsXDigit(t[1]) || IsSpace(t[1]))
    ensures t[0] == 'C' && t[1] == ' ' ==> digits == "C" && sep[0] == ' '
  {
    assert sep[0] in sep;
    if |digits| > 1 {
      assert t[1] == digits[1] && digits[1] in digits;
    } else {
      assert t[1] == sep[0];
      assert digits == [digits[0]];
    }
  }

  lemma NothingSkipped(s: string)
    requires s != [] && IsXDigit(s[0])
    ensures SkipSpace(s) == s
  {
  }

  /** The same after the mark of a class. */
  lemma ClassReadsBack(t: string, digits: string, sep: string, name: string)
    requires IsId(digits) && IsBlank(sep) && IsName(name)
    requires |t| > 2 && t[0] == 'C' && t[1] == ' ' && t[2..] == IdText(digits, sep, name)
    ensures Classify(t) == ClassLine(IdOf(digits), name)
  {
    var s := IdText(digits, sep, name);
    IdAndNameReadBack(digits, sep, name);
    NothingSkipped(s);
    ClassForm(t);
    assert ClassifyClass(s) == ClassLine(IdOf(digits), name);
  }

  /** The same after one tab. */
  lemma IndentedReadsBack(t: string, digits: string, sep: string, name: string)
    requires IsId(digits) && IsBlank(sep) && IsName(name)
    requires |t| > 1 && t[0] == '\t' && t[1..] == IdText(digits, sep, name)
    ensures Classify(t) == Indented(IdOf(digits), name)
  {
    IdAndNameReadBack(digits, sep, name);
    assert t[1] == t[1..][0];
    OneTabForm(t);
  }

  /** The same after two tabs. */
  lemma DoubleIndentedReadsBack(t: string, digits: string, sep: string, name: string)
    requires IsId(digits) && IsBlank(sep) && IsName(name)
    requires |t| > 2 && t[0] == '\t' && t[1] == '\t' && t[2..] == IdText(digits, sep, name)
    ensures Classify(t) == DoubleIndented(IdOf(digits), name)
  {
    IdAndNameReadBack(digits, sep, name);
    assert t[2] == t[2..][0];
    TwoTabsForm(t);
  }

  // ----- Whole files -----

  /** A line that fits the buffer of 512 and holds no line end. */
  predicate PlainLine(t: string) {
    |t| <= 510 && '\n' !in t && '\r' !in t && NUL !in t
  }

  function FileText(texts: seq<string>): string {
    if texts == [] then "" else texts[0] + ("\n" + FileText(texts[1..]))
  }

  function Classified(texts: seq<string>): seq<Line> {
    if texts == [] then [] else [Classify(texts[0])] + Classified(texts[1..])
  }

  lemma LineEndFound(t: string, rest: string)
    requires '\n' !in t
    ensures var f := t + ("\n" + rest);
      f != [] && Find(f, '\n') == |t| && f[..|t| + 1] == t + "\n" && f[|t| + 1..] == rest
  {
    var f := t + ("\n" + rest);
    assert f[..|t|] == t && f[|t|] == '\n';
    FindIs(f, '\n', |t|);
  }

  lemma LineTrimmed(t: string)
    requires PlainLine(t)
    ensures Trimmed(t + "\n") == t
  {
    var b := t + "\n";
    assert b[..|t|] == t && b[..|b|] == b;
    FindIs(b, NUL, |b|);
    FindIs(b, '\r', |b|);
    FindIs(b, '\n', |t|);
  }

  /** A file of plain lines is read line by line. */
  lemma {:induction false} FileReadsBack(texts: seq<string>)
    requires forall i | 0 <= i < |texts| :: PlainLine(texts[i])
    ensures Lines(FileText(texts)) == Classified(texts)
  {
    if texts != [] {
      var rest := FileText(texts[1..]);
      LineEndFound(texts[0], rest);
      LineTrimmed(texts[0]);
      FileReadsBack(texts[1..]);
    }
  }
}
