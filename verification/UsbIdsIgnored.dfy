/** The lines of a usb.ids file that name nothing: comments, tables the parser does not keep, and
    the entries of usage tables and languages. Every lookup is as if they were not there. */
module UsbIdsIgnored {
  import opened Wrappers
  import opened CText
  import opened NameTable
  import opened UsbIdsSpec
  import opened UsbIdsForms

  // ----- What such lines are read as -----

  /** A heading of a table that is not kept. */
  predicate IsOtherHeading(t: string) {
    "HUT " <= t || "L " <= t
  }

  lemma UsageForm(t: string)
    requires |t| >= 4 && t[0] == 'H' && t[1] == 'U' && t[2] == 'T' && t[3] == ' '
    ensures Classify(t) == UsageTable
  {
    NotPrefix("PHYSDES ", t, 0);
    NotPrefix("PHY ", t, 0);
    NotPrefix("BIAS ", t, 0);
    NotPrefix("L ", t, 0);
    NotPrefix("C ", t, 0);
    NotPrefix("AT", t, 0);
    NotPrefix("HCC", t, 1);
    UsageMark(t);
  }

  lemma UsageMark(t: string)
    requires |t| >= 4 && t[0] == 'H' && t[1] == 'U' && t[2] == 'T' && t[3] == ' '
    ensures "HUT " <= t
  {
  }

  lemma LanguageForm(t: string)
    requires |t| >= 2 && t[0] == 'L' && t[1] == ' '
    ensures Classify(t) == Language
  {
    NotPrefix("PHYSDES ", t, 0);
    NotPrefix("PHY ", t, 0);
    NotPrefix("BIAS ", t, 0);
    LanguageMark(t);
  }

  lemma LanguageMark(t: string)
    requires |t| >= 2 && t[0] == 'L' && t[1] == ' '
    ensures "L " <= t
  {
  }

  lemma PrefixAt(p: string, t: string, i: nat)
    requires p <= t && i < |p|
    ensures |t| >= |p| && t[i] == p[i]
  {
  }

  lemma OtherHeadingForm(t: string)
    requires IsOtherHeading(t)
    ensures Classify(t) == UsageTable || Classify(t) == Language
  {
    if "HUT " <= t {
      PrefixAt("HUT ", t, 0);
      PrefixAt("HUT ", t, 1);
      PrefixAt("HUT ", t, 2);
      PrefixAt("HUT ", t, 3);
      UsageForm(t);
    } else {
      PrefixAt("L ", t, 0);
      PrefixAt("L ", t, 1);
      LanguageForm(t);
    }
  }

  /** Lines that neither start with an id or a tab nor head a table; a class without an id; tabs
      without an id; and the two marks that start with a hex digit but are not ids. */
  predicate IsIgnored(t: string) {
    || t == ""
    || (!IsXDigit(t[0]) && t[0] != '\t' && !IsOtherHeading(t))
    || ("C " <= t && !IsXDigit(At(SkipSpace(t[2..]), 0)))
    || (t[0] == '\t' && !IsXDigit(At(t, 1)) && !(At(t, 1) == '\t' && IsXDigit(At(t, 2))))
    || "BIAS " <= t || ("AT" <= t && |t| > 2 && IsSpace(t[2]))
  }

  /** Comments and the marks of the tables that are not kept are among them. */
  lemma MarksIgnored(t: string)
    requires t == "" || t[0] == '#' || "PHYSDES " <= t || "PHY " <= t || "BIAS " <= t || "HCC" <= t || "HID " <= t
             || "R " <= t || "VT" <= t || ("AT" <= t && |t| > 2 && IsSpace(t[2]))
    ensures IsIgnored(t)
  {
    if t != "" && !("BIAS " <= t) && !("AT" <= t && |t| > 2 && IsSpace(t[2])) {
      assert t[0] in "#PHRV";
      NotPrefix("L ", t, 0);
      if t[0] == 'H' {
        NotPrefix("HUT ", t, 1);
      } else {
        NotPrefix("HUT ", t, 0);
      }
    }
  }

  lemma IgnoredForm(t: string)
    requires IsIgnored(t)
    ensures Classify(t) == Other
  {
    if t == "" || "BIAS " <= t {
    } else if "C " <= t {
      PrefixAt("C ", t, 0);
      PrefixAt("C ", t, 1);
      ClassForm(t);
    } else if t[0] == '\t' {
      TabForm(t);
    } else if IsXDigit(t[0]) {
      PrefixAt("AT", t, 0);
      TerminalForm(t);
    } else {
      UnknownForm(t);
    }
  }

  lemma TerminalForm(t: string)
    requires "AT" <= t && |t| > 2 && IsSpace(t[2]) && t[0] == 'A'
    ensures Classify(t) == Other
  {
    NotPrefix("PHYSDES ", t, 0);
    NotPrefix("PHY ", t, 0);
    NotPrefix("BIAS ", t, 0);
    NotPrefix("L ", t, 0);
    NotPrefix("C ", t, 0);
  }

  lemma UnknownForm(t: string)
    requires t != "" && !IsXDigit(t[0]) && t[0] != '\t' && !IsOtherHeading(t)
    ensures Classify(t) == Other
  {
    NotPrefix("C ", t, 0);
  }

  /** What stands before an id: nothing, one tab, two tabs, or the mark of a class. */
  predicate IsIndent(indent: string) {
    indent == "" || indent == "\t" || indent == "\t\t" || indent == "C "
  }

  lemma {:induction false} AllSkipped(blanks: string)
    requires forall c | c in blanks :: IsSpace(c)
    ensures SkipSpace(blanks) == []
  {
    if blanks != [] {
      assert blanks[0] in blanks;
      AllSkipped(blanks[1..]);
    }
  }

  lemma AfterIndent(t: string, indent: string, s: string)
    requires IsIndent(indent) && t == indent + s && s != []
    ensures |t| > |indent| && t[|indent|..] == s && (indent == "" ==> t == s)
    ensures indent == "C " ==> |indent| == 2 && t[0] == 'C' && t[1] == ' '
    ensures indent == "\t" ==> |indent| == 1 && t[0] == '\t'
    ensures indent == "\t\t" ==> |indent| == 2 && t[0] == '\t' && t[1] == '\t'
  {
    assert forall i | 0 <= i < |indent| :: t[i] == indent[i];
  }

  /** An id with no name is not a definition. */
  lemma NamelessForm(t: string, indent: string, s: string, digits: string, blanks: string)
    requires IsIndent(indent) && s == digits + blanks && t == indent + s
    requires IsId(digits) && forall c | c in blanks :: IsSpace(c)
    ensures Classify(t) == Other
  {
    NoName(s, digits, blanks);
    AfterIndent(t, indent, s);
    if indent == "" {
      NamelessVendor(s, digits, blanks);
    } else if indent == "C " {
      NamelessClass(t, s);
    } else if indent == "\t" {
      NamelessOneTab(t, s);
    } else {
      NamelessTwoTabs(t, s);
    }
  }

  lemma NoName(s: string, digits: string, blanks: string)
    requires s == digits + blanks && IsId(digits) && forall c | c in blanks :: IsSpace(c)
    ensures s != [] && IsXDigit(s[0]) && IsXDigit(At(s, 0)) && IdAndName(s) == None
  {
    if blanks != [] {
      assert blanks[0] in blanks;
    }
    AllSkipped(blanks);
    AnyIdAndName(digits, blanks);
  }

  lemma NamelessClass(t: string, s: string)
    requires |t| > 2 && t[0] == 'C' && t[1] == ' ' && t[2..] == s && IsXDigit(s[0]) && IdAndName(s) == None
    ensures Classify(t) == Other
  {
    NothingSkipped(s);
    ClassForm(t);
  }

  lemma NamelessOneTab(t: string, s: string)
    requires |t| > 1 && t[0] == '\t' && t[1..] == s && IsXDigit(s[0]) && IdAndName(s) == None
    ensures Classify(t) == Other
  {
    assert t[1] == s[0];
    OneTabForm(t);
  }

  lemma NamelessTwoTabs(t: string, s: string)
    requires |t| > 2 && t[0] == '\t' && t[1] == '\t' && t[2..] == s && IsXDigit(s[0]) && IdAndName(s) == None
    ensures Classify(t) == Other
  {
    assert t[2] == s[0];
    TwoTabsForm(t);
  }

  lemma NamelessVendor(s: string, digits: string, blanks: string)
    requires s == digits + blanks && IsId(digits) && (forall c | c in blanks :: IsSpace(c))
    requires IsXDigit(At(s, 0)) && IdAndName(s) == None
    ensures Classify(s) == Other
  {
    SecondOfNameless(s, digits, blanks);
    if |s| > 1 && s[0] == 'C' && s[1] == ' ' {
      LoneMark(s, digits, blanks);
    } else {
      HexForm(s);
    }
  }

  lemma SecondOfNameless(s: string, digits: string, blanks: string)
    requires s == digits + blanks && IsId(digits) && (forall c | c in blanks :: IsSpace(c))
    ensures s != [] && IsXDigit(s[0]) && (|s| > 1 ==> IsXDigit(s[1]) || IsSpace(s[1]))
    ensures |s| > 1 && s[1] == ' ' ==> |digits| == 1 && s[2..] == blanks[1..]
  {
    assert digits[0] in digits;
    if |digits| > 1 {
      assert s[1] == digits[1] && digits[1] in digits;
    } else if |s| > 1 {
      assert s[1] == blanks[0] && blanks[0] in blanks;
      assert s[2..] == blanks[1..];
    }
  }

  /** The mark of a class with nothing but blanks after it. */
  lemma LoneMark(s: string, digits: string, blanks: string)
    requires |s| > 1 && s[0] == 'C' && s[1] == ' '
    requires s == digits + blanks && IsId(digits) && (forall c | c in blanks :: IsSpace(c))
    ensures Classify(s) == Other
  {
    SecondOfNameless(s, digits, blanks);
    assert forall c | c in s[2..] :: c in blanks;
    AllSkipped(s[2..]);
    ClassForm(s);
  }

  // ----- Nothing changes without them -----

  /** What the lines after two files add depends on the registers they leave alone. */
  lemma {:induction false} SameRegistersSame(m: map<Key, string>, x: seq<Line>, y: seq<Line>, more: seq<Line>)
    requires RegistersAfter(x) == RegistersAfter(y) && AddAll(m, x) == AddAll(m, y)
    ensures RegistersAfter(x + more) == RegistersAfter(y + more) && AddAll(m, x + more) == AddAll(m, y + more)
    decreases |more|
  {
    if more == [] {
      assert x + more == x && y + more == y;
    } else {
      var n := |more| - 1;
      var x', y', l := x + more[..n], y + more[..n], more[n];
      SameRegistersSame(m, x, y, more[..n]);
      assert x + more == x' + [l] && y + more == y' + [l];
      OneMoreSame(m, x', y', l);
    }
  }

  lemma OneMoreSame(m: map<Key, string>, x: seq<Line>, y: seq<Line>, l: Line)
    requires RegistersAfter(x) == RegistersAfter(y) && AddAll(m, x) == AddAll(m, y)
    ensures RegistersAfter(x + [l]) == RegistersAfter(y + [l]) && AddAll(m, x + [l]) == AddAll(m, y + [l])
  {
    NextRegisters(x, l);
    NextRegisters(y, l);
    AddOneMore(m, x, l);
    AddOneMore(m, y, l);
    DefinitionFromRegisters(x, l);
    DefinitionFromRegisters(y, l);
  }

  /** A line that defines nothing and moves no register can be left out. */
  lemma LeftOut(m: map<Key, string>, above: seq<Line>, l: Line, below: seq<Line>)
    requires Definition(above, l) == None && RegistersAfter(above + [l]) == RegistersAfter(above)
    ensures AddAll(m, above + [l] + below) == AddAll(m, above + below)
  {
    AddOneMore(m, above, l);
    SameRegistersSame(m, above + [l], above, below);
  }

  lemma {:induction false} ClassifiedConcat(a: seq<string>, b: seq<string>)
    ensures Classified(a + b) == Classified(a) + Classified(b)
  {
    if a == [] {
      assert a + b == b;
    } else {
      assert (a + b)[1..] == a[1..] + b;
      ClassifiedConcat(a[1..], b);
    }
  }

  predicate AllPlain(texts: seq<string>) {
    forall i | 0 <= i < |texts| :: PlainLine(texts[i])
  }

  /** A file with one line in the middle, and without it. */
  lemma MiddleLine(a: seq<string>, t: string, b: seq<string>)
    requires AllPlain(a) && PlainLine(t) && AllPlain(b)
    ensures Lines(FileText(a + [t] + b)) == Classified(a) + [Classify(t)] + Classified(b)
    ensures Lines(FileText(a + b)) == Classified(a) + Classified(b)
  {
    AllPlainMiddle(a, t, b);
    FileReadsBack(a + [t] + b);
    FileReadsBack(a + b);
    ClassifiedMiddle(a, t, b);
    ClassifiedConcat(a, b);
  }

  lemma AllPlainMiddle(a: seq<string>, t: string, b: seq<string>)
    requires AllPlain(a) && PlainLine(t) && AllPlain(b)
    ensures AllPlain(a + [t] + b) && AllPlain(a + b)
  {
  }

  lemma ClassifiedMiddle(a: seq<string>, t: string, b: seq<string>)
    ensures Classified(a + [t] + b) == Classified(a) + [Classify(t)] + Classified(b)
  {
    ClassifiedConcat(a + [t], b);
    ClassifiedConcat(a, [t]);
    ClassifiedOne(t);
  }

  lemma ClassifiedOne(t: string)
    ensures Classified([t]) == [Classify(t)]
  {
    assert Classified([t]) == [Classify(t)] + Classified([t][1..]);
  }

  /** Comments and lines of tables that are not kept: the file names the same without them. */
  lemma IgnoredLeftOut(m: map<Key, string>, a: seq<string>, t: string, b: seq<string>)
    requires AllPlain(a) && PlainLine(t) && AllPlain(b) && IsIgnored(t)
    ensures AddAll(m, Lines(FileText(a + [t] + b))) == AddAll(m, Lines(FileText(a + b)))
  {
    IgnoredForm(t);
    MiddleLine(a, t, b);
    NextRegisters(Classified(a), Other);
    LeftOut(m, Classified(a), Other, Classified(b));
  }

  /** Ids without a name: the file names the same without them. */
  lemma NamelessLeftOut(m: map<Key, string>, a: seq<string>, indent: string, digits: string, blanks: string,
                        b: seq<string>)
    requires IsIndent(indent) && IsId(digits) && forall c | c in blanks :: IsSpace(c)
    requires AllPlain(a) && PlainLine(indent + (digits + blanks)) && AllPlain(b)
    ensures AddAll(m, Lines(FileText(a + [indent + (digits + blanks)] + b))) == AddAll(m, Lines(FileText(a + b)))
  {
    var t := indent + (digits + blanks);
    NamelessForm(t, indent, digits + blanks, digits, blanks);
    MiddleLine(a, t, b);
    NextRegisters(Classified(a), Other);
    LeftOut(m, Classified(a), Other, Classified(b));
  }

  /** Lines that cannot end a table: indented ones, comments and empty ones. */
  predicate IsInside(t: string) {
    t == "" || t[0] == '#' || t[0] == '\t'
  }

  predicate NoParent(r: Registers) {
    r.vendor == -1 && r.class_ == -1
  }

  predicate Indents(l: Line) {
    l.Indented? || l.DoubleIndented? || l.Other?
  }

  lemma InsideForm(t: string)
    requires IsInside(t)
    ensures Indents(Classify(t))
  {
    if t != "" && t[0] == '\t' {
      TabForm(t);
    }
  }

  /** Below a heading that is not kept, indented lines define nothing and move no register. */
  lemma InsideMovesNothing(above: seq<Line>, l: Line)
    requires NoParent(RegistersAfter(above)) && Indents(l)
    ensures Definition(above, l) == None && RegistersAfter(above + [l]) == RegistersAfter(above)
  {
    NextRegisters(above, l);
    DefinitionFromRegisters(above, l);
  }

  lemma {:induction false} ClassifiedInside(texts: seq<string>)
    requires forall i | 0 <= i < |texts| :: IsInside(texts[i])
    ensures forall l | l in Classified(texts) :: Indents(l)
  {
    if texts != [] {
      InsideForm(texts[0]);
      ClassifiedInside(texts[1..]);
    }
  }

  lemma {:induction false} StillNoParent(above: seq<Line>, lines: seq<Line>)
    requires NoParent(RegistersAfter(above)) && forall l | l in lines :: Indents(l)
    ensures NoParent(RegistersAfter(above + lines))
  {
    if lines == [] {
      assert above + lines == above;
    } else {
      var n := |lines| - 1;
      assert lines[n] in lines;
      StillNoParent(above, lines[..n]);
      InsideMovesNothing(above + lines[..n], lines[n]);
      assert above + lines == above + lines[..n] + [lines[n]];
    }
  }

  lemma HeadingHasNoParent(above: seq<string>, h: string, inside: seq<string>)
    requires IsOtherHeading(h) && forall i | 0 <= i < |inside| :: IsInside(inside[i])
    ensures NoParent(RegistersAfter(Classified(above + [h] + inside)))
  {
    OtherHeadingForm(h);
    ClassifiedConcat(above + [h], inside);
    ClassifiedConcat(above, [h]);
    ClassifiedOne(h);
    NextRegisters(Classified(above), Classify(h));
    ClassifiedInside(inside);
    StillNoParent(Classified(above) + [Classify(h)], Classified(inside));
  }

  /** The entries of a usage table or a language name nothing, whatever section stands above: the
      file names the same without them. */
  lemma EntryLeftOut(m: map<Key, string>, above: seq<string>, h: string, inside: seq<string>, t: string,
                     below: seq<string>)
    requires AllPlain(above + [h] + inside) && PlainLine(t) && AllPlain(below)
    requires IsOtherHeading(h) && (forall i | 0 <= i < |inside| :: IsInside(inside[i])) && t != "" && t[0] == '\t'
    ensures AddAll(m, Lines(FileText(above + [h] + inside + [t] + below))) ==
            AddAll(m, Lines(FileText(above + [h] + inside + below)))
  {
    var a := above + [h] + inside;
    HeadingHasNoParent(above, h, inside);
    InsideForm(t);
    InsideMovesNothing(Classified(a), Classify(t));
    MiddleLine(a, t, below);
    LeftOut(m, Classified(a), Classify(t), Classified(below));
  }
}
