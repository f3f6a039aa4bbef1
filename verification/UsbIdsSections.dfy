/** Which heading a line of a usb.ids file stands below, and which headings lose what stands below them. */
module UsbIdsSections {
  import opened Wrappers
  import Words
  import opened CText
  import opened NameTable
  import opened UsbIdsSpec
  import opened UsbIdsForms

  predicate NoHeading(lines: seq<Line>) {
    forall l | l in lines :: !l.IsHeading()
  }

  predicate NoIndented(lines: seq<Line>) {
    forall l | l in lines :: !l.Indented?
  }

  /** The section is that of the last heading. */
  lemma {:induction false} SectionIs(above: seq<Line>, h: Line, below: seq<Line>)
    requires h.IsHeading() && NoHeading(below)
    ensures Section(above + [h] + below) == Some(h)
  {
    var lines := above + [h] + below;
    if below == [] {
      assert lines == above + [h];
    } else {
      var n := |below| - 1;
      assert lines[|lines| - 1] == below[n] && below[n] in below;
      assert lines[..|lines| - 1] == above + [h] + below[..n];
      SectionIs(above, h, below[..n]);
    }
  }

  /** The subsection is that of the last single-indented id below the heading. */
  lemma {:induction false} SubsectionIs(above: seq<Line>, l: Line, below: seq<Line>)
    requires l.Indented? && NoHeading(below) && NoIndented(below)
    ensures Subsection(above + [l] + below) == Some(l.id)
  {
    var lines := above + [l] + below;
    if below == [] {
      assert lines == above + [l];
    } else {
      var n := |below| - 1;
      assert lines[|lines| - 1] == below[n] && below[n] in below;
      assert lines[..|lines| - 1] == above + [l] + below[..n];
      SubsectionIs(above, l, below[..n]);
    }
  }

  /** What a line indented once defines below its heading: nothing exactly when the heading's id
      is the one the registers take for none. */
  lemma IndentedBelow(above: seq<Line>, h: Line, below: seq<Line>, id: Words.u32, name: string)
    requires (h.VendorLine? || h.ClassLine?) && NoHeading(below)
    ensures Definition(above + [h] + below, Indented(id, name)) ==
            if h.id == NO_ID then None
            else if h.VendorLine? then Some((ProductKey(h.id % 0x1_0000, id % 0x1_0000), name))
            else Some((SubclassKey(h.id % 0x100, id % 0x100), name))
  {
    SectionIs(above, h, below);
  }

  /** What a line indented twice defines below its class and subclass: nothing exactly when one of
      the two ids is the one the registers take for none. */
  lemma DoubleIndentedBelow(above: seq<Line>, h: Line, between: seq<Line>, l: Line, below: seq<Line>,
                            id: Words.u32, name: string)
    requires h.ClassLine? && NoHeading(between) && l.Indented? && NoHeading(below) && NoIndented(below)
    ensures Definition(above + [h] + between + [l] + below, DoubleIndented(id, name)) ==
            if h.id == NO_ID || l.id == NO_ID then None
            else Some((ProtocolKey(h.id % 0x100, l.id % 0x100, id % 0x100), name))
  {
    SubsectionIs(above + [h] + between, l, below);
    SectionIs(above, h, between + [l] + below);
    assert above + [h] + (between + [l] + below) == above + [h] + between + [l] + below;
  }

  // ----- On text -----

  /** The ids on text that are taken for none. */
  lemma NoIdExactly(digits: string)
    requires IsId(digits)
    ensures var v := Value(digits, 16);
      IdOf(digits) == NO_ID <==> v >= 0x1_0000_0000_0000_0000 || v % 0x1_0000_0000 == NO_ID
  {
  }

  lemma OneF(s: string)
    requires AllHex(s)
    ensures AllHex(s + "F") && Value(s + "F", 16) == Value(s, 16) * 16 + 15
  {
    assert (s + "F")[..|s|] == s && (s + "F")[|s|] == 'F';
  }

  lemma FourFs(s: string)
    requires AllHex(s)
    ensures AllHex(s + "FFFF") && Value(s + "FFFF", 16) == Value(s, 16) * 0x1_0000 + 0xFFFF
  {
    var a := s + "F";
    var b := a + "F";
    var c := b + "F";
    OneF(s);
    OneF(a);
    OneF(b);
    OneF(c);
    assert c + "F" == s + "FFFF";
  }

  /** Every id that ends in eight F is such an id; "1FFFFFFFF" is one. */
  lemma EndsInFs(digits: string)
    requires AllHex(digits)
    ensures IsId(digits + "FFFFFFFF") && IdOf(digits + "FFFFFFFF") == NO_ID
  {
    FourFs(digits);
    FourFs(digits + "FFFF");
    assert digits + "FFFF" + "FFFF" == digits + "FFFFFFFF";
    NoIdExactly(digits + "FFFFFFFF");
  }

  /** A vendor and an entry below it: the entry is lost exactly when the vendor's id is taken for
      none, however the two are written. */
  lemma EntryBelowVendor(t: string, digits: string, sep: string, name: string,
                         u: string, digits': string, sep': string, name': string)
    requires IsId(digits) && IsBlank(sep) && IsName(name) && t == IdText(digits, sep, name)
    requires !(digits == "C" && sep[0] == ' ') && PlainLine(t) && PlainLine(u)
    requires IsId(digits') && IsBlank(sep') && IsName(name')
    requires |u| > 1 && u[0] == '\t' && u[1..] == IdText(digits', sep', name')
    ensures var lines := Lines(FileText([t, u]));
      && |lines| == 2
      && Definition(lines[..1], lines[1]) ==
         if IdOf(digits) == NO_ID then None
         else Some((ProductKey(IdOf(digits) % 0x1_0000, IdOf(digits') % 0x1_0000), name'))
  {
    VendorReadsBack(t, digits, sep, name);
    IndentedReadsBack(u, digits', sep', name');
    TwoLines(t, u);
    SecondBelowFirst(VendorLine(IdOf(digits), name), IdOf(digits'), name');
  }

  lemma TwoLines(t: string, u: string)
    requires PlainLine(t) && PlainLine(u)
    ensures Lines(FileText([t, u])) == [Classify(t), Classify(u)]
  {
    FileReadsBack([t, u]);
    ClassifiedTwo(t, u);
  }

  lemma ClassifiedTwo(t: string, u: string)
    ensures Classified([t, u]) == [Classify(t), Classify(u)]
  {
    assert [t, u][1..] == [u] && [u][1..] == [];
    assert Classified([u]) == [Classify(u)] + Classified([u][1..]);
  }

  lemma SecondBelowFirst(h: Line, id: Words.u32, name: string)
    requires h.VendorLine?
    ensures Definition([h, Indented(id, name)][..1], [h, Indented(id, name)][1]) ==
            if h.id == NO_ID then None else Some((ProductKey(h.id % 0x1_0000, id % 0x1_0000), name))
  {
    assert [h, Indented(id, name)][..1] == [] + [h] + [];
    IndentedBelow([], h, [], id, name);
  }
}
