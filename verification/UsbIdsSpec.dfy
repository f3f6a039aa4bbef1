/** The meaning of a usb.ids file: lines grouped under the nearest heading, first definition wins. */
module UsbIdsSpec {
  import opened Wrappers
  import opened Words
  import opened CText
  import opened NameTable

  datatype Line =
    | VendorLine(id: u32, name: string)
    | ClassLine(id: u32, name: string)
    | UsageTable
    | Language
    | Indented(id: u32, name: string)
    | DoubleIndented(id: u32, name: string)
    | Other
  {
    predicate IsHeading() {
      VendorLine? || ClassLine? || UsageTable? || Language?
    }
  }

  // ----- From the file to lines -----

  /** What one fgets with a buffer of 512 delivers: up to a newline, at most 511 characters. */
  function Chunk(f: string): (n: nat)
    requires f != []
    ensures 0 < n <= |f| && n <= 511
    ensures '\n' !in f[..n - 1]
    ensures n < 511 && n < |f| ==> f[n - 1] == '\n'
  {
    var n := Find(f, '\n');
    if n < 511 && n < |f| then n + 1 else if |f| < 511 then |f| else 511
  }

  /** The buffer as a C string, cut at the first carriage return and newline. */
  function Trimmed(buf: string): string {
    var s := buf[..Find(buf, NUL)];
    var t := s[..Find(s, '\r')];
    t[..Find(t, '\n')]
  }

  function Lines(f: string): seq<Line> {
    if f == [] then [] else [Classify(Trimmed(f[..Chunk(f)]))] + Lines(f[Chunk(f)..])
  }

  // ----- The lexical form of a line -----

  /** strtoul(s, &end, 16) cut to an unsigned int, for s that starts with a hex digit. */
  function HexNumber(s: string): (r: (u32, string))
    requires IsXDigit(At(s, 0))
    ensures |r.1| <= |s|
  {
    var marked := s[0] == '0' && (At(s, 1) == 'x' || At(s, 1) == 'X') && IsXDigit(At(s, 2));
    var digits := if marked then s[2..] else s;
    var n := Span(digits, IsXDigit);
    (Clamped(Value(digits[..n], 16)), digits[n..])
  }

  /** An unsigned long from strtoul, stored in an unsigned int. */
  function Clamped(v: nat): u32 {
    (if v < 0x1_0000_0000_0000_0000 then v else 0xFFFF_FFFF_FFFF_FFFF) % 0x1_0000_0000
  }

  /** An id followed by a non-empty name. */
  function IdAndName(s: string): Option<(u32, string)>
    requires IsXDigit(At(s, 0))
  {
    var (id, rest) := HexNumber(s);
    var name := SkipSpace(rest);
    if name == [] then None else Some((id, name))
  }

  /** A class line, after its mark and white space. */
  function ClassifyClass(t: string): Line {
    if !IsXDigit(At(t, 0)) then Other
    else match IdAndName(t) case None => Other case Some((id, name)) => ClassLine(id, name)
  }

  function Classify(s: string): Line {
    if s == [] || s[0] == '#' then Other
    else if "PHYSDES " <= s || "PHY " <= s || "BIAS " <= s then Other
    else if "L " <= s then Language
    else if "C " <= s then ClassifyClass(SkipSpace(s[2..]))
    else ClassifyRest(s)
  }

  /** A line with none of the marks above. */
  function ClassifyRest(s: string): Line
    requires s != []
  {
    if "AT" <= s && IsSpace(At(s, 2)) then Other
    else if "HCC" <= s && IsSpace(At(s, 3)) then Other
    else if IsXDigit(s[0]) then
      match IdAndName(s) case None => Other case Some((id, name)) => VendorLine(id, name)
    else if s[0] == '\t' && IsXDigit(At(s, 1)) then
      match IdAndName(s[1..]) case None => Other case Some((id, name)) => Indented(id, name)
    else if s[0] == '\t' && At(s, 1) == '\t' && IsXDigit(At(s, 2)) then
      match IdAndName(s[2..]) case None => Other case Some((id, name)) => DoubleIndented(id, name)
    else if "HUT " <= s then UsageTable
    else Other
  }

  // ----- Grouping -----

  /** The last heading among the lines. */
  function Section(lines: seq<Line>): Option<Line> {
    if lines == [] then None
    else if lines[|lines| - 1].IsHeading() then Some(lines[|lines| - 1])
    else Section(lines[..|lines| - 1])
  }

  /** The last single-indented id below the last heading. */
  function Subsection(lines: seq<Line>): Option<u32> {
    if lines == [] || lines[|lines| - 1].IsHeading() then None
    else if lines[|lines| - 1].Indented? then Some(lines[|lines| - 1].id)
    else Subsection(lines[..|lines| - 1])
  }

  /** The id that the int registers of the parser cannot tell from "none". */
  const NO_ID: u32 := 0xFFFF_FFFF

  /** What line l, standing below the lines above it, defines. */
  function Definition(above: seq<Line>, l: Line): Option<(Key, string)> {
    match l
    case VendorLine(id, name) => Some((VendorKey(id % 0x1_0000), name))
    case ClassLine(id, name) => Some((ClassKey(id % 0x100), name))
    case Indented(id, name) =>
      (match Section(above)
       case Some(VendorLine(v, _)) =>
         if v == NO_ID then None else Some((ProductKey(v % 0x1_0000, id % 0x1_0000), name))
       case Some(ClassLine(c, _)) =>
         if c == NO_ID then None else Some((SubclassKey(c % 0x100, id % 0x100), name))
       case _ => None)
    case DoubleIndented(id, name) =>
      (match (Section(above), Subsection(above))
       case (Some(ClassLine(c, _)), Some(s)) =>
         if c == NO_ID || s == NO_ID then None
         else Some((ProtocolKey(c % 0x100, s % 0x100, id % 0x100), name))
       case _ => None)
    case _ => None
  }

  predicate Defines(lines: seq<Line>, i: nat, k: Key)
    requires i < |lines|
  {
    var d := Definition(lines[..i], lines[i]);
    d.Some? && d.value.0 == k
  }

  /** The name of the first line that defines k. */
  function FirstDefinition(lines: seq<Line>, k: Key): Option<string> {
    if lines == [] then None
    else
      var n := |lines| - 1;
      match FirstDefinition(lines[..n], k)
      case Some(name) => Some(name)
      case None => if Defines(lines, n, k) then Some(Definition(lines[..n], lines[n]).value.1) else None
  }

  lemma DefinesBelow(lines: seq<Line>, n: nat, i: nat, k: Key)
    requires i < n <= |lines|
    ensures Defines(lines[..n], i, k) == Defines(lines, i, k)
    ensures Definition(lines[..n][..i], lines[..n][i]) == Definition(lines[..i], lines[i])
  {
    assert lines[..n][..i] == lines[..i];
  }

  lemma {:induction false} NoDefinition(lines: seq<Line>, k: Key)
    ensures FirstDefinition(lines, k) == None <==> forall i | 0 <= i < |lines| :: !Defines(lines, i, k)
  {
    if lines != [] {
      var n := |lines| - 1;
      NoDefinition(lines[..n], k);
      forall i | 0 <= i < n ensures Defines(lines[..n], i, k) == Defines(lines, i, k) {
        DefinesBelow(lines, n, i, k);
      }
    }
  }

  lemma {:induction false} FirstDefinitionAt(lines: seq<Line>, k: Key, i: nat)
    requires i < |lines| && Defines(lines, i, k) && forall j | 0 <= j < i :: !Defines(lines, j, k)
    ensures FirstDefinition(lines, k) == Some(Definition(lines[..i], lines[i]).value.1)
  {
    var n := |lines| - 1;
    if i == n {
      forall j | 0 <= j < n ensures !Defines(lines[..n], j, k) {
        DefinesBelow(lines, n, j, k);
      }
      NoDefinition(lines[..n], k);
    } else {
      forall j | 0 <= j < i ensures !Defines(lines[..n], j, k) {
        DefinesBelow(lines, n, j, k);
      }
      DefinesBelow(lines, n, i, k);
      FirstDefinitionAt(lines[..n], k, i);
    }
  }

  /** FirstDefinition answers with the first line that defines the key, and with nothing exactly
      when no line does. */
  lemma FirstDefinitionIsFirst(lines: seq<Line>, k: Key)
    ensures FirstDefinition(lines, k) == None <==> forall i | 0 <= i < |lines| :: !Defines(lines, i, k)
    ensures forall i :: 0 <= i < |lines| && Defines(lines, i, k) && (forall j | 0 <= j < i :: !Defines(lines, j, k))
              ==> FirstDefinition(lines, k) == Some(Definition(lines[..i], lines[i]).value.1)
  {
    NoDefinition(lines, k);
    forall i | 0 <= i < |lines| && Defines(lines, i, k) && (forall j | 0 <= j < i :: !Defines(lines, j, k))
      ensures FirstDefinition(lines, k) == Some(Definition(lines[..i], lines[i]).value.1)
    {
      FirstDefinitionAt(lines, k, i);
    }
  }

  // ----- The parser's five registers -----

  /** -1 means none; an id is an unsigned int stored in an int. */
  datatype Registers = Registers(vendor: int, class_: int, subclass: int, hut: int, lang: int)

  function AsInt(u: u32): int {
    if u < 0x8000_0000 then u else u - 0x1_0000_0000
  }

  lemma AsIntKeepsLowBits(u: u32)
    ensures AsInt(u) % 0x1_0000 == u % 0x1_0000 && AsInt(u) % 0x100 == u % 0x100
    ensures AsInt(u) == -1 <==> u == NO_ID
  {
  }

  /** The registers hold the grouping of the lines read so far. */
  function RegistersAfter(lines: seq<Line>): (r: Registers) {
    match Section(lines)
    case Some(VendorLine(v, _)) => Registers(AsInt(v), -1, -1, -1, -1)
    case Some(ClassLine(c, _)) =>
      var s := if c == NO_ID || Subsection(lines) == None then -1 else AsInt(Subsection(lines).value);
      Registers(-1, AsInt(c), s, -1, -1)
    case Some(UsageTable) => Registers(-1, -1, -1, 1, -1)
    case Some(Language) => Registers(-1, -1, -1, -1, 1)
    case _ => Registers(-1, -1, -1, -1, -1)
  }

  /** At most one register names a parent, and a subclass only lives below a class. */
  predicate OneParent(r: Registers) {
    && (r.vendor != -1 ==> r.class_ == r.hut == r.lang == -1)
    && (r.class_ != -1 ==> r.vendor == r.hut == r.lang == -1)
    && (r.hut != -1 ==> r.vendor == r.class_ == r.lang == -1)
    && (r.lang != -1 ==> r.vendor == r.class_ == r.hut == -1)
    && (r.subclass != -1 ==> r.class_ != -1)
  }

  /** One line moves the registers as it moves the grouping. */
  lemma NextRegisters(above: seq<Line>, l: Line)
    ensures var r := RegistersAfter(above);
      RegistersAfter(above + [l]) ==
      match l
      case VendorLine(id, _) => Registers(AsInt(id), -1, -1, -1, -1)
      case ClassLine(id, _) => Registers(-1, AsInt(id), -1, -1, -1)
      case UsageTable => Registers(-1, -1, -1, 1, -1)
      case Language => Registers(-1, -1, -1, -1, 1)
      case Indented(id, _) => if r.class_ != -1 then r.(subclass := AsInt(id)) else r
      case _ => r
  {
    assert (above + [l])[..|above|] == above;
  }

  /** The registers are all that a line's definition needs from the lines above it:
      no product is filed under a class and no subclass under a vendor. */
  lemma DefinitionFromRegisters(above: seq<Line>, l: Line)
    ensures var r := RegistersAfter(above);
      OneParent(r) &&
      Definition(above, l) ==
      match l
      case VendorLine(id, name) => Some((VendorKey(id % 0x1_0000), name))
      case ClassLine(id, name) => Some((ClassKey(id % 0x100), name))
      case Indented(id, name) =>
        if r.vendor != -1 then Some((ProductKey(r.vendor % 0x1_0000, id % 0x1_0000), name))
        else if r.class_ != -1 then Some((SubclassKey(r.class_ % 0x100, id % 0x100), name))
        else None
      case DoubleIndented(id, name) =>
        if r.class_ != -1 && r.subclass != -1
        then Some((ProtocolKey(r.class_ % 0x100, r.subclass % 0x100, id % 0x100), name))
        else None
      case _ => None
  {
    if Section(above).Some? {
      match Section(above).value
      case VendorLine(v, _) => AsIntKeepsLowBits(v);
      case ClassLine(c, _) =>
        AsIntKeepsLowBits(c);
        if Subsection(above).Some? {
          AsIntKeepsLowBits(Subsection(above).value);
        }
      case _ =>
    }
  }

  // ----- The contents of the five tables together -----

  function AddAll(m: map<Key, string>, lines: seq<Line>): map<Key, string> {
    if lines == [] then m
    else
      var n := |lines| - 1;
      Add(AddAll(m, lines[..n]), Definition(lines[..n], lines[n]))
  }

  lemma MoveOne(above: seq<Line>, l: Line, below: seq<Line>)
    ensures above + ([l] + below) == above + [l] + below
  {
  }

  lemma AddOneMore(m: map<Key, string>, above: seq<Line>, l: Line)
    ensures AddAll(m, above + [l]) == Add(AddAll(m, above), Definition(above, l))
  {
    assert (above + [l])[..|above|] == above;
  }

  /** Every key answers with the name it had before, else with its first definition in the file. */
  ghost predicate FirstWins(after: map<Key, string>, before: map<Key, string>, lines: seq<Line>) {
    forall k: Key ::
      Get(after, k) == if k in before then Some(before[k]) else FirstDefinition(lines, k)
  }

  lemma {:induction false} AddAllAnswers(m: map<Key, string>, lines: seq<Line>)
    ensures FirstWins(AddAll(m, lines), m, lines)
  {
    if lines != [] {
      var n := |lines| - 1;
      AddAllAnswers(m, lines[..n]);
      forall k: Key
        ensures Get(AddAll(m, lines), k) == if k in m then Some(m[k]) else FirstDefinition(lines, k)
      {
        assert Get(AddAll(m, lines[..n]), k) == if k in m then Some(m[k]) else FirstDefinition(lines[..n], k);
      }
    }
  }
}
