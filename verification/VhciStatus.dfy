/** The port table of the vhci driver (vhci_driver.c): filled from the kernel's status texts,
    searched for a free port. */
module VhciStatus {
  import opened Wrappers
  import opened Words
  import opened CText

  datatype Hub = High | Super

  const VDEV_ST_NULL: u32 := 4
  const VDEV_ST_NOTASSIGNED: u32 := 5
  const USB_SPEED_SUPER := 5

  /** struct usbip_imported_device; udev names the local device whose record was read in. */
  datatype Slot = Slot(hub: Hub, port: u8, status: u32, devid: u32, busnum: u8, devnum: u8, udev: Option<string>)

  /** A slot of the table as calloc leaves it. */
  const ZERO: Slot := Slot(High, 0, 0, 0, 0, 0, None)

  // ----- sscanf -----

  /** %<width>s; %d and %u; %x */
  datatype Conversion = Word(width: nat) | Dec | Hex

  datatype Scanned = Text(s: string) | Number(n: int) {
    function AsText(): string { if Text? then s else "" }
    function AsNumber(): int { if Number? then n else 0 }
  }

  /** The number of leading digits of s. */
  function DigitEnd(s: string, hex: bool): (n: nat)
    ensures n <= |s| && forall i | 0 <= i < n :: IsXDigit(s[i])
  {
    if s == [] || !(if hex then IsXDigit(s[0]) else IsDigit(s[0])) then 0 else 1 + DigitEnd(s[1..], hex)
  }

  /** Hexadecimal digits may stand behind 0x. */
  predicate Marked(u: string) {
    u != [] && u[0] == '0' && (At(u, 1) == 'x' || At(u, 1) == 'X') && IsXDigit(At(u, 2))
  }

  /** A conversion on text without leading white space; a number may carry a sign. */
  function ConvertHere(t: string, conv: Conversion): Option<(Scanned, string)> {
    if conv.Word? then
      var n := WordEnd(t);
      var m := if n < conv.width then n else conv.width;
      if n == 0 then None else Some((Text(t[..m]), t[m..]))
    else
      var signed := t != [] && (t[0] == '-' || t[0] == '+');
      var u := if signed then t[1..] else t;
      var digits := if conv.Hex? && Marked(u) then u[2..] else u;
      var n := DigitEnd(digits, conv.Hex?);
      if n == 0 then None
      else
        var v := Value(digits[..n], if conv.Hex? then 16 else 10) as int;
        Some((Number(if signed && t[0] == '-' then -v else v), digits[n..]))
  }

  function Convert(s: string, conv: Conversion): Option<(Scanned, string)> {
    ConvertHere(SkipSpace(s), conv)
  }

  type Converter = (string, Conversion) -> Option<(Scanned, string)>

  /** The values stored before the first conversion that fails; cv is Convert. */
  function Sscanf(cv: Converter, s: string, format: seq<Conversion>): seq<Scanned>
    decreases |format|
  {
    if format == [] then []
    else match cv(s, format[0])
      case None => []
      case Some((v, rest)) => [v] + Sscanf(cv, rest, format[1..])
  }

  /** "%2s  %d %d %d %x %u %31s\n" */
  const FORMAT := [Word(2), Dec, Dec, Dec, Hex, Dec, Word(31)]

  /** What a line yields; the busid is missing when the line ends before it. */
  datatype Row = Row(hub: string, port: int, status: int, devid: int, busid: Option<string>)

  /** None when fewer than five conversions succeed. */
  function ScanRow(c: string): Option<Row> {
    RowFrom(Sscanf(Convert, c, FORMAT))
  }

  function RowFrom(v: seq<Scanned>): Option<Row> {
    if |v| < 5 then None
    else Some(Row(v[0].AsText(), v[1].AsNumber(), v[2].AsNumber(), v[4].AsNumber(),
                  if |v| >= 7 then Some(v[6].AsText()) else None))
  }

  /** The slot a row is stored as, with the integer widths of the structure. */
  function SlotOf(r: Row): Slot {
    var devid: u32 := r.devid % 0x1_0000_0000;
    Slot(if r.hub == "hs" then High else Super, r.port % 0x100, r.status % 0x1_0000_0000,
         devid, devid / 0x1_0000 % 0x100, devid % 0x100, None)
  }

  predicate Connected(s: Slot) {
    s.status != VDEV_ST_NULL && s.status != VDEV_ST_NOTASSIGNED
  }

  // ----- parse_status and refresh_imported_device_list as functions on the table -----

  /** The scanner of one line; the code uses ScanRow. */
  type Scanner = string -> Option<Row>

  /** Ok and Failed are the return values 0 and -1. Bug is the abort on a malformed line; Wild is
      a port outside the table, for which the code defines nothing. */
  datatype Ret = Ok | Failed | Bug | Wild

  /** present says which local devices udev finds. */
  function ParseLines(scan: Scanner, c: string, table: seq<Slot>, present: Option<string> -> bool): (Ret, seq<Slot>)
    decreases |c|
  {
    if c == [] then (Ok, table)
    else match scan(c)
      case None => (Bug, table)
      case Some(r) =>
        if !(0 <= r.port < |table|) then (Wild, table)
        else if Connected(SlotOf(r)) && !present(r.busid) then (Failed, table[r.port := SlotOf(r)])
        else
          var stored := table[r.port := Stored(r)];
          var nl := Find(c, '\n');
          if nl == |c| then (Ok, stored) else ParseLines(scan, c[nl + 1..], stored, present)
  }

  /** The slot after imported_device_init. */
  function Stored(r: Row): Slot {
    if Connected(SlotOf(r)) then SlotOf(r).(udev := r.busid) else SlotOf(r)
  }

  function ParseStatusText(scan: Scanner, value: string, table: seq<Slot>, present: Option<string> -> bool)
    : (Ret, seq<Slot>)
  {
    var nl := Find(value, '\n');
    if nl == |value| then (Failed, table) else ParseLines(scan, value[nl + 1..], table, present)
  }

  /** One text for each controller; None is an attribute that cannot be read. */
  function ParseTexts(scan: Scanner, texts: seq<Option<string>>, table: seq<Slot>, present: Option<string> -> bool)
    : (Ret, seq<Slot>)
  {
    if texts == [] then (Ok, table)
    else if texts[0] == None then (Failed, table)
    else
      var (ret, table') := ParseStatusText(scan, texts[0].value, table, present);
      if ret != Ok then (ret, table') else ParseTexts(scan, texts[1..], table', present)
  }

  // ----- The same in place -----

  method ParseStatus(scan: Scanner, idev: array<Slot>, value: string, present: Option<string> -> bool)
    returns (ret: Ret)
    modifies idev
    ensures (ret, idev[..]) == ParseStatusText(scan, value, old(idev[..]), present)
  {
    var nl := Find(value, '\n');
    if nl == |value| {
      return Failed;
    }
    var c := value[nl + 1..];
    while c != []
      invariant ParseLines(scan, c, idev[..], present) == ParseStatusText(scan, value, old(idev[..]), present)
      decreases |c|
    {
      ret := ParseOneLine(scan, idev, c, present);
      if ret != Ok {
        return;
      }
      nl := Find(c, '\n');
      if nl == |c| {
        break;
      }
      c := c[nl + 1..];
    }
    return Ok;
  }

  /** The body of the loop, without the move to the next line. */
  method ParseOneLine(scan: Scanner, idev: array<Slot>, c: string, present: Option<string> -> bool) returns (ret: Ret)
    requires c != []
    modifies idev
    ensures ret != Ok ==> (ret, idev[..]) == ParseLines(scan, c, old(idev[..]), present)
    ensures ret == Ok ==>
              var nl := Find(c, '\n');
              ParseLines(scan, c, old(idev[..]), present) ==
              if nl == |c| then (Ok, idev[..]) else ParseLines(scan, c[nl + 1..], idev[..], present)
  {
    var row := scan(c);
    if row == None {
      return Bug;
    }
    var r := row.value;
    if !(0 <= r.port < idev.Length) {
      return Wild;
    }
    var ok := StoreRow(idev, r, present);
    ret := if ok then Ok else Failed;
  }

  /** memset of the slot, its fields one by one, then imported_device_init for a connected port. */
  method StoreRow(idev: array<Slot>, r: Row, present: Option<string> -> bool) returns (ok: bool)
    requires 0 <= r.port < idev.Length
    modifies idev
    ensures ok <==> r.status % 0x1_0000_0000 == 4 || r.status % 0x1_0000_0000 == 5 || present(r.busid)
    ensures idev[..] == old(idev[..])[r.port := if ok then Stored(r) else SlotOf(r)]
  {
    var devid: u32 := r.devid % 0x1_0000_0000;
    var slot := ZERO;
    slot := slot.(hub := if r.hub == "hs" then High else Super);
    slot := slot.(port := r.port % 0x100, status := r.status % 0x1_0000_0000, devid := devid);
    slot := slot.(busnum := devid / 0x1_0000 % 0x100, devnum := devid % 0x1_0000 % 0x100);
    idev[r.port] := slot;
    if slot.status != VDEV_ST_NULL && slot.status != VDEV_ST_NOTASSIGNED {
      if !present(r.busid) {
        return false;
      }
      idev[r.port] := slot.(udev := r.busid);
    }
    return true;
  }

  method RefreshImportedDeviceList(scan: Scanner, idev: array<Slot>, texts: seq<Option<string>>,
                                   present: Option<string> -> bool)
    returns (ret: Ret)
    modifies idev
    ensures (ret, idev[..]) == ParseTexts(scan, texts, old(idev[..]), present)
  {
    var i := 0;
    while i < |texts|
      invariant 0 <= i <= |texts|
      invariant ParseTexts(scan, texts[i..], idev[..], present) == ParseTexts(scan, texts, old(idev[..]), present)
    {
      assert texts[i..][1..] == texts[i + 1..];
      if texts[i] == None {
        return Failed;
      }
      ret := ParseStatus(scan, idev, texts[i].value, present);
      if ret != Ok {
        return;
      }
      i := i + 1;
    }
    return Ok;
  }

  // ----- Free ports -----

  /** The hub a device of this speed needs. */
  function HubFor(speed: u32): Hub {
    if speed == USB_SPEED_SUPER then Super else High
  }

  predicate IsFree(s: Slot, speed: u32) {
    s.hub == HubFor(speed) && s.status == VDEV_ST_NULL
  }

  /** The first free slot, or |table|. */
  function FirstFree(table: seq<Slot>, speed: u32): (i: nat)
    ensures i <= |table| && (i < |table| ==> IsFree(table[i], speed))
    ensures forall j | 0 <= j < i :: !IsFree(table[j], speed)
  {
    if table == [] || IsFree(table[0], speed) then 0 else 1 + FirstFree(table[1..], speed)
  }

  lemma FirstFreeIs(table: seq<Slot>, speed: u32, i: nat)
    requires i <= |table| && (i < |table| ==> IsFree(table[i], speed))
    requires forall j | 0 <= j < i :: !IsFree(table[j], speed)
    ensures FirstFree(table, speed) == i
  {
  }

  /** The port of the first free slot, or -1 when there is none. */
  function Offer(table: seq<Slot>, speed: u32): int {
    var i := FirstFree(table, speed);
    if i == |table| then -1 else table[i].port
  }

  method GetFreePort(idev: array<Slot>, speed: u32) returns (port: int)
    ensures port == Offer(idev[..], speed)
  {
    for i := 0 to idev.Length
      invariant forall j | 0 <= j < i :: !IsFree(idev[j], speed)
    {
      if speed == USB_SPEED_SUPER {
        if idev[i].hub != Super {
          continue;
        }
      } else {
        if idev[i].hub != High {
          continue;
        }
      }
      if idev[i].status == VDEV_ST_NULL {
        FirstFreeIs(idev[..], speed, i);
        return idev[i].port;
      }
    }
    FirstFreeIs(idev[..], speed, idev.Length);
    return -1;
  }

  /** A slot is free for a device when its port has status 4 and sits on the right hub: super speed,
      which is 5, has one of its own and all other speeds share the other. */
  lemma FreeMeans(s: Slot, speed: u32)
    ensures IsFree(s, speed) <==> s.status == 4 && (s.hub == Super <==> speed == 5)
  {
  }

  /** The port offered is that of the first such slot. */
  lemma OfferMeans(table: seq<Slot>, speed: u32)
    ensures Offer(table, speed) == -1 <==>
            forall i | 0 <= i < |table| :: table[i].status == 4 ==> (table[i].hub == Super) != (speed == 5)
    ensures forall i | 0 <= i < |table| && table[i].status == 4 && (table[i].hub == Super <==> speed == 5)
              && (forall j | 0 <= j < i :: table[j].status == 4 ==> (table[j].hub == Super) != (speed == 5)) ::
              Offer(table, speed) == table[i].port
  {
    forall i | 0 <= i < |table|
      ensures IsFree(table[i], speed) <==> table[i].status == 4 && (table[i].hub == Super <==> speed == 5)
    {
      FreeMeans(table[i], speed);
    }
  }

  // ----- Device ids -----

  /** get_devid, with its arguments cut to 8 bits on the way. */
  function GetDevid(busnum: u32, devnum: u32): u32 {
    busnum % 0x100 * 0x1_0000 + devnum % 0x100
  }

  lemma TwoBytes(b: u8, d: u8)
    ensures (b * 0x1_0000 + d) / 0x1_0000 == b
    ensures (b * 0x1_0000 + d) % 0x100 == d
    ensures (b * 0x1_0000 + d) % 0x1_0000_0000 == b * 0x1_0000 + d
  {
    LowByte(b * 0x100, d);
  }

  lemma LowByte(q: nat, d: u8)
    ensures (q * 0x100 + d) % 0x100 == d
  {
  }

  /** The bus number is the upper half of the id, the device number the lower. */
  lemma DevidHalves(busnum: u32, devnum: u32)
    ensures GetDevid(busnum, devnum) / 0x1_0000 == busnum % 0x100
    ensures GetDevid(busnum, devnum) % 0x1_0000 == devnum % 0x100
  {
  }

  /** A status line that shows the id written on attach is stored with the same bus and device numbers. */
  lemma DevidReadsBack(busnum: u32, devnum: u32, r: Row)
    requires r.devid == GetDevid(busnum, devnum)
    ensures SlotOf(r).devid == r.devid
    ensures SlotOf(r).busnum == busnum % 0x100 && SlotOf(r).devnum == devnum % 0x100
  {
    TwoBytes(busnum % 0x100, devnum % 0x100);
  }

  // ----- Well-formed texts -----

  /** A word of a status line and the blanks before it. */
  datatype Piece = Piece(sep: string, word: string)

  /** A line, its newline, and what follows it. */
  function LineText(ps: seq<Piece>, more: string): string {
    if ps == [] then "\n" + more else ps[0].sep + (ps[0].word + LineText(ps[1..], more))
  }

  predicate Blank(s: string) {
    forall c | c in s :: c == ' '
  }

  predicate FitsConversion(w: string, conv: Conversion) {
    && w != []
    && match conv
       case Word(width) => |w| <= width && forall c | c in w :: !IsSpace(c)
       case Dec => forall c | c in w :: IsDigit(c)
       case Hex => forall c | c in w :: IsXDigit(c)
  }

  /** The words fit their conversions and, but perhaps for the first, have blanks before them. */
  predicate FitsFormat(ps: seq<Piece>, format: seq<Conversion>) {
    && |ps| == |format|
    && (forall i | 0 <= i < |ps| :: Blank(ps[i].sep) && FitsConversion(ps[i].word, format[i]))
    && (forall i | 0 < i < |ps| :: ps[i].sep != [])
  }

  function ScannedWord(w: string, conv: Conversion): Scanned
    requires FitsConversion(w, conv)
  {
    match conv
    case Word(_) => Text(w)
    case Dec => Number(Value(w, 10))
    case Hex => Number(Value(w, 16))
  }

  function ScannedWords(ps: seq<Piece>, format: seq<Conversion>): (r: seq<Scanned>)
    requires FitsFormat(ps, format)
    ensures |r| == |ps|
    ensures forall i | 0 <= i < |ps| :: r[i] == ScannedWord(ps[i].word, format[i])
  {
    seq(|ps|, i requires 0 <= i < |ps| => ScannedWord(ps[i].word, format[i]))
  }

  lemma {:induction false} BlanksSkipped(sep: string, s: string)
    requires Blank(sep)
    ensures SkipSpace(sep + s) == SkipSpace(s)
  {
    if sep == [] {
      assert sep + s == s;
    } else {
      assert sep[0] in sep && (sep + s)[0] == ' ' && (sep + s)[1..] == sep[1..] + s;
      assert forall c | c in sep[1..] :: c in sep;
      BlanksSkipped(sep[1..], s);
    }
  }

  lemma {:induction false} DigitEndIs(w: string, rest: string, hex: bool)
    requires forall c | c in w :: if hex then IsXDigit(c) else IsDigit(c)
    requires rest != [] ==> !IsXDigit(rest[0])
    ensures DigitEnd(w + rest, hex) == |w|
  {
    if w == [] {
      assert w + rest == rest;
    } else {
      assert (w + rest)[0] == w[0] && w[0] in w && (w + rest)[1..] == w[1..] + rest;
      DigitEndIs(w[1..], rest, hex);
    }
  }

  lemma TextConverts(w: string, rest: string, width: nat)
    requires FitsConversion(w, Word(width))
    requires rest != [] && IsSpace(rest[0])
    ensures ConvertHere(w + rest, Word(width)) == Some((Text(w), rest))
  {
    var s := w + rest;
    WordEndIs(w, rest);
    assert s[..|w|] == w && s[|w|..] == rest;
  }

  lemma NumberConverts(w: string, rest: string, conv: Conversion)
    requires !conv.Word? && FitsConversion(w, conv)
    requires rest != [] && IsSpace(rest[0])
    ensures ConvertHere(w + rest, conv) == Some((ScannedWord(w, conv), rest))
  {
    var s := w + rest;
    assert s[0] == w[0] && w[0] in w && s[0] != '-' && s[0] != '+';
    assert !Marked(s) by {
      if |w| > 1 {
        assert s[1] == w[1] && w[1] in w;
      } else {
        assert s[1] == rest[0];
      }
    }
    DigitEndIs(w, rest, conv.Hex?);
    assert s[..|w|] == w && s[|w|..] == rest;
  }

  lemma WordConverts(sep: string, w: string, rest: string, conv: Conversion)
    requires Blank(sep) && FitsConversion(w, conv)
    requires rest != [] && IsSpace(rest[0])
    ensures Convert(sep + (w + rest), conv) == Some((ScannedWord(w, conv), rest))
  {
    BlanksSkipped(sep, w + rest);
    assert (w + rest)[0] == w[0] && w[0] in w;
    assert SkipSpace(w + rest) == w + rest;
    if conv.Word? {
      TextConverts(w, rest, conv.width);
    } else {
      NumberConverts(w, rest, conv);
    }
  }

  /** Words with blanks before them and white space after them are converted whole. */
  ghost predicate Converts(cv: Converter) {
    forall sep: string, w: string, rest: string, conv: Conversion {:trigger cv(sep + (w + rest), conv)} ::
      Blank(sep) && FitsConversion(w, conv) && rest != [] && IsSpace(rest[0]) ==>
      cv(sep + (w + rest), conv) == Some((ScannedWord(w, conv), rest))
  }

  lemma ConvertConverts()
    ensures Converts(Convert)
  {
    forall sep: string, w: string, rest: string, conv: Conversion
      | Blank(sep) && FitsConversion(w, conv) && rest != [] && IsSpace(rest[0])
      ensures Convert(sep + (w + rest), conv) == Some((ScannedWord(w, conv), rest))
    {
      WordConverts(sep, w, rest, conv);
    }
  }

  lemma {:induction false} LineScans(cv: Converter, ps: seq<Piece>, format: seq<Conversion>, more: string)
    requires Converts(cv) && FitsFormat(ps, format)
    ensures Sscanf(cv, LineText(ps, more), format) == ScannedWords(ps, format)
  {
    if ps != [] {
      var rest := LineText(ps[1..], more);
      assert IsSpace(rest[0]) by {
        if |ps| > 1 {
          assert ps[1..][0] == ps[1] && ps[1].sep[0] in ps[1].sep;
        }
      }
      assert cv(ps[0].sep + (ps[0].word + rest), format[0]) == Some((ScannedWord(ps[0].word, format[0]), rest));
      LineScans(cv, ps[1..], format[1..], more);
    }
  }

  /** The row of a well-formed line. */
  function RowOf(ps: seq<Piece>): Row
    requires FitsFormat(ps, FORMAT)
  {
    Row(ps[0].word, Value(ps[1].word, 10), Value(ps[2].word, 10), Value(ps[4].word, 16), Some(ps[6].word))
  }

  lemma RowFromWords(ps: seq<Piece>)
    requires FitsFormat(ps, FORMAT)
    ensures RowFrom(ScannedWords(ps, FORMAT)) == Some(RowOf(ps))
  {
    assert FORMAT[0].Word? && FORMAT[6].Word? && FORMAT[4] == Hex;
    assert FORMAT[1] == Dec && FORMAT[2] == Dec;
  }

  lemma RowScans(ps: seq<Piece>, more: string)
    requires FitsFormat(ps, FORMAT)
    ensures ScanRow(LineText(ps, more)) == Some(RowOf(ps))
  {
    ConvertConverts();
    LineScans(Convert, ps, FORMAT, more);
    RowFromWords(ps);
  }

  function AfterNewline(s: string): Option<string> {
    var nl := Find(s, '\n');
    if nl == |s| then None else Some(s[nl + 1..])
  }

  lemma {:induction false} NewlineAfter(a: string, s: string)
    requires '\n' !in a
    ensures AfterNewline(a + s) == AfterNewline(s)
  {
    if a == [] {
      assert a + s == s;
    } else {
      var t := a + s;
      assert t[1..] == a[1..] + s && t[0] == a[0];
      NewlineAfter(a[1..], s);
      var nl := Find(a[1..] + s, '\n');
      assert Find(t, '\n') == nl + 1;
      if nl < |a[1..] + s| {
        assert t[nl + 2..] == t[1..][nl + 1..];
      }
    }
  }

  lemma {:induction false} LineEnds(ps: seq<Piece>, format: seq<Conversion>, more: string)
    requires FitsFormat(ps, format)
    ensures AfterNewline(LineText(ps, more)) == Some(more)
  {
    if ps == [] {
      assert ("\n" + more)[1..] == more;
    } else {
      var rest := LineText(ps[1..], more);
      assert '\n' !in ps[0].word;
      LineEnds(ps[1..], format[1..], more);
      NewlineAfter(ps[0].word, rest);
      NewlineAfter(ps[0].sep, ps[0].word + rest);
    }
  }

  // ----- Refresh from well-formed texts -----

  predicate WellFormed(lines: seq<seq<Piece>>) {
    forall i | 0 <= i < |lines| :: FitsFormat(lines[i], FORMAT)
  }

  function TextOf(lines: seq<seq<Piece>>): string {
    if lines == [] then "" else LineText(lines[0], TextOf(lines[1..]))
  }

  function Rows(lines: seq<seq<Piece>>): (rows: seq<Row>)
    requires WellFormed(lines)
    ensures |rows| == |lines| && forall i | 0 <= i < |lines| :: rows[i] == RowOf(lines[i])
  {
    seq(|lines|, i requires 0 <= i < |lines| => RowOf(lines[i]))
  }

  /** The ports are slots of a table of n. */
  predicate InRange(rows: seq<Row>, n: nat) {
    forall i | 0 <= i < |rows| :: 0 <= rows[i].port < n
  }

  /** The local device of every connected port is there. */
  predicate AllFound(rows: seq<Row>, present: Option<string> -> bool) {
    forall i | 0 <= i < |rows| :: Found(rows[i], present)
  }

  predicate Found(r: Row, present: Option<string> -> bool) {
    Connected(SlotOf(r)) ==> present(r.busid)
  }

  function Fill(table: seq<Slot>, rows: seq<Row>): (t: seq<Slot>)
    requires InRange(rows, |table|)
    ensures |t| == |table|
    decreases |rows|
  {
    if rows == [] then table else Fill(table[rows[0].port := Stored(rows[0])], rows[1..])
  }

  /** The scanner reads well-formed lines as their rows. */
  ghost predicate ReadsRows(scan: Scanner) {
    forall ps: seq<Piece>, more: string {:trigger scan(LineText(ps, more))} ::
      FitsFormat(ps, FORMAT) ==> scan(LineText(ps, more)) == Some(RowOf(ps))
  }

  lemma ScanRowReadsRows()
    ensures ReadsRows(ScanRow)
  {
    forall ps: seq<Piece>, more: string | FitsFormat(ps, FORMAT)
      ensures ScanRow(LineText(ps, more)) == Some(RowOf(ps))
    {
      RowScans(ps, more);
    }
  }

  lemma OneLineParses(scan: Scanner, ps: seq<Piece>, more: string, table: seq<Slot>, present: Option<string> -> bool)
    requires ReadsRows(scan) && FitsFormat(ps, FORMAT) && 0 <= RowOf(ps).port < |table|
    ensures ParseLines(scan, LineText(ps, more), table, present) ==
            var r := RowOf(ps);
            if Found(r, present) then ParseLines(scan, more, table[r.port := Stored(r)], present)
            else (Failed, table[r.port := SlotOf(r)])
  {
    var c := LineText(ps, more);
    assert scan(c) == Some(RowOf(ps));
    LineEnds(ps, FORMAT, more);
  }

  /** Parsing ends with the rows filled in, or with an error on the first missing device. */
  predicate EndsWith(result: (Ret, seq<Slot>), table: seq<Slot>, rows: seq<Row>, present: Option<string> -> bool)
    requires InRange(rows, |table|)
  {
    if AllFound(rows, present) then result == (Ok, Fill(table, rows))
    else result.0 == Failed && |result.1| == |table|
  }

  lemma {:induction false} LinesParse(scan: Scanner, lines: seq<seq<Piece>>, table: seq<Slot>,
                                      present: Option<string> -> bool)
    requires ReadsRows(scan) && WellFormed(lines) && InRange(Rows(lines), |table|)
    ensures EndsWith(ParseLines(scan, TextOf(lines), table, present), table, Rows(lines), present)
  {
    if lines != [] {
      var rows, r := Rows(lines), RowOf(lines[0]);
      assert rows[0] == r && rows[1..] == Rows(lines[1..]);
      OneLineParses(scan, lines[0], TextOf(lines[1..]), table, present);
      FirstFound(rows, present);
      if Found(r, present) {
        LinesParse(scan, lines[1..], table[r.port := Stored(r)], present);
      }
    }
  }

  lemma FirstFound(rows: seq<Row>, present: Option<string> -> bool)
    requires rows != []
    ensures AllFound(rows, present) <==> Found(rows[0], present) && AllFound(rows[1..], present)
  {
    assert forall i | 0 < i < |rows| :: rows[i] == rows[1..][i - 1];
  }

  /** The text of one controller: a header line, then its ports. */
  datatype Controller = Controller(header: string, lines: seq<seq<Piece>>)

  predicate WellFormedControllers(cs: seq<Controller>) {
    forall i | 0 <= i < |cs| :: '\n' !in cs[i].header && WellFormed(cs[i].lines)
  }

  function Texts(cs: seq<Controller>): seq<Option<string>> {
    if cs == [] then [] else [Some(cs[0].header + ("\n" + TextOf(cs[0].lines)))] + Texts(cs[1..])
  }

  function AllRows(cs: seq<Controller>): seq<Row>
    requires WellFormedControllers(cs)
  {
    if cs == [] then [] else Rows(cs[0].lines) + AllRows(cs[1..])
  }

  lemma JoinedRows(a: seq<Row>, b: seq<Row>, n: nat, present: Option<string> -> bool)
    ensures InRange(a + b, n) <==> InRange(a, n) && InRange(b, n)
    ensures AllFound(a + b, present) <==> AllFound(a, present) && AllFound(b, present)
  {
    assert forall i | 0 <= i < |a| :: a[i] == (a + b)[i];
    assert forall i | 0 <= i < |b| :: b[i] == (a + b)[|a| + i];
  }

  lemma {:induction false} FillAppend(table: seq<Slot>, a: seq<Row>, b: seq<Row>)
    requires InRange(a, |table|) && InRange(b, |table|) && InRange(a + b, |table|)
    ensures Fill(table, a + b) == Fill(Fill(table, a), b)
    decreases |a|
  {
    if a == [] {
      assert a + b == b;
    } else {
      assert (a + b)[1..] == a[1..] + b;
      FillAppend(table[a[0].port := Stored(a[0])], a[1..], b);
    }
  }

  lemma ControllerParses(scan: Scanner, c: Controller, table: seq<Slot>, present: Option<string> -> bool)
    requires ReadsRows(scan) && '\n' !in c.header && WellFormed(c.lines) && InRange(Rows(c.lines), |table|)
    ensures EndsWith(ParseStatusText(scan, c.header + ("\n" + TextOf(c.lines)), table, present),
                     table, Rows(c.lines), present)
  {
    var body := "\n" + TextOf(c.lines);
    NewlineAfter(c.header, body);
    assert AfterNewline(body) == Some(TextOf(c.lines)) by {
      assert body[1..] == TextOf(c.lines);
    }
    LinesParse(scan, c.lines, table, present);
  }

  lemma TextsStep(scan: Scanner, text: string, more: seq<Option<string>>, table: seq<Slot>,
                  present: Option<string> -> bool)
    ensures ParseTexts(scan, [Some(text)] + more, table, present) ==
            var (ret, t) := ParseStatusText(scan, text, table, present);
            if ret != Ok then (ret, t) else ParseTexts(scan, more, t, present)
  {
    assert ([Some(text)] + more)[1..] == more;
  }

  lemma {:induction false} TextsParse(scan: Scanner, cs: seq<Controller>, table: seq<Slot>,
                                      present: Option<string> -> bool)
    requires ReadsRows(scan) && WellFormedControllers(cs) && InRange(AllRows(cs), |table|)
    ensures EndsWith(ParseTexts(scan, Texts(cs), table, present), table, AllRows(cs), present)
  {
    if cs != [] {
      var a, b := Rows(cs[0].lines), AllRows(cs[1..]);
      JoinedRows(a, b, |table|, present);
      ControllerParses(scan, cs[0], table, present);
      TextsStep(scan, cs[0].header + ("\n" + TextOf(cs[0].lines)), Texts(cs[1..]), table, present);
      if AllFound(a, present) {
        TextsParse(scan, cs[1..], Fill(table, a), present);
        FillAppend(table, a, b);
      }
    }
  }

  predicate DistinctPorts(rows: seq<Row>) {
    forall i, j | 0 <= i < j < |rows| :: rows[i].port != rows[j].port
  }

  predicate Lists(rows: seq<Row>, port: int) {
    exists i | 0 <= i < |rows| :: rows[i].port == port
  }

  lemma {:induction false} FillSlots(table: seq<Slot>, rows: seq<Row>)
    requires InRange(rows, |table|) && DistinctPorts(rows)
    ensures forall i | 0 <= i < |rows| :: Fill(table, rows)[rows[i].port] == Stored(rows[i])
    ensures forall k | 0 <= k < |table| && !Lists(rows, k) :: Fill(table, rows)[k] == table[k]
    decreases |rows|
  {
    if rows != [] {
      var t := table[rows[0].port := Stored(rows[0])];
      FillSlots(t, rows[1..]);
      assert forall i | 0 < i < |rows| :: rows[i] == rows[1..][i - 1];
      forall k | 0 <= k < |table| && !Lists(rows, k) ensures Fill(table, rows)[k] == table[k] {
        assert rows[0].port != k;
        assert !Lists(rows[1..], k);
      }
    }
  }

  /** The table that usbip_vhci_driver_open builds. */
  function FreshTable(nports: nat): (t: seq<Slot>)
    ensures |t| == nports
    ensures forall k | 0 <= k < nports :: t[k] == ZERO
  {
    seq(nports, _ => ZERO)
  }

  /** The slot of a listed port carries its line's values, every other slot is zero. */
  ghost predicate Mirrors(table: seq<Slot>, rows: seq<Row>) {
    && (forall i | 0 <= i < |rows| :: 0 <= rows[i].port < |table| && table[rows[i].port] == Stored(rows[i]))
    && (forall k | 0 <= k < |table| && !Lists(rows, k) :: table[k] == ZERO)
  }

  lemma FilledMirrors(table: seq<Slot>, rows: seq<Row>)
    requires forall k | 0 <= k < |table| :: table[k] == ZERO
    requires DistinctPorts(rows) && InRange(rows, |table|)
    ensures Mirrors(Fill(table, rows), rows)
  {
    FillSlots(table, rows);
  }

  /** What a slot says of its line: the port modulo 256, which is the port itself below 256. */
  lemma StoredValues(r: Row)
    ensures Stored(r).port == r.port % 0x100 && Stored(r).status == r.status % 0x1_0000_0000
    ensures 0 <= r.port < 0x100 ==> Stored(r).port == r.port
    ensures Stored(r).hub == if r.hub == "hs" then High else Super
  {
  }

  /** A refresh from well-formed texts whose ports are distinct and below nports succeeds exactly
      when the local device of every connected port is found; then the table mirrors the lines of
      all controllers. */
  lemma RefreshRefinesText(cs: seq<Controller>, nports: nat, present: Option<string> -> bool)
    requires WellFormedControllers(cs) && DistinctPorts(AllRows(cs)) && InRange(AllRows(cs), nports)
    ensures var (ret, table) := ParseTexts(ScanRow, Texts(cs), FreshTable(nports), present);
      && |table| == nports && (ret == Ok || ret == Failed)
      && (ret == Ok <==> AllFound(AllRows(cs), present))
      && (ret == Ok ==> Mirrors(table, AllRows(cs)))
  {
    ScanRowReadsRows();
    TextsParse(ScanRow, cs, FreshTable(nports), present);
    FilledMirrors(FreshTable(nports), AllRows(cs));
  }

  /** Of the lines whose port is free for this speed, line i has the lowest port. */
  predicate LowestFree(rows: seq<Row>, speed: u32, i: int) {
    && 0 <= i < |rows| && IsFree(Stored(rows[i]), speed)
    && forall j | 0 <= j < |rows| && IsFree(Stored(rows[j]), speed) :: rows[i].port <= rows[j].port
  }

  /** The port offered is, modulo 256, the lowest of the free ports the text lists for the hub the
      speed needs, and -1 exactly when the text lists none; slots the text does not list are never
      offered. */
  lemma OfferedPort(table: seq<Slot>, rows: seq<Row>, speed: u32)
    requires Mirrors(table, rows)
    ensures Offer(table, speed) == -1 <==> forall i | 0 <= i < |rows| :: !IsFree(Stored(rows[i]), speed)
    ensures Offer(table, speed) != -1 ==>
              exists i :: LowestFree(rows, speed, i) && Offer(table, speed) == rows[i].port % 0x100
  {
    var k := FirstFree(table, speed);
    forall j | 0 <= j < |rows| && IsFree(Stored(rows[j]), speed) ensures k <= rows[j].port {
      assert table[rows[j].port] == Stored(rows[j]);
    }
    if k < |table| {
      assert table[k] != ZERO && Lists(rows, k);
      var i :| 0 <= i < |rows| && rows[i].port == k;
      assert table[rows[i].port] == Stored(rows[i]);
      StoredValues(rows[i]);
      assert LowestFree(rows, speed, i);
    }
  }

  // ----- Refresh told on the lines themselves -----

  function AllLines(cs: seq<Controller>): seq<seq<Piece>> {
    if cs == [] then [] else cs[0].lines + AllLines(cs[1..])
  }

  /** The number in decimal that stands as the k-th word of a line. */
  function DecimalAt(ps: seq<Piece>, k: nat): nat {
    if k < |ps| && AllHex(ps[k].word) then Value(ps[k].word, 10) else 0
  }

  lemma {:induction false} RowsOfLines(cs: seq<Controller>)
    requires WellFormedControllers(cs)
    ensures |AllRows(cs)| == |AllLines(cs)| && WellFormed(AllLines(cs))
    ensures forall i | 0 <= i < |AllLines(cs)| :: AllRows(cs)[i] == RowOf(AllLines(cs)[i])
  {
    if cs != [] {
      RowsOfLines(cs[1..]);
    }
  }

  /** A line's words as a slot; the bus id is there for statuses other than 4 and 5. */
  predicate SlotShows(s: Slot, ps: seq<Piece>)
    requires FitsFormat(ps, FORMAT)
  {
    var status, devid := DecimalAt(ps, 2) % 0x1_0000_0000, Value(ps[4].word, 16) % 0x1_0000_0000;
    && (s.hub == High <==> ps[0].word == "hs")
    && s.port == DecimalAt(ps, 1) % 0x100
    && s.status == status && s.devid == devid
    && s.busnum == devid / 0x1_0000 % 0x100 && s.devnum == devid % 0x100
    && s.udev == if status == 4 || status == 5 then None else Some(ps[6].word)
  }

  lemma LineRow(ps: seq<Piece>, present: Option<string> -> bool)
    requires FitsFormat(ps, FORMAT)
    ensures RowOf(ps).port == DecimalAt(ps, 1)
    ensures Found(RowOf(ps), present) <==>
            DecimalAt(ps, 2) % 0x1_0000_0000 in {4, 5} || present(Some(ps[6].word))
    ensures SlotShows(Stored(RowOf(ps)), ps)
  {
    assert FORMAT[1] == Dec && FORMAT[2] == Dec && FORMAT[4] == Hex;
  }

  /** A refresh from well-formed texts whose ports are distinct and below nports succeeds exactly
      when every line whose status is neither 4 nor 5 names a local device that is there. Then
      each listed port's slot shows its line, and every other slot is zero. */
  lemma RefreshOnLines(cs: seq<Controller>, nports: nat, present: Option<string> -> bool)
    requires WellFormedControllers(cs)
    requires forall i | 0 <= i < |AllLines(cs)| :: DecimalAt(AllLines(cs)[i], 1) < nports
    requires forall i, j | 0 <= i < j < |AllLines(cs)| ::
               DecimalAt(AllLines(cs)[i], 1) != DecimalAt(AllLines(cs)[j], 1)
    ensures WellFormed(AllLines(cs))
    ensures var (ret, table) := ParseTexts(ScanRow, Texts(cs), FreshTable(nports), present);
      var lines := AllLines(cs);
      && |table| == nports && (ret == Ok || ret == Failed)
      && (ret == Ok <==> forall i | 0 <= i < |lines| ::
                           DecimalAt(lines[i], 2) % 0x1_0000_0000 in {4, 5} || present(Some(lines[i][6].word)))
      && (ret == Ok ==>
            && (forall i | 0 <= i < |lines| :: SlotShows(table[DecimalAt(lines[i], 1)], lines[i]))
            && (forall k | 0 <= k < nports && (forall i | 0 <= i < |lines| :: DecimalAt(lines[i], 1) != k) ::
                  table[k] == Slot(High, 0, 0, 0, 0, 0, None)))
  {
    var lines, rows := AllLines(cs), AllRows(cs);
    RowsOfLines(cs);
    forall i | 0 <= i < |lines|
      ensures rows[i].port == DecimalAt(lines[i], 1) && SlotShows(Stored(rows[i]), lines[i])
      ensures Found(rows[i], present) <==>
              DecimalAt(lines[i], 2) % 0x1_0000_0000 in {4, 5} || present(Some(lines[i][6].word))
    {
      LineRow(lines[i], present);
    }
    RefreshRefinesText(cs, nports, present);
  }

  // ----- Texts that are not well-formed -----

  /** No header line, or no text: the refresh fails and the table stays as it is. */
  lemma NoText(scan: Scanner, value: string, more: seq<Option<string>>, table: seq<Slot>,
               present: Option<string> -> bool)
    ensures '\n' !in value ==> ParseTexts(scan, [Some(value)] + more, table, present) == (Failed, table)
    ensures ParseTexts(scan, [None] + more, table, present) == (Failed, table)
  {
    TextsStep(scan, value, more, table, present);
  }

  /** A text that ends before the fifth word of a line aborts; one that ends before the seventh
      gives a row without a bus id. */
  lemma ShortLastLine(ps: seq<Piece>)
    requires |ps| < 7 && FitsFormat(ps, FORMAT[..|ps|])
    ensures ScanRow(LineText(ps, "")).Some? <==> |ps| >= 5
    ensures |ps| >= 5 ==> ScanRow(LineText(ps, "")).value.busid == None
  {
    ConvertConverts();
    EndConverts();
    ShortLineScans(Convert, ps, FORMAT);
    ShortRow(Sscanf(Convert, LineText(ps, ""), FORMAT));
  }

  lemma EndConverts()
    ensures forall conv :: Convert("\n", conv) == None
  {
    assert SkipSpace("\n") == "";
  }

  lemma ShortRow(v: seq<Scanned>)
    requires |v| < 7
    ensures RowFrom(v).Some? <==> |v| >= 5
    ensures |v| >= 5 ==> RowFrom(v).value.busid == None
  {
  }

  lemma {:induction false} ShortLineScans(cv: Converter, ps: seq<Piece>, format: seq<Conversion>)
    requires Converts(cv) && |ps| < |format| && FitsFormat(ps, format[..|ps|])
    requires forall conv :: cv("\n", conv) == None
    ensures |Sscanf(cv, LineText(ps, ""), format)| == |ps|
  {
    if ps == [] {
      assert LineText(ps, "") == "\n";
    } else {
      var rest := LineText(ps[1..], "");
      assert IsSpace(rest[0]) by {
        if |ps| > 1 {
          assert ps[1..][0] == ps[1] && ps[1].sep[0] in ps[1].sep;
        }
      }
      assert format[..|ps|][0] == format[0] && format[..|ps|][1..] == format[1..][..|ps| - 1];
      assert cv(ps[0].sep + (ps[0].word + rest), format[0]) == Some((ScannedWord(ps[0].word, format[0]), rest));
      ShortLineScans(cv, ps[1..], format[1..]);
    }
  }

  lemma DigitsCut(w: string, rest: string, hex: bool)
    requires (forall c | c in w :: if hex then IsXDigit(c) else IsDigit(c)) && (rest != [] ==> !IsXDigit(rest[0]))
    ensures var u := w + rest; DigitEnd(u, hex) == |w| && u[..|w|] == w && u[|w|..] == rest
  {
    DigitEndIs(w, rest, hex);
  }

  /** A number may carry a sign. */
  lemma SignConverts(sign: char, w: string, rest: string)
    requires (sign == '-' || sign == '+') && FitsConversion(w, Dec) && (rest != [] ==> !IsXDigit(rest[0]))
    ensures AllHex(w)
    ensures var v: int := Value(w, 10);
      ConvertHere([sign] + (w + rest), Dec) == Some((Number(if sign == '-' then -v else v), rest))
  {
    var t := [sign] + (w + rest);
    assert t[1..] == w + rest;
    DigitsCut(w, rest, false);
  }

  /** A hexadecimal number may stand behind 0x. */
  lemma MarkConverts(x: char, w: string, rest: string)
    requires (x == 'x' || x == 'X') && FitsConversion(w, Hex) && (rest != [] ==> !IsXDigit(rest[0]))
    ensures AllHex(w)
    ensures ConvertHere(['0', x] + (w + rest), Hex) == Some((Number(Value(w, 16)), rest))
  {
    var t := ['0', x] + (w + rest);
    assert t[2..] == w + rest && t[2] == w[0] && w[0] in w;
    DigitsCut(w, rest, true);
  }

  /** A word too long for its width is cut, and the rest of it is the next word. */
  lemma LongWordCut(w: string, rest: string, width: nat)
    requires 0 < width < |w| && (forall c | c in w :: !IsSpace(c)) && (rest != [] ==> IsSpace(rest[0]))
    ensures ConvertHere(w + rest, Word(width)) == Some((Text(w[..width]), w[width..] + rest))
  {
    WordEndIs(w, rest);
    assert (w + rest)[..width] == w[..width] && (w + rest)[width..] == w[width..] + rest;
  }

  /** A line with a port outside the table: the code stores beyond the table. */
  lemma WildPort(scan: Scanner, ps: seq<Piece>, more: string, table: seq<Slot>, present: Option<string> -> bool)
    requires ReadsRows(scan) && FitsFormat(ps, FORMAT)
    ensures ParseLines(scan, LineText(ps, more), table, present).0 == Wild ||
            DecimalAt(ps, 1) < |table|
  {
    assert scan(LineText(ps, more)) == Some(RowOf(ps));
    LineRow(ps, present);
  }
}
