/** The record of a connection: written by record_connection (usbip_attach.c), read back by
    read_record (vhci_driver.c). */
module ConnectionRecord {
  import opened Wrappers
  import opened CText

  /** snprintf into a buffer of MAX_BUFF bytes keeps one byte less. */
  const LINE_MAX := 99

  const HOST_LEN := 1025
  const PORT_LEN := 32
  const BUSID_LEN := 32

  /** What snprintf(buff, 100, "%s %s %s\n", host, port, busid) leaves in the buffer. */
  function RecordLine(host: string, port: string, busid: string): string {
    var line := FullLine(host, port, busid);
    if |line| <= LINE_MAX then line else line[..LINE_MAX]
  }

  function FullLine(host: string, port: string, busid: string): string {
    host + (" " + (port + (" " + (busid + "\n"))))
  }

  /** The text of a record that fits: three parts, a blank between them, a newline at the end. */
  lemma RecordText(host: string, port: string, busid: string)
    ensures FullLine(host, port, busid) == host + " " + port + " " + busid + "\n"
    ensures |host| + |port| + |busid| + 3 <= 99 ==>
              RecordLine(host, port, busid) == host + " " + port + " " + busid + "\n"
    ensures |host| + |port| + |busid| + 3 > 99 ==>
              RecordLine(host, port, busid) == (host + " " + port + " " + busid + "\n")[..99]
  {
    JoinRight(host + " " + port, " ", busid + "\n");
    JoinRight(host, " ", port + (" " + (busid + "\n")));
    JoinRight(host + " ", port, " " + (busid + "\n"));
    JoinRight(host + " " + port + " ", busid, "\n");
  }

  lemma JoinRight(a: string, b: string, c: string)
    ensures a + (b + c) == a + b + c
  {
  }

  // ----- Reading -----

  /** The words sscanf finds with %s conversions. */
  function Words(s: string): seq<string>
    decreases |s|, 1
  {
    WordsHere(SkipSpace(s))
  }

  /** The same for text without leading white space. */
  function WordsHere(t: string): seq<string>
    decreases |t|, 0
  {
    if t == [] || IsSpace(t[0]) then []
    else
      var n := WordEnd(t);
      [t[..n]] + Words(t[n..])
  }

  /** What fgets with this buffer reads from the file. */
  function FirstLine(file: string): string {
    var n := Find(file, '\n');
    var line := if n < |file| then file[..n + 1] else file;
    var size := HOST_LEN + PORT_LEN + BUSID_LEN + 3;
    if |line| <= size then line else line[..size]
  }

  /** Each of the parts ends in its delimiter and is no longer than allowed. */
  predicate PartsFit(s: string, delim: seq<char>, max: seq<nat>)
    requires |delim| == |max|
    decreases |delim|
  {
    delim == [] ||
    (var end := Find(s, delim[0]);
     end < |s| && end <= max[0] && PartsFit(s[end + 1..], delim[1..], max[1..]))
  }

  const DELIMITERS := [' ', ' ', '\n']
  const LENGTHS: seq<nat> := [HOST_LEN, PORT_LEN, BUSID_LEN]

  function ParseRecord(file: string): Option<(string, string, string)> {
    var line := FirstLine(file);
    if line == [] || !PartsFit(line, DELIMITERS, LENGTHS) then None
    else
      var w := Words(line);
      if |w| < 3 then None else Some((w[0], w[1], w[2]))
  }

  // ----- Round trip -----

  predicate NoSpace(s: string) {
    forall c | c in s :: !IsSpace(c) && c != NUL
  }

  /** A word before others; an empty one is none. */
  function Before(w: string, words: seq<string>): seq<string> {
    if w == [] then words else [w] + words
  }

  lemma SpaceStep(t: string)
    requires t != [] && IsSpace(t[0])
    ensures Words(t) == Words(t[1..])
  {
    assert SkipSpace(t) == SkipSpace(t[1..]);
  }

  lemma WordStep(w: string, t: string)
    requires NoSpace(w) && w != [] && t != [] && IsSpace(t[0])
    ensures Words(w + t) == [w] + Words(t)
  {
    assert (w + t)[0] == w[0] && w[0] in w;
    assert SkipSpace(w + t) == w + t;
    WordEndIs(w, t);
    assert (w + t)[..|w|] == w && (w + t)[|w|..] == t;
  }

  /** A word, perhaps empty, and the white space after it. */
  lemma WordsStep(w: string, t: string)
    requires NoSpace(w) && t != [] && IsSpace(t[0])
    ensures Words(w + t) == Before(w, Words(t[1..]))
  {
    SpaceStep(t);
    if w == [] {
      assert w + t == t;
    } else {
      WordStep(w, t);
    }
  }

  function LastPart(b: string): string {
    b + "\n"
  }

  function LastTwoParts(p: string, b: string): string {
    p + (" " + LastPart(b))
  }

  lemma LastWord(b: string)
    requires NoSpace(b)
    ensures Words(LastPart(b)) == Before(b, [])
  {
    WordsStep(b, "\n");
    assert Words("") == [];
  }

  lemma LastTwoWords(p: string, b: string)
    requires NoSpace(p) && NoSpace(b)
    ensures Words(LastTwoParts(p, b)) == Before(p, Before(b, []))
  {
    var t := " " + LastPart(b);
    assert t[1..] == LastPart(b);
    WordsStep(p, t);
    LastWord(b);
  }

  lemma WordsOfLine(h: string, p: string, b: string)
    requires NoSpace(h) && NoSpace(p) && NoSpace(b)
    ensures Words(FullLine(h, p, b)) == Before(h, Before(p, Before(b, [])))
  {
    var t := " " + LastTwoParts(p, b);
    assert t[1..] == LastTwoParts(p, b);
    WordsStep(h, t);
    LastTwoWords(p, b);
  }

  lemma PartStep(w: string, t: string, delim: seq<char>, max: seq<nat>)
    requires NoSpace(w) && |delim| == |max| > 0
    requires t != [] && t[0] == delim[0] && IsSpace(delim[0])
    ensures PartsFit(w + t, delim, max) <==> |w| <= max[0] && PartsFit(t[1..], delim[1..], max[1..])
  {
    var s := w + t;
    assert s[..|w|] == w && s[|w| + 1..] == t[1..];
    FindIs(s, delim[0], |w|);
  }

  /** The length check passes exactly when each part is short enough. */
  lemma LineFits(h: string, p: string, b: string)
    requires NoSpace(h) && NoSpace(p) && NoSpace(b)
    ensures PartsFit(FullLine(h, p, b), DELIMITERS, LENGTHS) <==>
            |h| <= HOST_LEN && |p| <= PORT_LEN && |b| <= BUSID_LEN
  {
    var t, u := " " + LastTwoParts(p, b), " " + LastPart(b);
    assert t[1..] == LastTwoParts(p, b) && u[1..] == LastPart(b);
    PartStep(h, t, DELIMITERS, LENGTHS);
    PartStep(p, u, [' ', '\n'], [PORT_LEN, BUSID_LEN]);
    PartStep(b, "\n", ['\n'], [BUSID_LEN]);
    assert DELIMITERS[1..] == [' ', '\n'] && LENGTHS[1..] == [PORT_LEN, BUSID_LEN];
    assert [' ', '\n'][1..] == ['\n'] && [PORT_LEN, BUSID_LEN][1..] == [BUSID_LEN];
    assert PartsFit("\n"[1..], ['\n'][1..], [BUSID_LEN][1..]);
  }

  /** A record without a newline is rejected. */
  lemma {:induction false} PartsNeedNewline(s: string, delim: seq<char>, max: seq<nat>)
    requires |delim| == |max| > 0 && delim[|delim| - 1] == '\n'
    requires PartsFit(s, delim, max)
    ensures '\n' in s
    decreases |delim|
  {
    var end := Find(s, delim[0]);
    if |delim| > 1 {
      PartsNeedNewline(s[end + 1..], delim[1..], max[1..]);
    }
  }

  lemma NewlineLast(h: string, p: string, b: string)
    requires NoSpace(h) && NoSpace(p) && NoSpace(b)
    ensures var line := FullLine(h, p, b);
      '\n' !in line[..|line| - 1] && Find(line, '\n') == |line| - 1
  {
    var line := FullLine(h, p, b);
    var body := h + (" " + (p + (" " + b)));
    assert line == body + "\n";
    assert line[..|line| - 1] == body;
    assert '\n' !in h && '\n' !in p && '\n' !in b;
    FindIs(line, '\n', |line| - 1);
  }

  /** Reading back what was written gives the same triple exactly when no part is empty, service
      and bus id have at most 32 characters and the line fits the buffer; every other record is
      rejected. */
  lemma RecordRoundTrip(host: string, port: string, busid: string)
    requires NoSpace(host) && NoSpace(port) && NoSpace(busid)
    ensures ParseRecord(RecordLine(host, port, busid)) ==
            if host != [] && port != [] && busid != [] && |port| <= PORT_LEN && |busid| <= BUSID_LEN
               && |host| + |port| + |busid| + 3 <= LINE_MAX
            then Some((host, port, busid)) else None
  {
    if |FullLine(host, port, busid)| <= LINE_MAX {
      WholeLineReadsBack(host, port, busid);
    } else {
      CutLineRejected(host, port, busid, LINE_MAX);
    }
  }

  lemma WholeLineReadsBack(host: string, port: string, busid: string)
    requires NoSpace(host) && NoSpace(port) && NoSpace(busid) && |FullLine(host, port, busid)| <= LINE_MAX
    ensures ParseRecord(FullLine(host, port, busid)) ==
            if host != [] && port != [] && busid != [] && |port| <= PORT_LEN && |busid| <= BUSID_LEN
            then Some((host, port, busid)) else None
  {
    var line := FullLine(host, port, busid);
    assert line + "" == line;
    AnyRecord(host, port, busid, line, "");
  }

  lemma FirstLineOf(h: string, p: string, b: string, file: string, rest: string)
    requires NoSpace(h) && NoSpace(p) && NoSpace(b) && file == FullLine(h, p, b) + rest
    ensures var line := FullLine(h, p, b);
      FirstLine(file) == if |line| <= 1092 then line else line[..1092]
  {
    var line := FullLine(h, p, b);
    NewlineLast(h, p, b);
    var n := |line| - 1;
    assert file[..n] == line[..n] && file[n] == line[n] && file[..n + 1] == line;
    FindIs(file, '\n', n);
  }

  /** A file that starts with three words, a blank between them and a newline after them, is read as
      these words exactly when none is empty, the host has at most 1025 characters and the service
      and bus id at most 32: the buffer for the line is never what decides. */
  lemma AnyRecord(h: string, p: string, b: string, file: string, rest: string)
    requires NoSpace(h) && NoSpace(p) && NoSpace(b) && file == FullLine(h, p, b) + rest
    ensures ParseRecord(file) ==
            if h != [] && p != [] && b != [] && |h| <= 1025 && |p| <= 32 && |b| <= 32
            then Some((h, p, b)) else None
  {
    FirstLineOf(h, p, b, file, rest);
    if |FullLine(h, p, b)| <= 1092 {
      LineFits(h, p, b);
      WordsOfLine(h, p, b);
      CountWords(h, p, b);
    } else {
      CutHasNoNewline(h, p, b, 1092);
      if PartsFit(FirstLine(file), DELIMITERS, LENGTHS) {
        PartsNeedNewline(FirstLine(file), DELIMITERS, LENGTHS);
      }
    }
  }

  lemma CutHasNoNewline(host: string, port: string, busid: string, n: nat)
    requires NoSpace(host) && NoSpace(port) && NoSpace(busid)
    requires n < |FullLine(host, port, busid)|
    ensures '\n' !in FullLine(host, port, busid)[..n]
  {
    var line := FullLine(host, port, busid);
    NewlineLast(host, port, busid);
    forall i | 0 <= i < n ensures line[..n][i] != '\n' {
      assert line[..n][i] == line[..|line| - 1][i];
    }
  }

  lemma CountWords(h: string, p: string, b: string)
    ensures var w := Before(h, Before(p, Before(b, [])));
      if h != [] && p != [] && b != [] then |w| == 3 && w[0] == h && w[1] == p && w[2] == b else |w| < 3
  {
  }

  /** A line that is cut anywhere, by the buffer or by a short write, is rejected. */
  lemma CutLineRejected(host: string, port: string, busid: string, n: nat)
    requires NoSpace(host) && NoSpace(port) && NoSpace(busid)
    requires n < |FullLine(host, port, busid)|
    ensures ParseRecord(FullLine(host, port, busid)[..n]) == None
  {
    var cut := FullLine(host, port, busid)[..n];
    CutHasNoNewline(host, port, busid, n);
    FindIs(cut, '\n', |cut|);
    assert '\n' !in FirstLine(cut);
    if PartsFit(FirstLine(cut), DELIMITERS, LENGTHS) {
      PartsNeedNewline(FirstLine(cut), DELIMITERS, LENGTHS);
    }
  }

  // ----- The state directory -----

  /** What a write that stores at most n characters leaves in the file. */
  function Written(text: string, n: nat): string {
    if n < |text| then text[..n] else text
  }

  /** A record that a short write left incomplete is rejected. */
  lemma ShortWriteRejected(host: string, port: string, busid: string, stored: nat)
    requires NoSpace(host) && NoSpace(port) && NoSpace(busid)
    requires stored < |RecordLine(host, port, busid)|
    ensures ParseRecord(Written(RecordLine(host, port, busid), stored)) == None
  {
    var line, buff := FullLine(host, port, busid), RecordLine(host, port, busid);
    CutLineRejected(host, port, busid, stored);
    assert buff[..stored] == line[..stored];
  }

  /** VHCI_STATE_PATH: whether the directory is there, and the contents of the files portN in it. */
  class StateDir {
    var present: bool
    var files: map<int, string>

    ghost predicate Valid()
      reads this
    {
      !present ==> files == map[]
    }

    constructor ()
      ensures Valid() && !present && files == map[]
    {
      present, files := false, map[];
    }

    /** record_connection. The directory can be made or is one already, the file can be opened, and
        write stores the first `stored` characters, as the flags say. Only the file of the port
        changes. */
    method RecordConnection(host: string, port: string, busid: string, rhport: int,
                            dirReady: bool, fileOpen: bool, stored: nat) returns (ret: int)
      requires Valid()
      modifies this
      ensures Valid() && present == (old(present) || dirReady)
      ensures ret == 0 || ret == -1
      ensures ret == 0 <==> dirReady && fileOpen && stored >= |RecordLine(host, port, busid)|
      ensures ret == 0 ==> files == old(files)[rhport := RecordLine(host, port, busid)]
      ensures files - {rhport} == old(files) - {rhport}
      ensures !dirReady || !fileOpen ==> files == old(files)
      ensures dirReady && fileOpen ==>
                rhport in files && files[rhport] == Written(RecordLine(host, port, busid), stored)
    {
      if !dirReady {
        return -1;
      }
      present := true;
      if !fileOpen {
        return -1;
      }
      var buff := RecordLine(host, port, busid);
      files := files[rhport := Written(buff, stored)];
      assert files - {rhport} == old(files) - {rhport};
      if stored < |buff| {
        return -1;
      }
      return 0;
    }

    /** remove and rmdir of detach_port: a missing file is no error, and the directory goes only
        when it is empty. */
    method Remove(rhport: int)
      requires Valid()
      modifies this
      ensures Valid() && files == old(files) - {rhport}
      ensures present == (old(present) && files != map[])
    {
      files := files - {rhport};
      if files == map[] {
        present := false;
      }
    }

    /** read_record */
    method ReadRecord(rhport: int) returns (r: Option<(string, string, string)>)
      ensures r == if rhport in files then ParseRecord(files[rhport]) else None
    {
      if rhport !in files {
        return None;
      }
      var buffer := FirstLine(files[rhport]);
      if buffer == [] {
        return None;
      }
      var start := buffer;
      var part := 0;
      while part < 3
        invariant 0 <= part <= 3
        invariant PartsFit(start, DELIMITERS[part..], LENGTHS[part..]) == PartsFit(buffer, DELIMITERS, LENGTHS)
      {
        var end := Find(start, DELIMITERS[part]);
        if end == |start| || end > LENGTHS[part] {
          return None;
        }
        start := start[end + 1..];
        part := part + 1;
      }
      var w := Words(buffer);
      if |w| < 3 {
        return None;
      }
      return Some((w[0], w[1], w[2]));
    }
  }
}
