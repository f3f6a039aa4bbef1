/** Attaching to and detaching from a virtual port (usbip_attach.c, usbip_detach.c), one call at a
    time; PortRuns has the interleavings. */
module Ports {
  import opened Wrappers
  import opened Words
  import opened CText
  import opened VhciStatus
  import opened ConnectionRecord

  const USBIP_PORT_STRING := "3240"

  /** The kernel's answers to a write to the attach attribute: accepted, EBUSY, another error. */
  datatype Answer = Accepted | Busy | Refused

  /** StillTrying: every answer so far was EBUSY, so the loop has not left. */
  datatype Import = Port(port: int) | GaveUp | StillTrying

  /** The number of EBUSY answers before the first other one. */
  function Retries(answers: seq<Answer>): (n: nat)
    ensures n <= |answers| && (n < |answers| ==> answers[n] != Busy)
    ensures forall i | 0 <= i < n :: answers[i] == Busy
  {
    if answers == [] || answers[0] != Busy then 0 else 1 + Retries(answers[1..])
  }

  /** How the loop of import_device ends when port is offered every time. */
  function Imported(port: int, answers: seq<Answer>): Import {
    var n := Retries(answers);
    if answers == [] then StillTrying
    else if port == -1 then GaveUp
    else if n == |answers| then StillTrying
    else if answers[n] == Accepted then Port(port)
    else GaveUp
  }

  /** Answer n is the first that is not EBUSY. */
  predicate FirstOther(answers: seq<Answer>, n: int) {
    0 <= n < |answers| && answers[n] != Busy && forall i | 0 <= i < n :: answers[i] == Busy
  }

  /** The kernel's first answer other than EBUSY is this one. */
  ghost predicate Ends(answers: seq<Answer>, last: Answer) {
    exists n :: FirstOther(answers, n) && answers[n] == last
  }

  lemma EndsOnce(answers: seq<Answer>)
    ensures !(Ends(answers, Accepted) && Ends(answers, Refused)) && !Ends(answers, Busy)
    ensures (forall i | 0 <= i < |answers| :: answers[i] == Busy) || Ends(answers, Accepted) || Ends(answers, Refused)
  {
    var n := Retries(answers);
    if n < |answers| {
      assert FirstOther(answers, n);
    }
  }

  /** The port is taken exactly when one is offered and the kernel's first answer other than EBUSY
      accepts it; the call fails when none is offered or that answer is another error. */
  lemma ImportedWhen(port: int, answers: seq<Answer>)
    ensures var r := Imported(port, answers);
      && (r == Port(port) <==> port != -1 && Ends(answers, Accepted))
      && (r.Port? ==> r.port == port)
      && (r == GaveUp <==> answers != [] && (port == -1 || Ends(answers, Refused)))
      && (r == StillTrying <==> answers == [] || (port != -1 && forall i | 0 <= i < |answers| :: answers[i] == Busy))
  {
    var n := Retries(answers);
    if n < |answers| {
      assert FirstOther(answers, n);
    }
  }

  /** The loop of import_device with the answers the kernel gives; offers collects the ports
      written. The table is read once, before the loop. */
  method ImportDevice(idev: array<Slot>, speed: u32, answers: seq<Answer>) returns (r: Import, offers: seq<int>)
    ensures forall i | 0 <= i < |offers| :: offers[i] == Offer(idev[..], speed)
    ensures |offers| == if Offer(idev[..], speed) == -1 then 0
                        else if Retries(answers) < |answers| then Retries(answers) + 1 else |answers|
    ensures r == Imported(Offer(idev[..], speed), answers)
    ensures r.Port? <==> Offer(idev[..], speed) != -1 && Ends(answers, Accepted)
    ensures r.Port? ==> r.port == Offer(idev[..], speed)
    ensures r == GaveUp <==> answers != [] && (Offer(idev[..], speed) == -1 || Ends(answers, Refused))
  {
    ImportedWhen(Offer(idev[..], speed), answers);
    offers := [];
    var n := 0;
    while n < |answers|
      invariant 0 <= n == |offers| <= |answers|
      invariant forall i | 0 <= i < n :: answers[i] == Busy && offers[i] == Offer(idev[..], speed)
      invariant n > 0 ==> Offer(idev[..], speed) != -1
    {
      var port := GetFreePort(idev, speed);
      if port < 0 {
        return GaveUp, offers;
      }
      offers := offers + [port];
      if answers[n] == Accepted {
        RetriesIs(answers, n);
        return Port(port), offers;
      }
      if answers[n] == Refused {
        RetriesIs(answers, n);
        return GaveUp, offers;
      }
      n := n + 1;
    }
    RetriesIs(answers, n);
    return StillTrying, offers;
  }

  lemma RetriesIs(answers: seq<Answer>, n: nat)
    requires n <= |answers| && (n < |answers| ==> answers[n] != Busy)
    requires forall i | 0 <= i < n :: answers[i] == Busy
    ensures Retries(answers) == n
  {
  }

  // ----- The argument of detach_port -----

  predicate AllDigits(port: string) {
    forall c | c in port :: IsDigit(c)
  }

  /** atoi of the digits, cut to uint8_t. */
  function PortNumber(port: string): u8
    requires AllDigits(port)
  {
    Value(port, 10) % 0x100
  }

  /** What "%d" prints for a port. */
  function Decimal(n: nat): (s: string)
    ensures s != [] && AllDigits(s)
  {
    var last := ['0' + (n % 10) as char];
    if n < 10 then last else Decimal(n / 10) + last
  }

  lemma {:induction false} DecimalReadsBack(n: nat)
    ensures Value(Decimal(n), 10) == n
  {
    var last := ['0' + (n % 10) as char];
    if n < 10 {
      assert Decimal(n) == last && last[..0] == [];
      assert Value(last[..0], 10) == 0;
    } else {
      DecimalReadsBack(n / 10);
      assert (Decimal(n / 10) + last)[..|Decimal(n / 10)|] == Decimal(n / 10);
    }
  }

  /** No number but 0 starts with a zero. */
  lemma {:induction false} DecimalStart(n: nat)
    ensures Decimal(0) == "0" && (n > 0 ==> Decimal(n)[0] != '0')
  {
    if n >= 10 {
      DecimalStart(n / 10);
    }
  }

  /** Printing a port and parsing it back gives the port, cut to 8 bits: the same port exactly
      when it is below 256. */
  lemma PortReadsBack(n: nat)
    ensures PortNumber(Decimal(n)) == n % 0x100
    ensures PortNumber(Decimal(n)) == n <==> n < 256
  {
    DecimalReadsBack(n);
  }

  // ----- The search of detach_port -----

  /** The first slot that carries this port, or |table|. */
  function SlotWith(table: seq<Slot>, port: u8): (i: nat)
    ensures i <= |table| && (i < |table| ==> table[i].port == port)
    ensures forall j | 0 <= j < i :: table[j].port != port
  {
    if table == [] || table[0].port == port then 0 else 1 + SlotWith(table[1..], port)
  }

  lemma SlotWithIs(table: seq<Slot>, port: u8, i: nat)
    requires i <= |table| && (i < |table| ==> table[i].port == port)
    requires forall j | 0 <= j < i :: table[j].port != port
    ensures SlotWith(table, port) == i
  {
  }

  /** detach_port goes on to remove the file and write the attribute. */
  predicate WillDetach(table: seq<Slot>, port: u8) {
    var i := SlotWith(table, port);
    i < |table| && table[i].status != VDEV_ST_NULL
  }

  /** Of the lines whose port is this one modulo 256, line i has the lowest. */
  predicate LowestLine(rows: seq<Row>, port: u8, i: int) {
    && 0 <= i < |rows| && rows[i].port % 0x100 == port
    && forall j | 0 <= j < |rows| && rows[j].port % 0x100 == port :: rows[i].port <= rows[j].port
  }

  /** In a table read from the status texts, a port is detached exactly when the first line that
      lists it, modulo 256, does not show it free; but port 0 also when no line lists it and there
      is a slot for it, because the slot is then all zero. */
  lemma DetachedPorts(table: seq<Slot>, rows: seq<Row>, port: u8)
    requires Mirrors(table, rows)
    ensures WillDetach(table, port) <==>
            || (exists i :: LowestLine(rows, port, i) && Stored(rows[i]).status != VDEV_ST_NULL)
            || (port == 0 && |table| > 0 && !Lists(rows, 0))
  {
    forall i | 0 <= i < |rows| ensures table[rows[i].port].port == rows[i].port % 0x100 {
      StoredValues(rows[i]);
    }
    forall k | 0 <= k < |table| ensures table[k].port == if Lists(rows, k) then k % 0x100 else 0 {
    }
    var k := SlotWith(table, port);
    if port == 0 {
      SlotWithIs(table, port, if |table| > 0 then 0 else |table|);
    }
    if k < |table| && Lists(rows, k) {
      var i :| 0 <= i < |rows| && rows[i].port == k;
      assert table[rows[i].port] == Stored(rows[i]);
      assert LowestLine(rows, port, i);
    }
    forall i | LowestLine(rows, port, i) ensures k <= rows[i].port {
    }
  }

  // ----- The calls -----

  /** One machine: the ports its kernel holds in use, and its state directory. */
  class Client {
    var used: set<int>
    const dir: StateDir

    constructor ()
      ensures used == {} && fresh(dir) && dir.Valid() && dir.files == map[]
    {
      used := {};
      dir := new StateDir();
    }

    /** attach_device, from the reply on. A failure to record returns -1 and leaves the port attached. */
    method AttachDevice(host: string, busid: string, idev: array<Slot>, speed: u32, answers: seq<Answer>,
                        dirReady: bool, fileOpen: bool, stored: nat) returns (r: Import)
      requires dir.Valid()
      modifies this, dir
      ensures dir.Valid()
      ensures var port := Offer(idev[..], speed);
        if port != -1 && Ends(answers, Accepted) then
          && used == old(used) + {port} && dir.files - {port} == old(dir.files) - {port}
          && r == if dirReady && fileOpen && stored >= |RecordLine(host, USBIP_PORT_STRING, busid)|
                  then Port(port) else GaveUp
        else
          && used == old(used) && dir.files == old(dir.files)
          && r == if answers != [] && (port == -1 || Ends(answers, Refused)) then GaveUp else StillTrying
      ensures r.Port? ==>
                var i := FirstFree(idev[..], speed);
                i < idev.Length && IsFree(idev[i], speed) && r.port == idev[i].port
      ensures r.Port? ==> dir.files == old(dir.files)[r.port := RecordLine(host, USBIP_PORT_STRING, busid)]
      ensures r.Port? && NoSpace(host) && NoSpace(busid) && host != [] && busid != [] && |busid| <= 31
              && |host| + |busid| + 7 <= LINE_MAX ==>
                ParseRecord(dir.files[r.port]) == Some((host, "3240", busid))
    {
      var offers;
      r, offers := ImportDevice(idev, speed, answers);
      EndsOnce(answers);
      ImportedWhen(Offer(idev[..], speed), answers);
      if !r.Port? {
        return;
      }
      var port := r.port;
      used := used + {port};
      var rc := dir.RecordConnection(host, USBIP_PORT_STRING, busid, port, dirReady, fileOpen, stored);
      if rc < 0 {
        r := GaveUp;
        return;
      }
      RecordRoundTrip3240(host, busid);
    }

    /** detach_port. idev is the table read by usbip_vhci_driver_open, if that succeeds; accepted
        says whether the kernel takes the write. Only the named port and its file change. */
    method DetachPort(port: string, idev: array?<Slot>, accepted: bool) returns (ret: int)
      requires dir.Valid()
      modifies this, dir
      ensures dir.Valid()
      ensures !AllDigits(port) || idev == null ==> ret == -1 && used == old(used) && dir.files == old(dir.files)
      ensures AllDigits(port) && idev != null ==>
                var p := PortNumber(port);
                if WillDetach(idev[..], p) then
                  && dir.files == old(dir.files) - {p as int}
                  && used == (if accepted then old(used) - {p as int} else old(used))
                  && ret == (if accepted then 0 else -1)
                else
                  ret == 0 && used == old(used) && dir.files == old(dir.files)
    {
      var i := 0;
      while i < |port|
        invariant 0 <= i <= |port|
        invariant forall c | c in port[..i] :: IsDigit(c)
      {
        if !IsDigit(port[i]) {
          assert port[i] in port;
          return -1;
        }
        i := i + 1;
      }
      assert port[..i] == port;
      var portnum: u8 := Value(port, 10) % 0x100;
      if idev == null {
        return -1;
      }
      var found := false;
      i := 0;
      while i < idev.Length
        invariant 0 <= i <= idev.Length && !found
        invariant forall j | 0 <= j < i :: idev[j].port != portnum
      {
        if idev[i].port == portnum {
          found := true;
          SlotWithIs(idev[..], portnum, i);
          if idev[i].status != VDEV_ST_NULL {
            break;
          }
          return 0;
        }
        i := i + 1;
      }
      if !found {
        SlotWithIs(idev[..], portnum, i);
        return 0;
      }
      dir.Remove(portnum);
      if !accepted {
        return -1;
      }
      used := used - {portnum};
      return 0;
    }
  }

  lemma RecordRoundTrip3240(host: string, busid: string)
    ensures NoSpace(host) && NoSpace(busid) && host != [] && busid != [] && |busid| <= 31
              && |host| + |busid| + 7 <= LINE_MAX ==>
            ParseRecord(RecordLine(host, USBIP_PORT_STRING, busid)) == Some((host, USBIP_PORT_STRING, busid))
  {
    if NoSpace(host) && NoSpace(busid) && host != [] && busid != [] && |busid| <= 31
       && |host| + |busid| + 7 <= LINE_MAX {
      RecordRoundTrip(host, USBIP_PORT_STRING, busid);
    }
  }
}
