/** What the server sends, byte by byte, told on the requests and the devices alone. */
module ServerReplies {
  import opened Words
  import opened WireCodec
  import opened Devlist
  import opened ExportDecision
  import opened RequestHandler

  // ----- Which status -----

  /** Device i is the first whose bus id is the requested one, as C strings. */
  predicate Wanted(devs: seq<ExportedDevice>, req: seq<u8>, i: int) {
    && 0 <= i < |devs| && CString(devs[i].udev.busid) == CString(req)
    && forall j | 0 <= j < i :: CString(devs[j].udev.busid) != CString(req)
  }

  lemma SameName(d: ExportedDevice, req: seq<u8>)
    requires |req| == 32
    ensures IsMatch(d, req) <==> CString(d.udev.busid) == CString(req)
  {
  }

  lemma {:induction false} SearchWanted(devs: seq<ExportedDevice>, req: seq<u8>, i: int)
    requires |req| == 32 && Wanted(devs, req, i)
    ensures Search(devs, req).Some? && Search(devs, req).value == devs[i]
  {
    SameName(devs[0], req);
    if i > 0 {
      assert forall j | 0 <= j < i - 1 :: devs[1..][j] == devs[j + 1];
      SearchWanted(devs[1..], req, i - 1);
    }
  }

  lemma FoundIsWanted(devs: seq<ExportedDevice>, req: seq<u8>)
    requires |req| == 32 && Search(devs, req).Some?
    ensures exists i :: Wanted(devs, req, i)
  {
    SearchFindsFirst(devs, req);
    var i :| FirstMatch(devs, req, i) && devs[i] == Search(devs, req).value;
    forall j | 0 <= j <= i ensures IsMatch(devs[j], req) <==> CString(devs[j].udev.busid) == CString(req) {
      SameName(devs[j], req);
    }
    assert Wanted(devs, req, i);
  }

  /** The status for each state of the device that bears the requested name: 1 is available, 2 in
      use, 3 in error. The name of the attribute fits up to 242 characters of path. */
  lemma StatusOf(devs: seq<ExportedDevice>, req: seq<u8>, i: int, accepted: bool)
    requires |req| == 32 && Wanted(devs, req, i)
    ensures var st, d := ReplyStatus(devs, req, accepted), devs[i];
      && (st == 0 <==> d.status == 1 && |CString(d.udev.path)| <= 242 && accepted)
      && (st == 1 <==> d.status != 2 && d.status != 3 &&
                       (d.status != 1 || |CString(d.udev.path)| > 242 || !accepted))
      && (st == 2 <==> d.status == 2)
      && (st == 3 <==> d.status == 3)
      && st != 4
      && (Offers(devs, req) <==> d.status == 1 && |CString(d.udev.path)| <= 242)
  {
    SearchWanted(devs, req, i);
  }

  /** Status 4 says that no device bears the name. */
  lemma NoDevice(devs: seq<ExportedDevice>, req: seq<u8>, accepted: bool)
    requires |req| == 32
    ensures ReplyStatus(devs, req, accepted) == 4 <==> forall i :: !Wanted(devs, req, i)
  {
    if i :| Wanted(devs, req, i) {
      StatusOf(devs, req, i, accepted);
    } else if Search(devs, req).Some? {
      FoundIsWanted(devs, req);
    }
  }

  // ----- Headers -----

  /** The number that four bytes stand for, the most significant first. */
  function Joined(b: seq<u8>): int
    requires |b| == 4
  {
    b[0] as int * 0x100_0000 + b[1] as int * 0x1_0000 + b[2] as int * 0x100 + b[3]
  }

  /** The most significant byte comes first in network order and last on a little-endian host. */
  lemma ByteOrder(v: u32, n: u16)
    ensures Joined(Bytes32(Big, v)) == v
    ensures var b := Bytes32(Little, v); Joined([b[3], b[2], b[1], b[0]]) == v
    ensures var b := Bytes16(Big, n); n == b[0] as int * 0x100 + b[1]
    ensures var b := Bytes16(Little, n); n == b[1] as int * 0x100 + b[0]
  {
    LoadBytes32(Big, v);
    LoadBytes32(Little, v);
  }

  lemma SmallBytes(s: u8)
    ensures Bytes32(Big, s) == [0, 0, 0, s]
  {
  }

  /** Version 1.1.1, then the code, then the status. */
  lemma HeaderBytes(high: u8, low: u8, st: u8)
    ensures WireHeader(OpCommon(0x0111, high as int * 0x100 + low, st)) == [0x01, 0x11, high, low, 0, 0, 0, st]
  {
    var h := OpCommon(0x0111, high as int * 0x100 + low, st);
    HeaderLayout(Big, h);
    SmallBytes(st);
    var w := WireHeader(h);
    assert w == w[0..2] + w[2..4] + w[4..];
  }

  /** The answers to import requests: a header with code 3 and the status, and after status 0 the
      record of the device that bears the name. */
  lemma ImportReplyBytes(devs: seq<ExportedDevice>, req: seq<u8>, accepted: bool)
    requires |req| == 32
    ensures var st := ReplyStatus(devs, req, accepted);
      var header := [0x01, 0x11, 0, 3, 0, 0, 0, st];
      && (st != 0 ==> ImportReply(devs, req, accepted) == header)
      && (st == 0 ==> exists i :: Wanted(devs, req, i) &&
                        ImportReply(devs, req, accepted) == header + WireDevice(devs[i].udev))
  {
    var st := ReplyStatus(devs, req, accepted);
    HeaderBytes(0, 3, st);
    NoDevice(devs, req, accepted);
    if st == 0 {
      var i :| Wanted(devs, req, i);
      SearchWanted(devs, req, i);
    }
  }

  // ----- Which request -----

  lemma HeaderFromBytes(b: seq<u8>, high: u8, low: u8)
    requires |b| == 8
    ensures DecodeHeader(b) == OpCommon(0x0111, high as int * 0x100 + low, 0) <==>
            b == [0x01, 0x11, high, low, 0, 0, 0, 0]
  {
    HeaderBytes(high, low, 0);
    HeaderUnpacks(Big, b);
    HeaderReadBack(Big, OpCommon(0x0111, high as int * 0x100 + low, 0));
  }

  /** The eight bytes of the two requests. */
  predicate AsksForList(b: seq<u8>) {
    b == [0x01, 0x11, 0x80, 0x05, 0, 0, 0, 0]
  }

  predicate AsksForImport(b: seq<u8>) {
    b == [0x01, 0x11, 0x80, 0x03, 0, 0, 0, 0]
  }

  lemma RequestHeaders(b: seq<u8>)
    requires |b| == 8
    ensures AsksForList(b) <==> DecodeHeader(b) == OpCommon(0x0111, 0x8005, 0)
    ensures AsksForImport(b) <==> DecodeHeader(b) == OpCommon(0x0111, 0x8003, 0)
    ensures !(AsksForList(b) && AsksForImport(b))
  {
    HeaderFromBytes(b, 0x80, 0x05);
    HeaderFromBytes(b, 0x80, 0x03);
  }

  lemma AnswersToHeader(h: OpCommon, body: seq<u8>, devs: seq<ExportedDevice>, accepted: bool)
    ensures h == OpCommon(0x0111, 0x8005, 0) ==> Answer(h, body, devs, accepted) == ReplyBytes(Exportable(devs))
    ensures h == OpCommon(0x0111, 0x8003, 0) ==>
              Answer(h, body, devs, accepted) == if |body| >= 32 then ImportReply(devs, body[..32], accepted) else []
    ensures h != OpCommon(0x0111, 0x8005, 0) && h != OpCommon(0x0111, 0x8003, 0) ==>
              Answer(h, body, devs, accepted) == []
  {
  }

  /** The two requests as bytes; anything else is left without an answer. */
  lemma AnswersToBytes(b: seq<u8>, body: seq<u8>, devs: seq<ExportedDevice>, accepted: bool)
    requires |b| == 8
    ensures var answer := Answer(DecodeHeader(b), body, devs, accepted);
      && (AsksForList(b) ==> answer == ReplyBytes(Exportable(devs)))
      && (AsksForImport(b) ==> answer == if |body| >= 32 then ImportReply(devs, body[..32], accepted) else [])
      && (!AsksForList(b) && !AsksForImport(b) ==> answer == [])
  {
    RequestHeaders(b);
    AnswersToHeader(DecodeHeader(b), body, devs, accepted);
  }

  /** A connection ends well on a device-list request, and on an import request answered with status 0. */
  lemma EndsWell(h: OpCommon, body: seq<u8>, devs: seq<ExportedDevice>, accepted: bool)
    ensures h.version == USBIP_VERSION && h.status == ST_OK && Succeeds(h.code, body, devs, accepted) <==>
            || h == OpCommon(0x0111, 0x8005, 0)
            || (h == OpCommon(0x0111, 0x8003, 0) && |body| >= 32 && ReplyStatus(devs, body[..32], accepted) == 0)
  {
  }

  // ----- Device lists -----

  /** The devices listed are those whose status is not 2, in list order. */
  lemma {:induction false} ListedAre(devs: seq<ExportedDevice>) returns (idx: seq<int>)
    ensures |idx| == |Exportable(devs)| && forall j, k | 0 <= j < k < |idx| :: idx[j] < idx[k]
    ensures forall k | 0 <= k < |idx| :: 0 <= idx[k] < |devs| && Exportable(devs)[k] == devs[idx[k]]
    ensures forall i | 0 <= i < |devs| :: i in idx <==> devs[i].status != 2
  {
    idx := [];
    if devs != [] {
      var n := |devs| - 1;
      var before := ListedAre(devs[..n]);
      assert devs == devs[..n] + [devs[n]];
      ExportableAppend(devs[..n], devs[n]);
      idx := if devs[n].status != 2 then before + [n] else before;
    }
  }

  function Unused(d: ExportedDevice): seq<ExportedDevice> {
    if d.status != 2 then [d] else []
  }

  lemma {:induction false} ExportableAppend(devs: seq<ExportedDevice>, d: ExportedDevice)
    ensures Exportable(devs + [d]) == Exportable(devs) + Unused(d)
  {
    if devs == [] {
      assert [] + [d] == [d] && [d][1..] == [];
    } else {
      assert (devs + [d])[1..] == devs[1..] + [d];
      ExportableAppend(devs[1..], d);
    }
  }

  /** Where the record of the k-th device starts in a reply. */
  function RecordStart(list: seq<ExportedDevice>, k: nat): nat
    requires k <= |list|
  {
    if k == 0 then 12 else RecordStart(list, k - 1) + 312 + 4 * list[k - 1].udev.bNumInterfaces
  }

  /** The first record of a reply and what follows it. */
  lemma FirstRecord(d: ExportedDevice, w: seq<u8>, more: seq<u8>)
    requires w == BytesOf(d) + more
    ensures var n := 312 + 4 * d.udev.bNumInterfaces;
      && |w| >= n && w[..312] == WireDevice(d.udev) && w[312..n] == InterfaceBytes(d.Interfaces()) && w[n..] == more
  {
  }

  lemma FirstOfMany(list: seq<ExportedDevice>, k: nat)
    requires k < |list|
    ensures Flat(Records(list[k..])) == BytesOf(list[k]) + Flat(Records(list[k + 1..]))
  {
    assert list[k..] == [list[k]] + list[k + 1..];
    FlatFirst(list[k], list[k + 1..]);
  }

  /** From position at on, w holds the records of the devices from the k-th on. */
  predicate HoldsFrom(w: seq<u8>, at: nat, list: seq<ExportedDevice>, k: nat)
    requires k <= |list|
  {
    at <= |w| && w[at..] == Flat(Records(list[k..]))
  }

  lemma RecordIn(list: seq<ExportedDevice>, w: seq<u8>, k: nat, at: nat)
    requires k < |list| && HoldsFrom(w, at, list, k)
    ensures var n := at + 312 + 4 * list[k].udev.bNumInterfaces;
      && n <= |w|
      && w[at..at + 312] == WireDevice(list[k].udev) && w[at + 312..n] == InterfaceBytes(list[k].Interfaces())
      && HoldsFrom(w, n, list, k + 1)
  {
    var n := at + 312 + 4 * list[k].udev.bNumInterfaces;
    FirstOfMany(list, k);
    FirstRecord(list[k], w[at..], Flat(Records(list[k + 1..])));
    Parts(w, at, n);
  }

  lemma Parts(w: seq<u8>, at: nat, n: nat)
    requires at + 312 <= n <= |w|
    ensures w[at..at + 312] == w[at..][..312] && w[at + 312..n] == w[at..][312..n - at] && w[n..] == w[at..][n - at..]
  {
  }

  lemma {:induction false} RecordsFrom(list: seq<ExportedDevice>, w: seq<u8>, k: nat)
    requires k <= |list| && HoldsFrom(w, 12, list, 0)
    ensures HoldsFrom(w, RecordStart(list, k), list, k)
  {
    if k > 0 {
      RecordsFrom(list, w, k - 1);
      RecordIn(list, w, k - 1, RecordStart(list, k - 1));
    }
  }

  lemma RecordsAfterPreface(list: seq<ExportedDevice>)
    ensures HoldsFrom(ReplyBytes(list), 12, list, 0)
  {
    assert list[0..] == list;
    assert ReplyBytes(list)[12..] == Flat(Records(list));
  }

  /** Record k of a reply: the device structure, then its interfaces, then the next record. */
  lemma RecordAt(list: seq<ExportedDevice>, w: seq<u8>, k: nat)
    requires k < |list| && w == ReplyBytes(list)
    ensures var at, n := RecordStart(list, k), RecordStart(list, k + 1);
      && at + 312 <= n <= |w|
      && w[at..at + 312] == WireDevice(list[k].udev)
      && w[at + 312..n] == InterfaceBytes(list[k].Interfaces())
  {
    RecordsAfterPreface(list);
    RecordsFrom(list, w, k);
    RecordIn(list, w, k, RecordStart(list, k));
  }

  /** Each interface is four bytes: class, subclass, protocol and padding. */
  lemma {:induction false} InterfaceAt(uinf: seq<UsbInterface>, j: nat)
    requires j < |uinf|
    ensures InterfaceBytes(uinf)[4 * j..4 * j + 4] ==
            [uinf[j].bInterfaceClass, uinf[j].bInterfaceSubClass, uinf[j].bInterfaceProtocol, uinf[j].padding]
  {
    var w := InterfaceBytes(uinf);
    if j > 0 {
      InterfaceAt(uinf[1..], j - 1);
      assert w[4..] == InterfaceBytes(uinf[1..]);
      assert w[4..][4 * (j - 1)..4 * j] == w[4 * j..4 * j + 4];
    }
  }

  /** A reply starts with code 5, status 0 and the number of records, most significant byte first. */
  lemma ReplyStart(list: seq<ExportedDevice>)
    ensures var w := ReplyBytes(list);
      && |w| >= 12 && w[..8] == [0x01, 0x11, 0, 5, 0, 0, 0, 0]
      && (|list| < 0x1_0000_0000 ==> w[8..12] == Bytes32(Big, |list|))
  {
    HeaderBytes(0, 5, 0);
    var w := ReplyBytes(list);
    var c := Wrapped(|list|);
    assert w[..12] == Preface(c);
    assert w[..8] == Preface(c)[..8] && w[8..12] == Preface(c)[8..12];
  }
}
