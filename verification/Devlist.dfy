/** The device-list reply: send_reply_devlist of usbipd.c and the OP_REP_DEVLIST layout. */
module Devlist {
  import opened Wrappers
  import opened Words
  import opened WireCodec
  import opened Transfer
  import opened HostDriver

  const USBIP_VERSION: u16 := 0x0111
  const OP_REP_DEVLIST: u16 := 0x0005
  const ST_OK: u32 := 0
  const SDEV_ST_USED := 2

  /** struct usbip_exported_device; its flexible array uinf has bNumInterfaces slots. */
  datatype ExportedDevice = ExportedDevice(status: int, udev: UsbDevice, uinf: nat -> UsbInterface) {
    function Interfaces(): (r: seq<UsbInterface>)
      ensures |r| == udev.bNumInterfaces
    {
      seq(udev.bNumInterfaces, uinf)
    }
  }

  // ----- Records as blocks of bytes -----

  /** A device block and the block of its interfaces. */
  datatype Record = Record(dev: seq<u8>, uinf: seq<u8>) {
    /** Byte 0x137 of the device block is bNumInterfaces. */
    predicate Framed() {
      |dev| == DEVICE_SIZE && |uinf| == INTERFACE_SIZE * dev[0x137]
    }
  }

  predicate AllFramed(rs: seq<Record>) {
    forall i | 0 <= i < |rs| :: rs[i].Framed()
  }

  function Flat(rs: seq<Record>): seq<u8> {
    if rs == [] then [] else rs[0].dev + rs[0].uinf + Flat(rs[1..])
  }

  /** The first n records of a byte string, and what follows them. */
  function Split(w: seq<u8>, n: nat): Option<(seq<Record>, seq<u8>)>
    decreases n
  {
    if n == 0 then Some(([], w))
    else if |w| < DEVICE_SIZE then None
    else
      var end := DEVICE_SIZE + INTERFACE_SIZE * w[0x137];
      if |w| < end then None
      else match Split(w[end..], n - 1)
        case None => None
        case Some((rs, rest)) => Some(([Record(w[..DEVICE_SIZE], w[DEVICE_SIZE..end])] + rs, rest))
  }

  lemma FirstRecordSplits(r: Record, more: seq<u8>, n: nat)
    requires r.Framed() && n > 0
    ensures Split(r.dev + r.uinf + more, n) ==
            match Split(more, n - 1)
            case None => None
            case Some((rs, rest)) => Some(([r] + rs, rest))
  {
    var w := r.dev + r.uinf + more;
    var end := DEVICE_SIZE + |r.uinf|;
    assert w[0x137] == r.dev[0x137];
    assert w[..DEVICE_SIZE] == r.dev && w[DEVICE_SIZE..end] == r.uinf && w[end..] == more;
  }

  /** The first n records are found again, the others are left over. */
  lemma {:induction false} FlatSplits(rs: seq<Record>, n: nat)
    requires AllFramed(rs) && n <= |rs|
    ensures Split(Flat(rs), n) == Some((rs[..n], Flat(rs[n..])))
    decreases n
  {
    if n > 0 {
      FirstRecordSplits(rs[0], Flat(rs[1..]), n);
      FlatSplits(rs[1..], n - 1);
      assert [rs[0]] + rs[1..][..n - 1] == rs[..n] && rs[1..][n - 1..] == rs[n..];
    } else {
      assert rs[n..] == rs && rs[..n] == [];
    }
  }

  lemma {:induction false} FlatLength(rs: seq<Record>)
    requires AllFramed(rs)
    ensures |Flat(rs)| >= 312 * |rs|
  {
    if rs != [] {
      FlatLength(rs[1..]);
    }
  }

  // ----- Devices as records, and back -----

  datatype Listed = Listed(udev: UsbDevice, uinf: seq<UsbInterface>)

  function InterfaceBytes(uinf: seq<UsbInterface>): (w: seq<u8>)
    ensures |w| == INTERFACE_SIZE * |uinf|
  {
    if uinf == [] then [] else WireInterface(uinf[0]) + InterfaceBytes(uinf[1..])
  }

  function DecodeInterfaces(w: seq<u8>): seq<UsbInterface> {
    if |w| < INTERFACE_SIZE then []
    else [DecodeInterface(w[..INTERFACE_SIZE])] + DecodeInterfaces(w[INTERFACE_SIZE..])
  }

  lemma {:induction false} InterfacesReadBack(uinf: seq<UsbInterface>)
    ensures DecodeInterfaces(InterfaceBytes(uinf)) == uinf
  {
    if uinf != [] {
      var w := InterfaceBytes(uinf);
      assert w[..INTERFACE_SIZE] == WireInterface(uinf[0]);
      assert w[INTERFACE_SIZE..] == InterfaceBytes(uinf[1..]);
      InterfacesReadBack(uinf[1..]);
    }
  }

  function RecordOf(d: ExportedDevice): Record {
    Record(WireDevice(d.udev), InterfaceBytes(d.Interfaces()))
  }

  function DecodeRecord(r: Record): Listed
    requires r.Framed()
  {
    Listed(DecodeDevice(r.dev), DecodeInterfaces(r.uinf))
  }

  lemma RecordReadsBack(d: ExportedDevice)
    ensures RecordOf(d).Framed() && DecodeRecord(RecordOf(d)) == Listed(d.udev, d.Interfaces())
  {
    UnpackedIsDecoded(Big, d.udev);
    InterfacesReadBack(d.Interfaces());
  }

  function Records(devs: seq<ExportedDevice>): (rs: seq<Record>)
    ensures |rs| == |devs|
  {
    if devs == [] then [] else [RecordOf(devs[0])] + Records(devs[1..])
  }

  function DecodeAll(rs: seq<Record>): seq<Listed>
    requires AllFramed(rs)
  {
    if rs == [] then [] else [DecodeRecord(rs[0])] + DecodeAll(rs[1..])
  }

  function AsListed(devs: seq<ExportedDevice>): (r: seq<Listed>)
    ensures |r| == |devs|
  {
    if devs == [] then [] else [Listed(devs[0].udev, devs[0].Interfaces())] + AsListed(devs[1..])
  }

  lemma {:induction false} RecordsReadBack(devs: seq<ExportedDevice>)
    ensures AllFramed(Records(devs)) && DecodeAll(Records(devs)) == AsListed(devs)
  {
    if devs != [] {
      RecordReadsBack(devs[0]);
      RecordsReadBack(devs[1..]);
      assert Records(devs)[1..] == Records(devs[1..]);
    }
  }

  // ----- The reply -----

  /** The devices no client holds, in list order. */
  function Exportable(devs: seq<ExportedDevice>): (r: seq<ExportedDevice>)
    ensures |r| <= |devs|
  {
    if devs == [] then []
    else (if devs[0].status != SDEV_ST_USED then [devs[0]] else []) + Exportable(devs[1..])
  }

  /** A count kept in 32 bits. */
  function Wrapped(n: nat): (c: u32)
    ensures c <= n && (c == n <==> n < 0x1_0000_0000)
  {
    if n < 0x1_0000_0000 then n else Wrapped(n - 0x1_0000_0000)
  }

  /** A 32-bit counter after one more. */
  function Incremented(c: u32): u32 {
    if c == 0xFFFF_FFFF then 0 else c + 1
  }

  lemma {:induction false} WrappedNext(n: nat)
    ensures Wrapped(n + 1) == Incremented(Wrapped(n))
  {
    if n >= 0x1_0000_0000 {
      WrappedNext(n - 0x1_0000_0000);
    }
  }

  function Preface(c: u32): (w: seq<u8>)
    ensures |w| == 12
  {
    WireHeader(OpCommon(USBIP_VERSION, OP_REP_DEVLIST, ST_OK)) + Bytes32(Big, c)
  }

  function ReplyBytes(list: seq<ExportedDevice>): seq<u8> {
    Preface(Wrapped(|list|)) + Flat(Records(list))
  }

  /** The OP_REP_DEVLIST layout, nothing left over. */
  function ParseReply(w: seq<u8>): Option<seq<Listed>> {
    if |w| < 12 || DecodeHeader(w[..8]) != OpCommon(USBIP_VERSION, OP_REP_DEVLIST, ST_OK) then None
    else
      var p := Split(w[12..], Load32(Big, w[8..12]));
      if p.Some? && p.value.1 == [] && AllFramed(p.value.0) then Some(DecodeAll(p.value.0)) else None
  }

  lemma PrefaceParses(c: u32, body: seq<u8>, rs: seq<Record>, rest: seq<u8>)
    requires Split(body, c) == Some((rs, rest)) && AllFramed(rs)
    ensures ParseReply(Preface(c) + body) == if rest == [] then Some(DecodeAll(rs)) else None
  {
    var h := OpCommon(USBIP_VERSION, OP_REP_DEVLIST, ST_OK);
    var w := Preface(c) + body;
    assert w[..8] == WireHeader(h);
    assert w[8..12] == Bytes32(Big, c);
    assert w[12..] == body;
    HeaderRoundTrip(Big, Big, h);
    LoadBytes32(Big, c);
  }

  /** A count smaller than the number of records leaves bytes over. */
  lemma FramedReply(c: u32, rs: seq<Record>)
    requires AllFramed(rs) && c <= |rs|
    ensures ParseReply(Preface(c) + Flat(rs)) == if c == |rs| then Some(DecodeAll(rs)) else None
  {
    FlatSplits(rs, c);
    FlatLength(rs[c..]);
    if c == |rs| {
      assert rs[..c] == rs && rs[c..] == [];
    }
    PrefaceParses(c, Flat(rs), rs[..c], Flat(rs[c..]));
  }

  /** The reply for a list decodes to exactly the devices of the list, in order, with nothing
      left over; the 32-bit count is the one limit. */
  lemma ReplyDecodes(list: seq<ExportedDevice>)
    ensures ParseReply(ReplyBytes(list)) == Some(AsListed(list)) <==> |list| < 0x1_0000_0000
  {
    RecordsReadBack(list);
    FramedReply(Wrapped(|list|), Records(list));
  }

  function TotalInterfaces(devs: seq<ExportedDevice>): nat {
    if devs == [] then 0 else devs[0].udev.bNumInterfaces + TotalInterfaces(devs[1..])
  }

  lemma {:induction false} ReplyLength(list: seq<ExportedDevice>)
    ensures |Flat(Records(list))| == 312 * |list| + 4 * TotalInterfaces(list)
    ensures |ReplyBytes(list)| == 12 + 312 * |list| + 4 * TotalInterfaces(list)
  {
    if list != [] {
      ReplyLength(list[1..]);
      assert Records(list)[1..] == Records(list[1..]);
    }
  }

  // ----- send_reply_devlist -----

  function BytesOf(d: ExportedDevice): seq<u8> {
    RecordOf(d).dev + RecordOf(d).uinf
  }

  /** One structure for each interface. */
  method SendInterfaces(s: Socket, uinf: seq<UsbInterface>) returns (rc: int)
    modifies s`turn, s`outgoing
    ensures rc == 0 || rc == -1
    ensures Sent(old(s.outgoing), s.outgoing, InterfaceBytes(uinf), rc == 0)
    ensures AllTurnsMove(s.turns) ==> rc == 0
  {
    var i := 0;
    while i < |uinf|
      invariant 0 <= i <= |uinf|
      invariant old(s.outgoing) <= s.outgoing
      invariant s.outgoing + InterfaceBytes(uinf[i..]) == old(s.outgoing) + InterfaceBytes(uinf)
    {
      ghost var before := s.outgoing;
      var n := Send(s, WireInterface(uinf[i]));
      assert uinf[i..][1..] == uinf[i + 1..];
      assert before + InterfaceBytes(uinf[i..]) == before + WireInterface(uinf[i]) + InterfaceBytes(uinf[i + 1..]);
      if n < 0 {
        return -1;
      }
      i := i + 1;
    }
    return 0;
  }

  /** The device structure, then its interfaces. */
  method SendRecord(s: Socket, host: Endian, edev: ExportedDevice) returns (rc: int)
    modifies s`turn, s`outgoing
    ensures rc == 0 || rc == -1
    ensures Sent(old(s.outgoing), s.outgoing, BytesOf(edev), rc == 0)
    ensures AllTurnsMove(s.turns) ==> rc == 0
  {
    var pdu := new DeviceBuffer(host, edev.udev);
    pdu.PackUsbDevice(true);
    ghost var before := s.outgoing;
    var n := Send(s, Memory(host, pdu.Value()));
    ghost var middle := s.outgoing;
    rc := -1;
    if n >= 0 {
      rc := SendInterfaces(s, edev.Interfaces());
    }
    SentThen(before, middle, s.outgoing, WireDevice(edev.udev), InterfaceBytes(edev.Interfaces()), n >= 0, rc == 0);
  }

  /** usbip_net_send_op_common */
  method SendOpCommon(s: Socket, host: Endian, code: u16, status: u32) returns (rc: int)
    modifies s`turn, s`outgoing
    ensures rc == 0 || rc == -1
    ensures Sent(old(s.outgoing), s.outgoing, WireHeader(OpCommon(USBIP_VERSION, code, status)), rc == 0)
    ensures AllTurnsMove(s.turns) ==> rc == 0
  {
    PackedHeaderIsWire(host, OpCommon(USBIP_VERSION, code, status));
    var version := PackUint16(host, true, USBIP_VERSION);
    var code' := PackUint16(host, true, code);
    var status' := PackUint32(host, true, status);
    var n := Send(s, HeaderMemory(host, OpCommon(version, code', status')));
    rc := if n < 0 then -1 else 0;
  }

  /** What one device contributes to the reply. */
  function ContributedBytes(d: ExportedDevice): seq<u8> {
    if d.status == SDEV_ST_USED then [] else BytesOf(d)
  }

  /** How many of the first k devices are exportable. */
  function CountUpTo(devs: seq<ExportedDevice>, k: nat): nat
    requires k <= |devs|
  {
    if k == 0 then 0 else CountUpTo(devs, k - 1) + if devs[k - 1].status == SDEV_ST_USED then 0 else 1
  }

  /** What the devices from position k on contribute. */
  function BytesFrom(devs: seq<ExportedDevice>, k: nat): seq<u8>
    requires k <= |devs|
    decreases |devs| - k
  {
    if k == |devs| then [] else ContributedBytes(devs[k]) + BytesFrom(devs, k + 1)
  }

  /** Both walks select the exportable devices: the count is the number of records sent. */
  lemma {:induction false} SendingWalk(devs: seq<ExportedDevice>, k: nat)
    requires k <= |devs|
    ensures BytesFrom(devs, k) == Flat(Records(Exportable(devs[k..])))
    decreases |devs| - k
  {
    if k < |devs| {
      SendingWalk(devs, k + 1);
      assert devs[k..][1..] == devs[k + 1..];
      var more := Exportable(devs[k + 1..]);
      if devs[k].status == SDEV_ST_USED {
        assert [] + more == more;
        assert [] + BytesFrom(devs, k + 1) == BytesFrom(devs, k + 1);
      } else {
        FlatFirst(devs[k], more);
      }
    }
  }

  lemma {:induction false} CountingWalk(devs: seq<ExportedDevice>, k: nat)
    requires k <= |devs|
    ensures CountUpTo(devs, k) + |Exportable(devs[k..])| == CountUpTo(devs, |devs|)
    decreases |devs| - k
  {
    if k < |devs| {
      CountingWalk(devs, k + 1);
      assert devs[k..][1..] == devs[k + 1..];
    }
  }

  lemma FlatFirst(d: ExportedDevice, more: seq<ExportedDevice>)
    ensures Flat(Records([d] + more)) == BytesOf(d) + Flat(Records(more))
  {
    assert ([d] + more)[1..] == more;
    assert Records([d] + more)[1..] == Records(more);
  }

  /** The body of the counting walk. */
  method CountUnlessUsed(edev: ExportedDevice, ndev: u32, ghost devs: seq<ExportedDevice>, ghost k: nat)
    returns (ndev': u32)
    requires k < |devs| && edev == devs[k] && ndev == Wrapped(CountUpTo(devs, k))
    ensures ndev' == Wrapped(CountUpTo(devs, k + 1))
  {
    ndev' := ndev;
    if edev.status != SDEV_ST_USED {
      WrappedNext(CountUpTo(devs, k));
      ndev' := Incremented(ndev);
    }
  }

  /** The counting walk over the device list. */
  method CountExportable(driver: Driver<ExportedDevice>) returns (ndev: u32)
    requires driver.Valid()
    ensures ndev == Wrapped(|Exportable(driver.Devices())|)
  {
    ndev := 0;
    ghost var devs := driver.Devices();
    var j := driver.Begin();
    ghost var k := 0;
    while j != driver.edev_list
      invariant driver.StandsAt(j, k)
      invariant ndev == Wrapped(CountUpTo(devs, k))
      decreases |devs| - k
    {
      var edev, next := driver.Step(j, k);
      ndev := CountUnlessUsed(edev, ndev, devs, k);
      j, k := next, k + 1;
    }
    CountingWalk(devs, 0);
    assert devs[0..] == devs;
  }

  /** The body of the sending walk; more is what the devices after edev contribute. */
  method SendUnlessUsed(s: Socket, host: Endian, edev: ExportedDevice, ghost more: seq<u8>) returns (rc: int)
    modifies s`turn, s`outgoing
    ensures rc == 0 || rc == -1
    ensures old(s.outgoing) <= s.outgoing
    ensures rc == 0 ==> s.outgoing + more == old(s.outgoing) + (ContributedBytes(edev) + more)
    ensures rc == -1 ==> s.outgoing <= old(s.outgoing) + (ContributedBytes(edev) + more)
    ensures AllTurnsMove(s.turns) ==> rc == 0
  {
    ghost var before, piece := s.outgoing, ContributedBytes(edev);
    assert before + (piece + more) == before + piece + more;
    if edev.status == SDEV_ST_USED {
      return 0;
    }
    rc := SendRecord(s, host, edev);
  }

  /** The sending walk over the device list. */
  method SendRecords(driver: Driver<ExportedDevice>, s: Socket, host: Endian) returns (rc: int)
    requires driver.Valid()
    modifies s`turn, s`outgoing
    ensures rc == 0 || rc == -1
    ensures Sent(old(s.outgoing), s.outgoing, BytesFrom(driver.Devices(), 0), rc == 0)
    ensures AllTurnsMove(s.turns) ==> rc == 0
  {
    ghost var devs := driver.Devices();
    ghost var all := s.outgoing + BytesFrom(devs, 0);
    var j := driver.Begin();
    ghost var k := 0;
    while j != driver.edev_list
      invariant driver.StandsAt(j, k)
      invariant old(s.outgoing) <= s.outgoing
      invariant s.outgoing + BytesFrom(devs, k) == all
      decreases |devs| - k
    {
      var edev, next := driver.Step(j, k);
      ghost var more := BytesFrom(devs, k + 1);
      assert BytesFrom(devs, k) == ContributedBytes(edev) + more;
      rc := SendUnlessUsed(s, host, edev, more);
      if rc < 0 {
        return -1;
      }
      j, k := next, k + 1;
    }
    return 0;
  }

  /** send_reply_devlist: on success the bytes written are the reply for the current list,
      and on failure a prefix of it. */
  method SendReplyDevlist(driver: Driver<ExportedDevice>, s: Socket, host: Endian) returns (rc: int)
    requires driver.Valid()
    modifies s`turn, s`outgoing
    ensures rc == 0 || rc == -1
    ensures Sent(old(s.outgoing), s.outgoing, ReplyBytes(Exportable(driver.Devices())), rc == 0)
    ensures AllTurnsMove(s.turns) ==> rc == 0
  {
    ghost var list := Exportable(driver.Devices());
    SendingWalk(driver.Devices(), 0);
    assert driver.Devices()[0..] == driver.Devices();
    var ndev := CountExportable(driver);
    ghost var s0 := s.outgoing;
    ghost var h := WireHeader(OpCommon(USBIP_VERSION, OP_REP_DEVLIST, ST_OK));
    var rc1 := SendOpCommon(s, host, OP_REP_DEVLIST, ST_OK);
    ghost var s1 := s.outgoing;
    var rc2 := -1;
    if rc1 == 0 {
      var reply := PackUint32(host, true, ndev);
      var n := Send(s, Bytes32(host, reply));
      rc2 := if n < 0 then -1 else 0;
    }
    ghost var s2 := s.outgoing;
    SentThen(s0, s1, s2, h, Bytes32(Big, ndev), rc1 == 0, rc2 == 0);
    rc := -1;
    if rc2 == 0 {
      rc := SendRecords(driver, s, host);
    }
    SentThen(s0, s2, s.outgoing, Preface(Wrapped(|list|)), Flat(Records(list)), rc2 == 0, rc == 0);
  }
}
