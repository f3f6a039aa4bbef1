/** The server's handlers: recv_request_import, recv_request_devlist and recv_pdu of usbipd.c. */
module RequestHandler {
  import opened Wrappers
  import opened Words
  import opened WireCodec
  import opened Transfer
  import opened HostDriver
  import opened Devlist
  import opened ExportDecision

  const OP_UNSPEC: u16 := 0
  const ST_ERROR: u32 := 5
  const OP_REQ_DEVLIST: u16 := 0x8005
  const OP_REQ_IMPORT: u16 := 0x8003
  const OP_REP_IMPORT: u16 := 0x0003

  /** The bytes of the answer to an import request. */
  function ImportReply(devs: seq<ExportedDevice>, req: seq<u8>, accepted: bool): seq<u8> {
    var st := ReplyStatus(devs, req, accepted);
    WireHeader(OpCommon(USBIP_VERSION, OP_REP_IMPORT, st)) +
    if st == ST_OK then WireDevice(Search(devs, req).value.udev) else []
  }

  /** The search loop of recv_request_import. */
  method FindRequested(driver: Driver<ExportedDevice>, req: seq<u8>) returns (found: Option<ExportedDevice>)
    requires driver.Valid()
    ensures found == Search(driver.Devices(), req)
  {
    ghost var devs := driver.Devices();
    var i := driver.Begin();
    ghost var k := 0;
    assert devs[0..] == devs;
    while i != driver.edev_list
      invariant driver.StandsAt(i, k)
      invariant Search(devs[k..], req) == Search(devs, req)
      decreases |devs| - k
    {
      assert devs[k..][1..] == devs[k + 1..];
      var edev, next := driver.Step(i, k);
      if StrncmpEqual(req, edev.udev.busid, SYSFS_BUS_ID_SIZE) {
        return Some(edev);
      }
      i, k := next, k + 1;
    }
    return None;
  }

  /** Receive a block of n bytes. */
  method RecvBlock(s: Socket, n: nat) returns (ok: bool, block: seq<u8>)
    modifies s`turn, s`incoming
    ensures ok ==> |block| == n && old(s.incoming) == block + s.incoming
    ensures AllTurnsMove(s.turns) && |old(s.incoming)| >= n ==> ok
  {
    var buff := new u8[n](_ => 0);
    var total := Recv(s, buff);
    ok, block := total >= 0, buff[..];
  }

  /** The reply with this status: the record follows on success only. */
  function StatusReply(st: u32, udev: UsbDevice): seq<u8> {
    WireHeader(OpCommon(USBIP_VERSION, OP_REP_IMPORT, st)) + if st == ST_OK then WireDevice(udev) else []
  }

  /** The sending half of recv_request_import. */
  method SendImportReply(s: Socket, host: Endian, st: u32, udev: UsbDevice) returns (rc: int)
    modifies s`turn, s`outgoing
    ensures rc == 0 || rc == -1
    ensures rc == 0 ==> st == ST_OK
    ensures Sent(old(s.outgoing), s.outgoing, StatusReply(st, udev), rc == 0)
    ensures AllTurnsMove(s.turns) ==>
              s.outgoing == old(s.outgoing) + StatusReply(st, udev) && (rc == 0 <==> st == ST_OK)
  {
    ghost var header := WireHeader(OpCommon(USBIP_VERSION, OP_REP_IMPORT, st));
    ghost var s0 := s.outgoing;
    var rc1 := SendOpCommon(s, host, OP_REP_IMPORT, st);
    ghost var s1 := s.outgoing;
    if rc1 < 0 || st != ST_OK {
      assert s0 + StatusReply(st, udev) == s0 + header + if st == ST_OK then WireDevice(udev) else [];
      return -1;
    }
    var pdu := new DeviceBuffer(host, udev);
    pdu.PackUsbDevice(true);
    var n := Send(s, Memory(host, pdu.Value()));
    rc := if n < 0 then -1 else 0;
    SentThen(s0, s1, s.outgoing, header, WireDevice(udev), true, rc == 0);
  }

  /** recv_request_import once the request is there. */
  method AnswerImport(driver: Driver<ExportedDevice>, s: Socket, host: Endian, req: seq<u8>, accepted: bool)
    returns (rc: int)
    requires driver.Valid()
    modifies s`turn, s`outgoing
    ensures rc == 0 || rc == -1
    ensures Sent(old(s.outgoing), s.outgoing, ImportReply(driver.Devices(), req, accepted), rc == 0)
    ensures AllTurnsMove(s.turns) ==>
              && s.outgoing == old(s.outgoing) + ImportReply(driver.Devices(), req, accepted)
              && (rc == 0 <==> ReplyStatus(driver.Devices(), req, accepted) == ST_OK)
  {
    var found := FindRequested(driver, req);
    var st: u32 := ST_NODEV;
    var udev := Zero();
    if found.Some? {
      udev := found.value.udev;
      var ret := ExportDevice(found.value, accepted);
      st := if ret == None then ST_NA else ret.value;
    }
    assert StatusReply(st, udev) == ImportReply(driver.Devices(), req, accepted);
    rc := SendImportReply(s, host, st, udev);
  }

  /** recv_request_import, for a kernel that answers the attribute write with accepted. */
  method RecvRequestImport(driver: Driver<ExportedDevice>, s: Socket, host: Endian, accepted: bool) returns (rc: int)
    requires driver.Valid()
    modifies s`turn, s`incoming, s`outgoing
    ensures rc == 0 || rc == -1
    ensures AllTurnsMove(s.turns) && |old(s.incoming)| >= 32 ==>
              var req := old(s.incoming)[..32];
              && s.incoming == old(s.incoming)[32..]
              && s.outgoing == old(s.outgoing) + ImportReply(driver.Devices(), req, accepted)
              && (rc == 0 <==> ReplyStatus(driver.Devices(), req, accepted) == ST_OK)
    ensures |old(s.incoming)| >= 32 ==>
              Sent(old(s.outgoing), s.outgoing, ImportReply(driver.Devices(), old(s.incoming)[..32], accepted), rc == 0)
    ensures |old(s.incoming)| < 32 ==> rc == -1 && s.outgoing == old(s.outgoing)
    ensures driver.Valid() && driver.Devices() == old(driver.Devices())
  {
    var ok, req := RecvBlock(s, 32);
    if !ok {
      return -1;
    }
    assert req == old(s.incoming)[..32];
    rc := AnswerImport(driver, s, host, req, accepted);
  }

  /** A record of zeros. */
  function Zero(): UsbDevice {
    UsbDevice(seq(256, _ => 0), seq(32, _ => 0), 0, 0, 0, 0, 0, 0, 0, 0, 0, 0, 0, 0)
  }

  /** What a request is answered with; nothing for any other header, nor for an import request
      that ends too early. */
  function Answer(h: OpCommon, body: seq<u8>, devs: seq<ExportedDevice>, accepted: bool): seq<u8> {
    if h.version != USBIP_VERSION || h.status != ST_OK then [] else AnswerTo(h.code, body, devs, accepted)
  }

  function AnswerTo(code: u16, body: seq<u8>, devs: seq<ExportedDevice>, accepted: bool): seq<u8> {
    if code == OP_REQ_DEVLIST then ReplyBytes(Exportable(devs))
    else if code == OP_REQ_IMPORT && |body| >= 32 then ImportReply(devs, body[..32], accepted)
    else []
  }

  /** The requests that recv_pdu returns 0 for: a device list, and an import that is granted. */
  predicate Succeeds(code: u16, body: seq<u8>, devs: seq<ExportedDevice>, accepted: bool) {
    code == OP_REQ_DEVLIST
    || (code == OP_REQ_IMPORT && |body| >= 32 && ReplyStatus(devs, body[..32], accepted) == ST_OK)
  }

  /** What usbip_net_recv_op_common makes of a header when *code is want: the code, None for its
      error return, and *status, None when it is left unset. */
  function Verdict(h: OpCommon, want: u16): (Option<u16>, Option<u32>) {
    if h.version != USBIP_VERSION then (None, None)
    else if want != OP_UNSPEC && h.code != want then (None, Some(ST_ERROR))
    else if h.status != ST_OK then (None, Some(h.status))
    else (Some(h.code), Some(ST_OK))
  }

  /** usbip_net_recv_op_common */
  method RecvOpCommon(s: Socket, host: Endian, want: u16) returns (code: Option<u16>, status: Option<u32>)
    modifies s`turn, s`incoming
    ensures code.Some? ==> status == Some(ST_OK) && |old(s.incoming)| >= HEADER_SIZE
    ensures status.Some? ==>
              && |old(s.incoming)| >= HEADER_SIZE && s.incoming == old(s.incoming)[HEADER_SIZE..]
              && (code, status) == Verdict(DecodeHeader(old(s.incoming)[..HEADER_SIZE]), want)
    ensures AllTurnsMove(s.turns) && |old(s.incoming)| >= HEADER_SIZE ==>
              && s.incoming == old(s.incoming)[HEADER_SIZE..]
              && (code, status) == Verdict(DecodeHeader(old(s.incoming)[..HEADER_SIZE]), want)
  {
    var ok, block := RecvBlock(s, HEADER_SIZE);
    if !ok {
      return None, None;
    }
    assert block == old(s.incoming)[..HEADER_SIZE];
    var h := ConvertedHeader(host, HeaderFromMemory(host, block));
    HeaderUnpacks(host, block);
    if h.version != USBIP_VERSION {
      return None, None;
    }
    if want != OP_UNSPEC && h.code != want {
      return None, Some(ST_ERROR);
    }
    if h.status != ST_OK {
      return None, Some(h.status);
    }
    return Some(h.code), Some(ST_OK);
  }

  /** The eight bytes received are the wire form of the header they unpack to. */
  lemma HeaderUnpacks(host: Endian, block: seq<u8>)
    requires |block| == HEADER_SIZE
    ensures ConvertedHeader(host, HeaderFromMemory(host, block)) == DecodeHeader(block)
    ensures WireHeader(DecodeHeader(block)) == block
  {
    var h := DecodeHeader(block);
    HeaderLayout(Big, h);
    BytesLoad16(Big, block[0..2]);
    BytesLoad16(Big, block[2..4]);
    BytesLoad32(Big, block[4..]);
    var w := WireHeader(h);
    assert w == w[0..2] + w[2..4] + w[4..];
    assert block == block[0..2] + block[2..4] + block[4..];
    PackedHeaderIsWire(host, h);
    HeaderReadBack(host, ConvertedHeader(host, h));
  }

  /** The switch of recv_pdu. */
  method Dispatch(driver: Driver<ExportedDevice>, s: Socket, host: Endian, code: u16, accepted: bool) returns (ret: int)
    requires driver.Valid()
    modifies s`turn, s`incoming, s`outgoing
    ensures driver.Valid() && driver.Devices() == old(driver.Devices())
    ensures ret == 0 || ret == -1
    ensures Sent(old(s.outgoing), s.outgoing, AnswerTo(code, old(s.incoming), driver.Devices(), accepted), ret == 0)
    ensures AllTurnsMove(s.turns) ==>
              && s.outgoing == old(s.outgoing) + AnswerTo(code, old(s.incoming), driver.Devices(), accepted)
              && (ret == 0 <==> Succeeds(code, old(s.incoming), driver.Devices(), accepted))
  {
    if code == OP_REQ_DEVLIST {
      ret := SendReplyDevlist(driver, s, host);
    } else if code == OP_REQ_IMPORT {
      ret := RecvRequestImport(driver, s, host, accepted);
    } else {
      ret := -1;
    }
  }

  /** recv_pdu: read the header, refresh the device list, dispatch on the code. */
  method RecvPdu(driver: Driver<ExportedDevice>, s: Socket, host: Endian,
                 enumeration: seq<Enumerated<ExportedDevice>>, accepted: bool) returns (ret: int)
    requires driver.Valid()
    modifies s`turn, s`incoming, s`outgoing, driver, driver.edev_list, driver.repr
    ensures driver.Valid()
    ensures ret == 0 || ret == -1
    ensures |old(s.incoming)| >= HEADER_SIZE ==>
              var h, body := DecodeHeader(old(s.incoming)[..HEADER_SIZE]), old(s.incoming)[HEADER_SIZE..];
              var devs := Reversed(Accepted(enumeration));
              && Sent(old(s.outgoing), s.outgoing, Answer(h, body, devs, accepted), ret == 0)
              && (AllTurnsMove(s.turns) ==>
                    && s.outgoing == old(s.outgoing) + Answer(h, body, devs, accepted)
                    && (ret == 0 <==> h.version == USBIP_VERSION && h.status == ST_OK
                                      && Succeeds(h.code, body, devs, accepted)))
    ensures |old(s.incoming)| < HEADER_SIZE ==> ret == -1 && s.outgoing == old(s.outgoing)
  {
    var code, status := RecvOpCommon(s, host, OP_UNSPEC);
    if code == None {
      return -1;
    }
    driver.GenericRefreshDeviceList(enumeration);
    ret := Dispatch(driver, s, host, code.value, accepted);
  }
}
