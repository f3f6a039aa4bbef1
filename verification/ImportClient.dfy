/** The client's side of an import exchange as it runs: query_import_device of usbip_attach.c. */
module ImportClient {
  import opened Wrappers
  import opened Words
  import opened WireCodec
  import opened Transfer
  import opened Devlist
  import opened ExportDecision
  import opened RequestHandler
  import opened ImportExchange
  import opened ServerReplies

  /** The device import_device is called with, if any, and what is left of the stream. */
  function QueryResult(w: seq<u8>, busid: seq<u8>): (Option<UsbDevice>, seq<u8>)
    requires |w| >= HEADER_SIZE
  {
    if Verdict(DecodeHeader(w[..HEADER_SIZE]), OP_REP_IMPORT).0 == None then (None, w[HEADER_SIZE..])
    else if |w| < HEADER_SIZE + DEVICE_SIZE then (None, w[HEADER_SIZE..])
    else
      var d := DecodeDevice(w[HEADER_SIZE..HEADER_SIZE + DEVICE_SIZE]);
      (if StrncmpEqual(d.busid, busid, SYSFS_BUS_ID_SIZE) then Some(d) else None, w[HEADER_SIZE + DEVICE_SIZE..])
  }

  /** A grant whose record is not there in full. */
  predicate CutShort(w: seq<u8>)
    requires |w| >= HEADER_SIZE
  {
    Verdict(DecodeHeader(w[..HEADER_SIZE]), OP_REP_IMPORT).0 != None && |w| < HEADER_SIZE + DEVICE_SIZE
  }

  /** The sending half: header, then request. */
  method SendQuery(s: Socket, host: Endian, busid: seq<u8>) returns (rc: int)
    modifies s`turn, s`outgoing
    ensures rc == 0 || rc == -1
    ensures Sent(old(s.outgoing), s.outgoing, Request(busid), rc == 0)
    ensures AllTurnsMove(s.turns) ==> rc == 0
  {
    ghost var s0 := s.outgoing;
    var rc1 := SendOpCommon(s, host, OP_REQ_IMPORT, 0);
    ghost var s1 := s.outgoing;
    rc := -1;
    if rc1 == 0 {
      var n := Send(s, RequestBusid(busid));
      rc := if n < 0 then -1 else 0;
    }
    ghost var header := WireHeader(OpCommon(USBIP_VERSION, OP_REQ_IMPORT, 0));
    SentThen(s0, s1, s.outgoing, header, RequestBusid(busid), rc1 == 0, rc == 0);
  }

  /** Receive a device record and unpack it. */
  method RecvDevice(s: Socket, host: Endian) returns (r: Option<UsbDevice>)
    modifies s`turn, s`incoming
    ensures r.Some? ==>
              && |old(s.incoming)| >= DEVICE_SIZE && s.incoming == old(s.incoming)[DEVICE_SIZE..]
              && r.value == DecodeDevice(old(s.incoming)[..DEVICE_SIZE])
    ensures AllTurnsMove(s.turns) && |old(s.incoming)| >= DEVICE_SIZE ==> r.Some?
  {
    var ok, block := RecvBlock(s, DEVICE_SIZE);
    if !ok {
      return None;
    }
    assert block == old(s.incoming)[..DEVICE_SIZE];
    var reply := new DeviceBuffer(host, FromMemory(host, block));
    UnpacksAnyBlock(host, block);
    reply.PackUsbDevice(false);
    return Some(reply.Value());
  }

  /** query_import_device up to the call of import_device. */
  method QueryImportDevice(s: Socket, host: Endian, busid: seq<u8>) returns (r: Option<UsbDevice>)
    modifies s`turn, s`outgoing, s`incoming
    ensures AllTurnsMove(s.turns) ==> s.outgoing == old(s.outgoing) + Request(busid)
    ensures r.Some? ==>
              && |old(s.incoming)| >= HEADER_SIZE + DEVICE_SIZE
              && (r, s.incoming) == QueryResult(old(s.incoming), busid)
    ensures AllTurnsMove(s.turns) && |old(s.incoming)| >= HEADER_SIZE ==>
              r == QueryResult(old(s.incoming), busid).0
    ensures AllTurnsMove(s.turns) && |old(s.incoming)| >= HEADER_SIZE && !CutShort(old(s.incoming)) ==>
              s.incoming == QueryResult(old(s.incoming), busid).1
  {
    var rc := SendQuery(s, host, busid);
    if rc < 0 {
      return None;
    }
    var code, status := RecvOpCommon(s, host, OP_REP_IMPORT);
    if code == None {
      return None;
    }
    ghost var w := s.incoming;
    var reply := RecvDevice(s, host);
    if reply == None {
      return None;
    }
    assert old(s.incoming)[HEADER_SIZE..][..DEVICE_SIZE] == old(s.incoming)[HEADER_SIZE..HEADER_SIZE + DEVICE_SIZE];
    assert w[DEVICE_SIZE..] == old(s.incoming)[HEADER_SIZE + DEVICE_SIZE..];
    if !StrncmpEqual(reply.value.busid, busid, SYSFS_BUS_ID_SIZE) {
      return None;
    }
    return reply;
  }

  /** Any 312 bytes are the wire form of the record they unpack to. */
  lemma UnpacksAnyBlock(host: Endian, block: seq<u8>)
    requires |block| == DEVICE_SIZE
    ensures Converted(host, FromMemory(host, block)) == DecodeDevice(block)
  {
    Unpacked32(host, block[0x120..0x124]);
    Unpacked32(host, block[0x124..0x128]);
    Unpacked32(host, block[0x128..0x12C]);
    Unpacked16(host, block[0x12C..0x12E]);
    Unpacked16(host, block[0x12E..0x130]);
    Unpacked16(host, block[0x130..0x132]);
  }

  lemma Unpacked32(host: Endian, b: seq<u8>)
    requires |b| == 4
    ensures Htonl(host, Load32(host, b)) == Load32(Big, b)
  {
    BytesLoad32(host, b);
    BytesLoad32(Big, b);
    NetworkOrder32(host, Load32(Big, b));
    LoadBytes32(host, Htonl(host, Load32(Big, b)));
  }

  lemma Unpacked16(host: Endian, b: seq<u8>)
    requires |b| == 2
    ensures Htons(host, Load16(host, b)) == Load16(Big, b)
  {
    BytesLoad16(host, b);
    BytesLoad16(Big, b);
    NetworkOrder16(host, Load16(Big, b));
    LoadBytes16(host, Htons(host, Load16(Big, b)));
  }

  lemma GrantRead(w: seq<u8>, busid: seq<u8>, d: UsbDevice)
    requires |w| >= 320 && w[..8] == WireHeader(OpCommon(USBIP_VERSION, OP_REP_IMPORT, ST_OK))
    requires w[8..320] == WireDevice(d)
    ensures QueryResult(w, busid) ==
            (if StrncmpEqual(d.busid, busid, SYSFS_BUS_ID_SIZE) then Some(d) else None, w[320..])
  {
    HeaderRoundTrip(Big, Big, OpCommon(USBIP_VERSION, OP_REP_IMPORT, ST_OK));
    UnpackedIsDecoded(Big, d);
  }

  lemma RefusalRead(w: seq<u8>, busid: seq<u8>, st: u32)
    requires |w| >= 8 && st != ST_OK && w[..8] == WireHeader(OpCommon(USBIP_VERSION, OP_REP_IMPORT, st))
    ensures QueryResult(w, busid) == (None, w[8..]) && !CutShort(w)
  {
    HeaderRoundTrip(Big, Big, OpCommon(USBIP_VERSION, OP_REP_IMPORT, st));
  }

  /** On the server's reply the running client ends as the exchange does: same messages, same
      result, nothing left over. */
  lemma QueryFollowsExchange(x: Setting, rest: seq<u8>)
    ensures |Reply(x) + rest| >= HEADER_SIZE && !CutShort(Reply(x) + rest)
    ensures QueryResult(Reply(x) + rest, x.busid) == (Outcome(x), rest)
  {
    var w := Reply(x) + rest;
    ReplyOnTheWire(x);
    assert w[..8] == Reply(x)[..8];
    if Status(x) == ST_OK {
      DeviceOnTheWire(x);
      assert w[8..320] == Reply(x)[8..];
      assert w[320..] == rest;
      GrantRead(w, x.busid, Search(x.devs, RequestBusid(x.busid)).value.udev);
    } else {
      assert w[8..] == rest;
      RefusalRead(w, x.busid, Status(x));
    }
  }

  lemma QuerySplits(busid: seq<u8>)
    ensures var w := Request(busid);
      && |w| == 40 && w[8..] == RequestBusid(busid)
      && DecodeHeader(w[..8]) == OpCommon(USBIP_VERSION, OP_REQ_IMPORT, 0)
  {
    var h := OpCommon(USBIP_VERSION, OP_REQ_IMPORT, 0);
    HeaderRoundTrip(Big, Big, h);
    assert Request(busid)[..8] == WireHeader(h);
  }

  lemma ImportAnswered(req: seq<u8>, devs: seq<ExportedDevice>, accepted: bool)
    requires |req| == 32
    ensures Answer(OpCommon(USBIP_VERSION, OP_REQ_IMPORT, 0), req, devs, accepted) == ImportReply(devs, req, accepted)
    ensures Succeeds(OP_REQ_IMPORT, req, devs, accepted) <==> ReplyStatus(devs, req, accepted) == ST_OK
  {
    assert req[..32] == req;
  }

  /** So does the running server on the client's request. */
  lemma HandlerFollowsExchange(x: Setting)
    ensures var w := Request(x.busid);
      && |w| == 40
      && Answer(DecodeHeader(w[..8]), w[8..], x.devs, x.accepted) == Reply(x)
      && (Succeeds(OP_REQ_IMPORT, w[8..], x.devs, x.accepted) <==> Status(x) == ST_OK)
  {
    QuerySplits(x.busid);
    ImportAnswered(RequestBusid(x.busid), x.devs, x.accepted);
  }

  // ----- The messages as bytes -----

  /** A request is 40 bytes: a header with code 0x8003 and status 0, and the name. */
  lemma RequestBytes(busid: seq<u8>)
    ensures Request(busid) == [0x01, 0x11, 0x80, 0x03, 0, 0, 0, 0] + RequestBusid(busid)
    ensures |busid| <= 31 ==> RequestBusid(busid) == busid + seq(32 - |busid|, _ => 0)
    ensures |busid| > 31 ==> RequestBusid(busid) == busid[..31] + [0]
  {
    HeaderBytes(0x80, 0x03, 0);
  }

  lemma VerdictOnBytes(b: seq<u8>)
    requires |b| == 8
    ensures Verdict(DecodeHeader(b), OP_REP_IMPORT).0.Some? <==> b == [0x01, 0x11, 0, 0x03, 0, 0, 0, 0]
  {
    HeaderFromBytes(b, 0, 3);
  }

  /** A device is imported on one kind of reply only: a header with code 3 and status 0, then the
      whole record of a device of the requested name. */
  lemma QueryTakes(w: seq<u8>, busid: seq<u8>, d: UsbDevice)
    requires |w| >= 8
    ensures QueryResult(w, busid).0 == Some(d) <==>
            && |w| >= 320 && w[..8] == [0x01, 0x11, 0, 0x03, 0, 0, 0, 0] && DecodeDevice(w[8..320]) == d
            && CString(d.busid) == Take(CString(busid), 32)
  {
    VerdictOnBytes(w[..8]);
    assert Take(CString(d.busid), 32) == CString(d.busid);
  }

  /** The device that import_device is called with, told on the devices: the first that bears the
      requested name, if it is available, its path has at most 242 characters, the kernel takes
      the socket and the name fits its field. */
  lemma ImportedWhen(x: Setting, d: UsbDevice)
    requires IsCString(x.busid)
    ensures Outcome(x) == Some(d) <==>
            && |x.busid| <= 31 && x.accepted
            && exists i :: Wanted(x.devs, RequestBusid(x.busid), i) && x.devs[i].udev == d
                           && x.devs[i].status == 1 && |CString(d.path)| <= 242
  {
    var req := RequestBusid(x.busid);
    ImportedDevice(x, d);
    if Search(x.devs, req).Some? {
      FoundIsWanted(x.devs, req);
    }
    forall i | Wanted(x.devs, req, i)
      ensures Search(x.devs, req).Some? && Search(x.devs, req).value == x.devs[i]
      ensures Offers(x.devs, req) <==> x.devs[i].status == 1 && |CString(x.devs[i].udev.path)| <= 242
    {
      SearchWanted(x.devs, req, i);
      StatusOf(x.devs, req, i, x.accepted);
    }
  }
}
