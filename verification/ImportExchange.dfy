/** One import exchange between query_import_device (usbip_attach.c) and the server's handler
    (usbipd.c) over two byte streams, one step for every piece of bytes that moves. */
module ImportExchange {
  import opened Wrappers
  import opened Words
  import opened WireCodec
  import opened Devlist
  import opened ExportDecision
  import opened RequestHandler

  /** What is fixed for an exchange: the hosts' byte orders, the busid the user asked for, the
      server's device list after its refresh, and the kernel's answer to the socket write. */
  datatype Setting = Setting(client: Endian, server: Endian, busid: seq<u8>,
                             devs: seq<ExportedDevice>, accepted: bool)

  datatype Client =
    | Sending(left: seq<u8>)                  // header, then request
    | AwaitHeader(got: seq<u8>)
    | AwaitDevice(got: seq<u8>)
    | Finished(result: Option<UsbDevice>)     // Some(d): import_device is called with d

  datatype Server =
    | AwaitOpcode(got: seq<u8>)
    | AwaitRequest(got: seq<u8>)
    | Replying(left: seq<u8>)                 // header, then device on success
    | Closed

  datatype State = State(client: Client, server: Server, up: seq<u8>, down: seq<u8>)

  // ----- What the two programs compute -----

  /** strncpy(request.busid, busid, SYSFS_BUS_ID_SIZE - 1) into a zeroed request. */
  function RequestBusid(busid: seq<u8>): (r: seq<u8>)
    ensures |r| == 32
  {
    var s := Take(busid, 31);
    s + seq(32 - |s|, _ => 0)
  }

  function HeaderSentBy(host: Endian, code: u16, status: u32): seq<u8> {
    HeaderMemory(host, ConvertedHeader(host, OpCommon(USBIP_VERSION, code, status)))
  }

  function ClientSends(x: Setting): seq<u8> {
    HeaderSentBy(x.client, OP_REQ_IMPORT, 0) + RequestBusid(x.busid)
  }

  function HeaderReadBy(host: Endian, bytes: seq<u8>): OpCommon
    requires |bytes| == HEADER_SIZE
  {
    ConvertedHeader(host, HeaderFromMemory(host, bytes))
  }

  /** The server after a complete header: usbip_net_recv_op_common, refresh, dispatch. */
  function OpcodeRead(x: Setting, bytes: seq<u8>): Server
    requires |bytes| == HEADER_SIZE
  {
    var h := HeaderReadBy(x.server, bytes);
    if h.version == USBIP_VERSION && h.status == ST_OK && h.code == OP_REQ_IMPORT then AwaitRequest([]) else Closed
  }

  /** The server after a complete request: decide, then send header and, on success, device. */
  function RequestRead(x: Setting, req: seq<u8>): Server
    requires |req| == 32
  {
    var st := ReplyStatus(x.devs, req, x.accepted);
    Replying(HeaderSentBy(x.server, OP_REP_IMPORT, st) +
             if st == ST_OK
             then Memory(x.server, Converted(x.server, Search(x.devs, req).value.udev))
             else [])
  }

  /** The client after a complete reply header. */
  function ReplyHeaderRead(x: Setting, bytes: seq<u8>): Client
    requires |bytes| == HEADER_SIZE
  {
    var h := HeaderReadBy(x.client, bytes);
    if h.version == USBIP_VERSION && h.code == OP_REP_IMPORT && h.status == ST_OK
    then AwaitDevice([]) else Finished(None)
  }

  /** The client after a complete device: unpack, then compare the busid with the one asked for. */
  function DeviceRead(x: Setting, bytes: seq<u8>): Client
    requires |bytes| == DEVICE_SIZE
  {
    var d := Converted(x.client, FromMemory(x.client, bytes));
    if StrncmpEqual(d.busid, x.busid, SYSFS_BUS_ID_SIZE) then Finished(Some(d)) else Finished(None)
  }

  /** The two programs as the machine sees them: what the client sends, and where each side goes
      once it has a complete header, request, reply header or device. */
  datatype Programs = Programs(request: seq<u8>,
                               opcodeRead: seq<u8> -> Server, requestRead: seq<u8> -> Server,
                               replyHeaderRead: seq<u8> -> Client, deviceRead: seq<u8> -> Client)

  function ProgramsOf(x: Setting): Programs {
    Programs(ClientSends(x),
             b => if |b| == HEADER_SIZE then OpcodeRead(x, b) else Closed,
             b => if |b| == 32 then RequestRead(x, b) else Closed,
             b => if |b| == HEADER_SIZE then ReplyHeaderRead(x, b) else Finished(None),
             b => if |b| == DEVICE_SIZE then DeviceRead(x, b) else Finished(None))
  }

  // ----- Steps -----

  function Init(r: Programs): State {
    State(Sending(r.request), AwaitOpcode([]), [], [])
  }

  function ClientSent(left: seq<u8>): Client {
    if left == [] then AwaitHeader([]) else Sending(left)
  }

  function ServerSent(left: seq<u8>): Server {
    if left == [] then Closed else Replying(left)
  }

  predicate ClientSend(s: State, t: State, k: nat) {
    && s.client.Sending? && 0 < k <= |s.client.left|
    && t == s.(client := ClientSent(s.client.left[k..]), up := s.up + s.client.left[..k])
  }

  predicate ServerReadOpcode(r: Programs, s: State, t: State, k: nat) {
    && s.server.AwaitOpcode? && 0 < k <= |s.up| && |s.server.got| + k <= HEADER_SIZE
    && var got := s.server.got + s.up[..k];
       t == s.(server := if |got| == HEADER_SIZE then r.opcodeRead(got) else AwaitOpcode(got), up := s.up[k..])
  }

  predicate ServerReadRequest(r: Programs, s: State, t: State, k: nat) {
    && s.server.AwaitRequest? && 0 < k <= |s.up| && |s.server.got| + k <= 32
    && var got := s.server.got + s.up[..k];
       t == s.(server := if |got| == 32 then r.requestRead(got) else AwaitRequest(got), up := s.up[k..])
  }

  predicate ServerSend(s: State, t: State, k: nat) {
    && s.server.Replying? && 0 < k <= |s.server.left|
    && t == s.(server := ServerSent(s.server.left[k..]), down := s.down + s.server.left[..k])
  }

  predicate ClientReadHeader(r: Programs, s: State, t: State, k: nat) {
    && s.client.AwaitHeader? && 0 < k <= |s.down| && |s.client.got| + k <= HEADER_SIZE
    && var got := s.client.got + s.down[..k];
       t == s.(client := if |got| == HEADER_SIZE then r.replyHeaderRead(got) else AwaitHeader(got), down := s.down[k..])
  }

  predicate ClientReadDevice(r: Programs, s: State, t: State, k: nat) {
    && s.client.AwaitDevice? && 0 < k <= |s.down| && |s.client.got| + k <= DEVICE_SIZE
    && var got := s.client.got + s.down[..k];
       t == s.(client := if |got| == DEVICE_SIZE then r.deviceRead(got) else AwaitDevice(got), down := s.down[k..])
  }

  /** One piece of k bytes moves, where k is anything from 1 to all that can move at once. */
  predicate Next(r: Programs, s: State, t: State, k: nat) {
    || ClientSend(s, t, k)
    || ServerReadOpcode(r, s, t, k)
    || ServerReadRequest(r, s, t, k)
    || ServerSend(s, t, k)
    || ClientReadHeader(r, s, t, k)
    || ClientReadDevice(r, s, t, k)
  }

  predicate Done(s: State) {
    s.client.Finished? && s.server.Closed?
  }

  // ----- The two messages -----

  function Request(busid: seq<u8>): (r: seq<u8>)
    ensures |r| == 40
  {
    WireHeader(OpCommon(USBIP_VERSION, OP_REQ_IMPORT, 0)) + RequestBusid(busid)
  }

  function Reply(x: Setting): (r: seq<u8>)
    ensures |r| == if Status(x) == ST_OK then 320 else 8
  {
    ImportReply(x.devs, RequestBusid(x.busid), x.accepted)
  }

  function Status(x: Setting): u32 {
    ReplyStatus(x.devs, RequestBusid(x.busid), x.accepted)
  }

  /** How the exchange ends. */
  function Outcome(x: Setting): Option<UsbDevice> {
    if Status(x) != ST_OK then None
    else
      var d := Search(x.devs, RequestBusid(x.busid)).value.udev;
      if StrncmpEqual(d.busid, x.busid, SYSFS_BUS_ID_SIZE) then Some(d) else None
  }

  // ----- Invariant: every buffer is a slice of one of the two messages -----

  /** The whole exchange laid out: request, reply, whether the device follows, and the result. */
  datatype Plan = Plan(request: seq<u8>, reply: seq<u8>, ok: bool, outcome: Option<UsbDevice>)

  function PlanOf(x: Setting): Plan {
    Plan(Request(x.busid), Reply(x), Status(x) == ST_OK, Outcome(x))
  }

  /** The two programs follow the plan. */
  ghost predicate Agreed(r: Programs, p: Plan) {
    && |p.request| == 40 && |p.reply| == (if p.ok then 320 else 8)
    && r.request == p.request
    && r.opcodeRead(p.request[..8]) == AwaitRequest([])
    && r.requestRead(p.request[8..]) == Replying(p.reply)
    && r.replyHeaderRead(p.reply[..8]) == (if p.ok then AwaitDevice([]) else Finished(p.outcome))
    && (p.ok ==> r.deviceRead(p.reply[8..]) == Finished(p.outcome))
  }

  function SentUp(s: State): int {
    if s.client.Sending? then 40 - |s.client.left| else 40
  }

  function ReadUp(s: State): int {
    match s.server
    case AwaitOpcode(got) => |got|
    case AwaitRequest(got) => 8 + |got|
    case _ => 40
  }

  function SentDown(p: Plan, s: State): int {
    match s.server
    case Replying(left) => |p.reply| - |left|
    case Closed => |p.reply|
    case _ => 0
  }

  function ReadDown(p: Plan, s: State): int {
    match s.client
    case Sending(_) => 0
    case AwaitHeader(got) => |got|
    case AwaitDevice(got) => 8 + |got|
    case Finished(_) => |p.reply|
  }

  predicate IsSlice(b: seq<u8>, m: seq<u8>, from: int, to: int) {
    0 <= from <= to <= |m| && b == m[from..to]
  }

  ghost predicate ClientInv(p: Plan, s: State) {
    match s.client
    case Sending(left) => left != [] && IsSlice(left, p.request, SentUp(s), 40)
    case AwaitHeader(got) => |got| < 8 && IsSlice(got, p.reply, 0, |got|)
    case AwaitDevice(got) => p.ok && |got| < 312 && IsSlice(got, p.reply, 8, 8 + |got|)
    case Finished(r) => r == p.outcome
  }

  ghost predicate ServerInv(p: Plan, s: State) {
    match s.server
    case AwaitOpcode(got) => |got| < 8 && IsSlice(got, p.request, 0, |got|)
    case AwaitRequest(got) => |got| < 32 && IsSlice(got, p.request, 8, 8 + |got|)
    case Replying(left) => left != [] && IsSlice(left, p.reply, SentDown(p, s), |p.reply|)
    case Closed => true
  }

  ghost predicate Inv(p: Plan, s: State) {
    && |p.request| == 40 && |p.reply| == (if p.ok then 320 else 8)
    && IsSlice(s.up, p.request, ReadUp(s), SentUp(s))
    && IsSlice(s.down, p.reply, ReadDown(p, s), SentDown(p, s))
    && ClientInv(p, s) && ServerInv(p, s)
  }

  lemma PushSlice(b: seq<u8>, left: seq<u8>, m: seq<u8>, from: int, to: int, k: nat)
    requires IsSlice(b, m, from, to) && IsSlice(left, m, to, |m|) && k <= |left|
    ensures IsSlice(b + left[..k], m, from, to + k) && IsSlice(left[k..], m, to + k, |m|)
  {
  }

  lemma PopSlice(got: seq<u8>, b: seq<u8>, m: seq<u8>, start: int, from: int, to: int, k: nat)
    requires IsSlice(got, m, start, from) && IsSlice(b, m, from, to) && k <= |b|
    ensures IsSlice(got + b[..k], m, start, from + k) && IsSlice(b[k..], m, from + k, to)
  {
  }

  /** The messages as the hosts build and read them are the wire messages. */
  lemma RequestOnTheWire(x: Setting)
    ensures ClientSends(x) == Request(x.busid)
    ensures OpcodeRead(x, Request(x.busid)[..8]) == AwaitRequest([])
    ensures Request(x.busid)[8..] == RequestBusid(x.busid)
  {
    var h := OpCommon(USBIP_VERSION, OP_REQ_IMPORT, 0);
    PackedHeaderIsWire(x.client, h);
    HeaderRoundTrip(Big, x.server, h);
    PackedHeaderIsWire(Big, h);
    assert Request(x.busid)[..8] == WireHeader(h);
    assert ConvertedHeader(Big, h) == h;
  }

  lemma ReplyOnTheWire(x: Setting)
    ensures RequestRead(x, RequestBusid(x.busid)) == Replying(Reply(x))
    ensures Reply(x)[..8] == WireHeader(OpCommon(USBIP_VERSION, OP_REP_IMPORT, Status(x)))
    ensures ReplyHeaderRead(x, Reply(x)[..8]) == if Status(x) == ST_OK then AwaitDevice([]) else Finished(Outcome(x))
  {
    var h := OpCommon(USBIP_VERSION, OP_REP_IMPORT, Status(x));
    PackedHeaderIsWire(x.server, h);
    HeaderRoundTrip(Big, x.client, h);
    assert ConvertedHeader(Big, h) == h;
    assert Reply(x)[..8] == WireHeader(h);
    if Status(x) == ST_OK {
      PackedIsWire(x.server, Search(x.devs, RequestBusid(x.busid)).value.udev);
    }
  }

  lemma DeviceOnTheWire(x: Setting)
    requires Status(x) == ST_OK
    ensures Reply(x)[8..] == WireDevice(Search(x.devs, RequestBusid(x.busid)).value.udev)
    ensures DeviceRead(x, Reply(x)[8..]) == Finished(Outcome(x))
  {
    var d := Search(x.devs, RequestBusid(x.busid)).value.udev;
    assert Reply(x)[8..] == WireDevice(d);
    UnpackedIsDecoded(x.client, d);
  }

  lemma PlanIsAgreed(x: Setting)
    ensures Agreed(ProgramsOf(x), PlanOf(x))
  {
    RequestOnTheWire(x);
    ReplyOnTheWire(x);
    if Status(x) == ST_OK {
      DeviceOnTheWire(x);
    }
  }

  // ----- Every step keeps the invariant and moves its bytes for good -----

  /** Bytes still to be sent and to be read. */
  function Remaining(p: Plan, s: State): int {
    (40 - SentUp(s)) + (40 - ReadUp(s)) + (|p.reply| - SentDown(p, s)) + (|p.reply| - ReadDown(p, s))
  }

  ghost predicate Moves(p: Plan, s: State, t: State, k: nat) {
    Inv(p, t) && 0 <= Remaining(p, t) == Remaining(p, s) - k
  }

  lemma ClientSendMoves(p: Plan, s: State, t: State, k: nat)
    requires Inv(p, s) && ClientSend(s, t, k)
    ensures Moves(p, s, t, k)
  {
    PushSlice(s.up, s.client.left, p.request, ReadUp(s), SentUp(s), k);
  }

  lemma ServerSendMoves(p: Plan, s: State, t: State, k: nat)
    requires Inv(p, s) && ServerSend(s, t, k)
    ensures Moves(p, s, t, k)
  {
    PushSlice(s.down, s.server.left, p.reply, ReadDown(p, s), SentDown(p, s), k);
  }

  /** A server read that is not the last of its message. */
  lemma ServerReadsOn(p: Plan, s: State, t: State, k: nat, start: nat, need: nat)
    requires Inv(p, s) && 0 < k <= |s.up| && (s.server.AwaitOpcode? || s.server.AwaitRequest?)
    requires (start, need) == (if s.server.AwaitOpcode? then (0, 8) else (8, 32))
    requires |s.server.got| + k < need
    requires t == s.(server := s.server.(got := s.server.got + s.up[..k]), up := s.up[k..])
    ensures Moves(p, s, t, k)
  {
    PopSlice(s.server.got, s.up, p.request, start, ReadUp(s), SentUp(s), k);
  }

  /** The server read that completes a message. */
  lemma ServerReadsLast(p: Plan, s: State, t: State, k: nat)
    requires Inv(p, s) && 0 < k <= |s.up| && (s.server.AwaitOpcode? || s.server.AwaitRequest?)
    requires |s.server.got| + k == if s.server.AwaitOpcode? then 8 else 32
    requires t == s.(server := if s.server.AwaitOpcode? then AwaitRequest([]) else Replying(p.reply), up := s.up[k..])
    ensures Moves(p, s, t, k)
  {
  }

  lemma ServerReadOpcodeMoves(r: Programs, p: Plan, s: State, t: State, k: nat)
    requires Agreed(r, p) && Inv(p, s) && ServerReadOpcode(r, s, t, k)
    ensures Moves(p, s, t, k)
  {
    if |s.server.got| + k < 8 {
      ServerReadsOn(p, s, t, k, 0, 8);
    } else {
      PopSlice(s.server.got, s.up, p.request, 0, ReadUp(s), SentUp(s), k);
      assert s.server.got + s.up[..k] == p.request[..8];
      ServerReadsLast(p, s, t, k);
    }
  }

  lemma ServerReadRequestMoves(r: Programs, p: Plan, s: State, t: State, k: nat)
    requires Agreed(r, p) && Inv(p, s) && ServerReadRequest(r, s, t, k)
    ensures Moves(p, s, t, k)
  {
    if |s.server.got| + k < 32 {
      ServerReadsOn(p, s, t, k, 8, 32);
    } else {
      PopSlice(s.server.got, s.up, p.request, 8, ReadUp(s), SentUp(s), k);
      assert s.server.got + s.up[..k] == p.request[8..];
      ServerReadsLast(p, s, t, k);
    }
  }

  /** A client read that is not the last of its message. */
  lemma ClientReadsOn(p: Plan, s: State, t: State, k: nat, start: nat, need: nat)
    requires Inv(p, s) && 0 < k <= |s.down| && (s.client.AwaitHeader? || s.client.AwaitDevice?)
    requires (start, need) == (if s.client.AwaitHeader? then (0, 8) else (8, 312))
    requires |s.client.got| + k < need
    requires t == s.(client := s.client.(got := s.client.got + s.down[..k]), down := s.down[k..])
    ensures Moves(p, s, t, k)
  {
    PopSlice(s.client.got, s.down, p.reply, start, ReadDown(p, s), SentDown(p, s), k);
  }

  /** The client read that completes a message. */
  lemma ClientReadsLast(p: Plan, s: State, t: State, k: nat)
    requires Inv(p, s) && 0 < k <= |s.down| && (s.client.AwaitHeader? || s.client.AwaitDevice?)
    requires |s.client.got| + k == if s.client.AwaitHeader? then 8 else 312
    requires t == s.(client := if s.client.AwaitHeader? && p.ok then AwaitDevice([]) else Finished(p.outcome),
                     down := s.down[k..])
    ensures Moves(p, s, t, k)
  {
  }

  lemma ClientReadHeaderMoves(r: Programs, p: Plan, s: State, t: State, k: nat)
    requires Agreed(r, p) && Inv(p, s) && ClientReadHeader(r, s, t, k)
    ensures Moves(p, s, t, k)
  {
    if |s.client.got| + k < 8 {
      ClientReadsOn(p, s, t, k, 0, 8);
    } else {
      PopSlice(s.client.got, s.down, p.reply, 0, ReadDown(p, s), SentDown(p, s), k);
      assert s.client.got + s.down[..k] == p.reply[..8];
      ClientReadsLast(p, s, t, k);
    }
  }

  lemma ClientReadDeviceMoves(r: Programs, p: Plan, s: State, t: State, k: nat)
    requires Agreed(r, p) && Inv(p, s) && ClientReadDevice(r, s, t, k)
    ensures Moves(p, s, t, k)
  {
    if |s.client.got| + k < 312 {
      ClientReadsOn(p, s, t, k, 8, 312);
    } else {
      PopSlice(s.client.got, s.down, p.reply, 8, ReadDown(p, s), SentDown(p, s), k);
      assert s.client.got + s.down[..k] == p.reply[8..];
      ClientReadsLast(p, s, t, k);
    }
  }

  lemma NextMoves(r: Programs, p: Plan, s: State, t: State, k: nat)
    requires Agreed(r, p) && Inv(p, s) && Next(r, s, t, k)
    ensures Moves(p, s, t, k)
  {
    if ClientSend(s, t, k) {
      ClientSendMoves(p, s, t, k);
    } else if ServerReadOpcode(r, s, t, k) {
      ServerReadOpcodeMoves(r, p, s, t, k);
    } else if ServerReadRequest(r, s, t, k) {
      ServerReadRequestMoves(r, p, s, t, k);
    } else if ServerSend(s, t, k) {
      ServerSendMoves(p, s, t, k);
    } else if ClientReadHeader(r, s, t, k) {
      ClientReadHeaderMoves(r, p, s, t, k);
    } else {
      ClientReadDeviceMoves(r, p, s, t, k);
    }
  }

  // ----- Whole runs -----

  /** states[0] is the initial state and ks[i] bytes move between states[i] and states[i + 1]. */
  ghost predicate IsRun(r: Programs, states: seq<State>, ks: seq<nat>) {
    && |states| == |ks| + 1 && states[0] == Init(r)
    && forall i | 0 <= i < |ks| :: Next(r, states[i], states[i + 1], ks[i])
  }

  lemma {:induction false} RunInvariant(r: Programs, p: Plan, states: seq<State>, ks: seq<nat>)
    requires Agreed(r, p) && IsRun(r, states, ks)
    ensures Inv(p, states[|ks|])
    ensures Remaining(p, states[|ks|]) + |ks| <= 80 + 2 * |p.reply|
    decreases |ks|
  {
    var n := |ks|;
    if n > 0 {
      assert IsRun(r, states[..n], ks[..n - 1]);
      RunInvariant(r, p, states[..n], ks[..n - 1]);
      NextMoves(r, p, states[n - 1], states[n], ks[n - 1]);
    } else {
      InitMoves(p, Init(r));
    }
  }

  lemma InitMoves(p: Plan, s: State)
    requires |p.request| == 40 && |p.reply| == if p.ok then 320 else 8
    requires s == State(Sending(p.request), AwaitOpcode([]), [], [])
    ensures Inv(p, s) && Remaining(p, s) == 80 + 2 * |p.reply|
  {
  }

  /** Until both sides are done some bytes can move: nobody waits for bytes that never come. */
  lemma NoDeadlock(r: Programs, p: Plan, s: State)
    requires Inv(p, s) && !Done(s)
    ensures exists t :: Next(r, s, t, 1)
  {
    if s.client.Sending? {
      var left := s.client.left;
      var t := s.(client := ClientSent(left[1..]), up := s.up + left[..1]);
      assert Next(r, s, t, 1);
    } else if s.server.Replying? {
      var left := s.server.left;
      var t := s.(server := ServerSent(left[1..]), down := s.down + left[..1]);
      assert Next(r, s, t, 1);
    } else if s.server.Closed? {
      ClientCanRead(r, p, s);
    } else {
      ServerCanRead(r, p, s);
    }
  }

  lemma ServerCanRead(r: Programs, p: Plan, s: State)
    requires Inv(p, s) && (s.server.AwaitOpcode? || s.server.AwaitRequest?) && !s.client.Sending?
    ensures exists t :: Next(r, s, t, 1)
  {
    var got := s.server.got + s.up[..1];
    if s.server.AwaitOpcode? {
      var server := if |got| == HEADER_SIZE then r.opcodeRead(got) else AwaitOpcode(got);
      assert Next(r, s, s.(server := server, up := s.up[1..]), 1);
    } else {
      var server := if |got| == 32 then r.requestRead(got) else AwaitRequest(got);
      assert Next(r, s, s.(server := server, up := s.up[1..]), 1);
    }
  }

  lemma ClientCanRead(r: Programs, p: Plan, s: State)
    requires Inv(p, s) && s.server.Closed? && !s.client.Sending? && !s.client.Finished?
    ensures exists t :: Next(r, s, t, 1)
  {
    var got := s.client.got + s.down[..1];
    if s.client.AwaitHeader? {
      var client := if |got| == HEADER_SIZE then r.replyHeaderRead(got) else AwaitHeader(got);
      assert Next(r, s, s.(client := client, down := s.down[1..]), 1);
    } else {
      var client := if |got| == DEVICE_SIZE then r.deviceRead(got) else AwaitDevice(got);
      assert Next(r, s, s.(client := client, down := s.down[1..]), 1);
    }
  }

  lemma PlannedRun(r: Programs, p: Plan, states: seq<State>, ks: seq<nat>)
    requires Agreed(r, p) && IsRun(r, states, ks)
    ensures |ks| <= 80 + 2 * |p.reply|
    ensures !Done(states[|ks|]) ==> exists t :: Next(r, states[|ks|], t, 1)
    ensures Done(states[|ks|]) ==>
              var s := states[|ks|];
              s.up == [] && s.down == [] && s.client == Finished(p.outcome)
  {
    var s := states[|ks|];
    RunInvariant(r, p, states, ks);
    RemainingIsNat(p, s);
    if !Done(s) {
      NoDeadlock(r, p, s);
    }
  }

  /** Every run of an exchange without transport failure: it has at most as many steps as there
      are bytes to send and read, it can always go on until both sides are done, and it ends with
      both channels empty and the planned result. */
  lemma ExchangeCompletes(x: Setting, states: seq<State>, ks: seq<nat>)
    requires IsRun(ProgramsOf(x), states, ks)
    ensures |ks| <= 80 + 2 * |Reply(x)|
    ensures !Done(states[|ks|]) ==> exists t :: Next(ProgramsOf(x), states[|ks|], t, 1)
    ensures Done(states[|ks|]) ==>
              var s := states[|ks|];
              s.up == [] && s.down == [] && s.client == Finished(Outcome(x))
  {
    PlanIsAgreed(x);
    PlannedRun(ProgramsOf(x), PlanOf(x), states, ks);
  }

  lemma RemainingIsNat(p: Plan, s: State)
    requires Inv(p, s)
    ensures Remaining(p, s) >= 0
    ensures Done(s) ==> s.up == [] && s.down == []
  {
  }

  // ----- What the result means -----

  predicate IsCString(s: seq<u8>) {
    0 !in s
  }

  /** import_device is called with d exactly when the busid asked for fits its field whole and d is
      the record of the first device on the server's list with that busid, which was available
      and whose socket the kernel took. */
  lemma ImportedDevice(x: Setting, d: UsbDevice)
    requires IsCString(x.busid)
    ensures Outcome(x) == Some(d) <==>
            && |x.busid| <= 31 && x.accepted
            && Offers(x.devs, RequestBusid(x.busid))
            && Search(x.devs, RequestBusid(x.busid)).value.udev == d
    ensures Outcome(x) == Some(d) ==> CString(d.busid) == x.busid
  {
    var req := RequestBusid(x.busid);
    RequestString(x.busid);
    OkMeansExported(x.devs, req, x.accepted);
    if Offers(x.devs, req) {
      SearchMatches(x.devs, req);
      var b := Search(x.devs, req).value.udev.busid;
      assert Take(CString(req), 32) == CString(req);
      CStringWhole(x.busid);
    }
  }

  lemma CStringWhole(s: seq<u8>)
    requires IsCString(s)
    ensures CString(s) == s
  {
    CStringOfPadded(s, []);
    assert s + [] == s;
  }

  lemma RequestString(busid: seq<u8>)
    requires IsCString(busid)
    ensures CString(RequestBusid(busid)) == Take(busid, 31)
  {
    var s := Take(busid, 31);
    CStringOfPadded(s, seq(32 - |s|, _ => 0));
  }

  lemma {:induction false} SearchMatches(devs: seq<ExportedDevice>, req: seq<u8>)
    requires Search(devs, req).Some?
    ensures StrncmpEqual(req, Search(devs, req).value.udev.busid, 32)
  {
    if !StrncmpEqual(req, devs[0].udev.busid, 32) {
      SearchMatches(devs[1..], req);
    }
  }
}
