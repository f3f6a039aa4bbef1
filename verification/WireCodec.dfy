/** Device records and headers: host memory, the conversions of usbip_network.c,
    and the big-endian layout of the USB/IP protocol. */
module WireCodec {
  import opened Words

  /** The byte order of a host. */
  datatype Endian = Little | Big

  type Path = s: seq<u8> | |s| == 256 witness seq(256, _ => 0)
  type BusId = s: seq<u8> | |s| == 32 witness seq(32, _ => 0)

  datatype UsbDevice = UsbDevice(
    path: Path, busid: BusId,
    busnum: u32, devnum: u32, speed: u32,
    idVendor: u16, idProduct: u16, bcdDevice: u16,
    bDeviceClass: u8, bDeviceSubClass: u8, bDeviceProtocol: u8,
    bConfigurationValue: u8, bNumConfigurations: u8, bNumInterfaces: u8)

  datatype UsbInterface = UsbInterface(
    bInterfaceClass: u8, bInterfaceSubClass: u8, bInterfaceProtocol: u8, padding: u8)

  datatype OpCommon = OpCommon(version: u16, code: u16, status: u32)

  const DEVICE_SIZE := 312
  const INTERFACE_SIZE := 4
  const HEADER_SIZE := 8

  // ----- Numbers in memory -----

  function Bytes16(e: Endian, v: u16): (b: seq<u8>)
    ensures |b| == 2
  {
    if e == Big then [v / 0x100, v % 0x100] else [v % 0x100, v / 0x100]
  }

  function Load16(e: Endian, b: seq<u8>): u16
    requires |b| == 2
  {
    if e == Big then b[0] as int * 0x100 + b[1] else b[1] as int * 0x100 + b[0]
  }

  function Bytes32(e: Endian, v: u32): (b: seq<u8>)
    ensures |b| == 4
  {
    var b0, v1 := v % 0x100, v / 0x100;
    var b1, v2 := v1 % 0x100, v1 / 0x100;
    var b2, b3 := v2 % 0x100, v2 / 0x100;
    if e == Big then [b3, b2, b1, b0] else [b0, b1, b2, b3]
  }

  function Load32(e: Endian, b: seq<u8>): u32
    requires |b| == 4
  {
    if e == Big then FromDigits(b[0], b[1], b[2], b[3]) else FromDigits(b[3], b[2], b[1], b[0])
  }

  function FromDigits(b3: u8, b2: u8, b1: u8, b0: u8): u32 {
    ((b3 as int * 0x100 + b2) * 0x100 + b1) * 0x100 + b0
  }

  lemma LoadBytes16(e: Endian, v: u16)
    ensures Load16(e, Bytes16(e, v)) == v
  {
  }

  lemma BytesLoad16(e: Endian, b: seq<u8>)
    requires |b| == 2
    ensures Bytes16(e, Load16(e, b)) == b
  {
  }

  lemma LoadBytes32(e: Endian, v: u32)
    ensures Load32(e, Bytes32(e, v)) == v
  {
    assert v == v / 0x100 * 0x100 + v % 0x100;
  }

  lemma BytesLoad32(e: Endian, b: seq<u8>)
    requires |b| == 4
    ensures Bytes32(e, Load32(e, b)) == b
  {
    if e == Big {
      Digits(b[0], b[1], b[2], b[3]);
    } else {
      Digits(b[3], b[2], b[1], b[0]);
    }
  }

  lemma Digits(b3: u8, b2: u8, b1: u8, b0: u8)
    ensures Bytes32(Little, FromDigits(b3, b2, b1, b0)) == [b0, b1, b2, b3]
    ensures Bytes32(Big, FromDigits(b3, b2, b1, b0)) == [b3, b2, b1, b0]
  {
    DivStep(b3 as int * 0x100 + b2, b1);
    DivStep((b3 as int * 0x100 + b2) * 0x100 + b1, b0);
    DivStep(b3, b2);
  }

  lemma DivStep(q: nat, r: u8)
    ensures (q * 0x100 + r) / 0x100 == q && (q * 0x100 + r) % 0x100 == r
  {
  }

  // ----- htonl and friends, and packing -----

  function Swap16(v: u16): u16 {
    Load16(Big, Bytes16(Little, v))
  }

  function Swap32(v: u32): u32 {
    Load32(Big, Bytes32(Little, v))
  }

  function Htons(host: Endian, v: u16): u16 {
    if host == Big then v else Swap16(v)
  }

  function Htonl(host: Endian, v: u32): u32 {
    if host == Big then v else Swap32(v)
  }

  /** A number converted for the network lies in host memory most significant byte first. */
  lemma NetworkOrder16(host: Endian, v: u16)
    ensures Bytes16(host, Htons(host, v)) == Bytes16(Big, v)
    ensures Htons(host, Htons(host, v)) == v
  {
    BytesLoad16(Big, Bytes16(Little, v));
    assert Bytes16(Big, Swap16(v)) == Bytes16(Little, v);
    assert Bytes16(Little, Swap16(v)) == Bytes16(Big, v);
    LoadBytes16(Big, v);
  }

  lemma NetworkOrder32(host: Endian, v: u32)
    ensures Bytes32(host, Htonl(host, v)) == Bytes32(Big, v)
    ensures Htonl(host, Htonl(host, v)) == v
  {
    var b := Bytes32(Little, v);
    Digits(b[0], b[1], b[2], b[3]);
    LoadBytes32(Big, v);
    assert Bytes32(Little, Swap32(v)) == [b[3], b[2], b[1], b[0]] == Bytes32(Big, v);
  }
  // ----- Packed structures, field after field -----

  datatype Field = Raw(bytes: seq<u8>) | Num16(n16: u16) | Num32(n32: u32)

  function FieldBytes(e: Endian, f: Field): seq<u8> {
    match f
    case Raw(b) => b
    case Num16(v) => Bytes16(e, v)
    case Num32(v) => Bytes32(e, v)
  }

  /** A packed structure as it lies in the memory of a host. */
  function Encode(e: Endian, fs: seq<Field>): seq<u8> {
    if fs == [] then [] else FieldBytes(e, fs[0]) + Encode(e, fs[1..])
  }

  lemma FieldAt(e: Endian, fs: seq<Field>, k: nat, m: seq<u8>, at: nat)
    requires k < |fs| && at <= |m| && m[at..] == Encode(e, fs[k..])
    ensures var b := FieldBytes(e, fs[k]);
      at + |b| <= |m| && m[at..at + |b|] == b && m[at + |b|..] == Encode(e, fs[k + 1..])
  {
    var b := FieldBytes(e, fs[k]);
    assert fs[k..][1..] == fs[k + 1..];
    assert m[at..] == b + Encode(e, fs[k + 1..]);
    assert m[at..at + |b|] == m[at..][..|b|];
    assert m[at + |b|..] == m[at..][|b|..];
  }

  /** What the PACK macros do to a field. */
  function ConvertedField(host: Endian, f: Field): Field {
    match f
    case Raw(b) => f
    case Num16(v) => Num16(Htons(host, v))
    case Num32(v) => Num32(Htonl(host, v))
  }

  /** Packed by any host, a structure lies in memory in network byte order. */
  lemma {:induction false} PackedFields(host: Endian, fs: seq<Field>, gs: seq<Field>)
    requires |gs| == |fs| && forall k | 0 <= k < |fs| :: gs[k] == ConvertedField(host, fs[k])
    ensures Encode(host, gs) == Encode(Big, fs)
  {
    if fs != [] {
      PackedFields(host, fs[1..], gs[1..]);
      match fs[0]
      case Raw(b) =>
      case Num16(v) => NetworkOrder16(host, v);
      case Num32(v) => NetworkOrder32(host, v);
    }
  }

  // ----- Device records -----

  function Fields(d: UsbDevice): seq<Field> {
    [Raw(d.path), Raw(d.busid), Num32(d.busnum), Num32(d.devnum), Num32(d.speed),
     Num16(d.idVendor), Num16(d.idProduct), Num16(d.bcdDevice),
     Raw([d.bDeviceClass, d.bDeviceSubClass, d.bDeviceProtocol,
          d.bConfigurationValue, d.bNumConfigurations, d.bNumInterfaces])]
  }

  function Memory(e: Endian, d: UsbDevice): (m: seq<u8>)
    ensures |m| == DEVICE_SIZE
  {
    MemoryLayout(e, d);
    Encode(e, Fields(d))
  }

  /** What a host reads in memory, at the offsets of OP_REP_IMPORT less its 8-byte header. */
  function FromMemory(e: Endian, m: seq<u8>): UsbDevice
    requires |m| == DEVICE_SIZE
  {
    UsbDevice(m[..0x100], m[0x100..0x120],
              Load32(e, m[0x120..0x124]), Load32(e, m[0x124..0x128]), Load32(e, m[0x128..0x12C]),
              Load16(e, m[0x12C..0x12E]), Load16(e, m[0x12E..0x130]), Load16(e, m[0x130..0x132]),
              m[0x132], m[0x133], m[0x134], m[0x135], m[0x136], m[0x137])
  }

  lemma MemoryLayout(e: Endian, d: UsbDevice)
    ensures var m := Encode(e, Fields(d));
      && |m| == DEVICE_SIZE
      && m[..0x100] == d.path && m[0x100..0x120] == d.busid
      && m[0x120..0x124] == Bytes32(e, d.busnum) && m[0x124..0x128] == Bytes32(e, d.devnum)
      && m[0x128..0x12C] == Bytes32(e, d.speed) && m[0x12C..0x12E] == Bytes16(e, d.idVendor)
      && m[0x12E..0x130] == Bytes16(e, d.idProduct) && m[0x130..0x132] == Bytes16(e, d.bcdDevice)
      && m[0x132..] == [d.bDeviceClass, d.bDeviceSubClass, d.bDeviceProtocol,
                        d.bConfigurationValue, d.bNumConfigurations, d.bNumInterfaces]
  {
    NineFields(e, Fields(d));
  }

  lemma NineFields(e: Endian, fs: seq<Field>)
    requires |fs| == 9
    requires fs[0].Raw? && |fs[0].bytes| == 0x100 && fs[1].Raw? && |fs[1].bytes| == 0x20
    requires fs[2].Num32? && fs[3].Num32? && fs[4].Num32? && fs[5].Num16? && fs[6].Num16? && fs[7].Num16?
    requires fs[8].Raw? && |fs[8].bytes| == 6
    ensures var m := Encode(e, fs);
      && |m| == DEVICE_SIZE
      && m[..0x100] == fs[0].bytes && m[0x100..0x120] == fs[1].bytes
      && m[0x120..0x124] == Bytes32(e, fs[2].n32) && m[0x124..0x128] == Bytes32(e, fs[3].n32)
      && m[0x128..0x12C] == Bytes32(e, fs[4].n32) && m[0x12C..0x12E] == Bytes16(e, fs[5].n16)
      && m[0x12E..0x130] == Bytes16(e, fs[6].n16) && m[0x130..0x132] == Bytes16(e, fs[7].n16)
      && m[0x132..] == fs[8].bytes
  {
    var m := Encode(e, fs);
    FirstFields(e, fs, m);
    assert m[0x12C..] == Encode(e, fs[5..]);
    FieldAt(e, fs, 5, m, 0x12C);
    FieldAt(e, fs, 6, m, 0x12E);
    FieldAt(e, fs, 7, m, 0x130);
    FieldAt(e, fs, 8, m, 0x132);
    assert m[0x138..] == [];
    assert m[0x132..0x138] == m[0x132..];
  }

  lemma FirstFields(e: Endian, fs: seq<Field>, m: seq<u8>)
    requires |fs| == 9 && m == Encode(e, fs)
    requires fs[0].Raw? && |fs[0].bytes| == 0x100 && fs[1].Raw? && |fs[1].bytes| == 0x20
    requires fs[2].Num32? && fs[3].Num32? && fs[4].Num32?
    ensures |m| >= 0x12C && m[0x12C..] == Encode(e, fs[5..])
    ensures m[..0x100] == fs[0].bytes && m[0x100..0x120] == fs[1].bytes
    ensures m[0x120..0x124] == Bytes32(e, fs[2].n32) && m[0x124..0x128] == Bytes32(e, fs[3].n32)
    ensures m[0x128..0x12C] == Bytes32(e, fs[4].n32)
  {
    assert m[0..] == m && fs[0..] == fs;
    FieldAt(e, fs, 0, m, 0);
    FieldAt(e, fs, 1, m, 0x100);
    FieldAt(e, fs, 2, m, 0x120);
    FieldAt(e, fs, 3, m, 0x124);
    FieldAt(e, fs, 4, m, 0x128);
  }

  lemma ReadBack(e: Endian, d: UsbDevice)
    ensures FromMemory(e, Memory(e, d)) == d
  {
    MemoryLayout(e, d);
    var m := Memory(e, d);
    assert forall k | 0 <= k < 6 :: m[0x132 + k] == m[0x132..][k];
    LoadBytes32(e, d.busnum);
    LoadBytes32(e, d.devnum);
    LoadBytes32(e, d.speed);
    LoadBytes16(e, d.idVendor);
    LoadBytes16(e, d.idProduct);
    LoadBytes16(e, d.bcdDevice);
  }

  /** usbip_net_pack_usb_device, as a function of the record: the six numbers are converted. */
  function Converted(host: Endian, d: UsbDevice): UsbDevice {
    d.(busnum := Htonl(host, d.busnum), devnum := Htonl(host, d.devnum), speed := Htonl(host, d.speed),
       idVendor := Htons(host, d.idVendor), idProduct := Htons(host, d.idProduct),
       bcdDevice := Htons(host, d.bcdDevice))
  }

  /** The bytes of a record on the wire. */
  function WireDevice(d: UsbDevice): (w: seq<u8>)
    ensures |w| == DEVICE_SIZE
  {
    Memory(Big, d)
  }

  /** The record a block of 312 wire bytes stands for. */
  function DecodeDevice(w: seq<u8>): UsbDevice
    requires |w| == DEVICE_SIZE
  {
    FromMemory(Big, w)
  }

  /** Packed by any host, a record is sent in the wire layout. */
  lemma PackedIsWire(host: Endian, d: UsbDevice)
    ensures Memory(host, Converted(host, d)) == WireDevice(d)
  {
    PackedFields(host, Fields(d), Fields(Converted(host, d)));
  }

  /** Unpacked by any host, wire bytes give the record they stand for. */
  lemma UnpackedIsDecoded(host: Endian, d: UsbDevice)
    ensures Converted(host, FromMemory(host, WireDevice(d))) == DecodeDevice(WireDevice(d)) == d
  {
    PackedIsWire(host, d);
    ReadBack(host, Converted(host, d));
    ReadBack(Big, d);
    NetworkOrder32(host, d.busnum);
    NetworkOrder32(host, d.devnum);
    NetworkOrder32(host, d.speed);
    NetworkOrder16(host, d.idVendor);
    NetworkOrder16(host, d.idProduct);
    NetworkOrder16(host, d.bcdDevice);
  }

  /** Pack, transfer and unpack is the identity for all four pairs of byte orders. */
  lemma DeviceRoundTrip(sender: Endian, receiver: Endian, d: UsbDevice)
    ensures Converted(receiver, FromMemory(receiver, Memory(sender, Converted(sender, d)))) == d
  {
    PackedIsWire(sender, d);
    UnpackedIsDecoded(receiver, d);
  }

  /** A structure usbip_usb_device, packed and unpacked in place. */
  class DeviceBuffer {
    const host: Endian
    var path: Path
    var busid: BusId
    var busnum: u32
    var devnum: u32
    var speed: u32
    var idVendor: u16
    var idProduct: u16
    var bcdDevice: u16
    var flags: seq<u8>

    ghost predicate Valid() reads this {
      |flags| == 6
    }

    function Value(): UsbDevice
      requires Valid()
      reads this
    {
      UsbDevice(path, busid, busnum, devnum, speed, idVendor, idProduct, bcdDevice,
                flags[0], flags[1], flags[2], flags[3], flags[4], flags[5])
    }

    /** memcpy of a record, or of 312 received bytes, into the structure. */
    constructor (host: Endian, d: UsbDevice)
      ensures Valid() && this.host == host && Value() == d
    {
      this.host := host;
      path, busid, busnum, devnum, speed := d.path, d.busid, d.busnum, d.devnum, d.speed;
      idVendor, idProduct, bcdDevice := d.idVendor, d.idProduct, d.bcdDevice;
      flags := [d.bDeviceClass, d.bDeviceSubClass, d.bDeviceProtocol,
                d.bConfigurationValue, d.bNumConfigurations, d.bNumInterfaces];
    }

    /** usbip_net_pack_usb_device. Packing twice restores the record, so packing and
        unpacking are the same conversion on a host. */
    method PackUsbDevice(pack: bool)
      requires Valid()
      modifies this
      ensures Valid() && Value() == Converted(host, old(Value()))
      ensures Memory(host, Value()) == WireDevice(old(Value()))
      ensures Converted(host, Value()) == old(Value())
    {
      PackedIsWire(host, Value());
      NetworkOrder32(host, busnum);
      NetworkOrder32(host, devnum);
      NetworkOrder32(host, speed);
      NetworkOrder16(host, idVendor);
      NetworkOrder16(host, idProduct);
      NetworkOrder16(host, bcdDevice);
      busnum := PackUint32(host, pack, busnum);
      devnum := PackUint32(host, pack, devnum);
      speed := PackUint32(host, pack, speed);
      idVendor := PackUint16(host, pack, idVendor);
      idProduct := PackUint16(host, pack, idProduct);
      bcdDevice := PackUint16(host, pack, bcdDevice);
    }
  }

  /** usbip_net_pack_uint32_t: htonl or ntohl. */
  method PackUint32(host: Endian, pack: bool, num: u32) returns (i: u32)
    ensures i == Htonl(host, num)
    ensures pack ==> Bytes32(host, i) == Bytes32(Big, num)
    ensures !pack ==> Bytes32(Big, i) == Bytes32(host, num)
  {
    NetworkOrder32(host, num);
    NetworkOrder32(host, Htonl(host, num));
    i := if host == Big then num else Swap32(num);
  }

  /** usbip_net_pack_uint16_t: htons or ntohs. */
  method PackUint16(host: Endian, pack: bool, num: u16) returns (i: u16)
    ensures i == Htons(host, num)
    ensures pack ==> Bytes16(host, i) == Bytes16(Big, num)
    ensures !pack ==> Bytes16(Big, i) == Bytes16(host, num)
  {
    NetworkOrder16(host, num);
    NetworkOrder16(host, Htons(host, num));
    i := if host == Big then num else Swap16(num);
  }

  // ----- Interfaces and headers -----

  /** usbip_net_pack_usb_interface has nothing to convert. */
  function WireInterface(i: UsbInterface): (w: seq<u8>)
    ensures |w| == INTERFACE_SIZE
  {
    [i.bInterfaceClass, i.bInterfaceSubClass, i.bInterfaceProtocol, i.padding]
  }

  function DecodeInterface(w: seq<u8>): UsbInterface
    requires |w| == INTERFACE_SIZE
  {
    UsbInterface(w[0], w[1], w[2], w[3])
  }

  function HeaderFields(h: OpCommon): seq<Field> {
    [Num16(h.version), Num16(h.code), Num32(h.status)]
  }

  function HeaderMemory(e: Endian, h: OpCommon): (m: seq<u8>)
    ensures |m| == HEADER_SIZE
  {
    HeaderLayout(e, h);
    Encode(e, HeaderFields(h))
  }

  lemma HeaderLayout(e: Endian, h: OpCommon)
    ensures var m := Encode(e, HeaderFields(h));
      && |m| == HEADER_SIZE
      && m[0..2] == Bytes16(e, h.version) && m[2..4] == Bytes16(e, h.code) && m[4..] == Bytes32(e, h.status)
  {
    var fs := HeaderFields(h);
    var m := Encode(e, fs);
    assert m[0..] == m && fs[0..] == fs;
    FieldAt(e, fs, 0, m, 0);
    FieldAt(e, fs, 1, m, 2);
    FieldAt(e, fs, 2, m, 4);
    assert Encode(e, fs[3..]) == [];
  }

  function HeaderFromMemory(e: Endian, m: seq<u8>): OpCommon
    requires |m| == HEADER_SIZE
  {
    OpCommon(Load16(e, m[0..2]), Load16(e, m[2..4]), Load32(e, m[4..]))
  }

  /** PACK_OP_COMMON */
  function ConvertedHeader(host: Endian, h: OpCommon): OpCommon {
    OpCommon(Htons(host, h.version), Htons(host, h.code), Htonl(host, h.status))
  }

  function WireHeader(h: OpCommon): (w: seq<u8>)
    ensures |w| == HEADER_SIZE
  {
    HeaderMemory(Big, h)
  }

  function DecodeHeader(w: seq<u8>): OpCommon
    requires |w| == HEADER_SIZE
  {
    HeaderFromMemory(Big, w)
  }

  lemma HeaderReadBack(e: Endian, h: OpCommon)
    ensures HeaderFromMemory(e, HeaderMemory(e, h)) == h
  {
    HeaderLayout(e, h);
    LoadBytes16(e, h.version);
    LoadBytes16(e, h.code);
    LoadBytes32(e, h.status);
  }

  lemma PackedHeaderIsWire(host: Endian, h: OpCommon)
    ensures HeaderMemory(host, ConvertedHeader(host, h)) == WireHeader(h)
    ensures ConvertedHeader(host, ConvertedHeader(host, h)) == h
  {
    PackedFields(host, HeaderFields(h), HeaderFields(ConvertedHeader(host, h)));
    NetworkOrder16(host, h.version);
    NetworkOrder16(host, h.code);
    NetworkOrder32(host, h.status);
  }

  lemma HeaderRoundTrip(sender: Endian, receiver: Endian, h: OpCommon)
    ensures ConvertedHeader(receiver, HeaderFromMemory(receiver, HeaderMemory(sender, ConvertedHeader(sender, h)))) == h
    ensures DecodeHeader(WireHeader(h)) == h
  {
    PackedHeaderIsWire(sender, h);
    PackedHeaderIsWire(receiver, h);
    HeaderReadBack(receiver, ConvertedHeader(receiver, h));
    HeaderReadBack(Big, h);
  }
}
