/** What the server does with one import request: the search and usbip_export_device. */
module ExportDecision {
  import opened Wrappers
  import opened Words
  import opened Devlist

  const ST_NA: u32 := 1
  const ST_DEV_BUSY: u32 := 2
  const ST_DEV_ERR: u32 := 3
  const ST_NODEV: u32 := 4

  const SDEV_ST_AVAILABLE := 1
  const SDEV_ST_ERROR := 3

  const SYSFS_PATH_MAX := 256
  const SYSFS_BUS_ID_SIZE := 32

  // ----- C strings in byte arrays -----

  /** The C string stored in an array: the bytes before the first 0. */
  function CString(b: seq<u8>): (s: seq<u8>)
    ensures |s| <= |b| && s == b[..|s|] && 0 !in s
    ensures |s| < |b| ==> b[|s|] == 0
  {
    if b == [] || b[0] == 0 then [] else [b[0]] + CString(b[1..])
  }

  function Take(s: seq<u8>, n: nat): seq<u8> {
    if |s| <= n then s else s[..n]
  }

  /** strncmp(a, b, n) == 0 */
  predicate StrncmpEqual(a: seq<u8>, b: seq<u8>, n: nat) {
    Take(CString(a), n) == Take(CString(b), n)
  }

  lemma {:induction false} CStringOfPadded(s: seq<u8>, pad: seq<u8>)
    requires 0 !in s && (pad == [] || pad[0] == 0)
    ensures CString(s + pad) == s
  {
    if s == [] {
      assert s + pad == pad;
    } else {
      assert (s + pad)[1..] == s[1..] + pad;
      CStringOfPadded(s[1..], pad);
    }
  }

  // ----- The decision -----

  /** The walk over the device list: the first device whose busid is the requested one. */
  function Search(devs: seq<ExportedDevice>, req: seq<u8>): Option<ExportedDevice> {
    if devs == [] then None
    else if StrncmpEqual(req, devs[0].udev.busid, SYSFS_BUS_ID_SIZE) then Some(devs[0])
    else Search(devs[1..], req)
  }

  /** The name of the attribute usbip_export_device writes to must fit its buffer. */
  predicate PathFits(d: ExportedDevice) {
    |CString(d.udev.path)| + |"/usbip_sockfd"| < SYSFS_PATH_MAX
  }

  /** usbip_export_device; accepted is the kernel's answer to the attribute write.
      None stands for the negative return values. */
  function ExportDevice(d: ExportedDevice, accepted: bool): Option<u32> {
    if d.status != SDEV_ST_AVAILABLE then
      if d.status == SDEV_ST_ERROR then Some(ST_DEV_ERR)
      else if d.status == SDEV_ST_USED then Some(ST_DEV_BUSY)
      else None
    else if !PathFits(d) then None
    else if accepted then Some(ST_OK) else None
  }

  /** The status recv_request_import replies with. */
  function ReplyStatus(devs: seq<ExportedDevice>, req: seq<u8>, accepted: bool): (st: u32)
    ensures st in {ST_OK, ST_NA, ST_DEV_BUSY, ST_DEV_ERR, ST_NODEV}
  {
    match Search(devs, req)
    case None => ST_NODEV
    case Some(d) =>
      match ExportDevice(d, accepted)
      case None => ST_NA
      case Some(st) => st
  }

  /** Whether the request reaches the attribute write at all. */
  predicate Offers(devs: seq<ExportedDevice>, req: seq<u8>) {
    var d := Search(devs, req);
    d.Some? && d.value.status == SDEV_ST_AVAILABLE && PathFits(d.value)
  }

  /** The device's busid is the requested one. */
  predicate IsMatch(d: ExportedDevice, req: seq<u8>) {
    StrncmpEqual(req, d.udev.busid, SYSFS_BUS_ID_SIZE)
  }

  /** The search finds the i-th device: it matches and none before it does. */
  predicate FirstMatch(devs: seq<ExportedDevice>, req: seq<u8>, i: int) {
    0 <= i < |devs| && IsMatch(devs[i], req) && forall j | 0 <= j < i :: !IsMatch(devs[j], req)
  }

  lemma {:induction false} SearchFindsFirst(devs: seq<ExportedDevice>, req: seq<u8>)
    ensures Search(devs, req) == None <==> forall i | 0 <= i < |devs| :: !IsMatch(devs[i], req)
    ensures Search(devs, req).Some? ==> exists i :: FirstMatch(devs, req, i) && devs[i] == Search(devs, req).value
  {
    if devs != [] {
      var rest := devs[1..];
      SearchFindsFirst(rest, req);
      assert forall i | 0 < i < |devs| :: devs[i] == rest[i - 1];
      if IsMatch(devs[0], req) {
        assert FirstMatch(devs, req, 0);
      } else if Search(rest, req).Some? {
        var i :| FirstMatch(rest, req, i) && rest[i] == Search(rest, req).value;
        FirstMatchBelow(devs, req, i);
      }
    }
  }

  lemma FirstMatchBelow(devs: seq<ExportedDevice>, req: seq<u8>, i: int)
    requires devs != [] && !IsMatch(devs[0], req) && FirstMatch(devs[1..], req, i)
    ensures FirstMatch(devs, req, i + 1) && devs[i + 1] == devs[1..][i]
  {
    forall j | 0 <= j < i + 1 ensures !IsMatch(devs[j], req) {
      if j > 0 {
        assert devs[j] == devs[1..][j - 1];
      }
    }
  }

  lemma ExportMeans(d: ExportedDevice, accepted: bool)
    ensures ExportDevice(d, accepted) == Some(ST_OK) <==>
            accepted && d.status == SDEV_ST_AVAILABLE && PathFits(d)
    ensures ExportDevice(d, accepted) == Some(ST_DEV_BUSY) <==> d.status == SDEV_ST_USED
    ensures ExportDevice(d, accepted) != Some(ST_NODEV)
  {
  }

  lemma ReplyOf(devs: seq<ExportedDevice>, req: seq<u8>, accepted: bool, d: ExportedDevice)
    requires Search(devs, req) == Some(d)
    ensures ReplyStatus(devs, req, accepted) ==
            if ExportDevice(d, accepted) == None then ST_NA else ExportDevice(d, accepted).value
    ensures Offers(devs, req) <==> d.status == SDEV_ST_AVAILABLE && PathFits(d)
  {
  }

  /** ST_OK means one thing: the first matching device was available, its attribute name fits
      and the kernel took the socket. */
  lemma OkMeansExported(devs: seq<ExportedDevice>, req: seq<u8>, accepted: bool)
    ensures ReplyStatus(devs, req, accepted) == ST_OK <==> accepted && Offers(devs, req)
    ensures ReplyStatus(devs, req, accepted) == ST_DEV_BUSY <==>
            Search(devs, req).Some? && Search(devs, req).value.status == SDEV_ST_USED
    ensures ReplyStatus(devs, req, accepted) == ST_NODEV <==> Search(devs, req) == None
  {
    var found := Search(devs, req);
    if found.Some? {
      ExportMeans(found.value, accepted);
      ReplyOf(devs, req, accepted, found.value);
    }
  }
}
