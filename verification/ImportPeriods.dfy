/** The forked handlers and the exchanges with their clients together: a device has one importer at
    a time. */
module ImportPeriods {
  import Words
  import opened Wrappers
  import opened WireCodec
  import opened Devlist
  import opened ExportDecision
  import R = Runs
  import S = ImportServer
  import X = ImportExchange

  /** Handler h has read the request of exchange x and refreshed its list as x says. */
  ghost predicate Serves(s: S.System, h: nat, x: X.Setting) {
    h in s.handlers && s.handlers[h] == S.Handler(X.RequestBusid(x.busid), S.Refreshed(x.devs))
  }

  /** Handler h is about to decide on exchange x, whose client will reach import_device with d:
      every run of the exchange ends with its outcome (ImportExchange.ExchangeCompletes). */
  ghost predicate Importing(s: S.System, h: nat, x: X.Setting, d: UsbDevice) {
    && S.Enabled(s, S.Decide(h, x.accepted)) && Serves(s, h, x)
    && X.IsCString(x.busid) && X.Outcome(x) == Some(d)
  }

  ghost function Decided(s: S.System, h: nat, x: X.Setting): S.System
    requires S.Enabled(s, S.Decide(h, x.accepted))
  {
    S.Apply(s, S.Decide(h, x.accepted))
  }

  /** A client reaches import_device only when its handler's decision takes the device from not in
      use to in use. */
  lemma ImportTakesDevice(s: S.System, h: nat, x: X.Setting, d: UsbDevice)
    requires Importing(s, h, x, d)
    ensures CString(d.busid) == x.busid
    ensures !S.InUse(s, x.busid) && S.InUse(Decided(s, h, x), x.busid)
  {
    X.ImportedDevice(x, d);
    assert S.Selected(s.handlers[h]) == CString(d.busid);
  }

  /** Whatever other clients, handlers and devices do, between two decisions whose clients both
      reach import_device with the same device lies a release of that device. */
  lemma OneImporterPerPeriod(s: S.System, h: nat, x: X.Setting, d: UsbDevice, between: seq<S.Step>,
                             g: nat, y: X.Setting, e: UsbDevice)
    requires Importing(s, h, x, d) && S.CanRun(Decided(s, h, x), between)
    requires Importing(S.Run(Decided(s, h, x), between), g, y, e) && CString(d.busid) == CString(e.busid)
    ensures S.ReleasedDuring(Decided(s, h, x), between, CString(d.busid))
  {
    var t := Decided(s, h, x);
    ImportTakesDevice(s, h, x, d);
    ImportTakesDevice(S.Run(t, between), g, y, e);
    if !S.ReleasedDuring(t, between, x.busid) {
      S.InUseUntilReleased(t, between, x.busid);
    }
  }

  /** From the start: a client of a server with this one device, available, asks for it by its
      bus id of at most 31 characters. */
  lemma ImportHappens(client: Endian, server: Endian, dev: ExportedDevice)
    requires dev.status == SDEV_ST_AVAILABLE && PathFits(dev) && |CString(dev.udev.busid)| <= 31
    ensures var busid := CString(dev.udev.busid);
      var x := X.Setting(client, server, busid, [dev], true);
      var s, steps := S.Start(map[busid := SDEV_ST_AVAILABLE]), RequestSteps(0, busid, dev);
      S.CanRun(s, steps) && Importing(S.Run(s, steps), 0, x, dev.udev)
  {
    var busid := CString(dev.udev.busid);
    var req := X.RequestBusid(busid);
    var x := X.Setting(client, server, busid, [dev], true);
    var s0 := S.Start(map[busid := SDEV_ST_AVAILABLE]);
    var s1 := s0.(handlers := map[0 := S.Handler(req, S.Forked)]);
    var s2 := s0.(handlers := map[0 := S.Handler(req, S.Refreshed([dev]))]);
    R.RunFirst(S.SERVER, s1, S.Refresh(0, [dev]), []);
    R.RunFirst(S.SERVER, s0, S.Fork(0, req), [S.Refresh(0, [dev])] + []);
    AsksFor(dev, busid);
    X.ImportedDevice(x, dev.udev);
  }

  function RequestSteps(h: nat, busid: seq<Words.u8>, dev: ExportedDevice): seq<S.Step> {
    [S.Fork(h, X.RequestBusid(busid))] + ([S.Refresh(h, [dev])] + [])
  }

  lemma AsksFor(dev: ExportedDevice, busid: seq<Words.u8>)
    requires busid == CString(dev.udev.busid) && |busid| <= 31
    requires dev.status == SDEV_ST_AVAILABLE && PathFits(dev)
    ensures Search([dev], X.RequestBusid(busid)) == Some(dev) && Offers([dev], X.RequestBusid(busid))
  {
    X.RequestString(busid);
  }
}
