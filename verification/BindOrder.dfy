/** Binding devices to usbip-host and back (usbip_bind.c, usbip_unbind.c, utils.c, device.c):
    ordered writes to sysfs, any of which may fail. */
module BindOrder {
  import opened Wrappers

  const USBIP_HOST_DRV_NAME := "usbip-host"
  const USBIP_VHCI_DRV_NAME := "vhci_hcd"

  /** SYSFS_BUS_ID_SIZE is 32. */
  const BUS_ID_MAX := 31

  /** What sysfs shows of a device; bDeviceClass may be unreadable. */
  datatype Device = Device(devpath: string, bDeviceClass: Option<string>, driver: Option<string>)

  /** The drivers of the devices and the match list of usbip-host. */
  datatype View = View(devices: map<string, Device>, matched: set<string>)

  /** The kernel gives devices bus ids that fit SYSFS_BUS_ID_SIZE. */
  predicate IdsFit(devices: map<string, Device>) {
    forall b | b in devices :: |b| <= BUS_ID_MAX
  }

  predicate IsBound(d: Device) {
    d.driver == Some(USBIP_HOST_DRV_NAME)
  }

  /** Every device bound to usbip-host is in the match list. */
  ghost predicate Ordered(v: View) {
    forall b | b in v.devices && IsBound(v.devices[b]) :: b in v.matched
  }

  /** strstr */
  predicate Contains(s: string, t: string) {
    t <= s || (s != [] && Contains(s[1..], t))
  }

  /** strncmp(class, "09", strlen(class)) == 0, which holds of "", "0" and "09". */
  predicate IsHub(bDeviceClass: string) {
    bDeviceClass <= "09"
  }

  /** bind_device takes any driver whose name starts with usbip-host for usbip-host. */
  predicate LooksBound(driver: Option<string>) {
    driver.Some? && USBIP_HOST_DRV_NAME <= driver.value
  }

  /** A device that may be bound, whatever its driver. */
  predicate Exportable(d: Device) {
    d.bDeviceClass.Some? && !IsHub(d.bDeviceClass.value) && !Contains(d.devpath, USBIP_VHCI_DRV_NAME)
  }

  // ----- The command written to match_busid -----

  /** The text that modify_match_busid writes, cut to its buffer of 36 bytes. */
  function Command(busid: string, add: bool): string {
    var text := (if add then "add " else "del ") + busid;
    if |text| <= BUS_ID_MAX + 4 then text else text[..BUS_ID_MAX + 4]
  }

  /** What usbip-host makes of it. */
  function Matched(command: string, matched: set<string>): set<string> {
    if "add " <= command then matched + {command[4..]}
    else if "del " <= command then matched - {command[4..]}
    else matched
  }

  /** As much of a bus id as the buffer holds. */
  function InBuffer(busid: string): string {
    if |busid| <= BUS_ID_MAX then busid else busid[..BUS_ID_MAX]
  }

  /** The text in the buffer adds or removes the bus id, or its first 31 characters. */
  lemma CommandIsUnderstood(busid: string, add: bool, matched: set<string>)
    ensures Matched(Command(busid, add), matched) ==
            if add then matched + {InBuffer(busid)} else matched - {InBuffer(busid)}
  {
    var text := Command(busid, add);
    assert text[..4] == (if add then "add " else "del ") && text[4..] == InBuffer(busid);
    assert text[0] == if add then 'a' else 'd';
  }

  // ----- The words themselves -----

  lemma HubMeans(bDeviceClass: string)
    ensures IsHub(bDeviceClass) <==> bDeviceClass == "" || bDeviceClass == "0" || bDeviceClass == "09"
  {
    if IsHub(bDeviceClass) {
      assert bDeviceClass == "09"[..|bDeviceClass|];
    }
  }

  predicate Around(s: string, a: string, t: string, b: string) {
    s == a + (t + b)
  }

  /** strstr finds t exactly when s is some text, t, and some text. */
  lemma {:induction false} ContainsMeans(s: string, t: string)
    ensures Contains(s, t) <==> exists a, b :: Around(s, a, t, b)
  {
    if t <= s {
      assert Around(s, [], t, s[|t|..]);
    } else {
      forall a, b | Around(s, a, t, b) ensures s != [] && Around(s[1..], a[1..], t, b) {
        assert a == [] ==> s == t + b;
      }
      if s != [] {
        ContainsMeans(s[1..], t);
        forall a, b | Around(s[1..], a, t, b) ensures Around(s, [s[0]] + a, t, b) {
          assert s == [s[0]] + s[1..];
        }
      }
    }
  }

  /** A device may be bound when its class can be read and is none of the three, and it does not
      itself sit behind the virtual controller; it is bound when its driver has the one name. */
  lemma ExportableMeans(d: Device)
    ensures Exportable(d) <==>
            && d.bDeviceClass.Some?
            && d.bDeviceClass.value != "" && d.bDeviceClass.value != "0" && d.bDeviceClass.value != "09"
            && !exists a, b :: Around(d.devpath, a, "vhci_hcd", b)
    ensures IsBound(d) <==> d.driver == Some("usbip-host")
  {
    if d.bDeviceClass.Some? {
      HubMeans(d.bDeviceClass.value);
    }
    ContainsMeans(d.devpath, "vhci_hcd");
  }

  /** The text of a command, cut after 35 characters. */
  lemma CommandText(busid: string)
    ensures |busid| <= 31 ==> Command(busid, true) == "add " + busid && Command(busid, false) == "del " + busid
    ensures |busid| > 31 ==>
              Command(busid, true) == "add " + busid[..31] && Command(busid, false) == "del " + busid[..31]
  {
  }

  /** The driver a probed device gets, when `driver` would take it. */
  function Probed(driver: Option<string>, matched: bool): (d: Option<string>)
    ensures d == Some(USBIP_HOST_DRV_NAME) ==> matched
  {
    if driver == Some(USBIP_HOST_DRV_NAME) && !matched then None else driver
  }

  /** The drivers that bind_device, but not unbind_device, takes for usbip-host: those whose name
      has more after it. */
  lemma OnlyLooksBound(driver: string)
    ensures LooksBound(Some(driver)) && driver != USBIP_HOST_DRV_NAME <==>
            exists more: string :: more != [] && driver == USBIP_HOST_DRV_NAME + more
  {
    if LooksBound(Some(driver)) && driver != USBIP_HOST_DRV_NAME {
      var more := driver[|USBIP_HOST_DRV_NAME|..];
      assert driver == USBIP_HOST_DRV_NAME + more;
      assert more != [] by {
        assert USBIP_HOST_DRV_NAME + [] == USBIP_HOST_DRV_NAME;
      }
    }
  }

  datatype UnbindStatus = Unbound | UsbipHost | UnbindFailed

  /** One machine. accepts says which writes succeed; probe is the driver that takes a device
      when it is probed again; history holds every state the machine has been in. */
  class Sysfs {
    var devices: map<string, Device>
    var matched: set<string>
    var writes: nat
    const accepts: nat -> bool
    const probe: (nat, string) -> Option<string>
    ghost var history: seq<View>

    ghost function Now(): View
      reads this
    {
      View(devices, matched)
    }

    /** At every moment so far a device bound to usbip-host was in the match list. */
    ghost predicate Valid()
      reads this
    {
      && IdsFit(devices) && history != [] && history[|history| - 1] == Now()
      && forall i | 0 <= i < |history| :: Ordered(history[i])
    }

    ghost predicate AllAccepted() {
      forall n: nat :: accepts(n)
    }

    constructor (devices: map<string, Device>, matched: set<string>, accepts: nat -> bool,
                 probe: (nat, string) -> Option<string>)
      requires IdsFit(devices) && Ordered(View(devices, matched))
      ensures Valid() && Now() == View(devices, matched)
      ensures this.accepts == accepts && this.probe == probe
    {
      this.devices, this.matched, this.writes := devices, matched, 0;
      this.accepts, this.probe := accepts, probe;
      history := [View(devices, matched)];
    }

    // ----- Kernel writes -----

    /** A write of busid to an unbind attribute. */
    method WriteUnbind(busid: string) returns (rc: int)
      requires Valid() && busid in devices
      modifies this
      ensures Valid() && old(history) <= history && matched == old(matched)
      ensures writes == old(writes) + 1 && rc == if accepts(old(writes)) then 0 else -1
      ensures devices == if rc == 0 then old(devices)[busid := old(devices)[busid].(driver := None)] else old(devices)
    {
      writes := writes + 1;
      if !accepts(writes - 1) {
        return -1;
      }
      devices := devices[busid := devices[busid].(driver := None)];
      history := history + [Now()];
      return 0;
    }

    /** A write of busid to the bind attribute of usbip-host. */
    method WriteBind(busid: string) returns (rc: int)
      requires Valid() && busid in devices && busid in matched
      modifies this
      ensures Valid() && old(history) <= history && matched == old(matched)
      ensures writes == old(writes) + 1 && rc == if accepts(old(writes)) then 0 else -1
      ensures var bound := old(devices)[busid].(driver := Some(USBIP_HOST_DRV_NAME));
        devices == if rc == 0 then old(devices)[busid := bound] else old(devices)
    {
      writes := writes + 1;
      if !accepts(writes - 1) {
        return -1;
      }
      devices := devices[busid := devices[busid].(driver := Some(USBIP_HOST_DRV_NAME))];
      history := history + [Now()];
      return 0;
    }

    /** A write of busid to the rebind attribute: the device is probed again, and usbip-host takes
        it only from the match list. */
    method WriteRebind(busid: string) returns (rc: int)
      requires Valid() && busid in devices
      modifies this
      ensures Valid() && old(history) <= history && matched == old(matched)
      ensures writes == old(writes) + 1 && rc == if accepts(old(writes)) then 0 else -1
      ensures var d := Probed(probe(old(writes), busid), busid in matched);
        devices == if rc == 0 then old(devices)[busid := old(devices)[busid].(driver := d)] else old(devices)
    {
      writes := writes + 1;
      if !accepts(writes - 1) {
        return -1;
      }
      var d := Probed(probe(writes - 1, busid), busid in matched);
      devices := devices[busid := devices[busid].(driver := d)];
      history := history + [Now()];
      return 0;
    }

    /** modify_match_busid. The kernel reads the command up to its end in the buffer, so of a longer
        bus id it takes the first 31 characters. */
    method ModifyMatchBusid(busid: string, add: bool) returns (rc: int)
      requires Valid()
      requires !add && InBuffer(busid) in devices ==> !IsBound(devices[InBuffer(busid)])
      modifies this
      ensures Valid() && old(history) <= history && devices == old(devices)
      ensures writes == old(writes) + 1 && rc == if accepts(old(writes)) then 0 else -1
      ensures matched == if rc != 0 then old(matched)
                         else if add then old(matched) + {InBuffer(busid)} else old(matched) - {InBuffer(busid)}
    {
      var command := Command(busid, add);
      writes := writes + 1;
      if !accepts(writes - 1) {
        return -1;
      }
      CommandIsUnderstood(busid, add, matched);
      matched := Matched(command, matched);
      history := history + [Now()];
      return 0;
    }

    // ----- The calls -----

    /** Only this device and its place in the match list differ. */
    twostate predicate OnlyChanges(busid: string)
      reads this
    {
      && devices.Keys == old(devices.Keys)
      && (forall b | b in devices && b != busid :: devices[b] == old(devices)[b])
      && (forall b | b != busid :: b in matched <==> b in old(matched))
      && (busid in devices ==> devices[busid] == old(devices)[busid].(driver := devices[busid].driver))
    }

    /** unbind_other */
    method UnbindOther(busid: string) returns (status: UnbindStatus)
      requires Valid()
      modifies this
      ensures Valid() && old(history) <= history && OnlyChanges(busid) && matched == old(matched)
      ensures status.Unbound? ==> busid in devices && devices[busid].driver == None
      ensures !status.Unbound? ==> devices == old(devices)
      ensures status.Unbound? ==> writes == old(writes) + if old(devices)[busid].driver == None then 0 else 1
      ensures (busid in devices && Exportable(devices[busid]) && !LooksBound(old(devices)[busid].driver)
               && accepts(old(writes))) ==> status.Unbound?
      ensures status.UsbipHost? ==> busid in devices && LooksBound(devices[busid].driver)
      ensures AllAccepted() ==>
                status == if busid !in devices || devices[busid].bDeviceClass == None
                             || IsHub(devices[busid].bDeviceClass.value) then UnbindFailed
                          else if LooksBound(old(devices)[busid].driver) then UsbipHost else Unbound
    {
      if busid !in devices {
        return UnbindFailed;
      }
      var dev := devices[busid];
      if dev.bDeviceClass == None {
        return UnbindFailed;
      }
      if IsHub(dev.bDeviceClass.value) {
        return UnbindFailed;
      }
      if dev.driver == None {
        return Unbound;
      }
      if USBIP_HOST_DRV_NAME <= dev.driver.value {
        return UsbipHost;
      }
      var rc := WriteUnbind(busid);
      if rc < 0 {
        return UnbindFailed;
      }
      return Unbound;
    }

    /** bind_device would reach its last write, have it refused, and have the rollback accepted. */
    ghost predicate OnlyBindRefused(busid: string)
      reads this
    {
      && busid in devices && Exportable(devices[busid]) && !LooksBound(devices[busid].driver)
      && var n := writes + (if devices[busid].driver == None then 0 else 1);
         (forall k | writes <= k <= n :: accepts(k)) && !accepts(n + 1) && accepts(n + 2)
    }

    /** bind_device */
    method BindDevice(busid: string) returns (ret: int)
      requires Valid()
      modifies this
      ensures Valid() && old(history) <= history && OnlyChanges(busid)
      ensures ret == 0 || ret == -1
      ensures ret == 0 ==> busid in devices && IsBound(devices[busid]) && busid in matched
      ensures ret == -1 && busid in devices ==> devices[busid].driver in {old(devices)[busid].driver, None}
      ensures AllAccepted() ==>
                (ret == 0 <==>
                   busid in devices && Exportable(devices[busid]) && !LooksBound(old(devices)[busid].driver))
      ensures AllAccepted() && ret == -1 ==> Now() == old(Now())
      ensures old(OnlyBindRefused(busid)) ==> devices[busid].driver == None && busid !in matched
    {
      if busid !in devices {
        return -1;
      }
      if Contains(devices[busid].devpath, USBIP_VHCI_DRV_NAME) {
        return -1;
      }
      var status := UnbindOther(busid);
      if status.UnbindFailed? {
        return -1;
      } else if status.UsbipHost? {
        return -1;
      }
      var rc := ModifyMatchBusid(busid, true);
      if rc < 0 {
        return -1;
      }
      rc := WriteBind(busid);
      if rc < 0 {
        rc := ModifyMatchBusid(busid, false);
        return -1;
      }
      return 0;
    }

    /** unbind_device */
    method UnbindDevice(busid: string) returns (ret: int)
      requires Valid()
      modifies this
      ensures Valid() && old(history) <= history && OnlyChanges(busid)
      ensures ret == 0 || ret == -1
      ensures ret == 0 ==>
                && busid in devices && IsBound(old(devices)[busid]) && !IsBound(devices[busid])
                && busid !in matched
      ensures busid in devices && !IsBound(old(devices)[busid]) ==> Now() == old(Now())
      ensures AllAccepted() ==> (ret == 0 <==> busid in devices && IsBound(old(devices)[busid]))
      ensures AllAccepted() && ret == 0 ==>
                devices[busid].driver == Probed(probe(old(writes) + 2, busid), false)
    {
      if busid !in devices {
        return -1;
      }
      if devices[busid].driver == None || devices[busid].driver.value != USBIP_HOST_DRV_NAME {
        return -1;
      }
      var rc := WriteUnbind(busid);
      if rc < 0 {
        return -1;
      }
      rc := ModifyMatchBusid(busid, false);
      if rc < 0 {
        return -1;
      }
      assert busid !in matched;
      rc := WriteRebind(busid);
      if rc < 0 {
        return -1;
      }
      assert !IsBound(devices[busid]);
      return 0;
    }

    /** The driver that bind_device finds in reset_bind_device, when no write fails. */
    ghost function DriverAtBind(busid: string): Option<string>
      requires busid in devices
      reads this
    {
      if IsBound(devices[busid]) then Probed(probe(writes + 2, busid), false) else devices[busid].driver
    }

    /** reset_bind_device. When no write fails it ends bound and matched exactly for a device that
        may be exported and whose driver by then is not one whose name only starts with usbip-host. */
    method ResetBindDevice(busid: string) returns (ret: int)
      requires Valid()
      modifies this
      ensures Valid() && old(history) <= history && OnlyChanges(busid)
      ensures ret == 0 || ret == -1
      ensures ret == 0 ==> busid in devices && IsBound(devices[busid]) && busid in matched
      ensures AllAccepted() ==>
                (ret == 0 <==> busid in devices && Exportable(devices[busid]) && !LooksBound(old(DriverAtBind(busid))))
      ensures AllAccepted() && old(NoLookalikes()) ==>
                NoLookalikes() && (ret == 0 <==> busid in devices && Exportable(devices[busid]))
      ensures AllAccepted() && ret == -1 && busid in devices && !IsBound(old(devices)[busid]) ==> Now() == old(Now())
    {
      var rc := UnbindDevice(busid);
      rc := BindDevice(busid);
      if rc < 0 {
        return -1;
      }
      return 0;
    }

    /** The devices with these bus ids, and their places in the match list, are the only ones that
        differ from this view. */
    ghost predicate OnlyThese(v: View, ids: set<string>)
      reads this
    {
      && devices.Keys == v.devices.Keys
      && forall b | b in devices && b !in ids :: devices[b] == v.devices[b] && (b in matched <==> b in v.matched)
    }

    /** Those of them that may be exported are. */
    ghost predicate Exported(ids: set<string>)
      reads this
    {
      NoLookalikes() &&
      forall b | b in ids && b in devices && Exportable(devices[b]) :: IsBound(devices[b]) && b in matched
    }

    /** The body of the loop of get_devices; ids are those of the devices reset before. */
    method GetAnother(l: Listed, ghost v: View, ghost ids: set<string>) returns (item: seq<Item>)
      requires Valid() && OnlyThese(v, ids)
      modifies this
      ensures Valid() && old(history) <= history && item == KeptItem(l)
      ensures OnlyThese(v, ids + KeptId(l))
      ensures AllAccepted() && old(Exported(ids)) ==> Exported(ids + KeptId(l))
    {
      if PassedOver(l) {
        assert ids + {} == ids;
        return [];
      }
      var rc := ResetBindDevice(l.busid);
      return [ItemOf(l)];
    }

    /** The loop of get_devices: every listed device but the ones passed over is reset, and its
        entry is added whether or not that worked. */
    method GetDevices(listed: seq<Listed>) returns (items: seq<Item>)
      requires Valid()
      modifies this
      ensures Valid() && old(history) <= history
      ensures items == Kept(listed)
      ensures OnlyThese(old(Now()), KeptIds(listed))
      ensures AllAccepted() && old(NoLookalikes()) ==> Exported(KeptIds(listed))
    {
      items := [];
      var i := 0;
      ghost var v := Now();
      while i < |listed|
        invariant 0 <= i <= |listed|
        invariant Valid() && old(history) <= history
        invariant items == Kept(listed[..i]) && OnlyThese(v, KeptIds(listed[..i]))
        invariant AllAccepted() && old(NoLookalikes()) ==> Exported(KeptIds(listed[..i]))
      {
        KeptNext(listed, i);
        var item := GetAnother(listed[i], v, KeptIds(listed[..i]));
        items := items + item;
        i := i + 1;
      }
      assert listed[..i] == listed;
    }

    /** No driver has a name that starts with usbip-host but is longer. */
    ghost predicate NoLookalikes()
      reads this
    {
      && (forall b | b in devices :: LooksBound(devices[b].driver) ==> IsBound(devices[b]))
      && forall n: nat, b: string :: LooksBound(probe(n, b)) ==> probe(n, b) == Some(USBIP_HOST_DRV_NAME)
    }
  }

  /** What udev says of a listed device; a missing attribute is None. */
  datatype Listed = Listed(path: string, busid: string, idVendor: string, idProduct: string,
                           bConfigurationValue: string, bNumInterfaces: string,
                           manufacturer: Option<string>, product: Option<string>)

  /** The values of an entry in the list handed out. */
  datatype Item = Item(path: string, busid: string, idVendor: string, idProduct: string,
                       bConfValue: string, bNumIntfs: string, manufact: string, product: string)

  /** pass_raspi_fast_ethernet */
  predicate PassedOver(l: Listed) {
    l.idProduct == "ec00" && l.idVendor == "0424"
  }

  function ItemOf(l: Listed): Item {
    Item(l.path, l.busid, l.idVendor, l.idProduct, l.bConfigurationValue, l.bNumInterfaces,
         if l.manufacturer.Some? then l.manufacturer.value else "Unknown",
         if l.product.Some? then l.product.value else "Unknown")
  }

  /** What a listed device adds to the list, and to the bus ids of the devices reset. */
  function KeptItem(l: Listed): seq<Item> {
    if PassedOver(l) then [] else [ItemOf(l)]
  }

  function KeptId(l: Listed): set<string> {
    if PassedOver(l) then {} else {l.busid}
  }

  function Kept(listed: seq<Listed>): seq<Item> {
    if listed == [] then [] else Kept(listed[..|listed| - 1]) + KeptItem(listed[|listed| - 1])
  }

  function KeptIds(listed: seq<Listed>): set<string> {
    if listed == [] then {} else KeptIds(listed[..|listed| - 1]) + KeptId(listed[|listed| - 1])
  }

  lemma KeptNext(listed: seq<Listed>, i: nat)
    requires i < |listed|
    ensures Kept(listed[..i + 1]) == Kept(listed[..i]) + KeptItem(listed[i])
    ensures KeptIds(listed[..i + 1]) == KeptIds(listed[..i]) + KeptId(listed[i])
  {
    assert listed[..i + 1][..i] == listed[..i];
  }

  /** The places of the devices not passed over. */
  function KeptPlaces(listed: seq<Listed>): (idx: seq<int>)
    ensures forall j, k | 0 <= j < k < |idx| :: idx[j] < idx[k]
    ensures forall k | 0 <= k < |idx| :: 0 <= idx[k] < |listed|
    ensures forall i | 0 <= i < |listed| ::
              i in idx <==> !(listed[i].idVendor == "0424" && listed[i].idProduct == "ec00")
  {
    if listed == [] then []
    else
      var n := |listed| - 1;
      assert forall i | 0 <= i < n :: listed[..n][i] == listed[i];
      KeptPlaces(listed[..n]) + if listed[n].idVendor == "0424" && listed[n].idProduct == "ec00" then [] else [n]
  }

  lemma {:induction false} KeptAt(listed: seq<Listed>, k: nat)
    ensures |Kept(listed)| == |KeptPlaces(listed)|
    ensures k < |Kept(listed)| ==> Kept(listed)[k] == ItemOf(listed[KeptPlaces(listed)[k]])
  {
    if listed != [] {
      KeptAt(listed[..|listed| - 1], k);
    }
  }

  /** The list handed out has an entry for each of these places and no other, in order, and each
      entry shows its device. */
  lemma KeptAre(listed: seq<Listed>)
    ensures |Kept(listed)| == |KeptPlaces(listed)|
    ensures forall k | 0 <= k < |Kept(listed)| :: Shows(Kept(listed)[k], listed[KeptPlaces(listed)[k]])
  {
    KeptAt(listed, 0);
    forall k | 0 <= k < |Kept(listed)| ensures Shows(Kept(listed)[k], listed[KeptPlaces(listed)[k]]) {
      KeptAt(listed, k);
    }
  }

  /** Their bus ids are those of the listed devices but the one adapter. */
  lemma {:induction false} KeptIdsAre(listed: seq<Listed>, b: string)
    ensures b in KeptIds(listed) <==>
            exists i :: 0 <= i < |listed| && listed[i].busid == b &&
                        !(listed[i].idVendor == "0424" && listed[i].idProduct == "ec00")
  {
    if listed != [] {
      var n := |listed| - 1;
      KeptIdsAre(listed[..n], b);
      assert forall i | 0 <= i < n :: listed[..n][i] == listed[i];
    }
  }

  /** An entry has the values of its device, and says Unknown for the two that can be missing. */
  predicate Shows(item: Item, l: Listed) {
    && item.path == l.path && item.busid == l.busid
    && item.idVendor == l.idVendor && item.idProduct == l.idProduct
    && item.bConfValue == l.bConfigurationValue && item.bNumIntfs == l.bNumInterfaces
    && (l.manufacturer.Some? ==> item.manufact == l.manufacturer.value)
    && (l.manufacturer.None? ==> item.manufact == "Unknown")
    && (l.product.Some? ==> item.product == l.product.value)
    && (l.product.None? ==> item.product == "Unknown")
  }

  const LOOKALIKE := USBIP_HOST_DRV_NAME + "-x"

  /** reset_bind_device on a device whose driver only looks like usbip-host: it fails and leaves the
      device with that driver, although no write fails. */
  method ResetLookalike(busid: string, probe: (nat, string) -> Option<string>)
    returns (ret: int, driver: Option<string>)
    requires |busid| <= BUS_ID_MAX
    ensures ret == -1 && driver == Some(LOOKALIKE)
  {
    var dev := Device("/devices/" + busid, Some("00"), Some(LOOKALIKE));
    var sysfs := new Sysfs(map[busid := dev], {}, _ => true, probe);
    OnlyLooksBound(LOOKALIKE);
    ret := sysfs.ResetBindDevice(busid);
    driver := sysfs.devices[busid].driver;
  }
}
