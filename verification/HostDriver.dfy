/** usbip_host_common.c: the list of devices the server can export. */
module HostDriver {
  import opened Wrappers
  import opened Ring

  /** One entry of the udev enumeration, with everything the code reads through udev:
      gone when it can no longer be opened, otherwise whether it uses the usbip driver and,
      when it does, the exported-device record, None if reading it failed. */
  datatype Enumerated<T> = Gone | Present(mine: bool, record: Option<T>)

  /** The record an enumerated device contributes, if it is accepted. */
  function AcceptedRecord<T>(d: Enumerated<T>): seq<T> {
    if d.Present? && d.mine && d.record.Some? then [d.record.value] else []
  }

  /** The records of the accepted devices, in enumeration order. */
  function Accepted<T>(devices: seq<Enumerated<T>>): (r: seq<T>)
    ensures |r| <= |devices|
  {
    if devices == [] then []
    else AcceptedRecord(devices[0]) + Accepted(devices[1..])
  }

  function Reversed<T>(s: seq<T>): (r: seq<T>)
    ensures |r| == |s|
    ensures forall i | 0 <= i < |s| :: r[i] == s[|s| - 1 - i]
  {
    if s == [] then [] else Reversed(s[1..]) + [s[0]]
  }

  /** The list after each device of the enumeration has been put at its front. */
  function Pushed<T>(devices: seq<Enumerated<T>>, list: seq<T>): seq<T> {
    if devices == [] then list else Pushed(devices[1..], AcceptedRecord(devices[0]) + list)
  }

  /** Pushing at the front lists the accepted devices in reverse enumeration order. */
  lemma {:induction false} PushedReverses<T>(devices: seq<Enumerated<T>>, list: seq<T>)
    ensures Pushed(devices, list) == Reversed(Accepted(devices)) + list
  {
    if devices != [] {
      var first, rest := AcceptedRecord(devices[0]), Accepted(devices[1..]);
      PushedReverses(devices[1..], first + list);
      ReversedFirst(first, rest);
      Regroup(Reversed(rest), first, list);
    }
  }

  lemma Regroup<T>(a: seq<T>, b: seq<T>, c: seq<T>)
    ensures a + (b + c) == a + b + c
  {
  }

  lemma ReversedFirst<T>(first: seq<T>, rest: seq<T>)
    requires |first| <= 1
    ensures Reversed(first + rest) == Reversed(rest) + first
  {
    if first == [] {
      assert first + rest == rest;
    } else {
      assert (first + rest)[1..] == rest;
    }
  }

  predicate Descending(idx: seq<int>) {
    forall j, k | 0 <= j < k < |idx| :: idx[j] > idx[k]
  }

  /** Entry i opens, uses the driver and has a record. */
  predicate Usable<T>(devices: seq<Enumerated<T>>, i: int) {
    0 <= i < |devices| && devices[i].Present? && devices[i].mine && devices[i].record.Some?
  }

  ghost predicate TakenFrom<T>(list: seq<T>, devices: seq<Enumerated<T>>, idx: seq<int>) {
    |idx| == |list|
    && forall k | 0 <= k < |idx| :: 0 <= idx[k] < |devices| && devices[idx[k]] == Present(true, Some(list[k]))
  }

  /** The list holds the records of the entries that open, use the driver and have a record: the
      k-th is that of entry idx[k], the last such entry comes first, and none is missing. */
  ghost predicate ListsAt<T>(list: seq<T>, devices: seq<Enumerated<T>>, idx: seq<int>) {
    Descending(idx) && TakenFrom(list, devices, idx) && forall i | Usable(devices, i) :: i in idx
  }

  lemma {:induction false} AcceptedAre<T>(devices: seq<Enumerated<T>>) returns (idx: seq<int>)
    ensures ListsAt(Reversed(Accepted(devices)), devices, idx)
  {
    idx := [];
    if devices != [] {
      var list := Reversed(Accepted(devices[1..]));
      var below := AcceptedAre(devices[1..]);
      ReversedFirst(AcceptedRecord(devices[0]), Accepted(devices[1..]));
      idx := ShiftedPlaces(devices, list, below);
    }
  }

  function Shifted(idx: seq<int>): (up: seq<int>)
    ensures |up| == |idx| && forall k | 0 <= k < |idx| :: up[k] == idx[k] + 1
  {
    seq(|idx|, k requires 0 <= k < |idx| => idx[k] + 1)
  }

  lemma ShiftedTaken<T>(list: seq<T>, devices: seq<Enumerated<T>>, below: seq<int>)
    requires devices != [] && TakenFrom(list, devices[1..], below)
    ensures TakenFrom(list, devices, Shifted(below)) && forall k | 0 <= k < |below| :: Shifted(below)[k] > 0
  {
    forall k | 0 <= k < |below|
      ensures 0 < Shifted(below)[k] < |devices| && devices[Shifted(below)[k]] == Present(true, Some(list[k]))
    {
      assert devices[1..][below[k]] == devices[below[k] + 1];
    }
  }

  lemma ShiftedComplete<T>(devices: seq<Enumerated<T>>, below: seq<int>, i: int)
    requires i > 0 && Usable(devices, i) && forall j | Usable(devices[1..], j) :: j in below
    ensures i in Shifted(below)
  {
    assert Usable(devices[1..], i - 1);
    var k :| 0 <= k < |below| && below[k] == i - 1;
    assert Shifted(below)[k] == i;
  }

  lemma ShiftedPlaces<T>(devices: seq<Enumerated<T>>, list: seq<T>, below: seq<int>) returns (idx: seq<int>)
    requires devices != [] && ListsAt(list, devices[1..], below)
    ensures ListsAt(list + AcceptedRecord(devices[0]), devices, idx)
  {
    var up := Shifted(below);
    ShiftedTaken(list, devices, below);
    forall i | i > 0 && Usable(devices, i) ensures i in up {
      ShiftedComplete(devices, below, i);
    }
    if Usable(devices, 0) {
      idx := up + [0];
      forall i | Usable(devices, i) ensures i in idx {
        assert i in up || idx[|up|] == i;
      }
    } else {
      idx := up;
      assert list + [] == list;
    }
  }

  /** A record is listed exactly when some entry opens, uses the driver and has that record, as
      often as there are such entries, and the last of them first. */
  lemma ListedExactly<T>(devices: seq<Enumerated<T>>, r: T)
    ensures exists idx :: ListsAt(Reversed(Accepted(devices)), devices, idx)
    ensures r in Reversed(Accepted(devices)) <==> Present(true, Some(r)) in devices
  {
    var list := Reversed(Accepted(devices));
    var idx := AcceptedAre(devices);
    if Present(true, Some(r)) in devices {
      var i :| 0 <= i < |devices| && devices[i] == Present(true, Some(r));
      assert Usable(devices, i);
      var k :| 0 <= k < |idx| && idx[k] == i;
      assert list[k] == r;
    }
  }

  /** The structures the nodes are embedded in. */
  function Entries<T>(nodes: seq<ListHead<T>>): (r: seq<T>)
    requires forall n | n in nodes :: n.entry.Some?
    ensures |r| == |nodes|
    ensures forall i | 0 <= i < |nodes| :: r[i] == nodes[i].entry.value
  {
    if nodes == [] then []
    else
      assert nodes[0] in nodes && forall n | n in nodes[1..] :: n in nodes;
      [nodes[0].entry.value] + Entries(nodes[1..])
  }

  /** The nodes' links must not be followed any more. */
  ghost predicate Poisoned<T>(nodes: seq<ListHead<T>>)
    reads nodes
  {
    forall n | n in nodes :: n.next == null && n.prev == null
  }

  class Driver<T> {
    var ndevs: int
    const edev_list: ListHead<T>
    ghost var members: seq<ListHead<T>>
    ghost var repr: set<ListHead<T>>

    ghost predicate Valid()
      reads this, edev_list, repr
    {
      && (forall n | n in members :: n in repr && n.entry.Some?)
      && IsList(edev_list, members)
    }

    /** The exported devices in list order. */
    ghost function Devices(): (r: seq<T>)
      requires Valid()
      reads this, edev_list, repr
      ensures |r| == |members|
    {
      Entries(members)
    }

    constructor ()
      ensures Valid() && fresh(edev_list) && ndevs == 0 && Devices() == []
    {
      ndevs := 0;
      edev_list := new ListHead(None);
      members, repr := [], {};
      new;
      InitListHead(edev_list);
    }

    /** The loop body of refresh_exported_devices: list_add puts an accepted device at the front. */
    method Consider(dev: Enumerated<T>)
      requires Valid()
      modifies this, edev_list, repr
      ensures Valid() && repr >= old(repr) && fresh(repr - old(repr))
      ensures Devices() == AcceptedRecord(dev) + old(Devices())
      ensures ndevs - |Devices()| == old(ndevs - |Devices()|)
      ensures match dev
              case Present(true, Some(r)) => Devices() == [r] + old(Devices()) && ndevs == old(ndevs) + 1
              case _ => Devices() == old(Devices()) && ndevs == old(ndevs)
    {
      if dev == Gone {
        return;
      }
      if dev.mine {
        if dev.record == None {
          return;
        }
        var edev := new ListHead(dev.record);
        AddFirst(edev);
        ndevs := ndevs + 1;
      }
    }

    /** list_add of a new node. */
    method AddFirst(edev: ListHead<T>)
      requires Valid() && edev !in repr && edev != edev_list && edev.entry.Some?
      modifies this`members, this`repr, edev, edev_list, repr
      ensures Valid() && repr == old(repr) + {edev} && members == [edev] + old(members)
      ensures Devices() == [edev.entry.value] + old(Devices())
    {
      Successor(edev_list, members);
      ListAdd(edev, edev_list, members);
      assert ([edev] + members)[1..] == members;
      members, repr := [edev] + members, repr + {edev};
    }

    /** refresh_exported_devices */
    method RefreshExportedDevices(devices: seq<Enumerated<T>>)
      requires Valid()
      modifies this, edev_list, repr
      ensures Valid() && repr >= old(repr) && fresh(repr - old(repr))
      ensures Devices() == Reversed(Accepted(devices)) + old(Devices())
      ensures ndevs - |Devices()| == old(ndevs - |Devices()|)
    {
      PushedReverses(devices, Devices());
      var rest := devices;
      while rest != []
        invariant Valid() && repr >= old(repr) && fresh(repr - old(repr))
        invariant Pushed(rest, Devices()) == Pushed(devices, old(Devices()))
        invariant ndevs - |Devices()| == old(ndevs - |Devices()|)
      {
        Consider(rest[0]);
        rest := rest[1..];
      }
    }

    /** These nodes are off the list. */
    ghost predicate Apart(gone: seq<ListHead<T>>)
      reads this
    {
      forall n | n in gone :: n !in members && n != edev_list
    }

    /** list_del on the first member; nodes unlinked before stay as they are. next is the node that
        followed it. */
    method UnlinkFirst(i: ListHead<T>, ghost next: ListHead<T>, ghost gone: seq<ListHead<T>>)
      requires Valid() && members != [] && i == members[0] && next == NodeAt(edev_list, members, 1)
      requires Apart(gone) && Poisoned(gone)
      modifies this`members, edev_list, repr
      ensures Valid() && members == old(members)[1..]
      ensures Apart(gone) && Poisoned(gone)
      ensures i !in members && i != edev_list && i.next == null && i.prev == null
    {
      FirstLinks(edev_list, members);
      assert members[0] in members && (|members| > 1 ==> members[1] in members);
      assert i.prev == edev_list && i.next == next;
      assert forall n | n in gone :: n != i && n != next && n != edev_list;
      ListDel(i, edev_list, members, 0);
      assert members[..0] + members[1..] == members[1..];
      members := members[1..];
    }

    /** usbip_exported_device_destroy: the walk that tolerates removal of the node it is on.
        freed lists the nodes in the order they were unlinked and freed. */
    method ExportedDeviceDestroy() returns (freed: seq<ListHead<T>>)
      requires Valid()
      modifies this`members, edev_list, repr
      ensures Valid() && members == [] && freed == old(members) && Poisoned(freed)
    {
      ghost var all := members;
      freed := [];
      FirstLinks(edev_list, members);
      var i := edev_list.next;
      var tmp := i.next;
      while i != edev_list
        invariant Valid() && Apart(freed) && Poisoned(freed)
        invariant |freed| <= |all| && freed == all[..|freed|] && members == all[|freed|..]
        invariant i == NodeAt(edev_list, members, 0) && (i == edev_list <==> members == [])
        invariant members != [] ==> tmp == NodeAt(edev_list, members, 1)
        decreases |members|
      {
        UnlinkFirst(i, tmp, freed);
        freed := freed + [i];
        i := tmp;
        FirstLinks(edev_list, members);
        tmp := i.next;
      }
    }

    /** usbip_generic_driver_close: the list is emptied, ndevs keeps its value. */
    method Close()
      requires Valid()
      modifies this`members, edev_list, repr
      ensures Valid() && Devices() == [] && ndevs == old(ndevs)
    {
      var freed := ExportedDeviceDestroy();
    }

    /** usbip_generic_refresh_device_list. */
    method GenericRefreshDeviceList(devices: seq<Enumerated<T>>)
      requires Valid()
      modifies this, edev_list, repr
      ensures Valid() && repr >= old(repr) && fresh(repr - old(repr))
      ensures Devices() == Reversed(Accepted(devices))
      ensures exists idx :: ListsAt(Devices(), devices, idx)
      ensures ndevs == |Devices()|
    {
      var freed := ExportedDeviceDestroy();
      ndevs := 0;
      InitListHead(edev_list);
      RefreshExportedDevices(devices);
      ghost var idx := AcceptedAre(devices);
    }

    /** pos is where a walk over the list stands before its k-th device. */
    ghost predicate StandsAt(pos: ListHead<T>, k: nat)
      reads this
    {
      && k <= |members| && pos == NodeAt(edev_list, members, k)
      && (pos == edev_list <==> k == |members|)
    }

    /** list_for_each over edev_list: its start, and one step with the device it passes. */
    method Begin() returns (pos: ListHead<T>)
      requires Valid()
      ensures StandsAt(pos, 0)
    {
      pos := First(edev_list, members);
    }

    method Step(pos: ListHead<T>, ghost k: nat) returns (edev: T, pos': ListHead<T>)
      requires Valid() && StandsAt(pos, k) && k < |members|
      ensures edev == Devices()[k] && StandsAt(pos', k + 1)
    {
      assert members[k] in members;
      edev := pos.entry.value;
      pos' := Next(pos, edev_list, members, k);
    }

    /** usbip_generic_get_device */
    method GenericGetDevice(num: int) returns (edev: Option<T>)
      requires Valid()
      ensures edev == if 0 <= num < |Devices()| then Some(Devices()[num]) else None
    {
      var cnt := 0;
      var i := Begin();
      while i != edev_list
        invariant StandsAt(i, cnt) && (cnt <= num || num < 0)
        decreases |members| - cnt
      {
        var e, next := Step(i, cnt);
        if num == cnt {
          return Some(e);
        }
        cnt, i := cnt + 1, next;
      }
      return None;
    }
  }
}
