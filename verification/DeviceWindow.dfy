/** The device list of the window (usbip_app_win.c): joined with each new discovery result, and
    changed row by row by its buttons. Widgets are left out but for the label of a row's button. */
module DeviceWindow {
  import opened Wrappers
  import Ports

  const ATTACH := "Attach"
  const DETACH := "Detach"

  /** What discovery says of a device; a missing key is None. */
  datatype Found = Found(busid: Option<string>, product: Option<string>, idVendor: Option<string>,
                         idProduct: Option<string>, manufact: Option<string>)

  /** A node of the result and its devices; None is a value that is not an array. */
  datatype Node = Node(addr: string, devices: Option<seq<Found>>)

  /** The values of a UsbDesc; attachable is its state. */
  datatype Row = Row(addr: string, info: Found, attachable: bool, port: Option<string>)

  predicate SameDevice(a: Row, b: Row) {
    a.addr == b.addr && a.info.busid == b.info.busid
  }

  // ----- Refresh on values -----

  function SetDevState(was: Row, dev: Row): Row {
    if SameDevice(was, dev) && !was.attachable then dev.(attachable := false, port := was.port) else dev
  }

  /** g_list_foreach with set_dev_state. */
  function Joined(olds: seq<Row>, row: Row): Row {
    if olds == [] then row
    else
      var n := |olds| - 1;
      SetDevState(olds[n], Joined(olds[..n], row))
  }

  function NewRow(addr: string, f: Found): Row {
    Row(addr, f, true, None)
  }

  function NodeRows(olds: seq<Row>, addr: string, devices: seq<Found>): (rows: seq<Row>)
    ensures |rows| == |devices|
  {
    if devices == [] then []
    else
      var n := |devices| - 1;
      NodeRows(olds, addr, devices[..n]) + [Joined(olds, NewRow(addr, devices[n]))]
  }

  lemma NextNodeRow(olds: seq<Row>, addr: string, devices: seq<Found>, n: nat)
    requires n < |devices|
    ensures NodeRows(olds, addr, devices[..n + 1]) ==
            NodeRows(olds, addr, devices[..n]) + [Joined(olds, NewRow(addr, devices[n]))]
  {
    assert devices[..n + 1][..n] == devices[..n];
  }

  /** A value that is not an array adds nothing. */
  function DevicesOf(node: Node): seq<Found> {
    if node.devices == None then [] else node.devices.value
  }

  lemma NextNode(olds: seq<Row>, result: seq<Node>, n: nat)
    requires n < |result|
    ensures Refreshed(olds, result[..n + 1]) ==
            Refreshed(olds, result[..n]) + NodeRows(olds, result[n].addr, DevicesOf(result[n]))
  {
    assert result[..n + 1][..n] == result[..n];
  }

  function Refreshed(olds: seq<Row>, result: seq<Node>): seq<Row>
    decreases |result|
  {
    if result == [] then []
    else
      var n := |result| - 1;
      Refreshed(olds, result[..n]) + NodeRows(olds, result[n].addr, DevicesOf(result[n]))
  }

  // ----- What a refresh keeps -----

  /** Row i is an attached row of the same device. */
  predicate Carries(olds: seq<Row>, i: int, row: Row) {
    0 <= i < |olds| && SameDevice(olds[i], row) && !olds[i].attachable
  }

  /** The last such row among the first n, or -1. */
  function LastAttached(olds: seq<Row>, row: Row, n: nat): (i: int)
    requires n <= |olds|
    ensures -1 <= i < n && (i >= 0 ==> Carries(olds, i, row))
    ensures forall k | i < k < n :: !Carries(olds, k, row)
  {
    if n == 0 then -1 else if Carries(olds, n - 1, row) then n - 1 else LastAttached(olds, row, n - 1)
  }

  function Given(olds: seq<Row>, row: Row, i: int): Row
    requires -1 <= i < |olds|
  {
    if i == -1 then row else row.(attachable := false, port := olds[i].port)
  }

  lemma {:induction false} JoinedFirst(olds: seq<Row>, row: Row, n: nat)
    requires n <= |olds|
    ensures Joined(olds[..n], row) == Given(olds, row, LastAttached(olds, row, n))
  {
    if n > 0 {
      assert olds[..n][..n - 1] == olds[..n - 1];
      JoinedFirst(olds, row, n - 1);
    }
  }

  /** A new row is attached exactly when some old row of the same device was, and has the port of
      the last such row; its other values are those found. */
  lemma JoinedIs(olds: seq<Row>, row: Row)
    requires row.attachable && row.port == None
    ensures var j := Joined(olds, row);
      && j == row.(attachable := j.attachable, port := j.port)
      && (!j.attachable <==> exists i :: Carries(olds, i, row))
      && (j.attachable ==> j.port == None)
      && (forall i | Carries(olds, i, row) && (forall k | i < k < |olds| :: !Carries(olds, k, row)) ::
            j.port == olds[i].port)
  {
    JoinedFirst(olds, row, |olds|);
    assert olds[..|olds|] == olds;
    var last := LastAttached(olds, row, |olds|);
    forall i | Carries(olds, i, row) && (forall k | i < k < |olds| :: !Carries(olds, k, row)) ensures i == last {
    }
  }

  /** The state and port of every row are those the old rows give its device. */
  predicate JoinOf(rows: seq<Row>, olds: seq<Row>) {
    forall i | 0 <= i < |rows| :: rows[i] == Joined(olds, NewRow(rows[i].addr, rows[i].info))
  }

  lemma {:induction false} NodeRowsJoin(olds: seq<Row>, addr: string, devices: seq<Found>)
    ensures JoinOf(NodeRows(olds, addr, devices), olds)
    ensures forall i | 0 <= i < |devices| ::
              NodeRows(olds, addr, devices)[i].addr == addr && NodeRows(olds, addr, devices)[i].info == devices[i]
  {
    if devices != [] {
      var n := |devices| - 1;
      NodeRowsJoin(olds, addr, devices[..n]);
      StateFixesRow(olds, NewRow(addr, devices[n]));
    }
  }

  lemma {:induction false} RefreshedJoin(olds: seq<Row>, result: seq<Node>)
    ensures JoinOf(Refreshed(olds, result), olds)
    decreases |result|
  {
    if result != [] {
      var n := |result| - 1;
      RefreshedJoin(olds, result[..n]);
      NodeRowsJoin(olds, result[n].addr, DevicesOf(result[n]));
    }
  }

  /** The devices a result lists, in order. */
  function Listing(result: seq<Node>): seq<(string, Found)>
    decreases |result|
  {
    if result == [] then []
    else
      var n := |result| - 1;
      Listing(result[..n]) +
      if result[n].devices.Some? then NodeListing(result[n].addr, result[n].devices.value) else []
  }

  function NodeListing(addr: string, devices: seq<Found>): (r: seq<(string, Found)>)
    ensures |r| == |devices| && forall i | 0 <= i < |devices| :: r[i] == (addr, devices[i])
  {
    seq(|devices|, i requires 0 <= i < |devices| => (addr, devices[i]))
  }

  /** A refresh shows exactly the devices of the result, in their order. */
  lemma {:induction false} RefreshedLists(olds: seq<Row>, result: seq<Node>)
    ensures |Refreshed(olds, result)| == |Listing(result)|
    ensures forall i | 0 <= i < |Listing(result)| ::
              Listing(result)[i] == (Refreshed(olds, result)[i].addr, Refreshed(olds, result)[i].info)
    decreases |result|
  {
    if result != [] {
      var n := |result| - 1;
      RefreshedLists(olds, result[..n]);
      NodeRowsJoin(olds, result[n].addr, DevicesOf(result[n]));
    }
  }

  /** The k-th device listed is that of the row. */
  predicate IsListed(result: seq<Node>, k: int, row: Row) {
    && 0 <= k < |Listing(result)|
    && Listing(result)[k].0 == row.addr && Listing(result)[k].1.busid == row.info.busid
  }

  lemma {:induction false} SameLast(olds: seq<Row>, a: Row, b: Row, n: nat)
    requires n <= |olds| && SameDevice(a, b)
    ensures LastAttached(olds, a, n) == LastAttached(olds, b, n)
  {
    if n > 0 && !Carries(olds, n - 1, a) {
      SameLast(olds, a, b, n - 1);
    }
  }

  /** The new rows of an attached device are attached and have the port of its last attached row. */
  lemma RowOfAttached(olds: seq<Row>, result: seq<Node>, i: nat, j: nat)
    requires i < |olds| && !olds[i].attachable
    requires j < |Refreshed(olds, result)| && SameDevice(Refreshed(olds, result)[j], olds[i])
    ensures var last := LastAttached(olds, olds[i], |olds|);
      && i <= last && !Refreshed(olds, result)[j].attachable
      && Refreshed(olds, result)[j].port == olds[last].port
  {
    var rows := Refreshed(olds, result);
    RefreshedJoin(olds, result);
    var row := NewRow(rows[j].addr, rows[j].info);
    JoinedFirst(olds, row, |olds|);
    assert olds[..|olds|] == olds;
    SameLast(olds, row, olds[i], |olds|);
    assert Carries(olds, i, olds[i]);
  }

  /** An attached device keeps an attached row exactly when the result lists it, and then with the
      port of its last attached row. */
  lemma AttachedSurvives(olds: seq<Row>, result: seq<Node>, i: nat)
    requires i < |olds| && !olds[i].attachable
    ensures (exists j :: Carries(Refreshed(olds, result), j, olds[i])) <==> exists k :: IsListed(result, k, olds[i])
    ensures forall j :: Carries(Refreshed(olds, result), j, olds[i]) ==>
              var last := LastAttached(olds, olds[i], |olds|);
              i <= last && Refreshed(olds, result)[j].port == olds[last].port
  {
    var rows := Refreshed(olds, result);
    RefreshedLists(olds, result);
    forall j | Carries(rows, j, olds[i])
      ensures IsListed(result, j, olds[i])
      ensures var last := LastAttached(olds, olds[i], |olds|); i <= last && rows[j].port == olds[last].port
    {
      RowOfAttached(olds, result, i, j);
    }
    forall k | IsListed(result, k, olds[i]) ensures Carries(rows, k, olds[i]) {
      RowOfAttached(olds, result, i, k);
    }
  }

  lemma OneNode(olds: seq<Row>, node: Node)
    ensures Refreshed(olds, [node]) == NodeRows(olds, node.addr, DevicesOf(node))
  {
    var rows := NodeRows(olds, node.addr, DevicesOf(node));
    assert [node][..0] == [];
    assert Refreshed(olds, [node]) == [] + rows;
    assert [] + rows == rows;
  }

  /** The node of the one attached device now lists another device: no row has the port any more. */
  lemma RowForgotten(row: Row, other: Found)
    requires !row.attachable && other.busid != row.info.busid
    ensures Refreshed([row], [Node(row.addr, Some([other]))]) == [NewRow(row.addr, other)]
  {
    var added := NewRow(row.addr, other);
    OneNode([row], Node(row.addr, Some([other])));
    NodeRowsJoin([row], row.addr, [other]);
    JoinedFirst([row], added, 1);
    assert [row][..1] == [row];
    assert LastAttached([row], added, 1) == -1;
  }

  /** Rows that were themselves joined with olds give a device they list what olds gives it. */
  lemma JoinTwice(olds: seq<Row>, rows: seq<Row>, row: Row, i: nat)
    requires JoinOf(rows, olds) && row.attachable && row.port == None
    requires i < |rows| && SameDevice(rows[i], row)
    ensures Joined(rows, row) == Joined(olds, row)
  {
    var j := Joined(olds, row);
    StateFixesRow(olds, row);
    JoinedFirst(rows, row, |rows|);
    assert rows[..|rows|] == rows;
    forall k | 0 <= k < |rows| && SameDevice(rows[k], row)
      ensures rows[k].attachable == j.attachable && rows[k].port == j.port
    {
      SameJoin(olds, NewRow(rows[k].addr, rows[k].info), row);
    }
    if !j.attachable {
      assert Carries(rows, i, row);
    }
  }

  lemma StateFixesRow(olds: seq<Row>, row: Row)
    requires row.attachable && row.port == None
    ensures var j := Joined(olds, row);
      j == row.(attachable := j.attachable, port := j.port) && (j.attachable ==> j == row)
  {
    JoinedIs(olds, row);
  }

  lemma {:induction false} SameJoin(olds: seq<Row>, a: Row, b: Row)
    requires SameDevice(a, b) && a.attachable == b.attachable && a.port == b.port
    ensures Joined(olds, a).attachable == Joined(olds, b).attachable && Joined(olds, a).port == Joined(olds, b).port
    ensures SameDevice(Joined(olds, a), a) && SameDevice(Joined(olds, b), b)
  {
    if olds != [] {
      SameJoin(olds[..|olds| - 1], a, b);
    }
  }

  lemma {:induction false} NodeAgain(olds: seq<Row>, rows: seq<Row>, addr: string, devices: seq<Found>)
    requires JoinOf(rows, olds)
    requires forall x | x in NodeRows(olds, addr, devices) :: x in rows
    ensures NodeRows(rows, addr, devices) == NodeRows(olds, addr, devices)
  {
    if devices != [] {
      var n := |devices| - 1;
      var row := NewRow(addr, devices[n]);
      NodeAgain(olds, rows, addr, devices[..n]);
      var j := Joined(olds, row);
      assert j == NodeRows(olds, addr, devices)[n] && j in rows;
      SameJoin(olds, row, row);
      var i :| 0 <= i < |rows| && rows[i] == j;
      JoinTwice(olds, rows, row, i);
    }
  }

  lemma {:induction false} RefreshAgain(olds: seq<Row>, rows: seq<Row>, result: seq<Node>)
    requires JoinOf(rows, olds)
    requires forall x | x in Refreshed(olds, result) :: x in rows
    ensures Refreshed(rows, result) == Refreshed(olds, result)
    decreases |result|
  {
    if result != [] {
      var n := |result| - 1;
      RefreshAgain(olds, rows, result[..n]);
      NodeAgain(olds, rows, result[n].addr, DevicesOf(result[n]));
    }
  }

  /** Refreshing twice with the same result is refreshing once. */
  lemma RefreshTwice(olds: seq<Row>, result: seq<Node>)
    ensures Refreshed(Refreshed(olds, result), result) == Refreshed(olds, result)
  {
    RefreshedJoin(olds, result);
    RefreshAgain(olds, Refreshed(olds, result), result);
  }

  // ----- The window -----

  /** A row shows Attach exactly when it is attachable and has no port; a port is the text of a
      number below 256. */
  ghost predicate Consistent(row: Row, text: string) {
    && (text == ATTACH || text == DETACH)
    && (row.attachable <==> text == ATTACH)
    && (row.attachable <==> row.port == None)
    && (row.port != None ==> IsPort(row.port.value))
  }

  lemma ButtonText(row: Row, text: string)
    requires Consistent(row, text)
    ensures text == if row.attachable then "Attach" else "Detach"
  {
  }

  ghost predicate IsPort(s: string) {
    exists n: nat :: n < 256 && s == Ports.Decimal(n)
  }

  /** detach_port reads from a row's port the number that attach_device returned. */
  lemma PortOfRow(row: Row, text: string)
    requires Consistent(row, text) && !row.attachable
    ensures Ports.AllDigits(row.port.value) && Ports.Decimal(Ports.PortNumber(row.port.value)) == row.port.value
  {
    var n: nat :| n < 256 && row.port.value == Ports.Decimal(n);
    Ports.PortReadsBack(n);
  }

  class UsbDesc {
    const addr: string
    const info: Found
    var attachable: bool
    var port: Option<string>

    constructor (addr: string, info: Found)
      ensures Now() == NewRow(addr, info)
    {
      this.addr, this.info := addr, info;
      attachable, port := true, None;
    }

    ghost function Now(): Row
      reads this
    {
      Row(addr, info, attachable, port)
    }
  }

  /** set_dev_state; dev is the row that is being built. */
  method SetState(was: UsbDesc, dev: UsbDesc)
    requires was != dev
    modifies dev
    ensures dev.Now() == SetDevState(old(was.Now()), old(dev.Now()))
  {
    var sameAddr, sameBusid := false, false;
    if was.addr == dev.addr {
      sameAddr := true;
    }
    if was.info.busid == dev.info.busid {
      sameBusid := true;
    }
    if sameAddr && sameBusid && !was.attachable {
      dev.attachable := false;
      dev.port := was.port;
    }
  }

  /** The list and its buttons show these rows. */
  ghost predicate Shown(list: seq<UsbDesc>, buttons: seq<string>, rows: seq<Row>)
    reads list
  {
    && |list| == |buttons| == |rows|
    && (forall i | 0 <= i < |list| :: list[i].Now() == rows[i] && Consistent(rows[i], buttons[i]))
    && (forall i, j | 0 <= i < j < |list| :: list[i] != list[j])
  }

  lemma ShownJoin(list: seq<UsbDesc>, buttons: seq<string>, rows: seq<Row>,
                  more: seq<UsbDesc>, texts: seq<string>, moreRows: seq<Row>)
    requires Shown(list, buttons, rows) && Shown(more, texts, moreRows)
    requires forall d | d in list :: d !in more
    ensures Shown(list + more, buttons + texts, rows + moreRows)
  {
    var all := list + more;
    forall i, j | 0 <= i < j < |all| ensures all[i] != all[j] {
      if i < |list| <= j {
        assert list[i] in list && more[j - |list|] in more;
      }
    }
  }

  /** labels are those of the rows' buttons; rows are the values shown. */
  class AppWin {
    var devs: seq<UsbDesc>
    var labels: seq<string>
    ghost var rows: seq<Row>

    ghost predicate Valid()
      reads this, devs
    {
      Shown(devs, labels, rows)
    }

    constructor ()
      ensures Valid() && rows == []
    {
      devs, labels, rows := [], [], [];
    }

    /** A new row, joined with the old ones. */
    method NewDesc(addr: string, info: Found) returns (dev: UsbDesc, text: string)
      requires Valid()
      ensures fresh(dev) && dev.Now() == Joined(rows, NewRow(addr, info)) && Consistent(dev.Now(), text)
    {
      dev := new UsbDesc(addr, info);
      for i := 0 to |devs|
        invariant dev.Now() == Joined(rows[..i], NewRow(addr, info))
        invariant dev.attachable <==> dev.port == None
        invariant dev.port != None ==> IsPort(dev.port.value)
      {
        SetState(devs[i], dev);
        assert rows[..i + 1][..i] == rows[..i];
      }
      assert rows[..|devs|] == rows;
      text := if dev.attachable then ATTACH else DETACH;
    }

    /** The loop over the devices of one node. */
    method AddNode(addr: string, devices: seq<Found>) returns (list: seq<UsbDesc>, buttons: seq<string>)
      requires Valid()
      ensures fresh(list) && Shown(list, buttons, NodeRows(rows, addr, devices))
    {
      list, buttons := [], [];
      for i := 0 to |devices|
        invariant fresh(list) && Shown(list, buttons, NodeRows(rows, addr, devices[..i]))
      {
        NextNodeRow(rows, addr, devices, i);
        var dev, text := NewDesc(addr, devices[i]);
        ShownJoin(list, buttons, NodeRows(rows, addr, devices[..i]), [dev], [text], [dev.Now()]);
        list, buttons := list + [dev], buttons + [text];
      }
      assert devices[..|devices|] == devices;
    }

    /** The body of the loop over the nodes; list shows the rows before this node. */
    method AddEntry(node: Node, list: seq<UsbDesc>, buttons: seq<string>, ghost before: seq<Row>)
      returns (list': seq<UsbDesc>, buttons': seq<string>)
      requires Valid() && Shown(list, buttons, before)
      ensures fresh(set d | d in list' && d !in list)
      ensures Shown(list', buttons', before + NodeRows(rows, node.addr, DevicesOf(node)))
    {
      list', buttons' := list, buttons;
      if node.devices != None {
        var more, texts := AddNode(node.addr, node.devices.value);
        ShownJoin(list, buttons, before, more, texts, NodeRows(rows, node.addr, node.devices.value));
        list', buttons' := list + more, buttons + texts;
      } else {
        assert before + [] == before;
      }
    }

    /** The loop over the nodes of the result. */
    method BuildRows(result: seq<Node>) returns (list: seq<UsbDesc>, buttons: seq<string>)
      requires Valid()
      ensures fresh(list) && Shown(list, buttons, Refreshed(rows, result))
    {
      list, buttons := [], [];
      for i := 0 to |result|
        invariant fresh(list) && Shown(list, buttons, Refreshed(rows, result[..i]))
      {
        NextNode(rows, result, i);
        list, buttons := AddEntry(result[i], list, buttons, Refreshed(rows, result[..i]));
      }
      assert result[..|result|] == result;
    }

    /** usbip_app_win_refresh_list_done. An empty result leaves everything as it is. */
    method RefreshListDone(result: seq<Node>)
      requires Valid()
      modifies this
      ensures Valid()
      ensures result == [] ==> devs == old(devs) && labels == old(labels) && rows == old(rows)
      ensures result != [] ==> fresh(devs) && rows == Refreshed(old(rows), result)
    {
      if |result| == 0 {
        return;
      }
      var list, buttons := BuildRows(result);
      rows := Refreshed(rows, result);
      devs, labels := list, buttons;
    }

    /** usbip_device_control for the button of row i. outcome is what attach_device or detach_port
        returns; a port is below 256. The port handed to detach_port is never missing. */
    method DeviceControl(i: nat, outcome: int) returns (ret: bool)
      requires Valid() && i < |devs| && outcome < 256
      modifies this, devs[i]
      ensures Valid() && devs == old(devs)
      ensures ret <==> outcome >= 0
      ensures var was := old(rows)[i];
        rows == if outcome < 0 then old(rows)
                else if was.attachable then
                  old(rows)[i := was.(attachable := false, port := Some(Ports.Decimal(outcome)))]
                else old(rows)[i := was.(attachable := true, port := None)]
    {
      var dev := devs[i];
      ret := true;
      if labels[i] == ATTACH {
        if outcome < 0 {
          ret := false;
        } else {
          labels := labels[i := DETACH];
          dev.attachable := false;
          dev.port := Some(Ports.Decimal(outcome));
        }
      } else {
        var port := dev.port.value;
        assert Ports.AllDigits(port);
        if outcome < 0 {
          ret := false;
        } else {
          labels := labels[i := ATTACH];
          dev.attachable := true;
          dev.port := None;
        }
      }
      rows := rows[i := dev.Now()];
    }
  }
}
