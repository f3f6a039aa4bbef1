/** The window's buttons and the ports they take and free: usbip_device_control together with
    attach_device and detach_port. */
module DeviceClicks {
  import opened Wrappers
  import opened Words
  import opened Ports
  import V = VhciStatus
  import D = DeviceWindow

  /** The port an attached row shows is in use. */
  ghost predicate PortHeld(row: D.Row, used: set<int>) {
    !row.attachable ==> HasNumber(row) && PortNumber(row.port.value) in used
  }

  predicate HasNumber(row: D.Row) {
    row.port.Some? && AllDigits(row.port.value)
  }

  ghost predicate Held(rows: seq<D.Row>, used: set<int>) {
    forall i | 0 <= i < |rows| :: PortHeld(rows[i], used)
  }

  /** Row k is attached to this port. */
  predicate ShowsPort(rows: seq<D.Row>, k: int, port: u8) {
    0 <= k < |rows| && !rows[k].attachable && HasNumber(rows[k]) && PortNumber(rows[k].port.value) == port
  }

  /** A refresh moves ports from old rows to new ones and so keeps them held. */
  lemma RefreshKeepsHeld(olds: seq<D.Row>, result: seq<D.Node>, used: set<int>)
    requires Held(olds, used)
    ensures Held(D.Refreshed(olds, result), used)
  {
    var rows := D.Refreshed(olds, result);
    D.RefreshedJoin(olds, result);
    forall j | 0 <= j < |rows| ensures PortHeld(rows[j], used) {
      var row := D.NewRow(rows[j].addr, rows[j].info);
      D.JoinedFirst(olds, row, |olds|);
      assert olds[..|olds|] == olds;
      var last := D.LastAttached(olds, row, |olds|);
      if last >= 0 {
        assert PortHeld(olds[last], used);
      }
    }
  }

  /** Freeing a port that row i showed leaves the others held exactly when none of them shows it. */
  lemma HeldAfterDetach(rows: seq<D.Row>, used: set<int>, i: nat, row: D.Row, port: u8)
    requires i < |rows| && Held(rows, used) && ShowsPort(rows, i, port) && row.attachable
    ensures Held(rows[i := row], used)
    ensures Held(rows[i := row], used - {port as int}) <==> forall k | k != i :: !ShowsPort(rows, k, port)
  {
    var after, left := rows[i := row], used - {port as int};
    forall k | 0 <= k < |rows| ensures PortHeld(after[k], used) {
      assert PortHeld(rows[k], used);
    }
    if Held(after, left) {
      forall k | k != i ensures !ShowsPort(rows, k, port) {
        if 0 <= k < |rows| {
          assert PortHeld(after[k], left);
        }
      }
    }
    if forall k | k != i :: !ShowsPort(rows, k, port) {
      forall k | 0 <= k < |rows| ensures PortHeld(after[k], left) {
        assert PortHeld(after[k], used) && (k != i ==> !ShowsPort(rows, k, port));
      }
    }
  }

  /** A result that lists an attached device twice makes two rows that show its port, so that a click
      on one of them can leave the other with a port that is not in use. */
  lemma TwoRowsOnePort(row: D.Row, port: u8)
    requires ShowsPort([row], 0, port)
    ensures var rows := D.Refreshed([row], [D.Node(row.addr, Some([row.info, row.info]))]);
      |rows| == 2 && ShowsPort(rows, 0, port) && ShowsPort(rows, 1, port)
  {
    D.OneNode([row], D.Node(row.addr, Some([row.info, row.info])));
    D.NodeRowsJoin([row], row.addr, [row.info, row.info]);
    D.RowOfAttached([row], [D.Node(row.addr, Some([row.info, row.info]))], 0, 0);
    D.RowOfAttached([row], [D.Node(row.addr, Some([row.info, row.info]))], 0, 1);
  }

  lemma HeldAfterAttach(rows: seq<D.Row>, used: set<int>, i: nat, row: D.Row, port: u8)
    requires i < |rows| && Held(rows, used) && row.port == Some(Decimal(port))
    ensures Held(rows[i := row], used + {port as int})
  {
    PortReadsBack(port);
    var after := rows[i := row];
    forall k | 0 <= k < |after| ensures PortHeld(after[k], used + {port as int}) {
      assert PortHeld(rows[k], used);
    }
  }

  /** A click on the button of row i, when attach_device or detach_port finds the table idev, null
      if the driver cannot be opened, and the kernel answers as given; None when the attach is
      still trying. Attaching keeps all shown ports held. So does detaching, unless it frees a port
      that another row shows. */
  method Click(win: D.AppWin, i: nat, client: Client, idev: array?<V.Slot>, speed: u32, answers: seq<Answer>,
               dirReady: bool, fileOpen: bool, stored: nat, accepted: bool) returns (done: Option<bool>)
    requires win.Valid() && i < |win.devs| && client.dir.Valid()
    requires win.rows[i].attachable ==> win.rows[i].info.busid.Some?
    requires Held(win.rows, client.used)
    modifies win, win.devs[i], client, client.dir
    ensures win.Valid() && client.dir.Valid() && |win.rows| == |old(win.rows)|
    ensures old(win.rows[i].attachable) ==> Held(win.rows, client.used)
    ensures old(!win.rows[i].attachable) ==>
              var port := PortNumber(old(win.rows[i].port.value));
              Held(win.rows, client.used) <==>
              port as int in client.used || forall k | k != i :: !ShowsPort(old(win.rows), k, port)
  {
    var dev := win.devs[i];
    ghost var rows, used := win.rows, client.used;
    assert D.Consistent(rows[i], win.labels[i]) && dev.Now() == rows[i];
    assert PortHeld(rows[i], used);
    var outcome := -1;
    if win.labels[i] == D.ATTACH {
      if idev != null {
        var r := client.AttachDevice(dev.addr, dev.info.busid.value, idev, speed, answers, dirReady, fileOpen, stored);
        if r.StillTrying? {
          return None;
        }
        outcome := if r.Port? then r.port else -1;
      }
      var ok := win.DeviceControl(i, outcome);
      done := Some(ok);
      if outcome >= 0 {
        HeldAfterAttach(rows, used, i, win.rows[i], outcome);
      }
    } else {
      var port := dev.port.value;
      D.PortOfRow(rows[i], win.labels[i]);
      outcome := client.DetachPort(port, idev, accepted);
      var ok := win.DeviceControl(i, outcome);
      done := Some(ok);
      if outcome >= 0 {
        HeldAfterDetach(rows, used, i, win.rows[i], PortNumber(port));
      }
    }
  }
}
