/** Any number of attach and detach processes on one client machine, interleaved step by step
    (usbip_attach.c:82-118, 219-246; usbip_detach.c:32-93). Each process reads the port table once
    and works from that copy. The kernel takes an attach only on a free port; a write it refuses
    has no effect. */
module PortRuns {
  import R = Runs
  import opened Wrappers
  import opened Words
  import opened VhciStatus
  import opened Ports

  /** What a process has yet to do. A process attaches or detaches once; the holder of a port is
      named by the process that attached it. */
  datatype Process =
    | Importing(table: seq<Slot>, speed: u32)
    | Attached(port: nat, speed: u32)
    | Recorded(port: nat, speed: u32)
    | NotRecorded(port: nat, speed: u32)
    | NotAttached
    | Removing(port: nat)
    | Detaching(port: nat)
    | Detached(port: nat)
    | NotDetached(port: nat)
    | NothingToDo

  predicate HasPort(p: Process, port: nat) {
    (p.Attached? || p.Recorded? || p.NotRecorded?) && p.port == port
  }

  /** holders: the ports in use. writers: the state files, each with the process that wrote it. */
  datatype State = State(hubs: seq<Hub>, holders: map<nat, nat>, writers: map<nat, nat>, processes: map<nat, Process>)

  /** How record_connection ends: the line is written, part of it is, or no file is opened. */
  datatype Outcome = Whole | Cut | NotOpened

  /** Drop is the kernel freeing a port on its own, when the connection ends. */
  datatype Step =
    | OpenToAttach(process: nat, table: seq<Slot>, speed: u32)
    | WriteAttach(process: nat, error: bool)
    | Record(process: nat, outcome: Outcome)
    | OpenToDetach(process: nat, table: seq<Slot>, port: nat)
    | RemoveFile(process: nat)
    | WriteDetach(process: nat, taken: bool)
    | Drop(port: nat)

  /** The table that usbip_vhci_driver_open reads at this moment. A slot keeps 8 bits of its port. */
  ghost predicate Shows(table: seq<Slot>, hubs: seq<Hub>, used: set<nat>) {
    && |table| == |hubs|
    && forall k | 0 <= k < |table| ::
         table[k].port == k % 0x100 && table[k].hub == hubs[k] && (table[k].status == VDEV_ST_NULL <==> k !in used)
  }

  /** The rows list every port once and for all, with its hub and whether it is in use. */
  ghost predicate Describe(rows: seq<Row>, hubs: seq<Hub>, used: set<nat>) {
    && (forall k | 0 <= k < |hubs| :: Lists(rows, k))
    && (forall i | 0 <= i < |rows| && 0 <= rows[i].port < |hubs| ::
          && (rows[i].hub == "hs" <==> hubs[rows[i].port] == High)
          && (Stored(rows[i]).status == VDEV_ST_NULL <==> rows[i].port !in used))
  }

  /** A table read from such texts shows the machine. */
  lemma TextShows(table: seq<Slot>, rows: seq<Row>, hubs: seq<Hub>, used: set<nat>)
    requires Mirrors(table, rows) && Describe(rows, hubs, used) && |table| == |hubs|
    ensures Shows(table, hubs, used)
  {
    forall k | 0 <= k < |table|
      ensures table[k].port == k % 0x100 && table[k].hub == hubs[k]
      ensures table[k].status == VDEV_ST_NULL <==> k !in used
    {
      assert Lists(rows, k);
      var i :| 0 <= i < |rows| && rows[i].port == k;
      assert table[rows[i].port] == Stored(rows[i]);
      StoredValues(rows[i]);
    }
  }

  ghost predicate Enabled(s: State, step: Step) {
    match step
    case OpenToAttach(p, table, _) => p !in s.processes && Shows(table, s.hubs, s.holders.Keys)
    case OpenToDetach(p, table, port) => p !in s.processes && Shows(table, s.hubs, s.holders.Keys) && port < 256
    case WriteAttach(p, _) => p in s.processes && s.processes[p].Importing?
    case Record(p, _) => p in s.processes && s.processes[p].Attached?
    case RemoveFile(p) => p in s.processes && s.processes[p].Removing?
    case WriteDetach(p, _) => p in s.processes && s.processes[p].Detaching?
    case Drop(port) => port in s.holders
  }

  function Becomes(s: State, p: nat, process: Process): State {
    s.(processes := s.processes[p := process])
  }

  ghost function Apply(s: State, step: Step): State
    requires Enabled(s, step)
  {
    match step
    case OpenToAttach(p, table, speed) => Becomes(s, p, Importing(table, speed))
    case OpenToDetach(p, table, port) => Becomes(s, p, if WillDetach(table, port) then Removing(port) else NothingToDo)
    case WriteAttach(p, error) =>
      var me := s.processes[p];
      var port := Offer(me.table, me.speed);
      if port < 0 || error then Becomes(s, p, NotAttached)
      else if port in s.holders then s
      else Becomes(s, p, Attached(port, me.speed)).(holders := s.holders[port := p])
    case Record(p, outcome) =>
      var me := s.processes[p];
      var writers := if outcome.NotOpened? then s.writers else s.writers[me.port := p];
      var next := if outcome.Whole? then Recorded(me.port, me.speed) else NotRecorded(me.port, me.speed);
      Becomes(s, p, next).(writers := writers)
    case RemoveFile(p) =>
      var me := s.processes[p];
      Becomes(s, p, Detaching(me.port)).(writers := s.writers - {me.port})
    case WriteDetach(p, taken) =>
      var me := s.processes[p];
      if taken then Becomes(s, p, Detached(me.port)).(holders := s.holders - {me.port})
      else Becomes(s, p, NotDetached(me.port))
    case Drop(port) => s.(holders := s.holders - {port})
  }

  ghost const PORTS: R.Machine<State, Step> :=
    R.Machine((s, step) => Enabled(s, step), (s, step) => if Enabled(s, step) then Apply(s, step) else s)

  ghost predicate CanRun(s: State, steps: seq<Step>) {
    R.CanRun(PORTS, s, steps)
  }

  ghost function Run(s: State, steps: seq<Step>): State {
    R.Run(PORTS, s, steps)
  }

  function Start(hubs: seq<Hub>): State {
    State(hubs, map[], map[], map[])
  }

  // ----- Ports above 255 -----

  /** Slots from 256 on carry the port of another slot. For each kind of hub the first of them
      carries the port of a slot of the same kind. */
  ghost predicate AliasesFit(hubs: seq<Hub>) {
    forall k | FirstAbove(hubs, k) :: hubs[k % 0x100] == hubs[k]
  }

  predicate FirstAbove(hubs: seq<Hub>, k: int) {
    0x100 <= k < |hubs| && forall j | 0x100 <= j < k :: hubs[j] != hubs[k]
  }

  /** What the offer is worth at the moment the table is read, with slot i the first free one: its
      hub is right and it is free exactly when slot i % 256 says so. From 256 on a port of the
      right hub is never free. */
  lemma OfferExactly(table: seq<Slot>, hubs: seq<Hub>, used: set<nat>, speed: u32)
    requires Shows(table, hubs, used)
    ensures var i, port := FirstFree(table, speed), Offer(table, speed);
      && (port == -1 <==> i == |hubs|)
      && (i == |hubs| <==> forall k | 0 <= k < |hubs| && hubs[k] == HubFor(speed) :: k in used)
      && (i < |hubs| ==>
            && port == i % 0x100 && hubs[i] == HubFor(speed) && i !in used
            && (hubs[port] == HubFor(speed) <==> hubs[i % 0x100] == hubs[i])
            && (i < 0x100 ==> port == i)
            && (i >= 0x100 && hubs[port] == HubFor(speed) ==> port in used))
  {
    var i := FirstFree(table, speed);
    forall k | 0 <= k < i && hubs[k] == HubFor(speed) ensures k in used {
      assert !IsFree(table[k], speed);
    }
    if i < |hubs| {
      assert IsFree(table[i], speed);
    }
  }

  /** On a machine whose 256 first ports are high-speed and in use, the one super-speed port is
      offered as port 0. */
  lemma AliasedOffer(table: seq<Slot>)
    requires |table| == 0x101 && forall k | 0 <= k < 0x101 :: table[k].port == k % 0x100
    requires forall k | 0 <= k < 0x100 :: table[k].hub == High && table[k].status != VDEV_ST_NULL
    requires table[0x100].hub == Super && table[0x100].status == VDEV_ST_NULL
    ensures Offer(table, USB_SPEED_SUPER) == 0
    ensures forall hubs | SameHubs(table, hubs) :: !AliasesFit(hubs)
  {
    FirstFreeIs(table, USB_SPEED_SUPER, 0x100);
    forall hubs | SameHubs(table, hubs) ensures !AliasesFit(hubs) {
      assert FirstAbove(hubs, 0x100) && hubs[0] == High;
    }
  }

  // ----- What every step keeps -----

  /** A snapshot, however old, has the hubs of the machine; no slot from 256 on was ever in use. */
  predicate SameHubs(table: seq<Slot>, hubs: seq<Hub>) {
    && |table| == |hubs|
    && (forall k | 0 <= k < |table| :: table[k].port == k % 0x100 && table[k].hub == hubs[k])
    && (forall k | 0x100 <= k < |table| :: table[k].status == VDEV_ST_NULL)
  }

  /** A snapshot matches the machine; a port had exists, and is of the hub its speed needs when the
      aliases fit. */
  ghost predicate Fits(p: Process, hubs: seq<Hub>) {
    && (p.Importing? ==> SameHubs(p.table, hubs))
    && (p.Attached? || p.Recorded? || p.NotRecorded? ==> p.port < |hubs| && p.port < 0x100 && HubFits(hubs, p))
  }

  ghost predicate HubFits(hubs: seq<Hub>, p: Process)
    requires (p.Attached? || p.Recorded? || p.NotRecorded?) && p.port < |hubs|
  {
    AliasesFit(hubs) ==> hubs[p.port] == HubFor(p.speed)
  }

  predicate IsOf(processes: map<nat, Process>, p: nat, port: nat) {
    p in processes && HasPort(processes[p], port)
  }

  /** Every port of the map belongs to a process that attached that port. */
  predicate Linked(m: map<nat, nat>, processes: map<nat, Process>) {
    forall port | port in m :: IsOf(processes, m[port], port)
  }

  /** A process that accounts for a used port without a file: its holder has not recorded it, or
      somebody who is about to free it, or failed to, removed the file. */
  predicate Unrecorded(p: Process, port: nat) {
    (p.Attached? || p.NotRecorded? || p.Detaching? || p.NotDetached?) && p.port == port
  }

  ghost predicate Accounted(processes: map<nat, Process>, port: nat) {
    exists p :: p in processes && Unrecorded(processes[p], port)
  }

  ghost predicate Inv(s: State) {
    && (forall p | p in s.processes :: Fits(s.processes[p], s.hubs))
    && Linked(s.holders, s.processes)
    && Linked(s.writers, s.processes)
    && (forall port | port in s.holders && port !in s.writers :: Accounted(s.processes, port))
  }

  lemma OfferRight(table: seq<Slot>, hubs: seq<Hub>, speed: u32)
    requires SameHubs(table, hubs) && Offer(table, speed) != -1
    ensures var port := Offer(table, speed);
      0 <= port < |hubs| && port < 0x100 && (AliasesFit(hubs) ==> hubs[port] == HubFor(speed))
  {
    var i := FirstFree(table, speed);
    if i >= 0x100 {
      forall j | 0x100 <= j < i ensures hubs[j] != hubs[i] {
        assert !IsFree(table[j], speed);
      }
      assert FirstAbove(hubs, i);
    }
  }

  /** A table read now is a snapshot of this machine. */
  lemma SnapshotFits(s: State, table: seq<Slot>)
    requires Inv(s) && Shows(table, s.hubs, s.holders.Keys)
    ensures SameHubs(table, s.hubs)
  {
    forall k | 0x100 <= k < |table| ensures table[k].status == VDEV_ST_NULL {
      assert k !in s.holders;
    }
  }

  /** A process never loses its port. */
  lemma StepKeepsPorts(s: State, step: Step, p: nat, port: nat)
    requires Enabled(s, step) && p in s.processes && HasPort(s.processes[p], port)
    ensures p in Apply(s, step).processes && HasPort(Apply(s, step).processes[p], port)
  {
  }

  lemma StepFits(s: State, step: Step)
    requires Inv(s) && Enabled(s, step) && !step.Drop?
    ensures Fits(Apply(s, step).processes[step.process], s.hubs)
  {
    if step.WriteAttach? {
      var me := s.processes[step.process];
      if Offer(me.table, me.speed) != -1 {
        OfferRight(me.table, s.hubs, me.speed);
      }
    } else if step.OpenToAttach? {
      SnapshotFits(s, step.table);
    }
  }

  lemma StepKeepsFits(s: State, step: Step)
    requires Inv(s) && Enabled(s, step)
    ensures forall p | p in Apply(s, step).processes :: Fits(Apply(s, step).processes[p], s.hubs)
  {
    if !step.Drop? {
      StepFits(s, step);
      assert forall p | p in Apply(s, step).processes && p != step.process :: p in s.processes;
    }
  }

  lemma StepKeepsLinks(s: State, step: Step)
    requires Inv(s) && Enabled(s, step)
    ensures Linked(Apply(s, step).holders, Apply(s, step).processes)
    ensures Linked(Apply(s, step).writers, Apply(s, step).processes)
  {
    var t := Apply(s, step);
    forall port | port in t.holders ensures IsOf(t.processes, t.holders[port], port) {
      if port in s.holders && s.holders[port] == t.holders[port] {
        StepKeepsPorts(s, step, s.holders[port], port);
      }
    }
    forall port | port in t.writers ensures IsOf(t.processes, t.writers[port], port) {
      if port in s.writers && s.writers[port] == t.writers[port] {
        StepKeepsPorts(s, step, s.writers[port], port);
      }
    }
  }

  /** Who accounts for a port goes on to do so until the port is free or has a file. */
  lemma StillUnrecorded(s: State, step: Step, q: nat, port: nat)
    requires Enabled(s, step) && q in s.processes && Unrecorded(s.processes[q], port)
    requires port in Apply(s, step).holders && port !in Apply(s, step).writers
    ensures q in Apply(s, step).processes && Unrecorded(Apply(s, step).processes[q], port)
  {
  }

  /** A port that loses its file or gains a holder in a step is accounted for by that step's process. */
  lemma NewlyUnrecorded(s: State, step: Step, port: nat)
    requires Enabled(s, step) && (port in s.writers || port !in s.holders)
    requires port in Apply(s, step).holders && port !in Apply(s, step).writers
    ensures Accounted(Apply(s, step).processes, port)
  {
    assert Unrecorded(Apply(s, step).processes[step.process], port);
  }

  lemma StepKeepsAccounts(s: State, step: Step, port: nat)
    requires Inv(s) && Enabled(s, step)
    requires port in Apply(s, step).holders && port !in Apply(s, step).writers
    ensures Accounted(Apply(s, step).processes, port)
  {
    if port in s.writers || port !in s.holders {
      NewlyUnrecorded(s, step, port);
    } else {
      assert Accounted(s.processes, port);
      var q :| q in s.processes && Unrecorded(s.processes[q], port);
      StillUnrecorded(s, step, q, port);
    }
  }

  lemma StepKeepsInv(s: State, step: Step)
    requires Inv(s) && Enabled(s, step)
    ensures Inv(Apply(s, step))
  {
    StepKeepsFits(s, step);
    StepKeepsLinks(s, step);
    var t := Apply(s, step);
    forall port | port in t.holders && port !in t.writers ensures Accounted(t.processes, port) {
      StepKeepsAccounts(s, step, port);
    }
  }

  // ----- Every run -----

  lemma RunKeepsInv(s: State, steps: seq<Step>)
    requires Inv(s) && CanRun(s, steps)
    ensures Inv(Run(s, steps)) && Run(s, steps).hubs == s.hubs
  {
    var i := (t: State) => Inv(t) && t.hubs == s.hubs;
    forall t: State, step: Step | i(t) && PORTS.enabled(t, step) ensures i(PORTS.apply(t, step)) {
      StepKeepsInv(t, step);
    }
    R.Invariant(PORTS, s, steps, i);
  }

  /** Every held port is of the hub its holder needs. */
  ghost predicate RightHubs(s: State) {
    forall port | port in s.holders ::
      && port < |s.hubs| && s.holders[port] in s.processes && HasPort(s.processes[s.holders[port]], port)
      && s.hubs[port] == HubFor(s.processes[s.holders[port]].speed)
  }

  /** In every run, on a machine of any size, whatever the interleaving and however old the
      snapshots: no process holds two ports, every held port exists, a used port without a file is
      one whose holder has not recorded it or one that some detach_port emptied, and every held
      port is of the hub its holder needs if the aliases fit. */
  lemma EveryRun(hubs: seq<Hub>, steps: seq<Step>)
    requires CanRun(Start(hubs), steps)
    ensures var s := Run(Start(hubs), steps);
      && (forall a, b | a in s.holders && b in s.holders && a != b :: s.holders[a] != s.holders[b])
      && (forall port | port in s.holders ::
            port < |hubs| && s.holders[port] in s.processes && HasPort(s.processes[s.holders[port]], port))
      && (forall port | port in s.holders && port !in s.writers :: Accounted(s.processes, port))
      && (AliasesFit(hubs) ==> RightHubs(s))
  {
    RunKeepsInv(Start(hubs), steps);
  }

  /** A process that still tries to import tries with the table it began with. */
  lemma SameOffer(s: State, steps: seq<Step>, p: nat)
    requires CanRun(s, steps) && p in s.processes
    ensures p in Run(s, steps).processes
    ensures Run(s, steps).processes[p].Importing? ==> Run(s, steps).processes[p] == s.processes[p]
  {
    var i := (t: State) => TriesOnly(t, p, s.processes[p]);
    forall t: State, step: Step | i(t) && PORTS.enabled(t, step) ensures i(PORTS.apply(t, step)) {
      TableStays(t, step, p, s.processes[p]);
    }
    R.Invariant(PORTS, s, steps, i);
  }

  ghost predicate TriesOnly(s: State, p: nat, first: Process) {
    p in s.processes && (s.processes[p].Importing? ==> s.processes[p] == first)
  }

  lemma TableStays(s: State, step: Step, p: nat, first: Process)
    requires Enabled(s, step) && TriesOnly(s, p, first)
    ensures TriesOnly(Apply(s, step), p, first)
  {
  }

  /** While somebody holds the offered port, any number of retries changes nothing, even when
      other ports are free. */
  lemma RetriesInVain(s: State, p: nat, n: nat)
    requires p in s.processes && s.processes[p].Importing?
    requires var port := Offer(s.processes[p].table, s.processes[p].speed); port >= 0 && port in s.holders
    ensures var retries := R.Times(WriteAttach(p, false), n); CanRun(s, retries) && Run(s, retries) == s
  {
    R.Stutters(PORTS, s, WriteAttach(p, false), n);
  }

  // ----- Who changes a port -----

  /** The step may change this port or its file. */
  ghost predicate Touches(s: State, step: Step, port: nat)
    requires Enabled(s, step)
  {
    match step
    case WriteAttach(p, _) => Offer(s.processes[p].table, s.processes[p].speed) == port
    case Record(p, _) => s.processes[p].port == port
    case RemoveFile(p) => s.processes[p].port == port
    case WriteDetach(p, _) => s.processes[p].port == port
    case Drop(q) => q == port
    case _ => false
  }

  ghost predicate SamePort(s: State, t: State, port: nat) {
    && (port in s.holders <==> port in t.holders) && (port in s.writers <==> port in t.writers)
    && (port in s.holders ==> s.holders[port] == t.holders[port])
    && (port in s.writers ==> s.writers[port] == t.writers[port])
  }

  lemma UntouchedStays(s: State, step: Step, port: nat)
    requires Enabled(s, step) && !Touches(s, step, port)
    ensures SamePort(s, Apply(s, step), port)
  {
  }

  /** In this run, somebody other than p touches the port. */
  ghost predicate TouchedByOthers(s: State, steps: seq<Step>, p: nat, port: nat) {
    R.Occurs(PORTS, s, steps, (t: State, step: Step) => IsByOther(t, step, p, port))
  }

  ghost predicate IsByOther(s: State, step: Step, p: nat, port: nat) {
    Enabled(s, step) && (step.Drop? || step.process != p) && Touches(s, step, port)
  }

  /** The process is a detach_port of this port, under way or over. */
  predicate Detaches(d: Process, port: nat) {
    (d.Removing? || d.Detaching? || d.Detached? || d.NotDetached?) && d.port == port
  }

  /** Whatever else goes on, a detach touches only its own port and that port's file: any other
      port is as it was unless somebody else touched it. */
  lemma DetachTouchesOnly(s: State, steps: seq<Step>, p: nat, own: nat, port: nat)
    requires CanRun(s, steps) && p in s.processes && Detaches(s.processes[p], own) && own != port
    requires !TouchedByOthers(s, steps, p, port)
    ensures SamePort(s, Run(s, steps), port)
  {
    var i := (t: State) => p in t.processes && Detaches(t.processes[p], own) && SamePort(s, t, port);
    var others := (t: State, step: Step) => IsByOther(t, step, p, port);
    forall t: State, step: Step | i(t) && PORTS.enabled(t, step) && !others(t, step) ensures i(PORTS.apply(t, step)) {
      DetachGoesOn(t, step, p, own);
      UntouchedStays(t, step, port);
    }
    R.InvariantUnless(PORTS, s, steps, i, others);
  }

  lemma DetachGoesOn(s: State, step: Step, p: nat, own: nat)
    requires Enabled(s, step) && p in s.processes && Detaches(s.processes[p], own)
    ensures p in Apply(s, step).processes && Detaches(Apply(s, step).processes[p], own)
  {
  }

  /** The step frees the port. */
  ghost predicate Frees(s: State, step: Step, port: nat) {
    Enabled(s, step) && port in s.holders && port !in Apply(s, step).holders
  }

  ghost predicate FreedDuring(s: State, steps: seq<Step>, port: nat) {
    R.Occurs(PORTS, s, steps, (t: State, step: Step) => Frees(t, step, port))
  }

  /** A step frees a port only by a detach that the kernel takes or by a lost connection. */
  lemma FreeingStep(s: State, step: Step, port: nat)
    requires Frees(s, step, port)
    ensures step == Drop(port) || (step.WriteDetach? && step.taken && s.processes[step.process] == Detaching(port))
  {
  }

  ghost predicate Holds(s: State, h: nat, port: nat) {
    port in s.holders && s.holders[port] == h
  }

  /** Between two holders of a port lies a step that frees it. */
  lemma Handover(s: State, steps: seq<Step>, port: nat)
    requires CanRun(s, steps) && port in s.holders
    requires !FreedDuring(s, steps, port)
    ensures Holds(Run(s, steps), s.holders[port], port)
  {
    var i := (t: State) => Holds(t, s.holders[port], port);
    var frees := (t: State, step: Step) => Frees(t, step, port);
    forall t: State, step: Step | i(t) && PORTS.enabled(t, step) && !frees(t, step) ensures i(PORTS.apply(t, step)) {
      HolderStays(t, step, s.holders[port], port);
    }
    R.InvariantUnless(PORTS, s, steps, i, frees);
  }

  lemma HolderStays(s: State, step: Step, h: nat, port: nat)
    requires Enabled(s, step) && Holds(s, h, port) && !Frees(s, step, port)
    ensures Holds(Apply(s, step), h, port)
  {
  }

  /** The process had the port and does not hold it. */
  ghost predicate HasLost(s: State, h: nat, port: nat) {
    h in s.processes && HasPort(s.processes[h], port) && !Holds(s, h, port)
  }

  /** A process that had a port and lost it never holds it again. */
  lemma NeverAgain(s: State, step: Step, h: nat, port: nat)
    requires Enabled(s, step) && HasLost(s, h, port)
    ensures HasLost(Apply(s, step), h, port)
  {
    StepKeepsPorts(s, step, h, port);
  }

  /** A detach that read its table in state s is about to free, in the state the run leads to, an
      attachment that is not the one it saw, exactly when the port was freed in between. */
  lemma StaleDetach(s: State, steps: seq<Step>, port: nat)
    requires Inv(s) && CanRun(s, steps) && port in s.holders && port in Run(s, steps).holders
    ensures Run(s, steps).holders[port] != s.holders[port] <==> FreedDuring(s, steps, port)
  {
    if FreedDuring(s, steps, port) {
      var h := s.holders[port];
      var i := (t: State) => h in t.processes && HasPort(t.processes[h], port);
      var lost := (t: State) => HasLost(t, h, port);
      var frees := (t: State, step: Step) => Frees(t, step, port);
      forall t: State, step: Step | i(t) && PORTS.enabled(t, step)
        ensures i(PORTS.apply(t, step)) && (frees(t, step) ==> lost(PORTS.apply(t, step)))
      {
        StepKeepsPorts(t, step, h, port);
      }
      forall t: State, step: Step | lost(t) && PORTS.enabled(t, step) ensures lost(PORTS.apply(t, step)) {
        NeverAgain(t, step, h, port);
      }
      R.EverAfter(PORTS, s, steps, i, frees, lost);
    } else {
      Handover(s, steps, port);
    }
  }

  // ----- Whose files -----

  /** Every state file was written by the holder of its port. */
  ghost predicate Honest(s: State) {
    forall port | port in s.writers :: port in s.holders && s.holders[port] == s.writers[port]
  }

  /** What a step needs to leave the files honest. */
  ghost predicate Timely(s: State, step: Step) {
    Enabled(s, step) ==>
    match step
    case Record(p, outcome) =>
      var port := s.processes[p].port;
      outcome.NotOpened? || (port in s.holders && s.holders[port] == p)
    case WriteDetach(p, taken) => taken ==> s.processes[p].port !in s.writers
    case Drop(port) => port !in s.writers
    case _ => true
  }

  lemma HonestStep(s: State, step: Step)
    requires Enabled(s, step) && Honest(s)
    ensures Honest(Apply(s, step)) <==> Timely(s, step)
  {
    var t := Apply(s, step);
    if step.Record? && !step.outcome.NotOpened? {
      var port := s.processes[step.process].port;
      assert port in t.writers;
    } else if step.WriteDetach? && step.taken && s.processes[step.process].port in s.writers {
      assert s.processes[step.process].port in t.writers;
    } else if step.Drop? && step.port in s.writers {
      assert step.port in t.writers;
    }
  }

  /** Honest files at the start and after every step of the run. */
  ghost predicate HonestThroughout(s: State, steps: seq<Step>) {
    R.Always(PORTS, s, steps, t => Honest(t))
  }

  /** Some step of the run comes too late. */
  ghost predicate Untimely(s: State, steps: seq<Step>) {
    R.Occurs(PORTS, s, steps, (t, step) => !Timely(t, step))
  }

  /** Over every run from honest files, the files stay honest throughout exactly when no step comes
      too late: a record after its writer lost the port, an end of a connection while the port has
      a file. */
  lemma HonestExactly(s: State, steps: seq<Step>)
    requires Honest(s) && CanRun(s, steps)
    ensures HonestThroughout(s, steps) <==> !Untimely(s, steps)
  {
    var i := (t: State) => Honest(t);
    var late := (t: State, step: Step) => !Timely(t, step);
    forall t: State, step: Step | i(t) && PORTS.enabled(t, step) ensures i(PORTS.apply(t, step)) <==> !late(t, step) {
      HonestStep(t, step);
    }
    R.AlwaysExactly(PORTS, s, steps, i, late);
  }

  // ----- Calls that run alone -----

  function AttachSteps(p: nat, table: seq<Slot>, speed: u32): seq<Step> {
    [OpenToAttach(p, table, speed), WriteAttach(p, false), Record(p, Whole)]
  }

  function DetachSteps(p: nat, table: seq<Slot>, port: nat): seq<Step> {
    [OpenToDetach(p, table, port), RemoveFile(p), WriteDetach(p, true)]
  }

  /** p holds the port and has recorded it. */
  function Recording(s: State, p: nat, port: nat, speed: u32): State {
    s.(holders := s.holders[port := p], writers := s.writers[port := p],
       processes := s.processes[p := Recorded(port, speed)])
  }

  /** An attach_device that runs alone, on a machine of any size, takes and records the port
      offered if it is free; it always is when the first free slot is below 256, and it is then the
      lowest free port of its hub. Nothing is offered exactly when all ports of the hub are held. */
  lemma AttachAlone(s: State, p: nat, table: seq<Slot>, speed: u32)
    requires p !in s.processes && Shows(table, s.hubs, s.holders.Keys)
    ensures var i, port := FirstFree(table, speed), Offer(table, speed);
      && (port == -1 <==> forall k | 0 <= k < |s.hubs| && s.hubs[k] == HubFor(speed) :: k in s.holders)
      && (port != -1 && port !in s.holders ==>
            && CanRun(s, AttachSteps(p, table, speed))
            && Run(s, AttachSteps(p, table, speed)) == Recording(s, p, port, speed))
      && (i < 0x100 && i < |s.hubs| ==>
            && port == i && port !in s.holders && s.hubs[port] == HubFor(speed)
            && forall k | 0 <= k < port && s.hubs[k] == HubFor(speed) :: k in s.holders)
  {
    var i := FirstFree(table, speed);
    OfferExactly(table, s.hubs, s.holders.Keys, speed);
    forall k | 0 <= k < i && s.hubs[k] == HubFor(speed) ensures k in s.holders {
      assert !IsFree(table[k], speed);
    }
    if i < |s.hubs| && Offer(table, speed) !in s.holders {
      AttachRuns(s, p, table, speed);
    }
  }

  lemma AttachRuns(s: State, p: nat, table: seq<Slot>, speed: u32)
    requires p !in s.processes && Shows(table, s.hubs, s.holders.Keys)
    requires Offer(table, speed) >= 0 && Offer(table, speed) !in s.holders
    ensures CanRun(s, AttachSteps(p, table, speed))
    ensures Run(s, AttachSteps(p, table, speed)) == Recording(s, p, Offer(table, speed), speed)
  {
    var port := Offer(table, speed);
    var s1 := Apply(s, OpenToAttach(p, table, speed));
    var s2 := Apply(s1, WriteAttach(p, false));
    assert s2.processes == s.processes[p := Attached(port, speed)];
    R.Run3(PORTS, s, OpenToAttach(p, table, speed), WriteAttach(p, false), Record(p, Whole));
  }

  /** When the offered port is held, which takes a first free slot from 256 on, an attach_device
      that runs alone never ends: it can retry any number of times and is where it began. */
  lemma AttachStuck(s: State, p: nat, table: seq<Slot>, speed: u32, n: nat)
    requires p !in s.processes && Shows(table, s.hubs, s.holders.Keys)
    requires Offer(table, speed) != -1 && Offer(table, speed) in s.holders
    ensures FirstFree(table, speed) >= 0x100
    ensures var steps := [OpenToAttach(p, table, speed)] + R.Times(WriteAttach(p, false), n);
      CanRun(s, steps) && Run(s, steps) == Becomes(s, p, Importing(table, speed))
  {
    OfferExactly(table, s.hubs, s.holders.Keys, speed);
    var s1 := Apply(s, OpenToAttach(p, table, speed));
    RetriesInVain(s1, p, n);
    R.RunFirst(PORTS, s, OpenToAttach(p, table, speed), R.Times(WriteAttach(p, false), n));
  }

  lemma DetachSees(table: seq<Slot>, hubs: seq<Hub>, used: set<nat>, port: u8)
    requires Shows(table, hubs, used)
    ensures WillDetach(table, port) <==> port < |hubs| && port in used
  {
    SlotWithIs(table, port, if port < |table| then port else |table|);
  }

  /** A detach_port of a used port that runs alone frees that port and removes its file, and
      changes nothing else. */
  lemma DetachAlone(s: State, p: nat, table: seq<Slot>, port: u8)
    requires p !in s.processes && Shows(table, s.hubs, s.holders.Keys)
    requires port in s.holders && port < |s.hubs|
    ensures CanRun(s, DetachSteps(p, table, port))
    ensures Run(s, DetachSteps(p, table, port)) ==
            s.(holders := s.holders - {port as nat}, writers := s.writers - {port as nat},
               processes := s.processes[p := Detached(port)])
  {
    DetachSees(table, s.hubs, s.holders.Keys, port);
    var s1 := Apply(s, OpenToDetach(p, table, port));
    assert s1.processes == s.processes[p := Removing(port)];
    var s2 := Apply(s1, RemoveFile(p));
    assert s2.processes == s.processes[p := Detaching(port)];
    R.Run3(PORTS, s, OpenToDetach(p, table, port), RemoveFile(p), WriteDetach(p, true));
  }

  lemma AddedAndRemoved(m: map<nat, nat>, k: nat, v: nat)
    requires k !in m
    ensures m[k := v] - {k} == m
  {
  }

  /** Detaching undoes attaching: the ports in use and the files are those of before. */
  lemma DetachUndoesAttach(s: State, p: nat, table: seq<Slot>, speed: u32, q: nat, table': seq<Slot>)
    requires Honest(s) && p !in s.processes && q !in s.processes && p != q
    requires Shows(table, s.hubs, s.holders.Keys)
    requires Offer(table, speed) != -1 && Offer(table, speed) !in s.holders
    requires Shows(table', s.hubs, s.holders.Keys + {Offer(table, speed)})
    ensures CanRun(s, AttachSteps(p, table, speed))
    ensures var port := Offer(table, speed);
      var t := Run(s, AttachSteps(p, table, speed));
      && 0 <= port < 0x100 && CanRun(t, DetachSteps(q, table', port))
      && Run(t, DetachSteps(q, table', port)).holders == s.holders
      && Run(t, DetachSteps(q, table', port)).writers == s.writers
  {
    var port := Offer(table, speed);
    OfferExactly(table, s.hubs, s.holders.Keys, speed);
    AttachRuns(s, p, table, speed);
    var t := Recording(s, p, port, speed);
    assert t.holders.Keys == s.holders.Keys + {port};
    DetachAlone(t, q, table', port);
    assert port !in s.writers;
    AddedAndRemoved(s.holders, port, p);
    AddedAndRemoved(s.writers, port, p);
  }

  // ----- Interleaved calls -----

  /** A machine of one port. */
  predicate OnePort(free: Slot, used: Slot, speed: u32) {
    && free.hub == used.hub == HubFor(speed) && free.port == used.port == 0
    && free.status == VDEV_ST_NULL && used.status != VDEV_ST_NULL
  }

  lemma OnePortTables(free: Slot, used: Slot, speed: u32)
    requires OnePort(free, used, speed)
    ensures Shows([free], [free.hub], {}) && Shows([used], [free.hub], {0})
    ensures Offer([free], speed) == 0 && WillDetach([used], 0)
  {
    FirstFreeIs([free], speed, 0);
    SlotWithIs([used], 0, 0);
  }

  function OverlapSteps(free: Slot, used: Slot, speed: u32): seq<Step> {
    [OpenToAttach(1, [free], speed), WriteAttach(1, false), OpenToDetach(2, [used], 0)]
    + [RemoveFile(2), WriteDetach(2, true), Record(1, Whole)]
  }

  /** Process 1 attaches the port, process 2 reads it as used. */
  lemma OverlapBegins(free: Slot, used: Slot, speed: u32)
    requires OnePort(free, used, speed)
    ensures var s, steps := Start([free.hub]), OverlapSteps(free, used, speed)[..3];
      && CanRun(s, steps)
      && Run(s, steps) == State([free.hub], map[0 := 1], map[], map[1 := Attached(0, speed), 2 := Removing(0)])
  {
    OnePortTables(free, used, speed);
    var s0 := Start([free.hub]);
    assert s0.holders.Keys == {};
    var a, b, c := OpenToAttach(1, [free], speed), WriteAttach(1, false), OpenToDetach(2, [used], 0);
    var s1 := Apply(s0, a);
    assert s1 == s0.(processes := map[1 := Importing([free], speed)]);
    var s2 := Apply(s1, b);
    assert s2 == State([free.hub], map[0 := 1], map[], map[1 := Attached(0, speed)]);
    assert s2.holders.Keys == {0};
    R.Run3(PORTS, s0, a, b, c);
    assert OverlapSteps(free, used, speed)[..3] == [a, b, c];
  }

  /** Process 2 goes on, then process 1 records. */
  lemma OverlapEnds(hub: Hub, speed: u32)
    ensures var s := State([hub], map[0 := 1], map[], map[1 := Attached(0, speed), 2 := Removing(0)]);
      var steps := [RemoveFile(2), WriteDetach(2, true), Record(1, Whole)];
      && CanRun(s, steps)
      && Run(s, steps).holders == map[] && Run(s, steps).writers == map[0 := 1]
  {
    var s := State([hub], map[0 := 1], map[], map[1 := Attached(0, speed), 2 := Removing(0)]);
    var s1 := Apply(s, RemoveFile(2));
    assert s1 == s.(processes := map[1 := Attached(0, speed), 2 := Detaching(0)]);
    var s2 := Apply(s1, WriteDetach(2, true));
    assert s2 == State([hub], map[], map[], map[1 := Attached(0, speed), 2 := Detached(0)]);
    R.Run3(PORTS, s, RemoveFile(2), WriteDetach(2, true), Record(1, Whole));
  }

  /** An attach and a detach that overlap can leave the file of a port that nobody holds, with no
      connection lost and no write refused. */
  lemma OverlapLeavesFile(free: Slot, used: Slot, speed: u32)
    requires OnePort(free, used, speed)
    ensures var steps := OverlapSteps(free, used, speed);
      && CanRun(Start([free.hub]), steps)
      && Run(Start([free.hub]), steps).holders == map[]
      && Run(Start([free.hub]), steps).writers == map[0 := 1]
  {
    var steps := OverlapSteps(free, used, speed);
    OverlapBegins(free, used, speed);
    OverlapEnds(free.hub, speed);
    R.RunsJoin(PORTS, Start([free.hub]), steps[..3], steps[3..]);
    assert steps[..3] + steps[3..] == steps;
  }

  /** Process 2 reads the port as used, and process 3 detaches it. */
  lemma StaleBegins(hub: Hub, used: Slot, first: Process)
    requires Shows([used], [hub], {0}) && WillDetach([used], 0)
    ensures var s := State([hub], map[0 := 1], map[0 := 1], map[1 := first]);
      var steps := [OpenToDetach(2, [used], 0)] + DetachSteps(3, [used], 0);
      && CanRun(s, steps)
      && Run(s, steps) == State([hub], map[], map[], map[1 := first, 2 := Removing(0), 3 := Detached(0)])
  {
    var s := State([hub], map[0 := 1], map[0 := 1], map[1 := first]);
    assert s.holders.Keys == {0};
    var s1 := Apply(s, OpenToDetach(2, [used], 0));
    assert s1 == s.(processes := map[1 := first, 2 := Removing(0)]);
    DetachAlone(s1, 3, [used], 0);
    R.RunFirst(PORTS, s, OpenToDetach(2, [used], 0), DetachSteps(3, [used], 0));
  }

  /** Process 2 goes on, whoever holds the port by now. */
  lemma StaleGoesOn(s: State)
    requires 2 in s.processes && s.processes[2] == Removing(0)
    ensures var steps := [RemoveFile(2)] + ([WriteDetach(2, true)] + []);
      && CanRun(s, steps)
      && Run(s, steps) == s.(holders := s.holders - {0}, writers := s.writers - {0},
                             processes := s.processes[2 := Detached(0)])
  {
    var s1 := Apply(s, RemoveFile(2));
    assert s1.processes == s.processes[2 := Detaching(0)];
    R.RunFirst(PORTS, s1, WriteDetach(2, true), []);
    R.RunFirst(PORTS, s, RemoveFile(2), [WriteDetach(2, true)] + []);
  }

  /** Process 1 attaches the port, process 2 reads it as used, process 3 detaches it, process 4
      attaches it, and process 2 goes on. */
  function StaleSteps(free: Slot, used: Slot, speed: u32): seq<Step> {
    AttachSteps(1, [free], speed) + (([OpenToDetach(2, [used], 0)] + DetachSteps(3, [used], 0)) +
    (AttachSteps(4, [free], speed) + ([RemoveFile(2)] + ([WriteDetach(2, true)] + []))))
  }

  /** A detach that read its table before can take away the port and the file of a later,
      complete attach. */
  lemma StaleDetachFrees(free: Slot, used: Slot, speed: u32)
    requires OnePort(free, used, speed)
    ensures var s, steps := Start([free.hub]), StaleSteps(free, used, speed);
      && CanRun(s, steps)
      && 4 in Run(s, steps).processes && Run(s, steps).processes[4] == Recorded(0, speed)
      && Run(s, steps).holders == map[] && Run(s, steps).writers == map[]
  {
    var hub, mine := free.hub, Recorded(0, speed);
    OnePortTables(free, used, speed);
    var s0 := Start([hub]);
    assert s0.holders.Keys == {};
    AttachRuns(s0, 1, [free], speed);
    var s1 := State([hub], map[0 := 1], map[0 := 1], map[1 := mine]);
    assert Recording(s0, 1, 0, speed) == s1;
    StaleBegins(hub, used, mine);
    var s2 := State([hub], map[], map[], map[1 := mine, 2 := Removing(0), 3 := Detached(0)]);
    StaleEnds(s2, free, speed);
    var middle := [OpenToDetach(2, [used], 0)] + DetachSteps(3, [used], 0);
    var last := AttachSteps(4, [free], speed) + ([RemoveFile(2)] + ([WriteDetach(2, true)] + []));
    R.RunsJoin(PORTS, s1, middle, last);
    R.RunsJoin(PORTS, s0, AttachSteps(1, [free], speed), middle + last);
  }

  lemma StaleEnds(s: State, free: Slot, speed: u32)
    requires Shows([free], s.hubs, {}) && Offer([free], speed) == 0
    requires s.holders == map[] && s.writers == map[] && 4 !in s.processes
    requires 2 in s.processes && s.processes[2] == Removing(0)
    ensures var steps := AttachSteps(4, [free], speed) + ([RemoveFile(2)] + ([WriteDetach(2, true)] + []));
      && CanRun(s, steps)
      && 4 in Run(s, steps).processes && Run(s, steps).processes[4] == Recorded(0, speed)
      && Run(s, steps).holders == map[] && Run(s, steps).writers == map[]
  {
    assert s.holders.Keys == {};
    AttachRuns(s, 4, [free], speed);
    StaleGoesOn(Recording(s, 4, 0, speed));
    R.RunsJoin(PORTS, s, AttachSteps(4, [free], speed), [RemoveFile(2)] + ([WriteDetach(2, true)] + []));
  }

  // ----- The condition on the aliases is exact -----

  /** Some table shows the machine as it is. */
  lemma SomeTable(s: State)
    ensures exists table :: Shows(table, s.hubs, s.holders.Keys)
  {
    var table := seq(|s.hubs|, k requires 0 <= k < |s.hubs| =>
      Slot(s.hubs[k], k % 0x100, if k in s.holders then 6 else VDEV_ST_NULL, 0, 0, 0, None));
    assert Shows(table, s.hubs, s.holders.Keys);
  }

  function SpeedFor(hub: Hub): (speed: u32)
    ensures HubFor(speed) == hub
  {
    match hub
    case Super => USB_SPEED_SUPER
    case High => 3
  }

  ghost predicate GoesWrong(s: State, steps: seq<Step>) {
    CanRun(s, steps) && !RightHubs(Run(s, steps))
  }

  /** All held ports are of this hub. */
  ghost predicate Only(s: State, hub: Hub) {
    forall port | port in s.holders :: port < |s.hubs| && s.hubs[port] == hub
  }

  ghost function FreeBelow(s: State): set<nat> {
    set k: nat | k < 0x100 && k !in s.holders
  }

  /** Slot k, the first one of its hub from 256 on, is the alias of a port of the other hub, and
      all held ports are of the hub of slot k. */
  ghost predicate BadAlias(s: State, k: nat) {
    FirstAbove(s.hubs, k) && s.hubs[k % 0x100] != s.hubs[k] && Only(s, s.hubs[k])
  }

  ghost predicate Filling(s: State, k: nat, n: nat) {
    Inv(s) && BadAlias(s, k) && forall p | p in s.processes :: p < n
  }

  /** Attaching for one hub until all its ports below 256 are held, and once more, takes a port of
      the other hub. */
  lemma {:induction false} FillUp(s: State, k: nat, n: nat)
    requires Filling(s, k, n)
    ensures exists steps :: GoesWrong(s, steps)
    decreases FreeBelow(s)
  {
    var i, speed, steps := NextAttach(s, k, n);
    if i < 0x100 {
      AttachMore(s, k, n, i, speed, steps);
      var t := Recording(s, n, i, speed);
      FillUp(t, k, n + 1);
      GoesWrongLater(s, steps, t);
    } else {
      WrongAttach(s, n, i % 0x100, speed, steps);
    }
  }

  /** The next attach for the hub of slot k gets a port of this hub below 256, or the alias k. */
  lemma NextAttach(s: State, k: nat, n: nat) returns (i: nat, speed: u32, steps: seq<Step>)
    requires Filling(s, k, n)
    ensures HubFor(speed) == s.hubs[k]
    ensures i <= k && s.hubs[i] == s.hubs[k] && (i < 0x100 || i == k) && i % 0x100 !in s.holders
    ensures CanRun(s, steps) && Run(s, steps) == Recording(s, n, i % 0x100, speed)
  {
    SomeTable(s);
    var table :| Shows(table, s.hubs, s.holders.Keys);
    speed := SpeedFor(s.hubs[k]);
    i := FirstFree(table, speed);
    NextOffer(s, k, table, speed);
    AttachRuns(s, n, table, speed);
    steps := AttachSteps(n, table, speed);
  }

  lemma AttachMore(s: State, k: nat, n: nat, i: nat, speed: u32, steps: seq<Step>)
    requires Filling(s, k, n)
    requires i < 0x100 && i < |s.hubs| && s.hubs[i] == s.hubs[k] && i !in s.holders
    requires CanRun(s, steps) && Run(s, steps) == Recording(s, n, i, speed)
    ensures var t := Recording(s, n, i, speed);
      Filling(t, k, n + 1) && FreeBelow(t) < FreeBelow(s)
  {
    RunKeepsInv(s, steps);
    assert i in FreeBelow(s) && i !in FreeBelow(Recording(s, n, i, speed));
  }

  lemma WrongAttach(s: State, n: nat, port: nat, speed: u32, steps: seq<Step>)
    requires port < |s.hubs| && s.hubs[port] != HubFor(speed)
    requires CanRun(s, steps) && Run(s, steps) == Recording(s, n, port, speed)
    ensures exists steps :: GoesWrong(s, steps)
  {
    var t := Recording(s, n, port, speed);
    assert port in t.holders && t.holders[port] == n;
    assert GoesWrong(s, steps);
  }

  lemma GoesWrongLater(s: State, steps: seq<Step>, t: State)
    requires CanRun(s, steps) && Run(s, steps) == t && exists more :: GoesWrong(t, more)
    ensures exists all :: GoesWrong(s, all)
  {
    var more :| GoesWrong(t, more);
    R.RunsJoin(PORTS, s, steps, more);
    assert GoesWrong(s, steps + more);
  }

  lemma NextOffer(s: State, k: nat, table: seq<Slot>, speed: u32)
    requires Inv(s) && BadAlias(s, k) && Shows(table, s.hubs, s.holders.Keys) && HubFor(speed) == s.hubs[k]
    ensures var i, port := FirstFree(table, speed), Offer(table, speed);
      && i <= k && port == i % 0x100 && port !in s.holders && s.hubs[i] == s.hubs[k]
      && (i < 0x100 || i == k)
  {
    OfferExactly(table, s.hubs, s.holders.Keys, speed);
    assert k !in s.holders && k % 0x100 !in s.holders;
    if FirstFree(table, speed) >= 0x100 {
      FirstAboveOffered(s, table, speed, k);
    }
  }

  lemma FirstAboveOffered(s: State, table: seq<Slot>, speed: u32, k: nat)
    requires Inv(s) && Shows(table, s.hubs, s.holders.Keys)
    requires FirstAbove(s.hubs, k) && s.hubs[k] == HubFor(speed) && FirstFree(table, speed) >= 0x100
    ensures FirstFree(table, speed) == k
  {
    assert k !in s.holders && IsFree(table[k], speed);
  }

  ghost predicate AlwaysRight(hubs: seq<Hub>) {
    forall steps: seq<Step> :: !GoesWrong(Start(hubs), steps)
  }

  lemma AliasesGoRight(hubs: seq<Hub>, steps: seq<Step>)
    requires AliasesFit(hubs)
    ensures !GoesWrong(Start(hubs), steps)
  {
    if CanRun(Start(hubs), steps) {
      EveryRun(hubs, steps);
    }
  }

  lemma AliasesGoWrong(hubs: seq<Hub>)
    requires !AliasesFit(hubs)
    ensures exists steps :: GoesWrong(Start(hubs), steps)
  {
    var k :| FirstAbove(hubs, k) && hubs[k % 0x100] != hubs[k];
    FillUp(Start(hubs), k, 0);
  }

  /** Over all runs, held ports are of the hubs their holders need exactly on machines whose
      aliases fit; all machines of at most 256 ports are such. */
  lemma RightHubsExactly(hubs: seq<Hub>)
    ensures AlwaysRight(hubs) <==> AliasesFit(hubs)
    ensures |hubs| <= 0x100 ==> AliasesFit(hubs)
  {
    if AliasesFit(hubs) {
      forall steps: seq<Step> ensures !GoesWrong(Start(hubs), steps) {
        AliasesGoRight(hubs, steps);
      }
    } else {
      AliasesGoWrong(hubs);
    }
  }
}
