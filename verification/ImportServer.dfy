/** Many import handlers at once: usbipd forks one child per connection, each child works from its
    own snapshot of the device list, and the kernel alone decides who gets a device. */
module ImportServer {
  import R = Runs
  import opened Wrappers
  import opened Words
  import opened Devlist
  import opened ExportDecision

  type Busid = seq<u8>

  datatype Phase =
    | Forked
    | Refreshed(devs: seq<ExportedDevice>)
    | Owes(dev: Busid, status: u32, epoch: nat)     // decided, reply not yet sent
    | Exited

  datatype Handler = Handler(req: seq<u8>, phase: Phase)

  datatype Event =
    | Replied(dev: Busid, status: u32, epoch: nat)
    | Released(dev: Busid)

  /** kernel gives the status of every bound device; log is the history of replies and releases. */
  datatype System = System(kernel: map<Busid, int>, handlers: map<nat, Handler>, log: seq<Event>)

  datatype Step =
    | Fork(h: nat, req: seq<u8>)
    | Refresh(h: nat, devs: seq<ExportedDevice>)
    | Decide(h: nat, accepted: bool)
    | Reply(h: nat)
    | Release(dev: Busid, next: Option<int>)
    | Change(dev: Busid, next: Option<int>)

  predicate Reflects(devs: seq<ExportedDevice>, kernel: map<Busid, int>) {
    forall i | 0 <= i < |devs| ::
      var b := CString(devs[i].udev.busid); b in kernel && kernel[b] == devs[i].status
  }

  /** How often d has been released. */
  function Releases(log: seq<Event>, d: Busid): nat {
    if log == [] then 0
    else Releases(log[..|log| - 1], d) + if log[|log| - 1] == Released(d) then 1 else 0
  }

  function SetStatus(kernel: map<Busid, int>, d: Busid, next: Option<int>): map<Busid, int> {
    if next.Some? then kernel[d := next.value] else kernel - {d}
  }

  /** The device a handler's request selects in its snapshot. */
  function Selected(h: Handler): Busid
    requires h.phase.Refreshed?
  {
    match Search(h.phase.devs, h.req)
    case None => []
    case Some(d) => CString(d.udev.busid)
  }

  predicate Enabled(s: System, e: Step) {
    match e
    case Fork(h, _) => h !in s.handlers
    case Refresh(h, devs) => h in s.handlers && s.handlers[h].phase.Forked? && Reflects(devs, s.kernel)
    case Decide(h, accepted) =>
      && h in s.handlers && s.handlers[h].phase.Refreshed?
      && (accepted ==>
            && Offers(s.handlers[h].phase.devs, s.handlers[h].req)
            // the kernel takes a socket only from a device that is available now
            && Selected(s.handlers[h]) in s.kernel
            && s.kernel[Selected(s.handlers[h])] == SDEV_ST_AVAILABLE)
    case Reply(h) => h in s.handlers && s.handlers[h].phase.Owes?
    // a device leaves the used state by being released, to whatever state
    case Release(d, next) => d in s.kernel && s.kernel[d] == SDEV_ST_USED && next != Some(SDEV_ST_USED)
    // any other change of a device that is not in use, plugging and unplugging included
    case Change(d, next) => (d in s.kernel ==> s.kernel[d] != SDEV_ST_USED) && next != Some(SDEV_ST_USED)
  }

  function Apply(s: System, e: Step): System
    requires Enabled(s, e)
  {
    match e
    case Fork(h, req) => s.(handlers := s.handlers[h := Handler(req, Forked)])
    case Refresh(h, devs) => s.(handlers := s.handlers[h := s.handlers[h].(phase := Refreshed(devs))])
    case Decide(h, accepted) =>
      var me := s.handlers[h];
      var d := Selected(me);
      var owes := Owes(d, ReplyStatus(me.phase.devs, me.req, accepted), Releases(s.log, d));
      s.(kernel := if accepted then s.kernel[d := SDEV_ST_USED] else s.kernel,
         handlers := s.handlers[h := me.(phase := owes)])
    case Reply(h) =>
      var p := s.handlers[h].phase;
      s.(handlers := s.handlers[h := s.handlers[h].(phase := Exited)],
         log := s.log + [Replied(p.dev, p.status, p.epoch)])
    case Release(d, next) => s.(kernel := SetStatus(s.kernel, d, next), log := s.log + [Released(d)])
    case Change(d, next) => s.(kernel := SetStatus(s.kernel, d, next))
  }

  predicate OwesOk(s: System, h: nat, d: Busid) {
    h in s.handlers && s.handlers[h].phase.Owes? && s.handlers[h].phase.dev == d && s.handlers[h].phase.status == ST_OK
  }

  predicate IsOk(e: Event, d: Busid) {
    e.Replied? && e.dev == d && e.status == ST_OK
  }

  // ----- Every step: one grant per device and period between releases -----

  predicate InUse(s: System, d: Busid) {
    d in s.kernel && s.kernel[d] == SDEV_ST_USED
  }

  /** A grant of d in epoch n is current only while d is in use. */
  predicate Timely(s: System, d: Busid, n: nat) {
    n <= Releases(s.log, d) && (n == Releases(s.log, d) ==> InUse(s, d))
  }

  /** Where a grant stands: with a handler that has not replied yet, or in the log. */
  datatype Source = Pending(h: nat) | Sent(i: nat)

  predicate IsGrant(s: System, from: Source, d: Busid, n: nat) {
    match from
    case Pending(h) => OwesOk(s, h, d) && s.handlers[h].phase.epoch == n
    case Sent(i) => i < |s.log| && IsOk(s.log[i], d) && s.log[i].epoch == n
  }

  /** A device is granted at most once in each epoch, and in the current one only while in use. */
  ghost predicate Grants(s: System) {
    && (forall from, d, n | IsGrant(s, from, d, n) :: Timely(s, d, n))
    && (forall a, b, d, n | IsGrant(s, a, d, n) && IsGrant(s, b, d, n) :: a == b)
  }

  lemma ReleasesPush(log: seq<Event>, e: Event, d: Busid)
    ensures Releases(log + [e], d) == Releases(log, d) + if e == Released(d) then 1 else 0
  {
    assert (log + [e])[..|log|] == log;
  }

  predicate IsRelease(e: Step, d: Busid) {
    e.Release? && e.dev == d
  }

  lemma ReleasesStep(s: System, e: Step, d: Busid)
    requires Enabled(s, e)
    ensures Releases(Apply(s, e).log, d) == Releases(s.log, d) + if IsRelease(e, d) then 1 else 0
  {
    if e.Reply? {
      ReleasesPush(s.log, Apply(s, e).log[|s.log|], d);
    } else if e.Release? {
      ReleasesPush(s.log, Released(e.dev), d);
    }
  }

  /** A device leaves the used state only by a release. */
  lemma UseStep(s: System, e: Step, d: Busid)
    requires Enabled(s, e) && InUse(s, d) && !IsRelease(e, d)
    ensures InUse(Apply(s, e), d)
  {
  }

  lemma TimelyStays(s: System, e: Step, d: Busid, n: nat)
    requires Enabled(s, e) && Timely(s, d, n)
    ensures Timely(Apply(s, e), d, n)
  {
    ReleasesStep(s, e, d);
    if n == Releases(s.log, d) && !IsRelease(e, d) {
      UseStep(s, e, d);
    }
  }

  /** Where a grant was before the step: a reply sent was a reply owed. */
  function Before(s: System, e: Step, from: Source): Source {
    if e.Reply? && from == Sent(|s.log|) then Pending(e.h) else from
  }

  /** The step makes this grant. */
  predicate IsNew(s: System, e: Step, from: Source) {
    e.Decide? && from == Pending(e.h)
  }

  lemma GrantWas(s: System, e: Step, from: Source, d: Busid, n: nat)
    requires Enabled(s, e) && IsGrant(Apply(s, e), from, d, n) && !IsNew(s, e, from)
    ensures IsGrant(s, Before(s, e, from), d, n)
  {
    var t := Apply(s, e);
    if from.Sent? && from.i < |s.log| {
      assert t.log[from.i] == s.log[from.i];
    }
  }

  /** A grant made now is of a device that was not in use, in the current epoch. */
  lemma GrantIsNew(s: System, e: Step, d: Busid, n: nat)
    requires Enabled(s, e) && e.Decide? && IsGrant(Apply(s, e), Pending(e.h), d, n)
    ensures n == Releases(s.log, d) && !InUse(s, d) && InUse(Apply(s, e), d)
  {
    OkMeansExported(s.handlers[e.h].phase.devs, s.handlers[e.h].req, e.accepted);
  }

  lemma GrantTimely(s: System, e: Step, from: Source, d: Busid, n: nat)
    requires Grants(s) && Enabled(s, e) && IsGrant(Apply(s, e), from, d, n)
    ensures Timely(Apply(s, e), d, n)
  {
    if IsNew(s, e, from) {
      GrantIsNew(s, e, d, n);
    } else {
      GrantWas(s, e, from, d, n);
      TimelyStays(s, e, d, n);
    }
  }

  lemma GrantSole(s: System, e: Step, a: Source, b: Source, d: Busid, n: nat)
    requires Grants(s) && Enabled(s, e)
    requires IsGrant(Apply(s, e), a, d, n) && IsGrant(Apply(s, e), b, d, n) && !IsNew(s, e, b)
    ensures a == b
  {
    GrantWas(s, e, b, d, n);
    assert Timely(s, d, n);
    if IsNew(s, e, a) {
      GrantIsNew(s, e, d, n);
    } else {
      GrantWas(s, e, a, d, n);
      assert Before(s, e, a) == Before(s, e, b);
    }
  }

  lemma GrantsKept(s: System, e: Step)
    requires Grants(s) && Enabled(s, e)
    ensures Grants(Apply(s, e))
  {
    var t := Apply(s, e);
    forall from, d, n | IsGrant(t, from, d, n) ensures Timely(t, d, n) {
      GrantTimely(s, e, from, d, n);
    }
    forall a, b, d, n | IsGrant(t, a, d, n) && IsGrant(t, b, d, n) ensures a == b {
      if !IsNew(s, e, b) {
        GrantSole(s, e, a, b, d, n);
      } else if !IsNew(s, e, a) {
        GrantSole(s, e, b, a, d, n);
      }
    }
  }

  // ----- Runs -----

  ghost const SERVER: R.Machine<System, Step> :=
    R.Machine((s, e) => Enabled(s, e), (s, e) => if Enabled(s, e) then Apply(s, e) else s)

  ghost predicate CanRun(s: System, steps: seq<Step>) {
    R.CanRun(SERVER, s, steps)
  }

  ghost function Run(s: System, steps: seq<Step>): System {
    R.Run(SERVER, s, steps)
  }

  function Start(kernel: map<Busid, int>): System {
    System(kernel, map[], [])
  }

  lemma RunKeepsGrants(s: System, steps: seq<Step>)
    requires Grants(s) && CanRun(s, steps)
    ensures Grants(Run(s, steps))
  {
    var i := (t: System) => Grants(t);
    forall t: System, e: Step | i(t) && SERVER.enabled(t, e) ensures i(SERVER.apply(t, e)) {
      GrantsKept(t, e);
    }
    R.Invariant(SERVER, s, steps, i);
  }

  /** In every interleaving of any number of handlers, whatever snapshots they hold, no two ST_OK
      replies for a device were granted in the same period between two releases; every other reply
      is one of the four refusals. */
  lemma OneGrantPerPeriod(kernel: map<Busid, int>, steps: seq<Step>)
    requires CanRun(Start(kernel), steps)
    ensures var log := Run(Start(kernel), steps).log;
      forall i, j, d | 0 <= i < j < |log| && IsOk(log[i], d) && IsOk(log[j], d) :: log[i].epoch != log[j].epoch
    ensures forall e | e in Run(Start(kernel), steps).log && e.Replied? ::
      e.status in {ST_OK, ST_NA, ST_DEV_BUSY, ST_DEV_ERR, ST_NODEV}
  {
    RunKeepsGrants(Start(kernel), steps);
    StatusesKept(Start(kernel), steps);
    var s := Run(Start(kernel), steps);
    forall i, j, d | 0 <= i < j < |s.log| && IsOk(s.log[i], d) && IsOk(s.log[j], d)
      ensures s.log[i].epoch != s.log[j].epoch
    {
      assert IsGrant(s, Sent(i), d, s.log[i].epoch) && IsGrant(s, Sent(j), d, s.log[j].epoch);
    }
  }

  predicate KnownStatus(st: u32) {
    st in {ST_OK, ST_NA, ST_DEV_BUSY, ST_DEV_ERR, ST_NODEV}
  }

  predicate KnownStatuses(s: System) {
    && (forall i | 0 <= i < |s.log| :: s.log[i].Replied? ==> KnownStatus(s.log[i].status))
    && (forall h | h in s.handlers :: s.handlers[h].phase.Owes? ==> KnownStatus(s.handlers[h].phase.status))
  }

  lemma StatusStep(s: System, e: Step)
    requires KnownStatuses(s) && Enabled(s, e)
    ensures KnownStatuses(Apply(s, e))
  {
    var t := Apply(s, e);
    assert forall i | 0 <= i < |s.log| :: t.log[i] == s.log[i];
  }

  lemma StatusesKept(s: System, steps: seq<Step>)
    requires KnownStatuses(s) && CanRun(s, steps)
    ensures KnownStatuses(Run(s, steps))
  {
    var i := (t: System) => KnownStatuses(t);
    forall t: System, e: Step | i(t) && SERVER.enabled(t, e) ensures i(SERVER.apply(t, e)) {
      StatusStep(t, e);
    }
    R.Invariant(SERVER, s, steps, i);
  }

  // ----- Replies between two releases -----

  /** Between any two ST_OK replies for d lies a release of d. */
  ghost predicate OneOkPerRelease(log: seq<Event>, d: Busid) {
    forall i, j | 0 <= i < j < |log| && IsOk(log[i], d) && IsOk(log[j], d) ::
      exists k | i < k < j :: log[k] == Released(d)
  }

  /** A device is released while a handler it was granted to still owes its reply. */
  predicate Early(s: System, e: Step) {
    e.Release? && exists h | h in s.handlers :: OwesOk(s, h, e.dev)
  }

  ghost predicate EarlyDuring(s: System, steps: seq<Step>) {
    R.Occurs(SERVER, s, steps, (t, e) => Early(t, e))
  }

  /** Grants are answered in the period they were made in. */
  ghost predicate Punctual(s: System) {
    && (forall h, d | OwesOk(s, h, d) :: s.handlers[h].phase.epoch == Releases(s.log, d))
    && (forall i, d | 0 <= i < |s.log| && IsOk(s.log[i], d) :: s.log[i].epoch == Releases(s.log[..i], d))
  }

  lemma OwedPunctual(s: System, e: Step, h: nat, d: Busid)
    requires Punctual(s) && Enabled(s, e) && !Early(s, e) && OwesOk(Apply(s, e), h, d)
    ensures Apply(s, e).handlers[h].phase.epoch == Releases(Apply(s, e).log, d)
  {
    if IsNew(s, e, Pending(h)) {
    } else {
      GrantWas(s, e, Pending(h), d, Apply(s, e).handlers[h].phase.epoch);
      ReleasesStep(s, e, d);
    }
  }

  lemma SentPunctual(s: System, e: Step, i: nat, d: Busid)
    requires Punctual(s) && Enabled(s, e) && i < |Apply(s, e).log| && IsOk(Apply(s, e).log[i], d)
    ensures Apply(s, e).log[i].epoch == Releases(Apply(s, e).log[..i], d)
  {
    var t := Apply(s, e);
    assert t.log[..i] == s.log[..i];
    GrantWas(s, e, Sent(i), d, t.log[i].epoch);
    if i == |s.log| {
      assert s.log[..i] == s.log;
    }
  }

  lemma PunctualKept(s: System, e: Step)
    requires Punctual(s) && Enabled(s, e) && !Early(s, e)
    ensures Punctual(Apply(s, e))
  {
    var t := Apply(s, e);
    forall h, d | OwesOk(t, h, d) ensures t.handlers[h].phase.epoch == Releases(t.log, d) {
      OwedPunctual(s, e, h, d);
    }
    forall i, d | 0 <= i < |t.log| && IsOk(t.log[i], d) ensures t.log[i].epoch == Releases(t.log[..i], d) {
      SentPunctual(s, e, i, d);
    }
  }

  lemma {:induction false} ReleaseBetween(log: seq<Event>, d: Busid, i: nat, j: nat)
    requires i <= j <= |log| && Releases(log[..i], d) != Releases(log[..j], d)
    ensures exists k | i <= k < j :: log[k] == Released(d)
    decreases j
  {
    if i < j {
      assert log[..j][..j - 1] == log[..j - 1];
      if log[j - 1] != Released(d) {
        ReleaseBetween(log, d, i, j - 1);
      }
    }
  }

  lemma PunctualWindows(s: System, d: Busid)
    requires Grants(s) && Punctual(s)
    ensures OneOkPerRelease(s.log, d)
  {
    forall i, j | 0 <= i < j < |s.log| && IsOk(s.log[i], d) && IsOk(s.log[j], d)
      ensures exists k | i < k < j :: s.log[k] == Released(d)
    {
      assert IsGrant(s, Sent(i), d, s.log[i].epoch) && IsGrant(s, Sent(j), d, s.log[j].epoch);
      ReleaseBetween(s.log, d, i, j);
      var k :| i <= k < j && s.log[k] == Released(d);
      assert k != i;
    }
  }

  lemma PromptRunKeeps(s: System, steps: seq<Step>)
    requires Grants(s) && Punctual(s) && CanRun(s, steps) && !EarlyDuring(s, steps)
    ensures Grants(Run(s, steps)) && Punctual(Run(s, steps))
  {
    var i := (t: System) => Grants(t) && Punctual(t);
    var early := (t: System, e: Step) => Early(t, e);
    forall t: System, e: Step | i(t) && SERVER.enabled(t, e) && !early(t, e) ensures i(SERVER.apply(t, e)) {
      GrantsKept(t, e);
      PunctualKept(t, e);
    }
    R.InvariantUnless(SERVER, s, steps, i, early);
  }

  /** When no device is released while an ST_OK reply for it is still owed, at most one ST_OK
      reply per device is sent between two releases. */
  lemma OneOkReplyPerRelease(kernel: map<Busid, int>, steps: seq<Step>, d: Busid)
    requires CanRun(Start(kernel), steps) && !EarlyDuring(Start(kernel), steps)
    ensures OneOkPerRelease(Run(Start(kernel), steps).log, d)
  {
    PromptRunKeeps(Start(kernel), steps);
    PunctualWindows(Run(Start(kernel), steps), d);
  }

  // ----- The condition is exact -----

  /** A handler is forked, sees this device alone, and is granted it. */
  function GrantSteps(h: nat, dev: ExportedDevice): seq<Step> {
    [Fork(h, dev.udev.busid)] + ([Refresh(h, [dev])] + ([Decide(h, true)] + []))
  }

  /** The state in which handler h owes the reply for the device it was granted. */
  function Granted(s: System, h: nat, dev: ExportedDevice): System {
    var d := CString(dev.udev.busid);
    s.(kernel := s.kernel[d := SDEV_ST_USED],
       handlers := s.handlers[h := Handler(dev.udev.busid, Owes(d, ST_OK, Releases(s.log, d)))])
  }

  predicate Offered(s: System, dev: ExportedDevice) {
    var d := CString(dev.udev.busid);
    dev.status == SDEV_ST_AVAILABLE && PathFits(dev) && d in s.kernel && s.kernel[d] == SDEV_ST_AVAILABLE
  }

  lemma SoleDevice(dev: ExportedDevice)
    requires dev.status == SDEV_ST_AVAILABLE && PathFits(dev)
    ensures Search([dev], dev.udev.busid) == Some(dev)
    ensures Offers([dev], dev.udev.busid) && ReplyStatus([dev], dev.udev.busid, true) == ST_OK
  {
  }

  lemma GrantRuns(s: System, h: nat, dev: ExportedDevice)
    requires h !in s.handlers && Offered(s, dev)
    ensures CanRun(s, GrantSteps(h, dev)) && Run(s, GrantSteps(h, dev)) == Granted(s, h, dev)
  {
    var req := dev.udev.busid;
    var s1 := s.(handlers := s.handlers[h := Handler(req, Forked)]);
    var s2 := s.(handlers := s.handlers[h := Handler(req, Refreshed([dev]))]);
    assert Reflects([dev], s1.kernel);
    assert Apply(s1, Refresh(h, [dev])) == s2;
    SoleDevice(dev);
    assert Selected(s2.handlers[h]) == CString(req);
    assert Apply(s2, Decide(h, true)).handlers == Granted(s, h, dev).handlers;
    R.RunFirst(SERVER, s2, Decide(h, true), []);
    R.RunFirst(SERVER, s1, Refresh(h, [dev]), [Decide(h, true)] + []);
    R.RunFirst(SERVER, s, Fork(h, req), [Refresh(h, [dev])] + ([Decide(h, true)] + []));
  }

  /** What can follow a release that comes too early, to whatever state: the device becomes
      available, goes to a second handler, and both replies are sent. */
  function SecondGrant(h: nat, g: nat, d: Busid, dev: ExportedDevice, next: Option<int>): seq<Step> {
    [Release(d, next)] + ([Change(d, Some(SDEV_ST_AVAILABLE))] +
    (GrantSteps(g, dev) + ([Reply(h)] + ([Reply(g)] + []))))
  }

  lemma TwoReplies(s: System, h: nat, g: nat, d: Busid)
    requires h != g && OwesOk(s, h, d) && OwesOk(s, g, d)
    ensures var steps := [Reply(h)] + ([Reply(g)] + []);
      && CanRun(s, steps) && |Run(s, steps).log| == |s.log| + 2
      && Run(s, steps).log[..|s.log|] == s.log
      && IsOk(Run(s, steps).log[|s.log|], d) && IsOk(Run(s, steps).log[|s.log| + 1], d)
  {
    var s1 := Apply(s, Reply(h));
    assert OwesOk(s1, g, d);
    R.RunFirst(SERVER, s1, Reply(g), []);
    R.RunFirst(SERVER, s, Reply(h), [Reply(g)] + []);
  }

  /** Any early release can be followed by two ST_OK replies for the device with no release in
      between. */
  lemma EarlyReleaseBreaks(s: System, h: nat, g: nat, d: Busid, dev: ExportedDevice, next: Option<int>)
    requires OwesOk(s, h, d) && Enabled(s, Release(d, next)) && g !in s.handlers
    requires CString(dev.udev.busid) == d && dev.status == SDEV_ST_AVAILABLE && PathFits(dev)
    ensures Early(s, Release(d, next))
    ensures CanRun(s, SecondGrant(h, g, d, dev, next))
    ensures !OneOkPerRelease(Run(s, SecondGrant(h, g, d, dev, next)).log, d)
  {
    var s1 := Apply(s, Release(d, next));
    var available := Change(d, Some(SDEV_ST_AVAILABLE));
    var s2 := Apply(s1, available);
    GrantRuns(s2, g, dev);
    var s3 := Granted(s2, g, dev);
    assert OwesOk(s3, h, d) && OwesOk(s3, g, d);
    TwoReplies(s3, h, g, d);
    var replies := [Reply(h)] + ([Reply(g)] + []);
    R.RunsJoin(SERVER, s2, GrantSteps(g, dev), replies);
    R.RunFirst(SERVER, s1, available, GrantSteps(g, dev) + replies);
    R.RunFirst(SERVER, s, Release(d, next), [available] + (GrantSteps(g, dev) + replies));
    var log, n := Run(s3, replies).log, |s3.log|;
    assert IsOk(log[n], d) && IsOk(log[n + 1], d);
  }

  /** From the start: one device, two requests for it, and a release before the first reply. */
  lemma EarlyReleaseHappens(dev: ExportedDevice, next: Option<int>)
    requires dev.status == SDEV_ST_AVAILABLE && PathFits(dev) && next != Some(SDEV_ST_USED)
    ensures var d := CString(dev.udev.busid);
      var s, steps := Start(map[d := SDEV_ST_AVAILABLE]), GrantSteps(0, dev) + SecondGrant(0, 1, d, dev, next);
      CanRun(s, steps) && !OneOkPerRelease(Run(s, steps).log, d)
  {
    var d := CString(dev.udev.busid);
    var s := Start(map[d := SDEV_ST_AVAILABLE]);
    GrantRuns(s, 0, dev);
    var t := Granted(s, 0, dev);
    assert OwesOk(t, 0, d);
    EarlyReleaseBreaks(t, 0, 1, d, dev, next);
    R.RunsJoin(SERVER, s, GrantSteps(0, dev), SecondGrant(0, 1, d, dev, next));
  }

  // ----- One holder at a time -----

  ghost predicate ReleasedDuring(s: System, steps: seq<Step>, d: Busid) {
    R.Occurs(SERVER, s, steps, (t, e) => IsRelease(e, d))
  }

  /** A device in use stays so until it is released. */
  lemma InUseUntilReleased(s: System, steps: seq<Step>, d: Busid)
    requires CanRun(s, steps) && InUse(s, d) && !ReleasedDuring(s, steps, d)
    ensures InUse(Run(s, steps), d)
  {
    var i := (t: System) => InUse(t, d);
    var release := (t: System, e: Step) => IsRelease(e, d);
    forall t: System, e: Step | i(t) && SERVER.enabled(t, e) && !release(t, e) ensures i(SERVER.apply(t, e)) {
      UseStep(t, e, d);
    }
    R.InvariantUnless(SERVER, s, steps, i, release);
  }
}
