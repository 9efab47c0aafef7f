/**
 The A/B slot record: what an update, a user rollback, a boot check and a health
 confirmation each make of it, and what holds over every run of them.
 */
module AbSlots {
  import opened Options

  const ROLLBACK_THRESHOLD: nat := 3

  // Labels are the strings the record holds; only "A" and "B" are well formed.
  datatype Slots = Slots(
    active: string,
    inactive: string,
    versionA: string,
    versionB: string,
    inactiveSha256: Option<string>,
    inactiveImagePath: Option<string>,
    bootCount: Option<nat>,
    pendingRollback: Option<bool>,
    autoRollback: Option<bool>,
    updatePending: Option<bool>,
    pendingVersion: Option<string>,
    slotPathA: Option<string>,
    slotPathB: Option<string>)

  datatype Error = UnknownSlot | UnsupportedFormat | NoDestination | OutsideRoots | NoDirectory | CopyFailed |
    DigestMismatch | BootSelectFailed | NotProvisioned | Unhealthy | Crashed

  predicate IsTrue(b: Option<bool>) {
    b == Some(true)
  }

  // The record a first update starts from.
  function InitialSlots(): Slots {
    Slots("A", "B", "0", "0", None, None, Some(0), None, None, Some(false), None, None, None)
  }

  function VersionOf(s: Slots, slot: string): string {
    if slot == "A" then s.versionA else if slot == "B" then s.versionB else "unknown"
  }

  function PathOf(s: Slots, slot: string): Option<string> {
    if slot == "A" then s.slotPathA else if slot == "B" then s.slotPathB else None
  }

  function Other(slot: string): string {
    if slot == "A" then "B" else "A"
  }

  // ---- the four steps ----

  function Count(s: Slots): nat {
    if s.bootCount.Some? then s.bootCount.value else 0
  }

  // One boot of the watchdog.
  function Check(s: Slots): Result<Slots, Error> {
    if IsTrue(s.pendingRollback) then
      Ok(s.(bootCount := Some(0), pendingRollback := Some(false), updatePending := Some(false), pendingVersion := None))
    else if !IsTrue(s.updatePending) then Ok(s)
    else if Count(s) + 1 < ROLLBACK_THRESHOLD then Ok(s.(bootCount := Some(Count(s) + 1)))
    else if s.active != "A" && s.active != "B" then Err(UnknownSlot)
    else
      Ok(s.(active := Other(s.active), inactive := s.active, bootCount := Some(0),
            autoRollback := Some(true), updatePending := Some(false), pendingVersion := None))
  }

  // A health probe after boot; only a pending update is confirmed.
  function Confirm(s: Slots, healthy: bool): Result<Slots, Error> {
    if !IsTrue(s.updatePending) then Ok(s)
    else if !healthy then Err(Unhealthy)
    else Ok(s.(pendingVersion := None, bootCount := Some(0), updatePending := Some(false),
               pendingRollback := Some(false), autoRollback := Some(false)))
  }

  // The record after a user rollback whose boot selection succeeded.
  function RolledBack(s: Slots): Result<Slots, Error> {
    if s.active != "A" && s.active != "B" then Err(UnknownSlot)
    else
      Ok(s.(active := Other(s.active), inactive := s.active, inactiveSha256 := None, inactiveImagePath := None,
            bootCount := Some(0), pendingRollback := Some(true), autoRollback := Some(false),
            updatePending := Some(false), pendingVersion := None))
  }

  // The record after an update was copied to `path`, verified and selected for boot.
  function Swapped(s: Slots, latest: string, sha256: string, path: string): Slots {
    s.(active := s.inactive, inactive := s.active,
       versionA := if s.active == "A" then s.versionA else latest,
       versionB := if s.active == "B" then s.versionB else latest,
       inactiveSha256 := Some(sha256), inactiveImagePath := Some(path), bootCount := Some(0),
       pendingRollback := Some(false), autoRollback := None, updatePending := Some(true),
       pendingVersion := Some(latest))
  }

  datatype Event =
    | Boot
    | Probe(healthy: bool)
    | UserRollback
    | Update(latest: string, sha256: string, path: string)

  // A failed step leaves the record as it was.
  function Step(s: Slots, e: Event): Slots {
    var r := match e
      case Boot => Check(s)
      case Probe(healthy) => Confirm(s, healthy)
      case UserRollback => RolledBack(s)
      case Update(latest, sha256, path) => Ok(Swapped(s, latest, sha256, path));
    if r.Ok? then r.value else s
  }

  function Run(s: Slots, events: seq<Event>): Slots
    decreases |events|
  {
    if events == [] then s else Run(Step(s, events[0]), events[1..])
  }

  // ---- what every run keeps ----

  predicate Labelled(s: Slots) {
    (s.active == "A" && s.inactive == "B") || (s.active == "B" && s.inactive == "A")
  }

  predicate Consistent(s: Slots) {
    && Labelled(s)
    && !(IsTrue(s.pendingRollback) && IsTrue(s.updatePending))
    && (IsTrue(s.updatePending) ==> Count(s) < ROLLBACK_THRESHOLD)
    && (IsTrue(s.updatePending) ==> s.pendingVersion == Some(VersionOf(s, s.active)))
  }

  lemma StepConsistent(s: Slots, e: Event)
    requires Consistent(s)
    ensures Consistent(Step(s, e))
  {
  }

  lemma {:induction false} RunConsistent(s: Slots, events: seq<Event>)
    requires Consistent(s)
    ensures Consistent(Run(s, events))
    decreases |events|
  {
    if events != [] {
      StepConsistent(s, events[0]);
      RunConsistent(Step(s, events[0]), events[1..]);
    }
  }

  // With nothing pending there is no pending version and no boot is counted.
  predicate Quiet(s: Slots) {
    !IsTrue(s.updatePending) ==> s.pendingVersion == None && Count(s) == 0
  }

  // Over every run, of any labels.
  lemma {:induction false} RunQuiet(s: Slots, events: seq<Event>)
    requires Quiet(s)
    ensures Quiet(Run(s, events))
    decreases |events|
  {
    if events != [] {
      RunQuiet(Step(s, events[0]), events[1..]);
    }
  }

  // ---- the rollback window of one update ----

  predicate BootOrProbe(e: Event) {
    e.Boot? || e.Probe?
  }

  // Boots before the first healthy probe.
  function BootsUnconfirmed(events: seq<Event>): nat {
    if events == [] || events[0] == Probe(true) then 0
    else (if events[0].Boot? then 1 else 0) + BootsUnconfirmed(events[1..])
  }

  lemma {:induction false} SettledRun(s: Slots, events: seq<Event>)
    requires !IsTrue(s.updatePending) && !IsTrue(s.pendingRollback)
    requires forall e :: e in events ==> BootOrProbe(e)
    ensures Run(s, events) == s
    decreases |events|
  {
    if events != [] {
      assert BootOrProbe(events[0]);
      SettledRun(s, events[1..]);
    }
  }

  // The state `boots` more boots and then the rest would lead to.
  lemma {:induction false} PendingRun(s: Slots, events: seq<Event>)
    requires Consistent(s) && IsTrue(s.updatePending)
    requires forall e :: e in events ==> BootOrProbe(e)
    ensures var boots, r := Count(s) + BootsUnconfirmed(events), Run(s, events);
            if boots >= ROLLBACK_THRESHOLD then
              && r.active == s.inactive && r.inactive == s.active
              && !IsTrue(r.updatePending) && IsTrue(r.autoRollback)
            else
              && r.active == s.active && r.inactive == s.inactive
              && (IsTrue(r.updatePending) <==> Probe(true) !in events)
              && (IsTrue(r.updatePending) ==> Count(r) == boots)
    ensures Run(s, events).versionA == s.versionA && Run(s, events).versionB == s.versionB
    decreases |events|
  {
    if events != [] {
      var e, rest := events[0], events[1..];
      assert BootOrProbe(e);
      assert events == [e] + rest;
      StepConsistent(s, e);
      var t := Step(s, e);
      if IsTrue(t.updatePending) {
        PendingRun(t, rest);
      } else {
        SettledRun(t, rest);
      }
    }
  }

  // After an update, the third boot without a healthy probe restores the earlier labels and
  // the earlier slot's version; a healthy probe before it fixes the new slot against any
  // number of later boots.
  lemma UpdateWindow(s: Slots, latest: string, sha256: string, path: string, events: seq<Event>)
    requires Labelled(s)
    requires forall e :: e in events ==> BootOrProbe(e)
    ensures var r := Run(s, [Update(latest, sha256, path)] + events);
            && VersionOf(r, s.active) == VersionOf(s, s.active)
            && VersionOf(r, s.inactive) == latest
            && (BootsUnconfirmed(events) >= 3 ==> r.active == s.active && r.inactive == s.inactive)
            && (BootsUnconfirmed(events) < 3 ==> r.active == s.inactive && r.inactive == s.active)
            && (IsTrue(r.updatePending) <==> BootsUnconfirmed(events) < 3 && Probe(true) !in events)
  {
    var t := Swapped(s, latest, sha256, path);
    var all := [Update(latest, sha256, path)] + events;
    assert all[1..] == events;
    assert Run(s, all) == Run(t, events);
    PendingRun(t, events);
  }

  // ---- the last good slot ----

  // The slot an automatic rollback would return to, or the running one when nothing is pending.
  function Good(s: Slots): string {
    if IsTrue(s.updatePending) then s.inactive else s.active
  }

  // Steps that neither promote a new slot nor give up the good one.
  predicate Careful(s: Slots, e: Event) {
    match e
    case Boot => true
    case Probe(healthy) => !healthy || !IsTrue(s.updatePending)
    case UserRollback => IsTrue(s.updatePending)
    case Update(_, _, _) => !IsTrue(s.updatePending)
  }

  predicate CarefulRun(s: Slots, events: seq<Event>)
    decreases |events|
  {
    events == [] || (Careful(s, events[0]) && CarefulRun(Step(s, events[0]), events[1..]))
  }

  // An update keeps the good slot's label and version exactly when no update is pending.
  lemma UpdateKeepsGood(s: Slots, latest: string, sha256: string, path: string)
    requires Consistent(s)
    ensures var t := Step(s, Update(latest, sha256, path));
            (Good(t) == Good(s) && VersionOf(t, Good(t)) == VersionOf(s, Good(s))) <==> !IsTrue(s.updatePending)
  {
  }

  lemma {:induction false} GoodKept(s: Slots, events: seq<Event>)
    requires Consistent(s) && CarefulRun(s, events)
    ensures var r := Run(s, events);
            Good(r) == Good(s) && VersionOf(r, Good(s)) == VersionOf(s, Good(s))
    decreases |events|
  {
    if events != [] {
      StepConsistent(s, events[0]);
      GoodKept(Step(s, events[0]), events[1..]);
    }
  }

  // From anywhere in such a run, after three boots the record names the good slot again.
  lemma GoodReachable(s: Slots, events: seq<Event>)
    requires Consistent(s) && CarefulRun(s, events)
    ensures var r := Run(Run(s, events), [Boot, Boot, Boot]);
            r.active == Good(s) && VersionOf(r, r.active) == VersionOf(s, Good(s))
  {
    var r := Run(s, events);
    RunConsistent(s, events);
    GoodKept(s, events);
    var boots := [Boot, Boot, Boot];
    assert boots[1..] == [Boot, Boot] && boots[1..][1..] == [Boot] && boots[1..][1..][1..] == [];
    if IsTrue(r.updatePending) {
      assert BootsUnconfirmed([Boot]) == 1 && BootsUnconfirmed([Boot, Boot]) == 2;
      PendingRun(r, boots);
    } else {
      var t := Step(r, Boot);
      SettledRun(t, boots[1..]);
      assert Run(r, boots) == Run(t, boots[1..]);
    }
  }
}
