/**
 What a rollback verifies, which runs make it verify its target, and what is selected for boot
 after the watchdog has rolled the record back.
 */
module AbRollback {
  import opened Options
  import opened AbSlots
  import opened AbDevice

  // ---- when the target is verified ----

  // The recorded path is the image a rollback would switch to, and a regular file.
  predicate ChecksTarget(s: Slots) {
    && s.inactiveSha256.Some? && s.inactiveImagePath.Some? && s.inactiveImagePath == PathOf(s, s.inactive)
    && !UnderRoot(s.inactiveImagePath.value, "/dev")
  }

  // The device with other bytes in the slot a rollback would switch to.
  function Tampered(d: Disk, image: string): Disk
    requires Provisioned(d)
  {
    d.(images := d.images[PathOf(d.record.value, d.record.value.inactive).value := image])
  }

  // Where the target is verified, a rollback is refused for a wrong digest exactly when the
  // target's image is wrong; elsewhere the target's image plays no part, whatever it is.
  lemma TargetVerified(d: Disk, image: string, other: string, selectOk: bool, selectEffect: bool, digest: Digest)
    requires Provisioned(d)
    ensures ChecksTarget(d.record.value) ==>
              (RollbackDisk(Tampered(d, image), selectOk, selectEffect, digest).1 == Err(DigestMismatch)
               <==> digest(image) != d.record.value.inactiveSha256.value)
    ensures !ChecksTarget(d.record.value) ==>
              RollbackDisk(Tampered(d, image), selectOk, selectEffect, digest).1
              == RollbackDisk(Tampered(d, other), selectOk, selectEffect, digest).1
  {
    hide UnderRoot, AllowedDestination;
  }

  // For every record: a bad image at the target of a rollback that would succeed is refused
  // if and only if the record's path is that target's.
  lemma RollbackChecksTargetExactly(d: Disk, bad: string, selectEffect: bool, digest: Digest)
    requires Provisioned(d) && RollbackDisk(d, true, selectEffect, digest).1.Ok?
    requires d.record.value.inactiveSha256.Some? ==> digest(bad) != d.record.value.inactiveSha256.value
    ensures RollbackDisk(Tampered(d, bad), true, selectEffect, digest).1 == Err(DigestMismatch)
            <==> ChecksTarget(d.record.value)
  {
    hide UnderRoot, AllowedDestination;
    TargetVerified(d, bad, bad, true, selectEffect, digest);
  }

  // ---- which runs lead there ----

  // What last changed the active slot.
  datatype Cause = Nothing | ByUpdate | ByUser | ByWatchdog

  function CauseOf(d: Disk, c: Command, digest: Digest): Cause {
    var e := Exec(d, c, digest);
    if d.record.None? || e.record.None? || e.record.value.active == d.record.value.active then Nothing
    else
      match c
      case BootCheck => ByWatchdog
      case HealthProbe(_, _) => Nothing
      case RollbackCommand(_, _) => ByUser
      case ApplyUpdate(_, _, _) => ByUpdate
  }

  function LastCause(d: Disk, commands: seq<Command>, digest: Digest): Cause
    decreases |commands|
  {
    if commands == [] then Nothing
    else
      var later := LastCause(Exec(d, commands[0], digest), commands[1..], digest);
      if later != Nothing then later else CauseOf(d, commands[0], digest)
  }

  // The recorded digest and path are those of the slot.
  predicate Describes(s: Slots, slot: string) {
    s.inactiveSha256.Some? && s.inactiveImagePath.Some? && s.inactiveImagePath == PathOf(s, slot)
  }

  // While an update is pending the record describes the slot it wrote.
  predicate Described(d: Disk) {
    Provisioned(d) && (IsTrue(d.record.value.updatePending) ==> Describes(d.record.value, d.record.value.active))
  }

  // What the record describes, by the last change of the active slot.
  predicate Follows(s: Slots, t: Slots, cause: Cause) {
    match cause
    case Nothing => t.active == s.active && t.inactive == s.inactive && t.inactiveSha256 == s.inactiveSha256
                    && t.inactiveImagePath == s.inactiveImagePath
    case ByUpdate => Describes(t, t.active)
    case ByUser => t.inactiveSha256 == None && t.inactiveImagePath == None
    case ByWatchdog => Describes(t, t.inactive)
  }

  predicate SamePaths(s: Slots, t: Slots) {
    t.slotPathA == s.slotPathA && t.slotPathB == s.slotPathB
  }

  // The event a command is to the record, when it changes it. A probe that ends before the
  // record is written is to it as one that was not answered.
  function EventOf(s: Slots, c: Command): Event {
    match c
    case BootCheck => Boot
    case HealthProbe(healthy, stops) => Probe(healthy && !stops)
    case RollbackCommand(_, _) => UserRollback
    case ApplyUpdate(art, latest, _) =>
      Update(latest, art.sha256, if PathOf(s, s.inactive).Some? then PathOf(s, s.inactive).value else "")
  }

  predicate WatchdogCommand(c: Command) {
    c.BootCheck? || c.HealthProbe?
  }

  // Every command changes the record by its event or not at all; the watchdog's always do,
  // and leave boot selection and images alone.
  lemma CommandRecord(d: Disk, c: Command, digest: Digest)
    requires Provisioned(d)
    ensures var e, t := Exec(d, c, digest), Step(d.record.value, EventOf(d.record.value, c));
            && (e.record == Some(t) || (e.record == d.record && !WatchdogCommand(c)))
            && (WatchdogCommand(c) ==> e.boot == d.boot && e.images == d.images)
  {
    hide AllowedDestination, Swapped;
    if c.ApplyUpdate? {
      UpdateDisk(d, c.art, c.latest, c.io, digest);
      hide SwapDisk;
    }
  }

  lemma EventFollows(s: Slots, c: Command)
    requires Labelled(s) && DistinctPaths(s) && (IsTrue(s.updatePending) ==> Describes(s, s.active))
    ensures var t := Step(s, EventOf(s, c));
            && Labelled(t) && SamePaths(s, t) && (IsTrue(t.updatePending) ==> Describes(t, t.active))
            && Follows(s, t, if t.active == s.active then Nothing
                             else match c case BootCheck => ByWatchdog case HealthProbe(_, _) => Nothing
                                  case RollbackCommand(_, _) => ByUser case ApplyUpdate(_, _, _) => ByUpdate)
  {
  }

  lemma CommandFollows(d: Disk, c: Command, digest: Digest)
    requires Described(d)
    ensures Described(Exec(d, c, digest))
    ensures Follows(d.record.value, Exec(d, c, digest).record.value, CauseOf(d, c, digest))
    ensures SamePaths(d.record.value, Exec(d, c, digest).record.value)
  {
    hide AllowedDestination, Exec, Step;
    CommandRecord(d, c, digest);
    EventFollows(d.record.value, c);
    BootsASlot(d, c, digest);
  }

  lemma BootsASlot(d: Disk, c: Command, digest: Digest)
    requires Provisioned(d)
    ensures Exec(d, c, digest).boot == "A" || Exec(d, c, digest).boot == "B"
  {
    hide AllowedDestination, Step, Swapped;
  }

  lemma {:induction false} RunFollows(d: Disk, commands: seq<Command>, digest: Digest)
    requires Described(d)
    ensures Described(ExecAll(d, commands, digest))
    ensures Follows(d.record.value, ExecAll(d, commands, digest).record.value, LastCause(d, commands, digest))
    ensures SamePaths(d.record.value, ExecAll(d, commands, digest).record.value)
    decreases |commands|
  {
    hide Exec, CauseOf, AllowedDestination, Provisioned;
    if commands != [] {
      CommandFollows(d, commands[0], digest);
      RunFollows(Exec(d, commands[0], digest), commands[1..], digest);
    }
  }

  // After every run in which the active slot changed, a rollback verifies its target exactly
  // when the watchdog made the last change and the target is a regular file.
  lemma TargetCheckedAfterRun(d: Disk, commands: seq<Command>, digest: Digest)
    requires Described(d) && LastCause(d, commands, digest) != Nothing
    ensures Provisioned(ExecAll(d, commands, digest))
    ensures var s := ExecAll(d, commands, digest).record.value;
            ChecksTarget(s) <==>
              LastCause(d, commands, digest) == ByWatchdog && !UnderRoot(PathOf(s, s.inactive).value, "/dev")
  {
    hide LastCause, ExecAll, UnderRoot, AllowedDestination;
    RunFollows(d, commands, digest);
  }

  // ---- what is selected after an unconfirmed update ----

  // The record plays no part in the events of the watchdog's commands.
  function EventsOf(commands: seq<Command>): (events: seq<Event>)
    ensures |events| == |commands|
  {
    seq(|commands|, i requires 0 <= i < |commands| => EventOf(InitialSlots(), commands[i]))
  }

  lemma {:induction false} WatchdogRun(d: Disk, commands: seq<Command>, digest: Digest)
    requires Provisioned(d) && forall c :: c in commands ==> WatchdogCommand(c)
    ensures var e := ExecAll(d, commands, digest);
            && Provisioned(e) && e.boot == d.boot && e.images == d.images
            && e.record == Some(Run(d.record.value, EventsOf(commands)))
    ensures forall event :: event in EventsOf(commands) ==> BootOrProbe(event)
    decreases |commands|
  {
    hide AllowedDestination, Exec, Step;
    if commands != [] {
      var c, rest := commands[0], commands[1..];
      assert WatchdogCommand(c);
      assert EventsOf(commands) == [EventOf(d.record.value, c)] + EventsOf(rest);
      CommandRecord(d, c, digest);
      WatchdogLabels(d.record.value, EventOf(d.record.value, c));
      WatchdogRun(Exec(d, c, digest), rest, digest);
    }
  }

  lemma WatchdogLabels(s: Slots, e: Event)
    requires Labelled(s) && BootOrProbe(e)
    ensures Labelled(Step(s, e)) && SamePaths(s, Step(s, e))
  {
  }

  // After an update, any number of boots and probes leave the slot it wrote selected. From the
  // third unconfirmed boot on, the record names the earlier slot while the selection does not.
  lemma UnconfirmedKeepsSelection(d: Disk, art: Artefact, latest: string, io: Outcome,
                                commands: seq<Command>, digest: Digest)
    requires Provisioned(d) && SwapDisk(d, art, latest, io, digest).1.Ok?
    requires forall c :: c in commands ==> WatchdogCommand(c)
    ensures var e := SwapDisk(d, art, latest, io, digest).0;
            var f := ExecAll(e, commands, digest);
            && Provisioned(f) && f.boot == d.record.value.inactive && f.images == e.images
            && (f.record.value.active == d.record.value.active <==> BootsUnconfirmed(EventsOf(commands)) >= 3)
            && (IsTrue(f.record.value.updatePending) ==> BootsUnconfirmed(EventsOf(commands)) < 3)
  {
    hide ExecAll, SwapDisk;
    UpdateIs(d, art, latest, io, digest);
    var e := SwapDisk(d, art, latest, io, digest).0;
    WatchdogRun(e, commands, digest);
    var path := PathOf(d.record.value, d.record.value.inactive).value;
    var events := EventsOf(commands);
    UpdateWindow(d.record.value, latest, art.sha256, path, events);
    assert ([Update(latest, art.sha256, path)] + events)[1..] == events;
    assert Run(d.record.value, [Update(latest, art.sha256, path)] + events) == Run(e.record.value, events);
  }

  // A completed update.
  lemma UpdateIs(d: Disk, art: Artefact, latest: string, io: Outcome, digest: Digest)
    requires Provisioned(d) && SwapDisk(d, art, latest, io, digest).1.Ok?
    ensures var e := SwapDisk(d, art, latest, io, digest).0;
            && Provisioned(e) && e.boot == d.record.value.inactive && e.installed == d.installed
            && PathOf(d.record.value, d.record.value.inactive).Some?
            && e.record == Some(Swapped(d.record.value, latest, art.sha256,
                                        PathOf(d.record.value, d.record.value.inactive).value))
  {
    SwapStaysProvisioned(d, art, latest, io, digest);
  }

  // In that state not even the next rollback or update selects another slot: both select the
  // one the record calls inactive, which is the one selected already.
  lemma NextSelectionIsTheSame(d: Disk, c: Command, digest: Digest)
    requires Provisioned(d) && d.boot == d.record.value.inactive
    ensures Exec(d, c, digest).boot == d.boot
  {
  }
}
