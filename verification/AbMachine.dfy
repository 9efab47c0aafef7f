/**
 The machine around the device: which slot it is running, under a boot loader that keeps a
 selection and under a firmware that honours one for a single boot, and whose version a
 confirmation records.
 */
module AbMachine {
  import opened Options
  import opened AbSlots
  import opened AbDevice
  import opened AbRollback

  // GRUB's file keeps the selection. An EFI boot-next entry is used up by one boot, after which
  // the firmware starts what its own boot order has first.
  datatype Loader = Keeps | OneShot(fallback: string)

  // The selection a one-shot loader has not used yet, and the slot that is running.
  datatype Machine = Machine(disk: Disk, next: Option<string>, running: string)

  // The command gets as far as selecting a slot, and the selection takes effect.
  predicate Selects(d: Disk, c: Command, digest: Digest) {
    match c
    case BootCheck => false
    case HealthProbe(_, _) => false
    case RollbackCommand(selectOk, selectEffect) =>
      (selectOk || selectEffect) && RollbackDisk(d, true, true, digest).1.Ok?
    case ApplyUpdate(art, latest, io) =>
      && (io.selectOk || io.selectEffect) && (io.stop == Never || io.stop == AfterSelect)
      && SwapDisk(d, art, latest, io.(selectOk := true, stop := Never), digest).1.Ok?
  }

  // It does, and then ends before the record is written.
  predicate CutShort(d: Disk, c: Command, digest: Digest) {
    && Selects(d, c, digest)
    && match c
       case RollbackCommand(selectOk, _) => !selectOk
       case ApplyUpdate(_, _, io) => !io.selectOk || io.stop == AfterSelect
       case _ => false
  }

  predicate Completes(d: Disk, c: Command, digest: Digest) {
    c.ApplyUpdate? && SwapDisk(d, c.art, c.latest, c.io, digest).1.Ok?
  }

  function Started(loader: Loader, m: Machine): string {
    match loader
    case Keeps => m.disk.boot
    case OneShot(fallback) => if m.next.Some? then m.next.value else fallback
  }

  // A boot starts a slot and runs the boot check; the other commands run on what is running.
  function Next(loader: Loader, m: Machine, c: Command, digest: Digest): Machine {
    var e := Exec(m.disk, c, digest);
    if c.BootCheck? then Machine(e, None, Started(loader, m))
    else Machine(e, if Selects(m.disk, c, digest) then Some(e.boot) else m.next, m.running)
  }

  function NextAll(loader: Loader, m: Machine, commands: seq<Command>, digest: Digest): Machine
    decreases |commands|
  {
    if commands == [] then m else NextAll(loader, Next(loader, m, commands[0], digest), commands[1..], digest)
  }

  lemma {:induction false} DiskOfAll(loader: Loader, m: Machine, commands: seq<Command>, digest: Digest)
    ensures NextAll(loader, m, commands, digest).disk == ExecAll(m.disk, commands, digest)
    decreases |commands|
  {
    hide Exec, Selects;
    if commands != [] {
      DiskOfAll(loader, Next(loader, m, commands[0], digest), commands[1..], digest);
    }
  }

  // Selecting is what moves the boot label, always to the inactive slot.
  lemma SelectsInactive(d: Disk, c: Command, digest: Digest)
    requires Provisioned(d)
    ensures Exec(d, c, digest).boot == if Selects(d, c, digest) then d.record.value.inactive else d.boot
  {
    hide AllowedDestination, Swapped;
  }

  // ---- what runs after an update ----

  predicate Pending(d: Disk) {
    d.record.Some? && IsTrue(d.record.value.updatePending)
  }

  function Boots(commands: seq<Command>): nat {
    if commands == [] then 0 else (if commands[0].BootCheck? then 1 else 0) + Boots(commands[1..])
  }

  // Boots and probes: the first boot takes the selection, and a one-shot loader falls back on
  // every later one.
  lemma {:induction false} WatchdogMachine(loader: Loader, m: Machine, commands: seq<Command>, digest: Digest)
    requires Provisioned(m.disk) && forall c :: c in commands ==> WatchdogCommand(c)
    ensures NextAll(loader, m, commands, digest).running
         == if Boots(commands) == 0 then m.running
            else match loader
                 case Keeps => m.disk.boot
                 case OneShot(fallback) => if Boots(commands) == 1 && m.next.Some? then m.next.value else fallback
    decreases |commands|
  {
    hide AllowedDestination, Exec;
    if commands != [] {
      var c, rest := commands[0], commands[1..];
      assert WatchdogCommand(c);
      WatchdogRun(m.disk, [c], digest);
      assert ExecAll(m.disk, [c], digest) == Exec(m.disk, c, digest) by { ExecOne(m.disk, c, digest); }
      WatchdogMachine(loader, Next(loader, m, c, digest), rest, digest);
    }
  }

  lemma ExecOne(d: Disk, c: Command, digest: Digest)
    ensures ExecAll(d, [c], digest) == Exec(d, c, digest)
  {
    assert [c][1..] == [];
  }

  lemma UpdateSelects(loader: Loader, m: Machine, art: Artefact, latest: string, io: Outcome, digest: Digest)
    requires Provisioned(m.disk) && SwapDisk(m.disk, art, latest, io, digest).1.Ok?
    ensures var u := Next(loader, m, ApplyUpdate(art, latest, io), digest);
            && u.disk == SwapDisk(m.disk, art, latest, io, digest).0 && Provisioned(u.disk)
            && u.disk.boot == m.disk.record.value.inactive && u.next == Some(m.disk.record.value.inactive)
            && u.running == m.running
  {
    hide AllowedDestination, Swapped;
    SwapStaysProvisioned(m.disk, art, latest, io, digest);
  }

  // Under a loader that keeps the selection, every boot after an update starts the slot it
  // wrote, confirmed or not; from the third unconfirmed boot on the record names the other.
  lemma UpdateKeepsRunning(m: Machine, art: Artefact, latest: string, io: Outcome, commands: seq<Command>,
                           digest: Digest)
    requires Provisioned(m.disk) && SwapDisk(m.disk, art, latest, io, digest).1.Ok?
    requires forall c :: c in commands ==> WatchdogCommand(c)
    ensures var s := m.disk.record.value;
            var r := NextAll(Keeps, Next(Keeps, m, ApplyUpdate(art, latest, io), digest), commands, digest);
            && r.running == (if Boots(commands) == 0 then m.running else s.inactive)
            && Provisioned(r.disk)
            && (r.disk.record.value.active == s.active <==> BootsUnconfirmed(EventsOf(commands)) >= 3)
  {
    hide Next, NextAll, SwapDisk, ExecAll, Provisioned;
    UpdateSelects(Keeps, m, art, latest, io, digest);
    var u := Next(Keeps, m, ApplyUpdate(art, latest, io), digest);
    WatchdogMachine(Keeps, u, commands, digest);
    DiskOfAll(Keeps, u, commands, digest);
    UnconfirmedKeepsSelection(m.disk, art, latest, io, commands, digest);
  }

  // Under a one-shot firmware the slot runs for one boot only, even when that boot confirms it:
  // from the second boot on the firmware's own first entry runs, whatever the record says.
  lemma OneShotRunsOnce(fallback: string, m: Machine, art: Artefact, latest: string, io: Outcome,
                        commands: seq<Command>, digest: Digest)
    requires Provisioned(m.disk) && SwapDisk(m.disk, art, latest, io, digest).1.Ok?
    requires forall c :: c in commands ==> WatchdogCommand(c)
    ensures var s, loader := m.disk.record.value, OneShot(fallback);
            var r := NextAll(loader, Next(loader, m, ApplyUpdate(art, latest, io), digest), commands, digest);
            && r.running == (if Boots(commands) == 0 then m.running
                             else if Boots(commands) == 1 then s.inactive else fallback)
            && Provisioned(r.disk)
            && (r.disk.record.value.active == s.active <==> BootsUnconfirmed(EventsOf(commands)) >= 3)
            && (Pending(r.disk) ==> BootsUnconfirmed(EventsOf(commands)) < 3)
  {
    hide Next, NextAll, SwapDisk, ExecAll, Provisioned;
    var loader := OneShot(fallback);
    UpdateSelects(loader, m, art, latest, io, digest);
    var u := Next(loader, m, ApplyUpdate(art, latest, io), digest);
    WatchdogMachine(loader, u, commands, digest);
    DiskOfAll(loader, u, commands, digest);
    UnconfirmedKeepsSelection(m.disk, art, latest, io, commands, digest);
  }

  // ---- an interrupted update, under either kind of loader ----

  predicate IsSlot(slot: string) {
    slot == "A" || slot == "B"
  }

  function ImageOf(d: Disk, slot: string): string
    requires Provisioned(d) && IsSlot(slot)
  {
    ImageAt(d, PathOf(d.record.value, slot).value)
  }

  // The next boot starts what it would have started, untouched, or bytes with the digest.
  predicate StartsSafely(loader: Loader, m: Machine, u: Machine, sha256: string, digest: Digest)
    requires Provisioned(m.disk) && Provisioned(u.disk) && IsSlot(Started(loader, m)) && IsSlot(Started(loader, u))
  {
    var before, after := Started(loader, m), Started(loader, u);
    || (after == before && ImageOf(u.disk, after) == ImageOf(m.disk, before))
    || digest(ImageOf(u.disk, after)) == sha256
  }

  function Updated(loader: Loader, m: Machine, art: Artefact, latest: string, io: Outcome, digest: Digest)
    : (u: Machine)
    requires Provisioned(m.disk) && IsSlot(Started(loader, m))
    ensures Provisioned(u.disk) && IsSlot(Started(loader, u))
    ensures u == Next(loader, m, ApplyUpdate(art, latest, io), digest)
  {
    SwapStaysProvisioned(m.disk, art, latest, io, digest);
    SelectsInactive(m.disk, ApplyUpdate(art, latest, io), digest);
    Next(loader, m, ApplyUpdate(art, latest, io), digest)
  }

  lemma SelectsVerified(d: Disk, art: Artefact, latest: string, io: Outcome, digest: Digest)
    requires Provisioned(d)
    ensures var c, slot := ApplyUpdate(art, latest, io), d.record.value.inactive;
            Selects(d, c, digest) ==>
              Exec(d, c, digest).images == d.images[PathOf(d.record.value, slot).value := io.copied]
              && digest(io.copied) == art.sha256
  {
    hide AllowedDestination, Swapped;
  }

  lemma UpdateStartsSafely(loader: Loader, m: Machine, art: Artefact, latest: string, io: Outcome, digest: Digest)
    requires Provisioned(m.disk) && IsSlot(Started(loader, m)) && Started(loader, m) == m.disk.record.value.active
    ensures StartsSafely(loader, m, Updated(loader, m, art, latest, io, digest), art.sha256, digest)
  {
    hide AllowedDestination, SwapDisk, Selects;
    var d, c := m.disk, ApplyUpdate(art, latest, io);
    var e := Exec(d, c, digest);
    SwapStaysProvisioned(d, art, latest, io, digest);
    SelectsInactive(d, c, digest);
    SelectsVerified(d, art, latest, io, digest);
    UpdateDisk(d, art, latest, io, digest);
    assert PathOf(d.record.value, d.record.value.active) != PathOf(d.record.value, d.record.value.inactive);
    assert SamePaths(d.record.value, e.record.value);
  }

  // An update is safe to interrupt anywhere if and only if the next boot would have started
  // the active slot: under a one-shot firmware, the selection not used yet or else the first
  // entry of the firmware's own.
  lemma StartSafetyExact(loader: Loader, m: Machine, art: Artefact, latest: string, digest: Digest, junk: string)
    requires Provisioned(m.disk) && IsSlot(Started(loader, m)) && Destination(m.disk.record.value, art.format).Ok?
    requires digest(junk) != art.sha256 && junk != ImageOf(m.disk, Started(loader, m))
    ensures (forall io :: StartsSafely(loader, m, Updated(loader, m, art, latest, io, digest), art.sha256, digest))
            <==> Started(loader, m) == m.disk.record.value.active
  {
    hide AllowedDestination, StartsSafely;
    if Started(loader, m) == m.disk.record.value.active {
      forall io
        ensures StartsSafely(loader, m, Updated(loader, m, art, latest, io, digest), art.sha256, digest)
      {
        UpdateStartsSafely(loader, m, art, latest, io, digest);
      }
    } else {
      JunkStarts(loader, m, art, latest, digest, junk);
    }
  }

  lemma JunkStarts(loader: Loader, m: Machine, art: Artefact, latest: string, digest: Digest, junk: string)
    requires Provisioned(m.disk) && IsSlot(Started(loader, m)) && Started(loader, m) == m.disk.record.value.inactive
    requires Destination(m.disk.record.value, art.format).Ok?
    requires digest(junk) != art.sha256 && junk != ImageOf(m.disk, Started(loader, m))
    ensures var io := Outcome(true, junk, true, true, true, AfterCopy);
            !StartsSafely(loader, m, Updated(loader, m, art, latest, io, digest), art.sha256, digest)
  {
    hide AllowedDestination;
    DestinationIs(m.disk, art.format);
  }

  // ---- an update pending while another slot is selected ----

  predicate Stray(d: Disk) {
    Pending(d) && !Agrees(d)
  }

  predicate Regular(d: Disk) {
    Provisioned(d) && Consistent(d.record.value)
  }

  lemma StepPaths(s: Slots, e: Event)
    ensures SamePaths(s, Step(s, e))
  {
  }

  lemma ExecRegular(d: Disk, c: Command, digest: Digest)
    requires Regular(d)
    ensures Regular(Exec(d, c, digest))
  {
    hide AllowedDestination, Exec, Step;
    CommandRecord(d, c, digest);
    StepConsistent(d.record.value, EventOf(d.record.value, c));
    StepPaths(d.record.value, EventOf(d.record.value, c));
    BootsASlot(d, c, digest);
  }

  lemma UpdateStrays(d: Disk, art: Artefact, latest: string, io: Outcome, digest: Digest)
    requires Regular(d)
    ensures var c := ApplyUpdate(art, latest, io);
            && (Completes(d, c, digest) ==> Agrees(Exec(d, c, digest)))
            && (!Completes(d, c, digest) ==> Exec(d, c, digest).record == d.record)
            && (CutShort(d, c, digest) <==> Selects(d, c, digest) && !Completes(d, c, digest))
  {
    hide AllowedDestination, Destination;
  }

  lemma RollbackStrays(d: Disk, selectOk: bool, selectEffect: bool, digest: Digest)
    requires Regular(d)
    ensures var c := RollbackCommand(selectOk, selectEffect);
            && (Pending(Exec(d, c, digest)) ==> Exec(d, c, digest).record == d.record)
            && (Pending(Exec(d, c, digest)) ==> (CutShort(d, c, digest) <==> Selects(d, c, digest)))
  {
    hide AllowedDestination, UnderRoot;
  }

  lemma WatchdogStrays(d: Disk, c: Command, digest: Digest)
    requires Regular(d) && WatchdogCommand(c)
    ensures var e := Exec(d, c, digest);
            && e.boot == d.boot && (Pending(e) ==> Pending(d) && e.record.value.active == d.record.value.active)
            && (Pending(e) ==> e.record.value.inactive == d.record.value.inactive)
            && !Selects(d, c, digest) && !CutShort(d, c, digest) && !Completes(d, c, digest)
  {
    hide AllowedDestination;
  }

  // An update is left pending with another slot selected by the commands cut short between
  // the selection and the record, and stays so until it is no longer pending or a new one
  // completes.
  lemma StepStrays(d: Disk, c: Command, digest: Digest)
    requires Regular(d)
    ensures Stray(Exec(d, c, digest)) <==>
              Pending(Exec(d, c, digest)) && !Completes(d, c, digest) && (Stray(d) || CutShort(d, c, digest))
  {
    hide AllowedDestination, Exec, CutShort, Selects, Completes;
    SelectsInactive(d, c, digest);
    match c
    case ApplyUpdate(art, latest, io) => UpdateStrays(d, art, latest, io, digest);
    case RollbackCommand(selectOk, selectEffect) =>
      RollbackStrays(d, selectOk, selectEffect, digest);
      NoUpdate(d, c, digest);
    case _ => WatchdogStrays(d, c, digest);
  }

  lemma NoUpdate(d: Disk, c: Command, digest: Digest)
    requires !c.ApplyUpdate?
    ensures !Completes(d, c, digest)
  {
  }

  lemma CutShortWrites(d: Disk, c: Command, digest: Digest)
    requires CutShort(d, c, digest)
    ensures Exec(d, c, digest).record == d.record && !Completes(d, c, digest)
  {
    hide AllowedDestination, Swapped, UnderRoot;
  }

  // A command of the run is cut short, and from then on an update is pending and none completes.
  predicate CutAt(d: Disk, commands: seq<Command>, i: nat, digest: Digest)
    requires i < |commands|
  {
    && CutShort(ExecAll(d, commands[..i], digest), commands[i], digest)
    && (forall j :: i <= j <= |commands| ==> Pending(ExecAll(d, commands[..j], digest)))
    && forall j :: i < j < |commands| ==> !Completes(ExecAll(d, commands[..j], digest), commands[j], digest)
  }

  predicate LeftStray(d: Disk, commands: seq<Command>, digest: Digest) {
    exists i :: 0 <= i < |commands| && CutAt(d, commands, i, digest)
  }

  lemma {:induction false} ExecAllSnoc(d: Disk, commands: seq<Command>, c: Command, digest: Digest)
    ensures ExecAll(d, commands + [c], digest) == Exec(ExecAll(d, commands, digest), c, digest)
    decreases |commands|
  {
    hide Exec;
    if commands == [] {
      assert [] + [c] == [c];
      ExecOne(d, c, digest);
    } else {
      assert (commands + [c])[1..] == commands[1..] + [c];
      ExecAllSnoc(Exec(d, commands[0], digest), commands[1..], c, digest);
    }
  }

  lemma {:induction false} RunRegular(d: Disk, commands: seq<Command>, digest: Digest)
    requires Regular(d)
    ensures Regular(ExecAll(d, commands, digest))
    decreases |commands|
  {
    hide Exec, Regular;
    if commands != [] {
      ExecRegular(d, commands[0], digest);
      RunRegular(Exec(d, commands[0], digest), commands[1..], digest);
    }
  }

  // Over every run: an update ends up pending with another slot selected if and only if some
  // command was cut short after which an update stayed pending and none completed.
  lemma {:induction false} StrayExactly(d: Disk, commands: seq<Command>, digest: Digest)
    requires Regular(d) && !Stray(d)
    ensures Stray(ExecAll(d, commands, digest)) <==> LeftStray(d, commands, digest)
    decreases |commands|
  {
    hide Exec, ExecAll, Regular, Stray, CutShort, Completes, Pending;
    if commands == [] {
      assert ExecAll(d, [], digest) == d by { ExecNone(d, digest); }
    } else {
      var before, c := commands[..|commands| - 1], commands[|commands| - 1];
      assert commands == before + [c];
      StrayExactly(d, before, digest);
      RunRegular(d, before, digest);
      ExecAllSnoc(d, before, c, digest);
      StepStrays(ExecAll(d, before, digest), c, digest);
      if CutShort(ExecAll(d, before, digest), c, digest) {
        CutShortWrites(ExecAll(d, before, digest), c, digest);
      }
      SamePending(ExecAll(d, commands, digest), ExecAll(d, before, digest));
      LeftStrayStep(d, before, c, digest);
    }
  }

  lemma SamePending(d: Disk, e: Disk)
    ensures d.record == e.record ==> (Pending(d) <==> Pending(e))
  {
  }

  lemma ExecNone(d: Disk, digest: Digest)
    ensures ExecAll(d, [], digest) == d
  {
  }

  lemma LeftStrayStep(d: Disk, before: seq<Command>, c: Command, digest: Digest)
    requires Stray(ExecAll(d, before, digest)) ==> LeftStray(d, before, digest)
    requires LeftStray(d, before, digest) ==> Stray(ExecAll(d, before, digest))
    requires var e := ExecAll(d, before, digest); CutShort(e, c, digest) ==> !Completes(e, c, digest)
    ensures var e := ExecAll(d, before, digest);
            LeftStray(d, before + [c], digest) <==>
              Pending(ExecAll(d, before + [c], digest)) && !Completes(e, c, digest)
              && (LeftStray(d, before, digest) || (Pending(e) && CutShort(e, c, digest)))
  {
    hide ExecAll, CutShort, Completes, Pending, Stray;
    var commands, n := before + [c], |before|;
    forall j | 0 <= j <= n
      ensures commands[..j] == before[..j]
    {
    }
    assert before[..n] == before && commands[..n + 1] == commands;
    if LeftStray(d, before, digest) {
      var i :| 0 <= i < n && CutAt(d, before, i, digest);
      assert Pending(ExecAll(d, commands, digest)) && !Completes(ExecAll(d, before, digest), c, digest) ==>
               CutAt(d, commands, i, digest);
    }
    if Pending(ExecAll(d, commands, digest)) && !Completes(ExecAll(d, before, digest), c, digest)
       && Pending(ExecAll(d, before, digest)) && CutShort(ExecAll(d, before, digest), c, digest) {
      assert CutAt(d, commands, n, digest);
    }
    if LeftStray(d, commands, digest) {
      var i :| 0 <= i <= n && CutAt(d, commands, i, digest);
      assert Pending(ExecAll(d, commands[..n + 1], digest)) && Pending(ExecAll(d, commands[..n], digest));
      assert commands[..n] == before && commands[n] == c;
      assert i < n ==> CutAt(d, before, i, digest);
    }
  }

  // ---- whose version a confirmation records ----

  // With an update pending and two versions on the device, a healthy probe records the version
  // of the slot that is running if and only if that is the active one, which the code does not
  // ask.
  lemma ConfirmRecordsRunning(m: Machine, stops: bool)
    requires Regular(m.disk) && Pending(m.disk) && (m.running == "A" || m.running == "B")
    requires m.disk.record.value.versionA != m.disk.record.value.versionB
    ensures ConfirmDisk(m.disk, true, stops).0.installed == VersionOf(m.disk.record.value, m.running)
            <==> m.running == m.disk.record.value.active
  {
    hide AllowedDestination;
  }

  // The same of the slot that is selected: the record and the boot selection must agree.
  lemma ConfirmRecordsSelected(d: Disk, stops: bool)
    requires Regular(d) && Pending(d) && d.record.value.versionA != d.record.value.versionB
    ensures ConfirmDisk(d, true, stops).0.installed == VersionOf(d.record.value, d.boot) <==> Agrees(d)
  {
    hide AllowedDestination;
    ConfirmRecordsRunning(Machine(d, None, d.boot), stops);
  }

  lemma {:induction false} NextAllSnoc(loader: Loader, m: Machine, commands: seq<Command>, c: Command, digest: Digest)
    ensures NextAll(loader, m, commands + [c], digest) == Next(loader, NextAll(loader, m, commands, digest), c, digest)
    decreases |commands|
  {
    hide Next;
    if commands == [] {
      assert [] + [c] == [c] && [c][1..] == [];
    } else {
      assert (commands + [c])[1..] == commands[1..] + [c];
      NextAllSnoc(loader, Next(loader, m, commands[0], digest), commands[1..], c, digest);
    }
  }

  // What a boot starts under a loader that keeps the selection is what is selected after it.
  lemma BootRunsSelected(m: Machine, commands: seq<Command>, digest: Digest)
    requires Regular(m.disk)
    ensures var r := NextAll(Keeps, m, commands + [BootCheck], digest);
            Regular(r.disk) && r.disk == ExecAll(m.disk, commands + [BootCheck], digest) && r.running == r.disk.boot
  {
    hide NextAll, ExecAll, AllowedDestination, Regular;
    NextAllSnoc(Keeps, m, commands, BootCheck, digest);
    DiskOfAll(Keeps, m, commands + [BootCheck], digest);
    RunRegular(m.disk, commands + [BootCheck], digest);
    DiskOfAll(Keeps, m, commands, digest);
    RunRegular(m.disk, commands, digest);
    BootSelectsNothing(NextAll(Keeps, m, commands, digest).disk, digest);
  }

  lemma BootSelectsNothing(d: Disk, digest: Digest)
    requires Regular(d)
    ensures Exec(d, BootCheck, digest).boot == d.boot
  {
    SelectsInactive(d, BootCheck, digest);
  }

  // Over every run that ends in a boot with an update pending, and two versions on the device:
  // a healthy probe then records the version of the slot that booted if and only if no command
  // was cut short since the update was written.
  lemma ConfirmAfterBootExactly(m: Machine, commands: seq<Command>, stops: bool, digest: Digest)
    requires Regular(m.disk) && !Stray(m.disk)
    requires var d := ExecAll(m.disk, commands + [BootCheck], digest);
             Pending(d) && d.record.value.versionA != d.record.value.versionB
    ensures var r := NextAll(Keeps, m, commands + [BootCheck], digest);
            && r.disk.record.Some?
            && (ConfirmDisk(r.disk, true, stops).0.installed == VersionOf(r.disk.record.value, r.running)
                <==> !LeftStray(m.disk, commands + [BootCheck], digest))
  {
    hide NextAll, ExecAll, AllowedDestination, LeftStray, ConfirmDisk;
    BootRunsSelected(m, commands, digest);
    StrayExactly(m.disk, commands + [BootCheck], digest);
    ConfirmRecordsRunning(NextAll(Keeps, m, commands + [BootCheck], digest), stops);
  }

  // One such run: an update, a rollback that selects the old slot and ends there, a boot and a
  // healthy probe. The old slot runs, and the new release is recorded as installed.
  lemma CutShortConfirms(m: Machine, art: Artefact, latest: string, io: Outcome, digest: Digest)
    requires Provisioned(m.disk) && SwapDisk(m.disk, art, latest, io, digest).1.Ok?
    requires RollbackDisk(SwapDisk(m.disk, art, latest, io, digest).0, true, true, digest).1.Ok?
    requires latest != VersionOf(m.disk.record.value, m.disk.record.value.active)
    ensures var commands := [ApplyUpdate(art, latest, io), RollbackCommand(false, true), BootCheck,
                             HealthProbe(true, false)];
            var r := NextAll(Keeps, m, commands, digest);
            && r.running == m.disk.record.value.active && r.disk.installed == latest && r.disk.record.Some?
            && r.disk.installed != VersionOf(r.disk.record.value, r.running)
  {
    var s := m.disk.record.value;
    var e := SwapDisk(m.disk, art, latest, io, digest).0;
    UpdateIs(m.disk, art, latest, io, digest);
    UpdateSelects(Keeps, m, art, latest, io, digest);
    var u := Next(Keeps, m, ApplyUpdate(art, latest, io), digest);
    AfterUpdate(u, s, latest, digest);
    var c0 := ApplyUpdate(art, latest, io);
    var rest := [RollbackCommand(false, true), BootCheck, HealthProbe(true, false)];
    assert ([c0] + rest)[1..] == rest && [c0] + rest == [c0, rest[0], rest[1], rest[2]];
    assert NextAll(Keeps, m, [c0] + rest, digest) == NextAll(Keeps, u, rest, digest);
  }

  lemma AfterUpdate(u: Machine, s: Slots, latest: string, digest: Digest)
    requires Provisioned(u.disk) && Labelled(s) && u.disk.boot == s.inactive
    requires var t := u.disk.record.value;
             && t.active == s.inactive && t.inactive == s.active && VersionOf(t, s.inactive) == latest
             && VersionOf(t, s.active) == VersionOf(s, s.active) != latest && IsTrue(t.updatePending)
             && t.pendingVersion == Some(latest) && t.bootCount == Some(0) && t.pendingRollback == Some(false)
    requires RollbackDisk(u.disk, true, true, digest).1.Ok?
    ensures var r := NextAll(Keeps, u, [RollbackCommand(false, true), BootCheck, HealthProbe(true, false)], digest);
            && r.running == s.active && r.disk.installed == latest && r.disk.record.Some?
            && r.disk.installed != VersionOf(r.disk.record.value, r.running)
  {
    hide AllowedDestination, UnderRoot;
    var all := [RollbackCommand(false, true), BootCheck, HealthProbe(true, false)];
    assert all[1..] == [BootCheck, HealthProbe(true, false)] && all[1..][1..] == [HealthProbe(true, false)];
    assert all[1..][1..][1..] == [];
    var m1 := Next(Keeps, u, all[0], digest);
    var m2 := Next(Keeps, m1, BootCheck, digest);
    assert m2.running == s.active && m2.disk.record.value.pendingVersion == Some(latest);
  }

  lemma UpdatedRegular(d: Disk, art: Artefact, latest: string, io: Outcome, digest: Digest)
    requires Provisioned(d) && SwapDisk(d, art, latest, io, digest).1.Ok?
    ensures Regular(SwapDisk(d, art, latest, io, digest).0)
  {
    hide AllowedDestination, SwapDisk;
    UpdateIs(d, art, latest, io, digest);
  }

  // Under a one-shot firmware a confirmation that comes after the first boot records the
  // version of the slot that is running if and only if the firmware falls back on the new slot.
  lemma OneShotConfirmsExactly(fallback: string, m: Machine, art: Artefact, latest: string, io: Outcome,
                               commands: seq<Command>, stops: bool, digest: Digest)
    requires Provisioned(m.disk) && SwapDisk(m.disk, art, latest, io, digest).1.Ok?
    requires (forall c :: c in commands ==> WatchdogCommand(c)) && Boots(commands) >= 2
    requires fallback == "A" || fallback == "B"
    requires var d := ExecAll(SwapDisk(m.disk, art, latest, io, digest).0, commands, digest);
             Pending(d) && d.record.value.versionA != d.record.value.versionB
    ensures var loader := OneShot(fallback);
            var r := NextAll(loader, Next(loader, m, ApplyUpdate(art, latest, io), digest), commands, digest);
            && r.disk.record.Some? && r.running == fallback
            && (ConfirmDisk(r.disk, true, stops).0.installed == VersionOf(r.disk.record.value, r.running)
                <==> fallback == m.disk.record.value.inactive)
  {
    hide Next, NextAll, SwapDisk, ExecAll, AllowedDestination, DistinctPaths, ConfirmDisk;
    var loader := OneShot(fallback);
    var u := Next(loader, m, ApplyUpdate(art, latest, io), digest);
    UpdateSelects(loader, m, art, latest, io, digest);
    DiskOfAll(loader, u, commands, digest);
    OneShotRunsOnce(fallback, m, art, latest, io, commands, digest);
    UpdatedRegular(m.disk, art, latest, io, digest);
    RunRegular(u.disk, commands, digest);
    ConfirmRecordsRunning(NextAll(loader, u, commands, digest), stops);
  }
}
