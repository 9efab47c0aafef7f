/**
 A device with two slot images, a boot selection and the slot record: the effects of the
 update, rollback and watchdog commands, with an interruption possible after any of them.
 */
module AbDevice {
  import opened Options
  import opened TextLines
  import opened AbSlots

  // The persistent state. Images are slot contents by path; `boot` is the slot selected last,
  // which is what boots under a loader that keeps its selection.
  datatype Disk = Disk(record: Option<Slots>, boot: string, images: map<string, string>, installed: string)

  datatype Artefact = Artefact(format: string, sha256: string)

  datatype Interruption = Never | AfterCopy | AfterVerify | AfterSelect

  // What the environment decides during an update: whether the slot's directory can be made,
  // the bytes that reach the slot, whether the copy and the boot selection report success,
  // whether a failed selection took effect anyway, and where the machine stops.
  datatype Outcome = Outcome(dirOk: bool, copied: string, copyOk: bool, selectOk: bool, selectEffect: bool,
                             stop: Interruption)

  type Digest = string -> string

  // The names in an absolute path; empty ones and the current directory do not count.
  function Names(parts: seq<string>): seq<string> {
    if parts == [] then []
    else (if parts[0] == "" || parts[0] == "." then [] else [parts[0]]) + Names(parts[1..])
  }

  // The path is the root or begins with its components.
  predicate UnderRoot(path: string, root: string) {
    "/" <= path && Names(SplitOn(root, '/')) <= Names(SplitOn(path, '/'))
  }

  predicate AllowedDestination(path: string) {
    UnderRoot(path, "/dev") || UnderRoot(path, "/var/lib/deputyos/slots")
  }

  // Device nodes are not regular files, so their contents are never re-checked on rollback.
  predicate RegularFile(d: Disk, path: string) {
    path in d.images && !UnderRoot(path, "/dev")
  }

  function Loaded(d: Disk): Slots {
    if d.record.Some? then d.record.value else InitialSlots()
  }

  // The destination an update writes to, or why it refuses.
  function Destination(s: Slots, format: string): Result<string, Error> {
    if format != "raw" && format != "img" && format != "rootfs" then Err(UnsupportedFormat)
    else if s.inactive != "A" && s.inactive != "B" then Err(UnknownSlot)
    else
      match PathOf(s, s.inactive)
      case None => Err(NoDestination)
      case Some(path) => if AllowedDestination(path) then Ok(path) else Err(OutsideRoots)
  }

  function SwapDisk(d: Disk, art: Artefact, latest: string, io: Outcome, digest: Digest): (Disk, Result<Slots, Error>) {
    var s := Loaded(d);
    match Destination(s, art.format)
    case Err(e) => (d, Err(e))
    case Ok(path) =>
      if !io.dirOk then (d, Err(NoDirectory))
      else
        var copied := d.(images := d.images[path := io.copied]);
        if !io.copyOk then (copied, Err(CopyFailed))
        else if io.stop == AfterCopy then (copied, Err(Crashed))
        else if digest(io.copied) != art.sha256 then (copied, Err(DigestMismatch))
        else if io.stop == AfterVerify then (copied, Err(Crashed))
        else
          var selected := if io.selectOk || io.selectEffect then copied.(boot := s.inactive) else copied;
          if !io.selectOk then (selected, Err(BootSelectFailed))
          else if io.stop == AfterSelect then (selected, Err(Crashed))
          else
            var updated := Swapped(s, latest, art.sha256, path);
            (selected.(record := Some(updated)), Ok(updated))
  }

  // The path and digest a rollback verifies, when both are recorded and the path is a file.
  function Verified(d: Disk, s: Slots): Option<(string, string)> {
    if s.inactiveSha256.Some? && s.inactiveImagePath.Some? && RegularFile(d, s.inactiveImagePath.value)
    then Some((s.inactiveImagePath.value, s.inactiveSha256.value))
    else None
  }

  function RollbackDisk(d: Disk, selectOk: bool, selectEffect: bool, digest: Digest): (Disk, Result<Slots, Error>) {
    match d.record
    case None => (d, Err(NotProvisioned))
    case Some(s) =>
      if s.inactive != "A" && s.inactive != "B" then (d, Err(UnknownSlot))
      else if Verified(d, s).Some? && digest(ImageAt(d, Verified(d, s).value.0)) != Verified(d, s).value.1 then
        (d, Err(DigestMismatch))
      else
        var selected := if selectOk || selectEffect then d.(boot := s.inactive) else d;
        if !selectOk then (selected, Err(BootSelectFailed))
        else
          match RolledBack(s)
          case Err(e) => (selected, Err(e))
          case Ok(t) => (selected.(record := Some(t)), Ok(t))
  }

  function ImageAt(d: Disk, path: string): string {
    if path in d.images then d.images[path] else ""
  }

  function CheckDisk(d: Disk): (Disk, Result<(), Error>) {
    match d.record
    case None => (d, Ok(()))
    case Some(s) =>
      match Check(s)
      case Err(e) => (d, Err(e))
      case Ok(t) => (d.(record := Some(t)), Ok(()))
  }

  // The version is recorded before the slot record; `stops` is an end in between.
  function ConfirmDisk(d: Disk, healthy: bool, stops: bool): (Disk, Result<(), Error>) {
    match d.record
    case None => (d, Ok(()))
    case Some(s) =>
      match Confirm(s, healthy)
      case Err(e) => (d, Err(e))
      case Ok(t) =>
        if !IsTrue(s.updatePending) then (d, Ok(()))
        else
          var installed := if s.pendingVersion.Some? then s.pendingVersion.value else d.installed;
          if stops then (d.(installed := installed), Err(Crashed))
          else (d.(record := Some(t), installed := installed), Ok(()))
  }

  class Device {
    var record: Option<Slots>
    var boot: string
    var images: map<string, string>
    var installed: string

    ghost function State(): Disk
      reads this
    {
      Disk(record, boot, images, installed)
    }

    constructor (disk: Disk)
      ensures State() == disk
    {
      record, boot, images, installed := disk.record, disk.boot, disk.images, disk.installed;
    }

    method RunCheck() returns (r: Result<(), Error>)
      modifies this
      ensures (State(), r) == CheckDisk(old(State()))
    {
      hide UnderRoot;
      if record.None? {
        return Ok(());
      }
      var slots := record.value;
      if IsTrue(slots.pendingRollback) {
        slots := slots.(bootCount := Some(0), pendingRollback := Some(false));
        slots := slots.(updatePending := Some(false), pendingVersion := None);
        record := Some(slots);
        return Ok(());
      }
      if !IsTrue(slots.updatePending) {
        return Ok(());
      }
      var count := Count(slots) + 1;
      slots := slots.(bootCount := Some(count));
      if count >= ROLLBACK_THRESHOLD {
        if slots.active == "A" {
          slots := slots.(active := "B", inactive := "A");
        } else if slots.active == "B" {
          slots := slots.(active := "A", inactive := "B");
        } else {
          return Err(UnknownSlot);
        }
        slots := slots.(bootCount := Some(0), autoRollback := Some(true));
        slots := slots.(updatePending := Some(false), pendingVersion := None);
      }
      record := Some(slots);
      r := Ok(());
    }

    method RunConfirm(healthy: bool, stops: bool) returns (r: Result<(), Error>)
      modifies this
      ensures (State(), r) == ConfirmDisk(old(State()), healthy, stops)
    {
      hide UnderRoot;
      if record.None? {
        return Ok(());
      }
      var slots := record.value;
      if !IsTrue(slots.updatePending) {
        return Ok(());
      }
      if !healthy {
        return Err(Unhealthy);
      }
      if slots.pendingVersion.Some? {
        installed := slots.pendingVersion.value;
        slots := slots.(pendingVersion := None);
      }
      if stops {
        return Err(Crashed);
      }
      slots := slots.(bootCount := Some(0), updatePending := Some(false));
      slots := slots.(pendingRollback := Some(false), autoRollback := Some(false));
      record := Some(slots);
      r := Ok(());
    }

    method Rollback(selectOk: bool, selectEffect: bool, digest: Digest) returns (r: Result<Slots, Error>)
      modifies this
      ensures (State(), r) == RollbackDisk(old(State()), selectOk, selectEffect, digest)
    {
      hide UnderRoot;
      if record.None? {
        return Err(NotProvisioned);
      }
      var slots := record.value;
      if slots.inactive != "A" && slots.inactive != "B" {
        return Err(UnknownSlot);
      }
      if slots.inactiveSha256.Some? && slots.inactiveImagePath.Some? {
        var img := slots.inactiveImagePath.value;
        if img in images && !UnderRoot(img, "/dev") {
          if digest(images[img]) != slots.inactiveSha256.value {
            return Err(DigestMismatch);
          }
        }
      }
      if selectOk || selectEffect {
        boot := slots.inactive;
      }
      if !selectOk {
        return Err(BootSelectFailed);
      }
      var updated := RolledBack(slots);
      if updated.Err? {
        return Err(updated.error);
      }
      record := Some(updated.value);
      r := Ok(updated.value);
    }

    method SwapSlots(art: Artefact, latest: string, io: Outcome, digest: Digest) returns (r: Result<Slots, Error>)
      modifies this
      ensures (State(), r) == SwapDisk(old(State()), art, latest, io, digest)
    {
      hide UnderRoot;
      var slots := if record.Some? then record.value else InitialSlots();
      var destination := Destination(slots, art.format);
      if destination.Err? {
        return Err(destination.error);
      }
      if !io.dirOk {
        return Err(NoDirectory);
      }
      var path := destination.value;
      images := images[path := io.copied];
      if !io.copyOk {
        return Err(CopyFailed);
      }
      if io.stop == AfterCopy {
        return Err(Crashed);
      }
      if digest(images[path]) != art.sha256 {
        return Err(DigestMismatch);
      }
      if io.stop == AfterVerify {
        return Err(Crashed);
      }
      if io.selectOk || io.selectEffect {
        boot := slots.inactive;
      }
      if !io.selectOk {
        return Err(BootSelectFailed);
      }
      if io.stop == AfterSelect {
        return Err(Crashed);
      }
      var updated := Swapped(slots, latest, art.sha256, path);
      record := Some(updated);
      r := Ok(updated);
    }
  }

  // ---- what a crash can leave behind ----

  predicate DistinctPaths(s: Slots) {
    s.slotPathA.Some? && s.slotPathB.Some? && s.slotPathA != s.slotPathB
  }

  // A provisioned device whose boot selection names one of its two slots.
  predicate Provisioned(d: Disk) {
    && d.record.Some? && Labelled(d.record.value) && DistinctPaths(d.record.value)
    && (d.boot == "A" || d.boot == "B")
    && AllowedDestination(d.record.value.slotPathA.value) && AllowedDestination(d.record.value.slotPathB.value)
  }

  function SelectedImage(d: Disk): string
    requires Provisioned(d)
  {
    ImageAt(d, PathOf(d.record.value, d.boot).value)
  }

  // Selected for boot is either what was before, untouched, or the slot this update
  // wrote, holding bytes with the expected digest.
  predicate BootsSafely(before: Disk, after: Disk, sha256: string, digest: Digest)
    requires Provisioned(before) && Provisioned(after)
  {
    || (after.boot == before.boot && SelectedImage(after) == SelectedImage(before))
    || (after.boot == before.record.value.inactive && digest(SelectedImage(after)) == sha256)
  }

  lemma SwapStaysProvisioned(d: Disk, art: Artefact, latest: string, io: Outcome, digest: Digest)
    requires Provisioned(d)
    ensures Provisioned(SwapDisk(d, art, latest, io, digest).0)
  {
    hide UnderRoot, Destination, AllowedDestination;
  }

  lemma DestinationIs(d: Disk, format: string)
    requires Provisioned(d)
    ensures var s := d.record.value;
            Destination(s, format).Ok? ==> PathOf(s, s.inactive) == Some(Destination(s, format).value)
  {
    hide UnderRoot;
  }

  // The images and boot selection after an update that ended early, or not at all.
  lemma UpdateDisk(d: Disk, art: Artefact, latest: string, io: Outcome, digest: Digest)
    requires Provisioned(d) && PathOf(d.record.value, d.record.value.inactive).Some?
    ensures var e, s := SwapDisk(d, art, latest, io, digest).0, d.record.value;
            var path := PathOf(s, s.inactive).value;
            && (e.images == d.images || e.images == d.images[path := io.copied])
            && (e.boot == d.boot
                || (e.boot == s.inactive && e.images == d.images[path := io.copied] && digest(io.copied) == art.sha256))
            && (e.record == d.record ||
                (e.record == Some(Swapped(s, latest, art.sha256, path)) && e.boot == s.inactive))
  {
    hide UnderRoot;
    DestinationIs(d, art.format);
    hide Destination, Labelled, AllowedDestination, DistinctPaths, PathOf;
  }

  // An update interrupted anywhere leaves a safe boot selection whenever the selection did
  // not already name the slot being overwritten.
  lemma SwapCrashSafe(d: Disk, art: Artefact, latest: string, io: Outcome, digest: Digest)
    requires Provisioned(d) && d.boot == d.record.value.active
    ensures Provisioned(SwapDisk(d, art, latest, io, digest).0)
    ensures BootsSafely(d, SwapDisk(d, art, latest, io, digest).0, art.sha256, digest)
  {
    hide UnderRoot;
    SwapStaysProvisioned(d, art, latest, io, digest);
    UpdateDisk(d, art, latest, io, digest);
    hide SwapDisk;
    assert PathOf(d.record.value, d.boot) != PathOf(d.record.value, d.record.value.inactive);
  }

  // That condition is exact: with bytes that are neither the present image nor a match for
  // the digest, an update of the slot selected for boot can leave it unsafe.
  lemma SwapSafetyExact(d: Disk, art: Artefact, latest: string, digest: Digest, junk: string)
    requires Provisioned(d) && Destination(d.record.value, art.format).Ok?
    requires digest(junk) != art.sha256 && junk != SelectedImage(d)
    ensures (forall io :: BootsSafely(d, SafeResult(d, art, latest, io, digest), art.sha256, digest))
            <==> d.boot == d.record.value.active
  {
    hide UnderRoot;
    if d.boot == d.record.value.active {
      forall io
        ensures BootsSafely(d, SafeResult(d, art, latest, io, digest), art.sha256, digest)
      {
        SwapCrashSafe(d, art, latest, io, digest);
      }
    } else {
      var io := Outcome(true, junk, true, true, true, AfterCopy);
      assert !BootsSafely(d, SafeResult(d, art, latest, io, digest), art.sha256, digest);
    }
  }

  function SafeResult(d: Disk, art: Artefact, latest: string, io: Outcome, digest: Digest): (r: Disk)
    requires Provisioned(d)
    ensures Provisioned(r)
  {
    SwapStaysProvisioned(d, art, latest, io, digest);
    SwapDisk(d, art, latest, io, digest).0
  }

  // ---- agreement of the record with the boot selection ----

  predicate Agrees(d: Disk) {
    d.record.Some? && d.boot == d.record.value.active
  }

  // Completed updates and rollbacks re-establish agreement and a probe keeps it; a boot check
  // keeps it exactly when it does not roll back automatically.
  lemma AgreementKept(d: Disk, art: Artefact, latest: string, io: Outcome, healthy: bool, stops: bool,
                      selectEffect: bool, digest: Digest)
    requires Provisioned(d)
    ensures SwapDisk(d, art, latest, io, digest).1.Ok? ==> Agrees(SwapDisk(d, art, latest, io, digest).0)
    ensures RollbackDisk(d, true, selectEffect, digest).1.Ok? ==> Agrees(RollbackDisk(d, true, selectEffect, digest).0)
    ensures Agrees(ConfirmDisk(d, healthy, stops).0) <==> Agrees(d)
  {
    hide UnderRoot;
  }

  predicate AutoRollsBack(s: Slots) {
    !IsTrue(s.pendingRollback) && IsTrue(s.updatePending) && Count(s) + 1 >= ROLLBACK_THRESHOLD
  }

  lemma CheckBreaksAgreement(d: Disk)
    requires Provisioned(d) && Agrees(d)
    ensures Agrees(CheckDisk(d).0) <==> !AutoRollsBack(d.record.value)
  {
    hide UnderRoot;
  }

  // After an update that is never confirmed, the third boot check leaves the boot selection on
  // the slot that the next update will overwrite.
  lemma AutoRollbackThenUpdate(d: Disk, art: Artefact, latest: string, io: Outcome, digest: Digest)
    requires Provisioned(d) && SwapDisk(d, art, latest, io, digest).1.Ok?
    ensures var e := SwapDisk(d, art, latest, io, digest).0;
            var f := CheckDisk(CheckDisk(CheckDisk(e).0).0).0;
            Provisioned(f) && f.record.value.active == d.record.value.active && f.boot == f.record.value.inactive
  {
    hide UnderRoot;
    var e := SwapDisk(d, art, latest, io, digest).0;
    var f1 := CheckDisk(e).0;
    var f2 := CheckDisk(f1).0;
    assert Count(f1.record.value) == 1 && Count(f2.record.value) == 2;
    assert e.boot == d.record.value.inactive;
  }

  // ---- what a rollback verifies ----

  // Right after an update, a rollback verifies the slot it leaves: it is refused exactly when
  // that image no longer matches, and the image it switches to plays no part.
  lemma RollbackVerifiesActive(d: Disk, art: Artefact, latest: string, io: Outcome, digest: Digest, target: string)
    requires Provisioned(d) && SwapDisk(d, art, latest, io, digest).1.Ok?
    ensures var e := SwapDisk(d, art, latest, io, digest).0;
            var s := e.record.value;
            var active := PathOf(s, s.active).value;
            var tampered := e.(images := e.images[PathOf(s, s.inactive).value := target]);
            && Verified(e, s) == (if RegularFile(e, active) then Some((active, art.sha256)) else None)
            && RollbackDisk(tampered, true, true, digest).1 == RollbackDisk(e, true, true, digest).1
            && RollbackDisk(e, true, true, digest).1.Ok?
            && (RegularFile(e, active) ==>
                  var altered := e.(images := e.images[active := target]);
                  RollbackDisk(altered, true, true, digest).1 == Err(DigestMismatch) <==> digest(target) != art.sha256)
  {
    hide UnderRoot;
  }

  // The confirmed version is the one the record gives its active slot, whichever slot runs.
  lemma ConfirmInstallsActive(d: Disk, stops: bool)
    requires d.record.Some? && Consistent(d.record.value) && IsTrue(d.record.value.updatePending)
    ensures var e := ConfirmDisk(d, true, stops).0;
            e.installed == VersionOf(e.record.value, e.record.value.active)
  {
    hide UnderRoot;
  }

  // ---- whole runs ----

  datatype Command =
    | BootCheck
    | HealthProbe(healthy: bool, stops: bool)
    | RollbackCommand(selectOk: bool, selectEffect: bool)
    | ApplyUpdate(art: Artefact, latest: string, io: Outcome)

  function Exec(d: Disk, c: Command, digest: Digest): Disk {
    match c
    case BootCheck => CheckDisk(d).0
    case HealthProbe(healthy, stops) => ConfirmDisk(d, healthy, stops).0
    case RollbackCommand(selectOk, selectEffect) => RollbackDisk(d, selectOk, selectEffect, digest).0
    case ApplyUpdate(art, latest, io) => SwapDisk(d, art, latest, io, digest).0
  }

  // The commands that keep the good slot; an update must also find the boot selection on the
  // active slot.
  predicate CarefulCommand(d: Disk, c: Command) {
    d.record.Some? &&
    var pending := IsTrue(d.record.value.updatePending);
    match c
    case BootCheck => true
    case HealthProbe(healthy, _) => !healthy || !pending
    case RollbackCommand(_, _) => pending
    case ApplyUpdate(_, _, _) => !pending && Agrees(d)
  }

  predicate CarefulCommands(d: Disk, commands: seq<Command>, digest: Digest)
    decreases |commands|
  {
    commands == [] ||
    (CarefulCommand(d, commands[0]) && CarefulCommands(Exec(d, commands[0], digest), commands[1..], digest))
  }

  function ExecAll(d: Disk, commands: seq<Command>, digest: Digest): Disk
    decreases |commands|
  {
    if commands == [] then d else ExecAll(Exec(d, commands[0], digest), commands[1..], digest)
  }

  // The digests that the updates of a run were checked against.
  function Digests(commands: seq<Command>): set<string> {
    set c | c in commands && c.ApplyUpdate? :: c.art.sha256
  }

  function GoodImage(d: Disk): string
    requires Provisioned(d)
  {
    ImageAt(d, PathOf(d.record.value, Good(d.record.value)).value)
  }

  // Boot goes to the good slot, or to an image some update of the run was checked against.
  predicate BootsKnown(d: Disk, digests: set<string>, digest: Digest)
    requires Provisioned(d)
  {
    d.boot == Good(d.record.value) || digest(SelectedImage(d)) in digests
  }

  predicate Sound(d: Disk, digests: set<string>, digest: Digest) {
    Provisioned(d) && Consistent(d.record.value) && BootsKnown(d, digests, digest)
  }

  // `e` is a sound successor of `d` with the same good slot.
  predicate Keeps(d: Disk, e: Disk, digests: set<string>, digest: Digest)
    requires Provisioned(d) && Consistent(d.record.value)
  {
    var good := Good(d.record.value);
    && Sound(e, digests, digest)
    && Good(e.record.value) == good && GoodImage(e) == GoodImage(d)
    && VersionOf(e.record.value, good) == VersionOf(d.record.value, good)
  }

  lemma RecordOnlyKeeps(d: Disk, e: Disk, digests: set<string>, digest: Digest)
    requires Sound(d, digests, digest)
    requires e.record.Some? && e.boot == d.boot && e.images == d.images
    requires var s, t := d.record.value, e.record.value;
             && Consistent(t) && Good(t) == Good(s)
             && t.slotPathA == s.slotPathA && t.slotPathB == s.slotPathB
             && t.versionA == s.versionA && t.versionB == s.versionB
    ensures Keeps(d, e, digests, digest)
  {
    hide UnderRoot;
  }

  lemma RecordStepKeeps(d: Disk, c: Command, digests: set<string>, digest: Digest)
    requires Sound(d, digests, digest) && CarefulCommand(d, c) && (c.BootCheck? || c.HealthProbe?)
    ensures Keeps(d, Exec(d, c, digest), digests, digest)
  {
    hide UnderRoot, Keeps, Sound;
    var e := Exec(d, c, digest);
    var event := if c.BootCheck? then Boot else Probe(c.healthy);
    assert Provisioned(d) && Consistent(d.record.value) by { SoundMeans(d, digests, digest); }
    StepConsistent(d.record.value, event);
    assert e.record == Some(Step(d.record.value, event));
    RecordOnlyKeeps(d, e, digests, digest);
  }

  lemma SoundMeans(d: Disk, digests: set<string>, digest: Digest)
    requires Sound(d, digests, digest)
    ensures Provisioned(d) && Consistent(d.record.value)
  {
  }

  lemma RollbackKeeps(d: Disk, c: Command, digests: set<string>, digest: Digest)
    requires Sound(d, digests, digest) && CarefulCommand(d, c) && c.RollbackCommand?
    ensures Keeps(d, Exec(d, c, digest), digests, digest)
  {
    hide UnderRoot;
  }

  lemma UpdateKeeps(d: Disk, art: Artefact, latest: string, io: Outcome, digests: set<string>, digest: Digest)
    requires Sound(d, digests, digest) && CarefulCommand(d, ApplyUpdate(art, latest, io))
    ensures Keeps(d, SwapDisk(d, art, latest, io, digest).0, digests + {art.sha256}, digest)
  {
    hide UnderRoot;
    UpdateDisk(d, art, latest, io, digest);
    hide SwapDisk;
    var s := d.record.value;
    assert PathOf(s, s.active) != PathOf(s, s.inactive);
    StepConsistent(s, Update(latest, art.sha256, PathOf(s, s.inactive).value));
  }

  lemma ExecKeeps(d: Disk, c: Command, digests: set<string>, digest: Digest)
    requires Sound(d, digests, digest) && CarefulCommand(d, c)
    ensures Keeps(d, Exec(d, c, digest), digests + Digests([c]), digest)
  {
    hide UnderRoot;
    match c
    case BootCheck =>
      RecordStepKeeps(d, c, digests, digest);
    case HealthProbe(_, _) =>
      RecordStepKeeps(d, c, digests, digest);
    case RollbackCommand(_, _) =>
      RollbackKeeps(d, c, digests, digest);
    case ApplyUpdate(art, latest, io) =>
      UpdateKeeps(d, art, latest, io, digests, digest);
      assert Digests([c]) == {art.sha256} by { assert c in [c]; }
  }

  // Over every such run, interrupted updates included, the good slot keeps its label, version
  // and image byte for byte, and no image of unknown origin is ever selected for boot.
  lemma {:induction false} RunSafe(d: Disk, commands: seq<Command>, digests: set<string>, digest: Digest)
    requires Sound(d, digests, digest) && CarefulCommands(d, commands, digest)
    ensures Keeps(d, ExecAll(d, commands, digest), digests + Digests(commands), digest)
    decreases |commands|
  {
    hide UnderRoot;
    if commands == [] {
      assert digests + Digests(commands) == digests;
    } else {
      var c, rest := commands[0], commands[1..];
      ExecKeeps(d, c, digests, digest);
      RunSafe(Exec(d, c, digest), rest, digests + Digests([c]), digest);
      assert commands == [c] + rest;
      assert digests + Digests([c]) + Digests(rest) == digests + Digests(commands);
    }
  }
}
