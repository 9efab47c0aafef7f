/** When each command of the device goes through, and how it is refused otherwise. */
module AbAnswers {
  import opened Options
  import opened TextLines
  import opened AbSlots
  import opened AbDevice

  // ---- the roots a slot may lie under ----

  // A name in a path.
  predicate PathName(n: string) {
    n != "" && n != "." && '/' !in n
  }

  lemma NamesCons(n: string, parts: seq<string>)
    ensures Names([n] + parts) == (if n == "" || n == "." then [] else [n]) + Names(parts)
  {
    assert ([n] + parts)[1..] == parts;
  }

  // The first name of an absolute path.
  lemma NamesOfPath(n: string, rest: string)
    requires PathName(n)
    ensures Names(SplitOn("/" + n + "/" + rest, '/')) == [n] + Names(SplitOn(rest, '/'))
    ensures Names(SplitOn("/" + n, '/')) == [n]
  {
    hide SplitOn, Names;
    assert "/" + n + "/" + rest == "" + "/" + (n + "/" + rest) && "/" + n == "" + "/" + n;
    SplitFirst("", '/', n + "/" + rest);
    SplitFirst("", '/', n);
    SplitFirst(n, '/', rest);
    SplitWhole(n, '/');
    NamesCons("", SplitOn(n + "/" + rest, '/'));
    NamesCons("", [n]);
    NamesCons(n, SplitOn(rest, '/'));
    NamesCons(n, []);
    assert [n] + [] == [n] && Names([]) == [] by { NoNames(); }
  }

  lemma NoNames()
    ensures Names([]) == []
  {
  }

  lemma FourNames(a: string, b: string, c: string, e: string, rest: string)
    requires PathName(a) && PathName(b) && PathName(c) && PathName(e)
    ensures Names(SplitOn("/" + a + "/" + (b + "/" + (c + "/" + (e + "/" + rest))), '/'))
         == [a, b, c, e] + Names(SplitOn(rest, '/'))
    ensures Names(SplitOn("/" + a + "/" + (b + "/" + (c + "/" + e)), '/')) == [a, b, c, e]
  {
    hide SplitOn, Names;
    NamesOfPath(a, b + "/" + (c + "/" + (e + "/" + rest)));
    NamesOfPath(a, b + "/" + (c + "/" + e));
    SplitFirst(b, '/', c + "/" + (e + "/" + rest));
    SplitFirst(b, '/', c + "/" + e);
    SplitFirst(c, '/', e + "/" + rest);
    SplitFirst(c, '/', e);
    SplitFirst(e, '/', rest);
    SplitWhole(e, '/');
    NamesCons(b, [c] + ([e] + SplitOn(rest, '/')));
    NamesCons(c, [e] + SplitOn(rest, '/'));
    NamesCons(e, SplitOn(rest, '/'));
    NamesCons(b, [c] + [e]);
    NamesCons(c, [e]);
    NamesCons(e, []);
    assert [e] + [] == [e] && Names([]) == [] by { NoNames(); }
    assert [a] + ([b] + ([c] + ([e] + Names(SplitOn(rest, '/'))))) == [a, b, c, e] + Names(SplitOn(rest, '/'));
  }

  // A device path is one whose first name is `dev`, not one whose text begins like it.
  lemma UnderDevExactly(n: string, rest: string)
    requires PathName(n)
    ensures UnderRoot("/" + n + "/" + rest, "/dev") <==> n == "dev"
    ensures UnderRoot("/" + n, "/dev") <==> n == "dev"
  {
    hide SplitOn, Names;
    NamesOfPath(n, rest);
    NamesOfPath("dev", "");
    assert "/" + "dev" == "/dev";
    assert ("/" + n + "/" + rest)[0] == '/' && ("/" + n)[0] == '/';
    assert [n][0] == n && ["dev"][0] == "dev" && ([n] + Names(SplitOn(rest, '/')))[0] == n;
  }

  // A slot file is one four names down the one directory.
  lemma UnderSlotsExactly(a: string, b: string, c: string, e: string, rest: string)
    requires PathName(a) && PathName(b) && PathName(c) && PathName(e)
    ensures UnderRoot("/" + a + "/" + (b + "/" + (c + "/" + (e + "/" + rest))), "/var/lib/deputyos/slots")
            <==> a == "var" && b == "lib" && c == "deputyos" && e == "slots"
  {
    hide SplitOn, Names;
    FourNames(a, b, c, e, rest);
    FourNames("var", "lib", "deputyos", "slots", "");
    assert "/" + "var" + "/" + ("lib" + "/" + ("deputyos" + "/" + "slots")) == "/var/lib/deputyos/slots";
    assert ("/" + a + "/" + (b + "/" + (c + "/" + (e + "/" + rest))))[0] == '/';
    var names := [a, b, c, e] + Names(SplitOn(rest, '/'));
    assert names[0] == a && names[1] == b && names[2] == c && names[3] == e;
    assert ["var", "lib", "deputyos", "slots"] <= names <==>
             a == "var" && b == "lib" && c == "deputyos" && e == "slots" by {
      assert names[..4] == [a, b, c, e];
    }
  }

  // A relative path is under neither root, and empty components and dots do not count.
  lemma RelativeOutside(path: string, root: string)
    requires path == "" || path[0] != '/'
    ensures !UnderRoot(path, root)
  {
  }

  lemma EmptyNamesSkipped(rest: string, root: string)
    ensures UnderRoot("//" + rest, root) <==> UnderRoot("/" + rest, root)
    ensures UnderRoot("/./" + rest, root) <==> UnderRoot("/" + rest, root)
  {
    hide SplitOn, Names;
    var parts := SplitOn(rest, '/');
    SplitFirst("", '/', rest);
    SplitFirst("", '/', "/" + rest);
    SplitFirst(".", '/', rest);
    SplitFirst("", '/', "./" + rest);
    assert "//" + rest == "" + "/" + ("/" + rest) && "/" + rest == "" + "/" + rest;
    assert "/./" + rest == "" + "/" + ("./" + rest) && "./" + rest == "." + "/" + rest;
    assert SplitOn("/" + rest, '/') == [""] + parts;
    assert SplitOn("//" + rest, '/') == [""] + ([""] + parts);
    assert SplitOn("/./" + rest, '/') == [""] + (["."] + parts);
    NamesCons("", parts);
    NamesCons("", [""] + parts);
    NamesCons(".", parts);
    NamesCons("", ["."] + parts);
  }

  // Those two roots are allowed and no other place is.
  lemma AllowedExactly(path: string)
    ensures AllowedDestination(path) <==> UnderRoot(path, "/dev") || UnderRoot(path, "/var/lib/deputyos/slots")
  {
  }

  // A record with two device nodes makes a device provisioned.
  lemma DevicesProvision(s: Slots, n: string, m: string, boot: string, images: map<string, string>, installed: string)
    requires Labelled(s) && n != m && '/' !in n && '/' !in m && (boot == "A" || boot == "B")
    ensures Provisioned(Disk(Some(s.(slotPathA := Some("/dev/" + n), slotPathB := Some("/dev/" + m))),
                             boot, images, installed))
  {
    hide UnderRoot;
    assert "/" + "dev" + "/" + n == "/dev/" + n && "/" + "dev" + "/" + m == "/dev/" + m;
    UnderDevExactly("dev", n);
    UnderDevExactly("dev", m);
    SameEnd("/dev/", n, m);
  }

  lemma SameEnd(p: string, x: string, y: string)
    ensures p + x == p + y <==> x == y
  {
    if p + x == p + y {
      assert x == (p + x)[|p|..] && y == (p + y)[|p|..];
    }
  }

  // ---- updates ----

  const SLOTS_ROOT: string := "/var/lib/deputyos/slots"

  // For every outcome: an update with another format, without a slot to write to, or with one
  // outside the two roots, is refused before anything is touched.
  lemma UpdateRefused(d: Disk, art: Artefact, latest: string, io: Outcome, digest: Digest)
    ensures art.format != "raw" && art.format != "img" && art.format != "rootfs" ==>
              SwapDisk(d, art, latest, io, digest) == (d, Err(UnsupportedFormat))
    ensures d.record.None? && (art.format == "raw" || art.format == "img" || art.format == "rootfs") ==>
              SwapDisk(d, art, latest, io, digest) == (d, Err(NoDestination))
    ensures d.record.Some? && (art.format == "raw" || art.format == "img" || art.format == "rootfs") ==>
              var s := d.record.value;
              var r := SwapDisk(d, art, latest, io, digest);
              && (s.inactive != "A" && s.inactive != "B" ==> r == (d, Err(UnknownSlot)))
              && (s.inactive == "A" || s.inactive == "B" ==>
                    var slot := if s.inactive == "A" then s.slotPathA else s.slotPathB;
                    && (slot.None? ==> r == (d, Err(NoDestination)))
                    && (slot.Some? && !UnderRoot(slot.value, "/dev") && !UnderRoot(slot.value, SLOTS_ROOT) ==>
                          r == (d, Err(OutsideRoots))))
  {
    hide UnderRoot;
  }

  // A provisioned device completes an update if and only if the format is one of the three,
  // directory, copy and selection succeed, the copied bytes match and nothing stops it.
  lemma UpdateCompletesExactly(d: Disk, art: Artefact, latest: string, io: Outcome, digest: Digest)
    requires Provisioned(d)
    ensures SwapDisk(d, art, latest, io, digest).1.Ok? <==>
              && (art.format == "raw" || art.format == "img" || art.format == "rootfs")
              && io.dirOk && io.copyOk && io.selectOk && io.stop == Never && digest(io.copied) == art.sha256
    ensures digest(io.copied) != art.sha256 ==> SwapDisk(d, art, latest, io, digest).0.boot == d.boot
  {
    hide UnderRoot;
  }

  // A completed one: the other slot holds the bytes, is active, selected and pending, and has
  // the new version; the slot that was active keeps image and version.
  lemma UpdateCompleted(d: Disk, art: Artefact, latest: string, io: Outcome, digest: Digest)
    requires Provisioned(d) && SwapDisk(d, art, latest, io, digest).1.Ok?
    ensures var e, s := SwapDisk(d, art, latest, io, digest).0, d.record.value;
            && e.record.Some? && e.boot == s.inactive && e.installed == d.installed
            && PathOf(s, "A").Some? && PathOf(s, "B").Some?
            && e.images == d.images[PathOf(s, s.inactive).value := io.copied]
            && e.record.value.active == s.inactive && e.record.value.inactive == s.active
            && VersionOf(e.record.value, s.inactive) == latest
            && VersionOf(e.record.value, s.active) == VersionOf(s, s.active)
            && e.record.value.updatePending == Some(true) && e.record.value.pendingVersion == Some(latest)
            && e.record.value.bootCount == Some(0) && e.record.value.pendingRollback == Some(false)
            && e.record.value.autoRollback == None
            && e.record.value.inactiveSha256 == Some(art.sha256)
            && e.record.value.inactiveImagePath == PathOf(s, s.inactive)
  {
    hide UnderRoot;
  }

  // ---- rollbacks ----

  // The recorded digest and path are there, the path is a regular file, and it does not match.
  predicate BadImage(d: Disk, s: Slots, digest: Digest) {
    && s.inactiveSha256.Some? && s.inactiveImagePath.Some? && s.inactiveImagePath.value in d.images
    && !UnderRoot(s.inactiveImagePath.value, "/dev")
    && digest(d.images[s.inactiveImagePath.value]) != s.inactiveSha256.value
  }

  // A provisioned device rolls back if and only if the recorded image is not a bad one and the
  // selection succeeds; then the labels and the selection are exchanged, the recorded digest
  // and path are forgotten, and images, versions and the installed release stay.
  lemma RollbackExactly(d: Disk, selectOk: bool, selectEffect: bool, digest: Digest)
    requires Provisioned(d)
    ensures var s, r := d.record.value, RollbackDisk(d, selectOk, selectEffect, digest);
            && (r.1.Ok? <==> !BadImage(d, s, digest) && selectOk)
            && (r.1 == Err(DigestMismatch) <==> BadImage(d, s, digest))
            && (r.1 == Err(DigestMismatch) ==> r.0 == d)
            && (r.1.Err? ==> r.0.record == d.record)
            && r.0.images == d.images && r.0.installed == d.installed
    ensures var s, r := d.record.value, RollbackDisk(d, selectOk, selectEffect, digest);
            r.1.Ok? ==>
              && r.0.record.Some? && r.0.boot == s.inactive
              && var t := r.0.record.value;
                 && t.active == s.inactive && t.inactive == s.active
                 && t.versionA == s.versionA && t.versionB == s.versionB
                 && t.inactiveSha256 == None && t.inactiveImagePath == None
                 && t.bootCount == Some(0) && t.pendingRollback == Some(true) && t.autoRollback == Some(false)
                 && t.updatePending == Some(false) && t.pendingVersion == None
  {
    hide UnderRoot;
  }

  lemma RollbackRefused(d: Disk, selectOk: bool, selectEffect: bool, digest: Digest)
    ensures d.record.None? ==> RollbackDisk(d, selectOk, selectEffect, digest) == (d, Err(NotProvisioned))
    ensures d.record.Some? && d.record.value.inactive != "A" && d.record.value.inactive != "B" ==>
              RollbackDisk(d, selectOk, selectEffect, digest) == (d, Err(UnknownSlot))
  {
    hide UnderRoot;
  }

  // ---- the watchdog's two commands ----

  // A probe is refused exactly when an update is pending and the probe is unhealthy; it changes
  // something exactly when one is pending and it is healthy.
  lemma ConfirmExactly(d: Disk, healthy: bool)
    ensures var pending := d.record.Some? && d.record.value.updatePending == Some(true);
            var r := ConfirmDisk(d, healthy, false);
            && (r.1 == Err(Unhealthy) <==> pending && !healthy) && (r.1.Ok? <==> !pending || healthy)
            && (!(pending && healthy) ==> r.0 == d)
            && (pending && healthy ==>
                  && r.0.record.Some? && r.0.boot == d.boot && r.0.images == d.images
                  && r.0.installed == (if d.record.value.pendingVersion.Some? then d.record.value.pendingVersion.value
                                       else d.installed)
                  && r.0.record.value == d.record.value.(pendingVersion := None, bootCount := Some(0),
                                                         updatePending := Some(false), pendingRollback := Some(false),
                                                         autoRollback := Some(false)))
  {
  }

  // Without a record a boot check does nothing; with one that names no slot it fails on the
  // boot that would roll back, and changes nothing.
  lemma CheckRefused(d: Disk)
    ensures d.record.None? ==> CheckDisk(d) == (d, Ok(()))
    ensures CheckDisk(d).1.Err? <==>
              && d.record.Some? && d.record.value.pendingRollback != Some(true)
              && d.record.value.updatePending == Some(true)
              && d.record.value.bootCount.Some? && d.record.value.bootCount.value >= 2
              && d.record.value.active != "A" && d.record.value.active != "B"
    ensures CheckDisk(d).1.Err? ==> CheckDisk(d) == (d, Err(UnknownSlot))
  {
  }

  // What stands for a missing record: the first slot is active, version zero is on both, and no
  // boots or probes change that.
  lemma InitialSettled(events: seq<Event>)
    requires forall e :: e in events ==> BootOrProbe(e)
    ensures var s := InitialSlots();
            && Consistent(s) && AbSlots.Run(s, events) == s
            && s.active == "A" && s.versionA == "0" && s.versionB == "0"
  {
    SettledRun(InitialSlots(), events);
  }

  // The record says that the watchdog rolled back exactly when its last change other than a
  // count, or the end of a user's rollback, was that.
  lemma AutoFlagExactly(s: Slots, e: Event)
    requires Labelled(s)
    ensures var t := Step(s, e);
            t.autoRollback == Some(true) <==>
              || (e == Boot && s.pendingRollback != Some(true) && s.updatePending == Some(true) && Count(s) >= 2)
              || (s.autoRollback == Some(true)
                  && (e == Boot || (e.Probe? && !(e.healthy && s.updatePending == Some(true)))))
  {
  }

  // The boot after a user's rollback ends it.
  lemma RollbackEnds(s: Slots)
    requires s.pendingRollback == Some(true)
    ensures Step(s, Boot) == s.(bootCount := Some(0), pendingRollback := Some(false), updatePending := Some(false),
                                pendingVersion := None)
  {
  }
}
