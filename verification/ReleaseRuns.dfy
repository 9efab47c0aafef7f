/**
 The releases a device accepts and confirms over runs of the update, rollback and watchdog
 commands. An offer is gated by the installed version, which only a confirmation changes.
 */
module ReleaseRuns {
  import opened Options
  import opened TextLines
  import opened ReleaseVersion
  import opened ReleaseText
  import opened AbSlots
  import opened AbDevice
  import opened AbRollback

  // The installed release as the updater reads it.
  function Installed(d: Disk): string {
    AsRead(d.installed)
  }

  // An offer whose manifest loads and which is newer than the installed release.
  predicate Accepts(d: Disk, offer: string) {
    IsValidReleaseVersion(offer) && IsNewer(offer, Installed(d))
  }

  // A command of a run; an offer that is not accepted does nothing.
  function Gated(d: Disk, c: Command, digest: Digest): Disk {
    if c.ApplyUpdate? && !Accepts(d, c.latest) then d else Exec(d, c, digest)
  }

  function After(d: Disk, commands: seq<Command>, digest: Digest): Disk
    decreases |commands|
  {
    if commands == [] then d
    else Gated(After(d, commands[..|commands| - 1], digest), commands[|commands| - 1], digest)
  }

  predicate IsPending(d: Disk) {
    d.record.Some? && IsTrue(d.record.value.updatePending)
  }

  // An offer that passes the gate and is written to a slot.
  predicate TakesOffer(d: Disk, c: Command, digest: Digest) {
    c.ApplyUpdate? && Accepts(d, c.latest) && SwapDisk(d, c.art, c.latest, c.io, digest).1.Ok?
  }

  // A healthy probe of a pending update, which records its version.
  predicate Confirms(d: Disk, c: Command) {
    c.HealthProbe? && c.healthy && IsPending(d) && d.record.value.pendingVersion.Some?
  }

  // The releases a run accepts, in order.
  function Accepted(d: Disk, commands: seq<Command>, digest: Digest): seq<string>
    decreases |commands|
  {
    if commands == [] then []
    else
      var before, c := commands[..|commands| - 1], commands[|commands| - 1];
      Accepted(d, before, digest) + if TakesOffer(After(d, before, digest), c, digest) then [c.latest] else []
  }

  // The releases a run confirms, in order.
  function Confirmed(d: Disk, commands: seq<Command>, digest: Digest): seq<string>
    decreases |commands|
  {
    if commands == [] then []
    else
      var before, c := commands[..|commands| - 1], commands[|commands| - 1];
      var e := After(d, before, digest);
      Confirmed(d, before, digest) + if Confirms(e, c) then [e.record.value.pendingVersion.value] else []
  }

  // Every offer that can be accepted keeps its rank when it is read back.
  predicate KeepingOffers(commands: seq<Command>) {
    forall c :: c in commands && c.ApplyUpdate? ==> Keeping(c.latest)
  }

  predicate Keeping(offer: string) {
    IsValidReleaseVersion(offer) ==> KeepsRank(offer)
  }

  // ---- what one command does ----

  // A pending release keeps its rank, and would be read back as the installed one or newer.
  predicate Ahead(d: Disk) {
    IsPending(d) ==>
      && d.record.value.pendingVersion.Some?
      && IsValidReleaseVersion(d.record.value.pendingVersion.value) && KeepsRank(d.record.value.pendingVersion.value)
      && NotBelow(AsRead(d.record.value.pendingVersion.value), Installed(d))
  }

  lemma UpdateEffect(d: Disk, c: Command, digest: Digest)
    requires c.ApplyUpdate?
    ensures var e := Gated(d, c, digest);
            && e.installed == d.installed
            && (TakesOffer(d, c, digest) ==> IsPending(e) && e.record.value.pendingVersion == Some(c.latest))
            && (!TakesOffer(d, c, digest) ==> e.record == d.record)
  {
    hide Accepts, Destination;
  }

  lemma WatchdogEffect(d: Disk, c: Command, digest: Digest)
    requires !c.ApplyUpdate?
    ensures var e := Gated(d, c, digest);
            && e.installed == (if Confirms(d, c) then d.record.value.pendingVersion.value else d.installed)
            && (IsPending(e) ==> IsPending(d) && e.record.value.pendingVersion == d.record.value.pendingVersion)
  {
    hide Verified;
  }

  // One command keeps a pending release ahead, and never lowers the installed one.
  lemma StepClimbs(d: Disk, c: Command, digest: Digest)
    requires Ahead(d) && (c.ApplyUpdate? ==> Keeping(c.latest))
    ensures Ahead(Gated(d, c, digest)) && NotBelow(Installed(Gated(d, c, digest)), Installed(d))
    ensures Confirms(d, c) ==> (var v := d.record.value.pendingVersion.value;
                                && Installed(Gated(d, c, digest)) == AsRead(v) && NotBelow(AsRead(v), v))
    ensures !Confirms(d, c) ==> Installed(Gated(d, c, digest)) == Installed(d)
  {
    hide Gated, IsNewer, AsRead, IsValidReleaseVersion, KeepsRank, SwapDisk;
    if c.ApplyUpdate? {
      UpdateEffect(d, c, digest);
      if TakesOffer(d, c, digest) {
        KeptRank(c.latest, Installed(d));
      }
    } else {
      WatchdogEffect(d, c, digest);
      if Confirms(d, c) {
        KeptRank(d.record.value.pendingVersion.value, Installed(d));
      }
    }
  }

  lemma KeepingPrefix(commands: seq<Command>)
    requires KeepingOffers(commands) && commands != []
    ensures KeepingOffers(commands[..|commands| - 1])
    ensures commands[|commands| - 1].ApplyUpdate? ==> Keeping(commands[|commands| - 1].latest)
  {
    hide Keeping;
    assert commands[|commands| - 1] in commands;
  }

  // ---- the installed version ----

  // Over every run, interrupted or not, whose offers keep their rank, the installed release
  // never goes down; it ends as the last release confirmed, as that is read back, and none
  // that was confirmed is above it.
  lemma {:induction false} InstalledClimbs(d: Disk, commands: seq<Command>, digest: Digest)
    requires Ahead(d) && KeepingOffers(commands)
    ensures var e, confirmed := After(d, commands, digest), Confirmed(d, commands, digest);
            && Ahead(e) && NotBelow(Installed(e), Installed(d))
            && Installed(e) == (if confirmed == [] then Installed(d) else AsRead(confirmed[|confirmed| - 1]))
            && forall i :: 0 <= i < |confirmed| ==>
                 NotBelow(Installed(e), confirmed[i]) && NotBelow(Installed(e), AsRead(confirmed[i]))
    decreases |commands|
  {
    hide Ahead, Gated, NotBelow, Installed, AsRead, KeepingOffers, Keeping, Confirms;
    if commands == [] {
      assert NotBelow(Installed(d), Installed(d)) by { SameNotBelow(Installed(d)); }
    } else {
      var before, c := commands[..|commands| - 1], commands[|commands| - 1];
      KeepingPrefix(commands);
      InstalledClimbs(d, before, digest);
      var e, f := After(d, before, digest), After(d, commands, digest);
      StepClimbs(e, c, digest);
      NewerNotBelow(Installed(f), Installed(e), Installed(d));
      var earlier, confirmed := Confirmed(d, before, digest), Confirmed(d, commands, digest);
      forall i | 0 <= i < |confirmed|
        ensures NotBelow(Installed(f), confirmed[i]) && NotBelow(Installed(f), AsRead(confirmed[i]))
      {
        if i < |earlier| {
          NewerNotBelow(Installed(f), Installed(e), earlier[i]);
          NewerNotBelow(Installed(f), Installed(e), AsRead(earlier[i]));
        } else {
          SameNotBelow(Installed(f));
        }
      }
    }
  }

  // The device with a version file of the given text.
  function Holding(d: Disk, text: string): Disk {
    d.(installed := text)
  }

  predicate OffersFrom(commands: seq<Command>, offers: set<string>) {
    forall c :: c in commands && c.ApplyUpdate? ==> c.latest in offers
  }

  // An offer that loses its rank, accepted and confirmed above the release just below it.
  lemma ConfirmedFalls(d: Disk, v: string, image: string, digest: Digest)
    requires Provisioned(d) && IsValidReleaseVersion(v) && !KeepsRank(v)
    ensures var w := JustAbove(v);
            var commands := [SmoothUpdate(v, image, digest), HealthProbe(true, false)];
            var e := After(Holding(d, w), commands, digest);
            Tidy(w) && Installed(e) == AsRead(v) && IsNewer(w, Installed(e)) && !NotBelow(Installed(e), w)
  {
    hide IsNewer, Provisioned, After, IsValidReleaseVersion, KeepsRank, NotBelow, JustAbove, Gated;
    var w, h := JustAbove(v), Holding(d, JustAbove(v));
    LostRank(v);
    assert Provisioned(h) by { ProvisionedHolding(d, w); }
    var offer, probe := SmoothUpdate(v, image, digest), HealthProbe(true, false);
    SmoothUpdateTaken(h, v, image, digest);
    NoCommands(h, digest);
    AfterSnoc(h, [], offer, digest);
    AfterSnoc(h, [offer], probe, digest);
    assert [] + [offer] == [offer] && [offer] + [probe] == [offer, probe];
    UpdateEffect(h, offer, digest);
    WatchdogEffect(Gated(h, offer, digest), probe, digest);
  }

  lemma ProvisionedHolding(d: Disk, text: string)
    requires Provisioned(d)
    ensures Provisioned(Holding(d, text))
  {
  }

  lemma NeverFalls(d: Disk, offers: set<string>, commands: seq<Command>, w: string, digest: Digest)
    requires !IsPending(d) && Tidy(w) && OffersFrom(commands, offers) && forall v :: v in offers ==> KeepsRank(v)
    ensures NotBelow(Installed(After(Holding(d, w), commands, digest)), w)
  {
    hide After, Installed, NotBelow, KeepsRank, Tidy, Confirmed;
    InstalledClimbs(Holding(d, w), commands, digest);
    HoldingIs(d, w);
  }

  // For every set of valid releases a device may be offered: the installed release never goes
  // down, whatever it is and however the run goes, if and only if each of them has a suffix
  // that ends in no white space or is nothing but white space.
  lemma NeverFallsExactly(d: Disk, offers: set<string>, digest: Digest)
    requires Provisioned(d) && !IsPending(d) && forall v :: v in offers ==> IsValidReleaseVersion(v)
    ensures (forall commands, w :: Tidy(w) && OffersFrom(commands, offers) ==>
                                     NotBelow(Installed(After(Holding(d, w), commands, digest)), w))
            <==> forall v :: v in offers ==> KeepsRank(v)
  {
    hide *;
    if forall v :: v in offers ==> KeepsRank(v) {
      forall commands, w | Tidy(w) && OffersFrom(commands, offers)
        ensures NotBelow(Installed(After(Holding(d, w), commands, digest)), w)
      {
        NeverFalls(d, offers, commands, w, digest);
      }
    } else {
      var v :| v in offers && !KeepsRank(v);
      ConfirmedFalls(d, v, "", digest);
      OffersOne(v, offers, digest);
    }
  }

  lemma OffersOne(v: string, offers: set<string>, digest: Digest)
    requires v in offers
    ensures OffersFrom([SmoothUpdate(v, "", digest), HealthProbe(true, false)], offers)
  {
  }

  lemma HoldingIs(d: Disk, w: string)
    requires Tidy(w)
    ensures Installed(Holding(d, w)) == w
  {
  }

  // One such run: above `a!` a release with suffix `a` and a wide space is accepted, and read
  // back as `a`, which is older.
  lemma UntidyFalls(d: Disk, core: string, image: string, digest: Digest)
    requires Provisioned(d) && IsValidReleaseVersion(core) && '-' !in core
    requires Installed(d) == PreRelease(core, "a!")
    ensures var offer := SmoothUpdate(PreRelease(core, "a\U{2003}"), image, digest);
            var e := After(d, [offer, HealthProbe(true, false)], digest);
            Installed(e) == PreRelease(core, "a") && IsNewer(Installed(d), Installed(e))
  {
    hide IsNewer, PreRelease, Provisioned, After, Gated, Trim, IsValidReleaseVersion;
    var v := PreRelease(core, "a\U{2003}");
    var offer, probe := SmoothUpdate(v, image, digest), HealthProbe(true, false);
    ValidPreRelease(core, "a\U{2003}");
    WideSpace(core);
    SmoothUpdateTaken(d, v, image, digest);
    NoCommands(d, digest);
    AfterSnoc(d, [], offer, digest);
    AfterSnoc(d, [offer], probe, digest);
    assert [] + [offer] == [offer] && [offer] + [probe] == [offer, probe];
    UpdateEffect(d, offer, digest);
    WatchdogEffect(Gated(d, offer, digest), probe, digest);
    WideSpaceTrims(core);
  }

  lemma WideSpaceTrims(core: string)
    requires IsValidReleaseVersion(core) && '-' !in core
    ensures AsRead(PreRelease(core, "a\U{2003}")) == PreRelease(core, "a")
  {
    hide IsValidReleaseVersion, SplitOn, Trim;
    CoreEnds(core);
    Absent(core, '-');
    TrimFrom(core, "a\U{2003}");
    assert TrimEnd("a\U{2003}") == "a";
  }

  // ---- the accepted releases ----

  // Every valid release above the installed one is newer than all of a list of valid releases
  // if and only if none of those is newer than the installed one.
  lemma NoReturn(installed: string, accepted: seq<string>)
    requires forall a :: a in accepted ==> IsValidReleaseVersion(a)
    ensures (forall offer :: IsValidReleaseVersion(offer) && IsNewer(offer, installed) ==>
                               forall a :: a in accepted ==> IsNewer(offer, a))
            <==> forall a :: a in accepted ==> !IsNewer(a, installed)
  {
    hide IsNewer, IsValidReleaseVersion;
    if forall a :: a in accepted ==> !IsNewer(a, installed) {
      forall offer, a | IsValidReleaseVersion(offer) && IsNewer(offer, installed) && a in accepted
        ensures IsNewer(offer, a)
      {
        StrictWeakOrder(offer, a, installed);
      }
    } else {
      var a :| a in accepted && IsNewer(a, installed);
      StrictWeakOrder(a, a, a);
    }
  }

  // The manifest of every accepted release was valid.
  lemma {:induction false} AcceptedValid(d: Disk, commands: seq<Command>, digest: Digest)
    ensures forall a :: a in Accepted(d, commands, digest) ==> IsValidReleaseVersion(a)
    decreases |commands|
  {
    hide IsValidReleaseVersion, SwapDisk, After;
    if commands != [] {
      AcceptedValid(d, commands[..|commands| - 1], digest);
    }
  }

  // A run in which every pending update is left only by a confirmation: nothing is offered
  // while one is pending, and none is rolled back.
  predicate Resolved(d: Disk, commands: seq<Command>, digest: Digest)
    decreases |commands|
  {
    commands == [] ||
    (var before, c := commands[..|commands| - 1], commands[|commands| - 1];
     var e := After(d, before, digest);
     && Resolved(d, before, digest)
     && (IsPending(e) ==> !c.ApplyUpdate? && (IsPending(Gated(e, c, digest)) || Confirms(e, c))))
  }

  // Each release is newer than all before it.
  predicate Climbs(releases: seq<string>) {
    forall i, j :: 0 <= i < j < |releases| ==> IsNewer(releases[j], releases[i])
  }

  // What was accepted is not newer than what is installed, but for the pending release.
  predicate Caught(e: Disk, accepted: seq<string>) {
    forall i :: 0 <= i < |accepted| ==>
      !IsNewer(accepted[i], Installed(e))
      || (IsPending(e) && e.record.value.pendingVersion == Some(accepted[i]))
  }

  // Over such a run no accepted release comes back: each is newer than all before it.
  lemma {:induction false} ResolvedClimbs(d: Disk, commands: seq<Command>, digest: Digest)
    requires Ahead(d) && !IsPending(d) && KeepingOffers(commands) && Resolved(d, commands, digest)
    ensures Climbs(Accepted(d, commands, digest))
    ensures Caught(After(d, commands, digest), Accepted(d, commands, digest))
    ensures Ahead(After(d, commands, digest))
    decreases |commands|
  {
    hide Ahead, Gated, Installed, KeepingOffers, Keeping, IsNewer, Accepts, SwapDisk, NotBelow;
    if commands != [] {
      var before, c := commands[..|commands| - 1], commands[|commands| - 1];
      KeepingPrefix(commands);
      ResolvedClimbs(d, before, digest);
      var e, accepted := After(d, before, digest), Accepted(d, before, digest);
      StepClimbs(e, c, digest);
      if c.ApplyUpdate? {
        UpdateEffect(e, c, digest);
        if TakesOffer(e, c, digest) {
          OfferClimbs(e, accepted, c.latest);
        }
      } else {
        WatchdogEffect(e, c, digest);
        CaughtStep(e, Gated(e, c, digest), accepted, Confirms(e, c));
      }
    }
  }

  lemma OfferClimbs(e: Disk, accepted: seq<string>, offer: string)
    requires Climbs(accepted) && Caught(e, accepted) && !IsPending(e) && Accepts(e, offer)
    ensures Climbs(accepted + [offer])
  {
    hide Installed, IsNewer;
    forall i | 0 <= i < |accepted|
      ensures IsNewer(offer, accepted[i])
    {
      StrictWeakOrder(offer, accepted[i], Installed(e));
    }
  }

  lemma CaughtStep(e: Disk, f: Disk, accepted: seq<string>, confirms: bool)
    requires Caught(e, accepted) && NotBelow(Installed(f), Installed(e))
    requires IsPending(f) ==> IsPending(e) && f.record.value.pendingVersion == e.record.value.pendingVersion
    requires IsPending(e) ==> IsPending(f) || confirms
    requires confirms ==> (&& IsPending(e) && e.record.value.pendingVersion.Some?
                           && NotBelow(Installed(f), e.record.value.pendingVersion.value))
    ensures Caught(f, accepted)
  {
    hide Installed, IsNewer;
    forall i | 0 <= i < |accepted| && !(IsPending(f) && f.record.value.pendingVersion == Some(accepted[i]))
      ensures !IsNewer(accepted[i], Installed(f))
    {
      StrictWeakOrder(accepted[i], Installed(f), Installed(e));
      StrictWeakOrder(accepted[i], accepted[i], accepted[i]);
      StrictWeakOrder(Installed(f), accepted[i], accepted[i]);
    }
  }

  // ---- when it can come back ----

  // An update that nothing disturbs.
  function SmoothUpdate(v: string, image: string, digest: Digest): Command {
    ApplyUpdate(Artefact("raw", digest(image)), v, Outcome(true, image, true, true, true, Never))
  }

  lemma SmoothUpdateTaken(d: Disk, v: string, image: string, digest: Digest)
    requires Provisioned(d) && Accepts(d, v)
    ensures var c := SmoothUpdate(v, image, digest);
            var e := Gated(d, c, digest);
            && TakesOffer(d, c, digest) && Provisioned(e) && e.installed == d.installed
            && VersionOf(e.record.value, e.record.value.active) == v
  {
    hide Accepts;
    var c := SmoothUpdate(v, image, digest);
    UpdateIs(d, c.art, c.latest, c.io, digest);
  }

  lemma AfterSnoc(d: Disk, commands: seq<Command>, c: Command, digest: Digest)
    ensures After(d, commands + [c], digest) == Gated(After(d, commands, digest), c, digest)
    ensures Accepted(d, commands + [c], digest)
         == Accepted(d, commands, digest) + if TakesOffer(After(d, commands, digest), c, digest) then [c.latest] else []
  {
    assert (commands + [c])[..|commands|] == commands;
  }

  // While the accepted releases climb, they are sure to go on climbing, whatever is offered
  // next, if and only if none of them is newer than the installed version.
  lemma ClimbsOnExactly(d: Disk, commands: seq<Command>, digest: Digest)
    requires Climbs(Accepted(d, commands, digest)) && Provisioned(After(d, commands, digest))
    ensures (forall c :: Climbs(Accepted(d, commands + [c], digest)))
            <==> forall a :: a in Accepted(d, commands, digest) ==> !IsNewer(a, Installed(After(d, commands, digest)))
  {
    hide After, Accepted, Gated, Installed, IsNewer, SwapDisk, Provisioned;
    var e, accepted := After(d, commands, digest), Accepted(d, commands, digest);
    AcceptedValid(d, commands, digest);
    NoReturn(Installed(e), accepted);
    if forall a :: a in accepted ==> !IsNewer(a, Installed(e)) {
      forall c
        ensures Climbs(Accepted(d, commands + [c], digest))
      {
        AfterSnoc(d, commands, c, digest);
      }
    } else {
      var a :| a in accepted && IsNewer(a, Installed(e));
      var c := SmoothUpdate(a, "", digest);
      SmoothUpdateTaken(e, a, "", digest);
      AfterSnoc(d, commands, c, digest);
      ReturnsToItself(accepted, a);
      assert !Climbs(Accepted(d, commands + [c], digest));
    }
  }

  lemma {:induction false} PendingWasAccepted(d: Disk, commands: seq<Command>, digest: Digest)
    requires !IsPending(d)
    ensures var e := After(d, commands, digest);
            IsPending(e) ==> (&& e.record.value.pendingVersion.Some?
                              && e.record.value.pendingVersion.value in Accepted(d, commands, digest))
    decreases |commands|
  {
    hide Gated, Accepts, SwapDisk;
    if commands != [] {
      var before, c := commands[..|commands| - 1], commands[|commands| - 1];
      PendingWasAccepted(d, before, digest);
      var e := After(d, before, digest);
      if c.ApplyUpdate? {
        UpdateEffect(e, c, digest);
      } else {
        WatchdogEffect(e, c, digest);
      }
    }
  }

  // A pending update is newer than the installed release, unless its confirmation was cut
  // short after the version was written.
  predicate Outruns(d: Disk) {
    IsPending(d) && d.record.value.pendingVersion.Some? && IsNewer(d.record.value.pendingVersion.value, Installed(d))
  }

  // So after a run of that kind the next command is sure to keep the accepted releases
  // climbing if and only if no update newer than the installed release is pending.
  lemma SettledExactly(d: Disk, commands: seq<Command>, digest: Digest)
    requires Ahead(d) && !IsPending(d) && KeepingOffers(commands) && Resolved(d, commands, digest)
    requires Provisioned(After(d, commands, digest))
    ensures (forall c :: Climbs(Accepted(d, commands + [c], digest))) <==> !Outruns(After(d, commands, digest))
  {
    hide Ahead, After, Accepted, Resolved, KeepingOffers, Installed, IsNewer, Provisioned, Climbs;
    ResolvedClimbs(d, commands, digest);
    PendingWasAccepted(d, commands, digest);
    ClimbsOnExactly(d, commands, digest);
  }

  lemma ReturnsToItself(releases: seq<string>, a: string)
    requires a in releases
    ensures !Climbs(releases + [a])
  {
    hide IsNewer;
    var i :| 0 <= i < |releases| && releases[i] == a;
    StrictWeakOrder(a, a, a);
    assert (releases + [a])[i] == a && (releases + [a])[|releases|] == a;
  }

  // The version of the slot the record calls active.
  function ActiveRelease(d: Disk): string {
    if d.record.Some? then VersionOf(d.record.value, d.record.value.active) else "unknown"
  }

  // One more undisturbed update of a run.
  lemma OneMoreUpdate(d: Disk, commands: seq<Command>, v: string, image: string, digest: Digest)
    requires Provisioned(After(d, commands, digest)) && Accepts(After(d, commands, digest), v)
    ensures var e, f := After(d, commands, digest), After(d, commands + [SmoothUpdate(v, image, digest)], digest);
            Provisioned(f) && Installed(f) == Installed(e) && ActiveRelease(f) == v
    ensures Accepted(d, commands + [SmoothUpdate(v, image, digest)], digest) == Accepted(d, commands, digest) + [v]
  {
    hide After, Accepted, Gated, Accepts, SwapDisk;
    var e, c := After(d, commands, digest), SmoothUpdate(v, image, digest);
    SmoothUpdateTaken(e, v, image, digest);
    AfterSnoc(d, commands, c, digest);
    SameInstalled(e, Gated(e, c, digest));
  }

  // With no confirmation in between, two releases above the installed one are accepted, left
  // and accepted again: the active slot holds the higher, the lower, the higher.
  lemma AcceptedCycle(d: Disk, high: string, low: string, image: string, digest: Digest)
    requires Provisioned(d) && IsValidReleaseVersion(high) && IsNewer(high, low) && Accepts(d, low)
    ensures var up, down := SmoothUpdate(high, image, digest), SmoothUpdate(low, image, digest);
            && Accepted(d, [up, down, up], digest) == [high, low, high]
            && ActiveRelease(After(d, [up], digest)) == high
            && ActiveRelease(After(d, [up, down], digest)) == low
            && ActiveRelease(After(d, [up, down, up], digest)) == high
  {
    hide After, Accepted, Installed, IsNewer, SmoothUpdate, Provisioned, ActiveRelease;
    var up, down := SmoothUpdate(high, image, digest), SmoothUpdate(low, image, digest);
    StrictWeakOrder(high, low, Installed(d));
    NoCommands(d, digest);
    OneMoreUpdate(d, [], high, image, digest);
    assert [] + [up] == [up] && [] + [high] == [high];
    OneMoreUpdate(d, [up], low, image, digest);
    assert [up] + [down] == [up, down] && [high] + [low] == [high, low];
    OneMoreUpdate(d, [up, down], high, image, digest);
    assert [up, down] + [up] == [up, down, up] && [high, low] + [high] == [high, low, high];
  }

  lemma SameInstalled(d: Disk, e: Disk)
    requires e.installed == d.installed
    ensures Installed(e) == Installed(d)
  {
  }

  lemma NoCommands(d: Disk, digest: Digest)
    ensures After(d, [], digest) == d && Accepted(d, [], digest) == []
  {
  }

  // Such a pair exists above a first pre-release: its second, and the release itself.
  lemma ReleaseCycle(d: Disk, core: string, image: string, digest: Digest)
    requires Provisioned(d) && IsValidReleaseVersion(core) && '-' !in core && Installed(d) == PreRelease(core, "a")
    ensures var up, down := SmoothUpdate(core, image, digest), SmoothUpdate(PreRelease(core, "b"), image, digest);
            Accepted(d, [up, down, up], digest) == [core, PreRelease(core, "b"), core]
  {
    hide IsNewer, PreRelease, Installed, Provisioned, SmoothUpdate, Accepted, After;
    Ladder(core);
    ValidPreRelease(core, "b");
    AcceptedCycle(d, core, PreRelease(core, "b"), image, digest);
  }
}
