/**
 The profile bundle: what of a device is captured in it, the plan that puts it back, and the
 round trip from one device's files to the same files on another.
 */
module Backup {
  import opened Options
  import opened FileTree
  import opened Restore
  import opened RestoreSafety
  import opened RestoreRuns

  // Where a device keeps what is backed up.
  datatype Layout = Layout(dataDir: Path, hooksDir: Path, secretsFile: Path, sessionDb: Option<Path>)

  datatype Kind = Data | Hooks | Secrets | SessionDb

  function PathOf(l: Layout, k: Kind): Option<Path> {
    match k
    case Data => Some(l.dataDir)
    case Hooks => Some(l.hooksDir)
    case Secrets => Some(l.secretsFile)
    case SessionDb => l.sessionDb
  }

  // The component's name in reports, and its entry in the bundle.
  function Label(k: Kind): string {
    match k case Data => "data" case Hooks => "hooks" case Secrets => "secrets" case SessionDb => "session.db"
  }

  function Entry(k: Kind): string {
    match k case Data => "data" case Hooks => "hooks" case Secrets => "secrets.env" case SessionDb => "session.db"
  }

  const MANIFEST: string := "BUNDLE.json"

  predicate IsFileKind(k: Kind) {
    k == Secrets || k == SessionDb
  }

  predicate IsWithin(parent: Path, child: Path) {
    parent <= child
  }

  // A directory or file of the right kind is there; the session database is left out when
  // it is captured with the data.
  predicate Includes(device: Tree, l: Layout, k: Kind) {
    && PathOf(l, k).Some?
    && (if IsFileKind(k) then IsFile(device, PathOf(l, k).value) else IsDir(device, PathOf(l, k).value))
    && (k == SessionDb ==> !IsWithin(l.dataDir, PathOf(l, k).value))
  }

  // ---- the bundle ----

  function Staged(t: Tree, device: Tree, l: Layout, k: Kind): Tree {
    if Includes(device, l, k) then Graft(t, [Entry(k)], Sub(device, PathOf(l, k).value)) else t
  }

  function Components(device: Tree, l: Layout): Tree {
    Staged(Staged(Staged(Staged(EMPTY_DIR, device, l, Data), device, l, Hooks), device, l, Secrets),
           device, l, SessionDb)
  }

  function Bundle(device: Tree, l: Layout, manifest: string): Tree {
    Components(device, l)[[MANIFEST] := File(manifest)]
  }

  function Listed(device: Tree, l: Layout, k: Kind): seq<string> {
    if Includes(device, l, k) then [Label(k)] else []
  }

  function Included(device: Tree, l: Layout): seq<string> {
    Listed(device, l, Data) + Listed(device, l, Hooks) + Listed(device, l, Secrets) + Listed(device, l, SessionDb)
    + [MANIFEST]
  }

  // The staged tree holds nothing but its root and entries of the given kinds.
  predicate StagedOnly(t: Tree, kinds: set<Kind>) {
    && WellFormed(t)
    && forall p :: p in t ==> p == [] || exists k :: k in kinds && p[0] == Entry(k)
  }

  lemma EntriesDiffer(j: Kind, k: Kind)
    ensures Entry(j) == Entry(k) <==> j == k
    ensures Entry(k) != MANIFEST
  {
  }

  lemma Unstaged(t: Tree, kinds: set<Kind>, k: Kind)
    requires StagedOnly(t, kinds) && k !in kinds
    ensures [Entry(k)] !in t && ParentIsDir(t, [Entry(k)])
  {
    hide Entry;
    if [Entry(k)] in t {
      var j :| j in kinds && [Entry(k)][0] == Entry(j);
      EntriesDiffer(j, k);
      assert false;
    }
    assert [Entry(k)][..0] == [];
  }

  lemma StagedGrows(t: Tree, device: Tree, l: Layout, kinds: set<Kind>, k: Kind)
    requires StagedOnly(t, kinds) && WellFormed(device) && k !in kinds
    ensures StagedOnly(Staged(t, device, l, k), kinds + {k})
  {
    hide Entry, Graft, Sub, WellFormed, Subtree;
    Unstaged(t, kinds, k);
    if Includes(device, l, k) {
      SubIsSubtree(device, PathOf(l, k).value);
      GraftWellFormed(t, [Entry(k)], Sub(device, PathOf(l, k).value));
      forall p | p in Staged(t, device, l, k)
        ensures p == [] || exists j :: j in kinds + {k} && p[0] == Entry(j)
      {
        assert At(Staged(t, device, l, k), p).Some?;
        if [Entry(k)] <= p {
          assert p[0] == Entry(k) && k in kinds + {k};
        } else if p != [] {
          var j :| j in kinds && p[0] == Entry(j);
          assert j in kinds + {k};
        }
      }
    }
  }

  lemma StartEmpty()
    ensures StagedOnly(EMPTY_DIR, {})
  {
  }

  // Each captured component is in the bundle as it is on the device, and no other is.
  lemma StagedHolds(t: Tree, device: Tree, l: Layout, kinds: set<Kind>, k: Kind)
    requires StagedOnly(t, kinds) && k !in kinds && WellFormed(device)
    ensures Includes(device, l, k) ==> Sub(Staged(t, device, l, k), [Entry(k)]) == Sub(device, PathOf(l, k).value)
    ensures Includes(device, l, k) <==> [Entry(k)] in Staged(t, device, l, k)
    ensures forall j :: j != k ==> Sub(Staged(t, device, l, k), [Entry(j)]) == Sub(t, [Entry(j)])
                                   && ([Entry(j)] in Staged(t, device, l, k) <==> [Entry(j)] in t)
  {
    hide Entry, Graft, Sub, WellFormed;
    Unstaged(t, kinds, k);
    if Includes(device, l, k) {
      var s := Sub(device, PathOf(l, k).value);
      var r := Staged(t, device, l, k);
      forall q
        ensures At(Sub(r, [Entry(k)]), q) == At(s, q)
      {
        SubOfGraft(t, [Entry(k)], s, q);
      }
      TreesEqual(Sub(r, [Entry(k)]), s);
      assert PathOf(l, k).value + [] == PathOf(l, k).value;
      assert [Entry(k)] + [] == [Entry(k)];
      assert [] in s && [] in Sub(r, [Entry(k)]);
      forall j | j != k
        ensures Sub(r, [Entry(j)]) == Sub(t, [Entry(j)]) && ([Entry(j)] in r <==> [Entry(j)] in t)
      {
        EntriesDiffer(j, k);
        OtherEntry(t, Entry(k), s, Entry(j));
      }
    }
  }

  lemma SubOfGraft(t: Tree, d: Path, s: Tree, q: Path)
    ensures At(Sub(Graft(t, d, s), d), q) == At(s, q)
  {
    hide Sub, Graft;
    assert (d + q)[|d|..] == q && d <= d + q;
    assert At(Graft(t, d, s), d + q) == At(s, q);
  }

  lemma OtherEntry(t: Tree, e: string, s: Tree, other: string)
    requires e != other
    ensures Sub(Graft(t, [e], s), [other]) == Sub(t, [other])
    ensures [other] in Graft(t, [e], s) <==> [other] in t
  {
    hide Sub, Graft;
    var r := Graft(t, [e], s);
    forall q
      ensures At(Sub(r, [other]), q) == At(Sub(t, [other]), q)
    {
      assert ([other] + q)[0] == other && !([e] <= [other] + q);
      assert At(r, [other] + q) == At(t, [other] + q);
    }
    TreesEqual(Sub(r, [other]), Sub(t, [other]));
    assert [other][0] == other;
    assert At(r, [other]) == At(t, [other]);
  }

  // ---- building it ----

  method StageDir(staging: FileSystem, device: Tree, src: Path, name: string)
    requires WellFormed(device) && IsDir(device, src)
    requires WellFormed(staging.tree) && [name] !in staging.tree
    modifies staging
    ensures staging.tree == Graft(old(staging.tree), [name], Sub(device, src))
  {
    hide WellFormed, Graft, Sub, Extended, Missing, Ready, Blocked;
    ghost var before := staging.tree;
    assert ParentIsDir(before, [name]) by { TopLevel(before, name); }
    FreeUnblocked(before, [name]);
    CreatedIsReady(before, [name]);
    GraftCreated(before, [name], Sub(device, src));
    var _ := staging.CreateDirs([name]);
    var _ := staging.CopyDirRecursive(device, src, [name], map[]);
  }

  lemma TopLevel(t: Tree, name: string)
    requires WellFormed(t)
    ensures ParentIsDir(t, [name])
  {
    assert [name][..0] == [];
  }

  method StageFile(staging: FileSystem, device: Tree, src: Path, name: string)
    requires WellFormed(device) && IsFile(device, src)
    requires WellFormed(staging.tree) && [name] !in staging.tree
    modifies staging
    ensures staging.tree == Graft(old(staging.tree), [name], Sub(device, src))
  {
    hide WellFormed, Graft, Sub, Subtree;
    SubIsSubtree(device, src);
    assert src + [] == src;
    FileGrafted(staging.tree, [name], Sub(device, src));
    staging.tree := staging.tree[[name] := device[src]];
  }

  // One component, when the device has it.
  method Stage(staging: FileSystem, device: Tree, l: Layout, k: Kind, ghost kinds: set<Kind>)
    returns (listed: seq<string>)
    requires WellFormed(device) && StagedOnly(staging.tree, kinds) && k !in kinds
    modifies staging
    ensures staging.tree == Staged(old(staging.tree), device, l, k) && StagedOnly(staging.tree, kinds + {k})
    ensures listed == Listed(device, l, k)
  {
    hide WellFormed, Graft, Sub, StagedOnly, Entry, Label;
    OnlyWellFormed(staging.tree, kinds);
    Unstaged(staging.tree, kinds, k);
    StagedGrows(staging.tree, device, l, kinds, k);
    if !Includes(device, l, k) {
      return [];
    }
    if IsFileKind(k) {
      StageFile(staging, device, PathOf(l, k).value, Entry(k));
    } else {
      StageDir(staging, device, PathOf(l, k).value, Entry(k));
    }
    listed := [Label(k)];
  }

  method BuildProfileBundle(staging: FileSystem, device: Tree, l: Layout, manifest: string)
    returns (included: seq<string>)
    requires WellFormed(device) && staging.tree == EMPTY_DIR
    modifies staging
    ensures staging.tree == Bundle(device, l, manifest)
    ensures included == Included(device, l)
  {
    hide WellFormed, Staged, Listed, StagedOnly;
    StartEmpty();
    included := Stage(staging, device, l, Data, {});
    var hooks := Stage(staging, device, l, Hooks, {} + {Data});
    included := included + hooks;
    var secrets := Stage(staging, device, l, Secrets, {} + {Data} + {Hooks});
    included := included + secrets;
    var session := Stage(staging, device, l, SessionDb, {} + {Data} + {Hooks} + {Secrets});
    included := included + session;
    staging.tree := staging.tree[[MANIFEST] := File(manifest)];
    included := included + [MANIFEST];
  }

  lemma OnlyWellFormed(t: Tree, kinds: set<Kind>)
    requires StagedOnly(t, kinds)
    ensures WellFormed(t)
  {
  }

  // ---- what the bundle holds ----

  lemma ManifestApart(t: Tree, manifest: string, k: Kind)
    ensures Sub(t[[MANIFEST] := File(manifest)], [Entry(k)]) == Sub(t, [Entry(k)])
    ensures [Entry(k)] in t[[MANIFEST] := File(manifest)] <==> [Entry(k)] in t
  {
    hide Entry, Sub;
    EntriesDiffer(k, k);
    var r := t[[MANIFEST] := File(manifest)];
    forall q
      ensures At(Sub(r, [Entry(k)]), q) == At(Sub(t, [Entry(k)]), q)
    {
      assert ([Entry(k)] + q)[0] == Entry(k) && [MANIFEST][0] == MANIFEST;
    }
    TreesEqual(Sub(r, [Entry(k)]), Sub(t, [Entry(k)]));
    assert [Entry(k)][0] == Entry(k) && [MANIFEST][0] == MANIFEST;
  }

  // The bundle holds exactly the included components, each as it is on the device.
  lemma BundleHolds(device: Tree, l: Layout, manifest: string, k: Kind)
    requires WellFormed(device)
    ensures [Entry(k)] in Bundle(device, l, manifest) <==> Includes(device, l, k)
    ensures Includes(device, l, k) ==> Sub(Bundle(device, l, manifest), [Entry(k)]) == Sub(device, PathOf(l, k).value)
    ensures IsFile(Bundle(device, l, manifest), [MANIFEST])
  {
    hide WellFormed, Staged, StagedOnly, Sub, Entry, Includes;
    var t0 := EMPTY_DIR;
    StartEmpty();
    StagedHolds(t0, device, l, {}, Data);
    StagedGrows(t0, device, l, {}, Data);
    var t1 := Staged(t0, device, l, Data);
    StagedHolds(t1, device, l, {} + {Data}, Hooks);
    StagedGrows(t1, device, l, {} + {Data}, Hooks);
    var t2 := Staged(t1, device, l, Hooks);
    StagedHolds(t2, device, l, {} + {Data} + {Hooks}, Secrets);
    StagedGrows(t2, device, l, {} + {Data} + {Hooks}, Secrets);
    var t3 := Staged(t2, device, l, Secrets);
    StagedHolds(t3, device, l, {} + {Data} + {Hooks} + {Secrets}, SessionDb);
    ManifestApart(Components(device, l), manifest, k);
    assert [Entry(k)] !in t0;
    match k case Data => case Hooks => case Secrets => case SessionDb =>
  }

  // ---- the same by the device's files ----

  // What lies under the entry `e` of the bundle is what lies at `p` on the device.
  ghost predicate Copied(bundle: Tree, e: string, device: Tree, p: Path) {
    forall q :: At(bundle, [e] + q) == At(device, p + q)
  }

  lemma CopiedIs(device: Tree, l: Layout, manifest: string, k: Kind)
    requires WellFormed(device) && Includes(device, l, k)
    ensures Copied(Bundle(device, l, manifest), Entry(k), device, PathOf(l, k).value)
  {
    hide Bundle, Entry, Sub;
    var b, p := Bundle(device, l, manifest), PathOf(l, k).value;
    BundleHolds(device, l, manifest, k);
    forall q
      ensures At(b, [Entry(k)] + q) == At(device, p + q)
    {
      assert At(Sub(b, [Entry(k)]), q) == At(Sub(device, p), q);
    }
  }

  // The directories of data and hooks are captured with all below them, and the secrets file
  // and a session database outside the data directory with their contents, each exactly when
  // it is there; and the bundle says what it is.
  lemma CapturedFiles(device: Tree, l: Layout, manifest: string)
    requires WellFormed(device)
    ensures var b := Bundle(device, l, manifest);
            && (if IsDir(device, l.dataDir) then Copied(b, "data", device, l.dataDir) else ["data"] !in b)
            && (if IsDir(device, l.hooksDir) then Copied(b, "hooks", device, l.hooksDir) else ["hooks"] !in b)
            && (if IsFile(device, l.secretsFile) then At(b, ["secrets.env"]) == At(device, l.secretsFile)
                else ["secrets.env"] !in b)
            && (if l.sessionDb.Some? && IsFile(device, l.sessionDb.value) && !(l.dataDir <= l.sessionDb.value)
                then At(b, ["session.db"]) == At(device, l.sessionDb.value) else ["session.db"] !in b)
            && At(b, ["BUNDLE.json"]) == Some(File(manifest))
  {
    hide Bundle, WellFormed, Sub;
    var b := Bundle(device, l, manifest);
    forall k
      ensures Includes(device, l, k) ==> Copied(b, Entry(k), device, PathOf(l, k).value)
      ensures Includes(device, l, k) <==> [Entry(k)] in b
    {
      BundleHolds(device, l, manifest, k);
      if Includes(device, l, k) {
        CopiedIs(device, l, manifest, k);
      }
    }
    assert Includes(device, l, Data) <==> IsDir(device, l.dataDir);
    assert Includes(device, l, Hooks) <==> IsDir(device, l.hooksDir);
    assert Includes(device, l, Secrets) <==> IsFile(device, l.secretsFile);
    assert Includes(device, l, SessionDb) <==>
             l.sessionDb.Some? && IsFile(device, l.sessionDb.value) && !(l.dataDir <= l.sessionDb.value);
    CopiedRoot(b, "secrets.env", device, l.secretsFile);
    if l.sessionDb.Some? {
      CopiedRoot(b, "session.db", device, l.sessionDb.value);
    }
    assert At(b, ["BUNDLE.json"]) == Some(File(manifest)) by { ManifestIs(device, l, manifest); }
  }

  lemma CopiedRoot(bundle: Tree, e: string, device: Tree, p: Path)
    ensures Copied(bundle, e, device, p) ==> At(bundle, [e]) == At(device, p)
  {
    assert [e] + [] == [e] && p + [] == p;
  }

  lemma ManifestIs(device: Tree, l: Layout, manifest: string)
    ensures At(Bundle(device, l, manifest), ["BUNDLE.json"]) == Some(File(manifest))
  {
    hide Components;
  }

  // And nothing else is in the bundle.
  lemma BundleOnly(device: Tree, l: Layout, manifest: string, p: Path)
    requires WellFormed(device) && p in Bundle(device, l, manifest) && p != []
    ensures p[0] in {"data", "hooks", "secrets.env", "session.db", "BUNDLE.json"}
  {
    hide WellFormed, Staged;
    StartEmpty();
    StagedGrows(EMPTY_DIR, device, l, {}, Data);
    var t1 := Staged(EMPTY_DIR, device, l, Data);
    StagedGrows(t1, device, l, {} + {Data}, Hooks);
    var t2 := Staged(t1, device, l, Hooks);
    StagedGrows(t2, device, l, {} + {Data} + {Hooks}, Secrets);
    StagedGrows(Staged(t2, device, l, Secrets), device, l, {} + {Data} + {Hooks} + {Secrets}, SessionDb);
  }

  // The list names what was captured, in this order.
  lemma IncludedNames(device: Tree, l: Layout)
    ensures Included(device, l)
         == (if IsDir(device, l.dataDir) then ["data"] else [])
            + (if IsDir(device, l.hooksDir) then ["hooks"] else [])
            + (if IsFile(device, l.secretsFile) then ["secrets"] else [])
            + (if l.sessionDb.Some? && IsFile(device, l.sessionDb.value) && !(l.dataDir <= l.sessionDb.value)
               then ["session.db"] else [])
            + ["BUNDLE.json"]
  {
  }

  // A session database that is a file is captured, with the data or on its own, unless it is
  // configured to be the data directory itself.
  lemma SessionCaptured(device: Tree, l: Layout)
    requires WellFormed(device) && l.sessionDb.Some? && IsFile(device, l.sessionDb.value)
    ensures l.sessionDb.value != l.dataDir
       <==> Includes(device, l, SessionDb) || (Includes(device, l, Data) && IsWithin(l.dataDir, l.sessionDb.value))
  {
    if IsWithin(l.dataDir, l.sessionDb.value) {
      AncestorsExist(device, l.sessionDb.value, l.dataDir);
    }
  }

  // ---- putting it back ----

  function SourceIn(bundle: Tree, k: Kind): Option<Tree> {
    if [Entry(k)] in bundle then Some(Sub(bundle, [Entry(k)])) else None
  }

  function Kinds(l: Layout): (ks: seq<Kind>)
    ensures forall i :: 0 <= i < |ks| ==> PathOf(l, ks[i]).Some?
  {
    [Data, Hooks, Secrets] + if l.sessionDb.Some? then [SessionDb] else []
  }

  function ComponentFor(bundle: Tree, l: Layout, k: Kind): Component
    requires PathOf(l, k).Some?
  {
    Component(Label(k), SourceIn(bundle, k), PathOf(l, k).value, IsFileKind(k))
  }

  // The components of a bundle; one without a manifest is all data.
  function Plan(bundle: Tree, l: Layout): (plan: seq<Component>)
    ensures IsFile(bundle, [MANIFEST]) ==> |plan| == |Kinds(l)|
    ensures IsFile(bundle, [MANIFEST]) ==>
              forall i :: 0 <= i < |plan| ==> plan[i] == ComponentFor(bundle, l, Kinds(l)[i])
  {
    if IsFile(bundle, [MANIFEST]) then
      seq(|Kinds(l)|, i requires 0 <= i < |Kinds(l)| => ComponentFor(bundle, l, Kinds(l)[i]))
    else [Component("data", Some(bundle), l.dataDir, false)]
  }

  function FoundIn(bundle: Tree, name: string): Option<Tree> {
    if [name] in bundle then Some(Sub(bundle, [name])) else None
  }

  // The components in the order of their placement, each with its entry and its destination: data
  // first and a session database last, or the whole bundle as data when it has no manifest.
  lemma PlanIs(bundle: Tree, l: Layout)
    ensures Plan(bundle, l) ==
      if !IsFile(bundle, ["BUNDLE.json"]) then [Component("data", Some(bundle), l.dataDir, false)]
      else
        [Component("data", FoundIn(bundle, "data"), l.dataDir, false),
         Component("hooks", FoundIn(bundle, "hooks"), l.hooksDir, false),
         Component("secrets", FoundIn(bundle, "secrets.env"), l.secretsFile, true)]
        + if l.sessionDb.None? then []
          else [Component("session.db", FoundIn(bundle, "session.db"), l.sessionDb.value, true)]
  {
    hide Sub;
  }

  predicate Carries(attempts: seq<Attempt>, plan: seq<Component>) {
    |attempts| == |plan| && forall i :: 0 <= i < |plan| ==> attempts[i].comp == plan[i]
  }

  // What the i-th attempt of a restore of the bundle restores.
  lemma AttemptIs(device: Tree, from: Layout, manifest: string, to: Layout, attempts: seq<Attempt>, i: nat)
    requires WellFormed(device) && Carries(attempts, Plan(Bundle(device, from, manifest), to)) && i < |attempts|
    ensures i < |Kinds(to)|
    ensures var c, k := attempts[i].comp, Kinds(to)[i];
            && PathOf(to, k) == Some(c.dest) && c.isFile == IsFileKind(k)
            && (c.source.Some? <==> Includes(device, from, k))
            && (c.source.Some? ==> c.source.value == Sub(device, PathOf(from, k).value))
  {
    hide Bundle, Kinds, WellFormed, Sub, Includes;
    BundleHolds(device, from, manifest, Data);
    BundleHolds(device, from, manifest, Kinds(to)[i]);
  }

  // Restoring onto the same or another layout: each path of a captured component is at its
  // place under the component's destination, unless a later destination covers it.
  lemma ComponentRestored(device: Tree, from: Layout, manifest: string, t: Tree, to: Layout,
                          attempts: seq<Attempt>, ts: string, i: nat, q: Path)
    requires WellFormed(device) && FreshTree(t, ts) && FreshPlan(attempts, ts)
    requires Carries(attempts, Plan(Bundle(device, from, manifest), to)) && Forward(t, attempts, ts).failed.None?
    requires i < |attempts| && i < |Kinds(to)| && Includes(device, from, Kinds(to)[i])
    requires PathOf(from, Kinds(to)[i]).value + q in device
    requires ParentsThere(t, attempts, ts) || !EmptyDir(device, PathOf(from, Kinds(to)[i]).value)
    requires Uncovering(attempts, i + 1, PathOf(to, Kinds(to)[i]).value + q)
    ensures At(Restored(t, attempts, ts), PathOf(to, Kinds(to)[i]).value + q)
         == At(device, PathOf(from, Kinds(to)[i]).value + q)
  {
    hide Kinds, Plan, Bundle, Ongoing, Forward, FreshPlan, FreshTree, ParentsThere, WellFormed, Sub, Uncovering,
         EmptyDir;
    AttemptIs(device, from, manifest, to, attempts, i);
    Begin(t, attempts, ts);
    var d := attempts[i].comp.dest;
    assert d <= d + q && (d + q)[|d|..] == q;
    if Sub(device, PathOf(from, Kinds(to)[i]).value) == EMPTY_DIR {
      SubEmpty(device, PathOf(from, Kinds(to)[i]).value);
    }
    DestinationsHold(t, attempts, ts, {}, i, d + q);
  }

  lemma SubEmpty(t: Tree, d: Path)
    requires Sub(t, d) == EMPTY_DIR
    ensures EmptyDir(t, d)
  {
    assert [] in Sub(t, d) && d + [] == d;
    forall p | p in t && d <= p
      ensures p == d
    {
      assert d + p[|d|..] == p;
      assert p[|d|..] in Sub(t, d);
    }
  }

  // The last attempt that covers the path.
  lemma {:induction false} LastCovering(attempts: seq<Attempt>, i: nat, p: Path) returns (m: nat)
    requires i < |attempts| && attempts[i].comp.source.Some? && attempts[i].comp.dest <= p
    ensures i <= m < |attempts| && attempts[m].comp.source.Some? && attempts[m].comp.dest <= p
    ensures Uncovering(attempts, m + 1, p)
    decreases |attempts| - i
  {
    m := i;
    if k :| i < k < |attempts| && attempts[k].comp.source.Some? && attempts[k].comp.dest <= p {
      m := LastCovering(attempts, k, p);
    }
  }

  // The round trip, for destinations nested in any way: every path of the device that any
  // component captured is back as it was.
  lemma RoundTrip(device: Tree, l: Layout, manifest: string, t: Tree, attempts: seq<Attempt>, ts: string, k: Kind,
                  p: Path)
    requires WellFormed(device) && FreshTree(t, ts) && FreshPlan(attempts, ts)
    requires Carries(attempts, Plan(Bundle(device, l, manifest), l)) && Forward(t, attempts, ts).failed.None?
    requires Includes(device, l, k) && PathOf(l, k).value <= p && p in device
    requires ParentsThere(t, attempts, ts)
             || forall j :: Includes(device, l, j) ==> !EmptyDir(device, PathOf(l, j).value)
    ensures At(Restored(t, attempts, ts), p) == At(device, p)
  {
    hide Plan, Bundle, Includes, Forward, Restored, FreshPlan, FreshTree, ParentsThere, WellFormed, Uncovering,
         EmptyDir;
    var i := KindIndex(device, l, k);
    BundleHolds(device, l, manifest, k);
    AttemptIs(device, l, manifest, l, attempts, i);
    var m := LastCovering(attempts, i, p);
    AttemptIs(device, l, manifest, l, attempts, m);
    var d := attempts[m].comp.dest;
    assert d + p[|d|..] == p;
    ComponentRestored(device, l, manifest, t, l, attempts, ts, m, p[|d|..]);
  }

  lemma KindIndex(device: Tree, l: Layout, k: Kind) returns (i: nat)
    requires Includes(device, l, k)
    ensures i < |Kinds(l)| && Kinds(l)[i] == k
  {
    i := match k case Data => 0 case Hooks => 1 case Secrets => 2 case SessionDb => 3;
  }

  // ---- the whole round trip ----

  // Distinct places, none of them the root or named like a path moved aside.
  predicate GoodLayout(l: Layout, ts: string) {
    && (forall k :: PathOf(l, k).Some? ==> PathOf(l, k).value != [] && Unmarked(PathOf(l, k).value, ts))
    && forall j, k :: j != k && PathOf(l, j).Some? ==> PathOf(l, j) != PathOf(l, k)
  }

  // The file system lets every step of the restore succeed.
  predicate AllGoesWell(attempts: seq<Attempt>) {
    forall i :: 0 <= i < |attempts| ==> attempts[i].asideOk && attempts[i].placeOk && attempts[i].partial == None
  }

  lemma SubUnmarked(t: Tree, d: Path, ts: string)
    requires AllUnmarked(t, ts)
    ensures AllUnmarked(Sub(t, d), ts)
  {
    forall q | q in Sub(t, d)
      ensures Unmarked(q, ts)
    {
      forall i | 0 <= i < |q|
        ensures !EndsWith(q[i], AsideSuffix(ts))
      {
        assert (d + q)[|d| + i] == q[i];
      }
    }
  }

  lemma IncludedKind(device: Tree, l: Layout, k: Kind)
    requires WellFormed(device) && Includes(device, l, k)
    ensures PathOf(l, k).value in device && Subtree(Sub(device, PathOf(l, k).value))
    ensures if IsFileKind(k) then IsFile(Sub(device, PathOf(l, k).value), [])
            else IsDir(Sub(device, PathOf(l, k).value), [])
  {
    hide WellFormed;
    assert PathOf(l, k).value + [] == PathOf(l, k).value;
    SubIsSubtree(device, PathOf(l, k).value);
  }

  lemma KindsDiffer(l: Layout, i: nat, j: nat)
    requires i < j < |Kinds(l)|
    ensures Kinds(l)[i] != Kinds(l)[j]
  {
  }

  lemma PlanIsFresh(device: Tree, l: Layout, manifest: string, attempts: seq<Attempt>, ts: string)
    requires WellFormed(device) && AllUnmarked(device, ts) && GoodLayout(l, ts) && AllGoesWell(attempts)
    requires Carries(attempts, Plan(Bundle(device, l, manifest), l))
    ensures FreshPlan(attempts, ts)
    ensures forall i :: 0 <= i < |attempts| ==> KindFits(attempts[i].comp)
  {
    hide WellFormed, Plan, Bundle, Kinds, Includes, Unmarked, AllUnmarked, Sub, Carries, Subtree, IsFile, IsDir;
    forall i | 0 <= i < |attempts|
      ensures FreshAttempt(attempts[i], ts) && KindFits(attempts[i].comp)
    {
      AttemptIs(device, l, manifest, l, attempts, i);
      if attempts[i].comp.source.Some? {
        IncludedKind(device, l, Kinds(l)[i]);
        SubUnmarked(device, attempts[i].comp.dest, ts);
      }
    }
    forall i, j | 0 <= i < j < |attempts|
      ensures attempts[i].comp.dest != attempts[j].comp.dest
    {
      AttemptIs(device, l, manifest, l, attempts, i);
      AttemptIs(device, l, manifest, l, attempts, j);
      KindsDiffer(l, i, j);
    }
  }

  // Backing up and restoring where the destinations' parents exist: it succeeds, everything
  // captured is back, and so is the session database wherever it is kept.
  lemma BackupThenRestore(device: Tree, l: Layout, manifest: string, t: Tree, attempts: seq<Attempt>, ts: string)
    requires WellFormed(device) && AllUnmarked(device, ts) && GoodLayout(l, ts) && FreshTree(t, ts)
    requires Carries(attempts, Plan(Bundle(device, l, manifest), l)) && AllGoesWell(attempts)
    requires ParentsThere(t, attempts, ts)
    ensures Forward(t, attempts, ts).failed.None?
    ensures forall k, p :: Includes(device, l, k) && PathOf(l, k).value <= p && p in device ==>
                             At(Restored(t, attempts, ts), p) == At(device, p)
    ensures l.sessionDb.Some? && IsFile(device, l.sessionDb.value) && l.sessionDb.value != l.dataDir ==>
              At(Restored(t, attempts, ts), l.sessionDb.value) == At(device, l.sessionDb.value)
  {
    hide Plan, Bundle, Includes, Forward, Restored, FreshPlan, FreshTree, ParentsThere, WellFormed, AllUnmarked,
         GoodLayout, Ongoing, KindFits, Carries;
    PlanIsFresh(device, l, manifest, attempts, ts);
    Begin(t, attempts, ts);
    GoodRunSucceeds(t, attempts, ts, {});
    forall k, p | Includes(device, l, k) && PathOf(l, k).Some? && PathOf(l, k).value <= p && p in device
      ensures At(Restored(t, attempts, ts), p) == At(device, p)
    {
      RoundTrip(device, l, manifest, t, attempts, ts, k, p);
    }
    assert forall k :: Includes(device, l, k) ==> PathOf(l, k).Some? by { IncludedHavePaths(device, l); }
    if l.sessionDb.Some? && IsFile(device, l.sessionDb.value) && l.sessionDb.value != l.dataDir {
      SessionCaptured(device, l);
      assert PathOf(l, SessionDb).value <= l.sessionDb.value && PathOf(l, Data).value == l.dataDir;
    }
  }

  // So every file the device keeps at or below its data and hooks directories, its secrets file
  // and its session database are back.
  lemma DeviceRestored(device: Tree, l: Layout, manifest: string, t: Tree, attempts: seq<Attempt>, ts: string, p: Path)
    requires WellFormed(device) && AllUnmarked(device, ts) && GoodLayout(l, ts) && FreshTree(t, ts)
    requires Carries(attempts, Plan(Bundle(device, l, manifest), l)) && AllGoesWell(attempts)
    requires ParentsThere(t, attempts, ts)
    requires || (IsDir(device, l.dataDir) && l.dataDir <= p) || (IsDir(device, l.hooksDir) && l.hooksDir <= p)
             || (IsFile(device, l.secretsFile) && l.secretsFile == p)
             || (l.sessionDb == Some(p) && IsFile(device, p) && p != l.dataDir)
    requires p in device
    ensures Forward(t, attempts, ts).failed.None? && At(Restored(t, attempts, ts), p) == At(device, p)
  {
    hide Plan, Bundle, Forward, Restored, ParentsThere, WellFormed, AllUnmarked, GoodLayout, FreshTree, Carries;
    BackupThenRestore(device, l, manifest, t, attempts, ts);
    assert Includes(device, l, Data) <==> IsDir(device, l.dataDir);
    assert Includes(device, l, Hooks) <==> IsDir(device, l.hooksDir);
    assert Includes(device, l, Secrets) <==> IsFile(device, l.secretsFile);
    assert PathOf(l, Data).value == l.dataDir && PathOf(l, Hooks).value == l.hooksDir;
    assert PathOf(l, Secrets).value == l.secretsFile;
  }

  lemma IncludedHavePaths(device: Tree, l: Layout)
    ensures forall k :: Includes(device, l, k) ==> PathOf(l, k).Some?
  {
  }

  // No two places lie one inside the other.
  predicate Apart(l: Layout) {
    forall j, k :: j != k && PathOf(l, j).Some? && PathOf(l, k).Some? ==>
      !Comparable(PathOf(l, j).value, PathOf(l, k).value)
  }

  // With places apart, what is restored is exactly what was captured, and nothing else.
  lemma ExactRoundTrip(device: Tree, l: Layout, manifest: string, t: Tree, attempts: seq<Attempt>, ts: string,
                       k: Kind, p: Path)
    requires WellFormed(device) && FreshTree(t, ts) && FreshPlan(attempts, ts) && Apart(l)
    requires Carries(attempts, Plan(Bundle(device, l, manifest), l)) && Forward(t, attempts, ts).failed.None?
    requires Includes(device, l, k) && PathOf(l, k).value <= p
    requires ParentsThere(t, attempts, ts) || !EmptyDir(device, PathOf(l, k).value)
    ensures At(Restored(t, attempts, ts), p) == At(device, p)
  {
    hide Plan, Bundle, Kinds, Forward, FreshPlan, FreshTree, ParentsThere, WellFormed, EmptyDir, Ongoing, Sub,
         Comparable;
    var i := KindIndex(device, l, k);
    BundleHolds(device, l, manifest, k);
    AttemptIs(device, l, manifest, l, attempts, i);
    Begin(t, attempts, ts);
    var d := attempts[i].comp.dest;
    forall j | i + 1 <= j < |attempts| && attempts[j].comp.source.Some?
      ensures !Comparable(attempts[j].comp.dest, d)
    {
      AttemptIs(device, l, manifest, l, attempts, j);
      KindsDiffer(l, i, j);
    }
    if Sub(device, d) == EMPTY_DIR {
      SubEmpty(device, d);
    }
    DestinationIsExact(t, attempts, ts, {}, i, p);
    assert d + p[|d|..] == p;
  }

  // ---- bundles without a manifest ----

  // Restoring one takes the whole bundle as the data: on success the data directory holds
  // exactly the bundle, and nothing else is placed.
  lemma PlainBundleRestored(bundle: Tree, t: Tree, l: Layout, attempts: seq<Attempt>, ts: string, q: Path)
    requires !IsFile(bundle, [MANIFEST]) && Carries(attempts, Plan(bundle, l))
    requires FreshTree(t, ts) && FreshPlan(attempts, ts) && Forward(t, attempts, ts).failed.None?
    requires ParentsThere(t, attempts, ts) || bundle != EMPTY_DIR
    ensures At(Restored(t, attempts, ts), l.dataDir + q) == At(bundle, q)
    ensures |attempts| == 1 && |Forward(t, attempts, ts).placed| == 1
  {
    hide FreshPlan, FreshTree, ParentsThere, Ongoing, Attempted;
    Begin(t, attempts, ts);
    assert attempts[0].comp == Component("data", Some(bundle), l.dataDir, false);
    assert l.dataDir <= l.dataDir + q && (l.dataDir + q)[|l.dataDir|..] == q;
    assert attempts[1..] == [];
    DestinationIsExact(t, attempts, ts, {}, 0, l.dataDir + q);
  }
}
