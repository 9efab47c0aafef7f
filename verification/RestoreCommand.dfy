/** The restore itself, on a file system it changes in place. */
module RestoreCommand {
  import opened Options
  import opened FileTree
  import opened Restore
  import opened RestoreSafety

  predicate Proper(a: Attempt) {
    a.comp.source.Some? ==> Subtree(a.comp.source.value)
  }

  // Copies the component to a free destination.
  method Place(fs: FileSystem, c: Component)
    requires WellFormed(fs.tree) && c.dest !in fs.tree && c.source.Some? && Subtree(c.source.value)
    requires Placeable(fs.tree, c)
    modifies fs
    ensures fs.tree == PlacedTree(old(fs.tree), c)
  {
    hide Graft, Extended, Missing, WellFormed, Subtree, Ready, Blocked, ParentIsDir, Sub;
    var source := c.source.value;
    if c.isFile {
      FileGrafted(fs.tree, c.dest, source);
      fs.tree := fs.tree[c.dest := source[[]]];
    } else {
      ghost var before := fs.tree;
      var created := fs.CreateDirs(c.dest);
      if created {
        CreatedIsReady(before, c.dest);
        SubtreeIsTree(source);
        SubtreeOfRoot(source);
        var _ := fs.CopyDirRecursive(source, [], c.dest, map[]);
      }
    }
  }

  // A copy that stops is the tree around it with a subtree of known names grafted in.
  lemma PartIsGrafted(t: Tree, u: Tree, source: Tree, d: Path)
    requires PartCopied(t, u, source, [], d)
    ensures u == Graft(t, d, Sub(u, d))
  {
    hide Sub, Graft;
    forall p
      ensures At(Graft(t, d, Sub(u, d)), p) == At(u, p)
    {
      assert d <= p ==> d + p[|d|..] == p;
    }
    TreesEqual(Graft(t, d, Sub(u, d)), u);
  }

  lemma PartIsSubtree(t: Tree, u: Tree, source: Tree, d: Path)
    requires PartCopied(t, u, source, [], d)
    ensures IsDir(Sub(u, d), []) && Subtree(Sub(u, d))
    ensures forall q :: q in Sub(u, d) && q != [] ==> q in source
  {
    hide Sub;
    assert d + [] == d;
    forall q | q in Sub(u, d) && q != []
      ensures IsDir(Sub(u, d), q[..|q| - 1]) && q in source
    {
      var p := d + q;
      assert p in u && d <= p && p != d;
      assert p[..|p| - 1] == d + q[..|q| - 1] && p[|d|..] == q && [] + q == q;
    }
  }

  // Whatever path of the source fails, a directory copy that stops leaves what an attempt's
  // `partial` may be, and with names of the source only.
  lemma FailedCopyLeaves(t: Tree, c: Component, u: Tree, ts: string)
    requires !c.isFile && c.source.Some? && !Blocked(t, c.dest)
    requires PartCopied(WithDirs(t, c), u, c.source.value, [], c.dest)
    ensures CanLeave(t, c, Sub(u, c.dest)) && u == Leftover(t, c, Some(Sub(u, c.dest)))
    ensures AllUnmarked(c.source.value, ts) ==> AllUnmarked(Sub(u, c.dest), ts)
  {
    hide Blocked, WithDirs, PartCopied, Subtree, Sub, Graft;
    PartIsGrafted(WithDirs(t, c), u, c.source.value, c.dest);
    PartIsSubtree(WithDirs(t, c), u, c.source.value, c.dest);
  }

  method MoveAsideAndPlace(fs: FileSystem, a: Attempt, ts: string) returns (r: Option<Placed>)
    requires WellFormed(fs.tree) && a.comp.source.Some? && Proper(a)
    modifies fs
    ensures (fs.tree, r) == Attempted(old(fs.tree), a, ts)
    ensures r.Some? ==> WellFormed(fs.tree)
  {
    hide WellFormed, Placeable, PlacedTree, Leftover, Subtree, Removed, Moved, AsidePath, MayRename;
    ghost var before := fs.tree;
    if Attempted(before, a, ts).1.Some? {
      AttemptedWellFormed(before, a, ts);
    }
    var dest := a.comp.dest;
    var aside: Option<Path> := None;
    if dest in fs.tree {
      if !a.asideOk {
        return None;
      }
      RootIsDir(before);
      var moved := fs.Rename(dest, AsidePath(dest, ts));
      if !moved {
        return None;
      }
      aside := Some(AsidePath(dest, ts));
      MovedAway(before, dest, AsidePath(dest, ts), ts);
    }
    if a.placeOk && Placeable(fs.tree, a.comp) {
      Place(fs, a.comp);
      return Some(Placed(dest, aside));
    }
    fs.tree := Leftover(fs.tree, a.comp, a.partial);
    if aside.Some? {
      fs.RemoveAny(dest);
      var _ := fs.Rename(aside.value, dest);
    }
    r := None;
  }

  lemma MovedAway(t: Tree, d: Path, aside: Path, ts: string)
    requires WellFormed(t) && d in t && aside == AsidePath(d, ts) && Renamed(t, d, aside).Some?
    ensures d !in Renamed(t, d, aside).value && WellFormed(Renamed(t, d, aside).value)
  {
    hide WellFormed, Moved, AsidePath;
    AsideElsewhere(d, ts);
    MovedParents(t, d, aside, d);
    MovedWellFormed(t, d, aside);
  }

  method RollBack(fs: FileSystem, p: Placed)
    modifies fs
    ensures fs.tree == Undone(old(fs.tree), p)
  {
    fs.RemoveAny(p.dest);
    if p.aside.Some? {
      var _ := fs.Rename(p.aside.value, p.dest);
    }
  }

  // Places every component of the plan, or undoes what was placed and reports a failure.
  method RestoreAll(fs: FileSystem, attempts: seq<Attempt>, ts: string) returns (code: nat)
    requires WellFormed(fs.tree) && forall i :: 0 <= i < |attempts| ==> Proper(attempts[i])
    modifies fs
    ensures fs.tree == Restored(old(fs.tree), attempts, ts)
    ensures code == if Forward(old(fs.tree), attempts, ts).failed.None? then 0 else 1
  {
    hide WellFormed, Attempted, Undone, Proper;
    ghost var whole := Forward(fs.tree, attempts, ts);
    var placed: seq<Placed> := [];
    for i := 0 to |attempts|
      invariant WellFormed(fs.tree)
      invariant var rest := Forward(fs.tree, attempts[i..], ts);
                whole.tree == rest.tree && whole.failed == rest.failed && whole.placed == placed + rest.placed
    {
      assert attempts[i..][0] == attempts[i] && attempts[i..][1..] == attempts[i + 1..];
      if attempts[i].comp.source.None? {
        continue;
      }
      var r := MoveAsideAndPlace(fs, attempts[i], ts);
      if r.Some? {
        placed := placed + [r.value];
      } else {
        var k := |placed|;
        while k > 0
          invariant 0 <= k <= |placed|
          invariant fs.tree == UndoneAll(whole.tree, placed[k..])
        {
          k := k - 1;
          assert placed[k..][0] == placed[k] && placed[k..][1..] == placed[k + 1..];
          RollBack(fs, placed[k]);
        }
        assert placed[0..] == placed && placed + [] == placed;
        return 1;
      }
    }
    code := 0;
  }
}
