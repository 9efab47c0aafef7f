/**
 Restoring a bundle: each component's destination is moved aside and replaced, and when one
 placement fails the earlier ones are undone in reverse order.
 */
module Restore {
  import opened Options
  import opened FileTree

  // A component: what the bundle holds for it, and where it goes.
  datatype Component = Component(name: string, source: Option<Tree>, dest: Path, isFile: bool)

  // A component, and what the file system lets happen to it: whether the move aside and the
  // copy succeed, and what a failed copy leaves at the destination.
  datatype Attempt = Attempt(comp: Component, asideOk: bool, placeOk: bool, partial: Option<Tree>)

  datatype Placed = Placed(dest: Path, aside: Option<Path>)

  function AsideSuffix(ts: string): string {
    ".pre-restore-" + ts
  }

  // A sibling of the destination.
  function AsidePath(dest: Path, ts: string): Path {
    if dest == [] then [AsideSuffix(ts)] else dest[..|dest| - 1] + [dest[|dest| - 1] + AsideSuffix(ts)]
  }

  lemma AsideBeside(parent: Path, name: string, ts: string)
    ensures AsidePath(parent + [name], ts) == parent + [name + ".pre-restore-" + ts]
  {
    assert name + ".pre-restore-" + ts == name + (".pre-restore-" + ts);
  }

  // ---- placing one component ----

  const EMPTY_DIR: Tree := map[[] := Dir]

  // Whether a copy that meets no failure succeeds, where nothing is at the destination.
  predicate Placeable(t: Tree, c: Component)
    requires c.source.Some?
  {
    if c.isFile then IsFile(c.source.value, []) && ParentIsDir(t, c.dest)
    else IsDir(c.source.value, []) && (!Blocked(t, c.dest) || c.source.value == EMPTY_DIR)
  }

  function WithDirs(t: Tree, c: Component): Tree {
    if c.isFile || Blocked(t, c.dest) then t else Extended(t, Missing(t, c.dest))
  }

  function PlacedTree(t: Tree, c: Component): Tree
    requires c.source.Some?
  {
    if !c.isFile && Blocked(t, c.dest) then t else Graft(WithDirs(t, c), c.dest, c.source.value)
  }

  // What a failed copy can leave: part of a directory, or part of a file.
  predicate CanLeave(t: Tree, c: Component, s: Tree) {
    Subtree(s) && if c.isFile then IsFile(s, []) && ParentIsDir(t, c.dest) else IsDir(s, []) && !Blocked(t, c.dest)
  }

  function Leftover(t: Tree, c: Component, partial: Option<Tree>): Tree {
    if partial.Some? && CanLeave(t, c, partial.value) then Graft(WithDirs(t, c), c.dest, partial.value) else t
  }

  // Removes what was placed and moves the original back.
  function Undone(t: Tree, p: Placed): Tree {
    var cleared := Removed(t, p.dest);
    match p.aside
    case None => cleared
    case Some(a) =>
      match Renamed(cleared, a, p.dest)
      case None => cleared
      case Some(back) => back
  }

  // The tree with the destination moved aside, when there is one and the move succeeds.
  function MovedAside(t: Tree, a: Attempt, ts: string): Option<Tree> {
    if a.comp.dest !in t then Some(t)
    else if a.asideOk then Renamed(t, a.comp.dest, AsidePath(a.comp.dest, ts))
    else None
  }

  function Handle(t: Tree, a: Attempt, ts: string): Placed {
    Placed(a.comp.dest, if a.comp.dest in t then Some(AsidePath(a.comp.dest, ts)) else None)
  }

  function Attempted(t: Tree, a: Attempt, ts: string): (Tree, Option<Placed>)
    requires a.comp.source.Some?
  {
    match MovedAside(t, a, ts)
    case None => (t, None)
    case Some(moved) =>
      var handle := Handle(t, a, ts);
      if a.placeOk && Placeable(moved, a.comp) then (PlacedTree(moved, a.comp), Some(handle))
      else
        var left := Leftover(moved, a.comp, a.partial);
        (if handle.aside.Some? then Undone(left, handle) else left, None)
  }

  // ---- placing them all ----

  datatype Failure = Failure(dest: Path, before: Tree)

  datatype Outcome = Outcome(tree: Tree, placed: seq<Placed>, failed: Option<Failure>)

  // Components are placed in order up to the first failure; those not in the bundle are skipped.
  function Forward(t: Tree, attempts: seq<Attempt>, ts: string): Outcome
    decreases |attempts|
  {
    if attempts == [] then Outcome(t, [], None)
    else if attempts[0].comp.source.None? then Forward(t, attempts[1..], ts)
    else
      var (next, placed) := Attempted(t, attempts[0], ts);
      match placed
      case None => Outcome(next, [], Some(Failure(attempts[0].comp.dest, t)))
      case Some(p) =>
        var rest := Forward(next, attempts[1..], ts);
        Outcome(rest.tree, [p] + rest.placed, rest.failed)
  }

  // Undoing in reverse order.
  function UndoneAll(t: Tree, placed: seq<Placed>): Tree {
    if placed == [] then t else Undone(UndoneAll(t, placed[1..]), placed[0])
  }

  function Restored(t: Tree, attempts: seq<Attempt>, ts: string): Tree {
    var o := Forward(t, attempts, ts);
    if o.failed.None? then o.tree else UndoneAll(o.tree, o.placed)
  }

  // ---- assumptions ----

  predicate EndsWith(s: string, suffix: string) {
    |s| >= |suffix| && s[|s| - |suffix|..] == suffix
  }

  // No part of the path carries this restore's aside suffix.
  predicate Unmarked(p: Path, ts: string) {
    forall i :: 0 <= i < |p| ==> !EndsWith(p[i], AsideSuffix(ts))
  }

  predicate AllUnmarked(t: Tree, ts: string) {
    forall p :: p in t ==> Unmarked(p, ts)
  }

  // A bundle of proper subtrees for distinct destinations, and no name in it that a move
  // aside of this restore could produce.
  predicate FreshPlan(attempts: seq<Attempt>, ts: string) {
    && (forall i :: 0 <= i < |attempts| ==> FreshAttempt(attempts[i], ts))
    && forall i, j :: 0 <= i < j < |attempts| ==> attempts[i].comp.dest != attempts[j].comp.dest
  }

  predicate FreshAttempt(a: Attempt, ts: string) {
    && a.comp.dest != [] && Unmarked(a.comp.dest, ts)
    && (a.comp.source.Some? ==> Subtree(a.comp.source.value) && AllUnmarked(a.comp.source.value, ts))
    && (a.partial.Some? ==> AllUnmarked(a.partial.value, ts))
  }

  predicate FreshTree(t: Tree, ts: string) {
    WellFormed(t) && AllUnmarked(t, ts)
  }
}
