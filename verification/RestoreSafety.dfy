/** What a restore keeps, for every plan, every failure and every nesting of destinations. */
module RestoreSafety {
  import opened Options
  import opened FileTree
  import opened Restore

  // ---- aside paths are new ----

  lemma AsideShape(d: Path, ts: string)
    requires d != []
    ensures |AsidePath(d, ts)| == |d| && AsidePath(d, ts)[..|d| - 1] == d[..|d| - 1]
    ensures EndsWith(AsidePath(d, ts)[|d| - 1], AsideSuffix(ts))
    ensures AsidePath(d, ts)[|d| - 1] == d[|d| - 1] + AsideSuffix(ts)
  {
    var m := AsideSuffix(ts);
    assert (d[|d| - 1] + m)[|d[|d| - 1] + m| - |m|..] == m;
  }

  lemma AsideMarks(d: Path, ts: string, p: Path)
    requires d != [] && AsidePath(d, ts) <= p
    ensures !Unmarked(p, ts)
  {
    AsideShape(d, ts);
    assert p[|d| - 1] == AsidePath(d, ts)[|d| - 1];
  }

  lemma AsideApart(d: Path, e: Path, p: Path, ts: string)
    requires d != [] && e != [] && Unmarked(d, ts) && Unmarked(e, ts)
    requires AsidePath(d, ts) <= p && AsidePath(e, ts) <= p
    ensures d == e
  {
    hide EndsWith, AsideSuffix;
    AsideShape(d, ts);
    AsideShape(e, ts);
    var a, b := AsidePath(d, ts), AsidePath(e, ts);
    assert a[|d| - 1] == p[|d| - 1] && b[|e| - 1] == p[|e| - 1];
    assert forall i :: 0 <= i < |e| - 1 ==> p[i] == b[..|e| - 1][i] == e[i];
    assert forall i :: 0 <= i < |d| - 1 ==> p[i] == a[..|d| - 1][i] == d[i];
    assert |d| == |e|;
    assert a == p[..|d|] == b;
    SameStem(d[|d| - 1], e[|e| - 1], AsideSuffix(ts));
    assert d == d[..|d| - 1] + [d[|d| - 1]] && e == e[..|e| - 1] + [e[|e| - 1]];
  }

  lemma SameStem(x: string, y: string, m: string)
    requires x + m == y + m
    ensures x == y
  {
    assert |x| == |y|;
    assert x == (x + m)[..|x|] && y == (y + m)[..|y|];
  }

  lemma AsideSibling(d: Path, ts: string)
    requires d != []
    ensures !(d <= AsidePath(d, ts)) && !(AsidePath(d, ts) <= d)
  {
    AsideShape(d, ts);
    assert |AsideSuffix(ts)| > 0;
    assert d[|d| - 1] != AsidePath(d, ts)[|d| - 1];
  }

  // Every marked path of the tree lies at the aside of an earlier destination.
  predicate Tagged(t: Tree, done: set<Path>, ts: string) {
    forall p :: p in t ==> Unmarked(p, ts) || exists d :: d in done && AsidePath(d, ts) <= p
  }

  predicate Destinations(done: set<Path>, ts: string) {
    forall d :: d in done ==> d != [] && Unmarked(d, ts)
  }

  predicate NothingAt(t: Tree, d: Path) {
    forall p :: p in t ==> !(d <= p)
  }

  lemma AsideIsFresh(t: Tree, done: set<Path>, d: Path, ts: string)
    requires Tagged(t, done, ts) && Destinations(done, ts) && d != [] && Unmarked(d, ts) && d !in done
    ensures NothingAt(t, AsidePath(d, ts))
  {
    hide Unmarked, AsidePath;
    forall p | p in t
      ensures !(AsidePath(d, ts) <= p)
    {
      if AsidePath(d, ts) <= p {
        AsideMarks(d, ts, p);
        var e :| e in done && AsidePath(e, ts) <= p;
        AsideApart(d, e, p, ts);
      }
    }
  }

  // ---- one step, path by path ----

  // A tree in which a component can be attempted: its aside path is free.
  predicate Ripe(t: Tree, a: Attempt, ts: string) {
    WellFormed(t) && a.comp.source.Some? && FreshAttempt(a, ts) && NothingAt(t, AsidePath(a.comp.dest, ts))
  }

  // The ancestors that placing a directory creates.
  function NewDirs(t: Tree, c: Component): (n: Tree)
    ensures forall p :: p in n ==> p !in t && p <= c.dest && p != c.dest && n[p] == Dir
  {
    if c.dest in t then map[] else Removed(Missed(t, c), c.dest)
  }

  function Missed(t: Tree, c: Component): (n: Tree)
    ensures forall p :: p in n ==> p !in t && p <= c.dest && n[p] == Dir
    ensures WithDirs(t, c) == Extended(t, n)
  {
    assert forall p :: p in Missing(t, c.dest) ==> At(Missing(t, c.dest), p) == Some(Dir);
    if c.isFile || Blocked(t, c.dest) then NoExtras(t); map[] else Missing(t, c.dest)
  }

  lemma NoExtras(t: Tree)
    ensures Extended(t, map[]) == t
  {
    TreesEqual(Extended(t, map[]), t);
  }

  // The trees a successful step goes through.
  lemma StepParts(t: Tree, a: Attempt, ts: string)
    requires Ripe(t, a, ts) && Attempted(t, a, ts).1.Some?
    ensures var d, aside := a.comp.dest, AsidePath(a.comp.dest, ts);
            && Attempted(t, a, ts).1.value == Handle(t, a, ts)
            && (d in t ==> MayRename(t, d, aside)
                           && Placeable(Moved(t, d, aside), a.comp)
                           && Attempted(t, a, ts).0 == PlacedTree(Moved(t, d, aside), a.comp))
            && (d !in t ==> Placeable(t, a.comp) && Attempted(t, a, ts).0 == PlacedTree(t, a.comp))
  {
    hide Placeable, PlacedTree, Leftover, AsidePath, WellFormed, MayRename, Moved;
    AsideSibling(a.comp.dest, ts);
  }

  // After the move aside the destination is free and its ancestors are still directories.
  lemma MovedParents(t: Tree, d: Path, aside: Path, q: Path)
    requires WellFormed(t) && d in t && MayRename(t, d, aside) && q <= d
    ensures q == d ==> q !in Moved(t, d, aside)
    ensures q != d ==> IsDir(Moved(t, d, aside), q)
  {
    hide Moved, WellFormed;
    var m := Moved(t, d, aside);
    AncestorsExist(t, d, q);
    PrefixOrder(aside, q, d);
    PrefixOrder(d, q, d);
    assert At(m, q) == if d <= q then None else At(t, q);
  }

  // No directory can be made at the destination, so an empty one is placed nowhere.
  predicate Placeless(t: Tree, c: Component) {
    c.dest !in t && !c.isFile && Blocked(t, c.dest)
  }

  lemma NotBlockedAfterMove(t: Tree, d: Path, aside: Path)
    requires WellFormed(t) && d in t && MayRename(t, d, aside)
    ensures !Blocked(Moved(t, d, aside), d)
    ensures forall p :: At(Missing(Moved(t, d, aside), d), p) == if p == d then Some(Dir) else None
  {
    hide Moved, WellFormed, MayRename;
    forall q | q in Prefixes(d)
      ensures !IsFile(Moved(t, d, aside), q)
      ensures q in Moved(t, d, aside) <==> q != d
    {
      MovedParents(t, d, aside, q);
    }
  }

  lemma PlacedAfterMove(t: Tree, c: Component, aside: Path, p: Path)
    requires WellFormed(t) && c.dest in t && MayRename(t, c.dest, aside) && c.source.Some?
    ensures At(PlacedTree(Moved(t, c.dest, aside), c), p)
         == if c.dest <= p then At(c.source.value, p[|c.dest|..]) else At(Moved(t, c.dest, aside), p)
  {
    hide Moved, Graft, Extended, Missing, MayRename, WellFormed, Blocked;
    NotBlockedAfterMove(t, c.dest, aside);
  }

  lemma PlacedWhereFree(t: Tree, c: Component, p: Path)
    requires WellFormed(t) && c.dest !in t && c.source.Some?
    ensures At(PlacedTree(t, c), p)
         == if c.dest <= p then (if Placeless(t, c) then None else At(c.source.value, p[|c.dest|..]))
            else if p in t then At(t, p) else At(NewDirs(t, c), p)
  {
    hide Graft, Extended, Missing, WellFormed, Blocked;
    NothingBelow(t, c.dest);
  }

  // Where every path of the next tree comes from.
  function Origin(t: Tree, a: Attempt, ts: string, p: Path): Option<Node>
    requires a.comp.source.Some?
  {
    var d, aside := a.comp.dest, AsidePath(a.comp.dest, ts);
    if d <= p then (if Placeless(t, a.comp) then None else At(a.comp.source.value, p[|d|..]))
    else if d in t && aside <= p then At(t, d + p[|aside|..])
    else if p in t then At(t, p)
    else At(NewDirs(t, a.comp), p)
  }

  lemma StepAt(t: Tree, a: Attempt, ts: string, p: Path)
    requires Ripe(t, a, ts) && Attempted(t, a, ts).1.Some?
    ensures At(Attempted(t, a, ts).0, p) == Origin(t, a, ts, p)
  {
    hide PlacedTree, Moved, Attempted, AsidePath, WellFormed, MayRename, Placeable, FreshAttempt;
    StepParts(t, a, ts);
    var d, aside := a.comp.dest, AsidePath(a.comp.dest, ts);
    if d in t {
      PlacedAfterMove(t, a.comp, aside, p);
      assert At(NewDirs(t, a.comp), p) == None;
    } else {
      PlacedWhereFree(t, a.comp, p);
    }
  }

  // The step keeps the tree well formed, whether or not the aside path was free.
  lemma PlacedWellFormed(t: Tree, c: Component)
    requires WellFormed(t) && c.dest != [] && c.source.Some? && Subtree(c.source.value) && Placeable(t, c)
    ensures WellFormed(PlacedTree(t, c))
  {
    hide Graft, Extended, Missing, WellFormed;
    if c.isFile {
      GraftWellFormed(t, c.dest, c.source.value);
    } else if !Blocked(t, c.dest) {
      DirsWellFormed(t, c.dest);
      var made := WithDirs(t, c);
      AncestorsExist(made, c.dest, c.dest[..|c.dest| - 1]);
      GraftWellFormed(made, c.dest, c.source.value);
    }
  }

  lemma AttemptedWellFormed(t: Tree, a: Attempt, ts: string)
    requires WellFormed(t) && a.comp.source.Some? && Subtree(a.comp.source.value)
    requires Attempted(t, a, ts).1.Some?
    ensures WellFormed(Attempted(t, a, ts).0) && a.comp.dest != []
  {
    hide PlacedTree, Leftover, AsidePath, WellFormed, Moved, Placeable, Undone;
    RootIsDir(t);
    var d, aside := a.comp.dest, AsidePath(a.comp.dest, ts);
    if d in t {
      AsideElsewhere(d, ts);
      MovedWellFormed(t, d, aside);
      assert d != [] by { assert [] <= aside; }
    }
    PlacedWellFormed(MovedAside(t, a, ts).value, a.comp);
  }

  lemma RootIsDir(t: Tree)
    requires WellFormed(t)
    ensures [] in t
  {
  }

  lemma AsideElsewhere(d: Path, ts: string)
    ensures AsidePath(d, ts) != d
  {
    if d != [] {
      AsideSibling(d, ts);
      PrefixOrder(d, AsidePath(d, ts), d);
    }
  }

  lemma UnmarkedConcat(p: Path, q: Path, ts: string)
    requires Unmarked(p, ts) && Unmarked(q, ts)
    ensures Unmarked(p + q, ts)
  {
  }

  lemma UnmarkedPrefix(p: Path, q: Path, ts: string)
    requires Unmarked(p, ts) && q <= p
    ensures Unmarked(q, ts)
  {
  }

  // After the step the only new marked paths are at its own aside.
  lemma StepTagged(t: Tree, a: Attempt, ts: string, done: set<Path>)
    requires Ripe(t, a, ts) && Attempted(t, a, ts).1.Some? && Tagged(t, done, ts)
    ensures Tagged(Attempted(t, a, ts).0, done + {a.comp.dest}, ts)
  {
    hide Attempted, AsidePath, WellFormed, Unmarked;
    var next, d := Attempted(t, a, ts).0, a.comp.dest;
    forall p | p in next
      ensures Unmarked(p, ts) || exists e :: e in done + {d} && AsidePath(e, ts) <= p
    {
      StepAt(t, a, ts, p);
      if d <= p {
        UnmarkedConcat(d, p[|d|..], ts);
        assert d + p[|d|..] == p;
      } else if d in t && AsidePath(d, ts) <= p {
        assert d in done + {d};
      } else if p !in t {
        UnmarkedPrefix(d, p, ts);
      }
    }
  }

  // ---- undoing one step ----

  // The tree after a step is undone, when there is more in it than the step left: the tree
  // before, what else there was outside the destination, and the ancestors the step created.
  function Reverted(t: Tree, c: Component, x: Tree): Tree {
    Extended(t, Extended(NewDirs(t, c), Removed(x, c.dest)))
  }

  lemma UndoStep(t: Tree, a: Attempt, ts: string, x: Tree)
    requires Ripe(t, a, ts) && Attempted(t, a, ts).1.Some?
    requires NothingAt(x, AsidePath(a.comp.dest, ts))
    ensures Undone(Extended(Attempted(t, a, ts).0, x), Attempted(t, a, ts).1.value) == Reverted(t, a.comp, x)
  {
    hide Attempted, AsidePath, WellFormed, Placeless, Reverted, Extended, Removed, Moved, NothingAt,
         PlacedTree, Placeable, MayRename;
    StepParts(t, a, ts);
    if a.comp.dest in t {
      BackMayMove(t, a, ts, x);
      UndoMoved(t, a, ts, x);
      AsideSibling(a.comp.dest, ts);
    } else {
      UndoCreated(t, a, ts, x);
    }
  }

  lemma UndoMoved(t: Tree, a: Attempt, ts: string, x: Tree)
    requires Ripe(t, a, ts) && Attempted(t, a, ts).1.Some? && a.comp.dest in t
    requires NothingAt(x, AsidePath(a.comp.dest, ts))
    ensures Moved(Removed(Extended(Attempted(t, a, ts).0, x), a.comp.dest), AsidePath(a.comp.dest, ts), a.comp.dest)
         == Reverted(t, a.comp, x)
  {
    hide Moved, Removed, Extended, Attempted, AsidePath, Reverted, At, NothingAt, WellFormed, FreshAttempt;
    var removed := Removed(Extended(Attempted(t, a, ts).0, x), a.comp.dest);
    var moved := Moved(removed, AsidePath(a.comp.dest, ts), a.comp.dest);
    forall p
      ensures At(moved, p) == At(Reverted(t, a.comp, x), p)
    {
      UndoneAt(t, a, ts, x, p);
    }
    TreesEqual(moved, Reverted(t, a.comp, x));
  }

  lemma UndoCreated(t: Tree, a: Attempt, ts: string, x: Tree)
    requires Ripe(t, a, ts) && Attempted(t, a, ts).1.Some? && a.comp.dest !in t
    ensures Removed(Extended(Attempted(t, a, ts).0, x), a.comp.dest) == Reverted(t, a.comp, x)
  {
    hide Attempted, AsidePath, WellFormed, Placeless, NewDirs, Extended, Removed, FreshAttempt;
    var cleared := Removed(Extended(Attempted(t, a, ts).0, x), a.comp.dest);
    NothingBelow(t, a.comp.dest);
    forall p
      ensures At(cleared, p) == At(Reverted(t, a.comp, x), p)
    {
      StepAt(t, a, ts, p);
      if a.comp.dest <= p {
        NewDirsNotBelow(t, a.comp, p);
      }
    }
    TreesEqual(cleared, Reverted(t, a.comp, x));
  }

  lemma BackMayMove(t: Tree, a: Attempt, ts: string, x: Tree)
    requires Ripe(t, a, ts) && Attempted(t, a, ts).1.Some? && a.comp.dest in t
    ensures MayRename(Removed(Extended(Attempted(t, a, ts).0, x), a.comp.dest), AsidePath(a.comp.dest, ts), a.comp.dest)
  {
    hide Attempted, AsidePath, Extended, Removed, Placeless;
    var d, aside := a.comp.dest, AsidePath(a.comp.dest, ts);
    var cleared := Removed(Extended(Attempted(t, a, ts).0, x), d);
    AsideSibling(d, ts);
    StepAt(t, a, ts, aside);
    assert d + aside[|aside|..] == d;
    var q := d[..|d| - 1];
    AncestorsExist(t, d, q);
    AsideShape(d, ts);
    StepAt(t, a, ts, q);
    assert At(cleared, aside).Some? && At(cleared, q) == Some(Dir) && At(cleared, d) == None;
  }

  lemma UndoneAt(t: Tree, a: Attempt, ts: string, x: Tree, p: Path)
    requires Ripe(t, a, ts) && Attempted(t, a, ts).1.Some? && a.comp.dest in t
    requires NothingAt(x, AsidePath(a.comp.dest, ts))
    ensures var removed := Removed(Extended(Attempted(t, a, ts).0, x), a.comp.dest);
            At(Moved(removed, AsidePath(a.comp.dest, ts), a.comp.dest), p) == At(Reverted(t, a.comp, x), p)
  {
    hide Attempted, AsidePath, Extended, Removed, Moved, WellFormed;
    var d, aside := a.comp.dest, AsidePath(a.comp.dest, ts);
    AsideSibling(d, ts);
    if d <= p {
      var q := aside + p[|d|..];
      assert !(d <= q) by { AsideShape(d, ts); PrefixOrder(d, aside, q); }
      StepAt(t, a, ts, q);
      assert q[|aside|..] == p[|d|..] && d + p[|d|..] == p;
      NewDirsNotBelow(t, a.comp, p);
    } else {
      StepAt(t, a, ts, p);
    }
  }

  lemma NewDirsNotBelow(t: Tree, c: Component, p: Path)
    requires c.dest <= p
    ensures At(NewDirs(t, c), p) == None
  {
    PrefixOrder(c.dest, p, c.dest);
    PrefixOrder(p, c.dest, c.dest);
  }

  // ---- a step that fails ----

  // What a second tree has beyond a first.
  function New(t: Tree, next: Tree): (n: Tree)
    ensures forall p :: At(n, p) == if p in t then None else At(next, p)
  {
    map p | p in next && p !in t :: next[p]
  }

  // Whatever happened below the destination, clearing it and moving the original back
  // gives the tree before the move.
  lemma MoveBack(t: Tree, d: Path, aside: Path, now: Tree)
    requires WellFormed(t) && d in t && MayRename(t, d, aside) && NothingAt(t, aside)
    requires forall p :: !(d <= p) ==> At(now, p) == At(Moved(t, d, aside), p)
    ensures Renamed(Removed(now, d), aside, d) == Some(t)
  {
    hide Moved, Removed, WellFormed;
    var cleared := Removed(now, d);
    assert d + aside[|aside|..] == d && At(Moved(t, d, aside), aside) == At(t, d);
    assert d != [] by { assert [] <= aside; }
    MovedParents(t, d, aside, d[..|d| - 1]);
    assert At(cleared, d) == None && At(cleared, aside).Some?;
    PrefixOrder(d, d[..|d| - 1], d);
    assert At(cleared, d[..|d| - 1]) == Some(Dir);
    forall p
      ensures At(Moved(cleared, aside, d), p) == At(t, p)
    {
      if d <= p {
        var q := aside + p[|d|..];
        assert q[|aside|..] == p[|d|..] && d + p[|d|..] == p;
        assert !(d <= q) by { PrefixOrder(d, aside, q); PrefixOrder(aside, d, q); }
      }
    }
    TreesEqual(Moved(cleared, aside, d), t);
  }

  lemma LeftoverOutside(t: Tree, c: Component, partial: Option<Tree>, p: Path)
    requires !(c.dest <= p)
    ensures At(Leftover(t, c, partial), p) == At(t, p)
         || (p !in t && p <= c.dest && At(Leftover(t, c, partial), p) == Some(Dir) && At(Missing(t, c.dest), p).Some?)
  {
  }

  // A failed step leaves a tree that had the destination as it was.
  lemma FailedWhereThere(t: Tree, a: Attempt, ts: string)
    requires Ripe(t, a, ts) && Attempted(t, a, ts).1.None? && a.comp.dest in t
    ensures Attempted(t, a, ts).0 == t
  {
    hide Leftover, Moved, AsidePath, WellFormed, Placeable, PlacedTree, MayRename, FreshAttempt;
    var d, aside := a.comp.dest, AsidePath(a.comp.dest, ts);
    assert d != [] by { DestIsNotRoot(a, ts); }
    AsideSibling(d, ts);
    if MovedAside(t, a, ts).Some? {
      var moved := Moved(t, d, aside);
      var left := Leftover(moved, a.comp, a.partial);
      NotBlockedAfterMove(t, d, aside);
      forall p | !(d <= p)
        ensures At(left, p) == At(moved, p)
      {
        LeftoverOutside(moved, a.comp, a.partial, p);
      }
      MoveBack(t, d, aside, left);
    }
  }

  lemma DestIsNotRoot(a: Attempt, ts: string)
    requires FreshAttempt(a, ts)
    ensures a.comp.dest != []
  {
  }

  // Where the destination was absent, a failed step only adds to the tree: below the
  // destination, and the ancestors it created; and if anything, then the destination.
  lemma FailedWhereAbsent(t: Tree, a: Attempt, ts: string)
    requires Ripe(t, a, ts) && Attempted(t, a, ts).1.None? && a.comp.dest !in t
    ensures Attempted(t, a, ts).0 == Extended(t, New(t, Attempted(t, a, ts).0))
    ensures forall p :: p in New(t, Attempted(t, a, ts).0) ==> (a.comp.dest <= p || p <= a.comp.dest) && Unmarked(p, ts)
    ensures Attempted(t, a, ts).0 == t || a.comp.dest in Attempted(t, a, ts).0
  {
    hide AsidePath, Unmarked, New, Extended, Leftover, FreshAttempt, WellFormed, PlacedTree, Placeable;
    var left := Leftover(t, a.comp, a.partial);
    forall p
      ensures At(left, p) == At(Extended(t, New(t, left)), p)
      ensures p in New(t, left) ==> (a.comp.dest <= p || p <= a.comp.dest) && Unmarked(p, ts)
    {
      LeftoverAt(t, a, ts, p);
    }
    TreesEqual(left, Extended(t, New(t, left)));
    LeftoverRoot(t, a.comp, a.partial);
  }

  lemma LeftoverRoot(t: Tree, c: Component, partial: Option<Tree>)
    ensures Leftover(t, c, partial) == t || c.dest in Leftover(t, c, partial)
  {
    hide Extended, Missing, Blocked, ParentIsDir, Removed, WithDirs;
    assert c.dest[|c.dest|..] == [];
    if partial.Some? && CanLeave(t, c, partial.value) {
      assert At(Leftover(t, c, partial), c.dest) == At(partial.value, []);
    }
  }

  lemma LeftoverAt(t: Tree, a: Attempt, ts: string, p: Path)
    requires WellFormed(t) && FreshAttempt(a, ts) && a.comp.dest !in t
    ensures p in t ==> At(Leftover(t, a.comp, a.partial), p) == At(t, p)
    ensures p in Leftover(t, a.comp, a.partial) && p !in t ==> (a.comp.dest <= p || p <= a.comp.dest) && Unmarked(p, ts)
  {
    hide Unmarked, WellFormed, CanLeave, WithDirs;
    var d := a.comp.dest;
    NothingBelow(t, d);
    if d <= p {
      assert d + p[|d|..] == p;
      if p[|d|..] in (if a.partial.Some? then a.partial.value else map[]) {
        UnmarkedConcat(d, p[|d|..], ts);
      }
    } else {
      LeftoverOutside(t, a.comp, a.partial, p);
      if p <= d {
        UnmarkedPrefix(d, p, ts);
      }
    }
  }
}
