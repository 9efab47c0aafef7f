/**
 Whole restores: a failed one gives the tree back but for what its last copy left behind,
 and a successful one leaves the bundle in place and every earlier tree beside it.
 */
module RestoreRuns {
  import opened Options
  import opened FileTree
  import opened Restore
  import opened RestoreSafety

  // A point of a restore: some destinations are done, the rest of the plan is fresh.
  predicate Ongoing(t: Tree, attempts: seq<Attempt>, ts: string, done: set<Path>) {
    && WellFormed(t) && Tagged(t, done, ts) && Destinations(done, ts) && FreshPlan(attempts, ts)
    && forall i :: 0 <= i < |attempts| ==> attempts[i].comp.dest !in done
  }

  lemma Begin(t: Tree, attempts: seq<Attempt>, ts: string)
    requires FreshTree(t, ts) && FreshPlan(attempts, ts)
    ensures Ongoing(t, attempts, ts, {})
  {
  }

  lemma Rest(t: Tree, attempts: seq<Attempt>, ts: string, done: set<Path>)
    requires Ongoing(t, attempts, ts, done) && attempts != []
    ensures Ongoing(t, attempts[1..], ts, done)
  {
    hide FreshAttempt, Tagged, Destinations, WellFormed;
  }

  lemma PlanTail(attempts: seq<Attempt>, ts: string, done: set<Path>)
    requires attempts != [] && FreshPlan(attempts, ts) && Destinations(done, ts)
    requires forall i :: 0 <= i < |attempts| ==> attempts[i].comp.dest !in done
    ensures FreshAttempt(attempts[0], ts) && FreshPlan(attempts[1..], ts)
    ensures Destinations(done + {attempts[0].comp.dest}, ts)
    ensures forall i :: 0 <= i < |attempts[1..]| ==> attempts[1..][i].comp.dest !in done + {attempts[0].comp.dest}
  {
    hide Unmarked, AllUnmarked, Subtree;
    assert FreshAttempt(attempts[0], ts);
    forall i | 0 <= i < |attempts[1..]|
      ensures FreshAttempt(attempts[1..][i], ts) && attempts[1..][i].comp.dest !in done + {attempts[0].comp.dest}
    {
      assert attempts[1..][i] == attempts[i + 1];
      assert attempts[0].comp.dest != attempts[i + 1].comp.dest;
    }
  }

  lemma Next(t: Tree, attempts: seq<Attempt>, ts: string, done: set<Path>)
    requires Ongoing(t, attempts, ts, done) && attempts != [] && attempts[0].comp.source.Some?
    ensures Ripe(t, attempts[0], ts)
    ensures Attempted(t, attempts[0], ts).1.Some? ==>
              Attempted(t, attempts[0], ts).1.value.dest == attempts[0].comp.dest
              && Ongoing(Attempted(t, attempts[0], ts).0, attempts[1..], ts, done + {attempts[0].comp.dest})
  {
    hide Tagged, WellFormed, Attempted, NothingAt, AsidePath, Unmarked, AllUnmarked, Subtree, FreshPlan, Destinations;
    var a := attempts[0];
    PlanTail(attempts, ts, done);
    AsideIsFresh(t, done, a.comp.dest, ts);
    if Attempted(t, a, ts).1.Some? {
      StepParts(t, a, ts);
      AttemptedWellFormed(t, a, ts);
      StepTagged(t, a, ts, done);
    }
  }

  // ---- undoing a failed restore ----

  // What is in the tree beyond the original after a failed restore has been undone.
  function Residue(t: Tree, attempts: seq<Attempt>, ts: string): Tree
    decreases |attempts|
  {
    if attempts == [] then map[]
    else if attempts[0].comp.source.None? then Residue(t, attempts[1..], ts)
    else
      var (next, placed) := Attempted(t, attempts[0], ts);
      match placed
      case None => New(t, next)
      case Some(p) => Extended(NewDirs(t, attempts[0].comp), Removed(Residue(next, attempts[1..], ts), p.dest))
  }

  lemma UnmarkedNothingAt(x: Tree, d: Path, ts: string)
    requires AllUnmarked(x, ts) && d != []
    ensures NothingAt(x, AsidePath(d, ts))
  {
    hide Unmarked, AsidePath;
    forall p | p in x
      ensures !(AsidePath(d, ts) <= p)
    {
      if AsidePath(d, ts) <= p {
        AsideMarks(d, ts, p);
      }
    }
  }

  lemma ResidueStepUnmarked(t: Tree, a: Attempt, ts: string, x: Tree)
    requires FreshAttempt(a, ts) && AllUnmarked(x, ts)
    ensures AllUnmarked(Extended(NewDirs(t, a.comp), Removed(x, a.comp.dest)), ts)
  {
    hide Unmarked, Extended, Removed, NewDirs;
    forall p | p in Extended(NewDirs(t, a.comp), Removed(x, a.comp.dest))
      ensures Unmarked(p, ts)
    {
      assert At(Extended(NewDirs(t, a.comp), Removed(x, a.comp.dest)), p).Some?;
      if p in NewDirs(t, a.comp) {
        UnmarkedPrefix(a.comp.dest, p, ts);
      } else {
        assert At(Removed(x, a.comp.dest), p).Some?;
      }
    }
  }

  lemma NewOfSame(t: Tree)
    ensures New(t, t) == map[]
  {
    TreesEqual(New(t, t), map[]);
  }

  lemma FailedStepResidue(t: Tree, a: Attempt, ts: string)
    requires Ripe(t, a, ts) && Attempted(t, a, ts).1.None?
    ensures Attempted(t, a, ts).0 == Extended(t, New(t, Attempted(t, a, ts).0))
    ensures AllUnmarked(New(t, Attempted(t, a, ts).0), ts)
  {
    hide Attempted, Unmarked, Extended;
    var left := Attempted(t, a, ts).0;
    if a.comp.dest in t {
      FailedWhereThere(t, a, ts);
      NewOfSame(t);
      NoExtras(t);
    } else {
      FailedWhereAbsent(t, a, ts);
    }
  }

  // The undo loop returns the original tree and the residue, whatever the nesting.
  lemma {:induction false} Reversal(t: Tree, attempts: seq<Attempt>, ts: string, done: set<Path>)
    requires Ongoing(t, attempts, ts, done) && Forward(t, attempts, ts).failed.Some?
    ensures var o := Forward(t, attempts, ts);
            UndoneAll(o.tree, o.placed) == Extended(t, Residue(t, attempts, ts))
    ensures AllUnmarked(Residue(t, attempts, ts), ts)
    decreases |attempts|
  {
    hide Ongoing, Attempted, Extended, New, Removed, Undone, AllUnmarked, Ripe, NewDirs, FreshAttempt;
    var a, rest := attempts[0], attempts[1..];
    if a.comp.source.None? {
      Rest(t, attempts, ts, done);
      Reversal(t, rest, ts, done);
    } else {
      Next(t, attempts, ts, done);
      var (next, placed) := Attempted(t, a, ts);
      if placed.None? {
        FailedStepResidue(t, a, ts);
      } else {
        Reversal(next, rest, ts, done + {a.comp.dest});
        var o := Forward(next, rest, ts);
        var x := Residue(next, rest, ts);
        RipeFresh(t, a, ts);
        UnmarkedNothingAt(x, a.comp.dest, ts);
        UndoStep(t, a, ts, x);
        ResidueStepUnmarked(t, a, ts, x);
        assert ([placed.value] + o.placed)[1..] == o.placed;
        assert UndoneAll(o.tree, [placed.value] + o.placed) == Undone(UndoneAll(o.tree, o.placed), placed.value);
      }
    }
  }

  lemma RipeFresh(t: Tree, a: Attempt, ts: string)
    requires Ripe(t, a, ts)
    ensures FreshAttempt(a, ts) && a.comp.dest != []
  {
  }

  // A failed restore loses nothing: every path of the original tree is as it was.
  lemma NothingLost(t: Tree, attempts: seq<Attempt>, ts: string)
    requires FreshTree(t, ts) && FreshPlan(attempts, ts) && Forward(t, attempts, ts).failed.Some?
    ensures forall p :: p in t ==> At(Restored(t, attempts, ts), p) == At(t, p)
    ensures Restored(t, attempts, ts) == Extended(t, Residue(t, attempts, ts))
  {
    hide Ongoing, FreshPlan, FreshTree, Forward, Extended, UndoneAll;
    Begin(t, attempts, ts);
    Reversal(t, attempts, ts, {});
  }

  // ---- when it gives back exactly the original ----

  // Each destination's parent is a directory when its turn comes.
  predicate ParentsThere(t: Tree, attempts: seq<Attempt>, ts: string)
    decreases |attempts|
  {
    if attempts == [] then true
    else if attempts[0].comp.source.None? then ParentsThere(t, attempts[1..], ts)
    else
      ParentIsDir(t, attempts[0].comp.dest) &&
      var (next, placed) := Attempted(t, attempts[0], ts);
      placed.Some? ==> ParentsThere(next, attempts[1..], ts)
  }

  // The path is at or below something that was placed.
  predicate Covered(placed: seq<Placed>, p: Path) {
    exists j :: 0 <= j < |placed| && placed[j].dest <= p
  }

  lemma CoveredCons(first: Placed, rest: seq<Placed>, p: Path)
    ensures Covered([first] + rest, p) <==> first.dest <= p || Covered(rest, p)
  {
    if j :| 0 <= j < |rest| && rest[j].dest <= p {
      assert ([first] + rest)[j + 1].dest <= p;
    }
    if first.dest <= p {
      assert ([first] + rest)[0].dest <= p;
    }
  }

  lemma NoNewDirs(t: Tree, c: Component)
    requires WellFormed(t) && ParentIsDir(t, c.dest)
    ensures NewDirs(t, c) == map[]
  {
    hide WellFormed;
    forall p | p <= c.dest && p != c.dest
      ensures p in t
    {
      assert p == c.dest[..|p|] && |p| < |c.dest|;
      assert p == c.dest[..|c.dest| - 1][..|p|];
      AncestorsExist(t, c.dest[..|c.dest| - 1], p);
    }
    TreesEqual(NewDirs(t, c), map[]);
  }

  // With parents in place, the residue is what the failed copy left outside every placed
  // destination.
  lemma {:induction false} ResidueIsUncovered(t: Tree, attempts: seq<Attempt>, ts: string, done: set<Path>, p: Path)
    requires Ongoing(t, attempts, ts, done) && ParentsThere(t, attempts, ts) && Forward(t, attempts, ts).failed.Some?
    ensures var o := Forward(t, attempts, ts);
            At(Residue(t, attempts, ts), p)
            == (if Covered(o.placed, p) then None else At(New(o.failed.value.before, o.tree), p))
    decreases |attempts|
  {
    hide Ongoing, Attempted, Extended, New, Removed, Covered, Ripe, NewDirs, ParentIsDir;
    var a, rest := attempts[0], attempts[1..];
    if a.comp.source.None? {
      Rest(t, attempts, ts, done);
      ResidueIsUncovered(t, rest, ts, done, p);
    } else {
      Next(t, attempts, ts, done);
      var (next, placed) := Attempted(t, a, ts);
      if placed.None? {
        NothingCovered(p);
      } else {
        ResidueIsUncovered(next, rest, ts, done + {a.comp.dest}, p);
        CoveredCons(placed.value, Forward(next, rest, ts).placed, p);
        RipeWellFormed(t, a, ts);
        NoNewDirs(t, a.comp);
      }
    }
  }

  lemma NothingCovered(p: Path)
    ensures !Covered([], p)
  {
  }

  lemma RipeWellFormed(t: Tree, a: Attempt, ts: string)
    requires Ripe(t, a, ts)
    ensures WellFormed(t)
  {
  }

  // The failing step, seen from the tree before it.
  lemma {:induction false} FailingStep(t: Tree, attempts: seq<Attempt>, ts: string, done: set<Path>)
    requires Ongoing(t, attempts, ts, done) && Forward(t, attempts, ts).failed.Some?
    ensures var o := Forward(t, attempts, ts);
            var f := o.failed.value;
            && o.tree == Extended(f.before, New(f.before, o.tree))
            && (f.dest in f.before ==> o.tree == f.before)
            && (o.tree == f.before || f.dest in o.tree)
            && (ParentsThere(t, attempts, ts) ==> forall p :: p in New(f.before, o.tree) ==> f.dest <= p)
    decreases |attempts|
  {
    hide Ongoing, Attempted, Extended, New, Ripe, ParentIsDir;
    var a, rest := attempts[0], attempts[1..];
    if a.comp.source.None? {
      Rest(t, attempts, ts, done);
      FailingStep(t, rest, ts, done);
    } else {
      Next(t, attempts, ts, done);
      if Attempted(t, a, ts).1.Some? {
        FailingStep(Attempted(t, a, ts).0, rest, ts, done + {a.comp.dest});
      } else {
        FailedStepResidue(t, a, ts);
        LastStep(t, a, ts);
      }
    }
  }

  lemma LastStep(t: Tree, a: Attempt, ts: string)
    requires Ripe(t, a, ts) && Attempted(t, a, ts).1.None?
    ensures a.comp.dest in t ==> Attempted(t, a, ts).0 == t
    ensures Attempted(t, a, ts).0 == t || a.comp.dest in Attempted(t, a, ts).0
    ensures ParentIsDir(t, a.comp.dest) ==> forall p :: p in New(t, Attempted(t, a, ts).0) ==> a.comp.dest <= p
  {
    hide Attempted, New, Unmarked, ParentIsDir, FreshAttempt, NothingAt, WellFormed;
    var left := Attempted(t, a, ts).0;
    if a.comp.dest in t {
      FailedWhereThere(t, a, ts);
      NewOfSame(t);
    } else {
      FailedWhereAbsent(t, a, ts);
      forall p | p in New(t, left) && ParentIsDir(t, a.comp.dest)
        ensures a.comp.dest <= p
      {
        assert At(New(t, left), p).Some?;
        OnlyRootMissing(t, a.comp.dest, p);
      }
    }
  }

  lemma OnlyRootMissing(t: Tree, d: Path, p: Path)
    requires WellFormed(t) && ParentIsDir(t, d) && p !in t
    ensures p <= d ==> p == d
  {
    if p <= d && |p| < |d| {
      assert p == d[..|d| - 1][..|p|];
      AncestorsExist(t, d[..|d| - 1], p);
    }
  }

  // ---- where earlier trees go ----

  // Where a path's content is after the given moves aside.
  function Whereabouts(p: Path, placed: seq<Placed>): Path
    decreases |placed|
  {
    if placed == [] then p
    else if placed[0].dest <= p && placed[0].aside.Some? then
      Whereabouts(placed[0].aside.value + p[|placed[0].dest|..], placed[1..])
    else Whereabouts(p, placed[1..])
  }

  lemma OneMove(p: Path, h: Placed)
    ensures Whereabouts(p, [h]) == if h.dest <= p && h.aside.Some? then h.aside.value + p[|h.dest|..] else p
  {
  }

  lemma StepSurvives(t: Tree, a: Attempt, ts: string, p: Path)
    requires Ripe(t, a, ts) && Attempted(t, a, ts).1.Some? && p in t
    ensures var (next, placed) := Attempted(t, a, ts);
            At(next, Whereabouts(p, [placed.value])) == At(t, p)
  {
    hide Attempted, AsidePath, FreshAttempt, NewDirs, Placeless, Whereabouts, PlacedTree, Placeable, MayRename;
    RipeFresh(t, a, ts);
    StepParts(t, a, ts);
    OneMove(p, Handle(t, a, ts));
    if a.comp.dest <= p {
      AncestorsExist(t, p, a.comp.dest);
      MovedSurvives(t, a, ts, p);
    } else {
      StepAt(t, a, ts, p);
    }
  }

  lemma MovedSurvives(t: Tree, a: Attempt, ts: string, p: Path)
    requires Ripe(t, a, ts) && Attempted(t, a, ts).1.Some? && p in t && a.comp.dest in t && a.comp.dest <= p
    ensures At(Attempted(t, a, ts).0, AsidePath(a.comp.dest, ts) + p[|a.comp.dest|..]) == At(t, p)
  {
    hide Attempted, AsidePath, NewDirs, Placeless, NothingAt, WellFormed;
    var d, aside := a.comp.dest, AsidePath(a.comp.dest, ts);
    RipeFresh(t, a, ts);
    AsideSibling(d, ts);
    var q := aside + p[|d|..];
    PrefixOrder(d, aside, q);
    PrefixOrder(aside, d, q);
    assert q[|aside|..] == p[|d|..] && d + p[|d|..] == p;
    StepAt(t, a, ts, q);
  }

  lemma WhereaboutsCons(p: Path, first: Placed, rest: seq<Placed>)
    ensures Whereabouts(p, [first] + rest) == Whereabouts(Whereabouts(p, [first]), rest)
  {
    assert ([first] + rest)[1..] == rest;
  }

  // Every path of the tree survives every restore: where it was, or under an aside.
  lemma {:induction false} Survives(t: Tree, attempts: seq<Attempt>, ts: string, done: set<Path>, p: Path)
    requires Ongoing(t, attempts, ts, done) && p in t
    ensures var o := Forward(t, attempts, ts);
            && At(o.tree, Whereabouts(p, o.placed)) == At(t, p)
            && (o.failed.Some? ==> At(o.failed.value.before, Whereabouts(p, o.placed)) == At(t, p))
    decreases |attempts|
  {
    hide Ongoing, Attempted, Whereabouts, Ripe, Extended, New;
    if attempts == [] {
      NoMoves(p);
    } else if attempts[0].comp.source.None? {
      Rest(t, attempts, ts, done);
      Survives(t, attempts[1..], ts, done, p);
    } else {
      var a, rest := attempts[0], attempts[1..];
      Next(t, attempts, ts, done);
      var (next, placed) := Attempted(t, a, ts);
      if placed.None? {
        NoMoves(p);
        FailedStepResidue(t, a, ts);
      } else {
        StepSurvives(t, a, ts, p);
        Survives(next, rest, ts, done + {a.comp.dest}, Whereabouts(p, [placed.value]));
        WhereaboutsCons(p, placed.value, Forward(next, rest, ts).placed);
      }
    }
  }

  lemma NoMoves(p: Path)
    ensures Whereabouts(p, []) == p
  {
  }

  lemma {:induction false} UncoveredStays(p: Path, placed: seq<Placed>)
    requires !Covered(placed, p)
    ensures Whereabouts(p, placed) == p
  {
    if placed != [] {
      assert placed == [placed[0]] + placed[1..];
      CoveredCons(placed[0], placed[1..], p);
      UncoveredStays(p, placed[1..]);
    }
  }

  // ---- the main results ----

  // With each destination's parent in place, a failed restore gives back exactly the
  // original tree if and only if the failing destination was there before, or the failed
  // copy left nothing, or it lies under a destination already placed.
  lemma RollbackExactly(t: Tree, attempts: seq<Attempt>, ts: string)
    requires FreshTree(t, ts) && FreshPlan(attempts, ts) && ParentsThere(t, attempts, ts)
    requires Forward(t, attempts, ts).failed.Some?
    ensures var o := Forward(t, attempts, ts);
            var f := o.failed.value;
            Restored(t, attempts, ts) == t
            <==> f.dest in f.before || o.tree == f.before || Covered(o.placed, f.dest)
  {
    hide Ongoing, FreshPlan, FreshTree, Forward, Extended, UndoneAll, Restored, New, Covered, ParentsThere;
    var o := Forward(t, attempts, ts);
    var f := o.failed.value;
    Begin(t, attempts, ts);
    NothingLost(t, attempts, ts);
    FailingStep(t, attempts, ts, {});
    if f.dest in f.before || o.tree == f.before || Covered(o.placed, f.dest) {
      NoResidue(t, attempts, ts);
      NoExtras(t);
    } else {
      ResidueIsUncovered(t, attempts, ts, {}, f.dest);
      if f.dest in t {
        Survives(t, attempts, ts, {}, f.dest);
        UncoveredStays(f.dest, o.placed);
      }
      AtExtended(t, Residue(t, attempts, ts), f.dest);
      assert At(Restored(t, attempts, ts), f.dest) != At(t, f.dest);
    }
  }

  lemma AtExtended(t: Tree, x: Tree, p: Path)
    ensures At(Extended(t, x), p) == if p in t then At(t, p) else At(x, p)
  {
  }

  lemma NoResidue(t: Tree, attempts: seq<Attempt>, ts: string)
    requires Ongoing(t, attempts, ts, {}) && ParentsThere(t, attempts, ts) && Forward(t, attempts, ts).failed.Some?
    requires var o := Forward(t, attempts, ts);
             var f := o.failed.value;
             f.dest in f.before || o.tree == f.before || Covered(o.placed, f.dest)
    ensures Residue(t, attempts, ts) == map[]
  {
    hide Ongoing, Forward, Extended, New, Covered, ParentsThere, Residue;
    var o := Forward(t, attempts, ts);
    var f := o.failed.value;
    FailingStep(t, attempts, ts, {});
    NewOfSame(f.before);
    forall p
      ensures At(Residue(t, attempts, ts), p) == None
    {
      ResidueIsUncovered(t, attempts, ts, {}, p);
      if p in New(f.before, o.tree) {
        CoveredBelow(o.placed, f.dest, p);
      }
    }
    TreesEqual(Residue(t, attempts, ts), map[]);
  }

  // A run of placements that succeed, and one more.
  lemma {:induction false} ForwardSnoc(t: Tree, before: seq<Attempt>, a: Attempt, ts: string)
    requires Forward(t, before, ts).failed.None? && a.comp.source.Some?
    ensures var o := Forward(t, before, ts);
            var (next, placed) := Attempted(o.tree, a, ts);
            Forward(t, before + [a], ts)
            == if placed.None? then Outcome(next, o.placed, Some(Failure(a.comp.dest, o.tree)))
               else Outcome(next, o.placed + [placed.value], None)
    ensures ParentsThere(t, before + [a], ts) <==>
              ParentsThere(t, before, ts) && ParentIsDir(Forward(t, before, ts).tree, a.comp.dest)
    decreases |before|
  {
    hide Attempted, ParentIsDir;
    if before == [] {
      assert [] + [a] == [a] && [a][1..] == [];
    } else {
      assert (before + [a])[1..] == before[1..] + [a] && (before + [a])[0] == before[0];
      var next := if before[0].comp.source.None? then t else Attempted(t, before[0], ts).0;
      ForwardSnoc(next, before[1..], a, ts);
      if before[0].comp.source.Some? {
        var o, p := Forward(next, before[1..], ts), Attempted(t, before[0], ts).1.value;
        assert forall q :: [p] + (o.placed + [q]) == [p] + o.placed + [q];
      }
    }
  }

  // The plan up to an attempt whose copy fails, leaving what the file system lets it.
  function Leaving(before: seq<Attempt>, a: Attempt, partial: Option<Tree>): seq<Attempt> {
    before + [a.(partial := partial)]
  }

  predicate UnmarkedPart(partial: Option<Tree>, ts: string) {
    partial.Some? ==> AllUnmarked(partial.value, ts)
  }

  lemma LeavingFresh(before: seq<Attempt>, a: Attempt, partial: Option<Tree>, ts: string)
    requires FreshPlan(before + [a], ts) && UnmarkedPart(partial, ts)
    ensures FreshPlan(Leaving(before, a, partial), ts)
  {
    hide AllUnmarked, Unmarked, Subtree;
    var plan, next := before + [a], Leaving(before, a, partial);
    forall i | 0 <= i < |next|
      ensures FreshAttempt(next[i], ts) && next[i].comp == plan[i].comp
    {
      assert FreshAttempt(plan[i], ts);
    }
  }

  // The least a failed copy can leave at an absent destination whose parent is a directory.
  function Scrap(c: Component): Tree {
    map[[] := if c.isFile then File("") else Dir]
  }

  lemma ScrapFits(t: Tree, c: Component, ts: string)
    requires WellFormed(t) && ParentIsDir(t, c.dest) && c.dest !in t
    ensures CanLeave(t, c, Scrap(c)) && UnmarkedPart(Some(Scrap(c)), ts)
  {
    hide WellFormed, Blocked;
    FreeUnblocked(t, c.dest);
  }

  lemma ScrapIsLeft(t: Tree, a: Attempt, ts: string)
    requires WellFormed(t) && a.comp.source.Some? && !a.placeOk && ParentIsDir(t, a.comp.dest) && a.comp.dest !in t
    ensures Attempted(t, a.(partial := Some(Scrap(a.comp))), ts).0 != t
    ensures UnmarkedPart(Some(Scrap(a.comp)), ts)
  {
    hide WithDirs, WellFormed, CanLeave, ParentIsDir, UnmarkedPart, Graft;
    var c, s := a.comp, Scrap(a.comp);
    ScrapFits(t, c, ts);
    assert c.dest[|c.dest|..] == [];
    assert At(Leftover(t, c, Some(s)), c.dest) == At(s, []);
  }

  // Before the copy is tried, a caller can tell: whatever it leaves when it fails, the restore
  // gives back exactly the original tree if and only if something is at the destination or it
  // lies under one already placed.
  lemma RollbackSureExactly(t: Tree, before: seq<Attempt>, a: Attempt, ts: string)
    requires FreshTree(t, ts) && FreshPlan(before + [a], ts) && ParentsThere(t, before + [a], ts)
    requires Forward(t, before, ts).failed.None? && a.comp.source.Some? && !a.placeOk
    ensures var o := Forward(t, before, ts);
            (forall partial :: UnmarkedPart(partial, ts) ==> Restored(t, Leaving(before, a, partial), ts) == t)
            <==> a.comp.dest in o.tree || Covered(o.placed, a.comp.dest)
  {
    hide FreshTree, FreshPlan, ParentsThere, Forward, Covered, Restored, Attempted, ParentIsDir, UnmarkedPart, Scrap;
    var o := Forward(t, before, ts);
    ForwardSnoc(t, before, a, ts);
    if a.comp.dest in o.tree || Covered(o.placed, a.comp.dest) {
      forall partial | UnmarkedPart(partial, ts)
        ensures Restored(t, Leaving(before, a, partial), ts) == t
      {
        LeavingExactly(t, before, a, partial, ts);
      }
    } else {
      FailsAt(t, before, a, ts);
      var scrap := Some(Scrap(a.comp));
      ScrapIsLeft(o.tree, a, ts);
      LeavingExactly(t, before, a, scrap, ts);
    }
  }

  lemma FailsAt(t: Tree, before: seq<Attempt>, a: Attempt, ts: string)
    requires FreshTree(t, ts) && FreshPlan(before + [a], ts) && Forward(t, before, ts).failed.None?
    ensures WellFormed(Forward(t, before, ts).tree)
  {
    PlanPrefix(before, a, ts);
    Begin(t, before, ts);
    StaysWellFormed(t, before, ts, {});
  }

  lemma PlanPrefix(before: seq<Attempt>, a: Attempt, ts: string)
    requires FreshPlan(before + [a], ts)
    ensures FreshPlan(before, ts)
  {
    hide FreshAttempt;
    assert forall i :: 0 <= i < |before| ==> (before + [a])[i] == before[i];
  }

  lemma {:induction false} StaysWellFormed(t: Tree, attempts: seq<Attempt>, ts: string, done: set<Path>)
    requires Ongoing(t, attempts, ts, done) && Forward(t, attempts, ts).failed.None?
    ensures WellFormed(Forward(t, attempts, ts).tree)
    decreases |attempts|
  {
    hide Ongoing, Attempted, Ripe, WellFormed;
    if attempts == [] {
      OngoingTree(t, attempts, ts, done);
    } else if attempts[0].comp.source.None? {
      Rest(t, attempts, ts, done);
      StaysWellFormed(t, attempts[1..], ts, done);
    } else {
      Next(t, attempts, ts, done);
      StaysWellFormed(Attempted(t, attempts[0], ts).0, attempts[1..], ts, done + {attempts[0].comp.dest});
    }
  }

  lemma OngoingTree(t: Tree, attempts: seq<Attempt>, ts: string, done: set<Path>)
    requires Ongoing(t, attempts, ts, done)
    ensures WellFormed(t)
  {
  }

  lemma LeavingExactly(t: Tree, before: seq<Attempt>, a: Attempt, partial: Option<Tree>, ts: string)
    requires FreshTree(t, ts) && FreshPlan(before + [a], ts) && ParentsThere(t, before + [a], ts)
    requires Forward(t, before, ts).failed.None? && a.comp.source.Some? && !a.placeOk && UnmarkedPart(partial, ts)
    ensures var o := Forward(t, before, ts);
            Restored(t, Leaving(before, a, partial), ts) == t
            <==> a.comp.dest in o.tree || Attempted(o.tree, a.(partial := partial), ts).0 == o.tree
                 || Covered(o.placed, a.comp.dest)
  {
    hide FreshTree, FreshPlan, ParentsThere, Forward, Covered, Restored, ParentIsDir, UnmarkedPart, PlacedTree,
         Leftover, MovedAside, Placeable, Undone;
    var b := a.(partial := partial);
    LeavingFresh(before, a, partial, ts);
    ForwardSnoc(t, before, a, ts);
    ForwardSnoc(t, before, b, ts);
    assert Attempted(Forward(t, before, ts).tree, b, ts).1.None?;
    RollbackExactly(t, Leaving(before, a, partial), ts);
  }

  // A restore that does not give the tree back: one component, nothing at its destination, and
  // a copy that fails after creating something there.
  lemma PartialCopyStays(t: Tree, a: Attempt, ts: string)
    requires FreshTree(t, ts) && FreshAttempt(a, ts) && a.comp.source.Some? && ParentIsDir(t, a.comp.dest)
    requires a.comp.dest !in t && !a.placeOk && a.partial.Some? && CanLeave(t, a.comp, a.partial.value)
    ensures a.comp.dest in Restored(t, [a], ts) && Restored(t, [a], ts) != t
  {
    hide WellFormed, Unmarked, AllUnmarked, WithDirs;
    assert a.comp.dest[|a.comp.dest|..] == [];
    var left := Leftover(t, a.comp, a.partial);
    assert At(left, a.comp.dest) == At(a.partial.value, []);
    assert Forward(t, [a], ts) == Outcome(left, [], Some(Failure(a.comp.dest, t)));
  }

  lemma CoveredBelow(placed: seq<Placed>, d: Path, p: Path)
    requires d <= p
    ensures Covered(placed, d) ==> Covered(placed, p)
  {
    if j :| 0 <= j < |placed| && placed[j].dest <= d {
      PrefixOrder(placed[j].dest, d, p);
    }
  }

  // ---- a successful restore ----

  lemma NotPlaceless(t: Tree, a: Attempt, ts: string)
    requires Ripe(t, a, ts) && Attempted(t, a, ts).1.Some?
    requires a.comp.source.value != EMPTY_DIR || ParentIsDir(t, a.comp.dest)
    ensures !Placeless(t, a.comp)
  {
    hide Attempted, PlacedTree, AsidePath, FreshAttempt, NothingAt, Moved;
    StepParts(t, a, ts);
    var d := a.comp.dest;
    if ParentIsDir(t, d) && d !in t {
      FreeUnblocked(t, d);
    }
  }

  // What is placed at a path: the component's own node there, unless nothing could be placed.
  lemma StepPlaces(t: Tree, a: Attempt, ts: string, p: Path)
    requires Ripe(t, a, ts) && Attempted(t, a, ts).1.Some? && a.comp.dest <= p
    requires a.comp.source.value != EMPTY_DIR || ParentIsDir(t, a.comp.dest)
    ensures At(Attempted(t, a, ts).0, p) == At(a.comp.source.value, p[|a.comp.dest|..])
  {
    hide Attempted, Placeless, NewDirs, Ripe;
    NotPlaceless(t, a, ts);
    RipeSource(t, a, ts);
    StepAt(t, a, ts, p);
  }

  lemma RipeSource(t: Tree, a: Attempt, ts: string)
    requires Ripe(t, a, ts)
    ensures a.comp.source.Some?
  {
  }

  // No attempt from the given one on goes at or above the path.
  predicate Uncovering(attempts: seq<Attempt>, from: nat, p: Path) {
    forall k :: from <= k < |attempts| && attempts[k].comp.source.Some? ==> !(attempts[k].comp.dest <= p)
  }

  lemma UncoveringTail(attempts: seq<Attempt>, from: nat, p: Path)
    requires attempts != [] && from > 0 && Uncovering(attempts, from, p)
    ensures Uncovering(attempts[1..], from - 1, p)
  {
  }

  lemma {:induction false} UncoveredByRest(t: Tree, attempts: seq<Attempt>, ts: string, done: set<Path>, p: Path)
    requires Ongoing(t, attempts, ts, done) && Uncovering(attempts, 0, p)
    ensures !Covered(Forward(t, attempts, ts).placed, p)
    decreases |attempts|
  {
    hide Ongoing, Attempted, Covered, Ripe;
    if attempts == [] {
      NothingCovered(p);
    } else {
      assert Uncovering(attempts[1..], 0, p);
      if attempts[0].comp.source.None? {
        Rest(t, attempts, ts, done);
        UncoveredByRest(t, attempts[1..], ts, done, p);
      } else {
        Next(t, attempts, ts, done);
        var (next, placed) := Attempted(t, attempts[0], ts);
        if placed.None? {
          NothingCovered(p);
        } else {
          UncoveredByRest(next, attempts[1..], ts, done + {attempts[0].comp.dest}, p);
          CoveredCons(placed.value, Forward(next, attempts[1..], ts).placed, p);
        }
      }
    }
  }

  // A path of the tree that no destination covers stays as it is.
  lemma Stays(t: Tree, attempts: seq<Attempt>, ts: string, done: set<Path>, p: Path)
    requires Ongoing(t, attempts, ts, done) && p in t && Uncovering(attempts, 0, p)
    ensures At(Forward(t, attempts, ts).tree, p) == At(t, p)
  {
    hide *;
    UncoveredByRest(t, attempts, ts, done, p);
    UncoveredStays(p, Forward(t, attempts, ts).placed);
    Survives(t, attempts, ts, done, p);
  }

  // On success every path of a component is at its destination, unless a later component
  // was placed over it.
  lemma {:induction false} DestinationsHold(t: Tree, attempts: seq<Attempt>, ts: string, done: set<Path>, i: nat,
                                            p: Path)
    requires Ongoing(t, attempts, ts, done) && Forward(t, attempts, ts).failed.None?
    requires i < |attempts| && attempts[i].comp.source.Some? && attempts[i].comp.dest <= p
    requires p[|attempts[i].comp.dest|..] in attempts[i].comp.source.value
    requires attempts[i].comp.source.value != EMPTY_DIR || ParentsThere(t, attempts, ts)
    requires Uncovering(attempts, i + 1, p)
    ensures At(Forward(t, attempts, ts).tree, p) == At(attempts[i].comp.source.value, p[|attempts[i].comp.dest|..])
    decreases |attempts|
  {
    hide Ongoing, Attempted, Ripe, Uncovering, ParentIsDir;
    var a, rest := attempts[0], attempts[1..];
    if a.comp.source.None? {
      Rest(t, attempts, ts, done);
      UncoveringTail(attempts, i + 1, p);
      DestinationsHold(t, rest, ts, done, i - 1, p);
    } else {
      Next(t, attempts, ts, done);
      var next := Attempted(t, a, ts).0;
      UncoveringTail(attempts, i + 1, p);
      if i == 0 {
        StepPlaces(t, a, ts, p);
        Stays(next, rest, ts, done + {a.comp.dest}, p);
      } else {
        DestinationsHold(next, rest, ts, done + {a.comp.dest}, i - 1, p);
      }
    }
  }

  // ---- exact copies ----

  predicate Comparable(a: Path, b: Path) {
    a <= b || b <= a
  }

  // No attempt from the given one on touches the destination, from above or below.
  predicate ApartFrom(attempts: seq<Attempt>, from: nat, d: Path) {
    forall k :: from <= k < |attempts| && attempts[k].comp.source.Some? ==> !Comparable(attempts[k].comp.dest, d)
  }

  // An aside reached from a base path is below the base, or its mark is in the base.
  lemma AsideFromBase(d: Path, base: Path, p: Path, ts: string)
    requires d != [] && base <= p && AsidePath(d, ts) <= p
    ensures base <= d || !Unmarked(base, ts)
  {
    hide AsidePath, Unmarked;
    var aside := AsidePath(d, ts);
    AsideShape(d, ts);
    if |base| < |d| {
      PrefixOrder(base, aside[..|d| - 1], p);
      PrefixOrder(base, d[..|d| - 1], d);
    } else {
      PrefixOrder(aside, base, p);
      AsideMarks(d, ts, base);
    }
  }

  lemma AsideElsewhereToo(d: Path, base: Path, p: Path, ts: string)
    requires d != [] && !Comparable(d, base) && Unmarked(base, ts) && base <= p
    ensures !(d <= p) && !(p <= d) && !(AsidePath(d, ts) <= p)
  {
    hide AsidePath, Unmarked;
    PrefixOrder(d, base, p);
    PrefixOrder(base, d, p);
    PrefixOrder(base, p, d);
    if AsidePath(d, ts) <= p {
      AsideFromBase(d, base, p, ts);
    }
  }

  lemma {:induction false} Undisturbed(t: Tree, attempts: seq<Attempt>, ts: string, done: set<Path>, base: Path,
                                       p: Path)
    requires Ongoing(t, attempts, ts, done) && Forward(t, attempts, ts).failed.None?
    requires ApartFrom(attempts, 0, base) && Unmarked(base, ts) && base <= p
    ensures At(Forward(t, attempts, ts).tree, p) == At(t, p)
    decreases |attempts|
  {
    hide Ongoing, Attempted, Ripe, AsidePath, NewDirs, Placeless;
    if attempts != [] {
      var a, rest := attempts[0], attempts[1..];
      if a.comp.source.None? {
        Rest(t, attempts, ts, done);
        Undisturbed(t, rest, ts, done, base, p);
      } else {
        Next(t, attempts, ts, done);
        RipeFresh(t, a, ts);
        AsideElsewhereToo(a.comp.dest, base, p, ts);
        StepAt(t, a, ts, p);
        Undisturbed(Attempted(t, a, ts).0, rest, ts, done + {a.comp.dest}, base, p);
      }
    }
  }

  // On success a destination that later ones keep away from holds exactly the component.
  lemma {:induction false} DestinationIsExact(t: Tree, attempts: seq<Attempt>, ts: string, done: set<Path>, i: nat,
                                              p: Path)
    requires Ongoing(t, attempts, ts, done) && Forward(t, attempts, ts).failed.None?
    requires i < |attempts| && attempts[i].comp.source.Some? && attempts[i].comp.dest <= p
    requires attempts[i].comp.source.value != EMPTY_DIR || ParentsThere(t, attempts, ts)
    requires ApartFrom(attempts, i + 1, attempts[i].comp.dest)
    ensures At(Forward(t, attempts, ts).tree, p) == At(attempts[i].comp.source.value, p[|attempts[i].comp.dest|..])
    decreases |attempts|
  {
    hide Ongoing, Attempted, Ripe, ParentIsDir, Comparable, FreshAttempt;
    var a, rest := attempts[0], attempts[1..];
    if a.comp.source.None? {
      Rest(t, attempts, ts, done);
      DestinationIsExact(t, rest, ts, done, i - 1, p);
    } else {
      Next(t, attempts, ts, done);
      var next := Attempted(t, a, ts).0;
      if i == 0 {
        RipeUnmarked(t, a, ts);
        StepPlaces(t, a, ts, p);
        Undisturbed(next, rest, ts, done + {a.comp.dest}, a.comp.dest, p);
      } else {
        DestinationIsExact(next, rest, ts, done + {a.comp.dest}, i - 1, p);
      }
    }
  }

  lemma RipeUnmarked(t: Tree, a: Attempt, ts: string)
    requires Ripe(t, a, ts)
    ensures Unmarked(a.comp.dest, ts)
  {
  }

  // ---- summaries from the start of a restore ----

  // Every path of the original tree survives a restore that succeeds, beside or in place.
  lemma EarlierTreesSurvive(t: Tree, attempts: seq<Attempt>, ts: string, p: Path)
    requires FreshTree(t, ts) && FreshPlan(attempts, ts) && Forward(t, attempts, ts).failed.None? && p in t
    ensures At(Restored(t, attempts, ts), Whereabouts(p, Forward(t, attempts, ts).placed)) == At(t, p)
    ensures !Covered(Forward(t, attempts, ts).placed, p) ==> At(Restored(t, attempts, ts), p) == At(t, p)
  {
    hide Ongoing, FreshPlan, FreshTree, Forward, Whereabouts, Covered;
    Begin(t, attempts, ts);
    Survives(t, attempts, ts, {}, p);
    if !Covered(Forward(t, attempts, ts).placed, p) {
      UncoveredStays(p, Forward(t, attempts, ts).placed);
    }
  }

  predicate KindFits(c: Component) {
    c.source.Some? ==> if c.isFile then IsFile(c.source.value, []) else IsDir(c.source.value, [])
  }

  lemma GoodStep(t: Tree, a: Attempt, ts: string)
    requires Ripe(t, a, ts) && a.asideOk && a.placeOk && KindFits(a.comp) && ParentIsDir(t, a.comp.dest)
    ensures Attempted(t, a, ts).1.Some?
  {
    hide PlacedTree, Leftover, Moved, Undone, WellFormed, FreshAttempt, AsidePath;
    RipeFresh(t, a, ts);
    RipeWellFormed(t, a, ts);
    var d, aside := a.comp.dest, AsidePath(a.comp.dest, ts);
    AsideShape(d, ts);
    AsideSibling(d, ts);
    if d in t {
      assert MayRename(t, d, aside);
      MovedParents(t, d, aside, d[..|d| - 1]);
      PrefixOrder(d, d[..|d| - 1], d);
      NotBlockedAfterMove(t, d, aside);
    } else {
      FreeUnblocked(t, d);
    }
  }

  lemma FreeUnblocked(t: Tree, d: Path)
    requires WellFormed(t) && ParentIsDir(t, d) && d !in t
    ensures !Blocked(t, d)
  {
    forall q | q in Prefixes(d)
      ensures !IsFile(t, q)
    {
      if q != d {
        assert q == d[..|q|] && |q| < |d|;
        assert q == d[..|d| - 1][..|q|];
        AncestorsExist(t, d[..|d| - 1], q);
      }
    }
  }

  // With parents in place and no failure of the file system, a restore succeeds.
  lemma {:induction false} GoodRunSucceeds(t: Tree, attempts: seq<Attempt>, ts: string, done: set<Path>)
    requires Ongoing(t, attempts, ts, done) && ParentsThere(t, attempts, ts)
    requires forall i :: 0 <= i < |attempts| ==>
               attempts[i].asideOk && attempts[i].placeOk && KindFits(attempts[i].comp)
    ensures Forward(t, attempts, ts).failed.None?
    decreases |attempts|
  {
    hide Ongoing, Attempted, Ripe, KindFits, ParentIsDir;
    if attempts != [] {
      var a, rest := attempts[0], attempts[1..];
      if a.comp.source.None? {
        Rest(t, attempts, ts, done);
        GoodRunSucceeds(t, rest, ts, done);
      } else {
        Next(t, attempts, ts, done);
        GoodStep(t, a, ts);
        GoodRunSucceeds(Attempted(t, a, ts).0, rest, ts, done + {a.comp.dest});
      }
    }
  }
}
