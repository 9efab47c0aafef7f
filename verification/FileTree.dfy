/**
 A file system as a map from absolute paths to directories and files, with the operations the
 backup and restore code uses. Each operation is pinned down path by path.
 */
module FileTree {
  import opened Options

  type Path = seq<string>

  datatype Node = Dir | File(content: string)

  type Tree = map<Path, Node>

  function At(t: Tree, p: Path): Option<Node> {
    if p in t then Some(t[p]) else None
  }

  predicate IsDir(t: Tree, p: Path) {
    At(t, p) == Some(Dir)
  }

  predicate IsFile(t: Tree, p: Path) {
    p in t && t[p].File?
  }

  // Every path but the root lies in a directory.
  predicate WellFormed(t: Tree) {
    IsDir(t, []) && forall p :: p in t && p != [] ==> IsDir(t, p[..|p| - 1])
  }

  lemma TreesEqual(a: Tree, b: Tree)
    requires forall p :: At(a, p) == At(b, p)
    ensures a == b
  {
    assert forall p :: p in a <==> At(a, p).Some?;
    assert forall p :: p in b <==> At(b, p).Some?;
    assert forall p :: p in a ==> At(a, p) == At(b, p);
  }

  // Whatever exists has all its ancestors as directories.
  lemma {:induction false} AncestorsExist(t: Tree, p: Path, q: Path)
    requires WellFormed(t) && p in t && q <= p
    ensures q in t && (q != p ==> IsDir(t, q))
    decreases |p|
  {
    if q != p {
      AncestorsExist(t, p[..|p| - 1], q);
    }
  }

  lemma NothingBelow(t: Tree, d: Path)
    requires WellFormed(t) && d !in t
    ensures forall p :: p in t ==> !(d <= p)
  {
    forall p | p in t
      ensures !(d <= p)
    {
      if d <= p {
        AncestorsExist(t, p, d);
      }
    }
  }

  lemma PrefixOrder(a: Path, b: Path, c: Path)
    ensures a <= b && b <= c ==> a <= c
    ensures a <= b && b <= a ==> a == b
    ensures a <= c && b <= c && |a| <= |b| ==> a <= b
  {
    if a <= c && b <= c && |a| <= |b| {
      assert a == c[..|a|] && b == c[..|b|];
    }
  }

  // ---- subtrees ----

  // The tree below a path, seen from it.
  function Sub(t: Tree, d: Path): (s: Tree)
    ensures forall q :: q in s <==> d + q in t
    ensures forall q :: q in s ==> s[q] == t[d + q]
  {
    var below := set p | p in t && d <= p :: p[|d|..];
    assert forall q :: d + q in t ==> (d + q)[|d|..] == q;
    assert forall p :: p in t && d <= p ==> d + p[|d|..] == p;
    map q | q in below :: t[d + q]
  }

  function Removed(t: Tree, d: Path): (r: Tree)
    ensures forall p :: At(r, p) == if d <= p then None else At(t, p)
  {
    map p | p in t && !(d <= p) :: t[p]
  }

  // The tree with a subtree put at a path, in place of whatever was there.
  function Graft(t: Tree, d: Path, s: Tree): (r: Tree)
    ensures forall p :: At(r, p) == if d <= p then At(s, p[|d|..]) else At(t, p)
  {
    var placed := set q | q in s :: d + q;
    assert forall q :: q in s ==> (d + q)[|d|..] == q;
    assert forall p :: d <= p ==> d + p[|d|..] == p;
    Removed(t, d) + map p | p in placed :: s[p[|d|..]]
  }

  // The first tree, and what the second has beyond it.
  function Extended(t: Tree, x: Tree): (r: Tree)
    ensures forall p :: At(r, p) == if p in t then At(t, p) else At(x, p)
  {
    x + t
  }

  // ---- renaming ----

  predicate EmptyDir(t: Tree, d: Path) {
    IsDir(t, d) && forall p :: p in t ==> d <= p ==> p == d
  }

  // Whether POSIX lets one path take the place of another.
  predicate MayRename(t: Tree, from: Path, to: Path) {
    && from in t && to != [] && !(from <= to) && !(to <= from)
    && IsDir(t, to[..|to| - 1])
    && (to in t ==> (IsFile(t, from) && IsFile(t, to)) || (IsDir(t, from) && EmptyDir(t, to)))
  }

  function Moved(t: Tree, from: Path, to: Path): (r: Tree)
    ensures forall p :: At(r, p) == if to <= p then At(t, from + p[|to|..]) else if from <= p then None else At(t, p)
  {
    Graft(Removed(t, from), to, Sub(t, from))
  }

  function Renamed(t: Tree, from: Path, to: Path): Option<Tree> {
    if from in t && from == to then Some(t)
    else if MayRename(t, from, to) then Some(Moved(t, from, to))
    else None
  }

  // ---- creating directories ----

  lemma ShorterPrefixes(d: Path, shorter: set<Path>)
    requires d != [] && forall p :: p in shorter <==> p <= d[..|d| - 1]
    ensures forall p :: p in shorter <==> p <= d && p != d
  {
    forall p
      ensures p in shorter <==> p <= d && p != d
    {
      if p <= d {
        assert p == d[..|p|];
      }
    }
  }

  function Prefixes(d: Path): (s: set<Path>)
    ensures forall p :: p in s <==> p <= d
  {
    if d == [] then {[]}
    else
      var shorter := Prefixes(d[..|d| - 1]);
      assert forall p :: p in shorter <==> p <= d && p != d by { ShorterPrefixes(d, shorter); }
      shorter + {d}
  }

  // The directories that would have to be created for the path to be one.
  function Missing(t: Tree, d: Path): (m: Tree)
    ensures forall p :: At(m, p) == if p <= d && p !in t then Some(Dir) else None
  {
    map p | p in Prefixes(d) && p !in t :: Dir
  }

  // A file stands where a directory would be needed.
  predicate Blocked(t: Tree, d: Path) {
    exists p :: p in Prefixes(d) && IsFile(t, p)
  }

  // ---- well-formedness ----

  // A subtree: everything in it lies in one of its directories, up to its root.
  predicate Subtree(s: Tree) {
    [] in s && forall p :: p in s && p != [] ==> IsDir(s, p[..|p| - 1])
  }

  predicate ParentIsDir(t: Tree, d: Path) {
    d != [] && IsDir(t, d[..|d| - 1])
  }

  lemma GraftWellFormed(t: Tree, d: Path, s: Tree)
    requires WellFormed(t) && ParentIsDir(t, d) && Subtree(s)
    ensures WellFormed(Graft(t, d, s))
  {
    hide Graft;
    var r := Graft(t, d, s);
    assert At(r, []) == At(t, []);
    forall p | p in r && p != []
      ensures IsDir(r, p[..|p| - 1])
    {
      var q := p[..|p| - 1];
      assert At(r, p).Some?;
      PrefixOrder(d, q, p);
      if d <= q {
        assert q[|d|..] == p[|d|..][..|p| - |d| - 1];
      } else if d <= p {
        assert q == d[..|d| - 1];
      }
    }
  }

  lemma RemovedWellFormed(t: Tree, d: Path)
    requires WellFormed(t) && d != []
    ensures WellFormed(Removed(t, d))
  {
    hide Removed;
    var rest := Removed(t, d);
    assert At(rest, []) == At(t, []);
    forall p | p in rest && p != []
      ensures IsDir(rest, p[..|p| - 1])
    {
      assert At(rest, p).Some?;
      PrefixOrder(d, p[..|p| - 1], p);
    }
  }

  lemma SubIsSubtree(t: Tree, d: Path)
    requires WellFormed(t) && d in t
    ensures Subtree(Sub(t, d))
  {
    hide Sub;
    assert d + [] == d;
    forall p | p in Sub(t, d) && p != []
      ensures IsDir(Sub(t, d), p[..|p| - 1])
    {
      assert (d + p)[..|d + p| - 1] == d + p[..|p| - 1];
    }
  }

  lemma MovedWellFormed(t: Tree, from: Path, to: Path)
    requires WellFormed(t) && MayRename(t, from, to)
    ensures WellFormed(Moved(t, from, to))
  {
    hide Graft, Removed, Sub, WellFormed, Subtree;
    assert from != [] by { assert [] <= to; }
    RemovedWellFormed(t, from);
    SubIsSubtree(t, from);
    PrefixOrder(from, to[..|to| - 1], to);
    assert At(Removed(t, from), to[..|to| - 1]) == Some(Dir);
    GraftWellFormed(Removed(t, from), to, Sub(t, from));
  }

  lemma DirsWellFormed(t: Tree, d: Path)
    requires WellFormed(t) && !Blocked(t, d)
    ensures WellFormed(Extended(t, Missing(t, d))) && IsDir(Extended(t, Missing(t, d)), d)
  {
    hide Extended, Missing, Prefixes;
    var r := Extended(t, Missing(t, d));
    assert At(r, []) == At(t, []);
    forall p | p in Prefixes(d)
      ensures IsDir(r, p)
    {
      assert At(Missing(t, d), p) == if p in t then None else Some(Dir);
    }
    forall p | p in r && p != []
      ensures IsDir(r, p[..|p| - 1])
    {
      assert At(r, p).Some?;
      if p !in t {
        assert At(Missing(t, d), p).Some?;
        PrefixOrder(p[..|p| - 1], p, d);
      }
    }
  }

  // An empty directory all of whose ancestors are directories.
  predicate Ready(t: Tree, d: Path) {
    && (forall q :: q in Prefixes(d) ==> IsDir(t, q))
    && (forall p :: p in t ==> d <= p ==> p == d)
  }

  lemma EmptyIsReady(t: Tree, d: Path)
    requires WellFormed(t) && EmptyDir(t, d)
    ensures Ready(t, d)
  {
    forall q | q in Prefixes(d)
      ensures IsDir(t, q)
    {
      AncestorsExist(t, d, q);
    }
  }

  // A file's subtree is the file.
  lemma FileSubtree(s: Tree)
    requires Subtree(s) && IsFile(s, [])
    ensures s == map[[] := s[[]]]
  {
    forall p | p in s
      ensures p == []
    {
      if p != [] {
        RootReached(s, p);
        assert false;
      }
    }
  }

  lemma {:induction false} RootReached(s: Tree, p: Path)
    requires Subtree(s) && p in s && p != []
    ensures IsDir(s, [])
    decreases |p|
  {
    if |p| > 1 {
      RootReached(s, p[..|p| - 1]);
    }
  }

  lemma FileGrafted(t: Tree, d: Path, s: Tree)
    requires WellFormed(t) && d !in t && Subtree(s) && IsFile(s, [])
    ensures t[d := s[[]]] == Graft(t, d, s)
  {
    hide Graft, WellFormed, Subtree;
    FileSubtree(s);
    NothingBelow(t, d);
    forall p
      ensures At(t[d := s[[]]], p) == At(Graft(t, d, s), p)
    {
      if d <= p {
        assert p == d + p[|d|..] && d + [] == d;
        assert p[|d|..] == [] <==> p == d;
        assert At(s, p[|d|..]) == At(map[[] := s[[]]], p[|d|..]);
      }
    }
    TreesEqual(t[d := s[[]]], Graft(t, d, s));
  }

  // The created directory is empty, and ready to be copied into.
  lemma CreatedIsReady(t: Tree, d: Path)
    requires WellFormed(t) && d !in t && !Blocked(t, d)
    ensures Ready(Extended(t, Missing(t, d)), d)
  {
    hide Extended, Missing, WellFormed, Blocked;
    DirsWellFormed(t, d);
    NothingBelow(t, d);
    var r := Extended(t, Missing(t, d));
    forall p | p in r && d <= p
      ensures p == d
    {
      assert At(r, p).Some?;
      assert At(Missing(t, d), p).Some?;
      PrefixOrder(d, p, d);
      PrefixOrder(p, d, d);
    }
    EmptyIsReady(r, d);
  }

  lemma SubtreeOfRoot(s: Tree)
    ensures Sub(s, []) == s
  {
    forall p
      ensures At(Sub(s, []), p) == At(s, p)
    {
      assert [] + p == p;
    }
    TreesEqual(Sub(s, []), s);
  }

  lemma SubtreeIsTree(s: Tree)
    requires Subtree(s) && IsDir(s, [])
    ensures WellFormed(s)
  {
  }

  // Where the parent is a directory, creating the directory first makes no difference.
  lemma GraftCreated(t: Tree, d: Path, s: Tree)
    requires WellFormed(t) && ParentIsDir(t, d)
    ensures Graft(Extended(t, Missing(t, d)), d, s) == Graft(t, d, s)
  {
    hide Graft, Extended, Missing, WellFormed;
    var made := Extended(t, Missing(t, d));
    forall p
      ensures At(Graft(made, d, s), p) == At(Graft(t, d, s), p)
    {
      if !(d <= p) && p <= d {
        assert p == d[..|p|] && |p| < |d|;
        assert p == d[..|d| - 1][..|p|];
        AncestorsExist(t, d[..|d| - 1], p);
      }
    }
    TreesEqual(Graft(made, d, s), Graft(t, d, s));
  }

  // ---- the file system ----

  // Names of the entries of a directory.
  function Entries(t: Tree, d: Path): (names: set<string>)
    ensures forall n :: n in names ==> d + [n] in t
    ensures WellFormed(t) ==> forall p :: p in t && d <= p && p != d ==> p[|d|] in names
  {
    var names := set p | p in t && d <= p && |p| == |d| + 1 :: p[|d|];
    assert forall p :: p in t && d <= p && |p| == |d| + 1 ==> p == d + [p[|d|]];
    assert WellFormed(t) ==> forall p :: p in t && d <= p && p != d ==> p[|d|] in names by {
      if WellFormed(t) {
        forall p | p in t && d <= p && p != d
          ensures p[|d|] in names
        {
          AncestorsExist(t, p, p[..|d| + 1]);
        }
      }
    }
    names
  }

  // The entries of a directory in `done` copied, the others not yet.
  function Partly(t: Tree, dst: Path, s: Tree, done: set<string>): (r: Tree)
    ensures forall p :: At(r, p) == if dst <= p && p != dst && p[|dst|] in done then At(s, p[|dst|..]) else At(t, p)
  {
    var copied := set q | q in s && q != [] && q[0] in done :: dst + q;
    assert forall q :: q in s ==> (dst + q)[|dst|..] == q;
    assert forall p :: dst <= p ==> dst + p[|dst|..] == p;
    (map p | p in t && !(dst <= p && p != dst && p[|dst|] in done) :: t[p]) + (map p | p in copied :: s[p[|dst|..]])
  }

  lemma PartlyNone(t: Tree, dst: Path, s: Tree)
    ensures Partly(t, dst, s, {}) == t
  {
    TreesEqual(Partly(t, dst, s, {}), t);
  }

  lemma PartlyAll(t: Tree, dst: Path, from: Tree, src: Path)
    requires WellFormed(from) && IsDir(from, src) && Ready(t, dst)
    ensures Partly(t, dst, Sub(from, src), Entries(from, src)) == Graft(t, dst, Sub(from, src))
  {
    var a, b := Partly(t, dst, Sub(from, src), Entries(from, src)), Graft(t, dst, Sub(from, src));
    assert dst in Prefixes(dst);
    forall p
      ensures At(a, p) == At(b, p)
    {
      if dst <= p {
        var q := p[|dst|..];
        assert src + q in from && q != [] ==> src <= src + q && (src + q)[|src|] == p[|dst|];
        assert src + [] == src;
      }
    }
    TreesEqual(a, b);
  }

  lemma ChildPrefix(dst: Path, n: string, p: Path, src: Path)
    ensures dst + [n] <= p <==> dst <= p && p != dst && p[|dst|] == n
    ensures dst + [n] <= p ==> (src + [n]) + p[|dst + [n]|..] == src + p[|dst|..]
  {
    if dst <= p && p != dst {
      assert |p| > |dst| by { assert dst == p[..|dst|]; }
      if p[|dst|] == n {
        assert p[..|dst| + 1] == dst + [n];
      }
    }
  }

  lemma PartlyStepAt(t: Tree, dst: Path, from: Tree, src: Path, done: set<string>, n: string, p: Path)
    ensures At(Graft(Partly(t, dst, Sub(from, src), done), dst + [n], Sub(from, src + [n])), p)
         == At(Partly(t, dst, Sub(from, src), done + {n}), p)
  {
    hide Graft, Partly, Sub;
    ChildPrefix(dst, n, p, src);
  }

  // Copying one more entry.
  lemma PartlyStep(t: Tree, dst: Path, from: Tree, src: Path, done: set<string>, n: string)
    ensures Graft(Partly(t, dst, Sub(from, src), done), dst + [n], Sub(from, src + [n]))
         == Partly(t, dst, Sub(from, src), done + {n})
  {
    hide *;
    var a := Graft(Partly(t, dst, Sub(from, src), done), dst + [n], Sub(from, src + [n]));
    var b := Partly(t, dst, Sub(from, src), done + {n});
    forall p
      ensures At(a, p) == At(b, p)
    {
      PartlyStepAt(t, dst, from, src, done, n, p);
    }
    TreesEqual(a, b);
  }

  // Creating the next directory: only it is new, and it is ready to be copied into.
  lemma NextDir(t: Tree, dst: Path, s: Tree, done: set<string>, n: string, g: Tree)
    requires Ready(t, dst) && n !in done
    ensures var r := Partly(t, dst, s, done);
            var made := Extended(r, Missing(r, dst + [n]));
            && !Blocked(r, dst + [n]) && Ready(made, dst + [n])
            && Graft(made, dst + [n], g) == Graft(r, dst + [n], g)
            && made == r[dst + [n] := Dir]
  {
    hide Partly, Extended, Missing, Graft, Prefixes;
    var r := Partly(t, dst, s, done);
    var target := dst + [n];
    var made := Extended(r, Missing(r, target));
    forall q | q in Prefixes(target)
      ensures q != target ==> IsDir(r, q)
      ensures q == target ==> At(r, q) == None
    {
      if q != target {
        assert q in Prefixes(dst) by { TargetPrefix(dst, n, q); }
      } else {
        ChildPrefix(dst, n, target, dst);
      }
    }
    forall p | target <= p
      ensures At(r, p) == None
    {
      ChildPrefix(dst, n, p, dst);
      assert At(t, p) == None;
    }
    forall p
      ensures At(made, p) == if p == target then Some(Dir) else At(r, p)
    {
      assert p in Prefixes(target) <==> p <= target;
    }
    assert forall q :: q in Prefixes(target) ==> At(made, q) == Some(Dir);
    TreesEqual(made, r[target := Dir]);
    assert forall p :: p in made ==> target <= p ==> At(made, p) == Some(Dir) && p == target;
    TreesEqual(Graft(made, target, g), Graft(r, target, g));
  }

  lemma TargetPrefix(dst: Path, n: string, q: Path)
    requires q <= dst + [n] && q != dst + [n]
    ensures q <= dst
  {
    assert q == (dst + [n])[..|q|];
  }

  lemma NextFile(t: Tree, dst: Path, from: Tree, src: Path, done: set<string>, n: string)
    requires Ready(t, dst) && n !in done && WellFormed(from) && IsFile(from, src + [n])
    ensures var r := Partly(t, dst, Sub(from, src), done);
            r[dst + [n] := from[src + [n]]] == Graft(r, dst + [n], Sub(from, src + [n]))
  {
    hide Partly, Graft, Sub, Ready;
    var r := Partly(t, dst, Sub(from, src), done);
    var target := dst + [n];
    var a, b := r[target := from[src + [n]]], Graft(r, target, Sub(from, src + [n]));
    forall p
      ensures At(a, p) == At(b, p)
    {
      if p == target {
        assert p[|target|..] == [] && src + [n] + [] == src + [n];
      } else if target <= p {
        assert At(r, p) == None by { ChildPrefix(dst, n, p, dst); ReadyBelow(t, dst, p); }
        var q := src + [n] + p[|target|..];
        if q in from {
          AncestorsExist(from, q, src + [n]);
          assert false;
        }
      }
    }
    TreesEqual(a, b);
  }

  // Either kind of entry leaves one more entry copied.
  lemma NextEntry(t: Tree, dst: Path, from: Tree, src: Path, done: set<string>, n: string)
    requires Ready(t, dst) && n !in done && WellFormed(from) && src + [n] in from
    ensures var r, target := Partly(t, dst, Sub(from, src), done), dst + [n];
            var made := Extended(r, Missing(r, target));
            var next := Partly(t, dst, Sub(from, src), done + {n});
            match from[src + [n]]
            case Dir => !Blocked(r, target) && Ready(made, target) && Graft(made, target, Sub(from, src + [n])) == next
            case File(content) => r[target := File(content)] == next
  {
    hide *;
    PartlyStep(t, dst, from, src, done, n);
    if from[src + [n]].Dir? {
      NextDir(t, dst, Sub(from, src), done, n, Sub(from, src + [n]));
    } else {
      assert IsFile(from, src + [n]) by { FileIs(from, src + [n]); }
      NextFile(t, dst, from, src, done, n);
    }
  }

  lemma FileIs(t: Tree, p: Path)
    requires p in t && t[p].File?
    ensures IsFile(t, p)
  {
  }

  lemma ReadyBelow(t: Tree, d: Path, p: Path)
    requires Ready(t, d) && d <= p && p != d
    ensures At(t, p) == None
  {
  }

  // ---- copies that stop ----

  // Source paths that cannot be copied: a directory that cannot be read, after or instead of
  // being created at the target, or a file, with the text its failed copy leaves if any.
  type Failures = map<Path, Option<string>>

  predicate Cannot(fails: Failures, p: Path) {
    p in fails && fails[p] == None
  }

  predicate Unhindered(from: Tree, d: Path, fails: Failures) {
    forall p :: p in from && d <= p ==> p !in fails
  }

  predicate AllUnhindered(from: Tree, d: Path, fails: Failures, done: set<string>) {
    d !in fails && forall n :: n in done ==> Unhindered(from, d + [n], fails)
  }

  predicate SameKind(n: Node, m: Option<Node>) {
    m.Some? && (n.Dir? <==> m.value.Dir?)
  }

  // A copy so far: nothing changed elsewhere, and what is there has its parent, and its
  // original of the same kind.
  ghost predicate PartCopied(t: Tree, u: Tree, from: Tree, src: Path, dst: Path) {
    && IsDir(u, dst) && (forall p :: !(dst <= p) ==> At(u, p) == At(t, p))
    && forall p :: p in u && dst <= p && p != dst ==>
         IsDir(u, p[..|p| - 1]) && SameKind(u[p], At(from, src + p[|dst|..]))
  }

  lemma Hindered(from: Tree, d: Path, p: Path, fails: Failures)
    requires p in from && d <= p && p in fails
    ensures !Unhindered(from, d, fails)
  {
  }

  lemma CannotHinders(from: Tree, d: Path, n: string, fails: Failures)
    requires d + [n] in from && Cannot(fails, d + [n])
    ensures !Unhindered(from, d, fails)
  {
    Hindered(from, d, d + [n], fails);
  }

  lemma DirHinders(from: Tree, d: Path, n: string, fails: Failures, done: set<string>)
    requires AllUnhindered(from, d, fails, done)
    ensures Unhindered(from, d + [n], fails) ==> AllUnhindered(from, d, fails, done + {n})
    ensures !Unhindered(from, d + [n], fails) ==> !Unhindered(from, d, fails)
  {
    if p :| p in from && d + [n] <= p && p in fails {
      assert d <= p by { PrefixOrder(d, d + [n], p); }
    }
  }

  lemma FileHinders(from: Tree, d: Path, n: string, fails: Failures, done: set<string>)
    requires WellFormed(from) && d + [n] in from && from[d + [n]].File?
    ensures d + [n] !in fails && AllUnhindered(from, d, fails, done) ==> AllUnhindered(from, d, fails, done + {n})
    ensures d + [n] in fails ==> !Unhindered(from, d, fails)
  {
    forall p | p in from && d + [n] <= p
      ensures p == d + [n]
    {
      AncestorsExist(from, p, d + [n]);
    }
  }

  lemma EntriesHinder(from: Tree, d: Path, fails: Failures)
    requires WellFormed(from) && AllUnhindered(from, d, fails, Entries(from, d))
    ensures Unhindered(from, d, fails)
  {
    forall p | p in from && d <= p && p != d
      ensures p !in fails
    {
      assert p[|d|] in Entries(from, d);
      ChildPrefix(d, p[|d|], p, d);
    }
  }

  lemma PartlyPart(t: Tree, dst: Path, from: Tree, src: Path, done: set<string>)
    requires WellFormed(from) && IsDir(from, src) && Ready(t, dst)
    ensures PartCopied(t, Partly(t, dst, Sub(from, src), done), from, src, dst)
  {
    hide Partly, WellFormed, Sub, Prefixes;
    var r := Partly(t, dst, Sub(from, src), done);
    assert dst in Prefixes(dst);
    forall p | p in r && dst <= p && p != dst
      ensures IsDir(r, p[..|p| - 1]) && SameKind(r[p], At(from, src + p[|dst|..]))
    {
      PartlyParent(t, dst, from, src, done, p);
    }
  }

  lemma PartlyParent(t: Tree, dst: Path, from: Tree, src: Path, done: set<string>, p: Path)
    requires WellFormed(from) && Ready(t, dst) && IsDir(t, dst)
    requires p in Partly(t, dst, Sub(from, src), done) && dst <= p && p != dst
    ensures var r := Partly(t, dst, Sub(from, src), done);
            At(r, p) == At(from, src + p[|dst|..]) && IsDir(r, p[..|p| - 1])
  {
    hide Partly, Sub, Prefixes;
    var parent, q := p[..|p| - 1], p[|dst|..];
    assert At(Partly(t, dst, Sub(from, src), done), p).Some?;
    assert dst <= parent;
    if parent != dst {
      assert parent[|dst|] == p[|dst|];
      assert src + parent[|dst|..] == (src + q)[..|src + q| - 1];
    }
  }

  // One more entry of the same kind.
  lemma PartlyScrap(t: Tree, dst: Path, from: Tree, src: Path, done: set<string>, n: string, node: Node)
    requires WellFormed(from) && IsDir(from, src) && Ready(t, dst) && n !in done
    requires SameKind(node, At(from, src + [n]))
    ensures PartCopied(t, Partly(t, dst, Sub(from, src), done)[dst + [n] := node], from, src, dst)
  {
    hide Partly, WellFormed, Ready, Sub;
    var r := Partly(t, dst, Sub(from, src), done);
    PartlyPart(t, dst, from, src, done);
    ChildPrefix(dst, n, dst + [n], src);
    assert At(r, dst + [n]) == None by { ReadyBelow(t, dst, dst + [n]); }
  }

  lemma MadeIs(t: Tree, dst: Path, from: Tree, src: Path, done: set<string>, n: string)
    requires Ready(t, dst) && n !in done
    ensures var r := Partly(t, dst, Sub(from, src), done);
            Extended(r, Missing(r, dst + [n])) == r[dst + [n] := Dir]
  {
    hide *;
    NextDir(t, dst, Sub(from, src), done, n, map[]);
  }

  // What a directory's own copy leaves is part of the whole.
  lemma PartBelow(t: Tree, dst: Path, from: Tree, src: Path, done: set<string>, n: string, made: Tree, u: Tree)
    requires WellFormed(from) && IsDir(from, src) && Ready(t, dst) && n !in done && IsDir(from, src + [n])
    requires made == Partly(t, dst, Sub(from, src), done)[dst + [n] := Dir]
    requires PartCopied(made, u, from, src + [n], dst + [n])
    ensures PartCopied(t, u, from, src, dst)
  {
    hide Partly, WellFormed, Ready, Sub;
    var target := dst + [n];
    PartlyScrap(t, dst, from, src, done, n, Dir);
    forall p | !(dst <= p)
      ensures At(u, p) == At(t, p)
    {
      assert !(target <= p) by { PrefixOrder(dst, target, p); }
    }
    assert At(u, dst) == At(made, dst) by { PrefixOrder(dst, target, dst); }
    forall p | p in u && dst <= p && p != dst
      ensures IsDir(u, p[..|p| - 1]) && SameKind(u[p], At(from, src + p[|dst|..]))
    {
      ChildPrefix(dst, n, p, src);
      if !(target <= p) {
        assert At(u, p) == At(made, p);
        assert !(target <= p[..|p| - 1]) by { PrefixOrder(target, p[..|p| - 1], p); }
      } else if p == target {
        assert p[..|p| - 1] == dst && p[|dst|..] == [n];
        assert !(target <= dst);
      }
    }
  }

  // The entries in `done` copied, and none of them failing.
  predicate Going(t: Tree, u: Tree, dst: Path, from: Tree, src: Path, fails: Failures, done: set<string>) {
    u == Partly(t, dst, Sub(from, src), done) && AllUnhindered(from, src, fails, done)
  }

  lemma Begins(t: Tree, dst: Path, from: Tree, src: Path, fails: Failures)
    requires WellFormed(from) && IsDir(from, src) && Ready(t, dst)
    ensures PartCopied(t, t, from, src, dst)
    ensures if src in fails then !Unhindered(from, src, fails) else Going(t, t, dst, from, src, fails, {})
  {
    hide Partly, WellFormed, Ready, PartCopied, Sub;
    PartlyNone(t, dst, Sub(from, src));
    PartlyPart(t, dst, from, src, {});
  }

  lemma GoingIs(t: Tree, u: Tree, dst: Path, from: Tree, src: Path, fails: Failures, done: set<string>)
    requires Going(t, u, dst, from, src, fails, done) && WellFormed(from) && IsDir(from, src) && Ready(t, dst)
    ensures u == Partly(t, dst, Sub(from, src), done) && PartCopied(t, u, from, src, dst)
  {
    hide Partly, WellFormed, Ready, PartCopied, Sub, AllUnhindered;
    PartlyPart(t, dst, from, src, done);
  }

  lemma Ends(t: Tree, u: Tree, dst: Path, from: Tree, src: Path, fails: Failures)
    requires WellFormed(from) && IsDir(from, src) && Ready(t, dst)
    requires Going(t, u, dst, from, src, fails, Entries(from, src) - {})
    ensures u == Graft(t, dst, Sub(from, src)) && PartCopied(t, u, from, src, dst) && Unhindered(from, src, fails)
  {
    hide Partly, WellFormed, Ready, PartCopied, Sub, Entries, Graft, Unhindered;
    assert Entries(from, src) - {} == Entries(from, src);
    PartlyAll(t, dst, from, src);
    PartlyPart(t, dst, from, src, Entries(from, src));
    EntriesHinder(from, src, fails);
  }

  lemma DirDone(t: Tree, dst: Path, from: Tree, src: Path, fails: Failures, done: set<string>, n: string, made: Tree,
                u: Tree)
    requires WellFormed(from) && IsDir(from, src) && IsDir(from, src + [n]) && Ready(t, dst) && n !in done
    requires Going(t, Partly(t, dst, Sub(from, src), done), dst, from, src, fails, done)
    requires made == Partly(t, dst, Sub(from, src), done)[dst + [n] := Dir]
    requires PartCopied(made, u, from, src + [n], dst + [n])
    requires Graft(made, dst + [n], Sub(from, src + [n])) == Partly(t, dst, Sub(from, src), done + {n})
    ensures if Unhindered(from, src + [n], fails)
            then u == Graft(made, dst + [n], Sub(from, src + [n])) ==> Going(t, u, dst, from, src, fails, done + {n})
            else PartCopied(t, u, from, src, dst) && !Unhindered(from, src, fails)
  {
    hide Partly, WellFormed, Ready, PartCopied, Sub, AllUnhindered, Graft, Unhindered;
    DirHinders(from, src, n, fails, done);
    PartBelow(t, dst, from, src, done, n, made, u);
  }

  lemma FileDone(t: Tree, dst: Path, from: Tree, src: Path, fails: Failures, done: set<string>, n: string)
    requires WellFormed(from) && src + [n] in from && from[src + [n]].File? && src + [n] !in fails
    requires Going(t, Partly(t, dst, Sub(from, src), done), dst, from, src, fails, done)
    ensures Going(t, Partly(t, dst, Sub(from, src), done + {n}), dst, from, src, fails, done + {n})
  {
    hide Partly, WellFormed, Sub, AllUnhindered;
    FileHinders(from, src, n, fails, done);
  }

  lemma FileScrap(t: Tree, dst: Path, from: Tree, src: Path, done: set<string>, n: string, text: string)
    requires WellFormed(from) && IsDir(from, src) && Ready(t, dst) && n !in done
    requires src + [n] in from && from[src + [n]].File?
    ensures PartCopied(t, Partly(t, dst, Sub(from, src), done)[dst + [n] := File(text)], from, src, dst)
  {
    hide Partly, WellFormed, Ready, PartCopied, Sub;
    PartlyScrap(t, dst, from, src, done, n, File(text));
  }

  // The paths at or below a path.
  function Below(t: Tree, d: Path): (s: set<Path>)
    ensures forall p :: p in s <==> p in t && d <= p
  {
    set p | p in t && d <= p
  }

  class FileSystem {
    var tree: Tree

    constructor (tree: Tree)
      ensures this.tree == tree
    {
      this.tree := tree;
    }

    method Rename(from: Path, to: Path) returns (ok: bool)
      modifies this
      ensures ok <==> Renamed(old(tree), from, to).Some?
      ensures tree == if ok then Renamed(old(tree), from, to).value else old(tree)
      ensures ok ==> forall p :: At(tree, p) == if to <= p then At(old(tree), from + p[|to|..])
                                                else if from <= p then None else At(old(tree), p)
    {
      var renamed := Renamed(tree, from, to);
      ok := renamed.Some?;
      if ok {
        assert forall p :: from == to && to <= p ==> from + p[|to|..] == p;
        tree := renamed.value;
      }
    }

    // A directory with all it holds, or else a file; nothing when there is neither.
    method RemoveAny(d: Path)
      modifies this
      ensures tree == Removed(old(tree), d)
    {
      tree := Removed(tree, d);
    }

    method CreateDirs(d: Path) returns (ok: bool)
      modifies this
      ensures ok <==> !Blocked(old(tree), d)
      ensures tree == if ok then Extended(old(tree), Missing(old(tree), d)) else old(tree)
      ensures ok && WellFormed(old(tree)) ==> IsDir(tree, d)
      ensures forall p :: p in old(tree) || !(p <= d) ==> At(tree, p) == At(old(tree), p)
    {
      ok := !Blocked(tree, d);
      if ok {
        tree := Extended(tree, Missing(tree, d));
      }
    }

    // Copies what a directory holds into an empty one, entry by entry in any order, up to the
    // first source path that fails.
    method CopyDirRecursive(from: Tree, src: Path, dst: Path, fails: Failures) returns (ok: bool)
      requires WellFormed(from) && IsDir(from, src) && Ready(tree, dst)
      modifies this
      ensures ok <==> Unhindered(from, src, fails)
      ensures ok ==> tree == Graft(old(tree), dst, Sub(from, src))
      ensures PartCopied(old(tree), tree, from, src, dst)
      decreases Below(from, src), 1
    {
      hide *;
      ghost var before := tree;
      ghost var all := Entries(from, src);
      var names := Entries(from, src);
      NoneLeft(all);
      Begins(before, dst, from, src, fails);
      if src in fails {
        return false;
      }
      while names != {}
        invariant names <= all
        invariant Going(before, tree, dst, from, src, fails, all - names)
        decreases |names|
      {
        var n :| n in names;
        OneFewer(all, names, n);
        var copied := CopyEntry(from, src, dst, n, fails, before, all - names);
        if !copied {
          return false;
        }
        names := names - {n};
      }
      Ends(before, tree, dst, from, src, fails);
      ok := true;
    }

    // One entry, after those in `done`.
    method CopyEntry(from: Tree, src: Path, dst: Path, n: string, fails: Failures, ghost before: Tree,
                     ghost done: set<string>)
      returns (ok: bool)
      requires WellFormed(from) && IsDir(from, src) && src + [n] in from && Ready(before, dst) && n !in done
      requires Going(before, tree, dst, from, src, fails, done)
      modifies this
      ensures ok ==> Going(before, tree, dst, from, src, fails, done + {n})
      ensures !ok ==> PartCopied(before, tree, from, src, dst) && !Unhindered(from, src, fails)
      decreases Below(from, src), 0
    {
      hide *;
      var target := dst + [n];
      NextEntry(before, dst, from, src, done, n);
      GoingIs(before, tree, dst, from, src, fails, done);
      match from[src + [n]] {
        case Dir =>
          if Cannot(fails, src + [n]) {
            CannotHinders(from, src, n, fails);
            return false;
          }
          var _ := CreateDirs(target);
          Deeper(from, src, n);
          MadeIs(before, dst, from, src, done, n);
          ghost var made := tree;
          ok := CopyDirRecursive(from, src + [n], target, fails);
          DirDone(before, dst, from, src, fails, done, n, made, tree);
        case File(content) =>
          if src + [n] in fails {
            FileHinders(from, src, n, fails, done);
            if fails[src + [n]].Some? {
              FileScrap(before, dst, from, src, done, n, fails[src + [n]].value);
              tree := tree[target := File(fails[src + [n]].value)];
            }
            return false;
          }
          tree := tree[target := File(content)];
          FileDone(before, dst, from, src, fails, done, n);
          ok := true;
      }
    }
  }

  lemma NoneLeft(all: set<string>)
    ensures all - all == {} && all - {} == all
  {
  }

  lemma OneFewer(all: set<string>, names: set<string>, n: string)
    requires n in names && names <= all
    ensures all - (names - {n}) == (all - names) + {n} && n !in all - names
  {
  }

  lemma Deeper(from: Tree, src: Path, n: string)
    requires IsDir(from, src) && src + [n] in from
    ensures Below(from, src + [n]) < Below(from, src)
    ensures from[src + [n]] == Dir ==> IsDir(from, src + [n])
  {
    forall p | p in Below(from, src + [n])
      ensures p in Below(from, src)
    {
      ChildPrefix(src, n, p, src);
    }
    assert src in Below(from, src) && src !in Below(from, src + [n]);
  }
}
