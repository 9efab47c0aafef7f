/**
 Releases as the version file holds them: confirmed as they were offered, read back trimmed.
 Exactly the offers that reading back never lowers.
 */
module ReleaseText {
  import opened Decimal
  import opened Options
  import opened Ordering
  import opened TextLines
  import opened ReleaseVersion

  // A text that trimming leaves alone, and not blank: what the updater can read.
  predicate Tidy(v: string) {
    Trim(v) == v && v != ""
  }

  // The text of the version file as the updater reads it.
  function AsRead(text: string): string {
    if Trim(text) == "" then "0.0.0" else Trim(text)
  }

  predicate NotBelow(v: string, w: string) {
    v == w || IsNewer(v, w)
  }

  // A release whose suffix ends in no white space, or is nothing but white space.
  predicate KeepsRank(v: string) {
    TrimEnd(Suffix(v)) == Suffix(v) || TrimEnd(Suffix(v)) == ""
  }

  // ---- the text of a valid release ----

  lemma {:induction false} LastPart(s: string, c: char)
    ensures var parts := SplitOn(s, c);
            var last := parts[|parts| - 1];
            |last| <= |s| && last == s[|s| - |last|..]
    decreases |s|
  {
    var i := Find(s, c);
    if i < |s| {
      LastPart(s[i + 1..], c);
      assert SplitOn(s, c)[1..] == SplitOn(s[i + 1..], c);
    }
  }

  // The core of a valid release begins and ends in a digit.
  lemma CoreEnds(v: string)
    requires IsValidReleaseVersion(v)
    ensures var core := SplitDash(v).0;
            core != "" && IsDigit(core[0]) && IsDigit(core[|core| - 1])
  {
    hide SplitOn, SplitDash;
    var core := SplitDash(v).0;
    var parts := SplitOn(core, '.');
    FirstPart(core, '.');
    LastPart(core, '.');
    assert core[0] == parts[0][0] && core[|core| - 1] == parts[2][|parts[2]| - 1];
  }

  // A valid release is a dash-free core, and a dash with a suffix if it has one.
  lemma ValidText(v: string)
    requires IsValidReleaseVersion(v)
    ensures var core := SplitDash(v).0;
            && '-' !in core && (Suffix(v) == "" ==> v == core) && (Suffix(v) != "" ==> v == PreRelease(core, Suffix(v)))
  {
    hide SplitOn;
    var i := Find(v, '-');
    assert i < |v| ==> v == v[..i] + "-" + v[i + 1..];
  }

  // With another suffix it is as valid.
  lemma ValidPreRelease(core: string, suffix: string)
    requires IsValidReleaseVersion(core) && '-' !in core && suffix != ""
    ensures IsValidReleaseVersion(PreRelease(core, suffix))
  {
    hide SplitOn;
    SplitAt(core, suffix);
    Absent(core, '-');
  }

  // ---- trimming it ----

  lemma {:induction false} TrimEndAfter(a: string, s: string)
    requires a != "" && !IsWhitespace(a[|a| - 1])
    ensures TrimEnd(a + s) == a + TrimEnd(s)
    decreases |s|
  {
    if s == "" {
      assert a + s == a;
    } else if IsWhitespace(s[|s| - 1]) {
      assert (a + s)[..|a + s| - 1] == a + s[..|s| - 1];
      TrimEndAfter(a, s[..|s| - 1]);
    }
  }

  lemma TrimVisible(s: string)
    requires s != "" && !IsWhitespace(s[0])
    ensures Trim(s) == TrimEnd(s) && (!IsWhitespace(s[|s| - 1]) ==> Trim(s) == s)
  {
  }

  // From a digit on, only white space at the end goes.
  lemma TrimFrom(core: string, s: string)
    requires core != "" && IsDigit(core[0])
    ensures Trim(PreRelease(core, s)) == PreRelease(core, TrimEnd(s))
    ensures IsDigit(core[|core| - 1]) ==> Trim(core) == core
  {
    hide TrimEnd, TrimStart, Trim;
    var dashed := core + "-";
    assert PreRelease(core, s) == dashed + s;
    TrimEndAfter(dashed, s);
    TrimVisible(PreRelease(core, s));
    TrimVisible(core);
  }

  // Reading a release back keeps its core, and its suffix up to white space at the end.
  lemma ReadBack(v: string)
    requires IsValidReleaseVersion(v)
    ensures AsRead(v) == Trim(v) && (Trim(v) == v <==> TrimEnd(Suffix(v)) == Suffix(v))
    ensures Core(AsRead(v)) == Core(v) && Suffix(AsRead(v)) == TrimEnd(Suffix(v))
  {
    hide SplitOn, IsValidReleaseVersion, TrimEnd;
    var core, s := SplitDash(v).0, Suffix(v);
    ValidText(v);
    CoreEnds(v);
    TrimFrom(core, s);
    if s == "" {
      assert TrimEnd(s) == "";
    } else {
      SplitAt(core, TrimEnd(s));
      SplitAt(core, s);
      assert PreRelease(core, TrimEnd(s))[|core| + 1..] == TrimEnd(s) && PreRelease(core, s)[|core| + 1..] == s;
    }
  }

  // ---- its rank ----

  lemma SameNotBelow(v: string)
    ensures NotBelow(v, v)
  {
  }

  lemma NewerNotBelow(u: string, v: string, w: string)
    requires NotBelow(u, v) && NotBelow(v, w)
    ensures NotBelow(u, w)
  {
    StrictWeakOrder(u, v, w);
  }

  // A release that keeps its rank reads back as itself, or as one above all with its core.
  lemma KeptRank(v: string, w: string)
    requires IsValidReleaseVersion(v) && KeepsRank(v)
    ensures NotBelow(AsRead(v), v)
    ensures IsNewer(v, w) ==> NotBelow(AsRead(v), w)
  {
    hide IsValidReleaseVersion, Core, Suffix, TrimEnd, Trim, Compare, AsRead;
    ReadBack(v);
    if TrimEnd(Suffix(v)) != Suffix(v) {
      CompareFlip(Core(v), Core(v));
      assert CompareCalver(AsRead(v), v) == Greater;
      CalverFlip(v, v);
    }
    if IsNewer(v, w) {
      NewerNotBelow(AsRead(v), v, w);
    }
  }

  // The release just above what one that loses rank reads back as.
  function JustAbove(v: string): string {
    PreRelease(SplitDash(v).0, TrimEnd(Suffix(v)) + "\0")
  }

  lemma {:induction false} CompareAfter(a: seq<int>, b: seq<int>, c: seq<int>)
    ensures Compare(a + b, a + c) == Compare(b, c)
    decreases |a|
  {
    if a == [] {
      assert a + b == b && a + c == c;
    } else {
      assert (a + b)[1..] == a[1..] + b && (a + c)[1..] == a[1..] + c;
      CompareAfter(a[1..], b, c);
    }
  }

  // White space is above the lowest character, which is above nothing at all.
  lemma SuffixBetween(r: string, t: string)
    requires r != "" && t != "" && IsWhitespace(t[0])
    ensures CompareSuffix(r + t, r + "\0") == Greater && CompareSuffix(r, r + "\0") == Less
  {
    assert Codes(r + t) == Codes(r) + Codes(t) && Codes(r + "\0") == Codes(r) + [0];
    assert Codes(r) == Codes(r) + [];
    CompareAfter(Codes(r), Codes(t), [0]);
    CompareAfter(Codes(r), [], [0]);
  }

  // A valid release that loses rank passes the gate of one that it then reads back below.
  lemma LostRank(v: string)
    requires IsValidReleaseVersion(v) && !KeepsRank(v)
    ensures var w := JustAbove(v);
            Tidy(w) && IsNewer(v, w) && IsNewer(w, AsRead(v)) && !NotBelow(AsRead(v), w)
  {
    hide IsValidReleaseVersion, SplitDash, SplitOn, Compare, Trim, CompareSuffix, Core;
    var core, s, r := SplitDash(v).0, Suffix(v), TrimEnd(Suffix(v));
    var w := JustAbove(v);
    ValidText(v);
    CoreEnds(v);
    ReadBack(v);
    SameCore(core, r + "\0");
    SameCore(core, s);
    assert s == r + s[|r|..];
    SuffixBetween(r, s[|r|..]);
    TrimFrom(core, r + "\0");
    CompareFlip(Core(core), Core(core));
    SuffixFlip(r, r + "\0");
    CalverFlip(w, AsRead(v));
    CalverFlip(v, w);
    StrictWeakOrder(w, AsRead(v), w);
  }

  // Confirming an accepted release lowers no installed release, whatever is installed, if and
  // only if its suffix ends in no white space or is nothing but white space.
  lemma ReadBackExactly(v: string)
    requires IsValidReleaseVersion(v)
    ensures (forall w :: Tidy(w) && IsNewer(v, w) ==> NotBelow(AsRead(v), w)) <==> KeepsRank(v)
  {
    hide *;
    if KeepsRank(v) {
      forall w | Tidy(w) && IsNewer(v, w)
        ensures NotBelow(AsRead(v), w)
      {
        KeptRank(v, w);
      }
    } else {
      LostRank(v);
    }
  }
}
