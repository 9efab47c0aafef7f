/**
 Release versions: the shape a manifest may carry, and the updater's order on arbitrary
 strings.
 */
module ReleaseVersion {
  import opened Decimal
  import opened Options
  import opened Ordering
  import opened TextLines

  // ---- numbers ----

  // An unsigned number of the given width; one leading `+` is allowed.
  function ParseUnsigned(s: string, limit: nat): Option<nat> {
    var digits := if s != [] && s[0] == '+' then s[1..] else s;
    if digits == [] || !AllDigits(digits) || DigitsValue(digits) >= limit then None
    else Some(DigitsValue(digits))
  }

  const U32: nat := 0x1_0000_0000
  const U64: nat := 0x1_0000_0000_0000_0000

  // ---- splitting ----

  // The first part begins the text.
  lemma FirstPart(s: string, c: char)
    ensures var first := SplitOn(s, c)[0];
            |first| <= |s| && first == s[..|first|]
  {
  }

  // At the first dash; no suffix when there is none.
  function SplitDash(s: string): (string, Option<string>) {
    var i := Find(s, '-');
    if i == |s| then (s, None) else (s[..i], Some(s[i + 1..]))
  }

  function Number(part: string): int {
    match ParseUnsigned(part, U32)
    case None => 0
    case Some(n) => n
  }

  function Numbers(parts: seq<string>): (ns: seq<int>)
    ensures |ns| == |parts| && forall i :: 0 <= i < |ns| ==> ns[i] == Number(parts[i])
  {
    seq(|parts|, i requires 0 <= i < |parts| => Number(parts[i]))
  }

  // ---- the updater's order ----

  function Core(s: string): seq<int> {
    Numbers(SplitOn(SplitDash(s).0, '.'))
  }

  function Suffix(s: string): string {
    match SplitDash(s).1
    case None => ""
    case Some(t) => t
  }

  // No suffix is newer than any suffix.
  function CompareSuffix(a: string, b: string): Order {
    match (a == "", b == "")
    case (true, true) => Equal
    case (true, false) => Greater
    case (false, true) => Less
    case (false, false) => Compare(Codes(a), Codes(b))
  }

  function CompareCalver(a: string, b: string): Order {
    Then(Compare(Core(a), Core(b)), CompareSuffix(Suffix(a), Suffix(b)))
  }

  predicate IsNewer(candidate: string, installed: string) {
    candidate != installed && CompareCalver(candidate, installed) == Greater
  }

  lemma SuffixFlip(a: string, b: string)
    ensures CompareSuffix(b, a) == Flip(CompareSuffix(a, b))
    ensures CompareSuffix(a, b) == Equal <==> a == b
  {
    CompareFlip(Codes(a), Codes(b));
    CodesInjective(a, b);
  }

  lemma SuffixTransitive(a: string, b: string, c: string)
    requires CompareSuffix(a, b) == Less && CompareSuffix(b, c) == Less
    ensures CompareSuffix(a, c) == Less
  {
    if c != "" {
      CompareTransitive(Codes(a), Codes(b), Codes(c));
    }
  }

  // Two strings tie exactly when their numeric cores and their suffixes are the same.
  lemma CalverFlip(a: string, b: string)
    ensures CompareCalver(b, a) == Flip(CompareCalver(a, b))
    ensures CompareCalver(a, b) == Equal <==> Core(a) == Core(b) && Suffix(a) == Suffix(b)
  {
    CompareFlip(Core(a), Core(b));
    SuffixFlip(Suffix(a), Suffix(b));
  }

  lemma CalverTransitive(a: string, b: string, c: string)
    requires CompareCalver(a, b) == Less && CompareCalver(b, c) == Less
    ensures CompareCalver(a, c) == Less
  {
    hide Core, Suffix, Compare, CompareSuffix;
    CompareFlip(Core(a), Core(b));
    CompareFlip(Core(b), Core(c));
    CompareFlip(Core(a), Core(c));
    if Core(a) == Core(b) == Core(c) {
      SuffixTransitive(Suffix(a), Suffix(b), Suffix(c));
    } else if Core(a) != Core(b) && Core(b) != Core(c) {
      CompareTransitive(Core(a), Core(b), Core(c));
    }
  }

  // `IsNewer` is a strict weak order on all strings, and ties are equal cores and suffixes.
  lemma StrictWeakOrder(a: string, b: string, c: string)
    ensures !IsNewer(a, a)
    ensures IsNewer(a, b) ==> !IsNewer(b, a)
    ensures IsNewer(a, b) && IsNewer(b, c) ==> IsNewer(a, c)
    ensures IsNewer(a, c) ==> IsNewer(a, b) || IsNewer(b, c)
    ensures !IsNewer(a, b) && !IsNewer(b, a) <==> Core(a) == Core(b) && Suffix(a) == Suffix(b)
  {
    hide Core, Suffix, CompareCalver;
    CalverFlip(a, a);
    CalverFlip(a, b);
    CalverFlip(b, c);
    CalverFlip(a, c);
    if IsNewer(a, b) && IsNewer(b, c) {
      CalverTransitive(c, b, a);
    }
    if IsNewer(a, c) && !IsNewer(a, b) && !IsNewer(b, c) {
      if CompareCalver(a, b) == Less && CompareCalver(b, c) == Less {
        CalverTransitive(a, b, c);
      } else {
        TieTransfers(a, b, c);
      }
    }
  }

  // A tied string compares like the one it ties with.
  lemma TieTransfers(a: string, b: string, c: string)
    ensures CompareCalver(a, b) == Equal ==> CompareCalver(a, c) == CompareCalver(b, c)
    ensures CompareCalver(b, c) == Equal ==> CompareCalver(a, b) == CompareCalver(a, c)
  {
    CalverFlip(a, b);
    CalverFlip(b, c);
  }

  // ---- the shape a manifest may carry ----

  // A part of a release version: between `least` and `most` digits.
  predicate DigitPart(p: string, least: nat, most: nat) {
    least <= |p| <= most && AllDigits(p)
  }

  predicate IsValidReleaseVersion(s: string) {
    var (core, suffix) := SplitDash(s);
    suffix != Some("") &&
    var parts := SplitOn(core, '.');
    |parts| == 3 && DigitPart(parts[0], 4, 4) && DigitPart(parts[1], 1, 2) && DigitPart(parts[2], 1, 2)
  }

  // ---- a ladder of releases ----

  function PreRelease(core: string, suffix: string): string {
    core + "-" + suffix
  }

  // A core is newer than its second pre-release, and that than its first.
  lemma Ladder(core: string)
    requires '-' !in core
    ensures IsNewer(core, PreRelease(core, "b")) && IsNewer(PreRelease(core, "b"), PreRelease(core, "a"))
    ensures IsNewer(core, PreRelease(core, "a"))
  {
    hide Core, Suffix, CompareSuffix, Compare, PreRelease;
    SameCore(core, "a");
    SameCore(core, "b");
    SuffixLadder();
    CompareFlip(Core(core), Core(core));
  }

  lemma SameCore(core: string, suffix: string)
    requires '-' !in core && suffix != ""
    ensures Core(PreRelease(core, suffix)) == Core(core) && Suffix(PreRelease(core, suffix)) == suffix
    ensures Suffix(core) == "" && PreRelease(core, suffix) != core
  {
    hide SplitOn, Numbers;
    SplitAt(core, suffix);
    Absent(core, '-');
    assert |PreRelease(core, suffix)| > |core|;
  }

  lemma SuffixLadder()
    ensures CompareSuffix("", "a") == CompareSuffix("", "b") == CompareSuffix("b", "a") == Greater
  {
    assert Codes("b")[0] == 98 && Codes("a")[0] == 97;
  }

  // A suffix with a wide space at its end is newer than one that its trimmed form is older than.
  lemma WideSpace(core: string)
    requires '-' !in core
    ensures IsNewer(PreRelease(core, "a\U{2003}"), PreRelease(core, "a!"))
    ensures IsNewer(PreRelease(core, "a!"), PreRelease(core, "a"))
  {
    hide Core, Suffix, CompareSuffix, Compare, PreRelease;
    SameCore(core, "a\U{2003}");
    SameCore(core, "a!");
    SameCore(core, "a");
    WideSuffix();
    CompareFlip(Core(core), Core(core));
    StrictWeakOrder(PreRelease(core, "a!"), PreRelease(core, "a"), core);
  }

  lemma WideSuffix()
    ensures CompareSuffix("a\U{2003}", "a!") == Greater && CompareSuffix("a!", "a") == Greater
  {
    var wide, mark, plain := Codes("a\U{2003}"), Codes("a!"), Codes("a");
    assert wide[0] == mark[0] == plain[0] == 97 && wide[1] == 0x2003 && mark[1] == 33;
    assert wide[1..] == [0x2003] && mark[1..] == [33] && plain[1..] == [];
  }

  lemma SplitAt(core: string, suffix: string)
    requires '-' !in core
    ensures SplitDash(core + "-" + suffix) == (core, Some(suffix))
  {
    var s := core + "-" + suffix;
    assert s[..|core|] == core && s[|core| + 1..] == suffix;
    FindIs(s, '-', |core|);
  }
}
