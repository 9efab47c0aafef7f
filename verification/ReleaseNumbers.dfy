/**
 Releases as printed numbers: what the updater's and the tracker's order mean for them, and the
 exact shape of a valid release.
 */
module ReleaseNumbers {
  import opened Decimal
  import opened Options
  import opened Ordering
  import opened TextLines
  import opened Timestamp
  import opened ReleaseVersion
  import opened ReleaseText
  import opened TrackedVersion

  // ---- printed numbers ----

  // A printed number is read as itself below the width of the type, and refused above it.
  lemma PrintedParses(n: nat, width: nat, limit: nat)
    ensures ParseUnsigned(PadNat(n, width), limit) == if n < limit then Some(n) else None
    ensures ParseUnsigned("+" + PadNat(n, width), limit) == if n < limit then Some(n) else None
  {
    var s := PadNat(n, width);
    DigitsOfPad(n, width);
    assert IsDigit(s[0]);
    assert ("+" + s)[1..] == s;
  }

  // What is not a number at all is refused, and counts as zero for the updater.
  lemma OtherRefused(s: string, limit: nat)
    requires s == "" || s == "+" || exists i :: 0 < i < |s| && !IsDigit(s[i])
    ensures ParseUnsigned(s, limit) == None && Number(s) == 0
  {
    if i :| 0 < i < |s| && !IsDigit(s[i]) {
      assert s[1..][i - 1] == s[i];
    } else {
      assert "+"[1..] == "";
    }
  }

  // ---- dotted numbers ----

  // A number as it may be written, with zeros up to a width.
  datatype Printed = Printed(n: nat, width: nat)

  function Text(p: Printed): string {
    PadNat(p.n, p.width)
  }

  function Dotted(y: Printed, m: Printed, d: Printed): string {
    Text(y) + "." + (Text(m) + "." + Text(d))
  }

  lemma PrintedApart(p: Printed)
    ensures '.' !in Text(p) && '-' !in Text(p) && 'v' !in Text(p) && Text(p) != ""
  {
    DigitsOfPad(p.n, p.width);
    DigitsApart(Text(p));
  }

  lemma DottedParts(y: Printed, m: Printed, d: Printed)
    ensures SplitOn(Dotted(y, m, d), '.') == [Text(y), Text(m), Text(d)] && '-' !in Dotted(y, m, d)
    ensures Dotted(y, m, d) != "" && Dotted(y, m, d)[0] != 'v'
  {
    hide SplitOn, Text;
    PrintedApart(y);
    PrintedApart(m);
    PrintedApart(d);
    SplitFirst(Text(y), '.', Text(m) + "." + Text(d));
    SplitFirst(Text(m), '.', Text(d));
    SplitWhole(Text(d), '.');
    assert Dotted(y, m, d)[0] == Text(y)[0] && Text(y)[0] in Text(y);
  }

  // A release: three numbers, and a suffix unless it is empty.
  function Release(y: Printed, m: Printed, d: Printed, suffix: string): string {
    if suffix == "" then Dotted(y, m, d) else PreRelease(Dotted(y, m, d), suffix)
  }

  predicate Fits32(y: Printed, m: Printed, d: Printed) {
    y.n < 0x1_0000_0000 && m.n < 0x1_0000_0000 && d.n < 0x1_0000_0000
  }

  lemma ReleaseReads(y: Printed, m: Printed, d: Printed, suffix: string)
    requires Fits32(y, m, d)
    ensures Core(Release(y, m, d, suffix)) == [y.n, m.n, d.n] && Suffix(Release(y, m, d, suffix)) == suffix
  {
    hide SplitOn, PreRelease, Dotted, ParseUnsigned;
    DottedParts(y, m, d);
    PrintedParses(y.n, y.width, U32);
    PrintedParses(m.n, m.width, U32);
    PrintedParses(d.n, d.width, U32);
    assert Core(Dotted(y, m, d)) == [y.n, m.n, d.n] by { DashFree(Dotted(y, m, d)); }
    DashFree(Dotted(y, m, d));
    if suffix != "" {
      SameCore(Dotted(y, m, d), suffix);
    }
  }

  predicate LaterDate(y: nat, m: nat, d: nat, y': nat, m': nat, d': nat) {
    y > y' || (y == y' && (m > m' || (m == m' && d > d')))
  }

  lemma CompareDates(y: nat, m: nat, d: nat, y': nat, m': nat, d': nat)
    ensures Compare([y, m, d], [y', m', d']) == Greater <==> LaterDate(y, m, d, y', m', d')
    ensures Compare([y, m, d], [y', m', d']) == Equal <==> y == y' && m == m' && d == d'
  {
    var a, b := [y, m, d], [y', m', d'];
    assert a[1..] == [m, d] && a[1..][1..] == [d] && a[1..][1..][1..] == [];
    assert b[1..] == [m', d'] && b[1..][1..] == [d'] && b[1..][1..][1..] == [];
    assert Compare([d], [d']) == CompareInt(d, d');
    assert Compare([m, d], [m', d']) == Then(CompareInt(m, m'), CompareInt(d, d'));
  }

  // Comparison by code point is the order of texts.
  lemma {:induction false} CompareIsLex(a: string, b: string)
    ensures Compare(Codes(a), Codes(b)) == Greater <==> LexLess(b, a)
    decreases |a|
  {
    if a != [] && b != [] {
      assert Codes(a)[1..] == Codes(a[1..]) && Codes(b)[1..] == Codes(b[1..]);
      CompareIsLex(a[1..], b[1..]);
    }
  }

  // No suffix is the latest; of two suffixes the later text is.
  predicate LaterSuffix(s: string, t: string) {
    t != "" && (s == "" || LexLess(t, s))
  }

  lemma SuffixIsLater(s: string, t: string)
    ensures CompareSuffix(s, t) == Greater <==> LaterSuffix(s, t)
  {
    hide Compare, LexLess;
    CompareIsLex(s, t);
  }

  // A release is newer than another if and only if its year, month and day, as numbers, are
  // later, or they are the same and its suffix is later; zeros in front play no part.
  lemma NewerExactly(y: Printed, m: Printed, d: Printed, s: string, y': Printed, m': Printed, d': Printed, t: string)
    requires Fits32(y, m, d) && Fits32(y', m', d')
    ensures IsNewer(Release(y, m, d, s), Release(y', m', d', t)) <==>
              || LaterDate(y.n, m.n, d.n, y'.n, m'.n, d'.n)
              || (y.n == y'.n && m.n == m'.n && d.n == d'.n && LaterSuffix(s, t))
  {
    hide Core, Suffix, Compare, CompareSuffix, Release, LaterSuffix;
    var a, b := Release(y, m, d, s), Release(y', m', d', t);
    ReleaseReads(y, m, d, s);
    ReleaseReads(y', m', d', t);
    CompareDates(y.n, m.n, d.n, y'.n, m'.n, d'.n);
    SuffixIsLater(s, t);
    CalverFlip(a, a);
  }

  // So the tenth is newer than the ninth.
  lemma TenIsNewer()
    ensures IsNewer("2026.4.10", "2026.4.9") && !IsNewer("2026.4.9", "2026.4.10")
  {
    hide IsNewer, PadNat, LaterSuffix;
    var y, m, nine, ten := Printed(2026, 1), Printed(4, 1), Printed(9, 1), Printed(10, 1);
    PrintedTexts();
    assert Release(y, m, ten, "") == "2026.4.10" && Release(y, m, nine, "") == "2026.4.9";
    NewerExactly(y, m, ten, "", y, m, nine, "");
    NewerExactly(y, m, nine, "", y, m, ten, "");
  }

  lemma PrintedTexts()
    ensures PadNat(2026, 1) == "2026" && PadNat(4, 1) == "4" && PadNat(9, 1) == "9" && PadNat(10, 1) == "10"
  {
    assert PadNat(2, 0) == "2" && PadNat(20, 0) == PadNat(2, 0) + "0" == "20";
    assert PadNat(202, 0) == PadNat(20, 0) + "2" == "202" && PadNat(2026, 1) == PadNat(202, 0) + "6";
    assert PadNat(1, 0) == "1" && PadNat(10, 1) == PadNat(1, 0) + "0";
  }

  // A device without a version file takes every release of a year after zero.
  lemma FirstInstall(y: Printed, m: Printed, d: Printed, s: string)
    requires Fits32(y, m, d) && y.n > 0
    ensures IsNewer(Release(y, m, d, s), AsRead("")) && AsRead("") == "0.0.0"
  {
    hide IsNewer, LaterSuffix;
    var zero := Printed(0, 1);
    assert Release(zero, zero, zero, "") == "0.0.0";
    NewerExactly(y, m, d, s, zero, zero, zero, "");
  }

  // ---- the shape of a valid release ----

  // Four, one or two, and one or two digits, and a suffix that is not empty if there is one.
  predicate Shaped(y: string, m: string, d: string, suffix: Option<string>) {
    && |y| == 4 && 1 <= |m| <= 2 && 1 <= |d| <= 2 && AllDigits(y) && AllDigits(m) && AllDigits(d)
    && suffix != Some("")
  }

  function Spelt(y: string, m: string, d: string, suffix: Option<string>): string {
    y + "." + (m + "." + d) + match suffix case None => "" case Some(s) => "-" + s
  }

  lemma ShapedIsValid(y: string, m: string, d: string, suffix: Option<string>)
    requires Shaped(y, m, d, suffix)
    ensures IsValidReleaseVersion(Spelt(y, m, d, suffix))
  {
    hide SplitOn, AllDigits, SplitDash;
    DigitsApart(y);
    DigitsApart(m);
    DigitsApart(d);
    SplitFirst(y, '.', m + "." + d);
    SplitFirst(m, '.', d);
    SplitWhole(d, '.');
    var core := y + "." + (m + "." + d);
    assert '-' !in core;
    match suffix
    case None =>
      assert core + "" == core;
      DashFree(core);
    case Some(s) =>
      assert core + ("-" + s) == core + "-" + s;
      SplitAt(core, s);
  }

  lemma {:induction false} JoinOfSplit(s: string, c: char)
    ensures Joined(SplitOn(s, c), c) == s
    decreases |s|
  {
    var i := Find(s, c);
    if i < |s| {
      JoinOfSplit(s[i + 1..], c);
      assert SplitOn(s, c)[1..] == SplitOn(s[i + 1..], c);
      assert s == s[..i] + [c] + s[i + 1..];
    }
  }

  function Joined(parts: seq<string>, c: char): string
    requires parts != []
  {
    if |parts| == 1 then parts[0] else parts[0] + [c] + Joined(parts[1..], c)
  }

  // Every valid release has that shape.
  lemma ValidIsShaped(s: string) returns (y: string, m: string, d: string, suffix: Option<string>)
    requires IsValidReleaseVersion(s)
    ensures Shaped(y, m, d, suffix) && s == Spelt(y, m, d, suffix)
  {
    hide SplitOn, AllDigits, Joined;
    var i := Find(s, '-');
    var core := SplitDash(s).0;
    suffix := SplitDash(s).1;
    var parts := SplitOn(core, '.');
    y, m, d := parts[0], parts[1], parts[2];
    JoinOfSplit(core, '.');
    assert parts == [y, m, d];
    JoinThree(y, m, d);
    assert i < |s| ==> s == s[..i] + ("-" + s[i + 1..]);
    assert i == |s| ==> core + "" == s;
  }

  lemma JoinThree(y: string, m: string, d: string)
    ensures Joined([y, m, d], '.') == y + "." + (m + "." + d)
  {
    assert [y, m, d][1..] == [m, d] && [m, d][1..] == [d];
    assert Joined([d], '.') == d && Joined([m, d], '.') == m + "." + d;
  }

  // ---- the tracker's reading ----

  // A leading `v` changes nothing but the text kept.
  lemma TagReads(s: string)
    requires s == "" || s[0] != 'v'
    ensures Parse("v" + s) == match Parse(s)
                              case Err(e) => Err(e)
                              case Ok(v) => Ok(v.(raw := "v" + s))
  {
    hide SplitOn, SplitDash, ParseUnsigned;
    var t := "v" + s;
    assert t[0] == 'v' && t[1..] == s && t != [];
  }

  // Three printed numbers and a suffix read as themselves if and only if they fit 64 bits.
  lemma TrackedReads(y: Printed, m: Printed, d: Printed, suffix: string)
    ensures var s := Release(y, m, d, suffix);
            if y.n < 0x1_0000_0000_0000_0000 && m.n < 0x1_0000_0000_0000_0000 && d.n < 0x1_0000_0000_0000_0000 then
              Parse(s) == Ok(Version(s, y.n, m.n, d.n, if suffix == "" then None else Some(suffix)))
            else Parse(s).Err?
  {
    hide SplitOn, SplitDash, Dotted, Text, ParseUnsigned;
    DottedParts(y, m, d);
    PrintedParses(y.n, y.width, U64);
    PrintedParses(m.n, m.width, U64);
    PrintedParses(d.n, d.width, U64);
    assert Text(y) == PadNat(y.n, y.width) && Text(m) == PadNat(m.n, m.width) && Text(d) == PadNat(d.n, d.width) by {
      TextIs(y);
      TextIs(m);
      TextIs(d);
    }
    DashFree(Dotted(y, m, d));
    if suffix != "" {
      SplitAt(Dotted(y, m, d), suffix);
      assert PreRelease(Dotted(y, m, d), suffix)[0] == Dotted(y, m, d)[0];
    }
  }

  lemma TextIs(p: Printed)
    ensures Text(p) == PadNat(p.n, p.width)
  {
  }

  // A part that is no number makes it refuse the text.
  lemma TrackedRefuses(s: string, k: nat)
    requires '-' !in s && (s == "" || s[0] != 'v') && k < 3 && k < |SplitOn(s, '.')|
    requires ParseUnsigned(SplitOn(s, '.')[k], U64) == None
    ensures Parse(s).Err?
  {
    hide SplitOn, ParseUnsigned;
    DashFree(s);
  }
}
