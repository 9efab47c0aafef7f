/** The tracker's version order, written separately, and its agreement with the updater's. */
module TrackedVersion {
  import opened Decimal
  import opened Options
  import opened Ordering
  import opened ReleaseVersion
  import opened TextLines

  datatype Version = Version(raw: string, major: int, minor: int, patch: int, suffix: Option<string>)

  datatype Error = BadPart(part: string)

  // The k-th part, 0 when there is none.
  function ParsePart(parts: seq<string>, k: nat): Result<int, Error> {
    if k >= |parts| then Ok(0)
    else
      match ParseUnsigned(parts[k], U64)
      case None => Err(BadPart(parts[k]))
      case Some(n) => Ok(n)
  }

  function Parse(s: string): Result<Version, Error> {
    var trimmed := if s != [] && s[0] == 'v' then s[1..] else s;
    var (core, suffix) := SplitDash(trimmed);
    var parts := SplitOn(core, '.');
    match ParsePart(parts, 0)
    case Err(e) => Err(e)
    case Ok(major) =>
      match ParsePart(parts, 1)
      case Err(e) => Err(e)
      case Ok(minor) =>
        match ParsePart(parts, 2)
        case Err(e) => Err(e)
        case Ok(patch) => Ok(Version(s, major, minor, patch, suffix))
  }

  function CompareParts(a: Version, b: Version): Order {
    Then(CompareInt(a.major, b.major), Then(CompareInt(a.minor, b.minor), CompareInt(a.patch, b.patch)))
  }

  function CompareVersions(a: Version, b: Version): Order {
    Then(CompareParts(a, b),
         match (a.suffix, b.suffix)
         case (Some(x), Some(y)) => Compare(Codes(x), Codes(y))
         case (Some(_), None) => Less
         case (None, Some(_)) => Greater
         case (None, None) => Equal)
  }

  // ---- agreement ----

  function Power10(n: nat): nat {
    if n == 0 then 1 else 10 * Power10(n - 1)
  }

  lemma {:induction false} ValueBound(s: string)
    requires AllDigits(s)
    ensures DigitsValue(s) < Power10(|s|)
  {
    if s != [] {
      assert IsDigit(s[|s| - 1]);
      ValueBound(s[..|s| - 1]);
    }
  }

  // A short run of digits parses alike at either width.
  lemma PartParses(p: string, least: nat)
    requires least > 0 && DigitPart(p, least, 4)
    ensures ParseUnsigned(p, U64) == Some(DigitsValue(p)) && Number(p) == DigitsValue(p)
  {
    assert IsDigit(p[0]);
    ValueBound(p);
    assert Power10(|p|) <= 10000 by {
      assert Power10(0) == 1 && Power10(1) == 10 && Power10(2) == 100 && Power10(3) == 1000 && Power10(4) == 10000;
    }
  }

  // The first part of a split begins as the text does.
  lemma FirstChar(s: string)
    requires var p := SplitOn(SplitDash(s).0, '.')[0]; p != [] && IsDigit(p[0])
    ensures s != [] && s[0] != 'v'
  {
  }

  // A valid release version parses, to the numbers and the suffix the updater sees.
  lemma ValidParses(s: string)
    requires IsValidReleaseVersion(s)
    ensures Parse(s).Ok?
    ensures var v := Parse(s).value;
            && Core(s) == [v.major, v.minor, v.patch]
            && v.suffix != Some("") && Suffix(s) == (if v.suffix.Some? then v.suffix.value else "")
  {
    hide SplitOn, SplitDash, ParseUnsigned, AllDigits, Number;
    var parts := SplitOn(SplitDash(s).0, '.');
    PartParses(parts[0], 4);
    PartParses(parts[1], 1);
    PartParses(parts[2], 1);
    assert IsDigit(parts[0][0]) by { FirstDigit(parts[0]); }
    FirstChar(s);
  }

  lemma FirstDigit(p: string)
    requires p != [] && AllDigits(p)
    ensures IsDigit(p[0])
  {
  }

  lemma CompareThree(a: Version, b: Version)
    ensures Compare([a.major, a.minor, a.patch], [b.major, b.minor, b.patch]) == CompareParts(a, b)
  {
    var x, y := [a.major, a.minor, a.patch], [b.major, b.minor, b.patch];
    assert x[1..] == [a.minor, a.patch] && y[1..] == [b.minor, b.patch];
    assert x[1..][1..] == [a.patch] && y[1..][1..] == [b.patch];
    assert Compare(x[1..][1..], y[1..][1..]) == CompareInt(a.patch, b.patch);
    assert Compare(x[1..], y[1..]) == Then(CompareInt(a.minor, b.minor), CompareInt(a.patch, b.patch));
  }

  // On valid release versions the two orders are the same order.
  lemma OrdersAgree(a: string, b: string)
    requires IsValidReleaseVersion(a) && IsValidReleaseVersion(b)
    ensures Parse(a).Ok? && Parse(b).Ok?
    ensures CompareVersions(Parse(a).value, Parse(b).value) == CompareCalver(a, b)
    ensures IsNewer(a, b) <==> CompareVersions(Parse(a).value, Parse(b).value) == Greater
  {
    hide Parse, Core, Suffix, IsValidReleaseVersion;
    ValidParses(a);
    ValidParses(b);
    CompareThree(Parse(a).value, Parse(b).value);
    CalverFlip(a, a);
  }

  // ---- dotted numbers of any length ----

  // Numbers that both programs can hold, separated by dots.
  predicate DottedNumbers(s: string) {
    '-' !in s && forall p :: p in SplitOn(s, '.') ==> p != "" && AllDigits(p) && DigitsValue(p) < U32
  }

  // The first n numbers, zeros where there are none.
  function Padded(n: nat, ns: seq<int>): (r: seq<int>)
    ensures |r| == n && forall k :: 0 <= k < n ==> r[k] == if k < |ns| then ns[k] else 0
  {
    if n == 0 then []
    else if ns == [] then [0] + Padded(n - 1, [])
    else [ns[0]] + Padded(n - 1, ns[1..])
  }

  // Where padding leaves two lists different it keeps their order.
  lemma {:induction false} PaddingKeepsOrder(n: nat, x: seq<int>, y: seq<int>)
    requires (forall k :: 0 <= k < |x| ==> x[k] >= 0) && forall k :: 0 <= k < |y| ==> y[k] >= 0
    ensures Padded(n, x) != Padded(n, y) ==> Compare(Padded(n, x), Padded(n, y)) == Compare(x, y)
    decreases n
  {
    if n > 0 {
      var x', y' := if x == [] then [] else x[1..], if y == [] then [] else y[1..];
      PaddingKeepsOrder(n - 1, x', y');
      assert Padded(n, x)[1..] == Padded(n - 1, x') && Padded(n, y)[1..] == Padded(n - 1, y');
    }
  }

  // The tracker keeps the first three numbers.
  lemma DottedParses(s: string)
    requires DottedNumbers(s)
    ensures Parse(s).Ok? && Suffix(s) == "" && Parse(s).value.suffix == None
    ensures var v := Parse(s).value; [v.major, v.minor, v.patch] == Padded(3, Core(s))
    ensures forall k :: 0 <= k < |Core(s)| ==> Core(s)[k] >= 0
  {
    hide SplitOn, SplitDash, Find, AllDigits, Padded;
    DashFree(s);
    var parts := SplitOn(s, '.');
    forall p | p in parts
      ensures ParseUnsigned(p, U64) == Some(Number(p)) && Number(p) >= 0 && p[0] != 'v'
    {
      DigitsParse(p);
    }
    FirstPart(s, '.');
    assert parts[0] in parts && s[0] == parts[0][0];
    assert |parts| > 1 ==> parts[1] in parts;
    assert |parts| > 2 ==> parts[2] in parts;
  }

  lemma DigitsParse(p: string)
    requires p != "" && AllDigits(p) && DigitsValue(p) < U32
    ensures ParseUnsigned(p, U64) == Some(Number(p)) && Number(p) >= 0 && p[0] != 'v'
  {
    assert IsDigit(p[0]);
  }

  // On dotted numbers the two orders differ if and only if the first three, padded with zeros,
  // are the same and the lists are not.
  lemma OrdersDifferExactly(a: string, b: string)
    requires DottedNumbers(a) && DottedNumbers(b)
    ensures Parse(a).Ok? && Parse(b).Ok?
    ensures CompareVersions(Parse(a).value, Parse(b).value) != CompareCalver(a, b)
            <==> Padded(3, Core(a)) == Padded(3, Core(b)) && Core(a) != Core(b)
  {
    hide Parse, Core, Suffix, DottedNumbers, Padded, Compare;
    DottedParses(a);
    DottedParses(b);
    CompareThree(Parse(a).value, Parse(b).value);
    PaddingKeepsOrder(3, Core(a), Core(b));
    CompareFlip(Core(a), Core(b));
    CompareFlip(Padded(3, Core(a)), Padded(3, Core(b)));
  }

  lemma DigitsApart(p: string)
    requires AllDigits(p)
    ensures '.' !in p && '-' !in p && 'v' !in p
  {
    assert forall c :: c in p ==> IsDigit(c);
  }

  // For example: a missing part is zero to the tracker, and less than zero to the updater.
  lemma MissingPartDiffers(x: string, y: string)
    requires DigitPart(x, 1, 4) && DigitPart(y, 1, 4)
    ensures var a, b := x + "." + y, x + "." + (y + "." + "0");
            && CompareCalver(a, b) == Less
            && Parse(a).Ok? && Parse(b).Ok?
            && CompareVersions(Parse(a).value, Parse(b).value) == Equal
  {
    hide SplitOn, Find, ParseUnsigned, AllDigits, Number, Compare, SplitDash;
    var a, b := x + "." + y, x + "." + (y + "." + "0");
    assert DigitPart("0", 1, 4) by { ZeroIsDigits(); }
    DigitsApart(x);
    DigitsApart(y);
    PartParses(x, 1);
    PartParses(y, 1);
    PartParses("0", 1);
    SplitWhole(y, '.');
    SplitWhole("0", '.');
    SplitFirst(x, '.', y);
    SplitFirst(x, '.', y + "." + "0");
    SplitFirst(y, '.', "0");
    DashFree(a);
    DashFree(b);
    assert a[0] == x[0] && b[0] == x[0] && x[0] in x;
    assert Core(a) == [Number(x), Number(y)];
    assert Core(b) == [Number(x), Number(y), Number("0")];
    assert [Number(x), Number(y)] + [Number("0")] == Core(b);
    PrefixIsLess([Number(x), Number(y)], Number("0"));
    ZeroIsDigits();
    assert Parse(a) == Ok(Version(a, DigitsValue(x), DigitsValue(y), 0, None));
    assert Parse(b) == Ok(Version(b, DigitsValue(x), DigitsValue(y), 0, None));
  }

  lemma ZeroIsDigits()
    ensures AllDigits("0") && DigitsValue("0") == 0
  {
    assert "0"[..0] == [];
  }

  lemma DashFree(s: string)
    requires '-' !in s
    ensures SplitDash(s) == (s, None)
  {
    Absent(s, '-');
  }

  lemma {:induction false} PrefixIsLess(a: seq<int>, n: int)
    ensures Compare(a, a + [n]) == Less
  {
    if a != [] {
      assert (a + [n])[1..] == a[1..] + [n];
      PrefixIsLess(a[1..], n);
    }
  }
}
