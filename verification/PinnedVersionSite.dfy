/** Which line the `pinned_version` editor rewrites, and what counts as the profile section. */
module PinnedVersionSite {
  import opened Options
  import opened TextLines
  import opened PinnedVersion
  import opened PinnedVersionLens

  // ---- the line ----

  predicate AssignsVersion(line: string) {
    TryReplace(line, "").Some?
  }

  // The nearest header above the line is that of the profile section.
  predicate UnderProfile(lines: seq<string>, i: nat)
    requires i <= |lines|
  {
    exists h :: 0 <= h < i && IsHeader(lines[h]) && SectionName(lines[h]) == "profile"
                && forall k :: h < k < i ==> !IsHeader(lines[k])
  }

  // Where the section already is the profile's before the first line.
  predicate InProfile(lines: seq<string>, i: nat, inProfile: bool)
    requires i <= |lines|
  {
    UnderProfile(lines, i) || (inProfile && forall k :: 0 <= k < i ==> !IsHeader(lines[k]))
  }

  predicate IsSite(lines: seq<string>, i: nat, inProfile: bool)
    requires i < |lines|
  {
    !IsHeader(lines[i]) && AssignsVersion(lines[i]) && InProfile(lines, i, inProfile)
  }

  lemma ShiftProfile(lines: seq<string>, i: nat, inProfile: bool)
    requires lines != [] && i < |lines|
    ensures InProfile(lines, i + 1, inProfile) <==>
              InProfile(lines[1..], i, if IsHeader(lines[0]) then SectionName(lines[0]) == "profile" else inProfile)
  {
    hide IsHeader, SectionName;
    var rest := lines[1..];
    assert forall k :: 0 <= k < |rest| ==> rest[k] == lines[k + 1];
    if UnderProfile(rest, i) {
      var h :| 0 <= h < i && IsHeader(rest[h]) && SectionName(rest[h]) == "profile"
               && forall k :: h < k < i ==> !IsHeader(rest[k]);
      assert forall k :: h + 1 < k < i + 1 ==> lines[k] == rest[k - 1];
      assert IsHeader(lines[h + 1]) && UnderProfile(lines, i + 1);
    }
    if UnderProfile(lines, i + 1) {
      var h :| 0 <= h < i + 1 && IsHeader(lines[h]) && SectionName(lines[h]) == "profile"
               && forall k :: h < k < i + 1 ==> !IsHeader(lines[k]);
      if h > 0 {
        assert IsHeader(rest[h - 1]) && UnderProfile(rest, i);
      }
    }
    if !UnderProfile(rest, i) && (forall k :: 0 <= k < i ==> !IsHeader(rest[k])) {
      assert forall k :: 0 < k < i + 1 ==> lines[k] == rest[k - 1];
      if IsHeader(lines[0]) && SectionName(lines[0]) == "profile" {
        assert UnderProfile(lines, i + 1);
      }
    }
  }

  lemma {:induction false} TargetIsSite(lines: seq<string>, inProfile: bool, i: nat)
    requires i < |lines|
    ensures Target(lines, inProfile) == Some(i) <==>
              IsSite(lines, i, inProfile) && forall k :: 0 <= k < i ==> !IsSite(lines, k, inProfile)
    decreases |lines|
  {
    hide TryReplace, IsHeader, SectionName, UnderProfile;
    var rest := lines[1..];
    var next := if IsHeader(lines[0]) then SectionName(lines[0]) == "profile" else inProfile;
    assert InProfile(lines, 0, inProfile) <==> inProfile by { AtTheTop(lines, inProfile); }
    forall k: nat | k < |rest|
      ensures IsSite(lines, k + 1, inProfile) <==> IsSite(rest, k, next)
    {
      ShiftProfile(lines, k, inProfile);
    }
    if i > 0 {
      TargetIsSite(rest, next, i - 1);
      assert (forall k :: 0 <= k < i ==> !IsSite(lines, k, inProfile)) <==>
               !IsSite(lines, 0, inProfile) && forall k :: 0 <= k < i - 1 ==> !IsSite(rest, k, next) by {
        if (forall k :: 0 <= k < i - 1 ==> !IsSite(rest, k, next)) && !IsSite(lines, 0, inProfile) {
          forall k | 0 <= k < i
            ensures !IsSite(lines, k, inProfile)
          {
            assert k > 0 ==> !IsSite(rest, k - 1, next);
          }
        }
        if forall k :: 0 <= k < i ==> !IsSite(lines, k, inProfile) {
          forall k | 0 <= k < i - 1
            ensures !IsSite(rest, k, next)
          {
            assert !IsSite(lines, k + 1, inProfile);
          }
        }
      }
    }
  }

  lemma AtTheTop(lines: seq<string>, inProfile: bool)
    ensures InProfile(lines, 0, inProfile) <==> inProfile
  {
  }

  // A line is rewritten if and only if it assigns the version under a header of the profile
  // section, nearest above it, and no earlier line does.
  lemma SiteExactly(text: string, i: nat)
    ensures var lines := SplitInclusive(text);
            Site(text) == Some(i) <==>
              && i < |lines| && !IsHeader(lines[i]) && AssignsVersion(lines[i]) && UnderProfile(lines, i)
              && forall k :: 0 <= k < i && AssignsVersion(lines[k]) && UnderProfile(lines, k) ==> IsHeader(lines[k])
  {
    hide TryReplace, IsHeader, SectionName, SplitInclusive, UnderProfile;
    var lines := SplitInclusive(text);
    TargetBound(lines, false);
    if i < |lines| {
      TargetIsSite(lines, false, i);
      forall k: nat | k <= i
        ensures IsSite(lines, k, false) <==>
                  !IsHeader(lines[k]) && AssignsVersion(lines[k]) && UnderProfile(lines, k)
      {
      }
    }
  }

  // The edit fails if and only if there is no such line.
  lemma FailsExactly(text: string, version: string)
    ensures var lines := SplitInclusive(text);
            Bumped(text, version).None? <==>
              forall i :: 0 <= i < |lines| && AssignsVersion(lines[i]) && UnderProfile(lines, i) ==> IsHeader(lines[i])
  {
    hide TryReplace, IsHeader, SectionName, SplitInclusive, UnderProfile;
    var lines := SplitInclusive(text);
    TargetBound(lines, false);
    if Target(lines, false).Some? {
      SiteExactly(text, Target(lines, false).value);
    } else if i :| 0 <= i < |lines| && AssignsVersion(lines[i]) && UnderProfile(lines, i) && !IsHeader(lines[i]) {
      var first := FirstSite(lines, i);
      TargetIsSite(lines, false, first);
    }
  }

  lemma {:induction false} FirstSite(lines: seq<string>, i: nat) returns (first: nat)
    requires i < |lines| && IsSite(lines, i, false)
    ensures first <= i && IsSite(lines, first, false) && forall k :: 0 <= k < first ==> !IsSite(lines, k, false)
    decreases i
  {
    hide IsSite;
    first := i;
    if k :| 0 <= k < i && IsSite(lines, k, false) {
      first := FirstSite(lines, k);
    }
  }

  // ---- the section ----

  // A header with any white space around the brackets and inside them names its section.
  lemma HeaderNames(before: string, left: string, name: string, right: string, after: string)
    requires Blank(before) && Blank(left) && Blank(right) && Blank(after)
    requires Visible(name) && name[0] != '[' && name[|name| - 1] != ']'
    ensures var line := before + ("[" + (left + name + right) + "]") + after;
            IsHeader(line) && SectionName(line) == name
  {
    hide IsWhitespace, Trim;
    var inner := left + name + right;
    var bracketed := "[" + inner + "]";
    var line := before + bracketed + after;
    NotBlank();
    BracketVisible();
    assert line == before + (bracketed + after);
    TrimBlank(before, bracketed + after);
    TrimEndBlank(bracketed, after);
    assert TrimStart(line)[0] == '[';
    OuterBrackets(left, name, right);
    TrimBoth(left, name, right);
  }

  lemma BracketVisible()
    ensures !IsWhitespace(']') && !IsWhitespace('[')
  {
  }

  lemma OneLeading(s: string, c: char)
    requires s != [] && s[0] != c
    ensures DropLeading([c] + s, c) == s
  {
    assert ([c] + s)[1..] == s;
  }

  lemma OneTrailing(s: string, c: char)
    requires s != [] && s[|s| - 1] != c
    ensures DropTrailing(s + [c], c) == s
  {
    assert (s + [c])[..|s|] == s;
  }

  // Text with visible ends: what stands around it are blanks.
  lemma InnerEnds(left: string, name: string, right: string)
    requires Blank(left) && Blank(right) && Visible(name) && name[0] != '[' && name[|name| - 1] != ']'
    ensures var inner := left + name + right;
            inner != [] && inner[0] != '[' && inner[|inner| - 1] != ']'
  {
    hide IsWhitespace;
    BracketVisible();
    var inner := left + name + right;
    if left != "" {
      assert inner[0] == left[0] && IsWhitespace(left[0]);
    }
    if right != "" {
      assert inner[|inner| - 1] == right[|right| - 1] && IsWhitespace(right[|right| - 1]);
    }
  }

  lemma OuterBrackets(left: string, name: string, right: string)
    requires Blank(left) && Blank(right) && Visible(name) && name[0] != '[' && name[|name| - 1] != ']'
    ensures DropTrailing(DropLeading("[" + (left + name + right) + "]", '['), ']') == left + name + right
  {
    hide DropLeading, DropTrailing, Blank, Visible;
    InnerEnds(left, name, right);
    var inner := left + name + right;
    assert "[" + inner + "]" == ['['] + (inner + "]");
    OneLeading(inner + "]", '[');
    OneTrailing(inner, ']');
  }

  // ---- the plainest file ----

  lemma PlainLine(v: string)
    requires Clean(v)
    ensures var a := Assignment("", " ", " ", v, "\n");
            Render(a) == "pinned_version = \"" + v + "\"\n" && WellShaped(a)
  {
    var a := Assignment("", " ", " ", v, "\n");
    assert Render(a) == "pinned_version" + ((" " + "=") + (" " + ("\"" + (v + ("\"" + "\n")))));
    assert Render(a) == "pinned_version = \"" + v + "\"\n";
  }

  lemma PlainLines(v: string)
    requires Clean(v)
    ensures LineSeq(["[profile]\n", "pinned_version = \"" + v + "\"\n"])
  {
    var l := "pinned_version = \"" + v + "\"\n";
    assert Line("[profile]\n") && Line(l);
  }

  lemma ProfileVisible()
    ensures Visible("profile") && Blank("\n") && Blank("")
  {
  }

  lemma ProfileHeader()
    ensures IsHeader("[profile]\n") && SectionName("[profile]\n") == "profile"
  {
    hide IsHeader, SectionName, Visible, Blank, IsWhitespace;
    ProfileVisible();
    HeaderNames("", "", "profile", "", "\n");
    assert "" + ("[" + ("" + "profile" + "") + "]") + "\n" == "[profile]\n";
  }

  // The header and one assignment: the version there is reported and replaced.
  lemma PlainFile(v: string, w: string)
    requires Clean(v) && Clean(w)
    ensures Bumped("[profile]\n" + ("pinned_version = \"" + v + "\"\n"), w)
         == Some(Patch("[profile]\n" + ("pinned_version = \"" + w + "\"\n"), v))
  {
    hide TryReplace, IsHeader, SectionName, SplitInclusive, Render, Line, Assign, WellShaped, NewGap;
    var header := "[profile]\n";
    var a := Assignment("", " ", " ", v, "\n");
    var line, next := "pinned_version = \"" + v + "\"\n", "pinned_version = \"" + w + "\"\n";
    PlainLine(v);
    PlainLine(w);
    PlainLines(v);
    ProfileHeader();
    SplitOfConcat([header, line]);
    ConcatTwo(header, line);
    ConcatTwo(header, next);
    AssignmentIsNoHeader(a);
    MatchOf(a, "");
    MatchOf(a, w);
    assert [header, line][1..] == [line] && [line][1..] == [];
    assert Target([header, line], false) == Some(1);
    assert Assign(a, w) == Assignment("", " ", " ", w, "\n") by { OneSpace(a, w); }
    assert [header, line][1 := next] == [header, next];
  }

  lemma OneSpace(a: Assignment, w: string)
    requires a.gap == " "
    ensures Assign(a, w) == a.(value := w)
  {
    assert LeadingSpaces(" ") == 1 && Spaces(1) == " ";
  }

  lemma ConcatTwo(x: string, y: string)
    ensures Concat([x, y]) == x + y
  {
    assert [x, y][1..] == [y] && [y][1..] == [] && Concat([y]) == y + Concat([]);
  }
}
