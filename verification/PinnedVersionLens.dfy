/**
 The laws of the `pinned_version` editor. A matching line is taken apart into the pieces the
 rewrite keeps; from there the three lens laws and the frame follow on whole files.
 */
module PinnedVersionLens {
  import opened Options
  import opened TextLines
  import opened PinnedVersion

  // A quoted assignment: indent, key, pad, `=`, gap, the quoted value, and whatever follows.
  datatype Assignment = Assignment(indent: string, pad: string, gap: string, value: string, tail: string)

  function Render(a: Assignment): string {
    a.indent + (KEY + ((a.pad + "=") + (a.gap + ("\"" + (a.value + ("\"" + a.tail))))))
  }

  predicate WellShaped(a: Assignment) {
    Blank(a.indent) && Blank(a.pad) && Blank(a.gap) && '"' !in a.value
  }

  // The gap the rewrite leaves: the leading spaces, at least one.
  function NewGap(gap: string): string {
    Spaces(if LeadingSpaces(gap) == 0 then 1 else LeadingSpaces(gap))
  }

  function Assign(a: Assignment, version: string): Assignment {
    a.(gap := NewGap(a.gap), value := version)
  }

  // A version that neither closes the quotes nor ends the line.
  predicate Clean(version: string) {
    '"' !in version && '\n' !in version
  }

  // ---- finding the pieces ----

  lemma FindPast(b: string, c: char, s: string)
    requires c !in b && s != [] && s[0] == c
    ensures Find(b + s, c) == |b|
  {
    FindIs(b + s, c, |b|);
  }

  lemma {:induction false} FindKeyPast(b: string, s: string)
    requires Blank(b) && KEY <= s
    ensures FindText(b + s, KEY) == |b|
  {
    if b == [] {
      assert b + s == s;
    } else {
      assert (b + s)[1..] == b[1..] + s;
      assert IsWhitespace(b[0]) && (b + s)[0] != KEY[0];
      FindKeyPast(b[1..], s);
    }
  }

  lemma {:induction false} LeadingOf(gap: string, s: string)
    requires s != [] && s[0] != ' '
    ensures LeadingSpaces(gap + s) == LeadingSpaces(gap)
  {
    if gap == [] {
      assert gap + s == s;
    } else {
      assert (gap + s)[1..] == gap[1..] + s;
      LeadingOf(gap[1..], s);
    }
  }

  lemma {:induction false} LeadingAll(n: nat)
    ensures LeadingSpaces(Spaces(n)) == n
  {
    if n > 0 {
      assert Spaces(n)[1..] == Spaces(n - 1);
      LeadingAll(n - 1);
    }
  }

  lemma AfterQuoteOf(pad: string, gap: string, rest: string)
    requires Blank(pad) && Blank(gap)
    ensures AfterQuote((pad + "=") + (gap + ("\"" + rest))) == Some(rest)
  {
    hide TrimStart, IsWhitespace;
    var quoted := "\"" + rest;
    NotBlank();
    assert (pad + "=") + (gap + quoted) == pad + ("=" + (gap + quoted));
    TrimBlank(pad, "=" + (gap + quoted));
    assert ("=" + (gap + quoted))[1..] == gap + quoted;
    TrimBlank(gap, quoted);
    assert quoted[1..] == rest;
  }

  lemma RewrittenOf(pad: string, gap: string, rest: string, version: string, tail: string)
    requires Blank(pad)
    ensures Rewritten((pad + "=") + (gap + ("\"" + rest)), version, tail)
         == Some((pad + "=") + (NewGap(gap) + ("\"" + (version + ("\"" + tail)))))
  {
    hide Find, LeadingSpaces, IsWhitespace;
    var post := gap + ("\"" + rest);
    var between := (pad + "=") + post;
    NotBlank();
    BlankHas(pad, '=');
    assert between == pad + ("=" + post);
    FindPast(pad, '=', "=" + post);
    assert between[|pad| + 1..] == post && between[..|pad| + 1] == pad + "=";
    LeadingOf(gap, "\"" + rest);
  }

  lemma BlankHas(b: string, c: char)
    requires Blank(b) && !IsWhitespace(c)
    ensures c !in b
  {
  }

  // Every rendered assignment matches, and rewriting replaces the gap and the value.
  lemma MatchOf(a: Assignment, version: string)
    requires WellShaped(a)
    ensures TryReplace(Render(a), version) == Some((a.value, Render(Assign(a, version))))
  {
    hide FindText, Find, NewGap, Rewritten, AfterQuote, IsWhitespace;
    var rest := a.value + ("\"" + a.tail);
    var between := (a.pad + "=") + (a.gap + ("\"" + rest));
    var line := Render(a);
    FindKeyPast(a.indent, KEY + between);
    assert line[..|a.indent|] == a.indent;
    assert line[|a.indent| + |KEY|..] == between;
    AfterQuoteOf(a.pad, a.gap, rest);
    FindPast(a.value, '"', "\"" + a.tail);
    assert rest[..|a.value|] == a.value && rest[|a.value| + 1..] == a.tail;
    RewrittenOf(a.pad, a.gap, rest, version, a.tail);
  }

  lemma NotBlank()
    ensures !IsWhitespace('=') && !IsWhitespace('"') && !IsWhitespace('p') && !IsWhitespace('[')
  {
  }

  lemma TrimShape(s: string) returns (b: string)
    ensures Blank(b) && s == b + TrimStart(s)
  {
    hide IsWhitespace;
    b := s[..|s| - |TrimStart(s)|];
  }

  lemma AfterQuoteShape(between: string) returns (pad: string, gap: string)
    requires AfterQuote(between).Some?
    ensures Blank(pad) && Blank(gap)
    ensures between == (pad + "=") + (gap + ("\"" + AfterQuote(between).value))
  {
    hide TrimStart, IsWhitespace, Blank, Find, FindText;
    var after := TrimStart(between);
    var quoted := TrimStart(after[1..]);
    pad := TrimShape(between);
    gap := TrimShape(after[1..]);
    assert quoted == "\"" + quoted[1..];
    assert after == "=" + (gap + quoted);
    assert pad + after == (pad + "=") + (gap + quoted);
  }

  // Every matching line is a rendered assignment.
  lemma ShapeOf(line: string, version: string) returns (a: Assignment)
    requires TryReplace(line, version).Some?
    ensures WellShaped(a) && Render(a) == line
  {
    hide IsWhitespace, FindText, Find, AfterQuote, Rewritten;
    var keyIdx := FindText(line, KEY);
    var between := line[keyIdx + |KEY|..];
    var pad, gap := AfterQuoteShape(between);
    var rest := AfterQuote(between).value;
    var close := Find(rest, '"');
    assert rest == rest[..close] + ("\"" + rest[close + 1..]);
    a := Assignment(line[..keyIdx], pad, gap, rest[..close], rest[close + 1..]);
    assert line == line[..keyIdx] + (KEY + between);
  }

  // ---- the line structure of the rewritten file ----

  lemma LineOfConcat(h: string, t: string)
    requires t != []
    ensures Line(h + t) <==> NoNewline(h) && Line(t)
    ensures Terminated(h + t) <==> Terminated(t)
  {
    if Line(h + t) {
      assert forall i :: 0 <= i < |h| ==> h[i] == (h + t)[i];
      assert forall i :: 0 <= i < |t| ==> t[i] == (h + t)[|h| + i];
    }
  }

  function Head(a: Assignment): string {
    a.indent + (KEY + ((a.pad + "=") + (a.gap + ("\"" + a.value))))
  }

  lemma RenderIsHead(a: Assignment)
    ensures Render(a) == Head(a) + ("\"" + a.tail)
  {
    var t := "\"" + a.tail;
    assert a.gap + ("\"" + (a.value + t)) == (a.gap + ("\"" + a.value)) + t;
    assert Render(a) == a.indent + (KEY + ((a.pad + "=") + ((a.gap + ("\"" + a.value)) + t)));
  }

  // A clean version leaves a line a line, terminated as before.
  lemma AssignKeepsLine(a: Assignment, version: string)
    requires WellShaped(a) && Line(Render(a)) && Clean(version)
    ensures Line(Render(Assign(a, version)))
    ensures Terminated(Render(Assign(a, version))) <==> Terminated(Render(a))
    ensures NoNewline(a.value)
  {
    hide Line, Terminated, Render, IsWhitespace, Spaces;
    var b := Assign(a, version);
    var t := "\"" + a.tail;
    RenderIsHead(a);
    RenderIsHead(b);
    LineOfConcat(Head(a), t);
    LineOfConcat(Head(b), t);
    assert forall c :: c in a.value ==> c in Head(a);
    assert '\n' !in a.indent && '\n' !in a.pad;
    assert '\n' !in b.gap;
    assert '\n' !in Head(b);
  }

  lemma AssignmentIsNoHeader(a: Assignment)
    requires WellShaped(a)
    ensures !IsHeader(Render(a))
  {
    hide IsWhitespace;
    NotBlank();
    TrimBlank(a.indent, KEY + ((a.pad + "=") + (a.gap + ("\"" + (a.value + ("\"" + a.tail))))));
  }

  // Rewriting the target line leaves the target where it was.
  lemma {:induction false} TargetStays(lines: seq<string>, inProfile: bool, l: string)
    requires Target(lines, inProfile).Some? && Target(lines, inProfile).value < |lines|
    requires !IsHeader(l) && TryReplace(l, "").Some?
    ensures Target(lines[Target(lines, inProfile).value := l], inProfile) == Target(lines, inProfile)
    decreases |lines|
  {
    hide TryReplace, IsHeader, SectionName;
    var i := Target(lines, inProfile).value;
    if i > 0 {
      assert lines[i := l][1..] == lines[1..][i - 1 := l];
      TargetStays(lines[1..], if IsHeader(lines[0]) then SectionName(lines[0]) == "profile" else inProfile, l);
    }
  }

  // ---- the laws ----

  function Site(text: string): Option<nat> {
    Target(SplitInclusive(text), false)
  }

  lemma {:induction false} ConcatAt(lines: seq<string>, i: nat)
    requires i < |lines|
    ensures Concat(lines) == Concat(lines[..i]) + (lines[i] + Concat(lines[i + 1..]))
    decreases i
  {
    if i == 0 {
      assert lines[..0] == [];
    } else {
      ConcatAt(lines[1..], i - 1);
      assert lines[1..][..i - 1] == lines[..i][1..] && lines[1..][i..] == lines[i + 1..];
    }
  }

  // A successful edit rewrites one assignment; all the text before and after it is kept,
  // and the version it reports is that line's, free of quotes and line feeds.
  lemma EditIsLocal(text: string, version: string) returns (i: nat, a: Assignment)
    requires Bumped(text, version).Some?
    ensures var lines := SplitInclusive(text);
            && Site(text) == Some(i) && i < |lines| && lines[i] == Render(a) && WellShaped(a)
            && Bumped(text, version) == Some(Patch(Concat(lines[i := Render(Assign(a, version))]), a.value))
            && text == Concat(lines[..i]) + (Render(a) + Concat(lines[i + 1..]))
            && Bumped(text, version).value.patched
            == Concat(lines[..i]) + (Render(Assign(a, version)) + Concat(lines[i + 1..]))
            && Clean(a.value) && Line(Render(a))
  {
    hide TryReplace, SplitInclusive, Render, Line, WellShaped, Concat, Assign, IsHeader;
    var lines := SplitInclusive(text);
    TargetBound(lines, false);
    i := Target(lines, false).value;
    a := ShapeOf(lines[i], "");
    MatchOf(a, version);
    SplitIsLineSeq(text);
    assert Line(lines[i]);
    ConcatAt(lines, i);
    ConcatAt(lines[i := Render(Assign(a, version))], i);
    assert lines[i := Render(Assign(a, version))][i + 1..] == lines[i + 1..];
    assert lines[i := Render(Assign(a, version))][..i] == lines[..i];
    assert Clean(a.value) by { ValueIsClean(a); }
  }

  lemma ValueIsClean(a: Assignment)
    requires WellShaped(a) && Line(Render(a))
    ensures Clean(a.value)
  {
    AssignKeepsLine(a, "");
  }

  lemma NewGapTwice(gap: string)
    ensures NewGap(NewGap(gap)) == NewGap(gap)
  {
    LeadingAll(if LeadingSpaces(gap) == 0 then 1 else LeadingSpaces(gap));
  }

  // After writing a clean version every other line is as it was, and the target is where it was.
  lemma OtherLinesKept(text: string, version: string)
    requires Bumped(text, version).Some? && Clean(version)
    ensures var before, after := SplitInclusive(text), SplitInclusive(Bumped(text, version).value.patched);
            && Site(text).Some? && |after| == |before| && Site(Bumped(text, version).value.patched) == Site(text)
            && forall j :: 0 <= j < |before| && j != Site(text).value ==> after[j] == before[j]
  {
    var i, a := EditIsLocal(text, version);
    var _ := Reread(text, version, i, a);
  }

  lemma Reread(text: string, version: string, i: nat, a: Assignment) returns (lines: seq<string>)
    requires i < |SplitInclusive(text)| && SplitInclusive(text)[i] == Render(a) && WellShaped(a)
    requires Site(text) == Some(i) && Clean(version)
    ensures lines == SplitInclusive(text)[i := Render(Assign(a, version))]
    ensures SplitInclusive(Concat(lines)) == lines && Target(lines, false) == Some(i)
  {
    hide TryReplace, SplitInclusive, Render, Line, Concat, Assign, IsHeader;
    var before := SplitInclusive(text);
    SplitIsLineSeq(text);
    assert Line(before[i]);
    var b := Assign(a, version);
    lines := before[i := Render(b)];
    AssignKeepsLine(a, version);
    assert LineSeq(lines);
    SplitOfConcat(lines);
    assert WellShaped(b) by { AssignWellShaped(a, version); }
    AssignmentIsNoHeader(b);
    MatchOf(b, "");
    TargetStays(before, false, Render(b));
  }

  lemma AssignWellShaped(a: Assignment, version: string)
    requires WellShaped(a) && Clean(version)
    ensures WellShaped(Assign(a, version))
  {
  }

  // Writing a clean version and then another is writing the other, and reports the first.
  lemma PutPut(text: string, v: string, w: string)
    requires Bumped(text, v).Some? && Clean(v)
    ensures Bumped(text, w).Some?
    ensures Bumped(Bumped(text, v).value.patched, w) == Some(Patch(Bumped(text, w).value.patched, v))
  {
    hide TryReplace, SplitInclusive, Render, Line, Concat, WellShaped, Target, NewGap, Clean;
    var i, a := EditIsLocal(text, v);
    var lines := Reread(text, v, i, a);
    AssignWellShaped(a, v);
    MatchOf(Assign(a, v), w);
    MatchOf(a, w);
    NewGapTwice(a.gap);
    assert lines[i := Render(Assign(a, w))] == SplitInclusive(text)[i := Render(Assign(a, w))];
  }

  // The next edit reports the version just written exactly when that version is clean.
  lemma PutGetExact(text: string, v: string, w: string)
    requires Bumped(text, v).Some?
    ensures var again := Bumped(Bumped(text, v).value.patched, w);
            (again.Some? && again.value.oldVersion == v) <==> Clean(v)
  {
    hide Bumped;
    if Clean(v) {
      PutPut(text, v, w);
    } else if Bumped(Bumped(text, v).value.patched, w).Some? {
      var _, a := EditIsLocal(Bumped(text, v).value.patched, w);
    }
  }

  // ---- writing back what was read ----

  // The text between `=` and the opening quote.
  function ValueGap(line: string): string {
    var idx := Find(line, '=');
    if idx == |line| then "" else line[idx + 1..][..Find(line[idx + 1..], '"')]
  }

  predicate AllSpaces(s: string) {
    forall i :: 0 <= i < |s| ==> s[i] == ' '
  }

  lemma ValueGapOf(a: Assignment)
    requires WellShaped(a)
    ensures ValueGap(Render(a)) == a.gap
  {
    hide Find, IsWhitespace;
    NotBlank();
    var front := a.indent + (KEY + a.pad);
    var post := a.gap + ("\"" + (a.value + ("\"" + a.tail)));
    BlankHas(a.indent, '=');
    BlankHas(a.pad, '=');
    BlankHas(a.gap, '"');
    KeyHasNoEquals();
    assert '=' !in front;
    assert Render(a) == front + ("=" + post);
    FindPast(front, '=', "=" + post);
    assert (front + ("=" + post))[|front| + 1..] == post;
    FindPast(a.gap, '"', "\"" + (a.value + ("\"" + a.tail)));
  }

  lemma KeyHasNoEquals()
    ensures '=' !in KEY
  {
  }

  lemma GapKept(gap: string)
    ensures NewGap(gap) == gap <==> gap != [] && AllSpaces(gap)
  {
    LeadingShort(gap);
    if gap != [] && AllSpaces(gap) {
      assert Spaces(|gap|) == gap;
    }
  }

  lemma {:induction false} LeadingShort(gap: string)
    ensures AllSpaces(gap) <==> LeadingSpaces(gap) == |gap|
    ensures LeadingSpaces(gap) == 0 ==> gap == [] || gap[0] != ' '
  {
    if gap != [] {
      LeadingShort(gap[1..]);
      assert AllSpaces(gap) <==> gap[0] == ' ' && AllSpaces(gap[1..]);
    }
  }

  // Writing back the version just read leaves the file alone exactly when the value is
  // preceded by one or more spaces and nothing else.
  lemma GetPutExact(text: string, v: string)
    requires Bumped(text, v).Some?
    ensures Site(text).Some? && Site(text).value < |SplitInclusive(text)|
    ensures var old0 := Bumped(text, v).value.oldVersion;
            && Bumped(text, old0).Some?
            && (Bumped(text, old0).value.patched == text
                <==> ValueGap(SplitInclusive(text)[Site(text).value]) != []
                     && AllSpaces(ValueGap(SplitInclusive(text)[Site(text).value])))
  {
    hide TryReplace, SplitInclusive, Line, Concat, WellShaped, Target, Render, ValueGap, AllSpaces, NewGap, Clean;
    var _, a0 := EditIsLocal(text, v);
    var i, a := EditIsLocal(text, a0.value);
    SameMatch(SplitInclusive(text)[i], v, a0.value);
    var b := Assign(a, a.value);
    AssignWellShaped(a, a.value);
    ValueGapOf(a);
    ValueGapOf(b);
    GapKept(a.gap);
    var lines := SplitInclusive(text);
    Cancel(Concat(lines[..i]), Render(a), Render(b), Concat(lines[i + 1..]));
  }

  lemma Cancel(p: string, x: string, y: string, s: string)
    ensures p + (x + s) == p + (y + s) <==> x == y
  {
    if p + (x + s) == p + (y + s) {
      assert x + s == (p + (x + s))[|p|..] && y + s == (p + (y + s))[|p|..];
      assert x == (x + s)[..|x|] && y == (y + s)[..|y|];
    }
  }
}
