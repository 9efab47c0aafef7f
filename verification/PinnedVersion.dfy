/**
 The line editor for `[profile].pinned_version`: a lens on the manifest text that reads and
 replaces one quoted value.
 */
module PinnedVersion {
  import opened Options
  import opened TextLines

  const KEY: string := "pinned_version"

  // Position of the first occurrence of `p`, or the length of `s`.
  function FindText(s: string, p: string): (i: nat)
    ensures i <= |s| && (i < |s| ==> p <= s[i..])
  {
    if s == [] || p <= s then 0 else 1 + FindText(s[1..], p)
  }

  function LeadingSpaces(s: string): (n: nat)
    ensures n <= |s|
  {
    if s == [] || s[0] != ' ' then 0 else 1 + LeadingSpaces(s[1..])
  }

  function Spaces(n: nat): (s: string)
    ensures |s| == n && forall i :: 0 <= i < n ==> s[i] == ' '
  {
    seq(n, _ => ' ')
  }

  // What follows the opening quote, when the key is followed by `=` and a quote.
  function AfterQuote(between: string): Option<string> {
    var after := TrimStart(between);
    if after == [] || after[0] != '=' then None
    else
      var quoted := TrimStart(after[1..]);
      if quoted == [] || quoted[0] != '"' then None else Some(quoted[1..])
  }

  // From after the key: up to and including `=`, the spaces that follow it, the new value.
  function Rewritten(between: string, version: string, tail: string): Option<string> {
    var eqIdx := Find(between, '=');
    if eqIdx == |between| then None
    else
      var count := LeadingSpaces(between[eqIdx + 1..]);
      Some(between[..eqIdx + 1] + (Spaces(if count == 0 then 1 else count) + ("\"" + (version + ("\"" + tail)))))
  }

  // The old value and the rewritten line, when the line assigns a quoted value.
  function TryReplace(line: string, version: string): Option<(string, string)> {
    var keyIdx := FindText(line, KEY);
    if keyIdx == |line| || !Blank(line[..keyIdx]) then None
    else
      var between := line[keyIdx + |KEY|..];
      match AfterQuote(between)
      case None => None
      case Some(rest) =>
        var close := Find(rest, '"');
        if close == |rest| then None
        else
          match Rewritten(between, version, rest[close + 1..])
          case None => None
          case Some(r) => Some((rest[..close], line[..keyIdx] + (KEY + r)))
  }

  predicate IsHeader(line: string) {
    var t := TrimStart(line);
    t != [] && t[0] == '['
  }

  function DropLeading(s: string, c: char): string {
    if s == [] || s[0] != c then s else DropLeading(s[1..], c)
  }

  function DropTrailing(s: string, c: char): string {
    if s == [] || s[|s| - 1] != c then s else DropTrailing(s[..|s| - 1], c)
  }

  function SectionName(line: string): string {
    Trim(DropTrailing(DropLeading(TrimEnd(TrimStart(line)), '['), ']'))
  }

  // The first assignment under `[profile]`, by line number.
  function Target(lines: seq<string>, inProfile: bool): Option<nat> {
    if lines == [] then None
    else
      var rest := lines[1..];
      if IsHeader(lines[0]) then Shift(Target(rest, SectionName(lines[0]) == "profile"))
      else if inProfile && TryReplace(lines[0], "").Some? then Some(0)
      else Shift(Target(rest, inProfile))
  }

  function Shift(i: Option<nat>): Option<nat> {
    match i
    case None => None
    case Some(n) => Some(n + 1)
  }

  datatype Patch = Patch(patched: string, oldVersion: string)

  lemma {:induction false} TargetBound(lines: seq<string>, inProfile: bool)
    ensures var t := Target(lines, inProfile);
            t.Some? ==> t.value < |lines| && !IsHeader(lines[t.value]) && TryReplace(lines[t.value], "").Some?
    decreases |lines|
  {
    hide TryReplace, IsHeader, SectionName;
    if lines != [] {
      TargetBound(lines[1..], if IsHeader(lines[0]) then SectionName(lines[0]) == "profile" else inProfile);
    }
  }

  // Whether and what a line assigns does not depend on the new version.
  lemma SameMatch(line: string, v: string, w: string)
    ensures TryReplace(line, v).Some? <==> TryReplace(line, w).Some?
    ensures TryReplace(line, v).Some? ==> TryReplace(line, v).value.0 == TryReplace(line, w).value.0
  {
  }

  function Bumped(text: string, version: string): Option<Patch> {
    var lines := SplitInclusive(text);
    match Target(lines, false)
    case None => None
    case Some(i) =>
      TargetBound(lines, false);
      SameMatch(lines[i], "", version);
      var r := TryReplace(lines[i], version).value;
      Some(Patch(Concat(lines[i := r.1]), r.0))
  }

  method BumpPinnedVersion(text: string, version: string) returns (r: Option<Patch>)
    ensures r == Bumped(text, version)
  {
    hide TryReplace, IsHeader, SectionName, SplitInclusive;
    var lines := SplitInclusive(text);
    var inProfile, out := false, "";
    var oldVersion: Option<string> := None;
    ghost var goal := Target(lines, false);
    TargetBound(lines, false);
    ghost var done: seq<string> := [];
    for k := 0 to |lines|
      invariant |done| == k && out == Concat(done)
      invariant oldVersion.None? ==> done == lines[..k] && goal == Plus(Target(lines[k..], inProfile), k)
      invariant oldVersion.Some? ==>
                  && goal.Some? && goal.value < k && TryReplace(lines[goal.value], version).Some?
                  && oldVersion == Some(TryReplace(lines[goal.value], version).value.0)
                  && done == lines[..k][goal.value := TryReplace(lines[goal.value], version).value.1]
    {
      var line := lines[k];
      assert lines[k..][0] == line && lines[k..][1..] == lines[k + 1..];
      assert lines[..k + 1] == lines[..k] + [line];
      SameMatch(line, "", version);
      var emitted := line;
      if IsHeader(line) {
        inProfile := SectionName(line) == "profile";
      } else if inProfile && oldVersion.None? {
        var replaced := TryReplace(line, version);
        if replaced.Some? {
          oldVersion := Some(replaced.value.0);
          emitted := replaced.value.1;
        }
      }
      ConcatLast(done, emitted);
      done := done + [emitted];
      out := out + emitted;
    }
    assert lines[..|lines|] == lines && lines[|lines|..] == [];
    if oldVersion.None? {
      return None;
    }
    r := Some(Patch(out, oldVersion.value));
  }

  function Plus(i: Option<nat>, k: nat): Option<nat> {
    match i
    case None => None
    case Some(n) => Some(n + k)
  }

  lemma {:induction false} ConcatLast(lines: seq<string>, l: string)
    ensures Concat(lines + [l]) == Concat(lines) + l
    decreases |lines|
  {
    if lines == [] {
      assert lines + [l] == [l] && Concat([l]) == l + Concat([]);
    } else {
      assert (lines + [l])[1..] == lines[1..] + [l];
      ConcatLast(lines[1..], l);
    }
  }
}
