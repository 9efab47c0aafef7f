/**
 Line splitting and trimming as the standard library of the source does them: a line ends
 at a line feed, one carriage return before it is dropped, and white space is Unicode's.
 */
module TextLines {

  predicate IsWhitespace(c: char) {
    var n := c as int;
    || 9 <= n <= 13 || n == 0x20 || n == 0x85 || n == 0xA0 || n == 0x1680
    || 0x2000 <= n <= 0x200A || n == 0x2028 || n == 0x2029 || n == 0x202F || n == 0x205F || n == 0x3000
  }

  function TrimStart(s: string): (t: string)
    ensures |t| <= |s| && t == s[|s| - |t|..]
    ensures t != [] ==> !IsWhitespace(t[0])
    ensures forall i :: 0 <= i < |s| - |t| ==> IsWhitespace(s[i])
  {
    if s == [] || !IsWhitespace(s[0]) then s else TrimStart(s[1..])
  }

  function TrimEnd(s: string): (t: string)
    ensures |t| <= |s| && t == s[..|t|]
    ensures t != [] ==> !IsWhitespace(t[|t| - 1])
    ensures forall i :: |t| <= i < |s| ==> IsWhitespace(s[i])
  {
    if s == [] || !IsWhitespace(s[|s| - 1]) then s else TrimEnd(s[..|s| - 1])
  }

  function Trim(s: string): string {
    TrimEnd(TrimStart(s))
  }

  predicate Blank(s: string) {
    forall i :: 0 <= i < |s| ==> IsWhitespace(s[i])
  }

  predicate Visible(s: string) {
    s != "" && !IsWhitespace(s[0]) && !IsWhitespace(s[|s| - 1])
  }

  lemma {:induction false} TrimBlank(b: string, s: string)
    requires Blank(b) && s != [] && !IsWhitespace(s[0])
    ensures TrimStart(b + s) == s
  {
    if b == [] {
      assert b + s == s;
    } else {
      assert (b + s)[1..] == b[1..] + s && IsWhitespace(b[0]);
      TrimBlank(b[1..], s);
    }
  }

  lemma {:induction false} TrimEndBlank(s: string, b: string)
    requires Blank(b) && s != "" && !IsWhitespace(s[|s| - 1])
    ensures TrimEnd(s + b) == s
    decreases |b|
  {
    if b == "" {
      assert s + b == s;
    } else {
      assert IsWhitespace(b[|b| - 1]) && (s + b)[..|s + b| - 1] == s + b[..|b| - 1];
      TrimEndBlank(s, b[..|b| - 1]);
    }
  }

  // Trimming removes all blanks around text with visible ends.
  lemma TrimBoth(b: string, s: string, c: string)
    requires Blank(b) && Blank(c) && Visible(s)
    ensures Trim(b + s + c) == s
  {
    hide IsWhitespace;
    assert b + s + c == b + (s + c);
    TrimBlank(b, s + c);
    TrimEndBlank(s, c);
  }

  // The white space of Unicode, character by character.
  lemma WhitespaceExactly(c: char)
    ensures IsWhitespace(c) <==>
              c in "\U{9}\U{A}\U{B}\U{C}\U{D} \U{85}\U{A0}\U{1680}\U{2000}\U{2001}\U{2002}\U{2003}\U{2004}\U{2005}"
                 + "\U{2006}\U{2007}\U{2008}\U{2009}\U{200A}\U{2028}\U{2029}\U{202F}\U{205F}\U{3000}"
  {
  }

  // Position of the first `c`, or the length of `s`.
  function Find(s: string, c: char): (i: nat)
    ensures i <= |s| && c !in s[..i]
    ensures i < |s| ==> s[i] == c
  {
    if s == [] then 0
    else if s[0] == c then 0
    else
      var i := 1 + Find(s[1..], c);
      assert s[..i] == [s[0]] + s[1..][..i - 1];
      i
  }

  lemma {:induction false} FindIs(s: string, c: char, i: nat)
    requires i < |s| && s[i] == c && c !in s[..i]
    ensures Find(s, c) == i
    decreases i
  {
    if i > 0 {
      assert s[0] != c by { assert s[..i][0] == s[0]; }
      assert s[1..][..i - 1] == s[..i][1..];
      FindIs(s[1..], c, i - 1);
    }
  }

  lemma {:induction false} Absent(p: string, c: char)
    requires c !in p
    ensures Find(p, c) == |p|
  {
    if p != [] {
      Absent(p[1..], c);
    }
  }

  // The parts between separators.
  function SplitOn(s: string, c: char): (parts: seq<string>)
    ensures |parts| >= 1
    decreases |s|
  {
    var i := Find(s, c);
    if i == |s| then [s] else [s[..i]] + SplitOn(s[i + 1..], c)
  }

  lemma SplitFirst(p: string, c: char, rest: string)
    requires c !in p
    ensures SplitOn(p + [c] + rest, c) == [p] + SplitOn(rest, c)
  {
    var s := p + [c] + rest;
    assert s[..|p|] == p && s[|p| + 1..] == rest;
    FindIs(s, c, |p|);
  }

  lemma SplitWhole(p: string, c: char)
    requires c !in p
    ensures SplitOn(p, c) == [p]
  {
    Absent(p, c);
  }

  // ---- splitting, terminators kept ----

  // Length of the first line, its line feed included.
  function FirstLine(s: string): (n: nat)
    ensures n <= |s| && (s != [] ==> n > 0)
    ensures forall i :: 0 <= i < n - 1 ==> s[i] != '\n'
    ensures n < |s| ==> s[n - 1] == '\n'
  {
    if s == [] then 0 else if s[0] == '\n' then 1 else 1 + FirstLine(s[1..])
  }

  function SplitInclusive(s: string): seq<string>
    decreases |s|
  {
    if s == [] then [] else [s[..FirstLine(s)]] + SplitInclusive(s[FirstLine(s)..])
  }

  function Concat(lines: seq<string>): string {
    if lines == [] then "" else lines[0] + Concat(lines[1..])
  }

  // A line with its terminator, or the unterminated remainder.
  predicate Line(l: string) {
    l != [] && forall i :: 0 <= i < |l| - 1 ==> l[i] != '\n'
  }

  predicate Terminated(l: string) {
    l != [] && l[|l| - 1] == '\n'
  }

  // What splitting produces: only the last line may lack its terminator.
  predicate LineSeq(lines: seq<string>) {
    && (forall i :: 0 <= i < |lines| ==> Line(lines[i]))
    && (forall i :: 0 <= i < |lines| - 1 ==> Terminated(lines[i]))
  }

  lemma ConsLineSeq(l: string, rest: seq<string>)
    requires Line(l) && LineSeq(rest) && (rest != [] ==> Terminated(l))
    ensures LineSeq([l] + rest)
  {
  }

  lemma FirstLineIsLine(s: string)
    requires s != []
    ensures Line(s[..FirstLine(s)]) && (FirstLine(s) < |s| ==> Terminated(s[..FirstLine(s)]))
  {
  }

  lemma {:induction false} SplitIsLineSeq(s: string)
    ensures LineSeq(SplitInclusive(s)) && Concat(SplitInclusive(s)) == s
    decreases |s|
  {
    hide LineSeq, Line, Terminated, FirstLine;
    if s != [] {
      var n := FirstLine(s);
      var rest := SplitInclusive(s[n..]);
      SplitIsLineSeq(s[n..]);
      FirstLineIsLine(s);
      ConsLineSeq(s[..n], rest);
      assert SplitInclusive(s)[1..] == rest;
      assert s == s[..n] + s[n..];
    } else {
      EmptyLineSeq();
    }
  }

  lemma EmptyLineSeq()
    ensures LineSeq([])
  {
  }

  lemma {:induction false} FirstLineIs(l: string, rest: string)
    requires Line(l) && (Terminated(l) || rest == [])
    ensures FirstLine(l + rest) == |l|
    decreases |l|
  {
    assert (l + rest)[1..] == l[1..] + rest;
    if |l| > 1 {
      FirstLineIs(l[1..], rest);
    } else if rest == [] {
      assert l[1..] + rest == [];
    }
  }

  lemma {:induction false} SplitOfConcat(lines: seq<string>)
    requires LineSeq(lines)
    ensures SplitInclusive(Concat(lines)) == lines
    decreases |lines|
  {
    if lines != [] {
      var l, rest := lines[0], lines[1..];
      SplitOfConcat(rest);
      assert |lines| > 1 || rest == [];
      FirstLineIs(l, Concat(rest));
      assert (l + Concat(rest))[..|l|] == l && (l + Concat(rest))[|l|..] == Concat(rest);
    }
  }

  // ---- splitting, terminators dropped ----

  function StripCr(l: string): string {
    if l != [] && l[|l| - 1] == '\r' then l[..|l| - 1] else l
  }

  function Strip(l: string): string {
    if Terminated(l) then StripCr(l[..|l| - 1]) else l
  }

  function StripAll(lines: seq<string>): (out: seq<string>)
    ensures |out| == |lines| && forall i :: 0 <= i < |out| ==> out[i] == Strip(lines[i])
  {
    seq(|lines|, i requires 0 <= i < |lines| => Strip(lines[i]))
  }

  function Lines(s: string): seq<string> {
    StripAll(SplitInclusive(s))
  }

  predicate NoNewline(l: string) {
    '\n' !in l
  }

  lemma StripLine(l: string)
    requires Line(l)
    ensures NoNewline(Strip(l))
  {
  }

  lemma LinesHaveNoNewline(s: string)
    ensures forall i :: 0 <= i < |Lines(s)| ==> NoNewline(Lines(s)[i])
  {
    hide Line, Strip, NoNewline, SplitInclusive;
    SplitIsLineSeq(s);
    forall i | 0 <= i < |Lines(s)|
      ensures NoNewline(Lines(s)[i])
    {
      StripLine(SplitInclusive(s)[i]);
    }
  }

  // Every line followed by a line feed.
  function Terminate(lines: seq<string>): (out: seq<string>)
    ensures |out| == |lines| && forall i :: 0 <= i < |out| ==> out[i] == lines[i] + "\n"
  {
    seq(|lines|, i requires 0 <= i < |lines| => lines[i] + "\n")
  }

  function CrStripped(lines: seq<string>): (out: seq<string>)
    ensures |out| == |lines| && forall i :: 0 <= i < |out| ==> out[i] == StripCr(lines[i])
  {
    seq(|lines|, i requires 0 <= i < |lines| => StripCr(lines[i]))
  }

  // Writing lines out and reading them back loses at most one carriage return a line.
  lemma LinesOfTerminated(lines: seq<string>)
    requires forall i :: 0 <= i < |lines| ==> NoNewline(lines[i])
    ensures Lines(Concat(Terminate(lines))) == CrStripped(lines)
  {
    var ls := Terminate(lines);
    TerminatedLineSeq(lines);
    SplitOfConcat(ls);
    forall i | 0 <= i < |ls|
      ensures Strip(ls[i]) == StripCr(lines[i])
    {
      assert ls[i][..|ls[i]| - 1] == lines[i];
    }
  }

  // ---- the lines as a shell reads them ----

  function Unterminated(l: string): string {
    if Terminated(l) then l[..|l| - 1] else l
  }

  // Carriage returns stay.
  function ShellLines(s: string): (out: seq<string>)
    ensures |out| == |SplitInclusive(s)|
    ensures forall i :: 0 <= i < |out| ==> out[i] == Unterminated(SplitInclusive(s)[i])
  {
    var lines := SplitInclusive(s);
    seq(|lines|, i requires 0 <= i < |lines| => Unterminated(lines[i]))
  }

  lemma TerminatedLineSeq(lines: seq<string>)
    requires forall i :: 0 <= i < |lines| ==> NoNewline(lines[i])
    ensures LineSeq(Terminate(lines))
  {
    var ls := Terminate(lines);
    forall i | 0 <= i < |ls|
      ensures Line(ls[i]) && Terminated(ls[i])
    {
      assert NoNewline(lines[i]);
    }
  }

  // To a shell, lines written out are the same lines.
  lemma ShellLinesOfTerminated(lines: seq<string>)
    requires forall i :: 0 <= i < |lines| ==> NoNewline(lines[i])
    ensures ShellLines(Concat(Terminate(lines))) == lines
  {
    hide Concat, SplitInclusive, NoNewline, LineSeq;
    TerminatedLineSeq(lines);
    SplitOfConcat(Terminate(lines));
    forall i | 0 <= i < |lines|
      ensures Unterminated(Terminate(lines)[i]) == lines[i]
    {
      assert Terminate(lines)[i][..|lines[i]|] == lines[i];
    }
  }
}
