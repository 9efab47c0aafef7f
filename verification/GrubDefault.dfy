/**
 The GRUB default-entry file: what rewriting it leaves, and exactly when a shell that sources
 it then reads the wanted entry.
 */
module GrubDefault {
  import opened Options
  import opened TextLines

  const PREFIX: string := "GRUB_DEFAULT="

  function EntryFor(slot: string): Option<string> {
    if slot == "A" then Some("0") else if slot == "B" then Some("1") else None
  }

  predicate IsDefault(line: string) {
    PREFIX <= line
  }

  // The lines of the new file.
  function Rewritten(lines: seq<string>, entry: string): seq<string> {
    if AnyDefault(lines) then Replaced(lines, entry)
    else Replaced(lines, entry) + [PREFIX + entry]
  }

  function Replaced(lines: seq<string>, entry: string): (out: seq<string>)
    ensures |out| == |lines|
    ensures forall i :: 0 <= i < |out| ==> out[i] == if IsDefault(lines[i]) then PREFIX + entry else lines[i]
  {
    seq(|lines|, i requires 0 <= i < |lines| => if IsDefault(lines[i]) then PREFIX + entry else lines[i])
  }

  predicate AnyDefault(lines: seq<string>) {
    exists i :: 0 <= i < |lines| && IsDefault(lines[i])
  }

  // A file holding the given lines.
  function FileOf(lines: seq<string>): string {
    Concat(Terminate(lines))
  }

  method RewriteGrub(content: string, slot: string) returns (r: Option<string>)
    ensures r == match EntryFor(slot)
                 case None => None
                 case Some(entry) => Some(FileOf(Rewritten(Lines(content), entry)))
  {
    hide Lines, IsDefault, FileOf, EntryFor;
    var entry := EntryFor(slot);
    if entry.None? {
      return None;
    }
    var lines := Lines(content);
    ghost var goal := Replaced(lines, entry.value);
    var newContent, found := "", false;
    FileOfEmpty(goal);
    for i := 0 to |lines|
      invariant newContent == FileOf(goal[..i])
      invariant found <==> AnyDefault(lines[..i])
    {
      FileOfSnoc(goal, i);
      assert lines[..i + 1] == lines[..i] + [lines[i]];
      AnyDefaultSnoc(lines[..i], lines[i]);
      if IsDefault(lines[i]) {
        newContent := newContent + (PREFIX + entry.value + "\n");
        found := true;
      } else {
        newContent := newContent + (lines[i] + "\n");
      }
    }
    assert goal[..|lines|] == goal && lines[..|lines|] == lines;
    if !found {
      var all := goal + [PREFIX + entry.value];
      FileOfSnoc(all, |goal|);
      assert all[..|goal|] == goal && all[..|goal| + 1] == all;
      newContent := newContent + (PREFIX + entry.value + "\n");
    }
    r := Some(newContent);
  }

  lemma FileOfEmpty(lines: seq<string>)
    ensures FileOf(lines[..0]) == ""
  {
  }

  lemma AnyDefaultSnoc(lines: seq<string>, line: string)
    ensures AnyDefault(lines + [line]) <==> AnyDefault(lines) || IsDefault(line)
  {
    var all := lines + [line];
    if AnyDefault(lines) {
      var i :| 0 <= i < |lines| && IsDefault(lines[i]);
      assert IsDefault(all[i]);
    } else if IsDefault(line) {
      assert IsDefault(all[|lines|]);
    }
  }

  lemma {:induction false} ConcatAppend(a: seq<string>, b: seq<string>)
    ensures Concat(a + b) == Concat(a) + Concat(b)
    decreases |a|
  {
    if a == [] {
      assert a + b == b;
    } else {
      assert (a + b)[1..] == a[1..] + b;
      ConcatAppend(a[1..], b);
    }
  }

  lemma FileOfSnoc(lines: seq<string>, i: nat)
    requires i < |lines|
    ensures FileOf(lines[..i + 1]) == FileOf(lines[..i]) + (lines[i] + "\n")
  {
    var t := Terminate(lines[..i + 1]);
    assert t == Terminate(lines[..i]) + [lines[i] + "\n"];
    ConcatAppend(Terminate(lines[..i]), [lines[i] + "\n"]);
    assert Concat([lines[i] + "\n"]) == lines[i] + "\n";
  }

  // ---- what a shell that sources the file reads ----

  predicate IsBlank(c: char) {
    c == ' ' || c == '\t'
  }

  function SkipBlanks(s: string): string {
    if s == "" || !IsBlank(s[0]) then s else SkipBlanks(s[1..])
  }

  const EXPORT: string := "export"

  // The text after `=` where a line assigns the default entry: also one that is indented or
  // exported, which the rewriting does not look for.
  function AssignedText(line: string): Option<string> {
    var t := SkipBlanks(line);
    if PREFIX <= t then Some(t[|PREFIX|..])
    else if EXPORT <= t && |t| > |EXPORT| && IsBlank(t[|EXPORT|]) && PREFIX <= SkipBlanks(t[|EXPORT|..]) then
      Some(SkipBlanks(t[|EXPORT|..])[|PREFIX|..])
    else None
  }

  predicate Assigns(line: string) {
    AssignedText(line).Some?
  }

  predicate EndsWord(c: char, quote: Option<char>) {
    if quote.Some? then c == quote.value else IsBlank(c) || c == ';'
  }

  function UpTo(s: string, quote: Option<char>): string {
    if s == "" || EndsWord(s[0], quote) then "" else [s[0]] + UpTo(s[1..], quote)
  }

  // The first word of a text: up to its closing quote, or a blank or semicolon.
  function Word(s: string): string {
    if s != "" && (s[0] == '"' || s[0] == '\'') then UpTo(s[1..], Some(s[0])) else UpTo(s, None)
  }

  function LastAssignment(lines: seq<string>): (i: Option<nat>)
    ensures i.Some? ==> i.value < |lines| && Assigns(lines[i.value])
    ensures forall k :: (if i.Some? then i.value + 1 else 0) <= k < |lines| ==> !Assigns(lines[k])
  {
    if lines == [] then None
    else if Assigns(lines[|lines| - 1]) then Some(|lines| - 1)
    else LastAssignment(lines[..|lines| - 1])
  }

  // The value of the last assignment.
  function Effective(lines: seq<string>): Option<string> {
    match LastAssignment(lines)
    case None => None
    case Some(i) => Some(Word(AssignedText(lines[i]).value))
  }

  // Lines that the rewriting takes for a default, with a last one that a shell reads as
  // another entry and the rewriting overlooks.
  predicate Overridden(lines: seq<string>, entry: string) {
    && AnyDefault(lines) && LastAssignment(lines).Some?
    && !IsDefault(lines[LastAssignment(lines).value]) && Effective(lines) != Some(entry)
  }

  function Others(lines: seq<string>): seq<string> {
    if lines == [] then []
    else (if IsDefault(lines[0]) then [] else [lines[0]]) + Others(lines[1..])
  }

  lemma DefaultAssigns(line: string)
    requires IsDefault(line)
    ensures AssignedText(line) == Some(line[|PREFIX|..])
  {
    assert line[0] == PREFIX[0];
  }

  // The last assignment is where every other line is none.
  lemma LastAssignmentIs(lines: seq<string>, i: nat)
    requires i < |lines| && Assigns(lines[i]) && forall k :: i < k < |lines| ==> !Assigns(lines[k])
    ensures LastAssignment(lines) == Some(i)
  {
    hide LastAssignment, Assigns;
  }

  // Replacing defaults moves no assignment.
  lemma ReplacedAssigns(lines: seq<string>, entry: string)
    ensures LastAssignment(Replaced(lines, entry)) == LastAssignment(lines)
  {
    hide AssignedText, LastAssignment, IsDefault;
    var out := Replaced(lines, entry);
    DefaultIs(entry);
    DefaultAssigns(PREFIX + entry);
    forall i | 0 <= i < |lines|
      ensures Assigns(out[i]) <==> Assigns(lines[i])
    {
      if IsDefault(lines[i]) {
        DefaultAssigns(lines[i]);
      }
    }
    if LastAssignment(lines).Some? {
      LastAssignmentIs(out, LastAssignment(lines).value);
    }
  }

  lemma {:induction false} OthersReplaced(lines: seq<string>, entry: string)
    ensures Others(Replaced(lines, entry)) == Others(lines)
    decreases |lines|
  {
    if lines != [] {
      assert Replaced(lines, entry)[1..] == Replaced(lines[1..], entry);
      OthersReplaced(lines[1..], entry);
    }
  }

  lemma {:induction false} OthersSnoc(lines: seq<string>, line: string)
    requires IsDefault(line)
    ensures Others(lines + [line]) == Others(lines)
    decreases |lines|
  {
    if lines == [] {
      assert lines + [line] == [line] && [line][1..] == [];
    } else {
      assert (lines + [line])[1..] == lines[1..] + [line];
      OthersSnoc(lines[1..], line);
    }
  }

  lemma WrittenReads(entry: string)
    requires Word(entry) == entry
    ensures AssignedText(PREFIX + entry) == Some(entry) && Word(AssignedText(PREFIX + entry).value) == entry
  {
    hide AssignedText, Word;
    DefaultIs(entry);
    DefaultAssigns(PREFIX + entry);
    assert (PREFIX + entry)[|PREFIX|..] == entry;
  }

  // After a rewrite a shell reads the wanted entry if and only if no later assignment was
  // overlooked, and every line that is not a default is kept in order.
  lemma RewriteSelects(lines: seq<string>, entry: string)
    requires Word(entry) == entry
    ensures Effective(Rewritten(lines, entry)) == Some(entry) <==> !Overridden(lines, entry)
    ensures Others(Rewritten(lines, entry)) == Others(lines)
  {
    hide AssignedText, LastAssignment, IsDefault, Word, Others, Replaced;
    DefaultIs(entry);
    OthersReplaced(lines, entry);
    OthersSnoc(Replaced(lines, entry), PREFIX + entry);
    WrittenReads(entry);
    if AnyDefault(lines) {
      ReplacedAssigns(lines, entry);
      var i :| 0 <= i < |lines| && IsDefault(lines[i]);
      DefaultAssigns(lines[i]);
    } else {
      LastAssignmentIs(Rewritten(lines, entry), |lines|);
    }
  }

  lemma RewrittenTwice(lines: seq<string>, first: string, second: string)
    ensures Rewritten(Rewritten(lines, first), second) == Rewritten(lines, second)
  {
    var out := Rewritten(lines, first);
    if AnyDefault(lines) {
      var i :| 0 <= i < |lines| && IsDefault(lines[i]);
      assert IsDefault(out[i]);
    } else {
      assert IsDefault(out[|lines|]);
    }
  }

  // ---- through the file ----

  // Reading a rewritten file back: each line at most loses a carriage return at its end.
  lemma ReadBack(content: string, entry: string)
    requires NoNewline(entry)
    ensures Lines(FileOf(Rewritten(Lines(content), entry))) == CrStripped(Rewritten(Lines(content), entry))
  {
    hide Lines, Concat, NoNewline;
    LinesHaveNoNewline(content);
    var out := Rewritten(Lines(content), entry);
    EntryOnOneLine(entry);
    assert forall i :: 0 <= i < |out| ==> NoNewline(out[i]);
    LinesOfTerminated(out);
  }

  lemma EntryOnOneLine(entry: string)
    requires NoNewline(entry)
    ensures NoNewline(PREFIX + entry)
  {
  }

  // A line that is a default stays one without its carriage return, with its value so far.
  lemma CrKeepsDefault(line: string)
    ensures IsDefault(StripCr(line)) <==> IsDefault(line)
  {
    assert PREFIX[|PREFIX| - 1] == '=';
    if IsDefault(line) && StripCr(line) != line {
      assert line[|PREFIX| - 1] == PREFIX[|PREFIX| - 1];
      assert |PREFIX| <= |line| - 1;
    }
  }

  // The same of the text written, as a shell reads it.
  lemma RewriteSelectsText(content: string, entry: string)
    requires NoNewline(entry) && Word(entry) == entry
    ensures Effective(ShellLines(FileOf(Rewritten(Lines(content), entry)))) == Some(entry)
            <==> !Overridden(Lines(content), entry)
  {
    hide Lines, Concat, NoNewline, Effective, Overridden, Word, ShellLines;
    var out := Rewritten(Lines(content), entry);
    LinesHaveNoNewline(content);
    EntryOnOneLine(entry);
    assert forall i :: 0 <= i < |out| ==> NoNewline(out[i]);
    ShellLinesOfTerminated(out);
    RewriteSelects(Lines(content), entry);
  }

  lemma DefaultLine(lines: seq<string>, entry: string) returns (i: nat)
    ensures i < |Rewritten(lines, entry)| && Rewritten(lines, entry)[i] == PREFIX + entry
  {
    if AnyDefault(lines) {
      i :| i < |lines| && IsDefault(lines[i]);
    } else {
      i := |lines|;
    }
  }

  // The slot whose entry a file selects, when it is one of the two.
  function SelectedSlot(content: string): Option<string> {
    if Effective(ShellLines(content)) == Some("0") then Some("A")
    else if Effective(ShellLines(content)) == Some("1") then Some("B")
    else None
  }

  lemma EntryIsWord(slot: string)
    requires slot == "A" || slot == "B"
    ensures NoNewline(EntryFor(slot).value) && Word(EntryFor(slot).value) == EntryFor(slot).value
  {
    var entry := EntryFor(slot).value;
    assert entry[1..] == "" && UpTo("", None) == "";
    assert UpTo(entry, None) == [entry[0]] + UpTo(entry[1..], None);
  }

  // Selecting a slot makes the file select it, which a device model may keep as one label, if
  // and only if the file has no later assignment that is overlooked.
  lemma SelectionBoots(content: string, slot: string)
    requires slot == "A" || slot == "B"
    ensures SelectedSlot(FileOf(Rewritten(Lines(content), EntryFor(slot).value))) == Some(slot)
            <==> !Overridden(Lines(content), EntryFor(slot).value)
  {
    hide Lines, Effective, FileOf, Rewritten, Overridden, Word, NoNewline, ShellLines;
    EntryIsWord(slot);
    RewriteSelectsText(content, EntryFor(slot).value);
  }

  // Such a file: a default, then an indented assignment. Selecting the first slot leaves the
  // second one selected.
  lemma IndentedWins()
    ensures var content := FileOf([PREFIX + "0", " " + PREFIX + "1"]);
            && Overridden(Lines(content), "0")
            && SelectedSlot(FileOf(Rewritten(Lines(content), "0"))) == Some("B")
  {
    hide Concat, Lines, ShellLines, NoNewline, Word, StripCr;
    var lines := [PREFIX + "0", " " + PREFIX + "1"];
    EntryIsWord("A");
    EntryIsWord("B");
    IndentedLines();
    LinesOfTerminated(lines);
    assert CrStripped(lines) == lines;
    assert Rewritten(lines, "0") == lines by { assert IsDefault(lines[0]); }
    ShellLinesOfTerminated(lines);
    LastAssignmentIs(lines, 1);
  }

  lemma IndentedLines()
    ensures var lines := [PREFIX + "0", " " + PREFIX + "1"];
            && (forall i :: 0 <= i < 2 ==> NoNewline(lines[i]) && StripCr(lines[i]) == lines[i])
            && IsDefault(lines[0]) && !IsDefault(lines[1]) && AssignedText(lines[1]) == Some("1")
  {
    var line := " " + PREFIX + "1";
    assert line[1..] == PREFIX + "1" && SkipBlanks(line) == SkipBlanks(line[1..]) == PREFIX + "1" by {
      assert line[1..][0] == 'G';
    }
    assert (PREFIX + "1")[|PREFIX|..] == "1";
    assert line[0] == ' ' && PREFIX[0] == 'G';
  }

  lemma StrippedDefaults(lines: seq<string>)
    ensures AnyDefault(CrStripped(lines)) <==> AnyDefault(lines)
  {
    hide IsDefault, StripCr;
    forall i | 0 <= i < |lines|
      ensures IsDefault(CrStripped(lines)[i]) <==> IsDefault(lines[i])
    {
      CrKeepsDefault(lines[i]);
    }
  }

  lemma DefaultIs(entry: string)
    ensures IsDefault(PREFIX + entry)
  {
  }

  // Replacing, stripping and replacing again is stripping and replacing.
  lemma ReplacedStripped(lines: seq<string>, first: string, second: string)
    ensures Replaced(CrStripped(Replaced(lines, first)), second) == Replaced(CrStripped(lines), second)
  {
    hide IsDefault, StripCr, Replaced, CrStripped;
    DefaultIs(first);
    forall i | 0 <= i < |lines|
      ensures Replaced(CrStripped(Replaced(lines, first)), second)[i] == Replaced(CrStripped(lines), second)[i]
    {
      CrKeepsDefault(lines[i]);
      CrKeepsDefault(PREFIX + first);
    }
  }

  // The last of two rewrites wins, in any file: it leaves what it would have made of the
  // original lines, each without a carriage return at its end.
  lemma RewriteTwice(content: string, first: string, second: string)
    requires NoNewline(first)
    ensures Rewritten(Lines(FileOf(Rewritten(Lines(content), first))), second)
         == Rewritten(CrStripped(Lines(content)), second)
  {
    hide IsDefault, StripCr, Lines, FileOf, Replaced, CrStripped, AnyDefault;
    var lines := Lines(content);
    ReadBack(content, first);
    StrippedDefaults(lines);
    StrippedDefaults(Rewritten(lines, first));
    ReplacedStripped(lines, first, second);
    DefaultIs(first);
    assert AnyDefault(Rewritten(lines, first)) by { HasDefault(lines, first); }
    if !AnyDefault(lines) {
      AppendedStripped(lines, first, second);
    }
  }

  lemma HasDefault(lines: seq<string>, entry: string)
    ensures AnyDefault(Rewritten(lines, entry))
  {
    var i := DefaultLine(lines, entry);
    assert IsDefault(Rewritten(lines, entry)[i]);
  }

  lemma AppendedStripped(lines: seq<string>, first: string, second: string)
    ensures Replaced(CrStripped(Replaced(lines, first) + [PREFIX + first]), second)
         == Replaced(CrStripped(Replaced(lines, first)), second) + [PREFIX + second]
  {
    hide IsDefault, StripCr, Replaced, CrStripped;
    DefaultIs(first);
    CrKeepsDefault(PREFIX + first);
  }

  lemma NoLines()
    ensures Lines("") == [] && !AnyDefault(Lines(""))
  {
    hide IsDefault;
  }

  lemma OneLineFile(line: string)
    ensures FileOf([line]) == line + "\n"
  {
    assert Terminate([line]) == [line + "\n"];
    assert Concat([line + "\n"]) == (line + "\n") + Concat([line + "\n"][1..]);
  }

  // An empty file gets one line, which selects the slot.
  lemma FirstDefault(slot: string)
    requires slot == "A" || slot == "B"
    ensures var text := FileOf(Rewritten(Lines(""), EntryFor(slot).value));
            && text == "GRUB_DEFAULT=" + (if slot == "A" then "0" else "1") + "\n"
            && SelectedSlot(text) == Some(slot)
  {
    hide Lines, FileOf, IsDefault, SelectedSlot, Effective;
    NoLines();
    SelectionBoots("", slot);
    var entry := EntryFor(slot).value;
    assert Rewritten(Lines(""), entry) == [PREFIX + entry];
    OneLineFile(PREFIX + entry);
  }
}
