/** What a shell reads from a quoted secret, and how each kind of line of the file is read. */
module SecretsShell {
  import opened Options
  import opened TextLines
  import opened SecretsEnv

  // ---- the shell ----

  datatype Mode = Bare | Single | Double

  function Prepend(c: char, value: Option<string>): Option<string> {
    match value
    case None => None
    case Some(v) => Some([c] + v)
  }

  // The value of a word after `KEY=`, by section 2.2 of the POSIX shell language, with nothing
  // for a word that ends early or whose value is more than its own characters: an expansion, an
  // escape, a tilde at the start or after an unquoted colon.
  function Word(s: string, mode: Mode, tilde: bool): Option<string> {
    if s == "" then (if mode == Bare then Some("") else None)
    else
      var c, rest := s[0], s[1..];
      match mode
      case Single =>
        if c == '\'' then Word(rest, Bare, false) else Prepend(c, Word(rest, Single, false))
      case Double =>
        if c == '"' then Word(rest, Bare, false)
        else if c in "$`\\" then None
        else Prepend(c, Word(rest, Double, false))
      case Bare =>
        if c == '\'' then Word(rest, Single, false)
        else if c == '"' then Word(rest, Double, false)
        else if c in " \t\n;&|<>()$`\\" || (c == '~' && tilde) then None
        else Prepend(c, Word(rest, Bare, c == ':'))
  }

  function ShellValue(word: string): Option<string> {
    Word(word, Bare, true)
  }

  // Between single quotes every character stands for itself.
  lemma {:induction false} SingleRun(v: string, rest: string)
    requires '\'' !in v
    ensures Word(v + "'" + rest, Single, false) ==
              match Word(rest, Bare, false) case None => None case Some(r) => Some(v + r)
  {
    var s := v + "'" + rest;
    if v == "" {
      assert s[1..] == rest;
      forall r: string ensures v + r == r {}
    } else {
      assert s[1..] == v[1..] + "'" + rest;
      SingleRun(v[1..], rest);
      forall r: string ensures [v[0]] + (v[1..] + r) == v + r { assert v == [v[0]] + v[1..]; }
    }
  }

  // A single quote closed, double-quoted and reopened reads as one single quote.
  lemma QuoteReads(rest: string)
    ensures Word("'\"'\"'" + rest, Single, false) == Prepend('\'', Word(rest, Single, false))
  {
    var s := "'\"'\"'" + rest;
    assert s[1..] == "\"'\"'" + rest;
    assert s[1..][1..] == "'\"'" + rest;
    assert s[1..][1..][1..] == "\"'" + rest;
    assert s[1..][1..][1..][1..] == "'" + rest;
    assert s[1..][1..][1..][1..][1..] == rest;
    assert Word(s[1..][1..][1..][1..], Bare, false) == Word(rest, Single, false);
    assert Word(s[1..][1..], Double, false) == Prepend('\'', Word(s[1..][1..][1..], Double, false));
  }

  lemma {:induction false} EscapedReads(value: string)
    ensures Word(EscapeQuotes(value) + "'", Single, false) == Some(value)
  {
    hide Word;
    if value == "" {
      assert "" + "'" == "'";
      LoneQuote();
    } else {
      var first := if value[0] == '\'' then "'\"'\"'" else [value[0]];
      var rest := EscapeQuotes(value[1..]) + "'";
      assert EscapeQuotes(value) + "'" == first + rest;
      EscapedReads(value[1..]);
      if value[0] == '\'' {
        QuoteReads(rest);
      } else {
        OneInSingle(value[0], rest);
      }
      assert value == [value[0]] + value[1..];
    }
  }

  lemma LoneQuote()
    ensures Word("'", Single, false) == Some("")
  {
    assert "'"[1..] == "";
  }

  lemma OneInSingle(c: char, rest: string)
    requires c != '\''
    ensures Word([c] + rest, Single, false) == Prepend(c, Word(rest, Single, false))
  {
    assert ([c] + rest)[1..] == rest;
  }

  predicate HarmlessAt(v: string, i: nat, tilde: bool)
    requires i < |v|
  {
    v[i] !in ";&|<>()" && (v[i] == '~' ==> if i == 0 then !tilde else v[i - 1] != ':')
  }

  // No character ends the word, and no tilde stands at the start or after a colon.
  predicate Harmless(v: string, tilde: bool) {
    forall i :: 0 <= i < |v| ==> HarmlessAt(v, i, tilde)
  }

  predicate NoQuoting(v: string) {
    forall i :: 0 <= i < |v| ==> !IsWhitespace(v[i]) && v[i] !in "'\"$`\\#"
  }

  lemma NothingHarms(tilde: bool)
    ensures Harmless("", tilde)
  {
  }

  lemma BlanksAreWhitespace(c: char)
    requires c in " \t\n"
    ensures IsWhitespace(c)
  {
  }

  lemma {:induction false} PlainReads(v: string, tilde: bool)
    requires NoQuoting(v)
    ensures Word(v, Bare, tilde) == if Harmless(v, tilde) then Some(v) else None
  {
    hide IsWhitespace, Harmless, HarmlessAt;
    if v == "" {
      NothingHarms(tilde);
    } else {
      var rest := v[1..];
      assert forall i :: 0 <= i < |rest| ==> rest[i] == v[i + 1];
      PlainReads(rest, v[0] == ':');
      HarmlessCons(v, tilde);
      assert !IsWhitespace(v[0]) && v[0] !in "'\"$`\\#";
      if v[0] in " \t\n" {
        BlanksAreWhitespace(v[0]);
      }
      assert v == [v[0]] + rest;
    }
  }

  lemma HarmlessCons(v: string, tilde: bool)
    requires v != ""
    ensures Harmless(v, tilde) <==>
              v[0] !in ";&|<>()" && (v[0] == '~' ==> !tilde) && Harmless(v[1..], v[0] == ':')
  {
    var rest, colon := v[1..], v[0] == ':';
    forall i: nat | i < |rest|
      ensures HarmlessAt(rest, i, colon) <==> HarmlessAt(v, i + 1, tilde)
    {
      assert rest[i] == v[i + 1];
      assert i > 0 ==> rest[i - 1] == v[i];
    }
    assert HarmlessAt(v, 0, tilde) <==> v[0] !in ";&|<>()" && (v[0] == '~' ==> !tilde);
    if Harmless(v, tilde) {
      forall i | 0 <= i < |rest|
        ensures HarmlessAt(rest, i, colon)
      {
        assert HarmlessAt(v, i + 1, tilde);
      }
    }
    if HarmlessAt(v, 0, tilde) && Harmless(rest, colon) {
      forall i | 0 <= i < |v|
        ensures HarmlessAt(v, i, tilde)
      {
        assert i > 0 ==> HarmlessAt(rest, i - 1, colon);
      }
    }
  }

  lemma InSingleQuotes(value: string)
    requires '\'' !in value
    ensures ShellValue("'" + value + "'") == Some(value)
  {
    hide IsWhitespace;
    var s := "'" + value + "'";
    assert s[1..] == value + "'" + "";
    SingleRun(value, "");
    assert value + "" == value;
  }

  lemma InEscapedQuotes(value: string)
    ensures ShellValue("'" + EscapeQuotes(value) + "'") == Some(value)
  {
    hide EscapeQuotes;
    var s := "'" + EscapeQuotes(value) + "'";
    assert s[1..] == EscapeQuotes(value) + "'";
    EscapedReads(value);
  }

  lemma QuotingIs(c: char)
    ensures NeedsQuotes(c) <==> IsWhitespace(c) || c in "\"$`\\#"
  {
  }

  // A shell reads the value written if and only if it was quoted or has nothing to quote: it is
  // empty, has white space or one of the six characters quoted for, or has neither an operator
  // character nor a tilde where one is expanded.
  lemma ShellReadsExactly(value: string)
    ensures ShellValue(ShellQuote(value)) == Some(value)
       <==> value == "" || !NoQuoting(value) || Harmless(value, true)
  {
    hide ShellValue, EscapeQuotes, NeedsQuotes, IsWhitespace, Harmless;
    forall c ensures NeedsQuotes(c) <==> IsWhitespace(c) || c in "\"$`\\#" { QuotingIs(c); }
    if value == "" {
      assert "''" == "'" + "" + "'";
      InSingleQuotes("");
    } else if '\'' in value {
      InEscapedQuotes(value);
    } else if exists i :: 0 <= i < |value| && NeedsQuotes(value[i]) {
      InSingleQuotes(value);
    } else {
      PlainValue(value);
    }
  }

  lemma PlainValue(value: string)
    requires NoQuoting(value)
    ensures ShellValue(value) == if Harmless(value, true) then Some(value) else None
  {
    PlainReads(value, true);
  }

  // The shell and the reader agree on what was written exactly when both conditions hold.
  lemma BothReadExactly(value: string)
    ensures ShellValue(ShellQuote(value)) == Some(Recovered(value))
       <==> '\'' !in value && (value == "" || !NoQuoting(value) || Harmless(value, true))
  {
    hide ShellValue, ShellQuote, Recovered, NoQuoting, Harmless;
    ShellReadsExactly(value);
    RecoveredExactly(value);
    if '\'' in value {
      QuotesShow(value);
    }
  }

  lemma QuotesShow(value: string)
    requires '\'' in value
    ensures !NoQuoting(value)
  {
    var i :| 0 <= i < |value| && value[i] == '\'';
    assert value[i] in "'\"$`\\#";
  }

  // ---- the lines of the file ----

  lemma {:induction false} BlankTrims(b: string)
    requires Blank(b)
    ensures TrimStart(b) == ""
    decreases |b|
  {
    if b != "" {
      BlankTrims(b[1..]);
    }
  }

  lemma BlankSkipped(b: string)
    requires Blank(b)
    ensures ParseLine(b) == None
  {
    hide TrimStart, IsWhitespace;
    BlankTrims(b);
  }

  lemma VisibleSigns()
    ensures !IsWhitespace('#') && !IsWhitespace('=') && !IsWhitespace('"') && !IsWhitespace('\'')
  {
  }

  lemma CommentSkipped(before: string, rest: string)
    requires Blank(before)
    ensures ParseLine(before + "#" + rest) == None
  {
    hide TrimStart, IsWhitespace;
    VisibleSigns();
    assert before + "#" + rest == before + ("#" + rest);
    TrimBlank(before, "#" + rest);
    assert TrimEnd("#" + rest) != "" ==> TrimEnd("#" + rest)[0] == '#';
  }

  lemma PrefixShows(p: string, key: string)
    requires PlainKey(key) && AssignmentPrefix(p, key)
    ensures p != "" && !IsWhitespace(p[0]) && !IsWhitespace(p[|p| - 1])
  {
    assert !IsWhitespace('e') && !IsWhitespace('=');
  }

  // Blanks around the line and before the value are dropped.
  lemma WordRead(before: string, p: string, key: string, gap: string, word: string, after: string)
    requires PlainKey(key) && AssignmentPrefix(p, key) && Visible(word)
    requires Blank(before) && Blank(gap) && Blank(after)
    ensures ParseLine(before + (p + (gap + word)) + after) == Some((key, Unquote(word)))
  {
    hide IsWhitespace, Unquote, Trim, ParseLine, AssignmentPrefix, Blank;
    var body := p + (gap + word);
    PrefixShows(p, key);
    assert body[0] == p[0] && body[|body| - 1] == word[|word| - 1];
    TrimBoth(before, body, after);
    ParseAssignment(before + body + after, p, key, gap + word);
    NothingBlank();
    TrimBoth(gap, word, "");
    assert gap + word + "" == gap + word;
  }

  lemma NothingBlank()
    ensures Blank("")
  {
  }

  // A value in either kind of quotes is read as what they enclose, quotes and all blanks kept.
  lemma QuotedLineReads(before: string, p: string, key: string, gap: string, q: char, value: string, after: string)
    requires PlainKey(key) && AssignmentPrefix(p, key) && q in "\"'"
    requires Blank(before) && Blank(gap) && Blank(after)
    ensures ParseLine(before + (p + (gap + ([q] + value + [q]))) + after) == Some((key, value))
  {
    hide IsWhitespace, ParseLine, AssignmentPrefix, Blank;
    VisibleSigns();
    var word := [q] + value + [q];
    assert word[0] == q && word[|word| - 1] == q && word[1..|word| - 1] == value;
    WordRead(before, p, key, gap, word, after);
  }

  // Any other value is read as it stands.
  lemma BareLineReads(before: string, p: string, key: string, gap: string, value: string, after: string)
    requires PlainKey(key) && AssignmentPrefix(p, key) && Visible(value)
    requires value[0] in "\"'" && value[|value| - 1] == value[0] ==> |value| == 1
    requires Blank(before) && Blank(gap) && Blank(after)
    ensures ParseLine(before + (p + (gap + value)) + after) == Some((key, value))
  {
    hide IsWhitespace, ParseLine, AssignmentPrefix, Blank, PlainKey, Visible;
    WordRead(before, p, key, gap, value, after);
  }

  lemma SliceLacks(s: string, c: char, i: nat, j: nat)
    requires c !in s && i <= j <= |s|
    ensures c !in s[i..j]
  {
    assert forall x :: x in s[i..j] ==> x in s;
  }

  lemma TrimLacks(s: string, c: char)
    requires c !in s
    ensures c !in Trim(s)
  {
    hide IsWhitespace;
    var t := TrimStart(s);
    SliceLacks(s, c, |s| - |t|, |s|);
    SliceLacks(t, c, 0, |TrimEnd(t)|);
  }

  // A line with no equals sign assigns nothing.
  lemma NoAssignment(line: string)
    requires '=' !in line
    ensures ParseLine(line) == None
  {
    hide IsWhitespace, Trim, Unquote;
    var l := Trim(line);
    TrimLacks(line, '=');
    if "export " <= l {
      SliceLacks(l, '=', |"export "|, |l|);
    }
    assert '=' !in StripPrefix(l, "export ");
  }

  // ---- the lines a write replaces ----

  // From position `n` on, after nothing but blanks, the line assigns the key.
  predicate AssignsAt(line: string, key: string, n: nat)
    requires n <= |line|
  {
    Blank(line[..n]) && (key + "=" <= line[n..] || "export " + key + "=" <= line[n..])
  }

  lemma BlankThen(line: string, key: string, n: nat)
    requires PlainKey(key) && n <= |line| && AssignsAt(line, key, n)
    ensures TrimStart(line) == line[n..]
  {
    hide IsWhitespace, PlainKey, TrimStart;
    var p := if key + "=" <= line[n..] then key + "=" else "export " + key + "=";
    PrefixShows(p, key);
    assert line[n..][0] == p[0];
    TrimBlank(line[..n], line[n..]);
    assert line[..n] + line[n..] == line;
  }

  // Every line that begins with the key and an equals sign, plainly or exported and however
  // indented, is replaced, and no other line is.
  lemma ReplacesExactly(line: string, key: string)
    requires PlainKey(key)
    ensures Rewrites(line, key) <==> exists n: nat :: n <= |line| && AssignsAt(line, key, n)
  {
    hide IsWhitespace, PlainKey, TrimStart;
    var t := TrimStart(line);
    var n := |line| - |t|;
    assert line[n..] == t && Blank(line[..n]);
    if Rewrites(line, key) {
      assert AssignsAt(line, key, n);
    }
    if m: nat :| m <= |line| && AssignsAt(line, key, m) {
      BlankThen(line, key, m);
    }
  }

  // So after a write every such line is the one written, and there is one.
  lemma OnlyWritten(lines: seq<string>, key: string, value: string)
    requires PlainKey(key)
    ensures var out := OutLines(lines, key, value);
            && key + "=" + ShellQuote(value) in out
            && forall i :: 0 <= i < |out| && Rewrites(out[i], key) ==> out[i] == key + "=" + ShellQuote(value)
  {
    hide Rewrites, ShellQuote;
    var out := OutLines(lines, key, value);
    if AnyRewrites(lines, key) {
      var i :| 0 <= i < |lines| && Rewrites(lines[i], key);
      assert out[i] == Entry(key, value);
    } else {
      assert out[|lines|] == Entry(key, value);
    }
  }
}
