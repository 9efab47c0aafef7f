/** The secrets file: its reader, its in-place writer, and what a write changes for the reader. */
module SecretsEnv {
  import opened Options
  import opened TextLines

  // ---- the reader ----

  function StripPrefix(s: string, prefix: string): string {
    if prefix <= s then s[|prefix|..] else s
  }

  predicate Wrapped(v: string, q: char) {
    |v| >= 2 && v[0] == q && v[|v| - 1] == q
  }

  function Unquote(v: string): string {
    if Wrapped(v, '"') || Wrapped(v, '\'') then v[1..|v| - 1] else v
  }

  // The assignment a line makes, if any.
  function ParseLine(line: string): Option<(string, string)> {
    ParseTrimmed(Trim(line))
  }

  function ParseTrimmed(l: string): Option<(string, string)> {
    if l == [] || l[0] == '#' then None
    else
      var body := StripPrefix(l, "export ");
      var eq := Find(body, '=');
      if eq == |body| then None
      else
        var key := Trim(body[..eq]);
        if key == [] then None else Some((key, Unquote(Trim(body[eq + 1..]))))
  }

  // Later lines override earlier ones.
  function Load(lines: seq<string>): map<string, string>
    decreases |lines|
  {
    if lines == [] then map[]
    else
      var before := Load(lines[..|lines| - 1]);
      match ParseLine(lines[|lines| - 1])
      case None => before
      case Some((k, v)) => before[k := v]
  }

  method LoadSecretsFrom(file: Option<string>) returns (out: map<string, string>)
    ensures out == if file.None? then map[] else Load(Lines(file.value))
  {
    hide Lines, ParseLine;
    if file.None? {
      return map[];
    }
    var lines := Lines(file.value);
    out := map[];
    for i := 0 to |lines|
      invariant out == Load(lines[..i])
    {
      assert lines[..i + 1][..i] == lines[..i];
      var parsed := ParseLine(lines[i]);
      if parsed.Some? {
        out := out[parsed.value.0 := parsed.value.1];
      }
    }
    assert lines[..|lines|] == lines;
  }

  // ---- the writer ----

  predicate NeedsQuotes(c: char) {
    IsWhitespace(c) || c == '$' || c == '"' || c == '\\' || c == '`' || c == '#'
  }

  // Every single quote closed, double-quoted and reopened.
  function EscapeQuotes(value: string): string {
    if value == [] then []
    else (if value[0] == '\'' then "'\"'\"'" else [value[0]]) + EscapeQuotes(value[1..])
  }

  function ShellQuote(value: string): string {
    if value == [] then "''"
    else if '\'' in value then "'" + EscapeQuotes(value) + "'"
    else if exists i :: 0 <= i < |value| && NeedsQuotes(value[i]) then "'" + value + "'"
    else value
  }

  method QuoteForShell(value: string) returns (out: string)
    ensures out == ShellQuote(value)
  {
    if value == [] {
      return "''";
    }
    if '\'' in value {
      out := "'";
      for i := 0 to |value|
        invariant "'" + EscapeQuotes(value) == out + EscapeQuotes(value[i..])
      {
        assert value[i..][1..] == value[i + 1..];
        if value[i] == '\'' {
          out := out + "'\"'\"'";
        } else {
          out := out + [value[i]];
        }
      }
      out := out + "'";
      return;
    }
    var special := false;
    for i := 0 to |value|
      invariant special <==> exists k :: 0 <= k < i && NeedsQuotes(value[k])
    {
      if NeedsQuotes(value[i]) {
        special := true;
      }
    }
    out := if special then "'" + value + "'" else value;
  }

  function Entry(key: string, value: string): string {
    key + "=" + ShellQuote(value)
  }

  // The lines the writer replaces.
  predicate Rewrites(line: string, key: string) {
    key + "=" <= TrimStart(line) || "export " + key + "=" <= TrimStart(line)
  }

  predicate AnyRewrites(lines: seq<string>, key: string) {
    exists i :: 0 <= i < |lines| && Rewrites(lines[i], key)
  }

  function Replaced(lines: seq<string>, key: string, entry: string): (out: seq<string>)
    ensures |out| == |lines|
    ensures forall i :: 0 <= i < |out| ==> out[i] == if Rewrites(lines[i], key) then entry else lines[i]
  {
    seq(|lines|, i requires 0 <= i < |lines| => if Rewrites(lines[i], key) then entry else lines[i])
  }

  function OutLines(lines: seq<string>, key: string, value: string): seq<string> {
    var entry := Entry(key, value);
    if AnyRewrites(lines, key) then Replaced(lines, key, entry) else Replaced(lines, key, entry) + [entry]
  }

  // Lines joined by line feeds, with one added at the end unless it is there already.
  function Body(lines: seq<string>): string {
    var joined := Join(lines);
    if joined != [] && joined[|joined| - 1] == '\n' then joined else joined + "\n"
  }

  function Join(lines: seq<string>): string {
    if lines == [] then [] else if |lines| == 1 then lines[0] else lines[0] + "\n" + Join(lines[1..])
  }

  datatype Error = EmptyKey

  method WriteSecretTo(existing: string, key: string, value: string) returns (r: Result<string, Error>)
    ensures r == if key == [] then Err(EmptyKey) else Ok(Body(OutLines(Lines(existing), key, value)))
  {
    hide Lines, ShellQuote, Rewrites, Body;
    if key == [] {
      return Err(EmptyKey);
    }
    var lines := Lines(existing);
    var quoted := QuoteForShell(value);
    ghost var entry := Entry(key, value);
    var outLines, replaced := [], false;
    for i := 0 to |lines|
      invariant outLines == Replaced(lines, key, entry)[..i]
      invariant replaced <==> exists k :: 0 <= k < i && Rewrites(lines[k], key)
    {
      if Rewrites(lines[i], key) {
        outLines := outLines + [key + "=" + quoted];
        replaced := true;
      } else {
        outLines := outLines + [lines[i]];
      }
    }
    if !replaced {
      outLines := outLines + [key + "=" + quoted];
    }
    assert replaced <==> AnyRewrites(lines, key);
    assert outLines == OutLines(lines, key, value);
    r := Ok(Body(outLines));
  }

  // ---- reading back one entry ----

  // A name the reader returns unchanged; every shell identifier is one.
  predicate PlainKey(key: string) {
    && key != [] && key[0] != '#' && '=' !in key
    && forall i :: 0 <= i < |key| ==> !IsWhitespace(key[i])
  }

  // What the reader recovers from a quoted value.
  function Recovered(value: string): string {
    Unquote(Trim(ShellQuote(value)))
  }

  lemma TrimKeeps(s: string)
    requires s == [] || (!IsWhitespace(s[0]) && !IsWhitespace(s[|s| - 1]))
    ensures Trim(s) == s
  {
  }

  lemma {:induction false} EscapeLength(value: string)
    ensures |EscapeQuotes(value)| >= |value|
    ensures '\'' in value ==> |EscapeQuotes(value)| > |value|
    decreases |value|
  {
    if value != [] {
      EscapeLength(value[1..]);
      if value[0] != '\'' && '\'' in value {
        assert '\'' in value[1..];
      }
    }
  }

  lemma ReadQuoted(inner: string)
    ensures Unquote(Trim("'" + inner + "'")) == inner
  {
    hide Trim;
    var q := "'" + inner + "'";
    assert q[0] == '\'' && q[|q| - 1] == '\'';
    TrimKeeps(q);
    assert q[1..|q| - 1] == inner;
  }

  lemma ReadPlain(value: string)
    requires value != [] && '\'' !in value && forall i :: 0 <= i < |value| ==> !NeedsQuotes(value[i])
    ensures Unquote(Trim(value)) == value
  {
    assert !NeedsQuotes(value[0]) && !NeedsQuotes(value[|value| - 1]);
    TrimKeeps(value);
  }

  // A value survives quoting and reading exactly when it has no single quote.
  lemma RecoveredExactly(value: string)
    ensures Recovered(value) == value <==> '\'' !in value
  {
    hide Trim, Unquote, NeedsQuotes;
    if value == [] {
      ReadQuoted("");
      assert "''" == "'" + "" + "'";
    } else if '\'' in value {
      EscapeLength(value);
      ReadQuoted(EscapeQuotes(value));
    } else if exists i :: 0 <= i < |value| && NeedsQuotes(value[i]) {
      ReadQuoted(value);
    } else {
      ReadPlain(value);
    }
  }

  lemma NotExport(key: string, rest: string)
    requires PlainKey(key)
    ensures !("export " <= key + "=" + rest)
  {
    var t := key + "=" + rest;
    if |key| > 6 {
      assert t[6] == key[6] && !IsWhitespace(key[6]);
    } else {
      assert t[|key|] == '=';
    }
  }

  lemma ParseBody(key: string, rest: string)
    requires PlainKey(key)
    ensures var t := key + "=" + rest;
            Find(t, '=') == |key| && Trim(t[..|key|]) == key && t[|key| + 1..] == rest
  {
    var t := key + "=" + rest;
    assert t[..|key|] == key;
    FindIs(t, '=', |key|);
    TrimKeeps(key);
  }

  predicate AssignmentPrefix(p: string, key: string) {
    p == key + "=" || p == "export " + key + "="
  }

  lemma StripExport(p: string, key: string, rest: string)
    requires PlainKey(key) && AssignmentPrefix(p, key)
    ensures StripPrefix(p + rest, "export ") == key + "=" + rest
    ensures p != [] && (p + rest)[0] != '#'
  {
    if p == key + "=" {
      NotExport(key, rest);
    } else {
      assert p + rest == "export " + (key + "=" + rest);
    }
  }

  // A trimmed line that assigns a plain key, with or without `export`.
  lemma ParseAssignment(l: string, p: string, key: string, rest: string)
    requires PlainKey(key) && AssignmentPrefix(p, key) && Trim(l) == p + rest
    ensures ParseLine(l) == Some((key, Unquote(Trim(rest))))
  {
    hide Trim, Find, Unquote, StripPrefix, AssignmentPrefix;
    StripExport(p, key, rest);
    ParseBody(key, rest);
    assert |key + "=" + rest| > |key|;
  }

  // Trimming the end keeps a prefix that ends in a visible character.
  lemma TrimKeepsPrefix(line: string, p: string)
    requires p != [] && !IsWhitespace(p[|p| - 1]) && p <= TrimStart(line)
    ensures p <= Trim(line)
  {
    assert TrimStart(line)[|p| - 1] == p[|p| - 1];
  }

  // Every line the writer replaces was read as an assignment to that key.
  lemma RewrittenAssigns(line: string, key: string)
    requires PlainKey(key) && Rewrites(line, key)
    ensures ParseLine(line).Some? && ParseLine(line).value.0 == key
  {
    hide Trim, TrimStart, ParseLine, PlainKey;
    var p := if key + "=" <= TrimStart(line) then key + "=" else "export " + key + "=";
    ExtendsAssigns(line, key, p);
  }

  lemma PrefixEnd(p: string, key: string)
    requires AssignmentPrefix(p, key)
    ensures p != [] && p[|p| - 1] == '='
  {
  }

  lemma ExtendsAssigns(line: string, key: string, p: string)
    requires PlainKey(key) && AssignmentPrefix(p, key) && p <= TrimStart(line)
    ensures ParseLine(line).Some? && ParseLine(line).value.0 == key
  {
    hide Trim, TrimStart, ParseLine, AssignmentPrefix;
    PrefixEnd(p, key);
    TrimKeepsPrefix(line, p);
    var rest := Trim(line)[|p|..];
    assert Trim(line) == p + rest;
    ParseAssignment(line, p, key, rest);
  }

  // The entry the writer emits is read back as the recovered value.
  lemma EntryAssigns(key: string, value: string)
    requires PlainKey(key)
    ensures ParseLine(Entry(key, value)) == Some((key, Recovered(value)))
  {
    hide Unquote, ParseLine;
    var q := ShellQuote(value);
    var e := Entry(key, value);
    QuotedEnd(value);
    assert e[0] == key[0] && e == key + "=" + q;
    TrimKeeps(e);
    ParseAssignment(e, key + "=", key, q);
  }

  // A quoted value is never blank and never ends in white space.
  lemma QuotedEnd(value: string)
    ensures ShellQuote(value) != [] && !IsWhitespace(ShellQuote(value)[|ShellQuote(value)| - 1])
  {
    var q := ShellQuote(value);
    if q == value {
      assert !NeedsQuotes(value[|value| - 1]);
    } else {
      assert q[|q| - 1] == '\'';
    }
  }

  // ---- what a write changes for the reader ----

  predicate Assigns(line: string, key: string) {
    ParseLine(line).Some? && ParseLine(line).value.0 == key
  }

  function ValueOf(line: string): string {
    if ParseLine(line).Some? then ParseLine(line).value.1 else ""
  }

  lemma LoadSnoc(lines: seq<string>, line: string)
    ensures Load(lines + [line]) ==
            match ParseLine(line)
            case None => Load(lines)
            case Some((k, v)) => Load(lines)[k := v]
  {
    hide ParseLine;
    assert (lines + [line])[..|lines|] == lines;
  }

  lemma {:induction false} LoadEquivalent(a: seq<string>, b: seq<string>)
    requires |a| == |b| && forall i :: 0 <= i < |a| ==> ParseLine(a[i]) == ParseLine(b[i])
    ensures Load(a) == Load(b)
    decreases |a|
  {
    hide ParseLine;
    if a != [] {
      var n := |a| - 1;
      LoadEquivalent(a[..n], b[..n]);
      assert ParseLine(a[n]) == ParseLine(b[n]);
    } else {
      assert b == [];
    }
  }

  lemma MinusUpdate(a: map<string, string>, b: map<string, string>, k: string, v: string, w: string, key: string)
    requires a - {key} == b - {key} && (v == w || k == key)
    ensures a[k := v] - {key} == b[k := w] - {key}
  {
    assert a[k := v] - {key} == if k == key then a - {key} else (a - {key})[k := v];
    assert b[k := w] - {key} == if k == key then b - {key} else (b - {key})[k := w];
  }

  // Every key but the written one is read as before.
  lemma {:induction false} OthersKept(lines: seq<string>, key: string, entry: string)
    requires PlainKey(key) && Assigns(entry, key)
    ensures Load(Replaced(lines, key, entry)) - {key} == Load(lines) - {key}
    decreases |lines|
  {
    hide ParseLine, Rewrites, PlainKey;
    if lines != [] {
      var n := |lines| - 1;
      OthersKept(lines[..n], key, entry);
      var out := Replaced(lines, key, entry);
      assert out[..n] == Replaced(lines[..n], key, entry);
      if Rewrites(lines[n], key) {
        RewrittenAssigns(lines[n], key);
      }
      var p, q := ParseLine(lines[n]), ParseLine(out[n]);
      if p.Some? {
        MinusUpdate(Load(out[..n]), Load(lines[..n]), p.value.0, q.value.1, p.value.1, key);
      }
    }
  }

  // The last line that assigns the key.
  function LastAssignment(lines: seq<string>, key: string): (i: Option<nat>)
    ensures i.Some? ==> i.value < |lines|
    decreases |lines|
  {
    if lines == [] then None
    else if Assigns(lines[|lines| - 1], key) then Some(|lines| - 1)
    else LastAssignment(lines[..|lines| - 1], key)
  }

  lemma {:induction false} LoadIsLast(lines: seq<string>, key: string)
    ensures key in Load(lines) <==> LastAssignment(lines, key).Some?
    ensures key in Load(lines) ==> Load(lines)[key] == ValueOf(lines[LastAssignment(lines, key).value])
    decreases |lines|
  {
    hide ParseLine;
    if lines != [] {
      LoadIsLast(lines[..|lines| - 1], key);
    }
  }

  lemma {:induction false} LastReplaced(lines: seq<string>, key: string, entry: string)
    requires PlainKey(key) && Assigns(entry, key)
    ensures LastAssignment(Replaced(lines, key, entry), key) == LastAssignment(lines, key)
    decreases |lines|
  {
    hide ParseLine, Rewrites, PlainKey;
    if lines != [] {
      var n := |lines| - 1;
      LastReplaced(lines[..n], key, entry);
      assert Replaced(lines, key, entry)[..n] == Replaced(lines[..n], key, entry);
      if Rewrites(lines[n], key) {
        RewrittenAssigns(lines[n], key);
      }
    }
  }

  // Some line is replaced, but a later one assigns the key in a form the writer overlooks.
  predicate Shadowed(lines: seq<string>, key: string) {
    && AnyRewrites(lines, key)
    && LastAssignment(lines, key).Some?
    && !Rewrites(lines[LastAssignment(lines, key).value], key)
  }

  // What the reader finds under the key after a write.
  function Stored(lines: seq<string>, key: string, value: string): string {
    if Shadowed(lines, key) then ValueOf(lines[LastAssignment(lines, key).value]) else Recovered(value)
  }

  lemma {:induction false} RewritesThenAssigned(lines: seq<string>, key: string, i: nat)
    requires PlainKey(key) && i < |lines| && Rewrites(lines[i], key)
    ensures LastAssignment(lines, key).Some?
    decreases |lines|
  {
    hide ParseLine, Rewrites, PlainKey;
    var n := |lines| - 1;
    if !Assigns(lines[n], key) {
      if i == n {
        RewrittenAssigns(lines[n], key);
      }
      RewritesThenAssigned(lines[..n], key, i);
    }
  }

  lemma LoadOutLines(lines: seq<string>, key: string, value: string)
    requires PlainKey(key)
    ensures var m := Load(OutLines(lines, key, value));
            m - {key} == Load(lines) - {key} && key in m && m[key] == Stored(lines, key, value)
  {
    hide ParseLine, Rewrites, PlainKey, Recovered, Entry;
    var entry := Entry(key, value);
    EntryAssigns(key, value);
    var replaced := Replaced(lines, key, entry);
    OthersKept(lines, key, entry);
    if AnyRewrites(lines, key) {
      var i :| 0 <= i < |lines| && Rewrites(lines[i], key);
      RewritesThenAssigned(lines, key, i);
      LastReplaced(lines, key, entry);
      LoadIsLast(replaced, key);
    } else {
      LoadSnoc(replaced, entry);
    }
  }

  // ---- from lines to file contents ----

  lemma {:induction false} TrimStartCr(l: string)
    ensures TrimStart(l + "\r") == if TrimStart(l) == [] then [] else TrimStart(l) + "\r"
    decreases |l|
  {
    if l == [] {
      assert l + "\r" == ['\r'] && ['\r'][1..] == [];
    } else if IsWhitespace(l[0]) {
      assert (l + "\r")[1..] == l[1..] + "\r";
      TrimStartCr(l[1..]);
    }
  }

  lemma TrimEndCr(t: string)
    ensures TrimEnd(t + "\r") == TrimEnd(t)
  {
    assert (t + "\r")[..|t|] == t;
  }

  lemma TrimCr(l: string)
    ensures Trim(StripCr(l)) == Trim(l)
  {
    hide TrimStart, TrimEnd;
    var m := StripCr(l);
    if m != l {
      assert l == m + "\r";
      TrimStartCr(m);
      TrimEndCr(TrimStart(m));
      TrimEndEmpty();
    }
  }

  lemma TrimEndEmpty()
    ensures TrimEnd([]) == []
  {
  }

  lemma ParseCr(l: string)
    ensures ParseLine(StripCr(l)) == ParseLine(l)
  {
    hide ParseTrimmed, Trim;
    TrimCr(l);
  }

  lemma LoadCr(lines: seq<string>)
    ensures Load(CrStripped(lines)) == Load(lines)
  {
    forall i | 0 <= i < |lines|
      ensures ParseLine(CrStripped(lines)[i]) == ParseLine(lines[i])
    {
      ParseCr(lines[i]);
    }
    LoadEquivalent(CrStripped(lines), lines);
  }

  lemma {:induction false} JoinIsConcat(lines: seq<string>)
    requires lines != []
    ensures Join(lines) + "\n" == Concat(Terminate(lines))
    decreases |lines|
  {
    assert Terminate(lines)[1..] == Terminate(lines[1..]);
    if |lines| > 1 {
      JoinIsConcat(lines[1..]);
    } else {
      assert lines[1..] == [];
      assert Concat(Terminate(lines)) == lines[0] + "\n" + Concat([]);
    }
  }

  lemma {:induction false} JoinEnds(lines: seq<string>)
    requires lines != [] && forall i :: 0 <= i < |lines| ==> NoNewline(lines[i])
    ensures var j := Join(lines);
            j != [] && j[|j| - 1] == '\n' ==>
              |lines| > 1 && lines[|lines| - 1] == [] && j == Concat(Terminate(lines[..|lines| - 1]))
    decreases |lines|
  {
    if |lines| > 1 {
      var rest := lines[1..];
      JoinEnds(rest);
      var n := |lines| - 1;
      assert Terminate(lines[..n])[1..] == Terminate(lines[..n][1..]);
      assert lines[..n][1..] == rest[..n - 1];
      if Join(rest) == [] {
        assert rest[0] == [] && |rest| == 1;
        assert Concat(Terminate(lines[..n])) == lines[0] + "\n" + Concat([]);
      }
    } else {
      assert NoNewline(lines[0]);
    }
  }

  lemma LoadTerminated(lines: seq<string>)
    requires forall i :: 0 <= i < |lines| ==> NoNewline(lines[i])
    ensures Load(Lines(Concat(Terminate(lines)))) == Load(lines)
  {
    hide Lines, Load, Concat, Terminate, CrStripped;
    LinesOfTerminated(lines);
    LoadCr(lines);
  }

  lemma LoadDropBlank(lines: seq<string>)
    requires lines != [] && lines[|lines| - 1] == []
    ensures Load(lines) == Load(lines[..|lines| - 1])
  {
    hide ParseLine;
    BlankLine();
  }

  // The lines that reach the file: a blank last line is absorbed by the final line feed.
  function Kept(lines: seq<string>): (k: seq<string>)
    requires lines != []
    ensures forall l :: l in k ==> l in lines
  {
    var j := Join(lines);
    if j != [] && j[|j| - 1] == '\n' then lines[..|lines| - 1] else lines
  }

  predicate OneLineEach(lines: seq<string>) {
    forall i :: 0 <= i < |lines| ==> NoNewline(lines[i])
  }

  lemma BodyIsKept(lines: seq<string>)
    requires lines != [] && OneLineEach(lines)
    ensures Body(lines) == Concat(Terminate(Kept(lines)))
    ensures Kept(lines) != lines ==> Kept(lines) == lines[..|lines| - 1] && lines[|lines| - 1] == []
  {
    hide Concat, Terminate, Join;
    JoinEnds(lines);
    JoinIsConcat(lines);
  }

  lemma KeptOneLine(lines: seq<string>)
    requires lines != [] && OneLineEach(lines)
    ensures OneLineEach(Kept(lines))
  {
    hide Join;
  }

  // Writing lines and reading them back gives the reader the same assignments.
  lemma LoadBody(lines: seq<string>)
    requires lines != [] && OneLineEach(lines)
    ensures Load(Lines(Body(lines))) == Load(lines)
  {
    hide Lines, Load, Concat, Terminate, Body, Kept;
    BodyIsKept(lines);
    KeptOneLine(lines);
    LoadTerminated(Kept(lines));
    if Kept(lines) != lines {
      LoadDropBlank(lines);
    }
  }

  lemma BlankLine()
    ensures ParseLine([]) == None
  {
  }

  // What the file reads as after a write.
  function Written(existing: string, key: string, value: string): string {
    Body(OutLines(Lines(existing), key, value))
  }

  lemma {:induction false} EscapeNoNewline(value: string)
    requires NoNewline(value)
    ensures NoNewline(EscapeQuotes(value))
    decreases |value|
  {
    if value != [] {
      assert value[0] in value;
      assert NoNewline(value[1..]) by {
        forall c | c in value[1..]
          ensures c in value
        {
        }
      }
      EscapeNoNewline(value[1..]);
    }
  }

  lemma OutLinesNoNewline(lines: seq<string>, key: string, value: string)
    requires NoNewline(key) && NoNewline(value)
    requires forall i :: 0 <= i < |lines| ==> NoNewline(lines[i])
    ensures var out := OutLines(lines, key, value);
            out != [] && OneLineEach(out)
  {
    hide Rewrites;
    EscapeNoNewline(value);
    assert NoNewline(Entry(key, value));
  }

  // For a value on one line: the written key reads as `Stored`, and every other key reads
  // exactly as before, for any file contents.
  lemma WriteThenLoad(existing: string, key: string, value: string)
    requires PlainKey(key) && NoNewline(value)
    ensures var m := Load(Lines(Written(existing, key, value)));
            && m - {key} == Load(Lines(existing)) - {key}
            && key in m && m[key] == Stored(Lines(existing), key, value)
  {
    hide Lines, ParseLine, Body;
    var lines := Lines(existing);
    LinesHaveNoNewline(existing);
    PlainNoNewline(key);
    OutLinesNoNewline(lines, key, value);
    LoadBody(OutLines(lines, key, value));
    LoadOutLines(lines, key, value);
  }

  lemma PlainNoNewline(key: string)
    requires PlainKey(key)
    ensures NoNewline(key)
  {
    forall i | 0 <= i < |key|
      ensures key[i] != '\n'
    {
      assert !IsWhitespace(key[i]);
    }
  }

  lemma {:induction false} LoadedOnOneLine(lines: seq<string>, key: string)
    requires forall i :: 0 <= i < |lines| ==> NoNewline(lines[i])
    requires key in Load(lines)
    ensures NoNewline(Load(lines)[key])
    decreases |lines|
  {
    var n := |lines| - 1;
    var p := ParseLine(lines[n]);
    if p.Some? && p.value.0 == key {
      ValueOnOneLine(lines[n]);
    } else {
      LoadedOnOneLine(lines[..n], key);
    }
  }

  // The value of an assignment is a piece of its line.
  lemma ValueOnOneLine(line: string)
    requires NoNewline(line) && ParseLine(line).Some?
    ensures NoNewline(ParseLine(line).value.1)
  {
    hide Trim, Find, StripPrefix;
    var l := Trim(line);
    var body := StripPrefix(l, "export ");
    var v := Trim(body[Find(body, '=') + 1..]);
    TrimNoNewline(line);
    StripNoNewline(l, "export ");
    Slice(body, Find(body, '=') + 1, |body|);
    TrimNoNewline(body[Find(body, '=') + 1..]);
    if |v| >= 2 {
      Slice(v, 1, |v| - 1);
    }
  }

  lemma Slice(s: string, i: nat, j: nat)
    requires NoNewline(s) && i <= j <= |s|
    ensures NoNewline(s[i..j])
  {
  }

  lemma TrimNoNewline(s: string)
    requires NoNewline(s)
    ensures NoNewline(Trim(s))
  {
    var t := TrimStart(s);
    Slice(s, |s| - |t|, |s|);
    Slice(t, 0, |TrimEnd(t)|);
  }

  lemma StripNoNewline(s: string, prefix: string)
    requires NoNewline(s)
    ensures NoNewline(StripPrefix(s, prefix))
  {
    if prefix <= s {
      Slice(s, |prefix|, |s|);
    }
  }

  // A value is read back as written exactly when it holds neither a single quote nor a line
  // feed, provided no later line assigns the key in a form the writer overlooks.
  lemma WriteExact(existing: string, key: string, value: string)
    requires PlainKey(key) && !Shadowed(Lines(existing), key)
    ensures var m := Load(Lines(Written(existing, key, value)));
            (key in m && m[key] == value) <==> ('\'' !in value && NoNewline(value))
  {
    hide Lines, ParseLine, Body;
    var text := Written(existing, key, value);
    LinesHaveNoNewline(text);
    if NoNewline(value) {
      WriteThenLoad(existing, key, value);
      RecoveredExactly(value);
    } else if key in Load(Lines(text)) {
      LoadedOnOneLine(Lines(text), key);
    }
  }

  // ---- a shadowed file ----

  // The two-line file `K=1`, `K =2`: the writer replaces the first line, the reader takes the
  // second, so no value written is ever read.
  lemma ShadowedFile(key: string, value: string)
    requires PlainKey(key) && key != "export"
    ensures var lines := [key + "=1", key + " =2"];
            Shadowed(lines, key) && Stored(lines, key, value) == "2"
  {
    hide Trim, TrimStart, Unquote, ParseLine, IsWhitespace;
    var first, second := key + "=1", key + " =2";
    var lines := [first, second];
    SpacedAssignment(key);
    SpacedOverlooked(key);
    assert Rewrites(first, key) by { PlainStart(key, "=1"); assert key + "=" <= first; }
    assert lines[0] == first && AnyRewrites(lines, key);
    assert Assigns(second, key) && ValueOf(second) == "2";
    assert lines[|lines| - 1] == second;
    assert LastAssignment(lines, key) == Some(1);
  }

  lemma PlainStart(key: string, rest: string)
    requires PlainKey(key)
    ensures TrimStart(key + rest) == key + rest
  {
    assert (key + rest)[0] == key[0];
  }

  lemma NotExported(key: string)
    requires PlainKey(key) && key != "export"
    ensures !("export " <= key + " =2")
  {
    var t := key + " =2";
    assert |t| > 6 && t[6] == ' ' ==> |key| <= 6;
    assert |key| <= 6 ==> t[|key|] == ' ' && t[..|key|] == key;
  }

  // An assignment with a space before the `=`: the writer overlooks it ...
  lemma SpacedOverlooked(key: string)
    requires PlainKey(key) && key != "export"
    ensures !Rewrites(key + " =2", key)
  {
    hide TrimStart, IsWhitespace;
    var t := key + " =2";
    PlainStart(key, " =2");
    NotExported(key);
    assert (key + "=")[|key|] != t[|key|];
    PrefixTransitive("export ", key + "=", t);
  }

  lemma PrefixTransitive(p: string, q: string, t: string)
    ensures p + q <= t ==> p <= t
  {
    assert p <= p + q;
  }

  // ... and the reader takes it like any other.
  lemma SpacedAssignment(key: string)
    requires PlainKey(key) && key != "export"
    ensures ParseLine(key + " =2") == Some((key, "2"))
  {
    hide Trim, TrimStart, IsWhitespace, Unquote;
    var t := key + " =2";
    NotExported(key);
    assert t[..|key| + 1] == key + " " && t[|key| + 2..] == "2" && t[|key| + 1] == '=';
    assert '=' !in key + " ";
    FindIs(t, '=', |key| + 1);
    SpaceTrimmed(key);
    LineTrimmed(key);
    TwoTrimmed();
  }

  lemma TwoTrimmed()
    ensures Unquote(Trim("2")) == "2"
  {
    hide Trim;
    TrimKeeps("2");
  }

  lemma LineTrimmed(key: string)
    requires PlainKey(key)
    ensures Trim(key + " =2") == key + " =2"
  {
    assert (key + " =2")[0] == key[0];
    TrimKeeps(key + " =2");
  }

  lemma SpaceTrimmed(key: string)
    requires PlainKey(key)
    ensures Trim(key + " ") == key
  {
    PlainStart(key, " ");
    var s := key + " ";
    assert s[..|s| - 1] == key && !IsWhitespace(key[|key| - 1]);
    assert TrimEnd(s) == TrimEnd(key) == key;
  }
}
