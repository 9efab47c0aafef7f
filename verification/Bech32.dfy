/**
 The bech32 encoder and decoder for age identities, and what a reader of the text can
 rely on. Letter case is that of ASCII letters, and of the one other character whose lower
 case is among them.
 */
module Bech32 {
  import opened Options
  import opened BitXor
  import opened Bech32Step
  import opened Bech32Checksum
  import opened Bech32Groups

  type Ascii = c: char | c as int < 128

  // A human-readable part; every other text is a plain string.
  type Text = seq<Ascii>

  // The bytes of an ASCII text.
  function Bytes(t: Text): (bs: seq<Byte>)
    ensures |bs| == |t| && forall i :: 0 <= i < |t| ==> bs[i] == t[i] as int
  {
    seq(|t|, i requires 0 <= i < |t| => t[i] as int)
  }

  const CHARSET: string := "qpzry9x8gf2tvdw0s3jn54khce6mua7l"

  function Upper(c: char): char {
    if 'a' <= c <= 'z' then (c as int - 32) as char else c
  }

  // The Kelvin sign is an upper-case `k` too.
  function Lower(c: char): char {
    if 'A' <= c <= 'Z' then (c as int + 32) as char else if c == '\U{212A}' then 'k' else c
  }

  function UpperAll(s: string): (u: string)
    ensures |u| == |s| && forall i :: 0 <= i < |s| ==> u[i] == Upper(s[i])
  {
    seq(|s|, i requires 0 <= i < |s| => Upper(s[i]))
  }

  function LowerAll(s: string): (l: string)
    ensures |l| == |s| && forall i :: 0 <= i < |s| ==> l[i] == Lower(s[i])
  {
    seq(|s|, i requires 0 <= i < |s| => Lower(s[i]))
  }

  // CHARSET[v], as a table.
  function Letter(v: Symbol): char {
    if v == 0 then 'q' else if v == 1 then 'p' else if v == 2 then 'z' else if v == 3 then 'r'
    else if v == 4 then 'y' else if v == 5 then '9' else if v == 6 then 'x' else if v == 7 then '8'
    else if v == 8 then 'g' else if v == 9 then 'f' else if v == 10 then '2' else if v == 11 then 't'
    else if v == 12 then 'v' else if v == 13 then 'd' else if v == 14 then 'w' else if v == 15 then '0'
    else if v == 16 then 's' else if v == 17 then '3' else if v == 18 then 'j' else if v == 19 then 'n'
    else if v == 20 then '5' else if v == 21 then '4' else if v == 22 then 'k' else if v == 23 then 'h'
    else if v == 24 then 'c' else if v == 25 then 'e' else if v == 26 then '6' else if v == 27 then 'm'
    else if v == 28 then 'u' else if v == 29 then 'a' else if v == 30 then '7' else 'l'
  }

  function Letters(symbols: Symbols): (t: string)
    ensures |t| == |symbols| && forall i :: 0 <= i < |t| ==> t[i] == Letter(symbols[i])
  {
    seq(|symbols|, i requires 0 <= i < |symbols| => Letter(symbols[i]))
  }

  // The data part with its checksum, as symbols.
  function Payload(hrp: Text, data: seq<Byte>): Symbols {
    Groups(data) + Checksum(Bytes(hrp), Groups(data))
  }

  function Encoded(hrp: Text, data: seq<Byte>): string {
    TextOf(hrp, Payload(hrp, data))
  }

  function TextOf(hrp: string, symbols: Symbols): string {
    UpperAll(hrp + "1" + Letters(symbols))
  }

  function LastOne(s: string): (i: Option<nat>)
    ensures i.Some? ==> i.value < |s| && s[i.value] == '1' && '1' !in s[i.value + 1..]
    ensures i.None? ==> '1' !in s
  {
    if s == [] then None
    else if s[|s| - 1] == '1' then Some(|s| - 1)
    else LastOne(s[..|s| - 1])
  }

  function Position(c: char, from: nat): (p: Option<Symbol>)
    requires from <= 32
    ensures p.Some? ==> Letter(p.value) == c
    decreases 32 - from
  {
    if from == 32 then None
    else if Letter(from) == c then Some(from)
    else Position(c, from + 1)
  }

  function Symbolize(s: string): (r: Option<Symbols>)
    ensures r.Some? ==> |r.value| == |s|
    ensures r.Some? ==> forall i :: 0 <= i < |s| ==> Position(s[i], 0) == Some(r.value[i])
  {
    if s == [] then Some([])
    else
      match Position(s[0], 0)
      case None => None
      case Some(v) =>
        var rest := Symbolize(s[1..]);
        if rest.None? then None else Some([v] + rest.value)
  }

  function Decoded(s: string): Option<(string, Symbols)> {
    var lower := LowerAll(s);
    match LastOne(lower)
    case None => None
    case Some(sep) =>
      if sep == 0 then None
      else
        match Symbolize(lower[sep + 1..])
        case None => None
        case Some(symbols) => Some((lower[..sep], symbols))
  }

  // ---- the source's loops ----

  method Polymod(values: seq<nat>) returns (chk: nat)
    ensures chk == Residue(1, values)
  {
    chk := 1;
    for k := 0 to |values|
      invariant Residue(1, values) == Residue(chk, values[k..])
    {
      ghost var before := chk;
      assert values[k..][1..] == values[k + 1..];
      var top := Hi(chk, 25);
      chk := Xor(Shl(Lo(chk, 25), 5), values[k]);
      ghost var fed := chk;
      for i := 0 to |GEN|
        invariant chk == Tapped(fed, top, i)
      {
        if Hi(top, i) % 2 == 1 {
          chk := Xor(chk, GEN[i]);
        }
      }
      assert chk == Step(before, values[k]);
    }
  }

  method HrpExpansion(hrp: seq<Byte>) returns (v: Symbols)
    ensures v == HrpExpand(hrp)
    ensures |v| == 2 * |hrp| + 1 && v[|hrp|] == 0
    ensures forall i :: 0 <= i < |hrp| ==> hrp[i] == 32 * (v[i] as int) + v[|hrp| + 1 + i]
  {
    v := [];
    for i := 0 to |hrp|
      invariant v == HrpExpand(hrp)[..i]
    {
      v := v + [hrp[i] / 32];
    }
    v := v + [0];
    for i := 0 to |hrp|
      invariant v == HrpExpand(hrp)[..|hrp| + 1 + i]
    {
      v := v + [hrp[i] % 32];
    }
  }

  method CreateChecksum(hrp: seq<Byte>, data: Symbols) returns (out: array<Symbol>)
    ensures fresh(out) && out[..] == Checksum(hrp, data)
  {
    var values := HrpExpansion(hrp);
    values := values + data + Zeros(6);
    var residue := Polymod(values);
    var pm := Xor(residue, BECH32_RESIDUE);
    out := new Symbol[6];
    for i := 0 to 6
      invariant out[..i] == Checksum(hrp, data)[..i]
    {
      out[i] := Hi(pm, 5 * (5 - i)) % 32;
      DigitAt(pm, i);
    }
  }

  lemma DigitAt(pm: nat, i: nat)
    requires i < 6
    ensures Hi(pm, 5 * (5 - i)) % 32 == Digits6(pm)[i]
  {
    Powers(pm);
    HiGroup(pm, 0);
    HiGroup(pm / 0x20, 0);
    HiGroup(pm / 0x400, 0);
    HiGroup(pm / 0x8000, 0);
    HiGroup(pm / 0x100000, 0);
    HiGroup(pm, 5);
    HiGroup(pm, 10);
    HiGroup(pm / 0x20, 5);
    HiGroup(pm, 15);
    HiGroup(pm / 0x20, 10);
    HiGroup(pm / 0x400, 5);
    HiGroup(pm, 20);
    HiGroup(pm / 0x20, 15);
    HiGroup(pm / 0x400, 10);
    HiGroup(pm / 0x8000, 5);
  }

  method Encode(hrp: Text, data: seq<Byte>) returns (s: string)
    ensures s == Encoded(hrp, data)
  {
    var data5 := ConvertBits8to5(data);
    var checksum := CreateChecksum(Bytes(hrp), data5);
    var chain: Symbols := data5 + checksum[..];
    assert chain == Payload(hrp, data);
    s := Spell(hrp, chain);
  }

  method Spell(hrp: string, chain: Symbols) returns (s: string)
    ensures s == TextOf(hrp, chain)
  {
    s := hrp + "1";
    for i := 0 to |chain|
      invariant s == hrp + "1" + Letters(chain)[..i]
    {
      s := s + [Letter(chain[i] % 32)];
    }
    s := UpperAll(s);
  }

  lemma {:induction false} SymbolizeIs(s: string, v: Symbols)
    requires |s| == |v|
    requires forall k :: 0 <= k < |s| ==> Position(s[k], 0) == Some(v[k])
    ensures Symbolize(s) == Some(v)
  {
    if s != [] {
      assert Position(s[0], 0) == Some(v[0]);
      forall k | 0 <= k < |s[1..]|
        ensures Position(s[1..][k], 0) == Some(v[1..][k])
      {
        assert Position(s[k + 1], 0) == Some(v[k + 1]);
      }
      SymbolizeIs(s[1..], v[1..]);
      assert v == [v[0]] + v[1..];
    }
  }

  method Decode(s: string) returns (r: Option<(string, Symbols)>)
    ensures r == Decoded(s)
  {
    var lower := LowerAll(s);
    var sep := LastOne(lower);
    if sep.None? {
      return None;
    }
    var hrp := lower[..sep.value];
    if hrp == [] {
      return None;
    }
    var tail := lower[sep.value + 1..];
    var data5: Symbols := [];
    for i := 0 to |tail|
      invariant |data5| == i
      invariant forall k :: 0 <= k < i ==> Position(tail[k], 0) == Some(data5[k])
    {
      var pos := Position(tail[i], 0);
      if pos.None? {
        return None;
      }
      data5 := data5 + [pos.value];
    }
    SymbolizeIs(tail, data5);
    r := Some((hrp, data5));
  }

  // ---- round trip ----

  // The position of every character of the alphabet, given as its inverse.
  function Rank(c: char): nat {
    if c == 'q' then 0 else if c == 'p' then 1 else if c == 'z' then 2 else if c == 'r' then 3
    else if c == 'y' then 4 else if c == '9' then 5 else if c == 'x' then 6 else if c == '8' then 7
    else if c == 'g' then 8 else if c == 'f' then 9 else if c == '2' then 10 else if c == 't' then 11
    else if c == 'v' then 12 else if c == 'd' then 13 else if c == 'w' then 14 else if c == '0' then 15
    else if c == 's' then 16 else if c == '3' then 17 else if c == 'j' then 18 else if c == 'n' then 19
    else if c == '5' then 20 else if c == '4' then 21 else if c == 'k' then 22 else if c == 'h' then 23
    else if c == 'c' then 24 else if c == 'e' then 25 else if c == '6' then 26 else if c == 'm' then 27
    else if c == 'u' then 28 else if c == 'a' then 29 else if c == '7' then 30 else 31
  }

  lemma CharsetAt(v: Symbol)
    ensures |CHARSET| == 32 && CHARSET[v] == Letter(v) == "qpzry9x8gf2tvdw0s3jn54khce6mua7l"[v]
  {
  }

  lemma LetterAt(v: Symbol)
    ensures Rank(Letter(v)) == v
    ensures Letter(v) != '1' && Lower(Upper(Letter(v))) == Letter(v)
  {
    if v < 8 {
    } else if v < 16 {
    } else if v < 24 {
    } else {
    }
  }

  lemma {:induction false} PositionAt(v: Symbol, from: nat)
    requires from <= v
    ensures Position(Letter(v), from) == Some(v)
    decreases 32 - from
  {
    if from < v {
      LetterAt(from);
      LetterAt(v);
      PositionAt(v, from + 1);
    }
  }

  lemma {:induction false} LastOneIs(s: string, i: nat)
    requires i < |s| && s[i] == '1' && '1' !in s[i + 1..]
    ensures LastOne(s) == Some(i)
  {
    if i < |s| - 1 {
      var t := s[..|s| - 1];
      assert s[i + 1..][|s| - i - 2] == s[|s| - 1];
      assert t[i + 1..] == s[i + 1..][..|s| - i - 2];
      LastOneIs(t, i);
    }
  }

  lemma {:induction false} DecodedText(hrp: string, p: Symbols)
    ensures Decoded(TextOf(hrp, p)) == if hrp == [] then None else Some((LowerAll(hrp), p))
  {
    var l := Letters(p);
    var lower := LowerAll(TextOf(hrp, p));
    forall i | 0 <= i < |l|
      ensures Lower(Upper(l[i])) == l[i] != '1' && Position(l[i], 0) == Some(p[i])
    {
      LetterAt(p[i]);
      PositionAt(p[i], 0);
    }
    assert lower == LowerAll(hrp) + "1" + l;
    assert lower[|hrp| + 1..] == l;
    LastOneIs(lower, |hrp|);
    SymbolizeIs(l, p);
    assert lower[..|hrp|] == LowerAll(hrp);
  }

  // Decoding what was encoded gives back the lower-case prefix and all symbols.
  lemma RoundTrip(hrp: Text, data: seq<Byte>)
    ensures Decoded(Encoded(hrp, data)) ==
            if hrp == [] then None else Some((LowerAll(hrp), Payload(hrp, data)))
  {
    DecodedText(hrp, Payload(hrp, data));
  }

  // An encoded identity decodes to symbols whose checksum validates.
  lemma EncodedValidates(hrp: Text, data: seq<Byte>)
    requires hrp != [] && LowerAll(hrp) == hrp
    ensures Decoded(Encoded(hrp, data)).Some?
    ensures ValidChecksum(Bytes(hrp), Decoded(Encoded(hrp, data)).value.1)
  {
    RoundTrip(hrp, data);
    ChecksumValid(Bytes(hrp), Groups(data));
  }

  // The text determines the lower-case prefix and every data byte.
  lemma EncodingInjective(hrp1: Text, data1: seq<Byte>, hrp2: Text, data2: seq<Byte>)
    requires hrp1 != [] && hrp2 != []
    requires Encoded(hrp1, data1) == Encoded(hrp2, data2)
    ensures LowerAll(hrp1) == LowerAll(hrp2) && data1 == data2
  {
    RoundTrip(hrp1, data1);
    RoundTrip(hrp2, data2);
    var p1, p2 := Payload(hrp1, data1), Payload(hrp2, data2);
    assert p1[..|p1| - 6] == Groups(data1) && p2[..|p2| - 6] == Groups(data2);
    GroupsInjective(data1, data2);
  }

  // In either case, `t` spells the prefix `h`, the separator and the symbols `x`.
  predicate Spells(t: string, h: string, x: Symbols) {
    && |t| == |h| + 1 + |x|
    && (forall i :: 0 <= i < |h| ==> Lower(t[i]) == h[i])
    && Lower(t[|h|]) == '1'
    && (forall k :: 0 <= k < |x| ==> Lower(t[|h| + 1 + k]) == Letter(x[k]))
  }

  lemma DecodedSpells(t: string, h: string, x: Symbols)
    requires Decoded(t) == Some((h, x))
    ensures Spells(t, h, x)
  {
    var lower := LowerAll(t);
    var sep := LastOne(lower).value;
    forall i | 0 <= i < |h|
      ensures Lower(t[i]) == h[i]
    {
      assert lower[..sep][i] == lower[i];
    }
    forall k | 0 <= k < |x|
      ensures Lower(t[|h| + 1 + k]) == Letter(x[k])
    {
      assert lower[sep + 1..][k] == lower[sep + 1 + k];
      assert Position(lower[sep + 1 + k], 0) == Some(x[k]);
    }
  }

  // A text is decoded if and only if, in either case, it spells a prefix, the separator and
  // letters of the alphabet.
  lemma DecodesExactly(t: string, h: string, x: Symbols)
    ensures Decoded(t) == Some((h, x)) <==> h != "" && Spells(t, h, x)
  {
    hide Letter, Lower, Symbolize, LastOne, Position, LowerAll;
    if Decoded(t) == Some((h, x)) {
      DecodedSpells(t, h, x);
    } else if h != "" && Spells(t, h, x) {
      SpelledDecodes(t, h, x);
    }
  }

  lemma SpelledDecodes(t: string, h: string, x: Symbols)
    requires h != "" && Spells(t, h, x)
    ensures Decoded(t) == Some((h, x))
  {
    hide Letter, Lower, Symbolize, LastOne, Position;
    var lower, tail := LowerAll(t), Letters(x);
    forall i | 0 <= i < |x|
      ensures tail[i] != '1' && Position(tail[i], 0) == Some(x[i])
    {
      LetterAt(x[i]);
      PositionAt(x[i], 0);
    }
    assert lower == h + "1" + tail;
    assert lower[|h| + 1..] == tail && lower[..|h|] == h;
    LastOneIs(lower, |h|);
    SymbolizeIs(tail, x);
  }

  lemma SameLetter(u: Symbol, v: Symbol)
    ensures Letter(u) == Letter(v) <==> u == v
  {
    LetterAt(u);
    LetterAt(v);
  }

  // `t` is the encoded text, or another of its length that differs only within six consecutive
  // characters of the data part.
  predicate Changed(hrp: Text, data: seq<Byte>, t: string, from: nat) {
    var e := Encoded(hrp, data);
    && |t| == |e| && |hrp| < from <= |t|
    && forall i :: 0 <= i < |t| && !(from <= i < from + 6) ==> t[i] == e[i]
  }

  predicate NoOneIn(t: string, from: nat) {
    forall i :: from <= i < from + 6 && i < |t| ==> t[i] != '1'
  }

  // The separator of a changed text is where it was, unless the change brought in a later one.
  lemma ChangedSeparator(hrp: Text, data: seq<Byte>, t: string, from: nat)
    requires Changed(hrp, data, t, from) && LowerAll(hrp) == hrp
    ensures LastOne(LowerAll(t)).Some? && LastOne(LowerAll(t)).value >= |hrp|
    ensures LastOne(LowerAll(t)).value == |hrp| <==> NoOneIn(t, from)
    ensures LowerAll(t)[..|hrp|] == hrp
  {
    hide Payload;
    var e, lower := Encoded(hrp, data), LowerAll(t);
    var letters := Letters(Payload(hrp, data));
    assert |hrp + "1" + letters| == |e|;
    forall i | 0 <= i < |e|
      ensures Lower(e[i]) == (hrp + "1" + letters)[i]
    {
      EncodedAt(hrp, Payload(hrp, data), i);
    }
    assert lower[|hrp|] == '1';
    forall i | |hrp| < i < |t|
      ensures lower[i] == '1' <==> t[i] == '1'
      ensures !(from <= i < from + 6) ==> lower[i] != '1'
    {
      if !(from <= i < from + 6) {
        LetterAt(Payload(hrp, data)[i - |hrp| - 1]);
      }
    }
    if NoOneIn(t, from) {
      LastOneIs(lower, |hrp|);
    } else {
      var i :| from <= i < from + 6 && i < |t| && t[i] == '1';
      LastOneFrom(lower, i);
    }
  }

  lemma EncodedAt(hrp: Text, p: Symbols, i: nat)
    requires LowerAll(hrp) == hrp && i < |TextOf(hrp, p)|
    ensures Lower(TextOf(hrp, p)[i]) == (hrp + "1" + Letters(p))[i]
  {
    if i < |hrp| {
      assert Lower(hrp[i]) == LowerAll(hrp)[i];
    } else if i > |hrp| {
      LetterAt(p[i - |hrp| - 1]);
    }
  }

  lemma {:induction false} LastOneFrom(s: string, i: nat)
    requires i < |s| && s[i] == '1'
    ensures LastOne(s).Some? && LastOne(s).value >= i
    decreases |s|
  {
    if i < |s| - 1 && s[|s| - 1] != '1' {
      LastOneFrom(s[..|s| - 1], i);
    }
  }

  lemma ChangedChecksum(hrp: Text, data: seq<Byte>, t: string, from: nat, symbols: Symbols)
    requires hrp != [] && LowerAll(hrp) == hrp && Changed(hrp, data, t, from)
    requires LowerAll(t) != LowerAll(Encoded(hrp, data)) && Decoded(t) == Some((hrp, symbols))
    ensures !ValidChecksum(Bytes(hrp), symbols)
  {
    RoundTrip(hrp, data);
    ChecksumValid(Bytes(hrp), Groups(data));
    var e, good := Encoded(hrp, data), Payload(hrp, data);
    DecodedSpells(e, hrp, good);
    DecodedSpells(t, hrp, symbols);
    ValidNeighbour(hrp, e, good, t, symbols, from);
  }

  // An encoded identity whose text is changed within six consecutive characters of the data
  // part, and not in letter case alone: it is refused, or fails the checksum, or decodes under
  // another, longer prefix; the last only if the change brings in a separator.
  lemma CorruptionRejected(hrp: Text, data: seq<Byte>, t: string, from: nat)
    requires hrp != [] && LowerAll(hrp) == hrp && Changed(hrp, data, t, from)
    requires LowerAll(t) != LowerAll(Encoded(hrp, data))
    ensures match Decoded(t)
            case None => true
            case Some((prefix, symbols)) =>
              if NoOneIn(t, from) then prefix == hrp && !ValidChecksum(Bytes(hrp), symbols) else |prefix| > |hrp|
  {
    hide Changed, Encoded, NoOneIn, ValidChecksum;
    ChangedSeparator(hrp, data, t, from);
    if Decoded(t).Some? && NoOneIn(t, from) {
      ChangedChecksum(hrp, data, t, from, Decoded(t).value.1);
    }
  }

  lemma SameText(h: string, e: string, t: string, x: Symbols)
    requires Spells(e, h, x) && Spells(t, h, x)
    ensures LowerAll(t) == LowerAll(e)
  {
    forall i | 0 <= i < |t|
      ensures Lower(t[i]) == Lower(e[i])
    {
      if i > |h| {
        var k := i - |h| - 1;
        assert Lower(t[|h| + 1 + k]) == Letter(x[k]) == Lower(e[|h| + 1 + k]);
      }
    }
  }

  lemma SameOutside(h: string, e: string, good: Symbols, t: string, symbols: Symbols, from: nat)
    requires Spells(e, h, good) && Spells(t, h, symbols) && |t| == |e|
    requires forall i :: 0 <= i < |t| && !(from <= i < from + 6) ==> t[i] == e[i]
    ensures forall k :: 0 <= k < |good| && !(from <= |h| + 1 + k < from + 6) ==> symbols[k] == good[k]
  {
    forall k | 0 <= k < |good| && !(from <= |h| + 1 + k < from + 6)
      ensures symbols[k] == good[k]
    {
      assert t[|h| + 1 + k] == e[|h| + 1 + k];
      SameLetter(symbols[k], good[k]);
    }
  }

  lemma ValidNeighbour(hrp: Text, e: string, good: Symbols, t: string, symbols: Symbols, from: nat)
    requires Spells(e, hrp, good) && Spells(t, hrp, symbols) && ValidChecksum(Bytes(hrp), good)
    requires |t| == |e| && |hrp| < from <= |t| && LowerAll(t) != LowerAll(e)
    requires forall i :: 0 <= i < |t| && !(from <= i < from + 6) ==> t[i] == e[i]
    ensures !ValidChecksum(Bytes(hrp), symbols)
  {
    var a := from - |hrp| - 1;
    var b := if a + 6 < |good| then a + 6 else |good|;
    SameOutside(hrp, e, good, t, symbols, from);
    if symbols == good {
      SameText(hrp, e, t, good);
    }
    Agree(good, symbols, a, b);
    BurstRejected(Bytes(hrp), good[..a], good[a..b], symbols[a..b], good[b..]);
  }

  lemma Agree(x: Symbols, y: Symbols, a: nat, b: nat)
    requires |x| == |y| && a <= b <= |x|
    requires forall k :: 0 <= k < |x| && !(a <= k < b) ==> x[k] == y[k]
    ensures x == x[..a] + x[a..b] + x[b..]
    ensures y == x[..a] + y[a..b] + x[b..]
  {
    assert x[..a] == y[..a] && x[b..] == y[b..];
  }
}
