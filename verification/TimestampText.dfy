/** The characters of a printed timestamp: reading its fields back as numbers. */
module TimestampText {
  import opened Decimal
  import opened Calendar
  import opened Timestamp

  // The number printed from position `i` in `n` digits.
  function Field(s: string, i: nat, n: nat): int {
    if i + n <= |s| && AllDigits(s[i..i + n]) then DigitsValue(s[i..i + n]) else -1
  }

  lemma FieldAt(front: string, n: nat, width: nat, rest: string)
    requires |PadNat(n, width)| == width
    ensures Field(front + PadNat(n, width) + rest, |front|, width) == n
  {
    hide PadNat, DigitsValue, AllDigits;
    DigitsOfPad(n, width);
    var s := front + PadNat(n, width) + rest;
    assert s[|front|..|front| + width] == PadNat(n, width);
  }

  lemma DateRange(d: Date)
    requires FourDigitYear(d)
    ensures 1 <= d.month <= 12 && 1 <= d.day <= 31
  {
  }

  lemma DateFields(d: Date)
    requires FourDigitYear(d)
    ensures var s := DateText(d);
            && |s| == 10 && s[4] == '-' && s[7] == '-'
            && Field(s, 0, 4) == d.year && Field(s, 5, 2) == d.month && Field(s, 8, 2) == d.day
  {
    hide PadNat, Field, Valid;
    DateRange(d);
    var (y, m, n) := (PadNat(d.year, 4), PadNat(d.month, 2), PadNat(d.day, 2));
    PadFour(d.year, 0);
    PadTwo(d.month, 0);
    PadTwo(d.day, 0);
    var s := DateText(d);
    assert s == "" + y + ("-" + m + "-" + n) && s == (y + "-") + m + ("-" + n) && s == (y + "-" + m + "-") + n + "";
    FieldAt("", d.year, 4, "-" + m + "-" + n);
    FieldAt(y + "-", d.month, 2, "-" + n);
    FieldAt(y + "-" + m + "-", d.day, 2, "");
  }

  lemma TimeFields(u: Utc)
    requires ClockTime(u)
    ensures var s := TimeText(u);
            && |s| == 10 && s[0] == 'T' && s[3] == ':' && s[6] == ':' && s[9] == 'Z'
            && Field(s, 1, 2) == u.hour && Field(s, 4, 2) == u.minute && Field(s, 7, 2) == u.second
  {
    hide PadNat, Field;
    var (h, n, c) := (PadNat(u.hour, 2), PadNat(u.minute, 2), PadNat(u.second, 2));
    PadTwo(u.hour, 0);
    PadTwo(u.minute, 0);
    PadTwo(u.second, 0);
    var s := TimeText(u);
    assert s == "T" + h + (":" + n + ":" + c + "Z") && s == ("T" + h + ":") + n + (":" + c + "Z");
    assert s == ("T" + h + ":" + n + ":") + c + "Z";
    FieldAt("T", u.hour, 2, ":" + n + ":" + c + "Z");
    FieldAt("T" + h + ":", u.minute, 2, ":" + c + "Z");
    FieldAt("T" + h + ":" + n + ":", u.second, 2, "Z");
  }

  lemma FieldOfSum(a: string, b: string, i: nat, n: nat)
    ensures i + n <= |a| ==> Field(a + b, i, n) == Field(a, i, n)
    ensures Field(a + b, |a| + i, n) == Field(b, i, n)
  {
    if i + n <= |a| {
      assert (a + b)[i..i + n] == a[i..i + n];
    }
    if i + n <= |b| {
      assert (a + b)[|a| + i..|a| + i + n] == b[i..i + n];
    }
  }

  // Before the year 10000 the text is date and time, field by field, with the marks of
  // RFC 3339 between them.
  lemma IsoReads(secs: nat)
    requires secs < YEAR_10000
    ensures var s, date := Iso(secs), CivilFromDays(secs / 86400);
            && |s| == 20 && s[4] == '-' && s[7] == '-' && s[10] == 'T' && s[13] == ':' && s[16] == ':' && s[19] == 'Z'
            && Field(s, 0, 4) == date.year && Field(s, 5, 2) == date.month && Field(s, 8, 2) == date.day
            && Field(s, 11, 2) == secs / 3600 % 24 && Field(s, 14, 2) == secs / 60 % 60 && Field(s, 17, 2) == secs % 60
  {
    hide CivilFromDays, DateText, TimeText, Valid, Field;
    YearRange(secs);
    var u := EpochToUtc(secs);
    var (a, b) := (DateText(u.date), TimeText(u));
    DateFields(u.date);
    TimeFields(u);
    FieldOfSum(a, b, 0, 4);
    FieldOfSum(a, b, 5, 2);
    FieldOfSum(a, b, 8, 2);
    FieldOfSum(a, b, 1, 2);
    FieldOfSum(a, b, 4, 2);
    FieldOfSum(a, b, 7, 2);
  }
}
