/**
 UTC timestamps as the cost ledger prints them, `YYYY-MM-DDTHH:MM:SSZ`: their text order
 and their day and month prefixes (RFC 3339, sections 5.1 and 5.6).
 */
module Timestamp {
  import opened Decimal
  import opened Calendar

  datatype Utc = Utc(date: Date, hour: int, minute: int, second: int)

  // The conversion of a year to a signed 32-bit integer.
  function AsI32(y: int): int {
    (y + 0x80000000) % 0x100000000 - 0x80000000
  }

  function EpochToUtc(secs: nat): Utc {
    var d := CivilFromDays(secs / 86400);
    Utc(d.(year := AsI32(d.year)), secs / 3600 % 24, secs / 60 % 60, secs % 60)
  }

  function Pad(n: int, width: nat): string {
    if n < 0 then "-" + PadNat(-n, if width > 0 then width - 1 else 0) else PadNat(n, width)
  }

  function MonthText(d: Date): string {
    Pad(d.year, 4) + "-" + Pad(d.month, 2)
  }

  function DateText(d: Date): string {
    MonthText(d) + "-" + Pad(d.day, 2)
  }

  function TimeText(u: Utc): string {
    "T" + Pad(u.hour, 2) + ":" + Pad(u.minute, 2) + ":" + Pad(u.second, 2) + "Z"
  }

  function Iso(secs: nat): string {
    var u := EpochToUtc(secs);
    DateText(u.date) + TimeText(u)
  }

  // The first instant of the year 10000.
  const YEAR_10000: nat := 253402300800

  // ---- text order ----

  predicate LexLess(a: string, b: string) {
    b != [] && (a == [] || a[0] < b[0] || (a[0] == b[0] && LexLess(a[1..], b[1..])))
  }

  lemma {:induction false} LexConcat(a: string, b: string, c: string, d: string)
    requires |a| == |b|
    ensures LexLess(a + c, b + d) <==> LexLess(a, b) || (a == b && LexLess(c, d))
    decreases |a|
  {
    if a == [] {
      assert a + c == c && b + d == d;
    } else {
      assert (a + c)[1..] == a[1..] + c && (b + d)[1..] == b[1..] + d;
      LexConcat(a[1..], b[1..], c, d);
      assert a == [a[0]] + a[1..] && b == [b[0]] + b[1..];
    }
  }

  lemma {:induction false} LexIrreflexive(a: string)
    ensures !LexLess(a, a)
    decreases |a|
  {
    if a != [] {
      LexIrreflexive(a[1..]);
    }
  }

  // A pair of texts of equal length ordered as the numbers they print.
  ghost predicate Ordered(a: string, b: string, m: int, n: int) {
    |a| == |b| && (LexLess(a, b) <==> m < n) && (a == b <==> m == n)
  }

  lemma DigitOrder(m: nat, n: nat)
    requires m < 10 && n < 10
    ensures Ordered([Digit(m)], [Digit(n)], m, n)
  {
    assert LexLess([Digit(m)], [Digit(n)]) <==> Digit(m) < Digit(n) || (Digit(m) == Digit(n) && LexLess([], []));
  }

  // The place value of a one- or two-digit field, or of a fixed mark.
  predicate Base(b: int) {
    b == 1 || b == 10 || b == 100
  }

  lemma PairOrder(m: int, n: int, p: int, q: int, base: int)
    requires Base(base) && 0 <= p < base && 0 <= q < base
    ensures m * base + p < n * base + q <==> m < n || (m == n && p < q)
    ensures m * base + p == n * base + q <==> m == n && p == q
  {
    if base == 1 {
    } else if base == 10 {
    } else {
    }
  }

  lemma ConcatEqual(a: string, b: string, c: string, d: string)
    requires |a| == |b|
    ensures a + c == b + d <==> a == b && c == d
  {
    assert a + c == b + d ==> (a + c)[..|a|] == (b + d)[..|b|] && (a + c)[|a|..] == (b + d)[|b|..];
  }

  // Equal-width fields compare by their parts, most significant first.
  lemma JoinOrder(a: string, b: string, c: string, d: string, m: int, n: int, p: int, q: int, base: int)
    requires Ordered(a, b, m, n) && Ordered(c, d, p, q)
    requires Base(base) && 0 <= p < base && 0 <= q < base
    ensures Ordered(a + c, b + d, m * base + p, n * base + q)
  {
    hide LexLess;
    LexConcat(a, b, c, d);
    LexIrreflexive(a);
    ConcatEqual(a, b, c, d);
    PairOrder(m, n, p, q, base);
  }

  lemma MarkOrder(a: string, b: string, m: int, n: int, mark: string)
    requires Ordered(a, b, m, n)
    ensures Ordered(a + mark, b + mark, m, n)
  {
    LexIrreflexive(mark);
    JoinOrder(a, b, mark, mark, m, n, 0, 0, 1);
  }

  lemma PadTwo(m: nat, n: nat)
    requires m < 100 && n < 100
    ensures Ordered(PadNat(m, 2), PadNat(n, 2), m, n) && |PadNat(m, 2)| == 2
  {
    DigitOrder(m / 10, n / 10);
    DigitOrder(m % 10, n % 10);
    JoinOrder([Digit(m / 10)], [Digit(n / 10)], [Digit(m % 10)], [Digit(n % 10)], m / 10, n / 10, m % 10, n % 10, 10);
    assert PadNat(m / 10, 1) == [Digit(m / 10)] && PadNat(n / 10, 1) == [Digit(n / 10)];
  }

  lemma PadFour(m: nat, n: nat)
    requires m < 10000 && n < 10000
    ensures Ordered(PadNat(m, 4), PadNat(n, 4), m, n) && |PadNat(m, 4)| == 4
  {
    PadTwo(m / 100, n / 100);
    PadTwo(m % 100, n % 100);
    FourIsTwoTwos(m);
    FourIsTwoTwos(n);
    JoinOrder(PadNat(m / 100, 2), PadNat(n / 100, 2), PadNat(m % 100, 2), PadNat(n % 100, 2),
              m / 100, n / 100, m % 100, n % 100, 100);
  }

  lemma FourIsTwoTwos(m: nat)
    requires m < 10000
    ensures PadNat(m, 4) == PadNat(m / 100, 2) + PadNat(m % 100, 2)
  {
    assert m / 10 / 10 == m / 100 && m / 10 % 10 == m % 100 / 10 && m % 10 == m % 100 % 10;
    assert PadNat(m, 4) == PadNat(m / 10, 3) + [Digit(m % 10)];
    assert PadNat(m / 10, 3) == PadNat(m / 100, 2) + [Digit(m / 10 % 10)];
    assert PadNat(m % 100 / 10, 1) == [Digit(m % 100 / 10)];
  }

  // ---- timestamps ----

  predicate FourDigitYear(d: Date) {
    Valid(d) && 0 <= d.year < 10000
  }

  function MonthKey(d: Date): int {
    d.year * 100 + d.month
  }

  function DateKey(d: Date): int {
    MonthKey(d) * 100 + d.day
  }

  lemma MonthTextOrder(a: Date, b: Date)
    requires FourDigitYear(a) && FourDigitYear(b)
    ensures Ordered(MonthText(a), MonthText(b), MonthKey(a), MonthKey(b)) && |MonthText(a)| == 7
  {
    hide LexLess, PadNat;
    PadFour(a.year, b.year);
    MarkOrder(PadNat(a.year, 4), PadNat(b.year, 4), a.year, b.year, "-");
    PadTwo(a.month, b.month);
    JoinOrder(PadNat(a.year, 4) + "-", PadNat(b.year, 4) + "-", PadNat(a.month, 2), PadNat(b.month, 2),
              a.year, b.year, a.month, b.month, 100);
  }

  lemma DateTextOrder(a: Date, b: Date)
    requires FourDigitYear(a) && FourDigitYear(b)
    ensures Ordered(DateText(a), DateText(b), DateKey(a), DateKey(b)) && |DateText(a)| == 10
  {
    hide LexLess, PadNat, MonthText;
    MonthTextOrder(a, b);
    MarkOrder(MonthText(a), MonthText(b), MonthKey(a), MonthKey(b), "-");
    PadTwo(a.day, b.day);
    JoinOrder(MonthText(a) + "-", MonthText(b) + "-", PadNat(a.day, 2), PadNat(b.day, 2),
              MonthKey(a), MonthKey(b), a.day, b.day, 100);
  }

  function TimeKey(u: Utc): int {
    (u.hour * 100 + u.minute) * 100 + u.second
  }

  predicate ClockTime(u: Utc) {
    0 <= u.hour < 24 && 0 <= u.minute < 60 && 0 <= u.second < 60
  }

  lemma HourOrder(a: Utc, b: Utc)
    requires ClockTime(a) && ClockTime(b)
    ensures Ordered("T" + PadNat(a.hour, 2) + ":", "T" + PadNat(b.hour, 2) + ":", a.hour, b.hour)
  {
    hide LexLess, PadNat;
    PadTwo(a.hour, b.hour);
    LexIrreflexive("T");
    JoinOrder("T", "T", PadNat(a.hour, 2), PadNat(b.hour, 2), 0, 0, a.hour, b.hour, 100);
    MarkOrder("T" + PadNat(a.hour, 2), "T" + PadNat(b.hour, 2), a.hour, b.hour, ":");
  }

  lemma TimeTextOrder(a: Utc, b: Utc)
    requires ClockTime(a) && ClockTime(b)
    ensures Ordered(TimeText(a), TimeText(b), TimeKey(a), TimeKey(b))
  {
    hide LexLess, PadNat;
    HourOrder(a, b);
    var ha, hb := "T" + PadNat(a.hour, 2) + ":", "T" + PadNat(b.hour, 2) + ":";
    PadTwo(a.minute, b.minute);
    JoinOrder(ha, hb, PadNat(a.minute, 2), PadNat(b.minute, 2), a.hour, b.hour, a.minute, b.minute, 100);
    var ma, mb := ha + PadNat(a.minute, 2), hb + PadNat(b.minute, 2);
    var ka, kb := a.hour * 100 + a.minute, b.hour * 100 + b.minute;
    MarkOrder(ma, mb, ka, kb, ":");
    PadTwo(a.second, b.second);
    JoinOrder(ma + ":", mb + ":", PadNat(a.second, 2), PadNat(b.second, 2), ka, kb, a.second, b.second, 100);
    MarkOrder(ma + ":" + PadNat(a.second, 2), mb + ":" + PadNat(b.second, 2), TimeKey(a), TimeKey(b), "Z");
  }

  lemma DateKeyOrder(a: Date, b: Date)
    requires Valid(a) && Valid(b)
    ensures Before(a, b) <==> DateKey(a) < DateKey(b)
    ensures a == b <==> DateKey(a) == DateKey(b)
    ensures MonthKey(a) == MonthKey(b) <==> a.year == b.year && a.month == b.month
  {
  }

  lemma LastDay()
    ensures CivilFromDays(2932896) == Date(9999, 12, 31)
  {
    hide CivilFromDays;
    CivilAt(2932896, 24, 3, 24, 3, 305);
    LastFields();
  }

  lemma LastFields()
    ensures FromMarchYear(9999, 305) == Date(9999, 12, 31)
  {
  }

  lemma FirstDay()
    ensures CivilFromDays(0) == Date(1970, 1, 1)
  {
    EpochDate();
  }

  lemma LastSecond(secs: nat)
    requires secs < YEAR_10000
    ensures secs / 86400 <= 2932896
  {
  }

  // Before the year 10000 the year keeps four digits and fits the 32-bit field.
  lemma YearRange(secs: nat)
    requires secs < YEAR_10000
    ensures EpochToUtc(secs).date == CivilFromDays(secs / 86400)
    ensures FourDigitYear(EpochToUtc(secs).date) && ClockTime(EpochToUtc(secs))
  {
    hide CivilFromDays;
    var n := secs / 86400;
    LastSecond(secs);
    CivilNext(n);
    FirstDay();
    LastDay();
    CivilOrder(0, n);
    CivilOrder(n, 2932896);
  }

  lemma ClockOrder(s: nat, t: nat)
    ensures TimeKey(EpochToUtc(s)) < TimeKey(EpochToUtc(t)) <==> s % 86400 < t % 86400
    ensures TimeKey(EpochToUtc(s)) == TimeKey(EpochToUtc(t)) <==> s % 86400 == t % 86400
  {
    hide CivilFromDays;
    Clock(s);
    Clock(t);
    KeyOrder(s / 3600 % 24, s / 60 % 60, s % 60, t / 3600 % 24, t / 60 % 60, t % 60);
  }

  lemma KeyOrder(h: int, m: int, s: int, h': int, m': int, s': int)
    requires 0 <= h < 24 && 0 <= m < 60 && 0 <= s < 60 && 0 <= h' < 24 && 0 <= m' < 60 && 0 <= s' < 60
    ensures (h * 100 + m) * 100 + s < (h' * 100 + m') * 100 + s' <==>
            h * 3600 + m * 60 + s < h' * 3600 + m' * 60 + s'
    ensures (h * 100 + m) * 100 + s == (h' * 100 + m') * 100 + s' <==>
            h * 3600 + m * 60 + s == h' * 3600 + m' * 60 + s'
  {
  }

  lemma Clock(s: nat)
    ensures s % 86400 == s / 3600 % 24 * 3600 + s / 60 % 60 * 60 + s % 60
  {
    var m, h := s / 60, s / 3600;
    assert h == m / 60;
    assert s == 86400 * (h / 24) + h % 24 * 3600 + m % 60 * 60 + s % 60;
  }

  // Printed timestamps sort as the instants they stand for.
  lemma IsoOrder(s: nat, t: nat)
    requires s < YEAR_10000 && t < YEAR_10000
    ensures LexLess(Iso(s), Iso(t)) <==> s < t
    ensures Iso(s) == Iso(t) <==> s == t
  {
    hide LexLess, DateText, TimeText, CivilFromDays, Valid, Before;
    var u, v := EpochToUtc(s), EpochToUtc(t);
    YearRange(s);
    YearRange(t);
    DateTextOrder(u.date, v.date);
    TimeTextOrder(u, v);
    LexConcat(DateText(u.date), DateText(v.date), TimeText(u), TimeText(v));
    ConcatEqual(DateText(u.date), DateText(v.date), TimeText(u), TimeText(v));
    DateKeyOrder(u.date, v.date);
    CivilOrder(s / 86400, t / 86400);
    ClockOrder(s, t);
    DaySplit(s, t);
  }

  lemma DaySplit(s: nat, t: nat)
    ensures s < t <==> s / 86400 < t / 86400 || (s / 86400 == t / 86400 && s % 86400 < t % 86400)
    ensures s == t <==> s / 86400 == t / 86400 && s % 86400 == t % 86400
  {
  }

  // Two instants share the first ten characters exactly on the same UTC day, and the first
  // seven exactly in the same month of the same year.
  lemma IsoPrefixes(s: nat, t: nat)
    requires s < YEAR_10000 && t < YEAR_10000
    ensures |Iso(s)| >= 10 && |Iso(t)| >= 10
    ensures Iso(s)[..10] == Iso(t)[..10] <==> s / 86400 == t / 86400
    ensures Iso(s)[..7] == Iso(t)[..7] <==>
            var a, b := CivilFromDays(s / 86400), CivilFromDays(t / 86400);
            a.year == b.year && a.month == b.month
  {
    hide LexLess, TimeText, MonthText, CivilFromDays, Valid, Before;
    var a, b := EpochToUtc(s).date, EpochToUtc(t).date;
    YearRange(s);
    YearRange(t);
    DateTextOrder(a, b);
    MonthTextOrder(a, b);
    MonthTextOrder(b, a);
    DateTextOrder(b, a);
    DateKeyOrder(a, b);
    CivilOrder(s / 86400, t / 86400);
    assert Iso(s)[..10] == DateText(a) && Iso(t)[..10] == DateText(b);
    assert Iso(s)[..7] == MonthText(a) && Iso(t)[..7] == MonthText(b);
  }

  lemma FirstOfTenThousand()
    ensures CivilFromDays(2932897) == Date(10000, 1, 1)
  {
    hide CivilFromDays;
    CivilNext(2932896);
    LastDay();
  }

  // The first instant with a five-digit year sorts before the one it follows.
  lemma OrderBreaks()
    ensures LexLess(Iso(YEAR_10000), Iso(YEAR_10000 - 1))
  {
    hide CivilFromDays;
    var s, t := YEAR_10000 - 1, YEAR_10000;
    assert s / 86400 == 2932896 && t / 86400 == 2932897;
    LastDay();
    FirstOfTenThousand();
    YearRange(s);
    assert EpochToUtc(t).date.year == 10000;
    FourIsTwoTwos(9999);
    assert PadNat(9999, 4)[0] == PadNat(99, 2)[0] == '9' by { assert PadNat(9, 1) == [Digit(9)]; }
    assert PadNat(10, 1) == PadNat(1, 0) + [Digit(0)];
    assert PadNat(100, 2) == PadNat(10, 1) + [Digit(0)];
    assert PadNat(1000, 3) == PadNat(100, 2) + [Digit(0)];
    assert PadNat(10000, 4) == PadNat(1000, 3) + [Digit(0)];
    assert PadNat(10000, 4)[0] == '1';
    assert Iso(t)[0] == '1' && Iso(s)[0] == '9';
  }

  // Text order is time order below a bound exactly when the bound is at most the year 10000.
  lemma OrderHoldsBelow(bound: nat)
    ensures bound <= YEAR_10000 <==>
            forall s: nat, t: nat :: s < bound && t < bound ==> (LexLess(Iso(s), Iso(t)) <==> s < t)
  {
    hide Iso, LexLess;
    if bound <= YEAR_10000 {
      forall s: nat, t: nat | s < bound && t < bound
        ensures LexLess(Iso(s), Iso(t)) <==> s < t
      {
        IsoOrder(s, t);
      }
    } else {
      OrderBreaks();
      assert !(YEAR_10000 < YEAR_10000 - 1);
    }
  }
}
