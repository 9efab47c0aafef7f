/** Civil dates from epoch seconds, checked against a day-by-day Gregorian calendar. */
module Calendar {
  datatype Date = Date(year: int, month: int, day: int)

  predicate Leap(y: int) {
    y % 4 == 0 && (y % 100 != 0 || y % 400 == 0)
  }

  function DaysInMonth(y: int, m: int): int {
    if m == 2 then (if Leap(y) then 29 else 28)
    else if m == 4 || m == 6 || m == 9 || m == 11 then 30
    else 31
  }

  predicate Valid(d: Date) {
    1 <= d.month <= 12 && 1 <= d.day <= DaysInMonth(d.year, d.month)
  }

  function NextDay(d: Date): Date {
    if d.day < DaysInMonth(d.year, d.month) then d.(day := d.day + 1)
    else if d.month < 12 then Date(d.year, d.month + 1, 1)
    else Date(d.year + 1, 1, 1)
  }

  // The calendar, walked one day at a time from the epoch.
  function Walk(n: nat): Date {
    if n == 0 then Date(1970, 1, 1) else NextDay(Walk(n - 1))
  }

  // Era arithmetic: days since 0000-03-01 split into 400-year eras.
  function YearOfEra(doe: nat): int {
    (doe - doe / 1460 + doe / 36524 - doe / 146096) / 365
  }

  function DayOfYear(doe: nat): int {
    var yoe := YearOfEra(doe);
    doe - (365 * yoe + yoe / 4 - yoe / 100)
  }

  // The month and day of a day of the March-based year.
  function MonthIndex(doy: int): int {
    (5 * doy + 2) / 153
  }

  function DayOfMonth(doy: int): int {
    doy - (153 * MonthIndex(doy) + 2) / 5 + 1
  }

  function FromMarchYear(y: int, doy: int): Date {
    var mp := MonthIndex(doy);
    var mo := if mp < 10 then mp + 3 else mp - 9;
    Date(y + (if mo <= 2 then 1 else 0), mo, DayOfMonth(doy))
  }

  function CivilFromDays(days: nat): Date {
    var z := days + 719468;
    var era := z / 146097;
    var doe := z - era * 146097;
    FromMarchYear(YearOfEra(doe) + era * 400, DayOfYear(doe))
  }

  // The inverse computation.
  function DaysFromCivil(d: Date): int {
    var y := if d.month <= 2 then d.year - 1 else d.year;
    var era := y / 400;
    var yoe := y - era * 400;
    var mp := if d.month > 2 then d.month - 3 else d.month + 9;
    var doy := (153 * mp + 2) / 5 + d.day - 1;
    era * 146097 + (yoe * 365 + yoe / 4 - yoe / 100 + doy) - 719468
  }

  // A day of an era as centuries, four-year cycles, years and days.
  predicate Split(doe: int, c: int, q: int, r: int, s: int) {
    && doe == 36524 * c + 1461 * q + 365 * r + s
    && 0 <= c <= 3 && 0 <= q <= 24 && 0 <= r <= 3 && 0 <= s <= 365
    && (s == 365 ==> r == 3 && (q < 24 || c == 3))
  }

  lemma SplitExists(doe: nat) returns (c: int, q: int, r: int, s: int)
    requires doe < 146097
    ensures Split(doe, c, q, r, s)
  {
    c := if doe == 146096 then 3 else doe / 36524;
    var doc := doe - 36524 * c;
    q := doc / 1461;
    var doq := doc - 1461 * q;
    r := if doq == 1460 then 3 else doq / 365;
    s := doq - 365 * r;
  }

  lemma CenturyTerm(doe: nat, c: int, q: int, r: int, s: int)
    requires doe < 146097 && Split(doe, c, q, r, s)
    ensures doe / 36524 - doe / 146096 == c
  {
  }

  lemma CycleTerm(doe: nat, c: int, q: int, r: int, s: int)
    requires doe < 146097 && Split(doe, c, q, r, s)
    ensures s == 365 ==> doe / 1460 == 25 * c + q + 1
    ensures s == 0 ==> doe / 1460 == 25 * c + q
    ensures 25 * c + q <= doe / 1460 <= 25 * c + q + 1
  {
    var rest := 24 * c + q + 365 * r + s;
    assert doe == 1460 * (25 * c + q) + rest && 0 <= rest < 2920;
  }

  // The closed formula finds the year of the era and the day within it.
  lemma YearFormula(doe: nat, c: int, q: int, r: int, s: int)
    requires doe < 146097 && Split(doe, c, q, r, s)
    ensures YearOfEra(doe) == 100 * c + 4 * q + r && DayOfYear(doe) == s
  {
    CenturyTerm(doe, c, q, r, s);
    CycleTerm(doe, c, q, r, s);
    var e := doe / 1460 - (25 * c + q);
    assert doe - doe / 1460 + c == 365 * (100 * c + 4 * q + r) + (s - e);
    assert YearOfEra(doe) == 100 * c + 4 * q + r;
    YearDays(c, q, r);
  }

  lemma YearDays(c: int, q: int, r: int)
    requires 0 <= c <= 3 && 0 <= q <= 24 && 0 <= r <= 3
    ensures var y := 100 * c + 4 * q + r;
            365 * y + y / 4 - y / 100 == 36524 * c + 1461 * q + 365 * r
  {
    var y := 100 * c + 4 * q + r;
    assert y / 4 == 25 * c + q;
    assert y / 100 == c;
  }

  // Length of month `mp` of the March-based year, its last month taken as endless.
  function MarchMonth(mp: int): int {
    if mp == 1 || mp == 3 || mp == 6 || mp == 8 then 30 else 31
  }

  lemma MonthStep(doy: int)
    requires 0 <= doy < 365
    ensures 0 <= MonthIndex(doy) <= 11 && 1 <= DayOfMonth(doy) <= MarchMonth(MonthIndex(doy))
    ensures DayOfMonth(doy) < MarchMonth(MonthIndex(doy)) ==>
              MonthIndex(doy + 1) == MonthIndex(doy) && DayOfMonth(doy + 1) == DayOfMonth(doy) + 1
    ensures DayOfMonth(doy) == MarchMonth(MonthIndex(doy)) ==>
              MonthIndex(doy + 1) == MonthIndex(doy) + 1 && DayOfMonth(doy + 1) == 1
  {
  }

  lemma FebruaryDays(doy: int)
    requires 0 <= doy <= 365
    ensures MonthIndex(doy) == 11 <==> doy >= 337
    ensures doy >= 337 ==> DayOfMonth(doy) == doy - 336
    ensures MonthIndex(0) == 0 && DayOfMonth(0) == 1
  {
  }

  // A March-based year has a 366th day exactly when the year it ends in is a leap year.
  lemma LeapSplit(era: int, c: int, q: int, r: int)
    requires 0 <= c <= 3 && 0 <= q <= 24 && 0 <= r <= 3
    ensures Leap(100 * c + 4 * q + r + era * 400 + 1) <==> r == 3 && (q < 24 || c == 3)
  {
    var y := 100 * c + 4 * q + r + era * 400 + 1;
    assert y % 4 == (r + 1) % 4;
    if r == 3 {
      ModShift(100, c + 4 * era, 4 * (q + 1));
      if q == 24 {
        ModShift(400, era, 100 * (c + 1));
      }
    }
  }

  lemma ModShift(m: int, k: int, t: int)
    requires m == 100 || m == 400
    ensures (m * k + t) % m == t % m
  {
  }

  // One day later within the March-based year, and at its end.
  lemma NextInYear(y: int, doy: int)
    requires 0 <= doy < 364 || (doy == 364 && Leap(y + 1))
    ensures FromMarchYear(y, doy + 1) == NextDay(FromMarchYear(y, doy))
    ensures Valid(FromMarchYear(y, doy))
  {
    MonthStep(doy);
    FebruaryDays(doy);
    FebruaryDays(doy + 1);
  }

  lemma NextYear(y: int, doy: int)
    requires doy == if Leap(y + 1) then 365 else 364
    ensures FromMarchYear(y + 1, 0) == NextDay(FromMarchYear(y, doy))
    ensures Valid(FromMarchYear(y, doy))
  {
    FebruaryDays(doy);
  }

  lemma EraOf(z: nat, era: int, doe: int)
    requires z == era * 146097 + doe && 0 <= doe < 146097
    ensures z / 146097 == era
  {
  }

  lemma CivilAt(days: nat, era: int, c: int, q: int, r: int, s: int)
    requires Split(days + 719468 - era * 146097, c, q, r, s)
    requires 0 <= days + 719468 - era * 146097 < 146097
    ensures CivilFromDays(days) == FromMarchYear(100 * c + 4 * q + r + era * 400, s)
  {
    var doe := days + 719468 - era * 146097;
    EraOf(days + 719468, era, doe);
    YearFormula(doe, c, q, r, s);
  }

  lemma YearEnd(days: nat, era: int, c: int, q: int, r: int, s: int)
    requires Split(days + 719468 - era * 146097, c, q, r, s)
    requires s == if r == 3 && (q < 24 || c == 3) then 365 else 364
    ensures CivilFromDays(days + 1) == FromMarchYear(100 * c + 4 * q + r + era * 400 + 1, 0)
  {
    hide CivilFromDays, FromMarchYear;
    if r < 3 {
      CivilAt(days + 1, era, c, q, r + 1, 0);
    } else if q < 24 {
      CivilAt(days + 1, era, c, q + 1, 0, 0);
    } else if c < 3 {
      CivilAt(days + 1, era, c + 1, 0, 0, 0);
    } else {
      CivilAt(days + 1, era + 1, 0, 0, 0, 0);
    }
  }

  // The closed formula advances by exactly one calendar day.
  lemma CivilNext(n: nat)
    ensures CivilFromDays(n + 1) == NextDay(CivilFromDays(n)) && Valid(CivilFromDays(n))
  {
    hide CivilFromDays, FromMarchYear, NextDay, Valid, Leap;
    var z := n + 719468;
    var era := z / 146097;
    var doe := z - era * 146097;
    var c, q, r, s := SplitExists(doe);
    CivilAt(n, era, c, q, r, s);
    LeapSplit(era, c, q, r);
    var y := 100 * c + 4 * q + r + era * 400;
    if s < 364 || (s == 364 && Leap(y + 1)) {
      CivilAt(n + 1, era, c, q, r, s + 1);
      NextInYear(y, s);
    } else {
      YearEnd(n, era, c, q, r, s);
      NextYear(y, s);
    }
  }

  lemma EpochDate()
    ensures CivilFromDays(0) == Date(1970, 1, 1)
  {
    // 719468 days after 0000-03-01: era 4, century 3, cycle 17, year 1, day 306.
    CivilAt(0, 4, 3, 17, 1, 306);
  }

  // For every day, the formula gives the date a day-by-day walk of the calendar reaches.
  lemma {:induction false} CivilIsWalk(n: nat)
    ensures CivilFromDays(n) == Walk(n)
  {
    hide CivilFromDays, NextDay;
    if n == 0 {
      EpochDate();
    } else {
      CivilIsWalk(n - 1);
      CivilNext(n - 1);
    }
  }

  // ---- the inverse ----

  lemma InverseMonth(y: int, doy: int, d: Date)
    requires 0 <= doy <= 365 && d == FromMarchYear(y, doy)
    ensures (if d.month <= 2 then d.year - 1 else d.year) == y
    ensures (153 * (if d.month > 2 then d.month - 3 else d.month + 9) + 2) / 5 + d.day - 1 == doy
  {
    if doy < 365 {
      MonthStep(doy);
    } else {
      FebruaryDays(doy);
    }
  }

  lemma InverseYear(era: int, c: int, q: int, r: int, s: int)
    requires 0 <= c <= 3 && 0 <= q <= 24 && 0 <= r <= 3
    ensures DaysFromCivil(FromMarchYear(100 * c + 4 * q + r + era * 400, s)) + 719468 ==
            era * 146097 + (36524 * c + 1461 * q + 365 * r + s)
    requires 0 <= s <= 365
  {
    var yoe := 100 * c + 4 * q + r;
    var y := yoe + era * 400;
    InverseMonth(y, s, FromMarchYear(y, s));
    assert y / 400 == era;
    YearDays(c, q, r);
  }

  // Days-from-civil inverts the formula on every day ...
  lemma DaysOfCivil(n: nat)
    ensures DaysFromCivil(CivilFromDays(n)) == n
  {
    hide CivilFromDays, DaysFromCivil;
    var z := n + 719468;
    var era := z / 146097;
    var doe := z - era * 146097;
    var c, q, r, s := SplitExists(doe);
    CivilAt(n, era, c, q, r, s);
    InverseYear(era, c, q, r, s);
  }

  // ... and every valid date from the epoch on is the date of exactly one day.
  lemma CivilOfDays(d: Date)
    requires Valid(d) && d.year >= 1970
    ensures DaysFromCivil(d) >= 0 && CivilFromDays(DaysFromCivil(d)) == d
  {
    hide CivilFromDays, DaysFromCivil, FromMarchYear, Valid, Leap;
    var y := if d.month <= 2 then d.year - 1 else d.year;
    var mp := if d.month > 2 then d.month - 3 else d.month + 9;
    var s := (153 * mp + 2) / 5 + d.day - 1;
    ValidDay(d, y, mp, s);
    var era, c, q, r := SplitYear(y);
    LeapSplit(era, c, q, r);
    InverseYear(era, c, q, r, s);
    FromEpoch(era, c, q, r, s, y);
    CivilAt(DaysFromCivil(d), era, c, q, r, s);
  }

  lemma SplitYear(y: int) returns (era: int, c: int, q: int, r: int)
    ensures y == 100 * c + 4 * q + r + era * 400
    ensures 0 <= c <= 3 && 0 <= q <= 24 && 0 <= r <= 3
  {
    era := y / 400;
    var yoe := y - era * 400;
    c := yoe / 100;
    var yoc := yoe - 100 * c;
    q, r := yoc / 4, yoc % 4;
  }

  lemma ValidDay(d: Date, y: int, mp: int, s: int)
    requires Valid(d)
    requires y == if d.month <= 2 then d.year - 1 else d.year
    requires mp == if d.month > 2 then d.month - 3 else d.month + 9
    requires s == (153 * mp + 2) / 5 + d.day - 1
    ensures 0 <= s <= 365 && (s == 365 ==> Leap(y + 1)) && d == FromMarchYear(y, s)
    ensures d.month <= 2 ==> s >= 306
  {
  }

  lemma FromEpoch(era: int, c: int, q: int, r: int, s: int, y: int)
    requires 0 <= c <= 3 && 0 <= q <= 24 && 0 <= r <= 3 && 0 <= s <= 365
    requires y == 100 * c + 4 * q + r + era * 400
    requires y >= 1970 || (y == 1969 && s >= 306)
    ensures era * 146097 + (36524 * c + 1461 * q + 365 * r + s) >= 719468
    ensures (s == 365 ==> r == 3 && (q < 24 || c == 3)) ==> 36524 * c + 1461 * q + 365 * r + s < 146097
  {
  }

  // ---- order ----

  predicate Before(a: Date, b: Date) {
    a.year < b.year || (a.year == b.year && (a.month < b.month || (a.month == b.month && a.day < b.day)))
  }

  lemma {:induction false} WalkIncreases(m: nat, n: nat)
    requires m < n
    ensures Before(CivilFromDays(m), CivilFromDays(n))
    decreases n - m
  {
    hide CivilFromDays;
    CivilNext(n - 1);
    if m < n - 1 {
      WalkIncreases(m, n - 1);
    }
  }

  lemma CivilOrder(m: nat, n: nat)
    ensures m < n <==> Before(CivilFromDays(m), CivilFromDays(n))
    ensures m == n <==> CivilFromDays(m) == CivilFromDays(n)
  {
    hide CivilFromDays;
    if m < n {
      WalkIncreases(m, n);
    } else if n < m {
      WalkIncreases(n, m);
    }
  }
}
