/** Spend per UTC day and month over the cost ledger, and the caps that act on it. */
module CostLedger {
  import opened Calendar
  import opened Timestamp

  // The fields of a ledger row that aggregation reads. Dollars are exact.
  datatype Entry = Entry(timestamp: string, costUsd: real)

  datatype CapState = Fine | Warn | Tripped

  // `warnAtPct` is a percentage; a cap of zero or less is disabled.
  datatype Config = Config(dailyUsd: real, monthlyUsd: real, warnAtPct: nat)

  datatype Report = Report(todayUsd: real, monthUsd: real, daily: CapState, monthly: CapState)

  function SumPrefix(entries: seq<Entry>, prefix: string): real {
    if entries == [] then 0.0
    else (if prefix <= entries[0].timestamp then entries[0].costUsd else 0.0) + SumPrefix(entries[1..], prefix)
  }

  function Classify(current: real, cap: real, warnPct: real): CapState {
    if cap <= 0.0 then Fine
    else if current >= cap then Tripped
    else if current >= cap * warnPct then Warn
    else Fine
  }

  function Prefix(s: string, n: nat): string {
    if n < |s| then s[..n] else s
  }

  function EvaluateCaps(entries: seq<Entry>, cfg: Config, nowUtc: string): Report {
    var today := SumPrefix(entries, Prefix(nowUtc, 10));
    var month := SumPrefix(entries, Prefix(nowUtc, 7));
    var warnPct := cfg.warnAtPct as real / 100.0;
    Report(today, month, Classify(today, cfg.dailyUsd, warnPct), Classify(month, cfg.monthlyUsd, warnPct))
  }

  function WorstState(r: Report): CapState {
    if r.daily == Tripped || r.monthly == Tripped then Tripped
    else if r.daily == Warn || r.monthly == Warn then Warn
    else Fine
  }

  function Severity(s: CapState): nat {
    match s
    case Fine => 0
    case Warn => 1
    case Tripped => 2
  }

  predicate NonNegative(entries: seq<Entry>) {
    forall e :: e in entries ==> e.costUsd >= 0.0
  }

  // Rows stamped by the ledger's own clock: an instant and a cost.
  datatype Charge = Charge(secs: nat, costUsd: real)

  function Stamped(charges: seq<Charge>): (entries: seq<Entry>)
    ensures |entries| == |charges|
  {
    if charges == [] then [] else [Entry(Iso(charges[0].secs), charges[0].costUsd)] + Stamped(charges[1..])
  }

  predicate FourDigitYears(charges: seq<Charge>) {
    forall c :: c in charges ==> c.secs < YEAR_10000
  }

  function SumDay(charges: seq<Charge>, day: nat): real {
    if charges == [] then 0.0
    else (if charges[0].secs / 86400 == day then charges[0].costUsd else 0.0) + SumDay(charges[1..], day)
  }

  predicate SameMonth(a: nat, b: nat) {
    var x, y := CivilFromDays(a), CivilFromDays(b);
    x.year == y.year && x.month == y.month
  }

  function SumMonth(charges: seq<Charge>, day: nat): real {
    if charges == [] then 0.0
    else (if SameMonth(charges[0].secs / 86400, day) then charges[0].costUsd else 0.0) + SumMonth(charges[1..], day)
  }

  lemma PrefixMatch(s: string, t: string, n: nat)
    requires n <= |s| && n <= |t|
    ensures Prefix(s, n) <= t <==> s[..n] == t[..n]
  {
    assert Prefix(s, n) == s[..n];
    if s[..n] == t[..n] {
      assert s[..n] <= t by { assert t == t[..n] + t[n..]; }
    }
  }

  lemma StampMatch(s: nat, now: nat)
    requires s < YEAR_10000 && now < YEAR_10000
    ensures Prefix(Iso(now), 10) <= Iso(s) <==> s / 86400 == now / 86400
    ensures Prefix(Iso(now), 7) <= Iso(s) <==> SameMonth(s / 86400, now / 86400)
  {
    hide Iso, CivilFromDays;
    IsoPrefixes(s, now);
    PrefixMatch(Iso(now), Iso(s), 10);
    PrefixMatch(Iso(now), Iso(s), 7);
  }

  // The two sums the caps are tested against are the spend of the UTC day and of the
  // calendar month that contain `now`, over rows stamped by the ledger's clock.
  lemma {:induction false} SumsAreCalendarSums(charges: seq<Charge>, now: nat)
    requires FourDigitYears(charges) && now < YEAR_10000
    ensures SumPrefix(Stamped(charges), Prefix(Iso(now), 10)) == SumDay(charges, now / 86400)
    ensures SumPrefix(Stamped(charges), Prefix(Iso(now), 7)) == SumMonth(charges, now / 86400)
    decreases |charges|
  {
    hide Iso, SameMonth;
    if charges != [] {
      assert Stamped(charges)[1..] == Stamped(charges[1..]);
      StampMatch(charges[0].secs, now);
      SumsAreCalendarSums(charges[1..], now);
    }
  }

  // A day's spend never exceeds its month's, whatever the rows' timestamps say.
  lemma {:induction false} TodayWithinMonth(entries: seq<Entry>, nowUtc: string)
    requires NonNegative(entries)
    ensures 0.0 <= SumPrefix(entries, Prefix(nowUtc, 10)) <= SumPrefix(entries, Prefix(nowUtc, 7))
    decreases |entries|
  {
    if entries != [] {
      TodayWithinMonth(entries[1..], nowUtc);
      var e := entries[0];
      assert e in entries;
      assert Prefix(nowUtc, 7) <= Prefix(nowUtc, 10);
    }
  }

  lemma {:induction false} SumAppend(entries: seq<Entry>, more: seq<Entry>, prefix: string)
    ensures SumPrefix(entries + more, prefix) == SumPrefix(entries, prefix) + SumPrefix(more, prefix)
    decreases |entries|
  {
    if entries == [] {
      assert entries + more == more;
    } else {
      assert (entries + more)[1..] == entries[1..] + more;
      SumAppend(entries[1..], more, prefix);
    }
  }

  lemma ClassifyMonotone(x: real, y: real, cap: real, warnPct: real)
    requires x <= y
    ensures Severity(Classify(x, cap, warnPct)) <= Severity(Classify(y, cap, warnPct))
  {
  }

  // Recording more spend never lowers any cap state, so a tripped ledger stays tripped for
  // the rest of the window.
  lemma CapsEscalate(entries: seq<Entry>, more: seq<Entry>, cfg: Config, nowUtc: string)
    requires NonNegative(more)
    ensures var before, after := EvaluateCaps(entries, cfg, nowUtc), EvaluateCaps(entries + more, cfg, nowUtc);
            && Severity(before.daily) <= Severity(after.daily)
            && Severity(before.monthly) <= Severity(after.monthly)
            && Severity(WorstState(before)) <= Severity(WorstState(after))
  {
    var warnPct := cfg.warnAtPct as real / 100.0;
    var today, month := Prefix(nowUtc, 10), Prefix(nowUtc, 7);
    SumAppend(entries, more, today);
    SumAppend(entries, more, month);
    TodayWithinMonth(more, nowUtc);
    ClassifyMonotone(SumPrefix(entries, today), SumPrefix(entries + more, today), cfg.dailyUsd, warnPct);
    ClassifyMonotone(SumPrefix(entries, month), SumPrefix(entries + more, month), cfg.monthlyUsd, warnPct);
  }

  // A tripped daily cap trips the monthly one unless that is disabled or higher.
  lemma DailyTripsMonthly(entries: seq<Entry>, cfg: Config, nowUtc: string)
    requires NonNegative(entries) && 0.0 < cfg.monthlyUsd <= cfg.dailyUsd
    ensures var r := EvaluateCaps(entries, cfg, nowUtc); r.daily == Tripped ==> r.monthly == Tripped
  {
    TodayWithinMonth(entries, nowUtc);
  }

  // ---- when a cap acts ----

  // A share of a cap in percent, without the division.
  lemma Share(x: real, cap: real, pct: nat)
    ensures x >= cap * (pct as real / 100.0) <==> 100.0 * x >= cap * (pct as real)
  {
    var p := pct as real;
    assert 100.0 * (cap * (p / 100.0)) == cap * p;
  }

  predicate CapIs(state: CapState, spent: real, cap: real, pct: nat) {
    && (state == Tripped <==> cap > 0.0 && spent >= cap)
    && (state == Warn <==> cap > 0.0 && spent < cap && 100.0 * spent >= cap * (pct as real))
  }

  lemma ClassifyIs(spent: real, cap: real, pct: nat)
    ensures CapIs(Classify(spent, cap, pct as real / 100.0), spent, cap, pct)
  {
    Share(spent, cap, pct);
  }

  // A cap of zero or less never acts; any other is tripped from its amount on, and warns below
  // it from its percentage on. The worst state is tripped if either is, and else a warning if
  // either is one.
  lemma CapsExactly(entries: seq<Entry>, cfg: Config, nowUtc: string)
    ensures var r := EvaluateCaps(entries, cfg, nowUtc);
            && CapIs(r.daily, r.todayUsd, cfg.dailyUsd, cfg.warnAtPct)
            && CapIs(r.monthly, r.monthUsd, cfg.monthlyUsd, cfg.warnAtPct)
            && (WorstState(r) == Tripped <==> r.daily == Tripped || r.monthly == Tripped)
            && (WorstState(r) == Fine <==> r.daily == Fine && r.monthly == Fine)
            && r.todayUsd == SumPrefix(entries, Prefix(nowUtc, 10))
            && r.monthUsd == SumPrefix(entries, Prefix(nowUtc, 7))
  {
    hide Classify, SumPrefix, CapIs;
    ClassifyIs(SumPrefix(entries, Prefix(nowUtc, 10)), cfg.dailyUsd, cfg.warnAtPct);
    ClassifyIs(SumPrefix(entries, Prefix(nowUtc, 7)), cfg.monthlyUsd, cfg.warnAtPct);
  }
}
