/**
 The two-strike reconciler: failure counters kept between runs, and the one start or
 restart a run may issue for each component.
 */
module Reconcile {
  import opened Options

  const FAILURE_THRESHOLD: nat := 2
  const U32_MAX: nat := 0xFFFF_FFFF

  datatype Component = Component(name: string, unit: string, required: bool)

  // What a run meets at a component: the first probe, whether the unit is active, whether the
  // command succeeds, and the probe after it.
  datatype Visit = Visit(component: Component, first: bool, active: bool, command: bool, second: bool)

  datatype Verb = Start | Restart

  datatype Report = Report(name: string, unit: string, healthy: bool, consecutiveFailures: nat, action: Option<Verb>)

  type Failures = map<string, nat>

  function Count(failures: Failures, name: string): nat {
    if name in failures then failures[name] else 0
  }

  function Bumped(count: nat): nat {
    if count < U32_MAX then count + 1 else count
  }

  // ---- one run ----

  predicate Acts(count: nat, v: Visit, force: bool) {
    !v.first && (force || Bumped(count) >= FAILURE_THRESHOLD)
  }

  predicate Recovers(count: nat, v: Visit, force: bool) {
    v.first || (Acts(count, v, force) && v.command && v.second)
  }

  function Visited(failures: Failures, v: Visit, force: bool): Failures {
    if !v.component.required then failures
    else if Recovers(Count(failures, v.component.name), v, force) then failures - {v.component.name}
    else failures[v.component.name := Bumped(Count(failures, v.component.name))]
  }

  function AfterVisits(failures: Failures, visits: seq<Visit>, force: bool): Failures
    decreases |visits|
  {
    if visits == [] then failures else AfterVisits(Visited(failures, visits[0], force), visits[1..], force)
  }

  function ReportOf(failures: Failures, v: Visit, force: bool): Report {
    var name := v.component.name;
    if !v.component.required then Report(name, v.component.unit, true, 0, None)
    else
      Report(name, v.component.unit, Recovers(Count(failures, name), v, force),
             Count(Visited(failures, v, force), name),
             if Acts(Count(failures, name), v, force) then Some(if v.active then Restart else Start) else None)
  }

  lemma {:induction false} AfterVisitsSnoc(failures: Failures, visits: seq<Visit>, force: bool, k: nat)
    requires k < |visits|
    ensures AfterVisits(failures, visits[..k + 1], force)
         == Visited(AfterVisits(failures, visits[..k], force), visits[k], force)
    decreases k
  {
    if k == 0 {
      assert visits[..1][1..] == [];
    } else {
      AfterVisitsSnoc(Visited(failures, visits[0], force), visits[1..], force, k - 1);
      assert visits[..k + 1][1..] == visits[1..][..k] && visits[..k][1..] == visits[1..][..k - 1];
    }
  }

  // One turn of the loop: the probes, the counter and the one command of a component.
  method Visiting(failures: Failures, v: Visit, force: bool) returns (state: Failures, report: Report)
    ensures state == Visited(failures, v, force) && report == ReportOf(failures, v, force)
  {
    state := failures;
    var name := v.component.name;
    if !v.component.required {
      return state, Report(name, v.component.unit, true, 0, None);
    }
    if v.first {
      state := state - {name};
      return state, Report(name, v.component.unit, true, 0, None);
    }
    var count := Bumped(Count(state, name));
    state := state[name := count];
    var action, healthy := None, false;
    if force || count >= FAILURE_THRESHOLD {
      action := Some(if v.active then Restart else Start);
      healthy := v.command && v.second;
      if healthy {
        state := state - {name};
      }
    }
    report := Report(name, v.component.unit, healthy, Count(state, name), action);
  }

  // The state file and the runs over it.
  class Reconciler {
    var failures: Failures

    constructor ()
      ensures failures == map[]
    {
      failures := map[];
    }

    // A run works on its own copy and stores it before it reports; there is an error and no
    // exit code when storing fails, or else when writing the report does.
    method Run(visits: seq<Visit>, force: bool, saves: bool, writes: bool)
      returns (reports: seq<Report>, code: Option<nat>)
      modifies this
      ensures failures == if saves then AfterVisits(old(failures), visits, force) else old(failures)
      ensures |reports| == |visits|
      ensures code == if !saves || !writes then None
                      else Some(if forall i :: 0 <= i < |reports| ==> reports[i].healthy then 0 else 1)
      ensures forall i :: 0 <= i < |visits| ==>
                reports[i] == ReportOf(AfterVisits(old(failures), visits[..i], force), visits[i], force)
    {
      hide Visited, ReportOf;
      var state := failures;
      reports := [];
      for i := 0 to |visits|
        invariant failures == old(failures) && state == AfterVisits(failures, visits[..i], force)
        invariant |reports| == i
        invariant forall k :: 0 <= k < i ==>
                    reports[k] == ReportOf(AfterVisits(failures, visits[..k], force), visits[k], force)
      {
        hide AfterVisits;
        AfterVisitsSnoc(failures, visits, force, i);
        var report;
        state, report := Visiting(state, visits[i], force);
        reports := reports + [report];
      }
      assert visits[..|visits|] == visits;
      if !saves {
        return reports, None;
      }
      failures := state;
      if !writes {
        return reports, None;
      }
      code := Some(if forall i :: 0 <= i < |reports| ==> reports[i].healthy then 0 else 1);
    }
  }

  // ---- whole histories ----

  datatype Run = Run(visits: seq<Visit>, force: bool, saves: bool)

  // The components of a run have distinct names.
  predicate DistinctNames(visits: seq<Visit>) {
    forall i, j :: 0 <= i < j < |visits| ==> visits[i].component.name != visits[j].component.name
  }

  predicate WellFormed(history: seq<Run>) {
    forall i :: 0 <= i < |history| ==> DistinctNames(history[i].visits)
  }

  function StateAfter(history: seq<Run>): Failures
    decreases |history|
  {
    if history == [] then map[]
    else
      var before, last := StateAfter(history[..|history| - 1]), history[|history| - 1];
      if last.saves then AfterVisits(before, last.visits, last.force) else before
  }

  // The visit a run pays to a component it requires.
  function RequiredVisit(visits: seq<Visit>, name: string): (v: Option<Visit>)
    ensures v.Some? ==> v.value in visits && v.value.component.required && v.value.component.name == name
  {
    if visits == [] then None
    else if visits[0].component.required && visits[0].component.name == name then Some(visits[0])
    else RequiredVisit(visits[1..], name)
  }

  // Whether a visit ends with its final probe failed, by how the previous one ended: an
  // action is taken when forced or on the second failure in a row.
  predicate EndsFailed(v: Visit, force: bool, previousFailed: bool) {
    !v.first && !((force || previousFailed) && v.command && v.second)
  }

  predicate LastFailed(outcomes: seq<bool>) {
    outcomes != [] && outcomes[|outcomes| - 1]
  }

  // How each stored run that required the component ended for it, oldest first; true is failed.
  function Outcomes(history: seq<Run>, name: string): seq<bool>
    decreases |history|
  {
    if history == [] then []
    else
      var before, last := Outcomes(history[..|history| - 1], name), history[|history| - 1];
      match if last.saves then RequiredVisit(last.visits, name) else None
      case None => before
      case Some(v) => before + [EndsFailed(v, last.force, LastFailed(before))]
  }

  // The length of the failed streak the outcomes end in.
  function Streak(outcomes: seq<bool>): nat
    decreases |outcomes|
  {
    if LastFailed(outcomes) then 1 + Streak(outcomes[..|outcomes| - 1]) else 0
  }

  function Saturated(n: nat): nat {
    if n < U32_MAX then n else U32_MAX
  }

  // What one run does to one component's counter.
  lemma {:induction false} CountAfterVisits(failures: Failures, visits: seq<Visit>, force: bool, name: string)
    requires DistinctNames(visits)
    ensures Count(AfterVisits(failures, visits, force), name)
         == match RequiredVisit(visits, name)
            case None => Count(failures, name)
            case Some(v) =>
              if Recovers(Count(failures, name), v, force) then 0 else Bumped(Count(failures, name))
    decreases |visits|
  {
    if visits != [] {
      CountAfterVisits(Visited(failures, visits[0], force), visits[1..], force, name);
      if visits[0].component.name == name {
        OnlyOnce(visits[1..], name);
      }
    }
  }

  lemma {:induction false} OnlyOnce(visits: seq<Visit>, name: string)
    requires forall i :: 0 <= i < |visits| ==> visits[i].component.name != name
    ensures RequiredVisit(visits, name) == None
  {
    if visits != [] {
      OnlyOnce(visits[1..], name);
    }
  }

  lemma StreakSnoc(outcomes: seq<bool>, b: bool)
    ensures Streak(outcomes + [b]) == if b then 1 + Streak(outcomes) else 0
    ensures LastFailed(outcomes) <==> Streak(outcomes) > 0
  {
    assert (outcomes + [b])[..|outcomes|] == outcomes;
  }

  // One required visit takes the counter of a streak to the counter of the longer one.
  lemma CountStep(count: nat, v: Visit, force: bool, outcomes: seq<bool>)
    requires count == Saturated(Streak(outcomes))
    ensures Acts(count, v, force) <==> !v.first && (force || LastFailed(outcomes))
    ensures Recovers(count, v, force) <==> !EndsFailed(v, force, LastFailed(outcomes))
    ensures (if Recovers(count, v, force) then 0 else Bumped(count))
         == Saturated(Streak(outcomes + [EndsFailed(v, force, LastFailed(outcomes))]))
  {
    hide Streak, LastFailed;
    StreakSnoc(outcomes, EndsFailed(v, force, LastFailed(outcomes)));
  }

  lemma EmptyStreak(name: string)
    ensures Count(map[], name) == Saturated(Streak([]))
  {
  }

  // Over every history the stored counter is the current failed streak, saturated.
  lemma {:induction false} CounterIsStreak(history: seq<Run>, name: string)
    requires WellFormed(history)
    ensures Count(StateAfter(history), name) == Saturated(Streak(Outcomes(history, name)))
    decreases |history|
  {
    hide AfterVisits, RequiredVisit, Streak, LastFailed, DistinctNames, Recovers, EndsFailed, Bumped, Count, Saturated;
    assert Count(map[], name) == Saturated(Streak([])) by { EmptyStreak(name); }
    if history != [] {
      var before, last := history[..|history| - 1], history[|history| - 1];
      CounterIsStreak(before, name);
      CountAfterVisits(StateAfter(before), last.visits, last.force, name);
      match if last.saves then RequiredVisit(last.visits, name) else None
      case None =>
      case Some(v) =>
        CountStep(Count(StateAfter(before), name), v, last.force, Outcomes(before, name));
    }
  }

  // What a component's report says, by the streak its counter stands for.
  lemma ReportByStreak(failures: Failures, v: Visit, force: bool, outcomes: seq<bool>)
    requires v.component.required
    requires Count(failures, v.component.name) == Saturated(Streak(outcomes))
    ensures var r := ReportOf(failures, v, force);
            var failed := EndsFailed(v, force, LastFailed(outcomes));
            && (r.action.Some? <==> !v.first && (force || LastFailed(outcomes)))
            && (r.action.Some? ==> r.action.value == if v.active then Restart else Start)
            && (r.healthy <==> !failed)
            && r.consecutiveFailures == Saturated(Streak(outcomes + [failed]))
  {
    hide Streak, LastFailed, Acts, Recovers, EndsFailed;
    CountStep(Count(failures, v.component.name), v, force, outcomes);
  }

  // A run acts on a component exactly when its first probe fails and the run is forced or the
  // previous stored run that required it ended failed; it restarts an active unit and starts
  // any other.
  lemma ActionExactly(history: seq<Run>, visits: seq<Visit>, force: bool, i: nat)
    requires WellFormed(history) && DistinctNames(visits) && i < |visits| && visits[i].component.required
    ensures var v := visits[i];
            var outcomes := Outcomes(history, v.component.name);
            var r := ReportOf(AfterVisits(StateAfter(history), visits[..i], force), v, force);
            && (r.action.Some? <==> !v.first && (force || LastFailed(outcomes)))
            && (r.action.Some? ==> r.action.value == if v.active then Restart else Start)
            && (r.healthy <==> !EndsFailed(v, force, LastFailed(outcomes)))
            && r.consecutiveFailures == Saturated(Streak(outcomes + [EndsFailed(v, force, LastFailed(outcomes))]))
  {
    hide *;
    var v := visits[i];
    var name := v.component.name;
    CounterIsStreak(history, name);
    assert DistinctNames(visits[..i]) && forall k :: 0 <= k < i ==> visits[..i][k].component.name != name by {
      PrefixDistinct(visits, i);
    }
    CountAfterVisits(StateAfter(history), visits[..i], force, name);
    OnlyOnce(visits[..i], name);
    ReportByStreak(AfterVisits(StateAfter(history), visits[..i], force), v, force, Outcomes(history, name));
  }

  lemma PrefixDistinct(visits: seq<Visit>, i: nat)
    requires DistinctNames(visits) && i < |visits|
    ensures DistinctNames(visits[..i])
    ensures forall k :: 0 <= k < i ==> visits[k].component.name != visits[i].component.name
  {
  }

  // ---- the exit code ----

  // What a run reports of a component it does not require, and the names in every report.
  lemma NotRequired(failures: Failures, v: Visit, force: bool)
    ensures var r := ReportOf(failures, v, force);
            && r.name == v.component.name && r.unit == v.component.unit
            && (!v.component.required ==> r.healthy && r.consecutiveFailures == 0 && r.action == None)
  {
  }

  predicate RunHealthy(history: seq<Run>, visits: seq<Visit>, force: bool) {
    forall i :: 0 <= i < |visits| ==>
      ReportOf(AfterVisits(StateAfter(history), visits[..i], force), visits[i], force).healthy
  }

  // Over every history: a run's exit code is zero if and only if no component that it requires
  // ends failed; the others play no part.
  lemma HealthyExactly(history: seq<Run>, visits: seq<Visit>, force: bool)
    requires WellFormed(history) && DistinctNames(visits)
    ensures RunHealthy(history, visits, force) <==>
              forall i :: 0 <= i < |visits| && visits[i].component.required ==>
                !EndsFailed(visits[i], force, LastFailed(Outcomes(history, visits[i].component.name)))
  {
    hide EndsFailed, LastFailed, Outcomes, ReportOf, AfterVisits, StateAfter, WellFormed, DistinctNames, Streak;
    forall i | 0 <= i < |visits|
      ensures var failures := AfterVisits(StateAfter(history), visits[..i], force);
              ReportOf(failures, visits[i], force).healthy <==>
                !visits[i].component.required
                || !EndsFailed(visits[i], force, LastFailed(Outcomes(history, visits[i].component.name)))
    {
      NotRequired(AfterVisits(StateAfter(history), visits[..i], force), visits[i], force);
      if visits[i].component.required {
        ActionExactly(history, visits, force, i);
      }
    }
  }

  // A visit ends failed when its probe fails, and either nothing is done about it, or the
  // command or the probe after it fails too. Twice in a row, or when forced, something is done.
  lemma EndsFailedIs(v: Visit, force: bool, previousFailed: bool)
    ensures v.first ==> !EndsFailed(v, force, previousFailed)
    ensures !v.first && !force && !previousFailed ==> EndsFailed(v, force, previousFailed)
    ensures !v.first && (force || previousFailed) ==>
              (EndsFailed(v, force, previousFailed) <==> !v.command || !v.second)
    ensures U32_MAX == 4294967295
  {
  }
}
