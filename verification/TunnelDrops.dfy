/** When a live stream can miss frames that the cloud sent it: exactly, by the frame history. */
module TunnelDrops {
  import opened Options
  import opened Tunnel
  import opened TunnelSafety
  import opened TunnelRuns
  import opened TunnelIds

  predicate NotClosed(history: seq<Frame>, t: Task) {
    forall k :: t.since <= k < |history| ==> history[k] != Close(t.id)
  }

  predicate Live(t: Task) {
    t.phase == Connecting || t.phase == Running
  }

  // The id was opened and then closed within the first n frames.
  predicate ClosedWithin(history: seq<Frame>, id: StreamId, n: int) {
    exists a, b :: 0 <= a < b < n && b < |history| && history[a] == Open(id) && history[b] == Close(id)
  }

  // The same before the task's own open.
  predicate Late(s: State, j: nat)
    requires j < |s.tasks|
  {
    ClosedWithin(s.history, s.tasks[j].id, s.tasks[j].since - 1)
  }

  function Pending(finished: seq<StreamId>, id: StreamId): nat
    decreases |finished|
  {
    if finished == [] then 0 else Pending(finished[1..], id) + if finished[0] == id then 1 else 0
  }

  // The done tasks of the id from the given one on.
  function DoneFrom(tasks: seq<Task>, id: StreamId, j: nat): nat
    decreases |tasks| - j
  {
    if j >= |tasks| then 0
    else DoneFrom(tasks, id, j + 1) + if tasks[j].id == id && tasks[j].phase == Done then 1 else 0
  }

  predicate LastOf(tasks: seq<Task>, id: StreamId, d: nat) {
    d < |tasks| && tasks[d].id == id && forall j :: d < j < |tasks| ==> tasks[j].id != id
  }

  // A task of the id whose open no close preceded: all earlier ones are done, and the done
  // notices still waiting are of it and of later ones.
  predicate First(s: State, id: StreamId, j: nat)
    requires j < |s.tasks|
  {
    && (forall d :: 0 <= d < j && s.tasks[d].id == id ==> s.tasks[d].phase == Done)
    && Pending(s.finished, id) <= DoneFrom(s.tasks, id, j)
  }

  // What the loop remembers of an id, and why.
  ghost predicate Ledger(s: State, id: StreamId) {
    && Pending(s.finished, id) <= DoneFrom(s.tasks, id, 0)
    && (forall j :: 0 <= j < |s.tasks| && s.tasks[j].id == id && !Late(s, j) ==> First(s, id, j))
    && (id in s.streams ==> LastOf(s.tasks, id, s.streams[id]) && NotClosed(s.history, s.tasks[s.streams[id]]))
    && (s.open && id !in s.streams ==>
          forall d: nat :: LastOf(s.tasks, id, d) && NotClosed(s.history, s.tasks[d]) && !Late(s, d) ==>
                        s.tasks[d].phase == Done && Pending(s.finished, id) == 0)
  }

  // ---- counting ----

  lemma {:induction false} PendingSnoc(finished: seq<StreamId>, other: StreamId, id: StreamId)
    ensures Pending(finished + [other], id) == Pending(finished, id) + if other == id then 1 else 0
    decreases |finished|
  {
    if finished == [] {
      assert [] + [other] == [other];
    } else {
      assert (finished + [other])[1..] == finished[1..] + [other];
      PendingSnoc(finished[1..], other, id);
    }
  }

  // The same tasks of the id, done alike, and perhaps more tasks of other ids.
  predicate Alike(a: seq<Task>, b: seq<Task>, id: StreamId) {
    && |a| <= |b|
    && (forall k :: 0 <= k < |a| ==> b[k].id == a[k].id && b[k].since == a[k].since)
    && (forall k :: 0 <= k < |a| && a[k].id == id ==> (b[k].phase == Done <==> a[k].phase == Done))
    && forall k :: |a| <= k < |b| ==> b[k].id != id
  }

  lemma {:induction false} DoneAlike(a: seq<Task>, b: seq<Task>, id: StreamId, j: nat)
    requires Alike(a, b, id)
    ensures DoneFrom(b, id, j) == DoneFrom(a, id, j)
    decreases |b| - j
  {
    if j < |b| {
      DoneAlike(a, b, id, j + 1);
    }
  }

  lemma {:induction false} DoneMore(a: seq<Task>, b: seq<Task>, id: StreamId, i: nat, j: nat)
    requires i < |a| && |b| == |a| && a[i].id == id && b[i].id == id && a[i].phase != Done && b[i].phase == Done
    requires forall k :: 0 <= k < |a| && k != i ==> b[k] == a[k]
    ensures DoneFrom(b, id, j) == DoneFrom(a, id, j) + if j <= i then 1 else 0
    decreases |a| - j
  {
    if j < |a| {
      DoneMore(a, b, id, i, j + 1);
    }
  }

  lemma {:induction false} DoneNone(tasks: seq<Task>, id: StreamId, j: nat)
    requires forall k :: j <= k < |tasks| ==> tasks[k].id != id || tasks[k].phase != Done
    ensures DoneFrom(tasks, id, j) == 0
    decreases |tasks| - j
  {
    if j < |tasks| {
      DoneNone(tasks, id, j + 1);
    }
  }

  lemma {:induction false} DoneAppend(tasks: seq<Task>, t: Task, id: StreamId, j: nat)
    requires t.phase != Done
    ensures DoneFrom(tasks + [t], id, j) == DoneFrom(tasks, id, j)
    decreases |tasks| + 1 - j
  {
    if j <= |tasks| {
      DoneAppend(tasks, t, id, j + 1);
    }
  }

  lemma DoneLast(tasks: seq<Task>, id: StreamId, d: nat)
    requires LastOf(tasks, id, d)
    ensures DoneFrom(tasks, id, d) == if tasks[d].phase == Done then 1 else 0
  {
    DoneNone(tasks, id, d + 1);
  }

  // ---- steps that do not concern the id ----

  predicate Quiet(s: State, u: State, id: StreamId) {
    && Alike(s.tasks, u.tasks, id) && Pending(u.finished, id) == Pending(s.finished, id)
    && (id in u.streams <==> id in s.streams) && (id in s.streams ==> u.streams[id] == s.streams[id])
    && (u.open ==> s.open) && |s.history| <= |u.history| <= |s.history| + 1 && u.history[..|s.history|] == s.history
    && (|u.history| > |s.history| && id in s.streams ==> u.history[|s.history|] != Close(id))
  }

  lemma SameWithin(a: seq<Frame>, b: seq<Frame>, id: StreamId, n: int)
    requires |a| <= |b| && b[..|a|] == a && n <= |a|
    ensures ClosedWithin(b, id, n) <==> ClosedWithin(a, id, n)
  {
    assert forall k :: 0 <= k < |a| ==> b[k] == a[k] by {
      assert forall k :: 0 <= k < |a| ==> b[k] == b[..|a|][k];
    }
    if ClosedWithin(b, id, n) {
      var x, y :| 0 <= x < y < n && y < |b| && b[x] == Open(id) && b[y] == Close(id);
      assert a[x] == Open(id) && a[y] == Close(id);
    }
    if ClosedWithin(a, id, n) {
      var x, y :| 0 <= x < y < n && y < |a| && a[x] == Open(id) && a[y] == Close(id);
      assert b[x] == Open(id) && b[y] == Close(id);
    }
  }

  lemma SameLate(s: State, u: State, id: StreamId, j: nat)
    requires TasksOpened(s) && Quiet(s, u, id) && j < |s.tasks|
    ensures Late(u, j) <==> Late(s, j)
  {
    SameWithin(s.history, u.history, s.tasks[j].id, s.tasks[j].since - 1);
  }

  lemma NotClosedBefore(a: seq<Frame>, b: seq<Frame>, t: Task, u: Task)
    requires |a| <= |b| && b[..|a|] == a && u.since == t.since && u.id == t.id && NotClosed(b, u)
    ensures NotClosed(a, t)
  {
    assert forall k :: 0 <= k < |a| ==> b[..|a|][k] == b[k];
  }

  lemma QuietKeeps(s: State, u: State, id: StreamId)
    requires TasksOpened(s) && Ledger(s, id) && Quiet(s, u, id)
    ensures Ledger(u, id)
  {
    hide Late, Pending, DoneFrom, NotClosed;
    DoneAlike(s.tasks, u.tasks, id, 0);
    forall j | 0 <= j < |u.tasks| && u.tasks[j].id == id && !Late(u, j)
      ensures First(u, id, j)
    {
      SameLate(s, u, id, j);
      DoneAlike(s.tasks, u.tasks, id, j);
      assert First(s, id, j);
    }
    if id in s.streams {
      StillOpen(s, u, id);
    } else {
      forall d: nat | LastOf(u.tasks, id, d) && NotClosed(u.history, u.tasks[d]) && !Late(u, d) && u.open
        ensures u.tasks[d].phase == Done && Pending(u.finished, id) == 0
      {
        SameLate(s, u, id, d);
        NotClosedBefore(s.history, u.history, s.tasks[d], u.tasks[d]);
        assert LastOf(s.tasks, id, d);
      }
    }
  }

  lemma StillOpen(s: State, u: State, id: StreamId)
    requires Ledger(s, id) && Quiet(s, u, id) && id in s.streams
    ensures LastOf(u.tasks, id, u.streams[id]) && NotClosed(u.history, u.tasks[u.streams[id]])
  {
    hide Late, Pending, DoneFrom, First;
    assert forall k :: 0 <= k < |s.history| ==> u.history[..|s.history|][k] == u.history[k];
  }

  // ---- steps that do ----

  lemma LaterIsLate(h: seq<Frame>, id: StreamId, t: Task, n: int)
    requires t.id == id && 1 <= t.since <= n <= |h| && h[t.since - 1] == Open(id)
    requires !ClosedWithin(h, id, n)
    ensures !ClosedWithin(h, id, t.since - 1) && forall k :: t.since <= k < n ==> h[k] != Close(id)
  {
    assert h[t.since - 1] == Open(id);
  }

  lemma {:induction false} LastExists(tasks: seq<Task>, id: StreamId, i: nat) returns (d: nat)
    requires i < |tasks| && tasks[i].id == id
    ensures i <= d && LastOf(tasks, id, d)
    decreases |tasks| - i
  {
    d := i;
    if j :| i < j < |tasks| && tasks[j].id == id {
      d := LastExists(tasks, id, j);
    }
  }

  // The last task of an id that the loop has forgotten, if no close preceded its open.
  lemma ForgottenLast(s: State, id: StreamId, d: nat)
    requires TasksOpened(s) && Ledger(s, id) && s.open && id !in s.streams && LastOf(s.tasks, id, d)
    requires !ClosedWithin(s.history, id, |s.history|)
    ensures !Late(s, d) && s.tasks[d].phase == Done && Pending(s.finished, id) == 0
  {
    hide ClosedWithin, Pending, DoneFrom, First, Opens, TaskCount;
    LaterIsLate(s.history, id, s.tasks[d], |s.history|);
  }

  // A new stream of the id that no close preceded finds the earlier ones done and noticed.
  lemma NewIsFirst(s: State, id: StreamId)
    requires TasksOpened(s) && Ledger(s, id) && s.open && id !in s.streams && !ClosedWithin(s.history, id, |s.history|)
    ensures forall d :: 0 <= d < |s.tasks| && s.tasks[d].id == id ==> s.tasks[d].phase == Done
    ensures Pending(s.finished, id) == 0
  {
    hide Late, NotClosed, TasksOpened, ClosedWithin, Pending, DoneFrom;
    if i :| 0 <= i < |s.tasks| && s.tasks[i].id == id {
      var d := LastExists(s.tasks, id, i);
      ForgottenLast(s, id, d);
      assert First(s, id, d);
    } else {
      DoneNone(s.tasks, id, 0);
    }
  }

  // A step that opens the id for the given task.
  predicate Opening(s: State, u: State, id: StreamId, t: Task) {
    && u.tasks == s.tasks + [t] && t.id == id && t.since == |s.history| + 1 && t.phase != Done
    && u.history == s.history + [Open(id)] && u.finished == s.finished
    && id in u.streams && u.streams[id] == |s.tasks|
  }

  lemma OpenedFirst(s: State, u: State, id: StreamId, t: Task, j: nat)
    requires TasksOpened(s) && Ledger(s, id) && s.open && id !in s.streams && Opening(s, u, id, t)
    requires j < |u.tasks| && u.tasks[j].id == id && !Late(u, j)
    ensures First(u, id, j)
  {
    hide Pending, DoneFrom, ClosedWithin, NotClosed;
    assert u.history[..|s.history|] == s.history;
    SameWithin(s.history, u.history, id, u.tasks[j].since - 1);
    DoneAppend(s.tasks, t, id, j);
    if j == |s.tasks| {
      NewIsFirst(s, id);
    } else {
      assert !Late(s, j);
      assert First(s, id, j);
    }
  }

  lemma OpenLedger(s: State, id: StreamId)
    requires TasksOpened(s) && Ledger(s, id) && s.open && id !in s.streams && id != ""
    ensures Ledger(Handle(s, Open(id)), id)
  {
    hide Pending, DoneFrom, ClosedWithin, Late, First;
    var u := Handle(s, Open(id));
    var t := u.tasks[|s.tasks|];
    DoneAppend(s.tasks, t, id, 0);
    forall j | 0 <= j < |u.tasks| && u.tasks[j].id == id && !Late(u, j)
      ensures First(u, id, j)
    {
      OpenedFirst(s, u, id, t, j);
    }
  }

  lemma CloseLedger(s: State, id: StreamId)
    requires TasksOpened(s) && Ledger(s, id) && s.open && id in s.streams && id != "" && s.streams[id] < |s.tasks|
    ensures Ledger(Handle(s, Close(id)), id)
  {
    hide Pending, DoneFrom, ClosedWithin;
    var u := Handle(s, Close(id));
    assert u.history[..|s.history|] == s.history && u.history[|s.history|] == Close(id);
    assert Alike(s.tasks, u.tasks, id);
    DoneAlike(s.tasks, u.tasks, id, 0);
    forall j | 0 <= j < |u.tasks| && u.tasks[j].id == id && !Late(u, j)
      ensures First(u, id, j)
    {
      SameWithin(s.history, u.history, id, u.tasks[j].since - 1);
      DoneAlike(s.tasks, u.tasks, id, j);
      assert First(s, id, j);
    }
    forall d: nat | LastOf(u.tasks, id, d)
      ensures !NotClosed(u.history, u.tasks[d])
    {
      assert u.history[|s.history|] == Close(u.tasks[d].id);
    }
  }

  // With one notice of the id fewer, only its last task can still be unnoticed.
  lemma LastNoticed(s: State, id: StreamId, d: nat)
    requires LastOf(s.tasks, id, d) && First(s, id, d) && Pending(s.finished, id) >= 1
    ensures s.tasks[d].phase == Done && Pending(s.finished, id) == 1
  {
    hide Pending, DoneFrom;
    DoneLast(s.tasks, id, d);
  }

  lemma DoneLedger(s: State, id: StreamId)
    requires Ledger(s, id) && s.open && s.finished != [] && s.finished[0] == id
    ensures Ledger(Step(s, TakeDone), id)
  {
    hide DoneFrom, ClosedWithin, NotClosed, Ledger, Late;
    var u := Step(s, TakeDone);
    assert Pending(u.finished, id) == Pending(s.finished, id) - 1;
    Noticed(s, u, id);
  }

  // One notice of the id taken.
  lemma Noticed(s: State, u: State, id: StreamId)
    requires Ledger(s, id) && u.tasks == s.tasks && u.history == s.history && id !in u.streams
    requires Pending(u.finished, id) == Pending(s.finished, id) - 1
    ensures Ledger(u, id)
  {
    hide DoneFrom, ClosedWithin, NotClosed, Pending;
    forall j | 0 <= j < |u.tasks| && u.tasks[j].id == id && !Late(u, j)
      ensures First(u, id, j)
    {
      assert First(s, id, j);
    }
    forall d: nat | LastOf(u.tasks, id, d) && NotClosed(u.history, u.tasks[d]) && !Late(u, d)
      ensures u.tasks[d].phase == Done && Pending(u.finished, id) == 0
    {
      assert First(s, id, d);
      LastNoticed(s, id, d);
    }
  }

  lemma FinishLedger(s: State, i: nat)
    requires i < |s.tasks| && s.tasks[i].phase == Ended && Ledger(s, s.tasks[i].id)
    ensures Ledger(TaskStep(s, i, Finish), s.tasks[i].id)
  {
    hide DoneFrom, Pending, ClosedWithin, NotClosed;
    var id, u := s.tasks[i].id, TaskStep(s, i, Finish);
    PendingSnoc(s.finished, id, id);
    DoneMore(s.tasks, u.tasks, id, i, 0);
    forall j | 0 <= j < |u.tasks| && u.tasks[j].id == id && !Late(u, j)
      ensures First(u, id, j)
    {
      assert First(s, id, j);
      DoneMore(s.tasks, u.tasks, id, i, j);
    }
    if id in s.streams {
      assert LastOf(s.tasks, id, s.streams[id]);
      SameUnclosed(s.history, s.tasks[s.streams[id]], u.tasks[s.streams[id]]);
    }
    forall d: nat | LastOf(u.tasks, id, d) && u.open && id !in u.streams
      ensures !NotClosed(u.history, u.tasks[d]) || Late(u, d)
    {
      if NotClosed(u.history, u.tasks[d]) {
        SameUnclosed(u.history, u.tasks[d], s.tasks[d]);
      }
      assert LastOf(s.tasks, id, d);
      assert !Late(s, d) ==> First(s, id, d);
    }
  }

  lemma SameUnclosed(h: seq<Frame>, t: Task, u: Task)
    requires NotClosed(h, t) && u.id == t.id && u.since == t.since
    ensures NotClosed(h, u)
  {
  }

  // ---- every step ----

  lemma TaskStepQuiet(s: State, i: nat, act: Act, id: StreamId)
    requires i < |s.tasks| && !(s.tasks[i].id == id && s.tasks[i].phase == Ended && act == Finish)
    ensures Quiet(s, TaskStep(s, i, act), id)
  {
    hide Ends, Takes, Quiet, Push, HasSender;
    var t := s.tasks[i];
    SelfQuiet(s, id);
    if Live(t) {
      EndsQuiet(s, i, t, true, id);
      EndsQuiet(s, i, t, false, id);
    }
    if t.phase == Connecting && act.Connect? && act.ok {
      TalksQuiet(s, i, t.(phase := Running), Accept(i, t.id), id);
    } else if t.phase == Running && act.LocalMessage? {
      TalksQuiet(s, i, t.(fetched := t.fetched + [act.body]), Chunk(i, t.id, act.body), id);
    } else if t.phase == Running && act.Receive? && t.inbox != [] {
      TakesQuiet(s, i, act.writes, id);
    } else if t.phase == Ended && act == Finish {
      FinishQuiet(s, i, id);
    }
  }

  lemma SelfQuiet(s: State, id: StreamId)
    ensures Quiet(s, s, id)
  {
    hide Pending;
  }

  lemma TalksQuiet(s: State, i: nat, u: Task, m: Message, id: StreamId)
    requires i < |s.tasks| && u.id == s.tasks[i].id && u.since == s.tasks[i].since
    requires u.phase == Running && Live(s.tasks[i])
    ensures Quiet(s, Push(s.(tasks := s.tasks[i := u]), m), id)
  {
    hide Pending;
  }

  lemma FinishQuiet(s: State, i: nat, id: StreamId)
    requires i < |s.tasks| && s.tasks[i].id != id && s.tasks[i].phase == Ended
    ensures Quiet(s, TaskStep(s, i, Finish), id)
  {
    hide Pending;
    PendingSnoc(s.finished, s.tasks[i].id, id);
  }

  lemma EndsQuiet(s: State, i: nat, u: Task, failed: bool, id: StreamId)
    requires i < |s.tasks| && u.id == s.tasks[i].id && u.since == s.tasks[i].since
    requires Live(s.tasks[i])
    ensures Quiet(s, Ends(s, i, u, failed), id)
  {
    hide Pending;
  }

  lemma TakesQuiet(s: State, i: nat, writes: bool, id: StreamId)
    requires i < |s.tasks| && s.tasks[i].inbox != [] && s.tasks[i].phase == Running
    ensures Quiet(s, Takes(s, i, writes), id)
  {
    hide Ends, Pending;
    var t := s.tasks[i];
    EndsQuiet(s, i, t.(consumed := t.consumed + [t.inbox[0]], inbox := t.inbox[1..]), true, id);
    EndsQuiet(s, i, t.(consumed := t.consumed + [t.inbox[0]], inbox := t.inbox[1..]), false, id);
  }

  lemma HandleLedger(s: State, f: Frame, id: StreamId)
    requires Inv(s) && TasksOpened(s) && Ledger(s, id) && s.open && id != ""
    ensures Ledger(Handle(s, f), id)
  {
    hide Ledger, TasksOpened, TaskOk, LogOk, Pending;
    assert (s.history + [f])[..|s.history|] == s.history;
    if f == Open(id) && id !in s.streams {
      OpenLedger(s, id);
    } else if f == Close(id) && id in s.streams {
      CloseLedger(s, id);
    } else {
      QuietKeeps(s, Handle(s, f), id);
    }
  }

  lemma StepLedger(s: State, e: Event, id: StreamId)
    requires Inv(s) && TasksOpened(s) && Ledger(s, id) && id != ""
    ensures Ledger(Step(s, e), id)
  {
    hide Ledger, TasksOpened, TaskOk, LogOk, Handle, TaskStep, Quiet;
    match e
    case Incoming(f) => if s.open { HandleLedger(s, f, id); }
    case Acts(i, act) =>
      if i < |s.tasks| {
        if s.tasks[i].id == id && s.tasks[i].phase == Ended && act == Finish {
          FinishLedger(s, i);
        } else {
          TaskStepQuiet(s, i, act, id);
          QuietKeeps(s, TaskStep(s, i, act), id);
        }
      }
    case TakeDone =>
      if s.open && s.finished != [] {
        if s.finished[0] == id {
          DoneLedger(s, id);
        } else {
          OtherQuiet(s, e, id);
          QuietKeeps(s, Step(s, e), id);
        }
      }
    case _ =>
      OtherQuiet(s, e, id);
      QuietKeeps(s, Step(s, e), id);
  }

  lemma OtherQuiet(s: State, e: Event, id: StreamId)
    requires !e.Incoming? && !e.Acts? && (e.TakeDone? && s.finished != [] ==> s.finished[0] != id)
    ensures Quiet(s, Step(s, e), id)
  {
    assert s.history[..|s.history|] == s.history;
  }

  lemma {:induction false} RunLedger(events: seq<Event>, id: StreamId)
    requires id != ""
    ensures Ledger(Run(START, events), id)
    decreases |events|
  {
    hide Inv, Step, Accounts, Ledger, TasksOpened;
    if events == [] {
      StartLedger(id);
    } else {
      var before := events[..|events| - 1];
      RunKeeps(before);
      RunAccounts(before);
      AccountsOpened(Run(START, before));
      RunLedger(before, id);
      StepLedger(Run(START, before), events[|events| - 1], id);
    }
  }

  lemma StartLedger(id: StreamId)
    ensures Ledger(START, id)
  {
  }

  lemma AccountsOpened(s: State)
    requires Accounts(s)
    ensures TasksOpened(s)
  {
  }

  // ---- who can miss frames ----

  // A live, unclosed stream that the loop has forgotten was opened after the id had been
  // opened and closed before.
  lemma ForgottenIsLate(s: State, i: nat)
    requires i < |s.tasks| && Ledger(s, s.tasks[i].id) && StreamsOk(s) && TasksOpened(s)
    requires s.open && Live(s.tasks[i]) && NotClosed(s.history, s.tasks[i]) && !HasSender(s, i)
    ensures Late(s, i)
  {
    hide Pending, DoneFrom;
    var id := s.tasks[i].id;
    var d := LastExists(s.tasks, id, i);
    if d != i {
      NotLateLater(s, i, d);
    }
  }

  lemma NotLateLater(s: State, i: nat, d: nat)
    requires i < |s.tasks| && d < |s.tasks| && s.tasks[d].id == s.tasks[i].id && TasksOpened(s)
    requires NotClosed(s.history, s.tasks[i])
    ensures Late(s, d) ==> Late(s, i)
  {
    var h, id := s.history, s.tasks[i].id;
    assert h[s.tasks[i].since - 1] == Open(id);
  }

  // The id is opened, closed, opened again, never closed after that, and sent data.
  predicate ReopenedAt(h: seq<Frame>, id: StreamId, i: int, j: int, k: int, l: int) {
    && 0 <= i < j < k < l < |h| && h[i] == Open(id) && h[j] == Close(id) && h[k] == Open(id)
    && h[l].Data? && h[l].id == id && forall m :: k < m < |h| ==> h[m] != Close(id)
  }

  ghost predicate Reopened(h: seq<Frame>, id: StreamId) {
    exists i, j, k, l :: ReopenedAt(h, id, i, j, k, l)
  }

  // Every live, unclosed stream of the id has every frame for it, taken or waiting.
  predicate NoneMissed(s: State, id: StreamId) {
    forall i :: 0 <= i < |s.tasks| && s.tasks[i].id == id && Live(s.tasks[i]) && NotClosed(s.history, s.tasks[i]) ==>
      s.tasks[i].since <= |s.history| && s.tasks[i].consumed + s.tasks[i].inbox == Due(s.history, s.tasks[i])
  }

  lemma {:induction false} SomeFor(h: seq<Frame>, id: StreamId) returns (l: nat)
    requires ForId(h, id) != []
    ensures l < |h| && IsFor(h[l], id)
    decreases |h|
  {
    l := |h| - 1;
    if !IsFor(h[l], id) {
      l := SomeFor(h[..l], id);
    }
  }

  lemma NothingMissed(events: seq<Event>, id: StreamId)
    requires Run(START, events).open && (id == "" || !Reopened(Run(START, events).history, id))
    ensures NoneMissed(Run(START, events), id)
  {
    hide Run, Ledger, Late, Due, Speaks, Accounts, LogOk, Reopened, NotClosed;
    RunKeeps(events);
    RunAccounts(events);
    var s := Run(START, events);
    AccountsOpened(s);
    forall i | 0 <= i < |s.tasks| && s.tasks[i].id == id && Live(s.tasks[i]) && NotClosed(s.history, s.tasks[i])
      ensures s.tasks[i].since <= |s.history| && s.tasks[i].consumed + s.tasks[i].inbox == Due(s.history, s.tasks[i])
    {
      assert TaskOk(s, i);
      if !HasSender(s, i) {
        RunLedger(events, id);
        ForgottenIsLate(s, i);
        LateHasNone(s, i);
      }
    }
  }

  lemma LateHasNone(s: State, i: nat)
    requires i < |s.tasks| && TasksOpened(s) && Late(s, i) && NotClosed(s.history, s.tasks[i])
    ensures Due(s.history, s.tasks[i]) == [] || Reopened(s.history, s.tasks[i].id)
  {
    var h, t := s.history, s.tasks[i];
    if Due(h, t) != [] {
      var a, b :| 0 <= a < b < t.since - 1 && b < |h| && h[a] == Open(t.id) && h[b] == Close(t.id);
      var l := SomeFor(h[t.since..], t.id);
      assert h[t.since + l] == h[t.since..][l];
      assert ReopenedAt(h, t.id, a, b, t.since - 1, t.since + l);
    }
  }
}
