/**
 Stream ids: how often each was opened, what the cloud receives for it, and exactly when that
 is one conversation.
 */
module TunnelIds {
  import opened Options
  import opened Tunnel
  import opened TunnelSafety
  import opened TunnelRuns

  // ---- counting ----

  function Opens(history: seq<Frame>, id: StreamId): nat
    decreases |history|
  {
    if history == [] then 0
    else Opens(history[..|history| - 1], id) + if history[|history| - 1] == Open(id) then 1 else 0
  }

  function TaskCount(tasks: seq<Task>, id: StreamId): nat
    decreases |tasks|
  {
    if tasks == [] then 0 else TaskCount(tasks[..|tasks| - 1], id) + if tasks[|tasks| - 1].id == id then 1 else 0
  }

  function Refusals(log: seq<Message>, id: StreamId): nat
    decreases |log|
  {
    if log == [] then 0 else Refusals(log[..|log| - 1], id) + if log[|log| - 1] == Refused(id) then 1 else 0
  }

  lemma OpensSnoc(history: seq<Frame>, f: Frame, id: StreamId)
    ensures Opens(history + [f], id) == Opens(history, id) + if f == Open(id) then 1 else 0
  {
    assert (history + [f])[..|history|] == history;
  }

  lemma TaskCountSnoc(tasks: seq<Task>, t: Task, id: StreamId)
    ensures TaskCount(tasks + [t], id) == TaskCount(tasks, id) + if t.id == id then 1 else 0
  {
    assert (tasks + [t])[..|tasks|] == tasks;
  }

  lemma RefusalsSnoc(log: seq<Message>, m: Message, id: StreamId)
    ensures Refusals(log + [m], id) == Refusals(log, id) + if m == Refused(id) then 1 else 0
  {
    assert (log + [m])[..|log|] == log;
  }

  lemma {:induction false} TaskCountSame(a: seq<Task>, b: seq<Task>, id: StreamId)
    requires |a| == |b| && forall i :: 0 <= i < |a| ==> a[i].id == b[i].id
    ensures TaskCount(a, id) == TaskCount(b, id)
    decreases |a|
  {
    if a != [] {
      TaskCountSame(a[..|a| - 1], b[..|b| - 1], id);
    }
  }

  lemma {:induction false} TaskCounted(tasks: seq<Task>, i: nat)
    requires i < |tasks|
    ensures TaskCount(tasks, tasks[i].id) >= 1
    decreases |tasks|
  {
    if i < |tasks| - 1 {
      TaskCounted(tasks[..|tasks| - 1], i);
    }
  }

  lemma {:induction false} TwoCounted(tasks: seq<Task>, i: nat, j: nat)
    requires i < j < |tasks| && tasks[i].id == tasks[j].id
    ensures TaskCount(tasks, tasks[i].id) >= 2
    decreases |tasks|
  {
    var fewer := tasks[..|tasks| - 1];
    if j < |tasks| - 1 {
      TwoCounted(fewer, i, j);
    } else {
      TaskCounted(fewer, i);
    }
  }

  lemma {:induction false} SomeTask(tasks: seq<Task>, id: StreamId) returns (i: nat)
    requires TaskCount(tasks, id) >= 1
    ensures i < |tasks| && tasks[i].id == id
    decreases |tasks|
  {
    i := |tasks| - 1;
    if tasks[i].id != id {
      i := SomeTask(tasks[..|tasks| - 1], id);
    }
  }

  lemma {:induction false} TwoTasks(tasks: seq<Task>, id: StreamId) returns (i: nat, j: nat)
    requires TaskCount(tasks, id) >= 2
    ensures i < j < |tasks| && tasks[i].id == tasks[j].id == id
    decreases |tasks|
  {
    j := |tasks| - 1;
    if tasks[j].id == id {
      i := SomeTask(tasks[..j], id);
    } else {
      i, j := TwoTasks(tasks[..j], id);
    }
  }

  lemma {:induction false} RefusalCounted(log: seq<Message>, k: nat, id: StreamId)
    requires k < |log| && log[k] == Refused(id)
    ensures Refusals(log, id) >= 1
    decreases |log|
  {
    if k < |log| - 1 {
      RefusalCounted(log[..|log| - 1], k, id);
    }
  }

  // ---- every open is answered ----

  // A message comes from the task of the stream it is for; only a named stream is refused.
  predicate Addressed(m: Message, tasks: seq<Task>) {
    match m
    case Accept(k, to) => k < |tasks| && tasks[k].id == to
    case Chunk(k, to, _) => k < |tasks| && tasks[k].id == to
    case Closed(k, to, _) => k < |tasks| && tasks[k].id == to
    case Refused(to) => to != ""
    case _ => true
  }

  predicate TasksOpened(s: State) {
    forall i :: 0 <= i < |s.tasks| ==>
      s.tasks[i].id != "" && 1 <= s.tasks[i].since <= |s.history|
      && s.history[s.tasks[i].since - 1] == Open(s.tasks[i].id)
  }

  predicate AllAddressed(s: State) {
    forall k :: 0 <= k < |s.log| ==> Addressed(s.log[k], s.tasks)
  }

  // Each open of the id made a task or was refused, the first one not.
  predicate Answered(s: State, id: StreamId) {
    && Opens(s.history, id) == TaskCount(s.tasks, id) + Refusals(s.log, id)
    && (Refusals(s.log, id) > 0 ==> TaskCount(s.tasks, id) > 0)
  }

  ghost predicate Accounts(s: State) {
    TasksOpened(s) && AllAddressed(s) && forall id :: id != "" ==> Answered(s, id)
  }

  // A step that opens nothing and refuses nothing.
  predicate SameStreams(s: State, u: State) {
    && |u.tasks| == |s.tasks|
    && (u.history == s.history
        || (|u.history| == |s.history| + 1 && u.history[..|s.history|] == s.history
            && NamesNothing(u.history[|s.history|])))
    && (forall i :: 0 <= i < |s.tasks| ==> u.tasks[i].id == s.tasks[i].id && u.tasks[i].since == s.tasks[i].since)
    && (u.log == s.log
        || (|u.log| == |s.log| + 1 && u.log[..|s.log|] == s.log && Addressed(u.log[|s.log|], s.tasks)
            && !u.log[|s.log|].Refused?))
  }

  predicate NamesNothing(f: Frame) {
    !f.Open? || f.id == ""
  }

  lemma SameAnswered(s: State, u: State, id: StreamId)
    requires SameStreams(s, u) && id != "" && Answered(s, id)
    ensures Answered(u, id)
  {
    hide Opens, Refusals, TaskCount, Addressed;
    TaskCountSame(s.tasks, u.tasks, id);
    if u.history != s.history {
      OpensSnoc(s.history, u.history[|s.history|], id);
      assert u.history == s.history + [u.history[|s.history|]];
    }
    if u.log != s.log {
      RefusalsSnoc(s.log, u.log[|s.log|], id);
      assert u.log == s.log + [u.log[|s.log|]];
    }
  }

  lemma SameStreamsKeeps(s: State, u: State)
    requires Accounts(s) && SameStreams(s, u)
    ensures Accounts(u)
  {
    hide Answered;
    forall id | id != ""
      ensures Answered(u, id)
    {
      SameAnswered(s, u, id);
    }
    assert forall i :: 0 <= i < |s.history| ==> u.history[i] == s.history[i] by {
      assert forall i :: 0 <= i < |s.history| ==> u.history[i] == u.history[..|s.history|][i];
    }
    assert forall k :: 0 <= k < |s.log| ==> u.log[k] == s.log[k] by {
      assert forall k :: 0 <= k < |s.log| ==> u.log[k] == u.log[..|s.log|][k];
    }
  }

  lemma EndsSame(s: State, i: nat, u: Task, failed: bool)
    requires i < |s.tasks| && u.id == s.tasks[i].id && u.since == s.tasks[i].since
    ensures SameStreams(s, Ends(s, i, u, failed))
  {
  }

  lemma SameButTask(s: State, i: nat, u: Task)
    requires i < |s.tasks|
    ensures u.id == s.tasks[i].id && u.since == s.tasks[i].since ==> SameStreams(s, s.(tasks := s.tasks[i := u]))
  {
  }

  lemma TakesSame(s: State, i: nat, writes: bool)
    requires i < |s.tasks| && s.tasks[i].inbox != []
    ensures SameStreams(s, Takes(s, i, writes))
  {
    hide Ends, SameStreams;
    var t := s.tasks[i];
    EndsSame(s, i, t.(consumed := t.consumed + [t.inbox[0]], inbox := t.inbox[1..]), true);
    EndsSame(s, i, t.(consumed := t.consumed + [t.inbox[0]], inbox := t.inbox[1..]), false);
    SameButTask(s, i, Takes(s, i, writes).tasks[i]);
  }

  lemma TaskStepSame(s: State, i: nat, act: Act)
    requires i < |s.tasks|
    ensures SameStreams(s, TaskStep(s, i, act))
  {
    hide Ends, Takes;
    var t := s.tasks[i];
    EndsSame(s, i, t, true);
    EndsSame(s, i, t, false);
    if t.phase == Running && act.Receive? && t.inbox != [] {
      TakesSame(s, i, act.writes);
    }
  }

  lemma OpenAnswered(s: State, id: StreamId)
    requires Inv(s) && Accounts(s) && id != ""
    ensures Accounts(Handle(s, Open(id)))
  {
    hide Opens, Refusals, TaskCount, LogOk, TaskOk;
    var u := Handle(s, Open(id));
    forall other | other != ""
      ensures Answered(u, other)
    {
      assert Answered(s, other);
      OpensSnoc(s.history, Open(id), other);
      if id in s.streams {
        RefusalsSnoc(s.log, Refused(id), other);
        TaskCounted(s.tasks, s.streams[id]);
      } else {
        TaskCountSnoc(s.tasks, u.tasks[|s.tasks|], other);
      }
    }
    assert forall k :: 0 <= k < |s.log| ==> Addressed(s.log[k], u.tasks);
  }

  lemma AccountsKept(s: State, e: Event)
    requires Inv(s) && Accounts(s)
    ensures Accounts(Step(s, e))
  {
    hide Inv, Accounts, TaskStep;
    if e.Incoming? && s.open && e.frame.Open? && e.frame.id != "" {
      OpenAnswered(s, e.frame.id);
    } else {
      if e.Acts? && e.task < |s.tasks| {
        TaskStepSame(s, e.task, e.act);
      }
      SameStreamsKeeps(s, Step(s, e));
    }
  }

  // In every run every named open made exactly one task or one refusal.
  lemma {:induction false} RunAccounts(events: seq<Event>)
    ensures Accounts(Run(START, events))
    decreases |events|
  {
    hide Inv, Step, Accounts;
    if events == [] {
      StartAccounts();
    } else {
      RunKeeps(events[..|events| - 1]);
      RunAccounts(events[..|events| - 1]);
      AccountsKept(Run(START, events[..|events| - 1]), events[|events| - 1]);
    }
  }

  lemma StartAccounts()
    ensures Accounts(START)
  {
  }

  // ---- one id ----

  predicate IsTo(m: Message, id: StreamId) {
    (m.Accept? || m.Chunk? || IsClose(m)) && m.to == id
  }

  // What the cloud receives for a stream id.
  function ById(log: seq<Message>, id: StreamId): seq<Message>
    decreases |log|
  {
    if log == [] then []
    else ById(log[..|log| - 1], id) + if IsTo(log[|log| - 1], id) then [log[|log| - 1]] else []
  }

  lemma ByIdSnoc(log: seq<Message>, m: Message, id: StreamId)
    ensures ById(log + [m], id) == ById(log, id) + if IsTo(m, id) then [m] else []
  {
    assert (log + [m])[..|log|] == log;
  }

  // An id opened at most once has one task at most, and was never refused.
  lemma OpenedOnce(s: State, id: StreamId)
    requires Accounts(s) && (id == "" || Opens(s.history, id) <= 1)
    ensures forall k :: 0 <= k < |s.log| ==> s.log[k] != Refused(id)
    ensures forall i, j :: 0 <= i < j < |s.tasks| ==> !(s.tasks[i].id == s.tasks[j].id == id)
  {
    hide Opens, Refusals, TaskCount;
    if id != "" {
      assert Answered(s, id);
      forall k | 0 <= k < |s.log|
        ensures s.log[k] != Refused(id)
      {
        if s.log[k] == Refused(id) {
          RefusalCounted(s.log, k, id);
        }
      }
      forall i, j | 0 <= i < j < |s.tasks|
        ensures !(s.tasks[i].id == s.tasks[j].id == id)
      {
        if s.tasks[i].id == s.tasks[j].id == id {
          TwoCounted(s.tasks, i, j);
        }
      }
    } else {
      assert forall k :: 0 <= k < |s.log| ==> Addressed(s.log[k], s.tasks);
    }
  }

  lemma {:induction false} ByIdIsTask(log: seq<Message>, tasks: seq<Task>, i: nat)
    requires i < |tasks| && forall j :: 0 <= j < |tasks| && j != i ==> tasks[j].id != tasks[i].id
    requires forall k :: 0 <= k < |log| ==> Addressed(log[k], tasks) && log[k] != Refused(tasks[i].id)
    ensures ById(log, tasks[i].id) == OfTask(log, i)
    decreases |log|
  {
    if log != [] {
      var m := log[|log| - 1];
      assert Addressed(m, tasks) && m != Refused(tasks[i].id);
      ByIdIsTask(log[..|log| - 1], tasks, i);
    }
  }

  lemma {:induction false} ByIdNone(log: seq<Message>, tasks: seq<Task>, id: StreamId)
    requires forall j :: 0 <= j < |tasks| ==> tasks[j].id != id
    requires forall k :: 0 <= k < |log| ==> Addressed(log[k], tasks) && log[k] != Refused(id)
    ensures ById(log, id) == []
    decreases |log|
  {
    if log != [] {
      assert Addressed(log[|log| - 1], tasks) && log[|log| - 1] != Refused(id);
      ByIdNone(log[..|log| - 1], tasks, id);
    }
  }

  lemma SentAddressed(s: State, id: StreamId)
    requires Inv(s) && Accounts(s) && forall k :: 0 <= k < |s.log| ==> s.log[k] != Refused(id)
    ensures forall k :: 0 <= k < |s.sent| ==> Addressed(s.sent[k], s.tasks) && s.sent[k] != Refused(id)
  {
    hide StreamsOk, TaskOk, OfTask, Addressed, Answered;
    assert forall k :: 0 <= k < |s.sent| ==> s.sent[k] == s.log[k];
  }

  // For an id that is opened at most once, whatever becomes of the others: the frames the
  // cloud receives are a prefix of `close` or of `accept data* close`, carry the local
  // messages in order, and the messages written locally are that id's data in order.
  lemma StreamConversation(events: seq<Event>, id: StreamId)
    requires id == "" || Opens(Run(START, events).history, id) <= 1
    ensures Conversation(ById(Run(START, events).sent, id))
    ensures var s := Run(START, events);
            forall i :: 0 <= i < |s.tasks| && s.tasks[i].id == id ==> (
              && 1 <= s.tasks[i].since <= |s.history| && s.history[s.tasks[i].since - 1] == Open(id)
              && Bodies(ById(s.sent, id)) <= s.tasks[i].fetched
              && s.tasks[i].written <= Known(ForId(s.history[s.tasks[i].since..], id)))
  {
    hide Run, Inv, OfTask, ById, Conversation, Bodies, Addressed, ForId, Known, Opens, Answered;
    var s := Run(START, events);
    RunKeeps(events);
    RunAccounts(events);
    OpenedOnce(s, id);
    SentAddressed(s, id);
    if i :| 0 <= i < |s.tasks| && s.tasks[i].id == id {
      ByIdIsTask(s.sent, s.tasks, i);
      TaskConversation(events, i);
    } else {
      ByIdNone(s.sent, s.tasks, id);
      Silence();
    }
  }

  // ---- the converse ----

  function Feed(frames: seq<Frame>): (events: seq<Event>)
    ensures |events| == |frames| && forall i :: 0 <= i < |events| ==> events[i] == Incoming(frames[i])
  {
    seq(|frames|, i requires 0 <= i < |frames| => Incoming(frames[i]))
  }

  // The loop taking in a whole history before any task moves.
  lemma {:induction false} FedState(h: seq<Frame>)
    ensures var s := Run(START, Feed(h));
            && s.open && s.history == h && s.sent == []
            && forall i :: 0 <= i < |s.tasks| ==> s.tasks[i].phase == Connecting
    decreases |h|
  {
    hide Run;
    if h == [] {
      RunEmpty();
      assert Feed(h) == [];
    } else {
      var before, f := h[..|h| - 1], h[|h| - 1];
      FedState(before);
      RunSnoc(Feed(before), Incoming(f));
      assert Feed(h) == Feed(before) + [Incoming(f)] && h == before + [f];
    }
  }

  // An accept that is not the first frame.
  lemma LateAccept(frames: seq<Message>, m: Message)
    requires frames != [] && m.Accept?
    ensures !Conversation(frames + [m])
  {
  }

  lemma {:induction false} RefusedIsTo(log: seq<Message>, id: StreamId)
    requires Refusals(log, id) > 0
    ensures ById(log, id) != []
    decreases |log|
  {
    if log[|log| - 1] != Refused(id) {
      RefusedIsTo(log[..|log| - 1], id);
    }
  }

  lemma Accepting(events: seq<Event>, i: nat)
    requires var s := Run(START, events); i < |s.tasks| && s.tasks[i].phase == Connecting
    ensures var s, u := Run(START, events), Run(START, events + [Acts(i, Connect(true))]);
            && u.log == s.log + [Accept(i, s.tasks[i].id)] && u.history == s.history && u.open == s.open
            && u.tasks == s.tasks[i := s.tasks[i].(phase := Running)]
            && ById(u.log, s.tasks[i].id) == ById(s.log, s.tasks[i].id) + [Accept(i, s.tasks[i].id)]
  {
    hide Run, ById;
    RunSnoc(events, Acts(i, Connect(true)));
    ByIdSnoc(Run(START, events).log, Accept(i, Run(START, events).tasks[i].id), Run(START, events).tasks[i].id);
  }

  // A history that opens an id twice has a run in which the cloud receives for it a frame
  // after a close, or a second accept.
  lemma ReuseBreaksConversation(h: seq<Frame>, id: StreamId) returns (events: seq<Event>)
    requires id != "" && Opens(h, id) >= 2
    ensures Run(START, events).history == h && !Conversation(ById(Run(START, events).sent, id))
  {
    hide Run, Opens, Refusals, TaskCount, ById, Conversation, Inv;
    events := Feed(h);
    FedState(h);
    RunAccounts(events);
    var s := Run(START, events);
    assert Answered(s, id);
    if Refusals(s.log, id) > 0 {
      var i := SomeTask(s.tasks, id);
      RefusedIsTo(s.log, id);
      Accepting(events, i);
      events := events + [Acts(i, Connect(true))];
      LateAccept(ById(s.log, id), Accept(i, id));
    } else {
      var i, j := TwoTasks(s.tasks, id);
      Accepting(events, i);
      events := events + [Acts(i, Connect(true))];
      Accepting(events, j);
      LateAccept(ById(s.log, id) + [Accept(i, id)], Accept(j, id));
      events := events + [Acts(j, Connect(true))];
    }
    RunKeeps(events);
    var u := Run(START, events);
    assert LogOk(u) by { InvLog(u); }
    events := SendAll(events, |u.outbound|);
  }

  lemma InvLog(s: State)
    requires Inv(s)
    ensures LogOk(s)
  {
  }

  // Whatever the tasks do and however the steps interleave, a history of frames leads to one
  // conversation for an id if and only if it opens the id at most once.
  lemma ConversationExactly(h: seq<Frame>, id: StreamId)
    ensures (forall events :: Run(START, events).history == h ==> Conversation(ById(Run(START, events).sent, id)))
            <==> id == "" || Opens(h, id) <= 1
  {
    hide Run, Opens, ById, Conversation;
    if id == "" || Opens(h, id) <= 1 {
      forall events | Run(START, events).history == h
        ensures Conversation(ById(Run(START, events).sent, id))
      {
        StreamConversation(events, id);
      }
    } else {
      var events := ReuseBreaksConversation(h, id);
    }
  }
}
