/** What every interleaving of the loop, the tasks and the channels keeps. */
module TunnelSafety {
  import opened Options
  import opened Tunnel

  // ---- what a task says to the cloud ----

  predicate From(m: Message, i: nat) {
    match m
    case Accept(k, _) => k == i
    case Chunk(k, _, _) => k == i
    case Closed(k, _, _) => k == i
    case _ => false
  }

  // The messages of one task, in order.
  function OfTask(log: seq<Message>, i: nat): seq<Message>
    decreases |log|
  {
    if log == [] then []
    else OfTask(log[..|log| - 1], i) + if From(log[|log| - 1], i) then [log[|log| - 1]] else []
  }

  function Chunks(i: nat, id: StreamId, bodies: seq<Payload>): (c: seq<Message>)
    ensures |c| == |bodies| && forall k :: 0 <= k < |c| ==> c[k] == Chunk(i, id, bodies[k])
  {
    seq(|bodies|, k requires 0 <= k < |bodies| => Chunk(i, id, bodies[k]))
  }

  // Before the local socket connects, nothing. Then an accept and the local messages. At the
  // end a close: alone if it never connected.
  predicate Speaks(frames: seq<Message>, i: nat, t: Task) {
    var talk := [Accept(i, t.id)] + Chunks(i, t.id, t.fetched);
    match t.phase
    case Connecting => frames == [] && t.fetched == []
    case Running => frames == talk
    case _ => exists failed ::
      (frames == [Closed(i, t.id, failed)] && t.fetched == []) || frames == talk + [Closed(i, t.id, failed)]
  }

  // ---- what reaches a task ----

  predicate IsFor(frame: Frame, id: StreamId) {
    (frame.Data? || frame.Close?) && frame.id == id
  }

  function ForId(history: seq<Frame>, id: StreamId): seq<Frame>
    decreases |history|
  {
    if history == [] then []
    else
      var last := history[|history| - 1];
      ForId(history[..|history| - 1], id) + if IsFor(last, id) then [last] else []
  }

  // The payloads of the data frames of a known type.
  function Known(frames: seq<Frame>): seq<Payload>
    decreases |frames|
  {
    if frames == [] then []
    else
      var last := frames[|frames| - 1];
      Known(frames[..|frames| - 1]) + if last.Data? && last.payload.Some? then [last.payload.value] else []
  }

  // The frames of a task's stream since it was opened.
  function Due(history: seq<Frame>, t: Task): seq<Frame>
    requires t.since <= |history|
  {
    ForId(history[t.since..], t.id)
  }

  // What was delivered is a prefix of what is due, all of it while the loop keeps the
  // stream; what was written is what was taken, in order, but for a write that failed.
  predicate Hears(history: seq<Frame>, t: Task, kept: bool) {
    && t.since <= |history|
    && t.consumed + t.inbox <= Due(history, t)
    && (kept ==> t.consumed + t.inbox == Due(history, t))
    && (t.phase == Connecting ==> t.consumed == [])
    && t.written <= Known(t.consumed)
    && (t.phase == Connecting || t.phase == Running ==> t.written == Known(t.consumed))
  }

  predicate TaskOk(s: State, i: nat)
    requires i < |s.tasks|
  {
    Speaks(OfTask(s.log, i), i, s.tasks[i]) && Hears(s.history, s.tasks[i], HasSender(s, i))
  }

  predicate StreamsOk(s: State) {
    forall id :: id in s.streams ==> s.streams[id] < |s.tasks| && s.tasks[s.streams[id]].id == id && id != ""
  }

  ghost predicate LogOk(s: State) {
    && s.sent <= s.log && (s.open ==> s.sent + s.outbound == s.log)
    && forall i: nat :: |s.tasks| <= i ==> OfTask(s.log, i) == []
  }

  ghost predicate Inv(s: State) {
    StreamsOk(s) && LogOk(s) && forall i :: 0 <= i < |s.tasks| ==> TaskOk(s, i)
  }

  // ---- sequences ----

  lemma OfTaskSnoc(log: seq<Message>, m: Message, i: nat)
    ensures OfTask(log + [m], i) == OfTask(log, i) + if From(m, i) then [m] else []
  {
    assert (log + [m])[..|log|] == log;
  }

  lemma KnownSnoc(frames: seq<Frame>, f: Frame)
    ensures Known(frames + [f]) == Known(frames) + if f.Data? && f.payload.Some? then [f.payload.value] else []
  {
    assert (frames + [f])[..|frames|] == frames;
  }

  lemma DueSnoc(history: seq<Frame>, f: Frame, t: Task)
    requires t.since <= |history|
    ensures Due(history + [f], t) == Due(history, t) + if IsFor(f, t.id) then [f] else []
  {
    var tail := history[t.since..];
    assert (history + [f])[t.since..] == tail + [f];
    assert (tail + [f])[..|tail|] == tail;
  }

  lemma {:induction false} KnownPrefix(a: seq<Frame>, b: seq<Frame>)
    requires a <= b
    ensures Known(a) <= Known(b)
    decreases |b|
  {
    if a != b {
      assert b == b[..|b| - 1] + [b[|b| - 1]];
      KnownPrefix(a, b[..|b| - 1]);
      KnownSnoc(b[..|b| - 1], b[|b| - 1]);
    }
  }

  // ---- a step of one task ----

  // Two states that differ in task i, and in messages of task i, only.
  ghost predicate OnlyTask(s: State, u: State, i: nat)
    requires i < |s.tasks|
  {
    && |u.tasks| == |s.tasks| && u.tasks == s.tasks[i := u.tasks[i]] && u.tasks[i].id == s.tasks[i].id
    && u.history == s.history && u.streams == s.streams && u.open == s.open && u.sent == s.sent
    && ((u.log == s.log && u.outbound == s.outbound)
        || (exists m ::
              From(m, i) && u.log == s.log + [m] && u.outbound == if s.open then s.outbound + [m] else s.outbound))
  }

  lemma OtherTasks(s: State, u: State, i: nat)
    requires Inv(s) && i < |s.tasks| && OnlyTask(s, u, i) && TaskOk(u, i)
    ensures Inv(u)
  {
    hide Speaks, Hears, OfTask;
    forall j: nat | j != i
      ensures OfTask(u.log, j) == OfTask(s.log, j)
    {
      if u.log != s.log {
        var m :| From(m, i) && u.log == s.log + [m];
        OfTaskSnoc(s.log, m, j);
        assert !From(m, j);
      }
    }
    forall j | 0 <= j < |u.tasks|
      ensures TaskOk(u, j)
    {
      assert j != i ==> TaskOk(s, j) && HasSender(u, j) == HasSender(s, j);
    }
  }

  lemma SpeaksEnd(log: seq<Message>, i: nat, t: Task, failed: bool)
    requires Speaks(OfTask(log, i), i, t) && (t.phase == Connecting || t.phase == Running)
    ensures Speaks(OfTask(log + [Closed(i, t.id, failed)], i), i, t.(phase := Ended))
  {
    hide OfTask;
    OfTaskSnoc(log, Closed(i, t.id, failed), i);
    assert [] + [Closed(i, t.id, failed)] == [Closed(i, t.id, failed)];
  }

  // Only the id, the phase and the local messages matter to what a task says.
  lemma SpeaksSame(frames: seq<Message>, i: nat, t: Task, u: Task)
    requires Speaks(frames, i, t) && u.id == t.id && u.phase == t.phase && u.fetched == t.fetched
    ensures Speaks(frames, i, u)
  {
  }

  lemma EndsKeeps(s: State, i: nat, u: Task, failed: bool)
    requires Inv(s) && i < |s.tasks| && (u.phase == Connecting || u.phase == Running)
    requires u.id == s.tasks[i].id && u.phase == s.tasks[i].phase && u.fetched == s.tasks[i].fetched
    requires Hears(s.history, u.(phase := Ended), HasSender(s, i))
    ensures Inv(Ends(s, i, u, failed))
  {
    hide Speaks, Hears, OfTask, Inv;
    InvTask(s, i);
    SpeaksSame(OfTask(s.log, i), i, s.tasks[i], u);
    SpeaksEnd(s.log, i, u, failed);
    var next := Ends(s, i, u, failed);
    assert From(Closed(i, u.id, failed), i);
    OtherTasks(s, next, i);
  }

  lemma InvTask(s: State, i: nat)
    requires Inv(s) && i < |s.tasks|
    ensures TaskOk(s, i)
  {
  }

  lemma EndedHears(history: seq<Frame>, t: Task, kept: bool)
    requires Hears(history, t, kept)
    ensures Hears(history, t.(phase := Ended), kept) && Hears(history, t.(phase := Done), kept)
  {
  }

  // Taking a frame: it is written if its type is known and the write succeeds.
  lemma TakesHears(history: seq<Frame>, t: Task, kept: bool)
    requires Hears(history, t, kept) && t.phase == Running && t.inbox != []
    ensures var u := t.(consumed := t.consumed + [t.inbox[0]], inbox := t.inbox[1..]);
            && Hears(history, u.(phase := Ended), kept)
            && (t.inbox[0].Data? && t.inbox[0].payload.Some? ==>
                  Hears(history, u.(written := t.written + [t.inbox[0].payload.value]), kept))
            && (t.inbox[0].Data? && t.inbox[0].payload.None? ==> Hears(history, u, kept))
  {
    hide ForId, Known;
    KnownSnoc(t.consumed, t.inbox[0]);
    assert t.consumed + [t.inbox[0]] + t.inbox[1..] == t.consumed + t.inbox;
  }

  lemma SameLog(s: State, u: State, i: nat)
    requires Inv(s) && i < |s.tasks| && |u.tasks| == |s.tasks| && u.tasks == s.tasks[i := u.tasks[i]]
    requires u == s.(tasks := u.tasks) || u == s.(tasks := u.tasks, finished := u.finished)
    requires u.tasks[i].id == s.tasks[i].id && TaskOk(u, i)
    ensures Inv(u)
  {
    hide TaskOk, Inv;
    OtherTasks(s, u, i);
  }

  lemma TakesKeeps(s: State, i: nat, writes: bool)
    requires Inv(s) && i < |s.tasks| && s.tasks[i].phase == Running && s.tasks[i].inbox != []
    ensures Inv(Takes(s, i, writes))
  {
    hide Speaks, Hears, OfTask, Inv;
    InvTask(s, i);
    var t := s.tasks[i];
    TakesHears(s.history, t, HasSender(s, i));
    var u := t.(consumed := t.consumed + [t.inbox[0]], inbox := t.inbox[1..]);
    match t.inbox[0]
    case Data(_, Some(p)) =>
      if writes {
        SpeaksSame(OfTask(s.log, i), i, t, u.(written := t.written + [p]));
        SameLog(s, Takes(s, i, writes), i);
      } else {
        EndsKeeps(s, i, u, true);
      }
    case Data(_, None) =>
      SpeaksSame(OfTask(s.log, i), i, t, u);
      SameLog(s, Takes(s, i, writes), i);
    case _ => EndsKeeps(s, i, u, false);
  }

  lemma AcceptKeeps(s: State, i: nat)
    requires Inv(s) && i < |s.tasks| && s.tasks[i].phase == Connecting
    ensures Inv(Push(s.(tasks := s.tasks[i := s.tasks[i].(phase := Running)]), Accept(i, s.tasks[i].id)))
  {
    hide OfTask, Inv, ForId, Known;
    InvTask(s, i);
    var t := s.tasks[i];
    OfTaskSnoc(s.log, Accept(i, t.id), i);
    assert From(Accept(i, t.id), i);
    assert [] + [Accept(i, t.id)] == [Accept(i, t.id)] + Chunks(i, t.id, []);
    OtherTasks(s, Push(s.(tasks := s.tasks[i := t.(phase := Running)]), Accept(i, t.id)), i);
  }

  lemma ChunkKeeps(s: State, i: nat, body: Payload)
    requires Inv(s) && i < |s.tasks| && s.tasks[i].phase == Running
    ensures var t := s.tasks[i];
            Inv(Push(s.(tasks := s.tasks[i := t.(fetched := t.fetched + [body])]), Chunk(i, t.id, body)))
  {
    hide OfTask, Inv, ForId, Known;
    InvTask(s, i);
    var t := s.tasks[i];
    OfTaskSnoc(s.log, Chunk(i, t.id, body), i);
    assert From(Chunk(i, t.id, body), i);
    assert Chunks(i, t.id, t.fetched + [body]) == Chunks(i, t.id, t.fetched) + [Chunk(i, t.id, body)];
    assert [Accept(i, t.id)] + Chunks(i, t.id, t.fetched + [body])
        == [Accept(i, t.id)] + Chunks(i, t.id, t.fetched) + [Chunk(i, t.id, body)];
    OtherTasks(s, Push(s.(tasks := s.tasks[i := t.(fetched := t.fetched + [body])]), Chunk(i, t.id, body)), i);
  }

  lemma DoneSpeaks(frames: seq<Message>, i: nat, t: Task)
    requires Speaks(frames, i, t) && t.phase == Ended
    ensures Speaks(frames, i, t.(phase := Done))
  {
    var failed :| (frames == [Closed(i, t.id, failed)] && t.fetched == [])
                  || frames == [Accept(i, t.id)] + Chunks(i, t.id, t.fetched) + [Closed(i, t.id, failed)];
  }

  lemma FinishKeeps(s: State, i: nat)
    requires Inv(s) && i < |s.tasks| && s.tasks[i].phase == Ended
    ensures Inv(TaskStep(s, i, Finish))
  {
    hide Speaks, Hears, OfTask, Inv;
    InvTask(s, i);
    DoneSpeaks(OfTask(s.log, i), i, s.tasks[i]);
    EndedHears(s.history, s.tasks[i], HasSender(s, i));
    SameLog(s, TaskStep(s, i, Finish), i);
  }

  lemma TaskStepKeeps(s: State, i: nat, act: Act)
    requires Inv(s) && i < |s.tasks|
    ensures Inv(TaskStep(s, i, act))
  {
    hide Inv, TaskOk, Speaks, Hears, Ends, Takes;
    InvTask(s, i);
    var t := s.tasks[i];
    assert Hears(s.history, t, HasSender(s, i)) by { TaskHears(s, i); }
    EndedHears(s.history, t, HasSender(s, i));
    match (t.phase, act)
    case (Connecting, Connect(ok)) => if ok { AcceptKeeps(s, i); } else { EndsKeeps(s, i, t, true); }
    case (Running, LocalMessage(body)) => ChunkKeeps(s, i, body);
    case (Running, LocalFailure) => EndsKeeps(s, i, t, true);
    case (Running, LocalEnd) => EndsKeeps(s, i, t, false);
    case (Running, Receive(writes)) => if t.inbox != [] { TakesKeeps(s, i, writes); }
    case (Running, InboxGone) => if t.inbox == [] && !HasSender(s, i) { EndsKeeps(s, i, t, false); }
    case (Ended, Finish) => FinishKeeps(s, i);
    case _ =>
  }

  lemma TaskHears(s: State, i: nat)
    requires i < |s.tasks| && TaskOk(s, i)
    ensures Hears(s.history, s.tasks[i], HasSender(s, i))
  {
  }

  // ---- a step of the loop ----

  // Losing its sender only weakens what a task is due.
  lemma SenderLost(history: seq<Frame>, t: Task, kept: bool)
    requires Hears(history, t, kept)
    ensures Hears(history, t, false)
  {
  }

  // A frame that is not for the stream, or is not delivered to a task the loop has dropped.
  lemma HistoryGrows(history: seq<Frame>, f: Frame, t: Task, kept: bool)
    requires Hears(history, t, kept) && (kept ==> !IsFor(f, t.id))
    ensures Hears(history + [f], t, kept)
  {
    hide ForId, Known, Due;
    DueSnoc(history, f, t);
  }

  lemma Delivered(history: seq<Frame>, f: Frame, t: Task)
    requires Hears(history, t, true) && IsFor(f, t.id)
    ensures Hears(history + [f], t.(inbox := t.inbox + [f]), true)
  {
    hide ForId, Known, Due;
    DueSnoc(history, f, t);
    assert Due(history + [f], t.(inbox := t.inbox + [f])) == Due(history + [f], t) by {
      DueSame(history + [f], t, t.(inbox := t.inbox + [f]));
    }
    assert t.consumed + (t.inbox + [f]) == t.consumed + t.inbox + [f];
  }

  lemma DueSame(history: seq<Frame>, t: Task, u: Task)
    requires t.since <= |history| && u.since == t.since && u.id == t.id
    ensures Due(history, u) == Due(history, t)
  {
  }

  // Messages of no task change nothing that any task says.
  lemma LoopSpeaks(s: State, m: Message)
    requires LogOk(s) && (m.Refused? || m.Reply? || m.Pong?)
    ensures LogOk(Push(s, m)) && forall i: nat :: OfTask(Push(s, m).log, i) == OfTask(s.log, i)
  {
    hide OfTask;
    forall i: nat
      ensures OfTask(s.log + [m], i) == OfTask(s.log, i)
    {
      OfTaskSnoc(s.log, m, i);
    }
  }

  // A frame for no stream that the loop keeps.
  predicate ForNoSender(s: State, f: Frame) {
    forall i :: 0 <= i < |s.tasks| && HasSender(s, i) ==> !IsFor(f, s.tasks[i].id)
  }

  // A state that only adds to the history and loses senders.
  lemma QuietKeeps(s: State, u: State)
    requires Inv(s) && u.tasks == s.tasks && LogOk(u) && StreamsOk(u)
    requires forall i: nat :: OfTask(u.log, i) == OfTask(s.log, i)
    requires u.history == s.history || exists f :: u.history == s.history + [f] && ForNoSender(s, f)
    requires forall i :: 0 <= i < |s.tasks| && HasSender(u, i) ==> HasSender(s, i)
    ensures Inv(u)
  {
    hide Speaks, Hears, OfTask, LogOk, StreamsOk, HasSender;
    forall i | 0 <= i < |u.tasks|
      ensures TaskOk(u, i)
    {
      assert TaskOk(s, i);
      if u.history != s.history {
        var f :| u.history == s.history + [f] && ForNoSender(s, f);
        HistoryGrows(s.history, f, s.tasks[i], HasSender(s, i));
      }
      if !HasSender(u, i) {
        SenderLost(u.history, s.tasks[i], HasSender(s, i));
      }
    }
  }

  lemma DeliverKeeps(s: State, frame: Frame)
    requires Inv(s) && s.open && (frame.Data? || frame.Close?) && frame.id in s.streams
    ensures Inv(Handle(s, frame))
  {
    hide Speaks, Hears, OfTask, LogOk;
    var i := s.streams[frame.id];
    var u := Handle(s, frame);
    assert TaskOk(s, i) && HasSender(s, i);
    Delivered(s.history, frame, s.tasks[i]);
    SenderLost(u.history, u.tasks[i], true);
    SpeaksSame(OfTask(s.log, i), i, s.tasks[i], u.tasks[i]);
    forall j | 0 <= j < |u.tasks| && j != i
      ensures TaskOk(u, j)
    {
      assert TaskOk(s, j);
      HistoryGrows(s.history, frame, s.tasks[j], HasSender(s, j));
    }
    LogSame(s, u);
  }

  lemma LogSame(s: State, u: State)
    requires LogOk(s) && u.log == s.log && u.sent == s.sent && u.outbound == s.outbound && u.open == s.open
    requires |u.tasks| >= |s.tasks|
    ensures LogOk(u)
  {
    hide OfTask;
  }

  lemma OpenKeeps(s: State, id: StreamId)
    requires Inv(s) && s.open && id != "" && id !in s.streams
    ensures Inv(Handle(s, Open(id)))
  {
    hide OfTask, LogOk, Known;
    var u := Handle(s, Open(id));
    var n := |s.tasks|;
    forall j | 0 <= j < n
      ensures TaskOk(u, j)
    {
      assert TaskOk(s, j);
      hide Speaks, Hears;
      HistoryGrows(s.history, Open(id), s.tasks[j], HasSender(s, j));
    }
    assert OfTask(u.log, n) == [] by { NoneYet(s); }
    NewTaskHears(s.history + [Open(id)], u.tasks[n]);
    LogSame(s, u);
  }

  lemma NoneYet(s: State)
    requires LogOk(s)
    ensures OfTask(s.log, |s.tasks|) == []
  {
  }

  lemma NewTaskHears(history: seq<Frame>, t: Task)
    requires t.since == |history| && t.phase == Connecting && t.consumed == t.inbox == [] && t.written == []
    ensures Hears(history, t, true)
  {
    assert history[t.since..] == [];
  }

  lemma HandleKeeps(s: State, frame: Frame)
    requires Inv(s) && s.open
    ensures Inv(Handle(s, frame))
  {
    hide TaskOk, OfTask, LogOk;
    var h := s.(history := s.history + [frame]);
    LogSame(s, h);
    if frame.Open? && frame.id != "" && frame.id !in s.streams {
      OpenKeeps(s, frame.id);
    } else if (frame.Data? || frame.Close?) && frame.id in s.streams {
      DeliverKeeps(s, frame);
    } else {
      LoopSpeaks(h, Pong);
      LoopSpeaks(h, Refused(if frame.Open? then frame.id else ""));
      LogSame(s, Handle(s, Request));
      QuietKeeps(s, Handle(s, frame));
    }
  }

  lemma StepKeeps(s: State, e: Event)
    requires Inv(s)
    ensures Inv(Step(s, e))
  {
    hide OfTask, TaskOk, TaskStep, Handle;
    match e
    case Acts(i, act) => if i < |s.tasks| { TaskStepKeeps(s, i, act); }
    case Incoming(frame) => if s.open { HandleKeeps(s, frame); }
    case Answer =>
      if s.requests > 0 {
        var r := s.(requests := s.requests - 1);
        LogSame(s, r);
        LoopSpeaks(r, Reply);
        QuietKeeps(s, Push(r, Reply));
      }
    case TakeOutbound(ok) =>
      if s.open && s.outbound != [] {
        assert s.sent + [s.outbound[0]] + s.outbound[1..] == s.log;
        QuietKeeps(s, Step(s, e));
      }
    case TakeDone => QuietKeeps(s, Step(s, e));
    case Hangup => QuietKeeps(s, Step(s, e));
  }

  // Over every interleaving from the start.
  lemma {:induction false} RunKeeps(events: seq<Event>)
    ensures Inv(Run(START, events))
    decreases |events|
  {
    hide Inv, Step;
    if events == [] {
      StartHolds();
    } else {
      RunKeeps(events[..|events| - 1]);
      StepKeeps(Run(START, events[..|events| - 1]), events[|events| - 1]);
    }
  }

  lemma StartHolds()
    ensures Inv(START)
  {
  }
}
