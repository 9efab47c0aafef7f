/** Requests and pings over every run, and what each act of a stream task does, message by message. */
module TunnelRequests {
  import opened Options
  import opened Tunnel
  import opened TunnelSafety
  import opened TunnelRuns

  // ---- what one act of a task does ----

  // The local connection was refused, broke, or did not take the data.
  predicate LocallyFails(t: Task, act: Act) {
    || (t.phase == Connecting && act == Connect(false))
    || (t.phase == Running && act == LocalFailure)
    || (t.phase == Running && act == Receive(false) && t.inbox != [] && t.inbox[0].Data? && t.inbox[0].payload.Some?)
  }

  // The local end closed, the cloud closed the stream, or the loop dropped it with nothing left.
  predicate EndsWell(s: State, i: nat, act: Act)
    requires i < |s.tasks|
  {
    var t := s.tasks[i];
    t.phase == Running &&
    (|| act == LocalEnd
     || (act.Receive? && t.inbox != [] && !t.inbox[0].Data?)
     || (act == InboxGone && t.inbox == [] && !(s.open && t.id in s.streams && s.streams[t.id] == i)))
  }

  predicate WritesPayload(t: Task, act: Act) {
    t.phase == Running && act == Receive(true) && t.inbox != [] && t.inbox[0].Data? && t.inbox[0].payload.Some?
  }

  // What the cloud is told of an act, if anything.
  function Said(s: State, i: nat, act: Act): seq<Message>
    requires i < |s.tasks|
  {
    var t := s.tasks[i];
    if t.phase == Connecting && act == Connect(true) then [Accept(i, t.id)]
    else if t.phase == Running && act.LocalMessage? then [Chunk(i, t.id, act.body)]
    else if LocallyFails(t, act) then [Closed(i, t.id, true)]
    else if EndsWell(s, i, act) then [Closed(i, t.id, false)]
    else []
  }

  // All that an act does: what is said, written and told the loop, and the task's new phase.
  predicate Does(s: State, i: nat, act: Act, u: State)
    requires i < |s.tasks|
  {
    var t := s.tasks[i];
    && |u.tasks| == |s.tasks| && u.history == s.history && u.requests == s.requests && u.open == s.open
    && u.streams == s.streams && u.sent == s.sent
    && u.log == s.log + Said(s, i, act) && u.outbound == s.outbound + (if s.open then Said(s, i, act) else [])
    && u.tasks[i].written == t.written + (if WritesPayload(t, act) then [t.inbox[0].payload.value] else [])
    && u.tasks[i].phase == (if t.phase == Ended && act == Finish then Done
                            else if LocallyFails(t, act) || EndsWell(s, i, act) then Ended
                            else if t.phase == Connecting && act == Connect(true) then Running
                            else t.phase)
    && u.finished == s.finished + (if t.phase == Ended && act == Finish && s.open then [t.id] else [])
  }

  lemma EndsDoes(s: State, i: nat, u: Task, failed: bool)
    requires i < |s.tasks|
    ensures var v := Ends(s, i, u, failed);
            && |v.tasks| == |s.tasks| && v.history == s.history && v.requests == s.requests && v.open == s.open
            && v.streams == s.streams && v.sent == s.sent && v.finished == s.finished
            && v.log == s.log + [Closed(i, u.id, failed)]
            && v.outbound == s.outbound + (if s.open then [Closed(i, u.id, failed)] else [])
            && v.tasks[i] == u.(phase := Ended)
  {
  }

  lemma TakesDoes(s: State, i: nat, writes: bool)
    requires i < |s.tasks| && s.tasks[i].phase == Running && s.tasks[i].inbox != []
    ensures Does(s, i, Receive(writes), Takes(s, i, writes))
  {
    hide Ends;
    var t := s.tasks[i];
    var u := t.(consumed := t.consumed + [t.inbox[0]], inbox := t.inbox[1..]);
    EndsDoes(s, i, u, true);
    EndsDoes(s, i, u, false);
  }

  lemma RunningDoes(s: State, i: nat, act: Act)
    requires i < |s.tasks| && s.tasks[i].phase == Running
    ensures Does(s, i, act, TaskStep(s, i, act))
  {
    hide Ends, Takes, Does, Said;
    if act.Receive? && s.tasks[i].inbox != [] {
      TakesDoes(s, i, act.writes);
    } else {
      RunningOther(s, i, act);
    }
  }

  lemma RunningOther(s: State, i: nat, act: Act)
    requires i < |s.tasks| && s.tasks[i].phase == Running && !(act.Receive? && s.tasks[i].inbox != [])
    ensures Does(s, i, act, TaskStep(s, i, act))
  {
    hide Ends, Takes;
    EndsDoes(s, i, s.tasks[i], true);
    EndsDoes(s, i, s.tasks[i], false);
  }

  lemma OtherDoes(s: State, i: nat, act: Act)
    requires i < |s.tasks| && s.tasks[i].phase != Running
    ensures Does(s, i, act, TaskStep(s, i, act))
  {
    hide Ends, Takes;
    EndsDoes(s, i, s.tasks[i], true);
  }

  // In any state, each act of a task does exactly that.
  lemma ActDoes(s: State, i: nat, act: Act)
    requires i < |s.tasks|
    ensures Does(s, i, act, Step(s, Acts(i, act)))
  {
    hide Does, TaskStep;
    if s.tasks[i].phase == Running {
      RunningDoes(s, i, act);
    } else {
      OtherDoes(s, i, act);
    }
  }

  // ---- counting ----

  function Count<T(==)>(s: seq<T>, x: T): nat
    decreases |s|
  {
    if s == [] then 0 else Count(s[..|s| - 1], x) + if s[|s| - 1] == x then 1 else 0
  }

  lemma CountSnoc<T>(s: seq<T>, y: T, x: T)
    ensures Count(s + [y], x) == Count(s, x) + if y == x then 1 else 0
  {
    assert (s + [y])[..|s|] == s;
  }

  // Every request handled is answered or waiting, and every ping is answered.
  predicate Served(s: State) {
    && Count(s.log, Reply) + s.requests == Count(s.history, Request)
    && Count(s.log, Pong) == Count(s.history, Ping)
  }

  // A step that says and hears at most one thing, neither of the four.
  ghost predicate Aside(s: State, u: State) {
    && u.requests == s.requests
    && (u.history == s.history
        || exists f :: u.history == s.history + [f] && Unserved(f))
    && (u.log == s.log || exists m :: u.log == s.log + [m] && Unserving(m))
  }

  predicate Unserved(f: Frame) {
    f != Request && f != Ping
  }

  predicate Unserving(m: Message) {
    m != Reply && m != Pong
  }

  lemma AsideServes(s: State, u: State)
    requires Served(s) && Aside(s, u)
    ensures Served(u)
  {
    if u.history != s.history {
      var f :| u.history == s.history + [f] && Unserved(f);
      CountSnoc(s.history, f, Request);
      CountSnoc(s.history, f, Ping);
    }
    if u.log != s.log {
      var m :| u.log == s.log + [m] && Unserving(m);
      CountSnoc(s.log, m, Reply);
      CountSnoc(s.log, m, Pong);
    }
  }

  lemma TaskAside(s: State, i: nat, act: Act)
    requires i < |s.tasks|
    ensures Aside(s, Step(s, Acts(i, act)))
  {
    hide Step, LocallyFails, EndsWell;
    ActDoes(s, i, act);
    if Said(s, i, act) != [] {
      assert Said(s, i, act) == [Said(s, i, act)[0]] && Unserving(Said(s, i, act)[0]);
    }
  }

  lemma HandleServes(s: State, f: Frame)
    requires Served(s)
    ensures Served(Handle(s, f))
  {
    hide Count;
    CountSnoc(s.history, f, Request);
    CountSnoc(s.history, f, Ping);
    CountSnoc(s.log, Pong, Pong);
    CountSnoc(s.log, Pong, Reply);
    if f.Open? {
      CountSnoc(s.log, Refused(f.id), Pong);
      CountSnoc(s.log, Refused(f.id), Reply);
    }
  }

  lemma StepServes(s: State, e: Event)
    requires Served(s)
    ensures Served(Step(s, e))
  {
    hide Count, Handle, TaskStep;
    match e
    case Incoming(f) => HandleServes(s, f);
    case Acts(i, act) =>
      if i < |s.tasks| {
        TaskAside(s, i, act);
        AsideServes(s, TaskStep(s, i, act));
      }
    case Answer =>
      CountSnoc(s.log, Reply, Reply);
      CountSnoc(s.log, Reply, Pong);
    case _ =>
  }

  // Over every run the replies and the requests still waiting are as many as the requests
  // received, and the pongs as many as the pings.
  lemma {:induction false} RunServes(events: seq<Event>)
    ensures var s := Run(START, events);
            && Count(s.log, Reply) + s.requests == Count(s.history, Request)
            && Count(s.log, Pong) == Count(s.history, Ping)
    decreases |events|
  {
    hide Step;
    if events != [] {
      RunServes(events[..|events| - 1]);
      StepServes(Run(START, events[..|events| - 1]), events[|events| - 1]);
    }
  }

  // ---- answering all ----

  lemma {:induction false} AnswerAll(before: seq<Event>, n: nat) returns (events: seq<Event>)
    requires Run(START, before).open && Run(START, before).requests == n
    ensures var s := Run(START, events);
            s.open && s.requests == 0 && s.history == Run(START, before).history
    decreases n
  {
    hide Run;
    events := before;
    if n > 0 {
      RunSnoc(before, Answer);
      events := AnswerAll(before + [Answer], n - 1);
    }
  }

  // While the loop runs, every run goes on to one in which the cloud has a reply to every
  // request and a pong to every ping.
  lemma AllServed(before: seq<Event>) returns (events: seq<Event>)
    requires Run(START, before).open
    ensures var s := Run(START, events);
            && s.history == Run(START, before).history
            && Count(s.sent, Reply) == Count(s.history, Request) && Count(s.sent, Pong) == Count(s.history, Ping)
  {
    hide Run, Count, Inv, OfTask;
    var answered := AnswerAll(before, Run(START, before).requests);
    var s := Run(START, answered);
    RunServes(answered);
    RunKeeps(answered);
    assert s.sent + s.outbound == s.log by { LogOfInv(s); }
    events := SendAll(answered, |s.outbound|);
  }

  lemma LogOfInv(s: State)
    requires Inv(s) && s.open
    ensures s.sent + s.outbound == s.log
  {
  }

  // ---- the end of the loop ----

  // The cloud hangs up, or a message cannot be sent to it.
  predicate Ending(s: State, e: Event) {
    e == Hangup || (e == TakeOutbound(false) && s.outbound != [])
  }

  lemma EndedStays(s: State, e: Event)
    requires !s.open
    ensures var u := Step(s, e);
            !u.open && u.sent == s.sent && u.history == s.history && u.streams == s.streams && u.finished == s.finished
  {
    hide Does, TaskStep;
    if e.Acts? && e.task < |s.tasks| {
      ActDoes(s, e.task, e.act);
      DoesEnded(s, e.task, e.act, Step(s, e));
    }
  }

  lemma DoesEnded(s: State, i: nat, act: Act, u: State)
    requires i < |s.tasks| && !s.open && Does(s, i, act, u)
    ensures !u.open && u.sent == s.sent && u.history == s.history && u.streams == s.streams && u.finished == s.finished
  {
  }

  // From then on, whatever the tasks still do, the cloud receives nothing more and no frame is
  // taken in; before, the loop runs.
  lemma {:induction false} LoopEnds(before: seq<Event>, e: Event, more: seq<Event>)
    requires Run(START, before).open && Ending(Run(START, before), e)
    ensures var s, u := Run(START, before), Run(START, before + [e] + more);
            !u.open && u.sent == s.sent && u.history == s.history
    decreases |more|
  {
    hide Run;
    if more == [] {
      assert before + [e] + more == before + [e];
      RunSnoc(before, e);
    } else {
      var fewer, last := more[..|more| - 1], more[|more| - 1];
      LoopEnds(before, e, fewer);
      assert before + [e] + more == (before + [e] + fewer) + [last];
      RunSnoc(before + [e] + fewer, last);
      EndedStays(Run(START, before + [e] + fewer), last);
    }
  }

  // Nothing else ends it.
  lemma OnlyThenEnds(s: State, e: Event)
    requires s.open
    ensures !Step(s, e).open <==> Ending(s, e)
  {
    hide Does, TaskStep;
    if e.Acts? && e.task < |s.tasks| {
      ActDoes(s, e.task, e.act);
      assert Step(s, e).open == s.open by { DoesOpen(s, e.task, e.act, Step(s, e)); }
    }
  }

  lemma DoesOpen(s: State, i: nat, act: Act, u: State)
    requires i < |s.tasks| && Does(s, i, act, u)
    ensures u.open == s.open
  {
  }
}
