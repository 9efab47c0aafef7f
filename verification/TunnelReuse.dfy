/** The other half: every history that reopens a closed id has a run that drops its data. */
module TunnelReuse {
  import opened Options
  import opened Tunnel
  import opened TunnelSafety
  import opened TunnelRuns
  import opened TunnelIds
  import opened TunnelDrops

  // ---- taking in frames while no task moves ----

  // Tasks only gain frames, and only those the loop keeps; new ones are connecting.
  predicate Grows(s: State, u: State) {
    && |s.tasks| <= |u.tasks| && u.finished == s.finished && u.open == s.open
    && (forall i :: 0 <= i < |s.tasks| ==> SameButInbox(s.tasks[i], u.tasks[i]))
    && (forall i :: 0 <= i < |s.tasks| && !HasSender(s, i) ==> !HasSender(u, i) && u.tasks[i] == s.tasks[i])
    && forall i :: |s.tasks| <= i < |u.tasks| ==> u.tasks[i].phase == Connecting
  }

  predicate SameButInbox(t: Task, u: Task) {
    u.(inbox := t.inbox) == t
  }

  lemma HandleGrows(s: State, f: Frame)
    requires StreamsOk(s) && s.open
    ensures Grows(s, Handle(s, f)) && Handle(s, f).history == s.history + [f]
  {
  }

  lemma GrowsOn(s: State, u: State, v: State)
    requires Grows(s, u) && Grows(u, v)
    ensures Grows(s, v)
  {
    hide HasSender;
    assert forall i :: 0 <= i < |s.tasks| ==>
             SameButInbox(s.tasks[i], u.tasks[i]) && SameButInbox(u.tasks[i], v.tasks[i]);
  }

  lemma GrowsSame(s: State)
    ensures Grows(s, s)
  {
  }

  lemma FeedSnoc(events: seq<Event>, frames: seq<Frame>, f: Frame)
    ensures events + Feed(frames + [f]) == events + Feed(frames) + [Incoming(f)]
  {
  }

  lemma RunStreams(events: seq<Event>)
    ensures StreamsOk(Run(START, events))
  {
    hide Run, StreamsOk, LogOk, TaskOk;
    RunKeeps(events);
  }

  lemma {:induction false} FeedGrows(events: seq<Event>, frames: seq<Frame>)
    requires Run(START, events).open
    ensures var s, u := Run(START, events), Run(START, events + Feed(frames));
            Grows(s, u) && u.history == s.history + frames
    decreases |frames|
  {
    hide Run, Handle, StreamsOk, Grows;
    var s := Run(START, events);
    if frames == [] {
      assert events + Feed(frames) == events && s.history + frames == s.history;
      GrowsSame(s);
    } else {
      var before, f := frames[..|frames| - 1], frames[|frames| - 1];
      FeedGrows(events, before);
      assert frames == before + [f];
      FeedSnoc(events, before, f);
      var u := Run(START, events + Feed(before));
      GrowsOpen(s, u);
      RunSnoc(events + Feed(before), Incoming(f));
      RunStreams(events + Feed(before));
      HandleGrows(u, f);
      GrowsOn(s, u, Handle(u, f));
      assert s.history + before + [f] == s.history + frames;
    }
  }

  lemma GrowsOpen(s: State, u: State)
    requires Grows(s, u)
    ensures u.open == s.open && u.finished == s.finished
  {
  }

  // Only its close frame takes an id from the loop.
  lemma {:induction false} EntryKept(events: seq<Event>, frames: seq<Frame>, id: StreamId)
    requires Run(START, events).open && id in Run(START, events).streams && Close(id) !in frames
    ensures var s, u := Run(START, events), Run(START, events + Feed(frames));
            id in u.streams && u.streams[id] == s.streams[id]
    decreases |frames|
  {
    hide Run, Grows;
    if frames == [] {
      assert events + Feed(frames) == events;
    } else {
      var before, f := frames[..|frames| - 1], frames[|frames| - 1];
      assert frames == before + [f] && f in frames;
      EntryKept(events, before, id);
      FeedGrows(events, before);
      GrowsOpen(Run(START, events), Run(START, events + Feed(before)));
      FeedSnoc(events, before, f);
      RunSnoc(events + Feed(before), Incoming(f));
    }
  }

  // An open leaves its id with the loop.
  lemma OpenEntry(events: seq<Event>, id: StreamId)
    requires Run(START, events).open && id != ""
    ensures id in Run(START, events + [Incoming(Open(id))]).streams
  {
    hide Run;
    RunSnoc(events, Incoming(Open(id)));
  }

  // ---- the run ----

  lemma {:induction false} FirstClose(h: seq<Frame>, id: StreamId, i: nat, j: nat) returns (c: nat)
    requires i < j < |h| && h[j] == Close(id)
    ensures i < c <= j && h[c] == Close(id) && Close(id) !in h[i + 1..c]
    decreases j - i
  {
    c := j;
    if k :| i < k < j && h[k] == Close(id) {
      c := FirstClose(h, id, i, k);
    }
  }

  lemma FeedSplit(h: seq<Frame>, m: nat, n: nat)
    requires m <= n <= |h|
    ensures Feed(h[..n]) == Feed(h[..m]) + Feed(h[m..n]) && h[..n] == h[..m] + h[m..n]
  {
  }

  // Up to the first close after an open, no task having moved: the loop keeps a task of the id.
  lemma KeptUntilClose(h: seq<Frame>, id: StreamId, i: nat, c: nat)
    requires id != "" && i < c < |h| && h[i] == Open(id) && Close(id) !in h[i + 1..c]
    ensures var s := Run(START, Feed(h[..c]));
            && s.open && s.history == h[..c] && s.finished == [] && id in s.streams && s.streams[id] < |s.tasks|
            && s.tasks[s.streams[id]].id == id && forall t :: 0 <= t < |s.tasks| ==> s.tasks[t].phase == Connecting
  {
    hide Run, StreamsOk, Grows;
    FedState(h[..c]);
    FedState(h[..i]);
    assert h[..i + 1] == h[..i] + [Open(id)];
    FeedSnoc([], h[..i], Open(id));
    assert [] + Feed(h[..i + 1]) == Feed(h[..i + 1]) && [] + Feed(h[..i]) == Feed(h[..i]);
    OpenEntry(Feed(h[..i]), id);
    FedState(h[..i + 1]);
    FeedSplit(h, i + 1, c);
    EntryKept(Feed(h[..i + 1]), h[i + 1..c], id);
    RunStreams(Feed(h[..c]));
    assert StreamsOk(Run(START, Feed(h[..c])));
    Entry(Run(START, Feed(h[..c])), id);
    FeedFromStart(h[..c]);
  }

  lemma FeedFromStart(h: seq<Frame>)
    ensures Run(START, Feed(h)).finished == []
  {
    hide Run;
    RunEmpty();
    FeedGrows([], h);
    assert [] + Feed(h) == Feed(h);
  }

  lemma Entry(s: State, id: StreamId)
    requires StreamsOk(s) && id in s.streams
    ensures s.streams[id] < |s.tasks| && s.tasks[s.streams[id]].id == id
  {
  }

  // Its task fails and is done, and the loop has not noticed.
  lemma UnnoticedEnd(before: seq<Event>, i: nat) returns (events: seq<Event>)
    requires var s := Run(START, before); s.open && i < |s.tasks| && s.tasks[i].phase == Connecting && s.finished == []
    ensures var s, u := Run(START, before), Run(START, events);
            && u.open && u.history == s.history && u.streams == s.streams && u.finished == [s.tasks[i].id]
            && u.tasks == s.tasks[i := s.tasks[i].(phase := Done)]
  {
    hide Run;
    RunSnoc(before, Acts(i, Connect(false)));
    events := before + [Acts(i, Connect(false))];
    RunSnoc(events, Acts(i, Finish));
    events := events + [Acts(i, Finish)];
  }

  lemma {:induction false} ForIdConcat(a: seq<Frame>, b: seq<Frame>, id: StreamId)
    ensures ForId(a + b, id) == ForId(a, id) + ForId(b, id)
    decreases |b|
  {
    if b == [] {
      assert a + b == a;
    } else {
      var fewer, last := b[..|b| - 1], b[|b| - 1];
      assert (a + b)[..|a + b| - 1] == a + fewer;
      ForIdConcat(a, fewer, id);
    }
  }

  lemma {:induction false} ForIdHas(h: seq<Frame>, id: StreamId, l: nat)
    requires l < |h| && IsFor(h[l], id)
    ensures ForId(h, id) != []
    decreases |h|
  {
    if l < |h| - 1 {
      ForIdHas(h[..|h| - 1], id, l);
    }
  }

  // What is due grows with data the task is not given.
  lemma DueOutgrows(early: seq<Frame>, h: seq<Frame>, t: Task, l: nat)
    requires |early| <= l < |h| && h[..|early|] == early && t.since <= |early| && IsFor(h[l], t.id)
    requires t.consumed + t.inbox <= Due(early, t)
    ensures t.consumed + t.inbox != Due(h, t)
  {
    var rest := h[|early|..];
    assert h[t.since..] == early[t.since..] + rest;
    ForIdConcat(early[t.since..], rest, t.id);
    assert rest[l - |early|] == h[l];
    ForIdHas(rest, t.id, l - |early|);
  }

  // The state in which the loop is about to forget a live stream: its id is kept for a task
  // that is connecting, and a done notice of an earlier task of the id is waiting.
  lemma NoticeWaits(h: seq<Frame>, id: StreamId, i: nat, j: nat, k: nat) returns (events: seq<Event>, n: nat)
    requires id != "" && i < j < k < |h| && h[i] == Open(id) && h[j] == Close(id) && h[k] == Open(id)
    ensures var s := Run(START, events);
            && s.open && s.history == h[..k + 1] && s.finished == [id] && id in s.streams && s.streams[id] == n
            && n < |s.tasks| && s.tasks[n].id == id && s.tasks[n].phase == Connecting
  {
    hide Run, StreamsOk, Grows;
    var c := FirstClose(h, id, i, j);
    KeptUntilClose(h, id, i, c);
    var s := Run(START, Feed(h[..c]));
    var first := s.streams[id];
    var ended := UnnoticedEnd(Feed(h[..c]), first);
    var d := Run(START, ended);
    // the close, the frames up to the open, and the open
    var closed := ended + Feed([Close(id)]);
    FeedGrows(ended, [Close(id)]);
    ClosedEntry(ended, id, first);
    var upTo := closed + Feed(h[c + 1..k]);
    GrowsOpen(d, Run(START, closed));
    FeedGrows(closed, h[c + 1..k]);
    GrowsOpen(Run(START, closed), Run(START, upTo));
    assert upTo + Feed([Open(id)]) == upTo + [Incoming(Open(id))];
    events := upTo + Feed([Open(id)]);
    FeedGrows(upTo, [Open(id)]);
    OpenEntry(upTo, id);
    RunStreams(events);
    Entry(Run(START, events), id);
    n := Run(START, events).streams[id];
    GrowsOn(Run(START, closed), Run(START, upTo), Run(START, events));
    GrowsOn(d, Run(START, closed), Run(START, events));
    GrowsOpen(d, Run(START, events));
    NotTheOldOne(d, Run(START, closed), Run(START, events), first, n);
    assert h[..c] + [Close(id)] + h[c + 1..k] + [Open(id)] == h[..k + 1];
  }

  lemma ClosedEntry(events: seq<Event>, id: StreamId, i: nat)
    requires Run(START, events).open && i < |Run(START, events).tasks|
    requires Run(START, events).tasks[i].id == id && id != ""
    ensures i < |Run(START, events + Feed([Close(id)])).tasks| && !HasSender(Run(START, events + Feed([Close(id)])), i)
  {
    hide Run;
    assert events + Feed([Close(id)]) == events + [Incoming(Close(id))];
    RunSnoc(events, Incoming(Close(id)));
    RunStreams(events);
  }

  // The task kept at the end is not the one that ended, so it is connecting.
  lemma NotTheOldOne(d: State, c: State, e: State, i: nat, n: nat)
    requires Grows(d, c) && Grows(c, e) && Grows(d, e)
    requires i < |d.tasks| && !HasSender(c, i) && n < |e.tasks| && HasSender(e, n)
    requires forall t :: 0 <= t < |d.tasks| && t != i ==> d.tasks[t].phase == Connecting
    ensures e.tasks[n].phase == Connecting
  {
    assert n < |d.tasks| ==> SameButInbox(d.tasks[n], e.tasks[n]);
  }

  // A history that reopens a closed id and then sends it data has a run in which a live stream
  // of the id, open at the cloud, misses some of it.
  lemma StaleDoneDrops(h: seq<Frame>, id: StreamId) returns (events: seq<Event>)
    requires id != "" && Reopened(h, id)
    ensures Run(START, events).history == h && Run(START, events).open && !NoneMissed(Run(START, events), id)
  {
    hide Run, Grows, Due, Speaks, Ledger, StreamsOk, LogOk;
    var i, j, k, l :| ReopenedAt(h, id, i, j, k, l);
    var n;
    events, n := NoticeWaits(h, id, i, j, k);
    var s := Run(START, events);
    RunKeeps(events);
    RunLedger(events, id);
    assert TaskOk(s, n);
    KeptIsOpen(s, id);
    RunSnoc(events, TakeDone);
    events := events + [TakeDone];
    var f := Run(START, events);
    assert !HasSender(f, n) && f.tasks == s.tasks && f.open && f.history == h[..k + 1];
    var rest := h[k + 1..];
    FeedGrows(events, rest);
    events := events + Feed(rest);
    var u := Run(START, events);
    GrowsForgotten(f, u, n);
    assert h[..k + 1] + rest == h;
    DueOutgrows(s.history, h, s.tasks[n], l);
    forall m | s.tasks[n].since <= m < |h|
      ensures h[m] != Close(id)
    {
      assert m <= k ==> h[m] == s.history[m];
    }
    assert NotClosed(u.history, u.tasks[n]) && Live(u.tasks[n]);
  }

  lemma KeptIsOpen(s: State, id: StreamId)
    requires Ledger(s, id) && id in s.streams
    ensures s.streams[id] < |s.tasks| && NotClosed(s.history, s.tasks[s.streams[id]])
  {
  }

  lemma GrowsForgotten(s: State, u: State, n: nat)
    requires Grows(s, u) && n < |s.tasks| && !HasSender(s, n)
    ensures n < |u.tasks| && u.tasks[n] == s.tasks[n] && u.open == s.open
  {
  }

  // Whatever the tasks do and however the steps interleave, while the loop runs no live and
  // unclosed stream of the id misses a frame, if and only if the history does not send the id
  // data after it was opened, closed and opened again for good.
  lemma NothingMissedExactly(h: seq<Frame>, id: StreamId)
    ensures (forall events :: Run(START, events).history == h && Run(START, events).open ==>
                                NoneMissed(Run(START, events), id))
            <==> id == "" || !Reopened(h, id)
  {
    hide Run, NoneMissed, Reopened;
    if id == "" || !Reopened(h, id) {
      forall events | Run(START, events).history == h && Run(START, events).open
        ensures NoneMissed(Run(START, events), id)
      {
        NothingMissed(events, id);
      }
    } else {
      var events := StaleDoneDrops(h, id);
    }
  }

  // In particular an id that is opened at most once misses nothing.
  lemma OnceIsNotReopened(h: seq<Frame>, id: StreamId)
    requires Opens(h, id) <= 1
    ensures !Reopened(h, id)
  {
    hide Opens;
    if i, j, k, l :| ReopenedAt(h, id, i, j, k, l) {
      TwoOpens(h, id, i, k);
    }
  }

  lemma NothingDropped(events: seq<Event>, i: nat)
    requires Run(START, events).open && i < |Run(START, events).tasks|
    requires var s := Run(START, events);
             Live(s.tasks[i]) && NotClosed(s.history, s.tasks[i]) && Opens(s.history, s.tasks[i].id) <= 1
    ensures var s := Run(START, events);
            var t := s.tasks[i];
            t.since <= |s.history| && t.consumed + t.inbox == Due(s.history, t) && t.written == Known(t.consumed)
  {
    hide Run, Speaks, Due, Known, NotClosed, Reopened, Opens, LogOk, StreamsOk;
    var s := Run(START, events);
    OnceIsNotReopened(s.history, s.tasks[i].id);
    NothingMissed(events, s.tasks[i].id);
    RunKeeps(events);
    assert TaskOk(s, i);
  }

  lemma {:induction false} OneOpen(h: seq<Frame>, id: StreamId, i: nat)
    requires i < |h| && h[i] == Open(id)
    ensures Opens(h, id) >= 1
    decreases |h|
  {
    if i < |h| - 1 {
      OneOpen(h[..|h| - 1], id, i);
    }
  }

  lemma {:induction false} TwoOpens(h: seq<Frame>, id: StreamId, i: nat, k: nat)
    requires i < k < |h| && h[i] == Open(id) && h[k] == Open(id)
    ensures Opens(h, id) >= 2
    decreases |h|
  {
    if k < |h| - 1 {
      TwoOpens(h[..|h| - 1], id, i, k);
    } else {
      OneOpen(h[..|h| - 1], id, i);
    }
  }
}
