/** Whole runs of the tunnel, seen by the cloud and by the local sockets. */
module TunnelRuns {
  import opened Options
  import opened Tunnel
  import opened TunnelSafety

  // ---- the shape of a conversation ----

  // Both are `stream_close` frames to the cloud.
  predicate IsClose(m: Message) {
    m.Closed? || m.Refused?
  }

  // A prefix of `close`, or of `accept data* close`.
  predicate Conversation(frames: seq<Message>) {
    || frames == []
    || (|frames| == 1 && IsClose(frames[0]))
    || (frames[0].Accept?
        && (forall k :: 1 <= k < |frames| - 1 ==> frames[k].Chunk?)
        && (|frames| > 1 ==> frames[|frames| - 1].Chunk? || IsClose(frames[|frames| - 1])))
  }

  function Bodies(frames: seq<Message>): seq<Payload>
    decreases |frames|
  {
    if frames == [] then []
    else
      var last := frames[|frames| - 1];
      Bodies(frames[..|frames| - 1]) + if last.Chunk? then [last.body] else []
  }

  lemma {:induction false} OfTaskPrefix(a: seq<Message>, b: seq<Message>, i: nat)
    requires a <= b
    ensures OfTask(a, i) <= OfTask(b, i)
    decreases |b|
  {
    if a != b {
      OfTaskPrefix(a, b[..|b| - 1], i);
    }
  }

  lemma BodiesSnoc(frames: seq<Message>, m: Message)
    ensures Bodies(frames + [m]) == Bodies(frames) + if m.Chunk? then [m.body] else []
  {
    assert (frames + [m])[..|frames|] == frames;
  }

  lemma {:induction false} ChunkBodies(i: nat, id: StreamId, bodies: seq<Payload>)
    ensures Bodies([Accept(i, id)] + Chunks(i, id, bodies)) == bodies
    decreases |bodies|
  {
    hide Bodies;
    if bodies == [] {
      assert Bodies([]) == [] by { NoBodies(); }
      BodiesSnoc([], Accept(i, id));
      assert [Accept(i, id)] + Chunks(i, id, []) == [] + [Accept(i, id)];
    } else {
      var fewer, last := bodies[..|bodies| - 1], bodies[|bodies| - 1];
      ChunkBodies(i, id, fewer);
      BodiesSnoc([Accept(i, id)] + Chunks(i, id, fewer), Chunk(i, id, last));
      assert Chunks(i, id, bodies) == Chunks(i, id, fewer) + [Chunk(i, id, last)];
      assert [Accept(i, id)] + Chunks(i, id, bodies) == [Accept(i, id)] + Chunks(i, id, fewer) + [Chunk(i, id, last)];
    }
  }

  lemma NoBodies()
    ensures Bodies([]) == []
  {
  }

  lemma {:induction false} BodiesPrefix(a: seq<Message>, b: seq<Message>)
    requires a <= b
    ensures Bodies(a) <= Bodies(b)
    decreases |b|
  {
    if a != b {
      BodiesPrefix(a, b[..|b| - 1]);
    }
  }

  lemma TalkThenClose(i: nat, id: StreamId, bodies: seq<Payload>, m: Message)
    requires IsClose(m)
    ensures Conversation([Accept(i, id)] + Chunks(i, id, bodies))
    ensures Conversation([Accept(i, id)] + Chunks(i, id, bodies) + [m])
  {
    var talk := [Accept(i, id)] + Chunks(i, id, bodies);
    assert talk[0] == Accept(i, id) && forall k :: 1 <= k < |talk| ==> talk[k] == Chunk(i, id, bodies[k - 1]);
    assert forall k :: 0 <= k < |talk| ==> (talk + [m])[k] == talk[k];
  }

  // Whatever a task has said is a conversation, and its data are the local messages.
  lemma SpokenIsConversation(frames: seq<Message>, i: nat, t: Task)
    requires Speaks(frames, i, t)
    ensures Conversation(frames) && Bodies(frames) == t.fetched
  {
    hide Bodies, Conversation, Chunks;
    assert Conversation([]) && Bodies([]) == [] by { Silence(); }
    ChunkBodies(i, t.id, t.fetched);
    forall failed
      ensures Conversation([Closed(i, t.id, failed)]) && Bodies([Closed(i, t.id, failed)]) == []
      ensures Conversation([Accept(i, t.id)] + Chunks(i, t.id, t.fetched) + [Closed(i, t.id, failed)])
      ensures Bodies([Accept(i, t.id)] + Chunks(i, t.id, t.fetched) + [Closed(i, t.id, failed)]) == t.fetched
    {
      TalkThenClose(i, t.id, t.fetched, Closed(i, t.id, failed));
      BodiesSnoc([Accept(i, t.id)] + Chunks(i, t.id, t.fetched), Closed(i, t.id, failed));
      JustClose(Closed(i, t.id, failed));
    }
    assert Conversation([Accept(i, t.id)] + Chunks(i, t.id, t.fetched)) by {
      TalkThenClose(i, t.id, t.fetched, Closed(i, t.id, false));
    }
  }

  lemma Silence()
    ensures Conversation([]) && Bodies([]) == []
  {
  }

  lemma JustClose(m: Message)
    requires IsClose(m)
    ensures Conversation([m]) && Bodies([m]) == []
  {
    BodiesSnoc([], m);
    assert [] + [m] == [m];
  }

  lemma ConversationPrefix(a: seq<Message>, b: seq<Message>)
    requires a <= b && Conversation(b)
    ensures Conversation(a)
  {
    assert forall k :: 0 <= k < |a| ==> a[k] == b[k];
  }

  // In every run and for every task, however ids are used: what reached the cloud is a
  // conversation carrying the local messages in order, and what was written to the local
  // socket is the stream's data since it was opened, in order, without unknown types.
  lemma TaskConversation(events: seq<Event>, i: nat)
    requires i < |Run(START, events).tasks|
    ensures var s := Run(START, events);
            var t := s.tasks[i];
            && Conversation(OfTask(s.sent, i)) && Bodies(OfTask(s.sent, i)) <= t.fetched
            && t.since <= |s.history| && t.written <= Known(Due(s.history, t))
  {
    hide Run, OfTask, Conversation, Due, Known, Speaks;
    RunKeeps(events);
    var s := Run(START, events);
    var t := s.tasks[i];
    assert TaskOk(s, i);
    SpokenIsConversation(OfTask(s.log, i), i, t);
    OfTaskPrefix(s.sent, s.log, i);
    ConversationPrefix(OfTask(s.sent, i), OfTask(s.log, i));
    BodiesPrefix(OfTask(s.sent, i), OfTask(s.log, i));
    assert t.consumed <= t.consumed + t.inbox;
    KnownPrefix(t.consumed, Due(s.history, t));
  }

  // ---- runs that only take in frames ----

  lemma RunSnoc(events: seq<Event>, e: Event)
    ensures Run(START, events + [e]) == Step(Run(START, events), e)
  {
    assert (events + [e])[..|events|] == events;
  }

  lemma RunEmpty()
    ensures Run(START, []) == START
  {
  }

  // Taking everything from the outbound channel.
  lemma {:induction false} SendAll(before: seq<Event>, n: nat) returns (events: seq<Event>)
    requires Run(START, before).open && |Run(START, before).outbound| == n
    ensures Run(START, events).sent == Run(START, before).sent + Run(START, before).outbound
    ensures Run(START, events).history == Run(START, before).history
    decreases n
  {
    hide Run;
    events := before;
    var s := Run(START, before);
    if n == 0 {
      assert s.sent + s.outbound == s.sent;
    } else {
      assert s.sent + [s.outbound[0]] + s.outbound[1..] == s.sent + s.outbound;
      RunSnoc(before, TakeOutbound(true));
      events := SendAll(before + [TakeOutbound(true)], n - 1);
    }
  }
}
