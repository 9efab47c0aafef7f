/**
 The tunnel's stream multiplexer: one select loop, one task a stream, and unbounded FIFO
 channels between them, as steps that may interleave in any order.
 */
module Tunnel {
  import opened Options

  type StreamId = string
  type Payload = string

  // Frames from the cloud. Data of an unknown message type carries no payload.
  datatype Frame =
    | Open(id: StreamId)
    | Data(id: StreamId, payload: Option<Payload>)
    | Close(id: StreamId)
    | Request
    | Ping
    | Ignored

  // Messages to the cloud, with the task they come from; the loop itself has none.
  datatype Message =
    | Accept(task: nat, to: StreamId)
    | Chunk(task: nat, to: StreamId, body: Payload)
    | Closed(task: nat, to: StreamId, failed: bool)
    | Refused(to: StreamId)
    | Reply
    | Pong

  datatype Phase = Connecting | Running | Ended | Done

  // A stream's task: what it has taken from its inbox, what is still there, what it has
  // written to the local socket and what it has read from it.
  datatype Task = Task(id: StreamId, since: nat, phase: Phase, consumed: seq<Frame>, inbox: seq<Frame>,
                       written: seq<Payload>, fetched: seq<Payload>)

  // What a task may meet next.
  datatype Act =
    | Connect(ok: bool)
    | LocalMessage(body: Payload)
    | LocalFailure
    | LocalEnd
    | Receive(writes: bool)
    | InboxGone
    | Finish

  datatype Event =
    | TakeOutbound(ok: bool)
    | TakeDone
    | Incoming(frame: Frame)
    | Hangup
    | Answer
    | Acts(task: nat, act: Act)

  // The loop's map and channels, the tasks, and two logs: frames handled, messages pushed.
  datatype State = State(open: bool, streams: map<StreamId, nat>, tasks: seq<Task>, outbound: seq<Message>,
                         sent: seq<Message>, finished: seq<StreamId>, requests: nat,
                         history: seq<Frame>, log: seq<Message>)

  const START := State(true, map[], [], [], [], [], 0, [], [])

  // Once the loop has returned, its channels take nothing more.
  function Push(s: State, m: Message): State {
    s.(log := s.log + [m], outbound := if s.open then s.outbound + [m] else s.outbound)
  }

  predicate HasSender(s: State, i: nat)
    requires i < |s.tasks|
  {
    s.open && s.tasks[i].id in s.streams && s.streams[s.tasks[i].id] == i
  }

  function Without(streams: map<StreamId, nat>, id: StreamId): map<StreamId, nat> {
    streams - {id}
  }

  // The loop handling one frame.
  function Handle(s: State, frame: Frame): State {
    var h := s.(history := s.history + [frame]);
    match frame
    case Open(id) =>
      if id == "" then h
      else if id in s.streams then Push(h, Refused(id))
      else h.(streams := s.streams[id := |s.tasks|],
              tasks := s.tasks + [Task(id, |s.history| + 1, Connecting, [], [], [], [])])
    case Data(id, _) =>
      if id == "" || id !in s.streams || s.streams[id] >= |s.tasks| then h else Deliver(h, s.streams[id], frame)
    case Close(id) =>
      if id == "" || id !in s.streams || s.streams[id] >= |s.tasks| then h
      else Deliver(h, s.streams[id], frame).(streams := Without(s.streams, id))
    case Request => h.(requests := s.requests + 1)
    case Ping => Push(h, Pong)
    case Ignored => h
  }

  function Deliver(s: State, i: nat, frame: Frame): State
    requires i < |s.tasks|
  {
    s.(tasks := s.tasks[i := s.tasks[i].(inbox := s.tasks[i].inbox + [frame])])
  }

  // A task that stops, saying so to the cloud.
  function Ends(s: State, i: nat, t: Task, failed: bool): State
    requires i < |s.tasks|
  {
    Push(s.(tasks := s.tasks[i := t.(phase := Ended)]), Closed(i, t.id, failed))
  }

  // A task taking the next frame of its inbox.
  function Takes(s: State, i: nat, writes: bool): State
    requires i < |s.tasks| && s.tasks[i].inbox != []
  {
    var t := s.tasks[i];
    var frame := t.inbox[0];
    var u := t.(consumed := t.consumed + [frame], inbox := t.inbox[1..]);
    match frame
    case Data(_, Some(p)) =>
      if writes then s.(tasks := s.tasks[i := u.(written := t.written + [p])]) else Ends(s, i, u, true)
    case Data(_, None) => s.(tasks := s.tasks[i := u])
    case _ => Ends(s, i, u, false)
  }

  function TaskStep(s: State, i: nat, act: Act): State
    requires i < |s.tasks|
  {
    var t := s.tasks[i];
    match (t.phase, act)
    case (Connecting, Connect(ok)) =>
      if ok then Push(s.(tasks := s.tasks[i := t.(phase := Running)]), Accept(i, t.id)) else Ends(s, i, t, true)
    case (Running, LocalMessage(body)) =>
      Push(s.(tasks := s.tasks[i := t.(fetched := t.fetched + [body])]), Chunk(i, t.id, body))
    case (Running, LocalFailure) => Ends(s, i, t, true)
    case (Running, LocalEnd) => Ends(s, i, t, false)
    case (Running, Receive(writes)) => if t.inbox == [] then s else Takes(s, i, writes)
    case (Running, InboxGone) => if t.inbox == [] && !HasSender(s, i) then Ends(s, i, t, false) else s
    case (Ended, Finish) =>
      s.(tasks := s.tasks[i := t.(phase := Done)], finished := if s.open then s.finished + [t.id] else s.finished)
    case _ => s
  }

  // One step of the whole; an event that cannot happen changes nothing.
  function Step(s: State, e: Event): State {
    match e
    case TakeOutbound(ok) =>
      if !s.open || s.outbound == [] then s
      else if ok then s.(sent := s.sent + [s.outbound[0]], outbound := s.outbound[1..])
      else s.(open := false)
    case TakeDone =>
      if !s.open || s.finished == [] then s
      else s.(streams := Without(s.streams, s.finished[0]), finished := s.finished[1..])
    case Incoming(frame) => if s.open then Handle(s, frame) else s
    case Hangup => s.(open := false)
    case Answer => if s.requests == 0 then s else Push(s.(requests := s.requests - 1), Reply)
    case Acts(i, act) => if i < |s.tasks| then TaskStep(s, i, act) else s
  }

  function Run(s: State, events: seq<Event>): State
    decreases |events|
  {
    if events == [] then s else Step(Run(s, events[..|events| - 1]), events[|events| - 1])
  }

  // ---- the same in place ----

  class Multiplexer {
    var open: bool
    var streams: map<StreamId, nat>
    var tasks: seq<Task>
    var outbound: seq<Message>
    var sent: seq<Message>
    var finished: seq<StreamId>
    var requests: nat
    var history: seq<Frame>
    var log: seq<Message>

    ghost function Snapshot(): State
      reads this
    {
      State(open, streams, tasks, outbound, sent, finished, requests, history, log)
    }

    constructor ()
      ensures Snapshot() == START
    {
      open, streams, tasks, outbound, sent, finished, requests, history, log := true, map[], [], [], [], [], 0, [], [];
    }

    method PushMessage(m: Message)
      modifies this`log, this`outbound
      ensures Snapshot() == Push(old(Snapshot()), m)
    {
      log := log + [m];
      if open {
        outbound := outbound + [m];
      }
    }

    // The select loop's three arms.
    method SelectOutbound(ok: bool)
      modifies this
      ensures Snapshot() == Step(old(Snapshot()), TakeOutbound(ok))
      ensures open ==> sent + outbound == old(sent + outbound)
    {
      if open && outbound != [] {
        if ok {
          sent := sent + [outbound[0]];
          outbound := outbound[1..];
        } else {
          open := false;
        }
      }
    }

    method SelectDone()
      modifies this
      ensures Snapshot() == Step(old(Snapshot()), TakeDone)
      ensures forall id :: id in streams ==> id in old(streams) && streams[id] == old(streams)[id]
      ensures open && old(finished) != [] ==> streams.Keys == old(streams).Keys - {old(finished)[0]}
    {
      if open && finished != [] {
        streams := streams - {finished[0]};
        finished := finished[1..];
      }
    }

    method SelectIncoming(frame: Frame)
      modifies this
      ensures Snapshot() == Step(old(Snapshot()), Incoming(frame))
    {
      if !open {
        return;
      }
      var since := |history| + 1;
      history := history + [frame];
      match frame {
        case Open(id) =>
          if id == "" {
            return;
          }
          if id in streams {
            PushMessage(Refused(id));
            return;
          }
          streams := streams[id := |tasks|];
          tasks := tasks + [Task(id, since, Connecting, [], [], [], [])];
        case Data(id, _) =>
          if id != "" && id in streams && streams[id] < |tasks| {
            var i := streams[id];
            tasks := tasks[i := tasks[i].(inbox := tasks[i].inbox + [frame])];
          }
        case Close(id) =>
          if id != "" && id in streams && streams[id] < |tasks| {
            var i := streams[id];
            tasks := tasks[i := tasks[i].(inbox := tasks[i].inbox + [frame])];
            streams := streams - {id};
          }
        case Request => requests := requests + 1;
        case Ping => PushMessage(Pong);
        case Ignored =>
      }
    }

    // A task ending: the closing frame goes out, then the loop is told.
    method EndTask(i: nat, t: Task, failed: bool)
      requires i < |tasks|
      modifies this
      ensures Snapshot() == Ends(old(Snapshot()), i, t, failed)
    {
      tasks := tasks[i := t.(phase := Ended)];
      PushMessage(Closed(i, t.id, failed));
    }

    // One branch of a task's own loop.
    method ProxyStep(i: nat, act: Act)
      requires i < |tasks|
      modifies this
      ensures Snapshot() == Step(old(Snapshot()), Acts(i, act))
    {
      var t := tasks[i];
      if t.phase == Connecting && act.Connect? {
        if act.ok {
          tasks := tasks[i := t.(phase := Running)];
          PushMessage(Accept(i, t.id));
        } else {
          EndTask(i, t, true);
        }
      } else if t.phase == Running && act.LocalMessage? {
        tasks := tasks[i := t.(fetched := t.fetched + [act.body])];
        PushMessage(Chunk(i, t.id, act.body));
      } else if t.phase == Running && act.LocalFailure? {
        EndTask(i, t, true);
      } else if t.phase == Running && act.LocalEnd? {
        EndTask(i, t, false);
      } else if t.phase == Running && act.Receive? && t.inbox != [] {
        var frame := t.inbox[0];
        var u := t.(consumed := t.consumed + [frame], inbox := t.inbox[1..]);
        if frame.Data? && frame.payload.Some? {
          if act.writes {
            tasks := tasks[i := u.(written := t.written + [frame.payload.value])];
          } else {
            EndTask(i, u, true);
          }
        } else if frame.Data? {
          tasks := tasks[i := u];
        } else {
          EndTask(i, u, false);
        }
      } else if t.phase == Running && act.InboxGone? && t.inbox == []
                && !(open && t.id in streams && streams[t.id] == i) {
        EndTask(i, t, false);
      } else if t.phase == Ended && act.Finish? {
        tasks := tasks[i := t.(phase := Done)];
        if open {
          finished := finished + [t.id];
        }
      }
    }
  }
}
