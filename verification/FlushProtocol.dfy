/**
 The flush of one client's event log to several servers as a step machine: batches may be lost,
 delayed, duplicated or stored without an answer, a server may answer 200 although its database
 failed, and the state file is rewritten whole, from any earlier snapshot, by anyone.
 */
module FlushProtocol {
  import opened Common
  import opened EventRecords
  import opened EventStore
  import opened EventRows

  const SERVER := "server"

  /** The cursors of a state file; lastFlushed is the older, single cursor. */
  datatype StateFile = StateFile(flushCursors: map<string, int>, lastFlushed: int)

  /** cursorFor */
  function CursorFor(file: StateFile, target: string): int {
    if target in file.flushCursors then file.flushCursors[target]
    else if target == SERVER then file.lastFlushed
    else 0
  }

  /** A posted batch; lo is the position of its first event in the log. */
  datatype Message = Message(target: string, lo: nat, events: seq<Event>)

  /**
   A process holding a snapshot of the state file (flush or backfill), and one that is flushing to
   a target: lo is the log position of the first event loaded, done counts acknowledged batches.
   */
  datatype Worker =
    | Idle
    | Loaded(file: StateFile)
    | Flushing(file: StateFile, target: string, lo: nat, batches: seq<seq<Event>>, done: nat, waiting: Option<nat>)

  /**
   own holds the event ids only this client produces. frontier, landed and dropped record history:
   how much of the log was answered 200 by a target, and which ids were then stored or lost.
   */
  datatype State = State(
    own: iset<string>,
    log: seq<Event>,
    disk: StateFile,
    stores: map<string, seq<Row>>,
    workers: map<nat, Worker>,
    net: seq<Message>,
    answered: set<nat>,
    frontier: map<string, nat>,
    landed: set<(string, string)>,
    dropped: set<(string, string)>)
  {
    function Rows(target: string): seq<Row> {
      if target in stores then stores[target] else []
    }
    function Frontier(target: string): nat {
      if target in frontier then frontier[target] else 0
    }
    function At(w: nat): Worker {
      if w in workers then workers[w] else Idle
    }
    function With(w: nat, worker: Worker): State {
      this.(workers := workers[w := worker])
    }
  }

  datatype Step =
    | Append(event: Event)
    | Load(w: nat, readable: bool)
    | Begin(w: nat, target: string, full: bool, batches: seq<seq<Event>>)
    | Post(w: nat)
    | Deliver(m: nat)
    | DatabaseError(m: nat)
    | Ack(w: nat)
    | Finish(w: nat)
    | Abandon(w: nat)
    | Save(w: nat)
    | Die(w: nat)
    | Foreign(target: string, row: Row)

  function LastSequence(log: seq<Event>): int {
    if log == [] then 0 else log[|log| - 1].sequence
  }

  /** LoadEvents: the events after a cursor, in sequence order. */
  function LoadEvents(log: seq<Event>, after: int): seq<Event> {
    Filter((e: Event) => e.sequence > after, log)
  }

  ghost function IdsOf(target: string, events: seq<Event>): set<(string, string)> {
    set i | 0 <= i < |events| :: (target, events[i].id)
  }

  /** The history of a batch that was answered 200. */
  ghost function Answered(s: State, m: nat): State
    requires m < |s.net|
  {
    var msg := s.net[m];
    s.(answered := s.answered + {m},
       frontier := s.frontier[msg.target := Max(s.Frontier(msg.target), msg.lo + |msg.events|)])
  }

  /**
   One step. What a delivered batch does to the rows is said in terms of its events; it is what the
   server makes of their records (DeliveryIsInsertion).
   */
  ghost predicate Takes(s: State, t: State, step: Step) {
    match step
    case Append(e) =>
      && e.sequence > LastSequence(s.log) && e.id in s.own && Unreserved(e)
      && (forall i :: 0 <= i < |s.log| ==> s.log[i].id != e.id)
      && t == s.(log := s.log + [e])
    case Load(w, readable) =>
      && s.At(w).Idle?
      && t == s.With(w, Loaded(if readable then s.disk else StateFile(map[], 0)))
    case Begin(w, target, full, batches) =>
      && s.At(w).Loaded?
      && var events := LoadEvents(s.log, if full then 0 else CursorFor(s.At(w).file, target));
      && Decodable(events) && Concat(batches) == events
      && t == s.With(w, Flushing(s.At(w).file, target, |s.log| - |events|, batches, 0, None))
    case Post(w) =>
      && s.At(w).Flushing?
      && var at := s.At(w);
      && at.waiting.None? && at.done < |at.batches|
      && var msg := Message(at.target, at.lo + |Concat(at.batches[..at.done])|, at.batches[at.done]);
      && t == s.(net := s.net + [msg]).With(w, at.(waiting := Some(|s.net|)))
    case Deliver(m) =>
      && m < |s.net|
      && var msg := s.net[m];
      && t == Answered(s, m).(
           stores := s.stores[msg.target := Absorb(s.Rows(msg.target), msg.events)],
           landed := s.landed + IdsOf(msg.target, msg.events))
    case DatabaseError(m) =>
      && m < |s.net|
      && t == Answered(s, m).(dropped := s.dropped + IdsOf(s.net[m].target, s.net[m].events))
    case Ack(w) =>
      && s.At(w).Flushing?
      && var at := s.At(w);
      && at.waiting.Some? && at.waiting.value in s.answered
      && t == s.With(w, at.(done := at.done + 1, waiting := None))
    case Finish(w) =>
      && s.At(w).Flushing?
      && var at := s.At(w);
      && at.done == |at.batches|
      && var events := Concat(at.batches);
      && t == s.With(w, Loaded(if events == [] then at.file
                               else at.file.(flushCursors := at.file.flushCursors[at.target := LastSequence(events)])))
    case Abandon(w) =>
      s.At(w).Flushing? && t == s.With(w, Loaded(s.At(w).file))
    case Save(w) =>
      s.At(w).Loaded? && t == s.(disk := s.At(w).file).With(w, Idle)
    case Die(w) =>
      t == s.With(w, Idle)
    case Foreign(target, row) =>
      && row.id !in s.own && !HasId(s.Rows(target), row.id)
      && t == s.(stores := s.stores[target := s.Rows(target) + [row]])
  }
}
