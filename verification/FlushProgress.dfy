/**
 A flush that gets its answers carries everything to the server: from any reachable state the machine
 can load, post, have every batch stored, and save, and what a run of FlushLogs leaves in the state
 file is what that does.
 */
module FlushProgress {
  import opened Common
  import opened BatchSplitting
  import opened EventRecords
  import opened EventStore
  import opened EventRows
  import opened FlushProtocol
  import opened FlushInvariant
  import opened FlushDelivery
  import FlushRun

  function Last(states: seq<State>): State
    requires states != []
  {
    states[|states| - 1]
  }

  lemma RunGoesOn(states: seq<State>, t: State, step: Step)
    requires Run(states) && Takes(Last(states), t, step)
    ensures Run(states + [t])
  {
    assert Follows(Last(states), t);
  }

  // ---------------------------------------------------------------- one batch

  /** Everything but the worker, the network, and what the servers have. */
  ghost predicate SameClient(s: State, t: State, w: nat) {
    && t.own == s.own && t.log == s.log && t.disk == s.disk && t.dropped == s.dropped
    && forall v :: v != w ==> t.At(v) == s.At(v)
  }

  lemma SameClientTwice(s: State, t: State, u: State, w: nat)
    requires SameClient(s, t, w) && SameClient(t, u, w)
    ensures SameClient(s, u, w)
  {
  }

  /** The next batch of a flush is posted, stored and acknowledged. */
  lemma SendBatch(states: seq<State>, w: nat) returns (whole: seq<State>)
    requires Run(states) && Last(states).At(w).Flushing?
    requires Last(states).At(w).waiting.None? && Last(states).At(w).done < |Last(states).At(w).batches|
    ensures states <= whole && Run(whole) && SameClient(Last(states), Last(whole), w)
    ensures Last(whole).At(w) == Last(states).At(w).(done := Last(states).At(w).done + 1)
  {
    var s := Last(states);
    var at, m := s.At(w), |s.net|;
    var msg := Message(at.target, at.lo + |Concat(at.batches[..at.done])|, at.batches[at.done]);
    var posted := s.(net := s.net + [msg]).With(w, at.(waiting := Some(m)));
    assert Takes(s, posted, Post(w));
    RunGoesOn(states, posted, Post(w));
    var stored := Answered(posted, m).(
      stores := posted.stores[msg.target := Absorb(posted.Rows(msg.target), msg.events)],
      landed := posted.landed + IdsOf(msg.target, msg.events));
    assert Takes(posted, stored, Deliver(m));
    RunGoesOn(states + [posted], stored, Deliver(m));
    var acked := stored.With(w, at.(done := at.done + 1, waiting := None));
    assert Takes(stored, acked, Ack(w));
    RunGoesOn(states + [posted] + [stored], acked, Ack(w));
    whole := states + [posted] + [stored] + [acked];
  }

  lemma {:induction false} SendRest(states: seq<State>, w: nat) returns (whole: seq<State>)
    requires Run(states) && Last(states).At(w).Flushing?
    requires Last(states).At(w).waiting.None? && Last(states).At(w).done <= |Last(states).At(w).batches|
    ensures states <= whole && Run(whole) && SameClient(Last(states), Last(whole), w)
    ensures Last(whole).At(w) == Last(states).At(w).(done := |Last(states).At(w).batches|)
    decreases |Last(states).At(w).batches| - Last(states).At(w).done
  {
    if Last(states).At(w).done == |Last(states).At(w).batches| {
      whole := states;
    } else {
      var next := SendBatch(states, w);
      whole := SendRest(next, w);
      SameClientTwice(Last(states), Last(next), Last(whole), w);
    }
  }

  // ---------------------------------------------------------------- one flush

  /** The state file after everything loaded has been sent. */
  function FileAfter(file: StateFile, target: string, events: seq<Event>): StateFile {
    if events == [] then file else file.(flushCursors := file.flushCursors[target := events[|events| - 1].sequence])
  }

  /** A worker with a snapshot can flush: from beginning to finish, whatever the batches are. */
  lemma FlushToEnd(states: seq<State>, w: nat, target: string, full: bool, batches: seq<seq<Event>>) returns (whole: seq<State>)
    requires Run(states) && Last(states).At(w).Loaded?
    requires var s := Last(states);
             var events := LoadEvents(s.log, if full then 0 else CursorFor(s.At(w).file, target));
             Decodable(events) && Concat(batches) == events
    ensures states <= whole && Run(whole) && SameClient(Last(states), Last(whole), w)
    ensures Last(whole).At(w) == Loaded(FileAfter(Last(states).At(w).file, target, Concat(batches)))
  {
    var s := Last(states);
    var file, events := s.At(w).file, Concat(batches);
    var begun := s.With(w, Flushing(file, target, |s.log| - |events|, batches, 0, None));
    assert Takes(s, begun, Begin(w, target, full, batches));
    RunGoesOn(states, begun, Begin(w, target, full, batches));
    var sent := SendRest(states + [begun], w);
    var t := Last(sent);
    var finished := t.With(w, Loaded(FileAfter(file, target, events)));
    assert Takes(t, finished, Finish(w));
    RunGoesOn(sent, finished, Finish(w));
    whole := sent + [finished];
    SameClientTwice(s, begun, t, w);
    SameClientTwice(s, t, finished, w);
  }

  /**
   What FlushLogs leaves in the state file, when it moves a cursor, is what the machine's flush of the
   same events to the same target leaves there.
   */
  lemma FlushLogsIsAFlush(states: seq<State>, w: nat, t: FlushRun.Target, opts: FlushRun.Options, limits: FlushRun.Limits,
                          replies: seq<FlushRun.Outcome>, c: int) returns (whole: seq<State>)
    requires Run(states) && Last(states).At(w).Loaded?
    requires FlushRun.NextLogsCursor(t, CursorFor(Last(states).At(w).file, t.id), Last(states).log, opts, limits, replies) == Some(c)
    ensures states <= whole && Run(whole) && SameClient(Last(states), Last(whole), w)
    ensures var file := Last(states).At(w).file;
            Last(whole).At(w) == Loaded(file.(flushCursors := FlushRun.Moved(file.flushCursors, t.id, Some(c))))
  {
    var s := Last(states);
    var after := if opts.full then 0 else CursorFor(s.At(w).file, t.id);
    var events := LoadEvents(s.log, after);
    var batches := GreedySplit(events, limits.size, limits.cap);
    FlushRun.GreedyBatchesAreLoadedEvents(s.log, after, limits);
    forall i | 0 <= i < |events|
      ensures events[i].attributes.Some?
    {
      assert events[i] in events;
    }
    whole := FlushToEnd(states, w, t.id, opts.full, batches);
  }

  // ---------------------------------------------------------------- load, flush, save

  /** The whole log has been sent to the target. */
  ghost predicate AllSent(s: State, target: string) {
    forall i :: 0 <= i < |s.log| ==> s.log[i].sequence <= CursorFor(s.disk, target)
  }

  lemma SentToTheEnd(s: State, target: string, file: StateFile)
    requires Increasing(s.log)
    requires file == FileAfter(s.disk, target, LoadEvents(s.log, CursorFor(s.disk, target)))
    ensures forall i :: 0 <= i < |s.log| ==> s.log[i].sequence <= CursorFor(file, target)
  {
    LoadIsSuffix(s.log, CursorFor(s.disk, target));
  }

  /** An idle worker can bring the target up to date with the whole log. */
  lemma LoadFlushSave(states: seq<State>, w: nat, target: string) returns (whole: seq<State>)
    requires Run(states) && Last(states).At(w).Idle?
    requires Decodable(LoadEvents(Last(states).log, CursorFor(Last(states).disk, target)))
    ensures states <= whole && Run(whole)
    ensures Last(whole).log == Last(states).log && Last(whole).dropped == Last(states).dropped
    ensures AllSent(Last(whole), target)
  {
    var s := Last(states);
    var events := LoadEvents(s.log, CursorFor(s.disk, target));
    var loaded := s.With(w, Loaded(s.disk));
    assert Takes(s, loaded, Load(w, true));
    RunGoesOn(states, loaded, Load(w, true));
    ConcatSingle(events);
    var flushed := FlushToEnd(states + [loaded], w, target, false, [events]);
    var t := Last(flushed);
    var saved := t.(disk := t.At(w).file).With(w, Idle);
    assert Takes(t, saved, Save(w));
    RunGoesOn(flushed, saved, Save(w));
    whole := flushed + [saved];
    RunInv(states, |states| - 1, target);
    SentToTheEnd(s, target, saved.disk);
  }

  /**
   Delivery is always possible: as long as what waits can be decoded, the run goes on to a state where
   the target has every valid event of the log, but for what its own database lost behind a 200 before.
   */
  lemma EverythingCanBeDelivered(states: seq<State>, w: nat, target: string) returns (whole: seq<State>)
    requires Run(states) && Last(states).At(w).Idle?
    requires Decodable(LoadEvents(Last(states).log, CursorFor(Last(states).disk, target)))
    ensures states <= whole && Run(whole)
    ensures Last(whole).log == Last(states).log && AllSent(Last(whole), target)
    ensures forall i :: 0 <= i < |Last(states).log| && Valid(Last(states).log[i]) &&
                        (target, Last(states).log[i].id) !in Last(states).dropped ==>
              HasId(Last(whole).Rows(target), Last(states).log[i].id)
  {
    whole := LoadFlushSave(states, w, target);
    forall i | 0 <= i < |Last(states).log| && Valid(Last(states).log[i]) && (target, Last(states).log[i].id) !in Last(states).dropped
      ensures HasId(Last(whole).Rows(target), Last(states).log[i].id)
    {
      StoredUpToTheCursor(whole, |whole| - 1, target, i);
    }
  }

  // ---------------------------------------------------------------- what the environment may do

  /** An event with the next sequence number can be recorded at any time. */
  lemma EventsCanBeRecorded(states: seq<State>, e: Event) returns (whole: seq<State>)
    requires Run(states) && e.sequence > LastSequence(Last(states).log) && e.id in Last(states).own && Unreserved(e)
    requires forall i :: 0 <= i < |Last(states).log| ==> Last(states).log[i].id != e.id
    ensures states <= whole && Run(whole)
    ensures Last(whole) == Last(states).(log := Last(states).log + [e])
  {
    var t := Last(states).(log := Last(states).log + [e]);
    RunGoesOn(states, t, Append(e));
    whole := states + [t];
  }

  /** Any message ever posted can arrive, or meet a failing database, at any time and any number of times. */
  lemma MessagesCanArrive(states: seq<State>, m: nat, stored: bool) returns (whole: seq<State>)
    requires Run(states) && m < |Last(states).net|
    ensures states <= whole && Run(whole) && m in Last(whole).answered && Last(whole).net == Last(states).net
    ensures var s, t, msg := Last(states), Last(whole), Last(states).net[m];
            t.Rows(msg.target) == if stored then Absorb(s.Rows(msg.target), msg.events) else s.Rows(msg.target)
  {
    var s := Last(states);
    var msg := s.net[m];
    if stored {
      var t := Answered(s, m).(stores := s.stores[msg.target := Absorb(s.Rows(msg.target), msg.events)],
                               landed := s.landed + IdsOf(msg.target, msg.events));
      RunGoesOn(states, t, Deliver(m));
      whole := states + [t];
    } else {
      var t := Answered(s, m).(dropped := s.dropped + IdsOf(msg.target, msg.events));
      RunGoesOn(states, t, DatabaseError(m));
      whole := states + [t];
    }
  }

  /** A process can die at any time, and one that holds a snapshot, however old, can write it back. */
  lemma ProcessesAreFree(states: seq<State>, w: nat, save: bool) returns (whole: seq<State>)
    requires Run(states)
    ensures states <= whole && Run(whole) && Last(whole).At(w).Idle?
    ensures save && Last(states).At(w).Loaded? ==> Last(whole).disk == Last(states).At(w).file
    ensures !save ==> Last(whole).disk == Last(states).disk
  {
    var s := Last(states);
    if save && s.At(w).Loaded? {
      var t := s.(disk := s.At(w).file).With(w, Idle);
      RunGoesOn(states, t, Save(w));
      whole := states + [t];
    } else {
      var t := s.With(w, Idle);
      RunGoesOn(states, t, Die(w));
      whole := states + [t];
    }
  }
}
