/** What the flush machine guarantees in every run, and what a database error behind a 200 costs. */
module FlushDelivery {
  import opened Common
  import opened EventRecords
  import opened EventStore
  import opened EventRows
  import opened FlushProtocol
  import opened FlushInvariant

  /** Nothing is in flight, and every stored cursor tells the truth: a new client, or an upgraded one. */
  ghost predicate Start(s: State) {
    && LogOk(s) && s.workers == map[] && s.net == [] && s.answered == {} && s.dropped == {}
    && forall target :: StartOk(s, target)
  }

  ghost predicate StartOk(s: State, target: string) {
    && s.Frontier(target) <= |s.log|
    && Covered(s, target, CursorFor(s.disk, target))
    && DistinctIds(s.Rows(target))
    && OwnPrefix(s.own, s.Rows(target), s.log, s.Frontier(target))
    && (forall id :: (target, id) in s.landed <==> ValidBefore(s.log, s.Frontier(target), id))
  }

  /** A new client with an empty log and an empty state file. */
  lemma NewClientStarts(s: State)
    requires s.log == [] && s.disk == StateFile(map[], 0) && s.stores == map[] && s.workers == map[]
    requires s.net == [] && s.answered == {} && s.frontier == map[] && s.landed == {} && s.dropped == {}
    ensures Start(s)
  {
  }

  ghost predicate Follows(s: State, t: State) {
    exists step :: Takes(s, t, step)
  }

  ghost predicate Run(states: seq<State>) {
    && states != [] && Start(states[0])
    && forall i, j :: 0 <= i && j == i + 1 && j < |states| ==> Follows(states[i], states[j])
  }

  lemma StartInv(s: State, target: string)
    requires Start(s)
    ensures Inv(s, target)
  {
    assert StartOk(s, target);
    var k := s.Frontier(target);
    forall id | id in s.own
      ensures HasId(s.Rows(target), id) <==> ValidBefore(s.log, k, id)
    {
      FilterHasId(s.own, s.Rows(target), id);
      RowsForHasId(s.log[..k], id);
      ValidInPrefix(s.log, k, id);
    }
  }

  lemma ValidInPrefix(log: seq<Event>, k: nat, id: string)
    requires k <= |log|
    ensures HasValid(log[..k], id) <==> ValidBefore(log, k, id)
  {
    if ValidBefore(log, k, id) {
      var i :| 0 <= i < k && i < |log| && Valid(log[i]) && log[i].id == id;
      assert log[..k][i] == log[i];
    }
  }

  lemma {:induction false} RunInv(states: seq<State>, n: nat, target: string)
    requires Run(states) && n < |states|
    ensures Inv(states[n], target)
    decreases n
  {
    if n == 0 {
      StartInv(states[0], target);
    } else {
      RunInv(states, n - 1, target);
      assert Follows(states[n - 1], states[n]);
      var step :| Takes(states[n - 1], states[n], step);
      StepInv(states[n - 1], states[n], target, step);
    }
  }

  // ---------------------------------------------------------------- delivery

  /** In every run a delivery stores exactly what the server inserts for the records of the message. */
  lemma DeliveryIsInsertion(states: seq<State>, n: nat, m: nat)
    requires Run(states) && n < |states| && m < |states[n].net| && Decodable(states[n].net[m].events)
    ensures var s, msg := states[n], states[n].net[m];
            Absorb(s.Rows(msg.target), msg.events) == Inserted(s.Rows(msg.target), WireRecords(msg.events))
  {
    var s, msg := states[n], states[n].net[m];
    RunInv(states, n, msg.target);
    assert MessageOk(s, msg.target, m);
    assert forall j :: 0 <= j < |msg.events| ==> msg.events[j] == s.log[msg.lo + j];
    InsertedIsAbsorb(s.Rows(msg.target), msg.events);
  }

  /**
   At least once, never twice: in every run, a valid event at or below the persisted cursor of a
   target was stored there, or was answered 200 by a server whose database failed.
   */
  lemma StoredUpToTheCursor(states: seq<State>, n: nat, target: string, i: nat)
    requires Run(states) && n < |states|
    requires i < |states[n].log| && Valid(states[n].log[i])
    requires states[n].log[i].sequence <= CursorFor(states[n].disk, target)
    ensures var s, id := states[n], states[n].log[i].id;
            && DistinctIds(s.Rows(target))
            && (HasId(s.Rows(target), id) <==> (target, id) in s.landed)
            && (!HasId(s.Rows(target), id) ==> (target, id) in s.dropped)
  {
    RunInv(states, n, target);
  }

  /** The persisted cursor is honest: every valid event up to it is in the target's store. */
  ghost predicate CursorHonest(s: State, target: string) {
    forall i :: 0 <= i < |s.log| && Valid(s.log[i]) && s.log[i].sequence <= CursorFor(s.disk, target) ==>
      HasId(s.Rows(target), s.log[i].id)
  }

  // ---------------------------------------------------------------- which steps store an event

  /** A run together with the steps it took. */
  ghost predicate RunWith(states: seq<State>, steps: seq<Step>) {
    && |states| == |steps| + 1 && Start(states[0])
    && forall i, j :: 0 <= i < |steps| && j == i + 1 ==> Takes(states[i], states[j], steps[i])
  }

  lemma RunWithIsRun(states: seq<State>, steps: seq<Step>)
    requires RunWith(states, steps)
    ensures Run(states)
  {
    forall i, j | 0 <= i && j == i + 1 && j < |states|
      ensures Follows(states[i], states[j])
    {
      assert Takes(states[i], states[j], steps[i]);
    }
  }

  /** The server answers 200 to a batch, having stored it or, with stored false, having lost it to its database. */
  ghost predicate Answers(s: State, step: Step, target: string, stored: bool) {
    && (if stored then step.Deliver? else step.DatabaseError?)
    && step.m < |s.net| && s.net[step.m].target == target
  }

  /** ... and the batch holds the event at position i of the log. */
  ghost predicate AnswersEvent(s: State, step: Step, target: string, i: nat, stored: bool) {
    Answers(s, step, target, stored) && s.net[step.m].lo <= i < s.net[step.m].lo + |s.net[step.m].events|
  }

  ghost predicate AnswersId(s: State, step: Step, target: string, id: string, stored: bool) {
    Answers(s, step, target, stored) && (target, id) in IdsOf(target, s.net[step.m].events)
  }

  lemma StepHistory(s: State, t: State, step: Step, target: string, id: string)
    requires Takes(s, t, step)
    ensures (target, id) in t.landed <==> (target, id) in s.landed || AnswersId(s, step, target, id, true)
    ensures (target, id) in t.dropped <==> (target, id) in s.dropped || AnswersId(s, step, target, id, false)
    ensures s.log <= t.log
  {
  }

  /** One of the first n steps answers a batch that holds the event at position i. */
  ghost predicate Reached(states: seq<State>, steps: seq<Step>, n: nat, target: string, i: nat, stored: bool)
    requires |states| == |steps| + 1 && n <= |steps|
  {
    exists k :: 0 <= k < n && AnswersEvent(states[k], steps[k], target, i, stored)
  }

  ghost predicate ReachedId(states: seq<State>, steps: seq<Step>, n: nat, target: string, id: string, stored: bool)
    requires |states| == |steps| + 1 && n <= |steps|
  {
    exists k :: 0 <= k < n && AnswersId(states[k], steps[k], target, id, stored)
  }

  lemma ReachedNext(states: seq<State>, steps: seq<Step>, n: nat, target: string, id: string, stored: bool)
    requires |states| == |steps| + 1 && n < |steps|
    ensures ReachedId(states, steps, n + 1, target, id, stored) <==>
            ReachedId(states, steps, n, target, id, stored) || AnswersId(states[n], steps[n], target, id, stored)
  {
  }

  lemma {:induction false} History(states: seq<State>, steps: seq<Step>, n: nat, target: string, id: string)
    requires RunWith(states, steps) && n < |states|
    ensures (target, id) in states[n].landed <==>
            (target, id) in states[0].landed || ReachedId(states, steps, n, target, id, true)
    ensures (target, id) in states[n].dropped <==> ReachedId(states, steps, n, target, id, false)
    decreases n
  {
    if n > 0 {
      History(states, steps, n - 1, target, id);
      StepHistory(states[n - 1], states[n], steps[n - 1], target, id);
      ReachedNext(states, steps, n - 1, target, id, true);
      ReachedNext(states, steps, n - 1, target, id, false);
    }
  }

  lemma {:induction false} LogPrefix(states: seq<State>, steps: seq<Step>, k: nat, n: nat)
    requires RunWith(states, steps) && k <= n < |states|
    ensures states[k].log <= states[n].log
    decreases n
  {
    if k < n {
      LogPrefix(states, steps, k, n - 1);
      StepHistory(states[n - 1], states[n], steps[n - 1], "", "");
    }
  }

  /** A batch holds an event of the log exactly when it holds its position. */
  lemma IdIsPosition(states: seq<State>, steps: seq<Step>, k: nat, n: nat, target: string, i: nat, stored: bool)
    requires RunWith(states, steps) && k < n < |states| && i < |states[n].log|
    ensures AnswersId(states[k], steps[k], target, states[n].log[i].id, stored)
       <==> AnswersEvent(states[k], steps[k], target, i, stored)
  {
    if Answers(states[k], steps[k], target, stored) {
      RunWithIsRun(states, steps);
      RunInv(states, k, target);
      RunInv(states, n, target);
      LogPrefix(states, steps, k, n);
      var msg := states[k].net[steps[k].m];
      assert MessageOk(states[k], target, steps[k].m);
      assert InLog(states[n], msg.lo, msg.events);
      IdInBatch(states[n], target, msg.lo, msg.events, i);
    }
  }

  lemma ReachedByPosition(states: seq<State>, steps: seq<Step>, n: nat, target: string, i: nat, stored: bool)
    requires RunWith(states, steps) && n < |states| && i < |states[n].log|
    ensures ReachedId(states, steps, n, target, states[n].log[i].id, stored) <==> Reached(states, steps, n, target, i, stored)
  {
    forall k | 0 <= k < n
      ensures AnswersId(states[k], steps[k], target, states[n].log[i].id, stored)
         <==> AnswersEvent(states[k], steps[k], target, i, stored)
    {
      IdIsPosition(states, steps, k, n, target, i, stored);
    }
  }

  lemma LandedAtStart(states: seq<State>, steps: seq<Step>, n: nat, target: string, i: nat)
    requires RunWith(states, steps) && n < |states| && i < |states[n].log| && Valid(states[n].log[i])
    ensures (target, states[n].log[i].id) in states[0].landed <==> i < states[0].Frontier(target)
  {
    var s, t := states[0], states[n];
    RunWithIsRun(states, steps);
    RunInv(states, n, target);
    LogPrefix(states, steps, 0, n);
    assert StartOk(s, target);
    if i < s.Frontier(target) {
      assert s.log[i] == t.log[i];
    }
    if j :| 0 <= j < s.Frontier(target) && j < |s.log| && s.log[j].id == t.log[i].id {
      assert t.log[j] == s.log[j];
    }
  }

  /**
   A valid event is in a target's store exactly when it was there at the start or some step of the
   run delivered a batch that holds it.
   */
  lemma StoredExactly(states: seq<State>, steps: seq<Step>, n: nat, target: string, i: nat)
    requires RunWith(states, steps) && n < |states| && i < |states[n].log| && Valid(states[n].log[i])
    ensures HasId(states[n].Rows(target), states[n].log[i].id) <==>
            i < states[0].Frontier(target) || Reached(states, steps, n, target, i, true)
  {
    RunWithIsRun(states, steps);
    RunInv(states, n, target);
    History(states, steps, n, target, states[n].log[i].id);
    LandedAtStart(states, steps, n, target, i);
    ReachedByPosition(states, steps, n, target, i, true);
  }

  /** Every event up to the cursor that some step lost to a database error was there before or stored by some step. */
  ghost predicate LossesRepaired(states: seq<State>, steps: seq<Step>, n: nat, target: string)
    requires |states| == |steps| + 1 && n < |states|
  {
    forall i :: 0 <= i < |states[n].log| && Valid(states[n].log[i]) &&
                states[n].log[i].sequence <= CursorFor(states[n].disk, target) &&
                Reached(states, steps, n, target, i, false) ==>
      i < states[0].Frontier(target) || Reached(states, steps, n, target, i, true)
  }

  /**
   The cursor of a target is honest if and only if every batch that one of the run's steps lost
   behind a 200 was, as far as the cursor reaches, also stored by one of its steps.
   */
  lemma HonestExactly(states: seq<State>, steps: seq<Step>, n: nat, target: string)
    requires RunWith(states, steps) && n < |states|
    ensures CursorHonest(states[n], target) <==> LossesRepaired(states, steps, n, target)
  {
    var s := states[n];
    RunWithIsRun(states, steps);
    forall i | 0 <= i < |s.log| && Valid(s.log[i]) && s.log[i].sequence <= CursorFor(s.disk, target)
      ensures HasId(s.Rows(target), s.log[i].id) <==>
              i < states[0].Frontier(target) || Reached(states, steps, n, target, i, true)
      ensures HasId(s.Rows(target), s.log[i].id) || Reached(states, steps, n, target, i, false)
    {
      StoredUpToTheCursor(states, n, target, i);
      StoredExactly(states, steps, n, target, i);
      History(states, steps, n, target, s.log[i].id);
      ReachedByPosition(states, steps, n, target, i, false);
    }
  }

  /** Without a database error behind a 200 of the target, its cursor is honest throughout the run. */
  lemma HonestWithoutErrors(states: seq<State>, steps: seq<Step>, n: nat, target: string)
    requires RunWith(states, steps) && n < |states|
    requires forall k :: 0 <= k < n ==> !Answers(states[k], steps[k], target, false)
    ensures CursorHonest(states[n], target)
  {
    HonestExactly(states, steps, n, target);
  }

  // ---------------------------------------------------------------- a loss that is not repaired

  /** A client with one event and an empty state file. */
  function OneEvent(e: Event): State {
    State(iset{e.id}, [e], StateFile(map[], 0), map[], map[], [], {}, map[], {}, {})
  }

  lemma OneEventStarts(e: Event)
    requires Valid(e) && Unreserved(e) && e.sequence > 0
    ensures Start(OneEvent(e))
  {
    var s := OneEvent(e);
    forall target ensures StartOk(s, target) {
      assert s.log[..0] == [];
    }
  }

  lemma BeginOneEvent(e: Event, target: string, a: State, b: State)
    requires Valid(e) && e.sequence > 0
    requires a == OneEvent(e).With(0, Loaded(StateFile(map[], 0)))
    requires b == a.With(0, Flushing(StateFile(map[], 0), target, 0, [[e]], 0, None))
    ensures Takes(a, b, Begin(0, target, false, [[e]]))
  {
    FilterAll((x: Event) => x.sequence > 0, [e]);
    ConcatSingle([e]);
  }

  lemma SendOneEvent(e: Event, target: string, b: State, c: State)
    requires b.log == [e] && b.net == [] && b.At(0) == Flushing(StateFile(map[], 0), target, 0, [[e]], 0, None)
    requires c == b.(net := [Message(target, 0, [e])]).With(0, Flushing(StateFile(map[], 0), target, 0, [[e]], 0, Some(0)))
    ensures Takes(b, c, Post(0))
  {
    assert [[e]][..0] == [];
  }

  /** Loading the only event and posting it. */
  lemma PostOneEvent(e: Event, target: string) returns (a: State, b: State, c: State)
    requires Valid(e) && Unreserved(e) && e.sequence > 0
    ensures Takes(OneEvent(e), a, Load(0, true))
    ensures Takes(a, b, Begin(0, target, false, [[e]]))
    ensures Takes(b, c, Post(0))
    ensures c == OneEvent(e).(net := [Message(target, 0, [e])],
                              workers := map[0 := Flushing(StateFile(map[], 0), target, 0, [[e]], 0, Some(0))])
  {
    var file := StateFile(map[], 0);
    a := OneEvent(e).With(0, Loaded(file));
    b := a.With(0, Flushing(file, target, 0, [[e]], 0, None));
    BeginOneEvent(e, target, a, b);
    c := b.(net := [Message(target, 0, [e])]).With(0, Flushing(file, target, 0, [[e]], 0, Some(0)));
    SendOneEvent(e, target, b, c);
    assert c.workers == map[0 := Flushing(file, target, 0, [[e]], 0, Some(0))];
  }

  /** The reply is 200 although the database failed, and the client records the event as sent. */
  lemma LoseOneEvent(e: Event, target: string, c: State) returns (d: State, f: State, g: State, h: State)
    requires e.sequence > 0
    requires c == OneEvent(e).(net := [Message(target, 0, [e])],
                               workers := map[0 := Flushing(StateFile(map[], 0), target, 0, [[e]], 0, Some(0))])
    ensures Takes(c, d, DatabaseError(0)) && Takes(d, f, Ack(0)) && Takes(f, g, Finish(0)) && Takes(g, h, Save(0))
    ensures h.log == [e] && h.stores == map[] && CursorFor(h.disk, target) == e.sequence
  {
    d := Answered(c, 0).(dropped := c.dropped + IdsOf(target, [e]));
    f := d.With(0, Flushing(StateFile(map[], 0), target, 0, [[e]], 1, None));
    ConcatSingle([e]);
    g := f.With(0, Loaded(StateFile(map[target := e.sequence], 0)));
    h := g.(disk := g.At(0).file).With(0, Idle);
  }

  lemma SevenSteps(s0: State, s1: State, s2: State, s3: State, s4: State, s5: State, s6: State, s7: State)
    requires Start(s0) && Follows(s0, s1) && Follows(s1, s2) && Follows(s2, s3)
    requires Follows(s3, s4) && Follows(s4, s5) && Follows(s5, s6) && Follows(s6, s7)
    ensures Run([s0, s1, s2, s3, s4, s5, s6, s7])
  {
  }

  /** Because a failed database is answered 200, every valid event has a run in which it is lost for good. */
  lemma DatabaseErrorLosesEvents(e: Event, target: string) returns (states: seq<State>)
    requires Valid(e) && Unreserved(e) && e.sequence > 0
    ensures Run(states) && !CursorHonest(states[|states| - 1], target)
    ensures states[|states| - 1].log == [e] && CursorFor(states[|states| - 1].disk, target) == e.sequence
  {
    OneEventStarts(e);
    var a, b, c := PostOneEvent(e, target);
    var d, f, g, h := LoseOneEvent(e, target, c);
    states := [OneEvent(e), a, b, c, d, f, g, h];
    SevenSteps(OneEvent(e), a, b, c, d, f, g, h);
    assert h.log[0] == e && !HasId(h.Rows(target), e.id);
  }

  // ---------------------------------------------------------------- order

  /** The rows of a target that this client produced. */
  ghost function OwnRows(s: State, target: string): seq<Row> {
    Filter((r: Row) => r.id in s.own, s.Rows(target))
  }

  /**
   Until a database error, the server holds the rows of a prefix of the log's valid events, in
   sequence order, whatever was lost, delayed or delivered again.
   */
  lemma RowsAreAPrefix(states: seq<State>, n: nat, target: string)
    requires Run(states) && n < |states| && NothingDropped(states[n], target)
    ensures var s := states[n];
            && s.Frontier(target) <= |s.log|
            && OwnRows(s, target) == RowsFor(s.log[..s.Frontier(target)])
            && (forall i :: 0 <= i < |s.log| && s.log[i].sequence <= CursorFor(s.disk, target) ==> i < s.Frontier(target))
  {
    RunInv(states, n, target);
  }

  /** Is this a row about the given session and kind of event? */
  predicate About(r: Row, session: string, name: string) {
    r.session == session && r.name == name
  }

  function LatestRow(rows: seq<Row>, session: string, name: string): Option<Row> {
    if rows == [] then None
    else if About(rows[|rows| - 1], session, name) then Some(rows[|rows| - 1])
    else LatestRow(rows[..|rows| - 1], session, name)
  }

  /** The client's own answer: its latest valid event of that kind for the session. */
  function LatestEvent(events: seq<Event>, session: string, name: string): Option<Event> {
    if events == [] then None
    else
      var last := events[|events| - 1];
      if Valid(last) && last.session == session && last.name == name then Some(last)
      else LatestEvent(events[..|events| - 1], session, name)
  }

  /** The latest row is one about them that no other follows. */
  lemma {:induction false} LatestRowExactly(rows: seq<Row>, session: string, name: string)
    ensures LatestRow(rows, session, name).Some? ==> LastAbout(rows, session, name, LatestRow(rows, session, name).value)
    ensures LatestRow(rows, session, name).None? ==> forall i :: 0 <= i < |rows| ==> !(rows[i].session == session && rows[i].name == name)
  {
    if rows != [] {
      var front, last := rows[..|rows| - 1], rows[|rows| - 1];
      LatestRowExactly(front, session, name);
      assert rows == front + [last];
      if About(last, session, name) {
        assert rows[|rows| - 1] == last;
      } else if LatestRow(front, session, name).Some? {
        LastAboutStill(front, last, session, name, LatestRow(front, session, name).value);
      } else {
        assert forall i :: 0 <= i < |front| ==> front[i] == rows[i];
      }
    }
  }

  ghost predicate LastAbout(rows: seq<Row>, session: string, name: string, r: Row) {
    exists i :: 0 <= i < |rows| && rows[i] == r && r.session == session && r.name == name &&
                forall j :: i < j < |rows| ==> !(rows[j].session == session && rows[j].name == name)
  }

  lemma LastAboutStill(front: seq<Row>, last: Row, session: string, name: string, r: Row)
    requires LastAbout(front, session, name, r) && !About(last, session, name)
    ensures LastAbout(front + [last], session, name, r)
  {
    var i :| 0 <= i < |front| && front[i] == r && r.session == session && r.name == name &&
             forall j :: i < j < |front| ==> !(front[j].session == session && front[j].name == name);
    assert (front + [last])[i] == r;
  }

  /** The row of an optional event. */
  ghost predicate RowOfLatest(row: Option<Row>, event: Option<Event>) {
    match event
    case None => row.None?
    case Some(e) => e.attributes.Some? && row == Some(RowFor(e))
  }

  lemma {:induction false} LatestOfRows(events: seq<Event>, session: string, name: string)
    ensures RowOfLatest(LatestRow(RowsFor(events), session, name), LatestEvent(events, session, name))
  {
    if events != [] {
      var front, last := events[..|events| - 1], events[|events| - 1];
      LatestOfRows(front, session, name);
      if Valid(last) {
        assert RowsFor(events)[..|RowsFor(front)|] == RowsFor(front);
      } else {
        assert RowsFor(events) == RowsFor(front);
      }
    }
  }

  /**
   "Latest row per session and event name" on the server is the client's answer on the prefix that
   has arrived, and the client's answer outright once the cursor has reached the last event.
   */
  lemma LatestAgrees(states: seq<State>, n: nat, target: string, session: string, name: string)
    requires Run(states) && n < |states| && NothingDropped(states[n], target)
    ensures var s := states[n];
            var latest := LatestRow(OwnRows(s, target), session, name);
            && s.Frontier(target) <= |s.log|
            && RowOfLatest(latest, LatestEvent(s.log[..s.Frontier(target)], session, name))
            && (CursorFor(s.disk, target) == LastSequence(s.log) ==>
                  RowOfLatest(latest, LatestEvent(s.log, session, name)))
  {
    var s := states[n];
    RowsAreAPrefix(states, n, target);
    LatestOfRows(s.log[..s.Frontier(target)], session, name);
    if CursorFor(s.disk, target) == LastSequence(s.log) {
      assert s.log != [] ==> |s.log| - 1 < s.Frontier(target);
      assert s.log[..s.Frontier(target)] == s.log;
    }
  }
}
