/**
 The gauge flush to one target as a step machine: one flusher, events appended at any moment
 (also between reading the largest sequence number and evaluating the views), any number of
 processes writing back old snapshots of the state file, and a target that may reject points
 behind a 200 or get a post after the flush has given it up.
 */
module MetricsFlush {
  import opened EventRecords

  /** A gauge series: the tags of a row of the PR view, or of a row of the weekly session view. */
  datatype Series = PRSeries(tags: string) | WeeklySeries(tags: string)

  type Rows = map<Series, string>

  /** The two views, as any functions of the event log that know of no row before the first event. */
  datatype Views = Views(pr: seq<Event> -> Rows, weekly: seq<Event> -> Rows) {
    ghost predicate Valid() {
      && pr([]) == map[] && weekly([]) == map[]
      && (forall log, k :: k in pr(log) ==> k.PRSeries?)
      && (forall log, k :: k in weekly(log) ==> k.WeeklySeries?)
    }
  }

  datatype Flusher =
    | Idle
    | Loaded(cursor: int)
    | Measured(cursor: int, top: int)
    | HalfEvaluated(cursor: int, top: int, prRows: Rows)
    | Sending(cursor: int, top: int, rows: Rows, batches: seq<Rows>, done: nat)

  /**
   received holds, for every series, the value the target got last. pending are posts given up on that
   may still arrive. stale records history: the series whose last point was rejected behind a 200,
   or arrived after the flush had given up on it.
   */
  datatype State = State(
    log: seq<Event>,
    disk: int,
    flusher: Flusher,
    holders: map<nat, int>,
    received: Rows,
    pending: seq<Rows>,
    stale: set<Series>)
  {
    /** A batch arrives, and the target rejects the points of some series. */
    function Arrive(batch: Rows, rejected: set<Series>): State {
      this.(received := received + (batch - rejected), stale := (stale - batch.Keys) + (batch.Keys * rejected))
    }
  }

  datatype Step =
    | Append(e: Event)
    | Snapshot(w: nat)
    | WriteBack(w: nat)
    | Load(readable: bool)
    | Measure(full: bool)
    | EvaluatePR
    | EvaluateWeekly(batches: seq<Rows>)
    | Send(rejected: set<Series>)
    | SendFails
    | AnswerLost(rejected: set<Series>)
    | ArriveLate(i: nat)
    | Finish
    | Save
    | Die

  /** maxLocalSequence */
  function Top(log: seq<Event>): int {
    if log == [] then 0 else log[|log| - 1].sequence
  }

  /** The batches hold rows of the whole, and every row is in one of them. */
  ghost predicate BatchesOf(batches: seq<Rows>, rows: Rows) {
    && (forall i, k :: 0 <= i < |batches| && k in batches[i] ==> k in rows && batches[i][k] == rows[k])
    && (forall k :: k in rows ==> exists i :: 0 <= i < |batches| && k in batches[i])
  }

  ghost predicate Takes(v: Views, s: State, t: State, step: Step) {
    match step
    case Append(e) => e.sequence > Top(s.log) && t == s.(log := s.log + [e])
    case Snapshot(w) => t == s.(holders := s.holders[w := s.disk])
    case WriteBack(w) => w in s.holders && t == s.(disk := s.holders[w], holders := s.holders - {w})
    case Load(readable) => s.flusher.Idle? && t == s.(flusher := Loaded(if readable then s.disk else 0))
    case Measure(full) =>
      && s.flusher.Loaded? && (full || Top(s.log) > s.flusher.cursor)
      && t == s.(flusher := Measured(s.flusher.cursor, Top(s.log)))
    case EvaluatePR =>
      && s.flusher.Measured?
      && t == s.(flusher := HalfEvaluated(s.flusher.cursor, s.flusher.top, v.pr(s.log)))
    case EvaluateWeekly(batches) =>
      && s.flusher.HalfEvaluated?
      && var rows := s.flusher.prRows + v.weekly(s.log);
      && BatchesOf(batches, rows)
      && t == s.(flusher := Sending(s.flusher.cursor, s.flusher.top, rows, batches, 0))
    case Send(rejected) =>
      && s.flusher.Sending? && s.flusher.done < |s.flusher.batches|
      && t == s.Arrive(s.flusher.batches[s.flusher.done], rejected).(flusher := s.flusher.(done := s.flusher.done + 1))
    case SendFails =>
      && s.flusher.Sending? && s.flusher.done < |s.flusher.batches|
      && t == s.(pending := s.pending + [s.flusher.batches[s.flusher.done]], flusher := Loaded(s.flusher.cursor))
    case AnswerLost(rejected) =>
      && s.flusher.Sending? && s.flusher.done < |s.flusher.batches|
      && t == s.Arrive(s.flusher.batches[s.flusher.done], rejected).(flusher := Loaded(s.flusher.cursor))
    case ArriveLate(i) =>
      && i < |s.pending|
      && t == s.(received := s.received + s.pending[i], stale := s.stale + s.pending[i].Keys)
    case Finish =>
      && s.flusher.Sending? && s.flusher.done == |s.flusher.batches|
      && t == s.(flusher := Loaded(s.flusher.top))
    case Save => s.flusher.Loaded? && t == s.(disk := s.flusher.cursor, flusher := Idle)
    case Die => t == s.(flusher := Idle)
  }

  ghost predicate Start(s: State) {
    && s.disk == 0 && s.flusher.Idle? && s.holders == map[] && s.received == map[]
    && s.pending == [] && s.stale == {}
    && Increasing(s.log)
  }

  ghost predicate Increasing(log: seq<Event>) {
    && (forall i :: 0 <= i < |log| ==> log[i].sequence > 0)
    && (forall i, j :: 0 <= i < j < |log| ==> log[i].sequence < log[j].sequence)
  }

  ghost predicate Follows(v: Views, s: State, t: State) {
    exists step :: Takes(v, s, t, step)
  }

  ghost predicate Run(v: Views, states: seq<State>) {
    && states != [] && Start(states[0])
    && forall i, j :: 0 <= i && j == i + 1 && j < |states| ==> Follows(v, states[i], states[j])
  }

  // ---------------------------------------------------------------- freshness

  /** The current rows of both views. */
  ghost function CurrentRows(v: Views, s: State): Rows {
    v.pr(s.log) + v.weekly(s.log)
  }

  /** The target's last value of every current row is the row's current value, except where it went stale. */
  ghost predicate Fresh(v: Views, s: State) {
    forall k :: k in CurrentRows(v, s) && k !in s.stale ==> k in s.received && s.received[k] == CurrentRows(v, s)[k]
  }

  /** A cursor that has reached the end of the log is a promise that the target is up to date. */
  ghost predicate Honest(v: Views, s: State, cursor: int) {
    cursor <= Top(s.log) && (cursor == Top(s.log) ==> Fresh(v, s))
  }

  /** No cursor anywhere is ahead of what the flusher has measured. */
  ghost predicate NoneAhead(s: State, cursor: int, top: int) {
    cursor <= top <= Top(s.log) && s.disk <= top && forall w :: w in s.holders ==> s.holders[w] <= top
  }

  /** Everything in the first done batches has reached the target last, except where it went stale. */
  ghost predicate Sent(s: State, rows: Rows, batches: seq<Rows>, done: nat) {
    && done <= |batches|
    && forall i, k :: 0 <= i < done && k in batches[i] && k !in s.stale ==> k in s.received && k in rows && s.received[k] == rows[k]
  }

  /** What the flusher has evaluated or sent so far is current, unless the log has grown since. */
  ghost predicate FlusherOk(v: Views, s: State) {
    match s.flusher
    case Idle => true
    case Loaded(cursor) => Honest(v, s, cursor)
    case Measured(cursor, top) => Honest(v, s, cursor) && NoneAhead(s, cursor, top)
    case HalfEvaluated(cursor, top, prRows) =>
      && Honest(v, s, cursor) && NoneAhead(s, cursor, top)
      && (top == Top(s.log) ==> prRows == v.pr(s.log))
    case Sending(cursor, top, rows, batches, done) =>
      && Honest(v, s, cursor) && NoneAhead(s, cursor, top)
      && (top == Top(s.log) ==> rows == CurrentRows(v, s))
      && BatchesOf(batches, rows) && Sent(s, rows, batches, done)
  }

  ghost predicate Inv(v: Views, s: State) {
    && Increasing(s.log)
    && Honest(v, s, s.disk)
    && (forall w :: w in s.holders ==> Honest(v, s, s.holders[w]))
    && FlusherOk(v, s)
  }

  lemma StartInv(v: Views, s: State)
    requires v.Valid() && Start(s)
    ensures Inv(v, s)
  {
    if s.log == [] {
      assert CurrentRows(v, s) == map[];
    }
  }

  lemma AppendInv(v: Views, s: State, t: State, e: Event)
    requires Inv(v, s) && Takes(v, s, t, Append(e))
    ensures Inv(v, t)
  {
  }

  /** A batch of rows that are all current keeps the target fresh. */
  lemma SendKeepsFresh(v: Views, s: State, batch: Rows, rejected: set<Series>, rows: Rows)
    requires Fresh(v, s) && rows == CurrentRows(v, s)
    requires forall k :: k in batch ==> k in rows && batch[k] == rows[k]
    ensures Fresh(v, s.Arrive(batch, rejected))
  {
  }

  lemma SendKeepsHonest(v: Views, s: State, t: State, rejected: set<Series>, cursor: int)
    requires s.flusher.Sending? && FlusherOk(v, s) && Honest(v, s, cursor) && cursor <= s.flusher.top
    requires s.flusher.done < |s.flusher.batches|
    requires t == s.Arrive(s.flusher.batches[s.flusher.done], rejected).(flusher := t.flusher)
    ensures Honest(v, t, cursor)
  {
    if cursor == Top(s.log) {
      SendKeepsFresh(v, s, s.flusher.batches[s.flusher.done], rejected, s.flusher.rows);
    }
  }

  lemma SentNext(s: State, rows: Rows, batches: seq<Rows>, done: nat, rejected: set<Series>)
    requires BatchesOf(batches, rows) && Sent(s, rows, batches, done) && done < |batches|
    ensures Sent(s.Arrive(batches[done], rejected), rows, batches, done + 1)
  {
  }

  /** A post arrives, answered or not. */
  lemma ArriveInv(v: Views, s: State, t: State, rejected: set<Series>)
    requires Inv(v, s) && (Takes(v, s, t, Send(rejected)) || Takes(v, s, t, AnswerLost(rejected)))
    ensures Inv(v, t)
  {
    SendKeepsHonest(v, s, t, rejected, s.disk);
    SendKeepsHonest(v, s, t, rejected, s.flusher.cursor);
    forall w | w in t.holders ensures Honest(v, t, t.holders[w]) {
      SendKeepsHonest(v, s, t, rejected, s.holders[w]);
    }
    SentNext(s, s.flusher.rows, s.flusher.batches, s.flusher.done, rejected);
  }

  lemma LateKeepsHonest(v: Views, s: State, t: State, i: nat, cursor: int)
    requires Takes(v, s, t, ArriveLate(i)) && Honest(v, s, cursor)
    ensures Honest(v, t, cursor)
  {
  }

  lemma ArriveLateInv(v: Views, s: State, t: State, i: nat)
    requires Inv(v, s) && Takes(v, s, t, ArriveLate(i))
    ensures Inv(v, t)
  {
    LateKeepsHonest(v, s, t, i, s.disk);
    forall w | w in t.holders ensures Honest(v, t, t.holders[w]) {
      LateKeepsHonest(v, s, t, i, s.holders[w]);
    }
    if !s.flusher.Idle? { LateKeepsHonest(v, s, t, i, s.flusher.cursor); }
  }

  /** After the last batch the measured end of the log is an honest cursor. */
  lemma FinishInv(v: Views, s: State, t: State)
    requires Inv(v, s) && Takes(v, s, t, Finish)
    ensures Inv(v, t)
  {
    var at := s.flusher;
    if at.top == Top(s.log) {
      forall k | k in CurrentRows(v, s) && k !in s.stale
        ensures k in s.received && s.received[k] == CurrentRows(v, s)[k]
      {
        var i :| 0 <= i < |at.batches| && k in at.batches[i];
      }
    }
  }

  /** Starting from zero is honest: a log with events is ahead of it, one without has no rows. */
  lemma ZeroHonest(v: Views, s: State)
    requires Increasing(s.log) && v.Valid()
    ensures Honest(v, s, 0)
  {
    if s.log == [] {
      assert CurrentRows(v, s) == map[];
    }
  }

  lemma StepInv(v: Views, s: State, t: State, step: Step)
    requires v.Valid() && Inv(v, s) && Takes(v, s, t, step)
    ensures Inv(v, t)
  {
    match step
    case Append(e) => AppendInv(v, s, t, e);
    case Send(rejected) => ArriveInv(v, s, t, rejected);
    case SendFails =>
    case AnswerLost(rejected) => ArriveInv(v, s, t, rejected);
    case ArriveLate(i) => ArriveLateInv(v, s, t, i);
    case Finish => FinishInv(v, s, t);
    case Snapshot(_) => HolderInv(v, s, t, step);
    case WriteBack(_) => HolderInv(v, s, t, step);
    case Load(readable) => ZeroHonest(v, s);
    case Measure(_) => EvaluationInv(v, s, t, step);
    case EvaluatePR => EvaluationInv(v, s, t, step);
    case EvaluateWeekly(_) => EvaluationInv(v, s, t, step);
    case Save =>
    case Die =>
  }

  lemma HolderInv(v: Views, s: State, t: State, step: Step)
    requires Inv(v, s) && Takes(v, s, t, step) && (step.Snapshot? || step.WriteBack?)
    ensures Inv(v, t)
  {
  }

  lemma EvaluationInv(v: Views, s: State, t: State, step: Step)
    requires Inv(v, s) && Takes(v, s, t, step)
    requires step.Measure? || step.EvaluatePR? || step.EvaluateWeekly?
    ensures Inv(v, t)
  {
  }

  lemma FollowsInv(v: Views, s: State, t: State)
    requires v.Valid() && Inv(v, s) && Follows(v, s, t)
    ensures Inv(v, t)
  {
    var step :| Takes(v, s, t, step);
    StepInv(v, s, t, step);
  }

  lemma {:induction false} RunInv(v: Views, states: seq<State>, n: nat)
    requires v.Valid() && Run(v, states) && n < |states|
    ensures Inv(v, states[n])
    decreases n
  {
    if n == 0 {
      StartInv(v, states[0]);
    } else {
      RunInv(v, states, n - 1);
      assert Follows(v, states[n - 1], states[n]);
      FollowsInv(v, states[n - 1], states[n]);
    }
  }

  /** The flusher has loaded its state and would report the target as up to date. */
  predicate SaysUpToDate(s: State) {
    s.flusher.Loaded? && Top(s.log) <= s.flusher.cursor
  }

  /**
   Whenever the flush says up to date, the target's last value of every current row is its current value,
   unless that value was rejected behind a 200 or overtaken by a post that had been given up.
   */
  lemma UpToDateIsFresh(v: Views, states: seq<State>, n: nat)
    requires v.Valid() && Run(v, states) && n < |states| && SaysUpToDate(states[n])
    ensures Fresh(v, states[n])
    ensures states[n].stale == {} ==> forall k :: k in CurrentRows(v, states[n]) ==>
              k in states[n].received && states[n].received[k] == CurrentRows(v, states[n])[k]
  {
    RunInv(v, states, n);
  }

  // ---------------------------------------------------------------- a flush brings the target up to date

  lemma RunGoesOn(v: Views, states: seq<State>, t: State, step: Step)
    requires Run(v, states) && Takes(v, states[|states| - 1], t, step)
    ensures Run(v, states + [t])
  {
    assert Follows(v, states[|states| - 1], t);
  }

  lemma OneBatch(rows: Rows)
    ensures BatchesOf([rows], rows)
  {
    forall k | k in rows
      ensures exists i :: 0 <= i < 1 && k in [rows][i]
    {
      assert k in [rows][0];
    }
  }

  /** From measuring to having evaluated both views. */
  lemma Evaluate(v: Views, states: seq<State>) returns (whole: seq<State>)
    requires Run(v, states) && states[|states| - 1].flusher.Loaded?
    ensures states <= whole && Run(v, whole)
    ensures var s, t := states[|states| - 1], whole[|whole| - 1];
            t == s.(flusher := Sending(s.flusher.cursor, Top(s.log), CurrentRows(v, s), [CurrentRows(v, s)], 0))
  {
    var s := states[|states| - 1];
    var measured := s.(flusher := Measured(s.flusher.cursor, Top(s.log)));
    assert Takes(v, s, measured, Measure(true));
    RunGoesOn(v, states, measured, Measure(true));
    var half := measured.(flusher := HalfEvaluated(s.flusher.cursor, Top(s.log), v.pr(s.log)));
    assert Takes(v, measured, half, EvaluatePR);
    RunGoesOn(v, states + [measured], half, EvaluatePR);
    var rows := v.pr(s.log) + v.weekly(s.log);
    OneBatch(rows);
    var sending := half.(flusher := Sending(s.flusher.cursor, Top(s.log), rows, [rows], 0));
    assert Takes(v, half, sending, EvaluateWeekly([rows]));
    RunGoesOn(v, states + [measured] + [half], sending, EvaluateWeekly([rows]));
    whole := states + [measured] + [half] + [sending];
  }

  /**
   A flush whose post is accepted, with nothing rejected, leaves a cursor that says up to date, and the
   target's last value of every current row is its current value, whatever went stale before.
   */
  lemma FlushBringsUpToDate(v: Views, states: seq<State>) returns (whole: seq<State>)
    requires v.Valid() && Run(v, states) && states[|states| - 1].flusher.Loaded?
    ensures states <= whole && Run(v, whole)
    ensures var t := whole[|whole| - 1];
            && t.log == states[|states| - 1].log && t.flusher == Loaded(Top(t.log)) && SaysUpToDate(t)
            && forall k :: k in CurrentRows(v, t) ==> k in t.received && t.received[k] == CurrentRows(v, t)[k]
  {
    var evaluated := Evaluate(v, states);
    var s := evaluated[|evaluated| - 1];
    var sent := s.Arrive(s.flusher.rows, {}).(flusher := s.flusher.(done := 1));
    assert Takes(v, s, sent, Send({}));
    RunGoesOn(v, evaluated, sent, Send({}));
    var done := sent.(flusher := Loaded(sent.flusher.top));
    assert Takes(v, sent, done, Finish);
    RunGoesOn(v, evaluated + [sent], done, Finish);
    whole := evaluated + [sent] + [done];
    UpToDateIsFresh(v, whole, |whole| - 1);
  }

  // ---------------------------------------------------------------- what the environment may do

  lemma EventsCanBeRecorded(v: Views, states: seq<State>, e: Event) returns (whole: seq<State>)
    requires Run(v, states) && e.sequence > Top(states[|states| - 1].log)
    ensures states <= whole && Run(v, whole)
    ensures whole[|whole| - 1] == states[|states| - 1].(log := states[|states| - 1].log + [e])
  {
    var t := states[|states| - 1].(log := states[|states| - 1].log + [e]);
    RunGoesOn(v, states, t, Append(e));
    whole := states + [t];
  }

  /** A snapshot of the state file can be written back later, whatever the file says by then. */
  lemma SnapshotsComeBack(v: Views, states: seq<State>, w: nat) returns (whole: seq<State>)
    requires Run(v, states) && w in states[|states| - 1].holders
    ensures states <= whole && Run(v, whole)
    ensures whole[|whole| - 1].disk == states[|states| - 1].holders[w]
  {
    var s := states[|states| - 1];
    var t := s.(disk := s.holders[w], holders := s.holders - {w});
    RunGoesOn(v, states, t, WriteBack(w));
    whole := states + [t];
  }

  /** A post can fail and still arrive later, on top of whatever the target has got since. */
  lemma PostsComeLate(v: Views, states: seq<State>, i: nat) returns (whole: seq<State>)
    requires Run(v, states) && i < |states[|states| - 1].pending|
    ensures states <= whole && Run(v, whole)
    ensures whole[|whole| - 1].received == states[|states| - 1].received + states[|states| - 1].pending[i]
  {
    var s := states[|states| - 1];
    var t := s.(received := s.received + s.pending[i], stale := s.stale + s.pending[i].Keys);
    RunGoesOn(v, states, t, ArriveLate(i));
    whole := states + [t];
  }

  lemma PostsCanFail(v: Views, states: seq<State>) returns (whole: seq<State>)
    requires Run(v, states) && states[|states| - 1].flusher.Sending?
    requires states[|states| - 1].flusher.done < |states[|states| - 1].flusher.batches|
    ensures states <= whole && Run(v, whole)
    ensures var s, t := states[|states| - 1], whole[|whole| - 1];
            t.pending == s.pending + [s.flusher.batches[s.flusher.done]] && t.received == s.received && t.disk == s.disk
  {
    var s := states[|states| - 1];
    var t := s.(pending := s.pending + [s.flusher.batches[s.flusher.done]], flusher := Loaded(s.flusher.cursor));
    RunGoesOn(v, states, t, SendFails);
    whole := states + [t];
  }
}
