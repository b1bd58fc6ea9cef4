/**
 One flush run over all export targets, as the code performs it on the shared state file: with
 distinct target ids it is the product of one flush per target.
 */
module FlushRun {
  import opened Common
  import opened BatchSplitting
  import opened EventRecords
  import opened FlushProtocol
  import opened FlushInvariant
  import Config

  /** addressable: the endpoint is a URL that post addresses can be derived from. */
  datatype Target = Target(id: string, configured: bool, sendsLogs: bool, sendsMetrics: bool, addressable: bool)

  /** The outcome of one post: an answer with a number of rejected records, or a transport failure. */
  datatype Outcome = Accepted(rejected: nat) | Failed

  /** What one target answers to the posts of this run, in order; beyond the list it does not answer. */
  datatype Replies = Replies(logs: seq<Outcome>, metrics: seq<Outcome>)

  function Reply(outcomes: seq<Outcome>, i: nat): Outcome {
    if i < |outcomes| then outcomes[i] else Failed
  }

  predicate AllAccepted(outcomes: seq<Outcome>, n: nat) {
    forall i :: 0 <= i < n ==> Reply(outcomes, i).Accepted?
  }

  /** The records rejected by the first n posts, up to the first one that is not answered. */
  function RejectedBy(outcomes: seq<Outcome>, n: nat): nat {
    if n == 0 then 0
    else if AllAccepted(outcomes, n) then RejectedBy(outcomes, n - 1) + Reply(outcomes, n - 1).rejected
    else RejectedBy(outcomes, n - 1)
  }

  lemma {:induction false} StopsAtFailure(outcomes: seq<Outcome>, i: nat, n: nat)
    requires i < n && Reply(outcomes, i).Failed?
    ensures RejectedBy(outcomes, n) == RejectedBy(outcomes, i)
  {
    if n > i + 1 { StopsAtFailure(outcomes, i, n - 1); }
  }

  datatype Options = Options(full: bool, dryRun: bool)

  /** How event batches are sized: the bytes of a payload, and the cap. */
  datatype Limits = Limits(size: seq<Event> -> nat, cap: int)

  // ---------------------------------------------------------------- what one target's flush does

  /** The new logs cursor, or None when it stays where it is. */
  function NextLogsCursor(t: Target, cursor: int, log: seq<Event>, opts: Options, limits: Limits, replies: seq<Outcome>): Option<int> {
    var events := LoadEvents(log, if opts.full then 0 else cursor);
    if events == [] || opts.dryRun || !t.addressable || !(forall e :: e in events ==> e.attributes.Some?) then None
    else if AllAccepted(replies, |GreedySplit(events, limits.size, limits.cap)|) then Some(LastSequence(events))
    else None
  }

  /**
   The new metrics cursor, or None; batches is the number of gauge payloads the views produce, or None
   when a view cannot be evaluated or a payload not be encoded.
   */
  function NextMetricsCursor(t: Target, cursor: int, top: int, opts: Options, batches: Option<nat>, replies: seq<Outcome>): Option<int> {
    if (!opts.full && top <= cursor) || batches.None? || opts.dryRun || !t.addressable then None
    else if AllAccepted(replies, batches.value) then Some(top)
    else None
  }

  // ---------------------------------------------------------------- where a cursor moves

  /** A logs cursor moves to the end of the log and nowhere else. */
  lemma CursorIsEnd(t: Target, cursor: int, log: seq<Event>, opts: Options, limits: Limits, replies: seq<Outcome>, c: int)
    requires Increasing(log) && NextLogsCursor(t, cursor, log, opts, limits, replies) == Some(c)
    ensures log != [] && c == log[|log| - 1].sequence
  {
    LoadIsSuffix(log, if opts.full then 0 else cursor);
  }

  lemma SequencesAround(log: seq<Event>, later: seq<Event>, c: int)
    requires Increasing(log + later) && log != [] && c == log[|log| - 1].sequence
    ensures forall i :: 0 <= i < |log| ==> log[i].sequence <= c
    ensures forall i :: 0 <= i < |later| ==> later[i].sequence > c
  {
    var all, last := log + later, |log| - 1;
    assert all[last] == log[last];
    forall i | 0 <= i < |log|
      ensures log[i].sequence <= c
    {
      assert all[i] == log[i];
    }
    forall i | 0 <= i < |later|
      ensures later[i].sequence > c
    {
      assert all[|log| + i] == later[i];
    }
  }

  lemma AfterTheEnd(log: seq<Event>, later: seq<Event>, c: int)
    requires Increasing(log + later) && log != [] && c == log[|log| - 1].sequence
    ensures forall e :: e in log ==> e.sequence <= c
    ensures forall e :: e in later ==> e.sequence > c
    ensures Filter((e: Event) => e.sequence > c, log + later) == later
  {
    SequencesAround(log, later, c);
    var keep := (e: Event) => e.sequence > c;
    FilterAppend(keep, log, later);
    FilterNone(keep, log);
    FilterAll(keep, later);
    assert [] + later == later;
  }

  /**
   Nothing is skipped and nothing sent twice: once a logs flush has moved the cursor, the events after
   it are exactly those appended since, whatever is appended.
   */
  lemma NothingIsSkipped(t: Target, cursor: int, log: seq<Event>, later: seq<Event>, opts: Options, limits: Limits,
                         replies: seq<Outcome>, c: int)
    requires Increasing(log + later) && NextLogsCursor(t, cursor, log, opts, limits, replies) == Some(c)
    ensures forall e :: e in log ==> e.sequence <= c
    ensures forall e :: e in later ==> e.sequence > c
    ensures Filter((e: Event) => e.sequence > c, log + later) == later
  {
    assert forall i :: 0 <= i < |log| ==> (log + later)[i] == log[i];
    CursorIsEnd(t, cursor, log, opts, limits, replies, c);
    AfterTheEnd(log, later, c);
  }

  /** The same for a metrics flush of what was measured at the end of the log. */
  lemma NothingIsUnmeasured(t: Target, cursor: int, log: seq<Event>, later: seq<Event>, opts: Options, batches: Option<nat>,
                            replies: seq<Outcome>, c: int)
    requires Increasing(log + later) && forall i :: 0 <= i < |later| ==> later[i].sequence > 0
    requires NextMetricsCursor(t, cursor, LastSequence(log), opts, batches, replies) == Some(c)
    ensures forall e :: e in log ==> e.sequence <= c
    ensures forall e :: e in later ==> e.sequence > c
    ensures Filter((e: Event) => e.sequence > c, log + later) == later
  {
    if log == [] {
      assert log + later == later;
      FilterAll((e: Event) => e.sequence > c, later);
    } else {
      AfterTheEnd(log, later, c);
    }
  }

  /** Some answers let a metrics cursor move exactly when it is behind, or in full, and there are payloads to send to a URL. */
  lemma MetricsCanAdvanceExactly(t: Target, cursor: int, log: seq<Event>, opts: Options, batches: Option<nat>)
    requires Increasing(log) && cursor >= 0
    ensures (exists replies :: NextMetricsCursor(t, cursor, LastSequence(log), opts, batches, replies).Some?) <==>
            (opts.full || exists e :: e in log && e.sequence > cursor) && batches.Some? && !opts.dryRun && t.addressable
  {
    if log != [] { assert log[|log| - 1] in log; }
    assert LastSequence(log) > cursor <==> exists e :: e in log && e.sequence > cursor;
    if (opts.full || LastSequence(log) > cursor) && batches.Some? && !opts.dryRun && t.addressable {
      var replies := seq(batches.value, i => Accepted(0));
      assert AllAccepted(replies, batches.value);
      assert NextMetricsCursor(t, cursor, LastSequence(log), opts, batches, replies).Some?;
    }
  }

  /** What an upgraded client with one old cursor sends first: to the server what is new, to any other target everything. */
  lemma FirstFlushAfterUpgrade(log: seq<Event>, single: int, target: string)
    requires forall i :: 0 <= i < |log| ==> log[i].sequence > 0
    ensures LoadEvents(log, CursorFor(StateFile(map[], single), target)) ==
            if target == "server" then Filter((e: Event) => e.sequence > single, log) else log
  {
    if target != "server" {
      FilterAll((e: Event) => e.sequence > 0, log);
    }
  }

  function Moved(cursors: map<string, int>, id: string, next: Option<int>): map<string, int> {
    match next
    case None => cursors
    case Some(cursor) => cursors[id := cursor]
  }

  function MetricsCursorFor(cursors: map<string, int>, id: string): int {
    if id in cursors then cursors[id] else 0
  }

  function Entry(cursors: map<string, int>, id: string): Option<int> {
    if id in cursors then Some(cursors[id]) else None
  }

  function RepliesOf(replies: map<string, Replies>, id: string): Replies {
    if id in replies then replies[id] else Replies([], [])
  }

  ghost predicate DistinctTargets(targets: seq<Target>) {
    forall i, j :: 0 <= i < j < |targets| ==> targets[i].id != targets[j].id
  }

  predicate WantsLogs(t: Target) {
    t.configured && t.sendsLogs
  }

  predicate WantsMetrics(t: Target) {
    t.configured && t.sendsMetrics
  }

  /** The target with this id. */
  function Find(targets: seq<Target>, id: string): Option<Target> {
    if targets == [] then None
    else if targets[|targets| - 1].id == id then Some(targets[|targets| - 1])
    else Find(targets[..|targets| - 1], id)
  }

  lemma {:induction false} FindIs(targets: seq<Target>, id: string)
    ensures Find(targets, id).None? <==> forall i :: 0 <= i < |targets| ==> targets[i].id != id
  {
    if targets != [] {
      FindIs(targets[..|targets| - 1], id);
    }
  }

  lemma FindNext(targets: seq<Target>, i: nat, id: string)
    requires DistinctTargets(targets) && i < |targets|
    ensures Find(targets[..i + 1], id) == if targets[i].id == id then Some(targets[i]) else Find(targets[..i], id)
    ensures targets[i].id == id ==> Find(targets[..i], id).None?
  {
    assert targets[..i + 1][..i] == targets[..i];
    FindIs(targets[..i], id);
  }

  /** A cursor entry after the run, from the entry before it and the target's own next cursor. */
  function After(before: Option<int>, next: Option<int>): Option<int> {
    if next.Some? then next else before
  }

  /** One target's logs cursor after a run, as a function of that target and its replies alone. */
  function LogsEntry(before: StateFile, t: Option<Target>, id: string, log: seq<Event>, opts: Options, limits: Limits,
                     replies: map<string, Replies>): Option<int> {
    if t.Some? && WantsLogs(t.value) then
      After(Entry(before.flushCursors, id),
            NextLogsCursor(t.value, CursorFor(before, id), log, opts, limits, RepliesOf(replies, id).logs))
    else Entry(before.flushCursors, id)
  }

  function MetricsEntry(before: map<string, int>, t: Option<Target>, id: string, top: int, opts: Options,
                        batches: Option<nat>, replies: map<string, Replies>): Option<int> {
    if t.Some? && WantsMetrics(t.value) then
      After(Entry(before, id),
            NextMetricsCursor(t.value, MetricsCursorFor(before, id), top, opts, batches, RepliesOf(replies, id).metrics))
    else Entry(before, id)
  }

  ghost predicate LogsProduct(before: StateFile, after: map<string, int>, targets: seq<Target>, log: seq<Event>,
                              opts: Options, limits: Limits, replies: map<string, Replies>) {
    forall id :: Entry(after, id) == LogsEntry(before, Find(targets, id), id, log, opts, limits, replies)
  }

  ghost predicate MetricsProduct(before: map<string, int>, after: map<string, int>, targets: seq<Target>, top: int,
                                 opts: Options, batches: Option<nat>, replies: map<string, Replies>) {
    forall id :: Entry(after, id) == MetricsEntry(before, Find(targets, id), id, top, opts, batches, replies)
  }

  lemma LogsNext(before: StateFile, now: map<string, int>, targets: seq<Target>, i: nat, log: seq<Event>,
                 opts: Options, limits: Limits, replies: map<string, Replies>)
    requires DistinctTargets(targets) && i < |targets|
    requires LogsProduct(before, now, targets[..i], log, opts, limits, replies)
    ensures var t := targets[i];
            var next := NextLogsCursor(t, CursorFor(StateFile(now, before.lastFlushed), t.id), log, opts, limits,
                                       RepliesOf(replies, t.id).logs);
            var after := if WantsLogs(t) then Moved(now, t.id, next) else now;
            LogsProduct(before, after, targets[..i + 1], log, opts, limits, replies)
  {
    var t := targets[i];
    var next := NextLogsCursor(t, CursorFor(StateFile(now, before.lastFlushed), t.id), log, opts, limits,
                               RepliesOf(replies, t.id).logs);
    var after := if WantsLogs(t) then Moved(now, t.id, next) else now;
    forall id
      ensures Entry(after, id) == LogsEntry(before, Find(targets[..i + 1], id), id, log, opts, limits, replies)
    {
      FindNext(targets, i, id);
      assert Entry(now, id) == LogsEntry(before, Find(targets[..i], id), id, log, opts, limits, replies);
      if id == t.id {
        assert Entry(now, id) == Entry(before.flushCursors, id);
        assert CursorFor(StateFile(now, before.lastFlushed), id) == CursorFor(before, id);
      }
    }
  }

  lemma MetricsNext(before: map<string, int>, now: map<string, int>, targets: seq<Target>, i: nat, top: int,
                    opts: Options, batches: Option<nat>, replies: map<string, Replies>)
    requires DistinctTargets(targets) && i < |targets|
    requires MetricsProduct(before, now, targets[..i], top, opts, batches, replies)
    ensures var t := targets[i];
            var next := NextMetricsCursor(t, MetricsCursorFor(now, t.id), top, opts, batches, RepliesOf(replies, t.id).metrics);
            var after := if WantsMetrics(t) then Moved(now, t.id, next) else now;
            MetricsProduct(before, after, targets[..i + 1], top, opts, batches, replies)
  {
    var t := targets[i];
    var next := NextMetricsCursor(t, MetricsCursorFor(now, t.id), top, opts, batches, RepliesOf(replies, t.id).metrics);
    var after := if WantsMetrics(t) then Moved(now, t.id, next) else now;
    forall id
      ensures Entry(after, id) == MetricsEntry(before, Find(targets[..i + 1], id), id, top, opts, batches, replies)
    {
      FindNext(targets, i, id);
      assert Entry(now, id) == MetricsEntry(before, Find(targets[..i], id), id, top, opts, batches, replies);
      if id == t.id {
        assert Entry(now, id) == Entry(before, id);
        assert MetricsCursorFor(now, id) == MetricsCursorFor(before, id);
      }
    }
  }

  // ---------------------------------------------------------------- the code

  /** The flush's part of the state file. */
  class Cursors {
    var flush: map<string, int>
    var metrics: map<string, int>
    var lastFlushed: int

    function File(): StateFile
      reads this
    {
      StateFile(flush, lastFlushed)
    }

    /** sendBatches: stops at the first transport failure; rejected records do not stop it. */
    method SendBatches(t: Target, n: nat, outcomes: seq<Outcome>) returns (ok: bool, rejected: nat)
      ensures ok <==> t.addressable && AllAccepted(outcomes, n)
      ensures rejected == (if t.addressable then RejectedBy(outcomes, n) else 0)
    {
      ok, rejected := true, 0;
      if !t.addressable {
        return false, 0;
      }
      for i := 0 to n
        invariant ok && AllAccepted(outcomes, i) && rejected == RejectedBy(outcomes, i)
      {
        match Reply(outcomes, i)
        case Failed =>
          StopsAtFailure(outcomes, i, n);
          return false, rejected;
        case Accepted(r) => rejected := rejected + r;
      }
    }

    /** flushLogsToTarget */
    method FlushLogs(t: Target, log: seq<Event>, opts: Options, limits: Limits, replies: Replies) returns (dirty: bool)
      modifies this`flush
      ensures var next := NextLogsCursor(t, CursorFor(old(File()), t.id), log, opts, limits, replies.logs);
              flush == Moved(old(flush), t.id, next) && dirty == next.Some?
      ensures dirty && Increasing(log) ==> log != [] && t.id in flush && flush[t.id] == log[|log| - 1].sequence
    {
      ghost var next := NextLogsCursor(t, CursorFor(File(), t.id), log, opts, limits, replies.logs);
      if next.Some? && Increasing(log) { CursorIsEnd(t, CursorFor(File(), t.id), log, opts, limits, replies.logs, next.value); }
      var after := if opts.full then 0 else CursorFor(File(), t.id);
      var events := LoadEvents(log, after);
      var batches := SplitBatches(events, (e: Event) => e.attributes.Some?, limits.size, limits.cap);
      if batches.None? || opts.dryRun {
        return false;
      }
      var ok, _ := SendBatches(t, |batches.value|, replies.logs);
      if !ok || events == [] {
        return false;
      }
      flush := flush[t.id := LastSequence(events)];
      dirty := true;
    }

    /** flushMetricsToTarget */
    method FlushMetrics(t: Target, top: int, opts: Options, batches: Option<nat>, replies: Replies) returns (dirty: bool)
      modifies this`metrics
      ensures var next := NextMetricsCursor(t, MetricsCursorFor(old(metrics), t.id), top, opts, batches, replies.metrics);
              metrics == Moved(old(metrics), t.id, next) && dirty == next.Some?
    {
      var cursor := MetricsCursorFor(metrics, t.id);
      if !opts.full && top <= cursor {
        return false;
      }
      if batches.None? || opts.dryRun {
        return false;
      }
      var ok, _ := SendBatches(t, batches.value, replies.metrics);
      if !ok {
        return false;
      }
      metrics := metrics[t.id := top];
      dirty := true;
    }

    /** runFlushForAgent: the logs targets one after the other, then the metrics targets. */
    method Run(targets: seq<Target>, log: seq<Event>, opts: Options, limits: Limits, batches: Option<nat>, replies: map<string, Replies>)
      returns (dirty: bool)
      requires DistinctTargets(targets)
      modifies this`flush, this`metrics
      ensures LogsProduct(old(File()), flush, targets, log, opts, limits, replies)
      ensures MetricsProduct(old(metrics), metrics, targets, LastSequence(log), opts, batches, replies)
      ensures !dirty ==> flush == old(flush) && metrics == old(metrics)
    {
      dirty := RunLogs(targets, log, opts, limits, replies);
      var moved := RunMetrics(targets, LastSequence(log), opts, batches, replies);
      dirty := dirty || moved;
    }

    method RunLogs(targets: seq<Target>, log: seq<Event>, opts: Options, limits: Limits, replies: map<string, Replies>)
      returns (dirty: bool)
      requires DistinctTargets(targets)
      modifies this`flush
      ensures LogsProduct(old(File()), flush, targets, log, opts, limits, replies)
      ensures !dirty ==> flush == old(flush)
    {
      dirty := false;
      for i := 0 to |targets|
        invariant !dirty ==> flush == old(flush)
        invariant LogsProduct(old(File()), flush, targets[..i], log, opts, limits, replies)
      {
        LogsNext(old(File()), flush, targets, i, log, opts, limits, replies);
        var t := targets[i];
        if WantsLogs(t) {
          var moved := FlushLogs(t, log, opts, limits, RepliesOf(replies, t.id));
          dirty := dirty || moved;
        }
      }
      assert targets[..|targets|] == targets;
    }

    method RunMetrics(targets: seq<Target>, top: int, opts: Options, batches: Option<nat>, replies: map<string, Replies>)
      returns (dirty: bool)
      requires DistinctTargets(targets)
      modifies this`metrics
      ensures MetricsProduct(old(metrics), metrics, targets, top, opts, batches, replies)
      ensures !dirty ==> metrics == old(metrics)
    {
      dirty := false;
      for i := 0 to |targets|
        invariant !dirty ==> metrics == old(metrics)
        invariant MetricsProduct(old(metrics), metrics, targets[..i], top, opts, batches, replies)
      {
        MetricsNext(old(metrics), metrics, targets, i, top, opts, batches, replies);
        var t := targets[i];
        if WantsMetrics(t) {
          var moved := FlushMetrics(t, top, opts, batches, RepliesOf(replies, t.id));
          dirty := dirty || moved;
        }
      }
      assert targets[..|targets|] == targets;
    }
  }

  // ---------------------------------------------------------------- what a whole run leaves

  /**
   After a run over all targets, a logs cursor is as before or at the end of the log, and it has moved
   only for a target that is configured, wants logs, and got everything after its old cursor.
   */
  lemma RunMovesToTheEnd(before: StateFile, after: map<string, int>, targets: seq<Target>, log: seq<Event>, later: seq<Event>,
                         opts: Options, limits: Limits, replies: map<string, Replies>, id: string)
    requires LogsProduct(before, after, targets, log, opts, limits, replies) && Increasing(log + later)
    requires Entry(after, id) != Entry(before.flushCursors, id)
    ensures id in after && Filter((e: Event) => e.sequence > after[id], log + later) == later
    ensures exists t :: t in targets && t.id == id && t.configured && t.sendsLogs && t.addressable
  {
    assert Entry(after, id) == LogsEntry(before, Find(targets, id), id, log, opts, limits, replies);
    FindMember(targets, id);
    var t := Find(targets, id).value;
    NothingIsSkipped(t, CursorFor(before, id), log, later, opts, limits, RepliesOf(replies, id).logs, after[id]);
  }

  /**
   And it does move for every configured target that wants logs and accepts every post, when there is
   something after its cursor and all of that can be decoded.
   */
  lemma RunReachesTheEnd(before: StateFile, after: map<string, int>, targets: seq<Target>, log: seq<Event>,
                         opts: Options, limits: Limits, replies: map<string, Replies>, i: nat)
    requires LogsProduct(before, after, targets, log, opts, limits, replies) && Increasing(log) && DistinctTargets(targets)
    requires i < |targets| && targets[i].configured && targets[i].sendsLogs && targets[i].addressable && !opts.dryRun
    requires var events := LoadEvents(log, if opts.full then 0 else CursorFor(before, targets[i].id));
             && events != [] && (forall e :: e in events ==> e.attributes.Some?)
             && AllAccepted(RepliesOf(replies, targets[i].id).logs, |GreedySplit(events, limits.size, limits.cap)|)
    ensures log != [] && targets[i].id in after && after[targets[i].id] == log[|log| - 1].sequence
  {
    var t := targets[i];
    var cursor := CursorFor(before, t.id);
    var events := LoadEvents(log, if opts.full then 0 else cursor);
    FindIn(targets, i);
    assert Entry(after, t.id) == LogsEntry(before, Find(targets, t.id), t.id, log, opts, limits, replies);
    CursorIsEnd(t, cursor, log, opts, limits, RepliesOf(replies, t.id).logs, events[|events| - 1].sequence);
  }

  /** So does the metrics cursor of one that wants metrics, when it is behind or in full. */
  lemma RunMeasuresAll(before: map<string, int>, after: map<string, int>, targets: seq<Target>, log: seq<Event>,
                       opts: Options, batches: nat, replies: map<string, Replies>, i: nat)
    requires MetricsProduct(before, after, targets, LastSequence(log), opts, Some(batches), replies) && DistinctTargets(targets)
    requires i < |targets| && targets[i].configured && targets[i].sendsMetrics && targets[i].addressable && !opts.dryRun
    requires log != [] && (opts.full || targets[i].id !in before || before[targets[i].id] < log[|log| - 1].sequence)
    requires targets[i].id !in before ==> log[|log| - 1].sequence > 0
    requires AllAccepted(RepliesOf(replies, targets[i].id).metrics, batches)
    ensures targets[i].id in after && after[targets[i].id] == log[|log| - 1].sequence
  {
    var t := targets[i];
    FindIn(targets, i);
    assert Entry(after, t.id) == MetricsEntry(before, Find(targets, t.id), t.id, LastSequence(log), opts, Some(batches), replies);
  }

  lemma {:induction false} FindIn(targets: seq<Target>, i: nat)
    requires DistinctTargets(targets) && i < |targets|
    ensures Find(targets, targets[i].id) == Some(targets[i])
  {
    if i < |targets| - 1 {
      FindIn(targets[..|targets| - 1], i);
    }
  }

  /** Likewise for metrics cursors. */
  lemma RunMeasuresToTheEnd(before: map<string, int>, after: map<string, int>, targets: seq<Target>, log: seq<Event>,
                            later: seq<Event>, opts: Options, batches: Option<nat>, replies: map<string, Replies>, id: string)
    requires MetricsProduct(before, after, targets, LastSequence(log), opts, batches, replies)
    requires Increasing(log + later) && forall i :: 0 <= i < |later| ==> later[i].sequence > 0
    requires Entry(after, id) != Entry(before, id)
    ensures id in after && Filter((e: Event) => e.sequence > after[id], log + later) == later
    ensures exists t :: t in targets && t.id == id && t.configured && t.sendsMetrics && t.addressable
  {
    assert Entry(after, id) == MetricsEntry(before, Find(targets, id), id, LastSequence(log), opts, batches, replies);
    FindMember(targets, id);
    var t := Find(targets, id).value;
    NothingIsUnmeasured(t, MetricsCursorFor(before, id), log, later, opts, batches, RepliesOf(replies, id).metrics, after[id]);
  }

  lemma {:induction false} FindMember(targets: seq<Target>, id: string)
    ensures Find(targets, id).Some? ==> Find(targets, id).value in targets && Find(targets, id).value.id == id
  {
    if targets != [] {
      FindMember(targets[..|targets| - 1], id);
    }
  }

  // ---------------------------------------------------------------- independence

  /** One run: what it was given. */
  datatype RunInput = RunInput(targets: seq<Target>, log: seq<Event>, opts: Options, limits: Limits, batches: Option<nat>,
                               replies: map<string, Replies>)

  /** The cursors before, between and after consecutive runs. */
  ghost predicate LogsHistory(lastFlushed: int, cursors: seq<map<string, int>>, runs: seq<RunInput>) {
    && |cursors| == |runs| + 1
    && forall i, j :: 0 <= i && j == i + 1 && j < |cursors| ==>
         LogsProduct(StateFile(cursors[i], lastFlushed), cursors[j], runs[i].targets, runs[i].log, runs[i].opts,
                     runs[i].limits, runs[i].replies)
  }

  ghost predicate MetricsHistory(cursors: seq<map<string, int>>, runs: seq<RunInput>) {
    && |cursors| == |runs| + 1
    && forall i, j :: 0 <= i && j == i + 1 && j < |cursors| ==>
         MetricsProduct(cursors[i], cursors[j], runs[i].targets, LastSequence(runs[i].log), runs[i].opts,
                        runs[i].batches, runs[i].replies)
  }

  /** The two runs are alike as far as one target can tell. */
  ghost predicate AlikeFor(r1: RunInput, r2: RunInput, id: string) {
    && Find(r1.targets, id) == Find(r2.targets, id)
    && r1.log == r2.log && r1.opts == r2.opts && r1.limits == r2.limits && r1.batches == r2.batches
    && RepliesOf(r1.replies, id) == RepliesOf(r2.replies, id)
  }

  /** Over any number of runs a target's logs cursor is the same, whatever the other targets are and answer. */
  lemma {:induction false} LogsAreIndependent(lastFlushed: int, c1: seq<map<string, int>>, c2: seq<map<string, int>>,
                                              r1: seq<RunInput>, r2: seq<RunInput>, id: string, n: nat)
    requires LogsHistory(lastFlushed, c1, r1) && LogsHistory(lastFlushed, c2, r2)
    requires n <= |r1| && n <= |r2| && forall i :: 0 <= i < n ==> AlikeFor(r1[i], r2[i], id)
    requires Entry(c1[0], id) == Entry(c2[0], id)
    ensures Entry(c1[n], id) == Entry(c2[n], id)
  {
    if n > 0 {
      LogsAreIndependent(lastFlushed, c1, c2, r1, r2, id, n - 1);
      var f1, f2 := StateFile(c1[n - 1], lastFlushed), StateFile(c2[n - 1], lastFlushed);
      assert AlikeFor(r1[n - 1], r2[n - 1], id);
      assert CursorFor(f1, id) == CursorFor(f2, id);
      assert LogsProduct(f1, c1[n], r1[n - 1].targets, r1[n - 1].log, r1[n - 1].opts, r1[n - 1].limits, r1[n - 1].replies);
      assert LogsProduct(f2, c2[n], r2[n - 1].targets, r2[n - 1].log, r2[n - 1].opts, r2[n - 1].limits, r2[n - 1].replies);
    }
  }

  /** The same for its metrics cursor. */
  lemma {:induction false} MetricsAreIndependent(c1: seq<map<string, int>>, c2: seq<map<string, int>>,
                                                 r1: seq<RunInput>, r2: seq<RunInput>, id: string, n: nat)
    requires MetricsHistory(c1, r1) && MetricsHistory(c2, r2)
    requires n <= |r1| && n <= |r2| && forall i :: 0 <= i < n ==> AlikeFor(r1[i], r2[i], id)
    requires Entry(c1[0], id) == Entry(c2[0], id)
    ensures Entry(c1[n], id) == Entry(c2[n], id)
  {
    if n > 0 {
      MetricsAreIndependent(c1, c2, r1, r2, id, n - 1);
      var a, b := r1[n - 1], r2[n - 1];
      assert AlikeFor(a, b, id);
      assert MetricsCursorFor(c1[n - 1], id) == MetricsCursorFor(c2[n - 1], id);
      assert MetricsProduct(c1[n - 1], c1[n], a.targets, LastSequence(a.log), a.opts, a.batches, a.replies);
      assert MetricsProduct(c2[n - 1], c2[n], b.targets, LastSequence(b.log), b.opts, b.batches, b.replies);
    }
  }

  /** The batches a flush posts are ones the flush machine may begin with: they concatenate to what was loaded. */
  lemma GreedyBatchesAreLoadedEvents(log: seq<Event>, after: int, limits: Limits)
    ensures var events := LoadEvents(log, after);
            var batches := GreedySplit(events, limits.size, limits.cap);
            Concat(batches) == events && forall i :: 0 <= i < |batches| ==> batches[i] != []
  {
    var events := LoadEvents(log, after);
    GreedyIsMaximalSplit(events, limits.size, limits.cap);
    assert forall i :: 0 <= i < |GreedySplit(events, limits.size, limits.cap)| ==>
             Admissible(GreedySplit(events, limits.size, limits.cap)[i], limits.size, limits.cap);
  }

  /** Some answers let a target's logs cursor move exactly when there are events to send, all of which can be decoded. */
  lemma CanAdvanceExactly(t: Target, cursor: int, log: seq<Event>, opts: Options, limits: Limits)
    ensures (exists replies :: NextLogsCursor(t, cursor, log, opts, limits, replies).Some?) <==>
            var events := LoadEvents(log, if opts.full then 0 else cursor);
            events != [] && !opts.dryRun && t.addressable && forall e :: e in events ==> e.attributes.Some?
  {
    var events := LoadEvents(log, if opts.full then 0 else cursor);
    if events != [] && !opts.dryRun && t.addressable && (forall e :: e in events ==> e.attributes.Some?) {
      var n := |GreedySplit(events, limits.size, limits.cap)|;
      var replies := seq(n, i => Accepted(0));
      assert AllAccepted(replies, n);
      assert NextLogsCursor(t, cursor, log, opts, limits, replies).Some?;
    }
  }

  /** The log holds an event after the cursor that cannot be decoded. */
  ghost predicate Blocked(log: seq<Event>, cursor: int) {
    exists e :: e in log && e.sequence > 0 && e.sequence > cursor && e.attributes.None?
  }

  lemma BlockedStays(t: Target, cursor: int, log: seq<Event>, opts: Options, limits: Limits, replies: seq<Outcome>)
    requires Blocked(log, cursor)
    ensures NextLogsCursor(t, cursor, log, opts, limits, replies).None?
  {
    var e :| e in log && e.sequence > 0 && e.sequence > cursor && e.attributes.None?;
    var after := if opts.full then 0 else cursor;
    FilterMember((x: Event) => x.sequence > after, log, e);
  }

  /**
   One event that cannot be decoded holds a target's cursor for good: over any number of runs, with
   whatever answers and options, it does not move while the event is there.
   */
  lemma {:induction false} UndecodableEventBlocks(
      lastFlushed: int, cursors: seq<map<string, int>>, runs: seq<RunInput>, id: string, n: nat)
    requires LogsHistory(lastFlushed, cursors, runs) && n <= |runs|
    requires forall i :: 0 <= i < n ==> Blocked(runs[i].log, CursorFor(StateFile(cursors[0], lastFlushed), id))
    ensures Entry(cursors[n], id) == Entry(cursors[0], id)
  {
    if n > 0 {
      UndecodableEventBlocks(lastFlushed, cursors, runs, id, n - 1);
      var file, r := StateFile(cursors[n - 1], lastFlushed), runs[n - 1];
      assert CursorFor(file, id) == CursorFor(StateFile(cursors[0], lastFlushed), id);
      assert LogsProduct(file, cursors[n], r.targets, r.log, r.opts, r.limits, r.replies);
      var t := Find(r.targets, id);
      if t.Some? {
        BlockedStays(t.value, CursorFor(file, id), r.log, r.opts, r.limits, RepliesOf(r.replies, id).logs);
      }
    }
  }

  /** What a run looks at in a configured target; parses says which endpoints are URLs. */
  function TargetOf(t: Config.ExportTarget, parses: string -> bool): Target {
    Target(t.id, t.endpoint != "" && t.signals != [], "logs" in t.signals, "metrics" in t.signals, parses(t.endpoint))
  }

  /** What a described target gets: nothing without an endpoint, logs unless it asks for other signals only, metrics if it asks for them. */
  lemma TargetExactly(t: Config.ExportTarget, parses: string -> bool)
    ensures var target := TargetOf(Config.Normalize(t), parses);
            && target.id == t.id && target.addressable == parses(t.endpoint)
            && (WantsLogs(target) <==> t.endpoint != "" && (t.signals == [] || "logs" in t.signals))
            && (WantsMetrics(target) <==> t.endpoint != "" && "metrics" in t.signals)
  {
    Config.NormalizeExactly(t);
  }

  /** Every configuration that loads gives a run targets with distinct ids. */
  lemma LoadedTargetsAreDistinct(text: Option<string>, env: string -> string, parses: string -> bool)
    requires Config.Load(text, env).Targets?
    ensures DistinctTargets(Map((t: Config.ExportTarget) => TargetOf(t, parses), Config.Load(text, env).targets))
  {
    if text.Some? {
      var scan := Config.ScanOf(text.value);
      Config.AcceptedExactly(Config.ParseFrom(Config.NOTHING, scan.lines, env));
      var targets := Config.Load(text, env).targets;
      assert Config.UniqueIds(targets);
      var runTargets := Map((t: Config.ExportTarget) => TargetOf(t, parses), targets);
      assert forall i :: 0 <= i < |targets| ==> runTargets[i].id == targets[i].id;
    }
  }
}
