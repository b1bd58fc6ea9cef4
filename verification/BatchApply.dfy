/**
 Applying a whole backfill batch in one pass over the file, compared with running the single
 operations one after the other with a fresh decode each time.
 */
module BatchApply {
  import opened Common
  import opened JsonLine
  import opened SessionDecoder
  import opened SessionOps

  datatype Batch = Batch(
    markChecked: seq<string>,
    pinPRs: map<string, string>,
    sessionURLs: map<string, seq<string>>,
    endUpdates: map<string, EndUpdate>,
    prMetas: map<string, PRMeta>)

  /** One order in which the maps of a batch may be iterated. */
  datatype Order = Order(pins: seq<string>, sessions: seq<string>, ends: seq<string>, metas: seq<string>)

  ghost predicate Lists(keys: seq<string>, all: set<string>) {
    Distinct(keys) && forall k :: k in keys <==> k in all
  }

  ghost predicate ValidOrder(b: Batch, o: Order) {
    && Lists(o.pins, Pins(b).Keys())
    && Lists(o.sessions, Adds(b).Keys())
    && Lists(o.ends, Ends(b).Keys())
    && Lists(o.metas, Metas(b).Keys())
  }

  // ---------------------------------------------------------------- a batch as a sequence of operations

  function MarkOps(b: Batch): seq<Op> {
    if b.markChecked == [] then [] else [Mark(set id | id in b.markChecked)]
  }

  /** The operations of each phase, under the key of the map they come from. */
  datatype Phase =
    | PinPhase(pins: map<string, string>)
    | AddPhase(adds: map<string, seq<string>>)
    | EndPhase(ends: map<string, EndUpdate>)
    | MetaPhase(metas: map<string, PRMeta>)
  {
    function Keys(): set<string> {
      match this
      case PinPhase(pins) => pins.Keys
      case AddPhase(adds) => adds.Keys
      case EndPhase(ends) => ends.Keys
      case MetaPhase(metas) => metas.Keys
    }
    function At(k: string): Op
      requires k in Keys()
    {
      match this
      case PinPhase(pins) => Pin(k, pins[k])
      case AddPhase(adds) => AddURLs(k, adds[k])
      case EndPhase(ends) => End(k, ends[k])
      case MetaPhase(metas) => Meta(k, metas[k])
    }
  }

  function Pins(b: Batch): Phase { PinPhase(b.pinPRs) }
  function Adds(b: Batch): Phase { AddPhase(b.sessionURLs) }
  function Ends(b: Batch): Phase { EndPhase(b.endUpdates) }
  function Metas(b: Batch): Phase { MetaPhase(b.prMetas) }

  function PhaseOps(phase: Phase, keys: seq<string>): (ops: seq<Op>)
    requires forall k :: k in keys ==> k in phase.Keys()
    ensures |ops| == |keys| && forall i :: 0 <= i < |keys| ==> ops[i] == phase.At(keys[i])
  {
    seq(|keys|, i requires 0 <= i < |keys| => phase.At(keys[i]))
  }

  /** Everything that comes before the metadata phase. */
  ghost function EarlyOps(b: Batch, o: Order): seq<Op>
    requires ValidOrder(b, o)
  {
    MarkOps(b) + PhaseOps(Pins(b), o.pins) + PhaseOps(Adds(b), o.sessions) + PhaseOps(Ends(b), o.ends)
  }

  ghost function BatchOps(b: Batch, o: Order): seq<Op>
    requires ValidOrder(b, o)
  {
    EarlyOps(b, o) + PhaseOps(Metas(b), o.metas)
  }

  /** Batches whose single-operation counterparts would not be refused for an empty identifier. */
  ghost predicate NonEmptyKeys(b: Batch) {
    && "" !in b.markChecked
    && "" !in b.pinPRs.Keys + b.sessionURLs.Keys + b.endUpdates.Keys + b.prMetas.Keys
    && (forall k :: k in b.pinPRs ==> b.pinPRs[k] != "")
    && (forall k :: k in b.endUpdates ==> b.endUpdates[k].endedAt != "")
  }

  ghost predicate AllAddressed(ops: seq<Op>) {
    forall i :: 0 <= i < |ops| ==> Addressed(ops[i])
  }

  lemma BatchOpsAddressed(b: Batch, o: Order)
    requires ValidOrder(b, o) && NonEmptyKeys(b)
    ensures AllAddressed(BatchOps(b, o))
    ensures forall i :: 1 <= i < |BatchOps(b, o)| ==> !BatchOps(b, o)[i].Mark?
  {
    PhasesArePlain(b, o);
    var p, a, e, m := PhaseOps(Pins(b), o.pins), PhaseOps(Adds(b), o.sessions),
                      PhaseOps(Ends(b), o.ends), PhaseOps(Metas(b), o.metas);
    PlainAppend(p, a);
    PlainAppend(p + a, e);
    PlainAppend(p + a + e, m);
    assert BatchOps(b, o) == MarkOps(b) + (p + a + e + m);
    MarkThenPlain(b, p + a + e + m);
  }

  lemma PhasesArePlain(b: Batch, o: Order)
    requires ValidOrder(b, o) && NonEmptyKeys(b)
    ensures Plain(PhaseOps(Pins(b), o.pins)) && Plain(PhaseOps(Adds(b), o.sessions))
    ensures Plain(PhaseOps(Ends(b), o.ends)) && Plain(PhaseOps(Metas(b), o.metas))
  {
    PhaseIsPlain(Pins(b), o.pins);
    PhaseIsPlain(Adds(b), o.sessions);
    PhaseIsPlain(Ends(b), o.ends);
    PhaseIsPlain(Metas(b), o.metas);
  }

  /** Operations with non-empty identifiers, none of which marks sessions as checked. */
  ghost predicate Plain(ops: seq<Op>) {
    forall i :: 0 <= i < |ops| ==> Addressed(ops[i]) && !ops[i].Mark?
  }

  lemma PlainAppend(a: seq<Op>, b: seq<Op>)
    requires Plain(a) && Plain(b)
    ensures Plain(a + b)
  {
  }

  lemma MarkThenPlain(b: Batch, rest: seq<Op>)
    requires "" !in b.markChecked && Plain(rest)
    ensures AllAddressed(MarkOps(b) + rest)
    ensures forall i :: 1 <= i < |MarkOps(b) + rest| ==> !(MarkOps(b) + rest)[i].Mark?
  {
  }

  lemma PhaseIsPlain(phase: Phase, keys: seq<string>)
    requires forall k :: k in keys ==> k in phase.Keys()
    requires forall k :: k in phase.Keys() ==> Addressed(phase.At(k)) && !phase.At(k).Mark?
    ensures Plain(PhaseOps(phase, keys))
  {
    forall i | 0 <= i < |keys|
      ensures Addressed(PhaseOps(phase, keys)[i]) && !PhaseOps(phase, keys)[i].Mark?
    {
      assert keys[i] in phase.Keys();
    }
  }

  // ---------------------------------------------------------------- the code: one line through a batch

  /** A line together with the decoded entry the code will consult next. */
  datatype LineState = LineState(raw: Raw, entry: Session)

  /** One phase step: the entry is decoded again after every step except the marking. */
  ghost function CodeStep(st: LineState, op: Op): Option<LineState> {
    match EditRaw(st.raw, Edits(op, st.entry))
    case None => None
    case Some(raw) => Some(LineState(raw, if op.Mark? then st.entry else DecodeLoose(raw)))
  }

  ghost function CodeRun(st: LineState, ops: seq<Op>): Option<LineState> {
    if ops == [] then Some(st)
    else
      match CodeRun(st, ops[..|ops| - 1])
      case None => None
      case Some(mid) => CodeStep(mid, ops[|ops| - 1])
  }

  /** Did any step of the run rewrite the line? */
  ghost predicate CodeEdits(st: LineState, ops: seq<Op>) {
    ops != [] &&
    (CodeEdits(st, ops[..|ops| - 1]) ||
     (CodeRun(st, ops[..|ops| - 1]).Some? &&
      Edits(ops[|ops| - 1], CodeRun(st, ops[..|ops| - 1]).value.entry) != []))
  }

  /** The file after the steps ops, starting from lines and their decoded entries. */
  ghost predicate Progress(before: seq<Raw>, entries: seq<Session>, ops: seq<Op>,
                           raws: seq<Raw>, sessions: seq<Session>, updated: bool) {
    && |before| == |entries| == |raws| == |sessions|
    && (forall i :: 0 <= i < |before| ==>
          CodeRun(LineState(before[i], entries[i]), ops) == Some(LineState(raws[i], sessions[i])))
    && (updated <==> exists i :: 0 <= i < |before| && CodeEdits(LineState(before[i], entries[i]), ops))
  }

  /** The part of Progress a caller sees: the lines and the change flag. */
  ghost predicate Outcome(before: seq<Raw>, entries: seq<Session>, ops: seq<Op>, raws: seq<Raw>, updated: bool) {
    && |before| == |entries| == |raws|
    && (forall i :: 0 <= i < |before| ==>
          CodeRun(LineState(before[i], entries[i]), ops).Some? &&
          CodeRun(LineState(before[i], entries[i]), ops).value.raw == raws[i])
    && (updated <==> exists i :: 0 <= i < |before| && CodeEdits(LineState(before[i], entries[i]), ops))
  }

  /** Some line makes the run fail. */
  ghost predicate Fails(before: seq<Raw>, entries: seq<Session>, ops: seq<Op>) {
    && |before| == |entries|
    && exists i :: 0 <= i < |before| && CodeRun(LineState(before[i], entries[i]), ops) == None
  }

  lemma ProgressIsOutcome(before: seq<Raw>, entries: seq<Session>, ops: seq<Op>, raws: seq<Raw>,
                          sessions: seq<Session>, updated: bool)
    requires Progress(before, entries, ops, raws, sessions, updated)
    ensures Outcome(before, entries, ops, raws, updated)
  {
  }

  lemma ProgressStart(before: seq<Raw>, entries: seq<Session>)
    requires |before| == |entries|
    ensures Progress(before, entries, [], before, entries, false)
  {
  }

  lemma ProgressStep(before: seq<Raw>, entries: seq<Session>, ops: seq<Op>, raws: seq<Raw>, sessions: seq<Session>,
                     updated: bool, op: Op, next: seq<Raw>, nextSessions: seq<Session>, touched: bool)
    requires Progress(before, entries, ops, raws, sessions, updated)
    requires Applied(op, sessions, raws, next, touched)
    requires |nextSessions| == |sessions|
    requires forall i :: 0 <= i < |sessions| ==>
               nextSessions[i] == if op.Mark? then sessions[i] else DecodeLoose(next[i])
    ensures Progress(before, entries, ops + [op], next, nextSessions, updated || touched)
  {
    assert (ops + [op])[..|ops|] == ops;
    forall i | 0 <= i < |before|
      ensures CodeRun(LineState(before[i], entries[i]), ops + [op]) == Some(LineState(next[i], nextSessions[i]))
      ensures CodeEdits(LineState(before[i], entries[i]), ops + [op])
          <==> CodeEdits(LineState(before[i], entries[i]), ops) || Edits(op, sessions[i]) != []
    {
      assert CodeRun(LineState(before[i], entries[i]), ops) == Some(LineState(raws[i], sessions[i]));
    }
  }

  lemma ProgressFailure(before: seq<Raw>, entries: seq<Session>, ops: seq<Op>, raws: seq<Raw>, sessions: seq<Session>,
                        updated: bool, op: Op)
    requires Progress(before, entries, ops, raws, sessions, updated)
    requires Rejected(op, sessions, raws)
    ensures Fails(before, entries, ops + [op])
  {
    var i :| 0 <= i < |raws| && EditRaw(raws[i], Edits(op, sessions[i])) == None;
    assert (ops + [op])[..|ops|] == ops;
    assert CodeRun(LineState(before[i], entries[i]), ops) == Some(LineState(raws[i], sessions[i]));
    assert CodeRun(LineState(before[i], entries[i]), ops + [op]) == None;
  }

  method DecodeRawSessions(raws: array<Raw>) returns (sessions: seq<Session>)
    ensures |sessions| == raws.Length
    ensures forall i :: 0 <= i < raws.Length ==> sessions[i] == DecodeLoose(raws[i])
  {
    sessions := [];
    for i := 0 to raws.Length
      invariant |sessions| == i
      invariant forall j :: 0 <= j < i ==> sessions[j] == DecodeLoose(raws[j])
    {
      sessions := sessions + [DecodeLoose(raws[i])];
    }
  }

  /** The keys not yet visited by an iteration, and the order of those visited. */
  ghost predicate Visited(all: set<string>, left: set<string>, order: seq<string>) {
    && left <= all
    && Distinct(order)
    && forall k :: k in order <==> k in all && k !in left
  }

  /**
   One phase: the operations of a map, in whatever order the map yields its keys.
   before, entries and done describe the run up to the start of the phase.
   */
  method RunPhase(raws: array<Raw>, sessions: seq<Session>, phase: Phase, updated: bool,
                  ghost before: seq<Raw>, ghost entries: seq<Session>, ghost done: seq<Op>)
    returns (ok: bool, next: seq<Session>, touched: bool, ghost keys: seq<string>, ghost ops: seq<Op>)
    requires |sessions| == raws.Length
    requires forall k :: k in phase.Keys() ==> !phase.At(k).Mark?
    requires Progress(before, entries, done, raws[..], sessions, updated)
    modifies raws
    ensures |next| == raws.Length
    ensures ok ==> Lists(keys, phase.Keys()) && ops == done + PhaseOps(phase, keys)
    ensures ok ==> Progress(before, entries, ops, raws[..], next, touched)
    ensures !ok ==> Fails(before, entries, ops)
  {
    ok, next, touched, keys, ops := true, sessions, updated, [], done;
    var left := phase.Keys();
    while left != {}
      invariant ok && |next| == raws.Length
      invariant Visited(phase.Keys(), left, keys)
      invariant ops == done + PhaseOps(phase, keys)
      invariant Progress(before, entries, ops, raws[..], next, touched)
      decreases left
    {
      var k :| k in left;
      left := left - {k};
      ghost var prev, prevEntries, prevOps := raws[..], next, ops;
      assert PhaseOps(phase, keys + [k]) == PhaseOps(phase, keys) + [phase.At(k)];
      keys, ops := keys + [k], ops + [phase.At(k)];
      var changed;
      ok, changed := ApplyToLines(raws, next, phase.At(k));
      if !ok {
        ProgressFailure(before, entries, prevOps, prev, prevEntries, touched, phase.At(k));
        return;
      }
      next := DecodeRawSessions(raws);
      ProgressStep(before, entries, prevOps, prev, prevEntries, touched, phase.At(k), raws[..], next, changed);
      touched := touched || changed;
    }
  }

  /**
   ApplyBatchToRaw. ops lists the steps performed, up to and including a failing one; the
   entries are not decoded again between the marking and the first later step.
   */
  method ApplyBatchToRaw(raws: array<Raw>, entries: seq<Session>, b: Batch)
    returns (ok: bool, updated: bool, ghost order: Order, ghost ops: seq<Op>)
    requires |entries| == raws.Length
    modifies raws
    ensures ok ==> ValidOrder(b, order) && ops == BatchOps(b, order)
    ensures ok ==> Outcome(old(raws[..]), entries, ops, raws[..], updated)
    ensures !ok ==> Fails(old(raws[..]), entries, ops)
  {
    ghost var before := raws[..];
    var sessions := entries;
    ok, updated, ops := true, false, [];
    order := Order([], [], [], []);
    ProgressStart(before, entries);
    if b.markChecked != [] {
      var op := Mark(set id | id in b.markChecked);
      ops := [op];
      assert [] + [op] == ops;
      ok, updated := ApplyToLines(raws, sessions, op);
      if !ok {
        ProgressFailure(before, entries, [], before, sessions, false, op);
        return;
      }
      ProgressStep(before, entries, [], before, sessions, false, op, raws[..], sessions, updated);
    }
    assert ops == MarkOps(b);
    ghost var pins, adds, ends, metas;
    ok, sessions, updated, pins, ops := RunPhase(raws, sessions, Pins(b), updated, before, entries, ops);
    if !ok { return; }
    ok, sessions, updated, adds, ops := RunPhase(raws, sessions, Adds(b), updated, before, entries, ops);
    if !ok { return; }
    ok, sessions, updated, ends, ops := RunPhase(raws, sessions, Ends(b), updated, before, entries, ops);
    if !ok { return; }
    ok, sessions, updated, metas, ops := RunPhase(raws, sessions, Metas(b), updated, before, entries, ops);
    if !ok { return; }
    order := Order(pins, adds, ends, metas);
    ProgressIsOutcome(before, entries, ops, raws[..], sessions, updated);
  }

  // ---------------------------------------------------------------- the reference: one operation at a time

  /** The operations one by one, each with a fresh decode of the line. */
  ghost function LineRun(raw: Raw, ops: seq<Op>): Raw {
    if ops == [] then raw else LineOp(LineRun(raw, ops[..|ops| - 1]), ops[|ops| - 1])
  }

  /** Did any of the operations report a change of the line? */
  ghost predicate LineEdits(raw: Raw, ops: seq<Op>) {
    ops != [] &&
    (LineEdits(raw, ops[..|ops| - 1]) ||
     Edits(ops[|ops| - 1], DecodeStrict(LineRun(raw, ops[..|ops| - 1]))) != [])
  }

  lemma {:induction false} LineRunRegular(raw: Raw, ops: seq<Op>)
    requires Regular(raw) && AllAddressed(ops)
    ensures Regular(LineRun(raw, ops))
  {
    if ops != [] {
      LineRunRegular(raw, ops[..|ops| - 1]);
      LineOpMeaning(LineRun(raw, ops[..|ops| - 1]), ops[|ops| - 1]);
    }
  }

  lemma {:induction false} LineRunAppend(raw: Raw, a: seq<Op>, b: seq<Op>)
    ensures LineRun(raw, a + b) == LineRun(LineRun(raw, a), b)
  {
    if b == [] {
      assert a + b == a;
    } else {
      assert (a + b)[..|a + b| - 1] == a + b[..|b| - 1];
      LineRunAppend(raw, a, b[..|b| - 1]);
    }
  }
}
