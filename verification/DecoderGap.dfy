/**
 A batch decodes the file once before its first phase and again, more leniently, after most steps;
 here is exactly for which lines that shows.

 Two things can make a batch and the single operations see different entries. A line with a type
 error is dropped by ReadAll, but after the first step of a batch it is decoded as far as possible;
 it stays out of reach only with neither a session id nor a URL to be found by. A line that repeats
 a key, or spells a field in another case too, may decode to something else than a rewrite of it;
 the step after the marking still consults the entry from before the rewrite, so it must come out
 the same from both.
 */
module DecoderGap {
  import opened Common
  import opened JsonLine
  import opened SessionDecoder
  import opened SessionOps
  import opened BatchApply
  import opened BatchTheorems

  /** The single pass leaves and reports the line as the single operations would, whatever the batch. */
  ghost predicate AgreesOnEveryBatch(raw: Raw) {
    forall b, o :: NonEmptyKeys(b) && ValidOrder(b, o) ==> AgreesOn(raw, BatchOps(b, o))
  }

  ghost predicate AgreesOn(raw: Raw, ops: seq<Op>) {
    var st := LineState(raw, DecodeStrict(raw));
    && CodeRun(st, ops).Some?
    && CodeRun(st, ops).value.raw == LineRun(raw, ops)
    && (CodeEdits(st, ops) <==> LineEdits(raw, ops))
  }

  /** An entry that no operation with non-empty identifiers can match. */
  predicate Inert(s: Session) {
    s.Str(SessionID) == "" && forall u :: u in s.Strs(PRURLs) ==> u == ""
  }

  predicate HasURL(s: Session) {
    exists u :: u in s.Strs(PRURLs) && u != ""
  }

  /** Setting these fields leaves the object as it is. */
  predicate Holds(m: Object, edits: seq<Edit>) {
    SetAll(m, edits) == m
  }

  function PinEdits(url: string): seq<Edit> {
    [Edit(PRURLs, VStrs([url])), Edit(PRPinned, VBool(true))]
  }

  function EndEdits(endedAt: string, reason: string): seq<Edit> {
    [Edit(EndedAt, VStr(endedAt)), Edit(EndReason, VStr(reason))]
  }

  function MetaOf(s: Session): PRMeta {
    PRMeta(s.Bool(IsMerged), s.Int(ReviewComments), s.Int(ChangesRequested), s.Str(PRTitle))
  }

  /** The same non-empty URLs and, where a pin looks, the same single one unless pinning it again changes nothing. */
  predicate SameURLs(s: Session, t: Session, m: Object) {
    && (!s.Bool(PRPinned) ==> s.Strs(PRURLs) == t.Strs(PRURLs))
    && (forall u :: u in s.Strs(PRURLs) && u != "" ==> u in t.Strs(PRURLs))
    && (forall u :: u in t.Strs(PRURLs) && u != "" ==> u in s.Strs(PRURLs))
    && (forall u :: u in s.Strs(PRURLs) && u != "" ==>
          (s.Strs(PRURLs) == [u] <==> t.Strs(PRURLs) == [u]) || Holds(m, PinEdits(u)))
  }

  /** The same metadata, or titles that differ but leave nothing to write where one of them is asked for. */
  predicate SameMetadata(s: Session, t: Session, m: Object) {
    MetaOf(s) == MetaOf(t) ||
    (&& MetaOf(s).(title := "") == MetaOf(t).(title := "")
     && (s.Str(PRTitle) == "" || Holds(m, MetaEdits(MetaOf(s))))
     && (t.Str(PRTitle) == "" || Holds(m, MetaEdits(MetaOf(t)))))
  }

  predicate SameEnd(s: Session, t: Session, m: Object) {
    (s.Str(EndedAt) == t.Str(EndedAt) && s.Str(EndReason) == t.Str(EndReason)) ||
    (&& (s.Str(EndedAt) == "" || Holds(m, EndEdits(s.Str(EndedAt), s.Str(EndReason))))
     && (t.Str(EndedAt) == "" || Holds(m, EndEdits(t.Str(EndedAt), t.Str(EndReason)))))
  }

  /** Whichever of the two entries it is decided from, a batch step other than the marking makes the same of object m. */
  predicate SameEffect(s: Session, t: Session, m: Object) {
    && s.Str(SessionID) == t.Str(SessionID) && s.Bool(PRPinned) == t.Bool(PRPinned)
    && SameURLs(s, t, m) && (HasURL(s) ==> SameMetadata(s, t, m)) && SameEnd(s, t, m)
  }

  /** The line's object once its session is marked as checked. */
  function MarkedObject(raw: Raw): Object {
    match ParseObject(raw)
    case None => map[]
    case Some(m) => m[BackfillChecked := Encode(VBool(true))]
  }

  ghost function MarkedEntry(raw: Raw): Session {
    DecodeLoose(Print(MarkedObject(raw)))
  }

  /** The lines on which batches and single operations agree. */
  ghost predicate Agreeable(raw: Raw) {
    var read := DecodeLoose(raw);
    if !WellTyped(raw) then Inert(read)
    else
      read.Str(SessionID) == "" || read.Bool(BackfillChecked) ||
      SameEffect(read, MarkedEntry(raw), MarkedObject(raw))
  }

  // ---------------------------------------------------------------- agreement

  ghost predicate BatchOp(op: Op) {
    Addressed(op) && !op.AddByBranch?
  }

  ghost predicate AllBatchOps(ops: seq<Op>) {
    && (forall i :: 0 <= i < |ops| ==> BatchOp(ops[i]))
    && (forall i :: 1 <= i < |ops| ==> !ops[i].Mark?)
  }

  lemma BatchOpsAreBatchOps(b: Batch, o: Order)
    requires NonEmptyKeys(b) && ValidOrder(b, o)
    ensures AllBatchOps(BatchOps(b, o))
  {
    BatchOpsAddressed(b, o);
    NoBranchInPhase(Pins(b), o.pins);
    NoBranchInPhase(Adds(b), o.sessions);
    NoBranchInPhase(Ends(b), o.ends);
    NoBranchInPhase(Metas(b), o.metas);
  }

  lemma NoBranchInPhase(phase: Phase, keys: seq<string>)
    requires forall k :: k in keys ==> k in phase.Keys()
    ensures forall i :: 0 <= i < |keys| ==> !PhaseOps(phase, keys)[i].AddByBranch?
  {
    forall i | 0 <= i < |keys|
      ensures !PhaseOps(phase, keys)[i].AddByBranch?
    {
      assert keys[i] in phase.Keys();
    }
  }

  /** What the step makes of the object when it is decided from the entry. */
  function Effect(m: Object, op: Op, s: Session): Object {
    SetAll(m, Edits(op, s))
  }

  lemma PinSameEffect(s: Session, t: Session, m: Object, op: Op)
    requires SameEffect(s, t, m) && op.Pin? && op.prURL != ""
    ensures Effect(m, op, s) == Effect(m, op, t)
  {
    assert s.Strs(PRURLs) == [op.prURL] ==> op.prURL in s.Strs(PRURLs);
    assert t.Strs(PRURLs) == [op.prURL] ==> op.prURL in t.Strs(PRURLs);
    assert Edits(op, s) != [] ==> Edits(op, s) == PinEdits(op.prURL);
    assert Edits(op, t) != [] ==> Edits(op, t) == PinEdits(op.prURL);
  }

  lemma EndSameEffect(s: Session, t: Session, m: Object, op: Op)
    requires SameEffect(s, t, m) && op.End? && op.end.endedAt != ""
    ensures Effect(m, op, s) == Effect(m, op, t)
  {
    assert Edits(op, s) != [] ==> Edits(op, s) == EndEdits(op.end.endedAt, op.end.reason);
    assert Edits(op, t) != [] ==> Edits(op, t) == EndEdits(op.end.endedAt, op.end.reason);
  }

  lemma MetaSameEffect(s: Session, t: Session, m: Object, op: Op)
    requires SameEffect(s, t, m) && op.Meta? && op.url != ""
    ensures Effect(m, op, s) == Effect(m, op, t)
  {
    if op.url in s.Strs(PRURLs) && MetaOf(s) != MetaOf(t) {
      assert HasURL(s);
      if SameMeta(s, op.meta) && !SameMeta(t, op.meta) {
        assert op.meta == MetaOf(s);
      } else if SameMeta(t, op.meta) && !SameMeta(s, op.meta) {
        assert op.meta == MetaOf(t);
      }
    }
  }

  lemma SameEffects(s: Session, t: Session, m: Object, op: Op)
    requires SameEffect(s, t, m) && BatchOp(op) && !op.Mark?
    ensures Effect(m, op, s) == Effect(m, op, t)
  {
    match op
    case Pin(_, _) => PinSameEffect(s, t, m, op);
    case AddURLs(_, _) =>
    case End(_, _) => EndSameEffect(s, t, m, op);
    case Meta(_, _) => MetaSameEffect(s, t, m, op);
  }

  /** The text is the canonical one of object m. */
  ghost predicate CanonicalOf(raw: Raw, m: Object) {
    raw == Print(m) && ParseObject(raw) == Some(m)
  }

  /** A rewrite of canonical text, or none, gives the canonical text of the changed object. */
  lemma CanonicalEdit(raw: Raw, m: Object, edits: seq<Edit>)
    requires CanonicalOf(raw, m)
    ensures EditRaw(raw, edits) == Some(Print(SetAll(m, edits)))
  {
    if edits != [] {
      EditRawSetsAll(raw, edits);
    }
  }

  /**
   The entry the code will consult next: a fresh decode or, right after a marking that rewrote the
   line, one from which the next step has the same effect.
   */
  ghost predicate InStep(raw: Raw, st: LineState, ops: seq<Op>) {
    WellTyped(st.raw) &&
    (st.entry == DecodeStrict(st.raw) ||
     (CodeEdits(LineState(raw, DecodeStrict(raw)), ops) && CanonicalOf(st.raw, MarkedObject(raw)) &&
      SameEffect(st.entry, DecodeStrict(st.raw), MarkedObject(raw))))
  }

  /** The line and the decoded entry after marking its session. */
  lemma MarkedLine(raw: Raw, op: Op)
    requires WellTyped(raw) && op.Mark? && Addressed(op) && Edits(op, DecodeStrict(raw)) != []
    ensures DecodeLoose(raw).Str(SessionID) != "" && !DecodeLoose(raw).Bool(BackfillChecked)
    ensures CanonicalOf(LineOp(raw, op), MarkedObject(raw)) && WellTyped(LineOp(raw, op))
    ensures EditRaw(raw, Edits(op, DecodeStrict(raw))) == Some(LineOp(raw, op))
    ensures DecodeStrict(LineOp(raw, op)) == MarkedEntry(raw)
  {
    StrictIsLoose(raw);
    LineOpRewrites(raw, op);
    OneSet(ParseObject(raw).value, Edit(BackfillChecked, VBool(true)));
    PrintParse(MarkedObject(raw));
    StrictIsLoose(LineOp(raw, op));
  }

  lemma OneStep(st: LineState, op: Op)
    ensures CodeRun(st, [op]) == CodeStep(st, op)
    ensures CodeEdits(st, [op]) <==> Edits(op, st.entry) != []
  {
    assert [op][..0] == [];
  }

  lemma OneLineOp(raw: Raw, op: Op)
    ensures LineRun(raw, [op]) == LineOp(raw, op)
    ensures LineEdits(raw, [op]) <==> Edits(op, DecodeStrict(raw)) != []
  {
    assert [op][..0] == [];
  }

  lemma MarkInStep(raw: Raw, op: Op)
    requires WellTyped(raw) && Agreeable(raw) && op.Mark? && Addressed(op)
    ensures AgreesOn(raw, [op]) && InStep(raw, CodeRun(LineState(raw, DecodeStrict(raw)), [op]).value, [op])
  {
    OneStep(LineState(raw, DecodeStrict(raw)), op);
    OneLineOp(raw, op);
    if Edits(op, DecodeStrict(raw)) != [] {
      MarkedLine(raw, op);
      StrictIsLoose(raw);
    }
  }

  /** A fresh decode gives the step of the single operation. */
  lemma FreshStep(st: LineState, op: Op)
    requires WellTyped(st.raw) && Addressed(op) && !op.Mark? && st.entry == DecodeStrict(st.raw)
    ensures CodeStep(st, op) == Some(LineState(LineOp(st.raw, op), DecodeStrict(LineOp(st.raw, op))))
    ensures WellTyped(LineOp(st.raw, op))
  {
    LineOpRewrites(st.raw, op);
    StrictIsLoose(LineOp(st.raw, op));
  }

  /** So does an entry with the same effect. */
  lemma StaleStep(st: LineState, m: Object, op: Op)
    requires WellTyped(st.raw) && BatchOp(op) && !op.Mark?
    requires CanonicalOf(st.raw, m) && SameEffect(st.entry, DecodeStrict(st.raw), m)
    ensures CodeStep(st, op) == Some(LineState(LineOp(st.raw, op), DecodeStrict(LineOp(st.raw, op))))
    ensures WellTyped(LineOp(st.raw, op))
  {
    SameEffects(st.entry, DecodeStrict(st.raw), m, op);
    CanonicalEdit(st.raw, m, Edits(op, st.entry));
    CanonicalEdit(st.raw, m, Edits(op, DecodeStrict(st.raw)));
    LineOpRewrites(st.raw, op);
    StrictIsLoose(LineOp(st.raw, op));
  }

  lemma NextStep(raw: Raw, ops: seq<Op>)
    requires ops != [] && var front := ops[..|ops| - 1];
             AgreesOn(raw, front) && InStep(raw, CodeRun(LineState(raw, DecodeStrict(raw)), front).value, front)
    requires BatchOp(ops[|ops| - 1]) && !ops[|ops| - 1].Mark?
    ensures AgreesOn(raw, ops) && InStep(raw, CodeRun(LineState(raw, DecodeStrict(raw)), ops).value, ops)
  {
    var front, op := ops[..|ops| - 1], ops[|ops| - 1];
    var mid := CodeRun(LineState(raw, DecodeStrict(raw)), front).value;
    if mid.entry == DecodeStrict(mid.raw) {
      FreshStep(mid, op);
    } else {
      StaleStep(mid, MarkedObject(raw), op);
    }
  }

  lemma {:induction false} WellTypedRun(raw: Raw, ops: seq<Op>)
    requires WellTyped(raw) && Agreeable(raw) && AllBatchOps(ops)
    ensures AgreesOn(raw, ops) && InStep(raw, CodeRun(LineState(raw, DecodeStrict(raw)), ops).value, ops)
  {
    if ops != [] {
      var front, op := ops[..|ops| - 1], ops[|ops| - 1];
      WellTypedRun(raw, front);
      if op.Mark? {
        assert front == [] && ops == [op];
        MarkInStep(raw, op);
      } else {
        NextStep(raw, ops);
      }
    }
  }

  lemma InertUntouched(s: Session, op: Op)
    requires Inert(s) && BatchOp(op)
    ensures Edits(op, s) == []
  {
  }

  /** A line none of whose entries an operation can match stays as it is. */
  lemma {:induction false} InertRun(raw: Raw, ops: seq<Op>)
    requires Inert(DecodeLoose(raw)) && forall i :: 0 <= i < |ops| ==> BatchOp(ops[i])
    ensures AgreesOn(raw, ops) && LineRun(raw, ops) == raw && !LineEdits(raw, ops)
    ensures Inert(CodeRun(LineState(raw, DecodeStrict(raw)), ops).value.entry)
  {
    if ops != [] {
      var front, op := ops[..|ops| - 1], ops[|ops| - 1];
      InertRun(raw, front);
      InertUntouched(DecodeStrict(raw), op);
      InertUntouched(CodeRun(LineState(raw, DecodeStrict(raw)), front).value.entry, op);
    }
  }

  /** ApplyBatchToRaw agrees with the single operations on an agreeable line, for every map iteration order. */
  lemma BatchRefinesSingleOperations(raw: Raw, b: Batch, o: Order)
    requires Agreeable(raw) && NonEmptyKeys(b) && ValidOrder(b, o)
    ensures AgreesOn(raw, BatchOps(b, o))
  {
    BatchOpsAreBatchOps(b, o);
    if WellTyped(raw) {
      WellTypedRun(raw, BatchOps(b, o));
    } else {
      InertRun(raw, BatchOps(b, o));
    }
  }

  lemma MarkSameEffect(s: Session, m: Object)
    ensures SameEffect(s, SetFields(s, [Edit(BackfillChecked, VBool(true))]), m)
  {
    OneField(s, Edit(BackfillChecked, VBool(true)));
  }

  lemma RegularMarkedEntry(raw: Raw, op: Op)
    requires Regular(raw) && op.Mark? && Addressed(op) && Edits(op, DecodeStrict(raw)) != []
    ensures MarkedEntry(raw) == SetFields(DecodeLoose(raw), [Edit(BackfillChecked, VBool(true))])
  {
    StrictIsLoose(raw);
    LineOpMeaning(raw, op);
    MarkedLine(raw, op);
  }

  /** Regular lines, in particular all lines with distinct, exactly spelled keys and no type error, are agreeable. */
  lemma RegularIsAgreeable(raw: Raw)
    requires Regular(raw)
    ensures Agreeable(raw)
  {
    var read := DecodeLoose(raw);
    StrictIsLoose(raw);
    if read.Str(SessionID) != "" && !read.Bool(BackfillChecked) {
      RegularMarkedEntry(raw, Mark({read.Str(SessionID)}));
      MarkSameEffect(read, MarkedObject(raw));
    }
  }

  // ---------------------------------------------------------------- small batches

  lemma OnePhaseOp(phase: Phase, k: string)
    requires phase.Keys() == {k}
    ensures Lists([k], phase.Keys()) && PhaseOps(phase, [k]) == [phase.At(k)]
  {
  }

  lemma NoPhaseOps(phase: Phase)
    requires phase.Keys() == {}
    ensures Lists([], phase.Keys()) && PhaseOps(phase, []) == []
  {
  }

  lemma MarkThenPin(sid: string, k: string, url: string) returns (b: Batch, o: Order)
    requires sid != "" && BatchOp(Pin(k, url))
    ensures NonEmptyKeys(b) && ValidOrder(b, o) && BatchOps(b, o) == [Mark({sid}), Pin(k, url)]
  {
    assert (set id | id in [sid]) == {sid};
    b := Batch([sid], map[k := url], map[], map[], map[]);
    o := Order([k], [], [], []);
    OnePhaseOp(Pins(b), k);
    NoPhaseOps(Adds(b));
    NoPhaseOps(Ends(b));
    NoPhaseOps(Metas(b));
  }

  lemma MarkThenAdd(sid: string, k: string, urls: seq<string>) returns (b: Batch, o: Order)
    requires sid != "" && BatchOp(AddURLs(k, urls))
    ensures NonEmptyKeys(b) && ValidOrder(b, o) && BatchOps(b, o) == [Mark({sid}), AddURLs(k, urls)]
  {
    assert (set id | id in [sid]) == {sid};
    b := Batch([sid], map[], map[k := urls], map[], map[]);
    o := Order([], [k], [], []);
    NoPhaseOps(Pins(b));
    OnePhaseOp(Adds(b), k);
    NoPhaseOps(Ends(b));
    NoPhaseOps(Metas(b));
  }

  lemma MarkThenEnd(sid: string, k: string, end: EndUpdate) returns (b: Batch, o: Order)
    requires sid != "" && BatchOp(End(k, end))
    ensures NonEmptyKeys(b) && ValidOrder(b, o) && BatchOps(b, o) == [Mark({sid}), End(k, end)]
  {
    assert (set id | id in [sid]) == {sid};
    b := Batch([sid], map[], map[], map[k := end], map[]);
    o := Order([], [], [k], []);
    NoPhaseOps(Pins(b));
    NoPhaseOps(Adds(b));
    OnePhaseOp(Ends(b), k);
    NoPhaseOps(Metas(b));
  }

  lemma MarkThenMeta(sid: string, k: string, meta: PRMeta) returns (b: Batch, o: Order)
    requires sid != "" && BatchOp(Meta(k, meta))
    ensures NonEmptyKeys(b) && ValidOrder(b, o) && BatchOps(b, o) == [Mark({sid}), Meta(k, meta)]
  {
    assert (set id | id in [sid]) == {sid};
    b := Batch([sid], map[], map[], map[], map[k := meta]);
    o := Order([], [], [], [k]);
    NoPhaseOps(Pins(b));
    NoPhaseOps(Adds(b));
    NoPhaseOps(Ends(b));
    OnePhaseOp(Metas(b), k);
  }

  /** A batch that marks some sessions and does one thing more. */
  lemma MarkThen(sid: string, op: Op) returns (b: Batch, o: Order)
    requires sid != "" && BatchOp(op) && !op.Mark?
    ensures NonEmptyKeys(b) && ValidOrder(b, o) && BatchOps(b, o) == [Mark({sid}), op]
  {
    match op
    case Pin(k, url) => b, o := MarkThenPin(sid, k, url);
    case AddURLs(k, urls) => b, o := MarkThenAdd(sid, k, urls);
    case End(k, end) => b, o := MarkThenEnd(sid, k, end);
    case Meta(k, meta) => b, o := MarkThenMeta(sid, k, meta);
  }

  /** A batch that pins one session and then ends one or refreshes a URL. */
  lemma PinThen(other: string, op: Op) returns (b: Batch, o: Order)
    requires other != "" && BatchOp(op) && (op.End? || op.Meta?)
    ensures NonEmptyKeys(b) && ValidOrder(b, o) && b.pinPRs.Keys == {other}
    ensures BatchOps(b, o) == [Pin(other, "x"), op]
  {
    match op
    case End(k, end) =>
      b := Batch([], map[other := "x"], map[], map[k := end], map[]);
      o := Order([other], [], [k], []);
      OnePhaseOp(Pins(b), other);
      NoPhaseOps(Adds(b));
      OnePhaseOp(Ends(b), k);
      NoPhaseOps(Metas(b));
    case Meta(k, meta) =>
      b := Batch([], map[other := "x"], map[], map[], map[k := meta]);
      o := Order([other], [], [], [k]);
      OnePhaseOp(Pins(b), other);
      NoPhaseOps(Adds(b));
      NoPhaseOps(Ends(b));
      OnePhaseOp(Metas(b), k);
  }

  /** The line after the code's first and second step. */
  lemma TwoSteps(st: LineState, first: Op, last: Op)
    requires EditRaw(st.raw, Edits(first, st.entry)).Some?
    ensures var raw1 := EditRaw(st.raw, Edits(first, st.entry)).value;
            var entry := if first.Mark? then st.entry else DecodeLoose(raw1);
            && CodeRun(st, [first]) == Some(LineState(raw1, entry))
            && CodeRun(st, [first, last]) == CodeStep(LineState(raw1, entry), last)
  {
    assert [first][..0] == [];
    assert [first, last][..1] == [first];
  }

  lemma TwoLineOps(raw: Raw, first: Op, last: Op)
    ensures LineRun(raw, [first, last]) == LineOp(LineOp(raw, first), last)
  {
    assert [first][..0] == [];
    assert LineRun(raw, [first]) == LineOp(raw, first);
    assert [first, last][..1] == [first];
  }

  // ---------------------------------------------------------------- lines dropped for a type error

  /** A number different from both. */
  function Other(a: int, b: int): (r: int)
    ensures r != a && r != b
  {
    if a != 0 && b != 0 then 0 else if a != 1 && b != 1 then 1 else 2
  }

  function OwnStr(m: Object, key: JsonKey): string {
    if key in m && m[key].meaning.VStr? then m[key].meaning.s else ""
  }

  function OwnInt(m: Object, key: JsonKey): int {
    if key in m && m[key].meaning.VNum? then m[key].meaning.n else 0
  }

  function OwnURLs(m: Object): seq<string> {
    if PRURLs in m && m[PRURLs].meaning.VStrs? then m[PRURLs].meaning.ss else []
  }

  /** An operation that ends the session or refreshes the URL of an entry with values seen nowhere before. */
  lemma FreshOp(read: Session, m: Object) returns (op: Op)
    requires !Inert(read)
    ensures BatchOp(op) && (op.End? || op.Meta?) && Edits(op, read) != []
    ensures !Holds(m, Edits(op, read))
  {
    if read.Str(SessionID) != "" {
      var end := EndUpdate(read.Str(EndedAt) + OwnStr(m, EndedAt) + "x", "");
      op := End(read.Str(SessionID), end);
      TwoSet(m, Edit(EndedAt, VStr(end.endedAt)), Edit(EndReason, VStr("")));
      assert SetAll(m, Edits(op, read))[EndedAt] == Encode(VStr(end.endedAt));
    } else {
      var u :| u in read.Strs(PRURLs) && u != "";
      var n := Other(read.Int(ReviewComments), OwnInt(m, ReviewComments));
      op := Meta(u, PRMeta(false, n, 0, ""));
      MetaSet(m, op.meta);
      assert SetAll(m, Edits(op, read))[ReviewComments] == Encode(VNum(n));
    }
  }

  lemma MissesEmpty(op: Op)
    requires BatchOp(op)
    ensures Edits(op, EMPTY_SESSION) == []
  {
    EmptySessionUntouched(op);
  }

  lemma LooseIsObject(raw: Raw)
    requires !Inert(DecodeLoose(raw))
    ensures ParseObject(raw).Some?
  {
  }

  lemma DroppedBatchRun(raw: Raw, op: Op)
    requires !WellTyped(raw) && BatchOp(op) && ParseObject(raw).Some? && Edits(op, DecodeLoose(raw)) != []
    ensures var st := CodeRun(LineState(raw, DecodeStrict(raw)), [Pin("x", "x"), op]);
            st.Some? && st.value.raw == Print(SetAll(ParseObject(raw).value, Edits(op, DecodeLoose(raw))))
  {
    MissesEmpty(Pin("x", "x"));
    TwoSteps(LineState(raw, EMPTY_SESSION), Pin("x", "x"), op);
    EditRawSetsAll(raw, Edits(op, DecodeLoose(raw)));
  }

  lemma DroppedLineRun(raw: Raw, op: Op)
    requires !WellTyped(raw) && BatchOp(op)
    ensures LineRun(raw, [Pin("x", "x"), op]) == raw
  {
    MissesEmpty(Pin("x", "x"));
    MissesEmpty(op);
    TwoLineOps(raw, Pin("x", "x"), op);
  }

  /** A line with a type error that can be found at all is found by some batch, and by no single operation. */
  lemma DroppedLineShows(raw: Raw)
    requires !WellTyped(raw) && !Inert(DecodeLoose(raw))
    ensures !AgreesOnEveryBatch(raw)
  {
    LooseIsObject(raw);
    var m := ParseObject(raw).value;
    var op := FreshOp(DecodeLoose(raw), m);
    var b, o := PinThen("x", op);
    DroppedBatchRun(raw, op);
    DroppedLineRun(raw, op);
    PrintParse(SetAll(m, Edits(op, DecodeLoose(raw))));
    assert !AgreesOn(raw, BatchOps(b, o));
  }

  // ---------------------------------------------------------------- lines that read differently after a rewrite

  /** A URL in neither list. */
  lemma FreshURL(a: seq<string>, b: seq<string>) returns (u: string)
    ensures u != "" && u !in a && u !in b
  {
    u := Longest(a) + Longest(b) + "x";
    LongestIsLongest(a);
    LongestIsLongest(b);
  }

  function Longest(a: seq<string>): string {
    if a == [] then "" else a[0] + Longest(a[1..])
  }

  lemma {:induction false} LongestIsLongest(a: seq<string>)
    ensures forall u :: u in a ==> |u| <= |Longest(a)|
  {
    if a != [] {
      LongestIsLongest(a[1..]);
      assert a == [a[0]] + a[1..];
    }
  }

  /** The step tells the two entries apart by what it makes of the object. */
  ghost predicate Tells(op: Op, s: Session, t: Session, m: Object) {
    BatchOp(op) && !op.Mark? && Effect(m, op, s) != Effect(m, op, t)
  }

  lemma PinTellsSession(s: Session, t: Session, m: Object) returns (op: Op)
    requires s.Str(SessionID) != "" && s.Str(SessionID) != t.Str(SessionID)
    ensures Tells(op, s, t, m)
  {
    var u := FreshURL(s.Strs(PRURLs), OwnURLs(m));
    op := Pin(s.Str(SessionID), u);
    assert s.Strs(PRURLs) == [u] ==> u in s.Strs(PRURLs);
    assert Edits(op, s) == PinEdits(u) && Edits(op, t) == [];
    TwoSet(m, Edit(PRURLs, VStrs([u])), Edit(PRPinned, VBool(true)));
    assert u in [u];
    assert SetAll(m, PinEdits(u))[PRURLs] == Encode(VStrs([u]));
  }

  lemma AddFresh(s: Session, u: string)
    requires !s.Bool(PRPinned) && u !in s.Strs(PRURLs)
    ensures AddEdits(s, [u]) == [Edit(PRURLs, VStrs(s.Strs(PRURLs) + [u]))]
  {
    assert [u][1..] == [];
    assert NewURLs(s.Strs(PRURLs), [u]) == [u];
  }

  lemma AddSets(s: Session, sid: string, u: string, m: Object)
    requires s.Str(SessionID) == sid && !s.Bool(PRPinned) && u !in s.Strs(PRURLs)
    ensures var after := Effect(m, AddURLs(sid, [u]), s);
            PRURLs in after && after[PRURLs] == Encode(VStrs(s.Strs(PRURLs) + [u]))
  {
    AddFresh(s, u);
    OneSet(m, AddEdits(s, [u])[0]);
  }

  lemma ListsDiffer(a: seq<string>, b: seq<string>, u: string)
    requires a != b
    ensures a + [u] != b + [u]
  {
    assert (a + [u])[..|a|] == a && (b + [u])[..|b|] == b;
  }

  lemma AddTellsPin(s: Session, t: Session, m: Object) returns (op: Op)
    requires s.Str(SessionID) != "" && s.Str(SessionID) == t.Str(SessionID)
    requires s.Bool(PRPinned) != t.Bool(PRPinned) || (!s.Bool(PRPinned) && s.Strs(PRURLs) != t.Strs(PRURLs))
    ensures Tells(op, s, t, m)
  {
    var u := FreshURL(s.Strs(PRURLs) + t.Strs(PRURLs), OwnURLs(m));
    op := AddURLs(s.Str(SessionID), [u]);
    if !s.Bool(PRPinned) {
      AddSets(s, s.Str(SessionID), u, m);
      assert (s.Strs(PRURLs) + [u])[|s.Strs(PRURLs)|] == u;
    }
    if !t.Bool(PRPinned) {
      AddSets(t, s.Str(SessionID), u, m);
      assert (t.Strs(PRURLs) + [u])[|t.Strs(PRURLs)|] == u;
    }
    if !s.Bool(PRPinned) && !t.Bool(PRPinned) {
      ListsDiffer(s.Strs(PRURLs), t.Strs(PRURLs), u);
    }
  }

  lemma PinTellsSingle(s: Session, t: Session, m: Object, u: string) returns (op: Op)
    requires s.Str(SessionID) != "" && s.Str(SessionID) == t.Str(SessionID) && s.Bool(PRPinned) && t.Bool(PRPinned)
    requires u != "" && !(s.Strs(PRURLs) == [u] <==> t.Strs(PRURLs) == [u]) && !Holds(m, PinEdits(u))
    ensures Tells(op, s, t, m)
  {
    op := Pin(s.Str(SessionID), u);
    assert Edits(op, s) == (if s.Strs(PRURLs) == [u] then [] else PinEdits(u));
    assert Edits(op, t) == (if t.Strs(PRURLs) == [u] then [] else PinEdits(u));
  }

  lemma MetaTellsURL(s: Session, t: Session, m: Object, u: string) returns (op: Op)
    requires u != "" && !(u in s.Strs(PRURLs) <==> u in t.Strs(PRURLs))
    ensures Tells(op, s, t, m)
  {
    var n := Other(if u in s.Strs(PRURLs) then s.Int(ReviewComments) else t.Int(ReviewComments), OwnInt(m, ReviewComments));
    op := Meta(u, PRMeta(false, n, 0, ""));
    MetaSet(m, op.meta);
    assert SetAll(m, MetaEdits(op.meta))[ReviewComments] == Encode(VNum(n));
  }

  /** Asking for what only one of the entries shows makes the other one write it. */
  lemma MetaTellsMeta(s: Session, t: Session, m: Object, u: string, meta: PRMeta) returns (op: Op)
    requires u != "" && u in s.Strs(PRURLs) && u in t.Strs(PRURLs)
    requires SameMeta(s, meta) != SameMeta(t, meta) && !Holds(m, MetaEdits(meta))
    ensures Tells(op, s, t, m)
  {
    op := Meta(u, meta);
  }

  /** An object does not hold two different values of a field. */
  lemma HoldsOneMeta(m: Object, a: PRMeta, b: PRMeta)
    requires a.(title := "") != b.(title := "") || (a.title != b.title && a.title != "" && b.title != "")
    ensures !Holds(m, MetaEdits(a)) || !Holds(m, MetaEdits(b))
  {
    MetaSet(m, a);
    MetaSet(m, b);
    var x, y := SetAll(m, MetaEdits(a)), SetAll(m, MetaEdits(b));
    assert x[IsMerged] == Encode(VBool(a.isMerged)) && y[IsMerged] == Encode(VBool(b.isMerged));
    assert x[ReviewComments] == Encode(VNum(a.reviewComments)) && y[ReviewComments] == Encode(VNum(b.reviewComments));
    assert x[ChangesRequested] == Encode(VNum(a.changesRequested)) && y[ChangesRequested] == Encode(VNum(b.changesRequested));
    assert a.title != "" ==> x[PRTitle] == Encode(VStr(a.title));
    assert b.title != "" ==> y[PRTitle] == Encode(VStr(b.title));
  }

  lemma MetaTellsMetadata(s: Session, t: Session, m: Object, u: string) returns (op: Op)
    requires u != "" && u in s.Strs(PRURLs) && u in t.Strs(PRURLs) && !SameMetadata(s, t, m)
    ensures Tells(op, s, t, m)
  {
    var a, b := MetaOf(s), MetaOf(t);
    if a.(title := "") != b.(title := "") {
      HoldsOneMeta(m, a, b);
      if !Holds(m, MetaEdits(a)) {
        op := MetaTellsMeta(s, t, m, u, a);
      } else {
        op := MetaTellsMeta(s, t, m, u, b);
      }
    } else if a.title != "" && !Holds(m, MetaEdits(a)) {
      op := MetaTellsMeta(s, t, m, u, a);
    } else {
      op := MetaTellsMeta(s, t, m, u, b);
    }
  }

  lemma EndTellsEnd(s: Session, t: Session, m: Object) returns (op: Op)
    requires s.Str(SessionID) != "" && s.Str(SessionID) == t.Str(SessionID) && !SameEnd(s, t, m)
    ensures Tells(op, s, t, m)
  {
    var shown := if s.Str(EndedAt) != "" && !Holds(m, EndEdits(s.Str(EndedAt), s.Str(EndReason))) then s else t;
    op := End(s.Str(SessionID), EndUpdate(shown.Str(EndedAt), shown.Str(EndReason)));
    assert Edits(op, shown) == [];
    assert Edits(op, if shown == s then t else s) == EndEdits(shown.Str(EndedAt), shown.Str(EndReason));
  }

  /** Entries from which not every step has the same effect can be told apart by one. */
  lemma SomeStepTells(s: Session, t: Session, m: Object) returns (op: Op)
    requires s.Str(SessionID) != "" && !SameEffect(s, t, m)
    ensures Tells(op, s, t, m)
  {
    if s.Str(SessionID) != t.Str(SessionID) {
      op := PinTellsSession(s, t, m);
    } else if s.Bool(PRPinned) != t.Bool(PRPinned) || (!s.Bool(PRPinned) && s.Strs(PRURLs) != t.Strs(PRURLs)) {
      op := AddTellsPin(s, t, m);
    } else if u :| u in s.Strs(PRURLs) + t.Strs(PRURLs) && u != "" && !(u in s.Strs(PRURLs) <==> u in t.Strs(PRURLs)) {
      op := MetaTellsURL(s, t, m, u);
    } else if u :| u in s.Strs(PRURLs) && u != "" &&
                   !(s.Strs(PRURLs) == [u] <==> t.Strs(PRURLs) == [u]) && !Holds(m, PinEdits(u)) {
      op := PinTellsSingle(s, t, m, u);
    } else {
      NoURLTells(s, t);
      if HasURL(s) && !SameMetadata(s, t, m) {
        var u :| u in s.Strs(PRURLs) && u != "";
        op := MetaTellsMetadata(s, t, m, u);
      } else {
        op := EndTellsEnd(s, t, m);
      }
    }
  }

  lemma NoURLTells(s: Session, t: Session)
    requires forall u :: u in s.Strs(PRURLs) + t.Strs(PRURLs) && u != "" ==> (u in s.Strs(PRURLs) <==> u in t.Strs(PRURLs))
    ensures forall u :: u in s.Strs(PRURLs) && u != "" ==> u in t.Strs(PRURLs)
    ensures forall u :: u in t.Strs(PRURLs) && u != "" ==> u in s.Strs(PRURLs)
  {
    assert forall u :: u in s.Strs(PRURLs) ==> u in s.Strs(PRURLs) + t.Strs(PRURLs);
    assert forall u :: u in t.Strs(PRURLs) ==> u in s.Strs(PRURLs) + t.Strs(PRURLs);
  }

  lemma PrintsDiffer(a: Object, b: Object)
    requires a != b
    ensures Print(a) != Print(b)
  {
    PrintParse(a);
    PrintParse(b);
  }

  /** After the marking, code and single operation decide from entries that some step can tell apart. */
  lemma StaleStepShows(raw: Raw, op: Op, b: Batch, o: Order)
    requires WellTyped(raw) && DecodeLoose(raw).Str(SessionID) != "" && !DecodeLoose(raw).Bool(BackfillChecked)
    requires Tells(op, DecodeLoose(raw), MarkedEntry(raw), MarkedObject(raw))
    requires NonEmptyKeys(b) && ValidOrder(b, o) && BatchOps(b, o) == [Mark({DecodeLoose(raw).Str(SessionID)}), op]
    ensures !AgreesOnEveryBatch(raw)
  {
    var read, mark, m := DecodeLoose(raw), Mark({DecodeLoose(raw).Str(SessionID)}), MarkedObject(raw);
    StrictIsLoose(raw);
    MarkedLine(raw, mark);
    var raw1 := LineOp(raw, mark);
    TwoSteps(LineState(raw, read), mark, op);
    TwoLineOps(raw, mark, op);
    CanonicalEdit(raw1, m, Edits(op, read));
    CanonicalEdit(raw1, m, Edits(op, MarkedEntry(raw)));
    PrintsDiffer(Effect(m, op, read), Effect(m, op, MarkedEntry(raw)));
    assert !AgreesOn(raw, BatchOps(b, o));
  }

  lemma LosingLineShows(raw: Raw)
    requires WellTyped(raw) && !Agreeable(raw)
    ensures !AgreesOnEveryBatch(raw)
  {
    var read := DecodeLoose(raw);
    var op := SomeStepTells(read, MarkedEntry(raw), MarkedObject(raw));
    var b, o := MarkThen(read.Str(SessionID), op);
    StaleStepShows(raw, op, b, o);
  }

  /**
   ApplyBatchToRaw and the single operations agree on a line, in bytes and in what they report, for
   every batch if and only if the line is agreeable: when it has a type error, it cannot be found
   at all; otherwise its session is none or checked already, or a rewrite keeps whatever of its
   entry the step after the marking can look at.
   */
  lemma BatchAgreementIsExact(raw: Raw)
    ensures AgreesOnEveryBatch(raw) <==> Agreeable(raw)
  {
    if Agreeable(raw) {
      forall b, o | NonEmptyKeys(b) && ValidOrder(b, o)
        ensures AgreesOn(raw, BatchOps(b, o))
      {
        BatchRefinesSingleOperations(raw, b, o);
      }
    } else if WellTyped(raw) {
      LosingLineShows(raw);
    } else {
      DroppedLineShows(raw);
    }
  }
}
