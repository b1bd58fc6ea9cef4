/**
 A line pinned to one URL stays pinned to it until another pin of its session.

 An operation decides from the entry it consults, which agrees with the line in session, pin and
 URLs, or is nothing at all when the line was dropped for a type error. In both cases it leaves the
 URLs of a pinned line alone unless it is a pin, so a run of operations does, and with it every
 change of the index, even on lines with type errors. What a rewrite itself can change, when the
 line repeats a key or spells it in another case too, are these three fields; a line where it does
 not is called pin stable.
 */
module PinSafety {
  import opened Common
  import opened JsonLine
  import opened SessionDecoder
  import opened SessionOps
  import opened BatchApply
  import opened BatchTheorems
  import opened IndexChanges
  import SyncDb

  /** The identifiers the callers insist on are there. */
  ghost predicate Wellformed(change: Change) {
    match change
    case Single(op) => Addressed(op)
    case Whole(b, o) => ValidOrder(b, o) && NonEmptyKeys(b)
    case AppendLine(_) => true
    case FillUser(_) => true
  }

  /** A pinned entry has exactly one URL. */
  predicate PinSafe(s: Session) {
    s.Bool(PRPinned) ==> |s.Strs(PRURLs)| == 1
  }

  /** Does the operation pin the session to a URL? */
  predicate PinsOp(op: Op, sid: string) {
    op.Pin? && op.pinned == sid
  }

  /** t is s with its pin intact, up to a new pin when mayPin holds. */
  ghost predicate PinKept(s: Session, t: Session, mayPin: bool) {
    && t.Str(SessionID) == s.Str(SessionID)
    && PinSafe(t)
    && (s.Bool(PRPinned) ==> t.Bool(PRPinned))
    && (s.Bool(PRPinned) && !mayPin ==> t.Strs(PRURLs) == s.Strs(PRURLs))
  }

  predicate SamePin(s: Session, t: Session) {
    s.Str(SessionID) == t.Str(SessionID) && s.Bool(PRPinned) == t.Bool(PRPinned) && s.Strs(PRURLs) == t.Strs(PRURLs)
  }

  /** A rewrite keeps the session, the pin and the URLs of the line. */
  ghost predicate PinStable(raw: Raw) {
    SamePin(DecodeLoose(raw), KeptEntry(raw))
  }

  /** Setting the URL list to one URL makes the object read as one URL: another spelling that overrides the list holds one. */
  ghost predicate FitsObject(m: Object) {
    URLsOverridden(m) ==> |KeptURLs(m)| == 1
  }

  ghost predicate PinFits(raw: Raw) {
    ParseObject(raw).Some? ==> FitsObject(ParseObject(raw).value)
  }

  /** A line whose pin a rewrite keeps, which has one URL if it is pinned, and has one after every pin of its session. */
  ghost predicate PinHeld(raw: Raw) {
    PinStable(raw) && PinSafe(DecodeLoose(raw)) && PinFits(raw)
  }

  lemma PinnedIsHeld(raw: Raw)
    requires PinStable(raw) && DecodeLoose(raw).Bool(PRPinned) && PinSafe(DecodeLoose(raw))
    ensures PinHeld(raw)
  {
  }

  /** The entry an operation consults: nothing at all, or one with the session, pin and URLs of the line. */
  ghost predicate Consulted(entry: Session, s: Session) {
    entry == EMPTY_SESSION || SamePin(entry, s)
  }

  lemma SetPin(s: Session, url: string)
    ensures var t := SetFields(s, [Edit(PRURLs, VStrs([url])), Edit(PRPinned, VBool(true))]);
            && t.Bool(PRPinned) && t.Strs(PRURLs) == [url]
            && t.Str(SessionID) == s.Str(SessionID)
  {
    TwoFields(s, Edit(PRURLs, VStrs([url])), Edit(PRPinned, VBool(true)));
  }

  lemma SparesURLs(m: Object, key: JsonKey, v: RawValue)
    requires KindOf(key).Some? && key != PRURLs
    ensures KeptURLs(m[key := v]) == KeptURLs(m)
  {
    SetSparesOthers(m, key, v, PRURLs);
    KeptURLsAre(m);
    KeptURLsAre(m[key := v]);
  }

  /** Setting a field changes no other spelling of the URL list. */
  lemma OverrideStays(m: Object, key: JsonKey, v: RawValue)
    requires KindOf(key).Some?
    ensures URLsOverridden(m[key := v]) <==> URLsOverridden(m)
  {
    assert FillingKeys(m[key := v], PRURLs) - {PRURLs} == FillingKeys(m, PRURLs) - {PRURLs};
    assert key !in KeysInOrder(FillingKeys(m, PRURLs) - {PRURLs});
    assert VariantValues(m[key := v], PRURLs) == VariantValues(m, PRURLs);
  }

  lemma SetFits(m: Object, e: Edit)
    requires Proper(e) && FitsObject(m)
    ensures FitsObject(m[e.key := Encode(e.value)])
  {
    OverrideStays(m, e.key, Encode(e.value));
    if e.key == PRURLs {
      SetURLs(m, e.value.ss);
    } else {
      SparesURLs(m, e.key, Encode(e.value));
    }
  }

  lemma {:induction false} SetAllFits(m: Object, edits: seq<Edit>)
    requires ProperEdits(edits) && FitsObject(m)
    ensures FitsObject(SetAll(m, edits))
    decreases |edits|
  {
    if edits != [] {
      assert edits[0] in edits && Proper(edits[0]);
      SetFits(m, edits[0]);
      SetAllFits(m[edits[0].key := Encode(edits[0].value)], edits[1..]);
    }
  }

  lemma RewriteFits(raw: Raw, edits: seq<Edit>)
    requires ProperEdits(edits) && edits != [] && EditRaw(raw, edits).Some? && PinFits(raw)
    ensures PinFits(EditRaw(raw, edits).value)
  {
    RewriteIsCanonical(raw, edits);
    SetAllFits(ParseObject(raw).value, edits);
  }

  lemma ShowsStr(raw: Raw, edits: seq<Edit>)
    requires ProperEdits(edits) && edits != [] && EditRaw(raw, edits).Some? && forall e :: e in edits ==> e.key != SessionID
    ensures DecodeLoose(EditRaw(raw, edits).value).Str(SessionID) == KeptEntry(raw).Str(SessionID)
  {
    RewriteSpares(raw, edits, SessionID);
    SameStr(DecodeLoose(EditRaw(raw, edits).value), KeptEntry(raw), SessionID);
  }

  lemma ShowsPinned(raw: Raw, edits: seq<Edit>)
    requires ProperEdits(edits) && edits != [] && EditRaw(raw, edits).Some? && forall e :: e in edits ==> e.key != PRPinned
    ensures DecodeLoose(EditRaw(raw, edits).value).Bool(PRPinned) == KeptEntry(raw).Bool(PRPinned)
  {
    RewriteSpares(raw, edits, PRPinned);
    SameBool(DecodeLoose(EditRaw(raw, edits).value), KeptEntry(raw), PRPinned);
  }

  lemma ShowsURLs(raw: Raw, edits: seq<Edit>)
    requires ProperEdits(edits) && edits != [] && EditRaw(raw, edits).Some? && forall e :: e in edits ==> e.key != PRURLs
    ensures DecodeLoose(EditRaw(raw, edits).value).Strs(PRURLs) == KeptEntry(raw).Strs(PRURLs)
  {
    RewriteSpares(raw, edits, PRURLs);
    SameStrs(DecodeLoose(EditRaw(raw, edits).value), KeptEntry(raw), PRURLs);
  }

  /** A rewritten line shows the same after every further rewrite. */
  lemma RewrittenIsStable(raw: Raw, edits: seq<Edit>)
    requires ProperEdits(edits) && edits != [] && EditRaw(raw, edits).Some?
    ensures PinStable(EditRaw(raw, edits).value)
  {
    RewriteIsCanonical(raw, edits);
  }

  lemma PinOnURLs(m: Object, url: string)
    ensures var m1 := m[PRURLs := Encode(VStrs([url]))];
            DecodeLoose(Print(m1[PRPinned := Encode(VBool(true))])).Strs(PRURLs) == KeptURLs(m1)
  {
    var m1 := m[PRURLs := Encode(VStrs([url]))];
    SetSparesOthers(m1, PRPinned, Encode(VBool(true)), PRURLs);
    KeptURLsAre(m1);
    KeptURLsAre(m1[PRPinned := Encode(VBool(true))]);
  }

  ghost function KeptPinned(m: Object): bool {
    DecodeLoose(Print(m)).Bool(PRPinned)
  }

  lemma KeptPinnedIs(m: Object)
    ensures KeptField(m, PRPinned) == VBool(KeptPinned(m))
  {
  }

  lemma SetPinned(m: Object)
    ensures KeptPinned(m[PRPinned := Encode(VBool(true))]) || !KeptPinned(m)
  {
    SetPlain(m, PRPinned, VBool(true));
    KeptPinnedIs(m);
    KeptPinnedIs(m[PRPinned := Encode(VBool(true))]);
  }

  lemma URLsSparePinned(m: Object, urls: seq<string>)
    ensures KeptPinned(m[PRURLs := Encode(VStrs(urls))]) == KeptPinned(m)
  {
    SetSparesOthers(m, PRURLs, Encode(VStrs(urls)), PRPinned);
    KeptPinnedIs(m);
    KeptPinnedIs(m[PRURLs := Encode(VStrs(urls))]);
  }

  lemma PinOnPinned(m: Object, url: string)
    ensures KeptPinned(m[PRURLs := Encode(VStrs([url]))][PRPinned := Encode(VBool(true))]) || !KeptPinned(m)
  {
    URLsSparePinned(m, [url]);
    SetPinned(m[PRURLs := Encode(VStrs([url]))]);
  }

  lemma PinRewrites(raw: Raw, url: string)
    requires EditRaw(raw, [Edit(PRURLs, VStrs([url])), Edit(PRPinned, VBool(true))]).Some?
    ensures var r := DecodeLoose(EditRaw(raw, [Edit(PRURLs, VStrs([url])), Edit(PRPinned, VBool(true))]).value);
            && (r.Bool(PRPinned) || !KeptEntry(raw).Bool(PRPinned))
            && if URLsOverridden(ParseObject(raw).value) then |r.Strs(PRURLs)| == |KeptEntry(raw).Strs(PRURLs)|
               else r.Strs(PRURLs) == [url]
  {
    EditRawSetsAll(raw, [Edit(PRURLs, VStrs([url])), Edit(PRPinned, VBool(true))]);
    var m := ParseObject(raw).value;
    TwoSet(m, Edit(PRURLs, VStrs([url])), Edit(PRPinned, VBool(true)));
    PinOnURLs(m, url);
    PinOnPinned(m, url);
    SetURLs(m, [url]);
  }

  /** Pinning leaves one URL if and only if the line is one where a pin fits. */
  lemma PinFitsExactly(raw: Raw, url: string)
    requires EditRaw(raw, [Edit(PRURLs, VStrs([url])), Edit(PRPinned, VBool(true))]).Some?
    ensures var r := DecodeLoose(EditRaw(raw, [Edit(PRURLs, VStrs([url])), Edit(PRPinned, VBool(true))]).value);
            |r.Strs(PRURLs)| == 1 <==> PinFits(raw)
  {
    EditRawSetsAll(raw, [Edit(PRURLs, VStrs([url])), Edit(PRPinned, VBool(true))]);
    PinRewrites(raw, url);
  }

  lemma EditsConsulted(op: Op, entry: Session, s: Session)
    requires Addressed(op) && Consulted(entry, s) && Edits(op, entry) != []
    ensures SamePin(entry, s)
  {
    if entry == EMPTY_SESSION { EmptySessionUntouched(op); }
  }

  lemma PinKeepsPin(raw: Raw, entry: Session, op: Op)
    requires op.Pin? && SamePin(entry, DecodeLoose(raw)) && PinHeld(raw)
    requires Edits(op, entry) != [] && EditRaw(raw, Edits(op, entry)).Some?
    ensures var r := EditRaw(raw, Edits(op, entry)).value;
            PinHeld(r) && PinKept(DecodeLoose(raw), DecodeLoose(r), true)
  {
    var edits := Edits(op, entry);
    EditsAreProper(op, entry);
    ShowsStr(raw, edits);
    RewrittenIsStable(raw, edits);
    PinRewrites(raw, op.prURL);
    RewriteFits(raw, edits);
  }

  lemma RewriteSparesPin(raw: Raw, edits: seq<Edit>)
    requires ProperEdits(edits) && edits != [] && EditRaw(raw, edits).Some?
    requires forall e :: e in edits ==> e.key != SessionID && e.key != PRPinned && e.key != PRURLs
    ensures SamePin(DecodeLoose(EditRaw(raw, edits).value), KeptEntry(raw))
  {
    ShowsStr(raw, edits);
    ShowsPinned(raw, edits);
    ShowsURLs(raw, edits);
  }

  lemma SparingEdits(op: Op, entry: Session)
    requires op.Mark? || op.End? || op.Meta?
    ensures forall e :: e in Edits(op, entry) ==> e.key != SessionID && e.key != PRPinned && e.key != PRURLs
  {
    EditsTouch(op, entry);
  }

  /** A line that shows the same is held as before. */
  lemma StillHeld(raw: Raw, r: Raw)
    requires PinHeld(raw) && PinStable(r) && SamePin(DecodeLoose(r), KeptEntry(raw))
    requires PinFits(r)
    ensures PinHeld(r) && SamePin(DecodeLoose(r), DecodeLoose(raw))
  {
  }

  /** Marking, ending and metadata show nothing new of session, pin and URLs. */
  lemma SparingKeepsPin(raw: Raw, entry: Session, op: Op)
    requires (op.Mark? || op.End? || op.Meta?) && PinHeld(raw)
    requires Edits(op, entry) != [] && EditRaw(raw, Edits(op, entry)).Some?
    ensures var r := EditRaw(raw, Edits(op, entry)).value;
            PinHeld(r) && SamePin(DecodeLoose(r), DecodeLoose(raw))
  {
    var edits := Edits(op, entry);
    EditsAreProper(op, entry);
    SparingEdits(op, entry);
    RewriteSparesPin(raw, edits);
    RewrittenIsStable(raw, edits);
    RewriteFits(raw, edits);
    StillHeld(raw, EditRaw(raw, edits).value);
  }

  /** URLs are added to unpinned lines only. */
  lemma AddingKeepsPin(raw: Raw, entry: Session, op: Op)
    requires (op.AddURLs? || op.AddByBranch?) && SamePin(entry, DecodeLoose(raw)) && PinHeld(raw)
    requires Edits(op, entry) != [] && EditRaw(raw, Edits(op, entry)).Some?
    ensures var r := EditRaw(raw, Edits(op, entry)).value;
            && PinHeld(r) && DecodeLoose(r).Str(SessionID) == DecodeLoose(raw).Str(SessionID)
            && !DecodeLoose(raw).Bool(PRPinned) && !DecodeLoose(r).Bool(PRPinned)
  {
    var edits := Edits(op, entry);
    EditsAreProper(op, entry);
    EditsTouch(op, entry);
    ShowsStr(raw, edits);
    ShowsPinned(raw, edits);
    RewrittenIsStable(raw, edits);
    RewriteFits(raw, edits);
  }

  /** A rewritten line shows the pin as before, or the new one, and will lose nothing in further rewrites. */
  lemma RewriteKeepsPin(raw: Raw, entry: Session, op: Op)
    requires Addressed(op) && PinHeld(raw) && Consulted(entry, DecodeLoose(raw))
    requires EditRaw(raw, Edits(op, entry)).Some?
    ensures var r := EditRaw(raw, Edits(op, entry)).value;
            && PinHeld(r) && PinKept(DecodeLoose(raw), DecodeLoose(r), PinsOp(op, DecodeLoose(raw).Str(SessionID)))
            && (op.Mark? ==> SamePin(DecodeLoose(r), DecodeLoose(raw)))
  {
    if Edits(op, entry) != [] {
      EditsConsulted(op, entry, DecodeLoose(raw));
      if op.Pin? {
        PinKeepsPin(raw, entry, op);
      } else if op.AddURLs? || op.AddByBranch? {
        AddingKeepsPin(raw, entry, op);
      } else {
        SparingKeepsPin(raw, entry, op);
      }
    }
  }

  // ---------------------------------------------------------------- a whole change

  lemma {:induction false} RunKeepsPin(st: LineState, ops: seq<Op>)
    requires AllAddressed(ops) && CodeRun(st, ops).Some?
    requires PinHeld(st.raw) && Consulted(st.entry, DecodeLoose(st.raw))
    ensures var end, s := CodeRun(st, ops).value, DecodeLoose(st.raw);
            && PinHeld(end.raw) && Consulted(end.entry, DecodeLoose(end.raw))
            && PinKept(s, DecodeLoose(end.raw), exists i :: 0 <= i < |ops| && PinsOp(ops[i], s.Str(SessionID)))
  {
    if ops != [] {
      var front, op := ops[..|ops| - 1], ops[|ops| - 1];
      RunKeepsPin(st, front);
      var mid := CodeRun(st, front).value;
      RewriteKeepsPin(mid.raw, mid.entry, op);
    }
  }

  /** Does the change pin the session to a URL? */
  predicate Pinning(change: Change, sid: string) {
    match change
    case Single(op) => PinsOp(op, sid)
    case Whole(b, _) => sid in b.pinPRs
    case AppendLine(_) => false
    case FillUser(_) => false
  }

  lemma PinsOfBatch(b: Batch, o: Order, sid: string)
    requires ValidOrder(b, o)
    ensures (exists i :: 0 <= i < |BatchOps(b, o)| && PinsOp(BatchOps(b, o)[i], sid)) ==> sid in b.pinPRs
  {
    if i :| 0 <= i < |BatchOps(b, o)| && PinsOp(BatchOps(b, o)[i], sid) {
      var op := BatchOps(b, o)[i];
      InPhaseOps(Pins(b), o.pins, op);
      InPhaseOps(Adds(b), o.sessions, op);
      InPhaseOps(Ends(b), o.ends, op);
      InPhaseOps(Metas(b), o.metas, op);
    }
  }

  lemma SamePinByField(s: Session, t: Session)
    requires forall key :: key in {SessionID, PRPinned, PRURLs} ==> FieldOf(s, key) == FieldOf(t, key)
    ensures SamePin(s, t)
  {
    assert FieldOf(s, SessionID) == FieldOf(t, SessionID);
    assert FieldOf(s, PRPinned) == FieldOf(t, PRPinned);
    assert FieldOf(s, PRURLs) == FieldOf(t, PRURLs);
  }

  lemma FilledSamePin(raw: Raw, user: string)
    ensures SamePin(DecodeLoose(raw), DecodeLoose(FillLine(raw, user)))
  {
    forall key | key in {SessionID, PRPinned, PRURLs}
      ensures FieldOf(DecodeLoose(raw), key) == FieldOf(DecodeLoose(FillLine(raw, user)), key)
    {
      FilledEntry(raw, user, key);
    }
    SamePinByField(DecodeLoose(raw), DecodeLoose(FillLine(raw, user)));
  }

  lemma SamePinHeld(raw: Raw, r: Raw)
    requires PinHeld(raw) && SamePin(DecodeLoose(raw), DecodeLoose(r)) && PinStable(r) && PinFits(r)
    ensures PinHeld(r) && PinKept(DecodeLoose(raw), DecodeLoose(r), false)
  {
  }

  lemma FillKeepsPin(raw: Raw, user: string)
    requires PinHeld(raw)
    ensures PinHeld(FillLine(raw, user)) && PinKept(DecodeLoose(raw), DecodeLoose(FillLine(raw, user)), false)
  {
    if FillLine(raw, user) != raw {
      FilledEntry(raw, user, SessionID);
      FilledSamePin(raw, user);
      RegularFits(FillLine(raw, user));
      SamePinHeld(raw, FillLine(raw, user));
    }
  }

  lemma RegularFits(raw: Raw)
    requires Regular(raw)
    ensures PinFits(raw) && PinStable(raw)
  {
    if ParseObject(raw).Some? {
      forall k | k in ParseObject(raw).value && Fills(k) == Some(PRURLs)
        ensures k == PRURLs
      {
        if k != PRURLs { VariantIsNamed(k, PRURLs); }
      }
      NoVariantsNoOverride(ParseObject(raw).value);
    }
  }

  lemma BatchKeepsPin(raw: Raw, b: Batch, o: Order)
    requires ValidOrder(b, o) && NonEmptyKeys(b) && PinHeld(raw)
    requires CodeRun(LineState(raw, DecodeStrict(raw)), BatchOps(b, o)).Some?
    ensures var r := CodeRun(LineState(raw, DecodeStrict(raw)), BatchOps(b, o)).value.raw;
            PinHeld(r) && PinKept(DecodeLoose(raw), DecodeLoose(r), DecodeLoose(raw).Str(SessionID) in b.pinPRs)
  {
    BatchOpsAddressed(b, o);
    assert Consulted(DecodeStrict(raw), DecodeLoose(raw));
    RunKeepsPin(LineState(raw, DecodeStrict(raw)), BatchOps(b, o));
    PinsOfBatch(b, o, DecodeLoose(raw).Str(SessionID));
  }

  /** One change keeps the pin of a pin-stable line, even of a line with type errors. */
  lemma ChangeKeepsPin(raw: Raw, change: Change)
    requires Wellformed(change) && PinHeld(raw) && LineResult(raw, change).Some?
    ensures PinHeld(LineResult(raw, change).value)
    ensures PinKept(DecodeLoose(raw), DecodeLoose(LineResult(raw, change).value),
                    Pinning(change, DecodeLoose(raw).Str(SessionID)))
  {
    match change
    case Single(op) => RewriteKeepsPin(raw, DecodeStrict(raw), op);
    case Whole(b, o) => BatchKeepsPin(raw, b, o);
    case AppendLine(_) =>
    case FillUser(user) => FillKeepsPin(raw, user);
  }

  // ---------------------------------------------------------------- pinned and resolved in one batch

  lemma PinnedEntryKeepsURL(s: Session, op: Op)
    requires s.Bool(PRPinned) && !op.Pin?
    ensures SessionOp(s, op).Bool(PRPinned) && SessionOp(s, op).Strs(PRURLs) == s.Strs(PRURLs)
  {
    EditsTouch(op, s);
    SessionOpFrame(s, op);
  }

  lemma PinOpPins(s: Session, sid: string, url: string)
    requires s.Str(SessionID) == sid
    ensures SessionOp(s, Pin(sid, url)).Bool(PRPinned) && SessionOp(s, Pin(sid, url)).Strs(PRURLs) == [url]
  {
    if Edits(Pin(sid, url), s) != [] {
      SetPin(s, url);
    }
  }

  ghost predicate PinnedTo(raw: Raw, url: string) {
    Regular(raw) && DecodeStrict(raw).Bool(PRPinned) && DecodeStrict(raw).Strs(PRURLs) == [url]
  }

  lemma PinnedLineKeepsURL(raw: Raw, op: Op, url: string)
    requires PinnedTo(raw, url) && Addressed(op) && !op.Pin?
    ensures PinnedTo(LineOp(raw, op), url)
  {
    LineOpMeaning(raw, op);
    PinnedEntryKeepsURL(DecodeStrict(raw), op);
  }

  lemma {:induction false} PinnedRunKeepsURL(raw: Raw, ops: seq<Op>, url: string)
    requires PinnedTo(raw, url) && Plain(ops) && forall i :: 0 <= i < |ops| ==> !ops[i].Pin?
    ensures PinnedTo(LineRun(raw, ops), url)
  {
    if ops != [] {
      PinnedRunKeepsURL(raw, ops[..|ops| - 1], url);
      PinnedLineKeepsURL(LineRun(raw, ops[..|ops| - 1]), ops[|ops| - 1], url);
    }
  }

  /** The line of a session pinned by the batch, after the pins. */
  lemma PinPhasePins(raw: Raw, b: Batch, keys: seq<string>)
    requires Regular(raw) && NonEmptyKeys(b) && Lists(keys, Pins(b).Keys())
    requires SID(raw) in b.pinPRs
    ensures PinnedTo(LineRun(raw, PhaseOps(Pins(b), keys)), b.pinPRs[SID(raw)])
  {
    PhasesAreKeyed(b);
    PhaseResult(raw, Pins(b), keys);
    LineOpMeaning(raw, Pin(SID(raw), b.pinPRs[SID(raw)]));
    PinOpPins(DecodeStrict(raw), SID(raw), b.pinPRs[SID(raw)]);
  }

  /** What a batch does after the pins. */
  ghost function LateOps(b: Batch, o: Order): seq<Op>
    requires ValidOrder(b, o)
  {
    PhaseOps(Adds(b), o.sessions) + PhaseOps(Ends(b), o.ends) + PhaseOps(Metas(b), o.metas)
  }

  lemma BatchShape(b: Batch, o: Order)
    requires ValidOrder(b, o)
    ensures BatchOps(b, o) == MarkOps(b) + PhaseOps(Pins(b), o.pins) + LateOps(b, o)
  {
  }

  lemma LateOpsPlain(b: Batch, o: Order)
    requires ValidOrder(b, o) && NonEmptyKeys(b)
    ensures Plain(LateOps(b, o)) && forall i :: 0 <= i < |LateOps(b, o)| ==> !LateOps(b, o)[i].Pin?
  {
    PhasesArePlain(b, o);
  }

  lemma LineRunThree(raw: Raw, a: seq<Op>, b: seq<Op>, c: seq<Op>)
    ensures LineRun(raw, a + b + c) == LineRun(LineRun(LineRun(raw, a), b), c)
  {
    LineRunAppend(raw, a + b, c);
    LineRunAppend(raw, a, b);
  }

  lemma PinnedAfterPins(raw: Raw, b: Batch, o: Order)
    requires Regular(raw) && NonEmptyKeys(b) && ValidOrder(b, o)
    requires SID(raw) in b.pinPRs
    ensures PinnedTo(LineRun(LineRun(raw, MarkOps(b)), PhaseOps(Pins(b), o.pins)), b.pinPRs[SID(raw)])
  {
    MarkResult(raw, b);
    PinPhasePins(LineRun(raw, MarkOps(b)), b, o.pins);
  }

  /** A session both pinned and resolved by one batch ends with exactly the pinned URL. */
  lemma PinWinsInBatch(raw: Raw, b: Batch, o: Order)
    requires Regular(raw) && NonEmptyKeys(b) && ValidOrder(b, o)
    requires SID(raw) in b.pinPRs
    ensures PinnedTo(LineRun(raw, BatchOps(b, o)), b.pinPRs[SID(raw)])
  {
    var marked := LineRun(raw, MarkOps(b));
    BatchShape(b, o);
    LineRunThree(raw, MarkOps(b), PhaseOps(Pins(b), o.pins), LateOps(b, o));
    PinnedAfterPins(raw, b, o);
    LateOpsPlain(b, o);
    PinnedRunKeepsURL(LineRun(marked, PhaseOps(Pins(b), o.pins)), LateOps(b, o), b.pinPRs[SID(raw)]);
  }

  /** The URL sync-db stores for a safely pinned session is the pinned one, unless it is the dummy. */
  lemma PinnedURLIsStored(s: Session, dummy: string)
    requires PinSafe(s) && s.Bool(PRPinned)
    ensures SyncDb.StoredURL(s, dummy) == if s.Strs(PRURLs) == [dummy] then "" else s.Strs(PRURLs)[0]
  {
    assert s.Strs(PRURLs) == [s.Strs(PRURLs)[0]];
  }
}
