/**
 What a batch does to a line does not depend on map iteration order, and is done once.

 Each of the first phases touches a line through the one key that is its session id, so those
 phases amount to at most three single operations, in every order. The metadata phase is a
 sequence of joins; compatible updates join to one update that no order can change, and two
 incompatible ones can be told apart by which of them comes last. Nothing a later phase does
 gives an earlier operation new work, which makes a second application empty.
 */
module BatchTheorems {
  import opened Common
  import opened JsonLine
  import opened SessionDecoder
  import opened SessionOps
  import opened BatchApply

  // ---------------------------------------------------------------- effects on a decoded entry

  /** t reads like s outside the given fields. */
  ghost predicate SameOutside(s: Session, t: Session, keys: set<JsonKey>) {
    forall key, kind :: key !in keys ==> t.Get(key, kind) == s.Get(key, kind)
  }

  lemma {:induction false} SetFieldsFrame(s: Session, edits: seq<Edit>, keys: set<JsonKey>)
    requires forall e :: e in edits ==> e.key in keys
    ensures SameOutside(s, SetFields(s, edits), keys)
    decreases |edits|
  {
    if edits != [] {
      assert edits[0] in edits;
      SetFieldsFrame(Session(s.fields[edits[0].key := edits[0].value]), edits[1..], keys);
    }
  }

  /** The fields an operation can change. */
  function Touches(op: Op): set<JsonKey> {
    match op
    case Mark(_) => {BackfillChecked}
    case Pin(_, _) => {PRURLs, PRPinned}
    case AddURLs(_, _) => {PRURLs}
    case AddByBranch(_, _, _) => {PRURLs}
    case End(_, _) => {EndedAt, EndReason}
    case Meta(_, _) => {IsMerged, ReviewComments, ChangesRequested, PRTitle}
  }

  lemma EditsTouch(op: Op, entry: Session)
    ensures forall e :: e in Edits(op, entry) ==> e.key in Touches(op)
    ensures entry.Bool(PRPinned) && PRURLs in Touches(op) && !op.Pin? ==> Edits(op, entry) == []
  {
  }

  lemma SessionOpFrame(s: Session, op: Op)
    ensures SameOutside(s, SessionOp(s, op), Touches(op))
  {
    SetFieldsFrame(s, Edits(op, s), Touches(op));
  }

  lemma OneField(s: Session, e: Edit)
    ensures SetFields(s, [e]).fields == s.fields[e.key := e.value]
  {
    assert [e][1..] == [];
  }

  lemma TwoFields(s: Session, e1: Edit, e2: Edit)
    ensures SetFields(s, [e1, e2]).fields == s.fields[e1.key := e1.value][e2.key := e2.value]
  {
    assert [e1, e2][1..] == [e2];
    OneField(Session(s.fields[e1.key := e1.value]), e2);
  }

  lemma MetaFields(s: Session, meta: PRMeta)
    ensures var f := s.fields[IsMerged := VBool(meta.isMerged)][ReviewComments := VNum(meta.reviewComments)]
                       [ChangesRequested := VNum(meta.changesRequested)];
            SetFields(s, MetaEdits(meta)).fields == if meta.title == "" then f else f[PRTitle := VStr(meta.title)]
  {
    var edits := MetaEdits(meta);
    var s1 := Session(s.fields[IsMerged := VBool(meta.isMerged)]);
    assert SetFields(s, edits) == SetFields(s1, edits[1..]);
    var s2 := Session(s1.fields[ReviewComments := VNum(meta.reviewComments)]);
    assert SetFields(s1, edits[1..]) == SetFields(s2, edits[1..][1..]);
    assert edits[1..][1..] == edits[2..];
    var s3 := Session(s2.fields[ChangesRequested := VNum(meta.changesRequested)]);
    assert SetFields(s2, edits[2..]) == SetFields(s3, edits[2..][1..]);
    if meta.title == "" {
      assert edits[2..][1..] == [];
    } else {
      assert edits[2..][1..] == [Edit(PRTitle, VStr(meta.title))];
      OneField(s3, Edit(PRTitle, VStr(meta.title)));
    }
  }

  lemma AddSettles(s: Session, add: seq<string>)
    requires AddEdits(s, add) != []
    ensures AddEdits(SetFields(s, AddEdits(s, add)), add) == []
  {
    OneField(s, AddEdits(s, add)[0]);
    NewURLsExhausted(s.Strs(PRURLs), add);
  }

  lemma PinSettles(s: Session, url: string)
    ensures var t := SetFields(s, [Edit(PRURLs, VStrs([url])), Edit(PRPinned, VBool(true))]);
            t.Bool(PRPinned) && t.Strs(PRURLs) == [url]
  {
    TwoFields(s, Edit(PRURLs, VStrs([url])), Edit(PRPinned, VBool(true)));
  }

  lemma EndSettles(s: Session, end: EndUpdate)
    ensures var t := SetFields(s, [Edit(EndedAt, VStr(end.endedAt)), Edit(EndReason, VStr(end.reason))]);
            t.Str(EndedAt) == end.endedAt && t.Str(EndReason) == end.reason
  {
    TwoFields(s, Edit(EndedAt, VStr(end.endedAt)), Edit(EndReason, VStr(end.reason)));
  }

  lemma MetaSettles(s: Session, meta: PRMeta)
    ensures SameMeta(SetFields(s, MetaEdits(meta)), meta)
  {
    MetaFields(s, meta);
  }

  /** An operation that changed an entry has nothing left to do on it. */
  lemma OpSettles(s: Session, op: Op)
    ensures Edits(op, SessionOp(s, op)) == []
  {
    SessionOpFrame(s, op);
    if Edits(op, s) != [] {
      match op
      case Mark(_) => OneField(s, Edit(BackfillChecked, VBool(true)));
      case Pin(_, url) => PinSettles(s, url);
      case AddURLs(_, urls) => AddSettles(s, urls);
      case AddByBranch(_, _, url) => AddSettles(s, [url]);
      case End(_, end) => EndSettles(s, end);
      case Meta(_, meta) => MetaSettles(s, meta);
    }
  }

  /** The effect of operations one by one on a decoded entry. */
  function SessionRun(s: Session, ops: seq<Op>): Session {
    if ops == [] then s else SessionOp(SessionRun(s, ops[..|ops| - 1]), ops[|ops| - 1])
  }

  lemma {:induction false} SessionRunAppend(s: Session, a: seq<Op>, b: seq<Op>)
    ensures SessionRun(s, a + b) == SessionRun(SessionRun(s, a), b)
  {
    if b == [] {
      assert a + b == a;
    } else {
      assert (a + b)[..|a + b| - 1] == a + b[..|b| - 1];
      SessionRunAppend(s, a, b[..|b| - 1]);
    }
  }

  /** Running operations on the text and on the entry gives the same entry. */
  lemma {:induction false} LineRunDecodes(raw: Raw, ops: seq<Op>)
    requires Regular(raw) && AllAddressed(ops)
    ensures Regular(LineRun(raw, ops))
    ensures DecodeStrict(LineRun(raw, ops)) == SessionRun(DecodeStrict(raw), ops)
  {
    if ops != [] {
      LineRunDecodes(raw, ops[..|ops| - 1]);
      LineOpMeaning(LineRun(raw, ops[..|ops| - 1]), ops[|ops| - 1]);
    }
  }

  // ---------------------------------------------------------------- order of the keyed phases

  /** Each operation of the phase concerns only the session whose id is its key. */
  ghost predicate KeyedBySession(phase: Phase) {
    forall k :: k in phase.Keys() ==>
      match phase.At(k)
      case Pin(sid, _) => sid == k
      case AddURLs(sid, _) => sid == k
      case End(sid, _) => sid == k
      case _ => false
  }

  function SID(raw: Raw): string {
    DecodeStrict(raw).Str(SessionID)
  }

  /** No operation changes the session id of a line. */
  lemma LineOpKeepsSession(raw: Raw, op: Op)
    requires Regular(raw) && Addressed(op)
    ensures Regular(LineOp(raw, op)) && SID(LineOp(raw, op)) == SID(raw)
  {
    LineOpMeaning(raw, op);
    OpKeepsSession(DecodeStrict(raw), op);
  }

  lemma OpKeepsSession(s: Session, op: Op)
    ensures SessionOp(s, op).Str(SessionID) == s.Str(SessionID)
  {
    SessionOpFrame(s, op);
    assert SessionID !in Touches(op);
  }

  /** An operation of the phase whose key is not the line's session leaves the line alone. */
  lemma OtherSession(raw: Raw, phase: Phase, k: string)
    requires KeyedBySession(phase) && k in phase.Keys() && k != SID(raw)
    ensures LineOp(raw, phase.At(k)) == raw
  {
    var op := phase.At(k);
    assert !op.Mark? && !op.Meta? && !op.AddByBranch?;
    assert Edits(op, DecodeStrict(raw)) == [];
  }

  lemma PhaseStep(raw: Raw, phase: Phase, keys: seq<string>)
    requires keys != [] && forall k :: k in keys ==> k in phase.Keys()
    ensures var front, last := keys[..|keys| - 1], keys[|keys| - 1];
            LineRun(raw, PhaseOps(phase, keys)) == LineOp(LineRun(raw, PhaseOps(phase, front)), phase.At(last))
  {
    assert PhaseOps(phase, keys)[..|keys| - 1] == PhaseOps(phase, keys[..|keys| - 1]);
  }

  lemma LastOfDistinct(keys: seq<string>)
    requires keys != [] && Distinct(keys)
    ensures var front, last := keys[..|keys| - 1], keys[|keys| - 1];
            Distinct(front) && last !in front && forall k :: k in keys <==> k in front || k == last
  {
    assert keys == keys[..|keys| - 1] + [keys[|keys| - 1]];
  }

  /** A session-keyed phase amounts to the one operation of the line's own session, in every order. */
  lemma {:induction false} KeyedPhase(raw: Raw, phase: Phase, keys: seq<string>)
    requires Regular(raw) && KeyedBySession(phase)
    requires forall k :: k in phase.Keys() ==> Addressed(phase.At(k))
    requires Distinct(keys) && forall k :: k in keys ==> k in phase.Keys()
    ensures LineRun(raw, PhaseOps(phase, keys)) ==
            if SID(raw) in keys then LineOp(raw, phase.At(SID(raw))) else raw
  {
    if keys != [] {
      var front, last := keys[..|keys| - 1], keys[|keys| - 1];
      LastOfDistinct(keys);
      KeyedPhase(raw, phase, front);
      PhaseStep(raw, phase, keys);
      var mid := LineRun(raw, PhaseOps(phase, front));
      if SID(raw) in front {
        LineOpKeepsSession(raw, phase.At(SID(raw)));
      }
      if last != SID(raw) {
        OtherSession(mid, phase, last);
      }
    }
  }

  lemma PhasesAreKeyed(b: Batch)
    ensures KeyedBySession(Pins(b)) && KeyedBySession(Adds(b)) && KeyedBySession(Ends(b))
  {
  }

  lemma PhaseResult(raw: Raw, phase: Phase, keys: seq<string>)
    requires Regular(raw) && KeyedBySession(phase)
    requires forall k :: k in phase.Keys() ==> Addressed(phase.At(k))
    requires Lists(keys, phase.Keys())
    ensures LineRun(raw, PhaseOps(phase, keys)) == if SID(raw) in phase.Keys() then LineOp(raw, phase.At(SID(raw))) else raw
    ensures Regular(LineRun(raw, PhaseOps(phase, keys)))
    ensures SID(LineRun(raw, PhaseOps(phase, keys))) == SID(raw)
  {
    KeyedPhase(raw, phase, keys);
    if SID(raw) in phase.Keys() {
      LineOpKeepsSession(raw, phase.At(SID(raw)));
    }
  }

  lemma MarkResult(raw: Raw, b: Batch)
    requires Regular(raw) && NonEmptyKeys(b)
    ensures Regular(LineRun(raw, MarkOps(b))) && SID(LineRun(raw, MarkOps(b))) == SID(raw)
  {
    if MarkOps(b) != [] {
      assert MarkOps(b)[..0] == [];
      LineOpKeepsSession(raw, MarkOps(b)[0]);
    }
  }

  /** A line after the one operation of a session-keyed phase that can reach it. */
  ghost function PhaseLine(raw: Raw, phase: Phase, sid: string): Raw {
    if sid in phase.Keys() then LineOp(raw, phase.At(sid)) else raw
  }

  /** The line as the metadata phase finds it. */
  ghost function EarlyLine(raw: Raw, b: Batch): Raw {
    var sid := SID(raw);
    PhaseLine(PhaseLine(PhaseLine(LineRun(raw, MarkOps(b)), Pins(b), sid), Adds(b), sid), Ends(b), sid)
  }

  lemma LineRunFour(raw: Raw, m: seq<Op>, p: seq<Op>, a: seq<Op>, e: seq<Op>)
    ensures LineRun(raw, m + p + a + e) == LineRun(LineRun(LineRun(LineRun(raw, m), p), a), e)
  {
    LineRunAppend(raw, m, p);
    LineRunAppend(raw, m + p, a);
    LineRunAppend(raw, m + p + a, e);
  }

  ghost predicate RegularFor(raw: Raw, sid: string) {
    Regular(raw) && SID(raw) == sid
  }

  /** A phase keyed by session, all of whose operations have non-empty identifiers. */
  ghost predicate SessionPhase(phase: Phase) {
    KeyedBySession(phase) && forall k :: k in phase.Keys() ==> Addressed(phase.At(k))
  }

  lemma SessionPhases(b: Batch)
    requires NonEmptyKeys(b)
    ensures SessionPhase(Pins(b)) && SessionPhase(Adds(b)) && SessionPhase(Ends(b))
  {
    PhasesAreKeyed(b);
  }

  lemma PhaseAdvances(raw: Raw, phase: Phase, keys: seq<string>, sid: string)
    requires RegularFor(raw, sid) && SessionPhase(phase) && Lists(keys, phase.Keys())
    ensures LineRun(raw, PhaseOps(phase, keys)) == PhaseLine(raw, phase, sid)
    ensures RegularFor(PhaseLine(raw, phase, sid), sid)
  {
    PhaseResult(raw, phase, keys);
  }

  lemma TwoPhasesAdvance(raw: Raw, p: Phase, k1: seq<string>, q: Phase, k2: seq<string>, sid: string)
    requires RegularFor(raw, sid) && SessionPhase(p) && SessionPhase(q) && Lists(k1, p.Keys()) && Lists(k2, q.Keys())
    ensures LineRun(LineRun(raw, PhaseOps(p, k1)), PhaseOps(q, k2)) == PhaseLine(PhaseLine(raw, p, sid), q, sid)
    ensures RegularFor(PhaseLine(PhaseLine(raw, p, sid), q, sid), sid)
  {
    PhaseAdvances(raw, p, k1, sid);
    PhaseAdvances(PhaseLine(raw, p, sid), q, k2, sid);
  }

  lemma MarkAdvances(raw: Raw, b: Batch)
    requires Regular(raw) && NonEmptyKeys(b)
    ensures RegularFor(LineRun(raw, MarkOps(b)), SID(raw))
  {
    MarkResult(raw, b);
  }

  lemma EarlyPhases(raw: Raw, b: Batch, o: Order)
    requires Regular(raw) && NonEmptyKeys(b) && ValidOrder(b, o)
    ensures LineRun(raw, EarlyOps(b, o)) == EarlyLine(raw, b)
    ensures RegularFor(EarlyLine(raw, b), SID(raw))
  {
    var sid, marked := SID(raw), LineRun(raw, MarkOps(b));
    LineRunFour(raw, MarkOps(b), PhaseOps(Pins(b), o.pins), PhaseOps(Adds(b), o.sessions), PhaseOps(Ends(b), o.ends));
    MarkAdvances(raw, b);
    SessionPhases(b);
    TwoPhasesAdvance(marked, Pins(b), o.pins, Adds(b), o.sessions, sid);
    PhaseAdvances(PhaseLine(PhaseLine(marked, Pins(b), sid), Adds(b), sid), Ends(b), o.ends, sid);
  }

  // ---------------------------------------------------------------- the metadata phase

  /** The URLs a line holds when the metadata phase starts. */
  ghost function MetaURLs(raw: Raw, b: Batch): seq<string> {
    DecodeStrict(EarlyLine(raw, b)).Strs(PRURLs)
  }

  /** Two metadata updates that can both be satisfied by one entry. */
  predicate Compatible(m: PRMeta, n: PRMeta) {
    && m.isMerged == n.isMerged
    && m.reviewComments == n.reviewComments
    && m.changesRequested == n.changesRequested
    && (m.title == "" || n.title == "" || m.title == n.title)
  }

  /** All updates of the batch that hit the line are pairwise compatible. */
  ghost predicate MetasCompatible(urls: seq<string>, metas: map<string, PRMeta>) {
    forall u, v :: u in urls && v in urls && u in metas && v in metas ==> Compatible(metas[u], metas[v])
  }

  /** No two URLs of the line have different updates; in particular when only one of them is updated. */
  ghost predicate MetasEqual(urls: seq<string>, metas: map<string, PRMeta>) {
    forall u, v :: u in urls && v in urls && u in metas && v in metas ==> metas[u] == metas[v]
  }

  ghost predicate Hit(urls: seq<string>, keys: seq<string>, u: string) {
    u in urls && u in keys
  }

  lemma HitsOfFront(urls: seq<string>, keys: seq<string>)
    requires keys != []
    ensures forall v :: Hit(urls, keys, v) <==>
                        Hit(urls, keys[..|keys| - 1], v) || (v == keys[|keys| - 1] && v in urls)
  {
    assert keys == keys[..|keys| - 1] + [keys[|keys| - 1]];
  }

  /** The entry after one update that applies to it. */
  function Joined(s: Session, meta: PRMeta): Session {
    if SameMeta(s, meta) then s else SetFields(s, MetaEdits(meta))
  }

  lemma JoinedFrame(s: Session, meta: PRMeta)
    ensures Joined(s, meta).Strs(PRURLs) == s.Strs(PRURLs)
    ensures SameMeta(Joined(s, meta), meta)
  {
    MetaFields(s, meta);
  }

  /** The metadata phase on a decoded entry whose URLs are urls. */
  function MetaRun(s: Session, urls: seq<string>, metas: map<string, PRMeta>, keys: seq<string>): Session
    requires forall k :: k in keys ==> k in metas
  {
    if keys == [] then s
    else
      var front, last := keys[..|keys| - 1], keys[|keys| - 1];
      var mid := MetaRun(s, urls, metas, front);
      if last in urls then Joined(mid, metas[last]) else mid
  }

  lemma {:induction false} MetaRunKeepsURLs(s: Session, urls: seq<string>, metas: map<string, PRMeta>, keys: seq<string>)
    requires forall k :: k in keys ==> k in metas
    ensures MetaRun(s, urls, metas, keys).Strs(PRURLs) == s.Strs(PRURLs)
  {
    if keys != [] {
      var front, last := keys[..|keys| - 1], keys[|keys| - 1];
      MetaRunKeepsURLs(s, urls, metas, front);
      JoinedFrame(MetaRun(s, urls, metas, front), metas[last]);
    }
  }

  lemma {:induction false} MetaPhaseRun(s: Session, b: Batch, keys: seq<string>)
    requires forall k :: k in keys ==> k in b.prMetas
    ensures SessionRun(s, PhaseOps(Metas(b), keys)) == MetaRun(s, s.Strs(PRURLs), b.prMetas, keys)
  {
    if keys != [] {
      var front, last := keys[..|keys| - 1], keys[|keys| - 1];
      assert PhaseOps(Metas(b), keys)[..|keys| - 1] == PhaseOps(Metas(b), front);
      MetaPhaseRun(s, b, front);
      MetaRunKeepsURLs(s, s.Strs(PRURLs), b.prMetas, front);
      MetaOnEntry(SessionRun(s, PhaseOps(Metas(b), front)), last, b.prMetas[last]);
    }
  }

  lemma MetaOnEntry(s: Session, u: string, m: PRMeta)
    ensures SessionOp(s, Meta(u, m)) == if u in s.Strs(PRURLs) then Joined(s, m) else s
  {
  }

  // ---------------------------------------------------------------- bytes do not depend on the order

  lemma LineOpSkips(raw: Raw, op: Op)
    requires Edits(op, DecodeStrict(raw)) == []
    ensures LineOp(raw, op) == raw
  {
  }

  lemma {:induction false} MissedMetasPhase(raw: Raw, b: Batch, keys: seq<string>)
    requires forall k :: k in keys ==> k in b.prMetas && k !in DecodeStrict(raw).Strs(PRURLs)
    ensures LineRun(raw, PhaseOps(Metas(b), keys)) == raw
  {
    if keys != [] {
      var front, last := keys[..|keys| - 1], keys[|keys| - 1];
      assert PhaseOps(Metas(b), keys)[..|keys| - 1] == PhaseOps(Metas(b), front);
      MissedMetasPhase(raw, b, front);
      LineOpSkips(raw, Meta(last, b.prMetas[last]));
    }
  }

  lemma MetaOnLine(raw: Raw, u: string, m: PRMeta)
    requires Regular(raw) && u != "" && u in DecodeStrict(raw).Strs(PRURLs)
    ensures Regular(LineOp(raw, Meta(u, m)))
    ensures DecodeStrict(LineOp(raw, Meta(u, m))) == Joined(DecodeStrict(raw), m)
  {
    LineOpMeaning(raw, Meta(u, m));
  }

  ghost predicate SomeHit(urls: seq<string>, keys: seq<string>) {
    exists u :: Hit(urls, keys, u)
  }

  lemma SomeHitStep(urls: seq<string>, keys: seq<string>)
    requires keys != []
    ensures SomeHit(urls, keys) <==> SomeHit(urls, keys[..|keys| - 1]) || keys[|keys| - 1] in urls
  {
    HitsOfFront(urls, keys);
    assert keys[|keys| - 1] in urls ==> Hit(urls, keys, keys[|keys| - 1]);
  }

  /** Operations that either do nothing or all do the same thing, once. */
  lemma {:induction false} OnceForAll(raw: Raw, once: Raw, urls: seq<string>, b: Batch, keys: seq<string>)
    requires forall k :: k in keys ==> k in b.prMetas
    requires forall k :: k in keys ==> LineOp(raw, Meta(k, b.prMetas[k])) == if k in urls then once else raw
    requires forall k :: k in keys ==> LineOp(once, Meta(k, b.prMetas[k])) == once
    ensures LineRun(raw, PhaseOps(Metas(b), keys)) == if SomeHit(urls, keys) then once else raw
  {
    if keys == [] {
      assert forall v :: !Hit(urls, keys, v);
    } else {
      OnceForAll(raw, once, urls, b, keys[..|keys| - 1]);
      PhaseStep(raw, Metas(b), keys);
      SomeHitStep(urls, keys);
      assert keys[|keys| - 1] in keys;
    }
  }

  /** When all updates that hit the line are equal, the phase amounts to one of them. */
  lemma EqualMetasPhase(raw: Raw, b: Batch, keys: seq<string>, u: string)
    requires Regular(raw) && NonEmptyKeys(b)
    requires forall k :: k in keys ==> k in b.prMetas
    requires MetasEqual(DecodeStrict(raw).Strs(PRURLs), b.prMetas)
    requires u in DecodeStrict(raw).Strs(PRURLs) && u in b.prMetas
    ensures LineRun(raw, PhaseOps(Metas(b), keys)) ==
            if SomeHit(DecodeStrict(raw).Strs(PRURLs), keys) then LineOp(raw, Meta(u, b.prMetas[u])) else raw
  {
    var once, urls := LineOp(raw, Meta(u, b.prMetas[u])), DecodeStrict(raw).Strs(PRURLs);
    forall k | k in keys
      ensures LineOp(raw, Meta(k, b.prMetas[k])) == if k in urls then once else raw
      ensures LineOp(once, Meta(k, b.prMetas[k])) == once
    {
      EqualMetasStep(raw, b, u, k);
    }
    OnceForAll(raw, once, urls, b, keys);
  }

  /** An update leaves nothing to do for an equal one, nor for one that misses the entry. */
  lemma JoinedIsSettled(s: Session, m: PRMeta, u: string, n: PRMeta)
    requires u in s.Strs(PRURLs) ==> m == n
    ensures Edits(Meta(u, n), Joined(s, m)) == []
  {
    JoinedFrame(s, m);
  }

  lemma EqualMetasStep(raw: Raw, b: Batch, u: string, last: string)
    requires Regular(raw) && NonEmptyKeys(b) && last in b.prMetas
    requires MetasEqual(DecodeStrict(raw).Strs(PRURLs), b.prMetas)
    requires u in DecodeStrict(raw).Strs(PRURLs) && u in b.prMetas
    ensures var once := LineOp(raw, Meta(u, b.prMetas[u]));
            LineOp(once, Meta(last, b.prMetas[last])) == once
    ensures last in DecodeStrict(raw).Strs(PRURLs) ==>
              LineOp(raw, Meta(last, b.prMetas[last])) == LineOp(raw, Meta(u, b.prMetas[u]))
    ensures last !in DecodeStrict(raw).Strs(PRURLs) ==> LineOp(raw, Meta(last, b.prMetas[last])) == raw
  {
    assert u != "" && (last in DecodeStrict(raw).Strs(PRURLs) ==> b.prMetas[u] == b.prMetas[last]);
    MetaOnLine(raw, u, b.prMetas[u]);
    SettledOnLine(LineOp(raw, Meta(u, b.prMetas[u])), DecodeStrict(raw), b.prMetas[u], last, b.prMetas[last]);
    OtherMetaOnLine(raw, u, b.prMetas[u], last, b.prMetas[last]);
  }

  lemma SameEditsSameLine(raw: Raw, a: Op, b: Op)
    requires Edits(a, DecodeStrict(raw)) == Edits(b, DecodeStrict(raw))
    ensures LineOp(raw, a) == LineOp(raw, b)
  {
  }

  lemma SettledOnLine(once: Raw, s: Session, m: PRMeta, v: string, n: PRMeta)
    requires DecodeStrict(once) == Joined(s, m) && (v in s.Strs(PRURLs) ==> m == n)
    ensures LineOp(once, Meta(v, n)) == once
  {
    JoinedIsSettled(s, m, v, n);
    LineOpSkips(once, Meta(v, n));
  }

  lemma OtherMetaOnLine(raw: Raw, u: string, m: PRMeta, v: string, n: PRMeta)
    requires u in DecodeStrict(raw).Strs(PRURLs) && (v in DecodeStrict(raw).Strs(PRURLs) ==> m == n)
    ensures LineOp(raw, Meta(v, n)) == if v in DecodeStrict(raw).Strs(PRURLs) then LineOp(raw, Meta(u, m)) else raw
  {
    if v in DecodeStrict(raw).Strs(PRURLs) {
      SameMetaEdits(DecodeStrict(raw), u, v, m);
      SameEditsSameLine(raw, Meta(v, n), Meta(u, m));
    } else {
      LineOpSkips(raw, Meta(v, n));
    }
  }

  lemma SameMetaEdits(s: Session, u: string, v: string, m: PRMeta)
    requires u in s.Strs(PRURLs) && v in s.Strs(PRURLs)
    ensures Edits(Meta(u, m), s) == Edits(Meta(v, m), s)
  {
  }

  /** Every order of the maps gives the same bytes when no line holds URLs with different updates. */
  lemma OrderDoesNotMatter(raw: Raw, b: Batch, o1: Order, o2: Order)
    requires Regular(raw) && NonEmptyKeys(b) && ValidOrder(b, o1) && ValidOrder(b, o2)
    requires MetasEqual(MetaURLs(raw, b), b.prMetas)
    ensures LineRun(raw, BatchOps(b, o1)) == LineRun(raw, BatchOps(b, o2))
  {
    EarlyPhases(raw, b, o1);
    EarlyPhases(raw, b, o2);
    LineRunAppend(raw, EarlyOps(b, o1), PhaseOps(Metas(b), o1.metas));
    LineRunAppend(raw, EarlyOps(b, o2), PhaseOps(Metas(b), o2.metas));
    MetaPhaseOrder(EarlyLine(raw, b), b, o1.metas, o2.metas);
  }

  lemma MetaPhaseOrder(raw: Raw, b: Batch, k1: seq<string>, k2: seq<string>)
    requires Regular(raw) && NonEmptyKeys(b)
    requires Lists(k1, Metas(b).Keys()) && Lists(k2, Metas(b).Keys())
    requires MetasEqual(DecodeStrict(raw).Strs(PRURLs), b.prMetas)
    ensures LineRun(raw, PhaseOps(Metas(b), k1)) == LineRun(raw, PhaseOps(Metas(b), k2))
  {
    var urls := DecodeStrict(raw).Strs(PRURLs);
    if u :| u in urls && u in b.prMetas {
      assert u in Metas(b).Keys();
      EqualMetasPhase(raw, b, k1, u);
      EqualMetasPhase(raw, b, k2, u);
      assert Hit(urls, k1, u) && Hit(urls, k2, u);
    } else {
      MissedMetasPhase(raw, b, k1);
      MissedMetasPhase(raw, b, k2);
    }
  }

  // ---------------------------------------------------------------- exactly when entries are order-independent

  function Join(m: PRMeta, n: PRMeta): PRMeta {
    if m.title == "" then m.(title := n.title) else m
  }

  lemma JoinStep(s: Session, m: PRMeta, n: PRMeta)
    requires Compatible(m, n)
    ensures Joined(Joined(s, m), n) == Joined(s, Join(m, n))
  {
    if SameMeta(s, m) {
      if !SameMeta(s, n) {
        assert m.title == "" && Join(m, n) == n;
      }
    } else if m.title == "" && n.title != "" {
      JoinTitle(s, m, n);
    } else {
      assert Join(m, n) == m;
      JoinedFrame(s, m);
      assert SameMeta(Joined(s, m), n);
    }
  }

  /** The second of two compatible updates brings the title. */
  lemma JoinTitle(s: Session, m: PRMeta, n: PRMeta)
    requires Compatible(m, n) && m.title == "" && n.title != "" && !SameMeta(s, m)
    ensures Joined(Joined(s, m), n) == Joined(s, n)
  {
    var t := Joined(s, m);
    MetaFields(s, m);
    MetaFields(s, n);
    assert t.Str(PRTitle) == s.Str(PRTitle);
    if s.Str(PRTitle) == n.title {
      assert s.fields[PRTitle] == VStr(n.title);
      assert SameMeta(t, n);
      assert Joined(s, n).fields == t.fields;
    } else {
      MetaFields(t, n);
      assert Joined(t, n).fields == Joined(s, n).fields;
    }
  }

  /** join is the least update above all updates of the given URLs. */
  ghost predicate IsJoin(join: PRMeta, urls: seq<string>, keys: seq<string>, metas: map<string, PRMeta>)
    requires forall k :: k in keys ==> k in metas
  {
    && (forall u :: Hit(urls, keys, u) ==> Compatible(join, metas[u]) && (metas[u].title != "" ==> join.title != ""))
    && (join.title != "" ==> exists u :: Hit(urls, keys, u) && metas[u].title == join.title)
  }

  lemma {:induction false} MissedMetaRun(s: Session, urls: seq<string>, metas: map<string, PRMeta>, keys: seq<string>)
    requires forall k :: k in keys ==> k in metas && k !in urls
    ensures MetaRun(s, urls, metas, keys) == s
  {
    if keys != [] {
      MissedMetaRun(s, urls, metas, keys[..|keys| - 1]);
    }
  }

  /** The metadata phase is one joint update when all updates that hit the entry are compatible. */
  lemma {:induction false} CompatibleMetaRun(s: Session, urls: seq<string>, metas: map<string, PRMeta>, keys: seq<string>)
    returns (join: PRMeta)
    requires forall k :: k in keys ==> k in metas
    requires MetasCompatible(urls, metas)
    requires exists u :: Hit(urls, keys, u)
    ensures IsJoin(join, urls, keys, metas)
    ensures MetaRun(s, urls, metas, keys) == Joined(s, join)
  {
    var front, last := keys[..|keys| - 1], keys[|keys| - 1];
    HitsOfFront(urls, keys);
    if exists v :: Hit(urls, front, v) {
      var before := CompatibleMetaRun(s, urls, metas, front);
      if last in urls {
        join := Join(before, metas[last]);
        JoinCovers(before, urls, front, keys, metas, last);
        JoinStep(s, before, metas[last]);
      } else {
        join := before;
      }
    } else {
      assert Hit(urls, keys, last);
      assert forall k :: k in front ==> Hit(urls, front, k) || k !in urls;
      MissedMetaRun(s, urls, metas, front);
      join := metas[last];
      assert Compatible(join, join);
    }
  }

  lemma JoinCovers(before: PRMeta, urls: seq<string>, front: seq<string>, keys: seq<string>,
                   metas: map<string, PRMeta>, last: string)
    requires forall k :: k in keys ==> k in metas
    requires forall k :: k in front ==> k in keys
    requires forall v :: Hit(urls, keys, v) <==> Hit(urls, front, v) || v == last
    requires last in keys && last in urls
    requires IsJoin(before, urls, front, metas) && MetasCompatible(urls, metas)
    requires exists v :: Hit(urls, front, v)
    ensures Compatible(before, metas[last])
    ensures IsJoin(Join(before, metas[last]), urls, keys, metas)
  {
    var w :| Hit(urls, front, w);
    assert Compatible(metas[w], metas[last]);
    if before.title != "" {
      var v :| Hit(urls, front, v) && metas[v].title == before.title;
      assert Compatible(metas[v], metas[last]);
    }
    var join := Join(before, metas[last]);
    forall u | Hit(urls, keys, u)
      ensures Compatible(join, metas[u]) && (metas[u].title != "" ==> join.title != "")
    {
      assert Compatible(metas[u], metas[last]);
    }
    if join.title != "" {
      if before.title != "" {
        var v :| Hit(urls, front, v) && metas[v].title == before.title;
        assert Hit(urls, keys, v);
      } else {
        assert Hit(urls, keys, last);
      }
    }
  }

  lemma JoinIsUnique(m: PRMeta, n: PRMeta, urls: seq<string>, k1: seq<string>, k2: seq<string>,
                     metas: map<string, PRMeta>)
    requires forall k :: k in k1 ==> k in metas
    requires forall k :: k in k1 <==> k in k2
    requires IsJoin(m, urls, k1, metas) && IsJoin(n, urls, k2, metas)
    requires exists u :: Hit(urls, k1, u)
    ensures m == n
  {
    assert forall u :: Hit(urls, k1, u) <==> Hit(urls, k2, u);
    var u :| Hit(urls, k1, u);
    if m.title != "" {
      var v :| Hit(urls, k1, v) && metas[v].title == m.title;
      assert Hit(urls, k2, v);
    }
    if n.title != "" {
      var v :| Hit(urls, k2, v) && metas[v].title == n.title;
      assert Hit(urls, k1, v);
    }
  }

  lemma CompatibleMetaRunOrder(s: Session, urls: seq<string>, metas: map<string, PRMeta>, k1: seq<string>, k2: seq<string>)
    requires Lists(k1, metas.Keys) && Lists(k2, metas.Keys) && MetasCompatible(urls, metas)
    ensures MetaRun(s, urls, metas, k1) == MetaRun(s, urls, metas, k2)
  {
    if u :| Hit(urls, k1, u) {
      assert Hit(urls, k2, u);
      var m := CompatibleMetaRun(s, urls, metas, k1);
      var n := CompatibleMetaRun(s, urls, metas, k2);
      JoinIsUnique(m, n, urls, k1, k2, metas);
    } else {
      forall k | k in metas
        ensures k !in urls
      {
        assert k in k1 && !Hit(urls, k1, k);
      }
      MissedMetaRun(s, urls, metas, k1);
      MissedMetaRun(s, urls, metas, k2);
    }
  }

  /** The final entry of a line. */
  ghost function FinalEntry(raw: Raw, b: Batch, o: Order): Session
    requires ValidOrder(b, o)
  {
    DecodeStrict(LineRun(raw, BatchOps(b, o)))
  }

  lemma MetaPhaseEntry(raw: Raw, b: Batch, keys: seq<string>)
    requires Regular(raw) && NonEmptyKeys(b)
    requires forall k :: k in keys ==> k in b.prMetas
    ensures DecodeStrict(LineRun(raw, PhaseOps(Metas(b), keys)))
         == MetaRun(DecodeStrict(raw), DecodeStrict(raw).Strs(PRURLs), b.prMetas, keys)
  {
    PhaseIsPlain(Metas(b), keys);
    LineRunDecodes(raw, PhaseOps(Metas(b), keys));
    MetaPhaseRun(DecodeStrict(raw), b, keys);
  }

  lemma FinalEntryIsMetaRun(raw: Raw, b: Batch, o: Order)
    requires Regular(raw) && NonEmptyKeys(b) && ValidOrder(b, o)
    ensures forall k :: k in o.metas <==> k in b.prMetas
    ensures FinalEntry(raw, b, o) ==
            MetaRun(DecodeStrict(EarlyLine(raw, b)), MetaURLs(raw, b), b.prMetas, o.metas)
  {
    assert Metas(b).Keys() == b.prMetas.Keys;
    EarlyPhases(raw, b, o);
    LineRunAppend(raw, EarlyOps(b, o), PhaseOps(Metas(b), o.metas));
    MetaPhaseEntry(EarlyLine(raw, b), b, o.metas);
  }

  /** The order o with u and then v visited last. */
  ghost function Last(o: Order, u: string, v: string): Order {
    o.(metas := Filter((k: string) => k != u && k != v, o.metas) + [u, v])
  }

  lemma {:induction false} FilterKeepsDistinct(keep: string -> bool, s: seq<string>)
    requires Distinct(s)
    ensures Distinct(Filter(keep, s))
  {
    if s != [] {
      var front := s[..|s| - 1];
      FilterKeepsDistinct(keep, front);
      FilterMember(keep, front, s[|s| - 1]);
      assert s[|s| - 1] !in front;
    }
  }

  lemma LastIsValid(b: Batch, o: Order, u: string, v: string)
    requires ValidOrder(b, o) && u in b.prMetas && v in b.prMetas && u != v
    ensures ValidOrder(b, Last(o, u, v))
  {
    var keep := (k: string) => k != u && k != v;
    FilterKeepsDistinct(keep, o.metas);
    forall k
      ensures k in Filter(keep, o.metas) <==> k in o.metas && keep(k)
    {
      FilterMember(keep, o.metas, k);
    }
    assert forall k :: k in Last(o, u, v).metas <==> k in Filter(keep, o.metas) || k == u || k == v;
    assert u !in Filter(keep, o.metas) && v !in Filter(keep, o.metas);
  }

  /** Whatever came before, the last update that hits the line is the one its entry shows. */
  lemma LastUpdateShows(raw: Raw, b: Batch, o: Order)
    requires Regular(raw) && NonEmptyKeys(b) && ValidOrder(b, o) && o.metas != []
    requires o.metas[|o.metas| - 1] in MetaURLs(raw, b) && o.metas[|o.metas| - 1] in b.prMetas
    ensures SameMeta(FinalEntry(raw, b, o), b.prMetas[o.metas[|o.metas| - 1]])
  {
    FinalEntryIsMetaRun(raw, b, o);
    var s, urls := DecodeStrict(EarlyLine(raw, b)), MetaURLs(raw, b);
    JoinedFrame(MetaRun(s, urls, b.prMetas, o.metas[..|o.metas| - 1]), b.prMetas[o.metas[|o.metas| - 1]]);
  }

  /** The final entry of a line is the same for all iteration orders. */
  ghost predicate EntryOrderIndependent(raw: Raw, b: Batch) {
    forall o1, o2 :: ValidOrder(b, o1) && ValidOrder(b, o2) ==> FinalEntry(raw, b, o1) == FinalEntry(raw, b, o2)
  }

  /** The entry is independent of the iteration order if and only if the updates that hit it are compatible. */
  lemma OrderIndependenceIsExact(raw: Raw, b: Batch, o: Order)
    requires Regular(raw) && NonEmptyKeys(b) && ValidOrder(b, o)
    ensures EntryOrderIndependent(raw, b) <==> MetasCompatible(MetaURLs(raw, b), b.prMetas)
  {
    var urls := MetaURLs(raw, b);
    if MetasCompatible(urls, b.prMetas) {
      forall o1, o2 | ValidOrder(b, o1) && ValidOrder(b, o2)
        ensures FinalEntry(raw, b, o1) == FinalEntry(raw, b, o2)
      {
        FinalEntryIsMetaRun(raw, b, o1);
        FinalEntryIsMetaRun(raw, b, o2);
        CompatibleMetaRunOrder(DecodeStrict(EarlyLine(raw, b)), urls, b.prMetas, o1.metas, o2.metas);
      }
    } else {
      var u, v :| u in urls && v in urls && u in b.prMetas && v in b.prMetas && !Compatible(b.prMetas[u], b.prMetas[v]);
      var uv, vu := Last(o, u, v), Last(o, v, u);
      LastIsValid(b, o, u, v);
      LastIsValid(b, o, v, u);
      assert uv.metas[|uv.metas| - 1] == v && vu.metas[|vu.metas| - 1] == u;
      LastUpdateShows(raw, b, uv);
      LastUpdateShows(raw, b, vu);
    }
  }

  // ---------------------------------------------------------------- a second application

  function PhaseOf(op: Op): nat {
    match op
    case Mark(_) => 0
    case Pin(_, _) => 1
    case AddURLs(_, _) => 2
    case AddByBranch(_, _, _) => 2
    case End(_, _) => 3
    case Meta(_, _) => 4
  }

  function KeyOf(op: Op): string {
    match op
    case Mark(_) => ""
    case Pin(sid, _) => sid
    case AddURLs(sid, _) => sid
    case AddByBranch(_, branch, _) => branch
    case End(sid, _) => sid
    case Meta(url, _) => url
  }

  /** a may precede b in a batch: an earlier phase, or another key of the same phase. */
  predicate Precedes(a: Op, b: Op) {
    !a.AddByBranch? && !b.AddByBranch? && !b.Mark? &&
    (PhaseOf(a) < PhaseOf(b) || (PhaseOf(a) == PhaseOf(b) && KeyOf(a) != KeyOf(b)))
  }

  lemma LaterMetaKeepsMeta(s: Session, a: Op, b: Op)
    requires a.Meta? && b.Meta? && Edits(a, s) == []
    requires a.url in s.Strs(PRURLs) && b.url in s.Strs(PRURLs) ==> Compatible(a.meta, b.meta)
    ensures Edits(a, SessionOp(s, b)) == []
  {
    if Edits(b, s) != [] {
      SessionOpFrame(s, b);
      MetaFields(s, b.meta);
    }
  }

  /** What an operation is decided from when its session or its URL is that of the entry. */
  lemma EditsDepend(a: Op, s: Session, t: Session)
    requires !a.Meta? && !a.AddByBranch? && s.Str(SessionID) == t.Str(SessionID)
    requires a.Mark? ==> s.Bool(BackfillChecked) == t.Bool(BackfillChecked)
    requires a.Pin? || a.AddURLs? ==> s.Bool(PRPinned) == t.Bool(PRPinned) && s.Strs(PRURLs) == t.Strs(PRURLs)
    requires a.End? ==> s.Str(EndedAt) == t.Str(EndedAt) && s.Str(EndReason) == t.Str(EndReason)
    ensures Edits(a, s) == Edits(a, t)
  {
  }

  lemma OtherSessionsOp(a: Op, s: Session)
    requires (a.Pin? || a.AddURLs? || a.End?) && KeyOf(a) != s.Str(SessionID)
    ensures Edits(a, s) == []
  {
  }

  lemma LaterOpKeepsSessionOp(s: Session, a: Op, b: Op)
    requires !a.Meta? && Precedes(a, b) && Edits(a, s) == []
    ensures Edits(a, SessionOp(s, b)) == []
  {
    SessionOpFrame(s, b);
    if Edits(b, s) == [] {
      assert SessionOp(s, b) == s;
    } else if !a.Mark? && KeyOf(a) != s.Str(SessionID) {
      OtherSessionsOp(a, SessionOp(s, b));
    } else {
      EditsDepend(a, s, SessionOp(s, b));
    }
  }

  /** A later operation of the batch does not undo an earlier one. */
  lemma LaterOpKeepsEarlier(s: Session, a: Op, b: Op)
    requires Precedes(a, b) && Edits(a, s) == []
    requires a.Meta? && b.Meta? && a.url in s.Strs(PRURLs) && b.url in s.Strs(PRURLs) ==> Compatible(a.meta, b.meta)
    ensures Edits(a, SessionOp(s, b)) == []
  {
    if a.Meta? {
      LaterMetaKeepsMeta(s, a, b);
    } else {
      LaterOpKeepsSessionOp(s, a, b);
    }
  }

  ghost predicate InOrder(ops: seq<Op>) {
    forall i, j :: 0 <= i < j < |ops| ==> Precedes(ops[i], ops[j])
  }

  /** Both are metadata updates that hit the entry as the first j steps leave it. */
  ghost predicate BothHit(s: Session, ops: seq<Op>, i: nat, j: nat)
    requires i < j < |ops|
  {
    var urls := SessionRun(s, ops[..j]).Strs(PRURLs);
    ops[i].Meta? && ops[j].Meta? && ops[i].url in urls && ops[j].url in urls
  }

  /** No two metadata updates of the run that hit the entry contradict each other. */
  ghost predicate NoContradiction(s: Session, ops: seq<Op>) {
    forall i, j :: 0 <= i < j < |ops| && BothHit(s, ops, i, j) ==> Compatible(ops[i].meta, ops[j].meta)
  }

  lemma {:induction false} RunSettles(s: Session, ops: seq<Op>, n: nat, i: nat)
    requires InOrder(ops) && NoContradiction(s, ops)
    requires i < n <= |ops|
    ensures Edits(ops[i], SessionRun(s, ops[..n])) == []
    decreases n
  {
    var front := ops[..n - 1];
    assert ops[..n][..n - 1] == front;
    var mid := SessionRun(s, front);
    if i == n - 1 {
      OpSettles(mid, ops[i]);
    } else {
      RunSettles(s, ops, n - 1, i);
      assert BothHit(s, ops, i, n - 1) ==> Compatible(ops[i].meta, ops[n - 1].meta);
      LaterOpKeepsEarlier(mid, ops[i], ops[n - 1]);
    }
  }

  lemma {:induction false} SettledRun(raw: Raw, ops: seq<Op>)
    requires forall op :: op in ops ==> Edits(op, DecodeStrict(raw)) == []
    ensures LineRun(raw, ops) == raw && !LineEdits(raw, ops)
  {
    if ops != [] {
      var front, op := ops[..|ops| - 1], ops[|ops| - 1];
      SettledRun(raw, front);
      LineOpSkips(raw, op);
    }
  }

  lemma InPhaseOps(phase: Phase, keys: seq<string>, op: Op)
    requires Lists(keys, phase.Keys())
    ensures op in PhaseOps(phase, keys) <==> exists k :: k in phase.Keys() && phase.At(k) == op
  {
    var ops := PhaseOps(phase, keys);
    if op in ops {
      var i :| 0 <= i < |ops| && ops[i] == op;
      assert keys[i] in phase.Keys();
    }
    if k :| k in phase.Keys() && phase.At(k) == op {
      var i :| 0 <= i < |keys| && keys[i] == k;
      assert ops[i] == op;
    }
  }

  /** Two orders of one batch perform the same operations. */
  lemma SameOps(b: Batch, o1: Order, o2: Order, op: Op)
    requires ValidOrder(b, o1) && ValidOrder(b, o2)
    ensures op in BatchOps(b, o1) <==> op in BatchOps(b, o2)
  {
    InPhaseOps(Pins(b), o1.pins, op);
    InPhaseOps(Pins(b), o2.pins, op);
    InPhaseOps(Adds(b), o1.sessions, op);
    InPhaseOps(Adds(b), o2.sessions, op);
    InPhaseOps(Ends(b), o1.ends, op);
    InPhaseOps(Ends(b), o2.ends, op);
    InPhaseOps(Metas(b), o1.metas, op);
    InPhaseOps(Metas(b), o2.metas, op);
  }

  lemma PhaseInOrder(phase: Phase, keys: seq<string>, n: nat)
    requires Lists(keys, phase.Keys())
    requires forall k :: k in phase.Keys() ==> KeyOf(phase.At(k)) == k && PhaseOf(phase.At(k)) == n
    requires forall k :: k in phase.Keys() ==> !phase.At(k).AddByBranch? && !phase.At(k).Mark?
    ensures InOrder(PhaseOps(phase, keys))
    ensures forall op :: op in PhaseOps(phase, keys) ==> PhaseOf(op) == n && !op.AddByBranch? && !op.Mark?
  {
    forall op | op in PhaseOps(phase, keys)
      ensures PhaseOf(op) == n && !op.AddByBranch? && !op.Mark?
    {
      InPhaseOps(phase, keys, op);
    }
    forall i, j | 0 <= i < j < |keys|
      ensures Precedes(PhaseOps(phase, keys)[i], PhaseOps(phase, keys)[j])
    {
      assert keys[i] in phase.Keys() && keys[j] in phase.Keys() && keys[i] != keys[j];
    }
  }

  lemma InOrderAppend(a: seq<Op>, b: seq<Op>, n: nat)
    requires InOrder(a) && InOrder(b)
    requires forall op :: op in a ==> PhaseOf(op) < n && !op.AddByBranch?
    requires forall op :: op in b ==> PhaseOf(op) == n && !op.AddByBranch? && !op.Mark?
    ensures InOrder(a + b)
    ensures forall op :: op in a + b ==> PhaseOf(op) < n + 1 && !op.AddByBranch?
  {
    forall i, j | 0 <= i < j < |a + b|
      ensures Precedes((a + b)[i], (a + b)[j])
    {
      if j >= |a| {
        assert b[j - |a|] in b;
        if i < |a| { assert a[i] in a; } else { assert Precedes(b[i - |a|], b[j - |a|]); }
      }
    }
  }

  lemma BatchInOrder(b: Batch, o: Order)
    requires ValidOrder(b, o)
    ensures InOrder(BatchOps(b, o))
    ensures forall i :: 0 <= i < |EarlyOps(b, o)| ==> !EarlyOps(b, o)[i].Meta?
  {
    PhaseInOrder(Pins(b), o.pins, 1);
    PhaseInOrder(Adds(b), o.sessions, 2);
    PhaseInOrder(Ends(b), o.ends, 3);
    PhaseInOrder(Metas(b), o.metas, 4);
    var m, p, a, e := MarkOps(b), PhaseOps(Pins(b), o.pins), PhaseOps(Adds(b), o.sessions), PhaseOps(Ends(b), o.ends);
    InOrderAppend(m, p, 1);
    InOrderAppend(m + p, a, 2);
    InOrderAppend(m + p + a, e, 3);
    assert forall i :: 0 <= i < |m + p + a + e| ==> (m + p + a + e)[i] in m + p + a + e;
    InOrderAppend(m + p + a + e, PhaseOps(Metas(b), o.metas), 4);
  }

  /** The n-th step of a phase that follows the operations early. */
  lemma PhaseAfter(early: seq<Op>, phase: Phase, keys: seq<string>, n: nat)
    requires forall k :: k in keys ==> k in phase.Keys()
    requires n < |keys|
    ensures (early + PhaseOps(phase, keys))[|early| + n] == phase.At(keys[n])
    ensures (early + PhaseOps(phase, keys))[..|early| + n] == early + PhaseOps(phase, keys[..n])
  {
  }

  lemma URLsDuringMetas(s: Session, early: seq<Op>, b: Batch, keys: seq<string>, n: nat)
    requires forall k :: k in keys ==> k in b.prMetas
    requires n < |keys|
    ensures SessionRun(s, (early + PhaseOps(Metas(b), keys))[..|early| + n]).Strs(PRURLs)
         == SessionRun(s, early).Strs(PRURLs)
  {
    PhaseAfter(early, Metas(b), keys, n);
    var front, mid := keys[..n], SessionRun(s, early);
    SessionRunAppend(s, early, PhaseOps(Metas(b), front));
    assert forall k :: k in front ==> k in keys;
    MetaPhaseRun(mid, b, front);
    MetaRunKeepsURLs(mid, mid.Strs(PRURLs), b.prMetas, front);
  }

  /** A metadata update of the run belongs to its last phase. */
  lemma LateMeta(early: seq<Op>, b: Batch, keys: seq<string>, i: nat)
    requires forall k :: k in keys ==> k in b.prMetas
    requires forall n :: 0 <= n < |early| ==> !early[n].Meta?
    requires i < |early + PhaseOps(Metas(b), keys)| && (early + PhaseOps(Metas(b), keys))[i].Meta?
    ensures i >= |early|
    ensures keys[i - |early|] in b.prMetas
    ensures var u := keys[i - |early|]; (early + PhaseOps(Metas(b), keys))[i] == Meta(u, b.prMetas[u])
  {
  }

  lemma LatePair(s: Session, early: seq<Op>, b: Batch, keys: seq<string>, ops: seq<Op>, i: nat, j: nat)
    requires forall k :: k in keys ==> k in b.prMetas
    requires forall n :: 0 <= n < |early| ==> !early[n].Meta?
    requires MetasCompatible(SessionRun(s, early).Strs(PRURLs), b.prMetas)
    requires ops == early + PhaseOps(Metas(b), keys)
    requires i < j < |ops| && BothHit(s, ops, i, j)
    ensures Compatible(ops[i].meta, ops[j].meta)
  {
    LateMeta(early, b, keys, i);
    LateMeta(early, b, keys, j);
    URLsDuringMetas(s, early, b, keys, j - |early|);
  }

  lemma LateMetasAgree(s: Session, early: seq<Op>, b: Batch, keys: seq<string>)
    requires forall k :: k in keys ==> k in b.prMetas
    requires forall n :: 0 <= n < |early| ==> !early[n].Meta?
    requires MetasCompatible(SessionRun(s, early).Strs(PRURLs), b.prMetas)
    ensures NoContradiction(s, early + PhaseOps(Metas(b), keys))
  {
    var ops := early + PhaseOps(Metas(b), keys);
    forall i, j | 0 <= i < j < |ops| && BothHit(s, ops, i, j)
      ensures Compatible(ops[i].meta, ops[j].meta)
    {
      LatePair(s, early, b, keys, ops, i, j);
    }
  }

  /** Applying the batch again, in any order, reports no change and leaves every byte alone. */
  lemma SecondApplicationIsNoOp(raw: Raw, b: Batch, o1: Order, o2: Order)
    requires Regular(raw) && NonEmptyKeys(b) && ValidOrder(b, o1) && ValidOrder(b, o2)
    requires MetasCompatible(MetaURLs(raw, b), b.prMetas)
    ensures var once := LineRun(raw, BatchOps(b, o1));
            LineRun(once, BatchOps(b, o2)) == once && !LineEdits(once, BatchOps(b, o2))
  {
    var ops := BatchOps(b, o1);
    var once := LineRun(raw, ops);
    forall op | op in BatchOps(b, o2)
      ensures Edits(op, DecodeStrict(once)) == []
    {
      SameOps(b, o1, o2, op);
      BatchSettles(raw, b, o1, op);
    }
    SettledRun(once, BatchOps(b, o2));
  }

  /** After a batch, none of its operations has anything left to do on the line. */
  lemma BatchSettles(raw: Raw, b: Batch, o: Order, op: Op)
    requires Regular(raw) && NonEmptyKeys(b) && ValidOrder(b, o)
    requires MetasCompatible(MetaURLs(raw, b), b.prMetas)
    requires op in BatchOps(b, o)
    ensures Edits(op, FinalEntry(raw, b, o)) == []
  {
    var ops := BatchOps(b, o);
    BatchOpsAddressed(b, o);
    BatchInOrder(b, o);
    BatchHasNoContradiction(raw, b, o);
    LineRunDecodes(raw, ops);
    SettledByRun(DecodeStrict(raw), ops, op);
  }

  lemma SettledByRun(s: Session, ops: seq<Op>, op: Op)
    requires InOrder(ops) && NoContradiction(s, ops) && op in ops
    ensures Edits(op, SessionRun(s, ops)) == []
  {
    var i :| 0 <= i < |ops| && ops[i] == op;
    assert ops[..|ops|] == ops;
    RunSettles(s, ops, |ops|, i);
  }

  lemma BatchHasNoContradiction(raw: Raw, b: Batch, o: Order)
    requires Regular(raw) && NonEmptyKeys(b) && ValidOrder(b, o)
    requires MetasCompatible(MetaURLs(raw, b), b.prMetas)
    ensures NoContradiction(DecodeStrict(raw), BatchOps(b, o))
  {
    BatchInOrder(b, o);
    MetaKeysListed(b, o);
    EarlyURLs(raw, b, o);
    LateMetasAgree(DecodeStrict(raw), EarlyOps(b, o), b, o.metas);
  }

  lemma MetaKeysListed(b: Batch, o: Order)
    requires ValidOrder(b, o)
    ensures forall k :: k in o.metas ==> k in b.prMetas
  {
    assert Metas(b).Keys() == b.prMetas.Keys;
  }

  lemma EarlyURLs(raw: Raw, b: Batch, o: Order)
    requires Regular(raw) && NonEmptyKeys(b) && ValidOrder(b, o)
    ensures SessionRun(DecodeStrict(raw), EarlyOps(b, o)).Strs(PRURLs) == MetaURLs(raw, b)
  {
    EarlyEntry(raw, b, o);
  }

  lemma EarlyOpsAddressed(b: Batch, o: Order)
    requires NonEmptyKeys(b) && ValidOrder(b, o)
    ensures AllAddressed(EarlyOps(b, o))
  {
    BatchOpsAddressed(b, o);
    assert forall i :: 0 <= i < |EarlyOps(b, o)| ==> EarlyOps(b, o)[i] == BatchOps(b, o)[i];
  }

  lemma EarlyEntry(raw: Raw, b: Batch, o: Order)
    requires Regular(raw) && NonEmptyKeys(b) && ValidOrder(b, o)
    ensures SessionRun(DecodeStrict(raw), EarlyOps(b, o)) == DecodeStrict(EarlyLine(raw, b))
  {
    EarlyOpsAddressed(b, o);
    LineRunDecodes(raw, EarlyOps(b, o));
    EarlyPhases(raw, b, o);
  }
}
