/**
 Sessions waiting for their URL, over whole runs of the index: none gets lost between two backfill
 runs, whatever other processes do in between and however often the lock is busy, and none that is
 resolved comes back.
 */
module Backlog {
  import opened Common
  import opened JsonLine
  import opened SessionDecoder
  import opened SessionOps
  import opened BatchApply
  import opened BatchTheorems
  import opened IndexChanges
  import opened PinSafety
  import opened IndexLock
  import opened IndexHistory
  import opened Selection

  /** The session has a URL, is pinned or is marked as checked. */
  predicate Resolved(s: Session) {
    s.Strs(PRURLs) != [] || s.Bool(PRPinned) || s.Bool(BackfillChecked)
  }

  /** What a backfill run with the given cursor and flags collects from the lines of the index. */
  function CollectedFrom(lines: seq<Raw>, stored: nat, recheck: bool, gcOnly: bool): seq<Session> {
    var sessions := Map(DecodeStrict, lines);
    Filter((s: Session) => Collected(s, recheck), Target(sessions, StartOffset(stored, |sessions|, recheck, gcOnly)))
  }

  /** Wherever the cursor stands, the entry is collected. */
  ghost predicate AlwaysCollected(lines: seq<Raw>, s: Session, recheck: bool) {
    forall stored, gcOnly :: s in CollectedFrom(lines, stored, recheck, gcOnly)
  }

  lemma CandidateIsCollected(lines: seq<Raw>, i: nat)
    requires i < |lines| && Candidate(DecodeStrict(lines[i]))
    ensures AlwaysCollected(lines, DecodeStrict(lines[i]), false)
  {
    var sessions, s := Map(DecodeStrict, lines), DecodeStrict(lines[i]);
    assert sessions[i] == s;
    FilterMember(Candidate, sessions, s);
    forall stored: nat, gcOnly: bool
      ensures s in CollectedFrom(lines, stored, false, gcOnly)
    {
      CursorIsTransparent(sessions, stored, gcOnly);
      assert multiset(Filter(Candidate, sessions))[s] > 0;
    }
  }

  lemma RecheckCollects(lines: seq<Raw>, i: nat)
    requires i < |lines| && Collected(DecodeStrict(lines[i]), true)
    ensures AlwaysCollected(lines, DecodeStrict(lines[i]), true)
  {
    var sessions, s := Map(DecodeStrict, lines), DecodeStrict(lines[i]);
    assert sessions[i] == s;
    forall stored: nat, gcOnly: bool
      ensures s in CollectedFrom(lines, stored, true, gcOnly)
    {
      RecheckTakesAll(sessions, stored, gcOnly);
      FilterMember((t: Session) => Collected(t, true), sessions, s);
    }
  }

  // ---------------------------------------------------------------- one change

  /** The session is resolved or, with waiting, a candidate, which is anything else off the default branch. */
  predicate Accounted(s: Session, waiting: bool) {
    Resolved(s) || (waiting && !s.Bool(IsDefaultBranch))
  }

  lemma AccountedIs(s: Session)
    ensures Accounted(s, true) <==> Candidate(s) || Resolved(s)
    ensures Accounted(s, false) <==> Resolved(s)
  {
  }

  /** A rewrite of the line does not change that. */
  ghost predicate KeepsAccount(raw: Raw, waiting: bool) {
    Accounted(DecodeLoose(raw), waiting) ==> Accounted(KeptEntry(raw), waiting)
  }

  ghost predicate AccountStep(before: Raw, after: Raw, waiting: bool) {
    (Accounted(DecodeLoose(before), waiting) ==> Accounted(DecodeLoose(after), waiting)) && KeepsAccount(after, waiting)
  }

  lemma {:induction false} ShowsChecked(raw: Raw, edits: seq<Edit>)
    requires ProperEdits(edits) && edits != [] && EditRaw(raw, edits).Some? && forall e :: e in edits ==> e.key != BackfillChecked
    ensures DecodeLoose(EditRaw(raw, edits).value).Bool(BackfillChecked) == KeptEntry(raw).Bool(BackfillChecked)
  {
    RewriteSpares(raw, edits, BackfillChecked);
    SameBool(DecodeLoose(EditRaw(raw, edits).value), KeptEntry(raw), BackfillChecked);
  }

  ghost function KeptChecked(m: Object): bool {
    DecodeLoose(Print(m)).Bool(BackfillChecked)
  }

  lemma KeptCheckedIs(m: Object)
    ensures KeptField(m, BackfillChecked) == VBool(KeptChecked(m))
  {
  }

  lemma SetChecked(m: Object)
    ensures KeptChecked(m[BackfillChecked := Encode(VBool(true))]) || !KeptChecked(m)
  {
    SetPlain(m, BackfillChecked, VBool(true));
    KeptCheckedIs(m);
    KeptCheckedIs(m[BackfillChecked := Encode(VBool(true))]);
  }

  lemma SparesFlag(m: Object, key: JsonKey, v: RawValue, field: JsonKey)
    requires KindOf(key).Some? && KindOf(field) == Some(KBool) && key != field
    ensures DecodeLoose(Print(m[key := v])).Bool(field) == DecodeLoose(Print(m)).Bool(field)
  {
    SetSparesOthers(m, key, v, field);
    SameBool(DecodeLoose(Print(m[key := v])), DecodeLoose(Print(m)), field);
  }

  lemma KeptResolvedIs(m: Object)
    ensures Resolved(DecodeLoose(Print(m))) <==> KeptURLs(m) != [] || KeptPinned(m) || KeptChecked(m)
  {
  }

  lemma MarkSparesPinned(m: Object)
    ensures KeptPinned(m[BackfillChecked := Encode(VBool(true))]) == KeptPinned(m)
  {
    SparesFlag(m, BackfillChecked, Encode(VBool(true)), PRPinned);
  }

  lemma MarkSparesURLs(m: Object)
    ensures KeptURLs(m[BackfillChecked := Encode(VBool(true))]) == KeptURLs(m)
  {
    SparesURLs(m, BackfillChecked, Encode(VBool(true)));
  }

  lemma ResolvedByKept(m: Object, marked: Object)
    requires KeptURLs(marked) == KeptURLs(m) && KeptPinned(marked) == KeptPinned(m) && (KeptChecked(marked) || !KeptChecked(m))
    requires Resolved(DecodeLoose(Print(m)))
    ensures Resolved(DecodeLoose(Print(marked)))
  {
    KeptResolvedIs(m);
    KeptResolvedIs(marked);
  }

  lemma MarkedObjectResolved(m: Object)
    requires Resolved(DecodeLoose(Print(m)))
    ensures Resolved(DecodeLoose(Print(m[BackfillChecked := Encode(VBool(true))])))
  {
    SetChecked(m);
    MarkSparesPinned(m);
    MarkSparesURLs(m);
    ResolvedByKept(m, m[BackfillChecked := Encode(VBool(true))]);
  }

  lemma PinnedObjectURLs(m: Object, url: string)
    ensures var urls := DecodeLoose(Print(m[PRURLs := Encode(VStrs([url]))][PRPinned := Encode(VBool(true))])).Strs(PRURLs);
            |urls| == 1 || |urls| == |KeptURLs(m)|
  {
    SetURLs(m, [url]);
    PinOnURLs(m, url);
  }

  lemma PinnedObjectChecked(m: Object, url: string)
    ensures DecodeLoose(Print(m[PRURLs := Encode(VStrs([url]))][PRPinned := Encode(VBool(true))])).Bool(BackfillChecked)
         == KeptChecked(m)
  {
    SparesFlag(m, PRURLs, Encode(VStrs([url])), BackfillChecked);
    SparesFlag(m[PRURLs := Encode(VStrs([url]))], PRPinned, Encode(VBool(true)), BackfillChecked);
  }

  lemma PinnedObjectResolved(m: Object, url: string)
    requires Resolved(DecodeLoose(Print(m)))
    ensures Resolved(DecodeLoose(Print(m[PRURLs := Encode(VStrs([url]))][PRPinned := Encode(VBool(true))])))
  {
    PinnedObjectURLs(m, url);
    PinnedObjectChecked(m, url);
    PinOnPinned(m, url);
  }

  lemma ListedURLs(m: Object, urls: seq<string>)
    requires urls != []
    ensures KeptURLs(m[PRURLs := Encode(VStrs(urls))]) != [] <==> KeptURLs(m) != [] || !URLsOverridden(m)
  {
    SetURLs(m, urls);
  }

  lemma URLsSpareChecked(m: Object, urls: seq<string>)
    ensures KeptChecked(m[PRURLs := Encode(VStrs(urls))]) == KeptChecked(m)
  {
    SparesFlag(m, PRURLs, Encode(VStrs(urls)), BackfillChecked);
  }

  /** Setting the URL list of an object leaves it resolved if it was or if the list shows. */
  lemma ListedObjectResolved(m: Object, urls: seq<string>)
    requires urls != []
    ensures Resolved(DecodeLoose(Print(m[PRURLs := Encode(VStrs(urls))]))) <==>
            Resolved(DecodeLoose(Print(m))) || !URLsOverridden(m)
  {
    ListedURLs(m, urls);
    URLsSparePinned(m, urls);
    URLsSpareChecked(m, urls);
    KeptResolvedIs(m);
    KeptResolvedIs(m[PRURLs := Encode(VStrs(urls))]);
  }

  lemma MarkKeepsResolved(raw: Raw, op: Op, entry: Session)
    requires op.Mark? && Edits(op, entry) != [] && EditRaw(raw, Edits(op, entry)).Some? && Resolved(KeptEntry(raw))
    ensures Resolved(DecodeLoose(EditRaw(raw, Edits(op, entry)).value))
  {
    EditRawSetsAll(raw, Edits(op, entry));
    OneSet(ParseObject(raw).value, Edit(BackfillChecked, VBool(true)));
    MarkedObjectResolved(ParseObject(raw).value);
  }

  lemma PinKeepsResolved(raw: Raw, op: Op, entry: Session)
    requires op.Pin? && Edits(op, entry) != [] && EditRaw(raw, Edits(op, entry)).Some? && Resolved(KeptEntry(raw))
    ensures Resolved(DecodeLoose(EditRaw(raw, Edits(op, entry)).value))
  {
    EditRawSetsAll(raw, Edits(op, entry));
    TwoSet(ParseObject(raw).value, Edit(PRURLs, VStrs([op.prURL])), Edit(PRPinned, VBool(true)));
    PinnedObjectResolved(ParseObject(raw).value, op.prURL);
  }

  lemma AddResolves(raw: Raw, op: Op, entry: Session)
    requires (op.AddURLs? || op.AddByBranch?) && Edits(op, entry) != [] && EditRaw(raw, Edits(op, entry)).Some?
    ensures ParseObject(raw).Some?
    ensures Resolved(DecodeLoose(EditRaw(raw, Edits(op, entry)).value)) <==>
            Resolved(KeptEntry(raw)) || !URLsOverridden(ParseObject(raw).value)
  {
    EditRawSetsAll(raw, Edits(op, entry));
    OneURLEdit(op, entry);
    var urls :| Edits(op, entry) == [Edit(PRURLs, VStrs(urls))] && urls != [];
    OneSet(ParseObject(raw).value, Edit(PRURLs, VStrs(urls)));
    ListedObjectResolved(ParseObject(raw).value, urls);
  }

  lemma SparesResolved(raw: Raw, edits: seq<Edit>)
    requires ProperEdits(edits) && edits != [] && EditRaw(raw, edits).Some?
    requires forall e :: e in edits ==> e.key != PRURLs && e.key != PRPinned && e.key != BackfillChecked
    ensures Resolved(DecodeLoose(EditRaw(raw, edits).value)) <==> Resolved(KeptEntry(raw))
  {
    ShowsPinned(raw, edits);
    ShowsURLs(raw, edits);
    ShowsChecked(raw, edits);
  }

  lemma SparingResolvedEdits(op: Op, entry: Session)
    requires op.End? || op.Meta?
    ensures forall e :: e in Edits(op, entry) ==> e.key != PRURLs && e.key != PRPinned && e.key != BackfillChecked
  {
    EditsTouch(op, entry);
  }

  lemma OneURLEdit(op: Op, entry: Session)
    requires (op.AddURLs? || op.AddByBranch?) && Edits(op, entry) != []
    ensures exists urls :: Edits(op, entry) == [Edit(PRURLs, VStrs(urls))] && urls != []
  {
    var add := if op.AddURLs? then op.urls else [op.newURL];
    assert Edits(op, entry) == [Edit(PRURLs, VStrs(entry.Strs(PRURLs) + NewURLs(entry.Strs(PRURLs), add)))];
  }

  /** Nothing an operation sets undoes a resolution that the rewrite itself keeps. */
  lemma EditsKeepResolved(raw: Raw, op: Op, entry: Session)
    requires Edits(op, entry) != [] && EditRaw(raw, Edits(op, entry)).Some? && Resolved(KeptEntry(raw))
    ensures Resolved(DecodeLoose(EditRaw(raw, Edits(op, entry)).value))
  {
    EditsAreProper(op, entry);
    if op.Mark? {
      MarkKeepsResolved(raw, op, entry);
    } else if op.Pin? {
      PinKeepsResolved(raw, op, entry);
    } else if op.End? || op.Meta? {
      SparingResolvedEdits(op, entry);
      SparesResolved(raw, Edits(op, entry));
    } else {
      AddResolves(raw, op, entry);
    }
  }

  /** The default-branch flag of a rewritten line is what the rewrite kept of it. */
  lemma ShowsDefaultBranch(raw: Raw, op: Op, entry: Session)
    requires Edits(op, entry) != [] && EditRaw(raw, Edits(op, entry)).Some?
    ensures DecodeLoose(EditRaw(raw, Edits(op, entry)).value).Bool(IsDefaultBranch) == KeptEntry(raw).Bool(IsDefaultBranch)
  {
    EditsAreProper(op, entry);
    EditsSpareFixed(op, entry, IsDefaultBranch);
    RewriteSpares(raw, Edits(op, entry), IsDefaultBranch);
    SameBool(DecodeLoose(EditRaw(raw, Edits(op, entry)).value), KeptEntry(raw), IsDefaultBranch);
  }

  lemma RewriteKeepsAccount(raw: Raw, op: Op, entry: Session, waiting: bool)
    requires KeepsAccount(raw, waiting) && EditRaw(raw, Edits(op, entry)).Some?
    ensures AccountStep(raw, EditRaw(raw, Edits(op, entry)).value, waiting)
  {
    if Edits(op, entry) != [] {
      EditsAreProper(op, entry);
      RewriteIsCanonical(raw, Edits(op, entry));
      ShowsDefaultBranch(raw, op, entry);
      if Resolved(KeptEntry(raw)) { EditsKeepResolved(raw, op, entry); }
    }
  }

  lemma {:induction false} RunKeepsAccount(st: LineState, ops: seq<Op>, waiting: bool)
    requires KeepsAccount(st.raw, waiting) && CodeRun(st, ops).Some?
    ensures AccountStep(st.raw, CodeRun(st, ops).value.raw, waiting)
  {
    if ops != [] {
      RunKeepsAccount(st, ops[..|ops| - 1], waiting);
      var mid := CodeRun(st, ops[..|ops| - 1]).value;
      RewriteKeepsAccount(mid.raw, ops[|ops| - 1], mid.entry, waiting);
    }
  }

  lemma AccountedByField(s: Session, t: Session)
    requires forall key :: key in {PRURLs, PRPinned, BackfillChecked, IsDefaultBranch} ==> FieldOf(s, key) == FieldOf(t, key)
    ensures forall waiting :: Accounted(s, waiting) <==> Accounted(t, waiting)
  {
    SameStrs(s, t, PRURLs);
    SameBool(s, t, PRPinned);
    SameBool(s, t, BackfillChecked);
    SameBool(s, t, IsDefaultBranch);
  }

  lemma FillKeepsAccount(raw: Raw, user: string, waiting: bool)
    requires KeepsAccount(raw, waiting)
    ensures AccountStep(raw, FillLine(raw, user), waiting)
  {
    forall key | key in {PRURLs, PRPinned, BackfillChecked, IsDefaultBranch}
      ensures FieldOf(DecodeLoose(FillLine(raw, user)), key) == FieldOf(DecodeLoose(raw), key)
    {
      FilledEntry(raw, user, key);
    }
    AccountedByField(DecodeLoose(FillLine(raw, user)), DecodeLoose(raw));
    FilledEntry(raw, user, SessionID);
  }

  lemma ChangeKeepsAccount(raw: Raw, change: Change, waiting: bool)
    requires KeepsAccount(raw, waiting) && LineResult(raw, change).Some?
    ensures AccountStep(raw, LineResult(raw, change).value, waiting)
  {
    match change
    case Single(op) => RewriteKeepsAccount(raw, op, DecodeStrict(raw), waiting);
    case Whole(_, _) => RunKeepsAccount(LineState(raw, DecodeStrict(raw)), OpsOf(change), waiting);
    case AppendLine(_) =>
    case FillUser(user) => FillKeepsAccount(raw, user, waiting);
  }

  // ---------------------------------------------------------------- whole runs

  /** The session of the line stays accounted for, if a rewrite of the earlier line does not change that. */
  ghost predicate StaysAccounted(before: Raw, after: Raw, waiting: bool) {
    KeepsAccount(before, waiting) ==> AccountStep(before, after, waiting)
  }

  ghost predicate StayAccounted(before: seq<Raw>, after: seq<Raw>) {
    |before| <= |after| && forall i, waiting :: 0 <= i < |before| ==> StaysAccounted(before[i], after[i], waiting)
  }

  lemma ApplyKeepsAccounts(lines: seq<Raw>, change: Change)
    requires Apply(lines, change).Next?
    ensures StayAccounted(lines, Apply(lines, change).lines)
  {
    ApplyByLine(lines, change);
    forall i, waiting | 0 <= i < |lines|
      ensures StaysAccounted(lines[i], Apply(lines, change).lines[i], waiting)
    {
      if KeepsAccount(lines[i], waiting) { ChangeKeepsAccount(lines[i], change, waiting); }
    }
  }

  lemma StayAccountedTwice(a: seq<Raw>, b: seq<Raw>, c: seq<Raw>)
    requires StayAccounted(a, b) && StayAccounted(b, c)
    ensures StayAccounted(a, c)
  {
    forall i, waiting | 0 <= i < |a|
      ensures StaysAccounted(a[i], c[i], waiting)
    {
      assert StaysAccounted(a[i], b[i], waiting) && StaysAccounted(b[i], c[i], waiting);
    }
  }

  lemma SameAccounts(lines: seq<Raw>)
    ensures StayAccounted(lines, lines)
  {
  }

  lemma AccountChains()
    ensures Chains(IndexHistory.Callback(), (a: seq<Raw>) => true, (c: Change) => true,
                   (a: seq<Raw>, b: seq<Raw>, cs: seq<Change>) => StayAccounted(a, b))
  {
    forall a: seq<Raw>
      ensures StayAccounted(a, a)
    {
      SameAccounts(a);
    }
    forall a: seq<Raw>, c: Change | Apply(a, c).Next?
      ensures StayAccounted(a, Apply(a, c).lines)
    {
      ApplyKeepsAccounts(a, c);
    }
    forall a: seq<Raw>, b: seq<Raw>, c: seq<Raw> | StayAccounted(a, b) && StayAccounted(b, c)
      ensures StayAccounted(a, c)
    {
      StayAccountedTwice(a, b, c);
    }
  }

  /** Between any two moments of a run a line that is accounted for stays so, if rewriting it does not change that. */
  lemma AccountedForGood(states: seq<State<Raw, Change>>, m: nat, n: nat, i: nat, waiting: bool)
    requires Run(IndexHistory.Callback(), states) && m <= n < |states|
    requires states[m].current.Some? ==> states[m].current.value < |states[m].files|
    requires states[n].current.Some? ==> states[n].current.value < |states[n].files|
    requires i < |Contents(states[m])| && KeepsAccount(Contents(states[m])[i], waiting)
    ensures i < |Contents(states[n])|
    ensures Accounted(DecodeLoose(Contents(states[m])[i]), waiting) ==> Accounted(DecodeLoose(Contents(states[n])[i]), waiting)
    ensures KeepsAccount(Contents(states[n])[i], waiting)
  {
    AccountChains();
    RunChains(IndexHistory.Callback(), (a: seq<Raw>) => true, (c: Change) => true,
              (a: seq<Raw>, b: seq<Raw>, cs: seq<Change>) => StayAccounted(a, b), states, m, n);
    assert StaysAccounted(Contents(states[m])[i], Contents(states[n])[i], waiting);
  }

  /** What is resolved, and is so after a rewrite too, stays resolved, so the backlog of a run grows by appended lines only. */
  lemma ResolvedForGood(states: seq<State<Raw, Change>>, m: nat, n: nat, i: nat)
    requires Run(IndexHistory.Callback(), states) && m <= n < |states|
    requires states[m].current.Some? ==> states[m].current.value < |states[m].files|
    requires states[n].current.Some? ==> states[n].current.value < |states[n].files|
    requires i < |Contents(states[m])|
    requires Resolved(DecodeLoose(Contents(states[m])[i])) && Resolved(KeptEntry(Contents(states[m])[i]))
    ensures i < |Contents(states[n])|
    ensures Resolved(DecodeLoose(Contents(states[n])[i])) && Resolved(KeptEntry(Contents(states[n])[i]))
  {
    AccountedForGood(states, m, n, i, false);
  }

  /** In a line that decodes strictly, what is waiting is collected. */
  lemma WaitingIsCollected(lines: seq<Raw>, i: nat)
    requires i < |lines| && WellTyped(lines[i])
    ensures var s := DecodeStrict(lines[i]);
            && s == DecodeLoose(lines[i])
            && (Candidate(s) ==> AlwaysCollected(lines, s, false))
            && (Collected(s, true) ==> AlwaysCollected(lines, s, true))
  {
    var s := DecodeStrict(lines[i]);
    StrictIsLoose(lines[i]);
    if Candidate(s) { CandidateIsCollected(lines, i); }
    if Collected(s, true) { RecheckCollects(lines, i); }
  }

  /**
   A candidate stays one until it gains a URL, is pinned or is marked as checked, if a rewrite of its
   line does not move it to the default branch. If its line had no type error, it has none later, and
   until then every backfill run collects it wherever its cursor stands; a recheck collects it even
   when it is marked.
   */
  lemma CandidatesLeaveOnlyResolved(states: seq<State<Raw, Change>>, m: nat, n: nat, i: nat)
    requires Run(IndexHistory.Callback(), states) && m <= n < |states|
    requires states[m].current.Some? ==> states[m].current.value < |states[m].files|
    requires states[n].current.Some? ==> states[n].current.value < |states[n].files|
    requires i < |Contents(states[m])| && Candidate(DecodeLoose(Contents(states[m])[i]))
    requires Accounted(KeptEntry(Contents(states[m])[i]), true)
    ensures i < |Contents(states[n])|
    ensures Candidate(DecodeLoose(Contents(states[n])[i])) || Resolved(DecodeLoose(Contents(states[n])[i]))
    ensures WellTyped(Contents(states[m])[i]) ==>
              var s := DecodeStrict(Contents(states[n])[i]);
              && s == DecodeLoose(Contents(states[n])[i])
              && (!Resolved(s) ==> AlwaysCollected(Contents(states[n]), s, false))
              && (Collected(s, true) ==> AlwaysCollected(Contents(states[n]), s, true))
  {
    AccountedIs(DecodeLoose(Contents(states[m])[i]));
    AccountedForGood(states, m, n, i, true);
    AccountedIs(DecodeLoose(Contents(states[n])[i]));
    LinesAreNeverRemoved(states, m, n);
    assert LineKept(Contents(states[m])[i], Contents(states[n])[i]);
    if WellTyped(Contents(states[m])[i]) {
      WaitingIsCollected(Contents(states[n]), i);
    }
  }
}
