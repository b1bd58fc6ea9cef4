/**
 Exactly which lines keep their session, their pin and their place in the backlog through every change.

 A rewrite that sets other fields shows what the rewrite keeps of these; a line loses exactly what a
 rewrite loses, unless no change can reach it. A line can be reached by its session id or a URL, and
 by its branch as long as it is not pinned, if no type error hides it from ReadAll.
 */
module IrregularLines {
  import opened Common
  import opened JsonLine
  import opened SessionDecoder
  import opened SessionOps
  import opened BatchApply
  import opened DecoderGap
  import opened IndexChanges
  import opened PinSafety
  import opened Backlog

  // ---------------------------------------------------------------- which lines can be reached

  /** Adding a URL by branch finds the line. */
  predicate FoundByBranch(raw: Raw) {
    WellTyped(raw) && !DecodeLoose(raw).Bool(PRPinned) && DecodeLoose(raw).Str(Branch) != ""
  }

  lemma InertRunStays(st: LineState, ops: seq<Op>)
    requires AllBatchOps(ops) && Inert(DecodeLoose(st.raw)) && st.entry == DecodeStrict(st.raw)
    ensures CodeRun(st, ops).Some? && CodeRun(st, ops).value.raw == st.raw
  {
    InertRun(st.raw, ops);
  }

  /** A line that cannot be reached stays as it is. */
  lemma UnreachableStays(raw: Raw, change: Change)
    requires Inert(DecodeLoose(raw)) && Wellformed(change)
    requires !FoundByBranch(raw) || !(change.Single? && change.op.AddByBranch?)
    ensures LineResult(raw, change) == Some(raw)
  {
    match change
    case Single(op) =>
      if op.AddByBranch? {
        BranchMisses(raw, op);
      } else {
        InertUntouched(DecodeStrict(raw), op);
      }
    case Whole(b, o) =>
      BatchOpsAreBatchOps(b, o);
      InertRunStays(LineState(raw, DecodeStrict(raw)), BatchOps(b, o));
    case AppendLine(_) =>
    case FillUser(_) =>
  }

  lemma BranchMisses(raw: Raw, op: Op)
    requires op.AddByBranch? && Addressed(op) && !FoundByBranch(raw)
    ensures Edits(op, DecodeStrict(raw)) == []
  {
    if !WellTyped(raw) {
      EmptySessionUntouched(op);
    } else {
      StrictIsLoose(raw);
    }
  }

  // ---------------------------------------------------------------- changes that reach a line

  lemma SingleRewrites(raw: Raw, op: Op)
    requires WellTyped(raw) && Edits(op, DecodeLoose(raw)) != [] && ParseObject(raw).Some?
    ensures LineResult(raw, Single(op)) == EditRaw(raw, Edits(op, DecodeLoose(raw)))
    ensures LineResult(raw, Single(op)).Some?
  {
    StrictIsLoose(raw);
    EditsAreProper(op, DecodeLoose(raw));
    RewriteIsCanonical(raw, Edits(op, DecodeLoose(raw)));
  }

  /** The strict decoder drops the line, the first step of the batch misses it, the second one does not. */
  lemma BatchRewrites(raw: Raw, op: Op, other: string, b: Batch, o: Order)
    requires !WellTyped(raw) && Edits(op, DecodeLoose(raw)) != [] && ParseObject(raw).Some? && BatchOp(op)
    requires other != "" && NonEmptyKeys(b) && ValidOrder(b, o) && BatchOps(b, o) == [Pin(other, "x"), op]
    ensures LineResult(raw, Whole(b, o)) == EditRaw(raw, Edits(op, DecodeLoose(raw)))
    ensures LineResult(raw, Whole(b, o)).Some?
  {
    MissesEmpty(Pin(other, "x"));
    TwoSteps(LineState(raw, EMPTY_SESSION), Pin(other, "x"), op);
    EditsAreProper(op, DecodeLoose(raw));
    RewriteIsCanonical(raw, Edits(op, DecodeLoose(raw)));
  }

  /** A change that ends the session or refreshes the URL of the line, without pinning its session. */
  lemma RewritingChange(raw: Raw) returns (change: Change, op: Op)
    requires !Inert(DecodeLoose(raw))
    ensures op.End? || op.Meta?
    ensures Edits(op, DecodeLoose(raw)) != [] && EditRaw(raw, Edits(op, DecodeLoose(raw))).Some?
    ensures Wellformed(change) && !Pinning(change, DecodeLoose(raw).Str(SessionID))
    ensures LineResult(raw, change) == EditRaw(raw, Edits(op, DecodeLoose(raw)))
  {
    LooseIsObject(raw);
    op := FreshOp(DecodeLoose(raw), ParseObject(raw).value);
    if WellTyped(raw) {
      change := Single(op);
      SingleRewrites(raw, op);
    } else {
      var other := DecodeLoose(raw).Str(SessionID) + "x";
      var b, o := PinThen(other, op);
      change := Whole(b, o);
      BatchRewrites(raw, op, other, b, o);
    }
  }

  /** It shows session, pin, URLs and the checked mark as the rewrite keeps them. */
  lemma RewritingShows(raw: Raw, op: Op)
    requires (op.End? || op.Meta?) && Edits(op, DecodeLoose(raw)) != []
    requires EditRaw(raw, Edits(op, DecodeLoose(raw))).Some?
    ensures SamePin(DecodeLoose(EditRaw(raw, Edits(op, DecodeLoose(raw))).value), KeptEntry(raw))
  {
    EditsAreProper(op, DecodeLoose(raw));
    SparingEdits(op, DecodeLoose(raw));
    RewriteSparesPin(raw, Edits(op, DecodeLoose(raw)));
  }

  lemma RewritingAccounts(raw: Raw, op: Op, waiting: bool)
    requires (op.End? || op.Meta?) && Edits(op, DecodeLoose(raw)) != []
    requires EditRaw(raw, Edits(op, DecodeLoose(raw))).Some?
    ensures Accounted(DecodeLoose(EditRaw(raw, Edits(op, DecodeLoose(raw))).value), waiting) <==>
            Accounted(KeptEntry(raw), waiting)
  {
    EditsAreProper(op, DecodeLoose(raw));
    SparingResolvedEdits(op, DecodeLoose(raw));
    SparesResolved(raw, Edits(op, DecodeLoose(raw)));
    ShowsDefaultBranch(raw, op, DecodeLoose(raw));
  }

  /** A URL added by branch to a line that is found so. */
  lemma BranchChange(raw: Raw) returns (op: Op)
    requires FoundByBranch(raw)
    ensures op.AddByBranch? && Addressed(op)
    ensures Edits(op, DecodeLoose(raw)) != [] && EditRaw(raw, Edits(op, DecodeLoose(raw))).Some?
    ensures LineResult(raw, Single(op)) == EditRaw(raw, Edits(op, DecodeLoose(raw)))
  {
    var read := DecodeLoose(raw);
    var u := FreshURL(read.Strs(PRURLs), []);
    op := AddByBranch(if read.Str(Repo) == "" then ".git" else read.Str(Repo), read.Str(Branch), u);
    AddFresh(read, u);
    BranchLineIsObject(raw);
    SingleRewrites(raw, op);
  }

  lemma BranchLineIsObject(raw: Raw)
    requires FoundByBranch(raw)
    ensures ParseObject(raw).Some?
  {
  }

  lemma BranchShowsSession(raw: Raw, op: Op)
    requires op.AddByBranch? && Edits(op, DecodeLoose(raw)) != [] && EditRaw(raw, Edits(op, DecodeLoose(raw))).Some?
    ensures DecodeLoose(EditRaw(raw, Edits(op, DecodeLoose(raw))).value).Str(SessionID) == KeptEntry(raw).Str(SessionID)
  {
    EditsAreProper(op, DecodeLoose(raw));
    EditsSpareFixed(op, DecodeLoose(raw), SessionID);
    ShowsStr(raw, Edits(op, DecodeLoose(raw)));
  }

  // ---------------------------------------------------------------- the session

  ghost predicate KeepsSession(raw: Raw) {
    forall change :: Wellformed(change) && LineResult(raw, change).Some? ==>
      DecodeLoose(LineResult(raw, change).value).Str(SessionID) == DecodeLoose(raw).Str(SessionID)
  }

  lemma SessionStays(raw: Raw, change: Change)
    requires KeptEntry(raw).Str(SessionID) == DecodeLoose(raw).Str(SessionID) && LineResult(raw, change).Some?
    ensures DecodeLoose(LineResult(raw, change).value).Str(SessionID) == DecodeLoose(raw).Str(SessionID)
  {
    ChangeKeepsLine(raw, change);
    assert FieldKept(raw, LineResult(raw, change).value, SessionID);
    SameStr(DecodeLoose(LineResult(raw, change).value), DecodeLoose(raw), SessionID);
  }

  /**
   A line belongs to its session through every well-formed change if and only if a rewrite keeps the
   session id or no change can reach the line.
   */
  lemma SessionKeptExactly(raw: Raw)
    ensures KeepsSession(raw) <==>
            KeptEntry(raw).Str(SessionID) == DecodeLoose(raw).Str(SessionID) ||
            (Inert(DecodeLoose(raw)) && !FoundByBranch(raw))
  {
    if KeptEntry(raw).Str(SessionID) == DecodeLoose(raw).Str(SessionID) {
      forall change | LineResult(raw, change).Some?
        ensures DecodeLoose(LineResult(raw, change).value).Str(SessionID) == DecodeLoose(raw).Str(SessionID)
      {
        SessionStays(raw, change);
      }
    } else if !Inert(DecodeLoose(raw)) {
      var change, op := RewritingChange(raw);
      RewritingShows(raw, op);
    } else if FoundByBranch(raw) {
      var op := BranchChange(raw);
      BranchShowsSession(raw, op);
      assert Wellformed(Single(op));
    } else {
      forall change | Wellformed(change)
        ensures LineResult(raw, change) == Some(raw)
      {
        UnreachableStays(raw, change);
      }
    }
  }

  // ---------------------------------------------------------------- the pin

  ghost predicate KeepsPin(raw: Raw) {
    forall change :: Wellformed(change) && LineResult(raw, change).Some? ==>
      PinKept(DecodeLoose(raw), DecodeLoose(LineResult(raw, change).value),
              Pinning(change, DecodeLoose(raw).Str(SessionID)))
  }

  /**
   A pinned line with one URL keeps its pin through every well-formed change if and only if a rewrite
   keeps its session, pin and URL, or no change can reach the line.
   */
  lemma PinKeptExactly(raw: Raw)
    requires DecodeLoose(raw).Bool(PRPinned) && PinSafe(DecodeLoose(raw))
    ensures KeepsPin(raw) <==> PinStable(raw) || Inert(DecodeLoose(raw))
  {
    if PinStable(raw) {
      PinnedIsHeld(raw);
      forall change | Wellformed(change) && LineResult(raw, change).Some?
        ensures PinKept(DecodeLoose(raw), DecodeLoose(LineResult(raw, change).value),
                        Pinning(change, DecodeLoose(raw).Str(SessionID)))
      {
        ChangeKeepsPin(raw, change);
      }
    } else if Inert(DecodeLoose(raw)) {
      forall change | Wellformed(change)
        ensures LineResult(raw, change) == Some(raw)
      {
        UnreachableStays(raw, change);
      }
    } else {
      var change, op := RewritingChange(raw);
      RewritingShows(raw, op);
    }
  }

  // ---------------------------------------------------------------- the backlog

  ghost predicate StaysInAccount(raw: Raw, waiting: bool) {
    forall change :: Wellformed(change) && LineResult(raw, change).Some? ==>
      Accounted(DecodeLoose(LineResult(raw, change).value), waiting)
  }

  /** Is the list of the line's object overridden by another spelling? */
  ghost predicate Overridden(raw: Raw) {
    ParseObject(raw).Some? && URLsOverridden(ParseObject(raw).value)
  }

  lemma BranchAccounts(raw: Raw, op: Op, waiting: bool)
    requires op.AddByBranch? && Edits(op, DecodeLoose(raw)) != [] && EditRaw(raw, Edits(op, DecodeLoose(raw))).Some?
    ensures Accounted(DecodeLoose(EditRaw(raw, Edits(op, DecodeLoose(raw))).value), waiting) <==>
            Accounted(KeptEntry(raw), waiting) || !Overridden(raw)
  {
    AddResolves(raw, op, DecodeLoose(raw));
    ShowsDefaultBranch(raw, op, DecodeLoose(raw));
  }

  lemma InertAccounts(raw: Raw, change: Change, waiting: bool)
    requires Accounted(DecodeLoose(raw), waiting) && Inert(DecodeLoose(raw)) && Wellformed(change)
    requires (FoundByBranch(raw) ==> !Overridden(raw)) && LineResult(raw, change).Some?
    ensures Accounted(DecodeLoose(LineResult(raw, change).value), waiting)
  {
    if FoundByBranch(raw) && change.Single? && change.op.AddByBranch? {
      StrictIsLoose(raw);
      if Edits(change.op, DecodeLoose(raw)) != [] { BranchAccounts(raw, change.op, waiting); }
    } else {
      UnreachableStays(raw, change);
    }
  }

  /**
   A resolved session (a candidate or resolved one, with waiting) stays so through every well-formed
   change if and only if a rewrite of the line leaves it so, or the line has neither a session id nor
   a URL and is not found by its branch, or found so that the added URL shows.
   */
  lemma AccountKeptExactly(raw: Raw, waiting: bool)
    requires Accounted(DecodeLoose(raw), waiting)
    ensures StaysInAccount(raw, waiting) <==>
            Accounted(KeptEntry(raw), waiting) ||
            (Inert(DecodeLoose(raw)) && !(FoundByBranch(raw) && Overridden(raw)))
  {
    if Accounted(KeptEntry(raw), waiting) {
      forall change | LineResult(raw, change).Some?
        ensures Accounted(DecodeLoose(LineResult(raw, change).value), waiting)
      {
        ChangeKeepsAccount(raw, change, waiting);
      }
    } else if !Inert(DecodeLoose(raw)) {
      var change, op := RewritingChange(raw);
      RewritingAccounts(raw, op, waiting);
    } else if FoundByBranch(raw) && Overridden(raw) {
      var op := BranchChange(raw);
      BranchAccounts(raw, op, waiting);
      assert Wellformed(Single(op));
    } else {
      forall change | Wellformed(change) && LineResult(raw, change).Some?
        ensures Accounted(DecodeLoose(LineResult(raw, change).value), waiting)
      {
        InertAccounts(raw, change, waiting);
      }
    }
  }
}
