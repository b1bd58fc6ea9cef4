/**
 What every operation, and a whole batch, makes of an entry, field by field and in terms of the entry
 before: these are the promises the callers of the index rely on.
 */
module OpMeaning {
  import opened JsonLine
  import opened SessionDecoder
  import opened SessionOps
  import opened BatchApply
  import opened BatchTheorems
  import opened DecoderGap
  import opened BatchFile

  // ---------------------------------------------------------------- single operations

  /** The session is marked if it is among the ids; nothing else changes. */
  lemma MarkShows(s: Session, ids: set<string>)
    ensures var t := SessionOp(s, Mark(ids));
            && t.Bool(BackfillChecked) == (s.Bool(BackfillChecked) || s.Str(SessionID) in ids)
            && SameOutside(s, t, {BackfillChecked})
  {
    SessionOpFrame(s, Mark(ids));
    if Edits(Mark(ids), s) != [] { OneField(s, Edit(BackfillChecked, VBool(true))); }
  }

  /** A pin replaces whatever URLs the session has, pinned before or not. */
  lemma PinShows(s: Session, sid: string, url: string)
    ensures var t := SessionOp(s, Pin(sid, url));
            && (if s.Str(SessionID) == sid then t.Bool(PRPinned) && t.Strs(PRURLs) == [url] else t == s)
            && SameOutside(s, t, {PRURLs, PRPinned})
  {
    SessionOpFrame(s, Pin(sid, url));
    if Edits(Pin(sid, url), s) != [] { PinSettles(s, url); }
  }

  lemma MergeShows(s: Session, add: seq<string>)
    requires !s.Bool(PRPinned)
    ensures MergedInOrder(s.Strs(PRURLs), add, SetFields(s, AddEdits(s, add)).Strs(PRURLs))
  {
    var urls := s.Strs(PRURLs);
    NewURLsMerge(urls, add);
    if AddEdits(s, add) == [] {
      assert urls + [] == urls;
    } else {
      OneField(s, AddEdits(s, add)[0]);
    }
  }

  /** URLs are merged into an unpinned session in the order in which they are given. */
  lemma AddShows(s: Session, sid: string, urls: seq<string>)
    ensures var t := SessionOp(s, AddURLs(sid, urls));
            && (if s.Str(SessionID) == sid && !s.Bool(PRPinned) then MergedInOrder(s.Strs(PRURLs), urls, t.Strs(PRURLs))
                else t == s)
            && SameOutside(s, t, {PRURLs})
  {
    SessionOpFrame(s, AddURLs(sid, urls));
    if s.Str(SessionID) == sid && !s.Bool(PRPinned) { MergeShows(s, urls); }
  }

  /** A URL is added to every unpinned session of the branch, whether or not the repositories end in ".git". */
  lemma BranchShows(s: Session, repo: string, branch: string, url: string)
    ensures var t, urls := SessionOp(s, AddByBranch(repo, branch, url)), s.Strs(PRURLs);
            && (if NormalizeRepo(s.Str(Repo)) == NormalizeRepo(repo) && s.Str(Branch) == branch && !s.Bool(PRPinned)
                then t.Strs(PRURLs) == if url in urls then urls else urls + [url]
                else t == s)
            && SameOutside(s, t, {PRURLs})
  {
    SessionOpFrame(s, AddByBranch(repo, branch, url));
    if s.Str(Branch) == branch && !s.Bool(PRPinned) && url !in s.Strs(PRURLs) {
      AddFresh(s, url);
      OneField(s, AddEdits(s, [url])[0]);
    } else {
      NewURLsExhausted(s.Strs(PRURLs), [url]);
    }
  }

  lemma EndShows(s: Session, sid: string, end: EndUpdate)
    ensures var t := SessionOp(s, End(sid, end));
            && (if s.Str(SessionID) == sid then t.Str(EndedAt) == end.endedAt && t.Str(EndReason) == end.reason else t == s)
            && SameOutside(s, t, {EndedAt, EndReason})
  {
    SessionOpFrame(s, End(sid, end));
    if Edits(End(sid, end), s) != [] { EndSettles(s, end); }
  }

  /** What an entry shows of an update that hit it; an empty title keeps the old one. */
  predicate ShowsMeta(before: string, t: Session, meta: PRMeta) {
    && t.Bool(IsMerged) == meta.isMerged && t.Int(ReviewComments) == meta.reviewComments
    && t.Int(ChangesRequested) == meta.changesRequested
    && t.Str(PRTitle) == if meta.title == "" then before else meta.title
  }

  lemma JoinedShows(s: Session, meta: PRMeta)
    ensures ShowsMeta(s.Str(PRTitle), Joined(s, meta), meta)
    ensures SameOutside(s, Joined(s, meta), {IsMerged, ReviewComments, ChangesRequested, PRTitle})
  {
    MetaFields(s, meta);
  }

  /** Every session that has the URL shows its metadata, pinned or not. */
  lemma MetaShows(s: Session, url: string, meta: PRMeta)
    ensures var t := SessionOp(s, Meta(url, meta));
            && (if url in s.Strs(PRURLs) then ShowsMeta(s.Str(PRTitle), t, meta) else t == s)
            && SameOutside(s, t, {IsMerged, ReviewComments, ChangesRequested, PRTitle})
  {
    MetaOnEntry(s, url, meta);
    JoinedShows(s, meta);
  }

  // ---------------------------------------------------------------- the phases before the metadata

  /** The entry after the one operation of a phase that concerns session sid. */
  function AfterPhase(s: Session, phase: Phase, sid: string): Session {
    if sid in phase.Keys() then SessionOp(s, phase.At(sid)) else s
  }

  lemma PhaseDecodes(raw: Raw, phase: Phase, sid: string)
    requires RegularFor(raw, sid) && SessionPhase(phase)
    ensures RegularFor(PhaseLine(raw, phase, sid), sid)
    ensures DecodeStrict(PhaseLine(raw, phase, sid)) == AfterPhase(DecodeStrict(raw), phase, sid)
  {
    if sid in phase.Keys() {
      LineOpKeepsSession(raw, phase.At(sid));
      LineOpMeaning(raw, phase.At(sid));
    }
  }

  lemma MarkDecodes(raw: Raw, b: Batch)
    requires Regular(raw) && NonEmptyKeys(b)
    ensures RegularFor(LineRun(raw, MarkOps(b)), SID(raw))
    ensures var s, t := DecodeStrict(raw), DecodeStrict(LineRun(raw, MarkOps(b)));
            && t.Bool(BackfillChecked) == (s.Bool(BackfillChecked) || s.Str(SessionID) in b.markChecked)
            && SameOutside(s, t, {BackfillChecked})
  {
    MarkAdvances(raw, b);
    if MarkOps(b) != [] {
      var ids := set id | id in b.markChecked;
      assert MarkOps(b)[..0] == [];
      LineOpMeaning(raw, Mark(ids));
      MarkShows(DecodeStrict(raw), ids);
    }
  }

  /** What the phases before the metadata show of session, pin and URLs. */
  predicate ShowsURLs(s: Session, t: Session, b: Batch) {
    var sid := s.Str(SessionID);
    && t.Bool(PRPinned) == (s.Bool(PRPinned) || sid in b.pinPRs)
    && (sid in b.pinPRs ==> t.Strs(PRURLs) == [b.pinPRs[sid]])
    && (sid !in b.pinPRs && (s.Bool(PRPinned) || sid !in b.sessionURLs) ==> t.Strs(PRURLs) == s.Strs(PRURLs))
  }

  ghost predicate ShowsMerge(s: Session, t: Session, b: Batch) {
    var sid := s.Str(SessionID);
    sid !in b.pinPRs && !s.Bool(PRPinned) && sid in b.sessionURLs ==>
      MergedInOrder(s.Strs(PRURLs), b.sessionURLs[sid], t.Strs(PRURLs))
  }

  predicate ShowsEnd(s: Session, t: Session, b: Batch) {
    var sid := s.Str(SessionID);
    if sid in b.endUpdates then t.Str(EndedAt) == b.endUpdates[sid].endedAt && t.Str(EndReason) == b.endUpdates[sid].reason
    else t.Str(EndedAt) == s.Str(EndedAt) && t.Str(EndReason) == s.Str(EndReason)
  }

  predicate ShowsMark(s: Session, t: Session, b: Batch) {
    t.Bool(BackfillChecked) == (s.Bool(BackfillChecked) || s.Str(SessionID) in b.markChecked)
  }

  const EARLY_FIELDS := {BackfillChecked, PRURLs, PRPinned, EndedAt, EndReason}

  const META_FIELDS := {IsMerged, ReviewComments, ChangesRequested, PRTitle}

  lemma PinPhaseShows(s: Session, b: Batch)
    ensures var t, sid := AfterPhase(s, Pins(b), s.Str(SessionID)), s.Str(SessionID);
            && (if sid in b.pinPRs then t.Bool(PRPinned) && t.Strs(PRURLs) == [b.pinPRs[sid]] else t == s)
            && SameOutside(s, t, {PRURLs, PRPinned})
  {
    var sid := s.Str(SessionID);
    if sid in b.pinPRs { PinShows(s, sid, b.pinPRs[sid]); }
  }

  lemma AddPhaseShows(s: Session, b: Batch)
    ensures var t, sid := AfterPhase(s, Adds(b), s.Str(SessionID)), s.Str(SessionID);
            && (if sid in b.sessionURLs && !s.Bool(PRPinned) then MergedInOrder(s.Strs(PRURLs), b.sessionURLs[sid], t.Strs(PRURLs))
                else t == s)
            && SameOutside(s, t, {PRURLs})
  {
    var sid := s.Str(SessionID);
    if sid in b.sessionURLs { AddShows(s, sid, b.sessionURLs[sid]); }
  }

  lemma EndPhaseShows(s: Session, b: Batch)
    ensures var t := AfterPhase(s, Ends(b), s.Str(SessionID));
            ShowsEnd(s, t, b) && SameOutside(s, t, {EndedAt, EndReason})
  {
    var sid := s.Str(SessionID);
    if sid in b.endUpdates { EndShows(s, sid, b.endUpdates[sid]); }
  }

  ghost predicate ShowsEarly(s: Session, t: Session, b: Batch) {
    ShowsMark(s, t, b) && ShowsURLs(s, t, b) && ShowsMerge(s, t, b) && ShowsEnd(s, t, b) && SameOutside(s, t, EARLY_FIELDS)
  }

  lemma EarlyShows(s: Session, m: Session, p: Session, a: Session, e: Session, b: Batch)
    requires ShowsMark(s, m, b) && SameOutside(s, m, {BackfillChecked})
    requires var sid := s.Str(SessionID);
             && (if sid in b.pinPRs then p.Bool(PRPinned) && p.Strs(PRURLs) == [b.pinPRs[sid]] else p == m)
             && (if sid in b.sessionURLs && !p.Bool(PRPinned) then MergedInOrder(p.Strs(PRURLs), b.sessionURLs[sid], a.Strs(PRURLs))
                 else a == p)
    requires SameOutside(m, p, {PRURLs, PRPinned}) && SameOutside(p, a, {PRURLs})
    requires ShowsEnd(a, e, b) && SameOutside(a, e, {EndedAt, EndReason})
    ensures ShowsEarly(s, e, b)
  {
  }

  lemma EarlyLineShows(raw: Raw, b: Batch)
    requires Regular(raw) && NonEmptyKeys(b)
    ensures ShowsEarly(DecodeStrict(raw), DecodeStrict(EarlyLine(raw, b)), b)
  {
    var sid := SID(raw);
    var marked := LineRun(raw, MarkOps(b));
    var pinned := PhaseLine(marked, Pins(b), sid);
    var added := PhaseLine(pinned, Adds(b), sid);
    var s, m, p, a := DecodeStrict(raw), DecodeStrict(marked), DecodeStrict(pinned), DecodeStrict(added);
    MarkDecodes(raw, b);
    SessionPhases(b);
    PhaseDecodes(marked, Pins(b), sid);
    PhaseDecodes(pinned, Adds(b), sid);
    PhaseDecodes(added, Ends(b), sid);
    PinPhaseShows(m, b);
    AddPhaseShows(p, b);
    EndPhaseShows(a, b);
    EarlyShows(s, m, p, a, DecodeStrict(EarlyLine(raw, b)), b);
  }

  // ---------------------------------------------------------------- the metadata

  /** The counts of the update that came last, and a title one of them gave, or the old one. */
  ghost predicate ShowsSomeMeta(s: Session, t: Session, urls: seq<string>, metas: map<string, PRMeta>) {
    && (exists u :: u in urls && u in metas && t.Bool(IsMerged) == metas[u].isMerged &&
                    t.Int(ReviewComments) == metas[u].reviewComments && t.Int(ChangesRequested) == metas[u].changesRequested)
    && (t.Str(PRTitle) == s.Str(PRTitle) || exists u :: u in urls && u in metas && metas[u].title == t.Str(PRTitle))
  }

  /** When the updates that hit the entry do not contradict each other it shows all of them, titles included. */
  ghost predicate ShowsAllMetas(t: Session, urls: seq<string>, metas: map<string, PRMeta>) {
    forall u :: u in urls && u in metas ==>
      && t.Bool(IsMerged) == metas[u].isMerged && t.Int(ReviewComments) == metas[u].reviewComments
      && t.Int(ChangesRequested) == metas[u].changesRequested && (metas[u].title != "" ==> t.Str(PRTitle) == metas[u].title)
  }

  ghost predicate NoneHit(urls: seq<string>, metas: map<string, PRMeta>) {
    forall u :: u in urls ==> u !in metas
  }

  lemma {:induction false} MetaRunFrame(s: Session, urls: seq<string>, metas: map<string, PRMeta>, keys: seq<string>)
    requires forall k :: k in keys ==> k in metas
    ensures SameOutside(s, MetaRun(s, urls, metas, keys), META_FIELDS)
  {
    if keys != [] {
      MetaRunFrame(s, urls, metas, keys[..|keys| - 1]);
      JoinedShows(MetaRun(s, urls, metas, keys[..|keys| - 1]), metas[keys[|keys| - 1]]);
    }
  }

  lemma {:induction false} MetaRunShowsSome(s: Session, urls: seq<string>, metas: map<string, PRMeta>, keys: seq<string>)
    requires forall k :: k in keys ==> k in metas
    ensures var t := MetaRun(s, urls, metas, keys);
            if SomeHit(urls, keys) then ShowsSomeMeta(s, t, urls, metas) else t == s
  {
    if keys == [] {
      assert forall u :: !Hit(urls, keys, u);
    } else {
      var front, last := keys[..|keys| - 1], keys[|keys| - 1];
      MetaRunShowsSome(s, urls, metas, front);
      SomeHitStep(urls, keys);
      JoinedShows(MetaRun(s, urls, metas, front), metas[last]);
    }
  }

  lemma CompatibleShows(s: Session, urls: seq<string>, metas: map<string, PRMeta>, keys: seq<string>)
    requires Lists(keys, metas.Keys) && MetasCompatible(urls, metas)
    ensures ShowsAllMetas(MetaRun(s, urls, metas, keys), urls, metas)
  {
    forall u | u in urls && u in metas
      ensures Hit(urls, keys, u)
    {
      assert u in metas.Keys;
    }
    if exists u :: Hit(urls, keys, u) {
      var join := CompatibleMetaRun(s, urls, metas, keys);
      JoinedShows(s, join);
    }
  }

  /** What a batch shows of its metadata on an entry whose URLs it leaves as urls. */
  ghost predicate ShowsMetas(s: Session, t: Session, metas: map<string, PRMeta>) {
    var urls := t.Strs(PRURLs);
    && (NoneHit(urls, metas) ==> SameOutside(s, t, EARLY_FIELDS))
    && (!NoneHit(urls, metas) ==> ShowsSomeMeta(s, t, urls, metas))
    && (MetasCompatible(urls, metas) ==> ShowsAllMetas(t, urls, metas))
    && SameOutside(s, t, EARLY_FIELDS + META_FIELDS)
  }

  lemma MetaPhaseShows(s: Session, e: Session, metas: map<string, PRMeta>, keys: seq<string>)
    requires Lists(keys, metas.Keys) && SameOutside(s, e, EARLY_FIELDS)
    ensures var t := MetaRun(e, e.Strs(PRURLs), metas, keys);
            ShowsMetas(s, t, metas) && SameOutside(e, t, META_FIELDS)
  {
    var urls := e.Strs(PRURLs);
    MetaRunFrame(e, urls, metas, keys);
    MetaRunShowsSome(e, urls, metas, keys);
    if MetasCompatible(urls, metas) { CompatibleShows(e, urls, metas, keys); }
    HitExactly(urls, metas, keys);
  }

  lemma HitExactly(urls: seq<string>, metas: map<string, PRMeta>, keys: seq<string>)
    requires Lists(keys, metas.Keys)
    ensures SomeHit(urls, keys) <==> !NoneHit(urls, metas)
  {
    if u :| u in urls && u in metas {
      assert u in metas.Keys && Hit(urls, keys, u);
    }
  }

  // ---------------------------------------------------------------- the whole batch

  /** t is s after the batch, in the fields the callers look at. */
  ghost predicate ShowsBatch(s: Session, t: Session, b: Batch) {
    ShowsMark(s, t, b) && ShowsURLs(s, t, b) && ShowsMerge(s, t, b) && ShowsEnd(s, t, b) && ShowsMetas(s, t, b.prMetas)
  }

  lemma EarlyThenMetas(s: Session, e: Session, t: Session, b: Batch)
    requires ShowsEarly(s, e, b) && SameOutside(e, t, META_FIELDS) && ShowsMetas(s, t, b.prMetas)
    ensures ShowsBatch(s, t, b)
  {
  }

  lemma LineShowsBatch(raw: Raw, b: Batch, o: Order)
    requires Regular(raw) && NonEmptyKeys(b) && ValidOrder(b, o)
    ensures ShowsBatch(DecodeStrict(raw), DecodeStrict(LineRun(raw, BatchOps(b, o))), b)
  {
    var s, e := DecodeStrict(raw), DecodeStrict(EarlyLine(raw, b));
    EarlyLineShows(raw, b);
    FinalEntryIsMetaRun(raw, b, o);
    assert Metas(b).Keys() == b.prMetas.Keys;
    MetaPhaseShows(s, e, b.prMetas, o.metas);
    EarlyThenMetas(s, e, DecodeStrict(LineRun(raw, BatchOps(b, o))), b);
  }

  /**
   One pass of a batch, whatever the order of the maps, marks, pins, merges, ends and refreshes every
   regular line exactly as its entry before and the maps of the batch say.
   */
  lemma PassShowsBatch(before: seq<Raw>, b: Batch, o: Order, after: seq<Raw>, updated: bool, i: nat)
    requires NonEmptyKeys(b) && ValidOrder(b, o) && Pass(before, b, o, after, updated)
    requires i < |before| && Regular(before[i])
    ensures ShowsBatch(DecodeStrict(before[i]), DecodeStrict(after[i]), b)
  {
    PassAt(before, b, o, after, updated, i);
    LineShowsBatch(before[i], b, o);
  }
}
