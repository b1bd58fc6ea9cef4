/**
 Which sessions a backfill run looks at: the cursor into the index, the candidate filter, the
 groups by repository and branch, and the newest-first cap.
 */
module Selection {
  import opened Common
  import opened JsonLine

  // ---------------------------------------------------------------- candidates

  /** A session still waiting for its URL. */
  predicate Candidate(s: Session) {
    !s.Bool(PRPinned) && !s.Bool(IsDefaultBranch) && s.Strs(PRURLs) == [] && !s.Bool(BackfillChecked)
  }

  /** The weaker test by which entries below the cursor are taken up again. */
  predicate Pending(s: Session) {
    s.Strs(PRURLs) == [] && !s.Bool(BackfillChecked)
  }

  /** With recheck, sessions already marked as checked are taken again. */
  predicate Collected(s: Session, recheck: bool) {
    !s.Bool(PRPinned) && !s.Bool(IsDefaultBranch) && s.Strs(PRURLs) == [] && (!s.Bool(BackfillChecked) || recheck)
  }

  /** The cursor a run really starts from. */
  function StartOffset(stored: nat, count: nat, recheck: bool, gcOnly: bool): (offset: nat)
    ensures offset <= count
  {
    if stored > count || recheck || gcOnly then 0 else stored
  }

  function Target(sessions: seq<Session>, offset: nat): seq<Session>
    requires offset <= |sessions|
  {
    sessions[offset..] + Filter(Pending, sessions[..offset])
  }

  /** The list of sessions a run considers: everything after the cursor, then pending entries before it. */
  method SelectTarget(sessions: seq<Session>, stored: nat, recheck: bool, gcOnly: bool) returns (target: seq<Session>)
    ensures target == Target(sessions, StartOffset(stored, |sessions|, recheck, gcOnly))
  {
    var offset := StartOffset(stored, |sessions|, recheck, gcOnly);
    target := sessions[offset..];
    for i := 0 to offset
      invariant target == sessions[offset..] + Filter(Pending, sessions[..i])
    {
      assert sessions[..i + 1][..i] == sessions[..i];
      if Pending(sessions[i]) {
        target := target + [sessions[i]];
      }
    }
  }

  /** The first loop of runURLBackfill. */
  method CollectEntries(target: seq<Session>, recheck: bool) returns (entries: seq<Session>)
    ensures entries == Filter((s: Session) => Collected(s, recheck), target)
  {
    entries := [];
    for i := 0 to |target|
      invariant entries == Filter((s: Session) => Collected(s, recheck), target[..i])
    {
      assert target[..i + 1][..i] == target[..i];
      var s := target[i];
      if s.Bool(PRPinned) {
        continue;
      }
      if s.Bool(IsDefaultBranch) {
        continue;
      }
      if s.Strs(PRURLs) == [] && (!s.Bool(BackfillChecked) || recheck) {
        entries := entries + [s];
      }
    }
    assert target[..|target|] == target;
  }

  /** countBacklog of the doctor command. */
  method CountBacklog(sessions: seq<Session>) returns (n: nat)
    ensures n == |Filter(Candidate, sessions)|
  {
    n := 0;
    for i := 0 to |sessions|
      invariant n == |Filter(Candidate, sessions[..i])|
    {
      assert sessions[..i + 1][..i] == sessions[..i];
      if Candidate(sessions[i]) {
        n := n + 1;
      }
    }
    assert sessions[..|sessions|] == sessions;
  }

  lemma {:induction false} FilterSame<T>(p: T -> bool, q: T -> bool, s: seq<T>)
    requires forall x :: x in s ==> (p(x) <==> q(x))
    ensures Filter(p, s) == Filter(q, s)
  {
    if s != [] {
      FilterSame(p, q, s[..|s| - 1]);
    }
  }

  lemma {:induction false} FilterTwice<T>(p: T -> bool, q: T -> bool, s: seq<T>)
    requires forall x :: x in s && p(x) ==> q(x)
    ensures Filter(p, Filter(q, s)) == Filter(p, s)
  {
    if s != [] {
      var front, last := s[..|s| - 1], s[|s| - 1];
      FilterTwice(p, q, front);
      if q(last) {
        assert (Filter(q, front) + [last])[..|Filter(q, front)|] == Filter(q, front);
      }
    }
  }

  /** Of the entries below the cursor the candidates are taken up again, and those above are all there. */
  lemma CollectedParts(sessions: seq<Session>, offset: nat)
    requires offset <= |sessions|
    ensures Filter((s: Session) => Collected(s, false), Target(sessions, offset)) ==
            Filter(Candidate, sessions[offset..]) + Filter(Candidate, sessions[..offset])
  {
    FilterSame((s: Session) => Collected(s, false), Candidate, Target(sessions, offset));
    FilterAppend(Candidate, sessions[offset..], Filter(Pending, sessions[..offset]));
    FilterTwice(Candidate, Pending, sessions[..offset]);
  }

  lemma CandidateParts(sessions: seq<Session>, offset: nat)
    requires offset <= |sessions|
    ensures Filter(Candidate, sessions) == Filter(Candidate, sessions[..offset]) + Filter(Candidate, sessions[offset..])
  {
    assert sessions == sessions[..offset] + sessions[offset..];
    FilterAppend(Candidate, sessions[..offset], sessions[offset..]);
  }

  /**
   The cursor is invisible: whatever offset is stored, even one beyond the end, a run without
   recheck collects exactly the candidates of the whole index, as many as the backlog counts.
   */
  lemma CursorIsTransparent(sessions: seq<Session>, stored: nat, gcOnly: bool)
    ensures var target := Target(sessions, StartOffset(stored, |sessions|, false, gcOnly));
            var collected := Filter((s: Session) => Collected(s, false), target);
            && multiset(collected) == multiset(Filter(Candidate, sessions))
            && |collected| == |Filter(Candidate, sessions)|
  {
    var offset := StartOffset(stored, |sessions|, false, gcOnly);
    CollectedParts(sessions, offset);
    CandidateParts(sessions, offset);
  }

  /** A recheck starts from the beginning, so it collects every unresolved session in index order. */
  lemma RecheckTakesAll(sessions: seq<Session>, stored: nat, gcOnly: bool)
    ensures Target(sessions, StartOffset(stored, |sessions|, true, gcOnly)) == sessions
  {
    assert sessions[..0] == [];
  }

  /** What a run considers, and in which order, from the offset it really starts at. */
  lemma TargetExactly(sessions: seq<Session>, stored: nat, recheck: bool, gcOnly: bool)
    ensures var target := Target(sessions, StartOffset(stored, |sessions|, recheck, gcOnly));
            if stored > |sessions| || recheck || gcOnly then target == sessions
            else
              target == sessions[stored..] +
                        Filter((s: Session) => s.Strs(PRURLs) == [] && !s.Bool(BackfillChecked), sessions[..stored])
  {
    if stored > |sessions| || recheck || gcOnly {
      assert sessions[..0] == [];
    } else {
      FilterSame(Pending, (s: Session) => s.Strs(PRURLs) == [] && !s.Bool(BackfillChecked), sessions[..stored]);
    }
  }

  /** Of what it considers a run collects the sessions off the default branch without a pin and a URL, the checked ones on recheck only. */
  lemma CollectedExactly(target: seq<Session>, recheck: bool, s: Session)
    ensures s in Filter((x: Session) => Collected(x, recheck), target) <==>
            s in target && !s.Bool(PRPinned) && !s.Bool(IsDefaultBranch) && s.Strs(PRURLs) == [] &&
            (recheck || !s.Bool(BackfillChecked))
  {
    FilterMember((x: Session) => Collected(x, recheck), target, s);
  }
}
