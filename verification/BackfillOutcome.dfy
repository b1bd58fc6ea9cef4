/**
 From the fetched answers to the index: which candidates a backfill run takes out of the backlog, and
 with which URL, once its batch has been applied in one pass.
 */
module BackfillOutcome {
  import opened Common
  import opened JsonLine
  import opened SessionDecoder
  import opened SessionOps
  import opened BatchApply
  import opened BatchTheorems
  import opened BatchFile
  import opened OpMeaning
  import opened Selection
  import opened Grouping
  import opened ParallelFetch
  import opened CollectedBatch

  /** The batch carries what the collector holds; pins and ends come from elsewhere. */
  predicate Carries(b: Batch, c: Collected) {
    b.sessionURLs == c.sessionURLs && b.prMetas == c.prMetas && b.markChecked == c.checked
  }

  ghost predicate FoundFor(groups: seq<Group>, answers: seq<Answer>, sid: string, url: string)
    requires |groups| == |answers|
  {
    exists j :: 0 <= j < |groups| && answers[j].Found? && answers[j].url == url && HasSession(groups[j], sid)
  }

  ghost predicate SomethingFound(groups: seq<Group>, answers: seq<Answer>, sid: string)
    requires |groups| == |answers|
  {
    exists j :: 0 <= j < |groups| && answers[j].Found? && HasSession(groups[j], sid)
  }

  ghost predicate GivenUp(groups: seq<Group>, answers: seq<Answer>, sid: string)
    requires |groups| == |answers|
  {
    exists j :: 0 <= j < |groups| && answers[j].Skip? && HasSession(groups[j], sid)
  }

  /** Merging one URL into no list gives the list of that URL. */
  lemma MergedAlone(url: string, merged: seq<string>)
    requires MergedInOrder([], [url], merged)
    ensures merged == [url]
  {
    assert url in merged;
    assert forall i :: 0 <= i < |merged| ==> merged[i] in [url];
    assert |merged| > 1 ==> FirstIn([url], merged[0]) < FirstIn([url], merged[1]);
  }

  lemma CandidateURLs(s: Session, t: Session, b: Batch, c: Collected, groups: seq<Group>, answers: seq<Answer>)
    requires |groups| == |answers| && URLsCollected(groups, answers, c) && Carries(b, c)
    requires Candidate(s) && ShowsBatch(s, t, b) && s.Str(SessionID) !in b.pinPRs
    ensures SomethingFound(groups, answers, s.Str(SessionID)) ==>
              exists url :: t.Strs(PRURLs) == [url] && FoundFor(groups, answers, s.Str(SessionID), url)
    ensures !SomethingFound(groups, answers, s.Str(SessionID)) ==> t.Strs(PRURLs) == []
  {
    var sid := s.Str(SessionID);
    if sid in c.sessionURLs {
      var j :| 0 <= j < |groups| && answers[j].Found? && HasSession(groups[j], sid) && c.sessionURLs[sid] == [answers[j].url];
      MergedAlone(answers[j].url, t.Strs(PRURLs));
      assert FoundFor(groups, answers, sid, answers[j].url);
    }
  }

  lemma CandidateFlags(s: Session, t: Session, b: Batch, c: Collected, groups: seq<Group>, answers: seq<Answer>)
    requires |groups| == |answers| && ChecksCollected(groups, answers, c) && Carries(b, c)
    requires Candidate(s) && ShowsBatch(s, t, b)
    ensures t.Bool(BackfillChecked) == GivenUp(groups, answers, s.Str(SessionID))
    ensures t.Bool(PRPinned) == (s.Str(SessionID) in b.pinPRs) && !t.Bool(IsDefaultBranch)
    ensures s.Str(SessionID) in b.pinPRs ==> t.Strs(PRURLs) == [b.pinPRs[s.Str(SessionID)]]
  {
    assert t.Get(IsDefaultBranch, KBool) == s.Get(IsDefaultBranch, KBool);
    assert s.Str(SessionID) in c.checked <==> GivenUp(groups, answers, s.Str(SessionID));
  }

  /** What becomes of a candidate. */
  ghost predicate Settled(sid: string, t: Session, b: Batch, groups: seq<Group>, answers: seq<Answer>)
    requires |groups| == |answers|
  {
    && (Candidate(t) <==> !SomethingFound(groups, answers, sid) && !GivenUp(groups, answers, sid) && sid !in b.pinPRs)
    && (sid in b.pinPRs ==> t.Strs(PRURLs) == [b.pinPRs[sid]])
    && (sid !in b.pinPRs && SomethingFound(groups, answers, sid) ==>
          exists url :: t.Strs(PRURLs) == [url] && FoundFor(groups, answers, sid, url))
  }

  lemma CandidateIsSettled(s: Session, t: Session, b: Batch, c: Collected, groups: seq<Group>, answers: seq<Answer>)
    requires |groups| == |answers| && URLsCollected(groups, answers, c) && ChecksCollected(groups, answers, c) && Carries(b, c)
    requires Candidate(s) && ShowsBatch(s, t, b)
    ensures Settled(s.Str(SessionID), t, b, groups, answers)
  {
    CandidateFlags(s, t, b, c, groups, answers);
    if s.Str(SessionID) !in b.pinPRs {
      CandidateURLs(s, t, b, c, groups, answers);
    }
  }

  /**
   A candidate on a regular line leaves the backlog if and only if a URL was found for a group it belongs
   to, such a group was given up, or the batch pins it; and unless it is pinned, the URL it gets is one that
   was found for its group.
   */
  lemma CandidatesAreSettledExactly(before: seq<Raw>, b: Batch, o: Order, after: seq<Raw>, updated: bool, i: nat,
                                    groups: seq<Group>, answers: seq<Answer>, states: seq<State>, n: nat)
    requires |groups| == |answers| && Run(answers, states) && n < |states| && states[n].finished
    requires forall k :: 0 <= k < |states[n].sent| ==> states[n].sent[k].group < |groups|
    requires Carries(b, Batched(groups, states[n].sent)) && NonEmptyKeys(b) && ValidOrder(b, o)
    requires Pass(before, b, o, after, updated)
    requires i < |before| && Regular(before[i]) && Candidate(DecodeStrict(before[i]))
    ensures Settled(SID(before[i]), DecodeStrict(after[i]), b, groups, answers)
  {
    PassShowsBatch(before, b, o, after, updated, i);
    BatchHoldsTheAnswers(groups, answers, states, n);
    CandidateIsSettled(DecodeStrict(before[i]), DecodeStrict(after[i]), b, Batched(groups, states[n].sent), groups, answers);
  }
}
