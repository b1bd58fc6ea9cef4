/**
 The batch the collector fills from the fetched results, and exactly when it is the same for
 every order in which the fetches complete.
 */
module CollectedBatch {
  import opened Common
  import opened JsonLine
  import opened SessionOps
  import opened Grouping
  import opened ParallelFetch

  // ---------------------------------------------------------------- overlaying maps in some order

  /** The maps written one over the other. */
  function Merge<K, V>(maps: seq<map<K, V>>, order: seq<nat>): map<K, V>
    requires forall i :: 0 <= i < |order| ==> order[i] < |maps|
  {
    if order == [] then map[]
    else Merge(maps, order[..|order| - 1]) + maps[order[|order| - 1]]
  }

  /** Maps that write the same key write the same value. */
  ghost predicate Agree<K(!new), V>(maps: seq<map<K, V>>) {
    forall i, j, k :: 0 <= i < |maps| && 0 <= j < |maps| && k in maps[i] && k in maps[j] ==> maps[i][k] == maps[j][k]
  }

  lemma {:induction false} MergeKey<K(!new), V>(maps: seq<map<K, V>>, order: seq<nat>, k: K)
    requires forall i :: 0 <= i < |order| ==> order[i] < |maps|
    requires Agree(maps)
    ensures k in Merge(maps, order) <==> exists i :: 0 <= i < |order| && k in maps[order[i]]
    ensures forall i :: 0 <= i < |order| && k in maps[order[i]] ==>
              k in Merge(maps, order) && Merge(maps, order)[k] == maps[order[i]][k]
  {
    if order != [] {
      var front, last := order[..|order| - 1], order[|order| - 1];
      MergeKey(maps, front, k);
      assert forall i :: 0 <= i < |front| ==> front[i] == order[i];
      if k in maps[last] {
        assert k in maps[order[|order| - 1]];
      }
    }
  }

  lemma AgreeingMergesAreEqual<K(!new), V>(maps: seq<map<K, V>>, o1: seq<nat>, o2: seq<nat>)
    requires Permutes(o1, |maps|) && Permutes(o2, |maps|) && Agree(maps)
    ensures Merge(maps, o1) == Merge(maps, o2)
  {
    forall k
      ensures k in Merge(maps, o1) <==> k in Merge(maps, o2)
      ensures k in Merge(maps, o1) ==> Merge(maps, o1)[k] == Merge(maps, o2)[k]
    {
      MergeKey(maps, o1, k);
      MergeKey(maps, o2, k);
      KeyIn(maps, o1, o2, k);
      KeyIn(maps, o2, o1, k);
    }
  }

  lemma KeyIn<K(!new), V>(maps: seq<map<K, V>>, o1: seq<nat>, o2: seq<nat>, k: K)
    requires Permutes(o1, |maps|) && Permutes(o2, |maps|)
    ensures (exists i :: 0 <= i < |o1| && k in maps[o1[i]]) ==> (exists i :: 0 <= i < |o2| && k in maps[o2[i]])
  {
    if i :| 0 <= i < |o1| && k in maps[o1[i]] {
      assert o1[i] in o2;
      var j :| 0 <= j < |o2| && o2[j] == o1[i];
      assert k in maps[o2[j]];
    }
  }

  /** The order that visits i last. */
  lemma OrderEndingWith(n: nat, i: nat) returns (order: seq<nat>)
    requires i < n
    ensures Permutes(order, n) && order[n - 1] == i
  {
    order := seq(n, k requires 0 <= k < n => if k < i then k else if k < n - 1 then k + 1 else i);
    forall k | 0 <= k < n
      ensures k in order
    {
      if k < i { assert order[k] == k; }
      else if k == i { assert order[n - 1] == k; }
      else { assert order[k - 1] == k; }
    }
  }

  /** Some completion orders disagree as soon as two maps do. */
  lemma ConflictShows<K(!new), V>(maps: seq<map<K, V>>, i: nat, j: nat, k: K) returns (o1: seq<nat>, o2: seq<nat>)
    requires i < |maps| && j < |maps| && k in maps[i] && k in maps[j] && maps[i][k] != maps[j][k]
    ensures Permutes(o1, |maps|) && Permutes(o2, |maps|)
    ensures Merge(maps, o1) != Merge(maps, o2)
  {
    o1 := OrderEndingWith(|maps|, i);
    o2 := OrderEndingWith(|maps|, j);
    assert Merge(maps, o1)[k] == maps[i][k];
    assert Merge(maps, o2)[k] == maps[j][k];
  }

  // ---------------------------------------------------------------- the batch

  /** The part of a batch the collector fills. */
  datatype Collected = Collected(sessionURLs: map<string, seq<string>>, prMetas: map<string, PRMeta>, checked: seq<string>)

  /** The non-empty session ids of a group's entries, in order. */
  function Ids(entries: seq<Session>): seq<string> {
    if entries == [] then []
    else
      var id := entries[|entries| - 1].Str(SessionID);
      Ids(entries[..|entries| - 1]) + (if id == "" then [] else [id])
  }

  function Resolved(ids: seq<string>, urls: seq<string>): map<string, seq<string>> {
    if ids == [] then map[] else Resolved(ids[..|ids| - 1], urls)[ids[|ids| - 1] := urls]
  }

  lemma {:induction false} ResolvedKeys(ids: seq<string>, urls: seq<string>)
    ensures forall id :: id in Resolved(ids, urls) <==> id in ids
    ensures forall id :: id in ids ==> Resolved(ids, urls)[id] == urls
  {
    if ids != [] {
      ResolvedKeys(ids[..|ids| - 1], urls);
      assert ids == ids[..|ids| - 1] + [ids[|ids| - 1]];
    }
  }

  function SessionWrites(g: Group, a: Answer): map<string, seq<string>> {
    if a.Found? then Resolved(Ids(g.entries), [a.url]) else map[]
  }

  function MetaWrites(a: Answer): map<string, PRMeta> {
    if a.Found? then map[a.url := a.meta] else map[]
  }

  function CheckedIds(g: Group, a: Answer): seq<string> {
    if a.Skip? then Ids(g.entries) else []
  }

  /** One result folded into the batch. */
  function Fold(c: Collected, g: Group, a: Answer): Collected {
    match a
    case Found(url, meta) =>
      Collected(c.sessionURLs + Resolved(Ids(g.entries), [url]), c.prMetas[url := meta], c.checked)
    case Skip => Collected(c.sessionURLs, c.prMetas, c.checked + Ids(g.entries))
    case Retry => c
  }

  /** The batch after the results of the groups in the given order. */
  function CollectIn(groups: seq<Group>, answers: seq<Answer>, order: seq<nat>): Collected
    requires |groups| == |answers| && forall i :: 0 <= i < |order| ==> order[i] < |groups|
  {
    if order == [] then Collected(map[], map[], [])
    else
      var i := order[|order| - 1];
      Fold(CollectIn(groups, answers, order[..|order| - 1]), groups[i], answers[i])
  }

  /** The batch after results in the order in which they were received. */
  function Batched(groups: seq<Group>, results: seq<Result>): Collected
    requires forall i :: 0 <= i < |results| ==> results[i].group < |groups|
  {
    if results == [] then Collected(map[], map[], [])
    else
      var r := results[|results| - 1];
      Fold(Batched(groups, results[..|results| - 1]), groups[r.group], r.answer)
  }

  lemma {:induction false} BatchedIsCollected(groups: seq<Group>, answers: seq<Answer>, results: seq<Result>)
    requires |groups| == |answers|
    requires forall i :: 0 <= i < |results| ==> results[i].group < |groups| && results[i].answer == answers[results[i].group]
    ensures Batched(groups, results) == CollectIn(groups, answers, Groups(results))
  {
    if results != [] {
      BatchedIsCollected(groups, answers, results[..|results| - 1]);
      assert Groups(results)[..|results| - 1] == Groups(results[..|results| - 1]);
    }
  }

  /** The collecting loop: every result is folded into the batch entry by entry. */
  method CollectResults(groups: seq<Group>, results: seq<Result>) returns (c: Collected)
    requires forall i :: 0 <= i < |results| ==> results[i].group < |groups|
    ensures c == Batched(groups, results)
  {
    c := Collected(map[], map[], []);
    for n := 0 to |results|
      invariant c == Batched(groups, results[..n])
    {
      assert results[..n + 1][..n] == results[..n];
      var g := groups[results[n].group];
      match results[n].answer
      case Found(url, meta) =>
        var urls := ResolveEntries(c.sessionURLs, g.entries, url);
        c := Collected(urls, c.prMetas[url := meta], c.checked);
      case Skip =>
        var checked := AddChecked(c.checked, g.entries);
        c := Collected(c.sessionURLs, c.prMetas, checked);
      case Retry =>
    }
    assert results[..|results|] == results;
  }

  lemma {:induction false} ResolvedSnoc(ids: seq<string>, id: string, urls: seq<string>)
    ensures Resolved(ids + [id], urls) == Resolved(ids, urls)[id := urls]
  {
    assert (ids + [id])[..|ids|] == ids;
  }

  lemma ResolveNext(m: map<string, seq<string>>, entries: seq<Session>, i: nat, urls: seq<string>)
    requires i < |entries|
    ensures var id, before := entries[i].Str(SessionID), m + Resolved(Ids(entries[..i]), urls);
            m + Resolved(Ids(entries[..i + 1]), urls) == if id == "" then before else before[id := urls]
  {
    IdsNext(entries, i);
    ResolvedSnoc(Ids(entries[..i]), entries[i].Str(SessionID), urls);
    AddedThenSet(m, Resolved(Ids(entries[..i]), urls), entries[i].Str(SessionID), urls);
    assert Ids(entries[..i]) + [] == Ids(entries[..i]);
  }

  lemma AddedThenSet(m: map<string, seq<string>>, n: map<string, seq<string>>, id: string, urls: seq<string>)
    ensures m + n[id := urls] == (m + n)[id := urls]
  {
  }

  method ResolveEntries(m: map<string, seq<string>>, entries: seq<Session>, url: string) returns (r: map<string, seq<string>>)
    ensures r == m + Resolved(Ids(entries), [url])
  {
    r := m;
    for i := 0 to |entries|
      invariant r == m + Resolved(Ids(entries[..i]), [url])
    {
      ResolveNext(m, entries, i, [url]);
      var id := entries[i].Str(SessionID);
      if id != "" {
        r := r[id := [url]];
      }
    }
    assert entries[..|entries|] == entries;
  }

  method AddChecked(checked: seq<string>, entries: seq<Session>) returns (r: seq<string>)
    ensures r == checked + Ids(entries)
  {
    r := checked;
    for i := 0 to |entries|
      invariant r == checked + Ids(entries[..i])
    {
      IdsNext(entries, i);
      var id := entries[i].Str(SessionID);
      if id != "" {
        r := r + [id];
      }
    }
    assert entries[..|entries|] == entries;
  }

  lemma IdsNext(entries: seq<Session>, i: nat)
    requires i < |entries|
    ensures var id := entries[i].Str(SessionID);
            Ids(entries[..i + 1]) == Ids(entries[..i]) + (if id == "" then [] else [id])
  {
    assert entries[..i + 1][..i] == entries[..i];
  }

  // ---------------------------------------------------------------- independence of the completion order

  ghost function AllSessionWrites(groups: seq<Group>, answers: seq<Answer>): (r: seq<map<string, seq<string>>>)
    requires |groups| == |answers|
    ensures |r| == |groups| && forall i :: 0 <= i < |r| ==> r[i] == SessionWrites(groups[i], answers[i])
  {
    seq(|groups|, i requires 0 <= i < |groups| && |groups| == |answers| => SessionWrites(groups[i], answers[i]))
  }

  ghost function AllMetaWrites(answers: seq<Answer>): (r: seq<map<string, PRMeta>>)
    ensures |r| == |answers| && forall i :: 0 <= i < |r| ==> r[i] == MetaWrites(answers[i])
  {
    seq(|answers|, i requires 0 <= i < |answers| => MetaWrites(answers[i]))
  }

  lemma FoldMerges(c: Collected, g: Group, a: Answer)
    ensures Fold(c, g, a).sessionURLs == c.sessionURLs + SessionWrites(g, a)
    ensures Fold(c, g, a).prMetas == c.prMetas + MetaWrites(a)
    ensures Fold(c, g, a).checked == c.checked + CheckedIds(g, a)
  {
  }

  lemma {:induction false} CollectInMerges(groups: seq<Group>, answers: seq<Answer>, order: seq<nat>)
    requires |groups| == |answers| && forall i :: 0 <= i < |order| ==> order[i] < |groups|
    ensures CollectIn(groups, answers, order).sessionURLs == Merge(AllSessionWrites(groups, answers), order)
    ensures CollectIn(groups, answers, order).prMetas == Merge(AllMetaWrites(answers), order)
  {
    if order != [] {
      var front, last := order[..|order| - 1], order[|order| - 1];
      CollectInMerges(groups, answers, front);
      FoldMerges(CollectIn(groups, answers, front), groups[last], answers[last]);
    }
  }

  ghost predicate CheckedByOne(groups: seq<Group>, answers: seq<Answer>, order: seq<nat>, id: string)
    requires |groups| == |answers| && forall i :: 0 <= i < |order| ==> order[i] < |groups|
  {
    exists i :: 0 <= i < |order| && id in CheckedIds(groups[order[i]], answers[order[i]])
  }

  lemma CheckedByLast(groups: seq<Group>, answers: seq<Answer>, order: seq<nat>, id: string)
    requires |groups| == |answers| && order != [] && forall i :: 0 <= i < |order| ==> order[i] < |groups|
    ensures var last := order[|order| - 1];
            CheckedByOne(groups, answers, order, id) <==>
            CheckedByOne(groups, answers, order[..|order| - 1], id) || id in CheckedIds(groups[last], answers[last])
  {
    var front := order[..|order| - 1];
    if i :| 0 <= i < |front| && id in CheckedIds(groups[front[i]], answers[front[i]]) {
      assert order[i] == front[i];
    }
    if i :| 0 <= i < |front| && id in CheckedIds(groups[order[i]], answers[order[i]]) {
      assert front[i] == order[i];
    }
  }

  lemma {:induction false} CheckedMember(groups: seq<Group>, answers: seq<Answer>, order: seq<nat>, id: string)
    requires |groups| == |answers| && forall i :: 0 <= i < |order| ==> order[i] < |groups|
    ensures id in CollectIn(groups, answers, order).checked <==> CheckedByOne(groups, answers, order, id)
  {
    if order != [] {
      CheckedMember(groups, answers, order[..|order| - 1], id);
      CheckedByLast(groups, answers, order, id);
      FoldMerges(CollectIn(groups, answers, order[..|order| - 1]), groups[order[|order| - 1]], answers[order[|order| - 1]]);
    }
  }

  /** Equal as far as applying them goes: marking sessions as checked looks at the set of ids only. */
  ghost predicate SameBatch(c: Collected, d: Collected) {
    c.sessionURLs == d.sessionURLs && c.prMetas == d.prMetas && forall id :: id in c.checked <==> id in d.checked
  }

  lemma CheckedSame(groups: seq<Group>, answers: seq<Answer>, o1: seq<nat>, o2: seq<nat>, id: string)
    requires |groups| == |answers| && Permutes(o1, |groups|) && Permutes(o2, |groups|)
    ensures id in CollectIn(groups, answers, o1).checked ==> id in CollectIn(groups, answers, o2).checked
  {
    CheckedMember(groups, answers, o1, id);
    CheckedMember(groups, answers, o2, id);
    if i :| 0 <= i < |o1| && id in CheckedIds(groups[o1[i]], answers[o1[i]]) {
      assert o1[i] in o2;
      var j :| 0 <= j < |o2| && o2[j] == o1[i];
      assert id in CheckedIds(groups[o2[j]], answers[o2[j]]);
    }
  }

  /** A session in two resolved groups got the same URL from both, and equal URLs carry equal metadata. */
  ghost predicate Consistent(groups: seq<Group>, answers: seq<Answer>)
    requires |groups| == |answers|
  {
    forall i, j :: 0 <= i < |groups| && 0 <= j < |groups| && answers[i].Found? && answers[j].Found? ==>
      && ((exists id :: id in Ids(groups[i].entries) && id in Ids(groups[j].entries)) ==> answers[i].url == answers[j].url)
      && (answers[i].url == answers[j].url ==> answers[i].meta == answers[j].meta)
  }

  lemma ConsistentMeansAgree(groups: seq<Group>, answers: seq<Answer>)
    requires |groups| == |answers|
    ensures Consistent(groups, answers) <==> Agree(AllSessionWrites(groups, answers)) && Agree(AllMetaWrites(answers))
  {
    var s, m := AllSessionWrites(groups, answers), AllMetaWrites(answers);
    forall i | 0 <= i < |groups| && answers[i].Found?
      ensures forall id :: id in s[i] <==> id in Ids(groups[i].entries)
      ensures forall id :: id in s[i] ==> s[i][id] == [answers[i].url]
    {
      ResolvedKeys(Ids(groups[i].entries), [answers[i].url]);
    }
    if Agree(s) && Agree(m) {
      AgreeMeansConsistent(groups, answers, s, m);
    }
    if Consistent(groups, answers) {
      forall i, j, id | 0 <= i < |s| && 0 <= j < |s| && id in s[i] && id in s[j]
        ensures s[i][id] == s[j][id]
      {
        assert id in Ids(groups[i].entries) && id in Ids(groups[j].entries);
      }
      assert Agree(m);
    }
  }

  lemma AgreeMeansConsistent(groups: seq<Group>, answers: seq<Answer>, s: seq<map<string, seq<string>>>, m: seq<map<string, PRMeta>>)
    requires |groups| == |answers| == |s| && s == AllSessionWrites(groups, answers) && m == AllMetaWrites(answers)
    requires Agree(s) && Agree(m)
    requires forall i :: 0 <= i < |s| && answers[i].Found? ==>
               forall id :: id in s[i] <==> id in Ids(groups[i].entries)
    requires forall i :: 0 <= i < |s| && answers[i].Found? ==>
               forall id :: id in s[i] ==> s[i][id] == [answers[i].url]
    ensures Consistent(groups, answers)
  {
    forall i, j | 0 <= i < |groups| && 0 <= j < |groups| && answers[i].Found? && answers[j].Found?
      ensures (exists id :: id in Ids(groups[i].entries) && id in Ids(groups[j].entries)) ==> answers[i].url == answers[j].url
      ensures answers[i].url == answers[j].url ==> answers[i].meta == answers[j].meta
    {
      if id :| id in Ids(groups[i].entries) && id in Ids(groups[j].entries) {
        assert s[i][id] == s[j][id];
        assert [answers[i].url][0] == [answers[j].url][0];
      }
      assert answers[i].url in m[i] && answers[j].url in m[j];
    }
  }

  ghost predicate OrderIndependent(groups: seq<Group>, answers: seq<Answer>)
    requires |groups| == |answers|
  {
    forall o1, o2 :: Permutes(o1, |groups|) && Permutes(o2, |groups|) ==>
      SameBatch(CollectIn(groups, answers, o1), CollectIn(groups, answers, o2))
  }

  /** The batch is the same for every completion order exactly when no two answers contradict each other. */
  lemma OrderIndependentExactly(groups: seq<Group>, answers: seq<Answer>)
    requires |groups| == |answers|
    ensures OrderIndependent(groups, answers) <==> Consistent(groups, answers)
  {
    var s, m := AllSessionWrites(groups, answers), AllMetaWrites(answers);
    ConsistentMeansAgree(groups, answers);
    if Agree(s) && Agree(m) {
      forall o1, o2 | Permutes(o1, |groups|) && Permutes(o2, |groups|)
        ensures SameBatch(CollectIn(groups, answers, o1), CollectIn(groups, answers, o2))
      {
        ConsistentOrders(groups, answers, o1, o2);
      }
    }
    if !Agree(s) {
      SessionConflictShows(groups, answers);
    }
    if !Agree(m) {
      MetaConflictShows(groups, answers);
    }
  }

  lemma SessionConflictShows(groups: seq<Group>, answers: seq<Answer>)
    requires |groups| == |answers| && !Agree(AllSessionWrites(groups, answers))
    ensures !OrderIndependent(groups, answers)
  {
    var s := AllSessionWrites(groups, answers);
    var i, j, k :| 0 <= i < |s| && 0 <= j < |s| && k in s[i] && k in s[j] && s[i][k] != s[j][k];
    var o1, o2 := ConflictShows(s, i, j, k);
    CollectInMerges(groups, answers, o1);
    CollectInMerges(groups, answers, o2);
  }

  lemma MetaConflictShows(groups: seq<Group>, answers: seq<Answer>)
    requires |groups| == |answers| && !Agree(AllMetaWrites(answers))
    ensures !OrderIndependent(groups, answers)
  {
    var m := AllMetaWrites(answers);
    var i, j, k :| 0 <= i < |m| && 0 <= j < |m| && k in m[i] && k in m[j] && m[i][k] != m[j][k];
    var o1, o2 := ConflictShows(m, i, j, k);
    CollectInMerges(groups, answers, o1);
    CollectInMerges(groups, answers, o2);
  }

  lemma ConsistentOrders(groups: seq<Group>, answers: seq<Answer>, o1: seq<nat>, o2: seq<nat>)
    requires |groups| == |answers| && Permutes(o1, |groups|) && Permutes(o2, |groups|)
    requires Agree(AllSessionWrites(groups, answers)) && Agree(AllMetaWrites(answers))
    ensures SameBatch(CollectIn(groups, answers, o1), CollectIn(groups, answers, o2))
  {
    CollectInMerges(groups, answers, o1);
    CollectInMerges(groups, answers, o2);
    AgreeingMergesAreEqual(AllSessionWrites(groups, answers), o1, o2);
    AgreeingMergesAreEqual(AllMetaWrites(answers), o1, o2);
    forall id
      ensures id in CollectIn(groups, answers, o1).checked <==> id in CollectIn(groups, answers, o2).checked
    {
      CheckedSame(groups, answers, o1, o2, id);
      CheckedSame(groups, answers, o2, o1, id);
    }
  }

  /**
   The batch of a finished run of the parallel fetch: any two runs over the same groups and
   answers give the same batch, when no two answers contradict each other.
   */
  lemma FetchIsDeterministic(groups: seq<Group>, answers: seq<Answer>, run1: seq<State>, n1: nat, run2: seq<State>, n2: nat)
    requires |groups| == |answers| && Consistent(groups, answers)
    requires Run(answers, run1) && n1 < |run1| && run1[n1].finished
    requires Run(answers, run2) && n2 < |run2| && run2[n2].finished
    ensures forall i :: 0 <= i < |run1[n1].sent| ==> run1[n1].sent[i].group < |groups|
    ensures forall i :: 0 <= i < |run2[n2].sent| ==> run2[n2].sent[i].group < |groups|
    ensures SameBatch(Batched(groups, run1[n1].sent), Batched(groups, run2[n2].sent))
  {
    RunBatch(groups, answers, run1, n1);
    RunBatch(groups, answers, run2, n2);
    OrderIndependentExactly(groups, answers);
  }

  /** What the collector of a finished run holds. */
  lemma RunBatch(groups: seq<Group>, answers: seq<Answer>, states: seq<State>, n: nat)
    requires |groups| == |answers| && Run(answers, states) && n < |states| && states[n].finished
    ensures Permutes(Groups(states[n].sent), |groups|)
    ensures forall i :: 0 <= i < |states[n].sent| ==> states[n].sent[i].group < |groups|
    ensures Batched(groups, states[n].sent) == CollectIn(groups, answers, Groups(states[n].sent))
  {
    EveryGroupOnce(answers, states, n);
    assert forall i :: 0 <= i < |states[n].sent| ==> Groups(states[n].sent)[i] < |groups|;
    BatchedIsCollected(groups, answers, states[n].sent);
  }

  // ---------------------------------------------------------------- what the batch holds

  /** Some entry of the group has the id. */
  predicate HasSession(g: Group, id: string) {
    id != "" && exists s :: s in g.entries && s.Str(SessionID) == id
  }

  lemma {:induction false} IdsExactly(entries: seq<Session>, id: string)
    ensures id in Ids(entries) <==> id != "" && exists s :: s in entries && s.Str(SessionID) == id
  {
    if entries != [] {
      var front, last := entries[..|entries| - 1], entries[|entries| - 1];
      IdsExactly(front, id);
      assert entries == front + [last];
      assert last in entries;
    }
  }

  lemma SessionWritesExactly(g: Group, a: Answer, id: string)
    ensures id in SessionWrites(g, a) <==> a.Found? && HasSession(g, id)
    ensures id in SessionWrites(g, a) ==> SessionWrites(g, a)[id] == [a.url]
  {
    if a.Found? {
      ResolvedKeys(Ids(g.entries), [a.url]);
      IdsExactly(g.entries, id);
    }
  }

  /** In any order, the last map with the key decides. */
  lemma {:induction false} MergeShows<K, V>(maps: seq<map<K, V>>, order: seq<nat>, k: K)
    requires forall i :: 0 <= i < |order| ==> order[i] < |maps|
    ensures k in Merge(maps, order) <==> exists i :: 0 <= i < |order| && k in maps[order[i]]
    ensures k in Merge(maps, order) ==> exists i :: 0 <= i < |order| && k in maps[order[i]] && Merge(maps, order)[k] == maps[order[i]][k]
  {
    if order != [] {
      var front := order[..|order| - 1];
      MergeShows(maps, front, k);
      assert forall i :: 0 <= i < |front| ==> front[i] == order[i];
      if k in maps[order[|order| - 1]] {
        assert Merge(maps, order)[k] == maps[order[|order| - 1]][k];
      }
    }
  }

  lemma MergeOfAll<K, V>(maps: seq<map<K, V>>, order: seq<nat>, k: K)
    requires Permutes(order, |maps|)
    ensures k in Merge(maps, order) <==> exists i :: 0 <= i < |maps| && k in maps[i]
    ensures k in Merge(maps, order) ==> exists i :: 0 <= i < |maps| && k in maps[i] && Merge(maps, order)[k] == maps[i][k]
  {
    MergeShows(maps, order, k);
    if i :| 0 <= i < |maps| && k in maps[i] {
      assert i in order;
      var j :| 0 <= j < |order| && order[j] == i;
      assert k in maps[order[j]];
    }
  }

  /** The URL of a session is one that was found for a group it belongs to, and it has one if any of its groups has. */
  ghost predicate URLsCollected(groups: seq<Group>, answers: seq<Answer>, c: Collected)
    requires |groups| == |answers|
  {
    && (forall id :: id in c.sessionURLs <==> exists i :: 0 <= i < |groups| && answers[i].Found? && HasSession(groups[i], id))
    && (forall id :: id in c.sessionURLs ==>
          exists i :: 0 <= i < |groups| && answers[i].Found? && HasSession(groups[i], id) && c.sessionURLs[id] == [answers[i].url])
  }

  /** Every URL found has the metadata of an answer that found it. */
  ghost predicate MetasCollected(answers: seq<Answer>, c: Collected) {
    && (forall u :: u in c.prMetas <==> exists i :: 0 <= i < |answers| && answers[i].Found? && answers[i].url == u)
    && (forall u :: u in c.prMetas ==>
          exists i :: 0 <= i < |answers| && answers[i].Found? && answers[i].url == u && c.prMetas[u] == answers[i].meta)
  }

  /** Exactly the sessions of hopeless groups are marked as checked. */
  ghost predicate ChecksCollected(groups: seq<Group>, answers: seq<Answer>, c: Collected)
    requires |groups| == |answers|
  {
    forall id :: id in c.checked <==> exists i :: 0 <= i < |groups| && answers[i].Skip? && HasSession(groups[i], id)
  }

  lemma URLsAreCollected(groups: seq<Group>, answers: seq<Answer>, order: seq<nat>)
    requires |groups| == |answers| && Permutes(order, |groups|)
    ensures URLsCollected(groups, answers, CollectIn(groups, answers, order))
  {
    var maps := AllSessionWrites(groups, answers);
    CollectInMerges(groups, answers, order);
    forall id
      ensures id in Merge(maps, order) <==> exists i :: 0 <= i < |groups| && answers[i].Found? && HasSession(groups[i], id)
      ensures id in Merge(maps, order) ==>
                exists i :: 0 <= i < |groups| && answers[i].Found? && HasSession(groups[i], id) && Merge(maps, order)[id] == [answers[i].url]
    {
      URLIsCollected(groups, answers, order, maps, id);
    }
  }

  lemma URLIsCollected(groups: seq<Group>, answers: seq<Answer>, order: seq<nat>, maps: seq<map<string, seq<string>>>, id: string)
    requires |groups| == |answers| && Permutes(order, |groups|) && maps == AllSessionWrites(groups, answers)
    ensures id in Merge(maps, order) <==> exists i :: 0 <= i < |groups| && answers[i].Found? && HasSession(groups[i], id)
    ensures id in Merge(maps, order) ==>
              exists i :: 0 <= i < |groups| && answers[i].Found? && HasSession(groups[i], id) && Merge(maps, order)[id] == [answers[i].url]
  {
    MergeOfAll(maps, order, id);
    forall i | 0 <= i < |groups|
      ensures id in maps[i] <==> answers[i].Found? && HasSession(groups[i], id)
      ensures id in maps[i] ==> maps[i][id] == [answers[i].url]
    {
      SessionWritesExactly(groups[i], answers[i], id);
    }
  }

  lemma MetasAreCollected(groups: seq<Group>, answers: seq<Answer>, order: seq<nat>)
    requires |groups| == |answers| && Permutes(order, |groups|)
    ensures MetasCollected(answers, CollectIn(groups, answers, order))
  {
    var maps := AllMetaWrites(answers);
    CollectInMerges(groups, answers, order);
    forall u
      ensures u in Merge(maps, order) <==> exists i :: 0 <= i < |answers| && answers[i].Found? && answers[i].url == u
      ensures u in Merge(maps, order) ==>
                exists i :: 0 <= i < |answers| && answers[i].Found? && answers[i].url == u && Merge(maps, order)[u] == answers[i].meta
    {
      MetaIsCollected(answers, order, maps, u);
    }
  }

  lemma MetaIsCollected(answers: seq<Answer>, order: seq<nat>, maps: seq<map<string, PRMeta>>, u: string)
    requires Permutes(order, |answers|) && maps == AllMetaWrites(answers)
    ensures u in Merge(maps, order) <==> exists i :: 0 <= i < |answers| && answers[i].Found? && answers[i].url == u
    ensures u in Merge(maps, order) ==>
              exists i :: 0 <= i < |answers| && answers[i].Found? && answers[i].url == u && Merge(maps, order)[u] == answers[i].meta
  {
    MergeOfAll(maps, order, u);
    forall i | 0 <= i < |answers|
      ensures u in maps[i] <==> answers[i].Found? && answers[i].url == u
      ensures u in maps[i] ==> maps[i][u] == answers[i].meta
    {
    }
  }

  lemma ChecksAreCollected(groups: seq<Group>, answers: seq<Answer>, order: seq<nat>)
    requires |groups| == |answers| && Permutes(order, |groups|)
    ensures ChecksCollected(groups, answers, CollectIn(groups, answers, order))
  {
    forall id
      ensures id in CollectIn(groups, answers, order).checked <==>
              exists i :: 0 <= i < |groups| && answers[i].Skip? && HasSession(groups[i], id)
    {
      CheckedMember(groups, answers, order, id);
      forall i | 0 <= i < |groups|
        ensures id in CheckedIds(groups[i], answers[i]) <==> answers[i].Skip? && HasSession(groups[i], id)
      {
        IdsExactly(groups[i].entries, id);
      }
      if i :| 0 <= i < |groups| && answers[i].Skip? && HasSession(groups[i], id) {
        assert i in order;
        var j :| 0 <= j < |order| && order[j] == i;
        assert id in CheckedIds(groups[order[j]], answers[order[j]]);
      }
    }
  }

  /** What a finished run of the parallel fetch has put into the batch, whatever the order in which the fetches completed. */
  lemma BatchHoldsTheAnswers(groups: seq<Group>, answers: seq<Answer>, states: seq<State>, n: nat)
    requires |groups| == |answers| && Run(answers, states) && n < |states| && states[n].finished
    ensures forall i :: 0 <= i < |states[n].sent| ==> states[n].sent[i].group < |groups|
    ensures var c := Batched(groups, states[n].sent);
            URLsCollected(groups, answers, c) && MetasCollected(answers, c) && ChecksCollected(groups, answers, c)
  {
    RunBatch(groups, answers, states, n);
    URLsAreCollected(groups, answers, Groups(states[n].sent));
    MetasAreCollected(groups, answers, Groups(states[n].sent));
    ChecksAreCollected(groups, answers, Groups(states[n].sent));
  }
}
