/** Candidates grouped by repository and branch, newest group first, up to a cap. */
module Grouping {
  import opened Common
  import opened Ordering
  import opened JsonLine

  datatype Key = RepoBranch(repo: string, branch: string)

  datatype Group = Group(key: Key, entries: seq<Session>)

  function KeyOf(s: Session): Key {
    RepoBranch(s.Str(Repo), s.Str(Branch))
  }

  /** Sessions without a repository or a branch belong to no group. */
  predicate Keyed(s: Session) {
    s.Str(Repo) != "" && s.Str(Branch) != ""
  }

  /** The entries of one group, in their original order. */
  function Members(entries: seq<Session>, k: Key): seq<Session> {
    Filter((s: Session) => Keyed(s) && KeyOf(s) == k, entries)
  }

  ghost predicate DistinctKeys(groups: seq<Group>) {
    forall i, j :: 0 <= i < j < |groups| ==> groups[i].key != groups[j].key
  }

  /** One group for every key that occurs, holding all entries with that key. */
  ghost predicate GroupsOf(groups: seq<Group>, entries: seq<Session>) {
    && DistinctKeys(groups)
    && (forall i :: 0 <= i < |groups| ==> groups[i].entries == Members(entries, groups[i].key) != [])
    && (forall s :: s in entries && Keyed(s) ==> exists i :: 0 <= i < |groups| && groups[i].key == KeyOf(s))
  }

  /** Sessions that a group can hold together. */
  predicate SameBranch(s: Session, r: Session) {
    s.Str(Repo) == r.Str(Repo) && s.Str(Branch) == r.Str(Branch)
  }

  /**
   Every group holds entries of its own repository and branch, two entries share a group if and only if
   these two agree, and an entry is in no group exactly when one of them is empty.
   */
  ghost predicate GroupedByBranch(groups: seq<Group>, entries: seq<Session>) {
    && (forall g, s :: g in groups && s in g.entries ==>
          s in entries && s.Str(Repo) == g.key.repo != "" && s.Str(Branch) == g.key.branch != "")
    && (forall s :: s in entries && s.Str(Repo) != "" && s.Str(Branch) != "" ==> exists g :: g in groups && s in g.entries)
    && (forall g, h, s, r :: g in groups && h in groups && s in g.entries && r in h.entries ==> (g == h <==> SameBranch(s, r)))
  }

  lemma MembersExactly(entries: seq<Session>, k: Key, s: Session)
    ensures s in Members(entries, k) <==>
            s in entries && s.Str(Repo) == k.repo != "" && s.Str(Branch) == k.branch != ""
  {
    FilterMember((x: Session) => Keyed(x) && KeyOf(x) == k, entries, s);
  }

  lemma GroupsByBranch(groups: seq<Group>, entries: seq<Session>)
    requires GroupsOf(groups, entries)
    ensures GroupedByBranch(groups, entries)
  {
    forall g, s | g in groups && s in g.entries
      ensures s in entries && s.Str(Repo) == g.key.repo != "" && s.Str(Branch) == g.key.branch != ""
    {
      MembersExactly(entries, g.key, s);
    }
    forall s | s in entries && s.Str(Repo) != "" && s.Str(Branch) != ""
      ensures exists g :: g in groups && s in g.entries
    {
      var i :| 0 <= i < |groups| && groups[i].key == KeyOf(s);
      MembersExactly(entries, groups[i].key, s);
      assert groups[i] in groups;
    }
    forall g, h, s, r | g in groups && h in groups && s in g.entries && r in h.entries
      ensures g == h <==> SameBranch(s, r)
    {
      MembersExactly(entries, g.key, s);
      MembersExactly(entries, h.key, r);
      SameKeySameGroup(groups, g, h);
    }
  }

  lemma SameKeySameGroup(groups: seq<Group>, g: Group, h: Group)
    requires DistinctKeys(groups) && g in groups && h in groups
    ensures g == h <==> g.key == h.key
  {
  }

  ghost predicate GroupMap(m: map<Key, seq<Session>>, entries: seq<Session>) {
    && (forall k :: k in m ==> m[k] == Members(entries, k) != [])
    && (forall s :: s in entries && Keyed(s) ==> KeyOf(s) in m)
  }

  lemma MembersNext(entries: seq<Session>, n: nat, k: Key)
    requires n < |entries|
    ensures Members(entries[..n + 1], k) ==
            Members(entries[..n], k) + (if Keyed(entries[n]) && KeyOf(entries[n]) == k then [entries[n]] else [])
  {
    assert entries[..n + 1][..n] == entries[..n];
  }

  lemma {:induction false} NoMembers(entries: seq<Session>, k: Key)
    requires forall s :: s in entries && Keyed(s) ==> KeyOf(s) != k
    ensures Members(entries, k) == []
  {
    if entries != [] {
      NoMembers(entries[..|entries| - 1], k);
    }
  }

  /** The grouping map after one more entry. */
  lemma GroupMapNext(m: map<Key, seq<Session>>, entries: seq<Session>, n: nat)
    requires n < |entries| && GroupMap(m, entries[..n])
    ensures var s, k := entries[n], KeyOf(entries[n]);
            GroupMap(if Keyed(s) then m[k := (if k in m then m[k] else []) + [s]] else m, entries[..n + 1])
  {
    var s, k := entries[n], KeyOf(entries[n]);
    forall x ensures Members(entries[..n + 1], x) ==
                     Members(entries[..n], x) + (if Keyed(s) && KeyOf(s) == x then [s] else []) {
      MembersNext(entries, n, x);
    }
    if Keyed(s) && k !in m {
      NoMembers(entries[..n], k);
    }
    assert entries[..n + 1] == entries[..n] + [s];
  }

  /** Groups the entries and lists the groups in whatever order the map yields them. */
  method GroupEntries(entries: seq<Session>) returns (groups: seq<Group>)
    ensures GroupsOf(groups, entries) && GroupedByBranch(groups, entries)
  {
    var m: map<Key, seq<Session>> := map[];
    for i := 0 to |entries|
      invariant GroupMap(m, entries[..i])
    {
      GroupMapNext(m, entries, i);
      var e := entries[i];
      if e.Str(Repo) == "" || e.Str(Branch) == "" {
        continue;
      }
      var k := RepoBranch(e.Str(Repo), e.Str(Branch));
      m := m[k := (if k in m then m[k] else []) + [e]];
    }
    assert entries[..|entries|] == entries;
    groups := ListGroups(m);
    GroupsByBranch(groups, entries);
  }

  method ListGroups(m: map<Key, seq<Session>>) returns (groups: seq<Group>)
    ensures DistinctKeys(groups)
    ensures forall i :: 0 <= i < |groups| ==> groups[i].key in m && groups[i].entries == m[groups[i].key]
    ensures forall k :: k in m ==> exists i :: 0 <= i < |groups| && groups[i].key == k
  {
    var keys := Collect(m.Keys);
    assert forall k :: k in m <==> k in Elements(keys);
    groups := [];
    for i := 0 to |keys|
      invariant |groups| == i
      invariant forall j :: 0 <= j < i ==> keys[j] in m && groups[j] == Group(keys[j], m[keys[j]])
    {
      assert keys[i] in Elements(keys);
      groups := groups + [Group(keys[i], m[keys[i]])];
    }
    forall k | k in m
      ensures exists i :: 0 <= i < |groups| && groups[i].key == k
    {
      var i :| 0 <= i < |keys| && keys[i] == k;
      assert groups[i].key == k;
    }
  }

  // ---------------------------------------------------------------- a partition

  /** All entries of the groups. */
  function AllEntries(groups: seq<Group>): seq<Session> {
    if groups == [] then [] else AllEntries(groups[..|groups| - 1]) + groups[|groups| - 1].entries
  }

  /** How often s occurs in a list. */
  function Count(s: Session, list: seq<Session>): nat {
    multiset(list)[s]
  }

  lemma {:induction false} CountFiltered(keep: Session -> bool, list: seq<Session>, s: Session)
    ensures Count(s, Filter(keep, list)) == if keep(s) then Count(s, list) else 0
  {
    if list != [] {
      CountFiltered(keep, list[..|list| - 1], s);
      assert list == list[..|list| - 1] + [list[|list| - 1]];
    }
  }

  /** Some group has the key of the session. */
  ghost predicate HasKey(groups: seq<Group>, s: Session) {
    exists i :: 0 <= i < |groups| && groups[i].key == KeyOf(s)
  }

  lemma HasKeySnoc(groups: seq<Group>, s: Session)
    requires groups != []
    ensures HasKey(groups, s) <==> HasKey(groups[..|groups| - 1], s) || groups[|groups| - 1].key == KeyOf(s)
    ensures DistinctKeys(groups) && groups[|groups| - 1].key == KeyOf(s) ==> !HasKey(groups[..|groups| - 1], s)
  {
    var front := groups[..|groups| - 1];
    if i :| 0 <= i < |groups| && groups[i].key == KeyOf(s) && i < |front| {
      assert front[i].key == KeyOf(s);
    }
    assert forall i :: 0 <= i < |front| ==> front[i] == groups[i];
  }

  lemma CountInMembers(entries: seq<Session>, k: Key, s: Session)
    ensures Count(s, Members(entries, k)) == if Keyed(s) && KeyOf(s) == k then Count(s, entries) else 0
  {
    CountFiltered((x: Session) => Keyed(x) && KeyOf(x) == k, entries, s);
  }

  lemma {:induction false} CountInGroups(groups: seq<Group>, entries: seq<Session>, s: Session)
    requires DistinctKeys(groups)
    requires forall i :: 0 <= i < |groups| ==> groups[i].entries == Members(entries, groups[i].key)
    ensures Count(s, AllEntries(groups)) == if Keyed(s) && HasKey(groups, s) then Count(s, entries) else 0
  {
    if groups != [] {
      var front, last := groups[..|groups| - 1], groups[|groups| - 1];
      CountInGroups(front, entries, s);
      CountInMembers(entries, last.key, s);
      HasKeySnoc(groups, s);
    }
  }

  /** The groups partition the entries that have a repository and a branch. */
  lemma GroupsPartition(groups: seq<Group>, entries: seq<Session>)
    requires GroupsOf(groups, entries)
    ensures multiset(AllEntries(groups)) == multiset(Filter(Keyed, entries))
  {
    forall s: Session
      ensures multiset(AllEntries(groups))[s] == multiset(Filter(Keyed, entries))[s]
    {
      CountInGroups(groups, entries, s);
      CountFiltered(Keyed, entries, s);
      assert s in entries <==> Count(s, entries) > 0;
    }
  }

  // ---------------------------------------------------------------- the newest groups

  /** The latest time of a group's sessions, or zero. */
  function NewestTime(time: Session -> nat, entries: seq<Session>): nat {
    if entries == [] then 0
    else
      var t, before := time(entries[|entries| - 1]), NewestTime(time, entries[..|entries| - 1]);
      if t > before then t else before
  }

  lemma {:induction false} NewestIsLatest(time: Session -> nat, entries: seq<Session>)
    ensures forall s :: s in entries ==> time(s) <= NewestTime(time, entries)
    ensures NewestTime(time, entries) > 0 ==> exists s :: s in entries && time(s) == NewestTime(time, entries)
  {
    if entries != [] {
      NewestIsLatest(time, entries[..|entries| - 1]);
      assert entries == entries[..|entries| - 1] + [entries[|entries| - 1]];
    }
  }

  /** kept are groups of all, and no group left out is newer than one of them. */
  ghost predicate Newest(kept: seq<Group>, all: seq<Group>, time: Session -> nat) {
    && (forall g :: g in kept ==> g in all)
    && (forall g, h :: g in all && g !in kept && h in kept ==> NewestTime(time, g.entries) <= NewestTime(time, h.entries))
  }

  /** A group left out has no session later than the latest one of every group kept. */
  lemma NewestMeans(kept: seq<Group>, all: seq<Group>, time: Session -> nat, g: Group, h: Group, s: Session)
    requires Newest(kept, all, time) && g in all && g !in kept && h in kept && s in g.entries
    ensures time(s) == 0 || exists r :: r in h.entries && time(s) <= time(r)
  {
    NewestIsLatest(time, g.entries);
    NewestIsLatest(time, h.entries);
  }

  /** The whole selection of runURLBackfill: group, sort newest first, keep at most the budget. */
  method ChooseGroups(entries: seq<Session>, time: Session -> nat, capped: bool, budget: nat)
    returns (kept: seq<Group>, ghost all: seq<Group>)
    ensures GroupsOf(all, entries) && GroupedByBranch(all, entries)
    ensures Newest(kept, all, time) && DistinctKeys(kept)
    ensures |kept| == if capped && |all| > budget then budget else |all|
  {
    var groups := GroupEntries(entries);
    ghost var order;
    var rank := (g: Group) => -(NewestTime(time, g.entries) as int);
    all := groups;
    groups, order := UnstableSort(rank, groups);
    SortedGroups(groups, all, order);
    kept := groups;
    if capped && |groups| > budget {
      kept := groups[..budget];
    }
    NewestPrefix(groups, all, time, rank, kept);
  }

  lemma SortedGroups(groups: seq<Group>, all: seq<Group>, order: seq<nat>)
    requires Reordered(groups, all, order) && DistinctKeys(all)
    ensures DistinctKeys(groups) && forall g :: g in groups <==> g in all
  {
    forall i, j | 0 <= i < j < |groups|
      ensures groups[i].key != groups[j].key
    {
      assert order[i] != order[j];
    }
    forall g | g in all
      ensures g in groups
    {
      var k :| 0 <= k < |all| && all[k] == g;
      assert k in order;
      var i :| 0 <= i < |order| && order[i] == k;
      assert groups[i] == g;
    }
  }

  lemma NewestPrefix(groups: seq<Group>, all: seq<Group>, time: Session -> nat, rank: Group -> int, kept: seq<Group>)
    requires Ascending(rank, groups) && kept <= groups && (forall g :: g in groups <==> g in all)
    requires forall g: Group :: rank(g) == -(NewestTime(time, g.entries) as int)
    ensures Newest(kept, all, time)
  {
    forall g, h | g in all && g !in kept && h in kept
      ensures NewestTime(time, g.entries) <= NewestTime(time, h.entries)
    {
      var i :| 0 <= i < |kept| && kept[i] == h;
      var j :| 0 <= j < |groups| && groups[j] == g;
      assert groups[i] == h;
      assert forall x :: 0 <= x < |kept| ==> groups[x] == kept[x] && groups[x] in kept;
      assert rank(groups[i]) <= rank(groups[j]);
    }
  }
}
