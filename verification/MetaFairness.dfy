/**
 The metadata refresh: each run takes the URLs checked longest ago, up to a cap, and only a
 successful fetch moves a URL's check time. How long can a URL wait?
 */
module MetaFairness {
  import opened Common
  import opened Ordering
  import opened JsonLine

  // ---------------------------------------------------------------- one run's choice

  datatype Info = Info(url: string, cwd: string, lastChecked: int)

  /** The check time on record; a URL never checked has the zero time. */
  function CheckedAt(checks: map<string, int>, url: string): int {
    if url in checks then checks[url] else 0
  }

  function Urls(infos: seq<Info>): set<string> {
    set i | 0 <= i < |infos| :: infos[i].url
  }

  /** The URL a session is refreshed under: its last one, unless it is merged. */
  function RefreshURL(s: Session): string {
    if s.Strs(PRURLs) == [] || s.Bool(IsMerged) then "" else s.Strs(PRURLs)[|s.Strs(PRURLs)| - 1]
  }

  ghost predicate Unmerged(sessions: seq<Session>, url: string) {
    url != "" && exists i :: 0 <= i < |sessions| && RefreshURL(sessions[i]) == url
  }

  predicate EndsIn(urls: seq<string>, url: string) {
    urls != [] && urls[|urls| - 1] == url
  }

  /** A URL is unmerged if it is the last one of a session that is not merged. */
  lemma UnmergedExactly(sessions: seq<Session>, url: string)
    ensures Unmerged(sessions, url) <==>
            url != "" && exists s :: s in sessions && !s.Bool(IsMerged) && EndsIn(s.Strs(PRURLs), url)
  {
    if Unmerged(sessions, url) {
      var i :| 0 <= i < |sessions| && RefreshURL(sessions[i]) == url;
      assert sessions[i] in sessions;
    }
    if url != "" {
      if s :| s in sessions && !s.Bool(IsMerged) && EndsIn(s.Strs(PRURLs), url) {
        var i :| 0 <= i < |sessions| && sessions[i] == s;
        assert RefreshURL(sessions[i]) == url;
      }
    }
  }

  ghost predicate DistinctUrls(infos: seq<Info>) {
    forall i, j :: 0 <= i < j < |infos| ==> infos[i].url != infos[j].url
  }

  /** The URL is fetched in the directory of the first session refreshed under it. */
  ghost predicate FirstUnder(sessions: seq<Session>, info: Info) {
    exists i :: 0 <= i < |sessions| && RefreshURL(sessions[i]) == info.url && sessions[i].Str(Cwd) == info.cwd &&
                forall j :: 0 <= j < i ==> RefreshURL(sessions[j]) != info.url
  }

  lemma FirstUnderStays(sessions: seq<Session>, n: nat, info: Info)
    requires n < |sessions| && FirstUnder(sessions[..n], info)
    ensures FirstUnder(sessions[..n + 1], info)
  {
    var i :| 0 <= i < n && RefreshURL(sessions[..n][i]) == info.url && sessions[..n][i].Str(Cwd) == info.cwd &&
             forall j :: 0 <= j < i ==> RefreshURL(sessions[..n][j]) != info.url;
    assert forall j :: 0 <= j <= i ==> sessions[..n + 1][j] == sessions[..n][j];
  }

  lemma FirstUnderNow(sessions: seq<Session>, n: nat, info: Info)
    requires n < |sessions| && info.url != "" && !Unmerged(sessions[..n], info.url)
    requires RefreshURL(sessions[n]) == info.url && sessions[n].Str(Cwd) == info.cwd
    ensures FirstUnder(sessions[..n + 1], info)
  {
    var prefix := sessions[..n + 1];
    assert prefix[n] == sessions[n];
    forall j | 0 <= j < n
      ensures RefreshURL(prefix[j]) != info.url
    {
      assert prefix[j] == sessions[..n][j];
    }
  }

  ghost predicate AllFirst(sessions: seq<Session>, infos: seq<Info>) {
    forall i :: 0 <= i < |infos| ==> FirstUnder(sessions, infos[i])
  }

  lemma AllFirstStay(sessions: seq<Session>, n: nat, infos: seq<Info>)
    requires n < |sessions| && AllFirst(sessions[..n], infos)
    ensures AllFirst(sessions[..n + 1], infos)
  {
    forall i | 0 <= i < |infos|
      ensures FirstUnder(sessions[..n + 1], infos[i])
    {
      FirstUnderStays(sessions, n, infos[i]);
    }
  }

  lemma AllFirstNext(sessions: seq<Session>, n: nat, infos: seq<Info>, info: Info)
    requires n < |sessions| && AllFirst(sessions[..n + 1], infos) && info.url != "" && !Unmerged(sessions[..n], info.url)
    requires RefreshURL(sessions[n]) == info.url && sessions[n].Str(Cwd) == info.cwd
    ensures AllFirst(sessions[..n + 1], infos + [info])
  {
    FirstUnderNow(sessions, n, info);
  }

  /** Each unmerged URL of the sessions once, with its check time and the directory of the first session under it. */
  ghost predicate Gathered(sessions: seq<Session>, checks: map<string, int>, targets: seq<Info>) {
    && DistinctUrls(targets)
    && (forall u :: u in Urls(targets) <==> Unmerged(sessions, u))
    && (forall i :: 0 <= i < |targets| ==> targets[i].lastChecked == CheckedAt(checks, targets[i].url))
    && AllFirst(sessions, targets)
  }

  lemma GatherSkips(sessions: seq<Session>, n: nat, checks: map<string, int>, targets: seq<Info>)
    requires n < |sessions| && Gathered(sessions[..n], checks, targets)
    requires RefreshURL(sessions[n]) == "" || RefreshURL(sessions[n]) in Urls(targets)
    ensures Gathered(sessions[..n + 1], checks, targets)
  {
    UnmergedNext(sessions, n);
    AllFirstStay(sessions, n, targets);
  }

  lemma GatherAdds(sessions: seq<Session>, n: nat, checks: map<string, int>, targets: seq<Info>, info: Info)
    requires n < |sessions| && Gathered(sessions[..n], checks, targets)
    requires info == Info(RefreshURL(sessions[n]), sessions[n].Str(Cwd), CheckedAt(checks, RefreshURL(sessions[n])))
    requires info.url != "" && info.url !in Urls(targets)
    ensures Gathered(sessions[..n + 1], checks, targets + [info])
    ensures Urls(targets + [info]) == Urls(targets) + {info.url}
  {
    UnmergedNext(sessions, n);
    FirstsAfter(sessions, n, targets, info);
    UrlsAppend(targets, info);
    DistinctAfter(targets, info);
  }

  lemma FirstsAfter(sessions: seq<Session>, n: nat, infos: seq<Info>, info: Info)
    requires n < |sessions| && AllFirst(sessions[..n], infos) && info.url != "" && !Unmerged(sessions[..n], info.url)
    requires RefreshURL(sessions[n]) == info.url && sessions[n].Str(Cwd) == info.cwd
    ensures AllFirst(sessions[..n + 1], infos + [info])
  {
    AllFirstStay(sessions, n, infos);
    AllFirstNext(sessions, n, infos, info);
  }

  lemma DistinctAfter(infos: seq<Info>, info: Info)
    requires DistinctUrls(infos) && info.url !in Urls(infos)
    ensures DistinctUrls(infos + [info])
  {
    assert forall i :: 0 <= i < |infos| ==> infos[i].url in Urls(infos);
  }

  /** The loop of runMetaBackfill that gathers each unmerged URL once, with its check time. */
  method CollectTargets(sessions: seq<Session>, checks: map<string, int>) returns (targets: seq<Info>)
    ensures DistinctUrls(targets)
    ensures forall u :: u in Urls(targets) <==> Unmerged(sessions, u)
    ensures forall i :: 0 <= i < |targets| ==> targets[i].lastChecked == CheckedAt(checks, targets[i].url)
    ensures AllFirst(sessions, targets)
  {
    var seen: set<string> := {};
    targets := [];
    for i := 0 to |sessions|
      invariant seen == Urls(targets) && Gathered(sessions[..i], checks, targets)
    {
      var s := sessions[i];
      if s.Strs(PRURLs) == [] {
        GatherSkips(sessions, i, checks, targets);
        continue;
      }
      if s.Bool(IsMerged) {
        GatherSkips(sessions, i, checks, targets);
        continue;
      }
      var url := s.Strs(PRURLs)[|s.Strs(PRURLs)| - 1];
      if url == "" || url in seen {
        GatherSkips(sessions, i, checks, targets);
        continue;
      }
      var info := Info(url, s.Str(Cwd), CheckedAt(checks, url));
      GatherAdds(sessions, i, checks, targets, info);
      seen := seen + {url};
      targets := targets + [info];
    }
    assert sessions[..|sessions|] == sessions;
  }

  lemma UnmergedNext(sessions: seq<Session>, i: nat)
    requires i < |sessions|
    ensures forall u :: Unmerged(sessions[..i + 1], u) <==>
                        Unmerged(sessions[..i], u) || (u != "" && RefreshURL(sessions[i]) == u)
  {
    forall u | Unmerged(sessions[..i], u)
      ensures Unmerged(sessions[..i + 1], u)
    {
      var j :| 0 <= j < i && RefreshURL(sessions[..i][j]) == u;
      assert sessions[..i + 1][j] == sessions[..i][j];
    }
    assert sessions[..i + 1][i] == sessions[i];
    forall u | Unmerged(sessions[..i + 1], u) && RefreshURL(sessions[i]) != u
      ensures Unmerged(sessions[..i], u)
    {
      var j :| 0 <= j < i + 1 && RefreshURL(sessions[..i + 1][j]) == u;
      assert sessions[..i][j] == sessions[..i + 1][j];
    }
  }

  lemma UrlsAppend(infos: seq<Info>, info: Info)
    ensures Urls(infos + [info]) == Urls(infos) + {info.url}
  {
    assert forall i :: 0 <= i < |infos| ==> (infos + [info])[i] == infos[i];
    assert (infos + [info])[|infos|] == info;
  }

  ghost predicate ByAge(infos: seq<Info>) {
    forall i, j :: 0 <= i < j < |infos| ==> infos[i].lastChecked <= infos[j].lastChecked
  }

  /** The run takes as many URLs as the cap allows, and none it leaves out was checked longer ago. */
  ghost predicate Picks(urls: set<string>, checks: map<string, int>, cap: nat, picked: set<string>) {
    && picked <= urls
    && |picked| == (if |urls| < cap then |urls| else cap)
    && forall p, q :: p in picked && q in urls && q !in picked ==> CheckedAt(checks, p) <= CheckedAt(checks, q)
  }

  /** URLs that were never checked go first: while one is left out, none that has been checked is taken. */
  lemma UncheckedGoFirst(urls: set<string>, checks: map<string, int>, cap: nat, picked: set<string>, p: string, q: string)
    requires Picks(urls, checks, cap, picked) && p in picked && p in checks && checks[p] > 0
    ensures q in urls && q !in checks ==> q in picked
  {
  }

  lemma {:induction false} UrlsCount(infos: seq<Info>)
    requires DistinctUrls(infos)
    ensures |Urls(infos)| == |infos|
  {
    if infos == [] {
      assert Urls(infos) == {};
    } else {
      var front, last := infos[..|infos| - 1], infos[|infos| - 1];
      UrlsCount(front);
      assert infos == front + [last];
      UrlsAppend(front, last);
    }
  }

  /** However the sort breaks ties, keeping the first cap entries of a list by age is a fair pick. */
  lemma PrefixByAgePicks(sorted: seq<Info>, checks: map<string, int>, cap: nat)
    requires DistinctUrls(sorted) && ByAge(sorted)
    requires forall i :: 0 <= i < |sorted| ==> sorted[i].lastChecked == CheckedAt(checks, sorted[i].url)
    ensures var kept := if |sorted| > cap then sorted[..cap] else sorted;
            Picks(Urls(sorted), checks, cap, Urls(kept))
  {
    var kept := if |sorted| > cap then sorted[..cap] else sorted;
    UrlsCount(sorted);
    UrlsCount(kept);
    forall u | u in Urls(kept)
      ensures u in Urls(sorted)
    {
      var i :| 0 <= i < |kept| && kept[i].url == u;
      assert sorted[i].url == u;
    }
    forall p, q | p in Urls(kept) && q in Urls(sorted) && q !in Urls(kept)
      ensures CheckedAt(checks, p) <= CheckedAt(checks, q)
    {
      var i :| 0 <= i < |kept| && kept[i].url == p;
      var j :| 0 <= j < |sorted| && sorted[j].url == q;
      assert forall x :: 0 <= x < |kept| ==> sorted[x] == kept[x];
      assert forall x :: 0 <= x < |kept| ==> sorted[x].url in Urls(kept);
      assert sorted[i].lastChecked <= sorted[j].lastChecked;
    }
  }

  lemma ReorderedTargets(r: seq<Info>, s: seq<Info>, order: seq<nat>)
    requires Reordered(r, s, order) && DistinctUrls(s)
    ensures DistinctUrls(r) && Urls(r) == Urls(s)
  {
    forall i, j | 0 <= i < j < |r|
      ensures r[i].url != r[j].url
    {
      assert order[i] != order[j];
    }
    forall u | u in Urls(s)
      ensures u in Urls(r)
    {
      var k :| 0 <= k < |s| && s[k].url == u;
      assert k in order;
      var i :| 0 <= i < |order| && order[i] == k;
      assert r[i].url == u;
    }
  }

  /** The targets in some order of age, without those beyond the cap. */
  ghost predicate Chosen(sorted: seq<Info>, sessions: seq<Session>, checks: map<string, int>, cap: nat, kept: seq<Info>) {
    && DistinctUrls(sorted) && ByAge(sorted)
    && (forall u :: u in Urls(sorted) <==> Unmerged(sessions, u))
    && (forall i :: 0 <= i < |sorted| ==> sorted[i].lastChecked == CheckedAt(checks, sorted[i].url))
    && kept == if cap > 0 && |sorted| > cap then sorted[..cap] else sorted
  }

  lemma ChosenPicks(sorted: seq<Info>, sessions: seq<Session>, checks: map<string, int>, cap: nat, kept: seq<Info>)
    requires Chosen(sorted, sessions, checks, cap, kept)
    ensures cap > 0 ==> Picks(Urls(sorted), checks, cap, Urls(kept))
    ensures cap == 0 ==> Urls(kept) == Urls(sorted)
    ensures DistinctUrls(kept) && (cap > 0 ==> |kept| <= cap)
  {
    PrefixByAgePicks(sorted, checks, cap);
  }

  lemma ChosenAreOldest(sorted: seq<Info>, sessions: seq<Session>, checks: map<string, int>, cap: nat, kept: seq<Info>)
    requires Chosen(sorted, sessions, checks, cap, kept)
    ensures forall u :: u in Urls(kept) ==> Unmerged(sessions, u)
    ensures forall u :: Unmerged(sessions, u) && u !in Urls(kept) ==>
              |kept| == cap > 0 && forall i :: 0 <= i < |kept| ==> CheckedAt(checks, kept[i].url) <= CheckedAt(checks, u)
  {
    ChosenPicks(sorted, sessions, checks, cap, kept);
    UrlsCount(kept);
    forall i | 0 <= i < |kept|
      ensures kept[i].url in Urls(kept)
    {
    }
  }

  /** The choice of one run: gather, sort by age, cap. */
  method ChooseTargets(sessions: seq<Session>, checks: map<string, int>, cap: nat) returns (kept: seq<Info>, ghost urls: set<string>)
    ensures forall u :: u in urls <==> Unmerged(sessions, u)
    ensures cap > 0 ==> Picks(urls, checks, cap, Urls(kept))
    ensures cap == 0 ==> Urls(kept) == urls
    ensures DistinctUrls(kept) && (cap > 0 ==> |kept| <= cap)
    ensures forall u :: u in Urls(kept) ==> Unmerged(sessions, u)
    ensures forall u :: Unmerged(sessions, u) && u !in Urls(kept) ==>
              |kept| == cap > 0 && forall i :: 0 <= i < |kept| ==> CheckedAt(checks, kept[i].url) <= CheckedAt(checks, u)
  {
    var targets := CollectTargets(sessions, checks);
    urls := Urls(targets);
    ghost var order;
    kept, order := UnstableSort((info: Info) => info.lastChecked, targets);
    ReorderedTargets(kept, targets, order);
    ghost var sorted := kept;
    if cap > 0 && |kept| > cap {
      kept := kept[..cap];
    }
    assert Chosen(sorted, sessions, checks, cap, kept);
    ChosenPicks(sorted, sessions, checks, cap, kept);
    ChosenAreOldest(sorted, sessions, checks, cap, kept);
  }

  // ---------------------------------------------------------------- many runs

  /** One run: what it picked, when it started, and the check times before it. */
  datatype Round = Round(checks: map<string, int>, start: int, picked: set<string>)

  /**
   Consecutive runs over the same unmerged URLs. A fetch of a URL in failing never succeeds; every
   other fetch does and stamps the URL with a time no earlier than the start of its run.
   */
  ghost predicate Rounds(urls: set<string>, failing: set<string>, cap: nat, rounds: seq<Round>) {
    && (forall i :: 0 <= i < |rounds| ==> Picks(urls, rounds[i].checks, cap, rounds[i].picked))
    && (forall i, u :: 0 <= i < |rounds| && u in urls ==> CheckedAt(rounds[i].checks, u) < rounds[i].start)
    && (forall i, j :: 0 <= i && j == i + 1 && j < |rounds| ==> Refreshes(rounds[i], rounds[j], urls, failing))
  }

  ghost predicate Refreshes(r: Round, next: Round, urls: set<string>, failing: set<string>) {
    forall u :: u in urls ==>
      if u in r.picked - failing then CheckedAt(next.checks, u) >= r.start
      else CheckedAt(next.checks, u) == CheckedAt(r.checks, u)
  }

  /** u is fetched successfully in one of the first k runs. */
  ghost predicate RefreshedWithin(rounds: seq<Round>, failing: set<string>, u: string, k: nat) {
    exists i :: 0 <= i < k && i < |rounds| && u in rounds[i].picked - failing
  }

  /** The URLs refreshed in the first k runs. */
  ghost function Served(rounds: seq<Round>, failing: set<string>, k: nat): set<string>
    requires k <= |rounds|
  {
    if k == 0 then {} else Served(rounds, failing, k - 1) + (rounds[k - 1].picked - failing)
  }

  /** While u waits, a run serves at least cap - |failing| URLs, all checked longer ago than those before. */
  lemma WaitingRun(urls: set<string>, failing: set<string>, cap: nat, r: Round, u: string, before: set<string>)
    requires Picks(urls, r.checks, cap, r.picked)
    requires u in urls && u !in failing && u !in r.picked && |failing| < cap
    requires forall v :: v in before ==> CheckedAt(r.checks, v) > CheckedAt(r.checks, u)
    ensures |before + (r.picked - failing)| >= |before| + cap - |failing|
  {
    ProperSubset(r.picked, urls, u);
    Difference(r.picked, failing);
    assert before !! (r.picked - failing);
    assert |before + (r.picked - failing)| == |before| + |r.picked - failing|;
  }

  /** A run that does not serve u makes everything it serves younger than u. */
  lemma WaitingAges(urls: set<string>, failing: set<string>, r: Round, next: Round, u: string, before: set<string>)
    requires Refreshes(r, next, urls, failing) && CheckedAt(r.checks, u) < r.start
    requires u in urls && u !in r.picked && r.picked <= urls && forall v :: v in before ==> v in urls && v !in failing
    requires forall v :: v in before ==> CheckedAt(r.checks, v) > CheckedAt(r.checks, u)
    requires forall v :: v in urls ==> CheckedAt(r.checks, v) < r.start
    ensures forall v :: v in before + (r.picked - failing) ==> CheckedAt(next.checks, v) > CheckedAt(next.checks, u)
  {
    forall v | v in before + (r.picked - failing)
      ensures CheckedAt(next.checks, v) > CheckedAt(next.checks, u)
    {
      assert v in urls;
    }
  }

  /** The first n of these rounds, one after the other. */
  ghost predicate Steady(urls: set<string>, failing: set<string>, cap: nat, rounds: seq<Round>, n: nat) {
    n <= |rounds| &&
    (n == 0 ||
     (&& Steady(urls, failing, cap, rounds, n - 1)
      && Picks(urls, rounds[n - 1].checks, cap, rounds[n - 1].picked)
      && (forall u :: u in urls ==> CheckedAt(rounds[n - 1].checks, u) < rounds[n - 1].start)
      && (n < |rounds| ==> Refreshes(rounds[n - 1], rounds[n], urls, failing))))
  }

  lemma {:induction false} RoundsAreSteady(urls: set<string>, failing: set<string>, cap: nat, rounds: seq<Round>, n: nat)
    requires Rounds(urls, failing, cap, rounds) && n <= |rounds|
    ensures Steady(urls, failing, cap, rounds, n)
  {
    if n > 0 {
      RoundsAreSteady(urls, failing, cap, rounds, n - 1);
    }
  }

  lemma {:induction false} SteadyFacts(urls: set<string>, failing: set<string>, cap: nat, rounds: seq<Round>, n: nat, i: nat)
    requires Steady(urls, failing, cap, rounds, n) && i < n
    ensures Picks(urls, rounds[i].checks, cap, rounds[i].picked)
    ensures forall u :: u in urls ==> CheckedAt(rounds[i].checks, u) < rounds[i].start
    ensures i + 1 < |rounds| ==> Refreshes(rounds[i], rounds[i + 1], urls, failing)
  {
    if i < n - 1 {
      SteadyFacts(urls, failing, cap, rounds, n - 1, i);
    }
  }

  /** u is waiting: fetchable, but not refreshed in the first k runs. */
  ghost predicate Waiting(urls: set<string>, failing: set<string>, cap: nat, rounds: seq<Round>, u: string, k: nat) {
    && Steady(urls, failing, cap, rounds, |rounds|) && k <= |rounds|
    && u in urls && u !in failing && |failing| < cap
    && !RefreshedWithin(rounds, failing, u, k)
  }

  lemma {:induction false} ServedOthers(
      urls: set<string>, failing: set<string>, cap: nat, rounds: seq<Round>, u: string, k: nat)
    requires Waiting(urls, failing, cap, rounds, u, k)
    ensures forall v :: v in Served(rounds, failing, k) ==> v in urls && v !in failing && v != u
  {
    if k > 0 {
      NotYet(rounds, failing, u, k);
      ServedOthers(urls, failing, cap, rounds, u, k - 1);
      SteadyFacts(urls, failing, cap, rounds, |rounds|, k - 1);
    }
  }

  lemma {:induction false} ServedYounger(
      urls: set<string>, failing: set<string>, cap: nat, rounds: seq<Round>, u: string, k: nat)
    requires Waiting(urls, failing, cap, rounds, u, k) && k < |rounds|
    ensures forall v :: v in Served(rounds, failing, k) ==>
                        CheckedAt(rounds[k].checks, v) > CheckedAt(rounds[k].checks, u)
  {
    if k > 0 {
      NotYet(rounds, failing, u, k);
      ServedYounger(urls, failing, cap, rounds, u, k - 1);
      ServedOthers(urls, failing, cap, rounds, u, k - 1);
      SteadyFacts(urls, failing, cap, rounds, |rounds|, k - 1);
      WaitingAges(urls, failing, rounds[k - 1], rounds[k], u, Served(rounds, failing, k - 1));
    }
  }

  /** A waiting run adds at least cap - |failing| to those served. */
  lemma ServedGrows(urls: set<string>, failing: set<string>, cap: nat, rounds: seq<Round>, u: string, k: nat)
    requires Waiting(urls, failing, cap, rounds, u, k) && k > 0
    ensures |Served(rounds, failing, k)| >= |Served(rounds, failing, k - 1)| + cap - |failing|
  {
    NotYet(rounds, failing, u, k);
    ServedYounger(urls, failing, cap, rounds, u, k - 1);
    SteadyFacts(urls, failing, cap, rounds, |rounds|, k - 1);
    WaitingRun(urls, failing, cap, rounds[k - 1], u, Served(rounds, failing, k - 1));
  }

  lemma WaitingBefore(urls: set<string>, failing: set<string>, cap: nat, rounds: seq<Round>, u: string, k: nat)
    requires Waiting(urls, failing, cap, rounds, u, k) && k > 0
    ensures Waiting(urls, failing, cap, rounds, u, k - 1)
  {
    NotYet(rounds, failing, u, k);
  }

  lemma {:induction false} WaitingEarlier(urls: set<string>, failing: set<string>, cap: nat, rounds: seq<Round>, u: string, k: nat, j: nat)
    requires Waiting(urls, failing, cap, rounds, u, k) && j <= k
    ensures Waiting(urls, failing, cap, rounds, u, j)
  {
    if j < k {
      WaitingBefore(urls, failing, cap, rounds, u, k);
      WaitingEarlier(urls, failing, cap, rounds, u, k - 1, j);
    }
  }

  ghost predicate GrowsBy(rounds: seq<Round>, failing: set<string>, more: nat, i: nat, j: nat) {
    i <= |rounds| && j <= |rounds| && |Served(rounds, failing, j)| >= |Served(rounds, failing, i)| + more
  }

  /** At least n URLs are refreshed in the first k runs. */
  ghost predicate GrownTo(rounds: seq<Round>, failing: set<string>, k: nat, n: nat) {
    k <= |rounds| && |Served(rounds, failing, k)| >= n
  }

  lemma GrownFromNothing(rounds: seq<Round>, failing: set<string>)
    ensures GrownTo(rounds, failing, 0, Times(0, 0))
  {
  }

  lemma GrownFurther(rounds: seq<Round>, failing: set<string>, k: nat, more: nat)
    requires k > 0 && GrownTo(rounds, failing, k - 1, Times(k - 1, more)) && GrowsBy(rounds, failing, more, k - 1, k)
    ensures GrownTo(rounds, failing, k, Times(k, more))
  {
  }

  lemma ServedBetween(urls: set<string>, failing: set<string>, cap: nat, rounds: seq<Round>, u: string, k: nat, more: nat, j: nat)
    requires Waiting(urls, failing, cap, rounds, u, k) && more + |failing| == cap && 0 < j <= k
    ensures GrowsBy(rounds, failing, more, j - 1, j)
  {
    WaitingEarlier(urls, failing, cap, rounds, u, k, j);
    ServedGrows(urls, failing, cap, rounds, u, j);
  }

  lemma {:induction false} ServedCount(
      urls: set<string>, failing: set<string>, cap: nat, rounds: seq<Round>, u: string, k: nat, more: nat)
    requires Waiting(urls, failing, cap, rounds, u, k) && more + |failing| == cap
    ensures GrownTo(rounds, failing, k, Times(k, more))
  {
    if k == 0 {
      GrownFromNothing(rounds, failing);
    } else {
      WaitingBefore(urls, failing, cap, rounds, u, k);
      ServedCount(urls, failing, cap, rounds, u, k - 1, more);
      ServedBetween(urls, failing, cap, rounds, u, k, more, k);
      GrownFurther(rounds, failing, k, more);
    }
  }

  lemma NotYet(rounds: seq<Round>, failing: set<string>, u: string, k: nat)
    requires 0 < k <= |rounds| && u !in failing && !RefreshedWithin(rounds, failing, u, k)
    ensures u !in rounds[k - 1].picked && !RefreshedWithin(rounds, failing, u, k - 1)
  {
    assert u in rounds[k - 1].picked - failing ==> RefreshedWithin(rounds, failing, u, k);
  }

  lemma RoundFacts(urls: set<string>, failing: set<string>, cap: nat, rounds: seq<Round>, i: nat)
    requires Rounds(urls, failing, cap, rounds) && i < |rounds|
    ensures Picks(urls, rounds[i].checks, cap, rounds[i].picked)
    ensures forall u :: u in urls ==> CheckedAt(rounds[i].checks, u) < rounds[i].start
    ensures i + 1 < |rounds| ==> Refreshes(rounds[i], rounds[i + 1], urls, failing)
  {
  }

  lemma ProperSubset(a: set<string>, b: set<string>, x: string)
    requires a <= b && x in b && x !in a
    ensures |a| < |b|
  {
    assert b == a + (b - a);
    assert x in b - a;
  }

  lemma Difference(a: set<string>, b: set<string>)
    ensures |a - b| >= |a| - |b|
  {
    assert a == (a - b) + (a * b);
    Subset(a * b, b);
  }

  lemma Subset(a: set<string>, b: set<string>)
    requires a <= b
    ensures |a| <= |b|
  {
    assert b == a + (b - a);
  }

  /** Bound on the wait: ceil(n / m) for natural numbers with m > 0. */
  function CeilDiv(n: nat, m: nat): nat
    requires m > 0
  {
    (n + m - 1) / m
  }

  /** k times m. */
  function Times(k: nat, m: nat): nat {
    if k == 0 then 0 else Times(k - 1, m) + m
  }

  lemma {:induction false} TimesIsProduct(k: nat, m: nat)
    ensures Times(k, m) == k * m
  {
    if k > 0 {
      TimesIsProduct(k - 1, m);
      assert (k - 1) * m + m == k * m;
    }
  }

  lemma CeilDivCovers(n: nat, m: nat)
    requires m > 0
    ensures Times(CeilDiv(n, m), m) >= n
  {
    var q := CeilDiv(n, m);
    TimesIsProduct(q, m);
    assert q * m + (n + m - 1) % m == n + m - 1;
  }

  /**
   Bounded waiting: with n unmerged URLs of which f can never be fetched, and a cap c > f, every
   other URL is refreshed within any ceil((n - f) / (c - f)) consecutive runs.
   */
  lemma BoundedWaiting(urls: set<string>, failing: set<string>, cap: nat, rounds: seq<Round>, u: string, k: nat)
    requires Rounds(urls, failing, cap, rounds)
    requires u in urls - failing && failing <= urls && |failing| < cap
    requires |urls| >= |failing| && k == CeilDiv(|urls| - |failing|, cap - |failing|) && k <= |rounds|
    ensures RefreshedWithin(rounds, failing, u, k)
  {
    CeilDivCovers(|urls| - |failing|, cap - |failing|);
    WaitingEnds(urls, failing, cap, rounds, u, k);
  }

  lemma WaitingEnds(urls: set<string>, failing: set<string>, cap: nat, rounds: seq<Round>, u: string, k: nat)
    requires Rounds(urls, failing, cap, rounds)
    requires u in urls - failing && failing <= urls && |failing| < cap
    requires Times(k, cap - |failing|) >= |urls| - |failing| && k <= |rounds|
    ensures RefreshedWithin(rounds, failing, u, k)
  {
    if !RefreshedWithin(rounds, failing, u, k) {
      RoundsAreSteady(urls, failing, cap, rounds, |rounds|);
      ServedCount(urls, failing, cap, rounds, u, k, cap - |failing|);
      ServedOthers(urls, failing, cap, rounds, u, k);
      ServedTooMany(urls, failing, Served(rounds, failing, k), u);
    }
  }

  lemma ServedTooMany(urls: set<string>, failing: set<string>, served: set<string>, u: string)
    requires failing <= urls && u in urls && u !in failing
    requires forall v :: v in served ==> v in urls && v !in failing && v != u
    ensures |served| < |urls| - |failing|
  {
    assert urls == (urls - failing) + failing;
    ProperSubset(served, urls - failing, u);
  }

  /** Every fetch succeeds: every URL is refreshed within any ceil(n / c) consecutive runs. */
  lemma BoundedWaitingWithoutFailures(urls: set<string>, cap: nat, rounds: seq<Round>, u: string, k: nat)
    requires Rounds(urls, {}, cap, rounds) && u in urls && cap > 0
    requires k == CeilDiv(|urls|, cap) && k <= |rounds|
    ensures RefreshedWithin(rounds, {}, u, k)
  {
    BoundedWaiting(urls, {}, cap, rounds, u, k);
  }

  // ---------------------------------------------------------------- when URLs wait forever

  /** The failing URLs were all checked longer ago than any other. */
  ghost predicate FailingFirst(checks: map<string, int>, urls: set<string>, failing: set<string>) {
    forall p, q :: p in failing && q in urls - failing ==> CheckedAt(checks, p) < CheckedAt(checks, q)
  }

  /** As many failing URLs as the cap admits, all older than the rest, take every run for themselves. */
  lemma OldFailuresFillTheRun(urls: set<string>, failing: set<string>, cap: nat, r: Round)
    requires Picks(urls, r.checks, cap, r.picked) && failing <= urls && FailingFirst(r.checks, urls, failing)
    requires |failing| >= cap
    ensures r.picked <= failing
  {
    Subset(failing, urls);
    if !(r.picked <= failing) {
      var p :| p in r.picked && p !in failing;
      assert failing <= r.picked;
      ProperSubset(failing, r.picked, p);
    }
  }

  /** Starvation: with f >= c and the failing URLs oldest, no other URL is refreshed in any number of runs. */
  lemma {:induction false} Starvation(urls: set<string>, failing: set<string>, cap: nat, rounds: seq<Round>, k: nat)
    requires Rounds(urls, failing, cap, rounds) && failing <= urls && |failing| >= cap
    requires rounds != [] && FailingFirst(rounds[0].checks, urls, failing)
    requires k <= |rounds|
    ensures Served(rounds, failing, k) == {}
    ensures k < |rounds| ==> FailingFirst(rounds[k].checks, urls, failing)
  {
    if k > 0 {
      Starvation(urls, failing, cap, rounds, k - 1);
      OldFailuresFillTheRun(urls, failing, cap, rounds[k - 1]);
      assert rounds[k - 1].picked - failing == {};
      if k < |rounds| {
        assert Refreshes(rounds[k - 1], rounds[k], urls, failing);
      }
    }
  }

  // ---------------------------------------------------------------- exactly when the wait is bounded

  /** A fetchable URL served in run i is younger ever after than every failing URL. */
  lemma {:induction false} ServedStaysYounger(
      urls: set<string>, failing: set<string>, cap: nat, rounds: seq<Round>, u: string, i: nat, j: nat)
    requires Rounds(urls, failing, cap, rounds) && failing <= urls
    requires i < j < |rounds| && u in urls && u in rounds[i].picked - failing
    ensures CheckedAt(rounds[j].checks, u) >= rounds[i].start
    ensures forall f :: f in failing ==> CheckedAt(rounds[j].checks, f) < rounds[i].start
    decreases j
  {
    RoundFacts(urls, failing, cap, rounds, i);
    if j > i + 1 {
      ServedStaysYounger(urls, failing, cap, rounds, u, i, j - 1);
      RoundFacts(urls, failing, cap, rounds, j - 1);
    }
  }

  /** With at least c URLs that can never be fetched, any other URL is refreshed at most once, in however many runs. */
  lemma RefreshedAtMostOnce(
      urls: set<string>, failing: set<string>, cap: nat, rounds: seq<Round>, u: string, i: nat, j: nat)
    requires Rounds(urls, failing, cap, rounds) && failing <= urls && |failing| >= cap
    requires i < j < |rounds| && u in rounds[i].picked - failing
    ensures u !in rounds[j].picked
  {
    RoundFacts(urls, failing, cap, rounds, i);
    RoundFacts(urls, failing, cap, rounds, j);
    ServedStaysYounger(urls, failing, cap, rounds, u, i, j);
    if u in rounds[j].picked {
      assert failing <= rounds[j].picked;
      ProperSubset(failing, rounds[j].picked, u);
    }
  }

  /** Check times that make the given URLs younger than all others. */
  lemma Stamped(urls: set<string>) returns (checks: map<string, int>)
    ensures forall u :: CheckedAt(checks, u) == if u in urls then 1 else 0
    decreases |urls|
  {
    if urls == {} {
      checks := map[];
    } else {
      var u :| u in urls;
      var others := Stamped(urls - {u});
      checks := others[u := 1];
      forall v
        ensures CheckedAt(checks, v) == if v in urls then 1 else 0
      {
        assert v != u ==> CheckedAt(checks, v) == CheckedAt(others, v);
      }
    }
  }

  lemma SubsetOfSize(s: set<string>, n: nat) returns (t: set<string>)
    requires n <= |s|
    ensures t <= s && |t| == n
    decreases |s|
  {
    if n == |s| {
      t := s;
    } else {
      var x :| x in s;
      t := SubsetOfSize(s - {x}, n);
    }
  }

  /** A run of any length in which the failing URLs, being the oldest, take every place. */
  lemma StarvingRun(urls: set<string>, failing: set<string>, cap: nat, k: nat) returns (rounds: seq<Round>)
    requires failing <= urls && |failing| >= cap
    ensures Rounds(urls, failing, cap, rounds) && |rounds| == k
    ensures forall i :: 0 <= i < k ==> FailingFirst(rounds[i].checks, urls, failing)
  {
    var checks := Stamped(urls - failing);
    var picked := SubsetOfSize(failing, cap);
    rounds := seq(k, i => Round(checks, 2, picked));
    Subset(failing, urls);
    assert Picks(urls, checks, cap, picked);
    assert picked - failing == {};
    assert Refreshes(Round(checks, 2, picked), Round(checks, 2, picked), urls, failing);
  }

  /** Every long enough sequence of runs refreshes every fetchable URL within k of them. */
  ghost predicate RefreshesAllWithin(urls: set<string>, failing: set<string>, cap: nat, k: nat) {
    forall rounds, u :: Rounds(urls, failing, cap, rounds) && k <= |rounds| && u in urls - failing ==>
      RefreshedWithin(rounds, failing, u, k)
  }

  lemma RefreshesAll(urls: set<string>, failing: set<string>, cap: nat) returns (k: nat)
    requires failing <= urls && |failing| < cap
    ensures RefreshesAllWithin(urls, failing, cap, k)
  {
    Subset(failing, urls);
    k := CeilDiv(|urls| - |failing|, cap - |failing|);
    forall rounds, u | Rounds(urls, failing, cap, rounds) && k <= |rounds| && u in urls - failing
      ensures RefreshedWithin(rounds, failing, u, k)
    {
      BoundedWaiting(urls, failing, cap, rounds, u, k);
    }
  }

  lemma {:induction false} NothingServed(rounds: seq<Round>, failing: set<string>, u: string, k: nat, n: nat)
    requires k <= n <= |rounds| && Served(rounds, failing, n) == {}
    ensures !RefreshedWithin(rounds, failing, u, k)
    decreases n
  {
    if k < n {
      NothingServed(rounds, failing, u, k, n - 1);
    } else if k > 0 {
      NothingServed(rounds, failing, u, k - 1, n - 1);
      assert rounds[k - 1].picked - failing == {};
    }
  }

  lemma StarvesSomeone(urls: set<string>, failing: set<string>, cap: nat, k: nat)
    requires failing < urls && |failing| >= cap
    ensures !RefreshesAllWithin(urls, failing, cap, k)
  {
    var rounds := StarvingRun(urls, failing, cap, k + 1);
    var u :| u in urls && u !in failing;
    Starvation(urls, failing, cap, rounds, k);
    NothingServed(rounds, failing, u, k, k);
  }

  /**
   The wait is bounded if and only if fewer URLs than the cap can never be fetched. With as many or
   more, some runs, however long, never refresh another URL at all, and none refresh one twice.
   */
  lemma BoundedWaitingExactly(urls: set<string>, failing: set<string>, cap: nat)
    requires failing < urls && cap > 0
    ensures (exists k :: RefreshesAllWithin(urls, failing, cap, k)) <==> |failing| < cap
  {
    if |failing| < cap {
      var k := RefreshesAll(urls, failing, cap);
    } else {
      forall k: nat
        ensures !RefreshesAllWithin(urls, failing, cap, k)
      {
        StarvesSomeone(urls, failing, cap, k);
      }
    }
  }
}
