/**
 sync-db writes every session's observations into the event log, which drops an observation whose
 content id it already holds. What does "latest by sequence" then say about the sources?
 */
module SyncDb {
  import opened Common
  import opened JsonLine

  // ---------------------------------------------------------------- content ids

  datatype Name = Started | Ended | PRObserved | Scanned

  const UNIT_SEPARATOR: char := 31 as char

  /** The text a content id is computed from. */
  function ContentText(name: string, agent: string, session: string, json: string): string {
    name + [UNIT_SEPARATOR] + agent + [UNIT_SEPARATOR] + session + [UNIT_SEPARATOR] + json
  }

  lemma NoneBefore(a: string, x: string)
    requires UNIT_SEPARATOR !in a
    ensures var s := a + [UNIT_SEPARATOR] + x;
            s[|a|] == UNIT_SEPARATOR && forall k :: 0 <= k < |a| ==> s[k] != UNIT_SEPARATOR
  {
    assert forall k :: 0 <= k < |a| ==> a[k] in a;
  }

  lemma NoneAfter(a: string, x: string)
    requires UNIT_SEPARATOR !in x
    ensures var s := a + [UNIT_SEPARATOR] + x;
            s[|a|] == UNIT_SEPARATOR && forall k :: |a| < k < |s| ==> s[k] != UNIT_SEPARATOR
  {
    var s := a + [UNIT_SEPARATOR] + x;
    forall k | |a| < k < |s|
      ensures s[k] != UNIT_SEPARATOR
    {
      assert s[k] == x[k - |a| - 1];
    }
  }

  lemma SameCut(a: string, b: string, x: string, y: string)
    requires |a| == |b| && a + [UNIT_SEPARATOR] + x == b + [UNIT_SEPARATOR] + y
    ensures a == b && x == y
  {
    var s, t := a + [UNIT_SEPARATOR] + x, b + [UNIT_SEPARATOR] + y;
    assert a == s[..|a|] && b == t[..|b|];
    assert x == s[|a| + 1..] && y == t[|b| + 1..];
  }

  /** Text before the first separator is determined by the whole. */
  lemma FirstPart(a: string, b: string, x: string, y: string)
    requires UNIT_SEPARATOR !in a && UNIT_SEPARATOR !in b
    requires a + [UNIT_SEPARATOR] + x == b + [UNIT_SEPARATOR] + y
    ensures a == b && x == y
  {
    NoneBefore(a, x);
    NoneBefore(b, y);
    SameCut(a, b, x, y);
  }

  /** Text after the last separator is determined by the whole. */
  lemma LastPart(a: string, b: string, x: string, y: string)
    requires UNIT_SEPARATOR !in x && UNIT_SEPARATOR !in y
    requires a + [UNIT_SEPARATOR] + x == b + [UNIT_SEPARATOR] + y
    ensures a == b && x == y
  {
    NoneAfter(a, x);
    NoneAfter(b, y);
    assert |a + [UNIT_SEPARATOR] + x| > |a| && |b + [UNIT_SEPARATOR] + y| > |b|;
    SameCut(a, b, x, y);
  }

  /**
   The text identifies event name, agent, session and content: JSON text and the names hold no
   separator, and a session id may hold any number of them.
   */
  lemma ContentTextIsInjective(n1: string, a1: string, s1: string, j1: string, n2: string, a2: string, s2: string, j2: string)
    requires UNIT_SEPARATOR !in n1 + a1 + j1 && UNIT_SEPARATOR !in n2 + a2 + j2
    requires ContentText(n1, a1, s1, j1) == ContentText(n2, a2, s2, j2)
    ensures n1 == n2 && a1 == a2 && s1 == s2 && j1 == j2
  {
    assert UNIT_SEPARATOR !in n1 && UNIT_SEPARATOR !in a1 && UNIT_SEPARATOR !in j1;
    assert UNIT_SEPARATOR !in n2 && UNIT_SEPARATOR !in a2 && UNIT_SEPARATOR !in j2;
    var h1, h2 := n1 + [UNIT_SEPARATOR] + a1 + [UNIT_SEPARATOR] + s1, n2 + [UNIT_SEPARATOR] + a2 + [UNIT_SEPARATOR] + s2;
    LastPart(h1, h2, j1, j2);
    assert h1 == n1 + [UNIT_SEPARATOR] + (a1 + [UNIT_SEPARATOR] + s1);
    assert h2 == n2 + [UNIT_SEPARATOR] + (a2 + [UNIT_SEPARATOR] + s2);
    FirstPart(n1, n2, a1 + [UNIT_SEPARATOR] + s1, a2 + [UNIT_SEPARATOR] + s2);
    FirstPart(a1, a2, s1, s2);
  }

  // ---------------------------------------------------------------- the log

  /** What an observation is about. */
  datatype Key = ObsKey(session: string, agent: string, name: Name)

  datatype Obs = Obs(key: Key, content: string)

  function NameText(name: Name): string {
    match name
    case Started => "agent.session.started"
    case Ended => "agent.session.ended"
    case PRObserved => "agent.pr.observed"
    case Scanned => "agent.transcript.scanned"
  }

  function TextOf(x: Obs): string {
    ContentText(NameText(x.key.name), x.key.agent, x.key.session, x.content)
  }

  /** What every id is computed from: the kind of event, the agent, the session and the content, with separators between. */
  lemma IdTextExactly(x: Obs)
    ensures TextOf(x) == (match x.key.name
                          case Started => "agent.session.started"
                          case Ended => "agent.session.ended"
                          case PRObserved => "agent.pr.observed"
                          case Scanned => "agent.transcript.scanned")
                         + "\U{1F}" + x.key.agent + "\U{1F}" + x.key.session + "\U{1F}" + x.content
  {
  }

  /** Different observations of the list have different ids. */
  ghost predicate NoCollision(xs: seq<Obs>, id: Obs -> string) {
    forall x, y :: x in xs && y in xs && id(x) == id(y) ==> x == y
  }

  lemma NameTextsDiffer(m: Name, n: Name)
    ensures NameText(m) == NameText(n) ==> m == n
    ensures UNIT_SEPARATOR !in NameText(m)
  {
  }

  /** Ids collide only where the hash does: the text itself tells observations apart. */
  lemma CollisionsAreHashCollisions(xs: seq<Obs>, hash: string -> string)
    requires forall x :: x in xs ==> UNIT_SEPARATOR !in x.key.agent + x.content
    requires forall x, y :: x in xs && y in xs && hash(TextOf(x)) == hash(TextOf(y)) ==> TextOf(x) == TextOf(y)
    ensures NoCollision(xs, (x: Obs) => hash(TextOf(x)))
  {
    forall x, y | x in xs && y in xs && hash(TextOf(x)) == hash(TextOf(y))
      ensures x == y
    {
      SameText(x, y);
    }
  }

  lemma SameText(x: Obs, y: Obs)
    requires UNIT_SEPARATOR !in x.key.agent + x.content && UNIT_SEPARATOR !in y.key.agent + y.content
    requires TextOf(x) == TextOf(y)
    ensures x == y
  {
    NameTextsDiffer(x.key.name, y.key.name);
    NameTextsDiffer(y.key.name, x.key.name);
    ContentTextIsInjective(NameText(x.key.name), x.key.agent, x.key.session, x.content,
                           NameText(y.key.name), y.key.agent, y.key.session, y.content);
  }

  /** INSERT OR IGNORE by content id. */
  function Write(log: seq<Obs>, x: Obs, id: Obs -> string): seq<Obs> {
    if HasId(log, x, id) then log else log + [x]
  }

  function WriteAll(log: seq<Obs>, xs: seq<Obs>, id: Obs -> string): seq<Obs> {
    if xs == [] then log else Write(WriteAll(log, xs[..|xs| - 1], id), xs[|xs| - 1], id)
  }

  /** With no collisions the log is the list of first occurrences. */
  function Firsts<T(==)>(xs: seq<T>): seq<T> {
    if xs == [] then []
    else
      var front, last := xs[..|xs| - 1], xs[|xs| - 1];
      Firsts(front) + (if last in front then [] else [last])
  }

  lemma {:induction false} FirstsMembers<T>(xs: seq<T>, x: T)
    ensures x in Firsts(xs) <==> x in xs
  {
    if xs != [] {
      FirstsMembers(xs[..|xs| - 1], x);
      assert xs == xs[..|xs| - 1] + [xs[|xs| - 1]];
    }
  }

  lemma {:induction false} LogIsFirsts(xs: seq<Obs>, id: Obs -> string)
    requires NoCollision(xs, id)
    ensures WriteAll([], xs, id) == Firsts(xs)
  {
    if xs != [] {
      var front, last := xs[..|xs| - 1], xs[|xs| - 1];
      assert last in xs && forall x :: x in front ==> x in xs;
      LogIsFirsts(front, id);
      FirstsMembers(front, last);
      var log := Firsts(front);
      if last in log {
        var i :| 0 <= i < |log| && log[i] == last;
        assert id(log[i]) == id(last);
      } else {
        forall i | 0 <= i < |log|
          ensures id(log[i]) != id(last)
        {
          FirstsMembers(front, log[i]);
        }
      }
    }
  }

  // ---------------------------------------------------------------- running again

  predicate HasId(log: seq<Obs>, x: Obs, id: Obs -> string) {
    exists i :: 0 <= i < |log| && id(log[i]) == id(x)
  }

  lemma {:induction false} NothingNew(log: seq<Obs>, xs: seq<Obs>, id: Obs -> string)
    requires forall x :: x in xs ==> HasId(log, x, id)
    ensures WriteAll(log, xs, id) == log
  {
    if xs != [] {
      NothingNew(log, xs[..|xs| - 1], id);
      assert xs[|xs| - 1] in xs;
    }
  }

  lemma WriteKeepsIds(log: seq<Obs>, x: Obs, id: Obs -> string)
    ensures HasId(Write(log, x, id), x, id)
    ensures forall y :: HasId(log, y, id) ==> HasId(Write(log, x, id), y, id)
  {
    var next := Write(log, x, id);
    if !HasId(log, x, id) {
      assert next[|log|] == x;
    }
    forall y | HasId(log, y, id)
      ensures HasId(next, y, id)
    {
      var i :| 0 <= i < |log| && id(log[i]) == id(y);
      assert next[i] == log[i];
    }
  }

  lemma {:induction false} WriteAllKeepsIds(log: seq<Obs>, xs: seq<Obs>, id: Obs -> string)
    ensures forall y :: y in xs || HasId(log, y, id) ==> HasId(WriteAll(log, xs, id), y, id)
  {
    if xs != [] {
      var front, last := xs[..|xs| - 1], xs[|xs| - 1];
      WriteAllKeepsIds(log, front, id);
      WriteKeepsIds(WriteAll(log, front, id), last, id);
      assert xs == front + [last];
    }
  }

  /** Running sync again over the same observations, in any order and at any later time, appends nothing. */
  lemma RerunAppendsNothing(log: seq<Obs>, xs: seq<Obs>, later: seq<Obs>, again: seq<Obs>, id: Obs -> string)
    requires forall x :: x in again ==> x in xs
    ensures var now := WriteAll(WriteAll(log, xs, id), later, id);
            WriteAll(now, again, id) == now
  {
    WriteAllKeepsIds(log, xs, id);
    WriteAllKeepsIds(WriteAll(log, xs, id), later, id);
    NothingNew(WriteAll(WriteAll(log, xs, id), later, id), again, id);
  }

  // ---------------------------------------------------------------- latest by sequence

  /** The contents written for a key, in order. */
  function ContentsOf(xs: seq<Obs>, k: Key): seq<string> {
    if xs == [] then []
    else
      var last := xs[|xs| - 1];
      ContentsOf(xs[..|xs| - 1], k) + (if last.key == k then [last.content] else [])
  }

  lemma {:induction false} ContentsMembers(xs: seq<Obs>, k: Key, content: string)
    ensures content in ContentsOf(xs, k) <==> Obs(k, content) in xs
  {
    if xs != [] {
      ContentsMembers(xs[..|xs| - 1], k, content);
      assert xs == xs[..|xs| - 1] + [xs[|xs| - 1]];
    }
  }

  lemma {:induction false} ContentsAppend(xs: seq<Obs>, ys: seq<Obs>, k: Key)
    ensures ContentsOf(xs + ys, k) == ContentsOf(xs, k) + ContentsOf(ys, k)
  {
    if ys == [] {
      assert xs + ys == xs;
    } else {
      assert (xs + ys)[..|xs + ys| - 1] == xs + ys[..|ys| - 1];
      ContentsAppend(xs, ys[..|ys| - 1], k);
    }
  }

  /** Restricting to a key and dropping repetitions can be done in either order. */
  lemma {:induction false} FirstsOfKey(xs: seq<Obs>, k: Key)
    ensures ContentsOf(Firsts(xs), k) == Firsts(ContentsOf(xs, k))
  {
    if xs != [] {
      var front, last := xs[..|xs| - 1], xs[|xs| - 1];
      FirstsOfKey(front, k);
      ContentsMembers(front, k, last.content);
      assert last == Obs(last.key, last.content);
      if last in front {
        assert Firsts(xs) == Firsts(front);
      } else {
        ContentsAppend(Firsts(front), [last], k);
        assert [last][..0] == [];
        assert ContentsOf([last], k) == if last.key == k then [last.content] else [];
      }
      var cs := ContentsOf(front, k);
      assert (cs + [last.content])[..|cs|] == cs;
      assert ContentsOf(xs, k) == if last.key == k then cs + [last.content] else cs;
    }
  }

  /** The view's answer: the content with the largest sequence number for the key. */
  function Latest(log: seq<Obs>, k: Key): Option<string> {
    var cs := ContentsOf(log, k);
    if cs == [] then None else Some(cs[|cs| - 1])
  }

  /** A content at a position that has not occurred before it. */
  predicate New<T(==)>(cs: seq<T>, p: nat)
    requires p < |cs|
  {
    cs[p] !in cs[..p]
  }

  /** Since the last content first appeared, every content was one seen before. */
  ghost predicate NothingNewSince<T>(cs: seq<T>) {
    exists p :: 0 <= p < |cs| && cs[p] == cs[|cs| - 1] && New(cs, p) && forall j :: p < j < |cs| ==> !New(cs, j)
  }

  /** The position of the last first occurrence. */
  lemma {:induction false} NewestPosition<T>(cs: seq<T>) returns (q: nat)
    requires cs != []
    ensures q < |cs| && New(cs, q) && forall j :: q < j < |cs| ==> !New(cs, j)
    ensures Firsts(cs) != [] && Firsts(cs)[|Firsts(cs)| - 1] == cs[q]
  {
    var front, n := cs[..|cs| - 1], |cs| - 1;
    if New(cs, n) {
      q := n;
    } else {
      assert front != [];
      q := NewestPosition(front);
      assert forall j :: 0 <= j < n ==> front[..j] == cs[..j];
      assert forall j :: 0 <= j < n ==> (New(front, j) <==> New(cs, j));
    }
  }

  lemma LastOfFirsts<T>(cs: seq<T>)
    requires cs != []
    ensures Firsts(cs) != []
    ensures Firsts(cs)[|Firsts(cs)| - 1] == cs[|cs| - 1] <==> NothingNewSince(cs)
  {
    var q := NewestPosition(cs);
    if p :| 0 <= p < |cs| && cs[p] == cs[|cs| - 1] && New(cs, p) && forall j :: p < j < |cs| ==> !New(cs, j) {
      assert p == q;
    }
  }

  /**
   For every history of observations, the latest row of a key shows the content written last
   exactly when no other content has appeared for the first time since that one did.
   */
  lemma LatestIsLastExactly(xs: seq<Obs>, k: Key, id: Obs -> string)
    requires NoCollision(xs, id) && ContentsOf(xs, k) != []
    ensures var cs := ContentsOf(xs, k);
            Latest(WriteAll([], xs, id), k) == Some(cs[|cs| - 1]) <==> NothingNewSince(cs)
  {
    LogIsFirsts(xs, id);
    FirstsOfKey(xs, k);
    LastOfFirsts(ContentsOf(xs, k));
  }

  /** A content that was left is never written again. */
  ghost predicate NeverReturns<T>(cs: seq<T>) {
    forall i, j, m :: 0 <= i <= m <= j < |cs| && cs[i] == cs[j] ==> cs[m] == cs[i]
  }

  lemma {:induction false} FirstPosition<T>(cs: seq<T>, n: nat) returns (p: nat)
    requires n < |cs|
    ensures p <= n && cs[p] == cs[n] && New(cs, p)
    decreases n
  {
    if New(cs, n) {
      p := n;
    } else {
      var i :| 0 <= i < n && cs[..n][i] == cs[n];
      p := FirstPosition(cs, i);
    }
  }

  /** Sources whose contents never return are always shown as they were written last. */
  lemma NeverReturningIsShown(xs: seq<Obs>, k: Key, id: Obs -> string)
    requires NoCollision(xs, id) && ContentsOf(xs, k) != [] && NeverReturns(ContentsOf(xs, k))
    ensures Latest(WriteAll([], xs, id), k) == Some(ContentsOf(xs, k)[|ContentsOf(xs, k)| - 1])
  {
    var cs := ContentsOf(xs, k);
    var p := FirstPosition(cs, |cs| - 1);
    forall j | p < j < |cs|
      ensures !New(cs, j)
    {
      assert cs[j] == cs[p];
      assert cs[..j][p] == cs[j];
    }
    LatestIsLastExactly(xs, k, id);
  }

  /** A content that comes back after another one is not shown: its old row is not written again. */
  lemma ReturningIsHidden(k: Key, a: string, b: string, id: Obs -> string)
    requires id(Obs(k, a)) != id(Obs(k, b))
    ensures Latest(WriteAll([], [Obs(k, a), Obs(k, b), Obs(k, a)], id), k) == Some(b)
  {
    var xs := [Obs(k, a), Obs(k, b), Obs(k, a)];
    assert xs[..2] == [Obs(k, a), Obs(k, b)];
    assert xs[..2][..1] == [Obs(k, a)];
    assert xs[..2][..1][..0] == [];
    LogIsFirsts(xs, id);
    assert Firsts([Obs(k, a)]) == [Obs(k, a)];
    assert Firsts(xs[..2]) == [Obs(k, a), Obs(k, b)];
    assert Firsts(xs) == xs[..2];
    assert ContentsOf([Obs(k, a)], k) == [a];
    assert ContentsOf(xs[..2], k) == [a, b];
  }

  // ---------------------------------------------------------------- the order of sessions within a run

  /** What one session contributes to a run. */
  datatype Rendered = Rendered(
    session: string, agent: string, started: string, ended: Option<string>, prObserved: string, scanned: string)

  function Block(r: Rendered): seq<Obs> {
    [Obs(ObsKey(r.session, r.agent, Started), r.started)]
    + (match r.ended case None => [] case Some(c) => [Obs(ObsKey(r.session, r.agent, Ended), c)])
    + [Obs(ObsKey(r.session, r.agent, PRObserved), r.prObserved), Obs(ObsKey(r.session, r.agent, Scanned), r.scanned)]
  }

  function RunOf(sessions: seq<Rendered>): seq<Obs> {
    if sessions == [] then [] else RunOf(sessions[..|sessions| - 1]) + Block(sessions[|sessions| - 1])
  }

  ghost predicate DistinctSessions(sessions: seq<Rendered>) {
    forall i, j :: 0 <= i < j < |sessions| ==> sessions[i].session != sessions[j].session || sessions[i].agent != sessions[j].agent
  }

  predicate Owns(r: Rendered, k: Key) {
    r.session == k.session && r.agent == k.agent
  }

  lemma {:induction false} OtherKeys(xs: seq<Obs>, k: Key)
    requires forall x :: x in xs ==> x.key != k
    ensures ContentsOf(xs, k) == []
  {
    if xs != [] {
      OtherKeys(xs[..|xs| - 1], k);
      assert xs[|xs| - 1] in xs;
    }
  }

  lemma BlockKeys(r: Rendered, k: Key)
    requires !Owns(r, k)
    ensures ContentsOf(Block(r), k) == []
  {
    OtherKeys(Block(r), k);
  }

  /** A run's contents for a key are those of the one session that owns it. */
  lemma {:induction false} RunContents(sessions: seq<Rendered>, k: Key)
    requires DistinctSessions(sessions)
    ensures forall i :: 0 <= i < |sessions| && Owns(sessions[i], k) ==>
              ContentsOf(RunOf(sessions), k) == ContentsOf(Block(sessions[i]), k)
    ensures (forall i :: 0 <= i < |sessions| ==> !Owns(sessions[i], k)) ==> ContentsOf(RunOf(sessions), k) == []
  {
    if sessions != [] {
      var front, last := sessions[..|sessions| - 1], sessions[|sessions| - 1];
      RunContents(front, k);
      ContentsAppend(RunOf(front), Block(last), k);
      if Owns(last, k) {
        assert forall i :: 0 <= i < |front| ==> !Owns(sessions[i], k);
        assert forall i :: 0 <= i < |front| ==> front[i] == sessions[i];
      } else {
        BlockKeys(last, k);
        assert forall i :: 0 <= i < |front| ==> front[i] == sessions[i];
      }
    }
  }

  /** A run writes each session's contents under its own keys: what has ended only if it has. */
  lemma {:induction false} RunWrites(sessions: seq<Rendered>, i: nat)
    requires DistinctSessions(sessions) && i < |sessions|
    ensures var r, xs := sessions[i], RunOf(sessions);
            && ContentsOf(xs, ObsKey(r.session, r.agent, Started)) == [r.started]
            && ContentsOf(xs, ObsKey(r.session, r.agent, Ended)) == (match r.ended case None => [] case Some(c) => [c])
            && ContentsOf(xs, ObsKey(r.session, r.agent, PRObserved)) == [r.prObserved]
            && ContentsOf(xs, ObsKey(r.session, r.agent, Scanned)) == [r.scanned]
  {
    var r := sessions[i];
    forall name: Name
      ensures ContentsOf(RunOf(sessions), ObsKey(r.session, r.agent, name)) == ContentsOf(Block(r), ObsKey(r.session, r.agent, name))
    {
      RunContents(sessions, ObsKey(r.session, r.agent, name));
    }
    BlockContents(r, Started);
    BlockContents(r, Ended);
    BlockContents(r, PRObserved);
    BlockContents(r, Scanned);
  }

  lemma {:induction false} OneContent(x: Obs, k: Key)
    ensures ContentsOf([x], k) == if x.key == k then [x.content] else []
  {
    assert [x][..0] == [];
  }

  lemma {:induction false} BlockContents(r: Rendered, name: Name)
    ensures ContentsOf(Block(r), ObsKey(r.session, r.agent, name)) ==
            match name
            case Started => [r.started]
            case Ended => (match r.ended case None => [] case Some(c) => [c])
            case PRObserved => [r.prObserved]
            case Scanned => [r.scanned]
  {
    var k := ObsKey(r.session, r.agent, name);
    var a, c, d := Obs(ObsKey(r.session, r.agent, Started), r.started), Obs(ObsKey(r.session, r.agent, PRObserved), r.prObserved),
                   Obs(ObsKey(r.session, r.agent, Scanned), r.scanned);
    var b := match r.ended case None => [] case Some(x) => [Obs(ObsKey(r.session, r.agent, Ended), x)];
    assert Block(r) == [a] + b + [c] + [d];
    ContentsAppend([a] + b + [c], [d], k);
    ContentsAppend([a] + b, [c], k);
    ContentsAppend([a], b, k);
    OneContent(a, k);
    if r.ended.Some? { OneContent(b[0], k); }
    OneContent(c, k);
    OneContent(d, k);
  }

  lemma RunOrder(a: seq<Rendered>, b: seq<Rendered>, order: seq<nat>, k: Key)
    requires DistinctSessions(a) && Reordered(b, a, order)
    ensures DistinctSessions(b)
    ensures ContentsOf(RunOf(a), k) == ContentsOf(RunOf(b), k)
  {
    forall i, j | 0 <= i < j < |b|
      ensures b[i].session != b[j].session || b[i].agent != b[j].agent
    {
      assert order[i] != order[j];
      assert order[i] < order[j] || order[j] < order[i];
    }
    RunContents(a, k);
    RunContents(b, k);
    if i :| 0 <= i < |a| && Owns(a[i], k) {
      assert i in order;
      var j :| 0 <= j < |order| && order[j] == i;
      assert b[j] == a[i];
    } else {
      assert forall j :: 0 <= j < |b| ==> b[j] == a[order[j]];
    }
  }

  /** The same runs, each visiting its sessions in some other order. */
  ghost predicate SameRuns(r1: seq<seq<Rendered>>, r2: seq<seq<Rendered>>) {
    && |r1| == |r2|
    && forall i :: 0 <= i < |r1| ==> DistinctSessions(r1[i]) && exists order :: Reordered(r2[i], r1[i], order)
  }

  function History(runs: seq<seq<Rendered>>): seq<Obs> {
    if runs == [] then [] else History(runs[..|runs| - 1]) + RunOf(runs[|runs| - 1])
  }

  lemma {:induction false} SameContents(r1: seq<seq<Rendered>>, r2: seq<seq<Rendered>>, k: Key)
    requires SameRuns(r1, r2)
    ensures ContentsOf(History(r1), k) == ContentsOf(History(r2), k)
  {
    if r1 != [] {
      var n := |r1| - 1;
      assert SameRuns(r1[..n], r2[..n]);
      SameContents(r1[..n], r2[..n], k);
      ContentsAppend(History(r1[..n]), RunOf(r1[n]), k);
      ContentsAppend(History(r2[..n]), RunOf(r2[n]), k);
      var order :| Reordered(r2[n], r1[n], order);
      RunOrder(r1[n], r2[n], order, k);
    }
  }

  /** The latest content of every key does not depend on the map order in which runs write their sessions. */
  lemma LatestIgnoresSessionOrder(r1: seq<seq<Rendered>>, r2: seq<seq<Rendered>>, k: Key, id: Obs -> string)
    requires NoCollision(History(r1), id) && NoCollision(History(r2), id) && SameRuns(r1, r2)
    ensures Latest(WriteAll([], History(r1), id), k) == Latest(WriteAll([], History(r2), id), k)
  {
    LogIsFirsts(History(r1), id);
    LogIsFirsts(History(r2), id);
    FirstsOfKey(History(r1), k);
    FirstsOfKey(History(r2), k);
    SameContents(r1, r2, k);
  }

  // ---------------------------------------------------------------- one row per session

  /** The last entry of a session. */
  function LastEntry(sessions: seq<Session>, sid: string): Option<Session> {
    if sessions == [] then None
    else if sessions[|sessions| - 1].Str(SessionID) == sid then Some(sessions[|sessions| - 1])
    else LastEntry(sessions[..|sessions| - 1], sid)
  }

  /** s is the entry of the session that nothing of that session follows. */
  ghost predicate LastOfSession(sessions: seq<Session>, sid: string, s: Session) {
    exists i :: 0 <= i < |sessions| && sessions[i] == s && s.Str(SessionID) == sid &&
                forall j :: i < j < |sessions| ==> sessions[j].Str(SessionID) != sid
  }

  lemma LastOfFront(front: seq<Session>, last: Session, sid: string, s: Session)
    requires LastOfSession(front, sid, s) && last.Str(SessionID) != sid
    ensures LastOfSession(front + [last], sid, s)
  {
    var i :| 0 <= i < |front| && front[i] == s && s.Str(SessionID) == sid &&
             forall j :: i < j < |front| ==> front[j].Str(SessionID) != sid;
    assert (front + [last])[i] == s;
  }

  lemma LastIsLast(front: seq<Session>, last: Session, sid: string)
    requires last.Str(SessionID) == sid
    ensures LastOfSession(front + [last], sid, last)
  {
    assert (front + [last])[|front|] == last;
  }

  lemma {:induction false} LastEntryFound(sessions: seq<Session>, sid: string)
    requires LastEntry(sessions, sid).Some?
    ensures LastOfSession(sessions, sid, LastEntry(sessions, sid).value)
  {
    var front, last := sessions[..|sessions| - 1], sessions[|sessions| - 1];
    assert sessions == front + [last];
    if last.Str(SessionID) == sid {
      LastIsLast(front, last, sid);
    } else {
      LastEntryFound(front, sid);
      LastOfFront(front, last, sid, LastEntry(front, sid).value);
    }
  }

  lemma {:induction false} NoEntry(sessions: seq<Session>, sid: string, i: nat)
    requires LastEntry(sessions, sid).None? && i < |sessions|
    ensures sessions[i].Str(SessionID) != sid
  {
    if i < |sessions| - 1 {
      NoEntry(sessions[..|sessions| - 1], sid, i);
    }
  }

  lemma LastEntryIsLast(sessions: seq<Session>, sid: string)
    ensures LastEntry(sessions, sid).Some? <==> exists i :: 0 <= i < |sessions| && sessions[i].Str(SessionID) == sid
    ensures LastEntry(sessions, sid).Some? ==> LastOfSession(sessions, sid, LastEntry(sessions, sid).value)
  {
    if LastEntry(sessions, sid).Some? {
      LastEntryFound(sessions, sid);
    } else {
      forall i | 0 <= i < |sessions|
        ensures sessions[i].Str(SessionID) != sid
      {
        NoEntry(sessions, sid, i);
      }
    }
  }

  /** Entries are merged by session id; the last one wins, and entries without an id are skipped. */
  method Deduplicate(sessions: seq<Session>) returns (m: map<string, Session>)
    ensures forall sid :: sid in m <==> sid != "" && exists i :: 0 <= i < |sessions| && sessions[i].Str(SessionID) == sid
    ensures forall sid :: sid in m ==> LastOfSession(sessions, sid, m[sid])
  {
    m := map[];
    for i := 0 to |sessions|
      invariant forall sid :: sid in m <==> sid != "" && LastEntry(sessions[..i], sid).Some?
      invariant forall sid :: sid in m ==> LastEntry(sessions[..i], sid) == Some(m[sid])
    {
      assert sessions[..i + 1][..i] == sessions[..i];
      var s := sessions[i];
      if s.Str(SessionID) == "" {
        continue;
      }
      m := m[s.Str(SessionID) := s];
    }
    assert sessions[..|sessions|] == sessions;
    forall sid
      ensures LastEntry(sessions, sid).Some? <==> exists i :: 0 <= i < |sessions| && sessions[i].Str(SessionID) == sid
      ensures LastEntry(sessions, sid).Some? ==> LastOfSession(sessions, sid, LastEntry(sessions, sid).value)
    {
      LastEntryIsLast(sessions, sid);
    }
  }

  /** The PR URL a session is stored under: its last URL, except the dummy one. */
  function StoredURL(s: Session, dummy: string): string {
    var urls := s.Strs(PRURLs);
    if urls == [] || urls[|urls| - 1] == dummy then "" else urls[|urls| - 1]
  }

  /** However many URLs come before it, the last one counts, and the dummy stands for none. */
  lemma StoredURLExactly(s: Session, dummy: string, before: seq<string>, last: string)
    ensures s.Strs(PRURLs) == before + [last] ==> StoredURL(s, dummy) == if last == dummy then "" else last
    ensures s.Strs(PRURLs) == [] ==> StoredURL(s, dummy) == ""
  {
  }
}
