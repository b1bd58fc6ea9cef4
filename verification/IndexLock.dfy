/**
 The locked read-modify-write of the session index as a step machine: any number of processes
 that lock, read, write a temporary file and rename it, or die at any moment, and any number
 of readers that take no lock. What a change does to the lines is left open.
 */
module IndexLock {
  import opened Common

  /** What the callback of withLockedIndex returns: the next lines and whether they changed, or an error. */
  datatype Result<L> = Next(lines: seq<L>, changed: bool) | Failed

  /** The callback for each kind of change C, as any function of the lines. */
  type Callback<!L, !C> = (seq<L>, C) -> Result<L>

  /** What a process inside withLockedIndex is doing. */
  datatype Proc<L, C> =
    | Idle
    | Locked(change: C)
    | Reading(change: C, source: Option<nat>, seen: seq<L>)
    | Writing(change: C, next: seq<L>, temp: nat)
    | Renamed

  /** A lock-free ReadAll; since is the number of commits at the time it opened the file. */
  datatype Reader<L> = Reader(source: nat, seen: seq<L>, since: nat)

  /** files are the files ever created, by number; current is the one the index path names. */
  datatype State<L, C> = State(
    init: seq<L>,
    files: seq<seq<L>>,
    current: Option<nat>,
    holder: Option<nat>,
    procs: map<nat, Proc<L, C>>,
    readers: map<nat, Reader<L>>,
    commits: seq<C>)
  {
    function At(p: nat): Proc<L, C> {
      if p in procs then procs[p] else Idle
    }
  }

  datatype Step<C> =
    | Acquire(p: nat, change: C)
    | Busy(p: nat)
    | Open(p: nat)
    | ReadLine(p: nat)
    | CreateTemp(p: nat)
    | WriteLine(p: nat)
    | Rename(p: nat)
    | Release(p: nat)
    | OpenReader(r: nat)
    | ReaderLine(r: nat)
    | CloseReader(r: nat)

  /** The lines a reader of the path would find. */
  function Contents<L, C>(s: State<L, C>): seq<L>
    requires s.current.Some? ==> s.current.value < |s.files|
  {
    match s.current
    case None => []
    case Some(f) => s.files[f]
  }

  /** Everything of the file the process opened has been read. */
  ghost predicate ReadAllOf<L, C>(s: State<L, C>, source: Option<nat>, seen: seq<L>) {
    match source
    case None => seen == []
    case Some(f) => f < |s.files| && seen == s.files[f]
  }

  ghost predicate CanReadMore<L, C>(s: State<L, C>, source: Option<nat>, seen: seq<L>) {
    source.Some? && source.value < |s.files| && |seen| < |s.files[source.value]|
  }

  /**
   One step. Release is the deferred unlock, after success or any error, and also what the
   kernel does when the process dies; the lock guards nothing else.
   */
  ghost predicate Takes<L, C>(apply: Callback<L, C>, s: State<L, C>, t: State<L, C>, step: Step<C>) {
    match step
    case Acquire(p, change) =>
      && s.holder.None? && s.At(p).Idle?
      && t == s.(holder := Some(p), procs := s.procs[p := Locked(change)])
    case Busy(p) =>
      s.holder.Some? && s.At(p).Idle? && t == s
    case Open(p) =>
      && s.At(p).Locked?
      && t == s.(procs := s.procs[p := Reading(s.At(p).change, s.current, [])])
    case ReadLine(p) =>
      && s.At(p).Reading?
      && var at := s.At(p);
      && CanReadMore(s, at.source, at.seen)
      && t == s.(procs := s.procs[p := at.(seen := at.seen + [s.files[at.source.value][|at.seen|]])])
    case CreateTemp(p) =>
      && s.At(p).Reading?
      && var at := s.At(p);
      && ReadAllOf(s, at.source, at.seen)
      && var result := apply(at.seen, at.change);
      && result.Next? && result.changed
      && t == s.(files := s.files + [[]], procs := s.procs[p := Writing(at.change, result.lines, |s.files|)])
    case WriteLine(p) =>
      && s.At(p).Writing?
      && var at := s.At(p);
      && at.temp < |s.files| && |s.files[at.temp]| < |at.next|
      && t == s.(files := s.files[at.temp := s.files[at.temp] + [at.next[|s.files[at.temp]|]]])
    case Rename(p) =>
      && s.At(p).Writing?
      && var at := s.At(p);
      && at.temp < |s.files| && |s.files[at.temp]| == |at.next|
      && t == s.(current := Some(at.temp), procs := s.procs[p := Renamed], commits := s.commits + [at.change])
    case Release(p) =>
      && !s.At(p).Idle?
      && t == s.(holder := if s.holder == Some(p) then None else s.holder, procs := s.procs[p := Idle])
    case OpenReader(r) =>
      && s.current.Some?
      && t == s.(readers := s.readers[r := Reader(s.current.value, [], |s.commits|)])
    case ReaderLine(r) =>
      && r in s.readers
      && var at := s.readers[r];
      && at.source < |s.files| && |at.seen| < |s.files[at.source]|
      && t == s.(readers := s.readers[r := at.(seen := at.seen + [s.files[at.source][|at.seen|]])])
    case CloseReader(r) =>
      r in s.readers && t == s.(readers := s.readers - {r})
  }

  /** No process is at work; the index holds init, or does not exist yet. */
  ghost predicate Init<L, C>(s: State<L, C>) {
    && s.holder.None? && s.procs == map[] && s.readers == map[] && s.commits == []
    && (s.current.Some? ==> s.current.value < |s.files| && s.files[s.current.value] == s.init)
    && (s.current.None? ==> s.init == [])
  }

  ghost predicate Follows<L, C(!new)>(apply: Callback<L, C>, s: State<L, C>, t: State<L, C>) {
    exists step :: Takes(apply, s, t, step)
  }

  /** A run of the machine. */
  ghost predicate Run<L, C(!new)>(apply: Callback<L, C>, states: seq<State<L, C>>) {
    && states != [] && Init(states[0])
    && forall i, j :: 0 <= i && j == i + 1 && j < |states| ==> Follows(apply, states[i], states[j])
  }

  /** The committed changes applied in commit order. */
  ghost function Replay<L, C>(apply: Callback<L, C>, init: seq<L>, changes: seq<C>): seq<L> {
    if changes == [] then init
    else
      var before := Replay(apply, init, changes[..|changes| - 1]);
      match apply(before, changes[|changes| - 1])
      case Next(lines, _) => lines
      case Failed => before
  }

  // ---------------------------------------------------------------- the invariant

  ghost predicate FileIs<L, C>(s: State<L, C>, f: nat, lines: seq<L>) {
    f < |s.files| && s.files[f] == lines
  }

  /** Only the lock holder is at work, and what it has read or written so far is right. */
  ghost predicate ProcOk<L, C>(apply: Callback<L, C>, s: State<L, C>, p: nat) {
    match s.At(p)
    case Idle => true
    case Locked(_) => s.holder == Some(p)
    case Reading(_, source, seen) =>
      && s.holder == Some(p)
      && source == s.current
      && seen <= Replay(apply, s.init, s.commits)
    case Writing(change, next, temp) =>
      && s.holder == Some(p)
      && s.current != Some(temp) && temp < |s.files| && s.files[temp] <= next
      && apply(Replay(apply, s.init, s.commits), change) == Next(next, true)
      && (forall r :: r in s.readers ==> s.readers[r].source != temp)
    case Renamed => s.holder == Some(p)
  }

  ghost predicate ReaderOk<L, C>(apply: Callback<L, C>, s: State<L, C>, r: nat)
    requires r in s.readers
  {
    var at := s.readers[r];
    && at.since <= |s.commits|
    && FileIs(s, at.source, Replay(apply, s.init, s.commits[..at.since]))
    && at.seen <= s.files[at.source]
  }

  ghost predicate CurrentOk<L, C>(apply: Callback<L, C>, s: State<L, C>) {
    match s.current
    case Some(f) => FileIs(s, f, Replay(apply, s.init, s.commits))
    case None => s.init == [] && s.commits == []
  }

  ghost predicate Inv<L, C>(apply: Callback<L, C>, s: State<L, C>) {
    && CurrentOk(apply, s)
    && (forall p :: ProcOk(apply, s, p))
    && (forall r :: r in s.readers ==> ReaderOk(apply, s, r))
  }

  // ---------------------------------------------------------------- every step keeps the invariant

  lemma InitInv<L, C>(apply: Callback<L, C>, s: State<L, C>)
    requires Init(s)
    ensures Inv(apply, s)
  {
  }

  lemma SoleWorker<L, C>(apply: Callback<L, C>, s: State<L, C>, p: nat, q: nat)
    requires Inv(apply, s) && p != q && !s.At(p).Idle?
    ensures s.At(q).Idle? && s.holder == Some(p)
  {
    assert ProcOk(apply, s, p) && ProcOk(apply, s, q);
  }

  /** A step of a single worker that leaves files, readers and commits alone. */
  lemma WorkerInv<L, C>(apply: Callback<L, C>, s: State<L, C>, t: State<L, C>, p: nat)
    requires Inv(apply, s) && t == s.(holder := t.holder, procs := s.procs[p := t.At(p)])
    requires ProcOk(apply, t, p) && forall q :: q != p ==> s.At(q).Idle?
    ensures Inv(apply, t)
  {
    assert forall r :: r in t.readers ==> ReaderOk(apply, s, r);
    forall q ensures ProcOk(apply, t, q) {
      assert q != p ==> t.At(q) == s.At(q);
    }
  }

  /** A step of readers alone. */
  lemma ReadersInv<L, C>(apply: Callback<L, C>, s: State<L, C>, t: State<L, C>)
    requires Inv(apply, s) && t == s.(readers := t.readers)
    requires forall r :: r in t.readers ==> ReaderOk(apply, t, r)
    requires forall r :: r in t.readers ==> Some(t.readers[r].source) == s.current ||
                                            exists x :: x in s.readers && s.readers[x].source == t.readers[r].source
    ensures Inv(apply, t)
  {
    forall q ensures ProcOk(apply, t, q) {
      assert ProcOk(apply, s, q);
    }
  }

  lemma AllIdle<L, C>(apply: Callback<L, C>, s: State<L, C>)
    requires Inv(apply, s) && s.holder.None?
    ensures forall q :: s.At(q).Idle?
  {
    forall q ensures s.At(q).Idle? { assert ProcOk(apply, s, q); }
  }

  lemma OthersIdle<L, C>(apply: Callback<L, C>, s: State<L, C>, p: nat)
    requires Inv(apply, s) && !s.At(p).Idle?
    ensures s.holder == Some(p) && forall q :: q != p ==> s.At(q).Idle?
  {
    assert ProcOk(apply, s, p);
    forall q | q != p ensures s.At(q).Idle? { assert ProcOk(apply, s, q); }
  }

  lemma WorkerStepInv<L, C>(apply: Callback<L, C>, s: State<L, C>, t: State<L, C>, p: nat, step: Step<C>)
    requires Inv(apply, s) && Takes(apply, s, t, step)
    requires step == Open(p) || step == ReadLine(p) || step == Release(p)
    ensures Inv(apply, t)
  {
    OthersIdle(apply, s, p);
    assert ProcOk(apply, s, p);
    WorkerInv(apply, s, t, p);
  }

  lemma CreateTempInv<L, C>(apply: Callback<L, C>, s: State<L, C>, t: State<L, C>, p: nat)
    requires Inv(apply, s) && Takes(apply, s, t, CreateTemp(p))
    ensures Inv(apply, t)
  {
    assert ProcOk(apply, s, p);
    assert s.At(p).seen == Replay(apply, s.init, s.commits);
    forall r | r in t.readers ensures ReaderOk(apply, t, r) && t.readers[r].source != |s.files| {
      assert ReaderOk(apply, s, r);
    }
    forall q ensures ProcOk(apply, t, q) {
      if q != p { SoleWorker(apply, s, p, q); }
    }
  }

  lemma WriteLineInv<L, C>(apply: Callback<L, C>, s: State<L, C>, t: State<L, C>, p: nat)
    requires Inv(apply, s) && Takes(apply, s, t, WriteLine(p))
    ensures Inv(apply, t)
  {
    assert ProcOk(apply, s, p);
    var temp := s.At(p).temp;
    assert forall f :: 0 <= f < |s.files| && f != temp ==> t.files[f] == s.files[f];
    assert ProcOk(apply, t, p);
    forall q ensures ProcOk(apply, t, q) {
      if q != p { SoleWorker(apply, s, p, q); }
    }
    forall r | r in t.readers ensures ReaderOk(apply, t, r) {
      assert ReaderOk(apply, s, r) && s.readers[r].source != temp;
    }
  }

  lemma RenameInv<L, C>(apply: Callback<L, C>, s: State<L, C>, t: State<L, C>, p: nat)
    requires Inv(apply, s) && Takes(apply, s, t, Rename(p))
    ensures Inv(apply, t)
  {
    assert ProcOk(apply, s, p);
    assert t.commits[..|t.commits| - 1] == s.commits;
    assert s.files[s.At(p).temp] == s.At(p).next;
    forall q ensures ProcOk(apply, t, q) {
      if q != p { SoleWorker(apply, s, p, q); }
    }
    forall r | r in t.readers ensures ReaderOk(apply, t, r) {
      assert ReaderOk(apply, s, r);
      assert t.commits[..t.readers[r].since] == s.commits[..t.readers[r].since];
    }
  }

  lemma ReaderStepInv<L, C>(apply: Callback<L, C>, s: State<L, C>, t: State<L, C>, r: nat, step: Step<C>)
    requires Inv(apply, s) && Takes(apply, s, t, step)
    requires step == OpenReader(r) || step == ReaderLine(r) || step == CloseReader(r)
    ensures Inv(apply, t)
  {
    assert s.commits[..|s.commits|] == s.commits;
    forall x | x in t.readers ensures ReaderOk(apply, t, x) {
      assert x in s.readers ==> ReaderOk(apply, s, x);
    }
    ReadersInv(apply, s, t);
  }

  lemma StepInv<L, C>(apply: Callback<L, C>, s: State<L, C>, t: State<L, C>, step: Step<C>)
    requires Inv(apply, s) && Takes(apply, s, t, step)
    ensures Inv(apply, t)
    ensures t.init == s.init && s.commits <= t.commits
  {
    match step
    case Acquire(p, change) =>
      AllIdle(apply, s);
      WorkerInv(apply, s, t, p);
    case Busy(p) =>
    case Open(p) => WorkerStepInv(apply, s, t, p, step);
    case ReadLine(p) => WorkerStepInv(apply, s, t, p, step);
    case CreateTemp(p) => CreateTempInv(apply, s, t, p);
    case WriteLine(p) => WriteLineInv(apply, s, t, p);
    case Rename(p) => RenameInv(apply, s, t, p);
    case Release(p) => WorkerStepInv(apply, s, t, p, step);
    case OpenReader(r) => ReaderStepInv(apply, s, t, r, step);
    case ReaderLine(r) => ReaderStepInv(apply, s, t, r, step);
    case CloseReader(r) => ReaderStepInv(apply, s, t, r, step);
  }

  lemma {:induction false} RunInv<L, C(!new)>(apply: Callback<L, C>, states: seq<State<L, C>>, n: nat)
    requires Run(apply, states) && n < |states|
    ensures Inv(apply, states[n]) && states[n].init == states[0].init
    decreases n
  {
    if n == 0 {
      InitInv(apply, states[0]);
    } else {
      RunInv(apply, states, n - 1);
      assert Follows(apply, states[n - 1], states[n]);
      var step :| Takes(apply, states[n - 1], states[n], step);
      StepInv(apply, states[n - 1], states[n], step);
    }
  }

  // ---------------------------------------------------------------- what holds in every run

  /** No lost update: the file is the initial contents with every committed change applied in commit order. */
  lemma NoLostUpdate<L, C(!new)>(apply: Callback<L, C>, states: seq<State<L, C>>, n: nat)
    requires Run(apply, states) && n < |states|
    ensures states[n].current.Some? ==> states[n].current.value < |states[n].files|
    ensures Contents(states[n]) == Replay(apply, states[0].init, states[n].commits)
  {
    RunInv(apply, states, n);
    InitInv(apply, states[0]);
  }

  /** Mutual exclusion: two processes are never inside the locked section at once. */
  lemma MutualExclusion<L, C(!new)>(apply: Callback<L, C>, states: seq<State<L, C>>, n: nat, p: nat, q: nat)
    requires Run(apply, states) && n < |states|
    requires !states[n].At(p).Idle? && !states[n].At(q).Idle?
    ensures p == q
  {
    RunInv(apply, states, n);
    if p != q { SoleWorker(apply, states[n], p, q); }
  }

  /**
   A reader without the lock is reading one committed version, whole or up to the line it has
   reached, and one no older than the version current when it opened the file.
   */
  lemma ReadersSeeOneVersion<L, C(!new)>(apply: Callback<L, C>, states: seq<State<L, C>>, n: nat, r: nat)
    requires Run(apply, states) && n < |states| && r in states[n].readers
    ensures var s := states[n];
            var at := s.readers[r];
            && at.since <= |s.commits| && at.source < |s.files|
            && s.files[at.source] == Replay(apply, states[0].init, s.commits[..at.since])
            && at.seen <= s.files[at.source]
  {
    RunInv(apply, states, n);
    assert ReaderOk(apply, states[n], r);
  }

  /** Commits are only ever added. */
  lemma {:induction false} CommitsGrow<L, C(!new)>(apply: Callback<L, C>, states: seq<State<L, C>>, m: nat, n: nat)
    requires Run(apply, states) && m <= n < |states|
    ensures states[m].commits <= states[n].commits
    decreases n
  {
    if m < n {
      CommitsGrow(apply, states, m, n - 1);
      RunInv(apply, states, n - 1);
      assert Follows(apply, states[n - 1], states[n]);
      var step :| Takes(apply, states[n - 1], states[n], step);
      StepInv(apply, states[n - 1], states[n], step);
    }
  }

  // ---------------------------------------------------------------- updates take effect

  /** Only a rename publishes anything. */
  lemma OnlyRenamesPublish<L, C>(apply: Callback<L, C>, s: State<L, C>, t: State<L, C>, step: Step<C>)
    requires Inv(apply, s) && Takes(apply, s, t, step) && !step.Rename?
    ensures t.current.Some? ==> t.current.value < |t.files|
    ensures Contents(t) == Contents(s) && t.commits == s.commits
  {
    StepInv(apply, s, t, step);
  }

  /** The process is on its way to publish the change. */
  ghost predicate UnderWay<L, C>(s: State<L, C>, p: nat, change: C) {
    match s.At(p)
    case Idle => false
    case Locked(c) => c == change
    case Reading(c, _, _) => c == change
    case Writing(c, _, _) => c == change
    case Renamed => false
  }

  /** Either nothing has been committed since, or the change of process p alone. */
  ghost predicate UpToRename<L, C>(apply: Callback<L, C>, s: State<L, C>, t: State<L, C>, p: nat, change: C) {
    && t.init == s.init
    && ((UnderWay(t, p, change) && t.commits == s.commits) ||
        (t.At(p).Renamed? && t.commits == s.commits + [change] && apply(Replay(apply, s.init, s.commits), change).Next?))
  }

  lemma UnderWayStep<L, C>(apply: Callback<L, C>, s: State<L, C>, t: State<L, C>, p: nat, change: C, step: Step<C>)
    requires Inv(apply, s) && Takes(apply, s, t, step) && UnderWay(s, p, change) && !t.At(p).Idle?
    ensures UpToRename(apply, s, t, p, change)
  {
    OthersIdle(apply, s, p);
    assert ProcOk(apply, s, p);
  }

  lemma RenamedStep<L, C>(apply: Callback<L, C>, s: State<L, C>, t: State<L, C>, p: nat, step: Step<C>)
    requires Inv(apply, s) && Takes(apply, s, t, step) && s.At(p).Renamed? && !t.At(p).Idle?
    ensures t.At(p).Renamed? && t.commits == s.commits && t.init == s.init
  {
    OthersIdle(apply, s, p);
  }

  lemma UpToRenameStep<L, C>(apply: Callback<L, C>, r: State<L, C>, s: State<L, C>, t: State<L, C>, p: nat, change: C, step: Step<C>)
    requires Inv(apply, s) && Takes(apply, s, t, step) && UpToRename(apply, r, s, p, change) && !t.At(p).Idle?
    ensures UpToRename(apply, r, t, p, change)
  {
    if s.At(p).Renamed? {
      RenamedStep(apply, s, t, p, step);
    } else {
      UnderWayStep(apply, s, t, p, change, step);
    }
  }

  lemma UpToRenameFollows<L, C(!new)>(apply: Callback<L, C>, r: State<L, C>, s: State<L, C>, t: State<L, C>, p: nat, change: C)
    requires Inv(apply, s) && Follows(apply, s, t) && UpToRename(apply, r, s, p, change) && !t.At(p).Idle?
    ensures UpToRename(apply, r, t, p, change)
  {
    var step :| Takes(apply, s, t, step);
    UpToRenameStep(apply, r, s, t, p, change, step);
  }

  lemma StepOfRun<L, C(!new)>(apply: Callback<L, C>, states: seq<State<L, C>>, n: nat)
    requires Run(apply, states) && 0 < n < |states|
    ensures Inv(apply, states[n - 1]) && Follows(apply, states[n - 1], states[n])
  {
    RunInv(apply, states, n - 1);
  }

  lemma UpToRenameNext<L, C(!new)>(apply: Callback<L, C>, states: seq<State<L, C>>, r: State<L, C>, n: nat, p: nat, change: C)
    requires Run(apply, states) && 0 < n < |states|
    requires UpToRename(apply, r, states[n - 1], p, change) && !states[n].At(p).Idle?
    ensures UpToRename(apply, r, states[n], p, change)
  {
    StepOfRun(apply, states, n);
    UpToRenameFollows(apply, r, states[n - 1], states[n], p, change);
  }

  lemma StillUnderWay<L, C>(apply: Callback<L, C>, s: State<L, C>, p: nat, change: C)
    requires s.At(p) == Locked(change)
    ensures UpToRename(apply, s, s, p, change)
  {
  }

  lemma {:induction false} ReachesRename<L, C(!new)>(apply: Callback<L, C>, states: seq<State<L, C>>, m: nat, n: nat, p: nat, change: C)
    requires Run(apply, states) && m <= n < |states| && states[m].At(p) == Locked(change)
    requires forall k :: m <= k <= n ==> !states[k].At(p).Idle?
    ensures UpToRename(apply, states[m], states[n], p, change)
    decreases n
  {
    if m == n {
      StillUnderWay(apply, states[m], p, change);
    } else {
      ReachesRename(apply, states, m, n - 1, p, change);
      UpToRenameNext(apply, states, states[m], n, p, change);
    }
  }

  /**
   A process that has taken the lock for a change and got as far as its rename without dying has
   replaced the contents by what its callback made of them, and nobody else has changed them meanwhile.
   */
  lemma RenameTakesEffect<L, C(!new)>(apply: Callback<L, C>, states: seq<State<L, C>>, m: nat, n: nat, p: nat, change: C)
    requires Run(apply, states) && m <= n < |states|
    requires states[m].At(p) == Locked(change) && states[n].At(p).Renamed?
    requires forall k :: m <= k <= n ==> !states[k].At(p).Idle?
    ensures states[m].current.Some? ==> states[m].current.value < |states[m].files|
    ensures states[n].current.Some? ==> states[n].current.value < |states[n].files|
    ensures apply(Contents(states[m]), change).Next?
    ensures Contents(states[n]) == apply(Contents(states[m]), change).lines
    ensures states[n].commits == states[m].commits + [change]
  {
    ReachesRename(apply, states, m, n, p, change);
    RunInv(apply, states, m);
    NoLostUpdate(apply, states, m);
    NoLostUpdate(apply, states, n);
    assert states[n].commits[..|states[n].commits| - 1] == states[m].commits;
  }

  lemma RunGoesOn<L, C(!new)>(apply: Callback<L, C>, states: seq<State<L, C>>, t: State<L, C>, step: Step<C>)
    requires Run(apply, states) && Takes(apply, states[|states| - 1], t, step)
    ensures Run(apply, states + [t])
  {
    assert Follows(apply, states[|states| - 1], t);
  }

  /** Nothing but the state of process p differs. */
  ghost predicate OnlyProcess<L, C>(s: State<L, C>, t: State<L, C>, p: nat) {
    t == s.(procs := s.procs[p := t.At(p)])
  }

  /** The process can read the file it has opened to its end. */
  lemma {:induction false} ReadToEnd<L, C(!new)>(apply: Callback<L, C>, states: seq<State<L, C>>, p: nat) returns (whole: seq<State<L, C>>)
    requires Run(apply, states)
    requires var s := states[|states| - 1];
             s.At(p).Reading? && s.At(p).source.Some? && s.At(p).source.value < |s.files| &&
             s.At(p).seen <= s.files[s.At(p).source.value]
    ensures states <= whole && Run(apply, whole)
    ensures var s, t := states[|states| - 1], whole[|whole| - 1];
            OnlyProcess(s, t, p) && t.At(p) == s.At(p).(seen := s.files[s.At(p).source.value])
    decreases |states[|states| - 1].files[states[|states| - 1].At(p).source.value]| - |states[|states| - 1].At(p).seen|
  {
    var s := states[|states| - 1];
    var at, file := s.At(p), s.files[s.At(p).source.value];
    if |at.seen| == |file| {
      whole := states;
      assert s.procs[p := s.At(p)] == s.procs;
    } else {
      var t := s.(procs := s.procs[p := at.(seen := at.seen + [file[|at.seen|]])]);
      assert Takes(apply, s, t, ReadLine(p));
      RunGoesOn(apply, states, t, ReadLine(p));
      whole := ReadToEnd(apply, states + [t], p);
      assert t.procs[p := whole[|whole| - 1].At(p)] == s.procs[p := whole[|whole| - 1].At(p)];
    }
  }

  /** The process can write its temporary file to the end. */
  lemma {:induction false} WriteToEnd<L, C(!new)>(apply: Callback<L, C>, states: seq<State<L, C>>, p: nat) returns (whole: seq<State<L, C>>)
    requires Run(apply, states)
    requires var s := states[|states| - 1];
             s.At(p).Writing? && s.At(p).temp < |s.files| && s.files[s.At(p).temp] <= s.At(p).next
    ensures states <= whole && Run(apply, whole)
    ensures var s := states[|states| - 1];
            whole[|whole| - 1] == s.(files := s.files[s.At(p).temp := s.At(p).next])
    decreases |states[|states| - 1].At(p).next| - |states[|states| - 1].files[states[|states| - 1].At(p).temp]|
  {
    var s := states[|states| - 1];
    var at := s.At(p);
    var file := s.files[at.temp];
    if |file| == |at.next| {
      whole := states;
      assert file == at.next;
      assert s.files[at.temp := at.next] == s.files;
    } else {
      var t := s.(files := s.files[at.temp := file + [at.next[|file|]]]);
      assert Takes(apply, s, t, WriteLine(p));
      RunGoesOn(apply, states, t, WriteLine(p));
      whole := WriteToEnd(apply, states + [t], p);
      assert t.files[at.temp := at.next] == s.files[at.temp := at.next];
    }
  }

  /** From a free lock to everything read. */
  lemma LockAndRead<L, C(!new)>(apply: Callback<L, C>, states: seq<State<L, C>>, p: nat, change: C) returns (whole: seq<State<L, C>>)
    requires Run(apply, states) && states[|states| - 1].holder.None?
    ensures states <= whole && Run(apply, whole)
    ensures var s, t := states[|states| - 1], whole[|whole| - 1];
            && t == s.(holder := Some(p), procs := t.procs)
            && (s.current.Some? ==> s.current.value < |s.files|)
            && t.At(p) == Reading(change, s.current, Contents(s))
  {
    var s := states[|states| - 1];
    RunInv(apply, states, |states| - 1);
    AllIdle(apply, s);
    var locked := s.(holder := Some(p), procs := s.procs[p := Locked(change)]);
    assert Takes(apply, s, locked, Acquire(p, change));
    RunGoesOn(apply, states, locked, Acquire(p, change));
    var reading := locked.(procs := locked.procs[p := Reading(change, s.current, [])]);
    assert Takes(apply, locked, reading, Open(p));
    RunGoesOn(apply, states + [locked], reading, Open(p));
    whole := states + [locked] + [reading];
    if s.current.Some? {
      whole := ReadToEnd(apply, whole, p);
    }
  }

  /** A change that alters the lines. */
  lemma WriteAndRename<L, C(!new)>(apply: Callback<L, C>, states: seq<State<L, C>>, p: nat) returns (whole: seq<State<L, C>>)
    requires Run(apply, states)
    requires var s := states[|states| - 1];
             && s.holder == Some(p) && s.At(p).Reading? && ReadAllOf(s, s.At(p).source, s.At(p).seen)
             && apply(s.At(p).seen, s.At(p).change).Next? && apply(s.At(p).seen, s.At(p).change).changed
    ensures states <= whole && Run(apply, whole)
    ensures var s, t := states[|states| - 1], whole[|whole| - 1];
            && t.holder.None? && t.At(p).Idle? && t.commits == s.commits + [s.At(p).change]
            && t.current.Some? && t.current.value < |t.files|
            && Contents(t) == apply(s.At(p).seen, s.At(p).change).lines
  {
    var s := states[|states| - 1];
    var change, lines := s.At(p).change, apply(s.At(p).seen, s.At(p).change).lines;
    var created := s.(files := s.files + [[]], procs := s.procs[p := Writing(change, lines, |s.files|)]);
    assert Takes(apply, s, created, CreateTemp(p));
    RunGoesOn(apply, states, created, CreateTemp(p));
    whole := WriteToEnd(apply, states + [created], p);
    var written := whole[|whole| - 1];
    var renamed := written.(current := Some(|s.files|), procs := written.procs[p := Renamed], commits := written.commits + [change]);
    assert Takes(apply, written, renamed, Rename(p));
    RunGoesOn(apply, whole, renamed, Rename(p));
    var released := renamed.(holder := None, procs := renamed.procs[p := Idle]);
    assert Takes(apply, renamed, released, Release(p));
    RunGoesOn(apply, whole + [renamed], released, Release(p));
    whole := whole + [renamed] + [released];
  }

  /**
   Whenever the lock is free, any process can carry any change through: the run goes on to a state
   where the lock is free again and the contents are what the callback makes of them now.
   */
  lemma UpdateCanTakeEffect<L, C(!new)>(apply: Callback<L, C>, states: seq<State<L, C>>, p: nat, change: C, lines: seq<L>)
    returns (whole: seq<State<L, C>>)
    requires Run(apply, states) && states[|states| - 1].holder.None?
    requires states[|states| - 1].current.Some? ==> states[|states| - 1].current.value < |states[|states| - 1].files|
    requires apply(Contents(states[|states| - 1]), change) == Next(lines, true)
    ensures states <= whole && Run(apply, whole)
    ensures var t := whole[|whole| - 1];
            && t.holder.None? && t.commits == states[|states| - 1].commits + [change]
            && t.current.Some? && t.current.value < |t.files| && Contents(t) == lines
  {
    var ready := LockAndRead(apply, states, p, change);
    whole := WriteAndRename(apply, ready, p);
  }

  lemma {:induction false} ReaderToEnd<L, C(!new)>(apply: Callback<L, C>, states: seq<State<L, C>>, r: nat) returns (whole: seq<State<L, C>>)
    requires Run(apply, states)
    requires var s := states[|states| - 1];
             r in s.readers && s.readers[r].source < |s.files| && s.readers[r].seen <= s.files[s.readers[r].source]
    ensures states <= whole && Run(apply, whole)
    ensures var s := states[|states| - 1];
            whole[|whole| - 1] == s.(readers := s.readers[r := s.readers[r].(seen := s.files[s.readers[r].source])])
    decreases |states[|states| - 1].files[states[|states| - 1].readers[r].source]| - |states[|states| - 1].readers[r].seen|
  {
    var s := states[|states| - 1];
    var at := s.readers[r];
    var file := s.files[at.source];
    if |at.seen| == |file| {
      whole := states;
      assert at.seen == file;
      assert s.readers[r := at] == s.readers;
    } else {
      var t := s.(readers := s.readers[r := at.(seen := at.seen + [file[|at.seen|]])]);
      assert Takes(apply, s, t, ReaderLine(r));
      RunGoesOn(apply, states, t, ReaderLine(r));
      whole := ReaderToEnd(apply, states + [t], r);
      assert t.readers[r := at.(seen := file)] == s.readers[r := at.(seen := file)];
    }
  }

  /** At any moment a reader without the lock can read the contents as they are, and disturbs nothing. */
  lemma ReaderCanReadContents<L, C(!new)>(apply: Callback<L, C>, states: seq<State<L, C>>, r: nat) returns (whole: seq<State<L, C>>)
    requires Run(apply, states) && states[|states| - 1].current.Some?
    ensures states[|states| - 1].current.value < |states[|states| - 1].files|
    ensures states <= whole && Run(apply, whole)
    ensures var s, t := states[|states| - 1], whole[|whole| - 1];
            t == s.(readers := t.readers) && r in t.readers && t.readers[r].seen == Contents(s)
  {
    var s := states[|states| - 1];
    RunInv(apply, states, |states| - 1);
    var reading := s.(readers := s.readers[r := Reader(s.current.value, [], |s.commits|)]);
    assert Takes(apply, s, reading, OpenReader(r));
    RunGoesOn(apply, states, reading, OpenReader(r));
    whole := ReaderToEnd(apply, states + [reading], r);
  }

  /** A process can die wherever it is; what it has not published is lost, and the lock is free again. */
  lemma ProcessCanDie<L, C(!new)>(apply: Callback<L, C>, states: seq<State<L, C>>, p: nat) returns (whole: seq<State<L, C>>)
    requires Run(apply, states) && !states[|states| - 1].At(p).Idle?
    ensures states <= whole && Run(apply, whole)
    ensures var s, t := states[|states| - 1], whole[|whole| - 1];
            && t.holder.None? && t.At(p).Idle? && t.files == s.files && t.current == s.current && t.commits == s.commits
  {
    var s := states[|states| - 1];
    RunInv(apply, states, |states| - 1);
    OthersIdle(apply, s, p);
    var t := s.(holder := None, procs := s.procs[p := Idle]);
    assert Takes(apply, s, t, Release(p));
    RunGoesOn(apply, states, t, Release(p));
    whole := states + [t];
  }

  // ---------------------------------------------------------------- relations between versions

  /**
   A relation between an earlier and a later version, given the changes in between, that every good
   change of acceptable lines establishes and that can be chained.
   */
  ghost predicate Chains<L(!new), C(!new)>(apply: Callback<L, C>, ok: seq<L> -> bool, good: C -> bool,
                                           rel: (seq<L>, seq<L>, seq<C>) -> bool) {
    && (forall a, cs :: ok(a) ==> rel(a, a, cs))
    && (forall a, c :: ok(a) && good(c) && apply(a, c).Next? ==>
          ok(apply(a, c).lines) && rel(a, apply(a, c).lines, [c]))
    && (forall a, b, c, ab, bc :: rel(a, b, ab) && rel(b, c, bc) ==> rel(a, c, ab + bc))
  }

  ghost predicate AllGood<C>(good: C -> bool, changes: seq<C>) {
    forall i :: 0 <= i < |changes| ==> good(changes[i])
  }

  lemma {:induction false} ReplayChains<L(!new), C(!new)>(
      apply: Callback<L, C>, ok: seq<L> -> bool, good: C -> bool, rel: (seq<L>, seq<L>, seq<C>) -> bool,
      init: seq<L>, changes: seq<C>, n: nat)
    requires Chains(apply, ok, good, rel) && ok(init) && AllGood(good, changes) && n <= |changes|
    ensures ok(Replay(apply, init, changes))
    ensures rel(Replay(apply, init, changes[..n]), Replay(apply, init, changes), changes[n..])
    decreases |changes|
  {
    if changes == [] {
      assert changes[..n] == changes;
    } else {
      var front, last := changes[..|changes| - 1], changes[|changes| - 1];
      var before := Replay(apply, init, front);
      ReplayChains(apply, ok, good, rel, init, front, if n < |changes| then n else 0);
      assert good(last) && rel(before, Replay(apply, init, changes), [last]);
      if n == |changes| {
        assert changes[..n] == changes;
      } else {
        assert front[..n] == changes[..n];
        assert changes[n..] == front[n..] + [last];
      }
    }
  }

  /** Such a relation holds between any two moments of a run. */
  lemma RunChains<L(!new), C(!new)>(
      apply: Callback<L, C>, ok: seq<L> -> bool, good: C -> bool, rel: (seq<L>, seq<L>, seq<C>) -> bool,
      states: seq<State<L, C>>, m: nat, n: nat)
    requires Run(apply, states) && m <= n < |states|
    requires Chains(apply, ok, good, rel) && ok(states[0].init) && AllGood(good, states[n].commits)
    ensures states[m].current.Some? ==> states[m].current.value < |states[m].files|
    ensures states[n].current.Some? ==> states[n].current.value < |states[n].files|
    ensures states[m].commits <= states[n].commits
    ensures ok(Contents(states[n]))
    ensures rel(Contents(states[m]), Contents(states[n]), states[n].commits[|states[m].commits|..])
  {
    NoLostUpdate(apply, states, m);
    NoLostUpdate(apply, states, n);
    CommitsGrow(apply, states, m, n);
    var early, late := states[m].commits, states[n].commits;
    assert late[..|early|] == early;
    ReplayChains(apply, ok, good, rel, states[0].init, late, |early|);
  }
}
