/**
 The parallel fetch as a step machine: one goroutine per group, a semaphore of 8, a buffered
 channel that is closed when all are done, and a collector that drains it.
 */
module ParallelFetch {
  import opened Common
  import opened SessionOps

  const MAX_RUNNING: nat := 8

  /** The answer for one group: a URL with its metadata, a hopeless group, or neither. */
  datatype Answer = Found(url: string, meta: PRMeta) | Skip | Retry

  datatype Task = Waiting | Fetching | Holding(answer: Answer) | Sent | Done

  /** What goes through the channel: the answer together with the group it is for. */
  datatype Result = Result(group: nat, answer: Answer)

  function Groups(results: seq<Result>): (r: seq<nat>)
    ensures |r| == |results| && forall i :: 0 <= i < |r| ==> r[i] == results[i].group
  {
    seq(|results|, i requires 0 <= i < |results| => results[i].group)
  }

  /** sent holds the results in the order in which they entered the channel, and received counts those that left it. */
  datatype State = State(
    tasks: seq<Task>,
    running: nat,
    channel: seq<Result>,
    sent: seq<Result>,
    received: nat,
    closed: bool,
    finished: bool)

  datatype Step =
    | Acquire(i: nat)
    | Fetch(i: nat)
    | Send(i: nat)
    | Exit(i: nat)
    | Close
    | Receive
    | Finish

  /** answers[i] is what the fetch of group i returns. */
  ghost predicate Takes(answers: seq<Answer>, s: State, t: State, step: Step) {
    match step
    case Acquire(i) =>
      && i < |s.tasks| && s.tasks[i].Waiting? && s.running < MAX_RUNNING
      && t == s.(tasks := s.tasks[i := Fetching], running := s.running + 1)
    case Fetch(i) =>
      && i < |s.tasks| && i < |answers| && s.tasks[i].Fetching?
      && t == s.(tasks := s.tasks[i := Holding(answers[i])])
    case Send(i) =>
      && i < |s.tasks| && s.tasks[i].Holding?
      && var result := Result(i, s.tasks[i].answer);
      && t == s.(tasks := s.tasks[i := Sent], channel := s.channel + [result], sent := s.sent + [result])
    case Exit(i) =>
      && i < |s.tasks| && s.tasks[i].Sent? && s.running > 0
      && t == s.(tasks := s.tasks[i := Done], running := s.running - 1)
    case Close =>
      && !s.closed && (forall i :: 0 <= i < |s.tasks| ==> s.tasks[i].Done?)
      && t == s.(closed := true)
    case Receive =>
      && !s.finished && s.channel != []
      && t == s.(channel := s.channel[1..], received := s.received + 1)
    case Finish =>
      && !s.finished && s.closed && s.channel == []
      && t == s.(finished := true)
  }

  ghost predicate Start(n: nat, s: State) {
    s == State(seq(n, i => Waiting), 0, [], [], 0, false, false)
  }

  ghost predicate Follows(answers: seq<Answer>, s: State, t: State) {
    exists step :: Takes(answers, s, t, step)
  }

  ghost predicate Run(answers: seq<Answer>, states: seq<State>) {
    && states != [] && Start(|answers|, states[0])
    && forall i, j :: 0 <= i && j == i + 1 && j < |states| ==> Follows(answers, states[i], states[j])
  }

  // ---------------------------------------------------------------- the invariant

  predicate Active(task: Task) {
    task.Fetching? || task.Holding? || task.Sent?
  }

  function ActiveCount(tasks: seq<Task>): nat {
    if tasks == [] then 0
    else ActiveCount(tasks[..|tasks| - 1]) + (if Active(tasks[|tasks| - 1]) then 1 else 0)
  }

  /** Every result, in a goroutine's hands or sent, is the answer for its own group. */
  ghost predicate Answered(answers: seq<Answer>, s: State) {
    && |s.tasks| == |answers|
    && (forall i :: 0 <= i < |s.tasks| && s.tasks[i].Holding? ==> s.tasks[i].answer == answers[i])
    && (forall i :: 0 <= i < |s.sent| ==> s.sent[i].group < |answers| && s.sent[i].answer == answers[s.sent[i].group])
  }

  lemma SentGroups(sent: seq<Result>, r: Result)
    ensures Groups(sent + [r]) == Groups(sent) + [r.group]
  {
  }

  ghost predicate Inv(answers: seq<Answer>, s: State) {
    && |s.tasks| == |answers|
    && s.running == ActiveCount(s.tasks) && s.running <= MAX_RUNNING
    && s.received <= |s.sent| && s.channel == s.sent[s.received..]
    && Distinct(Groups(s.sent))
    && (forall i: nat :: i in Groups(s.sent) <==> i < |s.tasks| && (s.tasks[i].Sent? || s.tasks[i].Done?))
    && Answered(answers, s)
    && (s.closed ==> forall i :: 0 <= i < |s.tasks| ==> s.tasks[i].Done?)
    && (s.finished ==> s.closed && s.channel == [])
  }

  lemma {:induction false} ActiveCountUpdate(tasks: seq<Task>, i: nat, task: Task)
    requires i < |tasks|
    ensures ActiveCount(tasks[i := task]) ==
            ActiveCount(tasks) - (if Active(tasks[i]) then 1 else 0) + (if Active(task) then 1 else 0)
  {
    var n := |tasks| - 1;
    if i == n {
      assert tasks[i := task][..n] == tasks[..n];
    } else {
      ActiveCountUpdate(tasks[..n], i, task);
      assert tasks[i := task][..n] == tasks[..n][i := task];
    }
  }

  lemma {:induction false} NoneActive(tasks: seq<Task>)
    requires forall i :: 0 <= i < |tasks| ==> tasks[i].Waiting?
    ensures ActiveCount(tasks) == 0
  {
    if tasks != [] {
      NoneActive(tasks[..|tasks| - 1]);
    }
  }

  lemma AcquireInv(answers: seq<Answer>, s: State, t: State, i: nat)
    requires Inv(answers, s) && Takes(answers, s, t, Acquire(i))
    ensures Inv(answers, t)
  {
    ActiveCountUpdate(s.tasks, i, Fetching);
  }

  lemma FetchInv(answers: seq<Answer>, s: State, t: State, i: nat)
    requires Inv(answers, s) && Takes(answers, s, t, Fetch(i))
    ensures Inv(answers, t)
  {
    ActiveCountUpdate(s.tasks, i, Holding(answers[i]));
  }

  lemma SendInv(answers: seq<Answer>, s: State, t: State, i: nat)
    requires Inv(answers, s) && Takes(answers, s, t, Send(i))
    ensures Inv(answers, t)
  {
    ActiveCountUpdate(s.tasks, i, Sent);
    SentGroups(s.sent, Result(i, s.tasks[i].answer));
    assert i !in Groups(s.sent);
    assert t.channel == t.sent[t.received..];
  }

  lemma ExitInv(answers: seq<Answer>, s: State, t: State, i: nat)
    requires Inv(answers, s) && Takes(answers, s, t, Exit(i))
    ensures Inv(answers, t)
  {
    ActiveCountUpdate(s.tasks, i, Done);
  }

  lemma StepInv(answers: seq<Answer>, s: State, t: State, step: Step)
    requires Inv(answers, s) && Takes(answers, s, t, step)
    ensures Inv(answers, t)
  {
    match step
    case Acquire(i) => AcquireInv(answers, s, t, i);
    case Fetch(i) => FetchInv(answers, s, t, i);
    case Send(i) => SendInv(answers, s, t, i);
    case Exit(i) => ExitInv(answers, s, t, i);
    case Close =>
    case Receive => assert t.channel == t.sent[t.received..];
    case Finish =>
  }

  lemma FollowsInv(answers: seq<Answer>, s: State, t: State)
    requires Inv(answers, s) && Follows(answers, s, t)
    ensures Inv(answers, t)
  {
    var step :| Takes(answers, s, t, step);
    StepInv(answers, s, t, step);
  }

  lemma {:induction false} RunInv(answers: seq<Answer>, states: seq<State>, n: nat)
    requires Run(answers, states) && n < |states|
    ensures Inv(answers, states[n])
    decreases n
  {
    if n == 0 {
      NoneActive(states[0].tasks);
    } else {
      RunInv(answers, states, n - 1);
      assert Follows(answers, states[n - 1], states[n]);
      FollowsInv(answers, states[n - 1], states[n]);
    }
  }

  /** At most 8 fetches run at once, and the channel never holds more than one result per group. */
  lemma AtMostEightRun(answers: seq<Answer>, states: seq<State>, n: nat)
    requires Run(answers, states) && n < |states|
    ensures ActiveCount(states[n].tasks) <= 8
    ensures Distinct(Groups(states[n].channel))
  {
    RunInv(answers, states, n);
    var s := states[n];
    assert forall i :: 0 <= i < |s.channel| ==> Groups(s.channel)[i] == Groups(s.sent)[s.received + i];
  }

  /** No result is ever sent on the closed channel. */
  lemma NoSendAfterClose(answers: seq<Answer>, states: seq<State>, n: nat, i: nat)
    requires Run(answers, states) && n < |states|
    requires i < |states[n].tasks| && states[n].tasks[i].Holding?
    ensures !states[n].closed
  {
    RunInv(answers, states, n);
  }

  /** When the collector stops it has received exactly one result for every group, and it is that group's answer. */
  lemma EveryGroupOnce(answers: seq<Answer>, states: seq<State>, n: nat)
    requires Run(answers, states) && n < |states| && states[n].finished
    ensures Permutes(Groups(states[n].sent), |answers|) && states[n].received == |answers|
    ensures forall i :: 0 <= i < |states[n].sent| ==> states[n].sent[i].answer == answers[states[n].sent[i].group]
  {
    RunInv(answers, states, n);
    var order := Groups(states[n].sent);
    assert forall i :: 0 <= i < |order| ==> order[i] in order;
    DistinctCovers(order, |answers|);
  }

  // ---------------------------------------------------------------- every run comes to its end

  function TaskWork(task: Task): nat {
    match task
    case Waiting => 5
    case Fetching => 4
    case Holding(_) => 3
    case Sent => 1
    case Done => 0
  }

  function TasksWork(tasks: seq<Task>): nat {
    if tasks == [] then 0 else TasksWork(tasks[..|tasks| - 1]) + TaskWork(tasks[|tasks| - 1])
  }

  /** How many steps are left at most. */
  function Work(s: State): nat {
    TasksWork(s.tasks) + |s.channel| + (if s.closed then 0 else 1) + (if s.finished then 0 else 1)
  }

  lemma {:induction false} TasksWorkUpdate(tasks: seq<Task>, i: nat, task: Task)
    requires i < |tasks|
    ensures TasksWork(tasks[i := task]) == TasksWork(tasks) - TaskWork(tasks[i]) + TaskWork(task)
  {
    var n := |tasks| - 1;
    if i == n {
      assert tasks[i := task][..n] == tasks[..n];
    } else {
      TasksWorkUpdate(tasks[..n], i, task);
      assert tasks[i := task][..n] == tasks[..n][i := task];
    }
  }

  /** Whichever step is taken, less is left to do. */
  lemma StepDecreasesWork(answers: seq<Answer>, s: State, t: State, step: Step)
    requires Takes(answers, s, t, step)
    ensures Work(t) < Work(s)
  {
    match step
    case Acquire(i) => TasksWorkUpdate(s.tasks, i, Fetching);
    case Fetch(i) => TasksWorkUpdate(s.tasks, i, Holding(answers[i]));
    case Send(i) => TasksWorkUpdate(s.tasks, i, Sent);
    case Exit(i) => TasksWorkUpdate(s.tasks, i, Done);
    case Close =>
    case Receive =>
    case Finish =>
  }

  lemma {:induction false} SomeActive(tasks: seq<Task>) returns (i: nat)
    requires ActiveCount(tasks) > 0
    ensures i < |tasks| && Active(tasks[i])
  {
    i := |tasks| - 1;
    if !Active(tasks[i]) {
      i := SomeActive(tasks[..i]);
    }
  }

  lemma {:induction false} ActivePositive(tasks: seq<Task>, i: nat)
    requires i < |tasks| && Active(tasks[i])
    ensures ActiveCount(tasks) > 0
  {
    if i < |tasks| - 1 {
      ActivePositive(tasks[..|tasks| - 1], i);
    }
  }

  /** An active goroutine is never stuck: the channel has room for every result. */
  lemma ActiveMoves(answers: seq<Answer>, s: State, i: nat) returns (t: State)
    requires Inv(answers, s) && i < |s.tasks| && Active(s.tasks[i])
    ensures Follows(answers, s, t)
  {
    match s.tasks[i]
    case Fetching =>
      t := s.(tasks := s.tasks[i := Holding(answers[i])]);
      assert Takes(answers, s, t, Fetch(i));
    case Holding(_) =>
      var result := Result(i, s.tasks[i].answer);
      t := s.(tasks := s.tasks[i := Sent], channel := s.channel + [result], sent := s.sent + [result]);
      assert Takes(answers, s, t, Send(i));
    case Sent =>
      ActivePositive(s.tasks, i);
      t := s.(tasks := s.tasks[i := Done], running := s.running - 1);
      assert Takes(answers, s, t, Exit(i));
  }

  /** No deadlock: until the collector has stopped, some step can be taken. */
  lemma AlwaysMoves(answers: seq<Answer>, s: State) returns (t: State)
    requires Inv(answers, s) && !s.finished
    ensures Follows(answers, s, t)
  {
    if s.channel != [] {
      t := s.(channel := s.channel[1..], received := s.received + 1);
      assert Takes(answers, s, t, Receive);
    } else if s.running > 0 {
      var i := SomeActive(s.tasks);
      t := ActiveMoves(answers, s, i);
    } else if i :| 0 <= i < |s.tasks| && s.tasks[i].Waiting? {
      t := s.(tasks := s.tasks[i := Fetching], running := s.running + 1);
      assert Takes(answers, s, t, Acquire(i));
    } else if s.closed {
      t := s.(finished := true);
      assert Takes(answers, s, t, Step.Finish);
    } else {
      forall i | 0 <= i < |s.tasks|
        ensures s.tasks[i].Done?
      {
        if Active(s.tasks[i]) { ActivePositive(s.tasks, i); }
      }
      t := s.(closed := true);
      assert Takes(answers, s, t, Close);
    }
  }

  lemma {:induction false} StartWork(tasks: seq<Task>)
    requires forall i :: 0 <= i < |tasks| ==> tasks[i].Waiting?
    ensures TasksWork(tasks) == 5 * |tasks|
  {
    if tasks != [] {
      StartWork(tasks[..|tasks| - 1]);
    }
  }

  lemma {:induction false} WorkLeft(answers: seq<Answer>, states: seq<State>, n: nat)
    requires Run(answers, states) && n < |states|
    ensures Work(states[n]) + n <= 5 * |answers| + 2
    decreases n
  {
    if n == 0 {
      StartWork(states[0].tasks);
    } else {
      WorkLeft(answers, states, n - 1);
      assert Follows(answers, states[n - 1], states[n]);
      var step :| Takes(answers, states[n - 1], states[n], step);
      StepDecreasesWork(answers, states[n - 1], states[n], step);
    }
  }

  lemma RunExtends(answers: seq<Answer>, states: seq<State>, t: State)
    requires Run(answers, states) && Follows(answers, states[|states| - 1], t)
    ensures Run(answers, states + [t])
  {
  }

  /**
   Termination: a run takes at most 5n + 2 steps, and one whose collector has not stopped can always
   go on, so every run, however it is scheduled, ends with the collector done.
   */
  lemma EveryRunFinishes(answers: seq<Answer>, states: seq<State>) returns (whole: seq<State>)
    requires Run(answers, states)
    ensures |states| <= 5 * |answers| + 3
    ensures states <= whole && Run(answers, whole) && whole[|whole| - 1].finished
    decreases 5 * |answers| + 3 - |states|
  {
    var s := states[|states| - 1];
    WorkLeft(answers, states, |states| - 1);
    RunInv(answers, states, |states| - 1);
    if s.finished {
      whole := states;
    } else {
      var t := AlwaysMoves(answers, s);
      RunExtends(answers, states, t);
      WorkLeft(answers, states + [t], |states|);
      whole := EveryRunFinishes(answers, states + [t]);
    }
  }

  lemma {:induction false} FirstActive(tasks: seq<Task>, k: nat)
    requires k <= |tasks|
    requires forall i :: 0 <= i < |tasks| ==> if i < k then tasks[i].Fetching? else tasks[i].Waiting?
    ensures ActiveCount(tasks) == k
  {
    if tasks != [] {
      FirstActive(tasks[..|tasks| - 1], if k == |tasks| then k - 1 else k);
    }
  }

  /** The semaphore lets the first k goroutines in. */
  lemma {:induction false} LetIn(answers: seq<Answer>, k: nat) returns (states: seq<State>)
    requires k <= |answers| && k <= 8
    ensures Run(answers, states)
    ensures var s := states[|states| - 1];
            && |s.tasks| == |answers| && s.running == k
            && forall i :: 0 <= i < |s.tasks| ==> if i < k then s.tasks[i].Fetching? else s.tasks[i].Waiting?
  {
    if k == 0 {
      states := [State(seq(|answers|, i => Waiting), 0, [], [], 0, false, false)];
    } else {
      states := LetIn(answers, k - 1);
      var s := states[|states| - 1];
      var t := s.(tasks := s.tasks[k - 1 := Fetching], running := s.running + 1);
      assert Takes(answers, s, t, Acquire(k - 1));
      RunExtends(answers, states, t);
      states := states + [t];
    }
  }

  /** The bound is reached: with enough groups, eight fetches can run at once. */
  lemma EightCanRun(answers: seq<Answer>) returns (states: seq<State>)
    requires |answers| >= 8
    ensures Run(answers, states) && ActiveCount(states[|states| - 1].tasks) == 8
  {
    states := LetIn(answers, 8);
    FirstActive(states[|states| - 1].tasks, 8);
  }

  /** The numbers below n. */
  function Numbers(n: nat): set<nat> {
    if n == 0 then {} else Numbers(n - 1) + {n - 1}
  }

  lemma {:induction false} NumbersBelow(n: nat)
    ensures |Numbers(n)| == n && forall i: nat :: i in Numbers(n) <==> i < n
  {
    if n > 0 {
      NumbersBelow(n - 1);
    }
  }

  function ElementsOf(order: seq<nat>): set<nat> {
    set i | i in order
  }

  lemma {:induction false} DistinctSize(order: seq<nat>)
    requires Distinct(order)
    ensures |ElementsOf(order)| == |order|
  {
    if order == [] {
      assert ElementsOf(order) == {};
    } else {
      var front, last := order[..|order| - 1], order[|order| - 1];
      DistinctSize(front);
      assert order == front + [last];
      assert ElementsOf(order) == ElementsOf(front) + {last};
    }
  }

  lemma DistinctCovers(order: seq<nat>, n: nat)
    requires Distinct(order) && (forall i: nat :: i in order <==> i < n)
    ensures |order| == n
  {
    DistinctSize(order);
    NumbersBelow(n);
    assert ElementsOf(order) == Numbers(n);
  }
}
