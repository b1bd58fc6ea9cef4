/**
 What every step of the flush machine keeps for one target, whatever happens at the others.

 The target's frontier is how much of the log it has answered 200. Every cursor anywhere (on disk,
 in a snapshot, in a flush under way) lies within the frontier, every message starts within it and
 carries a contiguous part of the log, and the rows stored are those of the log up to the frontier
 except for what a database error dropped. Appending, arriving and rewriting the state file keep
 all of this, because sequence numbers grow and the frontier never shrinks.
 */
module FlushInvariant {
  import opened Common
  import opened EventRecords
  import opened EventStore
  import opened EventRows
  import opened FlushProtocol

  // ---------------------------------------------------------------- the invariant, per target

  ghost predicate LogOk(s: State) {
    && GoodLog(s.own, s.log)
    && (forall i :: 0 <= i < |s.log| ==> s.log[i].sequence > 0)
    && Increasing(s.log)
  }

  /** Everything up to the cursor has been answered 200 by the target. */
  ghost predicate Covered(s: State, target: string, cursor: int) {
    && cursor <= LastSequence(s.log)
    && forall i :: 0 <= i < |s.log| && s.log[i].sequence <= cursor ==> i < s.Frontier(target)
  }

  ghost predicate InLog(s: State, lo: nat, events: seq<Event>) {
    lo + |events| <= |s.log| && s.log[lo..lo + |events|] == events
  }

  ghost predicate MessageOk(s: State, target: string, m: nat)
    requires m < |s.net|
  {
    var msg := s.net[m];
    && InLog(s, msg.lo, msg.events)
    && (msg.target == target ==>
          && msg.lo <= s.Frontier(target)
          && (m in s.answered ==> msg.lo + |msg.events| <= s.Frontier(target)))
  }

  ghost predicate WorkerOk(s: State, target: string, w: nat) {
    match s.At(w)
    case Idle => true
    case Loaded(file) => Covered(s, target, CursorFor(file, target))
    case Flushing(file, to, lo, batches, done, waiting) =>
      && Covered(s, target, CursorFor(file, target))
      && done <= |batches|
      && InLog(s, lo, Concat(batches))
      && (to == target ==> lo + |Concat(batches[..done])| <= s.Frontier(target))
      && (waiting.Some? ==>
            && waiting.value < |s.net| && done < |batches|
            && s.net[waiting.value] == Message(to, lo + |Concat(batches[..done])|, batches[done]))
  }

  /** A valid event with this id is among the first k of the log. */
  ghost predicate ValidBefore(log: seq<Event>, k: nat, id: string) {
    exists i :: 0 <= i < k && i < |log| && Valid(log[i]) && log[i].id == id
  }

  ghost predicate Logged(log: seq<Event>, id: string) {
    exists i :: 0 <= i < |log| && log[i].id == id
  }

  ghost predicate StoreOk(s: State, target: string) {
    && DistinctIds(s.Rows(target))
    && (forall id :: HasId(s.Rows(target), id) && id in s.own ==> ValidBefore(s.log, s.Frontier(target), id))
    && (forall id :: (target, id) in s.landed ==> Logged(s.log, id))
    && (forall i :: 0 <= i < |s.log| && Valid(s.log[i]) ==>
          (HasId(s.Rows(target), s.log[i].id) <==> (target, s.log[i].id) in s.landed))
    && (forall i :: 0 <= i < s.Frontier(target) && i < |s.log| && Valid(s.log[i]) ==>
          (target, s.log[i].id) in s.landed + s.dropped)
  }

  /** The target has lost nothing to a database error. */
  ghost predicate NothingDropped(s: State, target: string) {
    forall id :: (target, id) !in s.dropped
  }

  ghost predicate RowsInOrder(s: State, target: string) {
    NothingDropped(s, target) ==>
      OwnPrefix(s.own, s.Rows(target), s.log, s.Frontier(target))
  }

  ghost predicate Inv(s: State, target: string) {
    && LogOk(s)
    && s.Frontier(target) <= |s.log|
    && Covered(s, target, CursorFor(s.disk, target))
    && (forall m :: 0 <= m < |s.net| ==> MessageOk(s, target, m))
    && (forall m :: m in s.answered ==> m < |s.net|)
    && (forall w :: WorkerOk(s, target, w))
    && StoreOk(s, target)
    && RowsInOrder(s, target)
  }

  // ---------------------------------------------------------------- every step keeps the invariant

  ghost predicate Increasing(log: seq<Event>) {
    forall i, j :: 0 <= i < j < |log| ==> log[i].sequence < log[j].sequence
  }

  /** Position of the first event after a cursor. */
  ghost predicate StartsAfter(log: seq<Event>, after: int, lo: nat) {
    && lo <= |log|
    && (forall i :: 0 <= i < lo ==> log[i].sequence <= after)
    && (forall i :: lo <= i < |log| ==> log[i].sequence > after)
  }

  lemma {:induction false} FindStart(log: seq<Event>, after: int, n: nat) returns (lo: nat)
    requires Increasing(log) && n <= |log|
    requires forall i :: 0 <= i < n ==> log[i].sequence <= after
    ensures StartsAfter(log, after, lo)
    decreases |log| - n
  {
    if n < |log| && log[n].sequence <= after {
      lo := FindStart(log, after, n + 1);
    } else {
      lo := n;
    }
  }

  /** The events loaded are a suffix of the log. */
  lemma LoadIsSuffix(log: seq<Event>, after: int)
    requires Increasing(log)
    ensures StartsAfter(log, after, |log| - |LoadEvents(log, after)|)
    ensures LoadEvents(log, after) == log[|log| - |LoadEvents(log, after)|..]
  {
    var keep := (e: Event) => e.sequence > after;
    var lo := FindStart(log, after, 0);
    assert log == log[..lo] + log[lo..];
    FilterAppend(keep, log[..lo], log[lo..]);
    FilterNone(keep, log[..lo]);
    FilterAll(keep, log[lo..]);
    assert [] + log[lo..] == log[lo..];
  }

  /** An extension of the log keeps what is known of cursors, messages and workers. */
  ghost predicate Extends(s: State, t: State, e: Event) {
    && e.sequence > LastSequence(s.log)
    && t.log == s.log + [e] && t.frontier == s.frontier && t.net == s.net && t.answered == s.answered
    && t.workers == s.workers
  }

  lemma ExtendsCovered(s: State, t: State, target: string, e: Event, cursor: int)
    requires Extends(s, t, e) && Covered(s, target, cursor)
    ensures Covered(t, target, cursor)
  {
  }

  lemma ExtendsInLog(s: State, t: State, e: Event, lo: nat, events: seq<Event>)
    requires Extends(s, t, e) && InLog(s, lo, events)
    ensures InLog(t, lo, events)
  {
  }

  lemma ExtendsMessage(s: State, t: State, target: string, e: Event, m: nat)
    requires Extends(s, t, e) && m < |s.net| && MessageOk(s, target, m)
    ensures MessageOk(t, target, m)
  {
    ExtendsInLog(s, t, e, s.net[m].lo, s.net[m].events);
  }

  lemma ExtendsWorker(s: State, t: State, target: string, e: Event, w: nat)
    requires Extends(s, t, e) && WorkerOk(s, target, w)
    ensures WorkerOk(t, target, w)
  {
    match s.At(w)
    case Idle =>
    case Loaded(file) => ExtendsCovered(s, t, target, e, CursorFor(file, target));
    case Flushing(file, to, lo, batches, done, waiting) =>
      ExtendsCovered(s, t, target, e, CursorFor(file, target));
      ExtendsInLog(s, t, e, lo, Concat(batches));
  }

  lemma AppendKeepsLog(s: State, t: State, e: Event)
    requires LogOk(s) && Takes(s, t, Append(e))
    ensures LogOk(t)
  {
  }

  lemma AppendInv(s: State, t: State, target: string, e: Event)
    requires Inv(s, target) && Takes(s, t, Append(e))
    ensures Inv(t, target)
  {
    AppendKeepsLog(s, t, e);
    ExtendsCovered(s, t, target, e, CursorFor(s.disk, target));
    forall m | 0 <= m < |t.net| ensures MessageOk(t, target, m) {
      ExtendsMessage(s, t, target, e, m);
    }
    forall w ensures WorkerOk(t, target, w) {
      ExtendsWorker(s, t, target, e, w);
    }
    assert t.log[..t.Frontier(target)] == s.log[..s.Frontier(target)];
    AppendStore(s, t, target, e);
  }

  lemma LogGrows(log: seq<Event>, e: Event, k: nat, id: string)
    ensures ValidBefore(log, k, id) ==> ValidBefore(log + [e], k, id)
    ensures Logged(log, id) ==> Logged(log + [e], id)
  {
    if ValidBefore(log, k, id) {
      var i :| 0 <= i < k && i < |log| && Valid(log[i]) && log[i].id == id;
      assert (log + [e])[i] == log[i];
    }
    if Logged(log, id) {
      var i :| 0 <= i < |log| && log[i].id == id;
      assert (log + [e])[i] == log[i];
    }
  }

  /** A new event is in no store yet, and was never sent. */
  lemma AppendStore(s: State, t: State, target: string, e: Event)
    requires Inv(s, target) && Takes(s, t, Append(e))
    ensures StoreOk(t, target)
  {
    forall id
      ensures ValidBefore(s.log, s.Frontier(target), id) ==> ValidBefore(t.log, s.Frontier(target), id)
      ensures Logged(s.log, id) ==> Logged(t.log, id)
    {
      LogGrows(s.log, e, s.Frontier(target), id);
    }
    assert !HasId(s.Rows(target), e.id);
    assert !Logged(s.log, e.id);
  }

  /** A step of one worker keeps everything else. */
  lemma WorkerStepInv(s: State, t: State, target: string, w: nat)
    requires Inv(s, target) && t == s.With(w, t.At(w)) && WorkerOk(t, target, w)
    ensures Inv(t, target)
  {
    forall m | 0 <= m < |t.net| ensures MessageOk(t, target, m) {
      assert MessageOk(s, target, m);
    }
    forall v ensures WorkerOk(t, target, v) {
      if v != w { assert WorkerOk(s, target, v) && t.At(v) == s.At(v); }
    }
  }

  lemma StartWithinFrontier(s: State, target: string, after: int, lo: nat)
    requires LogOk(s) && StartsAfter(s.log, after, lo)
    requires after == 0 || Covered(s, target, after)
    ensures lo <= s.Frontier(target)
  {
    assert lo > 0 ==> s.log[lo - 1].sequence <= after;
  }

  /** The position and content of what a flush has loaded. */
  lemma LoadedFrom(s: State, target: string, to: string, after: int, events: seq<Event>)
    requires LogOk(s) && events == LoadEvents(s.log, after)
    requires to == target ==> after == 0 || Covered(s, target, after)
    ensures InLog(s, |s.log| - |events|, events)
    ensures to == target ==> |s.log| - |events| <= s.Frontier(target)
  {
    LoadIsSuffix(s.log, after);
    if to == target {
      StartWithinFrontier(s, target, after, |s.log| - |events|);
    }
  }

  lemma FlushingOk(s: State, t: State, target: string, w: nat, at: Worker)
    requires at.Flushing? && at.done == 0 && at.waiting.None? && t == s.With(w, at)
    requires Covered(s, target, CursorFor(at.file, target)) && InLog(s, at.lo, Concat(at.batches))
    requires at.target == target ==> at.lo <= s.Frontier(target)
    ensures WorkerOk(t, target, w)
  {
    assert at.batches[..0] == [];
    assert InLog(t, at.lo, Concat(at.batches));
  }

  lemma BeginInv(s: State, t: State, target: string, w: nat, to: string, full: bool, batches: seq<seq<Event>>)
    requires Inv(s, target) && Takes(s, t, Begin(w, to, full, batches))
    ensures Inv(t, target)
  {
    assert WorkerOk(s, target, w);
    var file := s.At(w).file;
    var events := Concat(batches);
    LoadedFrom(s, target, to, if full then 0 else CursorFor(file, to), events);
    FlushingOk(s, t, target, w, Flushing(file, to, |s.log| - |events|, batches, 0, None));
    WorkerStepInv(s, t, target, w);
  }

  lemma ConcatNext(batches: seq<seq<Event>>, n: nat)
    requires n < |batches|
    ensures |Concat(batches[..n + 1])| == |Concat(batches[..n])| + |batches[n]| <= |Concat(batches)|
    ensures Concat(batches)[|Concat(batches[..n])|..|Concat(batches[..n + 1])|] == batches[n]
  {
    assert batches[..n + 1] == batches[..n] + [batches[n]];
    ConcatAppend(batches[..n], [batches[n]]);
    ConcatSingle(batches[n]);
    assert batches == batches[..n + 1] + batches[n + 1..];
    ConcatAppend(batches[..n + 1], batches[n + 1..]);
  }

  lemma InLogPart(s: State, lo: nat, events: seq<Event>, i: nat, j: nat)
    requires InLog(s, lo, events) && i <= j <= |events|
    ensures InLog(s, lo + i, events[i..j])
  {
    assert s.log[lo + i..lo + j] == s.log[lo..lo + |events|][i..j];
  }

  lemma NextBatchInLog(s: State, lo: nat, batches: seq<seq<Event>>, done: nat)
    requires InLog(s, lo, Concat(batches)) && done < |batches|
    ensures InLog(s, lo + |Concat(batches[..done])|, batches[done])
  {
    ConcatNext(batches, done);
    InLogPart(s, lo, Concat(batches), |Concat(batches[..done])|, |Concat(batches[..done + 1])|);
  }

  lemma PostMessage(s: State, t: State, target: string, w: nat)
    requires WorkerOk(s, target, w) && |s.net| !in s.answered && Takes(s, t, Post(w))
    ensures MessageOk(t, target, |s.net|)
  {
    var at := s.At(w);
    NextBatchInLog(s, at.lo, at.batches, at.done);
    assert InLog(t, at.lo + |Concat(at.batches[..at.done])|, at.batches[at.done]);
  }

  lemma PostWorker(s: State, t: State, target: string, w: nat, v: nat)
    requires WorkerOk(s, target, v) && Takes(s, t, Post(w))
    ensures WorkerOk(t, target, v)
  {
  }

  lemma PostInv(s: State, t: State, target: string, w: nat)
    requires Inv(s, target) && Takes(s, t, Post(w))
    ensures Inv(t, target)
  {
    assert WorkerOk(s, target, w);
    PostMessage(s, t, target, w);
    forall m | 0 <= m < |t.net| ensures MessageOk(t, target, m) {
      if m < |s.net| { assert MessageOk(s, target, m); }
    }
    forall v ensures WorkerOk(t, target, v) {
      PostWorker(s, t, target, w, v);
    }
  }

  lemma AckWorker(s: State, t: State, target: string, w: nat)
    requires WorkerOk(s, target, w) && Takes(s, t, Ack(w))
    requires s.At(w).waiting.value < |s.net| && MessageOk(s, target, s.At(w).waiting.value)
    ensures WorkerOk(t, target, w)
  {
    ConcatNext(s.At(w).batches, s.At(w).done);
  }

  lemma AckInv(s: State, t: State, target: string, w: nat)
    requires Inv(s, target) && Takes(s, t, Ack(w))
    ensures Inv(t, target)
  {
    assert WorkerOk(s, target, w);
    assert MessageOk(s, target, s.At(w).waiting.value);
    AckWorker(s, t, target, w);
    WorkerStepInv(s, t, target, w);
  }

  lemma FinishInv(s: State, t: State, target: string, w: nat)
    requires Inv(s, target) && Takes(s, t, Finish(w))
    ensures Inv(t, target)
  {
    assert WorkerOk(s, target, w);
    var at := s.At(w);
    var events := Concat(at.batches);
    assert at.batches[..|at.batches|] == at.batches;
    if events != [] && at.target == target {
      var last := at.lo + |events| - 1;
      assert s.log[at.lo..at.lo + |events|][|events| - 1] == s.log[last];
      CoveredUpTo(s, target, last);
    }
    WorkerStepInv(s, t, target, w);
  }

  lemma CoveredUpTo(s: State, target: string, last: nat)
    requires LogOk(s) && last < |s.log| && last < s.Frontier(target)
    ensures Covered(s, target, s.log[last].sequence)
  {
    assert forall i :: last < i < |s.log| ==> s.log[last].sequence < s.log[i].sequence;
    assert last < |s.log| - 1 ==> s.log[last].sequence < s.log[|s.log| - 1].sequence;
  }

  lemma DiskInv(s: State, t: State, target: string, file: StateFile)
    requires Inv(s, target) && t == s.(disk := file) && Covered(s, target, CursorFor(file, target))
    ensures Inv(t, target)
  {
    forall m | 0 <= m < |t.net| ensures MessageOk(t, target, m) {
      assert MessageOk(s, target, m);
    }
    forall v ensures WorkerOk(t, target, v) {
      assert WorkerOk(s, target, v);
    }
  }

  lemma SaveInv(s: State, t: State, target: string, w: nat)
    requires Inv(s, target) && Takes(s, t, Save(w))
    ensures Inv(t, target)
  {
    assert WorkerOk(s, target, w);
    var mid := s.(disk := s.At(w).file);
    DiskInv(s, mid, target, s.At(w).file);
    WorkerStepInv(mid, t, target, w);
  }

  // ---------------------------------------------------------------- a batch arrives

  /** Only the history of message m and the stores change. */
  ghost predicate Arrives(s: State, t: State, m: nat) {
    && m < |s.net|
    && t.own == s.own && t.log == s.log && t.net == s.net && t.workers == s.workers && t.disk == s.disk
    && t.answered == s.answered + {m}
    && t.frontier == s.frontier[s.net[m].target := Max(s.Frontier(s.net[m].target), s.net[m].lo + |s.net[m].events|)]
  }

  /** A delivery, with the stored rows in terms of the events. */
  ghost predicate Delivered(s: State, t: State, m: nat) {
    && Arrives(s, t, m)
    && t.dropped == s.dropped && t.landed == s.landed + IdsOf(s.net[m].target, s.net[m].events)
    && t.stores == s.stores[s.net[m].target := Absorb(s.Rows(s.net[m].target), s.net[m].events)]
  }

  lemma ArrivesFrontier(s: State, t: State, target: string, m: nat)
    requires Inv(s, target) && Arrives(s, t, m)
    ensures s.Frontier(target) <= t.Frontier(target) <= |t.log|
    ensures s.net[m].target == target ==> t.Frontier(target) == Max(s.Frontier(target), s.net[m].lo + |s.net[m].events|)
    ensures s.net[m].target != target ==> t.Frontier(target) == s.Frontier(target)
  {
    assert MessageOk(s, target, m);
  }

  lemma ArrivesWorker(s: State, t: State, target: string, m: nat, w: nat)
    requires Arrives(s, t, m) && s.Frontier(target) <= t.Frontier(target) && WorkerOk(s, target, w)
    ensures WorkerOk(t, target, w)
  {
  }

  lemma ArrivesMessage(s: State, t: State, target: string, m: nat, n: nat)
    requires Inv(s, target) && Arrives(s, t, m) && n < |s.net|
    ensures MessageOk(t, target, n)
  {
    assert MessageOk(s, target, n);
    ArrivesFrontier(s, t, target, m);
  }

  lemma ArrivesInv(s: State, t: State, target: string, m: nat)
    requires Inv(s, target) && Arrives(s, t, m)
    requires StoreOk(t, target) && RowsInOrder(t, target)
    ensures Inv(t, target)
  {
    ArrivesFrontier(s, t, target, m);
    forall n | 0 <= n < |t.net| ensures MessageOk(t, target, n) {
      ArrivesMessage(s, t, target, m, n);
    }
    forall w ensures WorkerOk(t, target, w) {
      ArrivesWorker(s, t, target, m, w);
    }
  }

  lemma SliceAt(s: State, lo: nat, events: seq<Event>)
    requires InLog(s, lo, events)
    ensures forall j :: 0 <= j < |events| ==> events[j] == s.log[lo + j]
  {
  }

  /** An id of the batch is an id of the log, and a valid one lies before the batch's end. */
  lemma BatchIds(s: State, target: string, lo: nat, events: seq<Event>, id: string)
    requires InLog(s, lo, events)
    ensures (target, id) in IdsOf(target, events) ==> Logged(s.log, id)
    ensures HasValid(events, id) ==> ValidBefore(s.log, lo + |events|, id)
  {
    SliceAt(s, lo, events);
    if (target, id) in IdsOf(target, events) {
      var j :| 0 <= j < |events| && (target, events[j].id) == (target, id);
      assert s.log[lo + j].id == id;
    }
    if HasValid(events, id) {
      var j :| 0 <= j < |events| && Valid(events[j]) && events[j].id == id;
      assert s.log[lo + j].id == id;
    }
  }

  lemma IdInBatch(s: State, target: string, lo: nat, events: seq<Event>, i: nat)
    requires LogOk(s) && InLog(s, lo, events) && i < |s.log|
    ensures (target, s.log[i].id) in IdsOf(target, events) <==> lo <= i < lo + |events|
  {
    SliceAt(s, lo, events);
    if (target, s.log[i].id) in IdsOf(target, events) {
      var j :| 0 <= j < |events| && events[j].id == s.log[i].id;
      assert s.log[lo + j].id == s.log[i].id;
    }
    if lo <= i < lo + |events| {
      assert events[i - lo].id == s.log[i].id;
    }
  }

  /** A valid event of the log is in the batch exactly when its position is. */
  lemma BatchPosition(s: State, target: string, lo: nat, events: seq<Event>, i: nat)
    requires LogOk(s) && InLog(s, lo, events) && i < |s.log| && Valid(s.log[i])
    ensures (target, s.log[i].id) in IdsOf(target, events) <==> lo <= i < lo + |events|
    ensures HasValid(events, s.log[i].id) <==> lo <= i < lo + |events|
  {
    IdInBatch(s, target, lo, events, i);
    SliceAt(s, lo, events);
    if HasValid(events, s.log[i].id) {
      var j :| 0 <= j < |events| && Valid(events[j]) && events[j].id == s.log[i].id;
      assert s.log[lo + j].id == s.log[i].id;
    }
    if lo <= i < lo + |events| {
      assert events[i - lo] == s.log[i];
    }
  }

  lemma DatabaseErrorInv(s: State, t: State, target: string, m: nat)
    requires Inv(s, target) && Takes(s, t, DatabaseError(m))
    ensures Inv(t, target)
  {
    ArrivesFrontier(s, t, target, m);
    if s.net[m].target == target {
      forall i | 0 <= i < t.Frontier(target) && Valid(t.log[i])
        ensures (target, t.log[i].id) in t.landed + t.dropped
      {
        assert MessageOk(s, target, m);
        BatchPosition(s, target, s.net[m].lo, s.net[m].events, i);
      }
      DroppedSomething(s, t, target, m);
    }
    forall id | HasId(t.Rows(target), id) && id in t.own
      ensures ValidBefore(t.log, t.Frontier(target), id)
    {
      assert ValidBefore(s.log, s.Frontier(target), id);
    }
    ArrivesInv(s, t, target, m);
  }

  /** A dropped batch leaves a trace unless it was empty. */
  lemma DroppedSomething(s: State, t: State, target: string, m: nat)
    requires Inv(s, target) && Takes(s, t, DatabaseError(m)) && s.net[m].target == target
    ensures RowsInOrder(t, target)
  {
    var msg := s.net[m];
    assert MessageOk(s, target, m);
    if msg.events != [] {
      assert (target, msg.events[0].id) in IdsOf(target, msg.events);
    } else {
      assert t.Frontier(target) == s.Frontier(target);
      assert NothingDropped(t, target) ==> NothingDropped(s, target);
    }
  }

  lemma DeliverStore(s: State, t: State, target: string, m: nat)
    requires Inv(s, target) && Delivered(s, t, m) && s.net[m].target == target
    requires t.Frontier(target) == Max(s.Frontier(target), s.net[m].lo + |s.net[m].events|) <= |s.log|
    ensures StoreOk(t, target)
  {
    var msg := s.net[m];
    assert MessageOk(s, target, m);
    AbsorbKeeps(s.Rows(target), msg.events, "");
    forall id | HasId(t.Rows(target), id) && id in t.own
      ensures ValidBefore(t.log, t.Frontier(target), id)
    {
      AbsorbKeeps(s.Rows(target), msg.events, id);
      BatchIds(s, target, msg.lo, msg.events, id);
      ValidBeforeLater(s, target, t.Frontier(target), id);
      ValidBeforeMax(s.log, msg.lo + |msg.events|, t.Frontier(target), id);
    }
    forall id | (target, id) in t.landed
      ensures Logged(t.log, id)
    {
      BatchIds(s, target, msg.lo, msg.events, id);
    }
    forall i | 0 <= i < |t.log| && Valid(t.log[i])
      ensures HasId(t.Rows(target), t.log[i].id) <==> (target, t.log[i].id) in t.landed
      ensures i < t.Frontier(target) ==> (target, t.log[i].id) in t.landed + t.dropped
    {
      AbsorbKeeps(s.Rows(target), msg.events, t.log[i].id);
      BatchPosition(s, target, s.net[m].lo, s.net[m].events, i);
      assert MessageOk(s, target, m);
    }
  }

  lemma ValidBeforeMax(log: seq<Event>, j: nat, k: nat, id: string)
    requires j <= k
    ensures ValidBefore(log, j, id) ==> ValidBefore(log, k, id)
  {
  }

  lemma ValidBeforeLater(s: State, target: string, k: nat, id: string)
    requires StoreOk(s, target) && s.Frontier(target) <= k
    ensures HasId(s.Rows(target), id) && id in s.own ==> ValidBefore(s.log, k, id)
  {
    ValidBeforeMax(s.log, s.Frontier(target), k, id);
  }

  lemma DeliverOrder(s: State, t: State, target: string, m: nat)
    requires LogOk(s) && RowsInOrder(s, target) && s.Frontier(target) <= |s.log|
    requires Delivered(s, t, m) && s.net[m].target == target
    requires InLog(s, s.net[m].lo, s.net[m].events) && s.net[m].lo <= s.Frontier(target)
    requires t.Frontier(target) == Max(s.Frontier(target), s.net[m].lo + |s.net[m].events|)
    ensures RowsInOrder(t, target)
  {
    var msg := s.net[m];
    if NothingDropped(t, target) {
      assert NothingDropped(s, target);
      AbsorbBatch(s.own, s.Rows(target), s.log, s.Frontier(target), msg.lo, |msg.events|);
      assert t.Rows(target) == Absorb(s.Rows(target), msg.events);
    }
  }

  lemma OtherDelivery(s: State, t: State, target: string, m: nat)
    requires Inv(s, target) && Delivered(s, t, m) && s.net[m].target != target
    requires t.Frontier(target) == s.Frontier(target)
    ensures StoreOk(t, target) && RowsInOrder(t, target)
  {
    assert t.Rows(target) == s.Rows(target);
    assert forall id :: (target, id) in t.landed <==> (target, id) in s.landed;
  }

  lemma DeliverInv(s: State, t: State, target: string, m: nat)
    requires Inv(s, target) && m < |s.net| && Delivered(s, t, m)
    ensures Inv(t, target)
  {
    ArrivesFrontier(s, t, target, m);
    if s.net[m].target == target {
      DeliverStore(s, t, target, m);
      assert MessageOk(s, target, m);
      DeliverOrder(s, t, target, m);
    } else {
      OtherDelivery(s, t, target, m);
    }
    ArrivesInv(s, t, target, m);
  }

  lemma ForeignHere(s: State, t: State, target: string, row: Row)
    requires Inv(s, target) && Takes(s, t, Foreign(target, row))
    ensures StoreOk(t, target) && RowsInOrder(t, target)
  {
    ForeignRow(s.own, s.Rows(target), row);
  }

  lemma ForeignElsewhere(s: State, t: State, target: string, to: string, row: Row)
    requires Inv(s, target) && Takes(s, t, Foreign(to, row)) && to != target
    ensures StoreOk(t, target) && RowsInOrder(t, target)
  {
    assert t.Rows(target) == s.Rows(target);
  }

  lemma ForeignInv(s: State, t: State, target: string, to: string, row: Row)
    requires Inv(s, target) && Takes(s, t, Foreign(to, row))
    ensures Inv(t, target)
  {
    if to == target {
      ForeignHere(s, t, target, row);
    } else {
      ForeignElsewhere(s, t, target, to, row);
    }
    StoresInv(s, t, target);
  }

  /** Another client's row changes nothing about this client's rows. */
  lemma ForeignRow(own: iset<string>, rows: seq<Row>, row: Row)
    requires row.id !in own && !HasId(rows, row.id) && DistinctIds(rows)
    ensures DistinctIds(rows + [row])
    ensures forall id :: id in own ==> (HasId(rows + [row], id) <==> HasId(rows, id))
    ensures Filter(Mine(own), rows + [row]) == Filter(Mine(own), rows)
  {
    forall id ensures HasId(rows + [row], id) <==> HasId(rows, id) || row.id == id {
      HasIdSnoc(rows, row, id);
    }
    assert forall i :: 0 <= i < |rows| ==> rows[i].id != row.id;
    assert (rows + [row])[..|rows|] == rows;
  }

  /** A step that only changes stores. */
  lemma StoresInv(s: State, t: State, target: string)
    requires Inv(s, target) && t == s.(stores := t.stores)
    requires StoreOk(t, target) && RowsInOrder(t, target)
    ensures Inv(t, target)
  {
    forall m | 0 <= m < |t.net| ensures MessageOk(t, target, m) {
      assert MessageOk(s, target, m);
    }
    forall v ensures WorkerOk(t, target, v) {
      assert WorkerOk(s, target, v);
    }
  }

  lemma StepInv(s: State, t: State, target: string, step: Step)
    requires Inv(s, target) && Takes(s, t, step)
    ensures Inv(t, target)
  {
    match step
    case Append(e) => AppendInv(s, t, target, e);
    case Load(w, readable) => WorkerStepInv(s, t, target, w);
    case Begin(w, to, full, batches) => BeginInv(s, t, target, w, to, full, batches);
    case Post(w) => PostInv(s, t, target, w);
    case Deliver(m) => DeliverInv(s, t, target, m);
    case DatabaseError(m) => DatabaseErrorInv(s, t, target, m);
    case Ack(w) => AckInv(s, t, target, w);
    case Finish(w) => FinishInv(s, t, target, w);
    case Abandon(w) =>
      assert WorkerOk(s, target, w);
      WorkerStepInv(s, t, target, w);
    case Save(w) => SaveInv(s, t, target, w);
    case Die(w) => WorkerStepInv(s, t, target, w);
    case Foreign(to, row) => ForeignInv(s, t, target, to, row);
  }
}
