/** What the history of the session index, seen through the lock machine, never loses. */
module IndexHistory {
  import opened JsonLine
  import opened SessionDecoder
  import opened IndexChanges
  import opened PinSafety
  import opened IndexLock
  import SyncDb

  /** The callbacks of the index operations. */
  ghost function Callback(): IndexLock.Callback<Raw, Change> {
    (lines: seq<Raw>, change: Change) => Apply(lines, change)
  }

  lemma KeepsLinesTwice(a: seq<Raw>, b: seq<Raw>, c: seq<Raw>)
    requires KeepsLines(a, b) && KeepsLines(b, c)
    ensures KeepsLines(a, c)
  {
    forall i | 0 <= i < |a|
      ensures LineKept(a[i], c[i])
    {
      LineKeptTwice(a[i], b[i], c[i]);
    }
  }

  lemma SameLines(lines: seq<Raw>)
    ensures KeepsLines(lines, lines)
  {
  }

  lemma KeepsLinesChains()
    ensures Chains(Callback(), (a: seq<Raw>) => true, (c: Change) => true,
                   (a: seq<Raw>, b: seq<Raw>, cs: seq<Change>) => KeepsLines(a, b))
  {
    forall a: seq<Raw>
      ensures KeepsLines(a, a)
    {
      SameLines(a);
    }
    forall a: seq<Raw>, c: Change | Apply(a, c).Next?
      ensures KeepsLines(a, Apply(a, c).lines)
    {
      ChangeKeepsLines(a, c);
    }
    forall a: seq<Raw>, b: seq<Raw>, c: seq<Raw> | KeepsLines(a, b) && KeepsLines(b, c)
      ensures KeepsLines(a, c)
    {
      KeepsLinesTwice(a, b, c);
    }
  }

  /**
   Between any two moments of a run no line is removed, and none without a type error gets one. A field
   written once, such as the session id, reads as before or as a rewrite of the earlier line reads,
   which is the same unless the line repeats its key or spells it in another case too.
   */
  lemma LinesAreNeverRemoved(states: seq<State<Raw, Change>>, m: nat, n: nat)
    requires Run(Callback(), states) && m <= n < |states|
    ensures states[m].current.Some? ==> states[m].current.value < |states[m].files|
    ensures states[n].current.Some? ==> states[n].current.value < |states[n].files|
    ensures KeepsLines(Contents(states[m]), Contents(states[n]))
  {
    KeepsLinesChains();
    RunChains(Callback(), (a: seq<Raw>) => true, (c: Change) => true,
              (a: seq<Raw>, b: seq<Raw>, cs: seq<Change>) => KeepsLines(a, b), states, m, n);
  }

  // ---------------------------------------------------------------- pins

  ghost predicate AllProper(changes: seq<Change>) {
    forall i :: 0 <= i < |changes| ==> Wellformed(changes[i])
  }

  /** Some of the changes pins the session. */
  ghost predicate SomePin(changes: seq<Change>, sid: string) {
    exists i :: 0 <= i < |changes| && Pinning(changes[i], sid)
  }

  /** The line is still pinned, and to the same URL unless one of the changes pinned its session. */
  ghost predicate KeepsPin(before: Raw, after: Raw, changes: seq<Change>) {
    PinHeld(before) ==>
      PinHeld(after) && PinKept(DecodeLoose(before), DecodeLoose(after), SomePin(changes, DecodeLoose(before).Str(SessionID)))
  }

  ghost predicate KeepsPins(before: seq<Raw>, after: seq<Raw>, changes: seq<Change>) {
    |before| <= |after| && forall i :: 0 <= i < |before| ==> KeepsPin(before[i], after[i], changes)
  }

  lemma ApplyKeepsPins(before: seq<Raw>, change: Change)
    requires Wellformed(change) && Apply(before, change).Next?
    ensures KeepsPins(before, Apply(before, change).lines, [change])
  {
    ApplyByLine(before, change);
    forall i | 0 <= i < |before|
      ensures KeepsPin(before[i], Apply(before, change).lines[i], [change])
    {
      if PinHeld(before[i]) {
        ChangeKeepsPin(before[i], change);
        assert [change][0] == change;
      }
    }
  }

  lemma KeepsPinTwice(a: Raw, b: Raw, c: Raw, ab: seq<Change>, bc: seq<Change>)
    requires KeepsPin(a, b, ab) && KeepsPin(b, c, bc)
    ensures KeepsPin(a, c, ab + bc)
  {
    SomePinAppend(ab, bc, DecodeLoose(a).Str(SessionID));
  }

  lemma KeepsPinsTwice(a: seq<Raw>, b: seq<Raw>, c: seq<Raw>, ab: seq<Change>, bc: seq<Change>)
    requires KeepsPins(a, b, ab) && KeepsPins(b, c, bc)
    ensures KeepsPins(a, c, ab + bc)
  {
    forall i | 0 <= i < |a|
      ensures KeepsPin(a[i], c[i], ab + bc)
    {
      KeepsPinTwice(a[i], b[i], c[i], ab, bc);
    }
  }

  lemma SomePinAppend(a: seq<Change>, b: seq<Change>, sid: string)
    ensures SomePin(a + b, sid) <==> SomePin(a, sid) || SomePin(b, sid)
  {
    if i :| 0 <= i < |a| && Pinning(a[i], sid) {
      assert (a + b)[i] == a[i];
    }
    if i :| 0 <= i < |b| && Pinning(b[i], sid) {
      assert (a + b)[|a| + i] == b[i];
    }
  }

  lemma SamePins(lines: seq<Raw>, changes: seq<Change>)
    ensures KeepsPins(lines, lines, changes)
  {
  }

  lemma KeepsPinsChains()
    ensures Chains(Callback(), (a: seq<Raw>) => true, (c: Change) => Wellformed(c),
                   (a: seq<Raw>, b: seq<Raw>, cs: seq<Change>) => KeepsPins(a, b, cs))
  {
    forall a: seq<Raw>, cs: seq<Change>
      ensures KeepsPins(a, a, cs)
    {
      SamePins(a, cs);
    }
    forall a: seq<Raw>, c: Change | Wellformed(c) && Apply(a, c).Next?
      ensures KeepsPins(a, Apply(a, c).lines, [c])
    {
      ApplyKeepsPins(a, c);
    }
    forall a: seq<Raw>, b: seq<Raw>, c: seq<Raw>, ab: seq<Change>, bc: seq<Change> | KeepsPins(a, b, ab) && KeepsPins(b, c, bc)
      ensures KeepsPins(a, c, ab + bc)
    {
      KeepsPinsTwice(a, b, c, ab, bc);
    }
  }

  /**
   Pin safety over whole runs: a pinned line keeps exactly one URL, and that URL changes only when a
   change committed in between pins the same session again.
   */
  lemma PinsAreSafe(states: seq<State<Raw, Change>>, m: nat, n: nat)
    requires Run(Callback(), states) && m <= n < |states| && AllProper(states[n].commits)
    ensures states[m].current.Some? ==> states[m].current.value < |states[m].files|
    ensures states[n].current.Some? ==> states[n].current.value < |states[n].files|
    ensures states[m].commits <= states[n].commits
    ensures KeepsPins(Contents(states[m]), Contents(states[n]), states[n].commits[|states[m].commits|..])
  {
    KeepsPinsChains();
    RunChains(Callback(), (a: seq<Raw>) => true, (c: Change) => Wellformed(c),
              (a: seq<Raw>, b: seq<Raw>, cs: seq<Change>) => KeepsPins(a, b, cs), states, m, n);
  }

  ghost predicate AllPinHeld(lines: seq<Raw>) {
    forall i :: 0 <= i < |lines| ==> PinHeld(lines[i])
  }

  lemma ApplyKeepsAllPinHeld(before: seq<Raw>, change: Change)
    requires AllPinHeld(before) && Wellformed(change) && AllPinHeld(Appended(change)) && Apply(before, change).Next?
    ensures AllPinHeld(Apply(before, change).lines)
  {
    var after := Apply(before, change).lines;
    ApplyByLine(before, change);
    ApplyKeepsPins(before, change);
    forall i | 0 <= i < |after|
      ensures PinHeld(after[i])
    {
      if i < |before| {
        assert KeepsPin(before[i], after[i], [change]);
      } else {
        assert after[i] == after[|before|..][i - |before|];
      }
    }
  }

  lemma AllPinHeldChains()
    ensures Chains(Callback(), (a: seq<Raw>) => AllPinHeld(a), (c: Change) => Wellformed(c) && AllPinHeld(Appended(c)),
                   (a: seq<Raw>, b: seq<Raw>, cs: seq<Change>) => true)
  {
    forall a: seq<Raw>, c: Change | AllPinHeld(a) && Wellformed(c) && AllPinHeld(Appended(c)) && Apply(a, c).Next?
      ensures AllPinHeld(Apply(a, c).lines)
    {
      ApplyKeepsAllPinHeld(a, c);
    }
  }

  /** If every new line holds its pin, and would hold a later one, every pinned line of the index has exactly one URL at all times. */
  lemma PinnedLinesHaveOneURL(states: seq<State<Raw, Change>>, n: nat)
    requires Run(Callback(), states) && n < |states| && AllPinHeld(states[0].init)
    requires AllGood((c: Change) => Wellformed(c) && AllPinHeld(Appended(c)), states[n].commits)
    ensures states[n].current.Some? ==> states[n].current.value < |states[n].files|
    ensures forall i :: 0 <= i < |Contents(states[n])| ==> PinSafe(DecodeLoose(Contents(states[n])[i]))
  {
    AllPinHeldChains();
    RunChains(Callback(), (a: seq<Raw>) => AllPinHeld(a), (c: Change) => Wellformed(c) && AllPinHeld(Appended(c)),
              (a: seq<Raw>, b: seq<Raw>, cs: seq<Change>) => true, states, n, n);
    assert AllPinHeld(Contents(states[n]));
  }

  /**
   From pin to event: once a line is pinned to url, every later sync reads that URL for it, however
   many other operations come between, until its session is pinned again.
   */
  lemma PinnedURLReachesSync(states: seq<State<Raw, Change>>, m: nat, n: nat, i: nat, url: string, dummy: string)
    requires Run(Callback(), states) && m <= n < |states| && AllProper(states[n].commits)
    requires states[m].current.Some? ==> states[m].current.value < |states[m].files|
    requires states[n].current.Some? ==> states[n].current.value < |states[n].files|
    requires i < |Contents(states[m])| && WellTyped(Contents(states[m])[i]) && PinStable(Contents(states[m])[i])
    requires DecodeLoose(Contents(states[m])[i]).Bool(PRPinned) && DecodeLoose(Contents(states[m])[i]).Strs(PRURLs) == [url]
    requires states[m].commits <= states[n].commits
    requires !SomePin(states[n].commits[|states[m].commits|..], DecodeLoose(Contents(states[m])[i]).Str(SessionID))
    ensures i < |Contents(states[n])|
    ensures SyncDb.StoredURL(DecodeStrict(Contents(states[n])[i]), dummy) == if url == dummy then "" else url
  {
    PinsAreSafe(states, m, n);
    LinesAreNeverRemoved(states, m, n);
    PinnedIsHeld(Contents(states[m])[i]);
    var before, after := Contents(states[m])[i], Contents(states[n])[i];
    assert KeepsPin(before, after, states[n].commits[|states[m].commits|..]) && LineKept(before, after);
    PinKeptIsStored(before, after, url, dummy);
  }

  lemma PinKeptIsStored(before: Raw, after: Raw, url: string, dummy: string)
    requires PinKept(DecodeLoose(before), DecodeLoose(after), false) && WellTyped(after)
    requires DecodeLoose(before).Bool(PRPinned) && DecodeLoose(before).Strs(PRURLs) == [url]
    ensures SyncDb.StoredURL(DecodeStrict(after), dummy) == if url == dummy then "" else url
  {
    assert DecodeStrict(after) == DecodeLoose(after);
    PinnedURLIsStored(DecodeStrict(after), dummy);
  }
}
