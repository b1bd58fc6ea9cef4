/**
 The single pass of a batch over the whole file: it cannot fail on regular lines, its outcome does not
 depend on map iteration order, and a second pass reports no change. What a pass may give is what
 ApplyBatchToRaw promises of the lines it leaves and of its report.
 */
module BatchFile {
  import opened Common
  import opened JsonLine
  import opened SessionDecoder
  import opened SessionOps
  import opened BatchApply
  import opened BatchTheorems
  import opened DecoderGap
  import opened PinSafety

  ghost predicate AllRegular(lines: seq<Raw>) {
    forall i :: 0 <= i < |lines| ==> Regular(lines[i])
  }

  /** A pass over freshly decoded lines, in one order of the maps, leaves these lines and reports this. */
  ghost predicate Pass(before: seq<Raw>, b: Batch, o: Order, after: seq<Raw>, updated: bool)
    requires ValidOrder(b, o)
  {
    Outcome(before, Map(DecodeStrict, before), BatchOps(b, o), after, updated)
  }

  /** On a regular line the pass is the operations one by one, in bytes and in what it reports. */
  lemma PassOnLine(raw: Raw, b: Batch, o: Order)
    requires Regular(raw) && NonEmptyKeys(b) && ValidOrder(b, o)
    ensures AgreesOn(raw, BatchOps(b, o))
  {
    RegularIsAgreeable(raw);
    BatchRefinesSingleOperations(raw, b, o);
  }

  lemma PassAt(before: seq<Raw>, b: Batch, o: Order, after: seq<Raw>, updated: bool, i: nat)
    requires NonEmptyKeys(b) && ValidOrder(b, o) && Pass(before, b, o, after, updated)
    requires i < |before| && Regular(before[i])
    ensures after[i] == LineRun(before[i], BatchOps(b, o))
  {
    PassOnLine(before[i], b, o);
  }

  lemma PassReports(before: seq<Raw>, b: Batch, o: Order, after: seq<Raw>, updated: bool)
    requires AllRegular(before) && NonEmptyKeys(b) && ValidOrder(b, o)
    requires Pass(before, b, o, after, updated)
    ensures updated <==> exists i :: 0 <= i < |before| && LineEdits(before[i], BatchOps(b, o))
  {
    forall i | 0 <= i < |before|
      ensures CodeEdits(LineState(before[i], DecodeStrict(before[i])), BatchOps(b, o)) <==> LineEdits(before[i], BatchOps(b, o))
    {
      PassOnLine(before[i], b, o);
    }
  }

  /** The pass fails on no regular line, whatever the order of the maps. */
  lemma PassSucceeds(before: seq<Raw>, b: Batch, o: Order) returns (after: seq<Raw>, updated: bool)
    requires AllRegular(before) && NonEmptyKeys(b) && ValidOrder(b, o)
    ensures Pass(before, b, o, after, updated)
    ensures !Fails(before, Map(DecodeStrict, before), BatchOps(b, o))
  {
    after := seq(|before|, i requires 0 <= i < |before| => LineRun(before[i], BatchOps(b, o)));
    updated := exists i :: 0 <= i < |before| && LineEdits(before[i], BatchOps(b, o));
    forall i | 0 <= i < |before|
      ensures AgreesOn(before[i], BatchOps(b, o))
    {
      PassOnLine(before[i], b, o);
    }
  }

  // ---------------------------------------------------------------- the report

  /** One of the operations would change the line as it is. */
  ghost predicate SomeEdits(s: Session, ops: seq<Op>) {
    exists i :: 0 <= i < |ops| && Edits(ops[i], s) != []
  }

  lemma {:induction false} SomeEditsStep(s: Session, ops: seq<Op>)
    requires ops != []
    ensures SomeEdits(s, ops) <==> SomeEdits(s, ops[..|ops| - 1]) || Edits(ops[|ops| - 1], s) != []
  {
    var front := ops[..|ops| - 1];
    assert forall i :: 0 <= i < |front| ==> front[i] == ops[i];
    if i :| 0 <= i < |ops| && Edits(ops[i], s) != [] {
      assert i < |front| ==> Edits(front[i], s) != [];
    }
  }

  lemma {:induction false} LineEditsStep(raw: Raw, ops: seq<Op>)
    requires ops != []
    ensures var mid, last := LineRun(raw, ops[..|ops| - 1]), ops[|ops| - 1];
            && (LineEdits(raw, ops) <==> LineEdits(raw, ops[..|ops| - 1]) || Edits(last, DecodeStrict(mid)) != [])
            && LineRun(raw, ops) == LineOp(mid, last)
  {
  }

  /** Operations change a line if and only if one of them would change it as it is. */
  lemma {:induction false} EditsAtOnce(raw: Raw, ops: seq<Op>)
    ensures LineEdits(raw, ops) <==> SomeEdits(DecodeStrict(raw), ops)
    ensures !LineEdits(raw, ops) ==> LineRun(raw, ops) == raw
  {
    if ops != [] {
      EditsAtOnce(raw, ops[..|ops| - 1]);
      SomeEditsStep(DecodeStrict(raw), ops);
      LineEditsStep(raw, ops);
      if !LineEdits(raw, ops) { LineOpSkips(raw, ops[|ops| - 1]); }
    }
  }

  lemma ReportIgnoresOrder(raw: Raw, b: Batch, o1: Order, o2: Order)
    requires ValidOrder(b, o1) && ValidOrder(b, o2) && LineEdits(raw, BatchOps(b, o1))
    ensures LineEdits(raw, BatchOps(b, o2))
  {
    EditsAtOnce(raw, BatchOps(b, o1));
    EditsAtOnce(raw, BatchOps(b, o2));
    var i :| 0 <= i < |BatchOps(b, o1)| && Edits(BatchOps(b, o1)[i], DecodeStrict(raw)) != [];
    SameOps(b, o2, o1, BatchOps(b, o1)[i]);
  }

  /** Whether a pass changes anything does not depend on the order of the maps, whatever the metadata. */
  lemma ReportsAgree(before: seq<Raw>, b: Batch, o1: Order, o2: Order, a1: seq<Raw>, a2: seq<Raw>, u1: bool, u2: bool)
    requires AllRegular(before) && NonEmptyKeys(b) && ValidOrder(b, o1) && ValidOrder(b, o2)
    requires Pass(before, b, o1, a1, u1) && Pass(before, b, o2, a2, u2)
    ensures u1 == u2
  {
    PassReports(before, b, o1, a1, u1);
    PassReports(before, b, o2, a2, u2);
    if i :| 0 <= i < |before| && LineEdits(before[i], BatchOps(b, o1)) {
      ReportIgnoresOrder(before[i], b, o1, o2);
    }
    if i :| 0 <= i < |before| && LineEdits(before[i], BatchOps(b, o2)) {
      ReportIgnoresOrder(before[i], b, o2, o1);
    }
  }

  // ---------------------------------------------------------------- the order of the maps

  /** No line holds URLs with different updates. */
  ghost predicate AllMetasEqual(lines: seq<Raw>, b: Batch) {
    forall i :: 0 <= i < |lines| ==> MetasEqual(MetaURLs(lines[i], b), b.prMetas)
  }

  ghost predicate AllMetasCompatible(lines: seq<Raw>, b: Batch) {
    forall i :: 0 <= i < |lines| ==> MetasCompatible(MetaURLs(lines[i], b), b.prMetas)
  }

  /** The pass gives the same bytes and the same report for every order of the maps. */
  lemma PassIgnoresOrder(before: seq<Raw>, b: Batch, o1: Order, o2: Order, a1: seq<Raw>, a2: seq<Raw>, u1: bool, u2: bool)
    requires AllRegular(before) && NonEmptyKeys(b) && ValidOrder(b, o1) && ValidOrder(b, o2) && AllMetasEqual(before, b)
    requires Pass(before, b, o1, a1, u1) && Pass(before, b, o2, a2, u2)
    ensures a1 == a2 && u1 == u2
  {
    ReportsAgree(before, b, o1, o2, a1, a2, u1, u2);
    forall i | 0 <= i < |before|
      ensures a1[i] == a2[i]
    {
      PassAt(before, b, o1, a1, u1, i);
      PassAt(before, b, o2, a2, u2, i);
      OrderDoesNotMatter(before[i], b, o1, o2);
    }
  }

  /** Two orders of the maps leave every line with the same entry. */
  ghost predicate SameEntries(a1: seq<Raw>, a2: seq<Raw>) {
    |a1| == |a2| && forall i :: 0 <= i < |a1| ==> DecodeStrict(a1[i]) == DecodeStrict(a2[i])
  }

  ghost predicate PassEntriesIgnoreOrder(before: seq<Raw>, b: Batch) {
    forall o1, o2, a1, a2, u1, u2 ::
      ValidOrder(b, o1) && ValidOrder(b, o2) && Pass(before, b, o1, a1, u1) && Pass(before, b, o2, a2, u2) ==>
        SameEntries(a1, a2)
  }

  lemma EntriesAgree(before: seq<Raw>, b: Batch, o1: Order, o2: Order, a1: seq<Raw>, a2: seq<Raw>, u1: bool, u2: bool)
    requires AllRegular(before) && NonEmptyKeys(b) && ValidOrder(b, o1) && ValidOrder(b, o2)
    requires AllMetasCompatible(before, b) && Pass(before, b, o1, a1, u1) && Pass(before, b, o2, a2, u2)
    ensures SameEntries(a1, a2)
  {
    forall i | 0 <= i < |before|
      ensures DecodeStrict(a1[i]) == DecodeStrict(a2[i])
    {
      PassAt(before, b, o1, a1, u1, i);
      PassAt(before, b, o2, a2, u2, i);
      OrderIndependenceIsExact(before[i], b, o1);
      assert FinalEntry(before[i], b, o1) == FinalEntry(before[i], b, o2);
    }
  }

  lemma EntriesDisagree(before: seq<Raw>, b: Batch, o: Order)
    requires AllRegular(before) && NonEmptyKeys(b) && ValidOrder(b, o) && !AllMetasCompatible(before, b)
    ensures !PassEntriesIgnoreOrder(before, b)
  {
    var i :| 0 <= i < |before| && !MetasCompatible(MetaURLs(before[i], b), b.prMetas);
    OrderIndependenceIsExact(before[i], b, o);
    var o1, o2 :| ValidOrder(b, o1) && ValidOrder(b, o2) && FinalEntry(before[i], b, o1) != FinalEntry(before[i], b, o2);
    var a1, u1 := PassSucceeds(before, b, o1);
    var a2, u2 := PassSucceeds(before, b, o2);
    PassAt(before, b, o1, a1, u1, i);
    PassAt(before, b, o2, a2, u2, i);
    assert DecodeStrict(a1[i]) != DecodeStrict(a2[i]);
    assert !SameEntries(a1, a2);
  }

  /**
   The entries a pass leaves are the same for every order of the maps if and only if on every line
   the metadata updates that hit it are pairwise compatible.
   */
  lemma PassOrderIsExact(before: seq<Raw>, b: Batch, o: Order)
    requires AllRegular(before) && NonEmptyKeys(b) && ValidOrder(b, o)
    ensures PassEntriesIgnoreOrder(before, b) <==> AllMetasCompatible(before, b)
  {
    if AllMetasCompatible(before, b) {
      forall o1, o2, a1, a2, u1, u2 |
        ValidOrder(b, o1) && ValidOrder(b, o2) && Pass(before, b, o1, a1, u1) && Pass(before, b, o2, a2, u2)
        ensures SameEntries(a1, a2)
      {
        EntriesAgree(before, b, o1, o2, a1, a2, u1, u2);
      }
    } else {
      EntriesDisagree(before, b, o);
    }
  }

  // ---------------------------------------------------------------- a second pass

  lemma PassKeepsRegular(before: seq<Raw>, b: Batch, o: Order, after: seq<Raw>, updated: bool)
    requires AllRegular(before) && NonEmptyKeys(b) && ValidOrder(b, o) && Pass(before, b, o, after, updated)
    ensures AllRegular(after)
  {
    BatchOpsAddressed(b, o);
    forall i | 0 <= i < |after|
      ensures Regular(after[i])
    {
      PassAt(before, b, o, after, updated, i);
      LineRunRegular(before[i], BatchOps(b, o));
    }
  }

  /** A second pass, in any order of the maps, leaves every byte alone and reports no change. */
  lemma SecondPassIsNoOp(before: seq<Raw>, b: Batch, o1: Order, o2: Order, once: seq<Raw>, twice: seq<Raw>, u1: bool, u2: bool)
    requires AllRegular(before) && NonEmptyKeys(b) && ValidOrder(b, o1) && ValidOrder(b, o2) && AllMetasCompatible(before, b)
    requires Pass(before, b, o1, once, u1) && Pass(once, b, o2, twice, u2)
    ensures twice == once && !u2
  {
    PassKeepsRegular(before, b, o1, once, u1);
    PassReports(once, b, o2, twice, u2);
    forall i | 0 <= i < |once|
      ensures twice[i] == once[i] && !LineEdits(once[i], BatchOps(b, o2))
    {
      PassAt(before, b, o1, once, u1, i);
      PassAt(once, b, o2, twice, u2, i);
      SecondApplicationIsNoOp(before[i], b, o1, o2);
    }
  }

  /** A session both pinned and resolved by one batch ends the pass with exactly the pinned URL. */
  lemma PinWinsInPass(before: seq<Raw>, b: Batch, o: Order, after: seq<Raw>, updated: bool, i: nat)
    requires NonEmptyKeys(b) && ValidOrder(b, o) && Pass(before, b, o, after, updated)
    requires i < |before| && Regular(before[i]) && SID(before[i]) in b.pinPRs
    ensures PinnedTo(after[i], b.pinPRs[SID(before[i])])
  {
    PassAt(before, b, o, after, updated, i);
    PinWinsInBatch(before[i], b, o);
  }
}
