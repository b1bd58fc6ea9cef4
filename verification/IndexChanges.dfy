/**
 The changes a process can make to the session index while it holds the lock, and what every one
 of them keeps: no line is lost, none becomes another session's, and none becomes unreadable.
 */
module IndexChanges {
  import opened Common
  import opened JsonLine
  import opened SessionDecoder
  import opened SessionOps
  import opened BatchApply
  import opened BatchTheorems
  import IndexLock

  datatype Change =
    | Single(op: Op)
    | Whole(batch: Batch, order: Order)
    | AppendLine(line: Raw)
    | FillUser(user: string)

  type Result = IndexLock.Result<Raw>

  /** sync-db gives an entry without a user the resolved one, dropping keys outside the schema. */
  function FillLine(raw: Raw, user: string): Raw {
    if LacksUser(raw) then MarshalSession(WithUser(DecodeStrict(raw), user)) else raw
  }

  predicate LacksUser(raw: Raw) {
    DecodeStrict(raw).Str(SessionID) != "" && DecodeStrict(raw).Str(USER_ID) == ""
  }

  function WithUser(s: Session, user: string): Session {
    Session(s.fields[USER_ID := VStr(user)])
  }

  ghost function OpsOf(change: Change): seq<Op> {
    if change.Whole? && ValidOrder(change.batch, change.order) then BatchOps(change.batch, change.order) else []
  }

  /** The line after the change, or None when the change fails on it. */
  ghost function LineResult(raw: Raw, change: Change): Option<Raw> {
    match change
    case Single(op) => EditRaw(raw, Edits(op, DecodeStrict(raw)))
    case Whole(_, _) =>
      (match CodeRun(LineState(raw, DecodeStrict(raw)), OpsOf(change))
       case None => None
       case Some(st) => Some(st.raw))
    case AppendLine(_) => Some(raw)
    case FillUser(user) => Some(FillLine(raw, user))
  }

  ghost predicate LineChanged(raw: Raw, change: Change) {
    match change
    case Single(op) => Edits(op, DecodeStrict(raw)) != []
    case Whole(_, _) => CodeEdits(LineState(raw, DecodeStrict(raw)), OpsOf(change))
    case AppendLine(_) => false
    case FillUser(_) => LacksUser(raw)
  }

  function Appended(change: Change): seq<Raw> {
    if change.AppendLine? then [change.line] else []
  }

  /** The whole callback. */
  ghost function Apply(lines: seq<Raw>, change: Change): Result {
    match Traverse((raw: Raw) => LineResult(raw, change), lines)
    case None => IndexLock.Failed
    case Some(next) =>
      IndexLock.Next(next + Appended(change),
           change.AppendLine? || exists i :: 0 <= i < |lines| && LineChanged(lines[i], change))
  }

  lemma ApplyByLine(lines: seq<Raw>, change: Change)
    requires Apply(lines, change).Next?
    ensures var next := Apply(lines, change).lines;
            && |next| == |lines| + |Appended(change)| && next[|lines|..] == Appended(change)
            && forall i :: 0 <= i < |lines| ==> LineResult(lines[i], change) == Some(next[i])
  {
    var f := (raw: Raw) => LineResult(raw, change);
    var next := Traverse(f, lines).value;
    forall i | 0 <= i < |lines|
      ensures LineResult(lines[i], change) == Some((next + Appended(change))[i])
    {
      assert f(lines[i]) == Some(next[i]);
    }
  }

  lemma {:induction false} FilledLines(before: seq<Raw>, after: seq<Raw>, user: string, changed: bool)
    requires |before| == |after|
    requires forall j :: 0 <= j < |before| ==> after[j] == FillLine(before[j], user)
    requires changed <==> exists j :: 0 <= j < |before| && LacksUser(before[j])
    ensures Apply(before, FillUser(user)) == IndexLock.Next(after, changed)
  {
    var f := (raw: Raw) => LineResult(raw, FillUser(user));
    assert forall j :: 0 <= j < |before| ==> f(before[j]) == Some(after[j]);
    assert Traverse(f, before).value == after;
    assert after + [] == after;
    assert forall j :: 0 <= j < |before| ==> (LineChanged(before[j], FillUser(user)) <==> LacksUser(before[j]));
  }

  /** The body of the write-back loop. */
  method FillOne(raw: Raw, s: Session, user: string) returns (r: Raw, filled: bool)
    requires s == DecodeStrict(raw)
    ensures r == FillLine(raw, user)
    ensures filled <==> LacksUser(raw)
  {
    if s.Str(SessionID) == "" || s.Str(USER_ID) != "" {
      return raw, false;
    }
    return MarshalSession(WithUser(s, user)), true;
  }

  /** The user write-back loop of sync-db over the latest lines. */
  method FillUsers(lines: array<Raw>, entries: seq<Session>, user: string) returns (changed: bool)
    requires DecodedFrom(entries, lines[..])
    modifies lines
    ensures Apply(old(lines[..]), FillUser(user)) == IndexLock.Next(lines[..], changed)
  {
    changed := false;
    ghost var before := lines[..];
    for i := 0 to lines.Length
      invariant FilledUpTo(before, lines[..], user, i, changed)
    {
      DecodedAt(entries, before, i);
      var line, filled := FillOne(lines[i], entries[i], user);
      ghost var now := lines[..];
      lines[i] := line;
      FilledStep(before, now, user, i, changed, line, filled);
      assert lines[..] == now[i := line];
      changed := changed || filled;
    }
    FilledLines(before, lines[..], user, changed);
  }

  ghost predicate DecodedFrom(entries: seq<Session>, lines: seq<Raw>) {
    |entries| == |lines| && forall i :: 0 <= i < |lines| ==> entries[i] == DecodeStrict(lines[i])
  }

  lemma DecodedAt(entries: seq<Session>, lines: seq<Raw>, i: nat)
    requires DecodedFrom(entries, lines) && i < |lines|
    ensures entries[i] == DecodeStrict(lines[i])
  {
  }

  /** The first n lines are done. */
  ghost predicate FilledUpTo(before: seq<Raw>, now: seq<Raw>, user: string, n: nat, changed: bool) {
    && |now| == |before| && n <= |before|
    && (forall j :: 0 <= j < n ==> now[j] == FillLine(before[j], user))
    && (forall j :: n <= j < |before| ==> now[j] == before[j])
    && (changed <==> exists j :: 0 <= j < n && LacksUser(before[j]))
  }

  lemma SomeLackUser(lines: seq<Raw>, n: nat)
    requires n < |lines|
    ensures (exists j :: 0 <= j < n + 1 && LacksUser(lines[j])) <==> (exists j :: 0 <= j < n && LacksUser(lines[j])) || LacksUser(lines[n])
  {
  }

  lemma FilledLinesSoFar(before: seq<Raw>, now: seq<Raw>, user: string, n: nat, line: Raw)
    requires |now| == |before| && n < |before| && line == FillLine(before[n], user)
    requires forall j :: 0 <= j < n ==> now[j] == FillLine(before[j], user)
    requires forall j :: n <= j < |before| ==> now[j] == before[j]
    ensures forall j :: 0 <= j < n + 1 ==> now[n := line][j] == FillLine(before[j], user)
    ensures forall j :: n + 1 <= j < |before| ==> now[n := line][j] == before[j]
  {
  }

  lemma {:induction false} FilledStep(before: seq<Raw>, now: seq<Raw>, user: string, n: nat, changed: bool, line: Raw, filled: bool)
    requires FilledUpTo(before, now, user, n, changed) && n < |before|
    requires line == FillLine(before[n], user) && (filled <==> LacksUser(before[n]))
    ensures now[n] == before[n]
    ensures FilledUpTo(before, now[n := line], user, n + 1, changed || filled)
  {
    SomeLackUser(before, n);
    FilledLinesSoFar(before, now, user, n, line);
  }

  // ---------------------------------------------------------------- fields no operation sets

  /** The schema fields that are written once: the session id, where and when it ran, and so on. */
  predicate Fixed(key: JsonKey) {
    && KindOf(key).Some? && key != USER_ID
    && key !in {BackfillChecked, PRURLs, PRPinned, EndedAt, EndReason, IsMerged, ReviewComments, ChangesRequested, PRTitle}
  }

  /**
   The field reads as it did or as a rewrite of the earlier line reads, and a rewrite of the later
   line changes nothing that one of the earlier line would not have changed.
   */
  ghost predicate FieldKept(before: Raw, after: Raw, field: JsonKey)
    requires KindOf(field).Some?
  {
    var read, kept := FieldOf(DecodeLoose(before), field), FieldOf(KeptEntry(before), field);
    var nowRead, nowKept := FieldOf(DecodeLoose(after), field), FieldOf(KeptEntry(after), field);
    (nowRead == read && nowKept == kept) || (nowRead == nowKept && (nowRead == read || nowRead == kept))
  }

  /** Every field written once is kept, and the line is no harder to read. */
  ghost predicate LineKept(before: Raw, after: Raw) {
    && (forall key :: Fixed(key) ==> FieldKept(before, after, key))
    && (WellTyped(before) ==> WellTyped(after))
  }

  lemma LineKeptTwice(a: Raw, b: Raw, c: Raw)
    requires LineKept(a, b) && LineKept(b, c)
    ensures LineKept(a, c)
  {
    forall key | Fixed(key)
      ensures FieldKept(a, c, key)
    {
      assert FieldKept(a, b, key) && FieldKept(b, c, key);
    }
  }

  lemma EditsSpareFixed(op: Op, entry: Session, field: JsonKey)
    requires Fixed(field)
    ensures forall e :: e in Edits(op, entry) ==> e.key != field
  {
    EditsTouch(op, entry);
  }

  lemma RewriteKeepsLine(raw: Raw, op: Op, entry: Session)
    ensures EditRaw(raw, Edits(op, entry)).Some? ==> LineKept(raw, EditRaw(raw, Edits(op, entry)).value)
  {
    var edits := Edits(op, entry);
    if edits != [] && EditRaw(raw, edits).Some? {
      EditsAreProper(op, entry);
      RewriteIsCanonical(raw, edits);
      forall field | Fixed(field)
        ensures FieldKept(raw, EditRaw(raw, edits).value, field)
      {
        EditsSpareFixed(op, entry, field);
        RewriteSpares(raw, edits, field);
      }
    }
  }

  lemma {:induction false} RunKeepsLine(st: LineState, ops: seq<Op>)
    ensures CodeRun(st, ops).Some? ==> LineKept(st.raw, CodeRun(st, ops).value.raw)
  {
    if ops != [] {
      RunKeepsLine(st, ops[..|ops| - 1]);
      if CodeRun(st, ops).Some? {
        var mid := CodeRun(st, ops[..|ops| - 1]).value;
        RewriteKeepsLine(mid.raw, ops[|ops| - 1], mid.entry);
        LineKeptTwice(st.raw, mid.raw, CodeRun(st, ops).value.raw);
      }
    }
  }

  /** Filling in the user shows in every other schema field of the entry as before. */
  lemma FilledEntry(raw: Raw, user: string, field: JsonKey)
    requires KindOf(field).Some? && field != USER_ID
    ensures FieldOf(DecodeLoose(FillLine(raw, user)), field) == FieldOf(DecodeLoose(raw), field)
    ensures FillLine(raw, user) == raw || Regular(FillLine(raw, user))
  {
    if LacksUser(raw) {
      var s := WithUser(DecodeStrict(raw), user);
      LoneUser(DecodeStrict(raw), user, field);
      MarshalSessionRoundTrip(s);
      StrictIsLoose(MarshalSession(s));
      assert DecodeStrict(MarshalSession(s)).Get(field, KindOf(field).value) == s.Get(field, KindOf(field).value);
    }
  }

  /** A session without a user gets this one, and no other line is touched. */
  lemma FilledUser(raw: Raw, user: string)
    ensures FieldOf(DecodeStrict(FillLine(raw, user)), USER_ID) ==
            if DecodeStrict(raw).Str(SessionID) != "" && DecodeStrict(raw).Str(USER_ID) == "" then VStr(user)
            else FieldOf(DecodeStrict(raw), USER_ID)
    ensures DecodeStrict(raw).Str(SessionID) == "" || DecodeStrict(raw).Str(USER_ID) != "" ==> FillLine(raw, user) == raw
  {
    if LacksUser(raw) {
      MarshalSessionRoundTrip(WithUser(DecodeStrict(raw), user));
    }
  }

  /** A new line goes to the end and leaves all others as they are. */
  lemma AppendKeepsLines(lines: seq<Raw>, line: Raw)
    ensures Apply(lines, AppendLine(line)) == IndexLock.Next(lines + [line], true)
  {
    var f := (raw: Raw) => LineResult(raw, AppendLine(line));
    assert forall i :: 0 <= i < |lines| ==> f(lines[i]) == Some(lines[i]);
    assert Traverse(f, lines).value == lines;
  }

  lemma LoneUser(s: Session, user: string, field: JsonKey)
    requires KindOf(field).Some? && field != USER_ID
    ensures FieldOf(WithUser(s, user), field) == FieldOf(s, field)
  {
  }

  lemma FillKeepsLine(raw: Raw, user: string)
    ensures LineKept(raw, FillLine(raw, user))
  {
    FilledEntry(raw, user, SessionID);
    forall field | Fixed(field)
      ensures FieldKept(raw, FillLine(raw, user), field)
    {
      FilledEntry(raw, user, field);
    }
  }

  lemma ChangeKeepsLine(raw: Raw, change: Change)
    requires LineResult(raw, change).Some?
    ensures LineKept(raw, LineResult(raw, change).value)
  {
    match change
    case Single(op) => RewriteKeepsLine(raw, op, DecodeStrict(raw));
    case Whole(_, _) => RunKeepsLine(LineState(raw, DecodeStrict(raw)), OpsOf(change));
    case AppendLine(_) =>
    case FillUser(user) => FillKeepsLine(raw, user);
  }

  /** Every line of the earlier version is still there, in place. */
  ghost predicate KeepsLines(before: seq<Raw>, after: seq<Raw>) {
    |before| <= |after| && forall i :: 0 <= i < |before| ==> LineKept(before[i], after[i])
  }

  /**
   No change removes a line or gives it a type error, whatever the lines hold; a field written once
   reads as before or as a rewrite of the line reads.
   */
  lemma ChangeKeepsLines(lines: seq<Raw>, change: Change)
    requires Apply(lines, change).Next?
    ensures KeepsLines(lines, Apply(lines, change).lines)
  {
    ApplyByLine(lines, change);
    forall i | 0 <= i < |lines|
      ensures LineKept(lines[i], Apply(lines, change).lines[i])
    {
      ChangeKeepsLine(lines[i], change);
    }
  }
}
