/**
 The operations on the session index. Each one visits every line, decides from the decoded
 entry whether the line changes, and if so rewrites it one field at a time.
 */
module SessionOps {
  import opened Common
  import opened JsonLine
  import opened SessionDecoder

  datatype PRMeta = PRMeta(isMerged: bool, reviewComments: int, changesRequested: int, title: string)

  datatype EndUpdate = EndUpdate(endedAt: string, reason: string)

  datatype Op =
    | Mark(ids: set<string>)
    | Pin(pinned: string, prURL: string)
    | AddURLs(target: string, urls: seq<string>)
    | AddByBranch(repo: string, branch: string, newURL: string)
    | End(ended: string, end: EndUpdate)
    | Meta(url: string, meta: PRMeta)

  datatype Edit = Edit(key: JsonKey, value: Value)

  // ---------------------------------------------------------------- what an operation does to a line

  /** The URLs that get appended: those of add that are new, each once, in order. */
  function NewURLs(existing: seq<string>, add: seq<string>): seq<string>
    decreases |add|
  {
    if add == [] then []
    else if add[0] in existing then NewURLs(existing, add[1..])
    else [add[0]] + NewURLs(existing + [add[0]], add[1..])
  }

  lemma {:induction false} NewURLsMembers(existing: seq<string>, add: seq<string>, u: string)
    ensures u in NewURLs(existing, add) <==> u in add && u !in existing
    decreases |add|
  {
    if add != [] {
      assert u in add <==> u == add[0] || u in add[1..];
      if add[0] in existing {
        NewURLsMembers(existing, add[1..], u);
      } else {
        NewURLsMembers(existing + [add[0]], add[1..], u);
      }
    }
  }

  /** Every element is one of add and new, and follows those that occur first before it. */
  ghost predicate NewInOrder(existing: seq<string>, add: seq<string>, added: seq<string>) {
    && (forall i :: 0 <= i < |added| ==> added[i] in add && added[i] !in existing)
    && (forall i, j :: 0 <= i < j < |added| ==> FirstIn(add, added[i]) < FirstIn(add, added[j]))
  }

  lemma LaterInOrder(existing: seq<string>, add: seq<string>, rest: seq<string>)
    requires add != [] && add[0] in existing && NewInOrder(existing, add[1..], rest)
    ensures NewInOrder(existing, add, rest)
    ensures forall i :: 0 <= i < |rest| ==> 0 < FirstIn(add, rest[i])
  {
    forall i | 0 <= i < |rest|
      ensures rest[i] in add && FirstIn(add, rest[i]) == FirstIn(add[1..], rest[i]) + 1
    {
      assert rest[i] in add[1..] && rest[i] != add[0];
      assert add == [add[0]] + add[1..];
    }
  }

  lemma FirstThenLater(existing: seq<string>, add: seq<string>, rest: seq<string>)
    requires add != [] && add[0] !in existing && NewInOrder(existing + [add[0]], add[1..], rest)
    ensures NewInOrder(existing, add, [add[0]] + rest)
  {
    LaterInOrder(existing + [add[0]], add, rest);
    var added := [add[0]] + rest;
    forall i | 0 <= i < |added|
      ensures added[i] in add && added[i] !in existing
    {
      if i > 0 { assert added[i] == rest[i - 1]; }
    }
    forall i, j | 0 <= i < j < |added|
      ensures FirstIn(add, added[i]) < FirstIn(add, added[j])
    {
      assert added[j] == rest[j - 1];
      if i > 0 { assert added[i] == rest[i - 1]; }
    }
  }

  lemma {:induction false} NewURLsInOrder(existing: seq<string>, add: seq<string>)
    ensures NewInOrder(existing, add, NewURLs(existing, add))
    decreases |add|
  {
    if add != [] {
      if add[0] in existing {
        NewURLsInOrder(existing, add[1..]);
        LaterInOrder(existing, add, NewURLs(existing, add[1..]));
      } else {
        NewURLsInOrder(existing + [add[0]], add[1..]);
        FirstThenLater(existing, add, NewURLs(existing + [add[0]], add[1..]));
      }
    }
  }

  /** merged is the list with every URL of add that it lacks appended once, in the order of first occurrence in add. */
  ghost predicate MergedInOrder(existing: seq<string>, add: seq<string>, merged: seq<string>) {
    && existing <= merged
    && (forall u :: u in merged <==> u in existing || u in add)
    && (forall i :: |existing| <= i < |merged| ==> merged[i] !in existing && merged[i] in add)
    && (forall i, j :: |existing| <= i < j < |merged| ==> FirstIn(add, merged[i]) < FirstIn(add, merged[j]))
  }

  lemma NewURLsMerge(existing: seq<string>, add: seq<string>)
    ensures MergedInOrder(existing, add, existing + NewURLs(existing, add))
  {
    NewURLsInOrder(existing, add);
    forall u
      ensures u in existing + NewURLs(existing, add) <==> u in existing || u in add
    {
      NewURLsMembers(existing, add, u);
    }
  }

  /** Merging the same URLs again adds nothing. */
  lemma NewURLsExhausted(existing: seq<string>, add: seq<string>)
    ensures NewURLs(existing + NewURLs(existing, add), add) == []
    ensures NewURLs(existing, add) == [] <==> forall u :: u in add ==> u in existing
  {
    var merged := existing + NewURLs(existing, add);
    forall u
      ensures u !in NewURLs(merged, add)
      ensures u in NewURLs(existing, add) <==> u in add && u !in existing
    {
      NewURLsMembers(existing, add, u);
      NewURLsMembers(merged, add, u);
    }
    assert NewURLs(merged, add) != [] ==> NewURLs(merged, add)[0] in NewURLs(merged, add);
    assert NewURLs(existing, add) != [] ==> NewURLs(existing, add)[0] in NewURLs(existing, add);
  }

  /** appendUniqueURLs: keeps the existing list as it is, duplicates included. */
  method AppendUniqueURLs(existing: seq<string>, add: seq<string>) returns (merged: seq<string>, added: bool)
    ensures merged == existing + NewURLs(existing, add)
    ensures added <==> exists u :: u in add && u !in existing
    ensures MergedInOrder(existing, add, merged)
  {
    var seen := set u | u in existing;
    merged := existing;
    added := false;
    for i := 0 to |add|
      invariant seen == set u | u in merged
      invariant existing <= merged
      invariant added <==> merged != existing
      invariant merged + NewURLs(merged, add[i..]) == existing + NewURLs(existing, add)
    {
      assert add[i..][1..] == add[i + 1..];
      if add[i] !in seen {
        assert merged + ([add[i]] + NewURLs(merged + [add[i]], add[i + 1..]))
            == (merged + [add[i]]) + NewURLs(merged + [add[i]], add[i + 1..]);
        seen := seen + {add[i]};
        merged := merged + [add[i]];
        added := true;
      }
    }
    assert add[|add|..] == [];
    assert merged + [] == merged;
    assert merged == existing + NewURLs(existing, add);
    NewURLsMerge(existing, add);
    NewURLsExhausted(existing, add);
  }

  /** Drops a trailing ".git". */
  function NormalizeRepo(repo: string): string {
    if |repo| >= 4 && repo[|repo| - 4..] == ".git" then repo[..|repo| - 4] else repo
  }

  /** One ".git" at the end does not count, and nothing else is dropped. */
  lemma NormalizeRepoExactly(repo: string, stem: string)
    ensures NormalizeRepo(stem + ".git") == stem
    ensures (forall x :: repo != x + ".git") ==> NormalizeRepo(repo) == repo
  {
    var n := |repo| - 4;
    if n >= 0 && repo[n..] == ".git" { assert repo == repo[..n] + ".git"; }
  }

  predicate SameMeta(s: Session, meta: PRMeta) {
    && s.Bool(IsMerged) == meta.isMerged
    && s.Int(ReviewComments) == meta.reviewComments
    && s.Int(ChangesRequested) == meta.changesRequested
    && (meta.title == "" || s.Str(PRTitle) == meta.title)
  }

  function MetaEdits(meta: PRMeta): seq<Edit> {
    [Edit(IsMerged, VBool(meta.isMerged)),
     Edit(ReviewComments, VNum(meta.reviewComments)),
     Edit(ChangesRequested, VNum(meta.changesRequested))]
    + (if meta.title == "" then [] else [Edit(PRTitle, VStr(meta.title))])
  }

  function AddEdits(s: Session, add: seq<string>): seq<Edit> {
    if s.Bool(PRPinned) || NewURLs(s.Strs(PRURLs), add) == [] then []
    else [Edit(PRURLs, VStrs(s.Strs(PRURLs) + NewURLs(s.Strs(PRURLs), add)))]
  }

  /** The fields an operation sets on a line whose decoded entry is s; none when it leaves the line alone. */
  function Edits(op: Op, s: Session): seq<Edit> {
    match op
    case Mark(ids) =>
      if s.Str(SessionID) in ids && !s.Bool(BackfillChecked) then [Edit(BackfillChecked, VBool(true))] else []
    case Pin(sid, url) =>
      if s.Str(SessionID) == sid && !(s.Bool(PRPinned) && s.Strs(PRURLs) == [url]) then
        [Edit(PRURLs, VStrs([url])), Edit(PRPinned, VBool(true))]
      else []
    case AddURLs(sid, urls) =>
      if s.Str(SessionID) == sid then AddEdits(s, urls) else []
    case AddByBranch(repo, branch, url) =>
      if NormalizeRepo(s.Str(Repo)) == NormalizeRepo(repo) && s.Str(Branch) == branch then AddEdits(s, [url])
      else []
    case End(sid, end) =>
      if s.Str(SessionID) == sid && !(s.Str(EndedAt) == end.endedAt && s.Str(EndReason) == end.reason) then
        [Edit(EndedAt, VStr(end.endedAt)), Edit(EndReason, VStr(end.reason))]
      else []
    case Meta(url, meta) =>
      if url in s.Strs(PRURLs) && !SameMeta(s, meta) then MetaEdits(meta) else []
  }

  /** Rewrites a line one field at a time; None is the decoding error of the first rewrite. */
  ghost function EditRaw(raw: Raw, edits: seq<Edit>): Option<Raw>
    decreases |edits|
  {
    if edits == [] then Some(raw)
    else
      match Remarshaled(raw, edits[0].key, edits[0].value)
      case None => None
      case Some(next) => EditRaw(next, edits[1..])
  }

  function SetAll(m: Object, edits: seq<Edit>): Object
    decreases |edits|
  {
    if edits == [] then m else SetAll(m[edits[0].key := Encode(edits[0].value)], edits[1..])
  }

  lemma OneSet(m: Object, e: Edit)
    ensures SetAll(m, [e]) == m[e.key := Encode(e.value)]
  {
    assert [e][1..] == [];
  }

  lemma TwoSet(m: Object, e1: Edit, e2: Edit)
    ensures SetAll(m, [e1, e2]) == m[e1.key := Encode(e1.value)][e2.key := Encode(e2.value)]
  {
    assert [e1, e2][1..] == [e2];
    OneSet(m[e1.key := Encode(e1.value)], e2);
  }

  lemma MetaSet(m: Object, meta: PRMeta)
    ensures SetAll(m, MetaEdits(meta)) ==
            var three := m[IsMerged := Encode(VBool(meta.isMerged))][ReviewComments := Encode(VNum(meta.reviewComments))]
                          [ChangesRequested := Encode(VNum(meta.changesRequested))];
            if meta.title == "" then three else three[PRTitle := Encode(VStr(meta.title))]
  {
    var edits := MetaEdits(meta);
    var one := m[IsMerged := Encode(VBool(meta.isMerged))];
    var two := one[ReviewComments := Encode(VNum(meta.reviewComments))];
    assert SetAll(m, edits) == SetAll(one, edits[1..]);
    assert SetAll(one, edits[1..]) == SetAll(two, edits[1..][1..]);
    assert edits[1..][1..] == edits[2..];
    if meta.title == "" {
      assert edits[2..] == [Edit(ChangesRequested, VNum(meta.changesRequested))];
      OneSet(two, edits[2]);
    } else {
      assert edits[2..] == [Edit(ChangesRequested, VNum(meta.changesRequested)), Edit(PRTitle, VStr(meta.title))];
      TwoSet(two, edits[2], edits[3]);
    }
  }

  /** Rewriting field by field has the effect of setting all fields and printing once. */
  lemma {:induction false} EditRawSetsAll(raw: Raw, edits: seq<Edit>)
    requires edits != []
    ensures EditRaw(raw, edits) == match ParseObject(raw) case None => None case Some(m) => Some(Print(SetAll(m, edits)))
    decreases |edits|
  {
    if ParseObject(raw).Some? {
      var m := ParseObject(raw).value;
      var next := m[edits[0].key := Encode(edits[0].value)];
      PrintParse(next);
      if |edits| == 1 {
        assert edits[1..] == [];
      } else {
        EditRawSetsAll(Print(next), edits[1..]);
      }
    }
  }

  // ---------------------------------------------------------------- the loops over the file

  /** after is the outcome of op on every line, decided from the given decoded entries. */
  ghost predicate Applied(op: Op, sessions: seq<Session>, before: seq<Raw>, after: seq<Raw>, updated: bool) {
    && |sessions| == |before| == |after|
    && (forall i :: 0 <= i < |before| ==> EditRaw(before[i], Edits(op, sessions[i])) == Some(after[i]))
    && (updated <==> exists i :: 0 <= i < |before| && Edits(op, sessions[i]) != [])
  }

  ghost predicate Rejected(op: Op, sessions: seq<Session>, before: seq<Raw>) {
    && |sessions| == |before|
    && exists i :: 0 <= i < |before| && EditRaw(before[i], Edits(op, sessions[i])) == None
  }

  lemma OneEdit(raw: Raw, e: Edit)
    ensures EditRaw(raw, [e]) == Remarshaled(raw, e.key, e.value)
  {
    assert [e][1..] == [];
  }

  lemma TwoEdits(raw: Raw, e1: Edit, e2: Edit)
    ensures EditRaw(raw, [e1, e2]) ==
            match Remarshaled(raw, e1.key, e1.value) case None => None case Some(r) => Remarshaled(r, e2.key, e2.value)
  {
    assert [e1, e2][1..] == [e2];
    if Remarshaled(raw, e1.key, e1.value).Some? {
      OneEdit(Remarshaled(raw, e1.key, e1.value).value, e2);
    }
  }

  /** Rewrites the metadata fields of one line. */
  method WriteMeta(raw: Raw, meta: PRMeta) returns (r: Option<Raw>)
    ensures r == EditRaw(raw, MetaEdits(meta))
  {
    ghost var edits := MetaEdits(meta);
    r := RemarshalWithUpdate(raw, IsMerged, VBool(meta.isMerged));
    if r.None? { return; }
    assert EditRaw(raw, edits) == EditRaw(r.value, edits[1..]);
    ghost var raw1 := r.value;
    r := RemarshalWithUpdate(r.value, ReviewComments, VNum(meta.reviewComments));
    if r.None? { return; }
    assert EditRaw(raw1, edits[1..]) == EditRaw(r.value, edits[1..][1..]);
    assert edits[1..][1..] == edits[2..];
    ghost var raw2 := r.value;
    r := RemarshalWithUpdate(r.value, ChangesRequested, VNum(meta.changesRequested));
    if r.None? { return; }
    assert EditRaw(raw2, edits[2..]) == EditRaw(r.value, edits[2..][1..]);
    if meta.title != "" {
      assert edits[2..][1..] == [Edit(PRTitle, VStr(meta.title))];
      OneEdit(r.value, Edit(PRTitle, VStr(meta.title)));
      r := RemarshalWithUpdate(r.value, PRTitle, VStr(meta.title));
    } else {
      assert edits[2..][1..] == [];
    }
  }

  method WritePin(raw: Raw, url: string) returns (r: Option<Raw>)
    ensures r == EditRaw(raw, [Edit(PRURLs, VStrs([url])), Edit(PRPinned, VBool(true))])
  {
    TwoEdits(raw, Edit(PRURLs, VStrs([url])), Edit(PRPinned, VBool(true)));
    r := RemarshalWithUpdate(raw, PRURLs, VStrs([url]));
    if r.Some? {
      r := RemarshalWithUpdate(r.value, PRPinned, VBool(true));
    }
  }

  method WriteEnd(raw: Raw, end: EndUpdate) returns (r: Option<Raw>)
    ensures r == EditRaw(raw, [Edit(EndedAt, VStr(end.endedAt)), Edit(EndReason, VStr(end.reason))])
  {
    TwoEdits(raw, Edit(EndedAt, VStr(end.endedAt)), Edit(EndReason, VStr(end.reason)));
    r := RemarshalWithUpdate(raw, EndedAt, VStr(end.endedAt));
    if r.Some? {
      r := RemarshalWithUpdate(r.value, EndReason, VStr(end.reason));
    }
  }

  /** Appends the URLs that are new to an unpinned entry. */
  method WriteURLs(raw: Raw, s: Session, add: seq<string>) returns (r: Option<Raw>, edited: bool)
    ensures r == EditRaw(raw, AddEdits(s, add))
    ensures edited <==> AddEdits(s, add) != []
  {
    if s.Bool(PRPinned) {
      return Some(raw), false;
    }
    NewURLsExhausted(s.Strs(PRURLs), add);
    var merged, added := AppendUniqueURLs(s.Strs(PRURLs), add);
    if !added {
      return Some(raw), false;
    }
    OneEdit(raw, Edit(PRURLs, VStrs(merged)));
    r := RemarshalWithUpdate(raw, PRURLs, VStrs(merged));
    edited := true;
  }

  /** The loop body of each operation: skip the line, or rewrite it field by field. */
  method RewriteLine(raw: Raw, s: Session, op: Op) returns (r: Option<Raw>, edited: bool)
    ensures r == EditRaw(raw, Edits(op, s))
    ensures edited <==> Edits(op, s) != []
  {
    r, edited := Some(raw), false;
    match op
    case Mark(ids) =>
      if s.Str(SessionID) in ids && !s.Bool(BackfillChecked) {
        OneEdit(raw, Edit(BackfillChecked, VBool(true)));
        r := RemarshalWithUpdate(raw, BackfillChecked, VBool(true));
        edited := true;
      }
    case Pin(sid, url) =>
      if s.Str(SessionID) == sid {
        var urls := s.Strs(PRURLs);
        var alreadyPinned := s.Bool(PRPinned) && |urls| == 1 && urls[0] == url;
        if !alreadyPinned {
          r := WritePin(raw, url);
          edited := true;
        }
      }
    case AddURLs(sid, urls) =>
      if s.Str(SessionID) == sid {
        r, edited := WriteURLs(raw, s, urls);
      }
    case AddByBranch(repo, branch, url) =>
      if NormalizeRepo(s.Str(Repo)) == NormalizeRepo(repo) && s.Str(Branch) == branch {
        r, edited := WriteURLs(raw, s, [url]);
      }
    case End(sid, end) =>
      if s.Str(SessionID) == sid && !(s.Str(EndedAt) == end.endedAt && s.Str(EndReason) == end.reason) {
        r := WriteEnd(raw, end);
        edited := true;
      }
    case Meta(url, meta) =>
      if url in s.Strs(PRURLs) {
        var sameTitle := meta.title == "" || s.Str(PRTitle) == meta.title;
        if !(s.Bool(IsMerged) == meta.isMerged && s.Int(ReviewComments) == meta.reviewComments &&
             s.Int(ChangesRequested) == meta.changesRequested && sameTitle) {
          r := WriteMeta(raw, meta);
          edited := true;
        }
      }
  }

  /**
   The loop shared by all operations: lines are overwritten in place, and the first line that
   cannot be rewritten ends the operation with an error.
   */
  method ApplyToLines(raws: array<Raw>, sessions: seq<Session>, op: Op) returns (ok: bool, updated: bool)
    requires |sessions| == raws.Length
    modifies raws
    ensures ok ==> Applied(op, sessions, old(raws[..]), raws[..], updated)
    ensures !ok ==> Rejected(op, sessions, old(raws[..]))
  {
    ok, updated := true, false;
    ghost var before := raws[..];
    for i := 0 to raws.Length
      invariant AppliedUpTo(op, sessions, before, raws[..], i, updated)
    {
      var r, edited := RewriteLine(raws[i], sessions[i], op);
      if r.None? {
        ok := false;
        return;
      }
      ghost var now := raws[..];
      raws[i] := r.value;
      AppliedNext(op, sessions, before, now, i, updated, r.value, edited);
      assert raws[..] == now[i := r.value];
      updated := updated || edited;
    }
  }

  /** The first n lines are done. */
  ghost predicate AppliedUpTo(op: Op, sessions: seq<Session>, before: seq<Raw>, now: seq<Raw>, n: nat, updated: bool) {
    && |sessions| == |before| == |now| && n <= |before|
    && (forall j :: 0 <= j < n ==> EditRaw(before[j], Edits(op, sessions[j])) == Some(now[j]))
    && (forall j :: n <= j < |before| ==> now[j] == before[j])
    && (updated <==> exists j :: 0 <= j < n && Edits(op, sessions[j]) != [])
  }

  lemma AppliedNext(op: Op, sessions: seq<Session>, before: seq<Raw>, now: seq<Raw>, n: nat, updated: bool, line: Raw, edited: bool)
    requires AppliedUpTo(op, sessions, before, now, n, updated) && n < |before|
    requires EditRaw(before[n], Edits(op, sessions[n])) == Some(line) && (edited <==> Edits(op, sessions[n]) != [])
    ensures AppliedUpTo(op, sessions, before, now[n := line], n + 1, updated || edited)
  {
  }

  // ---------------------------------------------------------------- one operation with a fresh decode

  /** The callers of the single operations refuse empty identifiers before taking the lock. */
  predicate Addressed(op: Op) {
    match op
    case Mark(ids) => "" !in ids
    case Pin(sid, url) => sid != "" && url != ""
    case AddURLs(sid, urls) => sid != ""
    case AddByBranch(repo, branch, url) => repo != "" && branch != "" && url != ""
    case End(sid, end) => sid != "" && end.endedAt != ""
    case Meta(url, meta) => url != ""
  }

  /** The effect of one operation on one line, decoding it first. */
  ghost function LineOp(raw: Raw, op: Op): Raw {
    match EditRaw(raw, Edits(op, DecodeStrict(raw)))
    case Some(r) => r
    case None => raw
  }

  function SetFields(s: Session, edits: seq<Edit>): Session
    decreases |edits|
  {
    if edits == [] then s else SetFields(Session(s.fields[edits[0].key := edits[0].value]), edits[1..])
  }

  /** The effect of one operation on a decoded entry. */
  function SessionOp(s: Session, op: Op): Session {
    SetFields(s, Edits(op, s))
  }

  predicate ProperEdits(edits: seq<Edit>) {
    forall e :: e in edits ==> Proper(e)
  }

  predicate Proper(e: Edit) {
    KindOf(e.key).Some? && OfKind(e.value, KindOf(e.key).value)
  }

  lemma OneProper(e: Edit)
    requires Proper(e)
    ensures ProperEdits([e])
  {
  }

  lemma TwoProper(e1: Edit, e2: Edit)
    requires Proper(e1) && Proper(e2)
    ensures ProperEdits([e1, e2])
  {
  }

  lemma EditsAreProper(op: Op, s: Session)
    ensures ProperEdits(Edits(op, s))
  {
    if Edits(op, s) != [] {
      match op
      case Mark(_) => OneProper(Edit(BackfillChecked, VBool(true)));
      case Pin(_, url) => TwoProper(Edit(PRURLs, VStrs([url])), Edit(PRPinned, VBool(true)));
      case AddURLs(_, urls) => OneProper(AddEdits(s, urls)[0]);
      case AddByBranch(_, _, url) => OneProper(AddEdits(s, [url])[0]);
      case End(_, end) => TwoProper(Edit(EndedAt, VStr(end.endedAt)), Edit(EndReason, VStr(end.reason)));
      case Meta(_, meta) => MetaEditsAreProper(meta);
    }
  }

  lemma MetaEditsAreProper(meta: PRMeta)
    ensures ProperEdits(MetaEdits(meta))
  {
    forall e | e in MetaEdits(meta)
      ensures Proper(e)
    {
    }
  }

  /** An operation with non-empty identifiers leaves lines without a decoded entry alone. */
  lemma EmptySessionUntouched(op: Op)
    requires Addressed(op)
    ensures Edits(op, EMPTY_SESSION) == []
  {
    if op.AddByBranch? {
      assert EMPTY_SESSION.Str(Branch) == "";
    }
  }

  lemma {:induction false} UsableAfterAll(m: Object, edits: seq<Edit>)
    requires ProperEdits(edits)
    ensures UsableFields(SetAll(m, edits)) == SetFields(Session(UsableFields(m)), edits).fields
    decreases |edits|
  {
    if edits != [] {
      assert edits[0] in edits && Proper(edits[0]);
      UsableAfterUpdate(m, edits[0].key, edits[0].value);
      UsableAfterAll(m[edits[0].key := Encode(edits[0].value)], edits[1..]);
    }
  }

  lemma {:induction false} SetAllKeepsTypes(m: Object, edits: seq<Edit>)
    requires ProperEdits(edits)
    ensures WellTypedObject(m) ==> WellTypedObject(SetAll(m, edits))
    ensures NoVariants(m) ==> NoVariants(SetAll(m, edits))
    decreases |edits|
  {
    if edits != [] {
      assert edits[0] in edits && Proper(edits[0]);
      UpdateKeepsTypes(m, edits[0].key, edits[0].value);
      SetAllKeepsTypes(m[edits[0].key := Encode(edits[0].value)], edits[1..]);
    }
  }

  lemma {:induction false} SetAllSpares(m: Object, edits: seq<Edit>, field: JsonKey)
    requires ProperEdits(edits) && KindOf(field).Some? && forall e :: e in edits ==> e.key != field
    ensures KeptField(SetAll(m, edits), field) == KeptField(m, field)
    decreases |edits|
  {
    if edits != [] {
      assert edits[0] in edits && Proper(edits[0]);
      SetSparesOthers(m, edits[0].key, Encode(edits[0].value), field);
      SetAllSpares(m[edits[0].key := Encode(edits[0].value)], edits[1..], field);
    }
  }

  /** A line that some operation would edit is an object. */
  lemma EditedIsObject(raw: Raw, op: Op)
    requires Addressed(op) && Edits(op, DecodeStrict(raw)) != []
    ensures ParseObject(raw).Some? && WellTyped(raw)
  {
    EmptySessionUntouched(op);
  }

  /** A rewritten line is canonical, so a further rewrite changes nothing else, and has no new type error. */
  lemma RewriteIsCanonical(raw: Raw, edits: seq<Edit>)
    requires ProperEdits(edits) && edits != []
    ensures EditRaw(raw, edits).Some? <==> ParseObject(raw).Some?
    ensures EditRaw(raw, edits).Some? ==>
              var r := EditRaw(raw, edits).value;
              && r == Print(SetAll(ParseObject(raw).value, edits)) && ParseObject(r) == Some(SetAll(ParseObject(raw).value, edits))
              && KeptEntry(r) == DecodeLoose(r)
              && (WellTyped(raw) ==> WellTyped(r)) && (NoVariantIn(raw) ==> NoVariantIn(r))
  {
    EditRawSetsAll(raw, edits);
    if ParseObject(raw).Some? {
      var m := ParseObject(raw).value;
      SetAllKeepsTypes(m, edits);
      PrintParse(SetAll(m, edits));
      PrintIsCanonical(SetAll(m, edits));
      PrintWellTyped(SetAll(m, edits));
      if WellTyped(raw) { RewriteKeepsTypes(raw); }
    }
  }

  /** What a rewrite does not set shows in the rewritten line as the rewrite kept it. */
  lemma RewriteSpares(raw: Raw, edits: seq<Edit>, field: JsonKey)
    requires ProperEdits(edits) && edits != [] && EditRaw(raw, edits).Some?
    requires KindOf(field).Some? && forall e :: e in edits ==> e.key != field
    ensures FieldOf(DecodeLoose(EditRaw(raw, edits).value), field) == FieldOf(KeptEntry(raw), field)
  {
    RewriteIsCanonical(raw, edits);
    SetAllSpares(ParseObject(raw).value, edits, field);
  }

  /** A line without other spellings decodes after a rewrite to what the rewrite keeps of it, with the new fields set. */
  lemma RewriteDecodes(raw: Raw, edits: seq<Edit>)
    requires ProperEdits(edits) && edits != [] && EditRaw(raw, edits).Some? && NoVariantIn(raw)
    ensures var r := EditRaw(raw, edits).value;
            DecodeLoose(r) == SetFields(KeptEntry(raw), edits) && (WellTyped(raw) ==> Regular(r))
  {
    RewriteIsCanonical(raw, edits);
    var m := ParseObject(raw).value;
    SetAllKeepsTypes(m, edits);
    PrintDecodes(m);
    PrintDecodes(SetAll(m, edits));
    UsableAfterAll(m, edits);
  }

  /** What an operation makes of a line without a type error, whatever keys it repeats or spells differently. */
  lemma LineOpRewrites(raw: Raw, op: Op)
    requires WellTyped(raw) && Addressed(op)
    ensures EditRaw(raw, Edits(op, DecodeStrict(raw))) == Some(LineOp(raw, op)) && WellTyped(LineOp(raw, op))
    ensures Edits(op, DecodeStrict(raw)) == [] ==> LineOp(raw, op) == raw
    ensures Edits(op, DecodeStrict(raw)) != [] ==>
              && ParseObject(raw).Some?
              && LineOp(raw, op) == Print(SetAll(ParseObject(raw).value, Edits(op, DecodeStrict(raw))))
              && DecodeStrict(LineOp(raw, op)) == KeptEntry(LineOp(raw, op))
              && (NoVariantIn(raw) ==> DecodeStrict(LineOp(raw, op)) == SetFields(KeptEntry(raw), Edits(op, DecodeStrict(raw))))
  {
    var edits := Edits(op, DecodeStrict(raw));
    if edits != [] {
      EditedIsObject(raw, op);
      EditsAreProper(op, DecodeStrict(raw));
      RewriteIsCanonical(raw, edits);
      if NoVariantIn(raw) { RewriteDecodes(raw, edits); }
    }
  }

  /** The fields an operation does not set show afterwards as the rewrite kept them. */
  lemma LineOpSpares(raw: Raw, op: Op, field: JsonKey)
    requires WellTyped(raw) && Addressed(op) && Edits(op, DecodeStrict(raw)) != []
    requires KindOf(field).Some? && forall e :: e in Edits(op, DecodeStrict(raw)) ==> e.key != field
    ensures FieldOf(DecodeStrict(LineOp(raw, op)), field) == FieldOf(KeptEntry(raw), field)
  {
    LineOpRewrites(raw, op);
    EditsAreProper(op, DecodeStrict(raw));
    RewriteSpares(raw, Edits(op, DecodeStrict(raw)), field);
  }

  lemma RegularRewrite(raw: Raw, edits: seq<Edit>)
    requires Regular(raw) && ProperEdits(edits) && edits != [] && EditRaw(raw, edits).Some?
    ensures Regular(EditRaw(raw, edits).value)
    ensures DecodeStrict(EditRaw(raw, edits).value) == SetFields(DecodeStrict(raw), edits)
  {
    RewriteDecodes(raw, edits);
    StrictIsLoose(raw);
    StrictIsLoose(EditRaw(raw, edits).value);
  }

  lemma StrictIsLoose(raw: Raw)
    requires WellTyped(raw)
    ensures DecodeStrict(raw) == DecodeLoose(raw)
  {
  }

  /** What a regular line looks like after an operation, as text and as an entry. */
  lemma LineOpMeaning(raw: Raw, op: Op)
    requires Regular(raw) && Addressed(op)
    ensures Regular(LineOp(raw, op))
    ensures EditRaw(raw, Edits(op, DecodeStrict(raw))) == Some(LineOp(raw, op))
    ensures Edits(op, DecodeStrict(raw)) == [] ==> LineOp(raw, op) == raw
    ensures Edits(op, DecodeStrict(raw)) != [] ==>
              && ParseObject(raw).Some?
              && LineOp(raw, op) == Print(SetAll(ParseObject(raw).value, Edits(op, DecodeStrict(raw))))
    ensures DecodeStrict(LineOp(raw, op)) == SessionOp(DecodeStrict(raw), op)
  {
    var edits := Edits(op, DecodeStrict(raw));
    LineOpRewrites(raw, op);
    if edits != [] {
      EditsAreProper(op, DecodeStrict(raw));
      RegularRewrite(raw, edits);
    }
  }
}
