/** Lines that show each of the exact conditions on irregular lines failing. */
module IrregularExamples {
  import opened Common
  import opened JsonLine
  import opened SessionDecoder
  import opened SessionOps
  import opened DecoderGap
  import opened IndexChanges
  import opened PinSafety
  import opened Backlog
  import opened IrregularLines

  // ---------------------------------------------------------------- what a line with given pairs reads and keeps

  lemma {:induction false} NoValues(es: seq<Entry>, field: JsonKey)
    requires forall k :: 0 <= k < |es| ==> Fills(es[k].key) != Some(field)
    ensures ValuesOf(es, field) == []
  {
    if es != [] {
      NoValues(es[..|es| - 1], field);
    }
  }

  lemma {:induction false} OneValue(es: seq<Entry>, field: JsonKey, i: nat)
    requires i < |es| && Fills(es[i].key) == Some(field)
    requires forall k :: 0 <= k < |es| && k != i ==> Fills(es[k].key) != Some(field)
    ensures ValuesOf(es, field) == [es[i].value.meaning]
  {
    if i == |es| - 1 {
      NoValues(es[..|es| - 1], field);
    } else {
      OneValue(es[..|es| - 1], field, i);
    }
  }

  /** The field is filled by the listed pairs and no others. */
  predicate FilledAt(es: seq<Entry>, field: JsonKey, at: set<nat>) {
    forall k :: 0 <= k < |es| ==> (Fills(es[k].key) == Some(field) <==> k in at)
  }

  lemma {:induction false} FilledInFront(es: seq<Entry>, field: JsonKey, at: set<nat>)
    requires es != [] && FilledAt(es, field, at)
    ensures FilledAt(es[..|es| - 1], field, at - {|es| - 1})
    ensures ValuesOf(es, field) == ValuesOf(es[..|es| - 1], field) +
              (if |es| - 1 in at then [es[|es| - 1].value.meaning] else [])
  {
  }

  lemma {:induction false} OneFilled(es: seq<Entry>, field: JsonKey, i: nat)
    requires i < |es| && FilledAt(es, field, {i})
    ensures ValuesOf(es, field) == [es[i].value.meaning]
  {
    OneValue(es, field, i);
  }

  lemma {:induction false} TwoFilledLast(es: seq<Entry>, field: JsonKey, i: nat)
    requires i < |es| - 1 && FilledAt(es, field, {i, |es| - 1})
    ensures ValuesOf(es, field) == [es[i].value.meaning, es[|es| - 1].value.meaning]
  {
    FilledInFront(es, field, {i, |es| - 1});
    assert {i, |es| - 1} - {|es| - 1} == {i};
    OneFilled(es[..|es| - 1], field, i);
  }

  lemma {:induction false} TwoFilled(es: seq<Entry>, field: JsonKey, i: nat, j: nat)
    requires i < j < |es| && FilledAt(es, field, {i, j})
    ensures ValuesOf(es, field) == [es[i].value.meaning, es[j].value.meaning]
  {
    if j == |es| - 1 {
      TwoFilledLast(es, field, i);
    } else {
      FilledInFront(es, field, {i, j});
      assert {i, j} - {|es| - 1} == {i, j};
      TwoFilled(es[..|es| - 1], field, i, j);
    }
  }

  lemma {:induction false} TwoValues(es: seq<Entry>, field: JsonKey, i: nat, j: nat)
    requires i < j < |es| && Fills(es[i].key) == Some(field) && Fills(es[j].key) == Some(field)
    requires forall k :: 0 <= k < |es| && k != i && k != j ==> Fills(es[k].key) != Some(field)
    ensures ValuesOf(es, field) == [es[i].value.meaning, es[j].value.meaning]
  {
    TwoFilled(es, field, i, j);
  }

  lemma FillWithTwo(kind: Kind, a: Value, b: Value)
    ensures Fill(kind, EMPTY_SLOT, [a, b]) == NextSlot(NextSlot(EMPTY_SLOT, kind, a), kind, b)
  {
    assert [a, b][..1] == [a];
    FillWithOne(kind, a);
  }

  lemma {:induction false} FieldReads(raw: Raw, es: seq<Entry>, field: JsonKey)
    requires Entries(raw) == Some(es) && KindOf(field).Some?
    ensures FieldOf(DecodeLoose(raw), field) ==
            Reads(Fill(KindOf(field).value, EMPTY_SLOT, ValuesOf(es, field)), KindOf(field).value)
  {
    DecodesByField(es, field);
  }

  lemma {:induction false} FieldKeeps(raw: Raw, es: seq<Entry>, field: JsonKey)
    requires Entries(raw) == Some(es) && KindOf(field).Some? && NoVariantKeys(es)
    ensures var vs := ValuesOf(es, field);
            FieldOf(KeptEntry(raw), field) ==
            Reads(Fill(KindOf(field).value, EMPTY_SLOT, if vs == [] then [] else [vs[|vs| - 1]]), KindOf(field).value)
  {
    NoVariantKeysOf(es);
    KeptByField(LastWins(es), field);
    NoVariantValues(LastWins(es), field);
    LastOfOwnValues(es, field);
  }

  lemma {:induction false} ReadsNone(raw: Raw, es: seq<Entry>, field: JsonKey)
    requires Entries(raw) == Some(es) && KindOf(field).Some?
    requires forall k :: 0 <= k < |es| ==> Fills(es[k].key) != Some(field)
    ensures FieldOf(DecodeLoose(raw), field) == Zero(KindOf(field).value)
  {
    NoValues(es, field);
    FieldReads(raw, es, field);
  }

  lemma {:induction false} KeepsNone(raw: Raw, es: seq<Entry>, field: JsonKey)
    requires Entries(raw) == Some(es) && KindOf(field).Some? && NoVariantKeys(es)
    requires forall k :: 0 <= k < |es| ==> Fills(es[k].key) != Some(field)
    ensures FieldOf(KeptEntry(raw), field) == Zero(KindOf(field).value)
  {
    NoValues(es, field);
    FieldKeeps(raw, es, field);
  }

  lemma {:induction false} ReadsOne(raw: Raw, es: seq<Entry>, field: JsonKey, i: nat)
    requires Entries(raw) == Some(es) && KindOf(field).Some? && i < |es| && Fills(es[i].key) == Some(field)
    requires forall k :: 0 <= k < |es| && k != i ==> Fills(es[k].key) != Some(field)
    ensures var kind := KindOf(field).value;
            FieldOf(DecodeLoose(raw), field) == Reads(NextSlot(EMPTY_SLOT, kind, es[i].value.meaning), kind)
  {
    OneValue(es, field, i);
    FieldReads(raw, es, field);
    FillWithOne(KindOf(field).value, es[i].value.meaning);
  }

  /** A repeated field reads both values one after the other, and a rewrite keeps the second. */
  lemma {:induction false} ReadsTwo(raw: Raw, es: seq<Entry>, field: JsonKey, i: nat, j: nat)
    requires Entries(raw) == Some(es) && KindOf(field).Some?
    requires i < j < |es| && Fills(es[i].key) == Some(field) && Fills(es[j].key) == Some(field)
    requires forall k :: 0 <= k < |es| && k != i && k != j ==> Fills(es[k].key) != Some(field)
    ensures var kind, first, second := KindOf(field).value, es[i].value.meaning, es[j].value.meaning;
            && FieldOf(DecodeLoose(raw), field) == Reads(NextSlot(NextSlot(EMPTY_SLOT, kind, first), kind, second), kind)
            && (NoVariantKeys(es) ==> FieldOf(KeptEntry(raw), field) == Reads(NextSlot(EMPTY_SLOT, kind, second), kind))
  {
    TwoValues(es, field, i, j);
    FieldReads(raw, es, field);
    FillWithTwo(KindOf(field).value, es[i].value.meaning, es[j].value.meaning);
    if NoVariantKeys(es) {
      FieldKeeps(raw, es, field);
      FillWithOne(KindOf(field).value, es[j].value.meaning);
    }
  }

  lemma {:induction false} ReadsWell(raw: Raw, es: seq<Entry>)
    requires Entries(raw) == Some(es) && forall k :: 0 <= k < |es| ==> !Unreadable(es[k])
    ensures WellTyped(raw)
  {
    ErrorsByEntry(es);
  }

  /** A pair the decoder accepts: null, or a value of the type of the field its key fills. */
  predicate Readable(e: Entry) {
    Fills(e.key).Some? && (e.value.meaning.VNull? || OfKind(e.value.meaning, FilledKind(e.key)))
  }

  lemma ReadableField(e: Entry, field: JsonKey)
    requires Fills(e.key) == Some(field) && KindOf(field).Some?
    requires e.value.meaning.VNull? || OfKind(e.value.meaning, KindOf(field).value)
    ensures Readable(e)
  {
  }

  lemma ReadableIsRead(e: Entry)
    requires Readable(e)
    ensures !Unreadable(e)
  {
  }

  lemma {:induction false} AllReadable(raw: Raw, es: seq<Entry>)
    requires Entries(raw) == Some(es) && forall k :: 0 <= k < |es| ==> Readable(es[k])
    ensures WellTyped(raw)
  {
    forall k | 0 <= k < |es|
      ensures !Unreadable(es[k])
    {
      ReadableIsRead(es[k]);
    }
    ReadsWell(raw, es);
  }

  lemma {:induction false} ReadsNoFlag(raw: Raw, es: seq<Entry>, field: JsonKey)
    requires Entries(raw) == Some(es) && KindOf(field) == Some(KBool)
    requires forall k :: 0 <= k < |es| ==> Fills(es[k].key) != Some(field)
    ensures !DecodeLoose(raw).Bool(field)
  {
    ReadsNone(raw, es, field);
  }

  lemma {:induction false} ReadsStrAt(raw: Raw, es: seq<Entry>, field: JsonKey, i: nat)
    requires Entries(raw) == Some(es) && KindOf(field) == Some(KStr)
    requires i < |es| && Fills(es[i].key) == Some(field) && es[i].value.meaning.VStr?
    requires forall k :: 0 <= k < |es| && k != i ==> Fills(es[k].key) != Some(field)
    ensures DecodeLoose(raw).Str(field) == es[i].value.meaning.s
  {
    ReadsOne(raw, es, field, i);
  }

  lemma {:induction false} ReadsStrsAt(raw: Raw, es: seq<Entry>, field: JsonKey, i: nat)
    requires Entries(raw) == Some(es) && KindOf(field) == Some(KStrs)
    requires i < |es| && Fills(es[i].key) == Some(field) && es[i].value.meaning.VStrs?
    requires forall k :: 0 <= k < |es| && k != i ==> Fills(es[k].key) != Some(field)
    ensures DecodeLoose(raw).Strs(field) == es[i].value.meaning.ss
  {
    ReadsOne(raw, es, field, i);
  }

  /** Pairs whose keys are field names. */
  predicate ExactKeys(es: seq<Entry>) {
    forall k :: 0 <= k < |es| ==> KindOf(es[k].key).Some?
  }

  lemma ExactKeysFill(es: seq<Entry>)
    requires ExactKeys(es)
    ensures NoVariantKeys(es) && forall k :: 0 <= k < |es| ==> Fills(es[k].key) == Some(es[k].key)
  {
  }

  lemma {:induction false} ReadsStr(raw: Raw, es: seq<Entry>, field: JsonKey, i: nat)
    requires Entries(raw) == Some(es) && ExactKeys(es) && KindOf(field) == Some(KStr)
    requires i < |es| && es[i].key == field && es[i].value.meaning.VStr?
    requires forall k :: 0 <= k < |es| && k != i ==> es[k].key != field
    ensures DecodeLoose(raw).Str(field) == es[i].value.meaning.s
  {
    ExactKeysFill(es);
    ReadsStrAt(raw, es, field, i);
  }

  lemma {:induction false} ReadsStrs(raw: Raw, es: seq<Entry>, field: JsonKey, i: nat)
    requires Entries(raw) == Some(es) && ExactKeys(es) && KindOf(field) == Some(KStrs)
    requires i < |es| && es[i].key == field && es[i].value.meaning.VStrs?
    requires forall k :: 0 <= k < |es| && k != i ==> es[k].key != field
    ensures DecodeLoose(raw).Strs(field) == es[i].value.meaning.ss
  {
    ExactKeysFill(es);
    ReadsStrsAt(raw, es, field, i);
  }

  /** A flag that is set and then repeated as null is read and not kept. */
  lemma {:induction false} ReadsLostFlag(raw: Raw, es: seq<Entry>, field: JsonKey, i: nat, j: nat)
    requires Entries(raw) == Some(es) && ExactKeys(es) && KindOf(field) == Some(KBool) && i < j < |es|
    requires es[i] == Entry(field, Encode(VBool(true))) && es[j] == Entry(field, Encode(VNull))
    requires forall k :: 0 <= k < |es| && k != i && k != j ==> es[k].key != field
    ensures DecodeLoose(raw).Bool(field) && !KeptEntry(raw).Bool(field)
  {
    ExactKeysFill(es);
    ReadsTwo(raw, es, field, i, j);
  }

  lemma {:induction false} KeepsNoFlag(raw: Raw, es: seq<Entry>, field: JsonKey)
    requires Entries(raw) == Some(es) && ExactKeys(es) && KindOf(field) == Some(KBool)
    requires forall k :: 0 <= k < |es| ==> es[k].key != field
    ensures !KeptEntry(raw).Bool(field)
  {
    ExactKeysFill(es);
    KeepsNone(raw, es, field);
  }

  lemma {:induction false} KeepsNoURLs(raw: Raw, es: seq<Entry>)
    requires Entries(raw) == Some(es) && ExactKeys(es) && forall k :: 0 <= k < |es| ==> es[k].key != PRURLs
    ensures KeptEntry(raw).Strs(PRURLs) == []
  {
    ExactKeysFill(es);
    KeepsNone(raw, es, PRURLs);
  }

  // ---------------------------------------------------------------- a session id that is lost

  lemma MarkedKeepsId(raw: Raw)
    requires ParseObject(raw).Some?
    ensures MarkedEntry(raw).Str(SessionID) == KeptEntry(raw).Str(SessionID)
  {
    var m := ParseObject(raw).value;
    SetSparesOthers(m, BackfillChecked, Encode(VBool(true)), SessionID);
    SameStr(MarkedEntry(raw), KeptEntry(raw), SessionID);
  }

  /** An unmarked line whose session id a rewrite changes belongs to another session then, and breaks the agreement of batches. */
  lemma LosingIdShows(raw: Raw)
    requires WellTyped(raw) && ParseObject(raw).Some?
    requires DecodeLoose(raw).Str(SessionID) != "" && !DecodeLoose(raw).Bool(BackfillChecked)
    requires KeptEntry(raw).Str(SessionID) != DecodeLoose(raw).Str(SessionID)
    ensures !KeepsSession(raw) && !AgreesOnEveryBatch(raw)
  {
    SessionKeptExactly(raw);
    MarkedKeepsId(raw);
    BatchAgreementIsExact(raw);
  }

  // ---------------------------------------------------------------- a repeated key

  ghost predicate RepeatedId(es: seq<Entry>, sid: string) {
    |es| == 2 && es[0] == Entry(SessionID, Encode(VStr(sid))) && es[1] == Entry(SessionID, Encode(VNull))
  }

  lemma {:induction false} RepeatedIdRead(raw: Raw, es: seq<Entry>, sid: string)
    requires Entries(raw) == Some(es) && RepeatedId(es, sid)
    ensures DecodeLoose(raw).Str(SessionID) == sid && KeptEntry(raw).Str(SessionID) == ""
  {
    ExactKeysFill(es);
    ReadsTwo(raw, es, SessionID, 0, 1);
  }

  lemma {:induction false} RepeatedIdTyped(raw: Raw, es: seq<Entry>, sid: string)
    requires Entries(raw) == Some(es) && RepeatedId(es, sid)
    ensures WellTyped(raw)
  {
    ReadableField(es[0], SessionID);
    ReadableField(es[1], SessionID);
    AllReadable(raw, es);
  }

  lemma {:induction false} RepeatedIdMark(raw: Raw, es: seq<Entry>, sid: string)
    requires Entries(raw) == Some(es) && RepeatedId(es, sid)
    ensures !DecodeLoose(raw).Bool(BackfillChecked)
  {
    ReadsNoFlag(raw, es, BackfillChecked);
  }

  /** A session id repeated as null is read, and lost in a rewrite. */
  lemma RepeatedIdShows(sid: string) returns (raw: Raw)
    requires sid != ""
    ensures Entries(raw).Some? && RepeatedId(Entries(raw).value, sid) && WellTyped(raw)
    ensures DecodeLoose(raw).Str(SessionID) == sid && KeptEntry(raw).Str(SessionID) == ""
    ensures !KeepsSession(raw) && !AgreesOnEveryBatch(raw)
  {
    var es := [Entry(SessionID, Encode(VStr(sid))), Entry(SessionID, Encode(VNull))];
    raw := Spelled(es);
    SpelledReads(es);
    RepeatedIdRead(raw, es, sid);
    RepeatedIdTyped(raw, es, sid);
    RepeatedIdMark(raw, es, sid);
    LosingIdShows(raw);
  }

  ghost predicate RepeatedPin(es: seq<Entry>, sid: string, url: string) {
    && |es| == 4 && es[0] == Entry(SessionID, Encode(VStr(sid))) && es[1] == Entry(PRPinned, Encode(VBool(true)))
    && es[2] == Entry(PRPinned, Encode(VNull)) && es[3] == Entry(PRURLs, Encode(VStrs([url])))
  }

  lemma {:induction false} RepeatedPinTyped(raw: Raw, es: seq<Entry>, sid: string, url: string)
    requires Entries(raw) == Some(es) && RepeatedPin(es, sid, url)
    ensures WellTyped(raw)
  {
    ReadableField(es[0], SessionID);
    ReadableField(es[1], PRPinned);
    ReadableField(es[2], PRPinned);
    ReadableField(es[3], PRURLs);
    AllReadable(raw, es);
  }

  lemma {:induction false} RepeatedPinFlag(raw: Raw, es: seq<Entry>, sid: string, url: string)
    requires Entries(raw) == Some(es) && RepeatedPin(es, sid, url)
    ensures DecodeLoose(raw).Bool(PRPinned) && !KeptEntry(raw).Bool(PRPinned)
  {
    ReadsLostFlag(raw, es, PRPinned, 1, 2);
  }

  lemma {:induction false} RepeatedPinId(raw: Raw, es: seq<Entry>, sid: string, url: string)
    requires Entries(raw) == Some(es) && RepeatedPin(es, sid, url)
    ensures DecodeLoose(raw).Str(SessionID) == sid
  {
    ReadsStr(raw, es, SessionID, 0);
  }

  lemma {:induction false} RepeatedPinURLs(raw: Raw, es: seq<Entry>, sid: string, url: string)
    requires Entries(raw) == Some(es) && RepeatedPin(es, sid, url)
    ensures DecodeLoose(raw).Strs(PRURLs) == [url]
  {
    ReadsStrs(raw, es, PRURLs, 3);
  }

  /** A line pinned to one URL, without a type error, that loses its pin to a change that pins nothing. */
  lemma RepeatedPinShows(sid: string, url: string) returns (raw: Raw)
    requires sid != ""
    ensures Entries(raw).Some? && RepeatedPin(Entries(raw).value, sid, url) && WellTyped(raw)
    ensures DecodeLoose(raw).Bool(PRPinned) && DecodeLoose(raw).Strs(PRURLs) == [url]
    ensures !KeepsPin(raw)
  {
    var es := [Entry(SessionID, Encode(VStr(sid))), Entry(PRPinned, Encode(VBool(true))),
               Entry(PRPinned, Encode(VNull)), Entry(PRURLs, Encode(VStrs([url])))];
    raw := Spelled(es);
    SpelledReads(es);
    RepeatedPinTyped(raw, es, sid, url);
    RepeatedPinFlag(raw, es, sid, url);
    RepeatedPinId(raw, es, sid, url);
    RepeatedPinURLs(raw, es, sid, url);
    PinKeptExactly(raw);
  }

  ghost predicate RepeatedMark(es: seq<Entry>, sid: string) {
    && |es| == 3 && es[0] == Entry(SessionID, Encode(VStr(sid)))
    && es[1] == Entry(BackfillChecked, Encode(VBool(true))) && es[2] == Entry(BackfillChecked, Encode(VNull))
  }

  lemma {:induction false} RepeatedMarkTyped(raw: Raw, es: seq<Entry>, sid: string)
    requires Entries(raw) == Some(es) && RepeatedMark(es, sid)
    ensures WellTyped(raw)
  {
    ReadableField(es[0], SessionID);
    ReadableField(es[1], BackfillChecked);
    ReadableField(es[2], BackfillChecked);
    AllReadable(raw, es);
  }

  lemma {:induction false} RepeatedMarkId(raw: Raw, es: seq<Entry>, sid: string)
    requires Entries(raw) == Some(es) && RepeatedMark(es, sid)
    ensures DecodeLoose(raw).Str(SessionID) == sid
  {
    ReadsStr(raw, es, SessionID, 0);
  }

  lemma {:induction false} RepeatedMarkFlag(raw: Raw, es: seq<Entry>, sid: string)
    requires Entries(raw) == Some(es) && RepeatedMark(es, sid)
    ensures DecodeLoose(raw).Bool(BackfillChecked) && !KeptEntry(raw).Bool(BackfillChecked)
  {
    ReadsLostFlag(raw, es, BackfillChecked, 1, 2);
  }

  lemma {:induction false} RepeatedMarkPin(raw: Raw, es: seq<Entry>, sid: string)
    requires Entries(raw) == Some(es) && RepeatedMark(es, sid)
    ensures !KeptEntry(raw).Bool(PRPinned)
  {
    KeepsNoFlag(raw, es, PRPinned);
  }

  lemma {:induction false} RepeatedMarkURLs(raw: Raw, es: seq<Entry>, sid: string)
    requires Entries(raw) == Some(es) && RepeatedMark(es, sid)
    ensures KeptEntry(raw).Strs(PRURLs) == []
  {
    KeepsNoURLs(raw, es);
  }

  /** A checked session that a change which has nothing to do with the backlog puts back into it. */
  lemma RepeatedMarkShows(sid: string) returns (raw: Raw)
    requires sid != ""
    ensures Entries(raw).Some? && RepeatedMark(Entries(raw).value, sid) && WellTyped(raw)
    ensures Resolved(DecodeLoose(raw)) && !StaysInAccount(raw, false)
  {
    var es := [Entry(SessionID, Encode(VStr(sid))), Entry(BackfillChecked, Encode(VBool(true))),
               Entry(BackfillChecked, Encode(VNull))];
    raw := Spelled(es);
    SpelledReads(es);
    RepeatedMarkTyped(raw, es, sid);
    RepeatedMarkId(raw, es, sid);
    RepeatedMarkFlag(raw, es, sid);
    RepeatedMarkPin(raw, es, sid);
    RepeatedMarkURLs(raw, es, sid);
    AccountKeptExactly(raw, false);
  }

  // ---------------------------------------------------------------- a list with other elements

  lemma MixedIsUnreadable(e: Entry, url: string)
    requires e == Entry(PRURLs, Encode(VMixed([EStr(url), EBad])))
    ensures Unreadable(e)
  {
    assert [EStr(url), EBad][1] == EBad;
  }

  lemma {:induction false} MixedURLsTyped(raw: Raw, es: seq<Entry>, url: string)
    requires Entries(raw) == Some(es) && |es| == 1 && es[0] == Entry(PRURLs, Encode(VMixed([EStr(url), EBad])))
    ensures !WellTyped(raw)
  {
    MixedIsUnreadable(es[0], url);
    ErrorAt(es, 0);
  }

  lemma MixedFills(url: string)
    ensures Reads(NextSlot(EMPTY_SLOT, KStrs, VMixed([EStr(url), EBad])), KStrs) == VStrs([url, ""])
  {
    assert FillSlots([EStr(url), EBad], []) == [url, ""];
  }

  lemma {:induction false} MixedURLsFields(raw: Raw, es: seq<Entry>, url: string)
    requires Entries(raw) == Some(es) && |es| == 1 && es[0] == Entry(PRURLs, Encode(VMixed([EStr(url), EBad])))
    ensures DecodeLoose(raw).Strs(PRURLs) == [url, ""]
  {
    ReadsOne(raw, es, PRURLs, 0);
    MixedFills(url);
  }

  /** A URL list with an element that is no string is dropped by the strict decoder and found by the lenient one. */
  lemma MixedURLsShow(url: string) returns (raw: Raw)
    requires url != ""
    ensures Entries(raw) == Some([Entry(PRURLs, Encode(VMixed([EStr(url), EBad])))])
    ensures !WellTyped(raw) && DecodeLoose(raw).Strs(PRURLs) == [url, ""]
    ensures !AgreesOnEveryBatch(raw)
  {
    var es := [Entry(PRURLs, Encode(VMixed([EStr(url), EBad])))];
    raw := Spelled(es);
    SpelledReads(es);
    MixedURLsTyped(raw, es, url);
    MixedURLsFields(raw, es, url);
    assert [url, ""][0] == url;
    assert url in DecodeLoose(raw).Strs(PRURLs);
    BatchAgreementIsExact(raw);
  }

  // ---------------------------------------------------------------- a field spelled in two cases

  /** A session id that stands under both spellings, the field's own one last. */
  ghost predicate TwoSpellings(es: seq<Entry>, variant: JsonKey, own: string, other: string) {
    && Fills(variant) == Some(SessionID) && variant != SessionID
    && |es| == 2 && es[0] == Entry(variant, Encode(VStr(other))) && es[1] == Entry(SessionID, Encode(VStr(own)))
  }

  lemma {:induction false} TwoSpellingsId(raw: Raw, es: seq<Entry>, variant: JsonKey, own: string, other: string)
    requires Entries(raw) == Some(es) && TwoSpellings(es, variant, own, other)
    ensures DecodeLoose(raw).Str(SessionID) == own
  {
    ReadsTwo(raw, es, SessionID, 0, 1);
  }

  lemma SessionText(e: Entry)
    requires Fills(e.key) == Some(SessionID) && e.value.meaning.VStr?
    ensures Readable(e)
  {
    ReadableField(e, SessionID);
  }

  lemma {:induction false} TwoSpellingsTyped(raw: Raw, es: seq<Entry>, variant: JsonKey, own: string, other: string)
    requires Entries(raw) == Some(es) && TwoSpellings(es, variant, own, other)
    ensures WellTyped(raw)
  {
    SessionText(es[0]);
    SessionText(es[1]);
    AllReadable(raw, es);
  }

  lemma VariantFollows(m: Object, variant: JsonKey)
    requires variant != SessionID && FillingKeys(m, SessionID) == {variant, SessionID}
    ensures FieldValues(m, SessionID) == [m[SessionID].meaning, m[variant].meaning]
  {
    RankedFieldFirst(m, SessionID);
    assert FillingKeys(m, SessionID) - {SessionID} == {variant};
    KeysInOrderAreUnique(FillingKeys(m, SessionID) - {SessionID}, [variant]);
    assert SessionID in FillingKeys(m, SessionID);
  }

  lemma TwoSpellingsKept(m: Object, variant: JsonKey, own: string, other: string)
    requires variant != SessionID && FillingKeys(m, SessionID) == {variant, SessionID}
    requires SessionID in m && m[SessionID].meaning == VStr(own) && variant in m && m[variant].meaning == VStr(other)
    ensures DecodeLoose(Print(m)).Str(SessionID) == other
  {
    VariantFollows(m, variant);
    FillWithTwo(KStr, VStr(own), VStr(other));
    KeptByField(m, SessionID);
  }

  lemma {:induction false} TwoSpellingsObject(es: seq<Entry>, variant: JsonKey, own: string, other: string)
    requires TwoSpellings(es, variant, own, other)
    ensures LastWins(es) == map[variant := Encode(VStr(other)), SessionID := Encode(VStr(own))]
    ensures FillingKeys(LastWins(es), SessionID) == {variant, SessionID}
  {
    assert es[..1][..0] == [];
    assert LastWins(es[..1]) == map[variant := Encode(VStr(other))];
  }

  lemma {:induction false} TwoSpellingsKeep(raw: Raw, es: seq<Entry>, variant: JsonKey, own: string, other: string)
    requires Entries(raw) == Some(es) && TwoSpellings(es, variant, own, other)
    ensures KeptEntry(raw).Str(SessionID) == other
  {
    TwoSpellingsObject(es, variant, own, other);
    TwoSpellingsKept(LastWins(es), variant, own, other);
  }

  lemma OnlySessionFilled(es: seq<Entry>, variant: JsonKey, own: string, other: string)
    requires TwoSpellings(es, variant, own, other)
    ensures forall k :: 0 <= k < |es| ==> Fills(es[k].key) != Some(BackfillChecked)
  {
    forall k | 0 <= k < |es| ensures Fills(es[k].key) == Some(SessionID) {
      FillsSession(es, variant, own, other, k);
    }
  }

  lemma FillsSession(es: seq<Entry>, variant: JsonKey, own: string, other: string, k: nat)
    requires TwoSpellings(es, variant, own, other) && k < |es|
    ensures Fills(es[k].key) == Some(SessionID)
  {
    assert k == 0 || k == 1;
  }

  lemma {:induction false} TwoSpellingsMark(raw: Raw, es: seq<Entry>, variant: JsonKey, own: string, other: string)
    requires Entries(raw) == Some(es) && TwoSpellings(es, variant, own, other)
    ensures !DecodeLoose(raw).Bool(BackfillChecked)
  {
    OnlySessionFilled(es, variant, own, other);
    ReadsNoFlag(raw, es, BackfillChecked);
  }

  /**
   A line that spells its session id in two ways belongs to one session until it is first rewritten,
   and to the other one from then on; a batch that marks the first session and pins it pins the line,
   the single operations do not.
   */
  lemma TwoSpellingsShow(variant: JsonKey, own: string, other: string) returns (raw: Raw)
    requires Fills(variant) == Some(SessionID) && variant != SessionID && own != "" && own != other
    ensures Entries(raw).Some? && TwoSpellings(Entries(raw).value, variant, own, other) && WellTyped(raw)
    ensures DecodeLoose(raw).Str(SessionID) == own && KeptEntry(raw).Str(SessionID) == other
    ensures !KeepsSession(raw) && !AgreesOnEveryBatch(raw)
  {
    var es := [Entry(variant, Encode(VStr(other))), Entry(SessionID, Encode(VStr(own)))];
    raw := Spelled(es);
    SpelledReads(es);
    TwoSpellingsTyped(raw, es, variant, own, other);
    TwoSpellingsId(raw, es, variant, own, other);
    TwoSpellingsKeep(raw, es, variant, own, other);
    TwoSpellingsMark(raw, es, variant, own, other);
    LosingIdShows(raw);
  }

  // ---------------------------------------------------------------- a URL list under another spelling only

  /** A session whose URLs stand under another spelling of the list's name. */
  ghost predicate HiddenList(es: seq<Entry>, variant: JsonKey, sid: string, urls: seq<string>) {
    && Fills(variant) == Some(PRURLs) && variant != PRURLs
    && |es| == 2 && es[0] == Entry(SessionID, Encode(VStr(sid))) && es[1] == Entry(variant, Encode(VStrs(urls)))
  }

  lemma NoOtherSpelling(m: Object, field: JsonKey)
    requires forall k :: k in m && Fills(k) == Some(field) ==> k == field
    ensures VariantValues(m, field) == []
  {
    KeysInOrderAreUnique(FillingKeys(m, field) - {field}, []);
  }

  lemma {:induction false} HiddenListObject(es: seq<Entry>, variant: JsonKey, sid: string, urls: seq<string>)
    requires HiddenList(es, variant, sid, urls)
    ensures LastWins(es) == map[SessionID := Encode(VStr(sid)), variant := Encode(VStrs(urls))]
  {
    assert es[..1][..0] == [];
    assert LastWins(es[..1]) == map[SessionID := Encode(VStr(sid))];
  }

  lemma HiddenListValues(m: Object, variant: JsonKey, urls: seq<string>)
    requires PRURLs !in m && FillingKeys(m, PRURLs) == {variant} && m[variant].meaning == VStrs(urls)
    ensures FieldValues(m, PRURLs) == [VStrs(urls)] && VariantValues(m, PRURLs) == [VStrs(urls)]
  {
    KeysInOrderAreUnique({variant}, [variant]);
    NoOwnKey(m, PRURLs);
  }

  lemma OverriddenBy(m: Object, urls: seq<string>)
    requires VariantValues(m, PRURLs) == [VStrs(urls)]
    ensures URLsOverridden(m)
  {
    assert SetsLength(VariantValues(m, PRURLs)[0]);
  }

  lemma ListKept(m: Object, urls: seq<string>)
    requires FieldValues(m, PRURLs) == [VStrs(urls)]
    ensures KeptURLs(m) == urls
  {
    FillWithOne(KStrs, VStrs(urls));
    KeptByField(m, PRURLs);
    KeptURLsAre(m);
  }

  /** The object shows the hidden list, and hides every other. */
  lemma HiddenListKept(m: Object, variant: JsonKey, urls: seq<string>)
    requires PRURLs !in m && FillingKeys(m, PRURLs) == {variant} && m[variant].meaning == VStrs(urls)
    ensures KeptURLs(m) == urls && URLsOverridden(m)
  {
    HiddenListValues(m, variant, urls);
    ListKept(m, urls);
    OverriddenBy(m, urls);
  }

  lemma HiddenSessionKept(m: Object, sid: string)
    requires SessionID in m && m[SessionID].meaning == VStr(sid)
    requires forall k :: k in m && Fills(k) == Some(SessionID) ==> k == SessionID
    ensures DecodeLoose(Print(m)).Str(SessionID) == sid
  {
    NoOtherSpelling(m, SessionID);
    RankedFieldFirst(m, SessionID);
    FillWithOne(KStr, VStr(sid));
    KeptByField(m, SessionID);
  }

  lemma NoValuesKept(m: Object, field: JsonKey)
    requires forall k :: k in m ==> Fills(k) != Some(field)
    ensures FieldValues(m, field) == []
  {
    assert FillingKeys(m, field) == {};
    KeysInOrderAreUnique({}, []);
  }

  lemma KeepsZero(m: Object, field: JsonKey)
    requires KindOf(field).Some? && FieldValues(m, field) == []
    ensures KeptField(m, field) == Zero(KindOf(field).value)
  {
    KeptByField(m, field);
  }

  lemma NoFlagKept(m: Object)
    requires forall k :: k in m ==> Fills(k) != Some(PRPinned)
    ensures !KeptPinned(m)
  {
    NoValuesKept(m, PRPinned);
    KeepsZero(m, PRPinned);
    KeptPinnedIs(m);
  }

  lemma HiddenListKeys(m: Object, variant: JsonKey, sid: string, urls: seq<string>)
    requires Fills(variant) == Some(PRURLs) && variant != PRURLs
    requires m == map[SessionID := Encode(VStr(sid)), variant := Encode(VStrs(urls))]
    ensures forall k :: k in m ==> Fills(k) != Some(PRPinned) && (Fills(k) == Some(SessionID) ==> k == SessionID)
    ensures PRURLs !in m && FillingKeys(m, PRURLs) == {variant}
    ensures SessionID in m && m[SessionID].meaning == VStr(sid) && m[variant].meaning == VStrs(urls)
  {
  }

  lemma HiddenObjectKeeps(m: Object, variant: JsonKey, sid: string, urls: seq<string>)
    requires Fills(variant) == Some(PRURLs) && variant != PRURLs
    requires m == map[SessionID := Encode(VStr(sid)), variant := Encode(VStrs(urls))]
    ensures DecodeLoose(Print(m)).Str(SessionID) == sid && KeptURLs(m) == urls && !KeptPinned(m) && URLsOverridden(m)
  {
    HiddenListKeys(m, variant, sid, urls);
    HiddenListKept(m, variant, urls);
    HiddenSessionKept(m, sid);
    NoFlagKept(m);
  }

  lemma {:induction false} HiddenListKeeps(raw: Raw, es: seq<Entry>, variant: JsonKey, sid: string, urls: seq<string>)
    requires Entries(raw) == Some(es) && HiddenList(es, variant, sid, urls)
    ensures KeptEntry(raw).Str(SessionID) == sid && KeptEntry(raw).Strs(PRURLs) == urls && !KeptEntry(raw).Bool(PRPinned)
    ensures URLsOverridden(LastWins(es))
  {
    HiddenListObject(es, variant, sid, urls);
    HiddenObjectKeeps(LastWins(es), variant, sid, urls);
  }

  /** Two pairs that give a session id and a URL list, under whatever spelling. */
  predicate SessionAndList(es: seq<Entry>) {
    && |es| == 2 && Fills(es[0].key) == Some(SessionID) && es[0].value.meaning.VStr?
    && Fills(es[1].key) == Some(PRURLs) && es[1].value.meaning.VStrs?
  }

  lemma HiddenIsSessionAndList(es: seq<Entry>, variant: JsonKey, sid: string, urls: seq<string>)
    requires HiddenList(es, variant, sid, urls)
    ensures SessionAndList(es) && es[0].value.meaning.s == sid && es[1].value.meaning.ss == urls
  {
  }

  lemma SecondIsList(es: seq<Entry>, k: nat)
    requires SessionAndList(es) && k < |es| && k != 0
    ensures Fills(es[k].key) == Some(PRURLs)
  {
    assert k == 1;
  }

  lemma FirstIsSession(es: seq<Entry>, k: nat)
    requires SessionAndList(es) && k < |es| && k != 1
    ensures Fills(es[k].key) == Some(SessionID)
  {
    assert k == 0;
  }

  lemma EachOnce(es: seq<Entry>)
    requires SessionAndList(es)
    ensures forall k :: 0 <= k < |es| && k != 0 ==> Fills(es[k].key) != Some(SessionID)
    ensures forall k :: 0 <= k < |es| && k != 1 ==> Fills(es[k].key) != Some(PRURLs)
  {
    forall k | 0 <= k < |es| && k != 0 ensures Fills(es[k].key) != Some(SessionID) {
      SecondIsList(es, k);
    }
    forall k | 0 <= k < |es| && k != 1 ensures Fills(es[k].key) != Some(PRURLs) {
      FirstIsSession(es, k);
    }
  }

  lemma NoneIsPin(es: seq<Entry>)
    requires SessionAndList(es)
    ensures forall k :: 0 <= k < |es| ==> Fills(es[k].key) != Some(PRPinned)
  {
    forall k | 0 <= k < |es| ensures Fills(es[k].key) != Some(PRPinned) {
      if k == 0 { FirstIsSession(es, k); } else { SecondIsList(es, k); }
    }
  }

  lemma {:induction false} ReadsSession(raw: Raw, es: seq<Entry>)
    requires Entries(raw) == Some(es) && SessionAndList(es)
    ensures DecodeLoose(raw).Str(SessionID) == es[0].value.meaning.s
  {
    EachOnce(es);
    ReadsStrAt(raw, es, SessionID, 0);
  }

  lemma {:induction false} ReadsList(raw: Raw, es: seq<Entry>)
    requires Entries(raw) == Some(es) && SessionAndList(es)
    ensures DecodeLoose(raw).Strs(PRURLs) == es[1].value.meaning.ss
  {
    EachOnce(es);
    ReadsStrsAt(raw, es, PRURLs, 1);
  }

  lemma ListText(e: Entry)
    requires Fills(e.key) == Some(PRURLs) && e.value.meaning.VStrs?
    ensures Readable(e)
  {
    ReadableField(e, PRURLs);
  }

  lemma {:induction false} ReadsNoPin(raw: Raw, es: seq<Entry>)
    requires Entries(raw) == Some(es) && SessionAndList(es)
    ensures !DecodeLoose(raw).Bool(PRPinned)
  {
    NoneIsPin(es);
    ReadsNoFlag(raw, es, PRPinned);
  }

  lemma {:induction false} ReadsTyped(raw: Raw, es: seq<Entry>)
    requires Entries(raw) == Some(es) && SessionAndList(es)
    ensures WellTyped(raw)
  {
    SessionText(es[0]);
    ListText(es[1]);
    AllReadable(raw, es);
  }

  lemma {:induction false} HiddenListReads(raw: Raw, es: seq<Entry>, variant: JsonKey, sid: string, urls: seq<string>)
    requires Entries(raw) == Some(es) && HiddenList(es, variant, sid, urls)
    ensures DecodeLoose(raw).Str(SessionID) == sid && DecodeLoose(raw).Strs(PRURLs) == urls
    ensures WellTyped(raw) && !DecodeLoose(raw).Bool(PRPinned)
  {
    HiddenIsSessionAndList(es, variant, sid, urls);
    ReadsSession(raw, es);
    ReadsList(raw, es);
    ReadsTyped(raw, es);
    ReadsNoPin(raw, es);
  }

  lemma PinFlagShows(m: Object)
    requires forall k :: k in m ==> Fills(k) != Some(PRPinned)
    ensures KeptPinned(m[PRPinned := Encode(VBool(true))])
  {
    NoOtherSpelling(m, PRPinned);
    SetFieldValues(m, PRPinned, Encode(VBool(true)));
    FillWithOne(KBool, VBool(true));
    KeptByField(m[PRPinned := Encode(VBool(true))], PRPinned);
  }

  lemma PinOnPlainFlag(m: Object, url: string)
    requires forall k :: k in m ==> Fills(k) != Some(PRPinned)
    ensures KeptPinned(SetAll(m, PinEdits(url)))
  {
    TwoSet(m, PinEdits(url)[0], PinEdits(url)[1]);
    PinFlagShows(m[PRURLs := Encode(VStrs([url]))]);
  }

  lemma {:induction false} PinOfOverridden(raw: Raw, m: Object, url: string)
    requires ParseObject(raw) == Some(m) && URLsOverridden(m) && forall k :: k in m ==> Fills(k) != Some(PRPinned)
    ensures var r := EditRaw(raw, PinEdits(url));
            r.Some? && DecodeLoose(r.value).Bool(PRPinned) && |DecodeLoose(r.value).Strs(PRURLs)| == |KeptEntry(raw).Strs(PRURLs)|
  {
    EditRawSetsAll(raw, PinEdits(url));
    PinOnPlainFlag(m, url);
    PinRewrites(raw, url);
  }

  lemma {:induction false} PinOfHidden(raw: Raw, es: seq<Entry>, variant: JsonKey, sid: string, urls: seq<string>, url: string)
    requires Entries(raw) == Some(es) && HiddenList(es, variant, sid, urls) && URLsOverridden(LastWins(es))
    ensures var r := EditRaw(raw, PinEdits(url));
            r.Some? && DecodeLoose(r.value).Bool(PRPinned) && |DecodeLoose(r.value).Strs(PRURLs)| == |KeptEntry(raw).Strs(PRURLs)|
  {
    HiddenListObject(es, variant, sid, urls);
    HiddenListKeys(LastWins(es), variant, sid, urls);
    PinOfOverridden(raw, LastWins(es), url);
  }

  lemma PinsUnpinned(raw: Raw, sid: string, url: string)
    requires WellTyped(raw) && DecodeLoose(raw).Str(SessionID) == sid && !DecodeLoose(raw).Bool(PRPinned)
    ensures LineResult(raw, Single(Pin(sid, url))) == EditRaw(raw, PinEdits(url))
  {
    StrictIsLoose(raw);
  }

  lemma {:induction false} HiddenListHolds(raw: Raw, es: seq<Entry>, variant: JsonKey, sid: string, urls: seq<string>)
    requires Entries(raw) == Some(es) && HiddenList(es, variant, sid, urls)
    ensures WellTyped(raw) && PinStable(raw) && !DecodeLoose(raw).Bool(PRPinned)
    ensures DecodeLoose(raw).Str(SessionID) == sid
    ensures |urls| != 1 ==> !PinFits(raw)
  {
    HiddenListReads(raw, es, variant, sid, urls);
    HiddenListKeeps(raw, es, variant, sid, urls);
  }

  lemma {:induction false} HiddenListPinned(raw: Raw, es: seq<Entry>, variant: JsonKey, sid: string, urls: seq<string>, url: string)
    requires Entries(raw) == Some(es) && HiddenList(es, variant, sid, urls)
    ensures var r := LineResult(raw, Single(Pin(sid, url)));
            r.Some? && DecodeLoose(r.value).Bool(PRPinned) && |DecodeLoose(r.value).Strs(PRURLs)| == |urls|
  {
    HiddenListHolds(raw, es, variant, sid, urls);
    HiddenListKeeps(raw, es, variant, sid, urls);
    PinOfHidden(raw, es, variant, sid, urls, url);
    PinsUnpinned(raw, sid, url);
  }

  /** An unpinned line that reads the same before and after a rewrite, and that a pin of its session leaves pinned to two URLs. */
  lemma HiddenListShows(variant: JsonKey, sid: string, a: string, b: string, url: string) returns (raw: Raw)
    requires Fills(variant) == Some(PRURLs) && variant != PRURLs && sid != ""
    ensures Entries(raw).Some? && HiddenList(Entries(raw).value, variant, sid, [a, b]) && WellTyped(raw)
    ensures PinStable(raw) && !DecodeLoose(raw).Bool(PRPinned) && !PinFits(raw)
    ensures var r := LineResult(raw, Single(Pin(sid, url)));
            r.Some? && DecodeLoose(r.value).Bool(PRPinned) && |DecodeLoose(r.value).Strs(PRURLs)| == 2
  {
    var es := [Entry(SessionID, Encode(VStr(sid))), Entry(variant, Encode(VStrs([a, b])))];
    raw := Spelled(es);
    SpelledReads(es);
    HiddenListHolds(raw, es, variant, sid, [a, b]);
    HiddenListPinned(raw, es, variant, sid, [a, b], url);
  }

  // ---------------------------------------------------------------- spellings

  lemma OnlySessionID(key: JsonKey)
    requires KindOf(key).Some? && FieldName(key) == FieldName(SessionID)
    ensures key == SessionID
  {
  }

  lemma OnlyPRURLs(key: JsonKey)
    requires KindOf(key).Some? && FieldName(key) == FieldName(PRURLs)
    ensures key == PRURLs
  {
  }

  lemma FoldedFills(name: string, field: JsonKey)
    requires KindOf(field).Some? && Fold(name) == FieldName(field) && KindOf(Named(name)).None?
    requires forall key :: KindOf(key).Some? && FieldName(key) == FieldName(field) ==> key == field
    ensures Fills(Named(name)) == Some(field)
  {
    SchemaCoversEveryKnownKey(field);
    var i :| 0 <= i < |SCHEMA| && SCHEMA[i].key == field;
    var found := FieldFrom(Fold(name), 0);
    assert found.Some?;
    SchemaCoversEveryKnownKey(found.value);
  }

  lemma FoldedSessionID()
    ensures Fold("Session_ID") == FieldName(SessionID)
  {
  }

  lemma FoldedPRURLs()
    ensures Fold("PR_URLs") == FieldName(PRURLs)
  {
  }

  /** "Session_ID" is another spelling of the session id's key. */
  lemma SpelledSessionID()
    ensures Fills(Named("Session_ID")) == Some(SessionID)
  {
    FoldedSessionID();
    forall key | KindOf(key).Some? && FieldName(key) == FieldName(SessionID)
      ensures key == SessionID
    {
      OnlySessionID(key);
    }
    FoldedFills("Session_ID", SessionID);
  }

  /** "PR_URLs" is another spelling of the URL list's key. */
  lemma SpelledPRURLs()
    ensures Fills(Named("PR_URLs")) == Some(PRURLs)
  {
    FoldedPRURLs();
    forall key | KindOf(key).Some? && FieldName(key) == FieldName(PRURLs)
      ensures key == PRURLs
    {
      OnlyPRURLs(key);
    }
    FoldedFills("PR_URLs", PRURLs);
  }

  lemma OnlyBackfillChecked(key: JsonKey)
    requires KindOf(key).Some? && FieldName(key) == FieldName(BackfillChecked)
    ensures key == BackfillChecked
  {
  }

  lemma FoldedBeyondASCII()
    ensures Fold("\U{17F}ession_id") == FieldName(SessionID)
    ensures Fold("bac\U{212A}fill_checked") == FieldName(BackfillChecked)
  {
  }

  /** So are spellings with the two letters beyond ASCII that fold into ASCII ones: the long s and the Kelvin sign. */
  lemma SpelledBeyondASCII()
    ensures Fills(Named("\U{17F}ession_id")) == Some(SessionID)
    ensures Fills(Named("bac\U{212A}fill_checked")) == Some(BackfillChecked)
  {
    FoldedBeyondASCII();
    forall key | KindOf(key).Some? && FieldName(key) == FieldName(SessionID)
      ensures key == SessionID
    {
      OnlySessionID(key);
    }
    FoldedFills("\U{17F}ession_id", SessionID);
    forall key | KindOf(key).Some? && FieldName(key) == FieldName(BackfillChecked)
      ensures key == BackfillChecked
    {
      OnlyBackfillChecked(key);
    }
    FoldedFills("bac\U{212A}fill_checked", BackfillChecked);
  }

  // ---------------------------------------------------------------- old text in a list

  /**
   A list that is decoded again keeps the text of the elements that are null, even of those beyond its
   end in between, until a null for the whole list.
   */
  lemma OldTextShows(a: string, b: string, c: string)
    ensures Reads(Fill(KStrs, EMPTY_SLOT, [VStrs([a, b]), VMixed([ENull])]), KStrs) == VStrs([a])
    ensures Reads(Fill(KStrs, EMPTY_SLOT, [VStrs([a, b]), VStrs([c]), VMixed([ENull, ENull])]), KStrs) == VStrs([c, b])
    ensures Reads(Fill(KStrs, EMPTY_SLOT, [VStrs([a, b]), VNull, VMixed([ENull])]), KStrs) == VStrs([""])
  {
    FillWithTwo(KStrs, VStrs([a, b]), VMixed([ENull]));
    FillWithThree(KStrs, VStrs([a, b]), VStrs([c]), VMixed([ENull, ENull]));
    FillWithThree(KStrs, VStrs([a, b]), VNull, VMixed([ENull]));
    OldText(a, b, c);
  }

  lemma FillWithThree(kind: Kind, x: Value, y: Value, z: Value)
    ensures Fill(kind, EMPTY_SLOT, [x, y, z]) == NextSlot(NextSlot(NextSlot(EMPTY_SLOT, kind, x), kind, y), kind, z)
  {
    assert [x, y, z][..2] == [x, y];
    FillWithTwo(kind, x, y);
  }

  lemma OldText(a: string, b: string, c: string)
    ensures NextSlot(EMPTY_SLOT, KStrs, VStrs([a, b])) == Slot(Some(VStrs([a, b])), [])
    ensures NextSlot(Slot(Some(VStrs([a, b])), []), KStrs, VMixed([ENull])).value == Some(VStrs([a]))
    ensures NextSlot(Slot(Some(VStrs([a, b])), []), KStrs, VStrs([c])) == Slot(Some(VStrs([c])), [b])
    ensures NextSlot(Slot(Some(VStrs([c])), [b]), KStrs, VMixed([ENull, ENull])).value == Some(VStrs([c, b]))
    ensures NextSlot(Slot(Some(VStrs([a, b])), []), KStrs, VNull) == EMPTY_SLOT
    ensures NextSlot(EMPTY_SLOT, KStrs, VMixed([ENull])).value == Some(VStrs([""]))
  {
    assert [a, b] + [] == [a, b];
    assert FillSlots([ENull], [a, b]) == [a];
    assert [a, b][1..] == [b];
    assert FillSlots([ENull, ENull], [c] + [b]) == [c, b];
    assert FillSlots([ENull], []) == [""];
  }
}
