/**
 How a line of the session index decodes into an entry, strictly and leniently, what a rewrite of
 the line keeps of that entry, and how a whole entry is written.

 The decoder goes through the pairs in text order and lets every key fill the field whose name it
 matches regardless of case. A rewrite keeps the last value of every distinct key and puts the keys
 in canonical order. So a field can read differently after a rewrite when its key is repeated or
 also occurs in another case.
 */
module SessionDecoder {
  import opened Common
  import opened Ordering
  import opened JsonLine

  // ---------------------------------------------------------------- which field a key fills

  /** The name of a schema field. */
  function FieldName(key: JsonKey): string {
    match key
    case CodingAgent => "coding_agent"
    case AgentVersion => "agent_version"
    case Timestamp => "timestamp"
    case SessionID => "session_id"
    case Cwd => "cwd"
    case Repo => "repo"
    case Branch => "branch"
    case IsDefaultBranch => "is_default_branch"
    case PRURLs => "pr_urls"
    case PRPinned => "pr_pinned"
    case PRTitle => "pr_title"
    case Transcript => "transcript"
    case ParentSessionID => "parent_session_id"
    case EndedAt => "ended_at"
    case EndReason => "end_reason"
    case BackfillChecked => "backfill_checked"
    case IsMerged => "is_merged"
    case ReviewComments => "review_comments"
    case ChangesRequested => "changes_requested"
    case Named(name) => name
  }

  /** Case folding, as far as it can lead to a field name: two letters beyond ASCII fold into it. */
  function FoldChar(c: char): char {
    if 'A' <= c <= 'Z' then c - 'A' + 'a'
    else if c == '\U{17F}' then 's'
    else if c == '\U{212A}' then 'k'
    else c
  }

  function Fold(name: string): string {
    seq(|name|, i requires 0 <= i < |name| => FoldChar(name[i]))
  }

  /** The first field from position i on with the given name. */
  function FieldFrom(name: string, i: nat): (r: Option<JsonKey>)
    requires i <= |SCHEMA|
    ensures r.Some? ==> exists j :: i <= j < |SCHEMA| && r == Some(SCHEMA[j].key) && FieldName(SCHEMA[j].key) == name
    ensures r.None? ==> forall j :: i <= j < |SCHEMA| ==> FieldName(SCHEMA[j].key) != name
    decreases |SCHEMA| - i, name
  {
    if i == |SCHEMA| then None
    else if FieldName(SCHEMA[i].key) == name then Some(SCHEMA[i].key)
    else FieldFrom(name, i + 1)
  }

  /** The schema field a key fills: the one it names or, failing that, the one it names in another case. */
  function Fills(key: JsonKey): (r: Option<JsonKey>)
    ensures KindOf(key).Some? ==> r == Some(key)
    ensures r.Some? ==> KindOf(r.value).Some?
  {
    if KindOf(key).Some? then Some(key)
    else
      var r := FieldFrom(Fold(key.name), 0);
      assert r.Some? ==> KindOf(r.value).Some? by {
        if r.Some? {
          var j :| 0 <= j < |SCHEMA| && r == Some(SCHEMA[j].key);
          SchemaCoversEveryKnownKey(r.value);
        }
      }
      r
  }

  /** A key that fills a field whose name it spells differently. */
  predicate IsVariant(key: JsonKey) {
    KindOf(key).None? && Fills(key).Some?
  }

  /** The type of the field a key fills. */
  function FilledKind(key: JsonKey): Kind
    requires Fills(key).Some?
  {
    KindOf(Fills(key).value).value
  }

  // ---------------------------------------------------------------- one field

  /** The text of an array element; null and unusable elements leave the slot as it was. */
  function SlotText(e: Element, slot: string): string {
    if e.EStr? then e.s else slot
  }

  function FillSlots(elems: seq<Element>, slots: seq<string>): (r: seq<string>)
    ensures |r| == |elems|
  {
    seq(|elems|, i requires 0 <= i < |elems| => SlotText(elems[i], if i < |slots| then slots[i] else ""))
  }

  /** The list an array decodes to in the given slots. */
  function ArrayList(v: Value, slots: seq<string>): seq<string>
    requires v.VStrs? || v.VMixed?
  {
    if v.VStrs? then v.ss else FillSlots(v.elems, slots)
  }

  predicate HasBadElement(v: Value) {
    v.VMixed? && EBad in v.elems
  }

  /** A field while its line is decoded: its value, and the array slots beyond its list that still hold old text. */
  datatype Slot = Slot(value: Option<Value>, spare: seq<string>)

  const EMPTY_SLOT := Slot(None, [])

  /** What a field reads as. */
  function Reads(slot: Slot, kind: Kind): (v: Value)
    ensures OfKind(v, kind)
  {
    if slot.value.Some? && OfKind(slot.value.value, kind) then slot.value.value else Zero(kind)
  }

  function ListIn(slot: Slot): seq<string> {
    Reads(slot, KStrs).ss
  }

  /** One more value for a field: null empties a list and leaves other fields alone, an unusable value is skipped. */
  function NextSlot(slot: Slot, kind: Kind, v: Value): Slot {
    if kind.KStrs? then
      if v.VNull? then EMPTY_SLOT
      else if v.VStrs? || v.VMixed? then
        var slots := ListIn(slot) + slot.spare;
        var list := ArrayList(v, slots);
        Slot(Some(VStrs(list)), if list == [] || |slots| <= |list| then [] else slots[|list|..])
      else slot
    else if OfKind(v, kind) then Slot(Some(v), [])
    else slot
  }

  /** Does the value make the decoder report a type error? */
  predicate Rejects(kind: Kind, v: Value) {
    !v.VNull? && if kind.KStrs? then !(v.VStrs? || v.VMixed?) || HasBadElement(v) else !OfKind(v, kind)
  }

  /** A field after its values in order. */
  function Fill(kind: Kind, start: Slot, vs: seq<Value>): Slot {
    if vs == [] then start else NextSlot(Fill(kind, start, vs[..|vs| - 1]), kind, vs[|vs| - 1])
  }

  lemma {:induction false} FillAppend(kind: Kind, start: Slot, a: seq<Value>, b: seq<Value>)
    ensures Fill(kind, start, a + b) == Fill(kind, Fill(kind, start, a), b)
  {
    if b == [] {
      assert a + b == a;
    } else {
      assert (a + b)[..|a + b| - 1] == a + b[..|b| - 1];
      FillAppend(kind, start, a, b[..|b| - 1]);
    }
  }

  /** Whatever values follow, a plain field either forgets where it started or stays there. */
  lemma {:induction false} FillForgets(kind: Kind, a: Slot, b: Slot, vs: seq<Value>)
    requires !kind.KStrs?
    ensures Reads(Fill(kind, a, vs), kind) == Reads(Fill(kind, b, vs), kind) ||
            (Fill(kind, a, vs) == a && Fill(kind, b, vs) == b)
  {
    if vs != [] {
      FillForgets(kind, a, b, vs[..|vs| - 1]);
    }
  }

  /** Does a value set the length of a list? */
  predicate SetsLength(v: Value) {
    v.VNull? || v.VStrs? || v.VMixed?
  }

  predicate SomeSetsLength(vs: seq<Value>) {
    exists i :: 0 <= i < |vs| && SetsLength(vs[i])
  }

  /** A list gets its length from the last value that sets one. */
  lemma {:induction false} FillLength(a: Slot, b: Slot, vs: seq<Value>)
    ensures if SomeSetsLength(vs) then |ListIn(Fill(KStrs, a, vs))| == |ListIn(Fill(KStrs, b, vs))|
            else Fill(KStrs, a, vs) == a && Fill(KStrs, b, vs) == b
  {
    if vs != [] {
      var front, last := vs[..|vs| - 1], vs[|vs| - 1];
      FillLength(a, b, front);
      if SetsLength(last) {
        assert SetsLength(vs[|vs| - 1]);
        LastLength(Fill(KStrs, a, front), Fill(KStrs, b, front), last);
      } else {
        SetsLengthFront(vs);
      }
    }
  }

  lemma LastLength(a: Slot, b: Slot, v: Value)
    requires SetsLength(v)
    ensures |ListIn(NextSlot(a, KStrs, v))| == |ListIn(NextSlot(b, KStrs, v))|
  {
  }

  lemma {:induction false} SetsLengthFront(vs: seq<Value>)
    requires vs != [] && !SetsLength(vs[|vs| - 1])
    ensures SomeSetsLength(vs) <==> SomeSetsLength(vs[..|vs| - 1])
  {
    var front := vs[..|vs| - 1];
    assert forall i :: 0 <= i < |front| ==> front[i] == vs[i];
    if i :| 0 <= i < |vs| && SetsLength(vs[i]) {
      assert SetsLength(front[i]);
    }
  }

  /** A plain field reads as one of its values or as zero. */
  lemma {:induction false} FillInventsNothing(kind: Kind, vs: seq<Value>)
    requires !kind.KStrs?
    ensures var r := Reads(Fill(kind, EMPTY_SLOT, vs), kind);
            r == Zero(kind) || r in vs
  {
    if vs != [] {
      FillInventsNothing(kind, vs[..|vs| - 1]);
      assert vs == vs[..|vs| - 1] + [vs[|vs| - 1]];
    }
  }

  // ---------------------------------------------------------------- decoding an entry

  /** An entry while its line is being decoded: the fields so far, the URL list's spare slots, and whether a type error has been seen. */
  datatype Decoding = Decoding(fields: map<JsonKey, Value>, spare: seq<string>, err: bool)

  function SlotOf(d: Decoding, field: JsonKey): Slot {
    Slot(if field in d.fields then Some(d.fields[field]) else None, if field.PRURLs? then d.spare else [])
  }

  /** One key/value pair. */
  function DecodeEntry(d: Decoding, e: Entry): Decoding {
    match Fills(e.key)
    case None => d
    case Some(field) =>
      var slot := NextSlot(SlotOf(d, field), KindOf(field).value, e.value.meaning);
      Decoding(if slot.value.Some? then d.fields[field := slot.value.value] else d.fields - {field},
               if field.PRURLs? then slot.spare else d.spare,
               d.err || Rejects(KindOf(field).value, e.value.meaning))
  }

  function Decoded(es: seq<Entry>): Decoding {
    if es == [] then Decoding(map[], [], false)
    else DecodeEntry(Decoded(es[..|es| - 1]), es[|es| - 1])
  }

  /** ReadAll: any decoding error leaves an empty entry. */
  function DecodeStrict(raw: Raw): Session {
    match Entries(raw)
    case None => EMPTY_SESSION
    case Some(es) => if Decoded(es).err then EMPTY_SESSION else Session(Decoded(es).fields)
  }

  /** decodeRawSessions: a type error is ignored, so whatever could be filled in is there. */
  function DecodeLoose(raw: Raw): Session {
    match Entries(raw)
    case None => EMPTY_SESSION
    case Some(es) => Session(Decoded(es).fields)
  }

  /** A line without a type error. */
  predicate WellTyped(raw: Raw) {
    Entries(raw).Some? ==> !Decoded(Entries(raw).value).err
  }

  /** The value of a schema field as the entry shows it. */
  function FieldOf(s: Session, field: JsonKey): Value
    requires KindOf(field).Some?
  {
    s.Get(field, KindOf(field).value)
  }

  lemma SameStr(s: Session, t: Session, field: JsonKey)
    requires KindOf(field) == Some(KStr) && FieldOf(s, field) == FieldOf(t, field)
    ensures s.Str(field) == t.Str(field)
  {
  }

  lemma SameBool(s: Session, t: Session, field: JsonKey)
    requires KindOf(field) == Some(KBool) && FieldOf(s, field) == FieldOf(t, field)
    ensures s.Bool(field) == t.Bool(field)
  {
  }

  lemma SameStrs(s: Session, t: Session, field: JsonKey)
    requires KindOf(field) == Some(KStrs) && FieldOf(s, field) == FieldOf(t, field)
    ensures s.Strs(field) == t.Strs(field)
  {
  }

  // ---------------------------------------------------------------- decoding field by field

  /** The values that fill a field, in text order. */
  function ValuesOf(es: seq<Entry>, field: JsonKey): seq<Value> {
    if es == [] then []
    else
      ValuesOf(es[..|es| - 1], field) +
      (if Fills(es[|es| - 1].key) == Some(field) then [es[|es| - 1].value.meaning] else [])
  }

  lemma SpareIsSlotted(slot: Slot, kind: Kind, v: Value)
    requires !kind.KStrs? && slot.spare == []
    ensures NextSlot(slot, kind, v).spare == []
  {
  }

  lemma EntryFillsItsField(d: Decoding, e: Entry, field: JsonKey)
    requires KindOf(field).Some?
    ensures SlotOf(DecodeEntry(d, e), field) ==
            if Fills(e.key) == Some(field) then NextSlot(SlotOf(d, field), KindOf(field).value, e.value.meaning)
            else SlotOf(d, field)
  {
    if Fills(e.key) == Some(field) && !field.PRURLs? {
      SpareIsSlotted(SlotOf(d, field), KindOf(field).value, e.value.meaning);
    }
  }

  lemma {:induction false} ValuesOfLast(es: seq<Entry>, field: JsonKey)
    requires es != [] && KindOf(field).Some?
    ensures var kind, front := KindOf(field).value, ValuesOf(es[..|es| - 1], field);
            Fill(kind, EMPTY_SLOT, ValuesOf(es, field)) ==
            if Fills(es[|es| - 1].key) == Some(field)
            then NextSlot(Fill(kind, EMPTY_SLOT, front), kind, es[|es| - 1].value.meaning)
            else Fill(kind, EMPTY_SLOT, front)
  {
    var front := ValuesOf(es[..|es| - 1], field);
    if Fills(es[|es| - 1].key) == Some(field) {
      assert ValuesOf(es, field)[..|front|] == front;
    } else {
      assert ValuesOf(es, field) == front;
    }
  }

  /** Decoding fills every field with its own values and looks at nothing else. */
  lemma {:induction false} SlotsByField(es: seq<Entry>, field: JsonKey)
    requires KindOf(field).Some?
    ensures SlotOf(Decoded(es), field) == Fill(KindOf(field).value, EMPTY_SLOT, ValuesOf(es, field))
  {
    if es != [] {
      SlotsByField(es[..|es| - 1], field);
      EntryFillsItsField(Decoded(es[..|es| - 1]), es[|es| - 1], field);
      ValuesOfLast(es, field);
    }
  }

  lemma SlotIsRead(d: Decoding, field: JsonKey)
    requires KindOf(field).Some?
    ensures FieldOf(Session(d.fields), field) == Reads(SlotOf(d, field), KindOf(field).value)
  {
  }

  lemma {:induction false} DecodesByField(es: seq<Entry>, field: JsonKey)
    requires KindOf(field).Some?
    ensures SlotOf(Decoded(es), field) == Fill(KindOf(field).value, EMPTY_SLOT, ValuesOf(es, field))
    ensures FieldOf(Session(Decoded(es).fields), field) == Reads(SlotOf(Decoded(es), field), KindOf(field).value)
  {
    SlotsByField(es, field);
    SlotIsRead(Decoded(es), field);
  }

  /** The decoder reports a type error for this pair. */
  predicate Unreadable(e: Entry) {
    Fills(e.key).Some? && Rejects(FilledKind(e.key), e.value.meaning)
  }

  ghost predicate SomeUnreadable(es: seq<Entry>) {
    exists i :: 0 <= i < |es| && Unreadable(es[i])
  }

  lemma EntryError(d: Decoding, e: Entry)
    ensures DecodeEntry(d, e).err <==> d.err || Unreadable(e)
  {
  }

  lemma {:induction false} ErrorAt(es: seq<Entry>, i: nat)
    requires i < |es| && Unreadable(es[i])
    ensures Decoded(es).err
  {
    EntryError(Decoded(es[..|es| - 1]), es[|es| - 1]);
    if i < |es| - 1 {
      ErrorAt(es[..|es| - 1], i);
    }
  }

  lemma {:induction false} NoError(es: seq<Entry>)
    requires !SomeUnreadable(es)
    ensures !Decoded(es).err
  {
    if es != [] {
      assert !Unreadable(es[|es| - 1]);
      assert forall i :: 0 <= i < |es| - 1 ==> es[..|es| - 1][i] == es[i];
      NoError(es[..|es| - 1]);
      EntryError(Decoded(es[..|es| - 1]), es[|es| - 1]);
    }
  }

  lemma {:induction false} ErrorsByEntry(es: seq<Entry>)
    ensures Decoded(es).err <==> SomeUnreadable(es)
  {
    if i :| 0 <= i < |es| && Unreadable(es[i]) {
      ErrorAt(es, i);
    } else {
      NoError(es);
    }
  }

  // ---------------------------------------------------------------- what a rewrite keeps of an entry

  /** The entry that decoding the line's canonical text gives. */
  ghost function KeptEntry(raw: Raw): Session {
    match ParseObject(raw)
    case None => EMPTY_SESSION
    case Some(m) => DecodeLoose(Print(m))
  }

  /** No schema field is also spelled in another case. */
  predicate NoVariants(m: Object) {
    forall k :: k in m ==> !IsVariant(k)
  }

  predicate NoVariantIn(raw: Raw) {
    ParseObject(raw).Some? ==> NoVariants(ParseObject(raw).value)
  }

  /**
   The line decodes without an error, spells no field in another case, and decodes to the same entry
   before and after being written canonically.
   */
  ghost predicate Regular(raw: Raw) {
    WellTyped(raw) && NoVariantIn(raw) && DecodeLoose(raw) == KeptEntry(raw)
  }

  /** The canonical text is its own canonical text. */
  lemma PrintIsCanonical(m: Object)
    ensures KeptEntry(Print(m)) == DecodeLoose(Print(m))
  {
    PrintParse(m);
  }

  predicate WellTypedObject(m: Object) {
    forall k :: k in m ==> !Unreadable(Entry(k, m[k]))
  }

  lemma PrintWellTyped(m: Object)
    ensures WellTyped(Print(m)) <==> WellTypedObject(m)
  {
    var keys := CanonicalKeys(m);
    var es := EntriesFor(m, keys);
    PrintParse(m);
    ErrorsByEntry(es);
    if k :| k in m && Unreadable(Entry(k, m[k])) {
      var i :| 0 <= i < |keys| && keys[i] == k;
      assert Unreadable(es[i]);
    }
  }

  /** The values a rewrite keeps are values of the line. */
  lemma {:induction false} LastWinsEntry(es: seq<Entry>, key: JsonKey)
    ensures key in LastWins(es) <==> exists i :: 0 <= i < |es| && es[i].key == key
    ensures key in LastWins(es) ==> Entry(key, LastWins(es)[key]) in es
  {
    if es != [] {
      var front, last := es[..|es| - 1], es[|es| - 1];
      LastWinsEntry(front, key);
      assert es == front + [last];
    }
  }

  /** A rewrite introduces no type error. */
  lemma RewriteKeepsTypes(raw: Raw)
    requires WellTyped(raw) && ParseObject(raw).Some?
    ensures WellTypedObject(ParseObject(raw).value)
  {
    var es := Entries(raw).value;
    ErrorsByEntry(es);
    forall k | k in LastWins(es)
      ensures !Unreadable(Entry(k, LastWins(es)[k]))
    {
      LastWinsEntry(es, k);
      var i :| 0 <= i < |es| && es[i] == Entry(k, LastWins(es)[k]);
      assert !Unreadable(es[i]);
    }
  }

  // ---------------------------------------------------------------- canonical text field by field

  /** The keys that fill a field. */
  function FillingKeys(m: Object, field: JsonKey): set<JsonKey> {
    set k | k in m && Fills(k) == Some(field)
  }

  function MeaningsOf(m: Object, keys: seq<JsonKey>): (r: seq<Value>)
    requires forall k :: k in keys ==> k in m
    ensures |r| == |keys| && forall i :: 0 <= i < |keys| ==> r[i] == m[keys[i]].meaning
  {
    seq(|keys|, i requires 0 <= i < |keys| => m[keys[i]].meaning)
  }

  /** The values that fill a field in the canonical text. */
  ghost function FieldValues(m: Object, field: JsonKey): seq<Value> {
    MeaningsOf(m, KeysInOrder(FillingKeys(m, field)))
  }

  /** The values of a field that stand under other spellings of its name, in canonical order. */
  ghost function VariantValues(m: Object, field: JsonKey): seq<Value> {
    MeaningsOf(m, KeysInOrder(FillingKeys(m, field) - {field}))
  }

  lemma FilterKeys(m: Object, fills: JsonKey -> bool, keys: set<JsonKey>)
    requires forall k :: k in keys <==> k in m && fills(k)
    ensures Filter(fills, CanonicalKeys(m)) == KeysInOrder(keys)
  {
    forall k
      ensures k in Filter(fills, CanonicalKeys(m)) <==> k in keys
    {
      FilterMember(fills, CanonicalKeys(m), k);
    }
    FilterSorted(FieldLess, fills, CanonicalKeys(m));
    KeysInOrderAreUnique(keys, Filter(fills, CanonicalKeys(m)));
  }

  lemma {:induction false} ValuesStep(m: Object, keys: seq<JsonKey>, field: JsonKey)
    requires keys != [] && forall k :: k in keys ==> k in m
    ensures var front, last := keys[..|keys| - 1], keys[|keys| - 1];
            ValuesOf(EntriesFor(m, keys), field) == ValuesOf(EntriesFor(m, front), field) +
              (if Fills(last) == Some(field) then [m[last].meaning] else [])
  {
    assert EntriesFor(m, keys)[..|keys| - 1] == EntriesFor(m, keys[..|keys| - 1]);
  }

  lemma MeaningsAppend(m: Object, keys: seq<JsonKey>, last: JsonKey)
    requires (forall k :: k in keys ==> k in m) && last in m
    ensures MeaningsOf(m, keys + [last]) == MeaningsOf(m, keys) + [m[last].meaning]
  {
  }

  lemma {:induction false} ValuesInOrder(m: Object, keys: seq<JsonKey>, fills: JsonKey -> bool, field: JsonKey)
    requires forall k :: k in keys ==> k in m
    requires forall k :: k in keys ==> (fills(k) <==> Fills(k) == Some(field))
    requires forall k :: k in Filter(fills, keys) ==> k in m
    ensures ValuesOf(EntriesFor(m, keys), field) == MeaningsOf(m, Filter(fills, keys))
  {
    if keys != [] {
      var front, last := keys[..|keys| - 1], keys[|keys| - 1];
      assert last in keys;
      assert forall k :: k in Filter(fills, front) ==> k in Filter(fills, keys);
      ValuesInOrder(m, front, fills, field);
      ValuesStep(m, keys, field);
      if fills(last) {
        MeaningsAppend(m, Filter(fills, front), last);
      }
    }
  }

  lemma ValuesByKeys(m: Object, fills: JsonKey -> bool, keys: set<JsonKey>, field: JsonKey)
    requires forall k :: k in keys <==> k in m && fills(k)
    requires forall k :: k in m ==> (fills(k) <==> Fills(k) == Some(field))
    ensures ValuesOf(EntriesFor(m, CanonicalKeys(m)), field) == MeaningsOf(m, KeysInOrder(keys))
  {
    FilterKeys(m, fills, keys);
    ValuesInOrder(m, CanonicalKeys(m), fills, field);
  }

  lemma ValuesOfPrint(m: Object, field: JsonKey)
    ensures ValuesOf(EntriesFor(m, CanonicalKeys(m)), field) == FieldValues(m, field)
  {
    var keys := FillingKeys(m, field);
    ValuesByKeys(m, (k: JsonKey) => k in keys, keys, field);
  }

  /** A field of the canonical text reads as its own values in canonical order fill it. */
  lemma KeptByField(m: Object, field: JsonKey)
    requires KindOf(field).Some?
    ensures FieldOf(DecodeLoose(Print(m)), field) ==
            Reads(Fill(KindOf(field).value, EMPTY_SLOT, FieldValues(m, field)), KindOf(field).value)
  {
    PrintParse(m);
    ValuesOfPrint(m, field);
    DecodesByField(EntriesFor(m, CanonicalKeys(m)), field);
  }

  /** Setting a key leaves the values of every field it does not fill alone. */
  lemma OtherFieldValues(m: Object, key: JsonKey, v: RawValue, field: JsonKey)
    requires Fills(key) != Some(field)
    ensures FieldValues(m[key := v], field) == FieldValues(m, field)
  {
    assert FillingKeys(m[key := v], field) == FillingKeys(m, field);
    assert key !in KeysInOrder(FillingKeys(m, field));
  }

  lemma VariantIsNamed(key: JsonKey, field: JsonKey)
    requires key != field && Fills(key) == Some(field)
    ensures key.Named? && IsVariant(key)
  {
  }

  lemma RankedFirst(keys: set<JsonKey>, field: JsonKey)
    requires Rank(field).Some? && field !in keys && forall k :: k in keys ==> k.Named?
    ensures KeysInOrder(keys + {field}) == [field] + KeysInOrder(keys)
  {
    var rest := KeysInOrder(keys);
    forall i | 0 <= i < |rest|
      ensures FieldLess(field, rest[i])
    {
      assert rest[i] in keys;
    }
    KeysInOrderAreUnique(keys + {field}, [field] + rest);
  }

  lemma VariantsAreNamed(m: Object, field: JsonKey)
    ensures forall k :: k in FillingKeys(m, field) - {field} ==> k.Named?
  {
    forall k | k in FillingKeys(m, field) - {field}
      ensures k.Named?
    {
      VariantIsNamed(k, field);
    }
  }

  lemma OwnKeyFirst(m: Object, field: JsonKey)
    requires Rank(field).Some? && KindOf(field).Some? && field in m
    ensures KeysInOrder(FillingKeys(m, field)) == [field] + KeysInOrder(FillingKeys(m, field) - {field})
  {
    var others := FillingKeys(m, field) - {field};
    VariantsAreNamed(m, field);
    assert FillingKeys(m, field) == others + {field};
    RankedFirst(others, field);
  }

  lemma NoOwnKey(m: Object, field: JsonKey)
    requires field !in m
    ensures FillingKeys(m, field) - {field} == FillingKeys(m, field)
  {
  }

  /** A ranked field comes before its other spellings. */
  lemma RankedFieldFirst(m: Object, field: JsonKey)
    requires Rank(field).Some?
    ensures FieldValues(m, field) == (if field in m then [m[field].meaning] else []) + VariantValues(m, field)
  {
    if field in m {
      OwnKeyFirst(m, field);
    } else {
      NoOwnKey(m, field);
    }
  }

  /** Setting a ranked field changes its first value only. */
  lemma SetFieldValues(m: Object, field: JsonKey, v: RawValue)
    requires Rank(field).Some?
    ensures FieldValues(m[field := v], field) == [v.meaning] + VariantValues(m, field)
  {
    RankedFieldFirst(m[field := v], field);
    assert FillingKeys(m[field := v], field) - {field} == FillingKeys(m, field) - {field};
    assert field !in KeysInOrder(FillingKeys(m, field) - {field});
  }

  // ---------------------------------------------------------------- setting a field of a canonical line

  /** What a field of the canonical text reads as. */
  ghost function KeptField(m: Object, field: JsonKey): Value
    requires KindOf(field).Some?
  {
    FieldOf(DecodeLoose(Print(m)), field)
  }

  /** Setting a key shows in no field but the one it fills. */
  lemma SetSparesOthers(m: Object, key: JsonKey, v: RawValue, field: JsonKey)
    requires KindOf(field).Some? && Fills(key) != Some(field)
    ensures KeptField(m[key := v], field) == KeptField(m, field)
  {
    OtherFieldValues(m, key, v, field);
    KeptByField(m, field);
    KeptByField(m[key := v], field);
  }

  /** The values of a ranked field before and after it is set are followed by the same other spellings. */
  lemma SetFillsFrom(m: Object, field: JsonKey, v: RawValue) returns (before: Slot)
    requires Rank(field).Some? && KindOf(field).Some?
    ensures var kind, rest := KindOf(field).value, VariantValues(m, field);
            && KeptField(m, field) == Reads(Fill(kind, before, rest), kind)
            && KeptField(m[field := v], field) == Reads(Fill(kind, NextSlot(EMPTY_SLOT, kind, v.meaning), rest), kind)
            && before == (if field in m then NextSlot(EMPTY_SLOT, kind, m[field].meaning) else EMPTY_SLOT)
  {
    var kind, rest := KindOf(field).value, VariantValues(m, field);
    RankedFieldFirst(m, field);
    SetFieldValues(m, field, v);
    KeptByField(m, field);
    KeptByField(m[field := v], field);
    FillAppend(kind, EMPTY_SLOT, [v.meaning], rest);
    FillWithOne(kind, v.meaning);
    if field in m {
      FillAppend(kind, EMPTY_SLOT, [m[field].meaning], rest);
      FillWithOne(kind, m[field].meaning);
      before := NextSlot(EMPTY_SLOT, kind, m[field].meaning);
    } else {
      assert [] + rest == rest;
      before := EMPTY_SLOT;
    }
  }

  lemma FillWithOne(kind: Kind, v: Value)
    ensures Fill(kind, EMPTY_SLOT, [v]) == NextSlot(EMPTY_SLOT, kind, v)
  {
    assert [v][..0] == [];
  }

  /** A plain field that is set shows the new value or, behind another spelling, what it showed before. */
  lemma SetPlain(m: Object, field: JsonKey, v: Value)
    requires Rank(field).Some? && KindOf(field).Some? && !KindOf(field).value.KStrs? && OfKind(v, KindOf(field).value)
    ensures KeptField(m[field := Encode(v)], field) == v || KeptField(m[field := Encode(v)], field) == KeptField(m, field)
  {
    var before := SetFillsFrom(m, field, Encode(v));
    var kind := KindOf(field).value;
    FillForgets(kind, NextSlot(EMPTY_SLOT, kind, v), before, VariantValues(m, field));
  }

  /** Another spelling of the URL list's name sets its length after the name itself. */
  ghost predicate URLsOverridden(m: Object) {
    SomeSetsLength(VariantValues(m, PRURLs))
  }

  ghost function KeptURLs(m: Object): seq<string> {
    DecodeLoose(Print(m)).Strs(PRURLs)
  }

  lemma KeptURLsAre(m: Object)
    ensures KeptField(m, PRURLs) == VStrs(KeptURLs(m))
  {
  }

  /** The URL list that is set shows unless another spelling overrides its length, which then stays as it was. */
  lemma SetURLs(m: Object, urls: seq<string>)
    ensures var after := KeptURLs(m[PRURLs := Encode(VStrs(urls))]);
            if URLsOverridden(m) then |after| == |KeptURLs(m)| else after == urls
  {
    KeptURLsAre(m);
    KeptURLsAre(m[PRURLs := Encode(VStrs(urls))]);
    var before := SetFillsFrom(m, PRURLs, Encode(VStrs(urls)));
    FillLength(NextSlot(EMPTY_SLOT, KStrs, VStrs(urls)), before, VariantValues(m, PRURLs));
  }

  lemma NoVariantsNoOverride(m: Object)
    requires forall k :: k in m && Fills(k) == Some(PRURLs) ==> k == PRURLs
    ensures !URLsOverridden(m)
  {
    KeysInOrderAreUnique(FillingKeys(m, PRURLs) - {PRURLs}, []);
  }

  // ---------------------------------------------------------------- lines without other spellings

  /** Can a field use the value on its own? */
  predicate Usable(key: JsonKey, v: Value) {
    KindOf(key).Some? && (OfKind(v, KindOf(key).value) || (KindOf(key).value.KStrs? && v.VMixed?))
  }

  function FreshValue(v: Value): Value {
    if v.VMixed? then VStrs(FillSlots(v.elems, [])) else v
  }

  function UsableFields(m: Object): map<JsonKey, Value> {
    map k | k in m && Usable(k, m[k].meaning) :: FreshValue(m[k].meaning)
  }

  lemma {:induction false} OnlySchemaFields(es: seq<Entry>)
    ensures forall k :: k in Decoded(es).fields ==> KindOf(k).Some?
  {
    if es != [] {
      OnlySchemaFields(es[..|es| - 1]);
    }
  }

  /** Pairs that give every field the same values decode to the same fields. */
  lemma {:induction false} SameValuesDecode(a: seq<Entry>, b: seq<Entry>)
    requires forall field :: KindOf(field).Some? ==> ValuesOf(a, field) == ValuesOf(b, field)
    ensures Decoded(a).fields == Decoded(b).fields
  {
    OnlySchemaFields(a);
    OnlySchemaFields(b);
    forall field | KindOf(field).Some?
      ensures SlotOf(Decoded(a), field) == SlotOf(Decoded(b), field)
    {
      DecodesByField(a, field);
      DecodesByField(b, field);
    }
  }

  /** The one value a field has. */
  function OwnValue(m: Object, field: JsonKey): seq<Value> {
    if field in m then [m[field].meaning] else []
  }

  lemma NoVariantValues(m: Object, field: JsonKey)
    requires NoVariants(m) && KindOf(field).Some?
    ensures FieldValues(m, field) == OwnValue(m, field)
  {
    forall k | k in m && Fills(k) == Some(field)
      ensures k == field
    {
      if k != field { VariantIsNamed(k, field); }
    }
    var keys := if field in m then [field] else [];
    KeysInOrderAreUnique(FillingKeys(m, field), keys);
  }

  lemma OwnValueFills(m: Object, field: JsonKey)
    requires KindOf(field).Some?
    ensures Fill(KindOf(field).value, EMPTY_SLOT, OwnValue(m, field)).value ==
            if field in UsableFields(m) then Some(UsableFields(m)[field]) else None
  {
    if field in m {
      FillWithOne(KindOf(field).value, m[field].meaning);
    }
  }

  lemma PrintSlot(m: Object, field: JsonKey)
    requires NoVariants(m) && KindOf(field).Some?
    ensures SlotOf(Decoded(EntriesFor(m, CanonicalKeys(m))), field).value ==
            if field in UsableFields(m) then Some(UsableFields(m)[field]) else None
  {
    ValuesOfPrint(m, field);
    NoVariantValues(m, field);
    DecodesByField(EntriesFor(m, CanonicalKeys(m)), field);
    OwnValueFills(m, field);
  }

  /** Fields that hold the same are the same. */
  lemma FieldsBySlot(d: Decoding, fields: map<JsonKey, Value>)
    requires forall k :: k in d.fields ==> KindOf(k).Some?
    requires forall k :: k in fields ==> KindOf(k).Some?
    requires forall field :: KindOf(field).Some? ==>
               SlotOf(d, field).value == if field in fields then Some(fields[field]) else None
    ensures d.fields == fields
  {
    forall k | KindOf(k).Some?
      ensures k in d.fields <==> k in fields
      ensures k in fields ==> d.fields[k] == fields[k]
    {
      assert SlotOf(d, k).value == if k in fields then Some(fields[k]) else None;
    }
  }

  /** Without other spellings the canonical text decodes key by key. */
  lemma PrintDecodes(m: Object)
    requires NoVariants(m)
    ensures DecodeLoose(Print(m)) == Session(UsableFields(m))
  {
    var es := EntriesFor(m, CanonicalKeys(m));
    PrintParse(m);
    OnlySchemaFields(es);
    forall field | KindOf(field).Some?
      ensures SlotOf(Decoded(es), field).value ==
              if field in UsableFields(m) then Some(UsableFields(m)[field]) else None
    {
      PrintSlot(m, field);
    }
    FieldsBySlot(Decoded(es), UsableFields(m));
  }

  ghost predicate DistinctKeys(es: seq<Entry>) {
    forall i, j :: 0 <= i < j < |es| ==> es[i].key != es[j].key
  }

  predicate NoVariantKeys(es: seq<Entry>) {
    forall i :: 0 <= i < |es| ==> !IsVariant(es[i].key)
  }

  lemma {:induction false} NoVariantKeysOf(es: seq<Entry>)
    ensures NoVariants(LastWins(es)) <==> NoVariantKeys(es)
  {
    forall k
      ensures k in LastWins(es) <==> exists i :: 0 <= i < |es| && es[i].key == k
    {
      LastWinsEntry(es, k);
    }
    if NoVariants(LastWins(es)) {
      forall i | 0 <= i < |es|
        ensures !IsVariant(es[i].key)
      {
        assert es[i].key in LastWins(es);
      }
    }
  }

  lemma OwnValueNext(m: Object, e: Entry, field: JsonKey)
    requires e.key !in m && !IsVariant(e.key) && KindOf(field).Some?
    ensures OwnValue(m[e.key := e.value], field) ==
            OwnValue(m, field) + (if Fills(e.key) == Some(field) then [e.value.meaning] else [])
  {
  }

  lemma {:induction false} DistinctValues(es: seq<Entry>, field: JsonKey)
    requires DistinctKeys(es) && NoVariantKeys(es) && KindOf(field).Some?
    ensures ValuesOf(es, field) == OwnValue(LastWins(es), field)
  {
    if es != [] {
      var front, last := es[..|es| - 1], es[|es| - 1];
      DistinctValues(front, field);
      LastWinsEntry(front, last.key);
      OwnValueNext(LastWins(front), last, field);
    }
  }

  /**
   A line whose keys are all different, none of them a field in another case, loses nothing in a
   rewrite, and is regular if it has no type error.
   */
  lemma DistinctKeysAreRegular(raw: Raw)
    requires Entries(raw).Some? ==> DistinctKeys(Entries(raw).value) && NoVariantKeys(Entries(raw).value)
    ensures DecodeLoose(raw) == KeptEntry(raw)
    ensures Regular(raw) <==> WellTyped(raw)
  {
    if Entries(raw).Some? {
      var es := Entries(raw).value;
      var m := LastWins(es);
      NoVariantKeysOf(es);
      PrintParse(m);
      forall field | KindOf(field).Some?
        ensures ValuesOf(es, field) == ValuesOf(EntriesFor(m, CanonicalKeys(m)), field)
      {
        DistinctValues(es, field);
        NoVariantValues(m, field);
        ValuesOfPrint(m, field);
      }
      SameValuesDecode(es, EntriesFor(m, CanonicalKeys(m)));
    }
  }

  /** Setting a schema field to a value of its type is visible in the usable fields and nowhere else. */
  lemma UsableAfterUpdate(m: Object, key: JsonKey, v: Value)
    requires KindOf(key).Some? && OfKind(v, KindOf(key).value)
    ensures UsableFields(m[key := Encode(v)]) == UsableFields(m)[key := v]
  {
  }

  lemma UpdateKeepsTypes(m: Object, key: JsonKey, v: Value)
    requires KindOf(key).Some? && OfKind(v, KindOf(key).value)
    ensures WellTypedObject(m) ==> WellTypedObject(m[key := Encode(v)])
    ensures NoVariants(m) ==> NoVariants(m[key := Encode(v)])
  {
  }

  // ---------------------------------------------------------------- what can be lost

  /** Some pair of the line gives the field this value. */
  ghost predicate Offers(raw: Raw, field: JsonKey, v: Value) {
    Entries(raw).Some? &&
    exists i :: 0 <= i < |Entries(raw).value| && Fills(Entries(raw).value[i].key) == Some(field) &&
                Entries(raw).value[i].value.meaning == v
  }

  lemma {:induction false} KeptValueIsOffered(es: seq<Entry>, field: JsonKey, v: Value)
    requires v in FieldValues(LastWins(es), field)
    ensures exists i :: 0 <= i < |es| && Fills(es[i].key) == Some(field) && es[i].value.meaning == v
  {
    var m := LastWins(es);
    var keys := KeysInOrder(FillingKeys(m, field));
    var i :| 0 <= i < |FieldValues(m, field)| && FieldValues(m, field)[i] == v;
    assert keys[i] in FillingKeys(m, field);
    LastWinsEntry(es, keys[i]);
    var j :| 0 <= j < |es| && es[j] == Entry(keys[i], m[keys[i]]);
    assert es[j].value.meaning == v;
  }

  /** Whatever the keys of a line, a plain field reads after a rewrite as zero or as one of the line's values for it. */
  lemma RewriteInventsNothing(raw: Raw, field: JsonKey)
    requires KindOf(field).Some? && !KindOf(field).value.KStrs?
    ensures var kept := FieldOf(KeptEntry(raw), field);
            kept == Zero(KindOf(field).value) || Offers(raw, field, kept)
  {
    if ParseObject(raw).Some? {
      var m, kind := ParseObject(raw).value, KindOf(field).value;
      KeptByField(m, field);
      FillInventsNothing(kind, FieldValues(m, field));
      if KeptField(m, field) != Zero(kind) {
        KeptValueIsOffered(Entries(raw).value, field, KeptField(m, field));
      }
    }
  }

  /** Element by element, the text that was read or the empty one. */
  predicate KeptTexts(kept: seq<string>, read: seq<string>) {
    |kept| == |read| && forall i :: 0 <= i < |kept| ==> kept[i] == read[i] || kept[i] == ""
  }

  /** What a rewrite keeps of one field: all of it or, for a last value of null or of another type, nothing. */
  predicate KeptOrZero(kept: Value, read: Value, kind: Kind)
    requires OfKind(kept, kind) && OfKind(read, kind)
  {
    if kind.KStrs? then kept.ss == [] || KeptTexts(kept.ss, read.ss) else kept == read || kept == Zero(kind)
  }

  lemma KeptOrZeroNext(slot: Slot, kind: Kind, v: Value)
    ensures KeptOrZero(Reads(NextSlot(EMPTY_SLOT, kind, v), kind), Reads(NextSlot(slot, kind, v), kind), kind)
  {
  }

  lemma {:induction false} LastOfOwnValues(es: seq<Entry>, field: JsonKey)
    requires NoVariantKeys(es) && KindOf(field).Some?
    ensures var vs := ValuesOf(es, field);
            OwnValue(LastWins(es), field) == if vs == [] then [] else [vs[|vs| - 1]]
  {
    if es != [] {
      LastOfOwnValues(es[..|es| - 1], field);
    }
  }

  /** Without other spellings a rewrite keeps every field or, for a last value of null or of another type, empties it. */
  lemma KeptOrLost(raw: Raw, field: JsonKey)
    requires NoVariantIn(raw) && KindOf(field).Some?
    ensures KeptOrZero(FieldOf(KeptEntry(raw), field), FieldOf(DecodeLoose(raw), field), KindOf(field).value)
  {
    if Entries(raw).None? {
      return;
    }
    var es, kind := Entries(raw).value, KindOf(field).value;
    var vs := ValuesOf(es, field);
    NoVariantKeysOf(es);
    LastOfOwnValues(es, field);
    NoVariantValues(LastWins(es), field);
    KeptByField(LastWins(es), field);
    DecodesByField(es, field);
    if vs != [] {
      var v := vs[|vs| - 1];
      FillWithOne(kind, v);
      KeptOrZeroNext(Fill(kind, EMPTY_SLOT, vs[..|vs| - 1]), kind, v);
    }
  }

  // ---------------------------------------------------------------- writing a whole entry

  /** The listed fields that json.Marshal writes for an entry, in declaration order. */
  function Written(fields: seq<Field>, s: Session): seq<JsonKey> {
    if fields == [] then []
    else if fields[0].omitEmpty && s.Get(fields[0].key, fields[0].kind) == Zero(fields[0].kind) then
      Written(fields[1..], s)
    else
      [fields[0].key] + Written(fields[1..], s)
  }

  /** Every schema field of an entry with the value it is written with. */
  function FullObject(fields: seq<Field>, s: Session): Object {
    if fields == [] then map[]
    else FullObject(fields[1..], s)[fields[0].key := Encode(s.Get(fields[0].key, KindOrStr(fields[0].key)))]
  }

  lemma {:induction false} FullObjectGet(fields: seq<Field>, s: Session, key: JsonKey)
    ensures key in FullObject(fields, s) <==> exists i :: 0 <= i < |fields| && fields[i].key == key
    ensures key in FullObject(fields, s) ==> FullObject(fields, s)[key] == Encode(s.Get(key, KindOrStr(key)))
  {
    if fields != [] {
      FullObjectGet(fields[1..], s, key);
      if key in FullObject(fields[1..], s) {
        var i :| 0 <= i < |fields[1..]| && fields[1..][i].key == key;
        assert fields[i + 1].key == key;
      }
      if i :| 0 < i < |fields| && fields[i].key == key {
        assert fields[1..][i - 1].key == key;
      }
    }
  }

  function KindOrStr(key: JsonKey): Kind {
    match KindOf(key)
    case None => KStr
    case Some(kind) => kind
  }

  lemma {:induction false} WrittenKeys(fields: seq<Field>, s: Session, key: JsonKey)
    ensures key in Written(fields, s) ==> exists i :: 0 <= i < |fields| && fields[i].key == key
    ensures key !in Written(fields, s) ==>
              forall i :: 0 <= i < |fields| && fields[i].key == key ==>
                s.Get(key, fields[i].kind) == Zero(fields[i].kind)
  {
    if fields != [] {
      WrittenKeys(fields[1..], s, key);
      if key in Written(fields[1..], s) {
        var i :| 0 <= i < |fields[1..]| && fields[1..][i].key == key;
        assert fields[i + 1].key == key;
      }
      if key !in Written(fields, s) {
        forall i | 0 <= i < |fields| && fields[i].key == key
          ensures s.Get(key, fields[i].kind) == Zero(fields[i].kind)
        {
          if i > 0 { assert fields[1..][i - 1] == fields[i]; }
        }
      }
    }
  }

  lemma WrittenKeysAreFields(fields: seq<Field>, s: Session)
    ensures forall k :: k in Written(fields, s) ==> k in FullObject(fields, s)
  {
    forall k | k in Written(fields, s)
      ensures k in FullObject(fields, s)
    {
      WrittenKeys(fields, s, k);
      FullObjectGet(fields, s, k);
    }
  }

  /** MarshalSession writes the schema fields only: keys outside the schema are dropped. */
  function MarshalSession(s: Session): Raw {
    WrittenKeysAreFields(SCHEMA, s);
    PrintWith(FullObject(SCHEMA, s), Written(SCHEMA, s), [])
  }

  ghost function WrittenObject(s: Session): Object {
    WrittenKeysAreFields(SCHEMA, s);
    map k | k in Written(SCHEMA, s) :: FullObject(SCHEMA, s)[k]
  }

  lemma WrittenObjectDecodes(s: Session, key: JsonKey)
    ensures key in WrittenObject(s) ==>
              KindOf(key).Some? && WrittenObject(s)[key] == Encode(s.Get(key, KindOf(key).value))
    ensures KindOf(key).Some? && key !in WrittenObject(s) ==>
              s.Get(key, KindOf(key).value) == Zero(KindOf(key).value)
  {
    WrittenKeysAreFields(SCHEMA, s);
    SchemaCoversEveryKnownKey(key);
    WrittenKeys(SCHEMA, s, key);
    FullObjectGet(SCHEMA, s, key);
  }

  /** Every pair is a schema field with a value of the field's type, so all of them are spelled exactly. */
  ghost predicate ProperEntries(es: seq<Entry>) {
    forall i :: 0 <= i < |es| ==> ProperEntry(es[i])
  }

  predicate ProperEntry(e: Entry) {
    KindOf(e.key).Some? && OfKind(e.value.meaning, KindOf(e.key).value)
  }

  lemma ProperNext(m: Object, d: Decoding, e: Entry)
    requires d.fields == UsableFields(m) && !d.err && ProperEntry(e)
    ensures DecodeEntry(d, e).fields == UsableFields(m[e.key := e.value]) && !DecodeEntry(d, e).err
  {
    UsableAfterUpdate(m, e.key, e.value.meaning);
    assert UsableFields(m[e.key := e.value]) == UsableFields(m[e.key := Encode(e.value.meaning)]);
  }

  lemma {:induction false} ProperEntriesDecode(es: seq<Entry>)
    requires ProperEntries(es)
    ensures Decoded(es).fields == UsableFields(LastWins(es)) && !Decoded(es).err
  {
    if es != [] {
      var front := es[..|es| - 1];
      ProperEntriesDecode(front);
      ProperNext(LastWins(front), Decoded(front), es[|es| - 1]);
    }
  }

  lemma WrittenAreProper(s: Session)
    requires forall k :: k in Written(SCHEMA, s) ==> k in FullObject(SCHEMA, s)
    ensures ProperEntries(EntriesFor(FullObject(SCHEMA, s), Written(SCHEMA, s)))
  {
    var keys := Written(SCHEMA, s);
    forall i | 0 <= i < |keys|
      ensures ProperEntry(EntriesFor(FullObject(SCHEMA, s), keys)[i])
    {
      WrittenKeys(SCHEMA, s, keys[i]);
      FullObjectGet(SCHEMA, s, keys[i]);
      SchemaCoversEveryKnownKey(keys[i]);
    }
  }

  lemma {:induction false} ProperHasNoVariants(es: seq<Entry>)
    requires ProperEntries(es)
    ensures NoVariants(LastWins(es))
  {
    forall i | 0 <= i < |es|
      ensures !IsVariant(es[i].key)
    {
      assert ProperEntry(es[i]);
    }
    NoVariantKeysOf(es);
  }

  /** Text written from values of the right types decodes to them. */
  lemma ProperTextDecodes(m: Object, keys: seq<JsonKey>, raw: Raw)
    requires (forall k :: k in keys ==> k in m) && ProperEntries(EntriesFor(m, keys))
    requires Entries(raw) == Some(EntriesFor(m, keys))
    ensures ParseObject(raw) == Some(map k | k in keys :: m[k])
    ensures Regular(raw) && DecodeStrict(raw) == Session(UsableFields(map k | k in keys :: m[k]))
  {
    LastWinsOfKeys(m, keys);
    ProperEntriesDecode(EntriesFor(m, keys));
    ProperHasNoVariants(EntriesFor(m, keys));
    PrintDecodes(LastWins(EntriesFor(m, keys)));
  }

  lemma MarshalSessionDecodes(s: Session)
    ensures ParseObject(MarshalSession(s)) == Some(WrittenObject(s))
    ensures Regular(MarshalSession(s)) && DecodeStrict(MarshalSession(s)) == Session(UsableFields(WrittenObject(s)))
  {
    WrittenKeysAreFields(SCHEMA, s);
    WrittenAreProper(s);
    ReadBack(FullObject(SCHEMA, s), Written(SCHEMA, s), []);
    ProperTextDecodes(FullObject(SCHEMA, s), Written(SCHEMA, s), MarshalSession(s));
  }

  lemma FieldComesBack(s: Session, key: JsonKey, kind: Kind)
    requires KindOf(key) == Some(kind)
    ensures Session(UsableFields(WrittenObject(s))).Get(key, kind) == s.Get(key, kind)
  {
    WrittenObjectDecodes(s, key);
  }

  /** Round trip of an entry: what MarshalSession wrote decodes to the same value of every schema field. */
  lemma MarshalSessionRoundTrip(s: Session)
    ensures ParseObject(MarshalSession(s)).Some? && Regular(MarshalSession(s))
    ensures forall key :: KindOf(key).Some? ==>
              var kind := KindOf(key).value;
              DecodeStrict(MarshalSession(s)).Get(key, kind) == s.Get(key, kind)
  {
    MarshalSessionDecodes(s);
    forall key | KindOf(key).Some?
      ensures var kind := KindOf(key).value; DecodeStrict(MarshalSession(s)).Get(key, kind) == s.Get(key, kind)
    {
      FieldComesBack(s, key, KindOf(key).value);
    }
  }
}
