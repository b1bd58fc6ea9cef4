/** The text json.Marshal writes for a whole entry. */
module EntryText {
  import opened Common
  import opened JsonLine
  import opened SessionDecoder

  lemma {:induction false} WrittenAppend(a: seq<Field>, b: seq<Field>, s: Session)
    ensures Written(a + b, s) == Written(a, s) + Written(b, s)
  {
    if a == [] {
      assert a + b == b;
    } else {
      assert (a + b)[1..] == a[1..] + b;
      WrittenAppend(a[1..], b, s);
    }
  }

  lemma {:induction false} AlwaysWritten(fields: seq<Field>, s: Session)
    requires forall i :: 0 <= i < |fields| ==> !fields[i].omitEmpty
    ensures Written(fields, s) == Map((f: Field) => f.key, fields)
  {
    if fields != [] {
      AlwaysWritten(fields[1..], s);
    }
  }

  lemma WrittenIfSet(f: Field, s: Session)
    requires f.omitEmpty
    ensures Written([f], s) == if s.Get(f.key, f.kind) == Zero(f.kind) then [] else [f.key]
  {
    assert [f][1..] == [];
  }

  function IfSet(present: bool, key: JsonKey): seq<JsonKey> {
    if present then [key] else []
  }

  /** The keys json.Marshal writes for an entry: all fields of the schema but four that are left out when empty. */
  function MarshaledKeys(s: Session): seq<JsonKey> {
    [CodingAgent, AgentVersion] + IfSet(s.Str(USER_ID) != "", USER_ID) + [Timestamp, SessionID, Cwd, Repo, Branch]
    + IfSet(s.Bool(IsDefaultBranch), IsDefaultBranch) + [PRURLs] + IfSet(s.Bool(PRPinned), PRPinned)
    + IfSet(s.Str(PRTitle) != "", PRTitle)
    + [Transcript, ParentSessionID, EndedAt, EndReason, BackfillChecked, IsMerged, ReviewComments, ChangesRequested]
  }

  lemma WrittenParts(fields: seq<Field>, a: seq<Field>, b: seq<Field>, c: seq<Field>, d: seq<Field>, e: seq<Field>, f: seq<Field>,
                     g: seq<Field>, h: seq<Field>, s: Session)
    requires fields == a + b + c + d + e + f + g + h
    ensures Written(fields, s) == Written(a, s) + Written(b, s) + Written(c, s) + Written(d, s) + Written(e, s) + Written(f, s)
                                  + Written(g, s) + Written(h, s)
  {
    WrittenAppend(a + b + c + d + e + f + g, h, s);
    WrittenAppend(a + b + c + d + e + f, g, s);
    WrittenAppend(a + b + c + d + e, f, s);
    WrittenAppend(a + b + c + d, e, s);
    WrittenAppend(a + b + c, d, s);
    WrittenAppend(a + b, c, s);
    WrittenAppend(a, b, s);
  }

  lemma Parts(s: seq<Field>)
    requires |s| == 20
    ensures s == s[..2] + [s[2]] + s[3..8] + [s[8]] + s[9..10] + [s[10]] + [s[11]] + s[12..]
  {
  }

  lemma Omitted(k: nat)
    requires k < |SCHEMA|
    ensures SCHEMA[k].omitEmpty <==> k == 2 || k == 8 || k == 10 || k == 11
  {
  }

  /** Only the fields at these four positions are left out when empty. */
  lemma SchemaParts()
    ensures |SCHEMA| == 20
    ensures SCHEMA == SCHEMA[..2] + [SCHEMA[2]] + SCHEMA[3..8] + [SCHEMA[8]] + SCHEMA[9..10] + [SCHEMA[10]] + [SCHEMA[11]] + SCHEMA[12..]
    ensures forall k :: 0 <= k < |SCHEMA| ==> (SCHEMA[k].omitEmpty <==> k == 2 || k == 8 || k == 10 || k == 11)
  {
    Parts(SCHEMA);
    forall k | 0 <= k < |SCHEMA|
      ensures SCHEMA[k].omitEmpty <==> k == 2 || k == 8 || k == 10 || k == 11
    {
      Omitted(k);
    }
  }

  lemma SchemaKeys()
    ensures Map((f: Field) => f.key, SCHEMA[..2]) == [CodingAgent, AgentVersion]
    ensures Map((f: Field) => f.key, SCHEMA[3..8]) == [Timestamp, SessionID, Cwd, Repo, Branch]
    ensures Map((f: Field) => f.key, SCHEMA[9..10]) == [PRURLs]
    ensures Map((f: Field) => f.key, SCHEMA[12..]) ==
            [Transcript, ParentSessionID, EndedAt, EndReason, BackfillChecked, IsMerged, ReviewComments, ChangesRequested]
  {
  }

  lemma OptionalFields(s: Session)
    ensures Written([SCHEMA[2]], s) == IfSet(s.Str(USER_ID) != "", USER_ID)
    ensures Written([SCHEMA[8]], s) == IfSet(s.Bool(IsDefaultBranch), IsDefaultBranch)
    ensures Written([SCHEMA[10]], s) == IfSet(s.Bool(PRPinned), PRPinned)
    ensures Written([SCHEMA[11]], s) == IfSet(s.Str(PRTitle) != "", PRTitle)
  {
    WrittenIfSet(SCHEMA[2], s);
    WrittenIfSet(SCHEMA[8], s);
    WrittenIfSet(SCHEMA[10], s);
    WrittenIfSet(SCHEMA[11], s);
  }

  lemma PlainFields(s: Session, i: nat, j: nat)
    requires i <= j <= |SCHEMA| && forall k :: i <= k < j ==> !SCHEMA[k].omitEmpty
    ensures Written(SCHEMA[i..j], s) == Map((f: Field) => f.key, SCHEMA[i..j])
  {
    AlwaysWritten(SCHEMA[i..j], s);
  }

  lemma AllPlainFields(s: Session)
    ensures |SCHEMA| == 20
    ensures Written(SCHEMA[..2], s) == [CodingAgent, AgentVersion]
    ensures Written(SCHEMA[3..8], s) == [Timestamp, SessionID, Cwd, Repo, Branch]
    ensures Written(SCHEMA[9..10], s) == [PRURLs]
    ensures Written(SCHEMA[12..], s) ==
            [Transcript, ParentSessionID, EndedAt, EndReason, BackfillChecked, IsMerged, ReviewComments, ChangesRequested]
  {
    SchemaParts();
    SchemaKeys();
    PlainFields(s, 0, 2);
    PlainFields(s, 3, 8);
    PlainFields(s, 9, 10);
    PlainFields(s, 12, 20);
    assert SCHEMA[0..2] == SCHEMA[..2] && SCHEMA[12..20] == SCHEMA[12..];
  }

  lemma WrittenKeysInOrder(s: Session)
    ensures Written(SCHEMA, s) == MarshaledKeys(s)
  {
    SchemaParts();
    AllPlainFields(s);
    OptionalFields(s);
    WrittenParts(SCHEMA, SCHEMA[..2], [SCHEMA[2]], SCHEMA[3..8], [SCHEMA[8]], SCHEMA[9..10], [SCHEMA[10]], [SCHEMA[11]], SCHEMA[12..], s);
  }

  /** An entry is written as its fields in declaration order, each with its value, and nothing else. */
  lemma MarshalSessionWrites(s: Session)
    ensures var keys := MarshaledKeys(s);
            && Entries(MarshalSession(s)).Some? && |Entries(MarshalSession(s)).value| == |keys|
            && forall i :: 0 <= i < |keys| ==>
                 KindOf(keys[i]).Some? && Entries(MarshalSession(s)).value[i] == Entry(keys[i], Encode(FieldOf(s, keys[i])))
  {
    var keys := MarshaledKeys(s);
    WrittenKeysInOrder(s);
    WrittenKeysAreFields(SCHEMA, s);
    ReadBack(FullObject(SCHEMA, s), keys, []);
    forall i | 0 <= i < |keys|
      ensures KindOf(keys[i]).Some? && EntriesFor(FullObject(SCHEMA, s), keys)[i] == Entry(keys[i], Encode(FieldOf(s, keys[i])))
    {
      assert keys[i] in keys;
      FullObjectGet(SCHEMA, s, keys[i]);
      SchemaCoversEveryKnownKey(keys[i]);
    }
  }
}
