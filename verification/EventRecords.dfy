/** Log records as the client builds them from events and as the server takes them apart again. */
module EventRecords {
  import opened Common
  import opened Ordering
  import opened Wire

  /** A row of the client's event log; attributes is None when the stored text is not a JSON object. */
  datatype Event = Event(
    sequence: int,
    id: string,
    occurredAt: int,
    session: string,
    agent: string,
    name: string,
    attributes: Option<map<string, Json>>)

  datatype Record = Record(time: int, eventName: string, attributes: seq<Attr>)

  const EVENT_ID := "event_id"
  const LOCAL_SEQUENCE := "local_sequence"
  const SESSION_ID := "session_id"
  const CODING_AGENT := "coding_agent"

  predicate Reserved(key: string) {
    key == EVENT_ID || key == LOCAL_SEQUENCE || key == SESSION_ID || key == CODING_AGENT
  }

  function Identifying(e: Event): seq<Attr> {
    [StringAttr(EVENT_ID, e.id), IntAttr(LOCAL_SEQUENCE, e.sequence),
     StringAttr(SESSION_ID, e.session), StringAttr(CODING_AGENT, e.agent)]
  }

  function Extras(m: map<string, Json>, keys: seq<string>): (r: seq<Attr>)
    requires forall k :: k in keys ==> k in m
    ensures |r| == |keys| && forall i :: 0 <= i < |keys| ==> r[i] == AnyAttr(keys[i], m[keys[i]])
  {
    seq(|keys|, i requires 0 <= i < |keys| => AnyAttr(keys[i], m[keys[i]]))
  }

  ghost function SortedKeys(m: map<string, Json>): (r: seq<string>)
    ensures forall k :: k in r <==> k in m
  {
    LexIsStrictTotal();
    assert forall k :: k in Sorted(LexLess, m.Keys) <==> k in Elements(Sorted(LexLess, m.Keys));
    Sorted(LexLess, m.Keys)
  }

  /** The record of an event: four identifying attributes, then the event's own in key order. */
  ghost function RecordOf(e: Event): Option<Record> {
    match e.attributes
    case None => None
    case Some(m) => Some(Record(e.occurredAt, e.name, Identifying(e) + Extras(m, SortedKeys(m))))
  }

  /** The loop body of buildOTLPPayload. */
  method BuildRecord(e: Event) returns (r: Option<Record>)
    ensures r == RecordOf(e)
  {
    if e.attributes.None? {
      return None;
    }
    var m := e.attributes.value;
    var attrs := Identifying(e);
    var keys := Collect(m.Keys);
    LexIsStrictTotal();
    keys := Sort(LexLess, keys);
    assert keys == SortedKeys(m);
    attrs := AppendExtras(attrs, m, keys);
    return Some(Record(e.occurredAt, e.name, attrs));
  }

  method AppendExtras(attrs: seq<Attr>, m: map<string, Json>, keys: seq<string>) returns (r: seq<Attr>)
    requires forall k :: k in keys ==> k in m
    ensures r == attrs + Extras(m, keys)
  {
    r := attrs;
    for i := 0 to |keys|
      invariant r == attrs + Extras(m, keys)[..i]
    {
      r := r + [AnyAttr(keys[i], m[keys[i]])];
    }
    assert Extras(m, keys)[..|keys|] == Extras(m, keys);
  }

  lemma SortedKeysAscend(m: map<string, Json>)
    ensures SortedBy(LexLess, SortedKeys(m))
  {
    LexIsStrictTotal();
  }

  /**
   Field by field what is sent for an event: its time and name, four identifying attributes, and then
   each attribute of its own exactly once, in ascending order of the keys.
   */
  lemma RecordExactly(e: Event)
    requires e.attributes.Some?
    ensures var r, m := RecordOf(e).value, e.attributes.value;
            && r.time == e.occurredAt && r.eventName == e.name && |r.attributes| == 4 + |m|
            && r.attributes[..4] == [Attr("event_id", OtlpValue(e.id, "", false)),
                                     Attr("local_sequence", OtlpValue("", FormatInt(e.sequence), false)),
                                     Attr("session_id", OtlpValue(e.session, "", false)),
                                     Attr("coding_agent", OtlpValue(e.agent, "", false))]
            && (forall i :: 4 <= i < |r.attributes| ==>
                  r.attributes[i].key in m && r.attributes[i] == AnyAttr(r.attributes[i].key, m[r.attributes[i].key]))
            && (forall i, j :: 4 <= i < j < |r.attributes| ==> LexLess(r.attributes[i].key, r.attributes[j].key))
  {
    var r, m := RecordOf(e).value, e.attributes.value;
    var keys := SortedKeys(m);
    SortedKeysAscend(m);
    SortedListSize(keys, m.Keys);
    forall i | 4 <= i < |r.attributes|
      ensures keys[i - 4] in m && r.attributes[i] == AnyAttr(keys[i - 4], m[keys[i - 4]]) && r.attributes[i].key == keys[i - 4]
    {
      assert keys[i - 4] in keys;
    }
  }

  lemma {:induction false} SortedListSize(keys: seq<string>, all: set<string>)
    requires SortedBy(LexLess, keys) && forall k :: k in keys <==> k in all
    ensures |keys| == |all|
  {
    if keys == [] {
      assert all == {};
    } else {
      var front, last := keys[..|keys| - 1], keys[|keys| - 1];
      forall i | 0 <= i < |front|
        ensures front[i] != last
      {
        assert LexLess(keys[i], last);
        LexTotal(last, last);
      }
      assert keys == front + [last];
      SortedListSize(front, all - {last});
      assert all == (all - {last}) + {last};
    }
  }

  // ---------------------------------------------------------------- the server's side

  datatype WireAttr = WireAttr(key: string, value: WireValue)

  function OnWire(attrs: seq<Attr>): (r: seq<WireAttr>)
    ensures |r| == |attrs| && forall i :: 0 <= i < |attrs| ==> r[i] == WireAttr(attrs[i].key, ToWire(attrs[i].value))
  {
    seq(|attrs|, i requires 0 <= i < |attrs| => WireAttr(attrs[i].key, ToWire(attrs[i].value)))
  }

  /** What the server reads out of a record's attributes. */
  datatype Parsed = Parsed(id: string, session: string, agent: string, rest: map<string, AttrValue>)

  function StringOf(v: AttrValue): string {
    if v.AStr? then v.s else ""
  }

  /** One attribute at a time; a later attribute with the same key replaces an earlier one. */
  function Take(p: Parsed, a: WireAttr): Parsed {
    var v := ServerValue(a.value);
    if a.key == EVENT_ID then p.(id := StringOf(v))
    else if a.key == SESSION_ID then p.(session := StringOf(v))
    else if a.key == CODING_AGENT then p.(agent := StringOf(v))
    else if a.key == LOCAL_SEQUENCE then p
    else p.(rest := p.rest[a.key := v])
  }

  function Split(attrs: seq<WireAttr>): Parsed {
    if attrs == [] then Parsed("", "", "", map[]) else Take(Split(attrs[..|attrs| - 1]), attrs[|attrs| - 1])
  }

  /** splitLogAttrs */
  method SplitLogAttrs(attrs: seq<WireAttr>) returns (id: string, session: string, agent: string, rest: map<string, AttrValue>)
    ensures Parsed(id, session, agent, rest) == Split(attrs)
  {
    id, session, agent, rest := "", "", "", map[];
    for i := 0 to |attrs|
      invariant Parsed(id, session, agent, rest) == Split(attrs[..i])
    {
      assert attrs[..i + 1][..i] == attrs[..i];
      var a := attrs[i];
      var v := ServerValue(a.value);
      if a.key == EVENT_ID {
        id := StringOf(v);
      } else if a.key == SESSION_ID {
        session := StringOf(v);
      } else if a.key == CODING_AGENT {
        agent := StringOf(v);
      } else if a.key == LOCAL_SEQUENCE {
        continue;
      } else {
        rest := rest[a.key := v];
      }
    }
    assert attrs[..|attrs|] == attrs;
  }

  /** The value of the last attribute with the key. */
  function LastValue(attrs: seq<WireAttr>, key: string): Option<AttrValue> {
    if attrs == [] then None
    else if attrs[|attrs| - 1].key == key then Some(ServerValue(attrs[|attrs| - 1].value))
    else LastValue(attrs[..|attrs| - 1], key)
  }

  function StringValue(v: Option<AttrValue>): string {
    if v.Some? then StringOf(v.value) else ""
  }

  /** For every key the last attribute wins, and the four reserved keys stay out of the rest. */
  lemma {:induction false} SplitTakesLast(attrs: seq<WireAttr>)
    ensures Split(attrs).id == StringValue(LastValue(attrs, EVENT_ID))
    ensures Split(attrs).session == StringValue(LastValue(attrs, SESSION_ID))
    ensures Split(attrs).agent == StringValue(LastValue(attrs, CODING_AGENT))
    ensures forall k :: k in Split(attrs).rest <==> !Reserved(k) && LastValue(attrs, k).Some?
    ensures forall k :: k in Split(attrs).rest ==> Split(attrs).rest[k] == LastValue(attrs, k).value
  {
    if attrs != [] {
      SplitTakesLast(attrs[..|attrs| - 1]);
    }
  }

  ghost predicate ComesLast(attrs: seq<WireAttr>, key: string, v: AttrValue) {
    exists i :: 0 <= i < |attrs| && attrs[i].key == key && ServerValue(attrs[i].value) == v &&
                forall j :: i < j < |attrs| ==> attrs[j].key != key
  }

  lemma ComesLastAtEnd(attrs: seq<WireAttr>)
    requires attrs != []
    ensures ComesLast(attrs, attrs[|attrs| - 1].key, ServerValue(attrs[|attrs| - 1].value))
  {
    assert attrs[|attrs| - 1].key == attrs[|attrs| - 1].key;
  }

  lemma ComesLastStill(front: seq<WireAttr>, last: WireAttr, key: string, v: AttrValue)
    requires ComesLast(front, key, v) && last.key != key
    ensures ComesLast(front + [last], key, v)
  {
    var i :| 0 <= i < |front| && front[i].key == key && ServerValue(front[i].value) == v &&
             forall j :: i < j < |front| ==> front[j].key != key;
    assert (front + [last])[i] == front[i];
  }

  /** The last attribute with a key is one that no other with that key follows. */
  lemma {:induction false} LastValueExactly(attrs: seq<WireAttr>, key: string)
    ensures LastValue(attrs, key).Some? ==> ComesLast(attrs, key, LastValue(attrs, key).value)
    ensures LastValue(attrs, key).None? ==> forall i :: 0 <= i < |attrs| ==> attrs[i].key != key
  {
    if attrs != [] {
      var front, last := attrs[..|attrs| - 1], attrs[|attrs| - 1];
      LastValueExactly(front, key);
      assert attrs == front + [last];
      if last.key == key {
        ComesLastAtEnd(attrs);
      } else if LastValue(front, key).Some? {
        ComesLastStill(front, last, key, LastValue(front, key).value);
      } else {
        assert forall i :: 0 <= i < |front| ==> front[i] == attrs[i];
      }
    }
  }

  // ---------------------------------------------------------------- the round trip

  lemma {:induction false} LastValueAppend(a: seq<WireAttr>, b: seq<WireAttr>, key: string)
    ensures LastValue(a + b, key) == if LastValue(b, key).Some? then LastValue(b, key) else LastValue(a, key)
  {
    if b == [] {
      assert a + b == a;
    } else {
      assert (a + b)[..|a + b| - 1] == a + b[..|b| - 1];
      LastValueAppend(a, b[..|b| - 1], key);
    }
  }

  lemma LastValueSnoc(attrs: seq<WireAttr>, a: WireAttr, key: string)
    ensures LastValue(attrs + [a], key) == if a.key == key then Some(ServerValue(a.value)) else LastValue(attrs, key)
  {
    assert (attrs + [a])[..|attrs|] == attrs;
  }

  lemma StoredExtra(m: map<string, Json>, key: string, a: WireAttr)
    requires key in m && a == WireAttr(AnyAttr(key, m[key]).key, ToWire(AnyAttr(key, m[key]).value))
    ensures a.key == key && ServerValue(a.value) == Stored(m[key])
  {
    ValueTravels(key, m[key]);
  }

  lemma {:induction false} LastValueOfExtras(m: map<string, Json>, keys: seq<string>, key: string)
    requires forall k :: k in keys ==> k in m
    ensures LastValue(OnWire(Extras(m, keys)), key) == if key in keys then Some(Stored(m[key])) else None
  {
    if keys != [] {
      var front, last := keys[..|keys| - 1], keys[|keys| - 1];
      ExtrasSnoc(m, front, last);
      assert keys == front + [last];
      LastValueOfExtras(m, front, key);
      var a := WireAttr(last, ToWire(AnyAttr(last, m[last]).value));
      LastValueSnoc(OnWire(Extras(m, front)), a, key);
      StoredExtra(m, last, a);
    }
  }

  lemma ExtrasSnoc(m: map<string, Json>, front: seq<string>, last: string)
    requires (forall k :: k in front ==> k in m) && last in m
    ensures forall k :: k in front + [last] <==> k in front || k == last
    ensures OnWire(Extras(m, front + [last])) ==
            OnWire(Extras(m, front)) + [WireAttr(last, ToWire(AnyAttr(last, m[last]).value))]
  {
  }

  function IdentifyingValue(e: Event, key: string): Option<AttrValue> {
    if key == EVENT_ID then Some(AStr(e.id))
    else if key == SESSION_ID then Some(AStr(e.session))
    else if key == CODING_AGENT then Some(AStr(e.agent))
    else if key == LOCAL_SEQUENCE then Some(ServerValue(ToWire(IntAttr(key, e.sequence).value)))
    else None
  }

  lemma LastValueOfIdentifying(e: Event, key: string)
    ensures LastValue(OnWire(Identifying(e)), key) == IdentifyingValue(e, key)
  {
    var w := OnWire(Identifying(e));
    assert w[..3] == OnWire(Identifying(e)[..3]);
    LastValueOfFour(w[0], w[1], w[2], w[3], key);
    assert w == [w[0], w[1], w[2], w[3]];
  }

  lemma LastValueOfFour(a: WireAttr, b: WireAttr, c: WireAttr, d: WireAttr, key: string)
    ensures LastValue([a, b, c, d], key) ==
            if d.key == key then Some(ServerValue(d.value))
            else if c.key == key then Some(ServerValue(c.value))
            else if b.key == key then Some(ServerValue(b.value))
            else if a.key == key then Some(ServerValue(a.value))
            else None
  {
    assert [a, b, c, d][..3] == [a, b, c];
    assert [a, b, c][..2] == [a, b];
    assert [a, b][..1] == [a];
    assert [a][..0] == [];
    assert LastValue([a], key) == if a.key == key then Some(ServerValue(a.value)) else None;
    assert LastValue([a, b], key) == if b.key == key then Some(ServerValue(b.value)) else LastValue([a], key);
    assert LastValue([a, b, c], key) == if c.key == key then Some(ServerValue(c.value)) else LastValue([a, b], key);
  }

  /** What the server parses from the record of an event. */
  ghost function Received(e: Event): Parsed
    requires e.attributes.Some?
  {
    Split(OnWire(RecordOf(e).value.attributes))
  }

  /** The value the server ends up with for a key of the record. */
  lemma ReceivedValue(e: Event, key: string)
    requires e.attributes.Some?
    ensures LastValue(OnWire(RecordOf(e).value.attributes), key) ==
            if key in e.attributes.value then Some(Stored(e.attributes.value[key])) else IdentifyingValue(e, key)
  {
    var m := e.attributes.value;
    var a, b := Identifying(e), Extras(m, SortedKeys(m));
    assert OnWire(a + b) == OnWire(a) + OnWire(b);
    LastValueAppend(OnWire(a), OnWire(b), key);
    LastValueOfExtras(m, SortedKeys(m), key);
    LastValueOfIdentifying(e, key);
  }

  /** Every identifier and every attribute of the event arrives, and nothing else. */
  ghost predicate ArrivesIntact(e: Event)
    requires e.attributes.Some?
  {
    var p, m := Received(e), e.attributes.value;
    && p.id == e.id && p.session == e.session && p.agent == e.agent
    && (forall k :: k in p.rest <==> k in m)
    && (forall k :: k in m ==> k in p.rest && p.rest[k] == Stored(m[k]))
  }

  lemma ReceivedParts(e: Event)
    requires e.attributes.Some?
    ensures var p, m := Received(e), e.attributes.value;
            && (EVENT_ID !in m ==> p.id == e.id)
            && (SESSION_ID !in m ==> p.session == e.session)
            && (CODING_AGENT !in m ==> p.agent == e.agent)
            && (forall k :: k in p.rest <==> k in m && !Reserved(k))
            && (forall k :: k in p.rest ==> p.rest[k] == Stored(m[k]))
  {
    var m, attrs := e.attributes.value, OnWire(RecordOf(e).value.attributes);
    SplitTakesLast(attrs);
    ReceivedValue(e, EVENT_ID);
    ReceivedValue(e, SESSION_ID);
    ReceivedValue(e, CODING_AGENT);
    forall k
      ensures k in Received(e).rest <==> k in m && !Reserved(k)
      ensures k in Received(e).rest ==> Received(e).rest[k] == Stored(m[k])
    {
      ReceivedValue(e, k);
    }
  }

  /** The round trip succeeds exactly when no attribute of the event uses a reserved key. */
  lemma RoundTripExactly(e: Event)
    requires e.attributes.Some?
    ensures ArrivesIntact(e) <==> forall k :: k in e.attributes.value ==> !Reserved(k)
  {
    ReceivedParts(e);
  }

  /** An event keeps its id on the server exactly when no attribute of its own replaces it. */
  lemma IdArrivesExactly(e: Event)
    requires e.attributes.Some?
    ensures Received(e).id == e.id <==>
            EVENT_ID !in e.attributes.value || StringOf(Stored(e.attributes.value[EVENT_ID])) == e.id
  {
    SplitTakesLast(OnWire(RecordOf(e).value.attributes));
    ReceivedValue(e, EVENT_ID);
  }

  /** toProtoAttrs: the typed values a protobuf target gets are the ones the server reads from JSON. */
  method ToProtoAttrs(attrs: seq<Attr>) returns (r: seq<(string, AttrValue)>)
    ensures |r| == |attrs|
    ensures forall i :: 0 <= i < |attrs| ==> r[i] == (attrs[i].key, ProtoValue(attrs[i].value))
  {
    r := [];
    for i := 0 to |attrs|
      invariant |r| == i
      invariant forall j :: 0 <= j < i ==> r[j] == (attrs[j].key, ProtoValue(attrs[j].value))
    {
      r := r + [(attrs[i].key, ProtoValue(attrs[i].value))];
    }
  }

  lemma EncodingsAgreeOnRecord(e: Event, i: nat)
    requires e.attributes.Some? && InInt64(e.sequence)
    requires i < |RecordOf(e).value.attributes|
    ensures var a := RecordOf(e).value.attributes[i];
            ServerValue(ToWire(a.value)) == ProtoValue(a.value)
  {
    var m := e.attributes.value;
    if i >= 4 {
      var k := SortedKeys(m)[i - 4];
      assert k in SortedKeys(m);
      ValueTravels(k, m[k]);
    } else if i == 1 {
      ParseFormatInt(e.sequence);
    }
  }
}
