/**
 The rows a server ends up with for the events of a log: storing any batch that starts at or
 before the end of what is stored extends the stored prefix of the log, and nothing else.
 */
module EventRows {
  import opened Common
  import opened Wire
  import opened EventRecords
  import opened EventStore

  /** No attribute of the event takes the place of an identifying one. */
  predicate Unreserved(e: Event) {
    e.attributes.Some? ==> forall k :: k in e.attributes.value ==> !Reserved(k)
  }

  ghost predicate AllUnreserved(events: seq<Event>) {
    forall i :: 0 <= i < |events| ==> Unreserved(events[i])
  }

  ghost predicate Decodable(events: seq<Event>) {
    forall i :: 0 <= i < |events| ==> events[i].attributes.Some?
  }

  ghost function OnWireRecord(e: Event): WireRecord
    requires e.attributes.Some?
  {
    var r := RecordOf(e).value;
    WireRecord(r.time, r.eventName, OnWire(r.attributes))
  }

  ghost function WireRecords(events: seq<Event>): (r: seq<WireRecord>)
    requires Decodable(events)
    ensures |r| == |events| && forall i :: 0 <= i < |r| ==> r[i] == OnWireRecord(events[i])
  {
    seq(|events|, i requires 0 <= i < |events| && events[i].attributes.Some? => OnWireRecord(events[i]))
  }

  // ---------------------------------------------------------------- rows of events

  /** The server keeps the event once it is decoded. */
  predicate Valid(e: Event) {
    e.attributes.Some? && e.id != "" && e.session != "" && e.agent != "" && e.name != ""
  }

  function StoredAttributes(m: map<string, Json>): map<string, AttrValue> {
    map k | k in m :: Stored(m[k])
  }

  function RowFor(e: Event): Row
    requires e.attributes.Some?
  {
    Row(e.id, e.occurredAt, e.session, e.agent, e.name, StoredAttributes(e.attributes.value))
  }

  /** Storing one event, in the client's terms. */
  function AbsorbOne(rows: seq<Row>, e: Event): seq<Row> {
    if Valid(e) && !HasId(rows, e.id) then rows + [RowFor(e)] else rows
  }

  function Absorb(rows: seq<Row>, events: seq<Event>): seq<Row> {
    if events == [] then rows else AbsorbOne(Absorb(rows, events[..|events| - 1]), events[|events| - 1])
  }

  /** The rows of the valid events, in log order. */
  function RowsFor(events: seq<Event>): seq<Row> {
    if events == [] then []
    else
      var last := events[|events| - 1];
      RowsFor(events[..|events| - 1]) + (if Valid(last) then [RowFor(last)] else [])
  }

  // ---------------------------------------------------------------- the server's view of an event

  lemma RowOfEvent(e: Event)
    requires e.attributes.Some? && Unreserved(e)
    ensures Acceptable(OnWireRecord(e)) <==> Valid(e)
    ensures RowOf(OnWireRecord(e)) == RowFor(e)
  {
    RoundTripExactly(e);
    assert Received(e).rest == StoredAttributes(e.attributes.value);
  }

  /** Column by column what a server without the event stores when it arrives. */
  lemma RowShowsEvent(rows: seq<Row>, e: Event)
    requires Unreserved(e) && e.attributes.Some? && e.id != "" && e.session != "" && e.agent != "" && e.name != "" && !HasId(rows, e.id)
    ensures var after, m := Inserted(rows, [OnWireRecord(e)]), e.attributes.value;
            && |after| == |rows| + 1 && rows <= after
            && var r := after[|rows|];
               && r.id == e.id && r.occurredAt == e.occurredAt && r.session == e.session && r.agent == e.agent && r.name == e.name
               && r.attributes.Keys == m.Keys
               && forall k :: k in m ==> r.attributes[k] == ServerValue(ToWire(AnyAttr(k, m[k]).value))
  {
    RowOfEvent(e);
    assert [OnWireRecord(e)][..0] == [];
    assert Inserted(rows, []) == rows;
    forall k | k in e.attributes.value
      ensures Stored(e.attributes.value[k]) == ServerValue(ToWire(AnyAttr(k, e.attributes.value[k]).value))
    {
      ValueTravels(k, e.attributes.value[k]);
    }
  }

  lemma InsertOneEvent(rows: seq<Row>, e: Event)
    requires e.attributes.Some? && Unreserved(e)
    ensures InsertOne(rows, OnWireRecord(e)) == AbsorbOne(rows, e)
  {
    RowOfEvent(e);
  }

  lemma WireRecordsSnoc(front: seq<Event>, last: Event)
    requires Decodable(front) && last.attributes.Some?
    ensures Decodable(front + [last])
    ensures WireRecords(front + [last]) == WireRecords(front) + [OnWireRecord(last)]
  {
  }

  lemma InsertLast(rows: seq<Row>, records: seq<WireRecord>, r: WireRecord, before: seq<Row>)
    requires Inserted(rows, records) == before
    ensures Inserted(rows, records + [r]) == InsertOne(before, r)
  {
    assert (records + [r])[..|records|] == records;
  }

  lemma AbsorbSnoc(rows: seq<Row>, front: seq<Event>, last: Event)
    ensures Absorb(rows, front + [last]) == AbsorbOne(Absorb(rows, front), last)
  {
    assert (front + [last])[..|front|] == front;
  }

  lemma InsertNext(rows: seq<Row>, front: seq<Event>, last: Event)
    requires Decodable(front) && last.attributes.Some? && Unreserved(last)
    requires Inserted(rows, WireRecords(front)) == Absorb(rows, front)
    ensures Decodable(front + [last])
    ensures Inserted(rows, WireRecords(front + [last])) == Absorb(rows, front + [last])
  {
    WireRecordsSnoc(front, last);
    InsertLast(rows, WireRecords(front), OnWireRecord(last), Absorb(rows, front));
    InsertOneEvent(Absorb(rows, front), last);
    AbsorbSnoc(rows, front, last);
  }

  /** Encoding a batch, sending it as JSON and inserting it stores exactly the rows of its events. */
  lemma {:induction false} InsertedIsAbsorb(rows: seq<Row>, events: seq<Event>)
    requires Decodable(events) && AllUnreserved(events)
    ensures Inserted(rows, WireRecords(events)) == Absorb(rows, events)
  {
    if events == [] {
      assert WireRecords(events) == [];
    } else {
      var front, last := events[..|events| - 1], events[|events| - 1];
      InsertedIsAbsorb(rows, front);
      assert events == front + [last];
      InsertNext(rows, front, last);
    }
  }

  function Max(a: nat, b: nat): nat {
    if a < b then b else a
  }

  // ---------------------------------------------------------------- storing a batch

  ghost function Mine(own: iset<string>): Row -> bool {
    (r: Row) => r.id in own
  }

  lemma FilterHasId(own: iset<string>, rows: seq<Row>, id: string)
    requires id in own
    ensures HasId(Filter(Mine(own), rows), id) <==> HasId(rows, id)
  {
    var keep := Mine(own);
    var kept := Filter(keep, rows);
    if i :| 0 <= i < |kept| && kept[i].id == id {
      FilterMember(keep, rows, kept[i]);
      assert kept[i] in rows;
    }
    if i :| 0 <= i < |rows| && rows[i].id == id {
      FilterMember(keep, rows, rows[i]);
      assert rows[i] in kept;
    }
  }

  /** A valid event with this id is among the events. */
  ghost predicate HasValid(events: seq<Event>, id: string) {
    exists i :: 0 <= i < |events| && Valid(events[i]) && events[i].id == id
  }

  lemma HasValidSnoc(events: seq<Event>, id: string)
    requires events != []
    ensures var last := events[|events| - 1];
            HasValid(events, id) <==> HasValid(events[..|events| - 1], id) || (Valid(last) && last.id == id)
  {
    var front := events[..|events| - 1];
    if i :| 0 <= i < |front| && Valid(front[i]) && front[i].id == id {
      assert events[i] == front[i];
    }
  }

  lemma HasIdSnoc(rows: seq<Row>, r: Row, id: string)
    ensures HasId(rows + [r], id) <==> HasId(rows, id) || r.id == id
  {
    if i :| 0 <= i < |rows| && rows[i].id == id {
      assert (rows + [r])[i].id == id;
    }
    if r.id == id {
      assert (rows + [r])[|rows|].id == id;
    }
  }

  lemma {:induction false} RowsForHasId(events: seq<Event>, id: string)
    ensures HasId(RowsFor(events), id) <==> HasValid(events, id)
  {
    if events != [] {
      var front, last := events[..|events| - 1], events[|events| - 1];
      RowsForHasId(front, id);
      HasValidSnoc(events, id);
      if Valid(last) {
        HasIdSnoc(RowsFor(front), RowFor(last), id);
      } else {
        assert RowsFor(events) == RowsFor(front);
      }
    }
  }

  /** Rows of this client among rows, compared with the log up to position k. */
  ghost predicate OwnPrefix(own: iset<string>, rows: seq<Row>, log: seq<Event>, k: nat) {
    k <= |log| && Filter(Mine(own), rows) == RowsFor(log[..k])
  }

  ghost predicate GoodLog(own: iset<string>, log: seq<Event>) {
    && AllUnreserved(log)
    && (forall i :: 0 <= i < |log| ==> log[i].id in own)
    && (forall i, j :: 0 <= i < j < |log| ==> log[i].id != log[j].id)
  }

  lemma PrefixHasId(own: iset<string>, rows: seq<Row>, log: seq<Event>, k: nat, i: nat)
    requires GoodLog(own, log) && OwnPrefix(own, rows, log, k) && i < |log| && Valid(log[i])
    ensures HasId(rows, log[i].id) <==> i < k
  {
    FilterHasId(own, rows, log[i].id);
    RowsForHasId(log[..k], log[i].id);
    if i < k {
      assert log[..k][i] == log[i];
    }
  }

  /** Storing the event at position i, at or before the end of what is stored. */
  lemma AbsorbNext(own: iset<string>, rows: seq<Row>, log: seq<Event>, k: nat, i: nat)
    requires GoodLog(own, log) && OwnPrefix(own, rows, log, k) && i <= k && i < |log|
    ensures OwnPrefix(own, AbsorbOne(rows, log[i]), log, Max(k, i + 1))
  {
    var e := log[i];
    if Valid(e) {
      PrefixHasId(own, rows, log, k, i);
    }
    if i == k {
      assert log[..k + 1][..k] == log[..k];
      assert log[..k + 1][k] == e;
      if Valid(e) {
        assert (rows + [RowFor(e)])[..|rows|] == rows;
      }
    }
  }

  /** Storing the events of the log from position lo to position hi. */
  function AbsorbRange(rows: seq<Row>, log: seq<Event>, lo: nat, hi: nat): seq<Row>
    requires lo <= hi <= |log|
  {
    if lo == hi then rows else AbsorbOne(AbsorbRange(rows, log, lo, hi - 1), log[hi - 1])
  }

  lemma {:induction false} RangeIsSlice(rows: seq<Row>, log: seq<Event>, lo: nat, hi: nat)
    requires lo <= hi <= |log|
    ensures Absorb(rows, log[lo..hi]) == AbsorbRange(rows, log, lo, hi)
  {
    if lo < hi {
      RangeIsSlice(rows, log, lo, hi - 1);
      assert log[lo..hi] == log[lo..hi - 1] + [log[hi - 1]];
      AbsorbSnoc(rows, log[lo..hi - 1], log[hi - 1]);
    }
  }

  lemma AbsorbNextFrom(own: iset<string>, rows: seq<Row>, log: seq<Event>, k: nat, hi: nat)
    requires GoodLog(own, log) && 0 < hi <= |log| && OwnPrefix(own, rows, log, Max(k, hi - 1))
    ensures OwnPrefix(own, AbsorbOne(rows, log[hi - 1]), log, Max(k, hi))
  {
    assert Max(Max(k, hi - 1), hi) == Max(k, hi);
    AbsorbNext(own, rows, log, Max(k, hi - 1), hi - 1);
  }

  lemma {:induction false} AbsorbRangePrefix(own: iset<string>, rows: seq<Row>, log: seq<Event>, k: nat, lo: nat, hi: nat)
    requires GoodLog(own, log) && OwnPrefix(own, rows, log, k)
    requires lo <= k && lo <= hi <= |log|
    ensures OwnPrefix(own, AbsorbRange(rows, log, lo, hi), log, Max(k, hi))
    decreases hi
  {
    if lo == hi {
      assert Max(k, hi) == k;
    } else {
      AbsorbRangePrefix(own, rows, log, k, lo, hi - 1);
      AbsorbNextFrom(own, AbsorbRange(rows, log, lo, hi - 1), log, k, hi);
    }
  }

  /** A batch of n events that starts at or before the end of what is stored extends it. */
  lemma AbsorbBatch(own: iset<string>, rows: seq<Row>, log: seq<Event>, k: nat, lo: nat, n: nat)
    requires GoodLog(own, log) && OwnPrefix(own, rows, log, k)
    requires lo <= k && lo + n <= |log|
    ensures OwnPrefix(own, Absorb(rows, log[lo..lo + n]), log, Max(k, lo + n))
  {
    AbsorbRangePrefix(own, rows, log, k, lo, lo + n);
    RangeIsSlice(rows, log, lo, lo + n);
  }

  // ---------------------------------------------------------------- which ids are stored

  lemma AbsorbOneKeeps(rows: seq<Row>, e: Event, id: string)
    ensures rows <= AbsorbOne(rows, e)
    ensures DistinctIds(rows) ==> DistinctIds(AbsorbOne(rows, e))
    ensures HasId(AbsorbOne(rows, e), id) <==> HasId(rows, id) || (Valid(e) && e.id == id)
  {
    if Valid(e) && !HasId(rows, e.id) {
      HasIdSnoc(rows, RowFor(e), id);
      assert forall i :: 0 <= i < |rows| ==> rows[i].id != e.id;
    }
  }

  lemma {:induction false} AbsorbKeeps(rows: seq<Row>, events: seq<Event>, id: string)
    ensures rows <= Absorb(rows, events)
    ensures DistinctIds(rows) ==> DistinctIds(Absorb(rows, events))
    ensures HasId(Absorb(rows, events), id) <==> HasId(rows, id) || HasValid(events, id)
  {
    if events != [] {
      AbsorbKeeps(rows, events[..|events| - 1], id);
      AbsorbOneKeeps(Absorb(rows, events[..|events| - 1]), events[|events| - 1], id);
      HasValidSnoc(events, id);
    }
  }
}
