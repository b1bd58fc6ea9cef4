/**
 The server's append-only event table: validation, insert-or-ignore by event id inside one
 transaction, and the reply, which is 200 even when the database failed.
 */
module EventStore {
  import opened Common
  import opened Wire
  import opened EventRecords

  /** A log record as decoded from the request; resource and scope nesting is flattened. */
  datatype WireRecord = WireRecord(time: int, eventName: string, attributes: seq<WireAttr>)

  datatype Row = Row(id: string, occurredAt: int, session: string, agent: string, name: string,
                     attributes: map<string, AttrValue>)

  /** A record is kept only if it names its event, session, agent and kind of event. */
  predicate Acceptable(r: WireRecord) {
    var p := Split(r.attributes);
    p.id != "" && p.session != "" && p.agent != "" && r.eventName != ""
  }

  /** The last attribute of that key is a string that is not empty. */
  predicate Names(r: WireRecord, key: string) {
    LastValue(r.attributes, key).Some? && StringOf(LastValue(r.attributes, key).value) != ""
  }

  /** A record is kept if and only if its last event id, session and agent, and its own name, are not empty. */
  lemma AcceptableExactly(r: WireRecord)
    ensures Acceptable(r) <==>
            Names(r, "event_id") && Names(r, "session_id") && Names(r, "coding_agent") && r.eventName != ""
  {
    SplitTakesLast(r.attributes);
  }

  /** The row of a record, column by column. */
  lemma RowExactly(r: WireRecord)
    ensures RowOf(r).occurredAt == r.time && RowOf(r).name == r.eventName
    ensures RowOf(r).id == StringValue(LastValue(r.attributes, "event_id"))
    ensures RowOf(r).session == StringValue(LastValue(r.attributes, "session_id"))
    ensures RowOf(r).agent == StringValue(LastValue(r.attributes, "coding_agent"))
    ensures forall k :: k in RowOf(r).attributes <==> !Reserved(k) && LastValue(r.attributes, k).Some?
    ensures forall k :: k in RowOf(r).attributes ==> RowOf(r).attributes[k] == LastValue(r.attributes, k).value
  {
    SplitTakesLast(r.attributes);
  }

  function RowOf(r: WireRecord): Row {
    var p := Split(r.attributes);
    Row(p.id, r.time, p.session, p.agent, r.eventName, p.rest)
  }

  predicate HasId(rows: seq<Row>, id: string) {
    exists i :: 0 <= i < |rows| && rows[i].id == id
  }

  /** INSERT OR IGNORE of one record. */
  function InsertOne(rows: seq<Row>, r: WireRecord): seq<Row> {
    if Acceptable(r) && !HasId(rows, RowOf(r).id) then rows + [RowOf(r)] else rows
  }

  function Inserted(rows: seq<Row>, records: seq<WireRecord>): seq<Row> {
    if records == [] then rows
    else InsertOne(Inserted(rows, records[..|records| - 1]), records[|records| - 1])
  }

  ghost predicate DistinctIds(rows: seq<Row>) {
    forall i, j :: 0 <= i < j < |rows| ==> rows[i].id != rows[j].id
  }

  // ---------------------------------------------------------------- what insertion keeps

  lemma InsertOneKeeps(rows: seq<Row>, r: WireRecord)
    ensures rows <= InsertOne(rows, r)
    ensures DistinctIds(rows) ==> DistinctIds(InsertOne(rows, r))
    ensures forall id :: HasId(InsertOne(rows, r), id) <==> HasId(rows, id) || (Acceptable(r) && RowOf(r).id == id)
  {
    var next := InsertOne(rows, r);
    forall id
      ensures HasId(next, id) <==> HasId(rows, id) || (Acceptable(r) && RowOf(r).id == id)
    {
      if i :| 0 <= i < |rows| && rows[i].id == id {
        assert next[i].id == id;
      }
      if Acceptable(r) && RowOf(r).id == id && !HasId(rows, id) {
        assert next[|rows|].id == id;
      }
    }
    if |next| > |rows| {
      forall i | 0 <= i < |rows|
        ensures rows[i].id != RowOf(r).id
      {
        assert !HasId(rows, RowOf(r).id);
      }
    }
  }

  /** Some acceptable record of the request has the id. */
  ghost predicate Carries(records: seq<WireRecord>, id: string) {
    exists i :: 0 <= i < |records| && Acceptable(records[i]) && RowOf(records[i]).id == id
  }

  lemma CarriesSnoc(records: seq<WireRecord>, r: WireRecord, id: string)
    ensures Carries(records + [r], id) <==> Carries(records, id) || (Acceptable(r) && RowOf(r).id == id)
  {
    var all := records + [r];
    if i :| 0 <= i < |records| && Acceptable(records[i]) && RowOf(records[i]).id == id {
      assert all[i] == records[i];
    }
    if Acceptable(r) && RowOf(r).id == id {
      assert all[|records|] == r;
    }
  }

  /** The table only grows, holds no id twice, and gains exactly the ids the request carries. */
  lemma {:induction false} InsertedKeeps(rows: seq<Row>, records: seq<WireRecord>)
    ensures rows <= Inserted(rows, records)
    ensures DistinctIds(rows) ==> DistinctIds(Inserted(rows, records))
    ensures forall id :: HasId(Inserted(rows, records), id) <==> HasId(rows, id) || Carries(records, id)
  {
    if records != [] {
      var front, last := records[..|records| - 1], records[|records| - 1];
      InsertedKeeps(rows, front);
      InsertOneKeeps(Inserted(rows, front), last);
      assert records == front + [last];
      forall id
        ensures HasId(Inserted(rows, records), id) <==> HasId(rows, id) || Carries(records, id)
      {
        CarriesSnoc(front, last, id);
      }
    }
  }

  /** A request none of whose ids is new changes nothing: redelivery is harmless. */
  lemma {:induction false} NothingNew(rows: seq<Row>, records: seq<WireRecord>)
    requires forall i :: 0 <= i < |records| && Acceptable(records[i]) ==> HasId(rows, RowOf(records[i]).id)
    ensures Inserted(rows, records) == rows
  {
    if records != [] {
      NothingNew(rows, records[..|records| - 1]);
    }
  }

  lemma RedeliveryIsNoOp(rows: seq<Row>, records: seq<WireRecord>, later: seq<Row>)
    requires Inserted(rows, records) <= later
    ensures Inserted(later, records) == later
  {
    InsertedKeeps(rows, records);
    forall i | 0 <= i < |records| && Acceptable(records[i])
      ensures HasId(later, RowOf(records[i]).id)
    {
      assert Carries(records, RowOf(records[i]).id);
      var j :| 0 <= j < |Inserted(rows, records)| && Inserted(rows, records)[j].id == RowOf(records[i]).id;
      assert later[j].id == RowOf(records[i]).id;
    }
    NothingNew(later, records);
  }

  // ---------------------------------------------------------------- the handler

  /** Where the database may fail during one request: opening, the n-th record, or the commit. */
  datatype Fault = NoFault | BeginFails | InsertFails(at: nat) | CommitFails

  /** Why a record was refused: the four names it has to give, as far as it does. */
  datatype Reason = Missing(id: string, session: string, agent: string, eventName: string)

  function ReasonOf(r: WireRecord): Reason {
    var p := Split(r.attributes);
    Missing(p.id, p.session, p.agent, r.eventName)
  }

  /** One reason for every refused record, in order. */
  function Reasons(records: seq<WireRecord>): seq<Reason> {
    if records == [] then []
    else Reasons(records[..|records| - 1]) + (if Acceptable(records[|records| - 1]) then [] else [ReasonOf(records[|records| - 1])])
  }

  /** Every reason has a gap, and there are as many reasons as records that are not acceptable. */
  lemma {:induction false} ReasonsExactly(records: seq<WireRecord>)
    ensures Reasons(records) == Map(ReasonOf, Filter((r: WireRecord) => !Acceptable(r), records))
    ensures forall x :: x in Reasons(records) ==> "" in [x.id, x.session, x.agent, x.eventName]
  {
    if records != [] {
      ReasonsExactly(records[..|records| - 1]);
    }
  }

  /** How many of the records are refused. */
  function Refused(records: seq<WireRecord>): nat {
    |Reasons(records)|
  }

  /** How many records are looked at. */
  function Seen(fault: Fault, records: seq<WireRecord>): nat {
    match fault
    case NoFault => |records|
    case BeginFails => 0
    case InsertFails(at) => if at < |records| && Acceptable(records[at]) then at else |records|
    case CommitFails => |records|
  }

  /** Is this the fault that hits, rather than one planned for a record that is never inserted? */
  predicate Hits(fault: Fault, records: seq<WireRecord>) {
    match fault
    case NoFault => false
    case BeginFails => true
    case InsertFails(at) => at < |records| && Acceptable(records[at])
    case CommitFails => true
  }

  datatype Status = Ok200 | BadRequest400 | MethodNotAllowed405

  datatype Reply = Reply(status: Status, rejected: nat, failed: bool)

  class Store {
    var rows: seq<Row>
    var rejectedLog: seq<Reason>

    ghost predicate Valid()
      reads this
    {
      DistinctIds(rows)
    }

    constructor ()
      ensures Valid() && rows == [] && rejectedLog == []
    {
      rows, rejectedLog := [], [];
    }

    /** insertLogs: all acceptable records or, when the database fails, none. */
    method InsertLogs(records: seq<WireRecord>, fault: Fault) returns (rejected: nat, reasons: seq<Reason>, ok: bool)
      requires Valid()
      modifies this`rows
      ensures Valid()
      ensures ok <==> !Hits(fault, records)
      ensures rows == if ok then Inserted(old(rows), records) else old(rows)
      ensures reasons == Reasons(records[..Seen(fault, records)]) && rejected == |reasons|
    {
      rejected, reasons, ok := 0, [], false;
      if fault.BeginFails? {
        return;
      }
      var pending := rows;
      for i := 0 to |records|
        invariant rows == old(rows) && !ok
        invariant fault.InsertFails? && fault.at < i ==> !Acceptable(records[fault.at])
        invariant pending == Inserted(rows, records[..i])
        invariant reasons == Reasons(records[..i]) && rejected == |reasons|
      {
        assert records[..i + 1][..i] == records[..i];
        var r := records[i];
        var id, session, agent, rest := SplitLogAttrs(r.attributes);
        if id == "" || session == "" || agent == "" || r.eventName == "" {
          rejected := rejected + 1;
          reasons := reasons + [Missing(id, session, agent, r.eventName)];
          continue;
        }
        assert Reasons(records[..i + 1]) == Reasons(records[..i]);
        if fault == InsertFails(i) {
          return;
        }
        if !HasId(pending, id) {
          pending := pending + [Row(id, r.time, session, agent, r.eventName, rest)];
        }
      }
      assert records[..|records|] == records;
      InsertedKeeps(rows, records);
      if fault.CommitFails? {
        return;
      }
      rows := pending;
      ok := true;
    }

    /** ServeLogs: a request that cannot be read is refused, any other is answered 200. */
    method ServeLogs(isPost: bool, payload: Option<seq<WireRecord>>, fault: Fault) returns (reply: Reply)
      requires Valid()
      modifies this
      ensures Valid()
      ensures reply.status == if !isPost then MethodNotAllowed405 else if payload.None? then BadRequest400 else Ok200
      ensures reply.status != Ok200 ==> rows == old(rows) && rejectedLog == old(rejectedLog)
      ensures reply.status == Ok200 ==>
                && reply.failed == Hits(fault, payload.value)
                && rows == (if reply.failed then old(rows) else Inserted(old(rows), payload.value))
                && var reasons := Reasons(payload.value[..Seen(fault, payload.value)]);
                   reply.rejected == |reasons| && rejectedLog == old(rejectedLog) + reasons
    {
      if !isPost {
        return Reply(MethodNotAllowed405, 0, false);
      }
      if payload.None? {
        return Reply(BadRequest400, 0, false);
      }
      var rejected, reasons, ok := InsertLogs(payload.value, fault);
      rejectedLog := rejectedLog + reasons;
      return Reply(Ok200, rejected, !ok);
    }
  }

  ghost predicate AllStored(rows: seq<Row>, records: seq<WireRecord>) {
    forall i :: 0 <= i < |records| && Acceptable(records[i]) ==> HasId(rows, RowOf(records[i]).id)
  }

  /**
   A 200 does not mean stored: after the reply every acceptable record is in the table exactly
   when the database did not fail or they were all there already.
   */
  lemma StoredAfterReplyExactly(before: seq<Row>, records: seq<WireRecord>, fault: Fault)
    ensures var after := if Hits(fault, records) then before else Inserted(before, records);
            AllStored(after, records) <==> !Hits(fault, records) || AllStored(before, records)
  {
    InsertedKeeps(before, records);
    forall i | 0 <= i < |records| && Acceptable(records[i])
      ensures HasId(Inserted(before, records), RowOf(records[i]).id)
    {
      assert Carries(records, RowOf(records[i]).id);
    }
  }

  /** How many acceptable records are ignored because their id is already there. */
  function Ignored(rows: seq<Row>, records: seq<WireRecord>): nat {
    if records == [] then 0
    else
      var front, last := records[..|records| - 1], records[|records| - 1];
      Ignored(rows, front) + (if Acceptable(last) && HasId(Inserted(rows, front), RowOf(last).id) then 1 else 0)
  }

  /** Every record of a request is either added, ignored as a duplicate, or refused. */
  lemma {:induction false} EveryRecordIsAccountedFor(rows: seq<Row>, records: seq<WireRecord>)
    ensures |Inserted(rows, records)| == |rows| + |records| - Ignored(rows, records) - Refused(records)
  {
    if records != [] {
      EveryRecordIsAccountedFor(rows, records[..|records| - 1]);
    }
  }
}
