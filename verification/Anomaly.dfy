/** Anomaly events: the mutable row, the audit entry written with every change, and the history read back from the log. */
module Anomaly {
  import opened Prelude
  import opened PyText
  import opened Json
  import opened Clock
  import opened Metadata
  import opened Audit

  type Id = Str

  datatype Status = Open | Investigating | Resolved | Dismissed

  function StatusValue(s: Status): string {
    match s
    case Open => "open"
    case Investigating => "investigating"
    case Resolved => "resolved"
    case Dismissed => "dismissed"
  }

  function StatusJson(s: Status): Json {
    JStr(Py(StatusValue(s)))
  }

  datatype Event = Event(
    tenantId: Option<Str>, category: Str, score: Json, severity: Str, status: Status, title: Str,
    actor: Option<Str>, sourceIp: Option<Str>, metadata: Object, resolvedAt: Option<int>)

  // ---------------------------------------------------------------- audit metadata

  datatype Field = AnomalyId | Category | SeverityField | StatusField | Score | MetadataJson | PreviousStatus

  function Name(f: Field): string {
    match f
    case AnomalyId => "anomaly_id"
    case Category => "category"
    case SeverityField => "severity"
    case StatusField => "status"
    case Score => "score"
    case MetadataJson => "metadata_json"
    case PreviousStatus => "previous_status"
  }

  function Key(f: Field): Str { Py(Name(f)) }

  lemma KeysDistinct()
    ensures forall f, g :: Key(f) == Key(g) ==> f == g
  {
    forall f, g | Key(f) == Key(g) ensures f == g { PyInjective(Name(f), Name(g)); }
  }

  function Value(id: Id, e: Event, previous: Option<Status>, f: Field): Json {
    match f
    case AnomalyId => JStr(id)
    case Category => JStr(e.category)
    case SeverityField => JStr(e.severity)
    case StatusField => StatusJson(e.status)
    case Score => e.score
    case MetadataJson => JObj(e.metadata)
    case PreviousStatus => if previous.Some? then StatusJson(previous.value) else JNull
  }

  function Fields(previous: Option<Status>): set<Field> {
    {AnomalyId, Category, SeverityField, StatusField, Score, MetadataJson} + (if previous.Some? then {PreviousStatus} else {})
  }

  /** `_audit_metadata`. */
  function AuditMetadata(id: Id, e: Event, previous: Option<Status>): Object {
    KeysDistinct();
    Keyed(Fields(previous), f => Key(f), f => Value(id, e, previous, f))
  }

  /** `_audit_actor`: empty strings count as absent. */
  function AuditActor(primary: Option<Str>, fallback: Option<Str>): Str {
    if primary.Some? && primary.value != [] then primary.value
    else if fallback.Some? && fallback.value != [] then fallback.value
    else Py("system")
  }

  /** `_append_anomaly_audit`. */
  function AuditDraft(id: Id, e: Event, previous: Option<Status>, actor: Option<Str>, subtype: Str, description: Str): Draft {
    Draft(Info, AnomalyDetected, subtype, AuditActor(actor, e.actor), description, e.tenantId, None, e.sourceIp,
          AuditMetadata(id, e, previous))
  }

  function CreatedDraft(id: Id, e: Event, actor: Option<Str>): Draft {
    AuditDraft(id, e, None, actor, Py("ANOMALY_CREATED"), Py("Anomaly created: ") + e.title)
  }

  function UpdatedDraft(id: Id, e: Event, previous: Status, actor: Option<Str>): Draft {
    AuditDraft(id, e, Some(previous), actor, Py("ANOMALY_STATUS_UPDATED"),
               Py("Anomaly status updated: ") + Py(StatusValue(previous)) + Py(" -> ") + Py(StatusValue(e.status)))
  }

  // ---------------------------------------------------------------- the store and its operations

  datatype Db = Db(events: map<Id, Event>, log: Log)

  /** The database after an operation, and whether the transaction committed. */
  datatype Done = Done(db: Db, result: Option<Error>)

  /** Roll back to the snapshot; only the identity counter moves on. */
  function RolledBack(snapshot: Db, reached: Log): Db {
    snapshot.(log := Log(snapshot.log.rows, reached.nextSequence))
  }

  function WithStatus(e: Event, status: Status, now: int): Event {
    e.(status := status,
       resolvedAt := if status == Resolved then Some(now) else if status == Open then None else e.resolvedAt)
  }

  /** `create_anomaly_event`. */
  function Create(c: Crypto, db: Db, id: Id, e: Event, actor: Option<Str>, s: Stamp): Done {
    if id in db.events then Done(db, Some(IntegrityError))
    else
      var row := e.(status := Open, resolvedAt := None);
      var a := Append(c, db.log, CreatedDraft(id, row, actor), s);
      if a.ok then Done(Db(db.events[id := row], a.log), None)
      else Done(RolledBack(db, a.log), Some(IntegrityError))
  }

  /** `update_anomaly_status`. */
  function Update(c: Crypto, db: Db, id: Id, status: Status, actor: Option<Str>, now: int, s: Stamp): Done {
    if id !in db.events then Done(db, Some(NotFound))
    else
      var previous := db.events[id].status;
      var row := WithStatus(db.events[id], status, now);
      var a := Append(c, db.log, UpdatedDraft(id, row, previous, actor), s);
      if a.ok then Done(Db(db.events[id := row], a.log), None)
      else Done(RolledBack(db, a.log), Some(IntegrityError))
  }

  /** One single-row update after another, until one is refused. */
  function UpdateEach(c: Crypto, db: Db, ids: seq<Id>, status: Status, actor: Option<Str>, now: int, stamps: seq<Stamp>): Done
    requires |stamps| == |ids|
  {
    if ids == [] then Done(db, None)
    else
      var first := UpdateEach(c, db, ids[..|ids|-1], status, actor, now, stamps[..|ids|-1]);
      if first.result.Some? then first
      else Update(c, first.db, ids[|ids|-1], status, actor, now, stamps[|ids|-1])
  }

  /** `list(dict.fromkeys(ids))`: first occurrences, in order. */
  function Unique(ids: seq<Id>): (r: seq<Id>)
    ensures forall x :: x in r <==> x in ids
    ensures forall i, j :: 0 <= i < j < |r| ==> r[i] != r[j]
  {
    if ids == [] then []
    else
      var r := Unique(ids[..|ids|-1]);
      if ids[|ids|-1] in r then r else r + [ids[|ids|-1]]
  }

  /** The rows a bulk request selects, in whatever order the database returns them. */
  ghost predicate IsSelection(order: seq<Id>, ids: seq<Id>, events: map<Id, Event>) {
    (forall x :: x in order <==> x in ids && x in events) && forall i, j :: 0 <= i < j < |order| ==> order[i] != order[j]
  }

  datatype BulkResponse = BulkResponse(requested: nat, updated: nat, updatedIds: seq<Id>, notFoundIds: seq<Id>)

  /** The ids among these that are, or are not, in the table; order is kept. */
  function Sifted(ids: seq<Id>, events: map<Id, Event>, present: bool): (r: seq<Id>)
    ensures forall x :: x in r <==> x in ids && (x in events <==> present)
  {
    if ids == [] then []
    else
      var r := Sifted(ids[..|ids|-1], events, present);
      if ids[|ids|-1] in events <==> present then r + [ids[|ids|-1]] else r
  }

  lemma {:induction false} SiftedPartition(ids: seq<Id>, events: map<Id, Event>)
    ensures |Sifted(ids, events, true)| + |Sifted(ids, events, false)| == |ids|
  {
    if ids != [] { SiftedPartition(ids[..|ids|-1], events); }
  }

  /** The response lists: every distinct requested id is reported once, as updated or as not found. */
  function BulkReport(ids: seq<Id>, events: map<Id, Event>): (r: BulkResponse)
    ensures r.updated + |r.notFoundIds| == r.requested && r.updated == |r.updatedIds|
    ensures forall x :: x in ids <==> x in r.updatedIds || x in r.notFoundIds
    ensures forall x :: x in r.updatedIds ==> x in events && x !in r.notFoundIds
  {
    var unique := Unique(ids);
    SiftedPartition(unique, events);
    var updated := Sifted(unique, events, true);
    BulkResponse(|unique|, |updated|, updated, Sifted(unique, events, false))
  }

  // ---------------------------------------------------------------- history

  datatype HistoryEntry = HistoryEntry(
    sequence: nat, occurredAt: Instant, actor: Str, subtype: Str, description: Str,
    previousStatus: Option<Json>, newStatus: Option<Json>)

  /** `event_type == ANOMALY_DETECTED and metadata_json ->> 'anomaly_id' == id`, for an id in UUID form. */
  predicate Tagged(e: Content, id: Id) {
    e.eventType == AnomalyDetected && Get(e.metadata, Key(AnomalyId)) == Some(JStr(id))
  }

  function ToHistory(e: Entry): HistoryEntry {
    HistoryEntry(e.sequence, e.content.occurredAt, e.content.actor, e.content.eventSubtype, e.content.description,
                 Get(e.content.metadata, Key(PreviousStatus)), Get(e.content.metadata, Key(StatusField)))
  }

  /** `get_anomaly_history`, over the rows in sequence order. */
  function History(rows: seq<Entry>, id: Id): seq<HistoryEntry> {
    if rows == [] then []
    else
      var e := rows[|rows|-1];
      History(rows[..|rows|-1], id) + (if Tagged(e.content, id) then [ToHistory(e)] else [])
  }

  lemma HistoryStep(rows: seq<Entry>, e: Entry, id: Id)
    ensures History(rows + [e], id) == if Tagged(e.content, id) then History(rows, id) + [ToHistory(e)] else History(rows, id)
  {
    assert (rows + [e])[..|rows|] == rows;
  }

  /** The service over a mutable session: rows change in place and a failure restores the snapshot. */
  class Session {
    var events: map<Id, Event>
    var log: Log

    function View(): Db
      reads this
    {
      Db(events, log)
    }

    constructor (db: Db)
      ensures View() == db
    {
      events, log := db.events, db.log;
    }

    /** `create_anomaly_event`. */
    method CreateEvent(c: Crypto, id: Id, e: Event, actor: Option<Str>, s: Stamp) returns (error: Option<Error>)
      modifies this
      ensures Done(View(), error) == Create(c, old(View()), id, e, actor, s)
    {
      hide Append;
      hide CreatedDraft;
      if id in events { return Some(IntegrityError); }
      var snapshot, snapshotRows := events, log.rows;
      var row := e.(status := Open, resolvedAt := None);
      events := events[id := row];
      var a := Append(c, log, CreatedDraft(id, row, actor), s);
      log := a.log;
      error := None;
      if !a.ok {
        events, log := snapshot, Log(snapshotRows, log.nextSequence);
        error := Some(IntegrityError);
      }
    }

    /** `update_anomaly_status`. */
    method UpdateStatus(c: Crypto, id: Id, status: Status, actor: Option<Str>, now: int, s: Stamp) returns (error: Option<Error>)
      modifies this
      ensures Done(View(), error) == Update(c, old(View()), id, status, actor, now, s)
    {
      hide Append;
      hide UpdatedDraft;
      if id !in events { return Some(NotFound); }
      var snapshot, snapshotRows := events, log.rows;
      var row := events[id];
      var previous := row.status;
      row := row.(status := status);
      if status == Resolved {
        row := row.(resolvedAt := Some(now));
      } else if status == Open {
        row := row.(resolvedAt := None);
      }
      events := events[id := row];
      var a := Append(c, log, UpdatedDraft(id, row, previous, actor), s);
      log := a.log;
      error := None;
      if !a.ok {
        events, log := snapshot, Log(snapshotRows, log.nextSequence);
        error := Some(IntegrityError);
      }
    }

    /** `bulk_update_anomaly_status`: one transaction, equal to one single update per distinct found id. */
    method BulkUpdate(c: Crypto, ids: seq<Id>, order: seq<Id>, status: Status, actor: Option<Str>, now: int, stamps: seq<Stamp>)
      returns (r: Result<BulkResponse>)
      requires IsSelection(order, ids, events) && |stamps| == |order|
      modifies this
      ensures var each := UpdateEach(c, old(View()), order, status, actor, now, stamps);
              if each.result.None?
              then View() == each.db && r == Ok(BulkReport(ids, old(events)))
              else r == Err(each.result.value) && View() == RolledBack(old(View()), each.db.log)
    {
      hide Append;
      hide UpdatedDraft;
      hide WithStatus;
      hide BulkReport;
      var snapshot, snapshotRows := events, log.rows;
      var k := 0;
      while k < |order|
        invariant 0 <= k <= |order|
        invariant events.Keys == old(events).Keys
        invariant UpdateEach(c, old(View()), order[..k], status, actor, now, stamps[..k]) == Done(View(), None)
      {
        var id := order[k];
        assert id in order;
        var previous := events[id].status;
        var row := WithStatus(events[id], status, now);
        var a := Append(c, log, UpdatedDraft(id, row, previous, actor), stamps[k]);
        UpdateEachStep(c, old(View()), order, status, actor, now, stamps, k);
        if !a.ok {
          UpdateEachStuck(c, old(View()), order, status, actor, now, stamps, k + 1);
          events, log := snapshot, Log(snapshotRows, a.log.nextSequence);
          return Err(IntegrityError);
        }
        events, log := events[id := row], a.log;
        k := k + 1;
      }
      assert order[..k] == order && stamps[..k] == stamps;
      r := Ok(BulkReport(ids, snapshot));
    }
  }

  lemma UpdateEachStep(c: Crypto, db: Db, ids: seq<Id>, status: Status, actor: Option<Str>, now: int, stamps: seq<Stamp>, k: nat)
    requires |stamps| == |ids| && k < |ids|
    requires UpdateEach(c, db, ids[..k], status, actor, now, stamps[..k]).result.None?
    ensures UpdateEach(c, db, ids[..k+1], status, actor, now, stamps[..k+1])
         == Update(c, UpdateEach(c, db, ids[..k], status, actor, now, stamps[..k]).db, ids[k], status, actor, now, stamps[k])
  {
    hide Update;
    assert ids[..k+1][..k] == ids[..k] && stamps[..k+1][..k] == stamps[..k];
  }

  lemma {:induction false} UpdateEachStuck(
    c: Crypto, db: Db, ids: seq<Id>, status: Status, actor: Option<Str>, now: int, stamps: seq<Stamp>, k: nat)
    requires |stamps| == |ids| && k <= |ids|
    requires UpdateEach(c, db, ids[..k], status, actor, now, stamps[..k]).result.Some?
    ensures UpdateEach(c, db, ids, status, actor, now, stamps) == UpdateEach(c, db, ids[..k], status, actor, now, stamps[..k])
    decreases |ids|
  {
    hide Update;
    if k == |ids| {
      assert ids[..k] == ids && stamps[..k] == stamps;
    } else {
      var n := |ids| - 1;
      assert ids[..n][..k] == ids[..k] && stamps[..n][..k] == stamps[..k];
      UpdateEachStuck(c, db, ids[..n], status, actor, now, stamps[..n], k);
    }
  }
}
