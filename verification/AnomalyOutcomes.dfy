/** What the anomaly operations store and log, field by field, and when a row was last resolved. */
module AnomalyOutcomes {
  import opened Prelude
  import opened PyText
  import opened Json
  import opened Metadata
  import Sanitize
  import opened Audit
  import opened Anomaly
  import opened AnomalyTheorems

  // ---------------------------------------------------------------- rows

  /** A creation is committed exactly for a new id and an accepted entry; it stores what was reported, open and unresolved. */
  lemma CreateOutcome(c: Crypto, db: Db, id: Id, e: Event, actor: Option<Str>, s: Stamp)
    ensures var t := Create(c, db, id, e, actor, s);
            if t.result.None?
            then id !in db.events && t.db.events.Keys == db.events.Keys + {id} &&
                 (forall q :: q in db.events ==> t.db.events[q] == db.events[q]) &&
                 var row := t.db.events[id];
                 row.status == Open && row.resolvedAt.None? && row.category == e.category && row.score == e.score &&
                 row.severity == e.severity && row.title == e.title && row.actor == e.actor && row.sourceIp == e.sourceIp &&
                 row.tenantId == e.tenantId && row.metadata == e.metadata
            else t.db.events == db.events && t.db.log.rows == db.log.rows
  {
    hide CreatedDraft;
  }

  /** The status and time a committed input gives this row, if any. */
  ghost function Sets(c: Crypto, db: Db, i: Input<Command>, id: Id): Option<(Status, int)> {
    match i
    case Serve(UpdateCmd(target, status, actor, now, s)) =>
      if target == id && Update(c, db, target, status, actor, now, s).result.None? then Some((status, now)) else None
    case Serve(BulkCmd(ids, status, actor, now, stamps)) =>
      if |stamps| == |ids| && id in ids && UpdateEach(c, db, ids, status, actor, now, stamps).result.None?
      then Some((status, now)) else None
    case _ => None
  }

  /** The row with this status: resolving stamps the time, reopening clears it, anything else leaves it. */
  ghost predicate IsRestated(before: Event, after: Event, status: Status, now: int) {
    after == before.(status := status, resolvedAt := after.resolvedAt) &&
    (status == Resolved ==> after.resolvedAt == Some(now)) && (status == Open ==> after.resolvedAt.None?) &&
    (status == Investigating || status == Dismissed ==> after.resolvedAt == before.resolvedAt)
  }

  lemma {:induction false} EachRestates(
    c: Crypto, db: Db, ids: seq<Id>, status: Status, actor: Option<Str>, now: int, stamps: seq<Stamp>, id: Id)
    requires |stamps| == |ids| && id in db.events && UpdateEach(c, db, ids, status, actor, now, stamps).result.None?
    ensures var after := UpdateEach(c, db, ids, status, actor, now, stamps).db.events;
            id in after && if id in ids then IsRestated(db.events[id], after[id], status, now) else after[id] == db.events[id]
    decreases |ids|
  {
    hide Append;
    hide UpdatedDraft;
    if ids != [] {
      var n := |ids| - 1;
      assert ids == ids[..n] + [ids[n]];
      EachRestates(c, db, ids[..n], status, actor, now, stamps[..n], id);
    }
  }

  /** An input changes an existing row exactly as the status it sets demands, and leaves every other row alone. */
  lemma NextRestates(c: Crypto, db: Db, i: Input<Command>, id: Id)
    requires id in db.events
    ensures var after := Next(c, db, i).events;
            id in after && match Sets(c, db, i, id)
                           case None => after[id] == db.events[id]
                           case Some(p) => IsRestated(db.events[id], after[id], p.0, p.1)
  {
    hide Append;
    hide CreatedDraft;
    hide UpdatedDraft;
    match i
    case Serve(BulkCmd(ids, status, actor, now, stamps)) =>
      if |stamps| == |ids| && UpdateEach(c, db, ids, status, actor, now, stamps).result.None? {
        EachRestates(c, db, ids, status, actor, now, stamps, id);
      }
    case _ =>
  }

  /** The time of the last resolution in the run that was not undone by reopening. */
  ghost function LastResolution(c: Crypto, db: Db, inputs: seq<Input<Command>>, id: Id, at: Option<int>): Option<int>
    decreases |inputs|
  {
    if inputs == [] then at
    else
      var given := Sets(c, db, inputs[0], id);
      LastResolution(c, Next(c, db, inputs[0]), inputs[1..], id,
        if given.Some? && given.value.0 == Resolved then Some(given.value.1)
        else if given.Some? && given.value.0 == Open then None else at)
  }

  /** Over every run the resolution time is that of the last resolution not followed by reopening, whatever else happened. */
  lemma {:induction false} ResolvedWhenLast(c: Crypto, db: Db, inputs: seq<Input<Command>>, id: Id)
    requires id in db.events
    ensures id in Run(c, db, inputs).events
    ensures Run(c, db, inputs).events[id].resolvedAt == LastResolution(c, db, inputs, id, db.events[id].resolvedAt)
    decreases |inputs|
  {
    hide Next;
    hide Sets;
    if inputs != [] {
      NextRestates(c, db, inputs[0], id);
      ResolvedWhenLast(c, Next(c, db, inputs[0]), inputs[1..], id);
    }
  }

  // ---------------------------------------------------------------- entries

  /** What the entry about an anomaly says, under which names. */
  lemma EntrySays(id: Id, e: Event, previous: Option<Status>, actor: Option<Str>, subtype: Str, description: Str)
    ensures var d := AuditDraft(id, e, previous, actor, subtype, description);
            d.severity == Info && d.eventType == AnomalyDetected && d.eventSubtype == subtype && d.description == description &&
            d.tenantId == e.tenantId && d.sourceIp == e.sourceIp && d.tenantSlug.None? &&
            Get(d.metadata, Py("anomaly_id")) == Some(JStr(id)) && Get(d.metadata, Py("category")) == Some(JStr(e.category)) &&
            Get(d.metadata, Py("severity")) == Some(JStr(e.severity)) && Get(d.metadata, Py("status")) == Some(StatusJson(e.status)) &&
            Get(d.metadata, Py("score")) == Some(e.score) && Get(d.metadata, Py("metadata_json")) == Some(JObj(e.metadata)) &&
            Get(d.metadata, Py("previous_status")) == (if previous.Some? then Some(StatusJson(previous.value)) else None)
  {
    hide AuditMetadata;
    hide StatusJson;
    WrittenField(id, e, previous, AnomalyId);
    WrittenField(id, e, previous, Category);
    WrittenField(id, e, previous, SeverityField);
    WrittenField(id, e, previous, StatusField);
    WrittenField(id, e, previous, Score);
    WrittenField(id, e, previous, MetadataJson);
    WrittenField(id, e, previous, PreviousStatus);
  }

  /** The actor is the first of these that is named; otherwise the system. */
  lemma ActorIsFirstNamed(primary: Option<Str>, fallback: Option<Str>)
    ensures AuditActor(primary, fallback) != []
    ensures primary.Some? && primary.value != [] ==> AuditActor(primary, fallback) == primary.value
    ensures (primary.None? || primary.value == []) && fallback.Some? && fallback.value != [] ==>
              AuditActor(primary, fallback) == fallback.value
    ensures (primary.None? || primary.value == []) && (fallback.None? || fallback.value == []) ==>
              AuditActor(primary, fallback) == Py("system")
  {}

  /** The history line of an update: when, by whom, and with the sequence number of its entry. */
  lemma UpdateLine(c: Crypto, db: Db, id: Id, status: Status, actor: Option<Str>, now: int, s: Stamp)
    requires id in db.events && Update(c, db, id, status, actor, now, s).result.None?
    ensures var h, before := History(Update(c, db, id, status, actor, now, s).db.log.rows, id), History(db.log.rows, id);
            |h| == |before| + 1 && h[..|before|] == before &&
            var n := h[|before|];
            n.sequence == db.log.nextSequence && n.occurredAt == s.now && n.actor == AuditActor(actor, db.events[id].actor) &&
            n.subtype == Py("ANOMALY_STATUS_UPDATED") &&
            n.previousStatus == Some(StatusJson(db.events[id].status)) && n.newStatus == Some(StatusJson(status))
  {
    var previous, row := db.events[id].status, WithStatus(db.events[id], status, now);
    var d := UpdatedDraft(id, row, previous, actor);
    var e := NewEntry(c, db.log, d, s);
    LoggedEntry(c, db.log, id, row, Some(previous), actor, Py("ANOMALY_STATUS_UPDATED"), d.description, s);
    hide AuditMetadata;
    hide Sanitize.Sanitized;
    HistoryStep(db.log.rows, e, id);
    hide History;
    hide Tagged;
  }

  // ---------------------------------------------------------------- the bulk response

  /** Where this id first occurs. */
  ghost predicate FirstAt(ids: seq<Id>, x: Id, i: nat) {
    i < |ids| && ids[i] == x && forall j :: 0 <= j < i ==> ids[j] != x
  }

  /** The ids stand in the order of their first occurrence in the request. */
  ghost predicate InRequestOrder(r: seq<Id>, ids: seq<Id>) {
    forall a, b, i, j :: 0 <= a < b < |r| && FirstAt(ids, r[a], i) && FirstAt(ids, r[b], j) ==> i < j
  }

  lemma FirstAtPrefix(ids: seq<Id>, x: Id, i: nat)
    requires ids != [] && FirstAt(ids, x, i) && x in ids[..|ids|-1]
    ensures FirstAt(ids[..|ids|-1], x, i)
  {
    var j :| 0 <= j < |ids| - 1 && ids[..|ids|-1][j] == x;
    assert ids[j] == x;
  }

  lemma {:induction false} UniqueOrdered(ids: seq<Id>)
    ensures InRequestOrder(Unique(ids), ids)
  {
    if ids != [] {
      var n := |ids| - 1;
      var front, r := Unique(ids[..n]), Unique(ids);
      UniqueOrdered(ids[..n]);
      assert forall k :: 0 <= k < n ==> ids[..n][k] == ids[k];
      forall a, b, i: nat, j: nat | 0 <= a < b < |r| && FirstAt(ids, r[a], i) && FirstAt(ids, r[b], j) ensures i < j {
        assert r[a] == front[a] && front[a] in front;
        FirstAtPrefix(ids, r[a], i);
        if b < |front| {
          assert r[b] == front[b] && front[b] in front;
          FirstAtPrefix(ids, r[b], j);
        } else {
          assert r[b] !in ids[..n] && j == n;
          assert r[a] in ids[..n];
        }
      }
    }
  }

  lemma {:induction false} SiftedOrdered(r: seq<Id>, ids: seq<Id>, events: map<Id, Event>, present: bool)
    requires InRequestOrder(r, ids)
    ensures InRequestOrder(Sifted(r, events, present), ids)
  {
    if r != [] {
      var n := |r| - 1;
      var front, all := Sifted(r[..n], events, present), Sifted(r, events, present);
      assert InRequestOrder(r[..n], ids) by {
        forall a, b, i: nat, j: nat | 0 <= a < b < |r[..n]| && FirstAt(ids, r[..n][a], i) && FirstAt(ids, r[..n][b], j) ensures i < j {
          assert r[..n][a] == r[a] && r[..n][b] == r[b];
        }
      }
      SiftedOrdered(r[..n], ids, events, present);
      hide FirstAt;
      forall a, b, i: nat, j: nat | 0 <= a < b < |all| && FirstAt(ids, all[a], i) && FirstAt(ids, all[b], j) ensures i < j {
        if b < |front| {
          assert all[a] == front[a] && all[b] == front[b];
        } else {
          assert all[a] in front && all[a] in r[..n];
          var k :| 0 <= k < n && r[..n][k] == all[a];
          assert r[k] == all[a] && r[n] == all[b];
        }
      }
    }
  }

  ghost function Elements(r: seq<Id>): set<Id> {
    set x | x in r
  }

  /** The response lists updated and unknown ids in the order they were first asked for. */
  lemma BulkReportOrdered(ids: seq<Id>, events: map<Id, Event>)
    ensures InRequestOrder(BulkReport(ids, events).updatedIds, ids) && InRequestOrder(BulkReport(ids, events).notFoundIds, ids)
    ensures BulkReport(ids, events).requested == |Elements(ids)|
  {
    UniqueOrdered(ids);
    SiftedOrdered(Unique(ids), ids, events, true);
    SiftedOrdered(Unique(ids), ids, events, false);
    DistinctSize(Unique(ids));
    assert Elements(ids) == Elements(Unique(ids));
  }

  lemma {:induction false} DistinctSize(r: seq<Id>)
    requires Distinct(r)
    ensures |Elements(r)| == |r|
  {
    if r != [] {
      LastApart(r);
      DistinctSize(r[..|r|-1]);
      assert Elements(r) == Elements(r[..|r|-1]) + {r[|r|-1]};
    }
  }
}
