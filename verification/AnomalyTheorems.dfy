/** The status row refines the audit log: what the history rebuilt from the log says is what the row holds. */
module AnomalyTheorems {
  import opened Prelude
  import opened PyText
  import opened Json
  import Clock
  import opened Metadata
  import opened Sanitize
  import opened Audit
  import opened Anomaly

  // ---------------------------------------------------------------- what survives sanitization

  /** The fields the history reads. */
  predicate IsHistoryField(f: Field) {
    f == AnomalyId || f == StatusField || f == PreviousStatus
  }

  lemma HistoryFieldsPlain(f: Field)
    requires IsHistoryField(f)
    ensures !Sensitive(Key(f))
  {
    PlainName(Name(f));
  }

  lemma WrittenField(id: Id, e: Event, previous: Option<Status>, f: Field)
    ensures Get(AuditMetadata(id, e, previous), Key(f)) == if f in Fields(previous) then Some(Value(id, e, previous, f)) else None
  {
    hide Key;
    hide Value;
    hide Fields;
    KeysDistinct();
    KeyedAt(Fields(previous), f => Key(f), f => Value(id, e, previous, f), f);
  }

  /** Sanitization leaves the tag and both statuses of an anomaly's audit metadata as they were written. */
  lemma LoggedField(id: Id, e: Event, previous: Option<Status>, f: Field)
    requires IsHistoryField(f)
    ensures Get(Sanitized(JObj(AuditMetadata(id, e, previous))).fields, Key(f))
         == if f in Fields(previous) then Some(Value(id, e, previous, f)) else None
  {
    hide Key;
    hide AuditMetadata;
    HistoryFieldsPlain(f);
    WrittenField(id, e, previous, f);
    SanitizedGet(AuditMetadata(id, e, previous), Key(f));
  }

  /** An audit entry of anomaly `id` is found by that id alone and carries the two statuses. */
  lemma LoggedEntry(
    c: Crypto, log: Log, id: Id, e: Event, previous: Option<Status>, actor: Option<Str>, subtype: Str, description: Str, s: Stamp)
    ensures var n := NewEntry(c, log, AuditDraft(id, e, previous, actor, subtype, description), s);
            (forall q :: Tagged(n.content, q) <==> q == id) &&
            ToHistory(n).newStatus == Some(StatusJson(e.status)) &&
            ToHistory(n).previousStatus == if previous.Some? then Some(StatusJson(previous.value)) else None
  {
    hide AuditMetadata;
    hide Sanitized;
    hide Key;
    LoggedField(id, e, previous, AnomalyId);
    LoggedField(id, e, previous, StatusField);
    LoggedField(id, e, previous, PreviousStatus);
  }

  // ---------------------------------------------------------------- agreement

  /** Starts at open, each transition leaves the status the one before reached, and ends at the given status. */
  ghost predicate Agrees(h: seq<HistoryEntry>, status: Status) {
    h != [] && h[0].previousStatus == None && h[0].newStatus == Some(StatusJson(Open)) &&
    (forall i :: 0 < i < |h| ==> h[i].previousStatus.Some? && h[i].previousStatus == h[i-1].newStatus) &&
    h[|h|-1].newStatus == Some(StatusJson(status))
  }

  /** Every row holds the status its history ends at. */
  ghost predicate RowsAgree(db: Db) {
    forall id :: id in db.events ==> Agrees(History(db.log.rows, id), db.events[id].status)
  }

  /** Beyond agreement: no entry is about an anomaly without a row, so the log alone tells which anomalies exist. */
  ghost predicate NoStrays(db: Db) {
    forall id :: id !in db.events ==> History(db.log.rows, id) == []
  }

  lemma AgreesExtends(h: seq<HistoryEntry>, status: Status, n: HistoryEntry, next: Status)
    requires Agrees(h, status)
    requires n.previousStatus == Some(StatusJson(status)) && n.newStatus == Some(StatusJson(next))
    ensures Agrees(h + [n], next)
  {}

  /** A committed creation starts this anomaly's history, and touches no other. */
  lemma CreateHistory(c: Crypto, db: Db, id: Id, e: Event, actor: Option<Str>, s: Stamp) returns (n: HistoryEntry)
    requires Create(c, db, id, e, actor, s).result.None?
    ensures n.previousStatus == None && n.newStatus == Some(StatusJson(Open))
    ensures forall q :: History(Create(c, db, id, e, actor, s).db.log.rows, q)
                     == if q == id then History(db.log.rows, q) + [n] else History(db.log.rows, q)
  {
    hide AuditDraft;
    var row := e.(status := Open, resolvedAt := None);
    var entry := NewEntry(c, db.log, CreatedDraft(id, row, actor), s);
    LoggedEntry(c, db.log, id, row, None, actor, Py("ANOMALY_CREATED"), Py("Anomaly created: ") + row.title, s);
    n := ToHistory(entry);
    forall q ensures History(db.log.rows + [entry], q) == if q == id then History(db.log.rows, q) + [n] else History(db.log.rows, q) {
      HistoryStep(db.log.rows, entry, q);
    }
  }

  /** A creation keeps rows and histories in agreement if and only if it is refused or its id has no history yet. */
  lemma CreateKeepsRows(c: Crypto, db: Db, id: Id, e: Event, actor: Option<Str>, s: Stamp)
    requires RowsAgree(db)
    ensures RowsAgree(Create(c, db, id, e, actor, s).db) <==>
            (Create(c, db, id, e, actor, s).result.None? ==> History(db.log.rows, id) == [])
    ensures NoStrays(db) ==> NoStrays(Create(c, db, id, e, actor, s).db)
  {
    hide Agrees;
    hide History;
    hide CreatedDraft;
    hide Append;
    var t := Create(c, db, id, e, actor, s);
    if t.result.None? {
      var n := CreateHistory(c, db, id, e, actor, s);
      FirstAgrees(History(db.log.rows, id), n);
    } else {
      AppendRefused(c, db.log, CreatedDraft(id, e.(status := Open, resolvedAt := None), actor), s);
    }
  }

  lemma AppendRefused(c: Crypto, log: Log, d: Draft, s: Stamp)
    ensures !Append(c, log, d, s).ok ==> Append(c, log, d, s).log.rows == log.rows
  {}

  /** A creation can only be the first entry of a history. */
  lemma FirstAgrees(h: seq<HistoryEntry>, n: HistoryEntry)
    requires n.previousStatus == None && n.newStatus == Some(StatusJson(Open))
    ensures Agrees(h + [n], Open) <==> h == []
  {
    assert (h + [n])[|h|] == n;
  }

  /** A committed update adds one entry, from the old status to the new, to this anomaly's history and to no other. */
  lemma UpdateHistory(c: Crypto, db: Db, id: Id, status: Status, actor: Option<Str>, now: int, s: Stamp) returns (n: HistoryEntry)
    requires id in db.events && Update(c, db, id, status, actor, now, s).result.None?
    ensures n.previousStatus == Some(StatusJson(db.events[id].status)) && n.newStatus == Some(StatusJson(status))
    ensures forall q :: History(Update(c, db, id, status, actor, now, s).db.log.rows, q)
                     == if q == id then History(db.log.rows, q) + [n] else History(db.log.rows, q)
  {
    hide AuditDraft;
    var t := Update(c, db, id, status, actor, now, s);
    var previous, row := db.events[id].status, WithStatus(db.events[id], status, now);
    var e := NewEntry(c, db.log, UpdatedDraft(id, row, previous, actor), s);
    LoggedEntry(c, db.log, id, row, Some(previous), actor, Py("ANOMALY_STATUS_UPDATED"),
                Py("Anomaly status updated: ") + Py(StatusValue(previous)) + Py(" -> ") + Py(StatusValue(row.status)), s);
    n := ToHistory(e);
    forall q ensures History(t.db.log.rows, q) == if q == id then History(db.log.rows, q) + [n] else History(db.log.rows, q) {
      HistoryStep(db.log.rows, e, q);
    }
  }

  lemma UpdateKeepsRows(c: Crypto, db: Db, id: Id, status: Status, actor: Option<Str>, now: int, s: Stamp)
    requires RowsAgree(db)
    ensures RowsAgree(Update(c, db, id, status, actor, now, s).db)
    ensures NoStrays(db) ==> NoStrays(Update(c, db, id, status, actor, now, s).db)
  {
    hide Agrees;
    hide History;
    hide UpdatedDraft;
    hide Append;
    var t := Update(c, db, id, status, actor, now, s);
    if t.result.None? {
      var n := UpdateHistory(c, db, id, status, actor, now, s);
      AgreesExtends(History(db.log.rows, id), db.events[id].status, n, status);
    }
  }

  /** A client's own entry about an existing anomaly restates the status the anomaly already has. */
  ghost predicate Benign(db: Db, d: Draft) {
    forall id :: id in db.events && Tagged(Logged(d), id) ==>
      Get(Logged(d).metadata, Key(PreviousStatus)) == Some(StatusJson(db.events[id].status)) &&
      Get(Logged(d).metadata, Key(StatusField)) == Some(StatusJson(db.events[id].status))
  }

  /** A client's own entry is about no anomaly or an existing one. */
  ghost predicate Known(db: Db, d: Draft) {
    forall id :: Tagged(Logged(d), id) ==> id in db.events
  }

  /** What an accepted entry of a client's own adds to each history. */
  lemma DirectHistory(c: Crypto, db: Db, d: Draft, s: Stamp, id: Id)
    requires Append(c, db.log, d, s).ok
    ensures var n := ToHistory(NewEntry(c, db.log, d, s));
            n.previousStatus == Get(Logged(d).metadata, Key(PreviousStatus)) && n.newStatus == Get(Logged(d).metadata, Key(StatusField)) &&
            History(Append(c, db.log, d, s).log.rows, id)
              == if Tagged(Logged(d), id) then History(db.log.rows, id) + [n] else History(db.log.rows, id)
  {
    hide Key;
    var n := NewEntry(c, db.log, d, s);
    assert n.content == Logged(d).(occurredAt := s.now);
    HistoryStep(db.log.rows, n, id);
  }

  /** A client's own entry leaves history and rows in agreement if and only if it is benign. */
  lemma DirectKeepsRows(c: Crypto, db: Db, d: Draft, s: Stamp)
    requires RowsAgree(db) && Append(c, db.log, d, s).ok
    ensures RowsAgree(db.(log := Append(c, db.log, d, s).log)) <==> Benign(db, d)
  {
    hide Agrees;
    hide Key;
    hide Append;
    hide Logged;
    hide History;
    hide Tagged;
    hide ToHistory;
    forall q | q in db.events
      ensures Agrees(History(Append(c, db.log, d, s).log.rows, q), db.events[q].status) <==>
              (Tagged(Logged(d), q) ==>
                Get(Logged(d).metadata, Key(PreviousStatus)) == Some(StatusJson(db.events[q].status)) &&
                Get(Logged(d).metadata, Key(StatusField)) == Some(StatusJson(db.events[q].status)))
    {
      DirectHistory(c, db, d, s, q);
      ForgedAgrees(History(db.log.rows, q), ToHistory(NewEntry(c, db.log, d, s)), db.events[q].status);
    }
  }

  /** It brings in no anomaly without a row if and only if the one it is about exists. */
  lemma DirectKeepsNoStrays(c: Crypto, db: Db, d: Draft, s: Stamp)
    requires NoStrays(db) && Append(c, db.log, d, s).ok
    ensures NoStrays(db.(log := Append(c, db.log, d, s).log)) <==> Known(db, d)
  {
    hide Append;
    hide Logged;
    hide History;
    hide Tagged;
    hide ToHistory;
    forall q ensures q !in db.events ==> (History(Append(c, db.log, d, s).log.rows, q) == [] <==> !Tagged(Logged(d), q)) {
      DirectHistory(c, db, d, s, q);
    }
  }

  lemma ForgedAgrees(h: seq<HistoryEntry>, n: HistoryEntry, status: Status)
    requires Agrees(h, status)
    ensures Agrees(h + [n], status) <==> n.previousStatus == Some(StatusJson(status)) && n.newStatus == Some(StatusJson(status))
  {
    assert (h + [n])[|h|] == n && (h + [n])[|h|-1] == h[|h|-1];
  }

  /**
   A client posts the entry the service would write on resolving an open anomaly, without resolving it. Whatever the
   keys and hashes, once it is accepted the rebuilt history ends at a status the row does not have.
   */
  lemma ForgedResolution(c: Crypto, db: Db, id: Id, s: Stamp)
    requires RowsAgree(db) && id in db.events && db.events[id].status == Open
    requires Append(c, db.log, ForgedDraft(id, db.events[id]), s).ok
    ensures !Agrees(History(Append(c, db.log, ForgedDraft(id, db.events[id]), s).log.rows, id), Open)
  {
    hide Agrees;
    hide AuditDraft;
    hide Append;
    hide History;
    var d := ForgedDraft(id, db.events[id]);
    var row := db.events[id].(status := Resolved);
    var n := NewEntry(c, db.log, d, s);
    LoggedEntry(c, db.log, id, row, Some(Open), None, Py("ANOMALY_STATUS_UPDATED"),
                Py("Anomaly status updated: ") + Py(StatusValue(Open)) + Py(" -> ") + Py(StatusValue(row.status)), s);
    AppendAccepted(c, db.log, d, s);
    HistoryStep(db.log.rows, n, id);
    ForgedAgrees(History(db.log.rows, id), ToHistory(n), Open);
    assert Py("resolved")[0] != Py("open")[0];
  }

  function ForgedDraft(id: Id, e: Event): Draft {
    UpdatedDraft(id, e.(status := Resolved), Open, None)
  }

  lemma AppendAccepted(c: Crypto, log: Log, d: Draft, s: Stamp)
    requires Append(c, log, d, s).ok
    ensures Append(c, log, d, s).log.rows == log.rows + [NewEntry(c, log, d, s)]
  {}

  /** The smallest such run: an anomaly is created in an empty database, and the forged entry is accepted. */
  lemma ForgedRun() returns (c: Crypto, id: Id, created: Input<Command>, forged: Input<Command>)
    ensures SignsOwn(c) && created.Serve? && created.command.CreateCmd? && forged.Post?
    ensures var db := Next(c, Db(map[], Log([], 1)), created);
            RowsAgree(db) && NoStrays(db) && id in db.events &&
            Append(c, db.log, forged.d, forged.s).ok && !RowsAgree(Next(c, db, forged))
  {
    hide RowsAgree;
    hide UpdatedDraft;
    hide CreatedDraft;
    hide Append;
    hide ToyCrypto;
    c := ToyCrypto();
    id := Py("a");
    var e := Event(None, id, JInt(1), id, Open, id, None, None, map[], None);
    var s, s' := Stamp(Clock.RawInstant(2024, 1, 1, 0, 0, 0, 0), Py("x")), Stamp(Clock.RawInstant(2024, 1, 2, 0, 0, 0, 0), Py("y"));
    assert s.id[0] != s'.id[0];
    created := Serve(CreateCmd(id, e, None, s));
    var empty := Db(map[], Log([], 1));
    forged := Post(ForgedDraft(id, e), s');
    EmptyAgrees(empty);
    CreateKeepsRows(c, empty, id, e, None, s);
    TwoAppends(CreatedDraft(id, e, None), s, forged.d, s');
    assert e.(status := Open, resolvedAt := None) == e;
    var db := Next(c, empty, created);
    assert db.events == map[id := e];
    ForgedResolution(c, db, id, s');
    Disagreement(Next(c, db, forged), id);
  }

  lemma EmptyAgrees(db: Db)
    requires db.events == map[] && db.log.rows == []
    ensures RowsAgree(db) && NoStrays(db)
  {}

  lemma Disagreement(db: Db, id: Id)
    requires id in db.events && !Agrees(History(db.log.rows, id), db.events[id].status)
    ensures !RowsAgree(db)
  {}

  // ---------------------------------------------------------------- bulk updates

  /** The rows after a bulk update, whatever order the database returned them in. */
  ghost function BulkRows(events: map<Id, Event>, ids: seq<Id>, status: Status, now: int): map<Id, Event> {
    map id | id in events :: if id in ids then WithStatus(events[id], status, now) else events[id]
  }

  ghost predicate Distinct(ids: seq<Id>) {
    forall i, j :: 0 <= i < j < |ids| ==> ids[i] != ids[j]
  }

  lemma LastApart(ids: seq<Id>)
    requires ids != [] && Distinct(ids)
    ensures Distinct(ids[..|ids|-1]) && ids[|ids|-1] !in ids[..|ids|-1]
    ensures forall x :: x in ids <==> x in ids[..|ids|-1] || x == ids[|ids|-1]
  {
    assert ids == ids[..|ids|-1] + [ids[|ids|-1]];
  }

  /** A committed bulk update changes exactly the selected rows, whatever order they came in. */
  lemma {:induction false} BulkRowsEffect(c: Crypto, db: Db, ids: seq<Id>, status: Status, actor: Option<Str>, now: int, stamps: seq<Stamp>)
    requires |stamps| == |ids| && (forall x :: x in ids ==> x in db.events) && Distinct(ids)
    requires UpdateEach(c, db, ids, status, actor, now, stamps).result.None?
    ensures UpdateEach(c, db, ids, status, actor, now, stamps).db.events == BulkRows(db.events, ids, status, now)
    decreases |ids|
  {
    hide Update;
    hide WithStatus;
    if ids != [] {
      var n := |ids| - 1;
      LastApart(ids);
      BulkRowsEffect(c, db, ids[..n], status, actor, now, stamps[..n]);
      UpdateRow(c, UpdateEach(c, db, ids[..n], status, actor, now, stamps[..n]).db, ids[n], status, actor, now, stamps[n]);
      assert BulkRows(db.events, ids, status, now)
          == BulkRows(db.events, ids[..n], status, now)[ids[n] := WithStatus(db.events[ids[n]], status, now)];
    } else {
      assert db.events == BulkRows(db.events, ids, status, now);
    }
  }

  /** A committed bulk update adds one entry to each selected history and none to any other. */
  lemma {:induction false} BulkHistoryEffect(
    c: Crypto, db: Db, ids: seq<Id>, status: Status, actor: Option<Str>, now: int, stamps: seq<Stamp>, q: Id)
    requires |stamps| == |ids| && (forall x :: x in ids ==> x in db.events) && Distinct(ids)
    requires UpdateEach(c, db, ids, status, actor, now, stamps).result.None?
    ensures var after := History(UpdateEach(c, db, ids, status, actor, now, stamps).db.log.rows, q);
            if q in ids then OneMore(History(db.log.rows, q), after, db.events[q].status, status)
            else after == History(db.log.rows, q)
    decreases |ids|
  {
    hide Update;
    hide History;
    if ids != [] {
      var n := |ids| - 1;
      LastApart(ids);
      BulkHistoryEffect(c, db, ids[..n], status, actor, now, stamps[..n], q);
      BulkRowsEffect(c, db, ids[..n], status, actor, now, stamps[..n]);
      var h := UpdateHistory(c, UpdateEach(c, db, ids[..n], status, actor, now, stamps[..n]).db, ids[n], status, actor, now, stamps[n]);
    }
  }

  ghost predicate OneMore(before: seq<HistoryEntry>, after: seq<HistoryEntry>, previous: Status, next: Status) {
    |after| == |before| + 1 && before <= after &&
    after[|before|].previousStatus == Some(StatusJson(previous)) && after[|before|].newStatus == Some(StatusJson(next))
  }

  lemma UpdateRow(c: Crypto, db: Db, id: Id, status: Status, actor: Option<Str>, now: int, s: Stamp)
    requires id in db.events && Update(c, db, id, status, actor, now, s).result.None?
    ensures Update(c, db, id, status, actor, now, s).db.events == db.events[id := WithStatus(db.events[id], status, now)]
  {
    hide Append;
  }

  lemma {:induction false} BulkKeepsRows(c: Crypto, db: Db, ids: seq<Id>, status: Status, actor: Option<Str>, now: int, stamps: seq<Stamp>)
    requires |stamps| == |ids| && RowsAgree(db)
    ensures RowsAgree(UpdateEach(c, db, ids, status, actor, now, stamps).db)
    ensures NoStrays(db) ==> NoStrays(UpdateEach(c, db, ids, status, actor, now, stamps).db)
    decreases |ids|
  {
    hide Update;
    hide RowsAgree;
    hide NoStrays;
    if ids != [] {
      var n := |ids| - 1;
      BulkKeepsRows(c, db, ids[..n], status, actor, now, stamps[..n]);
      UpdateKeepsRows(c, UpdateEach(c, db, ids[..n], status, actor, now, stamps[..n]).db, ids[n], status, actor, now, stamps[n]);
    }
  }

  // ---------------------------------------------------------------- runs

  datatype Command =
    | CreateCmd(id: Id, e: Event, actor: Option<Str>, s: Stamp)
    | UpdateCmd(id: Id, status: Status, actor: Option<Str>, now: int, s: Stamp)
    | BulkCmd(ids: seq<Id>, status: Status, actor: Option<Str>, now: int, stamps: seq<Stamp>)

  /** One transaction; a bulk update that fails midway is rolled back as a whole. */
  ghost function Next(c: Crypto, db: Db, i: Input<Command>): Db {
    match i
    case Serve(CreateCmd(id, e, actor, s)) => Create(c, db, id, e, actor, s).db
    case Serve(UpdateCmd(id, status, actor, now, s)) => Update(c, db, id, status, actor, now, s).db
    case Serve(BulkCmd(ids, status, actor, now, stamps)) =>
      if |stamps| != |ids| then db
      else
        var t := UpdateEach(c, db, ids, status, actor, now, stamps);
        if t.result.None? then t.db else RolledBack(db, t.db.log)
    case Post(d, s) => db.(log := Append(c, db.log, d, s).log)
  }

  /** A client's own entry is refused or benign, and a committed creation finds no history under its id. */
  ghost predicate Harmless(c: Crypto, db: Db, i: Input<Command>) {
    match i
    case Serve(CreateCmd(id, e, actor, s)) => Create(c, db, id, e, actor, s).result.None? ==> History(db.log.rows, id) == []
    case Post(d, s) => Append(c, db.log, d, s).ok ==> Benign(db, d)
    case _ => true
  }

  /** A client's own entry is refused or about an existing anomaly. */
  ghost predicate Tidy(c: Crypto, db: Db, i: Input<Command>) {
    i.Post? && Append(c, db.log, i.d, i.s).ok ==> Known(db, i.d)
  }

  lemma NextKeepsRows(c: Crypto, db: Db, i: Input<Command>)
    requires RowsAgree(db)
    ensures RowsAgree(Next(c, db, i)) <==> Harmless(c, db, i)
  {
    hide Benign;
    hide Agrees;
    hide CreatedDraft;
    hide UpdatedDraft;
    hide Update;
    hide Create;
    hide UpdateEach;
    hide Append;
    match i
    case Serve(CreateCmd(id, e, actor, s)) => CreateKeepsRows(c, db, id, e, actor, s);
    case Serve(UpdateCmd(id, status, actor, now, s)) => UpdateKeepsRows(c, db, id, status, actor, now, s);
    case Serve(BulkCmd(ids, status, actor, now, stamps)) =>
      if |stamps| == |ids| { BulkKeepsRows(c, db, ids, status, actor, now, stamps); }
    case Post(d, s) =>
      AppendRefused(c, db.log, d, s);
      if Append(c, db.log, d, s).ok { DirectKeepsRows(c, db, d, s); }
  }

  lemma NextKeepsNoStrays(c: Crypto, db: Db, i: Input<Command>)
    requires RowsAgree(db) && NoStrays(db)
    ensures NoStrays(Next(c, db, i)) <==> Tidy(c, db, i)
  {
    hide Known;
    hide Agrees;
    hide CreatedDraft;
    hide UpdatedDraft;
    hide Update;
    hide Create;
    hide UpdateEach;
    hide Append;
    match i
    case Serve(CreateCmd(id, e, actor, s)) => CreateKeepsRows(c, db, id, e, actor, s);
    case Serve(UpdateCmd(id, status, actor, now, s)) => UpdateKeepsRows(c, db, id, status, actor, now, s);
    case Serve(BulkCmd(ids, status, actor, now, stamps)) =>
      if |stamps| == |ids| { BulkKeepsRows(c, db, ids, status, actor, now, stamps); }
    case Post(d, s) =>
      AppendRefused(c, db.log, d, s);
      if Append(c, db.log, d, s).ok { DirectKeepsNoStrays(c, db, d, s); }
  }

  ghost predicate AlwaysAgrees(c: Crypto, db: Db, inputs: seq<Input<Command>>)
    decreases |inputs|
  {
    RowsAgree(db) && (inputs != [] ==> AlwaysAgrees(c, Next(c, db, inputs[0]), inputs[1..]))
  }

  ghost predicate AllHarmless(c: Crypto, db: Db, inputs: seq<Input<Command>>)
    decreases |inputs|
  {
    inputs != [] ==> Harmless(c, db, inputs[0]) && AllHarmless(c, Next(c, db, inputs[0]), inputs[1..])
  }

  /**
   Over every run, rows and rebuilt histories agree at every point if and only if clients' own entries about existing
   anomalies are benign and no anomaly is created under an id the log already speaks of.
   */
  lemma {:induction false} EventSourcing(c: Crypto, db: Db, inputs: seq<Input<Command>>)
    requires RowsAgree(db)
    ensures AlwaysAgrees(c, db, inputs) <==> AllHarmless(c, db, inputs)
    decreases |inputs|
  {
    hide RowsAgree;
    hide Harmless;
    hide Next;
    if inputs != [] {
      NextKeepsRows(c, db, inputs[0]);
      if RowsAgree(Next(c, db, inputs[0])) {
        EventSourcing(c, Next(c, db, inputs[0]), inputs[1..]);
      }
    }
  }

  /** The service on its own, from an empty database: rows and histories agree at every point, without condition. */
  lemma {:induction false} ServiceAlone(c: Crypto, db: Db, inputs: seq<Input<Command>>)
    requires RowsAgree(db) && NoStrays(db)
    requires forall i :: 0 <= i < |inputs| ==> inputs[i].Serve?
    ensures AlwaysAgrees(c, db, inputs)
    decreases |inputs|
  {
    hide RowsAgree;
    hide NoStrays;
    hide Harmless;
    hide Next;
    if inputs != [] {
      ServedHarmless(c, db, inputs[0].command);
      NextKeepsRows(c, db, inputs[0]);
      NextKeepsNoStrays(c, db, inputs[0]);
      ServiceAlone(c, Next(c, db, inputs[0]), inputs[1..]);
    }
  }

  /** Where the log speaks of existing anomalies only, no service call is ever harmful. */
  lemma ServedHarmless(c: Crypto, db: Db, cmd: Command)
    requires NoStrays(db)
    ensures Harmless(c, db, Serve(cmd))
  {
    hide Append;
    hide CreatedDraft;
  }

  // ---------------------------------------------------------------- resolved_at

  /** RESOLVED rows carry a resolution time, OPEN rows none. */
  ghost predicate TimesOk(db: Db) {
    forall id :: id in db.events ==>
      (db.events[id].status == Resolved ==> db.events[id].resolvedAt.Some?) &&
      (db.events[id].status == Open ==> db.events[id].resolvedAt.None?)
  }

  lemma {:induction false} EachKeepsTimes(
    c: Crypto, db: Db, ids: seq<Id>, status: Status, actor: Option<Str>, now: int, stamps: seq<Stamp>)
    requires |stamps| == |ids| && TimesOk(db)
    ensures TimesOk(UpdateEach(c, db, ids, status, actor, now, stamps).db)
    decreases |ids|
  {
    hide Append;
    hide UpdatedDraft;
    if ids != [] {
      EachKeepsTimes(c, db, ids[..|ids|-1], status, actor, now, stamps[..|ids|-1]);
    }
  }

  /** Every command keeps resolution times consistent with statuses. */
  lemma NextKeepsTimes(c: Crypto, db: Db, i: Input<Command>)
    requires TimesOk(db)
    ensures TimesOk(Next(c, db, i))
  {
    hide Append;
    hide UpdatedDraft;
    hide CreatedDraft;
    match i
    case Serve(BulkCmd(ids, status, actor, now, stamps)) =>
      if |stamps| == |ids| { EachKeepsTimes(c, db, ids, status, actor, now, stamps); }
    case _ =>
  }

  ghost function Run(c: Crypto, db: Db, inputs: seq<Input<Command>>): Db
    decreases |inputs|
  {
    if inputs == [] then db else Run(c, Next(c, db, inputs[0]), inputs[1..])
  }

  /** Over every run, RESOLVED rows carry a resolution time and OPEN rows none. */
  lemma {:induction false} RunKeepsTimes(c: Crypto, db: Db, inputs: seq<Input<Command>>)
    requires TimesOk(db)
    ensures TimesOk(Run(c, db, inputs))
    decreases |inputs|
  {
    hide Next;
    hide TimesOk;
    if inputs != [] {
      NextKeepsTimes(c, db, inputs[0]);
      RunKeepsTimes(c, Next(c, db, inputs[0]), inputs[1..]);
    }
  }
}
