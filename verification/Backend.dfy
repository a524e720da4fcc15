/**
 The services over the one audit log they share: anomalies, parameters and keys are rebuilt from the log whatever the
 other services write.
 */
module Backend {
  import opened Prelude
  import opened PyText
  import opened Audit
  import opened Chain
  import Anomaly
  import AnomalyTheorems
  import ConfigParams
  import ConfigParamTheorems
  import Hsm
  import HsmInvariant
  import HsmAudit
  import HsmAuditTheorems

  datatype World = World(
    events: map<Str, Anomaly.Event>, params: map<Str, ConfigParams.Parameter>, changes: seq<ConfigParams.Change>,
    store: Hsm.Store, log: Log)

  function Anomalies(w: World): Anomaly.Db { Anomaly.Db(w.events, w.log) }

  function Parameters(w: World): ConfigParams.Db { ConfigParams.Db(w.params, w.changes, w.log) }

  function Keys(w: World): HsmAudit.Db { HsmAudit.Db(w.store, w.log) }

  datatype Service =
    | OnAnomalies(a: AnomalyTheorems.Command)
    | OnParameters(p: ConfigParamTheorems.Command)
    | OnKeys(k: HsmAudit.Call)
    | OtherService(t: Transaction)

  ghost function Next(c: Crypto, w: World, i: Input<Service>): World {
    match i
    case Serve(OnAnomalies(a)) =>
      var db := AnomalyTheorems.Next(c, Anomalies(w), Serve(a));
      w.(events := db.events, log := db.log)
    case Serve(OnParameters(p)) =>
      var db := ConfigParamTheorems.Next(c, Parameters(w), Serve(p));
      w.(params := db.params, changes := db.changes, log := db.log)
    case Serve(OnKeys(k)) =>
      var db := HsmAudit.Transact(c, Keys(w), Serve(k));
      w.(store := db.store, log := db.log)
    case Serve(OtherService(t)) => w.(log := RunTransaction(c, w.log, t))
    case Post(d, s) => w.(log := Append(c, w.log, d, s).log)
  }

  ghost function Run(c: Crypto, w: World, inputs: seq<Input<Service>>): World
    decreases |inputs|
  {
    if inputs == [] then w else Run(c, Next(c, w, inputs[0]), inputs[1..])
  }

  // ---------------------------------------------------------------- who writes what

  /** An entry of the kind the history of anomalies is rebuilt from. */
  predicate ForAnomalies(e: Content) { e.eventType == AnomalyDetected }

  /** An entry of the kind parameter values are replayed from. */
  predicate ForParameters(e: Content) { e.eventType == ConfigChange && e.eventSubtype == ConfigParams.PARAMETER_UPDATED }

  /** An entry of the kind key statuses are folded from. */
  ghost predicate ForKeys(e: Content) { e.eventType == KeyOperation && HsmAudit.ReadSubtype(e.eventSubtype).Some? }

  /** What attestation and the configuration-document service write: none of the three kinds. */
  ghost predicate Foreign(d: Draft) {
    !ForAnomalies(Logged(d)) && !ForParameters(Logged(d)) && !ForKeys(Logged(d))
  }

  /** The other services write foreign entries only. */
  ghost predicate FromServices(i: Input<Service>) {
    i.Serve? && i.command.OtherService? ==>
      var rs := i.command.t.requests;
      forall k :: 0 <= k < |rs| ==> Foreign(rs[k].draft)
  }

  /** The log grew by entries outside a kind. */
  ghost predicate GrowsOutside(before: seq<Entry>, after: seq<Entry>, kind: Content -> bool) {
    before <= after && forall i :: |before| <= i < |after| ==> !kind(after[i].content)
  }

  lemma GrowsTransitive(x: seq<Entry>, y: seq<Entry>, z: seq<Entry>, kind: Content -> bool)
    requires GrowsOutside(x, y, kind) && GrowsOutside(y, z, kind)
    ensures GrowsOutside(x, z, kind)
  {
    forall i | |x| <= i < |z| ensures !kind(z[i].content) {
      if i < |y| { assert z[i] == y[i]; }
    }
  }

  /** No entry is of both kinds. */
  ghost predicate Apart(own: Content -> bool, kind: Content -> bool) {
    forall e :: own(e) ==> !kind(e)
  }

  lemma KindsApart()
    ensures Apart(ForAnomalies, ForParameters) && Apart(ForAnomalies, ForKeys) && Apart(ForParameters, ForAnomalies)
    ensures Apart(ForParameters, ForKeys) && Apart(ForKeys, ForAnomalies) && Apart(ForKeys, ForParameters)
  {}

  lemma AppendGrows(c: Crypto, log: Log, d: Draft, s: Stamp, kind: Content -> bool)
    requires !kind(ContentOf(d, s.now))
    ensures GrowsOutside(log.rows, Append(c, log, d, s).log.rows, kind)
  {}

  lemma {:induction false} HistoryUnaffected(before: seq<Entry>, after: seq<Entry>, id: Str)
    requires GrowsOutside(before, after, ForAnomalies)
    ensures Anomaly.History(after, id) == Anomaly.History(before, id)
    decreases |after|
  {
    if |after| == |before| {
      assert after == before;
    } else {
      var n := |after| - 1;
      assert GrowsOutside(before, after[..n], ForAnomalies);
      HistoryUnaffected(before, after[..n], id);
      assert !ForAnomalies(after[n].content);
    }
  }

  lemma {:induction false} UpdatesUnaffected(before: seq<Entry>, after: seq<Entry>, key: Str)
    requires GrowsOutside(before, after, ForParameters)
    ensures ConfigParamTheorems.UpdatesOf(after, key) == ConfigParamTheorems.UpdatesOf(before, key)
    decreases |after|
  {
    if |after| == |before| {
      assert after == before;
    } else {
      var n := |after| - 1;
      assert GrowsOutside(before, after[..n], ForParameters);
      UpdatesUnaffected(before, after[..n], key);
      assert !ForParameters(after[n].content);
    }
  }

  lemma {:induction false} ToldUnaffected(before: seq<Entry>, after: seq<Entry>)
    requires GrowsOutside(before, after, ForKeys)
    ensures HsmAudit.ToldBy(after) == HsmAudit.ToldBy(before)
    decreases |after|
  {
    if |after| == |before| {
      assert after == before;
    } else {
      var n := |after| - 1;
      assert GrowsOutside(before, after[..n], ForKeys);
      ToldUnaffected(before, after[..n]);
      assert !ForKeys(after[n].content);
    }
  }

  // ---------------------------------------------------------------- each service keeps to its own kind

  lemma {:induction false} BulkGrows(
    c: Crypto, db: Anomaly.Db, ids: seq<Str>, status: Anomaly.Status, actor: Option<Str>, now: int, stamps: seq<Stamp>,
    kind: Content -> bool)
    requires |stamps| == |ids| && Apart(ForAnomalies, kind)
    ensures GrowsOutside(db.log.rows, Anomaly.UpdateEach(c, db, ids, status, actor, now, stamps).db.log.rows, kind)
    decreases |ids|
  {
    hide Anomaly.Update;
    hide GrowsOutside;
    if ids == [] {
      GrowsReflexive(db.log.rows, kind);
    } else {
      var n := |ids| - 1;
      var first := Anomaly.UpdateEach(c, db, ids[..n], status, actor, now, stamps[..n]);
      BulkGrows(c, db, ids[..n], status, actor, now, stamps[..n], kind);
      UpdateGrows(c, first.db, ids[n], status, actor, now, stamps[n], kind);
      if first.result.None? {
        var second := Anomaly.Update(c, first.db, ids[n], status, actor, now, stamps[n]);
        GrowsTransitive(db.log.rows, first.db.log.rows, second.db.log.rows, kind);
      }
    }
  }

  lemma GrowsReflexive(rows: seq<Entry>, kind: Content -> bool)
    ensures GrowsOutside(rows, rows, kind)
  {}

  lemma UpdateGrows(
    c: Crypto, db: Anomaly.Db, id: Str, status: Anomaly.Status, actor: Option<Str>, now: int, s: Stamp, kind: Content -> bool)
    requires Apart(ForAnomalies, kind)
    ensures GrowsOutside(db.log.rows, Anomaly.Update(c, db, id, status, actor, now, s).db.log.rows, kind)
  {
    hide Append;
    hide Anomaly.AuditMetadata;
    if id in db.events {
      var row := Anomaly.WithStatus(db.events[id], status, now);
      var d := Anomaly.UpdatedDraft(id, row, db.events[id].status, actor);
      assert ForAnomalies(ContentOf(d, s.now));
      AppendGrows(c, db.log, d, s, kind);
    }
  }

  lemma CreateGrows(c: Crypto, db: Anomaly.Db, id: Str, e: Anomaly.Event, actor: Option<Str>, s: Stamp, kind: Content -> bool)
    requires Apart(ForAnomalies, kind)
    ensures GrowsOutside(db.log.rows, Anomaly.Create(c, db, id, e, actor, s).db.log.rows, kind)
  {
    hide Append;
    hide Anomaly.AuditMetadata;
    var d := Anomaly.CreatedDraft(id, e.(status := Anomaly.Open, resolvedAt := None), actor);
    assert ForAnomalies(ContentOf(d, s.now));
    AppendGrows(c, db.log, d, s, kind);
  }

  /** The anomaly service writes nothing that a parameter or a key is rebuilt from. */
  lemma AnomaliesGrow(c: Crypto, db: Anomaly.Db, a: AnomalyTheorems.Command, kind: Content -> bool)
    requires Apart(ForAnomalies, kind)
    ensures GrowsOutside(db.log.rows, AnomalyTheorems.Next(c, db, Serve(a)).log.rows, kind)
  {
    hide Anomaly.Update;
    hide Anomaly.Create;
    hide Anomaly.UpdateEach;
    match a
    case CreateCmd(id, e, actor, s) => CreateGrows(c, db, id, e, actor, s, kind);
    case UpdateCmd(id, status, actor, now, s) => UpdateGrows(c, db, id, status, actor, now, s, kind);
    case BulkCmd(ids, status, actor, now, stamps) =>
      if |stamps| == |ids| { BulkGrows(c, db, ids, status, actor, now, stamps, kind); }
  }

  lemma {:induction false} ApplyGrows(
    c: Crypto, db: ConfigParams.Db, w: ConfigParams.Who, turns: seq<ConfigParams.Turn>, kind: Content -> bool)
    requires Apart(ForParameters, kind)
    ensures GrowsOutside(db.log.rows, ConfigParams.ApplyAll(c, db, w, turns).db.log.rows, kind)
    decreases |turns|
  {
    hide ConfigParams.ApplyOne;
    hide GrowsOutside;
    if turns == [] {
      GrowsReflexive(db.log.rows, kind);
    } else {
      var n := |turns| - 1;
      var first := ConfigParams.ApplyAll(c, db, w, turns[..n]);
      ApplyGrows(c, db, w, turns[..n], kind);
      TurnGrows(c, first.db, w, turns[n], kind);
      GrowsTransitive(db.log.rows, first.db.log.rows, ConfigParams.ApplyOne(c, first.db, w, turns[n]).db.log.rows, kind);
    }
  }

  lemma TurnGrows(c: Crypto, db: ConfigParams.Db, w: ConfigParams.Who, t: ConfigParams.Turn, kind: Content -> bool)
    requires Apart(ForParameters, kind)
    ensures GrowsOutside(db.log.rows, ConfigParams.ApplyOne(c, db, w, t).db.log.rows, kind)
  {
    hide Append;
    hide ConfigParams.UpdateMetadata;
    if ConfigParams.Applicable(db, t) {
      var p := db.params[t.id];
      var d := ConfigParams.UpdateDraft(p, p.active, p.pending.value, w.changedBy, w.text);
      assert ForParameters(ContentOf(d, t.stamp.now));
      AppendGrows(c, db.log, d, t.stamp, kind);
    }
  }

  /** Staging, reverting and applying write nothing that an anomaly or a key is rebuilt from. */
  lemma ParametersGrow(c: Crypto, db: ConfigParams.Db, p: ConfigParamTheorems.Command, kind: Content -> bool)
    requires Apart(ForParameters, kind)
    ensures GrowsOutside(db.log.rows, ConfigParamTheorems.Next(c, db, Serve(p)).log.rows, kind)
  {
    hide ConfigParams.ApplyAll;
    hide ConfigParams.ValidValue;
    match p
    case StageCmd(id, value, changedBy) =>
    case RevertCmd(id) =>
    case ApplyCmd(w, turns, fails) => ApplyGrows(c, db, w, turns, kind);
  }

  /** The key service writes nothing that an anomaly or a parameter is rebuilt from. */
  lemma KeysGrow(c: Crypto, db: HsmAudit.Db, k: HsmAudit.Call, kind: Content -> bool)
    requires Apart(ForKeys, kind)
    ensures GrowsOutside(db.log.rows, HsmAudit.Transact(c, db, Serve(k)).log.rows, kind)
  {
    hide Append;
    hide Hsm.Step;
    hide HsmAudit.EntryMetadata;
    hide HsmAudit.Description;
    hide HsmAudit.SubtypeName;
    var d := HsmAudit.EntryDraft(db.store, k.cmd, k.actor);
    assert HsmAudit.IsSubtype(d.eventSubtype, HsmAudit.SubtypeOf(k.cmd));
    assert ForKeys(ContentOf(d, k.s.now));
    AppendGrows(c, db.log, d, k.s, kind);
  }

  lemma {:induction false} AppendAllGrows(c: Crypto, log: Log, rs: seq<Request>, kind: Content -> bool)
    requires forall i :: 0 <= i < |rs| ==> !kind(ContentOf(rs[i].draft, rs[i].stamp.now))
    ensures GrowsOutside(log.rows, AppendAll(c, log, rs).log.rows, kind)
    decreases |rs|
  {
    hide Append;
    hide GrowsOutside;
    if rs == [] {
      GrowsReflexive(log.rows, kind);
    } else {
      var a := Append(c, log, rs[0].draft, rs[0].stamp);
      AppendGrows(c, log, rs[0].draft, rs[0].stamp, kind);
      if a.ok {
        AppendAllGrows(c, a.log, rs[1..], kind);
        GrowsTransitive(log.rows, a.log.rows, AppendAll(c, a.log, rs[1..]).log.rows, kind);
      }
    }
  }

  lemma OthersGrow(c: Crypto, log: Log, t: Transaction)
    requires FromServices(Serve(OtherService(t)))
    ensures GrowsOutside(log.rows, RunTransaction(c, log, t).rows, ForAnomalies)
    ensures GrowsOutside(log.rows, RunTransaction(c, log, t).rows, ForParameters)
    ensures GrowsOutside(log.rows, RunTransaction(c, log, t).rows, ForKeys)
  {
    forall i | 0 <= i < |t.requests|
      ensures !ForAnomalies(ContentOf(t.requests[i].draft, t.requests[i].stamp.now)) &&
              !ForParameters(ContentOf(t.requests[i].draft, t.requests[i].stamp.now)) &&
              !ForKeys(ContentOf(t.requests[i].draft, t.requests[i].stamp.now))
    {
      assert Foreign(t.requests[i].draft);
    }
    AppendAllGrows(c, log, t.requests, ForAnomalies);
    AppendAllGrows(c, log, t.requests, ForParameters);
    AppendAllGrows(c, log, t.requests, ForKeys);
  }

  // ---------------------------------------------------------------- the joint invariant

  /** Every row is what the log says: histories chain to each anomaly's status, folds give each value and key status. */
  ghost predicate Rebuilt(w: World, initial: map<Str, Str>) {
    AnomalyTheorems.RowsAgree(Anomalies(w)) && ConfigParamTheorems.FoldOk(Parameters(w), initial) && HsmAudit.StatusesTold(Keys(w))
  }

  /** And the log is intact. */
  ghost predicate Sound(c: Crypto, w: World, initial: map<Str, Str>) {
    Honest(c, w.log) && Rebuilt(w, initial)
  }

  /** The services' own invariants, which no entry of a client's can touch. */
  ghost predicate WellBuilt(w: World) {
    ConfigParamTheorems.UniqueKeys(Parameters(w)) && HsmInvariant.Inv(w.store)
  }

  /** An entry contradicts no anomaly's status, no parameter's value and no key's status. */
  ghost predicate Consistent(w: World, d: Draft) {
    AnomalyTheorems.Benign(Anomalies(w), d) && ConfigParamTheorems.Neutral(Parameters(w), d) &&
    HsmAuditTheorems.Restates(w.store, HsmAudit.ToldBy(w.log.rows), HsmAudit.Noted(Logged(d)))
  }

  /**
   A client's own entry is refused or consistent, a committed creation of an anomaly finds no history under its id, and
   a committed completion of a ceremony finds the right predecessor in the log.
   */
  ghost predicate Harmless(c: Crypto, w: World, i: Input<Service>) {
    match i
    case Post(d, s) => Append(c, w.log, d, s).ok ==> Consistent(w, d)
    case Serve(OnAnomalies(a)) => AnomalyTheorems.Harmless(c, Anomalies(w), Serve(a))
    case Serve(OnKeys(k)) => HsmAuditTheorems.Harmless(c, Keys(w), Serve(k))
    case _ => true
  }

  lemma AgreementUnaffected(w: World, v: World)
    requires v.events == w.events && GrowsOutside(w.log.rows, v.log.rows, ForAnomalies)
    ensures AnomalyTheorems.RowsAgree(Anomalies(w)) ==> AnomalyTheorems.RowsAgree(Anomalies(v))
    ensures AnomalyTheorems.NoStrays(Anomalies(w)) ==> AnomalyTheorems.NoStrays(Anomalies(v))
  {
    hide AnomalyTheorems.Agrees;
    forall id ensures Anomaly.History(v.log.rows, id) == Anomaly.History(w.log.rows, id) {
      HistoryUnaffected(w.log.rows, v.log.rows, id);
    }
  }

  lemma ReplayUnaffected(w: World, v: World, initial: map<Str, Str>)
    requires v.params == w.params && GrowsOutside(w.log.rows, v.log.rows, ForParameters)
    requires ConfigParamTheorems.FoldOk(Parameters(w), initial)
    ensures ConfigParamTheorems.FoldOk(Parameters(v), initial)
  {
    hide ConfigParamTheorems.Replay;
    forall key ensures ConfigParamTheorems.UpdatesOf(v.log.rows, key) == ConfigParamTheorems.UpdatesOf(w.log.rows, key) {
      UpdatesUnaffected(w.log.rows, v.log.rows, key);
    }
  }

  // ---------------------------------------------------------------- honest chains

  lemma {:induction false} BulkHonest(
    c: Crypto, db: Anomaly.Db, ids: seq<Str>, status: Anomaly.Status, actor: Option<Str>, now: int, stamps: seq<Stamp>)
    requires SignsOwn(c) && Honest(c, db.log) && |stamps| == |ids|
    ensures Honest(c, Anomaly.UpdateEach(c, db, ids, status, actor, now, stamps).db.log)
    ensures db.log.nextSequence <= Anomaly.UpdateEach(c, db, ids, status, actor, now, stamps).db.log.nextSequence
    decreases |ids|
  {
    hide Anomaly.Update;
    hide Honest;
    if ids != [] {
      var n := |ids| - 1;
      BulkHonest(c, db, ids[..n], status, actor, now, stamps[..n]);
      UpdateHonest(c, Anomaly.UpdateEach(c, db, ids[..n], status, actor, now, stamps[..n]).db, ids[n], status, actor, now, stamps[n]);
    }
  }

  lemma Advanced(c: Crypto, log: Log, next: nat)
    requires Honest(c, log) && log.nextSequence <= next
    ensures Honest(c, Log(log.rows, next))
  {}

  lemma AppendCounts(c: Crypto, log: Log, d: Draft, s: Stamp)
    requires SignsOwn(c) && Honest(c, log)
    ensures Honest(c, Append(c, log, d, s).log) && log.nextSequence <= Append(c, log, d, s).log.nextSequence
    ensures Honest(c, Log(log.rows, Append(c, log, d, s).log.nextSequence))
  {
    AppendHonest(c, log, d, s);
  }

  lemma UpdateHonest(c: Crypto, db: Anomaly.Db, id: Str, status: Anomaly.Status, actor: Option<Str>, now: int, s: Stamp)
    requires SignsOwn(c) && Honest(c, db.log)
    ensures Honest(c, Anomaly.Update(c, db, id, status, actor, now, s).db.log)
    ensures db.log.nextSequence <= Anomaly.Update(c, db, id, status, actor, now, s).db.log.nextSequence
  {
    hide Append;
    hide Honest;
    hide Anomaly.UpdatedDraft;
    if id in db.events {
      AppendCounts(c, db.log, Anomaly.UpdatedDraft(id, Anomaly.WithStatus(db.events[id], status, now), db.events[id].status, actor), s);
    }
  }

  lemma AnomaliesHonest(c: Crypto, db: Anomaly.Db, a: AnomalyTheorems.Command)
    requires SignsOwn(c) && Honest(c, db.log)
    ensures Honest(c, AnomalyTheorems.Next(c, db, Serve(a)).log)
  {
    hide Append;
    hide Honest;
    hide Anomaly.CreatedDraft;
    hide Anomaly.Update;
    hide Anomaly.UpdateEach;
    match a
    case CreateCmd(id, e, actor, s) =>
      AppendCounts(c, db.log, Anomaly.CreatedDraft(id, e.(status := Anomaly.Open, resolvedAt := None), actor), s);
    case UpdateCmd(id, status, actor, now, s) => UpdateHonest(c, db, id, status, actor, now, s);
    case BulkCmd(ids, status, actor, now, stamps) =>
      if |stamps| == |ids| {
        BulkHonest(c, db, ids, status, actor, now, stamps);
        Advanced(c, db.log, Anomaly.UpdateEach(c, db, ids, status, actor, now, stamps).db.log.nextSequence);
      }
  }

  lemma {:induction false} ApplyHonest(c: Crypto, db: ConfigParams.Db, w: ConfigParams.Who, turns: seq<ConfigParams.Turn>)
    requires SignsOwn(c) && Honest(c, db.log)
    ensures Honest(c, ConfigParams.ApplyAll(c, db, w, turns).db.log)
    ensures db.log.nextSequence <= ConfigParams.ApplyAll(c, db, w, turns).db.log.nextSequence
    decreases |turns|
  {
    hide Append;
    hide Honest;
    hide ConfigParams.UpdateDraft;
    if turns != [] {
      var n := |turns| - 1;
      ApplyHonest(c, db, w, turns[..n]);
      var u, t := ConfigParams.ApplyAll(c, db, w, turns[..n]).db, turns[n];
      if ConfigParams.Applicable(u, t) {
        var p := u.params[t.id];
        AppendCounts(c, u.log, ConfigParams.UpdateDraft(p, p.active, p.pending.value, w.changedBy, w.text), t.stamp);
      }
    }
  }

  lemma ParametersHonest(c: Crypto, db: ConfigParams.Db, p: ConfigParamTheorems.Command)
    requires SignsOwn(c) && Honest(c, db.log)
    ensures Honest(c, ConfigParamTheorems.Next(c, db, Serve(p)).log)
  {
    hide Append;
    hide Honest;
    hide ConfigParams.ApplyAll;
    hide ConfigParams.ValidValue;
    match p
    case StageCmd(id, value, changedBy) =>
    case RevertCmd(id) =>
    case ApplyCmd(w, turns, fails) =>
      ApplyHonest(c, db, w, turns);
      Advanced(c, db.log, ConfigParams.ApplyAll(c, db, w, turns).db.log.nextSequence);
  }

  lemma KeysHonest(c: Crypto, db: HsmAudit.Db, k: HsmAudit.Call)
    requires SignsOwn(c) && Honest(c, db.log)
    ensures Honest(c, HsmAudit.Transact(c, db, Serve(k)).log)
  {
    hide Append;
    hide Honest;
    hide Hsm.Step;
    hide HsmAudit.EntryDraft;
    AppendCounts(c, db.log, HsmAudit.EntryDraft(db.store, k.cmd, k.actor), k.s);
  }

  lemma OthersHonest(c: Crypto, log: Log, t: Transaction)
    requires SignsOwn(c) && Honest(c, log)
    ensures Honest(c, RunTransaction(c, log, t))
  {
    AppendAllHonest(c, log, t.requests);
  }

  // ---------------------------------------------------------------- steps and runs

  lemma NextHonest(c: Crypto, w: World, i: Input<Service>)
    requires SignsOwn(c) && Honest(c, w.log)
    ensures Honest(c, Next(c, w, i).log)
  {
    hide Honest;
    hide Append;
    hide AnomalyTheorems.Next;
    hide ConfigParamTheorems.Next;
    hide HsmAudit.Transact;
    hide RunTransaction;
    match i
    case Serve(OnAnomalies(a)) => AnomaliesHonest(c, Anomalies(w), a);
    case Serve(OnParameters(p)) => ParametersHonest(c, Parameters(w), p);
    case Serve(OnKeys(k)) => KeysHonest(c, Keys(w), k);
    case Serve(OtherService(t)) => OthersHonest(c, w.log, t);
    case Post(d, s) => AppendCounts(c, w.log, d, s);
  }

  /** A client's own entry keeps all three agreements if and only if it contradicts none. */
  lemma PostStep(c: Crypto, w: World, d: Draft, s: Stamp, initial: map<Str, Str>)
    requires Rebuilt(w, initial) && WellBuilt(w)
    ensures Rebuilt(Next(c, w, Post(d, s)), initial) <==> Harmless(c, w, Post(d, s))
    ensures WellBuilt(Next(c, w, Post(d, s)))
  {
    hide Append;
    hide HsmInvariant.Inv;
    hide HsmAudit.StatusesTold;
    hide HsmAuditTheorems.Restates;
    hide AnomalyTheorems.RowsAgree;
    hide AnomalyTheorems.Benign;
    hide ConfigParamTheorems.FoldOk;
    hide ConfigParamTheorems.Neutral;
    hide ConfigParamTheorems.UniqueKeys;
    AnomalyTheorems.NextKeepsRows(c, Anomalies(w), Post(d, s));
    ConfigParamTheorems.NextKeepsFold(c, Parameters(w), Post(d, s), initial);
    HsmAuditTheorems.NextKeepsStatuses(c, Keys(w), Post(d, s));
  }

  lemma ToldKept(w: World, v: World)
    requires v.store == w.store && GrowsOutside(w.log.rows, v.log.rows, ForKeys)
    ensures HsmAudit.StatusesTold(Keys(w)) ==> HsmAudit.StatusesTold(Keys(v))
    ensures HsmAudit.CeremoniesTold(Keys(w)) ==> HsmAudit.CeremoniesTold(Keys(v))
  {
    ToldUnaffected(w.log.rows, v.log.rows);
  }

  lemma SameUniqueKeys(w: World, v: World)
    requires v.params == w.params && ConfigParamTheorems.UniqueKeys(Parameters(w))
    ensures ConfigParamTheorems.UniqueKeys(Parameters(v))
  {}

  lemma ServiceStep(c: Crypto, w: World, i: Input<Service>, initial: map<Str, Str>)
    requires i.Serve? && FromServices(i) && Rebuilt(w, initial) && WellBuilt(w)
    ensures Rebuilt(Next(c, w, i), initial) <==> Harmless(c, w, i)
    ensures WellBuilt(Next(c, w, i))
  {
    hide GrowsOutside;
    hide FromServices;
    hide Apart;
    hide HsmInvariant.Inv;
    hide HsmAudit.StatusesTold;
    hide HsmAudit.CeremoniesTold;
    hide HsmAudit.Transact;
    hide HsmAuditTheorems.Harmless;
    hide AnomalyTheorems.RowsAgree;
    hide AnomalyTheorems.NoStrays;
    hide AnomalyTheorems.Next;
    hide AnomalyTheorems.Harmless;
    hide ConfigParamTheorems.FoldOk;
    hide ConfigParamTheorems.UniqueKeys;
    hide ConfigParamTheorems.Next;
    hide RunTransaction;
    KindsApart();
    var v := Next(c, w, i);
    if !i.command.OnParameters? { SameUniqueKeys(w, v); }
    match i
    case Serve(OnAnomalies(a)) =>
      AnomalyTheorems.NextKeepsRows(c, Anomalies(w), Serve(a));
      AnomaliesGrow(c, Anomalies(w), a, ForParameters);
      AnomaliesGrow(c, Anomalies(w), a, ForKeys);
      ReplayUnaffected(w, v, initial);
      ToldKept(w, v);
    case Serve(OnParameters(p)) =>
      ConfigParamTheorems.NextKeepsFold(c, Parameters(w), Serve(p), initial);
      ParametersGrow(c, Parameters(w), p, ForAnomalies);
      ParametersGrow(c, Parameters(w), p, ForKeys);
      AgreementUnaffected(w, v);
      ToldKept(w, v);
    case Serve(OnKeys(k)) =>
      HsmAuditTheorems.NextKeepsStatuses(c, Keys(w), Serve(k));
      KeysGrow(c, Keys(w), k, ForAnomalies);
      KeysGrow(c, Keys(w), k, ForParameters);
      AgreementUnaffected(w, v);
      ReplayUnaffected(w, v, initial);
    case Serve(OtherService(t)) =>
      OthersGrow(c, w.log, t);
      AgreementUnaffected(w, v);
      ReplayUnaffected(w, v, initial);
      ToldKept(w, v);
  }

  /** One transaction of any service keeps the state sound if and only if it is harmless. */
  lemma NextSound(c: Crypto, w: World, i: Input<Service>, initial: map<Str, Str>)
    requires SignsOwn(c) && FromServices(i) && Sound(c, w, initial) && WellBuilt(w)
    ensures Sound(c, Next(c, w, i), initial) <==> Harmless(c, w, i)
    ensures WellBuilt(Next(c, w, i))
  {
    hide Next;
    hide Honest;
    hide Rebuilt;
    hide WellBuilt;
    hide Harmless;
    NextHonest(c, w, i);
    match i
    case Post(d, s) => PostStep(c, w, d, s, initial);
    case Serve(_) => ServiceStep(c, w, i, initial);
  }

  ghost predicate AlwaysSound(c: Crypto, w: World, inputs: seq<Input<Service>>, initial: map<Str, Str>)
    decreases |inputs|
  {
    Sound(c, w, initial) && (inputs != [] ==> AlwaysSound(c, Next(c, w, inputs[0]), inputs[1..], initial))
  }

  ghost predicate AllHarmless(c: Crypto, w: World, inputs: seq<Input<Service>>)
    decreases |inputs|
  {
    inputs != [] ==> Harmless(c, w, inputs[0]) && AllHarmless(c, Next(c, w, inputs[0]), inputs[1..])
  }

  /**
   Over every interleaving of the services' transactions the log verifies and rebuilds the state at every point, if and
   only if no accepted entry of a client's own contradicts it, no anomaly is created under an id the log speaks of and
   each completion finds the right predecessor in the log.
   */
  lemma {:induction false} RunSound(c: Crypto, w: World, inputs: seq<Input<Service>>, initial: map<Str, Str>)
    requires SignsOwn(c) && Sound(c, w, initial) && WellBuilt(w)
    requires forall k :: 0 <= k < |inputs| ==> FromServices(inputs[k])
    ensures AlwaysSound(c, w, inputs, initial) <==> AllHarmless(c, w, inputs)
    ensures AllHarmless(c, w, inputs) ==> Sound(c, Run(c, w, inputs), initial) && WellBuilt(Run(c, w, inputs))
    decreases |inputs|
  {
    hide Sound;
    hide Harmless;
    hide Next;
    hide FromServices;
    hide WellBuilt;
    if inputs != [] {
      NextSound(c, w, inputs[0], initial);
      if Sound(c, Next(c, w, inputs[0]), initial) {
        RunSound(c, Next(c, w, inputs[0]), inputs[1..], initial);
      }
    }
  }

  // ---------------------------------------------------------------- no entry about what does not exist

  /** A client's own entry is refused or about no unknown anomaly. */
  ghost predicate Tidy(c: Crypto, w: World, i: Input<Service>) {
    i.Post? && Append(c, w.log, i.d, i.s).ok ==> AnomalyTheorems.Known(Anomalies(w), i.d)
  }

  lemma NextNoStrays(c: Crypto, w: World, i: Input<Service>)
    requires FromServices(i) && AnomalyTheorems.RowsAgree(Anomalies(w)) && AnomalyTheorems.NoStrays(Anomalies(w))
    ensures AnomalyTheorems.NoStrays(Anomalies(Next(c, w, i))) <==> Tidy(c, w, i)
  {
    hide GrowsOutside;
    hide FromServices;
    hide Apart;
    hide Append;
    hide HsmAudit.Transact;
    hide AnomalyTheorems.RowsAgree;
    hide AnomalyTheorems.NoStrays;
    hide AnomalyTheorems.Known;
    hide ConfigParamTheorems.Next;
    hide Anomaly.Create;
    hide Anomaly.Update;
    hide Anomaly.UpdateEach;
    hide RunTransaction;
    KindsApart();
    var v := Next(c, w, i);
    match i
    case Post(d, s) => AnomalyTheorems.NextKeepsNoStrays(c, Anomalies(w), Post(d, s));
    case Serve(OnAnomalies(a)) => AnomalyTheorems.NextKeepsNoStrays(c, Anomalies(w), Serve(a));
    case Serve(OnParameters(p)) => ParametersGrow(c, Parameters(w), p, ForAnomalies); AgreementUnaffected(w, v);
    case Serve(OnKeys(k)) => KeysGrow(c, Keys(w), k, ForAnomalies); AgreementUnaffected(w, v);
    case Serve(OtherService(t)) => OthersGrow(c, w.log, t); AgreementUnaffected(w, v);
  }

  ghost predicate AllTidy(c: Crypto, w: World, inputs: seq<Input<Service>>)
    decreases |inputs|
  {
    inputs != [] ==> Tidy(c, w, inputs[0]) && AllTidy(c, Next(c, w, inputs[0]), inputs[1..])
  }

  ghost predicate NeverStrays(c: Crypto, w: World, inputs: seq<Input<Service>>)
    decreases |inputs|
  {
    AnomalyTheorems.NoStrays(Anomalies(w)) && (inputs != [] ==> NeverStrays(c, Next(c, w, inputs[0]), inputs[1..]))
  }

  /** In a sound run the log speaks of existing anomalies only, at every point, if and only if clients' own entries do. */
  lemma {:induction false} RunNoStrays(c: Crypto, w: World, inputs: seq<Input<Service>>, initial: map<Str, Str>)
    requires AlwaysSound(c, w, inputs, initial) && AnomalyTheorems.NoStrays(Anomalies(w))
    requires forall k :: 0 <= k < |inputs| ==> FromServices(inputs[k])
    ensures NeverStrays(c, w, inputs) <==> AllTidy(c, w, inputs)
    ensures AllTidy(c, w, inputs) ==> AnomalyTheorems.NoStrays(Anomalies(Run(c, w, inputs)))
    decreases |inputs|
  {
    assert AnomalyTheorems.RowsAgree(Anomalies(w));
    hide Sound;
    hide Tidy;
    hide Next;
    hide FromServices;
    hide AnomalyTheorems.NoStrays;
    hide AnomalyTheorems.RowsAgree;
    if inputs != [] {
      NextNoStrays(c, w, inputs[0]);
      if Tidy(c, w, inputs[0]) {
        RunNoStrays(c, Next(c, w, inputs[0]), inputs[1..], initial);
      }
    }
  }

  // ---------------------------------------------------------------- the services on their own

  /** The log speaks of nothing that does not exist, and ceremony references are unique. */
  ghost predicate Exact(w: World) {
    AnomalyTheorems.NoStrays(Anomalies(w)) && HsmAudit.CeremoniesTold(Keys(w)) && HsmAudit.UniqueRefs(w.store)
  }

  lemma NextCeremonies(c: Crypto, w: World, i: Input<Service>)
    requires i.Serve? && FromServices(i) && HsmAudit.CeremoniesTold(Keys(w)) && HsmAudit.UniqueRefs(w.store)
    ensures HsmAudit.CeremoniesTold(Keys(Next(c, w, i))) && HsmAudit.UniqueRefs(Next(c, w, i).store)
  {
    hide GrowsOutside;
    hide FromServices;
    hide Apart;
    hide HsmAudit.Transact;
    hide HsmAudit.StatusesTold;
    hide HsmAudit.CeremoniesTold;
    hide HsmAudit.UniqueRefs;
    hide AnomalyTheorems.Next;
    hide ConfigParamTheorems.Next;
    hide RunTransaction;
    KindsApart();
    var v := Next(c, w, i);
    match i
    case Serve(OnAnomalies(a)) => AnomaliesGrow(c, Anomalies(w), a, ForKeys); ToldKept(w, v);
    case Serve(OnParameters(p)) => ParametersGrow(c, Parameters(w), p, ForKeys); ToldKept(w, v);
    case Serve(OnKeys(k)) => HsmAuditTheorems.NextKeepsCeremonies(c, Keys(w), Serve(k));
    case Serve(OtherService(t)) => OthersGrow(c, w.log, t); ToldKept(w, v);
  }

  lemma ServedHarmless(c: Crypto, w: World, i: Input<Service>, initial: map<Str, Str>)
    requires i.Serve? && Rebuilt(w, initial) && WellBuilt(w) && Exact(w)
    ensures Harmless(c, w, i)
  {
    hide AnomalyTheorems.Harmless;
    hide HsmAuditTheorems.Harmless;
    hide HsmInvariant.Inv;
    hide HsmAudit.StatusesTold;
    hide HsmAudit.CeremoniesTold;
    hide AnomalyTheorems.NoStrays;
    match i
    case Serve(OnAnomalies(a)) => AnomalyTheorems.ServedHarmless(c, Anomalies(w), a);
    case Serve(OnKeys(k)) => HsmAuditTheorems.ServedHarmless(c, Keys(w), k);
    case Serve(_) =>
  }

  /** Without clients' own entries, every run from an exact state is sound at every point, without condition. */
  lemma {:induction false} ServicesAlone(c: Crypto, w: World, inputs: seq<Input<Service>>, initial: map<Str, Str>)
    requires SignsOwn(c) && Sound(c, w, initial) && WellBuilt(w) && Exact(w)
    requires forall k :: 0 <= k < |inputs| ==> inputs[k].Serve? && FromServices(inputs[k])
    ensures AlwaysSound(c, w, inputs, initial)
    decreases |inputs|
  {
    assert Rebuilt(w, initial) && AnomalyTheorems.RowsAgree(Anomalies(w));
    hide Sound;
    hide Rebuilt;
    hide WellBuilt;
    hide Harmless;
    hide Next;
    hide FromServices;
    hide AnomalyTheorems.RowsAgree;
    hide AnomalyTheorems.NoStrays;
    hide HsmAudit.CeremoniesTold;
    hide HsmAudit.UniqueRefs;
    if inputs != [] {
      ServedHarmless(c, w, inputs[0], initial);
      NextSound(c, w, inputs[0], initial);
      NextNoStrays(c, w, inputs[0]);
      NextCeremonies(c, w, inputs[0]);
      ServicesAlone(c, Next(c, w, inputs[0]), inputs[1..], initial);
    }
  }

  // ---------------------------------------------------------------- a fresh installation

  /** Seeded parameters and slots, no anomalies, no keys and an empty log. */
  function Installed(params: map<Str, ConfigParams.Parameter>, slots: set<Str>, next: nat): World {
    World(map[], params, [], Hsm.Store(map[], map[], [], slots), Log([], next))
  }

  function ActiveValues(params: map<Str, ConfigParams.Parameter>): map<Str, Str> {
    map id | id in params :: params[id].active
  }

  lemma InstalledSound(c: Crypto, params: map<Str, ConfigParams.Parameter>, slots: set<Str>, next: nat)
    ensures Sound(c, Installed(params, slots, next), ActiveValues(params)) && Exact(Installed(params, slots, next))
    ensures HsmInvariant.Inv(Installed(params, slots, next).store)
  {
    hide HsmInvariant.Inv;
    HsmAuditTheorems.EmptyTold(Keys(Installed(params, slots, next)));
  }
}
