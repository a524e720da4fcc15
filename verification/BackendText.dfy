/**
 Well-formed text is kept: if the requests carry no split surrogate pairs, neither does any row, nor any entry of the
 log. This turns the hypothesis of the commitment theorems on stored logs into one on what clients send.
 */
module BackendText {
  import opened Prelude
  import opened PyText
  import opened Json
  import opened JsonParse
  import opened Metadata
  import Sanitize
  import opened Audit
  import opened Chain
  import opened Payload
  import opened AuditTheorems
  import Anomaly
  import AnomalyTheorems
  import ConfigParams
  import ConfigParamTheorems
  import Hsm
  import HsmAudit
  import opened Backend

  // ---------------------------------------------------------------- concatenation

  lemma JoinText(a: Str, b: Str)
    requires WellFormedText(a) && WellFormedText(b)
    requires a == [] || b == [] || !IsHigh(a[|a|-1]) || !IsLow(b[0])
    ensures WellFormedText(a + b)
  {
    var s := a + b;
    forall i | 0 <= i < |s| - 1 ensures !(IsHigh(s[i]) && IsLow(s[i+1])) {
      if i >= |a| { assert s[i] == b[i-|a|] && s[i+1] == b[i-|a|+1]; }
    }
  }

  /** A literal has no surrogates, so it can be put in front of any text. */
  lemma AfterLiteral(literal: string, b: Str)
    requires WellFormedText(b)
    ensures WellFormedText(Py(literal) + b)
  {
    PyWellFormed(literal);
    JoinText(Py(literal), b);
  }

  lemma AroundLiteral(a: Str, literal: string, b: Str)
    requires WellFormedText(a) && WellFormedText(b) && literal != ""
    ensures WellFormedText(a + Py(literal) + b) && WellFormedText(a + Py(literal))
  {
    PyWellFormed(literal);
    JoinText(a, Py(literal));
    JoinText(a + Py(literal), b);
  }

  // ---------------------------------------------------------------- drafts and entries

  ghost predicate DraftText(d: Draft) {
    WellFormedText(d.eventSubtype) && WellFormedText(d.actor) && WellFormedText(d.description) &&
    WellFormedOpt(d.tenantSlug) && WellFormedOpt(d.sourceIp) && WellFormed(JObj(d.metadata))
  }

  /** Sanitizing and storing a well-formed draft gives a well-formed entry. */
  lemma AppendText(c: Crypto, log: Log, d: Draft, s: Stamp)
    requires WellFormedRows(log.rows) && DraftText(d)
    ensures WellFormedRows(Append(c, log, d, s).log.rows)
  {
    hide WellFormed;
    hide Sanitize.Sanitized;
    Sanitize.SanitizedWellFormed(JObj(d.metadata));
    assert WellFormedContent(ContentOf(d, s.now)) by { SanitizedObject(d.metadata); }
  }

  lemma SanitizedObject(o: Object)
    ensures Sanitize.Sanitized(JObj(o)).JObj? && JObj(Sanitize.Sanitized(JObj(o)).fields) == Sanitize.Sanitized(JObj(o))
  {}

  lemma {:induction false} AppendAllText(c: Crypto, log: Log, rs: seq<Request>)
    requires WellFormedRows(log.rows) && forall i :: 0 <= i < |rs| ==> DraftText(rs[i].draft)
    ensures WellFormedRows(AppendAll(c, log, rs).log.rows)
    decreases |rs|
  {
    hide WellFormedRows;
    hide Append;
    hide DraftText;
    if rs != [] {
      AppendText(c, log, rs[0].draft, rs[0].stamp);
      if Append(c, log, rs[0].draft, rs[0].stamp).ok {
        AppendAllText(c, Append(c, log, rs[0].draft, rs[0].stamp).log, rs[1..]);
      }
    }
  }

  // ---------------------------------------------------------------- anomalies

  ghost predicate EventText(e: Anomaly.Event) {
    WellFormedText(e.category) && WellFormed(e.score) && WellFormedText(e.severity) && WellFormedText(e.title) &&
    WellFormedOpt(e.actor) && WellFormedOpt(e.sourceIp) && WellFormed(JObj(e.metadata))
  }

  ghost predicate AnomaliesText(db: Anomaly.Db) {
    WellFormedRows(db.log.rows) && forall id :: id in db.events ==> WellFormedText(id) && EventText(db.events[id])
  }

  lemma AnomalyValueText(id: Str, e: Anomaly.Event, previous: Option<Anomaly.Status>, f: Anomaly.Field)
    requires WellFormedText(id) && EventText(e)
    ensures WellFormed(Anomaly.Value(id, e, previous, f))
  {
    PyWellFormed(Anomaly.StatusValue(e.status));
    if previous.Some? { PyWellFormed(Anomaly.StatusValue(previous.value)); }
  }

  lemma AnomalyMetadataText(id: Str, e: Anomaly.Event, previous: Option<Anomaly.Status>)
    requires WellFormedText(id) && EventText(e)
    ensures WellFormed(JObj(Anomaly.AuditMetadata(id, e, previous)))
  {
    hide Anomaly.Value;
    hide Anomaly.Fields;
    hide EventText;
    var o := Anomaly.AuditMetadata(id, e, previous);
    Anomaly.KeysDistinct();
    forall k | k in o ensures WellFormedText(k) && WellFormed(o[k]) {
      var f := KeyedKey(Anomaly.Fields(previous), f => Anomaly.Key(f), f => Anomaly.Value(id, e, previous, f), k);
      KeyedAt(Anomaly.Fields(previous), f => Anomaly.Key(f), f => Anomaly.Value(id, e, previous, f), f);
      PyWellFormed(Anomaly.Name(f));
      AnomalyValueText(id, e, previous, f);
    }
  }

  lemma AnomalyDraftText(id: Str, e: Anomaly.Event, previous: Option<Anomaly.Status>, actor: Option<Str>, subtype: string, description: Str)
    requires WellFormedText(id) && EventText(e) && WellFormedOpt(actor) && WellFormedText(description)
    ensures DraftText(Anomaly.AuditDraft(id, e, previous, actor, Py(subtype), description))
  {
    hide Anomaly.AuditMetadata;
    AnomalyMetadataText(id, e, previous);
    PyWellFormed(subtype);
    PyWellFormed("system");
  }

  lemma CreatedText(id: Str, e: Anomaly.Event, actor: Option<Str>)
    requires WellFormedText(id) && EventText(e) && WellFormedOpt(actor)
    ensures DraftText(Anomaly.CreatedDraft(id, e, actor))
  {
    hide Anomaly.AuditDraft;
    AfterLiteral("Anomaly created: ", e.title);
    AnomalyDraftText(id, e, None, actor, "ANOMALY_CREATED", Py("Anomaly created: ") + e.title);
  }

  lemma UpdatedText(id: Str, e: Anomaly.Event, previous: Anomaly.Status, actor: Option<Str>)
    requires WellFormedText(id) && EventText(e) && WellFormedOpt(actor)
    ensures DraftText(Anomaly.UpdatedDraft(id, e, previous, actor))
  {
    hide Anomaly.AuditDraft;
    hide Anomaly.StatusValue;
    PyWellFormed(Anomaly.StatusValue(previous));
    PyWellFormed(Anomaly.StatusValue(e.status));
    AfterLiteral("Anomaly status updated: ", Py(Anomaly.StatusValue(previous)));
    var front := Py("Anomaly status updated: ") + Py(Anomaly.StatusValue(previous));
    AroundLiteral(front, " -> ", Py(Anomaly.StatusValue(e.status)));
    AnomalyDraftText(id, e, Some(previous), actor, "ANOMALY_STATUS_UPDATED", front + Py(" -> ") + Py(Anomaly.StatusValue(e.status)));
  }

  lemma CreateText(c: Crypto, db: Anomaly.Db, id: Str, e: Anomaly.Event, actor: Option<Str>, s: Stamp)
    requires AnomaliesText(db) && WellFormedText(id) && EventText(e) && WellFormedOpt(actor)
    ensures AnomaliesText(Anomaly.Create(c, db, id, e, actor, s).db)
  {
    hide Append;
    hide WellFormedRows;
    hide WellFormed;
    hide WellFormedText;
    hide Anomaly.CreatedDraft;
    hide DraftText;
    var row := e.(status := Anomaly.Open, resolvedAt := None);
    CreatedText(id, row, actor);
    AppendText(c, db.log, Anomaly.CreatedDraft(id, row, actor), s);
  }

  lemma UpdateText(c: Crypto, db: Anomaly.Db, id: Str, status: Anomaly.Status, actor: Option<Str>, now: int, s: Stamp)
    requires AnomaliesText(db) && WellFormedOpt(actor)
    ensures AnomaliesText(Anomaly.Update(c, db, id, status, actor, now, s).db)
  {
    hide Append;
    hide WellFormedRows;
    hide WellFormed;
    hide WellFormedText;
    hide Anomaly.UpdatedDraft;
    hide DraftText;
    if id in db.events {
      var row := Anomaly.WithStatus(db.events[id], status, now);
      UpdatedText(id, row, db.events[id].status, actor);
      AppendText(c, db.log, Anomaly.UpdatedDraft(id, row, db.events[id].status, actor), s);
    }
  }

  lemma {:induction false} BulkText(
    c: Crypto, db: Anomaly.Db, ids: seq<Str>, status: Anomaly.Status, actor: Option<Str>, now: int, stamps: seq<Stamp>)
    requires AnomaliesText(db) && WellFormedOpt(actor) && |stamps| == |ids|
    ensures AnomaliesText(Anomaly.UpdateEach(c, db, ids, status, actor, now, stamps).db)
    decreases |ids|
  {
    hide AnomaliesText;
    hide Anomaly.Update;
    if ids != [] {
      var n := |ids| - 1;
      BulkText(c, db, ids[..n], status, actor, now, stamps[..n]);
      UpdateText(c, Anomaly.UpdateEach(c, db, ids[..n], status, actor, now, stamps[..n]).db, ids[n], status, actor, now, stamps[n]);
    }
  }

  ghost predicate AnomalyCommandText(a: AnomalyTheorems.Command) {
    match a
    case CreateCmd(id, e, actor, s) => WellFormedText(id) && EventText(e) && WellFormedOpt(actor)
    case UpdateCmd(id, status, actor, now, s) => WellFormedOpt(actor)
    case BulkCmd(ids, status, actor, now, stamps) => WellFormedOpt(actor)
  }

  lemma AnomalyNextText(c: Crypto, db: Anomaly.Db, a: AnomalyTheorems.Command)
    requires AnomaliesText(db) && AnomalyCommandText(a)
    ensures AnomaliesText(AnomalyTheorems.Next(c, db, Serve(a)))
  {
    hide Append;
    hide WellFormedRows;
    hide DraftText;
    hide EventText;
    hide WellFormedText;
    hide Anomaly.Create;
    hide Anomaly.Update;
    hide Anomaly.UpdateEach;
    match a
    case CreateCmd(id, e, actor, s) => CreateText(c, db, id, e, actor, s);
    case UpdateCmd(id, status, actor, now, s) => UpdateText(c, db, id, status, actor, now, s);
    case BulkCmd(ids, status, actor, now, stamps) =>
      if |stamps| == |ids| { BulkText(c, db, ids, status, actor, now, stamps); }
  }

  // ---------------------------------------------------------------- parameters

  ghost predicate ParameterText(p: ConfigParams.Parameter) {
    WellFormedText(p.key) && WellFormedText(p.active) && WellFormedOpt(p.pending)
  }

  ghost predicate ParametersText(db: ConfigParams.Db) {
    WellFormedRows(db.log.rows) && forall id :: id in db.params ==> ParameterText(db.params[id])
  }

  /** The description quotes both values with `repr`, which escapes every surrogate. */
  ghost predicate WhoText(w: ConfigParams.Who) {
    WellFormedText(w.changedBy) && forall key, previous, next :: WellFormedText(key) ==> WellFormedText(w.text(key, previous, next))
  }

  lemma UpdateMetadataText(p: ConfigParams.Parameter, previous: Str, next: Str)
    requires ParameterText(p) && WellFormedText(previous) && WellFormedText(next)
    ensures WellFormed(JObj(ConfigParams.UpdateMetadata(p, previous, next)))
  {
    hide ConfigParams.Value;
    var o := ConfigParams.UpdateMetadata(p, previous, next);
    ConfigParams.KeysDistinct();
    forall k | k in o ensures WellFormedText(k) && WellFormed(o[k]) {
      var f := KeyedKey(ConfigParams.FIELDS, f => ConfigParams.Key(f), f => ConfigParams.Value(p, previous, next, f), k);
      KeyedAt(ConfigParams.FIELDS, f => ConfigParams.Key(f), f => ConfigParams.Value(p, previous, next, f), f);
      PyWellFormed(ConfigParams.Name(f));
      ParameterValueText(p, previous, next, f);
    }
  }

  lemma ParameterValueText(p: ConfigParams.Parameter, previous: Str, next: Str, f: ConfigParams.Field)
    requires ParameterText(p) && WellFormedText(previous) && WellFormedText(next)
    ensures WellFormed(ConfigParams.Value(p, previous, next, f))
  {
    PyWellFormed("[REDACTED]");
  }

  lemma UpdateDraftText(p: ConfigParams.Parameter, previous: Str, next: Str, w: ConfigParams.Who)
    requires ParameterText(p) && WellFormedText(previous) && WellFormedText(next) && WhoText(w)
    ensures DraftText(ConfigParams.UpdateDraft(p, previous, next, w.changedBy, w.text))
  {
    hide ConfigParams.UpdateMetadata;
    UpdateMetadataText(p, previous, next);
    PyWellFormed("PARAMETER_UPDATED");
  }

  lemma TurnText(c: Crypto, db: ConfigParams.Db, w: ConfigParams.Who, t: ConfigParams.Turn)
    requires ParametersText(db) && WhoText(w)
    ensures ParametersText(ConfigParams.ApplyOne(c, db, w, t).db)
  {
    hide Append;
    hide WellFormedRows;
    hide WellFormedText;
    hide WhoText;
    hide DraftText;
    hide ConfigParams.UpdateDraft;
    if ConfigParams.Applicable(db, t) {
      var p := db.params[t.id];
      UpdateDraftText(p, p.active, p.pending.value, w);
      AppendText(c, db.log, ConfigParams.UpdateDraft(p, p.active, p.pending.value, w.changedBy, w.text), t.stamp);
    }
  }

  lemma {:induction false} ApplyText(c: Crypto, db: ConfigParams.Db, w: ConfigParams.Who, turns: seq<ConfigParams.Turn>)
    requires ParametersText(db) && WhoText(w)
    ensures ParametersText(ConfigParams.ApplyAll(c, db, w, turns).db)
    decreases |turns|
  {
    hide ParametersText;
    hide ConfigParams.ApplyOne;
    if turns != [] {
      var n := |turns| - 1;
      ApplyText(c, db, w, turns[..n]);
      TurnText(c, ConfigParams.ApplyAll(c, db, w, turns[..n]).db, w, turns[n]);
    }
  }

  ghost predicate ParameterCommandText(p: ConfigParamTheorems.Command) {
    match p
    case StageCmd(id, value, changedBy) => WellFormedText(value)
    case RevertCmd(id) => true
    case ApplyCmd(w, turns, fails) => WhoText(w)
  }

  lemma ParameterNextText(c: Crypto, db: ConfigParams.Db, p: ConfigParamTheorems.Command)
    requires ParametersText(db) && ParameterCommandText(p)
    ensures ParametersText(ConfigParamTheorems.Next(c, db, Serve(p)))
  {
    hide Append;
    hide WellFormedRows;
    hide WellFormedText;
    hide DraftText;
    hide WhoText;
    hide ConfigParams.ApplyAll;
    hide ConfigParams.ValidValue;
    match p
    case StageCmd(id, value, changedBy) =>
    case RevertCmd(id) =>
    case ApplyCmd(w, turns, fails) => ApplyText(c, db, w, turns);
  }

  // ---------------------------------------------------------------- keys

  ghost predicate CeremonyText(c: Hsm.Ceremony) {
    WellFormedText(c.ref) && WellFormedText(c.keyId) && WellFormedOpt(c.predecessorLabel)
  }

  ghost predicate StoreText(s: Hsm.Store) {
    (forall k :: k in s.keys ==> WellFormedText(k) && WellFormedText(s.keys[k].keyLabel)) &&
    forall c :: c in s.ceremonies ==> CeremonyText(s.ceremonies[c])
  }

  ghost predicate KeyCommandText(cmd: Hsm.Command) {
    match cmd
    case CreateKey(id, keyLabel, slot, algorithm, _, _) =>
      WellFormedText(id) && WellFormedText(keyLabel) && WellFormedOpt(slot) && WellFormedText(algorithm)
    case CreateCeremony(_, ref, keyId, _, _, _) => WellFormedText(ref) && WellFormedText(keyId)
    case ApproveCeremony(_, custodian, _) => WellFormedText(custodian)
    case FinishCeremony(_, _) => true
    case RotateKey(id, newId, newLabel, _) => WellFormedText(id) && WellFormedText(newId) && WellFormedOpt(newLabel)
    case DisableKey(id, _) => WellFormedText(id)
  }

  lemma PrefixText(s: Str, i: nat)
    requires WellFormedText(s) && i <= |s|
    ensures WellFormedText(s[..i])
  {}

  lemma NextVersionText(keyLabel: Str)
    requires WellFormedText(keyLabel)
    ensures WellFormedText(Hsm.NextVersionLabel(keyLabel))
  {
    hide Hsm.DigitsFrom;
    hide Hsm.DigitsValue;
    hide WellFormedText;
    var i := Hsm.DigitsFrom(keyLabel);
    PrefixText(keyLabel, i);
    BeforeLiteral(keyLabel, "-v2");
    if 2 <= i < |keyLabel| {
      BeforeLiteral(keyLabel[..i], NatText(Hsm.DigitsValue(keyLabel[i..]) + 1));
    }
  }

  lemma BeforeLiteral(a: Str, literal: string)
    requires WellFormedText(a)
    ensures WellFormedText(a + Py(literal))
  {
    PyWellFormed(literal);
    JoinText(a, Py(literal));
  }

  lemma SuccessorText(keyLabel: Str, newLabel: Option<Str>)
    requires WellFormedText(keyLabel) && WellFormedOpt(newLabel)
    ensures WellFormedText(Hsm.SuccessorLabel(keyLabel, newLabel))
  {
    hide Hsm.NextVersionLabel;
    NextVersionText(keyLabel);
  }

  lemma SubjectText(s: Hsm.Store, cmd: Hsm.Command)
    requires StoreText(s) && KeyCommandText(cmd)
    ensures WellFormedText(HsmAudit.Subject(s, cmd)) && WellFormedText(HsmAudit.SubjectLabel(s, cmd))
    ensures CeremonyText(HsmAudit.CeremonyOf(s, cmd))
  {
    hide Hsm.Approved;
    assert HsmAudit.NO_KEY.keyLabel == [] && WellFormedText([]);
    assert CeremonyText(HsmAudit.NO_CEREMONY);
  }

  lemma KeyValueText(s: Hsm.Store, cmd: Hsm.Command, f: HsmAudit.Field)
    requires StoreText(s) && KeyCommandText(cmd)
    ensures WellFormed(HsmAudit.Value(s, cmd, f))
  {
    SubjectText(s, cmd);
    hide HsmAudit.Subject;
    hide HsmAudit.SubjectLabel;
    hide HsmAudit.CeremonyOf;
    hide Hsm.SuccessorLabel;
    hide HsmAudit.StatusValue;
    hide Hsm.ApprovalCount;
    if cmd.RotateKey? { SuccessorText(HsmAudit.SubjectLabel(s, cmd), cmd.newLabel); }
    PyWellFormed(HsmAudit.StatusValue(HsmAudit.KeyAt(s, HsmAudit.Subject(s, cmd)).status));
  }

  lemma KeyMetadataText(s: Hsm.Store, cmd: Hsm.Command)
    requires StoreText(s) && KeyCommandText(cmd)
    ensures WellFormed(JObj(HsmAudit.EntryMetadata(s, cmd)))
  {
    hide HsmAudit.Value;
    hide HsmAudit.Fields;
    hide HsmAudit.Name;
    hide StoreText;
    hide KeyCommandText;
    var o := HsmAudit.EntryMetadata(s, cmd);
    HsmAudit.KeysDistinct();
    forall k | k in o ensures WellFormedText(k) && WellFormed(o[k]) {
      var f := KeyedKey(HsmAudit.Fields(cmd), f => HsmAudit.Key(f), f => HsmAudit.Value(s, cmd, f), k);
      KeyedAt(HsmAudit.Fields(cmd), f => HsmAudit.Key(f), f => HsmAudit.Value(s, cmd, f), f);
      PyWellFormed(HsmAudit.Name(f));
      KeyValueText(s, cmd, f);
    }
  }

  lemma KeyDescriptionText(s: Hsm.Store, cmd: Hsm.Command)
    requires StoreText(s) && KeyCommandText(cmd)
    ensures WellFormedText(HsmAudit.Description(s, cmd))
  {
    SubjectText(s, cmd);
    hide HsmAudit.SubjectLabel;
    hide HsmAudit.CeremonyOf;
    hide Hsm.SuccessorLabel;
    hide WellFormedText;
    hide StoreText;
    var ref, name := HsmAudit.CeremonyOf(s, cmd).ref, HsmAudit.SubjectLabel(s, cmd);
    match cmd
    case CreateKey(_, _, _, _, _, _) => AfterLiteral("Registered key reference ", name);
    case CreateCeremony(_, _, _, _, _, _) =>
      AfterLiteral("Initiated key ceremony ", ref);
      AroundLiteral(Py("Initiated key ceremony ") + ref, " for ", name);
    case ApproveCeremony(_, _, _) => AfterLiteral("Approved key ceremony ", ref);
    case FinishCeremony(_, _) =>
      var p := HsmAudit.CeremonyOf(s, cmd).predecessorLabel;
      PyWellFormed("new key");
      var from := if p.Some? && p.value != [] then p.value else Py("new key");
      AroundLiteral(from, " -> ", name);
      AroundLiteral(from + Py(" -> ") + name, " rotation completed via ceremony ", ref);
    case RotateKey(_, _, newLabel, _) =>
      SuccessorText(name, newLabel);
      AfterLiteral("Rotated ", name);
      AroundLiteral(Py("Rotated ") + name, " to ", Hsm.SuccessorLabel(name, newLabel));
    case DisableKey(_, _) => AfterLiteral("Disabled key ", name);
  }

  lemma KeyDraftText(s: Hsm.Store, cmd: Hsm.Command, actor: Str)
    requires StoreText(s) && KeyCommandText(cmd) && WellFormedText(actor)
    ensures DraftText(HsmAudit.EntryDraft(s, cmd, actor))
  {
    KeyMetadataText(s, cmd);
    KeyDescriptionText(s, cmd);
    hide HsmAudit.EntryMetadata;
    hide HsmAudit.Description;
    hide HsmAudit.SubtypeName;
    hide StoreText;
    hide WellFormed;
    PyWellFormed(HsmAudit.SubtypeName(HsmAudit.SubtypeOf(cmd)));
  }

  lemma StepText(s: Hsm.Store, cmd: Hsm.Command)
    requires StoreText(s) && KeyCommandText(cmd) && Hsm.Step(s, cmd).Ok?
    ensures StoreText(Hsm.Step(s, cmd).value)
  {
    hide Hsm.SuccessorLabel;
    hide Hsm.QuorumMet;
    hide Hsm.Approved;
    hide Hsm.ScalarOneOrNone;
    hide WellFormedText;
    if cmd.RotateKey? && cmd.id in s.keys { SuccessorText(s.keys[cmd.id].keyLabel, cmd.newLabel); }
  }

  ghost predicate CallText(k: HsmAudit.Call) {
    KeyCommandText(k.cmd) && WellFormedText(k.actor)
  }

  lemma KeyNextText(c: Crypto, db: HsmAudit.Db, k: HsmAudit.Call)
    requires WellFormedRows(db.log.rows) && StoreText(db.store) && CallText(k)
    ensures var after := HsmAudit.Transact(c, db, Serve(k)); WellFormedRows(after.log.rows) && StoreText(after.store)
  {
    hide Append;
    hide WellFormedRows;
    hide StoreText;
    hide DraftText;
    hide Hsm.Step;
    hide HsmAudit.EntryDraft;
    hide KeyCommandText;
    KeyDraftText(db.store, k.cmd, k.actor);
    AppendText(c, db.log, HsmAudit.EntryDraft(db.store, k.cmd, k.actor), k.s);
    if Hsm.Step(db.store, k.cmd).Ok? { StepText(db.store, k.cmd); }
  }

  // ---------------------------------------------------------------- the whole backend

  ghost predicate WorldText(w: World) {
    AnomaliesText(Anomalies(w)) && ParametersText(Parameters(w)) && StoreText(w.store)
  }

  /** What clients send carries no split surrogate pairs. */
  ghost predicate InputText(i: Input<Service>) {
    match i
    case Serve(OnAnomalies(a)) => AnomalyCommandText(a)
    case Serve(OnParameters(p)) => ParameterCommandText(p)
    case Serve(OnKeys(k)) => CallText(k)
    case Serve(OtherService(t)) => forall k :: 0 <= k < |t.requests| ==> DraftText(t.requests[k].draft)
    case Post(d, s) => DraftText(d)
  }

  lemma NextText(c: Crypto, w: World, i: Input<Service>)
    requires WorldText(w) && InputText(i)
    ensures WorldText(Next(c, w, i))
  {
    hide Append;
    hide WellFormedRows;
    hide EventText;
    hide ParameterText;
    hide StoreText;
    hide WellFormedText;
    hide DraftText;
    hide AnomalyTheorems.Next;
    hide ConfigParamTheorems.Next;
    hide HsmAudit.Transact;
    hide AppendAll;
    match i
    case Serve(OnAnomalies(a)) => AnomalyNextText(c, Anomalies(w), a);
    case Serve(OnParameters(p)) => ParameterNextText(c, Parameters(w), p);
    case Serve(OnKeys(k)) => KeyNextText(c, Keys(w), k);
    case Serve(OtherService(t)) => AppendAllText(c, w.log, t.requests);
    case Post(d, s) => AppendText(c, w.log, d, s);
  }

  /** Over every run of well-formed requests, every entry of the log is well formed. */
  lemma {:induction false} RunText(c: Crypto, w: World, inputs: seq<Input<Service>>)
    requires WorldText(w) && forall k :: 0 <= k < |inputs| ==> InputText(inputs[k])
    ensures WorldText(Backend.Run(c, w, inputs)) && WellFormedRows(Backend.Run(c, w, inputs).log.rows)
    decreases |inputs|
  {
    hide Next;
    hide InputText;
    assert WellFormedRows(w.log.rows);
    hide WorldText;
    hide WellFormedRows;
    if inputs != [] {
      NextText(c, w, inputs[0]);
      RunText(c, Next(c, w, inputs[0]), inputs[1..]);
    }
  }
}
