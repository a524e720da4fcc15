/** What a verified root hash says about the state: it pins down statuses and values, whatever led to them. */
module RootState {
  import opened Prelude
  import opened PyText
  import opened Json
  import opened Audit
  import opened Chain
  import Payload
  import AuditTheorems
  import Anomaly
  import AnomalyTheorems
  import ConfigParams
  import ConfigParamTheorems
  import Hsm
  import HsmInvariant
  import HsmAudit
  import HsmAuditTheorems
  import opened Backend
  import BackendText

  ghost predicate SameRows(a: seq<Entry>, b: seq<Entry>) {
    |a| == |b| && forall i :: 0 <= i < |a| ==> SameEntry(a[i], b[i])
  }

  /** Histories read nothing but hashed fields, sequence numbers aside. */
  lemma {:induction false} HistoryFromContents(a: seq<Entry>, b: seq<Entry>, id: Str)
    requires SameRows(a, b)
    ensures var h, k := Anomaly.History(a, id), Anomaly.History(b, id);
            |h| == |k| && forall i :: 0 <= i < |h| ==> h[i] == k[i].(sequence := h[i].sequence)
    decreases |a|
  {
    if a != [] {
      var n := |a| - 1;
      assert SameEntry(a[n], b[n]);
      HistoryFromContents(a[..n], b[..n], id);
    }
  }

  lemma {:induction false} UpdatesFromContents(a: seq<Entry>, b: seq<Entry>, key: Str)
    requires SameRows(a, b)
    ensures ConfigParamTheorems.UpdatesOf(a, key) == ConfigParamTheorems.UpdatesOf(b, key)
    decreases |a|
  {
    if a != [] {
      var n := |a| - 1;
      assert SameEntry(a[n], b[n]);
      UpdatesFromContents(a[..n], b[..n], key);
    }
  }

  lemma {:induction false} ToldFromContents(a: seq<Entry>, b: seq<Entry>)
    requires SameRows(a, b)
    ensures HsmAudit.ToldBy(a) == HsmAudit.ToldBy(b)
    decreases |a|
  {
    if a != [] {
      var n := |a| - 1;
      assert SameEntry(a[n], b[n]);
      ToldFromContents(a[..n], b[..n]);
    }
  }

  lemma StatusJsonInjective(s: Anomaly.Status, t: Anomaly.Status)
    requires Anomaly.StatusJson(s) == Anomaly.StatusJson(t)
    ensures s == t
  {
    PyInjective(Anomaly.StatusValue(s), Anomaly.StatusValue(t));
  }

  /** Anomalies that both hold have the same status. */
  ghost predicate SameStatuses(v: World, w: World) {
    forall id :: id in v.events && id in w.events ==> v.events[id].status == w.events[id].status
  }

  /** The keys of both carry the same labels, with the same statuses. */
  ghost predicate SameKeys(v: Hsm.Store, w: Hsm.Store) {
    (forall k :: k in v.keys ==> HsmAuditTheorems.HasStatus(w, v.keys[k].keyLabel, v.keys[k].status)) &&
    forall k :: k in w.keys ==> HsmAuditTheorems.HasStatus(v, w.keys[k].keyLabel, w.keys[k].status)
  }

  /** Non-sensitive parameters of the same key that started from the same value have the same active value. */
  ghost predicate SameValues(v: World, from: map<Str, Str>, w: World, from': map<Str, Str>) {
    forall p, q :: p in v.params && q in w.params && v.params[p].key == w.params[q].key &&
                   !v.params[p].isSensitive && !w.params[q].isSensitive && p in from && q in from' && from[p] == from'[q] ==>
                     v.params[p].active == w.params[q].active
  }

  lemma SameRowsSameStatuses(v: World, w: World)
    requires AnomalyTheorems.RowsAgree(Anomalies(v)) && AnomalyTheorems.RowsAgree(Anomalies(w)) && SameRows(v.log.rows, w.log.rows)
    ensures SameStatuses(v, w)
    ensures AnomalyTheorems.NoStrays(Anomalies(v)) && AnomalyTheorems.NoStrays(Anomalies(w)) ==> v.events.Keys == w.events.Keys
  {
    hide SameRows;
    hide Anomaly.History;
    hide AnomalyTheorems.Agrees;
    forall id
      ensures id in v.events && id in w.events ==> v.events[id].status == w.events[id].status
      ensures AnomalyTheorems.NoStrays(Anomalies(v)) && AnomalyTheorems.NoStrays(Anomalies(w)) ==> (id in v.events <==> id in w.events)
    {
      var h, k := Anomaly.History(v.log.rows, id), Anomaly.History(w.log.rows, id);
      HistoryFromContents(v.log.rows, w.log.rows, id);
      if id in v.events { Ends(h, v.events[id].status); }
      if id in w.events { Ends(k, w.events[id].status); }
      if id in v.events && id in w.events {
        StatusJsonInjective(v.events[id].status, w.events[id].status);
      }
    }
  }

  lemma SameToldSameKeys(v: Hsm.Store, w: Hsm.Store, statuses: map<Str, Hsm.KeyStatus>)
    requires HsmInvariant.UniqueLabels(v) && HsmInvariant.UniqueLabels(w)
    requires HsmAudit.TellsKeys(statuses, v) && HsmAudit.TellsKeys(statuses, w)
    ensures SameKeys(v, w)
  {
    hide HsmAuditTheorems.HasStatus;
    hide HsmInvariant.UniqueLabels;
    forall k | k in v.keys ensures HsmAuditTheorems.HasStatus(w, v.keys[k].keyLabel, v.keys[k].status) {
      HsmAuditTheorems.StatusTold(w, statuses, v.keys[k].keyLabel, v.keys[k].status);
    }
    forall k | k in w.keys ensures HsmAuditTheorems.HasStatus(v, w.keys[k].keyLabel, w.keys[k].status) {
      HsmAuditTheorems.StatusTold(v, statuses, w.keys[k].keyLabel, w.keys[k].status);
    }
  }

  lemma Ends(h: seq<Anomaly.HistoryEntry>, status: Anomaly.Status)
    requires AnomalyTheorems.Agrees(h, status)
    ensures h != [] && h[|h|-1].newStatus == Some(Anomaly.StatusJson(status))
  {}

  lemma SameRowsSameValues(v: World, from: map<Str, Str>, w: World, from': map<Str, Str>)
    requires ConfigParamTheorems.FoldOk(Parameters(v), from) && ConfigParamTheorems.FoldOk(Parameters(w), from')
    requires SameRows(v.log.rows, w.log.rows)
    ensures SameValues(v, from, w, from')
  {
    hide SameRows;
    hide ConfigParamTheorems.UpdatesOf;
    forall p, q | p in v.params && q in w.params && v.params[p].key == w.params[q].key &&
                  !v.params[p].isSensitive && !w.params[q].isSensitive && p in from && q in from' && from[p] == from'[q]
      ensures v.params[p].active == w.params[q].active
    {
      UpdatesFromContents(v.log.rows, w.log.rows, v.params[p].key);
    }
  }

  /**
   The root hash pins the state down: two sound installations whose logs report the same root hash agree on the status
   of every anomaly both hold, on every key and its status, and on the values of non-sensitive parameters. If neither
   log speaks of an anomaly without a row, they hold the same anomalies.
   */
  lemma RootPinsState(c: Crypto, digest: string -> Digest, v: World, from: map<Str, Str>, w: World, from': map<Str, Str>)
    requires Sound(c, v, from) && WellBuilt(v) && Sound(c, w, from') && WellBuilt(w) && RootHash(v.log.rows) == RootHash(w.log.rows)
    requires c.hash == Payload.Sha256(digest)
    requires AuditTheorems.WellFormedRows(v.log.rows) && AuditTheorems.WellFormedRows(w.log.rows)
    requires AuditTheorems.CollisionFreeOn(digest, AuditTheorems.Texts(Preimages(v.log.rows) + Preimages(w.log.rows)))
    ensures SameRows(v.log.rows, w.log.rows)
    ensures SameStatuses(v, w) && SameKeys(v.store, w.store) && SameValues(v, from, w, from')
    ensures AnomalyTheorems.NoStrays(Anomalies(v)) && AnomalyTheorems.NoStrays(Anomalies(w)) ==> v.events.Keys == w.events.Keys
  {
    hide SameStatuses;
    hide SameKeys;
    hide SameValues;
    hide Payload.Sha256;
    hide AuditTheorems.WellFormedRows;
    hide AuditTheorems.CollisionFreeOn;
    hide AnomalyTheorems.RowsAgree;
    hide AnomalyTheorems.NoStrays;
    hide ConfigParamTheorems.FoldOk;
    hide HsmAudit.TellsKeys;
    hide Preimages;
    LabelsBuilt(v);
    LabelsBuilt(w);
    hide WellBuilt;
    assert Intact(c, v.log.rows) && Intact(c, w.log.rows);
    hide Intact;
    IntactIffNoFailures(c, v.log.rows);
    IntactIffNoFailures(c, w.log.rows);
    AuditTheorems.RootCommitment(c, digest, v.log.rows, w.log.rows);
    SameRowsSameStatuses(v, w);
    SameRowsSameValues(v, from, w, from');
    ToldFromContents(v.log.rows, w.log.rows);
    SameToldSameKeys(v.store, w.store, HsmAudit.ToldBy(v.log.rows).statuses);
  }

  lemma LabelsBuilt(w: World)
    requires WellBuilt(w)
    ensures HsmInvariant.UniqueLabels(w.store)
  {
    HsmAuditTheorems.LabelsUnique(w.store);
  }

  // ---------------------------------------------------------------- two runs

  /** The same parameters, with the same keys and sensitivity; only their values may differ. */
  ghost predicate SameParameters(params: map<Str, ConfigParams.Parameter>, params': map<Str, ConfigParams.Parameter>) {
    params'.Keys == params.Keys && forall id :: id in params && id in params' ==>
      params'[id].key == params[id].key && params'[id].isSensitive == params[id].isSensitive
  }

  lemma {:induction false} ApplyKeepsParameters(c: Crypto, db: ConfigParams.Db, w: ConfigParams.Who, turns: seq<ConfigParams.Turn>)
    ensures SameParameters(db.params, ConfigParams.ApplyAll(c, db, w, turns).db.params)
    decreases |turns|
  {
    hide Append;
    hide ConfigParams.UpdateDraft;
    if turns != [] { ApplyKeepsParameters(c, db, w, turns[..|turns|-1]); }
  }

  lemma NextKeepsParameters(c: Crypto, w: World, i: Input<Service>)
    ensures SameParameters(w.params, Next(c, w, i).params)
  {
    hide Append;
    hide AnomalyTheorems.Next;
    hide HsmAudit.Transact;
    hide ConfigParams.ApplyAll;
    hide ConfigParams.ValidValue;
    match i
    case Serve(OnParameters(ApplyCmd(who, turns, fails))) => ApplyKeepsParameters(c, Parameters(w), who, turns);
    case _ =>
  }

  lemma {:induction false} RunKeepsParameters(c: Crypto, w: World, inputs: seq<Input<Service>>)
    ensures SameParameters(w.params, Backend.Run(c, w, inputs).params)
    decreases |inputs|
  {
    hide Next;
    if inputs != [] {
      NextKeepsParameters(c, w, inputs[0]);
      RunKeepsParameters(c, Next(c, w, inputs[0]), inputs[1..]);
    }
  }

  lemma SameActiveValues(params: map<Str, ConfigParams.Parameter>, v: World, w: World, id: Str)
    requires SameParameters(params, v.params) && SameParameters(params, w.params)
    requires SameValues(v, ActiveValues(params), w, ActiveValues(params)) && id in params && !params[id].isSensitive
    ensures id in v.params && id in w.params && v.params[id].active == w.params[id].active
  {}

  /** What an installation is seeded with: distinct parameter keys, and text without split surrogate pairs. */
  ghost predicate Seeded(params: map<Str, ConfigParams.Parameter>) {
    ConfigParamTheorems.UniqueKeys(ConfigParams.Db(params, [], Log([], 0))) &&
    forall id :: id in params ==> BackendText.ParameterText(params[id])
  }

  /** An installation that ran from a fresh start on well-formed requests, harmlessly and about existing anomalies only. */
  ghost predicate Reaches(
    c: Crypto, params: map<Str, ConfigParams.Parameter>, slots: set<Str>, next: nat, inputs: seq<Input<Service>>, w: World) {
    (forall i :: 0 <= i < |inputs| ==> FromServices(inputs[i]) && BackendText.InputText(inputs[i])) &&
    AllHarmless(c, Installed(params, slots, next), inputs) && AllTidy(c, Installed(params, slots, next), inputs) &&
    w == Backend.Run(c, Installed(params, slots, next), inputs)
  }

  lemma InstalledBuilt(c: Crypto, params: map<Str, ConfigParams.Parameter>, slots: set<Str>, next: nat)
    requires Seeded(params)
    ensures Sound(c, Installed(params, slots, next), ActiveValues(params)) && WellBuilt(Installed(params, slots, next))
    ensures Exact(Installed(params, slots, next))
    ensures BackendText.WorldText(Installed(params, slots, next))
  {
    hide Sound;
    hide HsmInvariant.Inv;
    hide Exact;
    hide BackendText.ParameterText;
    InstalledSound(c, params, slots, next);
  }

  lemma ReachesSound(c: Crypto, params: map<Str, ConfigParams.Parameter>, slots: set<Str>, next: nat, inputs: seq<Input<Service>>, w: World)
    requires SignsOwn(c) && Seeded(params) && Reaches(c, params, slots, next, inputs, w)
    ensures Sound(c, w, ActiveValues(params)) && WellBuilt(w) && SameParameters(params, w.params)
    ensures AnomalyTheorems.NoStrays(Anomalies(w)) && AuditTheorems.WellFormedRows(w.log.rows)
  {
    hide Sound;
    hide WellBuilt;
    hide Backend.Run;
    hide AllHarmless;
    hide AllTidy;
    hide FromServices;
    hide AlwaysSound;
    hide AnomalyTheorems.NoStrays;
    hide BackendText.WorldText;
    hide BackendText.InputText;
    hide SameParameters;
    hide AuditTheorems.WellFormedRows;
    var start := Installed(params, slots, next);
    InstalledBuilt(c, params, slots, next);
    hide Seeded;
    RunSound(c, start, inputs, ActiveValues(params));
    RunNoStrays(c, start, inputs, ActiveValues(params));
    BackendText.RunText(c, start, inputs);
    RunKeepsParameters(c, start, inputs);
  }

  /**
   Two installations seeded alike and run differently on well-formed requests: a common root hash means the same
   anomalies with the same statuses, the same keys with the same statuses and the same value of every non-sensitive
   parameter.
   */
  lemma RunsWithOneRootAgree(
    c: Crypto, digest: string -> Digest, params: map<Str, ConfigParams.Parameter>, slots: set<Str>,
    m: nat, xs: seq<Input<Service>>, v: World, n: nat, ys: seq<Input<Service>>, w: World)
    requires SignsOwn(c) && c.hash == Payload.Sha256(digest) && Seeded(params)
    requires Reaches(c, params, slots, m, xs, v) && Reaches(c, params, slots, n, ys, w)
    requires RootHash(v.log.rows) == RootHash(w.log.rows)
    requires AuditTheorems.CollisionFreeOn(digest, AuditTheorems.Texts(Preimages(v.log.rows) + Preimages(w.log.rows)))
    ensures v.events.Keys == w.events.Keys && v.params.Keys == w.params.Keys == params.Keys
    ensures forall id :: id in v.events ==> v.events[id].status == w.events[id].status
    ensures forall id :: id in params && !params[id].isSensitive ==> v.params[id].active == w.params[id].active
    ensures SameKeys(v.store, w.store)
  {
    hide Reaches;
    hide Seeded;
    hide SameRows;
    hide SameKeys;
    hide SameValues;
    hide Sound;
    hide WellBuilt;
    hide ActiveValues;
    hide Payload.Sha256;
    hide AuditTheorems.WellFormedRows;
    hide AuditTheorems.CollisionFreeOn;
    hide AnomalyTheorems.NoStrays;
    hide Preimages;
    ReachesSound(c, params, slots, m, xs, v);
    ReachesSound(c, params, slots, n, ys, w);
    RootPinsState(c, digest, v, ActiveValues(params), w, ActiveValues(params));
    forall id | id in params && !params[id].isSensitive ensures v.params[id].active == w.params[id].active {
      SameActiveValues(params, v, w, id);
    }
  }
}
