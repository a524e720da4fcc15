/** Conservation of staged changes, and the refinement of parameter values by the PARAMETER_UPDATED entries. */
module ConfigParamTheorems {
  import opened Prelude
  import opened PyText
  import opened Json
  import Clock
  import opened Metadata
  import opened Sanitize
  import opened Audit
  import opened ConfigParams

  // ---------------------------------------------------------------- staging invariant

  ghost predicate Carried(changes: seq<Change>, id: Id, value: Str) {
    exists i :: 0 <= i < |changes| && IsPendingFor(changes[i], id) && changes[i].newValue == value
  }

  /** A staged value differs from the active one and some pending change carries it. */
  ghost predicate StagingOk(db: Db) {
    forall id :: id in db.params && db.params[id].pending.Some? ==>
      db.params[id].pending.value != db.params[id].active && Carried(db.changes, id, db.params[id].pending.value)
  }

  lemma StageKeeps(db: Db, id: Id, value: Str, changedBy: Str)
    requires StagingOk(db) && Stage(db, id, value, changedBy).Ok?
    ensures StagingOk(Stage(db, id, value, changedBy).value)
  {
    hide ValidValue;
    var t := Stage(db, id, value, changedBy).value;
    forall q | q in t.params && t.params[q].pending.Some?
      ensures t.params[q].pending.value != t.params[q].active && Carried(t.changes, q, t.params[q].pending.value)
    {
      if q == id {
        assert IsPendingFor(t.changes[|db.changes|], q);
      } else {
        var i :| 0 <= i < |db.changes| && IsPendingFor(db.changes[i], q) && db.changes[i].newValue == db.params[q].pending.value;
        assert t.changes[i] == db.changes[i];
      }
    }
  }

  lemma RevertKeeps(db: Db, id: Id)
    requires StagingOk(db) && Revert(db, id).Ok?
    ensures StagingOk(Revert(db, id).value)
    ensures forall i :: 0 <= i < |db.changes| ==> !IsPendingFor(Revert(db, id).value.changes[i], id)
  {
    var t := Revert(db, id).value;
    forall q | q in t.params && t.params[q].pending.Some?
      ensures t.params[q].pending.value != t.params[q].active && Carried(t.changes, q, t.params[q].pending.value)
    {
      var i :| 0 <= i < |db.changes| && IsPendingFor(db.changes[i], q) && db.changes[i].newValue == db.params[q].pending.value;
      assert t.changes[i] == db.changes[i];
    }
  }

  // ---------------------------------------------------------------- what an apply does

  /** The parameters after every staged value was promoted. */
  ghost function Promoted(params: map<Id, Parameter>, turns: seq<Turn>): map<Id, Parameter>
    requires forall i :: 0 <= i < |turns| ==> turns[i].id in params && params[turns[i].id].pending.Some?
  {
    map id | id in params ::
      if HasTurn(turns, id) && params[id].pending.Some? then params[id].(active := params[id].pending.value, pending := None)
      else params[id]
  }

  ghost predicate HasTurn(turns: seq<Turn>, id: Id) {
    exists i :: 0 <= i < |turns| && turns[i].id == id
  }

  lemma HasTurnStep(turns: seq<Turn>, id: Id)
    requires turns != []
    ensures HasTurn(turns, id) <==> HasTurn(turns[..|turns|-1], id) || turns[|turns|-1].id == id
  {
    var n := |turns| - 1;
    assert forall i :: 0 <= i < n ==> turns[..n][i] == turns[i];
    if HasTurn(turns[..n], id) {
      var i :| 0 <= i < n && turns[..n][i].id == id;
      assert turns[i].id == id;
    }
  }

  ghost function CountStatus(changes: seq<Change>, status: ChangeStatus): nat {
    if changes == [] then 0
    else (if changes[|changes|-1].status == status then 1 else 0) + CountStatus(changes[..|changes|-1], status)
  }

  lemma {:induction false} CountUpdate(changes: seq<Change>, i: nat, c: Change, status: ChangeStatus)
    requires i < |changes|
    ensures CountStatus(changes[i := c], status)
         == CountStatus(changes, status) - (if changes[i].status == status then 1 else 0) + (if c.status == status then 1 else 0)
  {
    var n := |changes| - 1;
    if i == n {
      assert changes[i := c][..n] == changes[..n];
    } else {
      assert changes[i := c][..n] == changes[..n][i := c];
      CountUpdate(changes[..n], i, c, status);
    }
  }

  /** The turns are distinct parameters with staged values, each closing one of its own pending changes. */
  ghost predicate Fits(db: Db, turns: seq<Turn>) {
    (forall i, j :: 0 <= i < j < |turns| ==> turns[i].id != turns[j].id) &&
    forall i :: 0 <= i < |turns| ==>
      turns[i].id in db.params && db.params[turns[i].id].pending.Some? &&
      turns[i].pick.Some? && turns[i].pick.value < |db.changes| && IsPendingFor(db.changes[turns[i].pick.value], turns[i].id)
  }

  /** With every staged value carried by a pending change, the change each turn picks exists. */
  lemma SelectionFits(db: Db, turns: seq<Turn>)
    requires StagingOk(db) && IsSelection(turns, db)
    ensures Fits(db, turns)
  {
    forall i | 0 <= i < |turns| ensures turns[i].pick.Some? {
      assert IsFirstPending(db.changes, turns[i].id, turns[i].pick);
      assert Carried(db.changes, turns[i].id, db.params[turns[i].id].pending.value);
    }
  }

  /** A turn's effect: its own parameter promoted and its own change closed. */
  ghost predicate TurnApplied(u: Db, t: Turn, v: Db)
    requires t.id in u.params && u.params[t.id].pending.Some? && t.pick.Some? && t.pick.value < |u.changes|
  {
    var p := u.params[t.id];
    v.params == u.params[t.id := p.(active := p.pending.value, pending := None)] &&
    v.changes == u.changes[t.pick.value := u.changes[t.pick.value].(status := AppliedChange, appliedAt := Some(t.now))]
  }

  lemma ApplyOneEffect(c: Crypto, db: Db, w: Who, t: Turn)
    requires t.id in db.params && db.params[t.id].pending.Some?
    requires t.pick.Some? && t.pick.value < |db.changes|
    ensures TurnApplied(db, t, ApplyOne(c, db, w, t).db)
  {
    hide Append;
    hide UpdateDraft;
  }

  /** Changes not picked are untouched, and none changes what it is about. */
  ghost predicate ChangesKept(before: seq<Change>, turns: seq<Turn>, after: seq<Change>)
    requires |after| == |before|
  {
    (forall i :: 0 <= i < |before| && (forall k :: 0 <= k < |turns| ==> turns[k].pick != Some(i)) ==> after[i] == before[i]) &&
    forall i :: 0 <= i < |before| ==> after[i].parameterId == before[i].parameterId && after[i].newValue == before[i].newValue
  }

  lemma ChangesKeptStep(before: seq<Change>, turns: seq<Turn>, mid: seq<Change>, at: nat, now: int)
    requires turns != [] && |mid| == |before| && at < |mid| && turns[|turns|-1].pick == Some(at)
    requires ChangesKept(before, turns[..|turns|-1], mid)
    ensures ChangesKept(before, turns, mid[at := mid[at].(status := AppliedChange, appliedAt := Some(now))])
  {
    var n, after := |turns| - 1, mid[at := mid[at].(status := AppliedChange, appliedAt := Some(now))];
    assert forall k :: 0 <= k < n ==> turns[..n][k] == turns[k];
    forall i | 0 <= i < |before| && (forall k :: 0 <= k < |turns| ==> turns[k].pick != Some(i)) ensures after[i] == before[i] {
      assert turns[n].pick != Some(i);
    }
  }

  /** How a partly applied database relates to the one the loop started from. */
  ghost predicate Progress(db: Db, turns: seq<Turn>, u: Db)
    requires Fits(db, turns)
  {
    u.params == Promoted(db.params, turns) && |u.changes| == |db.changes| &&
    ChangesKept(db.changes, turns, u.changes) &&
    CountStatus(u.changes, PendingChange) == CountStatus(db.changes, PendingChange) - |turns| &&
    CountStatus(u.changes, AppliedChange) == CountStatus(db.changes, AppliedChange) + |turns|
  }

  lemma FitsPrefix(db: Db, turns: seq<Turn>)
    requires turns != [] && Fits(db, turns)
    ensures Fits(db, turns[..|turns|-1])
    ensures forall k :: 0 <= k < |turns| - 1 ==> turns[k].pick != turns[|turns|-1].pick
  {
    var n := |turns| - 1;
    forall k | 0 <= k < n ensures turns[k].pick != turns[n].pick {
      assert turns[k].id != turns[n].id;
    }
  }

  lemma ProgressStep(db: Db, turns: seq<Turn>, u: Db, v: Db)
    requires turns != [] && Fits(db, turns) && Fits(db, turns[..|turns|-1]) && Progress(db, turns[..|turns|-1], u)
    requires forall k :: 0 <= k < |turns| - 1 ==> turns[k].pick != turns[|turns|-1].pick
    requires u.params[turns[|turns|-1].id] == db.params[turns[|turns|-1].id]
    requires u.changes[turns[|turns|-1].pick.value] == db.changes[turns[|turns|-1].pick.value]
    requires TurnApplied(u, turns[|turns|-1], v)
    ensures Progress(db, turns, v)
  {
    hide IsPendingFor;
    var n := |turns| - 1;
    var t := turns[n];
    Pendingness(db.changes[t.pick.value], t.id);
    CountUpdate(u.changes, t.pick.value, v.changes[t.pick.value], PendingChange);
    CountUpdate(u.changes, t.pick.value, v.changes[t.pick.value], AppliedChange);
    assert v.params == Promoted(db.params, turns) by { PromotedStep(db, turns); }
    ChangesKeptStep(db.changes, turns, u.changes, t.pick.value, t.now);
    hide Promoted;
    hide ChangesKept;
    hide CountStatus;
  }

  lemma Pendingness(c: Change, id: Id)
    requires IsPendingFor(c, id)
    ensures c.status == PendingChange && c.parameterId == id
  {}

  lemma PromotedStep(db: Db, turns: seq<Turn>)
    requires turns != [] && Fits(db, turns) && Fits(db, turns[..|turns|-1])
    ensures var n := |turns| - 1; var id := turns[n].id; var front := Promoted(db.params, turns[..n]);
            front[id] == db.params[id] &&
            Promoted(db.params, turns) == front[id := db.params[id].(active := db.params[id].pending.value, pending := None)]
  {
    hide IsPendingFor;
    var n := |turns| - 1;
    var front := Promoted(db.params, turns[..n]);
    var id := turns[n].id;
    assert !HasTurn(turns[..n], id);
    hide Fits;
    forall q ensures HasTurn(turns, q) <==> HasTurn(turns[..n], q) || id == q { HasTurnStep(turns, q); }
    hide HasTurn;
    assert Promoted(db.params, turns) == front[id := db.params[id].(active := db.params[id].pending.value, pending := None)];
  }

  /** A committed apply promotes each staged value and turns exactly one change per parameter from PENDING to APPLIED. */
  lemma {:induction false} ApplyProgress(c: Crypto, db: Db, w: Who, turns: seq<Turn>)
    requires Fits(db, turns) && ApplyAll(c, db, w, turns).ok
    ensures Progress(db, turns, ApplyAll(c, db, w, turns).db)
    decreases |turns|
  {
    hide ApplyOne;
    if turns == [] {
      assert db.params == Promoted(db.params, turns);
    } else {
      var n := |turns| - 1;
      FitsPrefix(db, turns);
      ApplyProgress(c, db, w, turns[..n]);
      var u := ApplyAll(c, db, w, turns[..n]).db;
      var t := turns[n];
      PromotedStep(db, turns);
      assert u.changes[t.pick.value] == db.changes[t.pick.value];
      ApplyOneEffect(c, u, w, t);
      ProgressStep(db, turns, u, ApplyOne(c, u, w, t).db);
    }
  }

  /** The change each turn picks was pending, is now applied at the turn's time, and is otherwise as it was. */
  lemma {:induction false} ApplyPicks(c: Crypto, db: Db, w: Who, turns: seq<Turn>, k: nat)
    requires Fits(db, turns) && ApplyAll(c, db, w, turns).ok && k < |turns|
    ensures var u, at := ApplyAll(c, db, w, turns).db, turns[k].pick.value;
            |u.changes| == |db.changes| && db.changes[at].status == PendingChange &&
            u.changes[at] == db.changes[at].(status := AppliedChange, appliedAt := Some(turns[k].now))
    decreases |turns|
  {
    hide ApplyOne;
    hide CountStatus;
    var n := |turns| - 1;
    FitsPrefix(db, turns);
    ApplyProgress(c, db, w, turns[..n]);
    var u, t := ApplyAll(c, db, w, turns[..n]).db, turns[n];
    assert IsPendingFor(db.changes[turns[k].pick.value], turns[k].id);
    PromotedStep(db, turns);
    hide Promoted;
    ApplyOneEffect(c, u, w, t);
    if k == n {
      Untouched(db.changes, turns, u.changes);
    } else {
      ApplyPicks(c, db, w, turns[..n], k);
      assert turns[k].pick != turns[n].pick;
    }
  }

  lemma Untouched(before: seq<Change>, turns: seq<Turn>, after: seq<Change>)
    requires turns != [] && |after| == |before| && ChangesKept(before, turns[..|turns|-1], after)
    requires turns[|turns|-1].pick.Some? && turns[|turns|-1].pick.value < |before|
    requires forall k :: 0 <= k < |turns| - 1 ==> turns[k].pick != turns[|turns|-1].pick
    ensures after[turns[|turns|-1].pick.value] == before[turns[|turns|-1].pick.value]
  {
    var n := |turns| - 1;
    assert forall k :: 0 <= k < n ==> turns[..n][k].pick != Some(turns[n].pick.value);
  }

  /** Conservation: an apply over the database's selection leaves nothing staged and closes one change per parameter. */
  lemma ApplyConserves(c: Crypto, db: Db, w: Who, turns: seq<Turn>)
    requires StagingOk(db) && IsSelection(turns, db) && ApplyAll(c, db, w, turns).ok
    ensures var u := ApplyAll(c, db, w, turns).db;
            (forall id :: id in u.params ==> u.params[id].pending.None?) && StagingOk(u) &&
            (forall id :: id in db.params ==>
               var p := db.params[id];
               id in u.params && u.params[id].active == if p.pending.Some? then p.pending.value else p.active) &&
            CountStatus(u.changes, PendingChange) == CountStatus(db.changes, PendingChange) - |turns| &&
            CountStatus(u.changes, AppliedChange) == CountStatus(db.changes, AppliedChange) + |turns|
  {
    hide ApplyAll;
    SelectionFits(db, turns);
    ApplyProgress(c, db, w, turns);
  }

  // ---------------------------------------------------------------- dashboard and overview

  ghost function InTier(ps: seq<Parameter>, t: Tier): nat {
    if ps == [] then 0 else (if ps[|ps|-1].tier == t then 1 else 0) + InTier(ps[..|ps|-1], t)
  }

  ghost function PendingInTier(ps: seq<Parameter>, t: Tier): nat {
    if ps == [] then 0
    else (if ps[|ps|-1].tier == t && HasPendingChange(ps[|ps|-1]) then 1 else 0) + PendingInTier(ps[..|ps|-1], t)
  }

  /** The dashboard's count: `pending_value is not null`. */
  ghost function Staged(ps: seq<Parameter>): nat {
    if ps == [] then 0 else (if ps[|ps|-1].pending.Some? then 1 else 0) + Staged(ps[..|ps|-1])
  }

  /** A tier appears when it has parameters, with their number and how many show a change. */
  ghost predicate Summarizes(ps: seq<Parameter>, counts: map<Tier, (nat, nat)>) {
    forall t :: (t in counts <==> InTier(ps, t) > 0) && (t in counts ==> counts[t] == (InTier(ps, t), PendingInTier(ps, t)))
  }

  lemma {:induction false} EmptyTier(ps: seq<Parameter>, t: Tier)
    requires InTier(ps, t) == 0
    ensures PendingInTier(ps, t) == 0
  {
    if ps != [] { EmptyTier(ps[..|ps|-1], t); }
  }

  /** The per-tier totals of `get_config_manager_overview`. */
  method TierSummary(ps: seq<Parameter>) returns (counts: map<Tier, (nat, nat)>)
    ensures Summarizes(ps, counts)
  {
    counts := map[];
    for i := 0 to |ps|
      invariant Summarizes(ps[..i], counts)
    {
      assert ps[..i+1][..i] == ps[..i] && ps[..i+1][i] == ps[i];
      var p := ps[i];
      if p.tier !in counts {
        EmptyTier(ps[..i], p.tier);
        counts := counts[p.tier := (0, 0)];
      }
      var current := counts[p.tier];
      counts := counts[p.tier := (current.0 + 1, if HasPendingChange(p) then current.1 + 1 else current.1)];
    }
    assert ps[..|ps|] == ps;
  }

  ghost function PendingOf(counts: map<Tier, (nat, nat)>, t: Tier): nat {
    if t in counts then counts[t].1 else 0
  }

  lemma {:induction false} TiersPartition(ps: seq<Parameter>)
    requires forall i :: 0 <= i < |ps| && ps[i].pending.Some? ==> ps[i].pending.value != ps[i].active
    ensures Staged(ps) == PendingInTier(ps, CriticalTier) + PendingInTier(ps, NecessaryTier) + PendingInTier(ps, OptionalTier)
  {
    if ps != [] { TiersPartition(ps[..|ps|-1]); }
  }

  /** The dashboard counts staged values, the overview counts visible changes per tier: the totals agree. */
  lemma DashboardMatchesOverview(db: Db, ps: seq<Parameter>, counts: map<Tier, (nat, nat)>)
    requires StagingOk(db) && Summarizes(ps, counts)
    requires forall i :: 0 <= i < |ps| ==> exists id :: id in db.params && db.params[id] == ps[i]
    ensures Staged(ps) == PendingOf(counts, CriticalTier) + PendingOf(counts, NecessaryTier) + PendingOf(counts, OptionalTier)
  {
    TiersPartition(ps);
    forall t | t !in counts ensures PendingInTier(ps, t) == 0 { EmptyTier(ps, t); }
  }

  // ---------------------------------------------------------------- replaying the log

  /** One recorded update of a parameter, as the log shows it. */
  datatype Recorded = Recorded(previous: Option<Json>, next: Option<Json>)

  predicate IsUpdateOf(e: Content, key: Str) {
    e.eventType == ConfigChange && e.eventSubtype == PARAMETER_UPDATED && Get(e.metadata, Key(ParameterKey)) == Some(JStr(key))
  }

  function ToRecorded(e: Content): Recorded {
    Recorded(Get(e.metadata, Key(PreviousValue)), Get(e.metadata, Key(NewValue)))
  }

  /** The PARAMETER_UPDATED entries of one key, in sequence order. */
  function UpdatesOf(rows: seq<Entry>, key: Str): seq<Recorded> {
    if rows == [] then []
    else
      var e := rows[|rows|-1].content;
      var before := UpdatesOf(rows[..|rows|-1], key);
      if IsUpdateOf(e, key) then before + [ToRecorded(e)] else before
  }

  lemma UpdatesStep(rows: seq<Entry>, e: Entry, key: Str)
    ensures UpdatesOf(rows + [e], key)
         == if IsUpdateOf(e.content, key) then UpdatesOf(rows, key) + [ToRecorded(e.content)] else UpdatesOf(rows, key)
  {
    assert (rows + [e])[..|rows|] == rows;
  }

  /** The updates lead from the initial value to the current one, each starting where the one before ended. */
  ghost predicate Traces(us: seq<Recorded>, initial: Str, current: Str) {
    if us == [] then initial == current
    else
      us[0].previous == Some(JStr(initial)) &&
      (forall i :: 0 < i < |us| ==> us[i].previous.Some? && us[i].previous == us[i-1].next) &&
      us[|us|-1].next == Some(JStr(current))
  }

  /** Folding the updates over an initial value. */
  ghost function Replay(us: seq<Recorded>, initial: Json): Json {
    if us == [] then initial else match us[|us|-1].next case Some(v) => v case None => Replay(us[..|us|-1], initial)
  }

  lemma TracesReplay(us: seq<Recorded>, initial: Str, current: Str)
    requires Traces(us, initial, current)
    ensures Replay(us, JStr(initial)) == JStr(current)
  {}

  lemma TracesExtends(us: seq<Recorded>, initial: Str, current: Str, u: Recorded, next: Str)
    requires Traces(us, initial, current) && u.previous == Some(JStr(current)) && u.next == Some(JStr(next))
    ensures Traces(us + [u], initial, next)
  {}

  lemma ForgedTraces(us: seq<Recorded>, initial: Str, current: Str, u: Recorded)
    requires Traces(us, initial, current) && Traces(us + [u], initial, current)
    ensures u.previous == Some(JStr(current)) && u.next == Some(JStr(current))
  {
    assert (us + [u])[|us|] == u;
    if us != [] { assert (us + [u])[|us|-1] == us[|us|-1]; }
  }

  ghost predicate UniqueKeys(db: Db) {
    forall a, b :: a in db.params && b in db.params && db.params[a].key == db.params[b].key ==> a == b
  }

  /** The updates of every non-sensitive parameter chain from its initial to its active value. */
  ghost predicate ChainOk(db: Db, initial: map<Id, Str>) {
    forall id :: id in db.params && !db.params[id].isSensitive ==>
      id in initial && Traces(UpdatesOf(db.log.rows, db.params[id].key), initial[id], db.params[id].active)
  }

  lemma FieldsPlain(f: Field)
    ensures !Sensitive(Key(f))
  {
    PlainName(Name(f));
  }

  /** What the entry of an applied parameter says, under which names. */
  lemma UpdateSays(p: Parameter, previous: Str, next: Str, w: Who)
    ensures var d := UpdateDraft(p, previous, next, w.changedBy, w.text);
            d.severity == Info && d.eventType == ConfigChange && d.eventSubtype == Py("PARAMETER_UPDATED") && d.actor == w.changedBy &&
            Get(d.metadata, Py("parameter_key")) == Some(JStr(p.key)) &&
            Get(d.metadata, Py("previous_value")) == Some(JStr(if p.isSensitive then Py("[REDACTED]") else previous)) &&
            Get(d.metadata, Py("new_value")) == Some(JStr(if p.isSensitive then Py("[REDACTED]") else next)) &&
            Get(d.metadata, Py("requires_restart")) == Some(JBool(p.requiresRestart))
  {
    KeysDistinct();
    KeyedAt(FIELDS, f => Key(f), f => Value(p, previous, next, f), ParameterKey);
    KeyedAt(FIELDS, f => Key(f), f => Value(p, previous, next, f), PreviousValue);
    KeyedAt(FIELDS, f => Key(f), f => Value(p, previous, next, f), NewValue);
    KeyedAt(FIELDS, f => Key(f), f => Value(p, previous, next, f), RequiresRestart);
  }

  lemma LoggedField(p: Parameter, previous: Str, next: Str, f: Field)
    ensures Get(Sanitized(JObj(UpdateMetadata(p, previous, next))).fields, Key(f)) == Some(Value(p, previous, next, f))
  {
    hide Key;
    assert Get(UpdateMetadata(p, previous, next), Key(f)) == Some(Value(p, previous, next, f)) by {
      hide Value;
      KeysDistinct();
      KeyedAt(FIELDS, f => Key(f), f => Value(p, previous, next, f), f);
      assert f in FIELDS;
    }
    hide UpdateMetadata;
    FieldsPlain(f);
    SanitizedGet(UpdateMetadata(p, previous, next), Key(f));
  }

  /** An applied parameter's entry is found by its key alone and records both values as shown. */
  lemma LoggedUpdate(c: Crypto, log: Log, p: Parameter, previous: Str, next: Str, w: Who, s: Stamp)
    ensures var e := NewEntry(c, log, UpdateDraft(p, previous, next, w.changedBy, w.text), s).content;
            (forall key :: IsUpdateOf(e, key) <==> key == p.key) &&
            ToRecorded(e) == Recorded(Some(JStr(Shown(p, previous))), Some(JStr(Shown(p, next))))
  {
    hide UpdateMetadata;
    hide Sanitized;
    hide Key;
    hide Shown;
    LoggedField(p, previous, next, ParameterKey);
    LoggedField(p, previous, next, PreviousValue);
    LoggedField(p, previous, next, NewValue);
  }

  /** A committed turn records one update of its own key and of no other. */
  lemma TurnRecords(c: Crypto, db: Db, w: Who, t: Turn, key: Str)
    requires Applicable(db, t) && ApplyOne(c, db, w, t).ok
    ensures var p := db.params[t.id]; var u := ApplyOne(c, db, w, t).db;
            UpdatesOf(u.log.rows, key) ==
              if key == p.key
              then UpdatesOf(db.log.rows, key) + [Recorded(Some(JStr(Shown(p, p.active))), Some(JStr(Shown(p, p.pending.value))))]
              else UpdatesOf(db.log.rows, key)
  {
    hide UpdateDraft;
    hide Shown;
    var p := db.params[t.id];
    var e := NewEntry(c, db.log, UpdateDraft(p, p.active, p.pending.value, w.changedBy, w.text), t.stamp);
    LoggedUpdate(c, db.log, p, p.active, p.pending.value, w, t.stamp);
    UpdatesStep(db.log.rows, e, key);
  }

  lemma TurnParams(c: Crypto, db: Db, w: Who, t: Turn)
    requires Applicable(db, t)
    ensures var p := db.params[t.id];
            ApplyOne(c, db, w, t).db.params == db.params[t.id := p.(active := p.pending.value, pending := None)]
  {
    hide Append;
    hide UpdateDraft;
  }

  lemma TurnKeepsChain(c: Crypto, db: Db, w: Who, t: Turn, initial: map<Id, Str>)
    requires UniqueKeys(db) && ChainOk(db, initial) && ApplyOne(c, db, w, t).ok
    ensures UniqueKeys(ApplyOne(c, db, w, t).db) && ChainOk(ApplyOne(c, db, w, t).db, initial)
  {
    assert Applicable(db, t);
    hide ApplyOne;
    hide UpdatesOf;
    hide Traces;
    var u := ApplyOne(c, db, w, t).db;
    TurnParams(c, db, w, t);
    forall id | id in u.params && !u.params[id].isSensitive
      ensures id in initial && Traces(UpdatesOf(u.log.rows, u.params[id].key), initial[id], u.params[id].active)
    {
      TurnRecords(c, db, w, t, db.params[id].key);
      if id == t.id {
        TracesExtends(UpdatesOf(db.log.rows, db.params[id].key), initial[id], db.params[id].active,
                      Recorded(Some(JStr(db.params[id].active)), Some(JStr(db.params[id].pending.value))), db.params[id].pending.value);
      }
    }
  }

  /** A committed apply keeps the log and the values in step; a refused one is rolled back, so it keeps them too. */
  lemma {:induction false} ApplyKeepsChain(c: Crypto, db: Db, w: Who, turns: seq<Turn>, initial: map<Id, Str>)
    requires UniqueKeys(db) && ChainOk(db, initial) && ApplyAll(c, db, w, turns).ok
    ensures UniqueKeys(ApplyAll(c, db, w, turns).db) && ChainOk(ApplyAll(c, db, w, turns).db, initial)
    decreases |turns|
  {
    hide ApplyOne;
    hide ChainOk;
    hide UniqueKeys;
    if turns != [] {
      ApplyKeepsChain(c, db, w, turns[..|turns|-1], initial);
      TurnKeepsChain(c, ApplyAll(c, db, w, turns[..|turns|-1]).db, w, turns[|turns|-1], initial);
    }
  }

  /** A client's own entry about a non-sensitive parameter leads from its active value to itself. */
  ghost predicate Restating(db: Db, d: Draft) {
    var logged := Logged(d);
    forall id :: id in db.params && !db.params[id].isSensitive && IsUpdateOf(logged, db.params[id].key) ==>
      ToRecorded(logged) == Recorded(Some(JStr(db.params[id].active)), Some(JStr(db.params[id].active)))
  }

  /** A client's own entry keeps the updates chained if and only if it restates the value on both sides. */
  lemma DirectKeepsChain(c: Crypto, db: Db, d: Draft, s: Stamp, initial: map<Id, Str>)
    requires ChainOk(db, initial) && Append(c, db.log, d, s).ok
    ensures ChainOk(db.(log := Append(c, db.log, d, s).log), initial) <==> Restating(db, d)
  {
    hide Traces;
    hide Key;
    var t := db.(log := Append(c, db.log, d, s).log);
    var n := NewEntry(c, db.log, d, s);
    var logged := Logged(d);
    assert n.content == logged.(occurredAt := s.now);
    forall id | id in db.params && !db.params[id].isSensitive
      ensures Traces(UpdatesOf(t.log.rows, db.params[id].key), initial[id], db.params[id].active) <==>
              (IsUpdateOf(logged, db.params[id].key) ==>
                 ToRecorded(logged) == Recorded(Some(JStr(db.params[id].active)), Some(JStr(db.params[id].active))))
    {
      var key, us := db.params[id].key, UpdatesOf(db.log.rows, db.params[id].key);
      UpdatesStep(db.log.rows, n, key);
      if IsUpdateOf(logged, key) {
        if Traces(us + [ToRecorded(logged)], initial[id], db.params[id].active) {
          ForgedTraces(us, initial[id], db.params[id].active, ToRecorded(logged));
        }
        if ToRecorded(logged) == Recorded(Some(JStr(db.params[id].active)), Some(JStr(db.params[id].active))) {
          TracesExtends(us, initial[id], db.params[id].active, ToRecorded(logged), db.params[id].active);
        }
      }
    }
  }

  // ---------------------------------------------------------------- the folded value alone

  /** Folding the log over the initial values gives every non-sensitive parameter's active value. */
  ghost predicate FoldOk(db: Db, initial: map<Id, Str>) {
    forall id :: id in db.params && !db.params[id].isSensitive ==>
      id in initial && Replay(UpdatesOf(db.log.rows, db.params[id].key), JStr(initial[id])) == JStr(db.params[id].active)
  }

  lemma ChainFolds(db: Db, initial: map<Id, Str>)
    requires ChainOk(db, initial)
    ensures FoldOk(db, initial)
  {
    hide Traces;
    hide UpdatesOf;
    forall id | id in db.params && !db.params[id].isSensitive
      ensures Replay(UpdatesOf(db.log.rows, db.params[id].key), JStr(initial[id])) == JStr(db.params[id].active)
    {
      TracesReplay(UpdatesOf(db.log.rows, db.params[id].key), initial[id], db.params[id].active);
    }
  }

  lemma ReplayStep(us: seq<Recorded>, u: Recorded, initial: Json)
    ensures Replay(us + [u], initial) == match u.next case Some(v) => v case None => Replay(us, initial)
  {
    assert (us + [u])[..|us|] == us;
  }

  lemma TurnKeepsFold(c: Crypto, db: Db, w: Who, t: Turn, initial: map<Id, Str>)
    requires UniqueKeys(db) && FoldOk(db, initial) && ApplyOne(c, db, w, t).ok
    ensures UniqueKeys(ApplyOne(c, db, w, t).db) && FoldOk(ApplyOne(c, db, w, t).db, initial)
  {
    assert Applicable(db, t);
    hide ApplyOne;
    hide UpdatesOf;
    hide Replay;
    var u := ApplyOne(c, db, w, t).db;
    TurnParams(c, db, w, t);
    forall id | id in u.params && !u.params[id].isSensitive
      ensures id in initial && Replay(UpdatesOf(u.log.rows, u.params[id].key), JStr(initial[id])) == JStr(u.params[id].active)
    {
      var p := db.params[id];
      TurnRecords(c, db, w, t, p.key);
      if id == t.id {
        ReplayStep(UpdatesOf(db.log.rows, p.key), Recorded(Some(JStr(p.active)), Some(JStr(p.pending.value))), JStr(initial[id]));
      }
    }
  }

  lemma {:induction false} ApplyKeepsFold(c: Crypto, db: Db, w: Who, turns: seq<Turn>, initial: map<Id, Str>)
    requires UniqueKeys(db) && FoldOk(db, initial) && ApplyAll(c, db, w, turns).ok
    ensures UniqueKeys(ApplyAll(c, db, w, turns).db) && FoldOk(ApplyAll(c, db, w, turns).db, initial)
    decreases |turns|
  {
    hide ApplyOne;
    hide FoldOk;
    hide UniqueKeys;
    if turns != [] {
      ApplyKeepsFold(c, db, w, turns[..|turns|-1], initial);
      TurnKeepsFold(c, ApplyAll(c, db, w, turns[..|turns|-1]).db, w, turns[|turns|-1], initial);
    }
  }

  /** A client's own entry about a non-sensitive parameter names no new value, or the active one. */
  ghost predicate Neutral(db: Db, d: Draft) {
    forall id :: id in db.params && !db.params[id].isSensitive && IsUpdateOf(Logged(d), db.params[id].key) ==>
      var next := ToRecorded(Logged(d)).next;
      next.None? || next == Some(JStr(db.params[id].active))
  }

  /** A client's own entry leaves the folded values right if and only if it is neutral. */
  lemma DirectKeepsFold(c: Crypto, db: Db, d: Draft, s: Stamp, initial: map<Id, Str>)
    requires FoldOk(db, initial) && Append(c, db.log, d, s).ok
    ensures FoldOk(db.(log := Append(c, db.log, d, s).log), initial) <==> Neutral(db, d)
  {
    hide Replay;
    hide Key;
    var t := db.(log := Append(c, db.log, d, s).log);
    var n, u := NewEntry(c, db.log, d, s), ToRecorded(Logged(d));
    assert n.content == Logged(d).(occurredAt := s.now);
    forall id | id in db.params && !db.params[id].isSensitive
      ensures Replay(UpdatesOf(t.log.rows, db.params[id].key), JStr(initial[id])) == JStr(db.params[id].active) <==>
              (IsUpdateOf(Logged(d), db.params[id].key) ==> u.next.None? || u.next == Some(JStr(db.params[id].active)))
    {
      var us := UpdatesOf(db.log.rows, db.params[id].key);
      UpdatesStep(db.log.rows, n, db.params[id].key);
      ReplayStep(us, u, JStr(initial[id]));
    }
  }

  // ---------------------------------------------------------------- runs

  datatype Command =
    | StageCmd(id: Id, value: Str, changedBy: Str)
    | RevertCmd(id: Id)
    | ApplyCmd(w: Who, turns: seq<Turn>, fails: bool)

  /** One transaction. An apply that fails anywhere keeps nothing but the advanced identity counter. */
  ghost function Next(c: Crypto, db: Db, i: Input<Command>): Db {
    match i
    case Serve(StageCmd(id, value, changedBy)) => (match Stage(db, id, value, changedBy) case Ok(t) => t case Err(_) => db)
    case Serve(RevertCmd(id)) => (match Revert(db, id) case Ok(t) => t case Err(_) => db)
    case Serve(ApplyCmd(w, turns, fails)) =>
      var t := ApplyAll(c, db, w, turns);
      if t.ok && !fails then t.db else db.(log := Log(db.log.rows, t.db.log.nextSequence))
    case Post(d, s) => db.(log := Append(c, db.log, d, s).log)
  }

  /** A client's own entry is refused or neutral. */
  ghost predicate Harmless(c: Crypto, db: Db, i: Input<Command>) {
    i.Post? && Append(c, db.log, i.d, i.s).ok ==> Neutral(db, i.d)
  }

  /** A client's own entry is refused or restates the value. */
  ghost predicate InChain(c: Crypto, db: Db, i: Input<Command>) {
    i.Post? && Append(c, db.log, i.d, i.s).ok ==> Restating(db, i.d)
  }

  /** The entry the service would write on changing this parameter, posted by a client without changing it. */
  function ForgedDraft(p: Parameter, other: Str): Draft {
    UpdateDraft(p, p.active, other, [], (key, previous, next) => [])
  }

  /** Whatever the keys and hashes, once a forged update of a non-sensitive parameter is accepted its folded value is wrong. */
  lemma ForgedUpdate(c: Crypto, db: Db, id: Id, other: Str, s: Stamp, initial: map<Id, Str>)
    requires FoldOk(db, initial) && id in db.params && !db.params[id].isSensitive && other != db.params[id].active
    requires Append(c, db.log, ForgedDraft(db.params[id], other), s).ok
    ensures !FoldOk(db.(log := Append(c, db.log, ForgedDraft(db.params[id], other), s).log), initial)
  {
    hide UpdateDraft;
    hide Replay;
    hide UpdatesOf;
    var p, d := db.params[id], ForgedDraft(db.params[id], other);
    var e := NewEntry(c, db.log, d, s);
    LoggedUpdate(c, db.log, p, p.active, other, Who([], (key, previous, next) => []), s);
    assert Append(c, db.log, d, s).log.rows == db.log.rows + [e];
    UpdatesStep(db.log.rows, e, p.key);
    ReplayStep(UpdatesOf(db.log.rows, p.key), ToRecorded(e.content), JStr(initial[id]));
  }

  lemma NextKeepsChain(c: Crypto, db: Db, i: Input<Command>, initial: map<Id, Str>)
    requires UniqueKeys(db) && ChainOk(db, initial)
    ensures UniqueKeys(Next(c, db, i))
    ensures ChainOk(Next(c, db, i), initial) <==> InChain(c, db, i)
  {
    hide Traces;
    hide UpdatesOf;
    hide ValidValue;
    hide ApplyAll;
    hide Restating;
    match i
    case Serve(ApplyCmd(w, turns, fails)) =>
      if ApplyAll(c, db, w, turns).ok && !fails { ApplyKeepsChain(c, db, w, turns, initial); }
    case Serve(_) =>
    case Post(d, s) =>
      if Append(c, db.log, d, s).ok { DirectKeepsChain(c, db, d, s, initial); }
  }

  /** One transaction keeps the folded values right if and only if it is harmless. */
  lemma NextKeepsFold(c: Crypto, db: Db, i: Input<Command>, initial: map<Id, Str>)
    requires UniqueKeys(db) && FoldOk(db, initial)
    ensures UniqueKeys(Next(c, db, i))
    ensures FoldOk(Next(c, db, i), initial) <==> Harmless(c, db, i)
  {
    hide Replay;
    hide UpdatesOf;
    hide ValidValue;
    hide ApplyAll;
    hide Neutral;
    match i
    case Serve(ApplyCmd(w, turns, fails)) =>
      if ApplyAll(c, db, w, turns).ok && !fails { ApplyKeepsFold(c, db, w, turns, initial); }
    case Serve(_) =>
    case Post(d, s) =>
      if Append(c, db.log, d, s).ok { DirectKeepsFold(c, db, d, s, initial); }
  }

  ghost predicate AlwaysChained(c: Crypto, db: Db, inputs: seq<Input<Command>>, initial: map<Id, Str>)
    decreases |inputs|
  {
    ChainOk(db, initial) && (inputs != [] ==> AlwaysChained(c, Next(c, db, inputs[0]), inputs[1..], initial))
  }

  ghost predicate AllInChain(c: Crypto, db: Db, inputs: seq<Input<Command>>)
    decreases |inputs|
  {
    inputs != [] ==> InChain(c, db, inputs[0]) && AllInChain(c, Next(c, db, inputs[0]), inputs[1..])
  }

  /**
   Over every run, each update starts where the one before ended and the last ends at the active value, at every point,
   if and only if clients' own entries lead from the active value to itself.
   */
  lemma {:induction false} ChainedReplay(c: Crypto, db: Db, inputs: seq<Input<Command>>, initial: map<Id, Str>)
    requires UniqueKeys(db) && ChainOk(db, initial)
    ensures AlwaysChained(c, db, inputs, initial) <==> AllInChain(c, db, inputs)
    decreases |inputs|
  {
    hide ChainOk;
    hide UniqueKeys;
    hide InChain;
    hide Next;
    if inputs != [] {
      NextKeepsChain(c, db, inputs[0], initial);
      if ChainOk(Next(c, db, inputs[0]), initial) {
        ChainedReplay(c, Next(c, db, inputs[0]), inputs[1..], initial);
      }
    }
  }

  ghost predicate AlwaysFolds(c: Crypto, db: Db, inputs: seq<Input<Command>>, initial: map<Id, Str>)
    decreases |inputs|
  {
    FoldOk(db, initial) && (inputs != [] ==> AlwaysFolds(c, Next(c, db, inputs[0]), inputs[1..], initial))
  }

  ghost predicate AllHarmless(c: Crypto, db: Db, inputs: seq<Input<Command>>)
    decreases |inputs|
  {
    inputs != [] ==> Harmless(c, db, inputs[0]) && AllHarmless(c, Next(c, db, inputs[0]), inputs[1..])
  }

  /**
   Over every run, folding the log gives the active values at every point, if and only if clients' own entries name no
   new value or the active one.
   */
  lemma {:induction false} ValuesReplay(c: Crypto, db: Db, inputs: seq<Input<Command>>, initial: map<Id, Str>)
    requires UniqueKeys(db) && FoldOk(db, initial)
    ensures AlwaysFolds(c, db, inputs, initial) <==> AllHarmless(c, db, inputs)
    decreases |inputs|
  {
    hide FoldOk;
    hide UniqueKeys;
    hide Harmless;
    hide Next;
    if inputs != [] {
      NextKeepsFold(c, db, inputs[0], initial);
      if FoldOk(Next(c, db, inputs[0]), initial) {
        ValuesReplay(c, Next(c, db, inputs[0]), inputs[1..], initial);
      }
    }
  }

  /** The smallest such run: a value is staged and applied, and then an entry that undoes it in the log only is accepted. */
  lemma ForgedRun() returns (c: Crypto, db: Db, initial: map<Id, Str>, stage: Command, apply: Command, forged: Input<Command>)
    ensures SignsOwn(c) && stage.StageCmd? && apply.ApplyCmd? && forged.Post? && UniqueKeys(db)
    ensures var applied := Next(c, Next(c, db, Serve(stage)), Serve(apply));
            FoldOk(db, initial) && applied.params != db.params && FoldOk(applied, initial) &&
            Append(c, applied.log, forged.d, forged.s).ok && !FoldOk(Next(c, applied, forged), initial)
  {
    hide UpdateDraft;
    hide Append;
    hide ToyCrypto;
    hide Replay;
    hide FoldOk;
    hide UpdatesOf;
    c := ToyCrypto();
    var k, v := Py("a"), Py("b");
    assert k[0] != v[0];
    var p := Parameter(k, OptionalTier, StringType, k, None, None, false, false);
    db, initial := Db(map[k := p], [], Log([], 1)), map[k := k];
    var s, s' := Stamp(Clock.RawInstant(2024, 1, 1, 0, 0, 0, 0), k), Stamp(Clock.RawInstant(2024, 1, 2, 0, 0, 0, 0), v);
    var w := Who([], (key, previous, next) => []);
    var t := Turn(k, Some(0), 0, s);
    stage, apply := StageCmd(k, v, []), ApplyCmd(w, [t], false);
    forged := Post(ForgedDraft(p.(active := v), k), s');
    SeededReplays(db, initial);
    var staged := Next(c, db, Serve(stage));
    assert staged.params[k] == p.(pending := Some(v)) && staged.log == db.log && |staged.changes| == 1;
    var d := UpdateDraft(staged.params[k], k, v, w.changedBy, w.text);
    TwoAppends(d, s, forged.d, s');
    NextKeepsFold(c, db, Serve(stage), initial);
    assert ApplyAll(c, staged, w, [t][..0]) == Done(staged, true);
    ApplyAllStep(c, staged, w, [t], 0);
    assert [t][..1] == [t];
    assert Applicable(staged, t);
    var applied := Next(c, staged, Serve(apply));
    assert applied.log == Append(c, db.log, d, s).log && applied.params[k] == p.(active := v);
    NextKeepsFold(c, staged, Serve(apply), initial);
    ForgedUpdate(c, applied, k, k, s', initial);
  }

  lemma SeededReplays(db: Db, initial: map<Id, Str>)
    requires db.log.rows == [] && forall id :: id in db.params ==> id in initial && initial[id] == db.params[id].active
    ensures ChainOk(db, initial) && FoldOk(db, initial)
  {}

  /** Each apply in the run works on the rows the database selects at that point. */
  ghost predicate Faithful(c: Crypto, db: Db, inputs: seq<Input<Command>>)
    decreases |inputs|
  {
    inputs != [] ==>
      (inputs[0].Serve? && inputs[0].command.ApplyCmd? ==> IsSelection(inputs[0].command.turns, db)) &&
      Faithful(c, Next(c, db, inputs[0]), inputs[1..])
  }

  lemma NextKeepsStaging(c: Crypto, db: Db, i: Input<Command>)
    requires StagingOk(db) && (i.Serve? && i.command.ApplyCmd? ==> IsSelection(i.command.turns, db))
    ensures StagingOk(Next(c, db, i))
  {
    hide ValidValue;
    hide ApplyAll;
    hide Append;
    match i
    case Serve(StageCmd(id, value, changedBy)) =>
      if Stage(db, id, value, changedBy).Ok? { StageKeeps(db, id, value, changedBy); }
    case Serve(RevertCmd(id)) =>
      if Revert(db, id).Ok? { RevertKeeps(db, id); }
    case Serve(ApplyCmd(w, turns, fails)) =>
      if ApplyAll(c, db, w, turns).ok && !fails { ApplyConserves(c, db, w, turns); }
    case Post(d, s) =>
  }

  ghost function Run(c: Crypto, db: Db, inputs: seq<Input<Command>>): Db
    decreases |inputs|
  {
    if inputs == [] then db else Run(c, Next(c, db, inputs[0]), inputs[1..])
  }

  /** Every run keeps staged values different from active ones and carried by a pending change. */
  lemma {:induction false} RunKeepsStaging(c: Crypto, db: Db, inputs: seq<Input<Command>>)
    requires StagingOk(db) && Faithful(c, db, inputs)
    ensures StagingOk(Run(c, db, inputs))
    decreases |inputs|
  {
    hide StagingOk;
    hide Next;
    if inputs != [] {
      NextKeepsStaging(c, db, inputs[0]);
      RunKeepsStaging(c, Next(c, db, inputs[0]), inputs[1..]);
    }
  }
}
