/** Staged configuration parameters: stage, revert and apply, with the audit entries apply writes. */
module ConfigParams {
  import opened Prelude
  import opened PyText
  import opened Json
  import opened Metadata
  import opened Sanitize
  import opened Audit

  type Id = Str

  datatype Tier = CriticalTier | NecessaryTier | OptionalTier

  datatype ValueType = StringType | IntegerType | BooleanType | DurationType | EnumType | JsonType

  datatype Parameter = Parameter(
    key: Str, tier: Tier, valueType: ValueType, active: Str, pending: Option<Str>, allowedValues: Option<Str>,
    isSensitive: bool, requiresRestart: bool)

  /** `has_pending_change`. */
  predicate HasPendingChange(p: Parameter) {
    p.pending.Some? && p.pending.value != p.active
  }

  datatype ChangeStatus = PendingChange | AppliedChange | RevertedChange

  datatype Change = Change(
    parameterId: Id, previousValue: Str, newValue: Str, changedBy: Str, status: ChangeStatus, appliedAt: Option<int>)

  datatype Db = Db(params: map<Id, Parameter>, changes: seq<Change>, log: Log)

  // ---------------------------------------------------------------- value validation

  predicate IsSpace(c: CodePoint) {
    0x09 <= c <= 0x0D || 0x1C <= c <= 0x20 || c == 0x85 || c == 0xA0 || c == 0x1680 || 0x2000 <= c <= 0x200A ||
    c == 0x2028 || c == 0x2029 || c == 0x202F || c == 0x205F || c == 0x3000
  }

  function StripLeft(s: Str): Str {
    if s != [] && IsSpace(s[0]) then StripLeft(s[1..]) else s
  }

  function StripRight(s: Str): Str {
    if s != [] && IsSpace(s[|s|-1]) then StripRight(s[..|s|-1]) else s
  }

  /** `str.strip()`. */
  function Strip(s: Str): Str {
    StripRight(StripLeft(s))
  }

  /** `str.split(",")`. */
  function SplitCommas(s: Str): seq<Str> {
    if s == [] then [[]]
    else
      var rest := SplitCommas(s[1..]);
      if s[0] == ',' as int then [[]] + rest
      else if rest == [] then [[s[0]]]
      else [[s[0]] + rest[0]] + rest[1..]
  }

  function StripMinus(s: Str): Str {
    if s != [] && s[0] == '-' as int then StripMinus(s[1..]) else s
  }

  predicate AllDigits(s: Str) {
    s != [] && forall i :: 0 <= i < |s| ==> '0' as int <= s[i] <= '9' as int
  }

  /** `_validate_value`. */
  predicate ValidValue(p: Parameter, value: Str) {
    (p.valueType == EnumType && p.allowedValues.Some? && p.allowedValues.value != [] ==>
       exists i :: 0 <= i < |SplitCommas(p.allowedValues.value)| && Strip(SplitCommas(p.allowedValues.value)[i]) == value) &&
    (p.valueType == IntegerType ==> AllDigits(StripMinus(value))) &&
    (p.valueType == BooleanType ==> Lower(value) == Py("true") || Lower(value) == Py("false"))
  }

  // ---------------------------------------------------------------- stage and revert

  predicate IsPendingFor(c: Change, id: Id) {
    c.parameterId == id && c.status == PendingChange
  }

  /** `stage_config_change`. */
  function Stage(db: Db, id: Id, value: Str, changedBy: Str): Result<Db> {
    if id !in db.params then Err(NotFound)
    else
      var p := db.params[id];
      if !ValidValue(p, value) then Err(Unprocessable)
      else if value == p.active then Ok(db.(params := db.params[id := p.(pending := None)]))
      else
        Ok(db.(params := db.params[id := p.(pending := Some(value))],
               changes := db.changes + [Change(id, p.active, value, changedBy, PendingChange, None)]))
  }

  function Reverted(changes: seq<Change>, id: Id): (r: seq<Change>)
    ensures |r| == |changes|
    ensures forall i :: 0 <= i < |changes| ==>
              r[i] == if IsPendingFor(changes[i], id) then changes[i].(status := RevertedChange) else changes[i]
  {
    seq(|changes|, i requires 0 <= i < |changes| =>
      if IsPendingFor(changes[i], id) then changes[i].(status := RevertedChange) else changes[i])
  }

  /** `revert_config_change`. */
  function Revert(db: Db, id: Id): Result<Db> {
    if id !in db.params then Err(NotFound)
    else Ok(db.(params := db.params[id := db.params[id].(pending := None)], changes := Reverted(db.changes, id)))
  }

  // ---------------------------------------------------------------- apply

  datatype Field = ParameterKey | PreviousValue | NewValue | RequiresRestart

  const FIELDS := {ParameterKey, PreviousValue, NewValue, RequiresRestart}

  function Name(f: Field): string {
    match f
    case ParameterKey => "parameter_key"
    case PreviousValue => "previous_value"
    case NewValue => "new_value"
    case RequiresRestart => "requires_restart"
  }

  function Key(f: Field): Str { Py(Name(f)) }

  lemma KeysDistinct()
    ensures forall f, g :: Key(f) == Key(g) ==> f == g
  {
    forall f, g | Key(f) == Key(g) ensures f == g { PyInjective(Name(f), Name(g)); }
  }

  /** What the audit log shows of a value. */
  function Shown(p: Parameter, value: Str): Str {
    if p.isSensitive then Py("[REDACTED]") else value
  }

  function Value(p: Parameter, previous: Str, next: Str, f: Field): Json {
    match f
    case ParameterKey => JStr(p.key)
    case PreviousValue => JStr(Shown(p, previous))
    case NewValue => JStr(Shown(p, next))
    case RequiresRestart => JBool(p.requiresRestart)
  }

  function UpdateMetadata(p: Parameter, previous: Str, next: Str): Object {
    KeysDistinct();
    Keyed(FIELDS, f => Key(f), f => Value(p, previous, next, f))
  }

  const PARAMETER_UPDATED: Str := Py("PARAMETER_UPDATED")

  /** The entry for one applied parameter; `text` renders the description with both values as shown. */
  function UpdateDraft(p: Parameter, previous: Str, next: Str, changedBy: Str, text: (Str, Str, Str) -> Str): Draft {
    Draft(Info, ConfigChange, PARAMETER_UPDATED, changedBy, text(p.key, Shown(p, previous), Shown(p, next)), None, None, None,
          UpdateMetadata(p, previous, next))
  }

  /** `scalars().first()` without an ordering: some pending change of the parameter, or none if there is none. */
  ghost predicate IsFirstPending(changes: seq<Change>, id: Id, pick: Option<nat>) {
    match pick
    case None => forall i :: 0 <= i < |changes| ==> !IsPendingFor(changes[i], id)
    case Some(i) => i < |changes| && IsPendingFor(changes[i], id)
  }

  function Closed(changes: seq<Change>, pick: Option<nat>, now: int): seq<Change>
    requires pick.Some? ==> pick.value < |changes|
  {
    if pick.None? then changes
    else changes[pick.value := changes[pick.value].(status := AppliedChange, appliedAt := Some(now))]
  }

  /** What the environment supplies for one applied parameter. */
  datatype Turn = Turn(id: Id, pick: Option<nat>, now: int, stamp: Stamp)

  datatype Who = Who(changedBy: Str, text: (Str, Str, Str) -> Str)

  datatype Done = Done(db: Db, ok: bool)

  /** The turn names a parameter with a staged value and, if it picks a change, one that exists. */
  predicate Applicable(db: Db, t: Turn) {
    t.id in db.params && db.params[t.id].pending.Some? && (t.pick.Some? ==> t.pick.value < |db.changes|)
  }

  /** One iteration of the apply loop. */
  function ApplyOne(c: Crypto, db: Db, w: Who, t: Turn): Done {
    if !Applicable(db, t) then Done(db, false)
    else
      var p := db.params[t.id];
      var next := p.pending.value;
      var a := Append(c, db.log, UpdateDraft(p, p.active, next, w.changedBy, w.text), t.stamp);
      Done(Db(db.params[t.id := p.(active := next, pending := None)], Closed(db.changes, t.pick, t.now), a.log), a.ok)
  }

  /** The loop, up to the first refused entry. */
  function ApplyAll(c: Crypto, db: Db, w: Who, turns: seq<Turn>): Done {
    if turns == [] then Done(db, true)
    else
      var first := ApplyAll(c, db, w, turns[..|turns|-1]);
      if first.ok then ApplyOne(c, first.db, w, turns[|turns|-1]) else first
  }

  /** The turns name each parameter with a staged value once, in the order the database returned them. */
  ghost predicate IsSelection(turns: seq<Turn>, db: Db) {
    (forall i :: 0 <= i < |turns| ==> turns[i].id in db.params && db.params[turns[i].id].pending.Some?) &&
    (forall i, j :: 0 <= i < j < |turns| ==> turns[i].id != turns[j].id) &&
    (forall id :: id in db.params && db.params[id].pending.Some? ==> exists i :: 0 <= i < |turns| && turns[i].id == id) &&
    forall i :: 0 <= i < |turns| ==> IsFirstPending(db.changes, turns[i].id, turns[i].pick)
  }

  lemma ApplyAllStep(c: Crypto, db: Db, w: Who, turns: seq<Turn>, k: nat)
    requires k < |turns| && ApplyAll(c, db, w, turns[..k]).ok
    ensures ApplyAll(c, db, w, turns[..k+1]) == ApplyOne(c, ApplyAll(c, db, w, turns[..k]).db, w, turns[k])
  {
    hide ApplyOne;
    assert turns[..k+1][..k] == turns[..k];
  }

  lemma {:induction false} ApplyAllStuck(c: Crypto, db: Db, w: Who, turns: seq<Turn>, k: nat)
    requires k <= |turns| && !ApplyAll(c, db, w, turns[..k]).ok
    ensures !ApplyAll(c, db, w, turns).ok
    decreases |turns|
  {
    hide ApplyOne;
    if k < |turns| {
      assert turns[..|turns|-1][..k] == turns[..k];
      ApplyAllStuck(c, db, w, turns[..|turns|-1], k);
    } else {
      assert turns[..k] == turns;
    }
  }

  /** The service over a mutable session: fields change in place; on any exception the session is rolled back. */
  class Session {
    var params: map<Id, Parameter>
    var changes: seq<Change>
    var log: Log

    function View(): Db
      reads this
    {
      Db(params, changes, log)
    }

    constructor (db: Db)
      ensures View() == db
    {
      params, changes, log := db.params, db.changes, db.log;
    }

    method StageChange(id: Id, value: Str, changedBy: Str) returns (error: Option<Error>)
      modifies this
      ensures match Stage(old(View()), id, value, changedBy)
              case Ok(after) => error.None? && View() == after
              case Err(e) => error == Some(e) && View() == old(View())
    {
      hide ValidValue;
      if id !in params { return Some(NotFound); }
      var p := params[id];
      if !ValidValue(p, value) { return Some(Unprocessable); }
      if value == p.active {
        params := params[id := p.(pending := None)];
      } else {
        params := params[id := p.(pending := Some(value))];
        changes := changes + [Change(id, p.active, value, changedBy, PendingChange, None)];
      }
      error := None;
    }

    method RevertChange(id: Id) returns (error: Option<Error>)
      modifies this
      ensures match Revert(old(View()), id)
              case Ok(after) => error.None? && View() == after
              case Err(e) => error == Some(e) && View() == old(View())
    {
      if id !in params { return Some(NotFound); }
      params := params[id := params[id].(pending := None)];
      for i := 0 to |changes|
        modifies this`changes
        invariant |changes| == |old(changes)|
        invariant forall j :: 0 <= j < |changes| ==>
                    changes[j] == if j < i && IsPendingFor(old(changes)[j], id)
                                  then old(changes)[j].(status := RevertedChange) else old(changes)[j]
      {
        if IsPendingFor(changes[i], id) {
          changes := changes[i := changes[i].(status := RevertedChange)];
        }
      }
      error := None;
    }

    /**
     `apply_pending_changes`. An exception raised by an audit append, or injected at `failAt` (before that turn of the
     loop, or by the final commit when it equals their number), leaves no trace but the identity counter; otherwise
     every turn takes effect.
     */
    method ApplyPending(c: Crypto, w: Who, turns: seq<Turn>, failAt: Option<nat>) returns (r: Result<nat>)
      requires forall i :: 0 <= i < |turns| ==> turns[i].pick.Some? ==> turns[i].pick.value < |changes|
      modifies this
      ensures r.Ok? <==> ApplyAll(c, old(View()), w, turns).ok && (failAt.None? || failAt.value > |turns|)
      ensures r.Ok? ==> r.value == |turns| && View() == ApplyAll(c, old(View()), w, turns).db
      ensures r.Err? ==> params == old(params) && changes == old(changes) && log.rows == old(log.rows)
    {
      hide Append;
      hide UpdateDraft;
      hide Applicable;
      hide Closed;
      var snapshot := View();
      var applied := 0;
      while applied < |turns|
        invariant 0 <= applied <= |turns|
        invariant failAt.Some? ==> applied <= failAt.value
        invariant ApplyAll(c, old(View()), w, turns[..applied]) == Done(View(), true)
        invariant |changes| == |old(changes)|
      {
        ApplyAllStep(c, old(View()), w, turns, applied);
        if failAt == Some(applied) {
          Rollback(snapshot);
          return Err(Injected);
        }
        var ok := ApplyTurn(c, w, turns[applied]);
        if !ok {
          ApplyAllStuck(c, old(View()), w, turns, applied + 1);
          Rollback(snapshot);
          return Err(IntegrityError);
        }
        applied := applied + 1;
      }
      assert turns[..applied] == turns;
      if failAt == Some(applied) {
        Rollback(snapshot);
        return Err(Injected);
      }
      r := Ok(applied);
    }

    method ApplyTurn(c: Crypto, w: Who, t: Turn) returns (ok: bool)
      requires t.pick.Some? ==> t.pick.value < |changes|
      modifies this
      ensures Done(View(), ok) == ApplyOne(c, old(View()), w, t)
      ensures |changes| == |old(changes)|
    {
      hide Append;
      hide UpdateDraft;
      if t.id !in params || params[t.id].pending.None? { return false; }
      var p := params[t.id];
      var previous := p.active;
      p := p.(active := p.pending.value);
      p := p.(pending := None);
      params := params[t.id := p];
      if t.pick.Some? {
        changes := changes[t.pick.value := changes[t.pick.value].(status := AppliedChange, appliedAt := Some(t.now))];
      }
      SameDraft(params[t.id], old(params)[t.id], previous, p.active, w);
      var a := Append(c, log, UpdateDraft(p, previous, p.active, w.changedBy, w.text), t.stamp);
      log := a.log;
      ok := a.ok;
    }

    /** `db.rollback()`; the log's identity counter is not transactional. */
    method Rollback(snapshot: Db)
      modifies this
      ensures params == snapshot.params && changes == snapshot.changes && log == Log(snapshot.log.rows, old(log.nextSequence))
    {
      params, changes, log := snapshot.params, snapshot.changes, Log(snapshot.log.rows, log.nextSequence);
    }
  }

  /** The entry depends on the parameter's fixed attributes only. */
  lemma SameDraft(p: Parameter, q: Parameter, previous: Str, next: Str, w: Who)
    requires p.key == q.key && p.isSensitive == q.isSensitive && p.requiresRestart == q.requiresRestart
    ensures UpdateDraft(p, previous, next, w.changedBy, w.text) == UpdateDraft(q, previous, next, w.changedBy, w.text)
  {
    hide Key;
    KeysDistinct();
    var m, n := UpdateMetadata(p, previous, next), UpdateMetadata(q, previous, next);
    assert forall f :: Value(p, previous, next, f) == Value(q, previous, next, f);
    assert m == n;
  }
}
