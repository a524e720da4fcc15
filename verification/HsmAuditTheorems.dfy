/** Key statuses refine the audit log: folding the key entries tells every key and its status, over every run. */
module HsmAuditTheorems {
  import opened Prelude
  import opened PyText
  import Clock
  import Sanitize
  import opened Audit
  import opened Hsm
  import opened HsmInvariant
  import HsmTheorems
  import opened HsmAudit

  // ---------------------------------------------------------------- what is told and what is stored

  ghost predicate HasStatus(s: Store, keyLabel: Str, status: KeyStatus) {
    exists k :: k in s.keys && s.keys[k].keyLabel == keyLabel && s.keys[k].status == status
  }

  lemma LabelsUnique(s: Store)
    requires Inv(s)
    ensures UniqueLabels(s)
  {}

  lemma HasKeyAt(s: Store, k: Id)
    requires k in s.keys
    ensures HasKey(s, s.keys[k].keyLabel)
  {}

  lemma SameLabels(s: Store, v: Store, l: Str)
    requires v.keys.Keys == s.keys.Keys && (forall j :: j in s.keys ==> v.keys[j].keyLabel == s.keys[j].keyLabel) && HasKey(s, l)
    ensures HasKey(v, l)
  {
    var j :| j in s.keys && s.keys[j].keyLabel == l;
    assert j in v.keys && v.keys[j].keyLabel == l;
  }

  lemma SameKeys(s: Store, v: Store, statuses: map<Str, KeyStatus>)
    requires v.keys == s.keys && TellsKeys(statuses, s)
    ensures TellsKeys(statuses, v)
  {
    forall l | l in statuses ensures HasKey(v, l) { assert HasKey(s, l); }
  }

  /** One key's status changes, and the log is told so under its label. */
  lemma OneStatus(s: Store, v: Store, k: Id, statuses: map<Str, KeyStatus>)
    requires UniqueLabels(s) && TellsKeys(statuses, s) && k in s.keys && v.keys.Keys == s.keys.Keys
    requires v.keys[k].keyLabel == s.keys[k].keyLabel && forall j :: j in s.keys && j != k ==> v.keys[j] == s.keys[j]
    ensures TellsKeys(statuses[s.keys[k].keyLabel := v.keys[k].status], v) && UniqueLabels(v)
  {
    hide HasKey;
    var u := statuses[s.keys[k].keyLabel := v.keys[k].status];
    assert forall j :: j in s.keys ==> v.keys[j].keyLabel == s.keys[j].keyLabel;
    forall l | l in u ensures HasKey(v, l) {
      if l == s.keys[k].keyLabel { HasKeyAt(s, k); }
      SameLabels(s, v, l);
    }
    forall j | j in v.keys ensures v.keys[j].keyLabel in u && u[v.keys[j].keyLabel] == v.keys[j].status {
      assert j != k ==> s.keys[j].keyLabel != s.keys[k].keyLabel;
    }
  }

  /** A key under a new label appears, and the log is told so. */
  lemma NewKeyTold(s: Store, v: Store, k: Id, statuses: map<Str, KeyStatus>)
    requires UniqueLabels(s) && TellsKeys(statuses, s) && k !in s.keys && k in v.keys && v.keys == s.keys[k := v.keys[k]]
    requires KeysLabelled(s, v.keys[k].keyLabel) == {}
    ensures TellsKeys(statuses[v.keys[k].keyLabel := v.keys[k].status], v) && UniqueLabels(v)
  {
    forall j | j in s.keys ensures s.keys[j].keyLabel != v.keys[k].keyLabel {
      assert j !in KeysLabelled(s, v.keys[k].keyLabel);
    }
    forall l | l in statuses[v.keys[k].keyLabel := v.keys[k].status] ensures HasKey(v, l) {
      if l == v.keys[k].keyLabel {
        assert k in v.keys && v.keys[k].keyLabel == l;
      } else {
        var j :| j in s.keys && s.keys[j].keyLabel == l;
        assert j in v.keys && v.keys[j].keyLabel == l;
      }
    }
  }

  lemma StatusTold(s: Store, statuses: map<Str, KeyStatus>, keyLabel: Str, status: KeyStatus)
    requires UniqueLabels(s) && TellsKeys(statuses, s)
    ensures HasStatus(s, keyLabel, status) <==> keyLabel in statuses && statuses[keyLabel] == status
    ensures HasStatus(s, keyLabel, status) ==> statuses[keyLabel := status] == statuses
    ensures TellsKeys(statuses[keyLabel := status], s) <==> HasStatus(s, keyLabel, status)
  {
    var u := statuses[keyLabel := status];
    if keyLabel in statuses && statuses[keyLabel] == status {
      assert HasKey(s, keyLabel);
    }
    if TellsKeys(u, s) {
      assert keyLabel in u && HasKey(s, keyLabel);
    }
    if HasStatus(s, keyLabel, status) { assert u == statuses; }
  }

  /** What is told is determined by the tables. */
  lemma TellsUnique(s: Store, a: map<Str, KeyStatus>, b: map<Str, KeyStatus>)
    requires TellsKeys(a, s) && TellsKeys(b, s)
    ensures a == b
  {
    forall l ensures l in a <==> l in b {
      if l in a { assert HasKey(s, l); }
      if l in b { assert HasKey(s, l); }
    }
    forall l | l in a && l in b ensures a[l] == b[l] {
      var k :| k in s.keys && s.keys[k].keyLabel == l;
    }
  }

  /** Two labels told at once: the second wins where they coincide. */
  lemma TwoStatuses(s: Store, statuses: map<Str, KeyStatus>, q: Str, p: Str)
    requires UniqueLabels(s) && TellsKeys(statuses, s)
    ensures TellsKeys(statuses[q := Active][p := Retired], s) <==> HasStatus(s, p, Retired) && (p == q || HasStatus(s, q, Active))
  {
    hide TellsKeys;
    hide HasStatus;
    var u := statuses[q := Active][p := Retired];
    StatusTold(s, statuses, p, Retired);
    StatusTold(s, statuses, q, Active);
    if TellsKeys(u, s) {
      TellsUnique(s, u, statuses);
      assert p in u && u[p] == Retired && (p != q ==> q in u && u[q] == Active);
    }
    if p == q { assert u == statuses[p := Retired]; }
  }

  // ---------------------------------------------------------------- statuses: each command and its entry

  lemma CreateKeyTells(s: Store, cmd: Command, t: Told)
    requires cmd.CreateKey? && UniqueLabels(s) && TellsKeys(t.statuses, s) && CreateKeyStep(s, cmd).Ok?
    ensures TellsKeys(Tell(t, NoteOf(s, cmd)).statuses, CreateKeyStep(s, cmd).value)
  {
    hide TellsKeys;
    hide KeysLabelled;
    NewKeyTold(s, CreateKeyStep(s, cmd).value, cmd.id, t.statuses);
  }

  lemma DisableTells(s: Store, id: Id, now: int, t: Told)
    requires UniqueLabels(s) && TellsKeys(t.statuses, s) && DisableStep(s, id, now).Ok?
    ensures TellsKeys(Tell(t, NoteOf(s, DisableKey(id, now))).statuses, DisableStep(s, id, now).value)
  {
    hide TellsKeys;
    hide UniqueLabels;
    OneStatus(s, DisableStep(s, id, now).value, id, t.statuses);
  }

  lemma RotateTells(s: Store, cmd: Command, t: Told)
    requires cmd.RotateKey? && UniqueLabels(s) && TellsKeys(t.statuses, s)
    requires RotateStep(s, cmd.id, cmd.newId, cmd.newLabel, cmd.now).Ok?
    ensures TellsKeys(Tell(t, NoteOf(s, cmd)).statuses, RotateStep(s, cmd.id, cmd.newId, cmd.newLabel, cmd.now).value)
  {
    hide SuccessorLabel;
    hide TellsKeys;
    hide UniqueLabels;
    hide KeysLabelled;
    var v := RotateStep(s, cmd.id, cmd.newId, cmd.newLabel, cmd.now).value;
    var q := SuccessorLabel(s.keys[cmd.id].keyLabel, cmd.newLabel);
    var m := s.(keys := s.keys[cmd.newId := v.keys[cmd.newId]]);
    NewKeyTold(s, m, cmd.newId, t.statuses);
    OneStatus(m, v, cmd.id, t.statuses[q := Active]);
  }

  lemma CeremonyTells(s: Store, cmd: Command, t: Told)
    requires (cmd.CreateCeremony? || cmd.ApproveCeremony?) && TellsKeys(t.statuses, s) && Hsm.Step(s, cmd).Ok?
    ensures TellsKeys(Tell(t, NoteOf(s, cmd)).statuses, Hsm.Step(s, cmd).value)
  {
    hide TellsKeys;
    hide PredecessorLabel;
    hide ScalarOneOrNone;
    hide Approved;
    SameKeys(s, Hsm.Step(s, cmd).value, t.statuses);
  }

  /** The statuses after a completion: the key activated, its predecessor retired. */
  function Completion(statuses: map<Str, KeyStatus>, newKey: Str, retired: Option<Str>): map<Str, KeyStatus> {
    var active := statuses[newKey := Active];
    if retired.Some? then active[retired.value := Retired] else active
  }

  lemma KeysAfterTold(s: Store, v: Store, n: Id, p: Option<Id>, now: int, statuses: map<Str, KeyStatus>)
    requires UniqueLabels(s) && TellsKeys(statuses, s) && n in s.keys && (p.Some? ==> p.value in s.keys && p.value != n)
    requires v.keys == KeysAfter(s.keys, n, p, now)
    ensures TellsKeys(Completion(statuses, s.keys[n].keyLabel, if p.Some? then Some(s.keys[p.value].keyLabel) else None), v)
  {
    hide TellsKeys;
    hide UniqueLabels;
    var active := s.keys[n := Activated(s.keys[n], now)];
    var m := s.(keys := if p.Some? then active[n := active[n].(supersededBy := None)] else active);
    OneStatus(s, m, n, statuses);
    if p.Some? {
      OneStatus(m, v, p.value, statuses[s.keys[n].keyLabel := Active]);
    } else {
      SameKeys(m, v, statuses[s.keys[n].keyLabel := Active]);
    }
  }

  ghost predicate IsRetired(statuses: map<Str, KeyStatus>, keyLabel: Str) {
    keyLabel in statuses && statuses[keyLabel] == Retired
  }

  /** Two completions of one key give the same statuses exactly when what only one of them retires is retired anyway. */
  lemma SameCompletion(statuses: map<Str, KeyStatus>, newKey: Str, p: Option<Str>, q: Option<Str>)
    requires newKey in statuses && statuses[newKey] != Retired && p != Some(newKey)
    ensures Completion(statuses, newKey, q) == Completion(statuses, newKey, p) <==>
            (q.Some? ==> q == p || IsRetired(statuses, q.value)) && (p.Some? ==> p == q || IsRetired(statuses, p.value))
  {
    var a, b := Completion(statuses, newKey, q), Completion(statuses, newKey, p);
    if a == b {
      if q.Some? && q != p { assert b[q.value] == Retired; }
      if p.Some? && p != q { assert a[p.value] == Retired; }
    }
  }

  /**
   The predecessor the log holds for a ceremony stands for the one its completion retires: where they differ, both are
   retired already.
   */
  ghost predicate RetiresAsTold(s: Store, t: Told, id: Id) {
    id in s.ceremonies && CeremonyPredecessor(s, s.ceremonies[id]).Ok? ==>
      var p := CeremonyPredecessor(s, s.ceremonies[id]).value;
      var name := if p.Some? && p.value in s.keys then Some(s.keys[p.value].keyLabel) else None;
      var q := RetiredBy(t, s.ceremonies[id].ref);
      (q.Some? ==> q == name || HasStatus(s, q.value, Retired)) && (name.Some? ==> name == q || HasStatus(s, name.value, Retired))
  }

  lemma NotYetRetired(s: Store, id: Id, now: int)
    requires Inv(s) && FinishStep(s, id, now).Ok?
    ensures s.ceremonies[id].keyId in s.keys && s.keys[s.ceremonies[id].keyId].status != Retired
  {
    hide Order;
    hide HistoryOk;
    hide CeremonyPredecessor;
    hide QuorumMet;
    FinishKeysKnown(s, id, now);
    assert KeyOk(s, s.ceremonies[id].keyId);
  }

  /** A completion and its entry keep the statuses told if and only if the log holds the right predecessor for it. */
  lemma FinishTells(s: Store, id: Id, now: int, t: Told)
    requires Inv(s) && TellsKeys(t.statuses, s) && FinishStep(s, id, now).Ok?
    ensures TellsKeys(Tell(t, NoteOf(s, FinishCeremony(id, now))).statuses, FinishStep(s, id, now).value) <==> RetiresAsTold(s, t, id)
  {
    hide CeremonyPredecessor;
    hide QuorumMet;
    hide RetiredBy;
    hide KeysAfter;
    hide Order;
    hide HasStatus;
    hide UniqueLabels;
    hide TellsKeys;
    var v, c := FinishStep(s, id, now).value, s.ceremonies[id];
    NotYetRetired(s, id, now);
    FinishKeysKnown(s, id, now);
    LabelsUnique(s);
    hide Inv;
    var n, p := c.keyId, CeremonyPredecessor(s, c).value;
    var newKey, name, q := s.keys[n].keyLabel, if p.Some? then Some(s.keys[p.value].keyLabel) else None, RetiredBy(t, c.ref);
    KeysAfterTold(s, v, n, p, now, t.statuses);
    LabelsApart(s, n, p);
    KeyTold(s, n, t.statuses);
    SameCompletion(t.statuses, newKey, name, q);
    if q.Some? { StatusTold(s, t.statuses, q.value, Retired); }
    if name.Some? { StatusTold(s, t.statuses, name.value, Retired); }
    if TellsKeys(Completion(t.statuses, newKey, q), v) {
      TellsUnique(v, Completion(t.statuses, newKey, q), Completion(t.statuses, newKey, name));
    }
  }

  lemma KeyTold(s: Store, k: Id, statuses: map<Str, KeyStatus>)
    requires k in s.keys && TellsKeys(statuses, s)
    ensures s.keys[k].keyLabel in statuses && statuses[s.keys[k].keyLabel] == s.keys[k].status
  {}

  lemma LabelsApart(s: Store, n: Id, p: Option<Id>)
    requires UniqueLabels(s) && n in s.keys && (p.Some? ==> p.value in s.keys && p.value != n)
    ensures p.Some? ==> s.keys[p.value].keyLabel != s.keys[n].keyLabel
  {}

  /** A committed command and its entry: the statuses stay told, a completion on the condition above. */
  lemma StepTells(s: Store, cmd: Command, t: Told)
    requires Inv(s) && TellsKeys(t.statuses, s) && Hsm.Step(s, cmd).Ok?
    ensures TellsKeys(Tell(t, NoteOf(s, cmd)).statuses, Hsm.Step(s, cmd).value) <==>
            (cmd.FinishCeremony? ==> RetiresAsTold(s, t, cmd.id))
  {
    hide TellsKeys;
    hide NoteOf;
    hide Tell;
    hide RetiresAsTold;
    hide CreateKeyStep;
    hide CreateCeremonyStep;
    hide ApproveStep;
    hide FinishStep;
    hide RotateStep;
    hide DisableStep;
    LabelsUnique(s);
    hide Inv;
    match cmd
    case CreateKey(_, _, _, _, _, _) => CreateKeyTells(s, cmd, t);
    case CreateCeremony(_, _, _, _, _, _) => CeremonyTells(s, cmd, t);
    case ApproveCeremony(_, _, _) => CeremonyTells(s, cmd, t);
    case FinishCeremony(id, now) => FinishTells(s, id, now, t);
    case RotateKey(_, _, _, _) => RotateTells(s, cmd, t);
    case DisableKey(id, now) => DisableTells(s, id, now, t);
  }

  // ---------------------------------------------------------------- statuses: entries of a client's own

  /** A note changes no status; a completion is judged by the predecessor the log holds for its ceremony. */
  ghost predicate Restates(s: Store, t: Told, n: Note) {
    match n
    case Nothing => true
    case Registered(keyLabel) => HasStatus(s, keyLabel, Pending)
    case Initiated(_, _) => true
    case Completed(ref, newKey) =>
      var q := RetiredBy(t, ref);
      (q.Some? ==> HasStatus(s, q.value, Retired)) && (q == Some(newKey) || HasStatus(s, newKey, Active))
    case Rotated(p, q) => HasStatus(s, p, Retired) && (p == q || HasStatus(s, q, Active))
    case WasDisabled(keyLabel) => HasStatus(s, keyLabel, Disabled)
  }

  lemma NoteKeepsStatuses(s: Store, t: Told, n: Note)
    requires UniqueLabels(s) && TellsKeys(t.statuses, s)
    ensures TellsKeys(Tell(t, n).statuses, s) <==> Restates(s, t, n)
  {
    hide HasStatus;
    hide TellsKeys;
    hide RetiredBy;
    match n
    case Nothing =>
    case Registered(keyLabel) => StatusTold(s, t.statuses, keyLabel, Pending);
    case Initiated(ref, p) =>
    case Completed(ref, newKey) =>
      if RetiredBy(t, ref).Some? {
        TwoStatuses(s, t.statuses, newKey, RetiredBy(t, ref).value);
      } else {
        StatusTold(s, t.statuses, newKey, Active);
      }
    case Rotated(p, q) => TwoStatuses(s, t.statuses, q, p);
    case WasDisabled(keyLabel) => StatusTold(s, t.statuses, keyLabel, Disabled);
  }

  // ---------------------------------------------------------------- ceremonies and their predecessors

  /** A ceremony of this reference with this predecessor label. */
  ghost predicate IsRecorded(s: Store, ref: Str, p: Option<Str>) {
    exists c :: c in s.ceremonies && s.ceremonies[c].ref == ref && s.ceremonies[c].predecessorLabel == p
  }

  /** A ceremony under a new reference is told of. */
  lemma NewCeremonyTold(s: Store, v: Store, id: Id, predecessors: map<Str, Option<Str>>)
    requires TellsCeremonies(predecessors, s) && id !in s.ceremonies && id in v.ceremonies
    requires v.ceremonies == s.ceremonies[id := v.ceremonies[id]] && !HasRef(s, v.ceremonies[id].ref)
    ensures TellsCeremonies(predecessors[v.ceremonies[id].ref := v.ceremonies[id].predecessorLabel], v)
  {
    var ref := v.ceremonies[id].ref;
    forall r | r in predecessors || r == ref ensures HasRef(v, r) {
      if r == ref {
        assert id in v.ceremonies && v.ceremonies[id].ref == r;
      } else {
        var c :| c in s.ceremonies && s.ceremonies[c].ref == r;
        assert c in v.ceremonies && v.ceremonies[c].ref == r;
      }
    }
  }

  /** Ceremonies changed in nothing the log tells of. */
  ghost predicate SameRefs(s: Store, v: Store) {
    v.ceremonies.Keys == s.ceremonies.Keys && forall c :: c in s.ceremonies ==>
      v.ceremonies[c].ref == s.ceremonies[c].ref && v.ceremonies[c].predecessorLabel == s.ceremonies[c].predecessorLabel
  }

  lemma SameCeremonies(s: Store, v: Store, predecessors: map<Str, Option<Str>>)
    requires SameRefs(s, v) && TellsCeremonies(predecessors, s)
    ensures TellsCeremonies(predecessors, v)
  {
    forall r | r in predecessors ensures HasRef(v, r) {
      var c :| c in s.ceremonies && s.ceremonies[c].ref == r;
      assert c in v.ceremonies && v.ceremonies[c].ref == r;
    }
  }

  lemma StepRefs(s: Store, cmd: Command)
    requires !cmd.CreateCeremony? && Hsm.Step(s, cmd).Ok?
    ensures SameRefs(s, Hsm.Step(s, cmd).value)
  {
    hide SuccessorLabel;
    hide QuorumMet;
    hide CeremonyPredecessor;
    hide Approved;
  }

  lemma CreateCeremonyShape(s: Store, cmd: Command)
    requires cmd.CreateCeremony? && CreateCeremonyStep(s, cmd).Ok?
    ensures cmd.id !in s.ceremonies && !HasRef(s, cmd.ref) && CeremonyOf(s, cmd).ref == cmd.ref
    ensures CreateCeremonyStep(s, cmd).value.ceremonies == s.ceremonies[cmd.id := CeremonyOf(s, cmd)]
  {
    hide PredecessorLabel;
    hide ScalarOneOrNone;
    hide OpenCeremonies;
  }

  /** The references stay unique, whatever is in the log. */
  lemma StepKeepsRefs(s: Store, cmd: Command)
    requires UniqueRefs(s) && Hsm.Step(s, cmd).Ok?
    ensures UniqueRefs(Hsm.Step(s, cmd).value)
  {
    hide FinishStep;
    hide ApproveStep;
    hide CreateKeyStep;
    hide RotateStep;
    hide DisableStep;
    hide CreateCeremonyStep;
    if cmd.CreateCeremony? {
      CreateCeremonyShape(s, cmd);
      hide CeremonyOf;
      forall c | c in s.ceremonies ensures s.ceremonies[c].ref != cmd.ref { assert HasRef(s, s.ceremonies[c].ref); }
    } else {
      StepRefs(s, cmd);
    }
  }

  /** A committed command and its entry: the log goes on naming exactly the ceremonies with their predecessors. */
  lemma StepTellsCeremonies(s: Store, cmd: Command, t: Told)
    requires TellsCeremonies(t.predecessors, s) && Hsm.Step(s, cmd).Ok?
    ensures TellsCeremonies(Tell(t, NoteOf(s, cmd)).predecessors, Hsm.Step(s, cmd).value)
  {
    hide FinishStep;
    hide ApproveStep;
    hide CreateKeyStep;
    hide RotateStep;
    hide DisableStep;
    hide CreateCeremonyStep;
    hide TellsCeremonies;
    hide SuccessorLabel;
    if cmd.CreateCeremony? {
      CreateCeremonyShape(s, cmd);
      NewCeremonyTold(s, CreateCeremonyStep(s, cmd).value, cmd.id, t.predecessors);
    } else {
      StepRefs(s, cmd);
      SameCeremonies(s, Hsm.Step(s, cmd).value, t.predecessors);
    }
  }

  lemma NoteKeepsCeremonies(s: Store, t: Told, n: Note)
    requires UniqueRefs(s) && TellsCeremonies(t.predecessors, s)
    ensures TellsCeremonies(Tell(t, n).predecessors, s) <==> (n.Initiated? ==> IsRecorded(s, n.ref, n.predecessor))
  {
    if n.Initiated? {
      var u := t.predecessors[n.ref := n.predecessor];
      if TellsCeremonies(u, s) {
        assert n.ref in u && HasRef(s, n.ref);
      }
      if IsRecorded(s, n.ref, n.predecessor) {
        assert u == t.predecessors;
      }
    }
  }

  /** With the ceremonies told, the label the log holds for a completion is that of the key the completion finds. */
  lemma PredecessorTold(s: Store, c: Id, t: Told)
    requires UniqueLabels(s) && TellsKeys(t.statuses, s) && TellsCeremonies(t.predecessors, s)
    requires c in s.ceremonies && CeremonyPredecessor(s, s.ceremonies[c]).Ok?
    ensures var p := CeremonyPredecessor(s, s.ceremonies[c]).value;
            if p.Some? then p.value in s.keys && RetiredBy(t, s.ceremonies[c].ref) == Some(s.keys[p.value].keyLabel)
            else RetiredBy(t, s.ceremonies[c].ref) == None
    ensures RetiresAsTold(s, t, c)
  {
    hide HasStatus;
    var name := s.ceremonies[c].predecessorLabel;
    if name.Some? && name.value != [] && name.value in t.statuses {
      var k :| k in s.keys && s.keys[k].keyLabel == name.value;
      assert k in KeysLabelled(s, name.value);
    }
  }

  // ---------------------------------------------------------------- transactions

  ghost predicate Committed(c: Crypto, db: Db, i: Call) {
    Hsm.Step(db.store, i.cmd).Ok? &&
    (Silent(db.store, i.cmd) || Append(c, db.log, EntryDraft(db.store, i.cmd, i.actor), i.s).ok)
  }

  /**
   A client's own entry is refused or changes no status, and a committed completion finds the right predecessor in the
   log.
   */
  ghost predicate Harmless(c: Crypto, db: Db, i: Input<Call>) {
    match i
    case Post(d, s) => Append(c, db.log, d, s).ok ==> Restates(db.store, ToldBy(db.log.rows), Noted(Logged(d)))
    case Serve(call) =>
      call.cmd.FinishCeremony? && Committed(c, db, call) ==> RetiresAsTold(db.store, ToldBy(db.log.rows), call.cmd.id)
  }

  /** A client's own entry is refused or initiates no ceremony but as it was initiated. */
  ghost predicate Tidy(c: Crypto, db: Db, i: Input<Call>) {
    i.Post? && Append(c, db.log, i.d, i.s).ok ==>
      var n := Noted(Logged(i.d));
      n.Initiated? ==> IsRecorded(db.store, n.ref, n.predecessor)
  }

  lemma TimeUnread(e: Content, now: Clock.Instant)
    ensures Noted(e.(occurredAt := now)) == Noted(e)
  {
    hide ReadSubtype;
  }

  lemma AppendTold(c: Crypto, log: Log, d: Draft, s: Stamp)
    ensures ToldBy(Append(c, log, d, s).log.rows)
         == if Append(c, log, d, s).ok then Tell(ToldBy(log.rows), Noted(Logged(d))) else ToldBy(log.rows)
  {
    hide ToldBy;
    hide Tell;
    hide Noted;
    hide Sanitize.Sanitized;
    var e := NewEntry(c, log, d, s);
    assert e.content == Logged(d).(occurredAt := s.now);
    TimeUnread(Logged(d), s.now);
    ToldStep(log.rows, e);
  }

  /** What a service call leaves: the step with its note told, or nothing changed. */
  lemma ServedTold(c: Crypto, db: Db, i: Call)
    ensures var after := Transact(c, db, Serve(i));
            if Committed(c, db, i)
            then after.store == Hsm.Step(db.store, i.cmd).value &&
                 ToldBy(after.log.rows) == Tell(ToldBy(db.log.rows), NoteOf(db.store, i.cmd))
            else after.store == db.store && ToldBy(after.log.rows) == ToldBy(db.log.rows)
  {
    hide ToldBy;
    hide Hsm.Step;
    hide Append;
    hide EntryDraft;
    hide NoteOf;
    if Hsm.Step(db.store, i.cmd).Ok? {
      if Silent(db.store, i.cmd) {
        SilentSaysNothing(db.store, i.cmd, ToldBy(db.log.rows));
      } else {
        AppendTold(c, db.log, EntryDraft(db.store, i.cmd, i.actor), i.s);
        WrittenIsNoted(db.store, i.cmd, i.actor, Logged(EntryDraft(db.store, i.cmd, i.actor)).occurredAt);
      }
    }
  }

  lemma SilentSaysNothing(s: Store, cmd: Command, t: Told)
    requires Silent(s, cmd)
    ensures Tell(t, NoteOf(s, cmd)) == t
  {}

  lemma ServedKeepsStatuses(c: Crypto, db: Db, i: Call)
    requires Inv(db.store) && StatusesTold(db)
    ensures Inv(Transact(c, db, Serve(i)).store)
    ensures StatusesTold(Transact(c, db, Serve(i))) <==> Harmless(c, db, Serve(i))
  {
    hide Inv;
    hide RetiresAsTold;
    hide TellsKeys;
    hide ToldBy;
    hide Append;
    hide Committed;
    hide Transact;
    hide Hsm.Step;
    hide Hsm.Next;
    hide NoteOf;
    hide Tell;
    ServedTold(c, db, i);
    if Committed(c, db, i) {
      CommittedOk(c, db, i);
      HsmTheorems.StepKeeps(db.store, i.cmd);
      StepTells(db.store, i.cmd, ToldBy(db.log.rows));
    }
  }

  /** One transaction keeps the log telling every key's status if and only if it is harmless. */
  lemma NextKeepsStatuses(c: Crypto, db: Db, i: Input<Call>)
    requires Inv(db.store) && StatusesTold(db)
    ensures Inv(Transact(c, db, i).store)
    ensures StatusesTold(Transact(c, db, i)) <==> Harmless(c, db, i)
  {
    LabelsUnique(db.store);
    hide Inv;
    hide UniqueLabels;
    hide Restates;
    hide TellsKeys;
    hide ToldBy;
    hide Append;
    hide Tell;
    match i
    case Serve(call) => ServedKeepsStatuses(c, db, call);
    case Post(d, s) =>
      AppendTold(c, db.log, d, s);
      NoteKeepsStatuses(db.store, ToldBy(db.log.rows), Noted(Logged(d)));
  }

  lemma CommittedOk(c: Crypto, db: Db, i: Call)
    requires Committed(c, db, i)
    ensures Hsm.Step(db.store, i.cmd).Ok? && Hsm.Next(db.store, i.cmd) == Hsm.Step(db.store, i.cmd).value
  {}

  /** One transaction keeps the log naming exactly the ceremonies if and only if it is tidy. */
  lemma NextKeepsCeremonies(c: Crypto, db: Db, i: Input<Call>)
    requires UniqueRefs(db.store) && CeremoniesTold(db)
    ensures UniqueRefs(Transact(c, db, i).store)
    ensures CeremoniesTold(Transact(c, db, i)) <==> Tidy(c, db, i)
  {
    hide UniqueRefs;
    hide TellsCeremonies;
    hide IsRecorded;
    hide ToldBy;
    hide Append;
    hide Committed;
    match i
    case Serve(call) =>
      ServedTold(c, db, call);
      hide Transact;
      if Committed(c, db, call) {
        CommittedOk(c, db, call);
        StepKeepsRefs(db.store, call.cmd);
        StepTellsCeremonies(db.store, call.cmd, ToldBy(db.log.rows));
      }
    case Post(d, s) =>
      AppendTold(c, db.log, d, s);
      NoteKeepsCeremonies(db.store, ToldBy(db.log.rows), Noted(Logged(d)));
  }

  /** Where the log names exactly the ceremonies, no service call is ever harmful. */
  lemma ServedHarmless(c: Crypto, db: Db, i: Call)
    requires Inv(db.store) && StatusesTold(db) && CeremoniesTold(db)
    ensures Harmless(c, db, Serve(i))
  {
    LabelsUnique(db.store);
    hide Inv;
    hide RetiresAsTold;
    hide ToldBy;
    hide Append;
    if i.cmd.FinishCeremony? && Committed(c, db, i) {
      CompletionFound(db.store, i.cmd.id, i.cmd.now);
      PredecessorTold(db.store, i.cmd.id, ToldBy(db.log.rows));
    }
  }

  lemma CompletionFound(s: Store, id: Id, now: int)
    requires FinishStep(s, id, now).Ok?
    ensures id in s.ceremonies && CeremonyPredecessor(s, s.ceremonies[id]).Ok?
  {}

  // ---------------------------------------------------------------- runs

  ghost predicate AlwaysTold(c: Crypto, db: Db, inputs: seq<Input<Call>>)
    decreases |inputs|
  {
    StatusesTold(db) && (inputs != [] ==> AlwaysTold(c, Transact(c, db, inputs[0]), inputs[1..]))
  }

  ghost predicate AllHarmless(c: Crypto, db: Db, inputs: seq<Input<Call>>)
    decreases |inputs|
  {
    inputs != [] ==> Harmless(c, db, inputs[0]) && AllHarmless(c, Transact(c, db, inputs[0]), inputs[1..])
  }

  /**
   Over every run, folding the key entries gives at every point exactly the keys there are with their statuses, if and
   only if clients' own entries change no status and each completion finds the right predecessor in the log.
   */
  lemma {:induction false} StatusesReplay(c: Crypto, db: Db, inputs: seq<Input<Call>>)
    requires Inv(db.store) && StatusesTold(db)
    ensures AlwaysTold(c, db, inputs) <==> AllHarmless(c, db, inputs)
    decreases |inputs|
  {
    hide Inv;
    hide StatusesTold;
    hide Harmless;
    hide Transact;
    if inputs != [] {
      NextKeepsStatuses(c, db, inputs[0]);
      if StatusesTold(Transact(c, db, inputs[0])) {
        StatusesReplay(c, Transact(c, db, inputs[0]), inputs[1..]);
      }
    }
  }

  ghost predicate AlwaysNamed(c: Crypto, db: Db, inputs: seq<Input<Call>>)
    decreases |inputs|
  {
    CeremoniesTold(db) && (inputs != [] ==> AlwaysNamed(c, Transact(c, db, inputs[0]), inputs[1..]))
  }

  ghost predicate AllTidy(c: Crypto, db: Db, inputs: seq<Input<Call>>)
    decreases |inputs|
  {
    inputs != [] ==> Tidy(c, db, inputs[0]) && AllTidy(c, Transact(c, db, inputs[0]), inputs[1..])
  }

  /**
   Over every run, the log names at every point exactly the ceremonies there are with their predecessors, if and only if
   clients' own entries initiate no ceremony but as it was initiated.
   */
  lemma {:induction false} CeremoniesReplay(c: Crypto, db: Db, inputs: seq<Input<Call>>)
    requires UniqueRefs(db.store) && CeremoniesTold(db)
    ensures AlwaysNamed(c, db, inputs) <==> AllTidy(c, db, inputs)
    decreases |inputs|
  {
    hide UniqueRefs;
    hide CeremoniesTold;
    hide Tidy;
    hide Transact;
    if inputs != [] {
      NextKeepsCeremonies(c, db, inputs[0]);
      if CeremoniesTold(Transact(c, db, inputs[0])) {
        CeremoniesReplay(c, Transact(c, db, inputs[0]), inputs[1..]);
      }
    }
  }

  /** The service on its own, from an empty store: the log tells every key's status at every point, without condition. */
  lemma {:induction false} ServiceAlone(c: Crypto, db: Db, inputs: seq<Input<Call>>)
    requires Inv(db.store) && UniqueRefs(db.store) && StatusesTold(db) && CeremoniesTold(db)
    requires forall i :: 0 <= i < |inputs| ==> inputs[i].Serve?
    ensures AlwaysTold(c, db, inputs)
    decreases |inputs|
  {
    hide Inv;
    hide UniqueRefs;
    hide StatusesTold;
    hide CeremoniesTold;
    hide Harmless;
    hide Transact;
    if inputs != [] {
      ServedHarmless(c, db, inputs[0].command);
      NextKeepsStatuses(c, db, inputs[0]);
      NextKeepsCeremonies(c, db, inputs[0]);
      ServiceAlone(c, Transact(c, db, inputs[0]), inputs[1..]);
    }
  }

  lemma EmptyTold(db: Db)
    requires HsmTheorems.Empty(db.store) && db.log.rows == []
    ensures Inv(db.store) && UniqueRefs(db.store) && StatusesTold(db) && CeremoniesTold(db)
  {
    HsmTheorems.EmptyInv(db.store);
  }

  /** A key is registered in an empty store, and a client's entry saying it was disabled is accepted: log and row differ. */
  lemma ForgedRun() returns (c: Crypto, created: Input<Call>, forged: Input<Call>)
    ensures SignsOwn(c) && created.Serve? && forged.Post?
    ensures var db := Transact(c, Db(Store(map[], map[], [], {}), Log([], 1)), created);
            StatusesTold(db) && Append(c, db.log, forged.d, forged.s).ok && !StatusesTold(Transact(c, db, forged))
  {
    hide ToyCrypto;
    hide Append;
    hide EntryDraft;
    hide Inv;
    hide UniqueRefs;
    hide StatusesTold;
    hide CeremoniesTold;
    hide Noted;
    c := ToyCrypto();
    var k, x := Py("k"), Py("x");
    assert k[0] != x[0];
    var s, s' := Stamp(Clock.RawInstant(2024, 1, 1, 0, 0, 0, 0), k), Stamp(Clock.RawInstant(2024, 1, 2, 0, 0, 0, 0), x);
    var empty := Db(Store(map[], map[], [], {}), Log([], 1));
    var cmd := Command.CreateKey(k, k, None, k, 90, 1);
    created := Serve(Call(cmd, k, s));
    assert KeysLabelled(empty.store, k) == {};
    var store := Hsm.Step(empty.store, cmd).value;
    forged := Post(EntryDraft(store, Command.DisableKey(k, 2), x), s');
    TwoAppends(EntryDraft(empty.store, cmd, k), s, forged.d, s');
    var db := Transact(c, empty, created);
    assert db.store == store;
    EmptyTold(empty);
    NextKeepsStatuses(c, empty, created);
    NextKeepsStatuses(c, db, forged);
    WrittenIsNoted(store, Command.DisableKey(k, 2), x, Logged(forged.d).occurredAt);
    assert Noted(Logged(forged.d)) == WasDisabled(k);
    assert !HasStatus(store, k, Disabled);
  }
}
