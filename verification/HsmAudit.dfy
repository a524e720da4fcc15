/** The audit entries of the key service, and the key statuses that can be rebuilt from them. */
module HsmAudit {
  import opened Prelude
  import opened PyText
  import opened Json
  import Clock
  import opened Metadata
  import opened Sanitize
  import opened Audit
  import opened Hsm

  // ---------------------------------------------------------------- what is written

  datatype Field =
    | CeremonyRef | MasterKeyId | MasterKeyLabel | PredecessorLabelField | RequiredApprovals | ApprovalCountField
    | NewKey | Approvals | KeyLabel | Algorithm | SlotId | RotationPolicyDays | PredecessorKeyId | SuccessorKeyId
    | SuccessorLabelField | WrapsDekCount | PreviousStatus

  function Name(f: Field): string {
    match f
    case CeremonyRef => "ceremony_ref"
    case MasterKeyId => "master_key_id"
    case MasterKeyLabel => "master_key_label"
    case PredecessorLabelField => "predecessor_label"
    case RequiredApprovals => "required_approvals"
    case ApprovalCountField => "approval_count"
    case NewKey => "new_key"
    case Approvals => "approvals"
    case KeyLabel => "key_label"
    case Algorithm => "algorithm"
    case SlotId => "slot_id"
    case RotationPolicyDays => "rotation_policy_days"
    case PredecessorKeyId => "predecessor_key_id"
    case SuccessorKeyId => "successor_key_id"
    case SuccessorLabelField => "successor_label"
    case WrapsDekCount => "wraps_dek_count"
    case PreviousStatus => "previous_status"
  }

  function Key(f: Field): Str { Py(Name(f)) }

  lemma NamesDistinct(f: Field, g: Field)
    ensures Name(f) == Name(g) ==> f == g
  {}

  lemma KeysDistinct()
    ensures forall f, g :: Key(f) == Key(g) ==> f == g
  {
    hide Name;
    forall f, g | Key(f) == Key(g) ensures f == g {
      PyInjective(Name(f), Name(g));
      NamesDistinct(f, g);
    }
  }

  datatype Subtype = KeyRegistered | CeremonyInitiated | CeremonyApproved | RotationComplete | KeyRotated | KeyDisabled

  function SubtypeName(k: Subtype): string {
    match k
    case KeyRegistered => "KEY_REFERENCE_REGISTERED"
    case CeremonyInitiated => "KEY_CEREMONY_INITIATED"
    case CeremonyApproved => "KEY_CEREMONY_APPROVED"
    case RotationComplete => "KEY_ROTATION_COMPLETE"
    case KeyRotated => "KEY_ROTATED"
    case KeyDisabled => "KEY_DISABLED"
  }

  lemma SubtypesDistinct(j: Subtype, k: Subtype)
    ensures Py(SubtypeName(j)) == Py(SubtypeName(k)) ==> j == k
  {
    PyInjective(SubtypeName(j), SubtypeName(k));
  }

  ghost predicate IsSubtype(s: Str, k: Subtype) { s == Py(SubtypeName(k)) }

  /** The kind of key entry a subtype text names. */
  ghost function ReadSubtype(s: Str): (r: Option<Subtype>)
    ensures forall k :: IsSubtype(s, k) <==> r == Some(k)
  {
    if k :| IsSubtype(s, k) then
      (forall j | IsSubtype(s, j) ensures j == k { SubtypesDistinct(j, k); }
       Some(k))
    else None
  }

  function SubtypeOf(cmd: Command): Subtype {
    match cmd
    case CreateKey(_, _, _, _, _, _) => KeyRegistered
    case CreateCeremony(_, _, _, _, _, _) => CeremonyInitiated
    case ApproveCeremony(_, _, _) => CeremonyApproved
    case FinishCeremony(_, _) => RotationComplete
    case RotateKey(_, _, _, _) => KeyRotated
    case DisableKey(_, _) => KeyDisabled
  }

  function Fields(cmd: Command): set<Field> {
    match cmd
    case CreateKey(_, _, _, _, _, _) => {MasterKeyId, KeyLabel, Algorithm, SlotId, RotationPolicyDays}
    case CreateCeremony(_, _, _, _, _, _) => {CeremonyRef, MasterKeyId, MasterKeyLabel, PredecessorLabelField, RequiredApprovals}
    case ApproveCeremony(_, _, _) => {CeremonyRef, MasterKeyId, MasterKeyLabel, ApprovalCountField, RequiredApprovals}
    case FinishCeremony(_, _) => {CeremonyRef, NewKey, Approvals}
    case RotateKey(_, _, _, _) => {PredecessorKeyId, PredecessorLabelField, SuccessorKeyId, SuccessorLabelField, WrapsDekCount}
    case DisableKey(_, _) => {MasterKeyId, KeyLabel, PreviousStatus}
  }

  function StatusValue(s: KeyStatus): string {
    match s
    case Active => "active"
    case Expiring => "expiring"
    case Retired => "retired"
    case Pending => "pending"
    case Disabled => "disabled"
  }

  const NO_KEY := MasterKey([], None, [], Pending, 0, None, None, None, None, 0)
  const NO_CEREMONY := Ceremony([], [], None, 0, Open, None, None, [])

  function KeyAt(s: Store, id: Id): MasterKey { if id in s.keys then s.keys[id] else NO_KEY }
  function CeremonyAt(s: Store, id: Id): Ceremony { if id in s.ceremonies then s.ceremonies[id] else NO_CEREMONY }

  /** The key a command's entry is about, besides a rotation's successor. */
  function Subject(s: Store, cmd: Command): Id {
    match cmd
    case CreateKey(id, _, _, _, _, _) => id
    case CreateCeremony(_, _, keyId, _, _, _) => keyId
    case ApproveCeremony(id, _, _) => CeremonyAt(s, id).keyId
    case FinishCeremony(id, _) => CeremonyAt(s, id).keyId
    case RotateKey(id, _, _, _) => id
    case DisableKey(id, _) => id
  }

  function SubjectLabel(s: Store, cmd: Command): Str {
    if cmd.CreateKey? then cmd.keyLabel else KeyAt(s, Subject(s, cmd)).keyLabel
  }

  /** The ceremony a command works on, as it is once the command took effect. */
  ghost function CeremonyOf(s: Store, cmd: Command): Ceremony {
    match cmd
    case CreateCeremony(_, ref, keyId, p, required, scheduledAt) =>
      var predecessor := PredecessorLabel(s, keyId, p);
      Ceremony(ref, keyId, if predecessor.Ok? then predecessor.value else None, required, Open, scheduledAt, None, [])
    case ApproveCeremony(id, custodian, now) =>
      CeremonyAt(s, id).(approvals := Approved(CeremonyAt(s, id).approvals, custodian, now))
    case FinishCeremony(id, _) => CeremonyAt(s, id)
    case _ => NO_CEREMONY
  }

  function OptText(s: Option<Str>): Json {
    if s.Some? then JStr(s.value) else JNull
  }

  /** `"slot_id": str(key.slot_id) if key.slot_id else None`, and the other fields of each metadata dictionary. */
  ghost function Value(s: Store, cmd: Command, f: Field): Json {
    match f
    case CeremonyRef => JStr(CeremonyOf(s, cmd).ref)
    case MasterKeyId => JStr(Subject(s, cmd))
    case MasterKeyLabel => JStr(SubjectLabel(s, cmd))
    case PredecessorLabelField => if cmd.RotateKey? then JStr(SubjectLabel(s, cmd)) else OptText(CeremonyOf(s, cmd).predecessorLabel)
    case RequiredApprovals => JInt(CeremonyOf(s, cmd).requiredApprovals)
    case ApprovalCountField => JInt(ApprovalCount(CeremonyOf(s, cmd).approvals))
    case NewKey => JStr(SubjectLabel(s, cmd))
    case Approvals => JInt(ApprovalCount(CeremonyOf(s, cmd).approvals))
    case KeyLabel => JStr(SubjectLabel(s, cmd))
    case Algorithm => JStr(if cmd.CreateKey? then cmd.algorithm else [])
    case SlotId => OptText(if cmd.CreateKey? then cmd.slot else None)
    case RotationPolicyDays => JInt(if cmd.CreateKey? then cmd.rotationDays else 0)
    case PredecessorKeyId => JStr(Subject(s, cmd))
    case SuccessorKeyId => JStr(if cmd.RotateKey? then cmd.newId else [])
    case SuccessorLabelField => JStr(if cmd.RotateKey? then SuccessorLabel(SubjectLabel(s, cmd), cmd.newLabel) else [])
    case WrapsDekCount => JInt(KeyAt(s, Subject(s, cmd)).wrapsDekCount)
    case PreviousStatus => JStr(Py(StatusValue(KeyAt(s, Subject(s, cmd)).status)))
  }

  ghost function EntryMetadata(s: Store, cmd: Command): Object {
    KeysDistinct();
    Keyed(Fields(cmd), f => Key(f), f => Value(s, cmd, f))
  }

  ghost function Description(s: Store, cmd: Command): Str {
    var ref, name := CeremonyOf(s, cmd).ref, SubjectLabel(s, cmd);
    match cmd
    case CreateKey(_, _, _, _, _, _) => Py("Registered key reference ") + name
    case CreateCeremony(_, _, _, _, _, _) => Py("Initiated key ceremony ") + ref + Py(" for ") + name
    case ApproveCeremony(_, _, _) => Py("Approved key ceremony ") + ref
    case FinishCeremony(_, _) =>
      var p := CeremonyOf(s, cmd).predecessorLabel;
      (if p.Some? && p.value != [] then p.value else Py("new key")) + Py(" -> ") + name + Py(" rotation completed via ceremony ") + ref
    case RotateKey(_, _, newLabel, _) => Py("Rotated ") + name + Py(" to ") + SuccessorLabel(name, newLabel)
    case DisableKey(_, _) => Py("Disabled key ") + name
  }

  /** The entry a command writes; an approval is written in the custodian's own name. */
  ghost function EntryDraft(s: Store, cmd: Command, actor: Str): Draft {
    Draft(if cmd.DisableKey? then Warning else Info, KeyOperation, Py(SubtypeName(SubtypeOf(cmd))),
          if cmd.ApproveCeremony? then cmd.custodian else actor, Description(s, cmd), None, None, None, EntryMetadata(s, cmd))
  }

  /** A repeated approval writes nothing. */
  ghost predicate Silent(s: Store, cmd: Command) {
    cmd.ApproveCeremony? &&
    var approvals := CeremonyAt(s, cmd.id).approvals;
    var found := FindApproval(approvals, cmd.custodian);
    found.Some? && approvals[found.value].approvedAt.Some?
  }

  datatype Db = Db(store: Store, log: Log)

  datatype Call = Call(cmd: Command, actor: Str, s: Stamp)

  /** One transaction: the step and its entry commit together or not at all. */
  ghost function Transact(c: Crypto, db: Db, i: Input<Call>): Db {
    match i
    case Post(d, s) => db.(log := Append(c, db.log, d, s).log)
    case Serve(Call(cmd, actor, s)) =>
      var step := Hsm.Step(db.store, cmd);
      if step.Err? then db
      else if Silent(db.store, cmd) then db.(store := step.value)
      else
        var a := Append(c, db.log, EntryDraft(db.store, cmd, actor), s);
        if a.ok then Db(step.value, a.log) else db.(log := Log(db.log.rows, a.log.nextSequence))
  }

  // ---------------------------------------------------------------- what can be read back

  /** What an entry says about keys. */
  datatype Note =
    | Nothing
    | Registered(keyLabel: Str)
    | Initiated(ref: Str, predecessor: Option<Str>)
    | Completed(ref: Str, newKey: Str)
    | Rotated(predecessorLabel: Str, successorLabel: Str)
    | WasDisabled(keyLabel: Str)

  function TextAt(e: Content, f: Field): Option<Str> {
    match Get(e.metadata, Key(f)) case Some(JStr(s)) => Some(s) case _ => None
  }

  ghost function Noted(e: Content): Note {
    if e.eventType != KeyOperation then Nothing
    else
      match ReadSubtype(e.eventSubtype)
      case Some(KeyRegistered) => if TextAt(e, KeyLabel).Some? then Registered(TextAt(e, KeyLabel).value) else Nothing
      case Some(CeremonyInitiated) =>
        if TextAt(e, CeremonyRef).Some? then Initiated(TextAt(e, CeremonyRef).value, TextAt(e, PredecessorLabelField)) else Nothing
      case Some(RotationComplete) =>
        if TextAt(e, CeremonyRef).Some? && TextAt(e, NewKey).Some?
        then Completed(TextAt(e, CeremonyRef).value, TextAt(e, NewKey).value) else Nothing
      case Some(KeyRotated) =>
        if TextAt(e, PredecessorLabelField).Some? && TextAt(e, SuccessorLabelField).Some?
        then Rotated(TextAt(e, PredecessorLabelField).value, TextAt(e, SuccessorLabelField).value) else Nothing
      case Some(KeyDisabled) => if TextAt(e, KeyLabel).Some? then WasDisabled(TextAt(e, KeyLabel).value) else Nothing
      case _ => Nothing
  }

  /** What the log tells: each label's status, and each ceremony's predecessor label. */
  datatype Told = Told(statuses: map<Str, KeyStatus>, predecessors: map<Str, Option<Str>>)

  /** The label a completion retires: the one its ceremony was initiated with, if it is not empty and names a key. */
  function RetiredBy(t: Told, ref: Str): Option<Str> {
    if ref !in t.predecessors || t.predecessors[ref].None? then None
    else if t.predecessors[ref].value != [] && t.predecessors[ref].value in t.statuses then t.predecessors[ref]
    else None
  }

  function Tell(t: Told, n: Note): Told {
    match n
    case Nothing => t
    case Registered(keyLabel) => t.(statuses := t.statuses[keyLabel := Pending])
    case Initiated(ref, p) => t.(predecessors := t.predecessors[ref := p])
    case Completed(ref, newKey) =>
      var retired := RetiredBy(t, ref);
      var active := t.statuses[newKey := Active];
      t.(statuses := if retired.Some? then active[retired.value := Retired] else active)
    case Rotated(p, q) => t.(statuses := t.statuses[q := Active][p := Retired])
    case WasDisabled(keyLabel) => t.(statuses := t.statuses[keyLabel := Disabled])
  }

  /** Folding the entries in sequence order. */
  ghost function ToldBy(rows: seq<Entry>): Told {
    if rows == [] then Told(map[], map[]) else Tell(ToldBy(rows[..|rows|-1]), Noted(rows[|rows|-1].content))
  }

  lemma ToldStep(rows: seq<Entry>, e: Entry)
    ensures ToldBy(rows + [e]) == Tell(ToldBy(rows), Noted(e.content))
  {
    assert (rows + [e])[..|rows|] == rows;
  }

  // ---------------------------------------------------------------- agreement with the tables

  ghost predicate UniqueRefs(s: Store) {
    forall c, d :: c in s.ceremonies && d in s.ceremonies && s.ceremonies[c].ref == s.ceremonies[d].ref ==> c == d
  }

  ghost predicate HasKey(s: Store, keyLabel: Str) {
    exists k :: k in s.keys && s.keys[k].keyLabel == keyLabel
  }

  ghost predicate HasRef(s: Store, ref: Str) {
    exists c :: c in s.ceremonies && s.ceremonies[c].ref == ref
  }

  ghost predicate TellsKeys(statuses: map<Str, KeyStatus>, s: Store) {
    (forall k :: k in s.keys ==> s.keys[k].keyLabel in statuses && statuses[s.keys[k].keyLabel] == s.keys[k].status) &&
    forall l :: l in statuses ==> HasKey(s, l)
  }

  ghost predicate TellsCeremonies(predecessors: map<Str, Option<Str>>, s: Store) {
    (forall c :: c in s.ceremonies ==>
       s.ceremonies[c].ref in predecessors && predecessors[s.ceremonies[c].ref] == s.ceremonies[c].predecessorLabel) &&
    forall r :: r in predecessors ==> HasRef(s, r)
  }

  /** Folding the log gives exactly the keys there are, with their statuses. */
  ghost predicate StatusesTold(db: Db) {
    TellsKeys(ToldBy(db.log.rows).statuses, db.store)
  }

  /** Beyond statuses: the log names exactly the ceremonies there are, with their predecessors. */
  ghost predicate CeremoniesTold(db: Db) {
    TellsCeremonies(ToldBy(db.log.rows).predecessors, db.store)
  }

  // ---------------------------------------------------------------- reading back what was written

  /** What the entry of a command is meant to say. */
  ghost function NoteOf(s: Store, cmd: Command): Note {
    match cmd
    case CreateKey(_, keyLabel, _, _, _, _) => Registered(keyLabel)
    case CreateCeremony(_, ref, _, _, _, _) => Initiated(ref, CeremonyOf(s, cmd).predecessorLabel)
    case ApproveCeremony(_, _, _) => Nothing
    case FinishCeremony(id, _) => Completed(CeremonyAt(s, id).ref, SubjectLabel(s, cmd))
    case RotateKey(_, _, newLabel, _) => Rotated(SubjectLabel(s, cmd), SuccessorLabel(SubjectLabel(s, cmd), newLabel))
    case DisableKey(_, _) => WasDisabled(SubjectLabel(s, cmd))
  }

  /** The fields key statuses are read from. */
  predicate IsRead(f: Field) {
    f == CeremonyRef || f == PredecessorLabelField || f == NewKey || f == KeyLabel || f == SuccessorLabelField
  }

  lemma FieldsPlain(f: Field)
    requires IsRead(f)
    ensures !Sensitive(Key(f))
  {
    PlainName(Name(f));
  }

  lemma WrittenField(s: Store, cmd: Command, f: Field)
    requires f in Fields(cmd)
    ensures Get(EntryMetadata(s, cmd), Key(f)) == Some(Value(s, cmd, f))
  {
    hide Key;
    hide Value;
    hide Fields;
    KeysDistinct();
    KeyedAt(Fields(cmd), f => Key(f), f => Value(s, cmd, f), f);
  }

  lemma LoggedField(s: Store, cmd: Command, f: Field, e: Content)
    requires f in Fields(cmd) && IsRead(f) && e.metadata == Sanitized(JObj(EntryMetadata(s, cmd))).fields
    ensures TextAt(e, f) == match Value(s, cmd, f) case JStr(t) => Some(t) case _ => None
  {
    hide Key;
    hide EntryMetadata;
    hide Fields;
    FieldsPlain(f);
    WrittenField(s, cmd, f);
    SanitizedGet(EntryMetadata(s, cmd), Key(f));
    assert !Value(s, cmd, f).JObj? && !Value(s, cmd, f).JArr?;
  }

  /** Reading an entry of the service back gives what it was meant to say, sanitized or not. */
  lemma WrittenIsNoted(s: Store, cmd: Command, actor: Str, now: Clock.Instant)
    ensures Noted(ContentOf(EntryDraft(s, cmd, actor), now)) == NoteOf(s, cmd)
  {
    hide EntryMetadata;
    hide Sanitized;
    hide TextAt;
    hide Description;
    hide SubtypeName;
    hide SuccessorLabel;
    var e := ContentOf(EntryDraft(s, cmd, actor), now);
    assert IsSubtype(e.eventSubtype, SubtypeOf(cmd));
    match cmd
    case CreateKey(_, _, _, _, _, _) => LoggedField(s, cmd, KeyLabel, e);
    case CreateCeremony(_, _, _, _, _, _) =>
      LoggedField(s, cmd, CeremonyRef, e);
      LoggedField(s, cmd, PredecessorLabelField, e);
    case ApproveCeremony(_, _, _) =>
    case FinishCeremony(_, _) =>
      LoggedField(s, cmd, CeremonyRef, e);
      LoggedField(s, cmd, NewKey, e);
    case RotateKey(_, _, _, _) =>
      LoggedField(s, cmd, PredecessorLabelField, e);
      LoggedField(s, cmd, SuccessorLabelField, e);
    case DisableKey(_, _) => LoggedField(s, cmd, KeyLabel, e);
  }
}
