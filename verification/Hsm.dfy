/** Master keys and custodian-quorum ceremonies: the tables, and each service operation as one committed step. */
module Hsm {
  import opened Prelude
  import opened PyText
  import opened Json

  type Id = Str

  datatype KeyStatus = Active | Expiring | Retired | Pending | Disabled

  datatype MasterKey = MasterKey(
    keyLabel: Str, slot: Option<Id>, algorithm: Str, status: KeyStatus, rotationDays: nat,
    activatedAt: Option<int>, expiresAt: Option<int>, retiredAt: Option<int>,
    supersededBy: Option<Id>, wrapsDekCount: nat)

  datatype CeremonyStatus = Open | Complete | Aborted

  datatype Approval = Approval(custodian: Str, approvedAt: Option<int>)

  datatype Ceremony = Ceremony(
    ref: Str, keyId: Id, predecessorLabel: Option<Str>, requiredApprovals: nat, status: CeremonyStatus,
    scheduledAt: Option<int>, completedAt: Option<int>, approvals: seq<Approval>)

  /** `KeyCeremony.approval_count`. */
  function ApprovalCount(approvals: seq<Approval>): nat {
    if approvals == [] then 0
    else (if approvals[0].approvedAt.Some? then 1 else 0) + ApprovalCount(approvals[1..])
  }

  /** `KeyCeremony.quorum_met`. */
  predicate QuorumMet(c: Ceremony) {
    ApprovalCount(c.approvals) >= c.requiredApprovals
  }

  /** A row of the operations history; `source` is the key label a rotation's detail text names first. */
  datatype OperationType = KeyCreate | KeyRotate | KeyDisable | CeremonyComplete
  datatype Operation = Operation(kind: OperationType, keyId: Id, keyLabel: Str, source: Str, occurredAt: int)

  datatype Store = Store(
    keys: map<Id, MasterKey>, ceremonies: map<Id, Ceremony>, operations: seq<Operation>, slots: set<Id>)

  const SECONDS_PER_DAY := 86_400

  // ---------------------------------------------------------------- queries

  ghost function KeysLabelled(s: Store, keyLabel: Str): set<Id> {
    set k | k in s.keys && s.keys[k].keyLabel == keyLabel
  }

  ghost function OpenCeremonies(s: Store, keyId: Id): set<Id> {
    set c | c in s.ceremonies && s.ceremonies[c].keyId == keyId && s.ceremonies[c].status == Open
  }

  /** `scalar_one_or_none`: no row, the one row, or an error when there are several. */
  ghost function ScalarOneOrNone(rows: set<Id>): Result<Option<Id>> {
    if rows == {} then Ok(None)
    else if |rows| == 1 then Ok(Some(var x :| x in rows; x))
    else Err(MultipleResults)
  }

  // ---------------------------------------------------------------- successor labels

  predicate IsAsciiDigit(c: CodePoint) { '0' as int <= c <= '9' as int }

  /** Where the trailing run of digits starts. */
  function DigitsFrom(keyLabel: Str): (i: nat)
    ensures i <= |keyLabel| && forall j :: i <= j < |keyLabel| ==> IsAsciiDigit(keyLabel[j])
    ensures i > 0 ==> !IsAsciiDigit(keyLabel[i-1])
    decreases |keyLabel|
  {
    if keyLabel == [] || !IsAsciiDigit(keyLabel[|keyLabel|-1]) then |keyLabel| else DigitsFrom(keyLabel[..|keyLabel|-1])
  }

  function DigitsValue(digits: Str): nat
    requires forall j :: 0 <= j < |digits| ==> IsAsciiDigit(digits[j])
  {
    if digits == [] then 0
    else
      assert IsAsciiDigit(digits[|digits|-1]);
      10 * DigitsValue(digits[..|digits|-1]) + (digits[|digits|-1] - '0' as int)
  }

  /** `_next_version_label`: `…-v5` becomes `…-v6`, an unversioned label gains `-v2`. */
  function NextVersionLabel(keyLabel: Str): Str {
    var i := DigitsFrom(keyLabel);
    if 2 <= i < |keyLabel| && keyLabel[i-2] == '-' as int && keyLabel[i-1] == 'v' as int
    then keyLabel[..i] + Py(NatText(DigitsValue(keyLabel[i..]) + 1))
    else keyLabel + Py("-v2")
  }

  /** `new_label or _next_version_label(key.key_label)`. */
  function SuccessorLabel(keyLabel: Str, newLabel: Option<Str>): Str {
    if newLabel.Some? && newLabel.value != [] then newLabel.value else NextVersionLabel(keyLabel)
  }

  // ---------------------------------------------------------------- operations

  datatype Command =
    | CreateKey(id: Id, keyLabel: Str, slot: Option<Id>, algorithm: Str, rotationDays: nat, now: int)
    | CreateCeremony(id: Id, ref: Str, keyId: Id, predecessorId: Option<Id>, required: nat, scheduledAt: Option<int>)
    | ApproveCeremony(id: Id, custodian: Str, now: int)
    | FinishCeremony(id: Id, now: int)
    | RotateKey(id: Id, newId: Id, newLabel: Option<Str>, now: int)
    | DisableKey(id: Id, now: int)

  ghost function Step(s: Store, c: Command): Result<Store> {
    match c
    case CreateKey(_, _, _, _, _, _) => CreateKeyStep(s, c)
    case CreateCeremony(_, _, _, _, _, _) => CreateCeremonyStep(s, c)
    case ApproveCeremony(id, custodian, now) => ApproveStep(s, id, custodian, now)
    case FinishCeremony(id, now) => FinishStep(s, id, now)
    case RotateKey(id, newId, newLabel, now) => RotateStep(s, id, newId, newLabel, now)
    case DisableKey(id, now) => DisableStep(s, id, now)
  }

  ghost function CreateKeyStep(s: Store, c: Command): Result<Store>
    requires c.CreateKey?
  {
    if KeysLabelled(s, c.keyLabel) != {} then Err(Conflict)
    else if c.slot.Some? && c.slot.value !in s.slots then Err(NotFound)
    else if c.id in s.keys then Err(IntegrityError)
    else
      var key := MasterKey(c.keyLabel, c.slot, c.algorithm, Pending, c.rotationDays, None, None, None, None, 0);
      Ok(s.(keys := s.keys[c.id := key],
            operations := s.operations + [Operation(KeyCreate, c.id, c.keyLabel, c.keyLabel, c.now)]))
  }

  /** The label recorded for the ceremony's predecessor, or the refusal. */
  ghost function PredecessorLabel(s: Store, keyId: Id, predecessorId: Option<Id>): Result<Option<Str>> {
    match predecessorId
    case None => Ok(None)
    case Some(p) =>
      if p == keyId then Err(Conflict)
      else if p !in s.keys then Err(NotFound)
      else if s.keys[p].status != Active && s.keys[p].status != Expiring then Err(Conflict)
      else Ok(Some(s.keys[p].keyLabel))
  }

  ghost function CreateCeremonyStep(s: Store, c: Command): Result<Store>
    requires c.CreateCeremony?
  {
    if c.keyId !in s.keys then Err(NotFound)
    else if s.keys[c.keyId].status != Pending then Err(Conflict)
    else
      var predecessor := PredecessorLabel(s, c.keyId, c.predecessorId);
      if predecessor.Err? then Err(predecessor.error)
      else
        var duplicate := ScalarOneOrNone(OpenCeremonies(s, c.keyId));
        if duplicate.Err? then Err(duplicate.error)
        else if duplicate.value.Some? then Err(Conflict)
        else if c.id in s.ceremonies || exists d :: d in s.ceremonies && s.ceremonies[d].ref == c.ref then Err(IntegrityError)
        else
          Ok(s.(ceremonies := s.ceremonies[
            c.id := Ceremony(c.ref, c.keyId, predecessor.value, c.required, Open, c.scheduledAt, None, [])]))
  }

  /** The first approval row of this custodian, if any. */
  function FindApproval(approvals: seq<Approval>, custodian: Str): (r: Option<nat>)
    ensures r.None? <==> forall i :: 0 <= i < |approvals| ==> approvals[i].custodian != custodian
    ensures r.Some? ==> r.value < |approvals| && approvals[r.value].custodian == custodian
  {
    if approvals == [] then None
    else if approvals[0].custodian == custodian then Some(0)
    else match FindApproval(approvals[1..], custodian) case None => None case Some(i) => Some(i + 1)
  }

  function Approved(approvals: seq<Approval>, custodian: Str, now: int): seq<Approval> {
    match FindApproval(approvals, custodian)
    case None => approvals + [Approval(custodian, Some(now))]
    case Some(i) => if approvals[i].approvedAt.Some? then approvals else approvals[i := Approval(custodian, Some(now))]
  }

  ghost function ApproveStep(s: Store, id: Id, custodian: Str, now: int): Result<Store> {
    if id !in s.ceremonies then Err(NotFound)
    else if s.ceremonies[id].status != Open then Err(Conflict)
    else
      var c := s.ceremonies[id];
      Ok(s.(ceremonies := s.ceremonies[id := c.(approvals := Approved(c.approvals, custodian, now))]))
  }

  ghost function Activated(k: MasterKey, now: int): MasterKey {
    k.(status := Active, activatedAt := Some(now), expiresAt := Some(now + k.rotationDays * SECONDS_PER_DAY))
  }

  ghost function Superseded(k: MasterKey, successor: Id, now: int): MasterKey {
    k.(status := Retired, retiredAt := Some(now), supersededBy := Some(successor))
  }

  /** Completion never looks at the key's own status. */
  ghost function FinishStep(s: Store, id: Id, now: int): Result<Store> {
    if id !in s.ceremonies then Err(NotFound)
    else
      var c := s.ceremonies[id];
      if c.status != Open then Err(Conflict)
      else if !QuorumMet(c) then Err(Conflict)
      else if c.keyId !in s.keys then Err(NotFound)
      else
        var predecessor := CeremonyPredecessor(s, c);
        if predecessor.Err? then Err(predecessor.error)
        else
          Ok(s.(keys := KeysAfter(s.keys, c.keyId, predecessor.value, now),
                ceremonies := s.ceremonies[id := c.(status := Complete, completedAt := Some(now))],
                operations := s.operations + [Operation(CeremonyComplete, c.keyId, s.keys[c.keyId].keyLabel, c.ref, now)]))
  }

  /** The key the ceremony's predecessor label finds; an empty label is no label. */
  ghost function CeremonyPredecessor(s: Store, c: Ceremony): (r: Result<Option<Id>>)
    ensures r.Ok? && r.value.Some? ==>
              c.predecessorLabel.Some? && r.value.value in KeysLabelled(s, c.predecessorLabel.value)
  {
    if c.predecessorLabel.None? || c.predecessorLabel.value == [] then Ok(None)
    else ScalarOneOrNone(KeysLabelled(s, c.predecessorLabel.value))
  }

  /** The key activated and its predecessor, if any, retired in its favour. */
  ghost function KeysAfter(keys: map<Id, MasterKey>, n: Id, predecessor: Option<Id>, now: int): map<Id, MasterKey>
    requires n in keys && (predecessor.Some? ==> predecessor.value in keys)
  {
    var active := keys[n := Activated(keys[n], now)];
    if predecessor.None? then active
    else Retire(active[n := active[n].(supersededBy := None)], predecessor.value, n, now)
  }

  ghost function Retire(keys: map<Id, MasterKey>, k: Id, successor: Id, now: int): map<Id, MasterKey>
    requires k in keys
  {
    keys[k := Superseded(keys[k], successor, now)]
  }

  ghost function RotateStep(s: Store, id: Id, newId: Id, newLabel: Option<Str>, now: int): Result<Store> {
    if id !in s.keys then Err(NotFound)
    else
      var key := s.keys[id];
      if key.status != Active && key.status != Expiring then Err(Conflict)
      else
        var keyLabel := SuccessorLabel(key.keyLabel, newLabel);
        if KeysLabelled(s, keyLabel) != {} then Err(Conflict)
        else if newId in s.keys then Err(IntegrityError)
        else
          var successor := MasterKey(keyLabel, key.slot, key.algorithm, Active, key.rotationDays, Some(now),
                                     Some(now + key.rotationDays * SECONDS_PER_DAY), None, None, key.wrapsDekCount);
          Ok(s.(keys := Retire(s.keys[newId := successor], id, newId, now),
                operations := s.operations + [Operation(KeyRotate, newId, keyLabel, key.keyLabel, now)]))
  }

  ghost function DisableStep(s: Store, id: Id, now: int): Result<Store> {
    if id !in s.keys then Err(NotFound)
    else
      var key := s.keys[id];
      if key.status == Retired || key.status == Disabled then Err(Conflict)
      else
        Ok(s.(keys := s.keys[id := key.(status := Disabled, retiredAt := Some(now))],
              operations := s.operations + [Operation(KeyDisable, id, key.keyLabel, key.keyLabel, now)]))
  }

  /** A refused command leaves the store as it was. */
  ghost function Next(s: Store, c: Command): Store {
    var r := Step(s, c);
    if r.Ok? then r.value else s
  }

  ghost function Run(s: Store, cs: seq<Command>): Store
    decreases |cs|
  {
    if cs == [] then s else Run(Next(s, cs[0]), cs[1..])
  }
}
