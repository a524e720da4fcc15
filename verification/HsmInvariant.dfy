/** The inductive invariant linking keys, open ceremonies, predecessor labels and the operations history. */
module HsmInvariant {
  import opened Prelude
  import opened PyText
  import opened Hsm

  // ---------------------------------------------------------------- activation order

  /** The operations that activate a key. */
  predicate Activates(o: Operation) {
    o.kind == KeyRotate || o.kind == CeremonyComplete
  }

  /** Each activated key with the position, in the operations history, of its latest activation. */
  ghost function Order(ops: seq<Operation>): map<Id, nat> {
    if ops == [] then map[]
    else
      var n := |ops| - 1;
      var before := Order(ops[..n]);
      if Activates(ops[n]) then before[ops[n].keyId := n] else before
  }

  lemma OrderStep(ops: seq<Operation>, o: Operation)
    ensures Order(ops + [o]) == if Activates(o) then Order(ops)[o.keyId := |ops|] else Order(ops)
  {
    assert (ops + [o])[..|ops|] == ops;
  }

  lemma {:induction false} OrderBounded(ops: seq<Operation>)
    ensures forall k :: k in Order(ops) ==> Order(ops)[k] < |ops| && Activates(ops[Order(ops)[k]]) && ops[Order(ops)[k]].keyId == k
    ensures forall i :: 0 <= i < |ops| && Activates(ops[i]) ==> ops[i].keyId in Order(ops) && i <= Order(ops)[ops[i].keyId]
  {
    if ops != [] {
      var n := |ops| - 1;
      OrderBounded(ops[..n]);
      assert forall i :: 0 <= i < n ==> ops[..n][i] == ops[i];
    }
  }

  /** No key is activated twice. */
  ghost predicate ActivatedOnce(ops: seq<Operation>) {
    forall i, j :: 0 <= i < j < |ops| && Activates(ops[i]) && Activates(ops[j]) ==> ops[i].keyId != ops[j].keyId
  }

  // ---------------------------------------------------------------- invariant

  ghost predicate UniqueLabels(s: Store) {
    forall j, k :: j in s.keys && k in s.keys && s.keys[j].keyLabel == s.keys[k].keyLabel ==> j == k
  }

  ghost predicate KeyOk(s: Store, k: Id)
    requires k in s.keys
  {
    var key, order := s.keys[k], Order(s.operations);
    (key.activatedAt.Some? <==> k in order) &&
    (key.activatedAt.None? ==> key.status == Pending || key.status == Disabled) &&
    (key.status == Pending ==> key.activatedAt.None?) &&
    (key.status == Retired <==> key.supersededBy.Some?) &&
    (key.supersededBy.Some? ==>
      var n := key.supersededBy.value; k in order && n in order && n in s.keys && order[k] < order[n])
  }

  /** No key has two predecessors. */
  ghost predicate SuccessorsDistinct(s: Store) {
    forall j, k ::
      (j in s.keys && k in s.keys && s.keys[j].supersededBy.Some? && s.keys[j].supersededBy == s.keys[k].supersededBy)
      ==> j == k
  }

  ghost predicate HasActivated(s: Store, keyLabel: Str) {
    exists p :: p in s.keys && s.keys[p].keyLabel == keyLabel && s.keys[p].activatedAt.Some?
  }

  ghost predicate CustodiansDistinct(approvals: seq<Approval>) {
    forall i, j :: 0 <= i < j < |approvals| ==> approvals[i].custodian != approvals[j].custodian
  }

  /** A key awaiting its ceremony was never activated; the ceremony's predecessor was. */
  ghost predicate CeremonyOk(s: Store, c: Id)
    requires c in s.ceremonies
  {
    var cer := s.ceremonies[c];
    cer.keyId in s.keys && CustodiansDistinct(cer.approvals) &&
    (cer.status == Open ==> s.keys[cer.keyId].activatedAt.None?) &&
    (cer.status == Open && cer.predecessorLabel.Some? ==> HasActivated(s, cer.predecessorLabel.value))
  }

  ghost predicate IsOpen(s: Store, c: Id) {
    c in s.ceremonies && s.ceremonies[c].status == Open
  }

  ghost predicate OneOpenPerKey(s: Store) {
    forall c, d :: IsOpen(s, c) && IsOpen(s, d) && s.ceremonies[c].keyId == s.ceremonies[d].keyId ==> c == d
  }

  /** A completed ceremony of this key with a quorum of pairwise distinct custodians. */
  ghost predicate QuorumWitness(s: Store, k: Id, c: Id) {
    c in s.ceremonies && s.ceremonies[c].keyId == k && s.ceremonies[c].status == Complete &&
    QuorumMet(s.ceremonies[c]) && CustodiansDistinct(s.ceremonies[c].approvals)
  }

  /** A key activated before position `i` and carrying this label. */
  ghost predicate EarlierKey(s: Store, p: Id, keyLabel: Str, i: nat) {
    p in s.keys && s.keys[p].keyLabel == keyLabel && p in Order(s.operations) && Order(s.operations)[p] < i
  }

  /** Every activation comes from a quorum or from the rotation of an earlier key. */
  ghost predicate Sourced(s: Store, i: nat)
    requires i < |s.operations|
  {
    var o := s.operations[i];
    (o.kind == CeremonyComplete ==> exists c :: QuorumWitness(s, o.keyId, c)) &&
    (o.kind == KeyRotate ==> exists p :: EarlierKey(s, p, o.source, i))
  }

  ghost predicate KeysOk(s: Store) {
    (forall k :: k in s.keys ==> KeyOk(s, k)) && forall k :: k in Order(s.operations) ==> k in s.keys
  }

  ghost predicate CeremoniesOk(s: Store) {
    (forall c :: c in s.ceremonies ==> CeremonyOk(s, c)) && OneOpenPerKey(s)
  }

  ghost predicate HistoryOk(s: Store) {
    ActivatedOnce(s.operations) && forall i: nat :: i < |s.operations| ==> Sourced(s, i)
  }

  ghost predicate Inv(s: Store) {
    UniqueLabels(s) && KeysOk(s) && SuccessorsDistinct(s) && CeremoniesOk(s) && HistoryOk(s)
  }

  /** What survives a step for every key, ceremony and history row already there. */
  ghost predicate Extends(s: Store, t: Store) {
    (forall k :: k in s.keys ==> k in t.keys && t.keys[k].keyLabel == s.keys[k].keyLabel) &&
    (forall k :: k in s.keys && s.keys[k].activatedAt.Some? ==> t.keys[k].activatedAt.Some?) &&
    (forall k :: k in Order(s.operations) ==>
       k in Order(t.operations) && Order(t.operations)[k] == Order(s.operations)[k]) &&
    (forall c :: c in s.ceremonies ==> c in t.ceremonies && (s.ceremonies[c].status == Complete ==> t.ceremonies[c] == s.ceremonies[c])) &&
    s.operations <= t.operations
  }

  lemma ExtendsHasActivated(s: Store, t: Store, keyLabel: Str)
    requires Extends(s, t) && HasActivated(s, keyLabel)
    ensures HasActivated(t, keyLabel)
  {
    var p :| p in s.keys && s.keys[p].keyLabel == keyLabel && s.keys[p].activatedAt.Some?;
    assert p in t.keys && t.keys[p].keyLabel == keyLabel && t.keys[p].activatedAt.Some?;
  }

  lemma ExtendsSourced(s: Store, t: Store, i: nat)
    requires Extends(s, t) && i < |s.operations| && Sourced(s, i)
    ensures Sourced(t, i)
  {
    var o := s.operations[i];
    assert t.operations[i] == o;
    if o.kind == CeremonyComplete {
      var c :| QuorumWitness(s, o.keyId, c);
      assert QuorumWitness(t, o.keyId, c);
    }
    if o.kind == KeyRotate {
      var p :| EarlierKey(s, p, o.source, i);
      assert EarlierKey(t, p, o.source, i);
    }
  }

  // ---------------------------------------------------------------- what every command carries over

  /** A ceremony is still in order if its key was not activated meanwhile. */
  lemma CeremonyCarries(s: Store, t: Store, c: Id)
    requires Extends(s, t) && c in s.ceremonies && CeremonyOk(s, c)
    requires t.ceremonies[c] == s.ceremonies[c]
    requires s.ceremonies[c].status == Open ==> t.keys[s.ceremonies[c].keyId].activatedAt.None?
    ensures CeremonyOk(t, c)
  {
    hide Order;
    if s.ceremonies[c].status == Open && s.ceremonies[c].predecessorLabel.Some? {
      ExtendsHasActivated(s, t, s.ceremonies[c].predecessorLabel.value);
    }
  }

  /** Steps that leave ceremonies alone and activate no waiting key. */
  lemma CeremoniesCarry(s: Store, t: Store)
    requires CeremoniesOk(s) && Extends(s, t) && t.ceremonies == s.ceremonies
    requires forall k :: k in s.keys && s.keys[k].activatedAt.None? ==> t.keys[k].activatedAt.None?
    ensures CeremoniesOk(t)
  {
    hide Order;
    forall c | c in t.ceremonies ensures CeremonyOk(t, c) {
      assert CeremonyOk(s, c);
      CeremonyCarries(s, t, c);
    }
    forall c, d | IsOpen(t, c) && IsOpen(t, d) && t.ceremonies[c].keyId == t.ceremonies[d].keyId ensures c == d {
      assert IsOpen(s, c) && IsOpen(s, d);
    }
  }

  /** One more history row, itself accounted for. */
  lemma HistoryCarries(s: Store, t: Store, o: Operation)
    requires HistoryOk(s) && Extends(s, t) && t.operations == s.operations + [o]
    requires Activates(o) ==> o.keyId !in Order(s.operations) && Sourced(t, |s.operations|)
    ensures HistoryOk(t)
  {
    hide Order;
    OrderBounded(s.operations);
    forall i: nat | i < |t.operations| ensures Sourced(t, i) {
      if i < |s.operations| { ExtendsSourced(s, t, i); } else if !Activates(o) { NotAnActivation(t, i); }
    }
  }

  lemma NotAnActivation(s: Store, i: nat)
    requires i < |s.operations| && !Activates(s.operations[i])
    ensures Sourced(s, i)
  {}

  /** Steps that touch only ceremonies. */
  lemma CeremonyStepCarries(s: Store, t: Store)
    requires Inv(s) && Extends(s, t) && t.keys == s.keys && t.operations == s.operations
    ensures UniqueLabels(t) && KeysOk(t) && SuccessorsDistinct(t) && HistoryOk(t)
  {
    hide Order;
    forall k | k in t.keys ensures KeyOk(t, k) { assert KeyOk(s, k); }
    forall i: nat | i < |t.operations| ensures Sourced(t, i) { ExtendsSourced(s, t, i); }
  }

  // ---------------------------------------------------------------- each command keeps the invariant

  lemma CreateKeyKeeps(s: Store, c: Command)
    requires Inv(s) && c.CreateKey? && CreateKeyStep(s, c).Ok?
    ensures Inv(CreateKeyStep(s, c).value) && Extends(s, CreateKeyStep(s, c).value)
  {
    hide Order;
    hide CeremoniesOk;
    hide HistoryOk;
    hide KeyOk;
    hide UniqueLabels;
    hide SuccessorsDistinct;
    var t := CreateKeyStep(s, c).value;
    var o := t.operations[|s.operations|];
    OrderStep(s.operations, o);
    assert Extends(s, t);
    HistoryCarries(s, t, o);
    CeremoniesCarry(s, t);
    CreateKeyLabels(s, c);
    CreateKeyKeys(s, c);
  }

  lemma CreateKeyLabels(s: Store, c: Command)
    requires UniqueLabels(s) && SuccessorsDistinct(s) && c.CreateKey? && CreateKeyStep(s, c).Ok?
    ensures UniqueLabels(CreateKeyStep(s, c).value) && SuccessorsDistinct(CreateKeyStep(s, c).value)
  {
    assert forall k :: k in s.keys ==> k !in KeysLabelled(s, c.keyLabel);
  }

  lemma CreateKeyKeys(s: Store, c: Command)
    requires KeysOk(s) && c.CreateKey? && CreateKeyStep(s, c).Ok?
    ensures KeysOk(CreateKeyStep(s, c).value)
  {
    hide Order;
    var t := CreateKeyStep(s, c).value;
    OrderStep(s.operations, t.operations[|s.operations|]);
    forall k | k in t.keys ensures KeyOk(t, k) {
      if k in s.keys { assert KeyOk(s, k); }
    }
  }

  lemma CreateCeremonyKeeps(s: Store, c: Command)
    requires Inv(s) && c.CreateCeremony? && CreateCeremonyStep(s, c).Ok?
    ensures Inv(CreateCeremonyStep(s, c).value) && Extends(s, CreateCeremonyStep(s, c).value)
  {
    hide Order;
    hide HistoryOk;
    var t := CreateCeremonyStep(s, c).value;
    assert Extends(s, t);
    CeremonyStepCarries(s, t);
    NewCeremonyOk(s, c);
    OpenAfterCreate(s, c);
    forall d | d in t.ceremonies && d != c.id ensures CeremonyOk(t, d) {
      assert CeremonyOk(s, d);
      CeremonyCarries(s, t, d);
    }
  }

  lemma NewCeremonyOk(s: Store, c: Command)
    requires KeysOk(s) && c.CreateCeremony? && CreateCeremonyStep(s, c).Ok?
    ensures CeremonyOk(CreateCeremonyStep(s, c).value, c.id)
  {
    hide Order;
    var t := CreateCeremonyStep(s, c).value;
    assert KeyOk(s, c.keyId);
    if c.predecessorId.Some? {
      assert KeyOk(s, c.predecessorId.value);
      assert HasActivated(t, s.keys[c.predecessorId.value].keyLabel);
    }
  }

  lemma OpenAfterCreate(s: Store, c: Command)
    requires OneOpenPerKey(s) && c.CreateCeremony? && CreateCeremonyStep(s, c).Ok?
    ensures OneOpenPerKey(CreateCeremonyStep(s, c).value)
  {
    var t := CreateCeremonyStep(s, c).value;
    assert OpenCeremonies(s, c.keyId) == {};
    forall d | IsOpen(t, d) && d != c.id ensures IsOpen(s, d) && s.ceremonies[d].keyId != c.keyId {
      assert d !in OpenCeremonies(s, c.keyId);
    }
  }

  /** No ceremony was opened and none changed its key. */
  lemma OneOpenCarries(s: Store, t: Store)
    requires OneOpenPerKey(s)
    requires forall d :: IsOpen(t, d) ==> IsOpen(s, d) && s.ceremonies[d].keyId == t.ceremonies[d].keyId
    ensures OneOpenPerKey(t)
  {
    forall c, d | IsOpen(t, c) && IsOpen(t, d) && t.ceremonies[c].keyId == t.ceremonies[d].keyId ensures c == d {
      assert IsOpen(s, c) && IsOpen(s, d);
    }
  }

  lemma ApproveKeeps(s: Store, id: Id, custodian: Str, now: int)
    requires Inv(s) && ApproveStep(s, id, custodian, now).Ok?
    ensures Inv(ApproveStep(s, id, custodian, now).value) && Extends(s, ApproveStep(s, id, custodian, now).value)
  {
    hide Order;
    hide HistoryOk;
    hide KeysOk;
    hide Approved;
    hide CeremoniesOk;
    var t := ApproveStep(s, id, custodian, now).value;
    assert Extends(s, t);
    hide Extends;
    CeremonyStepCarries(s, t);
    ApproveCeremonies(s, id, custodian, now);
  }

  lemma ApproveCeremonies(s: Store, id: Id, custodian: Str, now: int)
    requires CeremoniesOk(s) && ApproveStep(s, id, custodian, now).Ok? && Extends(s, ApproveStep(s, id, custodian, now).value)
    ensures CeremoniesOk(ApproveStep(s, id, custodian, now).value)
  {
    hide Approved;
    hide Extends;
    hide OneOpenPerKey;
    hide HasActivated;
    hide CustodiansDistinct;
    var t := ApproveStep(s, id, custodian, now).value;
    OneOpenCarries(s, t);
    forall d | d in t.ceremonies ensures CeremonyOk(t, d) {
      assert CeremonyOk(s, d);
      if d != id {
        CeremonyCarries(s, t, d);
      } else {
        ApprovedDistinct(s.ceremonies[d].approvals, custodian, now);
        if s.ceremonies[d].predecessorLabel.Some? {
          ExtendsHasActivated(s, t, s.ceremonies[d].predecessorLabel.value);
        }
      }
    }
  }

  lemma ApprovedDistinct(approvals: seq<Approval>, custodian: Str, now: int)
    requires CustodiansDistinct(approvals)
    ensures CustodiansDistinct(Approved(approvals, custodian, now))
  {}

  lemma DisableKeeps(s: Store, id: Id, now: int)
    requires Inv(s) && DisableStep(s, id, now).Ok?
    ensures Inv(DisableStep(s, id, now).value) && Extends(s, DisableStep(s, id, now).value)
  {
    hide Order;
    hide CeremoniesOk;
    hide HistoryOk;
    hide KeysOk;
    var t := DisableStep(s, id, now).value;
    var o := t.operations[|s.operations|];
    OrderStep(s.operations, o);
    assert Extends(s, t);
    DisableKeys(s, id, now);
    hide Extends;
    HistoryCarries(s, t, o);
    CeremoniesCarry(s, t);
  }

  lemma DisableKeys(s: Store, id: Id, now: int)
    requires KeysOk(s) && DisableStep(s, id, now).Ok?
    requires Order(DisableStep(s, id, now).value.operations) == Order(s.operations)
    ensures KeysOk(DisableStep(s, id, now).value)
  {
    hide Order;
    var t := DisableStep(s, id, now).value;
    forall k | k in t.keys ensures KeyOk(t, k) { assert KeyOk(s, k); }
  }

  /** The shape shared by rotation and completion: `n` becomes active and `p`, if any, is retired in its favour. */
  ghost predicate Activation(s: Store, t: Store, n: Id, p: Option<Id>, o: Operation) {
    t.operations == s.operations + [o] && Activates(o) && o.keyId == n && n !in Order(s.operations) &&
    t.keys.Keys == s.keys.Keys + {n} &&
    (n in s.keys ==> t.keys[n].keyLabel == s.keys[n].keyLabel) &&
    t.keys[n].status == Active && t.keys[n].activatedAt.Some? && t.keys[n].supersededBy.None? &&
    (p.Some? ==>
      p.value in s.keys && p.value != n && p.value in Order(s.operations) && t.keys[p.value].status == Retired &&
      t.keys[p.value].supersededBy == Some(n) && t.keys[p.value].activatedAt == s.keys[p.value].activatedAt &&
      t.keys[p.value].keyLabel == s.keys[p.value].keyLabel) &&
    forall k :: k in s.keys && k != n && Some(k) != p ==> t.keys[k] == s.keys[k]
  }

  lemma ActivationOrder(s: Store, t: Store, n: Id, p: Option<Id>, o: Operation)
    requires KeysOk(s) && Activation(s, t, n, p, o)
    ensures Order(t.operations) == Order(s.operations)[n := |s.operations|]
    ensures forall k :: k in Order(s.operations) ==> Order(s.operations)[k] < |s.operations|
    ensures forall k :: k in s.keys ==> KeyOk(s, k)
  {
    OrderStep(s.operations, o);
    OrderBounded(s.operations);
  }

  lemma ActivationKeyOk(s: Store, t: Store, n: Id, p: Option<Id>, o: Operation, k: Id)
    requires KeysOk(s) && Activation(s, t, n, p, o) && k in t.keys
    ensures KeyOk(t, k)
  {
    hide Order;
    ActivationOrder(s, t, n, p, o);
    if k in s.keys { assert KeyOk(s, k); }
  }

  lemma ActivationKeys(s: Store, t: Store, n: Id, p: Option<Id>, o: Operation)
    requires KeysOk(s) && SuccessorsDistinct(s) && Activation(s, t, n, p, o)
    ensures KeysOk(t) && SuccessorsDistinct(t)
  {
    hide Order;
    assert KeysOk(t) by {
      hide KeyOk;
      ActivationOrder(s, t, n, p, o);
      forall k | k in t.keys ensures KeyOk(t, k) { ActivationKeyOk(s, t, n, p, o, k); }
    }
    ActivationSuccessors(s, t, n, p, o);
  }

  lemma ActivationSuccessors(s: Store, t: Store, n: Id, p: Option<Id>, o: Operation)
    requires KeysOk(s) && SuccessorsDistinct(s) && Activation(s, t, n, p, o)
    ensures SuccessorsDistinct(t)
  {
    hide Order;
    forall k | k in s.keys && s.keys[k].supersededBy.Some? ensures s.keys[k].supersededBy.value != n {
      assert KeyOk(s, k);
    }
  }

  lemma ActivationExtends(s: Store, t: Store, n: Id, p: Option<Id>, o: Operation)
    requires KeysOk(s) && Activation(s, t, n, p, o)
    requires forall c :: c in s.ceremonies ==>
               c in t.ceremonies && (s.ceremonies[c].status == Complete ==> t.ceremonies[c] == s.ceremonies[c])
    ensures Extends(s, t)
  {
    hide Order;
    hide KeyOk;
    ActivationOrder(s, t, n, p, o);
  }

  lemma RotateShape(s: Store, id: Id, newId: Id, newLabel: Option<Str>, now: int)
    requires Inv(s) && RotateStep(s, id, newId, newLabel, now).Ok?
    ensures var t := RotateStep(s, id, newId, newLabel, now).value;
            Activation(s, t, newId, Some(id), t.operations[|s.operations|]) && UniqueLabels(t)
  {
    hide Order;
    hide CeremoniesOk;
    hide HistoryOk;
    hide SuccessorLabel;
    hide SuccessorsDistinct;
    hide UniqueLabels;
    assert KeyOk(s, id);
    hide KeysOk;
    RotateLabels(s, id, newId, newLabel, now);
  }

  lemma RotateLabels(s: Store, id: Id, newId: Id, newLabel: Option<Str>, now: int)
    requires UniqueLabels(s) && RotateStep(s, id, newId, newLabel, now).Ok?
    ensures UniqueLabels(RotateStep(s, id, newId, newLabel, now).value)
  {
    hide SuccessorLabel;
    var t := RotateStep(s, id, newId, newLabel, now).value;
    assert forall k :: k in s.keys ==> k !in KeysLabelled(s, t.keys[newId].keyLabel);
  }

  lemma RotateKeeps(s: Store, id: Id, newId: Id, newLabel: Option<Str>, now: int)
    requires Inv(s) && RotateStep(s, id, newId, newLabel, now).Ok?
    ensures Inv(RotateStep(s, id, newId, newLabel, now).value) && Extends(s, RotateStep(s, id, newId, newLabel, now).value)
  {
    hide Order;
    hide CeremoniesOk;
    hide HistoryOk;
    hide NextVersionLabel;
    hide KeyOk;
    hide KeysOk;
    hide SuccessorsDistinct;
    hide UniqueLabels;
    var t := RotateStep(s, id, newId, newLabel, now).value;
    var o := t.operations[|s.operations|];
    RotateShape(s, id, newId, newLabel, now);
    ActivationKeys(s, t, newId, Some(id), o);
    ActivationOrder(s, t, newId, Some(id), o);
    ActivationExtends(s, t, newId, Some(id), o);
    RotationSourced(t, id, |s.operations|);
    HistoryCarries(s, t, o);
    CeremoniesCarry(s, t);
  }

  lemma RotationSourced(s: Store, p: Id, i: nat)
    requires i < |s.operations| && s.operations[i].kind == KeyRotate && EarlierKey(s, p, s.operations[i].source, i)
    ensures Sourced(s, i)
  {}

  lemma CompletionSourced(s: Store, c: Id, i: nat)
    requires i < |s.operations| && s.operations[i].kind == CeremonyComplete && QuorumWitness(s, s.operations[i].keyId, c)
    ensures Sourced(s, i)
  {}

  /** The key a completion activates was never active, and the key it retires, if any, was. */
  lemma FinishKeysKnown(s: Store, id: Id, now: int)
    requires Inv(s) && FinishStep(s, id, now).Ok?
    ensures var c := s.ceremonies[id]; var p := CeremonyPredecessor(s, c).value;
            c.keyId in s.keys && c.keyId !in Order(s.operations) && s.keys[c.keyId].supersededBy.None? &&
            (p.Some? ==> p.value in s.keys && p.value != c.keyId && p.value in Order(s.operations))
  {
    hide Order;
    hide HistoryOk;
    hide QuorumMet;
    var c := s.ceremonies[id];
    var p := CeremonyPredecessor(s, c).value;
    assert CeremonyOk(s, id) && KeyOk(s, c.keyId);
    if p.Some? {
      assert KeyOk(s, p.value);
      var q :| q in s.keys && s.keys[q].keyLabel == c.predecessorLabel.value && s.keys[q].activatedAt.Some?;
      assert q == p.value;
    }
  }

  lemma FinishShape(s: Store, id: Id, now: int)
    requires Inv(s) && FinishStep(s, id, now).Ok?
    ensures var t, c := FinishStep(s, id, now).value, s.ceremonies[id];
            Activation(s, t, c.keyId, CeremonyPredecessor(s, c).value, t.operations[|s.operations|]) && UniqueLabels(t)
  {
    hide Order;
    hide HistoryOk;
    hide CeremoniesOk;
    hide KeysOk;
    hide SuccessorsDistinct;
    hide QuorumMet;
    hide CeremonyPredecessor;
    FinishKeysKnown(s, id, now);
  }

  lemma FinishCeremonies(s: Store, id: Id, now: int)
    requires Inv(s) && FinishStep(s, id, now).Ok? && Extends(s, FinishStep(s, id, now).value)
    requires Activation(s, FinishStep(s, id, now).value, s.ceremonies[id].keyId, CeremonyPredecessor(s, s.ceremonies[id]).value,
                        FinishStep(s, id, now).value.operations[|s.operations|])
    ensures CeremoniesOk(FinishStep(s, id, now).value)
  {
    hide KeysOk;
    hide HistoryOk;
    hide UniqueLabels;
    hide SuccessorsDistinct;
    hide QuorumMet;
    hide CeremonyPredecessor;
    hide KeysAfter;
    hide Extends;
    hide CeremonyOk;
    var t := FinishStep(s, id, now).value;
    StillWaiting(s, t, s.ceremonies[id].keyId, CeremonyPredecessor(s, s.ceremonies[id]).value, t.operations[|s.operations|]);
    hide Activation;
    OneOpenCarries(s, t);
    forall d | d in t.ceremonies ensures CeremonyOk(t, d) {
      assert CeremonyOk(s, d);
      if d != id {
        assert IsOpen(s, id) && (IsOpen(s, d) ==> s.ceremonies[d].keyId != s.ceremonies[id].keyId);
        OpenKeyWaits(s, d);
        CeremonyCarries(s, t, d);
      } else {
        FinishedOk(s, t, d);
      }
    }
  }

  /** An activation leaves every other key that was never activated as it was. */
  lemma StillWaiting(s: Store, t: Store, n: Id, p: Option<Id>, o: Operation)
    requires KeysOk(s) && Activation(s, t, n, p, o)
    ensures forall k :: k in s.keys && k != n && s.keys[k].activatedAt.None? ==> k in t.keys && t.keys[k].activatedAt.None?
  {
    hide Order;
    forall k | k in s.keys && k != n && s.keys[k].activatedAt.None? ensures t.keys[k].activatedAt.None? { assert KeyOk(s, k); }
  }

  lemma OpenKeyWaits(s: Store, d: Id)
    requires d in s.ceremonies && CeremonyOk(s, d)
    ensures s.ceremonies[d].keyId in s.keys && (s.ceremonies[d].status == Open ==> s.keys[s.ceremonies[d].keyId].activatedAt.None?)
  {
    hide HasActivated;
    hide CustodiansDistinct;
  }

  lemma FinishedOk(s: Store, t: Store, d: Id)
    requires d in s.ceremonies && CeremonyOk(s, d) && d in t.ceremonies && Extends(s, t)
    requires t.ceremonies[d].status == Complete && t.ceremonies[d].keyId == s.ceremonies[d].keyId
    requires t.ceremonies[d].approvals == s.ceremonies[d].approvals
    ensures CeremonyOk(t, d)
  {
    hide HasActivated;
    hide CustodiansDistinct;
    hide Order;
  }

  lemma FinishKeeps(s: Store, id: Id, now: int)
    requires Inv(s) && FinishStep(s, id, now).Ok?
    ensures Inv(FinishStep(s, id, now).value) && Extends(s, FinishStep(s, id, now).value)
  {
    hide Order;
    hide HistoryOk;
    hide KeyOk;
    hide CeremonyPredecessor;
    var t, c := FinishStep(s, id, now).value, s.ceremonies[id];
    var p, o := CeremonyPredecessor(s, c).value, t.operations[|s.operations|];
    FinishShape(s, id, now);
    ActivationKeys(s, t, c.keyId, p, o);
    ActivationExtends(s, t, c.keyId, p, o);
    FinishCeremonies(s, id, now);
    assert CeremonyOk(s, id);
    assert QuorumWitness(t, c.keyId, id);
    CompletionSourced(t, id, |s.operations|);
    HistoryCarries(s, t, o);
  }
}
