/** The HSM service over mutable tables: each method carries out one step in place, or refuses and changes nothing. */
module HsmTables {
  import opened Prelude
  import opened PyText
  import opened Hsm
  import opened HsmInvariant
  import HsmTheorems

  class Tables {
    var keys: map<Id, MasterKey>
    var ceremonies: map<Id, Ceremony>
    var operations: seq<Operation>
    const slots: set<Id>

    ghost function View(): Store
      reads this
    {
      Store(keys, ceremonies, operations, slots)
    }

    constructor (slots: set<Id>)
      ensures View() == Store(map[], map[], [], slots) && Inv(View())
    {
      keys, ceremonies, operations, this.slots := map[], map[], [], slots;
      new;
      HsmTheorems.EmptyInv(View());
    }

    /** `_record_operation`. */
    method Record(kind: OperationType, id: Id, keyLabel: Str, source: Str, now: int)
      modifies this`operations
      ensures operations == old(operations) + [Operation(kind, id, keyLabel, source, now)]
    {
      operations := operations + [Operation(kind, id, keyLabel, source, now)];
    }

    /** `_assert_label_available`. */
    method LabelTaken(keyLabel: Str) returns (taken: bool)
      ensures taken <==> KeysLabelled(View(), keyLabel) != {}
    {
      taken := exists k :: k in keys && keys[k].keyLabel == keyLabel;
      if taken {
        ghost var k :| k in keys && keys[k].keyLabel == keyLabel;
        assert k in KeysLabelled(View(), keyLabel);
      }
    }

    method CreateKey(id: Id, keyLabel: Str, slot: Option<Id>, algorithm: Str, rotationDays: nat, now: int)
      returns (error: Option<Error>)
      requires Inv(View())
      modifies this
      ensures Outcome(old(View()), Step(old(View()), Command.CreateKey(id, keyLabel, slot, algorithm, rotationDays, now)), View(), error)
      ensures Inv(View()) && Extends(old(View()), View())
    {
      hide Inv;
      hide Extends;
      HsmTheorems.StepKeeps(View(), Command.CreateKey(id, keyLabel, slot, algorithm, rotationDays, now));
      var taken := LabelTaken(keyLabel);
      if taken { return Some(Conflict); }
      if slot.Some? && slot.value !in slots { return Some(NotFound); }
      if id in keys { return Some(IntegrityError); }
      keys := keys[id := MasterKey(keyLabel, slot, algorithm, Pending, rotationDays, None, None, None, None, 0)];
      Record(KeyCreate, id, keyLabel, keyLabel, now);
      error := None;
    }

    method ResolvePredecessor(keyId: Id, predecessorId: Option<Id>) returns (r: Result<Option<Str>>)
      ensures r == PredecessorLabel(View(), keyId, predecessorId)
    {
      if predecessorId.None? { return Ok(None); }
      var p := predecessorId.value;
      if p == keyId { return Err(Conflict); }
      if p !in keys { return Err(NotFound); }
      if keys[p].status != Active && keys[p].status != Expiring { return Err(Conflict); }
      r := Ok(Some(keys[p].keyLabel));
    }

    method HasOpenCeremony(keyId: Id) returns (open: bool)
      requires OneOpenPerKey(View())
      ensures ScalarOneOrNone(OpenCeremonies(View(), keyId)).Ok?
      ensures open <==> ScalarOneOrNone(OpenCeremonies(View(), keyId)).value.Some?
    {
      HsmTheorems.OpenAtMostOne(View(), keyId);
      open := exists c :: c in ceremonies && ceremonies[c].keyId == keyId && ceremonies[c].status == Open;
      if open {
        ghost var c :| c in ceremonies && ceremonies[c].keyId == keyId && ceremonies[c].status == Open;
        assert c in OpenCeremonies(View(), keyId);
      } else {
        assert OpenCeremonies(View(), keyId) == {};
      }
    }

    method CreateCeremony(id: Id, ref: Str, keyId: Id, predecessorId: Option<Id>, required: nat, scheduledAt: Option<int>)
      returns (error: Option<Error>)
      requires Inv(View())
      modifies this`ceremonies
      ensures var cmd := Command.CreateCeremony(id, ref, keyId, predecessorId, required, scheduledAt);
              Outcome(old(View()), Step(old(View()), cmd), View(), error)
      ensures Inv(View()) && Extends(old(View()), View())
    {
      hide Inv;
      hide Extends;
      HsmTheorems.StepKeeps(View(), Command.CreateCeremony(id, ref, keyId, predecessorId, required, scheduledAt));
      hide PredecessorLabel;
      hide ScalarOneOrNone;
      if keyId !in keys { return Some(NotFound); }
      if keys[keyId].status != Pending { return Some(Conflict); }
      var predecessorLabel := ResolvePredecessor(keyId, predecessorId);
      if predecessorLabel.Err? { return Some(predecessorLabel.error); }
      OneOpen(View());
      var open := HasOpenCeremony(keyId);
      if open { return Some(Conflict); }
      if id in ceremonies || exists d :: d in ceremonies && ceremonies[d].ref == ref { return Some(IntegrityError); }
      ceremonies := ceremonies[id := Ceremony(ref, keyId, predecessorLabel.value, required, Open, scheduledAt, None, [])];
      error := None;
    }

    method ApproveCeremony(id: Id, custodian: Str, now: int) returns (error: Option<Error>)
      requires Inv(View())
      modifies this`ceremonies
      ensures Outcome(old(View()), Step(old(View()), Command.ApproveCeremony(id, custodian, now)), View(), error)
      ensures Inv(View()) && Extends(old(View()), View())
    {
      hide Inv;
      hide Extends;
      HsmTheorems.StepKeeps(View(), Command.ApproveCeremony(id, custodian, now));
      if id !in ceremonies { return Some(NotFound); }
      var ceremony := ceremonies[id];
      if ceremony.status != Open { return Some(Conflict); }
      var found := FindApproval(ceremony.approvals, custodian);
      var approvals := ceremony.approvals;
      var at: nat;
      if found.Some? {
        at := found.value;
      } else {
        approvals := approvals + [Approval(custodian, None)];
        at := |approvals| - 1;
      }
      if approvals[at].approvedAt.None? {
        approvals := approvals[at := Approval(custodian, Some(now))];
      }
      assert approvals == Approved(ceremony.approvals, custodian, now);
      ceremonies := ceremonies[id := ceremony.(approvals := approvals)];
      error := None;
    }

    method FindPredecessor(ceremony: Ceremony) returns (r: Option<Id>)
      requires UniqueLabels(View())
      ensures CeremonyPredecessor(View(), ceremony) == Ok(r)
    {
      if ceremony.predecessorLabel.None? || ceremony.predecessorLabel.value == [] { return None; }
      ghost var found := KeysLabelled(View(), ceremony.predecessorLabel.value);
      HsmTheorems.LabelledAtMostOne(View(), ceremony.predecessorLabel.value);
      if p :| p in keys && keys[p].keyLabel == ceremony.predecessorLabel.value {
        OnlyMember(found, p);
        r := Some(p);
      } else {
        assert found == {};
        r := None;
      }
    }

    /** The field assignments of `complete_ceremony` on the two keys, in order. */
    method ActivateAndRetire(newId: Id, predecessor: Option<Id>, now: int)
      requires newId in keys && (predecessor.Some? ==> predecessor.value in keys)
      modifies this`keys
      ensures keys == KeysAfter(old(keys), newId, predecessor, now)
    {
      keys := keys[newId := keys[newId].(status := Active)];
      keys := keys[newId := keys[newId].(activatedAt := Some(now))];
      keys := keys[newId := keys[newId].(expiresAt := Some(now + keys[newId].rotationDays * SECONDS_PER_DAY))];
      if predecessor.Some? {
        var p := predecessor.value;
        keys := keys[newId := keys[newId].(supersededBy := None)];
        keys := keys[p := keys[p].(status := Retired, retiredAt := Some(now), supersededBy := Some(newId))];
      }
    }

    /** `complete_ceremony`: activate the key, retire the predecessor in its favour, close the ceremony. */
    method CompleteCeremony(id: Id, now: int) returns (error: Option<Error>)
      requires Inv(View())
      modifies this
      ensures Outcome(old(View()), Step(old(View()), FinishCeremony(id, now)), View(), error)
      ensures Inv(View()) && Extends(old(View()), View())
    {
      hide Inv;
      hide Extends;
      HsmTheorems.StepKeeps(View(), FinishCeremony(id, now));
      hide QuorumMet;
      hide CeremonyPredecessor;
      hide KeysAfter;
      if id !in ceremonies { return Some(NotFound); }
      var ceremony := ceremonies[id];
      if ceremony.status != Open { return Some(Conflict); }
      if !QuorumMet(ceremony) { return Some(Conflict); }
      KeyKnown(View(), id);
      var predecessor := FindPredecessor(ceremony);
      var keyLabel := keys[ceremony.keyId].keyLabel;
      ActivateAndRetire(ceremony.keyId, predecessor, now);
      ceremonies := ceremonies[id := ceremony.(status := Complete, completedAt := Some(now))];
      Record(CeremonyComplete, ceremony.keyId, keyLabel, ceremony.ref, now);
      error := None;
    }

    method RotateKey(id: Id, newId: Id, newLabel: Option<Str>, now: int) returns (error: Option<Error>)
      requires Inv(View())
      modifies this
      ensures Outcome(old(View()), Step(old(View()), Command.RotateKey(id, newId, newLabel, now)), View(), error)
      ensures Inv(View()) && Extends(old(View()), View())
    {
      hide Inv;
      hide Extends;
      HsmTheorems.StepKeeps(View(), Command.RotateKey(id, newId, newLabel, now));
      hide NextVersionLabel;
      if id !in keys { return Some(NotFound); }
      var key := keys[id];
      if key.status != Active && key.status != Expiring { return Some(Conflict); }
      var successorLabel := SuccessorLabel(key.keyLabel, newLabel);
      var taken := LabelTaken(successorLabel);
      if taken { return Some(Conflict); }
      if newId in keys { return Some(IntegrityError); }
      keys := keys[newId := MasterKey(
        successorLabel, key.slot, key.algorithm, Active, key.rotationDays, Some(now),
        Some(now + key.rotationDays * SECONDS_PER_DAY), None, None, key.wrapsDekCount)];
      keys := keys[id := key.(status := Retired, retiredAt := Some(now), supersededBy := Some(newId))];
      Record(KeyRotate, newId, successorLabel, key.keyLabel, now);
      error := None;
    }

    method DisableKey(id: Id, now: int) returns (error: Option<Error>)
      requires Inv(View())
      modifies this
      ensures Outcome(old(View()), Step(old(View()), Command.DisableKey(id, now)), View(), error)
      ensures Inv(View()) && Extends(old(View()), View())
    {
      hide Inv;
      hide Extends;
      HsmTheorems.StepKeeps(View(), Command.DisableKey(id, now));
      if id !in keys { return Some(NotFound); }
      var key := keys[id];
      if key.status == Retired || key.status == Disabled { return Some(Conflict); }
      keys := keys[id := key.(status := Disabled, retiredAt := Some(now))];
      Record(KeyDisable, id, key.keyLabel, key.keyLabel, now);
      error := None;
    }
  }

  lemma OneOpen(s: Store)
    requires Inv(s)
    ensures OneOpenPerKey(s)
  {}

  lemma KeyKnown(s: Store, id: Id)
    requires Inv(s) && id in s.ceremonies
    ensures UniqueLabels(s) && s.ceremonies[id].keyId in s.keys
  {
    hide Order;
    assert CeremonyOk(s, id);
  }

  lemma OnlyMember(s: set<Id>, p: Id)
    requires p in s && |s| <= 1
    ensures ScalarOneOrNone(s) == Ok(Some(p))
  {
    assert |s - {p}| == |s| - 1;
    assert s == {p};
  }
}
