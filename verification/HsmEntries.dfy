/** What the audit entry of each key and ceremony command says, under which names. */
module HsmEntries {
  import opened Prelude
  import opened PyText
  import opened Json
  import opened Metadata
  import opened Audit
  import opened Hsm
  import opened HsmAudit

  /** The entry is of this subtype, by this actor, and a warning only for a disabled key. */
  ghost predicate Headed(d: Draft, severity: Severity, subtype: string, actor: Str) {
    d.severity == severity && d.eventType == KeyOperation && d.eventSubtype == Py(subtype) && d.actor == actor &&
    d.tenantId.None? && d.tenantSlug.None? && d.sourceIp.None?
  }

  ghost predicate Says(d: Draft, name: string, v: Json) {
    Get(d.metadata, Py(name)) == Some(v)
  }

  lemma Written(s: Store, cmd: Command, actor: Str, f: Field)
    requires f in Fields(cmd)
    ensures Says(EntryDraft(s, cmd, actor), Name(f), Value(s, cmd, f))
  {
    hide EntryMetadata;
    hide Value;
    WrittenField(s, cmd, f);
  }

  lemma EntryHeader(s: Store, cmd: Command, actor: Str)
    ensures Headed(EntryDraft(s, cmd, actor), if cmd.DisableKey? then Warning else Info, SubtypeName(SubtypeOf(cmd)),
                   if cmd.ApproveCeremony? then cmd.custodian else actor)
    ensures EntryDraft(s, cmd, actor).description == Description(s, cmd)
  {
    hide EntryMetadata;
    hide Description;
  }

  lemma RegisteredSays(s: Store, cmd: Command, actor: Str)
    requires cmd.CreateKey?
    ensures var d := EntryDraft(s, cmd, actor);
            Headed(d, Info, "KEY_REFERENCE_REGISTERED", actor) && Says(d, "master_key_id", JStr(cmd.id)) &&
            Says(d, "key_label", JStr(cmd.keyLabel)) && Says(d, "algorithm", JStr(cmd.algorithm)) &&
            Says(d, "slot_id", if cmd.slot.Some? then JStr(cmd.slot.value) else JNull) &&
            Says(d, "rotation_policy_days", JInt(cmd.rotationDays)) && d.description == Py("Registered key reference ") + cmd.keyLabel
  {
    EntryHeader(s, cmd, actor);
    hide EntryDraft;
    hide Headed;
    hide Says;
    hide StatusValue;
    hide CeremonyOf;
    Written(s, cmd, actor, MasterKeyId);
    Written(s, cmd, actor, KeyLabel);
    Written(s, cmd, actor, Algorithm);
    Written(s, cmd, actor, SlotId);
    Written(s, cmd, actor, RotationPolicyDays);
  }

  lemma InitiatedSays(s: Store, cmd: Command, actor: Str)
    requires cmd.CreateCeremony? && Hsm.Step(s, cmd).Ok?
    ensures var d, c := EntryDraft(s, cmd, actor), Hsm.Step(s, cmd).value.ceremonies[cmd.id];
            Headed(d, Info, "KEY_CEREMONY_INITIATED", actor) && Says(d, "ceremony_ref", JStr(cmd.ref)) &&
            Says(d, "master_key_id", JStr(cmd.keyId)) && Says(d, "master_key_label", JStr(s.keys[cmd.keyId].keyLabel)) &&
            Says(d, "predecessor_label", if c.predecessorLabel.Some? then JStr(c.predecessorLabel.value) else JNull) &&
            Says(d, "required_approvals", JInt(cmd.required))
  {
    EntryHeader(s, cmd, actor);
    hide EntryDraft;
    hide Headed;
    hide Says;
    hide Description;
    hide StatusValue;
    hide PredecessorLabel;
    hide ScalarOneOrNone;
    hide OpenCeremonies;
    Written(s, cmd, actor, CeremonyRef);
    Written(s, cmd, actor, MasterKeyId);
    Written(s, cmd, actor, MasterKeyLabel);
    Written(s, cmd, actor, PredecessorLabelField);
    Written(s, cmd, actor, RequiredApprovals);
  }

  lemma ApprovedSays(s: Store, cmd: Command, actor: Str)
    requires cmd.ApproveCeremony? && Hsm.Step(s, cmd).Ok? && s.ceremonies[cmd.id].keyId in s.keys
    ensures var d, c := EntryDraft(s, cmd, actor), Hsm.Step(s, cmd).value.ceremonies[cmd.id];
            Headed(d, Info, "KEY_CEREMONY_APPROVED", cmd.custodian) && Says(d, "ceremony_ref", JStr(c.ref)) &&
            Says(d, "master_key_id", JStr(c.keyId)) && Says(d, "master_key_label", JStr(s.keys[c.keyId].keyLabel)) &&
            Says(d, "approval_count", JInt(ApprovalCount(c.approvals))) && Says(d, "required_approvals", JInt(c.requiredApprovals))
  {
    EntryHeader(s, cmd, actor);
    hide EntryDraft;
    hide Headed;
    hide Says;
    hide Description;
    hide StatusValue;
    hide Approved;
    hide ApprovalCount;
    Written(s, cmd, actor, CeremonyRef);
    Written(s, cmd, actor, MasterKeyId);
    Written(s, cmd, actor, MasterKeyLabel);
    Written(s, cmd, actor, ApprovalCountField);
    Written(s, cmd, actor, RequiredApprovals);
  }

  lemma CompletedSays(s: Store, cmd: Command, actor: Str)
    requires cmd.FinishCeremony? && Hsm.Step(s, cmd).Ok?
    ensures var d, c := EntryDraft(s, cmd, actor), s.ceremonies[cmd.id];
            Headed(d, Info, "KEY_ROTATION_COMPLETE", actor) && Says(d, "ceremony_ref", JStr(c.ref)) &&
            Says(d, "new_key", JStr(s.keys[c.keyId].keyLabel)) && Says(d, "approvals", JInt(ApprovalCount(c.approvals)))
  {
    EntryHeader(s, cmd, actor);
    hide EntryDraft;
    hide Headed;
    hide Says;
    hide Description;
    hide StatusValue;
    hide ApprovalCount;
    hide CeremonyPredecessor;
    Written(s, cmd, actor, CeremonyRef);
    Written(s, cmd, actor, NewKey);
    Written(s, cmd, actor, Approvals);
  }

  lemma RotatedSays(s: Store, cmd: Command, actor: Str)
    requires cmd.RotateKey? && Hsm.Step(s, cmd).Ok?
    ensures var d, t := EntryDraft(s, cmd, actor), Hsm.Step(s, cmd).value;
            Headed(d, Info, "KEY_ROTATED", actor) && Says(d, "predecessor_key_id", JStr(cmd.id)) &&
            Says(d, "predecessor_label", JStr(s.keys[cmd.id].keyLabel)) && Says(d, "successor_key_id", JStr(cmd.newId)) &&
            Says(d, "successor_label", JStr(t.keys[cmd.newId].keyLabel)) &&
            Says(d, "wraps_dek_count", JInt(t.keys[cmd.newId].wrapsDekCount))
  {
    EntryHeader(s, cmd, actor);
    hide EntryDraft;
    hide Headed;
    hide Says;
    hide Description;
    hide StatusValue;
    hide CeremonyOf;
    hide SuccessorLabel;
    Written(s, cmd, actor, PredecessorKeyId);
    Written(s, cmd, actor, PredecessorLabelField);
    Written(s, cmd, actor, SuccessorKeyId);
    Written(s, cmd, actor, SuccessorLabelField);
    Written(s, cmd, actor, WrapsDekCount);
  }

  lemma DisabledSays(s: Store, cmd: Command, actor: Str)
    requires cmd.DisableKey? && Hsm.Step(s, cmd).Ok?
    ensures var d := EntryDraft(s, cmd, actor);
            Headed(d, Warning, "KEY_DISABLED", actor) && Says(d, "master_key_id", JStr(cmd.id)) &&
            Says(d, "key_label", JStr(s.keys[cmd.id].keyLabel)) &&
            Says(d, "previous_status", JStr(Py(StatusValue(s.keys[cmd.id].status))))
  {
    EntryHeader(s, cmd, actor);
    hide EntryDraft;
    hide Headed;
    hide Says;
    hide Description;
    hide CeremonyOf;
    hide StatusValue;
    Written(s, cmd, actor, MasterKeyId);
    Written(s, cmd, actor, KeyLabel);
    Written(s, cmd, actor, PreviousStatus);
  }
}
