/** What each key and ceremony command does when it is accepted, when it is refused, and what it leaves alone. */
module HsmOutcomes {
  import opened Prelude
  import opened PyText
  import opened Json
  import JsonRoundTrip
  import opened Hsm
  import opened HsmInvariant
  import opened HsmTheorems

  /** Every key other than these is as it was. */
  ghost predicate OtherKeysSame(s: Store, t: Store, changed: set<Id>) {
    t.keys.Keys == s.keys.Keys + changed && forall k :: k in s.keys && k !in changed ==> t.keys[k] == s.keys[k]
  }

  /** Every ceremony other than this is as it was. */
  ghost predicate OtherCeremoniesSame(s: Store, t: Store, changed: Id) {
    t.ceremonies.Keys == s.ceremonies.Keys + {changed} &&
    forall c :: c in s.ceremonies && c != changed ==> t.ceremonies[c] == s.ceremonies[c]
  }

  /** One row of this kind was added to the operations history. */
  ghost predicate Recorded(s: Store, t: Store, kind: OperationType, keyId: Id, now: int) {
    |t.operations| == |s.operations| + 1 && s.operations <= t.operations && keyId in t.keys &&
    var o := t.operations[|s.operations|];
    o.kind == kind && o.keyId == keyId && o.keyLabel == t.keys[keyId].keyLabel && o.occurredAt == now
  }

  // ---------------------------------------------------------------- registering and disabling keys

  lemma CreateKeyOutcome(s: Store, id: Id, keyLabel: Str, slot: Option<Id>, algorithm: Str, rotationDays: nat, now: int)
    ensures var r := Hsm.Step(s, Command.CreateKey(id, keyLabel, slot, algorithm, rotationDays, now));
            (r.Ok? <==> (forall k :: k in s.keys ==> s.keys[k].keyLabel != keyLabel) &&
                        (slot.Some? ==> slot.value in s.slots) && id !in s.keys) &&
            (r.Ok? ==>
               var t, k := r.value, r.value.keys[id];
               k.keyLabel == keyLabel && k.slot == slot && k.algorithm == algorithm && k.rotationDays == rotationDays &&
               k.status == Pending && k.activatedAt.None? && k.expiresAt.None? && k.retiredAt.None? && k.supersededBy.None? &&
               k.wrapsDekCount == 0 && OtherKeysSame(s, t, {id}) && t.ceremonies == s.ceremonies && Recorded(s, t, KeyCreate, id, now))
  {
    if k :| k in s.keys && s.keys[k].keyLabel == keyLabel { assert k in KeysLabelled(s, keyLabel); }
  }

  lemma DisableOutcome(s: Store, id: Id, now: int)
    ensures var r := Hsm.Step(s, DisableKey(id, now));
            (r.Ok? <==> id in s.keys && s.keys[id].status != Retired && s.keys[id].status != Disabled) &&
            (r.Ok? ==>
               var t, before, after := r.value, s.keys[id], r.value.keys[id];
               after.status == Disabled && after.retiredAt == Some(now) && after.keyLabel == before.keyLabel &&
               after.activatedAt == before.activatedAt && after.supersededBy == before.supersededBy &&
               OtherKeysSame(s, t, {id}) && t.ceremonies == s.ceremonies && Recorded(s, t, KeyDisable, id, now))
  {}

  // ---------------------------------------------------------------- opening a ceremony

  /** The key may serve as the ceremony's predecessor. */
  ghost predicate MayPrecede(s: Store, p: Id, keyId: Id) {
    p != keyId && p in s.keys && (s.keys[p].status == Active || s.keys[p].status == Expiring)
  }

  /** A ceremony opens exactly for a PENDING key without another open one, whose predecessor, if any, is in use. */
  lemma CreateCeremonyOutcome(s: Store, id: Id, ref: Str, keyId: Id, p: Option<Id>, required: nat, scheduledAt: Option<int>)
    requires Inv(s)
    ensures var r := Hsm.Step(s, Command.CreateCeremony(id, ref, keyId, p, required, scheduledAt));
            (r.Ok? <==> keyId in s.keys && s.keys[keyId].status == Pending && (p.Some? ==> MayPrecede(s, p.value, keyId)) &&
                        (forall c :: IsOpen(s, c) ==> s.ceremonies[c].keyId != keyId) &&
                        id !in s.ceremonies && forall c :: c in s.ceremonies ==> s.ceremonies[c].ref != ref) &&
            (r.Ok? ==>
               var t, c := r.value, r.value.ceremonies[id];
               c.status == Open && c.ref == ref && c.keyId == keyId && c.requiredApprovals == required && c.approvals == [] &&
               c.scheduledAt == scheduledAt && c.completedAt.None? &&
               c.predecessorLabel == (if p.Some? then Some(s.keys[p.value].keyLabel) else None) &&
               OtherCeremoniesSame(s, t, id) && t.keys == s.keys && t.operations == s.operations)
  {
    NoneOpen(s, keyId);
    hide Inv;
    hide IsOpen;
    hide ScalarOneOrNone;
    hide OpenCeremonies;
  }

  /** The duplicate query finds nothing exactly when the key has no open ceremony, and never meets two. */
  lemma NoneOpen(s: Store, keyId: Id)
    requires Inv(s)
    ensures var found := ScalarOneOrNone(OpenCeremonies(s, keyId));
            found.Ok? && (found.value.None? <==> forall c :: IsOpen(s, c) ==> s.ceremonies[c].keyId != keyId)
  {
    hide Order;
    hide KeysOk;
    hide HistoryOk;
    OpenAtMostOne(s, keyId);
    hide Inv;
    var open := OpenCeremonies(s, keyId);
    if open == {} {
      forall c | IsOpen(s, c) ensures s.ceremonies[c].keyId != keyId { assert c !in open; }
    }
  }

  // ---------------------------------------------------------------- approvals

  /** Somebody approved at this time. */
  ghost predicate HasVote(approvals: seq<Approval>, custodian: Str, at: int) {
    exists i :: 0 <= i < |approvals| && approvals[i] == Approval(custodian, Some(at))
  }

  /** The votes after an approval: the same, and this custodian's, which keeps its first time. */
  lemma {:induction false} ApprovedVotes(approvals: seq<Approval>, custodian: Str, now: int)
    requires CustodiansDistinct(approvals)
    ensures var after := Approved(approvals, custodian, now);
            Approvers(after) == Approvers(approvals) + {custodian} &&
            (forall x, at :: HasVote(after, x, at) <==>
               HasVote(approvals, x, at) || (x == custodian && at == now && custodian !in Approvers(approvals)))
  {
    var after, found := Approved(approvals, custodian, now), FindApproval(approvals, custodian);
    forall x, at
      ensures HasVote(after, x, at) <==> HasVote(approvals, x, at) || (x == custodian && at == now && custodian !in Approvers(approvals))
    {
      if HasVote(approvals, x, at) {
        var i :| 0 <= i < |approvals| && approvals[i] == Approval(x, Some(at));
        assert after[i] == approvals[i];
      }
      if HasVote(after, x, at) && !HasVote(approvals, x, at) {
        var i :| 0 <= i < |after| && after[i] == Approval(x, Some(at));
        assert i < |approvals| ==> after[i] != approvals[i];
      }
      if custodian !in Approvers(approvals) {
        assert after[if found.Some? then found.value else |approvals|] == Approval(custodian, Some(now));
      }
    }
    forall x ensures x in Approvers(after) <==> x in Approvers(approvals) || x == custodian {
      VoteOrNot(approvals, x);
      VoteOrNot(after, x);
      hide HasVote;
      hide Approvers;
      hide Approved;
      if x in Approvers(after) {
        var at :| HasVote(after, x, at);
      }
      if x in Approvers(approvals) {
        var at :| HasVote(approvals, x, at);
        assert HasVote(after, x, at);
      } else if x == custodian {
        assert HasVote(after, x, now);
      }
    }
  }

  /** Approvers are those with a vote. */
  lemma VoteOrNot(approvals: seq<Approval>, custodian: Str)
    ensures custodian in Approvers(approvals) <==> exists at :: HasVote(approvals, custodian, at)
  {
    if custodian in Approvers(approvals) {
      var i :| 0 <= i < |approvals| && approvals[i].approvedAt.Some? && approvals[i].custodian == custodian;
      assert HasVote(approvals, custodian, approvals[i].approvedAt.value);
    }
    if at :| HasVote(approvals, custodian, at) {
      var i :| 0 <= i < |approvals| && approvals[i] == Approval(custodian, Some(at));
      assert approvals[i].custodian in Approvers(approvals);
    }
  }

  /** An approval is accepted exactly while the ceremony is open; it adds the custodian's vote and changes nothing else. */
  lemma ApproveOutcome(s: Store, id: Id, custodian: Str, now: int)
    requires Inv(s)
    ensures Hsm.Step(s, ApproveCeremony(id, custodian, now)).Ok? <==> IsOpen(s, id)
    ensures IsOpen(s, id) ==>
              var t := Next(s, ApproveCeremony(id, custodian, now));
              OtherCeremoniesSame(s, t, id) && t.keys == s.keys && t.operations == s.operations && IsOpen(t, id) &&
              t.ceremonies[id].keyId == s.ceremonies[id].keyId &&
              t.ceremonies[id].requiredApprovals == s.ceremonies[id].requiredApprovals &&
              t.ceremonies[id].ref == s.ceremonies[id].ref && t.ceremonies[id].predecessorLabel == s.ceremonies[id].predecessorLabel &&
              Approvers(t.ceremonies[id].approvals) == Approvers(s.ceremonies[id].approvals) + {custodian} &&
              forall x, at :: HasVote(t.ceremonies[id].approvals, x, at) <==>
                HasVote(s.ceremonies[id].approvals, x, at) ||
                (x == custodian && at == now && custodian !in Approvers(s.ceremonies[id].approvals))
  {
    hide Order;
    hide KeysOk;
    hide HistoryOk;
    hide Approved;
    hide Approvers;
    if IsOpen(s, id) {
      assert CeremonyOk(s, id);
      hide Inv;
      ApprovedVotes(s.ceremonies[id].approvals, custodian, now);
    }
  }

  /** These custodians approve, one after another. */
  ghost function Vote(s: Store, id: Id, custodians: seq<Str>, now: int): Store {
    if custodians == [] then s
    else Next(Vote(s, id, custodians[..|custodians|-1], now), ApproveCeremony(id, custodians[|custodians|-1], now))
  }

  lemma {:induction false} VotesAdd(s: Store, id: Id, custodians: seq<Str>, now: int)
    requires Inv(s) && IsOpen(s, id)
    ensures var t := Vote(s, id, custodians, now);
            Inv(t) && IsOpen(t, id) && t.ceremonies[id].keyId == s.ceremonies[id].keyId &&
            t.ceremonies[id].requiredApprovals == s.ceremonies[id].requiredApprovals &&
            Approvers(t.ceremonies[id].approvals) == Approvers(s.ceremonies[id].approvals) + (set x | x in custodians)
  {
    hide Inv;
    hide Next;
    hide HasVote;
    hide Approvers;
    if custodians != [] {
      var front, x := custodians[..|custodians|-1], custodians[|custodians|-1];
      VotesAdd(s, id, front, now);
      ApproveOutcome(Vote(s, id, front, now), id, x, now);
      StepKeeps(Vote(s, id, front, now), ApproveCeremony(id, x, now));
      assert custodians == front + [x];
      assert (set y | y in custodians) == (set y | y in front) + {x};
    }
  }

  /** An open ceremony has its quorum exactly when enough distinct custodians approved. */
  lemma QuorumIsApprovers(s: Store, id: Id)
    requires Inv(s) && IsOpen(s, id)
    ensures QuorumMet(s.ceremonies[id]) <==> |Approvers(s.ceremonies[id].approvals)| >= s.ceremonies[id].requiredApprovals
  {
    hide Order;
    assert CeremonyOk(s, id);
    CountIsApprovers(s.ceremonies[id].approvals);
  }

  /** Once enough custodians have approved, in whatever order and however often, completion activates the key; not before. */
  lemma EnoughApproversComplete(s: Store, id: Id, custodians: seq<Str>, now: int)
    requires Inv(s) && IsOpen(s, id)
    ensures var t := Vote(s, id, custodians, now);
            var approvers := Approvers(s.ceremonies[id].approvals) + (set x | x in custodians);
            (Hsm.Step(t, FinishCeremony(id, now)).Ok? <==> |approvers| >= s.ceremonies[id].requiredApprovals) &&
            (|approvers| >= s.ceremonies[id].requiredApprovals ==>
               s.ceremonies[id].keyId in t.keys && Next(t, FinishCeremony(id, now)).keys[s.ceremonies[id].keyId].status == Active)
  {
    hide Inv;
    hide Approvers;
    hide CeremonyPredecessor;
    hide KeysAfter;
    VotesAdd(s, id, custodians, now);
    hide Vote;
    var t := Vote(s, id, custodians, now);
    QuorumIsApprovers(t, id);
    FinishAccepted(t, id, now);
    if QuorumMet(t.ceremonies[id]) { QuorumAlwaysCompletes(t, id, now); }
  }

  // ---------------------------------------------------------------- completion

  /** A completion is accepted exactly when the ceremony is open and has its quorum. */
  lemma FinishAccepted(s: Store, id: Id, now: int)
    requires Inv(s)
    ensures Hsm.Step(s, FinishCeremony(id, now)).Ok? <==> IsOpen(s, id) && QuorumMet(s.ceremonies[id])
  {
    hide Order;
    hide HistoryOk;
    hide QuorumMet;
    if IsOpen(s, id) {
      assert CeremonyOk(s, id);
      if s.ceremonies[id].predecessorLabel.Some? { LabelledAtMostOne(s, s.ceremonies[id].predecessorLabel.value); }
    }
  }

  /** The two keys a completion touches, if the predecessor label is not empty. */
  ghost predicate IsPredecessor(s: Store, id: Id, p: Id) {
    id in s.ceremonies && p in s.keys && s.keys[p].keyLabel != [] && s.ceremonies[id].predecessorLabel == Some(s.keys[p].keyLabel)
  }

  lemma PredecessorIs(s: Store, id: Id, p: Id)
    requires UniqueLabels(s) && id in s.ceremonies && CeremonyPredecessor(s, s.ceremonies[id]).Ok?
    ensures CeremonyPredecessor(s, s.ceremonies[id]) == Ok(Some(p)) <==> IsPredecessor(s, id, p)
  {
    if IsPredecessor(s, id, p) {
      assert p in KeysLabelled(s, s.keys[p].keyLabel);
    }
  }

  /** What completion makes of the keys: the new one active, the predecessor retired, every other as it was. */
  ghost predicate KeysCompleted(s: Store, t: Store, id: Id, n: Id, now: int) {
    n in s.keys && t.keys.Keys == s.keys.Keys && t.keys[n].status == Active && t.keys[n].activatedAt == Some(now) &&
    t.keys[n].expiresAt == Some(now + t.keys[n].rotationDays * 24 * 3600) && t.keys[n].supersededBy.None? &&
    t.keys[n].rotationDays == s.keys[n].rotationDays && t.keys[n].keyLabel == s.keys[n].keyLabel &&
    (forall p :: IsPredecessor(s, id, p) ==>
       p in t.keys && t.keys[p].status == Retired && t.keys[p].retiredAt == Some(now) && t.keys[p].supersededBy == Some(n)) &&
    forall k :: k in s.keys && k != n && !IsPredecessor(s, id, k) ==> t.keys[k] == s.keys[k]
  }

  lemma KeysAfterCompleted(s: Store, t: Store, id: Id, n: Id, p: Option<Id>, now: int)
    requires n in s.keys && s.keys[n].supersededBy.None? && (p.Some? ==> p.value in s.keys && p.value != n)
    requires t.keys == KeysAfter(s.keys, n, p, now) && forall k :: p == Some(k) <==> IsPredecessor(s, id, k)
    ensures KeysCompleted(s, t, id, n, now)
  {
    hide IsPredecessor;
  }

  lemma FinishUnfolds(s: Store, id: Id, now: int)
    requires Hsm.Step(s, FinishCeremony(id, now)).Ok?
    ensures id in s.ceremonies && s.ceremonies[id].keyId in s.keys && CeremonyPredecessor(s, s.ceremonies[id]).Ok?
    ensures var t, c := Next(s, FinishCeremony(id, now)), s.ceremonies[id];
            t.keys == KeysAfter(s.keys, c.keyId, CeremonyPredecessor(s, c).value, now) &&
            t.ceremonies == s.ceremonies[id := c.(status := Complete, completedAt := Some(now))] &&
            t.operations == s.operations + [Operation(CeremonyComplete, c.keyId, s.keys[c.keyId].keyLabel, c.ref, now)]
  {
    hide QuorumMet;
    hide KeysAfter;
  }

  lemma FinishOutcome(s: Store, id: Id, now: int)
    requires Inv(s) && Hsm.Step(s, FinishCeremony(id, now)).Ok?
    ensures var t, n := Next(s, FinishCeremony(id, now)), s.ceremonies[id].keyId;
            KeysCompleted(s, t, id, n, now) && Recorded(s, t, CeremonyComplete, n, now) && OtherCeremoniesSame(s, t, id) &&
            t.ceremonies[id] == s.ceremonies[id].(status := Complete, completedAt := Some(now))
  {
    FinishUnfolds(s, id, now);
    FinishKeysKnown(s, id, now);
    assert UniqueLabels(s);
    hide Inv;
    hide Order;
    hide KeysAfter;
    hide Hsm.Step;
    hide FinishStep;
    hide Next;
    var c := s.ceremonies[id];
    var p := CeremonyPredecessor(s, c);
    forall k ensures p == Ok(Some(k)) <==> IsPredecessor(s, id, k) { PredecessorIs(s, id, k); }
    hide IsPredecessor;
    hide CeremonyPredecessor;
    hide UniqueLabels;
    hide KeysCompleted;
    var t := Next(s, FinishCeremony(id, now));
    KeysAfterCompleted(s, t, id, c.keyId, p.value, now);
    LabelKept(s, t, id, c.keyId, now);
  }

  lemma LabelKept(s: Store, t: Store, id: Id, n: Id, now: int)
    requires KeysCompleted(s, t, id, n, now)
    ensures n in s.keys && n in t.keys && t.keys[n].keyLabel == s.keys[n].keyLabel
  {
    hide IsPredecessor;
  }

  // ---------------------------------------------------------------- rotation

  lemma RotateOutcome(s: Store, id: Id, newId: Id, newLabel: Option<Str>, now: int)
    ensures var r := Hsm.Step(s, RotateKey(id, newId, newLabel, now));
            (r.Ok? <==> id in s.keys && (s.keys[id].status == Active || s.keys[id].status == Expiring) && newId !in s.keys &&
                        forall k :: k in s.keys ==> s.keys[k].keyLabel != SuccessorLabel(s.keys[id].keyLabel, newLabel)) &&
            (r.Ok? ==>
               var t, from, to := r.value, s.keys[id], r.value.keys[newId];
               to.status == Active && to.activatedAt == Some(now) && to.expiresAt == Some(now + to.rotationDays * 24 * 3600) &&
               to.keyLabel == SuccessorLabel(from.keyLabel, newLabel) && to.slot == from.slot && to.algorithm == from.algorithm &&
               to.rotationDays == from.rotationDays && to.wrapsDekCount == from.wrapsDekCount && to.supersededBy.None? &&
               t.keys[id] == from.(status := Retired, retiredAt := Some(now), supersededBy := Some(newId)) &&
               OtherKeysSame(s, t, {id, newId}) && t.ceremonies == s.ceremonies && Recorded(s, t, KeyRotate, newId, now))
  {
    hide SuccessorLabel;
    if id in s.keys {
      var l := SuccessorLabel(s.keys[id].keyLabel, newLabel);
      if k :| k in s.keys && s.keys[k].keyLabel == l { assert k in KeysLabelled(s, l); }
    }
  }

  // ---------------------------------------------------------------- successor labels

  predicate AllDigits(s: Str) {
    forall i :: 0 <= i < |s| ==> IsAsciiDigit(s[i])
  }

  lemma {:induction false} DigitsStart(base: Str, digits: Str)
    requires base != [] && !IsAsciiDigit(base[|base|-1]) && AllDigits(digits)
    ensures DigitsFrom(base + digits) == |base|
  {
    var l, i := base + digits, DigitsFrom(base + digits);
    assert l[|base|-1] == base[|base|-1];
    assert forall j :: |base| <= j < |l| ==> l[j] == digits[j-|base|] && IsAsciiDigit(l[j]);
  }

  lemma NatDigits(n: nat)
    ensures AllDigits(Py(NatText(n))) && NatText(n) != ""
  {
    forall i | 0 <= i < |NatText(n)| ensures IsAsciiDigit(Py(NatText(n))[i]) { assert NatText(n)[i] in NatText(n); }
  }

  lemma {:induction false} DigitsRoundTrip(n: nat)
    ensures AllDigits(Py(NatText(n))) && DigitsValue(Py(NatText(n))) == n
    decreases n
  {
    NatDigits(n);
    var s := Py(NatText(n));
    if n >= 10 {
      DigitsRoundTrip(n / 10);
      assert NatText(n) == NatText(n / 10) + [DigitChar(n % 10)];
      assert s[..|s|-1] == Py(NatText(n / 10));
    } else {
      assert NatText(n) == [DigitChar(n)];
      assert s[..|s|-1] == [];
    }
  }

  /** A versioned label counts up, whatever it starts with: `…-v<n>` is followed by `…-v<n+1>`. */
  lemma VersionCounts(base: Str, n: nat)
    ensures NextVersionLabel(base + Py("-v") + Py(NatText(n))) == base + Py("-v") + Py(NatText(n + 1))
  {
    hide NatText;
    var stem, digits := base + Py("-v"), Py(NatText(n));
    NatDigits(n);
    DigitsStart(stem, digits);
    DigitsRoundTrip(n);
    assert (stem + digits)[..|stem|] == stem && (stem + digits)[|stem|..] == digits;
  }

  /** A label without a version gains `-v2`. */
  lemma UnversionedGains(keyLabel: Str)
    requires forall base, digits :: keyLabel == base + Py("-v") + digits && digits != [] ==> !AllDigits(digits)
    ensures NextVersionLabel(keyLabel) == keyLabel + Py("-v2")
  {
    var i := DigitsFrom(keyLabel);
    if 2 <= i < |keyLabel| && keyLabel[i-2] == '-' as int && keyLabel[i-1] == 'v' as int {
      var base, digits := keyLabel[..i-2], keyLabel[i..];
      assert keyLabel == base + Py("-v") + digits;
      assert AllDigits(digits);
      assert false;
    }
  }
}
