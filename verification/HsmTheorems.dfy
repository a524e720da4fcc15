/** What holds of keys and ceremonies in every reachable state, from an empty store on. */
module HsmTheorems {
  import opened Prelude
  import opened PyText
  import opened Hsm
  import opened HsmInvariant

  lemma StepKeeps(s: Store, c: Command)
    requires Inv(s)
    ensures Inv(Next(s, c)) && Extends(s, Next(s, c))
  {
    hide Inv;
    if Step(s, c).Ok? {
      match c
      case CreateKey(_, _, _, _, _, _) => CreateKeyKeeps(s, c);
      case CreateCeremony(_, _, _, _, _, _) => CreateCeremonyKeeps(s, c);
      case ApproveCeremony(id, custodian, now) => ApproveKeeps(s, id, custodian, now);
      case FinishCeremony(id, now) => FinishKeeps(s, id, now);
      case RotateKey(id, newId, newLabel, now) => RotateKeeps(s, id, newId, newLabel, now);
      case DisableKey(id, now) => DisableKeeps(s, id, now);
    }
  }

  ghost predicate Empty(s: Store) {
    s.keys == map[] && s.ceremonies == map[] && s.operations == []
  }

  lemma EmptyInv(s: Store)
    requires Empty(s)
    ensures Inv(s)
  {}

  /** Every run keeps the invariant, and nothing already activated or completed is undone. */
  lemma {:induction false} RunKeeps(s: Store, cs: seq<Command>)
    requires Inv(s)
    ensures Inv(Run(s, cs)) && Extends(s, Run(s, cs))
    decreases |cs|
  {
    hide Inv;
    if cs != [] {
      StepKeeps(s, cs[0]);
      RunKeeps(Next(s, cs[0]), cs[1..]);
      ExtendsTransitive(s, Next(s, cs[0]), Run(s, cs));
    }
  }

  lemma ExtendsTransitive(s: Store, t: Store, u: Store)
    requires Extends(s, t) && Extends(t, u)
    ensures Extends(s, u)
  {
    hide Order;
  }

  // ---------------------------------------------------------------- life cycle of a key

  /** How one step may change a key: RETIRED is final, and an activation time is set once and for all. */
  ghost predicate Evolves(a: MasterKey, b: MasterKey) {
    (a.activatedAt.Some? ==> b.activatedAt == a.activatedAt) &&
    match a.status
    case Retired => b.status == Retired
    case Pending => b.status == Pending || b.status == Disabled || b.status == Active
    case Active => b.status == Active || b.status == Disabled || b.status == Retired
    case Expiring => b.status == Expiring || b.status == Disabled || b.status == Retired
    case Disabled =>
      b.status == Disabled || (b.status == Active && a.activatedAt.None?) || (b.status == Retired && a.activatedAt.Some?)
  }

  lemma FinishEvolves(s: Store, id: Id, now: int, k: Id)
    requires Inv(s) && k in s.keys && FinishStep(s, id, now).Ok?
    ensures k in FinishStep(s, id, now).value.keys && Evolves(s.keys[k], FinishStep(s, id, now).value.keys[k])
  {
    hide Order;
    hide HistoryOk;
    hide CeremoniesOk;
    hide SuccessorsDistinct;
    hide QuorumMet;
    hide CeremonyPredecessor;
    FinishKeysKnown(s, id, now);
    assert KeyOk(s, k);
  }

  /** Completion never checks the key's status, and yet no step leaves these edges. */
  lemma KeyEvolves(s: Store, c: Command, k: Id)
    requires Inv(s) && k in s.keys
    ensures k in Next(s, c).keys && Evolves(s.keys[k], Next(s, c).keys[k])
  {
    hide Inv;
    hide NextVersionLabel;
    hide FinishStep;
    hide CreateCeremonyStep;
    if c.FinishCeremony? && FinishStep(s, c.id, c.now).Ok? {
      FinishEvolves(s, c.id, c.now, k);
    }
    if c.CreateCeremony? {
      CeremonyKeepsKeys(s, c);
    }
  }

  lemma CeremonyKeepsKeys(s: Store, c: Command)
    requires c.CreateCeremony?
    ensures CreateCeremonyStep(s, c).Ok? ==> CreateCeremonyStep(s, c).value.keys == s.keys
  {}

  /** RETIRED is terminal, and a key keeps the activation time it was first given, over every run. */
  lemma {:induction false} RetiredIsTerminal(s: Store, cs: seq<Command>, k: Id)
    requires Inv(s) && k in s.keys
    ensures k in Run(s, cs).keys
    ensures s.keys[k].status == Retired ==> Run(s, cs).keys[k].status == Retired
    ensures s.keys[k].activatedAt.Some? ==> Run(s, cs).keys[k].activatedAt == s.keys[k].activatedAt
    decreases |cs|
  {
    hide Inv;
    if cs != [] {
      StepKeeps(s, cs[0]);
      KeyEvolves(s, cs[0], k);
      RetiredIsTerminal(Next(s, cs[0]), cs[1..], k);
    }
  }

  /** An open ceremony with its quorum always completes and activates its key, whatever the key's status. */
  lemma QuorumAlwaysCompletes(s: Store, id: Id, now: int)
    requires Inv(s) && IsOpen(s, id) && QuorumMet(s.ceremonies[id])
    ensures var n := s.ceremonies[id].keyId; n in s.keys && Next(s, FinishCeremony(id, now)).keys[n].status == Active
  {
    hide Order;
    hide HistoryOk;
    assert CeremonyOk(s, id);
    var p := CeremonyPredecessor(s, s.ceremonies[id]);
    if p.Err? {
      LabelledAtMostOne(s, s.ceremonies[id].predecessorLabel.value);
      assert false;
    }
    FinishShape(s, id, now);
  }

  /** DISABLED is not terminal: a disabled key becomes ACTIVE exactly when its open ceremony is completed with a quorum. */
  lemma DisabledCanBeActivated(s: Store, c: Command, k: Id)
    requires Inv(s) && k in s.keys && s.keys[k].status == Disabled
    ensures k in Next(s, c).keys
    ensures Next(s, c).keys[k].status == Active <==>
            c.FinishCeremony? && IsOpen(s, c.id) && QuorumMet(s.ceremonies[c.id]) && s.ceremonies[c.id].keyId == k
  {
    hide Inv;
    hide QuorumMet;
    hide NextVersionLabel;
    hide CreateCeremonyStep;
    KeyEvolves(s, c, k);
    if c.CreateCeremony? {
      CeremonyKeepsKeys(s, c);
    }
    if c.FinishCeremony? && IsOpen(s, c.id) && QuorumMet(s.ceremonies[c.id]) {
      QuorumAlwaysCompletes(s, c.id, c.now);
    }
  }

  /** A short run from an empty store in which a disabled key is activated after all. */
  lemma DisabledThenActive() returns (before: seq<Command>, last: Command, k: Id)
    ensures var s := Run(Store(map[], map[], [], {}), before);
            k in s.keys && s.keys[k].status == Disabled && k in Next(s, last).keys && Next(s, last).keys[k].status == Active
  {
    hide NextVersionLabel;
    k := Py("k");
    var x := Py("x");
    var s0 := Store(map[], map[], [], {});
    var c1, c2 := Command.CreateKey(k, k, None, k, 90, 1), Command.CreateCeremony(x, x, k, None, 1, None);
    var c3, c4 := Command.ApproveCeremony(x, x, 2), Command.DisableKey(k, 3);
    last := FinishCeremony(x, 4);
    before := [c1, c2, c3, c4];
    assert KeysLabelled(s0, k) == {};
    var s1 := Next(s0, c1);
    assert OpenCeremonies(s1, k) == {};
    var s2 := Next(s1, c2);
    var s3 := Next(s2, c3);
    assert s3.ceremonies[x].approvals == [Approval(x, Some(2))];
    assert QuorumMet(s3.ceremonies[x]);
    var s4 := Next(s3, c4);
    assert Next(s4, last).keys[k].status == Active;
    assert before[1..] == [c2, c3, c4] && before[1..][1..] == [c3, c4] && before[1..][1..][1..] == [c4];
    assert Run(s3, [c4]) == s4;
    assert Run(s2, [c3, c4]) == s4;
    assert Run(s1, [c2, c3, c4]) == s4;
  }

  // ---------------------------------------------------------------- scalar queries never meet two rows

  lemma LabelledAtMostOne(s: Store, keyLabel: Str)
    requires UniqueLabels(s)
    ensures |KeysLabelled(s, keyLabel)| <= 1
  {
    var ks := KeysLabelled(s, keyLabel);
    if ks != {} {
      var k :| k in ks;
      assert ks == {k};
    }
  }

  lemma OpenAtMostOne(s: Store, keyId: Id)
    requires OneOpenPerKey(s)
    ensures |OpenCeremonies(s, keyId)| <= 1
  {
    var os := OpenCeremonies(s, keyId);
    if os != {} {
      var o :| o in os;
      forall d | d in os ensures d == o { assert IsOpen(s, d) && IsOpen(s, o); }
      assert os == {o};
    }
  }

  /** In every reachable state, no command meets two rows where the service expects at most one. */
  lemma NoMultipleResults(s: Store, c: Command)
    requires Inv(s)
    ensures Step(s, c).Err? ==> Step(s, c).error != MultipleResults
  {
    hide Order;
    hide KeysOk;
    hide HistoryOk;
    hide NextVersionLabel;
    hide QuorumMet;
    if c.CreateCeremony? {
      OpenAtMostOne(s, c.keyId);
    }
    if c.FinishCeremony? && c.id in s.ceremonies && s.ceremonies[c.id].predecessorLabel.Some? {
      LabelledAtMostOne(s, s.ceremonies[c.id].predecessorLabel.value);
    }
  }

  // ---------------------------------------------------------------- the superseded-by graph

  /** A walk along `superseded_by_id`. */
  ghost predicate SupersededPath(s: Store, path: seq<Id>) {
    path != [] && (forall i :: 0 <= i < |path| ==> path[i] in s.keys) &&
    forall i :: 0 <= i < |path| - 1 ==> s.keys[path[i]].supersededBy == Some(path[i+1])
  }

  /** Walks are strictly increasing in activation order, so the graph has no cycle and no walk repeats a key. */
  lemma {:induction false} PathIncreases(s: Store, path: seq<Id>, i: nat, j: nat)
    requires Inv(s) && SupersededPath(s, path) && i < j < |path|
    ensures path[i] in Order(s.operations) && path[j] in Order(s.operations)
    ensures Order(s.operations)[path[i]] < Order(s.operations)[path[j]]
    ensures path[i] != path[j]
    decreases j - i
  {
    hide Order;
    hide CeremoniesOk;
    hide HistoryOk;
    assert KeyOk(s, path[i]);
    assert s.keys[path[i]].supersededBy == Some(path[i+1]);
    if i + 1 < j {
      PathIncreases(s, path, i + 1, j);
    }
  }

  /** From every key the walk is finite and ends at a key that is not RETIRED. */
  lemma {:induction false} PathToNewest(s: Store, k: Id) returns (path: seq<Id>)
    requires Inv(s) && k in s.keys
    ensures SupersededPath(s, path) && path[0] == k && s.keys[path[|path|-1]].status != Retired
    decreases |s.operations| - (if k in Order(s.operations) then Order(s.operations)[k] else 0)
  {
    hide Inv;
    hide Order;
    if s.keys[k].status != Retired {
      path := [k];
    } else {
      SuccessorLater(s, k);
      var n := s.keys[k].supersededBy.value;
      var rest := PathToNewest(s, n);
      path := [k] + rest;
      forall i | 0 <= i < |path| - 1 ensures s.keys[path[i]].supersededBy == Some(path[i+1]) {
        if i > 0 { assert path[i] == rest[i-1] && path[i+1] == rest[i-1+1]; }
      }
    }
  }

  lemma SuccessorLater(s: Store, k: Id)
    requires Inv(s) && k in s.keys && s.keys[k].status == Retired
    ensures var n := s.keys[k].supersededBy;
            n.Some? && n.value in s.keys && k in Order(s.operations) && n.value in Order(s.operations) &&
            Order(s.operations)[k] < Order(s.operations)[n.value] < |s.operations|
  {
    hide CeremoniesOk;
    hide HistoryOk;
    hide SuccessorsDistinct;
    hide UniqueLabels;
    hide Order;
    assert KeyOk(s, k);
    OrderBounded(s.operations);
  }

  /** A walk from this key to one that is not RETIRED. */
  ghost predicate EndsAtNewest(s: Store, k: Id, path: seq<Id>) {
    SupersededPath(s, path) && path[0] == k && s.keys[path[|path|-1]].status != Retired
  }

  ghost predicate StrictlyLater(s: Store, j: Id, k: Id) {
    j in Order(s.operations) && k in Order(s.operations) && Order(s.operations)[j] < Order(s.operations)[k]
  }

  /**
   The superseded-by graph of every reachable state is a disjoint union of finite chains: a key is RETIRED exactly when
   it has a successor, no two keys share one, walks strictly increase in activation order, and from every key a walk
   leads to a key that is not RETIRED.
   */
  lemma SupersededChains(s: Store, cs: seq<Command>)
    requires Empty(s)
    ensures var t := Run(s, cs);
            (forall k :: k in t.keys ==> (t.keys[k].status == Retired <==> t.keys[k].supersededBy.Some?)) &&
            (forall j, k :: j in t.keys && k in t.keys && t.keys[j].supersededBy.Some? && t.keys[j].supersededBy == t.keys[k].supersededBy
              ==> j == k) &&
            (forall path, i, j :: SupersededPath(t, path) && 0 <= i < j < |path| ==>
               StrictlyLater(t, path[i], path[j]) && path[i] != path[j]) &&
            forall k :: k in t.keys ==> exists path :: EndsAtNewest(t, k, path)
  {
    hide Run;
    hide Order;
    hide CeremoniesOk;
    hide HistoryOk;
    hide UniqueLabels;
    EmptyInv(s);
    RunKeeps(s, cs);
    var t := Run(s, cs);
    forall k | k in t.keys
      ensures (t.keys[k].status == Retired <==> t.keys[k].supersededBy.Some?) && exists path :: EndsAtNewest(t, k, path)
    {
      assert KeyOk(t, k);
      var path := PathToNewest(t, k);
      assert EndsAtNewest(t, k, path);
    }
    hide KeysOk;
    forall path, i, j | SupersededPath(t, path) && 0 <= i < j < |path| ensures StrictlyLater(t, path[i], path[j]) && path[i] != path[j] {
      PathIncreases(t, path, i, j);
    }
  }

  // ---------------------------------------------------------------- quorum lineage

  /** The custodians who approved. */
  ghost function Approvers(approvals: seq<Approval>): set<Str> {
    set i | 0 <= i < |approvals| && approvals[i].approvedAt.Some? :: approvals[i].custodian
  }

  /** With one row per custodian, the approval count is the number of distinct approvers. */
  lemma {:induction false} CountIsApprovers(approvals: seq<Approval>)
    requires CustodiansDistinct(approvals)
    ensures |Approvers(approvals)| == ApprovalCount(approvals)
  {
    if approvals == [] {
      assert Approvers(approvals) == {};
    } else {
      var head, tail := approvals[0], approvals[1..];
      assert forall i :: 0 <= i < |tail| ==> tail[i] == approvals[i+1];
      CountIsApprovers(tail);
      forall x ensures x in Approvers(approvals) <==> x in Approvers(tail) || (head.approvedAt.Some? && x == head.custodian) {
        if x in Approvers(tail) {
          var i :| 0 <= i < |tail| && tail[i].approvedAt.Some? && tail[i].custodian == x;
          assert approvals[i+1].custodian == x;
        }
        if x in Approvers(approvals) && x != head.custodian {
          var i :| 0 <= i < |approvals| && approvals[i].approvedAt.Some? && approvals[i].custodian == x;
          assert tail[i-1].custodian == x;
        }
      }
      assert head.custodian !in Approvers(tail);
      assert Approvers(approvals) == Approvers(tail) + (if head.approvedAt.Some? then {head.custodian} else {});
    }
  }

  /** The history records that `k` was activated by rotating a key labelled as `p` is. */
  ghost predicate RotatedFrom(s: Store, k: Id, p: Id) {
    p in s.keys && exists i ::
      0 <= i < |s.operations| && s.operations[i].kind == KeyRotate && s.operations[i].keyId == k &&
      s.operations[i].source == s.keys[p].keyLabel
  }

  /** A completed ceremony of `k` approved by enough distinct custodians. */
  ghost predicate QuorumApproved(s: Store, k: Id) {
    exists c :: c in s.ceremonies && s.ceremonies[c].keyId == k && s.ceremonies[c].status == Complete &&
                |Approvers(s.ceremonies[c].approvals)| >= s.ceremonies[c].requiredApprovals
  }

  ghost predicate Lineage(s: Store, path: seq<Id>) {
    path != [] && (forall i :: 0 <= i < |path| - 1 ==> RotatedFrom(s, path[i], path[i+1])) &&
    QuorumApproved(s, path[|path|-1])
  }

  ghost predicate LineageOf(s: Store, k: Id, path: seq<Id>) {
    Lineage(s, path) && path[0] == k
  }

  /** Every activated key descends, by rotations, from a key that a custodian quorum approved. */
  lemma {:induction false} QuorumLineage(s: Store, k: Id) returns (path: seq<Id>)
    requires Inv(s) && k in s.keys && s.keys[k].activatedAt.Some?
    ensures LineageOf(s, k, path)
    decreases Order(s.operations)[k]
  {
    hide CeremoniesOk;
    assert KeyOk(s, k);
    OrderBounded(s.operations);
    var i := Order(s.operations)[k];
    var o := s.operations[i];
    assert Sourced(s, i) && o.keyId == k;
    if o.kind == CeremonyComplete {
      var c :| QuorumWitness(s, k, c);
      CountIsApprovers(s.ceremonies[c].approvals);
      path := [k];
    } else {
      var p :| EarlierKey(s, p, o.source, i);
      assert KeyOk(s, p);
      var rest := QuorumLineage(s, p);
      assert RotatedFrom(s, k, p);
      path := LineageCons(s, k, rest);
    }
  }

  lemma LineageCons(s: Store, k: Id, rest: seq<Id>) returns (path: seq<Id>)
    requires Lineage(s, rest) && RotatedFrom(s, k, rest[0])
    ensures Lineage(s, path) && path[0] == k
  {
    hide RotatedFrom;
    hide QuorumApproved;
    path := [k] + rest;
    forall i | 0 <= i < |path| - 1 ensures RotatedFrom(s, path[i], path[i+1]) {
      if i > 0 { assert path[i] == rest[i-1] && path[i+1] == rest[i-1+1]; }
    }
  }

  /** A lineage, and the quorum it rests on, stays true in all later states. */
  lemma LineagePersists(s: Store, cs: seq<Command>, path: seq<Id>)
    requires Inv(s) && Lineage(s, path)
    ensures Lineage(Run(s, cs), path)
  {
    hide Inv;
    hide Order;
    hide Run;
    var t := Run(s, cs);
    RunKeeps(s, cs);
    forall i | 0 <= i < |path| - 1 ensures RotatedFrom(t, path[i], path[i+1]) {
      assert RotatedFrom(s, path[i], path[i+1]);
    }
    var c :| c in s.ceremonies && s.ceremonies[c].keyId == path[|path|-1] && s.ceremonies[c].status == Complete &&
             |Approvers(s.ceremonies[c].approvals)| >= s.ceremonies[c].requiredApprovals;
    assert t.ceremonies[c] == s.ceremonies[c];
  }

  /** From an empty store: no key is ever activated twice, and every activated key has its quorum lineage. */
  lemma ReachableKeys(s: Store, cs: seq<Command>)
    requires Empty(s)
    ensures ActivatedOnce(Run(s, cs).operations)
    ensures forall k :: k in Run(s, cs).keys && Run(s, cs).keys[k].activatedAt.Some? ==>
              exists path :: LineageOf(Run(s, cs), k, path)
  {
    hide Run;
    hide LineageOf;
    EmptyInv(s);
    RunKeeps(s, cs);
    var t := Run(s, cs);
    forall k | k in t.keys && t.keys[k].activatedAt.Some? ensures exists path :: LineageOf(t, k, path) {
      var path := QuorumLineage(t, k);
      assert LineageOf(t, k, path);
    }
  }
}
