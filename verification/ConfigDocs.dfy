/** Versioned configuration documents: create, successor, delete, activate, archive, roll back and import. */
module ConfigDocs {
  import opened Prelude
  import opened PyText
  import opened Json
  import Audit
  import ConfigParams

  type Digest = Audit.Digest

  type Id = Str

  datatype Status = Draft | Active | Archived

  datatype Doc = Doc(
    name: Str, version: nat, status: Status, payload: Object, sensitiveKeys: seq<Str>, checksum: Str,
    description: Option<Str>, createdBy: Str, activatedAt: Option<int>, archivedAt: Option<int>, deletedAt: Option<int>)

  type Docs = map<Id, Doc>

  /** `_checksum`. */
  function Checksum(digest: string -> Digest, payload: Object): Digest {
    digest(Print(JObj(payload)))
  }

  const MAX_PAYLOAD_KEYS := 200

  /** `_validate_payload` reports no error. */
  predicate ValidPayload(payload: Object, sensitiveKeys: seq<Str>) {
    payload != map[] && |payload| <= MAX_PAYLOAD_KEYS &&
    (forall k :: k in payload ==> ConfigParams.Strip(k) != [] && ConfigParams.Strip(k) == k) &&
    forall i :: 0 <= i < |sensitiveKeys| ==> sensitiveKeys[i] in payload
  }

  // ---------------------------------------------------------------- queries

  function VersionsOf(docs: Docs, name: Str): set<nat> {
    set id | id in docs && docs[id].name == name :: docs[id].version
  }

  predicate IsMax(m: nat, s: set<nat>) {
    m in s && forall v :: v in s ==> v <= m
  }

  lemma {:induction false} MaxExists(s: set<nat>)
    requires s != {}
    ensures exists m :: IsMax(m, s)
  {
    var x :| x in s;
    if s == {x} {
      assert IsMax(x, s);
    } else {
      MaxExists(s - {x});
      var m :| IsMax(m, s - {x});
      assert s == (s - {x}) + {x};
      assert IsMax(if x > m then x else m, s);
    }
  }

  /** `_next_version`: one more than the greatest version of the name, soft-deleted rows included. */
  ghost function NextVersion(docs: Docs, name: Str): nat {
    var vs := VersionsOf(docs, name);
    if vs == {} then 1
    else
      MaxExists(vs);
      (var m: nat :| IsMax(m, vs); m) + 1
  }

  ghost predicate IsLive(docs: Docs, id: Id, name: Str) {
    id in docs && docs[id].name == name && docs[id].status == Active && docs[id].deletedAt.None?
  }

  /** `_active_configuration` returns this row: active, not deleted, of the greatest version among such rows. */
  ghost predicate IsActiveRow(docs: Docs, name: Str, id: Id) {
    IsLive(docs, id, name) && forall q :: IsLive(docs, q, name) ==> docs[q].version <= docs[id].version
  }

  // ---------------------------------------------------------------- operations

  datatype Item = Item(id: Id, name: Str, payload: Object, sensitiveKeys: seq<Str>, description: Option<Str>)

  datatype Command =
    | Create(item: Item, createdBy: Str)
    | Successor(base: Id, id: Id, payload: Object, sensitive: Option<seq<Str>>, description: Option<Str>, createdBy: Str)
    | Delete(target: Id, now: int)
    | Activate(target: Id, current: Option<Id>, now: int)
    | Archive(target: Id, now: int)
    | Rollback(base: Id, id: Id, current: Option<Id>, note: Str, createdBy: Str, now: int)
    | Import(items: seq<Item>, createdBy: Str)

  /** `_get_configuration_orm` finds the row. */
  predicate Visible(docs: Docs, id: Id) {
    id in docs && docs[id].deletedAt.None?
  }

  /** The primary key and the unique constraint on (name, version). */
  ghost predicate Insertable(docs: Docs, id: Id, name: Str, version: nat) {
    id !in docs && version !in VersionsOf(docs, name)
  }

  ghost function NewDoc(digest: string -> Digest, docs: Docs, i: Item, createdBy: Str): Doc {
    Doc(i.name, NextVersion(docs, i.name), Draft, i.payload, i.sensitiveKeys, Checksum(digest, i.payload), i.description,
        createdBy, None, None, None)
  }

  ghost function Insert(docs: Docs, id: Id, d: Doc): Result<Docs> {
    if Insertable(docs, id, d.name, d.version) then Ok(docs[id := d]) else Err(IntegrityError)
  }

  /** The row the query found for `_active_configuration`, or none when there is none. */
  ghost predicate Finds(docs: Docs, name: Str, current: Option<Id>) {
    match current
    case Some(id) => IsActiveRow(docs, name, id)
    case None => forall q :: !IsLive(docs, q, name)
  }

  function Archived1(d: Doc, now: int): Doc {
    d.(status := Archived, archivedAt := Some(now))
  }

  /** Archive the currently active row, if it is another one, and make the target active. */
  function Switch(docs: Docs, target: Id, current: Option<Id>, now: int): Docs
    requires target in docs && (current.Some? ==> current.value in docs)
  {
    var docs' := if current.Some? && current.value != target then docs[current.value := Archived1(docs[current.value], now)] else docs;
    docs'[target := docs'[target].(status := Active, activatedAt := Some(now), archivedAt := None)]
  }

  ghost function ImportStep(digest: string -> Digest, docs: Docs, i: Item, createdBy: Str): Result<Docs> {
    if !ValidPayload(i.payload, i.sensitiveKeys) then Ok(docs)
    else Insert(docs, i.id, NewDoc(digest, docs, i, createdBy))
  }

  ghost function ImportAll(digest: string -> Digest, docs: Docs, items: seq<Item>, createdBy: Str): Result<Docs> {
    if items == [] then Ok(docs)
    else
      var n := |items| - 1;
      match ImportAll(digest, docs, items[..n], createdBy)
      case Err(e) => Err(e)
      case Ok(d) => ImportStep(digest, d, items[n], createdBy)
  }

  ghost function Step(digest: string -> Digest, docs: Docs, c: Command): Result<Docs> {
    match c
    case Create(item, createdBy) =>
      if VersionsOf(docs, item.name) != {} then Err(Conflict)
      else if !ValidPayload(item.payload, item.sensitiveKeys) then Err(Unprocessable)
      else Insert(docs, item.id, NewDoc(digest, docs, item, createdBy).(version := 1))
    case Successor(base, id, payload, sensitive, description, createdBy) =>
      if !Visible(docs, base) then Err(NotFound)
      else
        var b := docs[base];
        var keys := if sensitive.Some? then sensitive.value else b.sensitiveKeys;
        if !ValidPayload(payload, keys) then Err(Unprocessable)
        else Insert(docs, id, NewDoc(digest, docs,
               Item(id, b.name, payload, keys, if description.Some? then description else b.description), createdBy))
    case Delete(target, now) =>
      if !Visible(docs, target) then Err(NotFound)
      else if docs[target].status == Active then Err(Conflict)
      else Ok(docs[target := docs[target].(deletedAt := Some(now))])
    case Activate(target, current, now) =>
      if !Visible(docs, target) then Err(NotFound)
      else if docs[target].status == Active then Err(Conflict)
      else if !Finds(docs, docs[target].name, current) then Err(Injected)
      else Ok(Switch(docs, target, current, now))
    case Archive(target, now) =>
      if !Visible(docs, target) then Err(NotFound)
      else if docs[target].status == Archived then Err(Conflict)
      else Ok(docs[target := Archived1(docs[target], now)])
    case Rollback(base, id, current, note, createdBy, now) =>
      if !Visible(docs, base) then Err(NotFound)
      else
        var b := docs[base];
        var copy := Doc(b.name, NextVersion(docs, b.name), Draft, b.payload, b.sensitiveKeys, b.checksum, Some(note),
                        createdBy, None, None, None);
        var inserted := Insert(docs, id, copy);
        if inserted.Err? then Err(inserted.error)
        else if !Finds(inserted.value, b.name, current) then Err(Injected)
        else Ok(Switch(inserted.value, id, current, now))
    case Import(items, createdBy) => ImportAll(digest, docs, items, createdBy)
  }

  ghost function Next(digest: string -> Digest, docs: Docs, c: Command): Docs {
    match Step(digest, docs, c) case Ok(d) => d case Err(_) => docs
  }

  ghost function Run(digest: string -> Digest, docs: Docs, cs: seq<Command>): Docs
    decreases |cs|
  {
    if cs == [] then docs else Run(digest, Next(digest, docs, cs[0]), cs[1..])
  }

  lemma ImportAllStep(digest: string -> Digest, docs: Docs, items: seq<Item>, createdBy: Str, k: nat)
    requires k < |items| && ImportAll(digest, docs, items[..k], createdBy).Ok?
    ensures ImportAll(digest, docs, items[..k+1], createdBy)
         == ImportStep(digest, ImportAll(digest, docs, items[..k], createdBy).value, items[k], createdBy)
  {
    hide ImportStep;
    assert items[..k+1][..k] == items[..k];
  }

  lemma {:induction false} ImportAllStuck(digest: string -> Digest, docs: Docs, items: seq<Item>, createdBy: Str, k: nat)
    requires k <= |items| && ImportAll(digest, docs, items[..k], createdBy).Err?
    ensures ImportAll(digest, docs, items, createdBy) == ImportAll(digest, docs, items[..k], createdBy)
    decreases |items|
  {
    hide ImportStep;
    if k < |items| {
      assert items[..|items|-1][..k] == items[..k];
      ImportAllStuck(digest, docs, items[..|items|-1], createdBy, k);
    } else {
      assert items[..k] == items;
    }
  }
}

/** What holds of configuration documents in every reachable state. */
module ConfigDocTheorems {
  import opened Prelude
  import opened PyText
  import opened ConfigDocs

  /** Versions of a name are 1..n, all distinct, soft-deleted rows included. */
  ghost predicate VersionsOk(docs: Docs) {
    (forall a, b :: a in docs && b in docs && docs[a].name == docs[b].name && docs[a].version == docs[b].version ==> a == b) &&
    forall id, v :: id in docs && 1 <= v <= docs[id].version ==> v in VersionsOf(docs, docs[id].name)
  }

  ghost predicate RowOk(digest: string -> Digest, d: Doc) {
    d.version >= 1 &&
    (d.status == Active ==> d.deletedAt.None? && d.activatedAt.Some?) &&
    (d.status == Archived <==> d.archivedAt.Some?) &&
    d.checksum == Checksum(digest, d.payload) &&
    forall i :: 0 <= i < |d.sensitiveKeys| ==> d.sensitiveKeys[i] in d.payload
  }

  ghost predicate RowsOk(digest: string -> Digest, docs: Docs) {
    forall id :: id in docs ==> RowOk(digest, docs[id])
  }

  ghost predicate OneActive(docs: Docs) {
    forall a, b :: (a in docs && b in docs && docs[a].name == docs[b].name && docs[a].status == Active && docs[b].status == Active)
      ==> a == b
  }

  ghost predicate Inv(digest: string -> Digest, docs: Docs) {
    VersionsOk(docs) && RowsOk(digest, docs) && OneActive(docs)
  }

  /** Rows are never removed and never change their name, version, payload, sensitive keys or checksum. */
  ghost predicate Keeps(before: Docs, after: Docs) {
    forall id :: id in before ==>
      id in after && after[id].name == before[id].name && after[id].version == before[id].version &&
      after[id].payload == before[id].payload && after[id].sensitiveKeys == before[id].sensitiveKeys &&
      after[id].checksum == before[id].checksum
  }

  /** Under the invariant the next version is one past the last, so the unique constraint can never refuse it. */
  lemma NextVersionFresh(docs: Docs, name: Str)
    requires VersionsOk(docs)
    ensures NextVersion(docs, name) !in VersionsOf(docs, name) && NextVersion(docs, name) >= 1
    ensures forall v :: 1 <= v < NextVersion(docs, name) ==> v in VersionsOf(docs, name)
    ensures VersionsOf(docs, name) == {} ==> NextVersion(docs, name) == 1
  {
    var vs := VersionsOf(docs, name);
    if vs != {} {
      MaxExists(vs);
      var m := NextVersion(docs, name) - 1;
      assert IsMax(m, vs);
      var id :| id in docs && docs[id].name == name && docs[id].version == m;
    }
  }

  /** Adding a row with the next version, sound in itself and not active, keeps everything. */
  lemma InsertKeeps(digest: string -> Digest, docs: Docs, id: Id, d: Doc)
    requires Inv(digest, docs) && RowOk(digest, d) && d.status != Active && d.version == NextVersion(docs, d.name)
    requires Insert(docs, id, d).Ok?
    ensures Inv(digest, docs[id := d]) && Keeps(docs, docs[id := d])
    ensures Insert(docs, id, d).value == docs[id := d]
  {
    hide RowOk;
    var after := docs[id := d];
    NextVersionFresh(docs, d.name);
    forall name ensures VersionsOf(after, name) == VersionsOf(docs, name) + (if name == d.name then {d.version} else {}) {
      InsertVersions(docs, id, d, name);
    }
    forall q | q in docs && docs[q].name == d.name ensures docs[q].version != d.version {
      assert docs[q].version in VersionsOf(docs, d.name);
    }
    forall q, v | q in after && 1 <= v <= after[q].version ensures v in VersionsOf(after, after[q].name) {
      if q != id { assert v in VersionsOf(docs, docs[q].name); }
    }
  }

  lemma InsertVersions(docs: Docs, id: Id, d: Doc, name: Str)
    requires id !in docs
    ensures VersionsOf(docs[id := d], name) == VersionsOf(docs, name) + (if name == d.name then {d.version} else {})
  {
    var after := docs[id := d];
    forall v ensures v in VersionsOf(after, name) <==> v in VersionsOf(docs, name) || (name == d.name && v == d.version) {
      if v in VersionsOf(docs, name) {
        var q :| q in docs && docs[q].name == name && docs[q].version == v;
        assert q in after && after[q] == docs[q];
      }
      if name == d.name && v == d.version {
        assert id in after && after[id] == d;
      }
    }
  }

  /** Changing lifecycle fields only leaves names and versions alone. */
  lemma VersionsCarry(before: Docs, after: Docs)
    requires VersionsOk(before) && Keeps(before, after) && after.Keys == before.Keys
    ensures VersionsOk(after)
  {
    forall name ensures VersionsOf(after, name) == VersionsOf(before, name) {
      forall v ensures v in VersionsOf(after, name) <==> v in VersionsOf(before, name) {
        if v in VersionsOf(before, name) {
          var q :| q in before && before[q].name == name && before[q].version == v;
          assert q in after && after[q].name == name && after[q].version == v;
        }
        if v in VersionsOf(after, name) {
          var q :| q in after && after[q].name == name && after[q].version == v;
          assert q in before && before[q].name == name && before[q].version == v;
        }
      }
    }
    forall id, v | id in after && 1 <= v <= after[id].version ensures v in VersionsOf(after, after[id].name) {
      assert v in VersionsOf(before, before[id].name);
    }
  }

  lemma SwitchRows(digest: string -> Digest, docs: Docs, target: Id, current: Option<Id>, now: int)
    requires RowsOk(digest, docs) && Visible(docs, target) && Finds(docs, docs[target].name, current)
    ensures RowsOk(digest, Switch(docs, target, current, now))
  {
    hide Checksum;
    var after := Switch(docs, target, current, now);
    forall q | q in after ensures RowOk(digest, after[q]) { assert RowOk(digest, docs[q]); }
  }

  /** Whatever is active under a name is what the query finds. */
  lemma ActiveIsFound(digest: string -> Digest, docs: Docs, name: Str, current: Option<Id>, q: Id)
    requires RowsOk(digest, docs) && OneActive(docs) && Finds(docs, name, current)
    requires q in docs && docs[q].name == name && docs[q].status == Active
    ensures current == Some(q)
  {
    hide Checksum;
    assert RowOk(digest, docs[q]);
    assert IsLive(docs, q, name);
  }

  /** The active-row query is determined: exactly one answer fits, in every state the invariant holds in. */
  lemma ActiveRowDetermined(digest: string -> Digest, docs: Docs, name: Str) returns (current: Option<Id>)
    requires Inv(digest, docs)
    ensures Finds(docs, name, current) && forall other :: Finds(docs, name, other) ==> other == current
  {
    hide VersionsOk;
    hide RowsOk;
    if q :| IsLive(docs, q, name) {
      assert forall r :: IsLive(docs, r, name) ==> r == q;
      current := Some(q);
    } else {
      current := None;
    }
  }

  /** Switching keeps one active row per name and rewrites nothing else. */
  lemma SwitchKeeps(digest: string -> Digest, docs: Docs, target: Id, current: Option<Id>, now: int)
    requires Inv(digest, docs) && Visible(docs, target) && docs[target].status != Active
    requires Finds(docs, docs[target].name, current)
    ensures Inv(digest, Switch(docs, target, current, now)) && Keeps(docs, Switch(docs, target, current, now))
  {
    hide VersionsOk;
    hide RowOk;
    var after := Switch(docs, target, current, now);
    assert Keeps(docs, after);
    VersionsCarry(docs, after);
    SwitchRows(digest, docs, target, current, now);
    SwitchActive(digest, docs, target, current, now);
  }

  lemma SwitchActive(digest: string -> Digest, docs: Docs, target: Id, current: Option<Id>, now: int)
    requires RowsOk(digest, docs) && OneActive(docs) && Visible(docs, target) && Finds(docs, docs[target].name, current)
    ensures OneActive(Switch(docs, target, current, now))
  {
    hide RowsOk;
    forall q | q in docs && docs[q].name == docs[target].name && docs[q].status == Active ensures current == Some(q) {
      ActiveIsFound(digest, docs, docs[target].name, current, q);
    }
  }

  lemma NewDocOk(digest: string -> Digest, docs: Docs, i: Item, createdBy: Str)
    requires Inv(digest, docs) && ValidPayload(i.payload, i.sensitiveKeys)
    ensures RowOk(digest, NewDoc(digest, docs, i, createdBy))
  {
    NextVersionFresh(docs, i.name);
  }

  lemma {:induction false} ImportKeeps(digest: string -> Digest, docs: Docs, items: seq<Item>, createdBy: Str)
    requires Inv(digest, docs) && ImportAll(digest, docs, items, createdBy).Ok?
    ensures Inv(digest, ImportAll(digest, docs, items, createdBy).value) && Keeps(docs, ImportAll(digest, docs, items, createdBy).value)
    decreases |items|
  {
    hide Inv;
    hide ValidPayload;
    hide NewDoc;
    if items != [] {
      var n := |items| - 1;
      ImportKeeps(digest, docs, items[..n], createdBy);
      var d := ImportAll(digest, docs, items[..n], createdBy).value;
      ImportStepKeeps(digest, d, items[n], createdBy);
    }
  }

  lemma ImportStepKeeps(digest: string -> Digest, docs: Docs, i: Item, createdBy: Str)
    requires Inv(digest, docs) && ImportStep(digest, docs, i, createdBy).Ok?
    ensures Inv(digest, ImportStep(digest, docs, i, createdBy).value) && Keeps(docs, ImportStep(digest, docs, i, createdBy).value)
  {
    if ValidPayload(i.payload, i.sensitiveKeys) {
      hide Inv;
      hide RowOk;
      hide ValidPayload;
      NewDocOk(digest, docs, i, createdBy);
      InsertKeeps(digest, docs, i.id, NewDoc(digest, docs, i, createdBy));
    }
  }

  /** Every operation keeps the invariant and never rewrites a version. */
  lemma StepKeeps(digest: string -> Digest, docs: Docs, c: Command)
    requires Inv(digest, docs)
    ensures Inv(digest, Next(digest, docs, c)) && Keeps(docs, Next(digest, docs, c))
  {
    hide Inv;
    hide RowOk;
    hide ValidPayload;
    if Step(digest, docs, c).Ok? {
      match c
      case Create(item, createdBy) =>
        NewDocOk(digest, docs, item, createdBy);
        FirstVersion(digest, docs, item.name);
        InsertKeeps(digest, docs, item.id, NewDoc(digest, docs, item, createdBy));
      case Successor(base, id, payload, sensitive, description, createdBy) =>
        var b := docs[base];
        var i := Item(id, b.name, payload, if sensitive.Some? then sensitive.value else b.sensitiveKeys,
                      if description.Some? then description else b.description);
        NewDocOk(digest, docs, i, createdBy);
        InsertKeeps(digest, docs, id, NewDoc(digest, docs, i, createdBy));
      case Delete(target, now) => DeleteKeeps(digest, docs, target, now);
      case Activate(target, current, now) => SwitchKeeps(digest, docs, target, current, now);
      case Archive(target, now) => ArchiveKeeps(digest, docs, target, now);
      case Rollback(base, id, current, note, createdBy, now) => RollbackKeeps(digest, docs, c);
      case Import(items, createdBy) => ImportKeeps(digest, docs, items, createdBy);
    }
  }

  lemma FirstVersion(digest: string -> Digest, docs: Docs, name: Str)
    requires Inv(digest, docs) && VersionsOf(docs, name) == {}
    ensures NextVersion(docs, name) == 1
  {
    NextVersionFresh(docs, name);
  }

  lemma DeleteKeeps(digest: string -> Digest, docs: Docs, target: Id, now: int)
    requires Inv(digest, docs) && target in docs && docs[target].status != Active
    ensures var after := docs[target := docs[target].(deletedAt := Some(now))]; Inv(digest, after) && Keeps(docs, after)
  {
    hide VersionsOk;
    hide Checksum;
    var after := docs[target := docs[target].(deletedAt := Some(now))];
    VersionsCarry(docs, after);
    assert RowOk(digest, docs[target]);
  }

  lemma ArchiveKeeps(digest: string -> Digest, docs: Docs, target: Id, now: int)
    requires Inv(digest, docs) && target in docs
    ensures var after := docs[target := Archived1(docs[target], now)]; Inv(digest, after) && Keeps(docs, after)
  {
    hide VersionsOk;
    hide Checksum;
    var after := docs[target := Archived1(docs[target], now)];
    VersionsCarry(docs, after);
    assert RowOk(digest, docs[target]);
  }

  lemma RollbackKeeps(digest: string -> Digest, docs: Docs, c: Command)
    requires Inv(digest, docs) && c.Rollback? && Step(digest, docs, c).Ok?
    ensures Inv(digest, Step(digest, docs, c).value) && Keeps(docs, Step(digest, docs, c).value)
  {
    hide VersionsOk;
    var b := docs[c.base];
    assert RowOk(digest, b);
    NextVersionFresh(docs, b.name);
    var copy := Doc(b.name, NextVersion(docs, b.name), Draft, b.payload, b.sensitiveKeys, b.checksum, Some(c.note),
                    c.createdBy, None, None, None);
    InsertKeeps(digest, docs, c.id, copy);
    var d := docs[c.id := copy];
    SwitchKeeps(digest, d, c.id, c.current, c.now);
  }

  /** Every run keeps the invariant, and no version is ever rewritten or lost. */
  lemma {:induction false} RunKeeps(digest: string -> Digest, docs: Docs, cs: seq<Command>)
    requires Inv(digest, docs)
    ensures Inv(digest, Run(digest, docs, cs)) && Keeps(docs, Run(digest, docs, cs))
    decreases |cs|
  {
    hide Inv;
    hide Next;
    if cs != [] {
      StepKeeps(digest, docs, cs[0]);
      RunKeeps(digest, Next(digest, docs, cs[0]), cs[1..]);
    }
  }

  lemma EmptyOk(digest: string -> Digest)
    ensures Inv(digest, map[])
  {}

  /** Everything reachable from an empty table satisfies the invariant, and later versions never disturb earlier ones. */
  lemma ReachableDocs(digest: string -> Digest, cs: seq<Command>, more: seq<Command>)
    ensures Inv(digest, Run(digest, map[], cs))
    ensures Keeps(Run(digest, map[], cs), Run(digest, Run(digest, map[], cs), more))
  {
    hide Inv;
    hide Keeps;
    hide Run;
    EmptyOk(digest);
    RunKeeps(digest, map[], cs);
    RunKeeps(digest, Run(digest, map[], cs), more);
  }

  /** The identifiers a command brings are new, as `uuid4` supplies them. */
  ghost predicate FreshIds(docs: Docs, c: Command) {
    match c
    case Create(item, _) => item.id !in docs
    case Successor(_, id, _, _, _, _) => id !in docs
    case Rollback(_, id, _, _, _, _) => id !in docs
    case Import(items, _) =>
      (forall i :: 0 <= i < |items| ==> items[i].id !in docs) &&
      forall i, j :: 0 <= i < j < |items| ==> items[i].id != items[j].id
    case _ => true
  }

  lemma {:induction false} ImportAccepted(digest: string -> Digest, docs: Docs, items: seq<Item>, createdBy: Str)
    requires Inv(digest, docs) && FreshIds(docs, Import(items, createdBy))
    ensures ImportAll(digest, docs, items, createdBy).Ok?
    ensures forall id :: id in ImportAll(digest, docs, items, createdBy).value ==>
              id in docs || exists i :: 0 <= i < |items| && items[i].id == id
    decreases |items|
  {
    hide Inv;
    hide Keeps;
    hide ImportStep;
    if items != [] {
      var n := |items| - 1;
      ImportAccepted(digest, docs, items[..n], createdBy);
      ImportKeeps(digest, docs, items[..n], createdBy);
      var d := ImportAll(digest, docs, items[..n], createdBy).value;
      assert items[n].id !in d;
      ItemAccepted(digest, d, items[n], createdBy);
      forall id | id in ImportAll(digest, docs, items, createdBy).value
        ensures id in docs || exists i :: 0 <= i < |items| && items[i].id == id
      {
        if id in d && id !in docs {
          var i :| 0 <= i < n && items[..n][i].id == id;
          assert items[i].id == id;
        }
      }
    }
  }

  lemma ItemAccepted(digest: string -> Digest, docs: Docs, i: Item, createdBy: Str)
    requires Inv(digest, docs) && i.id !in docs
    ensures ImportStep(digest, docs, i, createdBy).Ok?
    ensures forall id :: id in ImportStep(digest, docs, i, createdBy).value ==> id in docs || id == i.id
  {
    hide ValidPayload;
    hide NextVersion;
    hide RowsOk;
    hide OneActive;
    NextVersionFresh(docs, i.name);
  }

  /** With fresh identifiers, no operation is ever refused by the primary key or the (name, version) constraint. */
  lemma VersionConstraintNeverFires(digest: string -> Digest, docs: Docs, c: Command)
    requires Inv(digest, docs) && FreshIds(docs, c)
    ensures Step(digest, docs, c).Err? ==> Step(digest, docs, c).error != IntegrityError
  {
    hide ValidPayload;
    hide ImportAll;
    if c.Create? { NextVersionFresh(docs, c.item.name); }
    if c.Successor? && c.base in docs { NextVersionFresh(docs, docs[c.base].name); }
    if c.Rollback? && c.base in docs { NextVersionFresh(docs, docs[c.base].name); }
    if c.Import? { ImportAccepted(digest, docs, c.items, c.createdBy); }
  }
}
