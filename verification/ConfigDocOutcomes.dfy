/** What each configuration-document operation does when it is accepted, when it is refused, and what it leaves alone. */
module ConfigDocOutcomes {
  import opened Prelude
  import opened PyText
  import opened Json
  import ConfigParams
  import opened ConfigDocs
  import opened ConfigDocTheorems
  import ConfigValues

  /** Every row but these is as it was. */
  ghost predicate OthersSame(before: Docs, after: Docs, changed: set<Id>) {
    after.Keys == before.Keys + changed && forall q :: q in before && q !in changed ==> after[q] == before[q]
  }

  /** The payload rules: 1 to 200 keys, none blank or with outer white space, and every sensitive key among them. */
  lemma PayloadRules(payload: Object, sensitiveKeys: seq<Str>)
    ensures ValidPayload(payload, sensitiveKeys) <==>
              1 <= |payload| <= 200 &&
              (forall k :: k in payload ==> k != [] && !ConfigParams.IsSpace(k[0]) && !ConfigParams.IsSpace(k[|k|-1])) &&
              forall k :: k in sensitiveKeys ==> k in payload
  {
    forall k ensures (ConfigParams.Strip(k) != [] && ConfigParams.Strip(k) == k) <==>
                     (k != [] && !ConfigParams.IsSpace(k[0]) && !ConfigParams.IsSpace(k[|k|-1])) { ConfigValues.StripFixed(k); }
    hide ConfigParams.Strip;
    hide ConfigParams.IsSpace;
  }

  // ---------------------------------------------------------------- new drafts

  /** A new version: the next number, a draft, with this payload and its checksum. */
  ghost predicate IsDraft(digest: string -> Digest, before: Docs, d: Doc, name: Str, payload: Object, sensitiveKeys: seq<Str>) {
    d.name == name && d.status == Draft && d.payload == payload && d.sensitiveKeys == sensitiveKeys &&
    d.checksum == digest(Print(JObj(payload))) && d.activatedAt.None? && d.archivedAt.None? && d.deletedAt.None? &&
    d.version !in VersionsOf(before, name) && forall v :: 1 <= v < d.version ==> v in VersionsOf(before, name)
  }

  /** A document is created exactly when its name is new and its payload valid. */
  lemma CreateOutcome(digest: string -> Digest, docs: Docs, item: Item, createdBy: Str)
    requires Inv(digest, docs) && item.id !in docs
    ensures var r := Step(digest, docs, Create(item, createdBy));
            (r.Ok? <==> (forall q :: q in docs ==> docs[q].name != item.name) && ValidPayload(item.payload, item.sensitiveKeys)) &&
            (r.Ok? ==>
               var d := r.value[item.id];
               OthersSame(docs, r.value, {item.id}) && d.version == 1 && d.createdBy == createdBy && d.description == item.description &&
               IsDraft(digest, docs, d, item.name, item.payload, item.sensitiveKeys))
  {
    hide Inv;
    hide ValidPayload;
    hide NextVersion;
    var vs := VersionsOf(docs, item.name);
    if q :| q in docs && docs[q].name == item.name { assert docs[q].version in vs; }
  }

  /** A successor is accepted exactly for a visible base and a valid payload; what it is not given it takes from the base. */
  lemma SuccessorOutcome(
    digest: string -> Digest, docs: Docs, base: Id, id: Id, payload: Object, sensitive: Option<seq<Str>>,
    description: Option<Str>, author: Str)
    requires Inv(digest, docs) && id !in docs
    ensures var r := Step(digest, docs, Successor(base, id, payload, sensitive, description, author));
            (r.Ok? <==> base in docs && docs[base].deletedAt.None? &&
                        ValidPayload(payload, if sensitive.Some? then sensitive.value else docs[base].sensitiveKeys)) &&
            (r.Ok? ==>
               var d := r.value[id];
               OthersSame(docs, r.value, {id}) && d.createdBy == author &&
               d.description == (if description.Some? then description else docs[base].description) &&
               IsDraft(digest, docs, d, docs[base].name, payload, if sensitive.Some? then sensitive.value else docs[base].sensitiveKeys))
  {
    hide ValidPayload;
    if base in docs {
      NextVersionFresh(docs, docs[base].name);
      hide Inv;
      hide NextVersion;
      hide VersionsOf;
    }
  }

  // ---------------------------------------------------------------- activation

  /** The rows live under this name were archived at this time. */
  ghost predicate WereArchived(before: Docs, after: Docs, name: Str, now: int) {
    forall q :: IsLive(before, q, name) ==> q in after && after[q] == before[q].(status := Archived, archivedAt := Some(now))
  }

  /** Every row neither live under this name nor this one is as it was. */
  ghost predicate RestSame(before: Docs, after: Docs, name: Str, target: Id) {
    after.Keys == before.Keys + {target} && forall q :: q in before && q != target && !IsLive(before, q, name) ==> after[q] == before[q]
  }

  lemma SwitchOutcome(digest: string -> Digest, docs: Docs, target: Id, current: Option<Id>, now: int)
    requires RowsOk(digest, docs) && OneActive(docs) && Visible(docs, target) && docs[target].status != Active
    requires Finds(docs, docs[target].name, current)
    ensures var after, name := Switch(docs, target, current, now), docs[target].name;
            Finds(after, name, Some(target)) && WereArchived(docs, after, name, now) && RestSame(docs, after, name, target) &&
            after[target] == docs[target].(status := Active, activatedAt := Some(now), archivedAt := None)
  {
    hide RowOk;
    var after, name := Switch(docs, target, current, now), docs[target].name;
    forall q | IsLive(docs, q, name) ensures current == Some(q) { ActiveIsFound(digest, docs, name, current, q); }
    forall q | q in docs && q != target && docs[q].name == name && docs[q].status == Active ensures current == Some(q) {
      ActiveIsFound(digest, docs, name, current, q);
    }
    assert forall q :: IsLive(after, q, name) ==> q == target;
  }

  /** A version is activated exactly when it is visible and not active; it becomes the one active row of its name. */
  lemma ActivateOutcome(digest: string -> Digest, docs: Docs, target: Id, current: Option<Id>, now: int)
    requires Inv(digest, docs) && (target in docs ==> Finds(docs, docs[target].name, current))
    ensures var r := Step(digest, docs, Activate(target, current, now));
            (r.Ok? <==> target in docs && docs[target].deletedAt.None? && docs[target].status != Active) &&
            (r.Ok? ==>
               var name, d := docs[target].name, r.value[target];
               Finds(r.value, name, Some(target)) && WereArchived(docs, r.value, name, now) && RestSame(docs, r.value, name, target) &&
               d.status == Active && d.activatedAt == Some(now) && d.archivedAt.None? && d.payload == docs[target].payload)
  {
    hide Finds;
    hide VersionsOk;
    hide RowsOk;
    hide OneActive;
    hide Switch;
    hide WereArchived;
    hide RestSame;
    if Visible(docs, target) && docs[target].status != Active {
      SwitchOutcome(digest, docs, target, current, now);
    }
  }

  lemma {:induction false} CopyFinds(docs: Docs, id: Id, copy: Doc, name: Str, current: Option<Id>)
    requires id !in docs && copy.status != Active
    ensures Finds(docs[id := copy], name, current) <==> Finds(docs, name, current)
    ensures forall q :: IsLive(docs[id := copy], q, name) <==> IsLive(docs, q, name)
  {
    var docs' := docs[id := copy];
    forall q ensures IsLive(docs', q, name) <==> IsLive(docs, q, name) {}
    forall q | q in docs ensures docs'[q] == docs[q] {}
  }

  ghost function CopyOf(docs: Docs, b: Doc, note: Str, author: Str): Doc {
    Doc(b.name, NextVersion(docs, b.name), Draft, b.payload, b.sensitiveKeys, b.checksum, Some(note), author, None, None, None)
  }

  /** The table with the copy inserted, before it is activated. */
  lemma CopyInserted(digest: string -> Digest, docs: Docs, base: Id, id: Id, current: Option<Id>, note: Str, author: Str)
    requires Inv(digest, docs) && id !in docs && Visible(docs, base) && Finds(docs, docs[base].name, current)
    ensures var b := docs[base]; var copy := CopyOf(docs, b, note, author); var mid := docs[id := copy];
            Insert(docs, id, copy) == Ok(mid) && RowsOk(digest, mid) && OneActive(mid) && Finds(mid, b.name, current) &&
            (forall q :: IsLive(mid, q, b.name) <==> IsLive(docs, q, b.name)) &&
            copy.version !in VersionsOf(docs, b.name) && forall v :: 1 <= v < copy.version ==> v in VersionsOf(docs, b.name)
  {
    var b := docs[base];
    var copy := CopyOf(docs, b, note, author);
    NextVersionFresh(docs, b.name);
    assert RowOk(digest, copy) by { assert RowOk(digest, b); }
    hide RowOk;
    hide NextVersion;
    hide VersionsOf;
    hide Finds;
    hide IsLive;
    hide VersionsOk;
    hide RowsOk;
    hide OneActive;
    hide Keeps;
    assert Insertable(docs, id, copy.name, copy.version);
    InsertKeeps(digest, docs, id, copy);
    CopyFinds(docs, id, copy, b.name, current);
  }

  lemma RollbackUnfolds(digest: string -> Digest, docs: Docs, base: Id, id: Id, current: Option<Id>, note: Str, author: Str, now: int)
    requires Visible(docs, base)
    requires var copy := CopyOf(docs, docs[base], note, author);
             Insert(docs, id, copy) == Ok(docs[id := copy]) && Finds(docs[id := copy], docs[base].name, current)
    ensures Step(digest, docs, Rollback(base, id, current, note, author, now))
         == Ok(Switch(docs[id := CopyOf(docs, docs[base], note, author)], id, current, now))
  {
    hide Insert;
    hide Finds;
    hide Switch;
    hide NextVersion;
  }

  /** A rollback is accepted exactly for a visible base; the new version with the base's payload, keys and checksum is active. */
  lemma RollbackOutcome(digest: string -> Digest, docs: Docs, base: Id, id: Id, current: Option<Id>, note: Str, author: Str, now: int)
    requires Inv(digest, docs) && id !in docs && (base in docs ==> Finds(docs, docs[base].name, current))
    ensures var r := Step(digest, docs, Rollback(base, id, current, note, author, now));
            (r.Ok? <==> base in docs && docs[base].deletedAt.None?) &&
            (r.Ok? ==>
               var b, d := docs[base], r.value[id];
               Finds(r.value, b.name, Some(id)) && WereArchived(docs, r.value, b.name, now) && RestSame(docs, r.value, b.name, id) &&
               d.name == b.name && d.payload == b.payload && d.sensitiveKeys == b.sensitiveKeys && d.checksum == b.checksum &&
               d.description == Some(note) && d.createdBy == author && d.deletedAt.None? &&
               d.status == Active && d.activatedAt == Some(now) && d.archivedAt.None? &&
               d.version !in VersionsOf(docs, b.name) && forall v :: 1 <= v < d.version ==> v in VersionsOf(docs, b.name))
  {
    if Visible(docs, base) {
      CopyInserted(digest, docs, base, id, current, note, author);
      RollbackUnfolds(digest, docs, base, id, current, note, author, now);
      hide Inv;
      hide RowsOk;
      hide OneActive;
      hide NextVersion;
      hide VersionsOf;
      hide Finds;
      hide Insert;
      hide Switch;
      hide Step;
      var b, mid := docs[base], docs[id := CopyOf(docs, docs[base], note, author)];
      SwitchOutcome(digest, mid, id, current, now);
      var after := Switch(mid, id, current, now);
      hide IsLive;
      assert WereArchived(docs, after, b.name, now) && RestSame(docs, after, b.name, id) by {
        CopyFrames(docs, mid, after, id, b.name, now);
      }
    }
  }

  /** What holds of the rows beside the copy holds of the rows there before. */
  lemma CopyFrames(docs: Docs, mid: Docs, after: Docs, id: Id, name: Str, now: int)
    requires id !in docs && id in mid && mid == docs[id := mid[id]] && !IsLive(mid, id, name)
    requires WereArchived(mid, after, name, now) && RestSame(mid, after, name, id)
    ensures WereArchived(docs, after, name, now) && RestSame(docs, after, name, id)
  {
    forall q | q in docs ensures (IsLive(docs, q, name) <==> IsLive(mid, q, name)) && mid[q] == docs[q] {}
  }

  // ---------------------------------------------------------------- archiving and deleting

  lemma ArchiveOutcome(digest: string -> Digest, docs: Docs, target: Id, now: int)
    ensures var r := Step(digest, docs, Archive(target, now));
            (r.Ok? <==> target in docs && docs[target].deletedAt.None? && docs[target].status != Archived) &&
            (r.Ok? ==> OthersSame(docs, r.value, {target}) &&
                       r.value[target] == docs[target].(status := Archived, archivedAt := Some(now)) &&
                       forall name :: !IsLive(r.value, target, name))
  {}

  lemma DeleteOutcome(digest: string -> Digest, docs: Docs, target: Id, now: int)
    ensures var r := Step(digest, docs, Delete(target, now));
            (r.Ok? <==> target in docs && docs[target].deletedAt.None? && docs[target].status != Active) &&
            (r.Ok? ==> OthersSame(docs, r.value, {target}) && r.value[target] == docs[target].(deletedAt := Some(now)) &&
                       !Visible(r.value, target))
  {}

  // ---------------------------------------------------------------- import

  /** The identifiers of the items an import does not skip. */
  ghost function Imported(items: seq<Item>): set<Id> {
    set i | 0 <= i < |items| && ValidPayload(items[i].payload, items[i].sensitiveKeys) :: items[i].id
  }

  /** The item's draft, whatever its version. */
  ghost predicate IsImported(digest: string -> Digest, d: Doc, item: Item, createdBy: Str) {
    d.name == item.name && d.payload == item.payload && d.sensitiveKeys == item.sensitiveKeys &&
    d.checksum == digest(Print(JObj(item.payload))) && d.status == Draft && d.description == item.description &&
    d.createdBy == createdBy && d.activatedAt.None? && d.archivedAt.None? && d.deletedAt.None?
  }

  /** A valid item's draft is in the table. */
  ghost predicate Landed(digest: string -> Digest, after: Docs, item: Item, createdBy: Str) {
    ValidPayload(item.payload, item.sensitiveKeys) ==> item.id in after && IsImported(digest, after[item.id], item, createdBy)
  }

  /** An import of new identifiers adds exactly the valid items, each as a draft of its own. */
  lemma {:induction false} ImportOutcome(digest: string -> Digest, docs: Docs, items: seq<Item>, createdBy: Str)
    requires Inv(digest, docs) && FreshIds(docs, Import(items, createdBy))
    ensures var r := ImportAll(digest, docs, items, createdBy);
            r.Ok? && OthersSame(docs, r.value, Imported(items)) &&
            forall i :: 0 <= i < |items| ==> Landed(digest, r.value, items[i], createdBy)
    decreases |items|
  {
    hide Inv;
    hide Keeps;
    hide ImportStep;
    hide Landed;
    hide OthersSame;
    if items == [] {
      assert Imported(items) == {};
      NothingChanged(docs);
    } else {
      var n := |items| - 1;
      ImportOutcome(digest, docs, items[..n], createdBy);
      hide Imported;
      ImportKeeps(digest, docs, items[..n], createdBy);
      var d := ImportAll(digest, docs, items[..n], createdBy).value;
      StillFresh(docs, d, items, createdBy);
      ItemOutcome(digest, d, items[n], createdBy);
      ImportedStep(items);
      ImportedTogether(digest, docs, d, ImportStep(digest, d, items[n], createdBy).value, items, createdBy);
    }
  }

  lemma NothingChanged(docs: Docs)
    ensures OthersSame(docs, docs, {})
  {}

  lemma StillFresh(docs: Docs, d: Docs, items: seq<Item>, createdBy: Str)
    requires items != [] && FreshIds(docs, Import(items, createdBy)) && OthersSame(docs, d, Imported(items[..|items|-1]))
    ensures items[|items|-1].id !in d
  {
    hide ValidPayload;
  }

  /** The items before and the last one together. */
  lemma ImportedTogether(digest: string -> Digest, docs: Docs, d: Docs, after: Docs, items: seq<Item>, createdBy: Str)
    requires items != [] && OthersSame(docs, d, Imported(items[..|items|-1])) && items[|items|-1].id !in d
    requires var front := items[..|items|-1]; forall i :: 0 <= i < |front| ==> Landed(digest, d, front[i], createdBy)
    requires var last := items[|items|-1];
             OthersSame(d, after, if ValidPayload(last.payload, last.sensitiveKeys) then {last.id} else {}) &&
             Landed(digest, after, last, createdBy)
    requires var last := items[|items|-1];
             Imported(items) == Imported(items[..|items|-1]) + (if ValidPayload(last.payload, last.sensitiveKeys) then {last.id} else {})
    ensures OthersSame(docs, after, Imported(items)) && forall i :: 0 <= i < |items| ==> Landed(digest, after, items[i], createdBy)
  {
    hide ValidPayload;
    hide Imported;
    hide IsImported;
    var n := |items| - 1;
    forall i | 0 <= i < |items| ensures Landed(digest, after, items[i], createdBy) {
      if i < n { assert items[..n][i] == items[i]; }
    }
  }

  lemma ItemOutcome(digest: string -> Digest, docs: Docs, item: Item, createdBy: Str)
    requires Inv(digest, docs) && item.id !in docs
    ensures var r, valid := ImportStep(digest, docs, item, createdBy), ValidPayload(item.payload, item.sensitiveKeys);
            r.Ok? && OthersSame(docs, r.value, if valid then {item.id} else {}) &&
            Landed(digest, r.value, item, createdBy)
  {
    hide Print;
    hide Inv;
    hide ValidPayload;
    hide NextVersion;
    hide VersionsOf;
    ItemAccepted(digest, docs, item, createdBy);
    if ValidPayload(item.payload, item.sensitiveKeys) {
      assert Insertable(docs, item.id, item.name, NextVersion(docs, item.name));
    }
  }

  lemma ImportedStep(items: seq<Item>)
    requires items != []
    ensures var n := |items| - 1;
            Imported(items) == Imported(items[..n]) +
              (if ValidPayload(items[n].payload, items[n].sensitiveKeys) then {items[n].id} else {})
  {
    hide ValidPayload;
    var n := |items| - 1;
    forall id | id in Imported(items)
      ensures id in Imported(items[..n]) || (ValidPayload(items[n].payload, items[n].sensitiveKeys) && id == items[n].id)
    {
      var i :| 0 <= i < |items| && ValidPayload(items[i].payload, items[i].sensitiveKeys) && items[i].id == id;
      if i < n { assert items[..n][i] == items[i]; }
    }
    forall id | id in Imported(items[..n]) ensures id in Imported(items) {
      var i :| 0 <= i < n && ValidPayload(items[..n][i].payload, items[..n][i].sensitiveKeys) && items[..n][i].id == id;
      assert items[i] == items[..n][i];
    }
  }
}
