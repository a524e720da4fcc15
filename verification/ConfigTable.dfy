/** The configuration-document service over a mutable table: every operation in place, and the invariant it keeps. */
module ConfigTable {
  import opened Prelude
  import opened PyText
  import opened Json
  import opened ConfigDocs
  import opened ConfigDocTheorems

  lemma GreatestExists(docs: Docs, rows: set<Id>)
    requires rows != {} && forall q :: q in rows ==> q in docs
    ensures exists id :: id in rows && forall q :: q in rows ==> docs[q].version <= docs[id].version
  {
    var versions := set q | q in rows :: docs[q].version;
    var x :| x in rows;
    assert docs[x].version in versions;
    MaxExists(versions);
    var m :| IsMax(m, versions);
    var id :| id in rows && docs[id].version == m;
    forall q | q in rows ensures docs[q].version <= docs[id].version { assert docs[q].version in versions; }
  }

  /** What the import response says of one item: the version it got, or none when it was skipped. */
  ghost predicate Reported(docs: Docs, item: Item, version: Option<nat>) {
    if ValidPayload(item.payload, item.sensitiveKeys)
    then version.Some? && item.id in docs && docs[item.id].version == version.value && docs[item.id].name == item.name
    else version.None?
  }

  datatype ImportReport = ImportReport(imported: nat, skipped: nat, versions: seq<Option<nat>>)

  /** The document table as the service mutates it. */
  class Table {
    var docs: Docs

    constructor (digest: string -> Digest)
      ensures docs == map[] && Inv(digest, docs)
    {
      docs := map[];
      new;
      EmptyOk(digest);
    }

    method FreshVersion(name: Str) returns (version: nat)
      ensures version == NextVersion(docs, name)
    {
      var vs := VersionsOf(docs, name);
      if vs == {} { return 1; }
      MaxExists(vs);
      var m: nat :| IsMax(m, vs);
      version := m + 1;
    }

    /** `_active_configuration`. */
    method FindActive(name: Str) returns (current: Option<Id>)
      ensures Finds(docs, name, current)
    {
      var live := set id | id in docs && docs[id].name == name && docs[id].status == Active && docs[id].deletedAt.None?;
      if live == {} {
        forall q ensures !IsLive(docs, q, name) { assert q !in live; }
        return None;
      }
      GreatestExists(docs, live);
      var id :| id in live && forall q :: q in live ==> docs[q].version <= docs[id].version;
      forall q | IsLive(docs, q, name) ensures docs[q].version <= docs[id].version { assert q in live; }
      current := Some(id);
    }

    method InsertDoc(id: Id, d: Doc) returns (error: Option<Error>)
      modifies this
      ensures Outcome(old(docs), Insert(old(docs), id, d), docs, error)
    {
      if id in docs || d.version in VersionsOf(docs, d.name) { return Some(IntegrityError); }
      docs := docs[id := d];
      error := None;
    }

    method CreateConfiguration(digest: string -> Digest, item: Item, createdBy: Str) returns (error: Option<Error>)
      requires Inv(digest, docs)
      modifies this
      ensures Outcome(old(docs), Step(digest, old(docs), Create(item, createdBy)), docs, error)
      ensures Inv(digest, docs) && Keeps(old(docs), docs)
    {
      hide Inv;
      hide Keeps;
      StepKeeps(digest, docs, Create(item, createdBy));
      hide ValidPayload;
      hide Checksum;
      hide VersionsOf;
      if VersionsOf(docs, item.name) != {} { return Some(Conflict); }
      if !ValidPayload(item.payload, item.sensitiveKeys) { return Some(Unprocessable); }
      error := InsertDoc(item.id, Doc(item.name, 1, Draft, item.payload, item.sensitiveKeys, Checksum(digest, item.payload),
                                      item.description, createdBy, None, None, None));
    }

    method CreateSuccessor(digest: string -> Digest, base: Id, id: Id, payload: Object, sensitive: Option<seq<Str>>,
                           description: Option<Str>, createdBy: Str)
      returns (error: Option<Error>)
      requires Inv(digest, docs)
      modifies this
      ensures Outcome(old(docs), Step(digest, old(docs), Successor(base, id, payload, sensitive, description, createdBy)), docs, error)
      ensures Inv(digest, docs) && Keeps(old(docs), docs)
    {
      hide Inv;
      hide Keeps;
      StepKeeps(digest, docs, Successor(base, id, payload, sensitive, description, createdBy));
      hide ValidPayload;
      hide Checksum;
      hide VersionsOf;
      hide NextVersion;
      if !Visible(docs, base) { return Some(NotFound); }
      var keys := if sensitive.Some? then sensitive.value else docs[base].sensitiveKeys;
      if !ValidPayload(payload, keys) { return Some(Unprocessable); }
      var version := FreshVersion(docs[base].name);
      error := InsertDoc(id, Doc(docs[base].name, version, Draft, payload, keys, Checksum(digest, payload),
                                 if description.Some? then description else docs[base].description, createdBy, None, None, None));
    }

    method DeleteConfiguration(digest: string -> Digest, target: Id, now: int) returns (error: Option<Error>)
      requires Inv(digest, docs)
      modifies this
      ensures Outcome(old(docs), Step(digest, old(docs), Delete(target, now)), docs, error)
      ensures Inv(digest, docs) && Keeps(old(docs), docs)
    {
      hide Inv;
      hide Keeps;
      StepKeeps(digest, docs, Delete(target, now));
      if !Visible(docs, target) { return Some(NotFound); }
      if docs[target].status == Active { return Some(Conflict); }
      docs := docs[target := docs[target].(deletedAt := Some(now))];
      error := None;
    }

    /** The field assignments shared by activation and rollback, in order. */
    method MakeActive(target: Id, current: Option<Id>, now: int)
      requires target in docs && (current.Some? ==> current.value in docs)
      modifies this
      ensures docs == Switch(old(docs), target, current, now)
    {
      if current.Some? && current.value != target {
        docs := docs[current.value := docs[current.value].(status := Archived)];
        docs := docs[current.value := docs[current.value].(archivedAt := Some(now))];
        assert docs == old(docs)[current.value := Archived1(old(docs)[current.value], now)];
      }
      docs := docs[target := docs[target].(status := Active, activatedAt := Some(now))];
      docs := docs[target := docs[target].(archivedAt := None)];
    }

    /** `activate_configuration`; `current` is the row the active-row query returned. */
    method ActivateConfiguration(digest: string -> Digest, target: Id, now: int) returns (error: Option<Error>, current: Option<Id>)
      requires Inv(digest, docs)
      modifies this
      ensures Outcome(old(docs), Step(digest, old(docs), Activate(target, current, now)), docs, error)
      ensures Inv(digest, docs) && Keeps(old(docs), docs)
      ensures error != Some(Injected)
    {
      hide Inv;
      hide Keeps;
      forall cur ensures var after := Next(digest, docs, Activate(target, cur, now)); Inv(digest, after) && Keeps(docs, after) {
        StepKeeps(digest, docs, Activate(target, cur, now));
      }
      current := None;
      if !Visible(docs, target) { return Some(NotFound), None; }
      if docs[target].status == Active { return Some(Conflict), None; }
      current := FindActive(docs[target].name);
      MakeActive(target, current, now);
      error := None;
    }

    method ArchiveConfiguration(digest: string -> Digest, target: Id, now: int) returns (error: Option<Error>)
      requires Inv(digest, docs)
      modifies this
      ensures Outcome(old(docs), Step(digest, old(docs), Archive(target, now)), docs, error)
      ensures Inv(digest, docs) && Keeps(old(docs), docs)
    {
      hide Inv;
      hide Keeps;
      StepKeeps(digest, docs, Archive(target, now));
      if !Visible(docs, target) { return Some(NotFound); }
      if docs[target].status == Archived { return Some(Conflict); }
      docs := docs[target := Archived1(docs[target], now)];
      error := None;
    }

    /** `rollback_configuration`: a new version copies the old payload and is activated. */
    method RollbackConfiguration(digest: string -> Digest, base: Id, id: Id, note: Str, createdBy: Str, now: int)
      returns (error: Option<Error>, current: Option<Id>)
      requires Inv(digest, docs)
      modifies this
      ensures Outcome(old(docs), Step(digest, old(docs), Rollback(base, id, current, note, createdBy, now)), docs, error)
      ensures Inv(digest, docs) && Keeps(old(docs), docs)
      ensures error != Some(Injected)
    {
      hide Inv;
      hide Keeps;
      forall cur
        ensures var after := Next(digest, docs, Rollback(base, id, cur, note, createdBy, now)); Inv(digest, after) && Keeps(docs, after)
      {
        StepKeeps(digest, docs, Rollback(base, id, cur, note, createdBy, now));
      }
      hide VersionsOf;
      hide NextVersion;
      current := None;
      if !Visible(docs, base) { return Some(NotFound), None; }
      var b := docs[base];
      var version := FreshVersion(b.name);
      error := InsertDoc(id, Doc(b.name, version, Draft, b.payload, b.sensitiveKeys, b.checksum, Some(note), createdBy, None, None, None));
      if error.None? {
        current := FindActive(b.name);
        MakeActive(id, current, now);
      }
    }

    /** One item of an import: skipped, inserted as a draft, or refused. */
    method ImportItem(digest: string -> Digest, item: Item, createdBy: Str) returns (r: Result<Option<nat>>)
      modifies this
      ensures Outcome(old(docs), ImportStep(digest, old(docs), item, createdBy), docs, if r.Ok? then None else Some(r.error))
      ensures r.Ok? ==> Reported(docs, item, r.value)
      ensures forall other, version :: Reported(old(docs), other, version) ==> Reported(docs, other, version)
    {
      hide ValidPayload;
      hide Checksum;
      hide NextVersion;
      hide VersionsOf;
      if !ValidPayload(item.payload, item.sensitiveKeys) { return Ok(None); }
      var version := FreshVersion(item.name);
      var d := Doc(item.name, version, Draft, item.payload, item.sensitiveKeys, Checksum(digest, item.payload), item.description,
                   createdBy, None, None, None);
      var error := InsertDoc(item.id, d);
      r := if error.Some? then Err(error.value) else Ok(Some(version));
    }

    /**
     `import_configurations`: invalid items are skipped, the others become drafts, and a name repeated within the
     batch sees the rows inserted before it. A refused insert undoes the batch.
     */
    method ImportConfigurations(digest: string -> Digest, items: seq<Item>, createdBy: Str) returns (r: Result<ImportReport>)
      requires Inv(digest, docs)
      modifies this
      ensures Outcome(old(docs), Step(digest, old(docs), Import(items, createdBy)), docs, if r.Ok? then None else Some(r.error))
      ensures Inv(digest, docs) && Keeps(old(docs), docs)
      ensures r.Ok? ==> r.value.imported + r.value.skipped == |items| && |r.value.versions| == |items|
      ensures r.Ok? ==> forall i :: 0 <= i < |items| ==> Reported(docs, items[i], r.value.versions[i])
    {
      hide Inv;
      hide Keeps;
      hide ImportStep;
      hide Reported;
      StepKeeps(digest, docs, Import(items, createdBy));
      var snapshot := docs;
      var imported, skipped := 0, 0;
      var versions: seq<Option<nat>> := [];
      for k := 0 to |items|
        invariant imported + skipped == k && |versions| == k
        invariant ImportAll(digest, old(docs), items[..k], createdBy) == Ok(docs)
        invariant forall i :: 0 <= i < k ==> Reported(docs, items[i], versions[i])
      {
        ImportAllStep(digest, old(docs), items, createdBy, k);
        var one := ImportItem(digest, items[k], createdBy);
        if one.Err? {
          ImportAllStuck(digest, old(docs), items, createdBy, k + 1);
          docs := snapshot;
          return Err(one.error);
        }
        if one.value.None? {
          skipped := skipped + 1;
        } else {
          imported := imported + 1;
        }
        versions := versions + [one.value];
      }
      assert items[..|items|] == items;
      r := Ok(ImportReport(imported, skipped, versions));
    }
  }
}
