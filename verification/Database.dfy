/** The registry database: every statement the handlers issue, followed by the triggers of migration 000009. */
module Database {
  import opened Wrappers
  import opened SemVer
  import opened Aggregates
  import opened Schema
  import opened Statistics

  class Database {
    var tables: Tables
    /** The columns migration 000009 adds to the version and to the artifact rows. */
    var versionBytes: map<Id, int>
    var artifactStats: map<Id, Stats>
    /** Every id handed out by a sequence is below this one. */
    var nextId: nat
    /** Which statements of the handlers fail, by their number; a failed one was not applied. */
    const outages: nat -> bool
    var statements: nat

    constructor (outages: nat -> bool)
      ensures Valid() && tables == Tables(map[], map[], map[], map[], map[], {}) && this.outages == outages && statements == 0
    {
      tables := Tables(map[], map[], map[], map[], map[], {});
      versionBytes, artifactStats, nextId := map[], map[], 1;
      this.outages, statements := outages, 0;
    }

    /** Whether the next statement, or transaction, fails. */
    method Down() returns (down: bool)
      modifies this`statements
      ensures down == outages(old(statements)) && statements == old(statements) + 1
    {
      down := outages(statements);
      statements := statements + 1;
    }

    ghost predicate Reflect(shown: FileRows, lag: set<Id>)
      reads this`tables, this`versionBytes, this`artifactStats
    {
      Reflects(tables, versionBytes, artifactStats, shown, lag)
    }

    /** The tables are consistent and the denormalised columns equal the plain aggregates. */
    ghost predicate Valid()
      reads this
    {
      tables.Ok(nextId) && Reflects(tables, versionBytes, artifactStats, tables.files, {})
    }

    // ---- triggers ----

    /** registry_version_sync_artifact_stats: recompute one artifact; a row already gone is left alone. */
    method VersionSync(a: Id, ghost shown: FileRows, ghost lag: set<Id>)
      requires Reflect(shown, lag + {a})
      modifies this`artifactStats
      ensures Reflect(shown, lag)
    {
      ArtifactSynced(tables, versionBytes, artifactStats, shown, lag, a);
      if a in tables.artifacts {
        var rows := BytesOfVersions(tables.versions, versionBytes, a);
        var count, largest, total := Aggregate(rows);
        artifactStats := artifactStats[a := Stats(count, largest, total)];
      }
    }

    /** registry_file_sync_version_bytes for the row change before -> after of file `id`. */
    method FileSync(ghost id: Id, before: Option<FileRow>, after: Option<FileRow>, ghost shown: FileRows, ghost lag: set<Id>)
      requires Reflect(shown, lag)
      requires before == Get(shown, id) && (before.Some? || after.Some?)
      requires before.Some? && after.Some? ==> before.value.version == after.value.version
      modifies this`versionBytes, this`artifactStats
      ensures Reflect(Put(shown, id, after), lag)
    {
      hide Reflects;
      var delta: int, vid := 0, 0;
      if before.Some? {
        vid := before.value.version;
        if before.value.status == AVAILABLE {
          delta := delta - before.value.SizeOrZero();
        }
      }
      if after.Some? {
        vid := after.value.version;
        if after.value.status == AVAILABLE {
          delta := delta + after.value.SizeOrZero();
        }
      }
      FileChange(tables, versionBytes, artifactStats, shown, lag, id, after, vid, delta);
      if delta != 0 && vid in tables.versions {
        versionBytes := Bump(versionBytes, vid, delta);
        VersionSync(tables.versions[vid].artifact, Put(shown, id, after), lag);
      }
    }

    // ---- backfill ----

    /** The backfill of migration 000009 makes the freshly added columns right, whatever the rows are. */
    method Backfill()
      requires tables.Ok(nextId)
      requires versionBytes == (map v | v in tables.versions :: 0)
      requires artifactStats == (map a | a in tables.artifacts :: Stats(0, 0, 0))
      modifies this`versionBytes, this`artifactStats
      ensures Valid()
    {
      BackfillVersions();
      BackfillArtifacts();
    }

    method BackfillVersions()
      requires versionBytes == (map v | v in tables.versions :: 0)
      modifies this`versionBytes
      ensures BytesShow(tables.versions, versionBytes, tables.files)
    {
      var todo := tables.versions.Keys;
      while todo != {}
        invariant todo <= tables.versions.Keys && versionBytes.Keys == tables.versions.Keys
        invariant forall v :: v in tables.versions ==> versionBytes[v] == if v in todo then 0 else VersionBytes(tables.files, v)
        decreases |todo|
      {
        var v :| v in todo;
        var group := AvailableSizes(tables.files, v);
        if group != map[] {
          var _, _, bytes := Aggregate(group);
          versionBytes := versionBytes[v := bytes];
        }
        todo := todo - {v};
      }
    }

    method BackfillArtifacts()
      requires versionBytes.Keys == tables.versions.Keys
      requires artifactStats == (map a | a in tables.artifacts :: Stats(0, 0, 0))
      modifies this`artifactStats
      ensures StatsShow(tables.artifacts, tables.versions, versionBytes, artifactStats, {})
    {
      var todo := tables.artifacts.Keys;
      NothingShown(tables.artifacts, tables.versions, versionBytes, artifactStats);
      hide StatsShow, StatsOf;
      while todo != {}
        invariant todo <= tables.artifacts.Keys
        invariant forall a :: a in todo ==> a in artifactStats && artifactStats[a] == Stats(0, 0, 0)
        invariant StatsShow(tables.artifacts, tables.versions, versionBytes, artifactStats, todo)
        decreases |todo|
      {
        var a :| a in todo;
        var group := BytesOfVersions(tables.versions, versionBytes, a);
        OneMoreShown(tables.artifacts, tables.versions, versionBytes, artifactStats, todo, a);
        if group != map[] {
          var count, largest, total := Aggregate(group);
          artifactStats := artifactStats[a := Stats(count, largest, total)];
        }
        todo := todo - {a};
      }
    }

    /** The database after other sessions were at work: their rows, and the columns their triggers left. */
    method Become(t: Tables, next: nat)
      requires t.Ok(next)
      modifies this`tables, this`versionBytes, this`artifactStats, this`nextId
      ensures Valid() && tables == t && nextId == next
    {
      tables, nextId := t, next;
      versionBytes, artifactStats := map v | v in t.versions :: 0, map a | a in t.artifacts :: Stats(0, 0, 0);
      Backfill();
    }

    // ---- file statements ----

    /** One file row inserted or updated, and the row trigger. */
    method PutFile(id: Id, row: FileRow)
      requires Reflect(tables.files, {})
      requires id in tables.files ==> tables.files[id].version == row.version
      modifies this`tables, this`versionBytes, this`artifactStats
      ensures tables == old(tables).PutFile(id, row)
      ensures Reflect(tables.files, {})
    {
      var was := Get(tables.files, id);
      ghost var shown := tables.files;
      SmallerTables(tables, tables.PutFile(id, row), versionBytes, artifactStats, shown, {});
      tables := tables.PutFile(id, row);
      FileSync(id, was, Some(row), shown, {});
    }

    /** CreateArtifactFile: a PENDING row with the placeholder path; None on a foreign key or unique violation. */
    method InsertFile(version: Id, name: string, created: int) returns (id: Option<Id>)
      requires Valid()
      modifies this`tables, this`versionBytes, this`artifactStats, this`nextId
      ensures Valid()
      ensures id == if old(tables).AcceptsFile(version, name) then Some(old(nextId)) else None
      ensures id.None? ==> tables == old(tables) && nextId == old(nextId)
      ensures id.Some? ==> nextId == old(nextId) + 1 && tables == old(tables).PutFile(id.value, NewFile(version, name, created))
      ensures id.Some? ==> tables == old(tables).(files := old(tables).files[id.value := FileRow(version, name, PENDING, None, "pending", created)])
      ensures id.Some? ==> id.value !in old(tables).files
    {
      hide Reflects;
      if !tables.AcceptsFile(version, name) {
        return None;
      }
      var row := NewFile(version, name, created);
      PutFileKeepsOk(tables, nextId, row, nextId);
      assert nextId !in tables.files;
      hide Tables.Ok;
      id := Some(nextId);
      nextId := nextId + 1;
      PutFile(id.value, row);
    }

    /** An UPDATE of path, size or status by id; no row, no effect. */
    method UpdateFile(id: Id, path: string, size: Option<int>, status: Status) returns (found: bool)
      requires Valid()
      modifies this`tables, this`versionBytes, this`artifactStats
      ensures Valid()
      ensures found <==> id in old(tables).files
      ensures tables == old(tables).SetFile(id, path, size, status)
    {
      hide Tables.Ok, Reflects;
      found := id in tables.files;
      if found {
        var row := tables.files[id].(path := path, size := size, status := status);
        PutFileKeepsOk(tables, id, row, nextId);
        PutFile(id, row);
      }
    }

    /** DELETE of any set of file rows: all rows go first, then the row triggers fire in any order. */
    method DeleteFiles(ids: set<Id>, ghost lag: set<Id>)
      requires Reflect(tables.files, lag)
      modifies this`tables, this`versionBytes, this`artifactStats
      ensures tables == old(tables).DropFiles(ids)
      ensures Reflect(tables.files, lag)
    {
      hide Reflects;
      var rows := tables.files;
      SmallerTables(tables, tables.DropFiles(ids), versionBytes, artifactStats, rows, lag);
      tables := tables.DropFiles(ids);
      FireFileDeletes(rows, ids, lag);
    }

    method FireFileDeletes(rows: FileRows, ids: set<Id>, ghost lag: set<Id>)
      requires Reflect(rows, lag)
      modifies this`versionBytes, this`artifactStats
      ensures Reflect(rows - ids, lag)
    {
      hide Reflects;
      var todo := ids * rows.Keys;
      RowsLeft(rows, ids, todo);
      while todo != {}
        invariant todo <= ids * rows.Keys
        invariant Reflect(rows - (ids - todo), lag)
        decreases |todo|
      {
        var f :| f in todo;
        RowsLeft(rows, ids, todo);
        FileSync(f, Some(rows[f]), None, rows - (ids - todo), lag);
        OneRowLess(rows, ids, todo, f);
        todo := todo - {f};
      }
      assert ids - {} == ids;
    }

    // ---- version statements ----

    method InsertVersion(artifact: Id, sv: Semver, created: int) returns (id: Option<Id>)
      requires Valid()
      modifies this`tables, this`versionBytes, this`artifactStats, this`nextId
      ensures Valid()
      ensures id == if old(tables).AcceptsVersion(artifact, sv) then Some(old(nextId)) else None
      ensures id.None? ==> tables == old(tables) && nextId == old(nextId)
      ensures id.Some? ==> nextId == old(nextId) + 1 && tables == old(tables).PutVersion(id.value, VersionRow(artifact, sv, created))
      ensures id.Some? ==> tables == old(tables).(versions := old(tables).versions[id.value := VersionRow(artifact, sv, created)])
    {
      hide Reflects;
      if !tables.AcceptsVersion(artifact, sv) {
        return None;
      }
      var v, row := nextId, VersionRow(artifact, sv, created);
      PutVersionKeepsOk(tables, row, nextId);
      VersionAdded(tables, versionBytes, artifactStats, v, row);
      assert {} + {artifact} == {artifact};
      tables, versionBytes, nextId := tables.PutVersion(v, row), versionBytes[v := 0], nextId + 1;
      VersionSync(artifact, tables.files, {});
      id := Some(v);
    }

    /** DELETE of any set of version rows. For each row the cascade and the statistics trigger fire in the order `cascadeFirst` picks. */
    method DeleteVersions(ids: set<Id>, cascadeFirst: Id -> bool)
      requires Reflect(tables.files, {}) && tables.ChildrenHaveVersions()
      modifies this`tables, this`versionBytes, this`artifactStats
      ensures tables == old(tables).DropVersions(ids)
      ensures Reflect(tables.files, {})
    {
      var rows := tables.versions;
      var gone := ids * rows.Keys;
      DropChildrenIsDropVersions(tables, ids);
      VersionsDropped(tables, versionBytes, artifactStats, gone);
      tables, versionBytes := tables.(versions := rows - gone), versionBytes - gone;
      FireVersionDeletes(gone, rows, cascadeFirst);
    }

    method FireVersionDeletes(gone: set<Id>, rows: VersionRows, cascadeFirst: Id -> bool)
      requires gone <= rows.Keys && Reflect(tables.files, ArtifactsOf(rows, gone))
      modifies this`tables, this`versionBytes, this`artifactStats
      ensures tables == old(tables).DropChildren(gone)
      ensures Reflect(tables.files, {})
    {
      var todo := gone;
      while todo != {}
        invariant todo <= gone
        invariant Reflect(tables.files, ArtifactsOf(rows, todo))
        invariant tables == old(tables).DropChildren(gone - todo)
        decreases |todo|
      {
        var v :| v in todo;
        DropChildrenStep(old(tables), gone - todo, v);
        assert gone - (todo - {v}) == gone - todo + {v};
        OneVersionLess(rows, todo, v);
        todo := todo - {v};
        CascadeAndSync(v, rows[v].artifact, cascadeFirst(v), ArtifactsOf(rows, todo));
      }
      assert ArtifactsOf(rows, {}) == {} && gone - {} == gone;
    }

    /** What one deleted version row sets off: its files and tags go, its artifact is recomputed, in either order. */
    method CascadeAndSync(v: Id, a: Id, cascadeFirst: bool, ghost lag: set<Id>)
      requires Reflect(tables.files, lag + {a})
      modifies this`tables, this`versionBytes, this`artifactStats
      ensures tables == old(tables).DropChildren({v})
      ensures Reflect(tables.files, lag)
    {
      if cascadeFirst {
        DeleteFiles(tables.FilesOf(v), lag + {a});
        VersionSync(a, tables.files, lag);
      } else {
        VersionSync(a, tables.files, lag);
        DeleteFiles(tables.FilesOf(v), lag);
      }
      SmallerTables(tables, tables.DropTags({v}), versionBytes, artifactStats, tables.files, lag);
      tables := tables.DropTags({v});
    }

    /** DELETE of any set of artifact rows, with every cascade. */
    method DeleteArtifacts(ids: set<Id>, cascadeFirst: Id -> bool)
      requires Valid()
      modifies this`tables, this`versionBytes, this`artifactStats
      ensures Valid()
      ensures tables == old(tables).DropArtifacts(ids)
    {
      DropArtifactsKeepsOk(tables, ids, nextId);
      ArtifactsDropped(tables, versionBytes, artifactStats, ids);
      var theirs := tables.VersionsOf(ids);
      tables, artifactStats := tables.(artifacts := tables.artifacts - ids), artifactStats - ids;
      DeleteVersions(theirs, cascadeFirst);
      SmallerTables(tables, tables.DropArtifactChildren(ids), versionBytes, artifactStats, tables.files, {});
      tables := tables.DropArtifactChildren(ids);
    }

    // ---- the same statements between whole states ----

    method RemoveFiles(ids: set<Id>)
      requires Valid()
      modifies this`tables, this`versionBytes, this`artifactStats
      ensures Valid() && tables == old(tables).DropFiles(ids)
    {
      DropFilesKeepsOk(tables, ids, nextId);
      hide Tables.Ok, Reflects;
      DeleteFiles(ids, {});
    }

    method RemoveVersions(ids: set<Id>, cascadeFirst: Id -> bool)
      requires Valid()
      modifies this`tables, this`versionBytes, this`artifactStats
      ensures Valid() && tables == old(tables).DropVersions(ids)
    {
      DropVersionsKeepsOk(tables, ids, nextId);
      hide Reflects, Tables.ChildrenHaveArtifacts, Tables.Unique, Tables.TagsAtHome, Tables.IdsBelow;
      DeleteVersions(ids, cascadeFirst);
    }

    /** DeleteUnprotectedVersionsByIDs: protection is looked at again, by the statement that deletes. */
    method DeleteUnprotectedVersionsByIDs(ids: set<Id>, protectedTag: string, cascadeFirst: Id -> bool) returns (deleted: set<Id>)
      requires Valid()
      modifies this`tables, this`versionBytes, this`artifactStats
      ensures Valid() && tables == old(tables).DropVersions(deleted)
      ensures deleted == set v | v in ids && v in old(tables).versions && !old(tables).Protected(v, protectedTag)
      ensures forall v :: v in deleted <==>
                && v in ids && v in old(tables).versions
                && (forall k :: k in old(tables).tags ==> old(tables).tags[k] != v) && (old(tables).versions[v].artifact, protectedTag) !in old(tables).tags
    {
      hide Tables.Ok, Reflects, Tables.DropVersions;
      deleted := set v | v in ids && v in tables.versions && !tables.Protected(v, protectedTag);
      RemoveVersions(deleted, cascadeFirst);
    }

    // ---- reads ----

    /** GetArtifactVersion */
    method FindVersion(artifact: Id, sv: Semver) returns (v: Option<Id>)
      ensures v.Some? ==> v.value in tables.versions && tables.versions[v.value].artifact == artifact && tables.versions[v.value].sv == sv
      ensures v.None? ==> forall w :: w in tables.versions ==> tables.versions[w].artifact != artifact || tables.versions[w].sv != sv
    {
      if w :| w in tables.versions && tables.versions[w].artifact == artifact && tables.versions[w].sv == sv {
        return Some(w);
      }
      v := None;
    }

    // ---- the other tables: no statistics depend on them ----

    /** GetRegistryArtifactByName */
    method FindArtifact(name: string) returns (a: Option<Id>)
      ensures a.Some? ==> a.value in tables.artifacts && tables.artifacts[a.value].name == name
      ensures a.None? <==> tables.AcceptsArtifact(name)
    {
      if b :| b in tables.artifacts && tables.artifacts[b].name == name {
        return Some(b);
      }
      a := None;
    }

    /** CreateRegistryArtifact; None on a unique violation. */
    method InsertArtifact(name: string, created: int) returns (id: Option<Id>)
      requires Valid()
      modifies this`tables, this`versionBytes, this`artifactStats, this`nextId
      ensures Valid()
      ensures id == if old(tables).AcceptsArtifact(name) then Some(old(nextId)) else None
      ensures id.None? ==> tables == old(tables) && nextId == old(nextId)
      ensures id.Some? ==> nextId == old(nextId) + 1 && tables == old(tables).PutArtifact(id.value, ArtifactRow(name, created))
      ensures id.Some? ==> tables == old(tables).(artifacts := old(tables).artifacts[id.value := ArtifactRow(name, created)])
    {
      if !tables.AcceptsArtifact(name) {
        return None;
      }
      var a, row := nextId, ArtifactRow(name, created);
      PutArtifactKeepsOk(tables, row, nextId);
      ArtifactAdded(tables, versionBytes, artifactStats, a, row);
      tables := tables.PutArtifact(a, row);
      artifactStats, nextId := artifactStats[a := Stats(0, 0, 0)], nextId + 1;
      id := Some(a);
    }

    /** UpsertArtifactTag; both handlers that call it pass a version they looked up under the same artifact. */
    method UpsertTag(artifact: Id, tag: string, version: Id) returns (ok: bool)
      requires Valid()
      requires version in tables.versions ==> tables.versions[version].artifact == artifact
      modifies this`tables
      ensures Valid()
      ensures ok <==> version in old(tables).versions
      ensures tables == old(tables).PutTag(artifact, tag, version)
      ensures ok ==> tables == old(tables).(tags := old(tables).tags[(artifact, tag) := version])
    {
      hide Tables.Ok, Reflects;
      ok := version in tables.versions;
      PutTagKeepsOk(tables, artifact, tag, version, nextId);
      SmallerTables(tables, tables.PutTag(artifact, tag, version), versionBytes, artifactStats, tables.files, {});
      tables := tables.PutTag(artifact, tag, version);
    }

    method DeleteTag(artifact: Id, tag: string)
      requires Valid()
      modifies this`tables
      ensures Valid()
      ensures tables == old(tables).DropTag(artifact, tag)
      ensures tables == old(tables).(tags := old(tables).tags - {(artifact, tag)})
    {
      DropTagKeepsOk(tables, artifact, tag, nextId);
      SmallerTables(tables, tables.DropTag(artifact, tag), versionBytes, artifactStats, tables.files, {});
      tables := tables.DropTag(artifact, tag);
    }

    /** ROLLBACK to what the transaction started from; sequences are not rolled back. */
    method Rollback(t: Tables, bytes: map<Id, int>, stats: map<Id, Stats>)
      requires t.Ok(nextId) && Reflects(t, bytes, stats, t.files, {})
      modifies this`tables, this`versionBytes, this`artifactStats
      ensures Valid() && tables == t
    {
      tables, versionBytes, artifactStats := t, bytes, stats;
    }

    method DeleteTypes(ids: set<Id>)
      requires Valid()
      modifies this`tables
      ensures Valid()
      ensures tables == old(tables).DropTypes(ids)
    {
      DropTypesKeepsOk(tables, ids, nextId);
      SmallerTables(tables, tables.DropTypes(ids), versionBytes, artifactStats, tables.files, {});
      tables := tables.DropTypes(ids);
    }
  }
}
