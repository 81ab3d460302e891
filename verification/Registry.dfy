/** The handlers that change rows and objects together, run one after the other. */
module Registry {
  import opened Wrappers
  import opened SemVer
  import opened Schema
  import opened Statistics
  import opened StoragePaths
  import opened StoredObjects
  import opened Cleanup
  import opened VersionQuery
  import opened FilterParams
  import opened BulkResponse
  import opened BulkDelete
  import Database
  import opened Storage
  import opened RegistryFacts

  datatype Reply<+T> = Done(value: T) | BadRequest | NotFound | Conflict | Failed

  /** The answer of an admin cleanup. */
  datatype Cleaned = Cleaned(deleted: nat, skipped: int)

  /** What clients ask for. */
  datatype Request =
    | Uploading(artifact: Id, sv: Semver, name: string, data: Bytes, created: int)
    | Downloading(artifact: Id, sv: Semver, f: Id)
    | DeletingFile(artifact: Id, sv: Semver, f: Id)
    | DeletingVersion(artifact: Id, sv: Semver)
    | DeletingArtifact(artifact: Id)
    | BulkDeleting(query: Query, scope: Option<Id>, dryRun: bool)
    | CreatingArtifact(name: string, created: int)
    | CreatingVersion(artifact: Id, text: string, names: seq<string>, created: int)
    | PuttingTag(artifact: Id, tag: string, text: string)
    | DeletingTag(artifact: Id, tag: string)
    | CleaningFiles(cutoff: int)
    | CleaningVersions(cutoff: int)
    | CleaningArtifacts(cutoff: int)
    | CleaningEmptyArtifacts(cutoff: int)
    | CleaningTypes(cutoff: int)
  {
    /** The deletes that remove the object before the row. */
    predicate ObjectsFirst() {
      DeletingFile? || DeletingVersion?
    }
  }

  class Registry {
    const db: Database.Database
    const store: ObjectStore
    const protectedTag: string
    const filtered: FilteredVersions
    /** The rows objects-first deletes have listed whose own statement then failed. */
    ghost var erased: set<Id>
    /** The keys of objects no delete was asked for, because their rows could not be listed. */
    ghost var unlisted: set<string>

    constructor (protectedTag: string, prefix: string, outages: nat -> bool, faults: Faults)
      ensures Valid() && fresh(db) && fresh(store)
      ensures db.outages == outages && store.faults == faults && store.bucket.prefix == prefix
    {
      this.protectedTag := protectedTag;
      var d := new Database.Database(outages);
      var o := new ObjectStore(prefix, faults);
      db, store := d, o;
      filtered := new FilteredVersions(d, o, protectedTag);
      erased, unlisted := {}, {};
    }

    /** The database is consistent and every AVAILABLE row has its canonical path. */
    ghost predicate Sane()
      reads this, db, store
    {
      && db.Valid() && store.Valid() && Filed(db.tables, store.bucket.prefix)
      && filtered.db == db && filtered.store == store && filtered.protectedTag == protectedTag
    }

    /** Objects no row accounts for. */
    ghost function Leaked(): set<string>
      requires Sane()
      reads this, db, store
    {
      Leaks(db.tables, store.bucket)
    }

    /** AVAILABLE rows whose object is not the uploaded bytes. */
    ghost function Missing(): set<Id>
      requires Sane()
      reads this, db, store
    {
      Broken(db.tables, store.bucket, store.uploaded)
    }

    /** Nothing leaks but what a storage call failed to delete or a failed listing kept from being asked for,
        and no row misses its object but those of objects-first deletes whose statement failed. */
    ghost predicate Bounded()
      requires Sane()
      reads this, db, store
    {
      && Leaked() <= store.failedDeletes + unlisted
      && Missing() <= erased
    }

    /** Both exceptions need a statement that failed. */
    ghost predicate Excused()
      reads this, db
    {
      erased != {} || unlisted != {} ==> SomeOutage(db.outages, db.statements)
    }

    ghost predicate Valid()
      reads this, db, store
    {
      Sane() && Bounded() && Excused()
    }

    /** While no storage call and no statement has failed, every object is that of exactly one live row, and every AVAILABLE row has its own. */
    lemma WithoutFailuresNothingLeaks()
      requires Valid()
      requires forall i :: 0 <= i < store.calls ==> store.faults(i) == Fine
      requires forall i :: 0 <= i < db.statements ==> !db.outages(i)
      ensures Leaked() == {} && Missing() == {}
      ensures forall key :: key in store.bucket.objects ==>
                exists f :: f in db.tables.files && KeyOf(db.tables, store.bucket.prefix, f) == key
                  && forall g :: g in db.tables.files && KeyOf(db.tables, store.bucket.prefix, g) == key ==> g == f
    {
      assert AllPlaced(db.tables);
      hide Tables.Ok, Reflects, Filed, Leaks, Broken, KeyOf;
      forall key | key in store.bucket.objects
        ensures exists f :: f in db.tables.files && KeyOf(db.tables, store.bucket.prefix, f) == key
                  && forall g :: g in db.tables.files && KeyOf(db.tables, store.bucket.prefix, g) == key ==> g == f
      {
        EveryObjectHasOneRow(db.tables, store.bucket, key);
      }
    }

    ghost function Now(): Snapshot
      reads this, db, store
    {
      Snapshot(World(db.tables, db.nextId, store.bucket, store.uploaded, store.calls, store.failedDeletes), db.statements, erased, unlisted)
    }

    lemma NowIsGood()
      requires Valid()
      ensures Good(Now().w) && AllPlaced(db.tables) && UniqueVersions(db.tables.versions)
    {
      hide Reflects, PlainNames, ObjectStore.Valid, Leaks, Broken;
      CanonicalIsPlaced(db.tables);
      OkParts(db.tables, db.nextId);
    }

    // ---- uploads ----

    /** File f is AVAILABLE under these coordinates, and its object is `data`. */
    ghost predicate Uploaded(f: Id, artifact: Id, sv: Semver, name: string, data: Bytes)
      requires Sane()
      reads this, db, store
    {
      && Placed(db.tables, f) && RefOf(db.tables, f).artifact == artifact && RefOf(db.tables, f).sv == sv
      && db.tables.files[f].name == name && db.tables.files[f].status == AVAILABLE
      && f !in Missing() && f in store.uploaded && store.uploaded[f] == data
    }

    /** The storage call of an upload. */
    function Written(s: Snapshot, f: Id, path: string, data: Bytes): Snapshot {
      s.(w := s.w.(bucket := AfterStore(s.w.bucket, path, data, store.faults(s.w.calls)), uploaded := s.w.uploaded[f := data], calls := s.w.calls + 1))
    }

    /** The row marked ERROR, unless that fails. */
    function MarkedError(s: Snapshot, f: Id): Snapshot
      requires f in s.w.t.files
    {
      var row := s.w.t.files[f];
      s.(w := s.w.(t := if db.outages(s.statements) then s.w.t else s.w.t.SetFile(f, row.path, row.size, ERROR)), statements := s.statements + 1)
    }

    /** The row marked ERROR, and the object asked to be removed. */
    function TakenBack(s: Snapshot, f: Id, path: string): Snapshot
      requires f in s.w.t.files
    {
      var fault := store.faults(s.w.calls);
      var marked := MarkedError(s, f);
      marked.(w := marked.w.(bucket := AfterDelete(s.w.bucket, path, fault), calls := s.w.calls + 1,
                             failed := s.w.failed + if fault == Fine then {} else {Key(s.w.bucket.prefix, path)}))
    }

    /** The row made AVAILABLE, or the upload taken back. */
    function Finalized(s: Snapshot, f: Id, path: string, data: Bytes): Snapshot
      requires f in s.w.t.files
    {
      if db.outages(s.statements) then TakenBack(s.(statements := s.statements + 1), f, path)
      else s.(w := s.w.(t := s.w.t.SetFile(f, path, Some(|data|), AVAILABLE)), statements := s.statements + 1)
    }

    /** Store and finalize; after a failed storage call only the row is marked. */
    function Stored(s: Snapshot, f: Id, path: string, data: Bytes): Snapshot
      requires f in s.w.t.files
    {
      if store.faults(s.w.calls) == Fine then Finalized(Written(s, f, path, data), f, path, data)
      else MarkedError(Written(s, f, path, data), f)
    }

    /** The PENDING row inserted. */
    function Pending(s: Snapshot, v: Id, name: string, created: int): Snapshot {
      s.(w := s.w.(t := s.w.t.PutFile(s.w.next, NewFile(v, name, created)), next := s.w.next + 1), statements := s.statements + 1)
    }

    /** The PENDING row inserted, unless that fails or is refused, and the rest of the upload. */
    function UploadedTo(s: Snapshot, v: Id, name: string, data: Bytes, created: int): Snapshot
      requires v in s.w.t.versions
    {
      if db.outages(s.statements) || !s.w.t.AcceptsFile(v, name) then s.(statements := s.statements + 1)
      else
        var row := s.w.t.versions[v];
        Stored(Pending(s, v, name, created), s.w.next, FileStoragePath(row.artifact, row.sv, s.w.next, name), data)
    }

    ghost function AfterUpload(s: Snapshot, artifact: Id, sv: Semver, name: string, data: Bytes, created: int): Snapshot {
      match Found(s.w.t, artifact, sv)
      case None => s
      case Some(v) => UploadedTo(s, v, name, data, created)
    }

    lemma StoreTouchesOneFile(s: Snapshot, f: Id, path: string, data: Bytes)
      requires f in s.w.t.files
      ensures var u := Stored(s, f, path, data);
              && OnlyFileTouched(s, u, f, path) && s.statements <= u.statements && u.w.next == s.w.next
              && f in u.w.t.files && u.w.t == s.w.t.PutFile(f, u.w.t.files[f])
    {
      StoreTouchesOneObject(s, f, path, data);
      StoredLeaves(s, f, path, data);
      hide Stored, Key, Bucket.DiffersAt;
    }

    lemma StoreTouchesOneObject(s: Snapshot, f: Id, path: string, data: Bytes)
      requires f in s.w.t.files
      ensures var u, key := Stored(s, f, path, data), Key(s.w.bucket.prefix, path);
              && u.w.bucket.DiffersAt(s.w.bucket, key) && u.w.uploaded - {f} == s.w.uploaded - {f}
              && s.w.failed <= u.w.failed <= s.w.failed + {key}
              && u.erased == s.erased && u.unlisted == s.unlisted && s.statements <= u.statements && u.w.next == s.w.next
    {
      hide Key, AfterStore, AfterDelete, Bucket.DiffersAt, Tables.SetFile;
      var fault := store.faults(s.w.calls);
      StoreDiffersAt(s.w.bucket, path, data, fault);
      DeleteDiffersAt(AfterStore(s.w.bucket, path, data, fault), path, store.faults(s.w.calls + 1));
      DiffersAtTwice(s.w.bucket, AfterStore(s.w.bucket, path, data, fault),
                     AfterDelete(AfterStore(s.w.bucket, path, data, fault), path, store.faults(s.w.calls + 1)), Key(s.w.bucket.prefix, path));
    }

    lemma UploadTouchesOneFile(s: Snapshot, artifact: Id, sv: Semver, name: string, data: Bytes, created: int)
      ensures var u, path := AfterUpload(s, artifact, sv, name, data, created), FileStoragePath(artifact, sv, s.w.next, name);
              OnlyFileTouched(s, u, s.w.next, path) && s.w.next <= u.w.next
    {
      hide Key, FileStoragePath, Stored;
      match Found(s.w.t, artifact, sv) {
        case None =>
        case Some(v) =>
          StoreTouchesOneFile(Pending(s, v, name, created), s.w.next, FileStoragePath(artifact, sv, s.w.next, name), data);
      }
    }

    lemma StoredLeaves(s: Snapshot, f: Id, path: string, data: Bytes)
      requires f in s.w.t.files
      ensures var u, row, written := Stored(s, f, path, data), s.w.t.files[f], store.faults(s.w.calls) == Fine;
              && f in u.w.t.files && u.w.t == s.w.t.(files := s.w.t.files[f := u.w.t.files[f]])
              && u.w.t.files[f] == (
                if written && !db.outages(s.statements) then row.(status := AVAILABLE, size := Some(|data|), path := path)
                else if db.outages(s.statements + if written then 1 else 0) then row
                else row.(status := ERROR))
              && (written && !db.outages(s.statements) ==>
                    u.w.bucket == s.w.bucket.(objects := s.w.bucket.objects[Key(s.w.bucket.prefix, path) := data]))
              && (written && db.outages(s.statements) && store.faults(s.w.calls + 1) == Fine ==>
                    u.w.bucket == s.w.bucket.(objects := s.w.bucket.objects - {Key(s.w.bucket.prefix, path)}))
    {
      hide Key;
      assert s.w.t.files[f := s.w.t.files[f]] == s.w.t.files;
      var key := Key(s.w.bucket.prefix, path);
      assert s.w.bucket.objects[key := data] - {key} == s.w.bucket.objects - {key};
    }

    /** The row an accepted upload leaves, dated as asked: AVAILABLE with its size and path if storage call and statement went well, and otherwise
        without them, ERROR or, if that could not be written either, PENDING. */
    lemma UploadLeaves(s: Snapshot, v: Id, name: string, data: Bytes, created: int)
      requires v in s.w.t.versions && !db.outages(s.statements)
      requires forall f :: f in s.w.t.files ==> s.w.t.files[f].version != v || s.w.t.files[f].name != name
      ensures var u, f, row := UploadedTo(s, v, name, data, created), s.w.next, s.w.t.versions[v];
              var path, written := FileStoragePath(row.artifact, row.sv, f, name), store.faults(s.w.calls) == Fine;
              && f in u.w.t.files && u.w.t == s.w.t.(files := s.w.t.files[f := u.w.t.files[f]])
              && u.w.t.files[f] == (
                if written && !db.outages(s.statements + 1) then FileRow(v, name, AVAILABLE, Some(|data|), path, created)
                else if db.outages(s.statements + if written then 2 else 1) then FileRow(v, name, PENDING, None, "pending", created)
                else FileRow(v, name, ERROR, None, "pending", created))
              && (written && !db.outages(s.statements + 1) ==>
                    u.w.bucket == s.w.bucket.(objects := s.w.bucket.objects[Key(s.w.bucket.prefix, path) := data]))
              && (written && db.outages(s.statements + 1) && store.faults(s.w.calls + 1) == Fine ==>
                    u.w.bucket == s.w.bucket.(objects := s.w.bucket.objects - {Key(s.w.bucket.prefix, path)}))
    {
      hide FileStoragePath, Key, Stored;
      var row := s.w.t.versions[v];
      StoredLeaves(Pending(s, v, name, created), s.w.next, FileStoragePath(row.artifact, row.sv, s.w.next, name), data);
    }

    lemma FoundUploadLeaves(s: Snapshot, artifact: Id, sv: Semver, v: Id, name: string, data: Bytes, created: int)
      requires Found(s.w.t, artifact, sv) == Some(v) && !db.outages(s.statements) && s.w.t.AcceptsFile(v, name)
      ensures var u, f := AfterUpload(s, artifact, sv, name, data, created), s.w.next;
              var written := store.faults(s.w.calls) == Fine;
              && f in u.w.t.files
              && u.w.t.files[f] ==
                 (if written && !db.outages(s.statements + 1) then FileRow(v, name, AVAILABLE, Some(|data|), FileStoragePath(artifact, sv, f, name), created)
                  else if db.outages(s.statements + if written then 2 else 1) then FileRow(v, name, PENDING, None, "pending", created)
                  else FileRow(v, name, ERROR, None, "pending", created))
    {
      UploadLeaves(s, v, name, data, created);
      hide UploadedTo, FileStoragePath, Key;
    }

    /** Upload: a PENDING row, then the object, then AVAILABLE; a failure on the way leaves PENDING or ERROR. */
    method Upload(artifact: Id, sv: Semver, name: string, data: Bytes, created: int) returns (r: Reply<Id>)
      requires Valid() && Plain(store.bucket.prefix, name)
      modifies db, store
      ensures Valid() && Now() == AfterUpload(old(Now()), artifact, sv, name, data, created) && old(db.statements) <= db.statements
      ensures r.NotFound? <==> Found(old(db.tables), artifact, sv).None?
      ensures r.Conflict? <==>
                && Found(old(db.tables), artifact, sv).Some? && !db.outages(old(db.statements))
                && !old(db.tables).AcceptsFile(Found(old(db.tables), artifact, sv).value, name)
      ensures r.Done? <==>
                && Found(old(db.tables), artifact, sv).Some? && !db.outages(old(db.statements))
                && old(db.tables).AcceptsFile(Found(old(db.tables), artifact, sv).value, name)
                && store.faults(old(store.calls)) == Fine && !db.outages(old(db.statements) + 1)
      ensures r.Done? ==> r.value == old(db.nextId) && Uploaded(r.value, artifact, sv, name, data)
      ensures r.Done? || r.Failed? || r.NotFound? || r.Conflict?
      ensures r.Done? ==>
                && Found(old(db.tables), artifact, sv).Some? && r.value in db.tables.files
                && db.tables.files[r.value] == FileRow(Found(old(db.tables), artifact, sv).value, name, AVAILABLE, Some(|data|),
                                                       FileStoragePath(artifact, sv, r.value, name), created)
      ensures r.Failed? && !db.outages(old(db.statements)) ==>
                && Found(old(db.tables), artifact, sv).Some? && old(db.nextId) in db.tables.files
                && var marking := old(db.statements) + if store.faults(old(store.calls)) == Fine then 2 else 1;
                   db.tables.files[old(db.nextId)] == FileRow(Found(old(db.tables), artifact, sv).value, name,
                                                              if db.outages(marking) then PENDING else ERROR, None, "pending", created)
      ensures OnlyFileTouched(old(Now()), Now(), old(db.nextId), FileStoragePath(artifact, sv, old(db.nextId), name))
    {
      hide Tables.Ok, Reflects, Filed, Leaks, Broken, FileStoragePath, Key, Plain, ObjectStore.Valid, Good, UploadedTo, Tables.AcceptsFile,
           Uploaded, Found, AllPlaced, UniqueVersions, Valid;
      NowIsGood();
      UploadTouchesOneFile(Now(), artifact, sv, name, data, created);
      hide OnlyFileTouched;
      var v := db.FindVersion(artifact, sv);
      FoundIs(db.tables, artifact, sv, v);
      if v.None? {
        return NotFound;
      }
      ghost var row := db.tables.versions[v.value];
      assert row.artifact == artifact && row.sv == sv;
      if !db.outages(db.statements) && db.tables.AcceptsFile(v.value, name) {
        FoundUploadLeaves(Now(), artifact, sv, v.value, name, data, created);
      }
      hide AfterUpload;
      r := UploadTo(v.value, name, data, created);
    }

    method UploadTo(v: Id, name: string, data: Bytes, created: int) returns (r: Reply<Id>)
      requires Valid() && Plain(store.bucket.prefix, name) && v in db.tables.versions
      modifies db, store
      ensures Valid() && Now() == UploadedTo(old(Now()), v, name, data, created) && old(db.statements) <= db.statements
      ensures r.Done? || r.Failed? || r.Conflict?
      ensures r.Conflict? <==> !db.outages(old(db.statements)) && !old(db.tables).AcceptsFile(v, name)
      ensures r.Done? <==>
                && !db.outages(old(db.statements)) && old(db.tables).AcceptsFile(v, name)
                && store.faults(old(store.calls)) == Fine && !db.outages(old(db.statements) + 1)
      ensures var row := old(db.tables.versions[v]);
              r.Done? ==> r.value == old(db.nextId) && Uploaded(r.value, row.artifact, row.sv, name, data)
    {
      hide Tables.Ok, Reflects, Filed, Leaks, Broken, FileStoragePath, Key, Plain, ObjectStore.Valid, Tables.AcceptsFile, Stored,
           PathOf;
      ghost var t := db.tables;
      var row := db.tables.versions[v];
      var id, down := InsertPending(v, name, created);
      if id.None? {
        return if down then Failed else Conflict;
      }
      ghost var pending := db.tables;
      r := StoreFile(id.value, FileStoragePath(row.artifact, row.sv, id.value, name), data);
      NewRowSettled(t, pending, db.tables, id.value, row, v, name, r.Done?);
    }

    /** CreateArtifactFile */
    method InsertPending(v: Id, name: string, created: int) returns (id: Option<Id>, down: bool)
      requires Valid() && Plain(store.bucket.prefix, name) && v in db.tables.versions
      modifies db
      ensures Valid() && down == db.outages(old(db.statements))
      ensures id == if down || !old(db.tables).AcceptsFile(v, name) then None else Some(old(db.nextId))
      ensures Now() == if id.None? then old(Now()).(statements := old(db.statements) + 1) else Pending(old(Now()), v, name, created)
      ensures id.Some? ==>
                && db.tables == old(db.tables).PutFile(id.value, NewFile(v, name, created)) && id.value !in old(db.tables).files
                && Placed(db.tables, id.value)
                && PathOf(db.tables, id.value) == FileStoragePath(old(db.tables.versions[v].artifact), old(db.tables.versions[v].sv), id.value, name)
    {
      hide Tables.Ok, Reflects, Filed, Leaks, Broken, FileStoragePath, Key, Plain, ObjectStore.Valid, Tables.AcceptsFile;
      ghost var t := db.tables;
      id := None;
      down := db.Down();
      StillExcused(erased, unlisted, db.outages, old(db.statements), db.statements);
      if !down {
        id := db.InsertFile(v, name, created);
        if id.Some? {
          NewRow(t, id.value, v, name, created, store.bucket, store.uploaded);
        }
      }
    }

    /** Store and finalize. On a failure the row is marked ERROR, unless that fails too, and a written object is asked to be removed. */
    method StoreFile(f: Id, path: string, data: Bytes) returns (r: Reply<Id>)
      requires Valid() && f in db.tables.files && db.tables.files[f].status != AVAILABLE && path == PathOf(db.tables, f)
      modifies db`tables, db`versionBytes, db`artifactStats, db`statements, store
      ensures Valid() && Now() == Stored(old(Now()), f, path, data) && old(db.statements) <= db.statements
      ensures r == if store.faults(old(store.calls)) == Fine && !db.outages(old(db.statements)) then Done(f) else Failed
      ensures RowSettled(old(db.tables), db.tables, f, r.Done?)
      ensures r.Done? ==> f !in Missing() && f in store.uploaded && store.uploaded[f] == data
    {
      hide Tables.Ok, Reflects, Filed, Leaks, Broken, FileStoragePath, Key, Plain, ObjectStore.Valid, AfterStore, AfterDelete, Bucket.Put, CanonicalPath,
           Tables.SetFile, RowSettled, Finalized, MarkedError;
      FiledIsPlaced(db.tables, store.bucket.prefix, f);
      hide Valid, Placed;
      StoreTouchesOneFile(Now(), f, path, data);
      var stored := WriteObject(f, path, data);
      assert Now() == Written(old(Now()), f, path, data);
      if stored {
        r := Finalize(f, path, data);
      } else {
        GiveUp(f);
        r := Failed;
      }
    }

    /** The storage call of an upload. */
    method WriteObject(f: Id, path: string, data: Bytes) returns (stored: bool)
      requires Valid() && f in db.tables.files && db.tables.files[f].status != AVAILABLE && path == PathOf(db.tables, f)
      modifies store`bucket, store`calls, store`uploaded
      ensures Valid() && Now() == Written(old(Now()), f, path, data) && f !in Missing()
      ensures stored <==> store.faults(old(store.calls)) == Fine
      ensures stored ==> var key := Key(store.bucket.prefix, path); key in store.bucket.objects && store.bucket.objects[key] == data
    {
      hide Tables.Ok, Reflects, Filed, Leaks, Broken, FileStoragePath, Key, Plain, ObjectStore.Valid, AfterStore, Bucket.Put, CanonicalPath;
      FiledIsPlaced(db.tables, store.bucket.prefix, f);
      stored := store.Store(path, data);
      store.uploaded := store.uploaded[f := data];
      StoreDiffersAt(old(store.bucket), path, data, store.faults(old(store.calls)));
      ObjectWritten(db.tables, old(store.bucket), store.bucket, f, old(store.uploaded), data);
      IncompleteIsNotMissing(db.tables, f, store.bucket, store.uploaded);
    }

    /** The second half of an upload whose object is stored. */
    method Finalize(f: Id, path: string, data: Bytes) returns (r: Reply<Id>)
      requires Valid() && f in db.tables.files && db.tables.files[f].status != AVAILABLE && path == PathOf(db.tables, f)
      requires f in store.uploaded && store.uploaded[f] == data
      requires var key := Key(store.bucket.prefix, path); key in store.bucket.objects && store.bucket.objects[key] == data
      modifies db`tables, db`versionBytes, db`artifactStats, db`statements, store`bucket, store`calls, store`failedDeletes
      ensures Valid() && Now() == Finalized(old(Now()), f, path, data) && RowSettled(old(db.tables), db.tables, f, r.Done?)
      ensures r == if db.outages(old(db.statements)) then Failed else Done(f)
      ensures r.Done? ==> f !in Missing()
    {
      hide Tables.Ok, Reflects, Filed, Leaks, Broken, FileStoragePath, Key, Plain, ObjectStore.Valid, TakenBack;
      ghost var prefix := store.bucket.prefix;
      FiledIsPlaced(db.tables, prefix, f);
      IncompleteIsNotMissing(db.tables, f, store.bucket, store.uploaded);
      var down := db.Down();
      StillExcused(erased, unlisted, db.outages, old(db.statements), db.statements);
      if down {
        TakeBack(f, path, data);
        return Failed;
      }
      var row := db.tables.files[f].(path := path, size := Some(|data|), status := AVAILABLE);
      RowPut(db.tables, f, row, store.bucket, store.uploaded);
      var _ := db.UpdateFile(f, path, Some(|data|), AVAILABLE);
      r := Done(f);
    }

    /** After a failed statement the object is there to take back. */
    method TakeBack(f: Id, path: string, data: Bytes)
      requires Valid() && f in db.tables.files && db.tables.files[f].status != AVAILABLE && path == PathOf(db.tables, f)
      requires f in store.uploaded && store.uploaded[f] == data
      modifies db`tables, db`versionBytes, db`artifactStats, db`statements, store`bucket, store`calls, store`failedDeletes
      ensures Valid() && Now() == TakenBack(old(Now()), f, path) && RowSettled(old(db.tables), db.tables, f, false)
    {
      hide Tables.Ok, Reflects, Filed, Leaks, Broken, FileStoragePath, Key, Plain, ObjectStore.Valid, CanonicalPath, AfterDelete,
           Tables.SetFile;
      MarkError(f);
      ghost var written := store.bucket;
      FiledIsPlaced(db.tables, written.prefix, f);
      var _ := store.Delete(path);
      DeleteDiffersAt(written, path, store.faults(old(store.calls)));
      ObjectWritten(db.tables, written, store.bucket, f, store.uploaded, data);
      assert store.uploaded[f := data] == store.uploaded;
    }

    /** After a failed storage call the row is all there is to do. */
    method GiveUp(f: Id)
      requires Valid() && f in db.tables.files && db.tables.files[f].status != AVAILABLE
      modifies db`tables, db`versionBytes, db`artifactStats, db`statements
      ensures Valid() && Now() == MarkedError(old(Now()), f) && RowSettled(old(db.tables), db.tables, f, false)
    {
      hide Tables.Ok, Reflects, Filed, Leaks, Broken, ObjectStore.Valid, RowSettled, Tables.SetFile;
      MarkError(f);
    }

    /** UpdateArtifactFileStatus to ERROR, its own failure ignored. */
    method MarkError(f: Id)
      requires Sane() && f in db.tables.files && db.tables.files[f].status != AVAILABLE && Excused()
      modifies db`tables, db`versionBytes, db`artifactStats, db`statements
      ensures Sane() && Excused() && Now() == MarkedError(old(Now()), f)
      ensures RowSettled(old(db.tables), db.tables, f, false)
      ensures Placed(db.tables, f) && old(Placed(db.tables, f)) && PathOf(db.tables, f) == old(PathOf(db.tables, f))
      ensures Leaked() <= old(Leaked()) && Missing() <= old(Missing())
    {
      hide Tables.Ok, Reflects, Filed, Leaks, Broken, FileStoragePath, Key, Plain, ObjectStore.Valid;
      FiledIsPlaced(db.tables, store.bucket.prefix, f);
      var down := db.Down();
      StillExcused(erased, unlisted, db.outages, old(db.statements), db.statements);
      if !down {
        var row := db.tables.files[f];
        RowPut(db.tables, f, row.(status := ERROR), store.bucket, store.uploaded);
        var _ := db.UpdateFile(f, row.path, row.size, ERROR);
      }
    }

    function AfterDownload(s: Snapshot, artifact: Id, sv: Semver, f: Id): Snapshot {
      if FileAt(s.w.t, f, artifact, sv) && s.w.t.files[f].status == AVAILABLE then s.(w := s.w.(calls := s.w.calls + 1)) else s
    }

    /** Download: refused unless the row is AVAILABLE, and then the uploaded bytes unless the row is one of the missing. */
    method Download(artifact: Id, sv: Semver, f: Id) returns (r: Reply<Bytes>)
      requires Valid()
      modifies store`calls
      ensures Valid() && Now() == AfterDownload(old(Now()), artifact, sv, f)
      ensures r.Done? ==> f in db.tables.files && db.tables.files[f].status == AVAILABLE
      ensures r.Done? && f !in Missing() ==> f in store.uploaded && r.value == store.uploaded[f]
      ensures r.Conflict? ==> f in db.tables.files && db.tables.files[f].status != AVAILABLE
      ensures r.Failed? ==> f in db.tables.files && (store.faults(old(store.calls)) != Fine || f in Missing())
      ensures r.Done? || r.Conflict? || r.Failed? || r.NotFound?
      ensures r.NotFound? <==> !FileAt(db.tables, f, artifact, sv)
    {
      hide Tables.Ok, Reflects, Leaks, FileStoragePath, Key, Plain;
      var v := db.FindVersion(artifact, sv);
      OkParts(db.tables, db.nextId);
      FoundIs(db.tables, artifact, sv, v);
      if v.None? || f !in db.tables.files || db.tables.files[f].version != v.value {
        return NotFound;
      }
      var row := db.tables.files[f];
      if row.status != AVAILABLE {
        return Conflict;
      }
      ObjectPathIsCanonical(db.tables, f);
      var data := store.Retrieve(row.path);
      r := if data.Some? then Done(data.value) else Failed;
    }

    // ---- deletes ----

    /** The storage half of a delete that will leave the tables as `after`: what it can break are the rows about to go. */
    method SweepBefore(ghost after: Tables, refs: seq<FileRef>)
      requires Valid() && Survives(db.tables, after) && ListsTheGone(db.tables, after, refs)
      modifies store`bucket, store`calls, store`failedDeletes
      ensures Sane()
      ensures store.bucket == AfterSweep(old(store.bucket), refs, store.faults, old(store.calls)) && store.calls == old(store.calls) + |refs|
      ensures store.failedDeletes == old(store.failedDeletes) + FailedKeys(old(store.bucket).prefix, refs, store.faults, old(store.calls))
      ensures Leaked() <= store.failedDeletes + unlisted && Missing() <= erased + (db.tables.files.Keys - after.files.Keys)
      ensures Filed(after, store.bucket.prefix)
      ensures Leaks(after, store.bucket) <= store.failedDeletes + unlisted && Broken(after, store.bucket, store.uploaded) <= erased
    {
      hide Tables.Ok, Reflects, Filed, Leaks, Broken, FileStoragePath, Key, Plain, ObjectStore.Valid, Survives, ListsTheGone, Swept;
      SweepSettles(db.tables, after, store.bucket, store.uploaded, refs, store.faults, store.calls);
      store.DeleteObjects(refs);
    }

    /** The storage half of a delete whose rows went before, leaving the tables as they are now. */
    method SweepAfter(ghost before: Tables, refs: seq<FileRef>)
      requires Sane() && Filed(before, store.bucket.prefix) && Survives(before, db.tables) && ListsTheGone(before, db.tables, refs)
      requires Leaks(before, store.bucket) <= store.failedDeletes + unlisted && Broken(before, store.bucket, store.uploaded) <= erased
      modifies store`bucket, store`calls, store`failedDeletes
      ensures Sane() && Bounded()
      ensures store.bucket == AfterSweep(old(store.bucket), refs, store.faults, old(store.calls)) && store.calls == old(store.calls) + |refs|
      ensures store.failedDeletes == old(store.failedDeletes) + FailedKeys(old(store.bucket).prefix, refs, store.faults, old(store.calls))
    {
      hide Tables.Ok, Reflects, Filed, Leaks, Broken, FileStoragePath, Key, Plain, ObjectStore.Valid, Survives, ListsTheGone, Swept;
      SweepSettles(before, db.tables, store.bucket, store.uploaded, refs, store.faults, store.calls);
      store.DeleteObjects(refs);
    }

    /** The object asked to be removed, and then the row, unless that statement fails. */
    function Erased(s: Snapshot, f: Id): Snapshot
      requires Placed(s.w.t, f)
    {
      var fault, down := store.faults(s.w.calls), db.outages(s.statements);
      s.(w := s.w.(t := if down then s.w.t else s.w.t.DropFiles({f}),
                   bucket := AfterDelete(s.w.bucket, PathOf(s.w.t, f), fault), calls := s.w.calls + 1,
                   failed := s.w.failed + if fault == Fine then {} else {KeyOf(s.w.t, s.w.bucket.prefix, f)}),
         statements := s.statements + 1,
         erased := s.erased + if down then {f} else {})
    }

    function AfterDeletingFile(s: Snapshot, artifact: Id, sv: Semver, f: Id): Snapshot {
      if FileAt(s.w.t, f, artifact, sv) then Erased(s, f) else s
    }

    /** Delete of one file: the object first, the row second. */
    method DeleteFile(artifact: Id, sv: Semver, f: Id) returns (r: Reply<()>)
      requires Valid()
      modifies this`erased, db`tables, db`versionBytes, db`artifactStats, db`statements, store`bucket, store`calls, store`failedDeletes
      ensures Valid() && Now() == AfterDeletingFile(old(Now()), artifact, sv, f) && old(db.statements) <= db.statements
      ensures r == if !FileAt(old(db.tables), f, artifact, sv) then NotFound else if db.outages(old(db.statements)) then Failed else Done(())
    {
      hide Tables.Ok, Reflects, Filed, Leaks, Broken, FileStoragePath, Key, Plain, ObjectStore.Valid, Erased;
      var v := db.FindVersion(artifact, sv);
      OkParts(db.tables, db.nextId);
      FoundIs(db.tables, artifact, sv, v);
      if v.None? || f !in db.tables.files || db.tables.files[f].version != v.value {
        return NotFound;
      }
      FiledIsPlaced(db.tables, store.bucket.prefix, f);
      r := EraseFile(f);
    }

    method EraseFile(f: Id) returns (r: Reply<()>)
      requires Valid() && Placed(db.tables, f)
      modifies this`erased, db`tables, db`versionBytes, db`artifactStats, db`statements, store`bucket, store`calls, store`failedDeletes
      ensures Valid() && Now() == Erased(old(Now()), f) && old(db.statements) <= db.statements
      ensures r == if db.outages(old(db.statements)) then Failed else Done(())
    {
      hide Tables.Ok, Reflects, Filed, Leaks, Broken, FileStoragePath, Key, Plain, ObjectStore.Valid, Survives, ListsTheGone,
           Swept, AfterSweep, FailedKeys, AfterDelete, CanonicalPath;
      FiledIsCanonical(db.tables, store.bucket.prefix);
      var refs := [RefOf(db.tables, f)];
      OneFileListed(db.tables, f);
      OneFileSwept(db.tables, f, store.bucket, store.faults, store.calls);
      SweepBefore(db.tables.DropFiles({f}), refs);
      var down := db.Down();
      StillExcused(erased, unlisted, db.outages, old(db.statements), db.statements);
      if down {
        OnlyTheDropped(db.tables, {f});
        OutageSeen(db.outages, old(db.statements));
        erased := erased + {f};
        return Failed;
      }
      hide Tables.DropFiles, Placed;
      db.RemoveFiles({f});
      r := Done(());
    }

    /** One statement to list the files of v and, if it worked, one storage call for each. */
    ghost function ObjectsErased(s: Snapshot, v: Id): Snapshot
      requires AllPlaced(s.w.t)
    {
      var refs := FilesInOrder(s.w.t, {v});
      if db.outages(s.statements)
      then s.(statements := s.statements + 1, unlisted := s.unlisted + Keys(s.w.bucket.prefix, refs))
      else s.(w := AfterAll(s.w, refs, store.faults), statements := s.statements + 1)
    }

    /** After the objects the row, unless its statement fails. */
    ghost function VersionErased(s: Snapshot, v: Id): Snapshot
      requires AllPlaced(s.w.t)
    {
      var half := ObjectsErased(s, v);
      if db.outages(s.statements + 1) then half.(statements := s.statements + 2, erased := s.erased + s.w.t.FilesOf(v))
      else half.(w := half.w.(t := s.w.t.DropVersions({v})), statements := s.statements + 2)
    }

    ghost function AfterDeletingVersion(s: Snapshot, artifact: Id, sv: Semver): Snapshot
      requires AllPlaced(s.w.t)
    {
      match Found(s.w.t, artifact, sv)
      case None => s
      case Some(v) => VersionErased(s, v)
    }

    /** Delete of one version: objects first, best effort and skipped when their rows cannot be listed, then the row. */
    method DeleteVersion(artifact: Id, sv: Semver) returns (r: Reply<Id>)
      requires Valid()
      modifies this`erased, this`unlisted, db`tables, db`versionBytes, db`artifactStats, db`statements,
               store`bucket, store`calls, store`failedDeletes
      ensures Valid() && AllPlaced(old(db.tables)) && Now() == AfterDeletingVersion(old(Now()), artifact, sv) && old(db.statements) <= db.statements
      ensures r == match Found(old(db.tables), artifact, sv)
                   case None => NotFound
                   case Some(v) => if db.outages(old(db.statements) + 1) then Failed else Done(v)
    {
      hide Tables.Ok, Reflects, Filed, Leaks, Broken, ObjectStore.Valid, VersionErased, AllPlaced, Good, Found, UniqueVersions, Valid;
      NowIsGood();
      var found := db.FindVersion(artifact, sv);
      FoundIs(db.tables, artifact, sv, found);
      if found.None? {
        return NotFound;
      }
      r := EraseVersion(found.value);
    }

    /** One statement to list the files, and if it succeeds one storage call for each. */
    method EraseObjects(v: Id)
      requires Valid()
      modifies this`unlisted, db`statements, store`bucket, store`calls, store`failedDeletes
      ensures AllPlaced(old(db.tables)) && Now() == ObjectsErased(old(Now()), v)
      ensures Sane() && Excused() && db.statements == old(db.statements) + 1
      ensures Leaked() <= store.failedDeletes + unlisted && Missing() <= erased + db.tables.FilesOf(v)
      ensures var after := db.tables.DropVersions({v});
              && Filed(after, store.bucket.prefix)
              && Leaks(after, store.bucket) <= store.failedDeletes + unlisted && Broken(after, store.bucket, store.uploaded) <= erased
    {
      hide Tables.Ok, Reflects, Filed, Leaks, Broken, FileStoragePath, Key, Plain, ObjectStore.Valid, Survives, ListsTheGone,
           Swept, AfterSweep, FailedKeys, FilesInOrder;
      ghost var after := db.tables.DropVersions({v});
      FiledIsCanonical(db.tables, store.bucket.prefix);
      CanonicalIsPlaced(db.tables);
      var refs := FilesInOrder(db.tables, {v});
      VersionFilesListed(db.tables, {v}, refs);
      DropsSurvive(db.tables, {v});
      DroppedFiles(db.tables, v);
      hide Tables.DropVersions, Tables.FilesOf;
      var down := db.Down();
      StillExcused(erased, unlisted, db.outages, old(db.statements), db.statements);
      if down {
        // the listing failed: no object is asked to be deleted
        OutageSeen(db.outages, old(db.statements));
        NothingSwept(db.tables, after, store.bucket, store.uploaded, refs);
        unlisted := unlisted + Keys(store.bucket.prefix, refs);
      } else {
        SweepBefore(after, refs);
      }
    }

    method EraseVersion(v: Id) returns (r: Reply<Id>)
      requires Valid()
      modifies this`erased, this`unlisted, db`tables, db`versionBytes, db`artifactStats, db`statements,
               store`bucket, store`calls, store`failedDeletes
      ensures Valid() && r == (if db.outages(old(db.statements) + 1) then Failed else Done(v))
      ensures AllPlaced(old(db.tables)) && Now() == VersionErased(old(Now()), v) && old(db.statements) <= db.statements
    {
      hide Tables.Ok, Reflects, Filed, Leaks, Broken, AfterAll, FilesInOrder, Keys, ObjectStore.Valid,
           Tables.DropVersions, Tables.FilesOf;
      EraseObjects(v);
      var down := db.Down();
      StillExcused(erased, unlisted, db.outages, old(db.statements) + 1, db.statements);
      if down {
        OutageSeen(db.outages, old(db.statements) + 1);
        erased := erased + db.tables.FilesOf(v);
        r := Failed;
      } else {
        db.RemoveVersions({v}, _ => true);
        r := Done(v);
      }
    }

    ghost function AfterDeletingArtifact(s: Snapshot, a: Id): Snapshot
      requires AllPlaced(s.w.t)
    {
      if a !in s.w.t.artifacts then s
      else if db.outages(s.statements) then s.(statements := s.statements + 1)
      else s.(w := AfterAll(s.w, FilesInOrder(s.w.t, s.w.t.VersionsOf({a})), store.faults).(t := s.w.t.DropArtifacts({a})),
              statements := s.statements + 1)
    }

    /** Delete of an artifact: rows first in one transaction, objects after the commit. */
    method DeleteArtifact(a: Id) returns (r: Reply<()>)
      requires Valid()
      modifies db`tables, db`versionBytes, db`artifactStats, db`statements, store`bucket, store`calls, store`failedDeletes
      ensures Valid() && AllPlaced(old(db.tables)) && Now() == AfterDeletingArtifact(old(Now()), a) && old(db.statements) <= db.statements
      ensures r == (if a !in old(db.tables).artifacts then NotFound else if db.outages(old(db.statements)) then Failed else Done(()))
    {
      hide Tables.Ok, Reflects, Filed, Leaks, Broken, FileStoragePath, Key, Plain, ObjectStore.Valid, Survives, ListsTheGone,
           Swept, AfterSweep, FailedKeys, FilesInOrder;
      ghost var before := db.tables;
      FiledIsCanonical(before, store.bucket.prefix);
      CanonicalIsPlaced(before);
      if a !in db.tables.artifacts {
        return NotFound;
      }
      var down := db.Down();
      StillExcused(erased, unlisted, db.outages, old(db.statements), db.statements);
      if down {
        return Failed;
      }
      var refs := FilesInOrder(db.tables, db.tables.VersionsOf({a}));
      ArtifactFilesListed(before, {a}, refs);
      DropsSurvive(before, {a});
      RowsGone(before, before.DropArtifacts({a}), store.bucket, store.uploaded);
      db.DeleteArtifacts({a}, _ => true);
      SweepAfter(before, refs);
      r := Done(());
    }

    function Wanted(filter: Filter, artifact: Option<Id>): Selection {
      Selection(filter, artifact, protectedTag, false)
    }

    ghost function AfterBulkDelete(s: Snapshot, q: Query, scope: Option<Id>, dryRun: bool): Snapshot
      requires Good(s.w)
    {
      NobodyIsFair();
      if (scope.Some? && scope.value !in s.w.t.artifacts) || Requested(q, scope.Some?).None? then s
      else
        var wanted := Wanted(Requested(q, scope.Some?).value, scope);
        s.(w := BulkOutcome(s.w, wanted, dryRun, Nobody, db.outages, s.statements, store.faults).0)
    }

    /** BulkDelete and BulkDeleteVersions with no other session at work. */
    method BulkDeleteVersions(q: Query, scope: Option<Id>, dryRun: bool) returns (r: Reply<BulkReply>)
      requires Valid()
      modifies db, store
      ensures Valid() && Good(old(Now()).w) && old(db.statements) <= db.statements
      ensures Now() == AfterBulkDelete(old(Now()), q, scope, dryRun).(statements := db.statements)
      ensures r.NotFound? <==> scope.Some? && scope.value !in old(db.tables).artifacts
      ensures r.BadRequest? <==> !r.NotFound? && Requested(q, scope.Some?).None?
      ensures !r.NotFound? && !r.BadRequest? ==>
                && Consistent(old(db.tables), RightBytes(old(db.tables)))
                && var wanted := Wanted(Requested(q, scope.Some?).value, scope);
                   var gone := Deletable(old(db.tables), RightBytes(old(db.tables)), wanted);
                   r == if Stopped(db.outages, old(db.statements), dryRun || gone == {}) then Failed
                        else Done(Answer(AllRows(old(db.tables), RightBytes(old(db.tables)), wanted), gone, dryRun))
      ensures !r.Done? || dryRun ==> Now().w == old(Now()).w
      ensures r.Done? && !dryRun ==>
                && AllPlaced(old(db.tables)) && Requested(q, scope.Some?).Some? && Consistent(old(db.tables), RightBytes(old(db.tables)))
                && var gone := Deletable(old(db.tables), RightBytes(old(db.tables)), Wanted(Requested(q, scope.Some?).value, scope));
                   Now().w == AfterAll(old(Now()).w, FilesInOrder(old(db.tables), gone), store.faults).(t := old(db.tables).DropVersions(gone))
    {
      hide Tables.Ok, Reflects, Filed, Leaks, Broken, FileStoragePath, Key, Plain, ObjectStore.Valid, Survives, ListsTheGone,
           Swept, AfterSweep, FailedKeys, FilesInOrder, Listable, Fair, BulkOutcome, Meaning, Tables.DropVersions,
           Deletable, RightBytes, AfterAll, AllPlaced, Answer, AllRows, Stopped;
      ghost var w := filtered.Now();
      assert w == Now().w;
      filtered.ValidIsGood();
      hide Good;
      FiledIsCanonical(db.tables, store.bucket.prefix);
      CanonicalIsPlaced(db.tables);
      if scope.Some? && scope.value !in db.tables.artifacts {
        return NotFound;
      }
      NobodyIsFair();
      var reply := filtered.BulkDelete(q, scope, dryRun, Nobody);
      StillExcused(erased, unlisted, db.outages, old(db.statements), db.statements);
      if Requested(q, scope.Some?).None? {
        return BadRequest;
      }
      ghost var wanted := Wanted(Requested(q, scope.Some?).value, scope);
      AloneCases(w, wanted, dryRun, db.outages, old(db.statements), store.faults);
      AloneSettles(w, wanted, dryRun, db.outages, old(db.statements), store.faults);
      r := if reply.None? then Failed else Done(reply.value);
    }

    // ---- artifacts, versions and tags: rows only ----

    /** One statement, or one transaction. */
    method Statement() returns (down: bool)
      requires Valid()
      modifies db`statements
      ensures Valid()
      ensures down == db.outages(old(db.statements)) && db.statements == old(db.statements) + 1
    {
      hide Tables.Ok, Reflects, Filed, Leaks, Broken, ObjectStore.Valid;
      down := db.Down();
      StillExcused(erased, unlisted, db.outages, old(db.statements), db.statements);
    }

    function AfterCreatingArtifact(s: Snapshot, name: string, created: int): Snapshot {
      if !s.w.t.AcceptsArtifact(name) then s
      else if db.outages(s.statements) then s.(statements := s.statements + 1)
      else s.(w := s.w.(t := s.w.t.PutArtifact(s.w.next, ArtifactRow(name, created)), next := s.w.next + 1), statements := s.statements + 1)
    }

    /** Create of an artifact: refused when the full name is taken. */
    method CreateArtifact(name: string, created: int) returns (r: Reply<Id>)
      requires Valid()
      modifies db
      ensures Valid() && Now() == AfterCreatingArtifact(old(Now()), name, created) && old(db.statements) <= db.statements
      ensures r == if !old(db.tables).AcceptsArtifact(name) then Conflict else if db.outages(old(db.statements)) then Failed else Done(old(db.nextId))
      ensures r.Done? ==> r.value !in old(db.tables).artifacts
    {
      hide Tables.Ok, Reflects, Filed, Leaks, Broken, ObjectStore.Valid, Tables.AcceptsArtifact;
      var taken := db.FindArtifact(name);
      if taken.Some? {
        return Conflict;
      }
      var down := Statement();
      if down {
        return Failed;
      }
      FilesAsBefore(db.tables, db.tables.PutArtifact(db.nextId, ArtifactRow(name, created)), store.bucket, store.uploaded);
      NextIsUnused(db.tables, db.nextId);
      var a := db.InsertArtifact(name, created);
      r := Done(a.value);
    }

    /** The version inserted with all its tags, unless one of the statements fails; the id it took is not given back. */
    ghost function Inserted(s: Snapshot, artifact: Id, sv: Semver, names: seq<string>, created: int): Snapshot {
      var v, row := s.w.next, VersionRow(artifact, sv, created);
      if !s.w.t.AcceptsVersion(artifact, sv) then s
      else if Interrupted(db.outages, s.statements, s.statements + |names| + 1) then s.(w := s.w.(next := v + 1))
      else s.(w := s.w.(t := s.w.t.PutVersion(v, row).TagAll(artifact, names, v), next := v + 1))
    }

    ghost function AfterCreatingVersion(s: Snapshot, artifact: Id, text: string, names: seq<string>, created: int): Snapshot {
      if Parse(text).Err? || artifact !in s.w.t.artifacts || db.outages(s.statements) then s
      else Inserted(s.(statements := s.statements + 1), artifact, Parse(text).value, names, created)
    }

    /** Create: the version and all its tags in one transaction; a tag that was elsewhere in the artifact moves to the new version. */
    method CreateVersion(artifact: Id, text: string, names: seq<string>, created: int) returns (r: Reply<Id>)
      requires Valid()
      modifies db
      ensures Valid() && old(db.statements) <= db.statements
      ensures Now() == AfterCreatingVersion(old(Now()), artifact, text, names, created).(statements := db.statements)
      ensures r.BadRequest? <==> Parse(text).Err?
      ensures r.NotFound? <==> Parse(text).Ok? && artifact !in old(db.tables).artifacts
      ensures r.Conflict? ==>
                exists v :: v in db.tables.versions && db.tables.versions[v] == VersionRow(artifact, Parse(text).value, db.tables.versions[v].created)
      ensures r.Failed? <==> Interrupted(db.outages, old(db.statements), db.statements)
      ensures !r.Done? ==> db.tables == old(db.tables)
      ensures r.Done? ==>
                && Parse(text).Ok? && r.value == old(db.nextId) && r.value !in old(db.tables).versions
                && db.tables == old(db.tables).PutVersion(r.value, VersionRow(artifact, Parse(text).value, created)).TagAll(artifact, names, r.value)
    {
      hide Tables.Ok, Reflects, Filed, Leaks, Broken, ObjectStore.Valid, Tables.AcceptsVersion, Inserted;
      var sv := Parse(text);
      if sv.Err? {
        return BadRequest;
      }
      if artifact !in db.tables.artifacts {
        return NotFound;
      }
      var down := Statement();
      if down {
        return Failed;
      }
      Uninterrupted(db.outages, old(db.statements));
      r := InsertTagged(artifact, sv.value, names, created);
    }

    /** The transaction, once it has begun. */
    method InsertTagged(artifact: Id, sv: Semver, names: seq<string>, created: int) returns (r: Reply<Id>)
      requires Valid() && artifact in db.tables.artifacts
      modifies db
      ensures Valid() && old(db.statements) <= db.statements
      ensures Now() == Inserted(old(Now()), artifact, sv, names, created).(statements := db.statements)
      ensures r.Done? || r.Conflict? || r.Failed?
      ensures r.Conflict? ==>
                exists v :: v in db.tables.versions && db.tables.versions[v] == VersionRow(artifact, sv, db.tables.versions[v].created)
      ensures r.Failed? <==> Interrupted(db.outages, old(db.statements), db.statements)
      ensures !r.Done? ==> db.tables == old(db.tables)
      ensures r.Done? ==>
                && r.value == old(db.nextId) && r.value !in old(db.tables).versions
                && db.tables == old(db.tables).PutVersion(r.value, VersionRow(artifact, sv, created)).TagAll(artifact, names, r.value)
    {
      hide Tables.Ok, Reflects, Filed, Leaks, Broken, ObjectStore.Valid, Tables.AcceptsVersion, SomeOutage,
           Tables.TagAll, Tables.PutTag, Interrupted;
      var tables, bytes, stats := db.tables, db.versionBytes, db.artifactStats;
      ghost var next := db.nextId;
      var id := db.InsertVersion(artifact, sv, created);
      if id.None? {
        VersionTaken(tables, artifact, sv);
        NothingInBetween(db.outages, db.statements);
        return Conflict;
      }
      OkWithMoreIds(tables, next, db.nextId);
      NextIsUnused(tables, next);
      var v := id.value;
      ghost var inserted := db.tables;
      var ok := TagVersion(artifact, v, names);
      if ok {
        TagAllTags(inserted, artifact, names, v);
        VersionAndTags(tables, db.tables, v, store.bucket, store.uploaded);
        r := Done(v);
      } else {
        db.Rollback(tables, bytes, stats);
        r := Failed;
      }
    }

    /** The tags and the commit. */
    method TagVersion(artifact: Id, v: Id, names: seq<string>) returns (ok: bool)
      requires db.Valid() && v in db.tables.versions && db.tables.versions[v].artifact == artifact && Excused()
      modifies db`tables, db`statements
      ensures db.Valid() && Excused() && old(db.statements) <= db.statements
      ensures !ok <==> Interrupted(db.outages, old(db.statements), db.statements)
      ensures !ok <==> Interrupted(db.outages, old(db.statements), old(db.statements) + |names| + 1)
      ensures ok ==> db.tables == old(db.tables).TagAll(artifact, names, v)
    {
      hide Tables.Ok, Reflects, Tables.TagAll, Tables.PutTag;
      NoTagsYet(db.tables, artifact, names, v);
      var i := 0;
      while i < |names|
        invariant 0 <= i <= |names| && db.Valid() && Excused() && db.statements == old(db.statements) + i
        invariant !Interrupted(db.outages, old(db.statements), db.statements)
        invariant db.tables == old(db.tables).TagAll(artifact, names[..i], v)
      {
        OneMoreTag(old(db.tables), artifact, names, v, i);
        var down := db.Down();
        StillExcused(erased, unlisted, db.outages, old(db.statements) + i, db.statements);
        if down {
          return false;
        }
        var _ := db.UpsertTag(artifact, names[i], v);
        i := i + 1;
      }
      assert names[..i] == names;
      var down := db.Down();
      StillExcused(erased, unlisted, db.outages, old(db.statements) + i, db.statements);
      ok := !down;
    }

    ghost function AfterPuttingTag(s: Snapshot, artifact: Id, tag: string, text: string): Snapshot {
      if Parse(text).Err? || Found(s.w.t, artifact, Parse(text).value).None? then s
      else if db.outages(s.statements) then s.(statements := s.statements + 1)
      else s.(w := s.w.(t := s.w.t.PutTag(artifact, tag, Found(s.w.t, artifact, Parse(text).value).value)), statements := s.statements + 1)
    }

    /** Put: a tag is only ever set to a version looked up in the tag's own artifact. */
    method PutTag(artifact: Id, tag: string, text: string) returns (r: Reply<Id>)
      requires Valid()
      modifies db`tables, db`statements
      ensures Valid() && Now() == AfterPuttingTag(old(Now()), artifact, tag, text) && old(db.statements) <= db.statements
      ensures r == if Parse(text).Err? then BadRequest
                   else match Found(old(db.tables), artifact, Parse(text).value)
                        case None => NotFound
                        case Some(v) => if db.outages(old(db.statements)) then Failed else Done(v)
      ensures r.Done? ==> VersionAt(old(db.tables), r.value, artifact, Parse(text).value) && db.tables == old(db.tables).PutTag(artifact, tag, r.value)
      ensures !r.Done? ==> db.tables == old(db.tables)
    {
      hide Reflects, Filed, Leaks, Broken, ObjectStore.Valid, Found, Tables.PutTag, Tables.Ok, Valid;
      var sv := Parse(text);
      if sv.Err? {
        return BadRequest;
      }
      NowIsGood();
      if artifact !in db.tables.artifacts {
        NoArtifactNoVersions(Now().w, artifact);
        FoundIs(db.tables, artifact, sv.value, None);
        return NotFound;
      }
      var v := db.FindVersion(artifact, sv.value);
      FoundIs(db.tables, artifact, sv.value, v);
      if v.None? {
        return NotFound;
      }
      r := SetTag(artifact, tag, v.value);
    }

    /** The upsert, once the version is found. */
    method SetTag(artifact: Id, tag: string, v: Id) returns (r: Reply<Id>)
      requires Valid() && v in db.tables.versions && db.tables.versions[v].artifact == artifact
      modifies db`tables, db`statements
      ensures Valid() && db.statements == old(db.statements) + 1
      ensures r == if db.outages(old(db.statements)) then Failed else Done(v)
      ensures db.tables == if r.Done? then old(db.tables).PutTag(artifact, tag, v) else old(db.tables)
    {
      hide Tables.Ok, Reflects, Filed, Leaks, Broken, ObjectStore.Valid;
      var down := Statement();
      if down {
        return Failed;
      }
      FilesAsBefore(db.tables, db.tables.PutTag(artifact, tag, v), store.bucket, store.uploaded);
      var _ := db.UpsertTag(artifact, tag, v);
      r := Done(v);
    }

    function AfterDeletingTag(s: Snapshot, artifact: Id, tag: string): Snapshot {
      if !s.w.t.HasTag(artifact, tag) then s
      else s.(w := s.w.(t := if db.outages(s.statements) then s.w.t else s.w.t.DropTag(artifact, tag)), statements := s.statements + 1)
    }

    method DeleteTag(artifact: Id, tag: string) returns (r: Reply<()>)
      requires Valid()
      modifies db`tables, db`statements
      ensures Valid() && Now() == AfterDeletingTag(old(Now()), artifact, tag) && old(db.statements) <= db.statements
      ensures r == if !old(db.tables).HasTag(artifact, tag) then NotFound else if db.outages(old(db.statements)) then Failed else Done(())
      ensures db.tables == if r.Done? then old(db.tables).DropTag(artifact, tag) else old(db.tables)
    {
      hide Tables.Ok, Reflects, Filed, Leaks, Broken, ObjectStore.Valid;
      if !db.tables.HasTag(artifact, tag) {
        return NotFound;
      }
      var down := Statement();
      if down {
        return Failed;
      }
      FilesAsBefore(db.tables, db.tables.DropTag(artifact, tag), store.bucket, store.uploaded);
      db.DeleteTag(artifact, tag);
      r := Done(());
    }

    // ---- admin cleanups: each answers how many rows it deleted, and how many of those counted before it skipped ----

    /** The count and, if that worked, the delete. */
    method CountThenDelete() returns (down: bool)
      requires Valid()
      modifies db`statements
      ensures Valid() && old(db.statements) <= db.statements
      ensures down <==> EitherFails(old(db.statements))
    {
      down := Statement();
      if !down {
        down := Statement();
      }
    }

    predicate EitherFails(statement: nat) {
      db.outages(statement) || db.outages(statement + 1)
    }

    /** A cleanup of rows only. */
    function Cleaning(s: Snapshot, t: Tables): Snapshot {
      if EitherFails(s.statements) then s else s.(w := s.w.(t := t))
    }

    ghost function AfterCleaningFiles(s: Snapshot, cutoff: int): Snapshot
      requires AllPlaced(s.w.t)
    {
      if EitherFails(s.statements) then s
      else
        var refs := RowsInOrder(s.w.t, DeletableFiles(s.w.t, cutoff, protectedTag));
        s.(w := AfterAll(s.w, refs, store.faults).(t := DropIncompleteFiles(s.w.t, cutoff, protectedTag)))
    }

    /** Which rows that leaves, and which objects: those of every row that stays as they were, those of a row that went only if their call failed. */
    lemma CleaningFilesLeaves(s: Snapshot, cutoff: int)
      requires Good(s.w) && AllPlaced(s.w.t) && !db.outages(s.statements) && !db.outages(s.statements + 1)
      ensures var t, u := s.w.t, AfterCleaningFiles(s, cutoff).w;
              var before, after := s.w.bucket.objects, u.bucket.objects;
              && u.t == t.(files := u.t.files) && (forall f :: f in u.t.files ==> f in t.files && u.t.files[f] == t.files[f])
              && (forall f :: f in t.files ==>
                    (f !in u.t.files <==> t.files[f].status in {PENDING, ERROR} && t.files[f].created < cutoff
                                          && (t.versions[t.files[f].version].artifact, protectedTag) !in t.tags))
              && (forall f :: f in u.t.files ==>
                    var key := KeyOf(t, s.w.bucket.prefix, f); (key in after <==> key in before) && (key in before ==> after[key] == before[key]))
              && (forall f :: f in t.files && f !in u.t.files && KeyOf(t, s.w.bucket.prefix, f) in after ==> KeyOf(t, s.w.bucket.prefix, f) in u.failed)
    {
      hide Good, KeyFor, RowsInOrder, AfterSweep, FailedKeys, DeletableFiles;
      DeletableRowsExist(s.w.t, cutoff, protectedTag);
      FilesAndObjectsGone(s.w, DeletableFiles(s.w.t, cutoff, protectedTag), store.faults);
      IncompleteFilesGone(s.w.t, cutoff, protectedTag);
    }

    /** DeleteIncompleteFiles: every AVAILABLE row, every row that is not older and every row of a protected artifact stays with its object. */
    method DeleteIncompleteFiles(cutoff: int) returns (r: Reply<Cleaned>)
      requires Valid()
      modifies db`tables, db`versionBytes, db`artifactStats, db`statements, store`bucket, store`calls, store`failedDeletes
      ensures Valid() && AllPlaced(old(db.tables)) && old(db.statements) <= db.statements
      ensures Now() == AfterCleaningFiles(old(Now()), cutoff).(statements := db.statements)
      ensures r == if EitherFails(old(db.statements)) then Failed
                   else Done(Cleaned(|DeletableFiles(old(db.tables), cutoff, protectedTag)|, |ProtectedFiles(old(db.tables), cutoff, protectedTag)|))
      ensures r.Failed? ==> db.tables == old(db.tables)
      ensures r.Done? ==> db.tables == old(db.tables).(files := db.tables.files)
      ensures r.Done? ==> forall f :: f in db.tables.files ==> f in old(db.tables).files && db.tables.files[f] == old(db.tables).files[f]
      ensures r.Done? ==> forall f :: f in old(db.tables).files ==>
                var row := old(db.tables).files[f];
                (f !in db.tables.files <==> row.status in {PENDING, ERROR} && row.created < cutoff
                                            && (old(db.tables).versions[row.version].artifact, protectedTag) !in old(db.tables).tags)
      ensures r.Done? ==> forall f :: f in db.tables.files ==>
                var key := KeyOf(old(db.tables), old(store.bucket).prefix, f);
                && (key in store.bucket.objects <==> key in old(store.bucket).objects)
                && (key in store.bucket.objects ==> store.bucket.objects[key] == old(store.bucket).objects[key])
    {
      hide Tables.Ok, Reflects, Filed, Leaks, Broken, ObjectStore.Valid, ProtectedFiles, AfterAll, RowsInOrder, FileProtected, KeyFor;
      FiledIsCanonical(db.tables, store.bucket.prefix);
      CanonicalIsPlaced(db.tables);
      if !EitherFails(db.statements) {
        CleaningFilesLeaves(Now(), cutoff);
      }
      var down := CountThenDelete();
      if down {
        return Failed;
      }
      var total := |IncompleteFiles(db.tables, cutoff)|;
      var gone := DeletableFiles(db.tables, cutoff, protectedTag);
      SkippedCountsProtected(db.tables, cutoff, protectedTag);
      hide DeletableFiles, IncompleteFiles;
      RemoveFilesThenObjects(gone);
      r := Done(Cleaned(|gone|, Skipped(total, |gone|)));
    }

    /** File rows deleted and listed by one statement, and then their objects. */
    method RemoveFilesThenObjects(gone: set<Id>)
      requires Valid() && gone <= db.tables.files.Keys
      modifies db`tables, db`versionBytes, db`artifactStats, store`bucket, store`calls, store`failedDeletes
      ensures Valid() && AllPlaced(old(db.tables))
      ensures Now() == old(Now()).(w := AfterAll(old(Now()).w, RowsInOrder(old(db.tables), gone), store.faults).(t := old(db.tables).DropFiles(gone)))
    {
      hide Tables.Ok, Reflects, Filed, Leaks, Broken, ObjectStore.Valid, FileStoragePath, Survives, ListsTheGone, AfterSweep,
           FailedKeys, RowsInOrder, Key;
      ghost var before := db.tables;
      FiledIsCanonical(before, store.bucket.prefix);
      CanonicalIsPlaced(before);
      var refs := RowsInOrder(db.tables, gone);
      FilesListed(before, gone, refs);
      DropsSurvive(before, gone);
      RowsGone(before, before.DropFiles(gone), store.bucket, store.uploaded);
      hide Tables.DropFiles;
      db.RemoveFiles(gone);
      SweepAfter(before, refs);
    }

    method DeleteVersionsWithoutFiles(cutoff: int) returns (r: Reply<Cleaned>)
      requires Valid()
      modifies db`tables, db`versionBytes, db`artifactStats, db`statements
      ensures Valid() && old(db.statements) <= db.statements
      ensures Now() == Cleaning(old(Now()), DropVersionsWithoutFiles(old(db.tables), cutoff, protectedTag)).(statements := db.statements)
      ensures r == if EitherFails(old(db.statements)) then Failed
                   else Done(Cleaned(|DeletableVersions(old(db.tables), cutoff, protectedTag)|, |ProtectedVersions(old(db.tables), cutoff, protectedTag)|))
    {
      hide Tables.Ok, Reflects, Filed, Leaks, Broken, ObjectStore.Valid, ProtectedVersions, Tables.DropVersions;
      var down := CountThenDelete();
      if down {
        return Failed;
      }
      var total := |VersionsWithoutFiles(db.tables, cutoff)|;
      var gone := DeletableVersions(db.tables, cutoff, protectedTag);
      SkippedCountsProtected(db.tables, cutoff, protectedTag);
      RemoveFilelessVersions(gone);
      r := Done(Cleaned(|gone|, Skipped(total, |gone|)));
    }

    /** Versions without files deleted: rows only. */
    method RemoveFilelessVersions(gone: set<Id>)
      requires Valid() && forall v :: v in gone ==> !db.tables.HasFiles(v)
      modifies db`tables, db`versionBytes, db`artifactStats
      ensures Valid() && db.tables == old(db.tables).DropVersions(gone)
    {
      hide Tables.Ok, Reflects, Filed, Leaks, Broken, ObjectStore.Valid, Tables.HasFiles;
      FilelessVersionsGone(db.tables, gone);
      hide Tables.DropVersions;
      FilesAsBefore(db.tables, db.tables.DropVersions(gone), store.bucket, store.uploaded);
      db.RemoveVersions(gone, _ => true);
    }

    method DeleteArtifactsWithoutFiles(cutoff: int) returns (r: Reply<Cleaned>)
      requires Valid()
      modifies db`tables, db`versionBytes, db`artifactStats, db`statements
      ensures Valid() && old(db.statements) <= db.statements
      ensures Now() == Cleaning(old(Now()), DropArtifactsWithoutFiles(old(db.tables), cutoff, protectedTag)).(statements := db.statements)
      ensures var all := ArtifactsWithoutFiles(old(db.tables), cutoff);
              r == if EitherFails(old(db.statements)) then Failed
                   else Done(Cleaned(|WithoutTag(old(db.tables), all, protectedTag)|, |WithTag(old(db.tables), all, protectedTag)|))
    {
      hide Tables.Ok, Reflects, Filed, Leaks, Broken, ObjectStore.Valid, FileStoragePath, ArtifactsWithoutFiles, WithoutTag,
           WithTag, EmptyArtifacts;
      var down := CountThenDelete();
      if down {
        return Failed;
      }
      var all := ArtifactsWithoutFiles(db.tables, cutoff);
      var gone := WithoutTag(db.tables, all, protectedTag);
      SkippedCountsProtected(db.tables, cutoff, protectedTag);
      CleanedArtifactsHaveNoFiles(db.tables, cutoff, protectedTag);
      RemoveFileless(gone);
      r := Done(Cleaned(|gone|, Skipped(|all|, |gone|)));
    }

    method DeleteEmptyArtifacts(cutoff: int) returns (r: Reply<Cleaned>)
      requires Valid()
      modifies db`tables, db`versionBytes, db`artifactStats, db`statements
      ensures Valid() && old(db.statements) <= db.statements
      ensures Now() == Cleaning(old(Now()), DropEmptyArtifacts(old(db.tables), cutoff, protectedTag)).(statements := db.statements)
      ensures r == if EitherFails(old(db.statements)) then Failed else Done(Cleaned(|EmptyArtifacts(old(db.tables), cutoff)|, 0))
    {
      hide Tables.Ok, Reflects, Filed, Leaks, Broken, ObjectStore.Valid, FileStoragePath, ArtifactsWithoutFiles, WithoutTag, EmptyArtifacts;
      var down := CountThenDelete();
      if down {
        return Failed;
      }
      var all := EmptyArtifacts(db.tables, cutoff);
      var gone := WithoutTag(db.tables, all, protectedTag);
      EmptyArtifactsAreNeverSkipped(db.tables, cutoff, protectedTag, db.nextId);
      CleanedArtifactsHaveNoFiles(db.tables, cutoff, protectedTag);
      RemoveFileless(gone);
      r := Done(Cleaned(|gone|, Skipped(|all|, |gone|)));
    }

    /** Artifacts without files deleted: rows only. */
    method RemoveFileless(gone: set<Id>)
      requires Valid() && forall a :: a in gone ==> !db.tables.ArtifactHasFiles(a)
      modifies db`tables, db`versionBytes, db`artifactStats
      ensures Valid() && db.tables == old(db.tables).DropArtifacts(gone)
    {
      hide Tables.Ok, Reflects, Filed, Leaks, Broken, ObjectStore.Valid, Tables.ArtifactHasFiles;
      FiledIsCanonical(db.tables, store.bucket.prefix);
      CanonicalIsPlaced(db.tables);
      NoFilesBelow(db.tables, gone);
      hide Tables.DropArtifacts;
      FilesAsBefore(db.tables, db.tables.DropArtifacts(gone), store.bucket, store.uploaded);
      db.DeleteArtifacts(gone, _ => true);
    }

    method DeleteUnusedTypes(cutoff: int) returns (r: Reply<Cleaned>)
      requires Valid()
      modifies db`tables, db`statements
      ensures Valid() && old(db.statements) <= db.statements
      ensures Now() == Cleaning(old(Now()), DropUnusedTypes(old(db.tables), cutoff)).(statements := db.statements)
      ensures r == if EitherFails(old(db.statements)) then Failed else Done(Cleaned(|UnusedTypes(old(db.tables), cutoff)|, 0))
    {
      hide Tables.Ok, Reflects, Filed, Leaks, Broken, ObjectStore.Valid, UnusedTypes;
      var down := CountThenDelete();
      if down {
        return Failed;
      }
      var gone := UnusedTypes(db.tables, cutoff);
      FilesAsBefore(db.tables, db.tables.DropTypes(gone), store.bucket, store.uploaded);
      db.DeleteTypes(gone);
      r := Done(Cleaned(|gone|, Skipped(|gone|, |gone|)));
    }

    // ---- any sequence of requests ----

    /** What each request makes of the registry; the number of statements is left to the handler. */
    ghost function Answered(q: Request, s: Snapshot): Snapshot
      requires Good(s.w)
    {
      GoodIsPlaced(s.w);
      match q
      case Uploading(artifact, sv, name, data, created) => if Plain(s.w.bucket.prefix, name) then AfterUpload(s, artifact, sv, name, data, created) else s
      case Downloading(artifact, sv, f) => AfterDownload(s, artifact, sv, f)
      case DeletingFile(artifact, sv, f) => AfterDeletingFile(s, artifact, sv, f)
      case DeletingVersion(artifact, sv) => AfterDeletingVersion(s, artifact, sv)
      case DeletingArtifact(artifact) => AfterDeletingArtifact(s, artifact)
      case BulkDeleting(query, scope, dryRun) => AfterBulkDelete(s, query, scope, dryRun)
      case CreatingArtifact(name, created) => AfterCreatingArtifact(s, name, created)
      case CreatingVersion(artifact, text, names, created) => AfterCreatingVersion(s, artifact, text, names, created)
      case PuttingTag(artifact, tag, text) => AfterPuttingTag(s, artifact, tag, text)
      case DeletingTag(artifact, tag) => AfterDeletingTag(s, artifact, tag)
      case CleaningFiles(cutoff) => AfterCleaningFiles(s, cutoff)
      case CleaningVersions(cutoff) => Cleaning(s, DropVersionsWithoutFiles(s.w.t, cutoff, protectedTag))
      case CleaningArtifacts(cutoff) => Cleaning(s, DropArtifactsWithoutFiles(s.w.t, cutoff, protectedTag))
      case CleaningEmptyArtifacts(cutoff) => Cleaning(s, DropEmptyArtifacts(s.w.t, cutoff, protectedTag))
      case CleaningTypes(cutoff) => Cleaning(s, DropUnusedTypes(s.w.t, cutoff))
    }

    ghost predicate Served(q: Request, s: Snapshot, u: Snapshot) {
      Good(s.w) && s.statements <= u.statements && u == Answered(q, s).(statements := u.statements)
    }

    /** A request is answered by the handler it names; an upload only if its file name is plain under the bucket's prefix. */
    method Serve(q: Request)
      requires Valid()
      modifies this`erased, this`unlisted, db, store
      ensures Valid() && Served(q, old(Now()), Now())
      ensures !q.ObjectsFirst() ==> erased == old(erased) && unlisted == old(unlisted)
    {
      hide Valid, Uploaded, Plain, Good, AfterUpload, AfterDownload, AfterDeletingFile, AfterDeletingVersion, AfterDeletingArtifact,
           AfterBulkDelete, AfterCreatingArtifact, AfterCreatingVersion, AfterPuttingTag, AfterDeletingTag, AfterCleaningFiles, Cleaning,
           Found, FileAt, Answer, AllRows, Deletable, RightBytes, AfterAll, FilesInOrder, Requested, AllPlaced, UniqueVersions,
           Consistent, Stopped, Tables.AcceptsFile, Tables.AcceptsArtifact, Parse, DeletableVersions, ProtectedVersions, DeletableFiles, ProtectedFiles,
           WithoutTag, WithTag, EmptyArtifacts, ArtifactsWithoutFiles, UnusedTypes, EitherFails, Interrupted, Tables.HasTag,
           DropVersionsWithoutFiles, DropArtifactsWithoutFiles, DropEmptyArtifacts, DropUnusedTypes;
      NowIsGood();
      match q {
        case Uploading(artifact, sv, name, data, created) =>
          if Plain(store.bucket.prefix, name) {
            var _ := Upload(artifact, sv, name, data, created);
          }
        case Downloading(artifact, sv, f) => var _ := Download(artifact, sv, f);
        case DeletingFile(artifact, sv, f) => var _ := DeleteFile(artifact, sv, f);
        case DeletingVersion(artifact, sv) => var _ := DeleteVersion(artifact, sv);
        case DeletingArtifact(artifact) => var _ := DeleteArtifact(artifact);
        case BulkDeleting(query, scope, dryRun) => var _ := BulkDeleteVersions(query, scope, dryRun);
        case CreatingArtifact(name, created) => var _ := CreateArtifact(name, created);
        case CreatingVersion(artifact, text, names, created) => var _ := CreateVersion(artifact, text, names, created);
        case PuttingTag(artifact, tag, text) => var _ := PutTag(artifact, tag, text);
        case DeletingTag(artifact, tag) => var _ := DeleteTag(artifact, tag);
        case CleaningFiles(cutoff) => var _ := DeleteIncompleteFiles(cutoff);
        case CleaningVersions(cutoff) => var _ := DeleteVersionsWithoutFiles(cutoff);
        case CleaningArtifacts(cutoff) => var _ := DeleteArtifactsWithoutFiles(cutoff);
        case CleaningEmptyArtifacts(cutoff) => var _ := DeleteEmptyArtifacts(cutoff);
        case CleaningTypes(cutoff) => var _ := DeleteUnusedTypes(cutoff);
      }
    }

    /** The states between requests answered one after the other. */
    ghost predicate Trace(requests: seq<Request>, trace: seq<Snapshot>) {
      |trace| == |requests| + 1 && forall i :: 0 <= i < |requests| ==> Served(requests[i], trace[i], trace[i + 1])
    }

    /** Any requests are all answered, one after the other. Whatever storage calls and statements fail, the bounds hold; if none failed,
        rows and objects agree exactly; and without objects-first deletes no row can have lost its object since. */
    method AnyRequests(requests: seq<Request>) returns (ghost trace: seq<Snapshot>)
      requires Valid()
      modifies this`erased, this`unlisted, db, store
      ensures Trace(requests, trace) && trace[0] == old(Now()) && trace[|requests|] == Now()
      ensures Valid() && Leaked() <= store.failedDeletes + unlisted && Missing() <= erased
      ensures (forall i :: store.faults(i) == Fine) && (forall i :: !db.outages(i)) ==> Leaked() == {} && Missing() == {}
      ensures (forall q :: q in requests ==> !q.ObjectsFirst()) ==> erased == old(erased) && unlisted == old(unlisted)
    {
      hide Valid, Request.ObjectsFirst, Served;
      trace := [Now()];
      for i := 0 to |requests|
        invariant Valid() && |trace| == i + 1 && trace[0] == old(Now()) && trace[i] == Now()
        invariant forall j :: 0 <= j < i ==> Served(requests[j], trace[j], trace[j + 1])
        invariant (forall q :: q in requests ==> !q.ObjectsFirst()) ==> erased == old(erased) && unlisted == old(unlisted)
      {
        assert requests[i] in requests;
        Serve(requests[i]);
        trace := trace + [Now()];
      }
      ValidBounds();
      if (forall i :: store.faults(i) == Fine) && (forall i :: !db.outages(i)) {
        WithoutFailuresNothingLeaks();
      }
    }

    /** No request changes the uploaded bytes of a file that already has an id. */
    lemma ServedKeepsUploads(q: Request, s: Snapshot, u: Snapshot, f: Id)
      requires Served(q, s, u) && f < s.w.next
      ensures s.w.next <= u.w.next && (f in u.w.uploaded <==> f in s.w.uploaded) && (f in s.w.uploaded ==> u.w.uploaded[f] == s.w.uploaded[f])
    {
      hide Good, AfterUpload, AfterBulkDelete, Key, Found, AfterSweep, FailedKeys, Plain, FilesInOrder, Keys, AllPlaced;
      match q {
        case Uploading(artifact, sv, name, data, created) =>
          UploadTouchesOneFile(s, artifact, sv, name, data, created);
          if Plain(s.w.bucket.prefix, name) { OthersKept(s.w.uploaded, u.w.uploaded, s.w.next, f); }
        case BulkDeleting(query, scope, dryRun) => BulkKeepsUploads(s, query, scope, dryRun);
        case _ =>
      }
    }

    lemma BulkKeepsUploads(s: Snapshot, q: Query, scope: Option<Id>, dryRun: bool)
      requires Good(s.w)
      ensures var u := AfterBulkDelete(s, q, scope, dryRun); u.w.next == s.w.next && u.w.uploaded == s.w.uploaded
    {
      hide Good, Fair, Listable, BulkOutcome, Deletable, AllRows, FilesInOrder, Tables.DropVersions, AfterSweep, FailedKeys, RightBytes,
           Requested, Answer, Stopped;
      NobodyIsFair();
      GoodIsListable(s.w);
      if !(scope.Some? && scope.value !in s.w.t.artifacts) && Requested(q, scope.Some?).Some? {
        var wanted := Wanted(Requested(q, scope.Some?).value, scope);
        AloneCases(s.w, wanted, dryRun, db.outages, s.statements, store.faults);
      }
    }

    lemma {:induction false} TraceKeepsUploads(requests: seq<Request>, trace: seq<Snapshot>, n: nat, f: Id)
      requires Trace(requests, trace) && n <= |requests| && f < trace[0].w.next
      ensures trace[0].w.next <= trace[n].w.next
      ensures (f in trace[n].w.uploaded <==> f in trace[0].w.uploaded) && (f in trace[0].w.uploaded ==> trace[n].w.uploaded[f] == trace[0].w.uploaded[f])
    {
      hide Served;
      if n > 0 {
        TraceKeepsUploads(requests, trace, n - 1, f);
        ServedKeepsUploads(requests[n - 1], trace[n - 1], trace[n], f);
      }
    }

    /** A file that was AVAILABLE and not missing before any requests, and is so afterwards, still has the very same bytes. */
    lemma SameBytesThroughout(requests: seq<Request>, trace: seq<Snapshot>, f: Id)
      requires Trace(requests, trace) && Good(trace[0].w) && Good(trace[|requests|].w)
      requires var s, u := trace[0].w, trace[|requests|].w;
               && f in s.t.files && s.t.files[f].status == AVAILABLE && f in u.t.files && u.t.files[f].status == AVAILABLE
               && AllPlaced(s.t) && AllPlaced(u.t)
               && f !in Broken(s.t, s.bucket, s.uploaded) && f !in Broken(u.t, u.bucket, u.uploaded)
      ensures var s, u := trace[0].w, trace[|requests|].w;
              var before, after := KeyOf(s.t, s.bucket.prefix, f), KeyOf(u.t, u.bucket.prefix, f);
              before in s.bucket.objects && after in u.bucket.objects && u.bucket.objects[after] == s.bucket.objects[before]
    {
      OkParts(trace[0].w.t, trace[0].w.next);
      hide Served, Good, KeyFor;
      TraceKeepsUploads(requests, trace, |requests|, f);
    }

    /** What deleting a version leaks while storage calls succeed: nothing if its files could be listed, and otherwise every object they have. */
    lemma VersionDeleteLeaksIff(s: Snapshot, v: Id)
      requires Good(s.w) && AllPlaced(s.w.t) && !db.outages(s.statements + 1)
      requires forall i :: s.w.calls <= i < s.w.calls + |FilesInOrder(s.w.t, {v})| ==> store.faults(i) == Fine
      ensures var u := VersionErased(s, v);
              && AllPlaced(u.w.t)
              && Leaks(u.w.t, u.w.bucket) == Leaks(s.w.t, s.w.bucket) + (if db.outages(s.statements) then HeldObjects(s.w, v) else {})
              && (Leaks(u.w.t, u.w.bucket) == Leaks(s.w.t, s.w.bucket) <==> !db.outages(s.statements) || HeldObjects(s.w, v) == {})
    {
      hide Good, Leaks, FilesInOrder, AfterSweep, FailedKeys, HeldObjects, Key, KeyFor, Survives, Keys, AllPlaced, Tables.DropVersions, Tables.FilesOf;
      DropsSurvive(s.w.t, {v});
      SurvivorsKeepPaths(s.w.t, s.w.t.DropVersions({v}));
      if db.outages(s.statements) {
        RowsGoneExactly(s.w, v);
      } else {
        AllSweptExactly(s.w, v, store.faults);
      }
      HeldIsNotLeaked(s.w, v);
    }

    /** One AVAILABLE file, its listing failed: its object is left behind although no storage call was made. */
    lemma UnlistedFileLeaks(prefix: string)
      requires db.outages(0) && !db.outages(1)
      ensures var s := Snapshot(OneFile(prefix), 0, {}, {});
              && Good(s.w) && AllPlaced(s.w.t) && s.w.t.files[3].status == AVAILABLE && Leaks(s.w.t, s.w.bucket) == {}
              && var u := VersionErased(s, 2);
                 AllPlaced(u.w.t) && u.w.calls == 0 && Leaks(u.w.t, u.w.bucket) == {KeyOf(s.w.t, prefix, 3)}
    {
      hide Key, FileStoragePath;
      OneFileIsGood(prefix);
      hide OneFile, Good, HeldObjects, Leaks;
      var s := Snapshot(OneFile(prefix), 0, {}, {});
      VersionDeleteLeaksUnlisted(s, 2);
    }

    lemma VersionDeleteLeaksUnlisted(s: Snapshot, v: Id)
      requires Good(s.w) && AllPlaced(s.w.t) && db.outages(s.statements) && !db.outages(s.statements + 1)
      ensures var u := VersionErased(s, v);
              && AllPlaced(u.w.t) && u.w.calls == s.w.calls
              && Leaks(u.w.t, u.w.bucket) == Leaks(s.w.t, s.w.bucket) + HeldObjects(s.w, v)
    {
      hide Good, Leaks, FilesInOrder, HeldObjects, Key, KeyFor, Survives, Keys, AllPlaced, Tables.DropVersions, Tables.FilesOf;
      DropsSurvive(s.w.t, {v});
      SurvivorsKeepPaths(s.w.t, s.w.t.DropVersions({v}));
      RowsGoneExactly(s.w, v);
    }

    lemma ValidBounds()
      requires Valid()
      ensures Sane() && Leaked() <= store.failedDeletes + unlisted && Missing() <= erased
    {
      hide Sane;
    }
  }
}
