/** What the handlers share: the state they change, and what lookups, sweeps and row changes mean for it. */
module RegistryFacts {
  import opened Wrappers
  import opened SemVer
  import opened Schema
  import opened Statistics
  import opened StoragePaths
  import opened StoredObjects
  import opened Cleanup
  import opened VersionQuery
  import opened BulkDelete
  import opened Storage

  /** All that requests change: rows, objects and failed calls, the number of statements, and the two exceptions of the invariant. */
  datatype Snapshot = Snapshot(w: World, statements: nat, erased: set<Id>, unlisted: set<string>)

  predicate VersionAt(t: Tables, v: Id, artifact: Id, sv: Semver) {
    v in t.versions && t.versions[v].artifact == artifact && t.versions[v].sv == sv
  }

  predicate FileAt(t: Tables, f: Id, artifact: Id, sv: Semver) {
    f in t.files && VersionAt(t, t.files[f].version, artifact, sv)
  }

  /** The version with these coordinates. */
  ghost function Found(t: Tables, artifact: Id, sv: Semver): (v: Option<Id>)
    ensures v.Some? ==> VersionAt(t, v.value, artifact, sv)
    ensures v.None? ==> forall x :: !VersionAt(t, x, artifact, sv)
  {
    if x :| VersionAt(t, x, artifact, sv) then Some(x) else None
  }

  /** Every row but that of file f, every object but the one at this path, and the uploaded bytes of every other file are as they were. */
  ghost predicate OnlyFileTouched(s: Snapshot, u: Snapshot, f: Id, path: string) {
    && (u.w.t == s.w.t || (f in u.w.t.files && u.w.t == s.w.t.PutFile(f, u.w.t.files[f])))
    && u.w.bucket.DiffersAt(s.w.bucket, Key(s.w.bucket.prefix, path))
    && u.w.uploaded - {f} == s.w.uploaded - {f}
    && s.w.failed <= u.w.failed <= s.w.failed + {Key(s.w.bucket.prefix, path)}
    && u.erased == s.erased && u.unlisted == s.unlisted
  }

  ghost predicate SomeOutage(outages: nat -> bool, statements: nat) {
    exists i :: 0 <= i < statements && outages(i)
  }

  lemma ArtifactFilesListed(t: Tables, artifacts: set<Id>, refs: seq<FileRef>)
    requires AllPlaced(t)
    requires forall r :: r in refs ==> Placed(t, r.id) && t.files[r.id].version in t.VersionsOf(artifacts) && r == RefOf(t, r.id)
    requires forall f :: f in t.files && t.files[f].version in t.VersionsOf(artifacts) ==> RefOf(t, f) in refs
    ensures ListsTheGone(t, t.DropArtifacts(artifacts), refs)
  {
  }

  lemma FilesListed(t: Tables, files: set<Id>, refs: seq<FileRef>)
    requires AllPlaced(t)
    requires forall r :: r in refs ==> Placed(t, r.id) && r.id in files && r == RefOf(t, r.id)
    requires forall f :: f in t.files && f in files ==> RefOf(t, f) in refs
    ensures ListsTheGone(t, t.DropFiles(files), refs)
  {
  }

  lemma NoFilesBelow(t: Tables, gone: set<Id>)
    requires AllPlaced(t) && forall a :: a in gone ==> !t.ArtifactHasFiles(a)
    ensures t.DropArtifacts(gone).files == t.files
    ensures forall f :: f in t.files ==> t.files[f].version in t.DropArtifacts(gone).versions
    ensures forall v :: v in t.DropArtifacts(gone).versions ==> v in t.versions && t.DropArtifacts(gone).versions[v] == t.versions[v]
    ensures forall v :: v in t.versions && t.HasFiles(v) ==> v in t.DropArtifacts(gone).versions
  {
    forall f | f in t.files ensures t.versions[t.files[f].version].artifact !in gone {
      assert Placed(t, f) && t.HasFiles(t.files[f].version);
    }
    assert t.DropArtifacts(gone).files == t.files;
  }

  lemma CleanedArtifactsHaveNoFiles(t: Tables, cutoff: int, tag: string)
    ensures forall a :: a in WithoutTag(t, ArtifactsWithoutFiles(t, cutoff), tag) ==> !t.ArtifactHasFiles(a)
    ensures forall a :: a in WithoutTag(t, EmptyArtifacts(t, cutoff), tag) ==> !t.ArtifactHasFiles(a)
  {
  }

  lemma OnlyTheDropped(t: Tables, files: set<Id>)
    ensures t.files.Keys - t.DropFiles(files).files.Keys <= files
  {
  }

  lemma DroppedFiles(t: Tables, v: Id)
    ensures t.files.Keys - t.DropVersions({v}).files.Keys <= t.FilesOf(v)
  {
  }

  /** One of these statements fails. */
  ghost predicate Interrupted(outages: nat -> bool, from: nat, to: nat) {
    exists i :: from <= i < to && outages(i)
  }

  lemma NothingInBetween(outages: nat -> bool, i: nat)
    ensures !Interrupted(outages, i, i)
  {
  }

  lemma Uninterrupted(outages: nat -> bool, i: nat)
    requires !outages(i)
    ensures forall to :: Interrupted(outages, i, to) <==> Interrupted(outages, i + 1, to)
  {
  }

  lemma StillExcused(erased: set<Id>, unlisted: set<string>, outages: nat -> bool, before: nat, after: nat)
    requires before <= after && (erased != {} || unlisted != {} ==> SomeOutage(outages, before))
    ensures erased != {} || unlisted != {} ==> SomeOutage(outages, after)
  {
    if SomeOutage(outages, before) {
      var i :| 0 <= i < before && outages(i);
      assert 0 <= i < after && outages(i);
    }
  }

  lemma OutageSeen(outages: nat -> bool, i: nat)
    requires outages(i)
    ensures SomeOutage(outages, i + 1)
  {
  }

  lemma FiledIsCanonical(t: Tables, prefix: string)
    requires Filed(t, prefix)
    ensures Canonical(t)
  {
  }

  /** What the lookup finds is the one version with these coordinates. */
  lemma FoundIs(t: Tables, artifact: Id, sv: Semver, found: Option<Id>)
    requires UniqueVersions(t.versions)
    requires found.Some? ==> VersionAt(t, found.value, artifact, sv)
    requires found.None? ==> forall w :: w in t.versions ==> t.versions[w].artifact != artifact || t.versions[w].sv != sv
    ensures Found(t, artifact, sv) == found
    ensures forall w: Id :: VersionAt(t, w, artifact, sv) ==> found == Some(w)
  {
  }

  lemma NoArtifactNoVersions(w: World, a: Id)
    requires Good(w) && a !in w.t.artifacts
    ensures forall v :: v in w.t.versions ==> w.t.versions[v].artifact != a
  {
    hide Filed;
  }

  lemma GoodIsPlaced(w: World)
    requires Good(w)
    ensures AllPlaced(w.t)
  {
    hide Tables.Ok, PlainNames;
  }

  lemma OneFileListed(t: Tables, f: Id)
    requires Canonical(t) && f in t.files
    ensures Survives(t, t.DropFiles({f})) && ListsTheGone(t, t.DropFiles({f}), [RefOf(t, f)])
  {
  }

  lemma OneFileSwept(t: Tables, f: Id, b: Bucket, faults: Faults, call: nat)
    requires Canonical(t) && f in t.files
    ensures AfterSweep(b, [RefOf(t, f)], faults, call) == AfterDelete(b, PathOf(t, f), faults(call))
    ensures FailedKeys(b.prefix, [RefOf(t, f)], faults, call) == if faults(call) == Fine then {} else {KeyOf(t, b.prefix, f)}
  {
    hide Key, FileStoragePath;
    var refs := [RefOf(t, f)];
    ObjectPathIsCanonical(t, f);
    assert refs[..0] == [];
    assert AfterSweep(b, refs[..0], faults, call) == b;
    OneMoreFailure(b.prefix, [], RefOf(t, f), faults, call);
    NoFaultNoFailure(b.prefix, [], faults, call);
    assert [] + refs == refs;
  }

  /** Rows and objects settled together: nothing else breaks, and only failed calls leak. */
  lemma SweepSettles(t: Tables, u: Tables, b: Bucket, uploaded: map<Id, Bytes>, refs: seq<FileRef>, faults: Faults, call: nat)
    requires Filed(t, b.prefix) && Survives(t, u) && ListsTheGone(t, u, refs)
    ensures var after := AfterSweep(b, refs, faults, call);
            && Filed(u, b.prefix)
            && Broken(u, after, uploaded) <= Broken(t, b, uploaded)
            && Leaks(u, after) <= Leaks(t, b) + FailedKeys(b.prefix, refs, faults, call)
            && Broken(t, after, uploaded) <= Broken(t, b, uploaded) + (t.files.Keys - u.files.Keys)
            && Leaks(t, after) <= Leaks(t, b)
  {
    ObjectKeysAreKeys(t, b.prefix, refs);
    hide Key, FileStoragePath, Plain, Swept, AfterSweep, FailedKeys, Survives, ListsTheGone, Canonical, PlainNames, Leaks, Broken;
    var after, failed := AfterSweep(b, refs, faults, call), FailedKeys(b.prefix, refs, faults, call);
    SweepIsSwept(b, refs, faults, call);
    RowsAndObjectsGone(t, u, b, after, uploaded, refs, failed);
    ObjectsGoneFirst(t, u, b, after, uploaded, refs, failed);
  }

  lemma NothingSwept(t: Tables, u: Tables, b: Bucket, uploaded: map<Id, Bytes>, refs: seq<FileRef>)
    requires Filed(t, b.prefix) && Survives(t, u) && ListsTheGone(t, u, refs)
    ensures Filed(u, b.prefix)
    ensures Broken(u, b, uploaded) <= Broken(t, b, uploaded) && Leaks(u, b) <= Leaks(t, b) + Keys(b.prefix, refs)
  {
    RowsGone(t, u, b, uploaded);
    hide Key, FileStoragePath, Plain;
    forall f | f in t.files && f !in u.files ensures KeyOf(t, b.prefix, f) in Keys(b.prefix, refs) {
      assert RefOf(t, f) in refs;
    }
  }

  /** A bulk delete alone, seen from the handlers: a refusal and a dry run change nothing, and a delete is the rows and their sweep. */
  lemma AloneCases(w: World, wanted: Selection, dryRun: bool, outages: nat -> bool, statement: nat, faults: Faults)
    requires Good(w) && Listable(w) && Fair(Nobody) && !wanted.deletableOnly
    ensures var (after, reply) := BulkOutcome(w, wanted, dryRun, Nobody, outages, statement, faults);
            var gone := Deletable(w.t, RightBytes(w.t), wanted);
            && (reply.None? || dryRun ==> after == w)
            && (reply.Some? && !dryRun ==> after == AfterAll(w, FilesInOrder(w.t, gone), faults).(t := w.t.DropVersions(gone)))
            && reply == if Stopped(outages, statement, dryRun || gone == {}) then None
                        else Some(Answer(AllRows(w.t, RightBytes(w.t), wanted), gone, dryRun))
  {
    var gone := Deletable(w.t, RightBytes(w.t), wanted);
    hide Good, Fair, Listable, BulkOutcome, Deletable, AfterAll, AfterSweep, FilesInOrder, Tables.DropVersions, RightBytes,
         AllRows, Answer, Outcome;
    OutcomeCases(w, wanted, dryRun, Nobody, outages, statement, faults);
    OutcomeAlone(w, wanted, outages, statement + 1, faults);
    NothingToSweep(w, gone, faults);
  }

  /** Whether a bulk delete is stopped by one of its statements: the listing, and unless that is all the transaction. */
  predicate Stopped(outages: nat -> bool, statement: nat, listingOnly: bool) {
    outages(statement) || (!listingOnly && (outages(statement + 1) || outages(statement + 2)))
  }

  lemma OutcomeAlone(w: World, wanted: Selection, outages: nat -> bool, statement: nat, faults: Faults)
    requires Good(w) && Listable(w) && Fair(Nobody)
    ensures var gone := Deletable(w.t, RightBytes(w.t), wanted);
            var (after, deleted) := Outcome(w, gone, wanted.protectedTag, Nobody, outages, statement, faults);
            if outages(statement) || outages(statement + 1) then deleted.None? && after == w
            else deleted == Some(gone) && after == AfterAll(w, FilesInOrder(w.t, gone), faults).(t := w.t.DropVersions(gone))
  {
    hide Good, Fair, Listable, Deletable, Final, AfterAll, AfterSweep, FilesInOrder, Tables.DropVersions, RightBytes, Unspared;
    AloneOutcome(w, wanted, faults);
  }

  /** So nothing breaks, and only failed calls leak. */
  lemma AloneSettles(w: World, wanted: Selection, dryRun: bool, outages: nat -> bool, statement: nat, faults: Faults)
    requires Good(w) && Listable(w) && Fair(Nobody) && !wanted.deletableOnly
    ensures var after := BulkOutcome(w, wanted, dryRun, Nobody, outages, statement, faults).0;
            && after.bucket.prefix == w.bucket.prefix && after.uploaded == w.uploaded && AllPlaced(after.t)
            && Broken(after.t, after.bucket, after.uploaded) <= Broken(w.t, w.bucket, w.uploaded)
            && Leaks(after.t, after.bucket) <= Leaks(w.t, w.bucket) + after.failed
            && w.failed <= after.failed
  {
    GoodIsPlaced(w);
    var gone := Deletable(w.t, RightBytes(w.t), wanted);
    hide Good, Fair, Listable, BulkOutcome, Deletable, AfterSweep, Broken, Leaks, FilesInOrder, Tables.DropVersions, RightBytes,
         FailedKeys, AllPlaced;
    AloneCases(w, wanted, dryRun, outages, statement, faults);
    AloneSwept(w, gone, faults);
  }

  lemma HeadIsIn(refs: seq<FileRef>)
    ensures refs == [] || refs[0] in refs
  {
  }

  lemma NothingToSweep(w: World, gone: set<Id>, faults: Faults)
    requires Good(w)
    ensures gone == {} ==> AfterAll(w, FilesInOrder(w.t, gone), faults).(t := w.t.DropVersions(gone)) == w
  {
    hide Key, FileStoragePath;
    if gone == {} {
      assert w.t.DropVersions(gone) == w.t;
      var refs := FilesInOrder(w.t, gone);
      HeadIsIn(refs);
      NoFaultNoFailure(w.bucket.prefix, refs, faults, w.calls);
    }
  }

  lemma AloneSwept(w: World, gone: set<Id>, faults: Faults)
    requires Good(w)
    ensures var after := AfterAll(w, FilesInOrder(w.t, gone), faults).(t := w.t.DropVersions(gone));
            && AllPlaced(after.t) && after.bucket.prefix == w.bucket.prefix
            && Broken(after.t, after.bucket, after.uploaded) <= Broken(w.t, w.bucket, w.uploaded)
            && Leaks(after.t, after.bucket) <= Leaks(w.t, w.bucket) + after.failed
  {
    hide Key, FileStoragePath, Plain, Tables.Ok, Broken, Leaks, AfterSweep, FailedKeys, Survives, ListsTheGone;
    FiledIsCanonical(w.t, w.bucket.prefix);
    CanonicalIsPlaced(w.t);
    var refs, u := FilesInOrder(w.t, gone), w.t.DropVersions(gone);
    DropsSurvive(w.t, gone);
    VersionFilesListed(w.t, gone, refs);
    SweepSettles(w.t, u, w.bucket, w.uploaded, refs, faults, w.calls);
    FiledIsCanonical(u, w.bucket.prefix);
    CanonicalIsPlaced(u);
  }

  lemma FiledIsPlaced(t: Tables, prefix: string, f: Id)
    requires Filed(t, prefix) && f in t.files
    ensures AllPlaced(t) && Placed(t, f) && Plain(prefix, t.files[f].name)
  {
    hide Plain;
  }

  lemma StoreDiffersAt(b: Bucket, path: string, data: Bytes, fault: Fault)
    ensures AfterStore(b, path, data, fault).DiffersAt(b, Key(b.prefix, path))
    ensures fault == Fine ==> AfterStore(b, path, data, fault) == b.Put(path, data)
    ensures var key := Key(b.prefix, path); key in b.Put(path, data).objects && b.Put(path, data).objects[key] == data
  {
    hide Key;
  }

  lemma DiffersAtTwice(b: Bucket, c: Bucket, d: Bucket, key: string)
    ensures c.DiffersAt(b, key) ==> c.prefix == b.prefix
    ensures c.DiffersAt(b, key) && d.DiffersAt(c, key) ==> d.DiffersAt(b, key)
  {
  }

  lemma DeleteDiffersAt(b: Bucket, path: string, fault: Fault)
    ensures AfterDelete(b, path, fault).DiffersAt(b, Key(b.prefix, path))
  {
    hide Key;
  }

  lemma NewRow(t: Tables, f: Id, v: Id, name: string, created: int, b: Bucket, uploaded: map<Id, Bytes>)
    requires Filed(t, b.prefix) && v in t.versions && f !in t.files && Plain(b.prefix, name)
    ensures var u := t.PutFile(f, NewFile(v, name, created));
            && Filed(u, b.prefix)
            && PathOf(u, f) == FileStoragePath(t.versions[v].artifact, t.versions[v].sv, f, name)
            && Leaks(u, b) <= Leaks(t, b) && Broken(u, b, uploaded) <= Broken(t, b, uploaded)
  {
    hide FileStoragePath, Key, Plain;
    RowPut(t, f, NewFile(v, name, created), b, uploaded);
  }

  /** Only the row of file f changed, and of it neither version nor name; it is AVAILABLE exactly when the upload is done. */
  ghost predicate RowSettled(t: Tables, u: Tables, f: Id, done: bool) {
    && f in t.files && f in u.files && u == t.PutFile(f, u.files[f])
    && u.files[f].version == t.files[f].version && u.files[f].name == t.files[f].name
    && (done <==> u.files[f].status == AVAILABLE)
  }

  lemma NewRowSettled(t: Tables, u: Tables, w: Tables, f: Id, v: VersionRow, version: Id, name: string, done: bool)
    requires f in u.files && u == t.PutFile(f, u.files[f]) && f !in t.files && RowSettled(u, w, f, done)
    requires version in t.versions && t.versions[version] == v && u.files[f].version == version && u.files[f].name == name
    ensures f in w.files && w == t.PutFile(f, w.files[f]) && w != t && (done <==> w.files[f].status == AVAILABLE)
    ensures Placed(w, f) && RefOf(w, f) == FileRef(f, w.files[f], v.artifact, v.sv) && w.files[f].name == name
  {
  }

  lemma IncompleteIsNotMissing(t: Tables, f: Id, b: Bucket, uploaded: map<Id, Bytes>)
    requires AllPlaced(t) && f in t.files && t.files[f].status != AVAILABLE
    ensures f !in Broken(t, b, uploaded)
  {
  }

  /** A change that leaves every file row, and its version's coordinates, changes nothing about objects. */
  lemma FilesAsBefore(t: Tables, u: Tables, b: Bucket, uploaded: map<Id, Bytes>)
    requires Filed(t, b.prefix) && u.files == t.files
    requires forall v :: v in t.versions && t.HasFiles(v) ==> v in u.versions && u.versions[v] == t.versions[v]
    ensures Filed(u, b.prefix) && AllPlaced(t) && Leaks(u, b) <= Leaks(t, b) && Broken(u, b, uploaded) <= Broken(t, b, uploaded)
  {
    hide Key, FileStoragePath, Plain;
    assert Survives(t, u);
    RowsGone(t, u, b, uploaded);
  }

  lemma VersionTaken(t: Tables, artifact: Id, sv: Semver)
    requires artifact in t.artifacts && !t.AcceptsVersion(artifact, sv)
    ensures exists v :: v in t.versions && t.versions[v] == VersionRow(artifact, sv, t.versions[v].created)
  {
    var v :| v in t.versions && t.versions[v].artifact == artifact && t.versions[v].sv == sv;
    assert t.versions[v] == VersionRow(artifact, sv, t.versions[v].created);
  }

  lemma NoTagsYet(t: Tables, artifact: Id, names: seq<string>, v: Id)
    requires v in t.versions
    ensures t.TagAll(artifact, names[..0], v) == t
  {
  }

  lemma OneMoreTag(t: Tables, artifact: Id, names: seq<string>, v: Id, i: nat)
    requires v in t.versions && i < |names|
    ensures var u := t.TagAll(artifact, names[..i], v);
            u.versions == t.versions && t.TagAll(artifact, names[..i + 1], v) == u.PutTag(artifact, names[i], v)
  {
    TagAllTags(t, artifact, names[..i], v);
    assert names[..i + 1][..i] == names[..i];
  }

  lemma NextIsUnused(t: Tables, next: nat)
    requires t.Ok(next)
    ensures next !in t.versions && next !in t.artifacts
  {
  }

  lemma VersionAndTags(t: Tables, u: Tables, v: Id, b: Bucket, uploaded: map<Id, Bytes>)
    requires Filed(t, b.prefix) && v !in t.versions && v in u.versions && u.files == t.files && u.versions == t.versions[v := u.versions[v]]
    ensures Filed(u, b.prefix) && AllPlaced(t) && Leaks(u, b) <= Leaks(t, b) && Broken(u, b, uploaded) <= Broken(t, b, uploaded)
  {
    hide Filed, Leaks, Broken;
    FilesAsBefore(t, u, b, uploaded);
  }

  lemma FilelessVersionsGone(t: Tables, gone: set<Id>)
    requires forall v :: v in gone ==> !t.HasFiles(v)
    ensures var u := t.DropVersions(gone);
            u.files == t.files && forall v :: v in t.versions && t.HasFiles(v) ==> v in u.versions && u.versions[v] == t.versions[v]
  {
    forall f | f in t.files ensures t.files[f].version !in gone { assert t.HasFiles(t.files[f].version); }
    assert t.DropVersions(gone).files == t.files;
  }

  lemma OthersKept(before: map<Id, Bytes>, after: map<Id, Bytes>, next: Id, f: Id)
    requires after - {next} == before - {next} && f != next
    ensures (f in after <==> f in before) && (f in before ==> after[f] == before[f])
  {
    assert f in after <==> f in after - {next};
    assert f in before <==> f in before - {next};
  }

  /** The keys of the objects the files of version v have. */
  ghost function HeldObjects(w: World, v: Id): set<string>
    requires AllPlaced(w.t)
  {
    set f | f in w.t.FilesOf(v) && KeyOf(w.t, w.bucket.prefix, f) in w.bucket.objects :: KeyOf(w.t, w.bucket.prefix, f)
  }

  lemma HeldIsNotLeaked(w: World, v: Id)
    requires Good(w) && AllPlaced(w.t)
    ensures HeldObjects(w, v) !! Leaks(w.t, w.bucket)
  {
    hide Tables.Ok, Filed, KeyFor;
  }

  /** Rows gone, every object as it was: what leaks are the objects of exactly those rows. */
  lemma LeaksOfSurvivors(t: Tables, u: Tables, b: Bucket)
    requires AllPlaced(t) && AllPlaced(u) && u.files.Keys <= t.files.Keys
    requires forall f :: f in u.files ==> KeyOf(u, b.prefix, f) == KeyOf(t, b.prefix, f)
    requires forall f, g :: f in t.files && g in t.files && KeyOf(t, b.prefix, f) == KeyOf(t, b.prefix, g) ==> f == g
    ensures Leaks(u, b) ==
            Leaks(t, b) + set f | f in t.files && f !in u.files && KeyOf(t, b.prefix, f) in b.objects :: KeyOf(t, b.prefix, f)
  {
    hide KeyOf, Placed;
  }

  lemma KeysApart(t: Tables, prefix: string)
    requires Filed(t, prefix)
    ensures AllPlaced(t) && forall f, g :: f in t.files && g in t.files && KeyOf(t, prefix, f) == KeyOf(t, prefix, g) ==> f == g
  {
    hide Key, FileStoragePath, Plain;
    forall f, g | f in t.files && g in t.files && KeyOf(t, prefix, f) == KeyOf(t, prefix, g) ensures f == g {
      KeyOfRow(t, prefix, f, RefOf(t, g));
    }
  }

  lemma RowsGoneExactly(w: World, v: Id)
    requires Good(w) && AllPlaced(w.t) && AllPlaced(w.t.DropVersions({v}))
    ensures Leaks(w.t.DropVersions({v}), w.bucket) == Leaks(w.t, w.bucket) + HeldObjects(w, v)
  {
    hide Key, KeyFor, FileStoragePath, Plain, Tables.Ok, Filed, Leaks, Survives;
    var u := w.t.DropVersions({v});
    DropsSurvive(w.t, {v});
    SurvivorsKeepPaths(w.t, u);
    KeysApart(w.t, w.bucket.prefix);
    forall f | f in u.files ensures KeyOf(u, w.bucket.prefix, f) == KeyOf(w.t, w.bucket.prefix, f) {}
    LeaksOfSurvivors(w.t, u, w.bucket);
    forall f | f in w.t.files ensures f in w.t.FilesOf(v) <==> f !in u.files {}
  }

  lemma AllSweptExactly(w: World, v: Id, faults: Faults)
    requires Good(w) && AllPlaced(w.t) && AllPlaced(w.t.DropVersions({v}))
    requires forall i :: w.calls <= i < w.calls + |FilesInOrder(w.t, {v})| ==> faults(i) == Fine
    ensures Leaks(w.t.DropVersions({v}), AfterAll(w, FilesInOrder(w.t, {v}), faults).bucket) == Leaks(w.t, w.bucket)
  {
    hide Key, FileStoragePath, Plain, Tables.Ok, AllPlaced, Survives, ListsTheGone, Leaks, Broken, FailedKeys, Swept, Canonical, PlainNames;
    var u, refs, prefix := w.t.DropVersions({v}), FilesInOrder(w.t, {v}), w.bucket.prefix;
    hide Tables.DropVersions, FilesInOrder, AfterSweep;
    var after := AfterSweep(w.bucket, refs, faults, w.calls);
    DropsSurvive(w.t, {v});
    SurvivorsKeepPaths(w.t, u);
    VersionFilesListed(w.t, {v}, refs);
    NoFaultNoFailure(prefix, refs, faults, w.calls);
    SweepIsSwept(w.bucket, refs, faults, w.calls);
    ObjectKeysAreKeys(w.t, prefix, refs);
    SweepSettles(w.t, u, w.bucket, w.uploaded, refs, faults, w.calls);
    SweptLeaksStay(w.t, u, w.bucket, after, refs);
  }

  /** Sweeping the objects of live rows removes no leak. */
  lemma SweptLeaksStay(t: Tables, u: Tables, before: Bucket, after: Bucket, refs: seq<FileRef>)
    requires AllPlaced(t) && AllPlaced(u) && Swept(before, after, Keys(before.prefix, refs), {})
    requires forall f :: f in u.files ==> f in t.files && RefOf(u, f) == RefOf(t, f)
    requires forall r :: r in refs ==> Placed(t, r.id) && r == RefOf(t, r.id)
    ensures Leaks(t, before) <= Leaks(u, after)
  {
    hide KeyFor;
    forall k | k in Leaks(t, before) ensures k in Leaks(u, after) {
      assert k !in Keys(before.prefix, refs) by {
        forall r | r in refs ensures KeyFor(before.prefix, r) != k { assert KeyOf(t, before.prefix, r.id) == KeyFor(before.prefix, r); }
      }
      forall f | f in u.files ensures KeyOf(u, before.prefix, f) != k { assert KeyOf(u, before.prefix, f) == KeyOf(t, before.prefix, f); }
    }
  }

  /** Artifact 1, its version 2 and that version's uploaded, empty file 3. */
  function OneFile(prefix: string): World {
    var path := FileStoragePath(1, Semver(1, 0, 0), 3, "a");
    World(Tables(map[1 := ArtifactRow("a", 0)], map[2 := VersionRow(1, Semver(1, 0, 0), 0)],
                 map[3 := FileRow(2, "a", AVAILABLE, Some(0), path, 0)], map[], map[], {}),
          4, Bucket(prefix, map[]).Put(path, []), map[3 := []], 0, {})
  }

  lemma OneFileIsGood(prefix: string)
    ensures var w := OneFile(prefix);
            && Good(w) && AllPlaced(w.t) && w.t.files[3].status == AVAILABLE
            && Leaks(w.t, w.bucket) == {} && HeldObjects(w, 2) == {KeyOf(w.t, prefix, 3)} && w.calls == 0
  {
    hide Key, FileStoragePath;
    var w := OneFile(prefix);
    assert Placed(w.t, 3) && PathOf(w.t, 3) == w.t.files[3].path;
    assert w.t.FilesOf(2) == {3};
  }

  /** File rows deleted and their objects swept: the objects of all other rows are as they were, and of these only failed calls leave one. */
  lemma FilesAndObjectsGone(w: World, gone: set<Id>, faults: Faults)
    requires Good(w) && AllPlaced(w.t) && gone <= w.t.files.Keys
    ensures var u := AfterAll(w, RowsInOrder(w.t, gone), faults);
            var before, after := w.bucket.objects, u.bucket.objects;
            && (forall f :: f in w.t.files && f !in gone ==>
                  var key := KeyOf(w.t, w.bucket.prefix, f); (key in after <==> key in before) && (key in before ==> after[key] == before[key]))
            && (forall f :: f in gone && KeyOf(w.t, w.bucket.prefix, f) in after ==> KeyOf(w.t, w.bucket.prefix, f) in u.failed)
  {
    hide Tables.Ok, FileStoragePath, Survives, ListsTheGone, AfterSweep, FailedKeys, RowsInOrder, Key, CanonicalPath, Plain;
    var t, prefix := w.t, w.bucket.prefix;
    var refs, u := RowsInOrder(t, gone), t.DropFiles(gone);
    var after := AfterSweep(w.bucket, refs, faults, w.calls);
    FilesListed(t, gone, refs);
    DropsSurvive(t, gone);
    SurvivorsKeepPaths(t, u);
    ObjectKeysAreKeys(t, prefix, refs);
    SweepIsSwept(w.bucket, refs, faults, w.calls);
    hide Filed, KeyFor;
    forall f | f in t.files && f !in gone ensures KeyOf(t, prefix, f) !in Keys(prefix, refs) {
      assert f in u.files;
      SurvivorsAreNotListed(t, u, prefix, refs, f);
    }
    forall f | f in gone ensures KeyOf(t, prefix, f) in Keys(prefix, refs) {
      assert RefOf(t, f) in refs;
    }
    KeptAndFailed(w.bucket, after, Keys(prefix, refs), FailedKeys(prefix, refs, faults, w.calls));
  }

  lemma KeptAndFailed(before: Bucket, after: Bucket, keys: set<string>, failed: set<string>)
    requires Swept(before, after, keys, failed)
    ensures forall key :: key !in keys ==> (key in after.objects <==> key in before.objects) && (key in before.objects ==> after.objects[key] == before.objects[key])
    ensures forall key :: key in keys && key in after.objects ==> key in failed
  {
  }
}
