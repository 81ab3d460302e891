/** What the file rows say about the object store: canonical paths and keys, leaked objects and rows whose object is gone. */
module StoredObjects {
  import opened Wrappers
  import opened SemVer
  import opened Schema
  import opened StoragePaths

  type Bytes = seq<bv8>

  /** The objects of a bucket by key, and the prefix under which the registry keeps its own. */
  datatype Bucket = Bucket(prefix: string, objects: map<string, Bytes>) {
    function Put(path: string, data: Bytes): Bucket {
      this.(objects := objects[Key(prefix, path) := data])
    }

    function Remove(path: string): Bucket {
      this.(objects := objects - {Key(prefix, path)})
    }

    /** The same bucket apart from the object at one key. */
    ghost predicate DiffersAt(that: Bucket, key: string) {
      prefix == that.prefix && objects - {key} == that.objects - {key}
    }
  }

  /** A file row with its version coordinates, as the listing queries return it. */
  datatype FileRef = FileRef(id: Id, row: FileRow, artifact: Id, sv: Semver)

  predicate Placed(t: Tables, f: Id) {
    f in t.files && t.files[f].version in t.versions
  }

  function RefOf(t: Tables, f: Id): FileRef
    requires Placed(t, f)
  {
    var v := t.versions[t.files[f].version];
    FileRef(f, t.files[f], v.artifact, v.sv)
  }

  function CanonicalPath(r: FileRef): string {
    FileStoragePath(r.artifact, r.sv, r.id, r.row.name)
  }

  /** fileObjectPath: only AVAILABLE rows carry their real path. */
  function FileObjectPath(r: FileRef): string {
    if r.row.status == AVAILABLE then r.row.path else CanonicalPath(r)
  }

  function PathOf(t: Tables, f: Id): string
    requires Placed(t, f)
  {
    CanonicalPath(RefOf(t, f))
  }

  /** Where in the bucket the object of a file belongs. */
  function KeyFor(prefix: string, r: FileRef): string {
    Key(prefix, CanonicalPath(r))
  }

  function KeyOf(t: Tables, prefix: string, f: Id): string
    requires Placed(t, f)
  {
    KeyFor(prefix, RefOf(t, f))
  }

  ghost predicate AllPlaced(t: Tables) {
    forall f :: f in t.files ==> Placed(t, f)
  }

  /** Every AVAILABLE row stores the canonical path of its coordinates, id and name. */
  ghost predicate Canonical(t: Tables) {
    AllPlaced(t) && forall f :: f in t.files && t.files[f].status == AVAILABLE ==> t.files[f].path == PathOf(t, f)
  }

  /** No file has a name whose object another's could be taken for. */
  ghost predicate PlainNames(t: Tables, prefix: string) {
    forall f :: f in t.files ==> Plain(prefix, t.files[f].name)
  }

  ghost predicate Filed(t: Tables, prefix: string) {
    Canonical(t) && PlainNames(t, prefix)
  }

  lemma CanonicalIsPlaced(t: Tables)
    requires Canonical(t)
    ensures AllPlaced(t)
  {
  }

  lemma RowIsPlaced(t: Tables, f: Id)
    requires Canonical(t) && f in t.files
    ensures Placed(t, f)
  {
  }

  /** So whatever its status, a row's object is looked for under the canonical path. */
  lemma ObjectPathIsCanonical(t: Tables, f: Id)
    requires Canonical(t) && f in t.files
    ensures FileObjectPath(RefOf(t, f)) == PathOf(t, f)
  {
  }

  /** A path names one file, in this or any other state of the tables, whatever the names. */
  lemma PathDeterminesFile(t: Tables, f: Id, u: Tables, g: Id)
    requires Placed(t, f) && Placed(u, g) && PathOf(t, f) == PathOf(u, g)
    ensures f == g
  {
    var r, q := RefOf(t, f), RefOf(u, g);
    FileStoragePathInjective(r.artifact, r.sv, r.id, r.row.name, q.artifact, q.sv, q.id, q.row.name);
  }

  /** A key names one file as well, as long as the names are plain. */
  lemma KeyDeterminesId(prefix: string, r: FileRef, q: FileRef)
    requires Plain(prefix, r.row.name) && Plain(prefix, q.row.name) && KeyFor(prefix, r) == KeyFor(prefix, q)
    ensures r.id == q.id
  {
    hide Key, FileStoragePath, Plain;
    KeyDeterminesFile(prefix, r.artifact, r.sv, r.id, r.row.name, q.artifact, q.sv, q.id, q.row.name);
  }

  lemma KeyOfRow(t: Tables, prefix: string, f: Id, r: FileRef)
    requires Placed(t, f) && PlainNames(t, prefix) && Plain(prefix, r.row.name) && KeyOf(t, prefix, f) == KeyFor(prefix, r)
    ensures f == r.id
  {
    hide Key, FileStoragePath, Plain;
    KeyDeterminesId(prefix, RefOf(t, f), r);
  }

  ghost function Live(t: Tables, prefix: string): set<string>
    requires AllPlaced(t)
  {
    set f | f in t.files :: KeyOf(t, prefix, f)
  }

  /** The keys of objects no row accounts for. */
  ghost function Leaks(t: Tables, b: Bucket): set<string>
    requires AllPlaced(t)
  {
    b.objects.Keys - Live(t, b.prefix)
  }

  ghost predicate Holds(b: Bucket, key: string, uploaded: map<Id, Bytes>, f: Id, size: Option<int>) {
    f in uploaded && key in b.objects && b.objects[key] == uploaded[f] && size == Some(|uploaded[f]|)
  }

  /** The AVAILABLE rows whose object is missing, or not the uploaded bytes. */
  ghost function Broken(t: Tables, b: Bucket, uploaded: map<Id, Bytes>): set<Id>
    requires AllPlaced(t)
  {
    set f | f in t.files && t.files[f].status == AVAILABLE && !Holds(b, KeyOf(t, b.prefix, f), uploaded, f, t.files[f].size)
  }

  /** Where a file's object is looked for: an AVAILABLE row says it, any other has it at the path of its coordinates. */
  lemma ObjectPaths(r: FileRef)
    ensures r.row.status == AVAILABLE ==> FileObjectPath(r) == r.row.path
    ensures r.row.status in {PENDING, ERROR} ==> FileObjectPath(r) == FileStoragePath(r.artifact, r.sv, r.id, r.row.name)
  {
  }

  /** A row is broken when it is AVAILABLE and the bytes at its key, or its size, are not those of its upload; a key leaks when there is an
      object at it and it is no row's. */
  lemma BrokenAndLeaked(t: Tables, b: Bucket, uploaded: map<Id, Bytes>, f: Id, k: string)
    requires AllPlaced(t) && f in t.files
    ensures f in Broken(t, b, uploaded) <==>
            var row, v := t.files[f], t.versions[t.files[f].version];
            var key := Key(b.prefix, FileStoragePath(v.artifact, v.sv, f, row.name));
            row.status == AVAILABLE
            && (f !in uploaded || key !in b.objects || b.objects[key] != uploaded[f] || row.size != Some(|uploaded[f]|))
    ensures k in Leaks(t, b) <==> k in b.objects && forall g :: g in t.files ==> KeyOf(t, b.prefix, g) != k
  {
    hide Key, FileStoragePath;
  }

  /** Without leaks every object belongs to a live row, and to no second one. */
  lemma EveryObjectHasOneRow(t: Tables, b: Bucket, key: string)
    requires Filed(t, b.prefix) && Leaks(t, b) == {} && key in b.objects
    ensures exists f :: f in t.files && KeyOf(t, b.prefix, f) == key && forall g :: g in t.files && KeyOf(t, b.prefix, g) == key ==> g == f
  {
    hide Key, FileStoragePath, Plain;
    assert key !in Leaks(t, b);
    var f :| f in t.files && KeyOf(t, b.prefix, f) == key;
    forall g | g in t.files && KeyOf(t, b.prefix, g) == key ensures g == f { KeyOfRow(t, b.prefix, g, RefOf(t, f)); }
  }

  // ---- what each kind of change does ----

  /** The rows of u are rows of t, with the same coordinates. */
  ghost predicate Survives(t: Tables, u: Tables) {
    && (forall f :: f in u.files ==> f in t.files && u.files[f] == t.files[f])
    && (forall f :: f in u.files && t.files[f].version in t.versions ==>
          t.files[f].version in u.versions && u.versions[t.files[f].version] == t.versions[t.files[f].version])
  }

  lemma SurvivorsKeepPaths(t: Tables, u: Tables)
    requires Survives(t, u) && AllPlaced(t)
    ensures AllPlaced(u) && forall f :: f in u.files ==> RefOf(u, f) == RefOf(t, f)
    ensures Canonical(t) ==> Canonical(u)
    ensures forall prefix :: PlainNames(t, prefix) ==> PlainNames(u, prefix)
  {
    hide FileStoragePath, Plain;
    forall f | f in u.files ensures Placed(u, f) { assert Placed(t, f); }
  }

  /** Rows gone, objects as they were: nothing breaks, and what leaks are the objects of the rows that went. */
  lemma RowsGone(t: Tables, u: Tables, b: Bucket, uploaded: map<Id, Bytes>)
    requires Survives(t, u) && Filed(t, b.prefix)
    ensures Filed(u, b.prefix)
    ensures Broken(u, b, uploaded) <= Broken(t, b, uploaded) * u.files.Keys
    ensures Leaks(u, b) <= Leaks(t, b) + (set f | f in t.files && f !in u.files :: KeyOf(t, b.prefix, f))
  {
    SurvivorsKeepPaths(t, u);
    hide Survives, KeyFor, Holds, Canonical, PlainNames;
    assert forall f :: f in u.files ==> KeyOf(u, b.prefix, f) == KeyOf(t, b.prefix, f);
  }

  /** Objects gone, rows as they were: the rows they belonged to are all that can break. */
  lemma ObjectsGone(t: Tables, before: Bucket, after: Bucket, uploaded: map<Id, Bytes>)
    requires AllPlaced(t) && after.prefix == before.prefix && after.objects.Keys <= before.objects.Keys
    requires forall k :: k in after.objects ==> after.objects[k] == before.objects[k]
    ensures Leaks(t, after) <= Leaks(t, before)
    ensures Broken(t, after, uploaded) <=
            Broken(t, before, uploaded) + (set f | f in t.files && KeyOf(t, before.prefix, f) in before.objects && KeyOf(t, before.prefix, f) !in after.objects)
  {
    hide KeyFor, Placed;
  }

  /** One object written, or half written, for a row that does not claim to have one yet. */
  lemma ObjectWritten(t: Tables, before: Bucket, after: Bucket, f: Id, uploaded: map<Id, Bytes>, data: Bytes)
    requires Filed(t, before.prefix) && f in t.files && t.files[f].status != AVAILABLE
    requires after.DiffersAt(before, KeyOf(t, before.prefix, f))
    ensures Leaks(t, after) <= Leaks(t, before)
    ensures Broken(t, after, uploaded[f := data]) <= Broken(t, before, uploaded)
  {
    hide KeyFor, FileStoragePath, Plain;
    var k := KeyOf(t, before.prefix, f);
    assert k in Live(t, before.prefix);
    forall q | q in after.objects && q != k ensures q in before.objects && after.objects[q] == before.objects[q] { assert q in after.objects - {k}; }
    forall q | q in before.objects && q != k ensures q in after.objects { assert q in before.objects - {k}; }
    forall g | g in t.files && KeyOf(t, before.prefix, g) == k ensures g == f { KeyOfRow(t, before.prefix, g, RefOf(t, f)); }
  }

  /** A row inserted as PENDING, or set to a status; an AVAILABLE one must be right. */
  lemma RowPut(t: Tables, f: Id, row: FileRow, b: Bucket, uploaded: map<Id, Bytes>)
    requires Filed(t, b.prefix) && row.version in t.versions && Plain(b.prefix, row.name)
    requires f in t.files ==> t.files[f].version == row.version && t.files[f].name == row.name
    requires var r := FileRef(f, row, t.versions[row.version].artifact, t.versions[row.version].sv);
             row.status == AVAILABLE ==> row.path == CanonicalPath(r) && Holds(b, KeyFor(b.prefix, r), uploaded, f, row.size)
    ensures Filed(t.PutFile(f, row), b.prefix)
    ensures Leaks(t.PutFile(f, row), b) <= Leaks(t, b)
    ensures Broken(t.PutFile(f, row), b, uploaded) <= Broken(t, b, uploaded)
  {
    hide FileStoragePath, Key, Plain;
    var u := t.PutFile(f, row);
    assert AllPlaced(u) by {
      forall g | g in u.files ensures Placed(u, g) { assert g != f ==> Placed(t, g); }
    }
    forall g | g in t.files ensures KeyOf(u, b.prefix, g) == KeyOf(t, b.prefix, g) {}
    hide Holds;
    forall k | k in Live(t, b.prefix) ensures k in Live(u, b.prefix) {
      var g :| g in t.files && KeyOf(t, b.prefix, g) == k;
      assert g in u.files && KeyOf(u, b.prefix, g) == k;
    }
  }

  // ---- deletes, as the handlers see them ----

  lemma DropsSurvive(t: Tables, ids: set<Id>)
    requires AllPlaced(t)
    ensures Survives(t, t.DropFiles(ids)) && Survives(t, t.DropVersions(ids)) && Survives(t, t.DropArtifacts(ids))
  {
  }

  ghost function Keys(prefix: string, refs: seq<FileRef>): set<string> {
    set r | r in refs :: KeyFor(prefix, r)
  }

  /** `refs` lists exactly the rows of t that u lacks. */
  ghost predicate ListsTheGone(t: Tables, u: Tables, refs: seq<FileRef>)
    requires AllPlaced(t)
  {
    && (forall r :: r in refs ==> r.id in t.files && r.id !in u.files && r == RefOf(t, r.id))
    && (forall f :: f in t.files && f !in u.files ==> RefOf(t, f) in refs)
  }

  lemma VersionFilesListed(t: Tables, versions: set<Id>, refs: seq<FileRef>)
    requires AllPlaced(t)
    requires forall r :: r in refs ==> Placed(t, r.id) && t.files[r.id].version in versions && r == RefOf(t, r.id)
    requires forall f :: f in t.files && t.files[f].version in versions ==> RefOf(t, f) in refs
    ensures ListsTheGone(t, t.DropVersions(versions), refs)
  {
  }

  /** Storage calls removed objects of the listed files only, and every listed one unless its call failed. */
  ghost predicate Swept(before: Bucket, after: Bucket, keys: set<string>, failed: set<string>) {
    && after.prefix == before.prefix
    && after.objects.Keys <= before.objects.Keys && (forall k :: k in after.objects ==> after.objects[k] == before.objects[k])
    && before.objects.Keys - after.objects.Keys <= keys
    && keys * after.objects.Keys <= failed
  }

  /** Rows deleted and their objects swept, in either order: nothing else breaks, and only failed calls leak. */
  lemma RowsAndObjectsGone(t: Tables, u: Tables, before: Bucket, after: Bucket, uploaded: map<Id, Bytes>, refs: seq<FileRef>, failed: set<string>)
    requires Survives(t, u) && Filed(t, before.prefix) && ListsTheGone(t, u, refs)
    requires Swept(before, after, Keys(before.prefix, refs), failed)
    ensures Filed(u, before.prefix)
    ensures Broken(u, after, uploaded) <= Broken(t, before, uploaded)
    ensures Leaks(u, after) <= Leaks(t, before) + failed
  {
    hide KeyFor, FileStoragePath, Plain;
    RowsGone(t, u, before, uploaded);
    ObjectsGone(u, before, after, uploaded);
    forall f | f in u.files && KeyOf(u, before.prefix, f) in before.objects ensures KeyOf(u, before.prefix, f) in after.objects {
      SurvivorsKeepPaths(t, u);
      SurvivorsAreNotListed(t, u, before.prefix, refs, f);
    }
    forall k | k in Leaks(u, after) ensures k in Leaks(t, before) + failed {
      if f :| f in t.files && f !in u.files && KeyOf(t, before.prefix, f) == k {
        assert RefOf(t, f) in refs && k in Keys(before.prefix, refs);
      }
    }
  }

  lemma SurvivorsAreNotListed(t: Tables, u: Tables, prefix: string, refs: seq<FileRef>, f: Id)
    requires Filed(t, prefix) && Filed(u, prefix) && ListsTheGone(t, u, refs) && f in u.files
    ensures KeyOf(u, prefix, f) !in Keys(prefix, refs)
  {
    hide KeyFor, FileStoragePath, Plain;
    forall r | r in refs ensures KeyFor(prefix, r) != KeyOf(u, prefix, f) {
      if KeyFor(prefix, r) == KeyOf(u, prefix, f) {
        assert Plain(prefix, r.row.name);
        KeyOfRow(u, prefix, f, r);
      }
    }
  }

  /** Objects swept but the rows still there: only the listed rows can have broken. */
  lemma ObjectsGoneFirst(t: Tables, u: Tables, before: Bucket, after: Bucket, uploaded: map<Id, Bytes>, refs: seq<FileRef>, failed: set<string>)
    requires Filed(t, before.prefix) && ListsTheGone(t, u, refs) && Swept(before, after, Keys(before.prefix, refs), failed)
    ensures Broken(t, after, uploaded) <= Broken(t, before, uploaded) + (t.files.Keys - u.files.Keys)
    ensures Leaks(t, after) <= Leaks(t, before)
  {
    ObjectsGone(t, before, after, uploaded);
    hide Leaks, Broken, KeyFor, FileStoragePath, Plain;
    forall f | f in t.files && KeyOf(t, before.prefix, f) in before.objects && KeyOf(t, before.prefix, f) !in after.objects ensures f !in u.files {
      assert KeyOf(t, before.prefix, f) in before.objects.Keys - after.objects.Keys;
      var r :| r in refs && KeyFor(before.prefix, r) == KeyOf(t, before.prefix, f);
      KeyOfRow(t, before.prefix, f, r);
    }
  }

  // ---- ids are never reused ----

  /** u is a later state: rows still there kept their coordinates, and new ones got ids that were unused. */
  ghost predicate Later(t: Tables, next: nat, u: Tables) {
    && (forall f :: f in u.files ==> if f in t.files then u.files[f].version == t.files[f].version && u.files[f].name == t.files[f].name else f >= next)
    && (forall v :: v in u.versions ==> if v in t.versions then u.versions[v] == t.versions[v] else v >= next)
  }

  /** The key of a file that is gone stays nobody's, so removing its object can break no row, however late it happens. */
  lemma DeadKeyStaysDead(r: FileRef, gone: Tables, next: nat, u: Tables, b: Bucket, uploaded: map<Id, Bytes>)
    requires Plain(b.prefix, r.row.name) && r.id < next && r.id !in gone.files && Later(gone, next, u) && Filed(u, b.prefix)
    ensures r.id !in u.files && KeyFor(b.prefix, r) !in Live(u, b.prefix)
    ensures Broken(u, b.Remove(CanonicalPath(r)), uploaded) <= Broken(u, b, uploaded)
  {
    hide FileStoragePath, Plain, Key;
    forall g | g in u.files ensures KeyOf(u, b.prefix, g) != KeyFor(b.prefix, r) {
      if KeyOf(u, b.prefix, g) == KeyFor(b.prefix, r) { KeyOfRow(u, b.prefix, g, r); }
    }
  }

  // ---- listings in id order ----

  predicate Least(ids: set<Id>, i: Id) {
    i in ids && forall j :: j in ids ==> i <= j
  }

  lemma {:induction false} LeastExists(ids: set<Id>)
    requires ids != {}
    ensures exists i :: Least(ids, i)
  {
    var k :| k in ids;
    var rest := ids - {k};
    assert ids == rest + {k};
    if rest == {} {
      assert Least(ids, k);
    } else {
      LeastExists(rest);
      var i :| Least(rest, i);
      assert Least(ids, if k < i then k else i);
    }
  }

  function Ascending(ids: set<Id>): (s: seq<Id>)
    ensures forall i :: i in s <==> i in ids
    decreases |ids|
  {
    if ids == {} then []
    else
      LeastExists(ids);
      var i :| Least(ids, i);
      [i] + Ascending(ids - {i})
  }

  /** The given file rows with their coordinates, ORDER BY id. */
  function RowsInOrder(t: Tables, ids: set<Id>): (refs: seq<FileRef>)
    requires AllPlaced(t) && ids <= t.files.Keys
    ensures forall r :: r in refs ==> r.id in ids && Placed(t, r.id) && r == RefOf(t, r.id)
    ensures forall f :: f in ids ==> RefOf(t, f) in refs
  {
    var s := Ascending(ids);
    assert forall i :: 0 <= i < |s| ==> s[i] in ids;
    assert forall i :: 0 <= i < |s| ==> Placed(t, s[i]);
    var refs := seq(|s|, i requires 0 <= i < |s| => RefOf(t, s[i]));
    assert forall f :: f in ids ==> RefOf(t, f) in refs by {
      forall f | f in ids ensures RefOf(t, f) in refs {
        assert f in s;
        var i :| 0 <= i < |s| && s[i] == f;
        assert refs[i] == RefOf(t, f);
      }
    }
    refs
  }

  /** ListFilesByVersionIDs: the files of the given versions. */
  function FilesInOrder(t: Tables, versions: set<Id>): (refs: seq<FileRef>)
    requires AllPlaced(t)
    ensures forall r :: r in refs ==> Placed(t, r.id) && t.files[r.id].version in versions && r == RefOf(t, r.id)
    ensures forall f :: f in t.files && t.files[f].version in versions ==> RefOf(t, f) in refs
  {
    RowsInOrder(t, set f | f in t.files && t.files[f].version in versions)
  }
}
