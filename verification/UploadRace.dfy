/** Uploads against every kind of delete: each SQL statement and each storage call is one step, and anything may crash or fail between steps. */
module UploadRace {
  import opened Wrappers
  import opened SemVer
  import opened Schema
  import opened StoragePaths
  import opened StoredObjects

  datatype Stage =
    | Storing                      // the PENDING row is in, the object is about to be written
    | Finalizing                   // the object is written, the row is about to become AVAILABLE
    | Failing(undo: bool)          // the row is about to be marked ERROR
    | Undoing                      // the object is about to be deleted again

  datatype Target = TheFile(f: Id) | TheVersion(v: Id)

  /** Where a request is. */
  datatype Request =
    | Upload(file: FileRef, data: Bytes, stage: Stage)
    | Listed(refs: seq<FileRef>, versions: set<Id>, artifact: Option<Id>)  // rows first: files listed, versions or artifact about to go
    | Sweeping(refs: seq<FileRef>)                       // rows first: the rows are gone, these objects are left to delete
    | Erasing(refs: seq<FileRef>, target: Target)        // objects first: these objects, and then the row, are left to delete

  datatype State = State(
    t: Tables,
    bucket: Bucket,
    uploaded: map<Id, Bytes>,      // the bytes each file was uploaded with
    next: Id,
    requests: map<nat, Request>,
    erasable: set<Id>)             // every file an objects-first delete has ever listed

  datatype Step =
    | BeginUpload(x: nat, v: Id, name: string, data: Bytes, created: int)
    | Store(x: nat, ok: bool, left: Option<Bytes>)       // a failed call can leave part of an object
    | Finalize(x: nat, applied: bool)
    | MarkError(x: nat, applied: bool)
    | Undo(x: nat, gone: bool)
    | DeleteIncomplete(x: nat, files: set<Id>, refs: seq<FileRef>)   // one statement deletes and lists
    | ListRows(x: nat, versions: set<Id>, artifact: Option<Id>, refs: seq<FileRef>)   // bulk delete and artifact delete list first,
    | DeleteVersions(x: nat, versions: set<Id>, refs: seq<FileRef>)  // then delete those of the versions that may go
    | DeleteArtifact(x: nat)                                         // or the artifact
    | Sweep(x: nat, gone: bool)
    | ListToErase(x: nat, target: Target, refs: seq<FileRef>)        // single-file and single-version delete
    | Erase(x: nat, gone: bool)
    | DropErased(x: nat, applied: bool)
    | Elsewhere(t: Tables, next: Id)                     // a statement that changes no file row and no file's version
    | Crash(x: nat)

  /** `refs` are the rows of exactly the files in `ids`. */
  ghost predicate IsListing(t: Tables, ids: set<Id>, refs: seq<FileRef>) {
    && (forall r :: r in refs ==> r.id in ids && Placed(t, r.id) && r == RefOf(t, r.id))
    && (forall f :: f in ids ==> Placed(t, f) && RefOf(t, f) in refs)
  }

  function FilesOfAll(t: Tables, versions: set<Id>): set<Id> {
    set f | f in t.files && t.files[f].version in versions
  }

  function Without(b: Bucket, r: FileRef, gone: bool): Bucket {
    if gone then b.Remove(FileObjectPath(r)) else b
  }

  /** What a call to store an object leaves: all of it, part of it, or what was there. */
  function AfterCall(b: Bucket, r: FileRef, data: Bytes, ok: bool, left: Option<Bytes>): Bucket {
    if ok then b.Put(CanonicalPath(r), data) else if left.Some? then b.Put(CanonicalPath(r), left.value) else b
  }

  function Drop(t: Tables, target: Target): Tables {
    match target
    case TheFile(f) => t.DropFiles({f})
    case TheVersion(v) => t.DropVersions({v})
  }

  function TargetFiles(t: Tables, target: Target): set<Id> {
    match target
    case TheFile(f) => if f in t.files then {f} else {}
    case TheVersion(v) => t.FilesOf(v)
  }

  function NewRef(s: State, v: Id, name: string, created: int): FileRef
    requires v in s.t.versions
  {
    FileRef(s.next, NewFile(v, name, created), s.t.versions[v].artifact, s.t.versions[v].sv)
  }

  ghost predicate Next(s: State, step: Step, s': State) {
    match step
    case BeginUpload(x, v, name, data, created) =>
      && x !in s.requests && s.t.AcceptsFile(v, name)
      && var r := NewRef(s, v, name, created);
         s' == s.(t := s.t.PutFile(s.next, r.row), uploaded := s.uploaded[s.next := data], next := s.next + 1,
                  requests := s.requests[x := Upload(r, data, Storing)])
    case Store(x, ok, left) =>
      && x in s.requests && s.requests[x].Upload? && s.requests[x].stage == Storing
      && var u := s.requests[x];
         s' == s.(bucket := AfterCall(s.bucket, u.file, u.data, ok, left),
                  requests := s.requests[x := u.(stage := if ok then Finalizing else Failing(false))])
    case Finalize(x, applied) =>
      && x in s.requests && s.requests[x].Upload? && s.requests[x].stage == Finalizing
      && var u := s.requests[x];
         if applied
         then u.file.id in s.t.files
           && s' == s.(t := s.t.SetFile(u.file.id, CanonicalPath(u.file), Some(|u.data|), AVAILABLE), requests := s.requests - {x})
         else s' == s.(requests := s.requests[x := u.(stage := Failing(true))])
    case MarkError(x, applied) =>
      && x in s.requests && s.requests[x].Upload? && s.requests[x].stage.Failing?
      && var u := s.requests[x];
         var requests := if u.stage.undo then s.requests[x := u.(stage := Undoing)] else s.requests - {x};
         s' == if applied && u.file.id in s.t.files
               then s.(t := s.t.PutFile(u.file.id, s.t.files[u.file.id].(status := ERROR)), requests := requests)
               else s.(requests := requests)
    case Undo(x, gone) =>
      && x in s.requests && s.requests[x].Upload? && s.requests[x].stage == Undoing
      && s' == s.(bucket := if gone then s.bucket.Remove(CanonicalPath(s.requests[x].file)) else s.bucket, requests := s.requests - {x})
    case DeleteIncomplete(x, files, refs) =>
      && x !in s.requests && (forall f :: f in files ==> f in s.t.files && s.t.files[f].Incomplete()) && IsListing(s.t, files, refs)
      && s' == s.(t := s.t.DropFiles(files), requests := s.requests[x := Sweeping(refs)])
    case ListRows(x, versions, artifact, refs) =>
      && x !in s.requests && (artifact.Some? ==> versions == s.t.VersionsOf({artifact.value}))
      && (forall v :: v in versions ==> v < s.next) && IsListing(s.t, FilesOfAll(s.t, versions), refs)
      && s' == s.(requests := s.requests[x := Listed(refs, versions, artifact)])
    case DeleteVersions(x, versions, refs) =>
      && x in s.requests && s.requests[x].Listed? && s.requests[x].artifact == None && versions <= s.requests[x].versions
      && (forall r :: r in refs <==> r in s.requests[x].refs && r.row.version in versions)
      && s' == s.(t := s.t.DropVersions(versions), requests := s.requests[x := Sweeping(refs)])
    case DeleteArtifact(x) =>
      && x in s.requests && s.requests[x].Listed? && s.requests[x].artifact.Some?
      && s' == s.(t := s.t.DropArtifacts({s.requests[x].artifact.value}), requests := s.requests[x := Sweeping(s.requests[x].refs)])
    case Sweep(x, gone) =>
      && x in s.requests && s.requests[x].Sweeping? && s.requests[x].refs != []
      && s' == s.(bucket := Without(s.bucket, s.requests[x].refs[0], gone), requests := s.requests[x := Sweeping(s.requests[x].refs[1..])])
    case ListToErase(x, target, refs) =>
      && x !in s.requests && IsListing(s.t, TargetFiles(s.t, target), refs)
      && s' == s.(requests := s.requests[x := Erasing(refs, target)], erasable := s.erasable + TargetFiles(s.t, target))
    case Erase(x, gone) =>
      && x in s.requests && s.requests[x].Erasing? && s.requests[x].refs != []
      && s' == s.(bucket := Without(s.bucket, s.requests[x].refs[0], gone),
                  requests := s.requests[x := Erasing(s.requests[x].refs[1..], s.requests[x].target)])
    case DropErased(x, applied) =>
      && x in s.requests && s.requests[x].Erasing? && s.requests[x].refs == []
      && s' == s.(t := if applied then Drop(s.t, s.requests[x].target) else s.t, requests := s.requests - {x})
    case Elsewhere(t, next) =>
      && t.files == s.t.files && AllPlaced(t) && Later(s.t, s.next, t) && s.next <= next && RowIdsBelow(t, next)
      && s' == s.(t := t, next := next)
    case Crash(x) => s' == s.(requests := s.requests - {x})
  }

  ghost predicate RowIdsBelow(t: Tables, next: Id) {
    (forall f :: f in t.files ==> f < next) && (forall v :: v in t.versions ==> v < next)
  }

  ghost predicate Run(states: seq<State>, steps: seq<Step>) {
    |states| == |steps| + 1 && forall i :: 0 <= i < |steps| ==> Next(states[i], steps[i], states[i + 1])
  }

  /** Nothing running, every AVAILABLE row with its uploaded bytes under its canonical path. */
  ghost predicate Initial(s: State) {
    s.requests == map[] && s.erasable == {} && Filed(s.t, s.bucket.prefix) && RowIdsBelow(s.t, s.next) && Broken(s.t, s.bucket, s.uploaded) == {}
  }

  // ---- the invariant ----

  ghost predicate SameFile(t: Tables, r: FileRef)
    requires AllPlaced(t)
  {
    r.id in t.files ==> CanonicalPath(RefOf(t, r.id)) == CanonicalPath(r) && t.files[r.id].version == r.row.version
  }

  ghost predicate AllUsed(refs: seq<FileRef>, next: Id, prefix: string) {
    forall r :: r in refs ==> r.id < next && FileObjectPath(r) == CanonicalPath(r) && Plain(prefix, r.row.name)
  }

  ghost predicate Holding(b: Bucket, r: FileRef, data: Bytes) {
    KeyFor(b.prefix, r) in b.objects && b.objects[KeyFor(b.prefix, r)] == data
  }

  /** What a request relies on. */
  ghost predicate Sound(s: State, q: Request)
    requires AllPlaced(s.t)
  {
    match q
    case Upload(r, data, stage) =>
      && r.id < s.next && SameFile(s.t, r) && Plain(s.bucket.prefix, r.row.name)
      && (r.id in s.t.files ==> s.t.files[r.id].status != AVAILABLE && r.id in s.uploaded && s.uploaded[r.id] == data)
      && (r.id in s.t.files && stage == Finalizing && r.id !in s.erasable ==> Holding(s.bucket, r, data))
    case Listed(refs, versions, artifact) =>
      && AllUsed(refs, s.next, s.bucket.prefix)
      && (forall r :: r in refs ==> r.row.version in versions && (r.id in s.t.files ==> s.t.files[r.id].version == r.row.version))
      && (artifact.Some? ==> forall v :: v in versions && v in s.t.versions ==> s.t.versions[v].artifact == artifact.value)
      && (forall v :: v in versions ==> v < s.next)
    case Sweeping(refs) => AllUsed(refs, s.next, s.bucket.prefix) && forall r :: r in refs ==> r.id !in s.t.files
    case Erasing(refs, _) => AllUsed(refs, s.next, s.bucket.prefix) && forall r :: r in refs ==> r.id in s.erasable
  }

  /** Two uploads never work on one file. */
  ghost predicate OwnFiles(requests: map<nat, Request>) {
    forall x, y :: x in requests && y in requests && requests[x].Upload? && requests[y].Upload? && requests[x].file.id == requests[y].file.id ==> x == y
  }

  ghost predicate Inv(s: State) {
    && Filed(s.t, s.bucket.prefix) && RowIdsBelow(s.t, s.next)
    && Broken(s.t, s.bucket, s.uploaded) <= s.erasable
    && (forall x :: x in s.requests ==> Sound(s, s.requests[x]))
    && OwnFiles(s.requests)
  }

  // ---- what each change leaves of the other requests' reliances ----

  /** Rows gone, nothing else changed. */
  lemma SoundAfterDrop(s: State, u: Tables, q: Request)
    requires AllPlaced(s.t) && Survives(s.t, u) && Sound(s, q)
    requires forall v :: v in u.versions ==> v in s.t.versions && u.versions[v] == s.t.versions[v]
    ensures AllPlaced(u) && Sound(s.(t := u), q)
  {
    SurvivorsKeepPaths(s.t, u);
    hide CanonicalPath;
  }

  /** Another file's row written. */
  lemma SoundAfterPut(s: State, f: Id, row: FileRow, q: Request)
    requires AllPlaced(s.t) && Sound(s, q) && row.version in s.t.versions
    requires f in s.t.files ==> s.t.files[f].version == row.version && s.t.files[f].name == row.name
    requires f !in s.t.files ==> f >= s.next
    requires q.Upload? ==> q.file.id != f
    ensures AllPlaced(s.t.PutFile(f, row)) && Sound(s.(t := s.t.PutFile(f, row)), q)
  {
    var u := s.t.PutFile(f, row);
    forall g | g in u.files ensures Placed(u, g) { assert g != f ==> Placed(s.t, g); }
    hide CanonicalPath;
  }

  /** The object of one file written or removed: only an upload of that very file could mind. */
  lemma SoundAfterObject(s: State, r: FileRef, b: Bucket, q: Request)
    requires AllPlaced(s.t) && Sound(s, q) && b.DiffersAt(s.bucket, KeyFor(s.bucket.prefix, r)) && Plain(s.bucket.prefix, r.row.name)
    requires q.Upload? && q.file.id == r.id ==> r.id !in s.t.files || r.id in s.erasable
    ensures Sound(s.(bucket := b), q)
  {
    hide Key, FileStoragePath, Plain;
    if q.Upload? {
      if KeyFor(s.bucket.prefix, q.file) == KeyFor(s.bucket.prefix, r) {
        KeyDeterminesId(s.bucket.prefix, q.file, r);
      } else {
        OtherKeyStays(s.bucket, b, KeyFor(s.bucket.prefix, r), KeyFor(s.bucket.prefix, q.file));
      }
    }
  }

  lemma OtherKeyStays(before: Bucket, after: Bucket, changed: string, key: string)
    requires after.DiffersAt(before, changed) && key != changed
    ensures key in before.objects <==> key in after.objects
    ensures key in before.objects ==> after.objects[key] == before.objects[key]
  {
    assert key in before.objects <==> key in before.objects - {changed};
    assert key in after.objects <==> key in after.objects - {changed};
  }

  lemma SoundWithMore(s: State, next: Id, erasable: set<Id>, uploaded: map<Id, Bytes>, q: Request)
    requires AllPlaced(s.t) && Sound(s, q) && s.next <= next && s.erasable <= erasable
    requires forall f :: f in s.uploaded && f < s.next ==> f in uploaded && uploaded[f] == s.uploaded[f]
    ensures Sound(s.(next := next, erasable := erasable, uploaded := uploaded), q)
  {
    hide CanonicalPath;
  }

  lemma SoundElsewhere(s: State, t: Tables, q: Request)
    requires AllPlaced(s.t) && Sound(s, q) && t.files == s.t.files && AllPlaced(t) && Later(s.t, s.next, t) && RowIdsBelow(s.t, s.next)
    ensures Sound(s.(t := t), q)
  {
    forall f | f in t.files ensures RefOf(t, f) == RefOf(s.t, f) { VersionIsTheSame(s, t, f); }
    hide CanonicalPath;
  }

  lemma VersionIsTheSame(s: State, t: Tables, f: Id)
    requires AllPlaced(s.t) && t.files == s.t.files && AllPlaced(t) && Later(s.t, s.next, t) && f in t.files
    ensures t.versions[t.files[f].version] == s.t.versions[t.files[f].version]
  {
    assert Placed(t, f) && Placed(s.t, f);
  }

  lemma SoundIgnoresRequests(s: State, requests: map<nat, Request>, q: Request)
    requires AllPlaced(s.t) && Sound(s, q)
    ensures Sound(s.(requests := requests), q)
  {
    hide CanonicalPath, SameFile, AllUsed;
  }

  function Become(requests: map<nat, Request>, x: nat, q: Option<Request>): map<nat, Request> {
    if q.Some? then requests[x := q.value] else requests - {x}
  }

  /** Request x moved on to q while the rest of the state became that of s1. */
  lemma Settle(s: State, x: nat, s1: State, q: Option<Request>)
    requires Filed(s1.t, s1.bucket.prefix) && RowIdsBelow(s1.t, s1.next) && Broken(s1.t, s1.bucket, s1.uploaded) <= s1.erasable
    requires forall y :: y in s.requests && y != x ==> Sound(s1, s.requests[y])
    requires q.Some? ==> Sound(s1, q.value)
    requires OwnFiles(s.requests)
    requires q.Some? && q.value.Upload? ==>
               forall y :: y in s.requests && y != x && s.requests[y].Upload? ==> s.requests[y].file.id != q.value.file.id
    ensures Inv(s1.(requests := Become(s.requests, x, q)))
  {
    var requests := Become(s.requests, x, q);
    forall y | y in requests ensures Sound(s1.(requests := requests), requests[y]) {
      SoundIgnoresRequests(s1, requests, requests[y]);
    }
    hide Canonical, Sound, Broken, RowIdsBelow;
  }

  lemma InvParts(s: State)
    requires Inv(s)
    ensures AllPlaced(s.t)
  {
  }

  // ---- the steps of an upload ----

  lemma BeginUploadKeepsInv(s: State, x: nat, v: Id, name: string, data: Bytes, created: int, s': State)
    requires Inv(s) && Next(s, BeginUpload(x, v, name, data, created), s') && Plain(s.bucket.prefix, name)
    ensures Inv(s')
  {
    InvParts(s);
    var r := NewRef(s, v, name, created);
    hide Canonical, PlainNames, Sound, Broken, FileStoragePath, OwnFiles, Key, Plain;
    var s0 := s.(uploaded := s.uploaded[s.next := data]);
    var s1 := s0.(t := s.t.PutFile(s.next, r.row));
    var s2 := s1.(next := s.next + 1);
    RowPut(s.t, s.next, r.row, s.bucket, s.uploaded);
    NewFileRow(s, r, data);
    forall y | y in s.requests ensures Sound(s2, s.requests[y]) {
      SoundWithMore(s, s.next, s.erasable, s0.uploaded, s.requests[y]);
      UploadIdsUsed(s, s.requests[y]);
      SoundAfterPut(s0, s.next, r.row, s.requests[y]);
      CanonicalIsPlaced(s1.t);
      SoundWithMore(s1, s2.next, s.erasable, s0.uploaded, s.requests[y]);
    }
    forall y | y in s.requests && s.requests[y].Upload? ensures s.requests[y].file.id != s.next { UploadIdsUsed(s, s.requests[y]); }
    Settle(s, x, s2, Some(Upload(r, data, Storing)));
  }

  lemma UploadIdsUsed(s: State, q: Request)
    requires AllPlaced(s.t) && Sound(s, q)
    ensures q.Upload? ==> q.file.id < s.next
  {
  }

  lemma NewFileRow(s: State, r: FileRef, data: Bytes)
    requires Canonical(s.t) && RowIdsBelow(s.t, s.next) && r.id == s.next && r.row.status != AVAILABLE && Plain(s.bucket.prefix, r.row.name)
    requires r.row.version in s.t.versions && r.artifact == s.t.versions[r.row.version].artifact && r.sv == s.t.versions[r.row.version].sv
    requires Broken(s.t, s.bucket, s.uploaded) <= s.erasable && Canonical(s.t.PutFile(s.next, r.row))
    ensures var u := s.t.PutFile(s.next, r.row);
            && RowIdsBelow(u, s.next + 1)
            && Broken(u, s.bucket, s.uploaded[s.next := data]) <= s.erasable
            && Sound(s.(t := u, uploaded := s.uploaded[s.next := data], next := s.next + 1), Upload(r, data, Storing))
  {
    var u := s.t.PutFile(s.next, r.row);
    hide FileStoragePath, Key, Plain;
    forall f | f in Broken(u, s.bucket, s.uploaded[s.next := data]) ensures f in s.erasable {
      assert f in s.t.files && RefOf(u, f) == RefOf(s.t, f);
      assert f in Broken(s.t, s.bucket, s.uploaded);
    }
  }

  lemma StoreKeepsInv(s: State, x: nat, ok: bool, left: Option<Bytes>, s': State)
    requires Inv(s) && Next(s, Store(x, ok, left), s')
    ensures Inv(s')
  {
    InvParts(s);
    hide Canonical, PlainNames, Broken, OwnFiles, FileStoragePath, CanonicalPath, Key, Plain;
    var u := s.requests[x];
    var r, b := u.file, AfterCall(s.bucket, u.file, u.data, ok, left);
    AfterCallDiffers(s.bucket, r, u.data, ok, left);
    var s1 := s.(bucket := b);
    var q := u.(stage := if ok then Finalizing else Failing(false));
    hide AfterCall;
    assert Sound(s1, q);
    WrittenForUpload(s, r, b);
    OthersHaveOtherFiles(s, x);
    hide Sound;
    forall y | y in s.requests && y != x ensures Sound(s1, s.requests[y]) {
      SoundAfterObject(s, r, b, s.requests[y]);
    }
    Settle(s, x, s1, Some(q));
  }

  lemma AfterCallDiffers(b: Bucket, r: FileRef, data: Bytes, ok: bool, left: Option<Bytes>)
    ensures AfterCall(b, r, data, ok, left).DiffersAt(b, KeyFor(b.prefix, r))
    ensures ok ==> Holding(AfterCall(b, r, data, ok, left), r, data)
  {
    hide Key, CanonicalPath;
  }

  lemma RemoveDiffers(b: Bucket, r: FileRef)
    ensures b.Remove(CanonicalPath(r)).DiffersAt(b, KeyFor(b.prefix, r)) && b.DiffersAt(b, KeyFor(b.prefix, r))
  {
    hide Key, CanonicalPath;
  }

  lemma OthersHaveOtherFiles(s: State, x: nat)
    requires OwnFiles(s.requests) && x in s.requests && s.requests[x].Upload?
    ensures forall y :: y in s.requests && y != x && s.requests[y].Upload? ==> s.requests[y].file.id != s.requests[x].file.id
  {
  }

  /** An upload's object, before its row is AVAILABLE, is no other row's. */
  lemma WrittenForUpload(s: State, r: FileRef, b: Bucket)
    requires Filed(s.t, s.bucket.prefix) && Plain(s.bucket.prefix, r.row.name) && (r.id in s.t.files ==> s.t.files[r.id].status != AVAILABLE)
    requires b.DiffersAt(s.bucket, KeyFor(s.bucket.prefix, r))
    ensures Broken(s.t, b, s.uploaded) <= Broken(s.t, s.bucket, s.uploaded)
  {
    hide KeyFor, FileStoragePath, Plain;
    forall f | f in Broken(s.t, b, s.uploaded) ensures f in Broken(s.t, s.bucket, s.uploaded) {
      if KeyOf(s.t, b.prefix, f) == KeyFor(b.prefix, r) {
        KeyOfRow(s.t, b.prefix, f, r);
      }
      OtherKeyStays(s.bucket, b, KeyFor(b.prefix, r), KeyOf(s.t, b.prefix, f));
    }
  }

  lemma FinalizeKeepsInv(s: State, x: nat, applied: bool, s': State)
    requires Inv(s) && Next(s, Finalize(x, applied), s')
    ensures Inv(s')
  {
    InvParts(s);
    hide Canonical, PlainNames, Broken, OwnFiles, FileStoragePath, Key, Plain;
    var u := s.requests[x];
    OthersHaveOtherFiles(s, x);
    if applied {
      var f := u.file.id;
      var row := s.t.files[f].(path := CanonicalPath(u.file), size := Some(|u.data|), status := AVAILABLE);
      RowIsPlaced(s.t, f);
      FinalRow(s, u.file, u.data, row);
      hide Sound, RowIdsBelow, CanonicalPath;
      var s1 := s.(t := s.t.PutFile(f, row));
      forall y | y in s.requests && y != x ensures Sound(s1, s.requests[y]) {
        SoundAfterPut(s, f, row, s.requests[y]);
      }
      Settle(s, x, s1, None);
    } else {
      var q := u.(stage := Failing(true));
      assert Sound(s, q);
      hide Sound, RowIdsBelow, CanonicalPath;
      Settle(s, x, s, Some(q));
    }
  }

  /** The row an upload makes AVAILABLE has its object, unless an objects-first delete has listed the file. */
  lemma FinalRow(s: State, r: FileRef, data: Bytes, row: FileRow)
    requires Filed(s.t, s.bucket.prefix) && RowIdsBelow(s.t, s.next) && Broken(s.t, s.bucket, s.uploaded) <= s.erasable
    requires r.id in s.t.files && SameFile(s.t, r) && r.id in s.uploaded && s.uploaded[r.id] == data
    requires r.id !in s.erasable ==> Holding(s.bucket, r, data)
    requires row == s.t.files[r.id].(path := CanonicalPath(r), size := Some(|data|), status := AVAILABLE)
    ensures var u := s.t.PutFile(r.id, row); Filed(u, s.bucket.prefix) && RowIdsBelow(u, s.next) && Broken(u, s.bucket, s.uploaded) <= s.erasable
  {
    var u := s.t.PutFile(r.id, row);
    hide FileStoragePath, Key, Plain;
    assert Placed(s.t, r.id);
    forall f | f in u.files ensures Placed(u, f) && PathOf(u, f) == PathOf(s.t, f) { assert Placed(s.t, f); }
    forall f | f in Broken(u, s.bucket, s.uploaded) ensures f in s.erasable {
      assert f != r.id ==> f in Broken(s.t, s.bucket, s.uploaded);
    }
  }

  lemma MarkErrorKeepsInv(s: State, x: nat, applied: bool, s': State)
    requires Inv(s) && Next(s, MarkError(x, applied), s')
    ensures Inv(s')
  {
    InvParts(s);
    hide Canonical, PlainNames, Broken, OwnFiles, FileStoragePath, Key, Plain;
    var u := s.requests[x];
    var f := u.file.id;
    var q := if u.stage.undo then Some(u.(stage := Undoing)) else None;
    OthersHaveOtherFiles(s, x);
    if applied && f in s.t.files {
      var row := s.t.files[f].(status := ERROR);
      RowIsPlaced(s.t, f);
      NameIsPlain(s.t, s.bucket.prefix, f);
      RowPut(s.t, f, row, s.bucket, s.uploaded);
      var s1 := s.(t := s.t.PutFile(f, row));
      assert RowIdsBelow(s1.t, s.next);
      CanonicalIsPlaced(s1.t);
      assert Sound(s1, u.(stage := Undoing));
      hide Sound, RowIdsBelow, CanonicalPath;
      forall y | y in s.requests && y != x ensures Sound(s1, s.requests[y]) {
        SoundAfterPut(s, f, row, s.requests[y]);
      }
      Settle(s, x, s1, q);
    } else {
      assert Sound(s, u.(stage := Undoing));
      hide Sound, RowIdsBelow, CanonicalPath;
      Settle(s, x, s, q);
    }
  }

  lemma UndoKeepsInv(s: State, x: nat, gone: bool, s': State)
    requires Inv(s) && Next(s, Undo(x, gone), s')
    ensures Inv(s')
  {
    InvParts(s);
    hide Canonical, PlainNames, Broken, OwnFiles, FileStoragePath, CanonicalPath, Key, Plain;
    var r := s.requests[x].file;
    var b := if gone then s.bucket.Remove(CanonicalPath(r)) else s.bucket;
    RemoveDiffers(s.bucket, r);
    hide Bucket.Remove;
    WrittenForUpload(s, r, b);
    OthersHaveOtherFiles(s, x);
    assert Sound(s, s.requests[x]);
    hide Sound;
    var s1 := s.(bucket := b);
    forall y | y in s.requests && y != x ensures Sound(s1, s.requests[y]) {
      SoundAfterObject(s, r, b, s.requests[y]);
    }
    Settle(s, x, s1, None);
  }

  lemma NameIsPlain(t: Tables, prefix: string, f: Id)
    requires PlainNames(t, prefix) && f in t.files
    ensures Plain(prefix, t.files[f].name)
  {
    hide Plain;
  }

  // ---- the steps of a delete ----

  lemma SoundRequest(s: State, x: nat)
    requires Inv(s) && x in s.requests
    ensures Sound(s, s.requests[x])
  {
  }

  /** Rows dropped by a delete: the state without them is fine for everyone else. */
  lemma DropKeeps(s: State, x: nat, u: Tables, q: Option<Request>)
    requires Inv(s) && Survives(s.t, u)
    requires forall v :: v in u.versions ==> v in s.t.versions && u.versions[v] == s.t.versions[v]
    requires q.Some? ==> !q.value.Upload? && AllPlaced(u) && Sound(s.(t := u), q.value)
    ensures Inv(s.(t := u, requests := Become(s.requests, x, q)))
  {
    InvParts(s);
    RowsGone(s.t, u, s.bucket, s.uploaded);
    assert RowIdsBelow(u, s.next) by { IdsStayBelow(s.t, u, s.next); }
    hide Canonical, PlainNames, Broken, OwnFiles, Sound, RowIdsBelow, Survives;
    CanonicalIsPlaced(u);
    var s1 := s.(t := u);
    forall y | y in s.requests && y != x ensures Sound(s1, s.requests[y]) {
      SoundAfterDrop(s, u, s.requests[y]);
    }
    Settle(s, x, s1, q);
  }

  lemma IdsStayBelow(t: Tables, u: Tables, next: Id)
    requires RowIdsBelow(t, next) && Survives(t, u) && forall v :: v in u.versions ==> v in t.versions
    ensures RowIdsBelow(u, next)
  {
  }

  /** A listing taken now has canonical paths and ids in use. */
  lemma ListingIsUsed(s: State, ids: set<Id>, refs: seq<FileRef>)
    requires Filed(s.t, s.bucket.prefix) && RowIdsBelow(s.t, s.next) && IsListing(s.t, ids, refs)
    ensures AllUsed(refs, s.next, s.bucket.prefix)
  {
    hide Plain, FileStoragePath;
    forall r | r in refs ensures r.id < s.next && FileObjectPath(r) == CanonicalPath(r) && Plain(s.bucket.prefix, r.row.name) {
      ObjectPathIsCanonical(s.t, r.id);
    }
  }

  lemma DeleteIncompleteKeepsInv(s: State, x: nat, files: set<Id>, refs: seq<FileRef>, s': State)
    requires Inv(s) && Next(s, DeleteIncomplete(x, files, refs), s')
    ensures Inv(s')
  {
    ListingIsUsed(s, files, refs);
    InvParts(s);
    hide Inv, AllUsed, FileStoragePath;
    DropsSurvive(s.t, files);
    SurvivorsKeepPaths(s.t, s.t.DropFiles(files));
    DropKeeps(s, x, s.t.DropFiles(files), Some(Sweeping(refs)));
  }

  lemma ListRowsKeepsInv(s: State, x: nat, versions: set<Id>, artifact: Option<Id>, refs: seq<FileRef>, s': State)
    requires Inv(s) && Next(s, ListRows(x, versions, artifact, refs), s')
    ensures Inv(s')
  {
    InvParts(s);
    ListingIsUsed(s, FilesOfAll(s.t, versions), refs);
    assert Sound(s, Listed(refs, versions, artifact)) by { hide AllUsed, FileStoragePath; }
    hide Canonical, PlainNames, Broken, OwnFiles, Sound, RowIdsBelow, IsListing;
    Settle(s, x, s, Some(Listed(refs, versions, artifact)));
  }

  lemma DeleteVersionsKeepsInv(s: State, x: nat, versions: set<Id>, refs: seq<FileRef>, s': State)
    requires Inv(s) && Next(s, DeleteVersions(x, versions, refs), s')
    ensures Inv(s')
  {
    InvParts(s);
    var u := s.t.DropVersions(versions);
    DropsSurvive(s.t, versions);
    SurvivorsKeepPaths(s.t, u);
    assert Sound(s.(t := u), Sweeping(refs)) by {
      SoundRequest(s, x);
      forall r | r in refs ensures r.id !in u.files {}
    }
    hide Inv, Sound, Survives;
    DropKeeps(s, x, u, Some(Sweeping(refs)));
  }

  lemma DeleteArtifactKeepsInv(s: State, x: nat, s': State)
    requires Inv(s) && Next(s, DeleteArtifact(x), s')
    ensures Inv(s')
  {
    InvParts(s);
    var a, refs := s.requests[x].artifact.value, s.requests[x].refs;
    var u := s.t.DropArtifacts({a});
    DropsSurvive(s.t, {a});
    SurvivorsKeepPaths(s.t, u);
    assert Sound(s.(t := u), Sweeping(refs)) by {
      SoundRequest(s, x);
      forall r | r in refs ensures r.id !in u.files {
        assert r.id in s.t.files ==> Placed(s.t, r.id);
      }
    }
    hide Inv, Sound, Survives;
    DropKeeps(s, x, u, Some(Sweeping(refs)));
  }

  /** One storage call of a delete, for a file whose row is gone or that an objects-first delete has listed. */
  lemma ObjectDeletedKeepsInv(s: State, x: nat, r: FileRef, gone: bool, q: Request)
    requires Inv(s) && FileObjectPath(r) == CanonicalPath(r) && (r.id !in s.t.files || r.id in s.erasable) && Plain(s.bucket.prefix, r.row.name)
    requires !q.Upload? && Sound(s.(bucket := Without(s.bucket, r, gone)), q)
    ensures Inv(s.(bucket := Without(s.bucket, r, gone), requests := s.requests[x := q]))
  {
    InvParts(s);
    var b := Without(s.bucket, r, gone);
    RemoveDiffers(s.bucket, r);
    assert Broken(s.t, b, s.uploaded) <= s.erasable by { GoneForNoOther(s, r, b); }
    hide Canonical, PlainNames, Broken, OwnFiles, Sound, RowIdsBelow, CanonicalPath, FileObjectPath, Key, Plain;
    var s1 := s.(bucket := b);
    forall y | y in s.requests && y != x ensures Sound(s1, s.requests[y]) {
      SoundAfterObject(s, r, b, s.requests[y]);
    }
    Settle(s, x, s1, Some(q));
  }

  lemma GoneForNoOther(s: State, r: FileRef, b: Bucket)
    requires Filed(s.t, s.bucket.prefix) && Plain(s.bucket.prefix, r.row.name) && b.DiffersAt(s.bucket, KeyFor(s.bucket.prefix, r))
    requires r.id !in s.t.files || r.id in s.erasable
    requires Broken(s.t, s.bucket, s.uploaded) <= s.erasable
    ensures Broken(s.t, b, s.uploaded) <= s.erasable
  {
    hide KeyFor, FileStoragePath, Plain;
    forall f | f in Broken(s.t, b, s.uploaded) ensures f in s.erasable {
      if KeyOf(s.t, b.prefix, f) == KeyFor(b.prefix, r) {
        KeyOfRow(s.t, b.prefix, f, r);
      } else {
        OtherKeyStays(s.bucket, b, KeyFor(b.prefix, r), KeyOf(s.t, b.prefix, f));
        assert f in Broken(s.t, s.bucket, s.uploaded);
      }
    }
  }

  lemma SweepKeepsInv(s: State, x: nat, gone: bool, s': State)
    requires Inv(s) && Next(s, Sweep(x, gone), s')
    ensures Inv(s')
  {
    InvParts(s);
    var refs := s.requests[x].refs;
    SoundRequest(s, x);
    assert refs[0] in refs && forall r :: r in refs[1..] ==> r in refs;
    assert Sound(s.(bucket := Without(s.bucket, refs[0], gone)), Sweeping(refs[1..]));
    hide Inv, Sound, Without;
    ObjectDeletedKeepsInv(s, x, refs[0], gone, Sweeping(refs[1..]));
  }

  lemma ListToEraseKeepsInv(s: State, x: nat, target: Target, refs: seq<FileRef>, s': State)
    requires Inv(s) && Next(s, ListToErase(x, target, refs), s')
    ensures Inv(s')
  {
    InvParts(s);
    var s1 := s.(erasable := s.erasable + TargetFiles(s.t, target));
    ListingIsUsed(s, TargetFiles(s.t, target), refs);
    assert Sound(s1, Erasing(refs, target)) by { hide AllUsed; }
    hide Canonical, PlainNames, Broken, OwnFiles, Sound, RowIdsBelow, IsListing;
    forall y | y in s.requests ensures Sound(s1, s.requests[y]) {
      SoundWithMore(s, s.next, s1.erasable, s.uploaded, s.requests[y]);
    }
    Settle(s, x, s1, Some(Erasing(refs, target)));
  }

  lemma EraseKeepsInv(s: State, x: nat, gone: bool, s': State)
    requires Inv(s) && Next(s, Erase(x, gone), s')
    ensures Inv(s')
  {
    InvParts(s);
    var refs := s.requests[x].refs;
    SoundRequest(s, x);
    assert refs[0] in refs && forall r :: r in refs[1..] ==> r in refs;
    var q := Erasing(refs[1..], s.requests[x].target);
    assert Sound(s.(bucket := Without(s.bucket, refs[0], gone)), q);
    hide Inv, Sound, Without;
    ObjectDeletedKeepsInv(s, x, refs[0], gone, q);
  }

  lemma DropErasedKeepsInv(s: State, x: nat, applied: bool, s': State)
    requires Inv(s) && Next(s, DropErased(x, applied), s')
    ensures Inv(s')
  {
    InvParts(s);
    var u := if applied then Drop(s.t, s.requests[x].target) else s.t;
    match s.requests[x].target {
      case TheFile(f) => DropsSurvive(s.t, {f});
      case TheVersion(v) => DropsSurvive(s.t, {v});
    }
    assert Survives(s.t, s.t);
    hide Inv, Survives;
    DropKeeps(s, x, u, None);
  }

  lemma ElsewhereKeepsInv(s: State, t: Tables, next: Id, s': State)
    requires Inv(s) && Next(s, Elsewhere(t, next), s')
    ensures Inv(s')
  {
    InvParts(s);
    forall f | f in t.files ensures t.versions[t.files[f].version] == s.t.versions[t.files[f].version] { VersionIsTheSame(s, t, f); }
    RowsGone(s.t, t, s.bucket, s.uploaded);
    hide Canonical, PlainNames, Broken, RowIdsBelow, Later;
    var s1 := s.(t := t);
    forall y | y in s.requests ensures Sound(s', s.requests[y]) {
      SoundElsewhere(s, t, s.requests[y]);
      SoundWithMore(s1, next, s.erasable, s.uploaded, s.requests[y]);
    }
  }

  lemma CrashKeepsInv(s: State, x: nat)
    requires Inv(s)
    ensures Inv(s.(requests := s.requests - {x}))
  {
    InvParts(s);
    hide Canonical, PlainNames, Broken, OwnFiles, Sound, RowIdsBelow;
    Settle(s, x, s, None);
  }

  lemma StepKeepsInv(s: State, step: Step, s': State)
    requires Inv(s) && Next(s, step, s') && (step.BeginUpload? ==> Plain(s.bucket.prefix, step.name))
    ensures Inv(s')
  {
    hide Inv, IsListing, Drop, Without, FilesOfAll, TargetFiles, Later;
    match step {
      case BeginUpload(x, v, name, data, created) => BeginUploadKeepsInv(s, x, v, name, data, created, s');
      case Store(x, ok, left) => StoreKeepsInv(s, x, ok, left, s');
      case Finalize(x, applied) => FinalizeKeepsInv(s, x, applied, s');
      case MarkError(x, applied) => MarkErrorKeepsInv(s, x, applied, s');
      case Undo(x, gone) => UndoKeepsInv(s, x, gone, s');
      case DeleteIncomplete(x, files, refs) => DeleteIncompleteKeepsInv(s, x, files, refs, s');
      case ListRows(x, versions, artifact, refs) => ListRowsKeepsInv(s, x, versions, artifact, refs, s');
      case DeleteVersions(x, versions, refs) => DeleteVersionsKeepsInv(s, x, versions, refs, s');
      case DeleteArtifact(x) => DeleteArtifactKeepsInv(s, x, s');
      case Sweep(x, gone) => SweepKeepsInv(s, x, gone, s');
      case ListToErase(x, target, refs) => ListToEraseKeepsInv(s, x, target, refs, s');
      case Erase(x, gone) => EraseKeepsInv(s, x, gone, s');
      case DropErased(x, applied) => DropErasedKeepsInv(s, x, applied, s');
      case Elsewhere(t, next) => ElsewhereKeepsInv(s, t, next, s');
      case Crash(x) => CrashKeepsInv(s, x);
    }
  }

  lemma StepKeepsPrefix(s: State, step: Step, s': State)
    requires Next(s, step, s')
    ensures s'.bucket.prefix == s.bucket.prefix
  {
    hide IsListing, Drop, FilesOfAll, TargetFiles, Later, AllPlaced, Key, FileObjectPath, CanonicalPath;
  }

  // ---- safety over every run ----

  lemma InitialInv(s: State)
    requires Initial(s)
    ensures Inv(s)
  {
    hide Canonical, PlainNames, Broken, RowIdsBelow;
  }

  /** Every file name an upload of the run brings is one of these. */
  ghost predicate Named(steps: seq<Step>, names: set<string>) {
    forall j :: 0 <= j < |steps| && steps[j].BeginUpload? ==> steps[j].name in names
  }

  /** No single-file and no single-version delete. */
  ghost predicate RowsFirst(steps: seq<Step>) {
    forall j :: 0 <= j < |steps| ==> !steps[j].ListToErase?
  }

  lemma {:induction false} RunKeepsInv(states: seq<State>, steps: seq<Step>, names: set<string>, i: nat)
    requires Run(states, steps) && Initial(states[0]) && i < |states|
    requires Named(steps, names) && forall n :: n in names ==> Plain(states[0].bucket.prefix, n)
    ensures Inv(states[i]) && states[i].bucket.prefix == states[0].bucket.prefix
  {
    hide Inv, Next, Initial, Plain;
    if i == 0 {
      InitialInv(states[0]);
    } else {
      RunKeepsInv(states, steps, names, i - 1);
      StepKeepsInv(states[i - 1], steps[i - 1], states[i]);
      StepKeepsPrefix(states[i - 1], steps[i - 1], states[i]);
    }
  }

  /** In every run whose uploads have plain names, an AVAILABLE row without its uploaded bytes is one that an objects-first delete has listed. */
  lemma OnlyErasedRowsBreak(states: seq<State>, steps: seq<Step>, names: set<string>, i: nat)
    requires Run(states, steps) && Initial(states[0]) && i < |states|
    requires Named(steps, names) && forall n :: n in names ==> Plain(states[0].bucket.prefix, n)
    ensures Canonical(states[i].t) && Broken(states[i].t, states[i].bucket, states[i].uploaded) <= states[i].erasable
  {
    RunKeepsInv(states, steps, names, i);
    hide Canonical, PlainNames, Broken;
  }

  lemma {:induction false} NothingErased(states: seq<State>, steps: seq<Step>, i: nat)
    requires Run(states, steps) && states[0].erasable == {} && i < |states| && RowsFirst(steps)
    ensures states[i].erasable == {}
  {
    if i > 0 {
      NothingErased(states, steps, i - 1);
      assert Next(states[i - 1], steps[i - 1], states[i]);
    }
  }

  /** Every AVAILABLE row has its uploaded bytes. */
  ghost predicate Intact(s: State) {
    AllPlaced(s.t) && Broken(s.t, s.bucket, s.uploaded) == {}
  }

  /** Rows first is safe for plain names: without single-file and single-version deletes the database never points at a missing object. */
  lemma RowsFirstNeverBreaks(states: seq<State>, steps: seq<Step>, names: set<string>, i: nat)
    requires Run(states, steps) && Initial(states[0]) && i < |states| && RowsFirst(steps)
    requires Named(steps, names) && forall n :: n in names ==> Plain(states[0].bucket.prefix, n)
    ensures Intact(states[i])
  {
    OnlyErasedRowsBreak(states, steps, names, i);
    NothingErased(states, steps, i);
    CanonicalIsPlaced(states[i].t);
    hide Canonical, Broken;
  }

  /** A run from a sound start under this prefix, with uploads of these names and rows-first deletes. */
  ghost predicate RowsFirstRun(prefix: string, names: set<string>, states: seq<State>, steps: seq<Step>) {
    Run(states, steps) && Initial(states[0]) && states[0].bucket.prefix == prefix && RowsFirst(steps) && Named(steps, names)
  }

  /** No such run ever breaks anything. */
  ghost predicate SafeNames(prefix: string, names: set<string>) {
    forall states, steps, i: nat :: RowsFirstRun(prefix, names, states, steps) && i < |states| ==> Intact(states[i])
  }

  /** Exactly the plain names are safe: without a key prefix all of them, and under one all but "..". */
  lemma PlainNamesAreSafe(prefix: string, names: set<string>)
    requires forall n :: n in names ==> HandlerName(n)
    ensures SafeNames(prefix, names) <==> forall n :: n in names ==> Plain(prefix, n)
  {
    if forall n :: n in names ==> Plain(prefix, n) {
      hide Intact, Initial, Plain, Next;
      forall states, steps, i: nat | RowsFirstRun(prefix, names, states, steps) && i < |states| ensures Intact(states[i]) {
        RowsFirstNeverBreaks(states, steps, names, i);
      }
    } else {
      hide Intact, Initial, Next;
      var states, steps := DotDotBreaks(prefix);
      assert ".." in names;
      assert RowsFirstRun(prefix, names, states, steps);
    }
  }

  // ---- the name that is not safe ----

  /** Artifact 1 with its version 2 and no files. */
  const NO_FILES := Tables(map[1 := ArtifactRow("a", 0)], map[2 := VersionRow(1, Semver(1, 0, 0), 0)], map[], map[], map[], {})

  function DotDot(f: Id): FileRef {
    FileRef(f, NewFile(2, "..", 0), 1, Semver(1, 0, 0))
  }

  /** A first upload of ".." is lost, its row is cleaned up, a second one succeeds, and then the cleanup reaches the object. */
  const DOT_DOT_STEPS :=
    [BeginUpload(0, 2, "..", [], 0), Crash(0), DeleteIncomplete(1, {3}, [DotDot(3)]),
     BeginUpload(0, 2, "..", [], 0), Store(0, true, None), Finalize(0, true), Sweep(1, true)]

  function LostUpload(prefix: string): State {
    State(NO_FILES.PutFile(3, DotDot(3).row), Bucket(prefix, map[]), map[3 := []], 4, map[0 := Upload(DotDot(3), [], Storing)], {})
  }

  function SecondUpload(prefix: string): State {
    State(NO_FILES.PutFile(4, DotDot(4).row), Bucket(prefix, map[]), map[3 := [], 4 := []], 5,
          map[1 := Sweeping([DotDot(3)]), 0 := Upload(DotDot(4), [], Storing)], {})
  }

  function Uploaded(prefix: string): State {
    var row := DotDot(4).row.(path := CanonicalPath(DotDot(4)), size := Some(0), status := AVAILABLE);
    SecondUpload(prefix).(t := NO_FILES.PutFile(4, row), bucket := Bucket(prefix, map[]).Put(CanonicalPath(DotDot(4)), []),
                          requests := map[1 := Sweeping([DotDot(3)])])
  }

  lemma UploadIsLost(prefix: string) returns (s0: State, s1: State, s2: State, s3: State)
    ensures Initial(s0) && s0.bucket.prefix == prefix && s1 == LostUpload(prefix)
    ensures s3 == State(NO_FILES, Bucket(prefix, map[]), map[3 := []], 4, map[1 := Sweeping([DotDot(3)])], {})
    ensures Next(s0, DOT_DOT_STEPS[0], s1) && Next(s1, DOT_DOT_STEPS[1], s2) && Next(s2, DOT_DOT_STEPS[2], s3)
  {
    hide FileStoragePath, Key, Plain;
    s0 := State(NO_FILES, Bucket(prefix, map[]), map[], 3, map[], {});
    s1 := LostUpload(prefix);
    s2 := s1.(requests := map[]);
    s3 := s2.(t := NO_FILES, requests := map[1 := Sweeping([DotDot(3)])]);
    assert s1.requests - {0} == map[];
    assert Placed(s1.t, 3) && RefOf(s1.t, 3) == DotDot(3) && DotDot(3) in [DotDot(3)];
    assert s1.t.DropFiles({3}) == NO_FILES;
  }

  lemma SecondSucceeds(prefix: string, s3: State) returns (s5: State)
    requires s3 == State(NO_FILES, Bucket(prefix, map[]), map[3 := []], 4, map[1 := Sweeping([DotDot(3)])], {})
    ensures Next(s3, DOT_DOT_STEPS[3], SecondUpload(prefix)) && Next(SecondUpload(prefix), DOT_DOT_STEPS[4], s5)
    ensures Next(s5, DOT_DOT_STEPS[5], Uploaded(prefix))
  {
    hide FileStoragePath, Key, Plain;
    var s4 := SecondUpload(prefix);
    s5 := s4.(bucket := Bucket(prefix, map[]).Put(CanonicalPath(DotDot(4)), []),
              requests := map[1 := Sweeping([DotDot(3)]), 0 := Upload(DotDot(4), [], Finalizing)]);
    assert s3.requests[0 := Upload(DotDot(4), [], Storing)] == s4.requests;
    assert s4.requests[0 := Upload(DotDot(4), [], Finalizing)] == s5.requests;
    assert s5.requests - {0} == Uploaded(prefix).requests;
    assert s4.t.PutFile(4, Uploaded(prefix).t.files[4]) == Uploaded(prefix).t;
  }

  lemma SweptTooLate(prefix: string) returns (s7: State)
    requires TrimSlashes(prefix) != ""
    ensures Next(Uploaded(prefix), DOT_DOT_STEPS[6], s7) && !Intact(s7)
  {
    DotDotsShareAKey(prefix, 1, Semver(1, 0, 0), 3, 4);
    hide FileStoragePath, Key, Plain;
    var s6 := Uploaded(prefix);
    s7 := s6.(bucket := s6.bucket.Remove(CanonicalPath(DotDot(3))), requests := map[1 := Sweeping([])]);
    assert [DotDot(3)][1..] == [];
    assert s6.requests[1 := Sweeping([])] == s7.requests;
    assert Placed(s7.t, 4) && CanonicalPath(RefOf(s7.t, 4)) == CanonicalPath(DotDot(4));
    assert KeyOf(s7.t, prefix, 4) !in s7.bucket.objects;
    assert AllPlaced(s7.t) ==> 4 in Broken(s7.t, s7.bucket, s7.uploaded);
  }

  lemma DotDotBreaks(prefix: string) returns (states: seq<State>, steps: seq<Step>)
    requires TrimSlashes(prefix) != ""
    ensures RowsFirstRun(prefix, {".."}, states, steps) && |states| == 8 && !Intact(states[7])
  {
    hide Next, Initial, Intact;
    var s0, s1, s2, s3 := UploadIsLost(prefix);
    var s5 := SecondSucceeds(prefix, s3);
    var s7 := SweptTooLate(prefix);
    states, steps := [s0, s1, s2, s3, SecondUpload(prefix), s5, Uploaded(prefix), s7], DOT_DOT_STEPS;
  }

  // ---- and objects first is not safe for any name ----

  /** From any state, deleting an AVAILABLE file and crashing between its object and its row leaves a row whose object is gone. */
  lemma CrashAfterEraseBreaks(s: State, f: Id, x: nat) returns (states: seq<State>, steps: seq<Step>)
    requires Canonical(s.t) && f in s.t.files && s.t.files[f].status == AVAILABLE && x !in s.requests
    ensures Run(states, steps) && states[0] == s
    ensures var last := states[|steps|];
            && last.requests == s.requests && last.t == s.t && AllPlaced(last.t)
            && Broken(last.t, last.bucket, last.uploaded) >= Broken(s.t, s.bucket, s.uploaded) + {f}
  {
    hide FileStoragePath, Key;
    RowIsPlaced(s.t, f);
    ObjectPathIsCanonical(s.t, f);
    var r, target := RefOf(s.t, f), TheFile(f);
    var s1 := s.(requests := s.requests[x := Erasing([r], target)], erasable := s.erasable + TargetFiles(s.t, target));
    var s2 := s1.(bucket := s.bucket.Remove(CanonicalPath(r)), requests := s.requests[x := Erasing([], target)]);
    var s3 := s2.(requests := s.requests);
    states, steps := [s, s1, s2, s3], [ListToErase(x, target, [r]), Erase(x, true), Crash(x)];
    assert Next(s, steps[0], s1) by { assert r in [r]; }
    assert Next(s1, steps[1], s2) by { assert [r][1..] == []; }
    assert Next(s2, steps[2], s3) by { assert s2.requests - {x} == s.requests; }
  }
}
