/** One request after the other is a run of the step system: what a handler does in one go are steps that may also be interleaved. */
module SequentialRuns {
  import opened Wrappers
  import opened SemVer
  import opened Schema
  import opened Statistics
  import opened StoragePaths
  import opened StoredObjects
  import opened Storage
  import opened VersionQuery
  import opened FilterParams
  import opened Cleanup
  import opened BulkDelete
  import opened RegistryFacts
  import Registry
  import Race = UploadRace

  /** No request under way. */
  function Idle(w: World, erasable: set<Id>): Race.State {
    Race.State(w.t, w.bucket, w.uploaded, w.next, map[], erasable)
  }

  /** One request under way. */
  function Busy(w: World, erasable: set<Id>, q: Race.Request): Race.State {
    Race.State(w.t, w.bucket, w.uploaded, w.next, map[0 := q], erasable)
  }

  ghost predicate Reaches(s: Race.State, u: Race.State) {
    exists states, steps :: Race.Run(states, steps) && states[0] == s && states[|steps|] == u
  }

  lemma ReachesItself(s: Race.State)
    ensures Reaches(s, s)
  {
    hide Race.Next;
    assert Race.Run([s], []);
  }

  lemma OneMore(s: Race.State, u: Race.State, step: Race.Step, w: Race.State)
    requires Reaches(s, u) && Race.Next(u, step, w)
    ensures Reaches(s, w)
  {
    hide Race.Next;
    var states, steps :| Race.Run(states, steps) && states[0] == s && states[|steps|] == u;
    var more, longer := states + [w], steps + [step];
    forall i | 0 <= i < |longer| ensures Race.Next(more[i], longer[i], more[i + 1]) {
      if i < |steps| {
        assert more[i] == states[i] && more[i + 1] == states[i + 1];
      }
    }
    assert Race.Run(more, longer);
  }

  lemma Along(s: Race.State, u: Race.State, w: Race.State)
    requires Reaches(s, u) && Reaches(u, w)
    ensures Reaches(s, w)
  {
    hide Race.Next;
    var states, steps :| Race.Run(states, steps) && states[0] == u && states[|steps|] == w;
    AlongRun(s, states, steps, |steps|);
  }

  lemma {:induction false} AlongRun(s: Race.State, states: seq<Race.State>, steps: seq<Race.Step>, n: nat)
    requires Race.Run(states, steps) && Reaches(s, states[0]) && n <= |steps|
    ensures Reaches(s, states[n])
  {
    hide Race.Next, Reaches;
    if n > 0 {
      AlongRun(s, states, steps, n - 1);
      OneMore(s, states[n - 1], steps[n - 1], states[n]);
    }
  }

  // ---- sweeps ----

  /** A sweep from its other end: the first call, and then the rest. */
  lemma {:induction false} FirstCallFirst(b: Bucket, r: FileRef, rest: seq<FileRef>, faults: Faults, call: nat)
    ensures AfterSweep(b, [r] + rest, faults, call) == AfterSweep(AfterDelete(b, FileObjectPath(r), faults(call)), rest, faults, call + 1)
    decreases |rest|
  {
    hide FileObjectPath, AfterDelete;
    var all := [r] + rest;
    if rest == [] {
      assert all[..0] == [] && all[0] == r;
    } else {
      var n := |rest| - 1;
      assert all[..|all| - 1] == [r] + rest[..n] && all[|all| - 1] == rest[n];
      FirstCallFirst(b, r, rest[..n], faults, call);
    }
  }

  predicate Reached(fault: Fault) {
    fault == Fine || fault == ReplyLost
  }

  lemma SweepStep(w: World, erasable: set<Id>, r: FileRef, rest: seq<FileRef>, fault: Fault)
    ensures Race.Next(Busy(w, erasable, Race.Sweeping([r] + rest)), Race.Sweep(0, Reached(fault)),
                      Busy(w.(bucket := AfterDelete(w.bucket, FileObjectPath(r), fault)), erasable, Race.Sweeping(rest)))
  {
    hide FileObjectPath, Bucket.Remove;
    var refs := [r] + rest;
    assert refs[0] == r && refs[1..] == rest;
    assert map[0 as nat := Race.Sweeping(refs)][0 := Race.Sweeping(rest)] == map[0 as nat := Race.Sweeping(rest)];
  }

  lemma EraseStep(w: World, erasable: set<Id>, target: Race.Target, r: FileRef, rest: seq<FileRef>, fault: Fault)
    ensures Race.Next(Busy(w, erasable, Race.Erasing([r] + rest, target)), Race.Erase(0, Reached(fault)),
                      Busy(w.(bucket := AfterDelete(w.bucket, FileObjectPath(r), fault)), erasable, Race.Erasing(rest, target)))
  {
    hide FileObjectPath, Bucket.Remove;
    var refs := [r] + rest;
    assert refs[0] == r && refs[1..] == rest;
    assert map[0 as nat := Race.Erasing(refs, target)][0 := Race.Erasing(rest, target)] == map[0 as nat := Race.Erasing(rest, target)];
  }

  lemma SweepEnds(w: World, erasable: set<Id>)
    ensures Race.Next(Busy(w, erasable, Race.Sweeping([])), Race.Crash(0), Idle(w, erasable))
  {
    assert map[0 as nat := Race.Sweeping([])] - {0} == map[];
  }

  /** The objects of listed files that are gone: one step for each call, and the request ends. */
  lemma {:induction false} SweepRuns(s: Race.State, w: World, erasable: set<Id>, refs: seq<FileRef>, faults: Faults, call: nat)
    requires Reaches(s, Busy(w, erasable, Race.Sweeping(refs)))
    ensures Reaches(s, Idle(w.(bucket := AfterSweep(w.bucket, refs, faults, call)), erasable))
    decreases |refs|
  {
    hide FileObjectPath, Reaches, AfterDelete, Race.Next;
    if refs == [] {
      SweepEnds(w, erasable);
      OneMore(s, Busy(w, erasable, Race.Sweeping([])), Race.Crash(0), Idle(w, erasable));
    } else {
      var r, rest := refs[0], refs[1..];
      assert refs == [r] + rest;
      FirstCallFirst(w.bucket, r, rest, faults, call);
      var next := w.(bucket := AfterDelete(w.bucket, FileObjectPath(r), faults(call)));
      SweepStep(w, erasable, r, rest, faults(call));
      OneMore(s, Busy(w, erasable, Race.Sweeping(refs)), Race.Sweep(0, Reached(faults(call))), Busy(next, erasable, Race.Sweeping(rest)));
      hide AfterSweep;
      SweepRuns(s, next, erasable, rest, faults, call + 1);
    }
  }

  /** The objects of listed files whose rows come after them. */
  lemma {:induction false} EraseRuns(s: Race.State, w: World, erasable: set<Id>, target: Race.Target, refs: seq<FileRef>, faults: Faults, call: nat)
    requires Reaches(s, Busy(w, erasable, Race.Erasing(refs, target)))
    ensures Reaches(s, Busy(w.(bucket := AfterSweep(w.bucket, refs, faults, call)), erasable, Race.Erasing([], target)))
    decreases |refs|
  {
    hide FileObjectPath, Reaches, AfterDelete, Race.Next;
    if refs != [] {
      var r, rest := refs[0], refs[1..];
      assert refs == [r] + rest;
      FirstCallFirst(w.bucket, r, rest, faults, call);
      var next := w.(bucket := AfterDelete(w.bucket, FileObjectPath(r), faults(call)));
      EraseStep(w, erasable, target, r, rest, faults(call));
      OneMore(s, Busy(w, erasable, Race.Erasing(refs, target)), Race.Erase(0, Reached(faults(call))), Busy(next, erasable, Race.Erasing(rest, target)));
      hide AfterSweep;
      EraseRuns(s, next, erasable, target, rest, faults, call + 1);
    }
  }

  // ---- uploads ----

  /** What a storage call that does not succeed may leave. */
  function Left(data: Bytes, fault: Fault): Option<Bytes> {
    match fault
    case Fine => None
    case Refused => None
    case ReplyLost => Some(data)
    case CutOff(left) => Some(left)
  }

  lemma BeginStep(w: World, erasable: set<Id>, v: Id, name: string, data: Bytes, created: int)
    requires w.t.AcceptsFile(v, name)
    ensures var r := FileRef(w.next, NewFile(v, name, created), w.t.versions[v].artifact, w.t.versions[v].sv);
            Race.Next(Idle(w, erasable), Race.BeginUpload(0, v, name, data, created),
                      Busy(w.(t := w.t.PutFile(w.next, r.row), next := w.next + 1, uploaded := w.uploaded[w.next := data]), erasable,
                           Race.Upload(r, data, Race.Storing)))
  {
    assert map[][0 as nat := Race.Upload(Race.NewRef(Idle(w, erasable), v, name, created), data, Race.Storing)]
        == map[0 as nat := Race.Upload(Race.NewRef(Idle(w, erasable), v, name, created), data, Race.Storing)];
  }

  lemma StoreStep(w: World, erasable: set<Id>, r: FileRef, data: Bytes, fault: Fault)
    ensures Race.Next(Busy(w, erasable, Race.Upload(r, data, Race.Storing)), Race.Store(0, fault == Fine, Left(data, fault)),
                      Busy(w.(bucket := AfterStore(w.bucket, CanonicalPath(r), data, fault)), erasable,
                           Race.Upload(r, data, if fault == Fine then Race.Finalizing else Race.Failing(false))))
  {
    hide CanonicalPath, Bucket.Put;
    var before, after := Race.Upload(r, data, Race.Storing), Race.Upload(r, data, if fault == Fine then Race.Finalizing else Race.Failing(false));
    assert map[0 as nat := before][0 := after] == map[0 as nat := after];
  }

  lemma FinalizeSteps(w: World, erasable: set<Id>, r: FileRef, data: Bytes)
    requires r.id in w.t.files
    ensures var busy := Busy(w, erasable, Race.Upload(r, data, Race.Finalizing));
            && Race.Next(busy, Race.Finalize(0, true), Idle(w.(t := w.t.SetFile(r.id, CanonicalPath(r), Some(|data|), AVAILABLE)), erasable))
            && Race.Next(busy, Race.Finalize(0, false), Busy(w, erasable, Race.Upload(r, data, Race.Failing(true))))
  {
    hide CanonicalPath, Tables.SetFile;
    var before, after := Race.Upload(r, data, Race.Finalizing), Race.Upload(r, data, Race.Failing(true));
    assert map[0 as nat := before] - {0} == map[];
    assert map[0 as nat := before][0 := after] == map[0 as nat := after];
  }

  lemma MarkStep(w: World, erasable: set<Id>, r: FileRef, data: Bytes, undo: bool, applied: bool)
    requires r.id in w.t.files
    ensures var row := w.t.files[r.id];
            var marked := w.(t := if applied then w.t.SetFile(r.id, row.path, row.size, ERROR) else w.t);
            Race.Next(Busy(w, erasable, Race.Upload(r, data, Race.Failing(undo))), Race.MarkError(0, applied),
                      if undo then Busy(marked, erasable, Race.Upload(r, data, Race.Undoing)) else Idle(marked, erasable))
  {
    var before, after := Race.Upload(r, data, Race.Failing(undo)), Race.Upload(r, data, Race.Undoing);
    assert map[0 as nat := before] - {0} == map[];
    assert map[0 as nat := before][0 := after] == map[0 as nat := after];
  }

  lemma UndoStep(w: World, erasable: set<Id>, r: FileRef, data: Bytes, fault: Fault)
    ensures Race.Next(Busy(w, erasable, Race.Upload(r, data, Race.Undoing)), Race.Undo(0, Reached(fault)),
                      Idle(w.(bucket := AfterDelete(w.bucket, CanonicalPath(r), fault)), erasable))
  {
    hide CanonicalPath, Bucket.Remove;
    assert map[0 as nat := Race.Upload(r, data, Race.Undoing)] - {0} == map[];
  }

  /** Storing and what follows it, whatever fails. */
  lemma StoredRuns(r: Registry.Registry, s: Snapshot, u: Race.State, f: FileRef, data: Bytes, erasable: set<Id>)
    requires f.id in s.w.t.files && Reaches(u, Busy(s.w.(uploaded := s.w.uploaded[f.id := data]), erasable, Race.Upload(f, data, Race.Storing)))
    ensures Reaches(u, Idle(r.Stored(s, f.id, CanonicalPath(f), data).w, erasable))
  {
    hide Reaches, CanonicalPath, Race.Next, Tables.SetFile, AfterStore, AfterDelete, Key;
    var fault := r.store.faults(s.w.calls);
    var written := r.Written(s, f.id, CanonicalPath(f), data);
    StoreStep(s.w.(uploaded := s.w.uploaded[f.id := data]), erasable, f, data, fault);
    OneMore(u, Busy(s.w.(uploaded := s.w.uploaded[f.id := data]), erasable, Race.Upload(f, data, Race.Storing)),
            Race.Store(0, fault == Fine, Left(data, fault)),
            Busy(written.w, erasable, Race.Upload(f, data, if fault == Fine then Race.Finalizing else Race.Failing(false))));
    if fault == Fine {
      FinalizedRuns(r, written, u, f, data, erasable);
    } else {
      MarkStep(written.w, erasable, f, data, false, !r.db.outages(s.statements));
      OneMore(u, Busy(written.w, erasable, Race.Upload(f, data, Race.Failing(false))), Race.MarkError(0, !r.db.outages(s.statements)),
              Idle(r.MarkedError(written, f.id).w, erasable));
    }
  }

  lemma FinalizedRuns(r: Registry.Registry, s: Snapshot, u: Race.State, f: FileRef, data: Bytes, erasable: set<Id>)
    requires f.id in s.w.t.files && Reaches(u, Busy(s.w, erasable, Race.Upload(f, data, Race.Finalizing)))
    ensures Reaches(u, Idle(r.Finalized(s, f.id, CanonicalPath(f), data).w, erasable))
  {
    hide Reaches, CanonicalPath, Race.Next, Tables.SetFile, AfterDelete, Key;
    FinalizeSteps(s.w, erasable, f, data);
    var busy := Busy(s.w, erasable, Race.Upload(f, data, Race.Finalizing));
    if r.db.outages(s.statements) {
      var failing := Busy(s.w, erasable, Race.Upload(f, data, Race.Failing(true)));
      var marked := r.MarkedError(s.(statements := s.statements + 1), f.id);
      OneMore(u, busy, Race.Finalize(0, false), failing);
      MarkStep(s.w, erasable, f, data, true, !r.db.outages(s.statements + 1));
      OneMore(u, failing, Race.MarkError(0, !r.db.outages(s.statements + 1)), Busy(marked.w, erasable, Race.Upload(f, data, Race.Undoing)));
      UndoStep(marked.w, erasable, f, data, r.store.faults(s.w.calls));
      OneMore(u, Busy(marked.w, erasable, Race.Upload(f, data, Race.Undoing)), Race.Undo(0, Reached(r.store.faults(s.w.calls))),
              Idle(r.Finalized(s, f.id, CanonicalPath(f), data).w, erasable));
    } else {
      OneMore(u, busy, Race.Finalize(0, true), Idle(r.Finalized(s, f.id, CanonicalPath(f), data).w, erasable));
    }
  }

  /** An upload: its row, its object, and the end it comes to. */
  lemma UploadRuns(r: Registry.Registry, s: Snapshot, artifact: Id, sv: Semver, name: string, data: Bytes, created: int, erasable: set<Id>)
    ensures Reaches(Idle(s.w, erasable), Idle(r.AfterUpload(s, artifact, sv, name, data, created).w, erasable))
  {
    hide Reaches, Tables.AcceptsFile, FileStoragePath, Race.Next, Registry.Registry.Stored;
    ReachesItself(Idle(s.w, erasable));
    var found := Found(s.w.t, artifact, sv);
    if found.Some? && !r.db.outages(s.statements) && s.w.t.AcceptsFile(found.value, name) {
      var v := found.value;
      var f := FileRef(s.w.next, NewFile(v, name, created), artifact, sv);
      var pending := r.Pending(s, v, name, created);
      BeginStep(s.w, erasable, v, name, data, created);
      OneMore(Idle(s.w, erasable), Idle(s.w, erasable), Race.BeginUpload(0, v, name, data, created),
              Busy(pending.w.(uploaded := s.w.uploaded[s.w.next := data]), erasable, Race.Upload(f, data, Race.Storing)));
      StoredRuns(r, pending, Idle(s.w, erasable), f, data, erasable);
    }
  }

  // ---- deletes ----

  lemma ListedExactly(t: Tables, versions: set<Id>)
    requires AllPlaced(t)
    ensures Race.IsListing(t, Race.FilesOfAll(t, versions), FilesInOrder(t, versions))
  {
    hide FilesInOrder;
  }

  /** Rows first: listed, deleted, swept. */
  lemma RowsFirstRuns(w: World, versions: set<Id>, faults: Faults, erasable: set<Id>)
    requires AllPlaced(w.t) && forall v :: v in versions ==> v < w.next
    ensures Reaches(Idle(w, erasable), Idle(AfterAll(w, FilesInOrder(w.t, versions), faults).(t := w.t.DropVersions(versions)), erasable))
  {
    hide Reaches, AfterSweep, FailedKeys, FilesInOrder, Tables.DropVersions, Race.IsListing;
    var s, refs, dropped := Idle(w, erasable), FilesInOrder(w.t, versions), w.(t := w.t.DropVersions(versions));
    ReachesItself(s);
    ListedExactly(w.t, versions);
    assert map[][0 as nat := Race.Listed(refs, versions, None)] == map[0 as nat := Race.Listed(refs, versions, None)];
    OneMore(s, s, Race.ListRows(0, versions, None, refs), Busy(w, erasable, Race.Listed(refs, versions, None)));
    assert map[0 as nat := Race.Listed(refs, versions, None)][0 := Race.Sweeping(refs)] == map[0 as nat := Race.Sweeping(refs)];
    OneMore(s, Busy(w, erasable, Race.Listed(refs, versions, None)), Race.DeleteVersions(0, versions, refs),
            Busy(dropped, erasable, Race.Sweeping(refs)));
    SweepRuns(s, dropped, erasable, refs, faults, w.calls);
  }

  /** Rows only: listed, deleted, and the request is gone before any storage call. */
  lemma RowsOnlyRuns(w: World, versions: set<Id>, erasable: set<Id>)
    requires AllPlaced(w.t) && forall v :: v in versions ==> v < w.next
    ensures Reaches(Idle(w, erasable), Idle(w.(t := w.t.DropVersions(versions)), erasable))
  {
    hide Reaches, FilesInOrder, Tables.DropVersions, Race.IsListing;
    var s, refs, dropped := Idle(w, erasable), FilesInOrder(w.t, versions), w.(t := w.t.DropVersions(versions));
    ReachesItself(s);
    ListedExactly(w.t, versions);
    assert map[][0 as nat := Race.Listed(refs, versions, None)] == map[0 as nat := Race.Listed(refs, versions, None)];
    OneMore(s, s, Race.ListRows(0, versions, None, refs), Busy(w, erasable, Race.Listed(refs, versions, None)));
    assert map[0 as nat := Race.Listed(refs, versions, None)][0 := Race.Sweeping(refs)] == map[0 as nat := Race.Sweeping(refs)];
    OneMore(s, Busy(w, erasable, Race.Listed(refs, versions, None)), Race.DeleteVersions(0, versions, refs),
            Busy(dropped, erasable, Race.Sweeping(refs)));
    assert map[0 as nat := Race.Sweeping(refs)] - {0} == map[];
    OneMore(s, Busy(dropped, erasable, Race.Sweeping(refs)), Race.Crash(0), Idle(dropped, erasable));
  }

  lemma ArtifactRuns(w: World, a: Id, faults: Faults, erasable: set<Id>)
    requires AllPlaced(w.t) && w.t.IdsBelow(w.next)
    ensures Reaches(Idle(w, erasable),
                    Idle(AfterAll(w, FilesInOrder(w.t, w.t.VersionsOf({a})), faults).(t := w.t.DropArtifacts({a})), erasable))
  {
    hide Reaches, AfterSweep, FailedKeys, FilesInOrder, Tables.DropArtifacts, Race.IsListing;
    var versions := w.t.VersionsOf({a});
    var s, refs, dropped := Idle(w, erasable), FilesInOrder(w.t, versions), w.(t := w.t.DropArtifacts({a}));
    ReachesItself(s);
    ListedExactly(w.t, versions);
    assert map[][0 as nat := Race.Listed(refs, versions, Some(a))] == map[0 as nat := Race.Listed(refs, versions, Some(a))];
    OneMore(s, s, Race.ListRows(0, versions, Some(a), refs), Busy(w, erasable, Race.Listed(refs, versions, Some(a))));
    assert map[0 as nat := Race.Listed(refs, versions, Some(a))][0 := Race.Sweeping(refs)] == map[0 as nat := Race.Sweeping(refs)];
    OneMore(s, Busy(w, erasable, Race.Listed(refs, versions, Some(a))), Race.DeleteArtifact(0), Busy(dropped, erasable, Race.Sweeping(refs)));
    SweepRuns(s, dropped, erasable, refs, faults, w.calls);
  }

  lemma CleaningRuns(w: World, files: set<Id>, faults: Faults, erasable: set<Id>)
    requires AllPlaced(w.t) && forall f :: f in files ==> f in w.t.files && w.t.files[f].Incomplete()
    ensures Reaches(Idle(w, erasable), Idle(AfterAll(w, RowsInOrder(w.t, files), faults).(t := w.t.DropFiles(files)), erasable))
  {
    hide Reaches, AfterSweep, FailedKeys, RowsInOrder, Tables.DropFiles;
    var s, refs, dropped := Idle(w, erasable), RowsInOrder(w.t, files), w.(t := w.t.DropFiles(files));
    ReachesItself(s);
    assert map[][0 as nat := Race.Sweeping(refs)] == map[0 as nat := Race.Sweeping(refs)];
    OneMore(s, s, Race.DeleteIncomplete(0, files, refs), Busy(dropped, erasable, Race.Sweeping(refs)));
    SweepRuns(s, dropped, erasable, refs, faults, w.calls);
  }

  /** Objects first: listed, erased one by one, and then the row. */
  lemma ObjectsFirstRuns(w: World, target: Race.Target, refs: seq<FileRef>, faults: Faults, applied: bool, erasable: set<Id>)
    requires Race.IsListing(w.t, Race.TargetFiles(w.t, target), refs)
    ensures Reaches(Idle(w, erasable),
                    Idle(w.(bucket := AfterSweep(w.bucket, refs, faults, w.calls), t := if applied then Race.Drop(w.t, target) else w.t),
                         erasable + Race.TargetFiles(w.t, target)))
  {
    hide Reaches, AfterSweep, Race.Drop, Race.TargetFiles, Race.IsListing;
    var s, more := Idle(w, erasable), erasable + Race.TargetFiles(w.t, target);
    var swept := w.(bucket := AfterSweep(w.bucket, refs, faults, w.calls));
    ReachesItself(s);
    assert map[][0 as nat := Race.Erasing(refs, target)] == map[0 as nat := Race.Erasing(refs, target)];
    OneMore(s, s, Race.ListToErase(0, target, refs), Busy(w, more, Race.Erasing(refs, target)));
    EraseRuns(s, w, more, target, refs, faults, w.calls);
    assert map[0 as nat := Race.Erasing([], target)] - {0} == map[];
    OneMore(s, Busy(swept, more, Race.Erasing([], target)), Race.DropErased(0, applied),
            Idle(swept.(t := if applied then Race.Drop(w.t, target) else w.t), more));
  }

  lemma FileRuns(r: Registry.Registry, s: Snapshot, artifact: Id, sv: Semver, f: Id, erasable: set<Id>) returns (more: set<Id>)
    requires Good(s.w)
    ensures Reaches(Idle(s.w, erasable), Idle(r.AfterDeletingFile(s, artifact, sv, f).w, erasable + more))
  {
    hide Reaches, AfterDelete, FileStoragePath, Key, Race.Next, Tables.DropFiles, Tables.Ok;
    more := {};
    assert erasable + {} == erasable;
    ReachesItself(Idle(s.w, erasable));
    if FileAt(s.w.t, f, artifact, sv) {
      FiledIsCanonical(s.w.t, s.w.bucket.prefix);
      ObjectPathIsCanonical(s.w.t, f);
      var refs := [RefOf(s.w.t, f)];
      assert AfterSweep(s.w.bucket, refs, r.store.faults, s.w.calls)
          == AfterDelete(s.w.bucket, PathOf(s.w.t, f), r.store.faults(s.w.calls)) by {
        assert refs[..0] == [];
      }
      hide AfterSweep, FileObjectPath, PathOf, KeyOf;
      ObjectsFirstRuns(s.w, Race.TheFile(f), refs, r.store.faults, !r.db.outages(s.statements), erasable);
      more := {f};
    }
  }

  lemma VersionRuns(r: Registry.Registry, s: Snapshot, artifact: Id, sv: Semver, erasable: set<Id>) returns (more: set<Id>)
    requires Good(s.w) && AllPlaced(s.w.t)
    ensures Reaches(Idle(s.w, erasable), Idle(r.AfterDeletingVersion(s, artifact, sv).w, erasable + more))
  {
    hide Reaches, AfterSweep, FilesInOrder, Race.Next, Tables.DropVersions, Filed, FailedKeys, Keys;
    more := {};
    assert erasable + {} == erasable;
    ReachesItself(Idle(s.w, erasable));
    var found := Found(s.w.t, artifact, sv);
    if found.Some? {
      var v, applied := found.value, !r.db.outages(s.statements + 1);
      if !r.db.outages(s.statements) {
        ListedExactly(s.w.t, {v});
        assert Race.FilesOfAll(s.w.t, {v}) == Race.TargetFiles(s.w.t, Race.TheVersion(v));
        ObjectsFirstRuns(s.w, Race.TheVersion(v), FilesInOrder(s.w.t, {v}), r.store.faults, applied, erasable);
        more := s.w.t.FilesOf(v);
      } else if applied {
        RowsOnlyRuns(s.w, {v}, erasable);
      }
    }
  }

  // ---- statements that change no file row ----

  lemma ElsewhereRuns(w: World, t: Tables, next: Id, erasable: set<Id>)
    requires t.files == w.t.files && AllPlaced(t) && Later(w.t, w.next, t) && w.next <= next && Race.RowIdsBelow(t, next)
    ensures Reaches(Idle(w, erasable), Idle(w.(t := t, next := next), erasable))
  {
    hide Reaches, Later, Race.RowIdsBelow, AllPlaced;
    ReachesItself(Idle(w, erasable));
    OneMore(Idle(w, erasable), Idle(w, erasable), Race.Elsewhere(t, next), Idle(w.(t := t, next := next), erasable));
  }

  lemma RowsElsewhere(w: World, t: Tables, next: Id, erasable: set<Id>)
    requires Good(w) && AllPlaced(w.t) && t.files == w.t.files && w.next <= next
    requires forall v :: v in t.versions ==> if v in w.t.versions then t.versions[v] == w.t.versions[v] else w.next <= v < next
    requires forall v :: v in w.t.versions && w.t.HasFiles(v) ==> v in t.versions
    ensures Reaches(Idle(w, erasable), Idle(w.(t := t, next := next), erasable))
  {
    OkParts(w.t, w.next);
    hide Filed, Reaches;
    forall f | f in t.files ensures Placed(t, f) {
      assert Placed(w.t, f) && w.t.HasFiles(w.t.files[f].version);
    }
    ElsewhereRuns(w, t, next, erasable);
  }

  /** Artifact and tag requests change no version and no file. */
  lemma CreatedRows(r: Registry.Registry, q: Registry.Request, s: Snapshot)
    requires Good(s.w) && (q.CreatingArtifact? || q.PuttingTag? || q.DeletingTag?)
    ensures var u := r.Answered(q, s).w;
            u == s.w.(t := u.t, next := u.next) && u.t.files == s.w.t.files && u.t.versions == s.w.t.versions && s.w.next <= u.next
  {
    hide Good, Found, Tables.AcceptsArtifact, Parse;
  }

  lemma CreatingRuns(r: Registry.Registry, q: Registry.Request, s: Snapshot, erasable: set<Id>)
    requires Good(s.w) && AllPlaced(s.w.t) && (q.CreatingArtifact? || q.PuttingTag? || q.DeletingTag?)
    ensures Reaches(Idle(s.w, erasable), Idle(r.Answered(q, s).w, erasable))
  {
    CreatedRows(r, q, s);
    var u := r.Answered(q, s).w;
    hide *;
    SameVersionsRun(s.w, u.t, u.next, erasable);
  }

  /** What creating a version changes of the rows: tags, and perhaps one more version. */
  lemma CreatedVersion(r: Registry.Registry, s: Snapshot, artifact: Id, text: string, names: seq<string>, created: int)
    ensures var u := r.AfterCreatingVersion(s, artifact, text, names, created).w;
            && u == s.w.(t := u.t, next := u.next) && u.t.files == s.w.t.files && s.w.next <= u.next
            && (u.t.versions == s.w.t.versions
                || (u.next == s.w.next + 1 && s.w.next in u.t.versions && u.t.versions == s.w.t.versions[s.w.next := u.t.versions[s.w.next]]))
  {
    hide Interrupted, Tables.AcceptsVersion, Tables.TagAll, Parse;
    if Parse(text).Ok? {
      var row := VersionRow(artifact, Parse(text).value, created);
      TagAllTags(s.w.t.PutVersion(s.w.next, row), artifact, names, s.w.next);
    }
  }

  lemma CreatingVersionRuns(r: Registry.Registry, s: Snapshot, artifact: Id, text: string, names: seq<string>, created: int, erasable: set<Id>)
    requires Good(s.w) && AllPlaced(s.w.t)
    ensures Reaches(Idle(s.w, erasable), Idle(r.AfterCreatingVersion(s, artifact, text, names, created).w, erasable))
  {
    CreatedVersion(r, s, artifact, text, names, created);
    var u := r.AfterCreatingVersion(s, artifact, text, names, created).w;
    hide *;
    if u.t.versions == s.w.t.versions {
      SameVersionsRun(s.w, u.t, u.next, erasable);
    } else {
      OneVersionMoreRuns(s.w, u.t, u.t.versions[s.w.next], erasable);
    }
  }

  lemma SameVersionsRun(w: World, t: Tables, next: Id, erasable: set<Id>)
    requires Good(w) && AllPlaced(w.t) && t.files == w.t.files && t.versions == w.t.versions && w.next <= next
    ensures Reaches(Idle(w, erasable), Idle(w.(t := t, next := next), erasable))
  {
    hide Good, Reaches;
    RowsElsewhere(w, t, next, erasable);
  }

  lemma OneVersionMoreRuns(w: World, t: Tables, row: VersionRow, erasable: set<Id>)
    requires Good(w) && AllPlaced(w.t) && t.files == w.t.files && t.versions == w.t.versions[w.next := row]
    ensures Reaches(Idle(w, erasable), Idle(w.(t := t, next := w.next + 1), erasable))
  {
    OkParts(w.t, w.next);
    hide Good, Reaches;
    RowsElsewhere(w, t, w.next + 1, erasable);
  }

  lemma CleaningRowsRuns(r: Registry.Registry, q: Registry.Request, s: Snapshot, erasable: set<Id>)
    requires Good(s.w) && AllPlaced(s.w.t) && (q.CleaningVersions? || q.CleaningArtifacts? || q.CleaningEmptyArtifacts? || q.CleaningTypes?)
    ensures Reaches(Idle(s.w, erasable), Idle(r.Answered(q, s).w, erasable))
  {
    hide Reaches, Tables.Ok, Filed, Good;
    ReachesItself(Idle(s.w, erasable));
    var t, tag := s.w.t, r.protectedTag;
    match q {
      case CleaningVersions(cutoff) =>
        VersionsGone(t, cutoff, tag);
        hide DropVersionsWithoutFiles;
        RowsElsewhere(s.w, DropVersionsWithoutFiles(t, cutoff, tag), s.w.next, erasable);
      case CleaningArtifacts(cutoff) =>
        CleanedArtifactsHaveNoFiles(t, cutoff, tag);
        NoFilesBelow(t, WithoutTag(t, ArtifactsWithoutFiles(t, cutoff), tag));
        hide Tables.DropArtifacts, ArtifactsWithoutFiles;
        RowsElsewhere(s.w, DropArtifactsWithoutFiles(t, cutoff, tag), s.w.next, erasable);
      case CleaningEmptyArtifacts(cutoff) =>
        CleanedArtifactsHaveNoFiles(t, cutoff, tag);
        NoFilesBelow(t, WithoutTag(t, EmptyArtifacts(t, cutoff), tag));
        hide Tables.DropArtifacts, EmptyArtifacts;
        RowsElsewhere(s.w, DropEmptyArtifacts(t, cutoff, tag), s.w.next, erasable);
      case CleaningTypes(cutoff) =>
        hide UnusedTypes;
        RowsElsewhere(s.w, DropUnusedTypes(t, cutoff), s.w.next, erasable);
    }
  }

  // ---- any request, any requests ----

  /** Every request answered is a run of the step system from rest to rest; only the objects-first deletes list files to erase. */
  lemma RequestIsARun(r: Registry.Registry, q: Registry.Request, s: Snapshot, u: Snapshot, erasable: set<Id>) returns (more: set<Id>)
    requires r.Served(q, s, u)
    ensures Reaches(Idle(s.w, erasable), Idle(u.w, erasable + more))
    ensures !q.ObjectsFirst() ==> more == {}
  {
    GoodIsPlaced(s.w);
    OkParts(s.w.t, s.w.next);
    hide Reaches, Good, Tables.Ok, AfterSweep, FailedKeys, FilesInOrder, RowsInOrder, Tables.DropVersions, Tables.DropArtifacts, Tables.DropFiles, Key, Plain,
         FileAt, Found, Deletable, RightBytes, Requested, BulkOutcome, AllRows, Answer, Stopped, Listable, Fair;
    more := {};
    assert erasable + {} == erasable;
    ReachesItself(Idle(s.w, erasable));
    match q {
      case Uploading(artifact, sv, name, data, created) => UploadRuns(r, s, artifact, sv, name, data, created, erasable);
      case Downloading(artifact, sv, f) =>
      case DeletingFile(artifact, sv, f) => more := FileRuns(r, s, artifact, sv, f, erasable);
      case DeletingVersion(artifact, sv) => more := VersionRuns(r, s, artifact, sv, erasable);
      case DeletingArtifact(artifact) => ArtifactRuns(s.w, artifact, r.store.faults, erasable);
      case BulkDeleting(query, scope, dryRun) => BulkRuns(r, s, query, scope, dryRun, erasable);
      case CleaningFiles(cutoff) =>
        CleaningRuns(s.w, DeletableFiles(s.w.t, cutoff, r.protectedTag), r.store.faults, erasable);
      case CleaningVersions(_) => CleaningRowsRuns(r, q, s, erasable);
      case CleaningArtifacts(_) => CleaningRowsRuns(r, q, s, erasable);
      case CleaningEmptyArtifacts(_) => CleaningRowsRuns(r, q, s, erasable);
      case CleaningTypes(_) => CleaningRowsRuns(r, q, s, erasable);
      case CreatingVersion(artifact, text, names, created) => CreatingVersionRuns(r, s, artifact, text, names, created, erasable);
      case _ => CreatingRuns(r, q, s, erasable);
    }
  }

  /** What a bulk delete alone comes to: nothing, or rows deleted and their files swept. */
  lemma BulkCase(r: Registry.Registry, s: Snapshot, q: Query, scope: Option<Id>, dryRun: bool) returns (gone: set<Id>)
    requires Good(s.w) && AllPlaced(s.w.t)
    ensures var u := r.AfterBulkDelete(s, q, scope, dryRun).w;
            u == s.w || u == AfterAll(s.w, FilesInOrder(s.w.t, gone), r.store.faults).(t := s.w.t.DropVersions(gone))
    ensures gone <= s.w.t.versions.Keys
  {
    hide Good, Fair, Listable, BulkOutcome, Matched, AllRows, FilesInOrder, Tables.DropVersions, AfterAll, RightBytes, Requested, Answer, Stopped, AllPlaced;
    gone := {};
    NobodyIsFair();
    GoodIsListable(s.w);
    if !(scope.Some? && scope.value !in s.w.t.artifacts) && Requested(q, scope.Some?).Some? {
      var wanted := r.Wanted(Requested(q, scope.Some?).value, scope);
      assert Consistent(s.w.t, RightBytes(s.w.t)) by { ListableIsConsistent(s.w); }
      gone := Deletable(s.w.t, RightBytes(s.w.t), wanted);
      hide Deletable;
      AloneCases(s.w, wanted, dryRun, r.db.outages, s.statements, r.store.faults);
    }
  }

  lemma ListableIsConsistent(w: World)
    requires Listable(w)
    ensures Consistent(w.t, RightBytes(w.t))
  {
  }

  lemma BulkRuns(r: Registry.Registry, s: Snapshot, q: Query, scope: Option<Id>, dryRun: bool, erasable: set<Id>)
    requires Good(s.w) && AllPlaced(s.w.t)
    ensures Reaches(Idle(s.w, erasable), Idle(r.AfterBulkDelete(s, q, scope, dryRun).w, erasable))
  {
    OkParts(s.w.t, s.w.next);
    var gone := BulkCase(r, s, q, scope, dryRun);
    hide Reaches, Good, AfterAll, FilesInOrder, Tables.DropVersions, Registry.Registry.AfterBulkDelete, AllPlaced;
    ReachesItself(Idle(s.w, erasable));
    RowsFirstRuns(s.w, gone, r.store.faults, erasable);
  }

  /** So are any requests one after the other. */
  lemma {:induction false} TraceIsARun(r: Registry.Registry, requests: seq<Registry.Request>, trace: seq<Snapshot>, n: nat) returns (erasable: set<Id>)
    requires r.Trace(requests, trace) && n <= |requests|
    ensures Reaches(Idle(trace[0].w, {}), Idle(trace[n].w, erasable))
    ensures (forall q :: q in requests[..n] ==> !q.ObjectsFirst()) ==> erasable == {}
  {
    hide Registry.Registry.Served, Reaches, Registry.Request.ObjectsFirst;
    erasable := {};
    if n == 0 {
      ReachesItself(Idle(trace[0].w, {}));
    } else {
      var before := TraceIsARun(r, requests, trace, n - 1);
      var more := RequestIsARun(r, requests[n - 1], trace[n - 1], trace[n], before);
      erasable := before + more;
      Along(Idle(trace[0].w, {}), Idle(trace[n - 1].w, before), Idle(trace[n].w, erasable));
      assert requests[..n] == requests[..n - 1] + [requests[n - 1]];
    }
  }

  // ---- and may be what other sessions do ----

  ghost predicate OfUpload(step: Race.Step) {
    step.BeginUpload? || step.Store? || step.Finalize? || step.MarkError? || step.Undo?
  }

  lemma UploadStepIsLater(s: Race.State, step: Race.Step, u: Race.State)
    requires Race.Next(s, step, u) && Race.RowIdsBelow(s.t, s.next) && OfUpload(step)
    ensures Later(s.t, s.next, u.t) && s.next <= u.next && u.bucket.prefix == s.bucket.prefix && Race.RowIdsBelow(u.t, u.next)
  {
    hide Key, FileStoragePath, CanonicalPath, Later, Race.RowIdsBelow;
    LaterItself(s.t, s.next);
    FilesBelow(s.t, s.next);
    if step.BeginUpload? {
      LaterPut(s.t, s.next, s.next, Race.NewRef(s, step.v, step.name, step.created).row, s.next + 1);
    } else if u.t != s.t {
      var f := s.requests[step.x].file.id;
      LaterPut(s.t, s.next, f, u.t.files[f], s.next);
    }
  }

  /** A new row, or one that keeps its version and name. */
  lemma LaterPut(t: Tables, next: Id, f: Id, row: FileRow, more: Id)
    requires Race.RowIdsBelow(t, next) && next <= more && f < more
    requires if f in t.files then row.version == t.files[f].version && row.name == t.files[f].name else f == next
    ensures Later(t, next, t.PutFile(f, row)) && Race.RowIdsBelow(t.PutFile(f, row), more)
  {
  }

  lemma FilesBelow(t: Tables, next: Id)
    requires Race.RowIdsBelow(t, next)
    ensures next !in t.files && forall f :: f in t.files ==> f < next
  {
  }

  lemma OtherStepIsLater(s: Race.State, step: Race.Step, u: Race.State)
    requires Race.Next(s, step, u) && Race.RowIdsBelow(s.t, s.next) && !OfUpload(step)
    ensures Later(s.t, s.next, u.t) && s.next <= u.next && u.bucket.prefix == s.bucket.prefix && Race.RowIdsBelow(u.t, u.next)
  {
    hide Key, FileObjectPath, AllPlaced, Race.IsListing, Race.FilesOfAll, Race.TargetFiles, Tables.AcceptsFile;
  }

  /** No step changes a file's or version's coordinates, or takes an id that was used. */
  lemma StepIsLater(s: Race.State, step: Race.Step, u: Race.State)
    requires Race.Next(s, step, u) && Race.RowIdsBelow(s.t, s.next)
    ensures Later(s.t, s.next, u.t) && s.next <= u.next && u.bucket.prefix == s.bucket.prefix && Race.RowIdsBelow(u.t, u.next)
  {
    hide Race.Next, Later, Race.RowIdsBelow;
    if OfUpload(step) {
      UploadStepIsLater(s, step, u);
    } else {
      OtherStepIsLater(s, step, u);
    }
  }

  lemma {:induction false} RunIsLater(states: seq<Race.State>, steps: seq<Race.Step>, n: nat)
    requires Race.Run(states, steps) && Race.RowIdsBelow(states[0].t, states[0].next) && n <= |steps|
    ensures var s, u := states[0], states[n];
            Later(s.t, s.next, u.t) && s.next <= u.next && u.bucket.prefix == s.bucket.prefix && Race.RowIdsBelow(u.t, u.next)
  {
    if n == 0 {
      LaterItself(states[0].t, states[0].next);
    } else {
      RunIsLater(states, steps, n - 1);
      StepIsLater(states[n - 1], steps[n - 1], states[n]);
      hide Race.Next, Later;
      LaterTwice(states[0].t, states[0].next, states[n - 1].t, states[n - 1].next, states[n].t);
    }
  }

  lemma LaterTwice(t: Tables, next: nat, u: Tables, more: nat, w: Tables)
    requires Race.RowIdsBelow(t, next) && Later(t, next, u) && Later(u, more, w) && next <= more
    ensures Later(t, next, w)
  {
  }

  /** What other sessions are allowed to do to a bulk delete takes in any requests at all, answered by whatever server. */
  lemma AnyRequestsAreAllowed(r: Registry.Registry, requests: seq<Registry.Request>, trace: seq<Snapshot>)
    requires r.Trace(requests, trace) && Good(trace[0].w)
    ensures var w, u := trace[0].w, trace[|requests|].w; Follows(w, u.(calls := w.calls, failed := w.failed))
  {
    var erasable := TraceIsARun(r, requests, trace, |requests|);
    var w, u := trace[0].w, trace[|requests|].w;
    OkParts(w.t, w.next);
    hide Registry.Registry.Trace, Registry.Registry.Served, Good, Race.Next, Later;
    var states, steps :| Race.Run(states, steps) && states[0] == Idle(w, {}) && states[|steps|] == Idle(u, erasable);
    RunIsLater(states, steps, |steps|);
  }

  /** Some requests, answered one after the other by the server, turn the world w into u; the calls they make are not this session's. */
  ghost predicate ByRequests(r: Registry.Registry, w: World, u: World) {
    exists requests: seq<Registry.Request>, trace: seq<Snapshot> ::
      && r.Trace(requests, trace) && trace[0].w == w && Good(trace[|requests|].w)
      && u == trace[|requests|].w.(calls := w.calls, failed := w.failed)
  }

  /** So the results about bulk deletes hold whatever requests other sessions get answered between its steps. */
  lemma RequestsAreFair(r: Registry.Registry, others: Others)
    requires forall i, w :: Good(w) ==> ByRequests(r, w, others(i, w))
    ensures Fair(others)
  {
    forall i, w | Good(w) ensures Good(others(i, w)) && Follows(w, others(i, w)) {
      RequestsFollow(r, w, others(i, w));
    }
  }

  lemma RequestsFollow(r: Registry.Registry, w: World, u: World)
    requires Good(w) && ByRequests(r, w, u)
    ensures Good(u) && Follows(w, u)
  {
    hide Registry.Registry.Served, Follows, Tables.Ok, Filed;
    var requests: seq<Registry.Request>, trace: seq<Snapshot> :|
      && r.Trace(requests, trace) && trace[0].w == w && Good(trace[|requests|].w)
      && u == trace[|requests|].w.(calls := w.calls, failed := w.failed);
    AnyRequestsAreAllowed(r, requests, trace);
  }
}
