/** Every step keeps a transaction's footprint and locks in order, and apart from those of every other transaction. */
module StatsLocks {
  import opened Wrappers
  import opened Schema
  import opened Statistics
  import opened ConcurrentStats
  import opened StatsSteps

  // ---- one written row or one taken lock, predicate by predicate ----

  lemma FileWritten(files: map<Id, FileRow>, fileW: Writes<FileRow>, fvers: set<Id>, held: set<Id>, f: Id, row: Option<FileRow>, v: Id, held': set<Id>)
    requires FilesTracked(files, fileW, fvers, held) && held <= held'
    requires row.Some? ==> row.value.version == v && (f in files || v in held')
    requires f in files ==> files[f].version == v
    ensures FilesTracked(files, fileW[f := row], fvers + {v}, held')
  {
  }

  lemma VersionWritten(versions: map<Id, VRow>, verW: Writes<VRow>, touched: set<Id>, held: set<Id>, v: Id, row: Option<VRow>, a: Id, held': set<Id>)
    requires VersionsTracked(versions, verW, touched, held) && held <= held'
    requires row.Some? ==> row.value.artifact == a && (v in versions || a in held')
    requires v in versions ==> versions[v].artifact == a
    ensures VersionsTracked(versions, verW[v := row], touched + {a}, held')
  {
  }

  lemma MoreHeld(c: Db, t: Tx, vHeld: set<Id>, aHeld: set<Id>)
    requires FilesTracked(c.files, t.fileW, t.fvers, t.vShare + t.verW.Keys) && t.vShare + t.verW.Keys <= vHeld
    requires VersionsTracked(c.versions, t.verW, t.touched, t.aShare + t.artW.Keys) && t.aShare + t.artW.Keys <= aHeld
    ensures FilesTracked(c.files, t.fileW, t.fvers, vHeld)
    ensures VersionsTracked(c.versions, t.verW, t.touched, aHeld)
  {
  }

  lemma RowDeleted<V>(w: Writes<V>, ids: set<Id>, i: Id, row: Option<V>)
    requires AllDeleted(w, ids)
    ensures row.Some? && i !in ids ==> AllDeleted(w[i := row], ids)
    ensures row.None? ==> AllDeleted(w[i := row], ids + {i}) && AllDeleted(w[i := row], ids)
    ensures AllDeleted(w, ids - {i})
  {
  }

  lemma SyncedOrDue(artifacts: set<Id>, touched: set<Id>, due: set<Id>, aLock: set<Id>, a: Id, artifacts': set<Id>)
    requires LockedOnceSynced(artifacts, touched, due, aLock)
    ensures LockedOnceSynced(artifacts, touched + {a}, due + {a}, aLock)
    ensures artifacts' <= artifacts + {a} ==> LockedOnceSynced(artifacts', touched, due, aLock + {a})
    ensures (a in artifacts ==> a in aLock) ==> LockedOnceSynced(artifacts, touched, due - {a}, aLock)
  {
  }

  lemma FreshUnderMoreLocks(artifacts: set<Id>, versions: map<Id, VRow>, due: map<Id, Option<Stats>>, aLock: set<Id>, a: Id, artifacts': set<Id>)
    requires SnapshotsFresh(artifacts, versions, due, aLock) && artifacts' <= artifacts + {a}
    requires a in artifacts || a !in due || a !in artifacts'
    ensures SnapshotsFresh(artifacts', versions, due, aLock + {a})
  {
  }

  lemma FreshAfterTrigger(artifacts: set<Id>, versions: map<Id, VRow>, due: map<Id, Option<Stats>>, aLock: set<Id>, a: Id)
    requires SnapshotsFresh(artifacts, versions, due, aLock)
    ensures SnapshotsFresh(artifacts, versions, due - {a}, aLock)
    ensures (a in artifacts ==> a in aLock) ==> SnapshotsFresh(artifacts, versions, due[a := Some(Aggregated(versions, a))], aLock)
  {
  }

  lemma FreshAfterVersion(artifacts: set<Id>, versions: map<Id, VRow>, due: map<Id, Option<Stats>>, aLock: set<Id>, v: Id, row: Option<VRow>, a: Id)
    requires SnapshotsFresh(artifacts, versions, due, aLock)
    requires v in versions ==> versions[v].artifact == a
    requires row.Some? ==> row.value.artifact == a
    ensures SnapshotsFresh(artifacts, Put(versions, v, row), due[a := None], aLock)
  {
    RowsAfterVersion(versions, v, row, a);
  }

  // ---- the writes of a step ----

  lemma WriteFileKeepsTracked(c: Db, t: Tx, f: Id, row: Option<FileRow>, v: Id, delta: int, next: Id)
    requires Tracked(c, t, next) && f < next && v < next
    requires row.Some? ==> row.value.version == v && (f in c.files || v in t.vShare + t.verW.Keys)
    requires f in c.files ==> c.files[f].version == v
    ensures Tracked(c, WriteFile(t, f, row, v, delta), next)
  {
    hide FilesTracked, VersionsTracked, AllDeleted, LockedOnceSynced, SnapshotsFresh;
    FileWritten(c.files, t.fileW, t.fvers, t.vShare + t.verW.Keys, f, row, v, t.vShare + t.verW.Keys);
  }

  lemma WriteVersionKeepsTracked(c: Db, t: Tx, v: Id, row: Option<VRow>, a: Id, next: Id)
    requires Tracked(c, t, next) && v < next && a < next
    requires v in View(c, t).versions ==> View(c, t).versions[v].artifact == a
    requires v in c.versions ==> c.versions[v].artifact == a
    requires row.Some? ==> row.value.artifact == a && v !in t.orphV && (v in c.versions || a in t.aShare + t.artW.Keys)
    ensures Tracked(c, WriteVersion(t, v, row, a), next)
  {
    hide FilesTracked, VersionsTracked, AllDeleted, LockedOnceSynced, SnapshotsFresh;
    var see := View(c, t);
    OverlayPut(c.versions, t.verW, v, row);
    MoreHeld(c, t, t.vShare + t.verW[v := row].Keys, t.aShare + t.artW.Keys);
    VersionWritten(c.versions, t.verW, t.touched, t.aShare + t.artW.Keys, v, row, a, t.aShare + t.artW.Keys);
    RowDeleted(t.verW, t.orphV, v, row);
    SyncedOrDue(see.artifacts.Keys, t.touched, t.due.Keys, t.aLock, a, {});
    FreshAfterVersion(see.artifacts.Keys, see.versions, t.due, t.aLock, v, row, a);
    assert t.due[a := None].Keys == t.due.Keys + {a};
  }

  lemma WriteArtifactKeepsTracked(c: Db, t: Tx, a: Id, row: Option<Stats>, next: Id)
    requires Tracked(c, t, next) && a < next
    requires row.Some? ==> (a in View(c, t).artifacts || a !in t.due) && a !in t.orphA
    ensures Tracked(c, WriteArtifact(t, a, row), next)
  {
    hide FilesTracked, VersionsTracked, AllDeleted, LockedOnceSynced, SnapshotsFresh;
    var see := View(c, t);
    OverlayPut(c.artifacts, t.artW, a, row);
    var after := Overlay(c.artifacts, t.artW[a := row]).Keys;
    MoreHeld(c, t, t.vShare + t.verW.Keys, t.aShare + t.artW[a := row].Keys);
    RowDeleted(t.artW, t.orphA, a, row);
    SyncedOrDue(see.artifacts.Keys, t.touched, t.due.Keys, t.aLock, a, after);
    FreshUnderMoreLocks(see.artifacts.Keys, see.versions, t.due, t.aLock, a, after);
  }

  lemma LockKeepsTracked(c: Db, t: Tx, a: Id, next: Id)
    requires Tracked(c, t, next) && a in View(c, t).artifacts && a < next
    ensures Tracked(c, t.(aLock := t.aLock + {a}), next)
  {
    hide FilesTracked, VersionsTracked, AllDeleted, LockedOnceSynced, SnapshotsFresh;
    var see := View(c, t);
    SyncedOrDue(see.artifacts.Keys, t.touched, t.due.Keys, t.aLock, a, see.artifacts.Keys);
    FreshUnderMoreLocks(see.artifacts.Keys, see.versions, t.due, t.aLock, a, see.artifacts.Keys);
  }

  lemma ShareKeepsTracked(c: Db, t: Tx, x: Id, next: Id)
    requires Tracked(c, t, next)
    ensures x in c.versions.Keys + t.verW.Keys ==> Tracked(c, t.(vShare := t.vShare + {x}), next)
    ensures x in c.artifacts.Keys + t.artW.Keys ==> Tracked(c, t.(aShare := t.aShare + {x}), next)
  {
    hide FilesTracked, VersionsTracked, AllDeleted, LockedOnceSynced, SnapshotsFresh;
    MoreHeld(c, t, t.vShare + {x} + t.verW.Keys, t.aShare + {x} + t.artW.Keys);
  }

  lemma CascadeKeepsTracked(c: Db, t: Tx, x: Id, next: Id)
    requires Tracked(c, t, next)
    ensures Tracked(c, t.(orphV := t.orphV - {x}), next) && Tracked(c, t.(orphA := t.orphA - {x}), next)
  {
    RowDeleted(t.verW, t.orphV, x, None);
    RowDeleted(t.artW, t.orphA, x, None);
    hide FilesTracked, VersionsTracked, AllDeleted, LockedOnceSynced, SnapshotsFresh;
  }

  lemma OrphansKeepTracked(c: Db, t: Tx, x: Id, next: Id)
    requires Tracked(c, t, next)
    ensures x in t.verW && t.verW[x].None? ==> Tracked(c, t.(orphV := t.orphV + {x}), next)
    ensures x in t.artW && t.artW[x].None? ==> Tracked(c, t.(orphA := t.orphA + {x}), next)
  {
    hide FilesTracked, VersionsTracked, LockedOnceSynced, SnapshotsFresh;
  }

  lemma PendingDoneKeepsTracked(c: Db, t: Tx, v: Id, next: Id)
    requires Tracked(c, t, next)
    ensures Tracked(c, t.(pend := t.pend - {v}), next)
  {
    hide FilesTracked, VersionsTracked, AllDeleted, LockedOnceSynced, SnapshotsFresh;
  }

  lemma TriggerKeepsTracked(c: Db, t: Tx, a: Id, next: Id)
    requires Tracked(c, t, next) && a in t.due && (a in View(c, t).artifacts ==> a in t.aLock)
    ensures Tracked(c, t.(due := t.due - {a}), next)
    ensures Tracked(c, t.(due := t.due[a := Some(Aggregated(View(c, t).versions, a))]), next)
  {
    hide FilesTracked, VersionsTracked, AllDeleted, LockedOnceSynced, SnapshotsFresh;
    var see := View(c, t);
    SyncedOrDue(see.artifacts.Keys, t.touched, t.due.Keys, t.aLock, a, {});
    FreshAfterTrigger(see.artifacts.Keys, see.versions, t.due, t.aLock, a);
    assert (t.due - {a}).Keys == t.due.Keys - {a};
    assert t.due[a := Some(Aggregated(see.versions, a))].Keys == t.due.Keys;
  }

  // ---- a whole step ----

  /** What a visible row tells about the ids in use, the committed row below it, and the locks held. */
  ghost predicate Sees(c: Db, t: Tx, next: Id) {
    var see := View(c, t);
    && (forall f :: f in see.files ==>
          && f < next && see.files[f].version < next
          && (if f in c.files then c.files[f].version == see.files[f].version else see.files[f].version in t.vShare + t.verW.Keys))
    && (forall v :: v in see.versions ==>
          && v < next && see.versions[v].artifact < next
          && v in c.versions.Keys + t.verW.Keys && v !in t.orphV
          && (if v in c.versions then c.versions[v].artifact == see.versions[v].artifact else see.versions[v].artifact in t.aShare + t.artW.Keys))
    && (forall a :: a in see.artifacts ==> a < next && a in c.artifacts.Keys + t.artW.Keys && a !in t.orphA)
    && (forall a :: a in t.due && t.due[a].Some? && a in see.artifacts ==> a in t.aLock)
  }

  lemma SeenFiles(c: Db, t: Tx, next: Id)
    requires Coherent(c, t) && Tracked(c, t, next) && IdsUsed(c, next)
    ensures forall f :: f in View(c, t).files ==>
              && f < next && View(c, t).files[f].version < next
              && (f in c.files ==> c.files[f].version == View(c, t).files[f].version)
              && (f !in c.files ==> View(c, t).files[f].version in t.vShare + t.verW.Keys)
  {
    SeenReferences(c, t);
    hide Coherent, VersionsTracked, AllDeleted, LockedOnceSynced, SnapshotsFresh;
  }

  lemma SeenVersions(c: Db, t: Tx, next: Id)
    requires Coherent(c, t) && Tracked(c, t, next) && IdsUsed(c, next)
    ensures forall v :: v in View(c, t).versions ==>
              && v < next && View(c, t).versions[v].artifact < next
              && v in c.versions.Keys + t.verW.Keys && v !in t.orphV
              && (v in c.versions ==> c.versions[v].artifact == View(c, t).versions[v].artifact)
              && (v !in c.versions ==> View(c, t).versions[v].artifact in t.aShare + t.artW.Keys)
  {
    SeenReferences(c, t);
    hide Coherent, FilesTracked, LockedOnceSynced, SnapshotsFresh;
  }

  lemma SeenArtifacts(c: Db, t: Tx, next: Id)
    requires Tracked(c, t, next) && IdsUsed(c, next)
    ensures forall a :: a in View(c, t).artifacts ==> a < next && a in c.artifacts.Keys + t.artW.Keys && a !in t.orphA
    ensures forall a :: a in t.due && t.due[a].Some? && a in View(c, t).artifacts ==> a in t.aLock
  {
    hide FilesTracked, VersionsTracked, LockedOnceSynced;
  }

  lemma SeesWhatItTracks(c: Db, t: Tx, next: Id)
    requires Coherent(c, t) && Tracked(c, t, next) && IdsUsed(c, next)
    ensures Sees(c, t, next)
  {
    hide Coherent, Tracked, IdsUsed;
    SeenFiles(c, t, next);
    SeenVersions(c, t, next);
    SeenArtifacts(c, t, next);
  }

  lemma NextIsUnused(c: Db, t: Tx, next: Id)
    requires Tracked(c, t, next) && IdsUsed(c, next)
    ensures Tracked(c, t, next + 1)
    ensures next !in c.files && next !in c.versions && next !in t.due && next !in t.orphV && next !in t.orphA
    ensures next !in t.fileW && next !in t.verW && next !in t.artW && next !in t.fvers && next !in t.aLock && next !in t.touched
    ensures next !in t.vShare && next !in t.aShare
  {
    hide FilesTracked, VersionsTracked, LockedOnceSynced, SnapshotsFresh;
  }

  lemma FileStepsKeepTracked(c: Db, t: Tx, op: Op, next: Id)
    requires Tracked(c, t, next) && IdsUsed(c, next) && Sees(c, t, next) && Enabled(c, t, op, true)
    requires op.InsertFile? || op.UpdateFile? || op.DeleteFile?
    ensures Tracked(c, Apply(c, t, op, next), next + 1)
  {
    hide Tracked, IdsUsed;
    NextIsUnused(c, t, next);
    var see, n := View(c, t), next + 1;
    match op {
      case InsertFile(row) =>
        ShareKeepsTracked(c, t, row.version, n);
        WriteFileKeepsTracked(c, t.(vShare := t.vShare + {row.version}), next, Some(row), row.version, CountedBytes(Some(row)), n);
      case UpdateFile(f, row) =>
        WriteFileKeepsTracked(c, t, f, Some(row), row.version, CountedBytes(Some(row)) - CountedBytes(Some(see.files[f])), n);
      case DeleteFile(f) =>
        WriteFileKeepsTracked(c, t, f, None, see.files[f].version, -CountedBytes(Some(see.files[f])), n);
    }
  }

  lemma ApplyDeltaKeepsTracked(c: Db, t: Tx, v: Id, next: Id)
    requires Tracked(c, t, next) && Sees(c, t, next) && v in t.pend
    ensures v in View(c, t).versions ==>
              var row := View(c, t).versions[v];
              Tracked(c, WriteVersion(t.(pend := t.pend - {v}), v, Some(row.(bytes := row.bytes + t.pend[v])), row.artifact), next)
    ensures v !in View(c, t).versions ==> Tracked(c, t.(pend := t.pend - {v}), next)
  {
    hide Tracked;
    PendingDoneKeepsTracked(c, t, v, next);
    var see := View(c, t);
    if v in see.versions {
      var row := see.versions[v].(bytes := see.versions[v].bytes + t.pend[v]);
      WriteVersionKeepsTracked(c, t.(pend := t.pend - {v}), v, Some(row), row.artifact, next);
    }
  }

  lemma InsertVersionKeepsTracked(c: Db, t: Tx, a: Id, next: Id)
    requires Tracked(c, t, next) && IdsUsed(c, next) && Sees(c, t, next) && a in View(c, t).artifacts
    ensures Tracked(c, WriteVersion(t, next, Some(VRow(a, 0)), a).(aShare := t.aShare + {a}), next + 1)
  {
    hide Tracked, IdsUsed;
    NextIsUnused(c, t, next);
    ShareKeepsTracked(c, t, a, next + 1);
    hide Sees;
    WriteVersionKeepsTracked(c, t.(aShare := t.aShare + {a}), next, Some(VRow(a, 0)), a, next + 1);
  }

  lemma DeleteVersionKeepsTracked(c: Db, t: Tx, v: Id, next: Id)
    requires Tracked(c, t, next) && Sees(c, t, next) && v in View(c, t).versions
    ensures Tracked(c, WriteVersion(t, v, None, View(c, t).versions[v].artifact).(orphV := t.orphV + {v}), next)
  {
    hide Tracked;
    var a := View(c, t).versions[v].artifact;
    WriteVersionKeepsTracked(c, t, v, None, a, next);
    hide Sees;
    OrphansKeepTracked(c, WriteVersion(t, v, None, a), v, next);
  }

  lemma VersionStepsKeepTracked(c: Db, t: Tx, op: Op, next: Id)
    requires Tracked(c, t, next) && IdsUsed(c, next) && Sees(c, t, next) && Enabled(c, t, op, true)
    requires op.ApplyDelta? || op.InsertVersion? || op.DeleteVersion?
    ensures Tracked(c, Apply(c, t, op, next), next + 1)
  {
    hide Tracked, IdsUsed, Sees;
    NextKeepsTracked(c, t, next);
    SeesMore(c, t, next);
    match op {
      case ApplyDelta(v) => ApplyDeltaKeepsTracked(c, t, v, next + 1);
      case InsertVersion(a) => InsertVersionKeepsTracked(c, t, a, next);
      case DeleteVersion(v) => DeleteVersionKeepsTracked(c, t, v, next + 1);
    }
  }

  lemma NextKeepsTracked(c: Db, t: Tx, next: Id)
    requires Tracked(c, t, next)
    ensures Tracked(c, t, next + 1)
  {
    hide FilesTracked, VersionsTracked, LockedOnceSynced, SnapshotsFresh, AllDeleted;
  }

  lemma SeesMore(c: Db, t: Tx, next: Id)
    requires Sees(c, t, next)
    ensures Sees(c, t, next + 1)
  {
  }

  lemma ArtifactStepsKeepTracked(c: Db, t: Tx, op: Op, next: Id)
    requires Tracked(c, t, next) && IdsUsed(c, next) && Sees(c, t, next) && Enabled(c, t, op, true)
    requires op.InsertArtifact? || op.DeleteArtifact? || op.LockArtifact? || op.TakeSnapshot? || op.WriteStats?
    ensures Tracked(c, Apply(c, t, op, next), next + 1)
  {
    hide Tracked, IdsUsed;
    NextIsUnused(c, t, next);
    var see, n := View(c, t), next + 1;
    match op {
      case InsertArtifact => WriteArtifactKeepsTracked(c, t, next, Some(Stats(0, 0, 0)), n);
      case DeleteArtifact(a) =>
        WriteArtifactKeepsTracked(c, t, a, None, n);
        OrphansKeepTracked(c, WriteArtifact(t, a, None), a, n);
      case LockArtifact(a) => LockKeepsTracked(c, t, a, n);
      case TakeSnapshot(a) => TriggerKeepsTracked(c, t, a, n);
      case WriteStats(a) =>
        TriggerKeepsTracked(c, t, a, n);
        if a in see.artifacts { WriteArtifactKeepsTracked(c, t.(due := t.due - {a}), a, t.due[a], n); }
    }
  }

  lemma DoKeepsTracked(c: Db, t: Tx, op: Op, next: Id)
    requires Coherent(c, t) && Tracked(c, t, next) && IdsUsed(c, next) && Enabled(c, t, op, true)
    ensures Tracked(c, Apply(c, t, op, next), next + 1)
  {
    hide Coherent, Tracked, IdsUsed, Sees;
    SeesWhatItTracks(c, t, next);
    NextKeepsTracked(c, t, next);
    if op.InsertFile? || op.UpdateFile? || op.DeleteFile? {
      FileStepsKeepTracked(c, t, op, next);
    } else if op.ApplyDelta? || op.InsertVersion? || op.DeleteVersion? {
      VersionStepsKeepTracked(c, t, op, next);
    } else if op.FilesCascaded? {
      CascadeKeepsTracked(c, t, op.v, next + 1);
    } else if op.VersionsCascaded? {
      CascadeKeepsTracked(c, t, op.a, next + 1);
    } else {
      ArtifactStepsKeepTracked(c, t, op, next);
    }
  }

  // ---- and keeps transactions apart ----

  ghost predicate Together(c: Db, t: Tx, u: Tx) {
    Apart(c, t, u) && Apart(c, u, t)
  }

  lemma WriteFileKeepsApart(c: Db, t: Tx, u: Tx, f: Id, row: Option<FileRow>, v: Id, delta: int)
    requires Together(c, t, u) && f !in u.fileW && (v in u.verW ==> v in c.versions)
    ensures Together(c, WriteFile(t, f, row, v, delta), u)
  {
  }

  lemma WriteVersionKeepsApart(c: Db, t: Tx, u: Tx, v: Id, row: Option<VRow>, a: Id)
    requires Together(c, t, u) && v !in u.verW && (row.None? ==> v !in u.vShare)
    requires v in t.verW || v in c.versions || v !in u.fvers
    requires a in u.artW ==> a in c.artifacts
    ensures Together(c, WriteVersion(t, v, row, a), u)
  {
  }

  lemma WriteArtifactKeepsApart(c: Db, t: Tx, u: Tx, a: Id, row: Option<Stats>)
    requires Together(c, t, u) && a !in u.aLock && a !in u.aShare
    requires a in t.artW || a in c.artifacts || a !in u.touched
    ensures Together(c, WriteArtifact(t, a, row), u)
  {
  }

  lemma LocksKeepApart(c: Db, t: Tx, u: Tx, x: Id)
    requires Together(c, t, u)
    ensures x !in u.aLock && x !in u.aShare ==> Together(c, t.(aLock := t.aLock + {x}), u)
    ensures x !in u.aLock ==> Together(c, t.(aShare := t.aShare + {x}), u)
    ensures (x in u.verW ==> u.verW[x].Some?) ==> Together(c, t.(vShare := t.vShare + {x}), u)
  {
  }

  lemma SameFootprintApart(c: Db, t: Tx, u: Tx, t': Tx)
    requires Together(c, t, u)
    requires t'.fileW == t.fileW && t'.verW == t.verW && t'.artW == t.artW && t'.fvers == t.fvers && t'.touched == t.touched
    requires t'.aLock == t.aLock && t'.vShare == t.vShare && t'.aShare == t.aShare
    ensures Together(c, t', u)
  {
  }

  /** Nothing a transaction sees refers to a row another has inserted, and its own locks keep the other's away. */
  ghost predicate SeesNoneOf(c: Db, t: Tx, u: Tx) {
    var see := View(c, t);
    && (forall f :: f in see.files && see.files[f].version in u.verW ==> see.files[f].version in c.versions)
    && (forall v :: v in see.versions && v in u.verW ==> v in c.versions)
    && (forall v :: v in see.versions ==> v in t.verW || v in c.versions)
    && (forall v :: v in see.versions && see.versions[v].artifact in u.artW ==> see.versions[v].artifact in c.artifacts)
    && (forall a :: a in see.artifacts ==> a in t.artW || a in c.artifacts)
    && (forall a :: a in see.artifacts && a in u.artW ==> a in c.artifacts)
    && (forall a :: a in t.due && t.due[a].Some? && a in see.artifacts ==> a !in u.aLock && a !in u.aShare)
  }

  lemma SeenIsNotOthers(c: Db, t: Tx, u: Tx, next: Id)
    requires Coherent(c, t) && Tracked(c, t, next) && Tracked(c, u, next) && Together(c, t, u)
    ensures SeesNoneOf(c, t, u)
  {
    hide Coherent, FilesTracked, VersionsTracked, LockedOnceSynced;
    SeenReferences(c, t);
  }

  lemma FileStepsKeepApart(c: Db, t: Tx, u: Tx, op: Op, next: Id)
    requires Together(c, t, u) && SeesNoneOf(c, t, u) && Tracked(c, u, next) && IdsUsed(c, next)
    requires Enabled(c, t, op, true) && Granted(c, t, op, u) && (op.InsertFile? || op.UpdateFile? || op.DeleteFile?)
    ensures Together(c, Apply(c, t, op, next), u)
  {
    hide Together, Tracked, IdsUsed;
    NextIsUnused(c, u, next);
    var see := View(c, t);
    match op {
      case InsertFile(row) =>
        LocksKeepApart(c, t, u, row.version);
        WriteFileKeepsApart(c, t.(vShare := t.vShare + {row.version}), u, next, Some(row), row.version, CountedBytes(Some(row)));
      case UpdateFile(f, row) =>
        WriteFileKeepsApart(c, t, u, f, Some(row), row.version, CountedBytes(Some(row)) - CountedBytes(Some(see.files[f])));
      case DeleteFile(f) =>
        WriteFileKeepsApart(c, t, u, f, None, see.files[f].version, -CountedBytes(Some(see.files[f])));
    }
  }

  lemma ApplyDeltaKeepsApart(c: Db, t: Tx, u: Tx, v: Id)
    requires Together(c, t, u) && SeesNoneOf(c, t, u) && Enabled(c, t, ApplyDelta(v), true) && Granted(c, t, ApplyDelta(v), u)
    ensures v in View(c, t).versions ==>
              var row := View(c, t).versions[v];
              Together(c, WriteVersion(t.(pend := t.pend - {v}), v, Some(row.(bytes := row.bytes + t.pend[v])), row.artifact), u)
    ensures v !in View(c, t).versions ==> Together(c, t.(pend := t.pend - {v}), u)
  {
    hide Together;
    var done := t.(pend := t.pend - {v});
    SameFootprintApart(c, t, u, done);
    if v in View(c, t).versions {
      var row := View(c, t).versions[v];
      WriteVersionKeepsApart(c, done, u, v, Some(row.(bytes := row.bytes + t.pend[v])), row.artifact);
    }
  }

  lemma InsertVersionKeepsApart(c: Db, t: Tx, u: Tx, a: Id, next: Id)
    requires Together(c, t, u) && SeesNoneOf(c, t, u) && Tracked(c, u, next) && IdsUsed(c, next)
    requires Enabled(c, t, InsertVersion(a), true) && Granted(c, t, InsertVersion(a), u)
    ensures Together(c, WriteVersion(t, next, Some(VRow(a, 0)), a).(aShare := t.aShare + {a}), u)
  {
    hide Together, Tracked, IdsUsed;
    NextIsUnused(c, u, next);
    LocksKeepApart(c, t, u, a);
    WriteVersionKeepsApart(c, t.(aShare := t.aShare + {a}), u, next, Some(VRow(a, 0)), a);
  }

  lemma DeleteVersionKeepsApart(c: Db, t: Tx, u: Tx, v: Id)
    requires Together(c, t, u) && SeesNoneOf(c, t, u) && Enabled(c, t, DeleteVersion(v), true) && Granted(c, t, DeleteVersion(v), u)
    ensures Together(c, WriteVersion(t, v, None, View(c, t).versions[v].artifact).(orphV := t.orphV + {v}), u)
  {
    hide Together;
    var w := WriteVersion(t, v, None, View(c, t).versions[v].artifact);
    WriteVersionKeepsApart(c, t, u, v, None, View(c, t).versions[v].artifact);
    SameFootprintApart(c, w, u, w.(orphV := t.orphV + {v}));
  }

  lemma ArtifactStepsKeepApart(c: Db, t: Tx, u: Tx, op: Op, next: Id)
    requires Together(c, t, u) && SeesNoneOf(c, t, u) && Tracked(c, u, next) && IdsUsed(c, next)
    requires Enabled(c, t, op, true) && Granted(c, t, op, u)
    requires op.InsertArtifact? || op.DeleteArtifact? || op.LockArtifact? || op.WriteStats?
    ensures Together(c, Apply(c, t, op, next), u)
  {
    hide Together, Tracked, IdsUsed;
    NextIsUnused(c, u, next);
    match op {
      case InsertArtifact => WriteArtifactKeepsApart(c, t, u, next, Some(Stats(0, 0, 0)));
      case DeleteArtifact(a) =>
        WriteArtifactKeepsApart(c, t, u, a, None);
        SameFootprintApart(c, WriteArtifact(t, a, None), u, WriteArtifact(t, a, None).(orphA := t.orphA + {a}));
      case LockArtifact(a) => LocksKeepApart(c, t, u, a);
      case WriteStats(a) =>
        var done := t.(due := t.due - {a});
        SameFootprintApart(c, t, u, done);
        if a in View(c, t).artifacts { WriteArtifactKeepsApart(c, done, u, a, t.due[a]); }
    }
  }

  lemma DoKeepsApart(c: Db, t: Tx, u: Tx, op: Op, next: Id)
    requires Coherent(c, t) && Tracked(c, t, next) && Tracked(c, u, next) && IdsUsed(c, next)
    requires Apart(c, t, u) && Apart(c, u, t) && Enabled(c, t, op, true) && Granted(c, t, op, u)
    ensures Apart(c, Apply(c, t, op, next), u) && Apart(c, u, Apply(c, t, op, next))
  {
    hide Apart, Coherent, Tracked, IdsUsed, SeesNoneOf;
    var t' := Apply(c, t, op, next);
    SeenIsNotOthers(c, t, u, next);
    assert Together(c, t', u) by {
      hide Together;
      match op {
        case ApplyDelta(v) => ApplyDeltaKeepsApart(c, t, u, v);
        case InsertVersion(a) => InsertVersionKeepsApart(c, t, u, a, next);
        case DeleteVersion(v) => DeleteVersionKeepsApart(c, t, u, v);
        case FilesCascaded(_) => SameFootprintApart(c, t, u, t');
        case VersionsCascaded(_) => SameFootprintApart(c, t, u, t');
        case TakeSnapshot(_) => SameFootprintApart(c, t, u, t');
        case _ =>
          if op.InsertFile? || op.UpdateFile? || op.DeleteFile? {
            FileStepsKeepApart(c, t, u, op, next);
          } else {
            ArtifactStepsKeepApart(c, t, u, op, next);
          }
      }
    }
  }
}
