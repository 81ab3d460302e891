/** Every lock, write, snapshot, trigger and cascade step keeps the concurrency invariant of its own transaction. */
module StatsSteps {
  import opened Wrappers
  import opened Schema
  import opened Statistics
  import opened ConcurrentStats

  // ---- one changed row, as a view sees it ----

  lemma OverlayPut<V>(base: map<Id, V>, w: Writes<V>, k: Id, row: Option<V>)
    ensures Overlay(base, w[k := row]) == Put(Overlay(base, w), k, row)
  {
  }

  lemma TotalsAfterFile(db: Db, pend: map<Id, int>, f: Id, row: Option<FileRow>, v: Id, delta: int)
    requires TotalsOk(db, pend)
    requires f in db.files ==> db.files[f].version == v
    requires row.Some? ==> row.value.version == v
    requires delta == CountedBytes(row) - CountedBytes(Get(db.files, f))
    ensures TotalsOk(db.(files := Put(db.files, f, row)), AddPending(pend, v, delta))
  {
    hide VersionBytes, Put, Get, CountedBytes;
    forall u | u in db.versions
      ensures db.versions[u].bytes + Pending(AddPending(pend, v, delta), u) == VersionBytes(Put(db.files, f, row), u)
    {
      FileDelta(db.files, f, row, v, delta, u);
    }
  }

  lemma RowsAfterVersion(versions: map<Id, VRow>, v: Id, row: Option<VRow>, a: Id)
    requires v in versions ==> versions[v].artifact == a
    requires row.Some? ==> row.value.artifact == a
    ensures forall b :: b != a ==> RowsOf(Put(versions, v, row), b) == RowsOf(versions, b)
  {
  }

  lemma StatsAfterVersion(db: Db, due: set<Id>, v: Id, row: Option<VRow>, a: Id)
    requires StatsOk(db, due)
    requires v in db.versions ==> db.versions[v].artifact == a
    requires row.Some? ==> row.value.artifact == a
    ensures StatsOk(db.(versions := Put(db.versions, v, row)), due + {a})
  {
    RowsAfterVersion(db.versions, v, row, a);
  }

  lemma NewVersionTotal(db: Db, pend: map<Id, int>, v: Id, row: VRow)
    requires TotalsOk(db, pend) && v !in db.versions && v !in pend && row.bytes == 0
    requires forall f :: f in db.files ==> db.files[f].version != v
    ensures TotalsOk(db.(versions := Put(db.versions, v, Some(row))), pend)
  {
    assert AvailableSizes(db.files, v) == map[];
  }

  lemma StatsAfterArtifact(db: Db, due: set<Id>, a: Id, row: Option<Stats>)
    requires StatsOk(db, due)
    requires row.Some? ==> row.value == Aggregated(db.versions, a)
    ensures StatsOk(db.(artifacts := Put(db.artifacts, a, row)), due - {a})
  {
  }

  lemma ReferencesAfterFile(db: Db, f: Id, row: Option<FileRow>, orphV: set<Id>, orphA: set<Id>)
    requires ReferencesOk(db, orphV, orphA)
    requires row.Some? ==> row.value.version in db.versions || (f in db.files && db.files[f].version == row.value.version)
    ensures ReferencesOk(db.(files := Put(db.files, f, row)), orphV, orphA)
  {
  }

  lemma ReferencesAfterVersion(db: Db, v: Id, row: Option<VRow>, orphV: set<Id>, orphA: set<Id>)
    requires ReferencesOk(db, orphV, orphA)
    requires row.Some? ==> row.value.artifact in db.artifacts || (v in db.versions && db.versions[v].artifact == row.value.artifact)
    ensures ReferencesOk(db.(versions := Put(db.versions, v, row)), if row.None? then orphV + {v} else orphV, orphA)
  {
  }

  lemma ReferencesAfterArtifact(db: Db, a: Id, row: Option<Stats>, orphV: set<Id>, orphA: set<Id>)
    requires ReferencesOk(db, orphV, orphA)
    ensures ReferencesOk(db.(artifacts := Put(db.artifacts, a, row)), orphV, if row.None? then orphA + {a} else orphA)
  {
  }

  // ---- every step keeps the transaction's own view coherent ----

  lemma FileStepKeepsCoherent(c: Db, t: Tx, f: Id, row: Option<FileRow>, v: Id, delta: int)
    requires Coherent(c, t)
    requires f in View(c, t).files ==> View(c, t).files[f].version == v
    requires row.Some? ==> row.value.version == v && (v in View(c, t).versions || f in View(c, t).files)
    requires delta == CountedBytes(row) - CountedBytes(Get(View(c, t).files, f))
    ensures Coherent(c, WriteFile(t, f, row, v, delta))
  {
    var see := View(c, t);
    OverlayPut(c.files, t.fileW, f, row);
    TotalsAfterFile(see, t.pend, f, row, v, delta);
    ReferencesAfterFile(see, f, row, t.orphV, t.orphA);
    hide TotalsOk, ReferencesOk;
  }

  lemma VersionStepKeepsCoherent(c: Db, t: Tx, v: Id, row: Option<VRow>, a: Id, pend: map<Id, int>)
    requires Coherent(c, t)
    requires v in View(c, t).versions ==> View(c, t).versions[v].artifact == a
    requires row.Some? ==> row.value.artifact == a && (a in View(c, t).artifacts || v in View(c, t).versions)
    requires TotalsOk(View(c, t).(versions := Put(View(c, t).versions, v, row)), pend)
    ensures Coherent(c, WriteVersion(t, v, row, a).(pend := pend, orphV := if row.None? then t.orphV + {v} else t.orphV))
  {
    hide TotalsOk, StatsOk, ReferencesOk;
    var see := View(c, t);
    OverlayPut(c.versions, t.verW, v, row);
    StatsAfterVersion(see, t.due.Keys, v, row, a);
    ReferencesAfterVersion(see, v, row, t.orphV, t.orphA);
    assert t.due[a := None].Keys == t.due.Keys + {a};
  }

  lemma ArtifactStepKeepsCoherent(c: Db, t: Tx, a: Id, row: Option<Stats>)
    requires Coherent(c, t)
    requires row.Some? ==> row.value == Aggregated(View(c, t).versions, a)
    ensures Coherent(c, t.(artW := t.artW[a := row], due := t.due - {a}, orphA := if row.None? then t.orphA + {a} else t.orphA))
  {
    hide TotalsOk, StatsOk, ReferencesOk;
    var see := View(c, t);
    OverlayPut(c.artifacts, t.artW, a, row);
    StatsAfterArtifact(see, t.due.Keys, a, row);
    ReferencesAfterArtifact(see, a, row, t.orphV, t.orphA);
    assert (t.due - {a}).Keys == t.due.Keys - {a};
    TotalsIgnoreArtifacts(see, t.pend, Put(see.artifacts, a, row));
  }

  lemma TotalsIgnoreArtifacts(db: Db, pend: map<Id, int>, artifacts: map<Id, Stats>)
    requires TotalsOk(db, pend)
    ensures TotalsOk(db.(artifacts := artifacts), pend)
  {
  }

  /** Coherence looks at the writes, the pending work and nothing else; more work due only weakens it. */
  lemma CoherentForSameWrites(c: Db, t: Tx, u: Tx)
    requires Coherent(c, t)
    requires u.fileW == t.fileW && u.verW == t.verW && u.artW == t.artW && u.pend == t.pend && u.orphV == t.orphV && u.orphA == t.orphA
    requires t.due.Keys <= u.due.Keys
    ensures Coherent(c, u)
  {
    hide TotalsOk, ReferencesOk;
  }

  /** What a view's rows refer to is committed or written by the transaction itself. */
  lemma SeenReferences(c: Db, t: Tx)
    requires Coherent(c, t) && AllDeleted(t.verW, t.orphV) && AllDeleted(t.artW, t.orphA)
    ensures forall f :: f in View(c, t).files ==> View(c, t).files[f].version in c.versions || View(c, t).files[f].version in t.verW
    ensures forall v :: v in View(c, t).versions ==> View(c, t).versions[v].artifact in c.artifacts || View(c, t).versions[v].artifact in t.artW
  {
    hide TotalsOk, StatsOk;
    var see := View(c, t);
    forall f | f in see.files ensures see.files[f].version in c.versions || see.files[f].version in t.verW {
      assert see.files[f].version in t.orphV || see.files[f].version in see.versions;
    }
    forall v | v in see.versions ensures see.versions[v].artifact in c.artifacts || see.versions[v].artifact in t.artW {
      assert see.versions[v].artifact in t.orphA || see.versions[v].artifact in see.artifacts;
    }
  }

  /** Ids not handed out yet appear nowhere in a view. */
  lemma UnusedId(c: Db, t: Tx, next: Id)
    requires Coherent(c, t) && Tracked(c, t, next) && IdsUsed(c, next)
    ensures var see := View(c, t);
            && next !in see.files && next !in see.versions && next !in see.artifacts
            && next !in t.pend && next !in t.due
            && (forall f :: f in see.files ==> see.files[f].version != next)
            && (forall v :: v in see.versions ==> see.versions[v].artifact != next)
  {
    SeenReferences(c, t);
    hide Coherent, SnapshotsFresh, FilesTracked, VersionsTracked, LockedOnceSynced, AllDeleted;
  }

  lemma DeltaApplied(db: Db, pend: map<Id, int>, v: Id)
    requires TotalsOk(db, pend) && v in pend
    ensures v in db.versions ==>
              TotalsOk(db.(versions := db.versions[v := db.versions[v].(bytes := db.versions[v].bytes + pend[v])]), pend - {v})
    ensures v !in db.versions ==> TotalsOk(db, pend - {v})
  {
    hide VersionBytes;
  }

  lemma ApplyDeltaKeepsCoherent(c: Db, t: Tx, v: Id)
    requires Coherent(c, t) && v in t.pend
    ensures v in View(c, t).versions ==>
              var row := View(c, t).versions[v];
              Coherent(c, WriteVersion(t.(pend := t.pend - {v}), v, Some(row.(bytes := row.bytes + t.pend[v])), row.artifact))
    ensures v !in View(c, t).versions ==> Coherent(c, t.(pend := t.pend - {v}))
  {
    hide ReferencesOk, StatsOk, TotalsOk;
    var see := View(c, t);
    DeltaApplied(see, t.pend, v);
    if v in see.versions {
      var row := see.versions[v].(bytes := see.versions[v].bytes + t.pend[v]);
      VersionStepKeepsCoherent(c, t, v, Some(row), row.artifact, t.pend - {v});
    }
  }

  lemma InsertVersionKeepsCoherent(c: Db, t: Tx, a: Id, next: Id)
    requires Coherent(c, t) && Tracked(c, t, next) && IdsUsed(c, next) && a in View(c, t).artifacts
    ensures Coherent(c, WriteVersion(t, next, Some(VRow(a, 0)), a).(aShare := t.aShare + {a}))
  {
    UnusedId(c, t, next);
    hide Tracked, ReferencesOk, StatsOk, TotalsOk, IdsUsed;
    NewVersionTotal(View(c, t), t.pend, next, VRow(a, 0));
    hide Coherent;
    VersionStepKeepsCoherent(c, t, next, Some(VRow(a, 0)), a, t.pend);
    var u := WriteVersion(t, next, Some(VRow(a, 0)), a);
    CoherentForSameWrites(c, u, u.(aShare := t.aShare + {a}));
  }

  lemma NoRowsAggregate(versions: map<Id, VRow>, a: Id)
    requires forall v :: v in versions ==> versions[v].artifact != a
    ensures Aggregated(versions, a) == Stats(0, 0, 0)
  {
    assert RowsOf(versions, a) == map[];
  }

  lemma NewArtifactIsEmpty(c: Db, t: Tx, next: Id)
    requires Coherent(c, t) && Tracked(c, t, next) && IdsUsed(c, next)
    ensures Aggregated(View(c, t).versions, next) == Stats(0, 0, 0) && t.due - {next} == t.due
  {
    UnusedId(c, t, next);
    hide Coherent, Tracked, IdsUsed;
    NoRowsAggregate(View(c, t).versions, next);
  }

  lemma InsertArtifactKeepsCoherent(c: Db, t: Tx, next: Id)
    requires Coherent(c, t) && Tracked(c, t, next) && IdsUsed(c, next)
    ensures Coherent(c, t.(artW := t.artW[next := Some(Stats(0, 0, 0))], aLock := t.aLock + {next}))
  {
    NewArtifactIsEmpty(c, t, next);
    hide Coherent, Tracked, IdsUsed;
    ArtifactStepKeepsCoherent(c, t, next, Some(Stats(0, 0, 0)));
    var u := t.(artW := t.artW[next := Some(Stats(0, 0, 0))]);
    CoherentForSameWrites(c, u, u.(aLock := t.aLock + {next}));
  }

  lemma DeleteVersionKeepsCoherent(c: Db, t: Tx, v: Id)
    requires Coherent(c, t) && v in View(c, t).versions
    ensures Coherent(c, WriteVersion(t, v, None, View(c, t).versions[v].artifact).(orphV := t.orphV + {v}))
  {
    hide ReferencesOk, StatsOk;
    VersionStepKeepsCoherent(c, t, v, None, View(c, t).versions[v].artifact, t.pend);
  }

  lemma DeleteArtifactKeepsCoherent(c: Db, t: Tx, a: Id)
    requires Coherent(c, t)
    ensures Coherent(c, t.(artW := t.artW[a := None], aLock := t.aLock + {a}, orphA := t.orphA + {a}))
  {
    hide Coherent;
    ArtifactStepKeepsCoherent(c, t, a, None);
    var u := t.(artW := t.artW[a := None], due := t.due - {a}, orphA := t.orphA + {a});
    CoherentForSameWrites(c, u, u.(due := t.due, aLock := t.aLock + {a}));
  }

  /** The recompute's value is still the aggregate when it is written: its snapshot was taken under the lock. */
  lemma WriteStatsKeepsCoherent(c: Db, t: Tx, a: Id, next: Id)
    requires Coherent(c, t) && Tracked(c, t, next) && a in t.due && t.due[a].Some?
    ensures a in View(c, t).artifacts ==> Coherent(c, t.(due := t.due - {a}, artW := t.artW[a := t.due[a]], aLock := t.aLock + {a}))
    ensures a !in View(c, t).artifacts ==> Coherent(c, t.(due := t.due - {a}))
  {
    hide FilesTracked, VersionsTracked, LockedOnceSynced, AllDeleted, TxIdsUsed;
    if a in View(c, t).artifacts {
      assert t.due[a].value == Aggregated(View(c, t).versions, a);
      hide Coherent, Tracked, SnapshotsFresh;
      ArtifactStepKeepsCoherent(c, t, a, t.due[a]);
      var u := t.(artW := t.artW[a := t.due[a]], due := t.due - {a});
      CoherentForSameWrites(c, u, u.(aLock := t.aLock + {a}));
    } else {
      hide Tracked, SnapshotsFresh, TotalsOk, ReferencesOk;
      assert (t.due - {a}).Keys == t.due.Keys - {a};
    }
  }

  lemma CascadesKeepCoherent(c: Db, t: Tx, x: Id)
    requires Coherent(c, t)
    ensures Enabled(c, t, FilesCascaded(x), true) ==> Coherent(c, t.(orphV := t.orphV - {x}))
    ensures Enabled(c, t, VersionsCascaded(x), true) ==> Coherent(c, t.(orphA := t.orphA - {x}))
  {
    hide StatsOk, TotalsOk;
  }

  lemma DoKeepsCoherent(c: Db, t: Tx, op: Op, next: Id)
    requires Coherent(c, t) && Tracked(c, t, next) && IdsUsed(c, next) && Enabled(c, t, op, true)
    ensures Coherent(c, Apply(c, t, op, next))
  {
    hide Coherent, Tracked, IdsUsed;
    var see := View(c, t);
    match op {
      case InsertFile(row) =>
        UnusedId(c, t, next);
        var u := WriteFile(t, next, Some(row), row.version, CountedBytes(Some(row)));
        FileStepKeepsCoherent(c, t, next, Some(row), row.version, CountedBytes(Some(row)));
        CoherentForSameWrites(c, u, u.(vShare := t.vShare + {row.version}));
      case UpdateFile(f, row) =>
        FileStepKeepsCoherent(c, t, f, Some(row), row.version, CountedBytes(Some(row)) - CountedBytes(Some(see.files[f])));
      case DeleteFile(f) =>
        FileStepKeepsCoherent(c, t, f, None, see.files[f].version, -CountedBytes(Some(see.files[f])));
      case ApplyDelta(v) => ApplyDeltaKeepsCoherent(c, t, v);
      case InsertVersion(a) => InsertVersionKeepsCoherent(c, t, a, next);
      case InsertArtifact => InsertArtifactKeepsCoherent(c, t, next);
      case WriteStats(a) => WriteStatsKeepsCoherent(c, t, a, next);
      case DeleteVersion(v) => DeleteVersionKeepsCoherent(c, t, v);
      case DeleteArtifact(a) => DeleteArtifactKeepsCoherent(c, t, a);
      case FilesCascaded(v) => CascadesKeepCoherent(c, t, v);
      case VersionsCascaded(a) => CascadesKeepCoherent(c, t, a);
      case LockArtifact(a) => CoherentForSameWrites(c, t, t.(aLock := t.aLock + {a}));
      case TakeSnapshot(a) => CoherentForSameWrites(c, t, t.(due := t.due[a := Some(Aggregated(see.versions, a))]));
    }
  }
}
