/** A commit leaves every other running transaction's view coherent, so committed statistics are exact in every run. */
module StatsCommit {
  import opened Wrappers
  import opened Schema
  import opened Statistics
  import opened ConcurrentStats
  import opened StatsSteps
  import opened StatsLocks

  // ---- two transactions' writes to different rows commute ----

  lemma OverlayEmpty<V>(base: map<Id, V>)
    ensures Overlay(base, map[]) == base
  {
  }

  lemma OverlayLast<V>(base: map<Id, V>, w: Writes<V>, k: Id)
    requires k in w
    ensures Overlay(base, w) == Put(Overlay(base, w - {k}), k, w[k])
  {
  }

  lemma OverlayUnder<V>(base: map<Id, V>, k: Id, row: Option<V>, w: Writes<V>)
    requires k !in w
    ensures Overlay(Put(base, k, row), w) == Put(Overlay(base, w), k, row)
    ensures Get(Overlay(base, w), k) == Get(base, k)
  {
  }

  /** What one transaction's file writes add to a total does not depend on another's having been committed. */
  lemma {:induction false} FileWritesCommute(files: map<Id, FileRow>, y: Writes<FileRow>, x: Writes<FileRow>, v: Id)
    requires x.Keys !! y.Keys
    ensures VersionBytes(Overlay(Overlay(files, y), x), v) - VersionBytes(Overlay(files, x), v)
         == VersionBytes(Overlay(files, y), v) - VersionBytes(files, v)
    decreases |y|
  {
    if y == map[] {
      OverlayEmpty(files);
    } else {
      var k :| k in y;
      var rest := y - {k};
      FileWritesCommute(files, rest, x, v);
      hide VersionBytes, Overlay;
      OneFileMore(files, rest, x, k, y[k], v);
      OverlayLast(files, y, k);
    }
  }

  lemma OneFileMore(files: map<Id, FileRow>, y: Writes<FileRow>, x: Writes<FileRow>, k: Id, row: Option<FileRow>, v: Id)
    requires k !in x && k !in y
    ensures var before := Overlay(files, y);
            && VersionBytes(Overlay(Put(before, k, row), x), v) - VersionBytes(Overlay(before, x), v)
            == VersionBytes(Put(before, k, row), v) - VersionBytes(before, v)
  {
    var before := Overlay(files, y);
    OverlayUnder(before, k, row, x);
    DeltaRule(before, k, row, v);
    DeltaRule(Overlay(before, x), k, row, v);
  }

  // ---- totals ----

  lemma NoFilesNoBytes(db: Db, v: Id)
    requires ReferencesOk(db, {}, {}) && v !in db.versions
    ensures VersionBytes(db.files, v) == 0
  {
    assert AvailableSizes(db.files, v) == map[];
  }

  /** In an exact database a version's total is the sum of its files, and a version that is not there has none. */
  lemma ExactTotal(db: Db, v: Id)
    requires Exact(db)
    ensures VersionBytes(db.files, v) == if v in db.versions then db.versions[v].bytes else 0
  {
    if v !in db.versions { NoFilesNoBytes(db, v); }
    assert Pending(map[], v) == 0;
  }

  lemma UntouchedFiles(files: map<Id, FileRow>, w: Writes<FileRow>, fvers: set<Id>, held: set<Id>, v: Id)
    requires FilesTracked(files, w, fvers, held) && v !in fvers
    ensures VersionBytes(Overlay(files, w), v) == VersionBytes(files, v)
  {
    assert AvailableSizes(Overlay(files, w), v) == AvailableSizes(files, v);
  }

  lemma TotalAfterCommit(c: Db, c': Db, x: Tx, fileW: Writes<FileRow>, verW: Writes<VRow>, held: set<Id>, v: Id)
    requires Exact(c) && Exact(c')
    requires c'.files == Overlay(c.files, fileW) && c'.versions == Overlay(c.versions, verW)
    requires TotalsOk(View(c, x), x.pend) && x.pend.Keys <= x.fvers && FilesTracked(c'.files, x.fileW, x.fvers, held)
    requires x.fileW.Keys !! fileW.Keys && x.verW.Keys !! verW.Keys
    requires v in verW && v in x.fvers ==> v in c.versions
    requires v in View(c', x).versions
    ensures View(c', x).versions[v].bytes + Pending(x.pend, v) == VersionBytes(View(c', x).files, v)
  {
    ExactTotal(c, v);
    ExactTotal(c', v);
    hide Exact, FilesTracked, VersionBytes;
    FileWritesCommute(c.files, fileW, x.fileW, v);
    if v in View(c, x).versions {
      assert View(c, x).versions[v].bytes + Pending(x.pend, v) == VersionBytes(View(c, x).files, v);
    } else {
      UntouchedFiles(c'.files, x.fileW, x.fvers, held, v);
    }
  }

  // ---- what the rest of the invariant says after y's commit, seen by x ----

  lemma CommitIsExact(c: Db, y: Tx, next: Id)
    requires Coherent(c, y) && Finished(y) && Tracked(c, y, next) && IdsUsed(c, next)
    ensures Exact(View(c, y)) && IdsUsed(View(c, y), next)
  {
    hide TotalsOk, StatsOk, ReferencesOk, FilesTracked, VersionsTracked, AllDeleted, LockedOnceSynced, SnapshotsFresh;
    assert y.due.Keys == {};
  }

  lemma FilesTrackedAfter(files: map<Id, FileRow>, y: Writes<FileRow>, x: Writes<FileRow>, fvers: set<Id>, held: set<Id>)
    requires FilesTracked(files, x, fvers, held) && x.Keys !! y.Keys
    ensures FilesTracked(Overlay(files, y), x, fvers, held)
  {
  }

  lemma VersionsTrackedAfter(versions: map<Id, VRow>, y: Writes<VRow>, x: Writes<VRow>, touched: set<Id>, held: set<Id>)
    requires VersionsTracked(versions, x, touched, held) && x.Keys !! y.Keys
    ensures VersionsTracked(Overlay(versions, y), x, touched, held)
  {
  }

  /** An artifact x wrote versions of was not inserted by y. */
  lemma TouchedArtifactWasThere(c: Db, y: Tx, x: Tx, a: Id)
    requires Apart(c, y, x) && a in x.touched && a in View(View(c, y), x).artifacts
    ensures a in View(c, x).artifacts
  {
  }

  /** Once y is done it holds the lock of every artifact it wrote versions of, unless that artifact is gone. */
  lemma TouchedIsLocked(c: Db, y: Tx, next: Id, a: Id)
    requires Tracked(c, y, next) && Finished(y) && a in y.touched && a in View(c, y).artifacts
    ensures a in y.aLock
  {
    hide FilesTracked, VersionsTracked, AllDeleted, SnapshotsFresh, TxIdsUsed;
  }

  /** So an artifact that x sees over y's commit, and y has not locked, kept its versions. */
  lemma NotTouchedBy(c: Db, y: Tx, x: Tx, next: Id, a: Id)
    requires Tracked(c, y, next) && Tracked(c, x, next) && Finished(y) && Together(c, x, y)
    requires a !in y.aLock && a in View(View(c, y), x).artifacts
    ensures a !in y.touched
  {
    hide FilesTracked, VersionsTracked, AllDeleted, LockedOnceSynced, SnapshotsFresh, TxIdsUsed;
    if a in y.touched && a in View(c, y).artifacts {
      TouchedIsLocked(c, y, next, a);
    }
  }

  lemma UntouchedRows(versions: map<Id, VRow>, y: Writes<VRow>, x: Writes<VRow>, touched: set<Id>, held: set<Id>, a: Id)
    requires VersionsTracked(versions, y, touched, held) && a !in touched && x.Keys !! y.Keys
    ensures RowsOf(Overlay(Overlay(versions, y), x), a) == RowsOf(Overlay(versions, x), a)
  {
  }

  lemma OwnRows(versions: map<Id, VRow>, x: Writes<VRow>, touched: set<Id>, held: set<Id>, a: Id)
    requires VersionsTracked(versions, x, touched, held) && a !in touched
    ensures RowsOf(Overlay(versions, x), a) == RowsOf(versions, a)
  {
  }

  lemma FreshAfterCommit(c: Db, y: Tx, x: Tx, next: Id)
    requires Tracked(c, y, next) && Tracked(c, x, next) && Finished(y) && Together(c, x, y)
    ensures SnapshotsFresh(View(View(c, y), x).artifacts.Keys, View(View(c, y), x).versions, x.due, x.aLock)
  {
    hide Finished, LockedOnceSynced, FilesTracked, VersionsTracked, AllDeleted, TxIdsUsed, Overlay;
    var after := View(View(c, y), x);
    forall a | a in x.due && x.due[a].Some? && a in after.artifacts
      ensures a in x.aLock && x.due[a].value == Aggregated(after.versions, a)
    {
      TouchedArtifactWasThere(c, y, x, a);
      NotTouchedBy(c, y, x, next, a);
      UntouchedRows(c.versions, y.verW, x.verW, y.touched, y.aShare + y.artW.Keys, a);
    }
  }

  lemma LockedAfterCommit(c: Db, y: Tx, x: Tx, next: Id)
    requires Tracked(c, x, next) && Apart(c, y, x)
    ensures LockedOnceSynced(View(View(c, y), x).artifacts.Keys, x.touched, x.due.Keys, x.aLock)
  {
    hide FilesTracked, VersionsTracked, AllDeleted, SnapshotsFresh, TxIdsUsed, View, Apart;
    forall a | a in x.touched && a !in x.due.Keys && a in View(View(c, y), x).artifacts.Keys ensures a in x.aLock {
      TouchedArtifactWasThere(c, y, x, a);
    }
  }

  lemma TrackedAfterCommit(c: Db, y: Tx, x: Tx, next: Id)
    requires Tracked(c, y, next) && Tracked(c, x, next) && Finished(y) && Together(c, x, y)
    ensures Tracked(View(c, y), x, next)
  {
    hide FilesTracked, VersionsTracked, AllDeleted, LockedOnceSynced, SnapshotsFresh, TxIdsUsed, Finished;
    FilesTrackedAfter(c.files, y.fileW, x.fileW, x.fvers, x.vShare + x.verW.Keys);
    VersionsTrackedAfter(c.versions, y.verW, x.verW, x.touched, x.aShare + x.artW.Keys);
    LockedAfterCommit(c, y, x, next);
    FreshAfterCommit(c, y, x, next);
  }

  lemma ApartAfterCommit(c: Db, y: Tx, x: Tx, z: Tx, next: Id)
    requires Tracked(c, y, next) && Tracked(c, x, next) && Together(c, x, y) && Apart(c, x, z)
    ensures Apart(View(c, y), x, z)
  {
    hide FilesTracked, VersionsTracked, AllDeleted, LockedOnceSynced, SnapshotsFresh, TxIdsUsed;
  }

  // ---- and x's view stays coherent ----

  lemma TotalsAfterCommit(c: Db, y: Tx, x: Tx, next: Id)
    requires Exact(c) && Exact(View(c, y)) && TotalsOk(View(c, x), x.pend) && Tracked(View(c, y), x, next) && Together(c, x, y)
    ensures TotalsOk(View(View(c, y), x), x.pend)
  {
    hide Exact, VersionsTracked, FilesTracked, AllDeleted, LockedOnceSynced, SnapshotsFresh, TxIdsUsed, Overlay;
    var c' := View(c, y);
    forall v | v in View(c', x).versions
      ensures View(c', x).versions[v].bytes + Pending(x.pend, v) == VersionBytes(View(c', x).files, v)
    {
      TotalAfterCommit(c, c', x, y.fileW, y.verW, x.vShare + x.verW.Keys, v);
    }
  }

  lemma StatsAfterCommit(c: Db, y: Tx, x: Tx, next: Id, a: Id)
    requires Exact(View(c, y)) && StatsOk(View(c, x), x.due.Keys) && Tracked(c, y, next) && Finished(y)
    requires Tracked(c, x, next) && Tracked(View(c, y), x, next) && Together(c, x, y)
    requires a in View(View(c, y), x).artifacts && a !in x.due.Keys
    ensures View(View(c, y), x).artifacts[a] == Aggregated(View(View(c, y), x).versions, a)
  {
    hide TotalsOk, ReferencesOk, FilesTracked, VersionsTracked, AllDeleted, SnapshotsFresh, TxIdsUsed, Finished;
    var c' := View(c, y);
    if a in y.aLock {
      assert a !in x.touched;
      OwnRows(c'.versions, x.verW, x.touched, x.aShare + x.artW.Keys, a);
    } else {
      NotTouchedBy(c, y, x, next, a);
      UntouchedRows(c.versions, y.verW, x.verW, y.touched, y.aShare + y.artW.Keys, a);
    }
  }

  lemma FileReferenceAfterCommit(c: Db, y: Tx, x: Tx, next: Id, f: Id)
    requires ReferencesOk(View(c, x), x.orphV, x.orphA) && ReferencesOk(View(c, y), {}, {})
    requires Tracked(c, y, next) && Tracked(c, x, next) && Together(c, x, y)
    requires f in View(View(c, y), x).files && View(View(c, y), x).files[f].version !in x.orphV
    ensures View(View(c, y), x).files[f].version in View(View(c, y), x).versions
  {
    hide VersionsTracked, AllDeleted, LockedOnceSynced, SnapshotsFresh, TxIdsUsed;
    var row := View(View(c, y), x).files[f];
    if f in View(c, x).files && View(c, x).files[f].version == row.version {
      assert row.version in View(c, x).versions;
    }
  }

  lemma VersionReferenceAfterCommit(c: Db, y: Tx, x: Tx, next: Id, v: Id)
    requires ReferencesOk(View(c, x), x.orphV, x.orphA) && ReferencesOk(View(c, y), {}, {})
    requires Tracked(c, y, next) && Tracked(c, x, next) && Together(c, x, y)
    requires v in View(View(c, y), x).versions && View(View(c, y), x).versions[v].artifact !in x.orphA
    ensures View(View(c, y), x).versions[v].artifact in View(View(c, y), x).artifacts
  {
    hide FilesTracked, AllDeleted, LockedOnceSynced, SnapshotsFresh, TxIdsUsed;
    var row := View(View(c, y), x).versions[v];
    if v in View(c, x).versions && View(c, x).versions[v].artifact == row.artifact {
      assert row.artifact in View(c, x).artifacts;
    }
  }

  lemma StatsOkAfterCommit(c: Db, y: Tx, x: Tx, next: Id)
    requires Exact(View(c, y)) && StatsOk(View(c, x), x.due.Keys) && Tracked(c, y, next) && Finished(y)
    requires Tracked(c, x, next) && Tracked(View(c, y), x, next) && Together(c, x, y)
    ensures StatsOk(View(View(c, y), x), x.due.Keys)
  {
    hide Exact, Tracked, Finished, Together, View, Aggregated;
    var after := View(View(c, y), x);
    forall a | a in after.artifacts && a !in x.due.Keys ensures after.artifacts[a] == Aggregated(after.versions, a) {
      StatsAfterCommit(c, y, x, next, a);
    }
  }

  lemma ReferencesOkAfterCommit(c: Db, y: Tx, x: Tx, next: Id)
    requires ReferencesOk(View(c, x), x.orphV, x.orphA) && ReferencesOk(View(c, y), {}, {})
    requires Tracked(c, y, next) && Tracked(c, x, next) && Together(c, x, y)
    ensures ReferencesOk(View(View(c, y), x), x.orphV, x.orphA)
  {
    hide Tracked, Together, View;
    var after := View(View(c, y), x);
    forall f | f in after.files && after.files[f].version !in x.orphV ensures after.files[f].version in after.versions {
      FileReferenceAfterCommit(c, y, x, next, f);
    }
    forall v | v in after.versions && after.versions[v].artifact !in x.orphA ensures after.versions[v].artifact in after.artifacts {
      VersionReferenceAfterCommit(c, y, x, next, v);
    }
  }

  lemma CoherentAfterCommit(c: Db, y: Tx, x: Tx, next: Id)
    requires Exact(c) && IdsUsed(c, next) && Coherent(c, y) && Finished(y) && Tracked(c, y, next)
    requires Coherent(c, x) && Tracked(c, x, next) && Together(c, x, y)
    ensures Coherent(View(c, y), x)
  {
    hide Tracked, Together, TotalsOk, StatsOk, ReferencesOk, IdsUsed, Finished, View;
    CommitIsExact(c, y, next);
    TrackedAfterCommit(c, y, x, next);
    TotalsAfterCommit(c, y, x, next);
    StatsOkAfterCommit(c, y, x, next);
    ReferencesOkAfterCommit(c, y, x, next);
  }

  // ---- every step keeps the invariant ----

  lemma FreshTransaction(c: Db, next: Id)
    requires Exact(c)
    ensures Coherent(c, Fresh) && Tracked(c, Fresh, next)
  {
    OverlayEmpty(c.artifacts);
    OverlayEmpty(c.versions);
    OverlayEmpty(c.files);
    hide TotalsOk, StatsOk, ReferencesOk, Overlay;
    assert Fresh.due.Keys == {};
  }

  lemma FreshIsApart(c: Db, t: Tx)
    ensures Apart(c, Fresh, t) && Apart(c, t, Fresh)
  {
  }

  lemma BeginKeepsInv(s: State, x: nat)
    requires Inv(s) && x !in s.txs
    ensures Inv(s.(txs := s.txs[x := Fresh]))
  {
    hide Exact, Coherent, Tracked, Apart, IdsUsed;
    FreshTransaction(s.c, s.next);
    forall y | y in s.txs ensures Apart(s.c, Fresh, s.txs[y]) && Apart(s.c, s.txs[y], Fresh) {
      FreshIsApart(s.c, s.txs[y]);
    }
  }

  lemma AbortKeepsInv(s: State, x: nat)
    requires Inv(s)
    ensures Inv(s.(txs := s.txs - {x}))
  {
    hide Exact, Coherent, Tracked, Apart, IdsUsed;
  }

  lemma DoKeepsInv(s: State, x: nat, op: Op, s': State)
    requires Inv(s) && Next(s, Do(x, op), s', true)
    ensures Inv(s')
  {
    hide Exact, Coherent, Tracked, Apart, IdsUsed, Enabled, Granted, Apply;
    var t := s.txs[x];
    WithoutLockIsWeaker(s.c, t, op);
    DoKeepsCoherent(s.c, t, op, s.next);
    DoKeepsTracked(s.c, t, op, s.next);
    forall y | y in s.txs && y != x
      ensures Tracked(s.c, s.txs[y], s.next + 1) && Apart(s.c, s'.txs[x], s.txs[y]) && Apart(s.c, s.txs[y], s'.txs[x])
    {
      NextKeepsTracked(s.c, s.txs[y], s.next);
      DoKeepsApart(s.c, t, s.txs[y], op, s.next);
    }
    MoreIdsUsed(s.c, s.next);
  }

  lemma WithoutLockIsWeaker(c: Db, t: Tx, op: Op)
    requires Enabled(c, t, op, true)
    ensures Enabled(c, t, op, false)
  {
  }

  lemma MoreIdsUsed(c: Db, next: Id)
    requires IdsUsed(c, next)
    ensures IdsUsed(c, next + 1)
  {
  }

  lemma CommitKeepsInv(s: State, y: nat)
    requires Inv(s) && y in s.txs && Finished(s.txs[y])
    ensures Inv(s.(c := View(s.c, s.txs[y]), txs := s.txs - {y}))
  {
    hide Exact, Coherent, Tracked, Apart, IdsUsed, Finished, View;
    var t := s.txs[y];
    CommitIsExact(s.c, t, s.next);
    forall x | x in s.txs && x != y ensures Coherent(View(s.c, t), s.txs[x]) && Tracked(View(s.c, t), s.txs[x], s.next) {
      CoherentAfterCommit(s.c, t, s.txs[x], s.next);
      TrackedAfterCommit(s.c, t, s.txs[x], s.next);
    }
    forall x, z | x in s.txs && z in s.txs && x != y && z != y && x != z ensures Apart(View(s.c, t), s.txs[x], s.txs[z]) {
      ApartAfterCommit(s.c, t, s.txs[x], s.txs[z], s.next);
    }
  }

  lemma StepKeepsInv(s: State, step: Step, s': State)
    requires Inv(s) && Next(s, step, s', true)
    ensures Inv(s')
  {
    hide Inv;
    match step {
      case Begin(x) => BeginKeepsInv(s, x);
      case Do(x, op) => DoKeepsInv(s, x, op, s');
      case Commit(x) => CommitKeepsInv(s, x);
      case Abort(x) => AbortKeepsInv(s, x);
    }
  }

  /** Nothing running, and the stored statistics are the aggregates: what the backfill leaves. */
  ghost predicate Initial(s: State) {
    s.txs == map[] && Exact(s.c) && IdsUsed(s.c, s.next)
  }

  lemma InitialInv(s: State)
    requires Initial(s)
    ensures Inv(s)
  {
    hide Exact, IdsUsed;
  }

  lemma InvIsExact(s: State)
    requires Inv(s)
    ensures Exact(s.c)
  {
    hide Exact, IdsUsed, Coherent, Tracked, Apart;
  }

  lemma {:induction false} RunKeepsInv(states: seq<State>, steps: seq<Step>, i: nat)
    requires Run(states, steps, true) && Initial(states[0]) && i < |states|
    ensures Inv(states[i])
  {
    hide Inv, Next, Initial;
    if i == 0 {
      InitialInv(states[0]);
    } else {
      RunKeepsInv(states, steps, i - 1);
      StepKeepsInv(states[i - 1], steps[i - 1], states[i]);
    }
  }

  /** With the artifact row locked before the recompute, the committed statistics are the plain aggregates at every point of every run. */
  lemma CommittedStatisticsAreExact(states: seq<State>, steps: seq<Step>, i: nat)
    requires Run(states, steps, true) && Initial(states[0]) && i < |states|
    ensures Exact(states[i].c)
  {
    hide Inv, Next, Initial, Exact;
    RunKeepsInv(states, steps, i);
    InvIsExact(states[i]);
  }
}
