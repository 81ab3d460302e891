/** The triggers of migration 000009 under concurrent READ COMMITTED transactions, one lock, write or snapshot a step. */
module ConcurrentStats {
  import opened Wrappers
  import opened Aggregates
  import opened Schema
  import opened Statistics

  datatype VRow = VRow(artifact: Id, bytes: int)
  datatype Db = Db(artifacts: map<Id, Stats>, versions: map<Id, VRow>, files: map<Id, FileRow>)

  function RowsOf(versions: map<Id, VRow>, a: Id): map<Id, int> {
    map v | v in versions && versions[v].artifact == a :: versions[v].bytes
  }

  /** COUNT, MAX and SUM over the version rows of one artifact. */
  ghost function Aggregated(versions: map<Id, VRow>, a: Id): Stats {
    Stats(|RowsOf(versions, a)|, Largest(RowsOf(versions, a)), Sum(RowsOf(versions, a)))
  }

  function Pending(pend: map<Id, int>, v: Id): int {
    if v in pend then pend[v] else 0
  }

  // ---- what a database, or a transaction's view of it, says about its statistics ----

  /** Version totals are right once the deltas still pending are applied. */
  ghost predicate TotalsOk(db: Db, pend: map<Id, int>) {
    forall v :: v in db.versions ==> db.versions[v].bytes + Pending(pend, v) == VersionBytes(db.files, v)
  }

  /** Artifact statistics are right, except for artifacts whose trigger is still due. */
  ghost predicate StatsOk(db: Db, due: set<Id>) {
    forall a :: a in db.artifacts && a !in due ==> db.artifacts[a] == Aggregated(db.versions, a)
  }

  /** Foreign keys hold, except below rows whose cascade is still running. */
  ghost predicate ReferencesOk(db: Db, orphV: set<Id>, orphA: set<Id>) {
    && (forall f :: f in db.files && db.files[f].version !in orphV ==> db.files[f].version in db.versions)
    && (forall v :: v in db.versions && db.versions[v].artifact !in orphA ==> db.versions[v].artifact in db.artifacts)
  }

  /** The claim about the committed database: every stored statistic is the plain aggregate, and no reference dangles. */
  ghost predicate Exact(db: Db) {
    TotalsOk(db, map[]) && StatsOk(db, {}) && ReferencesOk(db, {}, {})
  }

  // ---- transactions ----

  /** Uncommitted writes: Some is a new row version, None a delete. A written row is locked by its writer. */
  type Writes<V> = map<Id, Option<V>>

  datatype Tx = Tx(
    fileW: Writes<FileRow>,
    verW: Writes<VRow>,
    artW: Writes<Stats>,
    vShare: set<Id>,               // FOR KEY SHARE locks of foreign-key checks, on versions
    aShare: set<Id>,               // and on artifacts
    aLock: set<Id>,                // exclusive locks on artifact rows
    pend: map<Id, int>,            // file triggers yet to update their version's total
    due: map<Id, Option<Stats>>,   // version triggers yet to write: None before, Some after the recompute's snapshot
    orphV: set<Id>,                // deleted versions whose files are still being deleted
    orphA: set<Id>,                // deleted artifacts whose versions are still being deleted
    fvers: set<Id>,                // every version a file row of which was written
    touched: set<Id>)              // every artifact a version row of which was written

  const Fresh: Tx := Tx(map[], map[], map[], {}, {}, {}, map[], map[], {}, {}, {}, {})

  function Overlay<V>(base: map<Id, V>, w: Writes<V>): map<Id, V> {
    map k | k in base.Keys + w.Keys && (k in w ==> w[k].Some?) :: if k in w then w[k].value else base[k]
  }

  /** What a statement of the transaction sees: a snapshot of what is committed now, and its own writes. */
  function View(c: Db, t: Tx): Db {
    Db(Overlay(c.artifacts, t.artW), Overlay(c.versions, t.verW), Overlay(c.files, t.fileW))
  }

  datatype Op =
    | InsertFile(row: FileRow)
    | UpdateFile(f: Id, row: FileRow)
    | DeleteFile(f: Id)
    | ApplyDelta(v: Id)            // UPDATE registry_artifact_version SET total_bytes = total_bytes + delta
    | InsertVersion(a: Id)
    | DeleteVersion(v: Id)
    | FilesCascaded(v: Id)         // the cascade found no file of the version left
    | InsertArtifact
    | DeleteArtifact(a: Id)
    | VersionsCascaded(a: Id)
    | LockArtifact(a: Id)          // PERFORM 1 ... FOR UPDATE
    | TakeSnapshot(a: Id)          // the recompute evaluates its aggregate
    | WriteStats(a: Id)            // and updates the artifact row

  /** When the transaction itself can take the step; `lockFirst` is the trigger's order, lock before recompute. */
  ghost predicate Enabled(c: Db, t: Tx, op: Op, lockFirst: bool) {
    var see := View(c, t);
    match op
    case InsertFile(row) => row.version in see.versions
    case UpdateFile(f, row) => f in see.files && row.version == see.files[f].version
    case DeleteFile(f) => f in see.files
    case ApplyDelta(v) => v in t.pend
    case InsertVersion(a) => a in see.artifacts
    case DeleteVersion(v) => v in see.versions
    case FilesCascaded(v) => v in t.orphV && forall f :: f in see.files ==> see.files[f].version != v
    case InsertArtifact => true
    case DeleteArtifact(a) => a in see.artifacts
    case VersionsCascaded(a) => a in t.orphA && forall v :: v in see.versions ==> see.versions[v].artifact != a
    case LockArtifact(a) => a in t.due && a in see.artifacts
    case TakeSnapshot(a) => a in t.due && (lockFirst && a in see.artifacts ==> a in t.aLock)
    case WriteStats(a) => a in t.due && t.due[a].Some?
  }

  /** Whether another transaction's locks let the step through now; otherwise it waits. */
  predicate Granted(c: Db, t: Tx, op: Op, other: Tx) {
    match op
    case InsertFile(row) => row.version in other.verW ==> other.verW[row.version].Some?
    case UpdateFile(f, _) => f !in other.fileW
    case DeleteFile(f) => f !in other.fileW
    case ApplyDelta(v) => v in View(c, t).versions ==> v !in other.verW
    case InsertVersion(a) => a !in other.aLock
    case DeleteVersion(v) => v !in other.verW && v !in other.vShare
    case DeleteArtifact(a) => a !in other.aLock && a !in other.aShare
    case LockArtifact(a) => a !in other.aLock && a !in other.aShare
    case WriteStats(a) => a in View(c, t).artifacts ==> a !in other.aLock
    case _ => true
  }

  function AddPending(pend: map<Id, int>, v: Id, delta: int): map<Id, int> {
    if delta == 0 then pend else pend[v := Pending(pend, v) + delta]
  }

  function WriteFile(t: Tx, f: Id, row: Option<FileRow>, v: Id, delta: int): Tx {
    t.(fileW := t.fileW[f := row], pend := AddPending(t.pend, v, delta), fvers := t.fvers + {v})
  }

  /** A written version row leaves its artifact's trigger to be run, on a snapshot yet to be taken. */
  function WriteVersion(t: Tx, v: Id, row: Option<VRow>, a: Id): Tx {
    t.(verW := t.verW[v := row], touched := t.touched + {a}, due := t.due[a := None])
  }

  function WriteArtifact(t: Tx, a: Id, row: Option<Stats>): Tx {
    t.(artW := t.artW[a := row], aLock := t.aLock + {a})
  }

  /** The transaction after the step; an inserted row takes the next id of its sequence. */
  ghost function Apply(c: Db, t: Tx, op: Op, next: Id): Tx
    requires Enabled(c, t, op, false)
  {
    var see := View(c, t);
    match op
    case InsertFile(row) =>
      WriteFile(t, next, Some(row), row.version, CountedBytes(Some(row))).(vShare := t.vShare + {row.version})
    case UpdateFile(f, row) =>
      WriteFile(t, f, Some(row), row.version, CountedBytes(Some(row)) - CountedBytes(Some(see.files[f])))
    case DeleteFile(f) =>
      WriteFile(t, f, None, see.files[f].version, -CountedBytes(Some(see.files[f])))
    case ApplyDelta(v) =>
      var done := t.(pend := t.pend - {v});
      if v in see.versions
      then WriteVersion(done, v, Some(see.versions[v].(bytes := see.versions[v].bytes + t.pend[v])), see.versions[v].artifact)
      else done
    case InsertVersion(a) =>
      WriteVersion(t, next, Some(VRow(a, 0)), a).(aShare := t.aShare + {a})
    case DeleteVersion(v) =>
      WriteVersion(t, v, None, see.versions[v].artifact).(orphV := t.orphV + {v})
    case FilesCascaded(v) => t.(orphV := t.orphV - {v})
    case InsertArtifact => WriteArtifact(t, next, Some(Stats(0, 0, 0)))
    case DeleteArtifact(a) => WriteArtifact(t, a, None).(orphA := t.orphA + {a})
    case VersionsCascaded(a) => t.(orphA := t.orphA - {a})
    case LockArtifact(a) => t.(aLock := t.aLock + {a})
    case TakeSnapshot(a) => t.(due := t.due[a := Some(Aggregated(see.versions, a))])
    case WriteStats(a) =>
      var done := t.(due := t.due - {a});
      if a in see.artifacts then WriteArtifact(done, a, t.due[a]) else done
  }

  // ---- the whole system ----

  datatype State = State(c: Db, txs: map<nat, Tx>, next: Id)

  datatype Step =
    | Begin(x: nat)
    | Do(x: nat, op: Op)
    | Commit(x: nat)
    | Abort(x: nat)                // a crash, an error or a deadlock victim

  ghost predicate Next(s: State, step: Step, s': State, lockFirst: bool) {
    match step
    case Begin(x) => x !in s.txs && s' == s.(txs := s.txs[x := Fresh])
    case Do(x, op) =>
      && x in s.txs
      && Enabled(s.c, s.txs[x], op, lockFirst)
      && (forall y :: y in s.txs && y != x ==> Granted(s.c, s.txs[x], op, s.txs[y]))
      && s' == s.(txs := s.txs[x := Apply(s.c, s.txs[x], op, s.next)], next := s.next + 1)
    case Commit(x) =>
      && x in s.txs
      && Finished(s.txs[x])
      && s' == s.(c := View(s.c, s.txs[x]), txs := s.txs - {x})
    case Abort(x) => x in s.txs && s' == s.(txs := s.txs - {x})
  }

  /** Triggers and cascades run inside their statement: a transaction commits only with none left. */
  predicate Finished(t: Tx) {
    t.pend == map[] && t.due == map[] && t.orphV == {} && t.orphA == {}
  }

  ghost predicate Run(states: seq<State>, steps: seq<Step>, lockFirst: bool) {
    |states| == |steps| + 1 && forall i :: 0 <= i < |steps| ==> Next(states[i], steps[i], states[i + 1], lockFirst)
  }

  // ---- the invariant ----

  /** The transaction's own view is exact, up to the triggers and cascades it has yet to run. */
  ghost predicate Coherent(c: Db, t: Tx) {
    var see := View(c, t);
    TotalsOk(see, t.pend) && StatsOk(see, t.due.Keys) && ReferencesOk(see, t.orphV, t.orphA)
  }

  /** A written file is of a version in `fvers`, stays in the version it was in, and is new only in a version held. */
  ghost predicate FilesTracked(files: map<Id, FileRow>, fileW: Writes<FileRow>, fvers: set<Id>, held: set<Id>) {
    forall f :: f in fileW ==>
      && (fileW[f].Some? ==> fileW[f].value.version in fvers && (f in files || fileW[f].value.version in held))
      && (f in files ==> files[f].version in fvers && (fileW[f].Some? ==> fileW[f].value.version == files[f].version))
  }

  /** The same for versions and their artifacts. */
  ghost predicate VersionsTracked(versions: map<Id, VRow>, verW: Writes<VRow>, touched: set<Id>, held: set<Id>) {
    forall v :: v in verW ==>
      && (verW[v].Some? ==> verW[v].value.artifact in touched && (v in versions || verW[v].value.artifact in held))
      && (v in versions ==> versions[v].artifact in touched && (verW[v].Some? ==> verW[v].value.artifact == versions[v].artifact))
  }

  ghost predicate AllDeleted<V>(w: Writes<V>, ids: set<Id>) {
    forall i :: i in ids ==> i in w && w[i].None?
  }

  /** A version write ends with its artifact locked. */
  ghost predicate LockedOnceSynced(artifacts: set<Id>, touched: set<Id>, due: set<Id>, aLock: set<Id>) {
    forall a :: a in touched && a !in due && a in artifacts ==> a in aLock
  }

  /** A recompute's value was read under the artifact's lock, and is still the aggregate. */
  ghost predicate SnapshotsFresh(artifacts: set<Id>, versions: map<Id, VRow>, due: map<Id, Option<Stats>>, aLock: set<Id>) {
    forall a :: a in due && due[a].Some? && a in artifacts ==> a in aLock && due[a].value == Aggregated(versions, a)
  }

  ghost predicate Below(ids: set<Id>, next: Id) {
    forall i :: i in ids ==> i < next
  }

  ghost predicate TxIdsUsed(t: Tx, next: Id) {
    Below(t.fileW.Keys, next) && Below(t.verW.Keys, next) && Below(t.fvers, next) && Below(t.aLock, next) && Below(t.touched, next)
  }

  ghost predicate Tracked(c: Db, t: Tx, next: Id) {
    && FilesTracked(c.files, t.fileW, t.fvers, t.vShare + t.verW.Keys)
    && VersionsTracked(c.versions, t.verW, t.touched, t.aShare + t.artW.Keys)
    && AllDeleted(t.verW, t.orphV) && AllDeleted(t.artW, t.orphA)
    && t.pend.Keys <= t.fvers && t.due.Keys <= t.touched && t.artW.Keys <= t.aLock
    && t.vShare <= c.versions.Keys + t.verW.Keys && t.aShare <= c.artifacts.Keys + t.artW.Keys
    && LockedOnceSynced(View(c, t).artifacts.Keys, t.touched, t.due.Keys, t.aLock)
    && SnapshotsFresh(View(c, t).artifacts.Keys, View(c, t).versions, t.due, t.aLock)
    && TxIdsUsed(t, next)
  }

  /** What the row locks and the unpublished ids keep apart, seen from t. */
  ghost predicate Apart(c: Db, t: Tx, u: Tx) {
    && t.fileW.Keys !! u.fileW.Keys
    && t.verW.Keys !! u.verW.Keys
    && t.aLock !! u.aLock
    && t.aLock !! u.aShare
    && (forall v :: v in t.verW && v in u.vShare ==> t.verW[v].Some?)
    && (forall v :: v in t.verW && v in u.fvers ==> v in c.versions)
    && (forall a :: a in t.artW && a in u.touched ==> a in c.artifacts)
  }

  ghost predicate IdsUsed(c: Db, next: Id) {
    Below(c.artifacts.Keys, next) && Below(c.versions.Keys, next) && Below(c.files.Keys, next)
  }

  ghost predicate Inv(s: State) {
    && Exact(s.c)
    && IdsUsed(s.c, s.next)
    && (forall x :: x in s.txs ==> Coherent(s.c, s.txs[x]) && Tracked(s.c, s.txs[x], s.next))
    && (forall x, y :: x in s.txs && y in s.txs && x != y ==> Apart(s.c, s.txs[x], s.txs[y]))
  }
}
