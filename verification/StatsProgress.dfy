/** The locks never stop a transaction that is alone, and each statement of the sequential database is such a transaction. */
module StatsProgress {
  import opened Wrappers
  import opened Schema
  import opened Statistics
  import opened ConcurrentStats
  import opened StatsSteps
  import opened StatsCommit
  import opened StatsRace

  /** Transaction 0 is running, and no other. */
  function Alone(c: Db, t: Tx, next: Id): State {
    State(c, map[0 := t], next)
  }

  ghost predicate Reaches(s: State, u: State) {
    exists states, steps :: Run(states, steps, true) && states[0] == s && states[|steps|] == u
  }

  lemma ReachesItself(s: State)
    ensures Reaches(s, s)
  {
    hide Next;
    assert Run([s], [], true);
  }

  lemma OneMore(s: State, u: State, step: Step, w: State)
    requires Reaches(s, u) && Next(u, step, w, true)
    ensures Reaches(s, w)
  {
    hide Next;
    var states, steps :| Run(states, steps, true) && states[0] == s && states[|steps|] == u;
    var more, longer := states + [w], steps + [step];
    forall i | 0 <= i < |longer| ensures Next(more[i], longer[i], more[i + 1], true) {
      if i < |steps| {
        assert more[i] == states[i] && more[i + 1] == states[i + 1];
      }
    }
    assert Run(more, longer, true);
  }

  /** Nobody is there to wait for: whatever is enabled can be done. */
  lemma DoAlone(s: State, c: Db, t: Tx, next: Id, op: Op)
    requires Reaches(s, Alone(c, t, next)) && Enabled(c, t, op, true)
    ensures Enabled(c, t, op, false) && Reaches(s, Alone(c, Apply(c, t, op, next), next + 1))
  {
    hide Reaches, Apply, Enabled;
    EnabledAnyway(c, t, op);
    assert map[0 as nat := t][0 := Apply(c, t, op, next)] == map[0 as nat := Apply(c, t, op, next)];
    OneMore(s, Alone(c, t, next), Do(0, op), Alone(c, Apply(c, t, op, next), next + 1));
  }

  lemma EnabledAnyway(c: Db, t: Tx, op: Op)
    requires Enabled(c, t, op, true)
    ensures Enabled(c, t, op, false)
  {
  }

  // ---- who waits for whom ----

  /** The row lock modes the statements take, weakest first. */
  datatype Mode = KeyShare | NoKeyUpdate | ForUpdate

  datatype RowId = OfFile(id: Id) | OfVersion(id: Id) | OfArtifact(id: Id)

  /** A foreign-key check gets along with an update of other columns; nothing gets along with a delete or FOR UPDATE. */
  predicate Conflicting(a: Mode, b: Mode) {
    a.ForUpdate? || b.ForUpdate? || (a.NoKeyUpdate? && b.NoKeyUpdate?)
  }

  /** The lock a step needs: checks share the key, updates of statistics leave keys alone, deletes and FOR UPDATE take the row. */
  function Needs(c: Db, t: Tx, op: Op): Option<(RowId, Mode)> {
    match op
    case InsertFile(row) => Some((OfVersion(row.version), KeyShare))
    case UpdateFile(f, _) => Some((OfFile(f), NoKeyUpdate))
    case DeleteFile(f) => Some((OfFile(f), ForUpdate))
    case ApplyDelta(v) => if v in View(c, t).versions then Some((OfVersion(v), NoKeyUpdate)) else None
    case InsertVersion(a) => Some((OfArtifact(a), KeyShare))
    case DeleteVersion(v) => Some((OfVersion(v), ForUpdate))
    case DeleteArtifact(a) => Some((OfArtifact(a), ForUpdate))
    case LockArtifact(a) => Some((OfArtifact(a), ForUpdate))
    case WriteStats(a) => if a in View(c, t).artifacts then Some((OfArtifact(a), NoKeyUpdate)) else None
    case _ => None
  }

  /** The locks a running transaction holds until it ends. */
  predicate Holds(t: Tx, r: RowId, m: Mode) {
    match r
    case OfFile(f) => f in t.fileW && m == ForUpdate
    case OfVersion(v) => (v in t.verW && m == (if t.verW[v].Some? then NoKeyUpdate else ForUpdate)) || (v in t.vShare && m == KeyShare)
    case OfArtifact(a) => (a in t.aLock && m == ForUpdate) || (a in t.aShare && m == KeyShare)
  }

  /** A step waits for another transaction exactly when that one holds a conflicting lock on the very row the step needs. */
  lemma WaitsOnlyForConflicts(c: Db, t: Tx, op: Op, other: Tx)
    ensures Granted(c, t, op, other) <==>
            Needs(c, t, op).Some? ==> forall m :: Holds(other, Needs(c, t, op).value.0, m) ==> !Conflicting(m, Needs(c, t, op).value.1)
  {
    hide View;
    if Needs(c, t, op).Some? {
      var (r, mode) := Needs(c, t, op).value;
      assert (forall m :: Holds(other, r, m) ==> !Conflicting(m, mode)) <==>
             && (Holds(other, r, KeyShare) ==> !Conflicting(KeyShare, mode))
             && (Holds(other, r, NoKeyUpdate) ==> !Conflicting(NoKeyUpdate, mode))
             && (Holds(other, r, ForUpdate) ==> !Conflicting(ForUpdate, mode));
    }
  }

  // ---- what the work still due can change of the rows ----

  /** The versions whose files are about to go: deleted ones, and those of deleted artifacts. */
  function Gone(see: Db, orphV: set<Id>, orphA: set<Id>): set<Id> {
    orphV + set v | v in see.versions && see.versions[v].artifact in orphA
  }

  function FilesOutside(see: Db, gone: set<Id>): FileRows {
    map f | f in see.files && see.files[f].version !in gone :: see.files[f]
  }

  /** The same artifacts, all versions but these in the same artifacts, and exactly the files of all other versions. */
  ghost predicate Rows(see: Db, gone: set<Id>, db: Db) {
    && db.artifacts.Keys == see.artifacts.Keys
    && db.versions.Keys == see.versions.Keys - gone && (forall v :: v in db.versions ==> db.versions[v].artifact == see.versions[v].artifact)
    && db.files == FilesOutside(see, gone)
  }

  /** Two stages of the same work: what will be left is the same. */
  ghost predicate SameRows(see: Db, gone: set<Id>, now: Db, left: set<Id>) {
    && now.artifacts.Keys == see.artifacts.Keys
    && now.versions.Keys - left == see.versions.Keys - gone
    && (forall v :: v in now.versions && v in see.versions && v !in left ==> now.versions[v].artifact == see.versions[v].artifact)
    && FilesOutside(now, left) == FilesOutside(see, gone)
  }

  lemma RowsAlong(see: Db, gone: set<Id>, now: Db, left: set<Id>, db: Db)
    requires SameRows(see, gone, now, left) && Rows(now, left, db)
    ensures Rows(see, gone, db)
  {
    forall v | v in db.versions ensures db.versions[v].artifact == see.versions[v].artifact {
      assert v in now.versions.Keys - left;
    }
  }

  // ---- what each step writes ----

  /** A file statement writes that one row, and leaves its version's trigger to run if the bytes that count changed. */
  lemma FileStatements(c: Db, t: Tx, op: Op, next: Id)
    requires Enabled(c, t, op, false) && (op.InsertFile? || op.UpdateFile? || op.DeleteFile?)
    ensures var u, see := Apply(c, t, op, next), View(c, t);
            && View(c, u) == see.(files := match op
                                          case InsertFile(row) => see.files[next := row]
                                          case UpdateFile(f, row) => see.files[f := row]
                                          case _ => see.files - {op.f})
            && u.orphV == t.orphV && u.orphA == t.orphA && u.due == t.due && u.aLock == t.aLock
  {
    hide CountedBytes;
    match op {
      case InsertFile(row) => OverlayPut(c.files, t.fileW, next, Some(row));
      case UpdateFile(f, row) => OverlayPut(c.files, t.fileW, f, Some(row));
      case DeleteFile(f) => OverlayPut(c.files, t.fileW, f, None);
      case _ =>
    }
  }

  /** A version statement writes that one row and leaves the recompute of its artifact; a delete also leaves its files to cascade. */
  lemma VersionStatements(c: Db, t: Tx, op: Op, next: Id)
    requires Enabled(c, t, op, false) && (op.InsertVersion? || op.DeleteVersion?)
    ensures var u, see := Apply(c, t, op, next), View(c, t);
            && View(c, u) == see.(versions := if op.InsertVersion? then see.versions[next := VRow(op.a, 0)] else see.versions - {op.v})
            && u.orphV == (if op.InsertVersion? then t.orphV else t.orphV + {op.v}) && u.orphA == t.orphA && u.pend == t.pend
            && u.due == t.due[(if op.InsertVersion? then op.a else see.versions[op.v].artifact) := None]
  {
    match op {
      case InsertVersion(a) => OverlayPut(c.versions, t.verW, next, Some(VRow(a, 0)));
      case DeleteVersion(v) => OverlayPut(c.versions, t.verW, v, None);
      case _ =>
    }
  }

  /** An artifact statement writes that one row; a delete leaves its versions to cascade. */
  lemma ArtifactStatements(c: Db, t: Tx, op: Op, next: Id)
    requires Enabled(c, t, op, false) && (op.InsertArtifact? || op.DeleteArtifact?)
    ensures var u, see := Apply(c, t, op, next), View(c, t);
            && View(c, u) == see.(artifacts := if op.InsertArtifact? then see.artifacts[next := Stats(0, 0, 0)] else see.artifacts - {op.a})
            && u.orphV == t.orphV && u.orphA == (if op.InsertArtifact? then t.orphA else t.orphA + {op.a}) && u.pend == t.pend && u.due == t.due
  {
    match op {
      case InsertArtifact => OverlayPut(c.artifacts, t.artW, next, Some(Stats(0, 0, 0)));
      case DeleteArtifact(a) => OverlayPut(c.artifacts, t.artW, a, None);
      case _ =>
    }
  }

  /** The file trigger adds what is pending to the version's total, if the version is still there, and its artifact is to be recomputed. */
  lemma DeltaApplied(c: Db, t: Tx, v: Id, next: Id)
    requires v in t.pend
    ensures var u, see := Apply(c, t, ApplyDelta(v), next), View(c, t);
            && u.pend == t.pend - {v} && u.orphV == t.orphV && u.orphA == t.orphA
            && View(c, u) == (if v !in see.versions then see
                              else see.(versions := see.versions[v := VRow(see.versions[v].artifact, see.versions[v].bytes + t.pend[v])]))
            && u.due == (if v !in see.versions then t.due else t.due[see.versions[v].artifact := None])
  {
    var see := View(c, t);
    if v in see.versions {
      OverlayPut(c.versions, t.verW, v, Some(see.versions[v].(bytes := see.versions[v].bytes + t.pend[v])));
    }
  }

  /** The version trigger: locking and reading write nothing, and then the artifact's row becomes what was read, if it is still there. */
  lemma Recomputed(c: Db, t: Tx, op: Op, next: Id)
    requires Enabled(c, t, op, false) && (op.LockArtifact? || op.TakeSnapshot? || op.WriteStats?)
    ensures var u, see := Apply(c, t, op, next), View(c, t);
            && u.pend == t.pend && u.orphV == t.orphV && u.orphA == t.orphA
            && View(c, u) == (if op.WriteStats? && op.a in see.artifacts then see.(artifacts := see.artifacts[op.a := t.due[op.a].value]) else see)
            && u.due == (match op
                         case LockArtifact(_) => t.due
                         case TakeSnapshot(a) => t.due[a := Some(Aggregated(see.versions, a))]
                         case _ => t.due - {op.a})
            && (op.LockArtifact? ==> op.a in u.aLock)
            && t.aLock <= u.aLock <= t.aLock + {op.a}
  {
    hide Aggregated;
    if op.WriteStats? {
      OverlayPut(c.artifacts, t.artW, op.a, t.due[op.a]);
    }
  }

  // ---- finishing ----

  /** The artifacts due whose recompute has yet to read, and those yet to be locked. */
  function Unread(t: Tx): set<Id> {
    set a | a in t.due && t.due[a].None?
  }

  function Unlocked(t: Tx): set<Id> {
    set a | a in t.due && a !in t.aLock
  }

  lemma Smaller<T>(s: set<T>, u: set<T>, x: T)
    requires u <= s && x in s && x !in u
    ensures |u| < |s|
  {
    var rest := s - {x};
    assert u <= rest && s == rest + {x};
    assert rest == u + (rest - u);
  }

  /** A deleted version is out of sight until its files are gone. */
  ghost predicate OutOfSight(c: Db, t: Tx) {
    forall v :: v in t.orphV ==> v !in View(c, t).versions
  }

  /** One step further: what will be left is the same, and less is to do. */
  ghost predicate Further(c: Db, t: Tx, op: Op, next: Id) {
    && Enabled(c, t, op, true) && Enabled(c, t, op, false)
    && var u := Apply(c, t, op, next);
       OutOfSight(c, u) && SameRows(View(c, t), Gone(View(c, t), t.orphV, t.orphA), View(c, u), Gone(View(c, u), u.orphV, u.orphA)) && LessToDo(c, u, t)
  }

  ghost predicate LessToDo(c: Db, u: Tx, t: Tx) {
    var now, see := View(c, u), View(c, t);
    || |now.versions| < |see.versions|
    || (|now.versions| == |see.versions|
        && (|now.files| < |see.files|
            || (|now.files| == |see.files|
                && (|u.orphA| + |u.orphV| < |t.orphA| + |t.orphV|
                    || (|u.orphA| + |u.orphV| == |t.orphA| + |t.orphV|
                        && (|u.pend| < |t.pend|
                            || (|u.pend| == |t.pend|
                                && (|u.due| < |t.due|
                                    || (|u.due| == |t.due|
                                        && (|Unread(u)| < |Unread(t)| || (|Unread(u)| == |Unread(t)| && |Unlocked(u)| < |Unlocked(t)|)))))))))))
  }

  lemma NothingWritten(c: Db, t: Tx, u: Tx)
    requires u.fileW == t.fileW && u.verW == t.verW && u.artW == t.artW
    ensures View(c, u) == View(c, t)
  {
  }

  lemma RowsAfterVersion(see: Db, orphV: set<Id>, orphA: set<Id>, v: Id)
    requires v in see.versions && see.versions[v].artifact in orphA
    ensures var now := see.(versions := see.versions - {v}); SameRows(see, Gone(see, orphV, orphA), now, Gone(now, orphV + {v}, orphA))
  {
    var now := see.(versions := see.versions - {v});
    assert Gone(now, orphV + {v}, orphA) == Gone(see, orphV, orphA);
  }

  lemma RowsAfterFile(see: Db, orphV: set<Id>, orphA: set<Id>, f: Id)
    requires f in see.files && see.files[f].version in orphV
    ensures var now := see.(files := see.files - {f}); SameRows(see, Gone(see, orphV, orphA), now, Gone(now, orphV, orphA))
  {
    var now := see.(files := see.files - {f});
    assert FilesOutside(now, Gone(now, orphV, orphA)) == FilesOutside(see, Gone(see, orphV, orphA));
  }

  lemma RowsAfterCascade(see: Db, orphV: set<Id>, orphA: set<Id>)
    ensures forall a :: a in orphA && (forall v :: v in see.versions ==> see.versions[v].artifact != a) ==>
              SameRows(see, Gone(see, orphV, orphA), see, Gone(see, orphV, orphA - {a}))
    ensures forall v :: v in orphV && v !in see.versions && (forall f :: f in see.files ==> see.files[f].version != v) ==>
              SameRows(see, Gone(see, orphV, orphA), see, Gone(see, orphV - {v}, orphA))
  {
    forall a | a in orphA && (forall v :: v in see.versions ==> see.versions[v].artifact != a)
      ensures SameRows(see, Gone(see, orphV, orphA), see, Gone(see, orphV, orphA - {a}))
    {
      assert Gone(see, orphV, orphA - {a}) == Gone(see, orphV, orphA);
    }
    forall v | v in orphV && v !in see.versions && (forall f :: f in see.files ==> see.files[f].version != v)
      ensures SameRows(see, Gone(see, orphV, orphA), see, Gone(see, orphV - {v}, orphA))
    {
      assert Gone(see, orphV - {v}, orphA) == Gone(see, orphV, orphA) - {v} || Gone(see, orphV - {v}, orphA) == Gone(see, orphV, orphA);
      assert FilesOutside(see, Gone(see, orphV - {v}, orphA)) == FilesOutside(see, Gone(see, orphV, orphA));
    }
  }

  lemma FewerRows(c: Db, u: Tx, t: Tx)
    ensures |View(c, u).versions| < |View(c, t).versions| ==> LessToDo(c, u, t)
    ensures View(c, u).versions.Keys == View(c, t).versions.Keys && |View(c, u).files| < |View(c, t).files| ==> LessToDo(c, u, t)
  {
    hide View;
    SameSize(View(c, u).versions, View(c, t).versions);
  }

  lemma SameSize<K, V>(m: map<K, V>, n: map<K, V>)
    ensures m.Keys == n.Keys ==> |m| == |n|
  {
    assert |m| == |m.Keys| && |n| == |n.Keys|;
  }

  lemma FewerTriggers(c: Db, u: Tx, t: Tx)
    requires View(c, u).versions.Keys == View(c, t).versions.Keys && View(c, u).files == View(c, t).files
    ensures |u.orphA| + |u.orphV| < |t.orphA| + |t.orphV| ==> LessToDo(c, u, t)
    ensures u.orphA == t.orphA && u.orphV == t.orphV && |u.pend| < |t.pend| ==> LessToDo(c, u, t)
    ensures u.orphA == t.orphA && u.orphV == t.orphV && u.pend == t.pend && |u.due| < |t.due| ==> LessToDo(c, u, t)
    ensures u.orphA == t.orphA && u.orphV == t.orphV && u.pend == t.pend && u.due.Keys == t.due.Keys ==>
              (|Unread(u)| < |Unread(t)| || (|Unread(u)| == |Unread(t)| && |Unlocked(u)| < |Unlocked(t)|) ==> LessToDo(c, u, t))
  {
    hide View, Unread, Unlocked;
    SameSize(View(c, u).versions, View(c, t).versions);
    SameSize(u.due, t.due);
  }

  /** A version below a deleted artifact goes. */
  lemma CascadeDeletesVersion(c: Db, t: Tx, next: Id, v: Id)
    requires OutOfSight(c, t) && v in View(c, t).versions && View(c, t).versions[v].artifact in t.orphA
    ensures Further(c, t, DeleteVersion(v), next)
  {
    hide View, SameRows, Gone, LessToDo;
    var see, u := View(c, t), Apply(c, t, DeleteVersion(v), next);
    VersionStatements(c, t, DeleteVersion(v), next);
    hide Apply;
    Smaller(see.versions.Keys, (see.versions - {v}).Keys, v);
    RowsAfterVersion(see, t.orphV, t.orphA, v);
    FewerRows(c, u, t);
  }

  /** A file below a deleted version goes. */
  lemma CascadeDeletesFile(c: Db, t: Tx, next: Id, f: Id)
    requires OutOfSight(c, t) && f in View(c, t).files && View(c, t).files[f].version in t.orphV
    ensures Further(c, t, DeleteFile(f), next)
  {
    hide View, SameRows, Gone, LessToDo;
    var see, u := View(c, t), Apply(c, t, DeleteFile(f), next);
    FileStatements(c, t, DeleteFile(f), next);
    hide Apply;
    Smaller(see.files.Keys, (see.files - {f}).Keys, f);
    RowsAfterFile(see, t.orphV, t.orphA, f);
    FewerRows(c, u, t);
  }

  /** No row below is left: the cascade is over. */
  lemma CascadeEnds(c: Db, t: Tx, next: Id, op: Op)
    requires OutOfSight(c, t)
    requires || (op.VersionsCascaded? && op.a in t.orphA && forall v :: v in View(c, t).versions ==> View(c, t).versions[v].artifact != op.a)
             || (op.FilesCascaded? && op.v in t.orphV && forall f :: f in View(c, t).files ==> View(c, t).files[f].version != op.v)
    ensures Further(c, t, op, next)
  {
    hide View, SameRows, Gone, LessToDo;
    var u := if op.VersionsCascaded? then t.(orphA := t.orphA - {op.a}) else t.(orphV := t.orphV - {op.v});
    NothingWritten(c, t, u);
    RowsAfterCascade(View(c, t), t.orphV, t.orphA);
    if op.VersionsCascaded? {
      Smaller(t.orphA, u.orphA, op.a);
    } else {
      Smaller(t.orphV, u.orphV, op.v);
    }
    FewerTriggers(c, u, t);
  }

  /** One step of the cascade below a deleted artifact. */
  lemma CascadeArtifact(c: Db, t: Tx, next: Id, a: Id) returns (op: Op)
    requires a in t.orphA && OutOfSight(c, t)
    ensures Further(c, t, op, next)
  {
    hide View, Further, OutOfSight;
    if v :| v in View(c, t).versions && View(c, t).versions[v].artifact == a {
      op := DeleteVersion(v);
      CascadeDeletesVersion(c, t, next, v);
    } else {
      op := VersionsCascaded(a);
      CascadeEnds(c, t, next, op);
    }
  }

  /** One step of the cascade below a deleted version. */
  lemma CascadeVersion(c: Db, t: Tx, next: Id, v: Id) returns (op: Op)
    requires v in t.orphV && OutOfSight(c, t)
    ensures Further(c, t, op, next)
  {
    hide View, Further, OutOfSight;
    if f :| f in View(c, t).files && View(c, t).files[f].version == v {
      op := DeleteFile(f);
      CascadeDeletesFile(c, t, next, f);
    } else {
      op := FilesCascaded(v);
      CascadeEnds(c, t, next, op);
    }
  }

  /** Rows of the same artifacts, whatever their totals, and the same files. */
  lemma RowsAfterTotals(see: Db, now: Db, orphV: set<Id>)
    requires now.artifacts.Keys == see.artifacts.Keys && now.files == see.files && now.versions.Keys == see.versions.Keys
    requires forall v :: v in now.versions ==> now.versions[v].artifact == see.versions[v].artifact
    ensures SameRows(see, Gone(see, orphV, {}), now, Gone(now, orphV, {}))
  {
    assert Gone(now, orphV, {}) == Gone(see, orphV, {});
  }

  /** A pending file trigger. */
  lemma FileTrigger(c: Db, t: Tx, next: Id, v: Id)
    requires t.orphA == {} && t.orphV == {} && v in t.pend
    ensures Further(c, t, ApplyDelta(v), next)
  {
    hide View, SameRows, Gone, LessToDo;
    DeltaApplied(c, t, v, next);
    var u := Apply(c, t, ApplyDelta(v), next);
    hide Apply;
    Smaller(t.pend.Keys, (t.pend - {v}).Keys, v);
    RowsAfterTotals(View(c, t), View(c, u), {});
    FewerTriggers(c, u, t);
  }

  /** A version trigger: lock, read, write. */
  lemma VersionTrigger(c: Db, t: Tx, next: Id, a: Id) returns (op: Op)
    requires t.orphA == {} && t.orphV == {} && t.pend == map[] && a in t.due
    ensures Further(c, t, op, next)
  {
    hide View, SameRows, Gone, LessToDo, Aggregated;
    op := if t.due[a].Some? then WriteStats(a) else if a in View(c, t).artifacts && a !in t.aLock then LockArtifact(a) else TakeSnapshot(a);
    Recomputed(c, t, op, next);
    var u := Apply(c, t, op, next);
    hide Apply;
    RowsAfterTotals(View(c, t), View(c, u), {});
    if op.WriteStats? {
      Smaller(t.due.Keys, u.due.Keys, a);
    } else if op.LockArtifact? {
      Smaller(Unlocked(t), Unlocked(u), a);
    } else {
      Smaller(Unread(t), Unread(u), a);
    }
    FewerTriggers(c, u, t);
  }

  // ---- a transaction that is alone ----

  /** Whatever a transaction has yet to run, alone it gets to its commit, and what it then leaves are the rows it saw less what was to cascade. */
  lemma {:induction false} AloneCanCommit(s: State, c: Db, t: Tx, next: Id) returns (db: Db, more: Id)
    requires Reaches(s, Alone(c, t, next)) && OutOfSight(c, t)
    ensures Reaches(s, State(db, map[], more)) && Rows(View(c, t), Gone(View(c, t), t.orphV, t.orphA), db)
    decreases |View(c, t).versions|, |View(c, t).files|, |t.orphA| + |t.orphV|, |t.pend|, |t.due|, |Unread(t)|, |Unlocked(t)|
  {
    hide View, Reaches, Apply, Enabled, SameRows, Gone, Rows, OutOfSight;
    if t.orphA == {} && t.orphV == {} && t.pend == map[] && t.due == map[] {
      db, more := View(c, t), next;
      assert map[0 as nat := t] - {0} == map[];
      OneMore(s, Alone(c, t, next), Commit(0), State(db, map[], more));
      AllRows(db);
    } else {
      var op: Op;
      if a :| a in t.orphA {
        op := CascadeArtifact(c, t, next, a);
      } else if v :| v in t.orphV {
        op := CascadeVersion(c, t, next, v);
      } else if v :| v in t.pend {
        op := ApplyDelta(v);
        FileTrigger(c, t, next, v);
      } else {
        var a :| a in t.due;
        op := VersionTrigger(c, t, next, a);
      }
      var u := Apply(c, t, op, next);
      DoAlone(s, c, t, next, op);
      db, more := AloneCanCommit(s, c, u, next + 1);
      RowsAlong(View(c, t), Gone(View(c, t), t.orphV, t.orphA), View(c, u), Gone(View(c, u), u.orphV, u.orphA), db);
    }
  }

  lemma AllRows(db: Db)
    ensures Rows(db, Gone(db, {}, {}), db)
  {
  }

  // ---- the statements of the sequential database ----

  datatype Statement =
    | NewFileRow(file: FileRow)
    | FileUpdated(f: Id, file: FileRow)
    | FileDropped(f: Id)
    | NewVersionRow(version: VersionRow)
    | VersionDropped(v: Id)
    | NewArtifactRow(row: ArtifactRow)
    | ArtifactDropped(a: Id)

  /** The tables after the statement and its cascades; a new row gets the next id. */
  function After(t: Tables, st: Statement, next: Id): Tables {
    match st
    case NewFileRow(file) => t.PutFile(next, file)
    case FileUpdated(f, file) => t.PutFile(f, file)
    case FileDropped(f) => t.DropFiles({f})
    case NewVersionRow(version) => t.PutVersion(next, version)
    case VersionDropped(v) => t.DropVersions({v})
    case NewArtifactRow(row) => t.PutArtifact(next, row)
    case ArtifactDropped(a) => t.DropArtifacts({a})
  }

  function OpOf(st: Statement): Op {
    match st
    case NewFileRow(file) => InsertFile(file)
    case FileUpdated(f, file) => UpdateFile(f, file)
    case FileDropped(f) => DeleteFile(f)
    case NewVersionRow(version) => InsertVersion(version.artifact)
    case VersionDropped(v) => DeleteVersion(v)
    case NewArtifactRow(_) => InsertArtifact
    case ArtifactDropped(a) => DeleteArtifact(a)
  }

  /** The row to change is there, and an update does not move a file to another version. */
  predicate Possible(t: Tables, st: Statement) {
    match st
    case NewFileRow(file) => file.version in t.versions
    case FileUpdated(f, file) => f in t.files && file.version == t.files[f].version
    case FileDropped(f) => f in t.files
    case NewVersionRow(version) => version.artifact in t.artifacts
    case VersionDropped(v) => v in t.versions
    case NewArtifactRow(_) => true
    case ArtifactDropped(a) => a in t.artifacts
  }

  lemma NothingSeen(c: Db)
    ensures View(c, Fresh) == c
  {
    OverlayEmpty(c.artifacts);
    OverlayEmpty(c.versions);
    OverlayEmpty(c.files);
  }

  /** What the transaction sees right after the statement. */
  function Seen(c: Db, st: Statement, next: Id): Db {
    match st
    case NewFileRow(file) => c.(files := c.files[next := file])
    case FileUpdated(f, file) => c.(files := c.files[f := file])
    case FileDropped(f) => c.(files := c.files - {f})
    case NewVersionRow(version) => c.(versions := c.versions[next := VRow(version.artifact, 0)])
    case VersionDropped(v) => c.(versions := c.versions - {v})
    case NewArtifactRow(_) => c.(artifacts := c.artifacts[next := Stats(0, 0, 0)])
    case ArtifactDropped(a) => c.(artifacts := c.artifacts - {a})
  }

  function DroppedVersions(st: Statement): set<Id> {
    if st.VersionDropped? then {st.v} else {}
  }

  function DroppedArtifacts(st: Statement): set<Id> {
    if st.ArtifactDropped? then {st.a} else {}
  }

  lemma StatementEffect(t: Tables, bytes: map<Id, int>, stats: map<Id, Stats>, st: Statement, next: Id)
    requires bytes.Keys == t.versions.Keys && stats.Keys == t.artifacts.Keys && Possible(t, st)
    ensures var c, op := Committed(t, bytes, stats), OpOf(st);
            && Enabled(c, Fresh, op, true) && Enabled(c, Fresh, op, false)
            && var u := Apply(c, Fresh, op, next);
               View(c, u) == Seen(c, st, next) && u.orphV == DroppedVersions(st) && u.orphA == DroppedArtifacts(st)
  {
    var c, op := Committed(t, bytes, stats), OpOf(st);
    NothingSeen(c);
    hide View;
    assert Enabled(c, Fresh, op, true) && Enabled(c, Fresh, op, false);
    hide Enabled, Apply;
    if op.InsertFile? || op.UpdateFile? || op.DeleteFile? {
      FileStatements(c, Fresh, op, next);
    } else if op.InsertVersion? || op.DeleteVersion? {
      VersionStatements(c, Fresh, op, next);
    } else {
      ArtifactStatements(c, Fresh, op, next);
    }
  }

  /** The two databases have the same rows, statistics aside. */
  ghost predicate SameTables(db: Db, t: Tables) {
    && db.artifacts.Keys == t.artifacts.Keys && db.versions.Keys == t.versions.Keys && db.files == t.files
    && forall v :: v in db.versions ==> db.versions[v].artifact == t.versions[v].artifact
  }

  /** Once the cascades are over the rows are those of the sequential statement. */
  lemma StatementRows(t: Tables, c: Db, st: Statement, next: Id, db: Db)
    requires SameTables(c, t) && t.IdsBelow(next) && Possible(t, st)
    requires var see := Seen(c, st, next); Rows(see, Gone(see, DroppedVersions(st), DroppedArtifacts(st)), db)
    ensures SameTables(db, After(t, st, next))
  {
    var see := Seen(c, st, next);
    if st.ArtifactDropped? {
      RowsWithoutArtifact(t, see, st.a, db);
    } else if st.VersionDropped? {
      RowsWithoutVersion(t, see, st.v, db);
    } else {
      NothingGone(see, db);
      hide Rows, Gone;
    }
  }

  lemma NothingGone(see: Db, db: Db)
    requires Rows(see, Gone(see, {}, {}), db)
    ensures db.artifacts.Keys == see.artifacts.Keys && db.versions.Keys == see.versions.Keys && db.files == see.files
    ensures forall v :: v in db.versions ==> db.versions[v].artifact == see.versions[v].artifact
  {
    assert Gone(see, {}, {}) == {};
    assert db.files == see.files;
  }

  lemma RowsWithoutVersion(t: Tables, see: Db, v: Id, db: Db)
    requires see.artifacts.Keys == t.artifacts.Keys && see.files == t.files && see.versions.Keys == t.versions.Keys - {v}
    requires forall w :: w in see.versions ==> see.versions[w].artifact == t.versions[w].artifact
    requires Rows(see, Gone(see, {v}, {}), db)
    ensures SameTables(db, t.DropVersions({v}))
  {
    assert Gone(see, {v}, {}) == {v};
  }

  lemma RowsWithoutArtifact(t: Tables, see: Db, a: Id, db: Db)
    requires see.artifacts.Keys == t.artifacts.Keys - {a} && see.files == t.files && see.versions.Keys == t.versions.Keys
    requires forall v :: v in see.versions ==> see.versions[v].artifact == t.versions[v].artifact
    requires Rows(see, Gone(see, {}, {a}), db)
    ensures SameTables(db, t.DropArtifacts({a}))
  {
    assert Gone(see, {}, {a}) == t.VersionsOf({a});
  }

  /** Exact databases with the same rows are the same. */
  lemma ExactIsUnique(db: Db, t: Tables, bytes: map<Id, int>, stats: map<Id, Stats>)
    requires bytes.Keys == t.versions.Keys && stats.Keys == t.artifacts.Keys
    requires SameTables(db, t) && Exact(db) && Exact(Committed(t, bytes, stats))
    ensures db == Committed(t, bytes, stats)
  {
    hide VersionBytes, Aggregated, ReferencesOk;
    var other := Committed(t, bytes, stats);
    forall v | v in db.versions ensures db.versions[v] == other.versions[v] {
      assert Pending(map[], v) == 0;
    }
    assert db.versions == other.versions;
    assert db.artifacts == other.artifacts;
  }

  /** The statement's transaction, alone, from its begin to its commit. */
  lemma StatementRuns(t: Tables, bytes: map<Id, int>, stats: map<Id, Stats>, st: Statement, next: Id) returns (db: Db, more: Id)
    requires t.IdsBelow(next) && bytes.Keys == t.versions.Keys && stats.Keys == t.artifacts.Keys && Possible(t, st)
    ensures Reaches(State(Committed(t, bytes, stats), map[], next), State(db, map[], more)) && SameTables(db, After(t, st, next))
  {
    var c := Committed(t, bytes, stats);
    var s := State(c, map[], next);
    StatementEffect(t, bytes, stats, st, next);
    DroppedIsOutOfSight(c, st, next);
    assert SameTables(c, t);
    hide Apply, View, Enabled, Reaches, Rows, Gone, SameTables, After, Committed, Possible, Seen, DroppedVersions, DroppedArtifacts, OpOf;
    ReachesItself(s);
    assert map[][0 as nat := Fresh] == map[0 as nat := Fresh];
    OneMore(s, s, Begin(0), Alone(c, Fresh, next));
    DoAlone(s, c, Fresh, next, OpOf(st));
    db, more := AloneCanCommit(s, c, Apply(c, Fresh, OpOf(st), next), next + 1);
    StatementRows(t, c, st, next, db);
  }

  lemma DroppedIsOutOfSight(c: Db, st: Statement, next: Id)
    ensures forall v :: v in DroppedVersions(st) ==> v !in Seen(c, st, next).versions
  {
  }

  /** Every statement of the sequential database is a transaction of the concurrent system: alone, it commits exactly the rows and statistics
      the sequential statement leaves. */
  lemma StatementIsARun(t: Tables, bytes: map<Id, int>, stats: map<Id, Stats>, st: Statement, next: Id, after: map<Id, int>, statsAfter: map<Id, Stats>)
    returns (more: Id)
    requires t.Ok(next) && Reflects(t, bytes, stats, t.files, {}) && Possible(t, st)
    requires var u := After(t, st, next); u.Ok(next + 1) && Reflects(u, after, statsAfter, u.files, {})
    ensures Reaches(State(Committed(t, bytes, stats), map[], next), State(Committed(After(t, st, next), after, statsAfter), map[], more))
  {
    var t' := After(t, st, next);
    var db;
    db, more := StatementRuns(t, bytes, stats, st, next);
    hide After, Possible, SameTables, Reaches, Tables.Unique, Tables.TagsAtHome;
    ReflectsMeansExact(t, bytes, stats);
    ReflectsMeansExact(t', after, statsAfter);
    StartsExact(t, bytes, stats, next);
    ReachedIsExact(State(Committed(t, bytes, stats), map[], next), State(db, map[], more));
    hide Exact, Committed;
    ExactIsUnique(db, t', after, statsAfter);
  }

  lemma StartsExact(t: Tables, bytes: map<Id, int>, stats: map<Id, Stats>, next: Id)
    requires t.IdsBelow(next) && bytes.Keys == t.versions.Keys && stats.Keys == t.artifacts.Keys && Exact(Committed(t, bytes, stats))
    ensures Initial(State(Committed(t, bytes, stats), map[], next))
  {
    hide Exact;
  }

  lemma ReachedIsExact(s: State, u: State)
    requires Reaches(s, u) && Initial(s)
    ensures Exact(u.c)
  {
    hide Next, Initial, Exact;
    var states, steps :| Run(states, steps, true) && states[0] == s && states[|steps|] == u;
    CommittedStatisticsAreExact(states, steps, |steps|);
  }
}
