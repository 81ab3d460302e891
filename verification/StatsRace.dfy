/** What the concurrency theorem starts from, and the run that breaks it once the recompute no longer locks first. */
module StatsRace {
  import opened Wrappers
  import opened Aggregates
  import opened Schema
  import opened Statistics
  import opened ConcurrentStats
  import opened StatsCommit

  /** The registry database between transactions, as the concurrency model sees it. */
  function Committed(t: Tables, bytes: map<Id, int>, stats: map<Id, Stats>): Db
    requires bytes.Keys == t.versions.Keys
  {
    Db(stats, map v | v in t.versions :: VRow(t.versions[v].artifact, bytes[v]), t.files)
  }

  lemma CommittedRows(t: Tables, bytes: map<Id, int>, stats: map<Id, Stats>, a: Id)
    requires bytes.Keys == t.versions.Keys
    ensures RowsOf(Committed(t, bytes, stats).versions, a) == BytesOfVersions(t.versions, bytes, a)
  {
  }

  lemma BytesShowMeansTotalsOk(t: Tables, bytes: map<Id, int>, stats: map<Id, Stats>)
    requires bytes.Keys == t.versions.Keys
    ensures BytesShow(t.versions, bytes, t.files) <==> TotalsOk(Committed(t, bytes, stats), map[])
  {
    hide VersionBytes;
    var db := Committed(t, bytes, stats);
    assert forall v :: v in t.versions ==> db.versions[v].bytes + Pending(map[], v) == bytes[v];
  }

  lemma StatsShowMeansStatsOk(t: Tables, bytes: map<Id, int>, stats: map<Id, Stats>)
    requires bytes.Keys == t.versions.Keys && stats.Keys == t.artifacts.Keys
    ensures StatsShow(t.artifacts, t.versions, bytes, stats, {}) <==> StatsOk(Committed(t, bytes, stats), {})
  {
    var db := Committed(t, bytes, stats);
    forall a ensures Aggregated(db.versions, a) == StatsOf(t.versions, bytes, a) {
      CommittedRows(t, bytes, stats, a);
    }
    hide Aggregated, StatsOf;
  }

  /** The sequential model's columns are right exactly when the concurrency model calls the committed database exact. */
  lemma ReflectsMeansExact(t: Tables, bytes: map<Id, int>, stats: map<Id, Stats>)
    requires t.ChildrenHaveVersions() && t.ChildrenHaveArtifacts()
    requires bytes.Keys == t.versions.Keys && stats.Keys == t.artifacts.Keys
    ensures Reflects(t, bytes, stats, t.files, {}) <==> Exact(Committed(t, bytes, stats))
  {
    hide BytesShow, StatsShow, TotalsOk, StatsOk;
    BytesShowMeansTotalsOk(t, bytes, stats);
    StatsShowMeansStatsOk(t, bytes, stats);
    assert ReferencesOk(Committed(t, bytes, stats), {}, {});
  }

  // ---- two version inserts under artifact 1, each recomputing without the lock ----

  function Registry(stats: Stats, versions: map<Id, VRow>): Db {
    Db(map[1 := stats], versions, map[])
  }

  const ONE: Stats := Stats(1, 0, 0)

  function Inserted(v: Id): Tx {
    Fresh.(verW := map[v := Some(VRow(1, 0))], aShare := {1}, due := map[1 := None], touched := {1})
  }

  function Recomputed(v: Id): Tx {
    Inserted(v).(due := map[1 := Some(ONE)])
  }

  function Written(v: Id): Tx {
    Inserted(v).(due := map[], artW := map[1 := Some(ONE)], aLock := {1})
  }

  lemma Insert(txs: map<nat, Tx>, x: nat, v: Id)
    requires x in txs && txs[x] == Fresh && forall y :: y in txs ==> txs[y].aLock == {}
    ensures var c := Registry(Stats(0, 0, 0), map[]);
            Next(State(c, txs, v), Do(x, InsertVersion(1)), State(c, txs[x := Inserted(v)], v + 1), false)
  {
    var c := Registry(Stats(0, 0, 0), map[]);
    assert Apply(c, Fresh, InsertVersion(1), v) == Inserted(v);
  }

  lemma OneRow(v: Id)
    ensures Aggregated(View(Registry(Stats(0, 0, 0), map[]), Inserted(v)).versions, 1) == ONE
  {
    assert RowsOf(View(Registry(Stats(0, 0, 0), map[]), Inserted(v)).versions, 1) == map[v := 0];
    SumPut(map[], v, 0);
    LargestPut(map[], v, 0);
  }

  lemma Recompute(txs: map<nat, Tx>, x: nat, v: Id, next: Id)
    requires x in txs && txs[x] == Inserted(v)
    ensures var c := Registry(Stats(0, 0, 0), map[]);
            Next(State(c, txs, next), Do(x, TakeSnapshot(1)), State(c, txs[x := Recomputed(v)], next + 1), false)
  {
    OneRow(v);
    hide Aggregated, View;
    assert Inserted(v).due[1 := Some(ONE)] == Recomputed(v).due;
  }

  lemma Write(stats: Stats, versions: map<Id, VRow>, txs: map<nat, Tx>, x: nat, v: Id, next: Id)
    requires x in txs && txs[x] == Recomputed(v) && forall y :: y in txs ==> txs[y].aLock == {}
    ensures var c := Registry(stats, versions);
            Next(State(c, txs, next), Do(x, WriteStats(1)), State(c, txs[x := Written(v)], next + 1), false)
  {
    assert 1 in View(Registry(stats, versions), Recomputed(v)).artifacts;
    assert Recomputed(v).due - {1} == map[];
    assert Recomputed(v).artW[1 := Some(ONE)] == Written(v).artW;
    assert Recomputed(v).aLock + {1} == {1};
  }

  lemma Publish(stats: Stats, versions: map<Id, VRow>, txs: map<nat, Tx>, x: nat, v: Id, next: Id)
    requires x in txs && txs[x] == Written(v)
    ensures Next(State(Registry(stats, versions), txs, next), Commit(x), State(Registry(ONE, versions[v := VRow(1, 0)]), txs - {x}, next), false)
  {
    var after := View(Registry(stats, versions), Written(v));
    assert after.artifacts == map[1 := ONE];
    assert after.versions == versions[v := VRow(1, 0)];
    assert after.files == map[];
  }

  lemma Start()
    ensures Initial(State(Registry(Stats(0, 0, 0), map[]), map[], 2))
  {
    assert RowsOf(map[], 1) == map[];
  }

  lemma BothBegin()
    ensures var c := Registry(Stats(0, 0, 0), map[]);
            && Next(State(c, map[], 2), Begin(0), State(c, map[0 := Fresh], 2), false)
            && Next(State(c, map[0 := Fresh], 2), Begin(1), State(c, map[0 := Fresh][1 := Fresh], 2), false)
  {
    assert map[][0 as nat := Fresh] == map[0 as nat := Fresh];
  }

  lemma TwoVersionsCountedOnce()
    ensures !Exact(Registry(ONE, map[2 := VRow(1, 0)][3 := VRow(1, 0)]))
  {
    var db := Registry(ONE, map[2 := VRow(1, 0)][3 := VRow(1, 0)]);
    assert RowsOf(db.versions, 1) == map[2 := 0, 3 := 0];
    assert db.artifacts[1] != Aggregated(db.versions, 1);
  }

  /** Without the lock a run of two inserts ends, with nothing left running, on statistics that missed one version. */
  lemma WithoutTheLockStatisticsGoStale() returns (states: seq<State>, steps: seq<Step>)
    ensures Run(states, steps, false) && Initial(states[0])
    ensures var last := states[|steps|]; last.txs == map[] && !Exact(last.c)
  {
    hide Next, Registry, Initial, Exact;
    var c0, one := Registry(Stats(0, 0, 0), map[]), map[2 := VRow(1, 0)];
    var c1, c2 := Registry(ONE, one), Registry(ONE, one[3 := VRow(1, 0)]);
    var begun := map[0 := Fresh][1 := Fresh];
    var inserted := begun[0 := Inserted(2)][1 := Inserted(3)];
    var recomputed := inserted[0 := Recomputed(2)][1 := Recomputed(3)];
    var written := recomputed[0 := Written(2)];
    Start();
    BothBegin();
    Insert(begun, 0, 2);
    Insert(begun[0 := Inserted(2)], 1, 3);
    Recompute(inserted, 0, 2, 4);
    Recompute(inserted[0 := Recomputed(2)], 1, 3, 5);
    Write(Stats(0, 0, 0), map[], recomputed, 0, 2, 6);
    Publish(Stats(0, 0, 0), map[], written, 0, 2, 7);
    Write(ONE, one, written - {0}, 1, 3, 7);
    Publish(ONE, one, (written - {0})[1 := Written(3)], 1, 3, 8);
    TwoVersionsCountedOnce();
    steps := [Begin(0), Begin(1), Do(0, InsertVersion(1)), Do(1, InsertVersion(1)), Do(0, TakeSnapshot(1)), Do(1, TakeSnapshot(1)),
              Do(0, WriteStats(1)), Commit(0), Do(1, WriteStats(1)), Commit(1)];
    states := [State(c0, map[], 2), State(c0, map[0 := Fresh], 2), State(c0, begun, 2),
               State(c0, begun[0 := Inserted(2)], 3), State(c0, inserted, 4),
               State(c0, inserted[0 := Recomputed(2)], 5), State(c0, recomputed, 6),
               State(c0, written, 7), State(c1, written - {0}, 7),
               State(c1, (written - {0})[1 := Written(3)], 8), State(c2, (written - {0})[1 := Written(3)] - {1}, 8)];
  }
}
