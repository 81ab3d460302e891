/** The size statistics of migration 000009: what they mean, and how each change of a row moves them. */
module Statistics {
  import opened Wrappers
  import opened Aggregates
  import opened Schema

  datatype Stats = Stats(count: nat, largest: int, total: int)

  /** The sizes that count: AVAILABLE files of the version whose size is not NULL. */
  function AvailableSizes(files: map<Id, FileRow>, v: Id): map<Id, int> {
    map f | f in files && files[f].version == v && files[f].status == AVAILABLE && files[f].size.Some? :: files[f].size.value
  }

  /** registry_artifact_version.total_bytes, as a plain aggregate over the file rows. */
  ghost function VersionBytes(files: map<Id, FileRow>, v: Id): int {
    Sum(AvailableSizes(files, v))
  }

  function BytesOfVersions(versions: map<Id, VersionRow>, bytes: map<Id, int>, a: Id): map<Id, int>
    requires bytes.Keys == versions.Keys
  {
    map v | v in versions && versions[v].artifact == a :: bytes[v]
  }

  /** version_count, largest_version_bytes and total_bytes, as plain aggregates over the version rows. */
  ghost function StatsOf(versions: map<Id, VersionRow>, bytes: map<Id, int>, a: Id): Stats
    requires bytes.Keys == versions.Keys
  {
    var m := BytesOfVersions(versions, bytes, a);
    Stats(|m|, Largest(m), Sum(m))
  }

  /** One row written, or deleted. */
  function Put<Row>(rows: map<Id, Row>, id: Id, row: Option<Row>): map<Id, Row> {
    if row.Some? then rows[id := row.value] else rows - {id}
  }

  function Get<Row>(rows: map<Id, Row>, id: Id): Option<Row> {
    if id in rows then Some(rows[id]) else None
  }

  /** COALESCE(size_bytes, 0) of an AVAILABLE row; nothing otherwise. */
  function CountedBytes(row: Option<FileRow>): int {
    if row.Some? && row.value.status == AVAILABLE then row.value.SizeOrZero() else 0
  }

  /** What a row adds to the total of version v. */
  function CountedFor(row: Option<FileRow>, v: Id): int {
    if row.Some? && row.value.version == v then CountedBytes(row) else 0
  }

  /** One changed file row moves its version's total by the trigger's delta and no other version's total at all. */
  lemma DeltaRule(files: map<Id, FileRow>, id: Id, row: Option<FileRow>, v: Id)
    ensures VersionBytes(Put(files, id, row), v) == VersionBytes(files, v) - CountedFor(Get(files, id), v) + CountedFor(row, v)
  {
    var before, after := AvailableSizes(files, v), AvailableSizes(Put(files, id, row), v);
    if id in after {
      assert after == before[id := after[id]];
      SumPut(before, id, after[id]);
    } else {
      assert after == before - {id};
      SumDrop(before, id);
    }
  }

  function ArtifactsOf(rows: VersionRows, ids: set<Id>): set<Id>
    requires ids <= rows.Keys
  {
    set v | v in ids :: rows[v].artifact
  }

  /** The version totals are those of the file rows `shown`. */
  ghost predicate BytesShow(versions: VersionRows, bytes: map<Id, int>, shown: FileRows) {
    bytes.Keys == versions.Keys && forall v :: v in versions ==> bytes[v] == VersionBytes(shown, v)
  }

  /** The artifact statistics are right, except perhaps for the artifacts in `lag`, whose trigger has yet to run. */
  ghost predicate StatsShow(artifacts: map<Id, ArtifactRow>, versions: VersionRows, bytes: map<Id, int>, stats: map<Id, Stats>, lag: set<Id>) {
    && bytes.Keys == versions.Keys
    && stats.Keys == artifacts.Keys
    && forall a :: a in artifacts && a !in lag ==> stats[a] == StatsOf(versions, bytes, a)
  }

  /** What the two columns say: the file rows `shown` are counted, and only the artifacts in `lag` may be stale. */
  ghost predicate Reflects(t: Tables, bytes: map<Id, int>, stats: map<Id, Stats>, shown: FileRows, lag: set<Id>) {
    BytesShow(t.versions, bytes, shown) && StatsShow(t.artifacts, t.versions, bytes, stats, lag)
  }

  // ---- which rows of which artifact a changed version row moves ----

  lemma OtherArtifactsKeepTheirRows(versions: VersionRows, bytes: map<Id, int>, v: Id, x: int)
    requires bytes.Keys == versions.Keys && v in versions
    ensures forall a :: a != versions[v].artifact ==>
              BytesOfVersions(versions, bytes[v := x], a) == BytesOfVersions(versions, bytes, a)
  {
  }

  lemma NewVersionLeavesOthers(versions: VersionRows, bytes: map<Id, int>, v: Id, row: VersionRow)
    requires bytes.Keys == versions.Keys && v !in versions
    ensures forall a :: a != row.artifact ==>
              BytesOfVersions(versions[v := row], bytes[v := 0], a) == BytesOfVersions(versions, bytes, a)
  {
  }

  lemma DroppedVersionsLeaveOthers(versions: VersionRows, bytes: map<Id, int>, ids: set<Id>)
    requires bytes.Keys == versions.Keys && ids <= versions.Keys
    ensures forall a :: a !in ArtifactsOf(versions, ids) ==>
              BytesOfVersions(versions - ids, bytes - ids, a) == BytesOfVersions(versions, bytes, a)
  {
    forall a | a !in ArtifactsOf(versions, ids)
      ensures BytesOfVersions(versions - ids, bytes - ids, a) == BytesOfVersions(versions, bytes, a)
    {
      assert forall v :: v in ids ==> versions[v].artifact in ArtifactsOf(versions, ids);
    }
  }

  /** UPDATE registry_artifact_version SET total_bytes = total_bytes + delta WHERE id = v */
  function Bump(bytes: map<Id, int>, v: Id, delta: int): map<Id, int> {
    if v in bytes then bytes[v := bytes[v] + delta] else bytes
  }

  // ---- what each statement does to the columns before its triggers run ----

  lemma FileDelta(shown: FileRows, id: Id, row: Option<FileRow>, vid: Id, delta: int, v: Id)
    requires id in shown ==> vid == shown[id].version
    requires row.Some? ==> vid == row.value.version
    requires delta == CountedBytes(row) - CountedBytes(Get(shown, id))
    ensures VersionBytes(Put(shown, id, row), v) == VersionBytes(shown, v) + (if v == vid then delta else 0)
  {
    DeltaRule(shown, id, row, v);
    hide VersionBytes, Put;
  }

  lemma TotalsAfterFileChange(versions: VersionRows, bytes: map<Id, int>, shown: FileRows, id: Id, row: Option<FileRow>, vid: Id, delta: int)
    requires BytesShow(versions, bytes, shown)
    requires id in shown ==> vid == shown[id].version
    requires row.Some? ==> vid == row.value.version
    requires delta == CountedBytes(row) - CountedBytes(Get(shown, id))
    ensures delta == 0 || vid !in versions ==> BytesShow(versions, bytes, Put(shown, id, row))
    ensures vid in versions ==> BytesShow(versions, Bump(bytes, vid, delta), Put(shown, id, row))
  {
    hide VersionBytes, Put, Get, CountedBytes;
    forall v | v in versions
      ensures VersionBytes(Put(shown, id, row), v) == VersionBytes(shown, v) + (if v == vid then delta else 0)
    {
      FileDelta(shown, id, row, vid, delta, v);
    }
  }

  lemma StatsAfterTotalChange(t: Tables, bytes: map<Id, int>, stats: map<Id, Stats>, lag: set<Id>, v: Id, delta: int)
    requires StatsShow(t.artifacts, t.versions, bytes, stats, lag) && v in t.versions
    ensures StatsShow(t.artifacts, t.versions, Bump(bytes, v, delta), stats, lag + {t.versions[v].artifact})
  {
    OtherArtifactsKeepTheirRows(t.versions, bytes, v, bytes[v] + delta);
  }

  lemma FileChange(t: Tables, bytes: map<Id, int>, stats: map<Id, Stats>, shown: FileRows, lag: set<Id>, id: Id, row: Option<FileRow>, vid: Id, delta: int)
    requires Reflects(t, bytes, stats, shown, lag)
    requires id in shown ==> vid == shown[id].version
    requires row.Some? ==> vid == row.value.version
    requires row.Some? || id in shown
    requires delta == CountedBytes(row) - CountedBytes(Get(shown, id))
    ensures delta == 0 || vid !in t.versions ==> Reflects(t, bytes, stats, Put(shown, id, row), lag)
    ensures vid in t.versions ==> Reflects(t, Bump(bytes, vid, delta), stats, Put(shown, id, row), lag + {t.versions[vid].artifact})
  {
    hide BytesShow, StatsShow;
    TotalsAfterFileChange(t.versions, bytes, shown, id, row, vid, delta);
    if vid in t.versions {
      StatsAfterTotalChange(t, bytes, stats, lag, vid, delta);
    }
  }

  lemma VersionAdded(t: Tables, bytes: map<Id, int>, stats: map<Id, Stats>, v: Id, row: VersionRow)
    requires Reflects(t, bytes, stats, t.files, {}) && v !in t.versions
    requires forall f :: f in t.files ==> t.files[f].version != v
    ensures Reflects(t.(versions := t.versions[v := row]), bytes[v := 0], stats, t.files, {row.artifact})
  {
    NewVersionLeavesOthers(t.versions, bytes, v, row);
    assert AvailableSizes(t.files, v) == map[];
  }

  lemma VersionsDropped(t: Tables, bytes: map<Id, int>, stats: map<Id, Stats>, ids: set<Id>)
    requires Reflects(t, bytes, stats, t.files, {}) && ids <= t.versions.Keys
    ensures Reflects(t.(versions := t.versions - ids), bytes - ids, stats, t.files, ArtifactsOf(t.versions, ids))
  {
    DroppedVersionsLeaveOthers(t.versions, bytes, ids);
  }

  lemma NoRowsNoStats(versions: VersionRows, bytes: map<Id, int>, a: Id)
    requires bytes.Keys == versions.Keys && forall v :: v in versions ==> versions[v].artifact != a
    ensures StatsOf(versions, bytes, a) == Stats(0, 0, 0)
  {
    assert BytesOfVersions(versions, bytes, a) == map[];
  }

  lemma ArtifactAdded(t: Tables, bytes: map<Id, int>, stats: map<Id, Stats>, a: Id, row: ArtifactRow)
    requires Reflects(t, bytes, stats, t.files, {}) && a !in t.artifacts
    requires forall v :: v in t.versions ==> t.versions[v].artifact != a
    ensures Reflects(t.(artifacts := t.artifacts[a := row]), bytes, stats[a := Stats(0, 0, 0)], t.files, {})
  {
    NoRowsNoStats(t.versions, bytes, a);
    hide StatsOf, BytesShow;
  }

  lemma ArtifactsDropped(t: Tables, bytes: map<Id, int>, stats: map<Id, Stats>, ids: set<Id>)
    requires Reflects(t, bytes, stats, t.files, {})
    ensures Reflects(t.(artifacts := t.artifacts - ids), bytes, stats - ids, t.files, {})
  {
  }

  lemma NothingShown(artifacts: map<Id, ArtifactRow>, versions: VersionRows, bytes: map<Id, int>, stats: map<Id, Stats>)
    requires bytes.Keys == versions.Keys && stats.Keys == artifacts.Keys
    ensures StatsShow(artifacts, versions, bytes, stats, artifacts.Keys)
  {
  }

  /** One artifact of the backfill: its aggregate if it has versions, the column default otherwise. */
  lemma OneMoreShown(artifacts: map<Id, ArtifactRow>, versions: VersionRows, bytes: map<Id, int>, stats: map<Id, Stats>, todo: set<Id>, a: Id)
    requires StatsShow(artifacts, versions, bytes, stats, todo) && a in todo && a in artifacts
    ensures var rows := BytesOfVersions(versions, bytes, a);
            && StatsShow(artifacts, versions, bytes, stats[a := Stats(|rows|, Largest(rows), Sum(rows))], todo - {a})
            && (rows == map[] && stats[a] == Stats(0, 0, 0) ==> StatsShow(artifacts, versions, bytes, stats, todo - {a}))
  {
  }

  /** Recomputing one artifact's row takes it off the stale list. */
  lemma ArtifactSynced(t: Tables, bytes: map<Id, int>, stats: map<Id, Stats>, shown: FileRows, lag: set<Id>, a: Id)
    requires Reflects(t, bytes, stats, shown, lag + {a})
    ensures a in t.artifacts ==> Reflects(t, bytes, stats[a := StatsOf(t.versions, bytes, a)], shown, lag)
    ensures a !in t.artifacts ==> Reflects(t, bytes, stats, shown, lag)
  {
  }

  lemma RowsLeft(rows: FileRows, ids: set<Id>, todo: set<Id>)
    requires todo <= ids * rows.Keys
    ensures forall f :: f in todo ==> Get(rows - (ids - todo), f) == Some(rows[f])
    ensures todo == ids * rows.Keys ==> rows - (ids - todo) == rows
  {
  }

  lemma OneRowLess(rows: FileRows, ids: set<Id>, todo: set<Id>, f: Id)
    requires f in todo && todo <= ids
    ensures Put(rows - (ids - todo), f, None) == rows - (ids - (todo - {f}))
  {
  }

  lemma OneVersionLess(rows: VersionRows, ids: set<Id>, v: Id)
    requires v in ids && ids <= rows.Keys
    ensures ArtifactsOf(rows, ids) == ArtifactsOf(rows, ids - {v}) + {rows[v].artifact}
  {
  }

  /** The columns do not depend on the tables beside artifacts and versions. */
  lemma SmallerTables(t: Tables, u: Tables, bytes: map<Id, int>, stats: map<Id, Stats>, shown: FileRows, lag: set<Id>)
    requires Reflects(t, bytes, stats, shown, lag) && u.artifacts == t.artifacts && u.versions == t.versions
    ensures Reflects(u, bytes, stats, shown, lag)
  {
  }

  lemma SurvivingSizes(t: Tables, ids: set<Id>, v: Id)
    requires v !in ids
    ensures AvailableSizes(t.DropVersions(ids).files, v) == AvailableSizes(t.files, v)
  {
  }

  /** Right totals before and after a version delete differ by the deleted versions' entries and nothing else. */
  lemma TotalsOfSurvivors(t: Tables, ids: set<Id>, bytes: map<Id, int>, after: map<Id, int>)
    requires BytesShow(t.versions, bytes, t.files) && BytesShow(t.DropVersions(ids).versions, after, t.DropVersions(ids).files)
    ensures after == bytes - ids
  {
    hide AvailableSizes;
    forall v | v in t.versions && v !in ids ensures after[v] == bytes[v] {
      SurvivingSizes(t, ids, v);
    }
    hide VersionBytes;
    assert after.Keys == (bytes - ids).Keys;
  }

  // ---- the columns are a function of the rows ----

  ghost function RightBytes(t: Tables): (bytes: map<Id, int>)
    ensures bytes.Keys == t.versions.Keys
  {
    map v | v in t.versions :: VersionBytes(t.files, v)
  }

  lemma BytesAreRight(t: Tables, bytes: map<Id, int>)
    ensures BytesShow(t.versions, bytes, t.files) <==> bytes == RightBytes(t)
  {
    hide VersionBytes;
  }

  // ---- what the aggregates are, one row at a time ----

  /** A version's total: nothing without files, and each further file adds its size if it is AVAILABLE and has one. */
  lemma BytesAddUp(files: FileRows, f: Id, row: FileRow, v: Id)
    requires f !in files
    ensures VersionBytes(map[], v) == 0
    ensures VersionBytes(files[f := row], v) ==
            VersionBytes(files, v) + if row.version == v && row.status == AVAILABLE && row.size.Some? then row.size.value else 0
  {
    assert AvailableSizes(map[], v) == map[];
    DeltaRule(files, f, Some(row), v);
  }

  /** An artifact's row: zeros without versions, and each further version counts one, raises the maximum and adds its total. */
  lemma StatsAddUp(versions: VersionRows, bytes: map<Id, int>, v: Id, row: VersionRow, total: int, a: Id)
    requires bytes.Keys == versions.Keys && v !in versions
    ensures StatsOf(map[], map[], a) == Stats(0, 0, 0)
    ensures var s := StatsOf(versions, bytes, a);
            StatsOf(versions[v := row], bytes[v := total], a) ==
            if row.artifact != a then s
            else Stats(s.count + 1, if s.count == 0 || total > s.largest then total else s.largest, s.total + total)
  {
    NoRowsNoStats(map[], map[], a);
    var rows := BytesOfVersions(versions, bytes, a);
    if row.artifact != a {
      assert BytesOfVersions(versions[v := row], bytes[v := total], a) == rows;
    } else {
      assert BytesOfVersions(versions[v := row], bytes[v := total], a) == rows[v := total];
      SumPut(rows, v, total);
      LargestPut(rows, v, total);
    }
  }
}
