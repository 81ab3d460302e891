/** The filtered version lists and the bulk delete, with other sessions at work between any two of its steps. */
module BulkDelete {
  import opened Wrappers
  import opened Decimal
  import opened Schema
  import opened Statistics
  import opened VersionQuery
  import opened FilterParams
  import opened BulkResponse
  import opened StoragePaths
  import opened StoredObjects
  import opened Storage
  import Database

  // ---- the world a bulk delete shares with other sessions ----

  /** The rows, the next id, the objects with the bytes they were uploaded with, and of this session's storage calls how many
      there were and which deletes among them failed. */
  datatype World = World(t: Tables, next: nat, bucket: Bucket, uploaded: map<Id, Bytes>, calls: nat, failed: set<string>)

  ghost predicate Good(w: World) {
    w.t.Ok(w.next) && Filed(w.t, w.bucket.prefix)
  }

  /** What other sessions may make of w: anything, except that coordinates never change and ids are never reused. */
  ghost predicate Follows(w: World, u: World) {
    Later(w.t, w.next, u.t) && w.next <= u.next && u.bucket.prefix == w.bucket.prefix && u.calls == w.calls && u.failed == w.failed
  }

  /** What other sessions make of the world before the i-th step of this one. */
  type Others = (nat, World) -> World

  ghost predicate Fair(others: Others) {
    forall i, w :: Good(w) ==> Good(others(i, w)) && Follows(w, others(i, w))
  }

  function Nobody(i: nat, w: World): World {
    w
  }

  // ---- what a bulk delete does to it ----

  /** Those of the ids that are there and unprotected: what the delete statement removes. */
  function Unspared(t: Tables, ids: set<Id>, protectedTag: string): set<Id> {
    set v | v in ids && v in t.versions && !t.Protected(v, protectedTag)
  }

  function FailedKey(prefix: string, r: FileRef, fault: Fault): set<string> {
    if fault == Fine then {} else {Key(prefix, FileObjectPath(r))}
  }

  /** The world just before the n-th listed file is looked at. */
  ghost function BeforeFile(w: World, refs: seq<FileRef>, deleted: set<Id>, others: Others, faults: Faults, n: nat): World
    requires 1 <= n <= |refs|
    decreases n, 0
  {
    others(1 + n, Sweep(w, refs, deleted, others, faults, n - 1))
  }

  /** The world after the first n listed files: one delete call for each whose version went. */
  ghost function Sweep(w: World, refs: seq<FileRef>, deleted: set<Id>, others: Others, faults: Faults, n: nat): World
    requires n <= |refs|
    decreases n, 1
  {
    if n == 0 then w
    else
      var now := BeforeFile(w, refs, deleted, others, faults, n);
      var r := refs[n - 1];
      if r.row.version in deleted
      then now.(bucket := AfterDelete(now.bucket, FileObjectPath(r), faults(now.calls)),
                calls := now.calls + 1,
                failed := now.failed + FailedKey(now.bucket.prefix, r, faults(now.calls)))
      else now
  }

  /** What the transaction saw and did. */
  datatype Transaction = Transaction(atFiles: World, refs: seq<FileRef>, atDelete: World, deleted: set<Id>, after: World)

  /** The transaction: list the files of the candidates, then delete those of them that are still unprotected. */
  ghost function Transact(w: World, candidates: set<Id>, protectedTag: string, others: Others): Transaction
    requires Good(w) && Fair(others)
  {
    var atFiles := others(0, w);
    var refs := FilesInOrder(atFiles.t, candidates);
    var atDelete := others(1, atFiles);
    var deleted := Unspared(atDelete.t, candidates, protectedTag);
    Transaction(atFiles, refs, atDelete, deleted, atDelete.(t := atDelete.t.DropVersions(deleted)))
  }

  /** The world when the sweep is over. */
  ghost function Final(x: Transaction, others: Others, faults: Faults): World {
    Sweep(x.after, x.refs, x.deleted, others, faults, |x.refs|)
  }

  /** The world, and the deleted versions unless a statement failed, after the candidates' transaction and sweep. */
  ghost function Outcome(w: World, candidates: set<Id>, protectedTag: string, others: Others, outages: nat -> bool, statement: nat, faults: Faults)
    : (World, Option<set<Id>>)
    requires Good(w) && Fair(others)
  {
    var x := Transact(w, candidates, protectedTag, others);
    if outages(statement) then (x.atFiles, None)
    else if outages(statement + 1) then (x.atDelete, None)
    else (Final(x, others, faults), Some(x.deleted))
  }

  ghost predicate Listable(w: World) {
    Consistent(w.t, RightBytes(w.t))
  }

  lemma GoodIsListable(w: World)
    requires Good(w)
    ensures Listable(w)
  {
  }

  /** The filter of a request, if it is well formed and not empty. */
  function Requested(q: Query, perArtifact: bool): Option<Filter> {
    if Meaning(q, perArtifact).Ok? && q != NO_PARAMS then Some(Meaning(q, perArtifact).value) else None
  }

  /** A reply that names `ids` of the listed rows and counts all the others as skipped. */
  ghost function Answer(rows: seq<Row>, ids: set<Id>, dryRun: bool): BulkReply {
    BulkReply(|ids|, |rows| - |ids|, dryRun, Included(rows, ids))
  }

  lemma AnswerIs(rows: seq<Row>, ids: set<Id>, skipped: int, dryRun: bool)
    requires DistinctRows(rows) && ids <= RowIds(rows) && skipped + |ids| == |rows|
    ensures BulkReply(|Included(rows, ids)|, skipped, dryRun, Included(rows, ids)) == Answer(rows, ids, dryRun)
  {
    EachNamedOnce(rows, ids);
  }

  /** What a bulk delete comes to: a function of the world, of what other sessions do, and of which calls fail. */
  ghost function BulkOutcome(w: World, wanted: Selection, dryRun: bool, others: Others, outages: nat -> bool, statement: nat, faults: Faults)
    : (World, Option<BulkReply>)
    requires Good(w) && Fair(others)
  {
    GoodIsListable(w);
    var rows, candidates := AllRows(w.t, RightBytes(w.t), wanted), Deletable(w.t, RightBytes(w.t), wanted);
    if outages(statement) then (w, None)
    else if dryRun || candidates == {} then (w, Some(Answer(rows, candidates, dryRun)))
    else
      var (after, deleted) := Outcome(w, candidates, wanted.protectedTag, others, outages, statement + 1, faults);
      (after, if deleted.None? then None else Some(Answer(rows, deleted.value, false)))
  }

  lemma OutcomeCases(w: World, wanted: Selection, dryRun: bool, others: Others, outages: nat -> bool, statement: nat, faults: Faults)
    requires Good(w) && Fair(others) && Listable(w)
    ensures var whole := BulkOutcome(w, wanted, dryRun, others, outages, statement, faults);
            var rows, candidates := AllRows(w.t, RightBytes(w.t), wanted), Deletable(w.t, RightBytes(w.t), wanted);
            var rest := Outcome(w, candidates, wanted.protectedTag, others, outages, statement + 1, faults);
            && (outages(statement) ==> whole == (w, None))
            && (!outages(statement) && (dryRun || candidates == {}) ==> whole == (w, Some(Answer(rows, candidates, dryRun))))
            && (!outages(statement) && !dryRun && candidates != {} ==>
                  whole == (rest.0, if rest.1.None? then None else Some(Answer(rows, rest.1.value, false))))
  {
    hide Good, Fair, Listable, AllRows, Deletable, Outcome, RightBytes;
  }

  class FilteredVersions {
    const db: Database.Database
    const store: ObjectStore
    const protectedTag: string

    constructor (db: Database.Database, store: ObjectStore, protectedTag: string)
      ensures this.db == db && this.store == store && this.protectedTag == protectedTag
    {
      this.db, this.store, this.protectedTag := db, store, protectedTag;
    }

    ghost predicate Valid()
      reads this, db, store
    {
      db.Valid() && store.Valid() && Filed(db.tables, store.bucket.prefix)
    }

    function Now(): World
      reads this, db, store
    {
      World(db.tables, db.nextId, store.bucket, store.uploaded, store.calls, store.failedDeletes)
    }

    lemma ValidIsGood()
      requires Valid()
      ensures Good(Now()) && Listable(Now()) && Consistent(db.tables, db.versionBytes) && db.versionBytes == RightBytes(db.tables)
    {
      BytesAreRight(db.tables, db.versionBytes);
    }

    /** Other sessions between two steps. */
    method OtherSessions(others: Others, i: nat)
      requires Valid() && Fair(others)
      modifies db`tables, db`versionBytes, db`artifactStats, db`nextId, store`bucket, store`uploaded
      ensures Valid() && Now() == others(i, old(Now()))
    {
      ValidIsGood();
      var w := others(i, Now());
      db.Become(w.t, w.next);
      store.bucket, store.uploaded := w.bucket, w.uploaded;
    }

    function Wanted(filter: Filter, artifact: Option<Id>, deletableOnly: bool): Selection {
      Selection(filter, artifact, protectedTag, deletableOnly)
    }

    /** query: the list endpoints; None is a malformed parameter, a negative LIMIT or OFFSET, or a failed statement. */
    method Query(q: Query, deletable: string, artifact: Option<Id>, limit: Option<int>, offset: int) returns (rows: Option<seq<Row>>)
      requires Valid()
      modifies db`statements
      ensures rows.Some? <==>
                && Meaning(q, artifact.Some?).Ok? && ParseOptionalBool(deletable).Ok? && offset >= 0 && (limit.Some? ==> limit.value >= 0)
                && !db.outages(old(db.statements))
      ensures rows.Some? ==>
                var wanted := Wanted(Meaning(q, artifact.Some?).value, artifact, ParseOptionalBool(deletable).value == Some(true));
                rows.value == ListVersionsFiltered(db.tables, db.versionBytes, wanted, Natural(limit), offset)
      ensures old(db.statements) <= db.statements
      ensures rows.Some? ==> db.statements == old(db.statements) + 1
    {
      hide ListVersionsFiltered, Meaning;
      var filter, _, ok := ParseVersionFilter(q, artifact.Some?);
      var flag := ParseOptionalBool(deletable);
      if !ok || flag.Err? {
        return None;
      }
      var down := db.Down();
      if down || offset < 0 || (limit.Some? && limit.value < 0) {
        return None;
      }
      rows := Some(ListVersionsFiltered(db.tables, db.versionBytes, Wanted(filter, artifact, flag.value == Some(true)), Natural(limit), offset));
    }

    /** ListAll: the handler narrows page size and offset to 32 bits without a look. */
    method ListAll(q: Query, deletable: string, page: nat, pageSize: nat) returns (items: Option<seq<Row>>, total: nat)
      requires Valid() && 1 <= pageSize
      modifies db`statements
      ensures items.Some? <==>
                && Meaning(q, false).Ok? && ParseOptionalBool(deletable).Ok? && Int32(pageSize) >= 0 && Int32(page * pageSize) >= 0
                && !db.outages(old(db.statements))
                && var wanted := Wanted(Meaning(q, false).value, None, ParseOptionalBool(deletable).value == Some(true));
                   page > 0 && db.outages(old(db.statements) + 1) ==>
                     ListVersionsFiltered(db.tables, db.versionBytes, wanted, Some(Int32(pageSize)), Int32(page * pageSize)) != []
      ensures items.Some? ==>
                var wanted := Wanted(Meaning(q, false).value, None, ParseOptionalBool(deletable).value == Some(true));
                && items.value == ListVersionsFiltered(db.tables, db.versionBytes, wanted, Some(Int32(pageSize)), Int32(page * pageSize))
                && total == (if page == 0 && Int32(pageSize) == 0 then 0 else |Matched(db.tables, db.versionBytes, wanted)|)
    {
      hide ListVersionsFiltered, Matched, Meaning, Reflects, Tables.Ok, Canonical, Int32, PlainNames, ObjectStore.Valid;
      ValidIsGood();
      total := 0;
      var limit, offset := Int32(pageSize), Int32(page * pageSize);
      var rows := Query(q, deletable, None, Some(limit), offset);
      if rows.None? {
        return None, 0;
      }
      ghost var wanted := Wanted(Meaning(q, false).value, None, ParseOptionalBool(deletable).value == Some(true));
      EveryRowCarriesTheTotal(db.tables, db.versionBytes, wanted, Some(limit), offset);
      if |rows.value| > 0 {
        assert rows.value[0] in rows.value;
        total := rows.value[0].total;
        NothingOnNoPage(db.tables, db.versionBytes, wanted, limit, offset);
      } else if page > 0 {
        var first := Query(q, deletable, None, Some(1), 0);
        if first.None? {
          return None, 0;
        }
        if |first.value| > 0 {
          total := first.value[0].total;
        }
      } else {
        FirstOffset(page, pageSize);
        EmptyFirstPage(db.tables, db.versionBytes, wanted, limit);
      }
      items := rows;
    }

    /** The storage half: one best-effort call for each listed file of a version that went, other sessions in between. */
    method SweepDeleted(refs: seq<FileRef>, deleted: set<Id>, candidates: map<Id, Row>, others: Others)
      requires Valid() && Fair(others)
      requires forall r :: r in refs ==> r.row.version in candidates && SameCoordinates(candidates[r.row.version], r)
      modifies db`tables, db`versionBytes, db`artifactStats, db`nextId, store
      ensures db.Valid() && store.Valid() && Filed(db.tables, store.bucket.prefix)
      ensures Now() == Sweep(old(Now()), refs, deleted, others, store.faults, |refs|)
    {
      hide Tables.Ok, Reflects, Filed, Fair, Good, FileStoragePath, Key;
      for i := 0 to |refs|
        invariant Valid()
        invariant Now() == Sweep(old(Now()), refs, deleted, others, store.faults, i)
      {
        OtherSessions(others, 2 + i);
        assert Now() == BeforeFile(old(Now()), refs, deleted, others, store.faults, i + 1);
        var r := refs[i];
        if r.row.version in deleted {
          var c := candidates[r.row.version];
          var path := FileObjectPath(FileRef(r.id, r.row, c.artifact, c.sv));
          assert path == FileObjectPath(r);
          var _ := store.Delete(path);
        }
      }
    }

    /** The transaction and what follows it: list the candidates' files, delete with a second look at protection, sweep. */
    method DeleteCandidates(candidates: map<Id, Row>, others: Others) returns (deleted: Option<set<Id>>)
      requires Valid() && Fair(others)
      requires forall v :: v in candidates ==> CandidateOf(db.tables, candidates[v], v)
      modifies db, store
      ensures Valid() && old(db.statements) <= db.statements
      ensures (Now(), deleted) == Outcome(old(Now()), candidates.Keys, protectedTag, others, db.outages, old(db.statements), store.faults)
    {
      hide Tables.Ok, Reflects, Canonical, PlainNames, FileStoragePath, Later, Tables.IdsBelow, Tables.Protected, Fair, Key,
           ObjectStore.Valid, Sweep;
      ghost var start := Now();
      ValidIsGood();
      OtherSessions(others, 0);
      ghost var x := Transact(start, candidates.Keys, protectedTag, others);
      var down := db.Down();
      if down {
        return None;
      }
      CanonicalIsPlaced(db.tables);
      var refs := FilesInOrder(db.tables, candidates.Keys);
      CandidatesStay(start, others(0, start), candidates, refs, others);
      ValidIsGood();
      OtherSessions(others, 1);
      down := db.Down();
      if down {
        return None;
      }
      ghost var atDelete := db.tables;
      CanonicalIsPlaced(atDelete);
      var gone := db.DeleteUnprotectedVersionsByIDs(candidates.Keys, protectedTag, _ => true);
      DropsSurvive(atDelete, gone);
      SurvivorsKeepPaths(atDelete, db.tables);
      SweepDeleted(refs, gone, candidates, others);
      deleted := Some(gone);
    }

    /** The listing of a bulk delete, and its protected rows set aside. */
    method ListCandidates(wanted: Selection) returns (rows: seq<Row>, candidates: map<Id, Row>, ids: set<Id>, skipped: int)
      requires Valid() && !wanted.deletableOnly
      ensures Consistent(db.tables, db.versionBytes)
      ensures rows == AllRows(db.tables, db.versionBytes, wanted) && DistinctRows(rows)
      ensures ids == candidates.Keys == Deletable(db.tables, db.versionBytes, wanted) && ids <= RowIds(rows) && skipped + |ids| == |rows|
      ensures forall v :: v in candidates ==> CandidateOf(db.tables, candidates[v], v)
    {
      hide Tables.Ok, Reflects, Filed, Tables.Protected, AllRows, Matched, DistinctRows, RowIds, Partitioned, ObjectStore.Valid;
      ValidIsGood();
      rows := ListVersionsFiltered(db.tables, db.versionBytes, wanted, None, 0);
      WholeListing(db.tables, db.versionBytes, wanted);
      ListingRows(db.tables, db.versionBytes, wanted);
      candidates, ids, skipped := PartitionRows(rows);
      CandidatesAreDeletable(db.tables, db.versionBytes, wanted, rows, candidates, ids, skipped);
    }

    /** bulkDelete: list, set aside the protected, delete with a second look, then sweep; a dry run only lists. */
    method BulkDelete(q: Query, artifact: Option<Id>, dryRun: bool, others: Others) returns (reply: Option<BulkReply>)
      requires Valid() && Fair(others)
      modifies db, store
      ensures Valid() && old(db.statements) <= db.statements
      ensures Requested(q, artifact.Some?).None? ==> reply.None? && Now() == old(Now())
      ensures Requested(q, artifact.Some?).Some? ==>
                (Now(), reply) == BulkOutcome(old(Now()), Wanted(Requested(q, artifact.Some?).value, artifact, false), dryRun,
                                              others, db.outages, old(db.statements), store.faults)
    {
      hide Tables.Ok, Reflects, Filed, FileStoragePath, Later, Tables.IdsBelow, Tables.Protected, AllRows, Included, Matched, Meaning,
           DistinctRows, RowIds, Fair, Good, Listable, Key, ObjectStore.Valid, Outcome, BulkOutcome, Deletable, Answer, CandidateOf;
      ValidIsGood();
      ghost var w := Now();
      var filter, anySet, ok := ParseVersionFilter(q, artifact.Some?);
      if !ok || !anySet {
        return None;
      }
      var wanted := Wanted(filter, artifact, false);
      OutcomeCases(w, wanted, dryRun, others, db.outages, db.statements, store.faults);
      var down := db.Down();
      if down {
        return None;
      }
      var rows, candidates, ids, skipped := ListCandidates(wanted);
      if dryRun || |ids| == 0 {
        AnswerIs(rows, ids, skipped, dryRun);
        var r := Response(rows, ids, skipped, dryRun);
        return Some(r);
      }
      var deleted := DeleteCandidates(candidates, others);
      if deleted.None? {
        return None;
      }
      UnsparedOnly(w, candidates.Keys, protectedTag, others, db.outages, old(db.statements) + 1, store.faults);
      skipped := skipped + (|ids| - |deleted.value|);
      AnswerIs(rows, deleted.value, skipped, false);
      var r := Response(rows, deleted.value, skipped, false);
      reply := Some(r);
    }
  }

  function Natural(limit: Option<int>): Option<nat>
    requires limit.Some? ==> limit.value >= 0
  {
    match limit
    case None => None
    case Some(n) => Some(n)
  }

  lemma FirstOffset(page: nat, pageSize: nat)
    requires page == 0
    ensures Int32(page * pageSize) == 0
  {
    assert page * pageSize == 0;
  }

  lemma EmptyFirstPage(t: Tables, bytes: map<Id, int>, p: Selection, size: nat)
    requires Consistent(t, bytes) && ListVersionsFiltered(t, bytes, p, Some(size), 0) == []
    ensures size >= 1 ==> Matched(t, bytes, p) == {}
  {
    hide Matched;
    assert size >= 1 ==> Listed(t, bytes, p) == [];
    assert Elements(Listed(t, bytes, p)) == Matched(t, bytes, p);
  }

  lemma NothingOnNoPage(t: Tables, bytes: map<Id, int>, p: Selection, size: nat, offset: nat)
    requires Consistent(t, bytes)
    ensures size == 0 ==> ListVersionsFiltered(t, bytes, p, Some(size), offset) == []
  {
    hide AllRows;
  }

  /** The page asked for is the one delivered, with the right total, when page size and offset fit 32 bits; a larger page size delivers another. */
  lemma NarrowedPage(page: nat, pageSize: nat)
    ensures pageSize <= MAX_INT32 ==> Int32(pageSize) == pageSize
    ensures page * pageSize <= MAX_INT32 ==> Int32(page * pageSize) == PageStart(page, pageSize)
    ensures pageSize > MAX_INT32 ==> Int32(pageSize) != pageSize
    ensures page * pageSize > MAX_INT32 ==> Int32(page * pageSize) != PageStart(page, pageSize)
  {
  }

  predicate SameCoordinates(c: Row, r: FileRef) {
    c.artifact == r.artifact && c.sv == r.sv
  }

  /** The listed row shows version v with the coordinates it has in t. */
  ghost predicate CandidateOf(t: Tables, c: Row, v: Id) {
    v in t.versions && c.id == v && c.artifact == t.versions[v].artifact && c.sv == t.versions[v].sv
  }

  /** Coordinates never change, so the listing's are those of the files found later. */
  lemma CandidatesStay(w: World, u: World, candidates: map<Id, Row>, refs: seq<FileRef>, others: Others)
    requires Good(w) && Fair(others) && u == others(0, w)
    requires forall v :: v in candidates ==> CandidateOf(w.t, candidates[v], v)
    requires forall r :: r in refs ==> Placed(u.t, r.id) && u.t.files[r.id].version in candidates.Keys && r == RefOf(u.t, r.id)
    ensures forall r :: r in refs ==> r.row.version in candidates && SameCoordinates(candidates[r.row.version], r)
  {
    assert Follows(w, u);
    SameVersions(w.t, w.next, u.t);
    hide Good, Fair, Follows;
  }

  lemma SameVersions(t: Tables, next: nat, u: Tables)
    requires Later(t, next, u)
    ensures forall v :: v in u.versions && v in t.versions ==> u.versions[v] == t.versions[v]
  {
  }

  lemma UnsparedOnly(w: World, candidates: set<Id>, protectedTag: string, others: Others, outages: nat -> bool, statement: nat, faults: Faults)
    requires Good(w) && Fair(others)
    ensures var deleted := Outcome(w, candidates, protectedTag, others, outages, statement, faults).1;
            deleted.Some? ==> deleted.value <= candidates
  {
    hide Good, Fair, Sweep, Tables.Protected;
  }

  lemma WholeListing(t: Tables, bytes: map<Id, int>, p: Selection)
    requires Consistent(t, bytes)
    ensures ListVersionsFiltered(t, bytes, p, None, 0) == AllRows(t, bytes, p)
  {
    hide Matched;
  }

  /** The candidates are the deletable matches. */
  lemma CandidatesAreDeletable(t: Tables, bytes: map<Id, int>, p: Selection, rows: seq<Row>, candidates: map<Id, Row>, ids: set<Id>, skipped: int)
    requires Consistent(t, bytes) && !p.deletableOnly && Partitioned(rows, candidates, ids, skipped)
    requires RowIds(rows) == Matched(t, bytes, p) && forall r :: r in rows ==> Shows(t, p.protectedTag, r)
    ensures ids == candidates.Keys == Deletable(t, bytes, p) && ids <= RowIds(rows) && skipped + |ids| == |rows|
    ensures forall v :: v in candidates ==> CandidateOf(t, candidates[v], v) && !t.Protected(v, p.protectedTag)
  {
    hide Tables.Protected, Selects, RowNumber;
    forall v | v in ids ensures v in RowIds(rows) { assert candidates[v] in rows; }
    forall v | v in Matched(t, bytes, p) && !t.Protected(v, p.protectedTag) ensures v in ids {
      assert v in RowIds(rows);
      var r :| r in rows && r.id == v;
      assert Shows(t, p.protectedTag, r);
    }
    assert Deletable(t, bytes, p) == Matched(t, bytes, p) * Unprotected(t, p.protectedTag);
  }

  // ---- what that means, whatever other sessions do ----

  /** Everyone keeps the world good, and later than before. */
  lemma {:induction false} GoodAlong(w: World, refs: seq<FileRef>, deleted: set<Id>, others: Others, faults: Faults, n: nat)
    requires Good(w) && Fair(others) && n <= |refs|
    ensures var u := Sweep(w, refs, deleted, others, faults, n);
            Good(u) && Later(w.t, w.next, u.t) && w.next <= u.next && u.bucket.prefix == w.bucket.prefix
    ensures n >= 1 ==> var u := BeforeFile(w, refs, deleted, others, faults, n);
                       Good(u) && Later(w.t, w.next, u.t) && w.next <= u.next && u.bucket.prefix == w.bucket.prefix
    decreases n
  {
    hide Later, Tables.Ok, Filed, Key, FileObjectPath;
    if n == 0 {
      LaterItself(w.t, w.next);
    } else {
      GoodAlong(w, refs, deleted, others, faults, n - 1);
      var before := Sweep(w, refs, deleted, others, faults, n - 1);
      var now := BeforeFile(w, refs, deleted, others, faults, n);
      assert Follows(before, now);
      OkParts(w.t, w.next);
      LaterStill(w.t, w.next, before.t, before.next, now.t);
      hide Fair;
    }
  }

  lemma LaterStill(t: Tables, next: nat, u: Tables, more: nat, w: Tables)
    requires t.IdsBelow(next) && Later(t, next, u) && Later(u, more, w) && next <= more
    ensures Later(t, next, w)
  {
  }

  lemma LaterItself(t: Tables, next: nat)
    ensures Later(t, next, t)
  {
  }

  /** The listed files of deleted versions are gone for good, and are looked for under their canonical paths. */
  ghost predicate Dead(x: Transaction) {
    forall r :: r in x.refs ==>
      && Plain(x.after.bucket.prefix, r.row.name) && FileObjectPath(r) == CanonicalPath(r)
      && (r.row.version in x.deleted ==> r.id < x.after.next && r.id !in x.after.t.files)
  }

  /** Only candidates go, none that is tagged or in a protected artifact when the delete runs; the protected keep their files. */
  lemma ProtectedSurvive(w: World, candidates: set<Id>, protectedTag: string, others: Others)
    requires Good(w) && Fair(others)
    ensures var x := Transact(w, candidates, protectedTag, others);
            && x.deleted <= candidates
            && (forall v :: v in x.deleted ==> v in x.atDelete.t.versions && !x.atDelete.t.Protected(v, protectedTag))
            && (forall v :: v in x.atDelete.t.versions && x.atDelete.t.Protected(v, protectedTag) ==> v in x.after.t.versions)
            && (forall f :: f in x.atDelete.t.files && x.atDelete.t.files[f].version !in x.deleted ==> f in x.after.t.files)
  {
    hide Good, Fair, Tables.Protected;
  }

  /** In rows: a version a tag points at stays, so do all versions of an artifact that carries the protection tag, and every candidate that is
      still there and free of both goes, with its files and nothing else. */
  lemma TagsDecideWhatGoes(w: World, candidates: set<Id>, protectedTag: string, others: Others)
    requires Good(w) && Fair(others)
    ensures var x := Transact(w, candidates, protectedTag, others);
            var t, u := x.atDelete.t, x.after.t;
            && (forall k :: k in t.tags ==> t.tags[k] !in x.deleted)
            && (forall k, v :: k in t.tags && k.1 == protectedTag && v in x.deleted ==> v in t.versions && t.versions[v].artifact != k.0)
            && (forall v :: v in candidates && v in t.versions && (forall k :: k in t.tags ==> t.tags[k] != v) ==>
                  (t.versions[v].artifact, protectedTag) in t.tags || v in x.deleted)
            && x.deleted <= candidates && u.tags == t.tags && u.artifacts == t.artifacts
            && (forall v :: v in u.versions <==> v in t.versions && v !in x.deleted) && (forall v :: v in u.versions ==> u.versions[v] == t.versions[v])
            && (forall f :: f in u.files <==> f in t.files && t.files[f].version !in x.deleted) && (forall f :: f in u.files ==> u.files[f] == t.files[f])
  {
    hide Good, Fair;
    var x := Transact(w, candidates, protectedTag, others);
    DeletedVersions(x.atDelete.t, x.deleted);
    assert x.after.t.tags == x.atDelete.t.tags;
  }

  lemma TransactionIsGood(w: World, candidates: set<Id>, protectedTag: string, others: Others)
    requires Good(w) && Fair(others)
    ensures var x := Transact(w, candidates, protectedTag, others); Good(x.atFiles) && Good(x.atDelete) && Good(x.after) && Dead(x)
    ensures var x := Transact(w, candidates, protectedTag, others); x.after.bucket.prefix == w.bucket.prefix
  {
    hide Tables.Ok, Later, Canonical, PlainNames, Tables.Protected, FileObjectPath, CanonicalPath, Plain, Survives;
    var x := Transact(w, candidates, protectedTag, others);
    assert Follows(w, x.atFiles) && Follows(x.atFiles, x.atDelete);
    CanonicalIsPlaced(x.atDelete.t);
    DropsSurvive(x.atDelete.t, x.deleted);
    SurvivorsKeepPaths(x.atDelete.t, x.after.t);
    DropVersionsKeepsOk(x.atDelete.t, x.deleted, x.atDelete.next);
    OkParts(x.atFiles.t, x.atFiles.next);
    hide Fair;
    forall r | r in x.refs
      ensures Plain(x.after.bucket.prefix, r.row.name) && FileObjectPath(r) == CanonicalPath(r)
      ensures r.row.version in x.deleted ==> r.id < x.after.next && r.id !in x.after.t.files
    {
      ObjectPathIsCanonical(x.atFiles.t, r.id);
      ListedIsDead(x.atFiles.t, x.atFiles.next, x.atDelete.t, x.deleted, r, x.after.bucket.prefix);
    }
  }

  lemma ListedIsDead(t: Tables, next: nat, u: Tables, deleted: set<Id>, r: FileRef, prefix: string)
    requires t.IdsBelow(next) && Later(t, next, u) && Placed(t, r.id) && r == RefOf(t, r.id) && PlainNames(t, prefix)
    ensures Plain(prefix, r.row.name) && r.id < next
    ensures r.row.version in deleted ==> r.id !in u.DropVersions(deleted).files
  {
    hide Plain;
  }

  /** No storage call of a bulk delete takes an object from a row that is there when the call is made, whoever owns it. */
  lemma OwnCallsHarmNobody(x: Transaction, others: Others, faults: Faults, n: nat)
    requires Good(x.after) && Dead(x) && Fair(others) && 1 <= n <= |x.refs| && x.refs[n - 1].row.version in x.deleted
    ensures var now := BeforeFile(x.after, x.refs, x.deleted, others, faults, n);
            var done := Sweep(x.after, x.refs, x.deleted, others, faults, n);
            && done.t == now.t && done.uploaded == now.uploaded
            && Canonical(now.t)
            && done.bucket.DiffersAt(now.bucket, KeyFor(now.bucket.prefix, x.refs[n - 1]))
            && KeyFor(now.bucket.prefix, x.refs[n - 1]) !in Live(now.t, now.bucket.prefix)
            && Broken(done.t, done.bucket, done.uploaded) <= Broken(now.t, now.bucket, now.uploaded)
  {
    hide Later, Tables.Ok, Canonical, PlainNames, FileObjectPath, CanonicalPath, Plain, Key, Broken, Live;
    GoodAlong(x.after, x.refs, x.deleted, others, faults, n);
    hide Fair;
    var now, r := BeforeFile(x.after, x.refs, x.deleted, others, faults, n), x.refs[n - 1];
    assert r in x.refs;
    DeadKeyStaysDead(r, x.after.t, x.after.next, now.t, now.bucket, now.uploaded);
    RemoveDiffersAt(now.bucket, CanonicalPath(r));
  }

  lemma RemoveDiffersAt(b: Bucket, path: string)
    ensures b.Remove(path).DiffersAt(b, Key(b.prefix, path)) && b.DiffersAt(b, Key(b.prefix, path))
  {
    hide Key;
  }

  /** keepLast: the newest min(k, n) versions of every artifact survive, whatever else the filter says and other sessions do. */
  lemma NewestSurvive(w: World, wanted: Selection, others: Others, a: Id, k: nat)
    requires Good(w) && Fair(others) && Listable(w) && wanted.filter.keepLast == Some(k)
    ensures var x := Transact(w, Deletable(w.t, RightBytes(w.t), wanted), wanted.protectedTag, others);
            Newest(w.t.versions, a, k) !! x.deleted
    ensures |Newest(w.t.versions, a, k)| == var n := |Partition(w.t.versions, None, a)|; if k <= n then k else n
  {
    KeepLastSparesTheNewest(w.t, RightBytes(w.t), wanted.(deletableOnly := true), a, k);
    OkParts(w.t, w.next);
    NewestAreTheGreatest(w.t.versions, a, k);
    ProtectedSurvive(w, Deletable(w.t, RightBytes(w.t), wanted), wanted.protectedTag, others);
    hide Good, Fair, Newest, Matched, Transact;
  }

  /** A version that is among the newest k when the delete runs survives too, unless one above it vanished since the listing. */
  lemma NewestAtDeleteSurvive(w: World, wanted: Selection, others: Others, v: Id, k: nat)
    requires Good(w) && Fair(others) && Listable(w) && wanted.filter.keepLast == Some(k)
    requires var x := Transact(w, Deletable(w.t, RightBytes(w.t), wanted), wanted.protectedTag, others);
             && v in x.atDelete.t.versions && v in Newest(x.atDelete.t.versions, x.atDelete.t.versions[v].artifact, k)
             && (v in w.t.versions ==> Greater(w.t.versions, v) <= x.atDelete.t.versions.Keys)
    ensures v !in Transact(w, Deletable(w.t, RightBytes(w.t), wanted), wanted.protectedTag, others).deleted
  {
    var candidates := Deletable(w.t, RightBytes(w.t), wanted);
    var x := Transact(w, candidates, wanted.protectedTag, others);
    ProtectedSurvive(w, candidates, wanted.protectedTag, others);
    assert Follows(w, x.atFiles) && Follows(x.atFiles, x.atDelete);
    OkParts(w.t, w.next);
    LaterStill(w.t, w.next, x.atFiles.t, x.atFiles.next, x.atDelete.t);
    SameVersions(w.t, w.next, x.atDelete.t);
    if v in x.deleted {
      assert v in candidates;
      var a := w.t.versions[v].artifact;
      KeepLastSparesTheNewest(w.t, RightBytes(w.t), wanted.(deletableOnly := true), a, k);
      hide Good, Fair, Matched, Transact, Follows, Later, Tables.Protected;
      assert v !in Newest(w.t.versions, a, k);
      NoLarger(Greater(w.t.versions, v), Greater(x.atDelete.t.versions, v));
    }
  }

  // ---- and with nobody else at work ----

  lemma NobodyIsFair()
    ensures Fair(Nobody)
  {
    hide Good;
    forall w: World ensures Follows(w, Nobody(0, w)) { LaterItself(w.t, w.next); }
  }

  /** One delete call for each file, nobody else at work. */
  ghost function AfterAll(w: World, refs: seq<FileRef>, faults: Faults): World {
    w.(bucket := AfterSweep(w.bucket, refs, faults, w.calls),
       calls := w.calls + |refs|,
       failed := w.failed + FailedKeys(w.bucket.prefix, refs, faults, w.calls))
  }

  lemma {:induction false} SweepAlone(w: World, refs: seq<FileRef>, deleted: set<Id>, faults: Faults, n: nat)
    requires n <= |refs| && forall r :: r in refs ==> r.row.version in deleted
    ensures Sweep(w, refs, deleted, Nobody, faults, n) == AfterAll(w, refs[..n], faults)
    decreases n
  {
    hide Key, FileObjectPath, AfterDelete, FailedKeys;
    if n == 0 {
      NoFaultNoFailure(w.bucket.prefix, refs[..0], faults, w.calls);
      assert w.failed + {} == w.failed;
    } else {
      SweepAlone(w, refs, deleted, faults, n - 1);
      assert refs[..n][..n - 1] == refs[..n - 1] && refs[..n] == refs[..n - 1] + [refs[n - 1]];
      OneMoreFailure(w.bucket.prefix, refs[..n - 1], refs[n - 1], faults, w.calls);
    }
  }

  lemma DeletableIsUnspared(t: Tables, bytes: map<Id, int>, wanted: Selection)
    requires Consistent(t, bytes)
    ensures Unspared(t, Deletable(t, bytes, wanted), wanted.protectedTag) == Deletable(t, bytes, wanted)
  {
    hide Selects, RowNumber, Tables.Protected;
  }

  lemma AloneTransaction(w: World, candidates: set<Id>, protectedTag: string, faults: Faults)
    requires Good(w) && Fair(Nobody) && Unspared(w.t, candidates, protectedTag) == candidates
    ensures var x := Transact(w, candidates, protectedTag, Nobody);
            && x.deleted == candidates && x.atDelete == w
            && Final(x, Nobody, faults) ==
               AfterAll(w, FilesInOrder(w.t, candidates), faults).(t := w.t.DropVersions(candidates))
  {
    hide Fair, Unspared, Tables.Protected, Tables.DropVersions, AfterSweep, Sweep;
    var x := Transact(w, candidates, protectedTag, Nobody);
    SweepAlone(x.after, x.refs, x.deleted, faults, |x.refs|);
    assert x.refs[..|x.refs|] == x.refs;
  }

  /** Alone, a bulk delete removes exactly the deletable versions, and then asks for exactly their files' objects. */
  lemma AloneOutcome(w: World, wanted: Selection, faults: Faults)
    requires Good(w) && Listable(w) && Fair(Nobody)
    ensures var candidates := Deletable(w.t, RightBytes(w.t), wanted);
            var x := Transact(w, candidates, wanted.protectedTag, Nobody);
            && x.deleted == candidates && x.atDelete == w
            && Final(x, Nobody, faults) ==
               AfterAll(w, FilesInOrder(w.t, candidates), faults).(t := w.t.DropVersions(candidates))
  {
    hide Good, Fair, Deletable, Unspared, Final, Transact, Tables.DropVersions, AfterSweep;
    DeletableIsUnspared(w.t, RightBytes(w.t), wanted);
    AloneTransaction(w, Deletable(w.t, RightBytes(w.t), wanted), wanted.protectedTag, faults);
  }

  lemma UnprotectedMatches(t: Tables, bytes: map<Id, int>, p: Selection)
    requires Consistent(t, bytes) && !p.deletableOnly
    ensures Deletable(t, bytes, p) == Matched(t, bytes, p) * Unprotected(t, p.protectedTag)
  {
    hide Tables.Protected, Selects, RowNumber;
  }

  /** The listing's protected flag is the negation of what the delete's second look asks. */
  lemma FlagIsTheRecheck(t: Tables, bytes: map<Id, int>, p: Selection)
    requires Consistent(t, bytes) && !p.deletableOnly
    ensures forall r :: r in AllRows(t, bytes, p) ==> (r.protected <==> r.id !in Unspared(t, {r.id}, p.protectedTag))
    ensures forall r :: r in AllRows(t, bytes, p) ==> (r.id in Deletable(t, bytes, p) <==> r.id in Unprotected(t, p.protectedTag))
  {
    ListingRows(t, bytes, p);
    UnprotectedMatches(t, bytes, p);
    hide AllRows, Matched, Tables.Protected, DistinctRows, Deletable;
    forall r | r in AllRows(t, bytes, p) ensures r.id in Matched(t, bytes, p) {
      assert r.id in RowIds(AllRows(t, bytes, p));
    }
  }

  lemma AloneReply(w: World, wanted: Selection, dryRun: bool, outages: nat -> bool, statement: nat, faults: Faults)
    requires Good(w) && Listable(w) && Fair(Nobody)
    ensures var reply := BulkOutcome(w, wanted, dryRun, Nobody, outages, statement, faults).1;
            reply.Some? ==>
              reply.value.versions == Included(AllRows(w.t, RightBytes(w.t), wanted), Deletable(w.t, RightBytes(w.t), wanted))
  {
    hide Good, Fair, Listable, AllRows, Deletable, Transact, Final, BulkOutcome, Included, RightBytes;
    OutcomeCases(w, wanted, dryRun, Nobody, outages, statement, faults);
    AloneOutcome(w, wanted, faults);
  }

  /** Show equals delete: a dry run, and a real one alone, name exactly what deletable=true lists, in its order. */
  lemma ReplyNamesWhatIsShown(w: World, wanted: Selection, dryRun: bool, outages: nat -> bool, statement: nat, faults: Faults)
    requires Good(w) && Listable(w) && Fair(Nobody) && !wanted.deletableOnly
    ensures var reply := BulkOutcome(w, wanted, dryRun, Nobody, outages, statement, faults).1;
            reply.Some? ==> reply.value.versions == RefsOfIds(w.t, Listed(w.t, RightBytes(w.t), wanted.(deletableOnly := true)))
  {
    AloneReply(w, wanted, dryRun, outages, statement, faults);
    hide Good, Fair, AllRows, Deletable, BulkOutcome, Included, Listed, RefsOfIds, Unprotected, RightBytes, Consistent;
    var bytes := RightBytes(w.t);
    FlagIsTheRecheck(w.t, bytes, wanted);
    DeleteNamesWhatShowShows(w.t, bytes, wanted);
    assert wanted.(deletableOnly := false) == wanted;
    IncludedAgree(AllRows(w.t, bytes, wanted), Deletable(w.t, bytes, wanted), Unprotected(w.t, wanted.protectedTag));
  }

  /** Repeating a bulk delete on the state the first one left removes nothing more. */
  lemma RepeatedBulkDeleteRemovesNothing(w: World, wanted: Selection)
    requires Good(w) && Listable(w)
    ensures var once := w.t.DropVersions(Deletable(w.t, RightBytes(w.t), wanted));
            Consistent(once, RightBytes(once)) && Deletable(once, RightBytes(once), wanted) == {}
  {
    var bytes := RightBytes(w.t);
    var gone := Deletable(w.t, bytes, wanted);
    var once := w.t.DropVersions(gone);
    DropVersionsKeepsOk(w.t, gone, w.next);
    OkParts(once, w.next);
    BytesAreRight(w.t, bytes);
    BytesAreRight(once, RightBytes(once));
    TotalsOfSurvivors(w.t, gone, bytes, RightBytes(once));
    BulkDeleteIsIdempotent(w.t, bytes, wanted);
  }

  /** keepLast=4294967296 is accepted, and every unprotected version of the scope is deletable: nothing is kept. */
  lemma LargeKeepLastDeletesEverything(t: Tables, bytes: map<Id, int>, artifact: Option<Id>, protectedTag: string)
    requires Consistent(t, bytes)
    ensures var q := NO_PARAMS.(keepLast := Itoa(0x1_0000_0000));
            && Requested(q, artifact.Some?) == Some(NO_FILTER.(keepLast := Some(0)))
            && Deletable(t, bytes, Selection(Requested(q, artifact.Some?).value, artifact, protectedTag, false))
               == Scope(t.versions, artifact) * Unprotected(t, protectedTag)
  {
    hide Itoa, Matched, Unprotected, Deletable, Scope;
    LargeKeepLastKeepsNothing();
    var q := NO_PARAMS.(keepLast := Itoa(0x1_0000_0000));
    assert Meaning(q, artifact.Some?) == Ok(NO_FILTER.(keepLast := Some(0)));
    hide Meaning;
    ZeroKeepLast(t, bytes, artifact, protectedTag);
  }

  lemma ZeroKeepLast(t: Tables, bytes: map<Id, int>, artifact: Option<Id>, protectedTag: string)
    requires Consistent(t, bytes)
    ensures Deletable(t, bytes, Selection(NO_FILTER.(keepLast := Some(0)), artifact, protectedTag, false))
            == Scope(t.versions, artifact) * Unprotected(t, protectedTag)
  {
    hide Tables.Protected, Tables.HasFiles, Tables.HasIncompleteFiles;
    assert forall v :: v in Scope(t.versions, artifact) ==> RowNumber(t.versions, artifact, v) > 0;
  }

  /** A number that fits 32 bits keeps what it says: the newest n of every artifact are not deletable. */
  lemma SmallKeepLastKeeps(t: Tables, bytes: map<Id, int>, artifact: Option<Id>, protectedTag: string, n: nat, a: Id)
    requires Consistent(t, bytes) && 1 <= n <= MAX_INT32
    ensures var q := NO_PARAMS.(keepLast := Itoa(n));
            && Requested(q, artifact.Some?) == Some(NO_FILTER.(keepLast := Some(n)))
            && Newest(t.versions, a, n) !! Deletable(t, bytes, Selection(Requested(q, artifact.Some?).value, artifact, protectedTag, false))
  {
    NarrowingKeepsSmallNumbers(n, 1);
    var q := NO_PARAMS.(keepLast := Itoa(n));
    assert Meaning(q, artifact.Some?) == Ok(NO_FILTER.(keepLast := Some(n)));
    hide Meaning, Itoa;
    KeepLastSparesTheNewest(t, bytes, Selection(NO_FILTER.(keepLast := Some(n)), artifact, protectedTag, true), a, n);
  }
}
