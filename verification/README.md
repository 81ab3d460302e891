# A verified model of the fusion-index artifact registry

The registry keeps artifacts, versions, files and tags in Postgres and the file contents in an object store
(a directory or an S3 bucket). This project models the parts of it whose promises are hard to see from any one function,
and proves them with Dafny 4.11. `dafny verify dfyconfig.toml` checks everything.

## How it is organised

| files | what they model |
|---|---|
| `Wrappers`, `Decimal`, `SemVer`, `StoragePaths` | optional values, decimal numbers, the version codec, storage paths and S3 keys |
| `Schema`, `Aggregates`, `Statistics`, `Database` | the tables with their keys and cascades, the size statistics, and a class that runs every statement with its triggers |
| `ConcurrentStats`, `StatsSteps`, `StatsLocks`, `StatsCommit`, `StatsRace`, `StatsProgress` | the same triggers under concurrent READ COMMITTED transactions, as a transition system with row locks, private writes and per-statement snapshots, and the sequential statements as runs of it |
| `RowOrder`, `VersionQuery`, `FilterParams`, `BulkResponse`, `BulkDelete`, `RequestMeaning`, `Retention` | the filtered version query, its parameters, bulk delete under interference, what each parameter deletes, retention policies |
| `StoredObjects`, `Storage`, `RegistryFacts`, `Registry`, `Cleanup` | rows against objects, the handlers one after the other, the admin cleanups |
| `UploadRace`, `OrphanObjects` | uploads against every kind of delete, one SQL statement or storage call a step, with crashes and failures anywhere: which rows lose their object, and which objects are left behind |
| `SequentialRuns` | the handlers of `Registry` as runs of that step system |
| `PrefixMigration` | the resumable S3 prefix copy and its marker |
| `DumpPreamble` | the filter that drops one setting from a pg_dump preamble |

## Main results

- **Concurrent statistics.** `StatsCommit.CommittedStatisticsAreExact`: in every state of every run, each committed
  statistic is the plain aggregate over the committed rows. `StatsRace.WithoutTheLockStatisticsGoStale`: the same system
  without the lock before the recompute has a run that ends with a wrong count. `StatsRace.ReflectsMeansExact` ties the
  invariant of the sequential class to the concurrent one. `StatsProgress.AloneCanCommit` shows that locks and pending triggers
  never keep a transaction that is alone from its commit, and `StatsProgress.StatementIsARun` that every statement of the
  sequential class is such a run, ending in the same rows and statistics.
- **Sequential statistics.** `Database.Database.Valid` says that both kinds of stored totals equal the aggregates; the backfill
  establishes it from any rows, and every statement keeps it, with the cascade and the version trigger in either order.
- **Rows against objects, concurrently.** `UploadRace.RowsFirstNeverBreaks`: over all interleavings, crashes and storage
  failures an AVAILABLE row has its uploaded bytes, as long as only rows-first deletes run and no upload under a key prefix
  is named `..`. `UploadRace.PlainNamesAreSafe` shows that this condition on names is exact. `UploadRace.OnlyErasedRowsBreak`:
  with the objects-first deletes added, the only exceptions are rows such a delete has listed, and
  `UploadRace.CrashAfterEraseBreaks` makes such an exception of any AVAILABLE row in any state.
- **Objects left behind, concurrently.** `OrphanObjects.OnlyLoosenedKeysLeak` bounds what any run leaves behind, and
  `OrphanObjects.NothingLeftBehindIff` gives the exact condition for nothing: no step that ends a request, fails a call or
  deletes a row may be the last to answer for an object that is there.
- **Rows against objects, one request after the other.** Every handler is proved equal to a function of the state it starts
  from and of which calls and statements fail; `Registry.Registry.Serve` and `Registry.Registry.AnyRequests` say so of one
  request and of any sequence. `Registry.Registry.Valid`, which all of them keep, bounds what leaks by the delete calls
  that failed and by failed listings, and what is missing by the rows of objects-first deletes whose own statement failed.
  `Registry.Registry.WithoutFailuresNothingLeaks`: if nothing failed, each object is that of exactly one row and each
  AVAILABLE row has its own. `Registry.Registry.SameBytesThroughout`: a file that is AVAILABLE and not missing before and
  after any requests still has the very same bytes. `SequentialRuns.TraceIsARun`: any requests answered one after the other,
  with whatever fails in them, are a run of the step system of `UploadRace`.
- **Selection and bulk delete.** Row numbers count the greater versions, pages concatenate, scoping commutes, show equals
  delete and repeating removes nothing. `BulkDelete.FilteredVersions.BulkDelete` is proved equal to a function of the world
  it starts from, of whatever other sessions do before each of its steps, and of which calls fail; about that function,
  `BulkDelete.ProtectedSurvive`, `BulkDelete.OwnCallsHarmNobody` and `BulkDelete.NewestAtDeleteSurvive` say what no
  interference can make it do, `BulkDelete.TagsDecideWhatGoes` in terms of the tag rows alone. `RequestMeaning` says for each
  request parameter which versions its text makes deletable, and that several parameters intersect. That other sessions may
  do anything includes any requests to the handlers themselves (`SequentialRuns.RequestsAreFair`).
- **Retention.** `Retention.RetentionEndToEnd`: the merged, rendered, parsed and evaluated rule deletes exactly the
  unprotected versions that every policy lets go, by date in seconds and by the number of greater versions.
- **Prefix migration.** Attempts followed by a success equal one run and no object changes. Over histories of jobs that may
  fail at any call, server switches, uploads and deletes in any order, `PrefixMigration.FilesAreFoundIff` gives the exact
  condition under which the recorded and the served prefix always have every file. `PrefixMigration.AnyHistory` asks for a
  little more that can be seen step by step, no upload elsewhere while a job copies, and `PrefixMigration.HistoryIsRightIff`
  shows that to be exact for keeping the running job right as well. It rests on `StoragePaths.KeysCollideOnlyWhenEqual`, for all prefixes.
- **Dump filter.** The output is the input minus exactly the preamble lines that trim to the setting; filtering twice is
  filtering once.

## Where the code does not keep what it promises

- `keepLast` is range-checked before it is narrowed to 32 bits. `FilterParams.NarrowingKeepsSmallNumbers` says exactly
  when the number survives. `BulkDelete.LargeKeepLastDeletesEverything`: with the accepted value 4294967296 every
  unprotected version is deletable; `BulkDelete.SmallKeepLastKeeps`: with one that fits, the newest are not.
- The registry-wide version list narrows page size and offset to 32 bits without a check; `BulkDelete.NarrowedPage` says
  when the page asked for is the one delivered.
- A stored `max_age_days` may reach before year 0. `Retention.RenderedRuleReadsBack` says exactly when the rendered
  filter is accepted; `Retention.VeryOldCutoffIsRefused` is one that is not.
- The first run of the prefix migration records the configured prefix without looking.
  `PrefixMigration.FirstRecordIsRightIff` and `PrefixMigration.FirstMarkerIsRightWhenServed` say exactly when that record is
  right; `PrefixMigration.WrongFirstRecord` is a deployment after which the new server does not find the files.
- A marker update can be applied and still be reported as failed. `PrefixMigration.UploadAfterFailedRecord`: the old server
  takes another upload, the retry sees nothing to do, and the new server does not find the file. An upload while the job is
  copying is missed in the same way if the job gets to its record (`PrefixMigration.LateUploadIsMissed`).
- File names that leave no segment of their own, such as `.`, can meet another file's key when one prefix lies inside the
  other (`StoragePaths.DotNamesMeetUnderNestedPrefixes`), so a migration between such prefixes is only right without them.
- The comment on bulk delete that the database never points at a deleted object holds for it, and not for the deletes of
  a single file or a single version, which remove the object first.
- Including the file id keeps the paths of any two files apart whatever their names (`StoredObjects.PathDeterminesFile`),
  but not their objects: under a key prefix the S3 key of a file named `..` loses its file id
  (`StoragePaths.DotDotNameLeavesItsDirectory`), and all such files of a version share one key.
  `StoragePaths.PlainNamesSeparate`: of the names an upload can bring, exactly the others are safe.
  `UploadRace.DotDotBreaks` is a run in which the cleanup of one such file takes the object of another.
- A delete of a single version whose files cannot be listed deletes the rows all the same.
  `Registry.Registry.VersionDeleteLeaksIff`: while storage calls succeed it leaks exactly then, and then every object the
  files have; `Registry.Registry.UnlistedFileLeaks` is the case of one file.
- An upload that ends between a delete's listing and its statement leaves its object behind although nothing fails
  (`OrphanObjects.LateUploadIsLeftBehind`).
- The version parser takes signs and leading zeros (`SemVer.ParseIsLenient`), which section 2 of Semantic Versioning
  2.0.0 does not; `Retention` and the query compare versions numerically, as its section 11 asks.

## Model

| member | source | states |
|---|---|---|
| `SemVer.RoundTrip` | internal/semver/semver.go:15-45 | parsing a printed version gives it back, for every triple of non-negative int32 numbers |
| `SemVer.NormalisationIsIdempotent` | internal/semver/semver.go:35-37 | printing what was parsed is a normal form: doing it again changes nothing |
| `SemVer.StringInjective` | internal/semver/semver.go:35-37 | two versions with the same text are the same version |
| `SemVer.ParseSplits` | internal/semver/semver.go:15-33 | what the parser makes of a.b.c is decided by the three parts alone |
| `SemVer.ParsedShape` | internal/semver/semver.go:16-19 | every accepted text has the shape a.b.c |
| `SemVer.ParseIsLenient` | internal/semver/semver.go:39-45 | signs and leading zeros are accepted, a fourth part never is, whatever it says |
| `SemVer.AcceptedNumbers` | internal/semver/semver.go:39-45 | a part is accepted exactly when it is an optional sign, leading zeros and a decimal number of at most 2147483647, below zero only as a minus before zeros |
| `SemVer.ParsedVersions` | internal/semver/semver.go:15-33 | a text is accepted, and as which version, exactly when it is three such parts with dots between them |
| `SemVer.VersionsStartWithANumber` | internal/semver/semver.go:39-45 | no accepted text starts with a letter such as the v of v1.0.0 |
| `SemVer.BelowIsStrictTotalOrder` | internal/db/queries/registry_versions.sql:61-64 | the row comparison is a strict total order on versions |
| `SemVer.BelowIsNumeric` | internal/db/queries/registry_versions.sql:61-64 | the row comparison is that of the numbers (major * 2^31 + minor) * 2^31 + patch |
| `SemVer.NormaliseAllAt` | internal/api/handlers/version_bulk.go:58-65 | the whole list is refused when one text is, and otherwise each text is normalised |
| `SemVer.TextComparisonSelectsTriples` | internal/db/queries/registry_versions.sql:65-66 | comparing texts with the normalised list selects exactly the parsed triples |
| `Decimal.ParseIntOfItoa` | internal/api/handlers/helpers.go:129-131 | every number that fits is read back from its decimal text |
| `Decimal.ParsedNumbers` | internal/semver/semver.go:39-41 | the number parser accepts exactly the texts that spell a number in range, and as that number |
| `Decimal.ItoaExamples` | internal/semver/semver.go:35-37 | decimal texts written out |
| `StoragePaths.FileStoragePathInjective` | internal/api/handlers/helpers.go:127-131 | a storage path determines artifact, version, file id and name, for any names |
| `StoragePaths.FileStoragePathHasSixSegments` | internal/api/handlers/helpers.go:127-131 | the path of a file with an ordinary name has exactly six segments |
| `StoragePaths.KeySegments` | internal/storage/s3.go:59-61 | under every prefix the six segments follow the directory the prefix names |
| `StoragePaths.KeysCollideOnlyWhenEqual` | internal/storage/migrate.go:56-61 | two keys are equal if and only if directory and path are, nested prefixes included |
| `StoragePaths.OrdinaryPrefixes` | internal/storage/migrate.go:56-61 | under a prefix of ordinary segments a key is prefix, slash and path, with or without slashes around the prefix; without a prefix it is the path |
| `StoragePaths.WrittenOut` | internal/api/handlers/helpers.go:127-131 | one path written out, every part in its place |
| `StoragePaths.DotDotNameLeavesItsDirectory` | internal/storage/migrate.go:56-61 | under any prefix, the key of a file named `..` loses its file id |
| `StoragePaths.KeyDeterminesFile` | internal/storage/s3.go:59-61 | two files with plain names never share a key, whatever the prefix, versions and names |
| `StoragePaths.PlainNamesSeparate` | internal/api/handlers/files.go:98-101 | the file id keeps the keys of same-named files apart if and only if there is no prefix or the name is not `..` |
| `StoragePaths.DotNamesMeetUnderNestedPrefixes` | internal/storage/migrate.go:56-61 | with one prefix inside another, the key of a file named `.` can be that of another version's file |
| `Aggregates.LargestIsMaximum` | migrations/000009_artifact_size_stats.up.sql:101-102 | the largest total is the maximum of the rows, and 0 when there are none |
| `Aggregates.Aggregate` | migrations/000009_artifact_size_stats.up.sql:101-105 | one pass over the rows gives their count, maximum and sum |
| `Schema.PutFileKeepsOk` | migrations/000007_create_artifact_registry.up.sql:33-47 | an accepted file row keeps every key and reference |
| `Schema.PutVersionKeepsOk` | migrations/000007_create_artifact_registry.up.sql:16-25 | an accepted version row keeps every key and reference |
| `Schema.DropVersionsKeepsOk` | migrations/000007_create_artifact_registry.up.sql:33-61 | a version delete with its cascade leaves no dangling row |
| `Schema.DropArtifactsKeepsOk` | migrations/000007_create_artifact_registry.up.sql:16-61 | neither does an artifact delete |
| `Schema.TagAllTags` | internal/api/handlers/versions.go:148-161 | the listed tags point at the new version, every other tag is as it was |
| `Schema.NoVersionsNoTags` | internal/api/handlers/tags.go:46-61 | an artifact without versions has no tag |
| `Schema.RefusedOnViolation` | migrations/000007_create_artifact_registry.up.sql:1-47 | an artifact, version or file row is refused exactly when inserting it would break a key or reference |
| `Schema.AllowedReferences` | internal/api/handlers/tags.go:46-61 | a tag may point exactly at versions of its artifact, and a type be assigned exactly when artifact and type are there |
| `Schema.OneTagChanges` | internal/db/queries/registry_tags.sql:1-25 | an upsert or delete of a tag changes that one key, every other tag and every other table is as it was |
| `Schema.OneFileChanges` | internal/db/queries/registry_files.sql:14-27 | an update changes path, size and status of one file and nothing else |
| `Schema.DeletedVersions` | migrations/000007_create_artifact_registry.up.sql:33-61 | a version delete takes exactly those versions, their files and the tags that point at them |
| `Schema.DeletedArtifacts` | migrations/000007_create_artifact_registry.up.sql:16-61 | an artifact delete takes exactly those artifacts and what belongs to them |
| `Schema.DeletedTypesAndFiles` | internal/db/queries/registry_types.sql:31-35 | a type delete takes exactly the types and their assignments, a file delete exactly the files |
| `Statistics.DeltaRule` | migrations/000009_artifact_size_stats.up.sql:52-75 | one changed file row moves its version's total by the trigger's delta and no other total |
| `Statistics.TotalsAfterFileChange` | migrations/000009_artifact_size_stats.up.sql:52-75 | applying the delta makes the totals those of the new file rows |
| `Statistics.ArtifactSynced` | migrations/000009_artifact_size_stats.up.sql:85-109 | recomputing one artifact takes it off the list of stale ones |
| `Statistics.TotalsOfSurvivors` | migrations/000009_artifact_size_stats.up.sql:52-79 | a version delete leaves every other version's total |
| `Statistics.BytesAddUp` | migrations/000009_artifact_size_stats.up.sql:24-33 | a total is 0 without files, and each further file adds its size if it is AVAILABLE and has one |
| `Statistics.StatsAddUp` | migrations/000009_artifact_size_stats.up.sql:35-44 | statistics are zeros without versions, and each further version counts one, raises the maximum and adds its total |
| `Database.Database.FileSync` | migrations/000009_artifact_size_stats.up.sql:52-79 | the file trigger makes the totals count the row as it is now |
| `Database.Database.VersionSync` | migrations/000009_artifact_size_stats.up.sql:85-109 | the version trigger makes its artifact's statistics right |
| `Database.Database.Backfill` | migrations/000009_artifact_size_stats.up.sql:24-44 | the backfill establishes the invariant from any rows |
| `Database.Database.InsertFile` | internal/db/queries/registry_files.sql:1-4 | the row with a fresh id is PENDING, without size, with the placeholder path and dated as asked; or a refusal exactly on a key violation |
| `Database.Database.UpdateFile` | internal/db/queries/registry_files.sql:14-27 | the row's new state, with all statistics right afterwards |
| `Database.Database.DeleteFiles` | internal/db/queries/registry_files.sql:29-30 | exactly these rows go, with all statistics right afterwards |
| `Database.Database.InsertVersion` | internal/db/queries/registry_versions.sql:1-4 | a version with a fresh id and these coordinates, dated as asked, or a refusal exactly on a key violation |
| `Database.Database.InsertArtifact` | internal/db/queries/registry_artifacts.sql:1-4 | an artifact with a fresh id, this name and this date, or a refusal exactly on a taken name |
| `Database.Database.DeleteVersions` | migrations/000007_create_artifact_registry.up.sql:35-57 | versions, their files and tags go, whichever of cascade and trigger fires first |
| `Database.Database.CascadeAndSync` | migrations/000009_artifact_size_stats.up.sql:77-113 | either order of cascade and trigger ends in the same rows and right statistics |
| `Database.Database.DeleteArtifacts` | internal/db/queries/registry_artifacts.sql:96-97 | an artifact delete with every cascade keeps all statistics right |
| `Database.Database.DeleteUnprotectedVersionsByIDs` | internal/db/queries/registry_versions.sql:82-90 | exactly those given versions go that no tag points at and whose artifact does not carry the protection tag at that moment |
| `Database.Database.UpsertTag` | internal/db/queries/registry_tags.sql:1-7 | the tag points at the version, everything else is as it was |
| `Database.Database.DeleteTag` | internal/db/queries/registry_tags.sql:23-25 | that one tag is gone, everything else is as it was |
| `Database.Database.FindVersion` | internal/db/queries/registry_versions.sql:6-11 | the version with these coordinates, or none if there is none |
| `StoredObjects.FilesInOrder` | internal/db/queries/registry_files.sql:73-85 | exactly the files of the given versions, with their coordinates |
| `StatsSteps.DoKeepsCoherent` | migrations/000009_artifact_size_stats.up.sql:52-113 | no step makes a transaction's view wrong beyond the triggers and cascades it still owes |
| `StatsLocks.DoKeepsTracked` | migrations/000009_artifact_size_stats.up.sql:81-84 | every version write ends with its artifact locked, and a recompute read under that lock stays true |
| `StatsLocks.DoKeepsApart` | migrations/000009_artifact_size_stats.up.sql:95-106 | row locks keep the writes of two transactions apart through every step |
| `StatsCommit.FileWritesCommute` | migrations/000009_artifact_size_stats.up.sql:70-72 | what one transaction's files add to a total does not depend on another's commit |
| `StatsCommit.CoherentAfterCommit` | migrations/000009_artifact_size_stats.up.sql:81-107 | a commit leaves every other transaction's view coherent |
| `StatsCommit.CommitIsExact` | migrations/000009_artifact_size_stats.up.sql:16-17 | what a finished transaction publishes has exact statistics |
| `StatsCommit.StepKeepsInv` | migrations/000009_artifact_size_stats.up.sql:81-107 | begin, statement, trigger, cascade, commit and abort steps keep the invariant |
| `StatsCommit.CommittedStatisticsAreExact` | migrations/000009_artifact_size_stats.up.sql:81-107 | committed statistics are the plain aggregates in every state of every run |
| `StatsProgress.WaitsOnlyForConflicts` | migrations/000009_artifact_size_stats.up.sql:81-84 | a step waits for another transaction exactly when that one holds a conflicting row lock, by lock mode, on the row the step needs |
| `StatsProgress.AloneCanCommit` | migrations/000009_artifact_size_stats.up.sql:52-113 | whatever triggers and cascades a transaction has yet to run, alone it gets to its commit, and what it commits are the rows it saw less what was to cascade |
| `StatsProgress.StatementIsARun` | migrations/000009_artifact_size_stats.up.sql:52-113 | every insert, update and delete of the sequential class is a run of the concurrent system that commits exactly the same rows and statistics |
| `StatsRace.ReflectsMeansExact` | migrations/000009_artifact_size_stats.up.sql:5-8 | the sequential and the concurrent model mean the same by right statistics |
| `StatsRace.WithoutTheLockStatisticsGoStale` | migrations/000009_artifact_size_stats.up.sql:81-84 | without the lock a run of two version inserts ends with a version missed |
| `RowOrder.PrecedesIsStrictTotalOrder` | internal/db/queries/registry_versions.sql:79-79 | the unique key makes the order of the listing strict and total |
| `RowOrder.OrderedIsSorted` | internal/db/queries/registry_versions.sql:79-79 | the listing is sorted |
| `RowOrder.SortedIsOrdered` | internal/db/queries/registry_versions.sql:79-79 | and is the only sorted listing of its rows |
| `RowOrder.NewestFirst` | internal/db/queries/registry_versions.sql:79-79 | smaller artifact ids come first, and within an artifact the numerically greater version |
| `RowOrder.OrderedKeep` | internal/db/queries/registry_versions.sql:78-79 | filtering and ordering commute |
| `RowOrder.PositionCountsPredecessors` | internal/db/queries/registry_versions.sql:50-50 | a row's position is the number of rows before it |
| `VersionQuery.RowNumberCountsGreater` | internal/db/queries/registry_versions.sql:49-52 | the row number is one plus the number of greater versions of the artifact, in every scope |
| `VersionQuery.NewestAreTheGreatest` | internal/db/queries/registry_versions.sql:50-59 | the newest k are min(k, n) many and closed upwards |
| `VersionQuery.KeepLastSparesTheNewest` | internal/db/queries/registry_versions.sql:59-59 | with keepLast the newest k of an artifact never match |
| `VersionQuery.NewestHaveFewAbove` | internal/db/queries/registry_versions.sql:49-59 | the newest k are those with fewer than k numerically greater versions in their artifact |
| `VersionQuery.MatchesWhen` | internal/db/queries/registry_versions.sql:48-78 | a version matches exactly when it is in scope and passes each filter that is set, each said over rows, statuses, dates and bytes |
| `VersionQuery.FreeIsUnprotected` | internal/db/queries/registry_versions.sql:55-56 | unprotected means that no tag points at the version and its artifact does not carry the protection tag |
| `VersionQuery.RangesSplit` | internal/db/queries/registry_versions.sql:61-64 | from includes and below excludes: splitting a range at any version puts every match in exactly one half |
| `VersionQuery.OppositeFiltersSplit` | internal/db/queries/registry_versions.sql:67-72 | minBytes against maxBytes, and each value of hasFiles and hasIncompleteFiles, split the matches in two |
| `VersionQuery.ScopingCommutes` | internal/db/queries/registry_versions.sql:48-52 | the registry-wide result cut to one artifact is the artifact's own, row numbers included |
| `VersionQuery.DeletableShowsUnprotected` | internal/db/queries/registry_versions.sql:78-79 | deletable=true shows the unprotected rows of the plain listing in its order |
| `VersionQuery.PagesConcatenate` | internal/db/queries/registry_versions.sql:79-80 | consecutive pages concatenate to the listing without gap or repeat |
| `VersionQuery.EveryRowCarriesTheTotal` | internal/db/queries/registry_versions.sql:74-76 | every row of every page carries the match count |
| `VersionQuery.PageShows` | internal/db/queries/registry_versions.sql:74-80 | what each row of a page says of its version, which row of the listing it is, and how many rows a page has |
| `VersionQuery.DeletingMatchesNothingNew` | internal/db/queries/registry_versions.sql:48-78 | deleting some deletable matches makes nothing else deletable |
| `VersionQuery.BulkDeleteIsIdempotent` | internal/api/handlers/version_bulk.go:123-206 | deleting all of them leaves none |
| `FilterParams.ParseVersionFilter` | internal/api/handlers/version_bulk.go:26-84 | a filter exactly when every parameter is well formed, and anySet exactly when one was given |
| `FilterParams.AppendVersions` | internal/api/handlers/version_bulk.go:58-65 | the loop normalises every text or refuses the list |
| `FilterParams.NarrowingKeepsSmallNumbers` | internal/api/handlers/helpers.go:148-154 | a number is read as itself if and only if it fits 32 bits |
| `FilterParams.NarrowedNumbers` | internal/api/handlers/helpers.go:153-153 | the narrowing is the number of 32 bits congruent to it |
| `FilterParams.AcceptedWhen` | internal/api/handlers/version_bulk.go:26-84 | a request is accepted exactly when each parameter given is of its spelled-out form and range |
| `FilterParams.EachParameterItsField` | internal/api/handlers/version_bulk.go:26-84 | every parameter sets its own field to what its text says, and an absent one none |
| `BulkDelete.LargeKeepLastDeletesEverything` | internal/api/handlers/helpers.go:148-154 | keepLast=4294967296 is accepted and makes every unprotected version deletable |
| `BulkDelete.SmallKeepLastKeeps` | internal/api/handlers/helpers.go:148-154 | a keepLast=n that fits 32 bits keeps the newest n of every artifact out of the deletable ones |
| `FilterParams.VersionsParameterSelectsTriples` | internal/api/handlers/version_bulk.go:53-65 | the version parameter selects exactly the versions it names |
| `RequestMeaning.KeepLastDeletes` | internal/db/queries/registry_versions.sql:59-59 | keepLast=k alone makes deletable exactly the unprotected versions outside the newest k of their artifact |
| `RequestMeaning.OlderThanDeletes` | internal/db/queries/registry_versions.sql:60-60 | olderThan alone: exactly the unprotected versions created before that second |
| `RequestMeaning.RangeDeletes` | internal/db/queries/registry_versions.sql:61-64 | from alone: that version and all above; below alone: all below it |
| `RequestMeaning.VersionTextsDelete` | internal/db/queries/registry_versions.sql:65-66 | version texts alone: exactly the versions one of the texts parses to, and a refusal when no artifact is given |
| `RequestMeaning.HasFilesDeletes` | internal/db/queries/registry_versions.sql:67-68 | hasFiles alone: exactly those with a file row, or without one |
| `RequestMeaning.HasIncompleteFilesDeletes` | internal/db/queries/registry_versions.sql:69-70 | hasIncompleteFiles alone: exactly those with a PENDING or ERROR file row, or with AVAILABLE ones only |
| `RequestMeaning.BytesDelete` | internal/db/queries/registry_versions.sql:71-72 | minBytes or maxBytes alone: exactly those whose AVAILABLE files come to at least, or at most, that much |
| `RequestMeaning.SeveralParametersIntersect` | internal/db/queries/registry_versions.sql:40-44 | several parameters make deletable exactly what each of them alone would |
| `FilterParams.ParsePagination` | internal/api/handlers/helpers.go:104-125 | page and page size with their defaults and bounds |
| `Retention.MergeRetention` | internal/api/handlers/retention.go:29-43 | no rule for no policy, otherwise the largest of each field over those that set it |
| `Retention.MergeIgnoresOrder` | internal/api/handlers/retention.go:26-43 | the merged rule does not depend on the order of the policies |
| `Retention.CutoffIsWholeDaysBack` | internal/api/handlers/retention.go:54-56 | the cutoff is 86400 seconds a day before the second of now; one instant written out |
| `Retention.RenderedRuleReadsBack` | internal/api/handlers/retention.go:46-58 | a rendered rule is accepted exactly when RFC 3339 can write its cutoff, is then read back, and is never empty |
| `Retention.VeryOldCutoffIsRefused` | internal/api/handlers/retention.go:54-56 | a maximum age that reaches before year 0 is refused |
| `Retention.MergedRuleSelectsTheIntersection` | internal/api/handlers/retention.go:26-28 | the merged rule selects what every policy selects, and nothing else |
| `Retention.PolicyDeletes` | internal/api/handlers/retention.go:46-58 | one policy deletes the unprotected versions outside its newest and created before its cutoff |
| `Retention.MergedRuleDeletesTheIntersection` | internal/api/handlers/retention.go:26-58 | merged, rendered, parsed and run, the rule deletes the intersection of what each policy deletes |
| `Retention.RetentionEndToEnd` | internal/api/handlers/retention.go:84-109 | refused exactly when the cutoff is outside years 0 to 9999; otherwise a version goes exactly when it is unprotected, old enough for every age and outside every number of newest to keep |
| `Retention.Store.PutForArtifact` | internal/api/handlers/retention.go:112-133 | exactly the policies the CHECK constraints allow are stored |
| `Retention.Store.PutForType` | internal/api/handlers/retention.go:165-186 | the same for types |
| `Retention.Store.DeleteForArtifact` | internal/api/handlers/retention.go:135-150 | the artifact's policy goes, or is reported missing |
| `Retention.Store.DeleteForType` | internal/api/handlers/retention.go:188-203 | the type's policy goes, or is reported missing |
| `Retention.Store.GetForArtifact` | internal/api/handlers/retention.go:73-110 | an own policy replaces those of the assigned types, which are merged otherwise; the filter carries its number and its cutoff, and is empty only without a policy |
| `BulkResponse.Response` | internal/api/handlers/version_bulk.go:209-227 | the reply names the included rows in the listing's order and counts them |
| `BulkResponse.EachNamedOnce` | internal/api/handlers/version_bulk.go:209-227 | every version that went is named once |
| `BulkResponse.DeleteNamesWhatShowShows` | internal/api/handlers/version_bulk.go:16-18 | the unprotected rows of the listing are what deletable=true lists, in that order |
| `BulkResponse.PartitionRows` | internal/api/handlers/version_bulk.go:145-155 | protected rows are counted, all others are candidates |
| `BulkResponse.ListingRows` | internal/db/queries/registry_versions.sql:54-57 | a row's protected flag is what the delete will test |
| `BulkDelete.FilteredVersions.Query` | internal/api/handlers/version_bulk.go:94-116 | the rows of the query for the parsed parameters, or a refusal exactly on a malformed one, a negative bound or a failed statement |
| `BulkDelete.FilteredVersions.ListAll` | internal/api/handlers/versions.go:66-86 | refused exactly on a malformed parameter, a negative narrowed bound or a failed statement; otherwise the page at the narrowed size and offset, and the match count even past the last page |
| `BulkDelete.NarrowedPage` | internal/api/handlers/versions.go:68-69 | size and offset are those asked for if and only if they fit 32 bits |
| `BulkDelete.FilteredVersions.BulkDelete` | internal/api/handlers/version_bulk.go:123-206 | rows, objects, failed calls and reply are one function of the start, of the other sessions and of the faults |
| `BulkDelete.FilteredVersions.DeleteCandidates` | internal/api/handlers/version_bulk.go:162-201 | the transaction and the sweep come to their part of that function |
| `BulkDelete.FilteredVersions.SweepDeleted` | internal/api/handlers/version_bulk.go:187-201 | one delete call for each listed file of a deleted version and none else, with other sessions before each |
| `BulkDelete.ProtectedSurvive` | internal/db/queries/registry_versions.sql:82-90 | under any interference only candidates go, none that is protected when the delete runs, and the protected keep their files |
| `BulkDelete.TagsDecideWhatGoes` | internal/db/queries/registry_versions.sql:82-90 | over the tag rows, under any interference: no tagged version goes, none of an artifact with the protection tag, and every other candidate does |
| `BulkDelete.TransactionIsGood` | internal/api/handlers/version_bulk.go:162-185 | keys and references hold throughout, and the listed files of deleted versions are gone for good |
| `BulkDelete.OwnCallsHarmNobody` | internal/api/handlers/version_bulk.go:118-122 | each storage call touches one key, which is no live row's when the call is made |
| `BulkDelete.AloneOutcome` | internal/api/handlers/version_bulk.go:123-206 | alone, exactly the deletable versions go, and one call is made for each of their files |
| `BulkDelete.FlagIsTheRecheck` | internal/db/queries/registry_versions.sql:86-88 | the protected flag is the negation of the delete's second look |
| `BulkDelete.ReplyNamesWhatIsShown` | internal/api/handlers/version_bulk.go:16-18 | dry run and real delete name exactly what deletable=true lists, in its order |
| `BulkDelete.NewestSurvive` | internal/api/handlers/version_bulk.go:123-206 | the newest min(k, n) versions of the listing survive keepLast=k, whatever other sessions do |
| `BulkDelete.NewestAtDeleteSurvive` | internal/api/handlers/version_bulk.go:174-177 | so do those newest when the delete runs, unless a greater version vanished since the listing |
| `BulkDelete.RepeatedBulkDeleteRemovesNothing` | internal/api/handlers/version_bulk.go:123-206 | a second identical bulk delete removes nothing |
| `StoredObjects.ObjectPathIsCanonical` | internal/api/handlers/helpers.go:133-140 | a file's object is looked for under the path of its coordinates, whatever its status |
| `StoredObjects.ObjectPaths` | internal/api/handlers/helpers.go:133-140 | an AVAILABLE row says where its object is, any other has it at the path of its coordinates |
| `StoredObjects.BrokenAndLeaked` | internal/api/handlers/files.go:172-209 | what it means for a row to miss its object and for an object to be left behind, over rows, keys, bytes and sizes |
| `StoredObjects.PathDeterminesFile` | internal/api/handlers/files.go:98-101 | no two files share a path, in one state or across states |
| `StoredObjects.EveryObjectHasOneRow` | internal/api/handlers/helpers.go:127-140 | without leaks every object is at the key of exactly one live row |
| `StoredObjects.RowsAndObjectsGone` | internal/api/handlers/artifacts.go:234-261 | rows and objects deleted in either order break no other row, and leak only failed calls |
| `StoredObjects.DeadKeyStaysDead` | internal/api/handlers/version_bulk.go:118-122 | deleting the object of a row that is gone can break no row, however late |
| `Storage.ObjectStore.DeleteObjects` | internal/api/handlers/artifacts.go:256-261 | one call for each listed file: the bucket and the failed keys are those the faults determine |
| `Storage.SweepIsSwept` | internal/api/handlers/artifacts.go:256-261 | so every listed object goes unless its call failed, and no other |
| `RegistryFacts.FilesAndObjectsGone` | internal/api/handlers/admin.go:229-260 | file rows deleted and swept: the objects of all other rows are as they were, and of these only failed calls leave one |
| `Registry.Registry.WithoutFailuresNothingLeaks` | internal/api/handlers/helpers.go:127-140 | while no call and no statement has failed, objects and AVAILABLE rows match one to one |
| `Registry.Registry.Upload` | internal/api/handlers/files.go:77-149 | which answer in which case; the row left, with its status, size, path and date, and its object; every other row, object and file's uploaded bytes are as they were |
| `Registry.Registry.UploadLeaves` | internal/api/handlers/files.go:98-147 | an accepted upload leaves its row AVAILABLE with size and path if all went well, ERROR once marked, and PENDING only if marking fails, always dated as asked |
| `Registry.Registry.StoreFile` | internal/api/handlers/files.go:118-147 | store, then finalize; on failure the row is ERROR, or PENDING if that fails too, and an object whose row could not be finalized is asked to be removed; nothing else changes |
| `Registry.Registry.Finalize` | internal/api/handlers/files.go:131-147 | the row is AVAILABLE, or marked ERROR and the object taken back |
| `Registry.Registry.Download` | internal/api/handlers/files.go:172-209 | only AVAILABLE rows are served, with the uploaded bytes; an error there means a failed call or a missing object |
| `Registry.Registry.DeleteFile` | internal/api/handlers/files.go:211-238 | object first: the one call is made for its key, and if the row's delete then fails, that row alone joins the possibly broken |
| `Registry.Registry.DeleteVersion` | internal/api/handlers/versions.go:201-238 | objects first, one call each or none if they cannot be listed; if the row's delete fails, its files join the possibly broken |
| `Registry.Registry.VersionDeleteLeaksIff` | internal/api/handlers/versions.go:222-236 | with all calls fine, deleting a version leaks if and only if its listing failed and one of its files has an object, and then exactly those objects |
| `Registry.Registry.UnlistedFileLeaks` | internal/api/handlers/versions.go:222-236 | one AVAILABLE file whose listing fails: its object is left behind without any storage call |
| `Registry.Registry.DeleteArtifact` | internal/api/handlers/artifacts.go:224-263 | rows first in one transaction, then one call for each file: nothing breaks, failed calls are all that leaks |
| `Registry.Registry.BulkDeleteVersions` | internal/api/handlers/versions.go:241-251 | missing artifact, refusal and failure each exactly when; alone, exactly the deletable matches go, with one call for each of their objects, and are named |
| `Registry.Registry.CreateArtifact` | internal/api/handlers/artifacts.go:137-178 | a conflict exactly on a taken full name, otherwise a new artifact, or no change when the transaction fails |
| `Registry.Registry.CreateVersion` | internal/api/handlers/versions.go:102-170 | version and all tags, or nothing at all; it fails exactly when one of its statements does |
| `Registry.Registry.PutTag` | internal/api/handlers/tags.go:23-67 | a tag is only set to a version of its own artifact |
| `Registry.Registry.DeleteTag` | internal/api/handlers/tags.go:69-92 | the tag goes, or is reported missing |
| `Registry.Registry.DeleteIncompleteFiles` | internal/api/handlers/admin.go:233-260 | over the rows: every AVAILABLE row, every row not older and every row of a protected artifact stays with its object, every other goes, with one call for what its upload left; skipped counts the protected ones |
| `Registry.Registry.CleaningFilesLeaves` | internal/db/queries/registry_files.sql:57-71 | which rows and objects that cleanup leaves, as a law of the function it computes |
| `Registry.Registry.DeleteVersionsWithoutFiles` | internal/api/handlers/admin.go:125-144 | old file-less versions go; skipped counts the protected ones |
| `Registry.Registry.DeleteArtifactsWithoutFiles` | internal/api/handlers/admin.go:177-196 | old artifacts with versions but no files go; skipped counts the protected ones |
| `Registry.Registry.DeleteEmptyArtifacts` | internal/api/handlers/admin.go:68-87 | old empty artifacts go, none is ever skipped |
| `Registry.Registry.DeleteUnusedTypes` | internal/api/handlers/admin.go:300-316 | old types assigned to nothing go |
| `Registry.Registry.Serve` | internal/api/router.go:57-119 | every request makes of rows, objects, uploaded bytes and failed calls what its function says |
| `Registry.Registry.AnyRequests` | internal/api/handlers/files.go:211-238 | any requests are all answered in turn, and the bounds hold; without failures nothing leaks or is missing; without objects-first deletes nothing can go missing |
| `Registry.Registry.SameBytesThroughout` | internal/api/handlers/files.go:98-101 | a file AVAILABLE and not missing before and after any requests has the very same bytes |
| `SequentialRuns.RequestIsARun` | internal/api/handlers/files.go:77-149 | every request answered in one go, whatever fails in it, is a run of the step system from rest to rest |
| `SequentialRuns.TraceIsARun` | internal/api/router.go:57-119 | so are any requests one after the other |
| `SequentialRuns.AnyRequestsAreAllowed` | internal/api/handlers/version_bulk.go:157-185 | what other sessions may do between the steps of a bulk delete takes in any requests at all |
| `SequentialRuns.RequestsAreFair` | internal/api/handlers/version_bulk.go:118-122 | the interference a bulk delete is proved against includes sessions that get any requests answered between any two of its steps |
| `Cleanup.OnePassIsAFixpoint` | internal/api/handlers/admin.go:68-316 | after one pass of the five cleanups with one cutoff a second pass finds nothing |
| `Cleanup.PassSparesProtected` | internal/db/queries/registry_files.sql:57-71 | a pass touches no row of a protected artifact |
| `Cleanup.SkippedCountsProtected` | internal/api/handlers/admin.go:30-35 | skipped is the number of protected rows |
| `Cleanup.EmptyArtifactsAreNeverSkipped` | internal/db/queries/registry_artifacts.sql:106-115 | no empty artifact is protected |
| `Cleanup.IncompleteFilesGone` | internal/db/queries/registry_files.sql:57-71 | the file cleanup takes exactly the PENDING and ERROR rows older than the cutoff in artifacts without the tag |
| `Cleanup.FilelessVersionsGo` | internal/db/queries/registry_versions.sql:26-38 | the version cleanup takes exactly the older versions without a file row in artifacts without the tag, and the tags that point at them |
| `Cleanup.FilelessArtifactsGo` | internal/db/queries/registry_artifacts.sql:111-148 | the artifact cleanups take exactly the older artifacts without the tag that have versions and no file, or no version |
| `Cleanup.UnassignedTypesGo` | internal/db/queries/registry_types.sql:31-35 | the type cleanup takes exactly the older types no artifact is assigned, and nothing else changes |
| `Cleanup.ReadFiltersAreTheCleanupSets` | internal/db/queries/registry_artifacts.sql:28-33 | maxVersions=0, and minVersions=1 with hasFiles=false, list exactly the cleanup sets |
| `Cleanup.ArtifactMatchesWhen` | internal/db/queries/registry_artifacts.sql:14-40 | what each filter of the artifact list asks of the rows, when the stored statistics are right |
| `UploadRace.FinalRow` | internal/api/handlers/files.go:131-136 | the row an upload makes AVAILABLE has its object unless an objects-first delete listed it |
| `UploadRace.ObjectDeletedKeepsInv` | internal/api/handlers/version_bulk.go:192-201 | a storage call of a delete breaks no row outside those listed objects-first |
| `UploadRace.StepKeepsInv` | internal/api/handlers/files.go:101-147 | every statement, storage call, failure and crash keeps the invariant, uploads provided their name is plain |
| `UploadRace.OnlyErasedRowsBreak` | internal/api/handlers/versions.go:222-236 | in every run with plain names, only rows listed by an objects-first delete can lose their object |
| `UploadRace.RowsFirstNeverBreaks` | internal/api/handlers/artifacts.go:234-261 | in every such run without those deletes no AVAILABLE row ever lacks its bytes |
| `UploadRace.PlainNamesAreSafe` | internal/api/handlers/admin.go:229-260 | a set of file names is safe in every rows-first run under a prefix if and only if all of them are plain |
| `UploadRace.DotDotBreaks` | internal/api/handlers/admin.go:229-260 | under any key prefix a cleaned-up upload of `..` takes the object of the next one |
| `UploadRace.CrashAfterEraseBreaks` | internal/api/handlers/files.go:229-236 | from any state, a crash inside a single-file delete leaves that AVAILABLE row without object |
| `OrphanObjects.StepOrphansIff` | internal/api/handlers/version_bulk.go:162-201 | a step adds no object left behind but what it loosens, and from none makes one if and only if it is an orphaning step |
| `OrphanObjects.OnlyLoosenedKeysLeak` | internal/api/handlers/version_bulk.go:118-122 | in every run, only what was there, crashes, failed calls and overlapping deletes leave objects behind |
| `OrphanObjects.NothingLeftBehindIff` | internal/api/handlers/version_bulk.go:118-122 | a run leaves nothing behind at any time if and only if none of its steps is an orphaning one |
| `OrphanObjects.OnlyDeletesOrphan` | internal/api/handlers/artifacts.go:234-261 | without crash and failed call only a delete's statement can be one, by the rows it deletes |
| `OrphanObjects.LateUploadIsLeftBehind` | internal/api/handlers/version_bulk.go:169-177 | an upload that ends between listing and statement of a delete leaves its object behind although every call succeeds |
| `PrefixMigration.MigratePrefix` | internal/storage/migrate.go:24-54 | the bucket is the one with exactly the paths reached copied, and bucket, counters and success are those the faults of the calls determine |
| `PrefixMigration.CopyWithoutFaults` | internal/storage/migrate.go:24-54 | when no call fails it succeeds exactly when every path has an object under one of the prefixes; copied counts the paths that had none under the new one |
| `PrefixMigration.PutKeepsFaithful` | internal/storage/migrate.go:21-22 | an object already under a new key is always the right one |
| `PrefixMigration.MigrationChangesNoObject` | internal/storage/migrate.go:21-23 | no existing object changes |
| `PrefixMigration.ResumedEqualsUninterrupted` | internal/storage/migrate.go:21-23 | resuming an interrupted run ends where one run would have |
| `PrefixMigration.AttemptsThenSuccess` | internal/storage/migrate.go:21-23 | so do any number of interrupted attempts and a success |
| `PrefixMigration.MigratedIsComplete` | internal/storage/migrate.go:28-53 | after success every path has its original bytes under the new prefix |
| `PrefixMigration.WriteKeeps` | internal/storage/migrate.go:21-22 | writing one path's object under any prefix keeps every other path's, nested prefixes included |
| `PrefixMigration.UploadKeeps` | internal/storage/s3.go:59-61 | an upload is found under another prefix if and only if both name one directory |
| `PrefixMigration.StepIsRightIff` | cmd/server/migrate.go:56-104 | a step keeps the recorded, served and running prefixes right if and only if it is no blind first record and no upload elsewhere |
| `PrefixMigration.RightMeans` | cmd/server/migrate.go:50-104 | that the recorded or the served prefix has every file means the uploaded bytes at the key of each path under it |
| `PrefixMigration.AnyHistory` | cmd/server/migrate.go:56-104 | over any history of allowed steps the recorded and the served prefix have every file |
| `PrefixMigration.HistoryIsRightIff` | cmd/server/migrate.go:56-104 | a history keeps both prefixes and the running job right throughout if and only if each of its steps is allowed |
| `PrefixMigration.FilesAreFoundIff` | cmd/server/migrate.go:56-104 | both prefixes have every file throughout a history if and only if no first record is blind, no upload goes past the record, and no record lacks an unlisted file |
| `PrefixMigration.LateUploadIsMissed` | cmd/server/migrate.go:83-101 | a file uploaded elsewhere while the job copies is not under the prefix the job then records |
| `PrefixMigration.UploadAfterFailedRecord` | cmd/server/migrate.go:101-105 | from any right site: applied but reported failed, an update lets the retry skip an upload made in between |
| `PrefixMigration.WrongFirstRecord` | cmd/server/migrate.go:61-68 | a first deployment with another prefix leaves a server that does not find the files |
| `PrefixMigration.FirstRecordIsRightIff` | cmd/server/migrate.go:61-68 | the first record is right if and only if every file has an object under it |
| `PrefixMigration.CopiesAreSteps` | internal/storage/migrate.go:28-53 | what the copy loop leaves is what that many copy steps leave |
| `PrefixMigration.Instance.MigrateS3Prefix` | cmd/server/migrate.go:56-104 | whatever fails, the job is a run of its steps, changes no object, and a changed record has every file |
| `PrefixMigration.Instance.Deploy` | cmd/server/migrate.go:18-23 | the new server starts exactly when the job succeeded, and after a changed prefix it finds every file |
| `PrefixMigration.Instance.Upload` | internal/storage/s3.go:59-61 | an upload is one step of the history |
| `PrefixMigration.Instance.Delete` | internal/api/handlers/files.go:229-236 | so is a delete, which leaves copies under older prefixes |
| `PrefixMigration.FirstMarkerIsRightWhenServed` | cmd/server/migrate.go:61-68 | without copies of the files under the configured directory, that means it is the directory in use or nothing is stored |
| `DumpPreamble.StripIncompatibleSettings` | cmd/server/restore.go:116-137 | the loop over the reader, for every end of the stream, computes the filter |
| `DumpPreamble.StripDropsOnlyTheSetting` | cmd/server/restore.go:112-115 | the output is the input minus exactly the preamble lines that trim to the setting |
| `DumpPreamble.PreambleLines` | cmd/server/restore.go:139-145 | each kind of preamble line, with any blanks around it, is kept and the setting after it dropped |
| `DumpPreamble.OtherLines` | cmd/server/restore.go:125-128 | any other line ends the preamble: from it on nothing is dropped |
| `DumpPreamble.TrimAround` | cmd/server/restore.go:124-124 | what is left of a text between blanks is the text |
| `DumpPreamble.WhiteSpace` | cmd/server/restore.go:124-124 | the 25 white space characters, none of them printable ASCII |
| `DumpPreamble.ReadErrorMattersOnlyInPreamble` | cmd/server/restore.go:120-123 | a read error is reported if and only if it comes before the first other line is complete |
| `DumpPreamble.StripIsIdempotent` | cmd/server/restore.go:106-115 | filtering twice is filtering once |

## Left out

- Requests, JSON, logging, authentication, connection pools, the Kubernetes and AWS clients: a call into them is a step that may fail.
- Postgres below the statement: a statement sees one snapshot and either happens or does not; a deadlock is an abort, progress is proved for a transaction that is alone, and a commit or statement that reports an error was not applied.
- A row waited for is looked at again when its lock is granted, as a statement that starts then would; the finer re-check Postgres makes of one waiting row is not modelled.
- Statistics are unbounded integers: sums of bytes and counts past the 64 and 32 bits of their columns are not modelled.
- Retention.Store.PutForArtifact: fields are required to fit 32 bits, because the request type holds nothing larger.
- Retention policies that go with their deleted artifact or type.
- PrefixMigration.Instance.MigrateS3Prefix: runs without other steps in between; uploads and deletes during the job are steps of `PrefixMigration.Next`.
- PrefixMigration.Instance.Upload: asks for a six-segment path, so file names `.`, `..` and `/` are outside the migration results, which do not hold for them (`StoragePaths.DotNamesMeetUnderNestedPrefixes`).
- Two migration jobs at once.
- Registry.Registry.Upload: asks for a file name that is plain under the key prefix; `UploadRace.PlainNamesAreSafe` shows why and for which names.
- Registry.Registry.Serve: leaves an upload under another name unserved, and says so; `Registry.Registry.AnyRequests` inherits it.
- File names that collide as directories in the filesystem backend: objects are modelled by their S3 keys.
- Registry.Registry.DeleteVersion: lists the files by id; the query orders them by creation time, which decides nothing but which call has which number.
- A failed read outside the deletes, such as the lookup of a version, which answers with an error and changes nothing.
- RFC 3339 texts stand for the second they name; a text is unreadable exactly when its year does not have four digits.
- Query texts are taken after URL decoding, and a rendered filter before URL encoding.
- Characters are Unicode scalars, not bytes; invalid UTF-8 in a dump or a file name is not modelled.
- One id sequence serves all tables; the steps of 50 in which the sequences grow are not modelled.
- Columns that decide nothing here: descriptions, type names, configs, content types, update times. Every file is in one storage backend.
- The name, type and retention filters of the artifact list, its sorting, and the registry-wide tag list: collation and prefix matching of names aside, they repeat what is shown for versions.
- The type handlers and the artifact update: they change no version, file or tag.
- Database.Database.UpsertTag: asks for a version of the tag's artifact, because only its callers see to that; both do.
- BulkDelete.FilteredVersions.BulkDelete: other sessions do anything that keeps the tables consistent, coordinates fixed, ids unused and new file names plain.
- UploadRace leaves out the bytes of partial reads, multi-part uploads and the order in which a listing is returned.
