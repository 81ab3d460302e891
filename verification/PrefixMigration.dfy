/** Moving the registry's S3 objects to another key prefix: a resumable copy, and the marker that says when it is complete. */
module PrefixMigration {
  import opened Wrappers
  import opened StoragePaths
  import opened StoredObjects
  import opened Storage

  /** The objects of the bucket by key. */
  type Objects = map<string, Bytes>

  /** The bytes each stored path was uploaded with. */
  type Originals = map<string, Bytes>

  /** One copy by the service: it is whole or does not happen, and it may happen unheard. */
  function AfterCopy(objects: Objects, source: string, target: string, fault: Fault): Objects {
    if source in objects && (fault == Fine || fault == ReplyLost) then objects[target := objects[source]] else objects
  }

  class S3 {
    var objects: Objects
    const faults: Faults
    /** How many head requests and copies were made. */
    var calls: nat

    constructor (faults: Faults)
      ensures objects == map[] && this.faults == faults && calls == 0
    {
      objects, this.faults, calls := map[], faults, 0;
    }

    /** A head request can fail although the object is there. */
    method HeadObject(key: string) returns (ok: bool)
      modifies this`calls
      ensures calls == old(calls) + 1
      ensures ok <==> faults(old(calls)) == Fine && key in objects
    {
      ok := faults(calls) == Fine && key in objects;
      calls := calls + 1;
    }

    /** A copy that reports an error may still have happened. */
    method CopyObject(source: string, target: string) returns (ok: bool)
      modifies this
      ensures calls == old(calls) + 1
      ensures objects == AfterCopy(old(objects), source, target, faults(old(calls)))
      ensures ok <==> faults(old(calls)) == Fine && source in old(objects)
    {
      var fault := faults(calls);
      ok := fault == Fine && source in objects;
      if source in objects && (fault == Fine || fault == ReplyLost) {
        objects := objects[target := objects[source]];
      }
      calls := calls + 1;
    }

    method PutObject(key: string, data: Bytes)
      modifies this`objects
      ensures objects == old(objects)[key := data]
    {
      objects := objects[key := data];
    }

    method DeleteObject(key: string)
      modifies this`objects
      ensures objects == old(objects) - {key}
    {
      objects := objects - {key};
    }
  }

  /** Whatever sits at a key of a registry path, under any prefix, is that path's own object. */
  ghost predicate Faithful(objects: Objects, originals: Originals) {
    && (forall p :: p in originals ==> StoragePath(p))
    && forall prefix, p :: p in originals && Key(prefix, p) in objects ==> objects[Key(prefix, p)] == originals[p]
  }

  /** Every path has its original bytes under the prefix. */
  ghost predicate Complete(objects: Objects, prefix: string, originals: Originals) {
    forall p :: p in originals ==> Key(prefix, p) in objects && objects[Key(prefix, p)] == originals[p]
  }

  /** The bucket with every listed path copied to the new prefix. */
  ghost function Migrated(objects: Objects, prefix: string, paths: seq<string>, originals: Originals): Objects
    requires forall p :: p in paths ==> p in originals
  {
    if paths == [] then objects
    else
      var p := paths[|paths| - 1];
      Migrated(objects, prefix, paths[..|paths| - 1], originals)[Key(prefix, p) := originals[p]]
  }

  /** No key of one path is a key of another, so writing an original keeps every other path's object. */
  lemma PutKeepsFaithful(objects: Objects, originals: Originals, prefix: string, p: string)
    requires Faithful(objects, originals) && p in originals
    ensures Faithful(objects[Key(prefix, p) := originals[p]], originals)
  {
    forall q, x | x in originals && Key(q, x) == Key(prefix, p) ensures x == p {
      KeysCollideOnlyWhenEqual(q, x, prefix, p);
    }
    hide Key, StoragePath;
  }

  lemma FaithfulAt(objects: Objects, originals: Originals, prefix: string, p: string)
    requires Faithful(objects, originals) && p in originals
    ensures Key(prefix, p) in objects ==> objects[Key(prefix, p)] == originals[p]
  {
  }

  lemma {:induction false} MigratedAt(objects: Objects, prefix: string, paths: seq<string>, originals: Originals, k: string)
    requires Faithful(objects, originals) && forall p :: p in paths ==> p in originals
    ensures var m := Migrated(objects, prefix, paths, originals);
            && (k in m <==> k in objects || exists p :: p in paths && Key(prefix, p) == k)
            && (k in objects ==> m[k] == objects[k])
            && (forall p :: p in paths && Key(prefix, p) == k ==> m[k] == originals[p])
  {
    hide Key, StoragePath;
    if paths != [] {
      var last, rest := paths[|paths| - 1], paths[..|paths| - 1];
      assert forall p :: p in paths <==> p in rest || p == last by { assert paths == rest + [last]; }
      MigratedAt(objects, prefix, rest, originals, k);
      forall p | p in originals && Key(prefix, p) == Key(prefix, last) ensures p == last { KeysCollideOnlyWhenEqual(prefix, p, prefix, last); }
    }
  }

  /** Nothing that was there changes, and a finished migration has every listed path under the new prefix. */
  lemma MigratedIsComplete(objects: Objects, prefix: string, paths: seq<string>, originals: Originals)
    requires Faithful(objects, originals) && forall p :: p in paths <==> p in originals
    ensures Complete(Migrated(objects, prefix, paths, originals), prefix, originals)
  {
    hide Key, Faithful, Migrated;
    forall p | p in originals
      ensures Key(prefix, p) in Migrated(objects, prefix, paths, originals)
           && Migrated(objects, prefix, paths, originals)[Key(prefix, p)] == originals[p]
    {
      MigratedAt(objects, prefix, paths, originals, Key(prefix, p));
    }
  }

  /** Starting over after an interruption ends in the bucket one uninterrupted run would have left. */
  lemma ResumedEqualsUninterrupted(objects: Objects, prefix: string, paths: seq<string>, originals: Originals, i: nat)
    requires Faithful(objects, originals) && (forall p :: p in paths ==> p in originals) && i <= |paths|
    requires Faithful(Migrated(objects, prefix, paths[..i], originals), originals)
    ensures Migrated(Migrated(objects, prefix, paths[..i], originals), prefix, paths, originals) == Migrated(objects, prefix, paths, originals)
  {
    hide Key, Faithful, Migrated;
    var half := Migrated(objects, prefix, paths[..i], originals);
    var resumed, whole := Migrated(half, prefix, paths, originals), Migrated(objects, prefix, paths, originals);
    forall k ensures (k in resumed <==> k in whole) && (k in resumed && k in whole ==> resumed[k] == whole[k]) {
      MigratedAt(objects, prefix, paths[..i], originals, k);
      MigratedAt(half, prefix, paths, originals, k);
      MigratedAt(objects, prefix, paths, originals, k);
    }
  }

  /** A path found under either prefix half way had an object under one of them from the start. */
  lemma OneOfThemWasThere(objects: Objects, oldPrefix: string, newPrefix: string, paths: seq<string>, originals: Originals, p: string)
    requires Faithful(objects, originals) && (forall x :: x in paths ==> x in originals) && p in originals
    requires forall j :: 0 <= j < |paths| ==> Key(oldPrefix, paths[j]) in objects || Key(newPrefix, paths[j]) in objects
    ensures var m := Migrated(objects, newPrefix, paths, originals);
            Key(oldPrefix, p) in m || Key(newPrefix, p) in m ==> Key(oldPrefix, p) in objects || Key(newPrefix, p) in objects
  {
    hide Key, StoragePath, Migrated;
    MigratedAt(objects, newPrefix, paths, originals, Key(oldPrefix, p));
    MigratedAt(objects, newPrefix, paths, originals, Key(newPrefix, p));
    forall x | x in paths && (Key(newPrefix, x) == Key(oldPrefix, p) || Key(newPrefix, x) == Key(newPrefix, p)) ensures x == p {
      KeysCollideOnlyWhenEqual(newPrefix, x, oldPrefix, p);
      KeysCollideOnlyWhenEqual(newPrefix, x, newPrefix, p);
    }
  }

  lemma MigratedNothing(objects: Objects, prefix: string, originals: Originals)
    ensures Migrated(objects, prefix, [], originals) == objects
  {
  }

  lemma OneMorePath(objects: Objects, prefix: string, paths: seq<string>, originals: Originals, i: nat)
    requires i < |paths| && forall p :: p in paths ==> p in originals
    ensures Migrated(objects, prefix, paths[..i + 1], originals) ==
            Migrated(objects, prefix, paths[..i], originals)[Key(prefix, paths[i]) := originals[paths[i]]]
  {
    hide Key;
    assert paths[..i + 1][..i] == paths[..i] && paths[..i + 1][i] == paths[i];
  }

  lemma KeyIsJoined(prefix: string, path: string)
    ensures TrimSlashes(TrimSlashes(prefix)) == TrimSlashes(prefix) && Key(prefix, path) == JoinPrefix(TrimSlashes(prefix), path)
  {
    TrimSlashesIdempotent(prefix);
    hide CleanPath;
  }

  // ---- the copy, call by call ----

  /** How far a copy has got: the bucket, the calls made, the two counters, and whether a copy failed. */
  datatype Progress = Progress(objects: Objects, calls: nat, copied: nat, skipped: nat, failed: bool)

  /** One path: skipped if a head request sees its object under the new prefix, copied otherwise. */
  function OnePath(s: Progress, oldPrefix: string, newPrefix: string, path: string, faults: Faults): Progress {
    var source, target := Key(oldPrefix, path), Key(newPrefix, path);
    if s.failed then s
    else if faults(s.calls) == Fine && target in s.objects then s.(calls := s.calls + 1, skipped := s.skipped + 1)
    else
      var tried := s.(objects := AfterCopy(s.objects, source, target, faults(s.calls + 1)), calls := s.calls + 2);
      if faults(s.calls + 1) == Fine && source in s.objects then tried.(copied := s.copied + 1) else tried.(failed := true)
  }

  function CopyPaths(s: Progress, oldPrefix: string, newPrefix: string, paths: seq<string>, faults: Faults): Progress {
    if paths == [] then s
    else OnePath(CopyPaths(s, oldPrefix, newPrefix, paths[..|paths| - 1], faults), oldPrefix, newPrefix, paths[|paths| - 1], faults)
  }

  /** The paths that have no object under the prefix yet. */
  ghost function ToCopy(objects: Objects, prefix: string, paths: seq<string>): set<string> {
    set p | p in paths && Key(prefix, p) !in objects
  }

  /** Where the copy of these paths stands when it has not failed: these counts, and an object under each new key besides those that were there. */
  ghost predicate Copied(objects: Objects, prefix: string, paths: seq<string>, u: Progress) {
    && u.copied == |ToCopy(objects, prefix, paths)| && u.copied + u.skipped == |paths|
    && forall k :: k in u.objects <==> k in objects || exists p :: p in paths && Key(prefix, p) == k
  }

  /** When no call fails, the copy succeeds if and only if every path has an object under one of the prefixes; it then counts as copied
      exactly the paths that had none under the new one, and as skipped every other entry of the list. */
  lemma {:induction false} CopyWithoutFaults(objects: Objects, call: nat, oldPrefix: string, newPrefix: string, paths: seq<string>, faults: Faults)
    requires (forall i :: call <= i ==> faults(i) == Fine) && forall p :: p in paths ==> StoragePath(p)
    ensures var u := CopyPaths(Progress(objects, call, 0, 0, false), oldPrefix, newPrefix, paths, faults);
            && (!u.failed <==> forall p :: p in paths ==> Key(oldPrefix, p) in objects || Key(newPrefix, p) in objects)
            && (!u.failed ==> Copied(objects, newPrefix, paths, u))
            && call <= u.calls
  {
    hide Key, StoragePath, Copied, OnePath;
    if paths == [] {
      assert ToCopy(objects, newPrefix, paths) == {};
      assert Copied(objects, newPrefix, paths, Progress(objects, call, 0, 0, false)) by { NothingCopied(objects, newPrefix, call); }
    } else {
      var p, rest := paths[|paths| - 1], paths[..|paths| - 1];
      CopyWithoutFaults(objects, call, oldPrefix, newPrefix, rest, faults);
      var u := CopyPaths(Progress(objects, call, 0, 0, false), oldPrefix, newPrefix, rest, faults);
      assert paths == rest + [p];
      FailedStays(u, oldPrefix, newPrefix, p, faults);
      if !u.failed {
        CopyOneMore(objects, oldPrefix, newPrefix, rest, p, u, faults);
      }
    }
  }

  lemma NothingCopied(objects: Objects, prefix: string, call: nat)
    ensures Copied(objects, prefix, [], Progress(objects, call, 0, 0, false))
  {
    hide Key;
    assert ToCopy(objects, prefix, []) == {};
  }

  lemma FailedStays(u: Progress, oldPrefix: string, newPrefix: string, p: string, faults: Faults)
    ensures u.failed ==> OnePath(u, oldPrefix, newPrefix, p, faults) == u
    ensures u.calls <= OnePath(u, oldPrefix, newPrefix, p, faults).calls
  {
    hide Key;
  }

  lemma CopyOneMore(objects: Objects, oldPrefix: string, newPrefix: string, rest: seq<string>, p: string, u: Progress, faults: Faults)
    requires !u.failed && Copied(objects, newPrefix, rest, u) && faults(u.calls) == Fine && faults(u.calls + 1) == Fine
    requires StoragePath(p) && forall x :: x in rest ==> StoragePath(x)
    requires forall x :: x in rest ==> Key(oldPrefix, x) in objects || Key(newPrefix, x) in objects
    ensures var w := OnePath(u, oldPrefix, newPrefix, p, faults);
            && (!w.failed <==> Key(oldPrefix, p) in objects || Key(newPrefix, p) in objects)
            && (!w.failed ==> Copied(objects, newPrefix, rest + [p], w))
  {
    hide Key, StoragePath, ToCopy;
    var source, target := Key(oldPrefix, p), Key(newPrefix, p);
    forall x | x in rest && (Key(newPrefix, x) == target || Key(newPrefix, x) == source) ensures x == p {
      KeysCollideOnlyWhenEqual(newPrefix, x, newPrefix, p);
      KeysCollideOnlyWhenEqual(newPrefix, x, oldPrefix, p);
    }
    assert target in u.objects <==> target in objects || p in rest;
    assert source in u.objects ==> source in objects || p in rest;
    hide AfterCopy;
    if target in u.objects {
      SkippedOne(objects, newPrefix, rest, p, u);
    } else if source in u.objects {
      assert AfterCopy(u.objects, source, target, Fine) == u.objects[target := u.objects[source]] by { CopiedFine(u.objects, source, target); }
      CopiedOne(objects, newPrefix, rest, p, u, u.objects[source]);
    }
  }

  lemma CopiedFine(objects: Objects, source: string, target: string)
    requires source in objects
    ensures AfterCopy(objects, source, target, Fine) == objects[target := objects[source]]
  {
  }

  lemma SkippedOne(objects: Objects, prefix: string, rest: seq<string>, p: string, u: Progress)
    requires Copied(objects, prefix, rest, u) && Key(prefix, p) in u.objects
    requires Key(prefix, p) in objects || p in rest
    ensures Copied(objects, prefix, rest + [p], u.(calls := u.calls + 1, skipped := u.skipped + 1))
  {
    hide Key;
    OneMoreToCopy(objects, prefix, rest, p);
    assert forall x :: x in rest + [p] <==> x in rest || x == p;
    assert ToCopy(objects, prefix, rest + [p]) == ToCopy(objects, prefix, rest);
  }

  lemma CopiedOne(objects: Objects, prefix: string, rest: seq<string>, p: string, u: Progress, data: Bytes)
    requires Copied(objects, prefix, rest, u) && Key(prefix, p) !in objects && p !in rest
    ensures Copied(objects, prefix, rest + [p], u.(objects := u.objects[Key(prefix, p) := data], calls := u.calls + 2, copied := u.copied + 1))
  {
    hide Key;
    OneMoreToCopy(objects, prefix, rest, p);
    assert forall x :: x in rest + [p] <==> x in rest || x == p;
    assert p !in ToCopy(objects, prefix, rest);
    assert |ToCopy(objects, prefix, rest) + {p}| == |ToCopy(objects, prefix, rest)| + 1;
  }

  lemma OneMoreToCopy(objects: Objects, prefix: string, paths: seq<string>, p: string)
    ensures ToCopy(objects, prefix, paths + [p]) ==
            ToCopy(objects, prefix, paths) + if Key(prefix, p) in objects then {} else {p}
  {
    hide Key;
  }

  /** MigratePrefix: copy what is not there yet, in order; the first failed copy ends it. */
  method MigratePrefix(s3: S3, oldPrefix: string, newPrefix: string, paths: seq<string>, ghost originals: Originals)
    returns (copied: nat, skipped: nat, ok: bool, ghost reached: nat)
    requires Faithful(s3.objects, originals) && forall p :: p in paths ==> p in originals
    modifies s3
    ensures Faithful(s3.objects, originals)
    ensures reached <= |paths| && s3.objects == Migrated(old(s3.objects), newPrefix, paths[..reached], originals)
    ensures Progress(s3.objects, s3.calls, copied, skipped, !ok) ==
            CopyPaths(Progress(old(s3.objects), old(s3.calls), 0, 0, false), oldPrefix, newPrefix, paths, s3.faults)
    ensures ok ==> reached == |paths| && copied + skipped == |paths|
    ensures !ok ==> copied + skipped < |paths|
    ensures forall i :: 0 <= i < reached ==> Key(oldPrefix, paths[i]) in old(s3.objects) || Key(newPrefix, paths[i]) in old(s3.objects)
  {
    hide StoragePath, Faithful, Migrated, Clean, Split, Key, CopyPaths, TrimSlashes, JoinPrefix;
    MigratedNothing(s3.objects, newPrefix, originals);
    NoProgress(Progress(s3.objects, s3.calls, 0, 0, false), oldPrefix, newPrefix, s3.faults);
    assert paths[..0] == [];
    var oldTrimmed, newTrimmed := TrimSlashes(oldPrefix), TrimSlashes(newPrefix);
    TrimSlashesIdempotent(oldPrefix);
    TrimSlashesIdempotent(newPrefix);
    copied, skipped := 0, 0;
    ghost var start := Progress(s3.objects, s3.calls, 0, 0, false);
    for i := 0 to |paths|
      invariant copied + skipped == i
      invariant Progress(s3.objects, s3.calls, copied, skipped, false) == CopyPaths(start, oldPrefix, newPrefix, paths[..i], s3.faults)
      invariant Faithful(s3.objects, originals)
      invariant s3.objects == Migrated(old(s3.objects), newPrefix, paths[..i], originals)
      invariant forall j :: 0 <= j < i ==> Key(oldPrefix, paths[j]) in old(s3.objects) || Key(newPrefix, paths[j]) in old(s3.objects)
    {
      var p := paths[i];
      ghost var before := s3.objects;
      OneMoreProgress(start, oldPrefix, newPrefix, paths, i, s3.faults);
      OneMorePath(old(s3.objects), newPrefix, paths, originals, i);
      PutKeepsFaithful(before, originals, newPrefix, p);
      FaithfulAt(before, originals, oldPrefix, p);
      FaithfulAt(before, originals, newPrefix, p);
      OneOfThemWasThere(old(s3.objects), oldPrefix, newPrefix, paths[..i], originals, p);
      var oldKey, newKey := JoinPrefix(oldTrimmed, p), JoinPrefix(newTrimmed, p);
      KeyIsJoined(oldPrefix, p);
      KeyIsJoined(newPrefix, p);
      var head := s3.HeadObject(newKey);
      if head {
        skipped := skipped + 1;
        assert before[newKey := originals[p]] == before;
      } else {
        var done := s3.CopyObject(oldKey, newKey);
        if !done {
          reached := if s3.objects == before then i else i + 1;
          CopyStopped(start, oldPrefix, newPrefix, paths, i + 1, s3.faults);
          return copied, skipped, false, reached;
        }
        copied := copied + 1;
      }
    }
    assert paths[..|paths|] == paths;
    ok, reached := true, |paths|;
  }

  lemma NoProgress(s: Progress, oldPrefix: string, newPrefix: string, faults: Faults)
    ensures CopyPaths(s, oldPrefix, newPrefix, [], faults) == s
  {
  }

  lemma OneMoreProgress(s: Progress, oldPrefix: string, newPrefix: string, paths: seq<string>, i: nat, faults: Faults)
    requires i < |paths|
    ensures CopyPaths(s, oldPrefix, newPrefix, paths[..i + 1], faults) ==
            OnePath(CopyPaths(s, oldPrefix, newPrefix, paths[..i], faults), oldPrefix, newPrefix, paths[i], faults)
  {
    hide OnePath;
    assert paths[..i + 1][..i] == paths[..i];
  }

  /** After a failed copy nothing more is done. */
  lemma {:induction false} CopyStopped(s: Progress, oldPrefix: string, newPrefix: string, paths: seq<string>, n: nat, faults: Faults)
    requires n <= |paths| && CopyPaths(s, oldPrefix, newPrefix, paths[..n], faults).failed
    ensures CopyPaths(s, oldPrefix, newPrefix, paths, faults) == CopyPaths(s, oldPrefix, newPrefix, paths[..n], faults)
  {
    hide Key, AfterCopy;
    if n < |paths| {
      assert paths[..|paths| - 1][..n] == paths[..n];
      CopyStopped(s, oldPrefix, newPrefix, paths[..|paths| - 1], n, faults);
    } else {
      assert paths[..n] == paths;
    }
  }

  lemma {:induction false} MigratedIsFaithful(objects: Objects, prefix: string, paths: seq<string>, originals: Originals)
    requires Faithful(objects, originals) && forall p :: p in paths ==> p in originals
    ensures Faithful(Migrated(objects, prefix, paths, originals), originals)
  {
    hide Faithful;
    if paths != [] {
      MigratedIsFaithful(objects, prefix, paths[..|paths| - 1], originals);
      PutKeepsFaithful(Migrated(objects, prefix, paths[..|paths| - 1], originals), originals, prefix, paths[|paths| - 1]);
    }
  }

  /** The bucket after attempts that got `reached` paths far, one after the other. */
  ghost function AfterAttempts(objects: Objects, prefix: string, paths: seq<string>, originals: Originals, reached: seq<nat>): Objects
    requires (forall p :: p in paths ==> p in originals) && forall i :: 0 <= i < |reached| ==> reached[i] <= |paths|
  {
    if reached == [] then objects
    else
      Migrated(AfterAttempts(objects, prefix, paths, originals, reached[..|reached| - 1]), prefix, paths[..reached[|reached| - 1]], originals)
  }

  /** Any number of interrupted attempts followed by a success leaves the bucket of one uninterrupted run. */
  lemma {:induction false} AttemptsThenSuccess(objects: Objects, prefix: string, paths: seq<string>, originals: Originals, reached: seq<nat>)
    requires Faithful(objects, originals) && (forall p :: p in paths ==> p in originals) && forall i :: 0 <= i < |reached| ==> reached[i] <= |paths|
    ensures Faithful(AfterAttempts(objects, prefix, paths, originals, reached), originals)
    ensures Migrated(AfterAttempts(objects, prefix, paths, originals, reached), prefix, paths, originals) == Migrated(objects, prefix, paths, originals)
  {
    hide Faithful, Migrated;
    if reached != [] {
      var n := |reached| - 1;
      var before := AfterAttempts(objects, prefix, paths, originals, reached[..n]);
      AttemptsThenSuccess(objects, prefix, paths, originals, reached[..n]);
      MigratedIsFaithful(before, prefix, paths[..reached[n]], originals);
      ResumedEqualsUninterrupted(before, prefix, paths, originals, reached[n]);
    }
  }

  /** No object that was there changes, whatever the attempts. */
  lemma MigrationChangesNoObject(objects: Objects, prefix: string, paths: seq<string>, originals: Originals, k: string)
    requires Faithful(objects, originals) && (forall p :: p in paths ==> p in originals) && k in objects
    ensures k in Migrated(objects, prefix, paths, originals) && Migrated(objects, prefix, paths, originals)[k] == objects[k]
  {
    MigratedAt(objects, prefix, paths, originals, k);
  }

  // ---- a site over its deployments: each call of the job, each upload and each delete is one step ----

  /** The job that moves the objects: copying the listed paths, `done` of them so far, or finished with success. */
  datatype Job = Copying(from: string, configured: string, paths: seq<string>, done: nat) | Ready(configured: string)

  datatype Site = Site(
    objects: Objects,
    marker: Option<string>,      // the prefix recorded in the marker ConfigMap
    serving: string,             // the prefix the running server is configured with
    originals: Originals,        // the paths of the AVAILABLE rows, with their bytes
    used: set<string>,           // every path ever stored: file ids are not reused, so no path is
    job: Option<Job>)

  datatype Step =
    | First(configured: string, applied: bool, ok: bool)   // no marker: record the configured prefix; a failed call may have been applied
    | Unchanged(configured: string)                        // the marker is the configured prefix: nothing to do
    | Start(configured: string, paths: seq<string>)        // another prefix: list the paths
    | CopyNext(seen: bool, copied: bool, ok: bool)         // head, and copy unless the object is seen; a failed copy ends the job
    | Record(applied: bool, ok: bool)                      // all paths copied: update the marker
    | Fail                                                 // the job ends anywhere else
    | Switch                                               // the job succeeded: a server with the new prefix replaces the old one
    | Upload(path: string, data: Bytes)
    | Delete(path: string)                                 // copies under older prefixes stay
  {
    /** What the job itself does. */
    predicate OfJob() {
      !Switch? && !Upload? && !Delete?
    }
  }

  ghost predicate Lists(paths: seq<string>, originals: Originals) {
    forall p :: p in paths <==> p in originals
  }

  ghost predicate Next(s: Site, step: Step, s': Site) {
    match step
    case First(configured, applied, ok) =>
      && s.job.None? && s.marker.None? && (ok ==> applied)
      && s' == s.(marker := if applied then Some(configured) else None, job := if ok then Some(Ready(configured)) else None)
    case Unchanged(configured) =>
      s.job.None? && s.marker == Some(configured) && s' == s.(job := Some(Ready(configured)))
    case Start(configured, paths) =>
      && s.job.None? && s.marker.Some? && s.marker.value != configured && Lists(paths, s.originals)
      && s' == s.(job := Some(Copying(s.marker.value, configured, paths, 0)))
    case CopyNext(seen, copied, ok) =>
      && s.job.Some? && s.job.value.Copying? && s.job.value.done < |s.job.value.paths|
      && var job := s.job.value;
         var source, target := Key(job.from, job.paths[job.done]), Key(job.configured, job.paths[job.done]);
         var more := Some(job.(done := job.done + 1));
         if seen then target in s.objects && s' == s.(job := more)
         else
           && (ok ==> copied) && (copied ==> source in s.objects)
           && s' == s.(objects := if copied then s.objects[target := s.objects[source]] else s.objects, job := if ok then more else None)
    case Record(applied, ok) =>
      && s.job.Some? && s.job.value.Copying? && s.job.value.done == |s.job.value.paths| && (ok ==> applied)
      && var configured := s.job.value.configured;
         s' == s.(marker := if applied then Some(configured) else s.marker, job := if ok then Some(Ready(configured)) else None)
    case Fail => s' == s.(job := None)
    case Switch => s.job.Some? && s.job.value.Ready? && s' == s.(serving := s.job.value.configured, job := None)
    case Upload(path, data) =>
      && StoragePath(path) && path !in s.used
      && s' == s.(objects := s.objects[Key(s.serving, path) := data], originals := s.originals[path := data], used := s.used + {path})
    case Delete(path) =>
      && path in s.originals
      && s' == s.(objects := s.objects - {Key(s.serving, path)}, originals := s.originals - {path})
  }

  ghost predicate Run(states: seq<Site>, steps: seq<Step>) {
    |states| == |steps| + 1 && forall i :: 0 <= i < |steps| ==> Next(states[i], steps[i], states[i + 1])
  }

  /** No object of a path never stored. */
  ghost predicate Owned(objects: Objects, used: set<string>) {
    (forall p :: p in used ==> StoragePath(p)) && forall prefix, p :: StoragePath(p) && Key(prefix, p) in objects ==> p in used
  }

  /** Objects and rows fit together, whatever the marker says. */
  ghost predicate Sound(s: Site) {
    s.originals.Keys <= s.used && Faithful(s.objects, s.originals) && Owned(s.objects, s.used)
  }

  /** The recorded prefix has every file. */
  ghost predicate MarkerRight(s: Site) {
    s.marker.Some? ==> Complete(s.objects, s.marker.value, s.originals)
  }

  /** The server finds every file. */
  ghost predicate Serves(s: Site) {
    Complete(s.objects, s.serving, s.originals)
  }

  /** Both in terms of keys and bytes. */
  lemma RightMeans(s: Site)
    ensures Serves(s) <==> forall p :: p in s.originals ==> Key(s.serving, p) in s.objects && s.objects[Key(s.serving, p)] == s.originals[p]
    ensures s.marker.Some? ==>
              (MarkerRight(s) <==>
                 forall p :: p in s.originals ==> Key(s.marker.value, p) in s.objects && s.objects[Key(s.marker.value, p)] == s.originals[p])
  {
    hide Key;
  }

  /** Of the running job: every file is where it copies to, or still on its list. */
  ghost predicate JobRight(s: Site) {
    s.job.Some? ==>
      match s.job.value
      case Ready(configured) => s.marker == Some(configured)
      case Copying(_, configured, paths, done) =>
        && done <= |paths| && (forall p :: p in paths ==> p in s.used)
        && forall p :: p in s.originals ==> Key(configured, p) in s.objects || p in paths[done..]
  }

  ghost predicate Inv(s: Site) {
    Sound(s) && Serves(s) && MarkerRight(s) && JobRight(s)
  }

  /** A first record must be right already, and nothing may be uploaded to another directory than the one recorded or about to be. */
  ghost predicate Allowed(s: Site, step: Step) {
    match step
    case First(configured, applied, _) => applied ==> Complete(s.objects, configured, s.originals)
    case Upload(_, _) =>
      && (s.marker.Some? ==> Directory(s.marker.value) == Directory(s.serving))
      && (s.job.Some? ==> Directory(s.job.value.configured) == Directory(s.serving))
    case _ => true
  }

  // ---- what a write, an upload and a delete keep ----

  /** An object of one path written, under any prefix. */
  lemma WriteKeeps(objects: Objects, originals: Originals, used: set<string>, prefix: string, p: string, data: Bytes)
    requires Faithful(objects, originals) && Owned(objects, used) && p in used && (p in originals ==> data == originals[p])
    ensures var after := objects[Key(prefix, p) := data];
            && Faithful(after, originals) && Owned(after, used)
            && forall q :: Complete(objects, q, originals) ==> Complete(after, q, originals)
  {
    forall q, x | StoragePath(x) && Key(q, x) == Key(prefix, p) ensures x == p { KeysCollideOnlyWhenEqual(q, x, prefix, p); }
    hide Key, StoragePath;
  }

  /** A path never used before, uploaded under one prefix: it is found there, and elsewhere only under the same directory. */
  lemma UploadKeeps(objects: Objects, originals: Originals, used: set<string>, prefix: string, path: string, data: Bytes)
    requires Faithful(objects, originals) && Owned(objects, used) && originals.Keys <= used && StoragePath(path) && path !in used
    ensures var after, more := objects[Key(prefix, path) := data], originals[path := data];
            && Faithful(after, more) && Owned(after, used + {path})
            && forall q :: Complete(after, q, more) <==> Complete(objects, q, originals) && Directory(q) == Directory(prefix)
  {
    forall q, x | StoragePath(x) && Key(q, x) == Key(prefix, path) ensures x == path { KeysCollideOnlyWhenEqual(q, x, prefix, path); }
    var after, more := objects[Key(prefix, path) := data], originals[path := data];
    assert forall x :: x in originals ==> x != path && more[x] == originals[x];
    forall q ensures Key(q, path) in after <==> Directory(q) == Directory(prefix) { KeysCollideOnlyWhenEqual(q, path, prefix, path); }
    hide Key, StoragePath, Directory;
    forall q ensures Complete(after, q, more) <==> Complete(objects, q, originals) && Directory(q) == Directory(prefix) {
      UploadComplete(objects, originals, used, prefix, path, data, q);
    }
  }

  lemma UploadComplete(objects: Objects, originals: Originals, used: set<string>, prefix: string, path: string, data: Bytes, q: string)
    requires originals.Keys <= used && path !in used && StoragePath(path) && Faithful(objects, originals)
    requires var after := objects[Key(prefix, path) := data]; Key(q, path) in after <==> Directory(q) == Directory(prefix)
    requires Key(q, path) !in objects
    ensures Complete(objects[Key(prefix, path) := data], q, originals[path := data]) <==> Complete(objects, q, originals) && Directory(q) == Directory(prefix)
  {
    hide Key, StoragePath, Directory;
    forall x | x in originals ensures Key(q, x) != Key(prefix, path) { KeysCollideOnlyWhenEqual(q, x, prefix, path); }
    var after, more := objects[Key(prefix, path) := data], originals[path := data];
    if Complete(after, q, more) {
      assert path in more;
      forall x | x in originals ensures Key(q, x) in objects && objects[Key(q, x)] == originals[x] { assert x in more; }
    }
  }

  lemma UploadIsSound(s: Site, path: string, data: Bytes)
    requires Sound(s) && StoragePath(path) && path !in s.used
    ensures Sound(s.(objects := s.objects[Key(s.serving, path) := data], originals := s.originals[path := data], used := s.used + {path}))
  {
    hide Faithful, Owned, Complete, Key, StoragePath, Directory;
    UploadKeeps(s.objects, s.originals, s.used, s.serving, path, data);
  }

  lemma DeleteKeeps(objects: Objects, originals: Originals, used: set<string>, prefix: string, path: string)
    requires Faithful(objects, originals) && Owned(objects, used) && path in originals
    ensures var after, fewer := objects - {Key(prefix, path)}, originals - {path};
            && Faithful(after, fewer) && Owned(after, used)
            && (forall q :: Complete(objects, q, originals) ==> Complete(after, q, fewer))
            && forall q, x :: x in fewer && Key(q, x) in objects ==> Key(q, x) in after
  {
    forall q, x | x in originals && Key(q, x) == Key(prefix, path) ensures x == path { KeysCollideOnlyWhenEqual(q, x, prefix, path); }
    hide Key, StoragePath;
  }

  // ---- which steps keep everything right ----

  lemma CopyKeepsInv(s: Site, seen: bool, copied: bool, ok: bool, s': Site)
    requires Inv(s) && Next(s, CopyNext(seen, copied, ok), s')
    ensures Inv(s')
  {
    hide Faithful, Owned, Complete, Key, StoragePath;
    var job := s.job.value;
    var p := job.paths[job.done];
    assert p in job.paths && p in s.used;
    assert job.paths[job.done..] == [p] + job.paths[job.done + 1..];
    if !seen && copied {
      var data := s.objects[Key(job.from, p)];
      if p in s.originals { FaithfulAt(s.objects, s.originals, job.from, p); }
      WriteKeeps(s.objects, s.originals, s.used, job.configured, p, data);
    }
  }

  lemma RecordKeepsInv(s: Site, applied: bool, ok: bool, s': Site)
    requires Inv(s) && Next(s, Record(applied, ok), s')
    ensures Inv(s')
  {
    hide Owned, Key, StoragePath;
    var job := s.job.value;
    forall p | p in s.originals ensures Key(job.configured, p) in s.objects && s.objects[Key(job.configured, p)] == s.originals[p] {
      assert job.paths[job.done..] == [];
      FaithfulAt(s.objects, s.originals, job.configured, p);
    }
  }

  lemma DeleteKeepsInv(s: Site, path: string, s': Site)
    requires Inv(s) && Next(s, Delete(path), s')
    ensures Inv(s')
  {
    hide Faithful, Owned, Complete, Key, StoragePath;
    DeleteKeeps(s.objects, s.originals, s.used, s.serving, path);
  }

  lemma UploadIsRightIff(s: Site, path: string, data: Bytes, s': Site)
    requires Inv(s) && Next(s, Upload(path, data), s')
    ensures Inv(s') <==> Allowed(s, Upload(path, data))
  {
    hide Faithful, Owned, Complete, Key, StoragePath, Directory;
    UploadKeeps(s.objects, s.originals, s.used, s.serving, path, data);
    if s.job.Some? && s.job.value.Copying? {
      CoveredIff(s, path, data, s');
    }
  }

  /** While a job is copying, a new upload is not on its list, so it has to land where the job copies to. */
  lemma CoveredIff(s: Site, path: string, data: Bytes, s': Site)
    requires Sound(s) && JobRight(s) && Next(s, Upload(path, data), s') && s.job.Some? && s.job.value.Copying?
    ensures JobRight(s') <==> Directory(s.job.value.configured) == Directory(s.serving)
  {
    var job := s.job.value;
    KeysCollideOnlyWhenEqual(job.configured, path, s.serving, path);
    assert Key(job.configured, path) !in s.objects;
    hide Key, StoragePath, Directory, Faithful, Owned;
    assert path in s'.originals && path !in job.paths;
    assert path !in job.paths[job.done..];
    assert forall p :: p in s'.originals ==> p == path || p in s.originals;
  }

  /** A step keeps everything right if and only if it is an allowed one. */
  lemma StepIsRightIff(s: Site, step: Step, s': Site)
    requires Inv(s) && Next(s, step, s')
    ensures Inv(s') <==> Allowed(s, step)
  {
    match step {
      case CopyNext(seen, copied, ok) => CopyKeepsInv(s, seen, copied, ok, s');
      case Record(applied, ok) => RecordKeepsInv(s, applied, ok, s');
      case Delete(path) => DeleteKeepsInv(s, path, s');
      case Upload(path, data) => UploadIsRightIff(s, path, data, s');
      case First(_, _, _) =>
      case Unchanged(_) =>
      case Start(_, _) =>
      case Fail =>
      case Switch =>
    }
  }

  // ---- whole histories ----

  lemma {:induction false} RightSoFar(states: seq<Site>, steps: seq<Step>, i: nat)
    requires Run(states, steps) && Inv(states[0]) && i < |states| && forall j :: 0 <= j < i ==> Allowed(states[j], steps[j])
    ensures Inv(states[i])
  {
    hide Inv, Next, Allowed;
    if i > 0 {
      RightSoFar(states, steps, i - 1);
      StepIsRightIff(states[i - 1], steps[i - 1], states[i]);
    }
  }

  /** Over any history of deployments, failures, uploads and deletes, the recorded prefix and the served one have every file,
      as long as the first record was right and uploads go to the directory that is recorded or about to be. */
  lemma AnyHistory(states: seq<Site>, steps: seq<Step>, i: nat)
    requires Run(states, steps) && Inv(states[0]) && i < |states| && forall j :: 0 <= j < |steps| ==> Allowed(states[j], steps[j])
    ensures MarkerRight(states[i]) && Serves(states[i])
  {
    RightSoFar(states, steps, i);
    hide Next, Allowed, Sound, Complete;
  }

  /** And that is the exact condition: a history keeps everything right throughout if and only if each of its steps is allowed. */
  lemma HistoryIsRightIff(states: seq<Site>, steps: seq<Step>)
    requires Run(states, steps) && Inv(states[0])
    ensures (forall i :: 0 <= i < |states| ==> Inv(states[i])) <==> forall j :: 0 <= j < |steps| ==> Allowed(states[j], steps[j])
  {
    hide Inv, Next, Allowed;
    if forall j :: 0 <= j < |steps| ==> Allowed(states[j], steps[j]) {
      forall i | 0 <= i < |states| ensures Inv(states[i]) { RightSoFar(states, steps, i); }
    }
    if forall i :: 0 <= i < |states| ==> Inv(states[i]) {
      forall j | 0 <= j < |steps| ensures Allowed(states[j], steps[j]) {
        assert Inv(states[j]) && Inv(states[j + 1]);
        StepIsRightIff(states[j], steps[j], states[j + 1]);
      }
    }
  }

  // ---- what a user can see of it ----

  /** Of the running job: what it is done with is where it copies to. Unlike JobRight this says nothing of files it has not listed. */
  ghost predicate JobSoFar(s: Site) {
    s.job.Some? ==>
      match s.job.value
      case Ready(configured) => s.marker == Some(configured)
      case Copying(_, configured, paths, done) =>
        && done <= |paths| && (forall p :: p in paths ==> p in s.used)
        && forall i :: 0 <= i < done && paths[i] in s.originals ==> Key(configured, paths[i]) in s.objects
  }

  /** A first record must be right already, an upload goes to the recorded directory, and a record finds every file the job has not
      listed in place; where uploads go while the job copies does not matter unless it gets that far. */
  ghost predicate Harmless(s: Site, step: Step) {
    match step
    case First(configured, applied, _) => applied ==> Complete(s.objects, configured, s.originals)
    case Upload(_, _) => s.marker.Some? ==> Directory(s.marker.value) == Directory(s.serving)
    case Record(applied, _) =>
      applied && s.job.Some? && s.job.value.Copying? ==>
        forall p :: p in s.originals && p !in s.job.value.paths ==> Key(s.job.value.configured, p) in s.objects
    case _ => true
  }

  ghost predicate Found(s: Site) {
    MarkerRight(s) && Serves(s)
  }

  lemma CopyKeepsFound(s: Site, seen: bool, copied: bool, ok: bool, s': Site)
    requires Sound(s) && Found(s) && JobSoFar(s) && Next(s, CopyNext(seen, copied, ok), s')
    ensures Sound(s') && Found(s') && JobSoFar(s')
  {
    hide Faithful, Owned, Complete, Key, StoragePath;
    var job := s.job.value;
    var p := job.paths[job.done];
    assert p in job.paths && p in s.used;
    if !seen && copied {
      var data := s.objects[Key(job.from, p)];
      if p in s.originals { FaithfulAt(s.objects, s.originals, job.from, p); }
      WriteKeeps(s.objects, s.originals, s.used, job.configured, p, data);
    }
  }

  lemma RecordIsFoundIff(s: Site, applied: bool, ok: bool, s': Site)
    requires Sound(s) && Found(s) && JobSoFar(s) && Next(s, Record(applied, ok), s')
    ensures Sound(s') && JobSoFar(s') && (Found(s') <==> Harmless(s, Record(applied, ok)))
  {
    hide Owned, Key, StoragePath;
    var job := s.job.value;
    if applied {
      if Harmless(s, Record(applied, ok)) {
        forall p | p in s.originals ensures Key(job.configured, p) in s.objects && s.objects[Key(job.configured, p)] == s.originals[p] {
          if p in job.paths {
            var i :| 0 <= i < |job.paths| && job.paths[i] == p;
          }
          FaithfulAt(s.objects, s.originals, job.configured, p);
        }
      }
    }
  }

  lemma UploadIsFoundIff(s: Site, path: string, data: Bytes, s': Site)
    requires Sound(s) && Found(s) && JobSoFar(s) && Next(s, Upload(path, data), s')
    ensures Sound(s') && JobSoFar(s') && (Found(s') <==> Harmless(s, Upload(path, data)))
  {
    hide Faithful, Owned, Complete, Key, StoragePath, Directory;
    UploadKeeps(s.objects, s.originals, s.used, s.serving, path, data);
  }

  /** A step leaves every file where the recorded and the served prefix say if and only if it is a harmless one. */
  lemma StepIsFoundIff(s: Site, step: Step, s': Site)
    requires Sound(s) && Found(s) && JobSoFar(s) && Next(s, step, s')
    ensures Sound(s') && JobSoFar(s') && (Found(s') <==> Harmless(s, step))
  {
    match step {
      case CopyNext(seen, copied, ok) => CopyKeepsFound(s, seen, copied, ok, s');
      case Record(applied, ok) => RecordIsFoundIff(s, applied, ok, s');
      case Upload(path, data) => UploadIsFoundIff(s, path, data, s');
      case Delete(path) =>
        hide Faithful, Owned, Complete, Key, StoragePath;
        DeleteKeeps(s.objects, s.originals, s.used, s.serving, path);
      case First(_, _, _) =>
      case Unchanged(_) =>
      case Start(_, _) =>
      case Fail =>
      case Switch =>
    }
  }

  /** Every prefix of a history up to a harmful step keeps what the next step needs. */
  lemma {:induction false} FoundSoFar(states: seq<Site>, steps: seq<Step>, i: nat)
    requires Run(states, steps) && Sound(states[0]) && Found(states[0]) && JobSoFar(states[0]) && i < |states|
    requires forall j :: 0 <= j <= i ==> Found(states[j]) || forall k :: 0 <= k < j ==> Harmless(states[k], steps[k])
    ensures Sound(states[i]) && JobSoFar(states[i]) && Found(states[i])
  {
    hide Sound, Found, JobSoFar, Next, Harmless;
    if i > 0 {
      FoundSoFar(states, steps, i - 1);
      StepIsFoundIff(states[i - 1], steps[i - 1], states[i]);
    }
  }

  /** The recorded and the served prefix have every file throughout a history if and only if each of its steps is harmless. */
  lemma FilesAreFoundIff(states: seq<Site>, steps: seq<Step>)
    requires Run(states, steps) && Sound(states[0]) && Found(states[0]) && JobSoFar(states[0])
    ensures (forall i :: 0 <= i < |states| ==> Found(states[i])) <==> forall j :: 0 <= j < |steps| ==> Harmless(states[j], steps[j])
  {
    hide Sound, Found, JobSoFar, Next, Harmless;
    if forall j :: 0 <= j < |steps| ==> Harmless(states[j], steps[j]) {
      forall i | 0 <= i < |states| ensures Found(states[i]) { FoundSoFar(states, steps, i); }
    }
    if forall i :: 0 <= i < |states| ==> Found(states[i]) {
      forall j | 0 <= j < |steps| ensures Harmless(states[j], steps[j]) {
        FoundSoFar(states, steps, j);
        StepIsFoundIff(states[j], steps[j], states[j + 1]);
        assert Found(states[j + 1]);
      }
    }
  }

  /** A file the running job has not listed, in a directory it does not copy to. */
  ghost predicate Missed(s: Site, path: string) {
    && s.job.Some? && s.job.value.Copying? && StoragePath(path) && path in s.originals
    && (forall p :: p in s.job.value.paths ==> StoragePath(p) && p != path) && Key(s.job.value.configured, path) !in s.objects
  }

  lemma StaysMissed(s: Site, step: Step, s': Site, path: string)
    requires Missed(s, path) && Next(s, step, s') && step.OfJob()
    ensures step.Record? || s'.job.None? || Missed(s', path)
    ensures step.Record? && step.applied ==> !MarkerRight(s')
  {
    if step.CopyNext? {
      var job := s.job.value;
      var p := job.paths[job.done];
      assert p in job.paths;
      KeysCollideOnlyWhenEqual(job.configured, p, job.configured, path);
    }
    hide Key, StoragePath;
  }

  /** Uploading elsewhere while the job copies is no harm at that moment, but if the job then finishes, what it records lacks the file. */
  lemma {:induction false} LateUploadIsMissed(states: seq<Site>, steps: seq<Step>, path: string)
    requires Run(states, steps) && |steps| > 0 && Missed(states[0], path)
    requires forall j :: 0 <= j < |steps| - 1 ==> steps[j].CopyNext?
    requires steps[|steps| - 1].Record? && steps[|steps| - 1].applied
    ensures !MarkerRight(states[|steps|])
    decreases |steps|
  {
    hide Missed, MarkerRight;
    assert Next(states[0], steps[0], states[1]);
    StaysMissed(states[0], steps[0], states[1], path);
    if |steps| > 1 {
      assert Next(states[1], steps[1], states[2]);
      assert states[1].job.Some?;
      hide Next;
      assert forall j :: 0 <= j < |steps| - 1 ==> Next(states[1..][j], steps[1..][j], states[1..][j + 1]);
      LateUploadIsMissed(states[1..], steps[1..], path);
    }
  }

  // ---- histories that are not allowed ----

  lemma RetryCopiesNothing(s: Site, configured: string, path: string, data: Bytes) returns (s1: Site, s2: Site, s3: Site)
    requires s.job.None? && s.marker == Some(configured) && StoragePath(path) && path !in s.used && Owned(s.objects, s.used)
    requires Directory(configured) != Directory(s.serving)
    ensures Next(s, Upload(path, data), s1) && Next(s1, Unchanged(configured), s2) && Next(s2, Switch, s3)
    ensures s3.serving == configured && path in s3.originals && Key(configured, path) !in s3.objects
  {
    KeysCollideOnlyWhenEqual(configured, path, s.serving, path);
    assert Key(configured, path) !in s.objects;
    hide Key, StoragePath, Directory, Owned;
    s1 := s.(objects := s.objects[Key(s.serving, path) := data], originals := s.originals[path := data], used := s.used + {path});
    s2 := s1.(job := Some(Ready(configured)));
    s3 := s1.(serving := configured);
  }

  lemma RecordedUnlooked(s: Site, configured: string) returns (s1: Site)
    requires s.job.None? && s.marker.None?
    ensures Next(s, First(configured, true, true), s1) && Next(s1, Switch, s.(marker := Some(configured), serving := configured))
  {
    hide Key, StoragePath;
    s1 := s.(marker := Some(configured), job := Some(Ready(configured)));
  }

  lemma FirstUpload(s: Site, configured: string, path: string, data: Bytes) returns (s1: Site)
    requires Inv(s) && s.job.None? && s.marker.None? && StoragePath(path) && path !in s.used && Directory(configured) != Directory(s.serving)
    ensures Next(s, Upload(path, data), s1) && Inv(s1) && s1.job.None? && s1.marker.None?
    ensures path in s1.originals && Key(configured, path) !in s1.objects
  {
    KeysCollideOnlyWhenEqual(configured, path, s.serving, path);
    assert Key(configured, path) !in s.objects;
    hide Key, StoragePath, Directory;
    s1 := s.(objects := s.objects[Key(s.serving, path) := data], originals := s.originals[path := data], used := s.used + {path});
    StepIsRightIff(s, Upload(path, data), s1);
  }

  /** A first deployment with another prefix than the one in use records it without looking, and the new server does not find the files. */
  lemma WrongFirstRecord(s: Site, configured: string, path: string, data: Bytes) returns (states: seq<Site>, steps: seq<Step>)
    requires Inv(s) && s.job.None? && s.marker.None? && StoragePath(path) && path !in s.used && Directory(configured) != Directory(s.serving)
    ensures Run(states, steps) && states[0] == s
    ensures steps == [Upload(path, data), First(configured, true, true), Switch] && Inv(states[1]) && !Serves(states[3])
  {
    hide Next, Inv, Key, StoragePath, Directory, Serves;
    var s1 := FirstUpload(s, configured, path, data);
    var s2 := RecordedUnlooked(s1, configured);
    var s3 := s1.(marker := Some(configured), serving := configured);
    NotServed(s3, path);
    states, steps := [s, s1, s2, s3], [Upload(path, data), First(configured, true, true), Switch];
  }

  lemma NotServed(s: Site, path: string)
    requires path in s.originals && Key(s.serving, path) !in s.objects
    ensures !Serves(s)
  {
    hide Key;
  }

  /** A first record is right exactly when there is an object for every file under it; nothing else needs to be looked at. */
  lemma FirstRecordIsRightIff(s: Site, configured: string, ok: bool, s': Site)
    requires Inv(s) && Next(s, First(configured, true, ok), s')
    ensures MarkerRight(s') <==> forall p :: p in s.originals ==> Key(configured, p) in s.objects
  {
    hide Owned, Key, StoragePath;
  }

  /** In a bucket without copies of the files under the configured directory, that means: it is the directory in use, or nothing is stored. */
  lemma FirstMarkerIsRightWhenServed(s: Site, configured: string, ok: bool, s': Site)
    requires Inv(s) && Next(s, First(configured, true, ok), s')
    requires Directory(configured) != Directory(s.serving) ==> forall p :: p in s.originals ==> Key(configured, p) !in s.objects
    ensures MarkerRight(s') <==> s.originals == map[] || Directory(configured) == Directory(s.serving)
  {
    FirstRecordIsRightIff(s, configured, ok, s');
    if Directory(configured) == Directory(s.serving) {
      forall p | p in s.originals ensures Key(configured, p) == Key(s.serving, p) { KeysCollideOnlyWhenEqual(configured, p, s.serving, p); }
    }
    hide Key, Directory, StoragePath, MarkerRight;
    if s.originals != map[] {
      var p :| p in s.originals;
    }
  }

  // ---- the code ----

  /** The job takes a site from s to u, its own steps only. */
  ghost predicate JobRun(s: Site, u: Site) {
    exists states, steps :: RunOfJob(states, steps, s, u)
  }

  ghost predicate RunOfJob(states: seq<Site>, steps: seq<Step>, s: Site, u: Site) {
    Run(states, steps) && states[0] == s && states[|steps|] == u && forall j :: 0 <= j < |steps| ==> steps[j].OfJob()
  }

  lemma NoSteps(s: Site)
    ensures JobRun(s, s)
  {
    var states: seq<Site>, steps: seq<Step> := [s], [];
    assert RunOfJob(states, steps, s, s);
  }

  lemma OneMoreStep(s: Site, u: Site, step: Step, u': Site)
    requires JobRun(s, u) && Next(u, step, u') && step.OfJob()
    ensures JobRun(s, u')
  {
    hide Next, Step.OfJob;
    var states, steps :| RunOfJob(states, steps, s, u);
    var states', steps' := states + [u'], steps + [step];
    assert Run(states', steps') by {
      forall i | 0 <= i < |steps'| ensures Next(states'[i], steps'[i], states'[i + 1]) {
        if i < |steps| { assert Next(states[i], steps[i], states[i + 1]); }
      }
    }
    assert RunOfJob(states', steps', s, u');
  }

  /** Copying the first `done` paths is a run of copy steps. */
  lemma {:induction false} CopiesAreSteps(s: Site, from: string, configured: string, paths: seq<string>, done: nat)
    requires Faithful(s.objects, s.originals) && (forall p :: p in paths ==> p in s.originals) && done <= |paths|
    requires forall i :: 0 <= i < done ==> Key(from, paths[i]) in s.objects || Key(configured, paths[i]) in s.objects
    ensures JobRun(s.(job := Some(Copying(from, configured, paths, 0))),
                   s.(objects := Migrated(s.objects, configured, paths[..done], s.originals), job := Some(Copying(from, configured, paths, done))))
  {
    hide Faithful, Key, JobRun, Migrated;
    var s0 := s.(job := Some(Copying(from, configured, paths, 0)));
    if done == 0 {
      assert Migrated(s.objects, configured, paths[..0], s.originals) == s.objects by { MigratedNothing(s.objects, configured, s.originals); }
      NoSteps(s0);
    } else {
      CopiesAreSteps(s, from, configured, paths, done - 1);
      OneMoreCopied(s, from, configured, paths, done - 1);
    }
  }

  lemma OneMoreCopied(s: Site, from: string, configured: string, paths: seq<string>, done: nat)
    requires Faithful(s.objects, s.originals) && (forall p :: p in paths ==> p in s.originals) && done < |paths|
    requires Key(from, paths[done]) in s.objects || Key(configured, paths[done]) in s.objects
    requires var s0 := s.(job := Some(Copying(from, configured, paths, 0)));
             JobRun(s0, s.(objects := Migrated(s.objects, configured, paths[..done], s.originals), job := Some(Copying(from, configured, paths, done))))
    ensures var s0 := s.(job := Some(Copying(from, configured, paths, 0)));
            JobRun(s0, s.(objects := Migrated(s.objects, configured, paths[..done + 1], s.originals), job := Some(Copying(from, configured, paths, done + 1))))
  {
    var p, half := paths[done], Migrated(s.objects, configured, paths[..done], s.originals);
    assert p in paths;
    OneMorePath(s.objects, configured, paths, s.originals, done);
    hide Faithful, Key, JobRun, Migrated, Next;
    MigratedAt(s.objects, configured, paths[..done], s.originals, Key(configured, p));
    MigratedAt(s.objects, configured, paths[..done], s.originals, Key(from, p));
    MigratedIsFaithful(s.objects, configured, paths[..done], s.originals);
    var here := s.(objects := half, job := Some(Copying(from, configured, paths, done)));
    var step := CopyNext(Key(configured, p) in half, true, true);
    CopiedNext(here, from, configured, paths, done);
    OneMoreStep(s.(job := Some(Copying(from, configured, paths, 0))), here, step,
                here.(objects := half[Key(configured, p) := s.originals[p]], job := Some(Copying(from, configured, paths, done + 1))));
  }

  lemma CopiedNext(s: Site, from: string, configured: string, paths: seq<string>, done: nat)
    requires s.job == Some(Copying(from, configured, paths, done)) && done < |paths| && paths[done] in s.originals && Faithful(s.objects, s.originals)
    requires Key(from, paths[done]) in s.objects || Key(configured, paths[done]) in s.objects
    ensures var target := Key(configured, paths[done]);
            Next(s, CopyNext(target in s.objects, true, true),
                 s.(objects := s.objects[target := s.originals[paths[done]]], job := Some(Copying(from, configured, paths, done + 1))))
  {
    var p := paths[done];
    FaithfulAt(s.objects, s.originals, configured, p);
    FaithfulAt(s.objects, s.originals, from, p);
    hide Faithful, Key;
    if Key(configured, p) in s.objects {
      assert s.objects[Key(configured, p) := s.originals[p]] == s.objects;
    }
  }

  lemma {:induction false} SomeListing(keys: set<string>) returns (paths: seq<string>)
    ensures forall p :: p in paths <==> p in keys
    decreases |keys|
  {
    if keys == {} {
      paths := [];
    } else {
      var k :| k in keys;
      var rest := SomeListing(keys - {k});
      paths := rest + [k];
    }
  }

  lemma RunsConcatenate(before: seq<Site>, first: seq<Step>, after: seq<Site>, second: seq<Step>)
    requires Run(before, first) && Run(after, second) && after[0] == before[|first|]
    ensures Run(before + after[1..], first + second)
  {
    hide Next;
    var states, steps := before + after[1..], first + second;
    forall i | 0 <= i < |steps| ensures Next(states[i], steps[i], states[i + 1]) {
      if i < |first| {
        assert Next(before[i], first[i], before[i + 1]);
      } else {
        assert Next(after[i - |first|], second[i - |first|], after[i - |first| + 1]);
      }
    }
  }

  /** The marker is updated but the call reports a failure. The old server goes on and takes an upload; the retry finds the marker
      as it should be and copies nothing; and the new server does not find the file. The first `n` steps are the job's, up to the update. */
  lemma UploadAfterFailedRecord(s: Site, configured: string, path: string, data: Bytes) returns (states: seq<Site>, steps: seq<Step>, n: nat)
    requires Inv(s) && s.job.None? && s.marker.Some? && s.marker.value != configured
    requires Directory(configured) != Directory(s.serving) && StoragePath(path) && path !in s.used
    ensures Run(states, steps) && states[0] == s && |steps| == n + 4
    ensures (forall j :: 0 <= j < n ==> steps[j].OfJob()) && steps[n..] == [Record(true, false), Upload(path, data), Unchanged(configured), Switch]
    ensures var last := states[n + 4]; last.serving == configured && path in last.originals && Key(configured, path) !in last.objects && !Serves(last)
  {
    hide Key, StoragePath, Directory, Faithful, Owned, Complete, Migrated;
    var paths := SomeListing(s.originals.Keys);
    var here := CopiedByJob(s, configured, paths);
    hide Next, Inv, Serves;
    var before, first :| RunOfJob(before, first, s, here);
    var s2 := here.(marker := Some(configured), job := None);
    RecordNext(here, s2);
    var s3, s4, s5 := RetryCopiesNothing(s2, configured, path, data);
    var after, second := [here, s2, s3, s4, s5], [Record(true, false), Upload(path, data), Unchanged(configured), Switch];
    RunsConcatenate(before, first, after, second);
    NotServed(s5, path);
    states, steps, n := before + after[1..], first + second, |first|;
  }

  lemma CopiedByJob(s: Site, configured: string, paths: seq<string>) returns (here: Site)
    requires Inv(s) && s.job.None? && s.marker.Some? && s.marker.value != configured && Lists(paths, s.originals)
    ensures JobRun(s, here) && here.job == Some(Copying(s.marker.value, configured, paths, |paths|))
    ensures here == s.(objects := here.objects, job := here.job) && Owned(here.objects, here.used)
  {
    hide Key, StoragePath, Migrated, JobRun, Faithful, Owned;
    var start := s.(job := Some(Copying(s.marker.value, configured, paths, 0)));
    NoSteps(s);
    OneMoreStep(s, s, Start(configured, paths), start);
    CopiesAreSteps(s, s.marker.value, configured, paths, |paths|);
    here := s.(objects := Migrated(s.objects, configured, paths[..|paths|], s.originals), job := Some(Copying(s.marker.value, configured, paths, |paths|)));
    RunsJoin(s, start, here);
    MigrationKeeps(s, configured, paths[..|paths|]);
  }

  lemma RecordNext(s: Site, s': Site)
    requires s.job.Some? && s.job.value.Copying? && s.job.value.done == |s.job.value.paths|
    requires s' == s.(marker := Some(s.job.value.configured), job := None)
    ensures Next(s, Record(true, false), s')
  {
    hide Key, StoragePath;
  }

  class Instance {
    const s3: S3
    /** The prefix recorded in the marker ConfigMap. */
    var marker: Option<string>
    /** The prefix the running server is configured with. */
    var serving: string
    /** The storage paths of the AVAILABLE rows. */
    var manifest: set<string>
    ghost var originals: Originals
    ghost var used: set<string>

    constructor (serving: string, faults: Faults)
      ensures Valid() && fresh(s3) && s3.faults == faults && Now() == Site(map[], None, serving, map[], {}, None)
    {
      var b := new S3(faults);
      s3, marker, manifest, originals, used := b, None, {}, map[], {};
      this.serving := serving;
    }

    ghost function Now(): Site
      reads this, s3
    {
      Site(s3.objects, marker, serving, originals, used, None)
    }

    /** Rows and objects fit together, whatever the marker says. */
    ghost predicate Valid()
      reads this, s3
    {
      originals.Keys == manifest && Sound(Now())
    }

    /** Whether the next call outside fails. */
    method Fails() returns (fails: bool)
    {
      fails := *;
    }

    /** A write of the marker: one that reports a failure may have been applied all the same. */
    method WriteMarker(configured: string) returns (ok: bool)
      modifies this`marker
      ensures marker == Some(configured) || (!ok && marker == old(marker))
    {
      ok := *;
      var applied: bool := *;
      if ok || applied {
        marker := Some(configured);
      }
    }

    /** ListAvailableS3FilePaths */
    method ListAvailablePaths() returns (paths: seq<string>)
      ensures forall p :: p in paths <==> p in manifest
    {
      paths := [];
      var todo := manifest;
      while todo != {}
        invariant todo <= manifest && forall p :: p in paths <==> p in manifest && p !in todo
        decreases |todo|
      {
        var p :| p in todo;
        todo, paths := todo - {p}, paths + [p];
      }
    }

    /** runMigrateS3Prefix: without a marker the prefix is recorded as it is; a changed prefix is copied first and recorded last. */
    method MigrateS3Prefix(configured: string) returns (ok: bool)
      requires Valid()
      modifies this`marker, s3
      ensures Valid()
      ensures JobRun(old(Now()), Now().(job := if ok then Some(Ready(configured)) else None))
      ensures ok ==> marker == Some(configured)
      ensures !ok ==> marker == old(marker) || marker == Some(configured)
      ensures old(marker).Some? && marker != old(marker) ==> MarkerRight(Now())
      ensures forall k :: k in old(s3.objects) ==> k in s3.objects && s3.objects[k] == old(s3.objects)[k]
      ensures old(marker).None? || old(marker) == Some(configured) ==> s3.objects == old(s3.objects)
    {
      hide Faithful, Owned, Complete, JobRun;
      ghost var s := Now();
      NoSteps(s);
      var failed := Fails();
      if failed {
        return false;
      }
      if marker.None? {
        ok := WriteMarker(configured);
        OneMoreStep(s, s, First(configured, marker.Some?, ok), Now().(job := if ok then Some(Ready(configured)) else None));
        return;
      }
      if marker.value == configured {
        OneMoreStep(s, s, Unchanged(configured), s.(job := Some(Ready(configured))));
        return true;
      }
      failed := Fails();
      if failed {
        return false;
      }
      var paths := ListAvailablePaths();
      ok := CopyAndRecord(configured, paths);
    }

    /** The rest of the job once the paths are listed. */
    method CopyAndRecord(configured: string, paths: seq<string>) returns (ok: bool)
      requires Valid() && marker.Some? && marker.value != configured && Lists(paths, originals)
      modifies this`marker, s3
      ensures Valid()
      ensures JobRun(old(Now()), Now().(job := if ok then Some(Ready(configured)) else None))
      ensures marker == Some(configured) || (!ok && marker == old(marker))
      ensures marker != old(marker) ==> MarkerRight(Now())
      ensures forall k :: k in old(s3.objects) ==> k in s3.objects && s3.objects[k] == old(s3.objects)[k]
    {
      hide Faithful, Owned, Key, Migrated, JobRun, Complete;
      ghost var s := Now();
      NoSteps(s);
      var prefix := marker.value;
      ghost var start := s.(job := Some(Copying(prefix, configured, paths, 0)));
      OneMoreStep(s, s, Start(configured, paths), start);
      var copied, skipped, done;
      ghost var reached;
      copied, skipped, done, reached := MigratePrefix(s3, prefix, configured, paths, originals);
      ghost var here := s.(objects := s3.objects, job := Some(Copying(prefix, configured, paths, reached)));
      CopiesAreSteps(s, prefix, configured, paths, reached);
      RunsJoin(s, start, here);
      MigrationKeeps(s, configured, paths[..reached]);
      if !done {
        OneMoreStep(s, here, Fail, here.(job := None));
        return false;
      }
      assert paths[..reached] == paths;
      MigratedIsComplete(s.objects, configured, paths, originals);
      ok := WriteMarker(configured);
      OneMoreStep(s, here, Record(marker == Some(configured), ok), Now().(job := if ok then Some(Ready(configured)) else None));
    }

    /** An upgrade: the job first, and the new server only if the job succeeded. */
    method Deploy(configured: string) returns (ok: bool)
      requires Valid()
      modifies this`marker, this`serving, s3
      ensures Valid()
      ensures var served := Now().(serving := old(serving), job := if ok then Some(Ready(configured)) else None);
              && JobRun(old(Now()), served)
              && if ok then Next(served, Switch, Now()) else served == Now()
      ensures ok ==> serving == configured && marker == Some(configured)
      ensures ok && old(marker).Some? && old(marker) != Some(configured) ==> Serves(Now())
    {
      hide JobRun, Faithful, Owned, Complete;
      ok := MigrateS3Prefix(configured);
      if ok {
        serving := configured;
      }
    }

    /** A finished upload, of a path never used before. */
    method Upload(path: string, data: Bytes)
      requires Valid() && StoragePath(path) && path !in used
      modifies this`manifest, this`originals, this`used, s3`objects
      ensures Valid() && Next(old(Now()), Step.Upload(path, data), Now())
    {
      UploadIsSound(Now(), path, data);
      AnyUploadIsAStep(Now(), path, data);
      hide Sound, Key, StoragePath, Next;
      s3.PutObject(Key(serving, path), data);
      manifest, originals, used := manifest + {path}, originals[path := data], used + {path};
    }

    /** A file deleted: its row, and its object under the prefix being served. Copies under older prefixes stay. */
    method Delete(path: string)
      requires Valid() && path in manifest
      modifies this`manifest, this`originals, s3`objects
      ensures Valid() && Next(old(Now()), Step.Delete(path), Now())
    {
      DeleteKeeps(s3.objects, originals, used, serving, path);
      hide Faithful, Owned, Complete, Key, StoragePath;
      s3.DeleteObject(Key(serving, path));
      manifest, originals := manifest - {path}, originals - {path};
    }
  }

  lemma AnyUploadIsAStep(s: Site, path: string, data: Bytes)
    requires StoragePath(path) && path !in s.used
    ensures Next(s, Upload(path, data),
                 s.(objects := s.objects[Key(s.serving, path) := data], originals := s.originals[path := data], used := s.used + {path}))
  {
    hide Key, StoragePath;
  }

  lemma RunsJoin(s: Site, u: Site, w: Site)
    requires JobRun(s, u) && JobRun(u, w)
    ensures JobRun(s, w)
  {
    hide Next, Step.OfJob;
    var before, first :| RunOfJob(before, first, s, u);
    var after, second :| RunOfJob(after, second, u, w);
    var states, steps := before + after[1..], first + second;
    RunsConcatenate(before, first, after, second);
    assert RunOfJob(states, steps, s, w);
  }

  lemma MigrationKeeps(s: Site, prefix: string, paths: seq<string>)
    requires Sound(s) && forall p :: p in paths ==> p in s.originals
    ensures var m := Migrated(s.objects, prefix, paths, s.originals);
            Sound(s.(objects := m)) && forall k :: k in s.objects ==> k in m && m[k] == s.objects[k]
  {
    MigratedIsFaithful(s.objects, prefix, paths, s.originals);
    var m := Migrated(s.objects, prefix, paths, s.originals);
    hide Migrated, StoragePath, Key, Faithful;
    forall k | k in s.objects ensures k in m && m[k] == s.objects[k] { MigrationChangesNoObject(s.objects, prefix, paths, s.originals, k); }
    forall q, x | StoragePath(x) && Key(q, x) in m ensures x in s.used {
      MigratedAt(s.objects, prefix, paths, s.originals, Key(q, x));
      if p :| p in paths && Key(prefix, p) == Key(q, x) {
        KeysCollideOnlyWhenEqual(prefix, p, q, x);
      }
    }
  }
}
