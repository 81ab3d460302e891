/** The storage backend: any call may fail, and a failed one may still have had its effect, or part of it. */
module Storage {
  import opened Wrappers
  import opened Schema
  import opened StoragePaths
  import opened StoredObjects

  /** What happens to one call: nothing wrong, never carried out, carried out without the caller hearing so, or cut off half way. */
  datatype Fault = Fine | Refused | ReplyLost | CutOff(left: Bytes)

  function AfterStore(b: Bucket, path: string, data: Bytes, fault: Fault): Bucket {
    match fault
    case Fine => b.Put(path, data)
    case ReplyLost => b.Put(path, data)
    case Refused => b
    case CutOff(left) => b.Put(path, left)
  }

  function AfterDelete(b: Bucket, path: string, fault: Fault): Bucket {
    if fault == Fine || fault == ReplyLost then b.Remove(path) else b
  }

  /** Which calls fail, by their number. */
  type Faults = nat -> Fault

  /** The bucket after one delete call for each listed file, the first of them being call number `call`. */
  ghost function AfterSweep(b: Bucket, refs: seq<FileRef>, faults: Faults, call: nat): (after: Bucket)
    ensures after.prefix == b.prefix
  {
    if refs == [] then b
    else
      var n := |refs| - 1;
      AfterDelete(AfterSweep(b, refs[..n], faults, call), FileObjectPath(refs[n]), faults(call + n))
  }

  /** The keys whose delete call failed. */
  ghost function FailedKeys(prefix: string, refs: seq<FileRef>, faults: Faults, call: nat): set<string> {
    set i | 0 <= i < |refs| && faults(call + i) != Fine :: Key(prefix, FileObjectPath(refs[i]))
  }

  ghost function ObjectKeys(prefix: string, refs: seq<FileRef>): set<string> {
    set r | r in refs :: Key(prefix, FileObjectPath(r))
  }

  class ObjectStore {
    var bucket: Bucket
    /** The bytes each file id was uploaded with. */
    var uploaded: map<Id, Bytes>
    const faults: Faults
    /** How many calls were made. */
    var calls: nat
    /** The keys of every delete call that failed. */
    var failedDeletes: set<string>

    constructor (prefix: string, faults: Faults)
      ensures Valid() && bucket == Bucket(prefix, map[]) && uploaded == map[] && this.faults == faults && calls == 0 && failedDeletes == {}
    {
      bucket, uploaded, this.faults, calls, failedDeletes := Bucket(prefix, map[]), map[], faults, 0, {};
    }

    /** A delete can only have failed where a call did. */
    ghost predicate Valid()
      reads this`failedDeletes, this`calls
    {
      failedDeletes != {} ==> exists i :: 0 <= i < calls && faults(i) != Fine
    }

    method Store(path: string, data: Bytes) returns (ok: bool)
      requires Valid()
      modifies this`bucket, this`calls
      ensures Valid()
      ensures ok <==> faults(old(calls)) == Fine
      ensures bucket == AfterStore(old(bucket), path, data, faults(old(calls))) && calls == old(calls) + 1
    {
      var fault := faults(calls);
      match fault {
        case Fine => bucket := bucket.Put(path, data);
        case ReplyLost => bucket := bucket.Put(path, data);
        case Refused =>
        case CutOff(left) => bucket := bucket.Put(path, left);
      }
      calls := calls + 1;
      ok := fault == Fine;
    }

    method Retrieve(path: string) returns (data: Option<Bytes>)
      requires Valid()
      modifies this`calls
      ensures Valid() && calls == old(calls) + 1
      ensures data == if faults(old(calls)) == Fine && Key(bucket.prefix, path) in bucket.objects
                      then Some(bucket.objects[Key(bucket.prefix, path)]) else None
    {
      var key := Key(bucket.prefix, path);
      data := if faults(calls) == Fine && key in bucket.objects then Some(bucket.objects[key]) else None;
      calls := calls + 1;
    }

    /** Delete is idempotent: a missing object is no error. */
    method Delete(path: string) returns (ok: bool)
      requires Valid()
      modifies this`bucket, this`calls, this`failedDeletes
      ensures Valid()
      ensures ok <==> faults(old(calls)) == Fine
      ensures bucket == AfterDelete(old(bucket), path, faults(old(calls))) && calls == old(calls) + 1
      ensures failedDeletes == if ok then old(failedDeletes) else old(failedDeletes) + {Key(bucket.prefix, path)}
    {
      var fault := faults(calls);
      if fault == Fine || fault == ReplyLost {
        bucket := bucket.Remove(path);
      }
      calls := calls + 1;
      ok := fault == Fine;
      if !ok {
        failedDeletes := failedDeletes + {Key(bucket.prefix, path)};
        assert faults(calls - 1) != Fine;
      }
    }

    /** The handlers' loop over listed files: best effort, one call per file. */
    method DeleteObjects(refs: seq<FileRef>)
      requires Valid()
      modifies this`bucket, this`calls, this`failedDeletes
      ensures Valid()
      ensures bucket == AfterSweep(old(bucket), refs, faults, old(calls)) && calls == old(calls) + |refs|
      ensures failedDeletes == old(failedDeletes) + FailedKeys(old(bucket).prefix, refs, faults, old(calls))
    {
      hide Key, FailedKeys, FileObjectPath;
      assert FailedKeys(bucket.prefix, [], faults, calls) == {} by { NoFaultNoFailure(bucket.prefix, [], faults, calls); }
      assert refs[..0] == [];
      for i := 0 to |refs|
        invariant Valid() && calls == old(calls) + i
        invariant bucket == AfterSweep(old(bucket), refs[..i], faults, old(calls))
        invariant failedDeletes == old(failedDeletes) + FailedKeys(old(bucket).prefix, refs[..i], faults, old(calls))
      {
        assert refs[..i + 1] == refs[..i] + [refs[i]] && refs[..i + 1][..i] == refs[..i];
        OneMoreFailure(old(bucket).prefix, refs[..i], refs[i], faults, old(calls));
        var _ := Delete(FileObjectPath(refs[i]));
      }
      assert refs[..|refs|] == refs;
    }
  }

  lemma OneMoreFailure(prefix: string, refs: seq<FileRef>, r: FileRef, faults: Faults, call: nat)
    ensures FailedKeys(prefix, refs + [r], faults, call) ==
            FailedKeys(prefix, refs, faults, call) + (if faults(call + |refs|) == Fine then {} else {Key(prefix, FileObjectPath(r))})
  {
    hide Key;
    var more := refs + [r];
    assert more[|refs|] == r;
    forall i | 0 <= i < |refs| ensures more[i] == refs[i] {}
  }

  /** The loop removes objects of listed files only, and every one of them unless its call failed. */
  lemma {:induction false} SweepIsSwept(b: Bucket, refs: seq<FileRef>, faults: Faults, call: nat)
    ensures Swept(b, AfterSweep(b, refs, faults, call), ObjectKeys(b.prefix, refs), FailedKeys(b.prefix, refs, faults, call))
  {
    hide Key, FileObjectPath;
    if refs != [] {
      var n := |refs| - 1;
      SweepIsSwept(b, refs[..n], faults, call);
      assert refs == refs[..n] + [refs[n]];
      OneMoreFailure(b.prefix, refs[..n], refs[n], faults, call);
      assert ObjectKeys(b.prefix, refs) == ObjectKeys(b.prefix, refs[..n]) + {Key(b.prefix, FileObjectPath(refs[n]))};
    }
  }

  lemma ObjectKeysAreKeys(t: Tables, prefix: string, refs: seq<FileRef>)
    requires Canonical(t) && forall r :: r in refs ==> r.id in t.files && r == RefOf(t, r.id)
    ensures ObjectKeys(prefix, refs) == Keys(prefix, refs)
  {
    hide Key;
    forall r | r in refs ensures FileObjectPath(r) == CanonicalPath(r) { ObjectPathIsCanonical(t, r.id); }
  }

  /** No failed call, no failed key. */
  lemma NoFaultNoFailure(prefix: string, refs: seq<FileRef>, faults: Faults, call: nat)
    requires forall i :: call <= i < call + |refs| ==> faults(i) == Fine
    ensures FailedKeys(prefix, refs, faults, call) == {}
  {
  }
}
