/** What uploads and deletes that overlap leave behind in the bucket: objects no row and no request answers for any more. */
module OrphanObjects {
  import opened Wrappers
  import opened SemVer
  import opened Schema
  import opened StoragePaths
  import opened StoredObjects
  import opened UploadRace

  /** The keys a request is still going to ask to be removed, or to make a row's: a listing alone promises nothing. */
  ghost function Claims(q: Request, prefix: string): set<string> {
    match q
    case Upload(r, _, stage) => if stage == Failing(false) then {} else {KeyFor(prefix, r)}
    case Listed(_, _, _) => {}
    case Sweeping(refs) => Keys(prefix, refs)
    case Erasing(refs, _) => Keys(prefix, refs)
  }

  ghost function ClaimsOf(s: State, x: nat): set<string> {
    if x in s.requests then Claims(s.requests[x], s.bucket.prefix) else {}
  }

  /** A request other than x claims the key. */
  ghost predicate ClaimedByOther(s: State, x: nat, k: string) {
    exists y :: y in s.requests && y != x && k in Claims(s.requests[y], s.bucket.prefix)
  }

  /** Objects that no row and no request answers for. */
  ghost function Orphans(s: State): set<string>
    requires AllPlaced(s.t)
  {
    set k | k in s.bucket.objects && k !in Live(s.t, s.bucket.prefix) && !exists y :: y in s.requests && k in Claims(s.requests[y], s.bucket.prefix)
  }

  /** Once no request has anything left to remove, the orphans are what leaked. */
  lemma OrphansAtRest(s: State)
    requires AllPlaced(s.t) && forall x :: x in s.requests ==> Claims(s.requests[x], s.bucket.prefix) == {}
    ensures Orphans(s) == Leaks(s.t, s.bucket)
  {
    hide Claims, KeyFor;
  }

  function Actor(step: Step): nat {
    if step.Elsewhere? then 0 else step.x
  }

  ghost function KeysOfRows(t: Tables, prefix: string, ids: set<Id>): set<string>
    requires AllPlaced(t)
  {
    set f | f in ids && f in t.files :: KeyOf(t, prefix, f)
  }

  /** The keys whose row or whose request stops answering for them in this step: those of a request that crashes, of a call that fails,
      and of rows that are deleted without their objects being listed. */
  ghost function Loosened(s: State, step: Step): set<string>
    requires AllPlaced(s.t)
  {
    var prefix := s.bucket.prefix;
    if Actor(step) !in s.requests then {}
    else
      var q := s.requests[Actor(step)];
      match step
      case Crash(_) => Claims(q, prefix)
      case Store(_, ok, _) => if !ok && q.Upload? then {KeyFor(prefix, q.file)} else {}
      case Undo(_, gone) => if !gone && q.Upload? then {KeyFor(prefix, q.file)} else {}
      case Sweep(_, gone) => if !gone && q.Sweeping? && q.refs != [] then {KeyFor(prefix, q.refs[0])} - Keys(prefix, q.refs[1..]) else {}
      case Erase(_, gone) => if !gone && q.Erasing? && q.refs != [] then {KeyFor(prefix, q.refs[0])} - Keys(prefix, q.refs[1..]) else {}
      case DeleteVersions(_, versions, refs) => KeysOfRows(s.t, prefix, FilesOfAll(s.t, versions)) - Keys(prefix, refs)
      case DeleteArtifact(_) =>
        if q.Listed? && q.artifact.Some?
        then KeysOfRows(s.t, prefix, FilesOfAll(s.t, s.t.VersionsOf({q.artifact.value}))) - Keys(prefix, q.refs)
        else {}
      case DropErased(_, applied) => if applied && q.Erasing? then KeysOfRows(s.t, prefix, TargetFiles(s.t, q.target)) else {}
      case _ => {}
  }

  /** A key that a step loosens, with an object there and no row left to answer for it. */
  ghost predicate Loose(s: State, step: Step, k: string)
    requires AllPlaced(s.t)
  {
    && k in Loosened(s, step)
    && (k in s.bucket.objects || (step.Store? && step.left.Some?))
    && (step.DeleteVersions? || step.DeleteArtifact? || step.DropErased? || k !in Live(s.t, s.bucket.prefix))
  }

  /** The step leaves an object behind: one it loosens, that is there, and that no row and no other request answers for. */
  ghost predicate Orphaning(s: State, step: Step)
    requires AllPlaced(s.t)
  {
    exists k :: Loose(s, step, k) && !ClaimedByOther(s, Actor(step), k)
  }

  // ---- from one request to all of them ----

  /** Apart from what other requests answer for. */
  ghost predicate Unanswered(s: State, x: nat, k: string)
    requires AllPlaced(s.t)
  {
    k in s.bucket.objects && k !in Live(s.t, s.bucket.prefix) && k !in ClaimsOf(s, x)
  }

  lemma OrphansAre(s: State, x: nat)
    requires AllPlaced(s.t)
    ensures forall k :: k in Orphans(s) <==> Unanswered(s, x, k) && !ClaimedByOther(s, x, k)
  {
    hide Claims, KeyFor, Live;
  }

  /** Only request x moved. */
  ghost predicate OnlyMoved(s: State, x: nat, s': State) {
    s'.requests - {x} == s.requests - {x} && s'.bucket.prefix == s.bucket.prefix
  }

  lemma OthersStill(s: State, x: nat, s': State, k: string)
    requires OnlyMoved(s, x, s')
    ensures ClaimedByOther(s, x, k) <==> ClaimedByOther(s', x, k)
  {
    hide Claims;
    assert forall y :: y != x ==> (y in s.requests <==> y in s.requests - {x}) && (y in s'.requests <==> y in s'.requests - {x});
    assert forall y :: y != x && y in s.requests ==> s.requests[y] == (s.requests - {x})[y];
    assert forall y :: y != x && y in s'.requests ==> s'.requests[y] == (s'.requests - {x})[y];
  }

  /** What a case of the step system has to show for its own request. */
  ghost predicate Accounts(s: State, step: Step, s': State)
    requires AllPlaced(s.t) && AllPlaced(s'.t)
  {
    && OnlyMoved(s, Actor(step), s')
    && (forall k :: Unanswered(s', Actor(step), k) ==> Unanswered(s, Actor(step), k) || Loose(s, step, k))
    && (forall k :: Loose(s, step, k) ==> Unanswered(s', Actor(step), k))
  }

  lemma AccountsForAll(s: State, step: Step, s': State)
    requires AllPlaced(s.t) && AllPlaced(s'.t) && Accounts(s, step, s')
    ensures Orphans(s') <= Orphans(s) + Loosened(s, step)
    ensures Orphans(s) == {} ==> (Orphans(s') == {} <==> !Orphaning(s, step))
  {
    hide Unanswered, Orphans, ClaimedByOther, Loosened;
    var x := Actor(step);
    OrphansAre(s, x);
    OrphansAre(s', x);
    forall k ensures ClaimedByOther(s, x, k) <==> ClaimedByOther(s', x, k) { OthersStill(s, x, s', k); }
    forall k | k in Orphans(s') ensures k in Orphans(s) || (Loose(s, step, k) && !ClaimedByOther(s, x, k)) {}
    forall k | Loose(s, step, k) && !ClaimedByOther(s, x, k) ensures k in Orphans(s') {}
  }

  // ---- the steps ----

  lemma LiveAfterPut(t: Tables, f: Id, row: FileRow, prefix: string)
    requires AllPlaced(t) && row.version in t.versions
    requires f in t.files ==> t.files[f].version == row.version && t.files[f].name == row.name
    ensures AllPlaced(t.PutFile(f, row))
    ensures Live(t.PutFile(f, row), prefix) >= Live(t, prefix)
    ensures f in t.files ==> Live(t.PutFile(f, row), prefix) == Live(t, prefix)
  {
    hide Key, FileStoragePath;
    var u := t.PutFile(f, row);
    forall g | g in u.files ensures Placed(u, g) { assert g != f ==> Placed(t, g); }
    forall g | g in t.files ensures KeyOf(u, prefix, g) == KeyOf(t, prefix, g) {}
    hide KeyOf;
    forall k | k in Live(t, prefix) ensures k in Live(u, prefix) {
      var g :| g in t.files && KeyOf(t, prefix, g) == k;
      assert g in u.files && KeyOf(u, prefix, g) == k;
    }
  }

  /** Rows deleted: the keys that stop being a row's are exactly theirs. */
  lemma LiveAfterDrop(t: Tables, u: Tables, prefix: string)
    requires Filed(t, prefix) && Survives(t, u)
    ensures AllPlaced(t) && AllPlaced(u)
    ensures Live(u, prefix) == Live(t, prefix) - KeysOfRows(t, prefix, t.files.Keys - u.files.Keys)
  {
    SurvivorsKeepPaths(t, u);
    hide Key, FileStoragePath, Plain, Survives;
    forall f, g | f in u.files && g in t.files && KeyOf(u, prefix, f) == KeyOf(t, prefix, g) ensures f == g {
      KeyOfRow(t, prefix, f, RefOf(t, g));
    }
    hide KeyFor, Canonical, PlainNames;
    forall f | f in u.files ensures KeyOf(u, prefix, f) == KeyOf(t, prefix, f) {}
  }

  lemma InvIsFiled(s: State)
    requires Inv(s)
    ensures Filed(s.t, s.bucket.prefix) && AllPlaced(s.t)
  {
  }

  lemma BeginUploadAccounts(s: State, step: Step, s': State)
    requires Inv(s) && Next(s, step, s') && step.BeginUpload?
    ensures AllPlaced(s.t) && AllPlaced(s'.t) && Accounts(s, step, s')
  {
    InvIsFiled(s);
    hide Inv, Live, KeyFor, Filed, AllPlaced;
    var r := NewRef(s, step.v, step.name, step.created);
    LiveAfterPut(s.t, s.next, r.row, s.bucket.prefix);
  }

  lemma StoreAccounts(s: State, step: Step, s': State)
    requires Inv(s) && Next(s, step, s') && step.Store?
    ensures AllPlaced(s.t) && AllPlaced(s'.t) && Accounts(s, step, s')
  {
    InvIsFiled(s);
    hide Inv, Live, Filed, AllPlaced, Key, CanonicalPath;
  }

  lemma FinalizeAccounts(s: State, step: Step, s': State)
    requires Inv(s) && Next(s, step, s') && step.Finalize?
    ensures AllPlaced(s.t) && AllPlaced(s'.t) && Accounts(s, step, s')
  {
    InvIsFiled(s);
    var u, prefix := s.requests[step.x], s.bucket.prefix;
    SoundRequest(s, step.x);
    hide Inv, Filed, FileStoragePath, Key;
    if step.applied {
      var f := u.file.id;
      var row := s.t.files[f].(path := CanonicalPath(u.file), size := Some(|u.data|), status := AVAILABLE);
      assert Placed(s.t, f);
      LiveAfterPut(s.t, f, row, prefix);
      assert KeyFor(prefix, u.file) == KeyOf(s.t, prefix, f);
      assert KeyFor(prefix, u.file) in Live(s.t, prefix);
      assert s'.t == s.t.PutFile(f, row);
    }
    hide Live, AllPlaced, KeyFor, Sound;
  }

  lemma MarkErrorAccounts(s: State, step: Step, s': State)
    requires Inv(s) && Next(s, step, s') && step.MarkError?
    ensures AllPlaced(s.t) && AllPlaced(s'.t) && Accounts(s, step, s')
  {
    InvIsFiled(s);
    hide Inv, Live, Filed, FileStoragePath, KeyFor;
    var f := s.requests[step.x].file.id;
    if step.applied && f in s.t.files {
      assert Placed(s.t, f);
      LiveAfterPut(s.t, f, s.t.files[f].(status := ERROR), s.bucket.prefix);
    }
    hide AllPlaced;
  }

  lemma UndoAccounts(s: State, step: Step, s': State)
    requires Inv(s) && Next(s, step, s') && step.Undo?
    ensures AllPlaced(s.t) && AllPlaced(s'.t) && Accounts(s, step, s')
  {
    InvIsFiled(s);
    hide Inv, Live, Filed, AllPlaced, Key, CanonicalPath;
  }

  lemma ListingAccounts(s: State, step: Step, s': State)
    requires Inv(s) && Next(s, step, s') && (step.ListRows? || step.ListToErase?)
    ensures AllPlaced(s.t) && AllPlaced(s'.t) && Accounts(s, step, s')
  {
    InvIsFiled(s);
    hide Inv, Live, Filed, AllPlaced, KeyFor, Keys;
  }

  /** Rows deleted by request x, which claims nothing before and afterwards what it has listed. */
  lemma RowsAccount(s: State, step: Step, s': State, ids: set<Id>, listed: set<string>)
    requires Inv(s) && AllPlaced(s.t) && Survives(s.t, s'.t) && s'.bucket == s.bucket && OnlyMoved(s, Actor(step), s')
    requires step.DeleteVersions? || step.DeleteArtifact? || step.DropErased? || KeysOfRows(s.t, s.bucket.prefix, ids) <= listed
    requires ClaimsOf(s, Actor(step)) == {} && ClaimsOf(s', Actor(step)) == listed
    requires Loosened(s, step) == KeysOfRows(s.t, s.bucket.prefix, ids) - listed
    requires forall f :: f in s.t.files && f !in s'.t.files <==> f in ids && f in s.t.files
    ensures AllPlaced(s'.t) && Accounts(s, step, s')
  {
    InvIsFiled(s);
    hide Inv, Filed, KeyFor, Survives, ClaimsOf, Loosened, AllPlaced;
    LiveAfterDrop(s.t, s'.t, s.bucket.prefix);
    assert KeysOfRows(s.t, s.bucket.prefix, ids) == KeysOfRows(s.t, s.bucket.prefix, s.t.files.Keys - s'.t.files.Keys);
    assert KeysOfRows(s.t, s.bucket.prefix, ids) <= Live(s.t, s.bucket.prefix);
    hide Live, KeysOfRows;
  }

  lemma ListedKeys(t: Tables, prefix: string, ids: set<Id>, refs: seq<FileRef>)
    requires AllPlaced(t) && IsListing(t, ids, refs)
    ensures KeysOfRows(t, prefix, ids) <= Keys(prefix, refs)
  {
    hide KeyFor;
    forall k | k in KeysOfRows(t, prefix, ids) ensures k in Keys(prefix, refs) {
      var f :| f in ids && f in t.files && KeyOf(t, prefix, f) == k;
      assert RefOf(t, f) in refs;
    }
  }

  lemma DeleteIncompleteParts(s: State, step: Step, s': State)
    requires AllPlaced(s.t) && Next(s, step, s') && step.DeleteIncomplete?
    ensures s'.bucket == s.bucket && s'.t == s.t.DropFiles(step.files) && OnlyMoved(s, Actor(step), s')
    ensures ClaimsOf(s, Actor(step)) == {} && ClaimsOf(s', Actor(step)) == Keys(s.bucket.prefix, step.refs)
    ensures Loosened(s, step) == {} && KeysOfRows(s.t, s.bucket.prefix, step.files) <= Keys(s.bucket.prefix, step.refs)
  {
    hide Keys, KeysOfRows, KeyFor, IsListing, Tables.DropFiles, AllPlaced;
    ListedKeys(s.t, s.bucket.prefix, step.files, step.refs);
  }

  lemma DeleteIncompleteAccounts(s: State, step: Step, s': State)
    requires Inv(s) && Next(s, step, s') && step.DeleteIncomplete?
    ensures AllPlaced(s.t) && AllPlaced(s'.t) && Accounts(s, step, s')
  {
    hide Inv, Live, Filed, KeyFor, Keys, KeysOfRows, Survives, Accounts, AllPlaced, Next, Loosened, ClaimsOf, OnlyMoved;
    InvIsFiled(s);
    DropsSurvive(s.t, step.files);
    DeleteIncompleteParts(s, step, s');
    var keys, listed := KeysOfRows(s.t, s.bucket.prefix, step.files), Keys(s.bucket.prefix, step.refs);
    assert keys - listed == {};
    RowsAccount(s, step, s', step.files, listed);
  }

  lemma DeleteVersionsAccounts(s: State, step: Step, s': State)
    requires Inv(s) && Next(s, step, s') && step.DeleteVersions?
    ensures AllPlaced(s.t) && AllPlaced(s'.t) && Accounts(s, step, s')
  {
    InvIsFiled(s);
    hide Inv, Live, Filed, Key, KeyFor;
    DropsSurvive(s.t, step.versions);
    RowsAccount(s, step, s', FilesOfAll(s.t, step.versions), Keys(s.bucket.prefix, step.refs));
  }

  lemma DeleteArtifactAccounts(s: State, step: Step, s': State)
    requires Inv(s) && Next(s, step, s') && step.DeleteArtifact?
    ensures AllPlaced(s.t) && AllPlaced(s'.t) && Accounts(s, step, s')
  {
    InvIsFiled(s);
    hide Inv, Live, Filed, Key, KeyFor;
    var q := s.requests[step.x];
    DropsSurvive(s.t, {q.artifact.value});
    RowsAccount(s, step, s', FilesOfAll(s.t, s.t.VersionsOf({q.artifact.value})), Keys(s.bucket.prefix, q.refs));
  }

  lemma DropErasedAccounts(s: State, step: Step, s': State)
    requires Inv(s) && Next(s, step, s') && step.DropErased?
    ensures AllPlaced(s.t) && AllPlaced(s'.t) && Accounts(s, step, s')
  {
    InvIsFiled(s);
    hide Inv, Live, Filed, Key, KeyFor;
    if step.applied {
      var target := s.requests[step.x].target;
      match target {
        case TheFile(f) => DropsSurvive(s.t, {f});
        case TheVersion(v) => DropsSurvive(s.t, {v});
      }
      RowsAccount(s, step, s', TargetFiles(s.t, target), {});
    }
  }

  /** One storage call of a delete. */
  lemma CallAccounts(s: State, step: Step, s': State)
    requires Inv(s) && Next(s, step, s') && (step.Sweep? || step.Erase?)
    ensures AllPlaced(s.t) && AllPlaced(s'.t) && Accounts(s, step, s')
  {
    hide Inv, Live, Filed, AllPlaced, Key, Keys, FileObjectPath, CanonicalPath;
    InvIsFiled(s);
    HeadIsCanonical(s, step.x);
    HeadAndTail(s.bucket.prefix, s.requests[step.x].refs);
  }

  lemma HeadIsCanonical(s: State, x: nat)
    requires Inv(s) && x in s.requests && (s.requests[x].Sweeping? || s.requests[x].Erasing?) && s.requests[x].refs != []
    ensures FileObjectPath(s.requests[x].refs[0]) == CanonicalPath(s.requests[x].refs[0])
  {
    hide Filed, FileObjectPath, CanonicalPath, Plain;
    InvIsFiled(s);
    SoundRequest(s, x);
    assert s.requests[x].refs[0] in s.requests[x].refs;
  }

  lemma HeadAndTail(prefix: string, refs: seq<FileRef>)
    requires refs != []
    ensures Keys(prefix, refs) == {KeyFor(prefix, refs[0])} + Keys(prefix, refs[1..])
  {
    hide KeyFor;
    assert refs == [refs[0]] + refs[1..];
  }

  lemma ElsewhereAccounts(s: State, step: Step, s': State)
    requires Inv(s) && Next(s, step, s') && step.Elsewhere?
    ensures AllPlaced(s.t) && AllPlaced(s'.t) && Orphans(s') == Orphans(s) && !Orphaning(s, step)
  {
    InvIsFiled(s);
    forall f | f in s.t.files ensures RefOf(s'.t, f) == RefOf(s.t, f) { VersionIsTheSame(s, s'.t, f); }
    hide Inv, Filed, KeyFor, Claims;
    assert Live(s'.t, s.bucket.prefix) == Live(s.t, s.bucket.prefix);
  }

  lemma CrashAccounts(s: State, step: Step, s': State)
    requires Inv(s) && Next(s, step, s') && step.Crash?
    ensures AllPlaced(s.t) && AllPlaced(s'.t) && Accounts(s, step, s')
  {
    InvIsFiled(s);
    hide Inv, Live, Filed, AllPlaced, KeyFor, Claims;
  }

  /** A step adds no orphan but what it loosens; and where there is none, it makes one if and only if it is an orphaning step. */
  lemma StepOrphansIff(s: State, step: Step, s': State)
    requires Inv(s) && Next(s, step, s')
    ensures AllPlaced(s.t) && AllPlaced(s'.t) && Orphans(s') <= Orphans(s) + Loosened(s, step)
    ensures Orphans(s) == {} ==> (Orphans(s') == {} <==> !Orphaning(s, step))
  {
    hide Inv, Next, Orphans, Loosened, Orphaning, Accounts, AllPlaced;
    match step {
      case BeginUpload(_, _, _, _, _) => BeginUploadAccounts(s, step, s');
      case Store(_, _, _) => StoreAccounts(s, step, s');
      case Finalize(_, _) => FinalizeAccounts(s, step, s');
      case MarkError(_, _) => MarkErrorAccounts(s, step, s');
      case Undo(_, _) => UndoAccounts(s, step, s');
      case DeleteIncomplete(_, _, _) => DeleteIncompleteAccounts(s, step, s');
      case ListRows(_, _, _, _) => ListingAccounts(s, step, s');
      case DeleteVersions(_, _, _) => DeleteVersionsAccounts(s, step, s');
      case DeleteArtifact(_) => DeleteArtifactAccounts(s, step, s');
      case Sweep(_, _) => CallAccounts(s, step, s');
      case ListToErase(_, _, _) => ListingAccounts(s, step, s');
      case Erase(_, _) => CallAccounts(s, step, s');
      case DropErased(_, _) => DropErasedAccounts(s, step, s');
      case Elsewhere(_, _) => ElsewhereAccounts(s, step, s');
      case Crash(_) => CrashAccounts(s, step, s');
    }
    if !step.Elsewhere? { AccountsForAll(s, step, s'); }
  }

  // ---- whole runs ----

  /** A run of plain names from a sound start. */
  ghost predicate PlainRun(states: seq<State>, steps: seq<Step>, names: set<string>) {
    Run(states, steps) && Initial(states[0]) && Named(steps, names) && forall n :: n in names ==> Plain(states[0].bucket.prefix, n)
  }

  lemma InvAlong(states: seq<State>, steps: seq<Step>, names: set<string>, i: nat)
    requires PlainRun(states, steps, names) && i < |states|
    ensures Inv(states[i]) && AllPlaced(states[i].t) && (i < |steps| ==> Next(states[i], steps[i], states[i + 1]))
  {
    hide Next, Initial, Plain, Inv;
    RunKeepsInv(states, steps, names, i);
    InvIsFiled(states[i]);
  }

  lemma StartAtRest(states: seq<State>, steps: seq<Step>, names: set<string>)
    requires PlainRun(states, steps, names) && AllPlaced(states[0].t)
    ensures Orphans(states[0]) == Leaks(states[0].t, states[0].bucket)
  {
    hide Next, Plain, Orphans, Leaks, AllPlaced, Filed, Broken;
    OrphansAtRest(states[0]);
  }

  /** All that the first i steps loosened. */
  ghost function LoosenedBy(states: seq<State>, steps: seq<Step>, i: nat): set<string>
    requires i <= |steps| <= |states| && forall j :: 0 <= j < i ==> AllPlaced(states[j].t)
  {
    if i == 0 then {} else LoosenedBy(states, steps, i - 1) + Loosened(states[i - 1], steps[i - 1])
  }

  lemma PlacedAlong(states: seq<State>, steps: seq<Step>, names: set<string>)
    requires PlainRun(states, steps, names)
    ensures forall j :: 0 <= j < |states| ==> AllPlaced(states[j].t)
  {
    hide PlainRun, AllPlaced;
    forall j | 0 <= j < |states| ensures AllPlaced(states[j].t) { InvAlong(states, steps, names, j); }
  }

  lemma {:induction false} LoosenedSoFar(states: seq<State>, steps: seq<Step>, names: set<string>, i: nat)
    requires PlainRun(states, steps, names) && |states| == |steps| + 1 && i < |states| && forall j :: 0 <= j < |states| ==> AllPlaced(states[j].t)
    ensures Orphans(states[i]) <= Leaks(states[0].t, states[0].bucket) + LoosenedBy(states, steps, i)
  {
    hide Inv, Next, Orphans, Loosened, PlainRun, AllPlaced, Leaks;
    if i == 0 {
      StartAtRest(states, steps, names);
    } else {
      LoosenedSoFar(states, steps, names, i - 1);
      InvAlong(states, steps, names, i - 1);
      StepOrphansIff(states[i - 1], steps[i - 1], states[i]);
    }
  }

  /** The leak bound of a run: nothing is left behind but what was there and what a crash, a failed call or an overlapping delete loosened. */
  lemma OnlyLoosenedKeysLeak(states: seq<State>, steps: seq<Step>, names: set<string>, i: nat)
    requires PlainRun(states, steps, names) && i < |states|
    ensures forall j :: 0 <= j < |states| ==> AllPlaced(states[j].t)
    ensures Orphans(states[i]) <= Leaks(states[0].t, states[0].bucket) + LoosenedBy(states, steps, i)
  {
    PlacedAlong(states, steps, names);
    hide Next, Initial, Plain, Orphans, Leaks, LoosenedBy, AllPlaced;
    LoosenedSoFar(states, steps, names, i);
  }

  lemma {:induction false} NoneSoFar(states: seq<State>, steps: seq<Step>, names: set<string>, i: nat)
    requires PlainRun(states, steps, names) && |states| == |steps| + 1 && i < |states| && forall j :: 0 <= j < |states| ==> AllPlaced(states[j].t)
    requires Leaks(states[0].t, states[0].bucket) == {} && forall j :: 0 <= j < i ==> !Orphaning(states[j], steps[j])
    ensures Orphans(states[i]) == {}
  {
    hide Inv, Next, Orphans, Orphaning, Loosened, PlainRun, AllPlaced, Leaks;
    if i == 0 {
      StartAtRest(states, steps, names);
    } else {
      NoneSoFar(states, steps, names, i - 1);
      InvAlong(states, steps, names, i - 1);
      StepOrphansIff(states[i - 1], steps[i - 1], states[i]);
    }
  }

  /** The exact condition for none: nothing is ever left behind in a run if and only if none of its steps is an orphaning one. */
  lemma NothingLeftBehindIff(states: seq<State>, steps: seq<Step>, names: set<string>)
    requires PlainRun(states, steps, names) && AllPlaced(states[0].t) && Leaks(states[0].t, states[0].bucket) == {}
    ensures forall j :: 0 <= j < |states| ==> AllPlaced(states[j].t)
    ensures (forall i :: 0 <= i < |states| ==> Orphans(states[i]) == {}) <==> forall j :: 0 <= j < |steps| ==> !Orphaning(states[j], steps[j])
  {
    PlacedAlong(states, steps, names);
    assert |states| == |steps| + 1;
    hide Inv, Next, Orphans, Orphaning, Loosened, PlainRun, AllPlaced, Leaks;
    if forall j :: 0 <= j < |steps| ==> !Orphaning(states[j], steps[j]) {
      forall i | 0 <= i < |states| ensures Orphans(states[i]) == {} { NoneSoFar(states, steps, names, i); }
    }
    if forall i :: 0 <= i < |states| ==> Orphans(states[i]) == {} {
      forall j | 0 <= j < |steps| ensures !Orphaning(states[j], steps[j]) {
        InvAlong(states, steps, names, j);
        assert Orphans(states[j]) == {} && Orphans(states[j + 1]) == {};
        StepOrphansIff(states[j], steps[j], states[j + 1]);
      }
    }
  }

  /** No crash and no failed call. */
  predicate Smooth(step: Step) {
    match step
    case Crash(_) => false
    case Store(_, ok, _) => ok
    case Undo(_, gone) => gone
    case Sweep(_, gone) => gone
    case Erase(_, gone) => gone
    case _ => true
  }

  /** Then only a delete leaves something behind, and only of files it deletes without having listed or still claiming them. */
  lemma OnlyDeletesOrphan(s: State, step: Step)
    requires AllPlaced(s.t) && Smooth(step) && Orphaning(s, step)
    ensures step.DeleteVersions? || step.DeleteArtifact? || step.DropErased?
    ensures exists f :: f in s.t.files && KeyOf(s.t, s.bucket.prefix, f) in s.bucket.objects && !ClaimedByOther(s, step.x, KeyOf(s.t, s.bucket.prefix, f))
  {
    hide KeyFor, ClaimedByOther;
    var k :| Loose(s, step, k) && !ClaimedByOther(s, Actor(step), k);
    assert k in Loosened(s, step);
    assert exists f :: f in s.t.files && KeyOf(s.t, s.bucket.prefix, f) == k;
  }

  // ---- an upload that lands between a delete's listing and its statement ----

  function Late(): FileRef {
    FileRef(3, NewFile(2, "a", 0), 1, Semver(1, 0, 0))
  }

  const LATE_STEPS := [ListRows(1, {2}, None, []), BeginUpload(0, 2, "a", [], 0), Store(0, true, None), Finalize(0, true), DeleteVersions(1, {2}, [])]

  function Finished(prefix: string): State {
    var row := Late().row.(path := CanonicalPath(Late()), size := Some(0), status := AVAILABLE);
    State(NO_FILES.PutFile(3, row), Bucket(prefix, map[]).Put(CanonicalPath(Late()), []), map[3 := []], 4, map[1 := Listed([], {2}, None)], {})
  }

  function Started(prefix: string): State {
    State(NO_FILES.PutFile(3, Late().row), Bucket(prefix, map[]), map[3 := []], 4, map[1 := Listed([], {2}, None), 0 := Upload(Late(), [], Storing)], {})
  }

  lemma LateStart(prefix: string) returns (s0: State, s1: State)
    ensures Initial(s0) && s0.bucket.prefix == prefix && AllPlaced(s0.t) && Leaks(s0.t, s0.bucket) == {}
    ensures Next(s0, LATE_STEPS[0], s1) && Next(s1, LATE_STEPS[1], Started(prefix))
  {
    hide FileStoragePath, Key, Plain;
    s0 := State(NO_FILES, Bucket(prefix, map[]), map[], 3, map[], {});
    s1 := s0.(requests := map[1 := Listed([], {2}, None)]);
    assert s0.requests[1 := Listed([], {2}, None)] == s1.requests;
    assert s1.requests[0 := Upload(Late(), [], Storing)] == Started(prefix).requests;
  }

  lemma LateFinish(prefix: string) returns (s3: State)
    ensures Next(Started(prefix), LATE_STEPS[2], s3) && Next(s3, LATE_STEPS[3], Finished(prefix))
  {
    hide FileStoragePath, Key, Plain;
    var s2 := Started(prefix);
    s3 := s2.(bucket := s2.bucket.Put(CanonicalPath(Late()), []), requests := map[1 := Listed([], {2}, None), 0 := Upload(Late(), [], Finalizing)]);
    assert s2.requests[0 := Upload(Late(), [], Finalizing)] == s3.requests;
    assert s3.requests - {0} == Finished(prefix).requests;
    assert s3.t.PutFile(3, Finished(prefix).t.files[3]) == Finished(prefix).t;
  }

  lemma DeletedUnlisted(prefix: string) returns (s5: State)
    ensures Next(Finished(prefix), LATE_STEPS[4], s5) && AllPlaced(s5.t) && s5.requests == map[1 := Sweeping([])]
    ensures Leaks(s5.t, s5.bucket) == {KeyFor(prefix, Late())}
  {
    hide FileStoragePath, Key, Plain;
    var s4 := Finished(prefix);
    s5 := s4.(t := s4.t.DropVersions({2}), requests := map[1 := Sweeping([])]);
    assert s4.requests[1 := Sweeping([])] == s5.requests;
    assert s5.t.files == map[];
  }

  /** Every call succeeds and nothing crashes: the version goes with a file its delete had not listed, and the object stays for good. */
  lemma LateUploadIsLeftBehind(prefix: string) returns (states: seq<State>, steps: seq<Step>)
    ensures Run(states, steps) && |steps| == 5 && Initial(states[0]) && states[0].bucket.prefix == prefix
    ensures (forall j :: 0 <= j < 5 ==> Smooth(steps[j])) && AllPlaced(states[0].t) && Leaks(states[0].t, states[0].bucket) == {}
    ensures var last := states[5];
            && AllPlaced(last.t) && Leaks(last.t, last.bucket) == {KeyFor(prefix, Late())}
            && forall x :: x in last.requests ==> Claims(last.requests[x], prefix) == {}
  {
    hide Next, Initial, KeyFor, Leaks, AllPlaced;
    var s0, s1 := LateStart(prefix);
    var s3 := LateFinish(prefix);
    var s5 := DeletedUnlisted(prefix);
    states, steps := [s0, s1, Started(prefix), s3, Finished(prefix), s5], LATE_STEPS;
  }
}
