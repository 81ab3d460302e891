/** The admin cleanups: what each one counts, what it deletes, and what a pass of all five leaves. */
module Cleanup {
  import opened Wrappers
  import opened Schema
  import opened Statistics

  // ---- what the Count queries count ----

  function IncompleteFiles(t: Tables, cutoff: int): set<Id> {
    set f | f in t.files && t.files[f].Incomplete() && t.files[f].created < cutoff
  }

  function VersionsWithoutFiles(t: Tables, cutoff: int): set<Id> {
    set v | v in t.versions && t.versions[v].created < cutoff && !t.HasFiles(v)
  }

  function ArtifactsWithoutFiles(t: Tables, cutoff: int): set<Id> {
    set a | a in t.artifacts && t.artifacts[a].created < cutoff && t.HasVersions(a) && !t.ArtifactHasFiles(a)
  }

  function EmptyArtifacts(t: Tables, cutoff: int): set<Id> {
    set a | a in t.artifacts && t.artifacts[a].created < cutoff && !t.HasVersions(a)
  }

  predicate Used(t: Tables, y: Id) {
    exists m :: m in t.typeMap && m.1 == y
  }

  function UnusedTypes(t: Tables, cutoff: int): set<Id> {
    set y | y in t.types && t.types[y] < cutoff && !Used(t, y)
  }

  // ---- what the Delete statements delete: the same, without the artifacts that carry the protection tag ----

  predicate FileProtected(t: Tables, f: Id, tag: string)
    requires f in t.files
  {
    t.files[f].version in t.versions && t.HasTag(t.versions[t.files[f].version].artifact, tag)
  }

  function DeletableFiles(t: Tables, cutoff: int, tag: string): set<Id> {
    set f | f in IncompleteFiles(t, cutoff) && !FileProtected(t, f, tag)
  }

  function DeletableVersions(t: Tables, cutoff: int, tag: string): set<Id> {
    set v | v in VersionsWithoutFiles(t, cutoff) && !t.HasTag(t.versions[v].artifact, tag)
  }

  function WithoutTag(t: Tables, artifacts: set<Id>, tag: string): set<Id> {
    set a | a in artifacts && !t.HasTag(a, tag)
  }

  function DropIncompleteFiles(t: Tables, cutoff: int, tag: string): Tables {
    t.DropFiles(DeletableFiles(t, cutoff, tag))
  }

  function DropVersionsWithoutFiles(t: Tables, cutoff: int, tag: string): Tables {
    t.DropVersions(DeletableVersions(t, cutoff, tag))
  }

  function DropArtifactsWithoutFiles(t: Tables, cutoff: int, tag: string): Tables {
    t.DropArtifacts(WithoutTag(t, ArtifactsWithoutFiles(t, cutoff), tag))
  }

  function DropEmptyArtifacts(t: Tables, cutoff: int, tag: string): Tables {
    t.DropArtifacts(WithoutTag(t, EmptyArtifacts(t, cutoff), tag))
  }

  function DropUnusedTypes(t: Tables, cutoff: int): Tables {
    t.DropTypes(UnusedTypes(t, cutoff))
  }

  // ---- the same, row by row ----

  /** The file cleanup: the PENDING and ERROR rows older than the cutoff go, unless their artifact carries the tag. */
  lemma IncompleteFilesGone(t: Tables, cutoff: int, tag: string)
    requires forall f :: f in t.files ==> t.files[f].version in t.versions
    ensures var u := DropIncompleteFiles(t, cutoff, tag);
            && (forall f :: f in t.files ==>
                  (f !in u.files <==> t.files[f].status in {PENDING, ERROR} && t.files[f].created < cutoff
                                      && (t.versions[t.files[f].version].artifact, tag) !in t.tags))
            && (forall f :: f in u.files ==> f in t.files && u.files[f] == t.files[f]) && u == t.(files := u.files)
  {
  }

  lemma DeletableRowsExist(t: Tables, cutoff: int, tag: string)
    ensures DeletableFiles(t, cutoff, tag) <= t.files.Keys
  {
  }

  /** The version cleanup: the versions older than the cutoff without any file row go, unless their artifact carries the tag. */
  lemma FilelessVersionsGo(t: Tables, cutoff: int, tag: string)
    ensures var u := DropVersionsWithoutFiles(t, cutoff, tag);
            && (forall v :: v in t.versions ==>
                  (v !in u.versions <==> t.versions[v].created < cutoff && (forall f :: f in t.files ==> t.files[f].version != v)
                                         && (t.versions[v].artifact, tag) !in t.tags))
            && (forall v :: v in u.versions ==> v in t.versions && u.versions[v] == t.versions[v])
            && u == t.(versions := u.versions, tags := u.tags)
            && (forall k :: k in u.tags <==> k in t.tags && (t.tags[k] in t.versions ==> t.tags[k] in u.versions))
            && (forall k :: k in u.tags ==> u.tags[k] == t.tags[k])
  {
    VersionsGone(t, cutoff, tag);
  }

  /** The artifact cleanups: an artifact older than the cutoff goes if it has versions but no file, or no version, unless it carries the tag. */
  lemma FilelessArtifactsGo(t: Tables, cutoff: int, tag: string, a: Id)
    requires a in t.artifacts
    ensures a !in DropArtifactsWithoutFiles(t, cutoff, tag).artifacts <==>
            && t.artifacts[a].created < cutoff && (a, tag) !in t.tags
            && (exists v :: v in t.versions && t.versions[v].artifact == a)
            && (forall v, f :: v in t.versions && f in t.files && t.versions[v].artifact == a ==> t.files[f].version != v)
    ensures a !in DropEmptyArtifacts(t, cutoff, tag).artifacts <==>
            t.artifacts[a].created < cutoff && (a, tag) !in t.tags && forall v :: v in t.versions ==> t.versions[v].artifact != a
  {
  }

  /** The type cleanup: the types older than the cutoff that no artifact is assigned go, and nothing else changes. */
  lemma UnassignedTypesGo(t: Tables, cutoff: int)
    ensures var u := DropUnusedTypes(t, cutoff);
            && u == t.(types := u.types)
            && (forall y :: y in u.types <==> y in t.types && (t.types[y] >= cutoff || exists m :: m in t.typeMap && m.1 == y))
            && (forall y :: y in u.types ==> u.types[y] == t.types[y])
  {
    TypesGone(t, cutoff);
  }

  // ---- one pass reaches a fixpoint ----

  /** The five cleanups in their order, with one cutoff. */
  function Pass(t: Tables, cutoff: int, tag: string): Tables {
    DropUnusedTypes(DropEmptyArtifacts(DropArtifactsWithoutFiles(
      DropVersionsWithoutFiles(DropIncompleteFiles(t, cutoff, tag), cutoff, tag), cutoff, tag), cutoff, tag), cutoff)
  }

  /** Nothing is left for any of the cleanups up to the n-th. */
  ghost predicate Done(t: Tables, cutoff: int, tag: string, n: nat) {
    && (n >= 1 ==> DeletableFiles(t, cutoff, tag) == {})
    && (n >= 2 ==> DeletableVersions(t, cutoff, tag) == {})
    && (n >= 3 ==> WithoutTag(t, ArtifactsWithoutFiles(t, cutoff), tag) == {})
    && (n >= 4 ==> WithoutTag(t, EmptyArtifacts(t, cutoff), tag) == {})
    && (n >= 5 ==> UnusedTypes(t, cutoff) == {})
  }

  /** A version cleanup leaves files and tags of the versions that stay. */
  lemma VersionsGone(t: Tables, cutoff: int, tag: string)
    ensures var u := DropVersionsWithoutFiles(t, cutoff, tag);
            && u.files == t.files && u.artifacts == t.artifacts && u.types == t.types && u.typeMap == t.typeMap
            && (forall k :: k in u.tags ==> k in t.tags)
            && (forall v :: v in u.versions <==> v in t.versions && v !in DeletableVersions(t, cutoff, tag))
            && (forall v :: v in u.versions ==> u.versions[v] == t.versions[v])
  {
    var ids := DeletableVersions(t, cutoff, tag);
    forall f | f in t.files ensures t.files[f].version !in ids { assert t.files[f].version in ids ==> t.HasFiles(t.files[f].version); }
    assert t.DropVersions(ids).files == t.files;
  }

  /** A protected artifact keeps its protection tag through a version cleanup: none of its versions goes. */
  lemma ProtectionStays(t: Tables, cutoff: int, tag: string, a: Id, next: nat)
    requires t.Ok(next) && t.HasTag(a, tag)
    ensures DropVersionsWithoutFiles(t, cutoff, tag).HasTag(a, tag)
  {
    assert t.tags[(a, tag)] in t.versions && t.versions[t.tags[(a, tag)]].artifact == a;
  }

  lemma DropFilesDone(t: Tables, cutoff: int, tag: string)
    ensures Done(DropIncompleteFiles(t, cutoff, tag), cutoff, tag, 1)
  {
  }

  lemma DropVersionsDone(t: Tables, cutoff: int, tag: string, next: nat)
    requires Done(t, cutoff, tag, 1) && t.Ok(next)
    ensures Done(DropVersionsWithoutFiles(t, cutoff, tag), cutoff, tag, 2)
  {
    var u := DropVersionsWithoutFiles(t, cutoff, tag);
    VersionsGone(t, cutoff, tag);
    forall v | v in u.versions && t.HasTag(u.versions[v].artifact, tag) ensures u.HasTag(u.versions[v].artifact, tag) {
      ProtectionStays(t, cutoff, tag, u.versions[v].artifact, next);
    }
    FilesStayDone(t, u, cutoff, tag, next);
    hide Tables.Ok, Tables.DropVersions, DeletableFiles;
    forall v | v in u.versions ensures u.HasFiles(v) == t.HasFiles(v) {}
    assert DeletableVersions(u, cutoff, tag) <= DeletableVersions(t, cutoff, tag);
  }

  /** Where no file row changed and no protection went, no file has become deletable. */
  lemma FilesStayDone(t: Tables, u: Tables, cutoff: int, tag: string, next: nat)
    requires DeletableFiles(t, cutoff, tag) == {} && t.ChildrenHaveVersions() && u.files == t.files
    requires forall v :: v in u.versions ==> v in t.versions && u.versions[v] == t.versions[v]
    requires forall f :: f in u.files ==> u.files[f].version in u.versions
    requires forall v :: v in u.versions && t.HasTag(u.versions[v].artifact, tag) ==> u.HasTag(u.versions[v].artifact, tag)
    ensures DeletableFiles(u, cutoff, tag) == {}
  {
    assert DeletableFiles(u, cutoff, tag) <= DeletableFiles(t, cutoff, tag);
  }

  /** Deleting whole artifacts leaves every other artifact as it was. */
  lemma ArtifactsGone(t: Tables, gone: set<Id>, next: nat)
    requires t.Ok(next)
    ensures var u := t.DropArtifacts(gone);
            && (forall f :: f in u.files <==> f in t.files && t.versions[t.files[f].version].artifact !in gone)
            && (forall f :: f in u.files ==> u.files[f] == t.files[f])
            && (forall v :: v in u.versions <==> v in t.versions && t.versions[v].artifact !in gone)
            && (forall v :: v in u.versions ==> u.versions[v] == t.versions[v])
            && (forall a :: a in u.artifacts <==> a in t.artifacts && a !in gone)
            && (forall a :: a in u.artifacts ==> u.artifacts[a] == t.artifacts[a])
            && (forall k :: k in t.tags && k.0 !in gone ==> k in u.tags && u.tags[k] == t.tags[k])
            && (forall m :: m in u.typeMap <==> m in t.typeMap && m.0 !in gone)
            && u.types == t.types
  {
  }

  lemma SameVersionsAndFiles(t: Tables, gone: set<Id>, next: nat, a: Id)
    requires t.Ok(next) && a !in gone
    ensures var u := t.DropArtifacts(gone); u.HasVersions(a) == t.HasVersions(a) && u.ArtifactHasFiles(a) == t.ArtifactHasFiles(a)
  {
    ArtifactsGone(t, gone, next);
    var u := t.DropArtifacts(gone);
    hide Tables.DropArtifacts;
    forall v | v in t.versions && t.versions[v].artifact == a ensures v in u.versions && u.HasFiles(v) == t.HasFiles(v) {}
  }

  lemma VersionHasSameFiles(t: Tables, gone: set<Id>, next: nat, v: Id)
    requires t.Ok(next) && v in t.DropArtifacts(gone).versions
    ensures t.DropArtifacts(gone).HasFiles(v) == t.HasFiles(v)
  {
    ArtifactsGone(t, gone, next);
  }

  lemma NoNewDeletableFiles(t: Tables, gone: set<Id>, cutoff: int, tag: string, next: nat)
    requires t.Ok(next)
    ensures DeletableFiles(t.DropArtifacts(gone), cutoff, tag) <= DeletableFiles(t, cutoff, tag)
  {
    ArtifactsGone(t, gone, next);
    hide Tables.DropArtifacts;
  }

  lemma NoNewDeletableVersions(t: Tables, gone: set<Id>, cutoff: int, tag: string, next: nat)
    requires t.Ok(next)
    ensures DeletableVersions(t.DropArtifacts(gone), cutoff, tag) <= DeletableVersions(t, cutoff, tag)
  {
    ArtifactsGone(t, gone, next);
    var u := t.DropArtifacts(gone);
    forall v | v in u.versions ensures u.HasFiles(v) == t.HasFiles(v) {
      VersionHasSameFiles(t, gone, next, v);
    }
    hide Tables.DropArtifacts, Tables.HasFiles;
  }

  lemma NoNewDeletableArtifacts(t: Tables, gone: set<Id>, cutoff: int, tag: string, next: nat)
    requires t.Ok(next)
    ensures var u := t.DropArtifacts(gone);
            && WithoutTag(u, ArtifactsWithoutFiles(u, cutoff), tag) <= WithoutTag(t, ArtifactsWithoutFiles(t, cutoff), tag)
            && WithoutTag(u, EmptyArtifacts(u, cutoff), tag) <= WithoutTag(t, EmptyArtifacts(t, cutoff), tag)
  {
    ArtifactsGone(t, gone, next);
    var u := t.DropArtifacts(gone);
    forall a | a in u.artifacts ensures u.HasVersions(a) == t.HasVersions(a) && u.ArtifactHasFiles(a) == t.ArtifactHasFiles(a) {
      SameVersionsAndFiles(t, gone, next, a);
    }
    hide Tables.DropArtifacts, Tables.HasVersions, Tables.ArtifactHasFiles;
  }

  /** So an artifact cleanup keeps what was done before it, whichever artifacts it takes. */
  lemma ArtifactsGoneKeepsDone(t: Tables, gone: set<Id>, cutoff: int, tag: string, next: nat, n: nat)
    requires t.Ok(next) && Done(t, cutoff, tag, n) && n <= 4
    ensures Done(t.DropArtifacts(gone), cutoff, tag, n)
  {
    hide Tables.DropArtifacts, Tables.Ok, DeletableFiles, DeletableVersions, WithoutTag;
    NoNewDeletableFiles(t, gone, cutoff, tag, next);
    NoNewDeletableVersions(t, gone, cutoff, tag, next);
    NoNewDeletableArtifacts(t, gone, cutoff, tag, next);
  }

  lemma DropArtifactsWithoutFilesDone(t: Tables, cutoff: int, tag: string, next: nat)
    requires t.Ok(next)
    ensures WithoutTag(DropArtifactsWithoutFiles(t, cutoff, tag), ArtifactsWithoutFiles(DropArtifactsWithoutFiles(t, cutoff, tag), cutoff), tag) == {}
  {
    var gone := WithoutTag(t, ArtifactsWithoutFiles(t, cutoff), tag);
    var u := t.DropArtifacts(gone);
    ArtifactsGone(t, gone, next);
    hide Tables.DropArtifacts;
    forall a | a in u.artifacts ensures u.HasVersions(a) == t.HasVersions(a) && u.ArtifactHasFiles(a) == t.ArtifactHasFiles(a) {
      SameVersionsAndFiles(t, gone, next, a);
    }
    hide Tables.HasVersions, Tables.ArtifactHasFiles, Tables.Ok;
    assert WithoutTag(u, ArtifactsWithoutFiles(u, cutoff), tag) <= gone;
  }

  lemma DropEmptyArtifactsDone(t: Tables, cutoff: int, tag: string, next: nat)
    requires t.Ok(next)
    ensures WithoutTag(DropEmptyArtifacts(t, cutoff, tag), EmptyArtifacts(DropEmptyArtifacts(t, cutoff, tag), cutoff), tag) == {}
  {
    var gone := WithoutTag(t, EmptyArtifacts(t, cutoff), tag);
    var u := t.DropArtifacts(gone);
    ArtifactsGone(t, gone, next);
    hide Tables.DropArtifacts;
    forall a | a in u.artifacts ensures u.HasVersions(a) == t.HasVersions(a) && u.ArtifactHasFiles(a) == t.ArtifactHasFiles(a) {
      SameVersionsAndFiles(t, gone, next, a);
    }
    hide Tables.HasVersions, Tables.ArtifactHasFiles, Tables.Ok;
    assert WithoutTag(u, EmptyArtifacts(u, cutoff), tag) <= gone;
  }

  /** Dropping unused types touches nothing but types. */
  lemma TypesGone(t: Tables, cutoff: int)
    ensures DropUnusedTypes(t, cutoff) == t.(types := t.types - UnusedTypes(t, cutoff))
  {
    forall m | m in t.typeMap ensures m.1 !in UnusedTypes(t, cutoff) { assert Used(t, m.1); }
    assert DropUnusedTypes(t, cutoff).typeMap == t.typeMap;
  }

  lemma DropUnusedTypesDone(t: Tables, cutoff: int, tag: string)
    requires Done(t, cutoff, tag, 4)
    ensures Done(DropUnusedTypes(t, cutoff), cutoff, tag, 5)
  {
    TypesGone(t, cutoff);
    var u := DropUnusedTypes(t, cutoff);
    assert forall y :: Used(u, y) == Used(t, y);
    assert DeletableFiles(u, cutoff, tag) == DeletableFiles(t, cutoff, tag);
    assert DeletableVersions(u, cutoff, tag) == DeletableVersions(t, cutoff, tag);
    assert ArtifactsWithoutFiles(u, cutoff) == ArtifactsWithoutFiles(t, cutoff);
    assert EmptyArtifacts(u, cutoff) == EmptyArtifacts(t, cutoff);
  }

  /** After one pass no cleanup finds anything more to delete. */
  lemma OnePassIsAFixpoint(t: Tables, cutoff: int, tag: string, next: nat)
    requires t.Ok(next)
    ensures Done(Pass(t, cutoff, tag), cutoff, tag, 5) && Pass(t, cutoff, tag).Ok(next)
    ensures Pass(Pass(t, cutoff, tag), cutoff, tag) == Pass(t, cutoff, tag)
  {
    hide Tables.Ok, Done, DeletableFiles, DeletableVersions, WithoutTag, UnusedTypes, Tables.DropVersions, Tables.DropArtifacts;
    var t1 := DropIncompleteFiles(t, cutoff, tag);
    DropFilesKeepsOk(t, DeletableFiles(t, cutoff, tag), next);
    DropFilesDone(t, cutoff, tag);
    var t2 := DropVersionsWithoutFiles(t1, cutoff, tag);
    DropVersionsKeepsOk(t1, DeletableVersions(t1, cutoff, tag), next);
    DropVersionsDone(t1, cutoff, tag, next);
    var t3 := DropArtifactsWithoutFiles(t2, cutoff, tag);
    DropArtifactsKeepsOk(t2, WithoutTag(t2, ArtifactsWithoutFiles(t2, cutoff), tag), next);
    ArtifactsGoneKeepsDone(t2, WithoutTag(t2, ArtifactsWithoutFiles(t2, cutoff), tag), cutoff, tag, next, 2);
    DropArtifactsWithoutFilesDone(t2, cutoff, tag, next);
    DoneOneMore(t3, cutoff, tag);
    var t4 := DropEmptyArtifacts(t3, cutoff, tag);
    DropArtifactsKeepsOk(t3, WithoutTag(t3, EmptyArtifacts(t3, cutoff), tag), next);
    ArtifactsGoneKeepsDone(t3, WithoutTag(t3, EmptyArtifacts(t3, cutoff), tag), cutoff, tag, next, 3);
    DropEmptyArtifactsDone(t3, cutoff, tag, next);
    DoneOneMore(t4, cutoff, tag);
    DropTypesKeepsOk(t4, UnusedTypes(t4, cutoff), next);
    DropUnusedTypesDone(t4, cutoff, tag);
    NothingLeft(Pass(t, cutoff, tag), cutoff, tag);
  }

  lemma DoneOneMore(t: Tables, cutoff: int, tag: string)
    ensures Done(t, cutoff, tag, 2) && WithoutTag(t, ArtifactsWithoutFiles(t, cutoff), tag) == {} ==> Done(t, cutoff, tag, 3)
    ensures Done(t, cutoff, tag, 3) && WithoutTag(t, EmptyArtifacts(t, cutoff), tag) == {} ==> Done(t, cutoff, tag, 4)
  {
    hide DeletableFiles, DeletableVersions, WithoutTag;
  }

  lemma DropNoRows(t: Tables)
    ensures t.DropFiles({}) == t && t.DropVersions({}) == t
  {
    assert t.DropFiles({}).files == t.files;
    assert t.DropVersions({}).files == t.files && t.DropVersions({}).versions == t.versions && t.DropVersions({}).tags == t.tags;
  }

  lemma DropNoArtifacts(t: Tables)
    ensures t.DropArtifactChildren({}) == t && t.DropArtifacts({}) == t && t.DropTypes({}) == t
  {
    DropNoRows(t);
    assert t.VersionsOf({}) == {};
    assert t.(artifacts := t.artifacts - {}) == t;
    hide Tables.DropVersions;
    assert t.DropArtifactChildren({}).tags == t.tags && t.DropArtifactChildren({}).typeMap == t.typeMap;
    assert t.DropTypes({}).types == t.types && t.DropTypes({}).typeMap == t.typeMap;
  }

  lemma NothingLeft(t: Tables, cutoff: int, tag: string)
    requires Done(t, cutoff, tag, 5)
    ensures Pass(t, cutoff, tag) == t
  {
    hide DeletableFiles, DeletableVersions, WithoutTag, UnusedTypes, Tables.DropFiles, Tables.DropVersions, Tables.DropArtifacts,
         Tables.DropTypes;
    DropNoRows(t);
    DropNoArtifacts(t);
  }

  // ---- protected artifacts ----

  /** Every row of artifact a is as it was. */
  ghost predicate Kept(t: Tables, u: Tables, a: Id) {
    && (a in t.artifacts ==> a in u.artifacts && u.artifacts[a] == t.artifacts[a])
    && (forall v :: v in t.versions && t.versions[v].artifact == a ==> v in u.versions && u.versions[v] == t.versions[v])
    && (forall f :: f in t.files && t.files[f].version in t.versions && t.versions[t.files[f].version].artifact == a ==> f in u.files && u.files[f] == t.files[f])
    && (forall k :: k in t.tags && k.0 == a ==> k in u.tags && u.tags[k] == t.tags[k])
    && (forall m :: m in t.typeMap && m.0 == a ==> m in u.typeMap && (m.1 in t.types ==> m.1 in u.types))
  }

  lemma KeptAlong(t: Tables, u: Tables, w: Tables, a: Id)
    requires Kept(t, u, a) && Kept(u, w, a)
    ensures Kept(t, w, a)
  {
  }

  lemma KeptTag(t: Tables, u: Tables, a: Id, tag: string)
    requires Kept(t, u, a) && t.HasTag(a, tag)
    ensures u.HasTag(a, tag)
  {
  }

  lemma FilesGoneKeepsProtected(t: Tables, cutoff: int, tag: string, a: Id)
    requires t.HasTag(a, tag)
    ensures Kept(t, DropIncompleteFiles(t, cutoff, tag), a)
  {
  }

  lemma VersionsGoneKeepsProtected(t: Tables, cutoff: int, tag: string, a: Id, next: nat)
    requires t.Ok(next) && t.HasTag(a, tag)
    ensures Kept(t, DropVersionsWithoutFiles(t, cutoff, tag), a)
  {
    VersionsGone(t, cutoff, tag);
    var u := DropVersionsWithoutFiles(t, cutoff, tag);
    forall k | k in t.tags && k.0 == a ensures k in u.tags && u.tags[k] == t.tags[k] {
      assert t.versions[t.tags[k]].artifact == a;
    }
  }

  lemma ArtifactsGoneKeepsProtected(t: Tables, gone: set<Id>, a: Id, next: nat)
    requires t.Ok(next) && a !in gone
    ensures Kept(t, t.DropArtifacts(gone), a)
  {
    ArtifactsGone(t, gone, next);
    hide Tables.DropArtifacts;
  }

  lemma TypesGoneKeepsProtected(t: Tables, cutoff: int, a: Id)
    ensures Kept(t, DropUnusedTypes(t, cutoff), a)
  {
    TypesGone(t, cutoff);
    forall m | m in t.typeMap ensures Used(t, m.1) {}
  }

  /** A whole pass touches no row of a protected artifact. */
  lemma PassSparesProtected(t: Tables, cutoff: int, tag: string, a: Id, next: nat)
    requires t.Ok(next) && t.HasTag(a, tag)
    ensures Kept(t, Pass(t, cutoff, tag), a)
  {
    hide Tables.Ok, Kept, DeletableFiles, DeletableVersions, UnusedTypes, Tables.DropVersions, Tables.DropArtifacts, Tables.HasTag;
    var t1 := DropIncompleteFiles(t, cutoff, tag);
    DropFilesKeepsOk(t, DeletableFiles(t, cutoff, tag), next);
    FilesGoneKeepsProtected(t, cutoff, tag, a);
    KeptTag(t, t1, a, tag);
    var t2 := DropVersionsWithoutFiles(t1, cutoff, tag);
    DropVersionsKeepsOk(t1, DeletableVersions(t1, cutoff, tag), next);
    VersionsGoneKeepsProtected(t1, cutoff, tag, a, next);
    KeptAlong(t, t1, t2, a);
    KeptTag(t1, t2, a, tag);
    var gone := WithoutTag(t2, ArtifactsWithoutFiles(t2, cutoff), tag);
    var t3 := t2.DropArtifacts(gone);
    DropArtifactsKeepsOk(t2, gone, next);
    ArtifactsGoneKeepsProtected(t2, gone, a, next);
    KeptAlong(t, t2, t3, a);
    KeptTag(t2, t3, a, tag);
    gone := WithoutTag(t3, EmptyArtifacts(t3, cutoff), tag);
    var t4 := t3.DropArtifacts(gone);
    ArtifactsGoneKeepsProtected(t3, gone, a, next);
    KeptAlong(t, t3, t4, a);
    TypesGoneKeepsProtected(t4, cutoff, a);
    KeptAlong(t, t4, DropUnusedTypes(t4, cutoff), a);
  }

  // ---- the skipped counts ----

  /** max(total - deleted, 0) */
  function Skipped(total: int, deleted: int): int {
    if total - deleted > 0 then total - deleted else 0
  }

  lemma CountedButKept(all: set<Id>, deletable: set<Id>, kept: set<Id>)
    requires deletable <= all && kept == all - deletable
    ensures Skipped(|all|, |deletable|) == |kept|
  {
    assert all == deletable + kept;
  }

  function ProtectedFiles(t: Tables, cutoff: int, tag: string): set<Id> {
    set f | f in IncompleteFiles(t, cutoff) && FileProtected(t, f, tag)
  }

  function ProtectedVersions(t: Tables, cutoff: int, tag: string): set<Id> {
    set v | v in VersionsWithoutFiles(t, cutoff) && t.HasTag(t.versions[v].artifact, tag)
  }

  function WithTag(t: Tables, artifacts: set<Id>, tag: string): set<Id> {
    set a | a in artifacts && t.HasTag(a, tag)
  }

  /** With nothing changing in between, `skipped` counts exactly the protected ones. */
  lemma SkippedCountsProtected(t: Tables, cutoff: int, tag: string)
    ensures Skipped(|IncompleteFiles(t, cutoff)|, |DeletableFiles(t, cutoff, tag)|) == |ProtectedFiles(t, cutoff, tag)|
    ensures Skipped(|VersionsWithoutFiles(t, cutoff)|, |DeletableVersions(t, cutoff, tag)|) == |ProtectedVersions(t, cutoff, tag)|
    ensures var all := ArtifactsWithoutFiles(t, cutoff); Skipped(|all|, |WithoutTag(t, all, tag)|) == |WithTag(t, all, tag)|
  {
    CountedButKept(IncompleteFiles(t, cutoff), DeletableFiles(t, cutoff, tag), ProtectedFiles(t, cutoff, tag));
    CountedButKept(VersionsWithoutFiles(t, cutoff), DeletableVersions(t, cutoff, tag), ProtectedVersions(t, cutoff, tag));
    var all := ArtifactsWithoutFiles(t, cutoff);
    CountedButKept(all, WithoutTag(t, all, tag), WithTag(t, all, tag));
  }

  /** An artifact without versions carries no tag, so the empty-artifact cleanup deletes all it counts. */
  lemma EmptyArtifactsAreNeverSkipped(t: Tables, cutoff: int, tag: string, next: nat)
    requires t.Ok(next)
    ensures WithoutTag(t, EmptyArtifacts(t, cutoff), tag) == EmptyArtifacts(t, cutoff)
  {
    forall a | a in EmptyArtifacts(t, cutoff) ensures !t.HasTag(a, tag) { NoVersionsNoTags(t, a, tag, next); }
  }

  // ---- the read filters that stand for the cleanup sets ----

  /** The filters of the artifact list that look at rows, versions, files and tags. */
  datatype ArtifactFilter = ArtifactFilter(
    tag: Option<string>,
    olderThan: Option<int>,
    minVersions: Option<int>,
    maxVersions: Option<int>,
    hasFiles: Option<bool>,
    hasIncompleteFiles: Option<bool>,
    missingTag: Option<string>,
    minTotalBytes: Option<int>)

  const ANY_ARTIFACT := ArtifactFilter(None, None, None, None, None, None, None, None)

  predicate HasIncompleteFile(t: Tables, a: Id) {
    exists v :: v in t.versions && t.versions[v].artifact == a && t.HasIncompleteFiles(v)
  }

  /** ListRegistryArtifactsFiltered and its count: the AND of the filters that are set, on the stored statistics. */
  predicate SelectsArtifact(t: Tables, stats: map<Id, Stats>, f: ArtifactFilter, a: Id)
    requires a in t.artifacts && stats.Keys == t.artifacts.Keys
  {
    && (f.tag.None? || t.HasTag(a, f.tag.value))
    && (f.olderThan.None? || t.artifacts[a].created < f.olderThan.value)
    && (f.minVersions.None? || stats[a].count >= f.minVersions.value)
    && (f.maxVersions.None? || stats[a].count <= f.maxVersions.value)
    && (f.hasFiles.None? || t.ArtifactHasFiles(a) == f.hasFiles.value)
    && (f.hasIncompleteFiles.None? || HasIncompleteFile(t, a) == f.hasIncompleteFiles.value)
    && (f.missingTag.None? || !t.HasTag(a, f.missingTag.value))
    && (f.minTotalBytes.None? || stats[a].total >= f.minTotalBytes.value)
  }

  function SelectedArtifacts(t: Tables, stats: map<Id, Stats>, f: ArtifactFilter): set<Id>
    requires stats.Keys == t.artifacts.Keys
  {
    set a | a in t.artifacts && SelectsArtifact(t, stats, f, a)
  }

  lemma CountIsZeroWithoutVersions(t: Tables, bytes: map<Id, int>, stats: map<Id, Stats>, a: Id)
    requires Reflects(t, bytes, stats, t.files, {}) && a in t.artifacts
    ensures stats[a].count == 0 <==> !t.HasVersions(a)
  {
    var rows := BytesOfVersions(t.versions, bytes, a);
    if v :| v in t.versions && t.versions[v].artifact == a {
      assert v in rows;
    } else {
      assert rows == map[];
    }
  }

  lemma EmptyByCount(t: Tables, stats: map<Id, Stats>, cutoff: int)
    requires stats.Keys == t.artifacts.Keys && forall a :: a in t.artifacts ==> (stats[a].count == 0 <==> !t.HasVersions(a))
    ensures SelectedArtifacts(t, stats, ANY_ARTIFACT.(maxVersions := Some(0), olderThan := Some(cutoff))) == EmptyArtifacts(t, cutoff)
  {
    hide Tables.HasVersions, Tables.ArtifactHasFiles, Tables.HasTag, HasIncompleteFile;
  }

  lemma WithoutFilesByCount(t: Tables, stats: map<Id, Stats>, cutoff: int)
    requires stats.Keys == t.artifacts.Keys && forall a :: a in t.artifacts ==> (stats[a].count == 0 <==> !t.HasVersions(a))
    ensures SelectedArtifacts(t, stats, ANY_ARTIFACT.(minVersions := Some(1), hasFiles := Some(false), olderThan := Some(cutoff)))
         == ArtifactsWithoutFiles(t, cutoff)
  {
    hide Tables.HasVersions, Tables.ArtifactHasFiles, Tables.HasTag, HasIncompleteFile;
  }

  /** maxVersions=0 lists the empty artifacts, minVersions=1 with hasFiles=false those without files: the stored counts are right. */
  lemma ReadFiltersAreTheCleanupSets(t: Tables, bytes: map<Id, int>, stats: map<Id, Stats>, cutoff: int)
    requires Reflects(t, bytes, stats, t.files, {})
    ensures SelectedArtifacts(t, stats, ANY_ARTIFACT.(maxVersions := Some(0), olderThan := Some(cutoff))) == EmptyArtifacts(t, cutoff)
    ensures SelectedArtifacts(t, stats, ANY_ARTIFACT.(minVersions := Some(1), hasFiles := Some(false), olderThan := Some(cutoff)))
         == ArtifactsWithoutFiles(t, cutoff)
  {
    hide BytesShow, Tables.HasVersions, SelectedArtifacts, EmptyArtifacts, ArtifactsWithoutFiles;
    forall a | a in t.artifacts ensures stats[a].count == 0 <==> !t.HasVersions(a) {
      CountIsZeroWithoutVersions(t, bytes, stats, a);
    }
    EmptyByCount(t, stats, cutoff);
    WithoutFilesByCount(t, stats, cutoff);
  }

  /** What each filter of the artifact list asks of the rows, when the stored statistics are right. */
  lemma ArtifactMatchesWhen(t: Tables, bytes: map<Id, int>, stats: map<Id, Stats>, f: ArtifactFilter, a: Id)
    requires Reflects(t, bytes, stats, t.files, {}) && a in t.artifacts
    ensures a in SelectedArtifacts(t, stats, f) <==>
            var own := set v | v in t.versions && t.versions[v].artifact == a;
            && (f.tag.Some? ==> (a, f.tag.value) in t.tags)
            && (f.missingTag.Some? ==> (a, f.missingTag.value) !in t.tags)
            && (f.olderThan.Some? ==> t.artifacts[a].created < f.olderThan.value)
            && (f.minVersions.Some? ==> f.minVersions.value <= |own|)
            && (f.maxVersions.Some? ==> |own| <= f.maxVersions.value)
            && (f.hasFiles.Some? ==> (f.hasFiles.value <==> exists file :: file in t.files && t.files[file].version in own))
            && (f.hasIncompleteFiles.Some? ==>
                  (f.hasIncompleteFiles.value <==> exists file :: file in t.files && t.files[file].version in own && t.files[file].status in {PENDING, ERROR}))
            && (f.minTotalBytes.Some? ==> f.minTotalBytes.value <= StatsOf(t.versions, bytes, a).total)
  {
    var own := set v | v in t.versions && t.versions[v].artifact == a;
    OwnVersions(t, bytes, stats, a, own);
    ArtifactFiles(t, a, own);
    var some := exists file :: file in t.files && t.files[file].version in own;
    var incomplete := exists file :: file in t.files && t.files[file].version in own && t.files[file].status in {PENDING, ERROR};
    hide Tables.ArtifactHasFiles, HasIncompleteFile, Reflects, StatsOf;
    SelectsWhen(t, stats, f, a, |own|, some, incomplete, StatsOf(t.versions, bytes, a).total);
    hide SelectsArtifact;
  }

  lemma SelectsWhen(t: Tables, stats: map<Id, Stats>, f: ArtifactFilter, a: Id, count: nat, some: bool, incomplete: bool, total: int)
    requires a in t.artifacts && stats.Keys == t.artifacts.Keys && stats[a].count == count && stats[a].total == total
    requires t.ArtifactHasFiles(a) == some && HasIncompleteFile(t, a) == incomplete
    ensures SelectsArtifact(t, stats, f, a) <==>
            && (f.tag.Some? ==> (a, f.tag.value) in t.tags)
            && (f.missingTag.Some? ==> (a, f.missingTag.value) !in t.tags)
            && (f.olderThan.Some? ==> t.artifacts[a].created < f.olderThan.value)
            && (f.minVersions.Some? ==> f.minVersions.value <= count)
            && (f.maxVersions.Some? ==> count <= f.maxVersions.value)
            && (f.hasFiles.Some? ==> (f.hasFiles.value <==> some))
            && (f.hasIncompleteFiles.Some? ==> (f.hasIncompleteFiles.value <==> incomplete))
            && (f.minTotalBytes.Some? ==> f.minTotalBytes.value <= total)
  {
    hide Tables.ArtifactHasFiles, HasIncompleteFile;
  }

  lemma OwnVersions(t: Tables, bytes: map<Id, int>, stats: map<Id, Stats>, a: Id, own: set<Id>)
    requires Reflects(t, bytes, stats, t.files, {}) && a in t.artifacts && own == set v | v in t.versions && t.versions[v].artifact == a
    ensures bytes.Keys == t.versions.Keys && stats.Keys == t.artifacts.Keys
    ensures stats[a].count == |own| && stats[a].total == StatsOf(t.versions, bytes, a).total
  {
    assert BytesOfVersions(t.versions, bytes, a).Keys == own;
    hide BytesShow;
  }

  lemma ArtifactFiles(t: Tables, a: Id, own: set<Id>)
    requires own == set v | v in t.versions && t.versions[v].artifact == a
    ensures t.ArtifactHasFiles(a) <==> exists file :: file in t.files && t.files[file].version in own
    ensures HasIncompleteFile(t, a) <==> exists file :: file in t.files && t.files[file].version in own && t.files[file].status in {PENDING, ERROR}
  {
    if file :| file in t.files && t.files[file].version in own {
      assert t.HasFiles(t.files[file].version);
    }
    if file :| file in t.files && t.files[file].version in own && t.files[file].status in {PENDING, ERROR} {
      assert t.HasIncompleteFiles(t.files[file].version);
    }
  }
}
