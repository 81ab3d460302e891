/** The registry's tables, their keys and ON DELETE CASCADE rules, and the protection predicates. */
module Schema {
  import opened Wrappers
  import opened SemVer

  type Id = nat

  datatype Status = PENDING | AVAILABLE | ERROR

  datatype ArtifactRow = ArtifactRow(name: string, created: int)
  datatype VersionRow = VersionRow(artifact: Id, sv: Semver, created: int)
  datatype FileRow = FileRow(version: Id, name: string, status: Status, size: Option<int>, path: string, created: int) {
    predicate Incomplete() {
      status != AVAILABLE
    }

    /** COALESCE(size_bytes, 0) */
    function SizeOrZero(): int {
      if size.Some? then size.value else 0
    }
  }

  type VersionRows = map<Id, VersionRow>
  type FileRows = map<Id, FileRow>

  /** The row CreateArtifactFile inserts. */
  function NewFile(version: Id, name: string, created: int): FileRow {
    FileRow(version, name, PENDING, None, "pending", created)
  }

  /** The rows of every table; the trigger-maintained columns are kept apart. A tag row is keyed by its unique (artifact, tag). */
  datatype Tables = Tables(
    artifacts: map<Id, ArtifactRow>,
    versions: VersionRows,
    files: FileRows,
    tags: map<(Id, string), Id>,
    types: map<Id, int>,
    typeMap: set<(Id, Id)>)
  {
    // ---- constraints ----

    /** Foreign keys from files and tags to versions. */
    ghost predicate ChildrenHaveVersions() {
      && (forall f :: f in files ==> files[f].version in versions)
      && (forall k :: k in tags ==> tags[k] in versions)
    }

    /** The other foreign keys. */
    ghost predicate ChildrenHaveArtifacts() {
      && (forall v :: v in versions ==> versions[v].artifact in artifacts)
      && (forall k :: k in tags ==> k.0 in artifacts)
      && (forall m :: m in typeMap ==> m.0 in artifacts && m.1 in types)
    }

    /** The unique indexes on artifacts, versions and files. */
    ghost predicate Unique() {
      && UniqueNames(artifacts)
      && UniqueVersions(versions)
      && (forall f, g :: f in files && g in files && files[f].version == files[g].version && files[f].name == files[g].name ==> f == g)
    }

    /** Not a constraint of the schema: only the handlers see to it that a tag stays inside its artifact. */
    ghost predicate TagsAtHome() {
      forall k :: k in tags && tags[k] in versions ==> versions[tags[k]].artifact == k.0
    }

    /** Ids come from sequences: every one in use is below the next one handed out. */
    ghost predicate IdsBelow(next: nat) {
      && (forall a :: a in artifacts ==> a < next)
      && (forall v :: v in versions ==> v < next)
      && (forall f :: f in files ==> f < next)
      && (forall y :: y in types ==> y < next)
    }

    ghost predicate Ok(next: nat) {
      ChildrenHaveVersions() && ChildrenHaveArtifacts() && Unique() && TagsAtHome() && IdsBelow(next)
    }

    // ---- the EXISTS tests the queries use ----

    /** A tag points at the version. */
    predicate Tagged(v: Id) {
      exists k :: k in tags && tags[k] == v
    }

    predicate HasTag(a: Id, tag: string) {
      (a, tag) in tags
    }

    predicate HasFiles(v: Id) {
      exists f :: f in files && files[f].version == v
    }

    predicate HasIncompleteFiles(v: Id) {
      exists f :: f in files && files[f].version == v && files[f].Incomplete()
    }

    predicate HasVersions(a: Id) {
      exists v :: v in versions && versions[v].artifact == a
    }

    predicate ArtifactHasFiles(a: Id) {
      exists v :: v in versions && versions[v].artifact == a && HasFiles(v)
    }

    /** What a bulk delete never removes. */
    predicate Protected(v: Id, protectedTag: string)
      requires v in versions
    {
      Tagged(v) || HasTag(versions[v].artifact, protectedTag)
    }

    // ---- INSERT and UPDATE ----

    /** The unique index on full_name does not refuse this artifact. */
    predicate AcceptsArtifact(name: string) {
      !exists a :: a in artifacts && artifacts[a].name == name
    }

    /** Neither the foreign key nor the unique index on (version_id, name) refuses this file. */
    predicate AcceptsFile(version: Id, name: string) {
      version in versions && !exists f :: f in files && files[f].version == version && files[f].name == name
    }

    /** Neither the foreign key nor the unique index on (artifact_id, major, minor, patch) refuses this version. */
    predicate AcceptsVersion(artifact: Id, sv: Semver) {
      artifact in artifacts && !exists v :: v in versions && versions[v].artifact == artifact && versions[v].sv == sv
    }

    function PutArtifact(id: Id, row: ArtifactRow): Tables {
      this.(artifacts := artifacts[id := row])
    }

    function PutVersion(id: Id, row: VersionRow): Tables {
      this.(versions := versions[id := row])
    }

    function PutFile(id: Id, row: FileRow): Tables {
      this.(files := files[id := row])
    }

    function SetFile(id: Id, path: string, size: Option<int>, status: Status): Tables {
      if id in files then PutFile(id, files[id].(path := path, size := size, status := status)) else this
    }

    function PutTag(artifact: Id, tag: string, version: Id): Tables {
      if version in versions then this.(tags := tags[(artifact, tag) := version]) else this
    }

    /** The upserts of version creation: every listed tag of the artifact now points at the version. */
    function TagAll(artifact: Id, names: seq<string>, version: Id): Tables
      requires version in versions
    {
      if names == [] then this
      else TagAll(artifact, names[..|names| - 1], version).PutTag(artifact, names[|names| - 1], version)
    }

    // ---- DELETE with its cascades ----

    function DropTag(artifact: Id, tag: string): Tables {
      this.(tags := tags - {(artifact, tag)})
    }

    function FilesOf(v: Id): set<Id> {
      set f | f in files && files[f].version == v
    }

    function DropFiles(ids: set<Id>): Tables {
      this.(files := files - ids)
    }

    function DropTags(ids: set<Id>): Tables {
      this.(tags := map k | k in tags && tags[k] !in ids :: tags[k])
    }

    function DropChildren(ids: set<Id>): Tables {
      DropTags(ids).(files := map f | f in files && files[f].version !in ids :: files[f])
    }

    function DropVersions(ids: set<Id>): Tables {
      DropChildren(ids).(versions := versions - ids)
    }

    function VersionsOf(ids: set<Id>): set<Id> {
      set v | v in versions && versions[v].artifact in ids
    }

    function DropArtifactChildren(ids: set<Id>): Tables {
      this.(tags := map k | k in tags && k.0 !in ids :: tags[k], typeMap := set m | m in typeMap && m.0 !in ids)
    }

    function DropArtifacts(ids: set<Id>): Tables {
      this.(artifacts := artifacts - ids).DropVersions(VersionsOf(ids)).DropArtifactChildren(ids)
    }

    function DropTypes(ids: set<Id>): Tables {
      this.(types := types - ids, typeMap := set m | m in typeMap && m.1 !in ids)
    }
  }

  ghost predicate UniqueNames(artifacts: map<Id, ArtifactRow>) {
    forall a, b :: a in artifacts && b in artifacts && artifacts[a].name == artifacts[b].name ==> a == b
  }

  ghost predicate UniqueVersions(versions: VersionRows) {
    forall v, w :: v in versions && w in versions && versions[v].artifact == versions[w].artifact && versions[v].sv == versions[w].sv ==> v == w
  }

  // ---- every statement keeps every constraint ----

  lemma PutArtifactKeepsOk(t: Tables, row: ArtifactRow, next: nat)
    requires t.Ok(next) && t.AcceptsArtifact(row.name)
    ensures t.PutArtifact(next, row).Ok(next + 1)
  {
  }

  lemma PutVersionKeepsOk(t: Tables, row: VersionRow, next: nat)
    requires t.Ok(next) && t.AcceptsVersion(row.artifact, row.sv)
    ensures t.PutVersion(next, row).Ok(next + 1)
  {
  }

  /** A new file, or a row that keeps its version and name. */
  lemma PutFileKeepsOk(t: Tables, id: Id, row: FileRow, next: nat)
    requires t.Ok(next)
    requires if id in t.files then t.files[id].version == row.version && t.files[id].name == row.name
             else id == next && t.AcceptsFile(row.version, row.name)
    ensures t.PutFile(id, row).Ok(if id in t.files then next else next + 1)
  {
    hide UniqueNames, UniqueVersions;
  }

  lemma PutTagKeepsOk(t: Tables, artifact: Id, tag: string, version: Id, next: nat)
    requires t.Ok(next) && (version in t.versions ==> t.versions[version].artifact == artifact)
    ensures t.PutTag(artifact, tag, version).Ok(next)
  {
  }

  lemma DropTagKeepsOk(t: Tables, artifact: Id, tag: string, next: nat)
    requires t.Ok(next)
    ensures t.DropTag(artifact, tag).Ok(next)
  {
  }

  lemma OkParts(t: Tables, next: nat)
    requires t.Ok(next)
    ensures t.ChildrenHaveVersions() && t.IdsBelow(next) && UniqueVersions(t.versions)
  {
  }

  lemma OkWithMoreIds(t: Tables, next: nat, more: nat)
    requires t.Ok(next) && next <= more
    ensures t.Ok(more)
  {
  }

  /** What TagAll leaves: the listed tags at the version, every other tag and table as it was. */
  lemma {:induction false} TagAllTags(t: Tables, artifact: Id, names: seq<string>, version: Id)
    requires version in t.versions
    ensures var u := t.TagAll(artifact, names, version);
            && u == t.(tags := u.tags)
            && (forall k :: k in u.tags <==> k in t.tags || (k.0 == artifact && k.1 in names))
            && (forall k :: k in u.tags ==> u.tags[k] == if k.0 == artifact && k.1 in names then version else t.tags[k])
  {
    if names != [] {
      var rest := names[..|names| - 1];
      TagAllTags(t, artifact, rest, version);
      assert forall x :: x in names <==> x in rest || x == names[|names| - 1] by {
        assert names == rest + [names[|names| - 1]];
      }
    }
  }

  lemma DropFilesKeepsOk(t: Tables, ids: set<Id>, next: nat)
    requires t.Ok(next)
    ensures t.DropFiles(ids).Ok(next)
  {
  }

  lemma DropVersionsKeepsOk(t: Tables, ids: set<Id>, next: nat)
    requires t.Ok(next)
    ensures t.DropVersions(ids).Ok(next)
  {
  }

  lemma DropArtifactsKeepsOk(t: Tables, ids: set<Id>, next: nat)
    requires t.Ok(next)
    ensures t.DropArtifacts(ids).Ok(next)
  {
  }

  lemma DropTypesKeepsOk(t: Tables, ids: set<Id>, next: nat)
    requires t.Ok(next)
    ensures t.DropTypes(ids).Ok(next)
  {
  }

  // ---- a cascade row by row is the cascade at once ----

  lemma DropChildrenStep(t: Tables, ids: set<Id>, v: Id)
    ensures t.DropChildren(ids).DropChildren({v}) == t.DropChildren(ids + {v})
  {
  }

  lemma DropChildrenIsDropVersions(t: Tables, ids: set<Id>)
    requires t.ChildrenHaveVersions()
    ensures t.DropChildren(ids * t.versions.Keys).(versions := t.versions - ids * t.versions.Keys) == t.DropVersions(ids)
  {
    var some := ids * t.versions.Keys;
    assert t.versions - some == t.versions - ids;
    assert t.DropChildren(some).files == t.DropChildren(ids).files;
    assert t.DropChildren(some).tags == t.DropChildren(ids).tags;
  }

  /** In a registry that only ever tagged versions of the tag's artifact, an artifact without versions has no tags. */
  lemma NoVersionsNoTags(t: Tables, a: Id, tag: string, next: nat)
    requires t.Ok(next) && !t.HasVersions(a)
    ensures !t.HasTag(a, tag)
  {
  }

  // ---- the same, row by row ----

  /** An insert is refused exactly when it would break a constraint. */
  lemma RefusedOnViolation(t: Tables, next: nat, artifact: ArtifactRow, version: VersionRow, file: FileRow)
    requires t.Ok(next)
    ensures t.AcceptsArtifact(artifact.name) <==> t.PutArtifact(next, artifact).Ok(next + 1)
    ensures t.AcceptsVersion(version.artifact, version.sv) <==> t.PutVersion(next, version).Ok(next + 1)
    ensures t.AcceptsFile(file.version, file.name) <==> t.PutFile(next, file).Ok(next + 1)
  {
    RefusedNames(t, next, artifact);
    RefusedVersions(t, next, version);
    RefusedFiles(t, next, file);
  }

  /** A tag is allowed to point at a version exactly when that is one of the tag's artifact, and a type can be assigned exactly when both are there. */
  lemma AllowedReferences(t: Tables, next: nat, a: Id, tag: string, v: Id, y: Id)
    requires t.Ok(next)
    ensures t.(tags := t.tags[(a, tag) := v]).Ok(next) <==> a in t.artifacts && v in t.versions && t.versions[v].artifact == a
    ensures t.(typeMap := t.typeMap + {(a, y)}).Ok(next) <==> a in t.artifacts && y in t.types
  {
    hide UniqueNames, UniqueVersions;
    var tagged, mapped := t.(tags := t.tags[(a, tag) := v]), t.(typeMap := t.typeMap + {(a, y)});
    assert tagged.tags[(a, tag)] == v && (a, y) in mapped.typeMap;
    assert tagged.Unique() && mapped.Unique();
  }

  lemma RefusedNames(t: Tables, next: nat, row: ArtifactRow)
    requires t.Ok(next)
    ensures t.AcceptsArtifact(row.name) <==> t.PutArtifact(next, row).Ok(next + 1)
  {
    if t.AcceptsArtifact(row.name) {
      PutArtifactKeepsOk(t, row, next);
    } else {
      var a :| a in t.artifacts && t.artifacts[a].name == row.name;
      assert t.PutArtifact(next, row).artifacts[a].name == t.PutArtifact(next, row).artifacts[next].name;
    }
  }

  lemma RefusedVersions(t: Tables, next: nat, row: VersionRow)
    requires t.Ok(next)
    ensures t.AcceptsVersion(row.artifact, row.sv) <==> t.PutVersion(next, row).Ok(next + 1)
  {
    if t.AcceptsVersion(row.artifact, row.sv) {
      PutVersionKeepsOk(t, row, next);
    } else if row.artifact !in t.artifacts {
      assert t.PutVersion(next, row).versions[next].artifact !in t.artifacts;
    } else {
      var v :| v in t.versions && t.versions[v].artifact == row.artifact && t.versions[v].sv == row.sv;
      assert t.PutVersion(next, row).versions[v].artifact == t.PutVersion(next, row).versions[next].artifact;
    }
  }

  lemma RefusedFiles(t: Tables, next: nat, row: FileRow)
    requires t.Ok(next)
    ensures t.AcceptsFile(row.version, row.name) <==> t.PutFile(next, row).Ok(next + 1)
  {
    if t.AcceptsFile(row.version, row.name) {
      PutFileKeepsOk(t, next, row, next);
    } else if row.version !in t.versions {
      assert t.PutFile(next, row).files[next].version !in t.versions;
    } else {
      var f :| f in t.files && t.files[f].version == row.version && t.files[f].name == row.name;
      assert t.PutFile(next, row).files[f].name == t.PutFile(next, row).files[next].name;
    }
  }

  /** An upsert or delete of a tag: that one key and nothing else. */
  lemma OneTagChanges(t: Tables, artifact: Id, tag: string, version: Id)
    ensures var u := t.DropTag(artifact, tag);
            && (forall k :: k in u.tags <==> k in t.tags && !(k.0 == artifact && k.1 == tag))
            && (forall k :: k in u.tags ==> u.tags[k] == t.tags[k])
            && u == t.(tags := u.tags)
    ensures version in t.versions ==>
              var u := t.PutTag(artifact, tag, version);
              && (forall k :: k in u.tags <==> k in t.tags || (k.0 == artifact && k.1 == tag))
              && (forall k :: k in u.tags ==> u.tags[k] == if k.0 == artifact && k.1 == tag then version else t.tags[k])
              && u == t.(tags := u.tags)
    ensures version !in t.versions ==> t.PutTag(artifact, tag, version) == t
  {
  }

  /** An update of a file: path, size and status of that row and nothing else. */
  lemma OneFileChanges(t: Tables, id: Id, path: string, size: Option<int>, status: Status)
    ensures var u := t.SetFile(id, path, size, status);
            && u.files.Keys == t.files.Keys && u == t.(files := u.files)
            && (forall f :: f in u.files && f != id ==> u.files[f] == t.files[f])
            && (id in t.files ==> u.files[id] == FileRow(t.files[id].version, t.files[id].name, status, size, path, t.files[id].created))
  {
  }

  /** A delete of versions: those rows, their files and the tags that point at them. */
  lemma DeletedVersions(t: Tables, ids: set<Id>)
    ensures var u := t.DropVersions(ids);
            && (forall v :: v in u.versions <==> v in t.versions && v !in ids) && (forall v :: v in u.versions ==> u.versions[v] == t.versions[v])
            && (forall f :: f in u.files <==> f in t.files && t.files[f].version !in ids) && (forall f :: f in u.files ==> u.files[f] == t.files[f])
            && (forall k :: k in u.tags <==> k in t.tags && t.tags[k] !in ids) && (forall k :: k in u.tags ==> u.tags[k] == t.tags[k])
            && u == t.(versions := u.versions, files := u.files, tags := u.tags)
  {
  }

  /** A delete of artifacts: those rows, and whatever belongs to one of their versions or to them. */
  lemma DeletedArtifacts(t: Tables, ids: set<Id>)
    ensures var u := t.DropArtifacts(ids);
            && (forall a :: a in u.artifacts <==> a in t.artifacts && a !in ids) && (forall a :: a in u.artifacts ==> u.artifacts[a] == t.artifacts[a])
            && (forall v :: v in u.versions <==> v in t.versions && t.versions[v].artifact !in ids)
            && (forall v :: v in u.versions ==> u.versions[v] == t.versions[v])
            && (forall f :: f in u.files <==> f in t.files && (t.files[f].version in t.versions ==> t.versions[t.files[f].version].artifact !in ids))
            && (forall f :: f in u.files ==> u.files[f] == t.files[f])
            && (forall k :: k in u.tags <==> k in t.tags && k.0 !in ids && (t.tags[k] in t.versions ==> t.versions[t.tags[k]].artifact !in ids))
            && (forall k :: k in u.tags ==> u.tags[k] == t.tags[k])
            && (forall m :: m in u.typeMap <==> m in t.typeMap && m.0 !in ids) && u.types == t.types
  {
  }

  /** Types go with their assignments, files go alone. */
  lemma DeletedTypesAndFiles(t: Tables, ids: set<Id>)
    ensures var u := t.DropTypes(ids);
            && (forall y :: y in u.types <==> y in t.types && y !in ids) && (forall y :: y in u.types ==> u.types[y] == t.types[y])
            && (forall m :: m in u.typeMap <==> m in t.typeMap && m.1 !in ids) && u == t.(types := u.types, typeMap := u.typeMap)
    ensures var u := t.DropFiles(ids);
            && (forall f :: f in u.files <==> f in t.files && f !in ids) && (forall f :: f in u.files ==> u.files[f] == t.files[f])
            && u == t.(files := u.files)
  {
  }
}
