/** ListVersionsFiltered: the one query behind the version lists and the bulk deletes. */
module VersionQuery {
  import opened Wrappers
  import opened SemVer
  import opened Schema
  import opened RowOrder

  /** The optional filters; None is SQL NULL, which the query ignores. */
  datatype Filter = Filter(
    keepLast: Option<int>,
    olderThan: Option<int>,
    from: Option<Semver>,
    below: Option<Semver>,
    versions: Option<seq<string>>,
    hasFiles: Option<bool>,
    hasIncompleteFiles: Option<bool>,
    minBytes: Option<int>,
    maxBytes: Option<int>)
  {
    predicate AnySet() {
      keepLast.Some? || olderThan.Some? || from.Some? || below.Some? || versions.Some? || hasFiles.Some? || hasIncompleteFiles.Some?
      || minBytes.Some? || maxBytes.Some?
    }
  }

  /** Which versions a list or a bulk delete is about; no artifact means every artifact. */
  datatype Selection = Selection(filter: Filter, artifact: Option<Id>, protectedTag: string, deletableOnly: bool)

  datatype Row = Row(id: Id, artifact: Id, sv: Semver, bytes: int, protected: bool, total: nat)

  /** The versions WHERE lets into the `ranked` step. */
  function Scope(versions: VersionRows, artifact: Option<Id>): set<Id> {
    set v | v in versions && (artifact.None? || versions[v].artifact == artifact.value)
  }

  function Partition(versions: VersionRows, artifact: Option<Id>, a: Id): set<Id> {
    set v | v in Scope(versions, artifact) && versions[v].artifact == a
  }

  /** row_number() OVER (PARTITION BY artifact_id ORDER BY the version, newest first) */
  function RowNumber(versions: VersionRows, artifact: Option<Id>, v: Id): nat
    requires UniqueVersions(versions) && v in Scope(versions, artifact)
  {
    Position(Ordered(versions, Partition(versions, artifact, versions[v].artifact)), v) + 1
  }

  predicate Passes<T(==)>(bound: Option<T>, actual: T) {
    bound.None? || actual == bound.value
  }

  /** The AND of every filter that is set. */
  predicate Selects(t: Tables, bytes: map<Id, int>, f: Filter, v: Id, rn: nat)
    requires v in t.versions && bytes.Keys == t.versions.Keys
  {
    var row := t.versions[v];
    && (f.keepLast.None? || rn > f.keepLast.value)
    && (f.olderThan.None? || row.created < f.olderThan.value)
    && (f.from.None? || !row.sv.Below(f.from.value))
    && (f.below.None? || row.sv.Below(f.below.value))
    && (f.versions.None? || row.sv.String() in f.versions.value)
    && Passes(f.hasFiles, t.HasFiles(v))
    && Passes(f.hasIncompleteFiles, t.HasIncompleteFiles(v))
    && (f.minBytes.None? || bytes[v] >= f.minBytes.value)
    && (f.maxBytes.None? || bytes[v] <= f.maxBytes.value)
  }

  ghost predicate Consistent(t: Tables, bytes: map<Id, int>) {
    UniqueVersions(t.versions) && bytes.Keys == t.versions.Keys
  }

  function Matched(t: Tables, bytes: map<Id, int>, p: Selection): (ids: set<Id>)
    requires Consistent(t, bytes)
    ensures ids <= t.versions.Keys
  {
    set v | v in Scope(t.versions, p.artifact)
          && Selects(t, bytes, p.filter, v, RowNumber(t.versions, p.artifact, v))
          && !(p.deletableOnly && t.Protected(v, p.protectedTag))
  }

  /** The matching versions in order, before LIMIT and OFFSET. */
  function Listed(t: Tables, bytes: map<Id, int>, p: Selection): (ids: seq<Id>)
    requires Consistent(t, bytes)
    ensures forall v :: v in ids <==> v in Matched(t, bytes, p)
  {
    Ordered(t.versions, Matched(t, bytes, p))
  }

  function RowOf(t: Tables, bytes: map<Id, int>, protectedTag: string, v: Id, total: nat): Row
    requires v in t.versions && bytes.Keys == t.versions.Keys
  {
    Row(v, t.versions[v].artifact, t.versions[v].sv, bytes[v], t.Protected(v, protectedTag), total)
  }

  function RowsFor(t: Tables, bytes: map<Id, int>, protectedTag: string, ids: seq<Id>): (rows: seq<Row>)
    requires (forall v :: v in ids ==> v in t.versions) && bytes.Keys == t.versions.Keys
    ensures |rows| == |ids|
    ensures forall i :: 0 <= i < |rows| ==> rows[i] == RowOf(t, bytes, protectedTag, ids[i], |ids|)
  {
    seq(|ids|, i requires 0 <= i < |ids| => RowOf(t, bytes, protectedTag, ids[i], |ids|))
  }

  function AllRows(t: Tables, bytes: map<Id, int>, p: Selection): seq<Row>
    requires Consistent(t, bytes)
  {
    RowsFor(t, bytes, p.protectedTag, Listed(t, bytes, p))
  }

  function Slice<T>(s: seq<T>, offset: nat, limit: Option<nat>): seq<T> {
    if offset >= |s| then []
    else if limit.None? || offset + limit.value >= |s| then s[offset..]
    else s[offset..offset + limit.value]
  }

  function ListVersionsFiltered(t: Tables, bytes: map<Id, int>, p: Selection, limit: Option<nat>, offset: nat): seq<Row>
    requires Consistent(t, bytes)
  {
    Slice(AllRows(t, bytes, p), offset, limit)
  }

  // ---- row numbers ----

  /** The greater versions of the same artifact, in the whole table. */
  function Greater(versions: VersionRows, v: Id): set<Id>
    requires v in versions
  {
    set w | w in versions && versions[w].artifact == versions[v].artifact && versions[v].sv.Below(versions[w].sv)
  }

  /** Whatever the scope, a row number is one plus the number of greater versions in the artifact. */
  lemma RowNumberCountsGreater(versions: VersionRows, artifact: Option<Id>, v: Id)
    requires UniqueVersions(versions) && v in Scope(versions, artifact)
    ensures RowNumber(versions, artifact, v) == 1 + |Greater(versions, v)|
  {
    var ids := Partition(versions, artifact, versions[v].artifact);
    PositionCountsPredecessors(versions, ids, v);
    assert Before(versions, ids, v) == Greater(versions, v);
  }

  /** The newest k versions of an artifact. */
  ghost function Newest(versions: VersionRows, a: Id, k: nat): set<Id> {
    set v | v in versions && versions[v].artifact == a && 1 + |Greater(versions, v)| <= k
  }

  function Elements(s: seq<Id>): set<Id> {
    set v | v in s
  }

  lemma {:induction false} DistinctElements(rows: VersionRows, s: seq<Id>)
    requires UniqueVersions(rows) && (forall v :: v in s ==> v in rows) && Sorted(rows, s)
    ensures |Elements(s)| == |s|
  {
    if s == [] {
      assert Elements(s) == {};
    } else {
      DistinctElements(rows, s[1..]);
      forall v ensures v in s[1..] <==> v in s && v != s[0] { TailElements(rows, s, v); }
      assert Elements(s) == Elements(s[1..]) + {s[0]};
    }
  }

  lemma PrefixPositions(rows: VersionRows, s: seq<Id>, m: nat, v: Id)
    requires UniqueVersions(rows) && (forall w :: w in s ==> w in rows) && Sorted(rows, s) && m <= |s| && v in s
    ensures v in s[..m] <==> Position(s, v) < m
  {
    if j :| 0 <= j < m && s[j] == v {
      SamePosition(rows, s, j, Position(s, v));
    }
  }

  lemma NewestIsAPrefix(versions: VersionRows, a: Id, k: nat)
    requires UniqueVersions(versions)
    ensures var s := Ordered(versions, Partition(versions, None, a));
            Newest(versions, a, k) == Elements(s[..if k <= |s| then k else |s|])
  {
    var s := Ordered(versions, Partition(versions, None, a));
    OrderedIsSorted(versions, Partition(versions, None, a));
    var m := if k <= |s| then k else |s|;
    forall v | v in s ensures v in s[..m] <==> 1 + |Greater(versions, v)| <= k {
      RowNumberCountsGreater(versions, None, v);
      PrefixPositions(versions, s, m, v);
    }
    hide Greater, Sorted;
    forall v ensures v in Newest(versions, a, k) <==> v in s[..m] {
      assert v in s[..m] ==> v in s;
    }
  }

  /** They are min(k, n) many, and every version above one of them is one of them. */
  lemma NewestAreTheGreatest(versions: VersionRows, a: Id, k: nat)
    requires UniqueVersions(versions)
    ensures |Newest(versions, a, k)| == var n := |Partition(versions, None, a)|; if k <= n then k else n
    ensures forall v, w :: v in Newest(versions, a, k) && w in versions && versions[w].artifact == a && versions[v].sv.Below(versions[w].sv)
              ==> w in Newest(versions, a, k)
  {
    NewestIsAPrefix(versions, a, k);
    var s := Ordered(versions, Partition(versions, None, a));
    OrderedIsSorted(versions, Partition(versions, None, a));
    DistinctElements(versions, s[..if k <= |s| then k else |s|]);
    hide Greater, Sorted, Partition;
    forall v, w | v in Newest(versions, a, k) && w in versions && versions[w].artifact == a && versions[v].sv.Below(versions[w].sv)
      ensures w in Newest(versions, a, k)
    {
      GreaterHasFewerAbove(versions, v, w);
    }
  }

  lemma SamePosition(rows: VersionRows, s: seq<Id>, i: nat, j: nat)
    requires UniqueVersions(rows) && (forall v :: v in s ==> v in rows) && Sorted(rows, s) && i < |s| && j < |s| && s[i] == s[j]
    ensures i == j
  {
    PrecedesIsStrictTotalOrder(rows, s[i], s[j], s[i]);
  }

  lemma GreaterHasFewerAbove(versions: VersionRows, v: Id, w: Id)
    requires v in versions && w in versions && versions[w].artifact == versions[v].artifact && versions[v].sv.Below(versions[w].sv)
    ensures |Greater(versions, w)| < |Greater(versions, v)|
  {
    Fewer(Greater(versions, w), Greater(versions, v), w);
  }

  lemma Fewer(small: set<Id>, big: set<Id>, extra: Id)
    requires small <= big && extra in big && extra !in small
    ensures |small| < |big|
  {
    var more := small + {extra};
    assert |more| == |small| + 1;
    NoLarger(more, big);
  }

  lemma NoLarger(small: set<Id>, big: set<Id>)
    requires small <= big
    ensures |small| <= |big|
  {
    assert big == small + (big - small);
  }

  /** keepLast = k: the newest k versions of an artifact are never among the matches, in either scope. */
  lemma KeepLastSparesTheNewest(t: Tables, bytes: map<Id, int>, p: Selection, a: Id, k: nat)
    requires Consistent(t, bytes) && p.filter.keepLast == Some(k)
    ensures Newest(t.versions, a, k) !! Matched(t, bytes, p)
  {
    forall v | v in Newest(t.versions, a, k) && v in Matched(t, bytes, p) ensures false {
      RowNumberCountsGreater(t.versions, p.artifact, v);
    }
  }

  // ---- what the filters mean together ----

  /** Between from (inclusive) and below (exclusive) the versions can be split anywhere: every match is in exactly one half. */
  lemma RangesSplit(t: Tables, bytes: map<Id, int>, f: Filter, v: Id, rn: nat, at: Semver)
    requires v in t.versions && bytes.Keys == t.versions.Keys
    requires f.from.Some? ==> !at.Below(f.from.value)
    requires f.below.Some? ==> !f.below.value.Below(at)
    ensures Selects(t, bytes, f, v, rn) <==> Selects(t, bytes, f.(below := Some(at)), v, rn) || Selects(t, bytes, f.(from := Some(at)), v, rn)
    ensures !(Selects(t, bytes, f.(below := Some(at)), v, rn) && Selects(t, bytes, f.(from := Some(at)), v, rn))
  {
    hide Tables.HasFiles, Tables.HasIncompleteFiles;
    var sv := t.versions[v].sv;
    if f.from.Some? {
      BelowIsStrictTotalOrder(sv, f.from.value, at);
      BelowIsStrictTotalOrder(f.from.value, at, sv);
      BelowIsStrictTotalOrder(at, sv, f.from.value);
    }
    if f.below.Some? {
      BelowIsStrictTotalOrder(sv, at, f.below.value);
      BelowIsStrictTotalOrder(at, f.below.value, sv);
    }
  }

  /** A size bound, with or without files, with or without incomplete files: each pair of opposite filters splits the matches in two. */
  lemma OppositeFiltersSplit(t: Tables, bytes: map<Id, int>, f: Filter, v: Id, rn: nat, m: int)
    requires v in t.versions && bytes.Keys == t.versions.Keys
    ensures f.minBytes.None? && f.maxBytes.None? ==>
              (Selects(t, bytes, f, v, rn) <==>
                 (Selects(t, bytes, f.(minBytes := Some(m + 1)), v, rn) <==> !Selects(t, bytes, f.(maxBytes := Some(m)), v, rn)))
    ensures f.hasFiles.None? ==>
              (Selects(t, bytes, f, v, rn) <==>
                 (Selects(t, bytes, f.(hasFiles := Some(true)), v, rn) <==> !Selects(t, bytes, f.(hasFiles := Some(false)), v, rn)))
    ensures f.hasIncompleteFiles.None? ==>
              (Selects(t, bytes, f, v, rn) <==>
                 (Selects(t, bytes, f.(hasIncompleteFiles := Some(true)), v, rn) <==> !Selects(t, bytes, f.(hasIncompleteFiles := Some(false)), v, rn)))
  {
    hide Tables.HasFiles, Tables.HasIncompleteFiles;
  }

  // ---- scoping, protection and paging ----

  /** Cutting the registry-wide listing down to one artifact gives the artifact's own listing, row numbers included. */
  lemma ScopingCommutes(t: Tables, bytes: map<Id, int>, p: Selection, a: Id)
    requires Consistent(t, bytes)
    ensures Keep(Listed(t, bytes, p.(artifact := None)), t.VersionsOf({a})) == Listed(t, bytes, p.(artifact := Some(a)))
    ensures forall v :: v in t.VersionsOf({a}) ==> RowNumber(t.versions, None, v) == RowNumber(t.versions, Some(a), v)
  {
    hide Selects, RowNumber, Tables.Protected;
    forall v | v in t.VersionsOf({a}) ensures RowNumber(t.versions, None, v) == RowNumber(t.versions, Some(a), v) {
      RowNumberCountsGreater(t.versions, None, v);
      RowNumberCountsGreater(t.versions, Some(a), v);
    }
    MatchedWithin(t, bytes, p, a);
    hide Matched;
    OrderedKeep(t.versions, Matched(t, bytes, p.(artifact := None)), t.VersionsOf({a}));
  }

  lemma MatchedWithin(t: Tables, bytes: map<Id, int>, p: Selection, a: Id)
    requires Consistent(t, bytes)
    requires forall v :: v in t.VersionsOf({a}) ==> RowNumber(t.versions, None, v) == RowNumber(t.versions, Some(a), v)
    ensures Matched(t, bytes, p.(artifact := None)) * t.VersionsOf({a}) == Matched(t, bytes, p.(artifact := Some(a)))
  {
    hide Selects, RowNumber, Tables.Protected;
  }

  ghost function Unprotected(t: Tables, protectedTag: string): set<Id> {
    set v | v in t.versions && !t.Protected(v, protectedTag)
  }

  /** deletable=true shows, in the same order, exactly the unprotected rows of the plain listing. */
  lemma DeletableShowsUnprotected(t: Tables, bytes: map<Id, int>, p: Selection)
    requires Consistent(t, bytes)
    ensures Listed(t, bytes, p.(deletableOnly := true)) == Keep(Listed(t, bytes, p.(deletableOnly := false)), Unprotected(t, p.protectedTag))
  {
    var all := Matched(t, bytes, p.(deletableOnly := false));
    OrderedKeep(t.versions, all, Unprotected(t, p.protectedTag));
    assert all * Unprotected(t, p.protectedTag) == Matched(t, bytes, p.(deletableOnly := true));
  }

  function PageStart(page: nat, size: nat): nat {
    page * size
  }

  /** `n` consecutive pages from the first. */
  function Pages(t: Tables, bytes: map<Id, int>, p: Selection, size: nat, n: nat): seq<Row>
    requires Consistent(t, bytes)
  {
    if n == 0 then [] else Pages(t, bytes, p, size, n - 1) + ListVersionsFiltered(t, bytes, p, Some(size), PageStart(n - 1, size))
  }

  lemma NextPage<T>(s: seq<T>, size: nat, offset: nat)
    ensures Slice(s, 0, Some(offset)) + Slice(s, offset, Some(size)) == Slice(s, 0, Some(offset + size))
  {
  }

  /** Consecutive pages concatenate to the whole listing: no gap, no repeat. */
  lemma {:induction false} PagesConcatenate(t: Tables, bytes: map<Id, int>, p: Selection, size: nat, n: nat)
    requires Consistent(t, bytes)
    ensures Pages(t, bytes, p, size, n) == Slice(AllRows(t, bytes, p), 0, Some(PageStart(n, size)))
    ensures PageStart(n, size) >= |AllRows(t, bytes, p)| ==> Pages(t, bytes, p, size, n) == AllRows(t, bytes, p)
  {
    hide AllRows, Consistent;
    if n > 0 {
      PagesConcatenate(t, bytes, p, size, n - 1);
      NextPage(AllRows(t, bytes, p), size, PageStart(n - 1, size));
      assert PageStart(n, size) == PageStart(n - 1, size) + size;
    }
  }

  /** Every page that has a row reports the match count; past the end, the first row has it, if there is one. */
  lemma EveryRowCarriesTheTotal(t: Tables, bytes: map<Id, int>, p: Selection, limit: Option<nat>, offset: nat)
    requires Consistent(t, bytes)
    ensures forall r :: r in ListVersionsFiltered(t, bytes, p, limit, offset) ==> r.total == |Matched(t, bytes, p)|
    ensures var first := ListVersionsFiltered(t, bytes, p, Some(1), 0);
            |Matched(t, bytes, p)| == if first == [] then 0 else first[0].total
  {
    hide Matched, Consistent, Tables.Protected;
    var rows := AllRows(t, bytes, p);
    assert |rows| == |Matched(t, bytes, p)| && forall r :: r in rows ==> r.total == |rows|;
    hide AllRows;
    assert forall r :: r in Slice(rows, offset, limit) ==> r in rows;
  }

  // ---- deleting what matched ----

  /** Removing deletable versions leaves the tags alone, and what else a filter looks at of a version that stays. */
  lemma DeletingUnprotectedFrames(t: Tables, gone: set<Id>, protectedTag: string, v: Id)
    requires gone <= Unprotected(t, protectedTag) && v in t.versions && v !in gone
    ensures t.DropVersions(gone).tags == t.tags
    ensures t.DropVersions(gone).versions[v] == t.versions[v]
    ensures t.DropVersions(gone).HasFiles(v) == t.HasFiles(v)
    ensures t.DropVersions(gone).HasIncompleteFiles(v) == t.HasIncompleteFiles(v)
    ensures t.DropVersions(gone).Protected(v, protectedTag) == t.Protected(v, protectedTag)
  {
    var u := t.DropVersions(gone);
    assert u.tags == t.tags;
    forall f | f in t.files && t.files[f].version == v ensures f in u.files && u.files[f] == t.files[f] {}
  }

  lemma RowNumbersOnlyFall(versions: VersionRows, gone: set<Id>, artifact: Option<Id>, v: Id)
    requires UniqueVersions(versions) && v in Scope(versions - gone, artifact)
    ensures RowNumber(versions - gone, artifact, v) <= RowNumber(versions, artifact, v)
  {
    RowNumberCountsGreater(versions, artifact, v);
    RowNumberCountsGreater(versions - gone, artifact, v);
    NoLarger(Greater(versions - gone, v), Greater(versions, v));
  }

  function Deletable(t: Tables, bytes: map<Id, int>, p: Selection): set<Id>
    requires Consistent(t, bytes)
  {
    Matched(t, bytes, p.(deletableOnly := true))
  }

  lemma SelectedBefore(t: Tables, bytes: map<Id, int>, f: Filter, gone: set<Id>, protectedTag: string, v: Id, rn: nat, before: nat)
    requires bytes.Keys == t.versions.Keys && gone <= Unprotected(t, protectedTag) && v in t.versions && v !in gone
    requires Selects(t.DropVersions(gone), bytes - gone, f, v, rn) && rn <= before
    ensures Selects(t, bytes, f, v, before)
  {
    DeletingUnprotectedFrames(t, gone, protectedTag, v);
    hide Unprotected, Tables.Protected, Tables.HasFiles, Tables.HasIncompleteFiles;
  }

  /** After deleting some of the deletable matches, nothing new has become deletable. */
  lemma DeletingMatchesNothingNew(t: Tables, bytes: map<Id, int>, p: Selection, gone: set<Id>)
    requires Consistent(t, bytes) && gone <= Deletable(t, bytes, p)
    ensures Deletable(t.DropVersions(gone), bytes - gone, p) <= Deletable(t, bytes, p) - gone
  {
    hide Selects, RowNumber, Tables.Protected;
    var u, tag := t.DropVersions(gone), p.protectedTag;
    forall v | v in Deletable(u, bytes - gone, p) ensures v in Deletable(t, bytes, p) && v !in gone {
      DeletingUnprotectedFrames(t, gone, tag, v);
      RowNumbersOnlyFall(t.versions, gone, p.artifact, v);
      SelectedBefore(t, bytes, p.filter, gone, tag, v, RowNumber(u.versions, p.artifact, v), RowNumber(t.versions, p.artifact, v));
    }
  }

  /** Repeating the same bulk delete removes nothing more. */
  lemma BulkDeleteIsIdempotent(t: Tables, bytes: map<Id, int>, p: Selection)
    requires Consistent(t, bytes)
    ensures var gone := Deletable(t, bytes, p);
            Deletable(t.DropVersions(gone), bytes - gone, p) == {}
  {
    DeletingMatchesNothingNew(t, bytes, p, Deletable(t, bytes, p));
  }

  // ---- what the query selects and shows, row by row ----

  /** No tag points at the version, and its artifact does not carry the protection tag. */
  ghost predicate Free(t: Tables, protectedTag: string, v: Id)
    requires v in t.versions
  {
    (forall k :: k in t.tags ==> t.tags[k] != v) && (t.versions[v].artifact, protectedTag) !in t.tags
  }

  /** A version matches when it is in scope, passes each filter that is set and, if only deletable ones are wanted, is free. */
  lemma MatchesWhen(t: Tables, bytes: map<Id, int>, p: Selection, v: Id)
    requires Consistent(t, bytes) && v in t.versions
    ensures var f, row := p.filter, t.versions[v];
            v in Matched(t, bytes, p) <==>
            && (p.artifact.Some? ==> row.artifact == p.artifact.value)
            && (p.deletableOnly ==> Free(t, p.protectedTag, v))
            && (f.keepLast.Some? ==> |Greater(t.versions, v)| >= f.keepLast.value)
            && (f.olderThan.Some? ==> row.created < f.olderThan.value)
            && (f.from.Some? ==> row.sv == f.from.value || f.from.value.Below(row.sv))
            && (f.below.Some? ==> row.sv.Below(f.below.value))
            && (f.versions.Some? ==> row.sv.String() in f.versions.value)
            && (f.hasFiles.Some? ==> (f.hasFiles.value <==> exists file :: file in t.files && t.files[file].version == v))
            && (f.hasIncompleteFiles.Some? ==>
                  (f.hasIncompleteFiles.value <==>
                     exists file :: file in t.files && t.files[file].version == v && t.files[file].status in {PENDING, ERROR}))
            && (f.minBytes.Some? ==> f.minBytes.value <= bytes[v])
            && (f.maxBytes.Some? ==> bytes[v] <= f.maxBytes.value)
  {
    hide Greater, RowNumber, Semver.String, Tables.HasFiles, Tables.HasIncompleteFiles;
    FilesByStatus(t, v);
    FreeIsUnprotected(t, p.protectedTag, v);
    hide Tables.Protected, Free;
    if v in Scope(t.versions, p.artifact) {
      RowNumberCountsGreater(t.versions, p.artifact, v);
    }
    if p.filter.from.Some? {
      BelowIsStrictTotalOrder(p.filter.from.value, t.versions[v].sv, t.versions[v].sv);
    }
  }

  lemma FilesByStatus(t: Tables, v: Id)
    ensures t.HasFiles(v) <==> exists file :: file in t.files && t.files[file].version == v
    ensures t.HasIncompleteFiles(v) <==> exists file :: file in t.files && t.files[file].version == v && t.files[file].status in {PENDING, ERROR}
  {
  }

  lemma FreeIsUnprotected(t: Tables, protectedTag: string, v: Id)
    requires v in t.versions
    ensures Free(t, protectedTag, v) <==> !t.Protected(v, protectedTag)
  {
  }

  /** The newest k of an artifact: those with fewer than k numerically greater versions beside them. */
  lemma NewestHaveFewAbove(versions: VersionRows, a: Id, k: nat, v: Id)
    ensures v in Newest(versions, a, k) <==>
            && v in versions && versions[v].artifact == a
            && |set w | w in versions && versions[w].artifact == a
                     && (versions[w].sv.major > versions[v].sv.major
                         || (versions[w].sv.major == versions[v].sv.major
                             && (versions[w].sv.minor > versions[v].sv.minor
                                 || (versions[w].sv.minor == versions[v].sv.minor && versions[w].sv.patch > versions[v].sv.patch))))| < k
  {
    if v in versions && versions[v].artifact == a {
      assert Greater(versions, v) ==
             set w | w in versions && versions[w].artifact == a
                  && (versions[w].sv.major > versions[v].sv.major
                      || (versions[w].sv.major == versions[v].sv.major
                          && (versions[w].sv.minor > versions[v].sv.minor
                              || (versions[w].sv.minor == versions[v].sv.minor && versions[w].sv.patch > versions[v].sv.patch))));
    }
  }

  /** What each row of a page says of its version, and which row of the whole listing it is. */
  lemma PageShows(t: Tables, bytes: map<Id, int>, p: Selection, limit: Option<nat>, offset: nat, i: nat)
    requires Consistent(t, bytes) && i < |ListVersionsFiltered(t, bytes, p, limit, offset)|
    ensures var row, ids := ListVersionsFiltered(t, bytes, p, limit, offset)[i], Ordered(t.versions, Matched(t, bytes, p));
            && offset + i < |ids| && (limit.Some? ==> i < limit.value)
            && row.id == ids[offset + i] && row.total == |ids| && row.id in t.versions
            && row.artifact == t.versions[row.id].artifact && row.sv == t.versions[row.id].sv && row.bytes == bytes[row.id]
            && (row.protected <==> !Free(t, p.protectedTag, row.id))
    ensures var n := |Matched(t, bytes, p)|;
            |ListVersionsFiltered(t, bytes, p, limit, offset)| ==
            if limit.Some? && offset + limit.value < n then limit.value else n - offset
  {
    hide Matched, Consistent;
  }
}
