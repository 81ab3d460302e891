/** What a bulk delete answers: the rows it listed, cut down to the versions that went. */
module BulkResponse {
  import opened Schema
  import opened RowOrder
  import opened VersionQuery

  datatype VersionRef = VersionRef(artifact: Id, version: string)
  datatype BulkReply = BulkReply(deleted: nat, skipped: int, dryRun: bool, versions: seq<VersionRef>)

  function RefOfRow(r: Row): VersionRef {
    VersionRef(r.artifact, r.sv.String())
  }

  /** The listed rows whose version is in `ids`, in the listing's order. */
  function Included(rows: seq<Row>, ids: set<Id>): (refs: seq<VersionRef>) {
    if rows == [] then []
    else
      var before := Included(rows[..|rows| - 1], ids);
      var last := rows[|rows| - 1];
      if last.id in ids then before + [RefOfRow(last)] else before
  }

  /** bulkVersionDeleteResponse */
  method Response(rows: seq<Row>, ids: set<Id>, skipped: int, dryRun: bool) returns (reply: BulkReply)
    ensures reply == BulkReply(|Included(rows, ids)|, skipped, dryRun, Included(rows, ids))
  {
    var versions: seq<VersionRef> := [];
    for i := 0 to |rows|
      invariant versions == Included(rows[..i], ids)
    {
      assert rows[..i + 1][..i] == rows[..i];
      if rows[i].id in ids {
        versions := versions + [RefOfRow(rows[i])];
      }
    }
    assert rows[..|rows|] == rows;
    reply := BulkReply(|versions|, skipped, dryRun, versions);
  }

  ghost predicate DistinctRows(rows: seq<Row>) {
    forall i, j :: 0 <= i < j < |rows| ==> rows[i].id != rows[j].id
  }

  ghost function RowIds(rows: seq<Row>): set<Id> {
    set r | r in rows :: r.id
  }

  /** Every version that went is named once. */
  lemma {:induction false} EachNamedOnce(rows: seq<Row>, ids: set<Id>)
    requires DistinctRows(rows) && ids <= RowIds(rows)
    ensures |Included(rows, ids)| == |ids|
  {
    if rows == [] {
      assert ids == {};
    } else {
      var last, rest := rows[|rows| - 1], rows[..|rows| - 1];
      assert rows == rest + [last];
      assert forall r :: r in rows <==> r in rest || r == last;
      IncludedElsewhere(rest, ids, last.id);
      EachNamedOnce(rest, ids - {last.id});
    }
  }

  lemma {:induction false} IncludedElsewhere(rows: seq<Row>, ids: set<Id>, id: Id)
    requires forall r :: r in rows ==> r.id != id
    ensures Included(rows, ids) == Included(rows, ids - {id})
  {
    if rows != [] {
      IncludedElsewhere(rows[..|rows| - 1], ids, id);
    }
  }

  lemma {:induction false} IncludedAgree(rows: seq<Row>, ids: set<Id>, others: set<Id>)
    requires forall r :: r in rows ==> (r.id in ids <==> r.id in others)
    ensures Included(rows, ids) == Included(rows, others)
  {
    if rows != [] {
      IncludedAgree(rows[..|rows| - 1], ids, others);
    }
  }

  /** Versions of the tables as the reply names them. */
  function RefsOfIds(t: Tables, ids: seq<Id>): seq<VersionRef>
    requires forall v :: v in ids ==> v in t.versions
  {
    seq(|ids|, i requires 0 <= i < |ids| => VersionRef(t.versions[ids[i]].artifact, t.versions[ids[i]].sv.String()))
  }

  lemma KeepAppend(s: seq<Id>, v: Id, keep: set<Id>)
    ensures Keep(s + [v], keep) == Keep(s, keep) + (if v in keep then [v] else [])
  {
    if s == [] {
      assert [v][1..] == [];
    } else {
      KeepAppend(s[1..], v, keep);
      assert (s + [v])[1..] == s[1..] + [v];
    }
  }

  lemma {:induction false} IncludedKeeps(t: Tables, bytes: map<Id, int>, tag: string, ids: seq<Id>, keep: set<Id>, n: nat)
    requires (forall v :: v in ids ==> v in t.versions) && bytes.Keys == t.versions.Keys && n <= |ids|
    ensures Included(RowsFor(t, bytes, tag, ids)[..n], keep) == RefsOfIds(t, Keep(ids[..n], keep))
  {
    if n > 0 {
      var rows := RowsFor(t, bytes, tag, ids);
      IncludedKeeps(t, bytes, tag, ids, keep, n - 1);
      assert rows[..n][..n - 1] == rows[..n - 1];
      assert ids[..n] == ids[..n - 1] + [ids[n - 1]];
      KeepAppend(ids[..n - 1], ids[n - 1], keep);
    }
  }

  /** Show equals delete: cutting the listing down to the unprotected versions names what deletable=true lists, in that order. */
  lemma DeleteNamesWhatShowShows(t: Tables, bytes: map<Id, int>, p: Selection)
    requires Consistent(t, bytes)
    ensures Included(AllRows(t, bytes, p.(deletableOnly := false)), Unprotected(t, p.protectedTag))
         == RefsOfIds(t, Listed(t, bytes, p.(deletableOnly := true)))
  {
    hide Matched, Tables.Protected, Included, Keep;
    var ids := Listed(t, bytes, p.(deletableOnly := false));
    IncludedKeeps(t, bytes, p.protectedTag, ids, Unprotected(t, p.protectedTag), |ids|);
    assert ids[..|ids|] == ids && AllRows(t, bytes, p.(deletableOnly := false))[..|ids|] == AllRows(t, bytes, p.(deletableOnly := false));
    DeletableShowsUnprotected(t, bytes, p);
  }

  /** The row shows version r.id as it is in t, with the protection the delete will look at again. */
  ghost predicate Shows(t: Tables, tag: string, r: Row) {
    r.id in t.versions && r.artifact == t.versions[r.id].artifact && r.sv == t.versions[r.id].sv && r.protected == t.Protected(r.id, tag)
  }

  lemma RowsForIds(t: Tables, bytes: map<Id, int>, tag: string, ids: seq<Id>)
    requires UniqueVersions(t.versions) && (forall v :: v in ids ==> v in t.versions) && bytes.Keys == t.versions.Keys && Sorted(t.versions, ids)
    ensures var rows := RowsFor(t, bytes, tag, ids);
            DistinctRows(rows) && RowIds(rows) == Elements(ids) && forall r :: r in rows ==> Shows(t, tag, r)
  {
    hide Tables.Protected;
    var rows := RowsFor(t, bytes, tag, ids);
    forall i, j | 0 <= i < j < |rows| ensures rows[i].id != rows[j].id {
      PrecedesIsStrictTotalOrder(t.versions, ids[i], ids[j], ids[i]);
    }
    forall v | v in ids ensures v in RowIds(rows) {
      var i :| 0 <= i < |ids| && ids[i] == v;
      assert rows[i] in rows;
    }
  }

  /** The rows of a listing are distinct, are the matches, and show them as they are. */
  lemma ListingRows(t: Tables, bytes: map<Id, int>, p: Selection)
    requires Consistent(t, bytes)
    ensures var rows := AllRows(t, bytes, p);
            DistinctRows(rows) && RowIds(rows) == Matched(t, bytes, p) && forall r :: r in rows ==> Shows(t, p.protectedTag, r)
  {
    OrderedIsSorted(t.versions, Matched(t, bytes, p));
    RowsForIds(t, bytes, p.protectedTag, Listed(t, bytes, p));
    hide Matched, DistinctRows, Shows, RowIds, Sorted;
    assert Elements(Listed(t, bytes, p)) == Matched(t, bytes, p);
  }

  // ---- the partition of the listed rows ----

  ghost predicate Partitioned(rows: seq<Row>, candidates: map<Id, Row>, ids: set<Id>, skipped: int) {
    && candidates.Keys == ids
    && (forall r :: r in rows && !r.protected ==> r.id in ids && candidates[r.id] == r)
    && (forall v :: v in ids ==> candidates[v] in rows && candidates[v].id == v && !candidates[v].protected)
    && skipped + |ids| == |rows|
  }

  /** The first loop of bulkDelete: protected rows are counted, the others are candidates. */
  method PartitionRows(rows: seq<Row>) returns (candidates: map<Id, Row>, ids: set<Id>, skipped: int)
    requires DistinctRows(rows)
    ensures Partitioned(rows, candidates, ids, skipped)
  {
    candidates, ids, skipped := map[], {}, 0;
    for i := 0 to |rows|
      invariant Partitioned(rows[..i], candidates, ids, skipped)
    {
      var r := rows[i];
      assert rows[..i + 1] == rows[..i] + [r];
      assert forall q :: q in rows[..i] ==> q.id != r.id;
      if r.protected {
        skipped := skipped + 1;
      } else {
        candidates := candidates[r.id := r];
        ids := ids + {r.id};
      }
    }
    assert rows[..|rows|] == rows;
  }
}
