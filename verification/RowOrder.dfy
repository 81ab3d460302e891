/** ORDER BY artifact_id, major DESC, minor DESC, patch DESC, and row_number() over it. */
module RowOrder {
  import opened SemVer
  import opened Schema

  predicate Precedes(rows: VersionRows, v: Id, w: Id)
    requires v in rows && w in rows
  {
    rows[v].artifact < rows[w].artifact || (rows[v].artifact == rows[w].artifact && rows[w].sv.Below(rows[v].sv))
  }

  /** The unique index on (artifact_id, major, minor, patch) makes the order strict and total. */
  lemma PrecedesIsStrictTotalOrder(rows: VersionRows, u: Id, v: Id, w: Id)
    requires UniqueVersions(rows) && u in rows && v in rows && w in rows
    ensures u == v || Precedes(rows, u, v) || Precedes(rows, v, u)
    ensures Precedes(rows, u, v) ==> !Precedes(rows, v, u) && u != v
    ensures Precedes(rows, u, v) && Precedes(rows, v, w) ==> Precedes(rows, u, w)
  {
    BelowIsStrictTotalOrder(rows[w].sv, rows[v].sv, rows[u].sv);
    BelowIsStrictTotalOrder(rows[u].sv, rows[v].sv, rows[u].sv);
  }

  predicate IsFirst(rows: VersionRows, ids: set<Id>, v: Id)
    requires ids <= rows.Keys && v in ids
  {
    forall w :: w in ids && w != v ==> Precedes(rows, v, w)
  }

  lemma FirstExists(rows: VersionRows, ids: set<Id>)
    requires UniqueVersions(rows) && ids <= rows.Keys && ids != {}
    ensures exists v :: v in ids && IsFirst(rows, ids, v)
  {
    var u :| u in ids;
    if ids == {u} {
      assert IsFirst(rows, ids, u);
    } else {
      FirstExists(rows, ids - {u});
      var v :| v in ids - {u} && IsFirst(rows, ids - {u}, v);
      PrecedesIsStrictTotalOrder(rows, u, v, v);
      if Precedes(rows, u, v) {
        forall w | w in ids && w != u ensures Precedes(rows, u, w) { PrecedesIsStrictTotalOrder(rows, u, v, w); }
        assert IsFirst(rows, ids, u);
      } else {
        assert IsFirst(rows, ids, v);
      }
    }
  }

  lemma FirstUnique(rows: VersionRows, ids: set<Id>, v: Id, w: Id)
    requires UniqueVersions(rows) && ids <= rows.Keys && v in ids && w in ids
    requires IsFirst(rows, ids, v) && IsFirst(rows, ids, w)
    ensures v == w
  {
    PrecedesIsStrictTotalOrder(rows, v, w, v);
  }

  function First(rows: VersionRows, ids: set<Id>): (v: Id)
    requires UniqueVersions(rows) && ids <= rows.Keys && ids != {}
    ensures v in ids && IsFirst(rows, ids, v)
  {
    FirstExists(rows, ids);
    assert forall v, w :: v in ids && w in ids && IsFirst(rows, ids, v) && IsFirst(rows, ids, w) ==> v == w by {
      forall v, w | v in ids && w in ids && IsFirst(rows, ids, v) && IsFirst(rows, ids, w) ensures v == w {
        FirstUnique(rows, ids, v, w);
      }
    }
    var v :| v in ids && IsFirst(rows, ids, v);
    v
  }

  /** The chosen rows in the query's order. */
  function Ordered(rows: VersionRows, ids: set<Id>): (s: seq<Id>)
    requires UniqueVersions(rows) && ids <= rows.Keys
    ensures |s| == |ids| && forall v :: v in s <==> v in ids
    decreases |ids|
  {
    if ids == {} then []
    else
      var v := First(rows, ids);
      [v] + Ordered(rows, ids - {v})
  }

  ghost predicate Sorted(rows: VersionRows, s: seq<Id>)
    requires forall v :: v in s ==> v in rows
  {
    forall i, j :: 0 <= i < j < |s| ==> Precedes(rows, s[i], s[j])
  }

  lemma {:induction false} OrderedIsSorted(rows: VersionRows, ids: set<Id>)
    requires UniqueVersions(rows) && ids <= rows.Keys
    ensures Sorted(rows, Ordered(rows, ids))
    decreases |ids|
  {
    if ids != {} {
      var v := First(rows, ids);
      OrderedIsSorted(rows, ids - {v});
      var rest := Ordered(rows, ids - {v});
      assert Ordered(rows, ids) == [v] + rest;
      forall j | 0 <= j < |rest| ensures Precedes(rows, v, rest[j]) { assert rest[j] in ids - {v}; }
    }
  }

  /** The direction: smaller artifact ids first, and within an artifact the newest version first. */
  lemma NewestFirst(rows: VersionRows, ids: set<Id>, i: nat, j: nat)
    requires UniqueVersions(rows) && ids <= rows.Keys && i < j < |ids|
    ensures var x, y := rows[Ordered(rows, ids)[i]], rows[Ordered(rows, ids)[j]];
            || x.artifact < y.artifact
            || (x.artifact == y.artifact
                && (x.sv.major > y.sv.major
                    || (x.sv.major == y.sv.major
                        && (x.sv.minor > y.sv.minor || (x.sv.minor == y.sv.minor && x.sv.patch > y.sv.patch)))))
  {
    OrderedIsSorted(rows, ids);
  }

  /** There is only one way to sort: any sorted listing of the same rows is the query's. */
  lemma {:induction false} SortedIsOrdered(rows: VersionRows, s: seq<Id>, ids: set<Id>)
    requires UniqueVersions(rows) && ids <= rows.Keys
    requires forall v :: v in s <==> v in ids
    requires Sorted(rows, s)
    ensures s == Ordered(rows, ids)
    decreases |s|
  {
    if s == [] {
      assert ids == {};
    } else {
      assert s[0] in ids;
      forall w | w in ids && w != s[0] ensures Precedes(rows, s[0], w) {
        var j :| 0 <= j < |s| && s[j] == w;
      }
      FirstUnique(rows, ids, s[0], First(rows, ids));
      forall v ensures v in s[1..] <==> v in ids - {s[0]} { TailElements(rows, s, v); }
      SortedIsOrdered(rows, s[1..], ids - {s[0]});
    }
  }

  lemma TailElements(rows: VersionRows, s: seq<Id>, v: Id)
    requires UniqueVersions(rows) && s != [] && (forall v :: v in s ==> v in rows) && Sorted(rows, s)
    ensures v in s[1..] <==> v in s && v != s[0]
  {
    if v in s[1..] {
      var j :| 1 <= j < |s| && s[j] == v;
      PrecedesIsStrictTotalOrder(rows, s[0], v, v);
    }
  }

  /** A listing cut down to the rows in `keep`, order kept. */
  function Keep(s: seq<Id>, keep: set<Id>): (r: seq<Id>)
    ensures forall v :: v in r <==> v in s && v in keep
  {
    if s == [] then [] else (if s[0] in keep then [s[0]] else []) + Keep(s[1..], keep)
  }

  lemma {:induction false} KeepSorted(rows: VersionRows, s: seq<Id>, keep: set<Id>)
    requires (forall v :: v in s ==> v in rows) && Sorted(rows, s)
    ensures Sorted(rows, Keep(s, keep))
  {
    if s != [] {
      KeepSorted(rows, s[1..], keep);
      forall v | v in s[1..] ensures Precedes(rows, s[0], v) {
        var j :| 1 <= j < |s| && s[j] == v;
      }
    }
  }

  /** Filtering commutes with ordering. */
  lemma OrderedKeep(rows: VersionRows, ids: set<Id>, keep: set<Id>)
    requires UniqueVersions(rows) && ids <= rows.Keys
    ensures Keep(Ordered(rows, ids), keep) == Ordered(rows, ids * keep)
  {
    OrderedIsSorted(rows, ids);
    KeepSorted(rows, Ordered(rows, ids), keep);
    SortedIsOrdered(rows, Keep(Ordered(rows, ids), keep), ids * keep);
  }

  // ---- row numbers ----

  function Position(s: seq<Id>, v: Id): (i: nat)
    requires v in s
    ensures i < |s| && s[i] == v
  {
    if s[0] == v then 0 else 1 + Position(s[1..], v)
  }

  ghost function Before(rows: VersionRows, ids: set<Id>, v: Id): set<Id>
    requires ids <= rows.Keys && v in rows
  {
    set w | w in ids && Precedes(rows, w, v)
  }

  /** A row's position is the number of rows before it. */
  lemma {:induction false} PositionCountsPredecessors(rows: VersionRows, ids: set<Id>, v: Id)
    requires UniqueVersions(rows) && ids <= rows.Keys && v in ids
    ensures Position(Ordered(rows, ids), v) == |Before(rows, ids, v)|
    decreases |ids|
  {
    var f := First(rows, ids);
    var rest := ids - {f};
    if v == f {
      forall w | w in ids ensures !Precedes(rows, w, v) { PrecedesIsStrictTotalOrder(rows, w, v, v); }
      assert Before(rows, ids, v) == {};
    } else {
      PositionCountsPredecessors(rows, rest, v);
      PrecedesIsStrictTotalOrder(rows, f, v, v);
      assert Before(rows, ids, v) == Before(rows, rest, v) + {f};
      assert Ordered(rows, ids)[1..] == Ordered(rows, rest);
    }
  }
}
