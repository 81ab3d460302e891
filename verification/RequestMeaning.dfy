/** What the parameters of a bulk delete make it delete: from the request's texts to the rows, one parameter at a time and together. */
module RequestMeaning {
  import opened Wrappers
  import opened Decimal
  import opened SemVer
  import opened Schema
  import opened Statistics
  import opened VersionQuery
  import opened FilterParams
  import opened BulkDelete

  /** The versions a request makes deletable; a refused one deletes nothing. */
  ghost function DeletableFor(t: Tables, q: Query, artifact: Option<Id>, protectedTag: string): set<Id>
    requires Consistent(t, RightBytes(t))
  {
    if Requested(q, artifact.Some?).None? then {}
    else Deletable(t, RightBytes(t), Selection(Requested(q, artifact.Some?).value, artifact, protectedTag, false))
  }

  /** In scope, with no tag on it and no protection tag on its artifact. */
  ghost predicate Open(t: Tables, artifact: Option<Id>, protectedTag: string, v: Id)
    requires v in t.versions
  {
    (artifact.Some? ==> t.versions[v].artifact == artifact.value) && Free(t, protectedTag, v)
  }

  /** What the one parameter that is set asks of a version, for the filter it becomes. */
  lemma DeletableWhen(t: Tables, q: Query, f: Filter, artifact: Option<Id>, protectedTag: string, v: Id)
    requires Consistent(t, RightBytes(t)) && v in t.versions && Requested(q, artifact.Some?) == Some(f)
    ensures v in DeletableFor(t, q, artifact, protectedTag) <==>
            && Open(t, artifact, protectedTag, v)
            && (f.keepLast.Some? ==> |Greater(t.versions, v)| >= f.keepLast.value)
            && (f.olderThan.Some? ==> t.versions[v].created < f.olderThan.value)
            && (f.from.Some? ==> t.versions[v].sv == f.from.value || f.from.value.Below(t.versions[v].sv))
            && (f.below.Some? ==> t.versions[v].sv.Below(f.below.value))
            && (f.versions.Some? ==> t.versions[v].sv.String() in f.versions.value)
            && (f.hasFiles.Some? ==> (f.hasFiles.value <==> exists file :: file in t.files && t.files[file].version == v))
            && (f.hasIncompleteFiles.Some? ==>
                  (f.hasIncompleteFiles.value <==>
                     exists file :: file in t.files && t.files[file].version == v && t.files[file].status in {PENDING, ERROR}))
            && (f.minBytes.Some? ==> f.minBytes.value <= VersionBytes(t.files, v))
            && (f.maxBytes.Some? ==> VersionBytes(t.files, v) <= f.maxBytes.value)
  {
    hide Free, Matched, Greater, Semver.String, VersionBytes, Requested;
    MatchesWhen(t, RightBytes(t), Selection(f, artifact, protectedTag, true), v);
  }

  // ---- one parameter at a time ----

  /** keepLast: the versions outside the newest k of their artifact. */
  lemma KeepLastDeletes(t: Tables, text: string, k: int, artifact: Option<Id>, protectedTag: string, v: Id)
    requires Consistent(t, RightBytes(t)) && v in t.versions && Spells(text, k) && 1 <= k <= 2_147_483_647
    ensures v in DeletableFor(t, NO_PARAMS.(keepLast := text), artifact, protectedTag) <==>
            Open(t, artifact, protectedTag, v) && v !in Newest(t.versions, t.versions[v].artifact, k)
  {
    SpelledOnce(text, k);
    AcceptedInt32(text, 1, k);
    NarrowedNumbers(k, k);
    hide Spells, ParseOptionalInt32, Int32;
    var q, f := NO_PARAMS.(keepLast := text), NO_FILTER.(keepLast := Some(k));
    assert Requested(q, artifact.Some?) == Some(f);
    hide Requested, Greater;
    DeletableWhen(t, q, f, artifact, protectedTag, v);
    hide DeletableFor, Open;
  }

  /** olderThan: the versions created before that second. */
  lemma OlderThanDeletes(t: Tables, second: int, artifact: Option<Id>, protectedTag: string, v: Id)
    requires Consistent(t, RightBytes(t)) && v in t.versions && -62_167_219_200 <= second <= 253_402_300_799
    ensures v in DeletableFor(t, NO_PARAMS.(olderThan := Some(second)), artifact, protectedTag) <==>
            Open(t, artifact, protectedTag, v) && t.versions[v].created < second
  {
    var q, f := NO_PARAMS.(olderThan := Some(second)), NO_FILTER.(olderThan := Some(second));
    assert Requested(q, artifact.Some?) == Some(f);
    hide Requested;
    DeletableWhen(t, q, f, artifact, protectedTag, v);
    hide DeletableFor, Open;
  }

  /** from: that version and all above it; below: all below it and not itself. */
  lemma RangeDeletes(t: Tables, at: Semver, artifact: Option<Id>, protectedTag: string, v: Id)
    requires Consistent(t, RightBytes(t)) && v in t.versions && at.InRange()
    ensures v in DeletableFor(t, NO_PARAMS.(from := at.String()), artifact, protectedTag) <==>
            Open(t, artifact, protectedTag, v) && (t.versions[v].sv == at || at.Below(t.versions[v].sv))
    ensures v in DeletableFor(t, NO_PARAMS.(below := at.String()), artifact, protectedTag) <==>
            Open(t, artifact, protectedTag, v) && t.versions[v].sv.Below(at)
  {
    RoundTrip(at);
    assert at.String() != "";
    hide Parse, Semver.String;
    var q, f := NO_PARAMS.(from := at.String()), NO_FILTER.(from := Some(at));
    var r, g := NO_PARAMS.(below := at.String()), NO_FILTER.(below := Some(at));
    assert Requested(q, artifact.Some?) == Some(f) && Requested(r, artifact.Some?) == Some(g);
    hide Requested;
    DeletableWhen(t, q, f, artifact, protectedTag, v);
    DeletableWhen(t, r, g, artifact, protectedTag, v);
    hide DeletableFor, Open;
  }

  /** version: for one artifact, exactly the versions that some text parses to; registry-wide, it is refused. */
  lemma VersionTextsDelete(t: Tables, texts: seq<string>, artifact: Id, protectedTag: string, v: Id)
    requires Consistent(t, RightBytes(t)) && v in t.versions && texts != [] && forall i :: 0 <= i < |texts| ==> Parse(texts[i]).Ok?
    ensures v in DeletableFor(t, NO_PARAMS.(versions := texts), Some(artifact), protectedTag) <==>
            Open(t, Some(artifact), protectedTag, v) && exists i :: 0 <= i < |texts| && Parse(texts[i]) == Ok(t.versions[v].sv)
    ensures DeletableFor(t, NO_PARAMS.(versions := texts), None, protectedTag) == {}
  {
    var q := NO_PARAMS.(versions := texts);
    NormaliseAllAt(texts);
    TextComparisonSelectsTriples(texts, t.versions[v].sv);
    hide NormaliseAll, Parse, Semver.String;
    var f := NO_FILTER.(versions := Some(NormaliseAll(texts).value));
    assert Requested(q, true) == Some(f) && Requested(q, false) == None;
    hide Requested;
    DeletableWhen(t, q, f, Some(artifact), protectedTag, v);
    hide Open;
  }

  /** hasFiles: the versions with a file row, or those without one. */
  lemma HasFilesDeletes(t: Tables, artifact: Option<Id>, protectedTag: string, v: Id)
    requires Consistent(t, RightBytes(t)) && v in t.versions
    ensures v in DeletableFor(t, NO_PARAMS.(hasFiles := "true"), artifact, protectedTag) <==>
            Open(t, artifact, protectedTag, v) && exists file :: file in t.files && t.files[file].version == v
    ensures v in DeletableFor(t, NO_PARAMS.(hasFiles := "false"), artifact, protectedTag) <==>
            Open(t, artifact, protectedTag, v) && forall file :: file in t.files ==> t.files[file].version != v
  {
    var q, f := NO_PARAMS.(hasFiles := "true"), NO_FILTER.(hasFiles := Some(true));
    var r, g := NO_PARAMS.(hasFiles := "false"), NO_FILTER.(hasFiles := Some(false));
    assert Requested(q, artifact.Some?) == Some(f) && Requested(r, artifact.Some?) == Some(g);
    hide Requested;
    DeletableWhen(t, q, f, artifact, protectedTag, v);
    DeletableWhen(t, r, g, artifact, protectedTag, v);
    hide DeletableFor, Open;
  }

  /** hasIncompleteFiles: the versions with a PENDING or ERROR file row, or those without one. */
  lemma HasIncompleteFilesDeletes(t: Tables, artifact: Option<Id>, protectedTag: string, v: Id)
    requires Consistent(t, RightBytes(t)) && v in t.versions
    ensures v in DeletableFor(t, NO_PARAMS.(hasIncompleteFiles := "true"), artifact, protectedTag) <==>
            && Open(t, artifact, protectedTag, v)
            && exists file :: file in t.files && t.files[file].version == v && t.files[file].status in {PENDING, ERROR}
    ensures v in DeletableFor(t, NO_PARAMS.(hasIncompleteFiles := "false"), artifact, protectedTag) <==>
            && Open(t, artifact, protectedTag, v)
            && forall file :: file in t.files && t.files[file].version == v ==> t.files[file].status == AVAILABLE
  {
    var q, f := NO_PARAMS.(hasIncompleteFiles := "true"), NO_FILTER.(hasIncompleteFiles := Some(true));
    var r, g := NO_PARAMS.(hasIncompleteFiles := "false"), NO_FILTER.(hasIncompleteFiles := Some(false));
    assert Requested(q, artifact.Some?) == Some(f) && Requested(r, artifact.Some?) == Some(g);
    hide Requested;
    DeletableWhen(t, q, f, artifact, protectedTag, v);
    DeletableWhen(t, r, g, artifact, protectedTag, v);
    hide DeletableFor, Open;
  }

  /** minBytes and maxBytes: the versions whose AVAILABLE files come to at least, or at most, that much. */
  lemma BytesDelete(t: Tables, text: string, n: int, artifact: Option<Id>, protectedTag: string, v: Id)
    requires Consistent(t, RightBytes(t)) && v in t.versions && Spells(text, n) && 0 <= n <= 9_223_372_036_854_775_807
    ensures v in DeletableFor(t, NO_PARAMS.(minBytes := text), artifact, protectedTag) <==>
            Open(t, artifact, protectedTag, v) && VersionBytes(t.files, v) >= n
    ensures v in DeletableFor(t, NO_PARAMS.(maxBytes := text), artifact, protectedTag) <==>
            Open(t, artifact, protectedTag, v) && VersionBytes(t.files, v) <= n
  {
    SpelledOnce(text, n);
    AcceptedInt64(text, n);
    hide Spells, ParseOptionalInt64, VersionBytes;
    var q, f := NO_PARAMS.(minBytes := text), NO_FILTER.(minBytes := Some(n));
    var r, g := NO_PARAMS.(maxBytes := text), NO_FILTER.(maxBytes := Some(n));
    assert Requested(q, artifact.Some?) == Some(f) && Requested(r, artifact.Some?) == Some(g);
    hide Requested;
    DeletableWhen(t, q, f, artifact, protectedTag, v);
    DeletableWhen(t, r, g, artifact, protectedTag, v);
    hide DeletableFor, Open;
  }

  // ---- several parameters ----

  /** The parameters of a request, each alone. */
  function Parts(q: Query): (parts: seq<Query>)
    ensures |parts| == 9
  {
    [NO_PARAMS.(keepLast := q.keepLast), NO_PARAMS.(olderThan := q.olderThan), NO_PARAMS.(from := q.from), NO_PARAMS.(below := q.below),
     NO_PARAMS.(versions := q.versions), NO_PARAMS.(hasFiles := q.hasFiles), NO_PARAMS.(hasIncompleteFiles := q.hasIncompleteFiles),
     NO_PARAMS.(minBytes := q.minBytes), NO_PARAMS.(maxBytes := q.maxBytes)]
  }

  /** The parts of a filter, in the same order. */
  function PartsOf(f: Filter): (parts: seq<Filter>)
    ensures |parts| == 9
  {
    [NO_FILTER.(keepLast := f.keepLast), NO_FILTER.(olderThan := f.olderThan), NO_FILTER.(from := f.from), NO_FILTER.(below := f.below),
     NO_FILTER.(versions := f.versions), NO_FILTER.(hasFiles := f.hasFiles), NO_FILTER.(hasIncompleteFiles := f.hasIncompleteFiles),
     NO_FILTER.(minBytes := f.minBytes), NO_FILTER.(maxBytes := f.maxBytes)]
  }

  lemma PartsMean(q: Query, perArtifact: bool, i: nat)
    requires Meaning(q, perArtifact).Ok? && i < 9
    ensures Meaning(Parts(q)[i], perArtifact) == Ok(PartsOf(Meaning(q, perArtifact).value)[i])
  {
    hide ParseOptionalInt32, ParseOptionalInt64, ParseOptionalBool, ParseOptionalOlderThan, ParseOptionalSemver, ParseVersions;
    NothingGiven(perArtifact);
  }

  lemma NothingGiven(perArtifact: bool)
    ensures ParseOptionalInt32("", 1) == Ok(None) && ParseOptionalInt64("") == Ok(None) && ParseOptionalBool("") == Ok(None)
    ensures ParseOptionalOlderThan(None) == Ok(None) && ParseOptionalSemver("") == Ok(None) && ParseVersions([], perArtifact) == Ok(None)
  {
  }

  lemma SelectsParts(t: Tables, bytes: map<Id, int>, f: Filter, v: Id, rn: nat)
    requires v in t.versions && bytes.Keys == t.versions.Keys
    ensures Selects(t, bytes, NO_FILTER, v, rn)
    ensures Selects(t, bytes, f, v, rn) <==> forall i :: 0 <= i < 9 ==> Selects(t, bytes, PartsOf(f)[i], v, rn)
  {
    hide Tables.HasFiles, Tables.HasIncompleteFiles, Semver.String;
    var parts := PartsOf(f);
    assert forall i :: 0 <= i < 9 ==> i in [0, 1, 2, 3, 4, 5, 6, 7, 8];
    assert Selects(t, bytes, f, v, rn) <==>
           && Selects(t, bytes, parts[0], v, rn) && Selects(t, bytes, parts[1], v, rn) && Selects(t, bytes, parts[2], v, rn)
           && Selects(t, bytes, parts[3], v, rn) && Selects(t, bytes, parts[4], v, rn) && Selects(t, bytes, parts[5], v, rn)
           && Selects(t, bytes, parts[6], v, rn) && Selects(t, bytes, parts[7], v, rn) && Selects(t, bytes, parts[8], v, rn);
  }

  lemma DeletableParts(t: Tables, f: Filter, artifact: Option<Id>, protectedTag: string, v: Id)
    requires Consistent(t, RightBytes(t)) && v in t.versions
    ensures var bytes := RightBytes(t);
            && (v in Deletable(t, bytes, Selection(NO_FILTER, artifact, protectedTag, false)) <==> Open(t, artifact, protectedTag, v))
            && (v in Deletable(t, bytes, Selection(f, artifact, protectedTag, false)) <==>
                  forall i :: 0 <= i < 9 ==> v in Deletable(t, bytes, Selection(PartsOf(f)[i], artifact, protectedTag, false)))
  {
    hide Selects, RowNumber, PartsOf, Tables.Protected, Free, VersionBytes;
    FreeIsUnprotected(t, protectedTag, v);
    var bytes := RightBytes(t);
    if v in Scope(t.versions, artifact) {
      SelectsParts(t, bytes, f, v, RowNumber(t.versions, artifact, v));
    } else {
      assert v !in Deletable(t, bytes, Selection(PartsOf(f)[0], artifact, protectedTag, false));
    }
    if t.Protected(v, protectedTag) {
      assert v !in Deletable(t, bytes, Selection(PartsOf(f)[0], artifact, protectedTag, false));
    }
  }

  /** Several parameters delete what every one of them alone would, and a request without any is refused. */
  lemma SeveralParametersIntersect(t: Tables, q: Query, artifact: Option<Id>, protectedTag: string, v: Id)
    requires Consistent(t, RightBytes(t)) && v in t.versions && Meaning(q, artifact.Some?).Ok?
    ensures v in DeletableFor(t, q, artifact, protectedTag) <==>
            && q != NO_PARAMS
            && forall i :: 0 <= i < |Parts(q)| && Parts(q)[i] != NO_PARAMS ==> v in DeletableFor(t, Parts(q)[i], artifact, protectedTag)
  {
    var f := Meaning(q, artifact.Some?).value;
    if q != NO_PARAMS {
      SomePartGiven(q);
    }
    hide Deletable, PartsOf, Parts, Meaning, Open;
    DeletableParts(t, f, artifact, protectedTag, v);
    forall i | 0 <= i < 9
      ensures v in Deletable(t, RightBytes(t), Selection(PartsOf(f)[i], artifact, protectedTag, false)) <==>
              if Parts(q)[i] != NO_PARAMS then v in DeletableFor(t, Parts(q)[i], artifact, protectedTag) else Open(t, artifact, protectedTag, v)
      ensures v in Deletable(t, RightBytes(t), Selection(PartsOf(f)[i], artifact, protectedTag, false)) ==> Open(t, artifact, protectedTag, v)
    {
      PartAlone(t, q, artifact, protectedTag, v, i);
    }
  }

  lemma SomePartGiven(q: Query)
    requires q != NO_PARAMS
    ensures exists i :: 0 <= i < 9 && Parts(q)[i] != NO_PARAMS
  {
    var parts := Parts(q);
    assert parts[0] != NO_PARAMS || parts[1] != NO_PARAMS || parts[2] != NO_PARAMS || parts[3] != NO_PARAMS || parts[4] != NO_PARAMS
        || parts[5] != NO_PARAMS || parts[6] != NO_PARAMS || parts[7] != NO_PARAMS || parts[8] != NO_PARAMS;
  }

  lemma PartAlone(t: Tables, q: Query, artifact: Option<Id>, protectedTag: string, v: Id, i: nat)
    requires Consistent(t, RightBytes(t)) && v in t.versions && Meaning(q, artifact.Some?).Ok? && i < 9
    ensures var part := Selection(PartsOf(Meaning(q, artifact.Some?).value)[i], artifact, protectedTag, false);
            && (v in Deletable(t, RightBytes(t), part) <==>
                  if Parts(q)[i] != NO_PARAMS then v in DeletableFor(t, Parts(q)[i], artifact, protectedTag) else Open(t, artifact, protectedTag, v))
            && (v in Deletable(t, RightBytes(t), part) ==> Open(t, artifact, protectedTag, v))
  {
    PartsMean(q, artifact.Some?, i);
    NothingMeant(artifact.Some?);
    hide PartsOf, Parts, Meaning;
    var f := PartsOf(Meaning(q, artifact.Some?).value)[i];
    DeletableParts(t, f, artifact, protectedTag, v);
    MatchesWhen(t, RightBytes(t), Selection(f, artifact, protectedTag, true), v);
    hide Matched, Free, Greater, Semver.String, VersionBytes;
  }

  lemma NothingMeant(perArtifact: bool)
    ensures Meaning(NO_PARAMS, perArtifact) == Ok(NO_FILTER)
  {
    NothingGiven(perArtifact);
  }
}
