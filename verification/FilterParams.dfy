/** The query parameters of the version lists and bulk deletes, and how they become a filter. */
module FilterParams {
  import opened Wrappers
  import opened Decimal
  import opened SemVer
  import opened VersionQuery

  /** Parameter texts; "" is an absent one. An RFC 3339 text stands here as the second it names. */
  datatype Query = Query(
    keepLast: string,
    olderThan: Option<int>,
    from: string,
    below: string,
    versions: seq<string>,
    hasFiles: string,
    hasIncompleteFiles: string,
    minBytes: string,
    maxBytes: string)

  const NO_PARAMS := Query("", None, "", "", [], "", "", "", "")

  // Seconds since 1970 of the first second of year 0 and the last of year 9999, the years four digits can write.
  const FIRST_RFC3339: int := -62_167_219_200
  const LAST_RFC3339: int := 253_402_300_799

  predicate InRfc3339(second: int) {
    FIRST_RFC3339 <= second <= LAST_RFC3339
  }

  /** Go's conversion int32(n): the low 32 bits, read as a signed number. */
  function Int32(n: int): int {
    (n + 0x8000_0000) % 0x1_0000_0000 - 0x8000_0000
  }

  function ParseOptionalInt32(raw: string, min: int): Result<Option<int>> {
    if raw == "" then Ok(None)
    else
      match ParseInt(raw, -MAX_INT64 - 1, MAX_INT64)
      case None => Err
      case Some(n) => if n < min then Err else Ok(Some(Int32(n)))
  }

  function ParseOptionalInt64(raw: string): Result<Option<int>> {
    if raw == "" then Ok(None)
    else
      match ParseInt(raw, -MAX_INT64 - 1, MAX_INT64)
      case None => Err
      case Some(n) => if n < 0 then Err else Ok(Some(n))
  }

  /** strconv.ParseBool */
  function ParseOptionalBool(raw: string): Result<Option<bool>> {
    if raw == "" then Ok(None)
    else if raw in ["1", "t", "T", "true", "TRUE", "True"] then Ok(Some(true))
    else if raw in ["0", "f", "F", "false", "FALSE", "False"] then Ok(Some(false))
    else Err
  }

  function ParseOptionalOlderThan(raw: Option<int>): Result<Option<int>> {
    if raw.Some? && !InRfc3339(raw.value) then Err else Ok(raw)
  }

  function ParseOptionalSemver(raw: string): Result<Option<Semver>> {
    if raw == "" then Ok(None)
    else
      match Parse(raw)
      case Ok(sv) => Ok(Some(sv))
      case Err => Err
  }

  function ParseVersions(raws: seq<string>, perArtifact: bool): Result<Option<seq<string>>> {
    if raws == [] then Ok(None)
    else if !perArtifact then Err
    else
      match NormaliseAll(raws)
      case Ok(texts) => Ok(Some(texts))
      case Err => Err
  }

  /** What the parameters mean; any one that is malformed rejects the request. */
  function Meaning(q: Query, perArtifact: bool): Result<Filter> {
    var keepLast, olderThan := ParseOptionalInt32(q.keepLast, 1), ParseOptionalOlderThan(q.olderThan);
    var from, below := ParseOptionalSemver(q.from), ParseOptionalSemver(q.below);
    var versions := ParseVersions(q.versions, perArtifact);
    var hasFiles, hasIncompleteFiles := ParseOptionalBool(q.hasFiles), ParseOptionalBool(q.hasIncompleteFiles);
    var minBytes, maxBytes := ParseOptionalInt64(q.minBytes), ParseOptionalInt64(q.maxBytes);
    if keepLast.Ok? && olderThan.Ok? && from.Ok? && below.Ok? && versions.Ok? && hasFiles.Ok? && hasIncompleteFiles.Ok?
       && minBytes.Ok? && maxBytes.Ok?
    then Ok(Filter(keepLast.value, olderThan.value, from.value, below.value, versions.value, hasFiles.value,
                   hasIncompleteFiles.value, minBytes.value, maxBytes.value))
    else Err
  }

  const NO_FILTER := Filter(None, None, None, None, None, None, None, None, None)

  lemma NormaliseSteps(raw: string, rest: seq<string>)
    ensures NormaliseAll([raw] + rest) ==
            if Parse(raw).Ok? && NormaliseAll(rest).Ok? then Ok([Parse(raw).value.String()] + NormaliseAll(rest).value) else Err
  {
    assert ([raw] + rest)[1..] == rest;
  }

  lemma {:induction false} NormaliseOneMore(raws: seq<string>, raw: string)
    ensures NormaliseAll(raws + [raw]) ==
            if NormaliseAll(raws).Ok? && Parse(raw).Ok? then Ok(NormaliseAll(raws).value + [Parse(raw).value.String()]) else Err
  {
    if raws == [] {
      NormaliseSteps(raw, []);
      assert raws + [raw] == [raw] + [];
      if Parse(raw).Ok? {
        var text := Parse(raw).value.String();
        assert [text] + NormaliseAll([]).value == NormaliseAll(raws).value + [text];
      }
    } else {
      var head, tail := raws[0], raws[1..];
      NormaliseOneMore(tail, raw);
      NormaliseSteps(head, tail);
      NormaliseSteps(head, tail + [raw]);
      assert raws == [head] + tail && raws + [raw] == [head] + (tail + [raw]);
      hide NormaliseAll, Parse, Semver.String;
      if NormaliseAll(raws).Ok? && Parse(raw).Ok? {
        var texts, text := NormaliseAll(tail).value, Parse(raw).value.String();
        assert [Parse(head).value.String()] + (texts + [text]) == [Parse(head).value.String()] + texts + [text];
      }
    }
  }

  /** The loop of parseVersionFilter over the repeated `version` parameter. */
  method AppendVersions(raws: seq<string>) returns (r: Result<seq<string>>)
    ensures r == NormaliseAll(raws)
  {
    hide Parse, Semver.String;
    var texts: seq<string> := [];
    for i := 0 to |raws|
      invariant NormaliseAll(raws[..i]) == Ok(texts)
    {
      assert raws[..i + 1] == raws[..i] + [raws[i]];
      NormaliseOneMore(raws[..i], raws[i]);
      var sv := Parse(raws[i]);
      if sv.Err? {
        RejectedForGood(raws, i + 1);
        return Err;
      }
      texts := texts + [sv.value.String()];
    }
    assert raws[..|raws|] == raws;
    r := Ok(texts);
  }

  lemma RejectedForGood(raws: seq<string>, n: nat)
    requires n <= |raws| && NormaliseAll(raws[..n]).Err?
    ensures NormaliseAll(raws).Err?
  {
    NormaliseAllAt(raws[..n]);
    NormaliseAllAt(raws);
  }

  /** parseVersionFilter: field by field, the first malformed one ends it; anySet says whether any field was given. */
  method ParseVersionFilter(q: Query, perArtifact: bool) returns (p: Filter, anySet: bool, ok: bool)
    ensures ok <==> Meaning(q, perArtifact).Ok?
    ensures ok ==> p == Meaning(q, perArtifact).value
    ensures ok ==> (anySet <==> q != NO_PARAMS)
  {
    p, anySet := NO_FILTER, false;
    var keepLast := ParseOptionalInt32(q.keepLast, 1);
    if keepLast.Err? { return p, false, false; }
    p := p.(keepLast := keepLast.value);
    var olderThan := ParseOptionalOlderThan(q.olderThan);
    if olderThan.Err? { return p, false, false; }
    p := p.(olderThan := olderThan.value);
    if q.from != "" {
      var sv := Parse(q.from);
      if sv.Err? { return p, false, false; }
      p := p.(from := Some(sv.value));
    }
    if q.below != "" {
      var sv := Parse(q.below);
      if sv.Err? { return p, false, false; }
      p := p.(below := Some(sv.value));
    }
    if |q.versions| > 0 {
      if !perArtifact { return p, false, false; }
      var texts := AppendVersions(q.versions);
      if texts.Err? { return p, false, false; }
      p := p.(versions := Some(texts.value));
    }
    var hasFiles := ParseOptionalBool(q.hasFiles);
    if hasFiles.Err? { return p, false, false; }
    p := p.(hasFiles := hasFiles.value);
    var hasIncompleteFiles := ParseOptionalBool(q.hasIncompleteFiles);
    if hasIncompleteFiles.Err? { return p, false, false; }
    p := p.(hasIncompleteFiles := hasIncompleteFiles.value);
    var minBytes := ParseOptionalInt64(q.minBytes);
    if minBytes.Err? { return p, false, false; }
    p := p.(minBytes := minBytes.value);
    var maxBytes := ParseOptionalInt64(q.maxBytes);
    if maxBytes.Err? { return p, false, false; }
    p := p.(maxBytes := maxBytes.value);
    return p, p.AnySet(), true;
  }

  /** A number is read back as itself exactly when it fits 32 bits: the range is checked before the narrowing, not after. */
  lemma NarrowingKeepsSmallNumbers(n: nat, min: nat)
    requires min <= n <= MAX_INT64
    ensures ParseOptionalInt32(Itoa(n), min) == Ok(Some(n)) <==> n <= MAX_INT32
  {
    ParseIntOfItoa(n, -MAX_INT64 - 1, MAX_INT64);
  }

  /** keepLast=4294967296 is accepted, and narrowed to 0. */
  lemma LargeKeepLastKeepsNothing()
    ensures ParseOptionalInt32(Itoa(0x1_0000_0000), 1) == Ok(Some(0))
  {
    ParseIntOfItoa(0x1_0000_0000, -MAX_INT64 - 1, MAX_INT64);
  }

  /** The repeated version parameter, compared as text by the query, means the parsed triples. */
  lemma VersionsParameterSelectsTriples(q: Query, sv: Semver)
    requires Meaning(q, true).Ok? && q.versions != []
    ensures sv.String() in Meaning(q, true).value.versions.value <==> exists i :: 0 <= i < |q.versions| && Parse(q.versions[i]) == Ok(sv)
  {
    TextComparisonSelectsTriples(q.versions, sv);
  }

  // ---- which texts are accepted, and what they put into which field ----

  /** The narrowing keeps the low 32 bits and nothing else. */
  lemma NarrowedNumbers(n: int, m: int)
    ensures Int32(n) == m <==> -2_147_483_648 <= m <= 2_147_483_647 && (n - m) % 4_294_967_296 == 0
  {
  }

  lemma AcceptedInt32(raw: string, min: int, n: int)
    requires Spells(raw, n)
    ensures ParseOptionalInt32(raw, min) ==
            if min <= n && -9_223_372_036_854_775_808 <= n <= 9_223_372_036_854_775_807 then Ok(Some(Int32(n))) else Err
  {
    SpelledOnce(raw, n);
    hide Spells, ParseInt;
    if ParseInt(raw, -MAX_INT64 - 1, MAX_INT64).Some? {
      ParsedNumbers(raw, -MAX_INT64 - 1, MAX_INT64, ParseInt(raw, -MAX_INT64 - 1, MAX_INT64).value);
    }
    ParsedNumbers(raw, -MAX_INT64 - 1, MAX_INT64, n);
  }

  lemma AcceptedInt64(raw: string, n: int)
    requires Spells(raw, n)
    ensures ParseOptionalInt64(raw) == if 0 <= n <= 9_223_372_036_854_775_807 then Ok(Some(n)) else Err
  {
    SpelledOnce(raw, n);
    hide Spells, ParseInt;
    if ParseInt(raw, -MAX_INT64 - 1, MAX_INT64).Some? {
      ParsedNumbers(raw, -MAX_INT64 - 1, MAX_INT64, ParseInt(raw, -MAX_INT64 - 1, MAX_INT64).value);
    }
    ParsedNumbers(raw, -MAX_INT64 - 1, MAX_INT64, n);
  }

  lemma NoNumber(raw: string, min: int)
    requires raw != "" && forall n :: !Spells(raw, n)
    ensures ParseOptionalInt32(raw, min) == Err && ParseOptionalInt64(raw) == Err
  {
    hide Spells, ParseInt;
    if ParseInt(raw, -MAX_INT64 - 1, MAX_INT64).Some? {
      ParsedNumbers(raw, -MAX_INT64 - 1, MAX_INT64, ParseInt(raw, -MAX_INT64 - 1, MAX_INT64).value);
    }
  }

  /** A text spells at most one number. */
  lemma SpelledOnce(s: string, n: int)
    requires Spells(s, n)
    ensures s != "" && forall m :: Spells(s, m) ==> m == n
  {
    hide Spells;
    forall m | Spells(s, m) ensures m == n && s != "" {
      var bound := (if m < 0 then -m else m) + (if n < 0 then -n else n);
      ParsedNumbers(s, -bound, bound, m);
      ParsedNumbers(s, -bound, bound, n);
    }
  }

  /** Which requests are well formed. */
  lemma AcceptedWhen(q: Query, perArtifact: bool)
    ensures Meaning(q, perArtifact).Ok? <==>
            && (q.keepLast == "" || exists n :: Spells(q.keepLast, n) && 1 <= n <= 9_223_372_036_854_775_807)
            && (q.olderThan.Some? ==> -62_167_219_200 <= q.olderThan.value <= 253_402_300_799)
            && (q.from == "" || Parse(q.from).Ok?)
            && (q.below == "" || Parse(q.below).Ok?)
            && (q.versions == [] || perArtifact) && (forall i :: 0 <= i < |q.versions| ==> Parse(q.versions[i]).Ok?)
            && q.hasFiles in ["", "1", "t", "T", "true", "TRUE", "True", "0", "f", "F", "false", "FALSE", "False"]
            && q.hasIncompleteFiles in ["", "1", "t", "T", "true", "TRUE", "True", "0", "f", "F", "false", "FALSE", "False"]
            && (q.minBytes == "" || exists n :: Spells(q.minBytes, n) && 0 <= n <= 9_223_372_036_854_775_807)
            && (q.maxBytes == "" || exists n :: Spells(q.maxBytes, n) && 0 <= n <= 9_223_372_036_854_775_807)
  {
    NormaliseAllAt(q.versions);
    WellFormedNumbers(q.keepLast);
    WellFormedNumbers(q.minBytes);
    WellFormedNumbers(q.maxBytes);
    hide Spells, Parse, NormaliseAll, ParseOptionalInt32, ParseOptionalInt64;
  }

  lemma WellFormedNumbers(raw: string)
    ensures ParseOptionalInt32(raw, 1).Ok? <==> raw == "" || exists n :: Spells(raw, n) && 1 <= n <= 9_223_372_036_854_775_807
    ensures ParseOptionalInt64(raw).Ok? <==> raw == "" || exists n :: Spells(raw, n) && 0 <= n <= 9_223_372_036_854_775_807
  {
    if n :| Spells(raw, n) {
      SpelledOnce(raw, n);
      AcceptedInt32(raw, 1, n);
      AcceptedInt64(raw, n);
    } else if raw != "" {
      NoNumber(raw, 1);
    }
  }

  /** Every parameter reaches its own field, and an absent one leaves it unset. */
  lemma EachParameterItsField(q: Query, perArtifact: bool)
    requires Meaning(q, perArtifact).Ok?
    ensures var f := Meaning(q, perArtifact).value;
            && (f.keepLast.None? <==> q.keepLast == "") && (forall n :: Spells(q.keepLast, n) ==> f.keepLast == Some(Int32(n)))
            && f.olderThan == q.olderThan
            && (f.from.None? <==> q.from == "") && (f.from.Some? ==> Parse(q.from) == Ok(f.from.value))
            && (f.below.None? <==> q.below == "") && (f.below.Some? ==> Parse(q.below) == Ok(f.below.value))
            && (f.versions.None? <==> q.versions == [])
            && (f.versions.Some? ==> forall sv: Semver ::
                  sv.String() in f.versions.value <==> exists i :: 0 <= i < |q.versions| && Parse(q.versions[i]) == Ok(sv))
            && f.hasFiles == (if q.hasFiles == "" then None else Some(q.hasFiles in ["1", "t", "T", "true", "TRUE", "True"]))
            && f.hasIncompleteFiles ==
               (if q.hasIncompleteFiles == "" then None else Some(q.hasIncompleteFiles in ["1", "t", "T", "true", "TRUE", "True"]))
            && (f.minBytes.None? <==> q.minBytes == "") && (forall n :: Spells(q.minBytes, n) ==> f.minBytes == Some(n))
            && (f.maxBytes.None? <==> q.maxBytes == "") && (forall n :: Spells(q.maxBytes, n) ==> f.maxBytes == Some(n))
  {
    forall n | Spells(q.keepLast, n) { AcceptedInt32(q.keepLast, 1, n); }
    forall n | Spells(q.minBytes, n) { AcceptedInt64(q.minBytes, n); }
    forall n | Spells(q.maxBytes, n) { AcceptedInt64(q.maxBytes, n); }
    hide Spells, Parse, NormaliseAll, Semver.String;
    if q.versions != [] {
      forall sv: Semver {
        TextComparisonSelectsTriples(q.versions, sv);
      }
    }
  }

  // ---- paging parameters ----

  function ParseIntDefault(raw: string, otherwise: int): int {
    match ParseInt(raw, -MAX_INT64 - 1, MAX_INT64)
    case Some(n) => n
    case None => otherwise
  }

  /** parsePagination: a malformed number counts as absent, one out of range is moved to the nearest allowed. */
  method ParsePagination(rawPage: string, rawPageSize: string) returns (page: nat, pageSize: nat)
    ensures pageSize >= 1
    ensures forall n :: ParseInt(rawPage, -MAX_INT64 - 1, MAX_INT64) == Some(n) ==> page == if n < 0 then 0 else n
    ensures ParseInt(rawPage, -MAX_INT64 - 1, MAX_INT64) == None ==> page == 0
    ensures forall n :: ParseInt(rawPageSize, -MAX_INT64 - 1, MAX_INT64) == Some(n) ==> pageSize == if n < 1 then 1 else n
    ensures ParseInt(rawPageSize, -MAX_INT64 - 1, MAX_INT64) == None ==> pageSize == 20
  {
    var p, s := ParseIntDefault(rawPage, 0), ParseIntDefault(rawPageSize, 20);
    if p < 0 {
      p := 0;
    }
    if s < 1 {
      s := 1;
    }
    page, pageSize := p, s;
  }
}
