/** The semver codec: three non-negative int32 numbers, printed with dots and read back leniently. */
module SemVer {
  import opened Wrappers
  import opened Decimal

  datatype Semver = Semver(major: nat, minor: nat, patch: nat) {
    /** The triples a Go Semver of non-negative int32 fields can hold. */
    predicate InRange() {
      major <= MAX_INT32 && minor <= MAX_INT32 && patch <= MAX_INT32
    }

    function String(): string {
      Itoa(major) + "." + Itoa(minor) + "." + Itoa(patch)
    }

    /** The SQL row comparison (major, minor, patch) < (that.major, that.minor, that.patch). */
    predicate Below(that: Semver) {
      major < that.major
      || (major == that.major && (minor < that.minor || (minor == that.minor && patch < that.patch)))
    }
  }

  /** strings.SplitN for a one-character separator. */
  function SplitN(s: string, sep: char, n: nat): (parts: seq<string>)
    requires n >= 1
    ensures 1 <= |parts| <= n
  {
    if n == 1 || sep !in s then [s]
    else
      var i := IndexOf(s, sep);
      [s[..i]] + SplitN(s[i + 1..], sep, n - 1)
  }

  function IndexOf(s: string, c: char): (i: nat)
    requires c in s
    ensures i < |s| && s[i] == c && forall k :: 0 <= k < i ==> s[k] != c
  {
    if s[0] == c then 0
    else
      assert s == [s[0]] + s[1..];
      1 + IndexOf(s[1..], c)
  }

  function ParseNonNegative(s: string): (r: Result<nat>) {
    match ParseInt(s, -MAX_INT32 - 1, MAX_INT32)
    case None => Err
    case Some(n) => if n < 0 then Err else Ok(n)
  }

  function Parse(s: string): (r: Result<Semver>)
    ensures r.Ok? ==> r.value.InRange()
  {
    var parts := SplitN(s, '.', 3);
    if |parts| != 3 then Err else FromParts(parts[0], parts[1], parts[2])
  }

  function FromParts(a: string, b: string, c: string): (r: Result<Semver>)
    ensures r.Ok? ==> r.value.InRange()
  {
    match (ParseNonNegative(a), ParseNonNegative(b), ParseNonNegative(c))
    case (Ok(x), Ok(y), Ok(z)) => Ok(Semver(x, y, z))
    case _ => Err
  }

  lemma IndexOfFirst(a: string, rest: string, sep: char)
    requires sep !in a
    ensures sep in a + [sep] + rest && IndexOf(a + [sep] + rest, sep) == |a|
  {
    var s := a + [sep] + rest;
    assert s[|a|] == sep;
    assert forall k :: 0 <= k < |a| ==> s[k] == a[k] && a[k] in a;
  }

  lemma SplitFirst(a: string, rest: string, sep: char, n: nat)
    requires n >= 2 && sep !in a
    ensures SplitN(a + [sep] + rest, sep, n) == [a] + SplitN(rest, sep, n - 1)
  {
    var s := a + [sep] + rest;
    IndexOfFirst(a, rest, sep);
    assert s[..|a|] == a && s[|a| + 1..] == rest;
  }

  lemma SplitAtFirst(s: string, sep: char, n: nat) returns (head: string, rest: string)
    requires n >= 2 && |SplitN(s, sep, n)| > 1
    ensures sep !in head && s == head + [sep] + rest && SplitN(s, sep, n) == [head] + SplitN(rest, sep, n - 1)
  {
    var i := IndexOf(s, sep);
    head, rest := s[..i], s[i + 1..];
  }

  /** The accepted language: exactly the texts a.b.c whose three parts are accepted numbers. */
  lemma ParseSplits(a: string, b: string, c: string)
    requires '.' !in a && '.' !in b
    ensures Parse(a + "." + b + "." + c) == FromParts(a, b, c)
  {
    var s := a + ['.'] + (b + ['.'] + c);
    assert a + "." + b + "." + c == s;
    SplitFirst(a, b + ['.'] + c, '.', 3);
    SplitFirst(b, c, '.', 2);
    assert SplitN(s, '.', 3) == [a, b, c];
  }

  lemma Dotted(a: string, b: string, c: string)
    ensures a + ['.'] + (b + ['.'] + c) == a + "." + b + "." + c
  {
  }

  /** Every accepted text has the shape a.b.c with dot-free a and b. */
  lemma ParsedShape(s: string) returns (a: string, b: string, c: string)
    requires Parse(s).Ok?
    ensures '.' !in a && '.' !in b && s == a + "." + b + "." + c
  {
    var rest;
    a, rest := SplitAtFirst(s, '.', 3);
    b, c := SplitAtFirst(rest, '.', 2);
    hide SplitN;
    Dotted(a, b, c);
  }

  /** Printing and parsing round-trip on every triple of non-negative int32 numbers. */
  lemma RoundTrip(v: Semver)
    requires v.InRange()
    ensures Parse(v.String()) == Ok(v)
  {
    ItoaHasNo(v.major, '.');
    ItoaHasNo(v.minor, '.');
    ParseSplits(Itoa(v.major), Itoa(v.minor), Itoa(v.patch));
    ParseIntOfItoa(v.major, -MAX_INT32 - 1, MAX_INT32);
    ParseIntOfItoa(v.minor, -MAX_INT32 - 1, MAX_INT32);
    ParseIntOfItoa(v.patch, -MAX_INT32 - 1, MAX_INT32);
  }

  /** Normalising an accepted text once is normalising it for good. */
  lemma NormalisationIsIdempotent(s: string)
    requires Parse(s).Ok?
    ensures var once := Parse(s).value.String();
            Parse(once).Ok? && Parse(once).value.String() == once
  {
    RoundTrip(Parse(s).value);
  }

  lemma DotSplitUnique(a: string, r: string, b: string, s: string, sep: char)
    requires sep !in a && sep !in b && a + [sep] + r == b + [sep] + s
    ensures a == b && r == s
  {
    IndexOfFirst(a, r, sep);
    IndexOfFirst(b, s, sep);
    var left, right := a + [sep] + r, b + [sep] + s;
    assert a == left[..|a|] && b == right[..|b|];
    assert r == left[|a| + 1..] && s == right[|b| + 1..];
  }

  lemma StringInjective(v: Semver, w: Semver)
    requires v.String() == w.String()
    ensures v == w
  {
    ItoaHasNo(v.major, '.');
    ItoaHasNo(w.major, '.');
    ItoaHasNo(v.minor, '.');
    ItoaHasNo(w.minor, '.');
    assert v.String() == Itoa(v.major) + ['.'] + (Itoa(v.minor) + ['.'] + Itoa(v.patch));
    assert w.String() == Itoa(w.major) + ['.'] + (Itoa(w.minor) + ['.'] + Itoa(w.patch));
    DotSplitUnique(Itoa(v.major), Itoa(v.minor) + ['.'] + Itoa(v.patch), Itoa(w.major), Itoa(w.minor) + ['.'] + Itoa(w.patch), '.');
    DotSplitUnique(Itoa(v.minor), Itoa(v.patch), Itoa(w.minor), Itoa(w.patch), '.');
    ItoaInjective(v.major, w.major);
    ItoaInjective(v.minor, w.minor);
    ItoaInjective(v.patch, w.patch);
  }

  /** Normalised texts of the `version` parameters; an unparsable one rejects the whole list. */
  function NormaliseAll(raws: seq<string>): (r: Result<seq<string>>)
    ensures r.Ok? ==> |r.value| == |raws|
  {
    if raws == [] then Ok([])
    else
      match (Parse(raws[0]), NormaliseAll(raws[1..]))
      case (Ok(v), Ok(rest)) => Ok([v.String()] + rest)
      case _ => Err
  }

  lemma {:induction false} NormaliseAllAt(raws: seq<string>)
    ensures NormaliseAll(raws).Ok? <==> forall i :: 0 <= i < |raws| ==> Parse(raws[i]).Ok?
    ensures NormaliseAll(raws).Ok? ==>
              forall i :: 0 <= i < |raws| ==> Parse(raws[i]).Ok? && NormaliseAll(raws).value[i] == Parse(raws[i]).value.String()
  {
    hide Parse, Semver.String;
    if raws != [] {
      var rest := raws[1..];
      NormaliseAllAt(rest);
      assert forall i :: 0 <= i < |rest| ==> raws[i + 1] == rest[i];
      assert forall i :: 1 <= i < |raws| ==> raws[i] == rest[i - 1];
    }
  }

  /** The SQL text comparison against the normalised list selects exactly the parsed triples. */
  lemma TextComparisonSelectsTriples(raws: seq<string>, v: Semver)
    requires NormaliseAll(raws).Ok?
    ensures v.String() in NormaliseAll(raws).value <==> exists i :: 0 <= i < |raws| && Parse(raws[i]) == Ok(v)
  {
    NormaliseAllAt(raws);
    var texts := NormaliseAll(raws).value;
    if v.String() in texts {
      var i :| 0 <= i < |texts| && texts[i] == v.String();
      StringInjective(v, Parse(raws[i]).value);
    }
    if i :| 0 <= i < |raws| && Parse(raws[i]) == Ok(v) {
      assert texts[i] == v.String();
    }
  }

  /** A part is accepted, and as which number, exactly when it spells one that fits 32 bits and is not negative. */
  lemma AcceptedNumbers(s: string, n: nat)
    ensures ParseNonNegative(s) == Ok(n) <==> n <= 2_147_483_647 && Spells(s, n)
  {
    hide Spells, ParseInt;
    ParsedNumbers(s, -MAX_INT32 - 1, MAX_INT32, n);
  }

  lemma SpelledHasNoDot(s: string, n: nat)
    requires Spells(s, n)
    ensures '.' !in s && s != "" && (s[0] == '+' || s[0] == '-' || IsDigit(s[0]))
  {
    hide Itoa, Zeros, DigitsValue;
    if z :| s == Zeros(z) + Itoa(n) {
      SpelledDigits(z, n);
    } else if z :| s == "+" + (Zeros(z) + Itoa(n)) {
      SpelledDigits(z, n);
    } else if z :| s == "-" + (Zeros(z) + Itoa(-n)) {
      SpelledDigits(z, -n);
    }
  }

  /** The accepted texts and what they mean: three spelled numbers, each fitting 32 bits, with dots between them. */
  lemma ParsedVersions(s: string, v: Semver)
    ensures Parse(s) == Ok(v) <==>
            && v.major <= 2_147_483_647 && v.minor <= 2_147_483_647 && v.patch <= 2_147_483_647
            && exists a, b, c :: s == a + "." + b + "." + c && Spells(a, v.major) && Spells(b, v.minor) && Spells(c, v.patch)
  {
    hide Spells, ParseNonNegative, SplitN, Parse;
    if Parse(s) == Ok(v) {
      var a, b, c := ParsedShape(s);
      ParseSplits(a, b, c);
      AcceptedNumbers(a, v.major);
      AcceptedNumbers(b, v.minor);
      AcceptedNumbers(c, v.patch);
    }
    if a, b, c :| s == a + "." + b + "." + c && Spells(a, v.major) && Spells(b, v.minor) && Spells(c, v.patch) {
      SpelledHasNoDot(a, v.major);
      SpelledHasNoDot(b, v.minor);
      ParseSplits(a, b, c);
      AcceptedNumbers(a, v.major);
      AcceptedNumbers(b, v.minor);
      AcceptedNumbers(c, v.patch);
    }
  }

  /** Nothing else in front: a text that starts with a letter, say the v of v1.0.0, is no version. */
  lemma VersionsStartWithANumber(s: string)
    requires Parse(s).Ok?
    ensures s != "" && (s[0] == '+' || s[0] == '-' || '0' <= s[0] <= '9')
  {
    var v := Parse(s).value;
    ParsedVersions(s, v);
    hide Parse, Spells;
    var a, b, c :| s == a + "." + b + "." + c && Spells(a, v.major) && Spells(b, v.minor) && Spells(c, v.patch);
    SpelledHasNoDot(a, v.major);
    assert s[0] == a[0];
  }

  lemma LenientNumbers()
    ensures ParseNonNegative("+1") == Ok(1) && ParseNonNegative("02") == Ok(2) && ParseNonNegative("-0") == Ok(0)
  {
    assert "+1"[1..] == "1" && "-0"[1..] == "0";
    assert "1"[..0] == "" && "0"[..0] == "" && "02"[..1] == "0";
    assert DigitsValue("0") == 0 && DigitsValue("1") == 1 && DigitsValue("02") == 2;
  }

  lemma NoNumberHasADot(s: string)
    requires '.' in s
    ensures ParseNonNegative(s) == Err
  {
    var i :| 0 <= i < |s| && s[i] == '.';
    if i > 0 {
      assert s[1..][i - 1] == '.';
    }
    assert !IsDigit('.');
  }

  /** Parse takes more than section 2 of Semantic Versioning 2.0.0 allows, signs and leading zeros, but never a fourth part. */
  lemma ParseIsLenient()
    ensures Parse("+1" + "." + "02" + "." + "-0") == Ok(Semver(1, 2, 0))
    ensures forall a, b, c :: '.' !in a && '.' !in b && '.' in c ==> Parse(a + "." + b + "." + c) == Err
  {
    ParseSplits("+1", "02", "-0");
    LenientNumbers();
    forall a, b, c | '.' !in a && '.' !in b && '.' in c ensures Parse(a + "." + b + "." + c) == Err {
      ParseSplits(a, b, c);
      NoNumberHasADot(c);
    }
  }

  /** The row comparison is that of single numbers: each part counts 2^31 times the next. */
  lemma BelowIsNumeric(u: Semver, v: Semver)
    requires u.InRange() && v.InRange()
    ensures u.Below(v) <==>
            (u.major * 2_147_483_648 + u.minor) * 2_147_483_648 + u.patch < (v.major * 2_147_483_648 + v.minor) * 2_147_483_648 + v.patch
  {
  }

  /** Precedence is numeric and total (section 11 of Semantic Versioning 2.0.0): exactly one of <, ==, > holds, and < is transitive. */
  lemma BelowIsStrictTotalOrder(u: Semver, v: Semver, w: Semver)
    ensures u.Below(v) || v.Below(u) || u == v
    ensures u.Below(v) ==> !v.Below(u) && u != v
    ensures u.Below(v) && v.Below(w) ==> u.Below(w)
  {
  }
}
