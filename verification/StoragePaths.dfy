/** Where a file's object lives: the backend-relative path and the S3 key under a prefix. */
module StoragePaths {
  import opened Decimal
  import opened SemVer

  type Segments = seq<string>

  /** {artifactID}/{major}/{minor}/{patch}/{fileID}/{filename} */
  function FileStoragePath(artifact: nat, sv: Semver, file: nat, name: string): string {
    Itoa(artifact) + "/" + (Itoa(sv.major) + "/" + (Itoa(sv.minor) + "/" + (Itoa(sv.patch) + "/" + (Itoa(file) + "/" + name))))
  }

  lemma NumberThenSlash(m: nat, r: string, n: nat, s: string)
    requires Itoa(m) + "/" + r == Itoa(n) + "/" + s
    ensures m == n && r == s
  {
    ItoaHasNo(m, '/');
    ItoaHasNo(n, '/');
    DotSplitUnique(Itoa(m), r, Itoa(n), s, '/');
    ItoaInjective(m, n);
  }

  /** Two files with the same path are the same file: no restriction on the names, slashes included. */
  lemma FileStoragePathInjective(a: nat, v: Semver, f: nat, x: string, b: nat, w: Semver, g: nat, y: string)
    requires FileStoragePath(a, v, f, x) == FileStoragePath(b, w, g, y)
    ensures a == b && v == w && f == g && x == y
  {
    var x5, y5 := Itoa(f) + "/" + x, Itoa(g) + "/" + y;
    var x4, y4 := Itoa(v.patch) + "/" + x5, Itoa(w.patch) + "/" + y5;
    var x3, y3 := Itoa(v.minor) + "/" + x4, Itoa(w.minor) + "/" + y4;
    var x2, y2 := Itoa(v.major) + "/" + x3, Itoa(w.major) + "/" + y3;
    NumberThenSlash(a, x2, b, y2);
    NumberThenSlash(v.major, x3, w.major, y3);
    NumberThenSlash(v.minor, x4, w.minor, y4);
    NumberThenSlash(v.patch, x5, w.patch, y5);
    NumberThenSlash(f, x, g, y);
  }

  // ---- path.Join on slash-separated segments ----

  function Split(s: string): (segs: Segments)
    ensures segs != []
    ensures forall i :: 0 <= i < |segs| ==> '/' !in segs[i]
  {
    if '/' !in s then [s]
    else
      var i := IndexOf(s, '/');
      assert '/' !in s[..i];
      [s[..i]] + Split(s[i + 1..])
  }

  function Join(segs: Segments): string
    requires segs != []
  {
    if |segs| == 1 then segs[0] else segs[0] + "/" + Join(segs[1..])
  }

  predicate SlashFree(segs: Segments) {
    forall i :: 0 <= i < |segs| ==> '/' !in segs[i]
  }

  lemma {:induction false} SplitOfJoin(segs: Segments)
    requires segs != [] && SlashFree(segs)
    ensures Split(Join(segs)) == segs
  {
    if |segs| > 1 {
      var s := Join(segs);
      SplitOfJoin(segs[1..]);
      IndexOfFirst(segs[0], Join(segs[1..]), '/');
      assert s == segs[0] + ['/'] + Join(segs[1..]);
      assert s[..|segs[0]|] == segs[0] && s[|segs[0]| + 1..] == Join(segs[1..]);
      assert [segs[0]] + segs[1..] == segs;
    }
  }

  lemma {:induction false} JoinOfSplit(s: string)
    ensures Join(Split(s)) == s
    decreases |s|
  {
    if '/' in s {
      var i := IndexOf(s, '/');
      JoinOfSplit(s[i + 1..]);
      assert Split(s)[1..] == Split(s[i + 1..]);
      assert s == s[..i] + ['/'] + s[i + 1..];
    }
  }

  lemma {:induction false} JoinAppend(xs: Segments, ys: Segments)
    requires xs != [] && ys != []
    ensures Join(xs + ys) == Join(xs) + "/" + Join(ys)
  {
    if |xs| == 1 {
      assert (xs + ys)[1..] == ys;
    } else {
      JoinAppend(xs[1..], ys);
      assert (xs + ys)[1..] == xs[1..] + ys;
    }
  }

  predicate OrdinaryName(s: string) {
    s != "" && s != "." && s != ".." && '/' !in s
  }

  predicate Ordinary(segs: Segments) {
    forall i :: 0 <= i < |segs| ==> OrdinaryName(segs[i])
  }

  /** path.Clean on the segments of a relative path: drop "" and ".", let ".." remove what precedes it. */
  function Clean(stack: Segments, segs: Segments): Segments
    decreases |segs|
  {
    if segs == [] then stack
    else if segs[0] == "" || segs[0] == "." then Clean(stack, segs[1..])
    else if segs[0] == ".." && stack != [] && stack[|stack| - 1] != ".." then Clean(stack[..|stack| - 1], segs[1..])
    else Clean(stack + [segs[0]], segs[1..])
  }

  function CleanPath(s: string): string {
    Rendered(Clean([], Split(s)))
  }

  /** strings.Trim(prefix, "/") */
  function TrimSlashes(s: string): string {
    if s != "" && s[0] == '/' then TrimSlashes(s[1..])
    else if s != "" && s[|s| - 1] == '/' then TrimSlashes(s[..|s| - 1])
    else s
  }

  /** joinPrefix; both callers trim the prefix first, so a joined path is never rooted. */
  function JoinPrefix(prefix: string, relative: string): string
    requires prefix == TrimSlashes(prefix)
  {
    if prefix == "" then relative else CleanPath(prefix + "/" + relative)
  }

  lemma {:induction false} TrimSlashesIdempotent(s: string)
    ensures TrimSlashes(TrimSlashes(s)) == TrimSlashes(s)
    decreases |s|
  {
    if s != "" && s[0] == '/' {
      TrimSlashesIdempotent(s[1..]);
    } else if s != "" && s[|s| - 1] == '/' {
      TrimSlashesIdempotent(s[..|s| - 1]);
    }
  }

  /** The S3 key of a DB-relative path under a configured prefix. */
  function Key(prefix: string, relative: string): string {
    TrimSlashesIdempotent(prefix);
    JoinPrefix(TrimSlashes(prefix), relative)
  }

  lemma {:induction false} CleanAppend(stack: Segments, xs: Segments, ys: Segments)
    ensures Clean(stack, xs + ys) == Clean(Clean(stack, xs), ys)
    decreases |xs|
  {
    if xs == [] {
      assert xs + ys == ys;
    } else {
      assert (xs + ys)[1..] == xs[1..] + ys;
      if xs[0] == "" || xs[0] == "." {
        CleanAppend(stack, xs[1..], ys);
      } else if xs[0] == ".." && stack != [] && stack[|stack| - 1] != ".." {
        CleanAppend(stack[..|stack| - 1], xs[1..], ys);
      } else {
        CleanAppend(stack + [xs[0]], xs[1..], ys);
      }
    }
  }

  lemma {:induction false} CleanOrdinary(stack: Segments, segs: Segments)
    requires Ordinary(segs)
    ensures Clean(stack, segs) == stack + segs
    decreases |segs|
  {
    if segs != [] {
      CleanOrdinary(stack + [segs[0]], segs[1..]);
      assert stack + [segs[0]] + segs[1..] == stack + segs;
    }
  }

  lemma {:induction false} CleanSlashFree(stack: Segments, segs: Segments)
    requires SlashFree(stack) && SlashFree(segs)
    ensures SlashFree(Clean(stack, segs))
    decreases |segs|
  {
    if segs != [] {
      if segs[0] == "" || segs[0] == "." {
        CleanSlashFree(stack, segs[1..]);
      } else if segs[0] == ".." && stack != [] && stack[|stack| - 1] != ".." {
        CleanSlashFree(stack[..|stack| - 1], segs[1..]);
      } else {
        CleanSlashFree(stack + [segs[0]], segs[1..]);
      }
    }
  }

  /** The directory a prefix names, whatever way it is spelled ("a//b/", "a/./b" and "a/b" are one). */
  function Directory(prefix: string): Segments {
    var p := TrimSlashes(prefix);
    if p == "" then [] else Clean([], Split(p))
  }

  /** A path the registry stores: six ordinary segments. */
  predicate StoragePath(path: string) {
    |Split(path)| == 6 && Ordinary(Split(path))
  }

  lemma PathOfSegments(a: string, b: string, c: string, d: string, e: string, f: string)
    ensures Join([a, b, c, d, e, f]) == a + "/" + (b + "/" + (c + "/" + (d + "/" + (e + "/" + f))))
  {
    assert [e, f][1..] == [f];
    JoinAppend([d], [e, f]);
    JoinAppend([c], [d, e, f]);
    JoinAppend([b], [c, d, e, f]);
    JoinAppend([a], [b, c, d, e, f]);
    assert [d] + [e, f] == [d, e, f];
    assert [c] + [d, e, f] == [c, d, e, f];
    assert [b] + [c, d, e, f] == [b, c, d, e, f];
    assert [a] + [b, c, d, e, f] == [a, b, c, d, e, f];
  }

  lemma NumberIsOrdinary(n: nat)
    ensures OrdinaryName(Itoa(n))
  {
    ItoaHasNo(n, '/');
    assert IsDigit(Itoa(n)[0]) && !IsDigit('.');
  }

  /** The path of every file with an ordinary name is a storage path: exactly six segments. */
  lemma FileStoragePathHasSixSegments(artifact: nat, sv: Semver, file: nat, name: string)
    requires OrdinaryName(name)
    ensures StoragePath(FileStoragePath(artifact, sv, file, name))
  {
    SplitOfFileStoragePath(artifact, sv, file, name);
  }

  function Rendered(segs: Segments): string {
    if segs == [] then "." else Join(segs)
  }

  lemma KeyIsCleanedJoin(prefix: string, path: string)
    requires TrimSlashes(prefix) == prefix && prefix != ""
    ensures Key(prefix, path) == Rendered(Clean([], Split(prefix) + Split(path)))
  {
    JoinAppend(Split(prefix), Split(path));
    JoinOfSplit(prefix);
    JoinOfSplit(path);
    SplitOfJoin(Split(prefix) + Split(path));
  }

  /** Under every prefix a storage path lands in the prefix's directory, its six segments unchanged. */
  lemma KeySegments(prefix: string, path: string)
    requires StoragePath(path)
    ensures Split(Key(prefix, path)) == Directory(prefix) + Split(path)
  {
    var p := TrimSlashes(prefix);
    if p == "" {
      TrimSlashesIdempotent(prefix);
      assert [] + Split(path) == Split(path);
    } else {
      TrimSlashesIdempotent(prefix);
      KeyIsCleanedJoin(p, path);
      CleanAppend([], Split(p), Split(path));
      CleanSlashFree([], Split(p));
      CleanOrdinary(Clean([], Split(p)), Split(path));
      SplitOfJoin(Directory(prefix) + Split(path));
    }
  }

  lemma FirstAndLastChar(segs: Segments)
    requires segs != [] && Ordinary(segs)
    ensures Join(segs) != "" && Join(segs)[0] == segs[0][0] && Join(segs)[|Join(segs)| - 1] == segs[|segs| - 1][|segs[|segs| - 1]| - 1]
  {
    if |segs| > 1 {
      FirstAndLastChar(segs[1..]);
    }
  }

  lemma TrimmedPrefixes(s: string)
    requires s != "" && s[0] != '/' && s[|s| - 1] != '/'
    ensures TrimSlashes(s) == s && TrimSlashes("/" + s + "/") == s && TrimSlashes("") == "" && TrimSlashes("/") == ""
  {
    var slashed := "/" + s + "/";
    assert slashed[0] == '/' && slashed[1..] == s + "/" && (s + "/")[0] == s[0] && (s + "/")[|s|] == '/' && (s + "/")[..|s|] == s;
    assert "/"[1..] == "";
  }

  /** A prefix of ordinary segments names the directory it spells, with or without slashes around it, and a key is prefix, slash and path;
      without a prefix it is the path. */
  lemma OrdinaryPrefixes(segs: Segments, path: string)
    requires segs != [] && Ordinary(segs) && StoragePath(path)
    ensures Directory(Join(segs)) == segs && Key(Join(segs), path) == Join(segs) + "/" + path
    ensures Key("/" + Join(segs) + "/", path) == Key(Join(segs), path)
    ensures Key("", path) == path && Key("/", path) == path
  {
    var prefix := Join(segs);
    FirstAndLastChar(segs);
    assert prefix[0] in segs[0] && prefix[|prefix| - 1] in segs[|segs| - 1];
    TrimmedPrefixes(prefix);
    SplitOfJoin(segs);
    CleanOrdinary([], segs);
    assert [] + segs == segs;
    hide Split, Clean, TrimSlashes;
    KeySegments(prefix, path);
    JoinOfSplit(Key(prefix, path));
    JoinOfSplit(path);
    JoinAppend(segs, Split(path));
  }

  lemma SingleDigits()
    ensures Itoa(1) == "1" && Itoa(2) == "2" && Itoa(3) == "3" && Itoa(4) == "4" && Itoa(5) == "5"
  {
  }

  /** One path written out. */
  lemma WrittenOut()
    ensures FileStoragePath(1, Semver(2, 3, 4), 5, "a/b.bin") == "1/2/3/4/5/a/b.bin"
  {
    SingleDigits();
    hide Itoa;
  }

  /** Keys collide only when they should: same directory and same path, even when one prefix nests inside the other. */
  lemma KeysCollideOnlyWhenEqual(p: string, x: string, q: string, y: string)
    requires StoragePath(x) && StoragePath(y)
    ensures Key(p, x) == Key(q, y) <==> Directory(p) == Directory(q) && x == y
  {
    KeySegments(p, x);
    KeySegments(q, y);
    JoinOfSplit(x);
    JoinOfSplit(y);
    JoinOfSplit(Key(p, x));
    JoinOfSplit(Key(q, y));
    if Key(p, x) == Key(q, y) {
      var dp, dq := Directory(p), Directory(q);
      assert |dp| == |dq|;
      assert dp == (dp + Split(x))[..|dp|] && dq == (dq + Split(y))[..|dq|];
      assert Split(x) == (dp + Split(x))[|dp|..] && Split(y) == (dq + Split(y))[|dq|..];
    }
  }

  /** The five numbers of a storage path, in the order they are printed. */
  function NumberSegments(artifact: nat, sv: Semver, file: nat): (dir: Segments)
    ensures |dir| == 5
  {
    [Itoa(artifact), Itoa(sv.major), Itoa(sv.minor), Itoa(sv.patch), Itoa(file)]
  }

  lemma SplitOfFileStoragePath(artifact: nat, sv: Semver, file: nat, name: string)
    requires '/' !in name
    ensures Split(FileStoragePath(artifact, sv, file, name)) == NumberSegments(artifact, sv, file) + [name]
    ensures Ordinary(NumberSegments(artifact, sv, file))
  {
    hide Itoa, Split, Join;
    var segs := [Itoa(artifact), Itoa(sv.major), Itoa(sv.minor), Itoa(sv.patch), Itoa(file), name];
    NumberIsOrdinary(artifact);
    NumberIsOrdinary(sv.major);
    NumberIsOrdinary(sv.minor);
    NumberIsOrdinary(sv.patch);
    NumberIsOrdinary(file);
    PathOfSegments(segs[0], segs[1], segs[2], segs[3], segs[4], segs[5]);
    SplitOfJoin(segs);
    assert segs == NumberSegments(artifact, sv, file) + [name];
  }

  // ---- which file names keep objects apart ----

  /** What Go's multipart reader can hand over as a file name: the last element of a path, or "/" for a path of slashes. */
  predicate HandlerName(name: string) {
    name == "/" || (name != "" && '/' !in name)
  }

  /** A name whose objects no other file's can be taken for: any without a key prefix, and under one any but "..". */
  predicate Plain(prefix: string, name: string) {
    TrimSlashes(prefix) == "" || (HandlerName(name) && name != "..")
  }

  /** The segments a name leaves after its file's five numbers, and what path.Clean makes of them. */
  lemma TailOfName(stack: Segments, name: string)
    requires HandlerName(name) && stack != [] && OrdinaryName(stack[|stack| - 1])
    ensures Clean(stack, Split(name)) ==
            if name == ".." then stack[..|stack| - 1] else if OrdinaryName(name) then stack + [name] else stack
  {
    if name == "/" {
      assert Split("/") == ["", ""] by {
        assert "/"[..0] == "" && "/"[1..] == "";
        assert Split("") == [""];
      }
      assert ["", ""][1..] == [""] && [""][1..] == [];
    } else {
      assert Split(name) == [name] && [name][1..] == [];
    }
  }

  lemma SplitOfAnyPath(artifact: nat, sv: Semver, file: nat, name: string)
    ensures Split(FileStoragePath(artifact, sv, file, name)) == NumberSegments(artifact, sv, file) + Split(name)
    ensures Ordinary(NumberSegments(artifact, sv, file))
  {
    hide Itoa, Split, Join;
    NumberIsOrdinary(artifact);
    NumberIsOrdinary(sv.major);
    NumberIsOrdinary(sv.minor);
    NumberIsOrdinary(sv.patch);
    NumberIsOrdinary(file);
    var f := Itoa(file) + "/" + name;
    var e := Itoa(sv.patch) + "/" + f;
    var d := Itoa(sv.minor) + "/" + e;
    var c := Itoa(sv.major) + "/" + d;
    SplitSlash(Itoa(file), name);
    SplitSlash(Itoa(sv.patch), f);
    SplitSlash(Itoa(sv.minor), e);
    SplitSlash(Itoa(sv.major), d);
    SplitSlash(Itoa(artifact), c);
  }

  lemma SplitSlash(head: string, rest: string)
    requires '/' !in head
    ensures Split(head + "/" + rest) == [head] + Split(rest)
  {
    var s := head + ['/'] + rest;
    assert head + "/" + rest == s;
    IndexOfFirst(head, rest, '/');
    assert s[..|head|] == head && s[|head| + 1..] == rest;
  }

  /** The segments of a file's key under a prefix: five numbers below the prefix's directory, and the name if it is an ordinary one. */
  lemma KeySegmentsOfFile(prefix: string, artifact: nat, sv: Semver, file: nat, name: string)
    requires TrimSlashes(prefix) != "" && HandlerName(name)
    ensures var nums := NumberSegments(artifact, sv, file);
            Split(Key(prefix, FileStoragePath(artifact, sv, file, name))) ==
            Directory(prefix) + (if name == ".." then nums[..4] else if OrdinaryName(name) then nums + [name] else nums)
  {
    var p, path, nums := TrimSlashes(prefix), FileStoragePath(artifact, sv, file, name), NumberSegments(artifact, sv, file);
    var dir := Directory(prefix);
    TrimSlashesIdempotent(prefix);
    KeyIsCleanedJoin(p, path);
    SplitOfAnyPath(artifact, sv, file, name);
    CleanAppend([], Split(p), Split(path));
    CleanSlashFree([], Split(p));
    CleanAppend(dir, nums, Split(name));
    CleanOrdinary(dir, nums);
    var stack := dir + nums;
    TailOfName(stack, name);
    hide Clean, Split, FileStoragePath;
    assert stack[..|stack| - 1] == dir + nums[..4];
    var segs := dir + (if name == ".." then nums[..4] else if OrdinaryName(name) then nums + [name] else nums);
    assert stack + [name] == dir + (nums + [name]);
    SplitOfJoin(segs);
  }

  /** An upload named ".." has no storage path: under a prefix its key loses the file id. */
  lemma DotDotNameLeavesItsDirectory(prefix: string, artifact: nat, sv: Semver, file: nat)
    requires TrimSlashes(prefix) != ""
    ensures !StoragePath(FileStoragePath(artifact, sv, file, ".."))
    ensures Split(Key(prefix, FileStoragePath(artifact, sv, file, ".."))) == Directory(prefix) + NumberSegments(artifact, sv, file)[..4]
  {
    hide FileStoragePath, Key, Clean;
    KeySegmentsOfFile(prefix, artifact, sv, file, "..");
    SplitOfFileStoragePath(artifact, sv, file, "..");
    assert Split(FileStoragePath(artifact, sv, file, ".."))[5] == "..";
  }

  /** Two files with plain names never share a key: any two versions, names and ids. */
  lemma KeyDeterminesFile(prefix: string, a: nat, v: Semver, f: nat, x: string, b: nat, w: Semver, g: nat, y: string)
    requires Plain(prefix, x) && Plain(prefix, y)
    requires Key(prefix, FileStoragePath(a, v, f, x)) == Key(prefix, FileStoragePath(b, w, g, y))
    ensures f == g
  {
    hide FileStoragePath, Split, Clean;
    if TrimSlashes(prefix) == "" {
      TrimSlashesIdempotent(prefix);
      FileStoragePathInjective(a, v, f, x, b, w, g, y);
    } else {
      KeySegmentsOfFile(prefix, a, v, f, x);
      KeySegmentsOfFile(prefix, b, w, g, y);
      assert NumberSegments(a, v, f) + [] == NumberSegments(a, v, f) && NumberSegments(b, w, g) + [] == NumberSegments(b, w, g);
      SameFifthNumber(Directory(prefix), a, v, f, if OrdinaryName(x) then [x] else [], b, w, g, if OrdinaryName(y) then [y] else []);
    }
  }

  lemma SameFifthNumber(dir: Segments, a: nat, v: Semver, f: nat, xs: Segments, b: nat, w: Semver, g: nat, ys: Segments)
    requires dir + (NumberSegments(a, v, f) + xs) == dir + (NumberSegments(b, w, g) + ys)
    ensures f == g
  {
    hide Itoa;
    var left, right := NumberSegments(a, v, f) + xs, NumberSegments(b, w, g) + ys;
    assert (dir + left)[|dir| + 4] == left[4] == Itoa(f);
    assert (dir + right)[|dir| + 4] == right[4] == Itoa(g);
    ItoaInjective(f, g);
  }

  /** Exactly these names separate: under a prefix all files of a version that are named ".." share one key. */
  lemma PlainNamesSeparate(prefix: string, a: nat, v: Semver, name: string)
    requires HandlerName(name)
    ensures (forall f: nat, g: nat :: f != g ==> Key(prefix, FileStoragePath(a, v, f, name)) != Key(prefix, FileStoragePath(a, v, g, name)))
            <==> Plain(prefix, name)
  {
    hide FileStoragePath, Key;
    if Plain(prefix, name) {
      forall f: nat, g: nat | f != g ensures Key(prefix, FileStoragePath(a, v, f, name)) != Key(prefix, FileStoragePath(a, v, g, name)) {
        if Key(prefix, FileStoragePath(a, v, f, name)) == Key(prefix, FileStoragePath(a, v, g, name)) {
          KeyDeterminesFile(prefix, a, v, f, name, a, v, g, name);
        }
      }
    } else {
      DotDotsShareAKey(prefix, a, v, 0, 1);
    }
  }

  lemma DotDotsShareAKey(prefix: string, a: nat, v: Semver, f: nat, g: nat)
    requires TrimSlashes(prefix) != ""
    ensures Key(prefix, FileStoragePath(a, v, f, "..")) == Key(prefix, FileStoragePath(a, v, g, ".."))
  {
    hide FileStoragePath, Key, Itoa, Split, Clean;
    var k, l := Key(prefix, FileStoragePath(a, v, f, "..")), Key(prefix, FileStoragePath(a, v, g, ".."));
    KeySegmentsOfFile(prefix, a, v, f, "..");
    KeySegmentsOfFile(prefix, a, v, g, "..");
    assert NumberSegments(a, v, f)[..4] == NumberSegments(a, v, g)[..4];
    JoinOfSplit(k);
    JoinOfSplit(l);
  }

  /** Names that leave no segment of their own are why the migration asks for six: with one prefix inside another, two files can meet. */
  lemma DotNamesMeetUnderNestedPrefixes(outer: string, inner: string, artifact: nat, sv: Semver, file: nat, n: nat)
    requires TrimSlashes(outer) != "" && TrimSlashes(inner) != "" && Directory(inner) == Directory(outer) + [Itoa(artifact)]
    ensures Key(outer, FileStoragePath(artifact, sv, file, Itoa(n))) ==
            Key(inner, FileStoragePath(sv.major, Semver(sv.minor, sv.patch, file), n, "."))
    ensures !StoragePath(FileStoragePath(sv.major, Semver(sv.minor, sv.patch, file), n, "."))
  {
    hide FileStoragePath, Key, Itoa, Split, Clean, Directory, TrimSlashes;
    NumberIsOrdinary(n);
    var coarse, fine := NumberSegments(artifact, sv, file), NumberSegments(sv.major, Semver(sv.minor, sv.patch, file), n);
    KeySegmentsOfFile(outer, artifact, sv, file, Itoa(n));
    KeySegmentsOfFile(inner, sv.major, Semver(sv.minor, sv.patch, file), n, ".");
    assert coarse + [Itoa(n)] == [Itoa(artifact)] + fine;
    assert Directory(outer) + ([Itoa(artifact)] + fine) == Directory(inner) + fine;
    JoinOfSplit(Key(outer, FileStoragePath(artifact, sv, file, Itoa(n))));
    JoinOfSplit(Key(inner, FileStoragePath(sv.major, Semver(sv.minor, sv.patch, file), n, ".")));
    SplitOfFileStoragePath(sv.major, Semver(sv.minor, sv.patch, file), n, ".");
    assert Split(FileStoragePath(sv.major, Semver(sv.minor, sv.patch, file), n, "."))[5] == ".";
  }
}
