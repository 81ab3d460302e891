/** Dropping one setting from the preamble of a plain pg_dump stream, everything else untouched. */
module DumpPreamble {
  import opened Wrappers

  // ---- lines ----

  predicate EndsLine(s: string) {
    s != "" && s[|s| - 1] == '\n'
  }

  /** What ReadString('\n') finds: up to and with the first newline, or all there is. */
  function FirstLine(s: string): (line: string)
    ensures line <= s && (s != "" ==> line != "")
    ensures '\n' in line <==> '\n' in s
    ensures '\n' in line ==> EndsLine(line) && forall i :: 0 <= i < |line| - 1 ==> line[i] != '\n'
    ensures '\n' !in line ==> line == s
  {
    if s == "" then ""
    else if s[0] == '\n' then [s[0]]
    else
      assert s == [s[0]] + s[1..];
      [s[0]] + FirstLine(s[1..])
  }

  /** The whole stream as lines; only the last can lack its newline. */
  function Lines(s: string): (lines: seq<string>)
    decreases |s|
  {
    if s == "" then [] else [FirstLine(s)] + Lines(s[|FirstLine(s)|..])
  }

  function Concat(lines: seq<string>): string {
    if lines == [] then "" else lines[0] + Concat(lines[1..])
  }

  lemma {:induction false} ConcatLines(s: string)
    ensures Concat(Lines(s)) == s
    decreases |s|
  {
    hide FirstLine;
    if s != "" {
      var line, rest := FirstLine(s), s[|FirstLine(s)|..];
      ConcatLines(rest);
      assert Lines(s) == [line] + Lines(rest);
      hide Lines;
      assert ([line] + Lines(rest))[1..] == Lines(rest);
      assert s == line + rest;
    }
  }

  // ---- statements ----

  /** unicode.IsSpace */
  predicate IsSpace(c: char) {
    c in "\t\n\r " || c as int in {0x0b, 0x0c, 0x85, 0xa0, 0x1680, 0x2028, 0x2029, 0x202f, 0x205f, 0x3000} || 0x2000 <= c as int <= 0x200a
  }

  function TrimSpace(s: string): string {
    if s != "" && IsSpace(s[0]) then TrimSpace(s[1..])
    else if s != "" && IsSpace(s[|s| - 1]) then TrimSpace(s[..|s| - 1])
    else s
  }

  const SETTING := "SET transaction_timeout = 0;"

  predicate IsDumpPreamble(stmt: string) {
    stmt == "" || "--" <= stmt || "\\restrict " <= stmt || "SET " <= stmt || "SELECT pg_catalog.set_config(" <= stmt
  }

  predicate Preamble(line: string) {
    IsDumpPreamble(TrimSpace(line))
  }

  predicate Dropped(line: string) {
    TrimSpace(line) == SETTING
  }

  // ---- the filter ----

  function Prepend(head: string, r: Result<string>): Result<string> {
    match r
    case Ok(rest) => Ok(head + rest)
    case Err => Err
  }

  function Kept(line: string): string {
    if Dropped(line) then "" else line
  }

  /** `s` is what can be read; `broken` says that a read error, not the end, comes after it. */
  function Strip(s: string, broken: bool): Result<string>
    decreases |s|
  {
    var line := FirstLine(s);
    if '\n' !in line && broken then Err
    else if !Preamble(line) then Ok(s)
    else if '\n' !in line then Ok(Kept(line))
    else Prepend(Kept(line), Strip(s[|line|..], broken))
  }

  lemma PrependTwice(a: string, b: string, r: Result<string>)
    ensures Prepend(a, Prepend(b, r)) == Prepend(a + b, r)
  {
    if r.Ok? {
      assert a + (b + r.value) == a + b + r.value;
    }
  }

  lemma PrependNothing(r: Result<string>)
    ensures Prepend("", r) == r
  {
    if r.Ok? {
      assert "" + r.value == r.value;
    }
  }

  class LineReader {
    var rest: string
    const broken: bool

    constructor (data: string, broken: bool)
      ensures rest == data && this.broken == broken
    {
      rest, this.broken := data, broken;
    }

    /** bufio.Reader.ReadString('\n') */
    method ReadString() returns (line: string, eof: bool, failed: bool)
      modifies this
      ensures line == FirstLine(old(rest)) && rest == old(rest)[|line|..]
      ensures failed <==> '\n' !in line && broken
      ensures eof <==> '\n' !in line && !broken
    {
      line := FirstLine(rest);
      rest := rest[|line|..];
      failed, eof := '\n' !in line && broken, '\n' !in line && !broken;
    }
  }

  /** stripIncompatibleSettings: the kept head of the preamble, followed by what the reader has not given yet. */
  method StripIncompatibleSettings(r: LineReader) returns (dump: Result<string>)
    modifies r
    ensures dump == Strip(old(r.rest), r.broken)
  {
    hide FirstLine, Preamble, TrimSpace, Prepend;
    var head := "";
    ghost var all := r.rest;
    PrependNothing(Strip(all, r.broken));
    while true
      invariant Strip(all, r.broken) == Prepend(head, Strip(r.rest, r.broken))
      decreases |r.rest|
    {
      ghost var before := r.rest;
      var line, eof, failed := r.ReadString();
      assert before == line + r.rest;
      if failed {
        Prepended(head, "");
        return Err;
      }
      var stmt := TrimSpace(line);
      Unread(line, stmt);
      if !IsDumpPreamble(stmt) {
        Prepended(head, before);
        assert head + line + r.rest == head + before;
        head := head + line;
        break;
      }
      Prepended(head, Kept(line));
      PrependTwice(head, Kept(line), Strip(r.rest, r.broken));
      assert head + "" == head;
      if stmt != SETTING {
        head := head + line;
      }
      if eof {
        assert r.rest == "" && head + r.rest == head;
        break;
      }
    }
    dump := Ok(head + r.rest);
  }

  lemma Prepended(head: string, rest: string)
    ensures Prepend(head, Ok(rest)) == Ok(head + rest) && Prepend(head, Err) == Err
  {
  }

  lemma Unread(line: string, stmt: string)
    requires stmt == TrimSpace(line)
    ensures Preamble(line) == IsDumpPreamble(stmt) && Kept(line) == if stmt == SETTING then "" else line
  {
  }

  // ---- what it does, line by line ----

  /** How many lines the preamble has. */
  function PreambleLength(lines: seq<string>): (n: nat)
    ensures n <= |lines|
    ensures forall i :: 0 <= i < n ==> Preamble(lines[i])
    ensures n < |lines| ==> !Preamble(lines[n])
  {
    if lines == [] || !Preamble(lines[0]) then 0 else 1 + PreambleLength(lines[1..])
  }

  /** The lines that do not trim to the setting, in order. */
  function KeptLines(lines: seq<string>): (kept: seq<string>)
    ensures forall line :: line in kept ==> line in lines && !Dropped(line)
  {
    if lines == [] then [] else (if Dropped(lines[0]) then [] else [lines[0]]) + KeptLines(lines[1..])
  }

  lemma ConcatCons(line: string, lines: seq<string>)
    ensures Concat([line] + lines) == line + Concat(lines)
  {
    assert ([line] + lines)[1..] == lines;
  }

  lemma LinesStep(s: string)
    requires s != ""
    ensures var line := FirstLine(s);
            && Lines(s) == [line] + Lines(s[|line|..])
            && ('\n' !in line ==> Lines(s) == [line])
  {
    if '\n' !in FirstLine(s) {
      assert s[|FirstLine(s)|..] == "";
    }
  }

  lemma {:induction false} KeptConcat(line: string, lines: seq<string>)
    ensures Concat(KeptLines([line] + lines)) == Kept(line) + Concat(KeptLines(lines))
  {
    assert ([line] + lines)[1..] == lines;
    if Dropped(line) {
      assert KeptLines([line] + lines) == KeptLines(lines);
    } else {
      ConcatCons(line, KeptLines(lines));
    }
  }

  /** The output is the input minus exactly the preamble lines that trim to the setting; from the first other line on nothing changes. */
  lemma {:induction false} StripDropsOnlyTheSetting(s: string)
    ensures var lines := Lines(s);
            var n := PreambleLength(lines);
            Strip(s, false) == Ok(Concat(KeptLines(lines[..n])) + Concat(lines[n..]))
    decreases |s|
  {
    hide Preamble, Dropped, FirstLine;
    if s == "" {
      EmptyLine();
      assert Strip(s, false) == Ok("");
    } else {
      LinesStep(s);
      var line, rest := FirstLine(s), s[|FirstLine(s)|..];
      if !Preamble(line) {
        ConcatLines(s);
        assert Lines(s)[0] == line && Lines(s)[..0] == [] && Lines(s)[0..] == Lines(s);
        assert Concat(KeptLines([])) == "" && "" + s == s;
      } else {
        StripDropsOnlyTheSetting(rest);
        EmptyLine();
        assert rest == "" ==> Strip(rest, false) == Ok("");
        hide Strip, Lines;
        WholePreambleLine(line, Lines(rest));
        if '\n' !in line {
          LastPreambleLine(s, line);
          assert Kept(line) + "" == Kept(line);
        } else {
          StripOneLine(s, line, rest);
        }
      }
    }
  }

  lemma EmptyLine()
    ensures Preamble("") && !Dropped("") && FirstLine("") == ""
  {
  }

  lemma LastPreambleLine(s: string, line: string)
    requires line == FirstLine(s) == s && '\n' !in line && Preamble(line) && s != ""
    ensures Strip(s, false) == Ok(Kept(line)) && Lines(s[|line|..]) == []
  {
  }

  lemma StripOneLine(s: string, line: string, rest: string)
    requires line == FirstLine(s) && rest == s[|line|..] && '\n' in line && Preamble(line)
    ensures Strip(s, false) == Prepend(Kept(line), Strip(rest, false))
  {
  }

  lemma OneMorePreambleLine(line: string, more: seq<string>)
    requires Preamble(line)
    ensures PreambleLength([line] + more) == 1 + PreambleLength(more)
  {
    hide Preamble;
    assert ([line] + more)[1..] == more;
  }

  /** One preamble line in front: what the formula says of it. */
  lemma WholePreambleLine(line: string, more: seq<string>)
    requires Preamble(line)
    ensures var lines := [line] + more;
            var n, m := PreambleLength(lines), PreambleLength(more);
            Concat(KeptLines(lines[..n])) + Concat(lines[n..]) == Kept(line) + (Concat(KeptLines(more[..m])) + Concat(more[m..]))
  {
    hide Preamble, Dropped, PreambleLength, KeptLines, Concat, Kept;
    OneMorePreambleLine(line, more);
    var lines, m := [line] + more, PreambleLength(more);
    assert lines[..m + 1] == [line] + more[..m] && lines[m + 1..] == more[m..];
    KeptConcat(line, more[..m]);
    Regroup(Kept(line), Concat(KeptLines(more[..m])), Concat(more[m..]));
  }

  lemma Regroup(a: string, b: string, c: string)
    ensures a + b + c == a + (b + c)
  {
  }

  lemma {:induction false} NeverFailsWithoutReadError(s: string)
    ensures Strip(s, false).Ok?
  {
    StripDropsOnlyTheSetting(s);
  }

  /** A read error ends it exactly when it comes before the first other line is complete; otherwise it makes no difference. */
  lemma {:induction false} ReadErrorMattersOnlyInPreamble(s: string)
    ensures Strip(s, true).Err? <==> forall line :: line in Lines(s) && EndsLine(line) ==> Preamble(line)
    ensures Strip(s, true).Ok? ==> Strip(s, true) == Strip(s, false)
    decreases |s|
  {
    hide Preamble, Dropped, FirstLine;
    if s == "" {
      EmptyLine();
    } else {
      LinesStep(s);
      var line, rest := FirstLine(s), s[|FirstLine(s)|..];
      if '\n' !in line {
        assert line[|line| - 1] in line;
      } else {
        assert line in Lines(s);
        ReadErrorMattersOnlyInPreamble(rest);
        NeverFailsWithoutReadError(rest);
        hide Lines;
        assert forall x :: x in Lines(s) <==> x == line || x in Lines(rest);
      }
    }
  }

  /** Filtering twice is filtering once. */
  lemma {:induction false} StripIsIdempotent(s: string)
    ensures Strip(s, false).Ok? && Strip(Strip(s, false).value, false) == Strip(s, false)
    decreases |s|
  {
    hide Preamble, Dropped, FirstLine;
    NeverFailsWithoutReadError(s);
    var line, rest := FirstLine(s), s[|FirstLine(s)|..];
    if s == "" {
      EmptyLine();
    } else if Preamble(line) {
      if '\n' !in line {
        EmptyLine();
      } else {
        StripIsIdempotent(rest);
        var once := Strip(rest, false).value;
        if !Dropped(line) {
          FirstLineOfLine(line, once);
          assert (line + once)[|line|..] == once;
        } else {
          assert "" + once == once;
        }
      }
    }
  }

  /** A complete line is the first line of whatever it is put in front of. */
  lemma {:induction false} FirstLineOfLine(line: string, rest: string)
    requires EndsLine(line) && forall i :: 0 <= i < |line| - 1 ==> line[i] != '\n'
    ensures FirstLine(line + rest) == line
  {
    var s, tail := line + rest, line[1..];
    assert s != "" && s[0] == line[0] && line == [line[0]] + tail;
    if |line| > 1 {
      assert s[1..] == tail + rest;
      assert forall i :: 0 <= i < |tail| - 1 ==> tail[i] == line[i + 1];
      FirstLineOfLine(tail, rest);
    }
  }

  // ---- which lines those are ----

  /** The 25 characters of Unicode's White_Space property, and so none of the printable ones of ASCII. */
  lemma WhiteSpace(c: char)
    ensures IsSpace(c) <==> c as int in {9, 10, 11, 12, 13, 32, 133, 160, 5760, 8192, 8193, 8194, 8195, 8196, 8197, 8198, 8199, 8200, 8201, 8202,
                                         8232, 8233, 8239, 8287, 12288}
    ensures '!' <= c <= '~' ==> !IsSpace(c)
  {
  }

  predicate Blank(s: string) {
    forall i :: 0 <= i < |s| ==> s[i] in " \t\r\n"
  }

  /** What is left of a text in blanks is the text. */
  lemma {:induction false} TrimAround(before: string, body: string, after: string)
    requires Blank(before) && Blank(after)
    requires body == "" || ('!' <= body[0] <= '~' && '!' <= body[|body| - 1] <= '~')
    ensures TrimSpace(before + body + after) == body
    decreases |before| + |after|
  {
    var s := before + body + after;
    if before != "" {
      assert s[1..] == before[1..] + body + after;
      TrimAround(before[1..], body, after);
    } else if after != "" {
      var rest := after[..|after| - 1];
      assert s == body + after && s[..|s| - 1] == body + rest && "" + body + rest == body + rest;
      if body == "" {
        assert s[1..] == "" + "" + after[1..] && s[0] == after[0];
        TrimAround("", "", after[1..]);
      } else {
        TrimAround("", body, rest);
      }
    } else {
      assert s == body;
    }
  }

  /** One line of a dump, blanks around it. */
  function Line(before: string, body: string, after: string): string {
    before + body + after + "\n"
  }

  predicate OneLine(before: string, body: string, after: string) {
    && Blank(before) && Blank(after) && '\n' !in before + body + after
    && (body == "" || ('!' <= body[0] <= '~' && '!' <= body[|body| - 1] <= '~'))
  }

  lemma LineTrims(before: string, body: string, after: string, rest: string)
    requires OneLine(before, body, after)
    ensures var line := Line(before, body, after); TrimSpace(line) == body && FirstLine(line + rest) == line && (line + rest)[|line|..] == rest
  {
    var line := Line(before, body, after);
    assert line == before + body + (after + "\n");
    TrimAround(before, body, after + "\n");
    assert EndsLine(line);
    forall i | 0 <= i < |line| - 1 ensures line[i] != '\n' { assert line[i] in before + body + after; }
    FirstLineOfLine(line, rest);
  }

  /** Each kind of preamble line is kept and the setting after it dropped; the setting itself goes wherever it stands in the preamble. */
  lemma PreambleLines(before: string, body: string, after: string, rest: string)
    requires OneLine(before, body, after)
    requires body == "" || "--" <= body || "\\restrict " <= body || "SET " <= body || "SELECT pg_catalog.set_config(" <= body
    ensures var line := Line(before, body, after);
            Strip(line + ("SET transaction_timeout = 0;\n" + rest), false) ==
            Prepend(if body == "SET transaction_timeout = 0;" then "" else line, Strip(rest, false))
  {
    hide FirstLine, TrimSpace, Line, Strip;
    var line, more := Line(before, body, after), "SET transaction_timeout = 0;\n" + rest;
    SettingDropped(rest);
    LineKept(before, body, after, more);
  }

  lemma LineKept(before: string, body: string, after: string, more: string)
    requires OneLine(before, body, after)
    requires body == "" || "--" <= body || "\\restrict " <= body || "SET " <= body || "SELECT pg_catalog.set_config(" <= body
    ensures var line := Line(before, body, after);
            && Strip(line + more, false) == Prepend(Kept(line), Strip(more, false))
            && Kept(line) == if body == "SET transaction_timeout = 0;" then "" else line
  {
    var line := Line(before, body, after);
    LineTrims(before, body, after, more);
    assert line[|line| - 1] == '\n';
    hide FirstLine, TrimSpace, Line, Strip;
    StripOneLine(line + more, line, more);
  }

  lemma SettingDropped(rest: string)
    ensures Strip("SET transaction_timeout = 0;\n" + rest, false) == Strip(rest, false)
  {
    LineKept("", SETTING, "", rest);
    assert Line("", SETTING, "") == "SET transaction_timeout = 0;\n";
    PrependNothing(Strip(rest, false));
  }

  /** Any other line ends the preamble: from it on nothing is dropped. */
  lemma OtherLines(before: string, body: string, after: string, rest: string)
    requires OneLine(before, body, after)
    requires !(body == "" || "--" <= body || "\\restrict " <= body || "SET " <= body || "SELECT pg_catalog.set_config(" <= body)
    ensures Strip(Line(before, body, after) + rest, false) == Ok(Line(before, body, after) + rest)
  {
    LineTrims(before, body, after, rest);
    hide FirstLine, TrimSpace, Line;
  }
}
