/** Reading git's porcelain report of modified files: the report as git writes it, the parser as the observer
    has it, and for which reports the parser sees exactly the files reported, the first line being the one at risk. */
module GitStatus {
  import opened Wrappers
  import opened Text

  predicate IsSpace(c: char) {
    c in {' ', '\t', '\n', '\r', '\U{0B}', '\U{0C}', '\U{85}', '\U{A0}', '\U{1680}',
          '\U{2028}', '\U{2029}', '\U{202F}', '\U{205F}', '\U{3000}'}
    || '\U{2000}' <= c <= '\U{200A}'
  }

  function TrimLeft(s: string): (t: string)
    ensures t != "" ==> !IsSpace(t[0])
  {
    if s != "" && IsSpace(s[0]) then TrimLeft(s[1..]) else s
  }

  function TrimRight(s: string): (t: string)
    ensures t <= s
  {
    if s != "" && IsSpace(s[|s| - 1]) then TrimRight(s[..|s| - 1]) else s
  }

  /** strings.TrimSpace. */
  function TrimSpace(s: string): string { TrimRight(TrimLeft(s)) }

  /** strings.Split(s, "\n"). */
  function Lines(s: string): (lines: seq<string>)
    ensures lines != []
  {
    if s == "" then [""]
    else
      var rest := Lines(s[1..]);
      if s[0] == '\n' then [""] + rest else [[s[0]] + rest[0]] + rest[1..]
  }

  /** The file that one line of the report names; lines that are too short name none. */
  function FileOf(line: string): Option<string> {
    if |line| < 4 then None
    else
      var file := TrimSpace(line[3..]);
      match Find(file, " -> ", 0)
      case Some(i) => Some(file[i + 4..])
      case None => Some(file)
  }

  function FilesOf(lines: seq<string>): set<string> {
    if lines == [] then {}
    else (match FileOf(lines[0]) case Some(f) => {f} case None => {}) + FilesOf(lines[1..])
  }

  /** gitModifiedFiles, from the output of a successful run. */
  method GitModifiedFiles(out: string) returns (result: set<string>)
    ensures result == FilesOf(Lines(TrimSpace(out)))
  {
    result := {};
    var lines := Lines(TrimSpace(out));
    for i := 0 to |lines|
      invariant result + FilesOf(lines[i..]) == FilesOf(lines)
    {
      var line := lines[i];
      assert lines[i..][0] == line && lines[i..][1..] == lines[i + 1..];
      if |line| < 4 {
        continue;
      }
      var file := TrimSpace(line[3..]);
      var idx := Find(file, " -> ", 0);
      if idx.Some? {
        file := file[idx.value + 4..];
      }
      result := result + {file};
    }
    assert lines[|lines|..] == [];
  }

  // What git reports -------------------------------------------------------------------------------

  /** One changed file: its state in the index and in the work tree, and where it was moved from. */
  datatype Change = Change(x: char, y: char, origin: Option<string>, path: string)

  /** A path that git prints as it is: one with a blank, a quote, a backslash, a control character or a
      character outside ASCII would stand in quotes. */
  predicate Plain(path: string) {
    path != "" && forall c :: c in path ==> '!' <= c <= '~' && c != '"' && c != '\\'
  }

  predicate Reportable(c: Change) {
    && Plain(c.path) && (c.origin.Some? ==> Plain(c.origin.value))
    && (c.x == ' ' || '!' <= c.x <= '~') && (c.y == ' ' || '!' <= c.y <= '~') && (c.x != ' ' || c.y != ' ')
  }

  function Body(c: Change): string {
    if c.origin.Some? then c.origin.value + " -> " + c.path else c.path
  }

  function LineOf(c: Change): string { [c.x, c.y, ' '] + Body(c) }

  function Report(changes: seq<Change>): string {
    if changes == [] then "" else LineOf(changes[0]) + "\n" + Report(changes[1..])
  }

  ghost function Changed(changes: seq<Change>): set<string> { set c | c in changes :: c.path }

  /** The line loses its first character to the trimming of the whole report. */
  function Shifted(c: Change): string
    requires Reportable(c)
  {
    LineOf(c)[1..]
  }

  lemma PlainHasNoSpace(path: string)
    requires Plain(path)
    ensures forall c :: c in path ==> !IsSpace(c)
    ensures TrimSpace(path) == path
  {
    assert path[0] in path && path[|path| - 1] in path;
  }

  lemma ArrowHasSpaces(s: string, i: nat)
    requires OccursAt(s, " -> ", i)
    ensures i + 4 <= |s| && s[i] == ' ' && s[i + 3] == ' '
  {
    assert s[i..i + 4][0] == s[i] && s[i..i + 4][3] == s[i + 3];
  }

  lemma NoArrow(s: string)
    requires ' ' !in s
    ensures Find(s, " -> ", 0).None?
  {
    forall i: nat
      ensures !OccursAt(s, " -> ", i)
    {
      if OccursAt(s, " -> ", i) {
        ArrowHasSpaces(s, i);
      }
    }
  }

  lemma FirstArrow(left: string, right: string)
    requires ' ' !in left
    ensures Find(left + " -> " + right, " -> ", 0) == Some(|left|)
  {
    var s := left + " -> " + right;
    assert OccursAt(s, " -> ", |left|);
    forall i: nat | i < |left|
      ensures !OccursAt(s, " -> ", i)
    {
      assert s[i] == left[i] && left[i] in left;
      if OccursAt(s, " -> ", i) {
        ArrowHasSpaces(s, i);
      }
    }
  }

  lemma ArrowAtStart(path: string)
    requires Plain(path)
    ensures Find("-> " + path, " -> ", 0).None?
  {
    var s := "-> " + path;
    forall i: nat
      ensures !OccursAt(s, " -> ", i)
    {
      assert i + 4 <= |s| ==> s[i + 3] == path[i] && path[i] in path;
      if OccursAt(s, " -> ", i) {
        ArrowHasSpaces(s, i);
      }
    }
  }

  lemma MoveNames(left: string, path: string)
    requires left != "" && Plain(path) && forall c :: c in left ==> !IsSpace(c)
    ensures
      var body := left + " -> " + path;
      && TrimSpace(body) == body
      && Find(body, " -> ", 0) == Some(|left|)
      && body[|left| + 4..] == path
  {
    var body := left + " -> " + path;
    PlainHasNoSpace(path);
    assert body[0] == left[0] && left[0] in left;
    assert body[|body| - 1] == path[|path| - 1] && path[|path| - 1] in path;
    FirstArrow(left, path);
  }

  lemma WholeLine(c: Change)
    requires Reportable(c)
    ensures FileOf(LineOf(c)) == Some(c.path)
  {
    assert LineOf(c)[3..] == Body(c);
    PlainHasNoSpace(c.path);
    if c.origin.Some? {
      PlainHasNoSpace(c.origin.value);
      MoveNames(c.origin.value, c.path);
    } else {
      NoArrow(c.path);
    }
  }

  /** A shifted line names a longer or shorter path than the right one, except for a move whose
      origin has more than one character. */
  lemma ShiftedLine(c: Change)
    requires Reportable(c)
    ensures FileOf(Shifted(c)) == Some(c.path) <==> c.origin.Some? && |c.origin.value| > 1
    ensures c.origin.None? ==> FileOf(Shifted(c)) in {None, Some(c.path[1..])}
    ensures c.origin.Some? && |c.origin.value| == 1 ==> FileOf(Shifted(c)) == Some("-> " + c.path)
  {
    var s := Shifted(c);
    assert s[2..] == Body(c) && s[3..] == Body(c)[1..];
    PlainHasNoSpace(c.path);
    hide TrimSpace, Find, IsSpace, LineOf;
    if c.origin.Some? {
      ShiftedMove(c.origin.value, c.path);
    } else if |c.path| > 1 {
      var rest := c.path[1..];
      assert forall d :: d in rest ==> d in c.path;
      PlainHasNoSpace(rest);
      NoArrow(rest);
    }
  }

  lemma ShiftedMove(origin: string, path: string)
    requires Plain(origin) && Plain(path)
    ensures
      var body := (origin + " -> " + path)[1..];
      if |origin| > 1 then
        TrimSpace(body) == body && Find(body, " -> ", 0) == Some(|origin| - 1) && body[|origin| + 3..] == path
      else TrimSpace(body) == "-> " + path && Find("-> " + path, " -> ", 0).None?
  {
    var body := (origin + " -> " + path)[1..];
    if |origin| > 1 {
      var left := origin[1..];
      PlainHasNoSpace(origin);
      assert forall d :: d in left ==> d in origin;
      assert body == left + " -> " + path;
      MoveNames(left, path);
    } else {
      assert body == " " + ("-> " + path);
      ArrowLeft(path);
    }
  }

  lemma ArrowLeft(path: string)
    requires Plain(path)
    ensures TrimSpace(" " + ("-> " + path)) == "-> " + path && Find("-> " + path, " -> ", 0).None?
  {
    var rest := "-> " + path;
    assert (" " + rest)[1..] == rest;
    PlainHasNoSpace(path);
    assert path[|path| - 1] in path;
    assert TrimLeft(" " + rest) == rest;
    ArrowAtStart(path);
  }

  // The whole report ---------------------------------------------------------------------------------

  lemma {:induction false} LinesSplit(line: string, rest: string)
    requires '\n' !in line
    ensures Lines(line) == [line]
    ensures Lines(line + "\n" + rest) == [line] + Lines(rest)
  {
    var s := line + "\n" + rest;
    assert Lines("") == [""];
    if line == "" {
      assert s[1..] == rest;
    } else {
      assert s[0] == line[0] && s[1..] == line[1..] + "\n" + rest;
      assert line[0] in line && '\n' !in line[1..];
      LinesSplit(line[1..], rest);
      assert [line[0]] + line[1..] == line;
    }
  }

  lemma LineIsOneLine(c: Change)
    requires Reportable(c)
    ensures '\n' !in LineOf(c) && |LineOf(c)| >= 4
    ensures !IsSpace(LineOf(c)[|LineOf(c)| - 1])
  {
    PlainHasNoSpace(c.path);
    if c.origin.Some? {
      PlainHasNoSpace(c.origin.value);
    }
    assert c.path[|c.path| - 1] in c.path;
  }

  /** The report without its last line end. */
  function Trimmed(changes: seq<Change>): string
    requires changes != []
  {
    if |changes| == 1 then LineOf(changes[0]) else LineOf(changes[0]) + "\n" + Trimmed(changes[1..])
  }

  ghost predicate AllReportable(changes: seq<Change>) {
    forall c :: c in changes ==> Reportable(c)
  }

  lemma {:induction false} ReportIsTrimmed(changes: seq<Change>)
    requires changes != [] && AllReportable(changes)
    ensures Report(changes) == Trimmed(changes) + "\n"
    decreases |changes|
  {
    var line, rest := LineOf(changes[0]), changes[1..];
    hide LineOf, Reportable;
    if |changes| == 1 {
      assert Report(rest) == "";
    } else {
      ReportIsTrimmed(rest);
      Assoc(line + "\n", Trimmed(rest), "\n");
    }
  }

  lemma {:induction false} TrimmedEnds(changes: seq<Change>)
    requires changes != [] && AllReportable(changes)
    ensures |Trimmed(changes)| >= 4 && LineOf(changes[0]) <= Trimmed(changes)
    ensures !IsSpace(Trimmed(changes)[|Trimmed(changes)| - 1])
    decreases |changes|
  {
    assert changes[0] in changes;
    LineIsOneLine(changes[0]);
    hide LineOf, Reportable, IsSpace;
    if |changes| > 1 {
      TrimmedEnds(changes[1..]);
    }
  }

  lemma {:induction false} TrimmedLines(changes: seq<Change>)
    requires changes != [] && AllReportable(changes)
    ensures |Lines(Trimmed(changes))| == |changes|
    ensures forall i :: 0 <= i < |changes| ==> Lines(Trimmed(changes))[i] == LineOf(changes[i])
    decreases |changes|
  {
    var line, rest := LineOf(changes[0]), changes[1..];
    assert changes[0] in changes;
    LineIsOneLine(changes[0]);
    hide LineOf, Reportable, IsSpace, Lines;
    if |changes| == 1 {
      LinesSplit(line, "");
    } else {
      TrimmedLines(rest);
      LinesSplit(line, Trimmed(rest));
    }
  }

  lemma {:induction false} AllLinesNamed(changes: seq<Change>, lines: seq<string>)
    requires AllReportable(changes) && |lines| == |changes|
    requires forall i :: 0 <= i < |changes| ==> lines[i] == LineOf(changes[i])
    ensures FilesOf(lines) == Changed(changes)
    decreases |changes|
  {
    if changes != [] {
      assert changes[0] in changes;
      WholeLine(changes[0]);
      AllLinesNamed(changes[1..], lines[1..]);
      assert forall c :: c in changes <==> c == changes[0] || c in changes[1..];
    }
  }

  lemma ReportTrims(changes: seq<Change>)
    requires changes != [] && AllReportable(changes)
    ensures TrimSpace(Report(changes)) == if changes[0].x == ' ' then Trimmed(changes)[1..] else Trimmed(changes)
  {
    hide Trimmed, Report, TrimRight;
    var s := Trimmed(changes);
    ReportIsTrimmed(changes);
    TrimmedEnds(changes);
    assert changes[0] in changes && Reportable(changes[0]);
    assert s[0] == LineOf(changes[0])[0] && s[1] == LineOf(changes[0])[1];
    assert s[..|s|] == s && s[1..][|s| - 2] == s[|s| - 1];
    if changes[0].x == ' ' {
      assert Report(changes)[1..] == s[1..] + "\n";
      assert TrimLeft(Report(changes)) == TrimLeft(s[1..] + "\n");
      TrimEnd(s[1..]);
    } else {
      TrimEnd(s);
    }
  }

  /** What the parser makes of a report: trimming it takes the first line's blank index state away. */
  lemma {:induction false} ParsedLines(changes: seq<Change>)
    requires changes != [] && AllReportable(changes)
    ensures FilesOf(Lines(TrimSpace(Report(changes)))) ==
            (match FileOf(if changes[0].x == ' ' then Shifted(changes[0]) else LineOf(changes[0]))
             case Some(f) => {f} case None => {})
            + Changed(changes[1..])
  {
    var s := Trimmed(changes);
    ReportTrims(changes);
    TrimmedEnds(changes);
    TrimmedLines(changes);
    AllLinesNamed(changes[1..], Lines(s)[1..]);
    assert changes[0] in changes && Reportable(changes[0]);
    assert s[0] == LineOf(changes[0])[0] != '\n';
    hide *;
    if changes[0].x == ' ' {
      FirstCharacterLost(s);
    }
    OneLineMore(Lines(TrimSpace(Report(changes))));
  }

  lemma FirstCharacterLost(s: string)
    requires s != "" && s[0] != '\n'
    ensures Lines(s)[0] != "" && Lines(s[1..]) == [Lines(s)[0][1..]] + Lines(s)[1..]
  {
    assert Lines(s[1..]) == [Lines(s[1..])[0]] + Lines(s[1..])[1..];
  }

  lemma OneLineMore(lines: seq<string>)
    requires lines != []
    ensures FilesOf(lines) == (match FileOf(lines[0]) case Some(f) => {f} case None => {}) + FilesOf(lines[1..])
  {}

  lemma TrimEnd(s: string)
    requires s != "" && !IsSpace(s[0]) && !IsSpace(s[|s| - 1])
    ensures TrimSpace(s + "\n") == s
  {
    var t := s + "\n";
    assert t[0] == s[0] && t[|t| - 1] == '\n' && t[..|t| - 1] == s;
    assert TrimLeft(t) == t;
    assert TrimRight(t) == TrimRight(s);
  }

  predicate FirstIsRead(changes: seq<Change>) {
    || changes == []
    || changes[0].x != ' '
    || (changes[0].origin.Some? && |changes[0].origin.value| > 1)
  }

  /** The observer sees exactly the changed files if and only if the first line of the report does not
      begin with a blank, or is a move from a path of more than one character. */
  lemma {:induction false} SeenIff(changes: seq<Change>)
    requires AllReportable(changes)
    requires forall i, j :: 0 <= i < j < |changes| ==> changes[i].path != changes[j].path
    ensures FilesOf(Lines(TrimSpace(Report(changes)))) == Changed(changes) <==> FirstIsRead(changes)
  {
    hide *;
    if changes == [] {
      EmptyReport();
    } else {
      var first, rest := changes[0], changes[1..];
      FirstReportable(changes);
      ParsedLines(changes);
      WholeLine(first);
      ShiftedLine(first);
      FirstOfChanged(changes);
      var named := FileOf(if first.x == ' ' then Shifted(first) else LineOf(first));
      assert named == Some(first.path) <==> FirstIsRead(changes) by { FirstIsReadIff(changes); }
    }
  }

  lemma EmptyReport()
    ensures FilesOf(Lines(TrimSpace(Report([])))) == Changed([]) && FirstIsRead([])
  {
    assert Lines(TrimSpace("")) == [""];
  }

  lemma FirstReportable(changes: seq<Change>)
    requires changes != [] && AllReportable(changes)
    ensures Reportable(changes[0])
  {}

  lemma FirstIsReadIff(changes: seq<Change>)
    requires changes != []
    ensures FirstIsRead(changes) <==>
      changes[0].x != ' ' || (changes[0].origin.Some? && |changes[0].origin.value| > 1)
  {}

  lemma FirstOfChanged(changes: seq<Change>)
    requires changes != [] && forall i, j :: 0 <= i < j < |changes| ==> changes[i].path != changes[j].path
    ensures changes[0].path !in Changed(changes[1..])
    ensures Changed(changes) == {changes[0].path} + Changed(changes[1..])
  {
    assert forall c :: c in changes <==> c == changes[0] || c in changes[1..];
  }

}
