/** The import scanner (scan_imports.py): the top-level packages a Python
    file imports, read from its syntax tree or, when it does not parse, by
    matching each line against two patterns; a walk over a project that
    skips tool and environment directories; and the split of the names
    found into standard-library and third-party lists. The parser, the
    file reads and the directory listing are inputs. */
module ScanImports {
  import opened Wrappers
  import opened Strings
  import Paths
  import Sorting

  // ----- the syntax-tree reading -----

  /** An import statement as the Python parser reports it: `import a.b, c`
      lists its names; `from m import x` has its module name, and a relative
      `from . import x` has none. */
  datatype ImportNode = Import(names: seq<string>) | ImportFrom(fromName: Option<string>)

  /** The top-level package of a dotted module name. */
  function TopLevel(name: string): (r: string)
    ensures '.' !in r && StartsWith(name, r)
    ensures '.' !in name ==> r == name
  {
    CutAt(name, '.')
  }

  /** What one statement contributes. */
  function NodeImports(node: ImportNode): set<string> {
    if node.Import? then set a | a in node.names :: TopLevel(a)
    else if node.fromName.Some? then {TopLevel(node.fromName.value)}
    else {}
  }

  /** The packages named by the statements of a syntax tree. */
  function AstImports(nodes: seq<ImportNode>): set<string> {
    if nodes == [] then {} else NodeImports(nodes[0]) + AstImports(nodes[1..])
  }

  /** Every name found is the text before the first '.' of a module some
      statement imports. */
  lemma {:induction false} AstNamesAreTopLevel(nodes: seq<ImportNode>, x: string)
    requires x in AstImports(nodes)
    ensures '.' !in x
    ensures exists k, m :: 0 <= k < |nodes| && m in ImportedModules(nodes[k]) && x == TopLevel(m)
  {
    if x in NodeImports(nodes[0]) {
      var m :| m in ImportedModules(nodes[0]) && x == TopLevel(m);
    } else {
      AstNamesAreTopLevel(nodes[1..], x);
      var k, m :| 0 <= k < |nodes[1..]| && m in ImportedModules(nodes[1..][k]) && x == TopLevel(m);
      assert nodes[k + 1] == nodes[1..][k];
    }
  }

  lemma AstNamesUndotted(nodes: seq<ImportNode>)
    ensures forall x :: x in AstImports(nodes) ==> '.' !in x
  {
    forall x | x in AstImports(nodes) ensures '.' !in x {
      AstNamesAreTopLevel(nodes, x);
    }
  }

  /** The dotted module names a statement mentions. */
  function ImportedModules(node: ImportNode): set<string> {
    if node.Import? then set a | a in node.names
    else if node.fromName.Some? then {node.fromName.value}
    else {}
  }

  /** Every statement with a module is counted; a relative import without
      one adds nothing. */
  lemma {:induction false} AstFindsEveryModule(nodes: seq<ImportNode>, k: nat, m: string)
    requires k < |nodes| && m in ImportedModules(nodes[k])
    ensures TopLevel(m) in AstImports(nodes)
  {
    if k > 0 {
      AstFindsEveryModule(nodes[1..], k - 1, m);
    }
  }

  lemma {:induction false} BareRelativeAddsNothing(nodes: seq<ImportNode>)
    ensures AstImports(nodes + [ImportFrom(None)]) == AstImports(nodes)
  {
    if nodes != [] {
      assert (nodes + [ImportFrom(None)])[1..] == nodes[1..] + [ImportFrom(None)];
      BareRelativeAddsNothing(nodes[1..]);
    }
  }

  // ----- the line patterns -----

  predicate IsIdentStart(c: char) { 'a' <= c <= 'z' || 'A' <= c <= 'Z' || c == '_' }
  predicate IsIdentChar(c: char) { IsIdentStart(c) || '0' <= c <= '9' }

  /** `[a-zA-Z_][a-zA-Z0-9_]*` matches all of s. */
  predicate IsIdent(s: string) {
    s != [] && IsIdentStart(s[0]) && forall i :: 0 <= i < |s| ==> IsIdentChar(s[i])
  }

  predicate AllSpace(s: string) { forall i :: 0 <= i < |s| ==> IsSpace(s[i]) }

  /** The longest run of identifier characters at the front. */
  function IdentRun(s: string): (r: string)
    ensures StartsWith(s, r) && (forall i :: 0 <= i < |r| ==> IsIdentChar(r[i]))
    ensures |r| < |s| ==> !IsIdentChar(s[|r|])
  {
    if s != [] && IsIdentChar(s[0]) then [s[0]] + IdentRun(s[1..]) else []
  }

  lemma {:induction false} IdentRunOf(x: string, tail: string)
    requires forall i :: 0 <= i < |x| ==> IsIdentChar(x[i])
    requires tail == [] || !IsIdentChar(tail[0])
    ensures IdentRun(x + tail) == x
  {
    if x != [] {
      assert (x + tail)[1..] == x[1..] + tail;
      IdentRunOf(x[1..], tail);
    }
  }

  lemma {:induction false} SkipSpaceOf(ws: string, rest: string)
    requires AllSpace(ws) && (rest == [] || !IsSpace(rest[0]))
    ensures LStripBy(ws + rest, IsSpace) == rest
  {
    if ws != [] {
      assert (ws + rest)[1..] == ws[1..] + rest;
      SkipSpaceOf(ws[1..], rest);
    }
  }

  /** `\s+` then an identifier at the front of s: the identifier and what
      follows it. */
  function SpacedIdent(s: string): Option<(string, string)> {
    var after := LStripBy(s, IsSpace);
    if |after| == |s| || after == [] || !IsIdentStart(after[0]) then None
    else
      var id := IdentRun(after);
      Some((id, after[|id|..]))
  }

  /** re.match(r'^import\s+([a-zA-Z_][a-zA-Z0-9_]*)', line): the first
      name after `import` and at least one blank. */
  function MatchImport(line: string): Option<string> {
    if !StartsWith(line, "import") then None
    else
      var m := SpacedIdent(line[6..]);
      if m.None? then None else Some(m.value.0)
  }

  /** re.match(r'^from\s+([a-zA-Z_][a-zA-Z0-9_]*)\s+import', line): a
      name that blanks and then `import` follow. */
  function MatchFrom(line: string): Option<string> {
    if !StartsWith(line, "from") then None
    else
      var m := SpacedIdent(line[4..]);
      if m.None? then None
      else
        var rest := m.value.1;
        var after := LStripBy(rest, IsSpace);
        if |after| < |rest| && StartsWith(after, "import") then Some(m.value.0) else None
  }

  /** Blanks, an identifier, then something that does not continue it:
      SpacedIdent splits off the identifier. */
  lemma SpacedIdentOf(ws: string, name: string, tail: string)
    requires ws != [] && AllSpace(ws) && IsIdent(name) && (tail == [] || !IsIdentChar(tail[0]))
    ensures SpacedIdent(ws + (name + tail)) == Some((name, tail))
  {
    assert !IsSpace(name[0]);
    SkipSpaceOf(ws, name + tail);
    IdentRunOf(name, tail);
    assert (name + tail)[|name|..] == tail;
  }

  /** The import pattern finds exactly the name in `import <blanks><name>`
      followed by anything that does not continue the name. */
  lemma MatchImportFinds(ws: string, name: string, tail: string)
    requires ws != [] && AllSpace(ws) && IsIdent(name) && (tail == [] || !IsIdentChar(tail[0]))
    ensures MatchImport("import" + ws + name + tail) == Some(name)
  {
    var rest := ws + (name + tail);
    assert "import" + ws + name + tail == "import" + rest;
    DropPrefix("import", rest);
    SpacedIdentOf(ws, name, tail);
  }

  lemma DropPrefix(p: string, x: string)
    ensures StartsWith(p + x, p) && (p + x)[|p|..] == x
  {
  }

  /** What SpacedIdent accepts: blanks, an identifier, then something that
      does not continue it. */
  lemma SpacedIdentSplits(s: string)
    requires SpacedIdent(s).Some?
    ensures var m := SpacedIdent(s).value;
      var ws := s[..|s| - |LStripBy(s, IsSpace)|];
      ws != [] && AllSpace(ws) && IsIdent(m.0) && s == ws + (m.0 + m.1)
      && (m.1 == [] || !IsIdentChar(m.1[0]))
  {
    var after := LStripBy(s, IsSpace);
    var ws := s[..|s| - |after|];
    LeadingSpace(s);
    NameSplit(after);
    assert SpacedIdent(s).value == (IdentRun(after), after[|IdentRun(after)|..]);
  }

  /** The blanks LStripBy drops, followed by what it keeps, make up `s`. */
  lemma LeadingSpace(s: string)
    ensures var after := LStripBy(s, IsSpace); var ws := s[..|s| - |after|];
      AllSpace(ws) && s == ws + after
  {
    var after := LStripBy(s, IsSpace);
    var ws := s[..|s| - |after|];
    forall i | 0 <= i < |ws| ensures IsSpace(ws[i]) {
      assert ws[i] == s[i];
    }
    SplitAt(s, |s| - |after|);
  }

  /** An identifier start begins an identifier run that something not
      continuing it follows. */
  lemma NameSplit(after: string)
    requires after != [] && IsIdentStart(after[0])
    ensures var name := IdentRun(after); var rest := after[|name|..];
      IsIdent(name) && after == name + rest && (rest == [] || !IsIdentChar(rest[0]))
  {
    var name := IdentRun(after);
    assert name != [] && name[0] == after[0];
    SplitAt(after, |name|);
  }

  lemma SplitAt(s: string, k: nat)
    requires k <= |s|
    ensures s == s[..k] + s[k..]
  {
  }

  /** `line` is `import`, blanks, `name`, and something that does not
      continue the name. */
  predicate ImportShape(line: string, ws: string, name: string, tail: string) {
    ws != [] && AllSpace(ws) && line == "import" + (ws + (name + tail)) && (tail == [] || !IsIdentChar(tail[0]))
  }

  /** Conversely, whatever the import pattern finds is an identifier that
      stands in that position. */
  lemma MatchImportSound(line: string)
    requires MatchImport(line).Some?
    ensures var name := MatchImport(line).value;
      IsIdent(name) && exists ws, tail :: ImportShape(line, ws, name, tail)
  {
    var s := MatchImportRest(line);
    SpacedIdentSplits(s);
    var m := SpacedIdent(s).value;
    var ws := s[..|s| - |LStripBy(s, IsSpace)|];
    ShapeOf(line, s, ws, m.0, m.1);
  }

  /** A line the import pattern matches is `import` and the text it scans. */
  lemma MatchImportRest(line: string) returns (s: string)
    requires MatchImport(line).Some?
    ensures line == "import" + s && SpacedIdent(s).Some? && MatchImport(line).value == SpacedIdent(s).value.0
  {
    s := line[6..];
    PrefixSplit("import", line);
  }

  lemma PrefixSplit(p: string, line: string)
    requires StartsWith(line, p)
    ensures line == p + line[|p|..]
  {
  }

  lemma ShapeOf(line: string, s: string, ws: string, name: string, tail: string)
    requires line == "import" + s && s == ws + (name + tail)
    requires ws != [] && AllSpace(ws) && (tail == [] || !IsIdentChar(tail[0]))
    ensures ImportShape(line, ws, name, tail)
  {
  }

  /** The from-pattern finds the name in `from <blanks><name><blanks>import`,
      whatever follows. */
  lemma MatchFromFinds(ws: string, name: string, ws2: string, rest: string)
    requires ws != [] && AllSpace(ws) && IsIdent(name) && ws2 != [] && AllSpace(ws2)
    ensures MatchFrom("from" + ws + name + ws2 + "import" + rest) == Some(name)
  {
    var tail := ws2 + ("import" + rest);
    Regroup("from", ws, name, ws2, "import", rest);
    assert tail[0] == ws2[0];
    SpacedIdentOf(ws, name, tail);
    SkipSpaceOf(ws2, "import" + rest);
    DropPrefix("import", rest);
    MatchFromOf(ws + (name + tail), name, tail);
  }

  /** `line` is `from`, blanks, `name`, blanks, `import`, and anything. */
  predicate FromShape(line: string, ws: string, name: string, ws2: string, rest: string) {
    && ws != [] && AllSpace(ws) && ws2 != [] && AllSpace(ws2)
    && line == "from" + (ws + (name + (ws2 + ("import" + rest))))
  }

  /** Conversely, whatever the from-pattern finds is an identifier that
      stands in that position. */
  lemma MatchFromSound(line: string)
    requires MatchFrom(line).Some?
    ensures var name := MatchFrom(line).value;
      IsIdent(name) && exists ws, ws2, rest :: FromShape(line, ws, name, ws2, rest)
  {
    var s, tail := MatchFromRest(line);
    SpacedIdentSplits(s);
    var ws := s[..|s| - |LStripBy(s, IsSpace)|];
    var ws2, rest := BlanksThenImport(tail);
    FromShapeOf(line, s, ws, SpacedIdent(s).value.0, tail, ws2, rest);
  }

  /** A line the from-pattern matches is `from`, the text SpacedIdent
      splits, and a tail that blanks and `import` begin. */
  lemma MatchFromRest(line: string) returns (s: string, tail: string)
    requires MatchFrom(line).Some?
    ensures line == "from" + s && SpacedIdent(s).Some? && MatchFrom(line).value == SpacedIdent(s).value.0
    ensures tail == SpacedIdent(s).value.1
    ensures |LStripBy(tail, IsSpace)| < |tail| && StartsWith(LStripBy(tail, IsSpace), "import")
  {
    s := line[4..];
    PrefixSplit("from", line);
    tail := SpacedIdent(s).value.1;
  }

  lemma BlanksThenImport(tail: string) returns (ws2: string, rest: string)
    requires |LStripBy(tail, IsSpace)| < |tail| && StartsWith(LStripBy(tail, IsSpace), "import")
    ensures ws2 != [] && AllSpace(ws2) && tail == ws2 + ("import" + rest)
  {
    var after := LStripBy(tail, IsSpace);
    LeadingSpace(tail);
    ws2 := tail[..|tail| - |after|];
    PrefixSplit("import", after);
    rest := after[6..];
  }

  lemma FromShapeOf(line: string, s: string, ws: string, name: string, tail: string, ws2: string, rest: string)
    requires line == "from" + s && s == ws + (name + tail) && tail == ws2 + ("import" + rest)
    requires ws != [] && AllSpace(ws) && ws2 != [] && AllSpace(ws2)
    ensures FromShape(line, ws, name, ws2, rest)
  {
  }

  lemma Regroup(a: string, b: string, c: string, d: string, e: string, f: string)
    ensures a + b + c + d + e + f == a + (b + (c + (d + (e + f))))
  {
  }

  lemma MatchFromOf(x: string, name: string, tail: string)
    requires SpacedIdent(x) == Some((name, tail))
    requires |LStripBy(tail, IsSpace)| < |tail| && StartsWith(LStripBy(tail, IsSpace), "import")
    ensures MatchFrom("from" + x) == Some(name)
  {
    DropPrefix("from", x);
  }

  /** `from a.b import c` escapes the line pattern: a '.' right after the
      first name is neither a blank nor part of the name. */
  lemma RegexMissesDottedFrom(ws: string, a: string, rest: string)
    requires ws != [] && AllSpace(ws) && IsIdent(a)
    ensures MatchFrom("from" + ws + a + "." + rest) == None
  {
    var line := "from" + ws + a + "." + rest;
    assert line[4..] == ws + (a + ("." + rest));
    SpacedIdentOf(ws, a, "." + rest);
    SkipSpaceOf([], "." + rest);
  }

  /** ... while the syntax tree gives its top-level package. */
  lemma AstKeepsDottedFrom(a: string, b: string)
    requires '.' !in a
    ensures AstImports([ImportFrom(Some(a + "." + b))]) == {a}
  {
    assert a + "." + b == a + ['.'] + b;
    CutAtFirst(a, '.', b);
  }

  /** What one line contributes once stripped. */
  function LineImports(line: string): set<string> {
    var stripped := Strip(line);
    Found(MatchImport(stripped)) + Found(MatchFrom(stripped))
  }

  /** The name a pattern found, if any. */
  function Found(m: Option<string>): set<string> {
    if m.Some? then {m.value} else {}
  }

  lemma FoundIdent(m: Option<string>)
    requires m.Some? ==> IsIdent(m.value)
    ensures forall x :: x in Found(m) ==> IsIdent(x)
  {
  }

  /** The fallback over all lines of a file. */
  function RegexImports(lines: seq<string>): (r: set<string>)
    ensures forall x :: x in r ==> IsIdent(x)
  {
    if lines == [] then {}
    else
      LineImportsIdent(lines[0]);
      LineImports(lines[0]) + RegexImports(lines[1..])
  }

  lemma LineImportsIdent(line: string)
    ensures forall x :: x in LineImports(line) ==> IsIdent(x)
  {
    var stripped := Strip(line);
    MatchSound(stripped);
    FoundIdent(MatchImport(stripped));
    FoundIdent(MatchFrom(stripped));
  }

  lemma MatchSound(line: string)
    ensures MatchImport(line).Some? ==> IsIdent(MatchImport(line).value)
    ensures MatchFrom(line).Some? ==> IsIdent(MatchFrom(line).value)
  {
    if MatchImport(line).Some? {
      MatchImportSound(line);
    }
    if MatchFrom(line).Some? {
      MatchFromSound(line);
    }
  }

  // ----- one file -----

  /** A file as the scanner finds it: unreadable, or its text with the
      parser's answer (None when the text does not parse). */
  datatype Source = Unreadable | Readable(content: string, parsed: Option<seq<ImportNode>>)

  /** extract_imports_from_file: the syntax tree when there is one, the
      line patterns when the text does not parse, nothing when the file
      cannot be read. */
  function ExtractImports(src: Source): (r: set<string>)
    ensures src.Readable? && src.parsed.None? ==> forall x :: x in r ==> IsIdent(x)
    ensures src.Readable? && src.parsed.Some? ==> forall x :: x in r ==> '.' !in x
  {
    if src.Unreadable? then {}
    else if src.parsed.Some? then
      AstNamesUndotted(src.parsed.value);
      AstImports(src.parsed.value)
    else RegexImports(Split(src.content, '\n'))
  }

  // ----- the walk -----

  /** A directory entry: a file with its name and contents, or a folder. */
  datatype Tree = File(name: string, source: Source) | Folder(name: string, entries: seq<Tree>)

  /** The folders os.walk is told not to enter. */
  const SkippedDirs: set<string> := {"__pycache__", ".git", "venv", "env", ".env"}

  /** All the packages found, and per Python file those it imports (files
      that import nothing are left out). */
  datatype Scan = Scan(all: set<string>, files: map<string, set<string>>)

  const NoScan := Scan({}, map[])

  function Merge(a: Scan, b: Scan): Scan {
    Scan(a.all + b.all, a.files + b.files)
  }

  lemma MergeNoScan(s: Scan)
    ensures Merge(NoScan, s) == s
  {
    assert NoScan.files + s.files == s.files;
  }

  /** scan_project_imports for the entries of the folder at `root`. */
  function ScanEntries(root: string, entries: seq<Tree>): Scan
    decreases entries
  {
    if entries == [] then NoScan
    else Merge(ScanEntry(root, entries[0]), ScanEntries(root, entries[1..]))
  }

  function ScanEntry(root: string, e: Tree): Scan
    decreases e
  {
    if e.File? then
      var imports := ExtractImports(e.source);
      if EndsWith(e.name, ".py") && imports != {} then Scan(imports, map[Paths.Join(root, e.name) := imports])
      else NoScan
    else if e.name in SkippedDirs then NoScan
    else ScanEntries(Paths.Join(root, e.name), e.entries)
  }

  /** Every file recorded is a Python file with at least one import, and
      its imports are among all those found. */
  predicate WellRecorded(r: Scan) {
    forall p :: p in r.files ==> EndsWith(p, ".py") && r.files[p] != {} && r.files[p] <= r.all
  }

  lemma MergeWellRecorded(a: Scan, b: Scan)
    requires WellRecorded(a) && WellRecorded(b)
    ensures WellRecorded(Merge(a, b))
  {
  }

  lemma {:induction false} RecordedFiles(root: string, entries: seq<Tree>)
    ensures WellRecorded(ScanEntries(root, entries))
    decreases entries
  {
    if entries != [] {
      RecordedFile(root, entries[0]);
      RecordedFiles(root, entries[1..]);
      MergeWellRecorded(ScanEntry(root, entries[0]), ScanEntries(root, entries[1..]));
    } else {
      assert ScanEntries(root, entries) == NoScan;
    }
  }

  lemma {:induction false} RecordedFile(root: string, e: Tree)
    ensures WellRecorded(ScanEntry(root, e))
    decreases e
  {
    if e.File? {
      if EndsWith(e.name, ".py") {
        JoinKeepsSuffix(root, e.name, ".py");
      }
    } else if e.name !in SkippedDirs {
      assert ScanEntry(root, e) == ScanEntries(Paths.Join(root, e.name), e.entries);
      RecordedFiles(Paths.Join(root, e.name), e.entries);
    }
  }

  lemma JoinKeepsSuffix(root: string, name: string, suffix: string)
    requires EndsWith(name, suffix)
    ensures EndsWith(Paths.Join(root, name), suffix)
  {
    var j := Paths.Join(root, name);
    assert j[|j| - |name|..] == name;
    assert j[|j| - |suffix|..] == name[|name| - |suffix|..];
  }

  /** A skipped folder contributes nothing, wherever it is listed. */
  lemma {:induction false} SkippedFolderIgnored(root: string, before: seq<Tree>, d: string, inside: seq<Tree>, after: seq<Tree>)
    requires d in SkippedDirs
    ensures ScanEntries(root, before + [Folder(d, inside)] + after) == ScanEntries(root, before + after)
    decreases |before|
  {
    if before == [] {
      assert before + [Folder(d, inside)] + after == [Folder(d, inside)] + after;
      assert ([Folder(d, inside)] + after)[1..] == after;
      assert before + after == after;
      MergeNoScan(ScanEntries(root, after));
    } else {
      assert (before + [Folder(d, inside)] + after)[1..] == before[1..] + [Folder(d, inside)] + after;
      assert (before + after)[1..] == before[1..] + after;
      SkippedFolderIgnored(root, before[1..], d, inside, after);
    }
  }

  /** So does a file whose name does not end in ".py". */
  lemma {:induction false} OtherFileIgnored(root: string, before: seq<Tree>, name: string, src: Source, after: seq<Tree>)
    requires !EndsWith(name, ".py")
    ensures ScanEntries(root, before + [File(name, src)] + after) == ScanEntries(root, before + after)
    decreases |before|
  {
    if before == [] {
      assert before + [File(name, src)] + after == [File(name, src)] + after;
      assert ([File(name, src)] + after)[1..] == after;
      assert before + after == after;
      MergeNoScan(ScanEntries(root, after));
    } else {
      assert (before + [File(name, src)] + after)[1..] == before[1..] + [File(name, src)] + after;
      assert (before + after)[1..] == before[1..] + after;
      OtherFileIgnored(root, before[1..], name, src, after);
    }
  }

  /** A Python file directly in the folder is recorded under its joined
      path, with its imports among all those found. */
  lemma {:induction false} ListedFileFound(root: string, entries: seq<Tree>, k: nat)
    requires k < |entries| && entries[k].File? && EndsWith(entries[k].name, ".py")
    requires ExtractImports(entries[k].source) != {}
    ensures Paths.Join(root, entries[k].name) in ScanEntries(root, entries).files
    ensures ExtractImports(entries[k].source) <= ScanEntries(root, entries).all
  {
    var head := ScanEntry(root, entries[0]);
    var tail := ScanEntries(root, entries[1..]);
    var j := Paths.Join(root, entries[k].name);
    var imports := ExtractImports(entries[k].source);
    assert ScanEntries(root, entries) == Merge(head, tail);
    if k > 0 {
      assert entries[1..][k - 1] == entries[k];
      ListedFileFound(root, entries[1..], k - 1);
      MergeKeeps(tail, head, j, imports);
    } else {
      FileEntryFound(root, entries[0]);
      MergeKeeps(head, tail, j, imports);
    }
  }

  lemma MergeKeeps(a: Scan, b: Scan, j: string, imports: set<string>)
    requires j in a.files && imports <= a.all
    ensures j in Merge(a, b).files && j in Merge(b, a).files
    ensures imports <= Merge(a, b).all && imports <= Merge(b, a).all
  {
  }

  lemma FileEntryFound(root: string, e: Tree)
    requires e.File? && EndsWith(e.name, ".py") && ExtractImports(e.source) != {}
    ensures Paths.Join(root, e.name) in ScanEntry(root, e).files
    ensures ExtractImports(e.source) <= ScanEntry(root, e).all
  {
  }

  // ----- the split -----

  /** The names filter_standard_library treats as standard. */
  const StdlibModules: set<string> := {
    "os", "sys", "json", "time", "datetime", "random", "math", "collections",
    "itertools", "re", "urllib", "http", "socket", "threading", "multiprocessing",
    "subprocess", "pathlib", "shutil", "glob", "csv", "xml", "sqlite3",
    "logging", "argparse", "configparser", "ast", "inspect", "types",
    "functools", "operator", "copy", "pickle", "base64", "hashlib",
    "hmac", "secrets", "uuid", "decimal", "fractions", "statistics",
    "array", "struct", "codecs", "unicodedata", "stringprep", "textwrap",
    "io", "email", "mimetypes", "warnings", "contextlib", "abc"}

  /** The names of `names` whose membership in the standard list is
      `standard`, in their order. */
  function Filter(names: seq<string>, standard: bool): (r: seq<string>)
    ensures forall x :: x in r <==> x in names && (x in StdlibModules) == standard
  {
    if names == [] then []
    else
      var rest := Filter(names[1..], standard);
      if (names[0] in StdlibModules) == standard then [names[0]] + rest else rest
  }

  /** Strictly ascending, as sorted() leaves a set. */
  predicate Ascending(s: seq<string>) {
    forall i, j :: 0 <= i < j < |s| ==> LexLe(s[i], s[j]) && s[i] != s[j]
  }

  lemma {:induction false} FilterAscending(names: seq<string>, standard: bool)
    requires Ascending(names)
    ensures Ascending(Filter(names, standard))
  {
    if names != [] {
      var rest := Filter(names[1..], standard);
      AscendingTail(names);
      FilterAscending(names[1..], standard);
      HeadBelow(names, rest);
      if (names[0] in StdlibModules) == standard {
        ConsAscending(names[0], rest);
      }
    }
  }

  lemma AscendingTail(names: seq<string>)
    requires Ascending(names) && names != []
    ensures Ascending(names[1..])
  {
    forall i, j | 0 <= i < j < |names[1..]| ensures LexLe(names[1..][i], names[1..][j]) && names[1..][i] != names[1..][j] {
      assert names[1..][i] == names[i + 1] && names[1..][j] == names[j + 1];
    }
  }

  /** The first name comes strictly before everything taken from the rest. */
  lemma HeadBelow(names: seq<string>, rest: seq<string>)
    requires Ascending(names) && names != []
    requires forall x :: x in rest ==> x in names[1..]
    ensures forall j :: 0 <= j < |rest| ==> LexLe(names[0], rest[j]) && names[0] != rest[j]
  {
    forall j | 0 <= j < |rest| ensures LexLe(names[0], rest[j]) && names[0] != rest[j] {
      assert rest[j] in names[1..];
      var k :| 0 <= k < |names[1..]| && names[1..][k] == rest[j];
      assert names[k + 1] == rest[j];
    }
  }

  lemma ConsAscending(h: string, rest: seq<string>)
    requires Ascending(rest)
    requires forall j :: 0 <= j < |rest| ==> LexLe(h, rest[j]) && h != rest[j]
    ensures Ascending([h] + rest)
  {
    var s := [h] + rest;
    forall i, j | 0 <= i < j < |s| ensures LexLe(s[i], s[j]) && s[i] != s[j] {
      assert s[j] == rest[j - 1];
      if i > 0 {
        assert s[i] == rest[i - 1];
      }
    }
  }

  /** filter_standard_library: the names in ascending order, split into
      (third-party, standard). */
  function FilterStandardLibrary(imports: set<string>): (seq<string>, seq<string>) {
    var names := Sorting.SortedSet(imports);
    (Filter(names, false), Filter(names, true))
  }

  /** The split is a partition: each name lands in exactly one list, a
      name is standard exactly when the standard list names it, and both
      lists are in ascending order. */
  lemma FilterPartitions(imports: set<string>)
    ensures var (thirdParty, standard) := FilterStandardLibrary(imports);
      && (forall x :: x in standard <==> x in imports && x in StdlibModules)
      && (forall x :: x in thirdParty <==> x in imports && x !in StdlibModules)
      && Ascending(thirdParty) && Ascending(standard)
  {
    var names := Sorting.SortedSet(imports);
    FilterAscending(names, false);
    FilterAscending(names, true);
  }

  /** ... and nothing is lost or repeated. */
  lemma {:induction false} FilterCounts(names: seq<string>)
    ensures |Filter(names, false)| + |Filter(names, true)| == |names|
  {
    if names != [] {
      FilterCounts(names[1..]);
    }
  }
}
