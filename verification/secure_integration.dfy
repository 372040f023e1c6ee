/** The connector between the secure storage and the vault modules
    (vault_secure_integration.py): moving files out of the old working
    directory folders into the secure layout, renaming on a clash, a
    directory lookup memoised per storage and type, and a file-operation
    pool created on first use. The filesystem is the set of paths that
    exist; a source folder is a tree of entries; whether a move succeeds is
    a parameter. */
module SecureIntegration {
  import opened Wrappers
  import opened Strings
  import Paths
  import SecureStorage

  // ----- pathlib names -----

  /** PurePath.suffix of a plain name: from its last dot, when that dot is
      neither the first nor the last character. */
  function PathSuffix(name: string): string {
    var i := Paths.RFindChar(name, '.');
    if 0 < i < |name| - 1 then name[i..] else ""
  }

  /** PurePath.stem of a plain name: what comes before its suffix. */
  function PathStem(name: string): string {
    var i := Paths.RFindChar(name, '.');
    if 0 < i < |name| - 1 then name[..i] else name
  }

  lemma StemAndSuffix(name: string)
    ensures PathStem(name) + PathSuffix(name) == name
    ensures name != [] ==> PathStem(name) != [] && PathStem(name)[0] == name[0]
  {
  }
  const MigratedTag := "_migrated_"

  /** One step of _get_unique_filename: the current name's stem, the tag
      and the counter, then the current name's suffix. */
  function Renamed(name: string, n: nat): string {
    PathStem(name) + MigratedTag + NatToString(n) + PathSuffix(name)
  }

  /** The k-th name tried: each is built from the one before. */
  function Candidate(name: string, k: nat): string
    decreases k
  {
    if k == 0 then name else Renamed(Candidate(name, k - 1), k)
  }

  /** The tags the first k renamings add, in order. */
  function Tags(k: nat): string
    decreases k
  {
    if k == 0 then "" else Tags(k - 1) + MigratedTag + NatToString(k)
  }

  /** A name whose last dot is inside it splits there. */
  lemma DottedSplit(name: string, i: nat)
    requires 0 < i < |name| - 1 && name[i] == '.'
    requires forall k :: i < k < |name| ==> name[k] != '.'
    ensures PathStem(name) == name[..i] && PathSuffix(name) == name[i..]
  {
    Paths.RFindCharIs(name, '.', i);
  }

  /** A name with no dot past its first character has no suffix. */
  lemma PlainSplit(name: string)
    requires forall k :: 0 < k < |name| ==> name[k] != '.'
    ensures PathStem(name) == name && PathSuffix(name) == ""
  {
    Paths.RFindCharBefore(name, '.', 1);
  }

  lemma TagNoDot(n: nat)
    ensures forall k :: 0 <= k < |MigratedTag + NatToString(n)| ==> (MigratedTag + NatToString(n))[k] != '.'
  {
    var d := NatToString(n);
    forall j | 0 <= j < |d| ensures d[j] != '.' {
      assert IsDigit(d[j]);
    }
  }

  lemma RenamedDotted(name: string, n: nat)
    requires PathSuffix(name) != []
    ensures PathStem(Renamed(name, n)) == PathStem(name) + MigratedTag + NatToString(n)
    ensures PathSuffix(Renamed(name, n)) == PathSuffix(name)
  {
    var i := Paths.RFindChar(name, '.');
    var stem, suffix := name[..i], name[i..];
    var head := stem + MigratedTag + NatToString(n);
    var r := Renamed(name, n);
    var j := |head|;
    assert r == head + suffix;
    assert r[..j] == head && r[j..] == suffix;
    forall k | j < k < |r| ensures r[k] != '.' {
      assert r[k] == suffix[k - j] == name[i + (k - j)];
    }
    DottedSplit(r, j);
  }

  lemma RenamedPlain(name: string, n: nat)
    requires PathSuffix(name) == [] && name != [] && name[|name| - 1] != '.'
    ensures PathStem(Renamed(name, n)) == PathStem(name) + MigratedTag + NatToString(n)
    ensures PathSuffix(Renamed(name, n)) == PathSuffix(name)
  {
    var i := Paths.RFindChar(name, '.');
    assert i <= 0;
    var tag := MigratedTag + NatToString(n);
    var r := Renamed(name, n);
    assert PathStem(name) == name;
    assert r == name + tag;
    TagNoDot(n);
    forall k | 0 < k < |r| ensures r[k] != '.' {
      if k >= |name| {
        assert r[k] == tag[k - |name|];
      } else {
        assert r[k] == name[k];
      }
    }
    PlainSplit(r);
  }

  lemma RenamedEnd(name: string, n: nat)
    requires name != [] && name[|name| - 1] != '.'
    ensures Renamed(name, n) != [] && Renamed(name, n)[|Renamed(name, n)| - 1] != '.'
  {
    var d := NatToString(n);
    var r := Renamed(name, n);
    if PathSuffix(name) == [] {
      assert r[|r| - 1] == d[|d| - 1];
      assert IsDigit(d[|d| - 1]);
    } else {
      StemAndSuffix(name);
      assert r[|r| - 1] == PathSuffix(name)[|PathSuffix(name)| - 1] == name[|name| - 1];
    }
  }

  lemma RenamedParts(name: string, n: nat)
    requires name != [] && name[|name| - 1] != '.'
    ensures PathStem(Renamed(name, n)) == PathStem(name) + MigratedTag + NatToString(n)
    ensures PathSuffix(Renamed(name, n)) == PathSuffix(name)
    ensures Renamed(name, n) != [] && Renamed(name, n)[|Renamed(name, n)| - 1] != '.'
  {
    if PathSuffix(name) == [] {
      RenamedPlain(name, n);
    } else {
      RenamedDotted(name, n);
    }
    RenamedEnd(name, n);
  }

  predicate Accumulated(name: string, k: nat, c: string) {
    && c != [] && c[|c| - 1] != '.'
    && PathStem(c) == PathStem(name) + Tags(k)
    && PathSuffix(c) == PathSuffix(name)
  }

  lemma AccStep(name: string, k: nat, prev: string)
    requires k > 0 && Accumulated(name, k - 1, prev)
    ensures Accumulated(name, k, Renamed(prev, k))
  {
    var r := Renamed(prev, k);
    RenamedParts(prev, k);
    var a, b, m, d := PathStem(name), Tags(k - 1), MigratedTag, NatToString(k);
    assert PathStem(r) == (a + b) + m + d;
    assert Tags(k) == b + m + d;
    ConcatAssoc(a + b, m, d);
    ConcatAssoc(a, b, m + d);
    ConcatAssoc(b, m, d);
  }

  lemma {:induction false} CandidateAccumulates(name: string, k: nat)
    requires name != [] && name[|name| - 1] != '.'
    ensures Accumulated(name, k, Candidate(name, k))
    decreases k
  {
    if k > 0 {
      CandidateAccumulates(name, k - 1);
      AccStep(name, k, Candidate(name, k - 1));
    }
  }

  lemma CandidateIs(name: string, k: nat)
    requires name != [] && name[|name| - 1] != '.'
    ensures Candidate(name, k) == PathStem(name) + Tags(k) + PathSuffix(name)
  {
    CandidateAccumulates(name, k);
    StemAndSuffix(Candidate(name, k));
  }

  /** Each renaming lengthens the name and keeps its first character. */
  lemma RenamedLonger(name: string, n: nat)
    requires name != []
    ensures |Renamed(name, n)| > |name|
    ensures Renamed(name, n)[0] == name[0]
  {
    StemAndSuffix(name);
  }

  /** Joining a plain name onto a directory adds the same amount to every
      name. */
  lemma JoinLength(dir: string, a: string)
    requires a != [] && a[0] != '/'
    ensures |Paths.Join(dir, a)| == |a| + |Paths.Join(dir, "x")| - 1
  {
    Paths.NotRooted(a);
    Paths.NotRooted("x");
  }

  /** The paths on disk at least `len` long. */
  ghost function AtLeast(disk: set<string>, len: nat): set<string> {
    set p | p in disk && |p| >= len
  }

  lemma AtLeastShrinks(disk: set<string>, p: string, len: nat)
    requires p in disk && |p| < len
    ensures |AtLeast(disk, len)| < |AtLeast(disk, |p|)|
  {
    var big, small := AtLeast(disk, |p|), AtLeast(disk, len);
    assert small <= big - {p};
    assert |big - {p}| == |big| - 1;
    SubsetCard(small, big - {p});
  }

  lemma {:induction false} SubsetCard<T>(a: set<T>, b: set<T>)
    requires a <= b
    ensures |a| <= |b|
    decreases |b|
  {
    if b != {} {
      var x :| x in b;
      SubsetCard(a - {x}, b - {x});
    }
  }

  /** The first k candidates all exist. */
  ghost predicate Tried(disk: set<string>, dir: string, name: string, k: nat) {
    forall j :: 0 <= j < k ==> Paths.Join(dir, Candidate(name, j)) in disk
  }

  /** One more candidate tried. */
  lemma TriedNext(disk: set<string>, dir: string, name: string, k: nat)
    requires Tried(disk, dir, name, k) && Paths.Join(dir, Candidate(name, k)) in disk
    ensures Tried(disk, dir, name, k + 1)
  {
  }

  /** A renaming is longer, so fewer paths on disk are long enough to
      clash with it. */
  lemma RenamingShrinks(disk: set<string>, dir: string, cur: string, n: nat)
    requires cur != [] && cur[0] != '/' && Paths.Join(dir, cur) in disk
    ensures Renamed(cur, n) != [] && Renamed(cur, n)[0] == cur[0]
    ensures |AtLeast(disk, |Paths.Join(dir, Renamed(cur, n))|)| < |AtLeast(disk, |Paths.Join(dir, cur)|)|
  {
    var next := Renamed(cur, n);
    RenamedLonger(cur, n);
    JoinLength(dir, cur);
    JoinLength(dir, next);
    AtLeastShrinks(disk, Paths.Join(dir, cur), |Paths.Join(dir, next)|);
  }

  /** `path` is where _get_unique_filename stops for `name` in `dir`: the
      first candidate that does not exist. */
  ghost predicate FirstFree(disk: set<string>, dir: string, name: string, k: nat, path: string) {
    && path == Paths.Join(dir, Candidate(name, k))
    && path !in disk
    && Tried(disk, dir, name, k)
  }

  /** What the search knows before testing the k-th candidate `cur`. */
  ghost predicate Searching(disk: set<string>, dir: string, name: string, k: nat, cur: string) {
    && cur == Candidate(name, k) && cur != [] && cur[0] != '/'
    && Tried(disk, dir, name, k)
  }

  /** How many paths on disk are long enough to clash with `cur`. */
  ghost function Clashing(disk: set<string>, dir: string, cur: string): nat {
    |AtLeast(disk, |Paths.Join(dir, cur)|)|
  }

  /** A taken candidate moves the search on, with fewer paths left that
      could clash. */
  lemma SearchStep(disk: set<string>, dir: string, name: string, k: nat, cur: string)
    requires Searching(disk, dir, name, k, cur) && Paths.Join(dir, cur) in disk
    ensures Searching(disk, dir, name, k + 1, Renamed(cur, k + 1))
    ensures Clashing(disk, dir, Renamed(cur, k + 1)) < Clashing(disk, dir, cur)
  {
    RenamingShrinks(disk, dir, cur, k + 1);
    TriedNext(disk, dir, name, k);
  }

  /** _get_unique_filename: try the name, then rename it again and again
      until the path is free. */
  method UniqueFilename(disk: set<string>, dir: string, name: string) returns (path: string, k: nat)
    requires name != [] && '/' !in name
    ensures FirstFree(disk, dir, name, k, path)
  {
    var cur := name;
    k := 0;
    assert name[0] in name;
    while Paths.Join(dir, cur) in disk
      invariant Searching(disk, dir, name, k, cur)
      decreases Clashing(disk, dir, cur)
    {
      SearchStep(disk, dir, name, k, cur);
      cur, k := Renamed(cur, k + 1), k + 1;
    }
    path := Paths.Join(dir, cur);
  }

  /** The stopping point is determined: two runs over the same disk agree. */
  lemma FirstFreeUnique(disk: set<string>, dir: string, name: string, k1: nat, p1: string, k2: nat, p2: string)
    requires FirstFree(disk, dir, name, k1, p1) && FirstFree(disk, dir, name, k2, p2)
    ensures k1 == k2 && p1 == p2
  {
    assert k1 < k2 ==> Paths.Join(dir, Candidate(name, k1)) in disk;
    assert k2 < k1 ==> Paths.Join(dir, Candidate(name, k2)) in disk;
  }

  // ----- migration -----

  /** A name in a directory listing: never empty, never holding '/'. */
  type EntryName = s: string | s != [] && '/' !in s witness "x"

  /** A directory entry: a file, or a folder with its own entries. */
  datatype Entry = File(name: EntryName) | Folder(name: EntryName, entries: seq<Entry>)

  /** Whether the lower-cased name ends in one of the extensions. */
  function MatchesAny(name: string, exts: seq<string>): (r: bool)
    ensures r <==> exists k :: 0 <= k < |exts| && EndsWith(Lower(name), exts[k])
  {
    if exts == [] then false
    else EndsWith(Lower(name), exts[0]) || MatchesAny(name, exts[1..])
  }

  /** A file is moved when there is no extension list or its name
      matches one. */
  predicate Selected(name: string, exts: seq<string>) {
    exts == [] || MatchesAny(name, exts)
  }

  /** The source paths of the files the scan collects, in order. */
  function FilesToMove(dir: string, entries: seq<Entry>, exts: seq<string>): seq<string> {
    if entries == [] then []
    else
      var init := FilesToMove(dir, entries[..|entries| - 1], exts);
      var e := entries[|entries| - 1];
      if e.File? && Selected(e.name, exts) then init + [Paths.Join(dir, e.name)] else init
  }

  /** How many of `files` move successfully. */
  function MovedCount(files: seq<string>, moves: string -> bool): nat {
    if files == [] then 0
    else MovedCount(files[..|files| - 1], moves) + (if moves(files[|files| - 1]) then 1 else 0)
  }

  /** What the folders of `entries` contribute: with no extension list each
      is migrated into the target folder of the same name. */
  function SubCount(dir: string, entries: seq<Entry>, exts: seq<string>, moves: string -> bool): nat
    decreases entries, 0
  {
    if entries == [] then 0
    else
      var init := SubCount(dir, entries[..|entries| - 1], exts, moves);
      var e := entries[|entries| - 1];
      if e.Folder? && exts == [] then init + MigratedCount(Paths.Join(dir, e.name), e.entries, exts, moves) else init
  }

  /** The count _migrate_folder_optimized returns for a source folder with
      these entries: the moves made inside its sub-folders plus its own
      files that move. */
  function MigratedCount(dir: string, entries: seq<Entry>, exts: seq<string>, moves: string -> bool): nat
    decreases entries, 1
  {
    SubCount(dir, entries, exts, moves) + MovedCount(FilesToMove(dir, entries, exts), moves)
  }

  /** The files of the tree, its own and its sub-folders'. */
  function FileCount(entries: seq<Entry>): nat
    decreases entries
  {
    if entries == [] then 0
    else
      var e := entries[|entries| - 1];
      FileCount(entries[..|entries| - 1]) + if e.File? then 1 else FileCount(e.entries)
  }

  /** The paths of every file in the tree. */
  ghost function Sources(dir: string, entries: seq<Entry>): set<string>
    decreases entries
  {
    if entries == [] then {}
    else
      var e := entries[|entries| - 1];
      Sources(dir, entries[..|entries| - 1]) +
      if e.File? then {Paths.Join(dir, e.name)} else Sources(Paths.Join(dir, e.name), e.entries)
  }

  lemma {:induction false} MovedCountAtMost(files: seq<string>, moves: string -> bool)
    ensures MovedCount(files, moves) <= |files|
    ensures (forall f :: moves(f)) ==> MovedCount(files, moves) == |files|
    decreases |files|
  {
    if files != [] {
      MovedCountAtMost(files[..|files| - 1], moves);
    }
  }

  /** The files collected are the files of the folder itself whose names
      are selected. */
  lemma {:induction false} FilesToMoveSound(dir: string, entries: seq<Entry>, exts: seq<string>, p: string)
    requires p in FilesToMove(dir, entries, exts)
    ensures exists n: EntryName :: File(n) in entries && Selected(n, exts) && p == Paths.Join(dir, n)
    decreases |entries|
  {
    var init := entries[..|entries| - 1];
    if p in FilesToMove(dir, init, exts) {
      FilesToMoveSound(dir, init, exts, p);
      var n: EntryName :| File(n) in init && Selected(n, exts) && p == Paths.Join(dir, n);
      assert File(n) in entries by { var i :| 0 <= i < |init| && init[i] == File(n); assert entries[i] == File(n); }
    } else {
      assert entries[|entries| - 1] in entries;
    }
  }

  /** Every selected file of the folder is collected. */
  lemma {:induction false} FilesToMoveFind(dir: string, entries: seq<Entry>, exts: seq<string>, n: EntryName)
    requires File(n) in entries && Selected(n, exts)
    ensures Paths.Join(dir, n) in FilesToMove(dir, entries, exts)
    decreases |entries|
  {
    var init := entries[..|entries| - 1];
    if entries[|entries| - 1] != File(n) {
      var i :| 0 <= i < |entries| && entries[i] == File(n);
      assert init[i] == File(n);
      FilesToMoveFind(dir, init, exts, n);
    }
  }

  /** The files collected are among the tree's files. */
  lemma {:induction false} FilesToMoveInSources(dir: string, entries: seq<Entry>, exts: seq<string>)
    ensures forall p :: p in FilesToMove(dir, entries, exts) ==> p in Sources(dir, entries)
    ensures |FilesToMove(dir, entries, exts)| <= FileCount(entries) - SubFiles(entries)
    decreases |entries|
  {
    if entries != [] {
      FilesToMoveInSources(dir, entries[..|entries| - 1], exts);
    }
  }

  /** The files inside the sub-folders. */
  function SubFiles(entries: seq<Entry>): (r: nat)
    ensures r <= FileCount(entries)
    decreases entries
  {
    if entries == [] then 0
    else
      var e := entries[|entries| - 1];
      SubFiles(entries[..|entries| - 1]) + if e.File? then 0 else FileCount(e.entries)
  }

  /** With an extension list the sub-folders are skipped: only the folder's
      own matching files count. */
  lemma {:induction false} FilteredSkipsFolders(dir: string, entries: seq<Entry>, exts: seq<string>, moves: string -> bool)
    requires exts != []
    ensures MigratedCount(dir, entries, exts, moves) == MovedCount(FilesToMove(dir, entries, exts), moves)
    decreases |entries|
  {
    if entries != [] {
      FilteredSkipsFolders(dir, entries[..|entries| - 1], exts, moves);
    }
  }

  /** The count never exceeds the files in the tree, and with no extension
      list and every move succeeding it is every file, sub-folders
      included. */
  lemma {:induction false} MigratedCountBounds(dir: string, entries: seq<Entry>, exts: seq<string>, moves: string -> bool)
    ensures MigratedCount(dir, entries, exts, moves) <= FileCount(entries)
    ensures exts == [] && (forall f :: moves(f)) ==> MigratedCount(dir, entries, exts, moves) == FileCount(entries)
    decreases entries, 1
  {
    var files := FilesToMove(dir, entries, exts);
    SubCountBounds(dir, entries, exts, moves);
    MovedCountAtMost(files, moves);
    FilesToMoveInSources(dir, entries, exts);
    if exts == [] {
      AllFilesCollected(dir, entries);
    }
  }

  lemma {:induction false} SubCountBounds(dir: string, entries: seq<Entry>, exts: seq<string>, moves: string -> bool)
    ensures SubCount(dir, entries, exts, moves) <= SubFiles(entries)
    ensures exts == [] && (forall f :: moves(f)) ==> SubCount(dir, entries, exts, moves) == SubFiles(entries)
    decreases entries, 0
  {
    if entries != [] {
      var init := entries[..|entries| - 1];
      SubCountBounds(dir, init, exts, moves);
      var e := entries[|entries| - 1];
      if e.Folder? {
        MigratedCountBounds(Paths.Join(dir, e.name), e.entries, exts, moves);
      }
    }
  }

  /** With no extension list every file of the folder itself is collected. */
  lemma {:induction false} AllFilesCollected(dir: string, entries: seq<Entry>)
    ensures |FilesToMove(dir, entries, [])| == FileCount(entries) - SubFiles(entries)
    decreases |entries|
  {
    if entries != [] {
      AllFilesCollected(dir, entries[..|entries| - 1]);
    }
  }

  /** The files of the sub-folders of `entries`. */
  ghost function SubSources(dir: string, entries: seq<Entry>): set<string> {
    if entries == [] then {}
    else
      var e := entries[|entries| - 1];
      SubSources(dir, entries[..|entries| - 1]) + if e.File? then {} else Sources(Paths.Join(dir, e.name), e.entries)
  }

  /** The files a migration may take away: the files collected in the
      folder and, with no extension list, every file of its sub-folders. */
  ghost function Movable(dir: string, entries: seq<Entry>, exts: seq<string>): set<string> {
    (set p | p in FilesToMove(dir, entries, exts)) + if exts == [] then SubSources(dir, entries) else {}
  }

  lemma FilesToMoveSnoc(dir: string, pre: seq<Entry>, e: Entry, exts: seq<string>)
    ensures FilesToMove(dir, pre + [e], exts) ==
      FilesToMove(dir, pre, exts) + (if e.File? && Selected(e.name, exts) then [Paths.Join(dir, e.name)] else [])
  {
    assert (pre + [e])[..|pre|] == pre;
  }

  lemma SubCountSnoc(dir: string, pre: seq<Entry>, e: Entry, exts: seq<string>, moves: string -> bool)
    ensures SubCount(dir, pre + [e], exts, moves) ==
      SubCount(dir, pre, exts, moves) +
      (if e.Folder? && exts == [] then MigratedCount(Paths.Join(dir, e.name), e.entries, exts, moves) else 0)
  {
    assert (pre + [e])[..|pre|] == pre;
  }

  lemma SubSourcesSnoc(dir: string, pre: seq<Entry>, e: Entry)
    ensures SubSources(dir, pre + [e]) ==
      SubSources(dir, pre) + if e.File? then {} else Sources(Paths.Join(dir, e.name), e.entries)
  {
    assert (pre + [e])[..|pre|] == pre;
  }

  /** What the scan's i-th entry adds to the collected files, the count and
      the sub-folder files. */
  lemma ScanNext(dir: string, entries: seq<Entry>, exts: seq<string>, moves: string -> bool, i: nat)
    requires i < |entries|
    ensures var e := entries[i];
      FilesToMove(dir, entries[..i + 1], exts) ==
      FilesToMove(dir, entries[..i], exts) + (if e.File? && Selected(e.name, exts) then [Paths.Join(dir, e.name)] else [])
    ensures var e := entries[i];
      SubCount(dir, entries[..i + 1], exts, moves) ==
      SubCount(dir, entries[..i], exts, moves) +
      (if e.Folder? && exts == [] then MigratedCount(Paths.Join(dir, e.name), e.entries, exts, moves) else 0)
    ensures var e := entries[i];
      SubSources(dir, entries[..i + 1]) ==
      SubSources(dir, entries[..i]) + if e.File? then {} else Sources(Paths.Join(dir, e.name), e.entries)
  {
    var pre, e := entries[..i], entries[i];
    assert entries[..i + 1] == pre + [e];
    FilesToMoveSnoc(dir, pre, e, exts);
    SubCountSnoc(dir, pre, e, exts, moves);
    SubSourcesSnoc(dir, pre, e);
  }

  /** A migration takes away only files of the tree. */
  lemma {:induction false} MovableInSources(dir: string, entries: seq<Entry>, exts: seq<string>)
    ensures Movable(dir, entries, exts) <= Sources(dir, entries)
    decreases |entries|
  {
    FilesToMoveInSources(dir, entries, exts);
    SubSourcesInSources(dir, entries);
  }

  lemma {:induction false} SubSourcesInSources(dir: string, entries: seq<Entry>)
    ensures SubSources(dir, entries) <= Sources(dir, entries)
    decreases |entries|
  {
    if entries != [] {
      SubSourcesInSources(dir, entries[..|entries| - 1]);
    }
  }

  lemma MovedNext(files: seq<string>, moves: string -> bool, j: nat)
    requires j < |files|
    ensures MovedCount(files[..j + 1], moves) == MovedCount(files[..j], moves) + (if moves(files[j]) then 1 else 0)
  {
    assert files[..j + 1][..j] == files[..j];
  }

  /** One move as the disk sees it: a file whose move succeeds leaves its
      place for the first free name in the target folder; a failed move
      changes nothing. */
  ghost predicate MoveStep(disk: set<string>, source: string, targetDir: string, moves: string -> bool,
                           diskAfter: set<string>) {
    if moves(source) then
      exists k, path :: FirstFree(disk, targetDir, Paths.Basename(source), k, path) && diskAfter == disk - {source} + {path}
    else diskAfter == disk
  }

  /** One file moved into the target folder, under a fresh name when its
      own is taken. */
  method MoveOne(disk: set<string>, source: string, targetDir: string, moves: string -> bool)
    returns (moved: bool, diskAfter: set<string>)
    requires Paths.Basename(source) != []
    ensures moved == moves(source)
    ensures disk - {source} <= diskAfter
    ensures MoveStep(disk, source, targetDir, moves, diskAfter)
  {
    var filename := Paths.Basename(source);
    var target := Paths.Join(targetDir, filename);
    var k := 0;
    if target in disk {
      target, k := UniqueFilename(disk, targetDir, filename);
    } else {
      assert FirstFree(disk, targetDir, filename, 0, target);
    }
    moved := moves(source);
    diskAfter := if moved then disk - {source} + {target} else disk;
  }

  /** The files collected are paths of plain names in the folder. */
  lemma {:induction false} FilesToMoveNamed(dir: string, entries: seq<Entry>, exts: seq<string>)
    ensures forall p :: p in FilesToMove(dir, entries, exts) ==> Paths.Basename(p) != []
    decreases |entries|
  {
    if entries != [] {
      FilesToMoveNamed(dir, entries[..|entries| - 1], exts);
      Paths.BasenameOfJoin(dir, entries[|entries| - 1].name);
    }
  }

  /** _migrate_folder_optimized: `entries` is None when the source folder
      does not exist. The count is the moves that succeed, in the folder
      and, with no extension list, in its sub-folders; a file the
      migration does not select stays where it is. */
  method MigrateFolder(disk: set<string>, sourceDir: string, targetDir: string, exts: seq<string>,
                       entries: Option<seq<Entry>>, moves: string -> bool)
    returns (migrated: nat, diskAfter: set<string>)
    ensures entries.None? ==> migrated == 0 && diskAfter == disk
    ensures entries.Some? ==> migrated == MigratedCount(sourceDir, entries.value, exts, moves)
    ensures entries.Some? ==> disk - Movable(sourceDir, entries.value, exts) <= diskAfter
    decreases if entries.Some? then entries.value else [], 1
  {
    if entries.None? {
      return 0, disk;
    }
    var es := entries.value;
    var files, sub, afterScan := ScanEntries(disk + {targetDir}, sourceDir, targetDir, exts, es, moves);
    FilesToMoveNamed(sourceDir, es, exts);
    var moved;
    ghost var trace;
    moved, diskAfter, trace := MoveFiles(afterScan, files, targetDir, moves);
    migrated := sub + moved;
  }

  /** The scan: sub-folders are migrated as they are met (with no
      extension list), the selected files collected for moving. */
  method ScanEntries(disk: set<string>, sourceDir: string, targetDir: string, exts: seq<string>,
                     es: seq<Entry>, moves: string -> bool)
    returns (files: seq<string>, migrated: nat, diskAfter: set<string>)
    ensures files == FilesToMove(sourceDir, es, exts)
    ensures migrated == SubCount(sourceDir, es, exts, moves)
    ensures exts != [] ==> diskAfter == disk
    ensures disk - SubSources(sourceDir, es) <= diskAfter
    decreases es, 0
  {
    diskAfter := disk;
    migrated := 0;
    files := [];
    var i := 0;
    while i < |es|
      invariant i <= |es|
      invariant files == FilesToMove(sourceDir, es[..i], exts)
      invariant migrated == SubCount(sourceDir, es[..i], exts, moves)
      invariant exts != [] ==> diskAfter == disk
      invariant disk - SubSources(sourceDir, es[..i]) <= diskAfter
    {
      ScanNext(sourceDir, es, exts, moves, i);
      var e := es[i];
      if e.File? {
        if Selected(e.name, exts) {
          files := files + [Paths.Join(sourceDir, e.name)];
        }
      } else if exts == [] {
        var sub := Paths.Join(sourceDir, e.name);
        var m, after := MigrateFolder(diskAfter, sub, Paths.Join(targetDir, e.name), exts, Some(e.entries), moves);
        MovableInSources(sub, e.entries, exts);
        migrated := migrated + m;
        diskAfter := after;
      }
      i := i + 1;
    }
    assert es[..i] == es;
  }

  /** `trace` holds the disk before each move of `files` and after the
      last, each step being that file's move. */
  ghost predicate Chain(trace: seq<set<string>>, files: seq<string>, targetDir: string, moves: string -> bool)
    decreases |files|
  {
    |trace| == |files| + 1 &&
    (files == [] ||
     (Chain(trace[..|files|], files[..|files| - 1], targetDir, moves) &&
      MoveStep(trace[|files| - 1], files[|files| - 1], targetDir, moves, trace[|files|])))
  }

  lemma StepAgain(disk: set<string>, disk': set<string>, source: string, source': string, targetDir: string,
                  moves: string -> bool, after: set<string>, after': set<string>)
    requires disk == disk' && source == source' && after == after'
    requires MoveStep(disk, source, targetDir, moves, after)
    ensures MoveStep(disk', source', targetDir, moves, after')
  { }

  lemma ChainExtend(trace: seq<set<string>>, files: seq<string>, targetDir: string, moves: string -> bool,
                    j: nat, after: set<string>)
    requires j < |files| && Chain(trace, files[..j], targetDir, moves)
    requires MoveStep(trace[j], files[j], targetDir, moves, after)
    ensures Chain(trace + [after], files[..j + 1], targetDir, moves)
  {
    var t, f := trace + [after], files[..j + 1];
    assert t[..j + 1] == trace;
    assert f[..j] == files[..j];
    StepAgain(trace[j], t[j], files[j], f[j], targetDir, moves, after, t[j + 1]);
  }

  /** Every step of a chain is that file's move. */
  lemma {:induction false} ChainStep(trace: seq<set<string>>, files: seq<string>, targetDir: string,
                                     moves: string -> bool, i: nat)
    requires Chain(trace, files, targetDir, moves) && i < |files|
    ensures MoveStep(trace[i], files[i], targetDir, moves, trace[i + 1])
    decreases |files|
  {
    var n := |files|;
    if i < n - 1 {
      var t, f := trace[..n], files[..n - 1];
      ChainStep(t, f, targetDir, moves, i);
      StepAgain(t[i], trace[i], f[i], files[i], targetDir, moves, t[i + 1], trace[i + 1]);
    }
  }

  lemma KeptExtend(disk: set<string>, files: seq<string>, j: nat, d: set<string>, d': set<string>)
    requires j < |files|
    requires forall p :: p in disk && p !in files[..j] ==> p in d
    requires d - {files[j]} <= d'
    ensures forall p :: p in disk && p !in files[..j + 1] ==> p in d'
  {
    assert files[..j + 1] == files[..j] + [files[j]];
  }

  /** The batch of moves, one file after the other: `trace` holds the disk
      before each move and after the last, each step being that file's
      move. */
  method MoveFiles(disk: set<string>, files: seq<string>, targetDir: string, moves: string -> bool)
    returns (migrated: nat, diskAfter: set<string>, ghost trace: seq<set<string>>)
    requires forall p :: p in files ==> Paths.Basename(p) != []
    ensures migrated == MovedCount(files, moves)
    ensures |trace| == |files| + 1 && trace[0] == disk && trace[|files|] == diskAfter
    ensures Chain(trace, files, targetDir, moves)
    ensures forall p :: p in disk && p !in files ==> p in diskAfter
  {
    diskAfter := disk;
    migrated := 0;
    trace := [disk];
    var j := 0;
    while j < |files|
      invariant j <= |files|
      invariant migrated == MovedCount(files[..j], moves)
      invariant |trace| == j + 1 && trace[0] == disk && trace[j] == diskAfter
      invariant Chain(trace, files[..j], targetDir, moves)
      invariant forall p :: p in disk && p !in files[..j] ==> p in diskAfter
    {
      MovedNext(files, moves, j);
      assert files[j] in files;
      var moved, after := MoveOne(diskAfter, files[j], targetDir, moves);
      if moved {
        migrated := migrated + 1;
      }
      ChainExtend(trace, files, targetDir, moves, j, after);
      KeptExtend(disk, files, j, diskAfter, after);
      diskAfter := after;
      trace := trace + [after];
      j := j + 1;
    }
    assert files[..j] == files;
  }

  // ----- directory memo and pool -----

  /** get_secure_directory's answer for a storage: "recycle" is the recycle
      root, any other type its directory under the vault root. */
  function DirectoryFor(storage: SecureStorage.Storage, dirType: string): string {
    if dirType == "recycle" then SecureStorage.TypedDirectory(storage.recycleDir, "")
    else SecureStorage.TypedDirectory(storage.vaultDir, dirType)
  }

  /** The thread pool for file operations: two workers. */
  class FileOperationPool {
    const maxWorkers: nat
    const namePrefix: string

    constructor ()
      ensures maxWorkers == 2 && namePrefix == "FileOp"
    {
      maxWorkers := 2;
      namePrefix := "FileOp";
    }
  }

  /** The module's globals: the directory cache, keyed by the storage
      object and the type, and the lazily created pool. */
  class Integration {
    var directoryCache: map<(SecureStorage.Storage, string), string>
    var pool: FileOperationPool?
    ghost var poolsCreated: nat

    /** Every cached directory is the one a fresh lookup computes, and at
        most one pool was ever made. */
    ghost predicate Valid()
      reads this
    {
      && (forall key :: key in directoryCache ==> directoryCache[key] == DirectoryFor(key.0, key.1))
      && poolsCreated == (if pool == null then 0 else 1)
    }

    constructor ()
      ensures Valid() && directoryCache == map[] && pool == null
    {
      directoryCache := map[];
      pool := null;
      poolsCreated := 0;
    }

    /** get_file_operation_pool: the first call creates the pool, later
        calls return the same one. */
    method GetFileOperationPool() returns (p: FileOperationPool)
      requires Valid()
      modifies this`pool, this`poolsCreated
      ensures Valid() && pool == p && poolsCreated <= 1
      ensures old(pool) != null ==> p == old(pool) && poolsCreated == old(poolsCreated)
      ensures old(pool) == null ==> fresh(p) && p.maxWorkers == 2
    {
      if pool == null {
        pool := new FileOperationPool();
        poolsCreated := poolsCreated + 1;
      }
      p := pool;
    }

    /** get_secure_directory: None without secure storage; a cached answer
        when there is one; otherwise the storage is asked (which creates its
        layout on first use) and the answer cached. Either way the answer
        is the uncached one. */
    method GetSecureDirectory(storage: Option<SecureStorage.Storage>, dirType: string) returns (d: Option<string>)
      requires Valid()
      modifies this`directoryCache, if storage.Some? then {storage.value} else {}
      ensures Valid()
      ensures storage.None? ==> d.None? && directoryCache == old(directoryCache)
      ensures storage.Some? ==> d == Some(DirectoryFor(storage.value, dirType))
      ensures storage.Some? ==> directoryCache == old(directoryCache)[(storage.value, dirType) := d.value]
      ensures storage.Some? && (storage.value, dirType) in old(directoryCache) ==> unchanged(storage.value)
      ensures storage.Some? && (storage.value, dirType) !in old(directoryCache) ==>
        var s := storage.value;
        && s.directoriesCreated
        && s.disk == if old(s.directoriesCreated) then old(s.disk)
                     else old(s.disk) + set x | x in SecureStorage.SecureDirectories(s.baseDir)
    {
      if storage.None? {
        return None;
      }
      var s := storage.value;
      var key := (s, dirType);
      if key in directoryCache {
        return Some(directoryCache[key]);
      }
      var dir;
      if dirType == "recycle" {
        dir := s.GetRecycleDirectory("");
      } else {
        dir := s.GetVaultDirectory(dirType);
      }
      directoryCache := directoryCache[key := dir];
      d := Some(dir);
    }

    /** clear_directory_cache */
    method ClearDirectoryCache()
      requires Valid()
      modifies this`directoryCache
      ensures Valid() && directoryCache == map[]
    {
      directoryCache := map[];
    }
  }
}
