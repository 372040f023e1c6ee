/** The document vault (document_vault_core.py): every file type the
    media vaults do not take, filed under an extension category, listed
    newest first, counted per category, exported and previewed. The
    vault's directories are a map from directory path to its entries. */
module DocumentVault {
  import opened Wrappers
  import opened Strings
  import Paths
  import Sorting
  import Export

  /** A category and the extensions it lists (only membership is ever asked of the list). */
  datatype Category = Category(name: string, extensions: set<string>)

  /** FILE_CATEGORIES, in declaration order; 'other' lists nothing. */
  const Categories: seq<Category> := [
    Category("documents", {".pdf", ".doc", ".docx", ".txt", ".rtf", ".odt", ".pages",
                           ".md", ".tex", ".epub", ".mobi", ".azw", ".azw3"}),
    Category("spreadsheets", {".xls", ".xlsx", ".csv", ".ods", ".numbers", ".tsv"}),
    Category("presentations", {".ppt", ".pptx", ".odp", ".key"}),
    Category("code", {".py", ".js", ".html", ".css", ".java", ".cpp", ".c", ".h",
                      ".php", ".rb", ".go", ".rs", ".swift", ".kt", ".ts", ".jsx",
                      ".vue", ".sql", ".json", ".xml", ".yaml", ".yml", ".toml",
                      ".ini", ".cfg", ".conf", ".sh", ".bat", ".ps1"}),
    Category("archives", {".zip", ".rar", ".7z", ".tar", ".gz", ".bz2", ".xz",
                          ".tar.gz", ".tar.bz2", ".tar.xz"}),
    Category("executables", {".apk", ".exe", ".msi", ".deb", ".rpm", ".dmg", ".pkg",
                             ".app", ".appimage", ".flatpak", ".snap"}),
    Category("data", {".db", ".sqlite", ".sqlite3", ".sql", ".log", ".backup",
                      ".bak", ".tmp", ".cache", ".dat", ".bin"}),
    Category("contacts", {".vcf", ".contact", ".abbu", ".ldif"}),
    Category("certificates", {".crt", ".pem", ".p12", ".pfx", ".key", ".cer"}),
    Category("fonts", {".ttf", ".otf", ".woff", ".woff2", ".eot"}),
    Category("other", {})
  ]

  /** The keys of FILE_CATEGORIES, in order. */
  const CategoryNames: seq<string> := ["documents", "spreadsheets", "presentations", "code", "archives",
                                        "executables", "data", "contacts", "certificates", "fonts", "other"]

  /** EXCLUDED_EXTENSIONS: images, videos and audio belong to the other vaults. */
  const ExcludedExtensions: set<string> := {
    ".jpg", ".jpeg", ".png", ".gif", ".bmp", ".webp", ".tiff", ".tif", ".ico", ".svg",
    ".mp4", ".avi", ".mov", ".mkv", ".wmv", ".flv", ".webm", ".3gp", ".m4v", ".mpg", ".mpeg",
    ".mp3", ".wav", ".flac", ".ogg", ".m4a", ".aac", ".wma", ".opus"
  }

  function Min(a: nat, b: nat): nat { if a < b then a else b }

  /** The extension os.path.splitext finds on the lower-cased name. */
  function FileExt(filename: string): string { Paths.Ext(Lower(filename)) }

  /** Category k is one the search considers, and it lists ext. */
  predicate Listed(ext: string, k: nat)
    requires k < |Categories|
  {
    Categories[k].name != "other" && ext in Categories[k].extensions
  }

  /** The first category from index `from` on that lists ext. */
  function FirstListing(ext: string, from: nat): (r: Option<nat>)
    requires from <= |Categories|
    ensures r.Some? ==> from <= r.value < |Categories| && Listed(ext, r.value)
    ensures r.Some? ==> forall j :: from <= j < r.value ==> !Listed(ext, j)
    ensures r.None? ==> forall j :: from <= j < |Categories| ==> !Listed(ext, j)
    decreases |Categories| - from
  {
    if from == |Categories| then None
    else if Listed(ext, from) then Some(from)
    else FirstListing(ext, from + 1)
  }

  /** is_file_supported: the extension is not a media one. */
  predicate IsFileSupported(filename: string) {
    FileExt(filename) !in ExcludedExtensions
  }

  /** detect_file_category: 'other' for an empty name, None for a media
      file, else the first category listing the extension, else 'other'. */
  function DetectFileCategory(filename: string): (r: Option<string>)
    ensures filename == "" ==> r == Some("other")
    ensures filename != "" ==> (r.None? <==> !IsFileSupported(filename))
    ensures r.Some? ==> r.value in CategoryNames
  {
    if filename == "" then Some("other")
    else
      var ext := FileExt(filename);
      if ext in ExcludedExtensions then None
      else match FirstListing(ext, 0)
        case Some(k) => Some(Categories[k].name)
        case None => Some("other")
  }

  /** A supported file goes to the earliest category listing its extension. */
  lemma DetectFirstListed(filename: string, k: nat)
    requires filename != "" && IsFileSupported(filename)
    requires k < |Categories| && Listed(FileExt(filename), k)
    requires forall j :: 0 <= j < k ==> !Listed(FileExt(filename), j)
    ensures DetectFileCategory(filename) == Some(Categories[k].name)
  {
    var m := FirstListing(FileExt(filename), 0);
    assert m.Some? && m.value == k;
  }

  /** A supported file whose extension no category lists is 'other'. */
  lemma DetectUnlisted(filename: string)
    requires filename != "" && IsFileSupported(filename)
    requires forall j :: 0 <= j < |Categories| ==> !Listed(FileExt(filename), j)
    ensures DetectFileCategory(filename) == Some("other")
  {
    assert FirstListing(FileExt(filename), 0).None?;
  }

  /** '.key' is first listed by presentations, the third category. */
  lemma KeyListing()
    ensures FirstListing(".key", 0) == Some(2)
  {
  }

  /** '.sql' is first listed by code, the fourth category. */
  lemma SqlListing()
    ensures FirstListing(".sql", 0) == Some(3)
  {
  }

  lemma OverlapsNotExcluded()
    ensures ".key" !in ExcludedExtensions && ".sql" !in ExcludedExtensions
  {
  }

  /** A name with an extension is not empty. */
  lemma NamedByExt(filename: string)
    requires FileExt(filename) != ""
    ensures filename != ""
  {
    assert Paths.SplitExt(Lower(filename)).0 + FileExt(filename) == Lower(filename);
  }

  /** Extensions listed twice go to the earlier category: '.key' is a
      presentation rather than a certificate. */
  lemma KeyIsPresentation(filename: string)
    requires FileExt(filename) == ".key"
    ensures DetectFileCategory(filename) == Some("presentations")
  {
    NamedByExt(filename);
    OverlapsNotExcluded();
    KeyListing();
  }

  /** ... and '.sql' is code rather than data. */
  lemma SqlIsCode(filename: string)
    requires FileExt(filename) == ".sql"
    ensures DetectFileCategory(filename) == Some("code")
  {
    NamedByExt(filename);
    OverlapsNotExcluded();
    SqlListing();
  }

  /** The compound archive extensions are never what splitext returns,
      so they never decide a category. */
  lemma CompoundExtensionsNeverMatch(filename: string)
    ensures FileExt(filename) != ".tar.gz" && FileExt(filename) != ".tar.bz2" && FileExt(filename) != ".tar.xz"
  {
    Paths.ExtShape(Lower(filename));
    assert ".tar.gz"[1..][3] == '.' && ".tar.bz2"[1..][3] == '.' && ".tar.xz"[1..][3] == '.';
  }

  // ---- original names ------------------------------------------------

  /** The length of the run of digits s starts with. */
  function DigitRun(s: string): (n: nat)
    ensures n <= |s| && DigitsIn(s[..n])
    ensures n < |s| ==> !IsDigit(s[n])
  {
    if s != [] && IsDigit(s[0]) then
      var m := DigitRun(s[1..]);
      assert s[..1 + m] == [s[0]] + s[1..][..m];
      1 + m
    else 0
  }

  lemma {:induction false} DigitRunOf(digits: string, rest: string)
    requires DigitsIn(digits)
    requires rest == [] || !IsDigit(rest[0])
    ensures DigitRun(digits + rest) == |digits|
    decreases |digits|
  {
    if digits != [] {
      assert (digits + rest)[1..] == digits[1..] + rest;
      DigitRunOf(digits[1..], rest);
    } else {
      assert digits + rest == rest;
    }
  }

  /** The group re.match(r'vault_\d{8}_\d{6}_\d+_(.+)', filename)
      captures, when it matches: `.` stops at a line break. */
  function MatchVaultName(filename: string): (r: Option<string>)
    ensures r.Some? ==> StartsWith(filename, "vault_") && r.value != [] && '\n' !in r.value
  {
    if |filename| < 22 || filename[..6] != "vault_" || !DigitsIn(filename[6..14]) || filename[14] != '_'
       || !DigitsIn(filename[15..21]) || filename[21] != '_' then None
    else
      var rest := filename[22..];
      var d := DigitRun(rest);
      if d == 0 || d + 1 >= |rest| || rest[d] != '_' || rest[d + 1] == '\n' then None
      else Some(CutAt(rest[d + 1..], '\n'))
  }

  /** The name a vault file was imported under; any other name as is. */
  function OriginalName(filename: string): (r: string)
    ensures !StartsWith(filename, "vault_") ==> r == filename
  {
    match MatchVaultName(filename)
    case Some(name) => name
    case None => filename
  }

  /** The name an import stores a file under. */
  function ImportName(stamp: string, filename: string): string {
    "vault_" + stamp + "_" + filename
  }

  /** The listing recovers the imported name from the stored one. */
  lemma OriginalNameOfImport(stamp: string, filename: string)
    requires StampShape(stamp) && filename != [] && '\n' !in filename
    ensures OriginalName(ImportName(stamp, filename)) == filename
  {
    var f := ImportName(stamp, filename);
    assert f[..6] == "vault_";
    assert f[6..14] == stamp[..8] && f[14] == stamp[8];
    assert f[15..21] == stamp[9..15] && f[21] == stamp[15];
    var rest := f[22..];
    assert rest == stamp[16..] + ("_" + filename);
    DigitRunOf(stamp[16..], "_" + filename);
    assert rest[7..] == filename;
  }

  // ---- listing ---------------------------------------------------------

  datatype Entry = Entry(name: string, isFile: bool, size: nat, mtime: int)

  datatype Document = Document(path: string, filename: string, originalName: string,
                               category: string, size: nat, modified: int)

  function CategoryDir(vaultDir: string, category: string): string { Paths.Join(vaultDir, category) }

  function MakeDocument(vaultDir: string, category: string, e: Entry): Document {
    Document(Paths.Join(CategoryDir(vaultDir, category), e.name), e.name, OriginalName(e.name),
             category, e.size, e.mtime)
  }

  /** The documents one category directory contributes, in listing order;
      a category that is not a key fails on every file. */
  function DirDocuments(vaultDir: string, category: string, entries: seq<Entry>): (r: seq<Document>)
    ensures category !in CategoryNames ==> r == []
    ensures forall k :: 0 <= k < |r| ==> r[k].category == category
    decreases |entries|
  {
    if entries == [] then []
    else DirDocuments(vaultDir, category, entries[..|entries| - 1]) + Piece(vaultDir, category, entries[|entries| - 1])
  }

  /** What one directory entry adds: its document, if it is a file. */
  function Piece(vaultDir: string, category: string, e: Entry): (r: seq<Document>)
    ensures category !in CategoryNames ==> r == []
    ensures forall k :: 0 <= k < |r| ==> r[k].category == category
  {
    if e.isFile && category in CategoryNames then [MakeDocument(vaultDir, category, e)] else []
  }

  function CategoryDocuments(vaultDir: string, dirs: map<string, seq<Entry>>, category: string): (r: seq<Document>)
    ensures forall k :: 0 <= k < |r| ==> r[k].category == category && category in CategoryNames
  {
    var dir := CategoryDir(vaultDir, category);
    if dir in dirs then DirDocuments(vaultDir, category, dirs[dir]) else []
  }

  /** The documents of the given categories, in visiting order. */
  function Collect(vaultDir: string, dirs: map<string, seq<Entry>>, cats: seq<string>): seq<Document>
    decreases |cats|
  {
    if cats == [] then []
    else Collect(vaultDir, dirs, cats[..|cats| - 1]) + CategoryDocuments(vaultDir, dirs, cats[|cats| - 1])
  }

  /** A collected document is in one of the visited categories, and that
      category is a key. */
  lemma {:induction false} CollectCategories(vaultDir: string, dirs: map<string, seq<Entry>>, cats: seq<string>, d: Document)
    requires d in Collect(vaultDir, dirs, cats)
    ensures d.category in cats && d.category in CategoryNames
    decreases |cats|
  {
    var init := cats[..|cats| - 1];
    var tail := CategoryDocuments(vaultDir, dirs, cats[|cats| - 1]);
    if d in tail {
      var k :| 0 <= k < |tail| && tail[k] == d;
    } else {
      CollectCategories(vaultDir, dirs, init, d);
      assert init[|init| - 1] == cats[|init| - 1];
      assert d.category in cats by {
        var j :| 0 <= j < |init| && init[j] == d.category;
        assert cats[j] == d.category;
      }
    }
  }

  /** A filter (None or "" means none) narrows the visit to one category. */
  function CategoriesToCheck(filter: Option<string>): seq<string> {
    if filter.Some? && filter.value != "" then [filter.value] else CategoryNames
  }

  function Modified(d: Document): int { d.modified }

  /** documents.sort(key=modified, reverse=True) */
  function NewestFirst(docs: seq<Document>): seq<Document> {
    Sorting.SortDescBy(docs, Modified)
  }

  /** get_vault_documents: the collected documents, newest first. */
  function Listing(vaultDir: string, dirs: map<string, seq<Entry>>, filter: Option<string>): seq<Document> {
    NewestFirst(Collect(vaultDir, dirs, CategoriesToCheck(filter)))
  }

  /** The listing is ordered newest first and holds exactly the collected
      documents. */
  lemma ListingSorted(vaultDir: string, dirs: map<string, seq<Entry>>, filter: Option<string>)
    ensures Sorting.SortedDescBy(Listing(vaultDir, dirs, filter), Modified)
    ensures multiset(Listing(vaultDir, dirs, filter)) == multiset(Collect(vaultDir, dirs, CategoriesToCheck(filter)))
  {
  }

  /** Every listed document belongs to a checked category, which is the
      filter's when one is given. */
  lemma ListingCategories(vaultDir: string, dirs: map<string, seq<Entry>>, filter: Option<string>, d: Document)
    requires d in Listing(vaultDir, dirs, filter)
    ensures d.category in CategoryNames
    ensures filter.Some? && filter.value != "" ==> d.category == filter.value
  {
    var c := Collect(vaultDir, dirs, CategoriesToCheck(filter));
    ListingSorted(vaultDir, dirs, filter);
    assert d in multiset(c);
    CollectCategories(vaultDir, dirs, CategoriesToCheck(filter), d);
  }

  /** A filter naming no category lists nothing. */
  lemma UnknownFilterListsNothing(vaultDir: string, dirs: map<string, seq<Entry>>, filter: Option<string>)
    requires filter.Some? && filter.value != "" && filter.value !in CategoryNames
    ensures Listing(vaultDir, dirs, filter) == []
  {
    var cats := CategoriesToCheck(filter);
    assert Collect(vaultDir, dirs, cats) == Collect(vaultDir, dirs, []) + CategoryDocuments(vaultDir, dirs, filter.value);
  }

  lemma {:induction false} DirDocumentsComplete(vaultDir: string, category: string, entries: seq<Entry>, e: Entry)
    requires e in entries && e.isFile && category in CategoryNames
    ensures MakeDocument(vaultDir, category, e) in DirDocuments(vaultDir, category, entries)
    decreases |entries|
  {
    var init := entries[..|entries| - 1];
    assert entries == init + [entries[|entries| - 1]];
    if e != entries[|entries| - 1] {
      DirDocumentsComplete(vaultDir, category, init, e);
    }
  }

  lemma {:induction false} CollectComplete(vaultDir: string, dirs: map<string, seq<Entry>>, cats: seq<string>,
                                           category: string, e: Entry)
    requires category in cats && category in CategoryNames
    requires CategoryDir(vaultDir, category) in dirs && e in dirs[CategoryDir(vaultDir, category)] && e.isFile
    ensures MakeDocument(vaultDir, category, e) in Collect(vaultDir, dirs, cats)
    decreases |cats|
  {
    var init := cats[..|cats| - 1];
    if category == cats[|cats| - 1] {
      DirDocumentsComplete(vaultDir, category, dirs[CategoryDir(vaultDir, category)], e);
    } else {
      assert cats == init + [cats[|cats| - 1]];
      CollectComplete(vaultDir, dirs, init, category, e);
    }
  }

  /** Every file in a checked category's directory is listed. */
  lemma ListingComplete(vaultDir: string, dirs: map<string, seq<Entry>>, filter: Option<string>,
                        category: string, e: Entry)
    requires category in CategoriesToCheck(filter) && category in CategoryNames
    requires CategoryDir(vaultDir, category) in dirs && e in dirs[CategoryDir(vaultDir, category)] && e.isFile
    ensures MakeDocument(vaultDir, category, e) in Listing(vaultDir, dirs, filter)
  {
    CollectComplete(vaultDir, dirs, CategoriesToCheck(filter), category, e);
    ListingSorted(vaultDir, dirs, filter);
    assert MakeDocument(vaultDir, category, e) in multiset(Listing(vaultDir, dirs, filter));
  }

  lemma DirDocumentsNext(vaultDir: string, category: string, entries: seq<Entry>, j: nat)
    requires j < |entries|
    ensures DirDocuments(vaultDir, category, entries[..j + 1])
         == DirDocuments(vaultDir, category, entries[..j]) + Piece(vaultDir, category, entries[j])
  {
    assert entries[..j + 1][..j] == entries[..j];
  }

  lemma CollectNext(vaultDir: string, dirs: map<string, seq<Entry>>, cats: seq<string>, i: nat)
    requires i < |cats|
    ensures Collect(vaultDir, dirs, cats[..i + 1]) == Collect(vaultDir, dirs, cats[..i]) + CategoryDocuments(vaultDir, dirs, cats[i])
  {
    var next := cats[..i + 1];
    assert next[..|next| - 1] == cats[..i] && next[|next| - 1] == cats[i];
  }

  lemma Regroup(a: seq<Document>, b: seq<Document>, c: seq<Document>)
    ensures a + b + c == a + (b + c)
  {
  }

  /** The inner loop: the files of one category directory, appended in
      listing order. */
  method AppendDirectory(acc: seq<Document>, vaultDir: string, category: string, entries: seq<Entry>)
    returns (r: seq<Document>)
    ensures r == acc + DirDocuments(vaultDir, category, entries)
  {
    r := acc;
    var j := 0;
    while j < |entries|
      invariant j <= |entries|
      invariant r == acc + DirDocuments(vaultDir, category, entries[..j])
    {
      DirDocumentsNext(vaultDir, category, entries, j);
      Regroup(acc, DirDocuments(vaultDir, category, entries[..j]), Piece(vaultDir, category, entries[j]));
      r := r + Piece(vaultDir, category, entries[j]);
      j := j + 1;
    }
    assert entries[..j] == entries;
  }

  /** The directory walk of get_vault_documents: each category's
      directory, when it exists, in turn. */
  method Walk(vaultDir: string, dirs: map<string, seq<Entry>>, cats: seq<string>) returns (acc: seq<Document>)
    ensures acc == Collect(vaultDir, dirs, cats)
  {
    acc := [];
    var i := 0;
    while i < |cats|
      invariant i <= |cats|
      invariant acc == Collect(vaultDir, dirs, cats[..i])
    {
      CollectNext(vaultDir, dirs, cats, i);
      var dir := CategoryDir(vaultDir, cats[i]);
      if dir in dirs {
        acc := AppendDirectory(acc, vaultDir, cats[i], dirs[dir]);
      }
      i := i + 1;
    }
    assert cats[..i] == cats;
  }

  /** get_vault_documents: the walk over the checked categories, sorted
      newest first. */
  method GetVaultDocuments(vaultDir: string, dirs: map<string, seq<Entry>>, filter: Option<string>)
    returns (docs: seq<Document>)
    ensures docs == Listing(vaultDir, dirs, filter)
  {
    var found := Walk(vaultDir, dirs, CategoriesToCheck(filter));
    docs := NewestFirst(found);
  }

  // ---- category statistics -------------------------------------------

  /** How many of the documents are in category c. */
  function CountIn(docs: seq<Document>, c: string): (n: nat)
    ensures n <= |docs|
  {
    if docs == [] then 0
    else CountIn(docs[..|docs| - 1], c) + (if docs[|docs| - 1].category == c then 1 else 0)
  }

  lemma CountInNext(docs: seq<Document>, k: nat, c: string)
    requires k < |docs|
    ensures CountIn(docs[..k + 1], c) == CountIn(docs[..k], c) + (if docs[k].category == c then 1 else 0)
  {
    assert docs[..k + 1][..k] == docs[..k];
  }

  /** The first loop of get_category_stats: a zero entry per category. */
  method ZeroStats() returns (stats: map<string, nat>)
    ensures forall c :: c in stats <==> c in CategoryNames
    ensures forall c :: c in stats ==> stats[c] == 0
  {
    stats := map[];
    var i := 0;
    while i < |CategoryNames|
      invariant i <= |CategoryNames|
      invariant forall c :: c in stats <==> c in CategoryNames[..i]
      invariant forall c :: c in stats ==> stats[c] == 0
    {
      assert CategoryNames[..i + 1] == CategoryNames[..i] + [CategoryNames[i]];
      stats := stats[CategoryNames[i] := 0];
      i := i + 1;
    }
    assert CategoryNames[..i] == CategoryNames;
  }

  /** The counting loop: each document whose category has an entry adds
      one to it. */
  method CountDocuments(zero: map<string, nat>, docs: seq<Document>) returns (stats: map<string, nat>)
    requires forall c :: c in zero ==> zero[c] == 0
    ensures stats.Keys == zero.Keys
    ensures forall c :: c in stats ==> stats[c] == CountIn(docs, c)
  {
    stats := zero;
    var k := 0;
    while k < |docs|
      invariant k <= |docs|
      invariant stats.Keys == zero.Keys
      invariant forall c :: c in stats ==> stats[c] == CountIn(docs[..k], c)
    {
      forall c ensures CountIn(docs[..k + 1], c) == CountIn(docs[..k], c) + (if docs[k].category == c then 1 else 0) {
        CountInNext(docs, k, c);
      }
      var c := docs[k].category;
      if c in stats {
        stats := stats[c := stats[c] + 1];
      }
      k := k + 1;
    }
    assert docs[..k] == docs;
  }

  /** get_category_stats, counts only: one entry per category, holding the
      number of listed documents in it. */
  method GetCategoryStats(vaultDir: string, dirs: map<string, seq<Entry>>) returns (stats: map<string, nat>)
    ensures forall c :: c in stats <==> c in CategoryNames
    ensures forall c :: c in stats ==> stats[c] == CountIn(Listing(vaultDir, dirs, None), c)
  {
    var zero := ZeroStats();
    var docs := GetVaultDocuments(vaultDir, dirs, None);
    stats := CountDocuments(zero, docs);
  }

  /** The counts of the given categories, added up. */
  function SumCounts(names: seq<string>, docs: seq<Document>): nat {
    if names == [] then 0 else CountIn(docs, names[0]) + SumCounts(names[1..], docs)
  }

  /** How often c is among the names. */
  function Occurrences(names: seq<string>, c: string): nat {
    if names == [] then 0 else (if names[0] == c then 1 else 0) + Occurrences(names[1..], c)
  }

  lemma {:induction false} SumCountsSnoc(names: seq<string>, docs: seq<Document>, d: Document)
    ensures SumCounts(names, docs + [d]) == SumCounts(names, docs) + Occurrences(names, d.category)
    decreases |names|
  {
    if names != [] {
      assert (docs + [d])[..|docs|] == docs;
      SumCountsSnoc(names[1..], docs, d);
    }
  }

  lemma {:induction false} OccursOnce(names: seq<string>, c: string)
    requires forall i, j :: 0 <= i < j < |names| ==> names[i] != names[j]
    requires c in names
    ensures Occurrences(names, c) == 1
    decreases |names|
  {
    if names[0] == c {
      NotOccurring(names[1..], c);
    } else {
      OccursOnce(names[1..], c);
    }
  }

  lemma {:induction false} NotOccurring(names: seq<string>, c: string)
    requires c !in names
    ensures Occurrences(names, c) == 0
    decreases |names|
  {
    if names != [] {
      NotOccurring(names[1..], c);
    }
  }

  lemma CategoryNamesDistinct()
    ensures forall i, j :: 0 <= i < j < |CategoryNames| ==> CategoryNames[i] != CategoryNames[j]
  {
  }

  /** Counting per category counts every document once when each is in
      exactly one of the categories. */
  lemma {:induction false} CountsSumToTotal(docs: seq<Document>)
    requires forall k :: 0 <= k < |docs| ==> docs[k].category in CategoryNames
    ensures SumCounts(CategoryNames, docs) == |docs|
    decreases |docs|
  {
    if docs == [] {
      ZeroCounts(CategoryNames);
    } else {
      var init := docs[..|docs| - 1];
      var d := docs[|docs| - 1];
      assert docs == init + [d];
      CountsSumToTotal(init);
      SumCountsSnoc(CategoryNames, init, d);
      CategoryNamesDistinct();
      OccursOnce(CategoryNames, d.category);
    }
  }

  lemma {:induction false} ZeroCounts(names: seq<string>)
    ensures SumCounts(names, []) == 0
    decreases |names|
  {
    if names != [] {
      ZeroCounts(names[1..]);
    }
  }

  /** The per-category counts add up to the number of listed documents. */
  lemma StatsCountEveryDocument(vaultDir: string, dirs: map<string, seq<Entry>>)
    ensures SumCounts(CategoryNames, Listing(vaultDir, dirs, None)) == |Listing(vaultDir, dirs, None)|
  {
    var docs := Listing(vaultDir, dirs, None);
    forall k | 0 <= k < |docs| ensures docs[k].category in CategoryNames {
      ListingCategories(vaultDir, dirs, None, docs[k]);
    }
    CountsSumToTotal(docs);
  }

  // ---- export ----------------------------------------------------------

  const DocumentNotFound := "Document not found"

  /** export_document: the shared checks, then a copy under the
      document's original name. */
  method ExportDocument(existing: set<string>, writable: set<string>, documentPath: string, folder: Option<string>)
    returns (r: Export.ExportResult, after: set<string>)
    ensures documentPath !in existing ==> r == Export.ExportFailed(DocumentNotFound, false) && after == existing
    ensures Export.Refusal(documentPath in existing, DocumentNotFound, folder, existing, writable).Some? ==>
      r.ExportFailed? && after == existing
    ensures Export.Refusal(documentPath in existing, DocumentNotFound, folder, existing, writable).None? ==>
      && r.Exported? && r.originalName == OriginalName(Paths.Basename(documentPath))
      && Export.Placed(existing, Paths.Join(folder.value, r.originalName), r.exportPath)
      && after == existing + {r.exportPath}
  {
    var originalName := OriginalName(Paths.Basename(documentPath));
    r, after := Export.ExportFile(existing, writable, documentPath in existing, DocumentNotFound, originalName, folder);
  }

  // ---- preview -----------------------------------------------------------

  const TextExtensions: set<string> := {".txt", ".md", ".py", ".js", ".html", ".css", ".json",
                                        ".xml", ".yaml", ".yml", ".sql", ".log", ".ini", ".cfg", ".conf"}

  const NotPreviewable := "Preview not available for this file type"
  const NotDecodable := "Could not decode file content"
  /** What Python reports when `i` is read before the loop ever bound it. */
  const UnboundLineIndex := "cannot access local variable 'i' where it is not associated with a value"

  datatype Preview = Previewed(content: string, totalLines: nat, truncated: bool) | NoPreview(error: string)

  /** A file read in text mode with universal newlines: each "\r\n" pair
      and each lone '\r' reads as '\n'. */
  function Universal(text: string): (r: string)
    ensures '\r' !in r && |r| <= |text|
    ensures |r| == 0 <==> |text| == 0
  {
    if text == [] then []
    else if text[0] == '\r' then "\n" + Universal(if |text| > 1 && text[1] == '\n' then text[2..] else text[1..])
    else [text[0]] + Universal(text[1..])
  }

  /** A text without carriage returns reads as it is. */
  lemma {:induction false} UniversalKeepsPlainText(text: string)
    requires '\r' !in text
    ensures Universal(text) == text
  {
    if text != [] {
      assert '\r' !in text[1..] by {
        forall c | c in text[1..] ensures c != '\r' { assert c in text; }
      }
      UniversalKeepsPlainText(text[1..]);
    }
  }

  /** Reading the translated text again changes nothing. */
  lemma UniversalIdempotent(text: string)
    ensures Universal(Universal(text)) == Universal(text)
  {
    UniversalKeepsPlainText(Universal(text));
  }

  /** The lines iterating a text file yields, without their line breaks:
      the pieces of the translated text between '\n's, less the empty
      piece after a final break. */
  function FileLines(text: string): (r: seq<string>)
    ensures forall k :: 0 <= k < |r| ==> '\n' !in r[k]
  {
    LinesOf(Universal(text))
  }

  function LinesOf(u: string): (r: seq<string>)
    ensures forall k :: 0 <= k < |r| ==> '\n' !in r[k]
  {
    var pieces := Split(u, '\n');
    if pieces[|pieces| - 1] == "" then pieces[..|pieces| - 1] else pieces
  }

  /** No line keeps a carriage return. */
  lemma FileLinesHaveNoReturn(text: string)
    ensures forall k :: 0 <= k < |FileLines(text)| ==> '\r' !in FileLines(text)[k]
  {
    SplitAvoids(Universal(text), '\n', '\r');
  }

  /** A lone '\r' and a "\r\n" pair each read as one line break. */
  lemma ReturnsReadAsBreaks()
    ensures Universal("a\rb\r\nc") == "a\nb\nc"
  {
    var t := "a\rb\r\nc";
    assert t[1..][1..][1..][2..] == "c" && Universal("c") == "c";
    assert Universal(t[1..][1..][1..]) == "\nc";
    assert Universal(t[1..][1..]) == "b\nc";
    assert Universal(t[1..]) == "\nb\nc";
  }

  /** A character missing from a text is missing from each of its pieces. */
  lemma {:induction false} SplitAvoids(s: string, sep: char, c: char)
    requires c !in s
    ensures forall k :: 0 <= k < |Split(s, sep)| ==> c !in Split(s, sep)[k]
    decreases |s|
  {
    if sep in s {
      var i := IndexOfChar(s, sep);
      assert s == s[..i] + [sep] + s[i + 1..];
      SplitAvoids(s[i + 1..], sep, c);
    }
  }

  /** The text ends where its last piece does, after the break before it. */
  lemma SplitLast(text: string)
    ensures var pieces := Split(text, '\n');
      |pieces| > 1 ==> text == Join(pieces[..|pieces| - 1], "\n") + "\n" + pieces[|pieces| - 1]
    ensures var pieces := Split(text, '\n'); |pieces| == 1 ==> text == pieces[0]
  {
    var pieces := Split(text, '\n');
    SplitJoin(text, '\n');
    if |pieces| > 1 {
      JoinLast(pieces, "\n");
    }
  }

  lemma JoinLast(pieces: seq<string>, sep: string)
    requires |pieces| > 1
    ensures Join(pieces, sep) == Join(pieces[..|pieces| - 1], sep) + sep + pieces[|pieces| - 1]
  {
    var init := pieces[..|pieces| - 1];
    assert pieces == init + [pieces[|pieces| - 1]];
    JoinSnoc(init, pieces[|pieces| - 1], sep);
  }

  /** A text ends with a line break exactly when its last piece is empty. */
  lemma EndsWithBreak(text: string)
    ensures var pieces := Split(text, '\n');
      (text != [] && text[|text| - 1] == '\n') <==> (|pieces| > 1 && pieces[|pieces| - 1] == "")
  {
    var pieces := Split(text, '\n');
    var last := pieces[|pieces| - 1];
    SplitLast(text);
    if last != "" {
      assert text[|text| - 1] == last[|last| - 1];
      assert last[|last| - 1] in last;
    }
  }

  /** The lines and the final line break, if any, give back the translated
      text. */
  lemma FileLinesRebuild(text: string)
    ensures var u := Universal(text);
      Join(FileLines(text), "\n") + (if u != [] && u[|u| - 1] == '\n' then "\n" else "") == u
  {
    PiecesRebuild(Universal(text));
  }

  /** The pieces between line breaks, less an empty last one, and the final
      break give back the text. */
  lemma PiecesRebuild(u: string)
    ensures Join(LinesOf(u), "\n") + (if u != [] && u[|u| - 1] == '\n' then "\n" else "") == u
  {
    var pieces := Split(u, '\n');
    SplitLast(u);
    EndsWithBreak(u);
    if |pieces| > 1 && pieces[|pieces| - 1] != "" {
      JoinLast(pieces, "\n");
    }
  }

  function RStripAll(lines: seq<string>): (r: seq<string>)
    ensures |r| == |lines|
    ensures forall k :: 0 <= k < |r| ==> r[k] == RStrip(lines[k])
  {
    if lines == [] then [] else [RStrip(lines[0])] + RStripAll(lines[1..])
  }

  /** The preview of a text whose lines are counted from zero: at most
      maxLines right-stripped lines, the number of lines read, and whether
      the file went on past them. An empty file previews as empty. */
  function PreviewOf(path: string, text: Option<string>, maxLines: nat): (r: Preview)
  {
    if FileExt(path) !in TextExtensions then NoPreview(NotPreviewable)
    else if text.None? then NoPreview(NotDecodable)
    else
      var lines := FileLines(text.value);
      Previewed(Join(RStripAll(lines[..Min(|lines|, maxLines)]), "\n"),
                Min(|lines|, maxLines + 1), |lines| > maxLines)
  }

  /** get_document_preview as written: the total is read from the loop's
      index, which an empty file never binds. */
  function PreviewAsWritten(path: string, text: Option<string>, maxLines: nat): (r: Preview)
    ensures r != PreviewOf(path, text, maxLines) ==> r == NoPreview(UnboundLineIndex)
  {
    if FileExt(path) in TextExtensions && text.Some? && FileLines(text.value) == [] then NoPreview(UnboundLineIndex)
    else PreviewOf(path, text, maxLines)
  }

  /** An empty text file: the code as written fails, the preview intended
      shows nothing, zero lines and no truncation. */
  lemma EmptyFilePreviewFails(path: string, maxLines: nat)
    requires FileExt(path) in TextExtensions
    ensures PreviewAsWritten(path, Some(""), maxLines) == NoPreview(UnboundLineIndex)
    ensures PreviewOf(path, Some(""), maxLines) == Previewed("", 0, false)
  {
    assert Split("", '\n') == [""];
  }

  /** Text files are previewed when they decode; the preview is truncated
      exactly when the file has more than maxLines lines, and counts the
      lines up to one past the limit. */
  lemma PreviewTruncation(path: string, text: Option<string>, maxLines: nat)
    ensures PreviewOf(path, text, maxLines).Previewed? <==> FileExt(path) in TextExtensions && text.Some?
    ensures PreviewOf(path, text, maxLines).Previewed? ==>
      var n := |FileLines(text.value)|;
      && (PreviewOf(path, text, maxLines).truncated <==> n > maxLines)
      && PreviewOf(path, text, maxLines).totalLines == (if n > maxLines then maxLines + 1 else n)
  {
  }

  lemma RStripNoBreak(lines: seq<string>)
    requires forall k :: 0 <= k < |lines| ==> '\n' !in lines[k]
    ensures forall k :: 0 <= k < |lines| ==> '\n' !in RStripAll(lines)[k]
  {
    forall k | 0 <= k < |lines| ensures '\n' !in RStripAll(lines)[k] {
      var s := RStrip(lines[k]);
      assert s == lines[k][..|s|];
    }
  }

  /** A non-empty preview shows, line for line, the first maxLines lines
      of the file with trailing blanks removed. */
  lemma PreviewShowsLeadingLines(path: string, text: Option<string>, maxLines: nat)
    requires PreviewOf(path, text, maxLines).Previewed?
    requires FileLines(text.value) != [] && maxLines > 0
    ensures var lines := FileLines(text.value);
      var shown := Split(PreviewOf(path, text, maxLines).content, '\n');
      && |shown| == Min(|lines|, maxLines)
      && forall k :: 0 <= k < |shown| ==> shown[k] == RStrip(lines[k])
  {
    var lines := FileLines(text.value);
    var kept := RStripAll(lines[..Min(|lines|, maxLines)]);
    RStripNoBreak(lines[..Min(|lines|, maxLines)]);
    JoinSplit(kept, '\n');
  }

  /** The read loop of get_document_preview: a line is kept, right
      stripped, while its index is below maxLines; the index that reaches
      maxLines stops the loop. */
  method ReadLines(lines: seq<string>, maxLines: nat) returns (kept: seq<string>, i: nat, stopped: bool)
    ensures kept == RStripAll(lines[..Min(|lines|, maxLines)])
    ensures stopped <==> |lines| > maxLines
    ensures i == Min(|lines|, maxLines)
  {
    kept := [];
    i := 0;
    stopped := false;
    while i < |lines| && !stopped
      invariant i <= |lines| && i <= maxLines
      invariant |kept| == i && forall k :: 0 <= k < i ==> kept[k] == RStrip(lines[k])
      invariant stopped ==> i == maxLines && i < |lines|
      decreases |lines| - i + (if stopped then 0 else 1)
    {
      if i >= maxLines {
        stopped := true;
      } else {
        kept := kept + [RStrip(lines[i])];
        i := i + 1;
      }
    }
  }

  /** get_document_preview, with the empty file previewed as empty. */
  method GetDocumentPreview(path: string, text: Option<string>, maxLines: nat) returns (r: Preview)
    ensures r == PreviewOf(path, text, maxLines)
  {
    if FileExt(path) !in TextExtensions {
      return NoPreview(NotPreviewable);
    }
    if text.None? {
      return NoPreview(NotDecodable);
    }
    var lines := FileLines(text.value);
    var kept, i, stopped := ReadLines(lines, maxLines);
    r := Previewed(Join(kept, "\n"), if stopped then i + 1 else i, stopped);
  }
}
