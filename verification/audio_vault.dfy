/** The audio vault (audio_vault_core.py): a metadata dictionary keyed by
    an id made from the time of import, kept in insertion order, with
    add, delete, export and tag updates, a searchable and sortable
    listing, and statistics. The tag reader (mutagen), the album-art
    extractor, the clock and the filesystem's sizes are parameters; `disk`
    is the set of paths that exist. Durations are whole seconds. */
module AudioVault {
  import opened Wrappers
  import opened Strings
  import Paths
  import Sorting

  /** The audio extensions and the format each names. */
  const AudioExtensions: map<string, string> := map[
    ".mp3" := "MP3 Audio", ".aac" := "AAC Audio", ".m4a" := "M4A Audio", ".ogg" := "OGG Audio",
    ".wma" := "WMA Audio", ".opus" := "Opus Audio", ".3gp" := "3GP Audio",
    ".flac" := "FLAC Audio", ".wav" := "WAV Audio", ".aiff" := "AIFF Audio", ".ape" := "APE Audio",
    ".alac" := "ALAC Audio",
    ".mid" := "MIDI", ".midi" := "MIDI", ".ra" := "RealAudio", ".au" := "AU Audio", ".gsm" := "GSM Audio",
    ".dss" := "DSS Audio", ".msv" := "MSV Audio", ".dvf" := "DVF Audio", ".amr" := "AMR Audio",
    ".awb" := "AWB Audio"]

  const UnknownAudio := "Unknown Audio"
  const NotValidAudio := "Not a valid audio file"
  const AudioNotFound := "Audio file not found"
  const NotOnDisk := "File not found on disk"

  /** Files added within this many seconds count as recent. */
  const RecentWindow := 7 * 24 * 60 * 60

  /** The lower-cased extension, as splitext gives it. */
  function AudioExt(path: string): string { Lower(Paths.Ext(path)) }

  /** is_audio_file: the path exists and its extension is listed. */
  predicate IsAudioFile(path: string, disk: set<string>) {
    path in disk && AudioExt(path) in AudioExtensions
  }

  /** get_audio_format: the listed format, else "Unknown Audio". */
  function GetAudioFormat(path: string): (r: string)
    ensures r == UnknownAudio <==> AudioExt(path) !in AudioExtensions
    ensures AudioExt(path) in AudioExtensions ==> r == AudioExtensions[AudioExt(path)]
  {
    var e := AudioExt(path);
    if e in AudioExtensions then
      UnknownIsNoFormat(e);
      AudioExtensions[e]
    else UnknownAudio
  }

  /** No listed extension names the "Unknown Audio" format. */
  lemma UnknownIsNoFormat(e: string)
    requires e in AudioExtensions
    ensures AudioExtensions[e] != UnknownAudio
  {
  }

  /** An existing file is an audio file exactly when it has a known format. */
  lemma AudioFileIffKnownFormat(path: string, disk: set<string>)
    requires path in disk
    ensures IsAudioFile(path, disk) <==> GetAudioFormat(path) != UnknownAudio
  {
  }

  // ---- records ---------------------------------------------------------

  /** What the tag reader extracted: the format, the size in bytes, the
      duration (None when unknown) and the tag fields in order. */
  datatype AudioMeta = AudioMeta(format: string, fileSize: nat, duration: Option<nat>, fields: seq<(string, string)>)

  datatype AudioRecord = AudioRecord(
    id: string, originalFilename: string, vaultFilename: string, vaultPath: string,
    addedAt: int, metadata: AudioMeta, thumbnailPath: Option<string>, tags: seq<string>)

  /** The vault file's name: "audio_<id>" and the original extension. */
  function VaultFilename(id: string, source: string): string {
    "audio_" + id + Paths.Ext(Paths.Basename(source))
  }

  /** The record add_audio_file stores. */
  function NewRecord(vaultDir: string, id: string, source: string, addedAt: int, fileSize: nat,
                     duration: Option<nat>, fields: seq<(string, string)>, thumbnail: Option<string>): AudioRecord
  {
    var name := VaultFilename(id, source);
    var path := Paths.Join(vaultDir, name);
    AudioRecord(id, Paths.Basename(source), name, path, addedAt,
                AudioMeta(GetAudioFormat(path), fileSize, duration, fields), thumbnail, [])
  }

  /** The vault file keeps the source's extension, hence its format: the
      id made of digits and underscores adds no extension of its own. */
  lemma StoredFormatMatches(vaultDir: string, id: string, source: string)
    requires StampShape(id) && AudioExt(source) in AudioExtensions
    ensures Paths.Ext(Paths.Join(vaultDir, VaultFilename(id, source))) == Paths.Ext(source)
    ensures GetAudioFormat(Paths.Join(vaultDir, VaultFilename(id, source))) == GetAudioFormat(source)
  {
    var base := Paths.Basename(source);
    var e := Paths.Ext(base);
    Paths.ExtOfBasename(source);
    Paths.ExtShape(base);
    ListedExtNonEmpty(source);
    StampStem(id);
    Paths.ExtOfStemAndExt(vaultDir, "audio_" + id, e);
    assert "audio_" + id + e == VaultFilename(id, source);
  }

  lemma ListedExtNonEmpty(path: string)
    requires AudioExt(path) in AudioExtensions
    ensures Paths.Ext(path) != []
  {
    assert "" !in AudioExtensions;
  }

  /** "audio_<id>" has neither dots nor slashes. */
  lemma StampStem(id: string)
    requires StampShape(id)
    ensures '.' !in "audio_" + id && '/' !in "audio_" + id
  {
    var stem := "audio_" + id;
    forall k | 0 <= k < |stem| ensures stem[k] != '.' && stem[k] != '/' {
      if k >= 6 {
        var j := k - 6;
        assert stem[k] == id[j];
        if j < 8 { assert id[..8][j] == id[j]; }
        else if 8 < j < 15 { assert id[9..15][j - 9] == id[j]; }
        else if 15 < j { assert id[16..][j - 16] == id[j]; }
      }
    }
  }

  /** The thumbnail a record names, which deletion removes when present. */
  function ThumbnailFiles(r: AudioRecord): set<string> {
    if r.thumbnailPath.Some? && r.thumbnailPath.value != "" then {r.thumbnailPath.value} else {}
  }

  // ---- the listing -----------------------------------------------------

  /** The tag fields as the search text lists them: "field value " each. */
  function FieldsText(fields: seq<(string, string)>): string {
    if fields == [] then "" else fields[0].0 + " " + fields[0].1 + " " + FieldsText(fields[1..])
  }

  /** The text a search looks in: the original name and the tag fields. */
  function SearchText(r: AudioRecord): string {
    r.originalFilename + " " + FieldsText(r.metadata.fields)
  }

  /** A record passes the search: no query (None or empty), or the query
      occurs in its search text, both lower-cased. */
  predicate Matches(r: AudioRecord, query: Option<string>) {
    query.None? || query.value == "" || Contains(Lower(SearchText(r)), Lower(query.value))
  }

  /** Two digits, zero-padded. */
  function Pad2(n: nat): (r: string)
    requires n < 100
    ensures |r| == 2 && AllDigits(r)
  {
    if n < 10 then "0" + NatToString(n) else NatToString(n)
  }

  /** duration_str: "m:ss" for a known non-zero duration, else "Unknown". */
  function DurationStr(d: Option<nat>): string {
    if d.Some? && d.value != 0 then NatToString(d.value / 60) + ":" + Pad2(d.value % 60) else "Unknown"
  }

  /** Reads an "m:ss" text back into seconds. */
  function ParseDuration(t: string): Option<nat> {
    if |t| < 4 || t[|t| - 3] != ':' then None
    else
      match (ParseNat(t[..|t| - 3]), ParseNat(t[|t| - 2..]))
      case (Some(m), Some(s)) => if s < 60 then Some(m * 60 + s) else None
      case _ => None
  }

  lemma Pad2Value(n: nat)
    requires n < 100
    ensures ParseNat(Pad2(n)) == Some(n)
  {
    ParseNatToString(n);
    if n < 10 {
      var p := Pad2(n);
      assert p[..1] == "0" && p[1..] == NatToString(n);
      assert p[..|p| - 1] == "0";
      assert DigitsValue("0") == 0 by { assert "0"[..0] == []; }
    }
  }

  /** The duration text reads back as the duration; "Unknown" reads as nothing. */
  lemma DurationStrRoundTrip(d: Option<nat>)
    ensures d.Some? && d.value != 0 ==> ParseDuration(DurationStr(d)) == d
    ensures !(d.Some? && d.value != 0) ==> ParseDuration(DurationStr(d)) == None
  {
    if d.Some? && d.value != 0 {
      var m, s := NatToString(d.value / 60), Pad2(d.value % 60);
      var t := m + ":" + s;
      assert t[..|t| - 3] == m && t[|t| - 3] == ':' && t[|t| - 2..] == s;
      ParseNatToString(d.value / 60);
      Pad2Value(d.value % 60);
    } else {
      assert "Unknown"[|"Unknown"| - 3] != ':';
    }
  }

  /** A record as the listing shows it. The size in megabytes is left out. */
  datatype AudioDisplay = AudioDisplay(record: AudioRecord, displayName: string, formatInfo: string, durationStr: string)

  function Display(r: AudioRecord): AudioDisplay {
    AudioDisplay(r, r.originalFilename, r.metadata.format, DurationStr(r.metadata.duration))
  }

  /** The records that pass the search, in dictionary order. */
  function Matching(recs: seq<AudioRecord>, query: Option<string>): seq<AudioDisplay> {
    if recs == [] then []
    else
      var init := Matching(recs[..|recs| - 1], query);
      var r := recs[|recs| - 1];
      if Matches(r, query) then init + [Display(r)] else init
  }

  lemma MatchingNext(recs: seq<AudioRecord>, i: nat, query: Option<string>)
    requires i < |recs|
    ensures Matching(recs[..i + 1], query)
         == Matching(recs[..i], query) + (if Matches(recs[i], query) then [Display(recs[i])] else [])
  {
    assert recs[..i + 1][..i] == recs[..i];
  }

  /** Exactly the matching records are listed. */
  lemma {:induction false} MatchingSound(recs: seq<AudioRecord>, query: Option<string>, x: AudioDisplay)
    requires x in Matching(recs, query)
    ensures exists k :: 0 <= k < |recs| && Matches(recs[k], query) && x == Display(recs[k])
    decreases |recs|
  {
    var init := recs[..|recs| - 1];
    if x in Matching(init, query) {
      MatchingSound(init, query, x);
      var k :| 0 <= k < |init| && Matches(init[k], query) && x == Display(init[k]);
      assert init[k] == recs[k];
    } else {
      assert Matches(recs[|recs| - 1], query) && x == Display(recs[|recs| - 1]);
    }
  }

  lemma {:induction false} MatchingFind(recs: seq<AudioRecord>, query: Option<string>, k: nat)
    requires k < |recs| && Matches(recs[k], query)
    ensures Display(recs[k]) in Matching(recs, query)
    decreases |recs|
  {
    var init := recs[..|recs| - 1];
    if k < |init| {
      assert init[k] == recs[k];
      MatchingFind(init, query, k);
    }
  }

  /** Without a query every record is listed, in order. */
  lemma {:induction false} NoQueryListsAll(recs: seq<AudioRecord>)
    ensures |Matching(recs, None)| == |recs|
    ensures forall k :: 0 <= k < |recs| ==> Matching(recs, None)[k] == Display(recs[k])
    decreases |recs|
  {
    if recs != [] {
      var init := recs[..|recs| - 1];
      NoQueryListsAll(init);
      forall k | 0 <= k < |init| ensures init[k] == recs[k] { }
    }
  }

  function AddedKey(x: AudioDisplay): int { x.record.addedAt }
  function SizeKey(x: AudioDisplay): int { x.record.metadata.fileSize }
  function NameKey(x: AudioDisplay): string { Lower(x.record.originalFilename) }
  /** metadata.get('duration', 0), with an unknown duration taken as 0. */
  function DurationKey(x: AudioDisplay): int { x.record.metadata.duration.GetOr(0) }

  /** The sort orders: newest, largest and longest first; names ascending
      case-insensitively; any other order name leaves the list as is. */
  function SortFiles(files: seq<AudioDisplay>, sortBy: string): seq<AudioDisplay> {
    if sortBy == "added_date" then Sorting.SortDescBy(files, AddedKey)
    else if sortBy == "filename" then Sorting.SortAscByText(files, NameKey)
    else if sortBy == "size" then Sorting.SortDescBy(files, SizeKey)
    else if sortBy == "duration" then Sorting.SortDescBy(files, DurationKey)
    else files
  }

  /** Every order lists the same entries. */
  lemma SortFilesPermutes(files: seq<AudioDisplay>, sortBy: string)
    ensures multiset(SortFiles(files, sortBy)) == multiset(files)
  {
  }

  /** Each order name sorts by its key. */
  lemma SortFilesOrders(files: seq<AudioDisplay>, sortBy: string)
    ensures var r := SortFiles(files, sortBy);
      && (sortBy == "added_date" ==> forall i, j :: 0 <= i < j < |r| ==> r[i].record.addedAt >= r[j].record.addedAt)
      && (sortBy == "size" ==> forall i, j :: 0 <= i < j < |r| ==> r[i].record.metadata.fileSize >= r[j].record.metadata.fileSize)
      && (sortBy == "duration" ==> forall i, j :: 0 <= i < j < |r| ==> DurationKey(r[i]) >= DurationKey(r[j]))
      && (sortBy == "filename" ==> forall i, j :: 0 <= i < j < |r| ==> LexLe(NameKey(r[i]), NameKey(r[j])))
  {
    var r := SortFiles(files, sortBy);
    if sortBy == "added_date" {
      assert Sorting.SortedDescBy(r, AddedKey);
    } else if sortBy == "size" {
      assert Sorting.SortedDescBy(r, SizeKey);
    } else if sortBy == "duration" {
      assert Sorting.SortedDescBy(r, DurationKey);
    } else if sortBy == "filename" {
      assert Sorting.SortedAscByText(r, NameKey);
    }
  }

  /** get_audio_files as written: sorting by duration compares the raw
      values, and None cannot be compared, so with two or more entries
      one unknown duration raises and the whole listing becomes []. */
  function SortFilesAsWritten(files: seq<AudioDisplay>, sortBy: string): seq<AudioDisplay> {
    if sortBy == "duration" && |files| >= 2 && exists k :: 0 <= k < |files| && files[k].record.metadata.duration.None?
    then []
    else SortFiles(files, sortBy)
  }

  /** One file of unknown duration empties the whole duration-sorted list. */
  lemma DurationSortLosesListing(files: seq<AudioDisplay>, k: nat)
    requires |files| >= 2 && k < |files| && files[k].record.metadata.duration.None?
    ensures SortFilesAsWritten(files, "duration") == []
    ensures |SortFiles(files, "duration")| == |files|
  {
  }

  /** The records in dictionary order. */
  function InOrder(records: map<string, AudioRecord>, ids: seq<string>): (r: seq<AudioRecord>)
    requires forall k :: 0 <= k < |ids| ==> ids[k] in records
    ensures |r| == |ids| && forall k :: 0 <= k < |ids| ==> r[k] == records[ids[k]]
  {
    if ids == [] then [] else [records[ids[0]]] + InOrder(records, ids[1..])
  }

  // ---- statistics ------------------------------------------------------

  /** One more file of format f. */
  function Incr(m: map<string, nat>, f: string): (r: map<string, nat>)
    ensures r.Keys == m.Keys + {f}
  {
    m[f := (if f in m then m[f] else 0) + 1]
  }

  /** How many of the records have format f. */
  function CountFormat(recs: seq<AudioRecord>, f: string): nat {
    if recs == [] then 0
    else CountFormat(recs[..|recs| - 1], f) + (if recs[|recs| - 1].metadata.format == f then 1 else 0)
  }

  /** The per-format counts: exactly the formats present, each with its count. */
  function FormatCounts(recs: seq<AudioRecord>): (r: map<string, nat>)
    ensures forall f :: f in r <==> CountFormat(recs, f) > 0
    ensures forall f :: f in r ==> r[f] == CountFormat(recs, f)
  {
    if recs == [] then map[]
    else Incr(FormatCounts(recs[..|recs| - 1]), recs[|recs| - 1].metadata.format)
  }

  /** The number of records added within the window before `now`. */
  function RecentCount(recs: seq<AudioRecord>, now: int): (n: nat)
    ensures n <= |recs|
  {
    if recs == [] then 0
    else RecentCount(recs[..|recs| - 1], now) + (if recs[|recs| - 1].addedAt > now - RecentWindow then 1 else 0)
  }

  /** The sum of a map's values. */
  ghost function MapSum(m: map<string, nat>): nat
    decreases |m.Keys|
  {
    if m == map[] then 0
    else
      var k :| k in m;
      assert |(m - {k}).Keys| < |m.Keys| by { assert (m - {k}).Keys == m.Keys - {k}; }
      m[k] + MapSum(m - {k})
  }

  /** Any key can be taken out first. */
  lemma {:induction false} MapSumRemove(m: map<string, nat>, k: string)
    requires k in m
    ensures MapSum(m) == m[k] + MapSum(m - {k})
    decreases |m.Keys|
  {
    var j :| j in m && MapSum(m) == m[j] + MapSum(m - {j});
    if j != k {
      assert (m - {j}).Keys == m.Keys - {j};
      assert (m - {k}).Keys == m.Keys - {k};
      MapSumRemove(m - {j}, k);
      MapSumRemove(m - {k}, j);
      assert (m - {j}) - {k} == (m - {k}) - {j};
    }
  }

  lemma MapSumIncr(m: map<string, nat>, f: string)
    ensures MapSum(Incr(m, f)) == MapSum(m) + 1
  {
    var r := Incr(m, f);
    MapSumRemove(r, f);
    if f in m {
      MapSumRemove(m, f);
      assert r - {f} == m - {f};
    } else {
      assert r - {f} == m;
    }
  }

  /** The per-format counts add up to the number of records. */
  lemma {:induction false} FormatCountsTotal(recs: seq<AudioRecord>)
    ensures MapSum(FormatCounts(recs)) == |recs|
    decreases |recs|
  {
    if recs == [] {
    } else {
      FormatCountsTotal(recs[..|recs| - 1]);
      MapSumIncr(FormatCounts(recs[..|recs| - 1]), recs[|recs| - 1].metadata.format);
    }
  }
  /** The dictionary's keys in insertion order: each key once, all keys. */
  ghost predicate IdsMatch(records: map<string, AudioRecord>, ids: seq<string>) {
    && (forall k :: 0 <= k < |ids| ==> ids[k] in records)
    && (forall id :: id in records ==> id in ids)
    && (forall j, k :: 0 <= j < k < |ids| ==> ids[j] != ids[k])
  }

  lemma {:induction false} DistinctCount(ids: seq<string>)
    requires forall j, k :: 0 <= j < k < |ids| ==> ids[j] != ids[k]
    ensures |set x | x in ids| == |ids|
    decreases |ids|
  {
    if ids != [] {
      var init := ids[..|ids| - 1];
      var last := ids[|ids| - 1];
      assert ids == init + [last];
      assert forall k :: 0 <= k < |init| ==> init[k] == ids[k];
      DistinctCount(init);
      assert (set x | x in ids) == (set x | x in init) + {last};
      assert last !in init;
    }
  }

  /** get_vault_statistics: the per-format counts add up to total_files. */
  lemma FormatsSumToTotal(records: map<string, AudioRecord>, ids: seq<string>)
    requires IdsMatch(records, ids)
    ensures MapSum(FormatCounts(InOrder(records, ids))) == |records|
  {
    FormatCountsTotal(InOrder(records, ids));
    DistinctCount(ids);
    assert records.Keys == set x | x in ids;
  }

  /** The keys after one is deleted, the order of the rest kept. */
  function RemoveId(ids: seq<string>, id: string): (r: seq<string>)
    ensures forall x :: x in r <==> x in ids && x != id
    ensures forall k :: 0 <= k < |r| ==> r[k] != id
  {
    if ids == [] then []
    else (if ids[0] == id then [] else [ids[0]]) + RemoveId(ids[1..], id)
  }

  lemma {:induction false} RemoveIdDistinct(ids: seq<string>, id: string)
    requires forall j, k :: 0 <= j < k < |ids| ==> ids[j] != ids[k]
    ensures var r := RemoveId(ids, id); forall j, k :: 0 <= j < k < |r| ==> r[j] != r[k]
    decreases |ids|
  {
    if ids != [] {
      var rest := ids[1..];
      RemoveIdDistinct(rest, id);
      assert ids[0] !in rest by {
        forall k | 0 <= k < |rest| ensures rest[k] != ids[0] { assert rest[k] == ids[k + 1]; }
      }
      assert ids[0] !in RemoveId(rest, id);
    }
  }

  /** Storing a record keeps the keys and the order consistent: a new key
      goes last, an existing one keeps its place. */
  lemma StoreKeepsMatch(records: map<string, AudioRecord>, ids: seq<string>, id: string, rec: AudioRecord)
    requires IdsMatch(records, ids)
    ensures IdsMatch(records[id := rec], if id in records then ids else ids + [id])
  {
    if id !in records {
      var ids' := ids + [id];
      forall j, k | 0 <= j < k < |ids'| ensures ids'[j] != ids'[k] {
        if k == |ids| {
          assert ids'[j] == ids[j] && ids[j] in records;
        }
      }
    }
  }

  lemma StatsNext(recs: seq<AudioRecord>, i: nat, now: int)
    requires i < |recs|
    ensures FormatCounts(recs[..i + 1]) == Incr(FormatCounts(recs[..i]), recs[i].metadata.format)
    ensures RecentCount(recs[..i + 1], now) == RecentCount(recs[..i], now) + (if recs[i].addedAt > now - RecentWindow then 1 else 0)
  {
    assert recs[..i + 1][..i] == recs[..i];
  }

  /** Deleting a record keeps the keys and the order consistent. */
  lemma RemoveKeepsMatch(records: map<string, AudioRecord>, ids: seq<string>, id: string)
    requires IdsMatch(records, ids)
    ensures IdsMatch(records - {id}, RemoveId(ids, id))
  {
    RemoveIdDistinct(ids, id);
    var r := RemoveId(ids, id);
    forall k | 0 <= k < |r| ensures r[k] in records - {id} {
      assert r[k] in r;
    }
  }

  /** The search loop of get_audio_files over the records in order. */
  method MatchingRecords(recs: seq<AudioRecord>, query: Option<string>) returns (files: seq<AudioDisplay>)
    ensures files == Matching(recs, query)
  {
    files := [];
    var i := 0;
    while i < |recs|
      invariant i <= |recs|
      invariant files == Matching(recs[..i], query)
    {
      MatchingNext(recs, i, query);
      if Matches(recs[i], query) {
        files := files + [Display(recs[i])];
      }
      i := i + 1;
    }
    assert recs[..i] == recs;
  }

  class Vault {
    const vaultDir: string
    /** The metadata dictionary, and its keys in insertion order. */
    var records: map<string, AudioRecord>
    var ids: seq<string>
    var disk: set<string>

    ghost predicate Valid()
      reads this
    {
      IdsMatch(records, ids)
    }

    constructor (vaultDir: string, records: map<string, AudioRecord>, ids: seq<string>, disk: set<string>)
      requires IdsMatch(records, ids)
      ensures Valid()
      ensures this.vaultDir == vaultDir && this.records == records && this.ids == ids && this.disk == disk
    {
      this.vaultDir := vaultDir;
      this.records, this.ids := records, ids;
      this.disk := disk;
    }

    /** add_audio_file: a file that is not audio is refused; otherwise it
        is moved into the vault as "audio_<id><ext>" and one record is
        stored under the id. */
    method AddAudioFile(source: string, id: string, addedAt: int, fileSize: nat, duration: Option<nat>,
                        fields: seq<(string, string)>, thumbnail: Option<string>) returns (r: Result<AudioRecord>)
      requires Valid()
      modifies this`records, this`ids, this`disk
      ensures Valid()
      ensures !IsAudioFile(source, old(disk)) ==>
        r == Err(NotValidAudio) && records == old(records) && ids == old(ids) && disk == old(disk)
      ensures IsAudioFile(source, old(disk)) ==>
        var rec := NewRecord(vaultDir, id, source, addedAt, fileSize, duration, fields, thumbnail);
        && r == Ok(rec)
        && records == old(records)[id := rec]
        && ids == (if id in old(records) then old(ids) else old(ids) + [id])
        && disk == old(disk) - {source} + {rec.vaultPath}
    {
      if !IsAudioFile(source, disk) {
        return Err(NotValidAudio);
      }
      var rec := NewRecord(vaultDir, id, source, addedAt, fileSize, duration, fields, thumbnail);
      StoreRecord(source, id, rec);
      r := Ok(rec);
    }

    /** The move into the vault and the record's insertion: a new id goes
        last in the dictionary, an existing one is replaced in place. */
    method StoreRecord(source: string, id: string, rec: AudioRecord)
      requires Valid()
      modifies this`records, this`ids, this`disk
      ensures Valid()
      ensures records == old(records)[id := rec]
      ensures ids == (if id in old(records) then old(ids) else old(ids) + [id])
      ensures disk == old(disk) - {source} + {rec.vaultPath}
    {
      disk := disk - {source} + {rec.vaultPath};
      StoreKeepsMatch(records, ids, id, rec);
      if id !in records {
        ids := ids + [id];
      }
      records := records[id := rec];
    }

    /** get_audio_files: the records that pass the search, in dictionary
        order, then sorted. */
    method GetAudioFiles(query: Option<string>, sortBy: string) returns (files: seq<AudioDisplay>)
      requires Valid()
      ensures files == SortFiles(Matching(InOrder(records, ids), query), sortBy)
    {
      var recs := InOrder(records, ids);
      files := MatchingRecords(recs, query);
      files := SortFiles(files, sortBy);
    }

    /** delete_audio_file: an unknown id and a missing file are refused;
        with a recycle bin (`bin` holds its answer) a refusal by the bin is
        passed on; otherwise the file and its thumbnail leave the vault and
        the record is deleted, the answer saying whether the bin was used. */
    method DeleteAudioFile(id: string, bin: Option<Result<()>>) returns (r: Result<bool>)
      requires Valid()
      modifies this`records, this`ids, this`disk
      ensures Valid()
      ensures id !in old(records) ==>
        r == Err(AudioNotFound) && records == old(records) && ids == old(ids) && disk == old(disk)
      ensures id in old(records) && old(records)[id].vaultPath !in old(disk) ==>
        r == Err(NotOnDisk) && records == old(records) && ids == old(ids) && disk == old(disk)
      ensures id in old(records) && old(records)[id].vaultPath in old(disk) && bin.Some? && bin.value.Err? ==>
        r == Err(bin.value.error) && records == old(records) && ids == old(ids) && disk == old(disk)
      ensures id in old(records) && old(records)[id].vaultPath in old(disk) && !(bin.Some? && bin.value.Err?) ==>
        && r == Ok(bin.Some?)
        && records == old(records) - {id} && ids == RemoveId(old(ids), id)
        && disk == old(disk) - {old(records)[id].vaultPath} - ThumbnailFiles(old(records)[id])
    {
      if id !in records {
        return Err(AudioNotFound);
      }
      var rec := records[id];
      if rec.vaultPath !in disk {
        return Err(NotOnDisk);
      }
      if bin.Some? && bin.value.Err? {
        return Err(bin.value.error);
      }
      disk := disk - {rec.vaultPath} - ThumbnailFiles(rec);
      RemoveKeepsMatch(records, ids, id);
      records := records - {id};
      ids := RemoveId(ids, id);
      r := Ok(bin.Some?);
    }

    /** export_audio_file: the vault file is copied to the destination. */
    method ExportAudioFile(id: string, destination: string) returns (r: Result<string>)
      modifies this`disk
      ensures id !in records ==> r == Err(AudioNotFound) && disk == old(disk)
      ensures id in records && records[id].vaultPath !in old(disk) ==> r == Err(NotOnDisk) && disk == old(disk)
      ensures id in records && records[id].vaultPath in old(disk) ==>
        r == Ok(destination) && disk == old(disk) + {destination}
    {
      if id !in records {
        return Err(AudioNotFound);
      }
      if records[id].vaultPath !in disk {
        return Err(NotOnDisk);
      }
      disk := disk + {destination};
      r := Ok(destination);
    }

    /** update_audio_tags: only the tags of an existing record change. */
    method UpdateAudioTags(id: string, tags: seq<string>) returns (r: Result<()>)
      requires Valid()
      modifies this`records
      ensures Valid()
      ensures id !in old(records) ==> r == Err(AudioNotFound) && records == old(records)
      ensures id in old(records) ==> r == Ok(()) && records == old(records)[id := old(records)[id].(tags := tags)]
    {
      if id !in records {
        return Err(AudioNotFound);
      }
      records := records[id := records[id].(tags := tags)];
      r := Ok(());
    }

    /** get_vault_statistics, the counts: total_files, files per format
        and files added in the last seven days. Sizes and durations in
        megabytes and minutes are left out. */
    method GetVaultStatistics(now: int) returns (total: nat, formats: map<string, nat>, recent: nat)
      requires Valid()
      ensures total == |records|
      ensures formats == FormatCounts(InOrder(records, ids))
      ensures recent == RecentCount(InOrder(records, ids), now)
    {
      var recs := InOrder(records, ids);
      total := |records|;
      formats, recent := map[], 0;
      var i := 0;
      while i < |recs|
        invariant i <= |recs|
        invariant formats == FormatCounts(recs[..i])
        invariant recent == RecentCount(recs[..i], now)
      {
        StatsNext(recs, i, now);
        formats := Incr(formats, recs[i].metadata.format);
        if recs[i].addedAt > now - RecentWindow {
          recent := recent + 1;
        }
        i := i + 1;
      }
      assert recs[..i] == recs;
    }
  }
}
