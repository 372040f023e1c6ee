/** The HTTP side of the vault's file transfer server: request routing,
    the upload size gates and receive paths, where an uploaded file is
    stored (category, safe name, free name) and which file a download path
    names, plus the server's change tracking of the category directories.
    The multipart parsing itself is in Multipart. */
module FileTransfer {
  import opened Wrappers
  import opened Strings
  import Paths
  import Naming
  import Multipart
  import SecureStorage

  // ---------------------------------------------------------------- urlparse

  /** Characters urlsplit strips from the front of a URL: C0 controls and space. */
  predicate IsC0OrSpace(c: char) { c <= ' ' }

  /** Characters urlsplit deletes anywhere in a URL. */
  predicate IsTabOrNewline(c: char) { c == '\t' || c == '\r' || c == '\n' }

  predicate KeptInUrl(c: char) { !IsTabOrNewline(c) }

  predicate IsAsciiAlpha(c: char) { 'a' <= c <= 'z' || 'A' <= c <= 'Z' }

  predicate IsSchemeChar(c: char) {
    IsAsciiAlpha(c) || '0' <= c <= '9' || c == '+' || c == '-' || c == '.'
  }

  /** The URL after urlsplit's clean-up: leading C0 controls and spaces
      stripped, tabs and line breaks deleted. */
  function CleanUrl(target: string): (url: string)
    ensures forall k :: 0 <= k < |url| ==> KeptInUrl(url[k])
  {
    Keep(LStripBy(target, IsC0OrSpace), KeptInUrl)
  }

  /** urlsplit's scheme rule: text before the first ':' that starts with a
      letter and holds only scheme characters is the (lower-cased) scheme. */
  function SplitScheme(url: string): (r: (string, string))
    ensures r.0 == "" ==> r.1 == url
  {
    if ':' !in url then ("", url)
    else
      var i := IndexOfChar(url, ':');
      if i > 0 && IsAsciiAlpha(url[0]) && forall k :: 0 <= k < i ==> IsSchemeChar(url[k])
      then (Lower(url[..i]), url[i + 1..])
      else ("", url)
  }

  predicate EndsNetloc(c: char) { c == '/' || c == '?' || c == '#' }

  /** A network location follows when the rest starts with "//". */
  predicate HasNetloc(rest: string) { |rest| >= 2 && rest[0] == '/' && rest[1] == '/' }

  /** The rest of the URL after the network location, if there is one. */
  function DropNetloc(rest: string): (r: string)
    ensures !HasNetloc(rest) ==> r == rest
  {
    if HasNetloc(rest) then rest[2 + Multipart.FirstIndex(rest[2..], EndsNetloc)..] else rest
  }

  /** The schemes whose URLs urlparse splits ';' parameters off. */
  const UsesParams: seq<string> := ["", "ftp", "hdl", "prospero", "http", "imap", "https", "shttp",
    "rtsp", "rtsps", "rtspu", "sip", "sips", "mms", "sftp", "tel"]

  /** _splitparams: parameters start at the first ';' of the last segment. */
  function StripParams(url: string): (r: string)
    ensures StartsWith(url, r)
    ensures ';' !in url ==> r == url
  {
    if ';' !in url then url
    else if '/' in url then
      var j := Paths.RFindChar(url, '/');
      if ';' in url[j..] then url[..j + IndexOfChar(url[j..], ';')] else url
    else url[..IndexOfChar(url, ';')]
  }

  /** urlparse(target).path */
  function UrlPath(target: string): string {
    var (scheme, rest) := SplitScheme(CleanUrl(target));
    var path := CutAt(CutAt(DropNetloc(rest), '#'), '?');
    if scheme in UsesParams then StripParams(path) else path
  }

  predicate PlainPathChar(c: char) { c > ' ' && c != '?' && c != '#' && c != ';' }

  /** An origin-form request path without query, fragment or parameters. */
  predicate PlainPath(p: string) {
    && |p| >= 1 && p[0] == '/' && (|p| == 1 || p[1] != '/')
    && forall k :: 0 <= k < |p| ==> PlainPathChar(p[k])
  }

  /** A query string: no fragment, no tab or line break. */
  predicate PlainQuery(q: string) {
    '#' !in q && forall k :: 0 <= k < |q| ==> KeptInUrl(q[k])
  }

  /** A path with no leading control character, tab or line break comes
      through the clean-up unchanged, with no scheme and no network location. */
  lemma CleanPath(t: string)
    requires |t| >= 1 && t[0] == '/' && (|t| == 1 || t[1] != '/')
    requires forall k :: 0 <= k < |t| ==> KeptInUrl(t[k])
    ensures SplitScheme(CleanUrl(t)) == ("", t)
    ensures DropNetloc(t) == t
  {
    assert LStripBy(t, IsC0OrSpace) == t;
    KeepAll(t, KeptInUrl);
    NoScheme(t);
  }

  /** A URL that starts with '/' has no scheme. */
  lemma NoScheme(t: string)
    requires t != [] && t[0] == '/'
    ensures SplitScheme(t) == ("", t)
  {
    assert !IsAsciiAlpha(t[0]);
  }

  lemma PlainPathFree(p: string)
    requires PlainPath(p)
    ensures '#' !in p && '?' !in p && ';' !in p
    ensures forall k :: 0 <= k < |p| ==> KeptInUrl(p[k])
  {
    assert forall k :: 0 <= k < |p| ==> PlainPathChar(p[k]);
  }

  /** urlparse reports a plain path as it is. */
  lemma PlainPathParsed(p: string)
    requires PlainPath(p)
    ensures UrlPath(p) == p
  {
    PlainPathFree(p);
    CleanPath(p);
  }

  /** A query string does not change the path urlparse reports. */
  lemma QueryIgnored(p: string, query: string)
    requires PlainPath(p) && PlainQuery(query)
    ensures UrlPath(p + "?" + query) == p
  {
    PlainPathFree(p);
    var t := p + "?" + query;
    assert t == p + ['?'] + query;
    forall k | 0 <= k < |t| ensures KeptInUrl(t[k]) {
      if k > |p| { assert t[k] == query[k - |p| - 1]; }
    }
    assert t[0] == p[0];
    assert |p| == 1 ==> t[1] == '?';
    assert |p| > 1 ==> t[1] == p[1];
    CleanPath(t);
    assert '#' !in t;
    CutAtFirst(p, '?', query);
  }

  // ---------------------------------------------------------------- routing

  datatype GetRoute = MainPage | FileListing | Download(relative: string) | NotFound

  const DownloadPrefix: string := "/download/"

  lemma PrefixThenRest(s: string, p: string)
    requires StartsWith(s, p)
    ensures s == p + s[|p|..]
  {
    assert s == s[..|p|] + s[|p|..];
  }

  /** do_GET: routed on urlparse's path; a download names what follows "/download/". */
  function RouteGet(target: string): (r: GetRoute)
    ensures r.Download? ==> UrlPath(target) == DownloadPrefix + r.relative
  {
    var path := UrlPath(target);
    if path == "/" then MainPage
    else if path == ApiFiles then FileListing
    else if StartsWith(path, DownloadPrefix) then
      PrefixThenRest(path, DownloadPrefix);
      Download(path[|DownloadPrefix|..])
    else NotFound
  }

  /** The routes a plain path takes. */
  lemma DownloadPathRoutes(relative: string)
    ensures var p := DownloadPrefix + relative;
      p != "/" && p != ApiFiles && StartsWith(p, DownloadPrefix) && p[|DownloadPrefix|..] == relative
  {
    var p := DownloadPrefix + relative;
    assert p[1] == 'd' && ApiFiles[1] == 'a';
    assert p[..|DownloadPrefix|] == DownloadPrefix;
  }

  /** Any plain download path routes to the file it names, with or without
      a query string. */
  lemma DownloadRouted(relative: string, query: string)
    requires forall k :: 0 <= k < |relative| ==> PlainPathChar(relative[k])
    requires PlainQuery(query)
    ensures RouteGet(DownloadPrefix + relative) == Download(relative)
    ensures RouteGet(DownloadPrefix + relative + "?" + query) == Download(relative)
  {
    var p := DownloadPrefix + relative;
    assert PlainPath(p) by {
      forall k | 0 <= k < |p| ensures PlainPathChar(p[k]) {
        if k >= 10 { assert p[k] == relative[k - 10]; }
      }
    }
    PlainPathParsed(p);
    QueryIgnored(p, query);
    DownloadPathRoutes(relative);
  }

  /** do_POST compares the raw request path: a query string makes an
      upload a 404, although GET routes ignore it. */
  predicate RoutePost(target: string) { target == "/upload" }

  const ApiFiles: string := "/api/files"

  lemma PostHonoursNoQuery(query: string)
    requires PlainQuery(query)
    ensures RoutePost("/upload")
    ensures !RoutePost("/upload?" + query)
    ensures RouteGet(ApiFiles + "?" + query) == FileListing
  {
    assert |"/upload?" + query| > |"/upload"|;
    ApiFilesPlain();
    QueryIgnored(ApiFiles, query);
    assert ApiFiles != "/" by { assert |ApiFiles| == 10; }
  }

  lemma ApiFilesPlain()
    ensures PlainPath(ApiFiles)
  {
    var p := ApiFiles;
    assert p[0] == '/' && p[1] == 'a';
    assert forall k :: 0 <= k < |p| ==> PlainPathChar(p[k]);
  }

  // ---------------------------------------------------------------- size gates

  const MaxUpload: int := 5 * 1024 * 1024 * 1024
  const StreamThreshold: int := 100 * 1024 * 1024

  datatype Refusal = NoData | TooLarge

  datatype Gate = Refused(reason: Refusal) | InMemory | Streamed

  /** receive_file's gates on Content-Length: nothing or more than 5 GiB is
      refused, more than 100 MiB is streamed, the rest is read into memory. */
  function UploadGate(contentLength: int): (g: Gate)
    ensures g == Refused(NoData) <==> contentLength == 0
    ensures g == Refused(TooLarge) <==> contentLength > MaxUpload
    ensures g == Streamed <==> StreamThreshold < contentLength <= MaxUpload
    ensures g == InMemory <==> contentLength != 0 && contentLength <= StreamThreshold
  {
    if contentLength == 0 then Refused(NoData)
    else if contentLength > MaxUpload then Refused(TooLarge)
    else if contentLength > StreamThreshold then Streamed
    else InMemory
  }

  /** The ValueError text a refusal is reported with; `formatBytes` is
      _format_bytes, which renders the length as a one-decimal float. */
  function RefusalMessage(reason: Refusal, contentLength: int, formatBytes: int -> string): string {
    match reason
    case NoData => "No file data received"
    case TooLarge => "File too large (" + formatBytes(contentLength) + "). Maximum: 5GB"
  }

  /** A negative Content-Length passes both gates and is read in memory. */
  lemma NegativeLengthReadInMemory(contentLength: int)
    requires contentLength < 0
    ensures UploadGate(contentLength) == InMemory
  {
  }

  /** rfile.read(n): at most n bytes, fewer at the end of the stream; a
      negative n reads to the end of the stream. */
  function ReadBody(contentLength: int, incoming: string): (body: string)
    ensures StartsWith(incoming, body)
    ensures contentLength < 0 ==> body == incoming
    ensures contentLength >= 0 ==> |body| == Multipart.Min(contentLength, |incoming|)
  {
    if contentLength < 0 then incoming else incoming[..Multipart.Min(contentLength, |incoming|)]
  }

  // ---------------------------------------------------------------- receive paths

  /** The file an upload delivers to _save_uploaded_file. */
  datatype Upload = Upload(filename: string, data: string)

  const NoValidFile: string := "No valid file found in upload"

  /** _receive_small_file_memory, up to the save: the form type is checked,
      the body parsed, and a part without a name or without data refused. */
  function InMemoryUpload(contentLength: int, contentType: string, incoming: string): (r: Result<Upload>)
    ensures r.Ok? ==> r.value.filename != "" && r.value.data != ""
  {
    var body := ReadBody(contentLength, incoming);
    if !Contains(contentType, Multipart.FormData) then Err("Invalid upload format")
    else
      match Multipart.ParseMultipartUpload(contentType, body)
      case Err(e) => Err(e)
      case Ok(None) => Err(NoValidFile)
      case Ok(Some(part)) =>
        if part.filename.None? || part.filename == Some("") || part.data == "" then Err(NoValidFile)
        else Ok(Upload(part.filename.value, part.data))
  }

  /** A body sent with any type but multipart/form-data is refused. */
  lemma InMemoryNeedsFormData(contentLength: int, contentType: string, incoming: string)
    requires !Contains(contentType, Multipart.FormData)
    ensures InMemoryUpload(contentLength, contentType, incoming) == Err("Invalid upload format")
  {
  }

  /** What the in-memory path delivers is the named, non-empty file the
      body read parses to. */
  lemma InMemoryUploadParsed(contentLength: int, contentType: string, incoming: string)
    requires InMemoryUpload(contentLength, contentType, incoming).Ok?
    ensures var u := InMemoryUpload(contentLength, contentType, incoming).value;
      && Contains(contentType, Multipart.FormData)
      && Multipart.ParseMultipartUpload(contentType, ReadBody(contentLength, incoming))
           == Ok(Some(Multipart.FilePart(Some(u.filename), u.data)))
  {
    var body := ReadBody(contentLength, incoming);
    var parsed := Multipart.ParseMultipartUpload(contentType, body);
    assert parsed.Ok? && parsed.value.Some?;
  }

  lemma StartsWithContains(s: string, p: string)
    requires StartsWith(s, p)
    ensures Contains(s, p)
  {
    assert OccursAt(s, p, 0);
    FindIs(s, p, 0);
  }

  lemma FormDataTypeIsFormData(b: string)
    ensures Contains(Multipart.FormDataType(b), Multipart.FormData)
  {
    var f := Multipart.FormData;
    var t := Multipart.FormDataType(b);
    assert t == f + (";" + (" boundary=" + b));
    assert t[..|f|] == f;
    StartsWithContains(t, f);
  }

  /** A browser's upload of one named, non-empty file, read whole, delivers
      that file. */
  lemma InMemoryUploadRoundTrip(b: string, disposition: string, filename: string, contentType: string, data: string)
    requires Multipart.PlainToken(b)
    requires Multipart.DispositionLine(disposition, filename) && filename != ""
    requires '\r' !in contentType && data != ""
    requires Multipart.DelimiterFree(Multipart.PartText(disposition, contentType, data), Multipart.Delimiter(b))
    ensures var body := Multipart.UploadBody(b, disposition, contentType, data);
      InMemoryUpload(|body|, Multipart.FormDataType(b), body) == Ok(Upload(filename, data))
  {
    var body := Multipart.UploadBody(b, disposition, contentType, data);
    Multipart.ParseUploadRoundTrip(b, disposition, filename, contentType, data);
    FormDataTypeIsFormData(b);
    InMemoryUploadOf(|body|, Multipart.FormDataType(b), body, filename, data);
  }

  /** A form upload whose whole body parses to a named, non-empty file delivers it. */
  lemma InMemoryUploadOf(contentLength: int, contentType: string, body: string, filename: string, data: string)
    requires contentLength == |body| && Contains(contentType, Multipart.FormData)
    requires Multipart.ParseMultipartUpload(contentType, body) == Ok(Some(Multipart.FilePart(Some(filename), data)))
    requires filename != "" && data != ""
    ensures InMemoryUpload(contentLength, contentType, body) == Ok(Upload(filename, data))
  {
    ReadWhole(body);
  }

  lemma ReadWhole(body: string)
    ensures ReadBody(|body|, body) == body
  {
  }

  /** The Content-Type names a non-empty boundary. */
  predicate BoundaryGiven(contentType: string) {
    Multipart.ExtractBoundary(contentType).Some? && Multipart.ExtractBoundary(contentType) != Some("")
  }

  /** _receive_large_file_streaming, up to the save, with the streamed
      content cut at the closing delimiter: the form type and the boundary
      are checked, the body streamed, and an upload without a name refused
      (empty data is accepted on this path). */
  method ReceiveLarge(contentLength: int, contentType: string, incoming: string) returns (r: Result<Upload>)
    ensures !Contains(contentType, Multipart.FormData) ==> r == Err("Invalid upload format")
    ensures Contains(contentType, Multipart.FormData) && !BoundaryGiven(contentType) ==>
      r == Err("Upload boundary not found")
    ensures r.Ok? ==>
      && Contains(contentType, Multipart.FormData) && BoundaryGiven(contentType)
      && r.value.filename != "" && '"' !in r.value.filename
      && r.value.data == Multipart.StreamedFileData(incoming[..StreamedLength(contentLength, |incoming|)],
                                                    Multipart.ExtractBoundary(contentType).value)
    ensures var first := incoming[..Multipart.FirstChunkEnd(contentLength, |incoming|)];
      && Contains(contentType, Multipart.FormData) && BoundaryGiven(contentType)
      && Multipart.ExtractFilename(first).Some? && Multipart.ExtractFilename(first) != Some("")
      ==> r.Ok? && r.value.filename == Multipart.ExtractFilename(first).value
  {
    if !Contains(contentType, Multipart.FormData) {
      return Err("Invalid upload format");
    }
    var boundary := Multipart.ExtractBoundary(contentType);
    if boundary.None? || boundary == Some("") {
      return Err("Upload boundary not found");
    }
    var filename, written, bytesRead, requests := Multipart.StreamParseMultipart(contentLength, incoming);
    if filename.None? || filename == Some("") {
      return Err(NoValidFile);
    }
    r := Ok(Upload(filename.value, Multipart.CutAtClosing(written, boundary.value)));
  }

  /** How many bytes the streaming loop reads. */
  function StreamedLength(contentLength: int, sent: nat): (n: nat)
    ensures n <= sent
    ensures contentLength > 0 ==> n == Multipart.Min(contentLength, sent)
  {
    if contentLength <= 0 then 0 else if contentLength < sent then contentLength else sent
  }

  /** The streamed path stores exactly the uploaded data of a browser's
      upload sent whole, as the in-memory path does. */
  lemma StreamedUploadKeepsData(b: string, disposition: string, filename: string, contentType: string, data: string)
    requires Multipart.PlainToken(b)
    requires Multipart.DispositionLine(disposition, filename)
    requires '\r' !in contentType
    requires Multipart.DelimiterFree(Multipart.PartText(disposition, contentType, data), Multipart.Delimiter(b))
    ensures var body := Multipart.UploadBody(b, disposition, contentType, data);
      Multipart.StreamedFileData(body[..StreamedLength(|body|, |body|)], b) == data
  {
    var body := Multipart.UploadBody(b, disposition, contentType, data);
    assert body[..StreamedLength(|body|, |body|)] == body;
    Multipart.StreamedFileDataMatchesInMemory(b, disposition, filename, contentType, data);
  }

  /** `u` is what the route the size gate picks delivers: the in-memory
      parse, or a named upload whose data is the streamed body cut at the
      closing delimiter. */
  ghost predicate Received(contentLength: int, contentType: string, incoming: string, u: Upload) {
    && u.filename != ""
    && (UploadGate(contentLength) == InMemory ==> InMemoryUpload(contentLength, contentType, incoming) == Ok(u))
    && (UploadGate(contentLength) == Streamed ==>
          && BoundaryGiven(contentType)
          && u.data == Multipart.StreamedFileData(incoming[..StreamedLength(contentLength, |incoming|)],
                                                  Multipart.ExtractBoundary(contentType).value))
  }

  /** The parse receive_file picks by the size gate. */
  method ParseUpload(contentLength: int, contentType: string, incoming: string) returns (r: Result<Upload>)
    requires !UploadGate(contentLength).Refused?
    ensures UploadGate(contentLength) == InMemory ==> r == InMemoryUpload(contentLength, contentType, incoming)
    ensures r.Ok? ==> Received(contentLength, contentType, incoming, r.value)
  {
    if UploadGate(contentLength) == Streamed {
      r := ReceiveLarge(contentLength, contentType, incoming);
    } else {
      r := InMemoryUpload(contentLength, contentType, incoming);
    }
  }

  // ---------------------------------------------------------------- categories and names

  const PhotoExtensions: seq<string> := [".jpg", ".jpeg", ".png", ".gif", ".bmp", ".webp", ".tiff", ".svg", ".heic", ".raw"]
  const VideoExtensions: seq<string> := [".mp4", ".avi", ".mov", ".mkv", ".wmv", ".flv", ".webm", ".m4v", ".3gp"]
  const AudioExtensions: seq<string> := [".mp3", ".wav", ".flac", ".aac", ".ogg", ".m4a", ".wma", ".opus"]

  /** The vault categories the server serves, in its dict order. */
  const TransferCategories: seq<string> := ["photos", "videos", "audio", "documents"]

  /** _categorize_file: by lower-cased extension; anything unlisted is a document. */
  function CategorizeFile(filename: string): string {
    var ext := Lower(Paths.Ext(filename));
    if ext in PhotoExtensions then "photos"
    else if ext in VideoExtensions then "videos"
    else if ext in AudioExtensions then "audio"
    else "documents"
  }

  /** Each listed extension, in any letter case, picks its own category;
      the rest go to the documents. */
  lemma CategorizeFileByExtension(filename: string)
    ensures CategorizeFile(filename) in TransferCategories
    ensures CategorizeFile(filename) == "photos" <==> Lower(Paths.Ext(filename)) in PhotoExtensions
    ensures CategorizeFile(filename) == "videos" <==> Lower(Paths.Ext(filename)) in VideoExtensions
    ensures CategorizeFile(filename) == "audio" <==> Lower(Paths.Ext(filename)) in AudioExtensions
  {
    ExtensionListsDisjoint(Lower(Paths.Ext(filename)));
  }

  /** No extension is listed under two categories, so the scan order does not matter. */
  lemma ExtensionListsDisjoint(ext: string)
    ensures !(ext in PhotoExtensions && ext in VideoExtensions)
    ensures !(ext in PhotoExtensions && ext in AudioExtensions)
    ensures !(ext in VideoExtensions && ext in AudioExtensions)
  {
  }

  /** The characters _ensure_safe_filename keeps. */
  predicate IsSafeChar(c: char) {
    'a' <= c <= 'z' || 'A' <= c <= 'Z' || '0' <= c <= '9'
    || c == '.' || c == '_' || c == '-' || c == '(' || c == ')' || c == ' '
  }

  predicate AllSafe(s: string) { forall i :: 0 <= i < |s| ==> IsSafeChar(s[i]) }

  const MaxFilenameLength: nat := 255

  /** s[:n] */
  function Truncate(s: string, n: nat): (r: string)
    ensures |r| <= n && StartsWith(s, r)
    ensures |s| <= n ==> r == s
  {
    if |s| <= n then s else s[..n]
  }

  /** "uploaded_file_" + str(int(time.time())) */
  function FallbackName(now: int): (r: string)
    ensures AllSafe(r) && r != [] && r[0] == 'u'
  {
    var head := "uploaded_file_";
    var n := IntToString(now);
    assert AllSafe(head);
    IntToStringSafe(now);
    AllSafeConcat(head, n);
    head + n
  }

  lemma AllSafeConcat(a: string, b: string)
    requires AllSafe(a) && AllSafe(b)
    ensures AllSafe(a + b)
  {
    forall i | 0 <= i < |a + b| ensures IsSafeChar((a + b)[i]) {
      if i >= |a| { assert (a + b)[i] == b[i - |a|]; }
    }
  }

  /** str() of an integer is made of digits and a '-'. */
  lemma IntToStringSafe(i: int)
    ensures AllSafe(IntToString(i))
  {
    var s := IntToString(i);
    if i < 0 {
      var d := NatToString(-i);
      assert s == "-" + d;
      forall k | 0 <= k < |s| ensures IsSafeChar(s[k]) {
        if k > 0 { assert s[k] == d[k - 1] && IsDigit(d[k - 1]); }
      }
    } else {
      assert forall k :: 0 <= k < |s| ==> IsDigit(s[k]);
    }
  }

  /** Text with a non-space character is not blank. */
  lemma NotBlank(s: string, i: nat)
    requires i < |s| && !IsSpace(s[i])
    ensures Strip(s) != ""
  {
    var r := RStripBy(s, IsSpace);
    assert i < |r|;
    assert r[i] == s[i];
  }

  /** _ensure_safe_filename as written: the blank test comes before the
      truncation to 255 characters. */
  function SafeFilenameAsWritten(filename: string, now: int): string {
    var safe := Keep(filename, IsSafeChar);
    Truncate(if Strip(safe) == "" then FallbackName(now) else safe, MaxFilenameLength)
  }

  /** 255 spaces and a letter: the letter makes the kept text non-blank, the
      truncation then leaves only the spaces. */
  lemma SafeFilenameCanBeBlank(now: int)
    ensures var name := seq(255, _ => ' ') + "a";
      Strip(SafeFilenameAsWritten(name, now)) == ""
  {
    var spaces := seq(255, _ => ' ');
    var name := spaces + "a";
    assert AllSafe(name) by {
      forall i | 0 <= i < |name| ensures IsSafeChar(name[i]) {
        if i < 255 { assert name[i] == spaces[i]; }
      }
    }
    KeepAll(name, IsSafeChar);
    NotBlank(name, 255);
    assert name[..255] == spaces;
    assert RStripBy(spaces, IsSpace) == [];
  }

  /** _ensure_safe_filename with the blank test applied to the truncated
      name, so the name is never blank. */
  function EnsureSafeFilename(filename: string, now: int): (r: string)
    ensures 0 < |r| <= MaxFilenameLength
    ensures AllSafe(r) && '/' !in r
    ensures Strip(r) != ""
    ensures Strip(Truncate(Keep(filename, IsSafeChar), MaxFilenameLength)) != "" ==>
      r == Truncate(Keep(filename, IsSafeChar), MaxFilenameLength)
  {
    var t := Truncate(Keep(filename, IsSafeChar), MaxFilenameLength);
    var r := if Strip(t) == "" then Truncate(FallbackName(now), MaxFilenameLength) else t;
    SafeNameFacts(Keep(filename, IsSafeChar), FallbackName(now), r);
    r
  }

  /** Both candidates are made of safe characters, and the fallback is not blank. */
  lemma SafeNameFacts(kept: string, fallback: string, r: string)
    requires AllSafe(kept) && AllSafe(fallback) && fallback != [] && fallback[0] == 'u'
    requires var t := Truncate(kept, MaxFilenameLength);
      r == if Strip(t) == "" then Truncate(fallback, MaxFilenameLength) else t
    ensures 0 < |r| && AllSafe(r) && '/' !in r && Strip(r) != ""
  {
    var t := Truncate(kept, MaxFilenameLength);
    if Strip(t) == "" {
      SafePrefix(fallback, r);
      assert r[0] == fallback[0];
      NotBlank(r, 0);
    } else {
      SafePrefix(kept, r);
      assert t != [];
    }
  }

  /** A prefix of a name made of safe characters is one too, and has no '/'. */
  lemma SafePrefix(s: string, r: string)
    requires AllSafe(s) && StartsWith(s, r)
    ensures AllSafe(r) && '/' !in r
  {
    forall i | 0 <= i < |r| ensures IsSafeChar(r[i]) && r[i] != '/' {
      assert r[i] == s[i];
    }
  }

  /** A name made of safe characters, non-blank and short enough, is kept as is. */
  lemma SafeFilenameKeepsSafeNames(filename: string, now: int)
    requires AllSafe(filename) && |filename| <= MaxFilenameLength && Strip(filename) != ""
    ensures EnsureSafeFilename(filename, now) == filename
  {
    KeepAll(filename, IsSafeChar);
  }

  /** Sanitising twice is sanitising once. */
  lemma SafeFilenameIdempotent(filename: string, now: int, later: int)
    ensures EnsureSafeFilename(EnsureSafeFilename(filename, now), later) == EnsureSafeFilename(filename, now)
  {
    SafeFilenameKeepsSafeNames(EnsureSafeFilename(filename, now), later);
  }

  // ---------------------------------------------------------------- conflicts

  /** _resolve_filename_conflict numbers "<dir>/<name>_<n><ext>". */
  function ConflictPrefix(path: string): string {
    Paths.Join(Paths.Dirname(path), Paths.Root(Paths.Basename(path)) + "_")
  }

  function ConflictSuffix(path: string): string { Paths.Ext(Paths.Basename(path)) }

  /** The numbered candidate is the directory joined with "<name>_<n><ext>". */
  lemma ConflictNameShape(path: string, n: nat)
    ensures Naming.Numbered(ConflictPrefix(path), n, ConflictSuffix(path))
         == Paths.Join(Paths.Dirname(path),
                       Paths.Root(Paths.Basename(path)) + "_" + NatToString(n) + Paths.Ext(Paths.Basename(path)))
  {
    var b := Paths.Basename(path);
    RootNotRooted(b);
    NumberedJoin(Paths.Dirname(path), Paths.Root(b), Paths.Ext(b), n);
  }

  /** A basename's root does not start with '/'. */
  lemma RootNotRooted(b: string)
    requires '/' !in b
    ensures Paths.Root(b) == "" || Paths.Root(b)[0] != '/'
  {
    if Paths.Root(b) != "" {
      assert Paths.Root(b) + Paths.Ext(b) == b;
      assert Paths.Root(b)[0] == b[0] && b[0] in b;
    }
  }

  lemma NumberedJoin(dir: string, root: string, ext: string, n: nat)
    requires root == "" || root[0] != '/'
    ensures Naming.Numbered(Paths.Join(dir, root + "_"), n, ext) == Paths.Join(dir, root + "_" + NatToString(n) + ext)
  {
    var head := root + "_";
    var digits := NatToString(n);
    assert head[0] != '/' by { if root != "" { assert head[0] == root[0]; } }
    Paths.JoinAppend(dir, head, digits + ext);
    ConcatAssoc(Paths.Join(dir, head), digits, ext);
    ConcatAssoc(head, digits, ext);
  }

  /** What _resolve_filename_conflict answers for `path` when `existing`
      exists: path itself when free, else the first free numbered name. */
  ghost predicate ConflictResolved(existing: set<string>, path: string, result: string) {
    && result !in existing
    && (path !in existing ==> result == path)
    && (path in existing ==>
          exists n :: Naming.IsFirstFree(existing, ConflictPrefix(path), ConflictSuffix(path), n)
                   && result == Naming.Numbered(ConflictPrefix(path), n, ConflictSuffix(path)))
  }

  /** The answer is determined by the existing paths. */
  lemma ConflictResolvedUnique(existing: set<string>, path: string, r1: string, r2: string)
    requires ConflictResolved(existing, path, r1) && ConflictResolved(existing, path, r2)
    ensures r1 == r2
  {
    if path in existing {
      var n1 :| Naming.IsFirstFree(existing, ConflictPrefix(path), ConflictSuffix(path), n1)
                && r1 == Naming.Numbered(ConflictPrefix(path), n1, ConflictSuffix(path));
      var n2 :| Naming.IsFirstFree(existing, ConflictPrefix(path), ConflictSuffix(path), n2)
                && r2 == Naming.Numbered(ConflictPrefix(path), n2, ConflictSuffix(path));
      Naming.FirstFreeUnique(existing, ConflictPrefix(path), ConflictSuffix(path), n1, n2);
    }
  }

  /** _resolve_filename_conflict */
  method ResolveFilenameConflict(existing: set<string>, path: string) returns (result: string)
    ensures ConflictResolved(existing, path, result)
  {
    result := Naming.ResolveConflict(existing, path, ConflictPrefix(path), ConflictSuffix(path));
  }

  // ---------------------------------------------------------------- download paths

  /** relative.split('/', 1) when it has a '/'. */
  function SplitFirstSlash(relative: string): (r: Option<(string, string)>)
    ensures r.None? <==> '/' !in relative
    ensures r.Some? ==> '/' !in r.value.0 && relative == r.value.0 + "/" + r.value.1
  {
    if '/' !in relative then None
    else
      var i := IndexOfChar(relative, '/');
      assert relative == relative[..i] + "/" + relative[i + 1..];
      Some((relative[..i], relative[i + 1..]))
  }

  /** resolve_file_path as written: the category segment goes into the
      directory unchecked, and the traversal guard compares the result with
      that same directory. */
  function ResolveFilePathAsWritten(vaultRoot: string, relative: string): (r: Option<string>)
    ensures r.Some? ==> '/' in relative
  {
    match SplitFirstSlash(relative)
    case None => None
    case Some((category, filename)) =>
      var dir := SecureStorage.TypedDirectory(vaultRoot, category);
      if dir == "" then None
      else
        var full := Paths.Join(dir, Paths.Basename(filename));
        if !StartsWith(full, dir) then None else Some(full)
  }

  /** The guard never fires: joining a basename onto a directory always
      starts with that directory. */
  lemma TraversalGuardNeverFires(dir: string, name: string)
    requires '/' !in name
    ensures StartsWith(Paths.Join(dir, name), dir)
  {
    if name != [] {
      assert name[0] in name;
      Paths.NotRooted(name);
    }
  }

  /** Joining a name below a directory that does not end in '/' puts one '/' between. */
  lemma JoinPlain(dir: string, name: string)
    requires dir != [] && dir[|dir| - 1] != '/' && name != [] && name[0] != '/'
    ensures Paths.Join(dir, name) == dir + "/" + name
  {
    Paths.NotRooted(name);
    assert dir[|dir| - 1..] != "/" by { assert dir[|dir| - 1..][0] == dir[|dir| - 1]; }
  }

  /** split('/', 1) of head + "/" + tail, for a head without '/'. */
  lemma SplitFirstSlashOf(head: string, tail: string)
    requires '/' !in head
    ensures SplitFirstSlash(head + "/" + tail) == Some((head, tail))
  {
    var s := head + "/" + tail;
    assert s[..|head|] == head && s[|head|] == '/';
    IndexOfCharIs(s, '/', |head|);
    assert s[|head| + 1..] == tail;
  }

  /** A ".." category names the vault root's parent: "../<name>" resolves
      outside the vault. */
  lemma ParentCategoryEscapes(vaultRoot: string, name: string)
    requires vaultRoot != [] && vaultRoot[|vaultRoot| - 1] != '/'
    requires name != [] && '/' !in name
    ensures ResolveFilePathAsWritten(vaultRoot, "../" + name) == Some(vaultRoot + "/../" + name)
  {
    assert "../" + name == ".." + "/" + name;
    SplitFirstSlashOf("..", name);
    JoinPlain(vaultRoot, "..");
    var dir := vaultRoot + "/" + "..";
    assert dir[|dir| - 1] == '.';
    assert Paths.Basename(name) == name;
    assert name[0] in name;
    JoinPlain(dir, name);
    TraversalGuardNeverFires(dir, name);
    assert dir + "/" + name == vaultRoot + "/../" + name;
  }

  /** resolve_file_path with the category restricted to the four the file
      list offers (its paths are "<category>/<name>"). */
  function ResolveFilePath(vaultRoot: string, relative: string): (r: Option<string>)
    ensures r.Some? ==>
      exists c, name :: c in TransferCategories && '/' !in name
        && r.value == Paths.Join(Paths.Join(vaultRoot, c), name)
  {
    match SplitFirstSlash(relative)
    case None => None
    case Some((category, filename)) =>
      if category !in TransferCategories then None
      else
        CategoriesPlain(category);
        Some(Paths.Join(SecureStorage.TypedDirectory(vaultRoot, category), Paths.Basename(filename)))
  }

  lemma CategoriesPlain(c: string)
    requires c in TransferCategories
    ensures c != "" && '/' !in c
  {
  }

  /** The file list's path for a vault file resolves back to that file. */
  lemma ListedPathResolves(vaultRoot: string, category: string, name: string)
    requires category in TransferCategories && '/' !in name
    ensures ResolveFilePath(vaultRoot, category + "/" + name) == Some(Paths.Join(Paths.Join(vaultRoot, category), name))
  {
    CategoriesPlain(category);
    SplitFirstSlashOf(category, name);
  }

  /** The restricted resolution refuses every category outside the four. */
  lemma UnknownCategoryRefused(vaultRoot: string, category: string, name: string)
    requires category !in TransferCategories && '/' !in category
    ensures ResolveFilePath(vaultRoot, category + "/" + name) == None
  {
    SplitFirstSlashOf(category, name);
  }

  // ---------------------------------------------------------------- change tracking

  /** The scan of _has_files_changed over the categories in order: whether
      it stops at a changed directory, and the stored times afterwards. A
      category whose directory is missing (no entry in `mtimes`) is passed
      over; one seen for the first time is recorded without counting as a
      change. */
  function ScanChanges(categories: seq<string>, stored: map<string, int>, mtimes: map<string, int>)
    : (bool, map<string, int>)
  {
    if categories == [] then (false, stored)
    else
      var c := categories[0];
      if c !in mtimes then ScanChanges(categories[1..], stored, mtimes)
      else if c !in stored then ScanChanges(categories[1..], stored[c := mtimes[c]], mtimes)
      else if mtimes[c] != stored[c] then (true, stored[c := mtimes[c]])
      else ScanChanges(categories[1..], stored, mtimes)
  }

  ghost predicate Distinct(s: seq<string>) {
    forall i, j :: 0 <= i < j < |s| ==> s[i] != s[j]
  }

  /** c is a directory with a recorded time that no longer matches. */
  ghost predicate Changed(c: string, stored: map<string, int>, mtimes: map<string, int>) {
    c in mtimes && c in stored && stored[c] != mtimes[c]
  }

  /** The scan reports a change exactly when some scanned directory has a
      recorded time that differs from its current one. */
  lemma {:induction false} ScanChangesIff(categories: seq<string>, stored: map<string, int>, mtimes: map<string, int>)
    requires Distinct(categories)
    ensures ScanChanges(categories, stored, mtimes).0 <==>
      exists c :: c in categories && Changed(c, stored, mtimes)
    decreases |categories|
  {
    if categories != [] {
      var c := categories[0];
      var rest := categories[1..];
      assert Distinct(rest);
      assert c !in rest;
      assert forall x :: x in categories <==> x == c || x in rest;
      if c !in mtimes {
        ScanChangesIff(rest, stored, mtimes);
      } else if c !in stored {
        var s' := stored[c := mtimes[c]];
        ScanChangesIff(rest, s', mtimes);
        assert forall x :: x in rest ==> (Changed(x, s', mtimes) <==> Changed(x, stored, mtimes));
      } else if mtimes[c] == stored[c] {
        ScanChangesIff(rest, stored, mtimes);
      }
    }
  }

  /** The first look at the directories never reports a change. */
  lemma FirstScanUnchanged(categories: seq<string>, mtimes: map<string, int>)
    requires Distinct(categories)
    ensures !ScanChanges(categories, map[], mtimes).0
  {
    ScanChangesIff(categories, map[], mtimes);
  }

  /** With the times recorded as they are, a scan reports nothing and
      changes nothing. */
  lemma {:induction false} ScanAgreeing(categories: seq<string>, stored: map<string, int>, mtimes: map<string, int>)
    requires forall c :: c in categories && c in mtimes ==> c in stored && stored[c] == mtimes[c]
    ensures ScanChanges(categories, stored, mtimes) == (false, stored)
    decreases |categories|
  {
    if categories != [] {
      assert categories[0] in categories;
      assert forall x :: x in categories[1..] ==> x in categories;
      ScanAgreeing(categories[1..], stored, mtimes);
    }
  }

  /** A scan that reports nothing leaves every present directory's time
      recorded, so scanning again at once reports nothing and changes nothing. */
  lemma {:induction false} ScanSettles(categories: seq<string>, stored: map<string, int>, mtimes: map<string, int>)
    ensures var r := ScanChanges(categories, stored, mtimes);
      !r.0 ==> ScanChanges(categories, r.1, mtimes) == (false, r.1)
  {
    var r := ScanChanges(categories, stored, mtimes);
    if !r.0 {
      ScanRecords(categories, stored, mtimes);
      ScanAgreeing(categories, r.1, mtimes);
    }
  }

  lemma {:induction false} ScanRecords(categories: seq<string>, stored: map<string, int>, mtimes: map<string, int>)
    ensures var r := ScanChanges(categories, stored, mtimes);
      !r.0 ==> forall c :: c in categories && c in mtimes ==> c in r.1 && r.1[c] == mtimes[c]
    decreases |categories|
  {
    if categories != [] {
      var c := categories[0];
      var rest := categories[1..];
      assert forall x :: x in categories <==> x == c || x in rest;
      if c !in mtimes {
        ScanRecords(rest, stored, mtimes);
      } else if c !in stored {
        var s' := stored[c := mtimes[c]];
        ScanRecords(rest, s', mtimes);
        ScanKeeps(rest, s', mtimes, c);
      } else if mtimes[c] == stored[c] {
        ScanRecords(rest, stored, mtimes);
        ScanKeeps(rest, stored, mtimes, c);
      }
    }
  }

  /** A time recorded as current stays recorded through the scan. */
  lemma {:induction false} ScanKeeps(categories: seq<string>, stored: map<string, int>, mtimes: map<string, int>, c: string)
    requires c in stored && c in mtimes && stored[c] == mtimes[c]
    ensures var r := ScanChanges(categories, stored, mtimes); c in r.1 && r.1[c] == mtimes[c]
    decreases |categories|
  {
    if categories != [] {
      var d := categories[0];
      if d !in mtimes {
        ScanKeeps(categories[1..], stored, mtimes, c);
      } else if d !in stored {
        ScanKeeps(categories[1..], stored[d := mtimes[d]], mtimes, c);
      } else if mtimes[d] == stored[d] {
        ScanKeeps(categories[1..], stored, mtimes, c);
      }
    }
  }

  // ---------------------------------------------------------------- the server

  /** What a successful upload reports: the name sent, the size stored and
      the stored file's name. */
  datatype Saved = Saved(filename: string, size: nat, location: string)

  /** FileResponse: a 200 with the file's bytes. HeadersOnly: a 200 whose
      body never comes, because the path is a directory and opening it in
      _stream_file_chunks fails, which that method swallows. */
  datatype GetResponse = MainPageResponse | FileListResponse | FileResponse(name: string, content: string)
                       | HeadersOnly(name: string) | NotFoundResponse

  /** Where save_to_vault puts a file: nowhere when a file stands where its
      category's directory should be; otherwise that directory is created
      and the file gets the free version of its safe name there. */
  ghost predicate SaveOutcome(vaultRoot: string, files: map<string, string>, dirs: set<string>,
                              filename: string, now: int, saved: Option<string>, dirsAfter: set<string>) {
    var dir := SecureStorage.TypedDirectory(vaultRoot, CategorizeFile(filename));
    && (dir in files ==> saved.None?)
    && (dir !in files ==>
          && saved.Some? && dirsAfter == dirs + {dir}
          && ConflictResolved(files.Keys + dirsAfter, Paths.Join(dir, EnsureSafeFilename(filename, now)), saved.value))
  }

  /** The upload's data went to p, the free version of its safe name in its
      category's directory, p did not exist, no other file changed, and the
      report names the upload, its size and p's basename. */
  ghost predicate StoredAt(vaultRoot: string, before: map<string, string>, dirs: set<string>,
                           after: map<string, string>, dirsAfter: set<string>, upload: Upload, now: int,
                           p: string, saved: Saved) {
    && SaveOutcome(vaultRoot, before, dirs, upload.filename, now, Some(p), dirsAfter)
    && p !in before && after == before[p := upload.data]
    && saved == Saved(upload.filename, |upload.data|, Paths.Basename(p))
  }

  ghost predicate Stored(vaultRoot: string, before: map<string, string>, dirs: set<string>,
                         after: map<string, string>, dirsAfter: set<string>, upload: Upload, now: int, saved: Saved) {
    exists p :: StoredAt(vaultRoot, before, dirs, after, dirsAfter, upload, now, p, saved)
  }

  lemma SavedIsStored(vaultRoot: string, before: map<string, string>, dirs: set<string>,
                      after: map<string, string>, dirsAfter: set<string>, upload: Upload, now: int, p: string)
    requires SaveOutcome(vaultRoot, before, dirs, upload.filename, now, Some(p), dirsAfter)
    requires p !in before && after == before[p := upload.data]
    ensures Stored(vaultRoot, before, dirs, after, dirsAfter, upload, now, Saved(upload.filename, |upload.data|, Paths.Basename(p)))
  {
    assert StoredAt(vaultRoot, before, dirs, after, dirsAfter, upload, now, p, Saved(upload.filename, |upload.data|, Paths.Basename(p)));
  }

  /** VaultFileTransferServer with the handler operations that act on it.
      The vault's files are a map from path to content; `dirs` are the
      directories that exist. */
  class TransferServer {
    const vaultRoot: string
    var files: map<string, string>
    var dirs: set<string>
    /** _cached_files: None, or the listing last cached. */
    var cachedFiles: Option<seq<string>>
    var fileTimestamps: map<string, int>
    var directoryTimestamps: map<string, int>

    constructor (vaultRoot: string, files: map<string, string>, dirs: set<string>)
      ensures this.vaultRoot == vaultRoot && this.files == files && this.dirs == dirs
      ensures cachedFiles.None? && fileTimestamps == map[] && directoryTimestamps == map[]
    {
      this.vaultRoot, this.files, this.dirs := vaultRoot, files, dirs;
      cachedFiles, fileTimestamps, directoryTimestamps := None, map[], map[];
    }

    /** The paths os.path.exists accepts. */
    function Existing(): set<string>
      reads this
    {
      files.Keys + dirs
    }

    /** _has_files_changed, given the current modification time of each
        category directory that exists. */
    method HasFilesChanged(mtimes: map<string, int>) returns (changed: bool)
      modifies this`directoryTimestamps
      ensures (changed, directoryTimestamps) == ScanChanges(TransferCategories, old(directoryTimestamps), mtimes)
    {
      var categories := TransferCategories;
      var stored := directoryTimestamps;
      var i := 0;
      while i < |categories|
        invariant 0 <= i <= |categories|
        invariant ScanChanges(categories[i..], stored, mtimes) == ScanChanges(categories, old(directoryTimestamps), mtimes)
      {
        var c := categories[i];
        assert categories[i..][1..] == categories[i + 1..];
        if c in mtimes {
          if c !in stored {
            stored := stored[c := mtimes[c]];
          } else if mtimes[c] != stored[c] {
            directoryTimestamps := stored[c := mtimes[c]];
            return true;
          }
        }
        i := i + 1;
      }
      directoryTimestamps := stored;
      return false;
    }

    /** invalidate_cache: the cached listing and the file times go; the
        directory times stay. */
    method InvalidateCache()
      modifies this`cachedFiles, this`fileTimestamps
      ensures cachedFiles.None? && fileTimestamps == map[]
      ensures files == old(files) && dirs == old(dirs)
    {
      cachedFiles, fileTimestamps := None, map[];
    }

    /** save_to_vault: the file goes into its category's directory (created
        if needed; a file in its place makes the save fail) under its safe
        name, numbered when that name exists. */
    method SaveToVault(filename: string, data: string, now: int) returns (saved: Option<string>)
      modifies this`files, this`dirs
      ensures SaveOutcome(vaultRoot, old(files), old(dirs), filename, now, saved, dirs)
      ensures saved.None? ==> files == old(files) && dirs == old(dirs)
      ensures saved.Some? ==> saved.value !in old(files) && files == old(files)[saved.value := data]
    {
      var dir := SecureStorage.TypedDirectory(vaultRoot, CategorizeFile(filename));
      if dir in files {
        return None;
      }
      dirs := dirs + {dir};
      var path := ResolveFilenameConflict(files.Keys + dirs, Paths.Join(dir, EnsureSafeFilename(filename, now)));
      files := files[path := data];
      return Some(path);
    }

    /** os.path.isdir: a directory, also when named with a trailing '/'. */
    predicate IsDirectory(p: string)
      reads this
    {
      p in dirs || (p != [] && p[|p| - 1] == '/' && p[..|p| - 1] in dirs)
    }

    /** do_GET on this server. */
    function HandleGet(target: string): (r: GetResponse)
      reads this
      ensures r.FileResponse? ==> exists p :: p in files && r.content == files[p] && r.name == Paths.Basename(p)
      ensures r.HeadersOnly? ==> exists p :: IsDirectory(p) && p !in files && r.name == Paths.Basename(p)
      ensures RouteGet(target).Download? ==>
        var resolved := ResolveFilePath(vaultRoot, RouteGet(target).relative);
        && (resolved.None? ==> r == NotFoundResponse)
        && (resolved.Some? && resolved.value in files ==>
              r == FileResponse(Paths.Basename(resolved.value), files[resolved.value]))
        && (resolved.Some? && resolved.value !in files && IsDirectory(resolved.value) ==>
              r == HeadersOnly(Paths.Basename(resolved.value)))
        && (resolved.Some? && resolved.value !in files && !IsDirectory(resolved.value) ==> r == NotFoundResponse)
    {
      match RouteGet(target)
      case MainPage => MainPageResponse
      case FileListing => FileListResponse
      case NotFound => NotFoundResponse
      case Download(relative) =>
        match ResolveFilePath(vaultRoot, relative)
        case None => NotFoundResponse
        case Some(p) =>
          if p in files then FileResponse(Paths.Basename(p), files[p])
          else if IsDirectory(p) then HeadersOnly(Paths.Basename(p))
          else NotFoundResponse
    }

    /** receive_file with _save_uploaded_file: the size gates, the in-memory
        or streamed parse, the save and the cache invalidation. Failures
        change nothing. */
    method ReceiveFile(contentLength: int, contentType: string, incoming: string, now: int,
                       formatBytes: int -> string)
      returns (r: Result<Saved>)
      modifies this`files, this`dirs, this`cachedFiles, this`fileTimestamps
      ensures UploadGate(contentLength).Refused? ==>
        r == Err(RefusalMessage(UploadGate(contentLength).reason, contentLength, formatBytes))
      ensures UploadGate(contentLength) == InMemory && InMemoryUpload(contentLength, contentType, incoming).Err? ==>
        r == Err(InMemoryUpload(contentLength, contentType, incoming).error)
      ensures r.Err? ==>
        files == old(files) && dirs == old(dirs) && cachedFiles == old(cachedFiles) && fileTimestamps == old(fileTimestamps)
      ensures r.Ok? ==>
        && (exists u :: Received(contentLength, contentType, incoming, u)
                        && Stored(vaultRoot, old(files), old(dirs), files, dirs, u, now, r.value))
        && cachedFiles.None? && fileTimestamps == map[]
    {
      var gate := UploadGate(contentLength);
      if gate.Refused? {
        return Err(RefusalMessage(gate.reason, contentLength, formatBytes));
      }
      var upload := ParseUpload(contentLength, contentType, incoming);
      if upload.Err? {
        return Err(upload.error);
      }
      r := StoreUpload(upload.value, now);
    }

    /** save_to_vault as _save_uploaded_file relies on it: the file lands
        at the free version of its safe name, a path that did not exist, or
        nothing changes. */
    method SaveFile(upload: Upload, now: int) returns (saved: Option<string>)
      modifies this`files, this`dirs
      ensures SaveOutcome(vaultRoot, old(files), old(dirs), upload.filename, now, saved, dirs)
      ensures saved.None? ==> files == old(files) && dirs == old(dirs)
      ensures saved.Some? ==> saved.value !in old(files) && files == old(files)[saved.value := upload.data]
    {
      saved := SaveToVault(upload.filename, upload.data, now);
    }

    /** _save_uploaded_file: the save, then the cache invalidation; a failed
        save changes nothing. */
    method StoreUpload(upload: Upload, now: int) returns (r: Result<Saved>)
      modifies this`files, this`dirs, this`cachedFiles, this`fileTimestamps
      ensures r.Err? ==> r.error == "Failed to save file to vault"
      ensures r.Err? ==>
        files == old(files) && dirs == old(dirs) && cachedFiles == old(cachedFiles) && fileTimestamps == old(fileTimestamps)
      ensures r.Ok? ==>
        && Stored(vaultRoot, old(files), old(dirs), files, dirs, upload, now, r.value)
        && cachedFiles.None? && fileTimestamps == map[]
    {
      var saved := SaveFile(upload, now);
      if saved.None? {
        return Err("Failed to save file to vault");
      }
      SavedIsStored(vaultRoot, old(files), old(dirs), files, dirs, upload, now, saved.value);
      InvalidateCache();
      r := Ok(Saved(upload.filename, |upload.data|, Paths.Basename(saved.value)));
    }
  }
}
