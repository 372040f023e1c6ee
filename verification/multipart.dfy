/** The upload side of the transfer server: the boundary parameter of a
    multipart/form-data Content-Type, the split of a body into parts at the
    boundary delimiter, the first file part's filename and content
    (section 5.1.1 of RFC 2046, section 4.2 of RFC 7578), and the chunked
    read loop used for large bodies. Bodies are byte strings; here each
    byte is one character. */
module Multipart {
  import opened Wrappers
  import opened Strings

  const CRLF: string := "\r\n"
  /** The blank line that ends a part's headers. */
  const HeaderEnd: string := "\r\n\r\n"
  const FilenameMarker: string := "filename=\""
  const Disposition: string := "Content-Disposition: form-data"
  /** Bytes asked for per read by the streaming parser. */
  const ChunkSize: nat := 64 * 1024

  // ---------------------------------------------------------------- splitting

  /** No match starts before i, so the text before i holds no match. */
  lemma NoMatchBefore(s: string, sep: string, i: nat)
    requires sep != [] && i <= |s|
    requires forall j :: 0 <= j < i ==> !OccursAt(s, sep, j)
    ensures !Contains(s[..i], sep)
  {
    forall j: nat ensures !OccursAt(s[..i], sep, j) {
      if j + |sep| <= i {
        assert s[..i] + s[i..] == s;
        OccursInPrefix(s[..i], s[i..], sep, j);
      }
    }
  }

  /** bytes.split(sep) for a non-empty separator. */
  function SplitOn(s: string, sep: string): (r: seq<string>)
    requires sep != []
    ensures |r| >= 1
    ensures forall k :: 0 <= k < |r| ==> !Contains(r[k], sep)
    decreases |s|
  {
    match Find(s, sep)
    case None => [s]
    case Some(i) =>
      NoMatchBefore(s, sep, i);
      [s[..i]] + SplitOn(s[i + |sep|..], sep)
  }

  /** One step of the split: the text before the first separator, then the
      pieces of what follows it. */
  lemma SplitOnStep(s: string, sep: string, i: nat)
    requires sep != [] && Find(s, sep) == Some(i)
    ensures i + |sep| <= |s|
    ensures SplitOn(s, sep) == [s[..i]] + SplitOn(s[i + |sep|..], sep)
  {
  }

  /** Joining the pieces with the separator gives back the text. */
  lemma {:induction false} SplitOnJoin(s: string, sep: string)
    requires sep != []
    ensures Join(SplitOn(s, sep), sep) == s
    decreases |s|
  {
    match Find(s, sep)
    case None =>
    case Some(i) =>
      var rest := s[i + |sep|..];
      SplitOnStep(s, sep, i);
      SplitOnJoin(rest, sep);
      JoinCons(s[..i], SplitOn(rest, sep), sep);
      assert s == s[..i] + sep + rest;
  }

  /** A text containing x, followed by anything, contains x. */
  lemma ContainsInFront(a: string, b: string, x: string)
    requires Contains(a, x)
    ensures Contains(a + b, x)
  {
    var j := Find(a, x).value;
    OccursInPrefix(a, b, x, j);
  }

  /** Anything followed by a text containing x contains x. */
  lemma ContainsBehind(a: string, b: string, x: string)
    requires Contains(b, x)
    ensures Contains(a + b, x)
  {
    var m := Find(b, x).value;
    OccursShifted(a, b, x, m);
  }

  /** Whatever a piece contains, the text contains. */
  lemma {:induction false} SplitOnPieceInText(s: string, sep: string, piece: string, x: string)
    requires sep != [] && piece in SplitOn(s, sep)
    requires Contains(piece, x)
    ensures Contains(s, x)
    decreases |s|
  {
    if Find(s, sep).None? {
      return;
    }
    var i := Find(s, sep).value;
    var rest := s[i + |sep|..];
    SplitOnStep(s, sep, i);
    if piece == s[..i] {
      assert s == piece + s[i..];
      ContainsInFront(piece, s[i..], x);
    } else {
      assert piece in SplitOn(rest, sep);
      SplitOnPieceInText(rest, sep, piece, x);
      assert s == s[..i + |sep|] + rest;
      ContainsBehind(s[..i + |sep|], rest, x);
    }
  }

  /** The position a `for x in s: if p(x): return` scan stops at (|s| when
      it runs off the end). */
  function FirstIndex<T>(s: seq<T>, p: T -> bool): (i: nat)
    ensures i <= |s|
    ensures forall j :: 0 <= j < i ==> !p(s[j])
    ensures i < |s| ==> p(s[i])
  {
    if s == [] || p(s[0]) then 0 else 1 + FirstIndex(s[1..], p)
  }

  // ---------------------------------------------------------------- boundary

  predicate IsQuote(c: char) { c == '"' }

  function Unquote(s: string): string { StripBy(s, IsQuote) }

  /** A parameter that, trimmed, starts with "boundary=". */
  predicate BoundaryParam(param: string) { StartsWith(Strip(param), "boundary=") }

  /** The parameter's value: after the first '=', quotes stripped. */
  function BoundaryValue(param: string): string
    requires BoundaryParam(param)
  {
    Unquote(Strip(param)[9..])
  }

  /** The scan of _extract_boundary over the ';'-separated parameters. */
  function BoundaryIn(params: seq<string>): (r: Option<string>)
    ensures r.None? <==> forall k :: 0 <= k < |params| ==> !BoundaryParam(params[k])
    ensures r.Some? ==>
      exists k ::
        && 0 <= k < |params|
        && BoundaryParam(params[k])
        && (forall j :: 0 <= j < k ==> !BoundaryParam(params[j]))
        && r.value == BoundaryValue(params[k])
  {
    var i := FirstIndex(params, BoundaryParam);
    if i < |params| then Some(BoundaryValue(params[i])) else None
  }

  /** _extract_boundary: the value of the first parameter that starts with
      "boundary=", up to nothing, with surrounding quotes removed. */
  function ExtractBoundary(contentType: string): Option<string> {
    BoundaryIn(Split(contentType, ';'))
  }

  /** A boundary that can be written bare in a header parameter. */
  predicate PlainToken(b: string) {
    b != [] && forall k :: 0 <= k < |b| ==> b[k] != ';' && b[k] != '"' && !IsSpace(b[k])
  }

  const FormData: string := "multipart/form-data"

  /** The Content-Type a browser sends with a form upload. */
  function FormDataType(b: string): string {
    FormData + ";" + (" boundary=" + b)
  }

  /** A separator that occurs once splits the text in two. */
  lemma SplitAtOnly(head: string, tail: string, c: char)
    requires c !in head && c !in tail
    ensures Split(head + [c] + tail, c) == [head, tail]
  {
    var s := head + [c] + tail;
    assert s[..|head|] == head && s[|head|] == c;
    assert IndexOfChar(s, c) == |head|;
    assert s[|head| + 1..] == tail;
    assert Split(tail, c) == [tail];
  }

  lemma StripLeadingSpace(inner: string)
    requires inner != [] && !IsSpace(inner[0]) && !IsSpace(inner[|inner| - 1])
    ensures Strip(" " + inner) == inner
  {
    var s := " " + inner;
    assert RStripBy(s, IsSpace) == s;
    assert s[1..] == inner;
    assert LStripBy(s, IsSpace) == LStripBy(inner, IsSpace);
  }

  /** The header a browser sends for a form upload yields its boundary back. */
  lemma BoundaryOfContentType(b: string)
    requires PlainToken(b)
    ensures ExtractBoundary(FormDataType(b)) == Some(b)
  {
    FormDataParams(b);
    BoundaryParamValue(b);
    FormDataIsNoParam();
    SecondParamIsBoundary(FormData, " boundary=" + b);
  }

  lemma FormDataIsNoParam()
    ensures !BoundaryParam(FormData)
  {
    var f := FormData;
    assert f[0] == 'm' && f[|f| - 1] == 'a';
    StripUnchanged(f);
    assert f[..9][0] != "boundary="[0];
  }

  /** The form-data Content-Type has two parameters. */
  lemma FormDataParams(b: string)
    requires PlainToken(b)
    ensures Split(FormDataType(b), ';') == [FormData, " boundary=" + b]
  {
    var tail := " boundary=" + b;
    assert ';' !in " boundary=";
    assert ';' !in FormData;
    SplitAtOnly(FormData, tail, ';');
    assert FormData + [';'] + tail == FormDataType(b);
  }

  /** The second parameter names the boundary. */
  lemma BoundaryParamValue(b: string)
    requires PlainToken(b)
    ensures BoundaryParam(" boundary=" + b) && BoundaryValue(" boundary=" + b) == b
  {
    var inner := "boundary=" + b;
    assert " boundary=" + b == " " + inner;
    StripLeadingSpace(inner);
    assert inner[..9] == "boundary=" && inner[9..] == b;
    UnquotePlain(b);
  }

  lemma UnquotePlain(b: string)
    requires PlainToken(b)
    ensures Unquote(b) == b
  {
    assert RStripBy(b, IsQuote) == b;
    assert LStripBy(b, IsQuote) == b;
  }

  lemma SecondParamIsBoundary(p0: string, p1: string)
    requires !BoundaryParam(p0) && BoundaryParam(p1)
    ensures BoundaryIn([p0, p1]) == Some(BoundaryValue(p1))
  {
    assert [p0, p1][1..] == [p1];
    assert FirstIndex([p1], BoundaryParam) == 0;
    assert FirstIndex([p0, p1], BoundaryParam) == 1;
  }

  // ---------------------------------------------------------------- filename

  /** One header line: the text between 'filename="' and the next quote. */
  function FilenameInLine(line: string): (r: Option<string>)
    ensures r.Some? ==> '"' !in r.value && Contains(line, "filename=")
  {
    if !Contains(line, "filename=") then None
    else
      match Find(line, FilenameMarker)
      case None => None
      case Some(start) =>
        match FindFrom(line, "\"", start + |FilenameMarker|)
        case None => None
        case Some(end) =>
          NoQuoteBetween(line, start + |FilenameMarker|, end);
          Some(line[start + |FilenameMarker|..end])
  }

  lemma NoQuoteBetween(line: string, lo: nat, hi: nat)
    requires lo <= hi <= |line|
    requires forall j :: lo <= j < hi ==> !OccursAt(line, "\"", j)
    ensures '"' !in line[lo..hi]
  {
    forall k | 0 <= k < hi - lo ensures line[lo..hi][k] != '"' {
      assert !OccursAt(line, "\"", lo + k);
      assert line[lo + k..lo + k + 1] == [line[lo + k]];
    }
  }

  predicate NamesFile(line: string) { FilenameInLine(line).Some? }

  /** The first line that yields a filename. */
  function FilenameInLines(lines: seq<string>): (r: Option<string>)
    ensures r.None? <==> forall k :: 0 <= k < |lines| ==> FilenameInLine(lines[k]).None?
    ensures r.Some? ==>
      exists k ::
        && 0 <= k < |lines|
        && FilenameInLine(lines[k]) == r
        && forall j :: 0 <= j < k ==> FilenameInLine(lines[j]).None?
  {
    var i := FirstIndex(lines, NamesFile);
    if i < |lines| then FilenameInLine(lines[i]) else None
  }

  /** _extract_filename_from_buffer */
  function ExtractFilename(buffer: string): Option<string> {
    FilenameInLines(SplitOn(buffer, CRLF))
  }

  /** A filename is only ever found in a buffer holding "filename=", so the
      streaming parser's guard never hides one. */
  lemma FilenameNeedsMarker(buffer: string)
    requires ExtractFilename(buffer).Some?
    ensures Contains(buffer, "filename=")
  {
    var lines := SplitOn(buffer, CRLF);
    var k :| 0 <= k < |lines| && FilenameInLine(lines[k]) == ExtractFilename(buffer);
    SplitOnPieceInText(buffer, CRLF, lines[k], "filename=");
  }

  // ---------------------------------------------------------------- parts

  datatype FilePart = FilePart(filename: Option<string>, data: string)

  /** The part _parse_multipart_upload accepts: it names a file, has a
      form-data disposition and a blank line after its headers. */
  predicate FilePartShape(part: string) {
    Contains(part, "filename=") && Contains(part, Disposition) && Contains(part, HeaderEnd)
  }

  /** A part's filename (from its header lines) and its content: what
      follows the first blank line, less one trailing CRLF. */
  function PartContent(part: string): (r: FilePart)
    requires Contains(part, HeaderEnd)
    ensures var i := Find(part, HeaderEnd).value;
      && r.filename == FilenameInLines(SplitOn(part[..i], CRLF))
      && (r.data == part[i + 4..] || r.data + CRLF == part[i + 4..])
  {
    var i := Find(part, HeaderEnd).value;
    var content := part[i + 4..];
    var data := if EndsWith(content, CRLF) then content[..|content| - 2] else content;
    assert EndsWith(content, CRLF) ==> data + CRLF == content;
    FilePart(FilenameInLines(SplitOn(part[..i], CRLF)), data)
  }

  /** The scan over the parts: the first part of the accepted shape. */
  function FirstFilePart(parts: seq<string>): (r: Option<FilePart>)
    ensures r.None? <==> forall k :: 0 <= k < |parts| ==> !FilePartShape(parts[k])
    ensures r.Some? ==>
      exists k ::
        && 0 <= k < |parts|
        && FilePartShape(parts[k])
        && (forall j :: 0 <= j < k ==> !FilePartShape(parts[j]))
        && r.value == PartContent(parts[k])
  {
    var i := FirstIndex(parts, FilePartShape);
    if i < |parts| then Some(PartContent(parts[i])) else None
  }

  /** _parse_multipart_upload: a missing or empty boundary raises; otherwise
      the body is split at "--" + boundary and the first file part, if any,
      is returned (None standing for the pair (None, None)). */
  function ParseMultipartUpload(contentType: string, body: string): (r: Result<Option<FilePart>>)
    ensures r.Err? <==> ExtractBoundary(contentType).None? || ExtractBoundary(contentType) == Some("")
    ensures r.Err? ==> r.error == "Upload boundary not found"
  {
    match ExtractBoundary(contentType)
    case None => Err("Upload boundary not found")
    case Some(b) =>
      if b == "" then Err("Upload boundary not found")
      else Ok(FirstFilePart(SplitOn(body, "--" + b)))
  }

  // ---------------------------------------------------------------- a well-formed upload

  /** The delimiter line of section 5.1.1 of RFC 2046: "--" + boundary. */
  function Delimiter(b: string): string { "--" + b }

  /** What follows the closing delimiter. */
  const ClosingTail: string := "--\r\n"

  /** The header lines of the file part, each preceded by a line break. */
  function HeaderBlock(disposition: string, contentType: string): string {
    CRLF + disposition + CRLF + ("Content-Type: " + contentType)
  }

  /** The text between the opening and the closing delimiter. */
  function PartText(disposition: string, contentType: string, data: string): string {
    HeaderBlock(disposition, contentType) + HeaderEnd + (data + CRLF)
  }

  /** The body a browser sends for one file field. */
  function UploadBody(b: string, disposition: string, contentType: string, data: string): string {
    Delimiter(b) + PartText(disposition, contentType, data) + Delimiter(b) + ClosingTail
  }

  /** No delimiter starts inside the part (the rule of section 5.1.1 of
      RFC 2046 that the boundary must not occur in the encapsulated text). */
  predicate DelimiterFree(part: string, delimiter: string) {
    forall j :: 0 <= j < |part| ==> !OccursAt(part + delimiter, delimiter, j)
  }

  /** A disposition header line naming `filename`. */
  predicate DispositionLine(disposition: string, filename: string) {
    && StartsWith(disposition, Disposition)
    && '\r' !in disposition
    && FilenameInLine(disposition) == Some(filename)
  }

  /** A prefix without CR holds no start of a pattern that begins with CR,
      so searching a + s finds what searching s finds, shifted by |a|. */
  lemma FindPastCrFree(a: string, s: string, pat: string)
    requires '\r' !in a && pat != [] && pat[0] == '\r'
    ensures Find(a + s, pat) == if Find(s, pat).None? then None else Some(|a| + Find(s, pat).value)
  {
    forall j: nat | j < |a| ensures !OccursAt(a + s, pat, j) {
      if j + |pat| <= |a + s| {
        assert (a + s)[j..j + |pat|][0] == a[j];
      }
    }
    match Find(s, pat)
    case None =>
      forall j: nat | |a| <= j ensures !OccursAt(a + s, pat, j) {
        OccursShifted(a, s, pat, j - |a|);
      }
      FindNone(a + s, pat);
    case Some(i) =>
      forall j: nat | |a| <= j < |a| + i ensures !OccursAt(a + s, pat, j) {
        OccursShifted(a, s, pat, j - |a|);
      }
      OccursShifted(a, s, pat, i);
      FindIs(a + s, pat, |a| + i);
  }

  /** What a piece contains, a text around it contains. */
  lemma ContainsGrows(s: string, t: string, x: string)
    requires Contains(s, x)
    ensures Contains(s + t, x) && Contains(t + s, x)
  {
    FindExtend(s, t, x);
    OccursShifted(t, s, x, Find(s, x).value);
  }

  /** In CRLF + x + CRLF + y with no CR in x and y, both non-empty, the
      first blank line is the one right after y. */
  lemma FirstHeaderEnd(x: string, y: string, rest: string)
    requires '\r' !in x && '\r' !in y && x != [] && y != []
    ensures var h := CRLF + x + CRLF + y;
      Find(h + HeaderEnd + rest, HeaderEnd) == Some(|h|)
  {
    var h := CRLF + x + CRLF + y;
    var s := h + HeaderEnd + rest;
    assert s[|h|..|h| + 4] == HeaderEnd;
    forall j | 0 <= j < |h| ensures !OccursAt(s, HeaderEnd, j) {
      if j == 0 {
        assert s[j + 2] == x[0];
      } else if j == 1 {
        assert s[j] == '\n';
      } else if j < 2 + |x| {
        assert s[j] == x[j - 2];
      } else if j == 2 + |x| {
        assert s[j + 2] == y[0];
      } else if j == 3 + |x| {
        assert s[j] == '\n';
      } else {
        assert s[j] == y[j - 4 - |x|];
      }
      NotHeaderEndAt(s, j);
    }
    FindIs(s, HeaderEnd, |h|);
  }

  /** A window whose first or third byte is not CR is no blank line. */
  lemma NotHeaderEndAt(s: string, j: nat)
    requires j + 4 <= |s|
    requires s[j] != '\r' || s[j + 2] != '\r'
    ensures !OccursAt(s, HeaderEnd, j)
  {
    if s[j] != '\r' {
      assert s[j..j + 4][0] == s[j];
    } else {
      assert s[j..j + 4][2] == s[j + 2];
    }
  }

  /** A line without CR is split off at the CRLF that follows it. */
  lemma SplitLine(x: string, y: string)
    requires '\r' !in x
    ensures SplitOn(x + CRLF + y, CRLF) == [x] + SplitOn(y, CRLF)
  {
    var s := x + CRLF + y;
    assert s[|x|..|x| + 2] == CRLF;
    forall j | 0 <= j < |x| ensures !OccursAt(s, CRLF, j) {
      assert s[j..j + 2][0] == s[j] == x[j];
    }
    FindIs(s, CRLF, |x|);
    assert s[..|x|] == x && s[|x| + 2..] == y;
  }

  lemma NoLineBreak(x: string)
    requires '\r' !in x
    ensures SplitOn(x, CRLF) == [x]
  {
    forall j: nat | j + 2 <= |x| ensures !OccursAt(x, CRLF, j) {
      assert x[j..j + 2][0] == x[j];
    }
    FindNone(x, CRLF);
  }

  /** The headers of the file part split into its three lines. */
  lemma HeaderLines(disposition: string, contentType: string)
    requires '\r' !in disposition && '\r' !in contentType
    ensures SplitOn(HeaderBlock(disposition, contentType), CRLF)
         == ["", disposition, "Content-Type: " + contentType]
  {
    var y := "Content-Type: " + contentType;
    assert '\r' !in "Content-Type: ";
    assert HeaderBlock(disposition, contentType) == "" + CRLF + (disposition + CRLF + y);
    SplitLine("", disposition + CRLF + y);
    SplitLine(disposition, y);
    NoLineBreak(y);
  }

  /** The closing tail holds no delimiter: its third byte is CR, while the
      delimiter's third byte is the boundary's first. */
  lemma NoDelimiterInTail(b: string)
    requires PlainToken(b)
    ensures SplitOn(ClosingTail, Delimiter(b)) == [ClosingTail]
  {
    var d := Delimiter(b);
    assert d[1] == '-' && d[2] == b[0] && b[0] != '\r';
    forall j: nat | j + |d| <= |ClosingTail| ensures !OccursAt(ClosingTail, d, j) {
      if j == 0 {
        assert ClosingTail[j..j + |d|][2] == '\r';
      } else {
        assert ClosingTail[j..j + |d|][1] == '\r';
      }
    }
    FindNone(ClosingTail, d);
  }

  /** The body splits at the delimiter into the empty preamble, the part
      and the closing tail. */
  lemma BodyPieces(b: string, part: string)
    requires PlainToken(b) && DelimiterFree(part, Delimiter(b))
    ensures SplitOn(Delimiter(b) + part + Delimiter(b) + ClosingTail, Delimiter(b))
         == ["", part, ClosingTail]
  {
    var d := Delimiter(b);
    var body := d + part + d + ClosingTail;
    var rest := part + d + ClosingTail;
    assert body == d + rest;
    assert body[..|d|] == d;
    FindIs(body, d, 0);
    assert body[..0] == "" && body[|d|..] == rest;
    forall j | 0 <= j < |part| ensures !OccursAt(rest, d, j) {
      OccursInPrefix(part + d, ClosingTail, d, j);
    }
    assert rest[|part|..|part| + |d|] == d;
    FindIs(rest, d, |part|);
    assert rest[..|part|] == part && rest[|part| + |d|..] == ClosingTail;
    NoDelimiterInTail(b);
  }

  /** Whatever the disposition line contains, the part contains. */
  lemma ContainsInPart(disposition: string, contentType: string, data: string, x: string)
    requires Contains(disposition, x)
    ensures Contains(PartText(disposition, contentType, data), x)
  {
    ContainsGrows(disposition, CRLF, x);
    ContainsGrows(CRLF + disposition, CRLF, x);
    ContainsGrows(CRLF + disposition + CRLF, "Content-Type: " + contentType, x);
    ContainsGrows(HeaderBlock(disposition, contentType), HeaderEnd, x);
    ContainsGrows(HeaderBlock(disposition, contentType) + HeaderEnd, data + CRLF, x);
  }

  /** The part of a well-formed upload has the accepted shape and yields
      its filename and its data. */
  lemma PartFields(disposition: string, filename: string, contentType: string, data: string)
    requires DispositionLine(disposition, filename) && '\r' !in contentType
    ensures FilePartShape(PartText(disposition, contentType, data))
    ensures PartContent(PartText(disposition, contentType, data)) == FilePart(Some(filename), data)
  {
    var y := "Content-Type: " + contentType;
    var h := HeaderBlock(disposition, contentType);
    var part := PartText(disposition, contentType, data);
    assert '\r' !in "Content-Type: ";
    assert |disposition| >= |Disposition|;
    FirstHeaderEnd(disposition, y, data + CRLF);
    assert Find(part, HeaderEnd) == Some(|h|);
    assert part[..|h|] == h && part[|h| + 4..] == data + CRLF;
    HeaderLines(disposition, contentType);
    assert FilenameInLine("") == None;
    SecondLineFilename("", disposition, y);
    assert PartContent(part).filename == Some(filename);
    var content := data + CRLF;
    assert EndsWith(content, CRLF) && content[..|content| - 2] == data;
    assert PartContent(part).data == data;
    FindIs(disposition, Disposition, 0);
    ContainsInPart(disposition, contentType, data, Disposition);
    ContainsInPart(disposition, contentType, data, "filename=");
  }

  lemma SecondLineFilename(l0: string, l1: string, l2: string)
    requires FilenameInLine(l0).None? && FilenameInLine(l1).Some?
    ensures FilenameInLines([l0, l1, l2]) == FilenameInLine(l1)
  {
    assert [l0, l1, l2][1..] == [l1, l2];
    assert FirstIndex([l1, l2], NamesFile) == 0;
    assert FirstIndex([l0, l1, l2], NamesFile) == 1;
  }

  /** Parsing a well-formed single-file upload gives back its filename and
      its content exactly. */
  lemma ParseUploadRoundTrip(b: string, disposition: string, filename: string, contentType: string, data: string)
    requires PlainToken(b)
    requires DispositionLine(disposition, filename)
    requires '\r' !in contentType
    requires DelimiterFree(PartText(disposition, contentType, data), Delimiter(b))
    ensures ParseMultipartUpload(FormDataType(b), UploadBody(b, disposition, contentType, data))
         == Ok(Some(FilePart(Some(filename), data)))
  {
    BoundaryOfContentType(b);
    BodyPieces(b, PartText(disposition, contentType, data));
    PartFields(disposition, filename, contentType, data);
    assert !Contains("", "filename=");
    SecondPartIsFile("", PartText(disposition, contentType, data), ClosingTail);
  }

  lemma SecondPartIsFile(p0: string, p1: string, p2: string)
    requires !FilePartShape(p0) && FilePartShape(p1)
    ensures FirstFilePart([p0, p1, p2]) == Some(PartContent(p1))
  {
    assert [p0, p1, p2][1..] == [p1, p2];
    assert FirstIndex([p1, p2], FilePartShape) == 0;
    assert FirstIndex([p0, p1, p2], FilePartShape) == 1;
  }

  // ---------------------------------------------------------------- streaming

  /** What the streaming parser writes to its temporary file when it has
      received `received`: everything after the first blank line, or nothing
      while no blank line has arrived. */
  function StreamedData(received: string): (r: string)
    ensures Contains(received, HeaderEnd) ==> EndsWith(received, r)
    ensures !Contains(received, HeaderEnd) ==> r == ""
  {
    match Find(received, HeaderEnd)
    case None => ""
    case Some(h) => received[h + 4..]
  }

  /** Once the blank line has arrived, every further byte is appended as is. */
  lemma StreamedDataGrows(received: string, more: string)
    requires Contains(received, HeaderEnd)
    ensures StreamedData(received + more) == StreamedData(received) + more
  {
    FindExtend(received, more, HeaderEnd);
    var h := Find(received, HeaderEnd).value;
    assert (received + more)[h + 4..] == received[h + 4..] + more;
  }

  /** A well-formed upload received whole keeps its closing delimiter in the
      streamed file: the stored content is the data followed by CRLF, the
      closing delimiter and its tail. */
  lemma StreamKeepsClosingDelimiter(b: string, disposition: string, filename: string, contentType: string, data: string)
    requires PlainToken(b)
    requires DispositionLine(disposition, filename)
    requires '\r' !in contentType
    ensures StreamedData(UploadBody(b, disposition, contentType, data))
         == (data + CRLF) + (Delimiter(b) + ClosingTail)
    ensures StreamedData(UploadBody(b, disposition, contentType, data)) != data
  {
    var d := Delimiter(b);
    var y := "Content-Type: " + contentType;
    var h := HeaderBlock(disposition, contentType);
    var part := PartText(disposition, contentType, data);
    var rest := data + CRLF;
    var after := d + ClosingTail;
    assert '\r' !in "Content-Type: " && '\r' !in "--";
    assert |disposition| >= |Disposition|;
    FirstHeaderEnd(disposition, y, rest);
    FindExtend(part, after, HeaderEnd);
    FindPastCrFree(d, part + after, HeaderEnd);
    BodyAfterHeaders(d, h, rest, ClosingTail);
  }

  lemma BodyAfterHeaders(d: string, h: string, rest: string, tail: string)
    ensures var body := d + ((h + HeaderEnd) + rest) + d + tail;
      && body == d + (((h + HeaderEnd) + rest) + (d + tail))
      && body[|d| + |h| + 4..] == rest + (d + tail)
  {
    var body := d + ((h + HeaderEnd) + rest) + d + tail;
    assert body == (d + h + HeaderEnd) + (rest + (d + tail));
  }

  /** The intended content of a streamed upload: the streamed bytes up to
      the first CRLF + delimiter, as the in-memory path cuts them. */
  function StreamedFileData(received: string, b: string): (r: string)
    ensures StartsWith(StreamedData(received), r)
    ensures Contains(StreamedData(received), CRLF + Delimiter(b)) ==>
      Find(StreamedData(received), CRLF + Delimiter(b)) == Some(|r|)
  {
    CutAtClosing(StreamedData(received), b)
  }

  /** The content in front of the first CRLF + delimiter (all of it when
      there is none). */
  function CutAtClosing(written: string, b: string): (r: string)
    ensures StartsWith(written, r)
    ensures Contains(written, CRLF + Delimiter(b)) ==> Find(written, CRLF + Delimiter(b)) == Some(|r|)
    ensures !Contains(written, CRLF + Delimiter(b)) ==> r == written
  {
    match Find(written, CRLF + Delimiter(b))
    case None => written
    case Some(i) => written[..i]
  }

  /** For a well-formed upload the corrected streamed content equals what
      the in-memory parser returns. */
  lemma StreamedFileDataMatchesInMemory(b: string, disposition: string, filename: string, contentType: string, data: string)
    requires PlainToken(b)
    requires DispositionLine(disposition, filename)
    requires '\r' !in contentType
    requires DelimiterFree(PartText(disposition, contentType, data), Delimiter(b))
    ensures StreamedFileData(UploadBody(b, disposition, contentType, data), b) == data
    ensures ParseMultipartUpload(FormDataType(b), UploadBody(b, disposition, contentType, data))
         == Ok(Some(FilePart(Some(filename), data)))
  {
    ParseUploadRoundTrip(b, disposition, filename, contentType, data);
    StreamKeepsClosingDelimiter(b, disposition, filename, contentType, data);
    var d := Delimiter(b);
    DelimiterFreeSuffix(HeaderBlock(disposition, contentType) + HeaderEnd, data + CRLF, d);
    FirstCrlfDelimiter(data, d, ClosingTail);
  }

  /** A suffix of a delimiter-free text is delimiter-free. */
  lemma DelimiterFreeSuffix(pre: string, text: string, d: string)
    requires DelimiterFree(pre + text, d)
    ensures DelimiterFree(text, d)
  {
    assert (pre + text) + d == pre + (text + d);
    forall j | 0 <= j < |text| ensures !OccursAt(text + d, d, j) {
      assert !OccursAt((pre + text) + d, d, |pre| + j);
      OccursShifted(pre, text + d, d, j);
    }
  }

  /** In data + CRLF + delimiter + tail, with no delimiter starting inside
      data + CRLF, the first CRLF + delimiter follows the data. */
  lemma FirstCrlfDelimiter(data: string, d: string, tail: string)
    requires DelimiterFree(data + CRLF, d)
    ensures Find((data + CRLF) + (d + tail), CRLF + d) == Some(|data|)
    ensures ((data + CRLF) + (d + tail))[..|data|] == data
  {
    var cd := CRLF + d;
    var x := data + cd;
    var s := (data + CRLF) + (d + tail);
    assert s == x + tail;
    assert (data + CRLF) + d == x;
    assert cd[2..] == d;
    assert x[|data|..|data| + |cd|] == cd;
    OccursInPrefix(x, tail, cd, |data|);
    forall j | 0 <= j < |data| ensures !OccursAt(s, cd, j) {
      assert !OccursAt(x, d, j + 2);
      OccursInPrefix(x, tail, d, j + 2);
      assert s[j..j + |cd|][2..] == s[j + 2..j + 2 + |d|];
    }
    FindIs(s, cd, |data|);
  }

  /** One read request of the loop: the bytes read before it and the
      number of bytes it asks for. */
  datatype Read = Read(before: nat, asked: nat)

  /** The loop's parsing state after `received` has arrived: before the
      blank line everything is buffered and nothing written; after it the
      buffer is drained on every read and the written bytes are exactly
      the streamed data. */
  ghost predicate LoopState(received: string, inFileData: bool, buffer: string, written: string) {
    && (!inFileData ==> buffer == received && written == "" && !Contains(received, HeaderEnd))
    && (inFileData ==> buffer == "" && Contains(received, HeaderEnd))
    && written == StreamedData(received)
  }

  /** The part of one iteration that moves bytes from the grown buffer to
      the temporary file. */
  method Absorb(inFileData: bool, grown: string, written: string, ghost received: string, ghost chunk: string)
    returns (inFileData': bool, buffer': string, written': string)
    requires !inFileData ==> grown == received + chunk && written == "" && !Contains(received, HeaderEnd)
    requires inFileData ==> grown == chunk && Contains(received, HeaderEnd)
    requires written == StreamedData(received)
    ensures LoopState(received + chunk, inFileData', buffer', written')
  {
    if !inFileData && Contains(grown, HeaderEnd) {
      var headerEnd := Find(grown, HeaderEnd).value + 4;
      var fileStart := grown[headerEnd..];
      buffer' := "";
      inFileData' := true;
      written' := written;
      if fileStart != [] {
        written' := written' + fileStart;
      }
    } else if inFileData {
      StreamedDataGrows(received, chunk);
      FindExtend(received, chunk, HeaderEnd);
      written' := written + grown;
      buffer' := "";
      inFileData' := true;
    } else {
      inFileData', buffer', written' := false, grown, written;
    }
  }

  /** The filename step of one iteration: while no (non-empty) name is
      known, a buffer holding "filename=" is searched for one. */
  method NoteFilename(filename: Option<string>, grown: string) returns (f: Option<string>)
    requires filename.Some? ==> '"' !in filename.value
    ensures f.Some? ==> '"' !in f.value
    ensures filename.Some? && filename != Some("") ==> f == filename
    ensures ExtractFilename(grown).Some? && (filename.None? || filename == Some("")) ==> f == ExtractFilename(grown)
  {
    f := filename;
    if (filename.None? || filename == Some("")) && Contains(grown, "filename=") {
      f := ExtractFilename(grown);
    }
    if ExtractFilename(grown).Some? {
      FilenameNeedsMarker(grown);
    }
  }

  /** _stream_parse_multipart's read loop over the bytes `incoming` the
      client sends (a read returns fewer bytes only at the end of the
      stream). It stops at content_length or at the end of the stream. */
  method StreamParseMultipart(contentLength: int, incoming: string)
    returns (filename: Option<string>, written: string, bytesRead: nat, ghost requests: seq<Read>)
    ensures bytesRead == if contentLength <= 0 then 0
                         else if contentLength < |incoming| then contentLength else |incoming|
    ensures written == StreamedData(incoming[..bytesRead])
    ensures ReadsWithin(requests, contentLength)
    ensures filename.Some? ==> '"' !in filename.value
    ensures var first := incoming[..FirstChunkEnd(contentLength, |incoming|)];
      ExtractFilename(first).Some? && ExtractFilename(first) != Some("") ==> filename == ExtractFilename(first)
  {
    filename := None;
    written := "";
    bytesRead := 0;
    requests := [];
    var inFileData := false;
    var buffer := "";
    ghost var first := incoming[..FirstChunkEnd(contentLength, |incoming|)];
    ghost var received := "";
    while bytesRead < contentLength
      invariant bytesRead <= |incoming| && (bytesRead == 0 || bytesRead <= contentLength)
      invariant received == incoming[..bytesRead]
      invariant LoopState(received, inFileData, buffer, written)
      invariant ReadsWithin(requests, contentLength)
      invariant FilenameState(first, bytesRead, filename)
      decreases contentLength - bytesRead
    {
      var remaining := Min(ChunkSize, contentLength - bytesRead);
      var end := Min(bytesRead + remaining, |incoming|);
      if end <= bytesRead {
        break;
      }
      var chunk := incoming[bytesRead..end];
      ReadsWithinStep(requests, contentLength, Read(bytesRead, remaining));
      requests := requests + [Read(bytesRead, remaining)];
      assert bytesRead == 0 ==> chunk == first;
      SliceExtend(incoming, bytesRead, end);
      filename, inFileData, buffer, written :=
        Consume(filename, inFileData, buffer, written, received, chunk, first, bytesRead);
      bytesRead := end;
      received := received + chunk;
    }
  }

  /** One iteration after a read returned `chunk`. */
  method Consume(filename: Option<string>, inFileData: bool, buffer: string, written: string,
                 ghost received: string, chunk: string, ghost first: string, ghost bytesRead: nat)
    returns (filename': Option<string>, inFileData': bool, buffer': string, written': string)
    requires LoopState(received, inFileData, buffer, written)
    requires FilenameState(first, bytesRead, filename)
    requires bytesRead == 0 ==> received == "" && chunk == first
    ensures LoopState(received + chunk, inFileData', buffer', written')
    ensures FilenameState(first, bytesRead + 1, filename')
  {
    var grown := buffer + chunk;
    if bytesRead == 0 {
      assert buffer == "" && grown == first;
    }
    filename' := NoteFilename(filename, grown);
    inFileData', buffer', written' := Absorb(inFileData, grown, written, received, chunk);
  }

  /** Every read asks for one chunk at most and never past content_length. */
  ghost predicate ReadsWithin(requests: seq<Read>, contentLength: int) {
    forall k :: 0 <= k < |requests| ==>
      0 < requests[k].asked <= ChunkSize && requests[k].before + requests[k].asked <= contentLength
  }

  lemma ReadsWithinStep(requests: seq<Read>, contentLength: int, r: Read)
    requires ReadsWithin(requests, contentLength)
    requires 0 < r.asked <= ChunkSize && r.before + r.asked <= contentLength
    ensures ReadsWithin(requests + [r], contentLength)
  {
  }

  /** Nothing is named before the first read; afterwards the name the
      first chunk gives (when it gives a non-empty one) is kept. */
  ghost predicate FilenameState(first: string, bytesRead: nat, filename: Option<string>) {
    && (filename.Some? ==> '"' !in filename.value)
    && (bytesRead == 0 ==> filename.None?)
    && (bytesRead > 0 && ExtractFilename(first).Some? && ExtractFilename(first) != Some("") ==>
          filename == ExtractFilename(first))
  }

  lemma SliceExtend(s: string, i: nat, j: nat)
    requires i <= j <= |s|
    ensures s[..j] == s[..i] + s[i..j]
  {
  }

  function Min(a: int, b: int): int { if a < b then a else b }

  /** Where the first read stops: at most one chunk, at most content_length
      bytes, at most what the client sent. */
  function FirstChunkEnd(contentLength: int, sent: nat): (n: nat)
    ensures n <= sent
    ensures contentLength > 0 && sent > 0 ==> n > 0
  {
    if contentLength <= 0 then 0 else Min(Min(contentLength, ChunkSize), sent)
  }
}
