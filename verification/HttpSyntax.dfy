/** Header parsing of internal/capture/engine.go: each function reads only the bytes it is given. */
module HttpSyntax {
  import opened Bytes

  datatype Request = Request(verb: bytes, path: bytes, headers: map<bytes, bytes>, body: bytes)

  datatype Response = Response(status: int, headers: map<bytes, bytes>, body: bytes)

  predicate IsResponse(data: bytes) {
    HasPrefix(data, Ascii("HTTP"))
  }

  /** Whether the first bytes of a stream are recognised as HTTP. */
  predicate LooksLikeHttp(data: bytes) {
    |data| == 0 || IsResponse(data)
    || exists k :: 0 <= k < |METHOD_PREFIXES| && HasPrefix(data, METHOD_PREFIXES[k])
  }

  const METHOD_PREFIXES: seq<bytes> :=
    [Ascii("GET "), Ascii("POST"), Ascii("PUT "), Ascii("DELE"), Ascii("PATC"),
     Ascii("HEAD"), Ascii("OPTI"), Ascii("CONN"), Ascii("TRAC")]

  /** The value of the first Content-Length line; -1 when there is none or it does not scan. */
  function ContentLength(header: bytes): int {
    ContentLengthIn(Split(ToLower(header), LF))
  }

  function ContentLengthIn(lines: seq<bytes>): int {
    if lines == [] then -1
    else
      var line := TrimSpace(TrimCr(lines[0]));
      if HasPrefix(line, Ascii("content-length:")) then
        match ScanInt(TrimSpace(line[15..]))
        case None => -1
        case Some(n) => n
      else ContentLengthIn(lines[1..])
  }

  /** The engine cuts 17 bytes, one short of the field name, so the value keeps its colon. */
  function TransferEncoding(header: bytes): bytes
    decreases |header|
  {
    var nl := IndexFrom(header, [LF], 0);
    if nl < 0 then []
    else
      var line := TrimCr(TrimBlanks(header[..nl]));
      if HasPrefix(ToLower(line), Ascii("transfer-encoding:")) then TrimBlanks(line[17..])
      else TransferEncoding(header[nl + 1..])
  }

  predicate Chunked(header: bytes) {
    Contains(TransferEncoding(header), Ascii("chunked"))
  }

  predicate EventStream(header: bytes) {
    Contains(ToLower(header), Ascii("text/event-stream"))
  }

  predicate MayHaveNoBody(status: int) {
    100 <= status < 200 || status == 204 || status == 304
  }

  /** The status of the first line; 0 when it does not scan. */
  function StatusCode(header: bytes): int {
    var nl := IndexFrom(header, [LF], 0);
    if nl < 0 then 0
    else
      var line := TrimBlanks(header[..nl]);
      var sp1 := IndexFrom(line, [SP], 0);
      if sp1 < 0 then 0
      else
        var rest := line[sp1 + 1..];
        var sp2 := IndexFrom(rest, [SP], 0);
        match ScanInt(if sp2 >= 0 then rest[..sp2] else rest)
        case None => 0
        case Some(n) => n
  }

  function ResponseHeaders(lines: seq<bytes>): map<bytes, bytes> {
    if lines == [] || TrimCr(lines[0]) == [] then map[]
    else
      var line := TrimCr(lines[0]);
      var colon := IndexFrom(line, [COLON], 0);
      var later := ResponseHeaders(lines[1..]);
      if colon > 0 then
        map[TrimSpace(line[..colon]) := TrimSpace(line[colon + 1..])] + later
      else later
  }

  function ParseResponseParts(header: bytes, body: bytes): (r: Option<Response>)
    ensures r.Some? ==> 100 <= r.value.status <= 599 && r.value.body == body
  {
    var lines := Split(header, LF);
    var first := TrimCr(lines[0]);
    var sp1 := IndexFrom(first, [SP], 0);
    if sp1 < 0 then None
    else
      var rest := first[sp1 + 1..];
      var sp2 := IndexFrom(rest, [SP], 0);
      match ScanInt(if sp2 >= 0 then rest[..sp2] else rest)
      case None => None
      case Some(status) =>
        if status < 100 || status > 599 then None
        else Some(Response(status, ResponseHeaders(lines[1..]), body))
  }

  function ParseResponse(data: bytes): Option<Response> {
    var end := IndexFrom(data, CRLF_CRLF, 0);
    if end < 0 then None else ParseResponseParts(data[..end], data[end + 4..])
  }

  /** Header lines that end in a line feed; the last line of a block, which has none, is not read. */
  function RequestHeaders(block: bytes): map<bytes, bytes>
    decreases |block|
  {
    var nl := IndexFrom(block, [LF], 0);
    if nl < 0 then map[]
    else
      var line := TrimCr(TrimBlanks(block[..nl]));
      if line == [] then map[]
      else
        var colon := IndexFrom(line, [COLON], 0);
        var later := RequestHeaders(block[nl + 1..]);
        if colon > 0 then map[line[..colon] := TrimBlanks(line[colon + 1..])] + later else later
  }

  /** Whatever stands after the last line feed of a header block is not read: the last header of every request is lost. */
  lemma {:induction false} LastLineUnread(block: bytes, last: bytes)
    requires (block == [] || block[|block| - 1] == LF) && LF !in last
    ensures RequestHeaders(block + last) == RequestHeaders(block)
    decreases |block|
  {
    hide TrimBlanks;
    if block == [] {
      assert block + last == last;
      NoByte(last, LF);
    } else {
      FindsLine(block);
      var nl := IndexFrom(block, [LF], 0);
      IndexFromAppend(block, last, [LF], 0);
      assert (block + last)[..nl] == block[..nl];
      assert (block + last)[nl + 1..] == block[nl + 1..] + last;
      LastLineUnread(block[nl + 1..], last);
    }
  }

  lemma FindsLine(s: bytes)
    requires s != [] && s[|s| - 1] == LF
    ensures IndexFrom(s, [LF], 0) >= 0
  {
    var end := |s| - 1;
    assert s[end..end + 1] == [LF];
    assert At(s, [LF], end);
    IndexFromIsLeast(s, [LF], 0);
  }

  function Rooted(path: bytes): bytes {
    if HasPrefix(path, [SLASH]) then path else [SLASH] + path
  }

  /** None when the block has no blank-line end, no second line, or no space in its first line. */
  function ParseRequest(data: bytes): Option<Request> {
    var end := IndexFrom(data, CRLF_CRLF, 0);
    if end < 0 then None
    else
      var block := data[..end];
      var nl := IndexFrom(block, [LF], 0);
      if nl < 0 then None
      else
        var line := TrimBlanks(block[..nl]);
        var sp1 := IndexFrom(line, [SP], 0);
        if sp1 < 0 then None
        else
          var rest := line[sp1 + 1..];
          var sp2 := IndexFrom(rest, [SP], 0);
          var target := if sp2 >= 0 then rest[..sp2] else rest;
          Some(Request(line[..sp1], Rooted(target), RequestHeaders(block[nl + 1..]), data[end + 4..]))
  }
}
