/** The chunked coding of section 7.1 of RFC 9112, without trailers, and its round trip through Framing. */
module ChunkedCodec {
  import opened Bytes
  import opened HttpSyntax
  import opened Framing

  /** A chunk as a sender may write it: any digits for its size, then any extension. */
  datatype Chunk = Chunk(digits: bytes, ext: bytes, data: bytes)

  predicate SizeLine(digits: bytes, ext: bytes) {
    && digits != [] && AllHex(digits)
    && CR !in ext && LF !in ext
    && (ext == [] || !IsHexDigit(ext[0]))
  }

  predicate ValidChunk(c: Chunk) {
    && SizeLine(c.digits, c.ext)
    && HexValue(c.digits) == |c.data|
    && 1 <= |c.data| <= MAX_CHUNK
  }

  predicate ValidBody(chunks: seq<Chunk>, last: Chunk) {
    && (forall c :: c in chunks ==> ValidChunk(c))
    && SizeLine(last.digits, last.ext) && HexValue(last.digits) == 0
  }

  function EncodeChunk(c: Chunk): bytes {
    c.digits + c.ext + CRLF + c.data + CRLF
  }

  function EncodeBody(chunks: seq<Chunk>, last: Chunk): bytes {
    if chunks == [] then last.digits + last.ext + CRLF + CRLF
    else EncodeChunk(chunks[0]) + EncodeBody(chunks[1..], last)
  }

  // ---- The size line ----

  lemma {:induction false} TrimRightAfter(digits: bytes, ext: bytes)
    requires digits != [] && !IsSpace(digits[|digits| - 1])
    ensures TrimRight(ext) <= ext
    ensures TrimRight(digits + ext) == digits + TrimRight(ext)
    decreases |ext|
  {
    if ext == [] {
      assert digits + ext == digits;
    } else if IsSpace(ext[|ext| - 1]) {
      TrimRightAfter(digits, ext[..|ext| - 1]);
      assert (digits + ext)[..|digits + ext| - 1] == digits + ext[..|ext| - 1];
    }
  }

  lemma {:induction false} HexRunAfter(digits: bytes, rest: bytes)
    requires AllHex(digits) && (rest == [] || !IsHexDigit(rest[0]))
    ensures HexRun(digits + rest) == |digits|
  {
    if digits == [] {
      assert digits + rest == rest;
    } else {
      HexRunAfter(digits[1..], rest);
      assert (digits + rest)[1..] == digits[1..] + rest;
    }
  }

  lemma SizeLineScans(digits: bytes, ext: bytes)
    requires SizeLine(digits, ext) && HexValue(digits) <= MAX_CHUNK
    ensures ChunkSize(digits + ext) == Some(HexValue(digits))
    ensures CR !in digits + ext
  {
    TrimRightAfter(digits, ext);
    var kept := TrimRight(ext);
    assert TrimLeft(digits + ext) == digits + ext;
    HexRunAfter(digits, kept);
    assert (digits + kept)[..|digits|] == digits;
  }

  /** The first CRLF after `before` ends the line that stands there. */
  lemma LineEndsAt(before: bytes, line: bytes, rest: bytes)
    requires CR !in line
    ensures IndexFrom(before + line + CRLF + rest, CRLF, |before|) == |before| + |line|
  {
    var whole := before + line + CRLF + rest;
    var nl := |before| + |line|;
    assert whole[nl..nl + 2] == CRLF;
    forall k | |before| <= k < nl
      ensures !At(whole, CRLF, k)
    {
      assert whole[k] == line[k - |before|] && whole[k] in line;
      assert whole[k..k + 2][0] == whole[k];
    }
    IndexFromUnique(whole, CRLF, |before|, nl);
  }

  // ---- Round trip ----

  lemma LineAt(before: bytes, line: bytes, rest: bytes)
    requires CR !in line
    ensures var whole := before + line + CRLF + rest;
      && IndexFrom(whole, CRLF, |before|) == |before| + |line|
      && whole[|before|..|before| + |line|] == line
      && whole[|before| + |line| + 2..] == rest
  {
    hide At, IndexFrom;
    LineEndsAt(before, line, rest);
    var whole := before + line + CRLF + rest;
    assert whole[..|before| + |line|] == before + line;
  }

  lemma LastChunkEndsAt(whole: bytes, pos: nat, nl: nat)
    requires pos <= nl <= |whole| && IndexFrom(whole, CRLF, pos) == nl
    requires ChunkSize(whole[pos..nl]) == Some(0) && nl + 4 <= |whole| && whole[nl + 2] == CR && whole[nl + 3] == LF
    ensures ChunkedEndFrom(whole, pos) == nl + 4
  {
    hide ChunkSize, At, IndexFrom;
  }

  lemma DataChunkEndsAt(whole: bytes, pos: nat, nl: nat, size: nat)
    requires pos <= nl <= |whole| && IndexFrom(whole, CRLF, pos) == nl
    requires ChunkSize(whole[pos..nl]) == Some(size) && size > 0 && nl + size + 4 <= |whole|
    ensures ChunkedEndFrom(whole, pos) == ChunkedEndFrom(whole, nl + size + 4)
  {
    hide ChunkSize, At, IndexFrom;
  }

  lemma {:induction false} BodyEndsAt(before: bytes, chunks: seq<Chunk>, last: Chunk, tail: bytes)
    requires ValidBody(chunks, last)
    ensures var body := EncodeBody(chunks, last);
      ChunkedEndFrom(before + body + tail, |before|) == |before| + |body|
    decreases |chunks|
  {
    hide ChunkSize, SizeLine, HexValue, At, IndexFrom, ChunkedEndFrom;
    var whole := before + EncodeBody(chunks, last) + tail;
    if chunks == [] {
      var line := last.digits + last.ext;
      SizeLineScans(last.digits, last.ext);
      var nl := |before| + |line|;
      LineAt(before, line, CRLF + tail);
      assert whole == before + line + CRLF + (CRLF + tail);
      assert whole[nl + 2] == whole[nl + 2..][0] == CR && whole[nl + 3] == whole[nl + 2..][1] == LF;
      LastChunkEndsAt(whole, |before|, nl);
    } else {
      var c := chunks[0];
      var line := c.digits + c.ext;
      var rest := EncodeBody(chunks[1..], last) + tail;
      assert c in chunks;
      SizeLineScans(c.digits, c.ext);
      LineAt(before, line, c.data + CRLF + rest);
      FirstChunk(before, c, EncodeBody(chunks[1..], last), tail);
      DataChunkEndsAt(whole, |before|, |before| + |line|, |c.data|);
      BodyEndsAt(before + EncodeChunk(c), chunks[1..], last, tail);
    }
  }

  lemma FirstChunk(before: bytes, c: Chunk, later: bytes, tail: bytes)
    ensures var whole := before + (EncodeChunk(c) + later) + tail;
      && whole == before + (c.digits + c.ext) + CRLF + (c.data + CRLF + (later + tail))
      && whole == before + EncodeChunk(c) + later + tail
  {
  }

  /** An end found on a prefix is the end on the whole. */
  lemma ChunkedPrefix(data: bytes, k: nat)
    requires k <= |data|
    ensures ChunkedEnd(data[..k]) == -1 || ChunkedEnd(data[..k]) == ChunkedEnd(data) <= k
  {
    hide ChunkedEndFrom;
    if ChunkedEnd(data[..k]) >= 0 {
      ChunkedEndStable(data[..k], data[k..], 0);
      assert data[..k] + data[k..] == data;
    }
  }

  /** Every encoded body is found whole, whatever follows it, and no proper prefix of it is taken for a body. */
  lemma ChunkedRoundTrip(chunks: seq<Chunk>, last: Chunk, tail: bytes)
    requires ValidBody(chunks, last)
    ensures var body := EncodeBody(chunks, last);
      && ChunkedEnd(body + tail) == |body|
      && forall k :: 0 <= k < |body| ==> ChunkedEnd(body[..k]) == -1
  {
    hide ChunkedEndFrom, ValidBody, EncodeBody;
    var body := EncodeBody(chunks, last);
    BodyEndsAt([], chunks, last, tail);
    assert [] + body + tail == body + tail;
    BodyEndsAt([], chunks, last, []);
    assert [] + body + [] == body;
    forall k | 0 <= k < |body|
      ensures ChunkedEnd(body[..k]) == -1
    {
      ChunkedPrefix(body, k);
    }
  }

  // ---- A whole message ----

  /** A header block: its only blank line is the CRLF CRLF that ends it. */
  predicate HeaderBlock(h: bytes) {
    && |h| >= 4
    && IndexFrom(h, CRLF_CRLF, 0) == |h| - 4
    && IndexFrom(h, LF_LF, 0) == -1
  }

  /** `body` is a body of the length that the header announces. */
  ghost predicate Announces(h: bytes, body: bytes) {
    if ContentLength(h) >= 0 then |body| == ContentLength(h)
    else if Chunked(h) then exists chunks, last :: ValidBody(chunks, last) && body == EncodeBody(chunks, last)
    else body == []
  }

  lemma HeaderBlockClean(h: bytes, rest: bytes)
    requires HeaderBlock(h)
    ensures HeaderClean(h + rest)
    ensures HeaderEnd(h + rest) == |h|
  {
    IndexFromAppend(h, rest, CRLF_CRLF, 0);
    var whole := h + rest;
    var lf := IndexFrom(whole, LF_LF, 0);
    IndexFromIsLeast(whole, LF_LF, 0);
    IndexFromIsLeast(h, LF_LF, 0);
    IndexFromIsLeast(h, CRLF_CRLF, 0);
    if 0 <= lf <= |h| - 4 {
      AtAppend(h, rest, LF_LF, lf);
    }
  }

  /** A message is framed exactly at its end: not before its last byte arrives, not later whatever follows. */
  lemma MessageRoundTrip(h: bytes, body: bytes, tail: bytes)
    requires HeaderBlock(h) && Announces(h, body)
    ensures MessageEnd(h + body + tail) == |h| + |body|
    ensures forall k :: 0 <= k < |h + body| ==> MessageEnd((h + body)[..k]) == -1
  {
    hide HeaderClean, HeaderBlock, ContentLength, Chunked;
    MessageEndsAt(h, body, tail);
    MessageEndsAt(h, body, []);
    HeaderBlockClean(h, body);
    var whole := h + body;
    assert whole + [] == whole;
    forall k | 0 <= k < |whole|
      ensures MessageEnd(whole[..k]) == -1
    {
      assert whole[..k] + whole[k..] == whole;
      if MessageEnd(whole[..k]) >= 0 {
        CleanEndStable(whole[..k], whole[k..]);
      }
    }
  }

  lemma MessageEndsAt(h: bytes, body: bytes, tail: bytes)
    requires HeaderBlock(h) && Announces(h, body)
    ensures MessageEnd(h + body + tail) == |h| + |body|
  {
    hide HeaderBlock, HeaderClean, HeaderEnd, ContentLength, Chunked;
    HeaderBlockClean(h, body + tail);
    var whole := h + body + tail;
    assert whole == h + (body + tail);
    assert whole[..|h|] == h;
    assert whole[|h|..] == body + tail;
    if ContentLength(h) < 0 && Chunked(h) {
      var chunks, last :| ValidBody(chunks, last) && body == EncodeBody(chunks, last);
      ChunkedRoundTrip(chunks, last, tail);
    }
  }

  // ---- The plain encoder: lower-case digits, no extension ----

  function HexDigits(n: nat): (d: bytes)
    ensures d != [] && AllHex(d)
  {
    var low := n % 16;
    var digit: byte := if low < 10 then (48 + low) as byte else (87 + low) as byte;
    if n < 16 then [digit] else HexDigits(n / 16) + [digit]
  }

  lemma {:induction false} HexDigitsValue(n: nat)
    ensures HexValue(HexDigits(n)) == n
  {
    var d := HexDigits(n);
    if n >= 16 {
      HexDigitsValue(n / 16);
      assert d[..|d| - 1] == HexDigits(n / 16);
    } else {
      assert d[..|d| - 1] == [];
    }
  }

  function PlainChunk(data: bytes): Chunk {
    Chunk(HexDigits(|data|), [], data)
  }

  /** Every list of chunks of 1 byte to 100 MiB, plainly encoded, is framed at its own length and no earlier. */
  lemma PlainRoundTrip(datas: seq<bytes>, tail: bytes)
    requires forall d :: d in datas ==> 1 <= |d| <= 104_857_600
    ensures var chunks := seq(|datas|, i requires 0 <= i < |datas| => PlainChunk(datas[i]));
      var body := EncodeBody(chunks, PlainChunk([]));
      && ChunkedEnd(body + tail) == |body|
      && forall k :: 0 <= k < |body| ==> ChunkedEnd(body[..k]) == -1
  {
    var chunks := seq(|datas|, i requires 0 <= i < |datas| => PlainChunk(datas[i]));
    forall c | c in chunks
      ensures ValidChunk(c)
    {
      HexDigitsValue(|c.data|);
    }
    HexDigitsValue(0);
    ChunkedRoundTrip(chunks, PlainChunk([]), tail);
  }

  lemma HugeSize(digits: bytes, ext: bytes)
    requires SizeLine(digits, ext) && HexValue(digits) > 104_857_600
    ensures ChunkSize(digits + ext) == None
  {
    hide HexValue;
    TrimRightAfter(digits, ext);
    var kept := TrimRight(ext);
    assert TrimLeft(digits + ext) == digits + ext;
    HexRunAfter(digits, kept);
    assert (digits + kept)[..|digits|] == digits;
  }

  /** A chunk announced as larger than 100 MiB is never taken for a part of a body. */
  lemma HugeChunkRefused(digits: bytes, ext: bytes, rest: bytes)
    requires SizeLine(digits, ext) && HexValue(digits) > 104_857_600
    ensures ChunkedEnd(digits + ext + CRLF + rest) == -1
  {
    HugeSize(digits, ext);
    hide ChunkSize, HexValue, AllHex, At, IndexFrom;
    assert CR !in digits + ext by { NoCr(digits, ext); }
    LineAt([], digits + ext, rest);
    assert [] + (digits + ext) + CRLF + rest == digits + ext + CRLF + rest;
  }

  lemma NoCr(digits: bytes, ext: bytes)
    requires SizeLine(digits, ext)
    ensures CR !in digits + ext
  {
  }

  /** After the last chunk a bare line feed ends the body as well. */
  lemma BareFeedEnds(last: Chunk, tail: bytes)
    requires SizeLine(last.digits, last.ext) && HexValue(last.digits) == 0
    ensures ChunkedEnd(last.digits + last.ext + CRLF + [LF] + tail) == |last.digits| + |last.ext| + 3
  {
    var line := last.digits + last.ext;
    var whole := line + CRLF + [LF] + tail;
    SizeLineScans(last.digits, last.ext);
    LineAt([], line, [LF] + tail);
    hide ChunkSize, At, IndexFrom;
    assert [] + line + CRLF + ([LF] + tail) == whole && whole[|line| + 2] == LF;
  }

  /** Capital digits stand for the same number. */
  lemma {:induction false} HexIgnoresCase(digits: bytes, n: nat)
    requires ToLower(digits) == HexDigits(n)
    ensures AllHex(digits) && HexValue(digits) == n
    decreases |digits|
  {
    var lower, last := HexDigits(n), |digits| - 1;
    assert |digits| == |lower|;
    assert LowerByte(digits[last]) == ToLower(digits)[last] == lower[last];
    LowerHex(digits[last], n % 16);
    if n < 16 {
      assert digits[..last] == [];
    } else {
      assert ToLower(digits[..last]) == ToLower(digits)[..last] == HexDigits(n / 16);
      HexIgnoresCase(digits[..last], n / 16);
      assert digits == digits[..last] + [digits[last]];
    }
  }

  lemma LowerHex(b: byte, low: nat)
    requires low < 16 && LowerByte(b) == if low < 10 then (48 + low) as byte else (87 + low) as byte
    ensures IsHexDigit(b) && HexDigitValue(b) == low
  {
  }
}
