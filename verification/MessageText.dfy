/** Requests and responses as they are written, and what the engine reads back of them. */
module MessageText {
  import opened Bytes
  import opened HttpSyntax

  datatype Field = Field(name: bytes, value: bytes)

  /** No white space at either end. */
  predicate Trimmed(s: bytes) {
    s != [] ==> !IsSpace(s[0]) && !IsSpace(s[|s| - 1])
  }

  predicate ValidField(f: Field) {
    && f.name != [] && COLON !in f.name && LF !in f.name && LF !in f.value
    && Trimmed(f.name) && Trimmed(f.value)
  }

  function FieldLine(f: Field): bytes {
    f.name + [COLON, SP] + f.value
  }

  /** Lines after the first, each behind a CRLF. */
  function FieldLines(fields: seq<Field>): bytes {
    if fields == [] then [] else CRLF + FieldLine(fields[0]) + FieldLines(fields[1..])
  }

  function Digit(d: nat): byte
    requires d < 10
  {
    (48 + d) as byte
  }

  /** The last three digits of a status. */
  function StatusText(status: nat): bytes {
    [Digit(status / 100 % 10), Digit(status / 10 % 10), Digit(status % 10)]
  }

  function FirstLine(version: bytes, status: nat, reason: bytes): bytes {
    version + [SP] + StatusText(status) + [SP] + reason
  }

  /** A header block without its blank line. */
  function Written(version: bytes, status: nat, reason: bytes, fields: seq<Field>): bytes {
    FirstLine(version, status, reason) + FieldLines(fields)
  }

  /** A later line of a name replaces an earlier one. */
  function FieldMap(fields: seq<Field>): map<bytes, bytes> {
    if fields == [] then map[] else map[fields[0].name := fields[0].value] + FieldMap(fields[1..])
  }

  // ---- Where the block ends ----

  /** A line feed is never the last byte, nor followed by white space. */
  predicate Inside(block: bytes) {
    forall i :: 0 <= i < |block| && block[i] == LF ==> i + 1 < |block| && !IsSpace(block[i + 1])
  }

  lemma TrimmedKeeps(s: bytes)
    requires Trimmed(s)
    ensures TrimSpace(s) == s
  {
  }

  lemma InsideJoins(first: bytes, rest: bytes)
    requires LF !in first && Inside(rest) && rest != [] && !IsSpace(rest[0])
    ensures Inside(first + CRLF + rest)
  {
    var block := first + CRLF + rest;
    forall i | 0 <= i < |first|
      ensures block[i] != LF
    {
      assert first[i] in first;
    }
    forall i | |first| + 2 <= i < |block|
      ensures block[i] == rest[i - |first| - 2]
    {
    }
  }

  lemma {:induction false} BlockInside(first: bytes, fields: seq<Field>)
    requires LF !in first && forall f :: f in fields ==> ValidField(f)
    ensures Inside(first + FieldLines(fields))
    decreases |fields|
  {
    hide Inside;
    if fields == [] {
      NoLines(first);
      NoneInside(first);
    } else {
      var f, later := fields[0], fields[1..];
      assert f in fields;
      FirstLines(first, fields);
      LineStarts(f, FieldLines(later));
      hide FieldLine, FieldLines;
      BlockInside(FieldLine(f), later);
      InsideJoins(first, FieldLine(f) + FieldLines(later));
    }
  }

  lemma LineStarts(f: Field, rest: bytes)
    requires ValidField(f)
    ensures LF !in FieldLine(f) && FieldLine(f) + rest != [] && !IsSpace((FieldLine(f) + rest)[0])
  {
  }

  lemma NoneInside(line: bytes)
    requires LF !in line
    ensures Inside(line)
  {
  }

  lemma BlockEnds(block: bytes, body: bytes)
    requires Inside(block)
    ensures var data := block + CRLF_CRLF + body;
      IndexFrom(data, CRLF_CRLF, 0) == |block| && data[..|block|] == block && data[|block| + 4..] == body
  {
    var data := block + CRLF_CRLF + body;
    assert data[|block|..|block| + 4] == CRLF_CRLF;
    forall k | 0 <= k < |block|
      ensures !At(data, CRLF_CRLF, k)
    {
      assert data[k..k + 4][1] == data[k + 1] && data[k..k + 4][2] == data[k + 2];
      assert k + 1 < |block| ==> data[k + 1] == block[k + 1];
      assert k + 2 < |block| ==> data[k + 2] == block[k + 2];
    }
    IndexFromUnique(data, CRLF_CRLF, 0, |block|);
  }

  // ---- Lines ----

  /** The lines that a line and the lines behind it are cut into. */
  function Cut(line: bytes, fields: seq<Field>): (lines: seq<bytes>)
    ensures lines != []
    decreases |fields|
  {
    if fields == [] then [line] else [line + [CR]] + Cut(FieldLine(fields[0]), fields[1..])
  }

  lemma SplitFirst(line: bytes, rest: bytes)
    requires LF !in line
    ensures Split(line + [LF] + rest, LF) == [line] + Split(rest, LF)
  {
    var s := line + [LF] + rest;
    FirstByte(s, LF, |line|);
    SplitStep(s, LF);
    hide Split, IndexFrom;
    assert s[..|line|] == line && s[|line| + 1..] == rest;
  }

  lemma {:induction false} WrittenSplits(line: bytes, fields: seq<Field>)
    requires LF !in line && forall f :: f in fields ==> ValidField(f)
    ensures Split(line + FieldLines(fields), LF) == Cut(line, fields)
    decreases |fields|
  {
    hide TrimSpace, Split;
    if fields == [] {
      assert line + [] == line;
      NoByte(line, LF);
      SplitStep(line, LF);
    } else {
      var f, later := fields[0], FieldLines(fields[1..]);
      assert f in fields;
      WrittenSplits(FieldLine(f), fields[1..]);
      SplitFirst(line + [CR], FieldLine(f) + later);
      assert line + (CRLF + FieldLine(f) + later) == line + [CR] + [LF] + (FieldLine(f) + later);
    }
  }

  // ---- Fields ----

  lemma SpaceTrims(value: bytes)
    requires Trimmed(value)
    ensures TrimSpace([SP] + value) == value
  {
    TrimmedKeeps(value);
    assert ([SP] + value)[1..] == value;
  }

  lemma FieldReads(f: Field)
    requires ValidField(f)
    ensures var line := FieldLine(f);
      && IndexFrom(line, [COLON], 0) == |f.name| > 0
      && TrimSpace(line[..|f.name|]) == f.name && TrimSpace(line[|f.name| + 1..]) == f.value
      && TrimCr(line) == line != [] && TrimCr(line + [CR]) == line
  {
    hide TrimSpace;
    var line := FieldLine(f);
    TrimmedKeeps(f.name);
    SpaceTrims(f.value);
    FirstByte(line, COLON, |f.name|);
    assert line[..|f.name|] == f.name && line[|f.name| + 1..] == [SP] + f.value;
    assert (line + [CR])[..|line|] == line;
  }

  lemma {:induction false} FieldsRead(f: Field, later: seq<Field>)
    requires ValidField(f) && forall g :: g in later ==> ValidField(g)
    ensures ResponseHeaders(Cut(FieldLine(f), later)) == FieldMap([f] + later)
    decreases |later|
  {
    hide TrimSpace, TrimCr, IndexFrom, ValidField, FieldLine;
    FieldReads(f);
    var lines := Cut(FieldLine(f), later);
    assert ([f] + later)[1..] == later;
    if later == [] {
      assert lines[1..] == [] && ResponseHeaders([]) == map[];
    } else {
      assert later[0] in later;
      assert lines[1..] == Cut(FieldLine(later[0]), later[1..]);
      FieldsRead(later[0], later[1..]);
      assert [later[0]] + later[1..] == later;
    }
  }

  // ---- The status ----

  lemma StatusScans(status: nat)
    requires status < 1000
    ensures ScanInt(StatusText(status)) == Some(status)
  {
    var s := StatusText(status);
    assert TrimLeft(s) == s;
    assert s[3..] == [] && s[2..][1..] == s[3..] && s[1..][1..] == s[2..];
    assert DigitRun(s[3..]) == 0 && DigitRun(s[2..]) == 1 && DigitRun(s[1..]) == 2 && DigitRun(s) == 3;
    assert s[..3] == s && s[..2][..1] == s[..1] && s[..1][..0] == [];
    assert DecimalValue(s[..1]) == status / 100;
    assert DecimalValue(s[..2]) == status / 10;
    assert DecimalValue(s) == status;
  }

  lemma FirstLineReads(version: bytes, status: nat, reason: bytes)
    requires status < 1000 && SP !in version
    ensures var line := FirstLine(version, status, reason);
      && IndexFrom(line, [SP], 0) == |version|
      && var rest := line[|version| + 1..];
      && IndexFrom(rest, [SP], 0) == 3 && rest[..3] == StatusText(status)
  {
    var line := FirstLine(version, status, reason);
    FirstByte(line, SP, |version|);
    var rest := line[|version| + 1..];
    assert rest == StatusText(status) + [SP] + reason;
    FirstByte(rest, SP, 3);
  }

  lemma FirstLineClean(version: bytes, status: nat, reason: bytes)
    requires status < 1000 && LF !in version && LF !in reason && (reason == [] || reason[|reason| - 1] != CR)
    ensures var line := FirstLine(version, status, reason);
      LF !in line && TrimCr(line) == line && TrimCr(line + [CR]) == line
  {
    var line := FirstLine(version, status, reason);
    assert (line + [CR])[..|line|] == line;
  }

  lemma CutReads(line: bytes, fields: seq<Field>)
    requires forall f :: f in fields ==> ValidField(f)
    ensures var lines := Cut(line, fields);
      && lines[0] == (if fields == [] then line else line + [CR])
      && ResponseHeaders(lines[1..]) == FieldMap(fields)
  {
    hide ValidField, ResponseHeaders;
    var lines := Cut(line, fields);
    if fields == [] {
      assert lines[1..] == [] && ResponseHeaders([]) == map[] by { NoHeaders(); }
    } else {
      assert fields[0] in fields && [fields[0]] + fields[1..] == fields;
      assert lines[1..] == Cut(FieldLine(fields[0]), fields[1..]);
      FieldsRead(fields[0], fields[1..]);
    }
  }

  lemma NoHeaders()
    ensures ResponseHeaders([]) == map[]
  {
  }

  /**
   A written response is read back: its status, its last value for each name, and its body. It is refused when the status
   is not one from 100 to 599.
   */
  lemma ResponseRoundTrip(version: bytes, status: nat, reason: bytes, fields: seq<Field>, body: bytes)
    requires status < 1000 && SP !in version && LF !in version
    requires LF !in reason && (reason == [] || reason[|reason| - 1] != CR)
    requires forall f :: f in fields ==> ValidField(f)
    ensures ParseResponse(Written(version, status, reason, fields) + CRLF_CRLF + body) ==
      if 100 <= status <= 599 then Some(Response(status, FieldMap(fields), body)) else None
  {
    hide TrimSpace, IndexFrom, Split, ScanInt, ValidField, FirstLine, TrimCr, Cut, FieldMap, ResponseHeaders, StatusText;
    var line := FirstLine(version, status, reason);
    FirstLineClean(version, status, reason);
    WrittenSplits(line, fields);
    CutReads(line, fields);
    FirstLineReads(version, status, reason);
    StatusScans(status);
    BlockInside(line, fields);
    BlockEnds(line + FieldLines(fields), body);
  }

  // ---- Requests ----

  function RequestLine(verb: bytes, path: bytes, version: bytes): bytes {
    verb + [SP] + path + [SP] + version
  }

  lemma BlanksKeep(s: bytes)
    requires s != [] ==> s[0] != SP && s[|s| - 1] != SP
    ensures TrimBlanks(s) == s
  {
  }

  /** A value keeps its bytes behind the blank that is written in front of it. */
  lemma ValueReads(value: bytes)
    requires Trimmed(value)
    ensures TrimBlanks([SP] + value) == value
  {
    assert ([SP] + value)[1..] == value;
    BlanksKeep(value);
    assert TrimBlanks([SP] + value) == TrimBlanks(value);
  }

  lemma LineReads(f: Field)
    requires ValidField(f)
    ensures var line := FieldLine(f);
      && LF !in line && TrimCr(TrimBlanks(line + [CR])) == line != []
      && IndexFrom(line, [COLON], 0) == |f.name| > 0
      && line[..|f.name|] == f.name && TrimBlanks(line[|f.name| + 1..]) == f.value
  {
    var line := FieldLine(f);
    ValueReads(f.value);
    FieldReads(f);
    BlanksKeep(line + [CR]);
    hide TrimSpace, TrimBlanks, IndexFrom;
    assert line[..|f.name|] == f.name && line[|f.name| + 1..] == [SP] + f.value;
  }

  /** All header lines are read but the last, which has no line feed of its own. */
  lemma {:induction false} HeadersRead(f: Field, later: seq<Field>)
    requires ValidField(f) && forall g :: g in later ==> ValidField(g)
    ensures RequestHeaders(FieldLine(f) + FieldLines(later)) == FieldMap(([f] + later)[..|later|])
    decreases |later|
  {
    hide TrimSpace, TrimBlanks, TrimCr, ValidField;
    LineReads(f);
    var line := FieldLine(f);
    if later == [] {
      assert line + FieldLines([]) == line && ([f] + later)[..0] == [];
      NoByte(line, LF);
    } else {
      assert later[0] in later && [later[0]] + later[1..] == later;
      var rest := FieldLine(later[0]) + FieldLines(later[1..]);
      assert line + FieldLines(later) == line + [CR, LF] + rest;
      hide FieldLine, FieldLines;
      HeadersRead(later[0], later[1..]);
      FirstHeader(f, line, rest);
      assert ([f] + later)[..|later|] == [f] + later[..|later| - 1];
      assert ([f] + later[..|later| - 1])[1..] == later[..|later| - 1];
    }
  }

  lemma FirstHeader(f: Field, line: bytes, rest: bytes)
    requires ValidField(f) && line == FieldLine(f)
    ensures RequestHeaders(line + [CR, LF] + rest) == map[f.name := f.value] + RequestHeaders(rest)
  {
    hide TrimSpace, TrimBlanks, TrimCr, ValidField;
    LineReads(f);
    var block := line + [CR, LF] + rest;
    FirstByte(block, LF, |line| + 1);
    hide IndexFrom, FieldLine;
    assert block[..|line| + 1] == line + [CR] && block[|line| + 2..] == rest;
  }

  lemma RequestLineReads(verb: bytes, path: bytes, version: bytes)
    requires verb != [] && SP !in verb && SP !in path
    ensures var line := RequestLine(verb, path, version) + [CR];
      && TrimBlanks(line) == line && IndexFrom(line, [SP], 0) == |verb| && line[..|verb|] == verb
      && IndexFrom(line[|verb| + 1..], [SP], 0) == |path| && line[|verb| + 1..][..|path|] == path
  {
    var line := RequestLine(verb, path, version) + [CR];
    assert line[0] == verb[0] && verb[0] in verb;
    BlanksKeep(line);
    FirstByte(line, SP, |verb|);
    var rest := line[|verb| + 1..];
    assert rest == path + [SP] + version + [CR];
    FirstByte(rest, SP, |path|);
  }

  /** A block is read line by line. */
  lemma LinesParse(data: bytes, block: bytes, rest: bytes, verb: bytes, path: bytes, version: bytes)
    requires verb != [] && SP !in verb && SP !in path && LF !in RequestLine(verb, path, version)
    requires block == RequestLine(verb, path, version) + [CR, LF] + rest
    requires IndexFrom(data, CRLF_CRLF, 0) == |block| && data[..|block|] == block
    ensures ParseRequest(data) == Some(Request(verb, Rooted(path), RequestHeaders(rest), data[|block| + 4..]))
  {
    hide TrimBlanks, RequestHeaders, Rooted;
    var line := RequestLine(verb, path, version);
    RequestLineReads(verb, path, version);
    hide RequestLine;
    FirstByte(block, LF, |line| + 1);
    hide IndexFrom;
    assert block[..|line| + 1] == line + [CR] && block[|line| + 2..] == rest;
  }

  lemma OneLineUnread(data: bytes, line: bytes)
    requires IndexFrom(data, CRLF_CRLF, 0) == |line| && data[..|line|] == line && LF !in line
    ensures ParseRequest(data).None?
  {
    NoByte(line, LF);
    hide IndexFrom, RequestHeaders;
  }

  /**
   A written request is read back: its verb, its path with a slash in front, the values of all its header lines but the
   last, and its body. Without a header line it is not read at all.
   */
  lemma RequestRoundTrip(verb: bytes, path: bytes, version: bytes, fields: seq<Field>, body: bytes)
    requires verb != [] && SP !in verb && SP !in path && LF !in verb && LF !in path && LF !in version
    requires forall f :: f in fields ==> ValidField(f)
    ensures ParseRequest(RequestLine(verb, path, version) + FieldLines(fields) + CRLF_CRLF + body) ==
      if fields == [] then None
      else Some(Request(verb, Rooted(path), FieldMap(fields[..|fields| - 1]), body))
  {
    hide *;
    var line := RequestLine(verb, path, version);
    var block := line + FieldLines(fields);
    LineClean(verb, path, version);
    BlockInside(line, fields);
    BlockEnds(block, body);
    var data := block + CRLF_CRLF + body;
    if fields == [] {
      NoLines(line);
      OneLineUnread(data, line);
    } else {
      assert fields[0] in fields && [fields[0]] + fields[1..] == fields;
      FirstLines(line, fields);
      LinesParse(data, block, FieldLine(fields[0]) + FieldLines(fields[1..]), verb, path, version);
      HeadersRead(fields[0], fields[1..]);
    }
  }

  lemma LineClean(verb: bytes, path: bytes, version: bytes)
    requires LF !in verb && LF !in path && LF !in version
    ensures LF !in RequestLine(verb, path, version)
  {
  }

  lemma NoLines(line: bytes)
    ensures line + FieldLines([]) == line
  {
  }

  lemma FirstLines(line: bytes, fields: seq<Field>)
    requires fields != []
    ensures line + FieldLines(fields) == line + [CR, LF] + (FieldLine(fields[0]) + FieldLines(fields[1..]))
  {
    hide FieldLine;
  }
}
