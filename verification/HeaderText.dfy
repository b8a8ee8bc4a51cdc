/** What the engine's header scans find in written header lines: the length, the encoding, the status. */
module HeaderText {
  import opened Bytes
  import opened HttpSyntax
  import opened MessageText

  /** A whole header block: a first line, field lines, and the blank line. */
  function Header(first: bytes, fields: seq<Field>): bytes {
    first + FieldLines(fields) + CRLF_CRLF
  }

  /** The value of the first field with that name, up to case. */
  function ValueOf(fields: seq<Field>, name: string): Option<bytes>
    requires forall c :: c in name ==> c < 128 as char
  {
    if fields == [] then None
    else if ToLower(fields[0].name) == Ascii(name) then Some(fields[0].value)
    else ValueOf(fields[1..], name)
  }

  /** A first line starts with a word without a colon, as a verb or a version is. */
  predicate FirstWord(first: bytes, word: bytes) {
    && word != [] && COLON !in word && SP !in word && LF !in first && !IsSpace(word[0])
    && |first| > |word| && first[..|word|] == word && first[|word|] == SP
  }

  predicate Valid(fields: seq<Field>) {
    forall f :: f in fields ==> ValidField(f)
  }

  // ---- Numbers ----

  function DecimalText(n: nat): (d: bytes)
    ensures d != [] && forall k :: 0 <= k < |d| ==> IsDigit(d[k])
  {
    var last: byte := (48 + n % 10) as byte;
    if n < 10 then [last] else DecimalText(n / 10) + [last]
  }

  lemma {:induction false} DecimalTextValue(n: nat)
    ensures DecimalValue(DecimalText(n)) == n
  {
    var d := DecimalText(n);
    if n < 10 {
      assert d[..0] == [] && DecimalValue([]) == 0;
    } else {
      DecimalTextValue(n / 10);
      assert d[..|d| - 1] == DecimalText(n / 10);
    }
  }

  lemma {:induction false} DigitsRun(d: bytes, more: bytes)
    requires forall k :: 0 <= k < |d| ==> IsDigit(d[k])
    requires more == [] || !IsDigit(more[0])
    ensures DigitRun(d + more) == |d|
  {
    if d == [] {
      assert d + more == more;
    } else {
      assert (d + more)[0] == d[0] && (d + more)[1..] == d[1..] + more;
      DigitsRun(d[1..], more);
    }
  }

  /** A decimal number is scanned when it fits 63 bits, whatever stands behind its digits. */
  lemma NumberScans(n: int, more: bytes)
    requires n >= 0
    requires more == [] || !IsDigit(more[0])
    ensures ScanInt(DecimalText(n) + more) == if n < 0x8000_0000_0000_0000 then Some(n) else None
    ensures ScanInt([43] + DecimalText(n) + more) == ScanInt(DecimalText(n) + more)
    ensures ScanInt([45] + DecimalText(n) + more) == if n <= 0x8000_0000_0000_0000 then Some(-n) else None
  {
    hide DigitRun, DecimalValue, DecimalText;
    var d := DecimalText(n);
    var s := d + more;
    DecimalTextValue(n);
    DigitsRun(d, more);
    assert IsDigit(d[0]) && s[0] == d[0] && s[..|d|] == d && TrimLeft(s) == s;
    var plus, minus := [43] + d + more, [45] + d + more;
    assert plus[1..] == s && minus[1..] == s && TrimLeft(plus) == plus && TrimLeft(minus) == minus;
  }

  /** Without a digit, behind blanks and a sign, nothing is scanned. */
  lemma NoNumber(s: bytes)
    requires s == [] || (!IsSpace(s[0]) && !IsDigit(s[0]) && s[0] != 43 && s[0] != 45)
    ensures ScanInt(s) == None
  {
  }

  // ---- Lower case ----

  lemma LowerJoins(a: bytes, b: bytes)
    ensures ToLower(a + b) == ToLower(a) + ToLower(b)
  {
  }

  lemma LowerKeeps(s: bytes, b: byte)
    requires b < 65
    ensures b in ToLower(s) <==> b in s
    ensures Trimmed(s) ==> Trimmed(ToLower(s))
  {
    forall i | 0 <= i < |s|
      ensures LowerByte(s[i]) == b <==> s[i] == b
      ensures IsSpace(LowerByte(s[i])) <==> IsSpace(s[i])
    {
    }
    if b in s {
      var i :| 0 <= i < |s| && s[i] == b;
      assert ToLower(s)[i] == b;
    }
  }

  function LowerField(f: Field): Field {
    Field(ToLower(f.name), ToLower(f.value))
  }

  lemma LowerLine(f: Field)
    requires ValidField(f)
    ensures ToLower(FieldLine(f)) == FieldLine(LowerField(f)) && ValidField(LowerField(f))
  {
    hide ToLower;
    LowerJoins(f.name + [COLON, SP], f.value);
    LowerJoins(f.name, [COLON, SP]);
    assert ToLower([COLON, SP]) == [COLON, SP] by { LowerMarks(); }
    LowerKeeps(f.name, COLON);
    LowerKeeps(f.name, LF);
    LowerKeeps(f.value, LF);
    assert |ToLower(f.name)| == |f.name| by { LowerLength(f.name); }
  }

  lemma LowerLength(s: bytes)
    ensures |ToLower(s)| == |s|
  {
  }

  lemma LowerMarks()
    ensures ToLower([COLON, SP]) == [COLON, SP] && ToLower(CRLF) == CRLF && ToLower([LF]) == [LF] && ToLower([CR]) == [CR]
    ensures ToLower([]) == []
  {
  }

  // ---- Whether a line starts with a field name ----

  lemma TrimRightStarts(s: bytes)
    ensures TrimRight(s) <= s
  {
  }

  /** A trimmed field line starts with `name:` exactly when that is its field's name. */
  lemma FieldNamed(f: Field, name: bytes)
    requires ValidField(f) && COLON !in name
    ensures var line := TrimSpace(FieldLine(f));
      && (HasPrefix(line, name + [COLON]) <==> f.name == name)
      && (f.name == name ==> TrimSpace(line[|name| + 1..]) == f.value)
    ensures var line := FieldLine(f);
      && (HasPrefix(line, name + [COLON]) <==> f.name == name)
      && (f.name == name ==> line[|name|..] == [COLON, SP] + f.value)
  {
    hide TrimSpace;
    var rest := if f.value == [] then [] else [SP] + f.value;
    FieldTrims(f);
    SpaceTrims(f.value);
    NothingTrims();
    StartsNamed(f.name, rest, name);
    StartsNamed(f.name, [SP] + f.value, name);
    hide HasPrefix;
    assert FieldLine(f) == f.name + [COLON] + ([SP] + f.value);
    assert FieldLine(f)[|f.name|..] == [COLON, SP] + f.value;
    assert (f.name + [COLON] + rest)[|f.name| + 1..] == rest;
  }

  lemma NothingTrims()
    ensures TrimSpace([]) == []
  {
  }

  lemma FieldTrims(f: Field)
    requires ValidField(f)
    ensures TrimSpace(FieldLine(f)) == f.name + [COLON] + if f.value == [] then [] else [SP] + f.value
  {
    var whole := FieldLine(f);
    assert TrimLeft(whole) == whole;
    if f.value == [] {
      assert whole[..|whole| - 1] == f.name + [COLON];
      TrimmedKeeps(f.name + [COLON]);
    } else {
      TrimmedKeeps(whole);
    }
  }

  lemma PrefixAt(line: bytes, pat: bytes, k: nat)
    ensures HasPrefix(line, pat) && k < |pat| ==> k < |line| && line[k] == pat[k]
  {
    assert HasPrefix(line, pat) && k < |pat| ==> line[..|pat|][k] == line[k];
  }

  lemma StartsNamed(name: bytes, rest: bytes, other: bytes)
    requires COLON !in name && COLON !in other
    ensures HasPrefix(name + [COLON] + rest, other + [COLON]) <==> name == other
  {
    var line := name + [COLON] + rest;
    forall k | 0 <= k < |name|
      ensures line[k] == name[k] != COLON
    {
      assert name[k] in name;
    }
    forall k | 0 <= k < |other|
      ensures (other + [COLON])[k] == other[k] != COLON
    {
      assert other[k] in other;
    }
    PrefixAt(line, other + [COLON], |name|);
    PrefixAt(line, other + [COLON], |other|);
    forall k: nat
      ensures HasPrefix(line, other + [COLON]) && k < |other| ==> k < |line| && line[k] == other[k]
    {
      PrefixAt(line, other + [COLON], k);
    }
    assert line[..|name| + 1] == name + [COLON];
  }

  /** A first line never does. */
  lemma FirstNotNamed(first: bytes, word: bytes, name: bytes)
    requires FirstWord(first, word) && SP !in name && COLON !in name
    ensures !HasPrefix(first, name + [COLON])
  {
    forall k | 0 <= k < |word|
      ensures first[k] == word[k] != COLON
    {
      assert first[..|word|][k] == first[k] && word[k] in word;
    }
    forall k | 0 <= k < |name|
      ensures (name + [COLON])[k] == name[k] != SP
    {
      assert name[k] in name;
    }
    PrefixAt(first, name + [COLON], |name|);
    PrefixAt(first, name + [COLON], |word|);
  }

  // ---- The length ----

  const LENGTH: bytes := Ascii("content-length")

  lemma LengthName()
    ensures LENGTH + [COLON] == Ascii("content-length:") && |LENGTH| == 14 && COLON !in LENGTH && SP !in LENGTH
  {
    assert Ascii("content-length:")[14] == COLON;
    assert LENGTH == Ascii("content-length:")[..14];
    forall k | 0 <= k < 14
      ensures LENGTH[k] != COLON && LENGTH[k] != SP
    {
      assert LENGTH[k] as int == "content-length"[k] as int;
    }
  }

  /** The scan goes past a line that is not named so, and stops at the first that is. */
  lemma LengthStep(line: bytes, rest: bytes)
    requires LF !in line && TrimCr(line + [CR]) == line
    ensures ContentLengthIn(Split(line + CRLF + rest, LF)) ==
      if HasPrefix(TrimSpace(line), Ascii("content-length:")) then
        match ScanInt(TrimSpace(TrimSpace(line)[15..]))
        case None => -1
        case Some(n) => n
      else ContentLengthIn(Split(rest, LF))
  {
    hide TrimSpace, Split, HasPrefix, ScanInt, TrimCr;
    assert line + CRLF + rest == line + [CR] + [LF] + rest;
    SplitFirst(line + [CR], rest);
    assert ([line + [CR]] + Split(rest, LF))[1..] == Split(rest, LF);
  }

  lemma EndsInCr(line: bytes)
    ensures TrimCr(line + [CR]) == line
  {
    assert (line + [CR])[..|line|] == line;
  }

  /** What the scan makes of a value. */
  function Scanned(value: Option<bytes>): int {
    match value
    case None => -1
    case Some(v) =>
      match ScanInt(v)
      case None => -1
      case Some(n) => n
  }

  function LowerFields(fields: seq<Field>): seq<Field> {
    if fields == [] then [] else [LowerField(fields[0])] + LowerFields(fields[1..])
  }

  /** Field lines are scanned in order; `rest` follows the last one. */
  lemma {:induction false} FieldsScan(line: bytes, fields: seq<Field>, rest: bytes)
    requires Valid(fields) && LF !in line && !HasPrefix(TrimSpace(line), Ascii("content-length:"))
    ensures ContentLengthIn(Split(line + FieldLines(fields) + CRLF + rest, LF)) ==
      if ValueIn(fields, LENGTH).Some? then Scanned(ValueIn(fields, LENGTH)) else ContentLengthIn(Split(rest, LF))
    decreases |fields|
  {
    hide TrimSpace, Split, HasPrefix, ScanInt, TrimCr, ContentLengthIn;
    EndsInCr(line);
    if fields == [] {
      NoLines(line);
      LengthStep(line, rest);
    } else {
      var f, later := fields[0], fields[1..];
      assert f in fields;
      FirstLines(line, fields);
      var next := FieldLine(f);
      var after := next + FieldLines(later) + CRLF + rest;
      assert line + FieldLines(fields) + CRLF + rest == line + CRLF + after;
      LengthStep(line, after);
      LengthName();
      FieldNamed(f, LENGTH);
      LineStarts(f, []);
      if f.name == LENGTH {
        EndsInCr(next);
        FieldFirst(next, later, rest);
        LengthStep(next, FieldTail(later, rest));
      } else {
        FieldsScan(next, later, rest);
      }
    }
  }

  /** What stands behind a line's CRLF. */
  function FieldTail(later: seq<Field>, rest: bytes): bytes {
    if later == [] then rest else FieldLine(later[0]) + FieldLines(later[1..]) + CRLF + rest
  }

  lemma FieldFirst(line: bytes, later: seq<Field>, rest: bytes)
    ensures line + FieldLines(later) + CRLF + rest == line + CRLF + FieldTail(later, rest)
  {
    if later == [] {
      NoLines(line);
    } else {
      FirstLines(line, later);
    }
  }

  /** ValueOf for a name in bytes, matched as it is. */
  function ValueIn(fields: seq<Field>, name: bytes): Option<bytes> {
    if fields == [] then None
    else if fields[0].name == name then Some(fields[0].value)
    else ValueIn(fields[1..], name)
  }

  lemma {:induction false} LowerLines(fields: seq<Field>)
    requires Valid(fields)
    ensures ToLower(FieldLines(fields)) == FieldLines(LowerFields(fields)) && Valid(LowerFields(fields))
  {
    hide ToLower;
    LowerMarks();
    if fields == [] {
    } else {
      var f, later := fields[0], fields[1..];
      assert f in fields;
      LowerLine(f);
      LowerLines(later);
      hide FieldLine;
      LowerJoins(CRLF, FieldLine(f));
      LowerJoins(CRLF + FieldLine(f), FieldLines(later));
      assert LowerFields(fields)[1..] == LowerFields(later);
    }
  }

  lemma {:induction false} LowerValue(fields: seq<Field>, name: string)
    requires forall c :: c in name ==> c < 128 as char
    ensures ValueIn(LowerFields(fields), Ascii(name)) ==
      match ValueOf(fields, name)
      case None => None
      case Some(v) => Some(ToLower(v))
  {
    hide ToLower, Ascii;
    if fields == [] {
    } else {
      LowerValue(fields[1..], name);
      assert LowerFields(fields)[1..] == LowerFields(fields[1..]);
    }
  }

  lemma FirstLower(first: bytes, word: bytes)
    requires FirstWord(first, word)
    ensures FirstWord(ToLower(first), ToLower(word))
  {
    LowerKeeps(word, COLON);
    LowerKeeps(word, SP);
    LowerKeeps(first, LF);
    assert ToLower(first)[..|word|] == ToLower(word);
  }

  lemma FirstUnnamed(first: bytes, word: bytes)
    requires FirstWord(first, word)
    ensures !HasPrefix(TrimSpace(first), Ascii("content-length:"))
  {
    LengthName();
    FirstNotNamed(first, word, LENGTH);
    assert first[0] == first[..|word|][0];
    assert TrimLeft(first) == first;
    TrimRightStarts(first);
  }

  lemma HeaderLower(first: bytes, fields: seq<Field>, more: bytes)
    requires Valid(fields)
    ensures ToLower(Header(first, fields) + more) ==
      ToLower(first) + FieldLines(LowerFields(fields)) + CRLF + (CRLF + ToLower(more))
  {
    hide ToLower;
    LowerLines(fields);
    LowerMarks();
    LowerJoins(Header(first, fields), more);
    LowerJoins(first + FieldLines(fields), CRLF_CRLF);
    LowerJoins(first, FieldLines(fields));
    LowerJoins(CRLF, CRLF);
    assert CRLF_CRLF == CRLF + CRLF;
  }

  /** The length of a header is what is scanned of the first field named so; behind the header more may stand. */
  lemma LengthScans(first: bytes, word: bytes, fields: seq<Field>, more: bytes)
    requires FirstWord(first, word) && Valid(fields)
    ensures ContentLength(Header(first, fields) + more) ==
      match ValueOf(fields, "content-length")
      case None => ContentLengthIn(Split(CRLF + ToLower(more), LF))
      case Some(v) => Scanned(Some(ToLower(v)))
  {
    hide ToLower, Split, ContentLengthIn, Header, FirstWord, Scanned, ValueOf, ValueIn;
    HeaderLower(first, fields, more);
    FirstLower(first, word);
    FirstUnnamed(ToLower(first), ToLower(word));
    LowerLines(fields);
    LowerValue(fields, "content-length");
    assert LF !in ToLower(first) by { WordLine(ToLower(first), ToLower(word)); }
    FieldsScan(ToLower(first), LowerFields(fields), CRLF + ToLower(more));
  }

  lemma WordLine(first: bytes, word: bytes)
    requires FirstWord(first, word)
    ensures LF !in first && first != []
  {
  }

  /** A decimal value below 2^63 is the length, whatever stands behind the header. */
  lemma LengthRead(first: bytes, word: bytes, fields: seq<Field>, n: nat, more: bytes)
    requires FirstWord(first, word) && Valid(fields)
    requires ValueOf(fields, "content-length") == Some(DecimalText(n)) && n < 0x8000_0000_0000_0000
    ensures ContentLength(Header(first, fields) + more) == n
  {
    hide ContentLength, Header, FirstWord, ValueOf, ScanInt, DecimalText;
    LengthScans(first, word, fields, more);
    DigitsLower(DecimalText(n));
    NumberScans(n, []);
    assert DecimalText(n) + [] == DecimalText(n);
  }

  lemma DigitsLower(d: bytes)
    requires forall k :: 0 <= k < |d| ==> IsDigit(d[k])
    ensures ToLower(d) == d
  {
  }

  /** Without such a field a header has no length. */
  lemma LengthAbsent(first: bytes, word: bytes, fields: seq<Field>)
    requires FirstWord(first, word) && Valid(fields) && ValueOf(fields, "content-length") == None
    ensures ContentLength(Header(first, fields)) == -1
  {
    hide ContentLength, Header, FirstWord, ValueOf;
    LengthScans(first, word, fields, []);
    assert Header(first, fields) + [] == Header(first, fields);
    BlankScans();
  }

  lemma BlankScans()
    ensures ContentLengthIn(Split(CRLF + ToLower([]), LF)) == -1
  {
    LowerMarks();
    assert CRLF + [] == [CR] + [LF] + [];
    SplitFirst([CR], []);
    SplitStep([], LF);
    var none: bytes := [];
    assert Split(CRLF + ToLower([]), LF) == [[CR], none];
    assert [[CR], none][1..] == [none] && [none][1..] == [];
    assert [CR][..0] == [] && TrimCr([CR]) == none && TrimCr(none) == none && TrimSpace(none) == none;
    assert !HasPrefix(none, Ascii("content-length:"));
    assert ContentLengthIn([none]) == -1;
  }

  // ---- The encoding ----

  const ENCODING: bytes := Ascii("transfer-encoding")

  lemma EncodingName()
    ensures ENCODING + [COLON] == Ascii("transfer-encoding:") && |ENCODING| == 17
    ensures COLON !in ENCODING && SP !in ENCODING
  {
    assert Ascii("transfer-encoding:")[17] == COLON;
    assert ENCODING == Ascii("transfer-encoding:")[..17];
    forall k | 0 <= k < 17
      ensures ENCODING[k] != COLON && ENCODING[k] != SP
    {
      assert ENCODING[k] as int == "transfer-encoding"[k] as int;
    }
  }

  lemma EncodingStep(line: bytes, rest: bytes)
    requires LF !in line && TrimCr(TrimBlanks(line + [CR])) == line
    ensures TransferEncoding(line + CRLF + rest) ==
      if HasPrefix(ToLower(line), Ascii("transfer-encoding:")) then TrimBlanks(line[17..]) else TransferEncoding(rest)
  {
    hide TrimBlanks, TrimCr, HasPrefix, ToLower;
    var header := line + CRLF + rest;
    assert header == line + [CR] + [LF] + rest;
    FirstByte(header, LF, |line| + 1);
    hide IndexFrom;
    assert header[..|line| + 1] == line + [CR] && header[|line| + 2..] == rest;
  }

  /** What the scan leaves of a value: the colon stays in front. */
  function Encoded(value: bytes): bytes {
    if value == [] then [COLON] else [COLON, SP] + value
  }

  lemma EncodedKeeps(value: bytes)
    requires Trimmed(value)
    ensures TrimBlanks([COLON, SP] + value) == Encoded(value)
  {
    var s := [COLON, SP] + value;
    if value == [] {
      assert s[..1] == [COLON];
      BlanksKeep([COLON]);
    } else {
      BlanksKeep(s);
    }
  }

  lemma FieldEncodes(f: Field)
    requires ValidField(f)
    ensures var line := FieldLine(f);
      && (HasPrefix(ToLower(line), Ascii("transfer-encoding:")) <==> ToLower(f.name) == ENCODING)
      && (ToLower(f.name) == ENCODING ==> TrimBlanks(line[17..]) == Encoded(f.value))
  {
    hide ToLower, TrimBlanks, HasPrefix, TrimSpace;
    var line := FieldLine(f);
    EncodingName();
    LowerLine(f);
    FieldNamed(LowerField(f), ENCODING);
    LowerLength(f.name);
    EncodedKeeps(f.value);
    assert line[|f.name|..] == [COLON, SP] + f.value;
  }

  lemma {:induction false} FieldsEncode(line: bytes, fields: seq<Field>, rest: bytes)
    requires Valid(fields) && LF !in line && TrimCr(TrimBlanks(line + [CR])) == line
    requires !HasPrefix(ToLower(line), Ascii("transfer-encoding:"))
    ensures TransferEncoding(line + FieldLines(fields) + CRLF + rest) ==
      match ValueOf(fields, "transfer-encoding")
      case None => TransferEncoding(rest)
      case Some(v) => Encoded(v)
    decreases |fields|
  {
    hide TrimBlanks, TrimCr, HasPrefix, ToLower, TransferEncoding;
    if fields == [] {
      NoLines(line);
      EncodingStep(line, rest);
    } else {
      var f, later := fields[0], fields[1..];
      assert f in fields;
      var next := FieldLine(f);
      FieldFirst(line, fields, rest);
      EncodingStep(line, FieldTail(fields, rest));
      FieldEncodes(f);
      LineReads(f);
      if ToLower(f.name) == ENCODING {
        FieldFirst(next, later, rest);
        EncodingStep(next, FieldTail(later, rest));
      } else {
        FieldsEncode(next, later, rest);
      }
    }
  }

  lemma FirstEncodes(first: bytes, word: bytes)
    requires FirstWord(first, word)
    ensures TrimCr(TrimBlanks(first + [CR])) == first && !HasPrefix(ToLower(first), Ascii("transfer-encoding:"))
  {
    assert first[0] == first[..|word|][0];
    BlanksKeep(first + [CR]);
    EndsInCr(first);
    hide TrimBlanks, TrimCr, ToLower, HasPrefix;
    EncodingName();
    FirstLower(first, word);
    FirstNotNamed(ToLower(first), ToLower(word), ENCODING);
  }

  lemma NotInFront(front: bytes, data: bytes, pat: bytes, i: nat)
    requires pat != [] && (forall b :: b in front ==> b !in pat) && At(front + data, pat, i)
    ensures i >= |front| && At(data, pat, i - |front|)
  {
    var whole := front + data;
    forall k | 0 <= k < |front|
      ensures whole[k] == front[k] && front[k] !in pat
    {
      assert front[k] in front;
    }
    assert whole[i] == whole[i..i + |pat|][0] == pat[0] && pat[0] in pat;
    hide At;
    assert whole[i..i + |pat|] == data[i - |front|..i - |front| + |pat|];
    AtOf(data, pat, i - |front|);
  }

  lemma AtOf(data: bytes, pat: bytes, i: int)
    ensures 0 <= i <= |data| - |pat| && data[i..i + |pat|] == pat ==> At(data, pat, i)
  {
  }

  /** What stands in front of an occurrence of another byte does not matter. */
  lemma ContainsBehind(front: bytes, data: bytes, pat: bytes)
    requires pat != [] && forall b :: b in front ==> b !in pat
    ensures Contains(front + data, pat) <==> Contains(data, pat)
  {
    hide At;
    var whole := front + data;
    IndexFromIsLeast(whole, pat, 0);
    IndexFromIsLeast(data, pat, 0);
    var j, i := IndexFrom(data, pat, 0), IndexFrom(whole, pat, 0);
    if j >= 0 {
      BehindFront(front, data, pat, j);
    }
    if i >= 0 {
      NotInFront(front, data, pat, i);
    }
  }

  lemma BehindFront(front: bytes, data: bytes, pat: bytes, j: nat)
    requires At(data, pat, j)
    ensures At(front + data, pat, |front| + j)
  {
    assert (front + data)[|front| + j..|front| + j + |pat|] == data[j..j + |pat|];
  }

  /** A header is chunked exactly when its first transfer-encoding field says so; behind the header more may stand. */
  lemma ChunkedRead(first: bytes, word: bytes, fields: seq<Field>, more: bytes)
    requires FirstWord(first, word) && Valid(fields)
    ensures match ValueOf(fields, "transfer-encoding")
      case None => more == [] ==> !Chunked(Header(first, fields) + more)
      case Some(v) => Chunked(Header(first, fields) + more) <==> Contains(v, Ascii("chunked"))
  {
    hide TransferEncoding, ToLower, HasPrefix, TrimBlanks, TrimCr, Contains, ValueOf;
    FirstEncodes(first, word);
    WordLine(first, word);
    FieldsEncode(first, fields, CRLF + more);
    assert Header(first, fields) + more == first + FieldLines(fields) + CRLF + (CRLF + more);
    NoneChunked();
    match ValueOf(fields, "transfer-encoding")
    case None =>
      assert more == [] ==> CRLF + more == CRLF;
    case Some(v) => EncodedContains(v);
  }

  lemma NoneChunked()
    ensures TransferEncoding(CRLF) == [] && !Contains([], Ascii("chunked"))
  {
    assert CRLF == [] + CRLF + [];
    assert [CR][..0] == [] && TrimBlanks([] + [CR]) == [CR];
    EncodingStep([], []);
  }

  lemma EncodedContains(value: bytes)
    ensures Contains(Encoded(value), Ascii("chunked")) <==> Contains(value, Ascii("chunked"))
  {
    var pat := Ascii("chunked");
    forall k | 0 <= k < |pat|
      ensures pat[k] != COLON && pat[k] != SP
    {
      assert pat[k] as int == "chunked"[k] as int;
    }
    hide Contains, Ascii;
    if value == [] {
      ContainsBehind([COLON], [], pat);
      assert [COLON] + [] == [COLON];
    } else {
      ContainsBehind([COLON, SP], value, pat);
    }
  }

  // ---- The status, and the first bytes ----

  /** A first line as responses have it. */
  predicate StatusFirst(version: bytes, status: nat, reason: bytes) {
    && 100 <= status < 1000 && version != [] && !IsSpace(version[0])
    && SP !in version && COLON !in version && LF !in version
    && LF !in reason && (reason == [] || reason[|reason| - 1] != CR)
  }

  lemma StatusWord(version: bytes, status: nat, reason: bytes)
    requires StatusFirst(version, status, reason)
    ensures FirstWord(FirstLine(version, status, reason), version)
  {
  }

  /** The status of a written response is read, whatever stands behind its header. */
  lemma StatusRead(version: bytes, status: nat, reason: bytes, fields: seq<Field>, more: bytes)
    requires StatusFirst(version, status, reason)
    ensures StatusCode(Header(FirstLine(version, status, reason), fields) + more) == status
  {
    hide TrimBlanks, ScanInt, FieldLines, StatusText;
    var line := FirstLine(version, status, reason);
    StatusWord(version, status, reason);
    WordLine(line, version);
    var data := Header(line, fields) + more;
    FirstFeed(line, fields, more);
    FirstLineReads(version, status, reason);
    assert TrimBlanks(line + [CR]) == line + [CR] by { BlanksKeep(line + [CR]); }
    SpacesKept(version, status, reason);
    StatusScans(status);
    hide IndexFrom, FirstLine;
  }

  /** The first line feed ends the first line. */
  lemma FirstFeed(line: bytes, fields: seq<Field>, more: bytes)
    requires LF !in line
    ensures var data := Header(line, fields) + more;
      IndexFrom(data, [LF], 0) == |line| + 1 && data[..|line| + 1] == line + [CR]
  {
    var data := Header(line, fields) + more;
    FieldFirst(line, fields, CRLF + more);
    assert data == line + FieldLines(fields) + CRLF + (CRLF + more);
    assert data == line + [CR, LF] + FieldTail(fields, CRLF + more);
    FirstByte(data, LF, |line| + 1);
  }

  lemma SpacesKept(version: bytes, status: nat, reason: bytes)
    requires 100 <= status < 1000 && SP !in version
    ensures var line := FirstLine(version, status, reason) + [CR];
      && IndexFrom(line, [SP], 0) == |version|
      && var rest := line[|version| + 1..];
      && IndexFrom(rest, [SP], 0) == 3 && rest[..3] == StatusText(status)
  {
    var line := FirstLine(version, status, reason) + [CR];
    FirstByte(line, SP, |version|);
    var rest := line[|version| + 1..];
    assert rest == StatusText(status) + [SP] + reason + [CR];
    FirstByte(rest, SP, 3);
  }

  /** The first bytes by which a stream is recognised. */
  const OPENINGS: seq<bytes> :=
    [[71, 69, 84, 32], [80, 79, 83, 84], [80, 85, 84, 32], [68, 69, 76, 69], [80, 65, 84, 67],
     [72, 69, 65, 68], [79, 80, 84, 73], [67, 79, 78, 78], [84, 82, 65, 67], [72, 84, 84, 80]]

  lemma Prefixes()
    ensures METHOD_PREFIXES + [Ascii("HTTP")] == OPENINGS
  {
    assert Ascii("GET ") == OPENINGS[0] && Ascii("POST") == OPENINGS[1] && Ascii("PUT ") == OPENINGS[2];
    assert Ascii("DELE") == OPENINGS[3] && Ascii("PATC") == OPENINGS[4] && Ascii("HEAD") == OPENINGS[5];
    assert Ascii("OPTI") == OPENINGS[6] && Ascii("CONN") == OPENINGS[7] && Ascii("TRAC") == OPENINGS[8];
    assert Ascii("HTTP") == OPENINGS[9];
  }

  /** Bytes are recognised as HTTP exactly when there are none or the first four are one of the openings. */
  lemma RecognisedIff(data: bytes)
    ensures LooksLikeHttp(data) <==> data == [] || (|data| >= 4 && data[..4] in OPENINGS)
  {
    Prefixes();
    assert METHOD_PREFIXES == OPENINGS[..9] && OPENINGS[9] == Ascii("HTTP");
    assert forall k :: 0 <= k < |METHOD_PREFIXES| ==> METHOD_PREFIXES[k] == OPENINGS[k];
    hide Ascii;
    forall k | 0 <= k < |OPENINGS|
      ensures |OPENINGS[k]| == 4
    {
    }
    if |data| >= 4 && data[..4] in OPENINGS {
      var k :| 0 <= k < |OPENINGS| && OPENINGS[k] == data[..4];
      assert k < 9 ==> HasPrefix(data, METHOD_PREFIXES[k]);
    }
  }
}
