/** Finding where an HTTP message ends: Content-Length first, then chunked (section 7.1 of RFC 9112). */
module Framing {
  import opened Bytes
  import opened HttpSyntax

  const MAX_CHUNK: nat := 100 * 1024 * 1024

  // ---- Specifications ----

  /** The size on a chunk's first line: hexadecimal digits, anything after them ignored. */
  function ChunkSize(line: bytes): (size: Option<nat>)
    ensures size.Some? ==> size.value <= MAX_CHUNK
  {
    match ScanHex(TrimSpace(line))
    case None => None
    case Some(n) => if n > MAX_CHUNK then None else Some(n)
  }

  /** Offset after the blank line that ends the body, for the last chunk's line end at `nl`. */
  function LastChunkEnd(data: bytes, nl: nat): (end: int)
    ensures end == -1 || nl < end <= |data|
  {
    if nl + 3 < |data| && data[nl + 2] == CR && data[nl + 3] == LF then nl + 4
    else if nl + 2 < |data| && data[nl + 2] == LF then nl + 3
    else -1
  }

  /** End of the chunked body whose next chunk header starts at `pos`, or -1. */
  function ChunkedEndFrom(data: bytes, pos: nat): (end: int)
    ensures end == -1 || pos < end <= |data|
    decreases |data| - pos
  {
    if pos >= |data| then -1
    else
      var nl := IndexFrom(data, CRLF, pos);
      if nl < 0 then -1
      else
        match ChunkSize(data[pos..nl])
        case None => -1
        case Some(size) =>
          if size == 0 then LastChunkEnd(data, nl)
          else if nl + size + 4 > |data| then -1
          else ChunkedEndFrom(data, nl + size + 4)
  }

  function ChunkedEnd(data: bytes): int {
    ChunkedEndFrom(data, 0)
  }

  /** Offset just after the header block: the first CRLF CRLF, else the first LF LF, else -1. */
  function HeaderEnd(data: bytes): (end: int)
    ensures end == -1 || 2 <= end <= |data|
  {
    var crlf := IndexFrom(data, CRLF_CRLF, 0);
    if crlf >= 0 then crlf + 4
    else
      var lf := IndexFrom(data, LF_LF, 0);
      if lf >= 0 then lf + 2 else -1
  }

  function MessageEnd(data: bytes): (end: int)
    ensures end == -1 || 2 <= end <= |data|
  {
    var idx := HeaderEnd(data);
    if idx < 0 then -1
    else
      var cl := ContentLength(data[..idx]);
      if cl >= 0 then
        if idx + cl <= |data| then idx + cl else -1
      else if Chunked(data[..idx]) then
        var end := ChunkedEnd(data[idx..]);
        if end >= 0 then idx + end else -1
      else idx
  }

  // ---- The loops ----

  lemma SliceAt(data: bytes, i: nat, n: nat)
    requires i + n <= |data|
    ensures forall k {:trigger data[i..i + n][k]} :: 0 <= k < n ==> data[i..i + n][k] == data[i + k]
  {
  }

  method FindCrlf(data: bytes, pos: nat) returns (nl: int)
    ensures nl == IndexFrom(data, CRLF, pos)
  {
    var i := pos;
    while i < |data| - 1
      invariant pos <= i
      invariant forall k :: pos <= k < i ==> !At(data, CRLF, k)
    {
      if data[i] == CR && data[i + 1] == LF {
        assert data[i..i + 2] == CRLF;
        IndexFromUnique(data, CRLF, pos, i);
        return i;
      }
      assert data[i..i + 2][0] == data[i] && data[i..i + 2][1] == data[i + 1];
      i := i + 1;
    }
    IndexFromIsLeast(data, CRLF, pos);
    return -1;
  }

  method FindChunkedEnd(data: bytes) returns (end: int)
    ensures end == ChunkedEnd(data)
  {
    hide ChunkSize, At;
    var pos := 0;
    while pos < |data|
      invariant ChunkedEndFrom(data, pos) == ChunkedEnd(data)
    {
      var nl := FindCrlf(data, pos);
      if nl < 0 {
        return -1;
      }
      var size := ChunkSize(data[pos..nl]);
      if size.None? {
        return -1;
      }
      if size.value == 0 {
        var trailer := nl + 2;
        if trailer + 1 < |data| && data[trailer] == CR && data[trailer + 1] == LF {
          return trailer + 2;
        }
        if trailer < |data| && data[trailer] == LF {
          return trailer + 1;
        }
        return -1;
      }
      var next := nl + 2 + size.value + 2;
      if next > |data| {
        return -1;
      }
      pos := next;
    }
    return -1;
  }

  method FindHeaderEnd(data: bytes) returns (idx: int)
    ensures idx == HeaderEnd(data)
  {
    var i := 0;
    while i < |data| - 3
      invariant 0 <= i
      invariant forall k :: 0 <= k < i ==> !At(data, CRLF_CRLF, k)
    {
      if data[i] == CR && data[i + 1] == LF && data[i + 2] == CR && data[i + 3] == LF {
        assert data[i..i + 4] == CRLF_CRLF;
        IndexFromUnique(data, CRLF_CRLF, 0, i);
        return i + 4;
      }
      SliceAt(data, i, 4);
      i := i + 1;
    }
    IndexFromIsLeast(data, CRLF_CRLF, 0);
    i := 0;
    while i < |data| - 1
      invariant 0 <= i
      invariant forall k :: 0 <= k < i ==> !At(data, LF_LF, k)
    {
      if data[i] == LF && data[i + 1] == LF {
        assert data[i..i + 2] == LF_LF;
        IndexFromUnique(data, LF_LF, 0, i);
        return i + 2;
      }
      assert data[i..i + 2][0] == data[i] && data[i..i + 2][1] == data[i + 1];
      i := i + 1;
    }
    IndexFromIsLeast(data, LF_LF, 0);
    return -1;
  }

  method FindMessageEnd(data: bytes) returns (end: int)
    ensures end == MessageEnd(data)
  {
    var idx := FindHeaderEnd(data);
    if idx < 0 {
      return -1;
    }
    var cl := ContentLength(data[..idx]);
    if cl >= 0 {
      return if idx + cl <= |data| then idx + cl else -1;
    }
    if Chunked(data[..idx]) {
      var chunkEnd := FindChunkedEnd(data[idx..]);
      return if chunkEnd >= 0 then idx + chunkEnd else -1;
    }
    return idx;
  }

  // ---- Stability: an end once found does not move when bytes arrive ----

  lemma {:induction false} ChunkedEndStable(data: bytes, more: bytes, pos: nat)
    requires ChunkedEndFrom(data, pos) >= 0
    ensures ChunkedEndFrom(data + more, pos) == ChunkedEndFrom(data, pos)
    decreases |data| - pos
  {
    hide ChunkSize, At;
    var nl := IndexFrom(data, CRLF, pos);
    IndexFromAppend(data, more, CRLF, pos);
    assert (data + more)[pos..nl] == data[pos..nl];
    var size := ChunkSize(data[pos..nl]).value;
    if size == 0 {
    } else {
      ChunkedEndStable(data, more, nl + size + 4);
    }
  }

  /** A header block ended by CRLF CRLF frames its message for good, whatever follows. */
  lemma MessageEndStable(data: bytes, more: bytes)
    requires Contains(data, CRLF_CRLF)
    requires MessageEnd(data) >= 0
    ensures 4 <= MessageEnd(data) <= |data|
    ensures MessageEnd(data + more) == MessageEnd(data)
  {
    hide ContentLength, Chunked, ChunkedEndFrom, IndexFrom;
    var idx := HeaderEnd(data);
    IndexFromAppend(data, more, CRLF_CRLF, 0);
    assert HeaderEnd(data + more) == idx >= 4;
    hide HeaderEnd;
    assert (data + more)[..idx] == data[..idx];
    assert (data + more)[idx..] == data[idx..] + more;
    if ContentLength(data[..idx]) < 0 && Chunked(data[..idx]) {
      ChunkedEndStable(data[idx..], more, 0);
    }
  }

  lemma {:induction false} ChunkedEndTrims(data: bytes, more: bytes, pos: nat)
    requires 0 <= ChunkedEndFrom(data + more, pos) <= |data|
    ensures ChunkedEndFrom(data, pos) == ChunkedEndFrom(data + more, pos)
    decreases |data| - pos
  {
    hide ChunkSize, At;
    var all := data + more;
    var nl := IndexFrom(all, CRLF, pos);
    IndexFromTrim(data, more, CRLF, pos);
    assert all[pos..nl] == data[pos..nl];
    var size := ChunkSize(data[pos..nl]).value;
    if size == 0 {
    } else {
      ChunkedEndTrims(data, more, nl + size + 4);
    }
  }

  /** A message is framed by its own bytes alone: cutting off what follows does not move its end. */
  lemma MessageEndTrims(data: bytes, more: bytes)
    requires Contains(data + more, CRLF_CRLF)
    requires 0 <= MessageEnd(data + more) <= |data|
    ensures MessageEnd(data) == MessageEnd(data + more)
  {
    hide ContentLength, Chunked, ChunkedEndFrom, IndexFrom;
    var idx := HeaderEnd(data + more);
    IndexFromTrim(data, more, CRLF_CRLF, 0);
    assert HeaderEnd(data) == idx;
    hide HeaderEnd;
    assert (data + more)[..idx] == data[..idx];
    assert (data + more)[idx..] == data[idx..] + more;
    if ContentLength(data[..idx]) < 0 && Chunked(data[..idx]) {
      ChunkedEndTrims(data[idx..], more, 0);
    }
  }

  /** The first blank line of `data`, if any, is CRLF CRLF: no LF LF stands before it. */
  predicate HeaderClean(data: bytes) {
    var lf := IndexFrom(data, LF_LF, 0);
    lf < 0 || 0 <= IndexFrom(data, CRLF_CRLF, 0) < lf
  }

  /** On a clean stream a blank line found on a prefix is never an LF LF standing alone. */
  lemma CleanPrefix(data: bytes, more: bytes)
    requires HeaderClean(data + more)
    requires Contains(data, LF_LF)
    ensures Contains(data, CRLF_CRLF)
  {
    hide At;
    var whole := data + more;
    var lf := IndexFrom(data, LF_LF, 0);
    var i := IndexFrom(whole, CRLF_CRLF, 0);
    IndexFromAppend(data, more, LF_LF, 0);
    BlankLinesApart(whole, i, lf);
    AtAppend(data, more, CRLF_CRLF, i);
    IndexFromIsLeast(data, CRLF_CRLF, 0);
    IndexFromIsLeast(whole, CRLF_CRLF, 0);
  }

  lemma BlankLinesApart(data: bytes, i: nat, lf: nat)
    requires i == IndexFrom(data, CRLF_CRLF, 0) && lf == IndexFrom(data, LF_LF, 0)
    requires i < lf
    ensures i + 2 <= lf
  {
    IndexFromIsLeast(data, CRLF_CRLF, 0);
    IndexFromIsLeast(data, LF_LF, 0);
    SliceAt(data, i, 4);
    SliceAt(data, lf, 2);
    assert data[lf + 1] == data[lf..lf + 2][1] == LF;
    assert data[i + 2] == data[i..i + 4][2] == CR;
  }

  /** On a stream with no earlier LF LF, an end found on any prefix is the end on the whole. */
  lemma CleanEndStable(data: bytes, more: bytes)
    requires HeaderClean(data + more)
    requires MessageEnd(data) >= 0
    ensures Contains(data, CRLF_CRLF)
    ensures 4 <= MessageEnd(data)
    ensures MessageEnd(data + more) == MessageEnd(data)
  {
    if Contains(data, LF_LF) {
      CleanPrefix(data, more);
    }
    hide HeaderClean, ChunkedEnd, ContentLength, Chunked;
    MessageEndStable(data, more);
  }

  /** The header ends behind the first CRLF CRLF, and where there is none behind the first LF LF. */
  lemma HeaderEndIs(data: bytes, end: nat)
    ensures HeaderEnd(data) == end <==>
      || (At(data, [13, 10, 13, 10], end - 4) && forall i :: i < end - 4 ==> !At(data, [13, 10, 13, 10], i))
      || ((forall i :: !At(data, [13, 10, 13, 10], i)) && At(data, [10, 10], end - 2)
          && forall i :: i < end - 2 ==> !At(data, [10, 10], i))
  {
    hide IndexFrom;
    IndexFromIsLeast(data, CRLF_CRLF, 0);
    IndexFromIsLeast(data, LF_LF, 0);
  }

  // ---- When the LF LF fallback moves ----

  /** The end of the header block never moves while bytes arrive, exactly when no LF LF comes before a CRLF CRLF. */
  lemma HeaderEndSettlesIff(data: bytes)
    ensures (forall k :: 0 <= k <= |data| ==> HeaderEnd(data[..k]) == -1 || HeaderEnd(data[..k]) == HeaderEnd(data))
      <==> !(0 <= IndexFrom(data, LF_LF, 0) < IndexFrom(data, CRLF_CRLF, 0))
  {
    hide At, IndexFrom;
    var lf, crlf := IndexFrom(data, LF_LF, 0), IndexFrom(data, CRLF_CRLF, 0);
    if 0 <= lf < crlf {
      HeaderEndMoves(data);
    } else {
      forall k | 0 <= k <= |data|
        ensures HeaderEnd(data[..k]) == -1 || HeaderEnd(data[..k]) == HeaderEnd(data)
      {
        assert data[..k] + data[k..] == data;
        if HeaderEnd(data[..k]) >= 0 {
          HeaderEndKept(data[..k], data[k..]);
        }
      }
    }
  }

  lemma HeaderEndMoves(data: bytes)
    requires 0 <= IndexFrom(data, LF_LF, 0) < IndexFrom(data, CRLF_CRLF, 0)
    ensures var k := IndexFrom(data, LF_LF, 0) + 2;
      k <= |data| && HeaderEnd(data[..k]) == k && HeaderEnd(data) != k
  {
    hide At, IndexFrom;
    var lf := IndexFrom(data, LF_LF, 0);
    var early, late := data[..lf + 2], data[lf + 2..];
    assert early + late == data;
    IndexFromIsLeast(data, LF_LF, 0);
    AtAppend(early, late, LF_LF, lf);
    IndexFromIsLeast(early, LF_LF, 0);
    IndexFromAppend(early, late, LF_LF, 0);
    if Contains(early, CRLF_CRLF) {
      IndexFromAppend(early, late, CRLF_CRLF, 0);
    }
  }

  lemma HeaderEndKept(data: bytes, more: bytes)
    requires !(0 <= IndexFrom(data + more, LF_LF, 0) < IndexFrom(data + more, CRLF_CRLF, 0))
    requires HeaderEnd(data) >= 0
    ensures HeaderEnd(data) == HeaderEnd(data + more)
  {
    hide At, IndexFrom;
    if Contains(data, CRLF_CRLF) {
      IndexFromAppend(data, more, CRLF_CRLF, 0);
    } else {
      IndexFromAppend(data, more, LF_LF, 0);
      if Contains(data + more, CRLF_CRLF) {
        BlankLinesDiffer(data + more);
        CleanPrefix(data, more);
      }
    }
  }

  lemma BlankLinesDiffer(data: bytes)
    requires Contains(data, LF_LF) && Contains(data, CRLF_CRLF)
    ensures IndexFrom(data, LF_LF, 0) != IndexFrom(data, CRLF_CRLF, 0)
  {
    IndexFromIsLeast(data, CRLF_CRLF, 0);
    IndexFromIsLeast(data, LF_LF, 0);
    var i, lf := IndexFrom(data, CRLF_CRLF, 0), IndexFrom(data, LF_LF, 0);
    SliceAt(data, i, 4);
    SliceAt(data, lf, 2);
    assert data[lf] == data[lf..lf + 2][0] == LF;
    assert data[i] == data[i..i + 4][0] == CR;
  }
}
