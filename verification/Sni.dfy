/**
 The server name in a TLS ClientHello: the nested length-prefixed parser of internal/capture/engine.go,
 against section 7.4.1.2 of RFC 5246 and section 3 of RFC 6066.
 */
module Sni {
  import opened Bytes

  // ---- Specification ----

  predicate IsClientHello(data: bytes) {
    |data| >= 6 && data[0] == 0x16 && data[1] == 0x03 && 1 <= data[2] <= 3
  }

  function U16(data: bytes, at: nat): (n: nat)
    requires at + 2 <= |data|
    ensures n < 0x1_0000
  {
    data[at] as int * 256 + data[at + 1] as int
  }

  /** The first host_name entry that fits the list. */
  function ScanNames(data: bytes, at: nat, end: nat): bytes
    requires end <= |data|
    decreases |data| - at
  {
    if at + 3 > end then []
    else
      var len := U16(data, at + 1);
      if data[at] == 0 && at + 3 + len <= end then data[at + 3..at + 3 + len]
      else ScanNames(data, at + 3 + len, end)
  }

  function ScanList(data: bytes, at: nat, end: nat): bytes
    requires end <= |data|
  {
    if at + 2 > end then []
    else ScanNames(data, at + 2, Min(at + 2 + U16(data, at), end))
  }

  /** The first server_name extension decides; the others are skipped by their lengths. */
  function ScanExtensions(data: bytes, at: nat, end: nat): bytes
    requires end <= |data|
    decreases |data| - at
  {
    if at + 4 > end then []
    else if U16(data, at) == 0 then ScanList(data, at + 4, end)
    else ScanExtensions(data, at + 4 + U16(data, at + 2), end)
  }

  function ScanAfterCompression(data: bytes, at: nat): bytes {
    if at + 2 > |data| then []
    else ScanExtensions(data, at + 2, Min(at + 2 + U16(data, at), |data|))
  }

  function ScanAfterCiphers(data: bytes, at: nat): bytes {
    if at >= |data| then [] else ScanAfterCompression(data, at + 1 + data[at] as int)
  }

  function ScanAfterSession(data: bytes, at: nat): bytes {
    if at + 2 > |data| then [] else ScanAfterCiphers(data, at + 2 + U16(data, at))
  }

  function ExtractSni(data: bytes): bytes {
    if |data| < 44 || data[5] != 1 then [] else ScanAfterSession(data, 44 + data[43] as int)
  }

  // ---- The parser ----

  /** Reads no byte outside `data`, whatever the bytes are. */
  method FindSni(data: bytes) returns (name: bytes)
    ensures name == ExtractSni(data)
  {
    if |data| < 44 {
      return [];
    }
    var offset := 5;
    if data[offset] != 0x01 {
      return [];
    }
    offset := offset + 4;
    offset := offset + 2;
    offset := offset + 32;
    var sessionIDLen := data[offset] as int;
    offset := offset + 1 + sessionIDLen;
    if offset + 2 > |data| {
      return [];
    }
    var cipherSuitesLen := data[offset] as int * 256 + data[offset + 1] as int;
    offset := offset + 2 + cipherSuitesLen;
    if offset >= |data| {
      return [];
    }
    var compressionMethodsLen := data[offset] as int;
    offset := offset + 1 + compressionMethodsLen;
    if offset + 2 > |data| {
      return [];
    }
    var extensionsLen := data[offset] as int * 256 + data[offset + 1] as int;
    offset := offset + 2;
    var extensionsEnd := offset + extensionsLen;
    if extensionsEnd > |data| {
      extensionsEnd := |data|;
    }
    name := FindInExtensions(data, offset, extensionsEnd);
  }

  method FindInExtensions(data: bytes, start: nat, extensionsEnd: nat) returns (name: bytes)
    requires extensionsEnd <= |data|
    ensures name == ScanExtensions(data, start, extensionsEnd)
  {
    var offset := start;
    while offset + 4 <= extensionsEnd
      invariant ScanExtensions(data, offset, extensionsEnd) == ScanExtensions(data, start, extensionsEnd)
    {
      var extType := data[offset] as int * 256 + data[offset + 1] as int;
      var extLen := data[offset + 2] as int * 256 + data[offset + 3] as int;
      offset := offset + 4;
      if extType == 0x0000 {
        if offset + 2 > extensionsEnd {
          return [];
        }
        var listLen := data[offset] as int * 256 + data[offset + 1] as int;
        offset := offset + 2;
        var listEnd := offset + listLen;
        if listEnd > extensionsEnd {
          listEnd := extensionsEnd;
        }
        name := FindInList(data, offset, listEnd);
        return;
      }
      offset := offset + extLen;
    }
    return [];
  }

  method FindInList(data: bytes, start: nat, listEnd: nat) returns (name: bytes)
    requires listEnd <= |data|
    ensures name == ScanNames(data, start, listEnd)
  {
    var offset := start;
    while offset + 3 <= listEnd
      invariant ScanNames(data, offset, listEnd) == ScanNames(data, start, listEnd)
    {
      var nameType := data[offset];
      var nameLen := data[offset + 1] as int * 256 + data[offset + 2] as int;
      offset := offset + 3;
      if nameType == 0x00 && offset + nameLen <= listEnd {
        return data[offset..offset + nameLen];
      }
      offset := offset + nameLen;
    }
    return [];
  }

  // ---- Truncation: a prefix yields the name of the whole, or nothing ----

  lemma {:induction false} NamesOfPrefix(data: bytes, k: nat, at: nat, end: nat)
    requires k <= |data| && end <= |data|
    ensures var found := ScanNames(data[..k], at, Min(end, k));
      found == [] || found == ScanNames(data, at, end)
    decreases |data| - at
  {
    if at + 3 <= Min(end, k) {
      NamesOfPrefix(data, k, at + 3 + U16(data, at + 1), end);
    }
  }

  lemma {:induction false} ExtensionsOfPrefix(data: bytes, k: nat, at: nat, end: nat)
    requires k <= |data| && end <= |data|
    ensures var found := ScanExtensions(data[..k], at, Min(end, k));
      found == [] || found == ScanExtensions(data, at, end)
    decreases |data| - at
  {
    if at + 4 <= Min(end, k) {
      if U16(data, at) == 0 {
        if at + 6 <= Min(end, k) {
          NamesOfPrefix(data, k, at + 6, Min(at + 6 + U16(data, at + 4), end));
        }
      } else {
        ExtensionsOfPrefix(data, k, at + 4 + U16(data, at + 2), end);
      }
    }
  }

  /** On any bytes: cutting the data short loses the name or keeps it, and never yields another one. */
  lemma PrefixKeepsOrLosesName(data: bytes, k: nat)
    requires k <= |data|
    ensures ExtractSni(data[..k]) == [] || ExtractSni(data[..k]) == ExtractSni(data)
  {
    hide ScanExtensions;
    var p := data[..k];
    if k >= 44 && data[5] == 1 {
      var session := 44 + data[43] as int;
      if session + 2 <= k {
        var ciphers := session + 2 + U16(data, session);
        assert U16(p, session) == U16(data, session);
        if ciphers < k {
          var compression := ciphers + 1 + data[ciphers] as int;
          if compression + 2 <= k {
            assert U16(p, compression) == U16(data, compression);
            ExtensionsOfPrefix(data, k, compression + 2, Min(compression + 2 + U16(data, compression), |data|));
          }
        }
      }
    }
  }

  // ---- Encoded ClientHellos ----

  datatype Extension = Extension(kind: nat, body: bytes)

  /** `record` and `length` stand for the record header and the handshake length, which the parser skips. */
  datatype Hello = Hello(
    record: bytes, length: bytes, version: bytes, random: bytes,
    session: bytes, ciphers: bytes, compression: bytes, extensions: seq<Extension>)

  function EncodeU16(n: nat): (e: bytes)
    requires n < 0x1_0000
    ensures |e| == 2 && U16(e, 0) == n
  {
    [(n / 256) as byte, (n % 256) as byte]
  }

  predicate ValidExtension(e: Extension) {
    e.kind < 0x1_0000 && |e.body| < 0x1_0000
  }

  predicate ValidExtensions(es: seq<Extension>) {
    forall e :: e in es ==> ValidExtension(e)
  }

  function EncodeExtension(e: Extension): bytes
    requires ValidExtension(e)
  {
    EncodeU16(e.kind) + EncodeU16(|e.body|) + e.body
  }

  function EncodeExtensions(es: seq<Extension>): bytes
    requires ValidExtensions(es)
  {
    if es == [] then [] else EncodeExtension(es[0]) + EncodeExtensions(es[1..])
  }

  predicate ValidHello(h: Hello) {
    && |h.record| == 5 && |h.length| == 3 && |h.version| == 2 && |h.random| == 32
    && |h.session| < 256 && |h.ciphers| < 0x1_0000 && |h.compression| < 256
    && ValidExtensions(h.extensions) && |EncodeExtensions(h.extensions)| < 0x1_0000
  }

  function EncodeHello(h: Hello): bytes
    requires ValidHello(h)
  {
    var extensions := EncodeExtensions(h.extensions);
    h.record + ([1] + h.length) + h.version + h.random
    + ([|h.session| as byte] + h.session)
    + (EncodeU16(|h.ciphers|) + h.ciphers)
    + ([|h.compression| as byte] + h.compression)
    + (EncodeU16(|extensions|) + extensions)
  }

  /** A server_name body whose first entry is a host_name; `more` is the rest of the list. */
  function EncodeNames(name: bytes, more: bytes): bytes
    requires |name| + |more| + 3 < 0x1_0000
  {
    EncodeU16(3 + |name| + |more|) + ([0] + EncodeU16(|name|) + name + more)
  }

  lemma U16At(data: bytes, at: nat, n: nat, rest: bytes)
    requires n < 0x1_0000 && at <= |data| && data[at..] == EncodeU16(n) + rest
    ensures at + 2 <= |data| && U16(data, at) == n && data[at + 2..] == rest
  {
    var e := EncodeU16(n);
    assert |data[at..]| == 2 + |rest|;
    assert data[at] == data[at..][0] == e[0] && data[at + 1] == data[at..][1] == e[1];
    assert data[at + 2..] == data[at..][2..];
  }

  lemma SkipAt(data: bytes, at: nat, skipped: bytes, rest: bytes)
    requires at <= |data| && data[at..] == skipped + rest
    ensures at + |skipped| <= |data| && data[at..at + |skipped|] == skipped && data[at + |skipped|..] == rest
  {
    assert |data[at..]| == |skipped| + |rest|;
    assert data[at..at + |skipped|] == data[at..][..|skipped|];
    assert data[at + |skipped|..] == data[at..][|skipped|..];
  }

  lemma NamesFound(data: bytes, at: nat, end: nat, name: bytes, more: bytes, tail: bytes)
    requires |name| + |more| + 3 < 0x1_0000
    requires at <= |data| && data[at..] == EncodeNames(name, more) + tail
    requires at + |EncodeNames(name, more)| <= end <= |data|
    ensures ScanList(data, at, end) == name
  {
    var list := [0] + EncodeU16(|name|) + name + more;
    assert EncodeNames(name, more) + tail == EncodeU16(|list|) + (list + tail);
    U16At(data, at, |list|, list + tail);
    assert list + tail == [0] + (EncodeU16(|name|) + (name + (more + tail)));
    SkipAt(data, at + 2, [0], EncodeU16(|name|) + (name + (more + tail)));
    assert data[at + 2] == data[at + 2..at + 3][0];
    U16At(data, at + 3, |name|, name + (more + tail));
    SkipAt(data, at + 5, name, more + tail);
  }

  /** The first server_name extension is the k-th, and its list starts with the host_name `name`. */
  predicate Carries(es: seq<Extension>, k: nat, name: bytes, more: bytes) {
    && k < |es| && es[k].kind == 0
    && (forall j :: 0 <= j < k ==> es[j].kind != 0)
    && |name| + |more| + 3 < 0x1_0000 && es[k].body == EncodeNames(name, more)
  }

  lemma ExtensionAt(data: bytes, at: nat, e: Extension, rest: bytes)
    requires ValidExtension(e) && at <= |data| && data[at..] == EncodeExtension(e) + rest
    ensures at + 4 <= |data| && U16(data, at) == e.kind && U16(data, at + 2) == |e.body|
    ensures data[at + 4..] == e.body + rest
  {
    assert EncodeExtension(e) + rest == EncodeU16(e.kind) + (EncodeU16(|e.body|) + (e.body + rest));
    U16At(data, at, e.kind, EncodeU16(|e.body|) + (e.body + rest));
    U16At(data, at + 2, |e.body|, e.body + rest);
  }

  lemma {:induction false} ExtensionsFound(data: bytes, at: nat, end: nat, es: seq<Extension>, k: nat, name: bytes,
                                           more: bytes, tail: bytes)
    requires ValidExtensions(es) && Carries(es, k, name, more)
    requires at <= |data| && data[at..] == EncodeExtensions(es) + tail
    requires at + |EncodeExtensions(es)| == end <= |data|
    ensures ScanExtensions(data, at, end) == name
    decreases k
  {
    hide U16, EncodeU16, ScanList;
    var e, rest := es[0], EncodeExtensions(es[1..]) + tail;
    assert e in es;
    assert EncodeExtensions(es) + tail == EncodeExtension(e) + rest;
    ExtensionAt(data, at, e, rest);
    if k == 0 {
      NamesFound(data, at + 4, end, name, more, rest);
    } else {
      SkipAt(data, at + 4, e.body, rest);
      ExtensionsFound(data, at + 4 + |e.body|, end, es[1..], k - 1, name, more, tail);
    }
  }

  lemma AfterCompression(data: bytes, at: nat, es: seq<Extension>, k: nat, name: bytes, more: bytes, tail: bytes)
    requires ValidExtensions(es) && Carries(es, k, name, more) && |EncodeExtensions(es)| < 0x1_0000
    requires at <= |data| && data[at..] == EncodeU16(|EncodeExtensions(es)|) + (EncodeExtensions(es) + tail)
    ensures ScanAfterCompression(data, at) == name
  {
    hide ScanExtensions, U16, EncodeU16, EncodeExtensions;
    var all := EncodeExtensions(es);
    U16At(data, at, |all|, all + tail);
    ExtensionsFound(data, at + 2, at + 2 + |all|, es, k, name, more, tail);
  }

  lemma ByteAt(data: bytes, at: nat, b: byte, rest: bytes)
    requires at <= |data| && data[at..] == [b] + rest
    ensures at < |data| && data[at] == b && data[at + 1..] == rest
  {
    assert data[at] == data[at..][0];
    SkipAt(data, at, [b], rest);
  }

  lemma AfterSession(data: bytes, at: nat, h: Hello, rest: bytes)
    requires ValidHello(h) && at <= |data|
    requires data[at..] == EncodeU16(|h.ciphers|) + (h.ciphers + ([|h.compression| as byte] + (h.compression + rest)))
    ensures var next := at + 3 + |h.ciphers| + |h.compression|;
      next <= |data| && data[next..] == rest && ScanAfterSession(data, at) == ScanAfterCompression(data, next)
  {
    hide ScanAfterCompression, EncodeExtensions;
    var rest2 := [|h.compression| as byte] + (h.compression + rest);
    U16At(data, at, |h.ciphers|, h.ciphers + rest2);
    SkipAt(data, at + 2, h.ciphers, rest2);
    var ciphers := at + 2 + |h.ciphers|;
    ByteAt(data, ciphers, |h.compression| as byte, h.compression + rest);
    SkipAt(data, ciphers + 1, h.compression, rest);
  }

  lemma HelloLayout(h: Hello, tail: bytes)
    requires ValidHello(h)
    ensures var data, es := EncodeHello(h) + tail, EncodeExtensions(h.extensions);
      && |data| >= 44 && data[5] == 1 && data[43] as int == |h.session|
      && data[44..] == h.session + (EncodeU16(|h.ciphers|)
           + (h.ciphers + ([|h.compression| as byte] + (h.compression + (EncodeU16(|es|) + (es + tail))))))
  {
    hide EncodeExtensions, EncodeU16;
    var data, es := EncodeHello(h) + tail, EncodeExtensions(h.extensions);
    var head := h.record + [1] + h.length + h.version + h.random + [|h.session| as byte];
    assert |head| == 44 && head[5] == 1 && head[43] == |h.session| as byte;
    assert data == head + (h.session + (EncodeU16(|h.ciphers|)
      + (h.ciphers + ([|h.compression| as byte] + (h.compression + (EncodeU16(|es|) + (es + tail)))))));
  }

  /** The name in the first server_name extension is found, whatever surrounds it. */
  lemma NameFound(h: Hello, k: nat, name: bytes, more: bytes, tail: bytes)
    requires ValidHello(h) && Carries(h.extensions, k, name, more)
    ensures ExtractSni(EncodeHello(h) + tail) == name
  {
    hide ScanAfterSession, ScanAfterCompression, EncodeHello, EncodeExtensions, U16, EncodeU16;
    var data, es := EncodeHello(h) + tail, EncodeExtensions(h.extensions);
    HelloLayout(h, tail);
    var rest3 := EncodeU16(|es|) + (es + tail);
    var rest1 := EncodeU16(|h.ciphers|) + (h.ciphers + ([|h.compression| as byte] + (h.compression + rest3)));
    SkipAt(data, 44, h.session, rest1);
    AfterSession(data, 44 + |h.session|, h, rest3);
    AfterCompression(data, 44 + |h.session| + 3 + |h.ciphers| + |h.compression|, h.extensions, k, name, more, tail);
  }

  /** A truncated ClientHello yields its own name or nothing. */
  lemma TruncatedHello(h: Hello, k: nat, name: bytes, more: bytes, cut: nat)
    requires ValidHello(h) && Carries(h.extensions, k, name, more)
    requires cut <= |EncodeHello(h)|
    ensures ExtractSni(EncodeHello(h)[..cut]) == [] || ExtractSni(EncodeHello(h)[..cut]) == name
  {
    hide ExtractSni;
    NameFound(h, k, name, more, []);
    assert EncodeHello(h) + [] == EncodeHello(h);
    PrefixKeepsOrLosesName(EncodeHello(h), cut);
  }
}
