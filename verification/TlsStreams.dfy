/** Streams whose first bytes are not HTTP: what they leave behind, and the names of TLS servers. */
module TlsStreams {
  import opened Bytes
  import opened HttpSyntax
  import opened HeaderText
  import opened Sni
  import opened TcpStream
  import opened Segmentation
  import opened EventStreams

  /** A hello behind a TLS 1.0 to 1.2 record header. */
  predicate TlsHello(h: Hello) {
    ValidHello(h) && h.record[0] == 22 && h.record[1] == 3 && 1 <= h.record[2] <= 3
  }

  /** A stream that has ended with these names logged and nothing else. */
  function Ended(names: seq<bytes>): State {
    NEW_STREAM.(nonHttp := true, firstData := true, sniEmitted := names != [],
                log := seq(|names|, i requires 0 <= i < |names| => TlsName(names[i])))
  }

  lemma HelloBytes(h: Hello)
    requires ValidHello(h)
    ensures var data := EncodeHello(h); |data| >= 44 && data[..5] == h.record && data[5] == 1
  {
    hide EncodeExtensions, EncodeU16;
    var data := EncodeHello(h);
    assert data == h.record + ([1] + (h.length + h.version + h.random
      + ([|h.session| as byte] + h.session) + (EncodeU16(|h.ciphers|) + h.ciphers)
      + ([|h.compression| as byte] + h.compression)
      + (EncodeU16(|EncodeExtensions(h.extensions)|) + EncodeExtensions(h.extensions))));
    assert data[5] == data[5..][0];
  }

  lemma NotRecognised(data: bytes)
    requires data != [] && data[0] == 22
    ensures !LooksLikeHttp(data)
  {
    RecognisedIff(data);
    assert |data| >= 4 ==> data[..4][0] == data[0];
  }

  /** Bytes that are not HTTP end the stream, whatever comes after them. */
  lemma RejectedEnds(save: SaveOracle, maxRes: nat, data: bytes, toServer: bool, segs: seq<Segment>)
    requires data != [] && !LooksLikeHttp(data)
    ensures FeedAll(save, maxRes, NEW_STREAM, [Segment(data, toServer)] + segs) ==
      Ended(if IsClientHello(data) && ExtractSni(data) != [] then [ExtractSni(data)] else [])
  {
    hide LooksLikeHttp, ExtractSni, IsClientHello;
    var all := [Segment(data, toServer)] + segs;
    assert all[1..] == segs && [] + data == data;
    var next := Feed(save, maxRes, NEW_STREAM, data, toServer);
    EndedStays(save, maxRes, next, segs);
    assert [] + [TlsName(ExtractSni(data))] == [TlsName(ExtractSni(data))];
  }

  /** A stream that opens with a whole ClientHello leaves its server name behind, and nothing more. */
  lemma HelloLeavesName(save: SaveOracle, maxRes: nat, h: Hello, k: nat, name: bytes, more: bytes, tail: bytes, toServer: bool,
                        segs: seq<Segment>)
    requires TlsHello(h) && Carries(h.extensions, k, name, more)
    ensures FeedAll(save, maxRes, NEW_STREAM, [Segment(EncodeHello(h) + tail, toServer)] + segs) ==
      Ended(if name == [] then [] else [name])
  {
    hide ValidHello, EncodeHello, Carries, LooksLikeHttp, ExtractSni, FeedAll;
    var data := EncodeHello(h) + tail;
    HelloBytes(h);
    assert h.record == data[..5] && IsClientHello(data);
    NotRecognised(data);
    NameFound(h, k, name, more, tail);
    RejectedEnds(save, maxRes, data, toServer, segs);
  }

  /** One that opens with a part of it leaves that name or none. */
  lemma CutHelloLeaves(save: SaveOracle, maxRes: nat, h: Hello, k: nat, name: bytes, more: bytes, cut: nat, toServer: bool,
                       segs: seq<Segment>)
    requires TlsHello(h) && Carries(h.extensions, k, name, more) && 1 <= cut <= |EncodeHello(h)|
    ensures FeedAll(save, maxRes, NEW_STREAM, [Segment(EncodeHello(h)[..cut], toServer)] + segs) in
      {Ended([]), Ended([name])}
  {
    hide ValidHello, EncodeHello, Carries, LooksLikeHttp, ExtractSni, FeedAll, IsClientHello, Ended;
    var data := EncodeHello(h)[..cut];
    HelloBytes(h);
    assert data[0] == EncodeHello(h)[..5][0];
    NotRecognised(data);
    TruncatedHello(h, k, name, more, cut);
    RejectedEnds(save, maxRes, data, toServer, segs);
  }

  /** Other bytes than HTTP and ClientHellos leave nothing. */
  lemma OthersLeaveNothing(save: SaveOracle, maxRes: nat, data: bytes, toServer: bool, segs: seq<Segment>)
    requires data != [] && !LooksLikeHttp(data)
    requires |data| < 6 || data[0] != 22 || data[1] != 3 || data[2] == 0 || data[2] > 3 || data[5] != 1
    ensures FeedAll(save, maxRes, NEW_STREAM, [Segment(data, toServer)] + segs) == Ended([])
  {
    hide LooksLikeHttp, FeedAll, Ended;
    RejectedEnds(save, maxRes, data, toServer, segs);
  }
}
