/** The bounded table of flows around the streams: Assemble, eviction, closing and expiry in internal/capture/engine.go. */
module FlowTable {
  import opened Bytes
  import opened TcpStream
  import opened FlowKey

  /** `lastActive` 0 is the zero time. */
  datatype Flow = Flow(lastActive: nat, clientPort: nat, stream: State)

  type Table = map<string, Flow>

  datatype Packet = Packet(src: Endpoint, dst: Endpoint, syn: bool, ack: bool, ends: bool, payload: bytes)

  const SERVER_PORTS: set<nat> :=
    {80, 443, 8080, 8443, 3000, 5000, 8000, 8888, 9000, 9090, 2080, 2083, 2086, 2087, 4443, 7443, 11180}

  predicate LikelyServer(port: nat) {
    port in SERVER_PORTS || port < 1024
  }

  /** The guess from the ports alone: towards the server's port. */
  predicate TowardsServer(srcPort: nat, dstPort: nat) {
    LikelyServer(dstPort) || (!LikelyServer(srcPort) && srcPort > dstPort)
  }

  function GuessedClient(p: Packet): nat {
    if TowardsServer(p.src.port, p.dst.port) then p.src.port else p.dst.port
  }

  /** The handshake corrects the guess; then the known client port decides every packet's direction. */
  function ClientPort(p: Packet, known: nat): nat {
    if p.syn && !p.ack then p.src.port
    else if p.syn && p.ack && known != 0 then p.dst.port
    else known
  }

  predicate FromClient(p: Packet, known: nat) {
    if p.syn && !p.ack then true
    else if p.syn && p.ack && known != 0 then false
    else if known != 0 then p.src.port == known
    else TowardsServer(p.src.port, p.dst.port)
  }

  predicate Oldest(t: Table, k: string) {
    k in t && forall j :: j in t ==> t[k].lastActive <= t[j].lastActive
  }

  /** Keys and activity times are what New and Feed give: never empty, never the zero time. */
  predicate WellKept(t: Table) {
    forall k :: k in t ==> k != "" && t[k].lastActive > 0
  }

  class Assembler {
    const save: SaveOracle
    const maxRes: nat
    const maxStreams: nat
    var streams: Table
    /** Streams that have left the table, after their closing flush, and packets dropped for want of room. */
    var ended: seq<State>
    var drops: nat

    constructor (save: SaveOracle, maxRes: nat, configured: int)
      ensures streams == map[] && ended == [] && drops == 0
      ensures this.save == save && this.maxRes == maxRes
      ensures maxStreams == if configured > 0 then configured else 1000
    {
      this.save, this.maxRes := save, maxRes;
      maxStreams := if configured > 0 then configured else 1000;
      streams, ended, drops := map[], [], 0;
    }

    /** Removes a least recently active flow; the keys come in any order. */
    method EvictOldestIdleStream() returns (evicted: Option<string>)
      requires WellKept(streams)
      modifies this`streams
      ensures evicted.None? <==> old(streams) == map[]
      ensures evicted.None? ==> streams == old(streams)
      ensures evicted.Some? ==> Oldest(old(streams), evicted.value) && streams == old(streams) - {evicted.value}
    {
      var oldestKey := FindOldest(streams);
      if oldestKey == "" {
        return None;
      }
      streams := streams - {oldestKey};
      return Some(oldestKey);
    }

    static method FindOldest(t: Table) returns (oldestKey: string)
      requires WellKept(t)
      ensures oldestKey == "" <==> t == map[]
      ensures oldestKey != "" ==> Oldest(t, oldestKey)
    {
      oldestKey := "";
      var oldestTime: nat := 0;
      var left := t.Keys;
      while left != {}
        invariant left <= t.Keys
        invariant oldestTime == 0 ==> oldestKey == "" && left == t.Keys
        invariant oldestTime > 0 ==> oldestKey in t && t[oldestKey].lastActive == oldestTime
        invariant forall k :: k in t && k !in left ==> oldestTime <= t[k].lastActive
        decreases |left|
      {
        var k :| k in left;
        left := left - {k};
        var active := t[k].lastActive;
        if oldestTime == 0 || active < oldestTime {
          oldestKey, oldestTime := k, active;
        }
      }
      assert t != map[] ==> t.Keys != {} by { NoKeys(t); }
    }

    method Open(key: string, p: Packet, now: nat) returns (evicted: Option<string>)
      requires WellKept(streams) && key !in streams && key != "" && now > 0
      requires maxStreams >= 1 && |streams| <= maxStreams
      modifies this`streams, this`ended, this`drops
      ensures WellKept(streams) && |streams| <= maxStreams && drops == old(drops)
      ensures evicted.Some? <==> |old(streams)| == maxStreams
      ensures evicted.None? ==> streams == old(streams)[key := Flow(now, GuessedClient(p), NEW_STREAM)] && ended == old(ended)
      ensures evicted.Some? ==>
        && Oldest(old(streams), evicted.value)
        && streams == (old(streams) - {evicted.value})[key := Flow(now, GuessedClient(p), NEW_STREAM)]
        && ended == old(ended) + [CloseStream(save, old(streams)[evicted.value].stream)]
    {
      hide CloseStream;
      evicted := None;
      var before := streams;
      if |streams| >= maxStreams {
        evicted := EvictOldestIdleStream();
        if evicted.Some? {
          assert |streams| == |before| - 1 by { RemoveOne(before, evicted.value); }
          ended := ended + [CloseStream(save, before[evicted.value].stream)];
        }
        drops := drops + if |streams| >= maxStreams then 1 else 0;
      }
      streams := streams[key := Flow(now, GuessedClient(p), NEW_STREAM)];
    }

    /** One packet: its flow is found or opened, fed, and closed when the packet ends it. */
    method Assemble(p: Packet, now: nat) returns (evicted: Option<string>)
      requires WellKept(streams) && now > 0 && maxStreams >= 1 && |streams| <= maxStreams
      modifies this`streams, this`ended, this`drops
      ensures WellKept(streams) && |streams| <= maxStreams && drops == old(drops)
      ensures Handled(save, maxRes, maxStreams, old(streams), old(ended), streams, ended, Key(p.src, p.dst), p, now, evicted)
    {
      hide CloseStream, Key, Advanced, Handled;
      var key := Key(p.src, p.dst);
      assert key != "" by { KeyNotEmpty(p.src, p.dst); }
      evicted := None;
      if key !in streams {
        evicted := Open(key, p, now);
      }
      ghost var t1, ended1 := streams, ended;
      Pass(key, p, now);
      PassHandles(save, maxRes, maxStreams, old(streams), old(ended), t1, ended1, streams, ended, key, p, now, evicted);
    }

    /** The packet reaches its flow. */
    method Pass(key: string, p: Packet, now: nat)
      requires WellKept(streams) && key in streams && now > 0
      modifies this`streams, this`ended
      ensures WellKept(streams) && |streams| <= |old(streams)|
      ensures var flow := Advanced(save, maxRes, old(streams)[key], p, now);
        && streams == (if p.ends then old(streams) - {key} else old(streams)[key := flow])
        && ended == old(ended) + if p.ends then [CloseStream(save, flow.stream)] else []
    {
      hide CloseStream, Feed;
      var flow := streams[key];
      var toServer := FromClient(p, flow.clientPort);
      flow := flow.(clientPort := ClientPort(p, flow.clientPort));
      if |p.payload| > 0 {
        flow := flow.(lastActive := now, stream := Feed(save, maxRes, flow.stream, p.payload, toServer));
      }
      if p.ends {
        RemoveOne(streams, key);
        ended := ended + [CloseStream(save, flow.stream)];
        streams := streams - {key};
      } else {
        assert streams[key := flow].Keys == streams.Keys;
        streams := streams[key := flow];
      }
    }

    /** Expiry: flows not active since `cutoff` are closed; flows found not to be HTTP go at once. */
    method FlushOlderThan(cutoff: nat) returns (ghost order: seq<string>)
      requires WellKept(streams)
      modifies this`streams, this`ended
      ensures WellKept(streams)
      ensures Closes(save, old(streams), old(ended), streams, ended, order)
      ensures forall k :: k in old(streams) ==>
        (k in order <==> old(streams)[k].stream.nonHttp || old(streams)[k].lastActive < cutoff)
    {
      hide CloseStream;
      var before := streams;
      var left := streams.Keys;
      order := [];
      while left != {}
        invariant left <= before.Keys
        invariant Closes(save, before, old(ended), streams, ended, order)
        invariant forall k :: k in before ==> (k in order <==> k !in left && Expired(before[k], cutoff))
        decreases |left|
      {
        var k :| k in left;
        if Expired(before[k], cutoff) {
          OneMoreCloses(save, before, old(ended), streams, ended, order, k);
          ended := ended + [CloseStream(save, before[k].stream)];
          streams := streams - {k};
          order := order + [k];
        }
        left := left - {k};
      }
    }

    /** The end of a capture: every flow is closed and the table emptied. */
    method FlushAllWithPending() returns (ghost order: seq<string>)
      modifies this`streams, this`ended
      ensures streams == map[] && Closes(save, old(streams), old(ended), streams, ended, order)
    {
      hide CloseStream;
      ghost var table := streams;
      var left := streams.Keys;
      order := [];
      while left != {}
        invariant left <= streams.Keys && streams == old(streams)
        invariant Closes(save, streams, old(ended), table, ended, order)
        invariant forall k :: k in streams ==> (k in order <==> k !in left)
        decreases |left|
      {
        var k :| k in left;
        OneMoreCloses(save, streams, old(ended), table, ended, order, k);
        ended := ended + [CloseStream(save, streams[k].stream)];
        table := table - {k};
        order := order + [k];
        left := left - {k};
      }
      assert table == map[];
      streams := map[];
    }
  }

  predicate Expired(f: Flow, cutoff: nat) {
    f.stream.nonHttp || f.lastActive < cutoff
  }

  predicate NoneTwice(order: seq<string>) {
    forall i, j :: 0 <= i < j < |order| ==> order[i] != order[j]
  }

  function Without(t: Table, order: seq<string>): Table {
    map k | k in t && k !in order :: t[k]
  }

  /** What closing these flows one after the other leaves behind. */
  function Closings(save: SaveOracle, t: Table, order: seq<string>): seq<State>
    requires forall k :: k in order ==> k in t
  {
    if order == [] then []
    else
      var last := |order| - 1;
      Closings(save, t, order[..last]) + [CloseStream(save, t[order[last]].stream)]
  }

  /** The flows in `order`, each once, have left the table through their close; nothing else has changed. */
  predicate Closes(save: SaveOracle, t0: Table, ended0: seq<State>, t: Table, ended: seq<State>, order: seq<string>) {
    && NoneTwice(order) && (forall k :: k in order ==> k in t0)
    && t == Without(t0, order) && ended == ended0 + Closings(save, t0, order)
  }

  lemma OneMoreCloses(save: SaveOracle, t0: Table, ended0: seq<State>, t: Table, ended: seq<State>, order: seq<string>,
                      k: string)
    requires Closes(save, t0, ended0, t, ended, order) && k in t0 && k !in order
    ensures Closes(save, t0, ended0, t - {k}, ended + [CloseStream(save, t0[k].stream)], order + [k])
  {
    hide CloseStream;
    assert (order + [k])[..|order|] == order;
  }

  function Advanced(save: SaveOracle, maxRes: nat, flow: Flow, p: Packet, now: nat): Flow {
    var client := ClientPort(p, flow.clientPort);
    if |p.payload| == 0 then flow.(clientPort := client)
    else Flow(now, client, Feed(save, maxRes, flow.stream, p.payload, FromClient(p, flow.clientPort)))
  }

  /** What one packet does to its own flow and to the evicted one; every other flow stays as it was. */
  predicate Handled(save: SaveOracle, maxRes: nat, maxStreams: nat, t0: Table, ended0: seq<State>, t: Table, ended: seq<State>,
                    key: string, p: Packet, now: nat, evicted: Option<string>) {
    (evicted.Some? <==> key !in t0 && |t0| == maxStreams) &&
    (evicted.Some? ==> Oldest(t0, evicted.value)) &&
    var found := if key in t0 then t0[key] else Flow(now, GuessedClient(p), NEW_STREAM);
    var flow := Advanced(save, maxRes, found, p, now);
    var kept := if evicted.Some? then t0 - {evicted.value} else t0;
    var gone := if evicted.Some? then [CloseStream(save, t0[evicted.value].stream)] else [];
    && t == (if p.ends then kept - {key} else kept[key := flow])
    && ended == ended0 + gone + if p.ends then [CloseStream(save, flow.stream)] else []
  }

  /** Opening the flow when needed and passing it the packet is handling the packet. */
  lemma PassHandles(save: SaveOracle, maxRes: nat, maxStreams: nat, t0: Table, ended0: seq<State>, t1: Table, ended1: seq<State>,
                    t: Table, ended: seq<State>, key: string, p: Packet, now: nat, evicted: Option<string>)
    requires evicted.Some? <==> key !in t0 && |t0| == maxStreams
    requires evicted.Some? ==> Oldest(t0, evicted.value)
    requires var kept := if evicted.Some? then t0 - {evicted.value} else t0;
      t1 == if key in t0 then t0 else kept[key := Flow(now, GuessedClient(p), NEW_STREAM)]
    requires ended1 == ended0 + if evicted.Some? then [CloseStream(save, t0[evicted.value].stream)] else []
    requires var flow := Advanced(save, maxRes, t1[key], p, now);
      && t == (if p.ends then t1 - {key} else t1[key := flow])
      && ended == ended1 + if p.ends then [CloseStream(save, flow.stream)] else []
    ensures Handled(save, maxRes, maxStreams, t0, ended0, t, ended, key, p, now, evicted)
  {
    hide CloseStream, Advanced;
  }

  lemma NoKeys(t: Table)
    ensures t.Keys == {} ==> t == map[]
  {
  }

  lemma RemoveOne(t: Table, k: string)
    requires k in t
    ensures |t - {k}| == |t| - 1
  {
    assert (t - {k}).Keys == t.Keys - {k};
  }

  lemma KeyNotEmpty(a: Endpoint, b: Endpoint)
    ensures Key(a, b) != ""
  {
    hide Less, Decimal;
  }
}
