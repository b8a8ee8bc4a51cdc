/** Which side of a flow each packet's bytes are fed to: with a handshake, without one, and in the table. */
module FlowDirections {
  import opened Bytes
  import opened TcpStream
  import opened Segmentation
  import opened FlowKey
  import opened FlowTable
  import opened FlowRuns

  datatype Timed = Timed(p: Packet, now: nat)

  /** A flow after these packets, none of which ends it. */
  function Followed(save: SaveOracle, maxRes: nat, flow: Flow, packets: seq<Timed>): Flow
    decreases |packets|
  {
    if packets == [] then flow
    else Followed(save, maxRes, Advanced(save, maxRes, flow, packets[0].p, packets[0].now), packets[1..])
  }

  /** The flow that a first packet opens. */
  function Opened(t: Timed): Flow {
    Flow(t.now, GuessedClient(t.p), NEW_STREAM)
  }

  /** The payloads in order, those from `c` being the client's. */
  function Payloads(packets: seq<Timed>, c: Endpoint): seq<Segment> {
    if packets == [] then []
    else
      (if packets[0].p.payload == [] then [] else [Segment(packets[0].p.payload, packets[0].p.src == c)])
      + Payloads(packets[1..], c)
  }

  /** When the last payload came. */
  function LastPayload(packets: seq<Timed>, before: nat): nat {
    if packets == [] then before
    else LastPayload(packets[1..], if packets[0].p.payload == [] then before else packets[0].now)
  }

  predicate Between(p: Packet, c: Endpoint, s: Endpoint) {
    (p.src == c && p.dst == s) || (p.src == s && p.dst == c)
  }

  /** Only the client sends a bare SYN, and only the server answers one. */
  predicate Shakes(p: Packet, c: Endpoint) {
    p.syn ==> (p.src == c <==> !p.ack)
  }

  predicate OneFlow(packets: seq<Timed>, c: Endpoint, s: Endpoint) {
    forall t :: t in packets ==> Between(t.p, c, s) && Shakes(t.p, c)
  }

  lemma PacketAdvances(save: SaveOracle, maxRes: nat, flow: Flow, t: Timed, c: Endpoint, s: Endpoint)
    requires Between(t.p, c, s) && Shakes(t.p, c) && c.port != s.port && c.port != 0 && s.port != 0
    requires flow.clientPort == c.port || (t.p.syn && !t.p.ack) || (t.p.syn && flow.clientPort != 0)
    ensures var next := Advanced(save, maxRes, flow, t.p, t.now);
      && next.clientPort == c.port
      && next.stream == FeedAll(save, maxRes, flow.stream, Payloads([t], c))
      && next.lastActive == LastPayload([t], flow.lastActive)
  {
    hide Feed;
    assert [t][1..] == [];
    assert Payloads([], c) == [];
    var seg := Segment(t.p.payload, t.p.src == c);
    assert [seg][1..] == [] && FeedAll(save, maxRes, flow.stream, []) == flow.stream;
    assert [seg] + [] == [seg];
  }

  lemma {:induction false} FeedTwice(save: SaveOracle, maxRes: nat, st: State, a: seq<Segment>, b: seq<Segment>)
    ensures FeedAll(save, maxRes, st, a + b) == FeedAll(save, maxRes, FeedAll(save, maxRes, st, a), b)
    decreases |a|
  {
    hide Feed;
    if a == [] {
      assert a + b == b;
    } else {
      FeedTwice(save, maxRes, Feed(save, maxRes, st, a[0].data, a[0].toServer), a[1..], b);
      assert (a + b)[1..] == a[1..] + b;
    }
  }

  /** Once the client's port is known every payload goes to the right side, and the flow's activity is its last payload. */
  lemma {:induction false} KnownClient(save: SaveOracle, maxRes: nat, flow: Flow, packets: seq<Timed>,
                                       c: Endpoint, s: Endpoint)
    requires OneFlow(packets, c, s) && c.port != s.port && c.port != 0 && s.port != 0
    requires packets != [] ==> flow.clientPort == c.port || (packets[0].p.syn && (!packets[0].p.ack || flow.clientPort != 0))
    ensures var r := Followed(save, maxRes, flow, packets);
      && r.stream == FeedAll(save, maxRes, flow.stream, Payloads(packets, c))
      && r.lastActive == LastPayload(packets, flow.lastActive)
    decreases |packets|
  {
    hide Advanced, Feed;
    if packets == [] {
    } else {
      var t, later := packets[0], packets[1..];
      assert t in packets;
      PacketAdvances(save, maxRes, flow, t, c, s);
      var next := Advanced(save, maxRes, flow, t.p, t.now);
      KnownClient(save, maxRes, next, later, c, s);
      assert [t][1..] == [] && Payloads([t], c) + Payloads(later, c) == Payloads(packets, c);
      FeedTwice(save, maxRes, flow.stream, Payloads([t], c), Payloads(later, c));
    }
  }

  /** A flow opened by its client's SYN, or joined at the answer to it: each payload is fed to the side it came from. */
  lemma HandshakeDirects(save: SaveOracle, maxRes: nat, packets: seq<Timed>, c: Endpoint, s: Endpoint)
    requires packets != [] && packets[0].p.syn
    requires OneFlow(packets, c, s) && c.port != s.port && c.port != 0 && s.port != 0
    ensures Followed(save, maxRes, Opened(packets[0]), packets).stream ==
      FeedAll(save, maxRes, NEW_STREAM, Payloads(packets, c))
  {
    hide Followed, LikelyServer;
    assert packets[0] in packets;
    KnownClient(save, maxRes, Opened(packets[0]), packets, c, s);
  }

  // ---- Without a handshake ----

  /** The ports a server is expected at. */
  lemma ServerPorts(port: nat)
    ensures var high := {2080, 2083, 2086, 2087, 3000, 4443, 5000, 7443, 8000, 8080, 8443, 8888, 9000, 9090, 11180};
      LikelyServer(port) <==> (port < 1024 || port in high)
  {
  }

  /** Whether the first packet of `c` or, if not `fromClient`, of `s` makes `c` the client. */
  predicate GuessesRight(c: nat, s: nat, fromClient: bool) {
    if fromClient then LikelyServer(s) || (!LikelyServer(c) && c > s)
    else !LikelyServer(c) && (LikelyServer(s) || c > s)
  }

  lemma GuessIff(p: Packet, c: Endpoint, s: Endpoint)
    requires Between(p, c, s) && c.port != s.port
    ensures GuessedClient(p) == if GuessesRight(c.port, s.port, p.src == c) then c.port else s.port
  {
    hide LikelyServer;
  }

  /**
   A flow joined after its handshake: every payload is fed to the right side exactly as the ports let the first packet
   guess; otherwise every payload goes to the wrong one.
   */
  lemma GuessDirects(save: SaveOracle, maxRes: nat, packets: seq<Timed>, c: Endpoint, s: Endpoint)
    requires packets != [] && (forall t :: t in packets ==> Between(t.p, c, s) && !t.p.syn)
    requires c.port != s.port && c.port != 0 && s.port != 0
    ensures Followed(save, maxRes, Opened(packets[0]), packets).stream ==
      FeedAll(save, maxRes, NEW_STREAM,
              Payloads(packets, if GuessesRight(c.port, s.port, packets[0].p.src == c) then c else s))
  {
    hide Followed, LikelyServer, GuessesRight;
    assert packets[0] in packets;
    GuessIff(packets[0].p, c, s);
    if GuessesRight(c.port, s.port, packets[0].p.src == c) {
      KnownClient(save, maxRes, Opened(packets[0]), packets, c, s);
    } else {
      KnownClient(save, maxRes, Opened(packets[0]), packets, s, c);
    }
  }

  /** With one port on both sides every packet but a SYN-ACK is taken for the client's. */
  lemma EqualPorts(p: Packet, known: nat)
    requires p.src.port == p.dst.port == known != 0 && !(p.syn && p.ack)
    ensures FromClient(p, known) && ClientPort(p, known) == known
  {
  }

  // ---- In the table ----

  /** The packets among these moves that belong to the flow `k`; a move without a packet is an expiry. */
  function OfFlow(moves: seq<Option<Timed>>, k: string): seq<Timed> {
    if moves == [] then []
    else
      OfFlow(moves[..|moves| - 1], k) +
      match moves[|moves| - 1]
      case None => []
      case Some(t) => if Key(t.p.src, t.p.dst) == k then [t] else []
  }

  ghost predicate MovesBy(save: SaveOracle, maxRes: nat, maxStreams: nat, c: Config, d: Config, move: Option<Timed>) {
    match move
    case None => exists order: seq<string> :: Closes(save, c.table, c.ended, d.table, d.ended, order)
    case Some(t) => exists evicted: Option<string> ::
      Handled(save, maxRes, maxStreams, c.table, c.ended, d.table, d.ended, Key(t.p.src, t.p.dst), t.p, t.now, evicted)
  }

  /** One move leaves a flow that stays in the table alone, or passes it its packet. */
  lemma MoveFollows(save: SaveOracle, maxRes: nat, maxStreams: nat, c: Config, d: Config, move: Option<Timed>, k: string)
    requires MovesBy(save, maxRes, maxStreams, c, d, move) && k in d.table
    ensures k !in c.table ==>
      && move.Some? && Key(move.value.p.src, move.value.p.dst) == k
      && d.table[k] == Advanced(save, maxRes, Opened(move.value), move.value.p, move.value.now)
    ensures k in c.table ==>
      if move.Some? && Key(move.value.p.src, move.value.p.dst) == k
      then d.table[k] == Advanced(save, maxRes, c.table[k], move.value.p, move.value.now)
      else d.table[k] == c.table[k]
  {
    hide Advanced, CloseStream, Key, GuessedClient, Closings;
    match move
    case None =>
      var order :| Closes(save, c.table, c.ended, d.table, d.ended, order);
    case Some(t) =>
      var evicted :| Handled(save, maxRes, maxStreams, c.table, c.ended, d.table, d.ended, Key(t.p.src, t.p.dst), t.p, t.now,
                             evicted);
  }

  lemma {:induction false} FollowedNext(save: SaveOracle, maxRes: nat, flow: Flow, packets: seq<Timed>, t: Timed)
    ensures Followed(save, maxRes, flow, packets + [t]) ==
      Advanced(save, maxRes, Followed(save, maxRes, flow, packets), t.p, t.now)
    decreases |packets|
  {
    hide Advanced;
    if packets == [] {
      assert [] + [t] == [t] && [t][1..] == [];
      assert Followed(save, maxRes, Advanced(save, maxRes, flow, t.p, t.now), []) == Advanced(save, maxRes, flow, t.p, t.now);
    } else {
      FollowedNext(save, maxRes, Advanced(save, maxRes, flow, packets[0].p, packets[0].now), packets[1..], t);
      assert (packets + [t])[1..] == packets[1..] + [t];
    }
  }

  /** A flow that stays in the table is, after any moves, what its own packets make of it, whatever other flows do. */
  lemma {:induction false} FlowFollowsItsPackets(save: SaveOracle, maxRes: nat, maxStreams: nat, configs: seq<Config>,
                                                 moves: seq<Option<Timed>>, k: string)
    requires |configs| == |moves| + 1
    requires forall i :: 0 <= i < |moves| ==> MovesBy(save, maxRes, maxStreams, configs[i], configs[i + 1], moves[i])
    requires forall i :: 0 <= i < |configs| ==> k in configs[i].table
    ensures configs[|moves|].table[k] == Followed(save, maxRes, configs[0].table[k], OfFlow(moves, k))
    decreases |moves|
  {
    hide MovesBy, Advanced, Key;
    if moves == [] {
    } else {
      var n := |moves| - 1;
      FlowFollowsItsPackets(save, maxRes, maxStreams, configs[..n + 1], moves[..n], k);
      MoveFollows(save, maxRes, maxStreams, configs[n], configs[n + 1], moves[n], k);
      var before := OfFlow(moves[..n], k);
      if moves[n].Some? {
        FollowedNext(save, maxRes, configs[0].table[k], before, moves[n].value);
      }
      assert before + [] == before;
    }
  }
}
