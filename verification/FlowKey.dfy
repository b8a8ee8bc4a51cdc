/** How a packet finds its flow: the key of internal/capture/engine.go, and the worker that handles it. */
module FlowKey {

  type Port = p: nat | p < 0x1_0000

  /** `fold` is the address as the 32 bits that the worker hash uses. */
  datatype Endpoint = Endpoint(address: string, fold: bv32, port: Port)

  /** Go's string order on bytes. */
  predicate Less(a: string, b: string) {
    b != "" && (a == "" || a[0] < b[0] || (a[0] == b[0] && Less(a[1..], b[1..])))
  }

  function Decimal(n: nat): (d: string)
    ensures d != "" && forall c :: c in d ==> '0' <= c <= '9'
  {
    var digit := ['0' + (n % 10) as char];
    if n < 10 then digit else Decimal(n / 10) + digit
  }

  /** The endpoint that comes first in the key. */
  predicate First(a: Endpoint, b: Endpoint) {
    Less(a.address, b.address) || (a.address == b.address && a.port < b.port)
  }

  function Join(a: Endpoint, b: Endpoint): string {
    a.address + "#" + Decimal(a.port) + "#" + b.address + "#" + Decimal(b.port)
  }

  function Key(src: Endpoint, dst: Endpoint): string {
    if First(src, dst) then Join(src, dst) else Join(dst, src)
  }

  /** Which worker a packet goes to. */
  function Worker(src: Endpoint, dst: Endpoint, workers: nat): (w: nat)
    requires workers > 0
    ensures w < workers
  {
    var h := src.fold ^ dst.fold ^ (src.port as bv32) ^ (dst.port as bv32);
    var mixed := (h >> 16) ^ h;
    (mixed as int) % workers
  }

  // ---- Order ----

  lemma {:induction false} LessTotal(a: string, b: string)
    ensures !(Less(a, b) && Less(b, a))
    ensures a == b || Less(a, b) || Less(b, a)
  {
    if a == "" || b == "" || a[0] != b[0] {
    } else {
      LessTotal(a[1..], b[1..]);
      assert a == [a[0]] + a[1..] && b == [b[0]] + b[1..];
    }
  }

  lemma SamePlaces(a: Endpoint, b: Endpoint)
    ensures a.address == b.address && a.port == b.port ==> Join(a, b) == Join(b, a)
  {
    hide Decimal;
  }

  /** Both directions of a flow have one key. */
  lemma KeySymmetric(a: Endpoint, b: Endpoint)
    ensures Key(a, b) == Key(b, a)
  {
    hide Less, Join;
    LessTotal(a.address, b.address);
    SamePlaces(a, b);
  }

  /** Both directions of a flow go to one worker. */
  lemma WorkerSymmetric(a: Endpoint, b: Endpoint, workers: nat)
    requires workers > 0
    ensures Worker(a, b, workers) == Worker(b, a, workers)
  {
    var p, q := a.port as bv32, b.port as bv32;
    assert a.fold ^ b.fold ^ p ^ q == b.fold ^ a.fold ^ q ^ p;
  }

  // ---- Distinct flows have distinct keys ----

  lemma {:induction false} DecimalInjective(m: nat, n: nat)
    requires Decimal(m) == Decimal(n)
    ensures m == n
    decreases m
  {
    var d, e := Decimal(m), Decimal(n);
    LastDigit(m);
    LastDigit(n);
    assert d[|d| - 1] == e[|e| - 1] && d[..|d| - 1] == e[..|e| - 1];
    if m >= 10 {
      DecimalInjective(m / 10, n / 10);
    }
  }

  lemma LastDigit(n: nat)
    ensures var d := Decimal(n);
      && d[|d| - 1] == '0' + (n % 10) as char
      && d[..|d| - 1] == if n < 10 then "" else Decimal(n / 10)
  {
  }

  predicate NoHash(s: string) {
    forall k :: 0 <= k < |s| ==> s[k] != '#'
  }

  /** What stands before the first hash is determined. */
  lemma FirstField(a: string, b: string, x: string, y: string)
    requires NoHash(a) && NoHash(b) && a + "#" + x == b + "#" + y
    ensures a == b && x == y
  {
    var whole := a + "#" + x;
    assert whole[|a|] == '#' && whole[|b|] == '#';
    assert |a| == |b|;
    assert a == whole[..|a|] && b == whole[..|b|];
    assert x == whole[|a| + 1..] && y == whole[|b| + 1..];
  }

  lemma DecimalNoHash(n: nat)
    ensures NoHash(Decimal(n))
  {
  }

  /** The joined string determines both endpoints. */
  lemma JoinInjective(a: Endpoint, b: Endpoint, c: Endpoint, d: Endpoint)
    requires NoHash(a.address) && NoHash(b.address) && NoHash(c.address) && NoHash(d.address)
    requires Join(a, b) == Join(c, d)
    ensures a.address == c.address && a.port == c.port && b.address == d.address && b.port == d.port
  {
    hide Decimal;
    var pa, pb, pc, pd := Decimal(a.port), Decimal(b.port), Decimal(c.port), Decimal(d.port);
    DecimalNoHash(a.port);
    DecimalNoHash(c.port);
    assert Join(a, b) == a.address + "#" + (pa + "#" + (b.address + "#" + pb));
    assert Join(c, d) == c.address + "#" + (pc + "#" + (d.address + "#" + pd));
    FirstField(a.address, c.address, pa + "#" + (b.address + "#" + pb), pc + "#" + (d.address + "#" + pd));
    FirstField(pa, pc, b.address + "#" + pb, d.address + "#" + pd);
    FirstField(b.address, d.address, pb, pd);
    DecimalInjective(a.port, c.port);
    DecimalInjective(b.port, d.port);
  }

  predicate SamePoint(a: Endpoint, b: Endpoint) {
    a.address == b.address && a.port == b.port
  }

  /** Two packets share a key exactly when they run between the same two endpoints, in either direction. */
  lemma KeyIdentifiesFlow(a: Endpoint, b: Endpoint, c: Endpoint, d: Endpoint)
    requires NoHash(a.address) && NoHash(b.address) && NoHash(c.address) && NoHash(d.address)
    ensures Key(a, b) == Key(c, d)
      <==> (SamePoint(a, c) && SamePoint(b, d)) || (SamePoint(a, d) && SamePoint(b, c))
  {
    hide Join, Less;
    if Key(a, b) == Key(c, d) {
      var p, q := if First(a, b) then a else b, if First(a, b) then b else a;
      var r, s := if First(c, d) then c else d, if First(c, d) then d else c;
      JoinInjective(p, q, r, s);
    }
    if SamePoint(a, c) && SamePoint(b, d) {
      SameJoin(a, b, c, d);
    }
    if SamePoint(a, d) && SamePoint(b, c) {
      KeySymmetric(c, d);
      SameJoin(a, b, d, c);
    }
  }

  lemma SameJoin(a: Endpoint, b: Endpoint, c: Endpoint, d: Endpoint)
    requires SamePoint(a, c) && SamePoint(b, d)
    ensures Key(a, b) == Key(c, d)
  {
    hide Less, Join;
    assert First(a, b) <==> First(c, d);
    JoinOfSame(a, b, c, d);
    JoinOfSame(b, a, d, c);
  }

  lemma JoinOfSame(a: Endpoint, b: Endpoint, c: Endpoint, d: Endpoint)
    requires SamePoint(a, c) && SamePoint(b, d)
    ensures Join(a, b) == Join(c, d)
  {
    hide Decimal;
  }

  /** Ports, and the upper half of the addresses, spread flows over the workers. */
  lemma WorkersSpread(address: string, workers: nat)
    requires workers >= 2
    ensures Worker(Endpoint(address, 0, 0), Endpoint(address, 0, 0), workers) == 0
    ensures Worker(Endpoint(address, 0, 1), Endpoint(address, 0, 0), workers) == 1
    ensures Worker(Endpoint(address, 0, 0), Endpoint(address, 0, 1), workers) == 1
    ensures Worker(Endpoint(address, 0x20000, 0), Endpoint(address, 0, 0), workers) == 0x20002 % workers
    ensures Worker(Endpoint(address, 0, 0), Endpoint(address, 0x20000, 0), workers) == 0x20002 % workers
  {
  }
}
