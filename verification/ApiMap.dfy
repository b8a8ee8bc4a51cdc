/** The API map of internal/store/store.go: a tree of path segments with counts aggregated bottom-up. */
module ApiMap {

  /** What the database holds for one path: each method with its request count, in iteration order. */
  type Methods = seq<(string, nat)>

  datatype Node = Node(name: string, count: nat, isLeaf: bool, methods: seq<string>, children: seq<Node>)

  function Total(methods: Methods): nat {
    if methods == [] then 0 else methods[0].1 + Total(methods[1..])
  }

  function Names(methods: Methods): seq<string> {
    seq(|methods|, i requires 0 <= i < |methods| => methods[i].0)
  }

  /** A total adds up the counts. */
  lemma {:induction false} TotalAdds(a: Methods, b: Methods, name: string, n: nat)
    ensures Total(a + b) == Total(a) + Total(b) && Total([(name, n)]) == n && Total([]) == 0
    decreases |a|
  {
    assert [(name, n)][1..] == [];
    if a == [] {
      assert a + b == b;
    } else {
      TotalAdds(a[1..], b, name, n);
      assert (a + b)[1..] == a[1..] + b;
    }
  }

  function NewNode(name: string): Node {
    Node(name, 0, false, [], [])
  }

  // ---- Building ----

  /** The position of the first child with that name; the number of children when there is none. */
  function ChildIndex(children: seq<Node>, name: string): (i: nat)
    ensures i <= |children|
    ensures i < |children| ==> children[i].name == name
    ensures forall k :: 0 <= k < i ==> children[k].name != name
  {
    if children == [] then 0
    else if children[0].name == name then 0
    else 1 + ChildIndex(children[1..], name)
  }

  function ChildOr(children: seq<Node>, name: string): Node {
    var i := ChildIndex(children, name);
    if i < |children| then children[i] else NewNode(name)
  }

  function PutChild(children: seq<Node>, child: Node): seq<Node> {
    var i := ChildIndex(children, child.name);
    if i < |children| then children[i := child] else children + [child]
  }

  /** The node that ends a path takes over the methods of that path. */
  function Settle(node: Node, methods: Methods): Node {
    node.(isLeaf := true, count := Total(methods), methods := Names(methods))
  }

  /** A leaf that turns out to lie on the way loses its methods, but not its count. */
  function Demote(node: Node): Node {
    if node.isLeaf then node.(isLeaf := false, methods := []) else node
  }

  function Insert(node: Node, parts: seq<string>, methods: Methods): (r: Node)
    ensures r.name == node.name
    decreases |parts|, 1
  {
    if parts == [] then node
    else node.(children := PutChild(node.children, Grow(ChildOr(node.children, parts[0]), parts, methods)))
  }

  /** What becomes of the child that the first segment names. */
  function Grow(child: Node, parts: seq<string>, methods: Methods): (r: Node)
    requires parts != []
    ensures r.name == child.name
    decreases |parts|, 0
  {
    if |parts| == 1 then Settle(child, methods) else Insert(Demote(child), parts[1..], methods)
  }

  // ---- Aggregation ----

  function Union(a: seq<string>, b: seq<string>): seq<string>
    decreases |b|
  {
    if b == [] then a else Union(if b[0] in a then a else a + [b[0]], b[1..])
  }

  function Aggregate(node: Node): (r: Node)
    ensures r.name == node.name
    decreases node
  {
    var children := AggregateAll(node.children);
    Gather(node.(children := children, isLeaf := node.isLeaf && children == []), children)
  }

  function AggregateAll(children: seq<Node>): (r: seq<Node>)
    ensures |r| == |children| && forall i :: 0 <= i < |r| ==> r[i].name == children[i].name
    decreases children, 0
  {
    if children == [] then [] else [Aggregate(children[0])] + AggregateAll(children[1..])
  }

  function Gather(node: Node, children: seq<Node>): (r: Node)
    ensures r.name == node.name && r.children == node.children && r.isLeaf == node.isLeaf
    decreases |children|
  {
    if children == [] then node
    else
      Gather(node.(count := node.count + children[0].count, methods := Union(node.methods, children[0].methods)),
             children[1..])
  }

  // ---- What a tree says about a path ----

  /** The count stored for exactly this path before aggregation; 0 when it has no node. */
  function Own(node: Node, path: seq<string>): nat
    decreases |path|
  {
    if path == [] then node.count
    else
      var i := ChildIndex(node.children, path[0]);
      if i < |node.children| then Own(node.children[i], path[1..]) else 0
  }

  /** The sum of all counts in the subtree. */
  function Weight(node: Node): nat
    decreases node
  {
    node.count + WeightAll(node.children)
  }

  function WeightAll(children: seq<Node>): nat
    decreases children, 0
  {
    if children == [] then 0 else Weight(children[0]) + WeightAll(children[1..])
  }

  function WeightAt(node: Node, path: seq<string>): nat
    decreases |path|
  {
    if path == [] then Weight(node)
    else
      var i := ChildIndex(node.children, path[0]);
      if i < |node.children| then WeightAt(node.children[i], path[1..]) else 0
  }

  predicate Has(node: Node, path: seq<string>)
    decreases |path|
  {
    path == [] ||
    var i := ChildIndex(node.children, path[0]);
    i < |node.children| && Has(node.children[i], path[1..])
  }

  /** No two siblings share a name, anywhere in the tree. */
  predicate Unique(node: Node)
    decreases node
  {
    && (forall i, j :: 0 <= i < j < |node.children| ==> node.children[i].name != node.children[j].name)
    && forall i :: 0 <= i < |node.children| ==> Unique(node.children[i])
  }

  // ---- One insertion ----

  lemma PutFinds(children: seq<Node>, child: Node, name: string)
    ensures var put := PutChild(children, child);
      && ChildIndex(put, child.name) < |put| && put[ChildIndex(put, child.name)] == child
      && (name != child.name ==>
        && (ChildIndex(put, name) < |put| <==> ChildIndex(children, name) < |children|)
        && (ChildIndex(children, name) < |children| ==>
              put[ChildIndex(put, name)] == children[ChildIndex(children, name)]))
  {
    var put := PutChild(children, child);
    var at, i, j := ChildIndex(children, child.name), ChildIndex(children, name), ChildIndex(put, name);
    assert put[at] == child;
    if name != child.name {
      if i < |children| {
        assert put[i].name == name;
      }
      if j < |put| {
        assert j != at && put[j] == children[j];
      }
    }
  }

  /** Inserting sets the count of its own path and changes no other. */
  lemma {:induction false} InsertOwn(node: Node, parts: seq<string>, methods: Methods, path: seq<string>)
    requires parts != []
    ensures Own(Insert(node, parts, methods), path) == if path == parts then Total(methods) else Own(node, path)
    decreases |parts|, 1
  {
    hide Grow, PutChild, Settle, Demote;
    if path == [] {
    } else {
      var child := ChildOr(node.children, parts[0]);
      PutFinds(node.children, Grow(child, parts, methods), path[0]);
      if path[0] == parts[0] {
        assert path == [path[0]] + path[1..] && parts == [parts[0]] + parts[1..];
        GrowOwn(child, parts, methods, path[1..]);
        OwnOfChild(node, parts[0], path[1..]);
      }
    }
  }

  lemma {:induction false} GrowOwn(child: Node, parts: seq<string>, methods: Methods, path: seq<string>)
    requires parts != []
    ensures Own(Grow(child, parts, methods), path) == if path == parts[1..] then Total(methods) else Own(child, path)
    decreases |parts|, 0
  {
    hide Insert;
    if |parts| > 1 {
      InsertOwn(Demote(child), parts[1..], methods, path);
      DemoteOwn(child, path);
    } else if path != [] {
      SettleOwn(child, methods, path);
    }
  }

  lemma OwnOfChild(node: Node, name: string, rest: seq<string>)
    ensures Own(node, [name] + rest) == Own(ChildOr(node.children, name), rest)
    ensures ChildIndex(node.children, name) == |node.children| ==> Own(NewNode(name), rest) == 0
  {
    assert ([name] + rest)[1..] == rest;
  }

  lemma DemoteOwn(node: Node, path: seq<string>)
    ensures Own(Demote(node), path) == Own(node, path)
  {
  }

  lemma SettleOwn(node: Node, methods: Methods, path: seq<string>)
    requires path != []
    ensures Own(Settle(node, methods), path) == Own(node, path)
  {
  }

  lemma {:induction false} WeightPut(children: seq<Node>, child: Node)
    ensures WeightAll(PutChild(children, child)) + (if ChildIndex(children, child.name) < |children|
        then Weight(ChildOr(children, child.name)) else 0)
      == WeightAll(children) + Weight(child)
    decreases |children|
  {
    if children == [] {
    } else if children[0].name == child.name {
      assert PutChild(children, child) == [child] + children[1..];
    } else {
      WeightPut(children[1..], child);
      assert PutChild(children, child) == [children[0]] + PutChild(children[1..], child);
    }
  }

  lemma PrefixTail(a: seq<string>, b: seq<string>)
    requires a != [] && b != [] && a[0] == b[0]
    ensures a <= b <==> a[1..] <= b[1..]
  {
    assert a == [a[0]] + a[1..] && b == [b[0]] + b[1..];
  }

  /** Along its path an insertion replaces the old own count by the new total; elsewhere nothing changes. */
  lemma {:induction false} InsertWeight(node: Node, parts: seq<string>, methods: Methods, path: seq<string>)
    requires parts != []
    ensures WeightAt(Insert(node, parts, methods), path) + (if path <= parts then Own(node, parts) else 0)
      == WeightAt(node, path) + (if path <= parts then Total(methods) else 0)
    decreases |parts|, 1
  {
    hide Grow, PutChild, Total;
    var child := ChildOr(node.children, parts[0]);
    OwnOfChild(node, parts[0], parts[1..]);
    assert [parts[0]] + parts[1..] == parts;
    if path == [] {
      GrowWeight(child, parts, methods, []);
      assert [] <= parts[1..] && [] <= parts && Weight(NewNode(parts[0])) == 0;
      WeightPut(node.children, Grow(child, parts, methods));
    } else {
      PutFinds(node.children, Grow(child, parts, methods), path[0]);
      if path[0] == parts[0] {
        PrefixTail(path, parts);
        NewNodeEmpty(parts[0], path[1..]);
        GrowWeight(child, parts, methods, path[1..]);
      }
    }
  }

  lemma {:induction false} GrowWeight(child: Node, parts: seq<string>, methods: Methods, path: seq<string>)
    requires parts != []
    ensures WeightAt(Grow(child, parts, methods), path) + (if path <= parts[1..] then Own(child, parts[1..]) else 0)
      == WeightAt(child, path) + (if path <= parts[1..] then Total(methods) else 0)
    decreases |parts|, 0
  {
    hide Insert, Total;
    if |parts| == 1 {
      assert parts[1..] == [];
    } else {
      InsertWeight(Demote(child), parts[1..], methods, path);
      DemoteOwn(child, parts[1..]);
      assert WeightAt(Demote(child), path) == WeightAt(child, path);
    }
  }

  // ---- Paths ----

  function TrimSlashes(path: string): string {
    if path != [] && path[0] == '/' then TrimSlashes(path[1..])
    else if path != [] && path[|path| - 1] == '/' then TrimSlashes(path[..|path| - 1])
    else path
  }

  function SplitSlashes(path: string): (parts: seq<string>)
    ensures parts != []
  {
    if path == [] then [[]]
    else
      var later := SplitSlashes(path[1..]);
      if path[0] == '/' then [[]] + later else [[path[0]] + later[0]] + later[1..]
  }

  function SplitPath(path: string): seq<string> {
    var trimmed := TrimSlashes(path);
    if trimmed == [] then [] else SplitSlashes(trimmed)
  }

  function JoinSlashes(parts: seq<string>): string {
    if parts == [] then [] else if |parts| == 1 then parts[0] else parts[0] + ['/'] + JoinSlashes(parts[1..])
  }

  lemma {:induction false} SplitJoins(path: string)
    ensures JoinSlashes(SplitSlashes(path)) == path
  {
    if path == [] {
    } else {
      var later := SplitSlashes(path[1..]);
      SplitJoins(path[1..]);
      if path[0] == '/' {
        assert ([[]] + later)[1..] == later;
      } else {
        assert ([[path[0]] + later[0]] + later[1..])[1..] == later[1..];
      }
    }
  }

  /** Two paths become the same list of segments exactly when they differ only in slashes at their ends. */
  lemma SplitPathSame(a: string, b: string)
    ensures SplitPath(a) == SplitPath(b) <==> TrimSlashes(a) == TrimSlashes(b)
  {
    SplitJoins(TrimSlashes(a));
    SplitJoins(TrimSlashes(b));
  }

  // ---- The whole map ----

  datatype Entry = Entry(path: string, methods: Methods)

  function Parts(e: Entry): seq<string> {
    if e.path == "/" then [] else SplitPath(e.path)
  }

  /** The root path, or one with a segment; a path of several slashes has none and is dropped. */
  predicate Effective(e: Entry) {
    e.path == "/" || SplitPath(e.path) != []
  }

  function Place(root: Node, e: Entry): Node {
    if e.path == "/" then Settle(root, e.methods) else Insert(root, SplitPath(e.path), e.methods)
  }

  function Build(host: string, entries: seq<Entry>): Node {
    if entries == [] then NewNode(host)
    else Place(Build(host, entries[..|entries| - 1]), entries[|entries| - 1])
  }

  /** The sum over all entries whose path has `path` as a prefix. */
  function SumAt(entries: seq<Entry>, path: seq<string>): nat {
    if entries == [] then 0
    else
      var e := entries[|entries| - 1];
      SumAt(entries[..|entries| - 1], path) + if path <= Parts(e) then Total(e.methods) else 0
  }

  /** The total of the last entry placed at exactly these segments. */
  function LastTotal(entries: seq<Entry>, parts: seq<string>): nat {
    if entries == [] then 0
    else
      var e := entries[|entries| - 1];
      if Effective(e) && Parts(e) == parts then Total(e.methods) else LastTotal(entries[..|entries| - 1], parts)
  }

  /** What dropped entries, and entries overwritten by a later one with the same segments, would have added. */
  function LostAt(entries: seq<Entry>, path: seq<string>): nat {
    if entries == [] then 0
    else
      var before, e := entries[..|entries| - 1], entries[|entries| - 1];
      LostAt(before, path) +
      if !(path <= Parts(e)) then 0
      else if Effective(e) then LastTotal(before, Parts(e))
      else Total(e.methods)
  }

  lemma PlaceChanges(root: Node, e: Entry, path: seq<string>)
    ensures Own(Place(root, e), path) == if Effective(e) && path == Parts(e) then Total(e.methods) else Own(root, path)
    ensures Effective(e) ==>
      WeightAt(Place(root, e), path) + (if path <= Parts(e) then Own(root, Parts(e)) else 0)
      == WeightAt(root, path) + (if path <= Parts(e) then Total(e.methods) else 0)
    ensures !Effective(e) ==> Place(root, e) == root && Parts(e) == []
  {
    hide Insert, Total, SplitPath;
    if e.path == "/" {
      if path != [] {
        SettleOwn(root, e.methods, path);
      }
    } else if Effective(e) {
      InsertOwn(root, SplitPath(e.path), e.methods, path);
      InsertWeight(root, SplitPath(e.path), e.methods, path);
    } else {
      assert Insert(root, [], e.methods) == root by { InsertNothing(root, e.methods); }
    }
  }

  lemma InsertNothing(root: Node, methods: Methods)
    ensures Insert(root, [], methods) == root
  {
  }

  /** Before aggregation: every node holds what was last placed there, and what is not lost is there. */
  lemma {:induction false} BuildHolds(host: string, entries: seq<Entry>, path: seq<string>)
    ensures Own(Build(host, entries), path) == LastTotal(entries, path)
    ensures WeightAt(Build(host, entries), path) + LostAt(entries, path) == SumAt(entries, path)
    decreases |entries|
  {
    hide Place, Own, WeightAt, Parts, Effective, Total;
    if entries == [] {
      NewNodeEmpty(host, path);
    } else {
      var before, e := entries[..|entries| - 1], entries[|entries| - 1];
      BuildHolds(host, before, path);
      BuildHolds(host, before, Parts(e));
      PlaceChanges(Build(host, before), e, path);
    }
  }

  lemma NewNodeEmpty(name: string, path: seq<string>)
    ensures Own(NewNode(name), path) == 0 && WeightAt(NewNode(name), path) == 0
  {
    assert WeightAll([]) == 0;
  }

  // ---- Aggregation ----

  lemma {:induction false} GatherCount(node: Node, children: seq<Node>)
    ensures Gather(node, children).count == node.count + CountAll(children)
    decreases |children|
  {
    if children == [] {
    } else {
      GatherCount(node.(count := node.count + children[0].count, methods := Union(node.methods, children[0].methods)),
                  children[1..]);
    }
  }

  function CountAll(children: seq<Node>): nat {
    if children == [] then 0 else children[0].count + CountAll(children[1..])
  }

  /** The bottom-up pass gives each node the weight of its subtree. */
  lemma {:induction false} AggregateWeight(node: Node)
    ensures Aggregate(node).count == Weight(node)
    ensures Aggregate(node).children == AggregateAll(node.children)
    decreases node
  {
    var children := AggregateAll(node.children);
    AggregateWeights(node.children);
    GatherCount(node.(children := children, isLeaf := node.isLeaf && children == []), children);
  }

  lemma {:induction false} AggregateWeights(children: seq<Node>)
    ensures CountAll(AggregateAll(children)) == WeightAll(children)
    decreases children, 0
  {
    if children == [] {
    } else {
      AggregateWeight(children[0]);
      AggregateWeights(children[1..]);
      assert AggregateAll(children)[1..] == AggregateAll(children[1..]);
    }
  }

  lemma {:induction false} AggregateAllAt(children: seq<Node>, i: nat)
    requires i < |children|
    ensures AggregateAll(children)[i] == Aggregate(children[i])
    decreases i
  {
    if i == 0 {
    } else {
      AggregateAllAt(children[1..], i - 1);
    }
  }

  lemma SameNamesSameIndex(a: seq<Node>, b: seq<Node>, name: string)
    requires |a| == |b| && forall i :: 0 <= i < |a| ==> a[i].name == b[i].name
    ensures ChildIndex(a, name) == ChildIndex(b, name)
  {
    var i, j := ChildIndex(a, name), ChildIndex(b, name);
    assert i < |a| ==> b[i].name == name;
    assert j < |b| ==> a[j].name == name;
  }

  lemma {:induction false} AggregateAt(node: Node, path: seq<string>)
    ensures Own(Aggregate(node), path) == WeightAt(node, path)
    ensures Has(Aggregate(node), path) <==> Has(node, path)
    decreases |path|
  {
    hide Aggregate, AggregateAll, Weight;
    AggregateWeight(node);
    if path == [] {
    } else {
      var i := ChildIndex(node.children, path[0]);
      SameNamesSameIndex(node.children, AggregateAll(node.children), path[0]);
      if i < |node.children| {
        AggregateAllAt(node.children, i);
        AggregateAt(node.children[i], path[1..]);
      }
    }
  }

  // ---- Main results ----

  /** Every node's final count, plus what is lost, is the sum over all entries below it: for all entries, in any order. */
  lemma CountIsSum(host: string, entries: seq<Entry>, path: seq<string>)
    ensures Own(Aggregate(Build(host, entries)), path) + LostAt(entries, path) == SumAt(entries, path)
  {
    hide Aggregate, Build;
    AggregateAt(Build(host, entries), path);
    BuildHolds(host, entries, path);
  }

  /** An entry counts in full: it has segments or is the root, and no later entry replaces it. */
  predicate Stands(entries: seq<Entry>, i: nat)
    requires i < |entries|
  {
    Effective(entries[i]) &&
    forall j :: i < j < |entries| && Effective(entries[j]) ==> Parts(entries[j]) != Parts(entries[i])
  }

  lemma {:induction false} LastTotalFrom(entries: seq<Entry>, parts: seq<string>)
    ensures LastTotal(entries, parts) > 0 <==>
      exists i :: 0 <= i < |entries| && Stands(entries, i) && Parts(entries[i]) == parts && Total(entries[i].methods) > 0
  {
    hide Effective, Parts, Total;
    if entries == [] {
    } else {
      var n := |entries| - 1;
      var before := entries[..n];
      LastTotalFrom(before, parts);
      if Effective(entries[n]) && Parts(entries[n]) == parts {
        assert Stands(entries, n);
      } else {
        if LastTotal(before, parts) > 0 {
          var i :| 0 <= i < n && Stands(before, i) && Parts(before[i]) == parts && Total(before[i].methods) > 0;
          assert Stands(entries, i);
        }
        if i :| 0 <= i < |entries| && Stands(entries, i) && Parts(entries[i]) == parts && Total(entries[i].methods) > 0 {
          assert i < n && before[i] == entries[i];
          assert forall j :: i < j < n ==> before[j] == entries[j];
          assert Stands(before, i);
        }
      }
    }
  }

  /** No count is lost exactly when every entry with requests stands. */
  lemma {:induction false} NothingLostIff(entries: seq<Entry>)
    ensures LostAt(entries, []) == 0 <==>
      forall i :: 0 <= i < |entries| && Total(entries[i].methods) > 0 ==> Stands(entries, i)
  {
    hide Effective, Parts, Total;
    if entries == [] {
    } else {
      var n := |entries| - 1;
      var before, e := entries[..n], entries[n];
      NothingLostIff(before);
      LastTotalFrom(before, Parts(e));
      hide Stands;
      forall i | 0 <= i <= n
        ensures i < n ==> before[i] == entries[i]
        ensures Stands(entries, i) <==>
          if i == n then Effective(e) else Stands(before, i) && !(Effective(e) && Parts(e) == Parts(before[i]))
      {
        StandsOneMore(entries, i);
      }
    }
  }

  lemma StandsOneMore(entries: seq<Entry>, i: nat)
    requires i < |entries|
    ensures var n := |entries| - 1;
      var e := entries[n];
      && (i < n ==> entries[..n][i] == entries[i])
      && (Stands(entries, i) <==>
            if i == n then Effective(e)
            else Stands(entries[..n], i) && !(Effective(e) && Parts(e) == Parts(entries[i])))
  {
    hide Effective, Parts;
    assert forall j :: 0 <= j < |entries| - 1 ==> entries[..|entries| - 1][j] == entries[j];
  }

  /** Distinct paths that differ in more than outer slashes, none of them only slashes but the root. */
  predicate DistinctPaths(entries: seq<Entry>) {
    && (forall e :: e in entries ==> Effective(e))
    && forall i, j :: 0 <= i < j < |entries| ==> Parts(entries[i]) != Parts(entries[j])
  }

  lemma {:induction false} DistinctLosesNothing(entries: seq<Entry>, path: seq<string>)
    requires DistinctPaths(entries)
    ensures LostAt(entries, path) == 0
  {
    hide Effective, Parts, Total;
    if entries == [] {
    } else {
      var n := |entries| - 1;
      var before, e := entries[..n], entries[n];
      assert e in entries && forall x :: x in before ==> x in entries;
      DistinctLosesNothing(before, path);
      LastTotalFrom(before, Parts(e));
    }
  }

  lemma {:induction false} SumOfParts(a: seq<Entry>, b: seq<Entry>, path: seq<string>)
    ensures SumAt(a + b, path) == SumAt(a, path) + SumAt(b, path)
    decreases |b|
  {
    if b == [] {
      assert a + b == a;
    } else {
      SumOfParts(a, b[..|b| - 1], path);
      assert (a + b)[..|a + b| - 1] == a + b[..|b| - 1];
    }
  }

  function Without(b: seq<Entry>, i: nat): (r: seq<Entry>)
    requires i < |b|
    ensures |r| == |b| - 1
  {
    b[..i] + b[i + 1..]
  }

  lemma SumWithout(b: seq<Entry>, i: nat, path: seq<string>)
    requires i < |b|
    ensures multiset(Without(b, i)) == multiset(b) - multiset{b[i]}
    ensures SumAt(b, path) == SumAt(Without(b, i), path) + SumAt([b[i]], path)
  {
    hide Total, Parts, SumAt;
    assert b == b[..i] + ([b[i]] + b[i + 1..]);
    SumOfParts(b[..i], b[i + 1..], path);
    SumOfParts(b[..i], [b[i]] + b[i + 1..], path);
    SumOfParts([b[i]], b[i + 1..], path);
  }

  lemma {:induction false} SumOfPermutation(a: seq<Entry>, b: seq<Entry>, path: seq<string>)
    requires multiset(a) == multiset(b)
    ensures SumAt(a, path) == SumAt(b, path)
    decreases |a|
  {
    hide SumAt, Without;
    if a == [] {
      assert |multiset(b)| == 0;
    } else {
      assert a[0] in multiset(b);
      var i :| 0 <= i < |b| && b[i] == a[0];
      SumWithout(a, 0, path);
      SumWithout(b, i, path);
      SumOfPermutation(Without(a, 0), Without(b, i), path);
    }
  }

  /** On distinct paths every node's final count is the sum below it, whatever the order of insertion. */
  lemma CountsIgnoreOrder(host: string, a: seq<Entry>, b: seq<Entry>, path: seq<string>)
    requires multiset(a) == multiset(b) && DistinctPaths(a) && DistinctPaths(b)
    ensures Own(Aggregate(Build(host, a)), path) == SumAt(a, path) == Own(Aggregate(Build(host, b)), path)
  {
    hide Aggregate, Build, DistinctPaths;
    CountIsSum(host, a, path);
    CountIsSum(host, b, path);
    DistinctLosesNothing(a, path);
    DistinctLosesNothing(b, path);
    SumOfPermutation(a, b, path);
  }

  // ---- Shape ----

  lemma {:induction false} InsertUnique(node: Node, parts: seq<string>, methods: Methods)
    requires Unique(node)
    ensures Unique(Insert(node, parts, methods))
    decreases |parts|
  {
    if parts == [] {
    } else {
      var child := ChildOr(node.children, parts[0]);
      ChildUnique(node, parts[0], methods);
      if |parts| > 1 {
        InsertUnique(Demote(child), parts[1..], methods);
      }
      assert Unique(Grow(child, parts, methods)) by { hide Settle, Demote, Insert, Unique; }
      hide Settle, Demote, Grow, ChildOr;
      PutUnique(node, Grow(child, parts, methods));
    }
  }

  lemma ChildUnique(node: Node, name: string, methods: Methods)
    requires Unique(node)
    ensures var child := ChildOr(node.children, name);
      child.name == name && Unique(child) && Unique(Demote(child)) && Unique(Settle(child, methods))
  {
    assert Unique(NewNode(name));
  }

  lemma PutUnique(node: Node, child: Node)
    requires Unique(node) && Unique(child)
    ensures Unique(node.(children := PutChild(node.children, child)))
  {
  }

  lemma {:induction false} AggregateUnique(node: Node)
    requires Unique(node)
    ensures Unique(Aggregate(node))
    decreases node
  {
    AggregateWeight(node);
    var r := Aggregate(node);
    forall i | 0 <= i < |r.children|
      ensures Unique(r.children[i])
    {
      AggregateAllAt(node.children, i);
      AggregateUnique(node.children[i]);
    }
  }

  /** No two siblings of the finished map share a name. */
  lemma {:induction false} MapUnique(host: string, entries: seq<Entry>)
    ensures Unique(Build(host, entries)) && Unique(Aggregate(Build(host, entries)))
    decreases |entries|
  {
    if entries == [] {
    } else {
      var before, e := entries[..|entries| - 1], entries[|entries| - 1];
      MapUnique(host, before);
      InsertUnique(Build(host, before), SplitPath(e.path), e.methods);
    }
    AggregateUnique(Build(host, entries));
  }

  lemma {:induction false} InsertHas(node: Node, parts: seq<string>, methods: Methods, path: seq<string>)
    ensures Has(Insert(node, parts, methods), path) <==> Has(node, path) || path <= parts
    decreases |parts|, 1
  {
    hide Grow, PutChild;
    if parts != [] && path != [] {
      var child := ChildOr(node.children, parts[0]);
      PutFinds(node.children, Grow(child, parts, methods), path[0]);
      if path[0] == parts[0] {
        PrefixTail(path, parts);
        GrowHas(child, parts, methods, path[1..]);
      }
    }
  }

  lemma {:induction false} GrowHas(child: Node, parts: seq<string>, methods: Methods, path: seq<string>)
    requires parts != []
    ensures Has(Grow(child, parts, methods), path) <==> Has(child, path) || path <= parts[1..]
    decreases |parts|, 0
  {
    hide Insert;
    if |parts| > 1 {
      InsertHas(Demote(child), parts[1..], methods, path);
    }
  }

  lemma PlaceHas(root: Node, e: Entry, path: seq<string>)
    ensures Has(Place(root, e), path) <==> Has(root, path) || path <= Parts(e)
  {
    hide Insert, SplitPath;
    InsertHas(root, SplitPath(e.path), e.methods, path);
  }

  /** The finished map has the root and the prefixes of the entries' paths, and no other node. */
  lemma {:induction false} MapHas(host: string, entries: seq<Entry>, path: seq<string>)
    ensures Has(Aggregate(Build(host, entries)), path) <==> path == [] || exists e :: e in entries && path <= Parts(e)
    decreases |entries|
  {
    hide Place, Aggregate, Parts;
    AggregateAt(Build(host, entries), path);
    if entries == [] {
    } else {
      var before, e := entries[..|entries| - 1], entries[|entries| - 1];
      MapHas(host, before, path);
      AggregateAt(Build(host, before), path);
      PlaceHas(Build(host, before), e, path);
      assert entries == before + [e];
      hide Has, Build;
      assert forall x :: x in entries <==> x in before || x == e;
    }
  }
}
