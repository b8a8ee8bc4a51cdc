/** The tree nodes themselves: insertPath and aggregateNodeStats change them in place. */
module ApiMapNode {
  import opened ApiMap

  class APIMapNode {
    var name: string
    var count: nat
    var isLeaf: bool
    var methods: seq<string>
    var children: seq<APIMapNode>
    ghost var Repr: set<APIMapNode>

    /** This node is the root of the tree `t`; the subtrees lie apart from it and from each other. */
    ghost predicate Models(t: Node)
      reads this, Repr
      decreases Repr
    {
      && this in Repr
      && name == t.name && count == t.count && isLeaf == t.isLeaf && methods == t.methods
      && |children| == |t.children|
      && (forall i :: 0 <= i < |children| ==>
            children[i] in Repr && children[i].Repr < Repr && this !in children[i].Repr
            && children[i].Models(t.children[i]))
      && Apart(children)
    }

    static ghost predicate Apart(children: seq<APIMapNode>)
      reads set i | 0 <= i < |children| :: children[i]
    {
      forall i, j :: 0 <= i < j < |children| ==> children[i].Repr !! children[j].Repr
    }

    constructor (name: string)
      ensures fresh(Repr) && Models(NewNode(name))
    {
      this.name, count, isLeaf, methods, children := name, 0, false, [], [];
      Repr := {this};
    }

    static method Collect(methods: Methods) returns (count: nat, names: seq<string>)
      ensures count == Total(methods) && names == Names(methods)
    {
      count, names := 0, [];
      var i := 0;
      while i < |methods|
        invariant i <= |methods| && count + Total(methods[i..]) == Total(methods)
        invariant names == Names(methods)[..i]
      {
        names := names + [methods[i].0];
        count := count + methods[i].1;
        assert methods[i..][1..] == methods[i + 1..];
        i := i + 1;
      }
    }

    /** The node takes over the methods of the path that ends at it. */
    method TakeMethods(methods: Methods, ghost t: Node)
      requires Models(t)
      modifies this`count, this`isLeaf, this`methods
      ensures Models(Settle(t, methods)) && Repr == old(Repr)
    {
      isLeaf := true;
      count, this.methods := Collect(methods);
    }

    method ForgetLeaf(ghost t: Node)
      requires Models(t)
      modifies this`isLeaf, this`methods
      ensures Models(Demote(t)) && Repr == old(Repr)
    {
      if isLeaf {
        isLeaf, methods := false, [];
      }
    }

    /** The child with that name, added at the end when there is none. */
    method FindOrAddChild(name: string, ghost t: Node) returns (i: nat)
      requires Models(t)
      modifies this`children, this`Repr
      ensures fresh(Repr - old(Repr)) && i < |children| && i == ChildIndex(t.children, name)
      ensures Models(t.(children := Extended(t.children, name)))
    {
      i := 0;
      while i < |children|
        invariant i <= |children| && forall k :: 0 <= k < i ==> t.children[k].name != name
      {
        if children[i].name == name {
          FirstIndex(t.children, name, i);
          return;
        }
        i := i + 1;
      }
      FirstIndex(t.children, name, i);
      AddChild(name, t);
    }

    method AddChild(name: string, ghost t: Node)
      requires Models(t)
      modifies this`children, this`Repr
      ensures fresh(Repr - old(Repr)) && |children| == |t.children| + 1
      ensures Models(t.(children := t.children + [NewNode(name)]))
    {
      var child := new APIMapNode(name);
      children := children + [child];
      Repr := Repr + child.Repr;
    }

    method Become(parts: seq<string>, methods: Methods, ghost t: Node)
      requires Models(t) && parts != []
      modifies Repr
      ensures fresh(Repr - old(Repr)) && Models(Grow(t, parts, methods))
      decreases |parts|, 0
    {
      if |parts| == 1 {
        TakeMethods(methods, t);
      } else {
        ForgetLeaf(t);
        InsertPath(parts[1..], methods, Demote(t));
      }
    }

    method GrowChild(i: nat, parts: seq<string>, methods: Methods, ghost t: Node)
      requires Models(t) && i < |children| && parts != []
      modifies this`Repr, children[i].Repr
      ensures fresh(Repr - old(Repr))
      ensures Models(t.(children := t.children[i := Grow(t.children[i], parts, methods)]))
      decreases |parts|, 1
    {
      hide Grow;
      var child := children[i];
      child.Become(parts, methods, t.children[i]);
      assert forall k :: 0 <= k < |children| && k != i ==> children[k].Repr == old(children[k].Repr);
      assert forall k :: 0 <= k < |children| && k != i ==> children[k].Models(t.children[k]);
      assert Apart(children);
      Repr := Repr + child.Repr;
    }

    method InsertPath(parts: seq<string>, methods: Methods, ghost t: Node)
      requires Models(t)
      modifies Repr
      ensures fresh(Repr - old(Repr)) && Models(Insert(t, parts, methods))
      decreases |parts|, 2
    {
      if |parts| == 0 {
        return;
      }
      var i := FindOrAddChild(parts[0], t);
      ghost var t1 := t.(children := Extended(t.children, parts[0]));
      GrowChild(i, parts, methods, t1);
      PutIsUpdate(t.children, Grow(ChildOr(t.children, parts[0]), parts, methods));
    }

    method AggregateChild(i: nat, ghost t: Node)
      requires Models(t) && i < |children|
      modifies children[i].Repr
      ensures Models(t.(children := t.children[i := Aggregate(t.children[i])])) && Repr == old(Repr)
      decreases Repr, 0
    {
      hide Aggregate;
      children[i].AggregateNodeStats(t.children[i]);
    }

    /** One child's methods and count join the node's own. */
    method GatherChild(i: nat, ghost t: Node)
      requires Models(t) && i < |children|
      modifies this`count, this`methods
      ensures Repr == old(Repr)
      ensures Models(t.(count := t.count + t.children[i].count, methods := Union(t.methods, t.children[i].methods)))
    {
      var child := children[i];
      methods := Merge(methods, child.methods);
      count := count + child.count;
    }

    static method Merge(a: seq<string>, b: seq<string>) returns (r: seq<string>)
      ensures r == Union(a, b)
    {
      r := a;
      var i := 0;
      while i < |b|
        invariant i <= |b| && Union(r, b[i..]) == Union(a, b)
      {
        assert b[i..][1..] == b[i + 1..];
        if b[i] !in r {
          r := r + [b[i]];
        }
        i := i + 1;
      }
    }

    lemma Inside(t: Node)
      requires Models(t)
      ensures this in Repr && |children| == |t.children|
      ensures forall i :: 0 <= i < |children| ==> children[i].Repr <= Repr
    {
    }

    /** The bottom-up pass over this node's subtree. */
    method AggregateNodeStats(ghost t: Node)
      requires Models(t)
      modifies Repr
      ensures Models(Aggregate(t)) && Repr == old(Repr)
      decreases Repr, 2
    {
      hide Models, Gather, Aggregate, AggregateAll;
      AggregateChildren(t);
      ghost var half := t.(children := AggregateAll(t.children));
      Inside(half);
      GatherAll(half);
      AggregateIsGather(t);
    }

    /** The pass over each child's subtree, in order. */
    method AggregateChildren(ghost t: Node)
      requires Models(t)
      modifies Repr
      ensures Models(t.(children := AggregateAll(t.children))) && Repr == old(Repr)
      decreases Repr, 1
    {
      hide Models, Aggregate, AggregateAll;
      ghost var all := AggregateAll(t.children);
      Inside(t);
      assert HalfDone(t, 0) == t by { HalfEnds(t); }
      var i, n := 0, |children|;
      while i < n
        invariant i <= n == |t.children| && Repr == old(Repr)
        invariant Models(HalfDone(t, i))
      {
        Inside(HalfDone(t, i));
        HalfNext(t, i);
        AggregateChild(i, HalfDone(t, i));
        i := i + 1;
      }
      HalfEnds(t);
    }

    method GatherAll(ghost t: Node)
      requires Models(t)
      modifies this`count, this`methods, this`isLeaf
      ensures Repr == old(Repr)
      ensures Models(Gather(t.(isLeaf := t.isLeaf && t.children == []), t.children))
    {
      hide Gather, Union;
      if |children| > 0 {
        isLeaf := false;
      }
      ghost var t0 := t.(isLeaf := t.isLeaf && t.children == []);
      ghost var now := t0;
      var i := 0;
      while i < |children|
        invariant i <= |children| == |t.children| && Repr == old(Repr) && now.children == t.children
        invariant Models(now) && Gather(now, t.children[i..]) == Gather(t0, t.children)
      {
        GatherChild(i, now);
        GatherFirst(now, t.children[i..]);
        assert t.children[i..][1..] == t.children[i + 1..];
        now := now.(count := now.count + now.children[i].count, methods := Union(now.methods, now.children[i].methods));
        i := i + 1;
      }
      GatherNone(now);
      assert t.children[i..] == [];
    }
  }

  /** One path, placed at the root or below it. */
  method PlaceEntry(root: APIMapNode, e: Entry, ghost tree: Node)
    requires root.Models(tree)
    modifies root.Repr
    ensures root.Models(Place(tree, e)) && fresh(root.Repr - old(root.Repr))
  {
    hide Insert, SplitPath, Settle;
    if e.path == "/" {
      root.Inside(tree);
      root.TakeMethods(e.methods, tree);
    } else {
      root.InsertPath(SplitPath(e.path), e.methods, tree);
    }
  }

  /** The whole map: every path placed in turn, then one pass from the leaves up. */
  method GetApiMap(host: string, entries: seq<Entry>) returns (root: APIMapNode)
    ensures root.Models(Aggregate(Build(host, entries)))
  {
    hide Place, Aggregate;
    root := new APIMapNode(host);
    var i := 0;
    while i < |entries|
      invariant i <= |entries| && fresh(root.Repr) && root.Models(Build(host, entries[..i]))
    {
      assert entries[..i + 1][..i] == entries[..i];
      PlaceEntry(root, entries[i], Build(host, entries[..i]));
      i := i + 1;
    }
    assert entries[..i] == entries;
    root.AggregateNodeStats(Build(host, entries));
  }

  /** The node with its first `i` subtrees aggregated. */
  ghost function HalfDone(t: Node, i: nat): Node
    requires i <= |t.children|
  {
    t.(children := AggregateAll(t.children)[..i] + t.children[i..])
  }

  lemma HalfEnds(t: Node)
    ensures HalfDone(t, 0) == t && HalfDone(t, |t.children|) == t.(children := AggregateAll(t.children))
  {
    hide AggregateAll;
    var all := AggregateAll(t.children);
    assert all[..0] + t.children[0..] == t.children && all[..|t.children|] + t.children[|t.children|..] == all;
  }

  lemma HalfNext(t: Node, i: nat)
    requires i < |t.children|
    ensures var half := HalfDone(t, i);
      i < |half.children| && half.children[i] == t.children[i]
      && HalfDone(t, i + 1) == half.(children := half.children[i := Aggregate(half.children[i])])
  {
    hide AggregateAll, Aggregate;
    AggregateAllAt(t.children, i);
    var all := AggregateAll(t.children);
    assert (all[..i] + t.children[i..])[i := all[i]] == all[..i + 1] + t.children[i + 1..];
  }

  lemma GatherFirst(node: Node, children: seq<Node>)
    requires children != []
    ensures Gather(node, children) ==
      Gather(node.(count := node.count + children[0].count, methods := Union(node.methods, children[0].methods)),
             children[1..])
  {
  }

  lemma GatherNone(node: Node)
    ensures Gather(node, []) == node
  {
  }

  lemma AggregateIsGather(t: Node)
    ensures var all := AggregateAll(t.children);
      Aggregate(t) == Gather(t.(children := all, isLeaf := t.isLeaf && all == []), all)
  {
  }

  function Extended(children: seq<Node>, name: string): seq<Node> {
    if ChildIndex(children, name) < |children| then children else children + [NewNode(name)]
  }

  lemma FirstIndex(children: seq<Node>, name: string, i: nat)
    requires i <= |children| && forall k :: 0 <= k < i ==> children[k].name != name
    requires i < |children| ==> children[i].name == name
    ensures ChildIndex(children, name) == i
  {
  }

  lemma PutIsUpdate(children: seq<Node>, child: Node)
    ensures PutChild(children, child) == Extended(children, child.name)[ChildIndex(children, child.name) := child]
  {
  }
}
