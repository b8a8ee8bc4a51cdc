/** Which nodes of the finished API map are leaves. */
module ApiMapLeaves {
  import opened ApiMap

  /** The node at exactly this path is marked as a leaf; false when there is none. */
  predicate LeafAt(node: Node, path: seq<string>)
    decreases |path|
  {
    if path == [] then node.isLeaf
    else
      var i := ChildIndex(node.children, path[0]);
      i < |node.children| && LeafAt(node.children[i], path[1..])
  }

  predicate ChildlessAt(node: Node, path: seq<string>)
    decreases |path|
  {
    if path == [] then node.children == []
    else
      var i := ChildIndex(node.children, path[0]);
      i < |node.children| && ChildlessAt(node.children[i], path[1..])
  }

  lemma LeafOfChild(node: Node, path: seq<string>)
    requires path != []
    ensures LeafAt(node, path) == LeafAt(ChildOr(node.children, path[0]), path[1..])
    ensures !LeafAt(NewNode(path[0]), path[1..])
  {
  }

  /** An insertion marks the node of its own path, and unmarks those on the way. */
  lemma {:induction false} InsertLeaf(node: Node, parts: seq<string>, methods: Methods, path: seq<string>)
    requires parts != []
    ensures LeafAt(Insert(node, parts, methods), path) ==
      (path == parts || (LeafAt(node, path) && !(path != [] && path < parts)))
    decreases |parts|
  {
    hide PutChild, Names, Total;
    if path == [] {
    } else {
      var child := ChildOr(node.children, parts[0]);
      PutFinds(node.children, Grow(child, parts, methods), path[0]);
      if path[0] == parts[0] {
        assert path == [path[0]] + path[1..] && parts == [parts[0]] + parts[1..];
        PrefixTail(path, parts);
        LeafOfChild(node, path);
        if |parts| == 1 {
          assert parts[1..] == [];
          SettleLeaf(child, methods, path[1..]);
        } else {
          DemoteLeaf(child, path[1..]);
          InsertLeaf(Demote(child), parts[1..], methods, path[1..]);
        }
      }
    }
  }

  lemma SettleLeaf(node: Node, methods: Methods, path: seq<string>)
    ensures LeafAt(Settle(node, methods), path) == (path == [] || LeafAt(node, path))
  {
  }

  lemma DemoteLeaf(node: Node, path: seq<string>)
    ensures LeafAt(Demote(node), path) == (path != [] && LeafAt(node, path))
  {
  }

  lemma PlaceLeaf(root: Node, e: Entry, path: seq<string>)
    ensures LeafAt(Place(root, e), path) ==
      ((Effective(e) && path == Parts(e)) || (LeafAt(root, path) && !(path != [] && path < Parts(e))))
  {
    hide Insert, SplitPath, Settle, LeafAt;
    var parts := SplitPath(e.path);
    if e.path == "/" {
      SettleLeaf(root, e.methods, path);
    } else if parts == [] {
      InsertNothing(root, e.methods);
    } else {
      InsertLeaf(root, parts, e.methods, path);
    }
  }

  /** While no entry goes on from a path, its node is a leaf once an entry has been placed there. */
  lemma {:induction false} BuildLeaf(host: string, entries: seq<Entry>, path: seq<string>)
    requires path == [] || forall e :: e in entries ==> !(path < Parts(e))
    ensures LeafAt(Build(host, entries), path) <==> exists e :: e in entries && Effective(e) && Parts(e) == path
  {
    hide Place, Parts, Effective, LeafAt;
    if entries == [] {
      NewLeaf(host, path);
    } else {
      var before, e := entries[..|entries| - 1], entries[|entries| - 1];
      assert entries == before + [e];
      BuildLeaf(host, before, path);
      PlaceLeaf(Build(host, before), e, path);
    }
  }

  lemma NewLeaf(name: string, path: seq<string>)
    ensures !LeafAt(NewNode(name), path)
  {
  }

  // ---- Aggregation ----

  lemma AggregateMarks(node: Node)
    ensures Aggregate(node).isLeaf == (node.isLeaf && node.children == [])
    ensures Aggregate(node).children == AggregateAll(node.children)
  {
  }

  /** The pass unmarks the nodes that have children. */
  lemma {:induction false} AggregateLeaf(node: Node, path: seq<string>)
    ensures LeafAt(Aggregate(node), path) <==> LeafAt(node, path) && ChildlessAt(node, path)
    decreases |path|
  {
    hide Aggregate, AggregateAll;
    AggregateMarks(node);
    if path == [] {
    } else {
      var i := ChildIndex(node.children, path[0]);
      SameNamesSameIndex(node.children, AggregateAll(node.children), path[0]);
      if i < |node.children| {
        AggregateAllAt(node.children, i);
        AggregateLeaf(node.children[i], path[1..]);
      }
    }
  }

  lemma FirstChild(children: seq<Node>)
    requires children != []
    ensures ChildIndex(children, children[0].name) == 0
  {
  }

  /** A node is childless exactly when no path goes on from its own. */
  lemma {:induction false} ChildlessIff(node: Node, path: seq<string>)
    ensures ChildlessAt(node, path) <==> Has(node, path) && forall name: string :: !Has(node, path + [name])
    decreases |path|
  {
    hide ChildIndex;
    if path == [] {
      if node.children != [] {
        FirstChild(node.children);
        assert Has(node, [] + [node.children[0].name]);
      }
      forall name: string | node.children == []
        ensures !Has(node, [] + [name])
      {
        NoChild(node, name);
      }
    } else {
      var i := ChildIndex(node.children, path[0]);
      assert forall name: string :: (path + [name])[1..] == path[1..] + [name] && (path + [name])[0] == path[0];
      if i < |node.children| {
        ChildlessIff(node.children[i], path[1..]);
      }
    }
  }

  lemma NoChild(node: Node, name: string)
    requires node.children == []
    ensures !Has(node, [name])
  {
  }

  /** In the finished map a node is a leaf exactly when an entry ends there and none goes on from it, whatever the order. */
  lemma LeafIff(host: string, entries: seq<Entry>, path: seq<string>)
    ensures LeafAt(Aggregate(Build(host, entries)), path) <==>
      (exists e :: e in entries && Effective(e) && Parts(e) == path) && forall e :: e in entries ==> !(path < Parts(e))
  {
    hide Aggregate, Build, Parts, Effective, LeafAt, ChildlessAt, Has;
    var root := Build(host, entries);
    AggregateLeaf(root, path);
    ChildlessIff(root, path);
    forall q: seq<string>
      ensures Has(root, q) <==> q == [] || exists e :: e in entries && q <= Parts(e)
    {
      MapHas(host, entries, q);
      AggregateAt(root, q);
    }
    forall e | e in entries
      ensures path < Parts(e) <==> |path| < |Parts(e)| && path + [Parts(e)[|path|]] <= Parts(e)
    {
    }
    if forall e :: e in entries ==> !(path < Parts(e)) {
      BuildLeaf(host, entries, path);
    }
  }
}
