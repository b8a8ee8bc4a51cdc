/** The methods of the API map: which entries they come from, and exactly when they depend on the order of insertion. */
module ApiMapMethods {
  import opened ApiMap

  /** The methods held for exactly this path; none when it has no node. */
  function MethodsAt(node: Node, path: seq<string>): seq<string>
    decreases |path|
  {
    if path == [] then node.methods
    else
      var i := ChildIndex(node.children, path[0]);
      if i < |node.children| then MethodsAt(node.children[i], path[1..]) else []
  }

  // ---- Before aggregation ----

  /** Only a leaf holds methods, here and below. */
  predicate Tidy(node: Node)
    decreases node
  {
    (node.isLeaf || node.methods == []) && TidyBelow(node)
  }

  predicate TidyBelow(node: Node)
    decreases node, 0
  {
    forall i :: 0 <= i < |node.children| ==> Tidy(node.children[i])
  }

  lemma TidyChild(node: Node, name: string)
    requires TidyBelow(node)
    ensures Tidy(ChildOr(node.children, name))
  {
  }

  lemma TidyPut(node: Node, child: Node)
    requires TidyBelow(node) && Tidy(child)
    ensures TidyBelow(node.(children := PutChild(node.children, child)))
  {
    hide Tidy;
  }

  lemma {:induction false} InsertTidy(node: Node, parts: seq<string>, methods: Methods)
    requires TidyBelow(node)
    ensures TidyBelow(Insert(node, parts, methods))
    ensures Insert(node, parts, methods).isLeaf == node.isLeaf && Insert(node, parts, methods).methods == node.methods
    decreases |parts|
  {
    if parts == [] {
    } else {
      var child := ChildOr(node.children, parts[0]);
      TidyChild(node, parts[0]);
      if |parts| > 1 {
        InsertTidy(Demote(child), parts[1..], methods);
      }
      TidyPut(node, Grow(child, parts, methods));
    }
  }

  /** An insertion sets the methods of its own path, and takes those of the paths on the way. */
  lemma {:induction false} InsertMethods(node: Node, parts: seq<string>, methods: Methods, path: seq<string>)
    requires parts != [] && path != [] && TidyBelow(node)
    ensures MethodsAt(Insert(node, parts, methods), path) ==
      if path == parts then Names(methods) else if path < parts then [] else MethodsAt(node, path)
    decreases |parts|
  {
    hide PutChild, Names, Total;
    var child := ChildOr(node.children, parts[0]);
    TidyChild(node, parts[0]);
    PutFinds(node.children, Grow(child, parts, methods), path[0]);
    if path[0] == parts[0] {
      assert path == [path[0]] + path[1..] && parts == [parts[0]] + parts[1..];
      PrefixTail(path, parts);
      assert MethodsAt(node, path) == MethodsAt(child, path[1..]) by { OfChild(node, path); }
      if |parts| == 1 {
        assert parts[1..] == [];
        SettleMethods(child, methods, path[1..]);
      } else if path[1..] == [] {
        InsertTidy(Demote(child), parts[1..], methods);
      } else {
        DemoteMethods(child, path[1..]);
        InsertMethods(Demote(child), parts[1..], methods, path[1..]);
      }
    }
  }

  lemma OfChild(node: Node, path: seq<string>)
    requires path != []
    ensures MethodsAt(node, path) == MethodsAt(ChildOr(node.children, path[0]), path[1..])
  {
  }

  lemma SettleMethods(node: Node, methods: Methods, path: seq<string>)
    ensures MethodsAt(Settle(node, methods), path) == if path == [] then Names(methods) else MethodsAt(node, path)
  {
  }

  lemma DemoteMethods(node: Node, path: seq<string>)
    requires path != []
    ensures MethodsAt(Demote(node), path) == MethodsAt(node, path)
  {
  }

  /** What the last entry that touched exactly this path has left there. The root is never on the way to another path. */
  function LastMethods(entries: seq<Entry>, path: seq<string>): seq<string> {
    if entries == [] then []
    else
      var e := entries[|entries| - 1];
      if Effective(e) && Parts(e) == path then Names(e.methods)
      else if path != [] && path < Parts(e) then []
      else LastMethods(entries[..|entries| - 1], path)
  }

  lemma PlaceMethods(root: Node, e: Entry, path: seq<string>)
    requires TidyBelow(root)
    ensures TidyBelow(Place(root, e))
    ensures MethodsAt(Place(root, e), path) ==
      if Effective(e) && Parts(e) == path then Names(e.methods)
      else if path != [] && path < Parts(e) then []
      else MethodsAt(root, path)
  {
    hide Insert, SplitPath, Names;
    var parts := SplitPath(e.path);
    if e.path == "/" {
      SettleMethods(root, e.methods, path);
    } else if parts == [] {
      InsertNothing(root, e.methods);
    } else {
      InsertTidy(root, parts, e.methods);
      if path != [] {
        InsertMethods(root, parts, e.methods, path);
      }
    }
  }

  lemma {:induction false} BuildMethods(host: string, entries: seq<Entry>, path: seq<string>)
    ensures TidyBelow(Build(host, entries))
    ensures MethodsAt(Build(host, entries), path) == LastMethods(entries, path)
  {
    hide Place, TidyBelow, Parts, Effective, Names;
    if entries == [] {
      assert TidyBelow(NewNode(host)) by { NewTidy(host); }
    } else {
      var before, e := entries[..|entries| - 1], entries[|entries| - 1];
      BuildMethods(host, before, path);
      PlaceMethods(Build(host, before), e, path);
    }
  }

  lemma NewTidy(host: string)
    ensures TidyBelow(NewNode(host))
  {
  }

  /** An entry whose methods are still there at the end: none later replaces it or passes through it. */
  predicate Survives(entries: seq<Entry>, i: nat)
    requires i < |entries|
  {
    && Stands(entries, i)
    && (Parts(entries[i]) == [] || forall j :: i < j < |entries| ==> !(Parts(entries[i]) < Parts(entries[j])))
  }

  lemma SurvivesOneMore(entries: seq<Entry>, i: nat)
    requires i < |entries|
    ensures var n := |entries| - 1;
      var e := entries[n];
      Survives(entries, i) <==>
        if i == n then Effective(e)
        else
          && Survives(entries[..n], i) && !(Effective(e) && Parts(e) == Parts(entries[i]))
          && !(Parts(entries[i]) != [] && Parts(entries[i]) < Parts(e))
  {
    hide Effective, Parts;
    var before := entries[..|entries| - 1];
    assert forall j :: 0 <= j < |before| ==> before[j] == entries[j];
  }

  lemma {:induction false} LastMethodsFrom(entries: seq<Entry>, path: seq<string>, m: string)
    ensures m in LastMethods(entries, path) <==>
      exists i :: 0 <= i < |entries| && Survives(entries, i) && Parts(entries[i]) == path
                  && m in Names(entries[i].methods)
  {
    hide Effective, Parts, Names, Survives;
    if entries == [] {
    } else {
      var n := |entries| - 1;
      var before := entries[..n];
      LastMethodsFrom(before, path, m);
      forall i | 0 <= i < n
        ensures before[i] == entries[i]
      {
      }
      forall i | 0 <= i <= n
        ensures Survives(entries, i) <==>
          if i == n then Effective(entries[n])
          else Survives(before, i) && !(Effective(entries[n]) && Parts(entries[n]) == Parts(entries[i]))
               && !(Parts(entries[i]) != [] && Parts(entries[i]) < Parts(entries[n]))
      {
        SurvivesOneMore(entries, i);
      }
    }
  }

  // ---- Aggregation ----

  lemma {:induction false} UnionHas(a: seq<string>, b: seq<string>, m: string)
    ensures m in Union(a, b) <==> m in a || m in b
    decreases |b|
  {
    if b == [] {
    } else {
      UnionHas(if b[0] in a then a else a + [b[0]], b[1..], m);
    }
  }

  lemma {:induction false} GatherHas(node: Node, children: seq<Node>, m: string)
    ensures m in Gather(node, children).methods <==>
      m in node.methods || exists i :: 0 <= i < |children| && m in children[i].methods
    decreases |children|
  {
    hide Union;
    if children == [] {
    } else {
      UnionHas(node.methods, children[0].methods, m);
      GatherHas(node.(count := node.count + children[0].count, methods := Union(node.methods, children[0].methods)),
                children[1..], m);
      assert forall i :: 1 <= i < |children| ==> children[i] == children[1..][i - 1];
    }
  }

  lemma AggregateHas(node: Node, m: string)
    ensures m in Aggregate(node).methods <==>
      m in node.methods || exists i :: 0 <= i < |node.children| && m in Aggregate(node.children[i]).methods
  {
    hide Aggregate, AggregateAll;
    var children := AggregateAll(node.children);
    AggregateStep(node);
    GatherHas(node.(children := children, isLeaf := node.isLeaf && children == []), children, m);
    forall i | 0 <= i < |node.children|
      ensures children[i] == Aggregate(node.children[i])
    {
      AggregateAllAt(node.children, i);
    }
  }

  lemma AggregateStep(node: Node)
    ensures var children := AggregateAll(node.children);
      Aggregate(node) == Gather(node.(children := children, isLeaf := node.isLeaf && children == []), children)
  {
  }

  /** Some path at or below the node holds the method. */
  ghost predicate Below(node: Node, m: string) {
    exists p: seq<string> :: m in MethodsAt(node, p)
  }

  /** A node's final methods are those held at it or anywhere below it. */
  lemma {:induction false} AggregateGathers(node: Node, m: string)
    requires Unique(node)
    ensures m in Aggregate(node).methods <==> Below(node, m)
    decreases node
  {
    hide Aggregate, ChildIndex;
    AggregateHas(node, m);
    assert MethodsAt(node, []) == node.methods;
    forall i | 0 <= i < |node.children|
      ensures m in Aggregate(node.children[i]).methods ==> Below(node, m)
    {
      AggregateGathers(node.children[i], m);
      if m in Aggregate(node.children[i]).methods {
        var p :| m in MethodsAt(node.children[i], p);
        FoundByName(node.children, i);
        var path := [node.children[i].name] + p;
        assert path[1..] == p;
        assert m in MethodsAt(node, path);
      }
    }
    if p :| m in MethodsAt(node, p) && p != [] {
      var i := ChildIndex(node.children, p[0]);
      assert m in MethodsAt(node.children[i], p[1..]);
      AggregateGathers(node.children[i], m);
    }
  }

  lemma FoundByName(children: seq<Node>, i: nat)
    requires i < |children|
    requires forall k, j :: 0 <= k < j < |children| ==> children[k].name != children[j].name
    ensures ChildIndex(children, children[i].name) == i
  {
  }

  lemma {:induction false} AggregateMethodsAt(node: Node, path: seq<string>, m: string)
    requires Unique(node)
    ensures m in MethodsAt(Aggregate(node), path) <==> exists p: seq<string> :: m in MethodsAt(node, path + p)
    decreases |path|
  {
    hide Aggregate, AggregateAll;
    AggregateWeight(node);
    if path == [] {
      AggregateGathers(node, m);
      if p: seq<string> :| m in MethodsAt(node, p) {
        assert path + p == p;
      }
    } else {
      var i := ChildIndex(node.children, path[0]);
      SameNamesSameIndex(node.children, AggregateAll(node.children), path[0]);
      assert forall p: seq<string> :: (path + p)[1..] == path[1..] + p && (path + p)[0] == path[0];
      if i < |node.children| {
        AggregateAllAt(node.children, i);
        AggregateMethodsAt(node.children[i], path[1..], m);
      }
    }
  }

  // ---- Main results ----

  /** The methods shown at a path of the finished map, whatever their order. */
  function MethodSet(host: string, entries: seq<Entry>, path: seq<string>): set<string> {
    set m | m in MethodsAt(Aggregate(Build(host, entries)), path)
  }

  /** For all entries in any order: the methods at a path are those of the surviving entries at or below it. */
  lemma MethodsAreSurvivors(host: string, entries: seq<Entry>, path: seq<string>, m: string)
    ensures m in MethodSet(host, entries, path) <==>
      exists i :: 0 <= i < |entries| && Survives(entries, i) && path <= Parts(entries[i])
                  && m in Names(entries[i].methods)
  {
    hide Aggregate, Build, Survives, Parts, Names, LastMethods, MethodsAt;
    var root := Build(host, entries);
    MapUnique(host, entries);
    AggregateMethodsAt(root, path, m);
    if p: seq<string> :| m in MethodsAt(root, path + p) {
      BuildMethods(host, entries, path + p);
      LastMethodsFrom(entries, path + p, m);
    }
    if i :| 0 <= i < |entries| && Survives(entries, i) && path <= Parts(entries[i]) && m in Names(entries[i].methods) {
      var p := Parts(entries[i])[|path|..];
      assert path + p == Parts(entries[i]);
      BuildMethods(host, entries, path + p);
      LastMethodsFrom(entries, path + p, m);
    }
  }

  /** The names are those that the database gave with a count. */
  lemma NamesAre(methods: Methods, m: string)
    ensures m in Names(methods) <==> exists count :: (m, count) in methods
  {
    if count :| (m, count) in methods {
      var i :| 0 <= i < |methods| && methods[i] == (m, count);
      assert Names(methods)[i] == m;
    }
    if m in Names(methods) {
      var i :| 0 <= i < |methods| && Names(methods)[i] == m;
      assert (m, methods[i].1) == methods[i];
    }
  }

  // ---- No method twice ----

  predicate Distinct(s: seq<string>) {
    forall i, j :: 0 <= i < j < |s| ==> s[i] != s[j]
  }

  lemma {:induction false} UnionDistinct(a: seq<string>, b: seq<string>)
    requires Distinct(a)
    ensures Distinct(Union(a, b))
    decreases |b|
  {
    if b == [] {
    } else {
      UnionDistinct(if b[0] in a then a else a + [b[0]], b[1..]);
    }
  }

  lemma {:induction false} GatherDistinct(node: Node, children: seq<Node>)
    requires Distinct(node.methods)
    ensures Distinct(Gather(node, children).methods)
    decreases |children|
  {
    hide Distinct, Union;
    if children == [] {
    } else {
      UnionDistinct(node.methods, children[0].methods);
      GatherDistinct(node.(count := node.count + children[0].count, methods := Union(node.methods, children[0].methods)),
                     children[1..]);
    }
  }

  lemma {:induction false} AggregateDistinct(node: Node, path: seq<string>)
    requires Distinct(MethodsAt(node, path))
    ensures Distinct(MethodsAt(Aggregate(node), path))
    decreases |path|
  {
    hide Aggregate, AggregateAll, Distinct;
    AggregateStep(node);
    AggregateWeight(node);
    if path == [] {
      var children := AggregateAll(node.children);
      GatherDistinct(node.(children := children, isLeaf := node.isLeaf && children == []), children);
    } else {
      var i := ChildIndex(node.children, path[0]);
      SameNamesSameIndex(node.children, AggregateAll(node.children), path[0]);
      if i < |node.children| {
        AggregateAllAt(node.children, i);
        AggregateDistinct(node.children[i], path[1..]);
      }
    }
  }

  lemma {:induction false} LastDistinct(entries: seq<Entry>, path: seq<string>)
    requires forall e :: e in entries ==> Distinct(Names(e.methods))
    ensures Distinct(LastMethods(entries, path))
  {
    hide Names, Parts, Effective;
    if entries == [] {
    } else {
      assert entries[|entries| - 1] in entries && forall e :: e in entries[..|entries| - 1] ==> e in entries;
      LastDistinct(entries[..|entries| - 1], path);
    }
  }

  /** In the finished map no path shows a method twice, when the database gives none twice for one path. */
  lemma MethodsShownOnce(host: string, entries: seq<Entry>, path: seq<string>)
    requires forall e :: e in entries ==> Distinct(Names(e.methods))
    ensures Distinct(MethodsAt(Aggregate(Build(host, entries)), path))
  {
    hide Aggregate, Build, MethodsAt, LastMethods, Distinct, Names;
    LastDistinct(entries, path);
    BuildMethods(host, entries, path);
    AggregateDistinct(Build(host, entries), path);
  }

  // ---- Exactly when the order does not matter ----

  /** No entry's path goes on from this one. */
  predicate Outermost(entries: seq<Entry>, e: Entry) {
    forall g :: g in entries ==> !(Parts(e) < Parts(g))
  }

  /** The method occurs in an outermost entry at or below `path`. */
  ghost predicate Kept(entries: seq<Entry>, path: seq<string>, m: string) {
    exists f :: f in entries && Outermost(entries, f) && path <= Parts(f) && m in Names(f.methods)
  }

  /** Every method of an entry other than the root's is kept. */
  ghost predicate AllKept(entries: seq<Entry>) {
    forall e, m :: e in entries && Parts(e) != [] && m in Names(e.methods) ==> Kept(entries, Parts(e), m)
  }

  /** The method occurs in an entry at or below `path`. */
  ghost predicate Occurs(entries: seq<Entry>, path: seq<string>, m: string) {
    exists e :: e in entries && path <= Parts(e) && m in Names(e.methods)
  }

  lemma SameEntries(a: seq<Entry>, b: seq<Entry>)
    requires multiset(a) == multiset(b)
    ensures forall e :: e in a <==> e in b
    ensures |a| == |b|
  {
    assert forall e :: e in a <==> e in multiset(a);
    assert forall e :: e in b <==> e in multiset(b);
    assert |a| == |multiset(a)| == |multiset(b)| == |b|;
  }

  lemma FirstApart(a: seq<Entry>)
    requires a != [] && DistinctPaths(a)
    ensures Effective(a[0]) && DistinctPaths(a[1..]) && forall y :: y in a[1..] ==> Parts(y) != Parts(a[0])
  {
    hide Effective, Parts;
    assert forall e :: e in a[1..] ==> e in a;
  }

  lemma {:induction false} ReorderedDistinct(a: seq<Entry>, b: seq<Entry>)
    requires multiset(a) == multiset(b) && DistinctPaths(a)
    ensures DistinctPaths(b)
    decreases |a|
  {
    SameEntries(a, b);
    if a == [] {
    } else {
      FirstApart(a);
      hide DistinctPaths, Effective, Parts, Without;
      assert a[0] in b;
      var i :| 0 <= i < |b| && b[i] == a[0];
      RestReordered(a, b, i);
      ReorderedDistinct(a[1..], Without(b, i));
      SameEntries(a[1..], Without(b, i));
      DistinctWith(b, i);
    }
  }

  lemma RestReordered(a: seq<Entry>, b: seq<Entry>, i: nat)
    requires multiset(a) == multiset(b) && a != [] && i < |b| && b[i] == a[0]
    ensures multiset(a[1..]) == multiset(Without(b, i))
  {
    hide SumAt, Without;
    SumWithout(b, i, []);
    assert a == [a[0]] + a[1..];
    assert multiset(a) == multiset{a[0]} + multiset(a[1..]);
  }

  lemma DistinctWith(b: seq<Entry>, i: nat)
    requires i < |b| && Effective(b[i]) && DistinctPaths(Without(b, i))
    requires forall y :: y in Without(b, i) ==> Parts(y) != Parts(b[i])
    ensures DistinctPaths(b)
  {
    hide Effective, Parts;
    var c := Without(b, i);
    forall j | 0 <= j < |b| && j != i
      ensures b[j] in c && b[j] == c[if j < i then j else j - 1]
    {
      assert b[j] == c[if j < i then j else j - 1];
    }
  }

  /** The surviving entries lie among all, and hold every outermost one and the root. */
  lemma BetweenKeptAndAll(host: string, entries: seq<Entry>, path: seq<string>, m: string)
    requires DistinctPaths(entries)
    ensures m in MethodSet(host, entries, path) ==> Occurs(entries, path, m)
    ensures Kept(entries, path, m) ==> m in MethodSet(host, entries, path)
    ensures forall e :: e in entries && Parts(e) == [] == path && m in Names(e.methods) ==> m in MethodSet(host, entries, path)
  {
    hide Effective, Parts, Names, MethodSet;
    MethodsAreSurvivors(host, entries, path, m);
    forall i | 0 <= i < |entries| && (Outermost(entries, entries[i]) || Parts(entries[i]) == [])
      ensures Survives(entries, i)
    {
    }
  }

  // ---- Short paths first: only outermost entries survive ----

  function Placed(e: Entry, sorted: seq<Entry>): seq<Entry> {
    if sorted == [] || |Parts(e)| <= |Parts(sorted[0])| then [e] + sorted else [sorted[0]] + Placed(e, sorted[1..])
  }

  function ShortFirst(entries: seq<Entry>): seq<Entry> {
    if entries == [] then [] else Placed(entries[0], ShortFirst(entries[1..]))
  }

  predicate Ascending(entries: seq<Entry>) {
    forall i, j :: 0 <= i < j < |entries| ==> |Parts(entries[i])| <= |Parts(entries[j])|
  }

  lemma {:induction false} PlacedAscends(e: Entry, sorted: seq<Entry>)
    requires Ascending(sorted)
    ensures multiset(Placed(e, sorted)) == multiset(sorted) + multiset{e}
    ensures Ascending(Placed(e, sorted))
  {
    hide Parts;
    if sorted == [] || |Parts(e)| <= |Parts(sorted[0])| {
    } else {
      var rest := Placed(e, sorted[1..]);
      PlacedAscends(e, sorted[1..]);
      assert sorted == [sorted[0]] + sorted[1..];
      hide Placed;
      forall x | x in rest
        ensures |Parts(sorted[0])| <= |Parts(x)|
      {
        assert x in multiset(rest);
        assert x == e || x in sorted[1..];
      }
      AscendsInFront(sorted[0], rest);
    }
  }

  lemma AscendsInFront(e: Entry, rest: seq<Entry>)
    requires Ascending(rest) && forall x :: x in rest ==> |Parts(e)| <= |Parts(x)|
    ensures Ascending([e] + rest)
  {
    hide Parts;
  }

  lemma {:induction false} ShortFirstAscends(entries: seq<Entry>)
    ensures multiset(ShortFirst(entries)) == multiset(entries)
    ensures Ascending(ShortFirst(entries))
  {
    if entries == [] {
    } else {
      ShortFirstAscends(entries[1..]);
      PlacedAscends(entries[0], ShortFirst(entries[1..]));
      assert entries == [entries[0]] + entries[1..];
    }
  }

  lemma ShortFirstKeepsOutermost(host: string, entries: seq<Entry>, path: seq<string>, m: string)
    requires Ascending(entries) && path != [] && m in MethodSet(host, entries, path)
    ensures Kept(entries, path, m)
  {
    hide Effective, Parts, Names, MethodSet, Stands;
    MethodsAreSurvivors(host, entries, path, m);
    var i :| 0 <= i < |entries| && Survives(entries, i) && path <= Parts(entries[i]) && m in Names(entries[i].methods);
    forall g | g in entries
      ensures !(Parts(entries[i]) < Parts(g))
    {
      var j :| 0 <= j < |entries| && entries[j] == g;
    }
  }

  /** The order in which `e` comes last keeps its methods. */
  lemma LastKeeps(host: string, entries: seq<Entry>, k: nat, m: string)
    requires DistinctPaths(entries) && k < |entries| && m in Names(entries[k].methods)
    ensures var b := Without(entries, k) + [entries[k]];
      multiset(b) == multiset(entries) && m in MethodSet(host, b, Parts(entries[k]))
  {
    hide Parts, Names, MethodSet;
    var e := entries[k];
    var b := Without(entries, k) + [e];
    SumWithout(entries, k, []);
    assert e in entries;
    MethodsAreSurvivors(host, b, Parts(e), m);
    assert b[|b| - 1] == e && Survives(b, |b| - 1);
  }

  /** Every order of the entries shows the same methods everywhere. */
  ghost predicate MethodsIgnoreOrder(host: string, entries: seq<Entry>) {
    forall b: seq<Entry>, path: seq<string> :: multiset(b) == multiset(entries) ==>
      MethodSet(host, b, path) == MethodSet(host, entries, path)
  }

  lemma KeptReordered(a: seq<Entry>, b: seq<Entry>, path: seq<string>, m: string)
    requires multiset(a) == multiset(b)
    ensures Kept(a, path, m) <==> Kept(b, path, m)
    ensures Occurs(a, path, m) <==> Occurs(b, path, m)
  {
    hide Parts, Names;
    SameEntries(a, b);
  }

  /** When all methods are kept, every order shows at a path all methods that occur at or below it. */
  lemma KeptShowsAll(host: string, entries: seq<Entry>, b: seq<Entry>, path: seq<string>, m: string)
    requires DistinctPaths(entries) && AllKept(entries) && multiset(b) == multiset(entries)
    ensures m in MethodSet(host, b, path) <==> Occurs(entries, path, m)
  {
    hide DistinctPaths, Names, MethodSet, Parts;
    ReorderedDistinct(entries, b);
    SameEntries(entries, b);
    BetweenKeptAndAll(host, b, path, m);
    KeptReordered(entries, b, path, m);
    if Occurs(entries, path, m) {
      var e :| e in entries && path <= Parts(e) && m in Names(e.methods);
      if Parts(e) != [] {
        assert Kept(entries, Parts(e), m);
        assert Kept(entries, path, m);
      }
    }
  }

  /**
   For distinct paths the methods at every path are the same for all orders of insertion exactly when every method of an
   entry, the root's aside, occurs in an entry at or below it that no other entry goes on from.
   */
  lemma MethodsIgnoreOrderIff(host: string, entries: seq<Entry>)
    requires DistinctPaths(entries)
    ensures MethodsIgnoreOrder(host, entries) <==> AllKept(entries)
  {
    hide DistinctPaths, Parts, Names, MethodSet, Kept, Occurs;
    if AllKept(entries) {
      forall b: seq<Entry>, path: seq<string> | multiset(b) == multiset(entries)
        ensures MethodSet(host, b, path) == MethodSet(host, entries, path)
      {
        forall m: string
          ensures m in MethodSet(host, b, path) <==> m in MethodSet(host, entries, path)
        {
          KeptShowsAll(host, entries, b, path, m);
          KeptShowsAll(host, entries, entries, path, m);
        }
      }
    }
    if MethodsIgnoreOrder(host, entries) {
      var short := ShortFirst(entries);
      ShortFirstAscends(entries);
      forall e, m | e in entries && Parts(e) != [] && m in Names(e.methods)
        ensures Kept(entries, Parts(e), m)
      {
        var k :| 0 <= k < |entries| && entries[k] == e;
        LastKeeps(host, entries, k, m);
        var b := Without(entries, k) + [e];
        assert MethodSet(host, b, Parts(e)) == MethodSet(host, entries, Parts(e)) == MethodSet(host, short, Parts(e));
        ShortFirstKeepsOutermost(host, short, Parts(e), m);
        KeptReordered(entries, short, Parts(e), m);
      }
    }
  }

  // ---- An order that matters ----

  lemma TwoSegments()
    ensures SplitPath("/a") == ["a"] && SplitPath("/a/b") == ["a", "b"]
  {
    assert TrimSlashes("a/b") == "a/b" && TrimSlashes("a") == "a";
    assert "/a/b"[1..] == "a/b" && "/a"[1..] == "a" && "a/b"[1..] == "/b";
    assert "/b"[1..] == "b" && "a"[1..] == "" && "b"[1..] == "";
    assert SplitSlashes("") == [""];
    assert [""][1..] == [] && ["b"][1..] == [] && ['b'] + "" == "b" && ['a'] + "" == "a" && ["", "b"][1..] == ["b"];
    assert SplitSlashes("b") == ["b"] && SplitSlashes("a") == ["a"];
    assert SplitSlashes("/b") == ["", "b"];
    assert SplitSlashes("a/b") == ["a", "b"];
  }

  /** In the finished map "/a" shows its own methods only when it is placed after "/a/b", or when "/a/b" has them too. */
  lemma MethodsDependOnOrder(host: string, own: Methods, deeper: Methods)
    ensures var shorter, longer := Entry("/a", own), Entry("/a/b", deeper);
      && MethodSet(host, [shorter, longer], ["a"]) == (set m | m in Names(deeper))
      && MethodSet(host, [longer, shorter], ["a"]) == (set m | m in Names(own)) + (set m | m in Names(deeper))
  {
    var shorter, longer := Entry("/a", own), Entry("/a/b", deeper);
    TwoSegments();
    assert Parts(shorter) == ["a"] && Parts(longer) == ["a", "b"] && Effective(shorter) && Effective(longer);
    hide Parts, Effective, Names, MethodSet, Survives;
    assert ["a"] < ["a", "b"] && !(["a", "b"] <= ["a"]);
    forall m: string
      ensures m in MethodSet(host, [shorter, longer], ["a"]) <==> m in Names(deeper)
      ensures m in MethodSet(host, [longer, shorter], ["a"]) <==> m in Names(own) || m in Names(deeper)
    {
      MethodsAreSurvivors(host, [shorter, longer], ["a"], m);
      MethodsAreSurvivors(host, [longer, shorter], ["a"], m);
      TwoSurvive(shorter, longer);
    }
  }

  lemma TwoSurvive(shorter: Entry, longer: Entry)
    requires Effective(shorter) && Effective(longer) && Parts(shorter) == ["a"] && Parts(longer) == ["a", "b"]
    ensures !Survives([shorter, longer], 0) && Survives([shorter, longer], 1)
    ensures Survives([longer, shorter], 0) && Survives([longer, shorter], 1)
  {
    hide Parts, Effective;
    assert ["a"] < ["a", "b"];
    assert [shorter, longer][1] == longer && [longer, shorter][1] == shorter;
  }
}
