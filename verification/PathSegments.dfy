/** The segments of a path: cutting at every slash, behind and before the slashes at its ends. */
module PathSegments {
  import opened Bytes
  import opened ApiMap

  /** `n` slashes. */
  function Slashes(n: nat): string {
    if n == 0 then "" else "/" + Slashes(n - 1)
  }

  /** Segments as a trimmed path has them: none holds a slash, and the outer ones are not empty. */
  predicate Segments(parts: seq<string>) {
    && (forall p :: p in parts ==> '/' !in p)
    && (parts != [] ==> parts[0] != "" && parts[|parts| - 1] != "")
  }

  lemma {:induction false} SplitOne(part: string)
    requires '/' !in part
    ensures SplitSlashes(part) == [part]
  {
    if part == "" {
    } else {
      assert part[0] in part && forall c :: c in part[1..] ==> c in part;
      SplitOne(part[1..]);
      assert [part[0]] + part[1..] == part;
    }
  }

  lemma {:induction false} SplitAtSlash(part: string, rest: string)
    requires '/' !in part
    ensures SplitSlashes(part + "/" + rest) == [part] + SplitSlashes(rest)
    decreases |part|
  {
    var path := part + "/" + rest;
    if part == "" {
      assert path[0] == '/' && path[1..] == rest;
    } else {
      assert part[0] in part && forall c :: c in part[1..] ==> c in part;
      SplitAtSlash(part[1..], rest);
      assert path[0] == part[0] && path[1..] == part[1..] + "/" + rest;
      assert [part[0]] + part[1..] == part;
      assert ([part[1..]] + SplitSlashes(rest))[1..] == SplitSlashes(rest);
    }
  }

  /** Cutting undoes joining, for slash-free segments, empty ones included. */
  lemma {:induction false} SplitOfJoined(parts: seq<string>)
    requires parts != [] && forall p :: p in parts ==> '/' !in p
    ensures SplitSlashes(JoinSlashes(parts)) == parts
  {
    assert parts[0] in parts;
    if |parts| == 1 {
      SplitOne(parts[0]);
    } else {
      SplitOfJoined(parts[1..]);
      assert JoinSlashes(parts) == parts[0] + "/" + JoinSlashes(parts[1..]);
      SplitAtSlash(parts[0], JoinSlashes(parts[1..]));
    }
  }

  /** And no segment holds a slash. */
  lemma {:induction false} SplitSlashFree(path: string)
    ensures forall p :: p in SplitSlashes(path) ==> '/' !in p
  {
    if path == "" {
    } else {
      SplitSlashFree(path[1..]);
    }
  }

  // ---- Trimming ----

  lemma SlashTrimmed(path: string)
    ensures TrimSlashes("/" + path) == TrimSlashes(path)
  {
    assert ("/" + path)[1..] == path;
  }

  lemma {:induction false} TrimFront(n: nat, core: string)
    ensures TrimSlashes(Slashes(n) + core) == TrimSlashes(core)
  {
    hide TrimSlashes;
    if n == 0 {
      assert "" + core == core;
    } else {
      TrimFront(n - 1, core);
      SlashTrimmed(Slashes(n - 1) + core);
      assert Slashes(n) == "/" + Slashes(n - 1);
      hide Slashes;
      assert Slashes(n) + core == "/" + (Slashes(n - 1) + core);
    }
  }

  lemma {:induction false} SlashesLast(n: nat)
    requires n > 0
    ensures Slashes(n) == Slashes(n - 1) + "/"
  {
    if n == 1 {
    } else {
      SlashesLast(n - 1);
    }
  }

  lemma {:induction false} TrimBack(core: string, n: nat)
    requires core != "" && core[0] != '/'
    ensures TrimSlashes(core + Slashes(n)) == TrimSlashes(core)
  {
    if n == 0 {
      assert core + "" == core;
    } else {
      hide Slashes;
      SlashesLast(n);
      var path := core + Slashes(n);
      assert path == core + Slashes(n - 1) + "/";
      assert path[..|path| - 1] == core + Slashes(n - 1);
      TrimBack(core, n - 1);
    }
  }

  /** Slashes at the ends are cut off, and nothing else. */
  lemma TrimsEnds(front: nat, core: string, back: nat)
    requires core != "" && core[0] != '/' && core[|core| - 1] != '/'
    ensures TrimSlashes(Slashes(front) + core + Slashes(back)) == core
  {
    TrimFront(front, core + Slashes(back));
    TrimBack(core, back);
    assert TrimSlashes(core) == core;
    hide TrimSlashes, Slashes;
    assert Slashes(front) + core + Slashes(back) == Slashes(front) + (core + Slashes(back));
  }

  lemma {:induction false} SlashesTrim(n: nat)
    ensures TrimSlashes(Slashes(n)) == ""
  {
    if n == 0 {
    } else {
      SlashesTrim(n - 1);
      assert Slashes(n)[1..] == Slashes(n - 1);
    }
  }

  // ---- Whole paths ----

  lemma {:induction false} JoinedEnds(parts: seq<string>)
    requires parts != [] && Segments(parts)
    ensures var path := JoinSlashes(parts); path != "" && path[0] != '/' && path[|path| - 1] != '/'
  {
    assert parts[0] in parts && parts[0][0] in parts[0];
    JoinedLast(parts);
  }

  lemma {:induction false} JoinedLast(parts: seq<string>)
    requires parts != [] && (forall p :: p in parts ==> '/' !in p) && parts[|parts| - 1] != ""
    ensures var path := JoinSlashes(parts); path != "" && path[|path| - 1] != '/'
  {
    var last := parts[|parts| - 1];
    assert last in parts && last[|last| - 1] in last;
    if |parts| > 1 {
      JoinedLast(parts[1..]);
    }
  }

  /** A path of these segments, with any slashes around it, is split into them. */
  lemma SplitPathOfJoined(front: nat, parts: seq<string>, back: nat)
    requires Segments(parts)
    ensures SplitPath(Slashes(front) + JoinSlashes(parts) + Slashes(back)) == parts
  {
    if parts == [] {
      SlashesJoin(front, back);
      SlashesTrim(front + back);
    } else {
      JoinedEnds(parts);
      TrimsEnds(front, JoinSlashes(parts), back);
      SplitOfJoined(parts);
    }
  }

  lemma {:induction false} SlashesJoin(a: nat, b: nat)
    ensures Slashes(a) + "" + Slashes(b) == Slashes(a + b)
  {
    if a == 0 {
      assert "" + "" + Slashes(b) == Slashes(b);
    } else {
      SlashesJoin(a - 1, b);
    }
  }

  /** Every path is such a path, and those are its segments. */
  lemma {:induction false} SplitPathIs(path: string) returns (front: nat, back: nat)
    ensures Segments(SplitPath(path))
    ensures path == Slashes(front) + JoinSlashes(SplitPath(path)) + Slashes(back)
    decreases |path|
  {
    front, back := TrimmedFrom(path);
    var core := TrimSlashes(path);
    if core != "" {
      SplitJoins(core);
      SplitSlashFree(core);
      SplitEnds(core);
    }
  }

  lemma TrimStep(path: string)
    ensures TrimSlashes(path) ==
      if path != "" && path[0] == '/' then TrimSlashes(path[1..])
      else if path != "" && path[|path| - 1] == '/' then TrimSlashes(path[..|path| - 1])
      else path
    ensures Slashes(0) == ""
  {
  }

  lemma {:induction false} TrimmedFrom(path: string) returns (front: nat, back: nat)
    ensures path == Slashes(front) + TrimSlashes(path) + Slashes(back)
    ensures var core := TrimSlashes(path); core != "" ==> core[0] != '/' && core[|core| - 1] != '/'
    decreases |path|
  {
    hide TrimSlashes, Slashes;
    TrimStep(path);
    var core := TrimSlashes(path);
    if path != "" && path[0] == '/' {
      front, back := TrimmedFrom(path[1..]);
      Regroup(Slashes(front), core, Slashes(back));
      OneMoreFront(path, front, core + Slashes(back));
      front := front + 1;
      Regroup(Slashes(front), core, Slashes(back));
    } else if path != "" && path[|path| - 1] == '/' {
      front, back := TrimmedFrom(path[..|path| - 1]);
      OneMoreBack(path, Slashes(front) + core, back);
      back := back + 1;
    } else {
      front, back := 0, 0;
      assert "" + path + "" == path;
    }
  }

  lemma OneMoreFront(path: string, front: nat, rest: string)
    requires path != "" && path[0] == '/' && path[1..] == Slashes(front) + rest
    ensures path == Slashes(front + 1) + rest
  {
    assert Slashes(front + 1) == "/" + Slashes(front);
    hide Slashes;
    assert path == "/" + path[1..];
  }

  lemma OneMoreBack(path: string, rest: string, back: nat)
    requires path != "" && path[|path| - 1] == '/' && path[..|path| - 1] == rest + Slashes(back)
    ensures path == rest + Slashes(back + 1)
  {
    SlashesLast(back + 1);
    hide Slashes;
    assert path == path[..|path| - 1] + "/";
  }

  /** The outer segments of a path without outer slashes are not empty. */
  lemma SplitEnds(core: string)
    requires core != "" && core[0] != '/' && core[|core| - 1] != '/'
    ensures var parts := SplitSlashes(core); parts[0] != "" && parts[|parts| - 1] != ""
  {
    SplitJoins(core);
    var parts := SplitSlashes(core);
    LastJoined(parts);
  }

  lemma {:induction false} LastJoined(parts: seq<string>)
    requires parts != []
    ensures var path := JoinSlashes(parts); parts[|parts| - 1] == "" ==> path == "" || path[|path| - 1] == '/'
  {
    if |parts| > 1 {
      LastJoined(parts[1..]);
    }
  }
}
