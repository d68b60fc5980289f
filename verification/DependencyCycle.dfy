/**
 Cycle detection over a validate batch's module dependencies: a depth-first search with three colours and a
 shared path. It is proved sound, complete and terminating for every finite dependency map.
 */
module DependencyCycle {

  /** Module key to the keys it depends on; a key that is no node has no dependencies. */
  type Graph = map<string, seq<string>>

  function Deps(g: Graph, key: string): seq<string> {
    if key in g then g[key] else []
  }

  predicate Edge(g: Graph, a: string, b: string) {
    b in Deps(g, a)
  }

  predicate Distinct(s: seq<string>) {
    forall i, j :: 0 <= i < j < |s| ==> s[i] != s[j]
  }

  /** Consecutive keys are joined by dependencies. */
  predicate Walk(g: Graph, w: seq<string>) {
    forall i :: 0 <= i < |w| - 1 ==> Edge(g, w[i], w[i + 1])
  }

  predicate ClosedWalk(g: Graph, w: seq<string>) {
    |w| >= 2 && w[0] == w[|w| - 1] && Walk(g, w)
  }

  /** A closed walk that meets no key twice except its end. */
  predicate Cycle(g: Graph, w: seq<string>) {
    ClosedWalk(g, w) && Distinct(w[1..])
  }

  ghost predicate Acyclic(g: Graph) {
    forall w :: !ClosedWalk(g, w)
  }

  /** The dependencies of every key of the order come before it. */
  ghost predicate Topological(g: Graph, order: seq<string>) {
    forall i, d :: 0 <= i < |order| && d in Deps(g, order[i]) ==> d in order[..i]
  }

  function Universe(g: Graph): set<string> {
    g.Keys + set k, d | k in g && d in g[k] :: d
  }

  datatype Color = White | Gray | Black

  class Search {
    const g: Graph
    var color: map<string, Color>
    var path: seq<string>
    ghost var finished: seq<string>

    constructor (g: Graph)
      ensures this.g == g && Valid() && path == [] && finished == []
    {
      this.g := g;
      color, path, finished := map[], [], [];
    }

    function ColorOf(key: string): Color
      reads this
    {
      if key in color then color[key] else White
    }

    /** Gray is exactly "on the path" and black exactly "finished"; finished keys only depend on keys
        finished before them, and the path is a walk of the graph. */
    ghost predicate Valid()
      reads this
    {
      && (forall k :: ColorOf(k) == Gray <==> k in path)
      && (forall k :: ColorOf(k) == Black <==> k in finished)
      && Distinct(path) && Walk(g, path)
      && Topological(g, finished)
      && (forall k :: k in color ==> k in Universe(g))
    }

    ghost function Unvisited(): set<string>
      reads this
    {
      set k | k in Universe(g) && ColorOf(k) == White
    }

    method Enter(key: string)
      requires Valid() && ColorOf(key) == White && key in Universe(g)
      requires path != [] ==> Edge(g, path[|path| - 1], key)
      modifies this
      ensures Valid() && path == old(path) + [key] && finished == old(finished)
      ensures Unvisited() < old(Unvisited())
    {
      hide Topological, Universe;
      color := color[key := Gray];
      path := path + [key];
      assert key in old(Unvisited()) && key !in Unvisited();
    }

    method Leave(key: string)
      requires Valid() && path != [] && path[|path| - 1] == key
      requires forall d :: d in Deps(g, key) ==> d in finished
      modifies this
      ensures Valid() && path == old(path)[..|old(path)| - 1] && finished == old(finished) + [key]
      ensures Unvisited() <= old(Unvisited())
    {
      path := path[..|path| - 1];
      color := color[key := Black];
      finished := finished + [key];
      assert old(path) == path + [key];
      assert forall k :: k in old(path) <==> k in path || k == key;
      assert key !in path;
      forall i, d | 0 <= i < |finished| && d in Deps(g, finished[i])
        ensures d in finished[..i]
      {
        assert finished[..i] == old(finished)[..i];
      }
    }

    /** The walk from dep's place on the path back to dep. The search finds it: gray means "on the path". */
    method PathBackTo(dep: string) returns (cycle: seq<string>)
      requires Valid() && ColorOf(dep) == Gray && path != [] && Edge(g, path[|path| - 1], dep)
      ensures Cycle(g, cycle)
    {
      assert dep in path;
      var at := 0;
      while path[at] != dep
        invariant 0 <= at < |path| && dep in path[at..]
        decreases |path| - at
      {
        assert path[at..] == [path[at]] + path[at + 1..];
        at := at + 1;
      }
      ClosesCycle(g, path, at, dep);
      cycle := path[at..] + [dep];
    }

    method Visit(key: string) returns (cycle: seq<string>)
      requires Valid() && ColorOf(key) == White && key in Universe(g)
      requires path != [] ==> Edge(g, path[|path| - 1], key)
      modifies this
      ensures cycle != [] ==> Cycle(g, cycle)
      ensures cycle == [] ==> Valid() && path == old(path) && old(finished) <= finished && key in finished
      ensures Unvisited() <= old(Unvisited())
      decreases Unvisited(), 0
    {
      hide Valid, Unvisited, Cycle, Universe, ColorOf;
      Enter(key);
      var deps := Deps(g, key);
      for i := 0 to |deps|
        invariant Valid() && path == old(path) + [key] && old(finished) <= finished
        invariant Unvisited() < old(Unvisited())
        invariant forall j :: 0 <= j < i ==> deps[j] in finished
      {
        cycle := Follow(deps[i]);
        if cycle != [] { return; }
      }
      Leave(key);
      cycle := [];
    }

    /** One dependency of the key at the end of the path. */
    method Follow(dep: string) returns (cycle: seq<string>)
      requires Valid() && path != [] && Edge(g, path[|path| - 1], dep)
      modifies this
      ensures cycle != [] ==> Cycle(g, cycle)
      ensures cycle == [] ==> Valid() && path == old(path) && old(finished) <= finished && dep in finished
      ensures Unvisited() <= old(Unvisited())
      decreases Unvisited(), 1
    {
      match ColorOf(dep)
      case Gray => cycle := PathBackTo(dep);
      case White =>
        EdgeInUniverse(g, path[|path| - 1], dep);
        cycle := Visit(dep);
      case Black => cycle := [];
    }
  }

  lemma EdgeInUniverse(g: Graph, a: string, b: string)
    requires Edge(g, a, b)
    ensures b in Universe(g)
  {
    assert a in g && b in g[a];
  }

  lemma ClosesCycle(g: Graph, path: seq<string>, at: nat, dep: string)
    requires Distinct(path) && Walk(g, path) && at < |path| && path[at] == dep && Edge(g, path[|path| - 1], dep)
    ensures Cycle(g, path[at..] + [dep])
  {
    var w := path[at..] + [dep];
    forall i | 0 <= i < |w| - 1
      ensures Edge(g, w[i], w[i + 1])
    {
      if at + i + 1 < |path| {
        assert Edge(g, path[at + i], path[at + i + 1]);
      }
    }
  }

  /** `keys` lists the nodes in any order; the search answers a cycle exactly when there is one. */
  method FindDependencyCycle(g: Graph, keys: seq<string>) returns (cycle: seq<string>)
    requires forall k :: k in keys <==> k in g
    ensures cycle != [] ==> Cycle(g, cycle)
    ensures cycle == [] <==> Acyclic(g)
  {
    var search := new Search(g);
    for i := 0 to |keys|
      invariant fresh(search) && search.g == g && search.Valid() && search.path == []
      invariant forall j :: 0 <= j < i ==> keys[j] in search.finished
    {
      assert keys[i] in keys;
      if search.ColorOf(keys[i]) == White {
        cycle := search.Visit(keys[i]);
        if cycle != [] { return; }
      }
      assert search.ColorOf(keys[i]) == Black;
    }
    cycle := [];
    forall w
      ensures !ClosedWalk(g, w)
    {
      if ClosedWalk(g, w) {
        assert Edge(g, w[0], w[1]) && w[0] in keys;
        ghost var at :| 0 <= at < |search.finished| && search.finished[at] == w[0];
        NoClosedWalk(g, search.finished, w, at);
      }
    }
  }

  /** A graph whose keys with dependencies all appear in a topological order has no closed walk: following one
      round leads to an earlier finish of the same key. */
  lemma {:induction false} NoClosedWalk(g: Graph, order: seq<string>, w: seq<string>, at: nat)
    requires Topological(g, order) && ClosedWalk(g, w) && at < |order| && order[at] == w[0]
    ensures false
    decreases at
  {
    var end := WalkDescends(g, order, w, at);
    NoClosedWalk(g, order, w, end);
  }

  /** Along a walk that starts at a finished key, every later key was finished strictly earlier. */
  lemma {:induction false} WalkDescends(g: Graph, order: seq<string>, w: seq<string>, at: nat) returns (end: nat)
    requires Topological(g, order) && Walk(g, w) && w != []
    requires at < |order| && order[at] == w[0]
    ensures end <= at && order[end] == w[|w| - 1] && (|w| >= 2 ==> end < at)
    decreases |w|
  {
    if |w| == 1 { return at; }
    assert Edge(g, w[0], w[1]);
    assert w[1] in order[..at];
    var next :| 0 <= next < at && order[next] == w[1];
    assert forall i :: 0 <= i < |w[1..]| - 1 ==> Edge(g, w[1..][i], w[1..][i + 1]) by {
      forall i | 0 <= i < |w[1..]| - 1
        ensures Edge(g, w[1..][i], w[1..][i + 1])
      {
        assert Edge(g, w[i + 1], w[i + 2]);
      }
    }
    end := WalkDescends(g, order, w[1..], next);
  }
}
