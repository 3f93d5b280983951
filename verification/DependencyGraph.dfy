/** Directed graphs of skill identifiers: an edge runs from a skill to each of its dependencies. */
module DependencyGraph {

  type Graph = map<string, seq<string>>

  predicate Edge(g: Graph, x: string, y: string) {
    x in g && y in g[x]
  }

  ghost predicate Path(g: Graph, p: seq<string>) {
    |p| >= 2 && forall i :: 0 <= i < |p| - 1 ==> Edge(g, p[i], p[i + 1])
  }

  /** y is reachable from x along one or more edges. */
  ghost predicate Reaches(g: Graph, x: string, y: string) {
    exists p :: Path(g, p) && p[0] == x && p[|p| - 1] == y
  }

  ghost predicate ReachesOrIs(g: Graph, x: string, y: string) {
    x == y || Reaches(g, x, y)
  }

  ghost predicate OnCycle(g: Graph, x: string) {
    Reaches(g, x, x)
  }

  /** Everything below root is a known key, and no cycle can be entered from root. */
  ghost predicate Resolvable(g: Graph, known: set<string>, root: string) {
    && (forall y :: Reaches(g, root, y) ==> y in known)
    && (forall y :: ReachesOrIs(g, root, y) ==> !OnCycle(g, y))
  }

  ghost predicate Closed(g: Graph) {
    forall x, y :: Edge(g, x, y) ==> y in g
  }

  ghost predicate Acyclic(g: Graph) {
    forall x :: !OnCycle(g, x)
  }

  /** The registry's dependency invariant. */
  ghost predicate Consistent(g: Graph) {
    Closed(g) && Acyclic(g)
  }

  lemma EdgeReaches(g: Graph, x: string, y: string)
    requires Edge(g, x, y)
    ensures Reaches(g, x, y)
  {
    assert Path(g, [x, y]);
  }

  lemma ReachesTransitive(g: Graph, x: string, y: string, z: string)
    requires Reaches(g, x, y) && Reaches(g, y, z)
    ensures Reaches(g, x, z)
  {
    var p :| Path(g, p) && p[0] == x && p[|p| - 1] == y;
    var q :| Path(g, q) && q[0] == y && q[|q| - 1] == z;
    var r := p + q[1..];
    forall i | 0 <= i < |r| - 1
      ensures Edge(g, r[i], r[i + 1])
    {
      if i >= |p| - 1 {
        assert Edge(g, q[i - |p| + 1], q[i - |p| + 2]);
      }
    }
    assert Path(g, r);
  }

  lemma ReachesOrIsThen(g: Graph, x: string, y: string, z: string)
    requires ReachesOrIs(g, x, y) && Reaches(g, y, z)
    ensures Reaches(g, x, z)
  {
    if x != y {
      ReachesTransitive(g, x, y, z);
    }
  }

  lemma ThenReachesOrIs(g: Graph, x: string, y: string, z: string)
    requires Reaches(g, x, y) && ReachesOrIs(g, y, z)
    ensures Reaches(g, x, z)
  {
    if y != z {
      ReachesTransitive(g, x, y, z);
    }
  }

  lemma PathTail(g: Graph, p: seq<string>)
    requires Path(g, p) && |p| > 2
    ensures Path(g, p[1..])
  {
  }

  /** A journey begins with one edge. */
  lemma FirstEdge(g: Graph, x: string, z: string) returns (y: string)
    requires Reaches(g, x, z)
    ensures Edge(g, x, y) && ReachesOrIs(g, y, z)
  {
    var p :| Path(g, p) && p[0] == x && p[|p| - 1] == z;
    y := p[1];
    assert Edge(g, p[0], p[1]);
    if |p| > 2 {
      var q := p[1..];
      PathTail(g, p);
    }
  }

  /** A journey inside an edge-closed set stays inside it. */
  lemma StaysIn(g: Graph, inside: set<string>, x: string, z: string)
    requires forall v, y :: v in inside && Edge(g, v, y) ==> y in inside
    requires x in inside && Reaches(g, x, z)
    ensures z in inside
  {
    var p :| Path(g, p) && p[0] == x && p[|p| - 1] == z;
    var i := 0;
    while i < |p| - 1
      invariant 0 <= i < |p| && p[i] in inside
    {
      assert Edge(g, p[i], p[i + 1]);
      i := i + 1;
    }
  }

  /** More edges, more journeys. */
  lemma ReachesMonotone(g: Graph, h: Graph, x: string, z: string)
    requires forall v, y :: Edge(g, v, y) ==> Edge(h, v, y)
    requires Reaches(g, x, z)
    ensures Reaches(h, x, z)
  {
  }

  lemma ReachesOrIsMonotone(g: Graph, h: Graph, x: string, z: string)
    requires forall v, y :: Edge(g, v, y) ==> Edge(h, v, y)
    requires ReachesOrIs(g, x, z)
    ensures ReachesOrIs(h, x, z)
  {
  }

  /** When two graphs differ only below pivot, a journey in g either survives in h or passes pivot. */
  lemma {:induction false} AvoidsOrPasses(g: Graph, h: Graph, pivot: string, x: string, z: string, p: seq<string>)
    requires forall v, y :: v != pivot && Edge(g, v, y) ==> Edge(h, v, y)
    requires Path(g, p) && p[0] == x && p[|p| - 1] == z
    ensures Reaches(h, x, z) || (ReachesOrIs(h, x, pivot) && Reaches(g, pivot, z))
    decreases |p|
  {
    if x == pivot {
    } else {
      assert Edge(g, p[0], p[1]);
      EdgeReaches(h, x, p[1]);
      if |p| > 2 {
        var q := p[1..];
        PathTail(g, p);
        AvoidsOrPasses(g, h, pivot, p[1], z, q);
        if Reaches(h, p[1], z) {
          ReachesTransitive(h, x, p[1], z);
        } else {
          ThenReachesOrIs(h, x, p[1], pivot);
        }
      }
    }
  }

  /** Adding a skill whose dependencies are registered, under an unused identifier, keeps the invariant. */
  lemma FreshKeepsConsistent(g: Graph, id: string, deps: seq<string>)
    requires Consistent(g) && id !in g
    requires forall d :: d in deps ==> d in g
    ensures Consistent(g[id := deps])
  {
    var h := g[id := deps];
    assert forall v, y :: v != id && Edge(h, v, y) ==> Edge(g, v, y);
    forall x, y | Edge(h, x, y)
      ensures y in h && y != id
    {
      if x != id {
        assert Edge(g, x, y);
      }
    }
    forall x
      ensures !OnCycle(h, x)
    {
      if OnCycle(h, x) {
        var inside := h.Keys - {id};
        var y := FirstEdge(h, x, x);
        if y != x {
          StaysIn(h, inside, y, x);
        }
        assert x != id;
        var p :| Path(h, p) && p[0] == x && p[|p| - 1] == x;
        AvoidsOrPasses(h, g, id, x, x, p);
        assert !OnCycle(g, x);
        assert ReachesOrIs(g, x, id);
        var z := FirstEdge(g, x, id);
        StaysIn(g, g.Keys, x, id);
      }
    }
  }

  /** Removing a skill creates no cycle. */
  lemma RemovalKeepsAcyclic(g: Graph, id: string)
    requires Acyclic(g)
    ensures Acyclic(g - {id})
  {
    var h := g - {id};
    assert forall v, y :: Edge(h, v, y) ==> Edge(g, v, y);
    forall x
      ensures !OnCycle(h, x)
    {
      if OnCycle(h, x) {
        ReachesMonotone(h, g, x, x);
        assert OnCycle(g, x);
      }
    }
  }

  /** Removing a skill nobody depends on keeps the invariant. */
  lemma RemovalKeepsConsistent(g: Graph, id: string)
    requires Consistent(g) && id in g
    requires forall x :: !Edge(g, x, id)
    ensures Consistent(g - {id})
  {
    RemovalKeepsAcyclic(g, id);
    assert forall v, y :: Edge(g - {id}, v, y) ==> Edge(g, v, y);
  }

  /** A skill nobody depends on lies on no cycle, so every cycle survives its removal. */
  lemma RemovalKeepsCycles(g: Graph, id: string)
    requires !Acyclic(g)
    requires forall x :: !Edge(g, x, id)
    ensures !Acyclic(g - {id})
  {
    var x :| OnCycle(g, x);
    var h := g - {id};
    var p :| Path(g, p) && p[0] == x && p[|p| - 1] == x;
    forall i | 0 <= i < |p| - 1
      ensures Edge(h, p[i], p[i + 1])
    {
      assert Edge(g, p[i], p[i + 1]);
      if i == 0 {
        assert Edge(g, p[|p| - 2], p[|p| - 2 + 1]);
      } else {
        assert Edge(g, p[i - 1], p[i - 1 + 1]);
      }
    }
    assert Path(h, p);
    assert OnCycle(h, x);
  }

  /** Every non-empty acyclic graph has a skill that no skill depends on. */
  lemma SomeoneUnneeded(g: Graph) returns (id: string)
    requires Acyclic(g) && g != map[]
    ensures id in g && forall x :: !Edge(g, x, id)
  {
    var start :| start in g;
    id := ClimbToUnneeded(g, start, {start});
  }

  /** Climbs from a skill to one that depends on it; acyclicity keeps the climb from coming back. */
  lemma {:induction false} ClimbToUnneeded(g: Graph, at: string, below: set<string>) returns (id: string)
    requires Acyclic(g)
    requires at in below && below <= g.Keys
    requires forall v :: v in below ==> ReachesOrIs(g, at, v)
    ensures id in g && forall x :: !Edge(g, x, id)
    decreases g.Keys - below
  {
    if up :| Edge(g, up, at) {
      EdgeReaches(g, up, at);
      forall v | v in below
        ensures Reaches(g, up, v)
      {
        ThenReachesOrIs(g, up, at, v);
      }
      assert !OnCycle(g, up);
      id := ClimbToUnneeded(g, up, below + {up});
    } else {
      id := at;
    }
  }

  /** A numbering that falls along every edge rules out cycles. */
  lemma RankedAcyclic(g: Graph, rank: map<string, nat>)
    requires forall x, y :: Edge(g, x, y) ==> x in rank && y in rank && rank[y] < rank[x]
    ensures Acyclic(g)
  {
    forall x
      ensures !OnCycle(g, x)
    {
      if OnCycle(g, x) {
        var p :| Path(g, p) && p[0] == x && p[|p| - 1] == x;
        var i := 1;
        assert Edge(g, p[0], p[1]);
        while i < |p| - 1
          invariant 1 <= i < |p| && p[i] in rank && rank[p[i]] < rank[x]
        {
          assert Edge(g, p[i], p[i + 1]);
          i := i + 1;
        }
      }
    }
  }
}
