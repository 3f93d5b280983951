/** The registry as a machine over dependency graphs (manager.go): what Register, Unregister, Enable,
    Disable, UpdateSkill and the batch loader do to the graph, and what every run keeps. */
module Registry {
  import opened DependencyGraph
  import opened Resolver

  /** One manager call. The flags carry what the graph does not show: whether the skill's fields validate,
      and whether the storage call succeeds. */
  datatype Operation =
    | Register(id: string, dependencies: seq<string>, valid: bool, saved: bool)
    | Unregister(id: string, deleted: bool)
    | Enable(id: string)
    | Disable(id: string)
    | Update(id: string, dependencies: seq<string>, valid: bool, saved: bool)

  ghost predicate HasDependents(g: Graph, id: string) {
    exists x :: Edge(g, x, id)
  }

  /** The answer of ValidateSkillDependencies: an empty list is not examined at all. */
  ghost predicate DependenciesAccepted(g: Graph, id: string, dependencies: seq<string>) {
    dependencies == [] || Resolvable(Extended(g, id, dependencies), g.Keys, id)
  }

  ghost predicate Succeeds(g: Graph, op: Operation) {
    match op
    case Register(id, deps, valid, saved) => valid && id !in g && DependenciesAccepted(g, id, deps) && saved
    case Unregister(id, deleted) => id in g && !HasDependents(g, id) && deleted
    case Enable(id) => id in g
    case Disable(id) => id in g
    case Update(id, deps, valid, saved) => id in g && valid && saved
  }

  ghost function Step(g: Graph, op: Operation): Graph {
    if !Succeeds(g, op) then g else
      match op
      case Register(id, deps, _, _) => g[id := deps]
      case Unregister(id, _) => g - {id}
      case Enable(_) => g
      case Disable(_) => g
      case Update(id, deps, _, _) => g[id := deps]
  }

  ghost function Run(g: Graph, ops: seq<Operation>): Graph
    decreases ops
  {
    if ops == [] then g else Run(Step(g, ops[0]), ops[1..])
  }

  // ---------- Register ----------

  /** In a consistent registry the whole search boils down to a look-up of the direct dependencies. */
  lemma FreshAccepted(g: Graph, id: string, deps: seq<string>)
    requires Consistent(g) && id !in g
    ensures DependenciesAccepted(g, id, deps) <==> forall d :: d in deps ==> d in g
  {
    var h := Extended(g, id, deps);
    assert [] + deps == deps;
    if forall d :: d in deps ==> d in g {
      FreshKeepsConsistent(g, id, deps);
      forall y | Reaches(h, id, y)
        ensures y in g
      {
        var z := FirstEdge(h, id, y);
        if z != y {
          ReachesIsOld(g, id, deps, z, y);
        }
      }
    } else if deps != [] {
      var d :| d in deps && d !in g;
      EdgeReaches(h, id, d);
    }
  }

  /** From a registered skill, the new entry of an unused identifier cannot be reached. */
  lemma ReachesIsOld(g: Graph, id: string, deps: seq<string>, x: string, y: string)
    requires Closed(g) && id !in g && x in g
    requires Reaches(g[id := deps], x, y)
    ensures y in g
  {
    forall v, w | v in g.Keys && Edge(g[id := deps], v, w)
      ensures w in g.Keys
    {
      assert Edge(g, v, w);
    }
    StaysIn(g[id := deps], g.Keys, x, y);
  }

  // ---------- UpdateSkill ----------

  /** UpdateSkill does not consult the resolver. The graph stays consistent exactly when the resolver,
      asked about the new dependency list, would have accepted it. */
  lemma UpdateConsistentIff(g: Graph, id: string, deps: seq<string>)
    requires Consistent(g) && id in g
    ensures Consistent(g[id := deps]) <==> DependenciesAccepted(g, id, deps)
  {
    if deps == [] {
      SmallerKeepsConsistent(g, id, deps);
    } else if DependenciesAccepted(g, id, deps) {
      AcceptedUpdateConsistent(g, id, deps);
    } else if Consistent(g[id := deps]) {
      ConsistentUpdateAccepted(g, id, deps);
    }
  }

  /** Dropping dependencies keeps the invariant. */
  lemma SmallerKeepsConsistent(g: Graph, id: string, deps: seq<string>)
    requires Consistent(g) && id in g
    requires forall d :: d in deps ==> d in g[id]
    ensures Consistent(g[id := deps])
  {
    var h := g[id := deps];
    assert forall v, y :: Edge(h, v, y) ==> Edge(g, v, y);
    forall x
      ensures !OnCycle(h, x)
    {
      if OnCycle(h, x) {
        ReachesMonotone(h, g, x, x);
        assert OnCycle(g, x);
      }
    }
  }

  lemma AcceptedUpdateConsistent(g: Graph, id: string, deps: seq<string>)
    requires Consistent(g) && id in g
    requires Resolvable(Extended(g, id, deps), g.Keys, id)
    ensures Consistent(g[id := deps])
  {
    var h, e := g[id := deps], Extended(g, id, deps);
    assert forall v, y :: Edge(h, v, y) ==> Edge(e, v, y);
    forall x, y | Edge(h, x, y)
      ensures y in h
    {
      if x == id {
        EdgeReaches(e, x, y);
      } else {
        assert Edge(g, x, y);
      }
    }
    forall x
      ensures !OnCycle(h, x)
    {
      if OnCycle(h, x) {
        var p :| Path(h, p) && p[0] == x && p[|p| - 1] == x;
        AvoidsOrPasses(h, g, id, x, x, p);
        assert !OnCycle(g, x);
        assert Reaches(h, id, x);
        ReachesMonotone(h, e, id, x);
        ReachesMonotone(h, e, x, x);
        assert OnCycle(e, x);
      }
    }
  }

  lemma ConsistentUpdateAccepted(g: Graph, id: string, deps: seq<string>)
    requires Consistent(g) && id in g && Consistent(g[id := deps])
    ensures Resolvable(Extended(g, id, deps), g.Keys, id)
  {
    var h, e := g[id := deps], Extended(g, id, deps);
    forall x, y | Edge(e, x, y)
      ensures y in g
    {
      assert Edge(g, x, y) || Edge(h, x, y);
    }
    forall y | Reaches(e, id, y)
      ensures y in g.Keys
    {
      StaysIn(e, g.Keys, id, y);
    }
    forall y
      ensures !OnCycle(e, y)
    {
      if OnCycle(e, y) {
        var p :| Path(e, p) && p[0] == y && p[|p| - 1] == y;
        AvoidsOrPasses(e, h, id, y, y, p);
        assert !OnCycle(h, y);
        ReachesOrIsMonotone(h, e, y, id);
        ThenReachesOrIs(e, id, y, id);
        NoReturn(g, h, e, id);
      }
    }
  }

  /** When e offers below pivot only what g or h offers, and agrees with both elsewhere, it has no cycle
      through pivot unless one of them does. */
  lemma NoReturn(g: Graph, h: Graph, e: Graph, pivot: string)
    requires forall v, y :: v != pivot && Edge(e, v, y) ==> Edge(g, v, y) && Edge(h, v, y)
    requires forall y :: Edge(e, pivot, y) ==> Edge(g, pivot, y) || Edge(h, pivot, y)
    requires !OnCycle(g, pivot) && !OnCycle(h, pivot)
    ensures !OnCycle(e, pivot)
  {
    if OnCycle(e, pivot) {
      var z := FirstEdge(e, pivot, pivot);
      var f := if Edge(g, pivot, z) then g else h;
      EdgeReaches(f, pivot, z);
      if z != pivot {
        var p :| Path(e, p) && p[0] == z && p[|p| - 1] == pivot;
        AvoidsOrPasses(e, f, pivot, z, pivot, p);
        ThenReachesOrIs(f, pivot, z, pivot);
      }
    }
  }

  const TWO_SKILLS: Graph := map["a" := [], "b" := ["a"]]

  lemma TwoSkillsRun()
    ensures Run(map[], [Register("a", [], true, true), Register("b", ["a"], true, true)]) == TWO_SKILLS
    ensures Consistent(TWO_SKILLS)
  {
    var first, second := Register("a", [], true, true), Register("b", ["a"], true, true);
    var empty: Graph := map[];
    var one: Graph := map["a" := []];
    RankedAcyclic(empty, map[]);
    FreshKeepsConsistent(empty, "a", []);
    assert Step(empty, first) == one;
    FreshAccepted(one, "b", ["a"]);
    FreshKeepsConsistent(one, "b", ["a"]);
    assert Step(one, second) == TWO_SKILLS;
    assert [first, second][1..] == [second] && [second][1..] == [];
    assert Run(one, [second]) == Run(TWO_SKILLS, []);
  }

  /** Two registrations and one update that UpdateSkill accepts: a cycle, and a missing dependency. */
  lemma UpdateCanBreak()
    ensures var g := Run(map[], [Register("a", [], true, true), Register("b", ["a"], true, true)]);
            && Consistent(g)
            && !Acyclic(Step(g, Update("a", ["b"], true, true)))
            && !Closed(Step(g, Update("a", ["c"], true, true)))
  {
    TwoSkillsRun();
    var loop := Step(TWO_SKILLS, Update("a", ["b"], true, true));
    assert Edge(loop, "a", "b") && Edge(loop, "b", "a");
    EdgeReaches(loop, "a", "b");
    EdgeReaches(loop, "b", "a");
    ReachesTransitive(loop, "a", "b", "a");
    assert OnCycle(loop, "a");
    assert Edge(Step(TWO_SKILLS, Update("a", ["c"], true, true)), "a", "c");
  }

  // ---------- Every run ----------

  /** The caller's side of the bargain: an update only carries dependencies the resolver would accept. */
  ghost predicate Careful(g: Graph, op: Operation) {
    op.Update? && Succeeds(g, op) ==> DependenciesAccepted(g, op.id, op.dependencies)
  }

  ghost predicate CarefulRun(g: Graph, ops: seq<Operation>)
    decreases ops
  {
    ops == [] || (Careful(g, ops[0]) && CarefulRun(Step(g, ops[0]), ops[1..]))
  }

  /** One step keeps the invariant exactly when it is careful. */
  lemma StepConsistentIff(g: Graph, op: Operation)
    requires Consistent(g)
    ensures Consistent(Step(g, op)) <==> Careful(g, op)
  {
    if Succeeds(g, op) {
      match op
      case Register(id, deps, _, _) =>
        FreshAccepted(g, id, deps);
        FreshKeepsConsistent(g, id, deps);
      case Unregister(id, _) =>
        RemovalKeepsConsistent(g, id);
      case Update(id, deps, _, _) =>
        UpdateConsistentIff(g, id, deps);
      case _ =>
    }
  }

  lemma {:induction false} RunKeepsConsistent(g: Graph, ops: seq<Operation>)
    requires Consistent(g) && CarefulRun(g, ops)
    ensures Consistent(Run(g, ops))
    decreases ops
  {
    if ops != [] {
      StepConsistentIff(g, ops[0]);
      RunKeepsConsistent(Step(g, ops[0]), ops[1..]);
    }
  }

  /** From an empty manager: closed and acyclic after every careful run; and in such a registry a fresh,
      valid skill is refused for its dependencies only when a direct one is missing. */
  lemma EveryRunConsistent(ops: seq<Operation>, id: string, deps: seq<string>)
    requires CarefulRun(map[], ops)
    ensures var g := Run(map[], ops);
            && Consistent(g)
            && (Succeeds(g, Register(id, deps, true, true)) <==> id !in g && forall d :: d in deps ==> d in g)
  {
    var empty: Graph := map[];
    RankedAcyclic(empty, map[]);
    RunKeepsConsistent(empty, ops);
    var g := Run(empty, ops);
    if id !in g {
      FreshAccepted(g, id, deps);
    }
  }

  // ---------- Which graphs a registry can hold ----------

  lemma {:induction false} RunThen(g: Graph, ops: seq<Operation>, last: Operation)
    requires CarefulRun(g, ops) && Careful(Run(g, ops), last)
    ensures CarefulRun(g, ops + [last]) && Run(g, ops + [last]) == Step(Run(g, ops), last)
    decreases ops
  {
    var all := ops + [last];
    if ops == [] {
      assert all == [last] && all[1..] == [];
    } else {
      assert all[0] == ops[0] && all[1..] == ops[1..] + [last];
      RunThen(Step(g, ops[0]), ops[1..], last);
    }
  }

  /** Every consistent graph is built by registrations alone. */
  lemma {:induction false} ConsistentIsReachable(g: Graph) returns (ops: seq<Operation>)
    requires Consistent(g)
    ensures CarefulRun(map[], ops) && Run(map[], ops) == g
    decreases |g|
  {
    if g == map[] {
      ops := [];
    } else {
      var id := SomeoneUnneeded(g);
      var rest := g - {id};
      RemovalKeepsConsistent(g, id);
      assert rest.Keys == g.Keys - {id} && |rest| == |g| - 1;
      var before := ConsistentIsReachable(rest);
      var last := Register(id, g[id], true, true);
      SelfFree(g, id);
      FreshAccepted(rest, id, g[id]);
      assert rest[id := g[id]] == g;
      RunThen(map[], before, last);
      ops := before + [last];
    }
  }

  lemma SelfFree(g: Graph, id: string)
    requires Consistent(g) && id in g && forall x :: !Edge(g, x, id)
    ensures forall d :: d in g[id] ==> d in g && d != id
  {
    forall d | d in g[id]
      ensures d in g && d != id
    {
      assert Edge(g, id, d);
    }
  }

  /** Consistency is exact: the graphs careful runs reach from an empty manager are the consistent ones. */
  lemma ReachableIffConsistent(g: Graph)
    ensures (exists ops :: CarefulRun(map[], ops) && Run(map[], ops) == g) <==> Consistent(g)
  {
    var empty: Graph := map[];
    RankedAcyclic(empty, map[]);
    if ops :| CarefulRun(empty, ops) && Run(empty, ops) == g {
      RunKeepsConsistent(empty, ops);
    }
    if Consistent(g) {
      var ops := ConsistentIsReachable(g);
    }
  }

  // ---------- Registration ranks ----------

  /** The graph with the moment each skill was last registered. */
  datatype Ranked = Ranked(graph: Graph, rank: map<string, nat>, clock: nat)

  ghost predicate RankFalls(r: Ranked) {
    && r.rank.Keys == r.graph.Keys
    && (forall x :: x in r.rank ==> r.rank[x] < r.clock)
    && (forall x, y :: Edge(r.graph, x, y) ==> y in r.rank && r.rank[y] < r.rank[x])
  }

  ghost function RankedStep(r: Ranked, op: Operation): Ranked {
    var g := Step(r.graph, op);
    if !Succeeds(r.graph, op) then r
    else if op.Register? then Ranked(g, r.rank[op.id := r.clock], r.clock + 1)
    else if op.Unregister? then Ranked(g, r.rank - {op.id}, r.clock)
    else Ranked(g, r.rank, r.clock)
  }

  ghost function RankedRun(r: Ranked, ops: seq<Operation>): Ranked
    decreases ops
  {
    if ops == [] then r else RankedRun(RankedStep(r, ops[0]), ops[1..])
  }

  /** No update adds a dependency its skill did not already have. */
  ghost predicate AddsNothing(g: Graph, ops: seq<Operation>)
    decreases ops
  {
    ops == [] ||
    ((ops[0].Update? && Succeeds(g, ops[0]) ==> forall d :: d in ops[0].dependencies ==> d in g[ops[0].id])
     && AddsNothing(Step(g, ops[0]), ops[1..]))
  }

  /** Dependencies were always registered before the skills that need them, also after an identifier
      is unregistered and registered again. */
  lemma {:induction false} RanksFallOnEveryRun(r: Ranked, ops: seq<Operation>)
    requires RankFalls(r) && AddsNothing(r.graph, ops)
    ensures RankFalls(RankedRun(r, ops)) && RankedRun(r, ops).graph == Run(r.graph, ops)
    ensures Consistent(Run(r.graph, ops))
    decreases ops
  {
    RankedAcyclic(r.graph, r.rank);
    if ops != [] {
      var op := ops[0];
      if op.Register? && Succeeds(r.graph, op) {
        FreshAccepted(r.graph, op.id, op.dependencies);
      } else if op.Unregister? && Succeeds(r.graph, op) {
        assert forall x :: !Edge(r.graph, x, op.id);
      }
      StepRankFalls(r, op);
      RanksFallOnEveryRun(RankedStep(r, op), ops[1..]);
    }
  }

  lemma StepRankFalls(r: Ranked, op: Operation)
    requires RankFalls(r)
    requires op.Register? && Succeeds(r.graph, op) ==> forall d :: d in op.dependencies ==> d in r.graph
    requires op.Update? && Succeeds(r.graph, op) ==> forall d :: d in op.dependencies ==> d in r.graph[op.id]
    ensures RankFalls(RankedStep(r, op))
  {
  }

  // ---------- Emptying the registry ----------

  function UnregisterAll(order: seq<string>): seq<Operation> {
    seq(|order|, i requires 0 <= i < |order| => Unregister(order[i], true))
  }

  /** Some order of exactly |g| Unregister calls, each of them successful, empties an acyclic registry, even
      one with dangling dependencies. */
  lemma {:induction false} CanBeEmptied(g: Graph) returns (order: seq<string>)
    requires Acyclic(g)
    ensures |order| == |g| && Run(g, UnregisterAll(order)) == map[]
    decreases |g|
  {
    if g == map[] {
      order := [];
    } else {
      var id := SomeoneUnneeded(g);
      var op := Unregister(id, true);
      assert Succeeds(g, op);
      RemovalKeepsAcyclic(g, id);
      assert (g - {id}).Keys == g.Keys - {id};
      assert |g - {id}| == |g| - 1;
      var rest := CanBeEmptied(g - {id});
      order := [id] + rest;
      assert UnregisterAll(order)[1..] == UnregisterAll(rest);
    }
  }

  /** Unregister calls cannot break a cycle: each skill on it is needed by another one on it. */
  lemma {:induction false} CyclesStay(g: Graph, order: seq<string>)
    requires !Acyclic(g)
    ensures !Acyclic(Run(g, UnregisterAll(order)))
    decreases |order|
  {
    if order != [] {
      var ops := UnregisterAll(order);
      assert ops[1..] == UnregisterAll(order[1..]);
      if Succeeds(g, ops[0]) {
        assert forall x :: !Edge(g, x, order[0]);
        RemovalKeepsCycles(g, order[0]);
      }
      CyclesStay(Step(g, ops[0]), order[1..]);
    }
  }

  /** What a careless update costs: a registry can be emptied by Unregister calls exactly when it is acyclic. */
  lemma EmptiableIffAcyclic(g: Graph)
    ensures (exists order :: Run(g, UnregisterAll(order)) == map[]) <==> Acyclic(g)
  {
    var empty: Graph := map[];
    RankedAcyclic(empty, map[]);
    if order :| Run(g, UnregisterAll(order)) == map[] {
      if !Acyclic(g) {
        CyclesStay(g, order);
      }
    }
    if Acyclic(g) {
      var order := CanBeEmptied(g);
    }
  }

  // ---------- The batch loader ----------

  /** What the loop sees of one loaded skill. */
  datatype Entry = Entry(id: string, dependencies: seq<string>, valid: bool, saved: bool)

  function AsRegister(e: Entry): Operation {
    Register(e.id, e.dependencies, e.valid, e.saved)
  }

  /** An entry lets the loop go on when it registers, or when it is valid and already registered. */
  ghost predicate Passes(g: Graph, e: Entry) {
    Succeeds(g, AsRegister(e)) || (e.valid && e.id in g)
  }

  /** The loop: register one after another, skip duplicates, stop at the first real error. */
  ghost function Load(g: Graph, list: seq<Entry>): (Graph, bool)
    decreases list
  {
    if list == [] then (g, true)
    else if !Passes(g, list[0]) then (g, false)
    else Load(Step(g, AsRegister(list[0])), list[1..])
  }

  /** The graph after a prefix of the list: first occurrences win, older entries are untouched. */
  function Merged(g: Graph, list: seq<Entry>): Graph
    decreases list
  {
    if list == [] then g
    else
      var e := list[0];
      Merged(if e.id in g then g else g[e.id := e.dependencies], list[1..])
  }

  lemma {:induction false} MergedKeys(g: Graph, list: seq<Entry>)
    ensures Merged(g, list).Keys == g.Keys + IdsOf(list)
    ensures forall id :: id in g ==> Merged(g, list)[id] == g[id]
    decreases list
  {
    if list != [] {
      var e := list[0];
      MergedKeys(if e.id in g then g else g[e.id := e.dependencies], list[1..]);
      IdsOfCons(list);
    }
  }

  lemma IdsOfCons(list: seq<Entry>)
    requires list != []
    ensures IdsOf(list) == {list[0].id} + IdsOf(list[1..])
  {
  }

  /** The entry of a new identifier is the one of its first occurrence in the list. */
  lemma {:induction false} FirstOccurrenceWins(g: Graph, list: seq<Entry>, i: nat)
    requires i < |list| && list[i].id !in g.Keys + IdsOf(list[..i])
    ensures list[i].id in Merged(g, list) && Merged(g, list)[list[i].id] == list[i].dependencies
    decreases list
  {
    var e := list[0];
    var next := if e.id in g then g else g[e.id := e.dependencies];
    if i == 0 {
      MergedKeys(next, list[1..]);
    } else {
      assert list[..i][0] == e && list[..i][1..] == list[1..][..i - 1];
      IdsOfCons(list[..i]);
      FirstOccurrenceWins(next, list[1..], i - 1);
    }
  }

  /** Each entry passes in the graph its predecessors have built. */
  ghost predicate EachPasses(g: Graph, list: seq<Entry>) {
    forall i :: 0 <= i < |list| ==> Passes(Merged(g, list[..i]), list[i])
  }

  lemma MergedCons(g: Graph, list: seq<Entry>, i: nat)
    requires i < |list| && Passes(g, list[0])
    ensures Merged(g, list[..i + 1]) == Merged(Step(g, AsRegister(list[0])), list[1..][..i])
  {
    assert list[..i + 1][0] == list[0] && list[..i + 1][1..] == list[1..][..i];
  }

  lemma EachPassesCons(g: Graph, list: seq<Entry>)
    requires list != [] && Passes(g, list[0])
    ensures EachPasses(g, list) <==> EachPasses(Step(g, AsRegister(list[0])), list[1..])
  {
    var next, tail := Step(g, AsRegister(list[0])), list[1..];
    forall i | 0 <= i < |tail|
      ensures Passes(Merged(g, list[..i + 1]), list[i + 1]) <==> Passes(Merged(next, tail[..i]), tail[i])
    {
      MergedCons(g, list, i);
    }
    if EachPasses(g, list) {
      forall i | 0 <= i < |tail|
        ensures Passes(Merged(next, tail[..i]), tail[i])
      {
        assert Passes(Merged(g, list[..i + 1]), list[i + 1]);
      }
    }
    if EachPasses(next, tail) {
      forall i | 0 <= i < |list|
        ensures Passes(Merged(g, list[..i]), list[i])
      {
        if i > 0 {
          assert Passes(Merged(next, tail[..i - 1]), tail[i - 1]);
        } else {
          assert Merged(g, list[..0]) == g;
        }
      }
    }
  }

  /** From any registry, the loop succeeds exactly when each entry passes in turn, and then has merged the
      whole list. */
  lemma {:induction false} LoadSucceedsIff(g: Graph, list: seq<Entry>)
    ensures Load(g, list).1 <==> EachPasses(g, list)
    ensures Load(g, list).1 ==> Load(g, list).0 == Merged(g, list)
    decreases list
  {
    if list != [] {
      if Passes(g, list[0]) {
        EachPassesCons(g, list);
        LoadSucceedsIff(Step(g, AsRegister(list[0])), list[1..]);
      } else {
        assert Merged(g, list[..0]) == g && !Passes(Merged(g, list[..0]), list[0]);
      }
    }
  }

  /** On failure the loop stopped at the first entry that does not pass, having merged exactly the entries
      before it. */
  lemma {:induction false} LoadStopsAtFirstMisfit(g: Graph, list: seq<Entry>) returns (k: nat)
    requires !Load(g, list).1
    ensures k < |list| && !Passes(Merged(g, list[..k]), list[k]) && Load(g, list).0 == Merged(g, list[..k])
    ensures forall i :: 0 <= i < k ==> Passes(Merged(g, list[..i]), list[i])
    decreases list
  {
    if Passes(g, list[0]) {
      var next, tail := Step(g, AsRegister(list[0])), list[1..];
      var j := LoadStopsAtFirstMisfit(next, tail);
      k := j + 1;
      MergedCons(g, list, j);
      forall i | 0 <= i < k
        ensures Passes(Merged(g, list[..i]), list[i])
      {
        if i > 0 {
          MergedCons(g, list, i - 1);
          assert Passes(Merged(next, tail[..i - 1]), tail[i - 1]);
        } else {
          assert Merged(g, list[..0]) == g;
        }
      }
    } else {
      k := 0;
      assert Merged(g, list[..0]) == g;
    }
  }

  function IdsOf(list: seq<Entry>): set<string> {
    set e | e in list :: e.id
  }

  /** Every entry is valid; each first occurrence of a new identifier is saved and names only skills
      registered before it. */
  ghost predicate WellOrdered(known: set<string>, list: seq<Entry>) {
    forall i :: 0 <= i < |list| ==> Fits(known + IdsOf(list[..i]), list[i])
  }

  predicate Fits(known: set<string>, e: Entry) {
    e.valid && (e.id !in known ==> e.saved && forall d :: d in e.dependencies ==> d in known)
  }

  /** From a consistent registry that is a look-up of direct dependencies, and the graph stays consistent
      whether or not the loop succeeds. */
  lemma {:induction false} ConsistentLoad(g: Graph, list: seq<Entry>)
    requires Consistent(g)
    ensures Load(g, list).1 <==> WellOrdered(g.Keys, list)
    ensures Consistent(Load(g, list).0)
    decreases list
  {
    if list != [] {
      var e := list[0];
      PassesIffFits(g, e);
      WellOrderedCons(g.Keys, list);
      if Passes(g, e) {
        var next := Step(g, AsRegister(e));
        StepConsistentIff(g, AsRegister(e));
        assert next.Keys == g.Keys + {e.id};
        ConsistentLoad(next, list[1..]);
      }
    }
  }

  lemma PassesIffFits(g: Graph, e: Entry)
    requires Consistent(g)
    ensures Passes(g, e) <==> Fits(g.Keys, e)
  {
    if e.id !in g {
      FreshAccepted(g, e.id, e.dependencies);
    }
  }

  lemma IdsOfPrefix(known: set<string>, list: seq<Entry>, i: nat)
    requires i < |list|
    ensures known + IdsOf(list[..i + 1]) == known + {list[0].id} + IdsOf(list[1..][..i])
  {
    assert list[..i + 1][1..] == list[1..][..i];
    IdsOfCons(list[..i + 1]);
  }

  lemma WellOrderedCons(known: set<string>, list: seq<Entry>)
    requires list != []
    ensures WellOrdered(known, list) <==> Fits(known, list[0]) && WellOrdered(known + {list[0].id}, list[1..])
  {
    var more, tail := known + {list[0].id}, list[1..];
    assert known + IdsOf(list[..0]) == known;
    if WellOrdered(known, list) {
      assert Fits(known + IdsOf(list[..0]), list[0]);
      forall i | 0 <= i < |tail|
        ensures Fits(more + IdsOf(tail[..i]), tail[i])
      {
        IdsOfPrefix(known, list, i);
        assert Fits(known + IdsOf(list[..i + 1]), list[i + 1]);
      }
    }
    if Fits(known, list[0]) && WellOrdered(more, tail) {
      forall i | 0 <= i < |list|
        ensures Fits(known + IdsOf(list[..i]), list[i])
      {
        if i > 0 {
          IdsOfPrefix(known, list, i - 1);
          assert Fits(more + IdsOf(tail[..i - 1]), tail[i - 1]);
        }
      }
    }
  }
}
