/** The dependency resolver (validator.go): a depth-first search over two heap-held marks. */
module Resolver {
  import opened Skills
  import opened DependencyGraph

  /** The dependency graph of a skill map. */
  function GraphOf(skills: map<string, Skill>): Graph {
    map id | id in skills :: skills[id].Dependencies()
  }

  function DependenciesAt(g: Graph, id: string): seq<string> {
    if id in g then g[id] else []
  }

  /** The graph one search explores: the available skills, with the root's edges extended by the list
      the caller passed in. */
  function Extended(available: Graph, root: string, dependencies: seq<string>): Graph {
    available[root := DependenciesAt(available, root) + dependencies]
  }

  /** The calls the expansion of x makes: the root walks its available list and the argument list once
      each, every other node walks its own list twice. */
  function Fanout(g: Graph, root: string, x: string): nat {
    if x !in g then 0 else if x == root then |g[x]| else 2 * |g[x]|
  }

  ghost function Sum(xs: set<string>, f: string -> nat): nat {
    if xs == {} then 0 else
      var x :| x in xs;
      f(x) + Sum(xs - {x}, f)
  }

  lemma {:induction false} SumWithout(xs: set<string>, f: string -> nat, x: string)
    requires x in xs
    ensures Sum(xs, f) == f(x) + Sum(xs - {x}, f)
    decreases xs
  {
    var y :| y in xs && Sum(xs, f) == f(y) + Sum(xs - {y}, f);
    if y != x {
      SumWithout(xs - {y}, f, x);
      SumWithout(xs - {x}, f, y);
      assert xs - {y} - {x} == xs - {x} - {y};
    }
  }

  lemma {:induction false} SumUnion(xs: set<string>, ys: set<string>, f: string -> nat)
    requires xs !! ys
    ensures Sum(xs + ys, f) == Sum(xs, f) + Sum(ys, f)
    decreases xs
  {
    if xs == {} {
      assert xs + ys == ys;
    } else {
      var x :| x in xs;
      SumWithout(xs, f, x);
      SumWithout(xs + ys, f, x);
      assert xs + ys - {x} == (xs - {x}) + ys;
      SumUnion(xs - {x}, ys, f);
    }
  }

  lemma {:induction false} SumTwice(xs: set<string>, f: string -> nat, h: string -> nat)
    requires forall x :: x in xs ==> f(x) == 2 * h(x)
    ensures Sum(xs, f) == 2 * Sum(xs, h)
    decreases xs
  {
    if xs != {} {
      var x :| x in xs;
      SumWithout(xs, f, x);
      SumWithout(xs, h, x);
      SumTwice(xs - {x}, f, h);
    }
  }

  ghost function TotalFanout(g: Graph, root: string, xs: set<string>): nat {
    Sum(xs, x => Fanout(g, root, x))
  }

  ghost function TotalOutDegree(g: Graph, xs: set<string>): nat {
    Sum(xs, x => |DependenciesAt(g, x)|)
  }

  /** The whole budget of one search: linear in the edges of the skill map. */
  lemma SearchBudget(available: Graph, root: string, dependencies: seq<string>, entered: set<string>)
    requires entered <= available.Keys + {root}
    ensures TotalFanout(Extended(available, root, dependencies), root, entered)
         <= |DependenciesAt(available, root)| + |dependencies| + 2 * TotalOutDegree(available, available.Keys - {root})
  {
    var g := Extended(available, root, dependencies);
    var f := x => Fanout(g, root, x);
    var all := available.Keys + {root};
    var others := available.Keys - {root};
    SumUnion(entered, all - entered, x => Fanout(g, root, x));
    assert entered + (all - entered) == all;
    SumWithout(all, x => Fanout(g, root, x), root);
    assert all - {root} == others;
    SumTwice(others, x => Fanout(g, root, x), x => |DependenciesAt(available, x)|);
  }

  ghost function Marked(marks: map<string, bool>): set<string> {
    set k | k in marks && marks[k]
  }

  lemma MarkSet(marks: map<string, bool>, id: string)
    ensures Marked(marks[id := true]) == Marked(marks) + {id}
    ensures Marked(marks[id := false]) == Marked(marks) - {id}
  {
  }

  lemma PushPop(open: set<string>, id: string)
    requires id !in open
    ensures open + {id} - {id} == open
  {
  }

  lemma MoveToDone(done: set<string>, open: set<string>, id: string)
    requires done !! open && id in open
    ensures done + {id} !! open - {id}
    ensures (done + {id}) + (open - {id}) == done + open
  {
  }

  /** A set of finished nodes: edge-closed, known, and free of trouble below. */
  ghost predicate Settled(g: Graph, known: set<string>, done: set<string>) {
    && done <= g.Keys
    && (forall v, y :: v in done && Edge(g, v, y) ==> y in done)
    && (forall v :: v in done ==> Resolvable(g, known, v))
  }

  /** A node all of whose dependencies are finished and known joins the finished nodes. */
  lemma FinishedIsSettled(g: Graph, known: set<string>, done: set<string>, x: string)
    requires Settled(g, known, done) && x !in done
    requires x in g && forall y :: Edge(g, x, y) ==> y in done && y in known
    ensures Settled(g, known, done + {x})
  {
    if OnCycle(g, x) {
      var z := FirstEdge(g, x, x);
      if z != x {
        StaysIn(g, done, z, x);
      }
    }
    forall y | Reaches(g, x, y)
      ensures y in known && !OnCycle(g, y)
    {
      var z := FirstEdge(g, x, y);
      assert Resolvable(g, known, z);
      assert ReachesOrIs(g, z, y);
    }
  }

  class DependencyResolver {
    var visited: map<string, bool>
    var stack: map<string, bool>

    constructor ()
      ensures visited == map[] && stack == map[]
    {
      visited, stack := map[], map[];
    }

    ghost function Visited(): set<string>
      reads this
    {
      Marked(visited)
    }

    ghost function OnStack(): set<string>
      reads this
    {
      Marked(stack)
    }

    /** Every node the search has entered. */
    ghost function Touched(): set<string>
      reads this
    {
      Visited() + OnStack()
    }

    method Reset()
      modifies this
      ensures visited == map[] && stack == map[]
    {
      visited, stack := map[], map[];
    }

    /** What every call, outermost or nested, finds: the finished nodes are settled, the stack holds nodes in
        progress from which the current node was reached. */
    ghost predicate InSearch(g: Graph, known: set<string>, root: string, at: string)
      reads this
    {
      && Visited() !! OnStack()
      && Settled(g, known, Visited())
      && OnStack() <= g.Keys
      && (forall s :: s in OnStack() ==> Reaches(g, s, at))
      && ReachesOrIs(g, root, at)
    }

    /** The same while a node's dependencies are followed: the node itself is now on the stack. */
    ghost predicate Expanding(g: Graph, known: set<string>, root: string, at: string)
      reads this
    {
      && Visited() !! OnStack()
      && Settled(g, known, Visited())
      && {root, at} <= OnStack() <= g.Keys
      && (forall s :: s in OnStack() ==> ReachesOrIs(g, s, at))
      && ReachesOrIs(g, root, at)
    }

    method DetectCycle(skillID: string, dependencies: seq<string>, available: map<string, Skill>,
                       ghost root: string, ghost g: Graph)
      returns (err: Option<SkillError>, ghost calls: nat)
      requires SearchGraph(g, available, root) && skillID in g
      requires InSearch(g, available.Keys, root, skillID)
      requires if skillID != root
               then root in OnStack() && dependencies == available[skillID].Dependencies()
               else root in OnStack() || g[root] == DependenciesAt(GraphOf(available), root) + dependencies
      modifies this
      ensures err.None? ==> OnStack() == old(OnStack()) && old(Visited()) + {skillID} <= Visited()
      ensures err.None? ==> Visited() !! OnStack() && Settled(g, available.Keys, Visited())
      ensures err.Some? ==> Explains(g, available.Keys, root, err.value)
      ensures old(Touched()) <= Touched() <= g.Keys
      ensures calls <= 1 + TotalFanout(g, root, Touched() - old(Touched()))
      decreases g.Keys - OnStack(), 0
    {
      calls := 1;
      if skillID in stack && stack[skillID] {
        assert skillID in OnStack();
        return Some(CircularDependency(skillID)), calls;
      }
      if skillID in visited && visited[skillID] {
        assert skillID in Visited();
        return None, calls;
      }

      ghost var before := Touched();
      Enter(skillID, g, available.Keys, root);
      ghost var entered := Touched();

      // The node's own list: nothing to walk when the skill is missing or has no definition.
      var own := if skillID in available then available[skillID].Dependencies() else [];
      assert |own + dependencies| == Fanout(g, root, skillID);
      ghost var more;
      err, more := FollowBoth(skillID, own, dependencies, available, root, g);
      calls := calls + more;
      Charge(g, root, before, entered, Touched(), skillID, calls);
      if err.None? {
        Leave(skillID, g, available.Keys);
        PushPop(old(OnStack()), skillID);
      }
    }

    /** The outermost call, on a reset resolver: the answer is exact for every skill map. */
    method DetectCycleFromReset(skillID: string, dependencies: seq<string>, available: map<string, Skill>)
      returns (err: Option<SkillError>, ghost calls: nat)
      requires visited == map[] && stack == map[]
      modifies this
      ensures var g := Extended(GraphOf(available), skillID, dependencies);
              && (err.None? <==> Resolvable(g, available.Keys, skillID))
              && (err.Some? ==> Explains(g, available.Keys, skillID, err.value))
              && (err.None? ==> OnStack() == {} && skillID in Visited() && Settled(g, available.Keys, Visited()))
      ensures var g := GraphOf(available);
              calls <= 1 + |DependenciesAt(g, skillID)| + |dependencies| + 2 * TotalOutDegree(g, g.Keys - {skillID})
    {
      ghost var g := Extended(GraphOf(available), skillID, dependencies);
      ghost var start := Touched();
      assert Visited() == {} && OnStack() == {} && start == {};
      err, calls := DetectCycle(skillID, dependencies, available, skillID, g);
      SearchBudget(GraphOf(available), skillID, dependencies, Touched());
      assert Touched() - start == Touched();
      if err.Some? {
        ExplainedNotResolvable(g, available.Keys, skillID, err.value);
      }
    }

    /** The first assignment of DetectCycle: the node goes on the stack. */
    method Enter(skillID: string, ghost g: Graph, ghost known: set<string>, ghost root: string)
      requires InSearch(g, known, root, skillID) && skillID in g && skillID !in Touched()
      requires skillID == root || root in OnStack()
      modifies this
      ensures Expanding(g, known, root, skillID)
      ensures Visited() == old(Visited()) && OnStack() == old(OnStack()) + {skillID}
      ensures Touched() == old(Touched()) + {skillID}
      ensures g.Keys - OnStack() < g.Keys - old(OnStack())
    {
      MarkSet(stack, skillID);
      stack := stack[skillID := true];
      assert skillID in g.Keys - old(OnStack());
    }

    /** The last two assignments of DetectCycle: the node in progress becomes a finished one. */
    method Leave(skillID: string, ghost g: Graph, ghost known: set<string>)
      requires skillID in OnStack() && skillID in g
      requires Visited() !! OnStack() && Settled(g, known, Visited())
      requires forall y :: Edge(g, skillID, y) ==> y in Visited() && y in known
      modifies this
      ensures Visited() == old(Visited()) + {skillID} && OnStack() == old(OnStack()) - {skillID}
      ensures Visited() !! OnStack() && Settled(g, known, Visited())
      ensures Touched() == old(Touched())
    {
      FinishedIsSettled(g, known, Visited(), skillID);
      MarkSet(stack, skillID);
      MarkSet(visited, skillID);
      MoveToDone(Visited(), OnStack(), skillID);
      stack := stack[skillID := false];
      visited := visited[skillID := true];
    }

    /** The two loops of DetectCycle, which share one body: the node's own list, then the list passed in. */
    method FollowBoth(skillID: string, own: seq<string>, dependencies: seq<string>, available: map<string, Skill>,
                      ghost root: string, ghost g: Graph)
      returns (err: Option<SkillError>, ghost calls: nat)
      requires SearchGraph(g, available, root) && Expanding(g, available.Keys, root, skillID)
      requires forall d :: d in own + dependencies ==> Edge(g, skillID, d)
      modifies this
      ensures err.None? ==> OnStack() == old(OnStack()) && old(Visited()) <= Visited()
      ensures err.None? ==> Expanding(g, available.Keys, root, skillID)
      ensures err.None? ==> forall d :: d in own + dependencies ==> d in Visited() && d in available
      ensures err.Some? ==> Explains(g, available.Keys, root, err.value)
      ensures old(Touched()) <= Touched() <= g.Keys
      ensures calls <= |own + dependencies| + TotalFanout(g, root, Touched() - old(Touched()))
      decreases g.Keys - OnStack(), 3
    {
      err, calls := FollowAll(skillID, own, available, root, g);
      if err.None? {
        ghost var reached, more := Touched(), 0;
        err, more := FollowAll(skillID, dependencies, available, root, g);
        calls := calls + more;
        ChargeTwice(g, root, old(Touched()), reached, Touched());
      }
    }

    /** Follows each listed dependency of the node in progress. */
    method FollowAll(skillID: string, list: seq<string>, available: map<string, Skill>,
                     ghost root: string, ghost g: Graph)
      returns (err: Option<SkillError>, ghost calls: nat)
      requires SearchGraph(g, available, root) && Expanding(g, available.Keys, root, skillID)
      requires forall d :: d in list ==> Edge(g, skillID, d)
      modifies this
      ensures err.None? ==> OnStack() == old(OnStack()) && old(Visited()) <= Visited()
      ensures err.None? ==> Expanding(g, available.Keys, root, skillID)
      ensures err.None? ==> forall d :: d in list ==> d in Visited() && d in available
      ensures err.Some? ==> Explains(g, available.Keys, root, err.value)
      ensures old(Touched()) <= Touched() <= g.Keys
      ensures calls <= |list| + TotalFanout(g, root, Touched() - old(Touched()))
      decreases g.Keys - OnStack(), 2
    {
      calls := 0;
      err := None;
      ghost var start := Touched();
      assert start - start == {};
      for i := 0 to |list|
        invariant err.None? && OnStack() == old(OnStack()) && old(Visited()) <= Visited()
        invariant Expanding(g, available.Keys, root, skillID)
        invariant Followed(list, i, Visited(), available.Keys)
        invariant Charged(g, root, start, Touched(), i, calls)
      {
        ghost var done, reached, more := Visited(), Touched(), 0;
        err, more := FollowOne(skillID, list[i], available, root, g);
        ChargeTurn(g, root, start, reached, Touched(), i, calls, more);
        calls := calls + more;
        if err.Some? {
          return;
        }
        FollowedTurn(list, i, done, Visited(), available.Keys);
      }
    }

    /** The shared loop body. */
    method FollowOne(skillID: string, depID: string, available: map<string, Skill>, ghost root: string, ghost g: Graph)
      returns (err: Option<SkillError>, ghost calls: nat)
      requires SearchGraph(g, available, root) && Expanding(g, available.Keys, root, skillID)
      requires Edge(g, skillID, depID)
      modifies this
      ensures err.None? ==> OnStack() == old(OnStack()) && old(Visited()) <= Visited()
      ensures err.None? ==> Expanding(g, available.Keys, root, skillID) && depID in Visited() && depID in available
      ensures err.Some? ==> Explains(g, available.Keys, root, err.value)
      ensures old(Touched()) <= Touched() <= g.Keys
      ensures calls <= 1 + TotalFanout(g, root, Touched() - old(Touched()))
      decreases g.Keys - OnStack(), 1
    {
      EnterEdge(g, root, skillID, depID, OnStack());
      if depID !in available {
        return Some(DependencyNotFound(depID)), 0;
      }
      err, calls := DetectCycle(depID, available[depID].Dependencies(), available, root, g);
    }
  }

  /** The first n listed dependencies are finished and known. */
  ghost predicate Followed(list: seq<string>, n: nat, done: set<string>, known: set<string>)
    requires n <= |list|
  {
    forall j :: 0 <= j < n ==> list[j] in done && list[j] in known
  }

  lemma FollowedTurn(list: seq<string>, i: nat, before: set<string>, done: set<string>, known: set<string>)
    requires i < |list| && Followed(list, i, before, known) && before <= done
    requires list[i] in done && list[i] in known
    ensures Followed(list, i + 1, done, known)
  {
  }

  /** i calls were made directly, and all others are paid for by the nodes entered since start. */
  ghost predicate Charged(g: Graph, root: string, start: set<string>, now: set<string>, i: nat, calls: nat) {
    start <= now && calls <= i + TotalFanout(g, root, now - start)
  }

  lemma ChargeTurn(g: Graph, root: string, start: set<string>, reached: set<string>, now: set<string>,
                   i: nat, calls: nat, more: nat)
    requires Charged(g, root, start, reached, i, calls) && Charged(g, root, reached, now, 1, more)
    ensures Charged(g, root, start, now, i + 1, calls + more)
  {
    ChargeTwice(g, root, start, reached, now);
  }

  /** g is the graph a search from root explores: the available skills' own lists, except below root. */
  ghost predicate SearchGraph(g: Graph, available: map<string, Skill>, root: string) {
    g.Keys == available.Keys + {root} &&
    forall k :: k in available && k != root ==> g[k] == available[k].Dependencies()
  }

  /** The error points at a real fault below the root. */
  ghost predicate Explains(g: Graph, known: set<string>, root: string, error: SkillError) {
    match error
    case CircularDependency(x) => ReachesOrIs(g, root, x) && OnCycle(g, x)
    case DependencyNotFound(x) => Reaches(g, root, x) && x !in known
    case _ => false
  }

  /** A reported fault is a fault: an explained error and a clean graph exclude each other. */
  lemma ExplainedNotResolvable(g: Graph, known: set<string>, root: string, error: SkillError)
    requires Explains(g, known, root, error)
    ensures !Resolvable(g, known, root)
  {
  }

  /** Following an edge keeps the shape of the search: everything in progress leads to the next node. */
  lemma EnterEdge(g: Graph, root: string, at: string, next: string, inProgress: set<string>)
    requires Edge(g, at, next) && ReachesOrIs(g, root, at)
    requires forall s :: s in inProgress ==> ReachesOrIs(g, s, at)
    ensures Reaches(g, root, next)
    ensures forall s :: s in inProgress ==> Reaches(g, s, next)
  {
    EdgeReaches(g, at, next);
    ReachesOrIsThen(g, root, at, next);
    forall s | s in inProgress
      ensures Reaches(g, s, next)
    {
      ReachesOrIsThen(g, s, at, next);
    }
  }

  /** The expansions of two consecutive stretches of the search add up. */
  lemma ChargeTwice(g: Graph, root: string, start: set<string>, middle: set<string>, end: set<string>)
    requires start <= middle <= end
    ensures TotalFanout(g, root, middle - start) + TotalFanout(g, root, end - middle)
         == TotalFanout(g, root, end - start)
  {
    SumUnion(middle - start, end - middle, x => Fanout(g, root, x));
    assert (middle - start) + (end - middle) == end - start;
  }

  /** The node's own steps are paid for by its fanout. */
  lemma Charge(g: Graph, root: string, before: set<string>, entered: set<string>, after: set<string>,
               at: string, calls: nat)
    requires before + {at} == entered <= after && at !in before
    requires calls <= 1 + Fanout(g, root, at) + TotalFanout(g, root, after - entered)
    ensures calls <= 1 + TotalFanout(g, root, after - before)
  {
    SumWithout(after - before, x => Fanout(g, root, x), at);
    assert after - entered == (after - before) - {at};
  }
}
