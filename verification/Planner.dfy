/** Building and editing an execution plan (magna-core `planner.rs`). */
module Planning {
  import opened Basics
  import opened Steps
  import opened Semantics
  import opened Graphs

  predicate UniqueIds(steps: seq<Step>) {
    forall i, j :: 0 <= i < j < |steps| ==> steps[i].id != steps[j].id
  }

  function Ids(steps: seq<Step>): set<StepId> {
    set k | 0 <= k < |steps| :: steps[k].id
  }

  lemma IdsNext(steps: seq<Step>)
    requires steps != []
    ensures Ids(steps) == Ids(steps[..|steps|-1]) + {steps[|steps|-1].id}
    ensures UniqueIds(steps) ==> UniqueIds(steps[..|steps|-1]) && steps[|steps|-1].id !in Ids(steps[..|steps|-1])
  {
    assert forall k :: 0 <= k < |steps| - 1 ==> steps[k] == steps[..|steps|-1][k];
  }

  function ById(steps: seq<Step>): (m: map<StepId, Step>)
    ensures m.Keys == Ids(steps)
    ensures UniqueIds(steps) ==> forall k :: 0 <= k < |steps| ==> m[steps[k].id] == steps[k]
  {
    if steps == [] then map[]
    else
      var n := |steps| - 1;
      IdsNext(steps);
      ById(steps[..n])[steps[n].id := steps[n]]
  }

  /** Steps wired by the dependency ids they were created with. */
  function Registered(steps: map<StepId, Step>, batch: nat): Program {
    Program(steps, map id | id in steps :: steps[id].deps, batch)
  }

  /** The wires of the first `k` steps, and of the first `i` dependencies of the next one. */
  ghost function WiresUpTo(steps: seq<Step>, k: nat, i: nat): set<Link>
    requires k <= |steps| && (k == |steps| ==> i == 0) && (k < |steps| ==> i <= |steps[k].deps|)
  {
    (set j, d | 0 <= j < k && d in steps[j].deps :: (d, steps[j].id))
    + (if k < |steps| then set d | d in steps[k].deps[..i] :: (d, steps[k].id) else {})
  }

  ghost predicate AllFound(steps: seq<Step>) {
    forall k, d :: 0 <= k < |steps| && d in steps[k].deps ==> d in ById(steps)
  }

  /** `d` is the first dependency, in registration order, that names no registered step. */
  ghost predicate FirstMissing(steps: seq<Step>, d: StepId) {
    && d !in ById(steps)
    && exists k, i :: 0 <= k < |steps| && 0 <= i < |steps[k].deps| && steps[k].deps[i] == d
         && (forall e :: e in steps[k].deps[..i] ==> e in ById(steps))
         && (forall j, e :: 0 <= j < k && e in steps[j].deps ==> e in ById(steps))
  }

  // ----- the plan -----

  class ExecutionPlan {
    var graph: Graph
    var nodeMap: map<StepId, nat>
    var steps: map<StepId, Step>
    var batch: nat

    /** `nodeMap` is the inverse of the node slots, and every node has its step. */
    ghost predicate Valid()
      reads this
    {
      && WellFormed(graph)
      && SlotsOf(graph.nodes, nodeMap, |graph.nodes|)
      && steps.Keys == nodeMap.Keys
      && (forall id :: id in steps ==> steps[id].id == id)
    }

    constructor (graph: Graph, nodeMap: map<StepId, nat>, steps: map<StepId, Step>, batch: nat)
      ensures this.graph == graph && this.nodeMap == nodeMap && this.steps == steps && this.batch == batch
    {
      this.graph, this.nodeMap, this.steps, this.batch := graph, nodeMap, steps, batch;
    }

    method RemoveStep(id: StepId)
      requires Valid()
      modifies this
      ensures Valid()
      ensures steps == old(steps) - {id} && batch == old(batch)
      ensures Nodes(graph) == old(Nodes(graph)) - {id}
      ensures Links(graph) == set l | l in old(Links(graph)) && l.0 != id && l.1 != id
    {
      if id in nodeMap {
        var slot := nodeMap[id];
        RemoveNodeEffect(graph, slot);
        SlotKeys(graph.nodes, nodeMap);
        ghost var before := Nodes(graph);
        nodeMap := nodeMap - {id};
        graph := RemoveNode(graph, slot);
        steps := steps - {id};
        RebuildNodeMap();
        SlotKeys(graph.nodes, nodeMap);
        assert nodeMap.Keys == before - {id} == steps.Keys;
      } else {
        AbsentNode(graph, nodeMap, id);
      }
    }

    method RebuildNodeMap()
      requires WellFormed(graph)
      modifies this`nodeMap
      ensures SlotsOf(graph.nodes, nodeMap, |graph.nodes|)
    {
      nodeMap := map[];
      for slot := 0 to |graph.nodes|
        invariant SlotsOf(graph.nodes, nodeMap, slot)
      {
        nodeMap := nodeMap[graph.nodes[slot] := slot];
      }
    }

    function DependenciesOf(id: StepId): (r: seq<StepId>)
      requires Valid()
      reads this
      ensures forall d: StepId :: d in r <==> (d, id) in Links(graph)
    {
      if id in nodeMap then
        assert forall d: StepId :: d in Incoming(graph.nodes, graph.edges, nodeMap[id]) <==>
          (d, id) in Links(graph) by {
          forall d: StepId { IncomingAreLinks(graph, nodeMap[id], d); }
        }
        Incoming(graph.nodes, graph.edges, nodeMap[id])
      else
        AbsentNode(graph, nodeMap, id);
        []
    }
  }

  /** `m` sends exactly the first `n` ids of `nodes` to their slots. */
  ghost predicate SlotsOf(nodes: seq<StepId>, m: map<StepId, nat>, n: nat) {
    && n <= |nodes|
    && (forall i :: 0 <= i < n ==> nodes[i] in m && m[nodes[i]] == i)
    && (forall id :: id in m ==> m[id] < n && nodes[m[id]] == id)
  }

  lemma SlotKeys(nodes: seq<StepId>, m: map<StepId, nat>)
    requires SlotsOf(nodes, m, |nodes|)
    ensures m.Keys == Nodes(Graph(nodes, []))
  {
  }

  lemma SlotHolds(nodes: seq<StepId>, m: map<StepId, nat>, id: StepId)
    requires SlotsOf(nodes, m, |nodes|) && id in m
    ensures m[id] < |nodes| && nodes[m[id]] == id
  {
  }

  lemma AbsentNode(g: Graph, m: map<StepId, nat>, id: StepId)
    requires WellFormed(g) && SlotsOf(g.nodes, m, |g.nodes|) && id !in m
    ensures id !in Nodes(g)
    ensures forall l :: l in Links(g) ==> l.0 != id && l.1 != id
  {
    SlotKeys(g.nodes, m);
  }

  // ----- the planner -----

  class Planner {
    var steps: seq<Step>
    var batch: nat

    constructor (batch: nat)
      ensures steps == [] && this.batch == batch
    {
      steps, this.batch := [], batch;
    }

    /** Step ids must be unique. */
    method Register(step: Step)
      requires forall k :: 0 <= k < |steps| ==> steps[k].id != step.id
      modifies this`steps
      ensures steps == old(steps) + [step]
    {
      steps := steps + [step];
    }

    method Build() returns (r: Result<ExecutionPlan, PlanError>)
      requires UniqueIds(steps)
      ensures r.Ok? <==> Acyclic(Registered(ById(steps), batch))
      ensures r.Ok? ==> fresh(r.value) && r.value.Valid()
      ensures r.Ok? ==> r.value.steps == ById(steps) && r.value.batch == batch
      ensures r.Ok? ==> Represents(r.value.graph, Registered(ById(steps), batch))
      ensures r.Err? && !AllFound(steps) ==> r.error.StepNotFound? && FirstMissing(steps, r.error.id)
      ensures r.Err? && AllFound(steps) ==>
        r.error.PlanCycle? && |r.error.ids| == 1 && OnCycle(WiresUpTo(steps, |steps|, 0), r.error.ids[0])
    {
      hide WiresUpTo, Represents, OnCycle, AllFound, FirstMissing, Links, Acyclic, ById, Registered, SlotsOf,
        WellFormed;
      var wired := Wire(steps, batch);
      if wired.Err? {
        MissingIsNotAcyclic(steps, batch);
        return Err(StepNotFound(wired.error));
      }
      var (graph, nodeMap) := wired.value;
      var cycle := CheckCycle(graph, Registered(ById(steps), batch));
      if cycle.Some? {
        return Err(PlanCycle([cycle.value]));
      }
      var plan := new ExecutionPlan(graph, nodeMap, ById(steps), batch);
      OwnIds(steps);
      r := Ok(plan);
    }
  }

  lemma OwnIds(steps: seq<Step>)
    requires UniqueIds(steps)
    ensures forall id :: id in ById(steps) ==> ById(steps)[id].id == id
  {
  }

  lemma MissingIsNotAcyclic(steps: seq<Step>, batch: nat)
    requires UniqueIds(steps) && !AllFound(steps)
    ensures !Acyclic(Registered(ById(steps), batch))
  {
    FoundIsClosed(steps, batch);
  }

  /** The graph of the registered steps and the slots of their nodes. */
  method Wire(steps: seq<Step>, ghost batch: nat) returns (r: Result<(Graph, map<StepId, nat>), StepId>)
    requires UniqueIds(steps)
    ensures r.Ok? <==> AllFound(steps)
    ensures r.Err? ==> FirstMissing(steps, r.error)
    ensures r.Ok? ==>
      var (graph, nodeMap) := r.value;
      && WellFormed(graph) && SlotsOf(graph.nodes, nodeMap, |graph.nodes|) && nodeMap.Keys == ById(steps).Keys
      && Links(graph) == WiresUpTo(steps, |steps|, 0) && Represents(graph, Registered(ById(steps), batch))
  {
    hide WiresUpTo, Represents, AllFound, FirstMissing, Links, WellFormed, SlotsOf;
    var nodes, nodeMap := AddNodes(steps);
    NodesAreIds(steps, nodes, nodeMap);
    FoundIsClosed(steps, batch);
    var added := AddEdges(steps, nodes, nodeMap);
    if added.Err? {
      return Err(added.error);
    }
    var graph := Graph(nodes, added.value);
    WiresAreRegistered(steps, Registered(ById(steps), batch), graph);
    r := Ok((graph, nodeMap));
  }

  /** A step on a cycle, exactly when there is a cycle. */
  method CheckCycle(graph: Graph, ghost p: Program) returns (cycle: Option<StepId>)
    requires Represents(graph, p)
    ensures cycle.None? <==> Acyclic(p)
    ensures cycle.Some? ==> OnCycle(Links(graph), cycle.value)
  {
    hide Acyclic, OnCycle, IsTopological, IsSorted;
    LinksWithinNodes(graph);
    var sorted := TopologicalSort(Nodes(graph), Links(graph));
    if sorted.Err? {
      CycleIsNotRanked(p, Links(graph), sorted.error);
      return Some(sorted.error);
    }
    SortedIsTopological(graph, p, sorted.value);
    TopologicalIsRanked(p, sorted.value);
    cycle := None;
  }

  lemma SlotsExtend(nodes: seq<StepId>, m: map<StepId, nat>, id: StepId)
    requires SlotsOf(nodes, m, |nodes|) && id !in m
    ensures SlotsOf(nodes + [id], m[id := |nodes|], |nodes| + 1)
  {
  }

  method AddNodes(steps: seq<Step>) returns (nodes: seq<StepId>, nodeMap: map<StepId, nat>)
    requires UniqueIds(steps)
    ensures |nodes| == |steps| && forall k :: 0 <= k < |steps| ==> nodes[k] == steps[k].id
    ensures SlotsOf(nodes, nodeMap, |nodes|)
  {
    nodes, nodeMap := [], map[];
    for k := 0 to |steps|
      invariant |nodes| == k && forall j :: 0 <= j < k ==> nodes[j] == steps[j].id
      invariant SlotsOf(nodes, nodeMap, |nodes|)
    {
      SlotsExtend(nodes, nodeMap, steps[k].id);
      nodeMap := nodeMap[steps[k].id := |nodes|];
      nodes := nodes + [steps[k].id];
    }
  }

  lemma NodesAreIds(steps: seq<Step>, nodes: seq<StepId>, m: map<StepId, nat>)
    requires UniqueIds(steps) && |nodes| == |steps| && forall k :: 0 <= k < |steps| ==> nodes[k] == steps[k].id
    requires SlotsOf(nodes, m, |nodes|)
    ensures Distinct(nodes) && Nodes(Graph(nodes, [])) == Ids(steps) && m.Keys == Ids(steps)
  {
    SlotKeys(nodes, m);
    forall id ensures id in nodes <==> id in Ids(steps) {
      if id in nodes {
        var k :| 0 <= k < |nodes| && nodes[k] == id;
        assert steps[k].id == id;
      }
      if id in Ids(steps) {
        var k :| 0 <= k < |steps| && steps[k].id == id;
        assert nodes[k] == id;
      }
    }
  }

  lemma LinksExtend(nodes: seq<StepId>, edges: seq<Edge>, e: Edge)
    requires WellFormed(Graph(nodes, edges)) && e.0 < |nodes| && e.1 < |nodes|
    ensures WellFormed(Graph(nodes, edges + [e]))
    ensures Links(Graph(nodes, edges + [e])) == Links(Graph(nodes, edges)) + {(nodes[e.0], nodes[e.1])}
  {
    assert forall x :: x in edges + [e] <==> x in edges || x == e;
    assert e in edges + [e];
  }

  method AddEdges(steps: seq<Step>, nodes: seq<StepId>, nodeMap: map<StepId, nat>)
    returns (r: Result<seq<Edge>, StepId>)
    requires UniqueIds(steps) && Distinct(nodes) && SlotsOf(nodes, nodeMap, |nodes|)
    requires nodeMap.Keys == ById(steps).Keys
    ensures r.Ok? <==> AllFound(steps)
    ensures r.Ok? ==> WellFormed(Graph(nodes, r.value)) && Links(Graph(nodes, r.value)) == WiresUpTo(steps, |steps|, 0)
    ensures r.Err? ==> FirstMissing(steps, r.error)
  {
    var edges: seq<Edge> := [];
    assert Links(Graph(nodes, edges)) == WiresUpTo(steps, 0, 0);
    hide ById, Links, WiresUpTo, UniqueIds, Distinct, SlotsOf;
    for k := 0 to |steps|
      invariant WellFormed(Graph(nodes, edges)) && Links(Graph(nodes, edges)) == WiresUpTo(steps, k, 0)
      invariant FoundUpTo(steps, k)
    {
      var more := AddStepEdges(steps, k, nodes, nodeMap, edges);
      if more.Err? {
        return Err(more.error);
      }
      edges := more.value;
    }
    r := Ok(edges);
  }

  /** The edges into one step. */
  method AddStepEdges(steps: seq<Step>, k: nat, nodes: seq<StepId>, nodeMap: map<StepId, nat>, edges: seq<Edge>)
    returns (r: Result<seq<Edge>, StepId>)
    requires k < |steps| && UniqueIds(steps) && SlotsOf(nodes, nodeMap, |nodes|) && nodeMap.Keys == ById(steps).Keys
    requires WellFormed(Graph(nodes, edges)) && Links(Graph(nodes, edges)) == WiresUpTo(steps, k, 0)
    requires FoundUpTo(steps, k)
    ensures r.Ok? ==> WellFormed(Graph(nodes, r.value)) && Links(Graph(nodes, r.value)) == WiresUpTo(steps, k + 1, 0)
    ensures r.Ok? ==> FoundUpTo(steps, k + 1)
    ensures r.Err? ==> FirstMissing(steps, r.error)
  {
    hide ById, Links, WiresUpTo, UniqueIds;
    var deps, added := steps[k].deps, edges;
    OwnId(steps, k);
    for i := 0 to |deps|
      invariant WellFormed(Graph(nodes, added)) && Links(Graph(nodes, added)) == WiresUpTo(steps, k, i)
      invariant forall d :: d in deps[..i] ==> d in ById(steps)
    {
      if deps[i] !in nodeMap {
        return Err(deps[i]);
      }
      var e := (nodeMap[deps[i]], nodeMap[steps[k].id]);
      LinksExtend(nodes, added, e);
      NextWire(steps, k, i);
      added := added + [e];
    }
    LastWire(steps, k);
    r := Ok(added);
  }

  ghost predicate FoundUpTo(steps: seq<Step>, k: nat)
    requires k <= |steps|
  {
    forall j, d :: 0 <= j < k && d in steps[j].deps ==> d in ById(steps)
  }

  lemma OwnId(steps: seq<Step>, k: nat)
    requires k < |steps|
    ensures steps[k].id in ById(steps)
  {
  }

  lemma NextWire(steps: seq<Step>, k: nat, i: nat)
    requires k < |steps| && i < |steps[k].deps|
    ensures WiresUpTo(steps, k, i+1) == WiresUpTo(steps, k, i) + {(steps[k].deps[i], steps[k].id)}
  {
    assert steps[k].deps[..i+1] == steps[k].deps[..i] + [steps[k].deps[i]];
  }

  lemma LastWire(steps: seq<Step>, k: nat)
    requires k < |steps|
    ensures WiresUpTo(steps, k, |steps[k].deps|) == WiresUpTo(steps, k+1, 0)
  {
    assert steps[k].deps[..|steps[k].deps|] == steps[k].deps;
  }

  lemma WireIsRegistered(steps: seq<Step>, a: StepId, b: StepId)
    requires UniqueIds(steps)
    ensures (a, b) in WiresUpTo(steps, |steps|, 0) <==> b in ById(steps) && a in ById(steps)[b].deps
  {
    if b in ById(steps) && a in ById(steps)[b].deps {
      var k :| 0 <= k < |steps| && steps[k].id == b;
      assert a in steps[k].deps;
    }
  }

  lemma FoundIsClosed(steps: seq<Step>, batch: nat)
    requires UniqueIds(steps)
    ensures AllFound(steps) <==> Closed(Registered(ById(steps), batch))
  {
    var p := Registered(ById(steps), batch);
    if Closed(p) {
      forall k, d | 0 <= k < |steps| && d in steps[k].deps ensures d in ById(steps) {
        assert steps[k].id in p.wiring;
        var i :| 0 <= i < |p.wiring[steps[k].id]| && p.wiring[steps[k].id][i] == d;
      }
    }
    if AllFound(steps) {
      forall id, i | id in p.wiring && 0 <= i < |p.wiring[id]|
        ensures p.wiring[id][i] in p.steps
      {
        var k :| 0 <= k < |steps| && steps[k].id == id;
        assert p.wiring[id][i] in steps[k].deps;
      }
    }
  }

  lemma WiresAreRegistered(steps: seq<Step>, p: Program, g: Graph)
    requires UniqueIds(steps) && p == Registered(ById(steps), p.batch) && Closed(p)
    requires WellFormed(g) && Nodes(g) == p.steps.Keys
    requires Links(g) == WiresUpTo(steps, |steps|, 0)
    ensures Represents(g, p)
  {
    forall a: StepId, b: StepId ensures (a, b) in Links(g) <==> b in p.wiring && a in p.wiring[b] {
      WireIsRegistered(steps, a, b);
    }
  }

  lemma {:induction false} WalkRaisesRank(p: Program, rank: map<StepId, nat>, links: set<Link>, walk: seq<StepId>)
    requires RankedBy(p, rank) && IsWalk(links, walk) && |walk| > 1
    requires forall a: StepId, b: StepId :: (a, b) in links ==> b in p.wiring && a in p.wiring[b]
    ensures walk[0] in p.steps && walk[|walk|-1] in p.steps && rank[walk[0]] < rank[walk[|walk|-1]]
  {
    var n := |walk|;
    assert (walk[n-2], walk[n-1]) in links;
    var i :| 0 <= i < |p.wiring[walk[n-1]]| && p.wiring[walk[n-1]][i] == walk[n-2];
    if n > 2 {
      WalkRaisesRank(p, rank, links, walk[..n-1]);
    }
  }

  lemma CycleIsNotRanked(p: Program, links: set<Link>, id: StepId)
    requires OnCycle(links, id)
    requires forall a: StepId, b: StepId :: (a, b) in links ==> b in p.wiring && a in p.wiring[b]
    ensures !Acyclic(p)
  {
    if Acyclic(p) {
      var walk :| IsCycle(links, walk) && walk[0] == id;
      WalkRaisesRank(p, SomeRank(p), links, walk);
    }
  }
}
