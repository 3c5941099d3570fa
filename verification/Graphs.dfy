/** The dependency graph of a plan: node slots that hold step ids, and edges between slots.
    Removing a node moves the last node into the freed slot, as petgraph's `remove_node` does. */
module Graphs {
  import opened Basics
  import opened Steps
  import opened Semantics

  type Edge = (nat, nat)
  type Link = (StepId, StepId)

  datatype Graph = Graph(nodes: seq<StepId>, edges: seq<Edge>)

  predicate WellFormed(g: Graph) {
    && Distinct(g.nodes)
    && forall e :: e in g.edges ==> e.0 < |g.nodes| && e.1 < |g.nodes|
  }

  /** The edges as pairs (dependency, dependent) of step ids. */
  function Links(g: Graph): set<Link>
    requires WellFormed(g)
  {
    set e | e in g.edges :: (g.nodes[e.0], g.nodes[e.1])
  }

  function Nodes(g: Graph): set<StepId> {
    set id | id in g.nodes
  }

  /** The graph has exactly the steps of the program as nodes and its wires as edges. */
  ghost predicate Represents(g: Graph, p: Program) {
    && WellFormed(g)
    && Closed(p)
    && Nodes(g) == p.steps.Keys
    && (forall a: StepId, b: StepId :: (a, b) in Links(g) <==> b in p.wiring && a in p.wiring[b])
  }

  // ----- removing a node -----

  predicate Kept(e: Edge, gone: nat) {
    e.0 != gone && e.1 != gone
  }

  function Slot(x: nat, gone: nat, last: nat): nat {
    if x == last then gone else x
  }

  function Moved(e: Edge, gone: nat, last: nat): Edge {
    (Slot(e.0, gone, last), Slot(e.1, gone, last))
  }

  /** Edges that do not touch slot `gone`, with slot `last` renumbered to `gone`. */
  function Rewired(edges: seq<Edge>, gone: nat, last: nat): (r: seq<Edge>)
    ensures forall e :: e in edges && Kept(e, gone) ==> Moved(e, gone, last) in r
    ensures forall m :: m in r ==> exists e :: e in edges && Kept(e, gone) && m == Moved(e, gone, last)
  {
    if edges == [] then []
    else
      var rest := Rewired(edges[1..], gone, last);
      if Kept(edges[0], gone) then [Moved(edges[0], gone, last)] + rest else rest
  }

  function RemoveNode(g: Graph, i: nat): (r: Graph)
    requires WellFormed(g) && i < |g.nodes|
  {
    var last := |g.nodes| - 1;
    Graph(g.nodes[i := g.nodes[last]][..last], Rewired(g.edges, i, last))
  }

  lemma RemovedSlot(g: Graph, i: nat, x: nat)
    requires WellFormed(g) && i < |g.nodes| && x < |g.nodes| && x != i
    ensures Slot(x, i, |g.nodes| - 1) < |RemoveNode(g, i).nodes|
    ensures RemoveNode(g, i).nodes[Slot(x, i, |g.nodes| - 1)] == g.nodes[x]
    ensures g.nodes[x] != g.nodes[i]
  {
  }

  lemma RemovedNodes(g: Graph, i: nat)
    requires WellFormed(g) && i < |g.nodes|
    ensures Nodes(RemoveNode(g, i)) == Nodes(g) - {g.nodes[i]}
    ensures Distinct(RemoveNode(g, i).nodes)
  {
    forall x | 0 <= x < |g.nodes| && x != i
      ensures g.nodes[x] in RemoveNode(g, i).nodes && g.nodes[x] != g.nodes[i]
    {
      RemovedSlot(g, i, x);
    }
  }

  lemma RemovedEdge(g: Graph, i: nat, e: Edge)
    requires WellFormed(g) && i < |g.nodes| && e in g.edges && Kept(e, i)
    ensures var r := RemoveNode(g, i);
      var m := Moved(e, i, |g.nodes| - 1);
      && m in r.edges
      && m.0 < |r.nodes| && m.1 < |r.nodes|
      && r.nodes[m.0] == g.nodes[e.0] && r.nodes[m.1] == g.nodes[e.1]
  {
    RemovedSlot(g, i, e.0);
    RemovedSlot(g, i, e.1);
  }

  /** Removal drops one id and the edges that touch it, and nothing else. */
  lemma RemoveNodeEffect(g: Graph, i: nat)
    requires WellFormed(g) && i < |g.nodes|
    ensures WellFormed(RemoveNode(g, i))
    ensures Nodes(RemoveNode(g, i)) == Nodes(g) - {g.nodes[i]}
    ensures Links(RemoveNode(g, i)) == set l | l in Links(g) && l.0 != g.nodes[i] && l.1 != g.nodes[i]
  {
    var r := RemoveNode(g, i);
    RemovedNodes(g, i);
    forall m | m in r.edges
      ensures m.0 < |r.nodes| && m.1 < |r.nodes|
      ensures (r.nodes[m.0], r.nodes[m.1]) in Links(g)
      ensures r.nodes[m.0] != g.nodes[i] && r.nodes[m.1] != g.nodes[i]
    {
      var e :| e in g.edges && Kept(e, i) && m == Moved(e, i, |g.nodes| - 1);
      RemovedEdge(g, i, e);
    }
    forall l | l in Links(g) && l.0 != g.nodes[i] && l.1 != g.nodes[i]
      ensures l in Links(r)
    {
      var e :| e in g.edges && l == (g.nodes[e.0], g.nodes[e.1]);
      RemovedEdge(g, i, e);
    }
  }

  // ----- incoming neighbours -----

  /** The ids at the far end of the edges into slot `i` (parallel edges repeat an id). */
  function Incoming(nodes: seq<StepId>, edges: seq<Edge>, i: nat): (r: seq<StepId>)
    requires forall e :: e in edges ==> e.0 < |nodes|
    ensures forall e :: e in edges && e.1 == i ==> nodes[e.0] in r
    ensures forall a :: a in r ==> exists e :: e in edges && e.1 == i && nodes[e.0] == a
  {
    if edges == [] then []
    else
      var rest := Incoming(nodes, edges[1..], i);
      if edges[0].1 == i then [nodes[edges[0].0]] + rest else rest
  }

  lemma IncomingAreLinks(g: Graph, i: nat, a: StepId)
    requires WellFormed(g) && i < |g.nodes|
    ensures a in Incoming(g.nodes, g.edges, i) <==> (a, g.nodes[i]) in Links(g)
  {
    if (a, g.nodes[i]) in Links(g) {
      var e :| e in g.edges && (a, g.nodes[i]) == (g.nodes[e.0], g.nodes[e.1]);
      assert e.1 == i;
    }
  }

  // ----- topological sorting -----

  ghost predicate Placed(links: set<Link>, order: seq<StepId>) {
    forall k, a :: 0 <= k < |order| && (a, order[k]) in links ==> a in order[..k]
  }

  ghost predicate IsSorted(nodes: set<StepId>, links: set<Link>, order: seq<StepId>) {
    && Distinct(order)
    && (forall id :: id in order <==> id in nodes)
    && Placed(links, order)
  }

  ghost predicate IsCycle(links: set<Link>, walk: seq<StepId>) {
    && |walk| > 1
    && walk[0] == walk[|walk|-1]
    && IsWalk(links, walk)
  }

  ghost predicate IsWalk(links: set<Link>, walk: seq<StepId>) {
    forall k :: 0 < k < |walk| ==> (walk[k-1], walk[k]) in links
  }

  ghost predicate OnCycle(links: set<Link>, id: StepId) {
    exists walk :: IsCycle(links, walk) && walk[0] == id
  }

  lemma LinkGoesForward(nodes: set<StepId>, links: set<Link>, order: seq<StepId>, a: StepId, b: StepId)
    requires IsSorted(nodes, links, order) && (a, b) in links && b in nodes
    ensures a in order && b in order && IndexOf(order, a) < IndexOf(order, b)
  {
    var at := IndexOf(order, b);
    assert (a, order[at]) in links;
    var j :| 0 <= j < at && order[j] == a;
    IndexIsUnique(order, j);
  }

  lemma {:induction false} WalkGoesForward(nodes: set<StepId>, links: set<Link>, order: seq<StepId>, walk: seq<StepId>)
    requires IsSorted(nodes, links, order) && IsWalk(links, walk) && |walk| > 1
    requires forall k :: 0 <= k < |walk| ==> walk[k] in nodes
    ensures IndexOf(order, walk[0]) < IndexOf(order, walk[|walk|-1])
  {
    var n := |walk|;
    assert (walk[n-2], walk[n-1]) in links;
    LinkGoesForward(nodes, links, order, walk[n-2], walk[n-1]);
    if n > 2 {
      WalkGoesForward(nodes, links, order, walk[..n-1]);
    }
  }

  predicate Within(nodes: set<StepId>, links: set<Link>) {
    forall l :: l in links ==> l.0 in nodes && l.1 in nodes
  }

  lemma LinksWithinNodes(g: Graph)
    requires WellFormed(g)
    ensures Within(Nodes(g), Links(g))
  {
  }

  /** A graph that can be sorted has no cycle. */
  lemma SortedHasNoCycle(nodes: set<StepId>, links: set<Link>, order: seq<StepId>, id: StepId)
    requires Within(nodes, links) && IsSorted(nodes, links, order)
    ensures !OnCycle(links, id)
  {
    if OnCycle(links, id) {
      var walk :| IsCycle(links, walk) && walk[0] == id;
      forall k | 0 <= k < |walk| ensures walk[k] in nodes {
        if k == 0 {
          assert (walk[0], walk[1]) in links;
        } else {
          assert (walk[k-1], walk[k]) in links;
        }
      }
      WalkGoesForward(nodes, links, order, walk);
    }
  }

  lemma SortedIsTopological(g: Graph, p: Program, order: seq<StepId>)
    requires Represents(g, p)
    ensures IsSorted(Nodes(g), Links(g), order) <==> IsTopological(p, order)
  {
    if IsSorted(Nodes(g), Links(g), order) {
      forall k, i | 0 <= k < |order| && 0 <= i < |p.wiring[order[k]]|
        ensures p.wiring[order[k]][i] in order[..k]
      {
        assert (p.wiring[order[k]][i], order[k]) in Links(g);
      }
    }
    if IsTopological(p, order) {
      forall k, a | 0 <= k < |order| && (a, order[k]) in Links(g)
        ensures a in order[..k]
      {
        var i :| 0 <= i < |p.wiring[order[k]]| && p.wiring[order[k]][i] == a;
      }
    }
  }

  lemma {:induction false} DistinctWithin(s: seq<StepId>, all: set<StepId>)
    requires Distinct(s) && forall k :: 0 <= k < |s| ==> s[k] in all
    ensures |s| <= |all|
  {
    if s != [] {
      DistinctWithin(s[1..], all - {s[0]});
    }
  }

  lemma ClosesCycle(links: set<Link>, a: StepId, walk: seq<StepId>)
    requires IsWalk(links, walk) && |walk| > 0 && (a, walk[0]) in links && a in walk
    ensures OnCycle(links, a)
  {
    var j :| 0 <= j < |walk| && walk[j] == a;
    var cycle := [a] + walk[..j+1];
    forall k | 0 < k < |cycle| ensures (cycle[k-1], cycle[k]) in links {
      if k > 1 {
        assert (walk[k-2], walk[k-1]) in links;
      }
    }
    assert IsCycle(links, cycle) && cycle[0] == a;
  }

  lemma WalkExtends(links: set<Link>, a: StepId, walk: seq<StepId>)
    requires IsWalk(links, walk) && |walk| > 0 && (a, walk[0]) in links
    ensures IsWalk(links, [a] + walk)
  {
    var longer := [a] + walk;
    forall k | 0 < k < |longer| ensures (longer[k-1], longer[k]) in links {
      if k > 1 {
        assert (walk[k-2], walk[k-1]) in links;
      }
    }
  }

  /** Walk backwards through nodes that all have a predecessor, until one repeats. */
  method FindCycle(links: set<Link>, stuck: set<StepId>) returns (id: StepId)
    requires stuck != {} && Ready(links, stuck) == {}
    ensures id in stuck && OnCycle(links, id)
  {
    NothingReady(links, stuck);
    var b :| b in stuck;
    var walk := [b];
    DistinctWithin(walk, stuck);
    while true
      invariant |walk| > 0 && b == walk[0] && Distinct(walk) && |walk| <= |stuck|
      invariant forall k :: 0 <= k < |walk| ==> walk[k] in stuck
      invariant IsWalk(links, walk)
      decreases |stuck| - |walk|
    {
      var a :| a in stuck && (a, b) in links;
      if a in walk {
        ClosesCycle(links, a, walk);
        return a;
      }
      WalkExtends(links, a, walk);
      walk := [a] + walk;
      b := a;
      DistinctWithin(walk, stuck);
    }
  }

  lemma PlacedExtends(links: set<Link>, order: seq<StepId>, next: StepId)
    requires Placed(links, order)
    requires forall a :: (a, next) in links ==> a in order
    ensures Placed(links, order + [next])
  {
    var longer := order + [next];
    forall k, a | 0 <= k < |longer| && (a, longer[k]) in links
      ensures a in longer[..k]
    {
      if k < |order| {
        assert longer[..k] == order[..k];
        assert (a, order[k]) in links;
      } else {
        assert longer[..k] == order;
      }
    }
  }

  /** The nodes none of whose predecessors is still unplaced. */
  function Ready(links: set<Link>, remaining: set<StepId>): set<StepId> {
    set b | b in remaining && forall a :: a in remaining ==> (a, b) !in links
  }

  lemma NothingReady(links: set<Link>, remaining: set<StepId>)
    requires Ready(links, remaining) == {}
    ensures forall b :: b in remaining ==> exists a :: a in remaining && (a, b) in links
  {
    forall b | b in remaining
      ensures exists a :: a in remaining && (a, b) in links
    {
      assert b !in Ready(links, remaining);
    }
  }

  /** `order` is sorted and holds exactly the nodes that are not in `remaining`. */
  ghost predicate PartlySorted(nodes: set<StepId>, links: set<Link>, order: seq<StepId>, remaining: set<StepId>) {
    remaining <= nodes && IsSorted(nodes - remaining, links, order)
  }

  lemma PlaceReady(nodes: set<StepId>, links: set<Link>, order: seq<StepId>, remaining: set<StepId>, next: StepId)
    requires Within(nodes, links)
    requires PartlySorted(nodes, links, order, remaining) && next in Ready(links, remaining)
    ensures PartlySorted(nodes, links, order + [next], remaining - {next})
  {
    forall a | (a, next) in links ensures a in order {
      assert a in nodes - remaining;
    }
    PlacedExtends(links, order, next);
    assert forall id :: id in order + [next] <==> id in order || id == next;
  }

  /** Any topological order of the graph, or a node on a cycle: each round places any node
      whose predecessors are all placed, so every order petgraph could return is covered. */
  method TopologicalSort(nodes: set<StepId>, links: set<Link>) returns (r: Result<seq<StepId>, StepId>)
    requires Within(nodes, links)
    ensures r.Ok? ==> IsSorted(nodes, links, r.value)
    ensures r.Err? ==> r.error in nodes && OnCycle(links, r.error)
  {
    var order: seq<StepId> := [];
    var remaining := nodes;
    while remaining != {}
      invariant PartlySorted(nodes, links, order, remaining)
      decreases remaining
    {
      var ready := Ready(links, remaining);
      if ready == {} {
        var id := FindCycle(links, remaining);
        return Err(id);
      }
      var next :| next in ready;
      PlaceReady(nodes, links, order, remaining, next);
      order := order + [next];
      remaining := remaining - {next};
    }
    assert nodes - remaining == nodes;
    r := Ok(order);
  }
}
