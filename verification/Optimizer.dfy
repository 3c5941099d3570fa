/** Deduplication, edge rebuilding and unary hoisting (magna-core `optimizer.rs`). */
module Optimizing {
  import opened Basics
  import opened Steps
  import opened Semantics
  import opened Sharing
  import opened Graphs
  import opened Planning

  datatype OptimizedPlan = OptimizedPlan(plan: ExecutionPlan, order: seq<StepId>, remap: map<StepId, StepId>)

  // ----- fingerprints decide structural equality -----

  function Signature(p: Program, remap: map<StepId, StepId>, id: StepId): Fingerprint
    requires Closed(p) && id in p.steps
  {
    Fingerprint(p.steps[id].typeId, Resolve(remap, p.wiring[id]), p.steps[id].config)
  }

  /** Canonical ids agree exactly when remapped fingerprints agree. */
  ghost predicate DecidedBySignature(p: Program, remap: map<StepId, StepId>)
    requires Closed(p)
  {
    && Retargets(p, remap)
    && forall a, b :: a in p.steps && b in p.steps ==>
         (Canonical(remap, a) == Canonical(remap, b) <==> Signature(p, remap, a) == Signature(p, remap, b))
  }

  lemma {:induction false} SameCanonicalSameTerm(p: Program, remap: map<StepId, StepId>, rank: map<StepId, nat>,
                                                 a: StepId, b: StepId)
    requires RankedBy(p, rank) && DecidedBySignature(p, remap)
    requires a in p.steps && b in p.steps && Canonical(remap, a) == Canonical(remap, b)
    ensures TermOf(p, a) == TermOf(p, b)
    decreases rank[a]
  {
    TermUnfolds(p, a);
    TermUnfolds(p, b);
    assert Signature(p, remap, a) == Signature(p, remap, b);
    var ra, rb := Resolve(remap, p.wiring[a]), Resolve(remap, p.wiring[b]);
    forall i | 0 <= i < |p.wiring[a]|
      ensures TermOf(p, p.wiring[a][i]) == TermOf(p, p.wiring[b][i])
    {
      assert ra[i] == rb[i];
      SameCanonicalSameTerm(p, remap, rank, p.wiring[a][i], p.wiring[b][i]);
    }
    assert TermOf(p, a).args == TermOf(p, b).args;
  }

  lemma {:induction false} SameTermSameCanonical(p: Program, remap: map<StepId, StepId>, rank: map<StepId, nat>,
                                                 a: StepId, b: StepId)
    requires RankedBy(p, rank) && DecidedBySignature(p, remap)
    requires a in p.steps && b in p.steps && TermOf(p, a) == TermOf(p, b)
    ensures Canonical(remap, a) == Canonical(remap, b)
    decreases rank[a]
  {
    TermUnfolds(p, a);
    TermUnfolds(p, b);
    forall i | 0 <= i < |p.wiring[a]|
      ensures Canonical(remap, p.wiring[a][i]) == Canonical(remap, p.wiring[b][i])
    {
      assert TermOf(p, a).args[i] == TermOf(p, b).args[i];
      SameTermSameCanonical(p, remap, rank, p.wiring[a][i], p.wiring[b][i]);
    }
    assert Resolve(remap, p.wiring[a]) == Resolve(remap, p.wiring[b]);
  }

  /** Deduplication is exactly structural equality: sound and maximal. */
  lemma SignaturesDecideTerms(p: Program, remap: map<StepId, StepId>)
    requires Acyclic(p) && DecidedBySignature(p, remap)
    ensures IsSharing(p, remap)
  {
    forall a, b | a in p.steps && b in p.steps
      ensures Canonical(remap, a) == Canonical(remap, b) <==> TermOf(p, a) == TermOf(p, b)
    {
      if Canonical(remap, a) == Canonical(remap, b) {
        SameCanonicalSameTerm(p, remap, SomeRank(p), a, b);
      }
      if TermOf(p, a) == TermOf(p, b) {
        SameTermSameCanonical(p, remap, SomeRank(p), a, b);
      }
    }
  }

  // ----- finding duplicates -----

  /** What the scan knows once the steps in `done` are scanned. */
  ghost predicate Scanned(p: Program, done: set<StepId>, seen: map<Fingerprint, StepId>, remap: map<StepId, StepId>)
    requires Closed(p)
  {
    && remap.Keys <= done <= p.steps.Keys
    && (forall id :: id in done ==>
          && Signature(p, remap, id) in seen
          && seen[Signature(p, remap, id)] == Canonical(remap, id))
    && (forall fp :: fp in seen ==>
          && seen[fp] in done && seen[fp] !in remap
          && Signature(p, remap, seen[fp]) == fp)
  }

  ghost predicate ClosedUnder(p: Program, done: set<StepId>)
    requires Closed(p)
  {
    forall id, i :: id in done && id in p.wiring && 0 <= i < |p.wiring[id]| ==> p.wiring[id][i] in done
  }

  lemma SignatureStays(p: Program, remap: map<StepId, StepId>, next: StepId, c: StepId, id: StepId)
    requires Closed(p) && id in p.steps && next !in p.wiring[id]
    ensures Signature(p, remap[next := c], id) == Signature(p, remap, id)
  {
    assert Resolve(remap[next := c], p.wiring[id]) == Resolve(remap, p.wiring[id]);
  }

  lemma ScannedIsDone(p: Program, done: set<StepId>, seen: map<Fingerprint, StepId>, remap: map<StepId, StepId>)
    requires Closed(p) && Scanned(p, done, seen, remap)
    ensures remap.Keys <= done && forall fp :: fp in seen ==> seen[fp] in done
  {
  }

  lemma ScanDuplicate(p: Program, done: set<StepId>, next: StepId, seen: map<Fingerprint, StepId>,
                      remap: map<StepId, StepId>)
    requires Closed(p) && Scanned(p, done, seen, remap) && ClosedUnder(p, done)
    requires next in p.steps && next !in done && next !in p.wiring[next]
    requires Signature(p, remap, next) in seen
    ensures Scanned(p, done + {next}, seen, remap[next := seen[Signature(p, remap, next)]])
  {
    var c := seen[Signature(p, remap, next)];
    var later := remap[next := c];
    forall id | id in done + {next}
      ensures Signature(p, later, id) == Signature(p, remap, id)
    {
      SignatureStays(p, remap, next, c, id);
    }
  }

  lemma ScanFresh(p: Program, done: set<StepId>, next: StepId, seen: map<Fingerprint, StepId>,
                  remap: map<StepId, StepId>)
    requires Closed(p) && Scanned(p, done, seen, remap)
    requires next in p.steps && next !in done && Signature(p, remap, next) !in seen
    ensures Scanned(p, done + {next}, seen[Signature(p, remap, next) := next], remap)
  {
  }

  lemma ScanDecides(p: Program, seen: map<Fingerprint, StepId>, remap: map<StepId, StepId>)
    requires Closed(p) && Scanned(p, p.steps.Keys, seen, remap)
    ensures DecidedBySignature(p, remap)
  {
    forall id | id in remap
      ensures id in p.steps && remap[id] in p.steps && remap[id] !in remap
    {
      assert seen[Signature(p, remap, id)] == Canonical(remap, id);
    }
  }

  lemma PrefixIsClosedUnder(p: Program, order: seq<StepId>, k: nat)
    requires Closed(p) && IsTopological(p, order) && k <= |order|
    ensures ClosedUnder(p, Elements(order[..k])) && Elements(order[..k]) <= p.steps.Keys
    ensures k < |order| ==> order[k] !in Elements(order[..k]) && order[k] !in p.wiring[order[k]]
    ensures k == |order| ==> Elements(order[..k]) == p.steps.Keys
  {
    forall id, i | id in order[..k] && id in p.wiring && 0 <= i < |p.wiring[id]|
      ensures p.wiring[id][i] in order[..k]
    {
      var j :| 0 <= j < k && order[j] == id;
      assert p.wiring[order[j]][i] in order[..j];
    }
    if k == |order| {
      assert order[..k] == order;
    }
  }

  predicate AbsorbedUpTo(order: seq<StepId>, k: nat, remap: map<StepId, StepId>) {
    k <= |order| && forall j :: 0 <= j < k && order[j] in remap ==> remap[order[j]] in order[..j]
  }

  lemma AbsorbedNext(order: seq<StepId>, k: nat, remap: map<StepId, StepId>, c: StepId)
    requires k < |order| && Distinct(order) && AbsorbedUpTo(order, k, remap)
    requires remap.Keys <= Elements(order[..k]) && c in Elements(order[..k])
    ensures AbsorbedUpTo(order, k + 1, remap[order[k] := c])
  {
  }

  lemma AbsorbedAll(order: seq<StepId>, remap: map<StepId, StepId>)
    requires AbsorbedUpTo(order, |order|, remap)
    ensures AbsorbedEarlier(order, remap)
  {
  }

  lemma AbsorbedSame(order: seq<StepId>, k: nat, remap: map<StepId, StepId>)
    requires k < |order| && Distinct(order) && AbsorbedUpTo(order, k, remap) && remap.Keys <= Elements(order[..k])
    ensures AbsorbedUpTo(order, k + 1, remap)
  {
  }

  /** Where the scan stands before step `k` of the order. */
  ghost predicate ScannedUpTo(p: Program, order: seq<StepId>, k: nat, seen: map<Fingerprint, StepId>,
                              remap: map<StepId, StepId>,
                              gone: seq<StepId>)
    requires Closed(p) && k <= |order|
  {
    Scanned(p, Elements(order[..k]), seen, remap) && remap.Keys == Elements(gone) && AbsorbedUpTo(order, k, remap)
  }

  lemma ListedOnce(p: Program, order: seq<StepId>, k: nat)
    requires Closed(p) && IsTopological(p, order) && k < |order|
    ensures Distinct(order) && order[k] in p.steps && order[k] in p.wiring
  {
  }

  lemma ScanNext(p: Program, order: seq<StepId>, k: nat, seen: map<Fingerprint, StepId>, remap: map<StepId, StepId>,
                 gone: seq<StepId>)
    requires Closed(p) && IsTopological(p, order) && k < |order| && ScannedUpTo(p, order, k, seen, remap, gone)
    ensures order[k] in p.steps
    ensures var id, fp := order[k], Signature(p, remap, order[k]);
      if fp in seen then ScannedUpTo(p, order, k + 1, seen, remap[id := seen[fp]], gone + [id])
      else ScannedUpTo(p, order, k + 1, seen[fp := id], remap, gone)
  {
    hide Signature, ClosedUnder, Elements, Closed, Scanned, AbsorbedUpTo, Distinct, IsTopological;
    ListedOnce(p, order, k);
    PrefixIsClosedUnder(p, order, k);
    ElementsPrefix(order, k);
    ScannedIsDone(p, Elements(order[..k]), seen, remap);
    var fp := Signature(p, remap, order[k]);
    if fp in seen {
      AbsorbedNext(order, k, remap, seen[fp]);
      ScanDuplicate(p, Elements(order[..k]), order[k], seen, remap);
      ElementsExtend(gone, order[k]);
    } else {
      ScanFresh(p, Elements(order[..k]), order[k], seen, remap);
      AbsorbedSame(order, k, remap);
    }
  }

  lemma ScanEnds(p: Program, order: seq<StepId>, seen: map<Fingerprint, StepId>, remap: map<StepId, StepId>,
                 gone: seq<StepId>)
    requires Closed(p) && IsTopological(p, order) && ScannedUpTo(p, order, |order|, seen, remap, gone)
    ensures Acyclic(p) && IsSharing(p, remap) && AbsorbedEarlier(order, remap)
    ensures remap.Keys == Elements(gone)
  {
    hide IsSharing, AbsorbedEarlier, Acyclic, AbsorbedUpTo, Scanned, Elements;
    PrefixIsClosedUnder(p, order, |order|);
    AbsorbedAll(order, remap);
    ScanDecides(p, seen, remap);
    TopologicalIsRanked(p, order);
    SignaturesDecideTerms(p, remap);
  }

  method FindDuplicates(p: Program, order: seq<StepId>) returns (remap: map<StepId, StepId>, gone: seq<StepId>)
    requires Closed(p) && IsTopological(p, order)
    ensures Acyclic(p) && IsSharing(p, remap) && AbsorbedEarlier(order, remap)
    ensures remap.Keys == Elements(gone)
  {
    var seen: map<Fingerprint, StepId> := map[];
    remap, gone := map[], [];
    assert ScannedUpTo(p, order, 0, seen, remap, gone);
    hide ScannedUpTo, Signature, IsTopological, Closed;
    for k := 0 to |order|
      invariant ScannedUpTo(p, order, k, seen, remap, gone)
    {
      ScanNext(p, order, k, seen, remap, gone);
      var fp := Signature(p, remap, order[k]);
      if fp in seen {
        remap := remap[order[k] := seen[fp]];
        gone := gone + [order[k]];
      } else {
        seen := seen[fp := order[k]];
      }
    }
    ScanEnds(p, order, seen, remap, gone);
  }

  // ----- removing duplicates and rebuilding the edges -----

  /** The redirected wires of the steps in `ids`. */
  ghost function RedirectedWires(steps: map<StepId, Step>, remap: map<StepId, StepId>, ids: set<StepId>): set<Link> {
    set id, d | id in ids && id in steps && d in steps[id].deps && Canonical(remap, d) in steps
      :: (Canonical(remap, d), id)
  }

  /** The redirected wires from the dependencies `ds` of one step. */
  ghost function RedirectedInto(steps: map<StepId, Step>, remap: map<StepId, StepId>, id: StepId,
                                ds: seq<StepId>): set<Link> {
    set d | d in ds && Canonical(remap, d) in steps :: (Canonical(remap, d), id)
  }

  lemma RedirectedGrows(steps: map<StepId, Step>, remap: map<StepId, StepId>, ids: set<StepId>, id: StepId)
    requires id in steps
    ensures RedirectedWires(steps, remap, ids + {id}) ==
      RedirectedWires(steps, remap, ids) + RedirectedInto(steps, remap, id, steps[id].deps)
  {
  }

  lemma RedirectedNext(steps: map<StepId, Step>, remap: map<StepId, StepId>, id: StepId, ds: seq<StepId>, d: StepId)
    ensures RedirectedInto(steps, remap, id, ds + [d]) == RedirectedInto(steps, remap, id, ds) +
      (if Canonical(remap, d) in steps then {(Canonical(remap, d), id)} else {})
  {
    assert forall x :: x in ds + [d] <==> x in ds || x == d;
    assert d in ds + [d];
  }

  method RebuildEdges(plan: ExecutionPlan, remap: map<StepId, StepId>)
    requires plan.Valid()
    modifies plan`graph
    ensures plan.Valid() && Nodes(plan.graph) == old(Nodes(plan.graph))
    ensures Links(plan.graph) == RedirectedWires(plan.steps, remap, plan.steps.Keys)
  {
    plan.graph := Graph(plan.graph.nodes, []);
    var todo := plan.steps.Keys;
    while todo != {}
      invariant plan.Valid() && plan.graph.nodes == old(plan.graph.nodes)
      invariant todo <= plan.steps.Keys
      invariant Links(plan.graph) == RedirectedWires(plan.steps, remap, plan.steps.Keys - todo)
      decreases todo
    {
      var id :| id in todo;
      RedirectedGrows(plan.steps, remap, plan.steps.Keys - todo, id);
      assert plan.steps.Keys - todo + {id} == plan.steps.Keys - (todo - {id});
      AddRedirected(plan, remap, id);
      todo := todo - {id};
    }
    assert plan.steps.Keys - {} == plan.steps.Keys;
  }

  method AddRedirected(plan: ExecutionPlan, remap: map<StepId, StepId>, id: StepId)
    requires plan.Valid() && id in plan.steps
    modifies plan`graph
    ensures plan.Valid() && plan.graph.nodes == old(plan.graph.nodes)
    ensures Links(plan.graph) == old(Links(plan.graph)) + RedirectedInto(plan.steps, remap, id, plan.steps[id].deps)
  {
    hide RedirectedInto, Links;
    var edges := RedirectedEdges(plan.steps, plan.graph.nodes, plan.nodeMap, remap, id, plan.graph.edges);
    assert plan.graph == Graph(plan.graph.nodes, plan.graph.edges);
    plan.graph := Graph(plan.graph.nodes, edges);
  }

  /** An edge for each dependency whose canonical step is in the plan. */
  method RedirectedEdges(steps: map<StepId, Step>, nodes: seq<StepId>, nodeMap: map<StepId, nat>,
                         remap: map<StepId, StepId>,
                         id: StepId, edges: seq<Edge>)
    returns (edges': seq<Edge>)
    requires WellFormed(Graph(nodes, edges)) && SlotsOf(nodes, nodeMap, |nodes|) && nodeMap.Keys == steps.Keys
    requires id in steps
    ensures WellFormed(Graph(nodes, edges'))
    ensures Links(Graph(nodes, edges')) == Links(Graph(nodes, edges)) + RedirectedInto(steps, remap, id, steps[id].deps)
  {
    var deps := steps[id].deps;
    edges' := edges;
    assert RedirectedInto(steps, remap, id, deps[..0]) == {};
    hide RedirectedInto, Links, Canonical, WellFormed, SlotsOf;
    for i := 0 to |deps|
      invariant WellFormed(Graph(nodes, edges'))
      invariant Links(Graph(nodes, edges')) == Links(Graph(nodes, edges)) + RedirectedInto(steps, remap, id, deps[..i])
    {
      var d := Canonical(remap, deps[i]);
      edges' := RedirectedEdge(nodes, nodeMap, d, id, edges');
      RedirectedUnion(steps, remap, id, deps, i, Links(Graph(nodes, edges)));
    }
    assert deps[..|deps|] == deps;
  }

  method RedirectedEdge(nodes: seq<StepId>, nodeMap: map<StepId, nat>, d: StepId, id: StepId, edges: seq<Edge>)
    returns (edges': seq<Edge>)
    requires WellFormed(Graph(nodes, edges)) && SlotsOf(nodes, nodeMap, |nodes|) && id in nodeMap
    ensures WellFormed(Graph(nodes, edges'))
    ensures Links(Graph(nodes, edges')) == Links(Graph(nodes, edges)) + if d in nodeMap then {(d, id)} else {}
  {
    hide Links, WellFormed, SlotsOf;
    edges' := edges;
    if d in nodeMap {
      SlotHolds(nodes, nodeMap, d);
      SlotHolds(nodes, nodeMap, id);
      LinksExtend(nodes, edges, (nodeMap[d], nodeMap[id]));
      edges' := edges + [(nodeMap[d], nodeMap[id])];
    }
  }

  lemma RedirectedUnion(steps: map<StepId, Step>, remap: map<StepId, StepId>, id: StepId, deps: seq<StepId>, i: nat,
                        links: set<Link>)
    requires i < |deps|
    ensures (links + RedirectedInto(steps, remap, id, deps[..i])) +
      (if Canonical(remap, deps[i]) in steps then {(Canonical(remap, deps[i]), id)} else {}) ==
      links + RedirectedInto(steps, remap, id, deps[..i+1])
  {
    hide RedirectedInto, Canonical;
    assert deps[..i+1] == deps[..i] + [deps[i]];
    RedirectedNext(steps, remap, id, deps[..i], deps[i]);
  }

  lemma RedirectedIsShared(p: Program, remap: map<StepId, StepId>, g: Graph)
    requires Closed(p) && p.wiring == Registered(p.steps, p.batch).wiring && Retargets(p, remap)
    requires WellFormed(g) && Nodes(g) == p.steps.Keys - remap.Keys
    requires Links(g) == RedirectedWires(p.steps - remap.Keys, remap, p.steps.Keys - remap.Keys)
    ensures Represents(g, Shared(p, remap))
  {
    var q := Shared(p, remap);
    SharedIsClosed(p, remap);
    forall a: StepId, b: StepId ensures (a, b) in Links(g) <==> b in q.wiring && a in q.wiring[b] {
      if b in q.wiring && a in q.wiring[b] {
        var i :| 0 <= i < |q.wiring[b]| && q.wiring[b][i] == a;
        assert p.wiring[b][i] in q.steps[b].deps;
      }
      if (a, b) in Links(g) {
        var d :| d in q.steps[b].deps && Canonical(remap, d) == a;
        var i :| 0 <= i < |p.wiring[b]| && p.wiring[b][i] == d;
        assert q.wiring[b][i] == a;
      }
    }
  }

  lemma NothingRemapped(p: Program, remap: map<StepId, StepId>)
    requires Closed(p) && remap == map[]
    ensures Shared(p, remap) == p
  {
    forall id | id in p.wiring ensures Resolve(remap, p.wiring[id]) == p.wiring[id] {
    }
    assert Shared(p, remap).steps == p.steps;
    assert Shared(p, remap).wiring == p.wiring;
  }

  method Deduplicate(plan: ExecutionPlan, order: seq<StepId>) returns (remap: map<StepId, StepId>)
    requires plan.Valid()
    requires Represents(plan.graph, Registered(plan.steps, plan.batch))
    requires IsTopological(Registered(plan.steps, plan.batch), order)
    modifies plan
    ensures plan.Valid() && plan.batch == old(plan.batch)
    ensures var p := old(Registered(plan.steps, plan.batch));
      && Acyclic(p) && IsSharing(p, remap) && AbsorbedEarlier(order, remap)
      && plan.steps == Shared(p, remap).steps && Represents(plan.graph, Shared(p, remap))
  {
    var gone;
    remap, gone := FindDuplicates(Registered(plan.steps, plan.batch), order);
    Restructure(plan, remap, gone);
  }

  /** Drop the duplicates and redirect the edges of the remaining steps. */
  method Restructure(plan: ExecutionPlan, remap: map<StepId, StepId>, gone: seq<StepId>)
    requires plan.Valid()
    requires Represents(plan.graph, Registered(plan.steps, plan.batch))
    requires Retargets(Registered(plan.steps, plan.batch), remap) && remap.Keys == Elements(gone)
    modifies plan
    ensures plan.Valid() && plan.batch == old(plan.batch)
    ensures plan.steps == Shared(old(Registered(plan.steps, plan.batch)), remap).steps
    ensures Represents(plan.graph, Shared(old(Registered(plan.steps, plan.batch)), remap))
  {
    hide Elements, RedirectedWires, WellFormed, SlotsOf, Retargets;
    ghost var p := Registered(plan.steps, plan.batch);
    RemoveAll(plan, gone);
    if remap != map[] {
      RebuildEdges(plan, remap);
      assert plan.steps == p.steps - remap.Keys;
      RedirectedIsShared(p, remap, plan.graph);
    } else {
      NothingRemapped(p, remap);
      NoElements(gone);
    }
  }

  lemma NoElements(s: seq<StepId>)
    ensures s != [] ==> Elements(s) != {}
  {
    if s != [] {
      assert s[0] in Elements(s);
    }
  }

  method RemoveAll(plan: ExecutionPlan, gone: seq<StepId>)
    requires plan.Valid()
    modifies plan
    ensures plan.Valid() && plan.batch == old(plan.batch)
    ensures plan.steps == old(plan.steps) - Elements(gone)
    ensures Nodes(plan.graph) == plan.steps.Keys
    ensures gone == [] ==> plan.graph == old(plan.graph)
  {
    hide Links, WellFormed, SlotsOf;
    for i := 0 to |gone|
      invariant plan.Valid() && plan.batch == old(plan.batch)
      invariant plan.steps == old(plan.steps) - Elements(gone[..i])
      invariant gone == [] ==> plan.graph == old(plan.graph)
    {
      ElementsPrefix(gone, i);
      plan.RemoveStep(gone[i]);
    }
    assert gone[..|gone|] == gone;
    SlotKeys(plan.graph.nodes, plan.nodeMap);
  }

  // ----- hoisting unary steps -----

  /** The step and everything it transitively depends on is unary. */
  ghost predicate WhollyUnary(q: Program, id: StepId)
    requires Closed(q) && id in q.steps
  {
    && q.steps[id].unary
    && forall a :: a in q.steps && DependsOn(q, id, a) ==> q.steps[a].unary
  }

  ghost function WhollyUnarySteps(q: Program): set<StepId>
    requires Closed(q)
  {
    set id | id in q.steps && WhollyUnary(q, id)
  }

  lemma DirectDependence(q: Program, id: StepId, i: nat)
    requires Closed(q) && id in q.steps && i < |q.wiring[id]|
    ensures DependsOn(q, id, q.wiring[id][i])
  {
    assert IsChain(q, [q.wiring[id][i], id]);
  }

  lemma DependenceExtends(q: Program, id: StepId, i: nat, a: StepId)
    requires Closed(q) && id in q.steps && i < |q.wiring[id]| && DependsOn(q, q.wiring[id][i], a)
    ensures DependsOn(q, id, a)
  {
    var path :| IsChain(q, path) && |path| > 1 && path[0] == a && path[|path|-1] == q.wiring[id][i];
    var longer := path + [id];
    assert IsChain(q, longer) && longer[0] == a && longer[|longer|-1] == id;
  }

  lemma DependenceSplits(q: Program, id: StepId, a: StepId) returns (i: nat)
    requires Closed(q) && id in q.steps && DependsOn(q, id, a)
    ensures i < |q.wiring[id]|
    ensures q.wiring[id][i] == a || DependsOn(q, q.wiring[id][i], a)
  {
    var path :| IsChain(q, path) && |path| > 1 && path[0] == a && path[|path|-1] == id;
    var n := |path|;
    assert path[n-2] in q.wiring[path[n-1]];
    i :| 0 <= i < |q.wiring[id]| && q.wiring[id][i] == path[n-2];
    if n > 2 {
      var shorter := path[..n-1];
      assert IsChain(q, shorter) && shorter[0] == a && shorter[|shorter|-1] == q.wiring[id][i];
    }
  }

  lemma WhollyUnaryUnfolds(q: Program, id: StepId)
    requires Closed(q) && id in q.steps
    ensures WhollyUnary(q, id) <==>
      q.steps[id].unary && forall i :: 0 <= i < |q.wiring[id]| ==> WhollyUnary(q, q.wiring[id][i])
  {
    if WhollyUnary(q, id) {
      forall i | 0 <= i < |q.wiring[id]| ensures WhollyUnary(q, q.wiring[id][i]) {
        DirectDependence(q, id, i);
        forall a | a in q.steps && DependsOn(q, q.wiring[id][i], a) ensures q.steps[a].unary {
          DependenceExtends(q, id, i, a);
        }
      }
    }
    if q.steps[id].unary && forall i :: 0 <= i < |q.wiring[id]| ==> WhollyUnary(q, q.wiring[id][i]) {
      forall a | a in q.steps && DependsOn(q, id, a) ensures q.steps[a].unary {
        var i := DependenceSplits(q, id, a);
        assert WhollyUnary(q, q.wiring[id][i]);
      }
    }
  }

  /** The order after hoisting: a stable partition. */
  ghost function Hoisted(q: Program, order: seq<StepId>): seq<StepId>
    requires Closed(q)
  {
    var early := WhollyUnarySteps(q);
    Select(order, early) + Select(order, q.steps.Keys - early)
  }

  /** A dependency-closed selection of a topological order is ordered ... */
  lemma {:induction false} ClosedSelection(q: Program, order: seq<StepId>, keep: set<StepId>, n: nat)
    requires Closed(q) && IsTopological(q, order) && ClosedUnder(q, keep) && n <= |order|
    ensures Ordered(q, Select(order[..n], keep))
  {
    if n == 0 {
      assert Select(order[..0], keep) == [];
      assert Ordered(q, []);
    } else {
      hide Ordered, IsTopological, ClosedUnder, Select;
      var k := n - 1;
      ClosedSelection(q, order, keep, k);
      SelectedPrefix(order, keep, k);
      assert order[..k+1] == order[..n];
      if order[k] in keep {
        KeptWiresArePlaced(q, order, keep, k);
        OrderedExtends(q, Select(order[..k], keep), order[k]);
      } else {
        assert Select(order[..k], keep) + [] == Select(order[..k], keep);
      }
    }
  }

  lemma KeptWiresArePlaced(q: Program, order: seq<StepId>, keep: set<StepId>, k: nat)
    requires Closed(q) && IsTopological(q, order) && ClosedUnder(q, keep) && k < |order| && order[k] in keep
    ensures var before := Select(order[..k], keep);
      && order[k] in q.steps && order[k] !in before
      && forall i :: 0 <= i < |q.wiring[order[k]]| ==> q.wiring[order[k]][i] in before
  {
    WiresComeEarlier(q, order, k);
  }

  lemma RestWiresArePlaced(q: Program, order: seq<StepId>, keep: set<StepId>, k: nat)
    requires Closed(q) && IsTopological(q, order) && k < |order| && order[k] !in keep
    ensures var before := Select(order, keep) + Select(order[..k], q.steps.Keys - keep);
      order[k] !in before && forall i :: 0 <= i < |q.wiring[order[k]]| ==> q.wiring[order[k]][i] in before
  {
    WiresComeEarlier(q, order, k);
  }

  /** ... and stays so when the rest follows it. */
  lemma {:induction false} SelectionThenRest(q: Program, order: seq<StepId>, keep: set<StepId>, n: nat)
    requires Closed(q) && IsTopological(q, order) && ClosedUnder(q, keep) && n <= |order|
    ensures Ordered(q, Select(order, keep) + Select(order[..n], q.steps.Keys - keep))
  {
    var first, rest := Select(order, keep), q.steps.Keys - keep;
    if n == 0 {
      ClosedSelection(q, order, keep, |order|);
      assert order[..|order|] == order;
      assert first + Select(order[..0], rest) == first;
    } else {
      var id, before := order[n-1], first + Select(order[..n-1], rest);
      SelectionThenRest(q, order, keep, n-1);
      SelectedPrefix(order, rest, n-1);
      if id in rest {
        RestWiresArePlaced(q, order, keep, n-1);
        OrderedExtends(q, before, id);
        assert before + [id] == first + Select(order[..n], rest);
      } else {
        assert before == first + Select(order[..n], rest);
      }
    }
  }

  lemma WiresComeEarlier(q: Program, order: seq<StepId>, k: nat)
    requires Closed(q) && IsTopological(q, order) && k < |order|
    ensures order[k] !in order[..k]
    ensures forall d :: d in q.wiring[order[k]] ==> d in order[..k] && d in q.steps
  {
    forall d | d in q.wiring[order[k]] ensures d in order[..k] && d in q.steps {
      var i :| 0 <= i < |q.wiring[order[k]]| && q.wiring[order[k]][i] == d;
    }
  }

  /** Hoisting permutes a topological order into a topological order. */
  lemma HoistedIsTopological(q: Program, order: seq<StepId>)
    requires Closed(q) && IsTopological(q, order)
    ensures IsTopological(q, Hoisted(q, order))
    ensures Elements(Hoisted(q, order)) == Elements(order)
  {
    forall id, i | id in WhollyUnarySteps(q) && 0 <= i < |q.wiring[id]|
      ensures q.wiring[id][i] in WhollyUnarySteps(q)
    {
      WhollyUnaryUnfolds(q, id);
    }
    SelectionThenRest(q, order, WhollyUnarySteps(q), |order|);
    assert order[..|order|] == order;
  }

  method HoistUnary(plan: ExecutionPlan, ghost q: Program, order: seq<StepId>) returns (r: seq<StepId>)
    requires plan.Valid() && q.steps == plan.steps && Represents(plan.graph, q) && IsTopological(q, order)
    ensures r == Hoisted(q, order)
  {
    var hoisted: seq<StepId> := [];
    var deferred: seq<StepId> := [];
    var placed: set<StepId> := {};
    ghost var early := WhollyUnarySteps(q);
    ghost var late := q.steps.Keys - early;
    for k := 0 to |order|
      invariant hoisted == Select(order[..k], early)
      invariant deferred == Select(order[..k], late)
      invariant placed == Elements(hoisted)
    {
      var id := order[k];
      SelectedPrefix(order, early, k);
      SelectedPrefix(order, late, k);
      if id in plan.steps {
        var deps := plan.DependenciesOf(id);
        var satisfied := forall d :: d in deps ==> d in placed;
        SatisfiedMeansWhollyUnary(q, order, k, deps);
        ElementsExtend(hoisted, id);
        if plan.steps[id].unary && satisfied {
          placed := placed + {id};
          hoisted := hoisted + [id];
        } else {
          deferred := deferred + [id];
        }
      }
    }
    assert order[..|order|] == order;
    r := hoisted + deferred;
  }

  lemma SatisfiedMeansWhollyUnary(q: Program, order: seq<StepId>, k: nat, deps: seq<StepId>)
    requires Closed(q) && IsTopological(q, order) && k < |order|
    requires forall d :: d in deps <==> d in q.wiring[order[k]]
    ensures order[k] in WhollyUnarySteps(q) <==>
      q.steps[order[k]].unary && forall d :: d in deps ==> d in Elements(Select(order[..k], WhollyUnarySteps(q)))
  {
    WiresComeEarlier(q, order, k);
    WhollyUnaryUnfolds(q, order[k]);
    var id, early := order[k], WhollyUnarySteps(q);
    assert (forall d :: d in deps ==> d in Select(order[..k], early)) <==>
           (forall d :: d in q.wiring[id] ==> d in early);
    if forall i :: 0 <= i < |q.wiring[id]| ==> WhollyUnary(q, q.wiring[id][i]) {
      forall d | d in q.wiring[id] ensures d in early {
        var i :| 0 <= i < |q.wiring[id]| && q.wiring[id][i] == d;
        assert WhollyUnary(q, q.wiring[id][i]);
      }
    }
  }

  // ----- the whole pass -----

  /** A plan that the executor can run: the graph is that of `q`, the order sorts it, and `q` is
      wired by the steps' own dependency ids followed through the remap. */
  ghost predicate Runnable(op: OptimizedPlan, q: Program)
    reads op.plan
  {
    && op.plan.Valid()
    && q.steps == op.plan.steps && q.batch == op.plan.batch
    && Represents(op.plan.graph, q)
    && IsTopological(q, op.order)
    && forall id :: id in q.steps ==> q.wiring[id] == Resolve(op.remap, q.steps[id].deps)
  }

  method Optimize(plan: ExecutionPlan) returns (op: OptimizedPlan)
    requires plan.Valid()
    requires Represents(plan.graph, Registered(plan.steps, plan.batch))
    requires Acyclic(Registered(plan.steps, plan.batch))
    modifies plan
    ensures op.plan == plan
    ensures var p := old(Registered(plan.steps, plan.batch));
      && IsSharing(p, op.remap)
      && Runnable(op, Shared(p, op.remap))
      && exists base :: IsTopological(Shared(p, op.remap), base) && op.order == Hoisted(Shared(p, op.remap), base)
  {
    ghost var p := Registered(plan.steps, plan.batch);
    LinksWithinNodes(plan.graph);
    var sorted := TopologicalSort(Nodes(plan.graph), Links(plan.graph));
    if sorted.Err? {
      CycleIsNotRanked(p, Links(plan.graph), sorted.error);
      assert false;
    }
    SortedIsTopological(plan.graph, p, sorted.value);
    var remap := Deduplicate(plan, sorted.value);
    ghost var q := Shared(p, remap);
    SurvivorsTopological(p, remap, sorted.value);
    LinksWithinNodes(plan.graph);
    var resorted := TopologicalSort(Nodes(plan.graph), Links(plan.graph));
    if resorted.Err? {
      CycleIsNotRanked(q, Links(plan.graph), resorted.error);
      assert false;
    }
    SortedIsTopological(plan.graph, q, resorted.value);
    var order := HoistUnary(plan, q, resorted.value);
    HoistedIsTopological(q, resorted.value);
    op := OptimizedPlan(plan, order, remap);
  }
}
