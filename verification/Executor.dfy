/** Tiered, concurrent execution of an optimized plan (magna-core `executor.rs`). */
module Executing {
  import opened Basics
  import opened Steps
  import opened Semantics
  import opened Sharing
  import opened Graphs
  import opened Planning
  import opened Optimizing

  // ----- flags -----

  /** The outputs that exist among those asked for, in order. */
  function Present(depIds: seq<StepId>, outputs: map<StepId, StepOutput>): (r: seq<StepOutput>)
    ensures (forall i :: 0 <= i < |depIds| ==> depIds[i] in outputs) ==>
      |r| == |depIds| && forall i :: 0 <= i < |depIds| ==> r[i] == outputs[depIds[i]]
  {
    if depIds == [] then []
    else
      var n := |depIds| - 1;
      var rest := Present(depIds[..n], outputs);
      assert forall i :: 0 <= i < n ==> depIds[..n][i] == depIds[i];
      if depIds[n] in outputs then rest + [outputs[depIds[n]]] else rest
  }

  lemma PresentExtends(depIds: seq<StepId>, outputs: map<StepId, StepOutput>, k: nat)
    requires k < |depIds|
    ensures Present(depIds[..k+1], outputs) ==
      Present(depIds[..k], outputs) + (if depIds[k] in outputs then [outputs[depIds[k]]] else [])
  {
    assert depIds[..k+1][..k] == depIds[..k];
  }

  lemma OneMoreInput(inputs: seq<StepOutput>, o: StepOutput, slot: nat)
    ensures AnyNull(inputs + [o], slot) <==> AnyNull(inputs, slot) || (slot < |o.flags| && IsNull(o.flags[slot]))
    ensures AnyError(inputs + [o], slot) <==> AnyError(inputs, slot) || (slot < |o.flags| && IsError(o.flags[slot]))
  {
    var more := inputs + [o];
    assert more[|inputs|] == o;
    assert forall k :: 0 <= k < |inputs| ==> more[k] == inputs[k];
  }

  lemma MarkOr(f: StepFlags, n: bool, e: bool)
    requires f == Mark(IsNull(f), IsError(f))
    ensures f | Mark(n, e) == Mark(IsNull(f) || n, IsError(f) || e)
  {
  }

  function Marks(inputs: seq<StepOutput>, batch: nat): (r: seq<StepFlags>)
    ensures |r| == batch
    ensures forall i :: 0 <= i < batch ==> r[i] == Mark(AnyNull(inputs, i), AnyError(inputs, i))
  {
    seq(batch, i requires 0 <= i => Mark(AnyNull(inputs, i), AnyError(inputs, i)))
  }

  /** Fold one dependency's flags into the marks gathered so far. */
  method MarkSlots(flags: seq<StepFlags>, o: StepOutput, batch: nat, ghost inputs: seq<StepOutput>)
    returns (r: seq<StepFlags>, any: bool)
    requires flags == Marks(inputs, batch)
    ensures r == Marks(inputs + [o], batch)
    ensures any <==> exists i :: 0 <= i < batch && i < |o.flags| && (IsNull(o.flags[i]) || IsError(o.flags[i]))
  {
    r, any := flags, false;
    var upTo := if batch < |o.flags| then batch else |o.flags|;
    for i := 0 to upTo
      invariant |r| == batch
      invariant forall j :: 0 <= j < i ==> r[j] == Mark(AnyNull(inputs + [o], j), AnyError(inputs + [o], j))
      invariant forall j :: i <= j < batch ==> r[j] == flags[j]
      invariant any <==> exists j :: 0 <= j < i && (IsNull(o.flags[j]) || IsError(o.flags[j]))
    {
      OneMoreInput(inputs, o, i);
      MarkOr(r[i], IsNull(o.flags[i]), IsError(o.flags[i]));
      if IsNull(o.flags[i]) {
        r := r[i := r[i] | NULL];
        any := true;
      }
      if IsError(o.flags[i]) {
        r := r[i := r[i] | ERROR];
        any := true;
      }
    }
    forall j | upTo <= j < batch
      ensures r[j] == Mark(AnyNull(inputs + [o], j), AnyError(inputs + [o], j))
    {
      OneMoreInput(inputs, o, j);
    }
  }

  method CheckPropagatingFlags(depIds: seq<StepId>, outputs: map<StepId, StepOutput>, batch: nat)
    returns (r: Option<StepOutput>)
    ensures Blocked(Present(depIds, outputs), batch) ==> r == Some(SkipOutput(Present(depIds, outputs), batch))
    ensures !Blocked(Present(depIds, outputs), batch) ==> r == None
  {
    if depIds == [] {
      assert batch > 0 ==> !Covered(Present(depIds, outputs), 0);
      return None;
    }
    var flags: seq<StepFlags> := seq(batch, _ => NONE);
    var any := false;
    for k := 0 to |depIds|
      invariant flags == Marks(Present(depIds[..k], outputs), batch)
      invariant any <==> exists i :: 0 <= i < batch && !IsValue(flags[i])
    {
      PresentExtends(depIds, outputs, k);
      if depIds[k] in outputs {
        ghost var before := flags;
        var more;
        flags, more := MarkSlots(flags, outputs[depIds[k]], batch, Present(depIds[..k], outputs));
        AnyMarked(Present(depIds[..k], outputs), outputs[depIds[k]], batch, before, flags);
        any := any || more;
      } else {
        assert Present(depIds[..k+1], outputs) == Present(depIds[..k], outputs);
      }
    }
    assert depIds[..|depIds|] == depIds;
    ghost var inputs := Present(depIds, outputs);
    if !any {
      assert batch > 0 ==> IsValue(flags[0]) && !Covered(inputs, 0);
      return None;
    }
    var allFlagged := forall i :: 0 <= i < |flags| ==> !IsValue(flags[i]);
    assert allFlagged <==> forall i :: 0 <= i < batch ==> Covered(inputs, i) by {
      assert forall i :: 0 <= i < batch ==> (Covered(inputs, i) <==> !IsValue(flags[i]));
    }
    if allFlagged {
      return Some(Batch(seq(batch, _ => Unit), flags));
    } else {
      return None;
    }
  }

  lemma AnyMarked(inputs: seq<StepOutput>, o: StepOutput, batch: nat, before: seq<StepFlags>, after: seq<StepFlags>)
    requires before == Marks(inputs, batch) && after == Marks(inputs + [o], batch)
    ensures (exists i :: 0 <= i < batch && !IsValue(after[i])) <==>
      (exists i :: 0 <= i < batch && !IsValue(before[i])) ||
      (exists i :: 0 <= i < batch && i < |o.flags| && (IsNull(o.flags[i]) || IsError(o.flags[i])))
  {
    forall i | 0 <= i < batch
      ensures !IsValue(after[i]) <==>
        !IsValue(before[i]) || (i < |o.flags| && (IsNull(o.flags[i]) || IsError(o.flags[i])))
    {
      OneMoreInput(inputs, o, i);
    }
  }

  // ----- tiers -----

  /** A chain is the longest that ends at `id` when no chain is longer. */
  ghost predicate LongestChain(q: Program, id: StepId, length: nat)
    requires Closed(q)
  {
    && (exists path :: IsChain(q, path) && path[|path|-1] == id && |path| == length)
    && (forall path :: IsChain(q, path) && path[|path|-1] == id ==> |path| <= length)
  }

  /** Some dependency of `id` sits exactly one tier lower. */
  ghost predicate JustAbove(q: Program, tierOf: map<StepId, nat>, id: StepId) {
    && id in q.wiring && id in tierOf
    && exists i :: 0 <= i < |q.wiring[id]| && q.wiring[id][i] in tierOf
         && tierOf[q.wiring[id][i]] + 1 == tierOf[id]
  }

  /** `tierOf` puts every listed step one above its highest dependency. */
  ghost predicate Layered(q: Program, ids: set<StepId>, tierOf: map<StepId, nat>)
    requires Closed(q)
  {
    && tierOf.Keys == ids <= q.steps.Keys
    && (forall id, i :: id in ids && 0 <= i < |q.wiring[id]| ==>
          q.wiring[id][i] in ids && tierOf[q.wiring[id][i]] < tierOf[id])
    && (forall id {:trigger JustAbove(q, tierOf, id)} :: id in ids && tierOf[id] > 0 ==> JustAbove(q, tierOf, id))
  }

  lemma {:induction false} ChainIsShort(q: Program, tierOf: map<StepId, nat>, path: seq<StepId>)
    requires Closed(q) && Layered(q, q.steps.Keys, tierOf) && IsChain(q, path)
    ensures |path| <= tierOf[path[|path|-1]] + 1
    decreases |path|
  {
    var n := |path|;
    if n > 1 {
      assert path[n-2] in q.wiring[path[n-1]];
      var i :| 0 <= i < |q.wiring[path[n-1]]| && q.wiring[path[n-1]][i] == path[n-2];
      assert tierOf[q.wiring[path[n-1]][i]] < tierOf[path[n-1]];
      ChainIsShort(q, tierOf, path[..n-1]);
    }
  }

  lemma {:induction false} ChainExists(q: Program, tierOf: map<StepId, nat>, id: StepId) returns (path: seq<StepId>)
    requires Closed(q) && Layered(q, q.steps.Keys, tierOf) && id in q.steps
    ensures IsChain(q, path) && path[|path|-1] == id && |path| == tierOf[id] + 1
    decreases tierOf[id]
  {
    if tierOf[id] == 0 {
      path := [id];
    } else {
      assert JustAbove(q, tierOf, id);
      var i :| 0 <= i < |q.wiring[id]| && tierOf[q.wiring[id][i]] == tierOf[id] - 1;
      var shorter := ChainExists(q, tierOf, q.wiring[id][i]);
      path := shorter + [id];
      assert forall k :: 0 < k < |shorter| ==> path[k-1] in q.wiring[path[k]];
    }
  }

  /** The tier of a step is the number of wires on its longest dependency chain. */
  lemma TierIsLongestChain(q: Program, tierOf: map<StepId, nat>, id: StepId)
    requires Closed(q) && Layered(q, q.steps.Keys, tierOf) && id in q.steps
    ensures LongestChain(q, id, tierOf[id] + 1)
  {
    var path := ChainExists(q, tierOf, id);
    forall path | IsChain(q, path) && path[|path|-1] == id ensures |path| <= tierOf[id] + 1 {
      ChainIsShort(q, tierOf, path);
    }
  }

  /** No assignment of levels that respects the wires places a step lower. */
  lemma {:induction false} TiersAreLowest(q: Program, tierOf: map<StepId, nat>, level: map<StepId, nat>, id: StepId)
    requires Closed(q) && Layered(q, q.steps.Keys, tierOf) && RankedBy(q, level) && id in q.steps
    ensures tierOf[id] <= level[id]
    decreases tierOf[id]
  {
    if tierOf[id] > 0 {
      assert JustAbove(q, tierOf, id);
      var i :| 0 <= i < |q.wiring[id]| && tierOf[q.wiring[id][i]] == tierOf[id] - 1;
      TiersAreLowest(q, tierOf, level, q.wiring[id][i]);
    }
  }

  /** The highest tier among the dependencies that have one. */
  method HighestTier(deps: seq<StepId>, tierOf: map<StepId, nat>) returns (r: Option<nat>)
    ensures r == None <==> forall d :: d in deps ==> d !in tierOf
    ensures r.Some? ==>
      && (exists d :: d in deps && d in tierOf && tierOf[d] == r.value)
      && (forall d :: d in deps && d in tierOf ==> tierOf[d] <= r.value)
  {
    r := None;
    for i := 0 to |deps|
      invariant r == None <==> forall d :: d in deps[..i] ==> d !in tierOf
      invariant r.Some? ==> exists d :: d in deps[..i] && d in tierOf && tierOf[d] == r.value
      invariant r.Some? ==> forall d :: d in deps[..i] && d in tierOf ==> tierOf[d] <= r.value
    {
      assert deps[..i+1] == deps[..i] + [deps[i]];
      if deps[i] in tierOf && (r == None || tierOf[deps[i]] > r.value) {
        assert deps[i] in deps[..i+1];
        r := Some(tierOf[deps[i]]);
      }
    }
    assert deps[..|deps|] == deps;
  }

  lemma LayerNext(q: Program, ids: set<StepId>, tierOf: map<StepId, nat>, id: StepId, tier: nat)
    requires Closed(q) && Layered(q, ids, tierOf) && id in q.steps && id !in ids
    requires forall d :: d in q.wiring[id] ==> d in ids && tierOf[d] < tier
    requires tier > 0 ==> exists d :: d in q.wiring[id] && tierOf[d] == tier - 1
    ensures Layered(q, ids + {id}, tierOf[id := tier])
  {
    var later := tierOf[id := tier];
    forall x | x in ids + {id} && later[x] > 0 ensures JustAbove(q, later, x) {
      if x == id {
        var d :| d in q.wiring[id] && tierOf[d] == tier - 1;
        var i :| 0 <= i < |q.wiring[id]| && q.wiring[id][i] == d;
        assert later[q.wiring[x][i]] == later[x] - 1;
      } else {
        assert JustAbove(q, tierOf, x);
        var i :| 0 <= i < |q.wiring[x]| && tierOf[q.wiring[x][i]] == tierOf[x] - 1;
        assert later[q.wiring[x][i]] == later[x] - 1;
      }
    }
  }

  /** The plan's graph is that of `q`, and the order sorts it. */
  ghost predicate Fits(plan: ExecutionPlan, q: Program, order: seq<StepId>)
    reads plan
  {
    && plan.Valid() && q.steps == plan.steps
    && Represents(plan.graph, q) && IsTopological(q, order)
  }

  method AssignTiers(order: seq<StepId>, plan: ExecutionPlan, ghost q: Program)
    returns (tierOf: map<StepId, nat>, maxTier: nat)
    requires plan.Valid()
    ensures tierOf.Keys == Elements(order)
    ensures IsHighest(tierOf, maxTier, Distinct(order))
    ensures Fits(plan, q, order) ==> Layered(q, q.steps.Keys, tierOf)
  {
    tierOf, maxTier := map[], 0;
    ghost var fits := Fits(plan, q, order);
    for k := 0 to |order|
      invariant tierOf.Keys == Elements(order[..k])
      invariant IsHighest(tierOf, maxTier, Distinct(order))
      invariant fits ==> Layered(q, Elements(order[..k]), tierOf)
    {
      var tier := NextTier(order, k, plan, q, tierOf);
      ElementsPrefix(order, k);
      HighestNext(tierOf, maxTier, Distinct(order), order[k], tier);
      tierOf := tierOf[order[k] := tier];
      if tier > maxTier {
        maxTier := tier;
      }
    }
    assert order[..|order|] == order;
    if fits {
      CoversAll(q, order);
    }
  }

  /** No tier exceeds `top`, and some step reaches it. */
  ghost predicate IsHighest(tierOf: map<StepId, nat>, top: nat, attained: bool) {
    && (forall id :: id in tierOf ==> tierOf[id] <= top)
    && (tierOf == map[] ==> top == 0)
    && (attained && tierOf != map[] ==> exists id :: id in tierOf && tierOf[id] == top)
  }

  lemma HighestNext(tierOf: map<StepId, nat>, top: nat, attained: bool, id: StepId, tier: nat)
    requires IsHighest(tierOf, top, attained) && (attained ==> id !in tierOf)
    ensures IsHighest(tierOf[id := tier], if tier > top then tier else top, attained)
  {
    var later := tierOf[id := tier];
    assert later[id] == tier;
    if attained && tierOf != map[] {
      var x :| x in tierOf && tierOf[x] == top;
      assert x in later && later[x] == top;
    }
  }

  lemma CoversAll(q: Program, order: seq<StepId>)
    requires Closed(q) && IsTopological(q, order)
    ensures Elements(order) == q.steps.Keys
  {
  }

  /** One above the highest tier among the dependencies. */
  method NextTier(order: seq<StepId>, k: nat, plan: ExecutionPlan, ghost q: Program, tierOf: map<StepId, nat>)
    returns (tier: nat)
    requires plan.Valid() && k < |order|
    ensures Fits(plan, q, order) && Layered(q, Elements(order[..k]), tierOf) ==>
      Layered(q, Elements(order[..k]) + {order[k]}, tierOf[order[k] := tier])
  {
    var deps := plan.DependenciesOf(order[k]);
    var highest := HighestTier(deps, tierOf);
    tier := if highest.Some? then highest.value + 1 else 0;
    if Fits(plan, q, order) && Layered(q, Elements(order[..k]), tierOf) {
      OneAbove(q, order, k, deps, tierOf, highest, tier);
    }
  }

  lemma OneAbove(q: Program, order: seq<StepId>, k: nat, deps: seq<StepId>, tierOf: map<StepId, nat>,
                 highest: Option<nat>, tier: nat)
    requires Closed(q) && IsTopological(q, order) && k < |order|
    requires forall d :: d in deps <==> d in q.wiring[order[k]]
    requires Layered(q, Elements(order[..k]), tierOf)
    requires highest == None <==> forall d :: d in deps ==> d !in tierOf
    requires highest.Some? ==>
      && (exists d :: d in deps && d in tierOf && tierOf[d] == highest.value)
      && (forall d :: d in deps && d in tierOf ==> tierOf[d] <= highest.value)
    requires tier == if highest.Some? then highest.value + 1 else 0
    ensures Layered(q, Elements(order[..k]) + {order[k]}, tierOf[order[k] := tier])
  {
    WiresComeEarlier(q, order, k);
    LayerNext(q, Elements(order[..k]), tierOf, order[k], tier);
  }

  function AtTier(tierOf: map<StepId, nat>, t: nat): set<StepId> {
    set id | id in tierOf && tierOf[id] == t
  }

  method CollectTiers(order: seq<StepId>, tierOf: map<StepId, nat>, maxTier: nat) returns (tiers: seq<seq<StepId>>)
    requires tierOf.Keys == Elements(order) && forall id :: id in tierOf ==> tierOf[id] <= maxTier
    ensures |tiers| == maxTier + 1
    ensures forall t :: 0 <= t <= maxTier ==> tiers[t] == Select(order, AtTier(tierOf, t))
  {
    tiers := seq(maxTier + 1, _ => []);
    for k := 0 to |order|
      invariant |tiers| == maxTier + 1
      invariant forall t :: 0 <= t <= maxTier ==> tiers[t] == Select(order[..k], AtTier(tierOf, t))
    {
      forall t | 0 <= t <= maxTier
        ensures Select(order[..k+1], AtTier(tierOf, t)) ==
          Select(order[..k], AtTier(tierOf, t)) + (if order[k] in AtTier(tierOf, t) then [order[k]] else [])
      {
        SelectedPrefix(order, AtTier(tierOf, t), k);
      }
      if order[k] in tierOf {
        var t := tierOf[order[k]];
        tiers := tiers[t := tiers[t] + [order[k]]];
      }
    }
    assert order[..|order|] == order;
  }

  method ComputeTiers(order: seq<StepId>, plan: ExecutionPlan, ghost q: Program)
    returns (tiers: seq<seq<StepId>>, tierOf: map<StepId, nat>)
    requires plan.Valid()
    ensures tierOf.Keys == Elements(order)
    ensures forall id :: id in tierOf ==> tierOf[id] < |tiers|
    ensures forall t :: 0 <= t < |tiers| ==> tiers[t] == Select(order, AtTier(tierOf, t))
    ensures tiers != [] && Distinct(order) ==> exists id :: id in tierOf && tierOf[id] == |tiers| - 1
    ensures Fits(plan, q, order) ==> Layered(q, q.steps.Keys, tierOf)
  {
    if order == [] {
      tiers, tierOf := [], map[];
      return;
    }
    var assignment, maxTier := AssignTiers(order, plan, q);
    assert order[0] in assignment;
    tiers := CollectTiers(order, assignment, maxTier);
    tierOf := assignment;
  }

  /** Every tier up to the highest holds a step. */
  lemma {:induction false} NoTierIsEmpty(q: Program, tierOf: map<StepId, nat>, id: StepId, t: nat)
    requires Closed(q) && Layered(q, q.steps.Keys, tierOf) && id in q.steps && t <= tierOf[id]
    ensures AtTier(tierOf, t) != {}
    decreases tierOf[id]
  {
    if t == tierOf[id] {
      assert id in AtTier(tierOf, t);
    } else {
      assert JustAbove(q, tierOf, id);
      var i :| 0 <= i < |q.wiring[id]| && tierOf[q.wiring[id][i]] == tierOf[id] - 1;
      NoTierIsEmpty(q, tierOf, q.wiring[id][i], t);
    }
  }

  // ----- tasks -----

  /** A spawned task: the step and the inputs it was given. */
  datatype Task = Task(step: Step, inputs: seq<StepOutput>)

  function TaskVerdict(task: Task, batch: nat): Verdict {
    Finish(task.step, task.step.run(task.inputs), batch)
  }

  predicate AllFinish(tasks: seq<Task>, batch: nat) {
    forall k :: 0 <= k < |tasks| ==> TaskVerdict(tasks[k], batch).Produced?
  }

  /** The outputs once the tasks' results are stored, in the order of their handles. */
  function Joined(outputs: map<StepId, StepOutput>, tasks: seq<Task>, batch: nat): map<StepId, StepOutput>
    requires AllFinish(tasks, batch)
  {
    if tasks == [] then outputs
    else
      var n := |tasks| - 1;
      Joined(outputs, tasks[..n], batch)[tasks[n].step.id := TaskVerdict(tasks[n], batch).output]
  }

  lemma JoinedNext(outputs: map<StepId, StepOutput>, tasks: seq<Task>, k: nat, batch: nat)
    requires k < |tasks| && AllFinish(tasks[..k], batch)
    ensures TaskVerdict(tasks[k], batch).Crash? ==> !AllFinish(tasks, batch)
    ensures TaskVerdict(tasks[k], batch).Produced? ==>
      && AllFinish(tasks[..k+1], batch)
      && Joined(outputs, tasks[..k+1], batch) ==
           Joined(outputs, tasks[..k], batch)[tasks[k].step.id := TaskVerdict(tasks[k], batch).output]
  {
    assert tasks[..k+1][..k] == tasks[..k];
  }

  function Handles(n: nat): (r: set<nat>)
    ensures forall k :: k in r <==> 0 <= k < n
  {
    if n == 0 then {} else Handles(n-1) + {n-1}
  }

  /** Tasks complete in any order, interleaved in any way with the loop that awaits the handles
      one after the other; a panicked task ends the execution when its handle is awaited. */
  method AwaitTasks(tasks: seq<Task>, outputs: map<StepId, StepOutput>, batch: nat)
    returns (r: Result<map<StepId, StepOutput>, PlanError>)
    ensures r.Ok? <==> AllFinish(tasks, batch)
    ensures r.Ok? ==> r.value == Joined(outputs, tasks, batch)
    ensures r.Err? ==> r.error == TaskJoin
  {
    var pending := Handles(|tasks|);
    var finished: map<nat, Outcome> := map[];
    var collected := outputs;
    var next := 0;
    while next < |tasks|
      invariant 0 <= next <= |tasks|
      invariant forall k :: k in pending ==> 0 <= k < |tasks|
      invariant forall k :: 0 <= k < |tasks| ==> k in pending || k in finished
      invariant forall k :: k in finished ==> k < |tasks| && finished[k] == tasks[k].step.run(tasks[k].inputs)
      invariant AllFinish(tasks[..next], batch)
      invariant collected == Joined(outputs, tasks[..next], batch)
      decreases |tasks| - next, |pending|
    {
      var awaitNow: bool := *;
      if next in finished && (pending == {} || awaitNow) {
        var task := tasks[next];
        JoinedNext(outputs, tasks, next, batch);
        match finished[next] {
          case Completed(o) =>
            collected := collected[task.step.id := if task.step.unary then BroadcastUnary(o, batch) else o];
          case Failed(m) =>
            collected := collected[task.step.id := ErrorOutput(m, batch)];
          case Panicked =>
            return Err(TaskJoin);
        }
        next := next + 1;
      } else {
        assert next !in finished ==> next in pending;
        var k :| k in pending;
        finished := finished[k := tasks[k].step.run(tasks[k].inputs)];
        pending := pending - {k};
      }
    }
    assert tasks[..|tasks|] == tasks;
    r := Ok(collected);
  }

  // ----- one tier -----

  /** Every stored output is what the program means at that step. */
  ghost predicate Correct(q: Program, outputs: map<StepId, StepOutput>)
    requires Acyclic(q)
  {
    forall id :: id in outputs ==> id in q.steps && Meaning(q, id) == Produced(outputs[id])
  }

  /** A task that produces what the program means at its step. */
  ghost predicate TaskFor(q: Program, task: Task)
    requires Acyclic(q)
  {
    var id := task.step.id;
    && id in q.steps && q.steps[id] == task.step && Runs(q, id)
    && Meaning(q, id) == TaskVerdict(task, q.batch)
  }

  /** With the inputs already computed, a step either passes flags on or runs on exactly them. */
  lemma StepWithInputs(q: Program, id: StepId, outputs: map<StepId, StepOutput>)
    requires Acyclic(q) && Correct(q, outputs) && id in q.steps
    requires forall i :: 0 <= i < |q.wiring[id]| ==> q.wiring[id][i] in outputs
    ensures var inputs := Present(q.wiring[id], outputs);
      && (Runs(q, id) <==> !Blocked(inputs, q.batch))
      && Meaning(q, id) == Perform(q.steps[id], inputs, q.batch)
  {
    var inputs := Present(q.wiring[id], outputs);
    var vs := Supplies(q, id);
    assert Outputs(vs) == inputs;
    MeaningUnfolds(q, id);
  }

  /** The positional inputs, or the first dependency that has no output. */
  method GatherInputs(depIds: seq<StepId>,
                      outputs: map<StepId, StepOutput>) returns (r: Result<seq<StepOutput>, StepId>)
    ensures r.Ok? <==> forall i :: 0 <= i < |depIds| ==> depIds[i] in outputs
    ensures r.Ok? ==> r.value == Present(depIds, outputs)
    ensures r.Err? ==> r.error in depIds && r.error !in outputs
  {
    var inputs: seq<StepOutput> := [];
    for i := 0 to |depIds|
      invariant forall j :: 0 <= j < i ==> depIds[j] in outputs
      invariant inputs == Present(depIds[..i], outputs)
    {
      PresentExtends(depIds, outputs, i);
      if depIds[i] !in outputs {
        return Err(depIds[i]);
      }
      inputs := inputs + [outputs[depIds[i]]];
    }
    assert depIds[..|depIds|] == depIds;
    r := Ok(inputs);
  }

  datatype Launch = Skipped(output: StepOutput) | Spawned(task: Task) | Missing(dep: StepId)

  /** Blocked steps are skipped, others run on exactly the inputs they name. */
  ghost predicate Launches(step: Step, depIds: seq<StepId>, outputs: map<StepId, StepOutput>, batch: nat, r: Launch) {
    var inputs := Present(depIds, outputs);
    && (r.Skipped? ==> Blocked(inputs, batch) && r.output == SkipOutput(inputs, batch))
    && (r.Spawned? ==> !Blocked(inputs, batch) && r.task == Task(step, inputs) && |inputs| == |depIds|)
    && (r.Missing? ==> r.dep in depIds && r.dep !in outputs)
  }

  /** Decide what happens to one step of the current tier. */
  method LaunchStep(step: Step, remap: map<StepId, StepId>, outputs: map<StepId, StepOutput>, batch: nat)
    returns (r: Launch)
    ensures Launches(step, Resolve(remap, step.deps), outputs, batch, r)
  {
    var depIds := Resolve(remap, step.deps);
    var skip := CheckPropagatingFlags(depIds, outputs, batch);
    if skip.Some? {
      return Skipped(skip.value);
    }
    var gathered := GatherInputs(depIds, outputs);
    if gathered.Err? {
      return Missing(gathered.error);
    }
    r := Spawned(Task(step, gathered.value));
  }

  lemma LaunchIsRight(q: Program, id: StepId, outputs: map<StepId, StepOutput>, r: Launch)
    requires Acyclic(q) && Correct(q, outputs) && id in q.steps && q.steps[id].id == id
    requires forall i :: 0 <= i < |q.wiring[id]| ==> q.wiring[id][i] in outputs
    requires Launches(q.steps[id], q.wiring[id], outputs, q.batch, r)
    ensures r.Skipped? ==> !Runs(q, id) && Correct(q, outputs[id := r.output])
    ensures r.Spawned? ==> Runs(q, id) && TaskFor(q, r.task)
    ensures !r.Missing?
  {
    StepWithInputs(q, id, outputs);
  }

  /** The steps whose own `execute` is called. */
  ghost function RunSteps(q: Program): set<StepId>
    requires Acyclic(q)
  {
    set id | id in q.steps && Runs(q, id)
  }

  function TaskIds(tasks: seq<Task>): seq<StepId> {
    seq(|tasks|, i requires 0 <= i < |tasks| => tasks[i].step.id)
  }

  /** All inputs of a tier are available, and none of its steps has an output yet. */
  ghost predicate TierReady(q: Program, tier: seq<StepId>, outputs: map<StepId, StepOutput>)
  {
    && Acyclic(q) && Correct(q, outputs) && Distinct(tier)
    && forall id :: id in tier ==>
         && id in q.steps && q.steps[id].id == id && id !in outputs
         && forall i :: 0 <= i < |q.wiring[id]| ==> q.wiring[id][i] in outputs
  }

  /** The first `k` steps of a tier are dispatched. */
  ghost predicate Dispatched(q: Program, tier: seq<StepId>, k: nat, before: set<StepId>,
                             outputs: map<StepId, StepOutput>, tasks: seq<Task>)
    requires Acyclic(q) && k <= |tier|
  {
    && Correct(q, outputs)
    && outputs.Keys == before + (Elements(tier[..k]) - RunSteps(q))
    && TaskIds(tasks) == Select(tier[..k], RunSteps(q))
    && forall i :: 0 <= i < |tasks| ==> TaskFor(q, tasks[i])
  }

  lemma DispatchNext(q: Program, tier: seq<StepId>, k: nat, start: map<StepId, StepOutput>,
                     outputs: map<StepId, StepOutput>, tasks: seq<Task>, r: Launch)
    requires TierReady(q, tier, start) && k < |tier|
    requires Dispatched(q, tier, k, start.Keys, outputs, tasks)
    requires Launches(q.steps[tier[k]], q.wiring[tier[k]], outputs, q.batch, r)
    ensures !r.Missing?
    ensures r.Skipped? ==> Dispatched(q, tier, k+1, start.Keys, outputs[tier[k] := r.output], tasks)
    ensures r.Spawned? ==> Dispatched(q, tier, k+1, start.Keys, outputs, tasks + [r.task])
  {
    assert tier[k] in tier;
    LaunchIsRight(q, tier[k], outputs, r);
    if r.Skipped? {
      DispatchSkipped(q, tier, k, start.Keys, outputs, tasks, r.output);
    } else {
      DispatchSpawned(q, tier, k, start.Keys, outputs, tasks, r.task);
    }
  }

  lemma DispatchSkipped(q: Program, tier: seq<StepId>, k: nat, before: set<StepId>,
                        outputs: map<StepId, StepOutput>, tasks: seq<Task>, o: StepOutput)
    requires Acyclic(q) && k < |tier| && Dispatched(q, tier, k, before, outputs, tasks)
    requires tier[k] !in RunSteps(q) && Correct(q, outputs[tier[k] := o])
    ensures Dispatched(q, tier, k+1, before, outputs[tier[k] := o], tasks)
  {
    ElementsPrefix(tier, k);
    SelectedPrefix(tier, RunSteps(q), k);
  }

  lemma DispatchSpawned(q: Program, tier: seq<StepId>, k: nat, before: set<StepId>,
                        outputs: map<StepId, StepOutput>, tasks: seq<Task>, task: Task)
    requires Acyclic(q) && k < |tier| && Dispatched(q, tier, k, before, outputs, tasks)
    requires TaskFor(q, task) && task.step.id == tier[k]
    ensures Dispatched(q, tier, k+1, before, outputs, tasks + [task])
  {
    ElementsPrefix(tier, k);
    SelectedPrefix(tier, RunSteps(q), k);
    assert TaskIds(tasks + [task]) == TaskIds(tasks) + [tier[k]];
  }

  method DispatchTier(op: OptimizedPlan, tier: seq<StepId>, outputs: map<StepId, StepOutput>, ghost q: Program)
    returns (r: Result<(map<StepId, StepOutput>, seq<Task>), PlanError>)
    requires op.plan.Valid()
    ensures r.Err? ==> r.error.MissingDependency?
    ensures Runnable(op, q) && TierReady(q, tier, outputs) ==>
      r.Ok? && Dispatched(q, tier, |tier|, outputs.Keys, r.value.0, r.value.1)
  {
    hide Launches, TaskFor, RunSteps, Represents, Meaning, IsTopological;
    var stored := outputs;
    var tasks: seq<Task> := [];
    ghost var good := Runnable(op, q) && TierReady(q, tier, outputs);
    if good {
      assert Dispatched(q, tier, 0, outputs.Keys, stored, tasks);
    }
    for k := 0 to |tier|
      invariant good ==> Dispatched(q, tier, k, outputs.Keys, stored, tasks)
    {
      var id := tier[k];
      if good {
        assert id in tier;
      }
      if id in op.plan.steps {
        var launch := LaunchStep(op.plan.steps[id], op.remap, stored, op.plan.batch);
        if good {
          DispatchNext(q, tier, k, outputs, stored, tasks, launch);
        }
        match launch {
          case Skipped(o) => stored := stored[id := o];
          case Spawned(task) => tasks := tasks + [task];
          case Missing(d) => return Err(MissingDependency(id, d));
        }
      }
    }
    r := Ok((stored, tasks));
  }

  // ----- joining a tier -----

  lemma {:induction false} JoinedKeys(outputs: map<StepId, StepOutput>, tasks: seq<Task>, batch: nat)
    requires AllFinish(tasks, batch)
    ensures Joined(outputs, tasks, batch).Keys == outputs.Keys + Elements(TaskIds(tasks))
  {
    if tasks != [] {
      var n := |tasks| - 1;
      JoinedKeys(outputs, tasks[..n], batch);
      assert TaskIds(tasks) == TaskIds(tasks[..n]) + [tasks[n].step.id];
      ElementsExtend(TaskIds(tasks[..n]), tasks[n].step.id);
    }
  }

  lemma {:induction false} JoinedIsCorrect(q: Program, outputs: map<StepId, StepOutput>, tasks: seq<Task>)
    requires Acyclic(q) && Correct(q, outputs) && AllFinish(tasks, q.batch)
    requires forall i :: 0 <= i < |tasks| ==> TaskFor(q, tasks[i])
    ensures Correct(q, Joined(outputs, tasks, q.batch))
  {
    hide Meaning, Finish, Runs, RankedBy;
    if tasks != [] {
      var n := |tasks| - 1;
      JoinedIsCorrect(q, outputs, tasks[..n]);
      assert TaskFor(q, tasks[n]);
    }
  }

  /** A dispatched tier whose tasks all finish has every output of the tier. */
  lemma TierDone(q: Program, tier: seq<StepId>, before: set<StepId>, outputs: map<StepId, StepOutput>, tasks: seq<Task>)
    requires Acyclic(q) && Dispatched(q, tier, |tier|, before, outputs, tasks)
    ensures AllFinish(tasks, q.batch) ==>
      && Correct(q, Joined(outputs, tasks, q.batch))
      && Joined(outputs, tasks, q.batch).Keys == before + Elements(tier)
    ensures !AllFinish(tasks, q.batch) ==> exists id :: id in q.steps && Meaning(q, id).Crash?
  {
    assert tier[..|tier|] == tier;
    if AllFinish(tasks, q.batch) {
      JoinedIsCorrect(q, outputs, tasks);
      JoinedKeys(outputs, tasks, q.batch);
    } else {
      var k :| 0 <= k < |tasks| && TaskVerdict(tasks[k], q.batch).Crash?;
      assert TaskFor(q, tasks[k]);
    }
  }

  // ----- the whole run -----

  function Below(tierOf: map<StepId, nat>, t: nat): set<StepId> {
    set id | id in tierOf && tierOf[id] < t
  }

  lemma {:induction false} SelectedDistinct(s: seq<StepId>, keep: set<StepId>)
    requires Distinct(s)
    ensures Distinct(Select(s, keep))
  {
    if s != [] {
      SelectedDistinct(s[..|s|-1], keep);
    }
  }

  /** Once the lower tiers are done, the next tier is ready. */
  lemma TierIsReady(q: Program, tierOf: map<StepId, nat>, order: seq<StepId>, t: nat, outputs: map<StepId, StepOutput>)
    requires Acyclic(q) && Layered(q, q.steps.Keys, tierOf) && Distinct(order) && Correct(q, outputs)
    requires forall id :: id in q.steps ==> q.steps[id].id == id
    requires outputs.Keys == Below(tierOf, t)
    ensures TierReady(q, Select(order, AtTier(tierOf, t)), outputs)
  {
    SelectedDistinct(order, AtTier(tierOf, t));
  }

  lemma TierCompletes(tierOf: map<StepId, nat>, order: seq<StepId>, t: nat)
    requires tierOf.Keys == Elements(order)
    ensures Below(tierOf, t) + Elements(Select(order, AtTier(tierOf, t))) == Below(tierOf, t + 1)
  {
  }

  ghost predicate SomeCrash(q: Program)
    requires Acyclic(q)
  {
    exists id :: id in q.steps && Meaning(q, id).Crash?
  }

  /** Dispatch one tier and await its tasks. `called` are the steps whose `execute` is invoked. */
  method RunTier(op: OptimizedPlan, tier: seq<StepId>, outputs: map<StepId, StepOutput>, ghost q: Program)
    returns (r: Result<map<StepId, StepOutput>, PlanError>, ghost called: seq<StepId>)
    requires op.plan.Valid()
    ensures Runnable(op, q) && TierReady(q, tier, outputs) ==>
      && (r.Ok? ==> Correct(q, r.value) && r.value.Keys == outputs.Keys + Elements(tier))
      && (r.Err? ==> r.error == TaskJoin && SomeCrash(q))
    ensures Runnable(op, q) && TierReady(q, tier, outputs) ==> called == Select(tier, RunSteps(q))
  {
    var dispatched := DispatchTier(op, tier, outputs, q);
    if dispatched.Err? {
      return Err(dispatched.error), [];
    }
    var (stored, tasks) := dispatched.value;
    called := TaskIds(tasks);
    if Runnable(op, q) && TierReady(q, tier, outputs) {
      TierDone(q, tier, outputs.Keys, stored, tasks);
      assert tier[..|tier|] == tier;
    }
    r := AwaitTasks(tasks, stored, op.plan.batch);
  }

  /** Where a run stands before tier `t`: the lower tiers have their outputs, and exactly their
      running steps have been called, once each. */
  ghost predicate RunAt(q: Program, tierOf: map<StepId, nat>, t: nat, outputs: map<StepId, StepOutput>,
                        calls: seq<StepId>) {
    && Acyclic(q) && Correct(q, outputs) && outputs.Keys == Below(tierOf, t)
    && Distinct(calls) && Elements(calls) == RunSteps(q) * Below(tierOf, t)
  }

  lemma RunAdvances(q: Program, tierOf: map<StepId, nat>, order: seq<StepId>, t: nat,
                    outputs: map<StepId, StepOutput>, calls: seq<StepId>, called: seq<StepId>)
    requires RunAt(q, tierOf, t, outputs, calls) && Distinct(order) && tierOf.Keys == Elements(order)
    requires called == Select(Select(order, AtTier(tierOf, t)), RunSteps(q))
    ensures Distinct(calls + called)
    ensures Elements(calls + called) == RunSteps(q) * Below(tierOf, t + 1)
  {
    var tier := Select(order, AtTier(tierOf, t));
    TierCompletes(tierOf, order, t);
    SelectedDistinct(order, AtTier(tierOf, t));
    SelectedDistinct(tier, RunSteps(q));
    ElementsConcat(calls, called);
    assert Elements(called) == RunSteps(q) * Elements(tier);
    forall i, j | 0 <= i < j < |calls + called| ensures (calls + called)[i] != (calls + called)[j] {
      if i < |calls| <= j {
        assert calls[i] in Elements(calls);
        assert called[j - |calls|] in Elements(called);
      }
    }
  }

  /** The tiers are those of a layering of the whole program. */
  ghost predicate Tiered(q: Program, order: seq<StepId>, tierOf: map<StepId, nat>, tiers: seq<seq<StepId>>) {
    && Acyclic(q) && Distinct(order)
    && (forall id :: id in q.steps ==> q.steps[id].id == id)
    && tierOf.Keys == Elements(order) && Layered(q, q.steps.Keys, tierOf)
    && (forall t :: 0 <= t < |tiers| ==> tiers[t] == Select(order, AtTier(tierOf, t)))
    && (forall id :: id in tierOf ==> tierOf[id] < |tiers|)
  }

  lemma RunStarts(q: Program, order: seq<StepId>, tierOf: map<StepId, nat>, tiers: seq<seq<StepId>>)
    requires Tiered(q, order, tierOf, tiers)
    ensures RunAt(q, tierOf, 0, map[], [])
    ensures Below(tierOf, |tiers|) == q.steps.Keys
  {
    assert Below(tierOf, 0) == {};
  }

  lemma RunStep(q: Program, order: seq<StepId>, tierOf: map<StepId, nat>, tiers: seq<seq<StepId>>, t: nat,
                outputs: map<StepId, StepOutput>, calls: seq<StepId>, ran: map<StepId, StepOutput>, called: seq<StepId>)
    requires Tiered(q, order, tierOf, tiers) && t < |tiers| && RunAt(q, tierOf, t, outputs, calls)
    requires called == Select(tiers[t], RunSteps(q)) && Correct(q, ran) && ran.Keys == outputs.Keys + Elements(tiers[t])
    ensures RunAt(q, tierOf, t+1, ran, calls + called)
  {
    TierCompletes(tierOf, order, t);
    RunAdvances(q, tierOf, order, t, outputs, calls, called);
  }

  /** Run every tier in turn. `calls` records the steps whose `execute` is invoked. */
  method RunTiers(op: OptimizedPlan, tiers: seq<seq<StepId>>, ghost tierOf: map<StepId, nat>, ghost q: Program)
    returns (r: Result<map<StepId, StepOutput>, PlanError>, ghost calls: seq<StepId>)
    requires op.plan.Valid()
    ensures Runnable(op, q) && Tiered(q, op.order, tierOf, tiers) ==>
      && (r.Ok? ==> Correct(q, r.value) && r.value.Keys == q.steps.Keys)
      && (r.Err? ==> r.error == TaskJoin && SomeCrash(q))
    ensures Runnable(op, q) && Tiered(q, op.order, tierOf, tiers) ==>
      Distinct(calls) && Elements(calls) <= RunSteps(q) && (r.Ok? ==> Elements(calls) == RunSteps(q))
  {
    hide Layered, Select, AtTier, Represents, Meaning;
    ghost var good := Runnable(op, q) && Tiered(q, op.order, tierOf, tiers);
    var outputs: map<StepId, StepOutput> := map[];
    calls := [];
    if good {
      RunStarts(q, op.order, tierOf, tiers);
    }
    for t := 0 to |tiers|
      invariant good ==> RunAt(q, tierOf, t, outputs, calls)
    {
      if good {
        TierIsReady(q, tierOf, op.order, t, outputs);
      }
      var ran, called := RunTier(op, tiers[t], outputs, q);
      if good {
        RunAdvances(q, tierOf, op.order, t, outputs, calls, called);
      }
      if ran.Err? {
        return ran, calls + called;
      }
      if good {
        RunStep(q, op.order, tierOf, tiers, t, outputs, calls, ran.value, called);
      }
      calls := calls + called;
      outputs := ran.value;
    }
    r := Ok(outputs);
  }

  lemma RunnableFits(op: OptimizedPlan, q: Program)
    requires Runnable(op, q)
    ensures Fits(op.plan, q, op.order)
  {
  }

  lemma RunnableIsTiered(op: OptimizedPlan, q: Program, tiers: seq<seq<StepId>>, tierOf: map<StepId, nat>)
    requires Runnable(op, q) && tierOf.Keys == Elements(op.order) && Layered(q, q.steps.Keys, tierOf)
    requires forall t :: 0 <= t < |tiers| ==> tiers[t] == Select(op.order, AtTier(tierOf, t))
    requires forall id :: id in tierOf ==> tierOf[id] < |tiers|
    ensures Acyclic(q) && Tiered(q, op.order, tierOf, tiers)
  {
    hide Layered, Select, AtTier, RankedBy, Elements;
    TopologicalIsRanked(q, op.order);
  }

  /** The outputs are the meaning of the plan, for every completion order of the tasks; the only
      error is a panicked task; each step that runs is called exactly once. */
  method Execute(op: OptimizedPlan, ghost q: Program)
    returns (r: Result<map<StepId, StepOutput>, PlanError>, ghost calls: seq<StepId>)
    requires op.plan.Valid()
    ensures Runnable(op, q) ==>
      && Acyclic(q)
      && (r.Ok? ==> Correct(q, r.value) && r.value.Keys == q.steps.Keys)
      && (r.Err? ==> r.error == TaskJoin && SomeCrash(q))
    ensures Runnable(op, q) ==>
      Distinct(calls) && Elements(calls) <= RunSteps(q) && (r.Ok? ==> Elements(calls) == RunSteps(q))
  {
    hide Runnable, Tiered, Correct, RunSteps, SomeCrash, Select, AtTier, Elements, Layered;
    var tiers, tierOf := ComputeTiers(op.order, op.plan, q);
    if Runnable(op, q) {
      RunnableFits(op, q);
      RunnableIsTiered(op, q, tiers, tierOf);
    }
    r, calls := RunTiers(op, tiers, tierOf, q);
  }
}
