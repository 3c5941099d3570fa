/** The reference semantics: what a set of wired steps computes, independently of any order
    of execution, of tiers, of deduplication and of concurrency. */
module Semantics {
  import opened Basics
  import opened Steps

  /** Steps wired to the steps that supply their inputs, position by position. */
  datatype Program = Program(steps: map<StepId, Step>, wiring: map<StepId, seq<StepId>>, batch: nat)

  predicate Closed(p: Program) {
    && p.wiring.Keys == p.steps.Keys
    && forall id, i :: id in p.wiring && 0 <= i < |p.wiring[id]| ==> p.wiring[id][i] in p.steps
  }

  ghost predicate RankedBy(p: Program, rank: map<StepId, nat>) {
    && Closed(p)
    && p.steps.Keys <= rank.Keys
    && forall id, i :: id in p.wiring && 0 <= i < |p.wiring[id]| ==>
         rank[p.wiring[id][i]] < rank[id]
  }

  ghost predicate Acyclic(p: Program) {
    exists rank :: RankedBy(p, rank)
  }

  ghost function SomeRank(p: Program): (rank: map<StepId, nat>)
    requires Acyclic(p)
    ensures RankedBy(p, rank)
  {
    var rank :| RankedBy(p, rank); rank
  }

  // ----- evaluation -----

  function Outputs(vs: seq<Verdict>): seq<StepOutput>
    requires forall i :: 0 <= i < |vs| ==> vs[i].Produced?
  {
    seq(|vs|, i requires 0 <= i < |vs| => vs[i].output)
  }

  predicate AllProduced(vs: seq<Verdict>) {
    forall i :: 0 <= i < |vs| ==> vs[i].Produced?
  }

  function Settle(step: Step, vs: seq<Verdict>, batch: nat): Verdict {
    if AllProduced(vs) then Perform(step, Outputs(vs), batch) else Crash
  }

  ghost function Eval(p: Program, rank: map<StepId, nat>, id: StepId): Verdict
    requires RankedBy(p, rank) && id in p.steps
    decreases rank[id]
  {
    Settle(p.steps[id],
           seq(|p.wiring[id]|, i requires 0 <= i < |p.wiring[id]| => Eval(p, rank, p.wiring[id][i])),
           p.batch)
  }

  ghost function Meaning(p: Program, id: StepId): Verdict
    requires Acyclic(p) && id in p.steps
  {
    Eval(p, SomeRank(p), id)
  }

  /** The verdicts of the steps an id is wired to. */
  ghost function Supplies(p: Program, id: StepId): (vs: seq<Verdict>)
    requires Acyclic(p) && id in p.steps
    ensures |vs| == |p.wiring[id]|
  {
    seq(|p.wiring[id]|, i requires 0 <= i < |p.wiring[id]| => Meaning(p, p.wiring[id][i]))
  }

  lemma {:induction false} MeaningUnfolds(p: Program, id: StepId)
    requires Acyclic(p) && id in p.steps
    ensures Meaning(p, id) == Settle(p.steps[id], Supplies(p, id), p.batch)
  {
    var rank := SomeRank(p);
    assert Supplies(p, id) ==
      seq(|p.wiring[id]|, i requires 0 <= i < |p.wiring[id]| => Eval(p, rank, p.wiring[id][i]));
  }

  /** Any assignment that satisfies the defining equation everywhere is the meaning. */
  lemma {:induction false} MeaningIsUnique(p: Program, m: map<StepId, Verdict>, rank: map<StepId, nat>, id: StepId)
    requires RankedBy(p, rank) && id in p.steps && p.steps.Keys <= m.Keys
    requires forall x :: x in p.steps ==>
      m[x] == Settle(p.steps[x], seq(|p.wiring[x]|, i requires 0 <= i < |p.wiring[x]| => m[p.wiring[x][i]]), p.batch)
    ensures m[id] == Meaning(p, id)
    decreases rank[id]
  {
    forall i | 0 <= i < |p.wiring[id]|
      ensures m[p.wiring[id][i]] == Meaning(p, p.wiring[id][i])
    {
      MeaningIsUnique(p, m, rank, p.wiring[id][i]);
    }
    assert seq(|p.wiring[id]|, i requires 0 <= i < |p.wiring[id]| => m[p.wiring[id][i]]) == Supplies(p, id);
    MeaningUnfolds(p, id);
  }

  /** The step's own `execute` is called: all inputs exist and not every slot is blocked. */
  ghost predicate Runs(p: Program, id: StepId)
    requires Acyclic(p) && id in p.steps
  {
    var vs := Supplies(p, id);
    AllProduced(vs) && !Blocked(Outputs(vs), p.batch)
  }

  // ----- structure: the unfolded term of a step -----

  datatype Term = Term(typeId: nat, config: nat, args: seq<Term>)

  ghost function Unfold(p: Program, rank: map<StepId, nat>, id: StepId): Term
    requires RankedBy(p, rank) && id in p.steps
    decreases rank[id]
  {
    Term(p.steps[id].typeId, p.steps[id].config,
         seq(|p.wiring[id]|, i requires 0 <= i < |p.wiring[id]| => Unfold(p, rank, p.wiring[id][i])))
  }

  ghost function TermOf(p: Program, id: StepId): Term
    requires Acyclic(p) && id in p.steps
  {
    Unfold(p, SomeRank(p), id)
  }

  lemma {:induction false} TermUnfolds(p: Program, id: StepId)
    requires Acyclic(p) && id in p.steps
    ensures TermOf(p, id).typeId == p.steps[id].typeId
    ensures TermOf(p, id).config == p.steps[id].config
    ensures |TermOf(p, id).args| == |p.wiring[id]|
    ensures forall i :: 0 <= i < |p.wiring[id]| ==> TermOf(p, id).args[i] == TermOf(p, p.wiring[id][i])
  {
  }

  // ----- transitive dependence -----

  /** `path` leads from `path[0]` down to its dependent `path[|path|-1]`, one wire at a time. */
  predicate IsChain(p: Program, path: seq<StepId>)
    requires Closed(p)
  {
    && |path| > 0
    && (forall k :: 0 <= k < |path| ==> path[k] in p.steps)
    && (forall k :: 0 < k < |path| ==> path[k-1] in p.wiring[path[k]])
  }

  /** `id` needs `source` through one or more wires. */
  ghost predicate DependsOn(p: Program, id: StepId, source: StepId)
    requires Closed(p)
  {
    exists path :: IsChain(p, path) && |path| > 1 && path[0] == source && path[|path|-1] == id
  }

  // ----- topological orders -----

  /** No step repeats and every wire of a listed step comes from a step listed before it. */
  predicate Ordered(p: Program, order: seq<StepId>)
    requires Closed(p)
  {
    && Distinct(order)
    && (forall k :: 0 <= k < |order| ==> order[k] in p.steps)
    && (forall k, i :: 0 <= k < |order| && 0 <= i < |p.wiring[order[k]]| ==>
          p.wiring[order[k]][i] in order[..k])
  }

  predicate IsTopological(p: Program, order: seq<StepId>)
    requires Closed(p)
  {
    Ordered(p, order) && forall id :: id in p.steps ==> id in order
  }

  lemma OrderedExtends(p: Program, order: seq<StepId>, id: StepId)
    requires Closed(p) && Ordered(p, order)
    requires id in p.steps && id !in order
    requires forall i :: 0 <= i < |p.wiring[id]| ==> p.wiring[id][i] in order
    ensures Ordered(p, order + [id])
  {
    var longer := order + [id];
    forall k, i | 0 <= k < |longer| && 0 <= i < |p.wiring[longer[k]]|
      ensures p.wiring[longer[k]][i] in longer[..k]
    {
      if k < |order| {
        assert longer[..k] == order[..k];
        assert p.wiring[order[k]][i] in order[..k];
      } else {
        assert longer[..k] == order;
      }
    }
  }

  // ----- picking elements out of an order -----

  function Elements(s: seq<StepId>): set<StepId> {
    set id | id in s
  }

  lemma ElementsExtend(s: seq<StepId>, id: StepId)
    ensures Elements(s + [id]) == Elements(s) + {id}
  {
    assert id in s + [id];
    assert forall x :: x in s + [id] <==> x in s || x == id;
  }

  lemma ElementsConcat(s: seq<StepId>, t: seq<StepId>)
    ensures Elements(s + t) == Elements(s) + Elements(t)
  {
    assert forall x: StepId :: x in s + t <==> x in s || x in t;
  }

  lemma ElementsPrefix(s: seq<StepId>, k: nat)
    requires k < |s|
    ensures Elements(s[..k+1]) == Elements(s[..k]) + {s[k]}
  {
    assert s[..k+1] == s[..k] + [s[k]];
    ElementsExtend(s[..k], s[k]);
  }

  /** The elements of `s` that are in `keep`, in the order of `s`. */
  function Select(s: seq<StepId>, keep: set<StepId>): (r: seq<StepId>)
    ensures forall x :: x in r <==> x in s && x in keep
  {
    if s == [] then []
    else
      var rest := Select(s[..|s|-1], keep);
      if s[|s|-1] in keep then rest + [s[|s|-1]] else rest
  }

  function IndexOf(s: seq<StepId>, x: StepId): (k: nat)
    requires x in s
    ensures k < |s| && s[k] == x && x !in s[..k]
  {
    if s[0] == x then 0 else 1 + IndexOf(s[1..], x)
  }

  lemma IndexIsUnique(s: seq<StepId>, k: nat)
    requires Distinct(s) && k < |s|
    ensures IndexOf(s, s[k]) == k
  {
  }

  lemma TopologicalIsRanked(p: Program, order: seq<StepId>)
    requires Closed(p) && IsTopological(p, order)
    ensures RankedBy(p, map id | id in p.steps :: IndexOf(order, id))
    ensures Acyclic(p)
  {
    var rank: map<StepId, nat> := map id | id in p.steps :: IndexOf(order, id);
    forall id, i | id in p.wiring && 0 <= i < |p.wiring[id]|
      ensures rank[p.wiring[id][i]] < rank[id]
    {
      var k := IndexOf(order, id);
      var d := p.wiring[id][i];
      assert p.wiring[order[k]][i] in order[..k];
      var j :| 0 <= j < k && order[j] == d;
      IndexIsUnique(order, j);
    }
    assert RankedBy(p, rank);
  }
}
