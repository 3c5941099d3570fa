/** What deduplication is for: steps with equal unfolded terms share one execution, and
    sharing changes no result. */
module Sharing {
  import opened Basics
  import opened Steps
  import opened Semantics

  function Canonical(remap: map<StepId, StepId>, id: StepId): StepId {
    if id in remap then remap[id] else id
  }

  function Resolve(remap: map<StepId, StepId>, ids: seq<StepId>): (r: seq<StepId>)
    ensures |r| == |ids|
    ensures forall i :: 0 <= i < |ids| ==> r[i] == Canonical(remap, ids[i])
  {
    seq(|ids|, i requires 0 <= i < |ids| => Canonical(remap, ids[i]))
  }

  /** The program in which only canonical steps remain and every wire is redirected. */
  function Shared(p: Program, remap: map<StepId, StepId>): (q: Program)
    requires Closed(p)
    ensures q.wiring.Keys == q.steps.Keys
  {
    Program(p.steps - remap.Keys,
            map id | id in p.wiring && id !in remap :: Resolve(remap, p.wiring[id]),
            p.batch)
  }

  /** Removed ids are steps, and their targets are steps that stay. */
  predicate Retargets(p: Program, remap: map<StepId, StepId>) {
    forall id :: id in remap ==> id in p.steps && remap[id] in p.steps && remap[id] !in remap
  }

  /** Two steps have the same canonical id exactly when their unfolded terms are equal. */
  ghost predicate IsSharing(p: Program, remap: map<StepId, StepId>)
    requires Acyclic(p)
  {
    && Retargets(p, remap)
    && forall a, b :: a in p.steps && b in p.steps ==>
         (Canonical(remap, a) == Canonical(remap, b) <==> TermOf(p, a) == TermOf(p, b))
  }

  /** The contract of `fingerprint`: type and configuration determine behaviour. */
  ghost predicate FingerprintSound(p: Program) {
    forall a, b |
      && a in p.steps && b in p.steps
      && p.steps[a].typeId == p.steps[b].typeId
      && p.steps[a].config == p.steps[b].config
      :: p.steps[a].unary == p.steps[b].unary
         && forall inputs :: p.steps[a].run(inputs) == p.steps[b].run(inputs)
  }

  /** Every removed step comes after the step that absorbed it. */
  predicate AbsorbedEarlier(order: seq<StepId>, remap: map<StepId, StepId>) {
    forall k :: 0 <= k < |order| && order[k] in remap ==> remap[order[k]] in order[..k]
  }

  lemma SharedIsClosed(p: Program, remap: map<StepId, StepId>)
    requires Closed(p) && Retargets(p, remap)
    ensures Closed(Shared(p, remap))
  {
  }

  lemma SelectedPrefix(s: seq<StepId>, keep: set<StepId>, k: nat)
    requires k < |s|
    ensures Select(s[..k+1], keep) == Select(s[..k], keep) + (if s[k] in keep then [s[k]] else [])
  {
    assert s[..k+1][..k] == s[..k];
  }

  /** A redirected wire of an ordered step still comes from an earlier step. */
  lemma RedirectedWireIsEarlier(p: Program, remap: map<StepId, StepId>, order: seq<StepId>, n: nat, i: nat)
    requires Closed(p) && IsTopological(p, order) && Retargets(p, remap) && AbsorbedEarlier(order, remap)
    requires n < |order| && i < |p.wiring[order[n]]|
    ensures Canonical(remap, p.wiring[order[n]][i]) in order[..n]
    ensures Canonical(remap, p.wiring[order[n]][i]) in p.steps.Keys - remap.Keys
  {
    var d := p.wiring[order[n]][i];
    assert d in order[..n];
    if d in remap {
      var j :| 0 <= j < n && order[j] == d;
      assert remap[order[j]] in order[..j];
    }
  }

  /** Dropping steps from an order keeps the program on the remaining steps ordered. */
  lemma {:induction false} SelectedStayOrdered(q: Program, order: seq<StepId>, n: nat)
    requires Closed(q) && Distinct(order) && n <= |order|
    requires forall k, i :: 0 <= k < |order| && order[k] in q.steps && 0 <= i < |q.wiring[order[k]]| ==>
      q.wiring[order[k]][i] in order[..k]
    ensures Ordered(q, Select(order[..n], q.steps.Keys))
  {
    if n == 0 {
      assert Select(order[..0], q.steps.Keys) == [];
    } else {
      hide Ordered;
      var id := order[n-1];
      var before := Select(order[..n-1], q.steps.Keys);
      SelectedStayOrdered(q, order, n-1);
      SelectedPrefix(order, q.steps.Keys, n-1);
      if id in q.steps {
        forall i | 0 <= i < |q.wiring[id]|
          ensures q.wiring[id][i] in before
        {
          assert q.wiring[order[n-1]][i] in order[..n-1];
        }
        OrderedExtends(q, before, id);
      }
    }
  }

  /** The old order, restricted to the steps that stay, is topological for the shared program. */
  lemma SurvivorsTopological(p: Program, remap: map<StepId, StepId>, order: seq<StepId>)
    requires Closed(p) && IsTopological(p, order) && Retargets(p, remap) && AbsorbedEarlier(order, remap)
    ensures Closed(Shared(p, remap))
    ensures IsTopological(Shared(p, remap), Select(order, p.steps.Keys - remap.Keys))
    ensures Acyclic(Shared(p, remap))
  {
    SharedIsClosed(p, remap);
    var q := Shared(p, remap);
    forall k, i | 0 <= k < |order| && order[k] in q.steps && 0 <= i < |q.wiring[order[k]]|
      ensures q.wiring[order[k]][i] in order[..k]
    {
      RedirectedWireIsEarlier(p, remap, order, k, i);
    }
    SelectedStayOrdered(q, order, |order|);
    assert order[..|order|] == order;
    assert q.steps.Keys == p.steps.Keys - remap.Keys;
    TopologicalIsRanked(q, Select(order, q.steps.Keys));
  }

  // ----- sharing is sound -----

  lemma SameBehaviour(a: Step, b: Step, vs: seq<Verdict>, batch: nat)
    requires a.unary == b.unary && forall inputs :: a.run(inputs) == b.run(inputs)
    ensures Settle(a, vs, batch) == Settle(b, vs, batch)
  {
    if AllProduced(vs) {
      assert a.run(Outputs(vs)) == b.run(Outputs(vs));
    }
  }

  /** Steps that unfold to the same term have the same meaning. */
  lemma {:induction false} EqualTermsEqualMeaning(p: Program, rank: map<StepId, nat>, a: StepId, b: StepId)
    requires RankedBy(p, rank) && FingerprintSound(p)
    requires a in p.steps && b in p.steps && TermOf(p, a) == TermOf(p, b)
    ensures Meaning(p, a) == Meaning(p, b)
    decreases rank[a]
  {
    TermUnfolds(p, a);
    TermUnfolds(p, b);
    forall i | 0 <= i < |p.wiring[a]|
      ensures Meaning(p, p.wiring[a][i]) == Meaning(p, p.wiring[b][i])
    {
      assert TermOf(p, a).args[i] == TermOf(p, b).args[i];
      EqualTermsEqualMeaning(p, rank, p.wiring[a][i], p.wiring[b][i]);
    }
    assert Supplies(p, a) == Supplies(p, b);
    MeaningUnfolds(p, a);
    MeaningUnfolds(p, b);
    SameBehaviour(p.steps[a], p.steps[b], Supplies(p, a), p.batch);
  }

  lemma CanonicalSameMeaning(p: Program, remap: map<StepId, StepId>, id: StepId)
    requires Acyclic(p) && IsSharing(p, remap) && FingerprintSound(p) && id in p.steps
    ensures Meaning(p, Canonical(remap, id)) == Meaning(p, id)
  {
    var c := Canonical(remap, id);
    assert Canonical(remap, c) == c;
    EqualTermsEqualMeaning(p, SomeRank(p), c, id);
  }

  lemma {:induction false} SurvivorKeepsMeaning(p: Program, remap: map<StepId, StepId>, rank: map<StepId, nat>,
                                                id: StepId)
    requires Acyclic(p) && IsSharing(p, remap) && FingerprintSound(p)
    requires RankedBy(Shared(p, remap), rank) && id in Shared(p, remap).steps
    ensures Supplies(Shared(p, remap), id) == Supplies(p, id)
    ensures Meaning(Shared(p, remap), id) == Meaning(p, id)
    decreases rank[id]
  {
    var q := Shared(p, remap);
    forall i | 0 <= i < |q.wiring[id]|
      ensures Meaning(q, q.wiring[id][i]) == Meaning(p, p.wiring[id][i])
    {
      SurvivorKeepsMeaning(p, remap, rank, q.wiring[id][i]);
      CanonicalSameMeaning(p, remap, p.wiring[id][i]);
    }
    assert Supplies(q, id) == Supplies(p, id);
    MeaningUnfolds(q, id);
    MeaningUnfolds(p, id);
  }

  /** Deduplication preserves the meaning of every step, including the removed ones. */
  lemma SharingPreservesMeaning(p: Program, remap: map<StepId, StepId>, id: StepId)
    requires Acyclic(p) && IsSharing(p, remap) && FingerprintSound(p)
    requires Acyclic(Shared(p, remap)) && id in p.steps
    ensures Canonical(remap, id) in Shared(p, remap).steps
    ensures Meaning(Shared(p, remap), Canonical(remap, id)) == Meaning(p, id)
    ensures id !in remap ==> (Runs(Shared(p, remap), id) <==> Runs(p, id))
  {
    SurvivorKeepsMeaning(p, remap, SomeRank(Shared(p, remap)), Canonical(remap, id));
    CanonicalSameMeaning(p, remap, id);
  }
}
