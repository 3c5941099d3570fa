/** What ends up in the slots of a step, said without the executor's own helpers (magna-core
    `executor.rs`, `check_propagating_flags`, `broadcast_unary` and `error_output_batch`). */
module Outcomes {
  import opened Basics
  import opened Steps
  import opened Semantics

  /** What `id` receives in the `k`-th place is the output of its `k`-th dependency. */
  lemma {:induction false} InputsArePositional(p: Program, id: StepId, k: nat)
    requires Acyclic(p) && id in p.steps && k < |p.wiring[id]| && AllProduced(Supplies(p, id))
    ensures |Outputs(Supplies(p, id))| == |p.wiring[id]| && Meaning(p, p.wiring[id][k]).Produced?
    ensures Outputs(Supplies(p, id))[k] == Meaning(p, p.wiring[id][k]).output
  {
    assert Supplies(p, id)[k].Produced?;
  }

  /** Dependency `k` is marked null or in error at the slot. */
  ghost predicate Marks(p: Program, id: StepId, k: nat, slot: nat, bit: StepFlags)
    requires Acyclic(p) && id in p.steps && k < |p.wiring[id]|
  {
    var v := Meaning(p, p.wiring[id][k]);
    v.Produced? && slot < |v.output.flags| && v.output.flags[slot] & bit != 0
  }

  ghost predicate IsMarked(p: Program, id: StepId, slot: nat, bit: StepFlags)
    requires Acyclic(p) && id in p.steps
  {
    exists k :: 0 <= k < |p.wiring[id]| && Marks(p, id, k, slot, bit)
  }

  lemma {:induction false} MarkedMeans(p: Program, id: StepId, slot: nat)
    requires Acyclic(p) && id in p.steps && AllProduced(Supplies(p, id))
    ensures AnyNull(Outputs(Supplies(p, id)), slot) <==> IsMarked(p, id, slot, 1)
    ensures AnyError(Outputs(Supplies(p, id)), slot) <==> IsMarked(p, id, slot, 2)
  {
    var inputs := Outputs(Supplies(p, id));
    forall k | 0 <= k < |p.wiring[id]|
      ensures Marks(p, id, k, slot, 1) <==> slot < |inputs[k].flags| && IsNull(inputs[k].flags[slot])
      ensures Marks(p, id, k, slot, 2) <==> slot < |inputs[k].flags| && IsError(inputs[k].flags[slot])
    {
      InputsArePositional(p, id, k);
    }
  }

  /** A step runs exactly when all its dependencies have outputs and, in a batch that is not empty, some
      slot is neither null nor in error in any of them. */
  lemma {:induction false} RunsWhen(p: Program, id: StepId)
    requires Acyclic(p) && id in p.steps
    ensures Runs(p, id) <==>
      && (forall k :: 0 <= k < |p.wiring[id]| ==> Meaning(p, p.wiring[id][k]).Produced?)
      && (p.batch == 0 || exists slot :: 0 <= slot < p.batch && !IsMarked(p, id, slot, 1) && !IsMarked(p, id, slot, 2))
  {
    var vs := Supplies(p, id);
    assert forall k :: 0 <= k < |vs| ==> vs[k] == Meaning(p, p.wiring[id][k]);
    if AllProduced(vs) {
      hide Supplies, Meaning, IsMarked, AnyNull, AnyError;
      forall slot: nat
        ensures Covered(Outputs(vs), slot) <==> IsMarked(p, id, slot, 1) || IsMarked(p, id, slot, 2)
      {
        MarkedMeans(p, id, slot);
      }
    }
  }

  /** A step that runs: its own output as it is, unless it is unary with one value and the batch has more
      slots, when every slot holds that value and its flags; in every slot the message and the error flag
      alone, when it fails; and the end of the whole execution, when it panics. */
  lemma {:induction false} RunFillsSlots(p: Program, id: StepId)
    requires Acyclic(p) && id in p.steps && Runs(p, id)
    ensures var out := p.steps[id].run(Outputs(Supplies(p, id)));
      var v := Meaning(p, id);
      && (out.Completed? && !p.steps[id].unary ==> v == Produced(out.output))
      && (out.Completed? && p.steps[id].unary && !(|out.output.values| == 1 && p.batch > 1) ==>
            v == Produced(out.output))
      && (out.Completed? && p.steps[id].unary && |out.output.values| == 1 && p.batch > 1 ==>
            && v.Produced? && |v.output.values| == p.batch
            && forall i :: 0 <= i < p.batch ==>
                 v.output.values[i] == out.output.values[0] && v.output.flags[i] == out.output.flags[0])
      && (out.Failed? ==>
            && v.Produced? && |v.output.values| == p.batch
            && forall i :: 0 <= i < p.batch ==> v.output.values[i] == Message(out.message) && v.output.flags[i] == 2)
      && (out.Panicked? <==> v.Crash?)
  {
    MeaningUnfolds(p, id);
  }

  /** A step that does not run: nothing in any slot but the null and error flags of its dependencies,
      or the crash of one of them. */
  lemma {:induction false} SkipFillsSlots(p: Program, id: StepId)
    requires Acyclic(p) && id in p.steps && !Runs(p, id)
    ensures var v := Meaning(p, id);
      && (v.Crash? <==> exists k :: 0 <= k < |p.wiring[id]| && Meaning(p, p.wiring[id][k]).Crash?)
      && (v.Produced? ==>
            && |v.output.values| == p.batch > 0
            && forall i :: 0 <= i < p.batch ==>
                 && v.output.values[i] == Unit
                 && (v.output.flags[i] & 1 != 0 <==> IsMarked(p, id, i, 1))
                 && (v.output.flags[i] & 2 != 0 <==> IsMarked(p, id, i, 2))
                 && v.output.flags[i] & 0xfc == 0)
  {
    MeaningUnfolds(p, id);
    var vs := Supplies(p, id);
    assert forall k :: 0 <= k < |vs| ==> vs[k] == Meaning(p, p.wiring[id][k]);
    if AllProduced(vs) {
      hide Supplies, Meaning, IsMarked, AnyNull, AnyError;
      forall i: nat | i < p.batch
        ensures var f := Meaning(p, id).output.flags[i];
          (f & 1 != 0 <==> IsMarked(p, id, i, 1)) && (f & 2 != 0 <==> IsMarked(p, id, i, 2)) && f & 0xfc == 0
      {
        MarkedMeans(p, id, i);
      }
    }
  }
}
