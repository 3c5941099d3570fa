/** How nulls and errors travel through a program (magna-core `executor.rs`). */
module Failures {
  import opened Steps
  import opened Semantics

  ghost predicate ErrorEverywhere(o: StepOutput, batch: nat) {
    |o.flags| >= batch && forall i :: 0 <= i < batch ==> IsError(o.flags[i])
  }

  ghost predicate NullEverywhere(o: StepOutput, batch: nat) {
    |o.flags| >= batch && forall i :: 0 <= i < batch ==> IsNull(o.flags[i])
  }

  /** One input that is in error everywhere, or null everywhere, blocks the step and is passed on. */
  lemma OneInputBlocks(p: Program, id: StepId, i: nat)
    requires Acyclic(p) && p.batch >= 1 && id in p.steps && i < |p.wiring[id]|
    requires var v := Meaning(p, p.wiring[id][i]);
      v.Produced? ==> ErrorEverywhere(v.output, p.batch) || NullEverywhere(v.output, p.batch)
    ensures !Runs(p, id)
    ensures Meaning(p, id).Produced? ==>
      && Meaning(p, p.wiring[id][i]).Produced?
      && |Meaning(p, id).output.flags| == p.batch
      && (ErrorEverywhere(Meaning(p, p.wiring[id][i]).output, p.batch) ==>
            ErrorEverywhere(Meaning(p, id).output, p.batch))
      && (NullEverywhere(Meaning(p, p.wiring[id][i]).output, p.batch) ==>
            NullEverywhere(Meaning(p, id).output, p.batch))
  {
    MeaningUnfolds(p, id);
    var vs := Supplies(p, id);
    assert vs[i] == Meaning(p, p.wiring[id][i]);
    if AllProduced(vs) {
      var inputs := Outputs(vs);
      assert inputs[i] == vs[i].output;
      forall slot | 0 <= slot < p.batch
        ensures Covered(inputs, slot)
        ensures ErrorEverywhere(inputs[i], p.batch) ==> AnyError(inputs, slot)
        ensures NullEverywhere(inputs[i], p.batch) ==> AnyNull(inputs, slot)
      {
        assert slot < |inputs[i].flags|;
      }
      assert Blocked(inputs, p.batch);
    }
  }

  ghost predicate Holds(kind: StepFlags, o: StepOutput, batch: nat) {
    if kind == ERROR then ErrorEverywhere(o, batch) else NullEverywhere(o, batch)
  }

  lemma {:induction false} PropagatesAlong(p: Program, kind: StepFlags, path: seq<StepId>)
    requires Acyclic(p) && p.batch >= 1 && IsChain(p, path) && |path| > 1
    requires Meaning(p, path[0]).Produced? && Holds(kind, Meaning(p, path[0]).output, p.batch)
    ensures !Runs(p, path[|path|-1])
    ensures Meaning(p, path[|path|-1]).Produced? ==>
      && |Meaning(p, path[|path|-1]).output.flags| == p.batch
      && Holds(kind, Meaning(p, path[|path|-1]).output, p.batch)
  {
    var n := |path|;
    var above, id := path[n-2], path[n-1];
    assert above in p.wiring[id];
    var i :| 0 <= i < |p.wiring[id]| && p.wiring[id][i] == above;
    if n > 2 {
      var shorter := path[..n-1];
      assert IsChain(p, shorter);
      PropagatesAlong(p, kind, shorter);
    }
    OneInputBlocks(p, id, i);
  }

  /** If a step runs and fails, no transitive dependent ever runs, and each of them is in error
      in every slot (unless a panic elsewhere ends the whole execution). */
  lemma FailurePropagates(p: Program, source: StepId, id: StepId)
    requires Acyclic(p) && p.batch >= 1 && source in p.steps && id in p.steps && DependsOn(p, id, source)
    requires Runs(p, source) && p.steps[source].run(Outputs(Supplies(p, source))).Failed?
    ensures !Runs(p, id)
    ensures Meaning(p, id).Produced? ==>
      |Meaning(p, id).output.flags| == p.batch && ErrorEverywhere(Meaning(p, id).output, p.batch)
  {
    MeaningUnfolds(p, source);
    var path :| IsChain(p, path) && |path| > 1 && path[0] == source && path[|path|-1] == id;
    assert forall f: StepFlags :: f == ERROR ==> IsError(f);
    PropagatesAlong(p, ERROR, path);
  }

  /** A full-length all-null output makes every transitive dependent null in every slot, unrun. */
  lemma NullPropagates(p: Program, source: StepId, id: StepId)
    requires Acyclic(p) && p.batch >= 1 && source in p.steps && id in p.steps && DependsOn(p, id, source)
    requires Meaning(p, source).Produced? && NullEverywhere(Meaning(p, source).output, p.batch)
    ensures !Runs(p, id)
    ensures Meaning(p, id).Produced? ==>
      |Meaning(p, id).output.flags| == p.batch && NullEverywhere(Meaning(p, id).output, p.batch)
  {
    var path :| IsChain(p, path) && |path| > 1 && path[0] == source && path[|path|-1] == id;
    PropagatesAlong(p, NULL, path);
  }
}
