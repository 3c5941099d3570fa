/** Steps, their outputs and the flags that travel with them
    (magna-types `step.rs`, magna-core `step.rs` and `fingerprint.rs`). */
module Steps {

  type StepId = nat

  // ----- flags: a bitfield of one byte per batch slot -----

  type StepFlags = bv8

  const NONE: StepFlags := 0
  const NULL: StepFlags := 1
  const ERROR: StepFlags := 2

  predicate IsNull(f: StepFlags) {
    f & NULL != 0
  }

  predicate IsError(f: StepFlags) {
    f & ERROR != 0
  }

  predicate IsValue(f: StepFlags) {
    f == NONE
  }

  function Mark(isNull: bool, isError: bool): (f: StepFlags)
    ensures IsNull(f) <==> isNull
    ensures IsError(f) <==> isError
    ensures IsValue(f) <==> !isNull && !isError
  {
    (if isNull then NULL else NONE) | (if isError then ERROR else NONE)
  }

  // ----- outputs -----

  /** A type-erased value. The executor itself creates only `Unit` (a skipped slot) and
      `Message` (a failed slot); everything else comes out of a step. */
  datatype Value = Unit | Message(text: string) | Data(payload: int)

  datatype Batch = Batch(values: seq<Value>, flags: seq<StepFlags>)

  /** `flags` is parallel to `values`. */
  type StepOutput = b: Batch | |b.values| == |b.flags| witness Batch([], [])

  /** How one spawned task ends: with an output, with an error, or by panicking. */
  datatype Outcome = Completed(output: StepOutput) | Failed(message: string) | Panicked

  /** A step. `typeId` and `config` are the two parts of the fingerprint that are not
      dependency ids; `run` is `execute` with the request context already supplied. */
  datatype Step = Step(id: StepId, deps: seq<StepId>, unary: bool, typeId: nat, config: nat,
                       run: seq<StepOutput> -> Outcome)

  datatype Fingerprint = Fingerprint(typeId: nat, depIds: seq<StepId>, config: nat)

  datatype PlanError =
    | PlanCycle(ids: seq<StepId>)
    | StepNotFound(id: StepId)
    | MissingDependency(step: StepId, dep: StepId)
    | TaskJoin
    | AlreadyExecuted

  // ----- what one step contributes, given the outputs it depends on -----

  predicate AnyNull(inputs: seq<StepOutput>, slot: nat) {
    exists k :: 0 <= k < |inputs| && slot < |inputs[k].flags| && IsNull(inputs[k].flags[slot])
  }

  predicate AnyError(inputs: seq<StepOutput>, slot: nat) {
    exists k :: 0 <= k < |inputs| && slot < |inputs[k].flags| && IsError(inputs[k].flags[slot])
  }

  predicate Covered(inputs: seq<StepOutput>, slot: nat) {
    AnyNull(inputs, slot) || AnyError(inputs, slot)
  }

  /** A step is skipped when the batch has a slot and every slot is null or in error. */
  predicate Blocked(inputs: seq<StepOutput>, batch: nat) {
    batch > 0 && forall slot :: 0 <= slot < batch ==> Covered(inputs, slot)
  }

  function SkipOutput(inputs: seq<StepOutput>, batch: nat): StepOutput {
    Batch(seq(batch, _ => Unit),
          seq(batch, i requires 0 <= i => Mark(AnyNull(inputs, i), AnyError(inputs, i))))
  }

  function BroadcastUnary(o: StepOutput, batch: nat): StepOutput {
    if |o.values| == 1 && batch > 1 then
      Batch(seq(batch, _ => o.values[0]), seq(batch, _ => o.flags[0]))
    else
      o
  }

  function ErrorOutput(message: string, batch: nat): StepOutput {
    Batch(seq(batch, _ => Message(message)), seq(batch, _ => ERROR))
  }

  /** The result of a step: an output, or a panic that aborts the whole execution. */
  datatype Verdict = Produced(output: StepOutput) | Crash

  function Finish(step: Step, outcome: Outcome, batch: nat): Verdict {
    match outcome
    case Completed(o) => Produced(if step.unary then BroadcastUnary(o, batch) else o)
    case Failed(m) => Produced(ErrorOutput(m, batch))
    case Panicked => Crash
  }

  function Perform(step: Step, inputs: seq<StepOutput>, batch: nat): Verdict {
    if Blocked(inputs, batch) then Produced(SkipOutput(inputs, batch))
    else Finish(step, step.run(inputs), batch)
  }
}
