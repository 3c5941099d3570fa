/** The single-use register/execute/read context (magna-build `plan_resolver.rs`). */
module PlanContexts {
  import opened Basics
  import opened Steps
  import opened Semantics
  import opened Sharing
  import opened Graphs
  import opened Planning
  import opened Optimizing
  import opened Executing

  /** The unoptimized program of a sequence of registered steps. */
  function Plan(steps: seq<Step>, batch: nat): Program {
    Registered(ById(steps), batch)
  }

  /** Planning succeeds and no step panics. */
  ghost predicate Succeeds(steps: seq<Step>, batch: nat) {
    var p := Plan(steps, batch);
    Acyclic(p) && forall id :: id in p.steps ==> Meaning(p, id).Produced?
  }

  /** What a read answers after a successful execution. */
  ghost function Expected(steps: seq<Step>, batch: nat, id: StepId): Option<StepOutput>
    requires Succeeds(steps, batch)
  {
    var p := Plan(steps, batch);
    if id in p.steps then Some(Meaning(p, id).output) else None
  }

  function Lookup(results: map<StepId, StepOutput>, remap: map<StepId, StepId>, id: StepId): Option<StepOutput> {
    var c := Canonical(remap, id);
    if c in results then Some(results[c]) else None
  }

  /** A shared program that ran: every id reads as the meaning of the unoptimized program. */
  lemma LookupIsMeaning(p: Program, remap: map<StepId, StepId>, results: map<StepId, StepOutput>, id: StepId)
    requires Acyclic(p) && IsSharing(p, remap) && FingerprintSound(p)
    requires Acyclic(Shared(p, remap)) && Correct(Shared(p, remap), results)
    requires results.Keys == Shared(p, remap).steps.Keys
    ensures id in p.steps ==> Meaning(p, id).Produced? && Lookup(results, remap, id) == Some(Meaning(p, id).output)
    ensures id !in p.steps ==> Lookup(results, remap, id) == None
  {
    if id in p.steps {
      SharingPreservesMeaning(p, remap, id);
    }
  }

  /** A panic in the shared program is a panic in the unoptimized one. */
  lemma CrashIsShared(p: Program, remap: map<StepId, StepId>)
    requires Acyclic(p) && IsSharing(p, remap) && FingerprintSound(p)
    requires Acyclic(Shared(p, remap)) && SomeCrash(Shared(p, remap))
    ensures SomeCrash(p)
  {
    var q := Shared(p, remap);
    var id :| id in q.steps && Meaning(q, id).Crash?;
    SurvivorKeepsMeaning(p, remap, SomeRank(q), id);
  }

  /** The answers that a finished run gives. */
  ghost predicate Answers(steps: seq<Step>, batch: nat, results: map<StepId, StepOutput>, remap: map<StepId, StepId>) {
    && Succeeds(steps, batch)
    && forall id :: Lookup(results, remap, id) == Expected(steps, batch, id)
  }

  lemma RunAnswers(steps: seq<Step>, batch: nat, remap: map<StepId, StepId>, results: map<StepId, StepOutput>)
    requires Acyclic(Plan(steps, batch)) && IsSharing(Plan(steps, batch), remap) && FingerprintSound(Plan(steps, batch))
    requires Acyclic(Shared(Plan(steps, batch), remap)) && Correct(Shared(Plan(steps, batch), remap), results)
    requires results.Keys == Shared(Plan(steps, batch), remap).steps.Keys
    ensures Answers(steps, batch, results, remap)
  {
    forall id: StepId {
      LookupIsMeaning(Plan(steps, batch), remap, results, id);
    }
  }

  /** The errors that can come out of a run, and what each of them says. The executor's
      missing-dependency error is not among them. */
  ghost predicate ErrorFits(steps: seq<Step>, batch: nat, e: PlanError) {
    match e
    case StepNotFound(d) => FirstMissing(steps, d)
    case PlanCycle(ids) => AllFound(steps) && |ids| == 1 && OnCycle(WiresUpTo(steps, |steps|, 0), ids[0])
    case TaskJoin => Acyclic(Plan(steps, batch))
    case _ => false
  }

  /** Build, optimize and execute what a planner holds. */
  method RunPlan(planner: Planner) returns (r: Result<(map<StepId, StepOutput>, map<StepId, StepId>), PlanError>)
    requires UniqueIds(planner.steps)
    ensures r.Err? ==> ErrorFits(planner.steps, planner.batch, r.error)
    ensures r.Ok? ==> r.value.0.Keys !! r.value.1.Keys
    ensures FingerprintSound(Plan(planner.steps, planner.batch)) ==>
      && (r.Ok? <==> Succeeds(planner.steps, planner.batch))
      && (r.Ok? ==> Answers(planner.steps, planner.batch, r.value.0, r.value.1))
  {
    hide Answers, IsSharing, Correct, SomeCrash, Represents, Hoisted, IsTopological, Elements, RunSteps,
      FingerprintSound, Runnable, FirstMissing, OnCycle, WiresUpTo, Retargets, Distinct;
    var built := planner.Build();
    if built.Err? {
      return Err(built.error);
    }
    var plan := built.value;
    ghost var p := Plan(planner.steps, planner.batch);
    var optimized := Optimize(plan);
    ghost var q := Shared(p, optimized.remap);
    var outputs, _ := Execute(optimized, q);
    if outputs.Err? {
      if FingerprintSound(p) {
        CrashIsShared(p, optimized.remap);
      }
      return Err(outputs.error);
    }
    if FingerprintSound(p) {
      RunAnswers(planner.steps, planner.batch, optimized.remap, outputs.value);
    }
    r := Ok((outputs.value, optimized.remap));
  }

  class PlanContext {
    var planner: Option<Planner>
    var results: Option<map<StepId, StepOutput>>
    var remap: Option<map<StepId, StepId>>

    /** The steps registered so far, or before the planner was taken. */
    ghost var registered: seq<Step>
    ghost const batch: nat

    ghost predicate Sound()
      reads this
    {
      FingerprintSound(Plan(registered, batch))
    }

    ghost predicate Valid()
      reads this, if planner.Some? then {planner.value} else {}
    {
      && UniqueIds(registered)
      && (planner.Some? ==>
            && planner.value.steps == registered && planner.value.batch == batch
            && results == None && remap == None)
      && (results.Some? ==> remap.Some?)
      && (results.Some? && Sound() ==> Answers(registered, batch, results.value, remap.value))
    }

    constructor (batch: nat)
      ensures Valid() && registered == [] && this.batch == batch
      ensures planner.Some? && fresh(planner.value)
    {
      var p := new Planner(batch);
      planner, results, remap := Some(p), None, None;
      registered, this.batch := [], batch;
    }

    /** Accepted until the planner is taken. */
    method RegisterStep(step: Step) returns (r: Result<StepId, PlanError>)
      requires Valid()
      requires planner.Some? ==> forall k :: 0 <= k < |registered| ==> registered[k].id != step.id
      modifies this`registered, if planner.Some? then {planner.value} else {}
      ensures Valid()
      ensures r == if planner.Some? then Ok(step.id) else Err(AlreadyExecuted)
      ensures registered == if planner.Some? then old(registered) + [step] else old(registered)
    {
      if planner.None? {
        return Err(AlreadyExecuted);
      }
      planner.value.Register(step);
      registered := registered + [step];
      r := Ok(step.id);
    }

    /** Only the first call can succeed, and it succeeds exactly when the registered steps form
        an acyclic plan in which no step panics. */
    method Execute() returns (r: Result<(), PlanError>)
      requires Valid()
      modifies this
      ensures Valid() && registered == old(registered) && planner == None
      ensures old(planner).None? ==> r == Err(AlreadyExecuted) && results == old(results) && remap == old(remap)
      ensures old(planner).Some? ==> (r.Ok? <==> results.Some?)
      ensures old(planner).Some? && r.Err? ==> ErrorFits(registered, batch, r.error)
      ensures old(planner).Some? && Sound() ==> (r.Ok? <==> Succeeds(registered, batch))
    {
      hide Answers, Succeeds, FingerprintSound, ErrorFits, Plan;
      if planner.None? {
        return Err(AlreadyExecuted);
      }
      var taken := planner.value;
      planner := None;
      var ran := RunPlan(taken);
      if ran.Err? {
        return Err(ran.error);
      }
      remap := Some(ran.value.1);
      results := Some(ran.value.0);
      r := Ok(());
    }

    function GetResult(id: StepId): (r: Option<StepOutput>)
      requires Valid()
      reads this, if planner.Some? then {planner.value} else {}
      ensures results.None? ==> r == None
      ensures results.Some? && Sound() ==> r == Expected(registered, batch, id)
    {
      var canonical := if remap.Some? then Canonical(remap.value, id) else id;
      if results.None? then None
      else if canonical in results.value then Some(results.value[canonical]) else None
    }
  }

  // ----- every run of the context -----

  datatype Call = Register(step: Step) | Run | Read(id: StepId)

  datatype Reply = Accepted(ok: bool) | Ran(ok: bool) | Answer(output: Option<StepOutput>)

  function FirstRun(calls: seq<Call>): (n: nat)
    ensures n <= |calls| && (n < |calls| ==> calls[n].Run?)
    ensures forall i :: 0 <= i < n ==> !calls[i].Run?
  {
    if calls == [] || calls[0].Run? then 0 else 1 + FirstRun(calls[1..])
  }

  /** The steps that a sequence of calls registers. */
  function Collected(calls: seq<Call>): seq<Step> {
    if calls == [] then []
    else
      var n := |calls| - 1;
      Collected(calls[..n]) + (if calls[n].Register? then [calls[n].step] else [])
  }

  /** What call `i` of a run is answered, told by the calls alone: registrations succeed until
      the first execution, only that execution can succeed, and a read answers nothing before
      it and the meaning of the unoptimized program ever after. */
  ghost function ReplyTo(calls: seq<Call>, batch: nat, i: nat): Reply
    requires i < |calls|
  {
    var n := FirstRun(calls);
    var steps := Collected(calls[..n]);
    match calls[i]
    case Register(_) => Accepted(i < n)
    case Run => Ran(i == n && Succeeds(steps, batch))
    case Read(id) => Answer(if n < i && Succeeds(steps, batch) then Expected(steps, batch, id) else None)
  }

  /** The context before call `k` of a run. */
  ghost predicate Before(ctx: PlanContext, calls: seq<Call>, k: nat)
    requires k <= |calls|
    reads ctx, if ctx.planner.Some? then {ctx.planner.value} else {}
  {
    var n := FirstRun(calls);
    && ctx.Valid()
    && ctx.planner.Some? == (k <= n)
    && ctx.registered == Collected(calls[..if k <= n then k else n])
    && (k > n ==> (ctx.results.Some? <==> Succeeds(ctx.registered, ctx.batch)))
  }

  lemma CollectedExtends(calls: seq<Call>, k: nat)
    requires k < |calls|
    ensures Collected(calls[..k+1]) == Collected(calls[..k]) + (if calls[k].Register? then [calls[k].step] else [])
  {
    assert calls[..k+1][..k] == calls[..k];
  }

  lemma {:induction false} CollectedPrefix(calls: seq<Call>, k: nat)
    requires k <= |calls|
    ensures Collected(calls[..k]) <= Collected(calls)
    decreases |calls| - k
  {
    if k < |calls| {
      CollectedExtends(calls, k);
      CollectedPrefix(calls, k + 1);
    } else {
      assert calls[..k] == calls;
    }
  }

  lemma NextIsUnique(calls: seq<Call>, n: nat, k: nat)
    requires n <= |calls| && UniqueIds(Collected(calls[..n])) && k < n && calls[k].Register?
    ensures forall j :: 0 <= j < |Collected(calls[..k])| ==> Collected(calls[..k])[j].id != calls[k].step.id
  {
    var early := calls[..n];
    assert early[..k] == calls[..k] && early[k] == calls[k];
    CollectedExtends(early, k);
    CollectedPrefix(early, k + 1);
    var before, all := Collected(calls[..k]), Collected(early);
    assert all[|before|] == calls[k].step;
    assert forall j :: 0 <= j < |before| ==> all[j] == before[j];
  }

  /** One call of a run. */
  method Serve(ctx: PlanContext, calls: seq<Call>, k: nat) returns (reply: Reply)
    requires k < |calls| && Before(ctx, calls, k) && UniqueIds(Collected(calls[..FirstRun(calls)]))
    requires FingerprintSound(Plan(Collected(calls[..FirstRun(calls)]), ctx.batch))
    modifies ctx, if ctx.planner.Some? then {ctx.planner.value} else {}
    ensures Before(ctx, calls, k + 1) && ctx.planner in {old(ctx.planner), None}
    ensures reply == ReplyTo(calls, ctx.batch, k)
  {
    hide Answers, Succeeds, FingerprintSound, ErrorFits, Plan, Collected, FirstRun;
    CollectedExtends(calls, k);
    match calls[k] {
      case Register(step) =>
        if k < FirstRun(calls) {
          NextIsUnique(calls, FirstRun(calls), k);
        }
        var r := ctx.RegisterStep(step);
        reply := Accepted(r.Ok?);
      case Run =>
        var r := ctx.Execute();
        reply := Ran(r.Ok?);
      case Read(id) =>
        reply := Answer(ctx.GetResult(id));
    }
  }

  method Start(batch: nat, calls: seq<Call>) returns (ctx: PlanContext)
    ensures fresh(ctx) && ctx.planner.Some? && fresh(ctx.planner.value) && ctx.batch == batch
    ensures Before(ctx, calls, 0)
  {
    ctx := new PlanContext(batch);
    assert Collected(calls[..0]) == [];
  }

  /** Ids must be unique among the steps registered before the first execution; later registrations
      are refused whatever their ids. */
  method Drive(batch: nat, calls: seq<Call>) returns (replies: seq<Reply>)
    requires UniqueIds(Collected(calls[..FirstRun(calls)]))
    requires FingerprintSound(Plan(Collected(calls[..FirstRun(calls)]), batch))
    ensures |replies| == |calls|
    ensures forall i :: 0 <= i < |calls| ==> replies[i] == ReplyTo(calls, batch, i)
  {
    var ctx := Start(batch, calls);
    replies := [];
    hide Before, ReplyTo, FingerprintSound, UniqueIds, Collected;
    for k := 0 to |calls|
      invariant fresh(ctx) && (ctx.planner.Some? ==> fresh(ctx.planner.value))
      invariant ctx.batch == batch && Before(ctx, calls, k)
      invariant |replies| == k && forall i :: 0 <= i < k ==> replies[i] == ReplyTo(calls, batch, i)
    {
      var reply := Serve(ctx, calls, k);
      replies := replies + [reply];
    }
  }
}
