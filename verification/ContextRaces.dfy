/** The plan context shared between threads (magna-build `plan_resolver.rs`): its methods take `&self`
    and touch the mutex and the two write-once cells one after the other, so that the steps of
    several calls interleave. */
module ContextRaces {
  import opened Basics
  import opened Steps
  import opened Semantics
  import opened Sharing
  import opened Planning
  import opened PlanContexts

  type Tid = nat

  /** Where a thread is inside a call. A reader remembers, for the statement only, whether results
      were published when it began. */
  datatype Thread =
    | Idle
    | Taken
    | Finished(results: map<StepId, StepOutput>, remap: map<StepId, StepId>)
    | RemapStored(results: map<StepId, StepOutput>)
    | Reading(id: StepId, canonical: StepId, began: bool)

  datatype Event =
    | Registration(ok: bool)
    | Execution(ok: bool)
    | Reply(id: StepId, output: Option<StepOutput>, began: bool, ended: bool)

  datatype State = State(
    registered: seq<Step>, open: bool, remap: Option<map<StepId, StepId>>, results: Option<map<StepId, StepOutput>>,
    threads: map<Tid, Thread>, log: seq<Event>)

  datatype Action =
    | Register(t: Tid, step: Step)
    | TakePlanner(t: Tid)
    | FinishRun(t: Tid, results: map<StepId, StepOutput>, remap: map<StepId, StepId>)
    | FailRun(t: Tid)
    | StoreRemap(t: Tid)
    | StoreResults(t: Tid)
    | BeginRead(t: Tid, id: StepId)
    | EndRead(t: Tid)

  const Start := State([], true, None, None, map[], [])

  function At(s: State, t: Tid): Thread {
    if t in s.threads then s.threads[t] else Idle
  }

  /** When a thread can take a step; a run ends as the pipeline promises (`FinishTaken`). */
  ghost predicate Enabled(s: State, a: Action, batch: nat) {
    match a
    case Register(t, step) => At(s, t).Idle? && (s.open ==> UniqueIds(s.registered + [step]))
    case TakePlanner(t) => At(s, t).Idle?
    case FinishRun(t, results, remap) =>
      At(s, t).Taken? && Answers(s.registered, batch, results, remap) && results.Keys !! remap.Keys
    case FailRun(t) => At(s, t).Taken? && !Succeeds(s.registered, batch)
    case StoreRemap(t) => At(s, t).Finished?
    case StoreResults(t) => At(s, t).RemapStored?
    case BeginRead(t, _) => At(s, t).Idle?
    case EndRead(t) => At(s, t).Reading?
  }

  function Log(s: State, e: Event): State {
    s.(log := s.log + [e])
  }

  function Put(s: State, t: Tid, thread: Thread): State {
    s.(threads := s.threads[t := thread])
  }

  /** One atomic step. The cells are write-once: setting a full cell fails. */
  ghost function Apply(s: State, a: Action, batch: nat): State
    requires Enabled(s, a, batch)
  {
    match a
    case Register(t, step) =>
      if s.open then Log(Put(s.(registered := s.registered + [step]), t, Idle), Registration(true))
      else Log(Put(s, t, Idle), Registration(false))
    case TakePlanner(t) =>
      if s.open then Put(s.(open := false), t, Taken) else Log(Put(s, t, Idle), Execution(false))
    case FinishRun(t, results, remap) => Put(s, t, Finished(results, remap))
    case FailRun(t) => Log(Put(s, t, Idle), Execution(false))
    case StoreRemap(t) =>
      var f := At(s, t);
      Put(if s.remap.None? then s.(remap := Some(f.remap)) else s, t, RemapStored(f.results))
    case StoreResults(t) =>
      if s.results.None? then Log(Put(s.(results := Some(At(s, t).results)), t, Idle), Execution(true))
      else Log(Put(s, t, Idle), Execution(false))
    case BeginRead(t, id) =>
      Put(s, t, Reading(id, if s.remap.Some? then Canonical(s.remap.value, id) else id, s.results.Some?))
    case EndRead(t) =>
      var r := At(s, t);
      Log(Put(s, t, Idle), Reply(r.id, Cell(s.results, r.canonical), r.began, s.results.Some?))
  }

  function Cell(results: Option<map<StepId, StepOutput>>, id: StepId): Option<StepOutput> {
    if results.Some? && id in results.value then Some(results.value[id]) else None
  }

  ghost predicate IsRun(states: seq<State>, actions: seq<Action>, batch: nat) {
    && |states| == |actions| + 1 && states[0] == Start
    && forall k :: 0 <= k < |actions| ==>
      Enabled(states[k], actions[k], batch) && states[k+1] == Apply(states[k], actions[k], batch)
  }

  // ----- what every step keeps -----

  predicate Executing(t: Thread) {
    t.Taken? || t.Finished? || t.RemapStored?
  }

  /** A published or computed pair of results and remap. */
  ghost predicate Good(s: State, batch: nat, results: map<StepId, StepOutput>, remap: map<StepId, StepId>) {
    Answers(s.registered, batch, results, remap) && results.Keys !! remap.Keys
  }

  ghost predicate ThreadOk(s: State, batch: nat, t: Thread) {
    match t
    case Idle => true
    case Taken => !s.open && s.remap.None? && s.results.None?
    case Finished(results, remap) => !s.open && s.remap.None? && s.results.None? && Good(s, batch, results, remap)
    case RemapStored(results) => !s.open && s.remap.Some? && s.results.None? && Good(s, batch, results, s.remap.value)
    case Reading(id, canonical, began) =>
      && (began ==> s.results.Some?)
      && (canonical == id || (s.remap.Some? && canonical == Canonical(s.remap.value, id)))
      && (began ==> s.remap.Some? && canonical == Canonical(s.remap.value, id))
  }

  /** The answer that the unoptimized program gives, once results are published. */
  ghost function Due(s: State, batch: nat, id: StepId, published: bool): Option<StepOutput> {
    if published && Succeeds(s.registered, batch) then Expected(s.registered, batch, id) else None
  }

  ghost predicate EventOk(s: State, batch: nat, e: Event) {
    match e
    case Registration(_) => true
    case Execution(ok) => ok ==> s.results.Some?
    case Reply(id, output, began, ended) =>
      && (began ==> ended) && (ended ==> s.results.Some?)
      && (output == Due(s, batch, id, began) || output == Due(s, batch, id, ended))
  }

  ghost predicate Inv(s: State, batch: nat) {
    && (s.open ==> s.remap.None? && s.results.None? && forall t :: t in s.threads ==> !Executing(s.threads[t]))
    && (s.results.Some? ==> s.remap.Some? && !s.open && Good(s, batch, s.results.value, s.remap.value))
    && (s.remap.Some? ==> !s.open)
    && (forall t, u ::
          t in s.threads && u in s.threads && Executing(s.threads[t]) && Executing(s.threads[u]) ==> t == u)
    && (forall t :: t in s.threads ==> ThreadOk(s, batch, s.threads[t]))
    && (forall k :: 0 <= k < |s.log| ==> EventOk(s, batch, s.log[k]))
    && (forall j, k :: 0 <= j < k < |s.log| ==> !(s.log[j] == Execution(true) && s.log[k] == Execution(true)))
  }

  /** Later states: cells keep what they hold, and registration has not been reopened. */
  ghost predicate Extends(s: State, s': State) {
    && (s.results.Some? ==> s'.results == s.results)
    && (s.remap.Some? ==> s'.remap == s.remap)
    && (!s.open ==> !s'.open && s'.registered == s.registered)
  }

  lemma {:induction false} EventKept(s: State, s': State, batch: nat, e: Event)
    requires Inv(s, batch) && EventOk(s, batch, e) && Extends(s, s')
    ensures EventOk(s', batch, e)
  {
    hide Succeeds, Answers, Expected, ThreadOk;
  }

  lemma {:induction false} ReplyIsDue(s: State, batch: nat, r: Thread)
    requires Inv(s, batch) && r.Reading? && ThreadOk(s, batch, r)
    ensures EventOk(s, batch, Event.Reply(r.id, Cell(s.results, r.canonical), r.began, s.results.Some?))
  {
    if s.results.Some? && r.canonical == Canonical(s.remap.value, r.id) {
      assert Lookup(s.results.value, s.remap.value, r.id) == Expected(s.registered, batch, r.id);
    }
  }

  ghost predicate CellsOk(s: State, batch: nat) {
    && (s.open ==> s.remap.None? && s.results.None?)
    && (s.results.Some? ==> s.remap.Some? && Good(s, batch, s.results.value, s.remap.value))
  }

  /** A thread that is not executing is not disturbed by a step of another one. */
  lemma {:induction false} OtherKept(s: State, a: Action, batch: nat, u: Tid)
    requires Inv(s, batch) && Enabled(s, a, batch) && u in s.threads && u != a.t
    ensures ThreadOk(Apply(s, a, batch), batch, s.threads[u])
  {
    hide Succeeds, Answers, Expected, EventOk, Canonical, Cell;
    assert ThreadOk(s, batch, s.threads[u]);
    assert a.t in s.threads ==> ThreadOk(s, batch, s.threads[a.t]);
  }

  /** The thread that takes the step, and the cells. */
  lemma {:induction false} MoverOk(s: State, a: Action, batch: nat)
    requires Inv(s, batch) && Enabled(s, a, batch)
    ensures var s' := Apply(s, a, batch);
      && ThreadOk(s', batch, At(s', a.t)) && CellsOk(s', batch) && Extends(s, s')
      && (Executing(At(s', a.t)) ==> Executing(At(s, a.t)) || s.open)
      && (s'.open ==> s.open && !Executing(At(s', a.t)))
      && s'.threads == s.threads[a.t := At(s', a.t)]
  {
    hide Succeeds, Answers, Expected, EventOk, Canonical, Cell;
    assert a.t in s.threads ==> ThreadOk(s, batch, s.threads[a.t]);
  }

  /** What a step adds to the log. */
  lemma {:induction false} LogOk(s: State, a: Action, batch: nat)
    requires Inv(s, batch) && Enabled(s, a, batch)
    ensures var s' := Apply(s, a, batch);
      && s.log <= s'.log && |s'.log| <= |s.log| + 1
      && (|s'.log| > |s.log| ==>
            EventOk(s', batch, s'.log[|s.log|]) && (s'.log[|s.log|] == Execution(true) ==> s.results.None?))
  {
    if a.EndRead? {
      ReplyIsDue(s, batch, At(s, a.t));
    }
    hide Succeeds, Answers, Expected, Due, Canonical, Cell, ThreadOk;
  }

  lemma {:induction false} Rebuilt(s: State, s': State, t: Tid, batch: nat)
    requires Inv(s, batch) && CellsOk(s', batch) && (s'.open ==> s.open && !Executing(At(s', t)))
    requires s'.threads == s.threads[t := At(s', t)] && (Executing(At(s', t)) ==> Executing(At(s, t)) || s.open)
    requires forall u :: u in s'.threads ==> ThreadOk(s', batch, s'.threads[u])
    requires LogsOk(s', batch)
    ensures Inv(s', batch)
  {
    hide EventOk, ThreadOk, Good;
    assert forall u :: u in s'.threads && u != t ==> u in s.threads && s'.threads[u] == s.threads[u];
  }

  ghost predicate LogsOk(s: State, batch: nat) {
    && (forall k :: 0 <= k < |s.log| ==> EventOk(s, batch, s.log[k]))
    && (forall j, k :: 0 <= j < k < |s.log| ==> !(s.log[j] == Execution(true) && s.log[k] == Execution(true)))
  }

  lemma {:induction false} LogKept(s: State, s': State, batch: nat)
    requires Inv(s, batch) && Extends(s, s') && s.log <= s'.log && |s'.log| <= |s.log| + 1
    requires |s'.log| > |s.log| ==>
      EventOk(s', batch, s'.log[|s.log|]) && (s'.log[|s.log|] == Execution(true) ==> s.results.None?)
    ensures LogsOk(s', batch)
  {
    assert forall k :: 0 <= k < |s.log| ==> s'.log[k] == s.log[k];
    forall k | 0 <= k < |s.log|
      ensures EventOk(s', batch, s'.log[k]) && (s.log[k] == Execution(true) ==> s.results.Some?) {
      assert EventOk(s, batch, s.log[k]);
      EventKept(s, s', batch, s.log[k]);
    }
    hide EventOk, ThreadOk, Good, Extends;
  }

  lemma {:induction false} StepKeeps(s: State, a: Action, batch: nat)
    requires Inv(s, batch) && Enabled(s, a, batch)
    ensures Inv(Apply(s, a, batch), batch) && Extends(s, Apply(s, a, batch))
  {
    hide Apply, EventOk, ThreadOk, Good, LogsOk, CellsOk, Extends, Inv, Enabled;
    var s' := Apply(s, a, batch);
    MoverOk(s, a, batch);
    LogOk(s, a, batch);
    LogKept(s, s', batch);
    forall u | u in s'.threads ensures ThreadOk(s', batch, s'.threads[u]) {
      if u != a.t {
        OtherKept(s, a, batch, u);
      }
    }
    Rebuilt(s, s', a.t, batch);
  }

  // ----- whole runs -----

  lemma {:induction false} EveryState(states: seq<State>, actions: seq<Action>, batch: nat, k: nat)
    requires IsRun(states, actions, batch) && k < |states|
    ensures Inv(states[k], batch)
  {
    hide Enabled, Apply;
    if k > 0 {
      EveryState(states, actions, batch, k - 1);
      hide Inv;
      StepKeeps(states[k-1], actions[k-1], batch);
    }
  }

  /** Published results stay, and so does everything that reads depend on. */
  lemma {:induction false} PublishedStays(states: seq<State>, actions: seq<Action>, batch: nat, i: nat, j: nat)
    requires IsRun(states, actions, batch) && i <= j < |states|
    ensures Extends(states[i], states[j])
    decreases j
  {
    hide Enabled, Apply, Inv;
    if i < j {
      PublishedStays(states, actions, batch, i, j - 1);
      EveryState(states, actions, batch, j - 1);
      StepKeeps(states[j-1], actions[j-1], batch);
    }
  }

  /** In every interleaving, at most one execution succeeds. */
  lemma {:induction false} OneExecution(states: seq<State>, actions: seq<Action>, batch: nat, j: nat, k: nat)
    requires IsRun(states, actions, batch)
    requires j < |states[|actions|].log| && k < |states[|actions|].log|
    requires states[|actions|].log[j] == Execution(true) && states[|actions|].log[k] == Execution(true)
    ensures j == k
  {
    EveryState(states, actions, batch, |actions|);
    hide IsRun, ThreadOk, EventOk, Good;
  }

  /** Thread `t` begins to read `id` at step `i` and ends at step `j`. */
  ghost predicate IsRead(actions: seq<Action>, i: nat, j: nat, t: Tid, id: StepId) {
    && i < j < |actions| && actions[i] == BeginRead(t, id) && actions[j] == EndRead(t)
    && forall k :: i < k < j ==> actions[k].t != t
  }

  lemma {:induction false} StillReading(states: seq<State>, actions: seq<Action>, batch: nat, i: nat, j: nat, t: Tid,
                                        id: StepId, k: nat)
    requires IsRun(states, actions, batch) && IsRead(actions, i, j, t, id) && i < k <= j
    ensures var r := At(states[k], t); r.Reading? && r.id == id && r.began == states[i].results.Some?
    decreases k
  {
    hide Enabled, Canonical;
    if k > i + 1 {
      StillReading(states, actions, batch, i, j, t, id, k - 1);
      OthersStay(states[k-1], actions[k-1], batch, t);
      assert states[k] == Apply(states[k-1], actions[k-1], batch);
    }
  }

  lemma {:induction false} OthersStay(s: State, a: Action, batch: nat, t: Tid)
    requires Enabled(s, a, batch) && a.t != t
    ensures At(Apply(s, a, batch), t) == At(s, t)
  {
    hide Answers, Succeeds, UniqueIds;
  }

  /** Reads are linearizable: whatever the other threads do in between, a read answers what is due,
      by the meaning of the unoptimized program, at its beginning or at its end. */
  lemma {:induction false} ReadsLinearize(states: seq<State>, actions: seq<Action>, batch: nat, i: nat, j: nat, t: Tid,
                                          id: StepId)
    requires IsRun(states, actions, batch) && IsRead(actions, i, j, t, id)
    ensures var reply := states[j+1].log[|states[j].log|..];
      |reply| == 1 && reply[0].Reply? && reply[0].id == id &&
      (reply[0].output == Due(states[i], batch, id, states[i].results.Some?) ||
       reply[0].output == Due(states[j], batch, id, states[j].results.Some?))
  {
    EveryState(states, actions, batch, i);
    EveryState(states, actions, batch, j);
    StillReading(states, actions, batch, i, j, t, id, j);
    PublishedStays(states, actions, batch, i, j);
    var s, r := states[j], At(states[j], t);
    assert states[j+1] == Apply(s, EndRead(t), batch);
    assert ThreadOk(s, batch, r);
    ReplyIsDue(s, batch, r);
    hide Succeeds, Expected, Cell, Answers, Canonical;
  }

  /** Reads that begin after the results were published answer the meaning of the unoptimized program. */
  lemma {:induction false} LateReadsAnswer(states: seq<State>, actions: seq<Action>, batch: nat, i: nat, j: nat,
                                           t: Tid, id: StepId)
    requires IsRun(states, actions, batch) && IsRead(actions, i, j, t, id) && states[i].results.Some?
    ensures Succeeds(states[i].registered, batch) && |states[j+1].log| == |states[j].log| + 1
    ensures var reply := states[j+1].log[|states[j].log|];
      reply.Reply? && reply.output == Expected(states[i].registered, batch, id)
  {
    ReadsLinearize(states, actions, batch, i, j, t, id);
    EveryState(states, actions, batch, i);
    PublishedStays(states, actions, batch, i, j);
    hide IsRun, IsRead, ThreadOk, EventOk, Expected, Succeeds;
    assert states[j].registered == states[i].registered;
  }

  // ----- the pipeline behind the steps of an execution -----

  lemma {:induction false} RegisteredAreUnique(states: seq<State>, actions: seq<Action>, batch: nat, k: nat)
    requires IsRun(states, actions, batch) && k < |states|
    ensures UniqueIds(states[k].registered)
  {
    hide Answers, Succeeds, Canonical, Cell;
    if k > 0 {
      RegisteredAreUnique(states, actions, batch, k - 1);
      hide UniqueIds;
      assert Enabled(states[k-1], actions[k-1], batch);
    }
  }

  /** What the thread that took the planner does next: under fingerprint soundness, building, optimizing
      and executing what was registered ends in an enabled step, and in no other way. */
  method FinishTaken(planner: Planner, s: State, t: Tid, batch: nat) returns (a: Action)
    requires At(s, t).Taken? && planner.steps == s.registered && planner.batch == batch
    requires UniqueIds(s.registered) && FingerprintSound(Plan(s.registered, batch))
    ensures Enabled(s, a, batch) && a.t == t && (a.FinishRun? || a.FailRun?)
    ensures a.FinishRun? <==> Succeeds(s.registered, batch)
  {
    hide Answers, Succeeds, FingerprintSound, UniqueIds, ErrorFits;
    var r := RunPlan(planner);
    a := if r.Ok? then FinishRun(t, r.value.0, r.value.1) else FailRun(t);
  }
}
