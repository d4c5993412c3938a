/** pkg/sched/scheduler.go: schedule loops, the jobs they dispatch, the semaphore that bounds them, and the
    wait group that Stop waits for, interleaved in any order.  A step that is not enabled leaves the
    state as it is.  When several cases of a select are ready, any of them may be taken. */
module Sched {

  /** Waiting in the loop's select; Dispatching in dispatch's select; Acquired between taking a slot and
      wg.Add; Returning before the deferred wg.Done; Exited after it. */
  datatype Loop = Waiting | Dispatching | Acquired | Returning | Exited

  /** Running holds a slot; Ended has given it back but not yet called wg.Done. */
  datatype Job = Running | Ended | Finished

  datatype StopCall = NotCalled | InWait | Returned

  /** `schedules[i]` says whether schedule i is periodic; loop i runs it, for i < |loops|. */
  datatype State = State(
    workers: nat,
    schedules: seq<bool>,
    loops: seq<Loop>,
    jobs: seq<Job>,
    slots: int,
    wg: int,
    cancelled: bool,
    stop: StopCall)

  function Init(workers: nat, schedules: seq<bool>): State {
    State(workers, schedules, [], [], 0, 0, false, NotCalled)
  }

  datatype Step =
    | Launch             // Start: wg.Add(1) and go runPeriodic or runOnce
    | Fire(i: nat)       // the loop's ticker or timer fires
    | SeeDone(i: nat)    // the loop's select takes ctx.Done
    | GiveUp(i: nat)     // dispatch's select takes ctx.Done
    | TakeSlot(i: nat)   // dispatch's select sends on sem
    | Spawn(i: nat)      // wg.Add(1) and go func
    | ExitLoop(i: nat)   // the loop's deferred wg.Done
    | EndJob(j: nat)     // job.Fn returns and the slot is released
    | FinishJob(j: nat)  // the job's deferred wg.Done
    | Cancel             // the parent context is cancelled
    | CallStop
    | ReturnStop

  predicate Enabled(s: State, step: Step) {
    match step
    case Launch => |s.loops| < |s.schedules| && s.stop == NotCalled
    case Fire(i) => i < |s.loops| && s.loops[i] == Waiting
    case SeeDone(i) => i < |s.loops| && s.loops[i] == Waiting && s.cancelled
    case GiveUp(i) => i < |s.loops| && s.loops[i] == Dispatching && s.cancelled
    case TakeSlot(i) => i < |s.loops| && s.loops[i] == Dispatching && s.slots < s.workers
    case Spawn(i) => i < |s.loops| && s.loops[i] == Acquired
    case ExitLoop(i) => i < |s.loops| && s.loops[i] == Returning
    case EndJob(j) => j < |s.jobs| && s.jobs[j] == Running
    case FinishJob(j) => j < |s.jobs| && s.jobs[j] == Ended
    case Cancel => true
    case CallStop => s.stop == NotCalled && |s.loops| == |s.schedules|
    case ReturnStop => s.stop == InWait && s.wg == 0
  }

  /** Where a loop goes after dispatch: a periodic one back to its select, the other returns. */
  function AfterDispatch(s: State, i: nat): Loop {
    if i < |s.schedules| && s.schedules[i] then Waiting else Returning
  }

  function Next(s: State, step: Step): State {
    if !Enabled(s, step) then s
    else match step
      case Launch => s.(loops := s.loops + [if s.schedules[|s.loops|] then Dispatching else Waiting], wg := s.wg + 1)
      case Fire(i) => s.(loops := s.loops[i := Dispatching])
      case SeeDone(i) => s.(loops := s.loops[i := Returning])
      case GiveUp(i) => s.(loops := s.loops[i := AfterDispatch(s, i)])
      case TakeSlot(i) => s.(loops := s.loops[i := Acquired], slots := s.slots + 1)
      case Spawn(i) => s.(loops := s.loops[i := AfterDispatch(s, i)], jobs := s.jobs + [Running], wg := s.wg + 1)
      case ExitLoop(i) => s.(loops := s.loops[i := Exited], wg := s.wg - 1)
      case EndJob(j) => s.(jobs := s.jobs[j := Ended], slots := s.slots - 1)
      case FinishJob(j) => s.(jobs := s.jobs[j := Finished], wg := s.wg - 1)
      case Cancel => s.(cancelled := true)
      case CallStop => s.(cancelled := true, stop := InWait)
      case ReturnStop => s.(stop := Returned)
  }

  function Run(s: State, steps: seq<Step>): State {
    if steps == [] then s else Next(Run(s, steps[..|steps| - 1]), steps[|steps| - 1])
  }

  // ------------------------------------------------------------------ counting

  function Count<T(==)>(s: seq<T>, members: set<T>): nat {
    if s == [] then 0 else Count(s[..|s| - 1], members) + (if s[|s| - 1] in members then 1 else 0)
  }

  lemma {:induction false} CountUpdate<T>(s: seq<T>, i: nat, x: T, members: set<T>)
    requires i < |s|
    ensures Count(s[i := x], members) == Count(s, members) - (if s[i] in members then 1 else 0) + (if x in members then 1 else 0)
    ensures s[i] in members ==> Count(s, members) >= 1
    decreases |s|
  {
    if i < |s| - 1 {
      CountUpdate(s[..|s| - 1], i, x, members);
      assert s[i := x][..|s| - 1] == s[..|s| - 1][i := x];
    } else {
      assert s[i := x][..|s| - 1] == s[..|s| - 1];
    }
  }

  lemma CountPush<T>(s: seq<T>, x: T, members: set<T>)
    ensures Count(s + [x], members) == Count(s, members) + (if x in members then 1 else 0)
  {
    assert (s + [x])[..|s|] == s;
  }

  lemma {:induction false} CountNone<T>(s: seq<T>, members: set<T>)
    ensures Count(s, members) == 0 <==> forall i :: 0 <= i < |s| ==> s[i] !in members
    decreases |s|
  {
    if s != [] { CountNone(s[..|s| - 1], members); }
  }

  const LIVE_LOOPS: set<Loop> := {Waiting, Dispatching, Acquired, Returning}
  const LIVE_JOBS: set<Job> := {Running, Ended}

  // ------------------------------------------------------------------ invariant

  /** Slots in use are those of loops about to spawn and of running jobs; the wait group counts live loops
      and live jobs. */
  ghost predicate Inv(s: State) {
    && s.slots == Count(s.loops, {Acquired}) + Count(s.jobs, {Running}) <= s.workers
    && s.wg == Count(s.loops, LIVE_LOOPS) + Count(s.jobs, LIVE_JOBS)
    && |s.loops| <= |s.schedules|
    && (s.stop != NotCalled ==> s.cancelled && |s.loops| == |s.schedules|)
    && (s.stop == Returned ==> s.wg == 0)
  }

  lemma LoopMoves(s: State, i: nat, to: Loop)
    requires i < |s.loops|
    ensures var l := s.loops[i := to];
            && Count(l, {Acquired}) == Count(s.loops, {Acquired}) - (if s.loops[i] == Acquired then 1 else 0) + (if to == Acquired then 1 else 0)
            && Count(l, LIVE_LOOPS) == Count(s.loops, LIVE_LOOPS) - (if s.loops[i] == Exited then 0 else 1) + (if to == Exited then 0 else 1)
            && (s.loops[i] != Exited ==> Count(s.loops, LIVE_LOOPS) >= 1)
  {
    CountUpdate(s.loops, i, to, {Acquired});
    CountUpdate(s.loops, i, to, LIVE_LOOPS);
  }

  lemma JobMoves(s: State, j: nat, to: Job)
    requires j < |s.jobs|
    ensures var l := s.jobs[j := to];
            && Count(l, {Running}) == Count(s.jobs, {Running}) - (if s.jobs[j] == Running then 1 else 0) + (if to == Running then 1 else 0)
            && Count(l, LIVE_JOBS) == Count(s.jobs, LIVE_JOBS) - (if s.jobs[j] == Finished then 0 else 1) + (if to == Finished then 0 else 1)
            && (s.jobs[j] != Finished ==> Count(s.jobs, LIVE_JOBS) >= 1)
  {
    CountUpdate(s.jobs, j, to, {Running});
    CountUpdate(s.jobs, j, to, LIVE_JOBS);
  }

  lemma LoopStepKeeps(s: State, step: Step)
    requires Inv(s) && Enabled(s, step)
    requires step.Fire? || step.SeeDone? || step.GiveUp? || step.TakeSlot? || step.ExitLoop?
    ensures Inv(Next(s, step))
  {
    match step
    case Fire(i) => LoopMoves(s, i, Dispatching);
    case SeeDone(i) => LoopMoves(s, i, Returning);
    case GiveUp(i) => LoopMoves(s, i, AfterDispatch(s, i));
    case TakeSlot(i) => LoopMoves(s, i, Acquired);
    case ExitLoop(i) => LoopMoves(s, i, Exited);
  }

  lemma LaunchKeeps(s: State)
    requires Inv(s) && Enabled(s, Launch)
    ensures Inv(Next(s, Launch))
  {
    var l := if s.schedules[|s.loops|] then Dispatching else Waiting;
    CountPush(s.loops, l, {Acquired});
    CountPush(s.loops, l, LIVE_LOOPS);
  }

  lemma SpawnKeeps(s: State, i: nat)
    requires Inv(s) && Enabled(s, Spawn(i))
    ensures Inv(Next(s, Spawn(i)))
  {
    LoopMoves(s, i, AfterDispatch(s, i));
    CountPush(s.jobs, Running, {Running});
    CountPush(s.jobs, Running, LIVE_JOBS);
  }

  lemma JobStepKeeps(s: State, step: Step)
    requires Inv(s) && Enabled(s, step) && (step.EndJob? || step.FinishJob?)
    ensures Inv(Next(s, step))
  {
    JobMoves(s, step.j, if step.EndJob? then Ended else Finished);
  }

  lemma StepKeeps(s: State, step: Step)
    requires Inv(s)
    ensures Inv(Next(s, step))
    ensures Next(s, step).workers == s.workers && Next(s, step).schedules == s.schedules
  {
    if Enabled(s, step) {
      match step
      case Launch => LaunchKeeps(s);
      case Spawn(i) => SpawnKeeps(s, i);
      case EndJob(j) => JobStepKeeps(s, step);
      case FinishJob(j) => JobStepKeeps(s, step);
      case Cancel =>
      case CallStop =>
      case ReturnStop =>
      case _ => LoopStepKeeps(s, step);
    }
  }

  lemma {:induction false} RunKeeps(s: State, steps: seq<Step>)
    requires Inv(s)
    ensures Inv(Run(s, steps)) && Run(s, steps).workers == s.workers && Run(s, steps).schedules == s.schedules
    decreases |steps|
  {
    if steps != [] {
      RunKeeps(s, steps[..|steps| - 1]);
      StepKeeps(Run(s, steps[..|steps| - 1]), steps[|steps| - 1]);
    }
  }

  // ------------------------------------------------------------------ what holds in every run

  /** In every interleaving, at most `workers` jobs run at once, and the wait group counts live loops and
      jobs. */
  lemma ConcurrencyIsBounded(workers: nat, schedules: seq<bool>, steps: seq<Step>)
    ensures var s := Run(Init(workers, schedules), steps);
            && Count(s.jobs, {Running}) <= s.slots <= workers
            && s.wg == Count(s.loops, LIVE_LOOPS) + Count(s.jobs, LIVE_JOBS)
  {
    RunKeeps(Init(workers, schedules), steps);
  }

  /** A job's release of its slot never finds the semaphore empty, and wg.Done never makes the wait group
      negative. */
  lemma ReleasesAreMatched(workers: nat, schedules: seq<bool>, steps: seq<Step>, step: Step)
    requires Enabled(Run(Init(workers, schedules), steps), step)
    ensures step.EndJob? ==> Run(Init(workers, schedules), steps).slots >= 1
    ensures step.FinishJob? || step.ExitLoop? ==> Run(Init(workers, schedules), steps).wg >= 1
  {
    RunKeeps(Init(workers, schedules), steps);
    var s := Run(Init(workers, schedules), steps);
    if step.EndJob? {
      CountUpdate(s.jobs, step.j, Ended, {Running});
    } else if step.FinishJob? {
      JobMoves(s, step.j, Finished);
    } else if step.ExitLoop? {
      LoopMoves(s, step.i, Exited);
    }
  }

  /** While Stop waits, wg.Add is only ever called on a wait group that is not zero, because the loop that
      calls it is itself counted. */
  lemma AddNeverRacesWait(workers: nat, schedules: seq<bool>, steps: seq<Step>, step: Step)
    requires Run(Init(workers, schedules), steps).stop != NotCalled
    requires Next(Run(Init(workers, schedules), steps), step).wg > Run(Init(workers, schedules), steps).wg
    ensures Run(Init(workers, schedules), steps).stop == InWait && Run(Init(workers, schedules), steps).wg >= 1
  {
    RunKeeps(Init(workers, schedules), steps);
    var s := Run(Init(workers, schedules), steps);
    LoopMoves(s, step.i, Waiting);
  }

  /** How often the step is taken in the run. */
  ghost function Times(s: State, steps: seq<Step>, step: Step): nat {
    if steps == [] then 0
    else
      var init := steps[..|steps| - 1];
      Times(s, init, step) + (if steps[|steps| - 1] == step && Enabled(Run(s, init), step) then 1 else 0)
  }

  /** The dispatches of loop i that have begun, and how often dispatch has spawned and given up. */
  ghost predicate Dispatches(s: State, i: nat, fires: nat, spawns: nat, givesUp: nat) {
    if i >= |s.loops| || i >= |s.schedules| then fires == spawns == givesUp == 0
    else
      && fires + (if s.schedules[i] then 1 else 0)
           == spawns + givesUp + (if s.loops[i] == Dispatching || s.loops[i] == Acquired then 1 else 0)
      && (!s.cancelled ==> givesUp == 0)
      && (s.schedules[i] ==> (s.loops[i] == Returning || s.loops[i] == Exited ==> s.cancelled))
      && (!s.schedules[i] ==>
            fires <= 1 && (s.loops[i] == Waiting ==> fires == 0)
            && (s.loops[i] == Returning || s.loops[i] == Exited ==> s.cancelled || spawns == 1))
  }

  lemma StepDispatches(s: State, step: Step, i: nat, fires: nat, spawns: nat, givesUp: nat)
    requires Inv(s) && Dispatches(s, i, fires, spawns, givesUp)
    ensures Dispatches(Next(s, step), i,
                       fires + (if step == Fire(i) && Enabled(s, step) then 1 else 0),
                       spawns + (if step == Spawn(i) && Enabled(s, step) then 1 else 0),
                       givesUp + (if step == GiveUp(i) && Enabled(s, step) then 1 else 0))
  {
  }

  lemma {:induction false} RunDispatches(workers: nat, schedules: seq<bool>, steps: seq<Step>, i: nat)
    ensures var s0 := Init(workers, schedules);
            Dispatches(Run(s0, steps), i, Times(s0, steps, Fire(i)), Times(s0, steps, Spawn(i)), Times(s0, steps, GiveUp(i)))
    decreases |steps|
  {
    if steps != [] {
      var s0, init := Init(workers, schedules), steps[..|steps| - 1];
      RunDispatches(workers, schedules, init, i);
      RunKeeps(s0, init);
      StepDispatches(Run(s0, init), steps[|steps| - 1], i,
                     Times(s0, init, Fire(i)), Times(s0, init, Spawn(i)), Times(s0, init, GiveUp(i)));
    }
  }

  /** A periodic loop goes back to its select after each dispatch: until the context is cancelled it has not returned,
      and it has spawned a job when it was launched and for every tick since, but for the one it is dispatching. */
  lemma PeriodicLoopGoesOn(workers: nat, schedules: seq<bool>, steps: seq<Step>, i: nat)
    requires i < |Run(Init(workers, schedules), steps).loops| && i < |schedules| && schedules[i]
    requires !Run(Init(workers, schedules), steps).cancelled
    ensures var s0 := Init(workers, schedules);
            match Run(s0, steps).loops[i]
            case Waiting => Times(s0, steps, Spawn(i)) == Times(s0, steps, Fire(i)) + 1
            case Dispatching => Times(s0, steps, Spawn(i)) == Times(s0, steps, Fire(i))
            case Acquired => Times(s0, steps, Spawn(i)) == Times(s0, steps, Fire(i))
            case Returning => false
            case Exited => false
  {
    RunKeeps(Init(workers, schedules), steps);
    RunDispatches(workers, schedules, steps, i);
  }

  /** A one-shot loop fires at most once and spawns at most one job, none before it has fired; it has spawned one when
      it returns, unless the context was cancelled. */
  lemma OneShotRunsOnce(workers: nat, schedules: seq<bool>, steps: seq<Step>, i: nat)
    requires i < |schedules| && !schedules[i]
    ensures var s0 := Init(workers, schedules);
            && Times(s0, steps, Spawn(i)) <= Times(s0, steps, Fire(i)) <= 1
            && (i < |Run(s0, steps).loops| && !Run(s0, steps).cancelled ==>
                  (Run(s0, steps).loops[i] in {Returning, Exited} <==> Times(s0, steps, Spawn(i)) == 1))
  {
    RunKeeps(Init(workers, schedules), steps);
    RunDispatches(workers, schedules, steps, i);
  }

  /** Everything has come to rest. */
  ghost predicate AtRest(s: State) {
    && s.stop == Returned && s.slots == 0 && s.wg == 0
    && (forall i :: 0 <= i < |s.loops| ==> s.loops[i] == Exited)
    && (forall j :: 0 <= j < |s.jobs| ==> s.jobs[j] == Finished)
  }

  lemma RestFromCounts(s: State)
    requires Inv(s) && s.stop == Returned
    ensures AtRest(s)
  {
    CountNone(s.loops, LIVE_LOOPS);
    CountNone(s.jobs, LIVE_JOBS);
    CountNone(s.loops, {Acquired});
    CountNone(s.jobs, {Running});
  }

  /** Once Stop has returned no job is running, all slots are free, and no job ever starts again. */
  lemma {:induction false} StopIsFinal(workers: nat, schedules: seq<bool>, before: seq<Step>, after: seq<Step>)
    requires Run(Init(workers, schedules), before).stop == Returned
    ensures AtRest(Run(Init(workers, schedules), before))
    ensures var s, s' := Run(Init(workers, schedules), before), Run(Run(Init(workers, schedules), before), after);
            AtRest(s') && s'.jobs == s.jobs
    decreases |after|
  {
    RunKeeps(Init(workers, schedules), before);
    RestFromCounts(Run(Init(workers, schedules), before));
    if after != [] {
      StopIsFinal(workers, schedules, before, after[..|after| - 1]);
    }
  }

  // ------------------------------------------------------------------ Stop returns

  function LoopWeight(l: Loop): nat {
    match l
    case Waiting => 2
    case Dispatching => 3
    case Acquired => 5
    case Returning => 1
    case Exited => 0
  }

  function JobWeight(j: Job): nat {
    match j
    case Running => 2
    case Ended => 1
    case Finished => 0
  }

  function LoopSum(loops: seq<Loop>): nat {
    if loops == [] then 0 else LoopSum(loops[..|loops| - 1]) + LoopWeight(loops[|loops| - 1])
  }

  function JobSum(jobs: seq<Job>): nat {
    if jobs == [] then 0 else JobSum(jobs[..|jobs| - 1]) + JobWeight(jobs[|jobs| - 1])
  }

  /** What loops, jobs and Stop still have to do before Stop returns, timers aside. */
  function Measure(s: State): nat {
    LoopSum(s.loops) + JobSum(s.jobs) + (if s.stop == Returned then 0 else 1)
  }

  lemma {:induction false} LoopLeft(loops: seq<Loop>, i: nat, to: Loop)
    requires i < |loops|
    ensures LoopSum(loops[i := to]) == LoopSum(loops) - LoopWeight(loops[i]) + LoopWeight(to)
    decreases |loops|
  {
    if i < |loops| - 1 {
      LoopLeft(loops[..|loops| - 1], i, to);
      assert loops[i := to][..|loops| - 1] == loops[..|loops| - 1][i := to];
    } else {
      assert loops[i := to][..|loops| - 1] == loops[..|loops| - 1];
    }
  }

  lemma {:induction false} JobLeft(jobs: seq<Job>, j: nat, to: Job)
    requires j < |jobs|
    ensures JobSum(jobs[j := to]) == JobSum(jobs) - JobWeight(jobs[j]) + JobWeight(to)
    decreases |jobs|
  {
    if j < |jobs| - 1 {
      JobLeft(jobs[..|jobs| - 1], j, to);
      assert jobs[j := to][..|jobs| - 1] == jobs[..|jobs| - 1][j := to];
    } else {
      assert jobs[j := to][..|jobs| - 1] == jobs[..|jobs| - 1];
    }
  }

  /** A step that does something, other than a timer firing or a slot being taken. */
  predicate Quiet(s: State, step: Step) {
    Enabled(s, step) && !step.Fire? && !step.TakeSlot? && !step.Cancel?
  }

  /** While Stop waits, every step but a timer firing or a slot being taken brings it closer to its return, and
      those two set it back by at most two. */
  lemma StepsDrain(s: State, step: Step)
    requires s.stop == InWait
    ensures Quiet(s, step) ==> Measure(Next(s, step)) < Measure(s)
    ensures Measure(Next(s, step)) <= Measure(s) + 2
    ensures Next(s, step).stop == InWait || (step == ReturnStop && Next(s, step).stop == Returned)
  {
    if Enabled(s, step) {
      match step
      case Fire(i) => LoopLeft(s.loops, i, Dispatching);
      case SeeDone(i) => LoopLeft(s.loops, i, Returning);
      case GiveUp(i) => LoopLeft(s.loops, i, AfterDispatch(s, i));
      case TakeSlot(i) => LoopLeft(s.loops, i, Acquired);
      case Spawn(i) =>
        LoopLeft(s.loops, i, AfterDispatch(s, i));
        assert (s.jobs + [Running])[..|s.jobs|] == s.jobs;
      case ExitLoop(i) => LoopLeft(s.loops, i, Exited);
      case EndJob(j) => JobLeft(s.jobs, j, Ended);
      case FinishJob(j) => JobLeft(s.jobs, j, Finished);
      case _ =>
    }
  }

  /** While Stop waits, some such step is possible. */
  lemma QuietStep(s: State) returns (step: Step)
    requires Inv(s) && s.stop == InWait
    ensures Quiet(s, step)
  {
    if s.wg == 0 {
      step := ReturnStop;
    } else if Count(s.loops, LIVE_LOOPS) > 0 {
      CountNone(s.loops, LIVE_LOOPS);
      var i :| 0 <= i < |s.loops| && s.loops[i] in LIVE_LOOPS;
      step := match s.loops[i]
        case Waiting => SeeDone(i)
        case Dispatching => GiveUp(i)
        case Acquired => Spawn(i)
        case Returning => ExitLoop(i);
    } else {
      CountNone(s.jobs, LIVE_JOBS);
      var j :| 0 <= j < |s.jobs| && s.jobs[j] in LIVE_JOBS;
      step := if s.jobs[j] == Running then EndJob(j) else FinishJob(j);
    }
  }

  lemma {:induction false} RunFirst(s: State, step: Step, steps: seq<Step>)
    ensures Run(s, [step] + steps) == Run(Next(s, step), steps)
    decreases |steps|
  {
    if steps == [] {
      assert [step] + steps == [step] && [step][..0] == [];
    } else {
      var all, init, last := [step] + steps, steps[..|steps| - 1], steps[|steps| - 1];
      RunFirst(s, step, init);
      assert all[..|all| - 1] == [step] + init && all[|all| - 1] == last;
      assert Run(s, all) == Next(Run(s, [step] + init), last);
    }
  }

  lemma {:induction false} Drained(s: State) returns (steps: seq<Step>)
    requires Inv(s) && s.stop == InWait
    ensures |steps| <= Measure(s) && Run(s, steps).stop == Returned
    ensures forall i :: 0 <= i < |steps| ==> !steps[i].Fire? && !steps[i].TakeSlot?
    decreases Measure(s)
  {
    var step := QuietStep(s);
    StepKeeps(s, step);
    StepsDrain(s, step);
    var rest: seq<Step> := [];
    if Next(s, step).stop == InWait {
      rest := Drained(Next(s, step));
    }
    RunFirst(s, step, rest);
    steps := [step] + rest;
  }

  /** Wherever Stop finds the scheduler, it can return: a run in which no timer fires and no slot is taken gets it
      there in at most as many steps as there is left to do. */
  lemma StopReturns(workers: nat, schedules: seq<bool>, before: seq<Step>) returns (after: seq<Step>)
    requires Run(Init(workers, schedules), before).stop == InWait
    ensures |after| <= Measure(Run(Init(workers, schedules), before))
    ensures forall i :: 0 <= i < |after| ==> !after[i].Fire? && !after[i].TakeSlot?
    ensures Run(Run(Init(workers, schedules), before), after).stop == Returned
  {
    RunKeeps(Init(workers, schedules), before);
    after := Drained(Run(Init(workers, schedules), before));
  }

  // ------------------------------------------------------------------ Start

  /** The scheduler: every Start makes a context, a semaphore and loops of its own, for the schedules there are. */
  class Scheduler {
    const workers: nat
    var schedules: seq<bool>
    var runs: seq<State>

    constructor (workers: nat)
      ensures this.workers == workers && schedules == [] && runs == []
    {
      this.workers := workers;
      schedules, runs := [], [];
    }

    /** Every (periodic) or After. */
    method Schedule(periodic: bool)
      modifies this`schedules
      ensures schedules == old(schedules) + [periodic]
    {
      schedules := schedules + [periodic];
    }

    /** Start launches one loop per schedule, each counted before it runs; what an earlier Start launched is left
        alone. */
    method Start()
      modifies this`runs
      ensures |runs| == |old(runs)| + 1 && runs[..|old(runs)|] == old(runs)
      ensures var s := runs[|old(runs)|];
              && s == Run(Init(workers, schedules), Launches(|schedules|)) && Inv(s)
              && |s.loops| == |schedules| == s.wg
              && forall i :: 0 <= i < |s.loops| ==> s.loops[i] == if schedules[i] then Dispatching else Waiting
    {
      var s := Init(workers, schedules);
      for n := 0 to |schedules|
        invariant runs == old(runs) && s == Run(Init(workers, schedules), Launches(n))
      {
        assert Launches(n + 1)[..n] == Launches(n);
        s := Next(s, Launch);
      }
      Launched(workers, schedules, |schedules|);
      RunKeeps(Init(workers, schedules), Launches(|schedules|));
      runs := runs + [s];
    }
  }

  ghost function Launches(n: nat): seq<Step> {
    seq(n, i => Launch)
  }

  lemma {:induction false} Launched(workers: nat, schedules: seq<bool>, n: nat)
    requires n <= |schedules|
    ensures var s := Run(Init(workers, schedules), Launches(n));
            && s.schedules == schedules && s.stop == NotCalled && |s.loops| == n == s.wg
            && forall i :: 0 <= i < n ==> s.loops[i] == if schedules[i] then Dispatching else Waiting
    decreases n
  {
    if n > 0 {
      Launched(workers, schedules, n - 1);
      assert Launches(n)[..n - 1] == Launches(n - 1);
    }
  }
}
