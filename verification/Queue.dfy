/** pkg/queue/queue.go: the jobs table, the transactions that enqueue into it, and any number of worker
    transactions that claim rows with FOR UPDATE SKIP LOCKED, run handlers, and update the rows before
    they commit or are rolled back.  A step that is not enabled leaves the state as it is. */
module Queue {
  // ------------------------------------------------------------------ retry delay, in int64 nanoseconds

  const SECOND := 1_000_000_000
  const HOUR := 3_600_000_000_000
  const TWO63 := 0x8000_0000_0000_0000
  const TWO64 := 0x1_0000_0000_0000_0000

  function Pow2(n: nat): (p: int)
    ensures p >= 1
  {
    if n == 0 then 1 else 2 * Pow2(n - 1)
  }

  /** The int64 that holds x modulo 2^64. */
  function Int64(x: int): (r: int)
    ensures -TWO63 <= r < TWO63
  {
    (x + TWO63) % TWO64 - TWO63
  }

  /** 1 << a on int64 */
  function Shl(a: nat): int {
    if a >= 64 then 0 else Int64(Pow2(a))
  }

  /** time.Duration(1<<attempts) * 10 * time.Second */
  function RawDelay(attempts: nat): int {
    Int64(Int64(Shl(attempts) * 10) * SECOND)
  }

  function Delay(attempts: nat): int {
    if RawDelay(attempts) > HOUR then HOUR else RawDelay(attempts)
  }

  /** What the comment above it says: 2^attempts * 10s, capped at 1h. */
  function IntendedDelay(attempts: nat): int {
    if Pow2(attempts) * 10 * SECOND > HOUR then HOUR else Pow2(attempts) * 10 * SECOND
  }

  lemma {:induction false} Pow2Monotone(a: nat, b: nat)
    requires a <= b
    ensures Pow2(a) <= Pow2(b)
    decreases b
  {
    if a < b { Pow2Monotone(a, b - 1); }
  }

  lemma Int64Small(x: int)
    requires 0 <= x < TWO63
    ensures Int64(x) == x
  {
  }

  lemma Int64Shift(x: int, k: int)
    ensures Int64(x + k * TWO64) == Int64(x)
  {
  }

  /** Wrapping twice on the way is wrapping once at the end. */
  lemma Int64Mul(x: int, y: int)
    ensures Int64(Int64(x) * y) == Int64(x * y)
  {
    var k := (x + TWO63) / TWO64;
    assert Int64(x) == x - k * TWO64;
    assert Int64(x) * y == x * y + (-k * y) * TWO64;
    Int64Shift(x * y, -k * y);
  }

  lemma RawDelayIs(a: nat)
    requires a < 64
    ensures RawDelay(a) == Int64(Pow2(a) * 10 * SECOND)
  {
    Int64Mul(Pow2(a), 10);
    Int64Mul(Pow2(a) * 10, SECOND);
  }

  lemma Pow2At29()
    ensures Pow2(29) == 536_870_912
  {
    assert Pow2(10) == 1024;
    assert Pow2(20) == 1_048_576;
  }

  lemma DelayExact(a: nat)
    requires a <= 29
    ensures RawDelay(a) == Pow2(a) * 10 * SECOND && Delay(a) == IntendedDelay(a)
  {
    Pow2Monotone(a, 29);
    Pow2At29();
    RawDelayIs(a);
    Int64Small(Pow2(a) * 10 * SECOND);
  }

  /** 2 * r on int64 */
  function Twice(r: int): int {
    if 2 * r >= TWO63 then 2 * r - TWO64 else if 2 * r < -TWO63 then 2 * r + TWO64 else 2 * r
  }

  /** Each further attempt doubles the product, modulo 2^64. */
  lemma Doubles(a: nat)
    requires a < 63
    ensures RawDelay(a + 1) == Twice(RawDelay(a))
  {
    RawDelayIs(a);
    RawDelayIs(a + 1);
    assert Pow2(a + 1) * 10 * SECOND == 2 * (Pow2(a) * 10 * SECOND);
    Int64Twice(Pow2(a) * 10 * SECOND);
  }

  lemma Int64Twice(x: int)
    ensures Int64(2 * x) == Twice(Int64(x))
  {
    var k := (x + TWO63) / TWO64;
    assert Int64(x) == x - k * TWO64;
    Int64Shift(2 * Int64(x), 2 * k);
    assert 2 * Int64(x) + 2 * k * TWO64 == 2 * x;
    Int64Shift(Twice(Int64(x)), if 2 * Int64(x) >= TWO63 then 1 else if 2 * Int64(x) < -TWO63 then -1 else 0);
  }

  /** The delay n doublings after attempt 29, the last one that fits. */
  function Doubled(n: nat): int {
    if n == 0 then 5_368_709_120_000_000_000 else Twice(Doubled(n - 1))
  }

  lemma {:induction false} RawDelayDoubles(n: nat)
    requires n <= 34
    ensures RawDelay(29 + n) == Doubled(n)
    decreases n
  {
    if n == 0 {
      DelayExact(29);
      Pow2At29();
    } else {
      RawDelayDoubles(n - 1);
      Doubles(28 + n);
    }
  }

  /** Attempt numbers at which the product overflows int64 but still comes out above an hour. */
  predicate Lucky(a: nat) {
    31 <= a <= 32 || a == 34 || a == 36 || 38 <= a <= 43 || a == 45 || 51 <= a <= 52
  }

  lemma DoubledTo6()
    ensures Doubled(6) == -6_890_753_720_481_480_704
    ensures forall n: nat :: 1 <= n <= 6 ==> if Lucky(29 + n) then Doubled(n) > HOUR else Doubled(n) <= 0
  {
  }

  lemma DoubledTo12()
    requires Doubled(6) == -6_890_753_720_481_480_704
    ensures Doubled(12) == 1_713_619_658_214_473_728
    ensures forall n: nat :: 7 <= n <= 12 ==> if Lucky(29 + n) then Doubled(n) > HOUR else Doubled(n) <= 0
  {
  }

  lemma DoubledTo18()
    requires Doubled(12) == 1_713_619_658_214_473_728
    ensures Doubled(18) == -1_008_806_316_530_991_104
    ensures forall n: nat :: 13 <= n <= 18 ==> if Lucky(29 + n) then Doubled(n) > HOUR else Doubled(n) <= 0
  {
  }

  lemma DoubledTo21()
    requires Doubled(18) == -1_008_806_316_530_991_104
    ensures Doubled(21) == -8_070_450_532_247_928_832
    ensures forall n: nat :: 19 <= n <= 21 ==> if Lucky(29 + n) then Doubled(n) > HOUR else Doubled(n) <= 0
  {
  }

  lemma DoubledTo24()
    requires Doubled(21) == -8_070_450_532_247_928_832
    ensures Doubled(24) == -9_223_372_036_854_775_808
    ensures forall n: nat :: 22 <= n <= 24 ==> if Lucky(29 + n) then Doubled(n) > HOUR else Doubled(n) <= 0
  {
  }

  lemma {:induction false} DoubledFrom24(n: nat)
    requires n >= 25 && Doubled(24) == -9_223_372_036_854_775_808
    ensures Doubled(n) == 0
    decreases n
  {
    if n > 25 { DoubledFrom24(n - 1); }
  }

  lemma DoubledValue(n: nat)
    requires 1 <= n <= 34
    ensures if Lucky(29 + n) then Doubled(n) > HOUR else Doubled(n) <= 0
  {
    DoubledTo6();
    DoubledTo12();
    DoubledTo18();
    DoubledTo21();
    DoubledTo24();
    if n > 24 { DoubledFrom24(n); }
  }

  lemma OverflowingDelay(a: nat)
    requires a >= 30
    ensures if Lucky(a) then RawDelay(a) > HOUR else RawDelay(a) <= 0
  {
    if a <= 63 {
      RawDelayDoubles(a - 29);
      DoubledValue(a - 29);
    } else {
      assert Shl(a) == 0 && Int64(0) == 0;
    }
  }

  /** The delay is the intended one exactly up to 29 attempts and at the lucky overflows; at every other
      attempt number it is zero or negative, so the job is due again at once. */
  lemma DelayExactIff(a: nat)
    ensures Delay(a) == IntendedDelay(a) <==> a <= 29 || Lucky(a)
    ensures Delay(a) != IntendedDelay(a) ==> Delay(a) <= 0
  {
    if a <= 29 {
      DelayExact(a);
    } else {
      OverflowingDelay(a);
      Pow2Monotone(29, a);
      Pow2At29();
    }
  }

  // ------------------------------------------------------------------ jobs

  type Id = int

  /** The table also admits 'running', which the code never writes. */
  datatype Status = Pending | Done | Failed | Dead

  datatype Job = Job(kind: string, payload: string, status: Status, attempts: int, maxAttempts: int, runAt: int)

  /** What executeJob finds: no handler for the type, or a handler that returns nil or an error. */
  datatype Outcome = NoHandler | Success | Failure

  /** The row that executeJob writes. */
  function Executed(job: Job, outcome: Outcome, now: int): Job
    requires job.attempts >= 0
  {
    var attempts := job.attempts + 1;
    match outcome
    case NoHandler => job.(status := Failed)
    case Success => job.(status := Done, attempts := attempts)
    case Failure =>
      if attempts >= job.maxAttempts then job.(status := Dead, attempts := attempts)
      else job.(status := Pending, attempts := attempts, runAt := now + Delay(attempts))
  }

  // ------------------------------------------------------------------ the protocol

  /** A worker transaction: the rows it locked, what it found for the first `|outcomes|` of them and when,
      and the updates it has made.  `aborted` once an UPDATE has failed; its error is ignored, the handlers of the
      remaining jobs still run, and COMMIT becomes a rollback. */
  datatype Batch = Batch(claimed: seq<Id>, outcomes: seq<Outcome>, times: seq<int>, updates: map<Id, Job>, aborted: bool)

  /** `history` records, per job, the outcomes of committed executions. */
  datatype State = State(
    now: int,
    jobs: map<Id, Job>,
    batches: map<nat, Batch>,
    enqueuing: map<nat, map<Id, Job>>,
    used: set<Id>,
    history: map<Id, seq<Outcome>>)

  const Init := State(0, map[], map[], map[], {}, map[])

  datatype Step =
    | Tick(ns: nat)
    | BeginEnqueue(tx: nat)
    | Enqueue(tx: nat, id: Id, kind: string, payload: string, maxAttempts: int, delay: int)
    | CommitEnqueue(tx: nat)
    | RollbackEnqueue(tx: nat)
    | Claim(tx: nat, ids: seq<Id>)
    | Execute(tx: nat, outcome: Outcome, updateOk: bool)
    | Commit(tx: nat)
    | Rollback(tx: nat)

  ghost predicate Locked(s: State, id: Id) {
    exists tx :: tx in s.batches && id in s.batches[tx].claimed
  }

  ghost predicate Due(s: State, id: Id) {
    id in s.jobs && s.jobs[id].status == Pending && s.jobs[id].runAt <= s.now && !Locked(s, id)
  }

  /** The earliest due pending rows nobody has locked, at most ten of them. */
  ghost predicate Selects(s: State, ids: seq<Id>) {
    && |ids| <= 10
    && (forall i :: 0 <= i < |ids| ==> Due(s, ids[i]))
    && (forall i, j :: 0 <= i < j < |ids| ==> ids[i] != ids[j] && s.jobs[ids[i]].runAt <= s.jobs[ids[j]].runAt)
    && (forall id :: Due(s, id) && id !in ids ==>
          |ids| == 10 && s.jobs[ids[9]].runAt <= s.jobs[id].runAt)
  }

  ghost predicate Enabled(s: State, step: Step) {
    match step
    case Tick(_) => true
    case BeginEnqueue(tx) => tx !in s.enqueuing
    case Enqueue(tx, id, _, _, _, _) => tx in s.enqueuing && id !in s.used
    case CommitEnqueue(tx) => tx in s.enqueuing
    case RollbackEnqueue(tx) => tx in s.enqueuing
    case Claim(tx, ids) => tx !in s.batches && Selects(s, ids)
    case Execute(tx, _, _) =>
      && tx in s.batches && |s.batches[tx].outcomes| < |s.batches[tx].claimed|
      && var id := s.batches[tx].claimed[|s.batches[tx].outcomes|]; id in s.jobs && s.jobs[id].attempts >= 0
    case Commit(tx) => tx in s.batches && !s.batches[tx].aborted && |s.batches[tx].outcomes| == |s.batches[tx].claimed|
    case Rollback(tx) => tx in s.batches
  }

  ghost function AfterExecute(s: State, b: Batch, outcome: Outcome, updateOk: bool): Batch
    requires |b.outcomes| < |b.claimed| && b.claimed[|b.outcomes|] in s.jobs && s.jobs[b.claimed[|b.outcomes|]].attempts >= 0
  {
    var id := b.claimed[|b.outcomes|];
    b.(outcomes := b.outcomes + [outcome], times := b.times + [s.now],
       updates := b.updates[id := Executed(s.jobs[id], outcome, s.now)],
       aborted := b.aborted || !updateOk)
  }

  ghost function IndexOf(ids: seq<Id>, id: Id): (i: nat)
    requires id in ids
    ensures i < |ids| && ids[i] == id
  {
    var i: nat :| i < |ids| && ids[i] == id; i
  }

  /** What the batch found for a job it claimed. */
  ghost function OutcomeFor(b: Batch, id: Id): seq<Outcome> {
    if id in b.claimed && IndexOf(b.claimed, id) < |b.outcomes| then [b.outcomes[IndexOf(b.claimed, id)]] else []
  }

  ghost function Next(s: State, step: Step): State {
    if !Enabled(s, step) then s
    else match step
      case Tick(ns) => s.(now := s.now + ns)
      case BeginEnqueue(tx) => s.(enqueuing := s.enqueuing[tx := map[]])
      case Enqueue(tx, id, kind, payload, maxAttempts, delay) =>
        var job := Job(kind, payload, Pending, 0, maxAttempts, if delay > 0 then s.now + delay else s.now);
        s.(used := s.used + {id}, enqueuing := s.enqueuing[tx := s.enqueuing[tx][id := job]])
      case CommitEnqueue(tx) =>
        s.(jobs := s.jobs + s.enqueuing[tx], enqueuing := s.enqueuing - {tx},
           history := s.history + map id | id in s.enqueuing[tx] :: [])
      case RollbackEnqueue(tx) => s.(enqueuing := s.enqueuing - {tx})
      case Claim(tx, ids) => s.(batches := s.batches[tx := Batch(ids, [], [], map[], false)])
      case Execute(tx, outcome, updateOk) =>
        s.(batches := s.batches[tx := AfterExecute(s, s.batches[tx], outcome, updateOk)])
      case Commit(tx) =>
        s.(jobs := s.jobs + s.batches[tx].updates, batches := s.batches - {tx},
           history := map id | id in s.history :: s.history[id] + OutcomeFor(s.batches[tx], id))
      case Rollback(tx) => s.(batches := s.batches - {tx})
  }

  ghost function Run(s: State, steps: seq<Step>): State {
    if steps == [] then s else Next(Run(s, steps[..|steps| - 1]), steps[|steps| - 1])
  }

  // ------------------------------------------------------------------ a job's row, from its history alone

  ghost function Limit(maxAttempts: int): int { if maxAttempts < 1 then 1 else maxAttempts }

  /** Handlers run, i.e. outcomes other than NoHandler. */
  ghost function HandlerRuns(outcomes: seq<Outcome>): nat {
    if outcomes == [] then 0
    else HandlerRuns(outcomes[..|outcomes| - 1]) + (if outcomes[|outcomes| - 1].NoHandler? then 0 else 1)
  }

  /** Only a failure that leaves attempts is followed by another execution. */
  ghost predicate Plausible(maxAttempts: int, outcomes: seq<Outcome>) {
    && |outcomes| <= Limit(maxAttempts)
    && forall i :: 0 <= i < |outcomes| - 1 ==> outcomes[i].Failure?
  }

  ghost function StatusAfter(maxAttempts: int, outcomes: seq<Outcome>): Status {
    if outcomes == [] then Pending
    else match outcomes[|outcomes| - 1]
         case NoHandler => Failed
         case Success => Done
         case Failure => if |outcomes| == Limit(maxAttempts) then Dead else Pending
  }

  ghost predicate RowMatches(job: Job, outcomes: seq<Outcome>) {
    && Plausible(job.maxAttempts, outcomes)
    && job.status == StatusAfter(job.maxAttempts, outcomes)
    && job.attempts == HandlerRuns(outcomes)
  }

  lemma {:induction false} AllFailuresCount(outcomes: seq<Outcome>)
    requires forall i :: 0 <= i < |outcomes| ==> outcomes[i].Failure?
    ensures HandlerRuns(outcomes) == |outcomes|
    decreases |outcomes|
  {
    if outcomes != [] { AllFailuresCount(outcomes[..|outcomes| - 1]); }
  }

  /** One execution of a pending job extends its history by one outcome. */
  lemma ExecutedMatches(job: Job, outcomes: seq<Outcome>, outcome: Outcome, now: int)
    requires RowMatches(job, outcomes) && job.status == Pending
    ensures job.attempts >= 0 && RowMatches(Executed(job, outcome, now), outcomes + [outcome])
    ensures Executed(job, outcome, now).maxAttempts == job.maxAttempts
  {
    assert forall i :: 0 <= i < |outcomes| ==> outcomes[i].Failure?;
    AllFailuresCount(outcomes);
    assert (outcomes + [outcome])[..|outcomes|] == outcomes;
  }

  // ------------------------------------------------------------------ invariant

  ghost predicate Distinct(ids: seq<Id>) {
    forall i, j :: 0 <= i < j < |ids| ==> ids[i] != ids[j]
  }

  ghost predicate BatchOk(jobs: map<Id, Job>, b: Batch) {
    && Distinct(b.claimed)
    && |b.outcomes| == |b.times| <= |b.claimed|
    && (forall i :: 0 <= i < |b.claimed| ==> b.claimed[i] in jobs && jobs[b.claimed[i]].status == Pending)
    && (forall id :: id in b.updates ==> id in b.claimed)
    && (forall i :: 0 <= i < |b.outcomes| ==>
          && b.claimed[i] in b.updates && jobs[b.claimed[i]].attempts >= 0
          && b.updates[b.claimed[i]] == Executed(jobs[b.claimed[i]], b.outcomes[i], b.times[i]))
  }

  /** No row is locked by two open batches. */
  ghost predicate NoSharing(batches: map<nat, Batch>) {
    forall t, u, id :: t in batches && u in batches && id in batches[t].claimed && id in batches[u].claimed ==> t == u
  }

  ghost predicate EnqueuingOk(enqueuing: map<nat, map<Id, Job>>, used: set<Id>, jobs: map<Id, Job>) {
    && (forall tx, id :: tx in enqueuing && id in enqueuing[tx] ==>
          id in used && id !in jobs && Fresh(enqueuing[tx][id]))
    && (forall t, u, id :: t in enqueuing && u in enqueuing && id in enqueuing[t] && id in enqueuing[u] ==> t == u)
  }

  ghost predicate RowsOk(jobs: map<Id, Job>, history: map<Id, seq<Outcome>>, used: set<Id>) {
    && history.Keys == jobs.Keys && jobs.Keys <= used
    && (forall id :: id in jobs ==> RowMatches(jobs[id], history[id]))
  }

  ghost predicate BatchesOk(jobs: map<Id, Job>, batches: map<nat, Batch>) {
    && (forall tx :: tx in batches ==> BatchOk(jobs, batches[tx]))
    && NoSharing(batches)
  }

  ghost predicate Inv(s: State) {
    && RowsOk(s.jobs, s.history, s.used)
    && BatchesOk(s.jobs, s.batches)
    && EnqueuingOk(s.enqueuing, s.used, s.jobs)
  }

  ghost predicate Fresh(job: Job) {
    job.status == Pending && job.attempts == 0
  }

  lemma EnqueueKeeps(s: State, step: Step)
    requires Inv(s) && Enabled(s, step)
    requires step.Enqueue? || step.BeginEnqueue? || step.RollbackEnqueue?
    ensures Inv(Next(s, step))
  {
    var s' := Next(s, step);
    forall tx, id | tx in s'.enqueuing && id in s'.enqueuing[tx]
      ensures id in s'.used && id !in s'.jobs && Fresh(s'.enqueuing[tx][id])
    {
      assert (step.Enqueue? && tx == step.tx && id == step.id)
             || (tx in s.enqueuing && id in s.enqueuing[tx] && s'.enqueuing[tx][id] == s.enqueuing[tx][id]);
    }
    assert RowsOk(s'.jobs, s'.history, s'.used);
  }

  /** A batch only depends on the rows it claimed. */
  lemma BatchUnaffected(jobs: map<Id, Job>, jobs': map<Id, Job>, b: Batch)
    requires BatchOk(jobs, b)
    requires forall id :: id in b.claimed ==> id in jobs' && id in jobs && jobs'[id] == jobs[id]
    ensures BatchOk(jobs', b)
  {
    forall i | 0 <= i < |b.claimed| ensures b.claimed[i] in jobs' && jobs'[b.claimed[i]] == jobs[b.claimed[i]] {
      assert b.claimed[i] in b.claimed;
    }
  }

  lemma CommitEnqueueKeeps(s: State, tx: nat)
    requires Inv(s) && tx in s.enqueuing
    ensures Inv(Next(s, CommitEnqueue(tx)))
  {
    var s', new' := Next(s, CommitEnqueue(tx)), s.enqueuing[tx];
    assert s'.jobs.Keys == s.jobs.Keys + new'.Keys == s'.history.Keys;
    forall id | id in s'.jobs ensures RowMatches(s'.jobs[id], s'.history[id]) && id in s'.used {
      if id in new' { assert Fresh(new'[id]); }
    }
    forall t | t in s'.batches ensures BatchOk(s'.jobs, s'.batches[t]) {
      BatchUnaffected(s.jobs, s'.jobs, s.batches[t]);
    }
  }

  lemma ClaimKeeps(s: State, tx: nat, ids: seq<Id>)
    requires Inv(s) && Enabled(s, Claim(tx, ids))
    ensures Inv(Next(s, Claim(tx, ids)))
  {
    forall t, id | t in s.batches && id in s.batches[t].claimed ensures id !in ids { assert Locked(s, id); }
    assert BatchOk(s.jobs, Batch(ids, [], [], map[], false));
  }

  lemma ExecuteBatch(s: State, b: Batch, outcome: Outcome, updateOk: bool)
    requires BatchOk(s.jobs, b) && |b.outcomes| < |b.claimed| && s.jobs[b.claimed[|b.outcomes|]].attempts >= 0
    ensures BatchOk(s.jobs, AfterExecute(s, b, outcome, updateOk))
  {
    var b', n := AfterExecute(s, b, outcome, updateOk), |b.outcomes|;
    forall i | 0 <= i < n ensures b'.updates[b.claimed[i]] == b.updates[b.claimed[i]] {
      assert b.claimed[i] != b.claimed[n];
    }
  }

  lemma ExecuteKeeps(s: State, tx: nat, outcome: Outcome, updateOk: bool)
    requires Inv(s) && Enabled(s, Execute(tx, outcome, updateOk))
    ensures Inv(Next(s, Execute(tx, outcome, updateOk)))
  {
    ExecuteBatch(s, s.batches[tx], outcome, updateOk);
  }

  /** Committing a complete batch gives each claimed job one more outcome and the row that goes with it,
      and leaves every other job alone. */
  lemma CommitEffect(s: State, tx: nat, id: Id)
    requires Inv(s) && Enabled(s, Commit(tx)) && id in s.jobs
    ensures var s', b := Next(s, Commit(tx)), s.batches[tx];
            && id in s'.jobs && id in s'.history
            && (id !in b.claimed ==> s'.jobs[id] == s.jobs[id] && s'.history[id] == s.history[id])
            && (id in b.claimed ==>
                  var i := IndexOf(b.claimed, id);
                  && s.jobs[id].status == Pending && s.jobs[id].attempts >= 0
                  && s'.jobs[id] == Executed(s.jobs[id], b.outcomes[i], b.times[i])
                  && s'.history[id] == s.history[id] + [b.outcomes[i]])
  {
    var b := s.batches[tx];
    assert BatchOk(s.jobs, b);
    if id !in b.claimed { assert s.history[id] + [] == s.history[id]; }
  }

  lemma CommitKeys(s: State, tx: nat)
    requires Inv(s) && Enabled(s, Commit(tx))
    ensures Next(s, Commit(tx)).jobs.Keys == s.jobs.Keys
  {
    var b := s.batches[tx];
    assert BatchOk(s.jobs, b);
    forall id | id in b.updates ensures id in s.jobs { assert id in b.claimed; }
  }

  lemma CommitRow(s: State, tx: nat, id: Id)
    requires Inv(s) && Enabled(s, Commit(tx)) && id in s.jobs
    ensures var s' := Next(s, Commit(tx)); id in s'.jobs && id in s'.history && RowMatches(s'.jobs[id], s'.history[id])
  {
    CommitEffect(s, tx, id);
    var b := s.batches[tx];
    if id in b.claimed {
      var i := IndexOf(b.claimed, id);
      ExecutedMatches(s.jobs[id], s.history[id], b.outcomes[i], b.times[i]);
    }
  }

  lemma CommitRowsOk(s: State, tx: nat)
    requires Inv(s) && Enabled(s, Commit(tx))
    ensures RowsOk(Next(s, Commit(tx)).jobs, Next(s, Commit(tx)).history, s.used)
  {
    CommitKeys(s, tx);
    var s' := Next(s, Commit(tx));
    assert s'.history.Keys == s.history.Keys;
    forall id | id in s'.jobs ensures RowMatches(s'.jobs[id], s'.history[id]) {
      CommitRow(s, tx, id);
    }
  }

  lemma CommitBatchesOk(s: State, tx: nat)
    requires Inv(s) && Enabled(s, Commit(tx))
    ensures BatchesOk(Next(s, Commit(tx)).jobs, Next(s, Commit(tx)).batches)
  {
    forall t | t in s.batches && t != tx ensures BatchOk(Next(s, Commit(tx)).jobs, s.batches[t]) {
      CommitSparesOthers(s, tx, t);
    }
  }

  lemma CommitKeeps(s: State, tx: nat)
    requires Inv(s) && Enabled(s, Commit(tx))
    ensures Inv(Next(s, Commit(tx)))
  {
    CommitKeys(s, tx);
    CommitRowsOk(s, tx);
    CommitBatchesOk(s, tx);
    assert EnqueuingOk(s.enqueuing, s.used, Next(s, Commit(tx)).jobs);
  }

  lemma CommitSparesOthers(s: State, tx: nat, t: nat)
    requires Inv(s) && Enabled(s, Commit(tx)) && t in s.batches && t != tx
    ensures BatchOk(Next(s, Commit(tx)).jobs, s.batches[t])
    ensures forall id :: id in s.batches[t].claimed ==>
              id in s.jobs && id in Next(s, Commit(tx)).jobs && Next(s, Commit(tx)).jobs[id] == s.jobs[id]
  {
    var s' := Next(s, Commit(tx));
    forall id | id in s.batches[t].claimed ensures id in s'.jobs && id in s.jobs && s'.jobs[id] == s.jobs[id] {
      assert BatchOk(s.jobs, s.batches[t]);
      CommitEffect(s, tx, id);
    }
    BatchUnaffected(s.jobs, s'.jobs, s.batches[t]);
  }

  lemma StepKeeps(s: State, step: Step)
    requires Inv(s)
    ensures Inv(Next(s, step))
  {
    if Enabled(s, step) {
      match step
      case Tick(_) =>
      case BeginEnqueue(_) => EnqueueKeeps(s, step);
      case Enqueue(_, _, _, _, _, _) => EnqueueKeeps(s, step);
      case CommitEnqueue(tx) => CommitEnqueueKeeps(s, tx);
      case RollbackEnqueue(_) => EnqueueKeeps(s, step);
      case Claim(tx, ids) => ClaimKeeps(s, tx, ids);
      case Execute(tx, outcome, updateOk) => ExecuteKeeps(s, tx, outcome, updateOk);
      case Commit(tx) => CommitKeeps(s, tx);
      case Rollback(_) =>
    }
  }

  lemma {:induction false} RunKeeps(s: State, steps: seq<Step>)
    requires Inv(s)
    ensures Inv(Run(s, steps))
    decreases |steps|
  {
    if steps != [] {
      RunKeeps(s, steps[..|steps| - 1]);
      StepKeeps(Run(s, steps[..|steps| - 1]), steps[|steps| - 1]);
    }
  }

  // ------------------------------------------------------------------ what holds in every run

  lemma Reachable(steps: seq<Step>)
    ensures Inv(Run(Init, steps))
  {
    RunKeeps(Init, steps);
  }

  /** No job is held by two open batches. */
  lemma {:induction false} NoJobHeldTwice(steps: seq<Step>, t: nat, u: nat, id: Id)
    requires t in Run(Init, steps).batches && u in Run(Init, steps).batches
    requires id in Run(Init, steps).batches[t].claimed && id in Run(Init, steps).batches[u].claimed
    ensures t == u
  {
    Reachable(steps);
  }

  lemma {:induction false} HandlerRunsBound(outcomes: seq<Outcome>)
    ensures HandlerRuns(outcomes) <= |outcomes|
    decreases |outcomes|
  {
    if outcomes != [] { HandlerRunsBound(outcomes[..|outcomes| - 1]); }
  }

  /** Whatever workers ran and were rolled back, a job's row is determined by its committed executions:
      attempts counts the committed handler runs and never exceeds max(1, max_attempts); the job is done
      after a success, failed when no handler was found, dead after its last allowed failure, pending
      otherwise; and only failures are ever followed by another execution. */
  lemma RowFollowsHistory(steps: seq<Step>, id: Id)
    requires id in Run(Init, steps).jobs
    ensures var s := Run(Init, steps);
            && id in s.history && RowMatches(s.jobs[id], s.history[id])
            && 0 <= s.jobs[id].attempts <= Limit(s.jobs[id].maxAttempts)
  {
    Reachable(steps);
    HandlerRunsBound(Run(Init, steps).history[id]);
  }

  /** What one step can do to a job: nothing, or one committed execution of a pending job. */
  lemma StepOnJob(s: State, step: Step, id: Id)
    requires Inv(s) && id in s.jobs
    ensures var s' := Next(s, step);
            && id in s'.jobs && id in s'.history && s'.jobs[id].maxAttempts == s.jobs[id].maxAttempts
            && s'.jobs[id].kind == s.jobs[id].kind && s'.jobs[id].payload == s.jobs[id].payload
            && (s'.jobs[id] != s.jobs[id] || s'.history[id] != s.history[id] ==>
                  s.jobs[id].status == Pending && |s'.history[id]| == |s.history[id]| + 1)
  {
    if Enabled(s, step) {
      if step.Commit? {
        CommitEffect(s, step.tx, id);
      } else if step.CommitEnqueue? {
        assert id !in s.enqueuing[step.tx];
      }
    }
  }

  // ------------------------------------------------------------------ what was enqueued, and when it is claimed

  /** Step j is the Enqueue of the job, with this kind, payload and max_attempts; and, if the row is untouched, its
      run time is that step's clock plus the delay asked for, if it was positive. */
  ghost predicate EnqueuedBy(steps: seq<Step>, j: nat, id: Id, job: Job, untouched: bool)
    requires j < |steps|
  {
    && steps[j].Enqueue? && steps[j].id == id && Enabled(Run(Init, steps[..j]), steps[j])
    && job.kind == steps[j].kind && job.payload == steps[j].payload && job.maxAttempts == steps[j].maxAttempts
    && (untouched ==> job.runAt == Run(Init, steps[..j]).now + if steps[j].delay > 0 then steps[j].delay else 0)
  }

  ghost predicate WasEnqueued(steps: seq<Step>, id: Id, job: Job, untouched: bool) {
    exists j: nat :: j < |steps| && EnqueuedBy(steps, j, id, job, untouched)
  }

  lemma StillEnqueued(steps: seq<Step>, id: Id, job: Job, job': Job, was: bool, is': bool)
    requires steps != [] && WasEnqueued(steps[..|steps| - 1], id, job, was)
    requires job'.kind == job.kind && job'.payload == job.payload && job'.maxAttempts == job.maxAttempts
    requires is' ==> was && job' == job
    ensures WasEnqueued(steps, id, job', is')
  {
    var init := steps[..|steps| - 1];
    var j: nat :| j < |init| && EnqueuedBy(init, j, id, job, was);
    assert init[..j] == steps[..j];
    assert EnqueuedBy(steps, j, id, job', is');
  }

  lemma {:induction false} EnqueuingWasEnqueued(steps: seq<Step>, tx: nat, id: Id)
    requires tx in Run(Init, steps).enqueuing && id in Run(Init, steps).enqueuing[tx]
    ensures WasEnqueued(steps, id, Run(Init, steps).enqueuing[tx][id], true)
    decreases |steps|
  {
    var init, step := steps[..|steps| - 1], steps[|steps| - 1];
    var s, job := Run(Init, init), Run(Init, steps).enqueuing[tx][id];
    if Enabled(s, step) && step.Enqueue? && step.tx == tx && step.id == id {
      assert EnqueuedBy(steps, |steps| - 1, id, job, true);
    } else {
      assert tx in s.enqueuing && id in s.enqueuing[tx] && s.enqueuing[tx][id] == job;
      EnqueuingWasEnqueued(init, tx, id);
      StillEnqueued(steps, id, job, job, true, true);
    }
  }

  /** Every committed job has the kind, payload and max_attempts of the Enqueue that made it, and until its first
      committed execution the run time that call gave it. */
  lemma {:induction false} JobIsAsEnqueued(steps: seq<Step>, id: Id)
    requires id in Run(Init, steps).jobs
    ensures id in Run(Init, steps).history
    ensures WasEnqueued(steps, id, Run(Init, steps).jobs[id], Run(Init, steps).history[id] == [])
    decreases |steps|
  {
    var init, step := steps[..|steps| - 1], steps[|steps| - 1];
    var s, s' := Run(Init, init), Run(Init, steps);
    Reachable(init);
    Reachable(steps);
    if id in s.jobs {
      JobIsAsEnqueued(init, id);
      StepOnJob(s, step, id);
      StillEnqueued(steps, id, s.jobs[id], s'.jobs[id], s.history[id] == [], s'.history[id] == []);
    } else {
      OnlyCommitEnqueueAdds(s, step, id);
      EnqueuingWasEnqueued(init, step.tx, id);
      StillEnqueued(steps, id, s'.jobs[id], s'.jobs[id], true, true);
    }
  }

  lemma OnlyCommitEnqueueAdds(s: State, step: Step, id: Id)
    requires Inv(s) && id !in s.jobs && id in Next(s, step).jobs
    ensures step.CommitEnqueue? && step.tx in s.enqueuing && id in s.enqueuing[step.tx]
    ensures Next(s, step).jobs[id] == s.enqueuing[step.tx][id]
  {
    if Enabled(s, step) && step.Commit? {
      CommitKeys(s, step.tx);
    }
  }

  /** At most ten rows, all pending and due, the earliest first. */
  ghost predicate DueInOrder(jobs: map<Id, Job>, claimed: seq<Id>, now: int) {
    && |claimed| <= 10
    && (forall i :: 0 <= i < |claimed| ==>
          claimed[i] in jobs && jobs[claimed[i]].status == Pending && jobs[claimed[i]].runAt <= now)
    && (forall i, j :: 0 <= i < j < |claimed| ==> jobs[claimed[i]].runAt <= jobs[claimed[j]].runAt)
  }

  lemma DueInOrderKept(jobs: map<Id, Job>, jobs': map<Id, Job>, claimed: seq<Id>, now: int, now': int)
    requires DueInOrder(jobs, claimed, now) && now <= now'
    requires forall i :: 0 <= i < |claimed| ==> claimed[i] in jobs' && jobs'[claimed[i]] == jobs[claimed[i]]
    ensures DueInOrder(jobs', claimed, now')
  {
  }

  /** The rows a batch has claimed stay as they are while it is open. */
  lemma ClaimedUntouched(s: State, step: Step, tx: nat, id: Id)
    requires Inv(s) && tx in s.batches && tx in Next(s, step).batches && id in s.batches[tx].claimed
    ensures id in s.jobs && id in Next(s, step).jobs && Next(s, step).jobs[id] == s.jobs[id]
  {
    assert BatchOk(s.jobs, s.batches[tx]);
    if Enabled(s, step) {
      if step.Commit? {
        CommitSparesOthers(s, step.tx, tx);
      } else if step.CommitEnqueue? {
        assert id !in s.enqueuing[step.tx];
      }
    }
  }

  lemma DueStep(s: State, step: Step, tx: nat)
    requires Inv(s) && tx in s.batches && tx in Next(s, step).batches
    requires DueInOrder(s.jobs, s.batches[tx].claimed, s.now)
    ensures DueInOrder(Next(s, step).jobs, Next(s, step).batches[tx].claimed, Next(s, step).now)
  {
    var claimed := s.batches[tx].claimed;
    forall i | 0 <= i < |claimed|
      ensures claimed[i] in Next(s, step).jobs && Next(s, step).jobs[claimed[i]] == s.jobs[claimed[i]]
    {
      ClaimedUntouched(s, step, tx, claimed[i]);
    }
    DueInOrderKept(s.jobs, Next(s, step).jobs, claimed, s.now, Next(s, step).now);
  }

  /** As long as a batch is open, the rows it claimed are pending and their run time has come; there are at most ten
      of them, the earliest first. */
  lemma {:induction false} ClaimedAreDue(steps: seq<Step>, tx: nat)
    requires tx in Run(Init, steps).batches
    ensures DueInOrder(Run(Init, steps).jobs, Run(Init, steps).batches[tx].claimed, Run(Init, steps).now)
    decreases |steps|
  {
    var init := steps[..|steps| - 1];
    Reachable(init);
    if tx in Run(Init, init).batches {
      ClaimedAreDue(init, tx);
      DueStep(Run(Init, init), steps[|steps| - 1], tx);
    }
  }

  /** When a batch is rolled back, whatever its handlers did, the jobs it had claimed are due again, and no row and no
      count of attempts has changed. */
  lemma RollbackReleases(steps: seq<Step>, tx: nat, id: Id)
    requires tx in Run(Init, steps).batches && id in Run(Init, steps).batches[tx].claimed
    ensures var s, s' := Run(Init, steps), Next(Run(Init, steps), Rollback(tx));
            Due(s', id) && s'.jobs == s.jobs && s'.history == s.history
  {
    Reachable(steps);
    ClaimedAreDue(steps, tx);
  }

  lemma {:induction false} AsManyIds(ids: seq<Id>, all: set<Id>)
    requires Distinct(ids) && forall i :: 0 <= i < |ids| ==> ids[i] in all
    ensures |ids| <= |all|
    decreases |ids|
  {
    if ids != [] {
      var last := ids[|ids| - 1];
      AsManyIds(ids[..|ids| - 1], all - {last});
    }
  }

  /** The other due rows that are as early as this one. */
  ghost function AsEarly(s: State, id: Id): set<Id>
    requires id in s.jobs
  {
    set k | k in s.jobs && k != id && Due(s, k) && s.jobs[k].runAt <= s.jobs[id].runAt
  }

  /** A due row is claimed by the next batch unless ten others are as early. */
  lemma EarliestAreClaimed(s: State, tx: nat, ids: seq<Id>, id: Id)
    requires Enabled(s, Claim(tx, ids)) && Due(s, id) && |AsEarly(s, id)| < 10
    ensures id in Next(s, Claim(tx, ids)).batches[tx].claimed
  {
    if id !in ids {
      assert Distinct(ids) && |ids| == 10;
      forall i | 0 <= i < |ids| ensures ids[i] in AsEarly(s, id) {
        assert Due(s, ids[i]) && s.jobs[ids[i]].runAt <= s.jobs[ids[9]].runAt;
      }
      AsManyIds(ids, AsEarly(s, id));
      assert false;
    }
  }

  /** done, failed and dead are final: the row never changes again. */
  lemma {:induction false} FinalStaysFinal(before: seq<Step>, after: seq<Step>, id: Id)
    requires id in Run(Init, before).jobs && Run(Init, before).jobs[id].status != Pending
    ensures id in Run(Init, before + after).jobs
    ensures Run(Init, before + after).jobs[id] == Run(Init, before).jobs[id]
    decreases |after|
  {
    if after == [] {
      assert before + after == before;
    } else {
      var init := after[..|after| - 1];
      FinalStaysFinal(before, init, id);
      assert (before + after)[..|before + after| - 1] == before + init;
      Reachable(before + init);
      StepOnJob(Run(Init, before + init), after[|after| - 1], id);
    }
  }

  /** Executions left before a job must be final. */
  ghost function ExecutionsLeft(s: State, id: Id): int
    requires id in s.jobs && id in s.history
  {
    Limit(s.jobs[id].maxAttempts) - |s.history[id]|
  }

  /** Every step that touches a job uses up one of its remaining executions, of which there are at most
      max(1, max_attempts) and never fewer than none; a pending job has at least one left, and as many as
      max(1, max_attempts) - attempts. */
  lemma ExecutionsRunOut(steps: seq<Step>, step: Step, id: Id)
    requires id in Run(Init, steps).jobs
    ensures var s, s' := Run(Init, steps), Next(Run(Init, steps), step);
            && id in s.history && id in s'.jobs && id in s'.history
            && 0 <= ExecutionsLeft(s, id) <= Limit(s.jobs[id].maxAttempts)
            && (s.jobs[id].status == Pending ==>
                  ExecutionsLeft(s, id) == Limit(s.jobs[id].maxAttempts) - s.jobs[id].attempts >= 1)
            && (s'.jobs[id] != s.jobs[id] ==> ExecutionsLeft(s', id) == ExecutionsLeft(s, id) - 1)
            && ExecutionsLeft(s', id) <= ExecutionsLeft(s, id)
  {
    Reachable(steps);
    var s := Run(Init, steps);
    StepOnJob(s, step, id);
    StepKeeps(s, step);
    if s.jobs[id].status == Pending {
      assert forall i :: 0 <= i < |s.history[id]| ==> s.history[id][i].Failure?;
      AllFailuresCount(s.history[id]);
    }
  }

  /** A job enqueued in a transaction that was rolled back never appears. */
  lemma {:induction false} RolledBackNeverAppears(before: seq<Step>, tx: nat, after: seq<Step>, id: Id)
    requires tx in Run(Init, before).enqueuing && id in Run(Init, before).enqueuing[tx]
    ensures var s := Run(Init, before + [RollbackEnqueue(tx)] + after);
            && id in s.used && id !in s.jobs
            && forall t :: t in s.enqueuing ==> id !in s.enqueuing[t]
    decreases |after|
  {
    var mid := before + [RollbackEnqueue(tx)];
    Reachable(before);
    if after == [] {
      assert mid + after == mid && mid[..|mid| - 1] == before;
    } else {
      var init := after[..|after| - 1];
      RolledBackNeverAppears(before, tx, init, id);
      assert (mid + after)[..|mid + after| - 1] == mid + init;
      Reachable(mid + init);
      NeverAppearsStep(Run(Init, mid + init), after[|after| - 1], id);
    }
  }

  lemma NeverAppearsStep(s: State, step: Step, id: Id)
    requires Inv(s) && id in s.used && id !in s.jobs && forall t :: t in s.enqueuing ==> id !in s.enqueuing[t]
    ensures id in Next(s, step).used && id !in Next(s, step).jobs
    ensures forall t :: t in Next(s, step).enqueuing ==> id !in Next(s, step).enqueuing[t]
  {
    if step.Commit? && Enabled(s, step) {
      assert BatchOk(s.jobs, s.batches[step.tx]);
      CommitKeys(s, step.tx);
    }
  }

  /** A failing job with max_attempts <= 30 is dead at its last attempt, and before that rescheduled after
      exactly min(2^attempts * 10s, 1h). */
  lemma RetryDelayExact(job: Job, now: int)
    requires 0 <= job.attempts && job.maxAttempts <= 30
    ensures Executed(job, Failure, now) ==
              if job.attempts + 1 < job.maxAttempts
              then job.(status := Pending, attempts := job.attempts + 1, runAt := now + IntendedDelay(job.attempts + 1))
              else job.(status := Dead, attempts := job.attempts + 1)
  {
    if job.attempts + 1 < job.maxAttempts {
      DelayExact(job.attempts + 1);
    }
  }

  // ------------------------------------------------------------------ processBatch

  /** The rows one worker transaction has updated. */
  class BatchTx {
    var updates: map<Id, Job>

    constructor ()
      ensures updates == map[]
    {
      updates := map[];
    }

    /** executeJob: `outcome` is what the handler table and the handler give, `now` the clock it reads. */
    method ExecuteJob(id: Id, job: Job, outcome: Outcome, now: int)
      requires job.attempts >= 0
      modifies this
      ensures updates == old(updates)[id := Executed(job, outcome, now)]
    {
      if outcome == NoHandler {
        updates := updates[id := job.(status := Failed)];
        return;
      }
      var attempts := job.attempts + 1;
      if outcome == Success {
        updates := updates[id := job.(status := Done, attempts := attempts)];
        return;
      }
      if attempts >= job.maxAttempts {
        updates := updates[id := job.(status := Dead, attempts := attempts)];
        return;
      }
      var backoff := Int64(Int64(Shl(attempts) * 10) * SECOND);
      if backoff > HOUR {
        backoff := HOUR;
      }
      updates := updates[id := job.(status := Pending, attempts := attempts, runAt := now + backoff)];
    }

    /** The loop of processBatch over distinct rows: every row gets the update its own outcome calls for. */
    method ProcessBatch(jobs: seq<(Id, Job)>, outcomes: seq<Outcome>, clock: seq<int>)
      requires |jobs| <= |outcomes| && |jobs| <= |clock|
      requires forall i :: 0 <= i < |jobs| ==> jobs[i].1.attempts >= 0
      requires forall i, j :: 0 <= i < j < |jobs| ==> jobs[i].0 != jobs[j].0
      requires updates == map[]
      modifies this
      ensures updates.Keys == set i | 0 <= i < |jobs| :: jobs[i].0
      ensures forall i :: 0 <= i < |jobs| ==>
                jobs[i].0 in updates && updates[jobs[i].0] == Executed(jobs[i].1, outcomes[i], clock[i])
    {
      for n := 0 to |jobs|
        invariant updates.Keys == set i | 0 <= i < n :: jobs[i].0
        invariant forall i :: 0 <= i < n ==>
                    jobs[i].0 in updates && updates[jobs[i].0] == Executed(jobs[i].1, outcomes[i], clock[i])
      {
        ExecuteJob(jobs[n].0, jobs[n].1, outcomes[n], clock[n]);
      }
    }
  }
}
