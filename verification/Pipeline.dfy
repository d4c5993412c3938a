/** pkg/pipeline/pipeline.go: Process as a system of its goroutines: the caller that sends jobs and collects
    results, the workers, and the one that closes the results channel.  Both channels are FIFO buffers of
    capacity len(items).  A step that is not enabled leaves the state as it is. */
module Pipeline {
  import opened Common

  type Error = string

  /** What is sent for an item: fn's value, fn's error, or ctx.Err() when the worker skipped the call. */
  datatype Outcome<O> = Value(v: O) | FnError(e: Error) | Skipped

  datatype Result<O> = Result(idx: nat, out: Outcome<O>)

  datatype Worker<O> =
    | Ready                      // receiving from jobs
    | Got(idx: nat)              // about to look at ctx.Err()
    | InFn(idx: nat)             // calling fn
    | Sending(r: Result<O>)      // sending on results
    | Exited                     // wg.Done called

  /** Where an item taken from jobs has got to: the worker that has it, or its place among the results. */
  datatype Place = AtWorker(w: nat) | InLog(j: nat)

  /** jobs and results are the channels' buffers.  `log` is every result sent so far and `received` those
      the caller has taken; `calls` is what fn returned, by index; `owner` follows the items. */
  datatype State<O> = State(
    n: nat,
    ordered: bool,
    sent: nat,
    jobsClosed: bool,
    jobs: seq<nat>,
    workers: seq<Worker<O>>,
    results: seq<Result<O>>,
    resultsClosed: bool,
    parentCancelled: bool,
    cancelled: bool,
    out: seq<Option<O>>,
    unordered: seq<O>,
    firstErr: Option<Outcome<O>>,
    done: bool,
    log: seq<Result<O>>,
    received: seq<Result<O>>,
    calls: map<nat, Outcome<O>>,
    owner: map<nat, Place>)

  /** o.workers, for a list of WithWorkers options. */
  function WorkerCount(items: nat, options: seq<int>): (w: nat)
    requires items >= 1
    ensures 1 <= w <= items
    ensures (forall k :: 0 <= k < |options| ==> options[k] <= 0) ==> w == items
    ensures forall k :: 0 <= k < |options| && options[k] > 0 && (forall l :: k < l < |options| ==> options[l] <= 0) ==>
              w == if options[k] > items then items else options[k]
  {
    if options == [] then items
    else if options[|options| - 1] > 0
    then (if options[|options| - 1] > items then items else options[|options| - 1])
    else WorkerCount(items, options[..|options| - 1])
  }

  function Init<O>(n: nat, workers: nat, ordered: bool): State<O> {
    State(n, ordered, 0, false, [], seq(workers, i => Ready), [], false, false, false,
          seq(n, i => None), [], None, false, [], [], map[], map[])
  }

  datatype Step<O> =
    | SendJob
    | CloseJobs
    | Take(w: nat)
    | Check(w: nat)
    | FnReturns(w: nat, out: Outcome<O>)
    | SendResult(w: nat)
    | ExitWorker(w: nat)
    | CloseResults
    | Collect
    | Finish
    | CancelParent

  predicate Enabled<O>(s: State<O>, step: Step<O>) {
    match step
    case SendJob => s.sent < s.n && |s.jobs| < s.n
    case CloseJobs => s.sent == s.n && !s.jobsClosed
    case Take(w) => w < |s.workers| && s.workers[w].Ready? && s.jobs != []
    case Check(w) => w < |s.workers| && s.workers[w].Got?
    case FnReturns(w, out) => w < |s.workers| && s.workers[w].InFn? && !out.Skipped?
    case SendResult(w) => w < |s.workers| && s.workers[w].Sending? && |s.results| < s.n
    case ExitWorker(w) => w < |s.workers| && s.workers[w].Ready? && s.jobs == [] && s.jobsClosed
    case CloseResults => !s.resultsClosed && s.jobsClosed && forall w :: 0 <= w < |s.workers| ==> s.workers[w].Exited?
    case Collect => s.jobsClosed && s.results != []
    case Finish => s.resultsClosed && s.results == [] && !s.done
    case CancelParent => true
  }

  // The body of the collecting loop, variable by variable.

  function OutAfter<O>(ordered: bool, out: seq<Option<O>>, r: Result<O>): seq<Option<O>> {
    if r.out.Value? && ordered && r.idx < |out| then out[r.idx := Some(r.out.v)] else out
  }

  function UnorderedAfter<O>(ordered: bool, unordered: seq<O>, r: Result<O>): seq<O> {
    if r.out.Value? && !ordered then unordered + [r.out.v] else unordered
  }

  function FirstErrAfter<O>(firstErr: Option<Outcome<O>>, r: Result<O>): Option<Outcome<O>> {
    if !r.out.Value? && firstErr.None? then Some(r.out) else firstErr
  }

  function CancelledAfter<O>(cancelled: bool, firstErr: Option<Outcome<O>>, r: Result<O>): bool {
    cancelled || (!r.out.Value? && firstErr.None?)
  }

  function Next<O>(s: State<O>, step: Step<O>): State<O> {
    if !Enabled(s, step) then s
    else match step
      case SendJob => s.(jobs := s.jobs + [s.sent], sent := s.sent + 1)
      case CloseJobs => s.(jobsClosed := true)
      case Take(w) =>
        s.(jobs := s.jobs[1..], workers := s.workers[w := Got(s.jobs[0])], owner := s.owner[s.jobs[0] := AtWorker(w)])
      case Check(w) =>
        var idx := s.workers[w].idx;
        s.(workers := s.workers[w := if s.cancelled then Sending(Result(idx, Skipped)) else InFn(idx)])
      case FnReturns(w, out) =>
        var idx := s.workers[w].idx;
        s.(workers := s.workers[w := Sending(Result(idx, out))], calls := s.calls[idx := out])
      case SendResult(w) =>
        var r := s.workers[w].r;
        s.(results := s.results + [r], log := s.log + [r], workers := s.workers[w := Ready],
           owner := s.owner[r.idx := InLog(|s.log|)])
      case ExitWorker(w) => s.(workers := s.workers[w := Exited])
      case CloseResults => s.(resultsClosed := true)
      case Collect =>
        var r := s.results[0];
        s.(results := s.results[1..], received := s.received + [r],
           out := OutAfter(s.ordered, s.out, r), unordered := UnorderedAfter(s.ordered, s.unordered, r),
           firstErr := FirstErrAfter(s.firstErr, r), cancelled := CancelledAfter(s.cancelled, s.firstErr, r))
      case Finish => s.(done := true)
      case CancelParent => s.(parentCancelled := true, cancelled := true)
  }

  function Run<O>(s: State<O>, steps: seq<Step<O>>): State<O> {
    if steps == [] then s else Next(Run(s, steps[..|steps| - 1]), steps[|steps| - 1])
  }

  // ------------------------------------------------------------------ invariant

  function Held<O>(w: Worker<O>): Option<nat> {
    match w
    case Got(i) => Some(i)
    case InFn(i) => Some(i)
    case Sending(r) => Some(r.idx)
    case _ => None
  }

  /** Every item below `taken` is in exactly one place. */
  ghost predicate Placed<O>(taken: int, workers: seq<Worker<O>>, log: seq<Result<O>>, owner: map<nat, Place>) {
    && (forall i :: i in owner <==> 0 <= i < taken)
    && (forall w :: 0 <= w < |workers| && Held(workers[w]).Some? ==>
          Held(workers[w]).value in owner && owner[Held(workers[w]).value] == AtWorker(w))
    && (forall j :: 0 <= j < |log| ==> log[j].idx in owner && owner[log[j].idx] == InLog(j))
    && (forall i :: i in owner ==>
          match owner[i]
          case AtWorker(w) => w < |workers| && Held(workers[w]) == Some(i)
          case InLog(j) => j < |log| && log[j].idx == i)
  }

  /** The jobs channel holds the items sent and not taken, in order. */
  ghost predicate JobQueue(n: nat, sent: nat, closed: bool, jobs: seq<nat>) {
    && sent <= n && |jobs| <= sent
    && (forall k :: 0 <= k < |jobs| ==> jobs[k] == sent - |jobs| + k)
    && (closed ==> sent == n)
  }

  ghost predicate Ends<O>(workers: seq<Worker<O>>, jobs: seq<nat>, jobsClosed: bool, resultsClosed: bool, done: bool,
                          results: seq<Result<O>>) {
    && (forall w :: 0 <= w < |workers| && workers[w].Exited? ==> jobs == [] && jobsClosed)
    && (resultsClosed ==> jobsClosed && forall w :: 0 <= w < |workers| ==> workers[w].Exited?)
    && (done ==> resultsClosed && results == [])
  }

  /** An outcome is what fn returned for the item, or the item was skipped without a call. */
  predicate Genuine<O(==)>(calls: map<nat, Outcome<O>>, r: Result<O>) {
    if r.out.Skipped? then r.idx !in calls else r.idx in calls && calls[r.idx] == r.out
  }

  ghost predicate Outcomes<O>(workers: seq<Worker<O>>, log: seq<Result<O>>, calls: map<nat, Outcome<O>>,
                              owner: map<nat, Place>) {
    && (forall j :: 0 <= j < |log| ==> Genuine(calls, log[j]))
    && (forall w :: 0 <= w < |workers| ==>
          match workers[w]
          case Got(i) => i !in calls
          case InFn(i) => i !in calls
          case Sending(r) => Genuine(calls, r)
          case _ => true)
    && calls.Keys <= owner.Keys
  }

  ghost predicate HasError<O>(rs: seq<Result<O>>) {
    exists k :: 0 <= k < |rs| && !rs[k].out.Value?
  }

  /** firstErr is the first error among the results received, and the internal cancellation follows it. */
  ghost predicate Caused<O>(received: seq<Result<O>>, firstErr: Option<Outcome<O>>, cancelled: bool, parent: bool) {
    && (firstErr.None? ==> !HasError(received))
    && (firstErr.Some? ==> exists k :: 0 <= k < |received| && received[k].out == firstErr.value && !firstErr.value.Value?
                                       && !HasError(received[..k]))
    && (cancelled <==> parent || firstErr.Some?)
  }

  /** Only the parent's cancellation or an error that arrived earlier makes a worker skip. */
  ghost predicate Skips<O>(workers: seq<Worker<O>>, log: seq<Result<O>>, parent: bool) {
    && (forall w :: 0 <= w < |workers| && workers[w].Sending? && workers[w].r.out.Skipped? ==> parent || HasError(log))
    && (forall j :: 0 <= j < |log| && log[j].out.Skipped? ==> parent || HasError(log[..j]))
  }

  /** The caller's slices hold what it has received. */
  ghost predicate Gathered<O>(received: seq<Result<O>>, n: nat, ordered: bool, out: seq<Option<O>>, unordered: seq<O>) {
    && |out| == n
    && (ordered ==> forall j :: 0 <= j < |received| && received[j].out.Value? && received[j].idx < n ==>
          out[received[j].idx] == Some(received[j].out.v))
    && (!ordered ==> unordered == Values(received))
  }

  /** The values among results, in order. */
  function Values<O>(rs: seq<Result<O>>): seq<O> {
    if rs == [] then []
    else Values(rs[..|rs| - 1]) + (if rs[|rs| - 1].out.Value? then [rs[|rs| - 1].out.v] else [])
  }

  ghost predicate Inv<O>(s: State<O>) {
    && JobQueue(s.n, s.sent, s.jobsClosed, s.jobs)
    && Ends(s.workers, s.jobs, s.jobsClosed, s.resultsClosed, s.done, s.results)
    && s.log == s.received + s.results
    && Placed(s.sent - |s.jobs|, s.workers, s.log, s.owner)
    && Outcomes(s.workers, s.log, s.calls, s.owner)
    && Caused(s.received, s.firstErr, s.cancelled, s.parentCancelled)
    && Skips(s.workers, s.log, s.parentCancelled)
    && Gathered(s.received, s.n, s.ordered, s.out, s.unordered)
  }

  // ------------------------------------------------------------------ every step keeps it

  lemma PlacedTake<O>(taken: nat, workers: seq<Worker<O>>, log: seq<Result<O>>, owner: map<nat, Place>, w: nat)
    requires Placed(taken, workers, log, owner) && w < |workers| && workers[w].Ready?
    ensures Placed(taken + 1, workers[w := Got(taken)], log, owner[taken := AtWorker(w)])
  {
  }

  lemma PlacedSwap<O>(taken: int, workers: seq<Worker<O>>, log: seq<Result<O>>, owner: map<nat, Place>, w: nat,
                      to: Worker<O>)
    requires Placed(taken, workers, log, owner) && w < |workers| && Held(to) == Held(workers[w])
    ensures Placed(taken, workers[w := to], log, owner)
  {
  }

  lemma PlacedSend<O>(taken: int, workers: seq<Worker<O>>, log: seq<Result<O>>, owner: map<nat, Place>, w: nat)
    requires Placed(taken, workers, log, owner) && w < |workers| && workers[w].Sending?
    ensures Placed(taken, workers[w := Ready], log + [workers[w].r], owner[workers[w].r.idx := InLog(|log|)])
  {
    assert Held(workers[w]) == Some(workers[w].r.idx);
  }

  /** fn returning for the item one worker holds changes nothing about the others. */
  lemma OutcomesReturn<O>(taken: int, workers: seq<Worker<O>>, log: seq<Result<O>>, calls: map<nat, Outcome<O>>,
                          owner: map<nat, Place>, w: nat, out: Outcome<O>)
    requires Placed(taken, workers, log, owner) && Outcomes(workers, log, calls, owner)
    requires w < |workers| && workers[w].InFn? && !out.Skipped?
    ensures Outcomes(workers[w := Sending(Result(workers[w].idx, out))], log, calls[workers[w].idx := out], owner)
  {
    var idx := workers[w].idx;
    assert Held(workers[w]) == Some(idx) && owner[idx] == AtWorker(w);
    forall j | 0 <= j < |log| ensures log[j].idx != idx {
      assert owner[log[j].idx] == InLog(j);
    }
    forall v | 0 <= v < |workers| && v != w ensures Held(workers[v]) != Some(idx) {
    }
  }

  lemma HasErrorExtends<O>(rs: seq<Result<O>>, more: seq<Result<O>>)
    requires HasError(rs)
    ensures HasError(rs + more)
  {
    var k :| 0 <= k < |rs| && !rs[k].out.Value?;
    assert (rs + more)[k] == rs[k];
  }

  lemma SkipsSend<O>(workers: seq<Worker<O>>, log: seq<Result<O>>, parent: bool, w: nat)
    requires Skips(workers, log, parent) && w < |workers| && workers[w].Sending?
    ensures Skips(workers[w := Ready], log + [workers[w].r], parent)
  {
    var log' := log + [workers[w].r];
    if HasError(log) {
      HasErrorExtends(log, [workers[w].r]);
    }
    forall j | 0 <= j < |log'| && log'[j].out.Skipped? ensures parent || HasError(log'[..j]) {
      assert log'[..j] == log[..j];
    }
  }

  lemma CausedReceive<O>(received: seq<Result<O>>, firstErr: Option<Outcome<O>>, cancelled: bool, parent: bool,
                         r: Result<O>)
    requires Caused(received, firstErr, cancelled, parent)
    ensures Caused(received + [r], FirstErrAfter(firstErr, r), CancelledAfter(cancelled, firstErr, r), parent)
  {
    var received' := received + [r];
    assert received'[..|received|] == received;
    if firstErr.Some? {
      var k :| 0 <= k < |received| && received[k].out == firstErr.value && !firstErr.value.Value?
               && !HasError(received[..k]);
      assert received'[k] == received[k] && received'[..k] == received[..k];
    } else if !r.out.Value? {
      assert received'[|received|] == r;
    }
  }

  lemma GatheredReceive<O>(received: seq<Result<O>>, n: nat, ordered: bool, out: seq<Option<O>>, unordered: seq<O>,
                           r: Result<O>)
    requires Gathered(received, n, ordered, out, unordered) && r.idx < n
    requires forall j :: 0 <= j < |received| ==> received[j].idx != r.idx
    ensures Gathered(received + [r], n, ordered, OutAfter(ordered, out, r), UnorderedAfter(ordered, unordered, r))
  {
    assert (received + [r])[..|received|] == received;
  }

  lemma SendJobKeeps<O>(s: State<O>)
    requires Inv(s) && Enabled(s, SendJob)
    ensures Inv(Next(s, SendJob))
  {
  }

  lemma TakeKeeps<O>(s: State<O>, w: nat)
    requires Inv(s) && Enabled(s, Take(w))
    ensures Inv(Next(s, Take(w)))
  {
    var t := Next(s, Take(w));
    var taken := s.sent - |s.jobs|;
    assert s.jobs[0] == taken && taken !in s.owner;
    PlacedTake(taken, s.workers, s.log, s.owner, w);
    assert JobQueue(t.n, t.sent, t.jobsClosed, t.jobs);
    assert Outcomes(t.workers, t.log, t.calls, t.owner);
  }

  /** A worker that finds the context cancelled skips: the parent did it, or an error has been received. */
  lemma SkipsCheck<O>(workers: seq<Worker<O>>, log: seq<Result<O>>, received: seq<Result<O>>, results: seq<Result<O>>,
                      firstErr: Option<Outcome<O>>, cancelled: bool, parent: bool, w: nat, to: Worker<O>)
    requires Skips(workers, log, parent) && Caused(received, firstErr, cancelled, parent)
    requires log == received + results && w < |workers|
    requires to.InFn? || (to.Sending? && cancelled)
    ensures Skips(workers[w := to], log, parent)
  {
    if firstErr.Some? {
      HasErrorExtends(received, results);
    }
  }

  lemma OutcomesCheck<O>(workers: seq<Worker<O>>, log: seq<Result<O>>, calls: map<nat, Outcome<O>>,
                         owner: map<nat, Place>, w: nat, cancelled: bool)
    requires Outcomes(workers, log, calls, owner) && w < |workers| && workers[w].Got?
    ensures Outcomes(workers[w := if cancelled then Sending(Result(workers[w].idx, Skipped)) else InFn(workers[w].idx)],
                     log, calls, owner)
  {
  }

  lemma CheckKeeps<O>(s: State<O>, w: nat)
    requires Inv(s) && Enabled(s, Check(w))
    ensures Inv(Next(s, Check(w)))
  {
    var to := Next(s, Check(w)).workers[w];
    PlacedSwap(s.sent - |s.jobs|, s.workers, s.log, s.owner, w, to);
    OutcomesCheck(s.workers, s.log, s.calls, s.owner, w, s.cancelled);
    SkipsCheck(s.workers, s.log, s.received, s.results, s.firstErr, s.cancelled, s.parentCancelled, w, to);
  }

  lemma FnReturnsKeeps<O>(s: State<O>, w: nat, out: Outcome<O>)
    requires Inv(s) && Enabled(s, FnReturns(w, out))
    ensures Inv(Next(s, FnReturns(w, out)))
  {
    PlacedSwap(s.sent - |s.jobs|, s.workers, s.log, s.owner, w, Sending(Result(s.workers[w].idx, out)));
    OutcomesReturn(s.sent - |s.jobs|, s.workers, s.log, s.calls, s.owner, w, out);
  }

  lemma SendResultKeeps<O>(s: State<O>, w: nat)
    requires Inv(s) && Enabled(s, SendResult(w))
    ensures Inv(Next(s, SendResult(w)))
  {
    var r := s.workers[w].r;
    EndsSend(s.workers, s.jobs, s.jobsClosed, s.resultsClosed, s.done, s.results, w);
    assert (s.received + s.results) + [r] == s.received + (s.results + [r]);
    PlacedSend(s.sent - |s.jobs|, s.workers, s.log, s.owner, w);
    SkipsSend(s.workers, s.log, s.parentCancelled, w);
    OutcomesSend(s.workers, s.log, s.calls, s.owner, w);
  }

  lemma EndsSend<O>(workers: seq<Worker<O>>, jobs: seq<nat>, jobsClosed: bool, resultsClosed: bool, done: bool,
                    results: seq<Result<O>>, w: nat)
    requires Ends(workers, jobs, jobsClosed, resultsClosed, done, results) && w < |workers| && workers[w].Sending?
    ensures Ends(workers[w := Ready], jobs, jobsClosed, resultsClosed, done, results + [workers[w].r])
  {
  }

  lemma OutcomesSend<O>(workers: seq<Worker<O>>, log: seq<Result<O>>, calls: map<nat, Outcome<O>>,
                        owner: map<nat, Place>, w: nat)
    requires Outcomes(workers, log, calls, owner) && w < |workers| && workers[w].Sending?
    ensures Outcomes(workers[w := Ready], log + [workers[w].r], calls, owner[workers[w].r.idx := InLog(|log|)])
  {
  }

  /** The next result is for an item none of the received ones was for. */
  lemma ReceivedOnce<O>(taken: int, workers: seq<Worker<O>>, owner: map<nat, Place>, received: seq<Result<O>>,
                        results: seq<Result<O>>)
    requires Placed(taken, workers, received + results, owner) && results != []
    ensures results[0].idx < taken
    ensures forall j :: 0 <= j < |received| ==> received[j].idx != results[0].idx
  {
    var log := received + results;
    assert log[|received|] == results[0];
    forall j | 0 <= j < |received| ensures received[j].idx != results[0].idx {
      assert log[j] == received[j] && owner[log[j].idx] == InLog(j);
    }
  }

  lemma CollectKeeps<O>(s: State<O>)
    requires Inv(s) && Enabled(s, Collect)
    ensures Inv(Next(s, Collect))
  {
    var r := s.results[0];
    assert s.received + s.results == (s.received + [r]) + s.results[1..];
    assert !s.done;
    ReceivedOnce(s.sent - |s.jobs|, s.workers, s.owner, s.received, s.results);
    CausedReceive(s.received, s.firstErr, s.cancelled, s.parentCancelled, r);
    GatheredReceive(s.received, s.n, s.ordered, s.out, s.unordered, r);
  }

  lemma ExitWorkerKeeps<O>(s: State<O>, w: nat)
    requires Inv(s) && Enabled(s, ExitWorker(w))
    ensures Inv(Next(s, ExitWorker(w)))
  {
    PlacedSwap(s.sent - |s.jobs|, s.workers, s.log, s.owner, w, Exited);
  }

  lemma OtherKeeps<O>(s: State<O>, step: Step<O>)
    requires Inv(s) && Enabled(s, step)
    requires step.CloseJobs? || step.CloseResults? || step.Finish? || step.CancelParent?
    ensures Inv(Next(s, step))
  {
  }

  lemma StepKeeps<O>(s: State<O>, step: Step<O>)
    requires Inv(s)
    ensures Inv(Next(s, step))
  {
    if Enabled(s, step) {
      match step
      case SendJob => SendJobKeeps(s);
      case Take(w) => TakeKeeps(s, w);
      case Check(w) => CheckKeeps(s, w);
      case FnReturns(w, out) => FnReturnsKeeps(s, w, out);
      case SendResult(w) => SendResultKeeps(s, w);
      case ExitWorker(w) => ExitWorkerKeeps(s, w);
      case Collect => CollectKeeps(s);
      case _ => OtherKeeps(s, step);
    }
  }

  lemma {:induction false} RunKeeps<O>(s: State<O>, steps: seq<Step<O>>)
    requires Inv(s)
    ensures Inv(Run(s, steps))
  {
    if steps != [] {
      RunKeeps(s, steps[..|steps| - 1]);
      StepKeeps(Run(s, steps[..|steps| - 1]), steps[|steps| - 1]);
    }
  }

  // ------------------------------------------------------------------ no blocked send

  /** Distinct numbers below n are at most n. */
  lemma {:induction false} AtMost(xs: seq<nat>, n: nat)
    requires forall i :: 0 <= i < |xs| ==> xs[i] < n
    requires forall i, j :: 0 <= i < j < |xs| ==> xs[i] != xs[j]
    ensures |xs| <= n
    decreases n
  {
    if xs != [] {
      assert xs[0] < n;
      if k :| 0 <= k < |xs| && xs[k] == n - 1 {
        AtMost(xs[..k] + xs[k + 1..], n - 1);
      } else {
        AtMost(xs, n - 1);
      }
    }
  }

  function Indices<O>(log: seq<Result<O>>): seq<nat> {
    seq(|log|, i requires 0 <= i < |log| => log[i].idx)
  }

  lemma LogIsDistinct<O>(taken: int, workers: seq<Worker<O>>, log: seq<Result<O>>, owner: map<nat, Place>)
    requires Placed(taken, workers, log, owner)
    ensures forall i :: 0 <= i < |log| ==> log[i].idx < taken
    ensures forall i, j :: 0 <= i < j < |log| ==> log[i].idx != log[j].idx
  {
    forall i, j | 0 <= i < j < |log| ensures log[i].idx != log[j].idx {
      assert owner[log[i].idx] == InLog(i) && owner[log[j].idx] == InLog(j);
    }
  }

  lemma RoomForResult<O>(taken: int, n: nat, workers: seq<Worker<O>>, log: seq<Result<O>>, owner: map<nat, Place>,
                         w: nat)
    requires Placed(taken, workers, log, owner) && taken <= n
    requires w < |workers| && workers[w].Sending?
    ensures |log| < n
  {
    var idx := workers[w].r.idx;
    assert Held(workers[w]) == Some(idx);
    LogIsDistinct(taken, workers, log, owner);
    forall i | 0 <= i < |log| ensures log[i].idx != idx {
      assert owner[log[i].idx] == InLog(i);
    }
    AtMost(Indices(log) + [idx], n);
  }

  ghost predicate Reachable<O>(s: State<O>, n: nat, workers: nat, ordered: bool, steps: seq<Step<O>>) {
    1 <= workers <= n && s == Run(Init(n, workers, ordered), steps)
  }

  lemma {:induction false} ReachableInv<O>(s: State<O>, n: nat, workers: nat, ordered: bool, steps: seq<Step<O>>)
    requires Reachable(s, n, workers, ordered, steps)
    ensures Inv(s)
  {
    RunKeeps(Init(n, workers, ordered), steps);
  }

  lemma StepShape<O>(s: State<O>, step: Step<O>)
    ensures Next(s, step).n == s.n && Next(s, step).ordered == s.ordered
  {
    match step
    case SendJob =>
    case CloseJobs =>
    case Take(w) =>
    case Check(w) =>
    case FnReturns(w, out) =>
    case SendResult(w) =>
    case ExitWorker(w) =>
    case CloseResults =>
    case Collect =>
    case Finish =>
    case CancelParent =>
  }

  lemma StepWorkers<O>(s: State<O>, step: Step<O>)
    ensures |Next(s, step).workers| == |s.workers|
  {
    match step
    case SendJob =>
    case CloseJobs =>
    case Take(w) =>
    case Check(w) =>
    case FnReturns(w, out) =>
    case SendResult(w) =>
    case ExitWorker(w) =>
    case CloseResults =>
    case Collect =>
    case Finish =>
    case CancelParent =>
  }

  lemma {:induction false} RunShape<O>(s: State<O>, steps: seq<Step<O>>)
    ensures Run(s, steps).n == s.n && Run(s, steps).ordered == s.ordered && |Run(s, steps).workers| == |s.workers|
  {
    if steps != [] {
      RunShape(s, steps[..|steps| - 1]);
      StepShape(Run(s, steps[..|steps| - 1]), steps[|steps| - 1]);
      StepWorkers(Run(s, steps[..|steps| - 1]), steps[|steps| - 1]);
    }
  }

  /** A send never finds its channel full: not the caller's on jobs, nor any worker's on results. */
  lemma SendsNeverBlock<O>(s: State<O>, n: nat, workers: nat, ordered: bool, steps: seq<Step<O>>)
    requires Reachable(s, n, workers, ordered, steps)
    ensures s.sent < n ==> |s.jobs| < n
    ensures forall w :: 0 <= w < |s.workers| && s.workers[w].Sending? ==> |s.results| < n
  {
    ReachableInv(s, n, workers, ordered, steps);
    RunShape(Init<O>(n, workers, ordered), steps);
    forall w | 0 <= w < |s.workers| && s.workers[w].Sending? ensures |s.results| < n {
      RoomForResult(s.sent - |s.jobs|, n, s.workers, s.log, s.owner, w);
    }
  }

  // ------------------------------------------------------------------ it finishes

  function Weight<O>(w: Worker<O>): nat {
    match w
    case Ready => 1
    case Got(_) => 6
    case InFn(_) => 5
    case Sending(_) => 4
    case Exited => 0
  }

  function TotalWeight<O>(ws: seq<Worker<O>>): nat {
    if ws == [] then 0 else TotalWeight(ws[..|ws| - 1]) + Weight(ws[|ws| - 1])
  }

  lemma {:induction false} WeightUpdate<O>(ws: seq<Worker<O>>, w: nat, to: Worker<O>)
    requires w < |ws|
    ensures TotalWeight(ws[w := to]) == TotalWeight(ws) - Weight(ws[w]) + Weight(to)
  {
    var ws' := ws[w := to];
    if w == |ws| - 1 {
      assert ws'[..|ws| - 1] == ws[..|ws| - 1];
    } else {
      WeightUpdate(ws[..|ws| - 1], w, to);
      assert ws'[..|ws| - 1] == ws[..|ws| - 1][w := to];
    }
  }

  lemma {:induction false} ReadyWeight<O>(ws: seq<Worker<O>>)
    requires forall w :: 0 <= w < |ws| ==> ws[w].Ready?
    ensures TotalWeight(ws) == |ws|
  {
    if ws != [] {
      ReadyWeight(ws[..|ws| - 1]);
    }
  }

  /** What is left to do. */
  function Measure<O>(s: State<O>): int {
    7 * (s.n - s.sent) + 6 * |s.jobs| + TotalWeight(s.workers) + 2 * |s.results|
    + (if s.jobsClosed then 0 else 1) + (if s.resultsClosed then 0 else 1) + (if s.done then 0 else 1)
  }

  lemma StepWorks<O>(s: State<O>, step: Step<O>)
    requires Enabled(s, step) && !step.CancelParent?
    ensures Measure(Next(s, step)) < Measure(s)
  {
    match step
    case Take(w) => WeightUpdate(s.workers, w, Got(s.jobs[0]));
    case Check(w) => WeightUpdate(s.workers, w, Next(s, step).workers[w]);
    case FnReturns(w, out) => WeightUpdate(s.workers, w, Sending(Result(s.workers[w].idx, out)));
    case SendResult(w) => WeightUpdate(s.workers, w, Ready);
    case ExitWorker(w) => WeightUpdate(s.workers, w, Exited);
    case _ =>
  }

  /** The number of steps of a run that did something, the parent's cancellation aside. */
  function Work<O>(s: State<O>, steps: seq<Step<O>>): nat {
    if steps == [] then 0
    else
      var step := steps[|steps| - 1];
      Work(s, steps[..|steps| - 1])
      + (if Enabled(Run(s, steps[..|steps| - 1]), step) && !step.CancelParent? then 1 else 0)
  }

  lemma {:induction false} WorkUsesMeasure<O>(s: State<O>, steps: seq<Step<O>>)
    ensures Work(s, steps) + Measure(Run(s, steps)) <= Measure(s)
  {
    if steps != [] {
      var s1, step := Run(s, steps[..|steps| - 1]), steps[|steps| - 1];
      WorkUsesMeasure(s, steps[..|steps| - 1]);
      if Enabled(s1, step) && !step.CancelParent? {
        StepWorks(s1, step);
      }
    }
  }

  /** No run does more than 7n + workers + 3 steps, whatever the schedule. */
  lemma RunIsBounded<O>(n: nat, workers: nat, ordered: bool, steps: seq<Step<O>>)
    requires 1 <= workers <= n
    ensures Work(Init<O>(n, workers, ordered), steps) <= 7 * n + workers + 3
  {
    var s0 := Init<O>(n, workers, ordered);
    WorkUsesMeasure(s0, steps);
    ReadyWeight(s0.workers);
    ReachableInv(Run(s0, steps), n, workers, ordered, steps);
  }

  /** Until Process returns, some goroutine can move: no schedule deadlocks. */
  lemma ProcessProgresses<O>(s: State<O>, n: nat, workers: nat, ordered: bool, steps: seq<Step<O>>)
    returns (step: Step<O>)
    requires Reachable(s, n, workers, ordered, steps) && !s.done
    ensures Enabled(s, step) && !step.CancelParent?
  {
    SendsNeverBlock(s, n, workers, ordered, steps);
    ReachableInv(s, n, workers, ordered, steps);
    RunShape(Init<O>(n, workers, ordered), steps);
    if s.sent < n {
      step := SendJob;
    } else if !s.jobsClosed {
      step := CloseJobs;
    } else if s.results != [] {
      step := Collect;
    } else if w: nat :| w < |s.workers| && !s.workers[w].Exited? {
      match s.workers[w]
      case Ready => step := if s.jobs != [] then Take(w) else ExitWorker(w);
      case Got(_) => step := Check(w);
      case InFn(_) => step := FnReturns(w, FnError(""));
      case Sending(_) => step := SendResult(w);
    } else if !s.resultsClosed {
      step := CloseResults;
    } else {
      step := Finish;
    }
  }

  // ------------------------------------------------------------------ what it returns

  function Pick<T>(f: seq<T>, xs: seq<nat>): seq<T>
    requires forall i :: 0 <= i < |xs| ==> xs[i] < |f|
  {
    seq(|xs|, i requires 0 <= i < |xs| => f[xs[i]])
  }

  /** xs lists every number below n once. */
  ghost predicate Lists(xs: seq<nat>, n: nat) {
    && (forall i :: 0 <= i < |xs| ==> xs[i] < n)
    && (forall i, j :: 0 <= i < j < |xs| ==> xs[i] != xs[j])
    && (forall m: nat :: m < n ==> m in xs)
  }

  lemma PickShorter<T>(f: seq<T>, xs: seq<nat>)
    requires |f| > 0 && forall i :: 0 <= i < |xs| ==> xs[i] < |f| - 1
    ensures Pick(f[..|f| - 1], xs) == Pick(f, xs)
  {
  }

  lemma PickOneMore<T>(f: seq<T>, before: seq<nat>, x: nat, after: seq<nat>)
    requires x < |f|
    requires (forall i :: 0 <= i < |before| ==> before[i] < |f|) && forall i :: 0 <= i < |after| ==> after[i] < |f|
    ensures multiset(Pick(f, before + [x] + after)) == multiset(Pick(f, before + after)) + multiset{f[x]}
  {
    assert Pick(f, before + [x] + after) == Pick(f, before) + [f[x]] + Pick(f, after);
    assert Pick(f, before + after) == Pick(f, before) + Pick(f, after);
  }

  /** Taking the largest number out of a listing leaves a listing of the rest. */
  lemma ListsRest(before: seq<nat>, n: nat, after: seq<nat>)
    requires Lists(before + [n] + after, n + 1)
    ensures Lists(before + after, n)
  {
    var all, rest := before + [n] + after, before + after;
    var k := |before|;
    forall i | 0 <= i < |rest| ensures rest[i] < n {
      var i' := if i < k then i else i + 1;
      assert rest[i] == all[i'] && all[k] == n && all[i'] != all[k];
    }
    forall i, j | 0 <= i < j < |rest| ensures rest[i] != rest[j] {
      var i', j' := if i < k then i else i + 1, if j < k then j else j + 1;
      assert all[i'] != all[j'];
    }
    forall m: nat | m < n ensures m in rest {
      assert m in all;
    }
  }

  lemma TakeLargest(xs: seq<nat>, n: nat) returns (before: seq<nat>, after: seq<nat>)
    requires Lists(xs, n + 1)
    ensures xs == before + [n] + after && Lists(before + after, n)
  {
    assert n in xs;
    var k :| 0 <= k < |xs| && xs[k] == n;
    before, after := xs[..k], xs[k + 1..];
    assert xs == before + [n] + after;
    ListsRest(before, n, after);
  }

  lemma {:induction false} PickAll<T>(f: seq<T>, xs: seq<nat>)
    requires Lists(xs, |f|)
    ensures multiset(Pick(f, xs)) == multiset(f)
    decreases |f|
  {
    if f == [] {
      AtMost(xs, 0);
    } else {
      var n := |f| - 1;
      var before, after := TakeLargest(xs, n);
      PickAll(f[..n], before + after);
      PickShorter(f, before + after);
      InBounds(before, after, n);
      PickOneMore(f, before, n, after);
      assert f == f[..n] + [f[n]];
    }
  }

  lemma InBounds(before: seq<nat>, after: seq<nat>, n: nat)
    requires Lists(before + after, n)
    ensures (forall i :: 0 <= i < |before| ==> before[i] < n) && forall i :: 0 <= i < |after| ==> after[i] < n
  {
    var all := before + after;
    forall i | 0 <= i < |before| ensures before[i] < n {
      assert all[i] == before[i];
    }
    forall i | 0 <= i < |after| ensures after[i] < n {
      assert all[|before| + i] == after[i];
    }
  }

  /** At the end every item has exactly one result. */
  lemma AllResults<O>(s: State<O>, n: nat, workers: nat, ordered: bool, steps: seq<Step<O>>)
    requires Reachable(s, n, workers, ordered, steps) && s.done
    ensures s.received == s.log && Lists(Indices(s.received), n)
    ensures Outcomes(s.workers, s.received, s.calls, s.owner)
  {
    ReachableInv(s, n, workers, ordered, steps);
    RunShape(Init<O>(n, workers, ordered), steps);
    assert s.workers[0].Exited? && s.jobs == [] && s.sent == n;
    assert s.received + [] == s.received;
    LogIsDistinct(n, s.workers, s.log, s.owner);
    forall m: nat | m < n ensures m in Indices(s.log) {
      assert m in s.owner;
      assert s.owner[m].InLog? && Indices(s.log)[s.owner[m].j] == m;
    }
  }

  lemma {:induction false} ValuesArePicked<O>(rs: seq<Result<O>>, f: seq<O>)
    requires forall i :: 0 <= i < |rs| ==> rs[i].out.Value? && rs[i].idx < |f| && f[rs[i].idx] == rs[i].out.v
    ensures Values(rs) == Pick(f, Indices(rs))
  {
    if rs != [] {
      ValuesArePicked(rs[..|rs| - 1], f);
    }
  }

  /** Process succeeds exactly when fn was called for every item and returned a value each time. */
  lemma SucceedsIff<O>(s: State<O>, n: nat, workers: nat, ordered: bool, steps: seq<Step<O>>)
    requires Reachable(s, n, workers, ordered, steps) && s.done
    ensures s.firstErr.None? <==> forall i: nat :: i < n ==> i in s.calls && s.calls[i].Value?
  {
    AllResults(s, n, workers, ordered, steps);
    ReachableInv(s, n, workers, ordered, steps);
    if s.firstErr.None? {
      forall i: nat | i < n ensures i in s.calls && s.calls[i].Value? {
        assert i in Indices(s.received);
        var j :| 0 <= j < |s.received| && Indices(s.received)[j] == i;
        assert !HasError(s.received) && s.received[j].out.Value?;
        assert Genuine(s.calls, s.received[j]);
      }
    } else {
      var k :| 0 <= k < |s.received| && s.received[k].out == s.firstErr.value && !s.firstErr.value.Value?;
      assert Genuine(s.calls, s.received[k]) && Indices(s.received)[k] < n;
    }
  }

  /** Every result received is the value fn returned for its item. */
  lemma ReceivedValues<O>(s: State<O>, n: nat, workers: nat, ordered: bool, steps: seq<Step<O>>)
    requires Reachable(s, n, workers, ordered, steps) && s.done && s.firstErr.None?
    ensures forall j :: 0 <= j < |s.received| ==>
              s.received[j].idx in s.calls && s.received[j].out.Value? && s.calls[s.received[j].idx] == s.received[j].out
  {
    AllResults(s, n, workers, ordered, steps);
    ReachableInv(s, n, workers, ordered, steps);
    forall j | 0 <= j < |s.received|
      ensures s.received[j].idx in s.calls && s.received[j].out.Value? && s.calls[s.received[j].idx] == s.received[j].out
    {
      assert !HasError(s.received) && s.received[j].out.Value?;
      assert Genuine(s.calls, s.received[j]);
    }
  }

  lemma OrderedOutput<O>(s: State<O>, n: nat, workers: nat, steps: seq<Step<O>>, i: nat)
    requires Reachable(s, n, workers, true, steps) && s.done && s.firstErr.None? && i < n
    ensures |s.out| == n && i in s.calls && s.calls[i].Value? && s.out[i] == Some(s.calls[i].v)
  {
    AllResults(s, n, workers, true, steps);
    ReachableInv(s, n, workers, true, steps);
    RunShape(Init<O>(n, workers, true), steps);
    ReceivedValues(s, n, workers, true, steps);
    assert i in Indices(s.received);
    var j :| 0 <= j < |s.received| && Indices(s.received)[j] == i;
    assert s.received[j].idx == i;
  }

  lemma UnorderedOutput<O>(s: State<O>, n: nat, workers: nat, steps: seq<Step<O>>, values: seq<O>)
    requires Reachable(s, n, workers, false, steps) && s.done && s.firstErr.None?
    requires |values| == n && forall i: nat :: i < n && i in s.calls ==> s.calls[i] == Value(values[i])
    ensures multiset(s.unordered) == multiset(values)
  {
    AllResults(s, n, workers, false, steps);
    ReachableInv(s, n, workers, false, steps);
    RunShape(Init<O>(n, workers, false), steps);
    ReceivedValues(s, n, workers, false, steps);
    forall j | 0 <= j < |s.received|
      ensures s.received[j].idx < n && values[s.received[j].idx] == s.received[j].out.v
    {
      assert Indices(s.received)[j] < n;
    }
    ValuesArePicked(s.received, values);
    PickAll(values, Indices(s.received));
  }

  /** What Process returns, for every number of workers and every schedule, in terms of what fn returned. */
  lemma ProcessReturns<O>(s: State<O>, n: nat, workers: nat, ordered: bool, steps: seq<Step<O>>, values: seq<O>)
    requires Reachable(s, n, workers, ordered, steps) && s.done
    requires |values| == n && forall i: nat :: i < n && i in s.calls && s.calls[i].Value? ==> s.calls[i].v == values[i]
    ensures |s.received| == n && multiset(Indices(s.received)) == multiset(seq(n, i => i))
    ensures s.firstErr.None? <==> forall i: nat :: i < n ==> i in s.calls && s.calls[i].Value?
    ensures s.firstErr.None? && ordered ==> s.out == seq(n, i requires 0 <= i < n => Some(values[i]))
    ensures s.firstErr.None? && !ordered ==> multiset(s.unordered) == multiset(values)
  {
    AllResults(s, n, workers, ordered, steps);
    SucceedsIff(s, n, workers, ordered, steps);
    var upto := seq(n, i => i);
    PickAll(upto, Indices(s.received));
    assert Pick(upto, Indices(s.received)) == Indices(s.received);
    assert |multiset(Indices(s.received))| == |multiset(upto)|;
    if s.firstErr.None? && ordered {
      RunShape(Init<O>(n, workers, true), steps);
      ReachableInv(s, n, workers, ordered, steps);
      forall i: nat | i < n ensures s.out[i] == Some(values[i]) {
        OrderedOutput(s, n, workers, steps, i);
      }
    } else if s.firstErr.None? {
      UnorderedOutput(s, n, workers, steps, values);
    }
  }

  /** Unless the parent context was cancelled, the error kept is one fn returned for some item. */
  lemma ErrorIsFromFn<O>(s: State<O>, n: nat, workers: nat, ordered: bool, steps: seq<Step<O>>)
    requires Reachable(s, n, workers, ordered, steps)
    requires s.firstErr.Some? && !s.parentCancelled
    ensures s.firstErr.value.FnError? && exists i: nat :: i < n && i in s.calls && s.calls[i] == s.firstErr.value
  {
    ReachableInv(s, n, workers, ordered, steps);
    RunShape(Init<O>(n, workers, ordered), steps);
    var k :| 0 <= k < |s.received| && s.received[k].out == s.firstErr.value && !s.firstErr.value.Value?
             && !HasError(s.received[..k]);
    assert s.log[k] == s.received[k] && s.log[..k] == s.received[..k];
    assert Genuine(s.calls, s.log[k]);
    assert s.log[k].idx in s.owner;
  }

  // ------------------------------------------------------------------ what a cancellation stops

  /** The context is cancelled from the parent's cancellation or the first error received on, and not before. */
  lemma CancelledIff<O>(s: State<O>, n: nat, workers: nat, ordered: bool, steps: seq<Step<O>>)
    requires Reachable(s, n, workers, ordered, steps)
    ensures s.cancelled <==> s.parentCancelled || exists k :: 0 <= k < |s.received| && !s.received[k].out.Value?
  {
    ReachableInv(s, n, workers, ordered, steps);
    assert s.firstErr.Some? <==> HasError(s.received);
  }

  /** fn is at work on the item, or has returned for it. */
  ghost predicate Entered<O>(s: State<O>, i: nat) {
    i in s.calls || exists w :: 0 <= w < |s.workers| && s.workers[w] == InFn(i)
  }

  lemma StaysCancelled<O>(s: State<O>, step: Step<O>)
    requires s.cancelled
    ensures Next(s, step).cancelled
  {
  }

  lemma StepCalls<O>(s: State<O>, step: Step<O>, i: nat)
    requires i in Next(s, step).calls && i !in s.calls
    ensures exists w :: 0 <= w < |s.workers| && s.workers[w] == InFn(i)
  {
    assert step.FnReturns? && s.workers[step.w] == InFn(i);
  }

  /** A worker that finds the context cancelled does not go into fn. */
  lemma StepInFn<O>(s: State<O>, step: Step<O>, w: nat, i: nat)
    requires s.cancelled && w < |Next(s, step).workers| && Next(s, step).workers[w] == InFn(i)
    ensures w < |s.workers| && s.workers[w] == InFn(i)
  {
    StepWorkers(s, step);
    match step
    case Take(v) =>
    case Check(v) =>
    case FnReturns(v, out) =>
    case SendResult(v) =>
    case ExitWorker(v) =>
    case _ =>
  }

  lemma StepEnters<O>(s: State<O>, step: Step<O>, i: nat)
    requires s.cancelled
    ensures Next(s, step).cancelled
    ensures Entered(Next(s, step), i) ==> Entered(s, i)
  {
    StaysCancelled(s, step);
    var t := Next(s, step);
    if i in t.calls && i !in s.calls {
      StepCalls(s, step, i);
    }
    if w: nat :| w < |t.workers| && t.workers[w] == InFn(i) {
      StepInFn(s, step, w, i);
    }
  }

  /** Once the context is cancelled fn is called for no further item, whatever the schedule. */
  lemma {:induction false} CancelledEntersNoMore<O>(s: State<O>, steps: seq<Step<O>>, i: nat)
    requires s.cancelled
    ensures Run(s, steps).cancelled
    ensures Entered(Run(s, steps), i) ==> Entered(s, i)
    decreases |steps|
  {
    if steps != [] {
      CancelledEntersNoMore(s, steps[..|steps| - 1], i);
      StepEnters(Run(s, steps[..|steps| - 1]), steps[|steps| - 1], i);
    }
  }

  lemma {:induction false} RunAppend<O>(s: State<O>, a: seq<Step<O>>, b: seq<Step<O>>)
    ensures Run(s, a + b) == Run(Run(s, a), b)
    decreases |b|
  {
    if b == [] {
      assert a + b == a;
    } else {
      assert (a + b)[..|a + b| - 1] == a + b[..|b| - 1];
      RunAppend(s, a, b[..|b| - 1]);
    }
  }

  /** If the context is cancelled, by the parent or by an error, while fn has not been called for some item, Process
      returns an error; it is the cancellation's own unless fn returned one. */
  lemma CancelledInTimeFails<O>(n: nat, workers: nat, ordered: bool, before: seq<Step<O>>, after: seq<Step<O>>, i: nat)
    requires 1 <= workers <= n && i < n
    requires var s := Run(Init<O>(n, workers, ordered), before); s.cancelled && !Entered(s, i)
    requires Run(Run(Init<O>(n, workers, ordered), before), after).done
    ensures var t := Run(Run(Init<O>(n, workers, ordered), before), after);
            && t.firstErr.Some? && i !in t.calls
            && ((forall j :: j in t.calls ==> t.calls[j].Value?) ==> t.firstErr == Some(Skipped))
  {
    var s0 := Init<O>(n, workers, ordered);
    var s, t := Run(s0, before), Run(Run(s0, before), after);
    CancelledEntersNoMore(s, after, i);
    RunAppend(s0, before, after);
    SucceedsIff(t, n, workers, ordered, before + after);
    ReachableInv(t, n, workers, ordered, before + after);
    ErrorIsGenuine(t);
  }

  lemma ErrorIsGenuine<O>(s: State<O>)
    requires Inv(s) && s.firstErr.Some?
    ensures s.firstErr.value == Skipped || exists j :: j in s.calls && s.calls[j] == s.firstErr.value && !s.calls[j].Value?
  {
    var k :| 0 <= k < |s.received| && s.received[k].out == s.firstErr.value && !s.firstErr.value.Value?;
    assert s.log[k] == s.received[k];
    assert Genuine(s.calls, s.log[k]);
  }

  // ------------------------------------------------------------------ the collecting loop

  /** The caller's loop over results, once they have all arrived: the slices it fills, and the first error.
      On success the ordered slice holds each result at its index and the other one the values as they came. */
  method CollectResults<O>(n: nat, ordered: bool, results: seq<Result<O>>)
    returns (out: seq<Option<O>>, unordered: seq<O>, firstErr: Option<Outcome<O>>, cancelled: bool)
    requires Lists(Indices(results), n)
    ensures firstErr.None? <==> forall k :: 0 <= k < |results| ==> results[k].out.Value?
    ensures firstErr.Some? ==> exists k :: 0 <= k < |results| && results[k].out == firstErr.value
                                           && !HasError(results[..k]) && !results[k].out.Value?
    ensures cancelled == firstErr.Some?
    ensures firstErr.None? && ordered ==>
              |out| == n && forall k :: 0 <= k < |results| && results[k].idx < n ==>
                out[results[k].idx] == Some(results[k].out.v)
    ensures !ordered ==> unordered == Values(results)
  {
    var slots := new Option<O>[n](_ => None);
    unordered, firstErr, cancelled := [], None, false;
    var i := 0;
    while i < |results|
      invariant 0 <= i <= |results| && cancelled == firstErr.Some?
      invariant Caused(results[..i], firstErr, cancelled, false)
      invariant Gathered(results[..i], n, ordered, slots[..], unordered)
    {
      var r := results[i];
      assert Indices(results)[i] == r.idx;
      forall j | 0 <= j < i ensures results[j].idx != r.idx {
        assert Indices(results)[j] == results[j].idx;
      }
      CausedReceive(results[..i], firstErr, cancelled, false, r);
      GatheredReceive(results[..i], n, ordered, slots[..], unordered, r);
      assert results[..i + 1] == results[..i] + [r];
      ghost var before := slots[..];
      if !r.out.Value? && firstErr.None? {
        firstErr := Some(r.out);
        cancelled := true;
      }
      if r.out.Value? {
        if ordered {
          slots[r.idx] := Some(r.out.v);
        } else {
          unordered := unordered + [r.out.v];
        }
      }
      assert slots[..] == OutAfter(ordered, before, r);
      i := i + 1;
    }
    assert results[..i] == results;
    out := slots[..];
  }
}
