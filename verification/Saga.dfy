/** pkg/saga/saga.go: a list of steps run forwards, and rolled back in reverse on the first failure.

    The world that steps act on is the type `W`; one call of Execute or Compensate is a function on it
    that yields the new world and an optional error.  Run and compensate are methods that update the
    world in place; the functions above them say which world, which calls and which errors that makes. */
module Saga {
  import opened Common

  datatype Effect<W, E> = Effect(world: W, err: Option<E>)

  datatype Step<!W, !E> = Step(
    name: string,
    execute: W -> Effect<W, E>,
    compensate: Option<W -> Effect<W, E>>)

  datatype CompensationError<E> = CompensationError(step: string, err: E)

  /** What Run returns: nil, or a *saga.Error. */
  datatype Outcome<E> =
    | Completed
    | Failed(failedStep: string, cause: E, compensationErrors: seq<CompensationError<E>>)

  /** A call made by the saga, with the index of its step. */
  datatype Call = Execute(i: nat) | Compensate(i: nat)

  // ------------------------------------------------------------------ forward phase

  /** The world after the first k steps. */
  ghost function ExecWorld<W, E>(steps: seq<Step<W, E>>, w: W, k: nat): W
    requires k <= |steps|
  {
    if k == 0 then w else steps[k - 1].execute(ExecWorld(steps, w, k - 1)).world
  }

  ghost predicate Fails<W, E>(steps: seq<Step<W, E>>, w: W, i: nat)
    requires i < |steps|
  {
    steps[i].execute(ExecWorld(steps, w, i)).err.Some?
  }

  /** Step k is the first to fail; k == |steps| when none does. */
  ghost predicate FirstFailure<W, E>(steps: seq<Step<W, E>>, w: W, k: nat) {
    && k <= |steps|
    && (forall i :: 0 <= i < k ==> !Fails(steps, w, i))
    && (k < |steps| ==> Fails(steps, w, k))
  }

  function ExecuteCalls(k: nat): (calls: seq<Call>) {
    seq(k, (i: nat) => Execute(i))
  }

  // ------------------------------------------------------------------ rollback phase

  function CompensateOne<W, E>(step: Step<W, E>, w: W): Effect<W, E> {
    if step.compensate.Some? then step.compensate.value(w) else Effect(w, None)
  }

  /** The world after compensating steps k-1 down to i. */
  ghost function UndoWorld<W, E>(steps: seq<Step<W, E>>, w: W, k: nat, i: nat): W
    requires i <= k <= |steps|
    decreases k - i
  {
    if i == k then w else CompensateOne(steps[i], UndoWorld(steps, w, k, i + 1)).world
  }

  /** Compensating step i, in the order k-1 down to 0, reports an error. */
  ghost predicate UndoFails<W, E>(steps: seq<Step<W, E>>, w: W, k: nat, i: nat)
    requires i < k <= |steps|
  {
    CompensateOne(steps[i], UndoWorld(steps, w, k, i + 1)).err.Some?
  }

  /** The list holds exactly the members of the set, from the largest to the smallest, each once. */
  ghost predicate Descending(idx: seq<nat>, members: set<nat>) {
    && (forall a, b :: 0 <= a < b < |idx| ==> idx[a] > idx[b])
    && (forall j :: j in idx <==> j in members)
  }

  /** The steps in [i, k) that have a compensation. */
  ghost function Compensable<W, E>(steps: seq<Step<W, E>>, i: nat, k: nat): set<nat>
    requires k <= |steps|
  {
    set j: nat | i <= j < k && steps[j].compensate.Some?
  }

  /** The steps in [i, k) whose compensation fails. */
  ghost function Uncompensated<W, E>(steps: seq<Step<W, E>>, w: W, i: nat, k: nat): set<nat>
    requires k <= |steps|
  {
    set j: nat | i <= j < k && UndoFails(steps, w, k, j)
  }

  /** `errs` reports the failing compensations `idx`, in that order, each with its own error. */
  ghost predicate Reports<W, E>(
    steps: seq<Step<W, E>>, w: W, k: nat, idx: seq<nat>, errs: seq<CompensationError<E>>)
    requires k <= |steps|
  {
    && |errs| == |idx|
    && forall a :: 0 <= a < |idx| ==>
         && idx[a] < k
         && UndoFails(steps, w, k, idx[a])
         && errs[a] == CompensationError(steps[idx[a]].name,
                                         CompensateOne(steps[idx[a]], UndoWorld(steps, w, k, idx[a] + 1)).err.value)
  }

  function CompensateCalls(idx: seq<nat>): (calls: seq<Call>) {
    seq(|idx|, a requires 0 <= a < |idx| => Compensate(idx[a]))
  }

  /** The compensations called are exactly those of steps k-1..0 that have one, in reverse, each once,
      and the errors are exactly those of the failing ones, in the same order. */
  ghost predicate RolledBack<W, E>(
    steps: seq<Step<W, E>>, w: W, k: nat, calls: seq<Call>, errs: seq<CompensationError<E>>)
    requires k <= |steps|
  {
    && (exists idx :: Descending(idx, Compensable(steps, 0, k)) && calls == CompensateCalls(idx))
    && (exists bad :: Descending(bad, Uncompensated(steps, w, 0, k)) && Reports(steps, w, k, bad, errs))
  }

  lemma DescendingExtend(idx: seq<nat>, members: set<nat>, i: nat)
    requires Descending(idx, members)
    requires forall j :: j in members ==> i < j
    ensures Descending(idx + [i], members + {i})
  {
    forall a, b | 0 <= a < b < |idx| + 1 ensures (idx + [i])[a] > (idx + [i])[b] {
      if b == |idx| { assert idx[a] in idx; }
    }
  }

  /** A descending list is determined by its members, so `RolledBack` fixes both calls and errors. */
  lemma {:induction false} DescendingUnique(a: seq<nat>, b: seq<nat>, members: set<nat>)
    requires Descending(a, members) && Descending(b, members)
    ensures a == b
    decreases |a|
  {
    assert b == [] || b[0] in members;
    if a != [] {
      assert a[0] in members && a[0] in b;
      assert b[0] in members && b[0] in a;
      DescendingRest(a, members);
      DescendingRest(b, members);
      DescendingUnique(a[1..], b[1..], members - {a[0]});
    }
  }

  lemma DescendingFirst(a: seq<nat>, members: set<nat>)
    requires Descending(a, members)
    ensures a == [] || a[0] in members
  {
    assert a == [] || a[0] in a;
  }

  lemma DescendingRest(a: seq<nat>, members: set<nat>)
    requires a != [] && Descending(a, members)
    ensures Descending(a[1..], members - {a[0]})
  {
    assert a == [a[0]] + a[1..];
  }

  lemma ReportsUnique<W, E>(
    steps: seq<Step<W, E>>, w: W, k: nat, bad: seq<nat>, errs: seq<CompensationError<E>>, errs': seq<CompensationError<E>>)
    requires k <= |steps| && Reports(steps, w, k, bad, errs) && Reports(steps, w, k, bad, errs')
    ensures errs == errs'
  {
    forall a | 0 <= a < |errs| ensures errs[a] == errs'[a] {
      assert UndoFails(steps, w, k, bad[a]);
    }
  }

  lemma CallsUnique<W, E>(
    steps: seq<Step<W, E>>, w: W, k: nat,
    calls: seq<Call>, errs: seq<CompensationError<E>>, calls': seq<Call>, errs': seq<CompensationError<E>>)
    requires k <= |steps|
    requires RolledBack(steps, w, k, calls, errs) && RolledBack(steps, w, k, calls', errs')
    ensures calls == calls'
  {
    var all := Compensable(steps, 0, k);
    var idx :| Descending(idx, all) && calls == CompensateCalls(idx);
    var idx' :| Descending(idx', all) && calls' == CompensateCalls(idx');
    DescendingUnique(idx, idx', all);
  }

  lemma RolledBackUnique<W, E>(
    steps: seq<Step<W, E>>, w: W, k: nat,
    calls: seq<Call>, errs: seq<CompensationError<E>>, calls': seq<Call>, errs': seq<CompensationError<E>>)
    requires k <= |steps|
    requires RolledBack(steps, w, k, calls, errs) && RolledBack(steps, w, k, calls', errs')
    ensures calls == calls' && errs == errs'
  {
    CallsUnique(steps, w, k, calls, errs, calls', errs');
    var all := Uncompensated(steps, w, 0, k);
    var bad :| Descending(bad, all) && Reports(steps, w, k, bad, errs);
    var bad' :| Descending(bad', all) && Reports(steps, w, k, bad', errs');
    DescendingUnique(bad, bad', all);
    ReportsUnique(steps, w, k, bad, errs, errs');
  }

  // ------------------------------------------------------------------ rollback restores the world

  /** At the world where it ran, the step's compensation undoes it; a step without one changed nothing. */
  ghost predicate Undoes<W, E>(step: Step<W, E>, w: W) {
    CompensateOne(step, step.execute(w).world) == Effect(w, None)
  }

  lemma {:induction false} UndoReaches<W, E>(steps: seq<Step<W, E>>, w: W, k: nat, i: nat)
    requires i <= k <= |steps|
    requires forall j :: 0 <= j < k ==> Undoes(steps[j], ExecWorld(steps, w, j))
    ensures UndoWorld(steps, ExecWorld(steps, w, k), k, i) == ExecWorld(steps, w, i)
    decreases k - i
  {
    if i < k {
      UndoReaches(steps, w, k, i + 1);
      assert Undoes(steps[i], ExecWorld(steps, w, i));
    }
  }

  lemma UndoSucceeds<W, E>(steps: seq<Step<W, E>>, w: W, k: nat, j: nat)
    requires j < k <= |steps|
    requires forall j :: 0 <= j < k ==> Undoes(steps[j], ExecWorld(steps, w, j))
    ensures !UndoFails(steps, ExecWorld(steps, w, k), k, j)
  {
    UndoReaches(steps, w, k, j + 1);
    assert Undoes(steps[j], ExecWorld(steps, w, j));
  }

  lemma NothingUncompensated<W, E>(steps: seq<Step<W, E>>, w: W, k: nat)
    requires k <= |steps|
    requires forall j :: 0 <= j < k ==> Undoes(steps[j], ExecWorld(steps, w, j))
    ensures Uncompensated(steps, ExecWorld(steps, w, k), 0, k) == {}
  {
    forall j | 0 <= j < k ensures !UndoFails(steps, ExecWorld(steps, w, k), k, j) {
      UndoSucceeds(steps, w, k, j);
    }
  }

  lemma NoErrors<W, E>(steps: seq<Step<W, E>>, w: W, k: nat, calls: seq<Call>, errs: seq<CompensationError<E>>)
    requires k <= |steps| && Uncompensated(steps, w, 0, k) == {} && RolledBack(steps, w, k, calls, errs)
    ensures errs == []
  {
    var bad :| Descending(bad, Uncompensated(steps, w, 0, k)) && Reports(steps, w, k, bad, errs);
    DescendingFirst(bad, Uncompensated(steps, w, 0, k));
  }

  /** If step k fails and changed nothing, and every completed step's compensation undoes it where it
      ran, the rollback ends in the initial world and no compensation error is reported. */
  lemma RollbackRestores<W, E>(
    steps: seq<Step<W, E>>, w: W, k: nat, calls: seq<Call>, errs: seq<CompensationError<E>>)
    requires k < |steps| && FirstFailure(steps, w, k)
    requires ExecWorld(steps, w, k + 1) == ExecWorld(steps, w, k)
    requires forall j :: 0 <= j < k ==> Undoes(steps[j], ExecWorld(steps, w, j))
    requires RolledBack(steps, ExecWorld(steps, w, k + 1), k, calls, errs)
    ensures UndoWorld(steps, ExecWorld(steps, w, k + 1), k, 0) == w
    ensures errs == []
  {
    UndoReaches(steps, w, k, 0);
    NothingUncompensated(steps, w, k);
    NoErrors(steps, ExecWorld(steps, w, k), k, calls, errs);
  }

  /** The rollback has gone down to step i: idx are the compensations called, bad the failing ones. */
  ghost predicate RolledTo<W, E>(
    steps: seq<Step<W, E>>, w: W, k: nat, i: nat, idx: seq<nat>, bad: seq<nat>, errs: seq<CompensationError<E>>)
    requires k <= |steps|
  {
    && Descending(idx, Compensable(steps, i, k))
    && Descending(bad, Uncompensated(steps, w, i, k))
    && Reports(steps, w, k, bad, errs)
  }

  lemma SkipOne<W, E>(
    steps: seq<Step<W, E>>, w: W, k: nat, i: nat, idx: seq<nat>, bad: seq<nat>, errs: seq<CompensationError<E>>)
    requires i < k <= |steps| && RolledTo(steps, w, k, i + 1, idx, bad, errs) && steps[i].compensate.None?
    ensures RolledTo(steps, w, k, i, idx, bad, errs)
  {
    assert Compensable(steps, i, k) == Compensable(steps, i + 1, k);
    assert Uncompensated(steps, w, i, k) == Uncompensated(steps, w, i + 1, k);
  }

  /** Step i's compensation has been called, with this error or none. */
  lemma RollOne<W, E>(
    steps: seq<Step<W, E>>, w: W, k: nat, i: nat, idx: seq<nat>, bad: seq<nat>, errs: seq<CompensationError<E>>,
    err: Option<E>)
    requires i < k <= |steps| && RolledTo(steps, w, k, i + 1, idx, bad, errs) && steps[i].compensate.Some?
    requires err == CompensateOne(steps[i], UndoWorld(steps, w, k, i + 1)).err
    ensures err.None? ==> RolledTo(steps, w, k, i, idx + [i], bad, errs)
    ensures err.Some? ==>
              RolledTo(steps, w, k, i, idx + [i], bad + [i], errs + [CompensationError(steps[i].name, err.value)])
  {
    DescendingExtend(idx, Compensable(steps, i + 1, k), i);
    assert Compensable(steps, i, k) == Compensable(steps, i + 1, k) + {i};
    if err.Some? {
      DescendingExtend(bad, Uncompensated(steps, w, i + 1, k), i);
      assert Uncompensated(steps, w, i, k) == Uncompensated(steps, w, i + 1, k) + {i};
    } else {
      assert Uncompensated(steps, w, i, k) == Uncompensated(steps, w, i + 1, k);
    }
  }

  // ------------------------------------------------------------------ the saga itself

  class Saga<!W, !E> {
    const steps: seq<Step<W, E>>
    /** Everything outside the saga that its steps read and write. */
    var world: W
    /** The calls made so far, as the onStep hook sees them. */
    var calls: seq<Call>

    constructor (steps: seq<Step<W, E>>, world: W)
      ensures this.steps == steps && this.world == world && calls == []
    {
      this.steps := steps;
      this.world := world;
      calls := [];
    }

    method Compensate(completed: seq<nat>) returns (errs: seq<CompensationError<E>>)
      requires |completed| <= |steps|
      requires forall i :: 0 <= i < |completed| ==> completed[i] == i
      modifies this
      ensures world == UndoWorld(steps, old(world), |completed|, 0)
      ensures old(calls) <= calls
      ensures RolledBack(steps, old(world), |completed|, calls[|old(calls)|..], errs)
    {
      errs := [];
      var k := |completed|;
      ghost var w0, done := world, calls;
      ghost var idx: seq<nat>, bad: seq<nat> := [], [];
      assert Compensable(steps, k, k) == {} == Uncompensated(steps, w0, k, k);
      var i := k;
      while i > 0
        invariant 0 <= i <= k
        invariant world == UndoWorld(steps, w0, k, i)
        invariant calls == done + CompensateCalls(idx)
        invariant RolledTo(steps, w0, k, i, idx, bad, errs)
      {
        i := i - 1;
        var step := steps[completed[i]];
        if step.compensate.None? {
          SkipOne(steps, w0, k, i, idx, bad, errs);
          continue;
        }
        var effect := step.compensate.value(world);
        RollOne(steps, w0, k, i, idx, bad, errs, effect.err);
        world := effect.world;
        calls := calls + [Call.Compensate(i)];
        idx := idx + [i];
        if effect.err.Some? {
          errs := errs + [CompensationError(step.name, effect.err.value)];
          bad := bad + [i];
        }
      }
      assert calls[|done|..] == CompensateCalls(idx);
    }

    /** On success every step ran once, in order.  On failure step k is the first that failed, the
        completed steps k-1..0 were rolled back, and nothing after step k ran. */
    method Run() returns (outcome: Outcome<E>)
      requires calls == []
      modifies this
      ensures outcome.Completed? <==> FirstFailure(steps, old(world), |steps|)
      ensures outcome.Completed? ==> world == ExecWorld(steps, old(world), |steps|) && calls == ExecuteCalls(|steps|)
      ensures outcome.Failed? ==> exists k: nat ::
        && k < |steps| && FirstFailure(steps, old(world), k)
        && outcome.failedStep == steps[k].name
        && Some(outcome.cause) == steps[k].execute(ExecWorld(steps, old(world), k)).err
        && |calls| > k && calls[..k + 1] == ExecuteCalls(k + 1)
        && RolledBack(steps, ExecWorld(steps, old(world), k + 1), k, calls[k + 1..], outcome.compensationErrors)
        && world == UndoWorld(steps, ExecWorld(steps, old(world), k + 1), k, 0)
    {
      var completed: seq<nat> := [];
      ghost var w0 := world;
      for i := 0 to |steps|
        invariant |completed| == i && forall j :: 0 <= j < i ==> completed[j] == j
        invariant world == ExecWorld(steps, w0, i)
        invariant calls == ExecuteCalls(i)
        invariant forall j :: 0 <= j < i ==> !Fails(steps, w0, j)
      {
        var effect := steps[i].execute(world);
        world := effect.world;
        calls := calls + [Call.Execute(i)];
        assert calls == ExecuteCalls(i + 1);
        if effect.err.Some? {
          assert Fails(steps, w0, i);
          var errs := Compensate(completed);
          return Failed(steps[i].name, effect.err.value, errs);
        }
        completed := completed + [i];
      }
      return Completed;
    }
  }
}
