/** pkg/store/store.go: WithTx, which re-uses the transaction found in its context.

    A body passed to WithTx is a tree of statements, nested WithTx calls and returns.  `Eval` and
    `Writes` read such a tree as straight-line code with every nested call inlined; the class DB runs
    it the way WithTx does, with begin, commit and rollback. */
module TxStore {
  import opened Common

  /** How a body ends: `return nil`, `return err`, or a panic. */
  datatype Result = Nil | Error | Panic

  /** The body of a WithTx call over database states S.  Each statement names what runs next.
      Nested is a WithTx call on the passed context: what its caller does after nil, after an error
      (propagate it, swallow it, or anything else) and, if it recovers, after a panic. */
  datatype Body<!S> =
    | Return(result: Result)
    | Exec(update: S -> Option<S>, ok: Body<S>, failed: Body<S>)
    | Query(test: S -> bool, yes: Body<S>, no: Body<S>, failed: Body<S>)
    | Nested(inner: Body<S>, onNil: Body<S>, onError: Body<S>, onPanic: Option<Body<S>>)

  /** What an open transaction sees: its own writes, or nothing once a statement has failed in it
      (Postgres then refuses every further statement and turns COMMIT into ROLLBACK). */
  datatype View<S> = Live(state: S) | Aborted

  // ------------------------------------------------------------------ contexts

  datatype Context = Background | Traced(parent: Context) | Carrying(parent: Context, tx: nat)

  function ContextWithTx(ctx: Context, tx: nat): (r: Context)
    ensures TxFromContext(r) == Some(tx)
  {
    Carrying(ctx, tx)
  }

  /** The innermost transaction stored in the context, if any. */
  function TxFromContext(ctx: Context): (r: Option<nat>) {
    match ctx
    case Background => None
    case Traced(parent) => TxFromContext(parent)
    case Carrying(_, tx) => Some(tx)
  }

  /** The context after n more spans. */
  function Derived(ctx: Context, n: nat): Context {
    if n == 0 then ctx else Traced(Derived(ctx, n - 1))
  }

  /** A transaction stored in a context is found in every context derived from it. */
  lemma {:induction false} DerivedKeepsTx(ctx: Context, tx: nat, n: nat)
    ensures TxFromContext(Derived(ContextWithTx(ctx, tx), n)) == Some(tx)
  {
    if n > 0 { DerivedKeepsTx(ctx, tx, n - 1); }
  }

  // ------------------------------------------------------------------ inlined reading of a body

  /** The transaction's view and the result after the body, every nested call inlined. */
  ghost function Eval<S>(body: Body<S>, v: View<S>): (View<S>, Result)
    decreases body
  {
    match body
    case Return(result) => (v, result)
    case Exec(update, ok, failed) =>
      if v.Live? && update(v.state).Some?
      then Eval(ok, Live(update(v.state).value))
      else Eval(failed, Aborted)
    case Query(test, yes, no, failed) =>
      if v.Live? then (if test(v.state) then Eval(yes, v) else Eval(no, v)) else Eval(failed, v)
    case Nested(inner, onNil, onError, onPanic) =>
      var (v', result) := Eval(inner, v);
      match result
      case Nil => Eval(onNil, v')
      case Error => Eval(onError, v')
      case Panic => if onPanic.Some? then Eval(onPanic.value, v') else (v', Panic)
  }

  /** The writes of the whole tree that took effect in the transaction, in execution order. */
  ghost function Writes<S>(body: Body<S>, v: View<S>): seq<S -> Option<S>>
    decreases body
  {
    match body
    case Return(_) => []
    case Exec(update, ok, failed) =>
      if v.Live? && update(v.state).Some?
      then [update] + Writes(ok, Live(update(v.state).value))
      else Writes(failed, Aborted)
    case Query(test, yes, no, failed) =>
      if v.Live? then (if test(v.state) then Writes(yes, v) else Writes(no, v)) else Writes(failed, v)
    case Nested(inner, onNil, onError, onPanic) =>
      var (v', result) := Eval(inner, v);
      Writes(inner, v) +
      match result
      case Nil => Writes(onNil, v')
      case Error => Writes(onError, v')
      case Panic => if onPanic.Some? then Writes(onPanic.value, v') else []
  }

  /** The state after performing the writes one after the other; None if one does not apply. */
  ghost function ApplyAll<S>(s: S, writes: seq<S -> Option<S>>): Option<S> {
    if writes == [] then Some(s)
    else match writes[0](s)
         case None => None
         case Some(s') => ApplyAll(s', writes[1..])
  }

  lemma {:induction false} ApplyAllAppend<S>(s: S, a: seq<S -> Option<S>>, b: seq<S -> Option<S>>)
    requires ApplyAll(s, a).Some?
    ensures ApplyAll(s, a + b) == ApplyAll(ApplyAll(s, a).value, b)
    decreases |a|
  {
    if a == [] {
      assert a + b == b;
    } else {
      assert (a + b)[1..] == a[1..] + b;
      ApplyAllAppend(a[0](s).value, a[1..], b);
    }
  }

  lemma AbortedStays<S>(body: Body<S>)
    ensures Eval(body, Aborted).0 == Aborted && Writes(body, Aborted) == []
    decreases body
  {
    match body
    case Return(_) =>
    case Exec(_, ok, failed) => AbortedStays(failed);
    case Query(_, _, _, failed) => AbortedStays(failed);
    case Nested(inner, onNil, onError, onPanic) =>
      AbortedStays(inner);
      AbortedStays(onNil);
      AbortedStays(onError);
      if onPanic.Some? { AbortedStays(onPanic.value); }
  }

  /** A transaction that is still live holds its start state with all the tree's writes performed in
      execution order, whatever errors were swallowed or panics recovered on the way. */
  lemma {:induction false} EvalIsApplyAll<S>(body: Body<S>, s: S)
    ensures Eval(body, Live(s)).0.Live? ==>
              ApplyAll(s, Writes(body, Live(s))) == Some(Eval(body, Live(s)).0.state)
    decreases body
  {
    match body
    case Return(_) =>
    case Exec(update, ok, failed) =>
      if update(s).Some? {
        EvalIsApplyAll(ok, update(s).value);
        assert ([update] + Writes(ok, Live(update(s).value)))[1..] == Writes(ok, Live(update(s).value));
      } else {
        AbortedStays(failed);
      }
    case Query(test, yes, no, failed) =>
      if test(s) { EvalIsApplyAll(yes, s); } else { EvalIsApplyAll(no, s); }
    case Nested(inner, onNil, onError, onPanic) =>
      EvalIsApplyAll(inner, s);
      NestedIsApplyAll(inner, onNil, onError, onPanic, s);
  }

  lemma {:induction false} NestedIsApplyAll<S>(
    inner: Body<S>, onNil: Body<S>, onError: Body<S>, onPanic: Option<Body<S>>, s: S)
    requires Eval(inner, Live(s)).0.Live? ==>
               ApplyAll(s, Writes(inner, Live(s))) == Some(Eval(inner, Live(s)).0.state)
    ensures var body := Nested(inner, onNil, onError, onPanic);
            Eval(body, Live(s)).0.Live? ==>
              ApplyAll(s, Writes(body, Live(s))) == Some(Eval(body, Live(s)).0.state)
    decreases Nested(inner, onNil, onError, onPanic), 0
  {
    var (v', result) := Eval(inner, Live(s));
    if v'.Aborted? {
      AbortedStays(onNil);
      AbortedStays(onError);
      if onPanic.Some? { AbortedStays(onPanic.value); }
    } else if result.Panic? && onPanic.None? {
      assert Writes(inner, Live(s)) + [] == Writes(inner, Live(s));
    } else {
      var next := if result.Nil? then onNil else if result.Error? then onError else onPanic.value;
      EvalIsApplyAll(next, v'.state);
      if Eval(next, v').0.Live? { ApplyAllAppend(s, Writes(inner, Live(s)), Writes(next, v')); }
    }
  }

  // ------------------------------------------------------------------ the database

  class DB<!S> {
    /** What other transactions see. */
    var committed: S
    /** The open transaction's view. */
    var pending: Option<View<S>>
    var nextTx: nat
    /** Calls of BeginTx, and of Commit and Rollback that ended a transaction. */
    var begins: nat
    var commits: nat
    var rollbacks: nat

    constructor (s: S)
      ensures committed == s && pending == None && begins == commits == rollbacks == 0
    {
      committed, pending, nextTx := s, None, 0;
      begins, commits, rollbacks := 0, 0, 0;
    }

    /** WithTx.  `beginOk` and `commitOk` say whether the database accepts BEGIN and COMMIT.

        On a context that carries a transaction, the body runs in that one, and WithTx neither
        begins, commits nor rolls back.  Otherwise the outcome is all or nothing: the committed state
        becomes the start state with every write of the tree, in execution order, exactly when BEGIN
        succeeds, the body returns nil with no failed statement, and COMMIT succeeds; in every other
        case, a panic included, it is unchanged, and the transaction that was begun is closed. */
    method WithTx(ctx: Context, body: Body<S>, beginOk: bool, commitOk: bool) returns (result: Result)
      requires TxFromContext(ctx).Some? <==> pending.Some?
      modifies this
      ensures old(pending).Some? ==>
        && (pending, result) == (Some(Eval(body, old(pending).value).0), Eval(body, old(pending).value).1)
        && committed == old(committed)
        && begins == old(begins) && commits == old(commits) && rollbacks == old(rollbacks)
      ensures old(pending).None? ==>
        var (v, r) := Eval(body, Live(old(committed)));
        var done := beginOk && r.Nil? && v.Live? && commitOk;
        && pending == None
        && (done ==> Some(committed) == ApplyAll(old(committed), Writes(body, Live(old(committed)))))
        && (!done ==> committed == old(committed))
        && (result.Nil? <==> done)
        && (result.Panic? <==> beginOk && r.Panic?)
        && begins == old(begins) + (if beginOk then 1 else 0)
        && commits == old(commits) + (if done then 1 else 0)
        && rollbacks == old(rollbacks) + (if beginOk && !done then 1 else 0)
      decreases body, 1
    {
      if TxFromContext(ctx).Some? {
        result := Run(ctx, body);
        return;
      }
      var traced := Traced(ctx);
      if !beginOk {
        return Error;
      }
      ghost var s0 := committed;
      begins := begins + 1;
      pending := Some(Live(committed));
      var txCtx := ContextWithTx(traced, nextTx);
      nextTx := nextTx + 1;
      result := Run(txCtx, body);
      if result != Nil {
        pending, rollbacks := None, rollbacks + 1;
        return;
      }
      if pending.value.Aborted? || !commitOk {
        pending, rollbacks := None, rollbacks + 1;
        return Error;
      }
      EvalIsApplyAll(body, s0);
      committed := pending.value.state;
      pending, commits := None, commits + 1;
    }

    /** Runs a body in the open transaction, calling WithTx again for every nested call. */
    method Run(ctx: Context, body: Body<S>) returns (result: Result)
      requires TxFromContext(ctx).Some? && pending.Some?
      modifies this
      ensures (pending, result) == (Some(Eval(body, old(pending).value).0), Eval(body, old(pending).value).1)
      ensures committed == old(committed)
      ensures begins == old(begins) && commits == old(commits) && rollbacks == old(rollbacks)
      decreases body, 0
    {
      match body
      case Return(r) =>
        result := r;
      case Exec(update, ok, failed) =>
        if pending.value.Live? && update(pending.value.state).Some? {
          pending := Some(Live(update(pending.value.state).value));
          result := Run(ctx, ok);
        } else {
          pending := Some(Aborted);
          result := Run(ctx, failed);
        }
      case Query(test, yes, no, failed) =>
        if pending.value.Aborted? {
          result := Run(ctx, failed);
        } else if test(pending.value.state) {
          result := Run(ctx, yes);
        } else {
          result := Run(ctx, no);
        }
      case Nested(inner, onNil, onError, onPanic) =>
        result := WithTx(ctx, inner, true, true);
        match result
        case Nil => result := Run(ctx, onNil);
        case Error => result := Run(ctx, onError);
        case Panic =>
          if onPanic.Some? { result := Run(ctx, onPanic.value); }
    }
  }

  /** Flattening has a price: an inner call that wrote and then failed does not undo its write when
      the caller swallows the error, because only the outermost call can roll back. */
  lemma SwallowedInnerErrorKeepsItsWrites<S>(write: S -> Option<S>, s: S)
    requires write(s).Some?
    ensures var inner := Exec(write, Return(Error), Return(Error));
            var outer := Nested(inner, Return(Nil), Return(Nil), None);
            Eval(inner, Live(s)).1 == Error && Eval(outer, Live(s)) == (Live(write(s).value), Nil)
  {
    var inner := Exec(write, Return(Error), Return(Error));
    assert Eval(inner, Live(s)) == (Live(write(s).value), Error);
  }
}
