/** pkg/ratelimit/limiter.go: the token bucket.  float64 is modelled as `real`, and clock readings are
    whole nanoseconds passed in by the caller. */
module RateLimit {
  const SECOND := 1_000_000_000
  const MILLISECOND := 1_000_000

  datatype Bucket = Bucket(rate: real, burst: real, tokens: real, lastFill: int)

  function New(rate: real, burst: int, now: int): Bucket {
    Bucket(rate, burst as real, burst as real, now)
  }

  function Min(a: real, b: real): real { if a < b then a else b }

  /** Tokens accrued in dt nanoseconds. */
  function Accrued(rate: real, dt: int): real {
    (dt as real / SECOND as real) * rate
  }

  function Filled(b: Bucket, now: int): Bucket {
    b.(tokens := Min(b.burst, b.tokens + Accrued(b.rate, now - b.lastFill)), lastFill := now)
  }

  /** One attempt to take n tokens: what AllowN does, and each turn of WaitN's loop. */
  function Take(b: Bucket, now: int, n: int): (Bucket, bool) {
    var r := Filled(b, now);
    if r.tokens < n as real then (r, false) else (r.(tokens := r.tokens - n as real), true)
  }

  ghost predicate Valid(b: Bucket) {
    b.rate >= 0.0 && 0.0 <= b.tokens <= b.burst
  }

  // ------------------------------------------------------------------ runs

  /** One critical section on the limiter: an attempt to take tokens, or Tokens(). */
  datatype Op = Attempt(now: int, n: int) | Peek(now: int)

  function Apply(b: Bucket, op: Op): Bucket {
    match op
    case Attempt(now, n) => Take(b, now, n).0
    case Peek(now) => Filled(b, now)
  }

  function GrantedBy(b: Bucket, op: Op): int {
    if op.Attempt? && Take(b, op.now, op.n).1 then op.n else 0
  }

  function After(b: Bucket, ops: seq<Op>): Bucket
    decreases |ops|
  {
    if ops == [] then b else After(Apply(b, ops[0]), ops[1..])
  }

  /** Tokens granted by a run. */
  function Granted(b: Bucket, ops: seq<Op>): int
    decreases |ops|
  {
    if ops == [] then 0 else GrantedBy(b, ops[0]) + Granted(Apply(b, ops[0]), ops[1..])
  }

  /** The clock never goes back, and nobody asks for a negative number of tokens. */
  ghost predicate Sane(from: int, ops: seq<Op>) {
    && (forall i :: 0 <= i < |ops| ==> from <= ops[i].now && (ops[i].Attempt? ==> ops[i].n >= 0))
    && (forall i, j :: 0 <= i < j < |ops| ==> ops[i].now <= ops[j].now)
  }

  lemma AccruedIs(rate: real, dt: int)
    ensures Accrued(rate, dt) * 1_000_000_000.0 == rate * dt as real
  {
    var seconds := dt as real / SECOND as real;
    assert seconds * 1_000_000_000.0 == dt as real;
    assert seconds * rate * 1_000_000_000.0 == rate * (seconds * 1_000_000_000.0);
  }

  /** n tokens are granted if and only if neither burst nor what is left and has accrued at `rate` tokens in every
      1e9 nanoseconds falls short of n. */
  lemma GrantedIff(b: Bucket, now: int, n: int)
    ensures Take(b, now, n).1 <==>
              && n as real <= b.burst
              && n as real * 1_000_000_000.0 <= b.tokens * 1_000_000_000.0 + b.rate * (now - b.lastFill) as real
  {
    AccruedIs(b.rate, now - b.lastFill);
  }

  lemma AccruedAdds(rate: real, a: int, b: int)
    ensures Accrued(rate, a) + Accrued(rate, b) == Accrued(rate, a + b)
    ensures rate >= 0.0 && a <= b ==> Accrued(rate, a) <= Accrued(rate, b)
  {
    assert (a + b) as real / SECOND as real == a as real / SECOND as real + b as real / SECOND as real;
    if rate >= 0.0 && a <= b {
      assert a as real / SECOND as real <= b as real / SECOND as real;
      MulMonotone(a as real / SECOND as real, b as real / SECOND as real, rate);
    }
  }

  lemma MulMonotone(x: real, y: real, r: real)
    requires x <= y && r >= 0.0
    ensures x * r <= y * r
  {
    assert (y - x) * r >= 0.0;
  }

  lemma ApplyKeepsValid(b: Bucket, op: Op)
    requires Valid(b) && Sane(b.lastFill, [op])
    ensures Valid(Apply(b, op))
    ensures Apply(b, op).(tokens := 0.0, lastFill := 0) == b.(tokens := 0.0, lastFill := 0)
    ensures Apply(b, op).lastFill == op.now
    ensures GrantedBy(b, op) as real + Apply(b, op).tokens <= b.tokens + Accrued(b.rate, op.now - b.lastFill)
  {
    assert op == [op][0];
    AccruedAdds(b.rate, 0, op.now - b.lastFill);
    assert Accrued(b.rate, 0) == 0.0;
  }

  /** 0 <= tokens <= burst holds after every run. */
  lemma {:induction false} TokensStayBounded(b: Bucket, ops: seq<Op>)
    requires Valid(b) && Sane(b.lastFill, ops)
    ensures Valid(After(b, ops)) && After(b, ops).rate == b.rate && After(b, ops).burst == b.burst
    ensures After(b, ops).lastFill == if ops == [] then b.lastFill else ops[|ops| - 1].now
    decreases |ops|
  {
    if ops != [] {
      assert Sane(b.lastFill, [ops[0]]);
      ApplyKeepsValid(b, ops[0]);
      assert Sane(ops[0].now, ops[1..]);
      TokensStayBounded(Apply(b, ops[0]), ops[1..]);
    }
  }

  /** Tokens are only spent from what was there and what has accrued since. */
  lemma {:induction false} SpendingIsCovered(b: Bucket, ops: seq<Op>)
    requires Valid(b) && Sane(b.lastFill, ops) && ops != []
    ensures Granted(b, ops) as real + After(b, ops).tokens
              <= b.tokens + Accrued(b.rate, ops[|ops| - 1].now - b.lastFill)
    decreases |ops|
  {
    assert Sane(b.lastFill, [ops[0]]);
    ApplyKeepsValid(b, ops[0]);
    var b', rest := Apply(b, ops[0]), ops[1..];
    assert Sane(ops[0].now, rest);
    if rest == [] {
      assert Granted(b, ops) == GrantedBy(b, ops[0]);
    } else {
      SpendingIsCovered(b', rest);
      AccruedAdds(b.rate, ops[0].now - b.lastFill, rest[|rest| - 1].now - ops[0].now);
    }
  }

  lemma RefillTwice(b: Bucket, now: int)
    requires Valid(b) && b.lastFill <= now
    ensures Valid(Filled(b, now)) && Filled(Filled(b, now), now) == Filled(b, now)
  {
    ApplyKeepsValid(b, Peek(now));
    assert Accrued(b.rate, 0) == 0.0;
  }

  lemma {:induction false} WindowCovered(b: Bucket, ops: seq<Op>, i: nat, j: nat)
    requires Valid(b) && Sane(b.lastFill, ops) && i < j <= |ops|
    ensures Granted(After(b, ops[..i]), ops[i..j]) as real
              <= b.burst + Accrued(b.rate, ops[j - 1].now - ops[i].now)
  {
    assert Sane(b.lastFill, ops[..i]);
    TokensStayBounded(b, ops[..i]);
    var c, window, t := After(b, ops[..i]), ops[i..j], ops[i].now;
    RefillTwice(c, t);
    var full := Filled(c, t);
    assert Apply(full, window[0]) == Apply(c, window[0]) && GrantedBy(full, window[0]) == GrantedBy(c, window[0]);
    assert Granted(full, window) == Granted(c, window);
    assert Sane(t, window);
    SpendingIsCovered(full, window);
    assert Sane(c.lastFill, window);
    TokensStayBounded(full, window);
  }

  /** At most burst tokens and `rate` more for every 1e9 of dt nanoseconds. */
  ghost predicate WithinRate(granted: int, burst: real, rate: real, dt: int) {
    granted as real * 1_000_000_000.0 <= burst * 1_000_000_000.0 + rate * dt as real
  }

  lemma InNanoseconds(granted: int, burst: real, rate: real, dt: int)
    requires granted as real <= burst + Accrued(rate, dt)
    ensures WithinRate(granted, burst, rate, dt)
  {
    AccruedIs(rate, dt);
    Scaled(granted as real, burst, Accrued(rate, dt));
  }

  lemma Scaled(x: real, y: real, z: real)
    requires x <= y + z
    ensures x * 1_000_000_000.0 <= y * 1_000_000_000.0 + z * 1_000_000_000.0
  {
  }

  /** In every run, the tokens granted by the attempts i..j-1 (of AllowN and WaitN together) are at most burst plus
      `rate` for every 1e9 nanoseconds between the first and the last of them. */
  lemma {:induction false} WindowBound(b: Bucket, ops: seq<Op>, i: nat, j: nat)
    requires Valid(b) && Sane(b.lastFill, ops) && i < j <= |ops|
    ensures WithinRate(Granted(After(b, ops[..i]), ops[i..j]), b.burst, b.rate, ops[j - 1].now - ops[i].now)
  {
    WindowCovered(b, ops, i, j);
    InNanoseconds(Granted(After(b, ops[..i]), ops[i..j]), b.burst, b.rate, ops[j - 1].now - ops[i].now);
  }

  /** The guard n >= 0 is exactly what keeps the bucket within its bounds: AllowN(n) with n < 0 is
      granted and adds tokens, beyond burst when the bucket is full. */
  lemma BoundedIffNonnegative(n: int)
    ensures n >= 0 <==> forall b: Bucket, now: int :: Valid(b) && b.lastFill <= now ==> Valid(Take(b, now, n).0)
  {
    if n >= 0 {
      forall b: Bucket, now: int | Valid(b) && b.lastFill <= now ensures Valid(Take(b, now, n).0) {
        ApplyKeepsValid(b, Attempt(now, n));
      }
    } else {
      var full := Bucket(1.0, 1.0, 1.0, 0);
      assert Valid(full) && Filled(full, 0).tokens == 1.0;
      assert !Valid(Take(full, 0, n).0);
    }
  }

  // ------------------------------------------------------------------ WaitN

  /** How one sleep of WaitN ends: the context is cancelled, or the timer fires `late` ns late. */
  datatype Wake = Cancelled | Fired(late: nat)

  datatype WaitResult = Ok | CtxError | StillWaiting

  /** How long WaitN sleeps when it is `need` tokens short: truncated to whole nanoseconds, at least 1ms. */
  function WaitDur(need: real, rate: real): (d: int)
    requires rate > 0.0
    ensures d >= MILLISECOND
  {
    var d := ((need / rate) * SECOND as real).Floor;
    if d < MILLISECOND then MILLISECOND else d
  }

  /** The same for every rate.  At rate 0 the source converts an infinite float to a duration, whose value Go leaves to
      the platform: `infinite`. */
  function SleepDur(need: real, rate: real, infinite: int): (d: int)
    ensures d >= MILLISECOND
  {
    if rate > 0.0 then WaitDur(need, rate) else if infinite < MILLISECOND then MILLISECOND else infinite
  }

  /** After the computed sleep, less than one nanosecond's worth of tokens is missing. */
  lemma SleepLeavesUnderANanosecond(need: real, rate: real, late: nat)
    requires rate > 0.0 && need > 0.0
    ensures need - Accrued(rate, WaitDur(need, rate) + late) < Accrued(rate, 1)
  {
    var x := need / rate;
    assert x * rate == need;
    var d := (x * SECOND as real).Floor;
    AccruedAdds(rate, d, WaitDur(need, rate) + late);
    AccruedAdds(rate, d, 1);
    FloorExceeds(x, d, rate);
  }

  /** WaitN sleeps no longer than the missing tokens take to accrue, but for the least sleep of a millisecond. */
  lemma SleepIsNoLonger(need: real, rate: real)
    requires rate > 0.0
    ensures WaitDur(need, rate) >= 1_000_000
    ensures WaitDur(need, rate) > 1_000_000 ==> WaitDur(need, rate) as real * rate <= need * 1_000_000_000.0
  {
    var x := need / rate;
    assert x * rate == need;
    var d := (x * SECOND as real).Floor;
    MulMonotone(d as real, x * 1_000_000_000.0, rate);
    assert x * 1_000_000_000.0 * rate == x * rate * 1_000_000_000.0;
  }

  lemma FloorExceeds(x: real, d: int, rate: real)
    requires d == (x * SECOND as real).Floor && rate > 0.0
    ensures x * rate < Accrued(rate, d + 1)
  {
    var y := (d + 1) as real / SECOND as real;
    assert y > x;
    MulStrict(x, y, rate);
  }

  lemma MulStrict(x: real, y: real, r: real)
    requires x < y && r > 0.0
    ensures x * r < y * r
  {
    assert (y - x) * r > 0.0;
  }

  lemma PollCoversANanosecond(rate: real, dt: int)
    requires rate > 0.0 && dt >= MILLISECOND
    ensures Accrued(rate, dt) >= Accrued(rate, 1) > 0.0
  {
    AccruedAdds(rate, 1, dt);
    MulStrict(0.0, 1.0 / SECOND as real, rate);
  }

  /** The bucket at the k-th look of WaitN that finds too few tokens, nobody else taking any. */
  ghost predicate Missing(b: Bucket, n: int, k: nat) {
    && b.tokens < n as real
    && (k == 1 ==> n as real - b.tokens < Accrued(b.rate, 1))
    && k < 2
  }

  /** One sleep brings the shortfall under a nanosecond, a second one covers it. */
  lemma SleepMakesProgress(b: Bucket, n: int, k: nat, late: nat)
    requires Valid(b) && b.rate > 0.0 && Missing(b, n, k) && n as real <= b.burst
    ensures var next := Filled(b, b.lastFill + WaitDur(n as real - b.tokens, b.rate) + late);
            next.tokens < n as real ==> Missing(next, n, k + 1)
  {
    var d := WaitDur(n as real - b.tokens, b.rate);
    if k == 0 {
      SleepLeavesUnderANanosecond(n as real - b.tokens, b.rate, late);
    } else {
      PollCoversANanosecond(b.rate, d + late);
    }
  }

  class Limiter {
    const rate: real
    const burst: real
    var tokens: real
    var lastFill: int

    ghost function View(): Bucket
      reads this
    {
      Bucket(rate, burst, tokens, lastFill)
    }

    constructor (rate: real, burst: int, now: int)
      ensures View() == New(rate, burst, now)
    {
      this.rate := rate;
      this.burst := burst as real;
      tokens, lastFill := burst as real, now;
    }

    method Refill(now: int)
      modifies this
      ensures View() == Filled(old(View()), now)
    {
      var elapsed := (now - lastFill) as real / SECOND as real;
      tokens := Min(burst, tokens + elapsed * rate);
      lastFill := now;
    }

    method AllowN(now: int, n: int) returns (ok: bool)
      modifies this
      ensures (View(), ok) == Take(old(View()), now, n)
    {
      Refill(now);
      if tokens < n as real {
        return false;
      }
      tokens := tokens - n as real;
      return true;
    }

    /** One look of WaitN under the mutex: take n tokens, or say how many are missing. */
    method Look(now: int, n: int) returns (ok: bool, need: real)
      requires Valid(View()) && lastFill <= now
      modifies this
      ensures lastFill == now && (n >= 0 ==> Valid(View()))
      ensures (View(), ok) == Take(old(View()), now, n)
      ensures !ok ==> View() == Filled(View(), now) == Filled(old(View()), now) && need == n as real - tokens && n > 0
    {
      RefillTwice(View(), now);
      Refill(now);
      need := n as real - tokens;
      ok := tokens >= n as real;
      if ok {
        tokens := tokens - n as real;
      }
    }

    /** WaitN from clock `start`, its sleeps ending as `wakes` says; StillWaiting if they run out.  With no competing
        taker it is granted after at most two sleeps when the rate is positive and n <= burst, at once or never when the
        rate is zero, and never when n > burst.  `ops` are the attempts it made. */
    method WaitN(start: int, n: int, wakes: seq<Wake>, infinite: int)
      returns (result: WaitResult, sleeps: nat, ghost ops: seq<Op>)
      requires Valid(View()) && lastFill <= start
      modifies this
      ensures n >= 0 ==> Valid(View()) && Sane(old(lastFill), ops)
      ensures View() == After(old(View()), ops)
      ensures Granted(old(View()), ops) == if result.Ok? then n else 0
      ensures sleeps <= |wakes| && (forall i :: 0 <= i < sleeps ==> wakes[i].Fired?)
      ensures result.CtxError? <==> sleeps < |wakes| && wakes[sleeps].Cancelled? && !result.Ok?
      ensures result.StillWaiting? ==> sleeps == |wakes|
      ensures rate > 0.0 && n as real <= burst ==> sleeps <= 2 && (sleeps == 2 ==> result.Ok?)
      ensures rate == 0.0 ==> (result.Ok? <==> old(tokens) >= n as real) && (result.Ok? ==> sleeps == 0)
      ensures n <= 0 ==> result.Ok? && sleeps == 0
      ensures n as real > burst ==> !result.Ok?
    {
      var now := start;
      sleeps, ops := 0, [];
      ghost var b0 := View();
      while true
        invariant Valid(View()) && lastFill <= now
        invariant Waiting(b0, ops, View(), now)
        invariant sleeps <= |wakes| && (forall i :: 0 <= i < sleeps ==> wakes[i].Fired?)
        invariant sleeps > 0 ==> n > 0
        invariant rate == 0.0 ==> tokens == b0.tokens && (sleeps > 0 ==> tokens < n as real)
        invariant rate > 0.0 && n as real <= burst ==> sleeps <= 2
        invariant sleeps > 0 && rate > 0.0 && n as real <= burst && Filled(View(), now).tokens < n as real ==>
                    Missing(Filled(View(), now), n, sleeps)
        decreases |wakes| - sleeps
      {
        LookExtends(b0, ops, View(), now, n);
        NoAccrual(View(), now);
        ops := ops + [Attempt(now, n)];
        var ok, need := Look(now, n);
        if ok {
          return Ok, sleeps, ops;
        }
        var dur := SleepDur(need, rate, infinite);
        if sleeps == |wakes| {
          return StillWaiting, sleeps, ops;
        }
        if wakes[sleeps].Cancelled? {
          return CtxError, sleeps, ops;
        }
        if rate > 0.0 && n as real <= burst { SleepMakesProgress(View(), n, sleeps, wakes[sleeps].late); }
        now := now + dur + wakes[sleeps].late;
        sleeps := sleeps + 1;
      }
    }
  }

  /** At rate 0 a bucket never fills. */
  lemma NoAccrual(b: Bucket, now: int)
    requires Valid(b)
    ensures b.rate == 0.0 ==> Filled(b, now).tokens == b.tokens
  {
    assert b.rate == 0.0 ==> Accrued(b.rate, now - b.lastFill) == 0.0;
  }

  /** The attempts so far were all refused and have left the bucket at b. */
  ghost predicate Waiting(b0: Bucket, ops: seq<Op>, b: Bucket, now: int) {
    && Sane(b0.lastFill, ops) && b == After(b0, ops) && Granted(b0, ops) == 0
    && b0.lastFill <= now && forall i :: 0 <= i < |ops| ==> ops[i].now <= now
  }

  lemma LookExtends(b0: Bucket, ops: seq<Op>, b: Bucket, now: int, n: int)
    requires Waiting(b0, ops, b, now)
    ensures var ops', t := ops + [Attempt(now, n)], Take(b, now, n);
            && (n >= 0 ==> Sane(b0.lastFill, ops')) && t.0 == After(b0, ops')
            && Granted(b0, ops') == (if t.1 then n else 0)
            && (!t.1 && n >= 0 ==> forall later :: later >= now ==> Waiting(b0, ops', t.0, later))
  {
    AppendOp(b0, ops, Attempt(now, n));
  }

  lemma {:induction false} AppendOp(b: Bucket, ops: seq<Op>, op: Op)
    ensures After(b, ops + [op]) == Apply(After(b, ops), op)
    ensures Granted(b, ops + [op]) == Granted(b, ops) + GrantedBy(After(b, ops), op)
    decreases |ops|
  {
    if ops != [] {
      assert (ops + [op])[1..] == ops[1..] + [op];
      AppendOp(Apply(b, ops[0]), ops[1..], op);
    }
  }
}
