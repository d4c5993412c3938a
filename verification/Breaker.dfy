/** pkg/circuitbreaker/breaker.go: the breaker as a mutex-protected object, and its state as a function
    of the log of atomic calls that any number of callers made on it, in the order they took the mutex. */
module Breaker {

  datatype State = Closed | Open | HalfOpen

  datatype Config = Config(failureThreshold: int, successThreshold: int, openTimeout: int)

  /** One call that held the mutex, with the clock it read: allow, record(err), State or Reset.  `id` is that of the
      Execute call whose allow or record it is. */
  datatype Event =
    | Allow(now: int, id: nat)
    | Record(now: int, ok: bool, id: nat)
    | Query(now: int)
    | Reset

  /** The fields of the breaker. */
  datatype Fields = Fields(state: State, failures: int, probes: int, openedAt: int)

  const Initial := Fields(Closed, 0, 0, 0)

  function Max(a: int, b: int): int { if a < b then b else a }

  /** maybeTransitionFromOpen */
  function Wake(cfg: Config, b: Fields, now: int): Fields {
    if b.state == Open && now - b.openedAt >= cfg.openTimeout then b.(state := HalfOpen) else b
  }

  function RecordResult(cfg: Config, b: Fields, now: int, ok: bool): Fields {
    match b.state
    case Closed =>
      if ok then b.(failures := 0)
      else if b.failures + 1 >= cfg.failureThreshold
      then b.(failures := b.failures + 1, openedAt := now, state := Open)
      else b.(failures := b.failures + 1)
    case HalfOpen =>
      if !ok then Fields(Open, 0, 0, now)
      else if b.probes + 1 >= cfg.successThreshold then b.(failures := 0, probes := 0, state := Closed)
      else b.(probes := b.probes + 1)
    case Open => b
  }

  function Step(cfg: Config, b: Fields, e: Event): Fields {
    match e
    case Allow(now, _) => Wake(cfg, b, now)
    case Query(now) => Wake(cfg, b, now)
    case Record(now, ok, _) => RecordResult(cfg, b, now, ok)
    case Reset => b.(state := Closed, failures := 0, probes := 0)
  }

  /** The fields after a log of calls. */
  function After(cfg: Config, b: Fields, log: seq<Event>): Fields {
    if log == [] then b else Step(cfg, After(cfg, b, log[..|log| - 1]), log[|log| - 1])
  }

  /** allow() on a breaker with these fields returns nil. */
  predicate Grants(cfg: Config, b: Fields, now: int) {
    Wake(cfg, b, now).state != Open
  }

  // ------------------------------------------------------------------ reading the log

  /** Failures recorded at the end of the log with no success and no Reset after them. */
  ghost function Streak(log: seq<Event>): nat {
    if log == [] then 0
    else match log[|log| - 1]
         case Record(_, ok, _) => if ok then 0 else Streak(log[..|log| - 1]) + 1
         case Reset => 0
         case _ => Streak(log[..|log| - 1])
  }

  ghost function Successes(log: seq<Event>): nat {
    if log == [] then 0
    else Successes(log[..|log| - 1]) + (if log[|log| - 1].Record? && log[|log| - 1].ok then 1 else 0)
  }

  /** A phase of the breaker: its state, the number of calls after which it was entered, and, for
      Open, the clock of the failure that opened it. */
  datatype Phase = Phase(state: State, entry: nat, since: int)

  /** The phase a log ends in, from the log alone: no counter is kept, the calls since the phase was
      entered are consulted instead. */
  ghost function PhaseOf(cfg: Config, log: seq<Event>): (p: Phase)
    ensures p.entry <= |log|
  {
    if log == [] then Phase(Closed, 0, 0)
    else
      var p := PhaseOf(cfg, log[..|log| - 1]);
      var e := log[|log| - 1];
      var calls := log[p.entry..];
      match p.state
      case Closed =>
        if Streak(calls) >= Max(1, cfg.failureThreshold) then Phase(Open, |log|, e.now) else p
      case Open =>
        if e.Reset? then Phase(Closed, |log|, 0)
        else if !e.Record? && e.now - p.since >= cfg.openTimeout then Phase(HalfOpen, |log|, 0)
        else p
      case HalfOpen =>
        if e.Reset? then Phase(Closed, |log|, 0)
        else if e.Record? && !e.ok then Phase(Open, |log|, e.now)
        else if Successes(calls) >= Max(1, cfg.successThreshold) then Phase(Closed, |log|, 0)
        else p
  }

  /** The fields agree with the phase: failures is the streak since Closed was entered, probes the
      successes since HalfOpen was entered, openedAt the failure that opened the breaker. */
  ghost predicate Agrees(cfg: Config, b: Fields, p: Phase, log: seq<Event>)
    requires p.entry <= |log|
  {
    && b.state == p.state
    && (p.state == Closed ==> b.failures == Streak(log[p.entry..]) < Max(1, cfg.failureThreshold) && b.probes == 0)
    && (p.state == Open ==> b.openedAt == p.since && b.probes == 0)
    && (p.state == HalfOpen ==> b.probes == Successes(log[p.entry..]) < Max(1, cfg.successThreshold))
  }

  lemma StreakExtends(log: seq<Event>, entry: nat)
    requires entry < |log|
    ensures log[entry..][..|log| - entry - 1] == log[..|log| - 1][entry..]
    ensures log[entry..][|log| - entry - 1] == log[|log| - 1]
  {
  }

  /** For every log, in whatever order the callers' calls were served, the breaker's fields are
      determined by the log through PhaseOf. */
  lemma {:induction false} StateIsFunctionOfLog(cfg: Config, log: seq<Event>)
    ensures Agrees(cfg, After(cfg, Initial, log), PhaseOf(cfg, log), log)
    decreases |log|
  {
    if log != [] {
      var init := log[..|log| - 1];
      StateIsFunctionOfLog(cfg, init);
      StreakExtends(log, PhaseOf(cfg, init).entry);
      assert log[|log|..] == [];
    }
  }

  // ------------------------------------------------------------------ what callers can rely on

  ghost predicate AllOk(calls: seq<Event>) {
    forall i :: 0 <= i < |calls| ==> !calls[i].Reset? && (calls[i].Record? ==> calls[i].ok)
  }

  lemma OneMoreCall(calls: seq<Event>, e: Event)
    requires AllOk(calls)
    ensures AllOk(calls + [e]) <==> !e.Reset? && (e.Record? ==> e.ok)
    ensures Successes(calls + [e]) == Successes(calls) + (if e.Record? && e.ok then 1 else 0)
  {
    assert (calls + [e])[..|calls|] == calls;
    assert (calls + [e])[|calls|] == e;
  }

  /** A log that ends in HalfOpen has just entered it, or was there and its last event was no failure or Reset. */
  lemma StaysHalfOpen(cfg: Config, log: seq<Event>)
    requires log != [] && PhaseOf(cfg, log).state == HalfOpen
    ensures var p, e := PhaseOf(cfg, log[..|log| - 1]), log[|log| - 1];
            if p.state == HalfOpen
            then PhaseOf(cfg, log).entry == p.entry < |log| && !e.Reset? && (e.Record? ==> e.ok)
            else PhaseOf(cfg, log).entry == |log|
  {
  }

  /** While a log stays HalfOpen, no failure and no Reset has been recorded since it was entered. */
  lemma {:induction false} HalfOpenSawNoFailure(cfg: Config, log: seq<Event>)
    requires PhaseOf(cfg, log).state == HalfOpen
    ensures AllOk(log[PhaseOf(cfg, log).entry..])
    decreases |log|
  {
    StaysHalfOpen(cfg, log);
    var init, e := log[..|log| - 1], log[|log| - 1];
    var p := PhaseOf(cfg, init);
    if p.state == HalfOpen {
      HalfOpenSawNoFailure(cfg, init);
      OneMoreCall(init[p.entry..], e);
      assert log[p.entry..] == init[p.entry..] + [e];
    } else {
      assert log[|log|..] == [];
    }
  }

  /** The breaker trips exactly when a failure is recorded in Closed and it is the
      max(1, failureThreshold)-th in a row since Closed was entered. */
  lemma {:induction false} TripsExactly(cfg: Config, log: seq<Event>, e: Event)
    requires After(cfg, Initial, log).state == Closed
    ensures After(cfg, Initial, log + [e]).state == Open <==>
              && e.Record? && !e.ok
              && Streak(log[PhaseOf(cfg, log).entry..] + [e]) == Max(1, cfg.failureThreshold)
    ensures After(cfg, Initial, log + [e]).state != HalfOpen
  {
    StateIsFunctionOfLog(cfg, log);
    assert (log + [e])[..|log|] == log;
    var calls := log[PhaseOf(cfg, log).entry..];
    assert (calls + [e])[..|calls|] == calls;
  }

  lemma AfterOne(cfg: Config, b: Fields, log: seq<Event>, e: Event)
    ensures After(cfg, b, log + [e]) == Step(cfg, After(cfg, b, log), e)
  {
    assert (log + [e])[..|log|] == log;
  }

  /** From HalfOpen, the breaker re-opens exactly on a failure, and closes exactly on a Reset or on the
      max(1, successThreshold)-th success since HalfOpen was entered, with no failure in between. */
  lemma {:induction false} LeavesHalfOpenExactly(cfg: Config, log: seq<Event>, e: Event)
    requires After(cfg, Initial, log).state == HalfOpen
    ensures var calls := log[PhaseOf(cfg, log).entry..];
            && (After(cfg, Initial, log + [e]).state == Open <==> e.Record? && !e.ok)
            && (After(cfg, Initial, log + [e]).state == Closed <==>
                  e.Reset? || (AllOk(calls + [e]) && e.Record? && Successes(calls + [e]) == Max(1, cfg.successThreshold)))
  {
    StateIsFunctionOfLog(cfg, log);
    HalfOpenSawNoFailure(cfg, log);
    AfterOne(cfg, Initial, log, e);
    OneMoreCall(log[PhaseOf(cfg, log).entry..], e);
  }

  ghost predicate Before(deadline: int, calls: seq<Event>) {
    forall i :: 0 <= i < |calls| ==> !calls[i].Reset? && calls[i].now < deadline
  }

  lemma {:induction false} StaysOpen(cfg: Config, b: Fields, calls: seq<Event>)
    requires b.state == Open && Before(b.openedAt + cfg.openTimeout, calls)
    ensures After(cfg, b, calls) == b
    decreases |calls|
  {
    if calls != [] { StaysOpen(cfg, b, calls[..|calls| - 1]); }
  }

  lemma {:induction false} AfterAppend(cfg: Config, b: Fields, a: seq<Event>, c: seq<Event>)
    ensures After(cfg, b, a + c) == After(cfg, After(cfg, b, a), c)
    decreases |c|
  {
    if c == [] {
      assert a + c == a;
    } else {
      assert (a + c)[..|a + c| - 1] == a + c[..|c| - 1];
      AfterAppend(cfg, b, a, c[..|c| - 1]);
    }
  }

  /** Once the failure e has opened the breaker, whatever calls follow, allow() is refused until
      openTimeout has passed unless Reset was called; and from then on it is granted. */
  lemma {:induction false} NoGrantWithinTimeout(cfg: Config, log: seq<Event>, e: Event, calls: seq<Event>, now: int)
    requires After(cfg, Initial, log).state != Open && After(cfg, Initial, log + [e]).state == Open
    requires Before(e.now + cfg.openTimeout, calls)
    ensures e.Record?
    ensures Grants(cfg, After(cfg, Initial, log + [e] + calls), now) <==> now >= e.now + cfg.openTimeout
  {
    assert (log + [e])[..|log|] == log;
    var b := After(cfg, Initial, log + [e]);
    StaysOpen(cfg, b, calls);
    AfterAppend(cfg, Initial, log + [e], calls);
  }

  /** After every log, allow() is granted in Closed and in HalfOpen, and in Open if and only if openTimeout has passed
      since the failure that opened it. */
  lemma GrantedIff(cfg: Config, log: seq<Event>, now: int)
    ensures Grants(cfg, After(cfg, Initial, log), now) <==>
              match PhaseOf(cfg, log).state
              case Closed => true
              case HalfOpen => true
              case Open => now >= PhaseOf(cfg, log).since + cfg.openTimeout
  {
    StateIsFunctionOfLog(cfg, log);
  }

  // ------------------------------------------------------------------ whose successes close the breaker

  /** The i-th event is an allow that was granted. */
  ghost predicate GrantedAt(cfg: Config, log: seq<Event>, i: nat)
    requires i < |log|
  {
    log[i].Allow? && Grants(cfg, After(cfg, Initial, log[..i]), log[i].now)
  }

  ghost predicate GrantedTo(cfg: Config, log: seq<Event>, i: nat, id: nat)
    requires i < |log|
  {
    GrantedAt(cfg, log, i) && log[i].id == id
  }

  ghost predicate Recorded(log: seq<Event>, id: nat) {
    exists j :: 0 <= j < |log| && log[j].Record? && log[j].id == id
  }

  /** The log of Execute calls: each allows once, and records once, after its allow was granted. */
  ghost predicate Legal(cfg: Config, log: seq<Event>) {
    && (forall i, j :: 0 <= i < j < |log| && log[i].Allow? && log[j].Allow? ==> log[i].id != log[j].id)
    && (forall i, j :: 0 <= i < j < |log| && log[i].Record? && log[j].Record? ==> log[i].id != log[j].id)
    && (forall j :: 0 <= j < |log| && log[j].Record? ==> exists i: nat :: i < j && GrantedTo(cfg, log, i, log[j].id))
  }

  /** The call has been let through and has not recorded its result. */
  ghost predicate Outstanding(cfg: Config, log: seq<Event>, id: nat) {
    (exists i: nat :: i < |log| && GrantedTo(cfg, log, i, id)) && !Recorded(log, id)
  }

  /** Granted before the last event of the log, and not recorded by then. */
  ghost predicate Stale(cfg: Config, log: seq<Event>, id: nat) {
    log != [] && Outstanding(cfg, log[..|log| - 1], id)
  }

  /** The last event of the log has moved the breaker to HalfOpen. */
  ghost predicate Enters(cfg: Config, log: seq<Event>) {
    log != [] && PhaseOf(cfg, log) == Phase(HalfOpen, |log|, 0)
  }

  /** All events of c are served in the HalfOpen phase that the log has just entered. */
  ghost predicate InPhase(cfg: Config, log: seq<Event>, c: seq<Event>) {
    forall k: nat :: k < |c| ==> StillIn(cfg, log, c, k)
  }

  ghost predicate StillIn(cfg: Config, log: seq<Event>, c: seq<Event>, k: nat)
    requires k <= |c|
  {
    PhaseOf(cfg, log + c[..k]) == PhaseOf(cfg, log)
  }

  /** The call was granted by the event that entered HalfOpen or a later one. */
  ghost predicate GrantedSince(cfg: Config, log: seq<Event>, entry: nat, id: nat) {
    exists i: nat :: entry <= i + 1 && i < |log| && GrantedTo(cfg, log, i, id)
  }

  /** Every success that c records is that of a call granted since HalfOpen was entered. */
  ghost predicate OwnSuccesses(cfg: Config, log: seq<Event>, c: seq<Event>) {
    forall j :: 0 <= j < |c| && c[j].Record? && c[j].ok ==> GrantedSince(cfg, log + c, |log|, c[j].id)
  }

  lemma GrantedInPrefix(cfg: Config, log: seq<Event>, n: nat, i: nat, id: nat)
    requires i < n <= |log|
    ensures GrantedTo(cfg, log[..n], i, id) <==> GrantedTo(cfg, log, i, id)
  {
    assert log[..n][..i] == log[..i];
  }

  /** A call that records after entry, but was not granted since, was outstanding at entry. */
  lemma StaleWasOutstanding(cfg: Config, log: seq<Event>, c: seq<Event>, j: nat)
    requires Enters(cfg, log) && Legal(cfg, log + c) && j < |c| && c[j].Record?
    ensures GrantedSince(cfg, log + c, |log|, c[j].id) || Stale(cfg, log, c[j].id)
  {
    var all, n, id := log + c, |log| - 1, c[j].id;
    assert all[|log| + j] == c[j];
    var i: nat :| i < |log| + j && GrantedTo(cfg, all, i, id);
    if i < n {
      GrantedInPrefix(cfg, all, n, i, id);
      assert all[..n] == log[..n];
      forall k | 0 <= k < n && log[..n][k].Record? ensures log[..n][k].id != id {
        assert all[k] == log[k];
      }
    }
  }

  lemma EntersByAsking(cfg: Config, log: seq<Event>)
    requires Enters(cfg, log)
    ensures !log[|log| - 1].Record?
  {
  }

  /** The success of a call outstanding at entry can be the next event, and counts. */
  lemma StaleSuccessIsLegal(cfg: Config, log: seq<Event>, id: nat, now: int)
    requires Legal(cfg, log) && Enters(cfg, log) && Stale(cfg, log, id)
    ensures Legal(cfg, log + [Record(now, true, id)])
    ensures InPhase(cfg, log, [Record(now, true, id)])
    ensures !OwnSuccesses(cfg, log, [Record(now, true, id)])
  {
    var c := [Record(now, true, id)];
    var n := |log| - 1;
    var i: nat :| i < n && GrantedTo(cfg, log[..n], i, id);
    EntersByAsking(cfg, log);
    GrantedInPrefix(cfg, log, n, i, id);
    RecordIsLegal(cfg, log, i, Record(now, true, id));
    assert log + c[..0] == log;
    forall k: nat | |log| <= k + 1 && k < |log + c| ensures !GrantedTo(cfg, log + c, k, id) {
      assert k == n ==> (log + c)[k] == log[n];
    }
    assert c[0].Record? && c[0].ok;
  }

  lemma RecordIsLegal(cfg: Config, log: seq<Event>, i: nat, e: Event)
    requires Legal(cfg, log) && e.Record? && i < |log| && GrantedTo(cfg, log, i, e.id) && !Recorded(log, e.id)
    ensures Legal(cfg, log + [e])
  {
    var all := log + [e];
    assert all[..|log|] == log;
    forall j | 0 <= j < |all| && all[j].Record?
      ensures exists k: nat :: k < j && GrantedTo(cfg, all, k, all[j].id)
    {
      var k: nat :| k < j && k < |log| && GrantedTo(cfg, log, k, all[j].id);
      GrantedInPrefix(cfg, all, |log|, k, all[j].id);
    }
  }

  /** The successes counted in HalfOpen are its own probes', in every continuation, if and only if no call granted
      before it was entered was still unrecorded then. */
  lemma OwnProbesIff(cfg: Config, log: seq<Event>)
    requires Legal(cfg, log) && Enters(cfg, log)
    ensures (forall c: seq<Event> :: Legal(cfg, log + c) && InPhase(cfg, log, c) ==> OwnSuccesses(cfg, log, c)) <==>
            (forall id :: !Stale(cfg, log, id))
  {
    if id :| Stale(cfg, log, id) {
      StaleSuccessIsLegal(cfg, log, id, 0);
    } else {
      forall c: seq<Event> | Legal(cfg, log + c) && InPhase(cfg, log, c) ensures OwnSuccesses(cfg, log, c) {
        forall j | 0 <= j < |c| && c[j].Record? && c[j].ok ensures GrantedSince(cfg, log + c, |log|, c[j].id) {
          StaleWasOutstanding(cfg, log, c, j);
        }
      }
    }
  }

  /** The calls whose successes are recorded in c. */
  ghost function Succeeded(c: seq<Event>): set<nat> {
    set j | 0 <= j < |c| && c[j].Record? && c[j].ok :: c[j].id
  }

  /** Calls that record once each are as many as their successes. */
  lemma {:induction false} SuccessesAreCalls(c: seq<Event>)
    requires forall i, j :: 0 <= i < j < |c| && c[i].Record? && c[j].Record? ==> c[i].id != c[j].id
    ensures |Succeeded(c)| == Successes(c)
    decreases |c|
  {
    if c != [] {
      var init, e := c[..|c| - 1], c[|c| - 1];
      SuccessesAreCalls(init);
      if e.Record? && e.ok {
        assert Succeeded(c) == Succeeded(init) + {e.id} by {
          forall id | id in Succeeded(c) ensures id in Succeeded(init) + {e.id} {
            var j :| 0 <= j < |c| && c[j].Record? && c[j].ok && c[j].id == id;
            assert j < |init| ==> init[j] == c[j];
          }
          forall id | id in Succeeded(init) ensures id in Succeeded(c) {
            var j :| 0 <= j < |init| && init[j].Record? && init[j].ok && init[j].id == id;
            assert c[j] == init[j];
          }
        }
        assert e.id !in Succeeded(init);
      } else {
        assert Succeeded(c) == Succeeded(init) by {
          forall id | id in Succeeded(c) ensures id in Succeeded(init) {
            var j :| 0 <= j < |c| && c[j].Record? && c[j].ok && c[j].id == id;
            assert init[j] == c[j];
          }
          forall id | id in Succeeded(init) ensures id in Succeeded(c) {
            var j :| 0 <= j < |init| && init[j].Record? && init[j].ok && init[j].id == id;
            assert c[j] == init[j];
          }
        }
      }
    }
  }

  /** If nothing was outstanding when HalfOpen was entered, the breaker closes, Reset aside, only after
      max(1, successThreshold) different calls granted since then have succeeded. */
  lemma ClosedByOwnProbes(cfg: Config, log: seq<Event>, c: seq<Event>)
    requires Enters(cfg, log) && forall id :: !Stale(cfg, log, id)
    requires Legal(cfg, log + c) && InPhase(cfg, log, c)
    requires c != [] && !c[|c| - 1].Reset? && After(cfg, Initial, log + c).state == Closed
    ensures |Succeeded(c)| == Max(1, cfg.successThreshold)
    ensures forall id :: id in Succeeded(c) ==> GrantedSince(cfg, log + c, |log|, id)
  {
    SuccessesAtClose(cfg, log, c);
    assert forall j :: 0 <= j < |c| ==> (log + c)[|log| + j] == c[j];
    SuccessesAreCalls(c);
    forall id | id in Succeeded(c) ensures GrantedSince(cfg, log + c, |log|, id) {
      var j: nat :| j < |c| && c[j].Record? && c[j].ok && c[j].id == id;
      StaleWasOutstanding(cfg, log, c, j);
    }
  }

  lemma LastApart(log: seq<Event>, c: seq<Event>)
    requires c != []
    ensures log + c[..|c| - 1] + [c[|c| - 1]] == log + c
    ensures (log + c[..|c| - 1])[|log|..] == c[..|c| - 1] && c[..|c| - 1] + [c[|c| - 1]] == c
  {
  }

  lemma SuccessesAtClose(cfg: Config, log: seq<Event>, c: seq<Event>)
    requires Enters(cfg, log) && InPhase(cfg, log, c)
    requires c != [] && !c[|c| - 1].Reset? && After(cfg, Initial, log + c).state == Closed
    ensures Successes(c) == Max(1, cfg.successThreshold)
  {
    var before, init, e := log + c[..|c| - 1], c[..|c| - 1], c[|c| - 1];
    assert PhaseOf(cfg, before) == Phase(HalfOpen, |log|, 0) by {
      assert StillIn(cfg, log, c, |c| - 1);
    }
    LastApart(log, c);
    ClosesAt(cfg, before, |log|, init, e);
  }

  lemma ClosesAt(cfg: Config, log: seq<Event>, entry: nat, calls: seq<Event>, e: Event)
    requires entry <= |log| && PhaseOf(cfg, log) == Phase(HalfOpen, entry, 0) && calls == log[entry..]
    requires !e.Reset? && After(cfg, Initial, log + [e]).state == Closed
    ensures Successes(calls + [e]) == Max(1, cfg.successThreshold)
  {
    StateIsFunctionOfLog(cfg, log);
    LeavesHalfOpenExactly(cfg, log, e);
  }

  /** The successes of the calls, recorded one after the other. */
  ghost function Late(ids: seq<nat>, now: int): seq<Event> {
    seq(|ids|, k requires 0 <= k < |ids| => Record(now, true, ids[k]))
  }

  lemma StillOutstanding(cfg: Config, log: seq<Event>, ids: seq<nat>, now: int, id: nat)
    requires Enters(cfg, log) && Stale(cfg, log, id) && id !in ids
    ensures Outstanding(cfg, log + Late(ids, now), id)
  {
    var n, all := |log| - 1, log + Late(ids, now);
    EntersByAsking(cfg, log);
    var i: nat :| i < n && GrantedTo(cfg, log[..n], i, id);
    assert all[..n] == log[..n];
    GrantedInPrefix(cfg, all, n, i, id);
    forall j | 0 <= j < |all| && all[j].Record? ensures all[j].id != id {
      if j < n {
        assert all[j] == log[..n][j];
      } else if j >= |log| {
        assert all[j] == Late(ids, now)[j - |log|] && ids[j - |log|] in ids;
      }
    }
  }

  lemma {:induction false} LateIsLegal(cfg: Config, log: seq<Event>, ids: seq<nat>, now: int)
    requires Legal(cfg, log) && Enters(cfg, log)
    requires forall k :: 0 <= k < |ids| ==> Stale(cfg, log, ids[k])
    requires forall k, l :: 0 <= k < l < |ids| ==> ids[k] != ids[l]
    ensures Legal(cfg, log + Late(ids, now))
    decreases |ids|
  {
    if ids == [] {
      assert log + Late(ids, now) == log;
    } else {
      var init, id := ids[..|ids| - 1], ids[|ids| - 1];
      LateIsLegal(cfg, log, init, now);
      var before := log + Late(init, now);
      assert log + Late(ids, now) == before + [Record(now, true, id)];
      StillOutstanding(cfg, log, init, now, id);
      var i: nat :| i < |before| && GrantedTo(cfg, before, i, id);
      RecordIsLegal(cfg, before, i, Record(now, true, id));
    }
  }

  lemma {:induction false} LateCounts(cfg: Config, b: Fields, ids: seq<nat>, now: int)
    requires b.state == HalfOpen && b.probes == 0 && |ids| <= Max(1, cfg.successThreshold)
    ensures var b' := After(cfg, b, Late(ids, now));
            if |ids| == Max(1, cfg.successThreshold) then b'.state == Closed else b'.state == HalfOpen && b'.probes == |ids|
    decreases |ids|
  {
    if ids != [] {
      LateCounts(cfg, b, ids[..|ids| - 1], now);
      assert Late(ids, now)[..|ids| - 1] == Late(ids[..|ids| - 1], now);
    }
  }

  /** Otherwise any max(1, successThreshold) calls that were outstanding at entry close it between them, with no call
      granted in HalfOpen. */
  lemma StaleSuccessesClose(cfg: Config, log: seq<Event>, ids: seq<nat>, now: int)
    requires Legal(cfg, log) && Enters(cfg, log)
    requires forall k :: 0 <= k < |ids| ==> Stale(cfg, log, ids[k])
    requires forall k, l :: 0 <= k < l < |ids| ==> ids[k] != ids[l]
    requires |ids| == Max(1, cfg.successThreshold)
    ensures Legal(cfg, log + Late(ids, now)) && After(cfg, Initial, log + Late(ids, now)).state == Closed
  {
    LateIsLegal(cfg, log, ids, now);
    StateIsFunctionOfLog(cfg, log);
    assert log[|log|..] == [];
    LateCounts(cfg, After(cfg, Initial, log), ids, now);
    AfterAppend(cfg, Initial, log, Late(ids, now));
  }

  // ------------------------------------------------------------------ it can happen under every configuration

  ghost function Allows(n: nat): seq<Event> {
    seq(n, (i: nat) => Allow(0, i))
  }

  ghost function Failures(k: nat): seq<Event> {
    seq(k, (i: nat) => Record(0, false, i))
  }

  /** Calls let through in Closed; as many of them fail as it takes to open the breaker; State is asked when the
      timeout is over. */
  ghost function TripLog(cfg: Config): seq<Event> {
    var f, s := Max(1, cfg.failureThreshold), Max(1, cfg.successThreshold);
    Allows(f + s) + Failures(f) + [Query(Max(0, cfg.openTimeout))]
  }

  lemma {:induction false} AllowsKeep(cfg: Config, n: nat)
    ensures After(cfg, Initial, Allows(n)) == Initial
    decreases n
  {
    if n > 0 {
      AllowsKeep(cfg, n - 1);
      assert Allows(n)[..n - 1] == Allows(n - 1);
    }
  }

  lemma {:induction false} FailuresTrip(cfg: Config, k: nat)
    requires k <= Max(1, cfg.failureThreshold)
    ensures After(cfg, Initial, Failures(k))
            == Fields(if k < Max(1, cfg.failureThreshold) then Closed else Open, k, 0, 0)
    decreases k
  {
    if k > 0 {
      FailuresTrip(cfg, k - 1);
      assert Failures(k)[..k - 1] == Failures(k - 1);
    }
  }

  lemma TripEnters(cfg: Config)
    ensures Enters(cfg, TripLog(cfg))
  {
    var f, s := Max(1, cfg.failureThreshold), Max(1, cfg.successThreshold);
    var log := TripLog(cfg);
    var init := Allows(f + s) + Failures(f);
    assert log[..|log| - 1] == init;
    AllowsKeep(cfg, f + s);
    FailuresTrip(cfg, f);
    AfterAppend(cfg, Initial, Allows(f + s), Failures(f));
    StateIsFunctionOfLog(cfg, init);
  }

  lemma TripGrants(cfg: Config, log: seq<Event>, n: nat, i: nat)
    requires i < n && Allows(n) <= log
    ensures GrantedTo(cfg, log, i, i)
  {
    assert log[..i] == Allows(i) && log[i] == Allows(n)[i];
    AllowsKeep(cfg, i);
  }

  lemma TripIsLegal(cfg: Config)
    ensures Legal(cfg, TripLog(cfg))
  {
    var f, s := Max(1, cfg.failureThreshold), Max(1, cfg.successThreshold);
    var log := TripLog(cfg);
    forall j | 0 <= j < |log| && log[j].Record?
      ensures exists i: nat :: i < j && GrantedTo(cfg, log, i, log[j].id)
    {
      assert log[j] == Record(0, false, j - (f + s));
      TripGrants(cfg, log, f + s, j - (f + s));
    }
  }

  /** Whatever the thresholds and the timeout, a breaker can be closed from HalfOpen by calls that were all let
      through before it opened. */
  lemma StaleSuccessesExist(cfg: Config) returns (log: seq<Event>, ids: seq<nat>)
    ensures Legal(cfg, log) && Enters(cfg, log) && |ids| == Max(1, cfg.successThreshold)
    ensures forall k :: 0 <= k < |ids| ==> Stale(cfg, log, ids[k])
    ensures forall k, l :: 0 <= k < l < |ids| ==> ids[k] != ids[l]
    ensures Legal(cfg, log + Late(ids, Max(0, cfg.openTimeout))) && After(cfg, Initial, log + Late(ids, Max(0, cfg.openTimeout))).state == Closed
  {
    var f, s := Max(1, cfg.failureThreshold), Max(1, cfg.successThreshold);
    log, ids := TripLog(cfg), seq(s, k => f + k);
    TripIsLegal(cfg);
    TripEnters(cfg);
    forall k | 0 <= k < s ensures Stale(cfg, log, ids[k]) {
      var init := log[..|log| - 1];
      TripGrants(cfg, init, f + s, f + k);
      forall j | 0 <= j < |init| && init[j].Record? ensures init[j].id != f + k {
        assert init[j] == Record(0, false, j - (f + s));
      }
    }
    StaleSuccessesClose(cfg, log, ids, Max(0, cfg.openTimeout));
  }

  // ------------------------------------------------------------------ the object

  class Breaker {
    const cfg: Config
    var state: State
    var failures: int
    var probes: int
    var openedAt: int
    /** Every call served so far. */
    ghost var log: seq<Event>

    ghost function View(): Fields
      reads this
    {
      Fields(state, failures, probes, openedAt)
    }

    /** The fields are what the log says. */
    ghost predicate Valid()
      reads this
    {
      View() == After(cfg, Initial, log)
    }

    constructor (cfg: Config)
      ensures Valid() && this.cfg == cfg && log == [] && state == Closed
    {
      this.cfg := cfg;
      state, failures, probes, openedAt, log := Closed, 0, 0, 0, [];
    }

    method Transition(to: State)
      modifies this`state
      ensures state == to
    {
      if state == to { return; }
      state := to;
    }

    method MaybeTransitionFromOpen(now: int)
      modifies this`state
      ensures View() == Wake(cfg, old(View()), now)
    {
      if state == Open && now - openedAt >= cfg.openTimeout {
        Transition(HalfOpen);
      }
    }

    method Allow(now: int, ghost id: nat) returns (granted: bool)
      requires Valid()
      modifies this
      ensures Valid() && log == old(log) + [Event.Allow(now, id)]
      ensures granted <==> Grants(cfg, After(cfg, Initial, old(log)), now)
    {
      MaybeTransitionFromOpen(now);
      AfterOne(cfg, Initial, log, Event.Allow(now, id));
      log := log + [Event.Allow(now, id)];
      match state
      case Closed => granted := true;
      case HalfOpen => granted := true;
      case Open => granted := false;
    }

    method Record(now: int, ok: bool, ghost id: nat)
      requires Valid()
      modifies this
      ensures Valid() && log == old(log) + [Event.Record(now, ok, id)]
    {
      match state {
        case Closed =>
          if !ok {
            failures := failures + 1;
            if failures >= cfg.failureThreshold {
              openedAt := now;
              Transition(Open);
            }
          } else {
            failures := 0;
          }
        case HalfOpen =>
          if !ok {
            failures := 0;
            probes := 0;
            openedAt := now;
            Transition(Open);
          } else {
            probes := probes + 1;
            if probes >= cfg.successThreshold {
              failures := 0;
              probes := 0;
              Transition(Closed);
            }
          }
        case Open =>
      }
      assert View() == RecordResult(cfg, old(View()), now, ok);
      AfterOne(cfg, Initial, log, Event.Record(now, ok, id));
      log := log + [Event.Record(now, ok, id)];
    }

    method CurrentState(now: int) returns (s: State)
      requires Valid()
      modifies this
      ensures Valid() && log == old(log) + [Query(now)]
      ensures s == After(cfg, Initial, log).state
    {
      MaybeTransitionFromOpen(now);
      AfterOne(cfg, Initial, log, Query(now));
      log := log + [Query(now)];
      s := state;
    }

    method Reset()
      requires Valid()
      modifies this
      ensures Valid() && log == old(log) + [Event.Reset]
    {
      Transition(Closed);
      failures := 0;
      probes := 0;
      AfterOne(cfg, Initial, log, Event.Reset);
      log := log + [Event.Reset];
    }
  }
}
