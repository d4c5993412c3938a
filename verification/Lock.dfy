/** pkg/lock/lock.go: a lease on a Redis key, held by a token.

    The clock and every TTL are in whole milliseconds.  Redis executes one command at a time; a key
    whose expiry has come is absent.  A step that is not enabled leaves the state as it is, so every
    sequence of steps is a run, and a command that is lost on the way is a step that is not taken. */
module Lock {
  import opened Common

  type Key = string
  type Token = nat

  datatype Entry = Entry(token: Token, expiry: int)

  /** Held until Release is called; Stopping while its keepalive goroutine may still renew; Quiet once
      that has exited; Released when the release script has run. */
  datatype Phase = Held | Stopping | Quiet | Released

  /** A *Lock, with the expiry that its last acquire or renewal gave the key. */
  datatype Handle = Handle(key: Key, ttl: int, deadline: int, phase: Phase)

  datatype State = State(now: int, store: map<Key, Entry>, handles: map<Token, Handle>, used: set<Token>)

  const Init := State(0, map[], map[], {})

  datatype Step =
    | Tick(ms: nat)
    | Evict(key: Key)                                    // Redis drops an expired key
    | TryAcquire(key: Key, ttl: int, token: Token)       // SET key token PX ttl NX
    | AcquireReplyLost(key: Key, ttl: int, token: Token) // the same, but the caller gets an error
    | Renew(token: Token)                                // the renew script
    | StopKeepalive(token: Token)                        // Release closes l.stop
    | KeepaliveExits(token: Token)                       // and l.done is closed
    | ReleaseScript(token: Token)

  /** GET key: the token stored there, if it has not expired. */
  function Stored(s: State, key: Key): Option<Token> {
    if key in s.store && s.now < s.store[key].expiry then Some(s.store[key].token) else None
  }

  predicate Enabled(s: State, step: Step) {
    match step
    case Tick(_) => true
    case Evict(key) => key in s.store && Stored(s, key).None?
    case TryAcquire(_, ttl, token) => ttl >= 1 && token !in s.used
    case AcquireReplyLost(_, ttl, token) => ttl >= 1 && token !in s.used
    case Renew(token) => token in s.handles && s.handles[token].phase in {Held, Stopping}
    case StopKeepalive(token) => token in s.handles && s.handles[token].phase == Held
    case KeepaliveExits(token) => token in s.handles && s.handles[token].phase == Stopping
    case ReleaseScript(token) => token in s.handles && s.handles[token].phase in {Quiet, Released}
  }

  /** SET NX: the store after it, and whether it took effect. */
  function SetNX(s: State, key: Key, ttl: int, token: Token): (map<Key, Entry>, bool) {
    if Stored(s, key).Some? then (s.store, false) else (s.store[key := Entry(token, s.now + ttl)], true)
  }

  function Next(s: State, step: Step): State {
    if !Enabled(s, step) then s
    else match step
      case Tick(ms) => s.(now := s.now + ms)
      case Evict(key) => s.(store := s.store - {key})
      case TryAcquire(key, ttl, token) =>
        var (store, ok) := SetNX(s, key, ttl, token);
        s.(store := store, used := s.used + {token},
           handles := if ok then s.handles[token := Handle(key, ttl, s.now + ttl, Held)] else s.handles)
      case AcquireReplyLost(key, ttl, token) =>
        s.(store := SetNX(s, key, ttl, token).0, used := s.used + {token})
      case Renew(token) =>
        var h := s.handles[token];
        if Stored(s, h.key) == Some(token)
        then s.(store := s.store[h.key := Entry(token, s.now + h.ttl)],
                handles := s.handles[token := h.(deadline := s.now + h.ttl)])
        else s
      case StopKeepalive(token) => s.(handles := s.handles[token := s.handles[token].(phase := Stopping)])
      case KeepaliveExits(token) => s.(handles := s.handles[token := s.handles[token].(phase := Quiet)])
      case ReleaseScript(token) =>
        var h := s.handles[token];
        s.(store := if Stored(s, h.key) == Some(token) then s.store - {h.key} else s.store,
           handles := s.handles[token := h.(phase := Released)])
  }

  function Run(s: State, steps: seq<Step>): State {
    if steps == [] then s else Next(Run(s, steps[..|steps| - 1]), steps[|steps| - 1])
  }

  // ------------------------------------------------------------------ invariant

  /** The handle's lease has not run out. */
  predicate Live(s: State, token: Token)
    requires token in s.handles
  {
    s.handles[token].phase != Released && s.now < s.handles[token].deadline
  }

  ghost predicate Inv(s: State) {
    // tokens are used once
    && (forall t :: t in s.handles ==> t in s.used && s.handles[t].deadline <= s.now + s.handles[t].ttl)
    && (forall k :: k in s.store ==> s.store[k].token in s.used)
    // a handle and the key that holds its token agree
    && (forall k :: k in s.store && s.store[k].token in s.handles ==>
          s.handles[s.store[k].token].key == k && s.handles[s.store[k].token].deadline == s.store[k].expiry)
    // a live handle's token is stored
    && (forall t :: t in s.handles && Live(s, t) ==>
          s.handles[t].key in s.store && s.store[s.handles[t].key] == Entry(t, s.handles[t].deadline))
    // a released handle's token is not
    && (forall k :: k in s.store && s.store[k].token in s.handles && s.handles[s.store[k].token].phase == Released ==>
          s.store[k].expiry <= s.now)
  }

  lemma AcquireKeeps(s: State, step: Step)
    requires Inv(s) && (step.TryAcquire? || step.AcquireReplyLost?)
    ensures Inv(Next(s, step))
  {
  }

  lemma ScriptKeeps(s: State, step: Step)
    requires Inv(s) && (step.Renew? || step.ReleaseScript?)
    ensures Inv(Next(s, step))
  {
  }

  lemma StepKeeps(s: State, step: Step)
    requires Inv(s)
    ensures Inv(Next(s, step))
  {
    if step.TryAcquire? || step.AcquireReplyLost? {
      AcquireKeeps(s, step);
    } else if step.Renew? || step.ReleaseScript? {
      ScriptKeeps(s, step);
    }
  }

  lemma {:induction false} RunKeeps(s: State, steps: seq<Step>)
    requires Inv(s)
    ensures Inv(Run(s, steps))
    decreases |steps|
  {
    if steps != [] {
      RunKeeps(s, steps[..|steps| - 1]);
      StepKeeps(Run(s, steps[..|steps| - 1]), steps[|steps| - 1]);
    }
  }

  // ------------------------------------------------------------------ mutual exclusion

  /** In every run, no two handles of one key are live together. */
  lemma NoTwoLive(steps: seq<Step>, t: Token, u: Token)
    requires t in Run(Init, steps).handles && u in Run(Init, steps).handles
    requires Run(Init, steps).handles[t].key == Run(Init, steps).handles[u].key
    requires Live(Run(Init, steps), t) && Live(Run(Init, steps), u)
    ensures t == u
  {
    RunKeeps(Init, steps);
  }

  /** Every unreleased handle's last renewal reached Redis less than its TTL ago. */
  ghost predicate Timely(s: State) {
    forall t :: t in s.handles && s.handles[t].phase != Released ==> s.now < s.handles[t].deadline
  }

  /** While renewals are in time, a key has at most one unreleased handle, and it is the one stored. */
  lemma MutualExclusion(steps: seq<Step>, t: Token)
    requires Timely(Run(Init, steps))
    requires t in Run(Init, steps).handles && Run(Init, steps).handles[t].phase != Released
    ensures var s := Run(Init, steps);
            && Stored(s, s.handles[t].key) == Some(t)
            && forall u :: u in s.handles && s.handles[u].phase != Released && s.handles[u].key == s.handles[t].key ==> u == t
  {
    RunKeeps(Init, steps);
  }

  /** The timing condition cannot be dropped: when a TTL passes without a renewal, a second handle is
      given out while the first holder, which keepalive does not tell, is still at work. */
  lemma LateRenewalBreaksExclusion(key: Key, ttl: int)
    requires ttl >= 1
    ensures var s := Run(Init, [TryAcquire(key, ttl, 0), Tick(ttl), TryAcquire(key, ttl, 1)]);
            && 0 in s.handles && 1 in s.handles
            && s.handles[0].key == s.handles[1].key == key
            && s.handles[0].phase == s.handles[1].phase == Held
  {
    var a, b, c := TryAcquire(key, ttl, 0), Tick(ttl), TryAcquire(key, ttl, 1);
    var s1 := Next(Init, a);
    assert Run(Init, [a]) == s1 by { assert [a][..0] == []; }
    assert Run(Init, [a, b]) == Next(s1, b) by { assert [a, b][..1] == [a]; }
    assert Run(Init, [a, b, c]) == Next(Next(s1, b), c) by { assert [a, b, c][..2] == [a, b]; }
  }

  /** A handle that has not been released. */
  predicate Unreleased(s: State, t: Token, key: Key) {
    t in s.handles && s.handles[t].phase != Released && s.handles[t].key == key
  }

  /** An unreleased handle of the key whose last renewal is a TTL or more ago. */
  predicate Late(s: State, t: Token, key: Key) {
    Unreleased(s, t, key) && s.handles[t].deadline <= s.now
  }

  /** The token of an unreleased handle is stored if and only if its renewals have been in time. */
  lemma StoredIffInTime(steps: seq<Step>, t: Token)
    requires t in Run(Init, steps).handles && Run(Init, steps).handles[t].phase != Released
    ensures var s := Run(Init, steps);
            Stored(s, s.handles[t].key) == Some(t) <==> s.now < s.handles[t].deadline
  {
    RunKeeps(Init, steps);
  }

  /** The key has at most one unreleased handle. */
  ghost predicate Exclusive(s: State, key: Key) {
    forall t, u :: Unreleased(s, t, key) && Unreleased(s, u, key) ==> t == u
  }

  /** The step gives out the key, free in Redis, while the handle of a late holder is not released. */
  ghost predicate Steals(s: State, step: Step, key: Key) {
    && step.TryAcquire? && step.key == key && Enabled(s, step) && Stored(s, key).None?
    && exists t :: Late(s, t, key)
  }

  /** No step but such an acquire ever breaks exclusion, and every such acquire does. */
  lemma BreaksIffSteals(s: State, step: Step, key: Key)
    requires Inv(s) && Exclusive(s, key)
    ensures !Exclusive(Next(s, step), key) <==> Steals(s, step, key)
  {
    var s' := Next(s, step);
    if Steals(s, step, key) {
      var t :| Late(s, t, key);
      assert Unreleased(s', t, key) && Unreleased(s', step.token, key) && t != step.token;
    } else {
      forall t, u | Unreleased(s', t, key) && Unreleased(s', u, key) ensures t == u {
        NewlyUnreleased(s, step, key, t);
        NewlyUnreleased(s, step, key, u);
      }
    }
  }

  /** A handle that appears is the one an acquire was given, on a free key. */
  lemma NewlyUnreleased(s: State, step: Step, key: Key, t: Token)
    requires Inv(s) && Unreleased(Next(s, step), t, key)
    ensures Unreleased(s, t, key) ||
              (step.TryAcquire? && step.key == key && step.token == t && Enabled(s, step) && Stored(s, key).None?)
    ensures !Unreleased(s, t, key) ==> forall u :: Unreleased(s, u, key) ==> Late(s, u, key)
  {
  }

  ghost predicate ExclusiveAt(steps: seq<Step>, i: nat, key: Key)
    requires i <= |steps|
  {
    Exclusive(Run(Init, steps[..i]), key)
  }

  ghost predicate StealsAt(steps: seq<Step>, i: nat, key: Key)
    requires i < |steps|
  {
    Steals(Run(Init, steps[..i]), steps[i], key)
  }

  lemma ExclusionStep(steps: seq<Step>, i: nat, key: Key)
    requires i < |steps| && ExclusiveAt(steps, i, key)
    ensures ExclusiveAt(steps, i + 1, key) <==> !StealsAt(steps, i, key)
  {
    assert steps[..i + 1][..i] == steps[..i];
    RunKeeps(Init, steps[..i]);
    BreaksIffSteals(Run(Init, steps[..i]), steps[i], key);
  }

  lemma {:induction false} ExclusionUpTo(steps: seq<Step>, i: nat, key: Key)
    requires i <= |steps| && forall j: nat :: j < i ==> !StealsAt(steps, j, key)
    ensures ExclusiveAt(steps, i, key)
    decreases i
  {
    if i > 0 {
      ExclusionUpTo(steps, i - 1, key);
      ExclusionStep(steps, i - 1, key);
    }
  }

  /** Exclusion holds at every point of a run if and only if no acquire in it finds the key free beside a
      late handle that has not been released. */
  lemma ExclusionIff(steps: seq<Step>, key: Key)
    ensures (forall i: nat :: i <= |steps| ==> ExclusiveAt(steps, i, key)) <==>
            (forall i: nat :: i < |steps| ==> !StealsAt(steps, i, key))
  {
    if forall i: nat :: i < |steps| ==> !StealsAt(steps, i, key) {
      forall i: nat | i <= |steps| ensures ExclusiveAt(steps, i, key) {
        ExclusionUpTo(steps, i, key);
      }
    } else {
      var i: nat :| i < |steps| && StealsAt(steps, i, key);
      assert ExclusiveAt(steps, i, key) ==> !ExclusiveAt(steps, i + 1, key) by {
        if ExclusiveAt(steps, i, key) { ExclusionStep(steps, i, key); }
      }
    }
  }

  // ------------------------------------------------------------------ only the holder changes the key

  /** A command of a handle whose token is not stored changes nothing in Redis. */
  lemma StrangerChangesNothing(s: State, step: Step)
    requires step.Renew? || step.ReleaseScript?
    requires step.token in s.handles && Stored(s, s.handles[step.token].key) != Some(step.token)
    ensures Next(s, step).store == s.store
  {
  }

  lemma TimeGoesOn(s: State, step: Step)
    ensures s.now <= Next(s, step).now
  {
  }

  lemma HolderStep(s: State, step: Step, key: Key)
    requires Inv(s) && Stored(s, key).Some?
    requires step != ReleaseScript(s.store[key].token) && Next(s, step).now < s.store[key].expiry
    ensures Stored(Next(s, step), key) == Stored(s, key)
    ensures Next(s, step).store[key].expiry >= s.store[key].expiry
  {
  }

  /** As long as its expiry has not come and the holder has not released it, the key keeps the holder's
      token through every run, and its expiry never moves closer. */
  lemma {:induction false} HolderKeepsKey(s: State, steps: seq<Step>, key: Key)
    requires Inv(s) && Stored(s, key).Some?
    requires ReleaseScript(s.store[key].token) !in steps
    requires Run(s, steps).now < s.store[key].expiry
    ensures Stored(Run(s, steps), key) == Stored(s, key)
    ensures Run(s, steps).store[key].expiry >= s.store[key].expiry
    decreases |steps|
  {
    if steps != [] {
      var init, step := steps[..|steps| - 1], steps[|steps| - 1];
      assert step in steps;
      TimeGoesOn(Run(s, init), step);
      HolderKeepsKey(s, init, key);
      RunKeeps(s, init);
      HolderStep(Run(s, init), step, key);
    }
  }

  /** An acquire that finds the key free has it for its whole ttl: at every later point of every run, until the
      clock has gone on by ttl or the holder has released it, the key is stored with its token and no other acquire
      of it succeeds. */
  lemma LeaseLasts(before: seq<Step>, key: Key, ttl: int, token: Token, after: seq<Step>)
    requires ttl >= 1 && token !in Run(Init, before).used && Stored(Run(Init, before), key).None?
    requires ReleaseScript(token) !in after
    requires Run(Next(Run(Init, before), TryAcquire(key, ttl, token)), after).now < Run(Init, before).now + ttl
    ensures var s := Run(Next(Run(Init, before), TryAcquire(key, ttl, token)), after);
            && Stored(s, key) == Some(token)
            && forall ttl', u :: u !in s.used ==> u !in Next(s, TryAcquire(key, ttl', u)).handles
  {
    RunKeeps(Init, before);
    var s := Run(Init, before);
    var s' := Next(s, TryAcquire(key, ttl, token));
    StepKeeps(s, TryAcquire(key, ttl, token));
    assert s'.store[key] == Entry(token, s.now + ttl);
    TimeOnlyGoesOn(s', after);
    HolderKeepsKey(s', after, key);
    RunKeeps(s', after);
  }

  lemma {:induction false} TimeOnlyGoesOn(s: State, steps: seq<Step>)
    ensures s.now <= Run(s, steps).now
    decreases |steps|
  {
    if steps != [] {
      TimeOnlyGoesOn(s, steps[..|steps| - 1]);
      TimeGoesOn(Run(s, steps[..|steps| - 1]), steps[|steps| - 1]);
    }
  }

  /** Once released, a handle's token is never stored again. */
  lemma {:induction false} ReleasedForGood(s: State, steps: seq<Step>, t: Token)
    requires Inv(s) && t in s.handles && s.handles[t].phase == Released
    ensures t in Run(s, steps).handles && Run(s, steps).handles[t].phase == Released
    ensures forall key :: Stored(Run(s, steps), key) != Some(t)
    decreases |steps|
  {
    RunKeeps(s, steps);
    if steps != [] {
      RunKeeps(s, steps[..|steps| - 1]);
      ReleasedForGood(s, steps[..|steps| - 1], t);
    }
  }

  /** The time left on a handle's lease after a list of steps, if it never runs out on the way: ticks use
      it up, the handle's own renewals restore it, nothing that anyone else does matters. */
  ghost function Slack(steps: seq<Step>, t: Token, ttl: int, slack: int): Option<int> {
    if steps == [] then (if slack > 0 then Some(slack) else None)
    else
      var before := Slack(steps[..|steps| - 1], t, ttl, slack);
      if before.None? then None
      else match steps[|steps| - 1]
        case Tick(ms) => if ms < before.value then Some(before.value - ms) else None
        case Renew(token) => if token == t then Some(ttl) else before
        case StopKeepalive(token) => if token == t then None else before
        case _ => before
  }

  lemma KeepaliveStep(s: State, step: Step, t: Token)
    requires Inv(s) && t in s.handles && s.handles[t].phase == Held && Live(s, t) && step != StopKeepalive(t)
    ensures var s', h := Next(s, step), s.handles[t];
            && t in s'.handles && s'.handles[t] == h.(deadline := s'.handles[t].deadline)
            && s'.handles[t].deadline - s'.now ==
                 if step == Renew(t) then h.ttl else if step.Tick? then h.deadline - s.now - step.ms else h.deadline - s.now
  {
  }

  /** Renewals less than a TTL apart keep the lock, whatever the other clients do meanwhile. */
  lemma {:induction false} KeepaliveHolds(s: State, steps: seq<Step>, t: Token)
    requires Inv(s) && t in s.handles && s.handles[t].phase == Held
    requires Slack(steps, t, s.handles[t].ttl, s.handles[t].deadline - s.now).Some?
    ensures var s', h := Run(s, steps), s.handles[t];
            && t in s'.handles && s'.handles[t] == h.(deadline := s'.handles[t].deadline)
            && Stored(s', h.key) == Some(t)
            && s'.handles[t].deadline - s'.now == Slack(steps, t, h.ttl, h.deadline - s.now).value > 0
    decreases |steps|
  {
    RunKeeps(s, steps);
    if steps != [] {
      RunKeeps(s, steps[..|steps| - 1]);
      KeepaliveHolds(s, steps[..|steps| - 1], t);
      KeepaliveStep(Run(s, steps[..|steps| - 1]), steps[|steps| - 1], t);
    }
  }

  // ------------------------------------------------------------------ Acquire

  /** How the SET command fares: its reply arrives; it is carried out but the reply is lost; it never runs. */
  datatype Reply = Arrives | Lost | Unsent

  datatype AcquireResult = Acquired(token: Token) | NotAcquired | RedisError | CtxError

  /** The Redis server and its clients, seen from one Locker. */
  class Locker {
    var world: State
    const retryOk: bool
    const retryN: int

    constructor (world: State, retryOk: bool, retryN: int)
      ensures this.world == world && this.retryOk == retryOk && this.retryN == retryN
    {
      this.world, this.retryOk, this.retryN := world, retryOk, retryN;
    }

    /** One attempt.  On an error other than a taken key nobody gets a handle, but the key may be stored
        until it expires; otherwise the key is acquired exactly when it was free. */
    method TryAcquireOnce(key: Key, ttl: int, token: Token, reply: Reply) returns (r: AcquireResult)
      requires Inv(world) && ttl >= 1 && token !in world.used
      modifies this
      ensures Inv(world)
      ensures world == match reply
                       case Arrives => Next(old(world), TryAcquire(key, ttl, token))
                       case Lost => Next(old(world), AcquireReplyLost(key, ttl, token))
                       case Unsent => old(world)
      ensures r.RedisError? <==> !reply.Arrives?
      ensures r.NotAcquired? <==> reply.Arrives? && Stored(old(world), key).Some?
      ensures r.Acquired? <==> reply.Arrives? && Stored(old(world), key).None?
      ensures r.Acquired? ==>
                && r.token == token && token in world.handles && world.handles[token].deadline == world.now + ttl
                && key in world.store && world.store[key] == Entry(token, world.now + ttl)
      ensures !r.Acquired? ==> world.handles == old(world).handles
      ensures r.NotAcquired? ==> world.store == old(world).store
      ensures forall k :: k != key ==> Stored(world, k) == Stored(old(world), k)
    {
      if reply == Unsent {
        return RedisError;
      }
      var step := if reply == Lost then AcquireReplyLost(key, ttl, token) else TryAcquire(key, ttl, token);
      StepKeeps(world, step);
      var free := Stored(world, key).None?;
      world := Next(world, step);
      r := if reply == Lost then RedisError else if free then Acquired(token) else NotAcquired;
    }

    /** Acquire: `tokens` are the fresh tokens it draws, `replies` how its attempts fare, and `others[i]` is what
        happens elsewhere while it sleeps after attempt i; the context is cancelled when they run out.  It gives up
        after max(1, retryN) attempts if retries are bounded and at the first Redis error, returns a live handle
        exactly when the last attempt got an answer and found the key free, and every attempt before that found it
        taken. */
    method Acquire(key: Key, ttl: int, tokens: seq<Token>, replies: seq<Reply>, others: seq<seq<Step>>)
      returns (r: AcquireResult, attempts: nat, ghost taken: seq<State>)
      requires Inv(world) && ttl >= 1
      requires |replies| == |tokens| > |others| && forall i, j :: 0 <= i < j < |tokens| ==> tokens[i] != tokens[j]
      requires forall i :: 0 <= i < |tokens| ==> tokens[i] !in world.used && !UsesToken(others, tokens[i])
      modifies this
      ensures Inv(world)
      ensures 1 <= attempts <= |others| + 1 && |taken| == attempts
      ensures retryOk ==> attempts <= (if retryN < 1 then 1 else retryN)
      ensures forall i :: 0 <= i < attempts - 1 ==> Stored(taken[i], key).Some? && replies[i].Arrives?
      ensures r.RedisError? <==> !replies[attempts - 1].Arrives?
      ensures r.Acquired? <==> Stored(taken[attempts - 1], key).None? && replies[attempts - 1].Arrives?
      ensures r.Acquired? ==>
                && r.token in world.handles && world.handles[r.token].deadline == world.now + ttl
                && key in world.store && world.store[key] == Entry(r.token, world.now + ttl)
      ensures r.NotAcquired? ==> retryOk && attempts == (if retryN < 1 then 1 else retryN)
      ensures r.CtxError? ==> attempts == |others| + 1
    {
      attempts, taken := 0, [];
      while true
        invariant Inv(world) && attempts <= |others| && |taken| == attempts
        invariant retryOk && attempts > 0 ==> attempts < retryN
        invariant forall i :: 0 <= i < attempts ==> Stored(taken[i], key).Some? && replies[i].Arrives?
        invariant forall i :: attempts <= i < |tokens| ==> tokens[i] !in world.used
        decreases |others| - attempts
      {
        taken := taken + [world];
        var attempt := TryAcquireOnce(key, ttl, tokens[attempts], replies[attempts]);
        if !attempt.NotAcquired? {
          return attempt, attempts + 1, taken;
        }
        attempts := attempts + 1;
        if retryOk && attempts >= retryN {
          return NotAcquired, attempts, taken;
        }
        if attempts > |others| {
          return CtxError, attempts, taken;
        }
        RunKeeps(world, others[attempts - 1]);
        forall i | attempts <= i < |tokens| ensures tokens[i] !in Run(world, others[attempts - 1]).used {
          StaysUnused(world, others[attempts - 1], tokens[i]);
        }
        world := Run(world, others[attempts - 1]);
      }
    }
  }

  predicate UsesToken(others: seq<seq<Step>>, t: Token) {
    exists i, j :: 0 <= i < |others| && 0 <= j < |others[i]| && Draws(others[i][j], t)
  }

  predicate Draws(step: Step, t: Token) {
    (step.TryAcquire? || step.AcquireReplyLost?) && step.token == t
  }

  lemma {:induction false} StaysUnused(s: State, steps: seq<Step>, t: Token)
    requires t !in s.used && forall j :: 0 <= j < |steps| ==> !Draws(steps[j], t)
    ensures t !in Run(s, steps).used
    decreases |steps|
  {
    if steps != [] { StaysUnused(s, steps[..|steps| - 1], t); }
  }
}
