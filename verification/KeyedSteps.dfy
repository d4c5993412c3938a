/** pkg/ratelimit/keyed.go: AllowN as the two critical sections it is.  limiterFor finds or makes the key's bucket
    under the map's mutex, and the bucket it returned is then asked under its own; other calls, and Evict, run between
    the two.  A caller that has found its bucket goes on with it even when the key has been evicted meanwhile. */
module KeyedSteps {
  import opened KeyedLimit
  import opened RateLimit

  type Caller = nat
  type Id = nat

  datatype Slot = Slot(id: Id, lastSeen: int)

  /** The bucket a caller has found, and when. */
  datatype Found = Found(id: Id, at: int)

  datatype State<K> = State(buckets: map<Id, Bucket>, entries: map<K, Slot>, pending: map<Caller, Found>, next: Id)

  function Init<K>(): State<K> {
    State(map[], map[], map[], 0)
  }

  datatype Step<K> =
    | Find(caller: Caller, key: K, now: int)
    | TakeFrom(caller: Caller, now: int, n: int)
    | EvictAll(now: int)
    | Remove(key: K, now: int)

  function FindIn<K>(cfg: Config, s: State<K>, caller: Caller, key: K, now: int): State<K> {
    if key in s.entries
    then s.(entries := s.entries[key := s.entries[key].(lastSeen := now)],
            pending := s.pending[caller := Found(s.entries[key].id, now)])
    else s.(buckets := s.buckets[s.next := New(cfg.rate, cfg.burst, now)],
            entries := s.entries[key := Slot(s.next, now)],
            pending := s.pending[caller := Found(s.next, now)],
            next := s.next + 1)
  }

  /** The caller has found a bucket. */
  predicate Ready<K>(s: State<K>, caller: Caller) {
    caller in s.pending && s.pending[caller].id in s.buckets
  }

  /** One step; with `evicting` false, that of a limiter whose Evict does nothing. */
  function Next<K>(cfg: Config, s: State<K>, step: Step<K>, evicting: bool): State<K> {
    match step
    case Find(caller, key, now) => FindIn(cfg, s, caller, key, now)
    case TakeFrom(caller, now, n) =>
      if Ready(s, caller) then
        var id := s.pending[caller].id;
        s.(buckets := s.buckets[id := Take(s.buckets[id], now, n).0], pending := s.pending - {caller})
      else s
    case EvictAll(now) =>
      if evicting then s.(entries := map k | k in s.entries && !(s.entries[k].lastSeen < now - cfg.ttl) :: s.entries[k])
      else s
    case Remove(key, _) => s.(entries := s.entries - {key})
  }

  /** The answer a step gives, if any. */
  function Answer<K>(s: State<K>, step: Step<K>): seq<bool> {
    if step.TakeFrom? && Ready(s, step.caller)
    then [Take(s.buckets[s.pending[step.caller].id], step.now, step.n).1] else []
  }

  function Answered<K>(cfg: Config, s: State<K>, steps: seq<Step<K>>, evicting: bool): seq<bool>
    decreases |steps|
  {
    if steps == [] then []
    else Answer(s, steps[0]) + Answered(cfg, Next(cfg, s, steps[0], evicting), steps[1..], evicting)
  }

  /** The clock does not go back, nobody asks for a negative number, and every caller takes at most `delay` after it
      found its bucket; `found` is when the callers under way did. */
  ghost predicate Timely<K>(delay: nat, found: map<Caller, int>, from: int, steps: seq<Step<K>>)
    decreases |steps|
  {
    steps == [] ||
    (from <= steps[0].now && Timely(delay, FoundAfter(found, steps[0]), steps[0].now, steps[1..])
     && (steps[0].TakeFrom? ==>
           steps[0].n >= 0 && (steps[0].caller in found ==> steps[0].now <= found[steps[0].caller] + delay)))
  }

  function FoundAfter<K>(found: map<Caller, int>, step: Step<K>): map<Caller, int> {
    match step
    case Find(caller, _, now) => found[caller := now]
    case TakeFrom(caller, _, _) => found - {caller}
    case _ => found
  }

  // ------------------------------------------------------------------ when evictions cannot be seen

  /** The least time between a caller's take and the eviction of its bucket. */
  function LeastRest(cfg: Config, delay: nat): nat {
    var e := EarliestEviction(cfg);
    if delay < e then e - delay else 0
  }

  /** A bucket evicted as early as it may be, after a take as late as it may be, has filled up from empty. */
  ghost predicate RefillsWithin(cfg: Config, delay: nat) {
    Accrued(cfg.rate, LeastRest(cfg, delay)) >= cfg.burst as real
  }

  ghost predicate FullBy(b: Bucket, now: int) {
    b.tokens + Accrued(b.rate, now - b.lastFill) >= b.burst
  }

  /** The buckets give the same answers from now on. */
  ghost predicate Alike(cfg: Config, b: Bucket, b': Bucket, now: int) {
    Good(cfg, b, now) && Good(cfg, b', now) && (b == b' || (FullBy(b, now) && FullBy(b', now)))
  }

  lemma FullStays(cfg: Config, b: Bucket, now: int, later: int)
    requires Good(cfg, b, now) && FullBy(b, now) && now <= later
    ensures FullBy(b, later)
  {
    AccruedAdds(cfg.rate, now - b.lastFill, later - b.lastFill);
  }

  lemma AlikeTakes(cfg: Config, b: Bucket, b': Bucket, now: int, n: int)
    requires Alike(cfg, b, b', now) && n >= 0
    ensures Take(b, now, n) == Take(b', now, n)
    ensures Good(cfg, Take(b, now, n).0, now) && Take(b, now, n).0.lastFill == now
  {
    assert Filled(b, now) == Filled(b', now);
    ApplyKeepsValid(b, Attempt(now, n));
  }

  // ------------------------------------------------------------------ with and without evictions, side by side

  /** The caller may still take. */
  predicate Live(p: Found, now: int, delay: nat) {
    now <= p.at + delay
  }

  /** f takes the buckets in use in the evicting limiter to those of the one that keeps everything. */
  ghost predicate Mapped(cfg: Config, b: map<Id, Bucket>, b': map<Id, Bucket>, f: map<Id, Id>, now: int) {
    && (forall id :: id in f ==> id in b && f[id] in b' && Alike(cfg, b[id], b'[f[id]], now))
    && (forall i, j :: i in f && j in f && f[i] == f[j] ==> i == j)
  }

  ghost predicate CallersAgree(p: map<Caller, Found>, p': map<Caller, Found>, f: map<Id, Id>, now: int, delay: nat) {
    && p.Keys == p'.Keys
    && (forall c :: c in p ==> p[c].at == p'[c].at && (Live(p[c], now, delay) ==> p[c].id in f && f[p[c].id] == p'[c].id))
  }

  ghost predicate EntriesAgree<K(!new)>(e: map<K, Slot>, e': map<K, Slot>, f: map<Id, Id>) {
    forall k :: k in e ==> k in e' && e[k].id in f && f[e[k].id] == e'[k].id && e[k].lastSeen == e'[k].lastSeen
  }

  /** A bucket that was evicted is full by now, and nobody is about to take from it. */
  ghost predicate EvictedFull<K(!new)>(
    cfg: Config, e: map<K, Slot>, e': map<K, Slot>, b': map<Id, Bucket>, p': map<Caller, Found>, now: int, delay: nat)
  {
    forall k :: k in e' && k !in e ==>
      && e'[k].id in b' && Good(cfg, b'[e'[k].id], now) && FullBy(b'[e'[k].id], now)
      && forall c :: c in p' && Live(p'[c], now, delay) ==> p'[c].id != e'[k].id
  }

  /** Keys have buckets of their own, filled last within the delay after they were last looked for. */
  ghost predicate FilledSoon<K(!new)>(e': map<K, Slot>, b': map<Id, Bucket>, delay: nat) {
    forall k :: k in e' ==> e'[k].id in b' && b'[e'[k].id].lastFill <= e'[k].lastSeen + delay
  }

  ghost predicate OwnBuckets<K(!new)>(e': map<K, Slot>) {
    forall k, l :: k in e' && l in e' && e'[k].id == e'[l].id ==> k == l
  }

  ghost predicate FoundBefore<K(!new)>(e': map<K, Slot>, p': map<Caller, Found>) {
    forall k, c :: k in e' && c in p' && p'[c].id == e'[k].id ==> p'[c].at <= e'[k].lastSeen
  }

  ghost predicate Stamped<K(!new)>(e': map<K, Slot>, b': map<Id, Bucket>, p': map<Caller, Found>, delay: nat) {
    OwnBuckets(e') && FilledSoon(e', b', delay) && FoundBefore(e', p')
  }

  ghost predicate Fresh(f: map<Id, Id>, next: Id, next': Id, b': map<Id, Bucket>, p': map<Caller, Found>) {
    && (forall id :: id in f ==> id < next)
    && (forall id :: id in b' ==> id < next')
    && (forall c :: c in p' ==> p'[c].id < next')
  }

  ghost predicate SeenBy<K(!new)>(e': map<K, Slot>, now: int) {
    forall k :: k in e' ==> e'[k].lastSeen <= now
  }

  ghost predicate Related<K(!new)>(cfg: Config, s: State<K>, r: State<K>, f: map<Id, Id>, now: int, delay: nat) {
    && Mapped(cfg, s.buckets, r.buckets, f, now)
    && CallersAgree(s.pending, r.pending, f, now, delay)
    && EntriesAgree(s.entries, r.entries, f)
    && EvictedFull(cfg, s.entries, r.entries, r.buckets, r.pending, now, delay)
    && Stamped(r.entries, r.buckets, r.pending, delay)
    && Fresh(f, s.next, r.next, r.buckets, r.pending)
    && SeenBy(r.entries, now)
  }

  lemma RelatedLater<K(!new)>(cfg: Config, s: State<K>, r: State<K>, f: map<Id, Id>, now: int, later: int, delay: nat)
    requires Related(cfg, s, r, f, now, delay) && now <= later
    ensures Related(cfg, s, r, f, later, delay)
  {
    forall id | id in f ensures Alike(cfg, s.buckets[id], r.buckets[f[id]], later) {
      var b, b' := s.buckets[id], r.buckets[f[id]];
      if b != b' {
        FullStays(cfg, b, now, later);
        FullStays(cfg, b', now, later);
      }
    }
    forall k | k in r.entries && k !in s.entries ensures FullBy(r.buckets[r.entries[k].id], later) {
      FullStays(cfg, r.buckets[r.entries[k].id], now, later);
    }
  }

  /** Both have the key's bucket. */
  lemma FindKnown<K(!new)>(cfg: Config, s: State<K>, r: State<K>, f: map<Id, Id>, now: int, delay: nat, c: Caller, key: K)
    requires Related(cfg, s, r, f, now, delay) && key in s.entries
    ensures Related(cfg, FindIn(cfg, s, c, key, now), FindIn(cfg, r, c, key, now), f, now, delay)
  {
  }

  lemma NewIsGood(cfg: Config, now: int)
    requires Configured(cfg)
    ensures Good(cfg, New(cfg.rate, cfg.burst, now), now) && FullBy(New(cfg.rate, cfg.burst, now), now)
  {
    assert Accrued(cfg.rate, 0) == 0.0;
  }

  /** A pair of new or full buckets joins the map. */
  lemma MappedPair(cfg: Config, b: map<Id, Bucket>, b': map<Id, Bucket>, f: map<Id, Id>, now: int, i: Id, j: Id)
    requires Mapped(cfg, b, b', f, now) && i !in f && i in b && j in b' && Alike(cfg, b[i], b'[j], now)
    requires forall id :: id in f ==> f[id] != j
    ensures Mapped(cfg, b, b', f[i := j], now)
  {
  }

  lemma MappedGrows(
    cfg: Config, b: map<Id, Bucket>, b': map<Id, Bucket>, f: map<Id, Id>, now: int, i: Id, v: Bucket, j: Id, v': Bucket)
    requires Mapped(cfg, b, b', f, now) && i !in f && forall id :: id in f ==> f[id] != j
    ensures Mapped(cfg, b[i := v], b'[j := v'], f, now)
  {
  }

  lemma CallerJoins(
    p: map<Caller, Found>, p': map<Caller, Found>, f: map<Id, Id>, f': map<Id, Id>, now: int, delay: nat, c: Caller, i: Id, j: Id)
    requires CallersAgree(p, p', f, now, delay) && i in f' && f'[i] == j
    requires forall d :: d in p && Live(p[d], now, delay) ==> p[d].id in f' && f'[p[d].id] == f[p[d].id]
    ensures CallersAgree(p[c := Found(i, now)], p'[c := Found(j, now)], f', now, delay)
  {
  }

  lemma EntryJoins<K(!new)>(e: map<K, Slot>, e': map<K, Slot>, f: map<Id, Id>, f': map<Id, Id>, key: K, i: Id, j: Id, now: int)
    requires EntriesAgree(e, e', f) && i in f' && f'[i] == j
    requires forall k :: k in e ==> e[k].id in f' && f'[e[k].id] == f[e[k].id]
    ensures EntriesAgree(e[key := Slot(i, now)], e'[key := Slot(j, now)], f')
  {
  }

  /** What the evicting limiter's new bucket i is to callers and entries, once it stands for j. */
  ghost predicate Joined<K(!new)>(
    cfg: Config, s: State<K>, r: State<K>, f': map<Id, Id>, b': map<Id, Bucket>, now: int, delay: nat, c: Caller, key: K, j: Id)
  {
    && Mapped(cfg, s.buckets[s.next := New(cfg.rate, cfg.burst, now)], b', f', now)
    && CallersAgree(s.pending[c := Found(s.next, now)], r.pending[c := Found(j, now)], f', now, delay)
    && EntriesAgree(s.entries[key := Slot(s.next, now)], r.entries[key := Slot(j, now)], f')
  }

  lemma JoinUnknown<K(!new)>(cfg: Config, s: State<K>, r: State<K>, f: map<Id, Id>, now: int, delay: nat, c: Caller, key: K)
    requires Configured(cfg) && Related(cfg, s, r, f, now, delay) && key !in r.entries
    ensures Joined(cfg, s, r, f[s.next := r.next], r.buckets[r.next := New(cfg.rate, cfg.burst, now)], now, delay, c, key, r.next)
  {
    var b, f' := New(cfg.rate, cfg.burst, now), f[s.next := r.next];
    NewIsGood(cfg, now);
    assert forall id :: id in f ==> f[id] in r.buckets;
    MappedGrows(cfg, s.buckets, r.buckets, f, now, s.next, b, r.next, b);
    MappedPair(cfg, s.buckets[s.next := b], r.buckets[r.next := b], f, now, s.next, r.next);
    CallerJoins(s.pending, r.pending, f, f', now, delay, c, s.next, r.next);
    EntryJoins(s.entries, r.entries, f, f', key, s.next, r.next, now);
  }

  /** Neither has it. */
  lemma FindUnknown<K(!new)>(cfg: Config, s: State<K>, r: State<K>, f: map<Id, Id>, now: int, delay: nat, c: Caller, key: K)
    requires Configured(cfg) && Related(cfg, s, r, f, now, delay) && key !in r.entries
    ensures Related(cfg, FindIn(cfg, s, c, key, now), FindIn(cfg, r, c, key, now), f[s.next := r.next], now, delay)
  {
    JoinUnknown(cfg, s, r, f, now, delay, c, key);
    StampNew(cfg, r, now, delay, c, key);
    assert forall k :: k in r.entries ==> r.entries[k].id in r.buckets;
    EvictedStays(cfg, s.entries, r.entries, r.buckets, r.buckets[r.next := New(cfg.rate, cfg.burst, now)], r.pending, now,
                 delay, c, key, Slot(s.next, now), r.next);
  }

  lemma FoundNow<K(!new)>(e': map<K, Slot>, p': map<Caller, Found>, now: int, c: Caller, key: K, j: Id)
    requires FoundBefore(e', p') && SeenBy(e', now)
    requires key in e' ==> e'[key].id == j
    requires forall k :: k in e' && k != key ==> e'[k].id != j
    requires key !in e' ==> forall d :: d in p' ==> p'[d].id != j
    ensures FoundBefore(e'[key := Slot(j, now)], p'[c := Found(j, now)])
  {
    var e, p := e'[key := Slot(j, now)], p'[c := Found(j, now)];
    forall k, d | k in e && d in p && p[d].id == e[k].id ensures p[d].at <= e[k].lastSeen {
      if d != c {
        assert p[d] == p'[d];
        if k in e' {
          assert e[k].id == e'[k].id && p'[d].at <= e'[k].lastSeen <= e[k].lastSeen;
        }
      }
    }
  }

  /** The limiter that keeps everything, after a look for a key it does not have. */
  lemma StampNew<K(!new)>(cfg: Config, r: State<K>, now: int, delay: nat, c: Caller, key: K)
    requires SeenBy(r.entries, now) && Stamped(r.entries, r.buckets, r.pending, delay) && key !in r.entries
    requires Fresh(map[], 0, r.next, r.buckets, r.pending)
    ensures var r' := FindIn(cfg, r, c, key, now); Stamped(r'.entries, r'.buckets, r'.pending, delay)
  {
    assert forall k :: k in r.entries ==> r.entries[k].id in r.buckets;
    FoundNow(r.entries, r.pending, now, c, key, r.next);
  }

  lemma StampKnown<K(!new)>(cfg: Config, r: State<K>, now: int, delay: nat, c: Caller, key: K)
    requires SeenBy(r.entries, now) && Stamped(r.entries, r.buckets, r.pending, delay) && key in r.entries
    ensures var r' := FindIn(cfg, r, c, key, now); Stamped(r'.entries, r'.buckets, r'.pending, delay)
  {
    FoundNow(r.entries, r.pending, now, c, key, r.entries[key].id);
  }

  lemma EvictedStays<K(!new)>(
    cfg: Config, e: map<K, Slot>, e': map<K, Slot>, b: map<Id, Bucket>, b': map<Id, Bucket>, p': map<Caller, Found>, now: int,
    delay: nat, c: Caller, key: K, slot: Slot, j: Id)
    requires EvictedFull(cfg, e, e', b, p', now, delay)
    requires forall id :: id in b ==> id in b' && b'[id] == b[id]
    requires forall k :: k in e' && k != key ==> e'[k].id != j
    ensures EvictedFull(cfg, e[key := slot], e'[key := Slot(j, now)], b', p'[c := Found(j, now)], now, delay)
  {
    var p := p'[c := Found(j, now)];
    forall k | k in e' && k != key && k !in e
      ensures forall d :: d in p && Live(p[d], now, delay) ==> p[d].id != e'[k].id
    {
      forall d | d in p && Live(p[d], now, delay) ensures p[d].id != e'[k].id {
        assert d != c ==> p[d] == p'[d];
      }
    }
  }

  lemma JoinEvicted<K(!new)>(cfg: Config, s: State<K>, r: State<K>, f: map<Id, Id>, now: int, delay: nat, c: Caller, key: K)
    requires Configured(cfg) && Related(cfg, s, r, f, now, delay) && key in r.entries && key !in s.entries
    ensures var kept := r.entries[key].id;
            Joined(cfg, s, r, Renamed(f, kept)[s.next := kept], r.buckets, now, delay, c, key, kept)
  {
    var b, kept := New(cfg.rate, cfg.burst, now), r.entries[key].id;
    var g := Renamed(f, kept);
    var f' := g[s.next := kept];
    NewIsGood(cfg, now);
    assert Mapped(cfg, s.buckets, r.buckets, g, now);
    MappedGrows(cfg, s.buckets, r.buckets, g, now, s.next, b, kept, r.buckets[kept]);
    assert r.buckets[kept := r.buckets[kept]] == r.buckets;
    MappedPair(cfg, s.buckets[s.next := b], r.buckets, g, now, s.next, kept);
    assert forall d :: d in s.pending && Live(s.pending[d], now, delay) ==> r.pending[d].id != kept;
    CallerJoins(s.pending, r.pending, f, f', now, delay, c, s.next, kept);
    assert forall k :: k in s.entries ==> r.entries[k].id != kept;
    EntryJoins(s.entries, r.entries, f, f', key, s.next, kept, now);
  }

  /** Only the one that keeps everything has it: the new bucket takes the place of the evicted one. */
  lemma FindEvicted<K(!new)>(cfg: Config, s: State<K>, r: State<K>, f: map<Id, Id>, now: int, delay: nat, c: Caller, key: K)
    requires Configured(cfg) && Related(cfg, s, r, f, now, delay) && key in r.entries && key !in s.entries
    ensures var kept := r.entries[key].id;
            Related(cfg, FindIn(cfg, s, c, key, now), FindIn(cfg, r, c, key, now), Renamed(f, kept)[s.next := kept], now, delay)
  {
    var kept := r.entries[key].id;
    JoinEvicted(cfg, s, r, f, now, delay, c, key);
    StampKnown(cfg, r, now, delay, c, key);
    EvictedStays(cfg, s.entries, r.entries, r.buckets, r.buckets, r.pending, now, delay, c, key, Slot(s.next, now), kept);
  }

  ghost function Renamed(f: map<Id, Id>, id: Id): map<Id, Id> {
    map i | i in f && f[i] != id :: f[i]
  }

  lemma TakeRelated<K(!new)>(cfg: Config, s: State<K>, r: State<K>, f: map<Id, Id>, now: int, delay: nat, step: Step<K>)
    requires Related(cfg, s, r, f, now, delay) && step.TakeFrom? && step.now == now && step.n >= 0
    requires step.caller in s.pending ==> Live(s.pending[step.caller], now, delay)
    ensures Answer(s, step) == Answer(r, step)
    ensures Related(cfg, Next(cfg, s, step, true), Next(cfg, r, step, false), f, now, delay)
  {
    if step.caller in s.pending {
      var id := s.pending[step.caller].id;
      AlikeTakes(cfg, s.buckets[id], r.buckets[f[id]], now, step.n);
    }
  }

  /** A bucket that Evict drops is full, and nobody who may still take has found it. */
  lemma EvictRelated<K(!new)>(cfg: Config, s: State<K>, r: State<K>, f: map<Id, Id>, now: int, delay: nat)
    requires Configured(cfg) && RefillsWithin(cfg, delay) && Related(cfg, s, r, f, now, delay)
    ensures Related(cfg, Next(cfg, s, EvictAll(now), true), r, f, now, delay)
  {
    var e := Next(cfg, s, EvictAll(now), true).entries;
    assert Accrued(cfg.rate, 0) == 0.0;
    assert delay <= cfg.ttl;
    forall k | k in s.entries && k !in e
      ensures r.entries[k].id in r.buckets && Good(cfg, r.buckets[r.entries[k].id], now) && FullBy(r.buckets[r.entries[k].id], now)
      ensures forall c :: c in r.pending && Live(r.pending[c], now, delay) ==> r.pending[c].id != r.entries[k].id
    {
      var b := r.buckets[r.entries[k].id];
      assert Alike(cfg, s.buckets[s.entries[k].id], b, now);
      AccruedAdds(cfg.rate, LeastRest(cfg, delay), now - b.lastFill);
    }
  }

  lemma RemoveRelated<K(!new)>(cfg: Config, s: State<K>, r: State<K>, f: map<Id, Id>, now: int, delay: nat, key: K)
    requires Related(cfg, s, r, f, now, delay)
    ensures Related(cfg, s.(entries := s.entries - {key}), r.(entries := r.entries - {key}), f, now, delay)
  {
  }

  ghost predicate FoundIs<K>(s: State<K>, found: map<Caller, int>) {
    s.pending.Keys == found.Keys && forall c :: c in found ==> s.pending[c].at == found[c]
  }

  lemma StepRelated<K(!new)>(
    cfg: Config, s: State<K>, r: State<K>, f: map<Id, Id>, delay: nat, found: map<Caller, int>, step: Step<K>)
    returns (f': map<Id, Id>)
    requires Configured(cfg) && RefillsWithin(cfg, delay) && Related(cfg, s, r, f, step.now, delay) && FoundIs(s, found)
    requires step.TakeFrom? ==> step.n >= 0 && (step.caller in found ==> step.now <= found[step.caller] + delay)
    ensures Answer(s, step) == Answer(r, step)
    ensures Related(cfg, Next(cfg, s, step, true), Next(cfg, r, step, false), f', step.now, delay)
  {
    match step
    case Find(c, key, now) =>
      if key in s.entries {
        f' := f;
        FindKnown(cfg, s, r, f, now, delay, c, key);
      } else if key in r.entries {
        f' := Renamed(f, r.entries[key].id)[s.next := r.entries[key].id];
        FindEvicted(cfg, s, r, f, now, delay, c, key);
      } else {
        f' := f[s.next := r.next];
        FindUnknown(cfg, s, r, f, now, delay, c, key);
      }
    case TakeFrom(_, now, _) =>
      f' := f;
      TakeRelated(cfg, s, r, f, now, delay, step);
    case EvictAll(now) =>
      f' := f;
      EvictRelated(cfg, s, r, f, now, delay);
    case Remove(key, now) =>
      f' := f;
      RemoveRelated(cfg, s, r, f, now, delay, key);
  }

  lemma StepFound<K(!new)>(cfg: Config, s: State<K>, found: map<Caller, int>, step: Step<K>)
    requires FoundIs(s, found)
    requires step.TakeFrom? && step.caller in s.pending ==> Ready(s, step.caller)
    ensures FoundIs(Next(cfg, s, step, true), FoundAfter(found, step))
  {
  }

  /** One step of both, from the time of the step before. */
  lemma BothStep<K(!new)>(
    cfg: Config, s: State<K>, r: State<K>, f: map<Id, Id>, now: int, delay: nat, found: map<Caller, int>, step: Step<K>)
    returns (f': map<Id, Id>)
    requires Configured(cfg) && RefillsWithin(cfg, delay) && Related(cfg, s, r, f, now, delay) && FoundIs(s, found)
    requires now <= step.now
    requires step.TakeFrom? ==> step.n >= 0 && (step.caller in found ==> step.now <= found[step.caller] + delay)
    ensures Answer(s, step) == Answer(r, step)
    ensures Related(cfg, Next(cfg, s, step, true), Next(cfg, r, step, false), f', step.now, delay)
    ensures FoundIs(Next(cfg, s, step, true), FoundAfter(found, step))
  {
    RelatedLater(cfg, s, r, f, now, step.now, delay);
    f' := StepRelated(cfg, s, r, f, delay, found, step);
    assert step.TakeFrom? && step.caller in s.pending ==> s.pending[step.caller].id in f;
    StepFound(cfg, s, found, step);
  }

  lemma {:induction false} AnswersStay<K(!new)>(
    cfg: Config, s: State<K>, r: State<K>, f: map<Id, Id>, now: int, delay: nat, found: map<Caller, int>, steps: seq<Step<K>>)
    requires Configured(cfg) && RefillsWithin(cfg, delay) && Related(cfg, s, r, f, now, delay) && FoundIs(s, found)
    requires Timely(delay, found, now, steps)
    ensures Answered(cfg, s, steps, true) == Answered(cfg, r, steps, false)
    decreases |steps|
  {
    if steps != [] {
      var step := steps[0];
      var f' := BothStep(cfg, s, r, f, now, delay, found, step);
      var s', r' := Next(cfg, s, step, true), Next(cfg, r, step, false);
      AnswersStay(cfg, s', r', f', step.now, delay, FoundAfter(found, step), steps[1..]);
    }
  }

  // ------------------------------------------------------------------ and when they can

  /** Take the whole burst as late as the delay allows, evict as early as the TTL allows, and ask again. */
  function LateProbe<K>(cfg: Config, delay: nat, key: K): seq<Step<K>> {
    var e := EarliestEviction(cfg);
    [Find(0, key, 0), TakeFrom(0, e - LeastRest(cfg, delay), cfg.burst), EvictAll(e), Find(1, key, e), TakeFrom(1, e, cfg.burst)]
  }

  lemma LateProbeIsTimely<K(!new)>(cfg: Config, delay: nat, key: K)
    requires Configured(cfg)
    ensures Timely(delay, map[], 0, LateProbe(cfg, delay, key))
  {
    var p := LateProbe(cfg, delay, key);
    var f1 := map[0 := 0];
    assert f1 == FoundAfter(map[], p[0]);
    assert p[4..] == [p[4]] && p[4..][1..] == [];
    assert p[3..][1..] == p[4..] && p[2..][1..] == p[3..] && p[1..][1..] == p[2..];
    var f3 := FoundAfter(FoundAfter(FoundAfter(f1, p[1]), p[2]), p[3]);
    assert Timely(delay, f3, p[3].now, p[4..]);
    assert Timely(delay, FoundAfter(FoundAfter(f1, p[1]), p[2]), p[2].now, p[3..]);
    assert Timely(delay, FoundAfter(f1, p[1]), p[1].now, p[2..]);
    assert Timely(delay, f1, 0, p[1..]);
  }

  /** The probe's last request is answered true because of the eviction, and false without it. */
  lemma LateProbeTells<K(!new)>(cfg: Config, delay: nat, key: K)
    requires Configured(cfg) && !RefillsWithin(cfg, delay)
    ensures Answered(cfg, Init<K>(), LateProbe(cfg, delay, key), true) == [true, true]
    ensures Answered(cfg, Init<K>(), LateProbe(cfg, delay, key), false) == [true, false]
  {
    ProbeRun(cfg, delay, key, true);
    ProbeRun(cfg, delay, key, false);
  }

  lemma ProbeRun<K(!new)>(cfg: Config, delay: nat, key: K, evicting: bool)
    requires Configured(cfg) && !RefillsWithin(cfg, delay)
    ensures Answered(cfg, Init<K>(), LateProbe(cfg, delay, key), evicting) == [true, evicting]
  {
    var p := LateProbe(cfg, delay, key);
    var e := EarliestEviction(cfg);
    var t := e - LeastRest(cfg, delay);
    var full, empty := New(cfg.rate, cfg.burst, 0), Bucket(cfg.rate, cfg.burst as real, 0.0, t);
    AccruedAdds(cfg.rate, 0, t);
    assert Accrued(cfg.rate, 0) == 0.0;
    var s1 := State(map[0 := full], map[key := Slot(0, 0)], map[0 := Found(0, 0)], 1);
    assert Next(cfg, Init<K>(), p[0], evicting) == s1;
    assert Take(full, t, cfg.burst) == (empty, true);
    var s2 := State(map[0 := empty], map[key := Slot(0, 0)], map[], 1);
    assert Next(cfg, s1, p[1], evicting) == s2;
    var s3 := if evicting then State(map[0 := empty], map[], map[], 1) else s2;
    assert Next(cfg, s2, p[2], evicting) == s3;
    ProbeEnds(cfg, delay, key, evicting, s3, empty);
    assert p[4..][1..] == [] && p[3..][1..] == p[4..] && p[2..][1..] == p[3..] && p[1..][1..] == p[2..];
    assert Answered(cfg, s2, p[2..], evicting) == Answer(s2, p[2]) + Answered(cfg, s3, p[3..], evicting);
    assert Answered(cfg, s1, p[1..], evicting) == [true] + Answered(cfg, s2, p[2..], evicting);
  }

  lemma ProbeEnds<K(!new)>(cfg: Config, delay: nat, key: K, evicting: bool, s: State<K>, empty: Bucket)
    requires Configured(cfg) && !RefillsWithin(cfg, delay)
    requires empty == Bucket(cfg.rate, cfg.burst as real, 0.0, EarliestEviction(cfg) - LeastRest(cfg, delay))
    requires s == State(map[0 := empty], if evicting then map[] else map[key := Slot(0, 0)], map[], 1)
    ensures Answered(cfg, s, LateProbe(cfg, delay, key)[3..], evicting) == [evicting]
  {
    var p := LateProbe(cfg, delay, key);
    var e := EarliestEviction(cfg);
    assert p[3..][1..] == p[4..] && p[4..][1..] == [] && p[3..][0] == Find(1, key, e) && p[4..][0] == TakeFrom(1, e, cfg.burst);
    var s' := Next(cfg, s, p[3], evicting);
    assert Accrued(cfg.rate, 0) == 0.0;
    var b := if evicting then New(cfg.rate, cfg.burst, e) else empty;
    assert Ready(s', 1) && s'.buckets[s'.pending[1].id] == b;
    assert Take(b, e, cfg.burst).1 == evicting;
    assert Answered(cfg, s', p[4..], evicting) == [evicting] + [];
  }

  lemma InitRelated<K(!new)>(cfg: Config, delay: nat)
    ensures Related(cfg, Init<K>(), Init<K>(), map[], 0, delay)
  {
  }

  /** With every caller taking at most `delay` after it found its bucket, and calls and evictions interleaved in any
      way, evictions cannot be told from the answers if and only if a bucket refills completely in the time that is
      then sure to lie between its last take and its eviction.  With no delay this is the condition for atomic calls. */
  lemma UnobservableWithinIff<K(!new)>(cfg: Config, delay: nat, key: K)
    requires Configured(cfg)
    ensures RefillsWithin(cfg, delay) <==>
              forall steps: seq<Step<K>> :: Timely(delay, map[], 0, steps) ==>
                Answered(cfg, Init<K>(), steps, true) == Answered(cfg, Init<K>(), steps, false)
  {
    if RefillsWithin(cfg, delay) {
      forall steps: seq<Step<K>> | Timely(delay, map[], 0, steps)
        ensures Answered(cfg, Init<K>(), steps, true) == Answered(cfg, Init<K>(), steps, false)
      {
        InitRelated<K>(cfg, delay);
        AnswersStay<K>(cfg, Init<K>(), Init<K>(), map[], 0, delay, map[], steps);
      }
    } else {
      LateProbeIsTimely(cfg, delay, key);
      LateProbeTells(cfg, delay, key);
    }
  }
}
