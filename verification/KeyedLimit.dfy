/** pkg/ratelimit/keyed.go: one token bucket per key, idle buckets evicted after a TTL.  In the specification each call
    is one atomic step with one clock reading; module KeyedSteps takes AllowN apart. */
module KeyedLimit {
  import opened RateLimit

  datatype Config = Config(rate: real, burst: int, ttl: int)

  /** What New demands of its caller. */
  ghost predicate Configured(cfg: Config) {
    cfg.rate >= 0.0 && cfg.burst >= 1
  }

  datatype Entry = Entry(limiter: Bucket, lastSeen: int)

  datatype Call<K> =
    | AllowN(key: K, now: int, n: int)
    | Evict(now: int)
    | Delete(key: K, now: int)

  // ------------------------------------------------------------------ the limiter, and one that never evicts

  /** AllowN that finds the bucket at clock `found` and takes from it at `now`. */
  function AllowedAt<K(==)>(cfg: Config, m: map<K, Entry>, key: K, found: int, now: int, n: int): (map<K, Entry>, bool) {
    var limiter := if key in m then m[key].limiter else New(cfg.rate, cfg.burst, found);
    var (limiter', ok) := Take(limiter, now, n);
    (m[key := Entry(limiter', found)], ok)
  }

  function Allowed<K(==)>(cfg: Config, m: map<K, Entry>, key: K, now: int, n: int): (map<K, Entry>, bool) {
    AllowedAt(cfg, m, key, now, now, n)
  }

  predicate Idle(cfg: Config, lastSeen: int, now: int) {
    lastSeen < now - cfg.ttl
  }

  function Evicted<K(==)>(cfg: Config, m: map<K, Entry>, now: int): map<K, Entry> {
    map k | k in m && !Idle(cfg, m[k].lastSeen, now) :: m[k]
  }

  function Apply<K(==)>(cfg: Config, m: map<K, Entry>, c: Call<K>): map<K, Entry> {
    match c
    case AllowN(key, now, n) => Allowed(cfg, m, key, now, n).0
    case Evict(now) => Evicted(cfg, m, now)
    case Delete(key, now) => m - {key}
  }

  /** The answers a sequence of calls gets. */
  function Answers<K(==)>(cfg: Config, m: map<K, Entry>, calls: seq<Call<K>>): seq<bool>
    decreases |calls|
  {
    if calls == [] then [] else
      (match calls[0] case AllowN(key, now, n) => [Allowed(cfg, m, key, now, n).1] case _ => [])
      + Answers(cfg, Apply(cfg, m, calls[0]), calls[1..])
  }

  /** The answers when every key keeps its bucket until it is deleted. */
  function AnswersKept<K(==)>(cfg: Config, r: map<K, Bucket>, calls: seq<Call<K>>): seq<bool>
    decreases |calls|
  {
    if calls == [] then [] else
      match calls[0]
      case AllowN(key, now, n) =>
        var (b, ok) := Take(if key in r then r[key] else New(cfg.rate, cfg.burst, now), now, n);
        [ok] + AnswersKept(cfg, r[key := b], calls[1..])
      case Evict(_) => AnswersKept(cfg, r, calls[1..])
      case Delete(key, _) => AnswersKept(cfg, r - {key}, calls[1..])
  }

  ghost predicate Sane<K(!new)>(from: int, calls: seq<Call<K>>) {
    && (forall i :: 0 <= i < |calls| ==> from <= calls[i].now && (calls[i].AllowN? ==> calls[i].n >= 0))
    && (forall i, j :: 0 <= i < j < |calls| ==> calls[i].now <= calls[j].now)
  }

  // ------------------------------------------------------------------ eviction is unobservable

  /** The least idle time, in nanoseconds, that Evict acts on. */
  function EarliestEviction(cfg: Config): nat {
    if cfg.ttl < 0 then 0 else cfg.ttl + 1
  }

  /** A bucket evicted as soon as it may be has had time to fill up from empty. */
  ghost predicate RefillsBeforeEviction(cfg: Config) {
    Accrued(cfg.rate, EarliestEviction(cfg)) >= cfg.burst as real
  }

  ghost predicate Good(cfg: Config, b: Bucket, now: int) {
    RateLimit.Valid(b) && b.rate == cfg.rate && b.burst == cfg.burst as real && b.lastFill <= now
  }

  /** A missing bucket is one that would be full by now. */
  ghost predicate Matches<K(!new)>(cfg: Config, m: map<K, Entry>, r: map<K, Bucket>, now: int) {
    && (forall k :: k in r ==> Good(cfg, r[k], now))
    && (forall k :: k in m ==> k in r && m[k] == Entry(r[k], r[k].lastFill))
    && (forall k :: k in r && k !in m ==> r[k].tokens + Accrued(cfg.rate, now - r[k].lastFill) >= cfg.burst as real)
  }

  lemma MatchesLater<K(!new)>(cfg: Config, m: map<K, Entry>, r: map<K, Bucket>, now: int, later: int)
    requires Configured(cfg) && Matches(cfg, m, r, now) && now <= later
    ensures Matches(cfg, m, r, later)
  {
    forall k | k in r ensures Accrued(cfg.rate, now - r[k].lastFill) <= Accrued(cfg.rate, later - r[k].lastFill) {
      AccruedAdds(cfg.rate, now - r[k].lastFill, later - r[k].lastFill);
    }
  }

  /** A full bucket and a new one behave alike. */
  lemma FullIsNew(cfg: Config, b: Bucket, now: int)
    requires Configured(cfg) && Good(cfg, b, now)
    requires b.tokens + Accrued(cfg.rate, now - b.lastFill) >= cfg.burst as real
    ensures Filled(b, now) == Filled(New(cfg.rate, cfg.burst, now), now)
  {
    assert Accrued(cfg.rate, 0) == 0.0;
  }

  lemma AllowMatches<K(!new)>(cfg: Config, m: map<K, Entry>, r: map<K, Bucket>, key: K, now: int, n: int)
    requires Configured(cfg) && Matches(cfg, m, r, now) && n >= 0
    ensures var (b, ok) := Take(if key in r then r[key] else New(cfg.rate, cfg.burst, now), now, n);
            Allowed(cfg, m, key, now, n).1 == ok && Matches(cfg, Allowed(cfg, m, key, now, n).0, r[key := b], now)
  {
    var b := if key in r then r[key] else New(cfg.rate, cfg.burst, now);
    assert Good(cfg, b, now);
    if key in r && key !in m { FullIsNew(cfg, b, now); }
    ApplyKeepsValid(b, Attempt(now, n));
    var (b', ok) := Take(b, now, n);
    assert b'.lastFill == now && Good(cfg, b', now);
  }

  lemma EvictMatches<K(!new)>(cfg: Config, m: map<K, Entry>, r: map<K, Bucket>, now: int)
    requires Configured(cfg) && RefillsBeforeEviction(cfg) && Matches(cfg, m, r, now)
    ensures Matches(cfg, Evicted(cfg, m, now), r, now)
  {
    var m' := Evicted(cfg, m, now);
    forall k | k in r && k !in m'
      ensures r[k].tokens + Accrued(cfg.rate, now - r[k].lastFill) >= cfg.burst as real
    {
      if k in m {
        AccruedAdds(cfg.rate, EarliestEviction(cfg), now - r[k].lastFill);
      }
    }
  }

  lemma {:induction false} AnswersAgree<K(!new)>(
    cfg: Config, m: map<K, Entry>, r: map<K, Bucket>, now: int, calls: seq<Call<K>>)
    requires Configured(cfg) && RefillsBeforeEviction(cfg)
    requires Matches(cfg, m, r, now) && Sane(now, calls)
    ensures Answers(cfg, m, calls) == AnswersKept(cfg, r, calls)
    decreases |calls|
  {
    if calls != [] {
      var c, rest := calls[0], calls[1..];
      MatchesLater(cfg, m, r, now, c.now);
      assert Sane(c.now, rest);
      match c
      case AllowN(key, t, n) =>
        AllowMatches(cfg, m, r, key, t, n);
        var b := Take(if key in r then r[key] else New(cfg.rate, cfg.burst, t), t, n).0;
        AnswersAgree(cfg, Apply(cfg, m, c), r[key := b], t, rest);
      case Evict(t) =>
        EvictMatches(cfg, m, r, t);
        AnswersAgree(cfg, Apply(cfg, m, c), r, t, rest);
      case Delete(key, t) =>
        AnswersAgree(cfg, Apply(cfg, m, c), r - {key}, t, rest);
    }
  }

  /** Empty the bucket, evict it as early as the TTL allows, and ask again for the whole burst. */
  function Probe<K>(cfg: Config, key: K): seq<Call<K>> {
    var t := EarliestEviction(cfg);
    [AllowN(key, 0, cfg.burst), Evict(t), AllowN(key, t, cfg.burst)]
  }

  /** When buckets may be evicted before they are full, the probe's second request is answered true
      because of the eviction, and false without it. */
  lemma ProbeTellsThemApart<K(!new)>(cfg: Config, key: K)
    requires Configured(cfg) && !RefillsBeforeEviction(cfg)
    ensures Answers(cfg, map[], Probe(cfg, key)) == [true, true]
    ensures AnswersKept(cfg, map[], Probe(cfg, key)) == [true, false]
  {
    var t := EarliestEviction(cfg);
    var empty := Bucket(cfg.rate, cfg.burst as real, 0.0, 0);
    assert Accrued(cfg.rate, 0) == 0.0;
    assert Take(New(cfg.rate, cfg.burst, 0), 0, cfg.burst) == (empty, true);
    var calls := Probe(cfg, key);
    assert calls[1..] == [Evict(t), AllowN(key, t, cfg.burst)];
    assert calls[1..][1..] == [AllowN(key, t, cfg.burst)];
    var m := map[key := Entry(empty, 0)];
    assert Allowed(cfg, map[], key, 0, cfg.burst) == (m, true);
    assert Evicted(cfg, m, t) == map[];
    assert Take(New(cfg.rate, cfg.burst, t), t, cfg.burst).1;
    assert Allowed(cfg, map[], key, t, cfg.burst).1;
    assert Answers(cfg, map[], calls[1..][1..]) == [true] + [];
    assert Answers(cfg, m, calls[1..]) == [] + Answers(cfg, map[], calls[1..][1..]);
    var r := map[key := empty];
    assert !Take(empty, t, cfg.burst).1;
    assert AnswersKept(cfg, r, calls[1..][1..]) == [false] + [];
    assert AnswersKept(cfg, r, calls[1..]) == AnswersKept(cfg, r, calls[1..][1..]);
    assert map[][key := empty] == r;
  }

  /** Eviction is unobservable, for every sequence of calls on a clock that does not go back, if and
      only if a bucket refills completely in the least idle time that Evict acts on. */
  lemma EvictionUnobservable<K(!new)>(cfg: Config, key: K)
    requires Configured(cfg)
    ensures RefillsBeforeEviction(cfg) <==>
              forall calls: seq<Call<K>> :: Sane(0, calls) ==> Answers(cfg, map[], calls) == AnswersKept(cfg, map[], calls)
  {
    if RefillsBeforeEviction(cfg) {
      forall calls: seq<Call<K>> | Sane(0, calls)
        ensures Answers(cfg, map[], calls) == AnswersKept(cfg, map[], calls)
      {
        AnswersAgree<K>(cfg, map[], map[], 0, calls);
      }
    } else {
      ProbeTellsThemApart(cfg, key);
      assert Sane(0, Probe(cfg, key));
    }
  }

  // ------------------------------------------------------------------ keys are independent

  ghost predicate AgreeOn<K(!new)>(m: map<K, Entry>, m': map<K, Entry>, keys: set<K>) {
    forall k :: k in keys ==> (k in m <==> k in m') && (k in m ==> m[k] == m'[k])
  }

  ghost predicate AsksOnly<K(!new)>(calls: seq<Call<K>>, keys: set<K>) {
    forall i :: 0 <= i < |calls| && calls[i].AllowN? ==> calls[i].key in keys
  }

  /** The answers for some keys depend on the buckets of those keys alone. */
  lemma {:induction false} KeysAreIndependent<K(!new)>(
    cfg: Config, m: map<K, Entry>, m': map<K, Entry>, keys: set<K>, calls: seq<Call<K>>)
    requires AgreeOn(m, m', keys) && AsksOnly(calls, keys)
    ensures Answers(cfg, m, calls) == Answers(cfg, m', calls)
    decreases |calls|
  {
    if calls != [] {
      var c := calls[0];
      assert AgreeOn(Apply(cfg, m, c), Apply(cfg, m', c), keys);
      assert AsksOnly(calls[1..], keys);
      KeysAreIndependent(cfg, Apply(cfg, m, c), Apply(cfg, m', c), keys, calls[1..]);
    }
  }

  /** After Delete the key is answered like one never seen, and every other key as if there had been no Delete. */
  lemma DeleteForgets<K(!new)>(cfg: Config, m: map<K, Entry>, key: K, calls: seq<Call<K>>, others: set<K>)
    requires key !in others
    ensures AsksOnly(calls, {key}) ==> Answers(cfg, m - {key}, calls) == Answers(cfg, map[], calls)
    ensures AsksOnly(calls, others) ==> Answers(cfg, m - {key}, calls) == Answers(cfg, m, calls)
  {
    if AsksOnly(calls, {key}) {
      KeysAreIndependent(cfg, m - {key}, map[], {key}, calls);
    }
    if AsksOnly(calls, others) {
      KeysAreIndependent(cfg, m - {key}, m, others, calls);
    }
  }

  // ------------------------------------------------------------------ the object

  /** A *keyedEntry. */
  datatype Held = Held(limiter: Limiter, lastSeen: int)

  class KeyedLimiter<K(==)> {
    const cfg: Config
    var entries: map<K, Held>

    ghost function Limiters(): set<Limiter>
      reads this
    {
      set k | k in entries :: entries[k].limiter
    }

    /** No two keys share a limiter. */
    ghost predicate Valid()
      reads this
    {
      forall k, l :: k in entries && l in entries && k != l ==> entries[k].limiter != entries[l].limiter
    }

    ghost function View(): map<K, Entry>
      reads this, Limiters()
    {
      map k | k in entries :: Entry(entries[k].limiter.View(), entries[k].lastSeen)
    }

    constructor (cfg: Config)
      ensures Valid() && this.cfg == cfg && entries == map[]
    {
      this.cfg := cfg;
      entries := map[];
    }

    /** limiterFor: the key's limiter, made on first use, with lastSeen brought up to date. */
    method LimiterFor(key: K, now: int) returns (limiter: Limiter)
      requires Valid()
      modifies this
      ensures Valid() && entries == old(entries)[key := Held(limiter, now)]
      ensures key in old(entries) ==> limiter == old(entries)[key].limiter
      ensures key !in old(entries) ==> fresh(limiter) && limiter.View() == New(cfg.rate, cfg.burst, now)
    {
      if key in entries {
        limiter := entries[key].limiter;
      } else {
        limiter := new Limiter(cfg.rate, cfg.burst, now);
      }
      entries := entries[key := Held(limiter, now)];
    }

    /** AllowN: the limiter is found at clock `found` and asked at clock `now`. */
    method AllowN(key: K, found: int, now: int, n: int) returns (ok: bool)
      requires Valid()
      modifies this, Limiters()
      ensures Valid() && (View(), ok) == AllowedAt(cfg, old(View()), key, found, now, n)
      ensures fresh(Limiters() - old(Limiters()))
    {
      var limiter := LimiterFor(key, found);
      assert forall k :: k in old(entries) && k != key ==> entries[k] == old(entries)[k] && entries[k].limiter != limiter;
      ok := limiter.AllowN(now, n);
      ghost var m := AllowedAt(cfg, old(View()), key, found, now, n).0;
      assert entries[key] == Held(limiter, found) && m[key] == Entry(limiter.View(), found);
      assert forall k :: k in entries && k != key ==> View()[k] == m[k];
      assert View() == m;
    }

    method Delete(key: K)
      requires Valid()
      modifies this
      ensures Valid() && View() == old(View()) - {key}
    {
      entries := entries - {key};
    }

    /** Visits the keys in any order, deleting as it goes. */
    method Evict(now: int) returns (n: nat)
      requires Valid()
      modifies this
      ensures Valid() && View() == Evicted(cfg, old(View()), now)
      ensures n + |entries| == |old(entries)|
    {
      var todo := entries.Keys;
      n := 0;
      ghost var m0 := entries;
      while todo != {}
        invariant todo <= entries.Keys
        invariant entries == map k | k in m0 && (k in todo || !Idle(cfg, m0[k].lastSeen, now)) :: m0[k]
        invariant n + |entries| == |m0|
        decreases todo
      {
        var k :| k in todo;
        if Idle(cfg, entries[k].lastSeen, now) {
          DeletionShrinks(entries, k);
          entries := entries - {k};
          n := n + 1;
        }
        todo := todo - {k};
      }
    }
  }

  lemma DeletionShrinks<K, V>(m: map<K, V>, k: K)
    requires k in m
    ensures |m - {k}| == |m| - 1
  {
    assert (m - {k}).Keys == m.Keys - {k};
  }
}
