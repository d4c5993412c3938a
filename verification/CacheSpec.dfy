/** pkg/cache/cache.go as operations on a recency list, most recently used entry first.  The class in
    CacheHeap.dfy is proved to perform these operations on its linked list and map. */
module CacheSpec {
  import opened Common

  /** expires == None is the zero time: no TTL. */
  datatype Entry<K, V> = Entry(key: K, value: V, expires: Option<int>)

  function NewExpiry(ttl: int, now: int): Option<int> {
    if ttl == 0 then None else Some(now + ttl)
  }

  predicate Expired<K, V>(e: Entry<K, V>, now: int) {
    e.expires.Some? && now > e.expires.value
  }

  function Lookup<K(==), V>(s: seq<Entry<K, V>>, key: K): Option<Entry<K, V>> {
    if s == [] then None else if s[0].key == key then Some(s[0]) else Lookup(s[1..], key)
  }

  function Without<K(==), V>(s: seq<Entry<K, V>>, key: K): (r: seq<Entry<K, V>>)
    ensures |r| <= |s|
  {
    if s == [] then [] else if s[0].key == key then Without(s[1..], key) else [s[0]] + Without(s[1..], key)
  }

  function Unexpired<K, V>(s: seq<Entry<K, V>>, now: int): (r: seq<Entry<K, V>>)
    ensures |r| <= |s|
  {
    if s == [] then [] else if Expired(s[0], now) then Unexpired(s[1..], now) else [s[0]] + Unexpired(s[1..], now)
  }

  /** Lookup finds an entry with the key exactly when there is one. */
  lemma LookupMembers<K, V>(s: seq<Entry<K, V>>, key: K)
    ensures Lookup(s, key).Some? ==> Lookup(s, key).value in s && Lookup(s, key).value.key == key
    ensures Lookup(s, key).None? <==> forall e :: e in s ==> e.key != key
  {
  }

  lemma WithoutMembers<K, V>(s: seq<Entry<K, V>>, key: K)
    ensures forall e :: e in Without(s, key) ==> e in s && e.key != key
    ensures forall e :: e in s && e.key != key ==> e in Without(s, key)
  {
  }

  /** The sweep keeps an entry if and only if it has no expiry or its expiry has not passed. */
  lemma UnexpiredMembers<K, V>(s: seq<Entry<K, V>>, now: int)
    ensures forall e :: e in Unexpired(s, now) ==> e in s && (e.expires.None? || now <= e.expires.value)
    ensures forall e :: e in s && (e.expires.None? || now <= e.expires.value) ==> e in Unexpired(s, now)
  {
  }

  function Get<K(==), V>(s: seq<Entry<K, V>>, key: K, now: int): (seq<Entry<K, V>>, Option<V>) {
    match Lookup(s, key)
    case None => (s, None)
    case Some(e) =>
      if Expired(e, now) then (Without(s, key), None) else ([e] + Without(s, key), Some(e.value))
  }

  function Set<K(==), V>(capacity: nat, ttl: int, s: seq<Entry<K, V>>, key: K, value: V, now: int): seq<Entry<K, V>> {
    var e := Entry(key, value, NewExpiry(ttl, now));
    if Lookup(s, key).Some? then [e] + Without(s, key)
    else if |s| >= capacity && s != [] then [e] + s[..|s| - 1]
    else [e] + s
  }

  function Sweep<K, V>(ttl: int, s: seq<Entry<K, V>>, now: int): seq<Entry<K, V>> {
    if ttl == 0 then s else Unexpired(s, now)
  }

  ghost predicate Distinct<K, V>(s: seq<Entry<K, V>>) {
    forall i, j :: 0 <= i < j < |s| ==> s[i].key != s[j].key
  }

  // ------------------------------------------------------------------ traces

  datatype Op<K, V> =
    | DoGet(key: K, now: int)
    | DoSet(key: K, value: V, now: int)
    | DoDelete(key: K)
    | DoClear
    | DoSweep(now: int)

  function Apply<K(==), V>(capacity: nat, ttl: int, s: seq<Entry<K, V>>, op: Op<K, V>): seq<Entry<K, V>> {
    match op
    case DoGet(key, now) => Get(s, key, now).0
    case DoSet(key, value, now) => Set(capacity, ttl, s, key, value, now)
    case DoDelete(key) => Without(s, key)
    case DoClear => []
    case DoSweep(now) => Sweep(ttl, s, now)
  }

  /** The contents after a trace, starting empty. */
  function After<K(==), V>(capacity: nat, ttl: int, ops: seq<Op<K, V>>): seq<Entry<K, V>> {
    if ops == [] then [] else Apply(capacity, ttl, After(capacity, ttl, ops[..|ops| - 1]), ops[|ops| - 1])
  }

  /** What the i-th call, a Get, returned. */
  function HitAt<K(==), V>(capacity: nat, ttl: int, ops: seq<Op<K, V>>, i: nat): Option<V>
    requires i < |ops| && ops[i].DoGet?
  {
    Get(After(capacity, ttl, ops[..i]), ops[i].key, ops[i].now).1
  }

  // ------------------------------------------------------------------ order-preserving inclusion

  ghost predicate Sub<T>(a: seq<T>, b: seq<T>) {
    a == [] || (b != [] && if a[0] == b[0] then Sub(a[1..], b[1..]) else Sub(a, b[1..]))
  }

  lemma {:induction false} SubTail<T>(a: seq<T>, b: seq<T>)
    requires a != [] && Sub(a, b)
    ensures Sub(a[1..], b)
    decreases |b|, 0
  {
    if a[0] == b[0] { SubWeaken(a[1..], b[0], b[1..]); } else {
      SubTail(a, b[1..]);
      SubWeaken(a[1..], b[0], b[1..]);
    }
    assert b == [b[0]] + b[1..];
  }

  lemma {:induction false} SubWeaken<T>(a: seq<T>, x: T, b: seq<T>)
    requires Sub(a, b)
    ensures Sub(a, [x] + b)
    decreases |b|, 1
  {
    assert ([x] + b)[1..] == b;
    if a != [] && a[0] == x { SubTail(a, b); }
  }

  lemma {:induction false} SubMembers<T>(a: seq<T>, b: seq<T>)
    requires Sub(a, b)
    ensures (forall x :: x in a ==> x in b) && |a| <= |b|
    decreases |b|
  {
    if a != [] {
      if a[0] == b[0] {
        SubMembers(a[1..], b[1..]);
        assert a == [a[0]] + a[1..];
      } else {
        SubMembers(a, b[1..]);
      }
    }
  }

  lemma {:induction false} SubDropLast<T>(a: seq<T>, b: seq<T>)
    requires a != [] && Sub(a, b)
    ensures b != [] && Sub(a[..|a| - 1], b[..|b| - 1]) && Sub(a[..|a| - 1], b)
    decreases |b|
  {
    var a', b' := a[..|a| - 1], b[..|b| - 1];
    if |a| > 1 {
      assert a'[0] == a[0];
      if a[0] == b[0] {
        SubMembers(a[1..], b[1..]);
        SubDropLast(a[1..], b[1..]);
        assert a'[1..] == a[1..][..|a| - 2] && b'[1..] == b[1..][..|b| - 2];
      } else {
        SubMembers(a, b[1..]);
        SubDropLast(a, b[1..]);
        assert b'[1..] == b[1..][..|b| - 2];
      }
    }
  }

  /** Removing a key keeps the inclusion and takes at least as many entries from the larger list. */
  lemma {:induction false} SubWithout<K, V>(a: seq<Entry<K, V>>, b: seq<Entry<K, V>>, key: K)
    requires Sub(a, b)
    ensures Sub(Without(a, key), Without(b, key))
    ensures |a| - |Without(a, key)| <= |b| - |Without(b, key)|
    decreases |b|
  {
    if a != [] {
      if a[0] == b[0] {
        SubWithout(a[1..], b[1..], key);
      } else {
        SubWithout(a, b[1..], key);
        SubWeaken(Without(a, key), b[0], Without(b[1..], key));
      }
    }
  }

  lemma {:induction false} SubUnexpired<K, V>(a: seq<Entry<K, V>>, b: seq<Entry<K, V>>, now: int)
    requires Sub(a, b)
    ensures Sub(Unexpired(a, now), Unexpired(b, now))
    ensures |a| - |Unexpired(a, now)| <= |b| - |Unexpired(b, now)|
    decreases |b|
  {
    if a != [] {
      if a[0] == b[0] {
        SubUnexpired(a[1..], b[1..], now);
      } else {
        SubUnexpired(a, b[1..], now);
        SubWeaken(Unexpired(a, now), b[0], Unexpired(b[1..], now));
      }
    }
  }

  lemma {:induction false} WithoutAbsent<K, V>(s: seq<Entry<K, V>>, key: K)
    requires Lookup(s, key).None?
    ensures Without(s, key) == s
  {
    if s != [] { WithoutAbsent(s[1..], key); }
  }

  lemma {:induction false} WithoutOne<K, V>(s: seq<Entry<K, V>>, key: K)
    requires Distinct(s)
    ensures Distinct(Without(s, key))
    ensures |Without(s, key)| == |s| - (if Lookup(s, key).Some? then 1 else 0)
    decreases |s|
  {
    if s != [] {
      WithoutOne(s[1..], key);
      if s[0].key == key {
        forall e | e in s[1..] ensures e.key != key { var i :| 0 <= i < |s[1..]| && s[1..][i] == e; assert s[i + 1] == e; }
        LookupMembers(s[1..], key);
        WithoutAbsent(s[1..], key);
      } else {
        var r := Without(s[1..], key);
        WithoutMembers(s[1..], key);
        forall i | 0 <= i < |r| ensures r[i].key != s[0].key {
          assert r[i] in r && r[i] in s[1..];
          var j :| 0 <= j < |s[1..]| && s[1..][j] == r[i];
          assert s[j + 1] == r[i];
        }
      }
    }
  }

  lemma {:induction false} UnexpiredDistinct<K, V>(s: seq<Entry<K, V>>, now: int)
    requires Distinct(s)
    ensures Distinct(Unexpired(s, now))
    decreases |s|
  {
    if s != [] {
      UnexpiredDistinct(s[1..], now);
      var r := Unexpired(s[1..], now);
      UnexpiredMembers(s[1..], now);
      forall i | 0 <= i < |r| ensures r[i].key != s[0].key {
        assert r[i] in r && r[i] in s[1..];
        var j :| 0 <= j < |s[1..]| && s[1..][j] == r[i];
        assert s[j + 1] == r[i];
      }
    }
  }

  /** Keys stay distinct and the capacity is never exceeded. */
  lemma ApplyKeepsShape<K, V>(capacity: nat, ttl: int, s: seq<Entry<K, V>>, op: Op<K, V>)
    requires capacity >= 1 && Distinct(s) && |s| <= capacity
    ensures Distinct(Apply(capacity, ttl, s, op)) && |Apply(capacity, ttl, s, op)| <= capacity
  {
    match op
    case DoGet(key, now) =>
      WithoutOne(s, key);
      LookupMembers(s, key);
      WithoutMembers(s, key);
      assert forall j :: 0 <= j < |Without(s, key)| ==> Without(s, key)[j] in Without(s, key);
    case DoSet(key, value, now) =>
      WithoutOne(s, key);
      LookupMembers(s, key);
      WithoutMembers(s, key);
      var s' := Apply(capacity, ttl, s, op);
      forall j | 0 < j < |s'| ensures s'[j].key != key {
        assert if Lookup(s, key).None? then s'[j] == s[j - 1] && s[j - 1] in s
               else s'[j] == Without(s, key)[j - 1] && s'[j] in Without(s, key);
      }
    case DoDelete(key) => WithoutOne(s, key);
    case DoClear =>
    case DoSweep(now) => UnexpiredDistinct(s, now);
  }

  /** The smaller cache holds a sublist of the larger one, and has no more free slots. */
  ghost predicate Included<K, V>(small: seq<Entry<K, V>>, c: nat, big: seq<Entry<K, V>>, d: nat) {
    && Distinct(small) && |small| <= c
    && Distinct(big) && |big| <= d
    && Sub(small, big)
    && c - |small| <= d - |big|
  }

  lemma LookupAgrees<K, V>(small: seq<Entry<K, V>>, big: seq<Entry<K, V>>, key: K)
    requires Sub(small, big) && Distinct(big) && Lookup(small, key).Some?
    ensures Lookup(big, key) == Lookup(small, key)
  {
    SubMembers(small, big);
    LookupMembers(small, key);
    LookupMembers(big, key);
  }

  lemma SetIncluded<K, V>(
    small: seq<Entry<K, V>>, c: nat, big: seq<Entry<K, V>>, d: nat, ttl: int, key: K, value: V, now: int)
    requires 1 <= c <= d && Included(small, c, big, d)
    ensures Included(Set(c, ttl, small, key, value, now), c, Set(d, ttl, big, key, value, now), d)
  {
    ApplyKeepsShape(c, ttl, small, DoSet(key, value, now));
    ApplyKeepsShape(d, ttl, big, DoSet(key, value, now));
    SubWithout(small, big, key);
    WithoutOne(big, key);
    WithoutOne(small, key);
    var e := Entry(key, value, NewExpiry(ttl, now));
    if Lookup(small, key).Some? {
      LookupAgrees(small, big, key);
      assert Sub([e] + Without(small, key), [e] + Without(big, key)) by {
        assert ([e] + Without(small, key))[1..] == Without(small, key);
        assert ([e] + Without(big, key))[1..] == Without(big, key);
      }
    } else {
      WithoutAbsent(small, key);
      var small' := if |small| >= c then small[..|small| - 1] else small;
      var big' := if Lookup(big, key).Some? then Without(big, key)
                  else if |big| >= d then big[..|big| - 1] else big;
      if small != [] {
        SubDropLast(small, big);
        SubDropLast(small, Without(big, key));
      }
      assert Sub(small', big');
      assert ([e] + small')[1..] == small' && ([e] + big')[1..] == big';
    }
  }

  lemma GetIncluded<K, V>(small: seq<Entry<K, V>>, c: nat, big: seq<Entry<K, V>>, d: nat, key: K, now: int)
    requires 1 <= c <= d && Included(small, c, big, d)
    ensures Included(Get(small, key, now).0, c, Get(big, key, now).0, d)
    ensures Get(small, key, now).1.Some? ==> Get(big, key, now).1 == Get(small, key, now).1
  {
    ApplyKeepsShape(c, 0, small, DoGet(key, now));
    ApplyKeepsShape(d, 0, big, DoGet(key, now));
    SubWithout(small, big, key);
    WithoutOne(big, key);
    WithoutOne(small, key);
    if Lookup(small, key).Some? {
      LookupAgrees(small, big, key);
      var e := Lookup(small, key).value;
      assert ([e] + Without(small, key))[1..] == Without(small, key);
      assert ([e] + Without(big, key))[1..] == Without(big, key);
    } else {
      WithoutAbsent(small, key);
      if Lookup(big, key).Some? { SubWeaken(small, Lookup(big, key).value, Without(big, key)); }
    }
  }

  lemma ApplyIncluded<K, V>(
    small: seq<Entry<K, V>>, c: nat, big: seq<Entry<K, V>>, d: nat, ttl: int, op: Op<K, V>)
    requires 1 <= c <= d && Included(small, c, big, d)
    ensures Included(Apply(c, ttl, small, op), c, Apply(d, ttl, big, op), d)
  {
    ApplyKeepsShape(c, ttl, small, op);
    ApplyKeepsShape(d, ttl, big, op);
    match op
    case DoGet(key, now) => GetIncluded(small, c, big, d, key, now);
    case DoSet(key, value, now) => SetIncluded(small, c, big, d, ttl, key, value, now);
    case DoDelete(key) => SubWithout(small, big, key);
    case DoClear =>
    case DoSweep(now) => SubUnexpired(small, big, now);
  }

  lemma {:induction false} TraceIncluded<K, V>(c: nat, d: nat, ttl: int, ops: seq<Op<K, V>>)
    requires 1 <= c <= d
    ensures Included(After(c, ttl, ops), c, After(d, ttl, ops), d)
    decreases |ops|
  {
    if ops != [] {
      TraceIncluded(c, d, ttl, ops[..|ops| - 1]);
      var s, b := After(c, ttl, ops[..|ops| - 1]), After(d, ttl, ops[..|ops| - 1]);
      ApplyIncluded(s, c, b, d, ttl, ops[|ops| - 1]);
    }
  }

  /** After every trace under one clock, a cache holds every entry, with value and expiry and in the
      same order, of a cache of smaller capacity; so no Get that hits in the smaller one misses, or
      returns anything else, in the larger one. */
  lemma {:induction false} LruInclusion<K, V>(c: nat, d: nat, ttl: int, ops: seq<Op<K, V>>)
    requires 1 <= c <= d
    ensures Sub(After(c, ttl, ops), After(d, ttl, ops))
    ensures forall e :: e in After(c, ttl, ops) ==> e in After(d, ttl, ops)
    ensures forall i :: 0 <= i < |ops| && ops[i].DoGet? && HitAt(c, ttl, ops, i).Some? ==>
              HitAt(d, ttl, ops, i) == HitAt(c, ttl, ops, i)
  {
    TraceIncluded(c, d, ttl, ops);
    SubMembers(After(c, ttl, ops), After(d, ttl, ops));
    forall i | 0 <= i < |ops| && ops[i].DoGet? && HitAt(c, ttl, ops, i).Some?
      ensures HitAt(d, ttl, ops, i) == HitAt(c, ttl, ops, i)
    {
      TraceIncluded(c, d, ttl, ops[..i]);
      GetIncluded(After(c, ttl, ops[..i]), c, After(d, ttl, ops[..i]), d, ops[i].key, ops[i].now);
    }
  }

  // ------------------------------------------------------------------ what a hit returns

  /** The last Set of the key, unless it has been deleted or everything cleared since. */
  ghost function LastSet<K, V>(ops: seq<Op<K, V>>, key: K): Option<(V, int)> {
    if ops == [] then None
    else match ops[|ops| - 1]
         case DoSet(k, v, now) => if k == key then Some((v, now)) else LastSet(ops[..|ops| - 1], key)
         case DoDelete(k) => if k == key then None else LastSet(ops[..|ops| - 1], key)
         case DoClear => None
         case _ => LastSet(ops[..|ops| - 1], key)
  }

  ghost predicate FromLastSet<K, V>(ttl: int, ops: seq<Op<K, V>>, e: Entry<K, V>) {
    && LastSet(ops, e.key).Some?
    && e == Entry(e.key, LastSet(ops, e.key).value.0, NewExpiry(ttl, LastSet(ops, e.key).value.1))
  }

  lemma {:induction false} ContentsFromLastSet<K, V>(capacity: nat, ttl: int, ops: seq<Op<K, V>>)
    ensures forall e :: e in After(capacity, ttl, ops) ==> FromLastSet(ttl, ops, e)
    decreases |ops|
  {
    if ops != [] {
      var init, op := ops[..|ops| - 1], ops[|ops| - 1];
      ContentsFromLastSet(capacity, ttl, init);
      var s := After(capacity, ttl, init);
      if op.DoGet? || op.DoSet? || op.DoDelete? {
        LookupMembers(s, op.key);
        WithoutMembers(s, op.key);
      } else if op.DoSweep? {
        UnexpiredMembers(s, op.now);
      }
      forall e | e in After(capacity, ttl, ops) ensures FromLastSet(ttl, ops, e) {
        match op
        case DoGet(key, _) => assert e in s || e in Without(s, key);
        case DoSet(key, value, now) =>
          assert e == Entry(key, value, NewExpiry(ttl, now)) || e in s || e in Without(s, key);
        case DoDelete(key) => assert e in Without(s, key);
        case DoClear =>
        case DoSweep(now) => assert e in s || e in Unexpired(s, now);
      }
    }
  }

  /** A hit returns the value last Set for the key, which has been neither deleted nor cleared since,
      no later than its expiry. */
  lemma HitReturnsLastSet<K, V>(capacity: nat, ttl: int, ops: seq<Op<K, V>>, key: K, now: int)
    requires Get(After(capacity, ttl, ops), key, now).1.Some?
    ensures LastSet(ops, key).Some?
    ensures Get(After(capacity, ttl, ops), key, now).1.value == LastSet(ops, key).value.0
    ensures ttl != 0 ==> now <= LastSet(ops, key).value.1 + ttl
  {
    ContentsFromLastSet(capacity, ttl, ops);
    LookupMembers(After(capacity, ttl, ops), key);
    var e := Lookup(After(capacity, ttl, ops), key).value;
    assert FromLastSet(ttl, ops, e);
  }

  // ------------------------------------------------------------------ the list is in order of use

  /** The position of the last Get or Set of the key in the trace, -1 if there is none. */
  ghost function LastUse<K, V>(ops: seq<Op<K, V>>, key: K): int {
    if ops == [] then -1
    else if (ops[|ops| - 1].DoGet? || ops[|ops| - 1].DoSet?) && ops[|ops| - 1].key == key then |ops| - 1
    else LastUse(ops[..|ops| - 1], key)
  }

  ghost predicate ByRecency<K, V>(ops: seq<Op<K, V>>, s: seq<Entry<K, V>>) {
    s == [] || ((forall e :: e in s[1..] ==> LastUse(ops, s[0].key) > LastUse(ops, e.key)) && ByRecency(ops, s[1..]))
  }

  lemma {:induction false} LastUseInTrace<K, V>(ops: seq<Op<K, V>>, key: K)
    ensures LastUse(ops, key) < |ops|
    decreases |ops|
  {
    if ops != [] { LastUseInTrace(ops[..|ops| - 1], key); }
  }

  lemma {:induction false} RecencyOfPart<K, V>(ops: seq<Op<K, V>>, s: seq<Entry<K, V>>, key: K)
    requires ByRecency(ops, s)
    ensures ByRecency(ops, Without(s, key))
    ensures s != [] ==> ByRecency(ops, s[..|s| - 1])
    decreases |s|
  {
    if s != [] {
      RecencyOfPart(ops, s[1..], key);
      WithoutMembers(s[1..], key);
      assert ([s[0]] + Without(s[1..], key))[1..] == Without(s[1..], key);
      if |s| > 1 { assert s[..|s| - 1][1..] == s[1..][..|s| - 2]; }
    }
  }

  lemma {:induction false} RecencyOfUnexpired<K, V>(ops: seq<Op<K, V>>, s: seq<Entry<K, V>>, now: int)
    requires ByRecency(ops, s)
    ensures ByRecency(ops, Unexpired(s, now))
    decreases |s|
  {
    if s != [] {
      RecencyOfUnexpired(ops, s[1..], now);
      UnexpiredMembers(s[1..], now);
      assert ([s[0]] + Unexpired(s[1..], now))[1..] == Unexpired(s[1..], now);
    }
  }

  /** One more call changes no last use but that of its own key. */
  lemma {:induction false} RecencyLater<K, V>(ops: seq<Op<K, V>>, s: seq<Entry<K, V>>)
    requires ops != [] && ByRecency(ops[..|ops| - 1], s)
    requires ops[|ops| - 1].DoGet? || ops[|ops| - 1].DoSet? ==> Lookup(s, ops[|ops| - 1].key).None?
    ensures ByRecency(ops, s)
    decreases |s|
  {
    if s != [] {
      if ops[|ops| - 1].DoGet? || ops[|ops| - 1].DoSet? { LookupMembers(s, ops[|ops| - 1].key); }
      RecencyLater(ops, s[1..]);
      forall e | e in s ensures LastUse(ops, e.key) == LastUse(ops[..|ops| - 1], e.key) {}
      assert s[0] in s;
    }
  }

  lemma RecencyFront<K, V>(ops: seq<Op<K, V>>, e: Entry<K, V>, s: seq<Entry<K, V>>)
    requires ops != [] && (ops[|ops| - 1].DoGet? || ops[|ops| - 1].DoSet?) && ops[|ops| - 1].key == e.key
    requires ByRecency(ops, s) && Lookup(s, e.key).None?
    ensures ByRecency(ops, [e] + s)
  {
    assert ([e] + s)[1..] == s;
    LookupMembers(s, e.key);
    forall x | x in s ensures LastUse(ops, e.key) > LastUse(ops, x.key) {
      LastUseInTrace(ops[..|ops| - 1], x.key);
    }
  }

  /** After every trace the list is sorted by last use, so the entry that a Set at capacity evicts, the
      last one, is the one used least recently. */
  lemma {:induction false} EvictionIsLru<K, V>(capacity: nat, ttl: int, ops: seq<Op<K, V>>)
    requires capacity >= 1
    ensures Distinct(After(capacity, ttl, ops)) && |After(capacity, ttl, ops)| <= capacity
    ensures ByRecency(ops, After(capacity, ttl, ops))
    decreases |ops|
  {
    if ops != [] {
      var init, op := ops[..|ops| - 1], ops[|ops| - 1];
      EvictionIsLru(capacity, ttl, init);
      var s := After(capacity, ttl, init);
      ApplyKeepsShape(capacity, ttl, s, op);
      if op.DoGet? || op.DoSet? || op.DoDelete? {
        LookupMembers(s, op.key);
        WithoutMembers(s, op.key);
        LookupMembers(Without(s, op.key), op.key);
      }
      match op
      case DoGet(key, now) =>
        RecencyOfPart(init, s, key);
        RecencyLater(ops, Without(s, key));
        if Lookup(s, key).None? {
          WithoutAbsent(s, key);
        } else {
          RecencyFront(ops, Lookup(s, key).value, Without(s, key));
        }
      case DoSet(key, value, now) =>
        RecencyOfPart(init, s, key);
        var e := Entry(key, value, NewExpiry(ttl, now));
        RecencyLater(ops, Without(s, key));
        RecencyFront(ops, e, Without(s, key));
        if Lookup(s, key).None? {
          WithoutAbsent(s, key);
          if |s| >= capacity {
            LookupMembers(s[..|s| - 1], key);
            RecencyLater(ops, s[..|s| - 1]);
            RecencyFront(ops, e, s[..|s| - 1]);
          }
        }
      case DoDelete(key) =>
        RecencyOfPart(init, s, key);
        RecencyLater(ops, Without(s, key));
      case DoClear =>
      case DoSweep(now) =>
        RecencyOfUnexpired(init, s, now);
        RecencyLater(ops, s);
        RecencyLater(ops, Unexpired(s, now));
    }
  }

  // ------------------------------------------------------------------ when a Get hits

  /** The position of the last Set of the key that no Delete of it and no Clear has followed, -1 if there is none. */
  ghost function SetAt<K, V>(ops: seq<Op<K, V>>, key: K): (i: int)
    ensures -1 <= i < |ops|
    ensures i >= 0 ==> ops[i].DoSet? && ops[i].key == key && LastSet(ops, key) == Some((ops[i].value, ops[i].now))
    ensures i < 0 <==> LastSet(ops, key).None?
  {
    if ops == [] then -1
    else match ops[|ops| - 1]
         case DoSet(k, _, _) => if k == key then |ops| - 1 else SetAt(ops[..|ops| - 1], key)
         case DoDelete(k) => if k == key then -1 else SetAt(ops[..|ops| - 1], key)
         case DoClear => -1
         case _ => SetAt(ops[..|ops| - 1], key)
  }

  /** The call is a Get of the key or a sweep, and reads a clock later than the set time plus the ttl. */
  ghost predicate TooLate<K, V>(ttl: int, op: Op<K, V>, key: K, set': int) {
    ttl != 0 && ((op.DoGet? && op.key == key) || op.DoSweep?) && op.now > set' + ttl
  }

  /** The call sets another key that is not there, finds the cache full, and the key at the end of the list. */
  ghost predicate Evicts<K, V>(capacity: nat, s: seq<Entry<K, V>>, op: Op<K, V>, key: K) {
    && op.DoSet? && op.key != key && (forall e :: e in s ==> e.key != op.key)
    && |s| >= capacity && s != [] && s[|s| - 1].key == key
  }

  /** No call after the i-th, which set the key, has found it too late or evicted it. */
  ghost predicate KeptSince<K, V>(capacity: nat, ttl: int, ops: seq<Op<K, V>>, key: K, i: nat)
    requires i < |ops| && ops[i].DoSet?
    decreases |ops|
  {
    var init, last := ops[..|ops| - 1], ops[|ops| - 1];
    i == |ops| - 1 ||
    (&& KeptSince(capacity, ttl, init, key, i)
     && !TooLate(ttl, last, key, ops[i].now) && !Evicts(capacity, After(capacity, ttl, init), last, key))
  }

  /** The key has been set, and since then not deleted, cleared, found too late or evicted. */
  ghost predicate Alive<K, V>(capacity: nat, ttl: int, ops: seq<Op<K, V>>, key: K) {
    SetAt(ops, key) >= 0 && KeptSince(capacity, ttl, ops, key, SetAt(ops, key))
  }

  /** What one call does to the presence of a key that is there since clock set'. */
  lemma StaysUnlessDropped<K, V>(capacity: nat, ttl: int, s: seq<Entry<K, V>>, op: Op<K, V>, e: Entry<K, V>, set': int)
    requires Distinct(s) && e in s && e.expires == NewExpiry(ttl, set')
    requires !op.DoClear? && !(op.DoDelete? && op.key == e.key) && !(op.DoSet? && op.key == e.key)
    ensures e in Apply(capacity, ttl, s, op) <==> !TooLate(ttl, op, e.key, set') && !Evicts(capacity, s, op, e.key)
  {
    match op
    case DoGet(key, now) => GetKeeps(s, key, now, ttl, e, set');
    case DoSet(key, value, now) => SetKeeps(capacity, ttl, s, op, e);
    case DoDelete(key) => WithoutMembers(s, key);
    case DoSweep(now) => UnexpiredMembers(s, now);
  }

  lemma GetKeeps<K, V>(s: seq<Entry<K, V>>, key: K, now: int, ttl: int, e: Entry<K, V>, set': int)
    requires Distinct(s) && e in s && e.expires == NewExpiry(ttl, set')
    ensures e in Get(s, key, now).0 <==> !(ttl != 0 && key == e.key && now > set' + ttl)
  {
    WithoutMembers(s, key);
    LookupMembers(s, key);
    if key == e.key {
      LookupOf(s, e);
    }
  }

  lemma LookupOf<K, V>(s: seq<Entry<K, V>>, e: Entry<K, V>)
    requires Distinct(s) && e in s
    ensures Lookup(s, e.key) == Some(e)
  {
    LookupMembers(s, e.key);
    var d := Lookup(s, e.key).value;
    var i :| 0 <= i < |s| && s[i] == e;
    var j :| 0 <= j < |s| && s[j] == d;
  }

  lemma SetKeeps<K, V>(capacity: nat, ttl: int, s: seq<Entry<K, V>>, op: Op<K, V>, e: Entry<K, V>)
    requires Distinct(s) && e in s && op.DoSet? && op.key != e.key
    ensures e in Apply(capacity, ttl, s, op) <==> !Evicts(capacity, s, op, e.key)
  {
    LookupMembers(s, op.key);
    WithoutMembers(s, op.key);
    var i :| 0 <= i < |s| && s[i] == e;
    if Lookup(s, op.key).None? && |s| >= capacity {
      var s', x := Apply(capacity, ttl, s, op), Entry(op.key, op.value, NewExpiry(ttl, op.now));
      assert s' == [x] + s[..|s| - 1];
      if i < |s| - 1 {
        assert s'[i + 1] == e;
      } else {
        assert forall j :: 0 <= j < |s| - 1 ==> s[j].key != s[i].key;
      }
    }
  }

  lemma NoNewEntry<K, V>(capacity: nat, ttl: int, s: seq<Entry<K, V>>, op: Op<K, V>, key: K)
    requires forall e :: e in s ==> e.key != key
    requires !(op.DoSet? && op.key == key)
    ensures forall e :: e in Apply(capacity, ttl, s, op) ==> e.key != key
  {
    if op.DoGet? || op.DoSet? || op.DoDelete? {
      LookupMembers(s, op.key);
      WithoutMembers(s, op.key);
    } else if op.DoSweep? {
      UnexpiredMembers(s, op.now);
    }
  }

  /** The entry that the last Set of the key made. */
  ghost function EntrySet<K, V>(ttl: int, ops: seq<Op<K, V>>, key: K): Entry<K, V>
    requires SetAt(ops, key) >= 0
  {
    var op := ops[SetAt(ops, key)];
    Entry(key, op.value, NewExpiry(ttl, op.now))
  }

  /** An entry of the key is the one its last Set made. */
  lemma OnlyEntrySet<K, V>(capacity: nat, ttl: int, ops: seq<Op<K, V>>, e: Entry<K, V>)
    requires e in After(capacity, ttl, ops)
    ensures SetAt(ops, e.key) >= 0 && e == EntrySet(ttl, ops, e.key)
  {
    ContentsFromLastSet(capacity, ttl, ops);
    assert FromLastSet(ttl, ops, e);
  }

  lemma SetKeepsSet<K, V>(ops: seq<Op<K, V>>, key: K)
    requires ops != [] && SetAt(ops, key) >= 0 && SetAt(ops, key) != |ops| - 1
    ensures var op := ops[|ops| - 1];
            && SetAt(ops[..|ops| - 1], key) == SetAt(ops, key)
            && !op.DoClear? && !(op.DoDelete? && op.key == key) && !(op.DoSet? && op.key == key)
  {
  }

  /** The key is there exactly while it is alive. */
  lemma {:induction false} PresentIff<K, V>(capacity: nat, ttl: int, ops: seq<Op<K, V>>, key: K)
    requires capacity >= 1
    ensures Alive(capacity, ttl, ops, key) <==> SetAt(ops, key) >= 0 && EntrySet(ttl, ops, key) in After(capacity, ttl, ops)
    decreases |ops|
  {
    if SetAt(ops, key) >= 0 {
      var init, op := ops[..|ops| - 1], ops[|ops| - 1];
      var s := After(capacity, ttl, init);
      if SetAt(ops, key) == |ops| - 1 {
        assert EntrySet(ttl, ops, key) == Apply(capacity, ttl, s, op)[0];
      } else {
        SetKeepsSet(ops, key);
        PresentIff(capacity, ttl, init, key);
        EvictionIsLru(capacity, ttl, init);
        PresentStep(capacity, ttl, init, op, key);
      }
    }
  }

  lemma PresentStep<K, V>(capacity: nat, ttl: int, init: seq<Op<K, V>>, op: Op<K, V>, key: K)
    requires Distinct(After(capacity, ttl, init)) && SetAt(init, key) >= 0
    requires !op.DoClear? && !(op.DoDelete? && op.key == key) && !(op.DoSet? && op.key == key)
    ensures var s, e := After(capacity, ttl, init), EntrySet(ttl, init, key);
            e in Apply(capacity, ttl, s, op) <==>
              e in s && !TooLate(ttl, op, key, init[SetAt(init, key)].now) && !Evicts(capacity, s, op, key)
  {
    var s, e := After(capacity, ttl, init), EntrySet(ttl, init, key);
    if e in s {
      StaysUnlessDropped(capacity, ttl, s, op, e, init[SetAt(init, key)].now);
    } else {
      forall d | d in s ensures d.key != key {
        OnlyEntrySet(capacity, ttl, init, d);
      }
      NoNewEntry(capacity, ttl, s, op, key);
    }
  }

  /** Get hits if and only if the key has been set and not deleted or cleared since, no Get of it and no sweep since
      and not this Get reads a clock later than its set time plus the ttl, if there is one, and it has not been evicted
      since; and then it returns the value last set. */
  lemma HitIff<K, V>(capacity: nat, ttl: int, ops: seq<Op<K, V>>, i: nat)
    requires capacity >= 1 && i < |ops| && ops[i].DoGet?
    ensures HitAt(capacity, ttl, ops, i).Some? <==>
              && Alive(capacity, ttl, ops[..i], ops[i].key)
              && (ttl == 0 || ops[i].now <= ops[SetAt(ops[..i], ops[i].key)].now + ttl)
    ensures HitAt(capacity, ttl, ops, i).Some? ==>
              HitAt(capacity, ttl, ops, i).value == ops[SetAt(ops[..i], ops[i].key)].value
  {
    var before, key := ops[..i], ops[i].key;
    var s := After(capacity, ttl, before);
    PresentIff(capacity, ttl, before, key);
    EvictionIsLru(capacity, ttl, before);
    LookupMembers(s, key);
    if Lookup(s, key).Some? {
      OnlyEntrySet(capacity, ttl, before, Lookup(s, key).value);
    }
    if Alive(capacity, ttl, before, key) {
      LookupOf(s, EntrySet(ttl, before, key));
    }
  }

  // ------------------------------------------------------------------ when nothing is evicted

  /** The other keys that have been got or set since the key last was. */
  ghost function OthersUsed<K, V>(ops: seq<Op<K, V>>, key: K): set<K> {
    if ops == [] then {}
    else
      var init, last := ops[..|ops| - 1], ops[|ops| - 1];
      if !last.DoGet? && !last.DoSet? then OthersUsed(init, key)
      else if last.key == key then {} else OthersUsed(init, key) + {last.key}
  }

  lemma {:induction false} UsedLater<K, V>(ops: seq<Op<K, V>>, key: K, other: K)
    requires LastUse(ops, other) > LastUse(ops, key) && other != key
    ensures other in OthersUsed(ops, key)
    decreases |ops|
  {
    if ops != [] {
      var init, last := ops[..|ops| - 1], ops[|ops| - 1];
      LastUseInTrace(init, other);
      if !((last.DoGet? || last.DoSet?) && (last.key == key || last.key == other)) {
        UsedLater(init, key, other);
      }
    }
  }

  ghost function KeysOf<K, V>(s: seq<Entry<K, V>>): set<K> {
    set e | e in s :: e.key
  }

  lemma {:induction false} AsManyKeys<K, V>(s: seq<Entry<K, V>>)
    requires Distinct(s)
    ensures |KeysOf(s)| == |s|
    decreases |s|
  {
    if s != [] {
      var init, last := s[..|s| - 1], s[|s| - 1];
      AsManyKeys(init);
      assert s == init + [last];
      assert KeysOf(s) == KeysOf(init) + {last.key};
      assert last.key !in KeysOf(init) by {
        assert forall e :: e in init ==> e.key != last.key;
      }
    }
  }

  lemma {:induction false} LastIsOldest<K, V>(ops: seq<Op<K, V>>, s: seq<Entry<K, V>>, e: Entry<K, V>)
    requires ByRecency(ops, s) && s != [] && e in s[..|s| - 1]
    ensures LastUse(ops, e.key) > LastUse(ops, s[|s| - 1].key)
    decreases |s|
  {
    if e == s[0] {
      assert s[|s| - 1] in s[1..];
    } else {
      assert s[1..][..|s| - 2] == s[..|s| - 1][1..];
      LastIsOldest(ops, s[1..], e);
    }
  }

  /** A key is evicted only when at least `capacity` other keys have been got or set since it last was. */
  lemma EvictedAfterManyUses<K, V>(capacity: nat, ttl: int, init: seq<Op<K, V>>, op: Op<K, V>, key: K)
    requires capacity >= 1 && Evicts(capacity, After(capacity, ttl, init), op, key)
    ensures |OthersUsed(init, key) + {op.key}| >= capacity
  {
    var s := After(capacity, ttl, init);
    EvictionIsLru(capacity, ttl, init);
    var others := s[..|s| - 1];
    AsManyKeys(others);
    forall k | k in KeysOf(others) ensures k in OthersUsed(init, key) {
      var e :| e in others && e.key == k;
      LastIsOldest(init, s, e);
      UsedLater(init, key, k);
    }
    assert op.key !in KeysOf(others);
    assert |KeysOf(others) + {op.key}| == capacity;
    SubsetIsSmaller(KeysOf(others) + {op.key}, OthersUsed(init, key) + {op.key});
  }

  lemma {:induction false} SubsetIsSmaller<T>(a: set<T>, b: set<T>)
    requires a <= b
    ensures |a| <= |b|
    decreases a
  {
    if x :| x in a {
      SubsetIsSmaller(a - {x}, b - {x});
    }
  }

  /** At no point since the i-th call had `capacity` other keys been got or set since the key last was. */
  ghost predicate FewOthers<K, V>(capacity: nat, ops: seq<Op<K, V>>, key: K, i: nat)
    requires i < |ops|
    decreases |ops|
  {
    i == |ops| - 1 || (FewOthers(capacity, ops[..|ops| - 1], key, i) && |OthersUsed(ops, key)| < capacity)
  }

  /** No Get of the key and no sweep since the i-th call read a clock later than limit. */
  ghost predicate InTime<K, V>(ops: seq<Op<K, V>>, key: K, i: nat, limit: int) {
    forall j :: i < j < |ops| && ((ops[j].DoGet? && ops[j].key == key) || ops[j].DoSweep?) ==> ops[j].now <= limit
  }

  lemma {:induction false} KeptIfFew<K, V>(capacity: nat, ttl: int, ops: seq<Op<K, V>>, key: K, i: nat)
    requires capacity >= 1 && i < |ops| && ops[i].DoSet?
    requires FewOthers(capacity, ops, key, i) && (ttl == 0 || InTime(ops, key, i, ops[i].now + ttl))
    ensures KeptSince(capacity, ttl, ops, key, i)
    decreases |ops|
  {
    if i < |ops| - 1 {
      var init, last := ops[..|ops| - 1], ops[|ops| - 1];
      KeptIfFew(capacity, ttl, init, key, i);
      if Evicts(capacity, After(capacity, ttl, init), last, key) {
        EvictedAfterManyUses(capacity, ttl, init, last, key);
      }
    }
  }

  /** In particular a key that has been set, and not deleted or cleared, is hit by a Get within its ttl, however the
      other calls come, if fewer than `capacity` other keys were got or set between any two uses of it since. */
  lemma HitIfFewOthers<K, V>(capacity: nat, ttl: int, ops: seq<Op<K, V>>, i: nat)
    requires capacity >= 1 && i < |ops| && ops[i].DoGet? && SetAt(ops[..i], ops[i].key) >= 0
    requires FewOthers(capacity, ops[..i], ops[i].key, SetAt(ops[..i], ops[i].key))
    requires ttl == 0 || (var j := SetAt(ops[..i], ops[i].key);
                          InTime(ops[..i], ops[i].key, j, ops[j].now + ttl) && ops[i].now <= ops[j].now + ttl)
    ensures HitAt(capacity, ttl, ops, i) == Some(ops[SetAt(ops[..i], ops[i].key)].value)
  {
    KeptIfFew(capacity, ttl, ops[..i], ops[i].key, SetAt(ops[..i], ops[i].key));
    HitIff(capacity, ttl, ops, i);
  }
}
