/** pkg/cache/cache.go: the cache as the source builds it, a doubly linked ring of elements with a
    sentinel, as container/list keeps it, and a map from keys to elements.  Every method is proved to
    perform the operation of CacheSpec on the list's contents, and to keep list and map holding the
    same elements. */
module CacheHeap {
  import opened Common
  import opened CacheSpec

  /** One more on a uint64 counter. */
  function Next(n: nat): nat {
    if n == 0xFFFF_FFFF_FFFF_FFFF then 0 else n + 1
  }

  /** list.Element; only the sentinel holds no entry. */
  class Element<!K, !V> {
    var prev: Element<K, V>
    var next: Element<K, V>
    var entry: Option<Entry<K, V>>

    /** A ring of one. */
    constructor (entry: Option<Entry<K, V>>)
      ensures prev == this && next == this && this.entry == entry
    {
      this.entry := entry;
      prev, next := this, this;
    }
  }

  // ------------------------------------------------------------------ rings

  /** The ring through `root` and then `order`, written out from root to root. */
  ghost function Chain<K, V>(root: Element<K, V>, order: seq<Element<K, V>>): seq<Element<K, V>> {
    [root] + order + [root]
  }

  ghost predicate Distinct'<T>(s: seq<T>) {
    forall i, j :: 0 <= i < j < |s| ==> s[i] != s[j]
  }

  ghost predicate Ring<K, V>(root: Element<K, V>, order: seq<Element<K, V>>)
    reads root`prev, root`next, order`prev, order`next
  {
    && Distinct'([root] + order)
    && var c := Chain(root, order);
       && (forall i :: 0 <= i <= |order| ==> c[i].next == c[i + 1])
       && (forall i :: 0 <= i <= |order| ==> c[i + 1].prev == c[i])
  }

  /** list.Remove */
  method Unlink<K, V>(root: Element<K, V>, ghost order: seq<Element<K, V>>, el: Element<K, V>, ghost i: nat)
    requires Ring(root, order) && i < |order| && order[i] == el
    modifies root`prev, root`next, order`prev, order`next
    ensures Ring(root, Removed(order, i))
  {
    ghost var c, order' := Chain(root, order), Removed(order, i);
    ghost var c' := Chain(root, order');
    var p, n := el.prev, el.next;
    assert c[i + 1] == el && c[i].next == el && p == c[i] && n == c[i + 2];
    assert p == root || p in order;
    assert n == root || n in order;
    p.next := n;
    n.prev := p;
    assert forall j :: 0 <= j < |c'| ==> c'[j] == c[if j <= i then j else j + 1];
    forall j | 0 <= j <= |order'| ensures c'[j].next == c'[j + 1] && c'[j + 1].prev == c'[j] {
    }
    assert Distinct'([root] + order') by {
      assert forall j :: 0 <= j <= |order'| ==> ([root] + order')[j] == ([root] + order)[if j <= i then j else j + 1];
    }
  }

  /** list.PushFront */
  method LinkFront<K, V>(root: Element<K, V>, ghost order: seq<Element<K, V>>, el: Element<K, V>)
    requires Ring(root, order) && el != root && el !in order
    modifies root`prev, root`next, order`prev, order`next, el`prev, el`next
    ensures Ring(root, [el] + order)
  {
    ghost var c, c' := Chain(root, order), Chain(root, [el] + order);
    var n := root.next;
    assert c[0].next == c[1] && c[1].prev == c[0];
    assert n == root || n in order;
    el.prev := root;
    el.next := n;
    root.next := el;
    n.prev := el;
    assert forall j :: 1 < j < |c'| ==> c'[j] == c[j - 1];
    forall j | 0 <= j <= |order| + 1 ensures c'[j].next == c'[j + 1] && c'[j + 1].prev == c'[j] {
    }
    ghost var d, d' := [root] + order, [root] + ([el] + order);
    forall a, b | 0 <= a < b < |d'| ensures d'[a] != d'[b] {
      assert d'[b] == if b == 1 then el else d[b - 1];
      assert a > 1 ==> d'[a] == d[a - 1];
    }
  }

  lemma RingWithout<K, V>(root: Element<K, V>, order: seq<Element<K, V>>, i: nat)
    requires Ring(root, order) && i < |order|
    ensures order[i] != root && order[i] !in Removed(order, i)
  {
    var d, rest := [root] + order, Removed(order, i);
    assert d[0] == root && d[i + 1] == order[i];
    assert forall j :: 0 <= j < |rest| ==> rest[j] == d[if j < i then j + 1 else j + 2];
  }

  /** list.MoveToFront */
  method RelinkFront<K, V>(root: Element<K, V>, ghost order: seq<Element<K, V>>, el: Element<K, V>, ghost i: nat)
    requires Ring(root, order) && i < |order| && order[i] == el
    modifies root`prev, root`next, order`prev, order`next
    ensures Ring(root, [el] + Removed(order, i))
  {
    RingWithout(root, order, i);
    Unlink(root, order, el, i);
    LinkFront(root, Removed(order, i), el);
  }

  // ------------------------------------------------------------------ contents and index

  /** The listed elements hold these entries. */
  ghost predicate Holds<K, V>(order: seq<Element<K, V>>, contents: seq<Entry<K, V>>)
    reads order`entry
  {
    |order| == |contents| && forall i :: 0 <= i < |order| ==> order[i].entry == Some(contents[i])
  }

  /** The map holds exactly the listed elements, each under the key of its entry. */
  ghost predicate Indexed<K, V>(items: map<K, Element<K, V>>, order: seq<Element<K, V>>, contents: seq<Entry<K, V>>) {
    && |order| == |contents|
    && (forall i :: 0 <= i < |order| ==> contents[i].key in items && items[contents[i].key] == order[i])
    && (forall k :: k in items ==> exists i :: 0 <= i < |contents| && contents[i].key == k)
  }

  ghost function Removed<T>(s: seq<T>, i: nat): (r: seq<T>)
    requires i < |s|
    ensures |r| == |s| - 1 && forall j :: 0 <= j < |r| ==> r[j] == s[if j < i then j else j + 1]
  {
    s[..i] + s[i + 1..]
  }

  lemma IndexedDistinct<K, V>(items: map<K, Element<K, V>>, order: seq<Element<K, V>>, contents: seq<Entry<K, V>>)
    requires Indexed(items, order, contents) && Distinct'(order)
    ensures Distinct(contents)
  {
  }

  lemma IndexRemove<K, V>(items: map<K, Element<K, V>>, order: seq<Element<K, V>>, contents: seq<Entry<K, V>>, i: nat)
    requires Indexed(items, order, contents) && Distinct(contents) && i < |order|
    ensures Indexed(items - {contents[i].key}, Removed(order, i), Removed(contents, i))
  {
    var items', contents' := items - {contents[i].key}, Removed(contents, i);
    forall k | k in items' ensures exists j :: 0 <= j < |contents'| && contents'[j].key == k {
      var j :| 0 <= j < |contents| && contents[j].key == k;
      assert contents'[if j < i then j else j - 1].key == k;
    }
  }

  lemma IndexPush<K, V>(
    items: map<K, Element<K, V>>, order: seq<Element<K, V>>, contents: seq<Entry<K, V>>, el: Element<K, V>, e: Entry<K, V>)
    requires Indexed(items, order, contents) && e.key !in items
    ensures Indexed(items[e.key := el], [el] + order, [e] + contents)
  {
    var items', contents' := items[e.key := el], [e] + contents;
    forall k | k in items' ensures exists j :: 0 <= j < |contents'| && contents'[j].key == k {
      if k == e.key { assert contents'[0].key == k; } else {
        var j :| 0 <= j < |contents| && contents[j].key == k;
        assert contents'[j + 1].key == k;
      }
    }
  }

  lemma IndexMove<K, V>(items: map<K, Element<K, V>>, order: seq<Element<K, V>>, contents: seq<Entry<K, V>>, i: nat)
    requires Indexed(items, order, contents) && Distinct(contents) && i < |order|
    ensures Indexed(items, [order[i]] + Removed(order, i), [contents[i]] + Removed(contents, i))
  {
    var key := contents[i].key;
    IndexRemove(items, order, contents, i);
    IndexPush(items - {key}, Removed(order, i), Removed(contents, i), order[i], contents[i]);
    assert items == (items - {key})[key := order[i]];
  }

  lemma IndexUpdate<K, V>(items: map<K, Element<K, V>>, order: seq<Element<K, V>>, contents: seq<Entry<K, V>>, e: Entry<K, V>)
    requires Indexed(items, order, contents) && contents != [] && contents[0].key == e.key
    ensures Indexed(items, order, contents[0 := e])
  {
    var contents' := contents[0 := e];
    forall k | k in items ensures exists j :: 0 <= j < |contents'| && contents'[j].key == k {
      var j :| 0 <= j < |contents| && contents[j].key == k;
      assert contents'[j].key == k;
    }
  }

  // ------------------------------------------------------------------ the recency list, by position

  /** Removing position i from a list with distinct keys is removing its key. */
  lemma {:induction false} RemoveIsWithout<K, V>(s: seq<Entry<K, V>>, i: nat)
    requires Distinct(s) && i < |s|
    ensures Without(s, s[i].key) == Removed(s, i)
    ensures Lookup(s, s[i].key) == Some(s[i])
    decreases |s|
  {
    if i == 0 {
      assert forall j :: 0 <= j < |s[1..]| ==> s[1..][j] == s[j + 1];
      NotThere(s[1..], s[0].key);
    } else {
      var t := s[1..];
      assert forall j :: 0 <= j < |t| ==> t[j] == s[j + 1];
      RemoveIsWithout(t, i - 1);
      assert Removed(s, i) == [s[0]] + Removed(t, i - 1);
    }
  }

  lemma GetByPosition<K, V>(s: seq<Entry<K, V>>, i: nat, now: int)
    requires Distinct(s) && i < |s|
    ensures CacheSpec.Get(s, s[i].key, now) ==
              if Expired(s[i], now) then (Removed(s, i), None) else ([s[i]] + Removed(s, i), Some(s[i].value))
  {
    RemoveIsWithout(s, i);
  }

  lemma {:induction false} NotThere<K, V>(s: seq<Entry<K, V>>, key: K)
    requires forall i :: 0 <= i < |s| ==> s[i].key != key
    ensures Lookup(s, key) == None && Without(s, key) == s
    decreases |s|
  {
    if s != [] {
      assert forall j :: 0 <= j < |s[1..]| ==> s[1..][j] == s[j + 1];
      NotThere(s[1..], key);
    }
  }

  /** The contents once the sweep has come down to position i. */
  ghost function SweptTo<K, V>(s: seq<Entry<K, V>>, i: nat, now: int): seq<Entry<K, V>>
    requires i <= |s|
  {
    s[..i] + Unexpired(s[i..], now)
  }

  lemma {:induction false} SweepOne<K, V>(s: seq<Entry<K, V>>, i: nat, now: int)
    requires i < |s|
    ensures var now', next := SweptTo(s, i + 1, now), SweptTo(s, i, now);
            && i < |now'| && now'[i] == s[i]
            && next == if Expired(s[i], now) then Removed(now', i) else now'
  {
    assert s[i..][1..] == s[i + 1..];
  }

  lemma SweepEnds<K, V>(s: seq<Entry<K, V>>, now: int)
    ensures SweptTo(s, |s|, now) == s && SweptTo(s, 0, now) == Unexpired(s, now)
  {
    assert s[|s|..] == [] && s[0..] == s;
  }

  // ------------------------------------------------------------------ the cache

  class Cache<!K(==), !V> {
    const capacity: nat
    const ttl: int
    const root: Element<K, V>
    var len: nat
    var items: map<K, Element<K, V>>
    var hits: nat
    var misses: nat
    var evicts: nat
    /** The list's elements, and their entries, from front to back. */
    ghost var order: seq<Element<K, V>>
    ghost var contents: seq<Entry<K, V>>

    ghost predicate Valid()
      reads this, root, order
    {
      && Ring(root, order)
      && Holds(order, contents)
      && Indexed(items, order, contents)
      && len == |order| <= capacity && capacity >= 1
    }

    lemma Facts()
      requires Valid()
      ensures Distinct'(order) && root !in order && Distinct(contents)
    {
      assert forall i :: 0 <= i < |order| ==> ([root] + order)[i + 1] == order[i];
      assert ([root] + order)[0] == root;
      IndexedDistinct(items, order, contents);
    }

    /** New panics when capacity < 1. */
    constructor (capacity: nat, ttl: int)
      requires capacity >= 1
      ensures Valid() && contents == [] && this.capacity == capacity && this.ttl == ttl
      ensures hits == misses == evicts == 0
      ensures fresh(root) && order == []
    {
      this.capacity, this.ttl := capacity, ttl;
      root := new Element(None);
      len, items, order, contents := 0, map[], [], [];
      hits, misses, evicts := 0, 0, 0;
    }

    method RemoveElement(el: Element<K, V>, ghost i: nat)
      requires Valid() && i < |order| && order[i] == el
      modifies this`len, this`order, this`contents, this`items, root`prev, root`next, order`prev, order`next
      ensures Valid() && order == Removed(old(order), i) && contents == Removed(old(contents), i)
    {
      Facts();
      IndexRemove(items, order, contents, i);
      assert el.entry == Some(contents[i]);
      Unlink(root, order, el, i);
      len := len - 1;
      items := items - {el.entry.value.key};
      order, contents := Removed(order, i), Removed(contents, i);
    }

    method MoveToFront(el: Element<K, V>, ghost i: nat)
      requires Valid() && i < |order| && order[i] == el
      modifies this`order, this`contents, root`prev, root`next, order`prev, order`next
      ensures Valid() && order == [el] + Removed(old(order), i)
      ensures contents == [old(contents)[i]] + Removed(old(contents), i)
    {
      Facts();
      ghost var e := contents[i];
      IndexMove(items, order, contents, i);
      RelinkFront(root, order, el, i);
      order, contents := [el] + Removed(order, i), [e] + Removed(contents, i);
    }

    method EvictOldest()
      requires Valid()
      modifies this`len, this`order, this`contents, this`items, this`evicts, root`prev, root`next, order`prev, order`next
      ensures Valid()
      ensures old(order) == [] ==> order == [] && contents == []
      ensures old(order) != [] ==> order == old(order)[..|old(order)| - 1]
      ensures old(order) != [] ==> contents == old(contents)[..|old(contents)| - 1]
      ensures evicts == if old(order) == [] then old(evicts) else Next(old(evicts))
    {
      var el := Back();
      if el == root {
        AtRoot(|order|);
      } else {
        RemoveElement(el, len - 1);
        evicts := Next(evicts);
      }
    }

    /** Finds the position of a key's element. */
    lemma Position(key: K) returns (i: nat)
      requires Valid() && key in items
      ensures i < |order| && order[i] == items[key] && contents[i].key == key && Distinct(contents)
    {
      i :| 0 <= i < |contents| && contents[i].key == key;
      Facts();
    }

    lemma Absent(key: K)
      requires Valid() && key !in items
      ensures Lookup(contents, key) == None && Without(contents, key) == contents
    {
      NotThere(contents, key);
    }

    method Get(key: K, now: int) returns (r: Option<V>)
      requires Valid()
      modifies this, root`prev, root`next, order`prev, order`next
      ensures Valid() && (contents, r) == CacheSpec.Get(old(contents), key, now)
      ensures r.Some? ==> hits == Next(old(hits)) && misses == old(misses)
      ensures r.None? ==> misses == Next(old(misses)) && hits == old(hits)
      ensures evicts == old(evicts)
    {
      if key !in items {
        Absent(key);
        misses := Next(misses);
        return None;
      }
      var el := items[key];
      ghost var i := Position(key);
      GetByPosition(contents, i, now);
      r := GetElement(el, i, now);
    }

    /** Get on a key that is present. */
    method GetElement(el: Element<K, V>, ghost i: nat, now: int) returns (r: Option<V>)
      requires Valid() && i < |order| && order[i] == el
      modifies this, root`prev, root`next, order`prev, order`next
      ensures Valid()
      ensures (contents, r) == if Expired(old(contents)[i], now) then (Removed(old(contents), i), None)
                               else ([old(contents)[i]] + Removed(old(contents), i), Some(old(contents)[i].value))
      ensures r.Some? ==> hits == Next(old(hits)) && misses == old(misses)
      ensures r.None? ==> misses == Next(old(misses)) && hits == old(hits)
      ensures evicts == old(evicts)
    {
      assert el.entry == Some(contents[i]);
      if Expired(el.entry.value, now) {
        RemoveElement(el, i);
        misses := Next(misses);
        return None;
      }
      r := Some(el.entry.value.value);
      MoveToFront(el, i);
      hits := Next(hits);
    }

    method Set(key: K, value: V, now: int)
      requires Valid()
      modifies this, root`prev, root`next, order
      ensures Valid() && forall x :: x in order ==> x in old(order) || fresh(x)
      ensures contents == CacheSpec.Set(capacity, ttl, old(contents), key, value, now)
      ensures hits == old(hits) && misses == old(misses)
      ensures evicts == if Lookup(old(contents), key).None? && |old(contents)| >= capacity then Next(old(evicts))
                        else old(evicts)
    {
      var e := Entry(key, value, NewExpiry(ttl, now));
      if key in items {
        Update(key, e);
      } else {
        Absent(key);
        Insert(key, e);
      }
    }

    /** Set on a key that is present. */
    method Update(key: K, e: Entry<K, V>)
      requires Valid() && key in items && e.key == key
      modifies this`order, this`contents, root`prev, root`next, order
      ensures Valid() && forall x :: x in order ==> x in old(order)
      ensures contents == [e] + Without(old(contents), key)
      ensures Lookup(old(contents), key).Some?
    {
      var el := items[key];
      ghost var i := Position(key);
      RemoveIsWithout(contents, i);
      MoveToFront(el, i);
      Overwrite(el, e);
    }

    method Overwrite(el: Element<K, V>, e: Entry<K, V>)
      requires Valid() && order != [] && order[0] == el && contents[0].key == e.key
      modifies this`contents, el`entry
      ensures Valid() && contents == [e] + old(contents)[1..]
    {
      Facts();
      IndexUpdate(items, order, contents, e);
      el.entry := Some(e);
      contents := contents[0 := e];
    }

    /** Set on a key that is absent. */
    method Insert(key: K, e: Entry<K, V>)
      requires Valid() && key !in items && e.key == key
      modifies this, root`prev, root`next, order`prev, order`next
      ensures Valid() && forall x :: x in order ==> x in old(order) || fresh(x)
      ensures contents == [e] + if |old(contents)| >= capacity then old(contents)[..|old(contents)| - 1] else old(contents)
      ensures hits == old(hits) && misses == old(misses)
      ensures evicts == if |old(contents)| >= capacity then Next(old(evicts)) else old(evicts)
    {
      if len >= capacity {
        EvictOldest();
      }
      var el := new Element(Some(e));
      Push(el, e);
    }

    method Push(el: Element<K, V>, e: Entry<K, V>)
      requires Valid() && len < capacity && e.key !in items
      requires el != root && el !in order && el.entry == Some(e)
      modifies this`len, this`items, this`order, this`contents, root`prev, root`next, order`prev, order`next, el`prev, el`next
      ensures Valid() && order == [el] + old(order) && contents == [e] + old(contents)
    {
      IndexPush(items, order, contents, el, e);
      LinkFront(root, order, el);
      order, contents := [el] + order, [e] + contents;
      len, items := len + 1, items[e.key := el];
    }

    method Delete(key: K)
      requires Valid()
      modifies this, root`prev, root`next, order`prev, order`next
      ensures Valid() && contents == Without(old(contents), key)
      ensures hits == old(hits) && misses == old(misses) && evicts == old(evicts)
    {
      if key in items {
        ghost var i := Position(key);
        RemoveIsWithout(contents, i);
        RemoveElement(items[key], i);
      } else {
        Absent(key);
      }
    }

    method Clear()
      requires Valid()
      modifies this, root
      ensures Valid() && contents == []
      ensures hits == old(hits) && misses == old(misses) && evicts == old(evicts)
    {
      root.prev, root.next := root, root;
      len, items := 0, map[];
      order, contents := [], [];
    }

    method DeleteExpired(now: int)
      requires Valid()
      modifies this, root`prev, root`next, order`prev, order`next
      ensures Valid() && contents == Sweep(ttl, old(contents), now)
      ensures hits == old(hits) && misses == old(misses) && evicts == old(evicts)
    {
      if ttl != 0 {
        SweepList(now);
      }
    }

    /** Walks from the back to the front, unlinking as it goes. */
    method SweepList(now: int)
      requires Valid()
      modifies this`len, this`order, this`contents, this`items, root`prev, root`next, order`prev, order`next
      ensures Valid() && contents == Unexpired(old(contents), now)
    {
      ghost var c0 := contents;
      ghost var i: nat := |order|;
      SweepEnds(c0, now);
      var el := Back();
      while el != root
        invariant Valid() && i <= |c0| && i <= |order|
        invariant forall j :: 0 <= j < |order| ==> order[j] in old(order)
        invariant el == ([root] + order)[i]
        invariant contents == SweptTo(c0, i, now)
        decreases i
      {
        i := i - 1;
        el := SweepElement(el, c0, i, now);
      }
      AtRoot(i);
    }

    method Back() returns (el: Element<K, V>)
      requires Valid()
      ensures el == ([root] + order)[|order|]
    {
      assert Chain(root, order)[|order| + 1].prev == Chain(root, order)[|order|];
      el := root.prev;
    }

    lemma AtRoot(i: nat)
      requires Valid() && i <= |order| && ([root] + order)[i] == root
      ensures i == 0
    {
      assert ([root] + order)[0] == root;
    }

    /** One turn of the sweep: unlinks the element if it has expired, and steps to the one before it. */
    method SweepElement(el: Element<K, V>, ghost c0: seq<Entry<K, V>>, ghost i: nat, now: int) returns (next: Element<K, V>)
      requires Valid() && i < |order| && order[i] == el
      requires i < |c0| && contents == SweptTo(c0, i + 1, now)
      modifies this`len, this`order, this`contents, this`items, root`prev, root`next, order`prev, order`next
      ensures Valid() && i <= |order| && next == ([root] + order)[i]
      ensures forall j :: 0 <= j < |order| ==> order[j] in old(order)
      ensures contents == SweptTo(c0, i, now)
    {
      SweepOne(c0, i, now);
      assert Chain(root, order)[i + 1].prev == Chain(root, order)[i];
      next := el.prev;
      assert el.entry == Some(contents[i]);
      if Expired(el.entry.value, now) {
        RemoveElement(el, i);
      }
    }
  }
}
