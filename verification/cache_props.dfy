/** The behaviour the cache promises its callers, stated on the linked
    implementation and proved through its refinement of `LruSpec`. */
module CacheProps {
  import opened Seqs
  import opened Entries
  import opened LinkedList
  import opened ListLemmas
  import opened LruCache
  import opened CacheLemmas
  import LruSpec

  /** Size: the list and the index always hold the same number of entries,
      never more than the capacity (none when it is zero or negative). */
  lemma SizeBound<V>(c: Cache<V>, order: seq<nat>)
    requires Inv(c, order)
    ensures c.queue.len == |c.items| <= LruSpec.Room(c.capacity)
  {
    InvContents(c, order);
    KeysCount(Contents(c, order));
    assert |c.items.Keys| == |c.items|;
  }

  /** The keys a `Set` leaves indexed are those of the reference's new
      contents. */
  lemma SetKeys<V>(c: Cache<V>, order: seq<nat>, key: Key, value: V)
    requires Inv(c, order)
    ensures Set(c, key, value).cache.items.Keys == KeysOf(LruSpec.Set(c.capacity, Contents(c, order), key, value).entries)
  {
    SetRefines(c, order, key, value);
  }

  /** `Set` of a new key with room to spare adds the key and evicts nothing. */
  lemma SetWithRoom<V>(c: Cache<V>, order: seq<nat>, key: Key, value: V)
    requires Inv(c, order) && key !in c.items && c.queue.len < c.capacity
    ensures Set(c, key, value).cache.items.Keys == c.items.Keys + {key}
  {
    InvContents(c, order);
    var s := Contents(c, order);
    SetKeys(c, order, key, value);
    LruSpec.SetNew(c.capacity, s, key, value);
    KeysOfCons(CachedValue(key, value), s);
  }

  /** `Set` of a new key into a full cache evicts exactly one key, that of
      the back (least recently used) node, and it is not the key just set. */
  lemma SetWhenFull<V>(c: Cache<V>, order: seq<nat>, key: Key, value: V)
    requires Inv(c, order) && key !in c.items && c.queue.len >= c.capacity && c.queue.back.At?
    ensures var r := Set(c, key, value).cache;
      var gone := c.queue.heap[c.queue.back.addr].value.key;
      && gone != key && gone in c.items && gone !in r.items
      && r.items.Keys == c.items.Keys + {key} - {gone}
  {
    InvContents(c, order);
    var s := Contents(c, order);
    SetKeys(c, order, key, value);
    LruSpec.SetNew(c.capacity, s, key, value);
    var n := |s| - 1;
    assert c.queue.back.addr == order[n];
    RemoveAtKeys(s, n);
    assert RemoveAt(s, n) == s[..n];
    KeysOfCons(CachedValue(key, value), s[..n]);
  }

  /** A cache of capacity zero (or negative) indexes nothing after a `Set`. */
  lemma SetWithoutRoom<V>(c: Cache<V>, order: seq<nat>, key: Key, value: V)
    requires Inv(c, order) && c.capacity <= 0
    ensures Set(c, key, value).cache.items == map[]
  {
    InvContents(c, order);
    SetKeys(c, order, key, value);
    LruSpec.SetGood(c.capacity, Contents(c, order), key, value);
    var a := LruSpec.Set(c.capacity, Contents(c, order), key, value);
    assert a.entries == [];
    assert Set(c, key, value).cache.items.Keys == {};
  }

  /** `Get` of a present key returns the value stored in the key's node,
      makes that node the front, and keeps the index. */
  lemma GetHit<V>(c: Cache<V>, order: seq<nat>, key: Key)
    requires Inv(c, order) && key in c.items
    ensures var r := Get(c, key);
      && r.value == Some(c.queue.heap[c.items[key]].value.value)
      && r.cache.queue.front == At(c.items[key])
      && r.cache.items == c.items
  {
    InvContents(c, order);
    var k := IndexOf(Contents(c, order), key);
    MoveToFrontLinks(c.queue, order, k);
  }

  /** Round trip: with room for at least one entry, a `Get` right after
      `Set(key, value)` returns `value`. */
  lemma SetThenGet<V>(c: Cache<V>, order: seq<nat>, key: Key, value: V)
    requires Inv(c, order) && c.capacity > 0
    ensures WellFormed(Set(c, key, value).cache) && Get(Set(c, key, value).cache, key).value == Some(value)
  {
    InvContents(c, order);
    SetRefines(c, order, key, value);
    GetRefines(Set(c, key, value).cache, SetOrder(c, order, key), key);
    LruSpec.SetThenGet(c.capacity, Contents(c, order), key, value);
  }

  /** Update: setting a key twice reports it as present the second time,
      and a `Get` then returns the second value. */
  lemma SetTwiceThenGet<V>(c: Cache<V>, order: seq<nat>, key: Key, v1: V, v2: V)
    requires Inv(c, order) && c.capacity > 0
    ensures var r1 := Set(c, key, v1).cache;
      && WellFormed(r1)
      && var r2 := Set(r1, key, v2);
      && WellFormed(r2.cache)
      && r2.existed && Get(r2.cache, key).value == Some(v2)
  {
    InvContents(c, order);
    SetRefines(c, order, key, v1);
    var r1 := Set(c, key, v1).cache;
    var o1 := SetOrder(c, order, key);
    LruSpec.SetGood(c.capacity, Contents(c, order), key, v1);
    SetRefines(r1, o1, key, v2);
    SetThenGet(r1, o1, key, v2);
  }

  /** A cache of capacity zero (or negative) retains nothing: after a `Set`
      the index is empty and a `Get` of the same key misses. */
  lemma ZeroCapacity<V>(c: Cache<V>, order: seq<nat>, key: Key, value: V)
    requires Inv(c, order) && c.capacity <= 0
    ensures var r := Set(c, key, value);
      !r.existed && r.cache.items == map[] && WellFormed(r.cache) && Get(r.cache, key).value == None
  {
    InvContents(c, order);
    assert key !in c.items;
    SetWithoutRoom(c, order, key, value);
  }
}
