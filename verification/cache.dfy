/** The LRU cache (`lruCache`): a capacity, the recency list of cached
    values, and the index from key to list node. The mutex of the original is
    not modelled: each operation is one atomic step from one cache state to
    the next. */
module LruCache {
  import opened Entries
  import opened Seqs
  import opened LinkedList
  import opened ListLemmas
  import LruSpec

  datatype Cache<V> = Cache(capacity: int, queue: List<CachedValue<V>>, items: map<Key, nat>)

  /** What `Set` returns, with the cache it leaves behind. */
  datatype SetResult<V> = SetResult(cache: Cache<V>, existed: bool)

  /** What `Get` returns (`None` for Go's `(nil, false)`), with the cache it
      leaves behind. */
  datatype GetResult<V> = GetResult(cache: Cache<V>, value: Option<V>)

  /** Memory safety of a cache state: the list's pointers and the index's
      node references all point at allocated nodes, and the list has a front
      exactly when it has a back. */
  predicate WellFormed<V>(c: Cache<V>) {
    && Closed(c.queue)
    && (c.queue.front.Nil? <==> c.queue.back.Nil?)
    && forall k :: k in c.items ==> c.items[k] < |c.queue.heap|
  }

  /** The cached entries in recency order, most recently used first. */
  ghost function Contents<V>(c: Cache<V>, order: seq<nat>): seq<CachedValue<V>>
    requires forall i :: 0 <= i < |order| ==> order[i] < |c.queue.heap|
  {
    Values(c.queue, order)
  }

  /** The index `items` holds exactly the keys of the entries `s`, and each
      key is indexed to the node `order` places at that entry's position. */
  predicate IndexOk<V>(items: map<Key, nat>, s: seq<CachedValue<V>>, order: seq<nat>) {
    && |s| == |order|
    && items.Keys == KeysOf(s)
    && forall i {:trigger s[i]} :: 0 <= i < |s| ==> items[s[i].key] == order[i]
  }

  /** The index matches the nodes of the chain `order`. */
  ghost predicate Indexed<V>(c: Cache<V>, order: seq<nat>)
    requires forall i :: 0 <= i < |order| ==> order[i] < |c.queue.heap|
  {
    IndexOk(c.items, Contents(c, order), order)
  }

  /** The cache invariant, relative to the chain `order` the list refines:
      the state is well formed, the list is well linked, holds at most `capacity` nodes (none when the
      capacity is zero or negative), and is indexed exactly. */
  ghost predicate Inv<V>(c: Cache<V>, order: seq<nat>) {
    && WellFormed(c)
    && Valid(c.queue, order)
    && |order| <= LruSpec.Room(c.capacity)
    && Indexed(c, order)
  }

  /** `NewCache`: an empty cache; the capacity is taken as given. */
  function NewCache<V>(capacity: int): (c: Cache<V>)
    ensures Inv(c, []) && c.capacity == capacity && c.items == map[]
  {
    Cache(capacity, NewList(), map[])
  }

  /** Stores `value` in the node `a` (`item.Value = cv`). */
  function SetValue<V>(l: List<V>, a: nat, v: V): (r: List<V>)
    requires a < |l.heap|
    ensures Closed(l) ==> Closed(r)
    ensures r.len == l.len && r.front == l.front && r.back == l.back && |r.heap| == |l.heap|
    ensures r.heap[a].value == v
    ensures forall b :: 0 <= b < |l.heap| ==> r.heap[b].next == l.heap[b].next && r.heap[b].prev == l.heap[b].prev
    ensures forall b :: 0 <= b < |l.heap| && b != a ==> r.heap[b].value == l.heap[b].value
  {
    l.(heap := l.heap[a := l.heap[a].(value := v)])
  }

  /** `Set`: overwrites and promotes a present key and reports `true`;
      otherwise pushes a new node at the front, indexes it, evicts the back
      node when the list has grown past the capacity, and reports `false`. */
  function Set<V>(c: Cache<V>, key: Key, value: V): (r: SetResult<V>)
    requires WellFormed(c)
    ensures r.existed == (key in c.items)
    ensures r.cache.capacity == c.capacity
    ensures Closed(r.cache.queue)
    ensures r.existed ==> r.cache.items == c.items
    ensures !r.existed ==> r.cache.items.Keys <= c.items.Keys + {key}
  {
    var cv := CachedValue(key, value);
    if key in c.items then
      var item := c.items[key];
      var q := SetValue(c.queue, item, cv);
      SetResult(c.(queue := MoveToFront(q, item)), true)
    else
      var pushed := PushFront(c.queue, cv);
      var q := pushed.list;
      var items := c.items[key := pushed.item];
      if Len(q) > c.capacity then
        var last := Back(q).addr;
        var q' := Remove(q, last);
        SetResult(c.(queue := q', items := items - {q'.heap[last].value.key}), false)
      else
        SetResult(c.(queue := q, items := items), false)
  }

  /** `Get`: a hit promotes the node and returns its value; a miss returns
      nothing and leaves the cache as it was. */
  function Get<V>(c: Cache<V>, key: Key): (r: GetResult<V>)
    requires WellFormed(c)
    ensures r.value.Some? == (key in c.items)
    ensures r.cache.items == c.items && r.cache.capacity == c.capacity
    ensures Closed(r.cache.queue)
    ensures key !in c.items ==> r.cache == c
  {
    if key in c.items then
      var item := c.items[key];
      var q := MoveToFront(c.queue, item);
      GetResult(c.(queue := q), Some(q.heap[item].value.value))
    else
      GetResult(c, None)
  }

  /** `Clear`: a fresh index and a fresh list; afterwards every `Get` misses. */
  function Clear<V>(c: Cache<V>): (r: Cache<V>)
    ensures Inv(r, []) && r.capacity == c.capacity
    ensures WellFormed(r) && forall k :: Get(r, k).value == None
  {
    Cache(c.capacity, NewList(), map[])
  }
}
