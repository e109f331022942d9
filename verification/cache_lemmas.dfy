/** The linked cache refines the sequence-level LRU policy of `LruSpec`:
    each operation keeps the cache invariant and changes the recency-ordered
    contents exactly as the reference does, answering the same. */
module CacheLemmas {
  import opened Entries
  import opened Seqs
  import opened LinkedList
  import opened ListLemmas
  import opened LruCache
  import LruSpec

  /** What the invariant says about the contents: they fit the capacity, keys
      are distinct, the index holds exactly their keys, and each key is
      indexed to the node at its position. */
  lemma InvContents<V>(c: Cache<V>, order: seq<nat>)
    requires Inv(c, order)
    ensures var s := Contents(c, order);
      && LruSpec.Good(c.capacity, s)
      && KeysOf(s) == c.items.Keys
      && forall j {:trigger s[j]} :: 0 <= j < |s| ==> c.items[s[j].key] == order[j]
  {
    var s := Contents(c, order);
    forall i, j | 0 <= i < j < |s| ensures s[i].key != s[j].key {
      assert order[i] != order[j];
    }
    forall k | k in c.items ensures c.items[k] < |c.queue.heap| {
      var j :| 0 <= j < |s| && s[j].key == k;
    }
  }

  /** Storing a value in a node touches no link. */
  lemma SetValueKeeps<V>(l: List<V>, order: seq<nat>, a: nat, v: V)
    requires Valid(l, order) && a < |l.heap|
    ensures var r := SetValue(l, a, v);
      && Valid(r, order)
      && |r.heap| == |l.heap|
      && r.heap[a].value == v
      && forall b :: 0 <= b < |l.heap| && b != a ==> r.heap[b].value == l.heap[b].value
  {
  }

  /** Moving position `k` to the front keeps the same nodes. */
  lemma MoveToFrontElements(order: seq<nat>, k: nat)
    requires k < |order|
    ensures forall a :: a in order <==> a in [order[k]] + RemoveAt(order, k)
  {
    var o := [order[k]] + RemoveAt(order, k);
    forall a | a in order ensures a in o {
      var m :| 0 <= m < |order| && order[m] == a;
      if m < k { assert o[m + 1] == a; } else if m > k { assert o[m] == a; }
    }
  }

  /** A reordering of the same nodes, with the same index and the same key
      in every node, stays exactly indexed. */
  lemma ReorderedIndexed<V>(c: Cache<V>, r: Cache<V>, order: seq<nat>, order': seq<nat>)
    requires forall i :: 0 <= i < |order| ==> order[i] < |c.queue.heap|
    requires forall i :: 0 <= i < |order'| ==> order'[i] < |r.queue.heap|
    requires Indexed(c, order) && r.items == c.items && |r.queue.heap| == |c.queue.heap|
    requires forall a :: a in order <==> a in order'
    requires forall a :: 0 <= a < |c.queue.heap| ==> r.queue.heap[a].value.key == c.queue.heap[a].value.key
    ensures Indexed(r, order')
  {
    var s := Contents(c, order);
    var t := Contents(r, order');
    forall i | 0 <= i < |order'| ensures t[i].key in c.items && c.items[t[i].key] == order'[i] {
      assert order'[i] in order;
      var m :| 0 <= m < |order| && order[m] == order'[i];
      assert t[i].key == s[m].key;
    }
    forall k | k in KeysOf(s) ensures k in KeysOf(t) {
      var m :| 0 <= m < |s| && s[m].key == k;
      assert order[m] in order';
      var i :| 0 <= i < |order'| && order'[i] == order[m];
      assert t[i].key == k;
    }
  }

  /** The values of a chain with position `k` moved to the front. */
  lemma ValuesPromote<V>(l: List<V>, order: seq<nat>, k: nat)
    requires k < |order| && forall i :: 0 <= i < |order| ==> order[i] < |l.heap|
    ensures Values(l, [order[k]] + RemoveAt(order, k)) == [l.heap[order[k]].value] + RemoveAt(Values(l, order), k)
  {
    var o := [order[k]] + RemoveAt(order, k);
    var vs := Values(l, order);
    var lhs, rhs := Values(l, o), [l.heap[order[k]].value] + RemoveAt(vs, k);
    forall j | 0 <= j < |lhs| ensures lhs[j] == rhs[j] {
      if j > 0 {
        if j - 1 < k {
          assert o[j] == order[j - 1] && rhs[j] == vs[j - 1];
        } else {
          assert o[j] == order[j] && rhs[j] == vs[j];
        }
      }
    }
  }

  /** Storing a value in the node at position `k` of a chain changes no
      other position's value. */
  lemma ValuesStored<V>(l: List<V>, order: seq<nat>, k: nat, v: V)
    requires Valid(l, order) && k < |order|
    ensures RemoveAt(Values(SetValue(l, order[k], v), order), k) == RemoveAt(Values(l, order), k)
  {
    var vs, ws := Values(l, order), Values(SetValue(l, order[k], v), order);
    forall j | 0 <= j < |order| && j != k ensures ws[j] == vs[j] {
      assert order[j] != order[k];
    }
  }

  /** Storing `v` in the node at position `k` and moving it to the front:
      the list keeps the other values in order, with `v` first. */
  lemma StoreAndPromote<V>(l: List<V>, order: seq<nat>, k: nat, v: V)
    requires Valid(l, order) && k < |order|
    ensures var r := MoveToFront(SetValue(l, order[k], v), order[k]);
      var vs := Values(l, order);
      && Valid(r, [order[k]] + RemoveAt(order, k))
      && |r.heap| == |l.heap|
      && Values(r, [order[k]] + RemoveAt(order, k)) == [v] + RemoveAt(vs, k)
      && r.heap[order[k]].value == v
      && forall a :: 0 <= a < |l.heap| && a != order[k] ==> r.heap[a].value == l.heap[a].value
  {
    var item := order[k];
    var q := SetValue(l, item, v);
    SetValueKeeps(l, order, item, v);
    var r := MoveToFront(q, item);
    MoveToFrontLinks(q, order, k);
    var o' := [item] + RemoveAt(order, k);
    ValuesOfKept(q, r, o');
    ValuesPromote(q, order, k);
    ValuesStored(l, order, k, v);
  }

  /** Indexing a new key at the front of the chain. */
  lemma IndexPushFront<V>(items: map<Key, nat>, s: seq<CachedValue<V>>, order: seq<nat>, e: CachedValue<V>, a: nat)
    requires IndexOk(items, s, order) && e.key !in items
    ensures IndexOk(items[e.key := a], [e] + s, [a] + order)
    ensures DistinctKeys(s) ==> DistinctKeys([e] + s)
  {
    KeysOfCons(e, s);
    var t := [e] + s;
    if DistinctKeys(s) {
      forall i, j | 0 <= i < j < |t| ensures t[i].key != t[j].key {
        assert t[j] == s[j - 1];
        if i > 0 { assert t[i] == s[i - 1]; }
      }
    }
    forall i | 0 <= i < |t| ensures items[e.key := a][t[i].key] == ([a] + order)[i] {
      if i > 0 {
        assert t[i] == s[i - 1];
      }
    }
  }

  /** Unindexing the key of the last entry when dropping it from the chain. */
  lemma IndexDropBack<V>(items: map<Key, nat>, s: seq<CachedValue<V>>, order: seq<nat>)
    requires IndexOk(items, s, order) && DistinctKeys(s) && s != []
    ensures var n := |s| - 1; IndexOk(items - {s[n].key}, s[..n], order[..n])
  {
    var n := |s| - 1;
    RemoveAtKeys(s, n);
    assert RemoveAt(s, n) == s[..n];
  }

  /** Evicting the back node of a well-indexed chain: the node is unlinked,
      its key unindexed, and what remains is the chain without its last
      node, still well indexed. */
  lemma EvictBack<V>(c: Cache<V>, order: seq<nat>, s: seq<CachedValue<V>>)
    requires WellFormed(c) && Valid(c.queue, order) && order != []
    requires Values(c.queue, order) == s && IndexOk(c.items, s, order) && DistinctKeys(s)
    ensures var n := |order| - 1;
      var r := c.(queue := Remove(c.queue, order[n]), items := c.items - {s[n].key});
      && WellFormed(r)
      && Valid(r.queue, order[..n])
      && Values(r.queue, order[..n]) == s[..n]
      && IndexOk(r.items, s[..n], order[..n])
  {
    RemoveBackLinks(c.queue, order);
    IndexDropBack(c.items, s, order);
  }

  /** A new key is pushed at the front and indexed: the chain gains the
      new node in front, and the contents the new entry in front. */
  lemma AdmitNew<V>(c: Cache<V>, order: seq<nat>, key: Key, value: V)
    requires Inv(c, order) && key !in c.items
    ensures var cv := CachedValue(key, value);
      var pushed := PushFront(c.queue, cv);
      var o1 := [pushed.item] + order;
      var t1 := [cv] + Contents(c, order);
      var c1 := c.(queue := pushed.list, items := c.items[key := pushed.item]);
      && WellFormed(c1)
      && Valid(c1.queue, o1) && c1.queue.len == |o1|
      && Values(c1.queue, o1) == t1
      && IndexOk(c1.items, t1, o1) && DistinctKeys(t1)
      && key !in KeysOf(Contents(c, order))
  {
    InvContents(c, order);
    var s := Contents(c, order);
    var cv := CachedValue(key, value);
    var pushed := PushFront(c.queue, cv);
    var o1 := [pushed.item] + order;
    var t1 := [cv] + s;
    PushFrontLinks(c.queue, order, cv);
    ValuesCons(pushed.list, pushed.item, order);
    ValuesOfKept(c.queue, pushed.list, order);
    IndexPushFront(c.items, s, order, cv, pushed.item);
  }

  /** A present key's node gets the new entry and moves to the front: the
      chain and the contents move position `k` to the front, and the index
      still matches. */
  lemma UpdateExisting<V>(c: Cache<V>, order: seq<nat>, key: Key, value: V, k: nat)
    requires Inv(c, order) && k < |order| && Contents(c, order)[k].key == key
    ensures var order' := [order[k]] + RemoveAt(order, k);
      var r := c.(queue := MoveToFront(SetValue(c.queue, order[k], CachedValue(key, value)), order[k]));
      && WellFormed(r)
      && Valid(r.queue, order')
      && Contents(r, order') == [CachedValue(key, value)] + RemoveAt(Contents(c, order), k)
      && Indexed(r, order')
  {
    var cv := CachedValue(key, value);
    var item := order[k];
    var order' := [item] + RemoveAt(order, k);
    var r := c.(queue := MoveToFront(SetValue(c.queue, item, cv), item));
    StoreAndPromote(c.queue, order, k, cv);
    assert c.queue.heap[item].value.key == key;
    forall a | 0 <= a < |c.queue.heap| ensures r.queue.heap[a].value.key == c.queue.heap[a].value.key {
      if a != item {
        assert r.queue.heap[a].value == c.queue.heap[a].value;
      }
    }
    MoveToFrontElements(order, k);
    ReorderedIndexed(c, r, order, order');
  }

  /** The chain a `Set` leaves behind: a present key's node moves to the
      front; a new node (the next address of the arena) goes in front, and
      the back node drops out when that overfills the cache. */
  ghost function SetOrder<V>(c: Cache<V>, order: seq<nat>, key: Key): seq<nat>
    requires forall i :: 0 <= i < |order| ==> order[i] < |c.queue.heap|
    requires Indexed(c, order)
  {
    if key in c.items then
      var k := IndexOf(Contents(c, order), key);
      [order[k]] + RemoveAt(order, k)
    else
      var o1 := [|c.queue.heap|] + order;
      if |o1| > c.capacity then o1[..|order|] else o1
  }

  /** `Set` of a present key: the node gets the new value and becomes the
      front; the contents change as the reference `Set` prescribes. */
  lemma SetExistingRefines<V>(c: Cache<V>, order: seq<nat>, key: Key, value: V)
    requires Inv(c, order) && key in c.items
    ensures var r := Set(c, key, value); var a := LruSpec.Set(c.capacity, Contents(c, order), key, value);
      var order' := SetOrder(c, order, key);
      Inv(r.cache, order') && Contents(r.cache, order') == a.entries && r.existed == a.existed
  {
    InvContents(c, order);
    var s := Contents(c, order);
    var k := IndexOf(s, key);
    UpdateExisting(c, order, key, value, k);
    assert SetOrder(c, order, key) == [order[k]] + RemoveAt(order, k);
  }

  /** `Set` of a new key: the node is pushed at the front and indexed, and
      when the list outgrows the capacity the back node is unlinked and its
      key dropped from the index; the contents change as the reference
      `Set` prescribes. */
  lemma SetNewRefines<V>(c: Cache<V>, order: seq<nat>, key: Key, value: V)
    requires Inv(c, order) && key !in c.items
    ensures var r := Set(c, key, value); var a := LruSpec.Set(c.capacity, Contents(c, order), key, value);
      var order' := SetOrder(c, order, key);
      Inv(r.cache, order') && Contents(r.cache, order') == a.entries && r.existed == a.existed
  {
    var s := Contents(c, order);
    var cv := CachedValue(key, value);
    var pushed := PushFront(c.queue, cv);
    var o1 := [pushed.item] + order;
    var t1 := [cv] + s;
    var c1 := c.(queue := pushed.list, items := c.items[key := pushed.item]);
    AdmitNew(c, order, key, value);
    if pushed.list.len > c.capacity {
      var n := |order|;
      var c2 := c1.(queue := Remove(c1.queue, o1[n]), items := c1.items - {t1[n].key});
      assert Set(c, key, value) == SetResult(c2, false) by {
        assert c1.queue.back == At(o1[n]);
      }
      assert SetOrder(c, order, key) == o1[..n];
      assert LruSpec.Set(c.capacity, s, key, value) == LruSpec.SetAnswer(t1[..n], false);
      EvictBack(c1, o1, t1);
    } else {
      assert Set(c, key, value) == SetResult(c1, false);
      assert SetOrder(c, order, key) == o1;
    }
  }

  /** `Set` refines the reference `Set`: from a cache in the invariant, it
      reaches a cache in the invariant whose contents and answer are those
      of the reference. */
  lemma SetRefines<V>(c: Cache<V>, order: seq<nat>, key: Key, value: V)
    requires Inv(c, order)
    ensures var r := Set(c, key, value); var a := LruSpec.Set(c.capacity, Contents(c, order), key, value);
      var order' := SetOrder(c, order, key);
      Inv(r.cache, order') && Contents(r.cache, order') == a.entries && r.existed == a.existed
  {
    if key in c.items {
      SetExistingRefines(c, order, key, value);
    } else {
      SetNewRefines(c, order, key, value);
    }
  }

  /** The chain a `Get` leaves behind: a hit moves the key's node to the
      front; a miss leaves the chain alone. */
  ghost function GetOrder<V>(c: Cache<V>, order: seq<nat>, key: Key): seq<nat>
    requires forall i :: 0 <= i < |order| ==> order[i] < |c.queue.heap|
    requires Indexed(c, order)
  {
    if key in c.items then
      var k := IndexOf(Contents(c, order), key);
      [order[k]] + RemoveAt(order, k)
    else
      order
  }

  /** `Get` refines the reference `Get`: from a cache in the invariant, it
      reaches a cache in the invariant whose contents and answer are those
      of the reference. */
  lemma GetRefines<V>(c: Cache<V>, order: seq<nat>, key: Key)
    requires Inv(c, order)
    ensures var r := Get(c, key); var a := LruSpec.Get(Contents(c, order), key);
      var order' := GetOrder(c, order, key);
      Inv(r.cache, order') && Contents(r.cache, order') == a.entries && r.value == a.value
  {
    if key in c.items {
      InvContents(c, order);
      var s := Contents(c, order);
      var k := IndexOf(s, key);
      var item := order[k];
      assert c.queue.heap[item].value == s[k];
      assert SetValue(c.queue, item, s[k]) == c.queue;
      UpdateExisting(c, order, key, s[k].value, k);
      MoveToFrontLinks(c.queue, order, k);
      assert GetOrder(c, order, key) == [item] + RemoveAt(order, k);
    }
  }
}
