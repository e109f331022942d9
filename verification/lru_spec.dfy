/** The least-recently-used policy stated on plain sequences: the cache's
    contents are a key-distinct sequence of entries, most recently used
    first. This is the reference the linked implementation is proved to
    refine, and the properties promised by the cache's tests are proved of
    it here. */
module LruSpec {
  import opened Entries
  import opened Seqs

  /** Non-negative part of a capacity: a negative capacity holds nothing. */
  function Room(capacity: int): nat {
    if capacity < 0 then 0 else capacity
  }

  datatype SetAnswer<V> = SetAnswer(entries: seq<CachedValue<V>>, existed: bool)

  datatype GetAnswer<V> = GetAnswer(entries: seq<CachedValue<V>>, value: Option<V>)

  /** `Set`: an existing key gets the new value and moves to the front; a new
      key is put in front and, when that makes the sequence longer than the
      capacity, the last entry is dropped. */
  function Set<V>(capacity: int, s: seq<CachedValue<V>>, k: Key, v: V): SetAnswer<V> {
    if k in KeysOf(s) then
      SetAnswer([CachedValue(k, v)] + RemoveAt(s, IndexOf(s, k)), true)
    else
      var t := [CachedValue(k, v)] + s;
      if |t| > capacity then SetAnswer(t[..|t| - 1], false) else SetAnswer(t, false)
  }

  /** `Get`: a present key moves to the front and its value is returned. */
  function Get<V>(s: seq<CachedValue<V>>, k: Key): GetAnswer<V> {
    if k in KeysOf(s) then
      var i := IndexOf(s, k);
      GetAnswer([s[i]] + RemoveAt(s, i), Some(s[i].value))
    else
      GetAnswer(s, None)
  }

  /** The value stored under `k`, if any. */
  function Lookup<V>(s: seq<CachedValue<V>>, k: Key): Option<V> {
    if k in KeysOf(s) then Some(s[IndexOf(s, k)].value) else None
  }

  /** The states a cache of this capacity can be in. */
  predicate Good<V>(capacity: int, s: seq<CachedValue<V>>) {
    DistinctKeys(s) && |s| <= Room(capacity)
  }

  /** `Set` keeps the keys distinct and the size within the capacity; it
      reports whether the key was present, and afterwards the key holds the
      new value unless the capacity is zero (or negative). */
  lemma SetGood<V>(capacity: int, s: seq<CachedValue<V>>, k: Key, v: V)
    requires Good(capacity, s)
    ensures var a := Set(capacity, s, k, v);
      && Good(capacity, a.entries)
      && a.existed == (k in KeysOf(s))
      && Lookup(a.entries, k) == (if capacity > 0 then Some(v) else None)
  {
    var a := Set(capacity, s, k, v);
    if k in KeysOf(s) {
      RemoveAtKeys(s, IndexOf(s, k));
      assert a.entries[0].key == k;
    } else if capacity > 0 {
      assert a.entries[0].key == k;
    } else {
      assert a.entries == [];
    }
  }

  /** `Set` of a present key: reports it, stores the new value at the front
      and keeps every other entry in its order. */
  lemma SetExisting<V>(capacity: int, s: seq<CachedValue<V>>, k: Key, v: V)
    requires Good(capacity, s) && k in KeysOf(s)
    ensures var a := Set(capacity, s, k, v);
      && a.existed
      && a.entries[0] == CachedValue(k, v)
      && KeysOf(a.entries) == KeysOf(s)
      && |a.entries| == |s|
      && a.entries[1..] == RemoveAt(s, IndexOf(s, k))
  {
    var i := IndexOf(s, k);
    RemoveAtKeys(s, i);
    KeysOfCons(CachedValue(k, v), RemoveAt(s, i));
  }

  /** `Set` of a new key: reports it as new and evicts at most one entry,
      the least recently used one (the last); it is evicted exactly when the
      sequence was already full. */
  lemma SetNew<V>(capacity: int, s: seq<CachedValue<V>>, k: Key, v: V)
    requires Good(capacity, s) && k !in KeysOf(s)
    ensures var a := Set(capacity, s, k, v);
      && !a.existed
      && (|s| < capacity ==> a.entries == [CachedValue(k, v)] + s)
      && (|s| >= capacity && s != [] ==>
            a.entries == [CachedValue(k, v)] + s[..|s| - 1] && s[|s| - 1].key !in KeysOf(a.entries))
      && (capacity <= 0 ==> a.entries == [])
  {
    var a := Set(capacity, s, k, v);
    if |s| >= capacity && s != [] {
      assert a.entries == [CachedValue(k, v)] + s[..|s| - 1];
    }
  }

  /** `Get` of a present key returns its value and moves it to the front
      without changing the key set; `Get` of an absent key returns nothing and
      changes nothing. */
  lemma GetGood<V>(capacity: int, s: seq<CachedValue<V>>, k: Key)
    requires Good(capacity, s)
    ensures var a := Get(s, k);
      && Good(capacity, a.entries)
      && a.value == Lookup(s, k)
      && KeysOf(a.entries) == KeysOf(s)
      && (k in KeysOf(s) ==> a.entries[0].key == k && Lookup(a.entries, k) == Lookup(s, k))
      && (k !in KeysOf(s) ==> a.entries == s)
  {
    if k in KeysOf(s) {
      var i := IndexOf(s, k);
      RemoveAtKeys(s, i);
      KeysOfCons(s[i], RemoveAt(s, i));
      var a := Get(s, k);
      assert a.entries[0] == s[i];
      forall x, y | 0 <= x < y < |a.entries| ensures a.entries[x].key != a.entries[y].key {
        if x > 0 {
          assert a.entries[x] == RemoveAt(s, i)[x - 1];
          assert a.entries[y] == RemoveAt(s, i)[y - 1];
        }
      }
    }
  }

  /** Round trip: with room for at least one entry, a `Get` right after
      `Set(k, v)` finds `v`. */
  lemma SetThenGet<V>(capacity: int, s: seq<CachedValue<V>>, k: Key, v: V)
    requires Good(capacity, s) && capacity > 0
    ensures Get(Set(capacity, s, k, v).entries, k).value == Some(v)
  {
    SetGood(capacity, s, k, v);
    GetGood(capacity, Set(capacity, s, k, v).entries, k);
  }

  /** Update: a second `Set` of the same key reports it as present, and a
      `Get` then returns the second value. */
  lemma SetTwiceThenGet<V>(capacity: int, s: seq<CachedValue<V>>, k: Key, v1: V, v2: V)
    requires Good(capacity, s) && capacity > 0
    ensures var a1 := Set(capacity, s, k, v1);
      var a2 := Set(capacity, a1.entries, k, v2);
      a2.existed && Get(a2.entries, k).value == Some(v2)
  {
    SetGood(capacity, s, k, v1);
    var a1 := Set(capacity, s, k, v1);
    SetGood(capacity, a1.entries, k, v2);
    SetThenGet(capacity, a1.entries, k, v2);
  }
}
