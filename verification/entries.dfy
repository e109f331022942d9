/** The payload the cache stores in each list node (`cachedValue`) and the
    view of a recency list as a sequence of such entries, front (most
    recently used) first. */
module Entries {
  import opened Seqs

  /** Keys are opaque strings. */
  type Key = string

  datatype Option<T> = None | Some(value: T)

  /** A node's payload: the key is kept next to the value so that eviction
      can find the index entry to delete. */
  datatype CachedValue<V> = CachedValue(key: Key, value: V)

  function KeysOf<V>(s: seq<CachedValue<V>>): set<Key> {
    set i | 0 <= i < |s| :: s[i].key
  }

  predicate DistinctKeys<V>(s: seq<CachedValue<V>>) {
    forall i, j :: 0 <= i < j < |s| ==> s[i].key != s[j].key
  }

  /** Position of the first entry carrying key `k`. */
  function IndexOf<V>(s: seq<CachedValue<V>>, k: Key): (i: nat)
    requires k in KeysOf(s)
    ensures i < |s| && s[i].key == k
    ensures forall j :: 0 <= j < i ==> s[j].key != k
  {
    if s[0].key == k then 0
    else
      assert k in KeysOf(s[1..]) by {
        var j :| 0 <= j < |s| && s[j].key == k;
        assert s[1..][j - 1] == s[j];
      }
      1 + IndexOf(s[1..], k)
  }

  lemma KeysOfCons<V>(e: CachedValue<V>, t: seq<CachedValue<V>>)
    ensures KeysOf([e] + t) == {e.key} + KeysOf(t)
  {
    var s := [e] + t;
    forall k | k in KeysOf(t) ensures k in KeysOf(s) {
      var j :| 0 <= j < |t| && t[j].key == k;
      assert s[j + 1] == t[j];
    }
    assert s[0] == e;
  }

  /** With distinct keys, the entry at position `j` is the one found for its key. */
  lemma IndexOfDistinct<V>(s: seq<CachedValue<V>>, j: nat)
    requires DistinctKeys(s) && j < |s|
    ensures s[j].key in KeysOf(s) && IndexOf(s, s[j].key) == j
  {
  }

  /** Taking out the one entry that carries `s[i].key` removes exactly that
      key from a key-distinct sequence. */
  lemma RemoveAtKeys<V>(s: seq<CachedValue<V>>, i: nat)
    requires DistinctKeys(s) && i < |s|
    ensures DistinctKeys(RemoveAt(s, i))
    ensures KeysOf(RemoveAt(s, i)) == KeysOf(s) - {s[i].key}
  {
    var t := RemoveAt(s, i);
    forall k | k in KeysOf(s) - {s[i].key} ensures k in KeysOf(t) {
      var j :| 0 <= j < |s| && s[j].key == k;
      if j < i { assert t[j] == s[j]; } else { assert t[j - 1] == s[j]; }
    }
  }

  /** Distinct keys: there are as many keys as entries. */
  lemma {:induction false} KeysCount<V>(s: seq<CachedValue<V>>)
    requires DistinctKeys(s)
    ensures |KeysOf(s)| == |s|
  {
    if s != [] {
      var t := s[1..];
      assert s == [s[0]] + t;
      assert DistinctKeys(t) by {
        forall i, j | 0 <= i < j < |t| ensures t[i].key != t[j].key {
          assert t[i] == s[i + 1] && t[j] == s[j + 1];
        }
      }
      KeysCount(t);
      KeysOfCons(s[0], t);
      assert s[0].key !in KeysOf(t);
    }
  }
}
