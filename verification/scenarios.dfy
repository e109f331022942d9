/** The scenarios of the cache's tests, replayed on a fresh linked cache:
    each is read off the reference policy, one call at a time, from the
    last call back to the first. */
module Scenarios {
  import opened Seqs
  import opened Entries
  import opened LruCache
  import opened Sessions
  import LruSpec

  /** The calls `ops[n..]` on contents `s` get the replies `replies[n..]`. */
  ghost predicate RepliesFrom<V>(capacity: int, s: seq<CachedValue<V>>, ops: seq<Op<V>>, replies: seq<Reply<V>>, n: nat)
    requires n <= |ops| && n <= |replies|
  {
    SpecRun(capacity, s, ops[n..]) == replies[n..]
  }

  /** No calls left: no replies. */
  lemma RunEnd<V>(capacity: int, s: seq<CachedValue<V>>, ops: seq<Op<V>>, replies: seq<Reply<V>>)
    requires |ops| == |replies|
    ensures RepliesFrom(capacity, s, ops, replies, |ops|)
  {
  }

  /** The step shared by all calls: call `n` gets reply `n` and leaves `t`. */
  lemma RunStep<V>(capacity: int, s: seq<CachedValue<V>>, t: seq<CachedValue<V>>, ops: seq<Op<V>>,
                   replies: seq<Reply<V>>, n: nat)
    requires n < |ops| && n < |replies| && SpecStep(capacity, s, ops[n]) == (replies[n], t)
    requires RepliesFrom(capacity, t, ops, replies, n + 1)
    ensures RepliesFrom(capacity, s, ops, replies, n)
  {
    assert ops[n..][1..] == ops[n + 1..];
    assert replies[n..] == [replies[n]] + replies[n + 1..];
  }

  /** Call `n`, a `Set` of an absent key with room to spare, is reported new
      and puts the entry in front. */
  lemma SetMissAt<V>(capacity: int, s: seq<CachedValue<V>>, t: seq<CachedValue<V>>, ops: seq<Op<V>>,
                     replies: seq<Reply<V>>, n: nat)
    requires n < |ops| && n < |replies| && ops[n].SetOp? && replies[n] == WasInCache(false)
    requires forall i :: 0 <= i < |s| ==> s[i].key != ops[n].key
    requires |s| < capacity && t == [CachedValue(ops[n].key, ops[n].value)] + s
    requires RepliesFrom(capacity, t, ops, replies, n + 1)
    ensures RepliesFrom(capacity, s, ops, replies, n)
  {
    RunStep(capacity, s, t, ops, replies, n);
  }

  /** Call `n`, a `Set` of an absent key into a full cache, is reported new;
      the entry goes in front and the last one is dropped. */
  lemma SetEvictAt<V>(capacity: int, s: seq<CachedValue<V>>, t: seq<CachedValue<V>>, ops: seq<Op<V>>,
                      replies: seq<Reply<V>>, n: nat)
    requires n < |ops| && n < |replies| && ops[n].SetOp? && replies[n] == WasInCache(false)
    requires forall i :: 0 <= i < |s| ==> s[i].key != ops[n].key
    requires |s| >= capacity
    requires t == if s == [] then [] else [CachedValue(ops[n].key, ops[n].value)] + s[..|s| - 1]
    requires RepliesFrom(capacity, t, ops, replies, n + 1)
    ensures RepliesFrom(capacity, s, ops, replies, n)
  {
    var e := CachedValue(ops[n].key, ops[n].value);
    assert s != [] ==> ([e] + s)[..|s|] == [e] + s[..|s| - 1];
    RunStep(capacity, s, t, ops, replies, n);
  }

  /** Call `n`, a `Set` of the key at position `i`, is reported present; the
      entry moves to the front with the new value. */
  lemma SetHitAt<V>(capacity: int, s: seq<CachedValue<V>>, i: nat, t: seq<CachedValue<V>>, ops: seq<Op<V>>,
                    replies: seq<Reply<V>>, n: nat)
    requires n < |ops| && n < |replies| && ops[n].SetOp? && replies[n] == WasInCache(true)
    requires DistinctKeys(s) && i < |s| && s[i].key == ops[n].key
    requires t == [CachedValue(s[i].key, ops[n].value)] + RemoveAt(s, i)
    requires RepliesFrom(capacity, t, ops, replies, n + 1)
    ensures RepliesFrom(capacity, s, ops, replies, n)
  {
    IndexOfDistinct(s, i);
    RunStep(capacity, s, t, ops, replies, n);
  }

  /** Call `n`, a `Get` of the key at position `i`, answers its value; the
      entry moves to the front. */
  lemma GetHitAt<V>(capacity: int, s: seq<CachedValue<V>>, i: nat, t: seq<CachedValue<V>>, ops: seq<Op<V>>,
                    replies: seq<Reply<V>>, n: nat)
    requires i < |s| && n < |ops| && n < |replies| && ops[n] == GetOp(s[i].key) && replies[n] == Got(Some(s[i].value))
    requires DistinctKeys(s) && t == [s[i]] + RemoveAt(s, i)
    requires RepliesFrom(capacity, t, ops, replies, n + 1)
    ensures RepliesFrom(capacity, s, ops, replies, n)
  {
    IndexOfDistinct(s, i);
    RunStep(capacity, s, t, ops, replies, n);
  }

  /** Call `n`, a `Get` of an absent key, answers nothing and changes
      nothing. */
  lemma GetMissAt<V>(capacity: int, s: seq<CachedValue<V>>, ops: seq<Op<V>>, replies: seq<Reply<V>>, n: nat)
    requires n < |ops| && n < |replies| && ops[n].GetOp? && replies[n] == Got(None)
    requires forall i :: 0 <= i < |s| ==> s[i].key != ops[n].key
    requires RepliesFrom(capacity, s, ops, replies, n + 1)
    ensures RepliesFrom(capacity, s, ops, replies, n)
  {
    RunStep(capacity, s, s, ops, replies, n);
  }

  /** Call `n`, a `Clear`, empties the contents. */
  lemma ClearAt<V>(capacity: int, s: seq<CachedValue<V>>, ops: seq<Op<V>>, replies: seq<Reply<V>>, n: nat)
    requires n < |ops| && n < |replies| && ops[n] == ClearOp && replies[n] == Cleared
    requires RepliesFrom(capacity, [], ops, replies, n + 1)
    ensures RepliesFrom(capacity, s, ops, replies, n)
  {
    RunStep(capacity, s, [], ops, replies, n);
  }

  /** A whole run read off its steps: the replies of a fresh cache. */
  lemma FreshReplies<V>(capacity: int, ops: seq<Op<V>>, replies: seq<Reply<V>>)
    requires |ops| <= |replies| && RepliesFrom(capacity, [], ops, replies, 0)
    ensures Run(NewCache(capacity), [], ops) == replies
  {
    assert ops[0..] == ops;
    assert replies[0..] == replies;
    FreshRun(capacity, ops);
  }

  /** "empty cache": a fresh cache misses every key. */
  lemma EmptyScenario<V>(capacity: int, a: Key, b: Key)
    ensures Run(NewCache<V>(capacity), [], [GetOp(a), GetOp(b)]) == [Got(None), Got(None)]
  {
    var ops: seq<Op<V>>, rs: seq<Reply<V>> := [GetOp(a), GetOp(b)], [Got(None), Got(None)];
    RunEnd(capacity, [], ops, rs);
    GetMissAt(capacity, [], ops, rs, 1);
    GetMissAt(capacity, [], ops, rs, 0);
    FreshReplies(capacity, ops, rs);
  }

  /** The calls of the "simple" test: two keys are inserted and read back,
      the first is overwritten and read back, and a third key is missed. */
  function SimpleOps<V>(a: Key, b: Key, c: Key, va: V, vb: V, va': V): seq<Op<V>> {
    [SetOp(a, va), SetOp(b, vb), GetOp(a), GetOp(b), SetOp(a, va'), GetOp(a), GetOp(c)]
  }

  /** The replies the "simple" test expects. */
  function SimpleReplies<V>(va: V, vb: V, va': V): seq<Reply<V>> {
    [WasInCache(false), WasInCache(false), Got(Some(va)), Got(Some(vb)),
     WasInCache(true), Got(Some(va')), Got(None)]
  }

  /** The last two reads of "simple", from contents `[a, b]` with `a`
      overwritten. */
  lemma SimpleFrom5<V>(capacity: int, a: Key, b: Key, c: Key, va: V, vb: V, va': V)
    requires capacity >= 2 && a != b && c != a && c != b
    ensures RepliesFrom(capacity, [CachedValue(a, va'), CachedValue(b, vb)],
                        SimpleOps(a, b, c, va, vb, va'), SimpleReplies(va, vb, va'), 5)
  {
    var ops, rs := SimpleOps(a, b, c, va, vb, va'), SimpleReplies(va, vb, va');
    var eb, ea' := CachedValue(b, vb), CachedValue(a, va');
    RunEnd(capacity, [ea', eb], ops, rs);
    GetMissAt(capacity, [ea', eb], ops, rs, 6);
    GetHitAt(capacity, [ea', eb], 0, [ea', eb], ops, rs, 5);
  }

  /** The overwrite of "simple", from contents `[b, a]`. */
  lemma SimpleFrom4<V>(capacity: int, a: Key, b: Key, c: Key, va: V, vb: V, va': V)
    requires capacity >= 2 && a != b && c != a && c != b
    ensures RepliesFrom(capacity, [CachedValue(b, vb), CachedValue(a, va)],
                        SimpleOps(a, b, c, va, vb, va'), SimpleReplies(va, vb, va'), 4)
  {
    var ops, rs := SimpleOps(a, b, c, va, vb, va'), SimpleReplies(va, vb, va');
    var ea, eb, ea' := CachedValue(a, va), CachedValue(b, vb), CachedValue(a, va');
    SimpleFrom5(capacity, a, b, c, va, vb, va');
    SetHitAt(capacity, [eb, ea], 1, [ea', eb], ops, rs, 4);
  }

  /** The two reads of "simple", from contents `[b, a]`. */
  lemma SimpleFrom2<V>(capacity: int, a: Key, b: Key, c: Key, va: V, vb: V, va': V)
    requires capacity >= 2 && a != b && c != a && c != b
    ensures RepliesFrom(capacity, [CachedValue(b, vb), CachedValue(a, va)],
                        SimpleOps(a, b, c, va, vb, va'), SimpleReplies(va, vb, va'), 2)
  {
    var ops, rs := SimpleOps(a, b, c, va, vb, va'), SimpleReplies(va, vb, va');
    var ea, eb := CachedValue(a, va), CachedValue(b, vb);
    SimpleFrom4(capacity, a, b, c, va, vb, va');
    GetHitAt(capacity, [ea, eb], 1, [eb, ea], ops, rs, 3);
    GetHitAt(capacity, [eb, ea], 1, [ea, eb], ops, rs, 2);
  }

  /** "simple", on a fresh linked cache of capacity at least two. */
  lemma SimpleScenario<V>(capacity: int, a: Key, b: Key, c: Key, va: V, vb: V, va': V)
    requires capacity >= 2 && a != b && c != a && c != b
    ensures Run(NewCache(capacity), [], [SetOp(a, va), SetOp(b, vb), GetOp(a), GetOp(b),
                                         SetOp(a, va'), GetOp(a), GetOp(c)])
         == [WasInCache(false), WasInCache(false), Got(Some(va)), Got(Some(vb)),
             WasInCache(true), Got(Some(va')), Got(None)]
  {
    var ops, rs := SimpleOps(a, b, c, va, vb, va'), SimpleReplies(va, vb, va');
    var ea, eb := CachedValue(a, va), CachedValue(b, vb);
    SimpleFrom2(capacity, a, b, c, va, vb, va');
    SetMissAt(capacity, [ea], [eb, ea], ops, rs, 1);
    SetMissAt(capacity, [], [ea], ops, rs, 0);
    FreshReplies(capacity, ops, rs);
  }

  /** The calls of the "purge logic" test: two inserts, `Clear`, and reads
      of both keys. */
  function PurgeOps<V>(a: Key, b: Key, va: V, vb: V): seq<Op<V>> {
    [SetOp(a, va), SetOp(b, vb), ClearOp, GetOp(a), GetOp(b)]
  }

  /** The replies of "purge logic": both keys are forgotten. */
  function PurgeReplies<V>(): seq<Reply<V>> {
    [WasInCache(false), WasInCache(false), Cleared, Got(None), Got(None)]
  }

  /** `Clear` and the reads of "purge logic", from contents `[b, a]`. */
  lemma PurgeFrom2<V>(capacity: int, a: Key, b: Key, va: V, vb: V)
    ensures RepliesFrom(capacity, [CachedValue(b, vb), CachedValue(a, va)], PurgeOps(a, b, va, vb), PurgeReplies(), 2)
  {
    var ops, rs := PurgeOps(a, b, va, vb), PurgeReplies();
    RunEnd(capacity, [], ops, rs);
    GetMissAt(capacity, [], ops, rs, 4);
    GetMissAt(capacity, [], ops, rs, 3);
    ClearAt(capacity, [CachedValue(b, vb), CachedValue(a, va)], ops, rs, 2);
  }

  /** "purge logic": after two inserts, `Clear` forgets both keys. */
  lemma PurgeScenario<V>(capacity: int, a: Key, b: Key, va: V, vb: V)
    requires capacity >= 2 && a != b
    ensures Run(NewCache(capacity), [], [SetOp(a, va), SetOp(b, vb), ClearOp, GetOp(a), GetOp(b)])
         == [WasInCache(false), WasInCache(false), Cleared, Got(None), Got(None)]
  {
    var ops, rs := PurgeOps(a, b, va, vb), PurgeReplies();
    var ea, eb := CachedValue(a, va), CachedValue(b, vb);
    PurgeFrom2(capacity, a, b, va, vb);
    SetMissAt(capacity, [ea], [eb, ea], ops, rs, 1);
    SetMissAt(capacity, [], [ea], ops, rs, 0);
    FreshReplies(capacity, ops, rs);
  }

  /** Four distinct keys. */
  predicate Distinct4(k0: Key, k1: Key, k2: Key, k3: Key) {
    k0 != k1 && k0 != k2 && k0 != k3 && k1 != k2 && k1 != k3 && k2 != k3
  }

  /** The calls of the "overflow" test: four keys into a cache of three,
      then reads of all four. */
  function OverflowOps<V>(k0: Key, k1: Key, k2: Key, k3: Key, v0: V, v1: V, v2: V, v3: V): seq<Op<V>> {
    [SetOp(k0, v0), SetOp(k1, v1), SetOp(k2, v2), SetOp(k3, v3), GetOp(k1), GetOp(k2), GetOp(k3), GetOp(k0)]
  }

  /** The replies the "overflow" test expects: the first key is gone. */
  function OverflowReplies<V>(v1: V, v2: V, v3: V): seq<Reply<V>> {
    [WasInCache(false), WasInCache(false), WasInCache(false), WasInCache(false),
     Got(Some(v1)), Got(Some(v2)), Got(Some(v3)), Got(None)]
  }

  /** The last two reads of "overflow", from contents `[k2, k1, k3]`. */
  lemma OverflowFrom6<V>(k0: Key, k1: Key, k2: Key, k3: Key, v0: V, v1: V, v2: V, v3: V)
    requires Distinct4(k0, k1, k2, k3)
    ensures RepliesFrom(3, [CachedValue(k2, v2), CachedValue(k1, v1), CachedValue(k3, v3)],
                        OverflowOps(k0, k1, k2, k3, v0, v1, v2, v3), OverflowReplies(v1, v2, v3), 6)
  {
    var ops, rs := OverflowOps(k0, k1, k2, k3, v0, v1, v2, v3), OverflowReplies(v1, v2, v3);
    var e1, e2, e3 := CachedValue(k1, v1), CachedValue(k2, v2), CachedValue(k3, v3);
    RunEnd(3, [e3, e2, e1], ops, rs);
    GetMissAt(3, [e3, e2, e1], ops, rs, 7);
    GetHitAt(3, [e2, e1, e3], 2, [e3, e2, e1], ops, rs, 6);
  }

  /** The first two reads of "overflow", from contents `[k3, k2, k1]`. */
  lemma OverflowFrom4<V>(k0: Key, k1: Key, k2: Key, k3: Key, v0: V, v1: V, v2: V, v3: V)
    requires Distinct4(k0, k1, k2, k3)
    ensures RepliesFrom(3, [CachedValue(k3, v3), CachedValue(k2, v2), CachedValue(k1, v1)],
                        OverflowOps(k0, k1, k2, k3, v0, v1, v2, v3), OverflowReplies(v1, v2, v3), 4)
  {
    var ops, rs := OverflowOps(k0, k1, k2, k3, v0, v1, v2, v3), OverflowReplies(v1, v2, v3);
    var e1, e2, e3 := CachedValue(k1, v1), CachedValue(k2, v2), CachedValue(k3, v3);
    OverflowFrom6(k0, k1, k2, k3, v0, v1, v2, v3);
    GetHitAt(3, [e1, e3, e2], 2, [e2, e1, e3], ops, rs, 5);
    GetHitAt(3, [e3, e2, e1], 2, [e1, e3, e2], ops, rs, 4);
  }

  /** The last two inserts of "overflow", the second evicting the first
      key, from contents `[k1, k0]`. */
  lemma OverflowFrom2<V>(k0: Key, k1: Key, k2: Key, k3: Key, v0: V, v1: V, v2: V, v3: V)
    requires Distinct4(k0, k1, k2, k3)
    ensures RepliesFrom(3, [CachedValue(k1, v1), CachedValue(k0, v0)],
                        OverflowOps(k0, k1, k2, k3, v0, v1, v2, v3), OverflowReplies(v1, v2, v3), 2)
  {
    var ops, rs := OverflowOps(k0, k1, k2, k3, v0, v1, v2, v3), OverflowReplies(v1, v2, v3);
    var e0, e1, e2, e3 := CachedValue(k0, v0), CachedValue(k1, v1), CachedValue(k2, v2), CachedValue(k3, v3);
    OverflowFrom4(k0, k1, k2, k3, v0, v1, v2, v3);
    SetEvictAt(3, [e2, e1, e0], [e3, e2, e1], ops, rs, 3);
    SetMissAt(3, [e1, e0], [e2, e1, e0], ops, rs, 2);
  }

  /** "overflow", on a fresh linked cache of capacity three. */
  lemma OverflowScenario<V>(k0: Key, k1: Key, k2: Key, k3: Key, v0: V, v1: V, v2: V, v3: V)
    requires Distinct4(k0, k1, k2, k3)
    ensures Run(NewCache(3), [], [SetOp(k0, v0), SetOp(k1, v1), SetOp(k2, v2), SetOp(k3, v3),
                                  GetOp(k1), GetOp(k2), GetOp(k3), GetOp(k0)])
         == [WasInCache(false), WasInCache(false), WasInCache(false), WasInCache(false),
             Got(Some(v1)), Got(Some(v2)), Got(Some(v3)), Got(None)]
  {
    var ops, rs := OverflowOps(k0, k1, k2, k3, v0, v1, v2, v3), OverflowReplies(v1, v2, v3);
    var e0, e1 := CachedValue(k0, v0), CachedValue(k1, v1);
    OverflowFrom2(k0, k1, k2, k3, v0, v1, v2, v3);
    SetMissAt(3, [e0], [e1, e0], ops, rs, 1);
    SetMissAt(3, [], [e0], ops, rs, 0);
    FreshReplies(3, ops, rs);
  }

  /** The calls of the "least used out" test: three keys into a cache of
      three, each touched again in turn until the third is the least
      recently used, then a fourth key, and a read of the third. */
  function LeastUsedOps<V>(k0: Key, k1: Key, k2: Key, k3: Key, v0: V, v1: V, v2: V, v22: V, v11: V, v10: V, v3: V)
    : seq<Op<V>>
  {
    [SetOp(k0, v0), SetOp(k1, v1), SetOp(k2, v2), SetOp(k2, v22), GetOp(k0), SetOp(k1, v11), SetOp(k0, v10),
     SetOp(k3, v3), GetOp(k2)]
  }

  /** The replies of "least used out": the third key is gone at the end. */
  function LeastUsedReplies<V>(v0: V): seq<Reply<V>> {
    [WasInCache(false), WasInCache(false), WasInCache(false), WasInCache(true), Got(Some(v0)),
     WasInCache(true), WasInCache(true), WasInCache(false), Got(None)]
  }

  /** The fourth key and the final read, from contents `[k0, k1, k2]`. */
  lemma LeastUsedFrom7<V>(k0: Key, k1: Key, k2: Key, k3: Key, v0: V, v1: V, v2: V, v22: V, v11: V, v10: V, v3: V)
    requires Distinct4(k0, k1, k2, k3)
    ensures RepliesFrom(3, [CachedValue(k0, v10), CachedValue(k1, v11), CachedValue(k2, v22)],
                        LeastUsedOps(k0, k1, k2, k3, v0, v1, v2, v22, v11, v10, v3), LeastUsedReplies(v0), 7)
  {
    var ops, rs := LeastUsedOps(k0, k1, k2, k3, v0, v1, v2, v22, v11, v10, v3), LeastUsedReplies(v0);
    var e0, e1, e2, e3 := CachedValue(k0, v10), CachedValue(k1, v11), CachedValue(k2, v22), CachedValue(k3, v3);
    RunEnd(3, [e3, e0, e1], ops, rs);
    GetMissAt(3, [e3, e0, e1], ops, rs, 8);
    SetEvictAt(3, [e0, e1, e2], [e3, e0, e1], ops, rs, 7);
  }

  /** The two updates before it, from contents `[k0, k2, k1]`. */
  lemma LeastUsedFrom5<V>(k0: Key, k1: Key, k2: Key, k3: Key, v0: V, v1: V, v2: V, v22: V, v11: V, v10: V, v3: V)
    requires Distinct4(k0, k1, k2, k3)
    ensures RepliesFrom(3, [CachedValue(k0, v0), CachedValue(k2, v22), CachedValue(k1, v1)],
                        LeastUsedOps(k0, k1, k2, k3, v0, v1, v2, v22, v11, v10, v3), LeastUsedReplies(v0), 5)
  {
    var ops, rs := LeastUsedOps(k0, k1, k2, k3, v0, v1, v2, v22, v11, v10, v3), LeastUsedReplies(v0);
    var e0, e1, e2' := CachedValue(k0, v0), CachedValue(k1, v1), CachedValue(k2, v22);
    var e0', e1' := CachedValue(k0, v10), CachedValue(k1, v11);
    LeastUsedFrom7(k0, k1, k2, k3, v0, v1, v2, v22, v11, v10, v3);
    SetHitAt(3, [e1', e0, e2'], 1, [e0', e1', e2'], ops, rs, 6);
    SetHitAt(3, [e0, e2', e1], 2, [e1', e0, e2'], ops, rs, 5);
  }

  /** The update of the third key and the read of the first, from contents
      `[k2, k1, k0]`. */
  lemma LeastUsedFrom3<V>(k0: Key, k1: Key, k2: Key, k3: Key, v0: V, v1: V, v2: V, v22: V, v11: V, v10: V, v3: V)
    requires Distinct4(k0, k1, k2, k3)
    ensures RepliesFrom(3, [CachedValue(k2, v2), CachedValue(k1, v1), CachedValue(k0, v0)],
                        LeastUsedOps(k0, k1, k2, k3, v0, v1, v2, v22, v11, v10, v3), LeastUsedReplies(v0), 3)
  {
    var ops, rs := LeastUsedOps(k0, k1, k2, k3, v0, v1, v2, v22, v11, v10, v3), LeastUsedReplies(v0);
    var e0, e1, e2, e2' := CachedValue(k0, v0), CachedValue(k1, v1), CachedValue(k2, v2), CachedValue(k2, v22);
    LeastUsedFrom5(k0, k1, k2, k3, v0, v1, v2, v22, v11, v10, v3);
    GetHitAt(3, [e2', e1, e0], 2, [e0, e2', e1], ops, rs, 4);
    SetHitAt(3, [e2, e1, e0], 0, [e2', e1, e0], ops, rs, 3);
  }

  /** The second and third inserts of "least used out", from contents
      `[k0]`. */
  lemma LeastUsedFrom1<V>(k0: Key, k1: Key, k2: Key, k3: Key, v0: V, v1: V, v2: V, v22: V, v11: V, v10: V, v3: V)
    requires Distinct4(k0, k1, k2, k3)
    ensures RepliesFrom(3, [CachedValue(k0, v0)],
                        LeastUsedOps(k0, k1, k2, k3, v0, v1, v2, v22, v11, v10, v3), LeastUsedReplies(v0), 1)
  {
    var ops, rs := LeastUsedOps(k0, k1, k2, k3, v0, v1, v2, v22, v11, v10, v3), LeastUsedReplies(v0);
    var e0, e1, e2 := CachedValue(k0, v0), CachedValue(k1, v1), CachedValue(k2, v2);
    LeastUsedFrom3(k0, k1, k2, k3, v0, v1, v2, v22, v11, v10, v3);
    SetMissAt(3, [e1, e0], [e2, e1, e0], ops, rs, 2);
    SetMissAt(3, [e0], [e1, e0], ops, rs, 1);
  }

  /** "least used out", on a fresh linked cache of capacity three. */
  lemma LeastUsedScenario<V>(k0: Key, k1: Key, k2: Key, k3: Key, v0: V, v1: V, v2: V, v22: V, v11: V, v10: V, v3: V)
    requires Distinct4(k0, k1, k2, k3)
    ensures Run(NewCache(3), [], [SetOp(k0, v0), SetOp(k1, v1), SetOp(k2, v2), SetOp(k2, v22), GetOp(k0),
                                  SetOp(k1, v11), SetOp(k0, v10), SetOp(k3, v3), GetOp(k2)])
         == [WasInCache(false), WasInCache(false), WasInCache(false), WasInCache(true), Got(Some(v0)),
             WasInCache(true), WasInCache(true), WasInCache(false), Got(None)]
  {
    var ops, rs := LeastUsedOps(k0, k1, k2, k3, v0, v1, v2, v22, v11, v10, v3), LeastUsedReplies(v0);
    LeastUsedFrom1(k0, k1, k2, k3, v0, v1, v2, v22, v11, v10, v3);
    SetMissAt(3, [], [CachedValue(k0, v0)], ops, rs, 0);
    FreshReplies(3, ops, rs);
  }

  /** "zero capacity": a `Set` into a cache of capacity zero is not kept, so
      the `Get` of the same key misses. */
  lemma ZeroCapacityScenario<V>(k: Key, v: V)
    ensures Run(NewCache(0), [], [SetOp(k, v), GetOp(k)]) == [WasInCache(false), Got(None)]
  {
    var ops, rs := [SetOp(k, v), GetOp(k)], [WasInCache(false), Got(None)];
    RunEnd(0, [], ops, rs);
    GetMissAt(0, [], ops, rs, 1);
    SetEvictAt(0, [], [], ops, rs, 0);
    FreshReplies(0, ops, rs);
  }
}
