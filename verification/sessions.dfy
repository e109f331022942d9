/** Sequences of calls on one cache: the replies of the linked cache are
    those of the reference policy, whatever the calls, so the scenarios the
    cache's tests walk through can be read off the reference. */
module Sessions {
  import opened Seqs
  import opened Entries
  import opened LruCache
  import opened CacheLemmas
  import LruSpec

  /** A call on the cache. */
  datatype Op<V> = SetOp(key: Key, value: V) | GetOp(key: Key) | ClearOp

  /** What a call returns: `Set`'s "was in cache" flag, `Get`'s value (or
      nothing), or nothing at all for `Clear`. */
  datatype Reply<V> = WasInCache(existed: bool) | Got(value: Option<V>) | Cleared

  /** Whether a reply is the kind of reply the call gives. */
  predicate Answers<V>(op: Op<V>, reply: Reply<V>) {
    match op
    case SetOp(_, _) => reply.WasInCache?
    case GetOp(_) => reply.Got?
    case ClearOp => reply.Cleared?
  }

  /** The replies of the linked cache `c` to the calls `ops`, in order;
      `order` is the chain `c` refines, carried along to keep the invariant. */
  ghost function Run<V>(c: Cache<V>, order: seq<nat>, ops: seq<Op<V>>): (replies: seq<Reply<V>>)
    requires Inv(c, order)
    ensures |replies| == |ops|
    decreases |ops|
  {
    if ops == [] then []
    else
      var rest := ops[1..];
      match ops[0]
      case SetOp(k, v) =>
        SetKeepsInv(c, order, k, v);
        var r := Set(c, k, v);
        [WasInCache(r.existed)] + Run(r.cache, SetOrder(c, order, k), rest)
      case GetOp(k) =>
        GetKeepsInv(c, order, k);
        var r := Get(c, k);
        [Got(r.value)] + Run(r.cache, GetOrder(c, order, k), rest)
      case ClearOp =>
        [Cleared] + Run(Clear(c), [], rest)
  }

  /** `Set` keeps the invariant, over the chain `SetOrder` describes. */
  lemma SetKeepsInv<V>(c: Cache<V>, order: seq<nat>, k: Key, v: V)
    requires Inv(c, order)
    ensures Inv(Set(c, k, v).cache, SetOrder(c, order, k))
  {
    SetRefines(c, order, k, v);
  }

  /** `Get` keeps the invariant, over the chain `GetOrder` describes. */
  lemma GetKeepsInv<V>(c: Cache<V>, order: seq<nat>, k: Key)
    requires Inv(c, order)
    ensures Inv(Get(c, k).cache, GetOrder(c, order, k))
  {
    GetRefines(c, order, k);
  }

  /** One call on the reference policy: its reply and the contents after. */
  function SpecStep<V>(capacity: int, s: seq<CachedValue<V>>, op: Op<V>): (step: (Reply<V>, seq<CachedValue<V>>))
    ensures Answers(op, step.0)
  {
    match op
    case SetOp(k, v) =>
      var a := LruSpec.Set(capacity, s, k, v);
      (WasInCache(a.existed), a.entries)
    case GetOp(k) =>
      var a := LruSpec.Get(s, k);
      (Got(a.value), a.entries)
    case ClearOp =>
      (Cleared, [])
  }

  /** The replies of the reference policy with capacity `capacity` and
      contents `s` to the calls `ops`. */
  function SpecRun<V>(capacity: int, s: seq<CachedValue<V>>, ops: seq<Op<V>>): (replies: seq<Reply<V>>)
    ensures |replies| == |ops|
    decreases |ops|
  {
    if ops == [] then []
    else
      var step := SpecStep(capacity, s, ops[0]);
      [step.0] + SpecRun(capacity, step.1, ops[1..])
  }

  /** One more call in front of a run of the reference policy. */
  lemma SpecRunCons<V>(capacity: int, s: seq<CachedValue<V>>, op: Op<V>, rest: seq<Op<V>>,
                       reply: Reply<V>, t: seq<CachedValue<V>>, replies: seq<Reply<V>>)
    requires SpecStep(capacity, s, op) == (reply, t) && SpecRun(capacity, t, rest) == replies
    ensures SpecRun(capacity, s, [op] + rest) == [reply] + replies
  {
    assert ([op] + rest)[1..] == rest;
  }

  /** Whatever the calls, the linked cache replies as the reference does. */
  lemma {:induction false} RunRefines<V>(c: Cache<V>, order: seq<nat>, ops: seq<Op<V>>)
    requires Inv(c, order)
    ensures Run(c, order, ops) == SpecRun(c.capacity, Contents(c, order), ops)
    decreases |ops|
  {
    if ops != [] {
      var rest := ops[1..];
      match ops[0]
      case SetOp(k, v) =>
        SetRefines(c, order, k, v);
        RunRefines(Set(c, k, v).cache, SetOrder(c, order, k), rest);
      case GetOp(k) =>
        GetRefines(c, order, k);
        RunRefines(Get(c, k).cache, GetOrder(c, order, k), rest);
      case ClearOp =>
        RunRefines(Clear(c), [], rest);
    }
  }

  /** A fresh cache of capacity `capacity` replies to `ops` as the reference
      does from empty contents. */
  lemma FreshRun<V>(capacity: int, ops: seq<Op<V>>)
    ensures Run(NewCache(capacity), [], ops) == SpecRun(capacity, [], ops)
  {
    RunRefines(NewCache<V>(capacity), [], ops);
  }
}
