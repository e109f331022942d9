/** What the recency list's operations do to the chain they refine: each
    operation maps a `Valid` list over `order` to a `Valid` list over the
    expected new order, and the links can be walked in both directions. */
module ListLemmas {
  import opened LinkedList
  import opened Seqs

  /** Follows `Next` from `p` for at most `n` nodes, collecting addresses. */
  function WalkNext<V>(l: List<V>, p: Ptr, n: nat): seq<nat>
    requires Closed(l) && InArena(l.heap, p)
    decreases n
  {
    if n == 0 then []
    else match p
      case Nil => []
      case At(a) => [a] + WalkNext(l, l.heap[a].next, n - 1)
  }

  /** Follows `Prev` from `p` for at most `n` nodes, collecting addresses. */
  function WalkPrev<V>(l: List<V>, p: Ptr, n: nat): seq<nat>
    requires Closed(l) && InArena(l.heap, p)
    decreases n
  {
    if n == 0 then []
    else match p
      case Nil => []
      case At(a) => [a] + WalkPrev(l, l.heap[a].prev, n - 1)
  }

  function Reverse<T>(s: seq<T>): (r: seq<T>)
    ensures |r| == |s|
    ensures forall i :: 0 <= i < |s| ==> r[i] == s[|s| - 1 - i]
  {
    if s == [] then [] else [s[|s| - 1]] + Reverse(s[..|s| - 1])
  }

  /** The values stored in the chain, front first. */
  ghost function Values<V>(l: List<V>, order: seq<nat>): (vs: seq<V>)
    requires forall i :: 0 <= i < |order| ==> order[i] < |l.heap|
    ensures |vs| == |order|
    ensures forall i {:trigger vs[i]} :: 0 <= i < |order| ==> vs[i] == l.heap[order[i]].value
  {
    if order == [] then [] else [l.heap[order[0]].value] + Values(l, order[1..])
  }

  /** Values of a chain depend only on the values stored in its nodes. */
  lemma ValuesOfKept<V>(l: List<V>, r: List<V>, order: seq<nat>)
    requires ValuesKept(l, r) && forall i :: 0 <= i < |order| ==> order[i] < |l.heap|
    ensures Values(r, order) == Values(l, order)
  {
  }

  /** The values of a chain with one node put in front. */
  lemma ValuesCons<V>(l: List<V>, a: nat, order: seq<nat>)
    requires a < |l.heap| && forall i :: 0 <= i < |order| ==> order[i] < |l.heap|
    ensures Values(l, [a] + order) == [l.heap[a].value] + Values(l, order)
  {
    assert ([a] + order)[1..] == order;
  }

  lemma {:induction false} WalkNextFrom<V>(l: List<V>, order: seq<nat>, k: nat, extra: nat)
    requires Valid(l, order) && k < |order|
    ensures WalkNext(l, At(order[k]), |order| - k + extra) == order[k..]
    decreases |order| - k
  {
    if k + 1 < |order| {
      WalkNextFrom(l, order, k + 1, extra);
    } else {
      assert l.heap[order[k]].next == Nil;
      if extra > 0 {
        assert WalkNext(l, Nil, extra) == [];
      }
    }
  }

  lemma {:induction false} WalkPrevFrom<V>(l: List<V>, order: seq<nat>, k: nat, extra: nat)
    requires Valid(l, order) && k < |order|
    ensures WalkPrev(l, At(order[k]), k + 1 + extra) == Reverse(order[..k + 1])
  {
    assert order[..k + 1][..k] == order[..k];
    if k > 0 {
      WalkPrevFrom(l, order, k - 1, extra);
    } else {
      assert l.heap[order[k]].prev == Nil;
      if extra > 0 {
        assert WalkPrev(l, Nil, extra) == [];
      }
    }
  }

  /** The chain invariant: following `Next` from `front` visits exactly
      `len` nodes, ending at `back`, and stops there (even when allowed
      further steps); following `Prev` from `back` is its exact reverse. */
  lemma Chain<V>(l: List<V>, order: seq<nat>)
    requires Valid(l, order)
    ensures l.len >= 0
    ensures WalkNext(l, l.front, l.len) == order
    ensures WalkNext(l, l.front, l.len + 1) == order
    ensures WalkPrev(l, l.back, l.len) == Reverse(order)
    ensures WalkPrev(l, l.back, l.len + 1) == Reverse(order)
    ensures l.len > 0 ==> l.back == At(WalkNext(l, l.front, l.len)[l.len - 1])
  {
    if order != [] {
      WalkNextFrom(l, order, 0, 0);
      WalkNextFrom(l, order, 0, 1);
      WalkPrevFrom(l, order, |order| - 1, 0);
      WalkPrevFrom(l, order, |order| - 1, 1);
      assert order[..|order|] == order;
    }
  }

  /** The pointers determine the chain: a list refines at most one order. */
  lemma OrderUnique<V>(l: List<V>, o1: seq<nat>, o2: seq<nat>)
    requires Valid(l, o1) && Valid(l, o2)
    ensures o1 == o2
  {
    Chain(l, o1);
    Chain(l, o2);
  }

  /** `NewList` is empty: both walks are empty. */
  lemma NewListEmpty<V>()
    ensures var l := NewList<V>(); l.len == 0 && WalkNext(l, l.front, 1) == [] && WalkPrev(l, l.back, 1) == []
  {
  }

  lemma AllocKeeps<V>(l: List<V>, order: seq<nat>, v: V)
    requires Valid(l, order)
    ensures var a := Alloc(l, v);
      Valid(a.list, order) && a.item !in order && a.list.heap[a.item] == Item(v, Nil, Nil)
  {
  }

  /** `order` with `item` inserted at position `p`. */
  function Insert(order: seq<nat>, p: nat, item: nat): (o: seq<nat>)
    requires p <= |order|
    ensures |o| == |order| + 1 && o[p] == item
    ensures forall j :: 0 <= j < p ==> o[j] == order[j]
    ensures forall j :: p < j < |o| ==> o[j] == order[j - 1]
  {
    order[..p] + [item] + order[p..]
  }

  /** The link writes that splice `item` into the chain of `l` between
      positions `p - 1` and `p`, leaving every other chain node alone. */
  ghost predicate Spliced<V>(l: List<V>, r: List<V>, order: seq<nat>, p: nat, item: nat)
    requires p <= |order| && item < |l.heap| && |r.heap| == |l.heap|
    requires forall i :: 0 <= i < |order| ==> order[i] < |l.heap|
  {
    && r.heap[item].next == (if p < |order| then At(order[p]) else Nil)
    && r.heap[item].prev == (if 0 < p then At(order[p - 1]) else Nil)
    && (p < |order| ==> r.heap[order[p]] == l.heap[order[p]].(prev := At(item)))
    && (0 < p ==> r.heap[order[p - 1]] == l.heap[order[p - 1]].(next := At(item)))
    && (forall j :: 0 <= j < |order| && j != p && j != p - 1 ==> r.heap[order[j]] == l.heap[order[j]])
  }

  lemma InsertNext<V>(l: List<V>, r: List<V>, order: seq<nat>, p: nat, item: nat)
    requires Links(l, order) && p <= |order| && item < |l.heap| && item !in order
    requires |r.heap| == |l.heap| && Spliced(l, r, order, p, item)
    ensures var o := Insert(order, p, item);
      forall j :: 0 <= j < |o| ==> r.heap[o[j]].next == (if j + 1 < |o| then At(o[j + 1]) else Nil)
  {
    var o := Insert(order, p, item);
    forall j | 0 <= j < |o|
      ensures r.heap[o[j]].next == (if j + 1 < |o| then At(o[j + 1]) else Nil)
    {
      if j < p - 1 {
        assert r.heap[order[j]] == l.heap[order[j]];
      } else if j == p - 1 {
      } else if j == p {
      } else if j == p + 1 {
      } else {
        assert r.heap[order[j - 1]] == l.heap[order[j - 1]];
      }
    }
  }

  lemma InsertPrev<V>(l: List<V>, r: List<V>, order: seq<nat>, p: nat, item: nat)
    requires Links(l, order) && p <= |order| && item < |l.heap| && item !in order
    requires |r.heap| == |l.heap| && Spliced(l, r, order, p, item)
    ensures var o := Insert(order, p, item);
      forall j :: 0 <= j < |o| ==> r.heap[o[j]].prev == (if 0 < j then At(o[j - 1]) else Nil)
  {
    var o := Insert(order, p, item);
    forall j | 0 <= j < |o|
      ensures r.heap[o[j]].prev == (if 0 < j then At(o[j - 1]) else Nil)
    {
      if j < p - 1 {
        assert r.heap[order[j]] == l.heap[order[j]];
      } else if j == p - 1 {
      } else if j == p {
      } else if j == p + 1 {
      } else {
        assert r.heap[order[j - 1]] == l.heap[order[j - 1]];
      }
    }
  }

  lemma InsertDistinct(order: seq<nat>, p: nat, item: nat)
    requires p <= |order| && item !in order
    requires forall i, j :: 0 <= i < j < |order| ==> order[i] != order[j]
    ensures var o := Insert(order, p, item); forall i, j :: 0 <= i < j < |o| ==> o[i] != o[j]
  {
  }

  /** Splicing a node into the chain at position `p`: if `r` differs from a
      valid `l` only by the link writes that put `item` between positions
      `p - 1` and `p`, then `r` refines the chain with `item` inserted. */
  lemma InsertLinks<V>(l: List<V>, r: List<V>, order: seq<nat>, p: nat, item: nat)
    requires Links(l, order) && p <= |order| && item < |l.heap| && item !in order
    requires |r.heap| == |l.heap| && r.len == l.len + 1
    requires r.front == (if p == 0 then At(item) else l.front)
    requires r.back == (if p == |order| then At(item) else l.back)
    requires Spliced(l, r, order, p, item)
    ensures Links(r, Insert(order, p, item))
  {
    var o := Insert(order, p, item);
    InsertNext(l, r, order, p, item);
    InsertPrev(l, r, order, p, item);
    InsertDistinct(order, p, item);
    assert r.front == At(o[0]) by {
      if p > 0 {
        assert o[0] == order[0];
      }
    }
    assert r.back == At(o[|o| - 1]) by {
      if p < |order| {
        assert o[|o| - 1] == order[|order| - 1];
      }
    }
    assert forall i :: 0 <= i < |o| ==> o[i] < |r.heap| by {
      forall i | 0 <= i < |o|
        ensures o[i] < |r.heap|
      {
        if i < p {
          assert o[i] == order[i];
        } else if i > p {
          assert o[i] == order[i - 1];
        }
      }
    }
  }

  /** `PushBefore(next, item)` writes only `item`, `next` and the node `p`
      before `next`: `item` goes between `p` and `next`. */
  lemma PushBeforeFrame<V>(l: List<V>, next: nat, item: nat)
    requires Closed(l) && next < |l.heap| && item < |l.heap| && item != next
    requires l.heap[next].prev != At(item) && l.heap[next].prev != At(next)
    ensures var r := PushBefore(l, next, item); var p := l.heap[next].prev;
      && r.heap[item] == l.heap[item].(next := At(next), prev := p)
      && r.heap[next] == l.heap[next].(prev := At(item))
      && (p.At? ==> r.heap[p.addr] == l.heap[p.addr].(next := At(item)))
      && r.front == (if p == Nil then At(item) else l.front)
      && forall a :: 0 <= a < |l.heap| && a != item && a != next && p != At(a) ==> r.heap[a] == l.heap[a]
  {
  }

  /** `PushAfter(prev, item)` writes only `item`, `prev` and the node `n`
      after `prev`: `item` goes between `prev` and `n`. */
  lemma PushAfterFrame<V>(l: List<V>, prev: nat, item: nat)
    requires Closed(l) && prev < |l.heap| && item < |l.heap| && item != prev
    requires l.heap[prev].next != At(item) && l.heap[prev].next != At(prev)
    ensures var r := PushAfter(l, prev, item); var n := l.heap[prev].next;
      && r.heap[item] == l.heap[item].(prev := At(prev), next := n)
      && r.heap[prev] == l.heap[prev].(next := At(item))
      && (n.At? ==> r.heap[n.addr] == l.heap[n.addr].(prev := At(item)))
      && r.back == (if n == Nil then At(item) else l.back)
      && forall a :: 0 <= a < |l.heap| && a != item && a != prev && n != At(a) ==> r.heap[a] == l.heap[a]
  {
  }

  /** The link writes `PushBefore(order[k], item)` performs on a valid list. */
  lemma PushBeforeWrites<V>(l: List<V>, order: seq<nat>, k: nat, item: nat)
    requires Valid(l, order) && k < |order| && item < |l.heap| && item !in order
    ensures var r := PushBefore(l, order[k], item);
      && |r.heap| == |l.heap| && r.len == l.len + 1 && r.back == l.back
      && r.front == (if k == 0 then At(item) else l.front)
      && Spliced(l, r, order, k, item)
  {
    var r := PushBefore(l, order[k], item);
    if k == 0 {
      assert l.heap[order[k]].prev == Nil;
    } else {
      assert l.heap[order[k]].prev == At(order[k - 1]);
      assert order[k - 1] != order[k];
    }
    PushBeforeFrame(l, order[k], item);
    forall j | 0 <= j < |order| && j != k && j != k - 1
      ensures r.heap[order[j]] == l.heap[order[j]]
    {
      assert order[j] != order[k] && (k > 0 ==> order[j] != order[k - 1]);
    }
  }

  /** `PushBefore(order[k], item)` links `item` into the chain at position `k`. */
  lemma PushBeforeLinks<V>(l: List<V>, order: seq<nat>, k: nat, item: nat)
    requires Valid(l, order) && k < |order| && item < |l.heap| && item !in order
    ensures Valid(PushBefore(l, order[k], item), Insert(order, k, item))
  {
    PushBeforeWrites(l, order, k, item);
    InsertLinks(l, PushBefore(l, order[k], item), order, k, item);
  }

  /** The link writes `PushAfter(order[k], item)` performs on a valid list. */
  lemma PushAfterWrites<V>(l: List<V>, order: seq<nat>, k: nat, item: nat)
    requires Valid(l, order) && k < |order| && item < |l.heap| && item !in order
    ensures var r := PushAfter(l, order[k], item);
      && |r.heap| == |l.heap| && r.len == l.len + 1 && r.front == l.front
      && r.back == (if k + 1 == |order| then At(item) else l.back)
      && Spliced(l, r, order, k + 1, item)
  {
    var r := PushAfter(l, order[k], item);
    if k + 1 == |order| {
      assert l.heap[order[k]].next == Nil;
    } else {
      assert l.heap[order[k]].next == At(order[k + 1]);
      assert order[k + 1] != order[k];
    }
    PushAfterFrame(l, order[k], item);
    forall j | 0 <= j < |order| && j != k + 1 && j != k
      ensures r.heap[order[j]] == l.heap[order[j]]
    {
      assert order[j] != order[k] && (k + 1 < |order| ==> order[j] != order[k + 1]);
    }
  }

  /** `PushAfter(order[k], item)` links `item` into the chain at position `k + 1`. */
  lemma PushAfterLinks<V>(l: List<V>, order: seq<nat>, k: nat, item: nat)
    requires Valid(l, order) && k < |order| && item < |l.heap| && item !in order
    ensures Valid(PushAfter(l, order[k], item), Insert(order, k + 1, item))
  {
    PushAfterWrites(l, order, k, item);
    InsertLinks(l, PushAfter(l, order[k], item), order, k + 1, item);
  }

  /** `PushItemFront(i)` links a node that is not in the chain in as its front. */
  lemma PushItemFrontLinks<V>(l: List<V>, order: seq<nat>, i: nat)
    requires Valid(l, order) && i < |l.heap| && i !in order
    ensures Valid(PushItemFront(l, i), [i] + order)
  {
    if order == [] {
      var r := PushItemFront(l, i);
      assert r.heap[i].next == Nil && r.heap[i].prev == Nil;
      assert Links(r, [i]);
    } else {
      PushBeforeLinks(l, order, 0, i);
      assert Insert(order, 0, i) == [i] + order;
    }
  }

  /** `PushFront(v)`: the new node holding `v` becomes the front, the old
      front becomes its `Next`, the rest of the chain keeps its order, and no
      stored value changes. */
  lemma PushFrontLinks<V>(l: List<V>, order: seq<nat>, v: V)
    requires Valid(l, order)
    ensures var r := PushFront(l, v);
      && r.item !in order
      && Valid(r.list, [r.item] + order)
      && r.list.len == l.len + 1
      && r.list.front == At(r.item)
      && r.list.heap[r.item].value == v
      && r.list.heap[r.item].next == l.front
      && ValuesKept(l, r.list)
  {
    var a := Alloc(l, v);
    AllocKeeps(l, order, v);
    PushItemFrontLinks(a.list, order, a.item);
  }

  /** `PushBack(v)`: the new node holding `v` becomes the back, the rest of the
      chain keeps its order, and no stored value changes. */
  lemma PushBackLinks<V>(l: List<V>, order: seq<nat>, v: V)
    requires Valid(l, order)
    ensures var r := PushBack(l, v);
      && r.item !in order
      && Valid(r.list, order + [r.item])
      && r.list.len == l.len + 1
      && r.list.back == At(r.item)
      && r.list.heap[r.item].value == v
      && r.list.heap[r.item].prev == l.back
      && ValuesKept(l, r.list)
  {
    var a := Alloc(l, v);
    AllocKeeps(l, order, v);
    if order == [] {
      PushItemFrontLinks(a.list, order, a.item);
      assert [a.item] + order == order + [a.item];
    } else {
      PushAfterWrites(a.list, order, |order| - 1, a.item);
      PushAfterLinks(a.list, order, |order| - 1, a.item);
      assert Insert(order, |order|, a.item) == order + [a.item];
    }
  }

  /** Pushing onto an empty list, at either end, makes the new node both the
      front and the back, with nil neighbours, and the length 1. */
  lemma PushOntoEmpty<V>(l: List<V>, v: V)
    requires Valid(l, [])
    ensures var r := PushFront(l, v);
      r.list.front == At(r.item) && r.list.back == At(r.item) && r.list.len == 1 &&
      r.list.heap[r.item].next == Nil && r.list.heap[r.item].prev == Nil
    ensures var r := PushBack(l, v);
      r.list.front == At(r.item) && r.list.back == At(r.item) && r.list.len == 1 &&
      r.list.heap[r.item].next == Nil && r.list.heap[r.item].prev == Nil
  {
    PushFrontLinks(l, [], v);
    PushBackLinks(l, [], v);
  }

  /** The link writes that take position `k` out of the chain of `l`,
      leaving every other chain node alone. */
  ghost predicate Unspliced<V>(l: List<V>, r: List<V>, order: seq<nat>, k: nat)
    requires k < |order| && |r.heap| == |l.heap|
    requires forall i :: 0 <= i < |order| ==> order[i] < |l.heap|
  {
    && (0 < k ==>
          r.heap[order[k - 1]] == l.heap[order[k - 1]].(next := if k + 1 < |order| then At(order[k + 1]) else Nil))
    && (k + 1 < |order| ==>
          r.heap[order[k + 1]] == l.heap[order[k + 1]].(prev := if 0 < k then At(order[k - 1]) else Nil))
    && (forall j :: 0 <= j < |order| && j != k - 1 && j != k && j != k + 1 ==> r.heap[order[j]] == l.heap[order[j]])
  }

  lemma DeleteNext<V>(l: List<V>, r: List<V>, order: seq<nat>, k: nat)
    requires Links(l, order) && k < |order| && |r.heap| == |l.heap| && Unspliced(l, r, order, k)
    ensures var o := RemoveAt(order, k);
      forall j :: 0 <= j < |o| ==> r.heap[o[j]].next == (if j + 1 < |o| then At(o[j + 1]) else Nil)
  {
    var o := RemoveAt(order, k);
    forall j | 0 <= j < |o|
      ensures r.heap[o[j]].next == (if j + 1 < |o| then At(o[j + 1]) else Nil)
    {
      if j < k - 1 {
        assert r.heap[order[j]] == l.heap[order[j]];
      } else if j == k - 1 {
      } else if j == k {
      } else {
        assert r.heap[order[j + 1]] == l.heap[order[j + 1]];
      }
    }
  }

  lemma DeletePrev<V>(l: List<V>, r: List<V>, order: seq<nat>, k: nat)
    requires Links(l, order) && k < |order| && |r.heap| == |l.heap| && Unspliced(l, r, order, k)
    ensures var o := RemoveAt(order, k);
      forall j :: 0 <= j < |o| ==> r.heap[o[j]].prev == (if 0 < j then At(o[j - 1]) else Nil)
  {
    var o := RemoveAt(order, k);
    forall j | 0 <= j < |o|
      ensures r.heap[o[j]].prev == (if 0 < j then At(o[j - 1]) else Nil)
    {
      if j < k - 1 {
        assert r.heap[order[j]] == l.heap[order[j]];
      } else if j == k - 1 {
      } else if j == k {
      } else {
        assert r.heap[order[j + 1]] == l.heap[order[j + 1]];
      }
    }
  }

  lemma DeleteDistinct(order: seq<nat>, k: nat)
    requires k < |order|
    requires forall i, j :: 0 <= i < j < |order| ==> order[i] != order[j]
    ensures var o := RemoveAt(order, k);
      && (forall i, j :: 0 <= i < j < |o| ==> o[i] != o[j])
      && order[k] !in o
  {
  }

  /** Taking a node out of the chain at position `k`: if `r` differs from a
      valid `l` only by the link writes that join positions `k - 1` and
      `k + 1`, then `r` refines the chain without it. */
  lemma DeleteLinks<V>(l: List<V>, r: List<V>, order: seq<nat>, k: nat)
    requires Links(l, order) && k < |order|
    requires |r.heap| == |l.heap| && r.len == l.len - 1
    requires r.front == (if k > 0 then l.front else if k + 1 < |order| then At(order[1]) else Nil)
    requires r.back == (if k + 1 < |order| then l.back else if k > 0 then At(order[k - 1]) else Nil)
    requires Unspliced(l, r, order, k)
    ensures Links(r, RemoveAt(order, k))
  {
    DeleteNext(l, r, order, k);
    DeletePrev(l, r, order, k);
    DeleteDistinct(order, k);
  }

  /** The link writes `Remove(order[k])` performs on a valid list. */
  lemma RemoveWrites<V>(l: List<V>, order: seq<nat>, k: nat)
    requires Valid(l, order) && k < |order|
    ensures var r := Remove(l, order[k]);
      && |r.heap| == |l.heap| && r.len == l.len - 1
      && r.front == (if k > 0 then l.front else if k + 1 < |order| then At(order[1]) else Nil)
      && r.back == (if k + 1 < |order| then l.back else if k > 0 then At(order[k - 1]) else Nil)
      && Unspliced(l, r, order, k)
  {
    assert l.heap[order[k]].next == (if k + 1 < |order| then At(order[k + 1]) else Nil);
    assert l.heap[order[k]].prev == (if 0 < k then At(order[k - 1]) else Nil);
    if k > 0 {
      assert order[k - 1] != order[k];
    }
    if k + 1 < |order| {
      assert order[k + 1] != order[k];
    }
    if 0 < k && k + 1 < |order| {
      assert order[k - 1] != order[k + 1];
    }
  }

  /** `Remove(order[k])` relinks the neighbours of the node (updating `front`
      or `back` when it was first or last), decrements `len`, keeps the other
      nodes in order and changes no stored value. */
  lemma RemoveLinks<V>(l: List<V>, order: seq<nat>, k: nat)
    requires Valid(l, order) && k < |order|
    ensures var r := Remove(l, order[k]);
      && Valid(r, RemoveAt(order, k))
      && order[k] !in RemoveAt(order, k)
      && r.len == l.len - 1
      && ValuesKept(l, r)
  {
    RemoveWrites(l, order, k);
    DeleteLinks(l, Remove(l, order[k]), order, k);
    DeleteDistinct(order, k);
  }

  /** Removing the only node leaves `front` and `back` nil and `len` 0. */
  lemma RemoveSole<V>(l: List<V>, x: nat)
    requires Valid(l, [x])
    ensures var r := Remove(l, x); r.front == Nil && r.back == Nil && r.len == 0
  {
    RemoveLinks(l, [x], 0);
  }

  /** Removing the back node leaves the chain without its last node, and
      its values without the last value. */
  lemma RemoveBackLinks<V>(l: List<V>, order: seq<nat>)
    requires Valid(l, order) && order != []
    ensures var n := |order| - 1; var r := Remove(l, order[n]);
      && Valid(r, order[..n])
      && |r.heap| == |l.heap|
      && Values(r, order[..n]) == Values(l, order)[..n]
  {
    var n := |order| - 1;
    RemoveLinks(l, order, n);
    assert RemoveAt(order, n) == order[..n];
    ValuesOfKept(l, Remove(l, order[n]), order[..n]);
  }

  /** `MoveToFront(order[k])`: a no-op for the front node; otherwise the node
      becomes the front, the others keep their relative order, and `len` and
      every stored value are unchanged. */
  lemma MoveToFrontLinks<V>(l: List<V>, order: seq<nat>, k: nat)
    requires Valid(l, order) && k < |order|
    ensures var r := MoveToFront(l, order[k]);
      && (k == 0 ==> r == l)
      && Valid(r, [order[k]] + RemoveAt(order, k))
      && r.front == At(order[k])
      && r.len == l.len
      && ValuesKept(l, r)
  {
    if k == 0 {
      assert [order[0]] + RemoveAt(order, 0) == order;
    } else {
      assert order[0] != order[k];
      RemoveLinks(l, order, k);
      PushItemFrontLinks(Remove(l, order[k]), RemoveAt(order, k), order[k]);
    }
  }
}
