/** The recency list of the LRU cache: an intrusive doubly linked list with
    `front`, `back` and `len`.

    Nodes live in an arena (`heap`) and are addressed by their index; a `Ptr`
    is either `Nil` or the address of a node. Allocation appends to the arena
    and nothing is ever freed, so an address, once handed out, stays valid,
    just as a Go pointer does. Every pointer-manipulating function below
    performs the same field writes, in the same order, as the Go code, reading
    each field again after earlier writes (so aliasing behaves as it does
    there).

    The list is refined by a ghost sequence of addresses in front-to-back
    order; `Valid(l, order)` ties the links, `front`, `back` and `len` to it. */
module LinkedList {

  datatype Ptr = Nil | At(addr: nat)

  /** One node (`ListItem`): its value and its two links. */
  datatype Item<V> = Item(value: V, next: Ptr, prev: Ptr)

  /** The list header (`list`) together with the arena holding its nodes. */
  datatype List<V> = List(len: int, front: Ptr, back: Ptr, heap: seq<Item<V>>)

  /** Result of the operations that allocate a node and return it. */
  datatype Pushed<V> = Pushed(list: List<V>, item: nat)

  predicate InArena<V>(heap: seq<Item<V>>, p: Ptr) {
    p.Nil? || p.addr < |heap|
  }

  /** Memory safety: every pointer of the header and of every node, reachable
      or not, is nil or points at an allocated node. */
  predicate Closed<V>(l: List<V>) {
    && InArena(l.heap, l.front)
    && InArena(l.heap, l.back)
    && forall a :: 0 <= a < |l.heap| ==> InArena(l.heap, l.heap[a].next) && InArena(l.heap, l.heap[a].prev)
  }

  /** The links, `front`, `back` and `len` describe exactly the chain `order`
      (front first): `Next` goes one step towards the back, `Prev` one step
      towards the front, and the two ends are nil. */
  ghost predicate Links<V>(l: List<V>, order: seq<nat>) {
    && |order| == l.len
    && (forall i :: 0 <= i < |order| ==> order[i] < |l.heap|)
    && (forall i, j :: 0 <= i < j < |order| ==> order[i] != order[j])
    && l.front == (if order == [] then Nil else At(order[0]))
    && l.back == (if order == [] then Nil else At(order[|order| - 1]))
    && (forall i {:trigger l.heap[order[i]]} :: 0 <= i < |order| ==>
          l.heap[order[i]].next == (if i + 1 < |order| then At(order[i + 1]) else Nil))
    && (forall i {:trigger l.heap[order[i]]} :: 0 <= i < |order| ==>
          l.heap[order[i]].prev == (if 0 < i then At(order[i - 1]) else Nil))
  }

  ghost predicate Valid<V>(l: List<V>, order: seq<nat>) {
    Closed(l) && Links(l, order)
  }

  /** Every node allocated in `l` still carries the value it had. */
  ghost predicate ValuesKept<V>(l: List<V>, r: List<V>) {
    && |l.heap| <= |r.heap|
    && forall a :: 0 <= a < |l.heap| ==> r.heap[a].value == l.heap[a].value
  }

  function SetNext<V>(h: seq<Item<V>>, a: nat, p: Ptr): seq<Item<V>>
    requires a < |h|
  {
    h[a := h[a].(next := p)]
  }

  function SetPrev<V>(h: seq<Item<V>>, a: nat, p: Ptr): seq<Item<V>>
    requires a < |h|
  {
    h[a := h[a].(prev := p)]
  }

  /** `NewList`: the empty list. */
  function NewList<V>(): (l: List<V>)
    ensures Valid(l, [])
  {
    List(0, Nil, Nil, [])
  }

  function Len<V>(l: List<V>): int { l.len }

  function Front<V>(l: List<V>): Ptr { l.front }

  function Back<V>(l: List<V>): Ptr { l.back }

  /** Allocates a fresh node holding `v` with nil links (`&ListItem{Value: v}`). */
  function Alloc<V>(l: List<V>, v: V): (r: Pushed<V>)
    requires Closed(l)
    ensures Closed(r.list) && ValuesKept(l, r.list) && |r.list.heap| == |l.heap| + 1
    ensures r.item == |l.heap| && r.list.heap[r.item].value == v
  {
    Pushed(l.(heap := l.heap + [Item(v, Nil, Nil)]), |l.heap|)
  }

  /** `PushAfter`: links `item` right after `prev`. */
  function PushAfter<V>(l: List<V>, prev: nat, item: nat): (r: List<V>)
    requires Closed(l) && prev < |l.heap| && item < |l.heap|
    ensures Closed(r) && ValuesKept(l, r) && |r.heap| == |l.heap|
    ensures r.len == l.len + 1 && r.front == l.front
  {
    var h1 := SetPrev(l.heap, item, At(prev));
    if h1[prev].next == Nil then
      var h2 := SetNext(h1, item, Nil);
      var h3 := SetNext(h2, prev, At(item));
      l.(heap := h3, back := At(item), len := l.len + 1)
    else
      var h2 := SetNext(h1, item, h1[prev].next);
      var h3 := SetPrev(h2, h2[prev].next.addr, At(item));
      var h4 := SetNext(h3, prev, At(item));
      l.(heap := h4, len := l.len + 1)
  }

  /** `PushBefore`: links `item` right before `next`. */
  function PushBefore<V>(l: List<V>, next: nat, item: nat): (r: List<V>)
    requires Closed(l) && next < |l.heap| && item < |l.heap|
    ensures Closed(r) && ValuesKept(l, r) && |r.heap| == |l.heap|
    ensures r.len == l.len + 1 && r.back == l.back
  {
    var h1 := SetNext(l.heap, item, At(next));
    if h1[next].prev == Nil then
      var h2 := SetPrev(h1, item, Nil);
      var h3 := SetPrev(h2, next, At(item));
      l.(heap := h3, front := At(item), len := l.len + 1)
    else
      var h2 := SetPrev(h1, item, h1[next].prev);
      var h3 := SetNext(h2, h2[next].prev.addr, At(item));
      var h4 := SetPrev(h3, next, At(item));
      l.(heap := h4, len := l.len + 1)
  }

  /** `PushItemFront`: links an allocated node in as the new front. */
  function PushItemFront<V>(l: List<V>, i: nat): (r: List<V>)
    requires Closed(l) && i < |l.heap|
    ensures Closed(r) && ValuesKept(l, r) && |r.heap| == |l.heap|
    ensures r.len == l.len + 1
    ensures l.front.At? ==> r.back == l.back
    ensures l.front.Nil? ==> r.front == At(i) && r.back == At(i)
  {
    if l.front == Nil then
      var h := SetNext(SetPrev(l.heap, i, Nil), i, Nil);
      l.(front := At(i), back := At(i), heap := h, len := l.len + 1)
    else
      PushBefore(l, l.front.addr, i)
  }

  /** `PushFront`: allocates a node for `v` and makes it the front. */
  function PushFront<V>(l: List<V>, v: V): (r: Pushed<V>)
    requires Closed(l)
    ensures Closed(r.list) && ValuesKept(l, r.list) && |r.list.heap| == |l.heap| + 1
    ensures r.item == |l.heap| && r.list.heap[r.item].value == v
    ensures r.list.len == l.len + 1
    ensures l.front.At? ==> r.list.back == l.back
    ensures l.front.Nil? ==> r.list.front == At(r.item) && r.list.back == At(r.item)
  {
    var a := Alloc(l, v);
    Pushed(PushItemFront(a.list, a.item), a.item)
  }

  /** `PushBack`: allocates a node for `v` and makes it the back. */
  function PushBack<V>(l: List<V>, v: V): (r: Pushed<V>)
    requires Closed(l)
    ensures Closed(r.list) && ValuesKept(l, r.list) && |r.list.heap| == |l.heap| + 1
    ensures r.item == |l.heap| && r.list.heap[r.item].value == v
    ensures r.list.len == l.len + 1
  {
    var a := Alloc(l, v);
    if a.list.back == Nil then
      Pushed(PushItemFront(a.list, a.item), a.item)
    else
      Pushed(PushAfter(a.list, a.list.back.addr, a.item), a.item)
  }

  /** `Remove`: unlinks node `i`; its own links are left as they were. */
  function Remove<V>(l: List<V>, i: nat): (r: List<V>)
    requires Closed(l) && i < |l.heap|
    ensures Closed(r) && ValuesKept(l, r) && |r.heap| == |l.heap|
    ensures r.len == l.len - 1
  {
    var l1 :=
      if l.heap[i].prev == Nil then l.(front := l.heap[i].next)
      else l.(heap := SetNext(l.heap, l.heap[i].prev.addr, l.heap[i].next));
    var l2 :=
      if l1.heap[i].next == Nil then l1.(back := l1.heap[i].prev)
      else l1.(heap := SetPrev(l1.heap, l1.heap[i].next.addr, l1.heap[i].prev));
    l2.(len := l2.len - 1)
  }

  /** `MoveToFront`: nothing when `i` is already the front, otherwise
      `Remove` followed by `PushItemFront`. */
  function MoveToFront<V>(l: List<V>, i: nat): (r: List<V>)
    requires Closed(l) && i < |l.heap|
    ensures Closed(r) && ValuesKept(l, r) && |r.heap| == |l.heap|
    ensures r.len == l.len
  {
    if l.front == At(i) then l
    else PushItemFront(Remove(l, i), i)
  }
}
