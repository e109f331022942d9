# LRU cache of image-previewer, in Dafny

This project models the least-recently-used cache in `internal/pkg/lru`.
The image previewer keeps resized images in this cache. It has two layers.

- **The recency list** (`list.go`) is an intrusive doubly linked list. It has
  `front`, `back` and `len`, and offers `PushFront`, `PushBack`, `Remove` and
  `MoveToFront`. These are built on `PushItemFront`, `PushBefore` and
  `PushAfter`.
- **The cache** (`cache.go`) is a capacity, a recency list whose nodes hold
  `cachedValue{key, value}`, and a `map[Key]*ListItem` index. `Set`
  overwrites and promotes a present key. For a new key it pushes a node at the
  front and evicts the back node once `Len() > capacity`. `Get` promotes on a
  hit. `Clear` replaces both structures.

## How it is modelled

- **Pointers.** The list's nodes live in an arena (`heap: seq<Item<V>>`). A
  pointer is `Nil` or `At(address)`. Allocation appends to the arena and
  nothing is freed, so an address stays valid, as a Go pointer does.
- **Write order.** Every list function performs the Go field writes in the Go
  order. It re-reads fields after earlier writes, so aliasing behaves as in Go.
- **Memory safety.** The functions require only that every pointer lands in
  the arena (`Closed`). They preserve `Closed`.
- **The chain.** A ghost sequence of addresses (`order`, front first) refines
  the list. `Valid(l, order)` ties the `Next`/`Prev` links, `front`, `back`
  and `len` to it.
  - Each list operation is proved to map a valid list to a valid list over the
    expected new order.
  - `Chain` proves the walk invariant: `Next` from `front` visits exactly `len`
    nodes, and `Prev` from `back` is the reverse walk.
- **The reference policy.** `LruSpec` states the policy on a plain sequence of
  entries, most recently used first. `Inv(c, order)` is the cache invariant:
  - the state is well formed and the list is valid;
  - there are at most `max(capacity, 0)` entries;
  - the index holds exactly the keys of the entries, each mapped to the node
    that carries it.
- **Refinement.** `SetRefines` and `GetRefines` prove that `Set` and `Get`
  keep the invariant and change the contents as the reference does.
  `RunRefines` lifts this to any sequence of calls. The six scenarios of
  `cache_test.go` are then read off the reference and stated of a fresh linked
  cache.
- **Values.** The stored value type is a type parameter `V` in place of
  `interface{}`. So the `.(cachedValue)` type assertions cannot fail and are
  not modelled.

## Model

| member | source | states |
|---|---|---|
| LinkedList.NewList | internal/pkg/lru/list.go:28-31 | the new list is valid over the empty chain |
| LinkedList.Alloc | internal/pkg/lru/list.go:95 | a new node holding the value is appended to the arena; pointers stay in the arena and no existing value changes |
| LinkedList.PushAfter | internal/pkg/lru/list.go:48-62 | pointers stay in the arena, no stored value changes, `len` grows by one, `front` is untouched |
| LinkedList.PushBefore | internal/pkg/lru/list.go:64-78 | pointers stay in the arena, no stored value changes, `len` grows by one, `back` is untouched |
| LinkedList.PushItemFront | internal/pkg/lru/list.go:80-92 | `len` grows by one; on an empty list the node becomes both front and back, otherwise `back` is untouched |
| LinkedList.PushFront | internal/pkg/lru/list.go:94-100 | the returned node is new and holds `v`; `len` grows by one; on an empty list it is front and back |
| LinkedList.PushBack | internal/pkg/lru/list.go:102-113 | the returned node is new and holds `v`; `len` grows by one; pointers stay in the arena |
| LinkedList.Remove | internal/pkg/lru/list.go:115-130 | pointers stay in the arena, no stored value changes, `len` drops by one |
| LinkedList.MoveToFront | internal/pkg/lru/list.go:132-139 | pointers stay in the arena, `len` and every stored value are unchanged |
| ListLemmas.Chain | internal/pkg/lru/list.go:22-26 | on a valid list, walking `Next` from `front` for `len` steps (or more) gives the chain and ends at `back`; walking `Prev` from `back` gives its reverse |
| ListLemmas.OrderUnique | internal/pkg/lru/list.go:22-26 | the links determine the chain: a list is valid over at most one order |
| ListLemmas.NewListEmpty | internal/pkg/lru/list.go:28-31 | the new list has length 0 and both walks are empty |
| ListLemmas.AllocKeeps | internal/pkg/lru/list.go:95 | allocation keeps the list valid; the new node is in no chain |
| ListLemmas.PushBeforeFrame | internal/pkg/lru/list.go:65-78 | `PushBefore` sets the new node's links to the neighbours, points both neighbours at it, moves `front` when there is no previous node, and writes no other node |
| ListLemmas.PushAfterFrame | internal/pkg/lru/list.go:49-62 | `PushAfter` sets the new node's links to the neighbours, points both neighbours at it, moves `back` when there is no next node, and writes no other node |
| ListLemmas.PushBeforeWrites | internal/pkg/lru/list.go:65-78 | on a valid list, `PushBefore(order[k], item)` performs exactly the link writes that splice `item` in at position `k` |
| ListLemmas.PushBeforeLinks | internal/pkg/lru/list.go:65-78 | `PushBefore(order[k], item)` yields a list valid over the chain with `item` inserted at position `k` |
| ListLemmas.PushAfterWrites | internal/pkg/lru/list.go:49-62 | on a valid list, `PushAfter(order[k], item)` performs exactly the link writes that splice `item` in at position `k + 1` |
| ListLemmas.PushAfterLinks | internal/pkg/lru/list.go:49-62 | `PushAfter(order[k], item)` yields a list valid over the chain with `item` inserted at position `k + 1` |
| ListLemmas.PushItemFrontLinks | internal/pkg/lru/list.go:80-92 | linking a node that is not in the chain yields a list valid over `[item] + order` |
| ListLemmas.PushFrontLinks | internal/pkg/lru/list.go:94-100 | the new node becomes the front; the old front becomes its `Next`; the others keep their order; `len` grows by one; no stored value changes |
| ListLemmas.PushBackLinks | internal/pkg/lru/list.go:103-113 | the new node becomes the back; the old back becomes its `Prev`; the others keep their order; `len` grows by one; no stored value changes |
| ListLemmas.PushOntoEmpty | internal/pkg/lru/list.go:81-89 | pushing onto an empty list, at either end, makes the node front and back, with nil links, and `len` 1 |
| ListLemmas.RemoveWrites | internal/pkg/lru/list.go:116-130 | on a valid list, `Remove(order[k])` joins the neighbours and moves `front`/`back` when the node was first or last; it writes no other node |
| ListLemmas.RemoveLinks | internal/pkg/lru/list.go:116-130 | `Remove(order[k])` yields a list valid over the chain without position `k`; `len` drops by one; no stored value changes |
| ListLemmas.RemoveSole | internal/pkg/lru/list.go:117-128 | removing the only node leaves `front` and `back` nil and `len` 0 |
| ListLemmas.RemoveBackLinks | internal/pkg/lru/list.go:116-130 | removing the back node leaves the chain and its values without their last element |
| ListLemmas.MoveToFrontLinks | internal/pkg/lru/list.go:133-139 | the front node leaves the list unchanged; any other node becomes the front, the others keep their order, and `len` and all values are unchanged |
| LruCache.NewCache | internal/pkg/lru/cache.go:25-32 | the new cache satisfies the invariant over the empty chain, with the given capacity and an empty index |
| LruCache.SetValue | internal/pkg/lru/cache.go:50 | storing a value in a node changes that node's value only and touches no link |
| LruCache.Set | internal/pkg/lru/cache.go:42-64 | the result is `true` exactly when the key was indexed; a hit keeps the index; a miss indexes at most the old keys plus the new one; the capacity is kept |
| LruCache.Get | internal/pkg/lru/cache.go:67-77 | a value is returned exactly when the key is indexed; the index is kept; a miss changes nothing |
| LruCache.Clear | internal/pkg/lru/cache.go:80-86 | the cache satisfies the invariant over the empty chain, keeps its capacity, and every `Get` misses |
| CacheLemmas.InvContents | internal/pkg/lru/cache.go:17-22 | under the invariant the entries have distinct keys, there are at most `max(capacity, 0)` of them, the index's keys are the entries' keys, and each key maps to the node at its position |
| CacheLemmas.StoreAndPromote | internal/pkg/lru/cache.go:50-51 | writing the entry into the key's node and moving it to the front gives the chain with that node first, and the values with the new entry first and the rest in their order |
| CacheLemmas.ReorderedIndexed | internal/pkg/lru/cache.go:48-53 | relinking nodes and rewriting their values keeps the index exact, provided the set of chained nodes, every node's key and the index map are unchanged |
| CacheLemmas.UpdateExisting | internal/pkg/lru/cache.go:48-53 | overwriting a present key keeps the list valid and the index exact; the contents become the new entry followed by the others in order |
| CacheLemmas.AdmitNew | internal/pkg/lru/cache.go:55 | pushing a new key's entry and indexing it gives a valid chain with the new node first, contents with the new entry first, and an exact index |
| CacheLemmas.IndexPushFront | internal/pkg/lru/cache.go:55 | indexing a new key to the new front node keeps the index exact and the keys distinct |
| CacheLemmas.IndexDropBack | internal/pkg/lru/cache.go:60 | deleting the back entry's key keeps the index exact for the chain without its last node |
| CacheLemmas.EvictBack | internal/pkg/lru/cache.go:57-61 | evicting the back node unlinks it and unindexes its key; what remains is valid, exactly indexed, and holds the contents without the last entry |
| CacheLemmas.SetExistingRefines | internal/pkg/lru/cache.go:48-53 | `Set` of a present key keeps the invariant and changes contents and answer as the reference `Set` does |
| CacheLemmas.SetNewRefines | internal/pkg/lru/cache.go:55-63 | `Set` of a new key, with or without eviction, keeps the invariant and changes contents and answer as the reference `Set` does |
| CacheLemmas.SetRefines | internal/pkg/lru/cache.go:42-64 | `Set` keeps the invariant, its contents are the reference's, and it answers as the reference does |
| CacheLemmas.GetRefines | internal/pkg/lru/cache.go:67-77 | `Get` keeps the invariant, its contents are the reference's, and it returns the reference's value |
| CacheProps.SizeBound | internal/pkg/lru/cache.go:57-61 | the list length equals the number of indexed keys and never exceeds `max(capacity, 0)` |
| CacheProps.SetKeys | internal/pkg/lru/cache.go:55-60 | after a `Set` the indexed keys are exactly the keys of the reference's new contents |
| CacheProps.SetWithRoom | internal/pkg/lru/cache.go:55-57 | a new key with room to spare is added and no key is evicted |
| CacheProps.SetWhenFull | internal/pkg/lru/cache.go:57-61 | a new key in a full cache evicts exactly the key of the back (least recently used) node; that key is not the new one |
| CacheProps.SetWithoutRoom | internal/pkg/lru/cache.go:57-61 | with capacity zero (or negative) the index is empty after a `Set` |
| CacheProps.GetHit | internal/pkg/lru/cache.go:71-74 | `Get` of a present key returns the value stored in its node, makes that node the front, and keeps the index |
| CacheProps.SetThenGet | internal/pkg/lru/cache_test.go:23-38 | with positive capacity, `Get` right after `Set(key, value)` returns `value` |
| CacheProps.SetTwiceThenGet | internal/pkg/lru/cache_test.go:40-46 | a second `Set` of a key reports it present, and a `Get` then returns the second value |
| CacheProps.ZeroCapacity | internal/pkg/lru/cache_test.go:117-127 | with capacity zero (or negative), `Set` reports a new key, leaves the index empty, and a `Get` of the key misses |
| LruSpec.SetGood | internal/pkg/lru/cache.go:42-64 | reference `Set` keeps keys distinct and size within the capacity, reports presence, and the key then holds the new value unless the capacity is zero or negative |
| LruSpec.SetExisting | internal/pkg/lru/cache.go:48-53 | reference `Set` of a present key puts the new entry first, keeps the others in order and keeps the key set |
| LruSpec.SetNew | internal/pkg/lru/cache.go:55-63 | reference `Set` of a new key puts it first and drops the last entry exactly when the sequence was full; capacity zero keeps nothing |
| LruSpec.GetGood | internal/pkg/lru/cache.go:71-76 | reference `Get` returns the stored value and moves a present key to the front without changing the key set; an absent key changes nothing |
| LruSpec.SetThenGet | internal/pkg/lru/cache_test.go:23-38 | on the reference, with positive capacity, `Get` after `Set(k, v)` returns `v` |
| LruSpec.SetTwiceThenGet | internal/pkg/lru/cache_test.go:40-46 | on the reference, a second `Set` of a key reports it present and `Get` returns the second value |
| Sessions.Run | internal/pkg/lru/cache.go:11-15 | a sequence of calls on the linked cache gets one reply per call |
| Sessions.SpecStep | internal/pkg/lru/cache.go:11-15 | each reference call gets a reply of its own kind: a flag for `Set`, an optional value for `Get`, nothing for `Clear` |
| Sessions.RunRefines | internal/pkg/lru/cache.go:42-86 | from any state in the invariant, the linked cache replies to every sequence of calls exactly as the reference does |
| Sessions.FreshRun | internal/pkg/lru/cache.go:25-32 | a fresh cache replies to any calls as the reference does from empty contents |
| Scenarios.EmptyScenario | internal/pkg/lru/cache_test.go:13-21 | a fresh cache misses two keys |
| Scenarios.SimpleScenario | internal/pkg/lru/cache_test.go:23-50 | the seven calls of "simple" get the replies the test expects, for any capacity of at least two and any three distinct keys |
| Scenarios.PurgeScenario | internal/pkg/lru/cache_test.go:52-70 | after two inserts and `Clear`, both keys miss |
| Scenarios.OverflowScenario | internal/pkg/lru/cache_test.go:72-95 | four inserts into a cache of three evict the first key, and the other three are found |
| Scenarios.LeastUsedScenario | internal/pkg/lru/cache_test.go:97-115 | after the test's updates and reads, inserting a fourth key evicts the least recently used one, which then misses |
| Scenarios.ZeroCapacityScenario | internal/pkg/lru/cache_test.go:117-127 | with capacity zero, a `Set` then a `Get` of the same key misses |

## Left out

- The mutex (`cache.go` lines 18, 43-44, 68-69 and 81-82) and
  `TestCacheMultithreading` are left out. Each public operation is one atomic
  step from one state to the next.
- Garbage collection is not modelled. Removed nodes stay in the arena,
  unreachable. The chain, the index and every property above ignore them.
- `Len`, `Front` and `Back` are modelled as plain field reads with no contract
  of their own. `Chain` states what `len`, `front` and `back` mean.
- The size hint of `make(map[Key]*ListItem, capacity)` is not modelled. It
  only preallocates.
- Negative capacity is not rejected, because the code does not reject it. It
  behaves as capacity zero: `Len() > capacity` holds after every push, so
  every new key is evicted at once. The contracts use `max(capacity, 0)` for
  this. This follows the code, although the cache's description calls the
  capacity non-negative.
- The list functions do not reject misuse the Go code does not guard against.
  Examples are `Remove` of a node that is not in the list, and
  `PushBefore`/`PushAfter` of a node that is already linked. Such calls stay
  memory-safe in the model, but the lemmas describe only members and new
  nodes.
- Sessions.Run: its own contract promises only one reply per call. What the
  replies are is stated by `Sessions.RunRefines` against the reference.
- The HTTP server, router and handlers, `main`, the image resizer, the
  configuration and logger wrappers, the cache-key helper and the end-to-end
  tests are outside this model. They are network, process and image-processing
  plumbing around the cache.
