# Verified models of smc-server

Models of the most intricate parts of the repository, with machine-checked proofs of what they
promise. `dafny verify dfyconfig.toml` checks everything.

- **LRU cache.** `LruModel` says what each operation of `LruCache` does to two recency lists, a
  clock and the listener calls; `LruLaws`, `LruHits`, `LruRuns` and `LruOrder` prove what users rely on about
  those functions, for one operation and for whole runs. `LruCache` is the class itself: heap nodes shared
  by hash chains and two doubly linked lists, each method proved to keep the representation and to
  compute the function of `LruModel`. `LruKeys` is the key iterator and the load of the table,
  `Primes` the table of moduli. `LruConcurrency` is the cache as a transition system with one step
  per critical section and per write of a link, for any number of threads.
- **Timed cache.** `TimedModel` gives expiry and group invalidation their meaning over two LRU
  models and proves that no read is stale; `TimedCaching` is the class over two `LruCache` objects.
- **AMD loaders.** `RequireCycles` is the cycle search of require.js, `TrimDots` the in-place
  trimming of paths shared by require.js and almond.js, `Almond` the mutually recursive execution of
  modules by almond.js.
- **NSQ client.** `NsqEncoding` is the command encoder with a reader that inverts it, `BatchModel`
  and `Batching` the batching of messages, `Connections` the connection pool, and `NsqClient` the
  loops that fill and clean it.

A class with mutable fields is a Dafny class; a pure function beside it specifies what its methods
compute, and the laws are proved about that function. Clock readings, the outcome of network calls,
hash codes, and which listener interfaces a value implements are parameters.

## Findings

- `LruCache.clear()` with listeners disabled empties the hash table but leaves the recency lists as
  they were, unless the cache was empty (`LruCache.LruCache.Clear`). `size()` is then wrong, and the
  next put hangs exactly when the size at the clear was at least the capacity: every round of its
  eviction loop leaves both lists as they were (`LruCache.LruCache.EvictForgotten`).
- A put on a full cache evicts before it looks. It evicts the key it was going to overwrite exactly
  when that key is the next victim (`LruLaws.SurvivesItsOwnPutIff`); `put` then reports no old value
  and `compareAndPut` finds none (`LruLaws.PutReportsIff`, `LruLaws.CompareAndPutSucceedsIff`).
- A first hit is meant always to promote; it does not while the counter stands in one short window
  below its wrap-around (`LruLaws.FirstHitPromotesIff`), which runs do reach
  (`LruRuns.FirstHitCanFail`).
- The constructor of `LruCache` never returns for some capacities (`LruCache.SizingHangsFor`), and
  from 2^30 on it makes a table of 16 slots, which does not remain half empty (`LruKeys.Overfull`).
- `refrushGroup` in the very millisecond the current group object was made invalidates nothing
  (`TimedModel.RefreshInvalidatesIff`).
- An expiry interval near the largest `long` makes entries invalid at once (`TimedModel.ValidUntil`).
- `findCycle` misses cycles behind a dependency that is not inited or enabled yet, as its comments
  say (`RequireCycles.HiddenCycle`), and takes a module for a cycle that is named after a property
  every object inherits, such as "constructor" (`RequireCycles.FalseCycle`).
- almond.js does not complain about a missing dependency with such a name; the factory is given
  nothing for it (`Almond.Loader.Require`, `Almond.FinalArgument`).

## Model

| member | source | states |
|---|---|---|
| LruCache.SizingEndsIff | smc-local-cache/src/main/java/com.smc.local/cache/LruCache.java:120-121 | in 32-bit arithmetic the sizing loop ends if and only if twice the capacity, wrapped to an `int`, is at most 2^30 |
| LruCache.SizingHangsFor | smc-local-cache/src/main/java/com.smc.local/cache/LruCache.java:120-121 | so the constructor never returns exactly for capacities strictly between 2^29 and 2^30, or strictly between -3*2^29 and -2^30 |
| LruCache.TableSize | smc-local-cache/src/main/java/com.smc.local/cache/LruCache.java:118-121 | for every other `int` the loop ends at the least doubling of 16 that is not below twice the capacity as an `int`; that is at least twice the capacity exactly up to 2^29 |
| LruCache.LruCache.constructor | smc-local-cache/src/main/java/com.smc.local/cache/LruCache.java:117-147 | for every capacity for which the constructor returns: an empty cache whose heap representation is valid |
| Primes.GetBiggestPrime | smc-local-cache/src/main/java/com.smc.local/cache/Primes.java:69-76 | the largest listed prime that is at most the value, and 2 below 1; so every hash index is in range |
| LruCache.LruList.Unlink | smc-local-cache/src/main/java/com.smc.local/cache/LruCache.java:413-434 | an item leaves its doubly linked list: the order loses exactly that item, head, tail, links and size stay right |
| LruCache.LruList.PushFront | smc-local-cache/src/main/java/com.smc.local/cache/LruCache.java:365-371 | an item becomes the head of a doubly linked list |
| LruCache.LruCache.UpdateLruImpl | smc-local-cache/src/main/java/com.smc.local/cache/LruCache.java:407-472 | for any item ever created: from list 1 or 2 to the head of list 2; a removed item is not linked again; both lists stay well formed with exact sizes and hit counts |
| LruCache.LruCache.UpdateLru | smc-local-cache/src/main/java/com.smc.local/cache/LruCache.java:395-405 | a hit moves the item exactly when the model's `Touch` does |
| LruCache.LruCache.RemoveLruItem | smc-local-cache/src/main/java/com.smc.local/cache/LruCache.java:597-650 | for any item ever created: it leaves its list and is marked for good, the other list is untouched |
| LruCache.LruCache.BucketOf | smc-local-cache/src/main/java/com.smc.local/cache/LruCache.java:223 | the hash index is inside the table for any hash code, negative ones included |
| LruCache.LruCache.FindItem | smc-local-cache/src/main/java/com.smc.local/cache/LruCache.java:227-240 | the walk along a hash chain finds an item with the key and the item before it, or no item of the table has the key |
| LruCache.LruCache.Get | smc-local-cache/src/main/java/com.smc.local/cache/LruCache.java:218-246 | computes the model's `Get`, new state and value, and keeps the representation |
| LruCache.LruCache.InsertItem | smc-local-cache/src/main/java/com.smc.local/cache/LruCache.java:347-378 | a new item joins list 1 and the head of its bucket: the model's `Insert` |
| LruCache.LruCache.Store | smc-local-cache/src/main/java/com.smc.local/cache/LruCache.java:318-388 | the part of `compareAndPut` after the eviction: the model's `Store`, with the listeners notified |
| LruCache.LruCache.CompareAndPutAny | smc-local-cache/src/main/java/com.smc.local/cache/LruCache.java:303-389 | evicts first, then looks up and stores: the model's `CompareAndPut` for any arguments |
| LruCache.LruCache.Put | smc-local-cache/src/main/java/com.smc.local/cache/LruCache.java:256-260 | `put` computes the model's state and old value |
| LruCache.LruCache.PutIfNew | smc-local-cache/src/main/java/com.smc.local/cache/LruCache.java:270-277 | `putIfNew` computes the model's state and result |
| LruCache.LruCache.CompareAndPut | smc-local-cache/src/main/java/com.smc.local/cache/LruCache.java:287-291 | the new state is the model's, and true is returned exactly when the value after eviction was the test value and the replacement is not that same non-null object |
| LruCache.LruCache.RemoveLru | smc-local-cache/src/main/java/com.smc.local/cache/LruCache.java:474-486 | the eviction loop ends, computes the model's `Evict`, and releases its flag |
| LruCache.LruCache.RemoveTail | smc-local-cache/src/main/java/com.smc.local/cache/LruCache.java:491-515 | gives up the model's victim, after telling its `LruListener`, and false exactly on an empty cache; on a forgotten cache it only tells the listener, and still returns true |
| LruCache.LruCache.RemoveLongestTail | smc-local-cache/src/main/java/com.smc.local/cache/LruCache.java:524-542 | gives up the last item of the longer list, of list 2 on a tie |
| LruCache.LruCache.Remove | smc-local-cache/src/main/java/com.smc.local/cache/LruCache.java:550-595 | the key's item leaves bucket and list, its listeners are called: the model's `Remove`; on a forgotten cache nothing happens |
| LruCache.LruCache.Clear | smc-local-cache/src/main/java/com.smc.local/cache/LruCache.java:177-210 | with listeners enabled the cache is emptied and each cached listener notified once; with listeners disabled a cache that was not empty is left forgotten: both lists as they were, no item in the table; the representation survives if and only if listeners are enabled or the cache was empty |
| LruCache.LruCache.EvictForgotten | smc-local-cache/src/main/java/com.smc.local/cache/LruCache.java:479-480 | after such a clear the eviction loop of the next put gets through any number of rounds if the size at the clear was at least the capacity, and through none otherwise: that put hangs exactly in the first case |
| LruCache.ForgottenKeepsLists | smc-local-cache/src/main/java/com.smc.local/cache/LruCache.java:491-515 | on a forgotten cache any number of tail removals leaves both lists and the victim as they were |
| LruCache.LruCache.Size | smc-local-cache/src/main/java/com.smc.local/cache/LruCache.java:163-165 | the sum of the two sizes is the number of cached keys and never exceeds the capacity |
| LruLaws.RemoveTailLaw | smc-local-cache/src/main/java/com.smc.local/cache/LruCache.java:491-515 | a tail removal takes the last item of list 1 if that holds half the capacity or list 2 is empty, otherwise of list 2, and nothing else; it lowers the size by exactly one unless the cache is empty |
| LruLaws.RemoveLongestTailLaw | smc-local-cache/src/main/java/com.smc.local/cache/LruCache.java:524-542 | which list the longest-tail removal shortens, and by one item |
| LruLaws.EvictLaw | smc-local-cache/src/main/java/com.smc.local/cache/LruCache.java:474-486 | the loop leaves room for one item, takes nothing when there is room, and only shortens the two lists |
| LruLaws.TouchLaw | smc-local-cache/src/main/java/com.smc.local/cache/LruCache.java:395-472 | a hit changes the order only: every lookup and the size stay |
| LruLaws.GetLaw | smc-local-cache/src/main/java/com.smc.local/cache/LruCache.java:218-246 | `get` returns what is stored under the key and changes no lookup and no size |
| LruLaws.CompareAndPutLaw | smc-local-cache/src/main/java/com.smc.local/cache/LruCache.java:303-389 | as a map: after the eviction exactly one key changes, and only if the comparison allows it; the size stays within the capacity |
| LruLaws.RemoveLaw | smc-local-cache/src/main/java/com.smc.local/cache/LruCache.java:550-595 | as a map: exactly the key is gone, its value is returned, the size drops by one if it was there |
| LruLaws.PutResult | smc-local-cache/src/main/java/com.smc.local/cache/LruCache.java:309-341 | `put` returns the value displaced after the eviction, null for the same object |
| LruLaws.CompareAndPutResult | smc-local-cache/src/main/java/com.smc.local/cache/LruCache.java:287-291 | exactly when `compareAndPut` reports success |
| LruLaws.PutIfNewResult | smc-local-cache/src/main/java/com.smc.local/cache/LruCache.java:270-277 | `putIfNew` returns what a lookup finds afterwards |
| LruLaws.SameObjectFiresNothing | smc-local-cache/src/main/java/com.smc.local/cache/LruCache.java:325-337 | putting the object that is already there notifies nobody, evictions apart |
| LruLaws.SurvivesItsOwnPutIff | smc-local-cache/src/main/java/com.smc.local/cache/LruCache.java:309-310 | a cached key survives the eviction of its own put, with its value, if and only if the cache is not full or the next victim is another key |
| LruLaws.EvictKeepsIff | smc-local-cache/src/main/java/com.smc.local/cache/LruCache.java:309-310 | before a put exactly the victim's key is lost, if the cache is full; every other key keeps its value |
| LruLaws.PutReportsIff | smc-local-cache/src/main/java/com.smc.local/cache/LruCache.java:256-260 | `put` reports the value it replaces if and only if the key survives and the object is another |
| LruLaws.CompareAndPutSucceedsIff | smc-local-cache/src/main/java/com.smc.local/cache/LruCache.java:287-291 | when `compareAndPut` succeeds, and what is stored under the key afterwards, in terms of the cache before the call |
| LruLaws.FullCacheEvictsItsOwnKey | smc-local-cache/src/main/java/com.smc.local/cache/LruCache.java:309-345 | on any full cache there is a key whose overwrite first evicts that very key: `put` then reports no old value and `compareAndPut` against the current value fails and loses the key |
| LruLaws.RestampedIff | smc-local-cache/src/main/java/com.smc.local/cache/LruCache.java:395-405 | the 30-bit counter refines an unbounded one: a hit on a promoted item restamps it exactly when the number of list updates since its stamp, modulo 2^30, exceeds the timeout |
| LruLaws.FirstHitPromotesIff | smc-local-cache/src/main/java/com.smc.local/cache/LruCache.java:361-363 | a first hit promotes, except while the counter is in one window of timeout + 1 values below its wrap-around |
| LruRuns.FirstHitCanFail | smc-local-cache/src/main/java/com.smc.local/cache/LruCache.java:361-363 | for every cache and key there is a run after which a first hit on the key does not promote it |
| LruRuns.RunKeeps | smc-local-cache/src/main/java/com.smc.local/cache/LruCache.java:177-595 | over every run of public operations the keys stay distinct, the lists disjoint, and the size within the capacity |
| LruRuns.NotificationsConserved | smc-local-cache/src/main/java/com.smc.local/cache/LruCache.java:177-210 | over every run with listeners enabled, listeners stored = cached + notified, with multiplicity |
| LruRuns.NotifiedExactlyOnce | smc-local-cache/src/main/java/com.smc.local/cache/LruCache.java:380-386 | a listener stored once is notified once after it has left and never while it is cached |
| LruRuns.ScanResistance | smc-local-cache/src/main/java/com.smc.local/cache/LruCache.java:474-515 | any sequence of puts of new keys leaves list 2 a prefix of what it was, no shorter than the smaller of its old length and the half list 1 cannot claim |
| LruKeys.KeyIterator.constructor | smc-local-cache/src/main/java/com.smc.local/cache/LruCache.java:748-761 | the iterator starts at the first key of list 2, or of list 1 when list 2 is empty |
| LruKeys.KeyIterator.Next | smc-local-cache/src/main/java/com.smc.local/cache/LruCache.java:775-790 | returns the keys of list 2 and then list 1 one after the other, then null for ever |
| LruKeys.KeyIterator.HasNext | smc-local-cache/src/main/java/com.smc.local/cache/LruCache.java:767-769 | true exactly while there is another key |
| LruKeys.ListKeys | smc-local-cache/src/main/java/com.smc.local/cache/TimedCache.java:173-180 | every cached key exactly once, as many as `size()`, list 2 before list 1 |
| LruKeys.KeysAreCached | smc-local-cache/src/main/java/com.smc.local/cache/LruCache.java:748-790 | the keys enumerated are exactly the keys cached |
| LruKeys.HalfEmpty | smc-local-cache/src/main/java/com.smc.local/cache/LruCache.java:52-54 | no more buckets are used than there are items, so up to a capacity of 2^29 at least half of the table is empty at any time |
| LruKeys.Overfull | smc-local-cache/src/main/java/com.smc.local/cache/LruCache.java:52-54 | from a capacity of 2^30 on nine keys leave the table more than half full |
| LruOrder.PromoteOrdered | smc-local-cache/src/main/java/com.smc.local/cache/LruCache.java:437-447 | a promoted item becomes the most recent one, at the head of list 2 |
| LruOrder.RunOrdered | smc-local-cache/src/main/java/com.smc.local/cache/LruCache.java:347-472 | over every run both lists stay ordered by the list update that put each item where it is |
| LruOrder.VictimIsLeastRecent | smc-local-cache/src/main/java/com.smc.local/cache/LruCache.java:491-515 | after any run the item a tail removal gives up is the least recently inserted or promoted of its list |
| LruHits.HitMovesIff | smc-local-cache/src/main/java/com.smc.local/cache/LruCache.java:230-240 | `get` of a cached key moves its item to the head of list 2, with the new moment, and keeps every other entry in place, exactly when the item is in list 1 and the counter is outside its window, or in list 2 and more list updates than the interval have passed modulo 2^30; otherwise, and on a miss, it changes nothing |
| LruHits.HitSavesIff | smc-local-cache/src/main/java/com.smc.local/cache/LruCache.java:395-472 | the eviction after such a hit spares its key if and only if the capacity is at least 2, so that there can be another victim |
| LruHits.HitSavesItsKey | smc-local-cache/src/main/java/com.smc.local/cache/LruCache.java:218-246 | after any run, such a hit keeps the key cached through the next put of another key, whatever it evicts |
| LruHits.StorePlaces | smc-local-cache/src/main/java/com.smc.local/cache/LruCache.java:318-372 | overwriting a key, or a comparison that fails on one, moves its item exactly as a hit does; a new key becomes the head of list 1 and moves nothing; a failed comparison on a missing key changes nothing |
| LruHits.LeavingCalls | smc-local-cache/src/main/java/com.smc.local/cache/LruCache.java:380-386 | a value that leaves is called as `SyncCacheListener` and then as `CacheListener`, each exactly if listeners are enabled and it is one |
| LruHits.RemovalCalls | smc-local-cache/src/main/java/com.smc.local/cache/LruCache.java:491-595 | the calls of `remove` and of an eviction: exactly those owed to the value that leaves, an `LruListener` being warned first even with listeners disabled |
| LruHits.OverwriteCalls | smc-local-cache/src/main/java/com.smc.local/cache/LruCache.java:325-341 | an overwrite makes exactly the calls owed to the displaced value, none when the same object is put again |
| LruConcurrency.InitialOK | smc-local-cache/src/main/java/com.smc.local/cache/LruCache.java:117-147 | the empty cache meets the concurrent invariant for any number of threads |
| LruConcurrency.DoKeeps | smc-local-cache/src/main/java/com.smc.local/cache/LruCache.java:347-378 | every atomic step of every thread keeps the invariant: lists well formed with exact sizes, chains intact, lock ownership, and every item in both structures or in the hands of the thread moving it |
| LruConcurrency.RunKeeps | smc-local-cache/src/main/java/com.smc.local/cache/LruCache.java:407-472 | the invariant holds in every state of every interleaving |
| LruConcurrency.ListsMatchTable | smc-local-cache/src/main/java/com.smc.local/cache/LruCache.java:561-585 | whenever no writer is inside an operation, whatever the readers do, exactly the hash-table items are in the lists |
| LruConcurrency.StatusSteps | smc-local-cache/src/main/java/com.smc.local/cache/LruCache.java:374-375 | an item is published at most once, unlinked at most once, and keeps its key |
| LruConcurrency.RemovedForGood | smc-local-cache/src/main/java/com.smc.local/cache/LruCache.java:416-418 | a removed item is never linked into a recency list again, even by a reader that still holds it |
| LruConcurrency.LiveStaysReachable | smc-local-cache/src/main/java/com.smc.local/cache/LruCache.java:564-585 | from any node ever linked, removed ones included, every live older node of its bucket is reachable by `_nextHash` |
| LruConcurrency.ChainIsLive | smc-local-cache/src/main/java/com.smc.local/cache/LruCache.java:374-375 | the chain of a bucket is exactly its live nodes |
| LruConcurrency.GetNeverMisses | smc-local-cache/src/main/java/com.smc.local/cache/LruCache.java:227-240 | an unlocked `get` does not miss an item that stays cached during the whole call |
| LruConcurrency.MissIsLinearizable | smc-local-cache/src/main/java/com.smc.local/cache/LruCache.java:227-245 | when an unlocked `get` finds nothing, there was a moment of the call at which no item of the table had the key |
| LruConcurrency.GetFindsWhatWasThere | smc-local-cache/src/main/java/com.smc.local/cache/LruCache.java:227-240 | what an unlocked `get` finds has the key and was cached at some moment of the call |
| LruConcurrency.SectionsMove | smc-local-cache/src/main/java/com.smc.local/cache/LruCache.java:347-472 | each critical section on the lists: a hit moves an item not yet removed to the head of list 2, a removal takes out just its item, an insertion puts a new item at the head of list 1 |
| TimedModel.FetchIff | smc-local-cache/src/main/java/com.smc.local/cache/TimedCache.java:97-119 | `get` serves an entry exactly when it is cached, unexpired and its group equals the current one; otherwise the key is gone; when it throws |
| TimedModel.GetGroupLaw | smc-local-cache/src/main/java/com.smc.local/cache/TimedCache.java:81-88 | `getGroup` hands out the recorded group or a new one, and leaves it recorded |
| TimedModel.PutGroupLaw | smc-local-cache/src/main/java/com.smc.local/cache/TimedCache.java:90-93 | `refrushGroup` replaces the record of the group; other records stay or are evicted |
| TimedModel.FetchCache | smc-local-cache/src/main/java/com.smc.local/cache/TimedCache.java:97-119 | `get` gives no key a new value |
| TimedModel.RunRenewed | smc-local-cache/src/main/java/com.smc.local/cache/TimedCache.java:81-93 | once a group is refreshed at a time, its record is never older again, even after eviction and re-creation |
| TimedModel.RunHoldsLatest | smc-local-cache/src/main/java/com.smc.local/cache/TimedCache.java:60-79 | whatever is cached under a key was put last under it and not removed since |
| TimedModel.PutAnswers | smc-local-cache/src/main/java/com.smc.local/cache/TimedCache.java:60-79 | after any run `put` answers the value put last under the key, if its entry is still cached and not evicted by this very put, and null otherwise |
| TimedModel.RemoveAnswers | smc-local-cache/src/main/java/com.smc.local/cache/TimedCache.java:151-155 | `remove` answers the value of the entry that was cached, or null, and the key is gone |
| TimedModel.ServedIsFresh | smc-local-cache/src/main/java/com.smc.local/cache/TimedCache.java:97-119 | no stale read: after any run with a clock that never goes back, what `get` serves was put last, has not expired, and its group object is no older than any earlier refresh of that group |
| TimedModel.RefreshInvalidatesIff | smc-local-cache/src/main/java/com.smc.local/cache/CacheGroup.java:24-32 | a refresh invalidates an unexpired entry if and only if its time differs from the group object's timestamp; in the same millisecond the stale entry is still served |
| TimedModel.ReadYourWrite | smc-local-cache/src/main/java/com.smc.local/cache/TimedCache.java:72-88 | after any run, a value put with the group `getGroup` hands out is read back until it expires |
| TimedModel.ValidUntil | smc-local-cache/src/main/java/com.smc.local/cache/TimedCache.java:203-205 | an entry is valid until its deadline if and only if the deadline fits a `long`; with a longer interval it is never valid |
| TimedCaching.TimedCache.constructor | smc-local-cache/src/main/java/com.smc.local/cache/TimedCache.java:41-51 | two empty LRU caches of the same capacity, or one without groups |
| TimedCaching.TimedCache.Put | smc-local-cache/src/main/java/com.smc.local/cache/TimedCache.java:60-79 | computes the model's `Put`, new state and old value |
| TimedCaching.TimedCache.GetGroup | smc-local-cache/src/main/java/com.smc.local/cache/TimedCache.java:81-88 | computes the model's `GetGroup`; without a group cache it throws |
| TimedCaching.TimedCache.RefrushGroup | smc-local-cache/src/main/java/com.smc.local/cache/TimedCache.java:90-93 | computes the model's `PutGroup`; without a group cache it throws |
| TimedCaching.TimedCache.Get | smc-local-cache/src/main/java/com.smc.local/cache/TimedCache.java:97-119 | computes the model's `Get` over both caches |
| TimedCaching.TimedCache.Remove | smc-local-cache/src/main/java/com.smc.local/cache/TimedCache.java:151-155 | computes the model's `Remove` |
| TimedCaching.TimedCache.RemoveAll | smc-local-cache/src/main/java/com.smc.local/cache/TimedCache.java:160-162 | empties the cache of entries, notifies each once, and leaves the groups |
| TimedCaching.TimedCache.ListKeys | smc-local-cache/src/main/java/com.smc.local/cache/TimedCache.java:173-180 | every cached key exactly once |
| RequireCycles.FindCycle | smc-base-server/src/main/webapp/js/require.js:609-655 | the search ends on every registry; what it returns closes a path or bears a name every object inherits, and when it returns nothing no path ends like that |
| RequireCycles.FindCycleFrom | smc-base-server/src/main/webapp/js/require.js:609-655 | called with nothing traced it returns something if and only if a module on a cycle, or with an inherited name, can be reached along the dependencies it follows, and what it returns is such a module |
| RequireCycles.SearchSeesAll | smc-base-server/src/main/webapp/js/require.js:636-642 | when no dependency of a reachable module still waits, the paths of the search are all dependency paths |
| RequireCycles.ReadyMeansEveryCycle | smc-base-server/src/main/webapp/js/require.js:628-652 | then, if no registered module has an inherited name, a module is found exactly when a dependency cycle can be reached |
| RequireCycles.WaitingHidesCycles | smc-base-server/src/main/webapp/js/require.js:636-642 | a dependency not inited or not enabled, or unregistered with an inherited name, hides all later ones, and everything the module depends on when nothing before it is registered |
| RequireCycles.HiddenCycle | smc-base-server/src/main/webapp/js/require.js:636-642 | a dependency cycle that is reachable and not found, because a dependency listed before it is not inited or not enabled |
| RequireCycles.VisibleCycle | smc-base-server/src/main/webapp/js/require.js:636-651 | the same cycle can be followed and is caught once that dependency is inited and enabled |
| RequireCycles.FalseCycle | smc-base-server/src/main/webapp/js/require.js:621-623 | a module named after an inherited property is returned although there is no cycle |
| TrimDots.Trim | smc-base-server/src/main/webapp/fuelux/lib/almond.js:50-71 | the splicing loop ends, on every exit leads where the given path leads, what it has processed has no "." and ".." only in front; it stops early exactly when the segments it gets to see lead two steps above the start, or one step by two adjacent ".."; without "." and a leading ".." the result never starts with ".." |
| TrimDots.StopsWithoutDots | smc-base-server/src/main/webapp/fuelux/lib/almond.js:56-62 | for a path without "." that means: it stops early exactly when some prefix has more ".." than segments, by two if the path starts with ".." |
| TrimDots.WalkTrimmed | smc-base-server/src/main/webapp/js/require.js:247-253 | where a trimmed path leads: one step up at most, then down its segments |
| TrimDots.TrimmedIsUnique | smc-base-server/src/main/webapp/js/require.js:247-253 | a trimmed path is determined by where it leads, so a loop that does not stop early returns the only possible result |
| Almond.Loader.Define | smc-base-server/src/main/webapp/fuelux/lib/almond.js:321-333 | `define` makes the module wait; a second argument that is no array takes the place of the third |
| Almond.Loader.CallDep | smc-base-server/src/main/webapp/fuelux/lib/almond.js:152-164 | executes a waiting module once, with what it needs; returns what is defined; throws only for a name that cannot be had |
| Almond.Loader.RunMain | smc-base-server/src/main/webapp/fuelux/lib/almond.js:204-267 | executes a module whose name has left the waiting table: dependencies first, then the factory, then its definition |
| Almond.Loader.Dependencies | smc-base-server/src/main/webapp/fuelux/lib/almond.js:219-246 | the loop over the dependencies: each is seen to, and becomes the argument it should be |
| Almond.Loader.CallFactory | smc-base-server/src/main/webapp/fuelux/lib/almond.js:248-261 | a changed `module.exports` wins, then a defined return value, then the exports object |
| Almond.Loader.Require | smc-base-server/src/main/webapp/fuelux/lib/almond.js:269-275 | terminates; throws if and only if the name is unknown, or one needed below it is neither known nor inherited from Object.prototype; otherwise exactly the waiting modules reachable from the name are executed, each factory once with proper arguments, each module defined by its factory |
| Almond.PathExecuted | smc-base-server/src/main/webapp/fuelux/lib/almond.js:218-246 | what has been executed is closed under dependency paths |
| Almond.SuccessUnstuck | smc-base-server/src/main/webapp/fuelux/lib/almond.js:238-245 | a require that succeeded needed no name that is neither known nor inherited |
| Almond.FinalArgument | smc-base-server/src/main/webapp/fuelux/lib/almond.js:238-239 | a dependency that does not lead back to the module is passed with its final value; an inherited name nobody defined is passed as undefined |
| Almond.DefinedByExporting | smc-base-server/src/main/webapp/fuelux/lib/almond.js:254-260 | over all calls of a require: a module that lists `exports` is defined as a new defined `module.exports`, if it lists `module`; else as a defined return value; else as its own exports object, the last one made |
| Almond.DefinedByReturning | smc-base-server/src/main/webapp/fuelux/lib/almond.js:254-260 | a module that does not list `exports` is defined as a new defined `module.exports`, if it lists `module`, and else as what its factory returned, undefined included |
| Almond.DefaultArguments | smc-base-server/src/main/webapp/fuelux/lib/almond.js:218-237 | a factory with parameters but no dependencies is given `require`, its exports object and a module object that starts from it; one without parameters is given nothing |
| Almond.ProvidedArguments | smc-base-server/src/main/webapp/fuelux/lib/almond.js:218-237 | a factory with dependencies is given one argument for each; what it is given at the places of `require`, `exports` and `module`, and what `module.exports` starts as there |
| Almond.AdvancedTwice | smc-base-server/src/main/webapp/fuelux/lib/almond.js:152-158 | two stretches of execution compose: modules executed once each, earlier arguments and values not disturbed |
| Almond.ModuleExecuted | smc-base-server/src/main/webapp/fuelux/lib/almond.js:248-266 | the last step of a module completes its execution and takes it off the stack |
| NsqEncoding.Encode | smc-notify/src/main/java/com/nsq/netty/NSQEncoder.java:34-55 | the encoder writes the line and the payload for any list of messages; just the line for none, and one length and message for one |
| NsqEncoding.AnnouncedSize | smc-notify/src/main/java/com/nsq/netty/NSQEncoder.java:40-49 | the size an MPUB announces is the number of bytes that follow |
| NsqEncoding.MpubRoundTrip | smc-notify/src/main/java/com/nsq/netty/NSQEncoder.java:40-54 | reading an MPUB back gives exactly the list of messages sent |
| NsqEncoding.PubRoundTrip | smc-notify/src/main/java/com/nsq/netty/NSQEncoder.java:51-54 | so does reading a single message sent by PUB |
| Batching.Batch.constructor | smc-notify/src/main/java/com/nsq/Batch.java:24-39 | an empty batch with the default limits |
| Batching.Batch.AddMessage | smc-notify/src/main/java/com/nsq/Batch.java:51-58 | the message joins the batch, the first one sets the deadline, and `totalBytes` stays the size on the wire |
| Batching.Batch.GetAndClear | smc-notify/src/main/java/com/nsq/Batch.java:79-87 | hands out all messages and leaves the batch empty |
| Batching.Batch.GetAndClearIfReady | smc-notify/src/main/java/com/nsq/Batch.java:66-77 | does so exactly when a limit is reached or the deadline has passed |
| Batching.NSQProducer.ConfigureBatch | smc-notify/src/main/java/com/nsq/NSQProducer.java:41-55 | installs a batch with the given limits and hands over what the old one held |
| Batching.NSQProducer.ProduceBatch | smc-notify/src/main/java/com/nsq/NSQProducer.java:93-117 | computes the model's `Produce` on the heap objects |
| Batching.NSQProducer.FlushBatches | smc-notify/src/main/java/com/nsq/NSQProducer.java:60-67 | hands over every batch and leaves none |
| BatchModel.Conservation | smc-notify/src/main/java/com/nsq/NSQProducer.java:41-117 | over every run, for each topic, the lists handed over followed by the waiting messages are exactly the messages produced, in order |
| BatchModel.FlushHandsAll | smc-notify/src/main/java/com/nsq/NSQProducer.java:60-67 | after a flush everything produced for a topic has been handed over |
| BatchModel.RunWaiting | smc-notify/src/main/java/com/nsq/Batch.java:66-77 | between calls no batch is full |
| BatchModel.AutomaticSend | smc-notify/src/main/java/com/nsq/NSQProducer.java:110-116 | a `produceBatch` sends exactly when a limit is reached or the batch has expired, and otherwise keeps the deadline set by the first message; the list has at most `maxMessages` messages and was below `maxBytes` before its last one, unless that message is alone |
| BatchModel.ConfiguredLimits | smc-notify/src/main/java/com/nsq/NSQProducer.java:41-55 | after any run each limit of a topic's last configuration still holds, and the default where none was given, however often the batch was sent, until a flush drops it |
| BatchModel.DefaultLimits | smc-notify/src/main/java/com/nsq/Batch.java:24-26 | a topic never configured, or not since it was flushed, works with the default limits |
| Connections.Connections.AddConnection | smc-notify/src/main/java/com/nsq/Connections.java:29-45 | null and duplicates change nothing, anything else is appended; index and list keep agreeing |
| Connections.Connections.Remove | smc-notify/src/main/java/com/nsq/Connections.java:95-108 | the connection leaves list and index, the rest keeps its order; an empty group disappears |
| Connections.Connections.RemoveAddress | smc-notify/src/main/java/com/nsq/Connections.java:110-117 | all connections of one address leave, and no other |
| Connections.Connections.Next | smc-notify/src/main/java/com/nsq/Connections.java:86-93 | an error when empty, else the element the counter points to, and the counter moves on |
| Connections.Connections.TakeTurns | smc-notify/src/main/java/com/nsq/Connections.java:86-93 | consecutive calls of `next()` return a round of the list; as many as there are connections return each once |
| Connections.Connections.ConnectionSize | smc-notify/src/main/java/com/nsq/Connections.java:58-64 | the number of listed connections with that address |
| Connections.Connections.ContainsConnection | smc-notify/src/main/java/com/nsq/Connections.java:47-49 | true exactly when some listed connection has the address |
| Connections.Connections.SizesSum | smc-notify/src/main/java/com/nsq/Connections.java:25-26 | the groups of the index are together as long as the list |
| Connections.RoundIsRotation | smc-notify/src/main/java/com/nsq/Connections.java:92 | as many consecutive `next()` as there are connections return the list turned round: each connection once |
| Connections.OfRemoveFirst | smc-notify/src/main/java/com/nsq/Connections.java:101-106 | removing a connection touches the group of its own address only |
| Connections.OfRemoveAll | smc-notify/src/main/java/com/nsq/Connections.java:110-117 | dropping one address leaves the others as they were |
| NsqClient.NSQClient.FillAddress | smc-notify/src/main/java/com/nsq/AbstractNSQClient.java:172-176 | as many attempts as the pool is short of; the pool grows by those that succeed, no other pool changes |
| NsqClient.NSQClient.FillPools | smc-notify/src/main/java/com/nsq/AbstractNSQClient.java:171-178 | every pool ends between its old size and the larger of that and the largest size listed, and at that bound when every attempt succeeds; nothing is attempted exactly when all pools are large enough |
| NsqClient.FilledMore | smc-notify/src/main/java/com/nsq/AbstractNSQClient.java:171-178 | one more listed address, possibly a duplicate, keeps the bounds for all addresses |
| NsqClient.FilledIsEnough | smc-notify/src/main/java/com/nsq/AbstractNSQClient.java:172-173 | once every pool could be filled a repeated run opens nothing |
| NsqClient.NSQClient.CleanupOldConnections | smc-notify/src/main/java/com/nsq/AbstractNSQClient.java:185-198 | exactly the connections heard of within two minutes remain, in order |
| NsqClient.AliveIff | smc-notify/src/main/java/com/nsq/AbstractNSQClient.java:189-197 | a connection stays if and only if it was listed and heard of since the cutoff |
| NsqClient.NSQClient.Connect | smc-notify/src/main/java/com/nsq/AbstractNSQClient.java:161-180 | fills the pools, then drops the dead connections |
| NsqClient.NSQClient.Disconnected | smc-notify/src/main/java/com/nsq/AbstractNSQClient.java:205-208 | the connection leaves the pool |

## Left out

- LruCache.LruCache.Clear: the class models one thread at a time; bucket locks, `volatile` and the order of link writes inside one critical section of the LRU lock are not in the class. The concurrent claims are about `LruConcurrency`, where such a section is one step, memory is sequentially consistent, and the scan of a chain by a thread that holds its bucket lock is one step.
- LruConcurrency.RunKeeps: no bound on the size is claimed under concurrency, because other threads skip the eviction while one evicts; values, listeners and the counter are not part of the transition system.
- Representation of the two lists: the fields `_head1`, `_tail1`, `_size1` and `_head2`, `_tail2`, `_size2` are grouped into two `LruList` objects.
- Null keys: the sentinel that stands for a null key is an ordinary key of the model, and the iterator would return it.
- Statistics: `_hitCount` and `_missCount` are not modelled.
- LruCache.LruCache.constructor: capacities for which the sizing loop does not end (`LruCache.SizingHangsFor`) have no object to speak of.
- Listeners that call back into the cache, or throw.
- `EntryIterator` and `ValueIterator`: the former visits only the head of each bucket, so it enumerates nothing in full; the latter repeats the key iterator.
- `TimedCache.get(key, interval)` and `expireInterval`: they revive entries without a validity check by design.
- TimedCaching.TimedCache.GetGroup: group names are not null, and a group cache that was not asked for makes the call throw, as `Outcome.NullPointer`.
- TimedModel.ServedIsFresh: the clock may not go back; if it does, an older timestamp can become current again.
- Almond.Loader.Require: modules have no plugin prefix, factories do not call `require` or `define` themselves and do not throw, names are resolved by an arbitrary function given in advance, and no module is called "", "hasOwnProperty" or "__proto__": the code tests for the first, and the other two would replace what the tables themselves are asked. A `require` with an array of dependencies, the timer and `normalize` apart from its trimming loop are not modelled.
- TrimDots.Trim: the array is a sequence held in a variable; the configuration map of `normalize` and the joining of segments are not modelled. `fuelux/lib/require.js` is a copy of require.js.
- RequireCycles.FindCycle: modules are values, registered under their own ids, none of them "__proto__"; forced execution and script loading are not modelled.
- NsqEncoding.MpubRoundTrip: lists whose total size does not fit 32 bits are excluded; the reader states the format, no such reader is in the repository. The text of the command line is an arbitrary byte string.
- Batching.NSQProducer.ProduceBatch: sequential use only; a producer may hold a batch that a flush has already removed. Callbacks do not throw. `setTopic` and the setters used after configuration are not modelled.
- Connections.Connections.Next: the counter is unbounded, where the `long` would wrap after 2^63 calls. The key of the index is the pair of host and port, where the code joins them with a colon.
- NsqClient.NSQClient.Connect: opening a connection either yields a new connection or fails, as given for each attempt; channels, heartbeats, the timer and IDENTIFY are not modelled, and closing a connection is only its removal from the pool.
- Consumers, lookup over HTTP, Kafka, SQLite, Redis, memcached and serialisation: thin layers over libraries.
- User-interface scripts and minified third-party scripts.
