# Verified model of the CacheFlow prefix cache and the vLLM code around it

This project models, in Dafny 4.11, the parts of the repository whose behaviour is hardest to see from
the code, and proves properties of them for all inputs, all runs or all reachable states.

* **The prefix-cache store** (`cacheflowv3/.../server/store.py`, `layout.py`): the page allocator with its
  coalescing free list, the index of READY chunks with its LRU order, chunks being written, replaced chunks
  kept alive by leases, and the leases. The store is a state machine over the requests its server
  dispatches. In every reachable state the entries partition the pool's pages and pins match leases key by
  key and what is in use stays within the capacity; a lookup hands out the hit prefix in the order of the
  request; eviction takes as few unpinned chunks as will do, least recently used first; a drained store is a
  fresh one. With RDMA
  writes into entries as further steps, the bytes behind a live lease never change as long as each lease that
  is given up unpins the versions it was granted; writers that skip existing chunks ensure that. When a writer
  rewrites a cached chunk the promise is false: releasing the older lease can take the newer version's pin.
  `ReleaseExactIff` says exactly when a release keeps the accounts, `ReleaseProtectsIff` exactly when it keeps
  every entry granted to another lease safe from a flush, `ExpiryProtectsIff` the same for several leases that
  expire at once, and `StolenPin` is a run in which an entry is lost.
  Runs are followed up to the first entry granted without a positive size: `SafeIff` says exactly which write
  requests let later requests spoil the pool, and `NegativeWrite` and `EmptyWrite` are runs that do.
  `SavedIsLoaded` joins store and layout: a client fills an entry in any number of transfers among other
  requests, layer by layer for one, and commits it; every byte any client loads from it later is the one the
  last transfer before the commit staged.
* **Graph-partition signatures** (`vllm/env_override.py`): running the partitions with only their declared
  inputs and outputs gives every node each buffer it reads or writes if and only if no partition frees a
  buffer without memory that another one made, or uses one under another name, and names without a node are
  constants. `SignatureIff` and `HandedOnIff` say from the nodes alone what a signature lists.
* **Build-time attribution** (`tools/report_build_time_ninja.py`): the event sweep charges every step its
  fair share of every millisecond and the charges add up to the time anything ran.
* **The chunked virtual-memory allocator** (`csrc/cumem_allocator.cpp`): chunk arithmetic in 64 bits and
  chunk counts in 32, with the exact requests for which they overflow, rollback of a failed create-and-map
  under arbitrary driver failures, which calls set the error code, and the life cycle allocate, sleep and
  wake, free.
* **Bad-word masking** (`vllm/logits_process.py`), **flat logprobs** (`vllm/logprobs.py`), **scalar types**
  (`vllm/scalar_type.py`), **request-output merging** (`vllm/outputs.py`), **chunked data-parallel sizes**
  (`vllm/forward_context.py`), **index ranges** (`vllm/model_inspection.py`) and the **communication channel**
  (`DOCA_Backend/common/comch_utils.c`).

State that the source updates in place is modelled twice: by functions on values, about which the theorems
are proved, and by classes (`ExtentAllocator`, `CacheStore`, `Allocator`, `Processor`, `Container`,
`RequestOutput`, `Channel`, `IdBuilder`, `TypeRegistry`) whose methods are proved to compute those functions.

`dafny verify dfyconfig.toml` checks the whole project.

## Where the code and its documentation differ

* `store.py:8-10` promises that pinned entries are never evicted. An entry that a live lease was granted can
  be freed after a rewrite of its key (`Leases.StolenPin`), and its pages can be handed out again after a
  write request of negative size (`StoreSizes.NegativeWrite`).
* `cumem_allocator.cpp:15-20` promises the default chunk size when the conversion would overflow. The largest
  accepted settings still overflow in the rounding that follows (`ChunkSizes.LargestSettings`), and small ones
  can ask for more chunks than the loops count (`ChunkSizes.TooManyChunks`).
* `logprobs.py:46-48` promises list-like access. Slices that select nothing, and most slices with a negative
  step, do not behave like list slices (`Logprobs.SliceIff`, `Logprobs.BackwardsLosesRows`).
* `report_build_time_ninja.py:198-199` promises a summary of the given steps. If they all happen in one
  moment, the summary divides by zero (`BuildTime.OneInstant`).
* `comch_utils.c:132-136` accepts several clients. When one of them leaves, the channel forgets the others
  (`Comch.TwoClients`).
* `scalar_type.py:334` defines an exponent-only format whose maximum cannot be computed
  (`ScalarRange.ExponentOnlyRaises`).

## Model

| member | source | states |
|---|---|---|
| `Extents.PagesForLeast` | cacheflowv3/cacheflowv3/server/store.py:34-35 | The page count is the least one that holds the bytes; it is positive exactly for positive sizes and not negative exactly for sizes above minus one page |
| `Extents.FreshWf` | cacheflowv3/cacheflowv3/server/store.py:27-32 | A new pool is well-formed and all of its whole pages are free |
| `Extents.AllocIsLowestFit` | cacheflowv3/cacheflowv3/server/store.py:37-51 | Allocation fails exactly when no run of free pages is long enough, otherwise takes the lowest such run and only that; the free list stays sorted, coalesced and consistent with the used count |
| `Extents.AllocOfNothing` | cacheflowv3/cacheflowv3/server/store.py:37-51 | A size of zero or below is met by the first free extent, which grows downwards; it fails exactly when there is no free extent |
| `Extents.AllocKeepsIff` | cacheflowv3/cacheflowv3/server/store.py:37-51 | A size that is met keeps the pool well-formed and hands out no page twice if and only if it is above minus one page |
| `Extents.FreeGivesBack` | cacheflowv3/cacheflowv3/server/store.py:53-66 | Freeing a used run adds exactly its pages and re-coalesces with both neighbours |
| `Extents.AllFreeIsOneExtent` | cacheflowv3/cacheflowv3/server/store.py:53-66 | A pool that lists an extent and whose pages are all free is the fresh pool: one extent, nothing used |
| `Extents.FreeOfNothing` | cacheflowv3/cacheflowv3/server/store.py:53-66 | Freeing a size of no pages keeps the free list sound if and only if the place touches a free extent or the pool has no page; with pages it then changes nothing |
| `Extents.ExtentAllocator.constructor` | cacheflowv3/cacheflowv3/server/store.py:27-32 | The new allocator's start list and length table represent the fresh pool |
| `Extents.ExtentAllocator.Allocate` | cacheflowv3/cacheflowv3/server/store.py:37-51 | For every size, the sorted start list and the length table after an allocation represent the pool after `Alloc`, with its answer |
| `Extents.ExtentAllocator.Release` | cacheflowv3/cacheflowv3/server/store.py:53-66 | The same for freeing, no page included, with the bisection and both joins done on the list and table |
| `StoreInv.InitInv` | cacheflowv3/cacheflowv3/server/store.py:98-109 | A new store satisfies the store invariant |
| `StoreInv.UnpinKeeps` | cacheflowv3/cacheflowv3/server/store.py:213-225 | An unpin that is owed always finds a pin to take, on the current or a replaced version, and settles exactly that debt |
| `StoreInv.DropKeeps` | cacheflowv3/cacheflowv3/server/store.py:128-141 | Dropping an unpinned READY key gives its pages back and keeps the invariant |
| `StoreRuns.EvictKeeps` | cacheflowv3/cacheflowv3/server/store.py:131-141 | One eviction gives up only an unpinned READY entry; it fails only if every cached key is pinned |
| `StoreRuns.AllocateKeeps` | cacheflowv3/cacheflowv3/server/store.py:143-155 | For every size, allocation evicts only unpinned READY entries and then takes pages from what is left, with what is in use within the capacity; it fails only when all that is left is pinned and the request still does not fit by capacity or contiguity |
| `StoreRuns.SetCapacityKeeps` | cacheflowv3/cacheflowv3/server/store.py:157-161 | After a capacity change the store is within capacity or holds only pinned entries |
| `StoreCapacity.InitCapacity` | cacheflowv3/cacheflowv3/server/store.py:98-103 | A new store has the whole pages of the pool, nothing in use, and the capacity asked for, or the pool's if none, zero or more is asked for |
| `StoreCapacity.SetCapacityIs` | cacheflowv3/cacheflowv3/server/store.py:157-161 | The capacity becomes the number asked for, but not below zero or above the pool |
| `StoreCapacity.ShrinksFewest` | cacheflowv3/cacheflowv3/server/store.py:157-161 | A capacity change evicts the shortest run of unpinned keys, least recently used first, after which what is in use fits |
| `StoreRuns.FlushExact` | cacheflowv3/cacheflowv3/server/store.py:163-174 | A flush keeps exactly the pinned keys of the index |
| `StoreRuns.FlushEntries` | cacheflowv3/cacheflowv3/server/store.py:163-174 | A flush keeps exactly the entries that are pinned, being written or replaced |
| `StoreRuns.HitsIsLongestPrefix` | cacheflowv3/cacheflowv3/server/store.py:177-195 | The hit count is the longest prefix whose chunks are cached on every rank |
| `StoreRuns.LookupKeeps` | cacheflowv3/cacheflowv3/server/store.py:177-211 | Lookup, pinning or not, keeps the invariant; without a pin nothing changes but the order of use |
| `StoreRuns.ReleaseKeeps` | cacheflowv3/cacheflowv3/server/store.py:227-233 | Releasing removes exactly that lease and keeps the invariant |
| `StoreRuns.ExpireKeeps` | cacheflowv3/cacheflowv3/server/store.py:235-241 | Exactly the leases that are due disappear, and the others are untouched |
| `StoreRuns.AllocateForWriteKeeps` | cacheflowv3/cacheflowv3/server/store.py:244-273 | Write requests that grant no entry without a positive size keep the invariant and leave every pinned entry in place |
| `StoreRuns.CommitKeeps` | cacheflowv3/cacheflowv3/server/store.py:275-294 | Commit keeps the invariant and every pinned entry, the replaced versions included |
| `StoreRuns.AbortExact` | cacheflowv3/cacheflowv3/server/store.py:296-309 | Abort removes exactly the session's listed unfinished writes and their entries |
| `StoreUse.CommitExact` | cacheflowv3/cacheflowv3/server/store.py:275-294 | After a commit the index is the old one overridden by the session's listed writes, and exactly those writes are finished |
| `StoreUse.CommitThenLookup` | cacheflowv3/cacheflowv3/server/store.py:177-294 | A lookup after a commit finds a whole prefix if and only if every chunk was cached before on every rank or is published by the commit |
| `StoreAnswers.CommitRetires` | cacheflowv3/cacheflowv3/server/store.py:275-294 | A commit lists the pinned versions it replaces, and no other, behind those replaced before |
| `StoreUse.AllocateFailsIff` | cacheflowv3/cacheflowv3/server/store.py:143-155 | Allocation fails if and only if, after a flush, the least number of pages that holds the bytes would go beyond the capacity or is not free in a row |
| `StoreCapacity.GivesUpFewest` | cacheflowv3/cacheflowv3/server/store.py:143-155 | Allocation evicts the shortest run of unpinned keys, least recently used first, after which the request fits; if none does, it fails with all of them gone |
| `StoreCapacity.StepWithin` | cacheflowv3/cacheflowv3/server/store.py:131-310 | No request but a change of the capacity takes what is in use beyond it |
| `StoreCapacity.EveryRunWithinIff` | cacheflowv3/cacheflowv3/server/store.py:98-310 | After every followed run without such a change the store is within its capacity, if and only if it was not started with a negative one |
| `StoreUse.AllocateOneExact` | cacheflowv3/cacheflowv3/server/store.py:252-273 | The status of a write request is decided by what is cached, by what is being written and by the room after a flush; a new entry has the requested key, size and writer and, if the size is positive, lies in pages of its own |
| `StoreAnswers.AnswersInOrder` | cacheflowv3/cacheflowv3/server/store.py:244-273 | One status per key in the order of the keys, each as the store is after the keys before it |
| `StoreUse.NoneGrantedIff` | cacheflowv3/cacheflowv3/server/store.py:244-273 | A write request grants nothing if and only if there would be no room after a flush, or each key is cached or being written already |
| `StoreRecency.StepTimed` | cacheflowv3/cacheflowv3/server/store.py:98-309 | Every request keeps the eviction order equal to the order of last use |
| `StoreRecency.EvictsLeastRecent` | cacheflowv3/cacheflowv3/server/store.py:131-141 | In every reachable state eviction takes the unpinned chunk whose last use is longest ago |
| `StoreSteps.StepKeeps` | cacheflowv3/cacheflowv3/server/server.py:234-281 | Every dispatched request that grants no entry without a positive size keeps the invariant; requests that change no lease keep every pinned entry, its place and its pins |
| `StoreSteps.EveryRunBalances` | cacheflowv3/cacheflowv3/server/store.py:98-309 | After any run of such requests the entries and the free pages partition the pool, and for every key the pins equal the live leases that name it |
| `StoreSteps.NoLeasesNoPins` | cacheflowv3/cacheflowv3/server/store.py:213-241 | Without leases nothing is pinned and no replaced version is kept |
| `StoreSteps.DrainedStoreIsFresh` | cacheflowv3/cacheflowv3/server/store.py:163-174 | Flushing a store without leases and writers restores the fresh pool |
| `StoreSizes.GrantIff` | cacheflowv3/cacheflowv3/server/store.py:252-273 | A granted write leaves entries and free pages a partition of the pool if and only if its size is above minus one page |
| `StoreSizes.GiveBackEmptyIff` | cacheflowv3/cacheflowv3/server/store.py:53-66 | Giving back an entry without pages keeps the partition if and only if its place touches a free extent or the pool has no page |
| `StoreSizes.EnabledIff` | cacheflowv3/cacheflowv3/server/server.py:256-262 | Which write requests the runs follow: a positive size, no room after a flush, or nothing left to write |
| `StoreSizes.SafeIff` | cacheflowv3/cacheflowv3/server/server.py:256-262 | Entries and free pages partition the pool after a write request and whatever requests follow if and only if its size is positive, there would be no room after a flush, or each key is cached or being written already |
| `StoreSizes.NegativeWrite` | cacheflowv3/cacheflowv3/server/store.py:37-51 | A run in which a write of minus one byte makes the page of a leased entry free again |
| `StoreSizes.EmptyWrite` | cacheflowv3/cacheflowv3/server/store.py:53-66 | A run in which aborting a write of zero bytes breaks the free list |
| `Leases.QuietKeepsExact` | cacheflowv3/cacheflowv3/server/store.py:8-10 | Requests that change no lease keep every version a lease was granted, with exact pin counts per version |
| `Leases.LookupKeepsExact` | cacheflowv3/cacheflowv3/server/store.py:177-211 | A lookup grants exactly the versions it reports and counts each once |
| `Leases.LookupIs` | cacheflowv3/cacheflowv3/server/store.py:177-211 | A lookup hands out the entries of the found prefix, rank by rank in the order of the request, and leases exactly with a pin and a hit; then it pins each of them once and records their keys in the same order; beyond that only the order of use changes |
| `StoreAnswers.LookupFinds` | cacheflowv3/cacheflowv3/server/store.py:188-199 | The hit count is the longest prefix of which every chunk is cached on every rank |
| `StoreAnswers.LookupExact` | cacheflowv3/cacheflowv3/server/store.py:177-211 | The whole new state: the lease with its keys, expiry and owner under the next number, one pin for each time an entry is listed, and otherwise only a new order of use |
| `StoreAnswers.ReleaseExact` | cacheflowv3/cacheflowv3/server/store.py:213-233 | A release answers whether there was such a lease, and takes away that lease, pins, and replaced entries only |
| `Leases.ReleaseExactIff` | cacheflowv3/cacheflowv3/server/store.py:213-233 | A release keeps the per-version accounts exact if and only if each unpin picks the version that was granted |
| `Leases.PinStolen` | cacheflowv3/cacheflowv3/server/store.py:213-233 | Whenever a release unpins another version than it was granted, with no more pins than that, a flush frees an entry granted to another lease that lives on |
| `Leases.ReleaseProtectsIff` | cacheflowv3/cacheflowv3/server/store.py:8-10 | After a release a flush leaves every entry granted to the other leases if and only if each version unpinned is the granted one or has more pins than the lease names its key |
| `Leases.StolenPin` | cacheflowv3/cacheflowv3/server/store.py:213-225 | A reachable run in which the entry granted to a live lease is freed: rewrite of a leased key, second lease, release of the first, flush |
| `Expiry.UnpinAllIff` | cacheflowv3/cacheflowv3/server/store.py:213-225 | A version keeps a pin if and only if its key is unpinned less often than the pins of the versions taken before it and its own add up to |
| `Expiry.ExpireIff` | cacheflowv3/cacheflowv3/server/store.py:235-241 | The same over all leases that are due |
| `Expiry.ExpiryProtectsIff` | cacheflowv3/cacheflowv3/server/store.py:235-241 | After an expiry a flush leaves every entry granted to the remaining leases if and only if for each of them the leases that are due name its key less often than that |
| `DataPlane.StepNoRewrite` | cacheflowv3/cacheflowv3/server/server.py:256-262 | When writers skip existing chunks, no chunk is ever rewritten and no version is ever retired |
| `DataPlane.StepFairExact` | cacheflowv3/cacheflowv3/server/store.py:177-241 | Every request keeps the per-version accounts exact as long as each lease given up unpins the versions it was granted |
| `DataPlane.WriteElsewhere` | cacheflowv3/cacheflowv3/server/store.py:244-273 | A write into an entry being filled changes no page of a committed entry |
| `DataPlane.LeasedBytesStay` | cacheflowv3/cacheflowv3/server/store.py:8-10 | Over any run of requests and writes with leases given up so, rewrites of cached chunks included, what a lease reads stays the same while it lives |
| `DataPlane.EveryLeaseReadsCommitted` | cacheflowv3/cacheflowv3/server/store.py:177-211 | In every world such a run reaches each live lease reads the committed bytes of entries of its own keys |
| `DataPlane.SkippingIsFair` | cacheflowv3/cacheflowv3/server/server.py:256-262 | In every run whose writers skip existing chunks every lease is given up so |
| `DataPlane.SkippersKeepLeases` | cacheflowv3/cacheflowv3/server/store.py:8-10 | Hence from an empty store such runs change no byte behind a live lease, with no condition on releases |
| `PrefixStore.CacheStore.constructor` | cacheflowv3/cacheflowv3/server/store.py:98-109 | The new store object represents the initial state |
| `PrefixStore.CacheStore.EvictOne` | cacheflowv3/cacheflowv3/server/store.py:131-141 | The object after an eviction represents the state after it |
| `PrefixStore.CacheStore.Allocate` | cacheflowv3/cacheflowv3/server/store.py:147-155 | For every size the evict-and-retry loop computes the allocation function |
| `PrefixStore.CacheStore.SetCapacity` | cacheflowv3/cacheflowv3/server/store.py:157-161 | Clamping and shrinking loop compute the capacity change |
| `PrefixStore.CacheStore.Flush` | cacheflowv3/cacheflowv3/server/store.py:163-174 | The loop over the order computes the flush |
| `PrefixStore.CacheStore.Lookup` | cacheflowv3/cacheflowv3/server/store.py:177-211 | The prefix scan, touches, pins and new lease compute the lookup; the entries answered are those cached for the hit prefix in the order of the request, and there is a lease exactly with a pin and a hit |
| `PrefixStore.CacheStore.Unpin` | cacheflowv3/cacheflowv3/server/store.py:213-225 | Unpinning the current or the first pinned replaced version, freeing it at zero |
| `PrefixStore.CacheStore.Release` | cacheflowv3/cacheflowv3/server/store.py:227-233 | Removing a lease and unpinning its keys in order |
| `PrefixStore.CacheStore.ExpireLeases` | cacheflowv3/cacheflowv3/server/store.py:235-241 | Releasing every lease that is due, in order of issue, and returning how many leases went |
| `PrefixStore.CacheStore.AllocateForWrite` | cacheflowv3/cacheflowv3/server/store.py:244-273 | For every size, one status per key and the state after all of them |
| `PrefixStore.CacheStore.Commit` | cacheflowv3/cacheflowv3/server/store.py:275-294 | Replacing, retiring or freeing old versions while publishing the new ones; the count returned is how many writes were finished |
| `PrefixStore.CacheStore.Abort` | cacheflowv3/cacheflowv3/server/store.py:296-304 | Freeing the listed unfinished writes |
| `PrefixStore.CacheStore.DropSession` | cacheflowv3/cacheflowv3/server/store.py:306-309 | Aborting every unfinished write of a session |
| `Layout.LayerByLayer` | cacheflowv3/cacheflowv3/layout.py:64-98 | Cutting the plan every n copies gives, per layer, the copies of that layer in the order of the entries, between the entry and the place of the chunk among the chunks of that layer |
| `Layout.PlanMoves` | cacheflowv3/cacheflowv3/layout.py:57-61 | The plan posted by the worker and the plan posted by the server move the same bytes in the same order |
| `Layout.StoreLands` | cacheflowv3/cacheflowv3/layout.py:44-98 | Byte b of layer l of the chunk at position c, which the client keeps at base + l * room * S + c * S + b, arrives at l * S + b of its entry, whoever posts the copies |
| `Layout.LoadReads` | cacheflowv3/cacheflowv3/layout.py:44-98 | The same place in the client's staging region gets the byte at l * S + b of the entry, for any entries, repeated ones included |
| `Layout.RoundTrip` | cacheflowv3/cacheflowv3/layout.py:44-98 | Storing a chunk and loading its entry into any staging region, with any other chunks and any range of layers, gives back every byte of every layer both move, whoever posts the copies |
| `Layout.StoreSpares` | cacheflowv3/cacheflowv3/layout.py:44-98 | Storing changes no server byte outside the layers moved of the entries of the transfer |
| `Layout.LoadSpares` | cacheflowv3/cacheflowv3/layout.py:44-98 | Loading changes no client byte outside the layers moved of the chunks of the transfer |
| `Transfers.IntoIsWellformed` | cacheflowv3/cacheflowv3/server/store.py:244-273 | A transfer into entries a session was granted never writes one byte for two chunks |
| `Transfers.SendSpares` | cacheflowv3/cacheflowv3/layout.py:44-98 | The copies of such a transfer change no byte of any committed entry |
| `Transfers.CommittedBytesStay` | cacheflowv3/cacheflowv3/server/store.py:98-309 | Over every run of requests and transfers an entry committed at the beginning and there at the end is where it was and holds the same bytes |
| `Transfers.CommitSeals` | cacheflowv3/cacheflowv3/server/store.py:275-294 | A commit publishes the session's entry for a listed key, in place |
| `Transfers.EveryWorldIsGood` | cacheflowv3/cacheflowv3/server/store.py:37-51 | In every world that requests and transfers reach from an empty store the invariant holds and every entry begins with a page |
| `Transfers.FilledExact` | cacheflowv3/cacheflowv3/server/store.py:244-273 | Over every run during which a session fills an entry, each byte ends up as the last transfer covering it staged it, or as it was |
| `Transfers.SavedIsLoaded` | cacheflowv3/cacheflowv3/engine.py:365-500 | After any number of transfers among other requests, a commit and any run the entry survives, every byte any client loads from it is the one staged by the last transfer that covered it before the commit, or the byte already there when none did |
| `Transfers.StoredIsLoaded` | cacheflowv3/cacheflowv3/engine.py:383-487 | In a save of one transfer per layer, or any other cut, what a transfer staged for a byte of a layer is what any client loads, if no later transfer of the save covers that byte |
| `GraphPartition.TerminatesIff` | vllm/env_override.py:119-137 | The none-layout test ends on every buffer if and only if no renaming runs in a cycle |
| `GraphPartition.IsNoneIff` | vllm/env_override.py:119-137 | A buffer has no memory exactly when a chain of renamings of mutation outputs leads from it to a buffer without layout and further renaming |
| `GraphPartition.SignatureIff` | vllm/env_override.py:149-238 | Inputs, deallocation flags, outputs and constants of a signature, name by name, from what the nodes read, write, make and free; none exactly when an output has no node |
| `GraphPartition.HandedOnIff` | vllm/env_override.py:149-238 | In a well-formed schedule a partition returns exactly the buffers with memory that it makes and the graph or a later partition asks for, and those handed in that it does not free |
| `GraphPartition.RunsThroughIff` | vllm/env_override.py:139-240 | For partitions that define names once and touch them only between definition and release, running them with declared inputs and outputs finds every input, gives every node each buffer it reads or writes, and delivers every graph output, if and only if no partition frees a none-layout buffer made elsewhere, no use has a none-layout real name, and every name used without a node is a constant |
| `GraphPartition.DeallocationSuffices` | vllm/env_override.py:191-195 | Freeing only the inputs flagged for deallocation leaves what dropping all inputs but the returned ones would |
| `GraphPartition.FreedWithoutMemory` | vllm/env_override.py:172-184 | A legal schedule whose run fails: a none-layout buffer freed by a later partition becomes its input |
| `GraphPartition.SignOne` | vllm/env_override.py:149-238 | The per-partition computation gives the signature and the names still unmet before it; inputs and outputs are, name by name, what the nodes of the partition touch, free and make |
| `GraphPartition.GetSignatures` | vllm/env_override.py:139-240 | The backward pass gives every partition the signature determined by the names unmet after it; its inputs are exactly the buffers with a node that its own nodes touch or free and do not make |
| `BuildTime.SweepIsFair` | tools/report_build_time_ninja.py:230-256 | The sweep succeeds if and only if no step ends before it starts; then each step is charged the sum of its shares of every millisecond, between zero and its duration, nothing is left running, and the total is the number of busy milliseconds |
| `BuildTime.WeightBounds` | tools/report_build_time_ninja.py:74-89 | A weighted duration lies between zero and the elapsed time |
| `BuildTime.SortedIsSchedule` | tools/report_build_time_ninja.py:222-228 | Sorting the start and stop events gives a schedule: every event once, by time, starts before stops at equal times |
| `BuildTime.Span` | tools/report_build_time_ninja.py:207-220 | The earliest start and the latest end, and what the initial values do to them |
| `BuildTime.ChargeAll` | tools/report_build_time_ninja.py:198-256 | The sweep as a loop: fails exactly on no step or a step that ends early, else fair charges whose total is the busy time and at most the length |
| `BuildTime.Summarize` | tools/report_build_time_ninja.py:198-292 | The whole report: fails exactly on no step, a step that ends early or a length of zero, else fair charges whose total is the busy time and at most the length |
| `BuildTime.LengthIs` | tools/report_build_time_ninja.py:209-221 | The length the report divides by is the time from the first start to the last end |
| `BuildTime.NoLengthIff` | tools/report_build_time_ninja.py:283-292 | For steps logged at times from zero on, the length is zero if and only if all of them start and end in one moment |
| `BuildTime.OneInstant` | tools/report_build_time_ninja.py:283-292 | A single step that takes no time makes the report divide by zero |
| `ChunkSizes.BaseChunk` | csrc/cumem_allocator.cpp:24-42 | The configured chunk is a positive number of megabytes whatever the setting |
| `ChunkSizes.BaseChunkIs` | csrc/cumem_allocator.cpp:24-42 | The configured megabytes in bytes, or 256 MB exactly when unset, unparsable, zero or too many for 64 bits |
| `ChunkSizes.AlignUpIff` | csrc/cumem_allocator.cpp:300-327 | Rounding up in 64 bits is right if and only if the sum does not wrap, and gives zero otherwise |
| `ChunkSizes.ChunksTileIff` | csrc/cumem_allocator.cpp:328-350 | The chunk sizes are positive, aligned, all full but the last, and add up to the aligned size if and only if the chunk count does not wrap and fits the 32-bit loop counter; if it wraps there is no chunk |
| `ChunkSizes.PlanSoundIff` | csrc/cumem_allocator.cpp:300-350 | For every size, granularity and setting the plan covers the request, by less than a granule more, if and only if none of three sums wraps and there are fewer than 2^31 chunks; all chunks but the last have the configured size rounded up |
| `ChunkSizes.ChunkDivisionTrapsIff` | csrc/cumem_allocator.cpp:325-329 | The division by the chunk size traps if and only if the configured size plus the granularity wraps |
| `ChunkSizes.LargestSettings` | csrc/cumem_allocator.cpp:37-41 | Two accepted settings, one that traps and one that yields no chunk |
| `ChunkSizes.TooManyChunks` | csrc/cumem_allocator.cpp:328-335 | A request of 2^52 bytes in chunks of 2 MB wraps no sum and overflows the counter |
| `ChunkSizes.FillSizes` | csrc/cumem_allocator.cpp:328-350 | The loop with its 32-bit counter fills the array with the chunk sizes, or overflows exactly when there are 2^31 chunks or more |
| `Device.AddrApart` | csrc/cumem_allocator.cpp:141-160 | Chunk addresses follow each other without overlap |
| `Device.ChunksFill` | csrc/cumem_allocator.cpp:141-160 | Every address of the range from the base on is in exactly one chunk |
| `Device.CreateAllExact` | csrc/cumem_allocator.cpp:131-140 | The creation loop yields fresh handles one by one and stops at the first failing call |
| `Device.MapAllExact` | csrc/cumem_allocator.cpp:141-160 | The mapping loop maps exactly the chunks before the first failing call |
| `Cumem.MappingsExact` | csrc/cumem_allocator.cpp:141-160 | The table holds each mapped chunk behind those before it, with its own size and handle, and nothing else |
| `Device.ReleaseAllExact` | csrc/cumem_allocator.cpp:207-212 | Releasing attempts every handle, leaves exactly those whose call failed, and reports success exactly when none failed |
| `Device.UnmapAllExact` | csrc/cumem_allocator.cpp:196-205 | Unmapping finds every chunk at the address and size it was mapped with and leaves exactly those whose call failed |
| `Cumem.BuildExact` | csrc/cumem_allocator.cpp:131-171 | Every way create-and-map can end from a clean error code, with every handle and mapping it leaves |
| `Cumem.AllOrNothingIff` | csrc/cumem_allocator.cpp:131-171 | An unsuccessful call leaves nothing if and only if it failed in creation or mapping with no failing cleanup call, or, with the error code set before, the first creation was refused |
| `Cumem.AccessFailureLeaves` | csrc/cumem_allocator.cpp:162-171 | One chunk on an empty device whose access call fails: its handle and mapping stay |
| `CumemRuns.StickyRefuses` | csrc/cumem_allocator.cpp:281-519 | In every run of allocations, frees, sleeps and wakes, from the moment the error code is set every allocation is refused and takes nothing, until something sleeps or wakes |
| `CumemCode.CallSetsIff` | csrc/cumem_allocator.cpp:281-519 | From a clean code an allocation sets it if and only if a driver call fails on its way; a free if and only if a driver call fails, a chunk is not mapped, a handle not live, or the size named is not the one reserved |
| `CumemCode.TiedFreeSetsIff` | csrc/cumem_allocator.cpp:411-519 | While holdings are accounted for, a free sets the code if and only if a driver call fails, the size named is not the aligned one, or the allocation sleeps |
| `CumemCode.CodeSetIff` | csrc/cumem_allocator.cpp:281-709 | From a clean code, the code is set after a run if and only if an allocation or a free failed in that way and nothing slept or woke since |
| `CumemRuns.SleepForgets` | csrc/cumem_allocator.cpp:636-640 | A run in which an allocation is refused and, after an unrelated sleep, granted |
| `CumemRuns.RefusedLeavesIff` | csrc/cumem_allocator.cpp:303-380 | Without driver failures an allocation is refused exactly when the error code is set or the callback does not accept it, and in the second case the address range stays reserved |
| `CumemRuns.FailedMallocIff` | csrc/cumem_allocator.cpp:384-406 | When creating or mapping fails the allocation leaves nothing behind if and only if the rollback was complete and the range could be given back |
| `CumemRuns.MallocTied` | csrc/cumem_allocator.cpp:281-409 | Without failures an allocation is granted, maps every chunk with a live handle of its own, and changes nothing else |
| `CumemRuns.DoKeeps` | csrc/cumem_allocator.cpp:95-220 | Sleeping and waking keep handles and chunks matched one to one and leave others' holdings alone |
| `CumemRuns.RunKeeps` | csrc/cumem_allocator.cpp:95-220 | The same after every step of every run, with others changing their own holdings in between |
| `CumemRuns.FreeExact` | csrc/cumem_allocator.cpp:411-519 | Freeing takes away exactly this allocation's handles and mappings; the range goes if and only if the aligned size is named, and freeing while asleep sets the error code |
| `CumemRuns.LifeCycle` | csrc/cumem_allocator.cpp:281-519 | Allocate, any run, free with the requested size: nothing of it remains if and only if the size is a multiple of the granularity |
| `CumemRuns.OneByteStays` | csrc/cumem_allocator.cpp:411-519 | One byte allocated and freed as one byte leaves a range of 2 MB reserved |
| `CumemAllocator.Allocator.CreateAndMap` | csrc/cumem_allocator.cpp:95-175 | The loops over the handle slots compute create-and-map, rollback included |
| `CumemAllocator.Allocator.UnmapAndRelease` | csrc/cumem_allocator.cpp:177-220 | The two loops attempt every call and set the error code if any failed |
| `CumemAllocator.Allocator.PutToSleep` | csrc/cumem_allocator.cpp:547-642 | Sleeping from Python raises exactly when the code is set at the end, and clears it |
| `CumemAllocator.Allocator.WakeUp` | csrc/cumem_allocator.cpp:645-709 | Waking does the same, and the slots hold the new handles |
| `CumemAllocator.Allocator.Malloc` | csrc/cumem_allocator.cpp:281-409 | The allocation method computes the allocation function |
| `CumemAllocator.Allocator.Free` | csrc/cumem_allocator.cpp:411-519 | The free method computes the free function |
| `BadWords.Processor.constructor` | vllm/logits_process.py:52-54 | No bias is cached at first |
| `BadWords.Processor.InitWordBias` | vllm/logits_process.py:89-104 | The bias is cached exactly when all token ids are in the vocabulary and masks exactly the one-token words |
| `BadWords.Processor.Call` | vllm/logits_process.py:56-87 | With a bias made for these logits a token is masked exactly when it would make the text end in a bad word, all other logits are unchanged, and malformed words raise the right error; with a bias kept from another number of logits, exactly which calls raise and what the others return |
| `BadWords.AnswersForSame` | vllm/logits_process.py:56-87 | The answer of summing logits and both biases, written for a bias of any length, is the masking of completing tokens when the lengths agree |
| `BadWords.CheckTokenIds` | vllm/logits_process.py:106-121 | Accepts exactly the words whose tokens are all in the vocabulary |
| `BadWords.AllowedIff` | vllm/logits_process.py:56-87 | The generations that pick only unmasked tokens are exactly those with no bad word anywhere and no token the model ruled out |
| `Logprobs.LastWins` | vllm/logprobs.py:110-120 | Among rows of one token the last decides what a dictionary holds |
| `Logprobs.FirstDecidesPlace` | vllm/logprobs.py:110-120 | A dictionary read back is in the order in which its tokens first appear |
| `Logprobs.DictOfUnique` | vllm/logprobs.py:110-120 | Rows without repeated tokens read back unchanged and in order |
| `Logprobs.AppendReads` | vllm/logprobs.py:63-73 | Appending adds one dictionary to the contents and keeps index ranges ordered and in bounds |
| `Logprobs.ReadIs` | vllm/logprobs.py:110-120 | Reading a position is list indexing of the contents, negative and out-of-range indices included |
| `Logprobs.PositionsIff` | vllm/logprobs.py:121-133 | Which positions a slice selects, with bounds counted from the end, left out or outside the list, for both directions |
| `Logprobs.SliceIff` | vllm/logprobs.py:121-133 | A slice reads as the list's slice if and only if it selects something and goes forward, or selects one position, or selects only empty ones; forward slices are valid again |
| `Logprobs.BackwardsLosesRows` | vllm/logprobs.py:121-133 | Two positions of one row each, sliced backwards, keep no row, and reading the first one raises |
| `Logprobs.OpRefines` | vllm/logprobs.py:63-206 | Each operation on the flat container is that operation on the list of dictionaries |
| `Logprobs.NextRowsExact` | vllm/logprobs.py:175-206 | The rows of the next position, one by one, and how many there are |
| `Logprobs.RunRefines` | vllm/logprobs.py:63-206 | So is every run of appends, fast appends, extensions, self-extensions and forward slices |
| `FlatLogprobs.Container.Append` | vllm/logprobs.py:63-73 | The six lists grow by one position |
| `FlatLogprobs.Container.AppendFast` | vllm/logprobs.py:75-93 | The same from columns, stopping at the shortest |
| `FlatLogprobs.Container.NextPosition` | vllm/logprobs.py:175-206 | The rows appended, position by position: the sampled token with its rank, then the others ranked one, two and so on, as many as asked for and as the shortest column has |
| `FlatLogprobs.Container.Extend` | vllm/logprobs.py:95-98 | Positions are appended in order |
| `Logprobs.SelfExtends` | vllm/logprobs.py:95-98 | Reading a valid container while its own positions are appended gives its former contents twice |
| `FlatLogprobs.Container.ExtendSelf` | vllm/logprobs.py:95-98 | Extending a container by itself, position by position; a valid one gets exactly its former contents appended, and another may raise |
| `FlatLogprobs.Container.GetItem` | vllm/logprobs.py:110-120 | The loop reads the position, or raises where the code does |
| `FlatLogprobs.Container.GetSlice` | vllm/logprobs.py:121-133 | For every container, the new one holds the shifted ranges and the cut rows; selecting nothing raises |
| `ScalarIds.RoundTripIff` | vllm/scalar_type.py:136-164 | An id is undone by shift and mask if and only if every field fits its width, and always fits 58 bits |
| `ScalarIds.IdsDistinct` | vllm/scalar_type.py:136-164 | Types whose fields fit have different ids unless they are equal |
| `ScalarIds.SameIdIff` | vllm/scalar_type.py:136-164 | Two types share an id if and only if their fields agree in the bits kept |
| `ScalarIds.IdIs` | vllm/scalar_type.py:136-164 | The id as a sum: each field at its bit offset, reduced to its width |
| `ScalarIds.ExponentWraps` | vllm/scalar_type.py:136-164 | Every type that fits shares its id with the one that has 256 more exponent bits |
| `ScalarIds.BuildId` | vllm/scalar_type.py:136-164 | Or-ing the masked, shifted fields in order gives the id |
| `ScalarIds.TypeRegistry.Register` | vllm/scalar_type.py:162-164 | Registering adds the type under its id |
| `ScalarIds.FromIdReturns` | vllm/scalar_type.py:308-312 | After any registrations of types that fit, each id leads back to its own type |
| `ScalarIds.FromIdRefuses` | vllm/scalar_type.py:308-312 | An id is refused exactly when no registered type has it |
| `ScalarRange.MaxRightIff` | vllm/scalar_type.py:71-105 | With at most 52 mantissa and 11 exponent bits, or 10 without the IEEE encoding, the built double is the greatest finite value of the format if and only if the extended-range encoding has a mantissa bit and the IEEE encoding at least two exponent bits |
| `ScalarRange.MaxRaisesIff` | vllm/scalar_type.py:71-105 | Computing the maximum raises exactly beyond the asserted widths or for an extended-range format without mantissa |
| `ScalarRange.MinIsNegation` | vllm/scalar_type.py:116-125 | The minimum is there exactly for signed formats that have a maximum, and is its exact negation |
| `ScalarRange.ExponentOnlyRaises` | vllm/scalar_type.py:334 | The maximum of the exponent-only format raises |
| `Outputs.StreamExact` | vllm/outputs.py:148-176 | Folding a stream gives one completion per index in order of first appearance with texts, tokens and logprobs joined; it raises exactly when a part brings logprobs to a completion that started without |
| `Outputs.NewestStays` | vllm/outputs.py:148-176 | Without aggregation a stream leaves the newest completion of each index in order of first appearance |
| `Outputs.Regroup` | vllm/outputs.py:148-176 | Merging two merged streams is merging them part by part, errors included, whenever each of the two can be merged alone |
| `Outputs.GroupingIff` | vllm/outputs.py:148-176 | Merging a stream in groups that are merged first gives what the whole stream gives if and only if every group can be merged alone or the whole stream cannot |
| `Outputs.GroupingMatters` | vllm/outputs.py:164-168 | A stream the code accepts whole and refuses in two groups |
| `Outputs.GroupingIsIrrelevant` | vllm/outputs.py:148-176 | When completions of an index agree on carrying logprobs every grouping gives the joined completions |
| `RequestOutputs.CompletionOutput.Absorb` | vllm/outputs.py:158-172 | Extending a completion in place by the next part, itself included |
| `RequestOutputs.RequestOutput.Take` | vllm/outputs.py:154-176 | One completion is merged into or placed over the first with its index, or kept as the same object; no other object changes |
| `RequestOutputs.RequestOutput.Add` | vllm/outputs.py:148-176 | The nested loops compute the merge object by object, whatever completions the two outputs share; without sharing it is the merge of the values |
| `RequestOutputs.UnsharedExact` | vllm/outputs.py:148-176 | Merging object by object without sharing is the merge of the values, and all outputs stay different objects |
| `RequestOutputs.SelfMergeDoubles` | vllm/outputs.py:148-176 | An output with one completion per index, merged into itself, repeats each of them |
| `DpChunks.ChunkTiles` | vllm/forward_context.py:71-87 | Sizes lie in 1 to the maximum, active chunks are exactly those that begin before the tokens end, and each ends where the next begins |
| `DpChunks.TotalIs` | vllm/forward_context.py:71-87 | Over enough chunks a rank processes its tokens and one more per chunk after it is done |
| `DpChunks.ChunkSizes` | vllm/forward_context.py:71-87 | The loop fills the sizes of all shards |
| `DpChunks.CumulativeTokens` | vllm/forward_context.py:179-184 | The running totals are those of the same shard sizes |
| `DpChunks.ShardsCover` | vllm/forward_context.py:61-69 | The shards hold every token and less than one shard-width of padding per rank |
| `IndexRanges.FindRanges` | vllm/model_inspection.py:44-58 | The loop finds maximal ranges that spell out the list |
| `IndexRanges.RangesUnique` | vllm/model_inspection.py:44-58 | A list has only one list of maximal ranges |
| `IndexRanges.ParsePrint` | vllm/model_inspection.py:53-58 | The print of ranges of natural numbers reads back as those ranges |
| `IndexRanges.DashIff` | vllm/model_inspection.py:53-58 | A range of one number is printed without a dash, a longer one with one |
| `IndexRanges.StrCanonical` | vllm/model_inspection.py:53-58 | Numbers are printed in digits with no zero in front |
| `IndexRanges.FormatIndexRanges` | vllm/model_inspection.py:44-58 | The whole printer, the empty list included |
| `Comch.RunConserves` | DOCA_Backend/common/comch_utils.c:67-252 | Over every interleaving of sends, failures and completions tasks are free or in flight, none lost and none freed twice |
| `Comch.AgainIff` | DOCA_Backend/common/comch_utils.c:212-252 | The caller is told to retry exactly when every task is in flight, the message is acceptable and the library reports no other error |
| `Comch.SendAnswers` | DOCA_Backend/common/comch_utils.c:212-252 | Which answer stands for an unknown connection, a message too long and an error of the library |
| `Comch.AliveIff` | DOCA_Backend/common/comch_utils.c:105-185 | The active connection stays a connected one unless its own disconnection fails its lookup |
| `Comch.LastDecides` | DOCA_Backend/common/comch_utils.c:105-185 | The active connection is the last one recorded, or none if a disconnection was noticed after it |
| `Comch.LastConnects` | DOCA_Backend/common/comch_utils.c:105-185 | Connected are those whose last event was a successful connection |
| `Comch.RunStaysAlive` | DOCA_Backend/common/comch_utils.c:105-185 | In every run whose lookups succeed an active connection is connected |
| `Comch.ToldIff` | DOCA_Backend/common/comch_utils.c:105-185 | An event keeps "none active exactly when none connected" if and only if a successful connection is recorded or not the first, a noticed disconnection is the last and an unnoticed one is not |
| `Comch.RunToldIff` | DOCA_Backend/common/comch_utils.c:105-185 | Over a whole run every state has that property if and only if every event is of that kind |
| `Comch.SingleClient` | DOCA_Backend/common/comch_utils.c:105-185 | With one client none is active exactly when none is connected |
| `Comch.TwoClients` | DOCA_Backend/common/comch_utils.c:158-185 | With two clients the one that stays is forgotten when the other leaves |
| `Comch.Channel.SendMessage` | DOCA_Backend/common/comch_utils.c:212-252 | Retry exactly when all tasks are in flight; an unknown connection and a message too long have their own answers; success puts exactly one free task in flight, and any failure leaves every task where it was |
| `Comch.Channel.OnCompletion` | DOCA_Backend/common/comch_utils.c:67-96 | Either completion makes its task free again and keeps every task accounted for |
| `Comch.Channel.OnConnection` | DOCA_Backend/common/comch_utils.c:105-149 | The active connection stays a connected one, and none is active exactly when none is connected under the condition of `ToldIff` |
| `Comch.Channel.OnDisconnection` | DOCA_Backend/common/comch_utils.c:158-185 | The active connection stays a connected one exactly when the lookup succeeds or another one left |

## Left out

- Store: statistics counters and snapshots; the key text "hash:rank" is a pair; object identity is an explicit number; the clock is a parameter of lookup and expiry.
- Store: what happens after an entry was granted without a positive size; from there the source's list and table can disagree and requests can raise.
- Extents.AllocIsLowestFit: requires a positive size; `Extents.AllocOfNothing` covers the others.
- Extents.ExtentAllocator.Release: requires free extents in order that do not overlap, and that a run of less than no page does not start where an extent is listed; there list and table come apart.
- StoreSizes.SafeIff: requires a pool of at least one page.
- StoreSteps.DrainedStoreIsFresh: requires a page or a listed extent, like `Extents.AllFreeIsOneExtent`; a pool of no page may list none.
- Extents.ExtentAllocator.Allocate: requires free extents in order that do not overlap, as every call leaves them up to such a grant.
- StoreRuns.AllocateForWriteKeeps: requires a positive size or that no entry is granted; `StoreSizes.SafeIff` says that nothing weaker would do.
- Server, connector, engine, staging, RDMA and wire protocol of cacheflowv3: networking, threads and GPU work. RDMA writes appear as steps of `DataPlane`, one page at a time, and whole transfers as steps of `Transfers`.
- DataPlane and Transfers: assume that a client writes only into entries its session was granted and is still filling. The server itself only checks that addresses lie in the pool.
- Layout: 64-bit wrap-around of addresses and the access keys; chunk hashing is left to the hash function.
- GraphPartition: ordered sets are sets; symbol inputs and the CUDA-graph skip flag of a signature, the order of nodes within a partition, and the memory-planning patch in the same file.
- BuildTime: reading the log, classifying targets by extension and printing; times are whole milliseconds, and rounding of floats is not modelled.
- Cumem: the CUDA path without chunks, host memory for handle arrays, what follows a division by zero or a counter overflow, and several driver calls of one context check, which are one call here.
- CumemCode.CallSetsIff: requires positive chunk sizes, as every sound plan has them.
- BadWords: tokenizing words into ids, not-a-number and plus-infinity logits, and logits of more than one dimension.
- Logprobs: an absent dictionary of the list form counts as an empty one.
- ScalarRange: the finite-values flag, which the code does not read there, and the limits of integer types.
- Outputs: prompt fields, LoRA requests and routed experts, which merging does not touch.
- RequestOutputs: two completions or outputs that share one Python list.
- DpChunks: the context managers that set and clear the sizes.
- Comch.AgainIff: assumes that the library reports no memory exactly when all its tasks are in flight.
- Comch: message reception and teardown; the library's task pool is modelled from the code's comments on it, and its other errors are one failure.
- Kernels, operator wrappers, build scripts, benchmarks, environment and logging modules, and the rest of vLLM.
