# MemTier: a verified model of its two read runtimes

MemTier serves bytes from tiers of memory. This project models its two hand-written stateful cores
in Dafny and proves that each does what a much simpler description says.

**The read runtime** cuts a byte range at chunk boundaries and serves each piece from an LRU chunk
cache, from GDS or from a file read, caching chunks as it goes; it also coalesces vector reads,
prefetches, and runs queued requests on worker threads.

**The block runtime** moves blocks of an embedding file through a DRAM slot cache into an HBM slot
cache. Copies to HBM are asynchronous and only waited for at the end of a batch. An embedding-bag
kernel reads the blocks.

## The main results

- A read is a slice of the file, whatever the cache holds and the options say; on a device that
  does not fail it succeeds exactly when the range lies in the file, and an IO error leaves exactly
  the prefix up to the last chunk boundary the file reaches (`DoRead`).
- That holds in every interleaving of workers, callers and prefetches, with lookup, fetch and
  insertion as separate steps, even when reads race to insert one chunk: an IO error leaves the prefix
  and nothing else of the buffer changed, and on a device that does not fail equal requests leave the
  same status and buffer in all of them (`AnyInterleaving`, `ScheduleIndependent`). Each request is
  in one place, is taken once, keeps its result, and `memtier_finalize` drains (`OnePlace`,
  `ResultsAreFinal`, `FinalizeDrains`); a request submitted even after the stop is served exactly when
  some worker has not left by then (`SubmissionServedIff`).
- The chunk cache never holds more bytes than its limit; as long as no present key is inserted again
  it is exactly the floor(limit / chunk) most recently used chunks (`BytesBounded`,
  `TableIsMostRecent`). Calls made one after the other can overwrite a present key exactly when the
  cache is bypassed, POSIX forced, admission on and there is room for two chunks
  (`SerialOverwritesIff`); overlapping calls can exactly when there is room for two chunks
  (`RaceOverwritesIff`). Each overwrite costs one chunk of capacity for good (`LeakShrinksCapacity`).
- A read whose chunks are all cached, with the cache not bypassed, succeeds without the device and
  touches no file (`DoRead`). So reading a range again is free if its chunks fit the cache, and costs
  every chunk again if they do not (`ReadTwice`). A read after a prefetch of its range is served
  wholly from DRAM exactly when the range fits and the prefetch pushed out none of the range's own
  chunks (`PrefetchThenRead`); it can push them out (`PrefetchCanEvictItsOwnRange`).
- Each path is selected exactly when the options, the cache and the piece's place and size say so
  (`PathIff`), and is booked as a hit, a miss, a GDS read or a fallback according to which it is
  (`ServePiece`, `DoRead`, `Readv`, `StepBooks`), but for the one a failed read ends with and, while
  reads overlap, those still under way (`CountersBalance`).
- `memtier_readv` is as many independent reads, and its greedy grouping uses the fewest groups
  possible (`Readv`, `GreedyIsMinimal`).
- The tier that serves each block, over any history of lookups, is that of a two-level simulation: HBM
  holds the last blocks it admitted, and DRAM is an LRU cache of the lookups that miss HBM
  (`LookupBlocks`, `TierMeaning`). DRAM's hits are those of the repository's own trace analyser
  (`DramHitsAreSimulated`).
- Let n be the number of lookups of a batch that miss HBM. Every schedule of asynchronous copies ends
  with the right contents in HBM if and only if min(n, HBM capacity) <= DRAM capacity
  (`CopiesSafeIff`; `UnsafeBatch` is a batch that is not safe). When the distinct blocks that miss HBM
  fit in DRAM, no source slot is reused while a copy from it may be in flight (`SourceStays`).
- All pointers a batch returns are good if and only if after no position the batch brings in enough
  blocks to push that position's block out (`AllPointersGoodIff`, with `BadPointer`); then the kernels
  compute the direct embedding bag over the row-major table (`LookedUpIsResident`, `Launch`,
  `BlockedIsDirect`), for the element sizes 2 and 4 and no others (`KernelsReadTableIff`). Ids whose
  block was not looked up add nothing, but count in a mean (`UnlistedSkipped`).

## How the source is modelled

Classes with fields, loops with invariants and caller buffers as arrays stand for the source's own
(`CacheDirectory`, `Context`, `DramCache`, `HbmCache`, `Table`, `Handle`, `LruSims`). Each method is
tied to a function on values (`Cache`, `Slots`, `Tiers`), and the laws are proved about those.
Threads and the copy engine are state machines whose actions are single locked sections
(`Requests`, `ReadJobs`) or single landings (`CopyCoherence`); the block runtime's methods take the
landing schedule as a parameter and are proved to follow the machine for every schedule.

| file | what it holds |
|---|---|
| Recency, FifoRounds | LRU and FIFO as mathematics: stack inclusion, reuse distance, last admissions; runs with repeated keys |
| TraceSimulation | the trace analyser's LRU simulation |
| Storage | files, `pread`, the buffered read |
| ChunkCache, CacheDirectory | the chunk cache as a value and as a class |
| PathSelector | options and the path decision |
| ChunkMath, Coherence | cutting ranges at chunks; what cached chunks must hold |
| ReadRuntime, Locality | reads and prefetches; what the cache is worth |
| Coalescing, VectorRead | grouping; the vector read |
| ReadJobs, Requests, RequestCounters | one read in atomic steps; the worker pool; its counters |
| Overwriting | when an insertion can overwrite a present key |
| SlotCache, BlockCaches | slot allocation; the DRAM and HBM caches |
| BlockFile, ResidencyTable | the embedding file; the residency table |
| CopyCoherence, BlockRuntime | late copies; the lookup loop |
| EmbeddingBag | the kernels |

Assumptions, each one a choice of the model:

- Files do not change during a run. A `pread` returns an error or any non-empty prefix of what is
  available; `reliable` says that it never fails. A call interrupted by a signal is simply retried.
- A path stands for the canonical name it resolves to, numbered in the order names compare; the hash
  of the name that keys the cache is taken to be injective.
- Offsets and counters do not overflow 64 bits (nor reference counts 32). Chunk and block sizes are
  positive, as the initialisers see to.
- Destination buffers of a vector read are distinct arrays, disjoint from each other.
- GDS returns OK only for a full read, as in src/gds_backend.cpp:57-61; `gdsSound` says that it never
  fails one it can do. A GPU destination behaves as
  memory that is copied to, and `cudaAvailable` says whether there is one.
- No block id is the all-ones value that stands for "nothing evicted". CUDA calls of the block runtime
  succeed. A pointer into a cache's memory is the number of its slot.
- A list iterator kept in a cache entry is the identity of its list node (`ListNode`), because a chunk
  inserted twice owns two nodes; in the slot caches a block has one node, so its id is enough.
- A read under way gives up the cache only between steps; a load writes its slot with bytes that are
  arbitrary until it is complete, and that may change between the copies that land meanwhile.
- The context outlives its requests: what `memtier_read_async` does to one that is already deleted is
  not modelled.

Where the code and its documentation differ, the model follows the code: the HBM cache is called a
simple LRU buffer (memtier_embedding_bench/README.md:359), but a hit found through the residency table
does not refresh it, so it evicts in order of insertion. `HbmIsNotLru` is a history on which the two
differ, and `FifoIsLruIff` says when they do not: exactly when every hit is of the newest block.

## Model

| member | source | states |
|---|---|---|
| Recency.LruIsRecentPrefix | memtier_embedding_bench/scripts/analyze_trace.py:57-64 | at any capacity the LRU cache is the newest part of the unbounded recency order of the trace |
| Recency.StackInclusion | memtier_embedding_bench/scripts/analyze_trace.py:57-64 | for capacities c1 <= c2 the cache of c1 is always the most recent part of that of c2 |
| Recency.MissesAntitone | memtier_embedding_bench/scripts/analyze_trace.py:57-64 | a larger capacity never misses more, from any start |
| Recency.HitIffReuseDistance | memtier_embedding_bench/scripts/analyze_trace.py:58-64 | a key is cached iff it was used before and fewer than c distinct others were used since |
| Recency.FewKeysStay | memtier_embedding_bench/src/dram_cache.cpp:96-123 | a run over at most c distinct keys, however often each, leaves them all cached |
| Recency.FifoIsLastAdmitted | memtier_embedding_bench/src/memtier_api.cpp:63-90 | inserting only absent keys keeps the last c keys inserted, whatever hits came between |
| Recency.FifoKeepsAllIff | src/api.cpp:126 | a run over at most c distinct keys that skips present ones ends with all cached iff none is pushed out after being found cached |
| Recency.FifoIsLruIff | memtier_embedding_bench/src/memtier_api.cpp:163-171 | the list in insertion order is the list in recency order, all along a trace, exactly when every hit is of the newest key |
| FifoRounds.AllRoundsIffAllStay | memtier_embedding_bench/src/memtier_api.cpp:63-90 | every access of a run, repeated keys or not, finds its key at the end a whole number of rounds of insertions later exactly when none is pushed out after its access |
| TraceSimulation.SimRunIsLru | memtier_embedding_bench/scripts/analyze_trace.py:57-64 | the dictionary of one capacity is the LRU run, never above capacity, and hits plus misses make the trace |
| TraceSimulation.LargerHitsMore | memtier_embedding_bench/scripts/analyze_trace.py:52-65 | the smaller simulated cache is the newest part of the larger, and hits[c1] <= hits[c2] |
| TraceSimulation.HitIffNear | memtier_embedding_bench/scripts/analyze_trace.py:58-61 | the next access counts a hit iff fewer than cap distinct others came since its last use |
| TraceSimulation.LruSims.Update | memtier_embedding_bench/scripts/analyze_trace.py:52-65 | one pass leaves every capacity with its own LRU run and hit count, and returns the trace's length |
| TraceSimulation.LruSims.AccessAll | memtier_embedding_bench/scripts/analyze_trace.py:57-64 | one block, every capacity: each simulation takes its own step |
| TraceSimulation.LruSims.Access | memtier_embedding_bench/scripts/analyze_trace.py:58-64 | one block at one capacity; the others are untouched |
| Storage.PreadFull | src/posix_backend.cpp:9-31 | short reads are continued and end of file clips: OK delivers exactly the available bytes and nothing else changes; on a sound device it fails iff the file is missing |
| ChunkCache.TouchLinked | src/cache_directory.cpp:8-14 | a refresh keeps every table entry on a live list node and the table's size |
| ChunkCache.InsertValid | src/cache_directory.cpp:25-50 | an insertion, of a present key too, keeps every entry on a live node and the byte books balanced, counting one leaked chunk per overwritten key |
| ChunkCache.MakeRoomValid | src/cache_directory.cpp:29-38 | the eviction loop ends with room for a chunk or an empty table, with the books balanced |
| ChunkCache.BytesBounded | src/cache_directory.cpp:25-50 | after any operations, chunks held times chunk size is within cache_size_bytes, and used_bytes_ is that plus one chunk per overwriting insertion |
| ChunkCache.LeakShrinksCapacity | src/cache_directory.cpp:29-48 | each overwriting insertion costs one chunk of capacity for good, down to a single chunk |
| ChunkCache.SmallNeverOverwrites | src/cache_directory.cpp:29-48 | with room for one chunk only, an insertion overwrites nothing: the old copy is evicted first |
| CacheDirectory.CacheDirectory.Touch | src/cache_directory.cpp:8-14 | the key's node moves to the front with a new tick; nothing else moves |
| CacheDirectory.TouchIsLru | src/cache_directory.cpp:8-14 | without overwrites a refresh is one LRU step of the list |
| CacheDirectory.CacheDirectory.Lookup | src/cache_directory.cpp:16-23 | finds exactly the table's keys, returns the refreshed entry, and is one LRU step on the list until a key has been overwritten |
| CacheDirectory.CacheDirectory.Insert | src/cache_directory.cpp:25-50 | admits exactly when sizes allow, and is one LRU step at capacity floor(limit / chunk) as long as no key has been overwritten |
| CacheDirectory.CacheDirectory.MakeRoom | src/cache_directory.cpp:29-38 | the eviction loop reaches the specified state |
| CacheDirectory.CacheDirectory.Contains | src/cache_directory.cpp:53-56 | membership, without refreshing |
| CacheDirectory.TightKeys | src/cache_directory.cpp:8-50 | without overwrites the list is a duplicate-free permutation of the table's keys |
| CacheDirectory.TightByLastAccess | src/cache_directory.cpp:12-46 | and runs strictly from the latest access to the earliest |
| PathSelector.PathIff | src/path_selector.cpp:7-30 | for each of the five paths, the exact requests and options under which it is taken: GDS by hints or by size and alignment, the GDS fallback only when forced, plain POSIX only when the cache is bypassed or off |
| PathSelector.GdsReadIsAligned | src/path_selector.cpp:7-27 | without streaming, checkpoint or sequential hints, what is selected for GDS meets the backend's own tests (src/gds_backend.cpp:49-51), so it is never refused there for its size or place |
| PathSelector.CachedOnlyIff | src/path_selector.cpp:7-30 | the exact options under which every piece of every read, at most a chunk long, is served from the cache or read into it and admitted; GDS may be on if it takes no piece |
| PathSelector.ReinsertsIffBypassForced | src/path_selector.cpp:15-30 | a request that could be served from the cache is sent to read-then-cache and admitted exactly with bypass_cache, force_posix and cache_admit all set |
| ChunkMath.Locate | src/api.cpp:34-35 | quotient and remainder locate a byte in its chunk |
| ChunkMath.CutNext | src/api.cpp:33-68 | the i-th piece of the loop lies in the i-th chunk of the range and ends where the next begins, or at the end |
| ChunkMath.FailsAtServed | src/api.cpp:59-63 | the first piece the file cannot serve starts at the last chunk boundary within the file, or at the start of the range |
| Coherence.InsertCoherent | src/cache_directory.cpp:25-50 | inserting a chunk's true bytes keeps every entry equal to its chunk, clipped to min(chunk, length - base) |
| Coherence.LookupCoherent | src/cache_directory.cpp:16-23 | so does a lookup |
| Coherence.PresentIsWhole | src/api.cpp:38 | a cached chunk has all the bytes a fresh read would give |
| ReadRuntime.ReadCostsItsMisses | src/api.cpp:50-67 | a cached read costs one chunk read and its bytes per LRU miss and counts one hit for every other chunk |
| ReadRuntime.Context.OnSelected | src/api.cpp:19-24 | exactly one selection counter moves, GDS paths, plain POSIX and cache paths apart, and the last path is kept |
| ReadRuntime.Context.GdsRead | src/gds_backend.cpp:49-62 | OK only with GDS on, the request aligned and the full bytes of the file delivered, and always then with a sound driver; unsupported iff GDS is off |
| ReadRuntime.Context.ServeGds | src/api.cpp:53-56 | GDS, or a buffered read where it refuses; delivers the piece or fails, and books exactly a GDS read, or a fallback, one file read and its bytes |
| ReadRuntime.Context.ServePosix | src/api.cpp:57-67 | delivers the piece or fails; on the caching path reads the whole chunk and admits its true bytes; books exactly one miss, one file read and the bytes read |
| ReadRuntime.Context.OnHit | src/api.cpp:50-52 | a hit delivers the file's bytes without reading and books exactly one hit and the bytes served |
| ReadRuntime.Context.Choose | src/api.cpp:36-40 | the path selected is that of the piece's place, size and whether a cached entry covers it, and is the one counted; a cached piece of the file is a DRAM hit whenever the cache is not bypassed; a hit's entry agrees with the file and covers the piece; a read-then-cache of a chunk means it is absent or short, unless bypass forces it |
| ReadRuntime.Context.ServePiece | src/api.cpp:36-67 | one turn of the loop: the piece's exact bytes, one selection, and the outcome of the path selected and no other; a cached piece, cache not bypassed, succeeds with one hit and no file read, and a piece of an absent chunk is no hit |
| ReadRuntime.Context.DoRead | src/api.cpp:26-71 | a plain file read: OK iff the range lies in the file (on a sound device), output equal to the slice, the exact prefix before an IO error, the cache coherent; with the cache not bypassed and all chunks cached it succeeds on any device with one hit per chunk and nothing else, and one hit per chunk means all were cached; through-cache counters and recency as specified; pieces selected for GDS are the GDS reads and fallbacks, the others the hits and misses, by what the options allow; an IO error leaves one more path selected than outcomes, a refusal leaves every counter |
| ReadRuntime.CachedFlow | src/api.cpp:19-67 | of a through-cache read: hits and misses make the pieces, a file read is a miss, and no GDS or plain POSIX counter moves |
| ReadRuntime.NoGdsFlow | src/api.cpp:19-67 | of a read with GDS off: no GDS reads, and unless GDS is forced no fallback either and hits and misses make the pieces |
| ReadRuntime.Context.Prefetch | src/api.cpp:119-129 | its argument errors; on OK the history and the counters of fetching every absent chunk of the range in turn; no counter moves but those of file reads, prefetched bytes and prefetch calls |
| ReadRuntime.Init | src/api.cpp:92-111 | every flag and hint given is kept, every size and a positive worker count too, and what is zero takes its number; no options give a through-cache context with nothing forced; the context starts valid, empty and with every counter at zero |
| Overwriting.StepUndisturbed | src/api.cpp:36-65 | a read that nobody interrupts inserts only an absent chunk, unless the cache is bypassed with POSIX forced |
| Overwriting.SerialOverwritesIff | src/api.cpp:38-65 | some run of reads and prefetches made one after the other overwrites a present key iff bypass_cache, force_posix and cache_admit are set and dram_cache_size >= 2 * chunk_size |
| Overwriting.RaceOverwritesIff | src/api.cpp:38-126 | some run of overlapping calls does iff dram_cache_size >= 2 * chunk_size; the witness is two prefetches that both check for a chunk before either brings it in |
| Locality.TableIsMostRecent | src/cache_directory.cpp:8-50 | without overwrites the table is the floor(cache_size / chunk_size) most recently used keys, and used_bytes_ is exact |
| Locality.Reread | src/api.cpp:33-69 | the counters of repeating a read: one hit per chunk if the chunks fit, every chunk fetched again if they do not |
| Locality.ReadTwice | src/api.cpp:26-71 | a successful cached read costs its LRU misses; if it fits, the repeat succeeds on any device, returns the same bytes, adds one hit per chunk and no file read; if not, a repeat that succeeds fetches every chunk again |
| Locality.ChunkKeysCount | src/api.cpp:34 | a range touches (offset+size-1)/chunk - offset/chunk + 1 chunks |
| Locality.PrefetchIsFifo | src/api.cpp:126 | prefetching inserts the absent chunks that exist in order and refreshes none; chunks past the end of the file cost a read call each and change nothing else, whatever the rest of the range |
| Locality.FreeIffAllCached | src/api.cpp:50-67 | a read of distinct chunks touches no file iff all are cached |
| Locality.PrefetchKeepsRangeIff | src/api.cpp:119-129 | the exact condition, on the cache before it, under which a prefetch leaves all chunks of its range cached |
| Locality.PrefetchColdRange | src/api.cpp:119-129 | it holds when no chunk of the range was cached and the range fits; the prefetch then reads each chunk once |
| Locality.PrefetchThenRead | src/api.cpp:119-129 | under any options that do not bypass the cache, after a prefetch that cost exactly its fetches, a read of the range adds one hit per chunk and no file read, device or no device, iff that condition holds; in particular when none of the range was cached and it fits, at one fetch per chunk |
| Locality.PrefetchCanEvictItsOwnRange | src/api.cpp:126 | a concrete cache in which prefetching evicts a chunk of its own range |
| Coalescing.ExtendIsFurthest | src/api.cpp:83 | the greedy group is the longest permitted from its start |
| Coalescing.GreedyIsPartition | src/api.cpp:82-87 | the groups partition the sorted ranges into permitted groups |
| Coalescing.GreedyIsMinimal | src/api.cpp:80-87 | no partition into permitted groups has fewer groups |
| Coalescing.SpanBounds | src/api.cpp:82-86 | a group's span lies between the sum of its sizes and that plus one gap per join |
| VectorRead.SortSorts | src/api.cpp:80 | the order used: a sorted permutation of the items by path, then offset |
| VectorRead.Coalesce | src/api.cpp:82-83 | the inner loop stops at the greedy end with the group's span |
| VectorRead.Scatter | src/api.cpp:85 | each item's buffer receives its own part of the group's bytes and no other buffer changes |
| VectorRead.ReadGroup | src/api.cpp:82-86 | one read per group, counted once, fills every buffer of the group with its own slice; if it fails, their buffers stay as they were |
| VectorRead.ReadGroups | src/api.cpp:82-87 | the outer loop: every item read, in as many reads as the greedy partition has groups; on failure each buffer has its slice or is untouched |
| VectorRead.Readv | src/api.cpp:74-90 | refines independent reads: OK iff every range would read OK, each buffer its own slice, sum of sizes <= coalesced bytes <= that plus gap * (ranges - groups), and the read counters move as by one read per group; on failure each buffer has its slice or is untouched, and refused arguments leave counters and buffers alone |
| ReadJobs.StepOk | src/api.cpp:27-69 | each atomic step of a read, to CPU or GPU memory, run against whatever cache other threads left, keeps the read right and the cache coherent and bounded |
| ReadJobs.LookupMeans | src/api.cpp:36-40 | what a lookup does with a piece of the file: a hit exactly when its chunk is cached and the cache is not bypassed, otherwise where the options allow, and no other field of the read changes |
| ReadJobs.StepRecency | src/api.cpp:36-65 | what a step does to recency, as long as no key was overwritten: a lookup of a cached chunk and the insertion of an absent one are LRU accesses, and nothing else moves the list |
| ReadJobs.ServeOk | src/api.cpp:50-67 | every path's fetch puts the file's bytes at the piece and leaves the rest of the buffer, or fails only when it may, at the last chunk boundary the file reaches, with the buffer as it was |
| ReadJobs.ServeMeans | src/api.cpp:50-67 | a hit and a GDS read that works need no device, any piece of the file is delivered if the device does not fail, and a delivered piece goes to admission exactly on the caching path with admission on |
| ReadJobs.StepWorks | src/api.cpp:33-69 | every step of a read uses up some of its finite work |
| Requests.NextInv | src/api.cpp:107-117 | every action of a worker, caller or prefetch keeps the whole system's invariant |
| Requests.AnyInterleaving | src/api.cpp:26-129 | in every interleaving, a request or read that ends OK holds exactly file[offset, offset+size), one that gives an IO error had reason to and holds the file's bytes up to where it gave up (on a sound device the last chunk boundary the file reaches) with the rest of the buffer untouched, a refused one leaves its buffer as it was, and cached bytes stay within the limit |
| Requests.ScheduleIndependent | src/api.cpp:26-71 | on a sound device two requests for the same bytes, in any two runs, pools, cache sizes and options, end with the same status and on OK the same bytes; with the same chunk size and buffer they leave the same buffer whatever the status |
| Requests.OnePlace | src/api.cpp:109-114 | a submitted request is in exactly one of queue, one worker and done, once, and is taken at most once |
| Requests.ResultsAreFinal | src/api.cpp:109-117 | nothing changes a result once set, nor forgets a request, nor takes back a stop |
| Requests.NextRemaining | src/api.cpp:109-114 | each worker action lowers the measure, a submission raises it by its own share, and no other action moves it |
| Requests.WorkersFinish | src/api.cpp:109-114 | so the workers act no more often than what remained and what was submitted since allow |
| Requests.WaitingMeansDone | src/api.cpp:109-115 | when the workers all wait, every request taken is done, none is queued unless all have left, and after a stop all have |
| Requests.SubmissionServedIff | src/api.cpp:109-114 | a submission, made before or after a stop, ends with its right result iff some worker has not left when it is made |
| Requests.FinalizeDrains | src/api.cpp:112 | from a stop, workers act a bounded number of times, and when none can every worker has left and every request submitted before the stop has its right result, whatever else is called meanwhile |
| RequestCounters.StepFlow | src/api.cpp:40-66 | every step of a read books at most one selection or outcome, and exactly what its piece then owes |
| RequestCounters.StepBooks | src/api.cpp:19-66 | which counter each step moves: the selection of the path chosen, and when the piece arrives a hit, a miss, a GDS read or a fallback by path, the last two told apart by whether GDS is on, works and the piece is aligned |
| RequestCounters.CountersBalance | src/api.cpp:19-66 | in every interleaving selections equal outcomes plus one per piece under way and one per read that failed after selecting a path |
| SlotCache.EmptySlotsValid | memtier_embedding_bench/src/dram_cache.cpp:55-57 | all slots start free, each once |
| SlotCache.AllocateValid | memtier_embedding_bench/src/dram_cache.cpp:96-123 | free and occupied slots partition the slots, no two blocks share one, the list is a permutation of the entries, and no block but the victim moves |
| SlotCache.EvictValid | memtier_embedding_bench/src/dram_cache.cpp:86-92 | an eviction frees exactly the oldest block's slot |
| SlotCache.AllocateIsLru | memtier_embedding_bench/src/dram_cache.cpp:96-123 | the list after an allocation is the LRU step at the cache's capacity |
| SlotCache.AllocateIsFifo | memtier_embedding_bench/src/memtier_api.cpp:63-90 | for an absent block it is the FIFO step |
| SlotCache.AllocateCyclic | memtier_embedding_bench/src/memtier_api.cpp:84-88 | each block brought into an HBM cache that no hit refreshes takes the next slot, round after round |
| BlockCaches.CapacityBlocks | memtier_embedding_bench/src/dram_cache.cpp:51 | the most blocks that fit the byte budget, and at least one |
| BlockCaches.StackSlots | memtier_embedding_bench/src/dram_cache.cpp:54-57 | pushes every slot, highest first |
| BlockCaches.DramCache.Get | memtier_embedding_bench/src/dram_cache.cpp:67-79 | a hit returns the slot and refreshes; a miss changes only its counter |
| BlockCaches.DramCache.EvictIfNeeded | memtier_embedding_bench/src/dram_cache.cpp:81-94 | leaves a free slot, evicting one block iff there was none |
| BlockCaches.DramCache.AllocateSlotForLoad | memtier_embedding_bench/src/dram_cache.cpp:96-123 | the specified allocation, its slot, and one eviction counted per victim |
| BlockCaches.DramCache.Put | memtier_embedding_bench/src/dram_cache.cpp:125-132 | too long data is refused; otherwise the slot starts with the data and no other block's contents change |
| BlockCaches.HbmCache.Get | memtier_embedding_bench/src/memtier_api.cpp:51-61 | a hit returns the slot and refreshes; a miss changes nothing |
| BlockCaches.HbmCache.Allocate | memtier_embedding_bench/src/memtier_api.cpp:63-90 | the specified allocation, its slot, and the victim or the sentinel |
| BlockFile.LoadBlock | memtier_embedding_bench/src/posix_loader.cpp:37-57 | success means the destination is exactly the block; failure means the file or the device was short of it |
| ResidencyTable.Table.Lookup | memtier_embedding_bench/src/residency_table.cpp:5-15 | creates an entry for an unknown block, with one access and one reference; counts both for a known one |
| ResidencyTable.Table.MarkLoading | memtier_embedding_bench/src/residency_table.cpp:17-24 | the block's entry is LOADING; others keep theirs |
| ResidencyTable.Table.MarkDram | memtier_embedding_bench/src/residency_table.cpp:26-34 | the block's entry is IN_DRAM at the pointer |
| ResidencyTable.Table.MarkHbm | memtier_embedding_bench/src/residency_table.cpp:36-44 | the block's entry is IN_HBM at the pointer |
| ResidencyTable.Table.Release | memtier_embedding_bench/src/residency_table.cpp:46-59 | one reference less, never below zero; an unknown block changes nothing |
| ResidencyTable.Table.Erase | memtier_embedding_bench/src/residency_table.cpp:61-64 | forgets exactly the block |
| ResidencyTable.Table.Clear | memtier_embedding_bench/src/residency_table.cpp:66-69 | forgets every block |
| CopyCoherence.LandAll | memtier_embedding_bench/src/memtier_api.cpp:204-216 | after the wait a slot holds what the source of the last copy to it held |
| CopyCoherence.AccessSteady | memtier_embedding_bench/src/memtier_api.cpp:162-214 | while copies needed fit in DRAM, one turn of the loop keeps every HBM slot right or about to be made right, under any landings |
| CopyCoherence.VictimsAgree | memtier_embedding_bench/src/memtier_api.cpp:187-200 | a DRAM victim with a copy still in flight is the block HBM throws out in the same turn |
| CopyCoherence.BatchLists | memtier_embedding_bench/src/memtier_api.cpp:162-214 | HBM's list is the FIFO run of the batch and DRAM's the LRU run of its HBM misses, whenever copies land |
| CopyCoherence.CopiesSafe | memtier_embedding_bench/src/memtier_api.cpp:162-216 | min(misses, HBM capacity) <= DRAM capacity makes every schedule end with every cached block's slot holding its file bytes |
| CopyCoherence.CopiesSafeIff | memtier_embedding_bench/src/memtier_api.cpp:162-216 | and that condition is exact when the blocks concerned differ |
| CopyCoherence.LateIsWrong | memtier_embedding_bench/src/memtier_api.cpp:204-216 | beyond it, landing every copy at the wait leaves a wrong HBM slot |
| CopyCoherence.UnsafeBatch | memtier_embedding_bench/src/memtier_api.cpp:162-216 | a concrete batch and schedule that leave a wrong HBM slot |
| CopyCoherence.FewMissesSafe | memtier_embedding_bench/src/memtier_api.cpp:162-216 | distinct HBM misses at most DRAM capacity suffice |
| CopyCoherence.SourceStays | memtier_embedding_bench/src/dram_cache.cpp:106-121 | and then a copy's source slot belongs to its block until the batch ends |
| BlockRuntime.Handle.LandCopies | memtier_embedding_bench/src/memtier_api.cpp:204-216 | the oldest copies land, in issue order |
| BlockRuntime.Handle.FetchBlock | memtier_embedding_bench/src/memtier_api.cpp:180-197 | a DRAM hit, or a load into a fresh slot as copies land, with its path and counters |
| BlockRuntime.Handle.PlaceBlock | memtier_embedding_bench/src/memtier_api.cpp:200-212 | a slot in HBM, a copy issued, the victim's residency erased and the block's set |
| BlockRuntime.Handle.LookupBlock | memtier_embedding_bench/src/memtier_api.cpp:162-214 | one turn: residency mirrors HBM with the same pointers, the IN_DRAM branch is never taken, and the path is the simulated tier's |
| BlockRuntime.Handle.LookupAt | memtier_embedding_bench/src/memtier_api.cpp:162-214 | one position of a batch: state, pointer, path and references are those of the batch up to it |
| BlockRuntime.Handle.LookupBlocks | memtier_embedding_bench/src/memtier_api.cpp:146-227 | success iff every block is in the file (on a sound device); state, pointers and paths as specified, contents coherent under the copy condition, and eviction_count = max(0, posix_reads - DRAM capacity); every mention takes one reference, counted anew when HBM has thrown the block out since; after a failure slots are still conserved and the block that failed holds a DRAM slot all the same |
| BlockRuntime.RefsOfHits | memtier_embedding_bench/src/memtier_api.cpp:163-171 | a batch that HBM serves wholly takes exactly one reference per mention of a block |
| BlockRuntime.Handle.PrefetchBlocks | memtier_embedding_bench/src/memtier_api.cpp:229-238 | the same state, and the same references, as a lookup of the blocks |
| BlockRuntime.Handle.ReleaseBlocks | memtier_embedding_bench/src/memtier_api.cpp:240-250 | each mention gives back one reference; residency still mirrors HBM |
| BlockRuntime.InitEmbedding | memtier_embedding_bench/src/memtier_api.cpp:122-144 | no handle iff the block shape is empty or the file does not open; otherwise a valid, coherent one whose blocks have rows * dim * dtype_size bytes and whose caches each have the most slots of their own budget |
| BlockRuntime.CapacityIsMost | memtier_embedding_bench/src/dram_cache.cpp:51 | a capacity is at least one block, within the budget if more, and one more block would exceed it |
| BlockRuntime.OpenAndLookup | memtier_embedding_bench/src/memtier_api.cpp:122-227 | for a file just opened, the tier that serves each block in terms of the HBM and the DRAM byte budgets |
| BlockRuntime.TierMeaning | memtier_embedding_bench/src/memtier_api.cpp:163-198 | HBM_HIT iff among the last C_hbm blocks admitted; else DRAM_HIT iff fewer than C_dram distinct others missed HBM since; else POSIX_READ |
| BlockRuntime.HbmIsNotLru | memtier_embedding_bench/src/memtier_api.cpp:163-171 | a history after which HBM no longer holds a block that LRU would |
| BlockRuntime.CountedNext | memtier_embedding_bench/src/memtier_api.cpp:169-210 | the counters of one more lookup are those the extended history determines |
| BlockRuntime.CountersConserved | memtier_embedding_bench/src/memtier_api.cpp:169-210 | hits plus reads make the requests; bytes copied and read are those counts times block_bytes |
| BlockRuntime.DramHitsAreSimulated | memtier_embedding_bench/src/dram_cache.cpp:67-123 | DRAM hits equal those update_lru_sims counts at the same capacity on the HBM misses |
| BlockRuntime.ResidencyBounded | memtier_embedding_bench/src/memtier_api.cpp:200-211 | the residency table never exceeds HBM capacity |
| BlockRuntime.PointerGoodIff | memtier_embedding_bench/src/memtier_api.cpp:166-212 | for any batch, a pointer is good on return iff its block is in HBM, a whole number of rounds of insertions later than at its turn |
| BlockRuntime.AllPointersGoodIff | memtier_embedding_bench/src/memtier_api.cpp:166-216 | for any batch, all pointers are good iff after no position the insertions reach far enough to push its block out |
| BlockRuntime.BadPointer | memtier_embedding_bench/src/memtier_api.cpp:166-216 | a concrete batch that returns a pointer to another block's slot |
| BlockRuntime.DistinctPointersGoodIff | memtier_embedding_bench/src/memtier_api.cpp:166-216 | for distinct blocks, iff they fit in HBM and none that was cached at its turn is pushed out, told from HBM's list before the batch |
| EmbeddingBag.FindBlock | memtier_embedding_bench/cuda/embedding_bag_kernel.cu:17-24 | the first index of the block, or -1 iff it is not listed |
| EmbeddingBag.RowMajor | memtier_embedding_bench/cuda/embedding_bag_kernel.cu:44-50 | block start plus offset in the block is the row-major offset of the element |
| EmbeddingBag.BlockElemIsTableElem | memtier_embedding_bench/cuda/embedding_bag_kernel.cu:49-50 | the element read from a block is the table's element of that id and dimension |
| EmbeddingBag.KernelsReadTableIff | memtier_embedding_bench/cuda/embedding_bag_kernel.cu:114-136 | the initialiser accepts any element size, but the kernel launched reads the table's elements iff it is 2 or 4 bytes |
| EmbeddingBag.Thread | memtier_embedding_bench/cuda/embedding_bag_kernel.cu:42-56 | a thread of the half or the single kernel, when elements have that size, computes its column's in-order sum over the bag's listed ids, or the mean over the bag |
| EmbeddingBag.BlockedIsDirect | memtier_embedding_bench/cuda/embedding_bag_kernel.cu:42-55 | with every block listed that is the direct embedding bag over the table |
| EmbeddingBag.UnlistedSkipped | memtier_embedding_bench/cuda/embedding_bag_kernel.cu:43-55 | an id whose block is not listed adds nothing, wherever it stands, but still counts in the divisor of the mean |
| EmbeddingBag.ListedAdds | memtier_embedding_bench/cuda/embedding_bag_kernel.cu:43-52 | a listed id that comes last adds its table element to the bag's sum, and an empty bag is zero |
| EmbeddingBag.BagAt | memtier_embedding_bench/cuda/embedding_bag_kernel.cu:42-44 | ids are row-major: every position belongs to the bag and place that division and remainder tell |
| EmbeddingBag.CellAt | memtier_embedding_bench/cuda/embedding_bag_kernel.cu:33-57 | so is the output: every place is the cell of one bag and dimension |
| EmbeddingBag.Launch | memtier_embedding_bench/cuda/embedding_bag_kernel.cu:111-136 | the half kernel for dtype_size 2 and the single kernel otherwise; for sizes 2 and 4, in any order of threads, every cell gets its own bag and dimension's value |
| EmbeddingBag.LookedUpIsResident | memtier_embedding_bench/src/memtier_api.cpp:162-216 | after a lookup with good pointers and safe copies every pointer leads to its block's bytes |

## Left out

- VectorRead.SortSorts: fixes one order among items with equal path and offset, where the source's sort leaves it open; only the number of groups could depend on it.
- BlockRuntime.Handle.LookupBlocks: claims no coherence after a failed load, because the source leaves the block's DRAM slot allocated and unfilled (memtier_embedding_bench/src/memtier_api.cpp:187-188), where a retry would find it.
- CopyCoherence.AccessSteady: lands each copy at one moment; a copy torn across two moments is not modelled, though its source does not change while it is needed.
- RequestCounters.CountersBalance: counts selections and outcomes only; each is booked in the step it belongs to, though the source takes its own lock for it, which changes no sum.
- EmbeddingBag.Launch: says nothing of the output for other element sizes, because the kernel then reads bytes of other elements or outside the block.
- Null-pointer arguments other than missing options, allocation failure and freeing of requests.
- The GDS stub, which can return OK for a short read (src/gds_backend_stub.cpp:10).
- CUDA errors and device copies in async mode, other than as a read or group that returns an error.
- Hashing of paths and their canonicalisation; timing, JSON, logging and metrics export.
- src/dram_cache.cpp, which is not in the build and is superseded by the chunk cache.
- The Python and PyTorch wrappers, object, tensor and dataset helpers, the UVM baseline, plotting, trace parsing and Zipf fitting.
- Floating-point rounding in the kernels: addition, division and decoding of elements are arbitrary functions.
