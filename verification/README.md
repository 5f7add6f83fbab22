# A verified model of IsoAlloc

IsoAlloc is an isolation-based heap allocator. Its heap is a set of zones, each 4 MB of user
pages divided into chunks of one size and described by a bitmap with two bits per chunk; larger
requests get a mapping of their own, kept on one of two linked lists. This project models that
core and proves what it promises, in Dafny. `dafny verify dfyconfig.toml` checks all of it.

## How the model is built

Four layers are connected by contracts.

- **Words and values.** `Words` and `Bitmap` relate the qwords of a bitmap to a sequence of chunk
  states (00 never used, 10 in use, 01 freed, 11 canary or permanently freed, low bit first).
  `Geometry` holds the sizes and the canary bytes. `ZoneState` is a zone as a value with its
  invariant `ZoneOk`; `RootState` and `RootSteps` are the root as a value, the steps it can take
  and its invariant `RootOk`, which also says who owns what. `Canaries` says what the canaries of
  chunks tell apart, and `ZoneChoice` which zone serves a request, both in numbers and without the
  functions the code is written with.
- **The imperative code.** `Scan`, `FreeList`, `Zones`, `Checks`, `Pool`, `ZoneCaches`, `Roots`,
  `Interfaces`, `BigZones`, `BigLedger`, `BigRefinement`, `BigSystem`, `BitmapPages`, `BitmapSlots`
  and `SampledPages` are classes and loops on arrays, words and linked records. Each method is proved
  against the values above: `Zone.View()` is the value a zone object shows, `Root.abs` the value of
  the root, and every root operation returns the ghost list of steps it performed. `Interfaces.Heap`
  is the allocator as one thread calls it: the root with its zones, its shared bitmap pages and its
  two lists of big zones, and the thread's own zone cache. A shared bitmap page is kept as the slots
  it is cut into, and the bitmap of a zone in it is the slot itself, so that what a zone writes is
  what its neighbour reads.
- **First calls.** `Startup` and `FirstCalls` run the operations from start-up: which zones the first
  requests get, what the hot path of a thread does, and how the zones array is used up.
- **Runs.** `RootSteps.Reach` and `BigProtocol.Reach` are whole runs. The theorems about runs
  (`RunSafe`, `RunPlaces`, `RunSpares`, `RunConserves`, `RunKeeps11`, `OnePlace`, `ClientsSafe`, …)
  hold for every sequence of operations, and in `BigProtocol` for every interleaving of any number
  of threads at the two big-zone locks; `BigRefinement` proves that the linked-list code takes
  exactly those steps, and `BigSystem` puts lists, records in hand and mappings together under one
  invariant that every schedule keeps, with zones made and dropped at any time.

`mmap` is `AddressSpaces.AddressSpace`: new pages are page aligned and overlap nothing mapped at
the time; the pages of bitmaps are separate memory. Random numbers are arbitrary values, so every statement holds whatever is drawn.
`LOG_AND_ABORT` is an out-parameter `aborted`, and contracts say when it can be true. Clients free
only what they hold, once, and write only inside it; a private zone ends the life of its chunks.
The build modelled is the default one (threads, canaries, randomised free list, zero-size page)
with 4 KB pages; both settings of the two-lane loops are covered.

## Where the code does not do what is said of it

- `iso_zone_chunk_count` is documented as a safe lower bound (README.md:221 of the repository). It
  subtracts `chunk_count / 128` for canaries, but the bitmap also has no bits for the last
  `chunk_count % 32` chunks, and the canaries drawn are between one and the number of drawable
  qwords. `Pool.AlwaysKept` and `Pool.NeverKept` say for which chunk sizes the number can be
  allocated whatever is drawn, and for which it never can; `Pool.BrokenPromises` shows two of the
  latter, one of which has as many addressable chunks as are reported.
- The neighbour check on free (src/iso_alloc.c:1491-1493) reads past the zone's own bitmap when the
  chunk count is not a multiple of 32. The bit there is that of the next slot of a shared bitmap
  page. `Neighbours.SpuriousAbort` builds two zones, allocates, and makes a correct free abort;
  `Roots.StrayExactly` is the exact condition. `Roots.FreeFails` lifts it to the root: a free aborts
  if it holds with a clear bit behind the last slot of the page, and only if it holds with a set one.
  The two differ for one chunk size in one slot (`Neighbours.FreeIsKnown`).
- `iso_free_chunk_from_zone` accepts a chunk in state 11, a canary or permanently freed, and takes
  it for one in use; `ZoneState.ReleaseCanary` says what is left of the zone.
- Replacing a zone in place aborts when the zones array is used up, although no new entry is needed
  (src/iso_alloc.c:329-331). `Roots.Root.RetireIfIdle` and `Roots.Root.ReplacePages` give the exact
  condition, and `Startup.UsedUp` reaches it: private zones are made until the array is used up, and
  destroying one of them aborts.
- The slow 128-bit scan falls through to a qword loop that starts at the number of pairs, not of
  qwords (src/iso_alloc.c:764-783); the words scanned twice do not change the answer.
- The total of `_iso_alloc_detect_leaks` adds a number of chunks to a number of bytes
  (src/iso_alloc_profiler.c:106). `Conservation.DetectLeaks` says which, and `Conservation.LeakUnits`
  that the sum is the number of allocations exactly when no big mapping is in use.
- Pages for bitmaps of 64 and of 32 bytes have more slots than the 32-bit `in_use` has bits
  (include/iso_alloc_ds.h:104). The model takes the shift of the search modulo 32, as x86-64 and
  AArch64 do, so that only the first 32 slots are ever claimed.

## Model

| member | source | states |
|---|---|---|
| Bitmap.DecodeUse | src/iso_alloc.c:997-1005 | the two bit operations of an allocation turn exactly one chunk of the decoded bitmap into state 10 |
| Bitmap.DecodeFree | src/iso_alloc.c:1464-1480 | the two bit operations of a free turn exactly one chunk into state 01 |
| Bitmap.DecodeRetireChunk | src/iso_alloc.c:1464-1480 | a permanent free turns exactly one used chunk into state 11 |
| Bitmap.DecodeCanary | src/iso_alloc.c:315-317 | a canary turns exactly the first chunk of its qword into state 11 |
| Bitmap.DecodeZeroWord | src/iso_alloc.c:601-603 | a qword is zero exactly when its 32 chunks were never used |
| Bitmap.FreeMaskFirst | src/iso_alloc.c:784-786 | the trailing-zero count of the free mask names the lowest free chunk of the qword |
| Geometry.RoundRequest | src/iso_alloc.c:1074-1078 | a request is rounded up by less than 32 bytes from 32 bytes on, and rounding never moves it across the small-size limit |
| Geometry.AddressableChunks | src/iso_alloc.c:367-375 | every bit slot belongs to a real chunk, and fewer than 32 chunks of a zone have none |
| Geometry.ChunkInside | include/iso_alloc_internal.h:275-276 | a chunk ends inside the user pages of its zone |
| Geometry.ChunkOfOffset | src/iso_alloc.c:1430-1434 | the division on the free path recovers the chunk number from its address |
| Geometry.WriteCanary | src/iso_alloc.c:1400-1405 | both canaries are in place afterwards and no byte outside the chunk changes |
| Canaries.AddressNext | src/iso_alloc.c:1401 | the word of an address counts with the address: 0 for address 0, and one more for the next |
| Canaries.AddressExact | src/iso_alloc.c:1401 | distinct 64-bit addresses are distinct words |
| Canaries.QwordExact | src/iso_alloc.c:1402-1404 | a qword in memory determines the word, and different words have different bytes |
| Canaries.ChunkCanaryBinds | src/iso_alloc.c:1400-1405 | two addresses have the same canary exactly if they agree above the low byte |
| Canaries.ChunkCanarySecret | src/iso_alloc.c:1400-1405 | two secrets give an address the same canary exactly if they agree above the low byte |
| Canaries.CanaryEndsStrings | src/iso_alloc.c:1395-1401 | the first byte of a canary in memory is zero |
| Canaries.ZeroCanary | src/iso_alloc.c:1400-1405 | a canary is all zero exactly if secret and address agree above the low byte |
| Canaries.ClearedIsFound | src/iso_alloc.c:1408-1423 | a freed chunk whose two canary qwords were cleared fails its check exactly if secret and address differ above the low byte |
| Canaries.DamageIsFound | src/iso_alloc.c:1408-1423 | in a zone with intact canaries any change to one byte of a canary is found, in the first qword and in the last |
| Canaries.DamagedNeighbourIsFound | src/iso_alloc.c:1491-1503 | freeing a chunk aborts if a chunk next to it is freed or a canary and its canary is damaged |
| Scan.ScanFastPairs | src/iso_alloc.c:707-714 | finds the lowest aligned pair of never-used qwords, or there is none |
| Scan.ScanFastLanes | src/iso_alloc.c:693-706 | finds the lowest never-used qword among the whole pairs, or there is none |
| Scan.ScanFastWords | src/iso_alloc.c:715-727 | finds the lowest never-used qword, or there is none |
| Scan.ScanSlowPairs | src/iso_alloc.c:762-791 | returns the lowest free slot of the bitmap, or BAD_BIT_SLOT exactly when there is none |
| Scan.ScanSlowLanes | src/iso_alloc.c:737-791 | the same, in the two-lane form |
| Scan.ScanSlowWords | src/iso_alloc.c:781-791 | the same, qword by qword |
| Scan.LowestFreeUnique | src/iso_alloc.c:733-791 | the three slow forms agree on every bitmap |
| FreeList.Fill | src/iso_alloc.c:586-628 | the qword-wise fill equals the slot-by-slot filter: the first 255 free slots from the start word on, in order, and BAD_BIT_SLOT behind them |
| FreeList.FillMixedWord | src/iso_alloc.c:612-627 | walking the free mask adds exactly the free chunks of one qword, in order |
| FreeList.FreeInSound | src/iso_alloc.c:591-628 | the filter yields only free slots of its range, strictly increasing |
| FreeList.FreeInComplete | src/iso_alloc.c:591-628 | the filter misses no free slot of its range |
| FreeList.Shuffle | src/iso_alloc.c:630-642 | a permutation of the entries; above 4 entries no entry stays where it was, up to 4 nothing moves |
| ZoneState.InsertKeepsOk | src/iso_alloc.c:669-675 | freeing a chunk leaves the cache consistent with the bitmap and no full flag behind |
| ZoneState.NextSlotKeepsOk | src/iso_alloc.c:678-687 | the slot primed next is a free one and is in the cache no longer |
| ZoneState.RefillKeepsOk | src/iso_alloc.c:562-645 | a refilled cache, in any order, is consistent with the bitmap |
| ZoneState.TakeKeepsOk | src/iso_alloc.c:957-1007 | handing out the primed chunk keeps the zone invariant: counters, cache, canaries |
| ZoneState.TakenParts | src/iso_alloc.c:957-1007 | a chunk handed out goes from free to in use and is counted; its bytes stay, except that one used before starts with a zero qword |
| ZoneState.ReleaseKeepsOk | src/iso_alloc.c:1464-1489 | freeing a chunk in use, permanently or not, keeps the zone invariant |
| ZoneState.ReleasedParts | src/iso_alloc.c:1464-1489 | after a permanent free every byte between the canaries is 0xde and the chunk is marked 11; after any other the bytes are the client's, the chunk is marked 01 and its slot is the last of the cache; nothing else changes |
| ZoneState.ServesExactly | src/iso_alloc.c:812-824 | the waste filter in numbers: chunks of at most 1024 bytes for requests up to that size, and of less than eight times the request above it |
| ZoneState.CanaryWordExactly | src/iso_alloc.c:305-310 | a draw selects the last multiple of 32 below it, or the first qword |
| ZoneState.ReleaseCanary | src/iso_alloc.c:1455-1489 | freeing a chunk in state 11 keeps bitmap, cache and canaries consistent but leaves af_count one too low |
| ZoneState.NeighbourAbortsExactly | src/iso_alloc.c:1488-1503 | with canaries intact the neighbour checks fire only through the read behind the bitmap at the last addressable chunk |
| ZoneState.WholeWordsNeverAbort | src/iso_alloc.c:1488-1503 | and never when the chunk count is a multiple of 32 |
| ZoneState.FreeAborts | src/iso_alloc.c:1426-1507 | freeing a chunk in use of a good zone aborts exactly at the last addressable chunk, when the bit behind the bitmap is set and the chunk there has no canary |
| Neighbours.OnlyStraySize | src/iso_alloc.c:367-396 | on pages of at most 32 slots exactly the zones of 8160-byte chunks read a bit behind their bitmap |
| Neighbours.FreeIsKnown | src/iso_alloc.c:1491-1496 | except for 8160-byte chunks in the last slot of their page, the state of the root alone decides whether a free aborts |
| Neighbours.OwnPagesBehind | src/iso_alloc.c:405-411 | a bitmap on pages of its own never reads past them |
| Neighbours.SpuriousAbort | src/iso_alloc.c:1491-1496 | two zones built by the code on the first two slots of a page, the first filled and its last chunk freed: whatever is drawn this correct free aborts, exactly unless one canary is zero |
| Zones.Zone.InsertFreeBitSlot | src/iso_alloc.c:669-675 | the slot is the new last entry and the full flag is cleared, unless the cache has 255 entries; everything else is untouched |
| Zones.Zone.GetNextFreeBitSlot | src/iso_alloc.c:678-687 | the oldest entry is primed, returned and taken out, or BAD_BIT_SLOT is returned from a spent cache, which stays as it is |
| Zones.Zone.FillFreeBitSlots | src/iso_alloc.c:562-645 | whatever is drawn, the cache holds a deranged permutation of the first free slots from an in-range start word on; with fewer than 255 it misses none of them |
| Zones.Zone.IsZoneUsable | src/iso_alloc.c:793-868 | succeeds exactly when some chunk is never used or freed and the chunks have at most 1024 bytes, for requests of up to 1024, or less than eight times the request above; then a slot is primed, otherwise the zone is flagged full; only the cache changes |
| Zones.Zone.SearchBitmap | src/iso_alloc.c:846-867 | fast then slow search finds a free slot exactly when there is one |
| Zones.Zone.CheckCanary | src/iso_alloc.c:1408-1423 | passes exactly when the first and the last qword of the chunk are its canary, whose value the lemmas of Canaries describe |
| Zones.Zone.AllocPrimed | src/iso_alloc.c:957-1007 | aborts exactly when the primed chunk is in use or a canary, or was freed and its canary is damaged, so never in a zone in order; otherwise the chunk becomes in use and is counted, a used one starts with a zero qword, and nothing else changes |
| Zones.Zone.ClearOldCanary | src/iso_alloc.c:971-992 | the checks of the allocation path fail exactly if the chunk is not free or its canary is damaged, and a reused chunk loses its first canary |
| Zones.Zone.FreeChunk | src/iso_alloc.c:1426-1507 | for any bitmap and any canaries: aborts and changes nothing unless the address is that of a chunk in state 10 or 11; otherwise exactly that chunk is freed, with 0xde between its canaries if permanent and the client's bytes if not; a zone in order stays so if the chunk was in use; and it aborts exactly as the neighbour checks say |
| Zones.Zone.FreeableExactly | src/iso_alloc.c:1439-1461 | which addresses those are: the start of an addressable chunk in state 10 or 11 |
| Zones.Zone.CreateCanaryChunks | src/iso_alloc.c:279-325 | one draw for every 128 chunks, none above 8192 bytes; the canaries are exactly the first chunks of the qwords drawn, each with its canary bytes, and every other chunk is untouched |
| Zones.Zone.Build | src/iso_alloc.c:328-554 | a new zone satisfies the invariant, has nothing in use, canaries exactly where some draws put them and a primed slot; its bitmap is the zeroed memory given to it, shared slot or pages of its own, and it keeps its link in the size class |
| Zones.FreshCacheNonEmpty | src/iso_alloc.c:508-513 | from any start word a new zone has a free slot, so the abort for a new zone without slots is unreachable |
| Checks.VerifyZone | src/iso_alloc_sanity.c:106-137 | aborts exactly when a chunk in state 01 or 11 has a damaged canary, with and without the two-lane skip; what damage is noticed, Canaries.ClearedIsFound and Canaries.DamageIsFound say |
| Checks.LeakDetector | src/iso_alloc_profiler.c:114-192 | the word-level counts equal the chunk-by-chunk counts of freed and of leaked chunks, with and without the two-lane skip |
| Checks.LeakCountCounts | src/iso_alloc_profiler.c:150-170 | the leaked chunks are those in state 10, and those in state 11 whose canary is damaged |
| Checks.WordWasUsed | src/iso_alloc_profiler.c:146-148 | the population count of one masked qword counts its chunks in state 01 |
| Checks.LeakCountExact | src/iso_alloc_profiler.c:150-170 | with canaries intact only chunks in state 10 are reported as leaked |
| Checks.LeaksAreAfCount | src/iso_alloc_profiler.c:114-192 | in every good zone the leak count equals af_count |
| Pool.AllocFromZone | src/iso_alloc_interfaces.c:168-177 | on the zone alone: returns NULL exactly when the private zone has no free chunk, else a chunk that was free |
| Pool.AllocMany | src/iso_alloc_interfaces.c:168-177 | n calls succeed exactly as often as there are free chunks, and return pairwise distinct chunks |
| Pool.KeptExactly | src/iso_alloc_interfaces.c:55-64 | for given draws the reported count can be allocated exactly when the drawn qwords and the unaddressed chunks do not exceed the allowance |
| Pool.AlwaysKept | src/iso_alloc_interfaces.c:55-64 | it can whatever is drawn exactly for the chunk sizes whose allowance covers the unaddressed chunks and one canary in every drawable qword |
| Pool.NeverKept | src/iso_alloc_interfaces.c:55-64 | it cannot whatever is drawn exactly for the chunk sizes whose allowance does not cover the unaddressed chunks and one canary, or none above 8192 bytes |
| Pool.WholeWordsKept | src/iso_alloc_interfaces.c:55-64 | chunk counts that are multiples of 32 are always safe |
| Pool.BrokenPromises | src/iso_alloc_interfaces.c:55-64 | two sizes that never keep it: 40000, with 104 reported and 96 addressable, and 8128, with 512 reported and addressable and chunk 0 always a canary |
| Pool.FillPool | src/iso_alloc_interfaces.c:55-64 | creating a pool, in a shared bitmap page or not, and asking for the reported number yields that many chunks for the safe sizes and fewer for the broken ones, disjoint and inside the zone |
| ZoneCaches.RecallPushed | src/iso_alloc.c:1010-1037 | the cache is the last eight of its insertion history with consecutive repeats removed |
| ZoneCaches.ZoneCache.Populate | src/iso_alloc.c:1010-1037 | insertion in place keeps that for every history; private zones are never cached |
| ZoneCaches.ZoneCache.Candidate | src/iso_alloc.c:1084-1100 | the scan finds the newest entry with large enough chunks |
| RootState.OwnedApart | src/iso_alloc.c:1067-1240 | in a good state no two owned chunks, quarantined ones included, overlap |
| RootSteps.StepKeepsOk | src/iso_alloc.c:1067-1240 | every step of the root keeps the root invariant |
| RootSteps.RunKeepsOk | src/iso_alloc.c:1067-1240 | so does every run |
| RootSteps.StepKeepsSlots | src/iso_alloc.c:234-252 | no step, replacement and destruction included, gives two zones one slot of a shared bitmap page |
| RootSteps.RunSafe | src/iso_alloc.c:1067-1240 | in every run from start-up no two live or quarantined allocations, small or big, new or on reused pages, overlap |
| RootSteps.RunParked | src/iso_alloc.c:1862-1883 | in every run a big mapping kept for reuse overlaps no owned allocation, although zones and mappings are created meanwhile |
| RootSteps.RunPlaces | src/iso_alloc.c:957-1007 | in every run an owned address is a big mapping in no zone, or a chunk in state 10 of exactly one zone and wholly inside it; and it is at least as large as requested |
| RootSteps.RetiredIsUnreferenced | src/iso_alloc.c:1709-1721 | a zone that may be retired contains no address that is live or quarantined |
| RootContents.StepSpares | src/iso_alloc.c:1426-1507 | isolation: a step that is not the owner's own leaves an owned chunk owned and its bytes unchanged |
| RootContents.RunSpares | src/iso_alloc.c:1426-1507 | isolation over whole runs, with other clients' writes, flushes, retirements and destroyed zones: what a client holds stays its own, at its size and with its bytes, until the client itself frees it, writes to it or destroys its zone |
| Permanence.RunKeeps11 | src/iso_alloc.c:1467-1478 | a permanently freed chunk is never owned again while its zone exists |
| Permanence.FreedForGood | src/iso_alloc.c:1467-1478 | a chunk that a client frees permanently is nobody's again while its zone exists |
| Permanence.RunCountsTakes | src/iso_alloc.c:994-995 | between replacements the alloc_count of a zone counts the chunks handed out of it, modulo 2^32 |
| Permanence.RetiresExactly | src/iso_alloc.c:1709-1721 | a zone is due for retirement exactly if it is internal, below 16384 bytes and idle, and the run has taken more than 32 chunks from it for each one it has |
| SizeChains.ChainVisits | src/iso_alloc.c:895-926 | following next_sz_index strictly falls, ends, and visits only internal zones of one chunk size |
| SizeChains.RunChains | src/iso_alloc.c:895-926 | in every run that holds from every size-class entry, with the entry's size, so both mismatch aborts are unreachable |
| SizeChains.RunLinks | src/iso_alloc_sanity.c:95-104 | the link checks of _verify_zone hold in every run |
| ZoneChoice.WidenedExactly | src/iso_alloc.c:885-888 | n widenings of a multiple s of 32 give 2^n * (s + 32) - 32 |
| ZoneChoice.SelectsOne | src/iso_alloc.c:871-955 | the zone the search is specified to return is one and the same for all who search |
| ZoneChoice.SelectsSame | src/iso_alloc.c:871-955 | probing zones for free slots does not change which one that is |
| ZoneChoice.TakeHandsOut | src/iso_alloc.c:957-1007 | taking a chunk changes the state of that chunk only, in all zones, and no byte but its first qword |
| Conservation.HeldExact | src/iso_alloc.c:994-1005 | af_count of a good zone is the number of distinct addresses in use in it |
| Conservation.RunConserves | src/iso_alloc.c:994-1005 | in every run the af_count of all zones add up to the number of small chunks that are live or quarantined |
| Conservation.DetectLeaks | src/iso_alloc_profiler.c:71-107 | the leak total is the number of small chunks that are live or quarantined plus the bytes of the big mappings in use |
| Conservation.CountChunks | src/iso_alloc_profiler.c:77-80 | its zone half is exactly the number of small chunks that are live or quarantined |
| Conservation.SumList | src/iso_alloc_profiler.c:85-101 | its big half adds the sizes of the records on the used list |
| Conservation.RecordsBytes | src/iso_alloc_profiler.c:85-101 | which are the bytes of the mappings in use, each once |
| Conservation.LeakUnits | src/iso_alloc_profiler.c:106 | the total is at least the number of allocations, and equals it exactly when no big mapping is in use |
| Conservation.VerifyAllZones | src/iso_alloc_sanity.c:72-137 | aborts exactly when a zone's link or a canary is damaged or a record on either big-zone list is |
| Conservation.ZoneSoundExactly | src/iso_alloc_sanity.c:88-137 | a zone passes exactly if its link is 0 or leads to a zone of the same chunk size and every freed and every canary chunk has both its canaries |
| Conservation.NothingToFind | src/iso_alloc_sanity.c:72-137 | which is never so while clients write only inside their chunks |
| Roots.Root.constructor | src/iso_alloc.c:38-52 | an empty root satisfies the invariant |
| Startup.Initialize | src/iso_alloc.c:54-139 | start-up creates the nine default zones, each alone in its size class, without aborting, and is a run from the empty root; no default zone reads past its bitmap, and all have bitmaps of their own, since the shared pages are set up last |
| Roots.Root.SetUpBitmaps | src/iso_alloc.c:128-133 | the six shared pages are new and unused, and the root and its zones stay in order |
| Startup.FillZones | src/iso_alloc.c:255-264 | from start-up private zones of any size can be made without an abort until the zones array is used up |
| Startup.UsedUp | src/iso_alloc.c:250-252 | destroying a zone of such a root aborts |
| FirstCalls.FirstSmall | src/iso_alloc.c:878-951 | the first request of a program, if it is for at most 32 bytes, gets a 32-byte chunk of zone 0 |
| FirstCalls.SmallestFirst | src/iso_alloc.c:878-951 | because doubling 32 passes 96, 224, 480 and 992, which have no size class, and ends at 2016, which has none either |
| FirstCalls.FirstRequest | src/iso_alloc.c:812-824 | the first request of at most 8192 bytes is served without a new zone |
| FirstCalls.NoZoneNeeded | src/iso_alloc.c:812-824 | while an internal zone with large enough chunks of at most 1024 bytes has a free chunk, a request of at most 1024 bytes adds no zone |
| FirstCalls.HotPath | src/iso_alloc.c:1084-1159 | a thread that first asks for 993 to 1024 bytes gets its next request of at most 1024 bytes from the same 1024-byte zone |
| FirstCalls.FirstShared | src/iso_alloc.c:377-400 | the first private zone with a bitmap of 32 to 1024 bytes has the first slot of the page for that size |
| Roots.Root.GrowRequest | src/iso_alloc.c:878-892 | the first of the sizes 2^n * (s + 32) - 32 that exceeds 1024 or has a size-class entry |
| ZoneChoice.WidenedBounds | src/iso_alloc.c:878-892 | which is at most 2080, and the request itself above 1024 |
| Roots.Root.WalkChain | src/iso_alloc.c:894-926 | terminates without aborting; returns the first zone of the size class that can serve the size, in the order of the links, and none only if none can |
| Roots.Root.FindSuitableZone | src/iso_alloc.c:871-955 | never aborts; returns the first zone of the class of the widened request that can serve it, and otherwise the first of all internal zones with large enough chunks that can serve the request, or none if there is none; the zone is primed, below eight times the request above 1024 bytes, at most 2080 otherwise |
| Roots.Root.NewZone | src/iso_alloc.c:328-554 | aborts exactly when the zones array is used up; otherwise one zone of the rounded size is added on a mapping of 4194304 bytes and two guard pages, at the head of its size class if internal, with a primed slot; its bitmap is the lowest slot of its size that no current zone has, and on pages of its own exactly when there is none |
| Roots.Root.ReplacePages | src/iso_alloc.c:209-253 | the zone's slot is found by its size, given back and cleared, and one claimed again; the entry is rebuilt on pages apart from all others, keeping size, index and link; a zone in a shared page stays in one; aborts exactly when the zones array is used up |
| Roots.Root.GiveBack | src/iso_alloc.c:234-246 | exactly the slot of the zone is given back, and is zero; a bitmap on pages of its own touches no shared page; every other zone is untouched |
| Roots.Root.SlotBits | src/iso_alloc.c:377-396 | in every state of a root an in_use bit is set exactly if one current zone, and only one, has the slot; its bitmap is the slot; a slot no zone has is zero |
| Roots.Root.FindZoneRange | src/iso_alloc.c:1297-1337 | equals the plain search for the zone that contains the pointer, whatever the lookup table and the cache hold; the corruption abort is unreachable |
| Roots.Root.ReleaseIn | src/iso_alloc.c:1426-1507 | the free is a single step that keeps the root invariant; it aborts if the stray condition holds with a clear bit behind the page, and only if it holds with a set one |
| Roots.Root.ReadBehind | src/iso_alloc.c:1491-1493 | the bit a free reads behind a bitmap is that of the zone in the next slot: set exactly if its first chunk is a canary or freed, clear if no zone has the slot |
| Roots.StrayExactly | src/iso_alloc.c:1488-1503 | the neighbour checks abort exactly at the last addressable chunk of a zone with unaddressed ones, when that bit is set and the chunk behind has no canary |
| Roots.StrayBounds | src/iso_alloc.c:1491-1493 | what lies behind the page matters only in its last slot |
| Roots.FailsHere | src/iso_alloc.c:1723-1741 | a free of an address in a zone aborts exactly when the zone it lies in makes it, and then the zones array is used up or a zone has unaddressed chunks |
| Roots.ReleaseLeaves | src/iso_alloc.c:1464-1489 | what a free at once and a flush leave in the zone: the chunk is freed, poisoned exactly if permanent, and nothing else of the zone changes |
| Roots.Root.FreeInZone | src/iso_alloc.c:1732-1741 | the chunk is freed and its zone replaced if worn; in a zone that is not replaced a permanent free leaves 0xde between the canaries and any other the client's bytes; aborts exactly for the stray condition or when a worn zone finds the zones array used up |
| Roots.Root.ReleaseBig | src/iso_alloc.c:1774-1787 | the record of a big allocation is found without aborting and leaves the used list; its mapping is kept for reuse exactly if the free is not permanent, fewer than 64 are kept and it has served fewer than 16 allocations |
| Roots.Root.RetireIfIdle | src/iso_alloc.c:1709-1741 | the zone is replaced exactly when it is internal, below 16384 bytes, idle and has served more than 32 allocations for each of its chunks; aborts exactly when it then finds the zones array used up |
| Roots.Root.FreeUnlocked | src/iso_alloc.c:1723-1789 | an owned address always resolves to the zone or big mapping that owns it; only it is given up, at once and in the way asked for, with the bytes of a chunk poisoned exactly if permanent and a mapping kept exactly if it may be; a big mapping never aborts, a chunk exactly when its zone makes it |
| Roots.Root.FlushQuarantine | src/iso_alloc.c:1563-1572 | every entry resolves although zones are retired meanwhile; afterwards the quarantine is empty and the clients' chunks are unchanged; an abort comes from an entry whose free aborts in the state reached by then, and one whose oldest entry fails always aborts |
| Roots.Root.TryCached | src/iso_alloc.c:1152-1159 | the cached zone is taken exactly when it can serve the request |
| Roots.Root.ChooseZone | src/iso_alloc.c:1152-1199 | the cached zone exactly when it can serve the request; otherwise the zone the search returns, and a new one at the end only when it returns none |
| Roots.Root.AllocSmall | src/iso_alloc.c:1067-1228 | the chunk is one of the zone so chosen, belonged to nobody and now to the client, is large enough and within the waste bounds; no other chunk changes; aborts only when no zone can serve and the zones array is used up |
| Roots.Root.Free | src/iso_alloc.c:1574-1631 | NULL and the zero-size page change nothing and never abort; a permanent free loses exactly p at once, poisoned, and aborts exactly when freeing p does; any other appends p to the quarantine and changes nothing else, after a flush exactly if 64 chunks were there, and aborts only in that flush |
| Roots.Root.FreeSize | src/iso_alloc.c:1633-1697 | aborts when the size does not fit the chunk or mapping, and otherwise exactly when freeing p does; else frees exactly p, and keeps a mapping exactly if it may be kept |
| Roots.SizeFitsExactly | src/iso_alloc.c:1655-1690 | a size fits a mapping if it is above 65536 and at most the size of the mapping, and a chunk if it is at most 65536 and the size of the chunk |
| Roots.Root.FreeFromZone | src/iso_alloc.c:1509-1551 | NULL is ignored; an address outside the named zone aborts before anything changes; otherwise the chunk is freed at once, poisoned exactly if permanent, aborting exactly when the zone makes it |
| Roots.Root.AllocFromZone | src/iso_alloc.c:1067-1228 | a run of the root; aborts exactly for requests above the zone's chunk size; a private zone gives NULL exactly when it cannot serve the request, else a chunk of that zone that belonged to nobody, and no other chunk changes |
| Roots.Root.BigAlloc | src/iso_alloc.c:1912-2066 | NULL exactly above the big limit; otherwise a mapping that overlaps nothing in use and belonged to nobody, of at least the page-rounded request and at most 16 KB more, kept from earlier exactly if such a one is kept; never aborts |
| Roots.Root.NewPrivateZone | src/iso_alloc.c:255-264 | a private zone of the rounded size, none for sizes above the small limit, and aborts exactly when the zones array is used up |
| Roots.Root.DestroyZone | src/iso_alloc.c:203-253 | exactly the clients' chunks inside the zone are gone; its entry becomes a new internal zone of the same chunk size; the quarantine is empty; it always aborts when the zones array is used up or freeing the oldest quarantined chunk does, and otherwise only in the flush |
| Roots.Root.ChunkSizeOf | src/iso_alloc.c:2081-2126 | 0 for NULL and the zero-size page, otherwise the size of the chunk or mapping; never aborts for owned addresses |
| Roots.StepKeepsCache | src/iso_alloc.c:1010-1037 | cached chunk sizes stay right through every step, in-place replacement included |
| Roots.ReachKeepsCache | src/iso_alloc.c:1010-1037 | so any thread's cache stays right through any run of all threads |
| Roots.LiveAddress | src/iso_alloc.c:1579-1590 | a live address is 8-byte aligned and not the zero-size page, so the alignment abort is unreachable |
| Interfaces.Heap.Remember | src/iso_alloc.c:1010-1037 | inserting a zone of the root keeps the thread's cache true to the zones |
| Interfaces.Heap.Suggest | src/iso_alloc.c:1084-1100 | the zone of the newest cache entry with large enough chunks, or none exactly if no entry has; it exists, is internal and has large enough chunks |
| Interfaces.Heap.AllocChunk | src/iso_alloc.c:1067-1228 | the zone of the newest cache entry with large enough chunks serves the request exactly if it can, and then no zone is added; otherwise the zone the search returns, or a new one if it returns none; the chunk belonged to nobody, and afterwards the cache is the old one with that zone inserted; aborts only when no zone can serve it and the zones array is used up |
| Interfaces.Heap.Alloc | src/iso_alloc.c:1067-1240 | size 0 gives the zero-size page, sizes whose page-rounded request exceeds 4 GB NULL; otherwise an address that belonged to nobody; a small request is served and cached as AllocChunk says, a big one from a kept mapping exactly if one fits; a zone is added, or the call aborts on a used-up zones array, only for a small request no zone can serve |
| Interfaces.Heap.Free | src/iso_alloc.c:1574-1707 | NULL and the zero-size page change nothing; otherwise the client loses exactly p, poisoned at once if permanent and appended to the quarantine if not; a permanent free of a chunk inserts its zone, replaced or not, into the cache, and nothing else changes the cache; aborts exactly as the free of the root |
| Interfaces.Heap.AllocFromZone | src/iso_alloc.c:1067-1228 | the private-zone allocation; a private zone is never cached, an internal one is inserted on success |
| Interfaces.Heap.DestroyZone | src/iso_alloc.c:203-253 | the cache is empty and exactly the clients' chunks inside the zone are gone, in whose place is a new zone of the same chunk size; it always aborts when the zones array is used up, and otherwise only in the flush |
| Interfaces.Heap.Realloc | src/iso_alloc_interfaces.c:66-95 | NULL with nothing changed, or a chunk apart from the old one that starts with the old bytes, with only the old one released (section 7.22.3.5 of ISO/IEC 9899:2011 for non-zero sizes); size 0 frees; aborts only when the zones array is used up, a zone has unaddressed chunks, or the request needs a zone that is the last one or has such chunks; for NULL, the zero-size page and big mappings only when it needs a zone and there is none left |
| BigZones.CanaryBinds | src/iso_alloc.c:1363-1373 | two records have the same canary exactly when their addresses differ in the bits in which their starts differ, in reversed byte order; so changing only one of the two changes the canary |
| BigZones.CanarySecret | src/iso_alloc.c:1363-1373 | and it depends on every bit of the secret |
| BigZones.DamagedRecord | src/iso_alloc.c:1363-1373 | in a record that passes, any change to either canary or to the start of its pages is noticed |
| BigZones.MetaOffset | src/iso_alloc.c:2036-2040 | the randomly placed record ends inside its page |
| BigZones.BigLists.FindFit | src/iso_alloc.c:1931-1953 | walks to the first record that fits; aborts exactly when the count contradicts the list or a visited record is in use or damaged |
| BigZones.BigLists.SearchAbortsExactly | src/iso_alloc.c:1931-1948 | the search aborts exactly if the count contradicts the list, or a record in use or damaged comes before one of the request to 16 KB more |
| BigZones.BigLists.TakeFree | src/iso_alloc.c:1926-1966 | exactly that record leaves the free list |
| BigZones.BigLists.PushUsed | src/iso_alloc.c:1968-1977 | the record heads the used list, both lists stay well formed, and only a reused one ages |
| BigZones.BigLists.FindBigZone | src/iso_alloc.c:1791-1852 | returns and, on request, unlinks the record with exactly that start; aborts exactly at a damaged record or inside a mapping |
| BigZones.BigLists.FreeBigZone | src/iso_alloc.c:1854-1910 | double frees abort; otherwise the record heads the free list exactly if the free is not permanent, the count is below 64 and its ttl below 16, and else leaves both lists, sealed if permanent |
| BigZones.BigLists.BigAlloc | src/iso_alloc.c:1912-2066 | refuses exactly the sizes out of range; otherwise the record heading the used list was the first free one to fit, with one more use, or is new on pages that overlap nothing mapped |
| BigZones.BigLists.BigFree | src/iso_alloc.c:1774-1787 | the record at p leaves the used list, for the head of the free list exactly if the free is not permanent, the count is below 64 and its ttl below 16, and for good otherwise; an address that no intact record starts at aborts with both lists unchanged |
| BigZones.FindsOwned | src/iso_alloc.c:1812-1847 | with mappings apart and canaries intact the walk ends at the record that starts at p, or nowhere when no mapping contains p |
| BigLedger.Serve | src/iso_alloc.c:1912-2066 | on lists that hold the mappings in use and in reserve the allocation never aborts; a mapping of the request to 16 KB more moves from reserve to use exactly if there is one, and otherwise a new one overlaps nothing mapped |
| BigLedger.Drop | src/iso_alloc.c:1774-1787 | freeing a mapping in use never aborts; it moves to the reserve exactly if the free is not permanent, fewer than 64 are there and it has served fewer than 16 allocations, and otherwise leaves both lists |
| BigLedger.DropAll | src/iso_alloc.c:1868-1881 | up to 64 young mappings freed for reuse while none is kept are all kept, and nothing else is |
| BigLedger.ServeKept | src/iso_alloc.c:1926-1966 | n requests of the size of at least n kept mappings take n of them and map nothing |
| BigLedger.SizeOf | src/iso_alloc.c:2106-2119 | the lookup gives the size of the mapping in use that starts at p, and aborts exactly when there is none |
| BigZones.VerifyBigZones | src/iso_alloc_sanity.c:42-70 | aborts exactly when a record of the list is damaged |
| BigZones.IntactExactly | src/iso_alloc_sanity.c:49-63 | a record is in order exactly if both canaries fit, its size is between 65536 and 4 GB and it has pages |
| BigProtocol.FirstFit | src/iso_alloc.c:1943-1953 | the first record of at least the request and at most 16 KB more |
| BigProtocol.StepKeeps | src/iso_alloc.c:1791-2066 | every critical section of every thread keeps the protocol invariant |
| BigProtocol.OnePlace | src/iso_alloc.c:1791-2066 | under every interleaving each record is in exactly one place: free list, used list, held by one thread, or retired; its free flag is set exactly on the free list |
| BigProtocol.ListsCounted | src/iso_alloc.c:1868-1883 | both lists hold no record twice and match their counters, the free list never exceeds 64, and every record on it has a ttl below 16 |
| BigProtocol.ParksExactly | src/iso_alloc.c:1868-1908 | under every interleaving a freed mapping heads the free list exactly if the free is not permanent, fewer than 64 are on it and it has served fewer than 16 allocations; otherwise it is on no list |
| BigProtocol.ReusesExactly | src/iso_alloc.c:1931-1966 | under every interleaving an allocation reuses a mapping exactly if one of the request to 16 KB more is on the free list |
| BigProtocol.ClientsSafe | src/iso_alloc.c:1953-1976 | no two clients hold overlapping mappings; each got its page-rounded request and at most 16 KB more; the ttl counts the uses and never exceeds 16 |
| BigProtocol.NoSpuriousAbort | src/iso_alloc.c:1931-1948 | the count, free-flag and double-free aborts of the list sections are unreachable |
| BigProtocol.SealedForever | src/iso_alloc.c:1887-1896 | the pages of a permanently freed mapping are never part of a later allocation |
| BigProtocol.FreeExact | src/iso_alloc.c:1812-1835 | freeing a handed-out address takes exactly its record off the used list |
| BigProtocol.NeverStuck | src/iso_alloc.c:1965-1979 | a thread holding a record can always take its next section, and every handed-out mapping can be freed |
| BigRefinement.AllocSection | src/iso_alloc.c:1926-1966 | the free-list section on linked records takes the protocol's step; in a reachable state it aborts exactly when it visits a damaged record |
| BigRefinement.MapSection | src/iso_alloc.c:2002-2052 | the mmap calls and the new record take the protocol's step, with intact canaries, and the kernel still knows the pages of every record |
| BigRefinement.PublishSection | src/iso_alloc.c:1968-1977 | the used-list section takes the protocol's step: the record becomes its thread's |
| BigRefinement.FreeSection | src/iso_alloc.c:1791-1852 | the search with removal takes the protocol's step exactly when it ends at an intact record that starts at p |
| BigRefinement.FinishSection | src/iso_alloc.c:1854-1910 | the free takes the protocol's step and its double-free abort is unreachable |
| BigSystem.OthersKeep | src/iso_alloc.c:1791-2066 | a section of one thread changes neither what another thread is doing nor the record it holds |
| BigSystem.HandsApart | src/iso_alloc.c:1791-2066 | two threads never hold one record |
| BigSystem.UnmapsNothingElse | src/iso_alloc.c:1897-1908 | unmapping a dropped record takes no page from another |
| BigSystem.System.StartAlloc | src/iso_alloc.c:1926-1966 | keeps the system invariant, canaries included, takes the protocol's step and never aborts |
| BigSystem.System.Map | src/iso_alloc.c:2002-2052 | keeps the system invariant and takes the protocol's step |
| BigSystem.System.Publish | src/iso_alloc.c:1968-1977 | keeps the system invariant, takes the protocol's step and hands the record to its thread |
| BigSystem.System.StartFree | src/iso_alloc.c:1791-1852 | keeps the system invariant; finds exactly the start of a mapping in use, aborts exactly inside one, and no canary abort fires |
| BigSystem.System.Finish | src/iso_alloc.c:1854-1910 | keeps the system invariant while the record is parked, sealed or unmapped, and never aborts |
| BigSystem.Interleave | src/iso_alloc.c:1791-2066 | any schedule of the sections of any number of threads, with any requests and with zones made and dropped in between, keeps the system in a state the protocol reaches |
| BigSystem.System.MakeZone | src/iso_alloc.c:440-477 | a zone is mapped between any two sections, and the system invariant holds with it |
| BigSystem.System.DropZone | src/iso_alloc.c:248 | and unmapped, which takes no page from a big mapping |
| BigSystem.System.HandBesideZones | src/iso_alloc.c:1965-2052 | a mapping in a thread's hands lies apart from every zone, also from those made since it was mapped or taken off its list |
| BitmapPages.SlotExtent | src/iso_alloc.c:390-396 | slots of a shared bitmap page are disjoint and exactly those that end inside the page |
| BitmapPages.SlotsFillPage | src/iso_alloc.c:390-396 | the slots joined are the page: slot z is its z-th stretch of qwords |
| BitmapPages.NextQword | src/iso_alloc.c:1491-1493 | the qword behind a slot is the first one of the next slot |
| BitmapPages.BitmapPage.Claim | src/iso_alloc.c:381-400 | the lowest slot whose bit is clear is marked, and no other; none exactly when the bits of all claimable slots are set |
| BitmapPages.BitmapPage.Release | src/iso_alloc.c:236-246 | the slot is zero and its bit clear; every other bit and slot is unchanged |
| BitmapPages.ClaimSlot | src/iso_alloc.c:377-404 | the search for the page of the size and its lowest slot nobody owns, which is zero; none exactly when there is no page for the size or all its claimable slots are owned |
| BitmapPages.ReleaseSlot | src/iso_alloc.c:234-246 | the bucket search finds the page of the slot, and exactly that slot loses its owner and is cleared |
| BitmapSlots.BitIffOneZone | src/iso_alloc.c:377-396 | pages and zones agree: an in_use bit is set exactly if one current zone, and only one, has the slot, and that zone has it as its bitmap; any other slot is zero |
| BitmapSlots.RunSlots | src/iso_alloc.c:377-396 | in every run no two zones have one slot, and a slot is of the size its zone needs |
| BitmapSlots.ClaimHome | src/iso_alloc.c:377-411 | a new bitmap is zero: the lowest slot nobody has or, exactly when there is none, pages of its own |
| BitmapSlots.NextShows | src/iso_alloc.c:1491-1493 | the first qword behind a slot shows whether the zone in the next slot has a canary or a freed chunk at its start |
| BitmapSlots.StillShared | src/iso_alloc.c:250-252 | once a zone has given its slot back there is a slot for its size |
| SampledPages.WriteSanityCanary | src/iso_alloc_sanity.c:286-303 | byte i of the page is byte i mod 8 of the canary, in both loop forms |
| SampledPages.CheckSanityCanary | src/iso_alloc_sanity.c:306-365 | head bytes, pairs, qwords and tail bytes together abort exactly when some byte i outside the caller's first or last n is not byte i mod 8 of the canary, for every n and both alignments |
| SampledPages.SampleIntact | src/iso_alloc_sanity.c:306-365 | so a sample passes exactly when the bytes around it are those first written |

## Left out

- Pointer masking (`MASK_ZONE_PTRS`, `MASK_BIG_ZONE_NEXT`, zone handles): references stand for pointers.
- Guard pages, `mprotect`, `madvise`, mapping names, huge pages and CPU pinning: operating-system calls.
- ARM MTE, address-sanitizer poisoning, software memory tagging, userfaultfd and the heap profiler: not in the default build, or hardware.
- The random generator: its outputs are arbitrary values.
- Process teardown and races of first-use initialisation.
- Roots.Root.ReleaseIn: for 8160-byte chunks in the last slot of a page the bit it reads is that of whatever is mapped behind the page, so there its conditions bound the abort from both sides and do not decide it; the same holds of every free built on it.
- Sizes near `SIZE_MAX`: rounding is on unbounded numbers, so the wrap-around test of `_iso_big_alloc` has no case.
- Sampling decisions and the table of sampled allocations: only the page check is modelled.
- calloc, reallocarray, strdup and the malloc and C++ hooks: thin wrappers.
- The reported sizes of `_iso_alloc_mem_usage`: sums over lists.
- Big allocations of the root are single steps; their interleaving at the two big-zone locks is in `BigProtocol` and `BigSystem`.
- Freed big records: the unmapping of a record's own page may or may not happen, because the source passes an address inside the page; the poisoning of a sealed record is not modelled.
- Frees of addresses a client does not hold, apart from those that `Zones.Zone.FreeChunk`, `BigZones.BigLists.BigFree` and `Roots.Root.FreeFromZone` describe.
