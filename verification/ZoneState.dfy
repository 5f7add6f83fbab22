// A zone as a value: what its fields, bitmap, free-slot cache and user pages
// hold, the invariant every zone keeps, and what the zone operations do to it.
module ZoneState {
  import opened Sequences
  import opened Bitmap
  import opened Geometry
  import opened FreeList

  /** The free-slot cache, the primed slot and the full flag. */
  datatype Cache = Cache(slots: seq<int>, usable: nat, fill: nat, primed: int, full: bool)

  /** Where the bitmap of a zone is. */
  datatype Home = OwnPages | Shared(slot: Slot)

  datatype ZoneView = ZoneView(
    base: nat,
    chunkSize: nat,
    internal: bool,
    index: nat,
    nextSz: nat,
    home: Home,
    secret: bv64,
    states: seq<ChunkState>,
    cache: Cache,
    afCount: nat,
    allocCount: nat,
    mem: seq<Byte>)

  // ---------------------------------------------------------------- invariants

  ghost predicate GeometryOk(z: ZoneView) {
    && IsChunkSize(z.chunkSize)
    && |z.states| == 32 * MaxBitmapIdx(z.chunkSize)
    && |z.mem| == ZONE_USER_SIZE
  }

  /** The cache is consistent with the bitmap: the entries still to be served and
      the primed slot are distinct free slots, and a zone flagged full has no
      free slot, no primed slot and an empty cache that starts at index 0. */
  ghost predicate CacheOk(states: seq<ChunkState>, c: Cache) {
    && |c.slots| == ZONE_FREE_LIST_SZ
    && c.usable <= c.fill <= ZONE_FREE_LIST_SZ
    && (forall k: nat :: c.usable <= k < c.fill ==> SlotFree(states, c.slots[k]) && c.slots[k] != c.primed)
    && (forall j: nat, k: nat :: c.usable <= j < k < c.fill ==> c.slots[j] != c.slots[k])
    && (c.primed == BAD_BIT_SLOT || SlotFree(states, c.primed))
    && (c.full ==> NoneFree(states, 0, |states|) && c.fill == 0 && c.primed == BAD_BIT_SLOT)
  }

  function ChunkOffset(z: ZoneView, c: nat): nat {
    c * z.chunkSize
  }

  function ChunkAddress(z: ZoneView, c: nat): nat {
    z.base + c * z.chunkSize
  }

  /** The canary of chunk c is intact. */
  ghost predicate ChunkCanaryIntact(z: ZoneView, c: nat)
    requires IsChunkSize(z.chunkSize) && |z.mem| == ZONE_USER_SIZE && c < ChunkCount(z.chunkSize)
  {
    ChunkInside(z.chunkSize, c);
    CanaryAt(z.mem, ChunkOffset(z, c), z.chunkSize, CanaryOf(z.secret, ChunkAddress(z, c)))
  }

  lemma AddressableIsReal(z: ZoneView, c: nat)
    requires GeometryOk(z) && c < |z.states|
    ensures c < ChunkCount(z.chunkSize)
    ensures ChunkOffset(z, c) + z.chunkSize <= ZONE_USER_SIZE
  {
    AddressableChunks(z.chunkSize);
    ChunkInside(z.chunkSize, c);
  }

  ghost predicate CanaryOkAt(z: ZoneView, c: nat)
    requires GeometryOk(z) && c < |z.states|
  {
    AddressableIsReal(z, c);
    ChunkCanaryIntact(z, c)
  }

  /** Every addressable chunk in state 01 or 11 carries its canaries. */
  ghost predicate CanariesIntact(z: ZoneView)
    requires GeometryOk(z)
  {
    forall c: nat :: c < |z.states| && HasCanary(z.states[c]) ==> CanaryOkAt(z, c)
  }

  /** The chunk may be handed out: it was never used, or was freed and has its canary. */
  ghost predicate Available(z: ZoneView, c: nat)
    requires GeometryOk(z) && c < |z.states|
  {
    z.states[c] == NeverUsed || (z.states[c] == Freed && CanaryOkAt(z, c))
  }

  /** What holds of every zone between operations. */
  ghost predicate ZoneOk(z: ZoneView) {
    && GeometryOk(z)
    && CacheOk(z.states, z.cache)
    && z.afCount == CountOf(z.states, InUse)
    && CanariesIntact(z)
  }

  // ---------------------------------------------------------------- the cache

  /** insert_free_bit_slot. */
  function Insert(c: Cache, slot: int): Cache {
    if c.fill >= ZONE_FREE_LIST_SZ || c.fill >= |c.slots| then c
    else c.(slots := c.slots[c.fill := slot], fill := c.fill + 1, full := false)
  }

  /** get_next_free_bit_slot: the primed slot is what it returns, except that a
      spent cache leaves everything alone and returns BAD_BIT_SLOT. */
  function NextSlot(c: Cache): Cache {
    if c.usable >= ZONE_FREE_LIST_SZ || c.usable >= c.fill || c.usable >= |c.slots| then c
    else c.(primed := c.slots[c.usable], slots := c.slots[c.usable := BAD_BIT_SLOT], usable := c.usable + 1)
  }

  /** The slot is the new last entry, and no full flag is left; a cache without room stays
      as it is. */
  ghost predicate Appended(c: Cache, c': Cache, slot: int) {
    if c.fill < 255 == |c.slots|
    then c' == Cache(c.slots[c.fill := slot], c.usable, c.fill + 1, c.primed, false)
    else c' == c
  }

  /** The oldest entry is primed and leaves the cache; a spent cache stays as it is. */
  ghost predicate Advanced(c: Cache, c': Cache) {
    if c.usable < c.fill <= 255 == |c.slots|
    then c' == Cache(c.slots[c.usable := BAD_BIT_SLOT], c.usable + 1, c.fill, c.slots[c.usable], c.full)
    else c' == c
  }

  lemma NextSlotKeepsOk(states: seq<ChunkState>, c: Cache)
    requires CacheOk(states, c) && c.primed == BAD_BIT_SLOT && !c.full
    ensures CacheOk(states, NextSlot(c))
    ensures c.usable < c.fill ==> SlotFree(states, NextSlot(c).primed)
  {
  }

  /** Freeing a chunk that was in use makes its slot a new cache entry, or the
      cache was full; either way no full flag is left behind. */
  lemma InsertKeepsOk(states: seq<ChunkState>, cache: Cache, c: nat)
    requires CacheOk(states, cache) && c < |states| && !IsFree(states[c])
    ensures CacheOk(states[c := Freed], Insert(cache, 2 * c))
    ensures !Insert(cache, 2 * c).full
  {
  }

  /** Taking the primed chunk out of a consistent cache. */
  lemma TakeKeepsCacheOk(states: seq<ChunkState>, cache: Cache, c: nat)
    requires CacheOk(states, cache) && c < |states| && cache.primed == 2 * c
    ensures CacheOk(states[c := InUse], cache.(primed := BAD_BIT_SLOT))
  {
  }

  /** A permanent free changes 10 to 11: the chunk stays out of the cache. */
  lemma RetireKeepsCacheOk(states: seq<ChunkState>, cache: Cache, c: nat)
    requires CacheOk(states, cache) && c < |states| && !IsFree(states[c])
    ensures CacheOk(states[c := Canary], cache)
  {
  }

  // ------------------------------------------------------------ chunk operations

  /** _iso_alloc_bitslot_from_zone on the primed slot, which _iso_alloc clears
      first. A chunk that was used before loses the canary in its first qword. */
  function TakeChunk(z: ZoneView, c: nat): (r: ZoneView)
    requires c < |z.states| && ChunkOffset(z, c) + 8 <= |z.mem|
  {
    z.(states := z.states[c := InUse],
       cache := z.cache.(primed := BAD_BIT_SLOT),
       afCount := z.afCount + 1,
       allocCount := (z.allocCount + 1) % 0x1_0000_0000,
       mem := if HasCanary(z.states[c]) then WriteAt(z.mem, ChunkOffset(z, c), ZERO_QWORD) else z.mem)
  }

  /** What a freed chunk's bytes become: poison if the free is permanent (or
      SANITIZE_CHUNKS is on, which it is not by default), then the canaries. */
  function FreedMemory(z: ZoneView, c: nat, permanent: bool): (m: seq<Byte>)
    requires 16 <= z.chunkSize && ChunkOffset(z, c) + z.chunkSize <= |z.mem|
  {
    var poisoned := if permanent then WriteAt(z.mem, ChunkOffset(z, c), seq(z.chunkSize, _ => POISON_BYTE)) else z.mem;
    WriteCanary(poisoned, ChunkOffset(z, c), z.chunkSize, CanaryOf(z.secret, ChunkAddress(z, c)))
  }

  /** The decrement of a 32-bit counter. */
  function CountedDown(n: nat): nat {
    if n == 0 then 0xffff_ffff else n - 1
  }

  /** iso_free_chunk_from_zone up to the neighbour checks. */
  function ReleaseChunk(z: ZoneView, c: nat, permanent: bool): (r: ZoneView)
    requires c < |z.states|
    requires 16 <= z.chunkSize && ChunkOffset(z, c) + z.chunkSize <= |z.mem|
  {
    z.(states := z.states[c := if permanent then Canary else Freed],
       cache := if permanent then z.cache else Insert(z.cache, 2 * c),
       afCount := CountedDown(z.afCount),
       mem := FreedMemory(z, c, permanent))
  }

  /** The bytes of [lo, hi) are poison after a permanent free, and as the client left them
      after any other. */
  ghost predicate LeftBehind(m: seq<Byte>, m': seq<Byte>, lo: int, hi: int, permanent: bool) {
    |m'| == |m| && forall k: nat :: lo <= k < hi && k < |m| ==> m'[k] == if permanent then 0xde else m[k]
  }

  /** Chunk c has been freed: it is marked freed, or 11 for good. Between its canaries it is
      poison after a permanent free and as the client left it after any other; no other byte
      of the zone changes. Its slot is the last of the cache, if it may be reused and there
      is room, and the chunk is no longer counted. */
  ghost predicate ChunkFreed(z: ZoneView, z': ZoneView, c: nat, permanent: bool) {
    && c < |z.states| && z'.states == z.states[c := if permanent then Canary else Freed]
    && LeftBehind(z.mem, z'.mem, c * z.chunkSize + 8, c * z.chunkSize + z.chunkSize - 8, permanent)
    && SameOutside(z.mem, z'.mem, c * z.chunkSize, c * z.chunkSize + z.chunkSize)
    && (!permanent && z.cache.fill < 255 == |z.cache.slots| ==>
          z'.cache.slots == z.cache.slots[z.cache.fill := 2 * c] && z'.cache.fill == z.cache.fill + 1)
    && (permanent ==> z'.cache == z.cache)
    && z'.afCount == (if z.afCount == 0 then 0xffff_ffff else z.afCount - 1) && z'.allocCount == z.allocCount
  }

  lemma ReleasedParts(z: ZoneView, c: nat, permanent: bool)
    requires c < |z.states| && 16 <= z.chunkSize && ChunkOffset(z, c) + z.chunkSize <= |z.mem|
    ensures ChunkFreed(z, ReleaseChunk(z, c, permanent), c, permanent)
  {
    hide CanaryOf;
    FreedBetween(z, c, permanent);
  }

  /** What is in a freed chunk between its canaries. */
  lemma FreedBetween(z: ZoneView, c: nat, permanent: bool)
    requires 16 <= z.chunkSize && ChunkOffset(z, c) + z.chunkSize <= |z.mem|
    ensures LeftBehind(z.mem, FreedMemory(z, c, permanent), ChunkOffset(z, c) + 8, ChunkOffset(z, c) + z.chunkSize - 8,
                       permanent)
  {
    hide CanaryOf;
    var off := ChunkOffset(z, c);
    if permanent {
      var poison := seq(z.chunkSize, _ => POISON_BYTE);
      var m := WriteAt(z.mem, off, poison);
      forall k: nat | off <= k < off + z.chunkSize ensures m[k] == POISON_BYTE {
        assert m[off..off + |poison|][k - off] == poison[k - off];
      }
    }
  }

  /** The memory is as it was, except that a chunk used before starts with a zero qword. */
  ghost predicate FirstCleared(m: seq<Byte>, m': seq<Byte>, off: nat, used: bool) {
    |m'| == |m| && forall k: nat :: k < |m| ==> m'[k] == if used && off <= k < off + 8 then 0 else m[k]
  }

  /** The chunk at p goes from free to in use and is counted. */
  ghost predicate TakesChunk(z: ZoneView, z': ZoneView, p: nat) {
    && z'.base == z.base <= p && z'.chunkSize == z.chunkSize > 0 && (p - z.base) % z.chunkSize == 0
    && var c := (p - z.base) / z.chunkSize;
    && c < |z.states| && z.states[c] in {NeverUsed, Freed} && z'.states == z.states[c := InUse]
    && z'.afCount == z.afCount + 1 && z'.allocCount == (z.allocCount + 1) % 0x1_0000_0000
    && FirstCleared(z.mem, z'.mem, p - z.base, z.states[c] == Freed)
  }

  lemma TakenParts(z: ZoneView, c: nat)
    requires z.chunkSize > 0 && c < |z.states| && IsFree(z.states[c]) && ChunkOffset(z, c) + 8 <= |z.mem|
    ensures TakesChunk(z, TakeChunk(z, c), ChunkAddress(z, c))
  {
    ChunkOfOffset(z.chunkSize, c);
    var off := ChunkOffset(z, c);
    var m := WriteAt(z.mem, off, ZERO_QWORD);
    forall k: nat | off <= k < off + 8 ensures m[k] == 0 {
      assert m[off..off + 8][k - off] == ZERO_QWORD[k - off];
    }
  }

  lemma InUseCounted(states: seq<ChunkState>, c: nat)
    requires c < |states| && states[c] == InUse
    ensures CountOf(states, InUse) > 0
  {
  }

  lemma FreedMemoryShape(z: ZoneView, c: nat, permanent: bool)
    requires GeometryOk(z) && c < |z.states|
    ensures ChunkOffset(z, c) + z.chunkSize <= |z.mem|
    ensures SameOutside(z.mem, FreedMemory(z, c, permanent), ChunkOffset(z, c), ChunkOffset(z, c) + z.chunkSize)
    ensures var m, canary := FreedMemory(z, c, permanent), CanaryOf(z.secret, ChunkAddress(z, c));
      CanaryAt(m, ChunkOffset(z, c), z.chunkSize, canary)
  {
    hide CanaryOf;
    AddressableIsReal(z, c);
  }

  /** Canaries of other chunks survive a change confined to chunk c. */
  lemma CanariesElsewhere(z: ZoneView, z': ZoneView, c: nat)
    requires GeometryOk(z) && GeometryOk(z') && c < |z.states|
    requires z'.base == z.base && z'.chunkSize == z.chunkSize && z'.secret == z.secret
    requires SameOutside(z.mem, z'.mem, ChunkOffset(z, c), ChunkOffset(z, c) + z.chunkSize)
    requires forall d: nat :: d < |z.states| && d != c ==> z'.states[d] == z.states[d]
    requires CanariesIntact(z)
    requires HasCanary(z'.states[c]) ==> CanaryOkAt(z', c)
    ensures CanariesIntact(z')
  {
    hide CanaryOf, CanaryAt, SameOutside, CanaryOkAt;
    forall d: nat | d < |z'.states| && HasCanary(z'.states[d])
      ensures CanaryOkAt(z', d)
    {
      if d != c {
        CanaryElsewhereChunk(z, z', c, d);
      }
    }
  }

  lemma CanaryElsewhereChunk(z: ZoneView, z': ZoneView, c: nat, d: nat)
    requires GeometryOk(z) && GeometryOk(z') && c < |z.states| && d < |z.states| && c != d
    requires z'.base == z.base && z'.chunkSize == z.chunkSize && z'.secret == z.secret
    requires SameOutside(z.mem, z'.mem, ChunkOffset(z, c), ChunkOffset(z, c) + z.chunkSize)
    ensures CanaryOkAt(z, d) == CanaryOkAt(z', d)
  {
    hide CanaryOf, CanaryAt, SameOutside;
    AddressableIsReal(z, d);
    if c < d { ChunksApart(z.chunkSize, c, d); } else { ChunksApart(z.chunkSize, d, c); }
    CanaryElsewhere(z.mem, z'.mem, ChunkOffset(z, c), ChunkOffset(z, c) + z.chunkSize,
                    ChunkOffset(z, d), z.chunkSize, CanaryOf(z.secret, ChunkAddress(z, d)));
  }

  /** Handing out the primed chunk keeps the zone invariant. */
  lemma TakeKeepsOk(z: ZoneView, c: nat)
    requires ZoneOk(z) && c < |z.states| && z.cache.primed == 2 * c
    ensures ChunkOffset(z, c) + z.chunkSize <= |z.mem|
    ensures IsFree(z.states[c])
    ensures ZoneOk(TakeChunk(z, c))
  {
    hide CanaryOf, CanaryAt, CanariesIntact, CacheOk;
    AddressableIsReal(z, c);
    TakeKeepsCacheOk(z.states, z.cache, c);
    PrimedIsFree(z, c);
    var z' := TakeChunk(z, c);
    assert SameOutside(z.mem, z'.mem, ChunkOffset(z, c), ChunkOffset(z, c) + z.chunkSize);
    CanariesElsewhere(z, z', c);
  }

  lemma PrimedIsFree(z: ZoneView, c: nat)
    requires CacheOk(z.states, z.cache) && c < |z.states| && z.cache.primed == 2 * c
    ensures IsFree(z.states[c])
  {
  }

  /** Freeing a chunk whose low bit is set keeps the bitmap, the cache and the canaries
      consistent, whether it was in use or marked 11. */
  lemma ReleaseKeepsMost(z: ZoneView, c: nat, permanent: bool)
    requires ZoneOk(z) && c < |z.states| && !IsFree(z.states[c])
    ensures ChunkOffset(z, c) + z.chunkSize <= |z.mem|
    ensures var z' := ReleaseChunk(z, c, permanent);
            GeometryOk(z') && CacheOk(z'.states, z'.cache) && CanariesIntact(z')
  {
    hide CanaryOf, CanaryAt, CanariesIntact, CacheOk, FreedMemory, Insert;
    FreedMemoryShape(z, c, permanent);
    if permanent { RetireKeepsCacheOk(z.states, z.cache, c); } else { InsertKeepsOk(z.states, z.cache, c); }
    var z' := ReleaseChunk(z, c, permanent);
    AddressableIsReal(z', c);
    CanariesElsewhere(z, z', c);
  }

  /** Freeing an in-use chunk, permanently or not, keeps the zone invariant. */
  lemma ReleaseKeepsOk(z: ZoneView, c: nat, permanent: bool)
    requires ZoneOk(z) && c < |z.states| && z.states[c] == InUse
    ensures z.afCount > 0 && ChunkOffset(z, c) + z.chunkSize <= |z.mem|
    ensures ZoneOk(ReleaseChunk(z, c, permanent))
  {
    hide CanaryOf, CanaryAt, CanariesIntact, CacheOk, FreedMemory, Insert;
    InUseCounted(z.states, c);
    ReleaseKeepsMost(z, c, permanent);
  }

  /** As good as a zone in order, except that af_count is one too low. */
  ghost predicate Miscounted(z: ZoneView) {
    && GeometryOk(z) && CacheOk(z.states, z.cache) && CanariesIntact(z)
    && z.afCount == CountedDown(CountOf(z.states, InUse))
  }

  /** A free of a chunk marked 11 is not noticed: the chunk becomes free, or stays 11, and
      af_count no longer counts the chunks in use. */
  lemma ReleaseCanary(z: ZoneView, c: nat, permanent: bool)
    requires ZoneOk(z) && c < |z.states| && z.states[c] == Canary
    ensures ChunkOffset(z, c) + z.chunkSize <= |z.mem| && Miscounted(ReleaseChunk(z, c, permanent))
  {
    hide CanaryOf, CanaryAt, CanariesIntact, CacheOk, FreedMemory, Insert;
    ReleaseKeepsMost(z, c, permanent);
  }

  lemma FirstFreeSound(states: seq<ChunkState>, from: nat)
    requires from <= |states|
    ensures Distinct(FirstFree(states, from))
    ensures forall s :: s in FirstFree(states, from) ==> SlotFree(states, s) && s >= 0
    ensures |FirstFree(states, from)| <= ZONE_FREE_LIST_SZ
  {
    hide FreeIn;
    FreeInSound(states, from, |states|);
  }

  /** A cache refilled with a permutation of the first free slots is consistent. */
  lemma RefillKeepsOk(states: seq<ChunkState>, c: Cache, from: nat)
    requires from <= |states| && |c.slots| == ZONE_FREE_LIST_SZ
    requires c.usable == 0 && c.fill <= ZONE_FREE_LIST_SZ && c.primed == BAD_BIT_SLOT && !c.full
    requires multiset(c.slots[..c.fill]) == multiset(FirstFree(states, from)) && Distinct(c.slots[..c.fill])
    ensures CacheOk(states, c)
  {
    hide FirstFree;
    FirstFreeSound(states, from);
    forall k: nat | k < c.fill ensures SlotFree(states, c.slots[k]) && c.slots[k] >= 0 {
      assert c.slots[..c.fill][k] in multiset(c.slots[..c.fill]);
      assert c.slots[k] in FirstFree(states, from);
    }
  }

  // ---------------------------------------------------------------- searching

  predicate HasFreeSlot(states: seq<ChunkState>) {
    !NoneFree(states, 0, |states|)
  }

  /** The waste filter of is_zone_usable. */
  predicate WasteOk(size: nat, chunkSize: nat) {
    && !(size > 1024 && chunkSize >= 8 * size)
    && !(size <= 1024 && chunkSize > 1024)
  }

  /** A chunk is free, and not too large for the request: at most 1024 bytes for requests of
      up to that size, and less than eight times the request above it. */
  ghost predicate CanServe(states: seq<ChunkState>, chunkSize: nat, size: nat) {
    && (if size <= 1024 then chunkSize <= 1024 else chunkSize < 8 * size)
    && exists c: nat :: c < |states| && states[c] in {NeverUsed, Freed}
  }

  lemma ServesExactly(states: seq<ChunkState>, chunkSize: nat, size: nat)
    ensures CanServe(states, chunkSize, size) <==> WasteOk(size, chunkSize) && HasFreeSlot(states)
  {
    if HasFreeSlot(states) {
      var c: nat :| c < |states| && IsFree(states[c]);
      assert states[c] in {NeverUsed, Freed};
    }
  }

  /** A search may only touch the cache, and leaves it consistent. */
  ghost predicate Searched(z: ZoneView, z': ZoneView) {
    && z' == z.(cache := z'.cache)
    && (ZoneOk(z) ==> ZoneOk(z'))
  }

  lemma CacheChangeKeepsOk(z: ZoneView, cache: Cache)
    requires ZoneOk(z) && CacheOk(z.states, cache)
    ensures ZoneOk(z.(cache := cache))
  {
    hide CanaryOf, CanaryAt;
    var z' := z.(cache := cache);
    forall c: nat | c < |z'.states| && HasCanary(z'.states[c]) ensures CanaryOkAt(z', c) {
      assert CanaryOkAt(z, c);
    }
  }

  // ---------------------------------------------------------- neighbour checks

  /** The high bit found for the chunk after c: in the zone's own bitmap, or,
      past its last qword, whatever the next bytes of the mapping hold. */
  predicate HighBitAfter(z: ZoneView, c: nat, beyond: bool) {
    if c + 1 < |z.states| then HasCanary(z.states[c + 1]) else beyond
  }

  /** The two check_canary calls at the end of iso_free_chunk_from_zone, on the
      state in which chunk c has just been freed. */
  ghost predicate NeighbourAborts(z: ZoneView, c: nat, beyond: bool)
    requires GeometryOk(z) && c < |z.states|
  {
    || (c + 1 < ChunkCount(z.chunkSize) && HighBitAfter(z, c, beyond) && !ChunkCanaryIntact(z, c + 1))
    || (c != 0 && HasCanary(z.states[c - 1]) && (AddressableIsReal(z, c - 1); !ChunkCanaryIntact(z, c - 1)))
  }

  /** What iso_free_chunk_from_zone does with chunk c: it is freed, a zone in order stays so if
      the chunk was in use, and the neighbour checks decide whether it aborts. */
  ghost predicate FreeOutcome(z: ZoneView, z': ZoneView, c: nat, permanent: bool, beyond: bool, aborted: bool) {
    && c < |z.states| && 16 <= z.chunkSize && ChunkOffset(z, c) + z.chunkSize <= |z.mem|
    && z' == ReleaseChunk(z, c, permanent) && ChunkFreed(z, z', c, permanent)
    && (ZoneOk(z) ==> if z.states[c] == InUse then ZoneOk(z') else Miscounted(z'))
    && GeometryOk(z') && aborted == NeighbourAborts(z', c, beyond)
  }

  /** With canaries intact the checks can only fire through a read past the end
      of the zone's own bitmap, and exactly then: the freed chunk is the last
      addressable one, a further chunk exists, the stray bit is set, and that
      unaddressed chunk carries no canary. */
  lemma NeighbourAbortsExactly(z: ZoneView, c: nat, beyond: bool)
    requires GeometryOk(z) && CanariesIntact(z) && c < |z.states|
    ensures NeighbourAborts(z, c, beyond) <==>
      && c + 1 == |z.states| < ChunkCount(z.chunkSize)
      && beyond
      && !ChunkCanaryIntact(z, c + 1)
  {
    hide CanaryOf, CanaryAt, ChunkCanaryIntact;
    AddressableChunks(z.chunkSize);
    if c + 1 < |z.states| && HasCanary(z.states[c + 1]) { assert CanaryOkAt(z, c + 1); }
    if c != 0 && HasCanary(z.states[c - 1]) { assert CanaryOkAt(z, c - 1); }
  }

  /** In particular a zone whose chunk count is a multiple of 32 never aborts. */
  lemma WholeWordsNeverAbort(z: ZoneView, c: nat, beyond: bool)
    requires GeometryOk(z) && CanariesIntact(z) && c < |z.states|
    requires ChunkCount(z.chunkSize) % 32 == 0
    ensures !NeighbourAborts(z, c, beyond)
  {
    hide NeighbourAborts;
    AddressableChunks(z.chunkSize);
    NeighbourAbortsExactly(z, c, beyond);
  }

  /** The same on the zone before the free. */
  lemma FreeAborts(z: ZoneView, c: nat, permanent: bool, beyond: bool)
    requires ZoneOk(z) && c < |z.states| && z.states[c] == InUse
    ensures ChunkOffset(z, c) + z.chunkSize <= |z.mem| && ZoneOk(ReleaseChunk(z, c, permanent))
    ensures NeighbourAborts(ReleaseChunk(z, c, permanent), c, beyond) <==>
      c + 1 == |z.states| < ChunkCount(z.chunkSize) && beyond && !ChunkCanaryIntact(z, c + 1)
  {
    hide CacheOk, CanariesIntact, CanaryOf, NeighbourAborts, Insert, FreedMemory, CanaryAt, CountOf;
    ReleaseKeepsOk(z, c, permanent);
    var z' := ReleaseChunk(z, c, permanent);
    NeighbourAbortsExactly(z', c, beyond);
    if c + 1 < ChunkCount(z.chunkSize) {
      FreedMemoryShape(z, c, permanent);
      NextUntouched(z, z', c);
    }
  }

  lemma NextUntouched(z: ZoneView, z': ZoneView, c: nat)
    requires IsChunkSize(z.chunkSize) && |z.mem| == ZONE_USER_SIZE && c + 1 < ChunkCount(z.chunkSize)
    requires z'.base == z.base && z'.chunkSize == z.chunkSize && z'.secret == z.secret
    requires SameOutside(z.mem, z'.mem, ChunkOffset(z, c), ChunkOffset(z, c) + z.chunkSize)
    ensures ChunkCanaryIntact(z', c + 1) <==> ChunkCanaryIntact(z, c + 1)
  {
    hide CanaryOf, SameOutside;
    ChunkInside(z.chunkSize, c + 1);
    var off := ChunkOffset(z, c + 1);
    assert off == ChunkOffset(z, c) + z.chunkSize;
    SameOutsideSlice(z.mem, z'.mem, ChunkOffset(z, c), off, off, off + 8);
    SameOutsideSlice(z.mem, z'.mem, ChunkOffset(z, c), off, off + z.chunkSize - 8, off + z.chunkSize);
  }

  // ------------------------------------------------------------- a fresh zone

  /** ALIGN_SZ_DOWN(rand % n), with the negative result replaced by 0: the bitmap
      word whose first chunk becomes a canary. */
  function CanaryWord(draw: nat, n: nat): (i: nat)
    requires n > 0
    ensures i < n && i % 32 == 0
  {
    var r := draw % n;
    var down := AlignSzUp(r) - SZ_ALIGNMENT;
    if down < 0 then 0 else down
  }

  /** The last multiple of 32 below the draw, or the first qword. */
  lemma CanaryWordExactly(draw: nat, n: nat)
    requires n > 0
    ensures var r, i := draw % n, CanaryWord(draw, n);
      i % 32 == 0 && (if r == 0 then i == 0 else i < r <= i + 32)
  {
  }

  /** Turn chunk c into a canary. */
  function WithCanary(z: ZoneView, c: nat): (r: ZoneView)
    requires c < |z.states| && 16 <= z.chunkSize && ChunkOffset(z, c) + z.chunkSize <= |z.mem|
  {
    z.(states := z.states[c := Canary],
       mem := WriteCanary(z.mem, ChunkOffset(z, c), z.chunkSize, CanaryOf(z.secret, ChunkAddress(z, c))))
  }

  /** A zone in creation: no chunk has been handed out, canaries sit only on the
      first chunk of a bitmap word, and there are at most k of them. */
  ghost predicate Seeded(z: ZoneView, k: nat) {
    && GeometryOk(z)
    && (forall c: nat :: c < |z.states| ==> z.states[c] == NeverUsed || (z.states[c] == Canary && c % 32 == 0))
    && CountOf(z.states, Canary) <= k
    && CanariesIntact(z)
    && TailZero(z)
  }

  /** The pages behind the last addressable chunk were never written. */
  ghost predicate TailZero(z: ZoneView) {
    forall k: nat :: |z.states| * z.chunkSize <= k < |z.mem| ==> z.mem[k] == 0
  }

  lemma TailStays(z: ZoneView, z': ZoneView, c: nat)
    requires TailZero(z) && c < |z.states| == |z'.states| && z'.chunkSize == z.chunkSize
    requires SameOutside(z.mem, z'.mem, ChunkOffset(z, c), ChunkOffset(z, c) + z.chunkSize)
    ensures TailZero(z')
  {
    ScaleMonotone(c + 1, |z.states|, z.chunkSize);
    assert (c + 1) * z.chunkSize == c * z.chunkSize + z.chunkSize;
  }

  /** The canaries are exactly the first chunks of the qwords drawn. */
  ghost predicate DrawnOnly(states: seq<ChunkState>, draws: seq<nat>, n: nat)
    requires n > 0
  {
    forall c: nat :: c < |states| ==> (states[c] == Canary <==> Drawn(c, draws, n))
  }

  ghost predicate Drawn(c: nat, draws: seq<nat>, n: nat)
    requires n > 0
  {
    exists k: nat :: k < |draws| && c == 32 * CanaryWord(draws[k], n)
  }

  lemma DrawMore(states: seq<ChunkState>, states': seq<ChunkState>, draws: seq<nat>, n: nat, draw: nat)
    requires n > 0 && DrawnOnly(states, draws, n) && |states'| == |states|
    requires forall c: nat :: c < |states| ==>
      states'[c] == if c == 32 * CanaryWord(draw, n) then Canary else states[c]
    ensures DrawnOnly(states', draws + [draw], n)
  {
    hide CanaryWord;
    forall c: nat | c < |states|
      ensures Drawn(c, draws + [draw], n) <==> Drawn(c, draws, n) || c == 32 * CanaryWord(draw, n)
    {
      if Drawn(c, draws, n) {
        var k: nat :| k < |draws| && c == 32 * CanaryWord(draws[k], n);
        assert (draws + [draw])[k] == draws[k];
      } else if c == 32 * CanaryWord(draw, n) {
        assert (draws + [draw])[|draws|] == draw;
      }
    }
  }

  lemma SeedOne(z: ZoneView, c: nat, k: nat)
    requires Seeded(z, k) && c < |z.states| && c % 32 == 0 && IsFree(z.states[c])
    ensures ChunkOffset(z, c) + z.chunkSize <= |z.mem|
    ensures Seeded(WithCanary(z, c), k + 1)
  {
    hide CanaryOf, CanaryAt, CanariesIntact, TailZero;
    AddressableIsReal(z, c);
    var z' := WithCanary(z, c);
    AddressableIsReal(z', c);
    CanariesElsewhere(z, z', c);
    TailStays(z, z', c);
  }

  lemma SeededMore(z: ZoneView, k: nat)
    requires Seeded(z, k)
    ensures Seeded(z, k + 1)
  {
    hide CanariesIntact, TailZero;
  }

  /** The number of canary chunks create_canary_chunks aims for. */
  function CanaryTarget(chunkSize: nat): nat
    requires IsChunkSize(chunkSize)
  {
    if chunkSize > MAX_DEFAULT_ZONE_SZ then 0 else ChunkCount(chunkSize) / CANARY_COUNT_DIV
  }

  /** The canaries of the zone are those that these random numbers select. */
  ghost predicate DrawnBy(z: ZoneView, draws: seq<nat>) {
    && IsChunkSize(z.chunkSize) && MaxBitmapIdx(z.chunkSize) >= 2
    && |draws| == CanaryTarget(z.chunkSize)
    && DrawnOnly(z.states, draws, MaxBitmapIdx(z.chunkSize) - 1)
  }

  /** A zone as _iso_new_zone leaves it. */
  ghost predicate FreshZone(z: ZoneView) {
    && ZoneOk(z)
    && Seeded(z, CanaryTarget(z.chunkSize))
    && (exists draws :: DrawnBy(z, draws))
    && z.cache.primed != BAD_BIT_SLOT
    && z.afCount == 0 && z.allocCount == 0
  }
}
