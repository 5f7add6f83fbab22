// Private zones used as pools: iso_alloc_from_zone and iso_zone_chunk_count.
module Pool {
  import opened Sequences
  import opened Bitmap
  import opened Geometry
  import opened ZoneState
  import opened Zones

  datatype Option<+T> = None | Some(value: T)

  // -------------------------------------------------------------- free chunks

  function FreeCount(states: seq<ChunkState>): nat {
    CountOf(states, NeverUsed) + CountOf(states, Freed)
  }

  lemma FreeCountExact(states: seq<ChunkState>)
    ensures HasFreeSlot(states) <==> FreeCount(states) > 0
  {
  }

  lemma FreeCountTake(states: seq<ChunkState>, c: nat)
    requires c < |states| && IsFree(states[c])
    ensures FreeCount(states[c := InUse]) == FreeCount(states) - 1
  {
  }

  lemma StatesPartition(states: seq<ChunkState>)
    ensures |states| ==
      CountOf(states, NeverUsed) + CountOf(states, InUse) + CountOf(states, Freed) + CountOf(states, Canary)
  {
    var m := multiset(states);
    var parts := multiset{}[NeverUsed := m[NeverUsed]][InUse := m[InUse]][Freed := m[Freed]][Canary := m[Canary]];
    forall s: ChunkState ensures m[s] == parts[s] {
      match s case NeverUsed => case InUse => case Freed => case Canary =>
    }
    assert m == parts;
  }

  // -------------------------------------------------------- allocating a chunk

  /** iso_alloc_from_zone on a private zone: it returns NULL exactly when no chunk
      of the zone is free, and otherwise hands out one free chunk. */
  method AllocFromZone(zone: Zone) returns (p: Option<nat>, ghost c: nat)
    requires zone.Shape() && ZoneOk(zone.View())
    modifies zone, zone.freeBitSlots, zone.bitmap, zone.user
    ensures zone.Shape() && ZoneOk(zone.View())
    ensures zone.user == old(zone.user) && zone.bitmap == old(zone.bitmap)
    ensures zone.freeBitSlots == old(zone.freeBitSlots)
    ensures zone.base == old(zone.base) && zone.chunkSize == old(zone.chunkSize)
    ensures zone.canarySecret == old(zone.canarySecret) && (old(TailZero(zone.View())) ==> TailZero(zone.View()))
    ensures p.None? <==> !HasFreeSlot(old(zone.States()))
    ensures p.None? ==> zone.States() == old(zone.States())
    ensures p.Some? ==>
      && c < |old(zone.States())| && IsFree(old(zone.States())[c])
      && zone.States() == old(zone.States())[c := InUse]
      && p.value == ChunkAddress(zone.View(), c)
  {
    hide Decode, ZoneOk, HasFreeSlot, IsFree, WriteAt, MaxBitmapIdx, ChunkCount, TailZero;
    ghost var before := zone.View();
    var ok := zone.IsZoneUsable(zone.chunkSize);
    TailSame(before, zone.View());
    c := 0;
    if !ok { return None, c; }
    ghost var z := zone.View();
    PrimedSlotShape(z);
    c := zone.nextFreeBitSlot / 2;
    var q, aborted := zone.AllocPrimed();
    p := Some(q);
    TakeKeepsTail(z, c);
  }

  lemma TailSame(z: ZoneView, z': ZoneView)
    requires z' == z.(cache := z'.cache)
    ensures TailZero(z) == TailZero(z')
  {
  }

  lemma TakeKeepsTail(z: ZoneView, c: nat)
    requires ZoneOk(z) && c < |z.states| && ChunkOffset(z, c) + 8 <= |z.mem|
    ensures TailZero(z) ==> TailZero(TakeChunk(z, c))
  {
    hide CacheOk, CanariesIntact, CountOf, TailZero;
    if TailZero(z) { TailStays(z, TakeChunk(z, c), c); }
  }

  /** n calls of iso_alloc_from_zone, stopping at the first NULL: exactly as many
      succeed as there are free chunks, and every chunk is a different one. */
  method AllocMany(zone: Zone, n: nat) returns (ps: seq<nat>, ghost cs: seq<nat>)
    requires zone.Shape() && ZoneOk(zone.View())
    modifies zone, zone.freeBitSlots, zone.bitmap, zone.user
    ensures zone.Shape() && ZoneOk(zone.View()) && zone.base == old(zone.base) && zone.chunkSize == old(zone.chunkSize)
    ensures zone.Footprint() == old(zone.Footprint())
    ensures zone.user == old(zone.user) && zone.bitmap == old(zone.bitmap)
    ensures zone.freeBitSlots == old(zone.freeBitSlots)
    ensures |ps| == if n <= FreeCount(old(zone.States())) then n else FreeCount(old(zone.States()))
    ensures zone.canarySecret == old(zone.canarySecret) && (old(TailZero(zone.View())) ==> TailZero(zone.View()))
    ensures |cs| == |ps| && Distinct(cs) && FreeCount(zone.States()) == FreeCount(old(zone.States())) - |ps|
    ensures |zone.States()| == |old(zone.States())| && forall d: nat :: d < |zone.States()| ==>
      zone.States()[d] == if d in cs then InUse else old(zone.States())[d]
    ensures forall k: nat :: k < |ps| ==>
      && cs[k] < |old(zone.States())| && IsFree(old(zone.States())[cs[k]])
      && ps[k] == ChunkAddress(old(zone.View()), cs[k])
  {
    hide Decode, ZoneOk, FreeCount, HasFreeSlot, MaxBitmapIdx, ChunkCount, TailZero;
    ghost var z0 := zone.View();
    ps, cs := [], [];
    while |ps| < n
      invariant zone.Shape() && ZoneOk(zone.View())
      invariant zone.user == old(zone.user) && zone.bitmap == old(zone.bitmap)
      invariant zone.freeBitSlots == old(zone.freeBitSlots)
      invariant zone.base == z0.base && zone.chunkSize == z0.chunkSize && zone.canarySecret == z0.secret
      invariant TailZero(z0) ==> TailZero(zone.View())
      invariant |ps| <= n && |cs| == |ps| && |ps| + FreeCount(zone.States()) == FreeCount(z0.states)
      invariant Handed(z0, zone.States(), ps, cs)
      decreases n - |ps|
    {
      ghost var states := zone.States();
      FreeCountExact(states);
      var p, c := AllocFromZone(zone);
      if p.None? {
        return;
      }
      FreeCountTake(states, c);
      HandedNext(z0, states, ps, cs, c);
      ps, cs := ps + [p.value], cs + [c];
    }
  }

  /** The chunks handed out so far: distinct, free before, in use now; every
      other chunk is as it was. */
  ghost predicate Handed(z0: ZoneView, states: seq<ChunkState>, ps: seq<nat>, cs: seq<nat>) {
    && |ps| == |cs| && |states| == |z0.states|
    && Distinct(cs)
    && (forall k: nat :: k < |cs| ==> cs[k] < |states| && IsFree(z0.states[cs[k]]) && states[cs[k]] == InUse)
    && (forall k: nat :: k < |cs| ==> ps[k] == ChunkAddress(z0, cs[k]))
    && (forall d: nat :: d < |states| ==> states[d] == if d in cs then InUse else z0.states[d])
  }

  lemma HandedNext(z0: ZoneView, states: seq<ChunkState>, ps: seq<nat>, cs: seq<nat>, c: nat)
    requires Handed(z0, states, ps, cs) && c < |states| && IsFree(states[c])
    ensures Handed(z0, states[c := InUse], ps + [ChunkAddress(z0, c)], cs + [c])
  {
  }

  // -------------------------------------------------------- the pool guarantee

  /** iso_zone_chunk_count: canaries are subtracted whether or not the zone is of
      a size that gets any. */
  function ZoneChunkCount(chunkSize: nat): nat
    requires IsChunkSize(chunkSize)
  {
    ChunkCount(chunkSize) - ChunkCount(chunkSize) / CANARY_COUNT_DIV
  }

  /** The bitmap of a new zone, as the random numbers of create_canary_chunks decide. */
  ghost function Drawing(size: nat, draws: seq<nat>): (states: seq<ChunkState>)
    requires IsChunkSize(size)
    ensures |states| == 32 * MaxBitmapIdx(size)
  {
    AddressableChunks(size);
    seq(32 * MaxBitmapIdx(size), c => if c >= 0 && Drawn(c, draws, MaxBitmapIdx(size) - 1) then Canary else NeverUsed)
  }

  lemma FreshIsDrawing(z: ZoneView) returns (draws: seq<nat>)
    requires FreshZone(z)
    ensures |draws| == CanaryTarget(z.chunkSize) && z.states == Drawing(z.chunkSize, draws)
  {
    hide CountOf, CanariesIntact, CacheOk, Drawn, MaxBitmapIdx;
    draws :| DrawnBy(z, draws);
    AddressableChunks(z.chunkSize);
  }

  // ------------------------------------------------------ how many canaries there are

  /** Counting the chunks in state s counts the places they are at. */
  lemma {:induction false} CountIsCard(states: seq<ChunkState>, s: ChunkState, places: set<nat>)
    requires forall c :: c in places ==> c < |states|
    requires forall c: nat :: c < |states| ==> (states[c] == s <==> c in places)
    ensures CountOf(states, s) == |places|
  {
    if states == [] {
      assert places == {};
    } else {
      var n := |states| - 1;
      CountIsCard(states[..n], s, places - {n});
      assert states == states[..n] + [states[n]];
    }
  }

  ghost function Places(draws: seq<nat>, n: nat): set<nat>
    requires n > 0
  {
    set k: nat | k < |draws| :: 32 * CanaryWord(draws[k], n)
  }

  lemma DrawnIsPlaced(c: nat, draws: seq<nat>, n: nat)
    requires n > 0
    ensures Drawn(c, draws, n) <==> c in Places(draws, n)
  {
    hide CanaryWord;
  }

  lemma DrawingCounts(size: nat, draws: seq<nat>)
    requires IsChunkSize(size)
    ensures MaxBitmapIdx(size) >= 2 && CountOf(Drawing(size, draws), Canary) == |Places(draws, MaxBitmapIdx(size) - 1)|
    ensures FreeCount(Drawing(size, draws)) == 32 * MaxBitmapIdx(size) - |Places(draws, MaxBitmapIdx(size) - 1)|
  {
    hide CountOf, CanaryWord, Drawn, MaxBitmapIdx, Places;
    AddressableChunks(size);
    var n := MaxBitmapIdx(size) - 1;
    var states, places := Drawing(size, draws), Places(draws, n);
    forall c: nat ensures Drawn(c, draws, n) <==> c in places { DrawnIsPlaced(c, draws, n); }
    forall c | c in places ensures c < |states| { PlaceBounded(c, draws, n); }
    CountIsCard(states, Canary, places);
    NoneCounted(states, InUse);
    NoneCounted(states, Freed);
    StatesPartition(states);
  }

  lemma PlaceBounded(c: nat, draws: seq<nat>, n: nat)
    requires n > 0 && c in Places(draws, n)
    ensures c < 32 * n
  {
  }

  /** The qwords ALIGN_SZ_DOWN(rand % n) can select. */
  function Drawable(n: nat): nat
    requires n > 0
  {
    1 + if n >= 2 then (n - 2) / 32 else 0
  }

  lemma CanaryWordDrawable(draw: nat, n: nat)
    requires n > 0
    ensures CanaryWord(draw, n) % 32 == 0 && CanaryWord(draw, n) / 32 < Drawable(n)
  {
  }

  /** The first chunks of the first k drawable qwords. */
  ghost function FirstPlaces(k: nat): (s: set<nat>)
    ensures |s| == k && forall c :: c in s ==> c < 1024 * k
    ensures forall j: nat :: j < k ==> 1024 * j in s
  {
    if k == 0 then {} else FirstPlaces(k - 1) + {1024 * (k - 1)}
  }

  lemma CardMonotone(a: set<nat>, b: set<nat>)
    requires a <= b
    ensures |a| <= |b|
  {
    var rest := b - a;
    assert b == a + rest;
  }

  /** At least one canary if anything is drawn, at most one for each drawable qword. */
  lemma CanariesBounded(draws: seq<nat>, n: nat)
    requires n > 0
    ensures |Places(draws, n)| <= Drawable(n)
    ensures draws != [] ==> |Places(draws, n)| >= 1
    ensures draws == [] ==> |Places(draws, n)| == 0
  {
    hide CanaryWord, Drawable;
    var places, most := Places(draws, n), FirstPlaces(Drawable(n));
    forall c | c in places ensures c in most {
      var k: nat :| k < |draws| && c == 32 * CanaryWord(draws[k], n);
      CanaryWordDrawable(draws[k], n);
      var j := CanaryWord(draws[k], n) / 32;
      assert c == 1024 * j;
    }
    CardMonotone(places, most);
    if draws != [] {
      var c := 32 * CanaryWord(draws[0], n);
      assert c in places;
      CardMonotone({c}, places);
    }
  }

  /** Drawing a different qword each time selects them all. */
  lemma MostDrawn(draws: seq<nat>, n: nat)
    requires n >= 2 && |draws| >= Drawable(n) && forall k: nat :: k < Drawable(n) ==> draws[k] == 32 * k + 1
    ensures |Places(draws, n)| == Drawable(n)
  {
    hide CanaryWord, Drawable;
    forall c | c in FirstPlaces(Drawable(n)) ensures c in Places(draws, n) {
      var k := FirstPlace(Drawable(n), c);
      DrawHits(n, k);
      assert draws[k] == 32 * k + 1;
    }
    CardMonotone(FirstPlaces(Drawable(n)), Places(draws, n));
    CanariesBounded(draws, n);
  }

  lemma {:induction false} FirstPlace(k: nat, c: nat) returns (j: nat)
    requires c in FirstPlaces(k)
    ensures j < k && c == 1024 * j
  {
    if c in FirstPlaces(k - 1) { j := FirstPlace(k - 1, c); } else { j := k - 1; }
  }

  lemma DrawHits(n: nat, k: nat)
    requires n >= 2 && k < Drawable(n)
    ensures CanaryWord(32 * k + 1, n) == 32 * k
  {
    SmallMod(32 * k + 1, n);
    AlignedUp(k);
  }

  lemma SmallMod(r: nat, n: nat)
    requires r < n
    ensures r % n == r
  {
  }

  lemma AlignedUp(k: nat)
    ensures AlignSzUp(32 * k + 1) == 32 * k + 32
  {
  }

  /** Drawing 0 each time selects the first qword alone. */
  lemma FewestDrawn(draws: seq<nat>, n: nat)
    requires n > 0 && draws != [] && forall k: nat :: k < |draws| ==> draws[k] == 0
    ensures |Places(draws, n)| == 1
  {
    assert CanaryWord(0, n) == 0;
    assert Places(draws, n) == {0} by { assert draws[0] == 0; }
  }

  // -------------------------------------------------- when the promise can be kept

  /** The number iso_zone_chunk_count reports can be allocated from the new zone. */
  ghost predicate CountKept(size: nat, draws: seq<nat>)
    requires IsChunkSize(size)
  {
    ZoneChunkCount(size) <= FreeCount(Drawing(size, draws))
  }

  function MostCanaries(size: nat): nat
    requires IsChunkSize(size)
  {
    AddressableChunks(size);
    if size > MAX_DEFAULT_ZONE_SZ then 0 else Drawable(MaxBitmapIdx(size) - 1)
  }

  function FewestCanaries(size: nat): nat {
    if size > MAX_DEFAULT_ZONE_SZ then 0 else 1
  }

  /** Even with the most canaries, the reported number fits. */
  predicate SafeSize(size: nat)
    requires IsChunkSize(size)
  {
    MostCanaries(size) + ChunkCount(size) % 32 <= ChunkCount(size) / CANARY_COUNT_DIV
  }

  /** Even with the fewest canaries, it does not. */
  predicate BrokenSize(size: nat)
    requires IsChunkSize(size)
  {
    FewestCanaries(size) + ChunkCount(size) % 32 > ChunkCount(size) / CANARY_COUNT_DIV
  }

  /** The canaries drawn and the unaddressed chunks must not exceed the allowance. */
  lemma KeptExactly(size: nat, draws: seq<nat>)
    requires IsChunkSize(size)
    ensures MaxBitmapIdx(size) >= 2
    ensures CountKept(size, draws) <==>
      |Places(draws, MaxBitmapIdx(size) - 1)| + ChunkCount(size) % 32 <= ChunkCount(size) / CANARY_COUNT_DIV
  {
    hide FreeCount, Places, Drawing;
    AddressableChunks(size);
    DrawingCounts(size, draws);
  }

  lemma EnoughDraws(size: nat)
    requires IsChunkSize(size) && size <= MAX_DEFAULT_ZONE_SZ
    ensures MaxBitmapIdx(size) >= 16 && 1 <= Drawable(MaxBitmapIdx(size) - 1) <= CanaryTarget(size)
  {
    hide MaxBitmapIdx;
    AddressableChunks(size);
    DivideLower(ZONE_USER_SIZE, size, 512);
    assert 512 * size <= ZONE_USER_SIZE;
  }

  lemma CanariesOfSize(size: nat, draws: seq<nat>)
    requires IsChunkSize(size) && |draws| == CanaryTarget(size)
    ensures MaxBitmapIdx(size) >= 2
    ensures FewestCanaries(size) <= |Places(draws, MaxBitmapIdx(size) - 1)| <= MostCanaries(size)
  {
    hide Drawable, Places, MaxBitmapIdx, ChunkCount;
    AddressableChunks(size);
    CanariesBounded(draws, MaxBitmapIdx(size) - 1);
    if size <= MAX_DEFAULT_ZONE_SZ { EnoughDraws(size); }
  }

  lemma MostReached(size: nat) returns (draws: seq<nat>)
    requires IsChunkSize(size)
    ensures MaxBitmapIdx(size) >= 2 && |draws| == CanaryTarget(size)
    ensures |Places(draws, MaxBitmapIdx(size) - 1)| == MostCanaries(size)
  {
    hide Drawable, Places, MaxBitmapIdx, ChunkCount;
    AddressableChunks(size);
    draws := seq(CanaryTarget(size), k => 32 * (if k >= 0 then k else 0) + 1);
    if size <= MAX_DEFAULT_ZONE_SZ {
      EnoughDraws(size);
      MostDrawn(draws, MaxBitmapIdx(size) - 1);
    } else {
      CanariesBounded(draws, MaxBitmapIdx(size) - 1);
    }
  }

  lemma FewestReached(size: nat) returns (draws: seq<nat>)
    requires IsChunkSize(size)
    ensures MaxBitmapIdx(size) >= 2 && |draws| == CanaryTarget(size)
    ensures |Places(draws, MaxBitmapIdx(size) - 1)| == FewestCanaries(size)
  {
    hide Drawable, Places, MaxBitmapIdx, ChunkCount;
    AddressableChunks(size);
    draws := seq(CanaryTarget(size), _ => 0);
    if size <= MAX_DEFAULT_ZONE_SZ {
      EnoughDraws(size);
      FewestDrawn(draws, MaxBitmapIdx(size) - 1);
    } else {
      CanariesBounded(draws, MaxBitmapIdx(size) - 1);
    }
  }

  /** The promise is kept whatever is drawn, exactly for these sizes. */
  lemma AlwaysKept(size: nat)
    requires IsChunkSize(size)
    ensures (forall draws: seq<nat> :: |draws| == CanaryTarget(size) ==> CountKept(size, draws)) <==> SafeSize(size)
  {
    hide CountKept, Places, MostCanaries, ChunkCount, CanaryTarget, MaxBitmapIdx;
    var worst := MostReached(size);
    KeptExactly(size, worst);
    forall draws: seq<nat> | |draws| == CanaryTarget(size)
      ensures SafeSize(size) ==> CountKept(size, draws)
    {
      KeptExactly(size, draws);
      CanariesOfSize(size, draws);
    }
  }

  /** It is broken whatever is drawn, exactly for these. */
  lemma NeverKept(size: nat)
    requires IsChunkSize(size)
    ensures (forall draws: seq<nat> :: |draws| == CanaryTarget(size) ==> !CountKept(size, draws)) <==> BrokenSize(size)
  {
    hide CountKept, Places, MostCanaries, FewestCanaries, ChunkCount, CanaryTarget, MaxBitmapIdx;
    var best := FewestReached(size);
    KeptExactly(size, best);
    forall draws: seq<nat> | |draws| == CanaryTarget(size)
      ensures BrokenSize(size) ==> !CountKept(size, draws)
    {
      KeptExactly(size, draws);
      CanariesOfSize(size, draws);
    }
  }

  /** Two sizes whose promise is always broken: of 40000-byte chunks 104 are reported and
      96 are addressable; of 8128-byte chunks 512 are reported, 512 are addressable, and
      the first is always a canary. */
  lemma BrokenPromises()
    ensures IsChunkSize(40000) && ZoneChunkCount(40000) == 104 && 32 * MaxBitmapIdx(40000) == 96
    ensures IsChunkSize(8128) && ZoneChunkCount(8128) == 512 == 32 * MaxBitmapIdx(8128)
    ensures forall draws: seq<nat> :: |draws| == CanaryTarget(40000) ==> !CountKept(40000, draws)
    ensures forall draws: seq<nat> :: |draws| == CanaryTarget(8128) ==> !CountKept(8128, draws)
  {
    hide CountKept;
    NeverKept(40000);
    NeverKept(8128);
  }

  /** With a multiple of 32 chunks, and so with any power of two, it is always kept. */
  lemma WholeWordsKept(size: nat)
    requires IsChunkSize(size) && ChunkCount(size) % 32 == 0
    ensures forall draws: seq<nat> :: |draws| == CanaryTarget(size) ==> CountKept(size, draws)
  {
    hide CountKept, Drawable;
    AlwaysKept(size);
    if size <= MAX_DEFAULT_ZONE_SZ { EnoughDraws(size); }
  }

  /** A pool is created, asked for as many chunks as iso_zone_chunk_count reports and
      never freed into. Whatever random values are drawn, every call succeeds for the
      sizes that always keep the promise, and the last calls fail for those that never
      do; the chunks are distinct and inside the zone. It does not matter whether the
      zone's bitmap is a slot of a shared page. */
  method FillPool(zone: Zone, size: nat, at: nat, pages: nat, words: array<bv64>, slot: int) returns (ps: seq<nat>)
    requires size <= SMALL_SIZE_MAX
    requires words.Length == MaxBitmapIdx(RoundRequest(size)) && forall i: nat :: i < words.Length ==> words[i] == 0
    modifies zone, words
    ensures zone.chunkSize == RoundRequest(size)
    ensures SafeSize(RoundRequest(size)) ==> |ps| == ZoneChunkCount(RoundRequest(size))
    ensures BrokenSize(RoundRequest(size)) ==> |ps| < ZoneChunkCount(RoundRequest(size))
    ensures forall k: nat :: k < |ps| ==> pages <= ps[k] && ps[k] + zone.chunkSize <= pages + ZONE_USER_SIZE
    ensures forall j: nat, k: nat :: j < k < |ps| ==>
      ps[j] + zone.chunkSize <= ps[k] || ps[k] + zone.chunkSize <= ps[j]
  {
    hide Decode, FreshZone, ZoneOk, FreeCount, ChunkCount, MaxBitmapIdx, IsFree, Drawing, SafeSize, BrokenSize;
    zone.Build(RoundRequest(size), false, at, pages, words, slot);
    ghost var z := zone.View();
    FreshIsOk(z);
    ghost var draws := FreshIsDrawing(z);
    AlwaysKept(z.chunkSize);
    NeverKept(z.chunkSize);
    assert CountKept(z.chunkSize, draws) <==> ZoneChunkCount(z.chunkSize) <= FreeCount(z.states);
    hide CountKept;
    ghost var cs;
    ps, cs := AllocMany(zone, ZoneChunkCount(zone.chunkSize));
    PoolApart(z, ps, cs);
  }

  lemma FreshIsOk(z: ZoneView)
    requires FreshZone(z)
    ensures ZoneOk(z)
  {
  }

  lemma PoolApart(z: ZoneView, ps: seq<nat>, cs: seq<nat>)
    requires ZoneOk(z) && |ps| == |cs| && Distinct(cs)
    requires forall k: nat :: k < |ps| ==> cs[k] < |z.states| && ps[k] == ChunkAddress(z, cs[k])
    ensures forall k: nat :: k < |ps| ==> z.base <= ps[k] && ps[k] + z.chunkSize <= z.base + ZONE_USER_SIZE
    ensures forall j: nat, k: nat :: j < k < |ps| ==> ps[j] + z.chunkSize <= ps[k] || ps[k] + z.chunkSize <= ps[j]
  {
    hide CacheOk, CountOf, CanariesIntact;
    forall k: nat | k < |ps| ensures z.base <= ps[k] && ps[k] + z.chunkSize <= z.base + ZONE_USER_SIZE {
      AddressableIsReal(z, cs[k]);
    }
    forall j: nat, k: nat | j < k < |ps| ensures ps[j] + z.chunkSize <= ps[k] || ps[k] + z.chunkSize <= ps[j] {
      if cs[j] < cs[k] { ChunksApart(z.chunkSize, cs[j], cs[k]); } else { ChunksApart(z.chunkSize, cs[k], cs[j]); }
    }
  }
}
