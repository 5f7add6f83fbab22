// When the canary check of the neighbours of a freed chunk can fire although every
// canary is intact: only at the last addressable chunk of a zone whose chunk count is
// not a multiple of 32, where the check reads the qword behind the zone's own bitmap.
module Neighbours {
  import opened Words
  import opened Bitmap
  import opened Geometry
  import opened ZoneState
  import opened Zones
  import opened BitmapPages
  import opened BitmapSlots
  import opened RootState
  import opened Roots
  import opened Pool

  // ---------------------------------------------------- what lies behind a bitmap

  /** Of all sizes whose bitmaps share a page of at most 32 slots, one has chunks behind
      the last addressable one. */
  lemma OnlyStraySize(size: nat)
    requires IsChunkSize(size)
    ensures IsBucket(BitmapSize(size)) && BitmapSize(size) >= 128 && ChunkCount(size) % 32 != 0 <==> size == 8160
  {
    var q := ChunkCount(size);
    assert q * size <= ZONE_USER_SIZE < q * size + size;
    if IsBucket(BitmapSize(size)) && BitmapSize(size) >= 128 && q % 32 != 0 {
      if BitmapSize(size) == 128 {
        CountNear(size, q, 512);
      } else if BitmapSize(size) == 256 {
        CountNear(size, q, 1024);
      } else if BitmapSize(size) == 512 {
        CountNear(size, q, 2048);
      } else {
        CountNear(size, q, 4096);
      }
    }
  }

  lemma CountNear(size: nat, q: nat, n: nat)
    requires IsChunkSize(size) && q * size <= ZONE_USER_SIZE < q * size + size && n < q < n + 4
    requires n == 512 || n == 1024 || n == 2048 || n == 4096
    ensures n == 512 && size == 8160
  {
    if q == n + 1 {
    } else if q == n + 2 {
    } else {
    }
  }

  /** A bitmap that shares no page is followed by zeroed memory of its own pages. */
  lemma OwnPagesBehind(size: nat)
    requires IsChunkSize(size) && ChunkCount(size) % 32 != 0 && !SharesPage(size)
    ensures 8 * MaxBitmapIdx(size) + 8 <= RoundUpPage(BitmapSize(size))
  {
    NoWholePages(size);
    hide BitmapSize;
    RoomBehind(BitmapSize(size));
  }

  lemma RoomBehind(bytes: nat)
    requires bytes % PAGE_SIZE != 0
    ensures 8 * (bytes / 8) + 8 <= RoundUpPage(bytes)
  {
    var pages := RoundUpPage(bytes) / PAGE_SIZE;
    hide RoundUpPage;
    assert RoundUpPage(bytes) == 8 * (512 * pages);
    assert bytes / 8 < 512 * pages;
  }

  lemma NoWholePages(size: nat)
    requires IsChunkSize(size) && ChunkCount(size) % 32 != 0
    ensures BitmapSize(size) % PAGE_SIZE != 0
  {
    if size > 256 {
      DivideUpper(ZONE_USER_SIZE, size, 16320);
    } else {
      SmallChunkCount(size);
    }
  }

  lemma SmallChunkCount(size: nat)
    requires IsChunkSize(size) && size <= 256
    ensures ChunkCount(size) % 32 == 0 || ChunkCount(size) in {43690, 26214, 21845, 18724}
  {
    if size <= 128 {
      if size <= 64 { assert size == 32 || size == 64; } else { assert size == 96 || size == 128; }
    } else {
      if size <= 192 { assert size == 160 || size == 192; } else { assert size == 224 || size == 256; }
    }
  }

  lemma DivideUpper(a: nat, b: nat, q: nat)
    requires b > 0 && a < q * b
    ensures a / b < q
  {
    if a / b >= q { ScaleMonotone(q, a / b, b); }
  }

  /** What lies behind the page matters for one size and one slot only. Everywhere else
      the state of the root tells exactly whether a free aborts. */
  lemma FreeIsKnown(r: RootView, i: nat, p: nat)
    requires RootOk(r) && i < |r.zones| && InZone(r.zones[i], p)
    requires r.zones[i].chunkSize != 8160 || r.zones[i].home != Shared(Slot(128, 31))
    ensures FreeFails(r, p, false) <==> FreeFails(r, p, true)
  {
    hide BaseOk, ParkedOk, FreeFails, ChunkCanaryIntact, Neighboured, WearsOut, InZone;
    FailsHere(r, i, p);
    assert HomeOk(r.zones[i]);
    if StrayFree(r, i, p, true) {
      AddressableChunks(r.zones[i].chunkSize);
      OnlyStraySize(r.zones[i].chunkSize);
    }
  }

  // ------------------------------------------------------- a correct free that aborts

  /** A new zone whose bitmap takes 128 bytes has one canary, at its first chunk. */
  lemma FirstChunkIsCanary(z: ZoneView)
    requires FreshZone(z) && MaxBitmapIdx(z.chunkSize) == 16 && z.chunkSize <= MAX_DEFAULT_ZONE_SZ
    ensures |z.states| == 512 && z.states[0] == Canary && FreeCount(z.states) == 511 && z.states[511] == NeverUsed
  {
    hide CanaryWord, MaxBitmapIdx, CanariesIntact, CacheOk, FreeCount, CountOf;
    var draws := FreshIsDrawing(z);
    EnoughDraws(z.chunkSize);
    DrawingCounts(z.chunkSize, draws);
    CanariesBounded(draws, 15);
    CanaryWordDrawable(draws[0], 15);
    assert Drawn(0, draws, 15) by { assert 32 * CanaryWord(draws[0], 15) == 0; }
  }

  /** Never-written memory holds a canary only if the canary is all zero. */
  lemma ZeroTailCanary(z: ZoneView)
    requires GeometryOk(z) && TailZero(z) && z.chunkSize == 8160 && |z.states| == 512
    ensures ChunkCount(8160) == 514
    ensures ChunkCanaryIntact(z, 512) <==> CanaryOf(z.secret, ChunkAddress(z, 512)) == ZERO_QWORD
  {
    hide CanaryOf;
    var off := ChunkOffset(z, 512);
    assert z.mem[off..off + 8] == ZERO_QWORD;
    assert z.mem[off + 8160 - 8..off + 8160] == ZERO_QWORD;
  }

  lemma SizesOf128()
    ensures IsChunkSize(8160) && MaxBitmapIdx(8160) == 16 && IsChunkSize(8192) && MaxBitmapIdx(8192) == 16
  {
  }

  /** With nothing left to hand out, a chunk that was free is in use. */
  lemma LastIsTaken(before: seq<ChunkState>, after: seq<ChunkState>, cs: seq<nat>, c: nat)
    requires |after| == |before| && c < |before| && IsFree(before[c]) && FreeCount(after) == 0
    requires forall d: nat :: d < |after| ==> after[d] == if d in cs then InUse else before[d]
    ensures after[c] == InUse
  {
    hide FreeCount;
    FreeCountExact(after);
  }

  /** The zone in the first slot of the page is filled, and its last addressable chunk is
      freed; the qword behind its bitmap is the first one of the next slot. */
  method FillAndFree(zone: Zone, page: BitmapPage) returns (aborted: bool)
    requires zone.Shape() && FreshZone(zone.View()) && zone.chunkSize == 8160
    requires page.Shape() && page.bucket == 128 && zone.bitmap == page.slots[0]
    requires page.slots[1] as object !in zone.Footprint() && Bit(page.slots[1][0], 1)
    modifies zone, zone.freeBitSlots, zone.bitmap, zone.user
    ensures zone.canarySecret == old(zone.canarySecret) && zone.base == old(zone.base)
    ensures aborted <==> CanaryOf(zone.canarySecret, zone.base + 512 * 8160) != ZERO_QWORD
  {
    hide Decode, FreshZone, ZoneOk, FreeCount, NeighbourAborts, ReleaseChunk, MaxBitmapIdx, ChunkCount, CanaryOf;
    hide Miscounted, TailZero, Bit;
    SizesOf128();
    FreshIsOk(zone.View());
    FreshTail(zone.View());
    FirstChunkIsCanary(zone.View());
    ghost var before := zone.States();
    var ps, cs := AllocMany(zone, 511);
    LastIsTaken(before, zone.States(), cs, 511);
    aborted := FreeLast(zone, Bit(page.slots[1][0], 1));
  }

  lemma FreshTail(z: ZoneView)
    requires FreshZone(z)
    ensures TailZero(z)
  {
  }

  method FreeLast(zone: Zone, beyond: bool) returns (aborted: bool)
    requires zone.Shape() && ZoneOk(zone.View()) && TailZero(zone.View()) && zone.chunkSize == 8160
    requires |zone.States()| == 512 && zone.States()[511] == InUse && beyond
    modifies zone, zone.freeBitSlots, zone.bitmap, zone.user
    ensures zone.canarySecret == old(zone.canarySecret) && zone.base == old(zone.base)
    ensures aborted <==> CanaryOf(zone.canarySecret, zone.base + 512 * 8160) != ZERO_QWORD
  {
    hide Decode, ZoneOk, NeighbourAborts, ReleaseChunk, MaxBitmapIdx, ChunkCount, CanaryOf, Miscounted, TailZero;
    ghost var z := zone.View();
    FreeAborts(z, 511, false, beyond);
    ZoneGeometry(z);
    FillBounded(z);
    ZeroTailCanary(z);
    aborted := zone.FreeChunk(zone.base + 511 * 8160, false, beyond);
  }

  lemma ZoneGeometry(z: ZoneView)
    requires ZoneOk(z)
    ensures GeometryOk(z)
  {
  }

  /** Two new zones take the first two slots of a bitmap page: one of 8160-byte and one of
      8192-byte chunks. The first is filled, and the chunk at its end is freed again.
      Whatever is drawn, this correct free aborts, unless the canary of the chunk behind it
      happens to be zero. */
  method SpuriousAbort(zone: Zone, other: Zone, pages: nat, otherPages: nat) returns (aborted: bool)
    requires zone != other
    modifies zone, other
    ensures aborted <==> CanaryOf(zone.canarySecret, pages + 512 * 8160) != ZERO_QWORD
  {
    hide Decode, FreshZone, MaxBitmapIdx, ChunkCount, CanaryOf, Bit, Zone.View;
    SizesOf128();
    var page, mine, next := TwoSlots();
    BuildBehind(other, otherPages, page.slots[next], next);
    zone.Build(8160, false, 0, pages, page.slots[mine], mine);
    aborted := FillAndFree(zone, page);
  }

  /** The first qword of a new zone's bitmap has the high bit of its first chunk set. */
  method BuildBehind(other: Zone, pages: nat, words: array<bv64>, slot: int)
    requires words.Length == 16 && AllZero(words)
    modifies other, words
    ensures Bit(words[0], 1)
  {
    hide Decode, FreshZone, MaxBitmapIdx, ChunkCount, Bit;
    SizesOf128();
    other.Build(8192, false, 1, pages, words, slot);
    FirstChunkIsCanary(other.View());
    FreeChunkBits(words[..], 0);
    assert words[..][0] == words[0];
  }

  /** The first two zones of a bitmap size get the first two slots of its page. */
  method TwoSlots() returns (page: BitmapPage, mine: int, next: int)
    ensures fresh(page) && page.Shape() && page.bucket == 128 && mine == 0 && next == 1 && |page.slots| == 32
    ensures fresh(page.slots[0]) && fresh(page.slots[1]) && AllZero(page.slots[0]) && AllZero(page.slots[1])
  {
    hide Bit;
    page := new BitmapPage(128);
    ZeroHasNoBit(0);
    ZeroHasNoBit(1);
    mine := page.Claim();
    next := page.Claim();
  }
}
