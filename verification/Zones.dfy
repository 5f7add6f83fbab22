// iso_alloc_zone_t and the operations that update one in place.
module Zones {
  import opened Sequences
  import opened Words
  import opened Bitmap
  import opened Geometry
  import opened FreeList
  import opened ZoneState
  import Scan

  class Zone {
    var base: nat                 // user_pages_start
    var user: array<Byte>         // the pages it points to
    var bitmap: array<bv64>       // bitmap_start
    var bitmapSize: nat
    var preallocatedBitmapIdx: int
    var nextFreeBitSlot: int
    var canarySecret: bv64
    var maxBitmapIdx: nat
    var chunkSize: nat
    var freeBitSlotsUsable: nat
    var freeBitSlotsIndex: nat
    var isFull: bool
    var internal: bool
    var afCount: nat
    var chunkCount: nat
    var allocCount: nat
    var index: nat
    var nextSzIndex: nat
    var freeBitSlots: array<int>

    /** The fields fit together. */
    ghost predicate Shape()
      reads this
    {
      && IsChunkSize(chunkSize)
      && chunkCount == ChunkCount(chunkSize)
      && maxBitmapIdx == MaxBitmapIdx(chunkSize) == bitmap.Length && bitmapSize == BitmapSize(chunkSize)
      && freeBitSlots.Length == ZONE_FREE_LIST_SZ
      && user.Length == ZONE_USER_SIZE
      && bitmap as object != freeBitSlots && bitmap as object != user && freeBitSlots as object != user
    }

    /** The objects a zone is made of. */
    ghost function Footprint(): set<object>
      reads this
    {
      {this, bitmap, freeBitSlots, user}
    }

    ghost function States(): seq<ChunkState>
      reads this, bitmap
    {
      Decode(bitmap[..])
    }

    ghost function CacheView(): Cache
      reads this, freeBitSlots
    {
      Cache(freeBitSlots[..], freeBitSlotsUsable, freeBitSlotsIndex, nextFreeBitSlot, isFull)
    }

    ghost function HomeView(): Home
      reads this
    {
      if preallocatedBitmapIdx < 0 then OwnPages else Shared(Slot(bitmapSize, preallocatedBitmapIdx))
    }

    /** The zone as a value. */
    ghost function View(): ZoneView
      reads this, bitmap, freeBitSlots, user
    {
      ZoneView(base, chunkSize, internal, index, nextSzIndex, HomeView(), canarySecret,
               States(), CacheView(), afCount, allocCount, user[..])
    }

    /** insert_free_bit_slot. */
    method InsertFreeBitSlot(slot: int)
      requires Shape() && freeBitSlotsIndex <= ZONE_FREE_LIST_SZ
      modifies this`freeBitSlotsIndex, this`isFull, freeBitSlots
      ensures Shape()
      ensures View() == old(View()).(cache := Insert(old(CacheView()), slot))
      ensures Appended(old(CacheView()), CacheView(), slot)
    {
      hide Decode;
      if freeBitSlotsIndex >= ZONE_FREE_LIST_SZ { return; }
      freeBitSlots[freeBitSlotsIndex] := slot;
      freeBitSlotsIndex := freeBitSlotsIndex + 1;
      isFull := false;
    }

    /** get_next_free_bit_slot. */
    method GetNextFreeBitSlot() returns (slot: int)
      requires Shape() && freeBitSlotsUsable <= freeBitSlotsIndex <= ZONE_FREE_LIST_SZ
      modifies this`nextFreeBitSlot, this`freeBitSlotsUsable, freeBitSlots
      ensures Shape()
      ensures View() == old(View()).(cache := NextSlot(old(CacheView())))
      ensures slot == if old(freeBitSlotsUsable < freeBitSlotsIndex) then nextFreeBitSlot else BAD_BIT_SLOT
      ensures Advanced(old(CacheView()), CacheView())
    {
      hide Decode;
      if freeBitSlotsUsable >= ZONE_FREE_LIST_SZ || freeBitSlotsUsable >= freeBitSlotsIndex {
        return BAD_BIT_SLOT;
      }
      nextFreeBitSlot := freeBitSlots[freeBitSlotsUsable];
      freeBitSlots[freeBitSlotsUsable] := BAD_BIT_SLOT;
      freeBitSlotsUsable := freeBitSlotsUsable + 1;
      slot := nextFreeBitSlot;
    }

    /** fill_free_bit_slots: from some start word on, the cache holds a shuffle of
        the first free slots; with more than four of them none keeps its place. */
    method FillFreeBitSlots() returns (ghost start: nat)
      requires Shape()
      modifies this`freeBitSlotsUsable, this`freeBitSlotsIndex, freeBitSlots
      ensures Shape() && States() == old(States())
      ensures start < maxBitmapIdx && (maxBitmapIdx <= MIN_BITMAP_IDX ==> start == 0)
      ensures freeBitSlotsUsable == 0 && freeBitSlotsIndex <= ZONE_FREE_LIST_SZ
      ensures multiset(freeBitSlots[..freeBitSlotsIndex]) == multiset(FirstFree(States(), 32 * start))
      ensures Distinct(freeBitSlots[..freeBitSlotsIndex])
      ensures freeBitSlotsIndex > MIN_RAND_FREELIST ==>
        Deranged(FirstFree(States(), 32 * start), freeBitSlots[..freeBitSlotsIndex])
      ensures NoneMissed(States(), 32 * start, freeBitSlots[..freeBitSlotsIndex])
    {
      hide Decode, FirstFree, MaxBitmapIdx, BitmapSize, Distinct, Deranged, NoneMissed;
      AddressableChunks(chunkSize);
      var bmIdx := 0;
      if maxBitmapIdx > MIN_BITMAP_IDX {
        var draw: nat := *;
        bmIdx := BitAnd(draw, maxBitmapIdx - 1);
      }
      start := bmIdx;
      freeBitSlotsUsable := 0;
      var n := Fill(bitmap, bmIdx, freeBitSlots);
      FirstFreeSound(States(), 32 * start);
      Shuffle(freeBitSlots, n);
      freeBitSlotsIndex := n;
      AllCached(States(), 32 * start, freeBitSlots[..n]);
    }

    /** The cache part of is_zone_usable: refill an empty cache, then prime. */
    method RefillAndPrime() returns (slot: int)
      requires Shape() && CacheOk(States(), CacheView())
      requires nextFreeBitSlot == BAD_BIT_SLOT && !isFull
      modifies this`nextFreeBitSlot, this`freeBitSlotsUsable, this`freeBitSlotsIndex, freeBitSlots
      ensures Shape() && View() == old(View()).(cache := CacheView())
      ensures CacheOk(States(), CacheView())
      ensures slot == nextFreeBitSlot && !isFull
      ensures slot == BAD_BIT_SLOT ==> freeBitSlotsIndex == 0
    {
      hide Decode, FirstFree, CacheOk, Distinct, Deranged, NoneMissed, Advanced;
      ghost var states := States();
      if freeBitSlotsUsable >= freeBitSlotsIndex {
        ghost var start := FillFreeBitSlots();
        RefillKeepsOk(states, CacheView(), 32 * start);
      }
      NextSlotKeepsOk(states, CacheView());
      SpentCache(states, CacheView());
      slot := GetNextFreeBitSlot();
    }

    /** is_zone_usable: exact in both directions, whatever is drawn. */
    method IsZoneUsable(size: nat) returns (ok: bool)
      requires Shape() && ZoneOk(View())
      modifies this`nextFreeBitSlot, this`freeBitSlotsUsable, this`freeBitSlotsIndex, this`isFull, freeBitSlots
      ensures Shape() && ZoneOk(View()) && View() == old(View()).(cache := CacheView())
      ensures ok <==> WasteOk(size, chunkSize) && HasFreeSlot(States())
      ensures ok <==> CanServe(States(), chunkSize, size)
      ensures ok ==> nextFreeBitSlot != BAD_BIT_SLOT
      ensures !ok && WasteOk(size, chunkSize) ==> isFull
    {
      hide Decode, CacheOk, CanariesIntact, GeometryOk, NoneFree, SlotFree, HasFreeSlot;
      hide ChunkCount, MaxBitmapIdx, BitmapSize, CanServe;
      ghost var z := View();
      ServesExactly(z.states, chunkSize, size);
      if isFull {
        FullHasNoFree(z.states, z.cache);
        return false;
      }
      if size > 1024 && chunkSize >= 8 * size { return false; }
      if size <= 1024 && chunkSize > 1024 { return false; }
      if nextFreeBitSlot != BAD_BIT_SLOT {
        PrimedHasFree(z.states, z.cache);
        return true;
      }
      var slot := RefillAndPrime();
      if slot != BAD_BIT_SLOT {
        PrimedHasFree(z.states, CacheView());
        CacheChangeKeepsOk(z, CacheView());
        return true;
      }
      ok := SearchAndPrime();
      CacheChangeKeepsOk(z, CacheView());
    }

    /** The rest of is_zone_usable: a slot found in the bitmap is primed, or the zone is
        flagged full. */
    method SearchAndPrime() returns (ok: bool)
      requires Shape() && CacheOk(States(), CacheView())
      requires nextFreeBitSlot == BAD_BIT_SLOT && !isFull && freeBitSlotsIndex == 0
      modifies this`nextFreeBitSlot, this`isFull
      ensures Shape() && View() == old(View()).(cache := CacheView()) && CacheOk(States(), CacheView())
      ensures ok <==> HasFreeSlot(States())
      ensures ok ==> nextFreeBitSlot != BAD_BIT_SLOT
      ensures !ok ==> isFull
    {
      hide Decode, CacheOk, NoneFree, SlotFree, HasFreeSlot, ChunkCount, MaxBitmapIdx, BitmapSize;
      ghost var z := View();
      var slot := SearchBitmap();
      if slot == BAD_BIT_SLOT {
        MarkFullOk(z.states, CacheView());
        isFull := true;
        return false;
      }
      PrimeFoundOk(z.states, CacheView(), slot);
      nextFreeBitSlot := slot;
      return true;
    }

    /** The fast search, then the slow one. */
    method SearchBitmap() returns (slot: int)
      requires Shape()
      ensures slot == BAD_BIT_SLOT <==> !HasFreeSlot(States())
      ensures slot != BAD_BIT_SLOT ==> SlotFree(States(), slot) && slot >= 0
    {
      hide Decode, IsLowestFree, SlotFree, HasFreeSlot, Scan.IsEmptyWordSlot;
      slot := Scan.ScanFastPairs(bitmap);
      if slot != BAD_BIT_SLOT {
        EmptyWordIsFree(States(), slot);
        return;
      }
      slot := Scan.ScanSlowPairs(bitmap);
      LowestFreeExact(States(), slot);
    }

    /** check_canary on chunk c, without the abort. */
    method CheckCanary(c: nat) returns (ok: bool)
      requires Shape() && c < chunkCount
      ensures ok == ChunkCanaryIntact(View(), c)
      ensures c * chunkSize + chunkSize <= user.Length
      ensures var lo, canary := c * chunkSize, CanaryOf(canarySecret, base + c * chunkSize);
        ok <==> user[lo..lo + 8] == canary && user[lo + chunkSize - 8..lo + chunkSize] == canary
    {
      hide CanaryOf, Decode;
      ChunkInside(chunkSize, c);
      var off := c * chunkSize;
      var canary := CanaryOf(canarySecret, base + off);
      ok := user[off..off + 8] == canary && user[off + chunkSize - 8..off + chunkSize] == canary;
    }

    /** GET_BIT(b, which_bit) and GET_BIT(b, which_bit + 1) for a bit slot. */
    method ReadBits(bitslot: nat) returns (low: bool, high: bool)
      requires Shape() && bitslot % 2 == 0 && bitslot / 2 < |States()|
      ensures low == !IsFree(States()[bitslot / 2]) && high == HasCanary(States()[bitslot / 2])
    {
      hide Decode, Bit;
      FreeChunkBits(bitmap[..], bitslot / 2);
      var b := bitmap[bitslot / 64];
      low, high := Bit(b, bitslot % 64), Bit(b, bitslot % 64 + 1);
    }

    /** SET_BIT(b, which_bit); UNSET_BIT(b, which_bit + 1), written back. */
    method WriteUsedBits(bitslot: nat)
      requires Shape() && bitslot % 2 == 0 && bitslot / 2 < |States()|
      modifies bitmap
      ensures States() == old(States())[bitslot / 2 := InUse]
    {
      hide Decode, Bit, SetBit, UnsetBit;
      FreeChunkBits(bitmap[..], bitslot / 2);
      var dword, which := bitslot / 64, bitslot % 64;
      var b := UnsetBit(SetBit(bitmap[dword], which), which + 1);
      bitmap[dword] := b;
      assert bitmap[..] == old(bitmap[..])[bitslot / 2 / 32 := b];
      DecodeUse(old(bitmap[..]), bitslot / 2);
    }

    /** The bookkeeping of one allocation. */
    method MarkInUse(bitslot: nat)
      requires Shape() && bitslot % 2 == 0 && bitslot / 2 < |States()|
      modifies this`nextFreeBitSlot, this`afCount, this`allocCount, bitmap
      ensures Shape() && user[..] == old(user[..])
      ensures View() == old(View()).(states := old(States())[bitslot / 2 := InUse],
                                     cache := old(CacheView()).(primed := BAD_BIT_SLOT),
                                     afCount := old(afCount) + 1,
                                     allocCount := (old(allocCount) + 1) % 0x1_0000_0000)
    {
      hide Decode;
      nextFreeBitSlot := BAD_BIT_SLOT;
      afCount := afCount + 1;
      allocCount := (allocCount + 1) % 0x1_0000_0000;
      WriteUsedBits(bitslot);
    }

    /** The checks of _iso_alloc_bitslot_from_zone: the chunk must be free, and if
        it was used before its canary must be intact and is then cleared. */
    method ClearOldCanary(bitslot: nat, ghost z: ZoneView) returns (aborted: bool)
      requires Shape() && View() == z && bitslot % 2 == 0 && bitslot / 2 < |z.states|
      modifies user
      ensures GeometryOk(z) && ChunkOffset(z, bitslot / 2) + 8 <= ZONE_USER_SIZE
      ensures aborted <==> !Available(z, bitslot / 2)
      ensures user[..] ==
        if !aborted && HasCanary(z.states[bitslot / 2]) then WriteAt(z.mem, ChunkOffset(z, bitslot / 2), ZERO_QWORD)
        else z.mem
    {
      hide Decode, ChunkCanaryIntact, WriteAt, HasCanary, IsFree, BitmapSize;
      AddressableChunks(chunkSize);
      AddressableIsReal(z, bitslot / 2);
      AvailableExactly(z, bitslot / 2);
      hide MaxBitmapIdx, ChunkCount, Available;
      var low, high := ReadBits(bitslot);
      if low { return true; }
      if high {
        var ok := CheckCanary(bitslot / 2);
        if !ok { return true; }
        Store(user, bitslot / 2 * chunkSize, ZERO_QWORD);
      }
      aborted := false;
    }

    /** _iso_alloc_bitslot_from_zone on the primed slot, which _iso_alloc has just
        read and cleared. It aborts exactly if the chunk is not free, or was used before and
        its canary is damaged; in a zone in order neither can happen. */
    method AllocPrimed() returns (p: nat, aborted: bool)
      requires Shape() && 0 <= nextFreeBitSlot && nextFreeBitSlot % 2 == 0 && nextFreeBitSlot / 2 < |States()|
      modifies this`nextFreeBitSlot, this`afCount, this`allocCount, bitmap, user
      ensures GeometryOk(old(View()))
      ensures aborted <==> !Available(old(View()), old(nextFreeBitSlot) / 2)
      ensures aborted ==> View() == old(View())
      ensures old(ZoneOk(View())) ==> !aborted && ZoneOk(View())
      ensures Shape()
      ensures !aborted ==> var c := old(nextFreeBitSlot) / 2;
              && IsFree(old(States())[c])
              && ChunkOffset(old(View()), c) + 8 <= ZONE_USER_SIZE
              && View() == TakeChunk(old(View()), c)
              && p == ChunkAddress(old(View()), c)
      ensures !aborted ==> TakesChunk(old(View()), View(), p)
    {
      hide Decode, ZoneOk, ChunkCanaryIntact, WriteAt, ChunkCount, MaxBitmapIdx, BitmapSize, IsFree;
      hide TakesChunk, CanaryOkAt, GeometryOk, TakeChunk, Available;
      ghost var z := View();
      var bitslot := nextFreeBitSlot;
      ghost var c := bitslot / 2;
      ViewGeometry();
      if ZoneOk(z) { PrimedTakes(z, c); }
      p := base + bitslot / 2 * chunkSize;
      ChunkStarts(z, c);
      if p >= base + ZONE_USER_SIZE { return p, true; }
      aborted := ClearOldCanary(bitslot, z);
      if aborted { return; }
      AvailableIsFree(z, c);
      TakenParts(z, c);
      MarkInUse(bitslot);
      TakenIs(z, c, user[..]);
    }

    lemma ViewGeometry()
      requires Shape()
      ensures GeometryOk(View())
    {
      hide Decode, BitmapSize, ChunkCount;
    }

    /** SET_BIT(b, which_bit + 1), and UNSET_BIT(b, which_bit) unless the free is
        permanent, written back. */
    method WriteFreedBits(bitslot: nat, permanent: bool)
      requires Shape() && bitslot % 2 == 0 && bitslot / 2 < |States()| && !IsFree(States()[bitslot / 2])
      modifies bitmap
      ensures States() == old(States())[bitslot / 2 := if permanent then Canary else Freed]
    {
      hide Decode, Bit, SetBit, UnsetBit;
      FreeChunkBits(bitmap[..], bitslot / 2);
      ghost var words := bitmap[..];
      var dword, which := bitslot / 64, bitslot % 64;
      var b := SetBit(bitmap[dword], which + 1);
      if permanent {
        DecodeRetireChunk(words, bitslot / 2);
      } else {
        DecodeFree(words, bitslot / 2);
        b := UnsetBit(b, which);
      }
      bitmap[dword] := b;
      assert bitmap[..] == words[bitslot / 2 / 32 := b];
    }

    /** The poison of a permanent free and the two canaries. */
    method WriteFreedMemory(c: nat, permanent: bool)
      requires Shape() && c < chunkCount
      modifies user
      ensures c * chunkSize + chunkSize <= ZONE_USER_SIZE
      ensures user[..] == FreedMemory(old(View()), c, permanent)
    {
      hide Decode, CanaryOf, WriteAt, WriteCanary, MaxBitmapIdx, BitmapSize, ChunkCount;
      ChunkInside(chunkSize, c);
      if permanent {
        Store(user, c * chunkSize, seq(chunkSize, _ => POISON_BYTE));
      }
      PutCanary(c);
    }

    /** The check of the chunk above. The bit after the last addressable chunk is
        read from beyond the bitmap; the caller supplies what is found there. */
    method CheckAbove(c: nat, beyond: bool) returns (aborted: bool)
      requires Shape() && c < |States()| <= chunkCount
      ensures aborted <==>
        c + 1 < chunkCount && HighBitAfter(View(), c, beyond) && !ChunkCanaryIntact(View(), c + 1)
    {
      hide Decode, ChunkCanaryIntact, HasCanary, MaxBitmapIdx, BitmapSize, ChunkCount;
      if c + 1 == chunkCount { return false; }
      var high := beyond;
      if 2 * (c + 1) / 64 < maxBitmapIdx {
        var low;
        low, high := ReadBits(2 * (c + 1));
      }
      if !high { return false; }
      var ok := CheckCanary(c + 1);
      aborted := !ok;
    }

    /** The check of the chunk below. */
    method CheckBelow(c: nat) returns (aborted: bool)
      requires Shape() && c < |States()| <= chunkCount
      ensures aborted <==>
        c != 0 && HasCanary(States()[c - 1]) && !ChunkCanaryIntact(View(), c - 1)
    {
      hide Decode, ChunkCanaryIntact, HasCanary, MaxBitmapIdx, BitmapSize, ChunkCount;
      if c == 0 { return false; }
      var low, high := ReadBits(2 * (c - 1));
      if !high { return false; }
      var ok := CheckCanary(c - 1);
      aborted := !ok;
    }

    /** The neighbour checks. */
    method NeighbourCheck(c: nat, beyond: bool) returns (aborted: bool)
      requires Shape() && c < |States()|
      ensures GeometryOk(View()) && aborted == NeighbourAborts(View(), c, beyond)
    {
      hide Decode, ChunkCanaryIntact, HasCanary, MaxBitmapIdx, BitmapSize, ChunkCount;
      AddressableChunks(chunkSize);
      aborted := CheckAbove(c, beyond);
      if !aborted {
        aborted := CheckBelow(c);
      }
    }

    /** What iso_free_chunk_from_zone accepts: an in-use addressable chunk. */
    ghost predicate Freeable(p: nat)
      requires Shape()
      reads this, bitmap
    {
      && base <= p
      && (p - base) % chunkSize == 0
      && (p - base) / chunkSize < |States()|
      && !IsFree(States()[(p - base) / chunkSize])
    }

    /** The address is that of an addressable chunk in state 10 or 11. */
    lemma FreeableExactly(p: nat)
      requires Shape() && base <= p
      ensures Freeable(p) <==>
        exists c: nat :: c < |States()| && p == base + c * chunkSize && States()[c] in {InUse, Canary}
    {
      hide Decode, ChunkCount, BitmapSize, MaxBitmapIdx;
      var c := (p - base) / chunkSize;
      if Freeable(p) { assert p == base + c * chunkSize && States()[c] in {InUse, Canary}; }
      forall d: nat | d < |States()| && p == base + d * chunkSize ensures d == c && (p - base) % chunkSize == 0 {
        ChunkOfOffset(chunkSize, d);
      }
    }

    /** iso_free_chunk_from_zone. Misaligned pointers, unaddressed chunks and
        double frees abort and change nothing; freeing an in-use chunk aborts
        only through the neighbour checks. */
    method FreeChunk(p: nat, permanent: bool, beyond: bool) returns (aborted: bool)
      requires Shape() && freeBitSlotsIndex <= ZONE_FREE_LIST_SZ
      requires base <= p < base + ZONE_USER_SIZE
      modifies this`freeBitSlotsIndex, this`isFull, this`afCount, freeBitSlots, bitmap, user
      ensures Shape()
      ensures !old(Freeable(p)) ==> aborted && View() == old(View())
      ensures old(Freeable(p)) ==> FreeOutcome(old(View()), View(), (p - base) / chunkSize, permanent, beyond, aborted)
    {
      hide Decode, ZoneOk, Miscounted, IsFree, NeighbourAborts, FreedMemory, Insert;
      hide MaxBitmapIdx, BitmapSize, ChunkCount, ReleaseChunk, ChunkFreed;
      var offset := p - base;
      var c := offset / chunkSize;
      if offset % chunkSize != 0 { return true; }
      AddressableChunks(chunkSize);
      if 2 * c / 64 >= maxBitmapIdx { return true; }
      var low, _ := ReadBits(2 * c);
      if !low { return true; }
      ghost var z := View();
      aborted := ReleaseChecked(c, permanent, beyond);
      ReleasedParts(z, c, permanent);
    }

    /** An in-use chunk is released, then its neighbours are checked. */
    method ReleaseChecked(c: nat, permanent: bool, beyond: bool) returns (aborted: bool)
      requires Shape() && freeBitSlotsIndex <= ZONE_FREE_LIST_SZ && c < |States()| && !IsFree(States()[c])
      modifies this`freeBitSlotsIndex, this`isFull, this`afCount, freeBitSlots, bitmap, user
      ensures Shape() && ChunkOffset(old(View()), c) + chunkSize <= ZONE_USER_SIZE
      ensures View() == ReleaseChunk(old(View()), c, permanent)
      ensures old(ZoneOk(View())) ==> if old(States())[c] == InUse then ZoneOk(View()) else Miscounted(View())
      ensures GeometryOk(View()) && aborted == NeighbourAborts(View(), c, beyond)
    {
      hide Decode, ZoneOk, Miscounted, NeighbourAborts, FreedMemory, Insert, MaxBitmapIdx, BitmapSize, ChunkCount;
      ghost var z := View();
      if ZoneOk(z) {
        if z.states[c] == InUse { ReleaseKeepsOk(z, c, permanent); } else { ReleaseCanary(z, c, permanent); }
      }
      ReleaseFields(c, permanent);
      aborted := NeighbourCheck(c, beyond);
    }

    /** The bitmap and the user pages after a free. */
    method WriteFreed(c: nat, permanent: bool)
      requires Shape() && c < |States()| && !IsFree(States()[c])
      modifies bitmap, user
      ensures ChunkOffset(old(View()), c) + chunkSize <= ZONE_USER_SIZE
      ensures View() == old(View()).(states := old(States())[c := if permanent then Canary else Freed],
                                     mem := FreedMemory(old(View()), c, permanent))
    {
      hide Decode, FreedMemory, IsFree, BitmapSize;
      AddressableChunks(chunkSize);
      hide MaxBitmapIdx, ChunkCount;
      ghost var z := View();
      WriteFreedMemory(c, permanent);
      ghost var m := user[..];
      WriteFreedBits(2 * c, permanent);
      assert user[..] == m && CacheView() == z.cache;
    }

    /** The state change of one free. */
    method ReleaseFields(c: nat, permanent: bool)
      requires Shape() && c < |States()| && !IsFree(States()[c]) && freeBitSlotsIndex <= ZONE_FREE_LIST_SZ
      modifies this`freeBitSlotsIndex, this`isFull, this`afCount, freeBitSlots, bitmap, user
      ensures Shape() && ChunkOffset(old(View()), c) + chunkSize <= ZONE_USER_SIZE
      ensures View() == ReleaseChunk(old(View()), c, permanent)
    {
      hide Decode, FreedMemory, Insert, MaxBitmapIdx, BitmapSize, ChunkCount, Appended;
      WriteFreed(c, permanent);
      if !permanent {
        InsertFreeBitSlot(2 * c);
      }
      afCount := if afCount == 0 then 0xffff_ffff else afCount - 1;
    }

    /** An unused, zeroed entry of the zones array. */
    constructor ()
      ensures nextSzIndex == 0
      ensures fresh(user) && fresh(bitmap) && fresh(freeBitSlots)
    {
      base, nextFreeBitSlot, canarySecret, maxBitmapIdx, chunkSize := 0, 0, 0, 0, 0;
      freeBitSlotsUsable, freeBitSlotsIndex, isFull, internal := 0, 0, false, false;
      afCount, chunkCount, allocCount, index, nextSzIndex, bitmapSize := 0, 0, 0, 0, 0, 0;
      user, bitmap, freeBitSlots, preallocatedBitmapIdx := new Byte[0], new bv64[0], new int[0], -1;
    }

    /** One pass of the create_canary_chunks loop. */
    method CreateCanaryChunk(draw: nat) returns (ghost c: nat)
      requires Shape() && maxBitmapIdx >= 2
      modifies bitmap, user
      ensures c == 32 * CanaryWord(draw, maxBitmapIdx - 1) < |old(States())|
      ensures ChunkOffset(old(View()), c) + chunkSize <= ZONE_USER_SIZE
      ensures View() == if IsFree(old(States())[c]) then WithCanary(old(View()), c) else old(View())
    {
      hide Decode, Bit, SetBit, CanaryOf, WriteCanary;
      var bmIdx := CanaryWord(draw, maxBitmapIdx - 1);
      c := 32 * bmIdx;
      AddressableChunks(chunkSize);
      ChunkInside(chunkSize, c);
      ghost var words := bitmap[..];
      FreeChunkBits(words, 32 * bmIdx);
      assert 32 * bmIdx / 32 == bmIdx && 32 * bmIdx % 32 == 0;
      if Bit(bitmap[bmIdx], 0) { return; }
      var b := SetBit(SetBit(bitmap[bmIdx], 0), 1);
      bitmap[bmIdx] := b;
      assert bitmap[..] == words[bmIdx := b];
      DecodeCanary(words, bmIdx);
      PutCanary(32 * bmIdx);
    }

    /** write_canary. */
    method PutCanary(c: nat)
      requires Shape() && c < chunkCount
      modifies user
      ensures c * chunkSize + chunkSize <= ZONE_USER_SIZE
      ensures var canary := CanaryOf(canarySecret, base + c * chunkSize);
        user[..] == WriteCanary(old(user[..]), c * chunkSize, chunkSize, canary)
    {
      hide Decode, CanaryOf, WriteAt;
      AddressableChunks(chunkSize);
      ChunkInside(chunkSize, c);
      var canary := CanaryOf(canarySecret, base + c * chunkSize);
      Store(user, c * chunkSize, canary);
      Store(user, c * chunkSize + chunkSize - 8, canary);
    }

    /** create_canary_chunks. */
    method CreateCanaryChunks() returns (ghost draws: seq<nat>)
      requires Shape() && Seeded(View(), 0)
      modifies bitmap, user
      ensures Seeded(View(), CanaryTarget(chunkSize))
      ensures View() == old(View()).(states := States(), mem := user[..])
      ensures DrawnBy(View(), draws)
      ensures |draws| == if chunkSize > 8192 then 0 else chunkCount / 128
    {
      hide Decode, Seeded, WithCanary, ChunkCount, MaxBitmapIdx, BitmapSize, CanaryWord, DrawnOnly;
      AddressableChunks(chunkSize);
      draws := [];
      NoneDrawn(View(), maxBitmapIdx - 1);
      if chunkSize > MAX_DEFAULT_ZONE_SZ { return; }
      var canaryCount := chunkCount / CANARY_COUNT_DIV;
      for i: nat := 0 to canaryCount
        invariant Seeded(View(), i)
        invariant View() == old(View()).(states := States(), mem := user[..])
        invariant |draws| == i && DrawnOnly(States(), draws, maxBitmapIdx - 1)
      {
        var draw: nat := *;
        DrawCanary(draw, i, draws);
        draws := draws + [draw];
      }
    }

    /** One more drawn chunk is a canary. */
    method DrawCanary(draw: nat, ghost i: nat, ghost draws: seq<nat>)
      requires Shape() && chunkSize <= MAX_DEFAULT_ZONE_SZ && i < chunkCount / CANARY_COUNT_DIV
      requires Seeded(View(), i) && |draws| == i && DrawnOnly(States(), draws, maxBitmapIdx - 1)
      modifies bitmap, user
      ensures Seeded(View(), i + 1) && DrawnOnly(States(), draws + [draw], maxBitmapIdx - 1)
      ensures View() == old(View()).(states := States(), mem := user[..])
    {
      hide Decode, Seeded, WithCanary, ChunkCount, MaxBitmapIdx, BitmapSize, CanaryWord, DrawnOnly;
      AddressableChunks(chunkSize);
      ghost var z := View();
      ghost var c := CreateCanaryChunk(draw);
      if IsFree(z.states[c]) { SeedOne(z, c, i); } else { SeededMore(z, i); }
      SeedStates(z, c, i, View());
      DrawMore(z.states, View().states, draws, maxBitmapIdx - 1, draw);
    }

    /** The scalar fields of a new zone; the old next_sz_index is kept. */
    method ResetFields(size: nat, isInternal: bool, at: nat, pages: nat)
      requires IsChunkSize(size)
      modifies this`base, this`chunkSize, this`internal, this`index, this`nextFreeBitSlot, this`freeBitSlotsUsable,
               this`freeBitSlotsIndex, this`isFull, this`afCount, this`allocCount, this`chunkCount, this`bitmapSize,
               this`maxBitmapIdx, this`canarySecret
      ensures base == pages && chunkSize == size && internal == isInternal && index == at
      ensures freeBitSlotsUsable == 0 && freeBitSlotsIndex == 0
      ensures afCount == 0 && allocCount == 0 && !isFull
      ensures chunkCount == ChunkCount(size) && bitmapSize == BitmapSize(size) && maxBitmapIdx == MaxBitmapIdx(size)
    {
      hide ChunkCount, BitmapSize;
      base, chunkSize, internal, index := pages, size, isInternal, at;
      nextFreeBitSlot, freeBitSlotsUsable, freeBitSlotsIndex := 0, 0, 0;
      isFull, afCount, allocCount := false, 0, 0;
      chunkCount, bitmapSize := ChunkCount(size), BitmapSize(size);
      maxBitmapIdx := bitmapSize / 8;
      var secret: bv64 := *;
      canarySecret := secret;
    }

    /** The zeroed bitmap the zone was given, and fresh user pages and cache. */
    method AttachMappings(words: array<bv64>, slot: int)
      requires IsChunkSize(chunkSize) && chunkCount == ChunkCount(chunkSize)
      requires bitmapSize == BitmapSize(chunkSize) && maxBitmapIdx == MaxBitmapIdx(chunkSize)
      requires words.Length == maxBitmapIdx && forall i: nat :: i < words.Length ==> words[i] == 0
      modifies this`bitmap, this`user, this`freeBitSlots, this`preallocatedBitmapIdx
      ensures Shape() && bitmap == words && preallocatedBitmapIdx == slot && fresh(user) && fresh(freeBitSlots)
      ensures Seeded(View(), 0) && CountOf(States(), InUse) == 0
    {
      hide Decode, CanaryOf, MaxBitmapIdx, BitmapSize, ChunkCount, CountOf, Seeded;
      bitmap, preallocatedBitmapIdx := words, slot;
      user := new Byte[ZONE_USER_SIZE](_ => 0);
      freeBitSlots := new int[ZONE_FREE_LIST_SZ](_ => 0);
      ZeroBitmapSeeded(bitmap[..], View());
    }

    /** _iso_new_zone on one entry of the zones array, for any pages, secret,
        canary positions, refill start and shuffle. The bitmap is a slot of a shared page
        or memory of its own. */
    method Build(size: nat, isInternal: bool, at: nat, pages: nat, words: array<bv64>, slot: int)
      requires IsChunkSize(size)
      requires words.Length == MaxBitmapIdx(size) && forall i: nat :: i < words.Length ==> words[i] == 0
      modifies this, words
      ensures Shape() && bitmap == words && preallocatedBitmapIdx == slot && fresh(user) && fresh(freeBitSlots)
      ensures FreshZone(View())
      ensures base == pages && chunkSize == size && internal == isInternal && index == at
      ensures nextSzIndex == old(nextSzIndex)
    {
      hide Decode, Seeded, FreshZone, Insert, NextSlot, CountOf, FirstFree, Distinct, Deranged, DrawnBy;
      hide MaxBitmapIdx, BitmapSize, ChunkCount, NoneMissed, Advanced;
      ResetFields(size, isInternal, at, pages);
      AttachMappings(words, slot);
      ghost var draws := CreateCanaryChunks();
      ghost var z := View();
      ghost var start := FillFreeBitSlots();
      ghost var c := CacheView();
      var slot := GetNextFreeBitSlot();
      FreshOk(z, c, start, draws);
    }
  }

  lemma ZeroBitmapSeeded(words: seq<bv64>, z: ZoneView)
    requires forall i: nat :: i < |words| ==> words[i] == 0
    requires GeometryOk(z) && z.states == Decode(words) && (forall k: nat :: k < |z.mem| ==> z.mem[k] == 0)
    ensures Seeded(z, 0) && CountOf(z.states, InUse) == 0
  {
    hide Decode, CanaryOf, CanaryAt;
    forall c: nat | c < |z.states| ensures z.states[c] == NeverUsed {
      DecodeZeroWord(words, c / 32);
    }
    if z.states[..] == [] {} else {
      NoneCounted(z.states, Canary);
      NoneCounted(z.states, InUse);
    }
  }

  lemma NoneDrawn(z: ZoneView, n: nat)
    requires Seeded(z, 0) && n > 0
    ensures DrawnOnly(z.states, [], n)
  {
    hide CanariesIntact;
    forall c: nat | c < |z.states| ensures z.states[c] != Canary {
      assert CountOf(z.states, z.states[c]) > 0;
    }
  }

  /** Whether or not chunk c had been drawn before, it is a canary now. */
  lemma SeedStates(z: ZoneView, c: nat, k: nat, z': ZoneView)
    requires Seeded(z, k) && c < |z.states| && ChunkOffset(z, c) + z.chunkSize <= |z.mem|
    requires z' == if IsFree(z.states[c]) then WithCanary(z, c) else z
    ensures z'.states == z.states[c := Canary]
  {
    hide CanariesIntact, WriteCanary;
  }

  lemma NoneCounted(states: seq<ChunkState>, s: ChunkState)
    requires forall c: nat :: c < |states| ==> states[c] != s
    ensures CountOf(states, s) == 0
  {
  }

  /** From any start word a new zone has a free chunk, so its cache is never
      empty and a slot gets primed. */
  lemma FreshCacheNonEmpty(z: ZoneView, k: nat, start: nat)
    requires Seeded(z, k) && 32 * start < |z.states|
    ensures |FirstFree(z.states, 32 * start)| > 0
  {
    hide FreeIn, CanariesIntact, CountOf, MaxBitmapIdx, BitmapSize;
    assert |z.states| % 32 == 0;
    assert (32 * start + 1) % 32 == 1;
    FreeInComplete(z.states, 32 * start, |z.states|, 32 * start + 1);
  }

  lemma FreshOk(z: ZoneView, c: Cache, start: nat, draws: seq<nat>)
    requires GeometryOk(z) && Seeded(z, CanaryTarget(z.chunkSize)) && 32 * start < |z.states| && DrawnBy(z, draws)
    requires z.afCount == 0 && z.allocCount == 0
    requires |c.slots| == ZONE_FREE_LIST_SZ && c.usable == 0 && c.fill <= ZONE_FREE_LIST_SZ && !c.full
    requires multiset(c.slots[..c.fill]) == multiset(FirstFree(z.states, 32 * start)) && Distinct(c.slots[..c.fill])
    ensures FreshZone(z.(cache := NextSlot(c)))
  {
    hide CanariesIntact, FirstFree, Distinct, CountOf, DrawnOnly, TailZero;
    FreshCacheNonEmpty(z, CanaryTarget(z.chunkSize), start);
    assert |multiset(c.slots[..c.fill])| == c.fill;
    assert |multiset(FirstFree(z.states, 32 * start))| == |FirstFree(z.states, 32 * start)|;
    var d := c.(primed := BAD_BIT_SLOT);
    RefillKeepsOk(z.states, d, 32 * start);
    NextSlotKeepsOk(z.states, d);
    assert NextSlot(d) == NextSlot(c);
    NoneCounted(z.states, InUse);
    SameCanaries(z, z.(cache := NextSlot(c)));
    SameDraws(z, z.(cache := NextSlot(c)), draws);
  }

  lemma SameDraws(z: ZoneView, z': ZoneView, draws: seq<nat>)
    requires DrawnBy(z, draws) && TailZero(z) && z' == z.(cache := z'.cache)
    ensures DrawnBy(z', draws) && TailZero(z')
  {
    hide DrawnOnly;
  }

  lemma SameCanaries(z: ZoneView, z': ZoneView)
    requires GeometryOk(z) && z' == z.(cache := z'.cache)
    ensures CanariesIntact(z') == CanariesIntact(z)
  {
    hide CanaryOf, CanaryAt;
    if CanariesIntact(z) {
      forall c: nat | c < |z'.states| && HasCanary(z'.states[c]) ensures CanaryOkAt(z', c) { assert CanaryOkAt(z, c); }
    }
    if CanariesIntact(z') {
      forall c: nat | c < |z.states| && HasCanary(z.states[c]) ensures CanaryOkAt(z, c) { assert CanaryOkAt(z', c); }
    }
  }

  lemma FillBounded(z: ZoneView)
    requires ZoneOk(z)
    ensures z.cache.fill <= ZONE_FREE_LIST_SZ
  {
  }

  /** The cache is full, or holds every free slot from its start word on. */
  ghost predicate NoneMissed(states: seq<ChunkState>, from: nat, slots: seq<int>) {
    |slots| == 255 || forall c: nat :: from <= c < |states| && IsFree(states[c]) ==> 2 * c in slots
  }

  lemma AllCached(states: seq<ChunkState>, from: nat, slots: seq<int>)
    requires from <= |states| && multiset(slots) == multiset(FirstFree(states, from))
    ensures NoneMissed(states, from, slots)
  {
    hide FreeIn;
    assert |slots| == |multiset(slots)| == |FirstFree(states, from)|;
    forall c: nat | from <= c < |states| && IsFree(states[c]) && |slots| != 255 ensures 2 * c in slots {
      FreeInComplete(states, from, |states|, c);
      assert 2 * c in multiset(FirstFree(states, from));
      assert 2 * c in multiset(slots);
    }
  }

  lemma PrimedTakes(z: ZoneView, c: nat)
    requires ZoneOk(z) && c < |z.states| && z.cache.primed == 2 * c
    ensures Available(z, c)
    ensures ChunkOffset(z, c) + 8 <= |z.mem| && ZoneOk(TakeChunk(z, c))
  {
    hide CanaryOkAt, CacheOk;
    TakeKeepsOk(z, c);
  }

  lemma AvailableExactly(z: ZoneView, c: nat)
    requires GeometryOk(z) && c < |z.states|
    ensures Available(z, c) <==> IsFree(z.states[c]) && (HasCanary(z.states[c]) ==> CanaryOkAt(z, c))
  {
    hide CanaryOkAt, GeometryOk;
  }

  lemma AvailableIsFree(z: ZoneView, c: nat)
    requires GeometryOk(z) && c < |z.states| && Available(z, c)
    ensures IsFree(z.states[c])
  {
  }

  lemma ChunkStarts(z: ZoneView, c: nat)
    requires GeometryOk(z) && c < |z.states|
    ensures ChunkOffset(z, c) + 8 <= |z.mem| == ZONE_USER_SIZE && ChunkOffset(z, c) < ZONE_USER_SIZE
  {
    hide MaxBitmapIdx;
    AddressableIsReal(z, c);
  }

  lemma TakenIs(z: ZoneView, c: nat, m: seq<Byte>)
    requires c < |z.states| && ChunkOffset(z, c) + 8 <= |z.mem|
    requires m == if HasCanary(z.states[c]) then WriteAt(z.mem, ChunkOffset(z, c), ZERO_QWORD) else z.mem
    ensures TakeChunk(z, c) == z.(states := z.states[c := InUse], cache := z.cache.(primed := BAD_BIT_SLOT),
                                  afCount := z.afCount + 1, allocCount := (z.allocCount + 1) % 0x1_0000_0000, mem := m)
  {
    hide WriteAt;
  }

  /** Writing a run of bytes in place. */
  method Store(a: array<Byte>, off: nat, data: seq<Byte>)
    requires off + |data| <= a.Length
    modifies a
    ensures a[..] == WriteAt(old(a[..]), off, data)
  {
    for k := 0 to |data|
      invariant forall j: nat :: j < a.Length ==> a[j] == if off <= j < off + k then data[j - off] else old(a[j])
    {
      a[off + k] := data[k];
    }
    assert a[..] == WriteAt(old(a[..]), off, data);
  }

  lemma PrimedSlotShape(z: ZoneView)
    requires ZoneOk(z) && z.cache.primed != BAD_BIT_SLOT
    ensures 0 <= z.cache.primed < 2 * |z.states| && z.cache.primed % 2 == 0
    ensures IsFree(z.states[z.cache.primed / 2])
    ensures z.cache.primed / 2 < ChunkCount(z.chunkSize)
    ensures z.cache.primed / 2 * z.chunkSize + z.chunkSize <= ZONE_USER_SIZE
  {
    AddressableIsReal(z, z.cache.primed / 2);
  }

  lemma EmptyWordIsFree(states: seq<ChunkState>, slot: int)
    requires |states| % 32 == 0 && Scan.IsEmptyWordSlot(states, slot) && slot != BAD_BIT_SLOT
    ensures SlotFree(states, slot) && slot >= 0 && HasFreeSlot(states)
  {
    var c := slot / 2;
    assert states[c] == NeverUsed && slot == 2 * c;
  }

  lemma LowestFreeExact(states: seq<ChunkState>, slot: int)
    requires IsLowestFree(states, slot)
    ensures slot == BAD_BIT_SLOT <==> !HasFreeSlot(states)
    ensures slot != BAD_BIT_SLOT ==> SlotFree(states, slot) && slot >= 0
  {
  }

  lemma SpentCache(states: seq<ChunkState>, c: Cache)
    requires CacheOk(states, c) && c.primed == BAD_BIT_SLOT
    ensures c.usable <= c.fill <= ZONE_FREE_LIST_SZ
    ensures c.usable < c.fill ==> NextSlot(c).primed != BAD_BIT_SLOT
    ensures c.usable >= c.fill ==> NextSlot(c) == c
  {
  }

  lemma FullHasNoFree(states: seq<ChunkState>, c: Cache)
    requires CacheOk(states, c) && c.full
    ensures !HasFreeSlot(states)
  {
  }

  lemma PrimedHasFree(states: seq<ChunkState>, c: Cache)
    requires CacheOk(states, c) && c.primed != BAD_BIT_SLOT
    ensures HasFreeSlot(states)
  {
  }

  lemma MarkFullOk(states: seq<ChunkState>, c: Cache)
    requires CacheOk(states, c) && c.fill == 0 && c.primed == BAD_BIT_SLOT && !HasFreeSlot(states)
    ensures CacheOk(states, c.(full := true))
  {
  }

  lemma PrimeFoundOk(states: seq<ChunkState>, c: Cache, slot: int)
    requires CacheOk(states, c) && c.fill == 0 && !c.full && SlotFree(states, slot)
    ensures CacheOk(states, c.(primed := slot))
  {
  }
}
