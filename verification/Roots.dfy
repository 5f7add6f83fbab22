// iso_alloc_root and the operations that run under the root lock.
module Roots {
  import opened Sequences
  import opened Words
  import opened Bitmap
  import opened Geometry
  import opened FreeList
  import opened ZoneState
  import opened Zones
  import opened ZoneCaches
  import opened AddressSpaces
  import opened RootState
  import opened RootSteps
  import opened RootContents
  import opened SizeChains
  import opened ZoneChoice
  import opened BitmapPages
  import opened BitmapSlots
  import opened BigZones
  import opened BigLedger
  import BigProtocol

  /** Everything the root uses is mapped. */
  ghost predicate MapsOk(zones: seq<ZoneView>, big: map<nat, seq<Byte>>, parked: map<nat, nat>, zero: nat,
                         mapped: set<Mapping>)
  {
    && (forall i: nat :: i < |zones| ==> zones[i].base >= PAGE_SIZE && ZoneMapping(zones[i].base) in mapped)
    && (forall p :: p in big ==> p > 0 && Mapping(p, |big[p]|) in mapped)
    && (forall p :: p in parked ==> p > 0 && Mapping(p, parked[p]) in mapped)
    && Mapping(zero, PAGE_SIZE) in mapped
    && (forall i: nat :: i < |zones| ==> !InZone(zones[i], zero))
    && zero !in big && zero !in parked
  }

  /** A bitmap is no free-slot cache. */
  ghost predicate IsSlotMemory(o: object) {
    o is array<bv64> && (o as array<bv64>).Length != ZONE_FREE_LIST_SZ
  }

  class Root {
    var zones: seq<Zone>              // zones[0..zones_used]
    var sizeTable: seq<nat>           // zone_lookup_table
    var chunkTable: seq<nat>          // chunk_lookup_table
    var quarantine: seq<nat>          // chunk_quarantine[0..chunk_quarantine_count]
    var big: map<nat, seq<Byte>>      // the pages of the big zones in use
    const lists: BigLists             // big_zone_used and big_zone_free
    var bitmaps: seq<BitmapPage>      // bitmaps, none until they are set up
    const zeroPage: nat               // zero_alloc_page
    const os: AddressSpace

    ghost var live: map<nat, nat>     // what clients hold
    ghost var flushed: nat            // entries a flush in progress has dealt with
    ghost var spare: map<nat, nat>    // the mappings of the big zones kept for reuse
    ghost var records: set<BigZone>   // every big zone record made so far
    ghost var homes: seq<array<bv64>> // the memory of the zones' bitmaps
    ghost var lent: set<Slot>         // the slots of shared bitmap pages that zones have
    ghost var abs: RootView
    ghost var repr: set<object>

    /** The zone objects are separate from each other and show the views zs. */
    ghost predicate Tied(zs: seq<ZoneView>)
      reads this`zones, this`homes, this`repr, repr
    {
      && this !in repr && os !in repr
      && |zs| == |zones| == |homes|
      && (forall i: nat :: i < |zones| ==> zones[i] in repr && zones[i].Footprint() <= repr && zones[i].Shape())
      && (forall i: nat :: i < |zones| ==> zones[i].bitmap == homes[i])
      && (forall i: nat, j: nat :: i < j < |zones| ==> zones[i].Footprint() !! zones[j].Footprint())
      && (forall i: nat :: i < |zones| ==> zones[i].View() == zs[i])
    }

    /** The shared bitmap pages mark the slots lent, and the others are blank. */
    ghost predicate Lent()
      reads this`bitmaps, this`lent, Storage(bitmaps, lent)
    {
      PagesOk(bitmaps, lent)
    }

    ghost predicate PagesIn()
      reads this`bitmaps, this`lent, this`repr
    {
      && (forall o: object :: o in AllSlots(bitmaps) ==> o in repr)
      && (forall o: object :: o in Storage(bitmaps, lent) ==> o in repr && (o is BitmapPage || IsSlotMemory(o)))
    }

    /** The zone objects and the bitmap pages are in order and show the views zs. */
    ghost predicate Housed(zs: seq<ZoneView>)
      reads this`zones, this`homes, this`bitmaps, this`lent, this`repr, repr
    {
      Tied(zs) && PagesIn() && Lent() && SlotTie(zs, bitmaps, homes, lent, -1)
    }

    /** The fields, the zone objects and the abstract root agree. */
    ghost predicate HeapOk()
      reads this, repr, os
    {
      && this !in repr && os !in repr && os.Valid()
      && |abs.zones| == |zones| && Housed(abs.zones)
      && flushed <= |quarantine|
      && abs == RootView(abs.zones, sizeTable, chunkTable, quarantine[flushed..], big, spare, live)
      && MapsOk(abs.zones, big, spare, zeroPage, os.mapped)
    }

    ghost predicate Valid()
      reads this, repr, os
    {
      HeapOk() && RootOk(abs) && flushed == 0
    }

    /** The two lists of big zones hold the mappings in use and those kept for reuse. */
    ghost predicate BigOk()
      reads this`big, this`spare, this`records, lists, records
    {
      Kept(lists, Sizes(big), spare, records)
    }

    /** Big zone records are no part of a zone. */
    ghost predicate Outside()
      reads this`repr, this`records
    {
      lists !in repr && forall z :: z in records ==> z !in repr
    }

    ghost predicate Ready()
      reads this, repr, os, lists, records
    {
      Valid() && BigOk() && Outside()
    }

    /** iso_alloc_new_root: a zeroed root. */
    constructor (os: AddressSpace)
      requires os.Valid()
      modifies os
      ensures Ready() && zones == [] && bitmaps == [] && repr == {} && records == {} && this.os == os && fresh(lists)
      ensures abs == EmptyRoot()
    {
      hide RootOk, EmptyRoot, Kept, HeapOk, MapsOk, AddressSpace.Valid, Sizes;
      this.os := os;
      var secret: bv64 := *;
      lists := new BigLists(secret);
      var zero := os.Mmap(PAGE_SIZE);
      zeroPage := zero;
      var empty := EmptyRoot();
      zones, sizeTable, chunkTable := [], empty.sizeTable, empty.chunkTable;
      quarantine, big := [], map[];
      live, flushed, spare, records, abs, repr := map[], 0, map[], {}, empty, {};
      bitmaps, homes, lent := [], [], {};
      EmptyRootOk();
      EmptyParts();
      NothingMapped(zero, os.mapped);
      new;
      NothingHoused();
      NothingKept(lists);
    }

    lemma NothingHoused()
      requires zones == [] && homes == [] && bitmaps == [] && lent == {} && repr == {} && flushed == 0
      requires abs == RootView([], sizeTable, chunkTable, quarantine, big, spare, live) && os.Valid()
      requires MapsOk([], big, spare, zeroPage, os.mapped)
      ensures HeapOk()
    {
      hide PagesOk, SlotTie, Storage, AllSlots, MapsOk, AddressSpace.Valid;
      NothingLent();
    }

    method ZoneUsable(i: nat, size: nat, ghost zs: seq<ZoneView>) returns (ok: bool, ghost z: ZoneView)
      requires Tied(zs) && i < |zones| && ZoneOk(zs[i])
      modifies zones[i], zones[i].freeBitSlots
      ensures unchanged(os) && Tied(zs[i := z])
      ensures ZoneOk(z) && z == zs[i].(cache := z.cache)
      ensures ok <==> CanServe(zs[i].states, zs[i].chunkSize, size)
      ensures ok ==> z.cache.primed != BAD_BIT_SLOT
    {
      hide ZoneOk, CanServe, Zone.View, Zone.Shape;
      ok, z := ProbeOne(zones[i], size, zs[i]);
    }

    /** is_zone_usable on zone i. */
    method Probe(i: nat, size: nat) returns (ok: bool)
      requires HeapOk() && RootOk(abs) && i < |zones|
      modifies this`abs, zones[i], zones[i].freeBitSlots
      ensures HeapOk() && RootOk(abs)
      ensures abs == old(abs).(zones := abs.zones) && |abs.zones| == |old(abs.zones)|
      ensures abs.zones == old(abs.zones)[i := abs.zones[i]]
      ensures Searched(old(abs.zones)[i], abs.zones[i])
      ensures ok <==> CanServe(old(abs.zones)[i].states, old(abs.zones)[i].chunkSize, size)
      ensures ok ==> abs.zones[i].cache.primed != BAD_BIT_SLOT
    {
      hide RootOk, ZoneOk, MapsOk, CanServe, Tied, Lent, SlotTie, Storage, AllSlots;
      ghost var r := abs;
      RootZoneOk(r, i);
      ghost var z;
      ZoneHome(i);
      ok, z := ZoneUsable(i, size, r.zones);
      abs := r.(zones := r.zones[i := z]);
      ProbeKeeps(r, i, z, abs);
      MapsSame(r, abs, zeroPage, os.mapped);
      SlotTieSame(r.zones, abs.zones, bitmaps, homes, lent);
    }

    method ZoneTake(i: nat, ghost zs: seq<ZoneView>) returns (p: nat, ghost c: nat)
      requires Tied(zs) && i < |zones| && ZoneOk(zs[i]) && zs[i].cache.primed != BAD_BIT_SLOT
      modifies zones[i], zones[i].bitmap, zones[i].user
      ensures unchanged(os) && c < |zs[i].states| && zs[i].cache.primed == 2 * c
      ensures ChunkOffset(zs[i], c) + 8 <= |zs[i].mem|
      ensures p == ChunkAddress(zs[i], c)
      ensures Tied(zs[i := TakeChunk(zs[i], c)])
    {
      hide ZoneOk, TakeChunk, Zone.View, Zone.Shape;
      p, c := TakeOne(zones[i], zs[i]);
    }

    /** The tail of _iso_alloc: hand out the primed chunk of zone i. */
    method TakeFrom(i: nat, size: nat) returns (p: nat, ghost e: Event)
      requires HeapOk() && RootOk(abs) && i < |zones|
      requires abs.zones[i].cache.primed != BAD_BIT_SLOT && size <= abs.zones[i].chunkSize
      modifies this`abs, this`live, zones[i], zones[i].bitmap, zones[i].user
      ensures HeapOk() && RootOk(abs)
      ensures e.Take? && e.i == i && e.size == size && Step(old(abs), e, abs)
      ensures e.c < |old(abs.zones)[i].states| && p == ChunkAddress(old(abs.zones)[i], e.c)
    {
      hide RootOk, ZoneOk, MapsOk, TakeChunk, Step, Tied, Lent, SlotTie, Storage, AllSlots;
      ghost var r := abs;
      RootZoneOk(r, i);
      ghost var c;
      ZoneHome(i);
      p, c := ZoneTake(i, r.zones);
      live := live[p := size];
      abs := r.(zones := r.zones[i := TakeChunk(r.zones[i], c)], live := live);
      e := Take(i, c, size);
      TakeKeeps(r, i, c, size, TakeChunk(r.zones[i], c), p, abs, zeroPage, os.mapped);
      TakeShape(r.zones[i], c);
      SlotTieSame(r.zones, abs.zones, bitmaps, homes, lent);
    }

    // ---------------------------------------------------------- finding a zone

    /** The first loop of find_suitable_zone: the request is widened until the table has
        an entry for it or it exceeds 1024 bytes. */
    method GrowRequest(orig: nat) returns (size: nat, ghost n: nat)
      requires |sizeTable| == ZONE_LOOKUP_TABLE_LEN && IsChunkSize(orig)
      ensures IsChunkSize(size) && size == Widened(orig, n) == DoubledTo(orig, n) && SettlesOn(sizeTable, orig, n)
      ensures forall j: nat :: j < n ==> Widened(orig, j) <= 1024
    {
      hide Wider, IsChunkSize, DoubledTo;
      AlignedSize(orig);
      size, n := orig, 0;
      while size <= 1024
        invariant IsChunkSize(size) && size == Widened(orig, n)
        invariant forall j: nat :: j < n ==> Widened(orig, j) <= 1024 && sizeTable[SizeIndex(Widened(orig, j))] == 0
        decreases 2080 - size
      {
        if sizeTable[SizeIndex(size)] == 0 {
          WiderFits(size);
          size, n := Wider(size), n + 1;
        } else {
          break;
        }
      }
      forall j: nat | j <= n ensures Widened(orig, j) == DoubledTo(orig, j) { WidenedExactly(orig, j); }
      SizeInTable(size);
    }

    /** The fast path: walk the size class. The walk ends because next_sz_index
        always leads to a smaller index; neither mismatch abort can happen. */
    method WalkChain(size: nat) returns (at: int, aborted: bool)
      requires HeapOk() && RootOk(abs) && IsChunkSize(size)
      modifies this`abs, repr
      ensures HeapOk() && RootOk(abs) && Step(old(abs), Search(abs.zones), abs)
      ensures !aborted && -1 <= at < |zones|
      ensures at >= 0 ==> Suitable(abs.zones[at], size) && abs.zones[at].chunkSize == size
      ensures FirstServing(old(abs.zones), ClassZones(old(abs), size), size, at)
    {
      hide RootOk, MapsOk, Housed, Step, ChainsOk, ZoneOk, Serving, CanServe, IsChunkSize, AddressSpace.Valid, Chain;
      ghost var r0 := abs;
      SearchNone(r0);
      RootTables(abs);
      at, aborted := -1, false;
      SizeInTable(size);
      var i := sizeTable[SizeIndex(size)];
      if i == 0 { return; }
      ChainHead(abs, SizeIndex(size));
      SizeIndexExact(size);
      ghost var past: seq<nat> := [];
      while i < |zones|
        invariant HeapOk() && RootOk(abs) && Step(r0, Search(abs.zones), abs)
        invariant zones == old(zones) && repr == old(repr)
        invariant 0 < i < |zones| && abs.zones[i].internal && abs.zones[i].chunkSize == size
        invariant ClassZones(r0, size) == past + Chain(r0.zones, i)
        invariant forall k: nat :: k < |past| ==> !Serving(r0.zones, past[k], size)
        decreases i
      {
        ZoneFields(i);
        if zones[i].chunkSize != size { return -1, true; }
        if !zones[i].internal { return -1, true; }
        ghost var r := abs;
        var ok := Probe(i, size);
        ProbedServing(r0, r, i, size);
        SearchMore(r0, r, i, abs);
        if ok {
          StopsHere(r0.zones, past, i, size);
          return i, false;
        }
        ChainNext(abs, i);
        ChainLink(r0, abs, i);
        ZoneFields(i);
        if zones[i].nextSzIndex != 0 {
          past := past + [i];
          i := zones[i].nextSzIndex;
        } else {
          break;
        }
      }
    }

    /** What a zone object shows is what its view says. */
    lemma ZoneFields(i: nat)
      requires HeapOk() && i < |zones|
      ensures zones[i] in repr && zones[i].freeBitSlots in repr
      ensures zones[i].chunkSize == abs.zones[i].chunkSize && zones[i].internal == abs.zones[i].internal
      ensures zones[i].nextSzIndex == abs.zones[i].nextSz && zones[i].base == abs.zones[i].base
    {
    }

    /** find_suitable_zone. It never aborts; the zone it returns is internal, has a
        primed free slot and large enough chunks, less than eight times the request
        above 1024 bytes and at most 2080 bytes otherwise; and it returns none only
        if every internal zone that passes the waste filter is full. */
    method FindSuitableZone(orig: nat) returns (at: int, aborted: bool)
      requires HeapOk() && RootOk(abs) && IsChunkSize(orig)
      modifies this`abs, repr
      ensures HeapOk() && RootOk(abs) && Step(old(abs), Search(abs.zones), abs)
      ensures !aborted && -1 <= at < |zones|
      ensures at >= 0 ==> Suitable(abs.zones[at], orig)
      ensures at >= 0 && orig > 1024 ==> abs.zones[at].chunkSize < 8 * orig
      ensures at >= 0 && orig <= 1024 ==> abs.zones[at].chunkSize <= 2080
      ensures at < 0 ==> NoneFits(abs, orig)
      ensures Selects(old(abs), orig, at)
    {
      hide RootOk, MapsOk, Housed, Step, ZoneOk, Eligible, SettlesOn, DoubledTo, FirstServing, ClassZones;
      ghost var r0 := abs;
      RootTables(abs);
      ghost var n;
      var size;
      size, n := GrowRequest(orig);
      WidenedBounds(orig, n);
      at, aborted := WalkChain(size);
      if aborted || at >= 0 {
        WalkSelects(r0, orig, n, at);
        return;
      }
      for i: nat := 0 to |zones|
        invariant HeapOk() && RootOk(abs) && Step(r0, Search(abs.zones), abs)
        invariant zones == old(zones) && repr == old(repr)
        invariant forall j: nat :: j < i ==> !Eligible(r0.zones[j], orig)
      {
        ZoneFields(i);
        ghost var r := abs;
        ProbedEligible(r0, r, i, orig);
        if zones[i].chunkSize < orig || !zones[i].internal { continue; }
        var ok := Probe(i, orig);
        SearchMore(r0, r, i, abs);
        if ok {
          ScanSelects(r0, orig, n, i);
          return i, false;
        }
      }
      ScanSelects(r0, orig, n, -1);
      NoneEligible(r0, abs, orig);
      return -1, false;
    }

    // ----------------------------------------------------------- making a zone

    /** A zone object for fresh pages and a given bitmap. */
    method BuildZone(size: nat, isInternal: bool, at: nat, next: nat, words: array<bv64>, idx: int)
      returns (z: Zone, ghost v: ZoneView)
      requires IsChunkSize(size) && os.Valid() && words.Length == MaxBitmapIdx(size) && AllZero(words)
      modifies os, words
      ensures os.Valid() && fresh(z) && fresh(z.Footprint() - {z, words}) && z.bitmap == words
      ensures z.Shape() && v == z.View() && FreshZone(v) && z.base == v.base
      ensures v.chunkSize == size && v.internal == isInternal && v.index == at && v.nextSz == next
      ensures v.home == if idx < 0 then OwnPages else Shared(Slot(BitmapSize(size), idx))
      ensures v.base >= PAGE_SIZE && v.base % PAGE_SIZE == 0 && os.mapped == old(os.mapped) + {ZoneMapping(v.base)}
      ensures forall m :: m in old(os.mapped) ==>
        Apart(v.base - PAGE_SIZE, ZONE_USER_SIZE + 2 * PAGE_SIZE, m.start, m.size)
    {
      hide FreshZone, Decode, MaxBitmapIdx, BitmapSize, ChunkCount, IsChunkSize;
      z := new Zone();
      var m := os.Mmap(ZONE_USER_SIZE + 2 * PAGE_SIZE);
      z.Build(size, isInternal, at, m + PAGE_SIZE, words, idx);
      v := z.View();
      z.nextSzIndex := next;
      FreshAnyChain(v, next);
      v := v.(nextSz := next);
      assert z.View() == v;
    }

    /** Append a zone object to the zones array. */
    method AttachZone(z: Zone, ghost zs: seq<ZoneView>)
      requires Tied(zs) && z.Shape() && NotInZones(z.bitmap, -1)
      requires this !in z.Footprint() && os !in z.Footprint() && (z.Footprint() - {z.bitmap}) !! repr
      modifies this`zones, this`homes, this`repr
      ensures zones == old(zones) + [z] && homes == old(homes) + [z.bitmap] && repr == old(repr) + z.Footprint()
      ensures Tied(zs + [z.View()])
    {
      hide Decode, MaxBitmapIdx, BitmapSize, ChunkCount;
      ghost var v := z.View();
      zones := zones + [z];
      homes := homes + [z.bitmap];
      repr := repr + z.Footprint();
    }

    /** The end of iso_alloc_initialize_global_root: from now on zones can share pages. */
    method SetUpBitmaps()
      requires HeapOk() && bitmaps == []
      modifies this`bitmaps, this`repr
      ensures HeapOk() && |bitmaps| == |BUCKETS| && fresh(repr - old(repr)) && repr >= old(repr)
    {
      hide MapsOk, PagesOk, SlotTie, Zone.View, Zone.Shape, AddressSpace.Valid, AllSlots, Storage, PageRecords;
      var pages := MakePages();
      SlotTieSetUp(abs.zones, homes, lent, pages);
      StorageGrows(pages, {});
      bitmaps := pages;
      repr := repr + PageRecords(pages) + AllSlots(pages);
    }

    /** A bit of in_use is set exactly if one zone of the root, and only one, has the slot.
        That zone's bitmap is the slot, and a slot no zone has is zero. */
    lemma SlotBits(k: nat, n: nat)
      requires Valid() && k < |bitmaps| && n < |bitmaps[k].slots|
      ensures n < 64 ==>
        (Bit(bitmaps[k].inUse, n) <==> exists i: nat :: i < |zones| && HasSlot(abs.zones[i], bitmaps[k].bucket, n))
      ensures forall i: nat, j: nat ::
        i < |zones| && j < |zones| && HasSlot(abs.zones[i], bitmaps[k].bucket, n) ==>
        (HasSlot(abs.zones[j], bitmaps[k].bucket, n) ==> i == j)
      ensures forall i: nat :: i < |zones| && HasSlot(abs.zones[i], bitmaps[k].bucket, n) ==>
        zones[i].bitmap == bitmaps[k].slots[n] && zones[i].preallocatedBitmapIdx == n
      ensures (forall i: nat :: i < |zones| ==> !HasSlot(abs.zones[i], bitmaps[k].bucket, n)) ==>
        AllZero(bitmaps[k].slots[n])
    {
      hide RootOk, MapsOk, SlotTie, PagesOk, Decode, MaxBitmapIdx, ChunkCount, Bit, AllZero, SlotsOk;
      RootSlots(abs);
      BitIffOneZone(abs.zones, bitmaps, homes, lent, k, n);
    }

    /** The bitmap for a zone of this chunk size. */
    method Claim(size: nat) returns (words: array<bv64>, idx: int, ghost home: Home)
      requires this !in repr && PagesIn() && Lent() && IsChunkSize(size)
      modifies this`lent, PageRecords(bitmaps)
      ensures Lent() && PagesIn() && lent == old(lent) + SlotSet(home)
      ensures words.Length == MaxBitmapIdx(size) && AllZero(words) && HomeTied(bitmaps, home, words)
      ensures home == if idx < 0 then OwnPages else Shared(Slot(BitmapSize(size), idx))
      ensures home.OwnPages? <==> NoSlot(bitmaps, BitmapSize(size), old(lent))
      ensures home.Shared? ==> SlotFits(home.slot) && home.slot !in old(lent)
      ensures home.Shared? ==> forall n: nat :: n < home.slot.number ==> home.slot.(number := n) in old(lent)
      ensures if home.OwnPages? then fresh(words) else words in Spare(bitmaps, old(lent))
      ensures words !in Storage(bitmaps, lent)
    {
      hide PagesOk, HomeTied, BitmapSize, NoSlot;
      words, idx, home := ClaimHome(bitmaps, BitmapSize(size), lent);
      StorageShrinks(bitmaps, lent, home, words);
      lent := lent + SlotSet(home);
    }

    /** The bitmap of a zone that is made, or made again in place of zone `except`. */
    method ClaimFor(size: nat, ghost zs: seq<ZoneView>, ghost except: int)
      returns (words: array<bv64>, idx: int, ghost home: Home)
      requires Tied(zs) && PagesIn() && Lent() && SlotTie(zs, bitmaps, homes, lent, except) && IsChunkSize(size)
      modifies this`lent, PageRecords(bitmaps)
      ensures Tied(zs) && Lent() && PagesIn() && lent == old(lent) + SlotSet(home)
      ensures words.Length == MaxBitmapIdx(size) && AllZero(words) && HomeTied(bitmaps, home, words)
      ensures home == if idx < 0 then OwnPages else Shared(Slot(BitmapSize(size), idx))
      ensures home.OwnPages? <==> NoSlot(bitmaps, BitmapSize(size), old(lent))
      ensures home.Shared? ==> SlotFits(home.slot) && home.slot !in old(lent)
      ensures home.Shared? ==> forall n: nat :: n < home.slot.number ==> home.slot.(number := n) in old(lent)
      ensures if home.OwnPages? then fresh(words) else words in Spare(bitmaps, old(lent))
      ensures words !in Storage(bitmaps, lent) && NotInZones(words, except)
    {
      hide Lent, SlotTie, HomeTied, Decode, MaxBitmapIdx, BitmapSize, ChunkCount, NoSlot, AllZero, SlotFits;
      HomesNotSpare(zs, except);
      words, idx, home := Claim(size);
    }

    /** The memory is part of no zone, all but one of them. */
    ghost predicate NotInZones(words: array<bv64>, except: int)
      reads this`zones, zones
    {
      forall j: nat :: j < |zones| && j != except ==> words !in zones[j].Footprint()
    }

    /** The bitmap of a zone is none of the memory nobody owns. */
    lemma ZoneHome(i: nat)
      requires HeapOk() && i < |zones|
      ensures i < |homes| && zones[i].bitmap == homes[i] && zones[i].Footprint() !! Storage(bitmaps, lent)
    {
      hide SlotTie, PagesOk, MapsOk, Decode, MaxBitmapIdx, BitmapSize, ChunkCount;
      HomesNotSpare(abs.zones, -1);
    }

    lemma HomesNotSpare(zs: seq<ZoneView>, except: int)
      requires Lent() && SlotTie(zs, bitmaps, homes, lent, except)
      ensures |homes| == |zs| && forall j: nat :: j < |homes| && j != except ==> homes[j] !in Spare(bitmaps, lent)
    {
      hide Marked, Blank;
      forall j: nat | j < |homes| && j != except ensures homes[j] !in Spare(bitmaps, lent) {
        HomeNotSpare(zs, bitmaps, homes, lent, except, j);
      }
    }

    /** A new zone object, beside those there are. */
    method BuildBeside(size: nat, isInternal: bool, at: nat, next: nat, words: array<bv64>, idx: int,
                       ghost zs: seq<ZoneView>)
      returns (z: Zone, ghost v: ZoneView)
      requires Tied(zs) && NotInZones(words, -1)
      requires IsChunkSize(size) && os.Valid() && words.Length == MaxBitmapIdx(size) && AllZero(words)
      modifies os, words
      ensures Tied(zs) && NotInZones(words, -1)
      ensures os.Valid() && fresh(z) && fresh(z.Footprint() - {z, words}) && z.bitmap == words
      ensures z.Shape() && v == z.View() && FreshZone(v) && z.base == v.base
      ensures v.chunkSize == size && v.internal == isInternal && v.index == at && v.nextSz == next
      ensures v.home == if idx < 0 then OwnPages else Shared(Slot(BitmapSize(size), idx))
      ensures v.base >= PAGE_SIZE && v.base % PAGE_SIZE == 0 && os.mapped == old(os.mapped) + {ZoneMapping(v.base)}
      ensures forall m :: m in old(os.mapped) ==>
        Apart(v.base - PAGE_SIZE, ZONE_USER_SIZE + 2 * PAGE_SIZE, m.start, m.size)
    {
      hide FreshZone, BitmapSize, IsChunkSize, Zone.View, Zone.Shape, MaxBitmapIdx;
      z, v := BuildZone(size, isInternal, at, next, words, idx);
    }

    /** The zone object of a new zone, with its bitmap, at the end of the zones array. */
    method MakeZone(size: nat, isInternal: bool, next: nat, ghost zs: seq<ZoneView>)
      returns (z: Zone, ghost v: ZoneView)
      requires this !in repr && os !in repr && Tied(zs) && PagesIn() && Lent() && SlotTie(zs, bitmaps, homes, lent, -1)
      requires IsChunkSize(size) && os.Valid()
      modifies this`zones, this`homes, this`lent, this`repr, os, Storage(bitmaps, lent)
      ensures zones == old(zones) + [z] && fresh(repr - old(repr)) && repr >= old(repr) && this !in repr && os !in repr
      ensures Tied(zs + [v]) && PagesIn() && Lent() && SlotTie(zs + [v], bitmaps, homes, lent, -1)
      ensures os.Valid() && FreshZone(v) && z.base == v.base && HomeFits(zs, v, -1)
      ensures v.chunkSize == size && v.internal == isInternal && v.index == |old(zones)| && v.nextSz == next
      ensures v.home.OwnPages? <==> NoSlot(bitmaps, BitmapSize(size), SlotsHeld(zs, -1))
      ensures v.base >= PAGE_SIZE && v.base % PAGE_SIZE == 0 && os.mapped == old(os.mapped) + {ZoneMapping(v.base)}
      ensures forall m :: m in old(os.mapped) ==>
        Apart(v.base - PAGE_SIZE, ZONE_USER_SIZE + 2 * PAGE_SIZE, m.start, m.size)
    {
      hide FreshZone, Tied, Lent, SlotTie, Zone.View, Zone.Shape, NoSlot, HomeTied, HomeFits;
      hide BitmapSize, SlotsHeld;
      hide AllZero, SlotFits, MaxBitmapIdx, IsChunkSize, AddressSpace.Valid, Apart, Spare, AllSlots, PageRecords;
      ghost var held, before := lent, homes;
      TieHeld(zs, bitmaps, homes, lent, -1);
      var words, idx;
      ghost var home;
      words, idx, home := ClaimFor(size, zs, -1);
      z, v := BuildBeside(size, isInternal, |zones|, next, words, idx, zs);
      HomeIsFit(zs, v, held, -1);
      SlotTieAdd(zs, v, bitmaps, before, words, held);
      AttachZone(z, zs);
    }

    /** _iso_new_zone for a new zone. It aborts exactly when the zones array is used up.
        The bitmap takes the lowest slot of its size that no current zone has, and pages of
        its own exactly if there is none. */
    method NewZone(size: nat, isInternal: bool) returns (at: nat, aborted: bool, ghost e: Event)
      requires HeapOk() && RootOk(abs) && size <= SMALL_SIZE_MAX
      modifies this`zones, this`repr, this`sizeTable, this`chunkTable, this`abs, this`homes, this`lent, os
      modifies Storage(bitmaps, lent)
      ensures HeapOk() && RootOk(abs) && fresh(repr - old(repr)) && repr >= old(repr)
      ensures aborted <==> |old(zones)| >= MAX_ZONES
      ensures aborted ==> abs == old(abs) && repr == old(repr)
      ensures !aborted ==> e.AddZone? && Step(old(abs), e, abs)
      ensures !aborted ==> at == |old(zones)| && |zones| == at + 1
      ensures !aborted ==>
        abs.zones[at] == e.zone && e.zone.chunkSize == RoundRequest(size) && e.zone.internal == isInternal
      ensures !aborted ==>
        e.zone.cache.primed != BAD_BIT_SLOT && FreshZone(e.zone) && abs.zones == old(abs.zones) + [e.zone]
      ensures !aborted ==> |old(sizeTable)| == ZONE_LOOKUP_TABLE_LEN && RoundRequest(size) / 16 < ZONE_LOOKUP_TABLE_LEN
      ensures !aborted && isInternal ==>
        && sizeTable == old(sizeTable)[RoundRequest(size) / 16 := at]
        && e.zone.nextSz == old(sizeTable)[RoundRequest(size) / 16]
      ensures !aborted && !isInternal ==> sizeTable == old(sizeTable) && e.zone.nextSz == 0
      ensures !aborted ==>
        e.zone.base >= 4096 && os.mapped == old(os.mapped) + {Mapping(e.zone.base - 4096, 4194304 + 2 * 4096)}
      ensures !aborted ==> (e.zone.home.OwnPages? <==>
        NoSlot(bitmaps, BitmapSize(RoundRequest(size)), SlotsHeld(old(abs.zones), -1)))
    {
      hide RootOk, MapsOk, FreshZone, Step, Tied, Lent, SlotTie, Storage, AllSlots, Zone.View, Zone.Shape, ChunkIndex;
      hide NoSlot, HomeFits;
      hide BitmapSize, SlotsHeld, AddressSpace.Valid;
      at := |zones|;
      if |zones| >= MAX_ZONES {
        e := Search([]);
        return at, true, e;
      }
      ghost var r := abs;
      RootTables(r);
      var s := RoundRequest(size);
      SizeInTable(s);
      var k := SizeIndex(s);
      var next := if isInternal then sizeTable[k] else 0;
      var z;
      ghost var v;
      z, v := MakeZone(s, isInternal, next, r.zones);
      FreshPrimed(v);
      e := EnterZone(z.base, isInternal, s, v, old(os.mapped));
      aborted := false;
    }

    /** The tables learn of the last zone. */
    method EnterZone(base: nat, isInternal: bool, size: nat, ghost v: ZoneView, ghost mapped: set<Mapping>)
      returns (ghost e: Event)
      requires this !in repr && os !in repr && os.Valid() && RootOk(abs)
      requires |zones| == |abs.zones| + 1 <= MAX_ZONES && Tied(abs.zones + [v]) && flushed <= |quarantine|
      requires abs == RootView(abs.zones, sizeTable, chunkTable, quarantine[flushed..], big, spare, live)
      requires v.base >= PAGE_SIZE && v.base % PAGE_SIZE == 0
      requires MapsOk(abs.zones, big, spare, zeroPage, mapped) && os.mapped == mapped + {ZoneMapping(v.base)}
      requires PagesIn() && Lent() && SlotTie(abs.zones + [v], bitmaps, homes, lent, -1)
      requires FreshZone(v) && base == v.base && HomeFits(abs.zones, v, -1) && IsChunkSize(size)
      requires |sizeTable| == ZONE_LOOKUP_TABLE_LEN && |chunkTable| == CHUNK_LOOKUP_TABLE_LEN
      requires v.chunkSize == size && v.internal == isInternal && v.index == |abs.zones|
      requires v.nextSz == if isInternal then sizeTable[SizeIndex(size)] else 0
      requires forall m :: m in mapped ==>
        Apart(v.base - PAGE_SIZE, ZONE_USER_SIZE + 2 * PAGE_SIZE, m.start, m.size)
      modifies this`sizeTable, this`chunkTable, this`abs
      ensures HeapOk() && RootOk(abs) && e == AddZone(v) && Step(old(abs), e, abs) && abs.zones == old(abs.zones) + [v]
      ensures sizeTable == if isInternal then old(sizeTable)[SizeIndex(size) := |old(abs.zones)|] else old(sizeTable)
    {
      hide RootOk, MapsOk, FreshZone, Step, Tied, Lent, SlotTie, Storage, AllSlots, ChunkIndex, HomeFits;
      hide AddressSpace.Valid;
      ghost var r := abs;
      if isInternal { sizeTable := sizeTable[SizeIndex(size) := |zones| - 1]; }
      chunkTable := chunkTable[ChunkIndex(base) := |zones| - 1];
      e := AddZone(v);
      abs := r.(zones := r.zones + [v], sizeTable := sizeTable, chunkTable := chunkTable);
      AddKeeps(r, v, abs, zeroPage, mapped, os.mapped);
    }

    method GiveSlot(bytes: nat, slot: nat)
      requires this !in repr && PagesIn() && Lent() && Slot(bytes, slot) in lent && IsSlot(bitmaps, Slot(bytes, slot))
      modifies this`lent, PageRecords(bitmaps), SlotArray(bitmaps, Slot(bytes, slot))
      ensures PagesIn() && Lent() && lent == old(lent) - {Slot(bytes, slot)}
    {
      hide PagesOk;
      ReleaseSlot(bitmaps, bytes, slot, lent);
      StorageGrows(bitmaps, lent - {Slot(bytes, slot)});
      lent := lent - {Slot(bytes, slot)};
    }

    /** A zone in a shared page gives its slot back. */
    method GiveOne(z: Zone, ghost before: ZoneView) returns (ghost v: ZoneView)
      requires this !in repr && PagesIn() && Lent() && z.Shape() && z.View() == before && z.Footprint() <= repr
      requires before.home.Shared? ==>
        && before.home.slot in lent && IsSlot(bitmaps, before.home.slot)
        && z.bitmap == SlotArray(bitmaps, before.home.slot)
      modifies this`lent, PageRecords(bitmaps), z.bitmap
      ensures PagesIn() && Lent() && lent == old(lent) - SlotSet(before.home)
      ensures z.Shape() && v == z.View() == before.(states := v.states) && z.Footprint() == old(z.Footprint())
      ensures z.bitmap == old(z.bitmap)
    {
      hide Lent, Decode, MaxBitmapIdx, BitmapSize, ChunkCount;
      v := before;
      if z.preallocatedBitmapIdx >= 0 {
        GiveSlot(z.bitmapSize, z.preallocatedBitmapIdx);
        v := z.View();
      } else {
        assert lent - SlotSet(before.home) == lent;
      }
    }

    lemma ZonesNotPages(zs: seq<ZoneView>)
      requires Tied(zs)
      ensures this !in PageRecords(bitmaps)
      ensures forall j: nat :: j < |zones| ==> zones[j].Footprint() !! PageRecords(bitmaps)
    {
      hide Zone.View, Zone.Shape;
    }

    /** The slot of a zone's bitmap is found by its size, given back and cleared; the
        pages of its own of another zone are unmapped. */
    method GiveBack(i: nat, ghost zs: seq<ZoneView>) returns (ghost v: ZoneView)
      requires this !in repr && Tied(zs) && PagesIn() && Lent()
      requires SlotsOk(zs) && SlotTie(zs, bitmaps, homes, lent, -1) && i < |zones|
      modifies this`lent, Storage(bitmaps, lent), zones[i].bitmap
      ensures Tied(zs[i := v]) && PagesIn() && Lent() && v == zs[i].(states := v.states)
      ensures SlotTie(zs, bitmaps, homes, lent, i) && lent == old(lent) - SlotSet(zs[i].home)
    {
      hide Lent, PagesIn, SlotsOk, SlotTie, Zone.View, Zone.Shape, PageRecords;
      ZonesNotPages(zs);
      SlotTieWithout(zs, bitmaps, homes, lent, i);
      if zs[i].home.Shared? { HomeLent(zs, bitmaps, homes, lent, i); }
      v := GiveOne(zones[i], zs[i]);
    }

    /** Rebuild zone i in place, on new pages. */
    method RebuildZone(i: nat, words: array<bv64>, idx: int, ghost zs: seq<ZoneView>) returns (ghost v: ZoneView)
      requires Tied(zs) && i < |zones| && os.Valid() && IsChunkSize(zs[i].chunkSize)
      requires words.Length == MaxBitmapIdx(zs[i].chunkSize) && AllZero(words) && NotInZones(words, i)
      modifies this`repr, this`homes, zones[i], os, words
      ensures fresh(repr - old(repr) - {words}) && repr >= old(repr) && this !in repr && os !in repr
      ensures Tied(zs[i := v]) && zones[i].base == v.base && homes == old(homes)[i := words]
      ensures os.Valid() && FreshZone(v)
      ensures v.chunkSize == zs[i].chunkSize && v.internal && v.index == i && v.nextSz == zs[i].nextSz
      ensures v.home == if idx < 0 then OwnPages else Shared(Slot(BitmapSize(v.chunkSize), idx))
      ensures v.base >= PAGE_SIZE && v.base % PAGE_SIZE == 0 && os.mapped == old(os.mapped) + {ZoneMapping(v.base)}
      ensures forall m :: m in old(os.mapped) ==>
        Apart(v.base - PAGE_SIZE, ZONE_USER_SIZE + 2 * PAGE_SIZE, m.start, m.size)
    {
      hide FreshZone, IsChunkSize, MaxBitmapIdx, BitmapSize, Zone.View, Zone.Shape, AddressSpace.Valid, Apart, AllZero;
      v := RebuildOne(zones[i], i, os, words, idx, zs[i]);
      homes := homes[i := words];
      repr := repr + zones[i].Footprint();
    }

    /** _iso_new_zone on the entry of zone i, which has given its slot back. */
    method RemakeZone(i: nat, ghost zs: seq<ZoneView>, ghost w: ZoneView) returns (ghost v: ZoneView)
      requires this !in repr && os !in repr && i < |zones| && i < |zs| && Tied(zs[i := w])
      requires PagesIn() && Lent() && SlotTie(zs, bitmaps, homes, lent, i)
      requires os.Valid() && IsChunkSize(zs[i].chunkSize) && w == zs[i].(states := w.states)
      modifies this`homes, this`lent, this`repr, zones[i], os, Storage(bitmaps, lent)
      ensures fresh(repr - old(repr)) && repr >= old(repr) && this !in repr && os !in repr
      ensures Tied(zs[i := v]) && PagesIn() && Lent() && SlotTie(zs[i := v], bitmaps, homes, lent, -1)
      ensures os.Valid() && FreshZone(v) && zones[i].base == v.base && HomeFits(zs, v, i)
      ensures v.chunkSize == zs[i].chunkSize && v.internal && v.index == i && v.nextSz == zs[i].nextSz
      ensures v.home.OwnPages? <==> NoSlot(bitmaps, BitmapSize(v.chunkSize), SlotsHeld(zs, i))
      ensures v.base >= PAGE_SIZE && v.base % PAGE_SIZE == 0 && os.mapped == old(os.mapped) + {ZoneMapping(v.base)}
      ensures forall m :: m in old(os.mapped) ==>
        Apart(v.base - PAGE_SIZE, ZONE_USER_SIZE + 2 * PAGE_SIZE, m.start, m.size)
    {
      hide FreshZone, Tied, Lent, SlotTie, Zone.View, Zone.Shape, NoSlot, HomeTied, HomeFits;
      hide BitmapSize, SlotsHeld;
      hide AllZero, SlotFits, MaxBitmapIdx, IsChunkSize;
      ghost var held, before := lent, homes;
      SlotTieExcept(zs, w, bitmaps, homes, lent, i);
      TiedEntry(zs[i := w], i);
      var words, idx;
      ghost var home;
      words, idx, home := ClaimFor(zones[i].chunkSize, zs[i := w], i);
      v := RebuildZone(i, words, idx, zs[i := w]);
      assert zs[i := w][i := v] == zs[i := v];
      HomeIsFit(zs, v, held, i);
      SlotTieReplace(zs, i, v, bitmaps, before, words, held);
    }

    lemma Returned(i: nat)
      requires HeapOk() && i < |zones|
      ensures forall o: object :: o in Storage(bitmaps, lent - SlotSet(abs.zones[i].home)) ==>
        o in Storage(bitmaps, lent) || o == zones[i].bitmap
    {
      hide PagesOk, SlotTie, MapsOk, Zone.View, Zone.Shape;
      StorageReturned(abs.zones, bitmaps, homes, lent, i);
    }

    lemma TiedEntry(zs: seq<ZoneView>, i: nat)
      requires Tied(zs) && i < |zones|
      ensures |zs| == |zones| == |homes| && zones[i] in repr && zones[i].chunkSize == zs[i].chunkSize
      ensures zones[i].bitmap == homes[i] && zones[i].bitmap in repr
    {
    }

    /** _iso_alloc_destroy_zone_unlocked up to the new zone on the same entry: the zone
        leaves the lookup table, gives its slot back and is unmapped. */
    method Vacate(i: nat) returns (ghost w: ZoneView)
      requires HeapOk() && RootOk(abs) && i < |zones| && |chunkTable| == CHUNK_LOOKUP_TABLE_LEN
      modifies this`chunkTable, this`lent, zones[i].bitmap, os, Storage(bitmaps, lent)
      ensures os.Valid() && Tied(abs.zones[i := w]) && PagesIn() && Lent()
      ensures SlotTie(abs.zones, bitmaps, homes, lent, i)
      ensures abs.zones[i].base >= PAGE_SIZE && os.mapped == old(os.mapped) - {ZoneMapping(abs.zones[i].base)}
      ensures w == abs.zones[i].(states := w.states) && lent == old(lent) - SlotSet(abs.zones[i].home)
      ensures chunkTable == old(chunkTable)[ChunkIndex(abs.zones[i].base) := 0]
    {
      hide RootOk, MapsOk, Tied, Lent, SlotTie, ChunkIndex, AddressSpace.Valid, Storage, PageRecords, AllSlots;
      ZoneFields(i);
      ZoneIsMapped(abs, i, zeroPage, os.mapped);
      RootSlots(abs);
      chunkTable := chunkTable[ChunkIndex(zones[i].base) := 0];
      var base := zones[i].base;
      w := GiveBack(i, abs.zones);
      os.Munmap(ZoneMapping(base));
    }

    lemma SlotForAnother(i: nat)
      requires HeapOk() && RootOk(abs) && i < |zones| && IsChunkSize(abs.zones[i].chunkSize)
      ensures abs.zones[i].home.Shared? ==>
        !NoSlot(bitmaps, BitmapSize(abs.zones[i].chunkSize), SlotsHeld(abs.zones, i))
    {
      hide RootOk, MapsOk, PagesOk, SlotTie, SlotsOk, NoSlot, BitmapSize, SlotsHeld, Zone.View, Zone.Shape;
      RootSlots(abs);
      if abs.zones[i].home.Shared? { StillShared(abs.zones, bitmaps, homes, lent, i); }
    }

    /** A zone is destroyed and made again on the same entry: its slot is given back and
        one claimed again, so that a zone in a shared page stays in one. It aborts when the
        zones array is used up, although no new entry is needed. */
    method ReplacePages(i: nat) returns (aborted: bool, ghost v: ZoneView)
      requires HeapOk() && RootOk(abs) && i < |zones|
      modifies this`repr, this`chunkTable, this`homes, this`lent, zones[i], zones[i].bitmap, os
      modifies Storage(bitmaps, lent)
      ensures aborted <==> |zones| >= MAX_ZONES
      ensures fresh(repr - old(repr)) && repr >= old(repr) && this !in repr && os !in repr
      ensures !aborted ==> os.Valid() && Replaces(abs, i, v) && Housed(abs.zones[i := v])
      ensures !aborted ==> chunkTable == WithReplacement(abs, i, v).chunkTable
      ensures !aborted ==> MapsOk(abs.zones[i := v], big, spare, zeroPage, os.mapped)
      ensures !aborted ==> (v.home.OwnPages? <==>
        NoSlot(bitmaps, BitmapSize(v.chunkSize), SlotsHeld(abs.zones, i)))
      ensures !aborted && abs.zones[i].home.Shared? ==> v.home.Shared?
      ensures !aborted ==>
        && v.base >= 4096 && abs.zones[i].base >= 4096
        && os.mapped ==
           old(os.mapped) - {Mapping(abs.zones[i].base - 4096, 4202496)} + {Mapping(v.base - 4096, 4202496)}
    {
      hide RootOk, MapsOk, FreshZone, Tied, Lent, SlotTie, PagesFit, HomeFits, NoSlot, SlotsHeld, BitmapSize, PagesIn;
      hide AddressSpace.Valid, Storage, PageRecords, AllSlots, ChunkIndex;
      ZoneBuffers(i);
      Returned(i);
      RootTables(abs);
      RootZoneShape(abs, i);
      SlotForAnother(i);
      ghost var w := Vacate(i);
      if |zones| >= MAX_ZONES {
        v := abs.zones[i];
        return true, v;
      }
      ghost var mapped := os.mapped;
      v := RemakeZone(i, abs.zones, w);
      chunkTable := chunkTable[ChunkIndex(zones[i].base) := i];
      MapsWithout(abs, i, v, zeroPage, old(os.mapped), mapped, os.mapped);
      aborted := false;
    }

    // --------------------------------------------------- finding the owning zone

    /** iso_find_zone_range: the chunk table, then the thread's zone cache, then all
        zones. Whatever the table and the cache hold, the answer is that of the
        plain search; the corruption abort cannot happen. */
    method FindZoneRange(tzc: seq<CacheEntry>, p: nat) returns (at: int, aborted: bool)
      requires HeapOk() && RootOk(abs) && |zones| > 0 && CacheFits(abs.zones, tzc)
      ensures !aborted && -1 <= at < |zones|
      ensures at >= 0 ==> InZone(abs.zones[at], p)
      ensures at < 0 ==> forall i: nat :: i < |zones| ==> !InZone(abs.zones[i], p)
    {
      hide RootOk, MapsOk, Housed, InZone;
      RootTables(abs);
      TableEntry(abs, ChunkIndex(p));
      var k := chunkTable[ChunkIndex(p)];
      if k > |zones| { return -1, true; }
      var hit := Contains(k, p);
      if hit { return k, false; }
      for j: nat := 0 to |tzc| {
        hit := Contains(tzc[j].at, p);
        if hit { return tzc[j].at, false; }
      }
      for i: nat := 0 to |zones|
        invariant forall j: nat :: j < i ==> !InZone(abs.zones[j], p)
      {
        hit := Contains(i, p);
        if hit { return i, false; }
      }
      return -1, false;
    }

    method Contains(i: nat, p: nat) returns (hit: bool)
      requires HeapOk() && i < |zones|
      ensures hit == InZone(abs.zones[i], p)
    {
      hide RootOk, MapsOk, Housed;
      ZoneFields(i);
      var start := zones[i].base;
      hit := start <= p < start + ZONE_USER_SIZE;
    }

    // ------------------------------------------------------------------ freeing

    method ZoneRelease(i: nat, p: nat, permanent: bool, beyond: bool, ghost zs: seq<ZoneView>)
      returns (aborted: bool, ghost c: nat)
      requires Tied(zs) && i < |zones| && ZoneOk(zs[i]) && Holds(zs[i], p) && InZone(zs[i], p)
      modifies zones[i], zones[i].freeBitSlots, zones[i].bitmap, zones[i].user
      ensures unchanged(os) && c == (p - zs[i].base) / zs[i].chunkSize < |zs[i].states|
      ensures zs[i].afCount > 0 && 16 <= zs[i].chunkSize && ChunkOffset(zs[i], c) + zs[i].chunkSize <= |zs[i].mem|
      ensures Tied(zs[i := ReleaseChunk(zs[i], c, permanent)])
      ensures GeometryOk(ReleaseChunk(zs[i], c, permanent))
      ensures aborted == NeighbourAborts(ReleaseChunk(zs[i], c, permanent), c, beyond)
    {
      hide ZoneOk, GeometryOk, ReleaseChunk, NeighbourAborts, Holds, InZone, Zone.View, Zone.Shape;
      aborted, c := ReleaseOne(zones[i], p, permanent, beyond, zs[i]);
    }

    /** Who gives p up: the quarantine's oldest entry, or the client. */
    ghost predicate Holder(p: nat, parked: bool)
      reads this`abs
    {
      if parked then |abs.quarantine| > 0 && abs.quarantine[0] == p else p in abs.live
    }

    /** The bookkeeping of giving p up. */
    ghost method GiveUp(p: nat, parked: bool)
      requires Holder(p, parked) && flushed <= |quarantine| && abs.quarantine == quarantine[flushed..]
      modifies this`live, this`flushed
      ensures live == (if parked then old(live) else old(live) - {p})
      ensures flushed == (if parked then old(flushed) + 1 else old(flushed))
      ensures flushed <= |quarantine|
      ensures quarantine[flushed..] == if parked then old(abs.quarantine)[1..] else old(abs.quarantine)
    {
      if parked {
        assert quarantine[flushed..][1..] == quarantine[flushed + 1..];
        flushed := flushed + 1;
      } else {
        live := live - {p};
      }
    }

    lemma StatesShown(zs: seq<ZoneView>)
      requires Tied(zs)
      ensures |zs| == |homes| && forall j: nat :: j < |zs| ==> zs[j].states == Decode(homes[j][..])
    {
      hide Decode, Zone.Shape;
    }

    /** The bit that a free in zone i finds behind the zone's bitmap: it belongs to the next
        slot of the page, and behind the last slot to whatever is mapped there. */
    method ReadBehind(i: nat) returns (bit: bool, ghost foreign: bool)
      requires HeapOk() && RootOk(abs) && i < |zones|
      ensures bit == StrayBit(abs.zones, i, foreign)
    {
      hide RootOk, MapsOk, SlotTie, SlotsOk, PagesOk, Decode, MaxBitmapIdx, BitmapSize, ChunkCount, Neighboured, Bit;
      bit, foreign := false, false;
      assert zones[i].View() == abs.zones[i];
      if zones[i].preallocatedBitmapIdx < 0 { return; }
      RootSlots(abs);
      StatesShown(abs.zones);
      HomeLent(abs.zones, bitmaps, homes, lent, i);
      var s := Slot(zones[i].bitmapSize, zones[i].preallocatedBitmapIdx);
      if HasNext(s) {
        NextShows(abs.zones, bitmaps, homes, lent, i);
        bit := Bit(SlotArray(bitmaps, NextSlotOf(s))[0], 1);
      } else {
        bit := *;
        foreign := bit;
      }
    }

    /** iso_free_chunk_from_zone, in zone i. */
    method ReleaseIn(i: nat, p: nat, permanent: bool, ghost parked: bool)
      returns (aborted: bool, ghost e: Event)
      requires HeapOk() && RootOk(abs) && i < |zones| && Holds(abs.zones[i], p)
      requires Holder(p, parked) && (parked ==> !permanent)
      modifies this`abs, this`live, this`flushed, zones[i], zones[i].freeBitSlots, zones[i].bitmap, zones[i].user
      ensures HeapOk() && RootOk(abs) && Step(old(abs), e, abs) && |abs.zones| == |old(abs.zones)|
      ensures if parked then e.Flush? && e.i == i else e.Release? && e.i == i && e.p == p && e.permanent == permanent
      ensures UsedChunk(old(abs), i, e.c, p)
      ensures StrayFree(old(abs), i, p, false) ==> aborted
      ensures aborted ==> StrayFree(old(abs), i, p, true)
    {
      hide RootOk, MapsOk, ZoneOk, Tied, Lent, SlotTie, Storage, AllSlots, Step, ReleaseChunk, Holds, NeighbourAborts;
      hide ChunkCount, StrayBit, StrayFree, AddressSpace.Valid, PageRecords, InZone, MaxBitmapIdx, BitmapSize;
      ghost var r := abs;
      RootZoneOk(r, i);
      HoldsInside(r.zones[i], p);
      HoldsUsed(r, i, p);
      ZoneFields(i);
      ZoneHome(i);
      var beyond;
      ghost var foreign;
      beyond, foreign := ReadBehind(i);
      ghost var c;
      aborted, c := ZoneRelease(i, p, permanent, beyond, r.zones);
      e := Settle(i, c, p, permanent, parked);
      StrayExactly(r, i, c, p, permanent, foreign);
      StrayBounds(r, i, p, foreign);
    }

    /** Chunk c of zone i, at p, has been freed and is given up. */
    ghost method Settle(i: nat, c: nat, p: nat, permanent: bool, parked: bool) returns (e: Event)
      requires this !in repr && os !in repr && os.Valid() && |abs.zones| == |zones| && RootOk(abs)
      requires UsedChunk(abs, i, c, p) && Holder(p, parked) && (parked ==> !permanent)
      requires Tied(abs.zones[i := ReleaseChunk(abs.zones[i], c, permanent)])
      requires PagesIn() && Lent() && SlotTie(abs.zones, bitmaps, homes, lent, -1) && flushed <= |quarantine|
      requires abs == RootView(abs.zones, sizeTable, chunkTable, quarantine[flushed..], big, spare, live)
      requires MapsOk(abs.zones, big, spare, zeroPage, os.mapped)
      modifies this`abs, this`live, this`flushed
      ensures HeapOk() && RootOk(abs) && Step(old(abs), e, abs) && |abs.zones| == |old(abs.zones)|
      ensures e == if parked then Flush(i, c) else Release(p, i, c, permanent)
    {
      hide RootOk, MapsOk, Tied, Lent, SlotTie, PagesIn, Step, ReleaseChunk, AddressSpace.Valid;
      var r := abs;
      GiveUp(p, parked);
      abs := r.(zones := r.zones[i := ReleaseChunk(r.zones[i], c, permanent)],
                live := live,
                quarantine := quarantine[flushed..]);
      e := if parked then Flush(i, c) else Release(p, i, c, permanent);
      ReleaseKeeps(r, i, c, p, permanent, parked, abs, zeroPage, os.mapped);
      ReleaseHome(r.zones[i], c, permanent);
      SlotTieSame(r.zones, abs.zones, bitmaps, homes, lent);
    }

    /** _is_zone_retired, and the replacement it leads to: it happens exactly when the zone
        is idle and worn, and then aborts exactly when the zones array is used up. */
    method RetireIfIdle(i: nat) returns (aborted: bool, ghost es: seq<Event>)
      requires HeapOk() && RootOk(abs) && i < |zones|
      modifies this`abs, this`repr, this`chunkTable, this`homes, this`lent, zones[i], zones[i].bitmap, os
      modifies Storage(bitmaps, lent)
      ensures fresh(repr - old(repr)) && repr >= old(repr)
      ensures aborted <==> Retires(old(abs), i) && |zones| >= MAX_ZONES
      ensures !aborted ==> HeapOk() && RootOk(abs) && Reach(old(abs), es, abs)
      ensures !aborted ==>
        abs.live == old(abs.live) && abs.quarantine == old(abs.quarantine) && |abs.zones| == |old(abs.zones)|
      ensures aborted || es != [] <==>
        && old(abs.zones)[i].afCount == 0 && old(abs.zones)[i].allocCount > 32 * ChunkCount(RootChunkSize(old(abs), i))
        && old(abs.zones)[i].internal && old(abs.zones)[i].chunkSize < 16384
      ensures !aborted && !Retires(old(abs), i) ==> es == [] && abs == old(abs)
      ensures !aborted && Retires(old(abs), i) ==> es == [Replace(i, abs.zones[i])]
      ensures forall e :: e in es ==> e.Replace?
    {
      hide RootOk, MapsOk, Housed, Storage, Step, Reach, Replaces, ChunkCount;
      ghost var r := abs;
      NoEvents(r);
      ZoneCounters(i);
      if zones[i].afCount == 0 && zones[i].allocCount > 32 * zones[i].chunkCount
         && zones[i].internal && zones[i].chunkSize < 2 * MAX_DEFAULT_ZONE_SZ {
        RootTables(r);
        StorageOwned();
        ghost var v;
        aborted, v := ReplacePages(i);
        es := [];
        if aborted { return; }
        abs := WithReplacement(r, i, v);
        ReplacementFields(r, i, v);
        ReplaceKeeps(r, i, v, abs);
        es := [Replace(i, v)];
        return;
      }
      aborted, es := false, [];
    }

    lemma ZoneCounters(i: nat)
      requires HeapOk() && i < |zones|
      ensures zones[i] in repr && zones[i].afCount == abs.zones[i].afCount && zones[i].internal == abs.zones[i].internal
      ensures zones[i].allocCount == abs.zones[i].allocCount && zones[i].chunkSize == abs.zones[i].chunkSize
      ensures zones[i].chunkCount == ChunkCount(RootChunkSize(abs, i))
    {
    }

    /** The record of a big mapping leaves the used list, and its pages the address space
        unless they are kept. */
    method DropBig(p: nat, permanent: bool) returns (place: BigProtocol.Place, aborted: bool)
      requires HeapOk() && RootOk(abs) && BigOk() && Outside() && p in big
      modifies lists, records, os
      ensures !aborted && os.Valid() && Housed(abs.zones) && (permanent ==> place == BigProtocol.Sealed)
      ensures place == BigProtocol.OnFree <==> !permanent && |old(lists.free)| < 64 && old(Young(lists, p))
      ensures os.mapped == old(os.mapped) - if place == BigProtocol.Gone then {Mapping(p, |big[p]|)} else {}
      ensures var spare' := if place == BigProtocol.OnFree then spare[p := |big[p]|] else spare;
        Kept(lists, Sizes(big) - {p}, spare', records)
    {
      hide RootOk, MapsOk, Housed, Kept, Spread;
      BigFacts(abs, p);
      place, aborted := Drop(lists, p, permanent, Sizes(big), spare, records);
      if place == BigProtocol.Gone {
        os.Munmap(Mapping(p, |big[p]|));
      }
    }

    /** The big-zone branch of _iso_free_internal_unlocked. */
    method ReleaseBig(p: nat, permanent: bool, ghost parked: bool) returns (aborted: bool, ghost e: Event)
      requires HeapOk() && RootOk(abs) && BigOk() && Outside() && p in big
      requires Holder(p, parked) && (parked ==> !permanent)
      modifies this`abs, this`live, this`flushed, this`big, this`spare, lists, records, os
      ensures !aborted && HeapOk() && RootOk(abs) && BigOk() && Step(old(abs), e, abs) && abs.zones == old(abs.zones)
      ensures if parked then e.BigFlush? else e.BigRelease? && e.p == p && (permanent ==> !e.park)
      ensures abs.big == old(abs.big) - {p}
      ensures abs.parked == if !permanent && |old(lists.free)| < 64 && old(Young(lists, p))
                            then old(abs.parked)[p := |old(abs.big)[p]|] else old(abs.parked)
    {
      hide RootOk, MapsOk, Housed, Step, Kept, Sizes, AddressSpace.Valid, Young;
      ghost var mapped := os.mapped;
      var place;
      place, aborted := DropBig(p, permanent);
      e := ForgetBig(p, place == BigProtocol.OnFree, parked, mapped);
    }

    /** A big mapping is no longer anybody's. */
    method ForgetBig(p: nat, ghost park: bool, ghost parked: bool, ghost mapped: set<Mapping>) returns (ghost e: Event)
      requires HeapOkBut(mapped) && RootOk(abs) && p in big && Holder(p, parked)
      requires os.mapped == mapped || (!park && os.mapped == mapped - {Mapping(p, |big[p]|)})
      requires Kept(lists, Sizes(big) - {p}, if park then spare[p := |big[p]|] else spare, records)
      modifies this`abs, this`live, this`flushed, this`big, this`spare
      ensures HeapOk() && RootOk(abs) && BigOk() && Step(old(abs), e, abs) && abs.zones == old(abs.zones)
      ensures e == if parked then BigFlush(park) else BigRelease(p, park)
      ensures abs.big == old(abs.big) - {p}
      ensures abs.parked == if park then old(abs.parked)[p := |old(abs.big)[p]|] else old(abs.parked)
    {
      hide RootOk, MapsOk, Housed, Step, Kept, Sizes, AddressSpace.Valid, BigForgotten;
      ghost var r := abs;
      GiveUp(p, parked);
      SizesWithout(big, p);
      BigForgottenParts(r, p, park, parked);
      spare := if park then spare[p := |big[p]|] else spare;
      big := big - {p};
      abs := BigForgotten(r, p, park, parked);
      e := if parked then BigFlush(park) else BigRelease(p, park);
      ReleaseBigKeeps(r, p, park, parked, zeroPage, mapped, os.mapped);
    }

    /** The zone branch of _iso_free_internal_unlocked: the chunk is freed, and its zone
        replaced if it is worn out. */
    method FreeInZone(i: nat, p: nat, permanent: bool, ghost parked: bool) returns (aborted: bool, ghost es: seq<Event>)
      requires HeapOk() && RootOk(abs) && i < |zones| && InZone(abs.zones[i], p)
      requires Holder(p, parked) && (parked ==> !permanent)
      modifies this`abs, this`live, this`flushed, this`repr, this`chunkTable, this`homes, this`lent, repr, os
      ensures fresh(repr - old(repr)) && repr >= old(repr)
      ensures ZoneFreeAborts(old(abs), i, p, false) ==> aborted
      ensures aborted ==> ZoneFreeAborts(old(abs), i, p, true)
      ensures !aborted ==> HeapOk() && RootOk(abs) && Reach(old(abs), es, abs)
      ensures !aborted ==> abs.live == (if parked then old(abs.live) else old(abs.live) - {p})
      ensures !aborted ==> abs.quarantine == (if parked then old(abs.quarantine)[1..] else old(abs.quarantine))
      ensures !aborted ==> es != [] && GaveUp(es[0], p, permanent, parked)
      ensures !parked ==> forall e :: e in es ==> GivesUpOnly(e, p)
      ensures forall e :: e in es ==> !e.Destroy?
      ensures !aborted && !WearsOut(old(abs), i) ==> LeavesChunk(old(abs), abs, i, p, permanent)
    {
      hide RootOk, MapsOk, Housed, Step, Reach, Holds, InZone, StrayFree, WearsOut;
      hide Retires, LeavesChunk;
      ghost var r := abs;
      es := [];
      OwnedInZone(r, i, p);
      ZoneFields(i);
      ZoneBuffers(i);
      ghost var e;
      aborted, e := ReleaseIn(i, p, permanent, parked);
      if aborted { return; }
      OneEvent(r, e, abs);
      ReleaseEffect(r, e, abs);
      ReleaseRetires(r, e, abs, i);
      ReleaseLeaves(r, e, abs, p, permanent);
      ghost var mid, fs := abs, [];
      ZoneBuffers(i);
      aborted, fs := RetireIfIdle(i);
      if aborted { return; }
      es := [e] + fs;
      ReachConcat(r, [e], mid, fs, abs);
    }

    /** _iso_free_internal_unlocked on an owned address: it always finds the zone
        or big zone that owns it. */
    method FreeUnlocked(tzc: seq<CacheEntry>, p: nat, permanent: bool, ghost parked: bool)
      returns (at: int, aborted: bool, ghost es: seq<Event>)
      requires HeapOk() && RootOk(abs) && BigOk() && Outside() && |zones| > 0 && CacheFits(abs.zones, tzc)
      requires Holder(p, parked) && (parked ==> !permanent)
      modifies this, repr, os, lists, records
      ensures fresh(repr - old(repr)) && repr >= old(repr) && zones == old(zones) && quarantine == old(quarantine)
      ensures records == old(records) && -1 <= at < |zones|
      ensures FreeFails(old(abs), p, false) ==> aborted
      ensures aborted ==> FreeFails(old(abs), p, true)
      ensures aborted ==> |zones| >= MAX_ZONES || HasStrayZone(old(abs))
      ensures !aborted ==> HeapOk() && RootOk(abs) && BigOk() && Outside() && Reach(old(abs), es, abs)
      ensures !aborted ==> abs.live == (if parked then old(abs.live) else old(abs.live) - {p})
      ensures !aborted ==> abs.quarantine == (if parked then old(abs.quarantine)[1..] else old(abs.quarantine))
      ensures !aborted ==> es != [] && GaveUp(es[0], p, permanent, parked)
      ensures !parked ==> forall e :: e in es ==> GivesUpOnly(e, p)
      ensures forall e :: e in es ==> !e.Destroy?
      ensures if at >= 0 then InZone(old(abs.zones)[at], p) else p in old(abs.big)
      ensures !aborted && at >= 0 && !WearsOut(old(abs), at) ==> LeavesChunk(old(abs), abs, at, p, permanent)
      ensures !aborted && at < 0 ==>
        (p in abs.parked <==> !permanent && |old(lists.free)| < 64 && old(Young(lists, p)))
    {
      hide RootOk, MapsOk, Housed, BigOk, Step, Reach, InZone, HasStrayZone, CacheFits, Young;
      hide ZoneFreeAborts, WearsOut, LeavesChunk;
      ghost var r := abs;
      at, aborted := FindZoneRange(tzc, p);
      es := [];
      if aborted { return; }
      if at >= 0 {
        FailsHere(r, at, p);
        aborted, es := FreeInZone(at, p, permanent, parked);
      } else {
        OwnedNotInZone(r, p);
        BigNotParked(r, p);
        ghost var e;
        aborted, e := ReleaseBig(p, permanent, parked);
        OneEvent(r, e, abs);
        BigEffect(r, e, abs);
        es := [e];
      }
    }

    lemma StorageOwned()
      requires HeapOk()
      ensures forall o: object :: o in Storage(bitmaps, lent) ==> o in repr
    {
    }

    lemma ZoneBuffers(i: nat)
      requires HeapOk() && i < |zones|
      ensures zones[i] in repr && zones[i].bitmap in repr && zones[i].freeBitSlots in repr && zones[i].user in repr
      ensures forall o: object :: o in Storage(bitmaps, lent) ==> o in repr
    {
    }

    /** flush_chunk_quarantine. While it runs and retires zones, every entry not yet
        processed still resolves to its owner; the index stays below 64. It aborts exactly
        when the free of an entry does, in the state `stop` reached by then. */
    method FlushQuarantine(tzc: seq<CacheEntry>) returns (aborted: bool, ghost es: seq<Event>, ghost stop: RootView)
      requires Ready() && |zones| > 0 && CacheFits(abs.zones, tzc)
      modifies this, repr, os, lists, records
      ensures fresh(repr - old(repr)) && repr >= old(repr) && zones == old(zones)
      ensures records == old(records)
      ensures aborted ==> |zones| >= MAX_ZONES || HasStrayZone(old(abs))
      ensures !aborted ==> Ready() && Reach(old(abs), es, abs)
      ensures !aborted ==> abs.live == old(abs.live) && quarantine == [] && abs.quarantine == []
      ensures aborted ==>
        Reach(old(abs), es, stop) && OldestFails(stop, true) && FlushFails(old(abs))
      ensures OldestFails(old(abs), false) ==> aborted
      ensures forall e :: e in es ==> !e.Destroy?
    {
      hide RootOk, MapsOk, Housed, BigOk, Step, Reach, HasStrayZone, CacheFits;
      hide FreeFails;
      ghost var r := abs;
      NoEvents(r);
      es := [];
      RootTables(r);
      stop := abs;
      assert abs.quarantine == quarantine;
      for i: nat := 0 to |quarantine|
        invariant HeapOk() && RootOk(abs) && BigOk() && Outside() && records == old(records)
        invariant Reach(r, es, abs) && flushed == i
        invariant |quarantine| <= CHUNK_QUARANTINE_SZ && abs.quarantine == quarantine[i..] && abs.live == r.live
        invariant zones == old(zones) && quarantine == old(quarantine) && repr >= old(repr) && fresh(repr - old(repr))
        invariant CacheFits(abs.zones, tzc)
        invariant HasStrayZone(abs) ==> HasStrayZone(r)
        invariant forall e :: e in es ==> !e.Destroy?
        invariant i == 0 ==> abs == r
        invariant i > 0 ==> !FreeFails(r, r.quarantine[0], false)
      {
        ghost var mid := abs;
        stop := mid;
        ghost var fs;
        var at;
        at, aborted, fs := FreeUnlocked(tzc, quarantine[i], false, true);
        if aborted { return; }
        ReachConcat(r, es, mid, fs, abs);
        ReachKeepsCache(mid, fs, abs, tzc);
        ReachKeepsSizes(mid, fs, abs);
        es := es + fs;
        FlushedCount(i);
      }
      quarantine, flushed := [], 0;
      aborted := false;
    }

    lemma FlushedCount(i: nat)
      requires HeapOk() && i < |quarantine| && abs.quarantine == quarantine[i..][1..]
      ensures flushed == i + 1 && abs.quarantine == quarantine[i + 1..]
    {
    }

    // --------------------------------------------------------------- allocating

    /** The zone the thread's cache suggests, if it is usable. */
    method TryCached(cached: int, size: nat) returns (at: int)
      requires HeapOk() && RootOk(abs) && Suggested(abs.zones, cached, size)
      modifies this`abs, repr
      ensures HeapOk() && RootOk(abs) && Step(old(abs), Search(abs.zones), abs)
      ensures -1 <= at < |zones|
      ensures at >= 0 ==> Suitable(abs.zones[at], size)
      ensures at >= 0 ==> abs.zones[at].chunkSize <= if size > 1024 then 8 * size - 1 else 2080
      ensures at == if cached >= 0 && Serving(old(abs.zones), cached, size) then cached else -1
      ensures SamePrefix(old(abs.zones), abs.zones)
    {
      hide RootOk, MapsOk, Housed, Step;
      ghost var r := abs;
      at := cached;
      SearchNone(r);
      if at >= 0 {
        ZoneFields(at);
        var ok := Probe(at, size);
        SearchMore(r, r, at, abs);
        SearchSameBut(r, abs);
        if !ok { at := -1; }
      }
    }

    /** A suitable zone or, only if there is none, a new one. */
    method FindOrMake(size: nat) returns (at: int, aborted: bool, ghost es: seq<Event>)
      requires HeapOk() && RootOk(abs) && IsChunkSize(size)
      modifies this`zones, this`repr, this`sizeTable, this`chunkTable, this`abs, this`homes, this`lent, repr, os
      ensures HeapOk() && RootOk(abs) && fresh(repr - old(repr)) && repr >= old(repr)
      ensures Reach(old(abs), es, abs)
      ensures (forall e :: e in es ==> e.Search? || (e.AddZone? && e.zone.chunkSize == size))
      ensures aborted ==> |old(zones)| >= MAX_ZONES
      ensures aborted || |zones| > |old(zones)| ==> NoneFits(old(abs), size)
      ensures abs.live == old(abs.live) && abs.quarantine == old(abs.quarantine) && abs.big == old(abs.big)
      ensures !aborted ==> 0 <= at < |zones| && Suitable(abs.zones[at], size)
      ensures !aborted ==> abs.zones[at].chunkSize <= if size > 1024 then 8 * size - 1 else 2080
      ensures |old(zones)| <= |zones| <= |old(zones)| + 1
      ensures !aborted && |zones| > |old(zones)| ==> at == |old(zones)|
      ensures Selects(old(abs), size, if aborted || |zones| > |old(zones)| then -1 else at)
      ensures SamePrefix(old(abs.zones), abs.zones)
    {
      hide RootOk, MapsOk, Housed, Step, Reach, CanServe, NoneFits, Selects;
      ghost var r := abs;
      at, aborted := FindSuitableZone(size);
      OneEvent(r, Search(abs.zones), abs);
      SearchEffect(r, abs);
      SearchSameBut(r, abs);
      es := [Search(abs.zones)];
      if at >= 0 { return; }
      NoneFitsBefore(r, abs, size);
      ghost var found, e := abs, Search([]);
      StorageOwned();
      at, aborted, e := NewZone(size, true);
      if aborted { return; }
      AddEffect(found, e, abs);
      AddedPrefix(r.zones, found, e, abs);
      ReachStep(r, es, found, e, abs);
      es := es + [e];
    }

    /** The zone a small request is served from: the cached one, a suitable one or, only
        if no zone can serve it, a new one. */
    method ChooseZone(cached: int, size: nat) returns (at: int, aborted: bool, ghost es: seq<Event>)
      requires HeapOk() && RootOk(abs) && IsChunkSize(size) && Suggested(abs.zones, cached, size)
      modifies this`zones, this`repr, this`sizeTable, this`chunkTable, this`abs, this`homes, this`lent, repr, os
      ensures HeapOk() && RootOk(abs) && fresh(repr - old(repr)) && repr >= old(repr)
      ensures Reach(old(abs), es, abs)
      ensures (forall e :: e in es ==> e.Search? || (e.AddZone? && e.zone.chunkSize == size))
      ensures aborted ==> |old(zones)| >= MAX_ZONES
      ensures aborted || |zones| > |old(zones)| ==> NoneFits(old(abs), size)
      ensures abs.live == old(abs.live) && abs.quarantine == old(abs.quarantine) && abs.big == old(abs.big)
      ensures !aborted ==> 0 <= at < |zones| && Suitable(abs.zones[at], size)
      ensures !aborted ==> abs.zones[at].chunkSize <= if size > 1024 then 8 * size - 1 else 2080
      ensures |old(zones)| <= |zones| <= |old(zones)| + 1
      ensures PicksZone(old(abs), cached, size, at, aborted, |zones| > |old(zones)|)
      ensures SamePrefix(old(abs.zones), abs.zones)
    {
      hide RootOk, MapsOk, Housed, Step, Reach, CanServe, NoneFits, CacheFits, Serving, Selects;
      ghost var r := abs;
      at := TryCached(cached, size);
      aborted := false;
      ghost var e, mid := Search(abs.zones), abs;
      OneEvent(r, e, mid);
      SearchEffect(r, mid);
      es := [e];
      if at >= 0 { return; }
      ghost var fs;
      at, aborted, fs := FindOrMake(size);
      if NoneFits(mid, size) { NoneFitsBefore(r, mid, size); }
      SelectsSame(r, mid, size, if aborted || |zones| > |old(zones)| then -1 else at);
      ReachConcat(r, [e], mid, fs, abs);
      es := [e] + fs;
    }

    /** _iso_alloc for a small request. It aborts only if no zone can serve the
        request and the zones array is used up. */
    method AllocSmall(cached: int, size: nat) returns (p: nat, at: nat, aborted: bool, ghost es: seq<Event>)
      requires Valid() && 0 < size <= SMALL_SIZE_MAX && Suggested(abs.zones, cached, RoundRequest(size))
      modifies this`zones, this`repr, this`sizeTable, this`chunkTable, this`abs, this`live, this`homes, this`lent
      modifies repr, os
      ensures fresh(repr - old(repr)) && repr >= old(repr) && |old(zones)| <= |zones| <= |old(zones)| + 1
      ensures aborted ==> |old(zones)| >= MAX_ZONES
      ensures aborted || |zones| > |old(zones)| ==> NoneFits(old(abs), RoundRequest(size))
      ensures !aborted ==> Valid() && Reach(old(abs), es, abs)
      ensures forall e :: e in es ==> e.Search? || (e.AddZone? && e.zone.chunkSize == RoundRequest(size)) || e.Take?
      ensures !aborted ==>
        !Owned(old(abs), p) && abs.live == old(abs.live)[p := size] && abs.quarantine == old(abs.quarantine)
      ensures !aborted ==> abs.big == old(abs.big) && at < |zones| && Holds(abs.zones[at], p) && abs.zones[at].internal
      ensures !aborted ==>
        size <= abs.zones[at].chunkSize <= if RoundRequest(size) > 1024 then 8 * RoundRequest(size) - 1 else 2080
      ensures PicksZone(old(abs), cached, RoundRequest(size), at, aborted, |zones| > |old(zones)|)
      ensures !aborted ==> HandsOut(old(abs.zones), abs.zones, at, p)
    {
      hide RootOk, MapsOk, Housed, Step, Reach, CanServe, NoneFits, Holds, Owned, Selects, Serving, SamePrefix;
      hide HandsOut;
      hide CacheFits;
      ghost var r := abs;
      var zi;
      zi, aborted, es := ChooseZone(cached, RoundRequest(size));
      if aborted { return 0, 0, true, es; }
      at := zi;
      ghost var mid, e := abs, Search([]);
      ZoneBuffers(at);
      p, e := TakeFrom(at, size);
      TakeEffect(mid, e, abs);
      TakeHandsOut(r.zones, mid, e, abs, p);
      StepKeepsSizes(mid, e, abs);
      SameOwners(r, mid, p);
      ReachStep(r, es, mid, e, abs);
      es := es + [e];
    }

    // --------------------------------------------------------------- client calls

    /** _iso_free. NULL and the zero-size page are ignored; a permanent free happens
        at once; any other free parks the chunk in the quarantine, after flushing a
        full one. */
    method Free(tzc: seq<CacheEntry>, p: nat, permanent: bool)
      returns (at: int, aborted: bool, ghost es: seq<Event>)
      requires Ready() && |zones| > 0 && CacheFits(abs.zones, tzc)
      requires p == 0 || p == zeroPage || p in live
      modifies this, repr, os, lists, records
      ensures fresh(repr - old(repr)) && repr >= old(repr) && zones == old(zones)
      ensures records == old(records) && -1 <= at < |zones|
      ensures aborted ==> |zones| >= MAX_ZONES || HasStrayZone(old(abs))
      ensures p == 0 || p == zeroPage ==> !aborted
      ensures p != 0 && p != zeroPage && permanent && FreeFails(old(abs), p, false) ==> aborted
      ensures aborted && permanent ==> FreeFails(old(abs), p, true)
      ensures aborted && !permanent ==> |old(abs.quarantine)| == CHUNK_QUARANTINE_SZ && FlushFails(old(abs))
      ensures p != 0 && p != zeroPage && !permanent && |old(abs.quarantine)| == CHUNK_QUARANTINE_SZ ==>
        (OldestFails(old(abs), false) ==> aborted)
      ensures !aborted ==> Ready() && Reach(old(abs), es, abs)
      ensures !aborted && (p == 0 || p == zeroPage) ==> abs == old(abs)
      ensures !aborted && p != 0 && p != zeroPage ==> abs.live == old(abs.live) - {p}
      ensures !aborted && p != 0 && p != zeroPage && permanent ==> es != [] && GaveUp(es[0], p, true, false)
      ensures !aborted && p != 0 && p != zeroPage && !permanent ==>
        Owned(abs, p) && es != [] && es[|es| - 1] == Quarantine(p)
      ensures p == 0 || p == zeroPage || !permanent ==> at == -1
      ensures p != 0 && p != zeroPage && permanent ==>
        if at >= 0 then InZone(old(abs.zones)[at], p) else p in old(abs.big)
      ensures !aborted && at >= 0 && !WearsOut(old(abs), at) ==> LeavesChunk(old(abs), abs, at, p, true)
      ensures !aborted && p != 0 && p != zeroPage && !permanent ==>
        abs.quarantine == if |old(abs.quarantine)| < 64 then old(abs.quarantine) + [p] else [p]
      ensures !aborted && p != 0 && p != zeroPage && !permanent && |old(abs.quarantine)| < 64 ==>
        abs == old(abs).(live := old(abs.live) - {p}, quarantine := old(abs.quarantine) + [p])
      ensures !aborted && permanent ==> abs.quarantine == old(abs.quarantine)
      ensures !aborted && p != 0 && p != zeroPage && permanent && at < 0 ==> p !in abs.parked
    {
      hide RootOk, MapsOk, Housed, BigOk, Step, Reach, HasStrayZone, CacheFits, FreeFails, WearsOut, LeavesChunk;
      NoEvents(abs);
      RootTables(abs);
      at, es, aborted := -1, [], false;
      if p == 0 || p == zeroPage { return; }
      LiveAddress(abs, p, zeroPage, os.mapped);
      if p % 8 != 0 { return -1, true, es; }
      if permanent {
        at, aborted, es := FreeUnlocked(tzc, p, true, false);
        if !aborted { UnflushedStays(); }
        return;
      }
      ghost var r := abs;
      if |quarantine| >= CHUNK_QUARANTINE_SZ {
        ghost var stop;
        aborted, es, stop := FlushQuarantine(tzc);
        if aborted { return; }
      }
      ghost var mid := abs;
      ghost var e := Park(p);
      ParkEffect(mid, e, abs);
      ReachStep(r, es, mid, e, abs);
      es := es + [e];
    }

    lemma UnflushedStays()
      requires HeapOk() && |abs.quarantine| == |quarantine|
      ensures flushed == 0
    {
    }

    /** A chunk enters the quarantine. */
    method Park(p: nat) returns (ghost e: Event)
      requires Valid() && p in live && |quarantine| < CHUNK_QUARANTINE_SZ
      modifies this`quarantine, this`live, this`abs
      ensures Valid() && e == Quarantine(p) && Step(old(abs), e, abs)
      ensures abs == old(abs).(live := old(abs.live) - {p}, quarantine := old(abs.quarantine) + [p])
    {
      hide RootOk, MapsOk, Housed;
      ghost var r := abs;
      quarantine := quarantine + [p];
      live := live - {p};
      e := Quarantine(p);
      abs := r.(live := live, quarantine := quarantine);
      StepKeepsOk(r, e, abs);
    }

    /** iso_free_from_zone on zone i: NULL is ignored, a chunk of that zone is freed at
        once, and any other address makes it abort before anything changes. */
    method FreeFromZone(p: nat, i: nat, permanent: bool) returns (aborted: bool, ghost es: seq<Event>)
      requires Valid() && i < |zones| && (p == 0 || p == zeroPage || p in live)
      modifies this`abs, this`live, this`flushed, this`repr, this`chunkTable, this`homes, this`lent, repr, os
      ensures fresh(repr - old(repr)) && repr >= old(repr)
      ensures p == 0 ==> !aborted && es == [] && abs == old(abs)
      ensures p != 0 && !InZone(old(abs.zones)[i], p) ==> aborted && Valid() && abs == old(abs)
      ensures InZone(old(abs.zones)[i], p) && p != 0 && ZoneFreeAborts(old(abs), i, p, false) ==> aborted
      ensures aborted && InZone(old(abs.zones)[i], p) ==> ZoneFreeAborts(old(abs), i, p, true)
      ensures !aborted ==> Valid() && Reach(old(abs), es, abs)
      ensures !aborted && p != 0 ==>
        abs.live == old(abs.live) - {p} && es != [] && GaveUp(es[0], p, permanent, false)
      ensures !aborted && p != 0 && !WearsOut(old(abs), i) ==> LeavesChunk(old(abs), abs, i, p, permanent)
    {
      hide RootOk, MapsOk, Housed, Step, Reach, Holds, HasStrayZone, StraySize;
      hide ChunkCount, Retires, WearsOut, LeavesChunk;
      ghost var r := abs;
      es, aborted := [], false;
      NoEvents(r);
      if p == 0 { return; }
      ZoneFields(i);
      ZoneBuffers(i);
      if p < zones[i].base || p >= zones[i].base + ZONE_USER_SIZE { return true, es; }
      if p == zeroPage { ZeroOutside(r, i, zeroPage, os.mapped); }
      aborted, es := FreeInZone(i, p, permanent, false);
      if !aborted { UnflushedStays(); }
    }

    /** The checks of _iso_alloc on a zone the caller names: a private zone must be usable,
        any zone must have a slot primed. */
    method Prime(i: nat, size: nat) returns (ok: bool, ghost es: seq<Event>)
      requires Valid() && i < |zones|
      modifies this`abs, zones[i], zones[i].freeBitSlots
      ensures Valid() && Reach(old(abs), es, abs) && (forall e :: e in es ==> e.Search?)
      ensures abs.live == old(abs.live) && abs.quarantine == old(abs.quarantine)
      ensures |abs.zones| == |old(abs.zones)| && abs.zones[i].chunkSize == old(abs.zones)[i].chunkSize
      ensures ok ==> abs.zones[i].cache.primed != BAD_BIT_SLOT
      ensures SamePrefix(old(abs.zones), abs.zones)
      ensures ok <==> if old(abs.zones)[i].internal then old(abs.zones)[i].cache.primed != BAD_BIT_SLOT
                      else CanServe(old(abs.zones)[i].states, old(abs.zones)[i].chunkSize, size)
    {
      hide RootOk, MapsOk, Housed, Step, Reach, CanServe;
      ghost var r := abs;
      NoEvents(r);
      es, ok := [], true;
      ZoneFields(i);
      if !zones[i].internal {
        ok := Probe(i, size);
        SearchNone(r);
        SearchMore(r, r, i, abs);
        OneEvent(r, Search(abs.zones), abs);
        SearchEffect(r, abs);
        SearchSameBut(r, abs);
        es := [Search(abs.zones)];
      }
      ZoneSlot(i);
      ok := ok && zones[i].nextFreeBitSlot != BAD_BIT_SLOT;
    }

    /** iso_alloc_from_zone: _iso_alloc on a zone the caller names. It aborts exactly for
        a request larger than the zone's chunks. A private zone returns NULL exactly if it
        fails the waste filter or has no free chunk. */
    method AllocFromZone(i: nat, size: nat) returns (p: nat, aborted: bool, ghost es: seq<Event>)
      requires Valid() && i < |zones|
      modifies this`abs, this`live, repr
      ensures Valid() && Reach(old(abs), es, abs)
      ensures aborted <==> size > 0 && RoundRequest(size) > old(abs.zones)[i].chunkSize
      ensures aborted || size == 0 ==> abs == old(abs)
      ensures size == 0 ==> p == zeroPage
      ensures !aborted && size > 0 && !old(abs.zones)[i].internal ==>
        (p == 0 <==> !CanServe(old(abs.zones)[i].states, old(abs.zones)[i].chunkSize, RoundRequest(size)))
      ensures !aborted && size > 0 && old(abs.zones)[i].internal ==>
        (p == 0 <==> old(abs.zones)[i].cache.primed == BAD_BIT_SLOT)
      ensures !aborted && size > 0 && p == 0 ==> abs.live == old(abs.live)
      ensures !aborted && size > 0 && p != 0 ==>
        !Owned(old(abs), p) && abs.live == old(abs.live)[p := size] && Holds(abs.zones[i], p)
      ensures !aborted && size > 0 && p != 0 ==> HandsOut(old(abs.zones), abs.zones, i, p)
    {
      hide RootOk, MapsOk, Housed, Step, Reach, Holds, Owned, CanServe, SamePrefix, HandsOut;
      ghost var r := abs;
      NoEvents(r);
      p, aborted, es := 0, false, [];
      if size == 0 { return zeroPage, false, es; }
      ZoneFields(i);
      ZoneBuffers(i);
      if RoundRequest(size) > zones[i].chunkSize { return 0, true, es; }
      var ok;
      ok, es := Prime(i, RoundRequest(size));
      if !ok { return; }
      ZoneBuffers(i);
      ghost var mid, e := abs, Search([]);
      p, e := TakeFrom(i, size);
      TakeEffect(mid, e, abs);
      TakeHandsOut(r.zones, mid, e, abs, p);
      SameOwners(r, mid, p);
      ReachStep(r, es, mid, e, abs);
      es := es + [e];
      HeldAddress(abs, i, p, zeroPage, os.mapped);
    }

    lemma ZoneSlot(i: nat)
      requires HeapOk() && i < |zones|
      ensures zones[i].nextFreeBitSlot == abs.zones[i].cache.primed
    {
    }

    /** iso_alloc_new_zone: a private zone, or none for a size that is too large. */
    method NewPrivateZone(size: nat) returns (at: int, aborted: bool, ghost es: seq<Event>)
      requires Valid()
      modifies this`zones, this`repr, this`sizeTable, this`chunkTable, this`abs, this`homes, this`lent, repr, os
      ensures Valid() && fresh(repr - old(repr)) && repr >= old(repr)
      ensures aborted <==> size <= SMALL_SIZE_MAX && |old(zones)| >= MAX_ZONES
      ensures !aborted ==> Reach(old(abs), es, abs)
      ensures !aborted ==> (at < 0 <==> size > SMALL_SIZE_MAX)
      ensures !aborted && at >= 0 ==>
        && at == |old(zones)| == |zones| - 1
        && !abs.zones[at].internal && abs.zones[at].chunkSize == RoundRequest(size)
      ensures abs.live == old(abs.live)
    {
      hide RootOk, MapsOk, Housed, Step, Reach;
      NoEvents(abs);
      es := [];
      if size > SMALL_SIZE_MAX { return -1, false, es; }
      ghost var r, e := abs, Search([]);
      StorageOwned();
      at, aborted, e := NewZone(size, false);
      if aborted { return; }
      AddEffect(r, e, abs);
      OneEvent(r, e, abs);
      es := [e];
    }

    /** iso_alloc_destroy_zone: the quarantine is flushed, and the zone's entry
        becomes an internal zone on new pages. The chunks the client still held in
        it are gone; nothing else changes hands. It always aborts when the zones array is
        used up, and otherwise only in the flush. */
    method DestroyZone(i: nat) returns (aborted: bool, ghost es: seq<Event>)
      requires Ready() && i < |zones| && !abs.zones[i].internal
      modifies this, repr, os, lists, records
      ensures fresh(repr - old(repr)) && repr >= old(repr) && zones == old(zones) && records == old(records)
      ensures |zones| >= MAX_ZONES || OldestFails(old(abs), false) ==> aborted
      ensures aborted ==> |zones| >= MAX_ZONES || (HasStrayZone(old(abs)) && FlushFails(old(abs)))
      ensures !aborted ==> Ready() && Reach(old(abs), es, abs) && abs.zones[i].internal && abs.quarantine == []
      ensures !aborted ==> NewInPlace(old(abs), abs, i)
      ensures !aborted ==> forall q :: q in abs.live <==> q in old(abs.live) && !InZone(old(abs.zones)[i], q)
    {
      hide RootOk, MapsOk, Housed, BigOk, Step, Reach, Replaces, WithReplacement;
      hide HasStrayZone, InZone, FreshZone;
      ghost var r := abs;
      NoCache(abs.zones);
      ghost var stop;
      aborted, es, stop := FlushQuarantine([]);
      if aborted { return; }
      ghost var mid := abs;
      RunKeepsPrivate(r, es, mid, i);
      RunSizes(r, es, mid);
      SameRange(r.zones[i], mid.zones[i]);
      ZoneBuffers(i);
      ghost var e;
      aborted, e := Recycle(i);
      if aborted { return; }
      ReachStep(r, es, mid, e, abs);
      es := es + [e];
    }

    /** A private zone's entry becomes an internal zone on new pages. */
    method Recycle(i: nat) returns (aborted: bool, ghost e: Event)
      requires Valid() && i < |zones| && !abs.zones[i].internal && abs.quarantine == []
      modifies this`abs, this`live, this`repr, this`chunkTable, this`homes, this`lent, zones[i], zones[i].bitmap, os
      modifies Storage(bitmaps, lent)
      ensures fresh(repr - old(repr)) && repr >= old(repr)
      ensures aborted <==> |zones| >= MAX_ZONES
      ensures !aborted ==> Valid() && Step(old(abs), e, abs) && e.Destroy? && e.i == i
      ensures !aborted ==> abs.zones[i].internal && abs.quarantine == [] && NewInPlace(old(abs), abs, i)
      ensures !aborted ==> forall q :: q in abs.live <==> q in old(abs.live) && !InZone(old(abs.zones)[i], q)
    {
      hide RootOk, MapsOk, Housed, Storage, Step, Replaces, WithReplacement, InZone, AddressSpace.Valid, NewInPlace;
      RootTables(abs);
      StorageOwned();
      ghost var v;
      aborted, v := ReplacePages(i);
      e := Destroy(i, v);
      if aborted { return; }
      Forfeit(i, v);
    }

    /** What clients held in zone i, which v has replaced, is no longer theirs. */
    ghost method Forfeit(i: nat, v: ZoneView)
      requires this !in repr && os !in repr && os.Valid() && RootOk(abs) && flushed == 0
      requires i < |zones| == |abs.zones| && !abs.zones[i].internal && abs.quarantine == []
      requires |abs.chunkTable| == CHUNK_LOOKUP_TABLE_LEN && Replaces(abs, i, v) && Housed(abs.zones[i := v])
      requires chunkTable == WithReplacement(abs, i, v).chunkTable
      requires abs == RootView(abs.zones, sizeTable, abs.chunkTable, quarantine, big, spare, live)
      requires MapsOk(abs.zones[i := v], big, spare, zeroPage, os.mapped)
      modifies this`abs, this`live
      ensures Valid() && Step(old(abs), Destroy(i, v), abs)
      ensures abs.zones[i].internal && abs.quarantine == [] && NewInPlace(old(abs), abs, i)
      ensures forall q :: q in abs.live <==> q in old(abs.live) && !InZone(old(abs.zones)[i], q)
    {
      hide RootOk, MapsOk, Housed, Step, Replaces, WithReplacement, InZone, AddressSpace.Valid, NewInPlace;
      var r := abs;
      live := map q | q in live && !InZone(r.zones[i], q) :: live[q];
      abs := WithReplacement(r, i, v).(live := live);
      ReplacementFields(r, i, v);
      DestroyKeeps(r, i, v, abs);
    }

    /** _iso_chunk_size: 0 for NULL and the zero-size page, else the size of the
        chunk or big mapping that p owns. */
    method ChunkSizeOf(tzc: seq<CacheEntry>, p: nat) returns (n: nat, aborted: bool)
      requires Ready() && |zones| > 0 && CacheFits(abs.zones, tzc)
      requires p == 0 || p == zeroPage || Owned(abs, p)
      ensures !aborted
      ensures p == 0 || p == zeroPage ==> n == 0
      ensures p != 0 && p != zeroPage ==> Extent(abs, p, n)
    {
      hide RootOk, MapsOk, Housed, Kept, Sizes, Spread, Holds, InZone, CacheFits;
      n, aborted := 0, false;
      if p == 0 || p == zeroPage { return; }
      var at;
      at, aborted := FindZoneRange(tzc, p);
      if aborted { return; }
      if at < 0 {
        OwnedNotInZone(abs, p);
        BigFacts(abs, p);
        n, aborted := SizeOf(lists, p, Sizes(big), spare, records);
        return;
      }
      OwnedInZone(abs, at, p);
      HeldIsSmall(abs, at, p);
      ZoneFields(at);
      return zones[at].chunkSize, false;
    }

    /** _iso_free_size: the size must fit the chunk, and tells big from small. */
    method FreeSize(tzc: seq<CacheEntry>, p: nat, size: nat) returns (aborted: bool, ghost es: seq<Event>)
      requires Ready() && |zones| > 0 && CacheFits(abs.zones, tzc)
      requires p == 0 || p == zeroPage || p in live
      modifies this, repr, os, lists, records
      ensures fresh(repr - old(repr)) && repr >= old(repr) && zones == old(zones) && records == old(records)
      ensures p == 0 ==> !aborted && abs == old(abs)
      ensures p == zeroPage && p != 0 ==> (aborted <==> size != 0) && abs == old(abs)
      ensures p != 0 && p != zeroPage && (!SizeFits(old(abs), p, size) || FreeFails(old(abs), p, false)) ==> aborted
      ensures p != 0 && p != zeroPage && aborted && SizeFits(old(abs), p, size) ==>
        FreeFails(old(abs), p, true) && (|zones| >= MAX_ZONES || HasStrayZone(old(abs)))
      ensures !aborted && p != 0 && p != zeroPage && p in old(abs.big) ==>
        (p in abs.parked <==> |old(lists.free)| < 64 && old(Young(lists, p)))
      ensures !aborted ==> Ready() && Reach(old(abs), es, abs) && (forall e :: e in es ==> GivesUpOnly(e, p))
      ensures !aborted && p != 0 && p != zeroPage ==>
        abs.live == old(abs.live) - {p} && es != [] && GaveUp(es[0], p, false, false)
    {
      hide RootOk, MapsOk, Housed, Kept, Sizes, Spread, Holds, InZone, CacheFits, Step;
      hide Reach, HasStrayZone, SizeFits, FreeFails, Young, WearsOut, LeavesChunk;
      NoEvents(abs);
      es, aborted := [], false;
      if p == 0 { return; }
      if p == zeroPage { return size != 0, es; }
      ghost var r := abs;
      if size > SMALL_SIZE_MAX {
        BigSizeFits(r, p, size);
        BigSpread(r);
        var n;
        n, aborted := SizeOf(lists, p, Sizes(big), spare, records);
        if aborted || n < size { return true, es; }
        BigNotParked(r, p);
        BigNeverFails(r, p);
        ghost var e;
        aborted, e := ReleaseBig(p, false, false);
        BigEffect(r, e, abs);
        OneEvent(r, e, abs);
        UnflushedStays();
        es := [e];
        return;
      }
      var at;
      at, aborted := FindZoneRange(tzc, p);
      if aborted { return; }
      SmallSizeFits(r, p, size, at);
      if at < 0 { return true, es; }
      InZoneNotBig(r, at, p);
      ZoneFields(at);
      if zones[at].chunkSize < size { return true, es; }
      at, aborted, es := FreeUnlocked(tzc, p, false, false);
      if !aborted { UnflushedStays(); }
    }

    /** Pages for a big request, and the record of them. */
    method ServeBig(size: nat) returns (p: nat, n: nat, ghost reused: bool, ghost record: BigZone, aborted: bool)
      requires HeapOk() && RootOk(abs) && BigOk() && Outside() && !Refused(size) && size > SMALL_SIZE_MAX
      modifies lists, records, os
      ensures !aborted && HeapOkBut(old(os.mapped)) && (record in records || fresh(record))
      ensures size <= n && n > SMALL_SIZE_MAX && p > 0 && p !in big && p != zeroPage && !Owned(abs, p)
      ensures reused ==> p in spare && n == spare[p]
      ensures reused <==> KeptFor(abs.parked, RoundUpPage(size))
      ensures RoundUpPage(size) <= n <= RoundUpPage(size) + 16384
      ensures !reused ==> PagesFit(abs, p, n, -1) && Mapping(p, n) in os.mapped
      ensures old(os.mapped) <= os.mapped
      ensures Kept(lists, Sizes(big)[p := n], if reused then spare - {p} else spare, records + {record})
    {
      hide RootOk, MapsOk, Housed, Kept, Owned, Unmapped, PagesFit;
      ghost var mapped := os.mapped;
      BigMapped(abs, zeroPage, mapped);
      p, n, reused, record, aborted := Serve(lists, os, size, Sizes(big), spare, records);
      BigPagesFit(abs, p, n, reused, zeroPage, mapped);
    }

    /** _iso_big_alloc for a request above the small sizes. It returns NULL exactly above
        the limit; otherwise pages that nobody owns, kept from an earlier allocation or
        mapped now, at least as large as the request. */
    method BigAlloc(size: nat) returns (p: nat, aborted: bool, ghost es: seq<Event>)
      requires Ready() && RoundRequest(size) > SMALL_SIZE_MAX
      modifies this`abs, this`live, this`big, this`spare, this`records, lists, records, os
      ensures !aborted && Ready() && Reach(old(abs), es, abs)
      ensures fresh(records - old(records)) && records >= old(records)
      ensures p == 0 <==> RoundUpPage(RoundRequest(size)) > BIG_SZ_MAX
      ensures p == 0 ==> es == [] && abs == old(abs)
      ensures p != 0 ==> |es| == 1 && (es[0].BigTake? || es[0].BigReuse?) && es[0].p == p && es[0].size == size
      ensures p != 0 ==> (es[0].BigReuse? <==> KeptFor(old(abs.parked), RoundUpPage(RoundRequest(size))))
      ensures p != 0 ==>
        RoundUpPage(RoundRequest(size)) <= |es[0].bytes| <= RoundUpPage(RoundRequest(size)) + 16384
      ensures p != 0 ==>
        !Owned(old(abs), p) && abs.live == old(abs.live)[p := size] && abs.quarantine == old(abs.quarantine)
    {
      hide RootOk, HeapOkBut, HeapOk, Kept, Sizes, Step, Reach, Owned, PagesFit;
      hide RoundUpPage, RoundRequest;
      ghost var r := abs;
      NoEvents(r);
      p, aborted, es := 0, false, [];
      if RoundUpPage(RoundRequest(size)) > BIG_SZ_MAX { return; }
      var n;
      ghost var reused, record;
      p, n, reused, record, aborted := ServeBig(RoundRequest(size));
      var bytes := AnyBytes(n);
      ghost var e := Adopt(p, bytes, size, reused, record, old(os.mapped));
      OneEvent(r, e, abs);
      es := [e];
    }

    /** A big mapping becomes a client's, with whatever it contains. */
    method Adopt(p: nat, bytes: seq<Byte>, size: nat, ghost reused: bool, ghost record: BigZone,
                 ghost mapped: set<Mapping>)
      returns (ghost e: Event)
      requires HeapOkBut(mapped) && mapped <= os.mapped && RootOk(abs) && Outside() && record !in repr
      requires p > 0 && p != zeroPage && |bytes| > SMALL_SIZE_MAX && size <= |bytes|
      requires reused ==> p in spare && |bytes| == spare[p]
      requires !reused ==> PagesFit(abs, p, |bytes|, -1) && Mapping(p, |bytes|) in os.mapped
      requires Kept(lists, Sizes(big)[p := |bytes|], if reused then spare - {p} else spare, records + {record})
      modifies this`abs, this`live, this`big, this`spare, this`records
      ensures HeapOk() && RootOk(abs) && BigOk() && Outside() && Step(old(abs), e, abs)
      ensures e == if reused then BigReuse(p, bytes, size) else BigTake(p, bytes, size)
      ensures abs.live == old(abs.live)[p := size] && abs.quarantine == old(abs.quarantine)
      ensures records == old(records) + {record}
    {
      hide RootOk, MapsOk, Housed, Kept, Sizes, Step, PagesFit, AddressSpace.Valid;
      ghost var r := abs;
      SizesWith(big, p, bytes);
      big, live := big[p := bytes], live[p := size];
      records := records + {record};
      if reused {
        spare, e := spare - {p}, BigReuse(p, bytes, size);
      } else {
        e := BigTake(p, bytes, size);
      }
      abs := RootView(r.zones, sizeTable, chunkTable, r.quarantine, big, spare, live);
      BigAllocKeeps(r, e, abs, zeroPage, mapped, os.mapped);
    }

    /** HeapOk, with the mappings as they were before the last mmap or munmap. */
    ghost predicate HeapOkBut(mapped: set<Mapping>)
      reads this, repr, os
    {
      && this !in repr && os !in repr && os.Valid()
      && |abs.zones| == |zones| && Housed(abs.zones)
      && flushed <= |quarantine|
      && abs == RootView(abs.zones, sizeTable, chunkTable, quarantine[flushed..], big, spare, live)
      && MapsOk(abs.zones, big, spare, zeroPage, mapped)
    }

    /** The client stores data at the start of the chunk it holds in zone i. */
    method StoreInZone(i: nat, p: nat, data: seq<Byte>) returns (ghost e: Event)
      requires Valid() && i < |zones| && Holds(abs.zones[i], p) && |data| <= abs.zones[i].chunkSize
      modifies this`abs, zones[i].user
      ensures Valid() && e.Write? && Step(old(abs), e, abs) && abs == old(abs).(zones := abs.zones)
      ensures |abs.zones| == |old(abs.zones)|
      ensures e.i == i && e.c < |old(abs.zones)[i].states| && ChunkAddress(old(abs.zones)[i], e.c) == p
      ensures abs.zones[i].base <= p && p - abs.zones[i].base + |data| <= |abs.zones[i].mem| && Holds(abs.zones[i], p)
      ensures abs.zones[i].chunkSize == old(abs.zones)[i].chunkSize
      ensures abs.zones[i].mem[p - abs.zones[i].base..][..|data|] == data
    {
      hide RootOk, MapsOk, Tied, Lent, SlotTie, Storage, AllSlots, ZoneOk, Step, Holds, WriteAt;
      ghost var r := abs;
      RootZoneOk(r, i);
      HoldsInside(r.zones[i], p);
      HoldsUsed(r, i, p);
      ZoneFields(i);
      ghost var c := (p - r.zones[i].base) / r.zones[i].chunkSize;
      RootZoneShape(r, i);
      ZoneHome(i);
      ghost var m := ZoneStore(i, p - zones[i].base, data, r.zones);
      e := Write(i, c, m);
      abs := r.(zones := r.zones[i := r.zones[i].(mem := m)]);
      StoreKeeps(r, i, c, p, data, abs, zeroPage, os.mapped);
      SlotTieSame(r.zones, abs.zones, bitmaps, homes, lent);
    }

    method ZoneStore(i: nat, off: nat, data: seq<Byte>, ghost zs: seq<ZoneView>) returns (ghost m: seq<Byte>)
      requires Tied(zs) && i < |zones| && off + |data| <= |zs[i].mem| == ZONE_USER_SIZE
      modifies zones[i].user
      ensures unchanged(os) && m == WriteAt(zs[i].mem, off, data) && Tied(zs[i := zs[i].(mem := m)])
    {
      hide Decode, WriteAt, MaxBitmapIdx, ChunkCount;
      assert zones[i].View() == zs[i];
      Store(zones[i].user, off, data);
      m := zones[i].user[..];
    }

    /** The client stores data at the start of its big allocation. */
    method StoreInBig(p: nat, data: seq<Byte>) returns (ghost e: Event)
      requires Valid() && p in big && |data| <= |big[p]|
      modifies this`abs, this`big
      ensures Valid() && e.BigWrite? && e.p == p && Step(old(abs), e, abs) && abs == old(abs).(big := abs.big)
      ensures p in abs.big && |abs.big[p]| == |old(abs.big)[p]| && abs.big[p][..|data|] == data
      ensures Sizes(big) == old(Sizes(big))
    {
      hide RootOk, Housed;
      ghost var r := abs;
      big := big[p := WriteAt(big[p], 0, data)];
      e := BigWrite(p, big[p]);
      abs := r.(big := big);
      StepKeepsOk(r, e, abs);
      assert big[p][0..0 + |data|] == data;
    }

    /** The first n bytes an owned address refers to. */
    method LoadBytes(tzc: seq<CacheEntry>, p: nat, n: nat, ghost bytes: seq<Byte>)
      returns (data: seq<Byte>, aborted: bool)
      requires Valid() && |zones| > 0 && CacheFits(abs.zones, tzc) && Owned(abs, p) && Contents(abs, p, bytes)
      requires n <= |bytes|
      ensures !aborted && data == bytes[..n]
    {
      hide RootOk, MapsOk, Housed, Holds, InZone, CacheFits, Owned, Contents;
      var at;
      data := [];
      at, aborted := FindZoneRange(tzc, p);
      if aborted { return; }
      if at < 0 {
        OwnedNotInZone(abs, p);
        BigContents(abs, p, bytes);
        data := big[p][..n];
        return;
      }
      OwnedInZone(abs, at, p);
      ZoneFields(at);
      ZonePages(at);
      ZoneContents(abs, at, p, bytes);
      var off := p - zones[at].base;
      data := zones[at].user[off..off + n];
    }

    lemma ZonePages(i: nat)
      requires HeapOk() && i < |zones|
      ensures zones[i].user[..] == abs.zones[i].mem && zones[i].user.Length == ZONE_USER_SIZE
    {
    }
  }

  /** Whatever is found in a mapping. */
  method AnyBytes(n: nat) returns (bytes: seq<Byte>)
    ensures |bytes| == n
  {
    var content: nat -> Byte := *;
    bytes := seq(n, i requires 0 <= i < n => content(i));
  }

  lemma ZeroOutside(r: RootView, i: nat, zero: nat, mapped: set<Mapping>)
    requires MapsOk(r.zones, r.big, r.parked, zero, mapped) && i < |r.zones|
    ensures !InZone(r.zones[i], zero)
  {
  }

  /** is_zone_usable on a zone with view v. */
  method ProbeOne(z: Zone, size: nat, ghost v: ZoneView) returns (ok: bool, ghost v': ZoneView)
    requires z.Shape() && z.View() == v && ZoneOk(v)
    modifies z, z.freeBitSlots
    ensures z.Shape() && z.Footprint() == old(z.Footprint()) && z.bitmap == old(z.bitmap)
    ensures v' == z.View() && ZoneOk(v') && v' == v.(cache := v'.cache)
    ensures ok <==> CanServe(v.states, v.chunkSize, size)
    ensures ok ==> v'.cache.primed != BAD_BIT_SLOT
  {
    hide ZoneOk, Decode, HasFreeSlot, WasteOk, CanServe;
    ok := z.IsZoneUsable(size);
    v' := z.View();
  }

  /** The allocation from the primed slot of a zone with view v. */
  method TakeOne(z: Zone, ghost v: ZoneView) returns (p: nat, ghost c: nat)
    requires z.Shape() && z.View() == v && ZoneOk(v) && v.cache.primed != BAD_BIT_SLOT
    modifies z, z.bitmap, z.user
    ensures z.Shape() && z.Footprint() == old(z.Footprint()) && z.bitmap == old(z.bitmap)
    ensures c < |v.states| && v.cache.primed == 2 * c && ChunkOffset(v, c) + 8 <= |v.mem| && p == ChunkAddress(v, c)
    ensures z.View() == TakeChunk(v, c)
  {
    hide ZoneOk, Decode, TakeChunk;
    PrimedSlotShape(v);
    c := z.nextFreeBitSlot / 2;
    var aborted;
    p, aborted := z.AllocPrimed();
  }

  /** _iso_new_zone on an entry that was in use: all but next_sz_index is new. */
  method RebuildOne(z: Zone, i: nat, os: AddressSpace, words: array<bv64>, idx: int, ghost before: ZoneView)
    returns (ghost v: ZoneView)
    requires z.Shape() && z.View() == before && os.Valid() && IsChunkSize(before.chunkSize)
    requires words.Length == MaxBitmapIdx(before.chunkSize) && AllZero(words)
    modifies z, os, words
    ensures os.Valid() && z.Shape() && fresh(z.Footprint() - {z, words}) && z.bitmap == words
    ensures v == z.View() && FreshZone(v) && z.base == v.base
    ensures v.home == if idx < 0 then OwnPages else Shared(Slot(BitmapSize(v.chunkSize), idx))
    ensures v.chunkSize == before.chunkSize && v.internal && v.index == i && v.nextSz == before.nextSz
    ensures v.base >= PAGE_SIZE && v.base % PAGE_SIZE == 0 && os.mapped == old(os.mapped) + {ZoneMapping(v.base)}
    ensures forall m :: m in old(os.mapped) ==>
      Apart(v.base - PAGE_SIZE, ZONE_USER_SIZE + 2 * PAGE_SIZE, m.start, m.size)
  {
    hide FreshZone, Decode, MaxBitmapIdx, ChunkCount, IsChunkSize;
    var m := os.Mmap(ZONE_USER_SIZE + 2 * PAGE_SIZE);
    z.Build(z.chunkSize, true, i, m + PAGE_SIZE, words, idx);
    v := z.View();
  }

  /** iso_free_chunk_from_zone on an in-use chunk of a zone with view v. */
  method ReleaseOne(z: Zone, p: nat, permanent: bool, beyond: bool, ghost v: ZoneView)
    returns (aborted: bool, ghost c: nat)
    requires z.Shape() && z.View() == v && ZoneOk(v) && Holds(v, p) && InZone(v, p)
    modifies z, z.freeBitSlots, z.bitmap, z.user
    ensures z.Shape() && z.Footprint() == old(z.Footprint()) && z.bitmap == old(z.bitmap)
    ensures c == (p - v.base) / v.chunkSize < |v.states| && v.afCount > 0 && 16 <= v.chunkSize
    ensures ChunkOffset(v, c) + v.chunkSize <= |v.mem|
    ensures z.View() == ReleaseChunk(v, c, permanent)
    ensures GeometryOk(z.View()) && aborted == NeighbourAborts(z.View(), c, beyond)
  {
    hide ZoneOk, Decode, ReleaseChunk, NeighbourAborts, MaxBitmapIdx, ChunkCount, ChunkFreed;
    c := (p - v.base) / v.chunkSize;
    ReleaseShape(v, c, permanent);
    FillBounded(v);
    aborted := z.FreeChunk(p, permanent, beyond);
  }

  lemma BigContents(r: RootView, p: nat, bytes: seq<Byte>)
    requires p in r.big && Contents(r, p, bytes)
    ensures bytes == r.big[p]
  {
  }

  lemma ZoneContents(r: RootView, i: nat, p: nat, bytes: seq<Byte>)
    requires RootOk(r) && i < |r.zones| && Holds(r.zones[i], p) && Contents(r, p, bytes)
    ensures r.zones[i].base <= p && |bytes| == r.zones[i].chunkSize
    ensures p - r.zones[i].base + r.zones[i].chunkSize <= |r.zones[i].mem|
    ensures bytes == r.zones[i].mem[p - r.zones[i].base..p - r.zones[i].base + r.zones[i].chunkSize]
  {
    hide ChainsOk, TablesOk, OwnershipOk, ZoneOk, RangesOk, Holds;
    HeldIsSmall(r, i, p);
    HoldsInside(r.zones[i], p);
    var j: nat :| j < |r.zones| && HoldsBytes(r.zones[j], p, bytes);
    HoldsInside(r.zones[j], p);
    ZoneUnique(r.zones, r.big, i, j, p);
  }

  /** The size passed to a sized free agrees with what p owns. */
  ghost predicate SizeFits(r: RootView, p: nat, size: nat) {
    if p in r.big then SMALL_SIZE_MAX < size <= |r.big[p]|
    else
      && size <= SMALL_SIZE_MAX
      && exists i: nat :: i < |r.zones| && Holds(r.zones[i], p) && size <= r.zones[i].chunkSize
  }

  /** The size fits, in numbers. */
  lemma SizeFitsExactly(r: RootView, p: nat, size: nat)
    requires RootOk(r)
    ensures p in r.big ==> (SizeFits(r, p, size) <==> 65536 < size <= |r.big[p]|)
    ensures forall i: nat :: i < |r.zones| && Holds(r.zones[i], p) ==>
      (SizeFits(r, p, size) <==> size <= 65536 && size <= r.zones[i].chunkSize)
  {
    hide RangesOk, ChainsOk, TablesOk, OwnershipOk, ZoneOk, Holds, ParkedOk, SlotsOk;
    forall i: nat, j: nat | i < |r.zones| && Holds(r.zones[i], p) && j < |r.zones| && Holds(r.zones[j], p)
      ensures i == j
    {
      HoldsInside(r.zones[i], p);
      HoldsInside(r.zones[j], p);
      ZoneUnique(r.zones, r.big, i, j, p);
    }
    forall i: nat | i < |r.zones| && Holds(r.zones[i], p) ensures p !in r.big { HeldIsSmall(r, i, p); }
  }

  lemma BigSizeFits(r: RootView, p: nat, size: nat)
    requires size > SMALL_SIZE_MAX
    ensures SizeFits(r, p, size) <==> p in r.big && size <= |r.big[p]|
  {
  }

  lemma SmallSizeFits(r: RootView, p: nat, size: nat, at: int)
    requires RootOk(r) && Owned(r, p) && size <= SMALL_SIZE_MAX && -1 <= at < |r.zones|
    requires at >= 0 ==> InZone(r.zones[at], p)
    requires at < 0 ==> forall i: nat :: i < |r.zones| ==> !InZone(r.zones[i], p)
    ensures SizeFits(r, p, size) <==> at >= 0 && size <= r.zones[at].chunkSize
  {
    hide RangesOk, ChainsOk, TablesOk, OwnershipOk, ZoneOk, Holds, Owned;
    if at < 0 {
      OwnedNotInZone(r, p);
    } else {
      OwnedInZone(r, at, p);
      HeldIsSmall(r, at, p);
      forall i: nat | i < |r.zones| && Holds(r.zones[i], p) ensures i == at {
        HoldsInside(r.zones[i], p);
        ZoneUnique(r.zones, r.big, i, at, p);
      }
    }
  }

  lemma HeldIsSmall(r: RootView, i: nat, p: nat)
    requires RootOk(r) && i < |r.zones| && Holds(r.zones[i], p)
    ensures p !in r.big && Extent(r, p, r.zones[i].chunkSize)
  {
    hide ChainsOk, TablesOk, OwnershipOk, ZoneOk, RangesOk, Holds;
    HoldsInside(r.zones[i], p);
    if p in r.big { BigNotInZone(r.zones, r.big, i, p); }
  }

  lemma StoreKeeps(r: RootView, i: nat, c: nat, p: nat, data: seq<Byte>, r': RootView, zero: nat, mapped: set<Mapping>)
    requires RootOk(r) && UsedChunk(r, i, c, p) && |data| <= r.zones[i].chunkSize
    requires MapsOk(r.zones, r.big, r.parked, zero, mapped)
    requires ChunkOffset(r.zones[i], c) + |data| <= |r.zones[i].mem|
    requires var z := r.zones[i]; r' == r.(zones := r.zones[i := z.(mem := WriteAt(z.mem, ChunkOffset(z, c), data))])
    ensures Step(r, Write(i, c, r'.zones[i].mem), r') && RootOk(r') && MapsOk(r'.zones, r'.big, r'.parked, zero, mapped)
    ensures p - r'.zones[i].base + |data| <= |r'.zones[i].mem| && Holds(r'.zones[i], p)
    ensures r'.zones[i].mem[p - r'.zones[i].base..][..|data|] == data
  {
    hide RootOk, MapsOk, WriteAt, ZoneOk;
    StepKeepsOk(r, Write(i, c, r'.zones[i].mem), r');
    MapsSame(r, r', zero, mapped);
    RootZoneOk(r, i);
    ChunkSizePositive(r.zones[i]);
    HoldsChunk(r'.zones[i], c);
    var o := ChunkOffset(r.zones[i], c);
    assert r'.zones[i].mem[o..][..|data|] == r'.zones[i].mem[o..o + |data|];
  }

  /** Only its destruction changes the frame of a private zone. */
  lemma StepKeepsPrivate(r: RootView, e: Event, r': RootView, i: nat)
    requires Step(r, e, r') && !e.Destroy? && i < |r.zones| && !r.zones[i].internal
    ensures i < |r'.zones| && SameFrame(r.zones[i], r'.zones[i])
  {
    hide ZoneOk, FreshZone, PagesFit, FreedMemory, Insert, WriteAt;
  }

  lemma {:induction false} RunKeepsPrivate(r: RootView, es: seq<Event>, r': RootView, i: nat)
    requires Reach(r, es, r') && (forall e :: e in es ==> !e.Destroy?) && i < |r.zones| && !r.zones[i].internal
    ensures i < |r'.zones| && SameFrame(r.zones[i], r'.zones[i])
    decreases |es|
  {
    hide Step;
    if es != [] {
      var mid :| Reach(r, Front(es), mid) && Step(mid, Last(es), r');
      forall e | e in Front(es) ensures !e.Destroy? {}
      RunKeepsPrivate(r, Front(es), mid, i);
      assert Last(es) in es;
      StepKeepsPrivate(mid, Last(es), r', i);
    }
  }

  /** The entry of zone i is a new zone of the same chunk size. */
  ghost predicate NewInPlace(r: RootView, r': RootView, i: nat) {
    && i < |r.zones| == |r'.zones| && FreshZone(r'.zones[i])
    && r'.zones[i].chunkSize == r.zones[i].chunkSize && r'.zones[i].index == i
  }

  lemma DestroyKeeps(r: RootView, i: nat, v: ZoneView, r': RootView)
    requires RootOk(r) && i < |r.zones| && |r.chunkTable| == CHUNK_LOOKUP_TABLE_LEN
    requires !r.zones[i].internal && r.quarantine == []
    requires Replaces(r, i, v)
    requires r' == WithReplacement(r, i, v).(live := map q | q in r.live && !InZone(r.zones[i], q) :: r.live[q])
    ensures RootOk(r') && Step(r, Destroy(i, v), r') && r'.zones == r.zones[i := v] && v.internal && r'.quarantine == []
    ensures NewInPlace(r, r', i)
  {
    hide RootOk, PagesFit, FreshZone;
    StepKeepsOk(r, Destroy(i, v), r');
  }

  lemma RunSizes(r: RootView, es: seq<Event>, r': RootView)
    requires Reach(r, es, r')
    ensures forall i: nat :: i < |r.zones| ==> i < |r'.zones| && r'.zones[i].chunkSize == r.zones[i].chunkSize
  {
    hide Reach;
    ReachSizes(r, es, r');
  }

  lemma SameRange(z: ZoneView, z': ZoneView)
    requires SameFrame(z, z')
    ensures forall q: nat :: InZone(z', q) == InZone(z, q)
  {
  }

  lemma NoCache(zones: seq<ZoneView>)
    ensures CacheFits(zones, [])
  {
  }

  /** A live address is 8-byte aligned and is neither NULL nor the zero-size page. */
  lemma LiveAddress(r: RootView, p: nat, zero: nat, mapped: set<Mapping>)
    requires RootOk(r) && MapsOk(r.zones, r.big, r.parked, zero, mapped) && Owned(r, p)
    ensures p % 8 == 0 && p != zero
  {
    hide RootOk, MapsOk, Owned, Holds, InZone;
    OwnedPlaces(r, p);
    if p in r.big {
      BigAddress(r, p, zero, mapped);
    } else {
      var i: nat :| i < |r.zones| && HoldsAlone(r, i, p);
      ZoneAddress(r, i, p, zero, mapped);
    }
  }

  lemma HeldAddress(r: RootView, i: nat, p: nat, zero: nat, mapped: set<Mapping>)
    requires RootOk(r) && MapsOk(r.zones, r.big, r.parked, zero, mapped) && i < |r.zones| && Holds(r.zones[i], p)
    ensures p != 0
  {
    hide ChainsOk, TablesOk, OwnershipOk, Holds, ZoneOk;
    HoldsInside(r.zones[i], p);
  }

  lemma BigAddress(r: RootView, p: nat, zero: nat, mapped: set<Mapping>)
    requires RootOk(r) && MapsOk(r.zones, r.big, r.parked, zero, mapped) && p in r.big
    ensures p % 8 == 0 && p != zero
  {
    hide ChainsOk, TablesOk, OwnershipOk, ZonesOk, ParkedOk, Apart, InZone;
    PageAligned(p);
  }

  lemma PageAligned(p: nat)
    ensures p % PAGE_SIZE == 0 ==> p % 8 == 0
  {
  }

  lemma ZoneAddress(r: RootView, i: nat, p: nat, zero: nat, mapped: set<Mapping>)
    requires RootOk(r) && MapsOk(r.zones, r.big, r.parked, zero, mapped) && i < |r.zones| && Holds(r.zones[i], p)
    ensures p % 8 == 0 && p != zero
  {
    hide ChainsOk, TablesOk, OwnershipOk, Holds, ZoneOk;
    HoldsInside(r.zones[i], p);
    ChunkAligned(r.zones[i], p);
  }

  lemma ChunkAligned(z: ZoneView, p: nat)
    requires ZoneOk(z) && Holds(z, p) && z.base % PAGE_SIZE == 0
    ensures p % 8 == 0
  {
    hide CacheOk, CanariesIntact, CountOf, Holds;
    HoldsInside(z, p);
    AlignedSum(z.base, (p - z.base) / z.chunkSize, z.chunkSize);
  }

  lemma AlignedSum(base: nat, c: nat, size: nat)
    requires base % PAGE_SIZE == 0 && size % SZ_ALIGNMENT == 0
    ensures (base + c * size) % 8 == 0
  {
    var k := size / 32;
    TimesThirtyTwo(c, k, size);
    var n := c * k;
    assert (base + 32 * n) % 8 == 0;
  }

  lemma TimesThirtyTwo(c: nat, k: nat, size: nat)
    requires size == 32 * k
    ensures c * size == 32 * (c * k)
  {
  }

  lemma ParkEffect(r: RootView, e: Event, r': RootView)
    requires Step(r, e, r') && e.Quarantine?
    ensures r'.live == r.live - {e.p} && Owned(r', e.p)
  {
  }

  lemma SearchEffect(r: RootView, r': RootView)
    requires Step(r, Search(r'.zones), r')
    ensures r' == r.(zones := r'.zones) && |r'.zones| == |r.zones|
  {
  }

  lemma AddEffect(r: RootView, e: Event, r': RootView)
    requires Step(r, e, r') && e.AddZone?
    ensures r'.live == r.live && r'.quarantine == r.quarantine && r'.big == r.big
  {
  }

  lemma TakeEffect(r: RootView, e: Event, r': RootView)
    requires RootOk(r) && Step(r, e, r') && e.Take? && e.i < |r.zones| && e.c < |r.zones[e.i].states|
    ensures var p := ChunkAddress(r.zones[e.i], e.c);
            && !Owned(r, p) && r'.live == r.live[p := e.size]
            && r'.quarantine == r.quarantine && r'.big == r.big
            && |r'.zones| == |r.zones| && Holds(r'.zones[e.i], p)
            && r'.zones[e.i].chunkSize == r.zones[e.i].chunkSize
  {
    hide RangesOk, ChainsOk, TablesOk, OwnershipOk, CacheOk, CanariesIntact, CountOf, WriteAt, Owned, Holds;
    var z, c := r.zones[e.i], e.c;
    TakeKeepsOk(z, c);
    HoldsChunk(z, c);
    HoldsChunk(TakeChunk(z, c), c);
    AddressInZone(z, c);
    FreeIsUnowned(r, e.i, ChunkAddress(z, c));
  }

  lemma SameOwners(r: RootView, r': RootView, p: nat)
    requires r'.live == r.live && r'.quarantine == r.quarantine
    ensures Owned(r, p) == Owned(r', p)
  {
  }

  /** A thread's cache stays right through any step: zones keep their index and
      chunk size, and an internal zone stays internal. */
  lemma StepKeepsCache(r: RootView, e: Event, r': RootView, tzc: seq<CacheEntry>)
    requires RootOk(r) && Step(r, e, r') && CacheFits(r.zones, tzc)
    ensures CacheFits(r'.zones, tzc)
  {
    hide RootOk;
    StepKeepsSizes(r, e, r');
  }

  /** Chunk sizes are never changed, and internal zones stay internal. */
  ghost predicate SameSizes(zones: seq<ZoneView>, zones': seq<ZoneView>) {
    && |zones| <= |zones'|
    && forall i: nat :: i < |zones| ==>
      zones'[i].chunkSize == zones[i].chunkSize && (zones[i].internal ==> zones'[i].internal)
  }

  lemma StepKeepsSizes(r: RootView, e: Event, r': RootView)
    requires Step(r, e, r')
    ensures SameSizes(r.zones, r'.zones)
  {
    hide ZoneOk, FreshZone, TakeChunk, ReleaseChunk, PagesFit;
    match e
    case Take(i, c, size) => TakeShape(r.zones[i], c);
    case Release(p, i, c, permanent) => ReleaseKeepsShape(r.zones[i], c, permanent);
    case Flush(i, c) => ReleaseKeepsShape(r.zones[i], c, false);
    case _ =>
  }

  lemma TakeShape(z: ZoneView, c: nat)
    requires c < |z.states| && ChunkOffset(z, c) + 8 <= |z.mem|
    ensures TakeChunk(z, c).chunkSize == z.chunkSize && TakeChunk(z, c).internal == z.internal
    ensures TakeChunk(z, c).home == z.home
  {
  }

  lemma ReleaseKeepsShape(z: ZoneView, c: nat, permanent: bool)
    requires c < |z.states| && z.afCount > 0 && 16 <= z.chunkSize && ChunkOffset(z, c) + z.chunkSize <= |z.mem|
    ensures ReleaseChunk(z, c, permanent).chunkSize == z.chunkSize
    ensures ReleaseChunk(z, c, permanent).internal == z.internal
  {
  }

  lemma {:induction false} ReachSizes(r: RootView, es: seq<Event>, r': RootView)
    requires Reach(r, es, r')
    ensures SameSizes(r.zones, r'.zones)
    decreases |es|
  {
    hide Step;
    if es != [] {
      var mid :| Reach(r, Front(es), mid) && Step(mid, Last(es), r');
      ReachSizes(r, Front(es), mid);
      StepKeepsSizes(mid, Last(es), r');
    }
  }

  lemma ReachKeepsCache(r: RootView, es: seq<Event>, r': RootView, tzc: seq<CacheEntry>)
    requires Reach(r, es, r') && CacheFits(r.zones, tzc)
    ensures CacheFits(r'.zones, tzc)
  {
    hide Reach;
    ReachSizes(r, es, r');
  }

  /** A run that adds only zones of chunk size s has unaddressed chunks only where
      it had them before or in those zones. */
  lemma {:induction false} RunStrayZones(r: RootView, es: seq<Event>, r': RootView, s: nat)
    requires Reach(r, es, r') && IsChunkSize(s) && (forall e :: e in es ==> e.AddZone? ==> e.zone.chunkSize == s)
    requires HasStrayZone(r') && !HasStrayZone(r)
    ensures StraySize(s)
    decreases |es|
  {
    hide Step, StraySize, HasStrayZone, IsChunkSize;
    if es != [] {
      var mid :| Reach(r, Front(es), mid) && Step(mid, Last(es), r');
      forall e | e in Front(es) ensures e.AddZone? ==> e.zone.chunkSize == s {}
      if HasStrayZone(mid) {
        RunStrayZones(r, Front(es), mid, s);
      } else {
        assert Last(es) in es;
        StepStrayZones(mid, Last(es), r', s);
      }
    }
  }

  lemma StepStrayZones(r: RootView, e: Event, r': RootView, s: nat)
    requires Step(r, e, r') && IsChunkSize(s) && (e.AddZone? ==> e.zone.chunkSize == s)
    requires HasStrayZone(r') && !HasStrayZone(r)
    ensures StraySize(s)
  {
    hide StraySize, IsChunkSize, Step, HasStrayZone;
    StepKeepsSizes(r, e, r');
    StepCount(r, e, r');
    var i := WhichStray(r');
    if i < |r.zones| {
      SameRootSize(r, r', i);
      StrayAt(r, i);
    }
  }

  lemma WhichStray(r: RootView) returns (i: nat)
    requires HasStrayZone(r)
    ensures i < |r.zones| && StraySize(RootChunkSize(r, i))
  {
    hide StraySize;
    i :| i < |r.zones| && StraySize(RootChunkSize(r, i));
  }

  lemma SameRootSize(r: RootView, r': RootView, i: nat)
    requires SameSizes(r.zones, r'.zones) && i < |r.zones|
    ensures RootChunkSize(r, i) == RootChunkSize(r', i)
  {
  }

  lemma StepCount(r: RootView, e: Event, r': RootView)
    requires Step(r, e, r')
    ensures |r'.zones| == |r.zones| || (e.AddZone? && |r'.zones| == |r.zones| + 1 && r'.zones[|r.zones|] == e.zone)
  {
    hide ZoneOk, FreshZone, TakeChunk, ReleaseChunk, PagesFit;
  }

  lemma ReachKeepsSizes(r: RootView, es: seq<Event>, r': RootView)
    requires Reach(r, es, r') && |r.zones| == |r'.zones|
    ensures HasStrayZone(r') ==> HasStrayZone(r)
  {
    hide Reach, StraySize;
    ReachSizes(r, es, r');
    if HasStrayZone(r') {
      var i: nat :| i < |r'.zones| && StraySize(RootChunkSize(r', i));
      assert RootChunkSize(r, i) == RootChunkSize(r', i);
    }
  }

  /** The events of freeing p at once: p's release and the retirement of zones. */
  predicate GivesUpOnly(e: Event, p: nat) {
    e.Replace? || (e.Release? && e.p == p) || (e.BigRelease? && e.p == p)
  }

  /** The event frees p as asked: at once, permanently or not, or from the quarantine. */
  predicate GaveUp(e: Event, p: nat, permanent: bool, parked: bool) {
    if parked then e.Flush? || e.BigFlush?
    else (e.Release? && e.p == p && e.permanent == permanent) || (e.BigRelease? && e.p == p && (permanent ==> !e.park))
  }

  /** An internal zone with nothing allocated has served more than 32 allocations for
      each of its chunks. */
  ghost predicate Retires(r: RootView, i: nat)
    requires i < |r.zones|
  {
    && r.zones[i].afCount == 0 && r.zones[i].allocCount > 32 * ChunkCount(RootChunkSize(r, i))
    && r.zones[i].internal && r.zones[i].chunkSize < 2 * MAX_DEFAULT_ZONE_SZ
  }

  /** Some zone has chunks its bitmap does not address, and a bitmap of a size that shares
      pages. */
  ghost predicate HasStrayZone(r: RootView) {
    exists i: nat :: i < |r.zones| && StraySize(RootChunkSize(r, i))
  }

  lemma StrayAt(r: RootView, i: nat)
    requires i < |r.zones| && StraySize(RootChunkSize(r, i))
    ensures HasStrayZone(r)
  {
  }

  lemma NoEvents(r: RootView)
    ensures Reach(r, [], r)
  {
  }

  lemma OneEvent(r: RootView, e: Event, r': RootView)
    requires Step(r, e, r')
    ensures Reach(r, [e], r')
  {
    hide Step;
    ReachStep(r, [], r, e, r');
    assert [] + [e] == [e];
  }

  lemma ReplacementFields(r: RootView, i: nat, v: ZoneView)
    requires i < |r.zones| && |r.chunkTable| == CHUNK_LOOKUP_TABLE_LEN
    ensures WithReplacement(r, i, v) == r.(zones := r.zones[i := v], chunkTable := WithReplacement(r, i, v).chunkTable)
  {
  }

  lemma ReplaceKeeps(r: RootView, i: nat, v: ZoneView, r': RootView)
    requires RootOk(r) && i < |r.zones| && |r.chunkTable| == CHUNK_LOOKUP_TABLE_LEN
    requires r.zones[i].afCount == 0 && r.zones[i].internal
    requires Replaces(r, i, v) && r' == WithReplacement(r, i, v)
    ensures RootOk(r') && Reach(r, [Replace(i, v)], r')
  {
    hide RootOk, Replaces, WithReplacement, Reach;
    StepKeepsOk(r, Replace(i, v), r');
    OneEvent(r, Replace(i, v), r');
  }

  /** A big mapping is given up by its client or by the quarantine. */
  ghost function BigForgotten(r: RootView, p: nat, park: bool, parked: bool): RootView
    requires p in r.big && (parked ==> |r.quarantine| > 0)
  {
    BigGivenUp(r, p, park).(live := if parked then r.live else r.live - {p},
                            quarantine := if parked then r.quarantine[1..] else r.quarantine)
  }

  lemma BigForgottenParts(r: RootView, p: nat, park: bool, parked: bool)
    requires p in r.big && (parked ==> |r.quarantine| > 0)
    ensures BigForgotten(r, p, park, parked) ==
      RootView(r.zones, r.sizeTable, r.chunkTable, if parked then r.quarantine[1..] else r.quarantine, r.big - {p},
               if park then r.parked[p := |r.big[p]|] else r.parked, if parked then r.live else r.live - {p})
  {
  }

  lemma ReleaseBigKeeps(r: RootView, p: nat, park: bool, parked: bool, zero: nat, mapped: set<Mapping>,
                        mapped': set<Mapping>)
    requires RootOk(r) && MapsOk(r.zones, r.big, r.parked, zero, mapped) && p in r.big
    requires if parked then |r.quarantine| > 0 && r.quarantine[0] == p else p in r.live
    requires mapped' == mapped || (!park && mapped' == mapped - {Mapping(p, |r.big[p]|)})
    ensures var r' := BigForgotten(r, p, park, parked);
      && Step(r, if parked then BigFlush(park) else BigRelease(p, park), r')
      && RootOk(r') && MapsOk(r'.zones, r'.big, r'.parked, zero, mapped')
  {
    hide RootOk, MapsOk;
    var r' := BigForgotten(r, p, park, parked);
    StepKeepsOk(r, if parked then BigFlush(park) else BigRelease(p, park), r');
    UnmapKeeps(r, p, park, r', zero, mapped, mapped');
  }

  /** Nothing else used the pages of a big mapping. */
  lemma UnmapKeeps(r: RootView, p: nat, park: bool, r': RootView, zero: nat, mapped: set<Mapping>,
                   mapped': set<Mapping>)
    requires RootOk(r) && MapsOk(r.zones, r.big, r.parked, zero, mapped) && p in r.big
    requires r'.zones == r.zones && r'.big == r.big - {p} && r'.parked == BigGivenUp(r, p, park).parked
    requires mapped' == mapped || (!park && mapped' == mapped - {Mapping(p, |r.big[p]|)})
    ensures MapsOk(r'.zones, r'.big, r'.parked, zero, mapped')
  {
    hide ZonesOk, ChainsOk, OwnershipOk, TablesOk;
    forall i: nat | i < |r.zones| ensures ZoneMapping(r.zones[i].base) in mapped' {
      assert Apart(r.zones[i].base, ZONE_USER_SIZE, p, |r.big[p]|);
    }
  }

  /** A mapping of at least this size, and at most 16 KB more, is kept for reuse. */
  ghost predicate KeptFor(parked: map<nat, nat>, size: nat) {
    exists q :: q in parked && size <= parked[q] <= size + 16384
  }

  lemma BigFacts(r: RootView, p: nat)
    requires RootOk(r) && p in r.big
    ensures Spread(Sizes(r.big)) && p !in r.parked
  {
    hide ZonesOk, ChainsOk, OwnershipOk, TablesOk;
  }

  lemma NothingMapped(zero: nat, mapped: set<Mapping>)
    requires Mapping(zero, PAGE_SIZE) in mapped
    ensures MapsOk([], map[], map[], zero, mapped)
  {
  }

  lemma EmptyParts()
    ensures EmptyRoot() == RootView([], EmptyRoot().sizeTable, EmptyRoot().chunkTable, [], map[], map[], map[])
  {
  }

  lemma BigMapped(r: RootView, zero: nat, mapped: set<Mapping>)
    requires RootOk(r) && MapsOk(r.zones, r.big, r.parked, zero, mapped)
    ensures forall q :: q in r.parked ==> q !in Sizes(r.big)
    ensures forall q :: q in Sizes(r.big) ==> Sizes(r.big)[q] > 0 && Mapping(q, Sizes(r.big)[q]) in mapped
  {
    hide ZonesOk, ChainsOk, OwnershipOk, TablesOk;
    forall q | q in r.parked ensures q !in r.big { if q in r.big { BigFacts(r, q); } }
  }

  lemma BigSpread(r: RootView)
    requires RootOk(r)
    ensures Spread(Sizes(r.big))
  {
    hide ZonesOk, ChainsOk, OwnershipOk, TablesOk;
  }

  /** The pages of a record that serves a request belong to nobody. */
  lemma BigPagesFit(r: RootView, p: nat, n: nat, reused: bool, zero: nat, mapped: set<Mapping>)
    requires RootOk(r) && MapsOk(r.zones, r.big, r.parked, zero, mapped)
    requires reused ==> p in r.parked && n == r.parked[p]
    requires !reused ==> n > SMALL_SIZE_MAX && p > 0 && p % PAGE_SIZE == 0 && Unmapped(p, n, mapped)
    ensures p !in r.big && p != zero && p > 0 && !Owned(r, p) && n > SMALL_SIZE_MAX
    ensures !reused ==> PagesFit(r, p, n, -1)
  {
    hide RootOk, Owned;
    if reused {
      ReusedUnowned(r, p);
      ParkedLarge(r, p);
    } else {
      assert PagesFit(r, p, n, -1) by {
        forall i: nat | i < |r.zones| ensures Apart(r.zones[i].base, ZONE_USER_SIZE, p, n) {
          assert ZoneMapping(r.zones[i].base) in mapped;
        }
        forall q | q in r.big ensures Apart(p, n, q, |r.big[q]|) { assert Mapping(q, |r.big[q]|) in mapped; }
        forall q | q in r.parked ensures Apart(p, n, q, r.parked[q]) { assert Mapping(q, r.parked[q]) in mapped; }
      }
      assert Mapping(zero, PAGE_SIZE) in mapped;
      NewUnowned(r, p, n);
    }
  }

  lemma BigAllocKeeps(r: RootView, e: Event, r': RootView, zero: nat, mapped: set<Mapping>, mapped': set<Mapping>)
    requires RootOk(r) && MapsOk(r.zones, r.big, r.parked, zero, mapped) && mapped <= mapped'
    requires (e.BigTake? || e.BigReuse?)
    requires e.p > 0 && e.p != zero && |e.bytes| > SMALL_SIZE_MAX && e.size <= |e.bytes|
    requires e.BigReuse? ==> e.p in r.parked && |e.bytes| == r.parked[e.p]
    requires e.BigTake? ==> PagesFit(r, e.p, |e.bytes|, -1) && Mapping(e.p, |e.bytes|) in mapped'
    requires r' == r.(big := r.big[e.p := e.bytes], live := r.live[e.p := e.size],
                      parked := if e.BigReuse? then r.parked - {e.p} else r.parked)
    ensures Step(r, e, r') && RootOk(r') && MapsOk(r'.zones, r'.big, r'.parked, zero, mapped')
  {
    hide RootOk, PagesFit;
    StepKeepsOk(r, e, r');
  }

  lemma SizesWith(big: map<nat, seq<Byte>>, p: nat, bytes: seq<Byte>)
    ensures Sizes(big[p := bytes]) == Sizes(big)[p := |bytes|]
  {
  }

  lemma SizesWithout(big: map<nat, seq<Byte>>, p: nat)
    requires p in big
    ensures Sizes(big - {p}) == Sizes(big) - {p}
  {
  }

  /** An owned address inside a zone is held by it. */
  lemma OwnedInZone(r: RootView, i: nat, p: nat)
    requires RootOk(r) && i < |r.zones| && InZone(r.zones[i], p) && Owned(r, p)
    ensures Holds(r.zones[i], p)
  {
    hide ChainsOk, TablesOk, Holds, ZoneOk;
    if !Holds(r.zones[i], p) { FreeIsUnowned(r, i, p); }
  }

  /** An owned address outside every zone is a big allocation. */
  lemma OwnedNotInZone(r: RootView, p: nat)
    requires RootOk(r) && Owned(r, p) && (forall i: nat :: i < |r.zones| ==> !InZone(r.zones[i], p))
    ensures p in r.big
  {
    hide ChainsOk, TablesOk, Holds, ZoneOk, RangesOk;
    if p !in r.big {
      var i: nat :| i < |r.zones| && Holds(r.zones[i], p);
      HoldsInside(r.zones[i], p);
    }
  }

  lemma ReleaseEffect(r: RootView, e: Event, r': RootView)
    requires Step(r, e, r') && (e.Release? || e.Flush?)
    ensures r'.live == (if e.Flush? then r.live else r.live - {e.p})
    ensures e.Flush? ==> |r.quarantine| > 0
    ensures r'.quarantine == (if e.Flush? then r.quarantine[1..] else r.quarantine)
  {
  }

  lemma BigEffect(r: RootView, e: Event, r': RootView)
    requires Step(r, e, r') && (e.BigRelease? || e.BigFlush?)
    ensures r'.live == (if e.BigFlush? then r.live else r.live - {e.p})
    ensures e.BigFlush? ==> |r.quarantine| > 0
    ensures r'.quarantine == (if e.BigFlush? then r.quarantine[1..] else r.quarantine)
  {
  }

  function RootChunkSize(r: RootView, i: nat): (s: nat)
    ensures IsChunkSize(s)
  {
    if i < |r.zones| && IsChunkSize(r.zones[i].chunkSize) then r.zones[i].chunkSize else 32
  }

  lemma HoldsUsed(r: RootView, i: nat, p: nat)
    requires RootOk(r) && i < |r.zones| && Holds(r.zones[i], p)
    ensures UsedChunk(r, i, (p - r.zones[i].base) / r.zones[i].chunkSize, p)
    ensures IsChunkSize(r.zones[i].chunkSize)
  {
    hide RangesOk, ChainsOk, OwnershipOk, TablesOk, CacheOk, CanariesIntact, CountOf;
    var c := (p - r.zones[i].base) / r.zones[i].chunkSize;
    HoldsInside(r.zones[i], p);
    ReleaseShape(r.zones[i], c, false);
  }

  lemma ReleaseKeeps(r: RootView, i: nat, c: nat, p: nat, permanent: bool, parked: bool, r': RootView, zero: nat,
                     mapped: set<Mapping>)
    requires RootOk(r) && UsedChunk(r, i, c, p) && MapsOk(r.zones, r.big, r.parked, zero, mapped)
    requires (parked ==> !permanent)
    requires if parked then |r.quarantine| > 0 && r.quarantine[0] == p else p in r.live
    requires r' == r.(zones := r.zones[i := ReleaseChunk(r.zones[i], c, permanent)],
                      live := if parked then r.live else r.live - {p},
                      quarantine := if parked then r.quarantine[1..] else r.quarantine)
    ensures Step(r, if parked then Flush(i, c) else Release(p, i, c, permanent), r')
    ensures RootOk(r') && MapsOk(r'.zones, r'.big, r'.parked, zero, mapped)
  {
    hide RootOk, MapsOk, FreedMemory, Insert;
    StepKeepsOk(r, if parked then Flush(i, c) else Release(p, i, c, permanent), r');
    MapsSame(r, r', zero, mapped);
  }

  lemma ReleaseHome(z: ZoneView, c: nat, permanent: bool)
    requires c < |z.states| && 16 <= z.chunkSize && ChunkOffset(z, c) + z.chunkSize <= |z.mem|
    ensures ReleaseChunk(z, c, permanent).home == z.home
  {
  }

  // ------------------------------------------------------------ when a free aborts

  /** Freeing p in zone i looks at the chunk behind the last addressable one, finds a set
      bit behind the bitmap, and no canary in the chunk. */
  ghost predicate StrayFree(r: RootView, i: nat, p: nat, foreign: bool)
    requires i < |r.zones|
  {
    var z := r.zones[i];
    && GeometryOk(z) && z.base <= p
    && var c := (p - z.base) / z.chunkSize;
    && c + 1 == |z.states| < ChunkCount(z.chunkSize)
    && StrayBit(r.zones, i, foreign) && !ChunkCanaryIntact(z, c + 1)
  }

  /** The neighbour checks abort exactly then. */
  lemma StrayExactly(r: RootView, i: nat, c: nat, p: nat, permanent: bool, foreign: bool)
    requires RootOk(r) && UsedChunk(r, i, c, p) && c == (p - r.zones[i].base) / r.zones[i].chunkSize
    requires GeometryOk(ReleaseChunk(r.zones[i], c, permanent))
    ensures NeighbourAborts(ReleaseChunk(r.zones[i], c, permanent), c, StrayBit(r.zones, i, foreign)) <==>
      StrayFree(r, i, p, foreign)
  {
    hide NeighbourAborts, StrayBit, ReleaseChunk, ChunkCanaryIntact, BaseOk, ParkedOk, SlotsOk;
    RootZoneOk(r, i);
    FreeAborts(r.zones[i], c, permanent, StrayBit(r.zones, i, foreign));
  }

  /** Behind the last slot of a page the bit is anything; otherwise it is known. */
  lemma StrayBounds(r: RootView, i: nat, p: nat, foreign: bool)
    requires i < |r.zones|
    ensures StrayFree(r, i, p, false) ==> StrayFree(r, i, p, foreign)
    ensures StrayFree(r, i, p, foreign) ==> StrayFree(r, i, p, true)
    ensures (r.zones[i].home.Shared? ==> HasNext(r.zones[i].home.slot)) ==>
      (StrayFree(r, i, p, false) <==> StrayFree(r, i, p, true))
  {
    hide ChunkCanaryIntact, Neighboured;
  }

  /** The zone holds its last chunk, and has served more than 32 allocations for each of
      its chunks: freeing that chunk replaces it. */
  ghost predicate WearsOut(r: RootView, i: nat)
    requires i < |r.zones|
  {
    && r.zones[i].afCount == 1 && r.zones[i].allocCount > 32 * ChunkCount(RootChunkSize(r, i))
    && r.zones[i].internal && r.zones[i].chunkSize < 2 * MAX_DEFAULT_ZONE_SZ
  }

  /** Freeing p in zone i aborts, in the neighbour checks or in the replacement of the zone. */
  ghost predicate ZoneFreeAborts(r: RootView, i: nat, p: nat, foreign: bool)
    requires i < |r.zones|
  {
    StrayFree(r, i, p, foreign) || (WearsOut(r, i) && |r.zones| >= MAX_ZONES)
  }

  /** Freeing p aborts. */
  ghost predicate FreeFails(r: RootView, p: nat, foreign: bool) {
    exists i: nat :: i < |r.zones| && InZone(r.zones[i], p) && ZoneFreeAborts(r, i, p, foreign)
  }

  /** Freeing the oldest entry of the quarantine aborts. */
  ghost predicate OldestFails(r: RootView, foreign: bool) {
    |r.quarantine| > 0 && FreeFails(r, r.quarantine[0], foreign)
  }

  /** Flushing the quarantine gets to an entry whose free aborts. */
  ghost predicate FlushFails(r: RootView) {
    exists es, stop :: Reach(r, es, stop) && OldestFails(stop, true)
  }

  lemma InZoneNotBig(r: RootView, i: nat, p: nat)
    requires RootOk(r) && i < |r.zones| && InZone(r.zones[i], p)
    ensures p !in r.big
  {
    hide ZonesOk, ChainsOk, TablesOk, OwnershipOk, ParkedOk, SlotsOk;
    if p in r.big { BigNotInZone(r.zones, r.big, i, p); }
  }

  lemma BigNotParked(r: RootView, p: nat)
    requires RootOk(r) && p in r.big
    ensures p !in r.parked
  {
    hide RootOk;
    BigFacts(r, p);
  }

  lemma BigNeverFails(r: RootView, p: nat)
    requires RootOk(r) && p in r.big
    ensures forall foreign :: !FreeFails(r, p, foreign)
  {
    hide ParkedOk, SlotsOk, ZonesOk, ChainsOk, TablesOk, OwnershipOk, ZoneFreeAborts, InZone;
    forall i: nat | i < |r.zones| ensures !InZone(r.zones[i], p) {
      if InZone(r.zones[i], p) { BigNotInZone(r.zones, r.big, i, p); }
    }
  }

  /** What a free at p leaves in zone i, which is not replaced. */
  ghost predicate LeavesChunk(r: RootView, r': RootView, i: nat, p: nat, permanent: bool) {
    && i < |r.zones| && i < |r'.zones|
    && var z, z' := r.zones[i], r'.zones[i];
    && z'.base == z.base && z'.chunkSize == z.chunkSize > 0 && z.base <= p
    && var c := (p - z.base) / z.chunkSize;
    && c * z.chunkSize == p - z.base && ChunkFreed(z, z', c, permanent)
  }

  lemma ReleaseLeaves(r: RootView, e: Event, r': RootView, p: nat, permanent: bool)
    requires Step(r, e, r') && (e.Release? || e.Flush?) && UsedChunk(r, e.i, e.c, p)
    requires permanent == (e.Release? && e.permanent)
    ensures LeavesChunk(r, r', e.i, p, permanent)
  {
    hide FreedMemory, Insert, ChunkFreed;
    ChunkOfOffset(r.zones[e.i].chunkSize, e.c);
    ReleasedParts(r.zones[e.i], e.c, permanent);
  }

  lemma ReleaseRetires(r: RootView, e: Event, r': RootView, i: nat)
    requires Step(r, e, r') && (e.Release? || e.Flush?) && e.i == i
    ensures i < |r.zones| == |r'.zones| && (Retires(r', i) <==> WearsOut(r, i))
  {
    hide FreedMemory, Insert, ChunkCount;
  }

  lemma FailsHere(r: RootView, i: nat, p: nat)
    requires RootOk(r) && i < |r.zones| && InZone(r.zones[i], p)
    ensures forall foreign :: FreeFails(r, p, foreign) <==> ZoneFreeAborts(r, i, p, foreign)
    ensures ZoneFreeAborts(r, i, p, true) ==> |r.zones| >= MAX_ZONES || HasStrayZone(r)
  {
    hide ParkedOk, SlotsOk, ZonesOk, ChainsOk, TablesOk, OwnershipOk, ZoneFreeAborts, InZone, HasStrayZone;
    forall j: nat | j < |r.zones| && InZone(r.zones[j], p) ensures j == i { ZoneUnique(r.zones, r.big, i, j, p); }
    if ZoneFreeAborts(r, i, p, true) { FailsOnlyIf(r, i, p); }
  }

  /** So a free can abort only if the zones array is used up or a zone of a certain size
      exists. */
  lemma FailsOnlyIf(r: RootView, i: nat, p: nat)
    requires RootOk(r) && i < |r.zones| && ZoneFreeAborts(r, i, p, true)
    ensures |r.zones| >= MAX_ZONES || HasStrayZone(r)
  {
    hide BaseOk, ParkedOk, ChunkCanaryIntact, Neighboured;
    if StrayFree(r, i, p, true) {
      assert HomeOk(r.zones[i]);
      AddressableChunks(r.zones[i].chunkSize);
      StrayAt(r, i);
    }
  }

  /** No zone, or an internal zone with chunks that are large enough. */
  ghost predicate Suggested(zones: seq<ZoneView>, cached: int, size: nat) {
    -1 <= cached < |zones| && (cached >= 0 ==> zones[cached].internal && zones[cached].chunkSize >= size)
  }

  /** Cached zones are internal and their chunk sizes are right. */
  ghost predicate CacheFits(zones: seq<ZoneView>, tzc: seq<CacheEntry>) {
    forall k: nat :: k < |tzc| ==>
      tzc[k].at < |zones| && zones[tzc[k].at].internal && zones[tzc[k].at].chunkSize == tzc[k].chunkSize
  }

  lemma TableEntry(r: RootView, k: nat)
    requires RootOk(r) && k < |r.chunkTable| && |r.zones| > 0
    ensures r.chunkTable[k] < |r.zones|
  {
  }

  lemma ReleaseShape(z: ZoneView, c: nat, permanent: bool)
    requires ZoneOk(z) && c < |z.states| && z.states[c] == InUse
    ensures z.afCount > 0 && 16 <= z.chunkSize && ChunkOffset(z, c) + z.chunkSize <= |z.mem|
    ensures GeometryOk(ReleaseChunk(z, c, permanent))
  {
    hide CacheOk, CanariesIntact, Insert, FreedMemory;
    ReleaseKeepsOk(z, c, permanent);
  }

  lemma RootZoneShape(r: RootView, i: nat)
    requires RootOk(r) && i < |r.zones|
    ensures IsChunkSize(r.zones[i].chunkSize) && |r.zones[i].mem| == ZONE_USER_SIZE
  {
  }

  lemma ZoneIsMapped(r: RootView, i: nat, zero: nat, mapped: set<Mapping>)
    requires MapsOk(r.zones, r.big, r.parked, zero, mapped) && i < |r.zones|
    ensures r.zones[i].base >= PAGE_SIZE && ZoneMapping(r.zones[i].base) in mapped
  {
  }

  /** After zone i has been unmapped and mapped again. */
  lemma MapsWithout(r: RootView, i: nat, v: ZoneView, zero: nat, before: set<Mapping>, between: set<Mapping>,
                    after: set<Mapping>)
    requires RootOk(r) && MapsOk(r.zones, r.big, r.parked, zero, before) && i < |r.zones|
    requires r.zones[i].base >= PAGE_SIZE
    requires between == before - {ZoneMapping(r.zones[i].base)}
    requires v.base >= PAGE_SIZE && v.base % PAGE_SIZE == 0 && after == between + {ZoneMapping(v.base)}
    requires forall m :: m in between ==> Apart(v.base - PAGE_SIZE, ZONE_USER_SIZE + 2 * PAGE_SIZE, m.start, m.size)
    ensures PagesFit(r, v.base, ZONE_USER_SIZE, i)
    ensures MapsOk(r.zones[i := v], r.big, r.parked, zero, after)
  {
    hide ZonesOk, ChainsOk, OwnershipOk, TablesOk, PagesFit;
    forall j: nat | j < |r.zones| && j != i ensures ZoneMapping(r.zones[j].base) in between {
      assert r.zones[j].base != r.zones[i].base by {
        assert i < j ==> Apart(r.zones[i].base, ZONE_USER_SIZE, r.zones[j].base, ZONE_USER_SIZE);
        assert j < i ==> Apart(r.zones[j].base, ZONE_USER_SIZE, r.zones[i].base, ZONE_USER_SIZE);
      }
    }
    forall p | p in r.big ensures Mapping(p, |r.big[p]|) in between {
      assert Apart(r.zones[i].base, ZONE_USER_SIZE, p, |r.big[p]|);
    }
    forall p | p in r.parked ensures Mapping(p, r.parked[p]) in between {
      assert Apart(r.zones[i].base, ZONE_USER_SIZE, p, r.parked[p]);
    }
    assert Mapping(zero, PAGE_SIZE) in between;
    PagesFitHere(r, v.base, between, i);
  }

  lemma FreshAnyChain(z: ZoneView, next: nat)
    requires FreshZone(z)
    ensures FreshZone(z.(nextSz := next))
  {
    hide CanaryOf, CanaryAt, CacheOk, CountOf, DrawnOnly;
    var z' := z.(nextSz := next);
    var draws :| DrawnBy(z, draws);
    assert DrawnBy(z', draws);
    forall c: nat | c < |z'.states| && HasCanary(z'.states[c]) ensures CanaryOkAt(z', c) { assert CanaryOkAt(z, c); }
  }

  lemma FreshPrimed(z: ZoneView)
    requires FreshZone(z)
    ensures z.cache.primed != BAD_BIT_SLOT
  {
  }

  lemma AddKeeps(r: RootView, z: ZoneView, r': RootView, zero: nat, mapped: set<Mapping>, mapped': set<Mapping>)
    requires RootOk(r) && MapsOk(r.zones, r.big, r.parked, zero, mapped) && FreshZone(z) && IsChunkSize(z.chunkSize)
    requires |r.sizeTable| == ZONE_LOOKUP_TABLE_LEN && |r.chunkTable| == CHUNK_LOOKUP_TABLE_LEN && |r.zones| < MAX_ZONES
    requires z.index == |r.zones| && z.nextSz == if z.internal then r.sizeTable[SizeIndex(z.chunkSize)] else 0
    requires HomeFits(r.zones, z, -1)
    requires r' == r.(zones := r.zones + [z],
                      sizeTable := if z.internal then r.sizeTable[SizeIndex(z.chunkSize) := z.index] else r.sizeTable,
                      chunkTable := r.chunkTable[ChunkIndex(z.base) := z.index])
    requires z.base >= PAGE_SIZE && z.base % PAGE_SIZE == 0 && mapped' == mapped + {ZoneMapping(z.base)}
    requires forall m :: m in mapped ==> Apart(z.base - PAGE_SIZE, ZONE_USER_SIZE + 2 * PAGE_SIZE, m.start, m.size)
    ensures Step(r, AddZone(z), r') && RootOk(r') && MapsOk(r'.zones, r'.big, r'.parked, zero, mapped')
  {
    hide RootOk, FreshZone, HomeFits;
    PagesFitHere(r, z.base, mapped, -1);
    StepKeepsOk(r, AddZone(z), r');
  }

  /** A mapping apart from everything that is mapped gives pages that fit. */
  lemma PagesFitHere(r: RootView, base: nat, mapped: set<Mapping>, except: int)
    requires base >= PAGE_SIZE && base % PAGE_SIZE == 0
    requires forall i: nat :: i < |r.zones| && i != except ==>
      r.zones[i].base >= PAGE_SIZE && ZoneMapping(r.zones[i].base) in mapped
    requires forall p :: p in r.big ==> Mapping(p, |r.big[p]|) in mapped
    requires forall p :: p in r.parked ==> Mapping(p, r.parked[p]) in mapped
    requires forall m :: m in mapped ==> Apart(base - PAGE_SIZE, ZONE_USER_SIZE + 2 * PAGE_SIZE, m.start, m.size)
    ensures PagesFit(r, base, ZONE_USER_SIZE, except)
  {
  }

  /** No internal zone with large enough chunks can serve the request. */
  ghost predicate NoneFits(r: RootView, size: nat) {
    forall i: nat :: i < |r.zones| ==> !Eligible(r.zones[i], size)
  }

  lemma NoneFitsBefore(r: RootView, r': RootView, size: nat)
    requires Step(r, Search(r'.zones), r') && NoneFits(r', size)
    ensures NoneFits(r, size)
  {
    hide CanServe;
  }

  lemma NoneEligible(r: RootView, r': RootView, size: nat)
    requires Step(r, Search(r'.zones), r') && forall j: nat :: j < |r.zones| ==> !Eligible(r.zones[j], size)
    ensures NoneFits(r', size)
  {
    hide CanServe;
  }

  lemma ProbedServing(r0: RootView, r: RootView, i: nat, size: nat)
    requires Step(r0, Search(r.zones), r) && i < |r.zones|
    ensures Serving(r0.zones, i, size) <==> CanServe(r.zones[i].states, r.zones[i].chunkSize, size)
  {
    hide CanServe;
  }

  lemma ProbedEligible(r0: RootView, r: RootView, i: nat, size: nat)
    requires Step(r0, Search(r.zones), r) && i < |r.zones|
    ensures |r0.zones| == |r.zones|
    ensures Eligible(r0.zones[i], size) <==>
      r.zones[i].internal && r.zones[i].chunkSize >= size && CanServe(r.zones[i].states, r.zones[i].chunkSize, size)
  {
    hide CanServe;
  }

  lemma ChainLink(r0: RootView, r: RootView, i: nat)
    requires RootOk(r) && Step(r0, Search(r.zones), r) && i < |r.zones|
    ensures i < |r0.zones| && r.zones[i].nextSz == r0.zones[i].nextSz
    ensures Chain(r0.zones, i) == if r.zones[i].nextSz == 0 then [i] else [i] + Chain(r0.zones, r.zones[i].nextSz)
  {
    hide RootOk;
    ChainNext(r, i);
    SearchSameBut(r0, r);
  }

  /** The walk has passed these zones and stops at zone i. */
  lemma StopsHere(zones: seq<ZoneView>, past: seq<nat>, i: nat, size: nat)
    requires Serving(zones, i, size) && forall k: nat :: k < |past| ==> !Serving(zones, past[k], size)
    ensures FirstServing(zones, past + Chain(zones, i), size, i)
  {
    hide Serving;
    var chain := past + Chain(zones, i);
    assert chain[|past|] == i && StopsAt(zones, chain, size, |past|);
  }

  lemma WalkSelects(r: RootView, orig: nat, n: nat, at: int)
    requires SettlesOn(r.sizeTable, orig, n) && at >= 0
    requires FirstServing(r.zones, ClassZones(r, DoubledTo(orig, n)), DoubledTo(orig, n), at)
    ensures Selects(r, orig, at)
  {
    hide SettlesOn, DoubledTo, ClassZones, Serving;
    assert SelectsAfter(r, orig, n, at);
  }

  lemma ScanSelects(r: RootView, orig: nat, n: nat, at: int)
    requires SettlesOn(r.sizeTable, orig, n) && FirstEligible(r.zones, orig, at)
    requires FirstServing(r.zones, ClassZones(r, DoubledTo(orig, n)), DoubledTo(orig, n), -1)
    ensures Selects(r, orig, at)
  {
    hide SettlesOn, DoubledTo, ClassZones, FirstServing, FirstEligible;
    assert SelectsAfter(r, orig, n, at);
  }

  lemma AlignedSize(size: nat)
    requires IsChunkSize(size)
    ensures size % 32 == 0
  {
  }

  lemma SizeInTable(size: nat)
    requires IsChunkSize(size)
    ensures SizeIndex(size) == size / 16 < ZONE_LOOKUP_TABLE_LEN
  {
  }

  /** The zone a small request is served from: the cached one if it can serve the request,
      else the one find_suitable_zone returns, and a new one at the end if there is none. */
  ghost predicate PicksZone(r: RootView, cached: int, size: nat, at: int, aborted: bool, added: bool) {
    if cached >= 0 && Serving(r.zones, cached, size) then !aborted && !added && at == cached
    else
      && Selects(r, size, if aborted || added then -1 else at)
      && (!aborted && added ==> at == |r.zones|)
  }

  /** What find_suitable_zone promises of the zone it returns. */
  ghost predicate Suitable(z: ZoneView, size: nat) {
    z.internal && z.cache.primed != BAD_BIT_SLOT && z.chunkSize >= size
  }

  lemma SearchNone(r: RootView)
    ensures Step(r, Search(r.zones), r)
  {
  }

  lemma SearchMore(r0: RootView, r: RootView, i: nat, r': RootView)
    requires Step(r0, Search(r.zones), r) && i < |r.zones| == |r'.zones|
    requires r' == r.(zones := r'.zones) && r'.zones == r.zones[i := r'.zones[i]] && Searched(r.zones[i], r'.zones[i])
    ensures Step(r0, Search(r'.zones), r')
  {
  }

  lemma RootTables(r: RootView)
    requires RootOk(r)
    ensures |r.sizeTable| == ZONE_LOOKUP_TABLE_LEN && |r.chunkTable| == CHUNK_LOOKUP_TABLE_LEN && |r.zones| <= MAX_ZONES
    ensures |r.quarantine| <= CHUNK_QUARANTINE_SZ
  {
  }

  /** The head of a size class is an internal zone of that size. */
  lemma ChainHead(r: RootView, k: nat)
    requires RootOk(r) && k < |r.sizeTable| && r.sizeTable[k] != 0
    ensures r.sizeTable[k] < |r.zones| && r.zones[r.sizeTable[k]].internal
    ensures r.zones[r.sizeTable[k]].chunkSize == 16 * k
  {
    hide ZonesOk, RangesOk, OwnershipOk, TablesOk;
  }

  /** So is every later zone, and its index is smaller. */
  lemma ChainNext(r: RootView, i: nat)
    requires RootOk(r) && i < |r.zones|
    ensures r.zones[i].index == i
    ensures r.zones[i].nextSz != 0 ==>
      && r.zones[i].nextSz < i
      && r.zones[r.zones[i].nextSz].internal && r.zones[r.zones[i].nextSz].chunkSize == r.zones[i].chunkSize
  {
  }

  lemma TakeKeeps(r: RootView, i: nat, c: nat, size: nat, z: ZoneView, p: nat, r': RootView, zero: nat,
                  mapped: set<Mapping>)
    requires RootOk(r) && i < |r.zones| && c < |r.zones[i].states| && r.zones[i].cache.primed == 2 * c
    requires ChunkOffset(r.zones[i], c) + 8 <= |r.zones[i].mem| && size <= r.zones[i].chunkSize
    requires z == TakeChunk(r.zones[i], c) && p == ChunkAddress(r.zones[i], c)
    requires r' == r.(zones := r.zones[i := z], live := r.live[p := size])
    requires MapsOk(r.zones, r.big, r.parked, zero, mapped)
    ensures Step(r, Take(i, c, size), r') && RootOk(r') && MapsOk(r'.zones, r'.big, r'.parked, zero, mapped)
  {
    hide RootOk, MapsOk, WriteAt;
    StepKeepsOk(r, Take(i, c, size), r');
    MapsSame(r, r', zero, mapped);
  }

  lemma MapsSame(r: RootView, r': RootView, zero: nat, mapped: set<Mapping>)
    requires MapsOk(r.zones, r.big, r.parked, zero, mapped)
    requires |r'.zones| == |r.zones| && (forall i: nat :: i < |r.zones| ==> r'.zones[i].base == r.zones[i].base)
    requires r'.big == r.big && r'.parked == r.parked
    ensures MapsOk(r'.zones, r'.big, r'.parked, zero, mapped)
  {
  }

  lemma RootSlots(r: RootView)
    requires RootOk(r)
    ensures SlotsOk(r.zones)
  {
    hide BaseOk, ParkedOk, SlotsOk;
  }

  lemma RootZoneOk(r: RootView, i: nat)
    requires RootOk(r) && i < |r.zones|
    ensures ZoneOk(r.zones[i])
  {
  }

  lemma ProbeKeeps(r: RootView, i: nat, z: ZoneView, r': RootView)
    requires RootOk(r) && i < |r.zones| && z == r.zones[i].(cache := z.cache) && ZoneOk(z)
    requires r' == r.(zones := r.zones[i := z])
    ensures RootOk(r') && Step(r, Search(r'.zones), r')
  {
    hide ZoneOk, RootOk;
    StepKeepsOk(r, Search(r'.zones), r');
  }
}
