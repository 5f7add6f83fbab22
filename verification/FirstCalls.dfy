// The first allocations of a program: which zones serve them.
module FirstCalls {
  import opened Bitmap
  import opened Geometry
  import opened ZoneState
  import opened ZoneCaches
  import opened AddressSpaces
  import opened RootState
  import opened RootSteps
  import opened SizeChains
  import opened ZoneChoice
  import opened BitmapPages
  import opened Roots
  import opened Startup
  import opened Interfaces

  /** Canaries are first chunks of qwords, so a new zone has these two to hand out. */
  lemma FreshHasTwo(z: ZoneView)
    requires FreshZone(z)
    ensures |z.states| > 2 && z.states[1] == z.states[2] == NeverUsed
  {
    hide CacheOk, CanariesIntact, CanaryWord;
    AddressableChunks(z.chunkSize);
    var draws :| DrawnBy(z, draws);
    var n := MaxBitmapIdx(z.chunkSize) - 1;
    forall c: nat | c < |z.states| && c % 32 != 0 ensures z.states[c] != Canary {
      if Drawn(c, draws, n) {
        var k: nat :| k < |draws| && c == 32 * CanaryWord(draws[k], n);
      }
    }
  }

  /** So it can serve requests of its size class and of up to 1024 bytes if its chunks are
      no larger. */
  lemma FreshServes(z: ZoneView, size: nat)
    requires FreshZone(z) && if size <= 1024 then z.chunkSize <= 1024 else z.chunkSize < 8 * size
    ensures CanServe(z.states, z.chunkSize, size)
  {
    hide FreshZone;
    FreshHasTwo(z);
    assert z.states[1] in {NeverUsed, Freed};
  }

  // ----------------------------------------------------------- no zone is needed

  /** While an internal zone with large enough chunks, but of at most 1024 bytes, has a free
      chunk, a request of at most 1024 bytes neither adds a zone nor aborts. */
  lemma NoZoneNeeded(r: RootView, size: nat, i: nat, c: nat)
    requires size <= 1024 && i < |r.zones| && r.zones[i].internal && RoundRequest(size) <= r.zones[i].chunkSize <= 1024
    requires c < |r.zones[i].states| && r.zones[i].states[c] in {NeverUsed, Freed}
    ensures !NeedsZone(r, size)
  {
    assert Eligible(r.zones[i], RoundRequest(size));
  }

  /** The default zone for a request of at most 8192 bytes: the smallest that holds it. */
  lemma DefaultServes(r: RootView, size: nat) returns (i: nat)
    requires Started(r, |DEFAULT_ZONES|) && 0 < size <= 8192
    ensures i < |DEFAULT_ZONES| && Eligible(r.zones[i], RoundRequest(size))
  {
    hide FreshZone, CanServe;
    var s := RoundRequest(size);
    i := if s <= 1024 then 5 else if s <= 2048 then 6 else if s <= 4096 then 7 else 8;
    assert StartZone(r.zones[i], i);
    FreshServes(r.zones[i], s);
  }

  /** After start-up the first request of at most 8192 bytes is served without a new zone. */
  method FirstRequest(os: AddressSpace, size: nat) returns (heap: Heap, p: nat, aborted: bool, ghost es: seq<Event>)
    requires os.Valid() && 0 < size <= 8192
    modifies os
    ensures !aborted && heap.Valid() && |heap.root.zones| == |DEFAULT_ZONES| && p in heap.root.abs.live
  {
    hide Root.Ready, Started, Reach, RootOk, Eligible, CacheNames, PicksZone, HandsOut, Heap.Valid;
    var root;
    root, aborted, es := Initialize(os);
    heap := Begin(root);
    ghost var cached, at;
    ghost var i := DefaultServes(root.abs, size);
    NotNeeded(root.abs, size, i);
    p, aborted, es, cached, at := heap.Alloc(size);
  }

  lemma NotNeeded(r: RootView, size: nat, i: nat)
    requires i < |r.zones| && Eligible(r.zones[i], RoundRequest(size))
    ensures !NeedsZone(r, size)
  {
  }

  /** A thread of a program that has just started. */
  method Begin(root: Root) returns (heap: Heap)
    requires root.Ready() && Started(root.abs, |DEFAULT_ZONES|)
    ensures heap.Valid() && heap.root == root && fresh(heap) && fresh(heap.cache) && fresh(heap.cache.slots)
    ensures heap.cache.Valid() && heap.Cached() == []
    ensures |root.zones| == |root.abs.zones| == |DEFAULT_ZONES| && root.abs.live == map[]
  {
    hide Root.Housed, Root.BigOk, RootOk, FreshZone, MapsOk;
    heap := new Heap(root);
  }

  // ------------------------------------------------------ which zone serves a request

  /** The class of the 32-byte zone has no entry; doubling 32 leads past 1024 bytes by way of
      sizes that have none either, and all zones are searched from the first on. */
  lemma SmallestFirst(r: RootView)
    requires Started(r, |DEFAULT_ZONES|)
    ensures Selects(r, 32, 0)
  {
    hide FreshZone, CanServe;
    NoClass(r);
    SixDoublings();
    assert StartZone(r.zones[0], 0);
    FreshServes(r.zones[0], 32);
    hide DoubledTo, Power;
    assert SettlesOn(r.sizeTable, 32, 5);
    assert ClassZones(r, 2016) == [];
    assert SelectsAfter(r, 32, 5, 0);
  }

  lemma NoClass(r: RootView)
    requires Started(r, |DEFAULT_ZONES|)
    ensures forall size :: size in {32, 96, 224, 480, 992, 2016} ==> ClassHead(r.sizeTable, size) == 0
  {
    hide StartZone;
  }

  lemma SixDoublings()
    ensures DoubledTo(32, 0) == 32 && DoubledTo(32, 1) == 96 && DoubledTo(32, 2) == 224
    ensures DoubledTo(32, 3) == 480 && DoubledTo(32, 4) == 992 && DoubledTo(32, 5) == 2016
  {
  }

  /** The class of the 1024-byte zone has it as its only zone. */
  lemma LargestShared(r: RootView)
    requires Started(r, |DEFAULT_ZONES|)
    ensures Selects(r, 1024, 5)
  {
    hide FreshZone, CanServe;
    assert StartZone(r.zones[5], 5);
    FreshServes(r.zones[5], 1024);
    assert DEFAULT_ZONES[5] / 16 == 64;
    assert ClassHead(r.sizeTable, 1024) == 5 && ClassZones(r, 1024) == [5];
    NotDoubled(1024);
    hide DoubledTo;
    assert StopsAt(r.zones, [5], 1024, 0);
    assert SelectsAfter(r, 1024, 0, 5);
  }

  /** The first request, if it is for at most 32 bytes, gets a 32-byte chunk of zone 0. */
  method FirstSmall(os: AddressSpace, size: nat) returns (heap: Heap, p: nat, aborted: bool)
    requires os.Valid() && 0 < size <= 32
    modifies os
    ensures !aborted && heap.Valid() && |heap.root.zones| == |DEFAULT_ZONES|
    ensures Holds(heap.root.abs.zones[0], p) && heap.root.abs.zones[0].chunkSize == 32
  {
    hide Root.Ready, Started, Reach, RootOk, Selects, HandsOut, Heap.Valid, Eligible, Holds;
    var root;
    ghost var es, cached, at;
    root, aborted, es := Initialize(os);
    heap := Begin(root);
    ghost var r := root.abs;
    ghost var i := DefaultServes(r, size);
    NotNeeded(r, size, i);
    SmallestFirst(r);
    p, aborted, es, cached, at := heap.Alloc(size);
    SelectsOne(r, 32, 0, at);
    StillSized(r, es, root.abs, 0);
  }

  lemma StillSized(r: RootView, es: seq<Event>, r': RootView, i: nat)
    requires Started(r, |DEFAULT_ZONES|) && i < |DEFAULT_ZONES| && Reach(r, es, r')
    ensures |r.zones| == |DEFAULT_ZONES| && i < |r'.zones| && r'.zones[i].chunkSize == DEFAULT_ZONES[i]
  {
    hide Reach, FreshZone;
    assert StartZone(r.zones[i], i);
    ReachSizes(r, es, r');
  }

  /** The first private zone with a bitmap of one of these sizes has the first slot of the
      page for it. */
  method FirstShared(os: AddressSpace, bytes: nat) returns (root: Root, at: nat, aborted: bool, ghost es: seq<Event>)
    requires os.Valid() && bytes in {32, 64, 128, 256, 512, 1024}
    modifies os
    ensures !aborted && at == |DEFAULT_ZONES| < |root.abs.zones| && root.abs.zones[at].home == Shared(Slot(bytes, 0))
  {
    hide Root.HeapOk, Root.BigOk, RootOk, Started, Reach, FreshZone, Step, NoSlot, HasStrayZone, BitmapSize;
    var size := 1048576 / bytes;
    root, aborted, es := Initialize(os);
    ghost var r := root.abs;
    StartedCount(r, |DEFAULT_ZONES|);
    NoSlotsYet(r, root.bitmaps, bytes);
    ghost var e;
    StorageIn(root);
    at, aborted, e := root.NewZone(size, false);
    LowestSlot(r, e, root.abs);
  }

  lemma StorageIn(root: Root)
    requires root.HeapOk()
    ensures |root.zones| == |root.abs.zones|
    ensures forall o: object :: o in Storage(root.bitmaps, root.lent) ==> o in root.repr
  {
    hide RootOk, MapsOk;
    root.StorageOwned();
  }

  lemma NoSlotsYet(r: RootView, pages: seq<BitmapPage>, bytes: nat)
    requires Started(r, |DEFAULT_ZONES|) && |pages| == |BUCKETS| && bytes in {32, 64, 128, 256, 512, 1024}
    ensures RoundRequest(1048576 / bytes) == 1048576 / bytes && IsChunkSize(1048576 / bytes)
    ensures BitmapSize(1048576 / bytes) == bytes && SlotsHeld(r.zones, -1) == {}
    ensures !NoSlot(pages, bytes, SlotsHeld(r.zones, -1))
  {
    hide StartZone, BitmapSize, RoundRequest, IsChunkSize;
    SizeForBitmap(bytes);
    NoneHeld(r);
    assert Slot(bytes, 0) !in SlotsHeld(r.zones, -1);
  }

  lemma NoneHeld(r: RootView)
    requires Started(r, |DEFAULT_ZONES|)
    ensures SlotsHeld(r.zones, -1) == {}
  {
    hide FreshZone;
  }

  lemma SizeForBitmap(bytes: nat)
    requires bytes in {32, 64, 128, 256, 512, 1024}
    ensures RoundRequest(1048576 / bytes) == 1048576 / bytes && IsChunkSize(1048576 / bytes)
    ensures BitmapSize(1048576 / bytes) == bytes
  {
    hide BitmapSize, RoundRequest, IsChunkSize;
    PowersOfTwo();
    match bytes
    case 32 => assert 1048576 / 32 == 32768;
    case 64 => assert 1048576 / 64 == 16384;
    case 128 => assert 1048576 / 128 == 8192;
    case 256 => assert 1048576 / 256 == 4096;
    case 512 => assert 1048576 / 512 == 2048;
    case _ => assert 1048576 / 1024 == 1024;
  }

  lemma PowersOfTwo()
    ensures forall size :: size in {1024, 2048, 4096, 8192, 16384, 32768} ==>
      RoundRequest(size) == size && IsChunkSize(size)
    ensures BitmapSize(1024) == 1024 && BitmapSize(2048) == 512 && BitmapSize(4096) == 256
    ensures BitmapSize(8192) == 128 && BitmapSize(16384) == 64 && BitmapSize(32768) == 32
  {
  }

  lemma LowestSlot(r: RootView, e: Event, r': RootView)
    requires Step(r, e, r') && e.AddZone? && SlotsHeld(r.zones, -1) == {} && e.zone.home.Shared?
    ensures IsChunkSize(e.zone.chunkSize) && e.zone.home == Shared(Slot(BitmapSize(e.zone.chunkSize), 0))
  {
    hide FreshZone, PagesFit;
    var s := e.zone.home.slot;
    assert s.(number := 0) !in SlotsHeld(r.zones, -1);
  }

  /** A thread that first asks for 993 to 1024 bytes has the 1024-byte zone in its cache, and
      its next request, if it is for at most 1024 bytes, gets a chunk of the same zone. */
  method HotPath(os: AddressSpace, first: nat, second: nat) returns (heap: Heap, p: nat, q: nat, aborted: bool)
    requires os.Valid() && 992 < first <= 1024 && 0 < second <= 1024
    modifies os
    ensures !aborted && heap.Valid() && |heap.root.zones| == |DEFAULT_ZONES|
    ensures Holds(heap.root.abs.zones[5], q) && heap.root.abs.zones[5].chunkSize == 1024
    ensures heap.root.abs.live.Keys == {p, q}
  {
    hide Root.Ready, Started, Reach, RootOk, Selects, HandsOut, Heap.Valid, Eligible, Holds, Serving;
    var root;
    ghost var es, cached, at;
    root, aborted, es := Initialize(os);
    heap := Begin(root);
    ghost var r := root.abs;
    ghost var i := DefaultServes(r, first);
    NotNeeded(r, first, i);
    LargestShared(r);
    p, aborted, es, cached, at := heap.Alloc(first);
    SelectsOne(r, 1024, 5, at);
    ghost var mid := root.abs;
    StillSized(r, es, mid, 5);
    StillServing(r, mid, p, RoundRequest(second));
    ghost var fs;
    q, aborted, fs, cached, at := heap.Alloc(second);
    ReachConcat(r, es, mid, fs, root.abs);
    StillSized(r, es + fs, root.abs, 5);
  }

  lemma StillServing(r: RootView, r': RootView, p: nat, size: nat)
    requires Started(r, |DEFAULT_ZONES|) && HandsOut(r.zones, r'.zones, 5, p) && size <= 1024
    ensures Serving(r'.zones, 5, size)
  {
    hide FreshZone, FirstCleared;
    assert StartZone(r.zones[5], 5);
    FreshHasTwo(r.zones[5]);
    var z := r'.zones[5];
    assert z.states[1] in {NeverUsed, Freed} || z.states[2] in {NeverUsed, Freed};
  }
}
