// iso_alloc, iso_free, iso_realloc and the private-zone calls, as a thread makes them: with
// its own zone cache, across small and big allocations.
module Interfaces {
  import opened Sequences
  import opened Geometry
  import opened ZoneState
  import opened ZoneCaches
  import opened RootState
  import opened RootSteps
  import opened RootContents
  import opened ZoneChoice
  import opened Roots
  import opened BigLedger

  /** Requests this large never reach the zones. */
  predicate IsBig(size: nat) {
    RoundRequest(size) > SMALL_SIZE_MAX
  }

  /** _iso_big_alloc refuses the request. */
  predicate TooBig(size: nat) {
    IsBig(size) && RoundUpPage(RoundRequest(size)) > BIG_SZ_MAX
  }

  /** A small request that no zone can serve. */
  ghost predicate NeedsZone(r: RootView, size: nat) {
    size > 0 && !IsBig(size) && NoneFits(r, RoundRequest(size))
  }

  /** The newest entry of a thread's cache with large enough chunks. */
  ghost predicate NewestFit(entries: seq<CacheEntry>, size: nat, k: nat) {
    && k < |entries| && entries[k].chunkSize >= size
    && forall j: nat :: k < j < |entries| ==> entries[j].chunkSize < size
  }

  /** The zone of that entry, or -1 if there is none. */
  ghost predicate CacheNames(entries: seq<CacheEntry>, size: nat, cached: int) {
    if cached < 0 then forall k: nat :: k < |entries| ==> entries[k].chunkSize < size
    else exists k: nat :: NewestFit(entries, size, k) && entries[k].at == cached
  }

  predicate AllocEvent(e: Event) {
    e.Search? || e.AddZone? || e.Take? || e.BigTake? || e.BigReuse?
  }

  /** The root, and the zone cache of the calling thread. */
  class Heap {
    const root: Root
    const cache: ZoneCache

    function Cached(): seq<CacheEntry>
      requires cache.Valid()
      reads cache, cache.slots
    {
      cache.slots[..cache.count]
    }

    /** What the thread's cache says of the zones is true. */
    ghost predicate CacheOk()
      reads cache, cache.slots, root
    {
      cache.Valid() && CacheFits(root.abs.zones, Cached())
    }

    ghost predicate Valid()
      reads root, root.repr, root.os, root.lists, root.records, cache, cache.slots
    {
      root.Ready() && |root.zones| > 0 && CacheOk() && cache !in root.repr && cache.slots !in root.repr
    }

    /** A thread starts with an empty cache. */
    constructor (root: Root)
      requires root.Ready() && |root.zones| > 0
      ensures Valid() && this.root == root && fresh(cache) && fresh(cache.slots) && Cached() == []
    {
      hide RootOk, Root.HeapOk, Root.BigOk;
      this.root := root;
      cache := new ZoneCache();
    }

    /** populate_zone_cache on a zone of the root keeps the cache right. */
    method Remember(at: nat)
      requires Valid() && at < |root.zones|
      modifies cache, cache.slots
      ensures Valid() && cache.slots == old(cache.slots)
      ensures root.abs.zones[at].internal ==>
        Cached() == Pushed(old(Cached()), CacheEntry(at, root.abs.zones[at].chunkSize))
      ensures !root.abs.zones[at].internal ==> Cached() == old(Cached())
    {
      hide RootOk, MapsOk, Root.Housed, Root.BigOk, CacheFits, ZoneCache.Valid;
      root.ZoneFields(at);
      if root.abs.zones[at].internal { PushedFits(root.abs.zones, Cached(), at); }
      cache.Populate(at, root.zones[at].chunkSize, root.zones[at].internal);
    }

    /** The pre-lock scan of the zone cache. */
    method Suggest(size: nat) returns (cached: int)
      requires CacheOk()
      ensures Suggested(root.abs.zones, cached, size) && CacheNames(Cached(), size, cached)
    {
      hide CacheFits;
      var k := cache.Candidate(size);
      if k < 0 { return -1; }
      EntryFits(root.abs.zones, Cached(), k);
      cached := cache.slots[k].at;
      assert NewestFit(Cached(), size, k);
    }

    /** _iso_alloc for a small request. The zone of the newest cached entry with large enough
        chunks serves it if it can; otherwise the zone that find_suitable_zone returns does,
        and a new one if there is none. That zone becomes the newest in the cache. */
    method AllocChunk(size: nat)
      returns (p: nat, aborted: bool, ghost es: seq<Event>, ghost cached: int, ghost at: int)
      requires Valid() && 0 < size <= SMALL_SIZE_MAX
      modifies root, root.repr, root.os, cache, cache.slots
      ensures fresh(root.repr - old(root.repr)) && root.repr >= old(root.repr) && cache.slots == old(cache.slots)
      ensures root.records == old(root.records)
      ensures |old(root.zones)| <= |root.zones| <= |old(root.zones)| + 1
      ensures aborted ==> |old(root.zones)| >= MAX_ZONES && NoneFits(old(root.abs), RoundRequest(size))
      ensures |root.zones| > |old(root.zones)| ==> NoneFits(old(root.abs), RoundRequest(size))
      ensures !aborted ==> Valid() && Reach(old(root.abs), es, root.abs)
      ensures forall e :: e in es ==> AllocEvent(e) && (e.AddZone? ==> e.zone.chunkSize == RoundRequest(size))
      ensures !aborted ==> p != 0 && !Owned(old(root.abs), p)
      ensures !aborted ==>
        root.abs.live == old(root.abs).live[p := size] && root.abs.quarantine == old(root.abs).quarantine
      ensures CacheNames(old(Cached()), RoundRequest(size), cached)
      ensures PicksZone(old(root.abs), cached, RoundRequest(size), at, aborted, |root.zones| > |old(root.zones)|)
      ensures !aborted ==> 0 <= at < |root.zones| && Holds(root.abs.zones[at], p)
      ensures !aborted ==> Cached() == Pushed(old(Cached()), CacheEntry(at, root.abs.zones[at].chunkSize))
      ensures !aborted ==> HandsOut(old(root.abs).zones, root.abs.zones, at, p)
    {
      hide RootOk, MapsOk, Root.Housed, Root.BigOk, CacheFits, Reach, Owned, NoneFits, Holds, ZoneCache.Valid;
      hide Suggested, CacheNames, PicksZone, HandsOut;
      ghost var r, tzc := root.abs, Cached();
      var zone := Suggest(RoundRequest(size));
      var serving;
      p, serving, aborted, es := root.AllocSmall(zone, size);
      cached, at := zone, serving;
      if aborted { return; }
      ReachKeepsCache(r, es, root.abs, tzc);
      HeldAddress(root.abs, serving, p, root.zeroPage, root.os.mapped);
      Remember(serving);
    }

    /** iso_alloc. The address returned belonged to nobody, and its chunk or mapping is at
        least as large as the request; NULL is returned exactly for requests above the
        big-zone limit, and the zero-size page exactly for size 0. */
    method Alloc(size: nat) returns (p: nat, aborted: bool, ghost es: seq<Event>, ghost cached: int, ghost at: int)
      requires Valid()
      modifies root, root.repr, root.os, root.lists, root.records, cache, cache.slots
      ensures fresh(root.repr - old(root.repr)) && root.repr >= old(root.repr) && cache.slots == old(cache.slots)
      ensures fresh(root.records - old(root.records)) && root.records >= old(root.records)
      ensures |old(root.zones)| <= |root.zones| <= |old(root.zones)| + 1
      ensures aborted ==>
        |old(root.zones)| >= MAX_ZONES && NeedsZone(old(root.abs), size)
      ensures |root.zones| > |old(root.zones)| ==> NeedsZone(old(root.abs), size)
      ensures !aborted ==> Valid() && Reach(old(root.abs), es, root.abs)
      ensures forall e :: e in es ==> AllocEvent(e) && MoveEvent(e, size)
      ensures !aborted && size == 0 ==> p == root.zeroPage && root.abs == old(root.abs)
      ensures !aborted && TooBig(size) ==> p == 0 && root.abs == old(root.abs)
      ensures !aborted && size > 0 ==> (p == 0 <==> RoundUpPage(RoundRequest(size)) > 4294967296)
      ensures !aborted && size > 65536 && p != 0 ==>
        |es| == 1 && (es[0].BigReuse? <==> KeptFor(old(root.abs).parked, RoundUpPage(RoundRequest(size))))
      ensures !aborted && size > 0 && !TooBig(size) ==>
        && p != 0 && !Owned(old(root.abs), p) && root.abs.live == old(root.abs).live[p := size]
        && root.abs.quarantine == old(root.abs).quarantine
      ensures size > 0 && !IsBig(size) ==>
        && CacheNames(old(Cached()), RoundRequest(size), cached)
        && PicksZone(old(root.abs), cached, RoundRequest(size), at, aborted, |root.zones| > |old(root.zones)|)
      ensures !aborted && size > 0 && !IsBig(size) ==>
        && 0 <= at < |root.zones| && Holds(root.abs.zones[at], p)
        && Cached() == Pushed(old(Cached()), CacheEntry(at, root.abs.zones[at].chunkSize))
        && HandsOut(old(root.abs).zones, root.abs.zones, at, p)
      ensures size == 0 || IsBig(size) ==> cache.slots == old(cache.slots) && Cached() == old(Cached())
    {
      hide RootOk, MapsOk, Root.Housed, Root.BigOk, CacheFits, Reach, Owned, NoneFits, ZoneCache.Valid, RoundUpPage;
      hide CacheNames, PicksZone, Holds, HandsOut, KeptFor;
      ghost var r, tzc := root.abs, Cached();
      NoEvents(r);
      es, aborted, cached, at := [], false, -1, -1;
      if size == 0 { return root.zeroPage, aborted, es, cached, at; }
      if RoundRequest(size) <= SMALL_SIZE_MAX {
        p, aborted, es, cached, at := AllocChunk(size);
        return;
      }
      p, aborted, es := root.BigAlloc(size);
      ReachKeepsCache(r, es, root.abs, tzc);
    }

    /** _iso_free, and the update of the cache after a permanent free. */
    method Free(p: nat, permanent: bool) returns (aborted: bool, ghost es: seq<Event>, ghost at: int)
      requires Valid() && (p == 0 || p == root.zeroPage || p in root.live)
      modifies root, root.repr, root.os, root.lists, root.records, cache, cache.slots
      ensures fresh(root.repr - old(root.repr)) && root.repr >= old(root.repr) && cache.slots == old(cache.slots)
      ensures root.records == old(root.records) && root.zones == old(root.zones)
      ensures aborted ==> |root.zones| >= MAX_ZONES || HasStrayZone(old(root.abs))
      ensures p == 0 || p == root.zeroPage ==> !aborted
      ensures p != 0 && p != root.zeroPage && permanent && FreeFails(old(root.abs), p, false) ==> aborted
      ensures aborted && permanent ==> FreeFails(old(root.abs), p, true)
      ensures aborted && !permanent ==>
        |old(root.abs).quarantine| == CHUNK_QUARANTINE_SZ && FlushFails(old(root.abs))
      ensures p != 0 && p != root.zeroPage && !permanent && |old(root.abs).quarantine| == CHUNK_QUARANTINE_SZ ==>
        (OldestFails(old(root.abs), false) ==> aborted)
      ensures !aborted ==> Valid() && Reach(old(root.abs), es, root.abs)
      ensures !aborted && (p == 0 || p == root.zeroPage) ==> root.abs == old(root.abs)
      ensures !aborted && p != 0 && p != root.zeroPage ==> root.abs.live == old(root.abs).live - {p} && es != []
      ensures !aborted && p != 0 && p != root.zeroPage && permanent ==> GaveUp(es[0], p, true, false)
      ensures !aborted && p != 0 && p != root.zeroPage && !permanent ==>
        Owned(root.abs, p) && es[|es| - 1] == Quarantine(p)
      ensures -1 <= at < |root.zones|
      ensures p == 0 || p == root.zeroPage || !permanent ==> at == -1
      ensures p != 0 && p != root.zeroPage && permanent ==>
        if at >= 0 then InZone(old(root.abs).zones[at], p) else p in old(root.abs).big
      ensures !aborted && at >= 0 && !WearsOut(old(root.abs), at) ==> LeavesChunk(old(root.abs), root.abs, at, p, true)
      ensures !aborted && p != 0 && p != root.zeroPage && !permanent ==>
        root.abs.quarantine == if |old(root.abs).quarantine| < 64 then old(root.abs).quarantine + [p] else [p]
      ensures !aborted ==>
        Cached() ==
        if at >= 0 && root.abs.zones[at].internal
        then Pushed(old(Cached()), CacheEntry(at, root.abs.zones[at].chunkSize))
        else old(Cached())
    {
      hide RootOk, MapsOk, Root.Housed, Root.BigOk, CacheFits, Reach, Owned, HasStrayZone, ZoneCache.Valid;
      hide FreeFails, OldestFails, FlushFails, WearsOut, LeavesChunk, InZone;
      ghost var r, tzc := root.abs, Cached();
      var freed;
      freed, aborted, es := root.Free(Cached(), p, permanent);
      at := freed;
      if aborted { return; }
      ReachKeepsCache(r, es, root.abs, tzc);
      if permanent && freed >= 0 {
        Remember(freed);
      }
    }

    /** The copy in iso_realloc: data goes to the start of what q owns. */
    method CopyInto(q: nat, data: seq<Byte>, ghost n: nat) returns (ghost e: Event, ghost now: seq<Byte>, aborted: bool)
      requires Valid() && Owned(root.abs, q) && Extent(root.abs, q, n) && |data| <= n
      modifies root, root.repr
      ensures !aborted && Valid() && root.repr == old(root.repr) && root.zones == old(root.zones)
      ensures root.records == old(root.records)
      ensures Step(old(root.abs), e, root.abs) && WritesOnly(old(root.abs), e, q) && !e.AddZone?
      ensures root.abs.live == old(root.abs).live && root.abs.quarantine == old(root.abs).quarantine
      ensures Contents(root.abs, q, now) && |data| <= |now| && now[..|data|] == data
    {
      hide RootOk, MapsOk, Step, Owned, Holds, Contents, CacheFits, Extent, Root.Housed, Kept, ZoneCache.Valid;
      ghost var r, tzc := root.abs, Cached();
      e, now := Search([]), [];
      var at;
      at, aborted := root.FindZoneRange(Cached(), q);
      if aborted { return; }
      if at < 0 {
        OwnedNotInZone(r, q);
        ExtentOfBig(r, q, n);
        e := root.StoreInBig(q, data);
        now := root.abs.big[q];
        BigHasContents(root.abs, q);
      } else {
        OwnedInZone(r, at, q);
        ExtentInZone(r, at, q, n);
        root.ZoneBuffers(at);
        e := root.StoreInZone(at, q, data);
        now := ZoneHasContents(root.abs, at, q, data);
      }
      StepKeepsCache(r, e, root.abs, tzc);
    }

    /** _iso_free_size, as iso_realloc calls it. */
    method FreeSize(p: nat, size: nat) returns (aborted: bool, ghost es: seq<Event>)
      requires Valid() && (p == 0 || p == root.zeroPage || p in root.live)
      modifies root, root.repr, root.os, root.lists, root.records
      ensures fresh(root.repr - old(root.repr)) && root.repr >= old(root.repr)
      ensures root.records == old(root.records) && root.zones == old(root.zones)
      ensures p == 0 ==> !aborted && root.abs == old(root.abs)
      ensures p == root.zeroPage && p != 0 ==> (aborted <==> size != 0) && root.abs == old(root.abs)
      ensures p != 0 && p != root.zeroPage ==>
        (!SizeFits(old(root.abs), p, size) || FreeFails(old(root.abs), p, false) ==> aborted)
      ensures p != 0 && p != root.zeroPage && aborted && SizeFits(old(root.abs), p, size) ==>
        FreeFails(old(root.abs), p, true) && (|root.zones| >= MAX_ZONES || HasStrayZone(old(root.abs)))
      ensures !aborted ==> Valid() && Reach(old(root.abs), es, root.abs) && forall e :: e in es ==> GivesUpOnly(e, p)
      ensures !aborted && p != 0 && p != root.zeroPage ==> root.abs.live == old(root.abs).live - {p}
    {
      hide RootOk, MapsOk, Root.Housed, Root.BigOk, CacheFits, Reach, HasStrayZone, SizeFits, ZoneCache.Valid;
      hide GivesUpOnly, FreeFails;
      ghost var r, tzc := root.abs, Cached();
      aborted, es := root.FreeSize(Cached(), p, size);
      if aborted { return; }
      ReachKeepsCache(r, es, root.abs, tzc);
    }

    /** iso_realloc of NULL, the zero-size page or a live pointer, to any size. With size 0
        it frees. Otherwise it returns NULL and changes nothing, or it returns an address
        that belonged to nobody: its chunk is apart from the old one, its first bytes are
        the old ones, and only the old chunk has been released. */
    method Realloc(p: nat, size: nat, ghost bytes: seq<Byte>)
      returns (q: nat, aborted: bool, ghost es: seq<Event>, ghost now: seq<Byte>)
      requires Valid()
      requires p == 0 || p == root.zeroPage || (p in root.live && Contents(root.abs, p, bytes))
      modifies root, root.repr, root.os, root.lists, root.records, cache, cache.slots
      ensures !aborted ==> Valid() && Reach(old(root.abs), es, root.abs)
      ensures !aborted && size == 0 ==>
        q == 0 && root.abs.live == if p == 0 || p == root.zeroPage then old(root.abs).live else old(root.abs).live - {p}
      ensures !aborted && TooBig(size) ==> q == 0 && root.abs == old(root.abs)
      ensures !aborted && size > 0 && !TooBig(size) ==> q != 0 && q in root.abs.live && !Owned(old(root.abs), q)
      ensures !aborted && size > 0 && !TooBig(size) && (p == 0 || p == root.zeroPage) ==>
        root.abs.live == old(root.abs).live[q := size]
      ensures !aborted && size > 0 && !TooBig(size) && p in old(root.live) && p != root.zeroPage && p != 0 ==>
        && root.abs.live == (old(root.abs).live - {p})[q := size]
        && Contents(root.abs, q, now)
        && Apart(p, |bytes|, q, |now|)
        && var k := if size < |bytes| then size else |bytes|; k <= |now| && now[..k] == bytes[..k]
      ensures aborted ==>
        || |old(root.zones)| >= MAX_ZONES || HasStrayZone(old(root.abs))
        || (NeedsZone(old(root.abs), size) && (|old(root.zones)| + 1 == MAX_ZONES || StraySize(RoundRequest(size))))
      ensures aborted && size > 0 && (p == 0 || p == root.zeroPage || p in old(root.abs).big) ==>
        |old(root.zones)| >= MAX_ZONES && NeedsZone(old(root.abs), size)
    {
      hide RootOk, MapsOk, Step, Reach, Owned, Holds, Contents, CacheFits, Extent, Root.Housed, Root.BigOk;
      hide NeedsZone, HasStrayZone, StraySize, FreeFails, FlushFails, OldestFails, ZoneCache.Valid;
      hide GivesUpOnly, SizeFits, WritesOnly, AllocEvent, MoveEvent;
      now, q := [], 0;
      if size == 0 {
        ghost var at;
        aborted, es, at := Free(p, false);
        return;
      }
      ghost var r0 := root.abs;
      ghost var cached, at;
      q, aborted, es, cached, at := Alloc(size);
      if aborted || q == 0 { return; }
      ghost var r1 := root.abs;
      var n;
      ReallocStillHeld(r0, r1, p, q, size, root.zeroPage);
      n, aborted := root.ChunkSizeOf(Cached(), p);
      if aborted { return; }
      if p != 0 && p != root.zeroPage {
        LiveStays(r0, es, r1, p, bytes, n);
        ghost var e;
        e, now, aborted := Move(p, q, if size > n then n else size, size, bytes);
        if aborted { return; }
        StillApart(r1, e, root.abs, p, n, q, now);
        WritesMove(r1, e, q, size);
        ReachStep(r0, es, r1, e, root.abs);
        es := es + [e];
      }
      ghost var r2 := root.abs;
      ghost var fs;
      FullSizeFits(r2, p, n, root.zeroPage);
      aborted, fs := FreeSize(p, n);
      if aborted {
        ReallocAborts(r0, es, r2, p, size);
        return;
      }
      ReachConcat(r0, es, r2, fs, root.abs);
      es := es + fs;
      if p != 0 && p != root.zeroPage {
        FreeSpares(r2, fs, root.abs, p, q, now);
      }
    }

    /** The first m bytes of p's chunk are copied to q's. */
    method Move(p: nat, q: nat, m: nat, ghost size: nat, ghost bytes: seq<Byte>)
      returns (ghost e: Event, ghost now: seq<Byte>, aborted: bool)
      requires Valid() && Owned(root.abs, p) && Contents(root.abs, p, bytes) && m <= |bytes|
      requires q in root.abs.live && root.abs.live[q] == size && m <= size
      modifies root, root.repr
      ensures !aborted && Valid() && root.repr == old(root.repr) && root.zones == old(root.zones)
      ensures root.records == old(root.records)
      ensures Step(old(root.abs), e, root.abs) && WritesOnly(old(root.abs), e, q) && !e.AddZone?
      ensures root.abs.live == old(root.abs).live && root.abs.quarantine == old(root.abs).quarantine
      ensures Contents(root.abs, q, now) && m <= |now| && now[..m] == bytes[..m]
    {
      hide RootOk, MapsOk, Step, Owned, Contents, CacheFits, Extent, Root.Housed, Root.BigOk, ZoneCache.Valid;
      hide WritesOnly;
      var data;
      now := [];
      e := Search([]);
      data, aborted := root.LoadBytes(Cached(), p, m, bytes);
      if aborted { return; }
      ghost var n := LiveExtent(root.abs, q);
      LiveIsOwned(root.abs, q);
      e, now, aborted := CopyInto(q, data, n);
    }

    /** iso_alloc_from_zone, and the update of the cache. */
    method AllocFromZone(i: nat, size: nat) returns (p: nat, aborted: bool, ghost es: seq<Event>)
      requires Valid() && i < |root.zones|
      modifies root, root.repr, cache, cache.slots
      ensures Valid() && root.repr == old(root.repr) && root.zones == old(root.zones) && cache.slots == old(cache.slots)
      ensures Reach(old(root.abs), es, root.abs)
      ensures aborted <==> size > 0 && RoundRequest(size) > old(root.abs).zones[i].chunkSize
      ensures !aborted && size > 0 && !old(root.abs).zones[i].internal ==>
        (p == 0 <==> !CanServe(old(root.abs).zones[i].states, old(root.abs).zones[i].chunkSize, RoundRequest(size)))
      ensures !aborted && size > 0 && p != 0 ==>
        !Owned(old(root.abs), p) && root.abs.live == old(root.abs).live[p := size] && Holds(root.abs.zones[i], p)
      ensures Cached() ==
        if !aborted && size > 0 && p != 0 && root.abs.zones[i].internal
        then Pushed(old(Cached()), CacheEntry(i, root.abs.zones[i].chunkSize))
        else old(Cached())
    {
      hide RootOk, MapsOk, Root.Housed, Root.BigOk, CacheFits, Reach, Owned, Holds, CanServe, ZoneCache.Valid;
      ghost var r, tzc := root.abs, Cached();
      p, aborted, es := root.AllocFromZone(i, size);
      ReachKeepsCache(r, es, root.abs, tzc);
      if !aborted && size > 0 && p != 0 {
        Remember(i);
      }
    }

    /** iso_alloc_destroy_zone: it also empties the cache. */
    method DestroyZone(i: nat) returns (aborted: bool, ghost es: seq<Event>)
      requires Valid() && i < |root.zones| && !root.abs.zones[i].internal
      modifies root, root.repr, root.os, root.lists, root.records, cache, cache.slots
      ensures fresh(root.repr - old(root.repr)) && root.repr >= old(root.repr) && cache.slots == old(cache.slots)
      ensures root.records == old(root.records) && root.zones == old(root.zones)
      ensures |root.zones| >= MAX_ZONES || OldestFails(old(root.abs), false) ==> aborted
      ensures aborted ==> |root.zones| >= MAX_ZONES || (HasStrayZone(old(root.abs)) && FlushFails(old(root.abs)))
      ensures !aborted ==> Valid() && Reach(old(root.abs), es, root.abs) && cache.count == 0
      ensures !aborted ==>
        forall q :: q in root.abs.live <==> q in old(root.abs).live && !InZone(old(root.abs).zones[i], q)
      ensures !aborted ==> NewInPlace(old(root.abs), root.abs, i)
    {
      hide RootOk, MapsOk, Root.Housed, Root.BigOk, Reach, HasStrayZone, InZone, OldestFails, FlushFails;
      hide NewInPlace;
      cache.Clear();
      aborted, es := root.DestroyZone(i);
    }
  }

  lemma PushedFits(zones: seq<ZoneView>, tzc: seq<CacheEntry>, at: nat)
    requires CacheFits(zones, tzc) && at < |zones| && zones[at].internal
    ensures CacheFits(zones, Pushed(tzc, CacheEntry(at, zones[at].chunkSize)))
  {
  }

  lemma EntryFits(zones: seq<ZoneView>, tzc: seq<CacheEntry>, k: nat)
    requires CacheFits(zones, tzc) && k < |tzc|
    ensures tzc[k].at < |zones| && zones[tzc[k].at].internal && zones[tzc[k].at].chunkSize == tzc[k].chunkSize
  {
  }

  /** The event stores to q and to nothing else. */
  ghost predicate WritesOnly(r: RootView, e: Event, q: nat) {
    || (e.Write? && e.i < |r.zones| && ChunkAddress(r.zones[e.i], e.c) == q)
    || (e.BigWrite? && e.p == q)
  }

  lemma ExtentOfBig(r: RootView, q: nat, n: nat)
    requires q in r.big && Extent(r, q, n)
    ensures n == |r.big[q]|
  {
  }

  lemma ExtentInZone(r: RootView, i: nat, q: nat, n: nat)
    requires RootOk(r) && i < |r.zones| && Holds(r.zones[i], q) && Extent(r, q, n)
    ensures n == r.zones[i].chunkSize
  {
    hide ChainsOk, TablesOk, OwnershipOk, ZoneOk, RangesOk, Holds;
    HeldIsSmall(r, i, q);
    HoldsInside(r.zones[i], q);
    var j: nat :| j < |r.zones| && Holds(r.zones[j], q) && n == r.zones[j].chunkSize;
    HoldsInside(r.zones[j], q);
    ZoneUnique(r.zones, r.big, i, j, q);
  }

  lemma BigHasContents(r: RootView, q: nat)
    requires q in r.big
    ensures Contents(r, q, r.big[q])
  {
  }

  lemma ZoneHasContents(r: RootView, i: nat, q: nat, data: seq<Byte>) returns (now: seq<Byte>)
    requires RootOk(r) && i < |r.zones| && Holds(r.zones[i], q) && |data| <= r.zones[i].chunkSize
    requires r.zones[i].base <= q && q - r.zones[i].base + |data| <= |r.zones[i].mem|
    requires r.zones[i].mem[q - r.zones[i].base..][..|data|] == data
    ensures Contents(r, q, now) && |data| <= |now| && now[..|data|] == data
  {
    hide ChainsOk, TablesOk, OwnershipOk, RangesOk, Holds, CacheOk, CanariesIntact;
    HeldIsSmall(r, i, q);
    HoldsInside(r.zones[i], q);
    var z := r.zones[i];
    now := ChunkBytes(z, q);
    assert HoldsBytes(z, q, now);
    assert now[..|data|] == z.mem[q - z.base..][..|data|];
  }

  /** The old and the new chunk do not overlap. */
  lemma StillApart(r1: RootView, e: Event, r2: RootView, p: nat, n: nat, q: nat, now: seq<Byte>)
    requires RootOk(r1) && Step(r1, e, r2) && WritesOnly(r1, e, q) && RootOk(r2)
    requires p != q && p in r1.live && q in r1.live && r2.live == r1.live && Extent(r1, p, n) && Contents(r2, q, now)
    ensures Apart(p, n, q, |now|) && Extent(r2, p, n)
  {
    hide RootOk, Step, Contents, Extent;
    WriteKeepsExtent(r1, e, r2, p, n, q);
    ContentsExtent(r2, q, now);
    OwnedApart(r2, p, n, q, |now|);
  }

  lemma WriteKeepsExtent(r1: RootView, e: Event, r2: RootView, p: nat, n: nat, q: nat)
    requires Step(r1, e, r2) && WritesOnly(r1, e, q) && Extent(r1, p, n)
    ensures Extent(r2, p, n)
  {
    hide Holds, SameOutside;
    if p !in r1.big {
      var i: nat :| i < |r1.zones| && Holds(r1.zones[i], p) && n == r1.zones[i].chunkSize;
      HoldsSame(r1.zones[i], r2.zones[i], p);
    }
  }

  lemma ContentsExtent(r: RootView, q: nat, now: seq<Byte>)
    requires Contents(r, q, now)
    ensures Extent(r, q, |now|)
  {
  }

  lemma FullSizeFits(r: RootView, p: nat, n: nat, zero: nat)
    requires RootOk(r) && (p == 0 || p == zero || Extent(r, p, n))
    ensures p == 0 || p == zero || SizeFits(r, p, n)
  {
    hide ChainsOk, TablesOk, OwnershipOk, Holds, CacheOk, CanariesIntact;
    if p != 0 && p != zero && p !in r.big {
      var i: nat :| i < |r.zones| && Holds(r.zones[i], p) && n == r.zones[i].chunkSize;
      assert ZoneOk(r.zones[i]);
    }
  }

  /** The events of iso_realloc before it frees the old chunk. */
  ghost predicate MoveEvent(e: Event, size: nat) {
    && (AllocEvent(e) || e.Write? || e.BigWrite?)
    && (e.AddZone? ==> !IsBig(size) && e.zone.chunkSize == RoundRequest(size))
  }

  lemma WritesMove(r: RootView, e: Event, q: nat, size: nat)
    requires WritesOnly(r, e, q)
    ensures MoveEvent(e, size)
  {
  }

  /** When freeing the old chunk makes iso_realloc abort. */
  lemma ReallocAborts(r0: RootView, es: seq<Event>, r2: RootView, p: nat, size: nat)
    requires RootOk(r2) && Reach(r0, es, r2) && (forall e :: e in es ==> MoveEvent(e, size))
    requires FreeFails(r2, p, true) && (|r2.zones| >= MAX_ZONES || HasStrayZone(r2))
    requires |r0.zones| <= |r2.zones| <= |r0.zones| + 1 && (|r2.zones| > |r0.zones| ==> NeedsZone(r0, size))
    ensures p !in r0.big
    ensures
      || |r0.zones| >= MAX_ZONES || HasStrayZone(r0)
      || (NeedsZone(r0, size) && (|r0.zones| + 1 == MAX_ZONES || StraySize(RoundRequest(size))))
  {
    hide RootOk, Reach, HasStrayZone, StraySize, FreeFails, NoneFits;
    if p in r0.big {
      MoveKeepsBig(r0, es, r2, size, p);
      BigNeverFails(r2, p);
    }
    if HasStrayZone(r2) && !HasStrayZone(r0) {
      if |r2.zones| == |r0.zones| { ReachKeepsSizes(r0, es, r2); }
      RunStrayZones(r0, es, r2, RoundRequest(size));
    }
  }

  lemma {:induction false} MoveKeepsBig(r: RootView, es: seq<Event>, r': RootView, size: nat, p: nat)
    requires Reach(r, es, r') && (forall e :: e in es ==> MoveEvent(e, size)) && p in r.big
    ensures p in r'.big
    decreases |es|
  {
    hide Step, MoveEvent;
    if es != [] {
      var mid :| Reach(r, Front(es), mid) && Step(mid, Last(es), r');
      MoveKeepsBig(r, Front(es), mid, size, p);
      assert Last(es) in es;
      MoveStepKeepsBig(mid, Last(es), r', size, p);
    }
  }

  lemma MoveStepKeepsBig(r: RootView, e: Event, r': RootView, size: nat, p: nat)
    requires Step(r, e, r') && MoveEvent(e, size) && p in r.big
    ensures p in r'.big
  {
    hide ZoneOk, FreshZone, TakeChunk, PagesFit;
  }

  lemma ReallocStillHeld(r0: RootView, r1: RootView, p: nat, q: nat, size: nat, zero: nat)
    requires r1.live == r0.live[q := size] && r1.quarantine == r0.quarantine
    ensures p in r0.live ==> p in r1.live && Owned(r1, p) && (!Owned(r0, q) ==> p != q)
    ensures q in r1.live && Owned(r1, q)
  {
  }

  /** The old chunk is still there, with its bytes, after the allocation. */
  lemma LiveStays(r0: RootView, es: seq<Event>, r1: RootView, p: nat, bytes: seq<Byte>, n: nat)
    requires RootOk(r0) && Reach(r0, es, r1) && (forall e :: e in es ==> AllocEvent(e))
    requires p in r0.live && Contents(r0, p, bytes) && RootOk(r1) && Extent(r1, p, n)
    ensures Contents(r1, p, bytes) && |bytes| == n
  {
    hide RootOk, Reach, Contents, Extent;
    forall e | e in es ensures !OwnAct(r0, e, p) { assert AllocEvent(e); }
    RunSpares(r0, es, r1, p, bytes);
    ContentsSize(r1, p, bytes, n);
  }

  lemma ContentsSize(r: RootView, p: nat, bytes: seq<Byte>, n: nat)
    requires RootOk(r) && Contents(r, p, bytes) && Extent(r, p, n)
    ensures |bytes| == n
  {
    hide RootOk;
    if p !in r.big {
      var i: nat :| i < |r.zones| && HoldsBytes(r.zones[i], p, bytes);
      ExtentInZone(r, i, p, n);
    }
  }

  lemma LiveIsOwned(r: RootView, q: nat)
    requires q in r.live
    ensures Owned(r, q)
  {
  }

  lemma LiveExtent(r: RootView, q: nat) returns (n: nat)
    requires RootOk(r) && q in r.live
    ensures Extent(r, q, n) && r.live[q] <= n
  {
    hide RootOk, Extent;
    OwnedPlaces(r, q);
    n :| Extent(r, q, n) && r.live[q] <= n;
  }

  /** Freeing the old chunk leaves the new one and its bytes alone, also when the
      old chunk's zone is retired. */
  lemma FreeSpares(r: RootView, fs: seq<Event>, r': RootView, p: nat, q: nat, now: seq<Byte>)
    requires RootOk(r) && Reach(r, fs, r') && (forall e :: e in fs ==> GivesUpOnly(e, p)) && p != q
    requires q in r.live && Contents(r, q, now)
    ensures Contents(r', q, now)
  {
    hide RootOk, Reach, Contents;
    forall e | e in fs ensures !OwnAct(r, e, q) { assert GivesUpOnly(e, p); }
    RunSpares(r, fs, r', q, now);
  }
}
