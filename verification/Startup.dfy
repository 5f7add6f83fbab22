// iso_alloc_initialize_global_root: a root with its default zones.
module Startup {
  import opened Geometry
  import opened ZoneState
  import opened AddressSpaces
  import opened RootState
  import opened RootSteps
  import opened BitmapPages
  import opened Roots

  const DEFAULT_ZONES: seq<nat> := [32, 64, 128, 256, 512, 1024, 2048, 4096, 8192]

  /** New zones of the first n default sizes, in order, on pages of their own, each alone in
      its size class, and nothing else. The first zone has no entry in the size-class table,
      since 0 stands for none. */
  ghost predicate Started(r: RootView, n: nat) {
    && |r.zones| == n <= |DEFAULT_ZONES| && r.live == map[]
    && (forall i: nat :: i < n ==> StartZone(r.zones[i], i))
    && |r.sizeTable| == ZONE_LOOKUP_TABLE_LEN && (forall i: nat :: i < n ==> r.sizeTable[DEFAULT_ZONES[i] / 16] == i)
    && (forall k: nat :: k < |r.sizeTable| && r.sizeTable[k] != 0 ==>
          r.sizeTable[k] < n && DEFAULT_ZONES[r.sizeTable[k]] == 16 * k)
  }

  ghost predicate StartZone(z: ZoneView, i: nat)
    requires i < |DEFAULT_ZONES|
  {
    z.internal && z.chunkSize == DEFAULT_ZONES[i] && z.home.OwnPages? && z.nextSz == 0 && FreshZone(z)
  }

  /** Starting up creates the default zones without aborting, so every later state is
      reached from the empty root. No default zone's bitmap reads past its end, and none is
      in the shared bitmap pages, which are set up last. */
  method Initialize(os: AddressSpace) returns (root: Root, aborted: bool, ghost es: seq<Event>)
    requires os.Valid()
    modifies os
    ensures !aborted && fresh(root) && fresh(root.repr) && fresh(root.lists) && fresh(root.records) && root.os == os
    ensures root.Ready() && Reach(EmptyRoot(), es, root.abs)
    ensures Started(root.abs, |DEFAULT_ZONES|) && !HasStrayZone(root.abs) && |root.bitmaps| == |BUCKETS|
  {
    hide Root.Housed, Root.BigOk, RootOk, MapsOk, Step, Reach, EmptyRoot, HasStrayZone, Started, FreshZone;
    root := new Root(os);
    es, aborted := [], false;
    NoEvents(root.abs);
    EmptyStarted();
    for n: nat := 0 to |DEFAULT_ZONES|
      invariant !aborted && fresh(root) && fresh(root.repr) && fresh(root.lists) && fresh(root.records) && root.os == os
      invariant root.Ready() && Reach(EmptyRoot(), es, root.abs) && Started(root.abs, n)
      invariant root.bitmaps == []
    {
      ghost var r, e := root.abs, Search([]);
      aborted, e := AddDefault(root, n);
      if aborted { return; }
      ReachStep(EmptyRoot(), es, r, e, root.abs);
      es := es + [e];
    }
    WholeWords(root.abs);
    root.SetUpBitmaps();
  }

  method AddDefault(root: Root, n: nat) returns (aborted: bool, ghost e: Event)
    requires root.Ready() && Started(root.abs, n) && n < |DEFAULT_ZONES| && root.bitmaps == []
    modifies root, root.repr, root.os
    ensures !aborted && root.Ready() && Started(root.abs, n + 1) && root.bitmaps == []
    ensures fresh(root.repr - old(root.repr)) && root.records == old(root.records) && Step(old(root.abs), e, root.abs)
  {
    hide Root.Housed, Root.BigOk, RootOk, MapsOk, Step, Started, FreshZone;
    ghost var r := root.abs;
    StartedCount(r, n);
    root.StorageOwned();
    var at;
    at, aborted, e := root.NewZone(DEFAULT_ZONES[n], true);
    if aborted { return; }
    AddedStarted(r, e, root.abs, n);
  }

  lemma StartedCount(r: RootView, n: nat)
    requires Started(r, n)
    ensures |r.zones| == n <= |DEFAULT_ZONES| && |DEFAULT_ZONES| < MAX_ZONES
    ensures n < |DEFAULT_ZONES| ==> RoundRequest(DEFAULT_ZONES[n]) == DEFAULT_ZONES[n] <= SMALL_SIZE_MAX
  {
  }

  lemma EmptyStarted()
    ensures Started(EmptyRoot(), 0)
  {
  }

  lemma AddedStarted(r: RootView, e: Event, r': RootView, n: nat)
    requires Started(r, n) && n < |DEFAULT_ZONES| && Step(r, e, r') && e.AddZone?
    requires e.zone.internal && e.zone.chunkSize == RoundRequest(DEFAULT_ZONES[n]) && e.zone.home.OwnPages?
    requires r'.sizeTable == r.sizeTable[DEFAULT_ZONES[n] / 16 := n]
    requires e.zone.nextSz == r.sizeTable[DEFAULT_ZONES[n] / 16]
    requires FreshZone(e.zone) && r'.zones == r.zones + [e.zone]
    ensures Started(r', n + 1)
  {
    hide FreshZone, PagesFit, HomeFits;
    NewClass(r, n);
  }

  lemma NewClass(r: RootView, n: nat)
    requires Started(r, n) && n < |DEFAULT_ZONES|
    ensures RoundRequest(DEFAULT_ZONES[n]) == DEFAULT_ZONES[n] && r.sizeTable[DEFAULT_ZONES[n] / 16] == 0
    ensures forall i: nat :: i < n ==> DEFAULT_ZONES[i] / 16 != DEFAULT_ZONES[n] / 16
  {
    hide StartZone;
  }

  lemma WholeWords(r: RootView)
    requires Started(r, |DEFAULT_ZONES|)
    ensures !HasStrayZone(r)
  {
  }

  /** Private zones can be made, one after the other and without an abort, until the zones
      array is used up. */
  method FillZones(os: AddressSpace, size: nat) returns (root: Root, aborted: bool, ghost es: seq<Event>)
    requires os.Valid() && size <= SMALL_SIZE_MAX
    modifies os
    ensures !aborted && fresh(root) && fresh(root.repr) && fresh(root.lists) && fresh(root.records) && root.os == os
    ensures root.Ready() && Reach(EmptyRoot(), es, root.abs)
    ensures |root.zones| == MAX_ZONES && !root.abs.zones[MAX_ZONES - 1].internal
  {
    hide Root.Housed, Root.BigOk, RootOk, MapsOk, Step, Reach, EmptyRoot, HasStrayZone;
    root, aborted, es := Initialize(os);
    while |root.zones| < MAX_ZONES
      invariant !aborted && fresh(root) && fresh(root.repr) && fresh(root.lists) && fresh(root.records) && root.os == os
      invariant root.Ready() && Reach(EmptyRoot(), es, root.abs) && |root.zones| <= MAX_ZONES
      invariant |root.zones| > |DEFAULT_ZONES| ==> !root.abs.zones[|root.zones| - 1].internal
      decreases MAX_ZONES - |root.zones|
    {
      ghost var r, fs := root.abs, [];
      var at;
      at, aborted, fs := root.NewPrivateZone(size);
      ReachConcat(EmptyRoot(), es, r, fs, root.abs);
      es := es + fs;
    }
  }

  /** Destroying a zone then aborts, although the zone needs no new entry. */
  method UsedUp(os: AddressSpace, size: nat) returns (aborted: bool, ghost es: seq<Event>, ghost full: RootView)
    requires os.Valid() && size <= SMALL_SIZE_MAX
    modifies os
    ensures aborted && Reach(EmptyRoot(), es, full) && |full.zones| == MAX_ZONES
  {
    hide Root.Housed, Root.BigOk, RootOk, MapsOk, Step, Reach, EmptyRoot, HasStrayZone, OldestFails, FlushFails;
    var root;
    root, aborted, es := FillZones(os, size);
    full := root.abs;
    ghost var fs;
    aborted, fs := root.DestroyZone(MAX_ZONES - 1);
  }
}
