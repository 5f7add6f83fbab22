// Conservation: the allocation counters of all zones together count exactly the small
// chunks that clients hold or the quarantine keeps, and so does the leak detector in its
// zone half.
module Conservation {
  import opened Sequences
  import opened Bitmap
  import opened Geometry
  import opened ZoneState
  import opened Zones
  import opened Checks
  import opened RootState
  import opened RootSteps
  import opened Roots
  import BigProtocol
  import opened BigZones
  import opened BigLedger

  /** The addresses of the in-use chunks of z among its first n. */
  ghost function HeldBelow(z: ZoneView, n: nat): set<nat>
    requires n <= |z.states|
  {
    if n == 0 then {}
    else HeldBelow(z, n - 1) + if z.states[n - 1] == InUse then {ChunkAddress(z, n - 1)} else {}
  }

  lemma {:induction false} HeldBelowCounts(z: ZoneView, n: nat)
    requires n <= |z.states| && z.chunkSize > 0
    ensures |HeldBelow(z, n)| == CountOf(z.states[..n], InUse)
    ensures forall p :: p in HeldBelow(z, n) ==> Holds(z, p) && p < ChunkAddress(z, n)
  {
    hide CountOf, Holds, ChunkAddress;
    if n == 0 {
      NothingCounted(z.states);
    } else {
      HeldBelowCounts(z, n - 1);
      CountStep(z.states, n - 1, InUse);
      HoldsChunk(z, n - 1);
      NextAddress(z, n - 1);
    }
  }

  lemma {:induction false} HeldBelowAll(z: ZoneView, n: nat)
    requires n <= |z.states|
    ensures forall c: nat :: c < n && z.states[c] == InUse ==> ChunkAddress(z, c) in HeldBelow(z, n)
  {
    hide ChunkAddress;
    if n > 0 { HeldBelowAll(z, n - 1); }
  }

  lemma NextAddress(z: ZoneView, c: nat)
    ensures ChunkAddress(z, c + 1) == ChunkAddress(z, c) + z.chunkSize
  {
  }

  /** All of them. */
  ghost function Held(z: ZoneView): set<nat> {
    HeldBelow(z, |z.states|)
  }

  lemma HeldExact(z: ZoneView, p: nat)
    requires ZoneOk(z)
    ensures |Held(z)| == z.afCount
    ensures p in Held(z) <==> Holds(z, p)
  {
    hide CacheOk, CanariesIntact, CountOf, Holds;
    HeldBelowCounts(z, |z.states|);
    HeldBelowAll(z, |z.states|);
    assert z.states[..|z.states|] == z.states;
    if Holds(z, p) {
      HoldsInside(z, p);
      HeldState(z, p);
    }
  }

  lemma HeldState(z: ZoneView, p: nat)
    requires Holds(z, p)
    ensures (p - z.base) / z.chunkSize < |z.states| && z.states[(p - z.base) / z.chunkSize] == InUse
  {
  }

  /** The addresses held in the first k zones, and the sum of their af_count. */
  ghost function HeldIn(zones: seq<ZoneView>, k: nat): set<nat>
    requires k <= |zones|
  {
    if k == 0 then {} else HeldIn(zones, k - 1) + Held(zones[k - 1])
  }

  ghost function SumAf(zones: seq<ZoneView>, k: nat): nat
    requires k <= |zones|
  {
    if k == 0 then 0 else SumAf(zones, k - 1) + zones[k - 1].afCount
  }

  ghost predicate HeldBySome(zones: seq<ZoneView>, k: nat, p: nat)
    requires k <= |zones|
  {
    exists i: nat :: i < k && Holds(zones[i], p)
  }

  lemma {:induction false} HeldInMember(zones: seq<ZoneView>, k: nat, p: nat)
    requires ZonesOk(zones) && k <= |zones|
    ensures p in HeldIn(zones, k) <==> HeldBySome(zones, k, p)
  {
    hide ZoneOk, Holds, Held;
    if k > 0 {
      HeldInMember(zones, k - 1, p);
      HeldExact(zones[k - 1], p);
      if p in Held(zones[k - 1]) { assert Holds(zones[k - 1], p); }
    }
  }

  lemma HeldInApart(zones: seq<ZoneView>, big: map<nat, seq<Byte>>, k: nat, p: nat)
    requires ZonesOk(zones) && RangesOk(zones, big) && k < |zones| && p in Held(zones[k])
    ensures p !in HeldIn(zones, k)
  {
    hide ZoneOk, Holds, RangesOk, Held, HeldIn;
    HeldExact(zones[k], p);
    HeldInMember(zones, k, p);
    if HeldBySome(zones, k, p) {
      var i: nat :| i < k && Holds(zones[i], p);
      HoldsInside(zones[i], p);
      HoldsInside(zones[k], p);
      ZoneUnique(zones, big, i, k, p);
    }
  }

  lemma {:induction false} HeldInCounts(zones: seq<ZoneView>, big: map<nat, seq<Byte>>, k: nat)
    requires ZonesOk(zones) && RangesOk(zones, big) && k <= |zones|
    ensures |HeldIn(zones, k)| == SumAf(zones, k)
  {
    hide ZoneOk, RangesOk, Held;
    if k > 0 {
      HeldInCounts(zones, big, k - 1);
      HeldExact(zones[k - 1], 0);
      var rest, last := HeldIn(zones, k - 1), Held(zones[k - 1]);
      forall p | p in last ensures p !in rest { HeldInApart(zones, big, k - 1, p); }
      assert rest !! last;
    }
  }

  /** The small chunks that clients hold or the quarantine keeps. */
  ghost function SmallOwned(r: RootView): set<nat> {
    (r.live.Keys + set p | p in r.quarantine) - r.big.Keys
  }

  lemma OwnedIsHeld(r: RootView)
    requires RootOk(r)
    ensures HeldIn(r.zones, |r.zones|) == SmallOwned(r)
    ensures SumAf(r.zones, |r.zones|) == |SmallOwned(r)|
  {
    hide ZoneOk, RangesOk, Holds, HeldIn, ChainsOk, TablesOk;
    HeldInCounts(r.zones, r.big, |r.zones|);
    forall p ensures p in HeldIn(r.zones, |r.zones|) <==> p in SmallOwned(r) {
      HeldInMember(r.zones, |r.zones|, p);
      if p in SmallOwned(r) { assert Owned(r, p); }
      if p in HeldIn(r.zones, |r.zones|) {
        var i: nat :| i < |r.zones| && Holds(r.zones[i], p);
        assert Owned(r, p);
        HoldsInside(r.zones[i], p);
        if p in r.big { BigNotInZone(r.zones, r.big, i, p); }
      }
    }
  }

  /** In every run the sum of af_count over all zones is the number of small chunks that
      are live or quarantined: no chunk is lost and none is counted twice. */
  lemma RunConserves(es: seq<Event>, r: RootView)
    requires Reach(EmptyRoot(), es, r)
    ensures SumAf(r.zones, |r.zones|) == |SmallOwned(r)|
  {
    hide Reach, RootOk, EmptyRoot;
    EmptyRootOk();
    RunKeepsOk(EmptyRoot(), es, r);
    OwnedIsHeld(r);
  }

  // -------------------------------------------------------------------- leaks

  /** All the bytes of these mappings. */
  ghost function Bytes(sizes: map<nat, nat>): nat
    decreases |sizes|
  {
    if sizes == map[] then 0
    else
      var p :| p in sizes;
      ShrinksWithout(sizes, p);
      sizes[p] + Bytes(sizes - {p})
  }

  lemma ShrinksWithout(sizes: map<nat, nat>, p: nat)
    requires p in sizes
    ensures |sizes - {p}| < |sizes|
  {
    assert (sizes - {p}).Keys == sizes.Keys - {p};
    assert |(sizes - {p}).Keys| == |sizes - {p}| && |sizes.Keys| == |sizes|;
  }

  lemma {:induction false} BytesWithout(sizes: map<nat, nat>, p: nat)
    requires p in sizes
    ensures Bytes(sizes) == sizes[p] + Bytes(sizes - {p})
    decreases |sizes|
  {
    var q :| q in sizes && Bytes(sizes) == sizes[q] + Bytes(sizes - {q});
    if q != p {
      ShrinksWithout(sizes, q);
      ShrinksWithout(sizes, p);
      BytesWithout(sizes - {q}, p);
      BytesWithout(sizes - {p}, q);
      assert sizes - {q} - {p} == sizes - {p} - {q};
    }
  }

  /** The sizes in the records of a list add up to them. */
  lemma {:induction false} RecordsBytes(recs: seq<BigProtocol.Rec>, sizes: map<nat, nat>, free: bool)
    requires Records(recs, sizes, free)
    ensures SumSizes(recs) == Bytes(sizes)
    decreases |recs|
  {
    hide RecordOf, Bytes;
    if recs == [] {
      NoBytes(sizes);
    } else {
      RecordsDrop(recs, sizes, free, 0);
      assert Without(recs, 0) == recs[1..];
      RecordsBytes(recs[1..], sizes - {recs[0].start}, free);
      FirstRecord(recs, sizes, free);
      BytesWithout(sizes, recs[0].start);
    }
  }

  lemma FirstRecord(recs: seq<BigProtocol.Rec>, sizes: map<nat, nat>, free: bool)
    requires Records(recs, sizes, free) && recs != []
    ensures recs[0].start in sizes && recs[0].size == sizes[recs[0].start]
  {
    assert RecordOf(recs[0], sizes, free);
  }

  lemma NoBytes(sizes: map<nat, nat>)
    requires sizes.Keys == {}
    ensures Bytes(sizes) == 0
  {
    assert sizes == map[];
  }

  ghost function SumSizes(recs: seq<BigProtocol.Rec>): nat {
    if recs == [] then 0 else recs[0].size + SumSizes(recs[1..])
  }

  /** The sizes of the records of a list. */
  method SumList(head: BigZone?, ghost zs: seq<BigZone>) returns (total: nat)
    requires Linked(head, zs)
    ensures total == SumSizes(Recs(zs))
  {
    total := 0;
    var big := head;
    ghost var k: nat := 0;
    assert Recs(zs)[0..] == Recs(zs);
    while big != null
      invariant k <= |zs| && big == Node(zs, k) && total + SumSizes(Recs(zs)[k..]) == SumSizes(Recs(zs))
      decreases |zs| - k
    {
      assert Recs(zs)[k..][1..] == Recs(zs)[k + 1..];
      total := total + big.size;
      big, k := big.next, k + 1;
    }
  }

  /** _iso_alloc_detect_leaks: the number of small chunks that are live or quarantined, plus
      the number of bytes of the big mappings in use. */
  method DetectLeaks(root: Root, neon: bool) returns (total: nat)
    requires root.Ready()
    ensures total == |SmallOwned(root.abs)| + Bytes(Sizes(root.abs.big))
  {
    hide Root.Housed, RootOk, MapsOk, ZoneOk, LeakCount, Linked, Records, Bytes, SumSizes, Sizes;
    total := CountChunks(root, neon);
    var bytes := SumList(root.lists.usedHead, root.lists.used);
    RecordsBytes(Recs(root.lists.used), Sizes(root.big), false);
    total := total + bytes;
  }

  /** That is the number of allocations exactly if no big mapping is in use, and more
      otherwise. */
  lemma LeakUnits(r: RootView)
    requires RootOk(r)
    ensures |SmallOwned(r)| + Bytes(Sizes(r.big)) >= |AllOwned(r)|
    ensures |SmallOwned(r)| + Bytes(Sizes(r.big)) == |AllOwned(r)| <==> r.big == map[]
  {
    hide RootOk, Bytes, Sizes, SmallOwned, AllOwned;
    BigIsLarge(r);
    ManyBytes(Sizes(r.big));
    OwnedParts(r);
    if r.big == map[] { NoBytes(Sizes(r.big)); }
    assert |r.big.Keys| == |r.big| && Sizes(r.big).Keys == r.big.Keys && |Sizes(r.big).Keys| == |Sizes(r.big)|;
  }

  lemma BigIsLarge(r: RootView)
    requires RootOk(r)
    ensures forall p :: p in Sizes(r.big) ==> Sizes(r.big)[p] > 1
  {
    hide ZonesOk, OwnershipOk, ChainsOk, TablesOk, ParkedOk, SlotsOk;
  }

  lemma OwnedParts(r: RootView)
    requires RootOk(r)
    ensures |AllOwned(r)| == |SmallOwned(r)| + |r.big.Keys|
  {
    hide ZonesOk, RangesOk, ChainsOk, TablesOk, ParkedOk, SlotsOk, Holds;
    forall p | p in r.big ensures p in AllOwned(r) { assert Owned(r, p); }
    assert AllOwned(r) == SmallOwned(r) + r.big.Keys;
  }

  ghost function AllOwned(r: RootView): set<nat> {
    r.live.Keys + set p | p in r.quarantine
  }

  lemma {:induction false} ManyBytes(sizes: map<nat, nat>)
    requires forall p :: p in sizes ==> sizes[p] > 1
    ensures Bytes(sizes) >= 2 * |sizes|
    decreases |sizes|
  {
    if sizes != map[] {
      var p :| p in sizes && Bytes(sizes) == sizes[p] + Bytes(sizes - {p});
      ShrinksWithout(sizes, p);
      ManyBytes(sizes - {p});
      assert (sizes - {p}).Keys == sizes.Keys - {p} && |sizes.Keys| == |sizes|;
      assert |(sizes - {p}).Keys| == |sizes - {p}|;
    }
  }

  /** Its zone half. */
  method CountChunks(root: Root, neon: bool) returns (total: nat)
    requires root.Valid()
    ensures total == |SmallOwned(root.abs)|
  {
    hide Root.Housed, RootOk, MapsOk, ZoneOk, LeakCount;
    total := 0;
    for i: nat := 0 to |root.zones|
      invariant total == SumAf(root.abs.zones, i)
    {
      ZoneShown(root, i);
      var inUse, wasUsed := LeakDetector(root.zones[i], neon);
      RootZoneOk(root.abs, i);
      LeaksAreAfCount(root.abs.zones[i]);
      total := total + inUse;
    }
    OwnedIsHeld(root.abs);
  }

  lemma ZoneShown(root: Root, i: nat)
    requires root.HeapOk() && i < |root.zones|
    ensures root.zones[i].Shape() && root.zones[i].View() == root.abs.zones[i]
  {
  }

  // --------------------------------------------------------------- verification

  /** What _verify_zone demands of zone i: a link to a zone of its own size, or none, and
      every canary intact. */
  ghost predicate ZoneSound(zs: seq<ZoneView>, i: nat)
    requires i < |zs|
  {
    LinkSound(zs, i) && GeometryOk(zs[i]) && CanariesIntact(zs[i])
  }

  ghost predicate LinkSound(zs: seq<ZoneView>, i: nat)
    requires i < |zs|
  {
    zs[i].nextSz < |zs| && (zs[i].nextSz != 0 ==> zs[zs[i].nextSz].chunkSize == zs[i].chunkSize)
  }

  ghost predicate ZonesSound(zs: seq<ZoneView>) {
    forall i: nat :: i < |zs| ==> ZoneSound(zs, i)
  }

  /** The link leads to a zone of the same chunk size, and every freed chunk and canary
      chunk has both its canaries. */
  lemma ZoneSoundExactly(zs: seq<ZoneView>, i: nat)
    requires i < |zs| && GeometryOk(zs[i])
    ensures ZoneSound(zs, i) <==>
      && zs[i].nextSz < |zs| && (zs[i].nextSz == 0 || zs[zs[i].nextSz].chunkSize == zs[i].chunkSize)
      && forall c: nat :: c < |zs[i].states| && zs[i].states[c] in {Freed, Canary} ==> CanaryOkAt(zs[i], c)
  {
    hide GeometryOk, CanaryOkAt;
  }

  /** No record of either list is damaged. */
  ghost predicate BigSound(lists: BigLists)
    reads lists, lists.used, lists.free
  {
    && (forall k: nat :: k < |lists.used| ==> Intact(lists.used[k], lists.secret))
    && (forall k: nat :: k < |lists.free| ==> Intact(lists.free[k], lists.secret))
  }

  /** The checks of _verify_zone before its scan. An entry of the zones array that is not
      in use has chunk size 0. */
  method VerifyLink(root: Root, i: nat, ghost zs: seq<ZoneView>) returns (aborted: bool)
    requires root.Tied(zs) && i < |root.zones|
    ensures aborted <==> !LinkSound(zs, i)
  {
    var zone := root.zones[i];
    if zone.nextSzIndex > |root.zones| { return true; }
    if zone.nextSzIndex == 0 { return false; }
    var size := if zone.nextSzIndex < |root.zones| then root.zones[zone.nextSzIndex].chunkSize else 0;
    return zone.chunkSize != size;
  }

  lemma ZoneTied(root: Root, i: nat, zs: seq<ZoneView>)
    requires root.Tied(zs) && i < |root.zones|
    ensures |zs| == |root.zones| && root.zones[i].Shape() && root.zones[i].View() == zs[i]
  {
  }

  /** _verify_all_zones aborts exactly when a link or a canary of a zone, or a record of a
      big zone, is damaged. */
  method VerifyAllZones(root: Root, neon: bool, ghost zs: seq<ZoneView>) returns (aborted: bool)
    requires root.Tied(zs) && root.lists.Shape()
    ensures aborted <==> !(ZonesSound(zs) && BigSound(root.lists))
  {
    hide Root.Tied, LinkSound, GeometryOk, CanariesIntact, Intact, Linked, Distinct, Zone.View, Zone.Shape;
    TiedLength(root, zs);
    for i: nat := 0 to |root.zones|
      invariant forall j: nat :: j < i ==> ZoneSound(zs, j)
    {
      ZoneTied(root, i, zs);
      aborted := VerifyLink(root, i, zs);
      if aborted {
        assert !ZoneSound(zs, i);
        return;
      }
      aborted := VerifyZone(root.zones[i], neon);
      if aborted {
        assert !ZoneSound(zs, i);
        return;
      }
    }
    aborted := VerifyBigZones(root.lists.usedHead, root.lists.used, root.lists.secret);
    if aborted { return; }
    aborted := VerifyBigZones(root.lists.freeHead, root.lists.free, root.lists.secret);
  }

  lemma TiedLength(root: Root, zs: seq<ZoneView>)
    requires root.Tied(zs)
    ensures |zs| == |root.zones|
  {
  }

  /** With clients writing only inside their chunks it never aborts. */
  lemma NothingToFind(root: Root)
    requires root.Ready()
    ensures ZonesSound(root.abs.zones) && BigSound(root.lists)
  {
    hide Root.Tied, MapsOk, RangesOk, OwnershipOk, TablesOk, ParkedOk, CacheOk, CanariesIntact, BigLists.Shape;
    hide BigZone.CanaryOk;
    forall i: nat | i < |root.abs.zones| ensures ZoneSound(root.abs.zones, i) {
      assert ZoneOk(root.abs.zones[i]);
    }
    forall k: nat | k < |root.lists.used| ensures Intact(root.lists.used[k], root.lists.secret) {
      assert root.lists.used[k] in root.lists.used;
      assert RecordOf(Recs(root.lists.used)[k], Sizes(root.big), false);
    }
    forall k: nat | k < |root.lists.free| ensures Intact(root.lists.free[k], root.lists.secret) {
      assert root.lists.free[k] in root.lists.free;
      assert RecordOf(Recs(root.lists.free)[k], root.spare, true);
    }
  }
}
