// The steps the root can take, each under the root lock, and the proof that
// every one of them keeps the root invariant.
module RootSteps {
  import opened Sequences
  import opened Bitmap
  import opened Geometry
  import opened ZoneState
  import opened RootState

  /** ADDR_TO_CHUNK_TABLE. */
  function ChunkIndex(p: nat): (k: nat)
    ensures k < CHUNK_LOOKUP_TABLE_LEN
  {
    p / ZONE_USER_SIZE % CHUNK_LOOKUP_TABLE_LEN
  }

  /** mmap returned pages that overlap nothing currently mapped; zone `except` has
      just been unmapped. */
  ghost predicate PagesFit(r: RootView, p: nat, n: nat, except: int) {
    && p % PAGE_SIZE == 0
    && (forall i: nat :: i < |r.zones| && i != except ==> Apart(r.zones[i].base, ZONE_USER_SIZE, p, n))
    && (forall q :: q in r.big ==> Apart(p, n, q, |r.big[q]|))
    && (forall q :: q in r.parked ==> Apart(p, n, q, r.parked[q]))
  }

  /** The bitmap of a new zone is in the lowest slot for its size that no other current
      zone has, or on pages of its own; zone `except` has just given its slot back. */
  ghost predicate HomeFits(zones: seq<ZoneView>, z: ZoneView, except: int) {
    && HomeOk(z)
    && (z.home.Shared? ==>
          && z.home.slot !in SlotsHeld(zones, except)
          && forall n: nat :: n < z.home.slot.number ==> z.home.slot.(number := n) in SlotsHeld(zones, except))
  }

  datatype Event =
    | Search(zones: seq<ZoneView>)                          // zones probed for a free slot
    | Take(i: nat, c: nat, size: nat)                       // a chunk handed to a client
    | AddZone(zone: ZoneView)                               // a new zone at the end
    | Quarantine(p: nat)                                    // a freed chunk parked
    | Release(p: nat, i: nat, c: nat, permanent: bool)      // a chunk freed at once
    | Flush(i: nat, c: nat)                                 // the oldest parked chunk freed
    | Replace(i: nat, zone: ZoneView)                       // a retired zone replaced
    | Destroy(i: nat, zone: ZoneView)                       // a private zone destroyed
    | BigTake(p: nat, bytes: seq<Byte>, size: nat)          // a big allocation on new pages
    | BigReuse(p: nat, bytes: seq<Byte>, size: nat)         // a big allocation on parked pages
    | BigRelease(p: nat, park: bool)                        // a big allocation freed at once
    | BigFlush(park: bool)                                  // the oldest quarantined one is big
    | Write(i: nat, c: nat, mem: seq<Byte>)                 // a client writes to its chunk
    | BigWrite(p: nat, bytes: seq<Byte>)                    // or to its big allocation

  /** The replacement of zone i: same size, same place in the chains. */
  ghost predicate Replaces(r: RootView, i: nat, z: ZoneView)
    requires i < |r.zones|
  {
    && FreshZone(z)
    && z.chunkSize == r.zones[i].chunkSize && z.nextSz == r.zones[i].nextSz && z.index == i && z.internal
    && PagesFit(r, z.base, ZONE_USER_SIZE, i) && HomeFits(r.zones, z, i)
  }

  function WithReplacement(r: RootView, i: nat, z: ZoneView): RootView
    requires i < |r.zones| && |r.chunkTable| == CHUNK_LOOKUP_TABLE_LEN
  {
    r.(zones := r.zones[i := z],
       chunkTable := r.chunkTable[ChunkIndex(r.zones[i].base) := 0][ChunkIndex(z.base) := i])
  }

  /** Zone i and chunk c of it are real, and c is in use at address p. */
  ghost predicate UsedChunk(r: RootView, i: nat, c: nat, p: nat) {
    && i < |r.zones| && c < |r.zones[i].states|
    && p == ChunkAddress(r.zones[i], c)
    && r.zones[i].states[c] == InUse
    && r.zones[i].afCount > 0
    && 16 <= r.zones[i].chunkSize && ChunkOffset(r.zones[i], c) + r.zones[i].chunkSize <= |r.zones[i].mem|
  }

  /** A big mapping leaves the used list, for the free list or for good. */
  function BigGivenUp(r: RootView, p: nat, park: bool): RootView
    requires p in r.big
  {
    r.(big := r.big - {p}, parked := if park then r.parked[p := |r.big[p]|] else r.parked)
  }

  ghost predicate Step(r: RootView, e: Event, r': RootView) {
    match e
    case Search(zs) =>
      && |zs| == |r.zones| && (forall i: nat :: i < |zs| ==> Searched(r.zones[i], zs[i]))
      && r' == r.(zones := zs)
    case Take(i, c, size) =>
      && i < |r.zones| && c < |r.zones[i].states| && r.zones[i].cache.primed == 2 * c
      && ChunkOffset(r.zones[i], c) + 8 <= |r.zones[i].mem|
      && size <= r.zones[i].chunkSize
      && r' == r.(zones := r.zones[i := TakeChunk(r.zones[i], c)], live := r.live[ChunkAddress(r.zones[i], c) := size])
    case AddZone(z) =>
      && |r.zones| < MAX_ZONES && |r.chunkTable| == CHUNK_LOOKUP_TABLE_LEN && |r.sizeTable| == ZONE_LOOKUP_TABLE_LEN
      && FreshZone(z) && z.index == |r.zones| && SizeIndex(z.chunkSize) < |r.sizeTable|
      && PagesFit(r, z.base, ZONE_USER_SIZE, -1) && HomeFits(r.zones, z, -1)
      && z.nextSz == (if z.internal then r.sizeTable[SizeIndex(z.chunkSize)] else 0)
      && r' == r.(zones := r.zones + [z],
                  sizeTable := if z.internal then r.sizeTable[SizeIndex(z.chunkSize) := z.index] else r.sizeTable,
                  chunkTable := r.chunkTable[ChunkIndex(z.base) := z.index])
    case Quarantine(p) =>
      && p in r.live && |r.quarantine| < CHUNK_QUARANTINE_SZ
      && r' == r.(live := r.live - {p}, quarantine := r.quarantine + [p])
    case Release(p, i, c, permanent) =>
      && p in r.live && UsedChunk(r, i, c, p)
      && r' == r.(zones := r.zones[i := ReleaseChunk(r.zones[i], c, permanent)], live := r.live - {p})
    case Flush(i, c) =>
      && |r.quarantine| > 0 && UsedChunk(r, i, c, r.quarantine[0])
      && r' == r.(zones := r.zones[i := ReleaseChunk(r.zones[i], c, false)], quarantine := r.quarantine[1..])
    case Replace(i, z) =>
      && i < |r.zones| && |r.chunkTable| == CHUNK_LOOKUP_TABLE_LEN && r.zones[i].afCount == 0 && r.zones[i].internal
      && Replaces(r, i, z)
      && r' == WithReplacement(r, i, z)
    case Destroy(i, z) =>
      && i < |r.zones| && |r.chunkTable| == CHUNK_LOOKUP_TABLE_LEN && !r.zones[i].internal && r.quarantine == []
      && Replaces(r, i, z)
      && r' == WithReplacement(r, i, z).(live := map p | p in r.live && !InZone(r.zones[i], p) :: r.live[p])
    case BigTake(p, bytes, size) =>
      && |bytes| > SMALL_SIZE_MAX && size <= |bytes| && PagesFit(r, p, |bytes|, -1)
      && r' == r.(big := r.big[p := bytes], live := r.live[p := size])
    case BigReuse(p, bytes, size) =>
      && p in r.parked && |bytes| == r.parked[p] && size <= |bytes|
      && r' == r.(parked := r.parked - {p}, big := r.big[p := bytes], live := r.live[p := size])
    case BigRelease(p, park) =>
      && p in r.live && p in r.big
      && r' == BigGivenUp(r, p, park).(live := r.live - {p})
    case BigFlush(park) =>
      && |r.quarantine| > 0 && r.quarantine[0] in r.big
      && r' == BigGivenUp(r, r.quarantine[0], park).(quarantine := r.quarantine[1..])
    case Write(i, c, mem) =>
      && i < |r.zones| && c < |r.zones[i].states| && r.zones[i].states[c] == InUse
      && SameOutside(r.zones[i].mem, mem, ChunkOffset(r.zones[i], c), ChunkOffset(r.zones[i], c) + r.zones[i].chunkSize)
      && r' == r.(zones := r.zones[i := r.zones[i].(mem := mem)])
    case BigWrite(p, bytes) =>
      && p in r.big && |bytes| == |r.big[p]|
      && r' == r.(big := r.big[p := bytes])
  }

  // ----------------------------------------------------- what no step disturbs

  /** The parts of a zone that the tables and the address map depend on. */
  ghost predicate SameFrame(z: ZoneView, z': ZoneView) {
    && z'.base == z.base && z'.chunkSize == z.chunkSize && z'.internal == z.internal
    && z'.index == z.index && z'.nextSz == z.nextSz
  }

  lemma SameFrameKeeps(r: RootView, r': RootView)
    requires RangesOk(r.zones, r.big) && ChainsOk(r.zones, r.sizeTable) && TablesOk(r)
    requires |r'.zones| == |r.zones| && (forall i: nat :: i < |r.zones| ==> SameFrame(r.zones[i], r'.zones[i]))
    requires r'.sizeTable == r.sizeTable && r'.chunkTable == r.chunkTable && |r'.quarantine| <= CHUNK_QUARANTINE_SZ
    requires r'.big.Keys <= r.big.Keys && (forall p :: p in r'.big ==> |r'.big[p]| == |r.big[p]|)
    ensures RangesOk(r'.zones, r'.big) && ChainsOk(r'.zones, r'.sizeTable) && TablesOk(r')
  {
  }

  /** Changing the state of chunk c changes what the zone holds at c alone. */
  lemma HoldsUpdate(z: ZoneView, z': ZoneView, c: nat, s: ChunkState, q: nat)
    requires z.chunkSize > 0 && c < |z.states|
    requires z'.base == z.base && z'.chunkSize == z.chunkSize && z'.states == z.states[c := s]
    ensures Holds(z', q) <==> if q == ChunkAddress(z, c) then s == InUse else Holds(z, q)
  {
    HoldsChunk(z, c);
    HoldsChunk(z', c);
    if q >= z.base && (q - z.base) % z.chunkSize == 0 && (q - z.base) / z.chunkSize == c {
      assert q - z.base == c * z.chunkSize;
    }
  }

  // ---------------------------------------------------------------- ownership

  /** Only zone i changed, and it now also holds p. */
  ghost predicate GainsChunk(r: RootView, r': RootView, i: nat, p: nat) {
    && i < |r.zones| == |r'.zones|
    && (forall j: nat :: j < |r.zones| && j != i ==> r'.zones[j] == r.zones[j])
    && (forall q: nat :: Holds(r'.zones[i], q) <==> Holds(r.zones[i], q) || q == p)
    && r'.zones[i].chunkSize == r.zones[i].chunkSize
  }

  /** Only zone i changed, and it no longer holds p. */
  ghost predicate LosesChunk(r: RootView, r': RootView, i: nat, p: nat) {
    && i < |r.zones| == |r'.zones|
    && (forall j: nat :: j < |r.zones| && j != i ==> r'.zones[j] == r.zones[j])
    && (forall q: nat :: Holds(r'.zones[i], q) <==> Holds(r.zones[i], q) && q != p)
    && Holds(r.zones[i], p)
    && r'.zones[i].chunkSize == r.zones[i].chunkSize
  }

  /** A free chunk belongs to nobody. */
  lemma FreeIsUnowned(r: RootView, i: nat, p: nat)
    requires ZonesOk(r.zones) && RangesOk(r.zones, r.big) && OwnershipOk(r)
    requires i < |r.zones| && InZone(r.zones[i], p) && !Holds(r.zones[i], p)
    ensures !Owned(r, p) && p !in r.big
  {
    hide ZoneOk, Holds;
    if p in r.big { BigNotInZone(r.zones, r.big, i, p); }
    if Owned(r, p) {
      var j: nat :| j < |r.zones| && Holds(r.zones[j], p);
      HoldsInside(r.zones[j], p);
      ZoneUnique(r.zones, r.big, i, j, p);
    }
  }

  lemma OwnTake(r: RootView, r': RootView, i: nat, p: nat, size: nat)
    requires ZonesOk(r.zones) && RangesOk(r.zones, r.big) && OwnershipOk(r)
    requires GainsChunk(r, r', i, p) && !Owned(r, p) && p !in r.big
    requires ZonesOk(r'.zones) && RangesOk(r'.zones, r'.big)
    requires r'.big == r.big && r'.quarantine == r.quarantine && r'.live == r.live[p := size]
    requires size <= r.zones[i].chunkSize
    ensures OwnershipOk(r')
  {
    hide ZoneOk, Holds, RangesOk, Distinct;
    assert Holds(r'.zones[i], p);
    forall q: nat | Owned(r', q)
      ensures q in r'.big || exists j: nat :: j < |r'.zones| && Holds(r'.zones[j], q)
    {
      if q != p {
        assert Owned(r, q);
        if q !in r.big {
          var j: nat :| j < |r.zones| && Holds(r.zones[j], q);
          assert Holds(r'.zones[j], q);
        }
      }
    }
    forall j: nat, q: nat | j < |r'.zones| && Holds(r'.zones[j], q)
      ensures Owned(r', q) && (q in r'.live ==> r'.live[q] <= r'.zones[j].chunkSize)
    {
      if q == p {
        HoldsInside(r'.zones[j], p);
        HoldsInside(r'.zones[i], p);
        ZoneUnique(r'.zones, r'.big, i, j, p);
      } else {
        assert Holds(r.zones[j], q) && Owned(r, q);
      }
    }
    forall q | q in r'.big ensures Owned(r', q) && (q in r'.live ==> r'.live[q] <= |r'.big[q]|) {
      assert Owned(r, q);
    }
  }

  /** Owned addresses after p has been given up. */
  ghost predicate GivesUp(r: RootView, r': RootView, p: nat) {
    && (forall q: nat :: Owned(r', q) <==> Owned(r, q) && q != p)
    && (forall q :: q in r'.live ==> q in r.live && r'.live[q] == r.live[q])
    && (forall q :: q in r'.live ==> q !in r'.quarantine)
    && Distinct(r'.quarantine)
  }

  lemma OwnRelease(r: RootView, r': RootView, i: nat, p: nat)
    requires ZonesOk(r.zones) && RangesOk(r.zones, r.big) && OwnershipOk(r)
    requires LosesChunk(r, r', i, p) && GivesUp(r, r', p) && r'.big == r.big
    ensures OwnershipOk(r')
  {
    hide ZoneOk, Holds, Distinct, Owned;
    HoldsInside(r.zones[i], p);
    if p in r.big { BigNotInZone(r.zones, r.big, i, p); }
    forall q: nat | Owned(r', q)
      ensures q in r'.big || exists j: nat :: j < |r'.zones| && Holds(r'.zones[j], q)
    {
      if q !in r.big {
        var j: nat :| j < |r.zones| && Holds(r.zones[j], q);
        assert Holds(r'.zones[j], q);
      }
    }
    forall j: nat, q: nat | j < |r'.zones| && Holds(r'.zones[j], q)
      ensures Owned(r', q) && (q in r'.live ==> r'.live[q] <= r'.zones[j].chunkSize)
    {
      assert Holds(r.zones[j], q);
      if q == p {
        HoldsInside(r.zones[j], p);
        ZoneUnique(r.zones, r.big, i, j, p);
      }
    }
  }

  lemma GiveUpLive(r: RootView, r': RootView, p: nat)
    requires OwnershipOk(r) && p in r.live
    requires r'.live == r.live - {p} && r'.quarantine == r.quarantine
    ensures GivesUp(r, r', p)
  {
  }

  lemma GiveUpOldest(r: RootView, r': RootView, p: nat)
    requires OwnershipOk(r) && |r.quarantine| > 0 && p == r.quarantine[0]
    requires r'.live == r.live && r'.quarantine == r.quarantine[1..]
    ensures GivesUp(r, r', p)
  {
  }

  lemma OwnBigRelease(r: RootView, r': RootView, p: nat)
    requires ZonesOk(r.zones) && RangesOk(r.zones, r.big) && OwnershipOk(r)
    requires p in r.big && GivesUp(r, r', p) && r'.big == r.big - {p} && r'.zones == r.zones
    ensures OwnershipOk(r')
  {
    hide ZoneOk, Holds, Distinct, Owned;
    forall q: nat | Owned(r', q)
      ensures q in r'.big || exists j: nat :: j < |r'.zones| && Holds(r'.zones[j], q)
    {
    }
    forall j: nat, q: nat | j < |r'.zones| && Holds(r'.zones[j], q)
      ensures Owned(r', q) && (q in r'.live ==> r'.live[q] <= r'.zones[j].chunkSize)
    {
      HoldsInside(r.zones[j], q);
      if q == p { BigNotInZone(r.zones, r.big, j, p); }
    }
  }

  lemma OwnBigTake(r: RootView, r': RootView, p: nat, bytes: seq<Byte>, size: nat)
    requires ZonesOk(r.zones) && OwnershipOk(r) && PagesFit(r, p, |bytes|, -1) && |bytes| > 0 && size <= |bytes|
    requires r'.big == r.big[p := bytes] && r'.live == r.live[p := size] && r'.zones == r.zones
    requires r'.quarantine == r.quarantine
    requires forall q :: q in r.big ==> |r.big[q]| > 0
    ensures OwnershipOk(r')
  {
    hide ZoneOk, Holds, Distinct;
    UnmappedIsUnowned(r, p, |bytes|);
    forall j: nat, q: nat | j < |r'.zones| && Holds(r'.zones[j], q)
      ensures Owned(r', q) && (q in r'.live ==> r'.live[q] <= r'.zones[j].chunkSize)
    {
      HoldsInside(r.zones[j], q);
      assert Owned(r, q);
    }
    forall q | q in r'.big ensures Owned(r', q) && (q in r'.live ==> r'.live[q] <= |r'.big[q]|) {
      if q != p { assert q in r.big && Owned(r, q); }
    }
  }

  /** Nobody owns an address in pages that have just been mapped. */
  lemma UnmappedIsUnowned(r: RootView, p: nat, n: nat)
    requires ZonesOk(r.zones) && OwnershipOk(r) && PagesFit(r, p, n, -1) && n > 0
    requires forall q :: q in r.big ==> |r.big[q]| > 0
    ensures !Owned(r, p) && p !in r.big
  {
    hide ZoneOk, Holds, Distinct;
    if Owned(r, p) {
      var j: nat :| j < |r.zones| && Holds(r.zones[j], p);
      HoldsInside(r.zones[j], p);
    }
  }

  /** Zone i is swapped for one that holds nothing; what clients keep is what was
      not in it. */
  lemma OwnReplace(r: RootView, r': RootView, i: nat)
    requires ZonesOk(r.zones) && RangesOk(r.zones, r.big) && OwnershipOk(r)
    requires i < |r.zones| == |r'.zones| && r'.big == r.big && r'.quarantine == r.quarantine
    requires forall j: nat :: j < |r.zones| && j != i ==> r'.zones[j] == r.zones[j]
    requires forall q: nat :: !Holds(r'.zones[i], q)
    requires forall q: nat :: Owned(r', q) <==> Owned(r, q) && !Holds(r.zones[i], q)
    requires forall q :: q in r'.live ==> q in r.live && r'.live[q] == r.live[q]
    ensures OwnershipOk(r')
  {
    hide ZoneOk, Holds, Distinct, Owned;
    forall q: nat | Owned(r', q)
      ensures q in r'.big || exists j: nat :: j < |r'.zones| && Holds(r'.zones[j], q)
    {
      if q !in r.big {
        var j: nat :| j < |r.zones| && Holds(r.zones[j], q);
        assert Holds(r'.zones[j], q);
      }
    }
    forall j: nat, q: nat | j < |r'.zones| && Holds(r'.zones[j], q)
      ensures Owned(r', q) && (q in r'.live ==> r'.live[q] <= r'.zones[j].chunkSize)
    {
      assert Holds(r.zones[j], q);
      if Holds(r.zones[i], q) {
        HoldsInside(r.zones[i], q);
        HoldsInside(r.zones[j], q);
        ZoneUnique(r.zones, r.big, i, j, q);
      }
    }
    forall q | q in r'.big ensures Owned(r', q) {
      if Holds(r.zones[i], q) {
        HoldsInside(r.zones[i], q);
        BigNotInZone(r.zones, r.big, i, q);
      }
    }
    forall q | q in r'.live ensures q !in r'.quarantine {}
  }

  // ------------------------------------------------ each step keeps the invariant

  lemma OneZoneChanged(r: RootView, i: nat, z: ZoneView)
    requires ZonesOk(r.zones) && i < |r.zones| && ZoneOk(z)
    ensures ZonesOk(r.zones[i := z])
  {
    hide ZoneOk;
  }

  lemma FrameAfterUpdate(r: RootView, i: nat, z: ZoneView)
    requires i < |r.zones| && SameFrame(r.zones[i], z)
    ensures forall j: nat :: j < |r.zones| ==> SameFrame(r.zones[j], r.zones[i := z][j])
  {
  }

  lemma SearchKeepsOk(r: RootView, zs: seq<ZoneView>, r': RootView)
    requires BaseOk(r) && Step(r, Search(zs), r')
    ensures BaseOk(r')
  {
    hide ZoneOk, Distinct, RangesOk, ChainsOk, OwnershipOk;
    forall i: nat | i < |zs| ensures ZoneOk(zs[i]) && SameFrame(r.zones[i], zs[i]) {
      assert Searched(r.zones[i], zs[i]);
    }
    SameFrameKeeps(r, r');
    OwnSame(r, r');
  }

  lemma HoldsSame(z: ZoneView, z': ZoneView, p: nat)
    requires z'.base == z.base && z'.chunkSize == z.chunkSize && z'.states == z.states
    ensures Holds(z', p) == Holds(z, p)
  {
  }

  /** Ownership only depends on which chunks are in use. */
  lemma OwnSame(r: RootView, r': RootView)
    requires OwnershipOk(r) && r'.live == r.live && r'.quarantine == r.quarantine
    requires r'.big.Keys == r.big.Keys && (forall p :: p in r.big ==> |r'.big[p]| == |r.big[p]|)
    requires |r'.zones| == |r.zones|
    requires forall i: nat :: i < |r.zones| ==>
      && r'.zones[i].base == r.zones[i].base && r'.zones[i].chunkSize == r.zones[i].chunkSize
      && r'.zones[i].states == r.zones[i].states
    ensures OwnershipOk(r')
  {
    hide Distinct, Holds;
    forall i: nat, p: nat | i < |r.zones| ensures Holds(r'.zones[i], p) == Holds(r.zones[i], p) {
      HoldsSame(r.zones[i], r'.zones[i], p);
    }
    forall p: nat | Owned(r', p)
      ensures p in r'.big || exists i: nat :: i < |r'.zones| && Holds(r'.zones[i], p)
    {
      assert Owned(r, p);
      if p !in r.big {
        var i: nat :| i < |r.zones| && Holds(r.zones[i], p);
        assert Holds(r'.zones[i], p);
      }
    }
    forall i: nat, p: nat | i < |r'.zones| && Holds(r'.zones[i], p)
      ensures Owned(r', p) && (p in r'.live ==> r'.live[p] <= r'.zones[i].chunkSize)
    {
      assert Holds(r.zones[i], p);
      assert Owned(r, p);
    }
    forall p | p in r'.big ensures Owned(r', p) {
      assert p in r.big && Owned(r, p);
    }
  }

  lemma TakeStepKeepsOk(r: RootView, i: nat, c: nat, size: nat, r': RootView)
    requires BaseOk(r) && Step(r, Take(i, c, size), r')
    ensures BaseOk(r')
  {
    hide ZoneOk, Distinct, RangesOk, ChainsOk, OwnershipOk, Holds;
    var z, p := r.zones[i], ChunkAddress(r.zones[i], c);
    TakeKeepsOk(z, c);
    OneZoneChanged(r, i, TakeChunk(z, c));
    FrameAfterUpdate(r, i, TakeChunk(z, c));
    SameFrameKeeps(r, r');
    ChunkSizePositive(z);
    forall q: nat ensures Holds(r'.zones[i], q) <==> Holds(z, q) || q == p {
      HoldsUpdate(z, r'.zones[i], c, InUse, q);
    }
    HoldsChunk(z, c);
    AddressInZone(z, c);
    FreeIsUnowned(r, i, p);
    OwnTake(r, r', i, p, size);
  }

  lemma ChunkSizePositive(z: ZoneView)
    requires ZoneOk(z)
    ensures z.chunkSize > 0
  {
  }

  lemma AddressInZone(z: ZoneView, c: nat)
    requires ZoneOk(z) && c < |z.states|
    ensures InZone(z, ChunkAddress(z, c))
  {
    hide CacheOk, CanariesIntact, CountOf;
    AddressableIsReal(z, c);
  }

  lemma ReleaseFacts(r: RootView, i: nat, c: nat, p: nat, permanent: bool, r': RootView)
    requires BaseOk(r) && UsedChunk(r, i, c, p)
    requires r'.zones == r.zones[i := ReleaseChunk(r.zones[i], c, permanent)]
    ensures ZonesOk(r'.zones) && LosesChunk(r, r', i, p)
    ensures forall j: nat :: j < |r.zones| ==> SameFrame(r.zones[j], r'.zones[j])
  {
    hide ZoneOk, RangesOk, ChainsOk, TablesOk, OwnershipOk, Holds, FreedMemory, Insert;
    var z := r.zones[i];
    ReleaseKeepsOk(z, c, permanent);
    OneZoneChanged(r, i, ReleaseChunk(z, c, permanent));
    FrameAfterUpdate(r, i, ReleaseChunk(z, c, permanent));
    ChunkSizePositive(z);
    HoldsChunk(z, c);
    forall q: nat ensures Holds(r'.zones[i], q) <==> Holds(z, q) && q != p {
      HoldsUpdate(z, r'.zones[i], c, if permanent then Canary else Freed, q);
    }
  }

  lemma ReleaseStepKeepsOk(r: RootView, p: nat, i: nat, c: nat, permanent: bool, r': RootView)
    requires BaseOk(r) && Step(r, Release(p, i, c, permanent), r')
    ensures BaseOk(r')
  {
    hide ZoneOk, Distinct, RangesOk, ChainsOk, OwnershipOk, Holds, LosesChunk, GivesUp;
    ReleaseFacts(r, i, c, p, permanent, r');
    SameFrameKeeps(r, r');
    GiveUpLive(r, r', p);
    OwnRelease(r, r', i, p);
  }

  lemma FlushStepKeepsOk(r: RootView, i: nat, c: nat, r': RootView)
    requires BaseOk(r) && Step(r, Flush(i, c), r')
    ensures BaseOk(r')
  {
    hide ZoneOk, Distinct, RangesOk, ChainsOk, OwnershipOk, Holds, LosesChunk, GivesUp;
    var p := r.quarantine[0];
    ReleaseFacts(r, i, c, p, false, r');
    SameFrameKeeps(r, r');
    GiveUpOldest(r, r', p);
    OwnRelease(r, r', i, p);
  }

  lemma QuarantineKeepsOk(r: RootView, p: nat, r': RootView)
    requires BaseOk(r) && Step(r, Quarantine(p), r')
    ensures BaseOk(r')
  {
    hide ZoneOk, RangesOk, ChainsOk, Holds;
    forall q: nat ensures Owned(r', q) == Owned(r, q) {}
  }

  lemma BigStepsKeepOk(r: RootView, e: Event, r': RootView)
    requires BaseOk(r) && Step(r, e, r') && (e.BigRelease? || e.BigFlush?)
    ensures BaseOk(r')
  {
    hide ZoneOk, Distinct, RangesOk, ChainsOk, OwnershipOk, Holds, GivesUp;
    var p := if e.BigRelease? then e.p else r.quarantine[0];
    SameFrameKeeps(r, r');
    if e.BigRelease? { GiveUpLive(r, r', p); } else { GiveUpOldest(r, r', p); }
    OwnBigRelease(r, r', p);
  }

  lemma BigTakeKeepsOk(r: RootView, p: nat, bytes: seq<Byte>, size: nat, r': RootView)
    requires BaseOk(r) && Step(r, BigTake(p, bytes, size), r')
    ensures BaseOk(r')
  {
    hide ZoneOk, Distinct, ChainsOk, OwnershipOk, Holds;
    OwnBigTake(r, r', p, bytes, size);
  }

  lemma BigWriteKeepsOk(r: RootView, p: nat, bytes: seq<Byte>, r': RootView)
    requires BaseOk(r) && Step(r, BigWrite(p, bytes), r')
    ensures BaseOk(r')
  {
    hide ZoneOk, Distinct, RangesOk, ChainsOk, OwnershipOk, Holds;
    SameFrameKeeps(r, r');
    OwnSame(r, r');
  }

  /** A client that writes only inside its own chunk leaves every canary intact. */
  lemma WriteKeepsZoneOk(z: ZoneView, c: nat, mem: seq<Byte>)
    requires ZoneOk(z) && c < |z.states| && z.states[c] == InUse
    requires SameOutside(z.mem, mem, ChunkOffset(z, c), ChunkOffset(z, c) + z.chunkSize)
    ensures ZoneOk(z.(mem := mem))
  {
    hide CanariesIntact, CacheOk, CountOf, SameOutside;
    var z' := z.(mem := mem);
    SameLength(z.mem, mem, ChunkOffset(z, c), ChunkOffset(z, c) + z.chunkSize);
    CanariesElsewhere(z, z', c);
  }

  lemma SameLength(m: seq<Byte>, m': seq<Byte>, lo: nat, hi: nat)
    requires SameOutside(m, m', lo, hi)
    ensures |m'| == |m|
  {
  }

  lemma WriteStepKeepsOk(r: RootView, i: nat, c: nat, mem: seq<Byte>, r': RootView)
    requires BaseOk(r) && Step(r, Write(i, c, mem), r')
    ensures BaseOk(r')
  {
    hide ZoneOk, Distinct, RangesOk, ChainsOk, OwnershipOk, Holds, SameOutside, TablesOk;
    WriteKeepsZoneOk(r.zones[i], c, mem);
    OneZoneChanged(r, i, r.zones[i].(mem := mem));
    FrameAfterUpdate(r, i, r.zones[i].(mem := mem));
    TablesSame(r, r');
    SameFrameKeeps(r, r');
    OwnSame(r, r');
  }

  lemma TablesSame(r: RootView, r': RootView)
    requires TablesOk(r) && r'.chunkTable == r.chunkTable && r'.quarantine == r.quarantine && |r'.zones| == |r.zones|
    ensures TablesOk(r') && |r'.quarantine| <= CHUNK_QUARANTINE_SZ
  {
  }

  // ------------------------------------------- zone creation and replacement

  lemma FreshHoldsNothing(z: ZoneView, q: nat)
    requires FreshZone(z)
    ensures !Holds(z, q)
  {
    hide CacheOk, CanariesIntact, CountOf;
  }

  lemma IdleHoldsNothing(z: ZoneView, q: nat)
    requires ZoneOk(z) && z.afCount == 0
    ensures !Holds(z, q)
  {
    hide CacheOk, CanariesIntact, CountOf;
    if Holds(z, q) { NotCounted(z.states, (q - z.base) / z.chunkSize); }
  }

  lemma NotCounted(states: seq<ChunkState>, c: nat)
    requires c < |states| && CountOf(states, InUse) == 0
    ensures states[c] != InUse
  {
  }

  lemma RangesAdd(r: RootView, z: ZoneView)
    requires RangesOk(r.zones, r.big) && PagesFit(r, z.base, ZONE_USER_SIZE, -1)
    ensures RangesOk(r.zones + [z], r.big)
  {
  }

  lemma RangesReplace(r: RootView, i: nat, z: ZoneView)
    requires RangesOk(r.zones, r.big) && i < |r.zones| && PagesFit(r, z.base, ZONE_USER_SIZE, i)
    ensures RangesOk(r.zones[i := z], r.big)
  {
  }

  lemma SizeIndexExact(size: nat)
    requires IsChunkSize(size)
    ensures size == 16 * SizeIndex(size)
  {
  }

  /** A new zone becomes the head of its size class; a private one is in none. */
  lemma ChainsAdd(zones: seq<ZoneView>, table: seq<nat>, z: ZoneView)
    requires ChainsOk(zones, table) && IsChunkSize(z.chunkSize) && z.index == |zones|
    requires SizeIndex(z.chunkSize) < |table|
    requires z.nextSz == if z.internal then table[SizeIndex(z.chunkSize)] else 0
    ensures ChainsOk(zones + [z], if z.internal then table[SizeIndex(z.chunkSize) := z.index] else table)
  {
    hide IsChunkSize;
    SizeIndexExact(z.chunkSize);
    var zs := zones + [z];
    var table' := if z.internal then table[SizeIndex(z.chunkSize) := z.index] else table;
    forall k: nat | k < |table'| && table'[k] != 0
      ensures table'[k] < |zs| && zs[table'[k]].internal && zs[table'[k]].chunkSize == 16 * k
    {
      if !(z.internal && k == SizeIndex(z.chunkSize)) { assert table[k] != 0; }
    }
    forall i: nat | i < |zs| && zs[i].nextSz != 0
      ensures zs[i].nextSz < i && zs[i].internal && zs[zs[i].nextSz].internal
      ensures zs[zs[i].nextSz].chunkSize == zs[i].chunkSize
    {
      if i < |zones| { assert zones[i].nextSz != 0; }
    }
  }

  /** A replacement keeps the place of its predecessor, also when that was a
      private zone, which no chain passes through. */
  lemma ChainsReplace(zones: seq<ZoneView>, table: seq<nat>, i: nat, z: ZoneView)
    requires ChainsOk(zones, table) && i < |zones|
    requires z.chunkSize == zones[i].chunkSize && z.nextSz == zones[i].nextSz && z.index == i && z.internal
    ensures ChainsOk(zones[i := z], table)
  {
  }

  lemma AddZoneKeepsOk(r: RootView, z: ZoneView, r': RootView)
    requires BaseOk(r) && Step(r, AddZone(z), r')
    ensures BaseOk(r')
  {
    hide CacheOk, CanariesIntact, CountOf, Distinct, RangesOk, ChainsOk, OwnershipOk, Holds, Seeded;
    RangesAdd(r, z);
    ChainsAdd(r.zones, r.sizeTable, z);
    forall q: nat ensures !Holds(z, q) { FreshHoldsNothing(z, q); }
    OwnAdd(r, r', z);
  }

  lemma OwnAdd(r: RootView, r': RootView, z: ZoneView)
    requires OwnershipOk(r) && r'.zones == r.zones + [z] && r'.big == r.big && r'.live == r.live
    requires r'.quarantine == r.quarantine
    requires forall q: nat :: !Holds(z, q)
    ensures OwnershipOk(r')
  {
    hide Distinct, Holds;
    forall p: nat | Owned(r', p)
      ensures p in r'.big || exists i: nat :: i < |r'.zones| && Holds(r'.zones[i], p)
    {
      assert Owned(r, p);
      if p !in r.big {
        var i: nat :| i < |r.zones| && Holds(r.zones[i], p);
        assert Holds(r'.zones[i], p);
      }
    }
    forall i: nat, p: nat | i < |r'.zones| && Holds(r'.zones[i], p)
      ensures Owned(r', p) && (p in r'.live ==> r'.live[p] <= r'.zones[i].chunkSize)
    {
      assert i < |r.zones| && Holds(r.zones[i], p);
      assert Owned(r, p);
    }
    forall p | p in r'.big ensures Owned(r', p) {
      assert Owned(r, p);
    }
  }

  lemma ReplacementFacts(r: RootView, i: nat, z: ZoneView, r': RootView)
    requires BaseOk(r) && i < |r.zones| && Replaces(r, i, z)
    requires r'.zones == WithReplacement(r, i, z).zones && r'.chunkTable == WithReplacement(r, i, z).chunkTable
    requires r'.sizeTable == r.sizeTable && r'.big == r.big && r'.quarantine == r.quarantine
    ensures ZonesOk(r'.zones) && RangesOk(r'.zones, r'.big) && ChainsOk(r'.zones, r'.sizeTable) && TablesOk(r')
    ensures forall q: nat :: !Holds(r'.zones[i], q)
  {
    hide CacheOk, CanariesIntact, CountOf, RangesOk, ChainsOk, OwnershipOk, Holds, Seeded;
    RangesReplace(r, i, z);
    ChainsReplace(r.zones, r.sizeTable, i, z);
    forall q: nat ensures !Holds(z, q) { FreshHoldsNothing(z, q); }
  }

  lemma ReplaceKeepsOk(r: RootView, i: nat, z: ZoneView, r': RootView)
    requires BaseOk(r) && Step(r, Replace(i, z), r')
    ensures BaseOk(r')
  {
    hide ZoneOk, RangesOk, ChainsOk, TablesOk, OwnershipOk, Holds, Replaces;
    TablesShape(r);
    ReplacementFacts(r, i, z, r');
    forall q: nat ensures !Holds(r.zones[i], q) { IdleHoldsNothing(r.zones[i], q); }
    OwnReplace(r, r', i);
  }

  lemma TablesShape(r: RootView)
    requires TablesOk(r)
    ensures |r.chunkTable| == CHUNK_LOOKUP_TABLE_LEN
  {
  }

  lemma DestroyKeepsOk(r: RootView, i: nat, z: ZoneView, r': RootView)
    requires BaseOk(r) && Step(r, Destroy(i, z), r')
    ensures BaseOk(r')
  {
    hide ZoneOk, RangesOk, ChainsOk, TablesOk, OwnershipOk, Holds, Replaces, Distinct;
    TablesShape(r);
    ReplacementFacts(r, i, z, r');
    forall q: nat ensures Owned(r', q) <==> Owned(r, q) && !Holds(r.zones[i], q) {
      if Holds(r.zones[i], q) { HoldsInside(r.zones[i], q); }
      if q in r.live && !Holds(r.zones[i], q) { OutsideIfNotHeld(r, i, q); }
    }
    OwnReplace(r, r', i);
  }

  /** An owned address that zone i does not hold is not in zone i at all. */
  lemma OutsideIfNotHeld(r: RootView, i: nat, q: nat)
    requires ZonesOk(r.zones) && RangesOk(r.zones, r.big) && OwnershipOk(r)
    requires i < |r.zones| && Owned(r, q) && !Holds(r.zones[i], q)
    ensures !InZone(r.zones[i], q)
  {
    hide ZoneOk, RangesOk, OwnershipOk, Holds;
    if InZone(r.zones[i], q) { FreeIsUnowned(r, i, q); }
  }

  // ------------------------------------------------------- mappings kept for reuse

  /** A parked mapping lies apart from everything else, whatever was mapped since. */
  lemma ParkedFits(r: RootView, p: nat)
    requires RootOk(r) && p in r.parked
    ensures PagesFit(r.(parked := r.parked - {p}), p, r.parked[p], -1)
  {
    hide BaseOk;
  }

  /** Parked mappings stay apart when no zone and no big mapping changes its extent. */
  lemma ParkedSame(r: RootView, r': RootView)
    requires ParkedOk(r) && |r'.zones| == |r.zones|
    requires (forall i: nat :: i < |r.zones| ==> r'.zones[i].base == r.zones[i].base)
    requires r'.big.Keys <= r.big.Keys && (forall p :: p in r'.big ==> |r'.big[p]| == |r.big[p]|)
    requires r'.parked.Keys <= r.parked.Keys && (forall p :: p in r'.parked ==> r'.parked[p] == r.parked[p])
    ensures ParkedOk(r')
  {
  }

  lemma ParkedZone(r: RootView, r': RootView, i: nat)
    requires ParkedOk(r) && i < |r'.zones| && r'.big == r.big && r'.parked == r.parked
    requires PagesFit(r, r'.zones[i].base, ZONE_USER_SIZE, if i < |r.zones| then i else -1)
    requires forall j: nat :: j < |r'.zones| && j != i ==> j < |r.zones| && r'.zones[j] == r.zones[j]
    ensures ParkedOk(r')
  {
  }

  lemma ParkedBig(r: RootView, r': RootView, p: nat, n: nat)
    requires ParkedOk(r) && PagesFit(r, p, n, -1) && r'.zones == r.zones && r'.parked == r.parked
    requires r'.big.Keys == r.big.Keys + {p} && |r'.big[p]| == n
    requires forall q :: q in r.big && q != p ==> r'.big[q] == r.big[q]
    ensures ParkedOk(r')
  {
  }

  lemma ParkedGiven(r: RootView, p: nat, park: bool)
    requires ParkedOk(r) && RangesOk(r.zones, r.big) && p in r.big
    ensures ParkedOk(BigGivenUp(r, p, park))
  {
    hide Apart;
    var r' := BigGivenUp(r, p, park);
    forall a, b | a in r'.parked && b in r'.parked && a != b ensures Apart(a, r'.parked[a], b, r'.parked[b]) {
      if b == p && a != p { ApartSwap(p, |r.big[p]|, a, r.parked[a]); }
      if a == p && b != p { ApartSwap(b, r.parked[b], p, |r.big[p]|); }
    }
  }

  lemma ApartSwap(p: nat, n: nat, q: nat, m: nat)
    ensures Apart(p, n, q, m) == Apart(q, m, p, n)
  {
  }

  /** Steps that move no mapping. */
  predicate Quiet(e: Event) {
    e.Search? || e.Take? || e.Quarantine? || e.Release? || e.Flush? || e.Write? || e.BigWrite?
  }

  lemma QuietKeepsParked(r: RootView, e: Event, r': RootView)
    requires ParkedOk(r) && Step(r, e, r') && Quiet(e)
    ensures ParkedOk(r')
  {
    hide ParkedOk, ZoneOk, FreedMemory, Insert, WriteAt, SameOutside;
    ParkedSame(r, r');
  }

  lemma StepKeepsParked(r: RootView, e: Event, r': RootView)
    requires RootOk(r) && Step(r, e, r') && !e.BigReuse?
    ensures ParkedOk(r')
  {
    hide ParkedOk, RangesOk, ZonesOk, ChainsOk, OwnershipOk, PagesFit, FreshZone, Searched, TakeChunk, ReleaseChunk;
    hide UsedChunk;
    match e
    case AddZone(z) => ParkedZone(r, r', |r.zones|);
    case Replace(i, z) => ParkedZone(r, r', i);
    case Destroy(i, z) => ParkedZone(r, r', i);
    case BigTake(p, bytes, size) => ParkedBig(r, r', p, |bytes|);
    case BigRelease(p, park) => BigGoes(r, p, park, r');
    case BigFlush(park) => BigGoes(r, r.quarantine[0], park, r');
    case _ => QuietKeepsParked(r, e, r');
  }

  // ------------------------------------------------------------------ bitmap slots

  lemma SlotsSame(zones: seq<ZoneView>, zones': seq<ZoneView>)
    requires SlotsOk(zones) && |zones'| == |zones|
    requires forall i: nat :: i < |zones| ==>
      zones'[i].home == zones[i].home && zones'[i].chunkSize == zones[i].chunkSize
    ensures SlotsOk(zones')
  {
    hide SlotFits;
  }

  lemma SlotsWith(zones: seq<ZoneView>, zones': seq<ZoneView>, z: ZoneView, at: nat)
    requires SlotsOk(zones) && HomeFits(zones, z, if at < |zones| then at else -1)
    requires at < |zones'| <= |zones| + 1 && zones'[at] == z
    requires forall i: nat :: i < |zones'| && i != at ==> i < |zones| && zones'[i] == zones[i]
    ensures SlotsOk(zones')
  {
    hide HomeOk;
    var except := if at < |zones| then at else -1;
    forall i: nat | i < |zones'| && i != at && zones'[i].home.Shared? ensures zones'[i].home != z.home {
      assert zones[i].home.slot in SlotsHeld(zones, except);
    }
  }

  /** Every step keeps the slots apart. */
  lemma StepKeepsSlots(r: RootView, e: Event, r': RootView)
    requires SlotsOk(r.zones) && Step(r, e, r')
    ensures SlotsOk(r'.zones)
  {
    hide SlotsOk, HomeFits, PagesFit, FreshZone, ZoneOk, FreedMemory, Insert, WriteAt, SameOutside;
    match e
    case AddZone(z) => SlotsWith(r.zones, r'.zones, z, |r.zones|);
    case Replace(i, z) => SlotsWith(r.zones, r'.zones, z, i);
    case Destroy(i, z) => SlotsWith(r.zones, r'.zones, z, i);
    case _ => SlotsSame(r.zones, r'.zones);
  }

  lemma BigGoes(r: RootView, p: nat, park: bool, r': RootView)
    requires ParkedOk(r) && RangesOk(r.zones, r.big) && p in r.big
    requires r'.zones == r.zones && r'.big == BigGivenUp(r, p, park).big && r'.parked == BigGivenUp(r, p, park).parked
    ensures ParkedOk(r')
  {
    hide ParkedOk, RangesOk;
    ParkedGiven(r, p, park);
    ParkedSame(BigGivenUp(r, p, park), r');
  }

  lemma StepKeepsBase(r: RootView, e: Event, r': RootView)
    requires BaseOk(r) && Step(r, e, r') && !e.BigReuse?
    ensures BaseOk(r')
  {
    hide BaseOk, Step;
    match e
    case Search(zs) => SearchKeepsOk(r, zs, r');
    case Take(i, c, size) => TakeStepKeepsOk(r, i, c, size, r');
    case AddZone(z) => AddZoneKeepsOk(r, z, r');
    case Quarantine(p) => QuarantineKeepsOk(r, p, r');
    case Release(p, i, c, permanent) => ReleaseStepKeepsOk(r, p, i, c, permanent, r');
    case Flush(i, c) => FlushStepKeepsOk(r, i, c, r');
    case Replace(i, z) => ReplaceKeepsOk(r, i, z, r');
    case Destroy(i, z) => DestroyKeepsOk(r, i, z, r');
    case BigTake(p, bytes, size) => BigTakeKeepsOk(r, p, bytes, size, r');
    case BigRelease(p, _) => BigStepsKeepOk(r, e, r');
    case BigFlush(_) => BigStepsKeepOk(r, e, r');
    case Write(i, c, mem) => WriteStepKeepsOk(r, i, c, mem, r');
    case BigWrite(p, bytes) => BigWriteKeepsOk(r, p, bytes, r');
  }

  /** Without its parked mapping p the root is as good as before. */
  lemma Unparked(r: RootView, p: nat)
    requires RootOk(r)
    ensures RootOk(r.(parked := r.parked - {p}))
  {
    hide ZonesOk, RangesOk, ChainsOk, Distinct, Holds;
    var r0 := r.(parked := r.parked - {p});
    assert OwnershipOk(r0) by {
      forall q: nat ensures Owned(r0, q) == Owned(r, q) {}
    }
  }

  /** Every step keeps the root invariant. */
  lemma StepKeepsOk(r: RootView, e: Event, r': RootView)
    requires RootOk(r) && Step(r, e, r')
    ensures RootOk(r')
  {
    if e.BigReuse? {
      hide RootOk, PagesFit;
      var r0, e0 := r.(parked := r.parked - {e.p}), BigTake(e.p, e.bytes, e.size);
      Unparked(r, e.p);
      ParkedFits(r, e.p);
      ParkedLarge(r, e.p);
      assert Step(r0, e0, r');
      StepKeepsBoth(r0, e0, r');
    } else {
      hide RootOk, Step;
      StepKeepsBoth(r, e, r');
    }
  }

  lemma ParkedLarge(r: RootView, p: nat)
    requires RootOk(r) && p in r.parked
    ensures r.parked[p] > SMALL_SIZE_MAX
  {
    hide BaseOk;
  }

  lemma StepKeepsBoth(r: RootView, e: Event, r': RootView)
    requires RootOk(r) && Step(r, e, r') && !e.BigReuse?
    ensures RootOk(r')
  {
    hide BaseOk, ParkedOk, SlotsOk, Step;
    StepKeepsBase(r, e, r');
    StepKeepsParked(r, e, r');
    StepKeepsSlots(r, e, r');
  }

  // --------------------------------------------------------------------- runs

  /** A run: the events es lead from r to r'. */
  ghost predicate Reach(r: RootView, es: seq<Event>, r': RootView)
    decreases |es|
  {
    if es == [] then r == r'
    else exists mid :: Reach(r, Front(es), mid) && Step(mid, Last(es), r')
  }

  /** In every run from a good state every state is good. */
  lemma {:induction false} RunKeepsOk(r: RootView, es: seq<Event>, r': RootView)
    requires RootOk(r) && Reach(r, es, r')
    ensures RootOk(r')
    decreases |es|
  {
    hide RootOk, Step;
    if es != [] {
      var mid :| Reach(r, Front(es), mid) && Step(mid, Last(es), r');
      RunKeepsOk(r, Front(es), mid);
      StepKeepsOk(mid, Last(es), r');
    }
  }

  lemma ReachStep(r: RootView, es: seq<Event>, mid: RootView, e: Event, r': RootView)
    requires Reach(r, es, mid) && Step(mid, e, r')
    ensures Reach(r, es + [e], r')
  {
    hide Step;
    assert Front(es + [e]) == es && Last(es + [e]) == e;
  }

  lemma {:induction false} ReachConcat(r: RootView, es: seq<Event>, mid: RootView, fs: seq<Event>, r': RootView)
    requires Reach(r, es, mid) && Reach(mid, fs, r')
    ensures Reach(r, es + fs, r')
    decreases |fs|
  {
    hide Step;
    if fs == [] {
      assert es + fs == es;
    } else {
      var m2 :| Reach(mid, Front(fs), m2) && Step(m2, Last(fs), r');
      ReachConcat(r, es, mid, Front(fs), m2);
      ReachStep(r, es + Front(fs), m2, Last(fs), r');
      assert es + Front(fs) + [Last(fs)] == es + fs;
    }
  }

  // -------------------------------------------------------------------- safety

  /** The root before its first zone. */
  function EmptyRoot(): RootView {
    RootView([], seq(ZONE_LOOKUP_TABLE_LEN, _ => 0), seq(CHUNK_LOOKUP_TABLE_LEN, _ => 0), [], map[], map[], map[])
  }

  lemma EmptyRootOk()
    ensures RootOk(EmptyRoot())
  {
  }

  /** Safety of every run of the allocator from its start: no two chunks that are
      live or quarantined overlap. */
  lemma RunSafe(es: seq<Event>, r: RootView, p: nat, n: nat, q: nat, m: nat)
    requires Reach(EmptyRoot(), es, r)
    requires Owned(r, p) && Owned(r, q) && p != q && Extent(r, p, n) && Extent(r, q, m)
    ensures Apart(p, n, q, m)
  {
    hide RootOk, Reach, EmptyRoot;
    EmptyRootOk();
    RunKeepsOk(EmptyRoot(), es, r);
    OwnedApart(r, p, n, q, m);
  }

  /** Mappings kept for reuse overlap no owned chunk and no zone, in every run, although
      zones and mappings come and go while they are parked. */
  lemma RunParked(es: seq<Event>, r: RootView, q: nat, p: nat, n: nat)
    requires Reach(EmptyRoot(), es, r) && q in r.parked && Owned(r, p) && Extent(r, p, n)
    ensures Apart(q, r.parked[q], p, n)
    ensures forall i: nat :: i < |r.zones| ==> Apart(r.zones[i].base, ZONE_USER_SIZE, q, r.parked[q])
  {
    hide Reach, EmptyRoot, ZoneOk, RangesOk, ChainsOk, TablesOk, OwnershipOk, Holds;
    EmptyRootOk();
    RunKeepsOk(EmptyRoot(), es, r);
    if p !in r.big {
      var i: nat :| i < |r.zones| && Holds(r.zones[i], p) && n == r.zones[i].chunkSize;
      HoldsInside(r.zones[i], p);
    }
  }

  /** In every run, an owned address is either a big allocation in no zone, or the
      address of a chunk marked 10 in exactly one zone, wholly inside its user
      pages; and what a client holds is at least as large as it asked for. */
  lemma RunPlaces(es: seq<Event>, r: RootView, p: nat)
    requires Reach(EmptyRoot(), es, r) && Owned(r, p)
    ensures p in r.big ==> (forall i: nat :: i < |r.zones| ==> !InZone(r.zones[i], p))
    ensures p !in r.big ==> exists i: nat :: i < |r.zones| && HoldsAlone(r, i, p)
    ensures p in r.live ==> exists n: nat :: Extent(r, p, n) && r.live[p] <= n
  {
    hide RootOk, Reach, EmptyRoot;
    EmptyRootOk();
    RunKeepsOk(EmptyRoot(), es, r);
    OwnedPlaces(r, p);
  }

  /** Zone i holds p, wholly inside its user pages, and no other zone contains p. */
  ghost predicate HoldsAlone(r: RootView, i: nat, p: nat)
    requires i < |r.zones|
  {
    && Holds(r.zones[i], p)
    && p + r.zones[i].chunkSize <= r.zones[i].base + ZONE_USER_SIZE
    && forall j: nat :: j < |r.zones| && InZone(r.zones[j], p) ==> j == i
  }

  lemma OwnedPlaces(r: RootView, p: nat)
    requires RootOk(r) && Owned(r, p)
    ensures p in r.big ==> (forall i: nat :: i < |r.zones| ==> !InZone(r.zones[i], p))
    ensures p !in r.big ==> exists i: nat :: i < |r.zones| && HoldsAlone(r, i, p)
    ensures p in r.live ==> exists n: nat :: Extent(r, p, n) && r.live[p] <= n
  {
    hide ZoneOk, RangesOk, ChainsOk, TablesOk, Holds, Distinct;
    if p in r.big {
      forall i: nat | i < |r.zones| ensures !InZone(r.zones[i], p) { BigNotInZone(r.zones, r.big, i, p); }
      assert Extent(r, p, |r.big[p]|);
    } else {
      var i: nat :| i < |r.zones| && Holds(r.zones[i], p);
      HoldsInside(r.zones[i], p);
      forall j: nat | j < |r.zones| && InZone(r.zones[j], p) ensures j == i { ZoneUnique(r.zones, r.big, i, j, p); }
      assert HoldsAlone(r, i, p);
      assert Extent(r, p, r.zones[i].chunkSize);
    }
  }

  /** A zone without allocations owns nothing that a client or the quarantine
      still refers to, so retiring it strands no address. */
  lemma RetiredIsUnreferenced(r: RootView, i: nat, p: nat)
    requires RootOk(r) && i < |r.zones| && r.zones[i].afCount == 0 && Owned(r, p)
    ensures !InZone(r.zones[i], p)
  {
    hide ZoneOk, RangesOk, ChainsOk, TablesOk, OwnershipOk, Holds;
    IdleHoldsNothing(r.zones[i], p);
    OutsideIfNotHeld(r, i, p);
  }
}
