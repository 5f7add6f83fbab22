// What the bytes of an owned chunk are, and that no step of the allocator or of
// another client changes them.
module RootContents {
  import opened Sequences
  import opened Bitmap
  import opened Geometry
  import opened ZoneState
  import opened RootState
  import opened RootSteps

  /** The bytes of the chunk at p. */
  function ChunkBytes(z: ZoneView, p: nat): seq<Byte>
    requires z.base <= p && p - z.base + z.chunkSize <= |z.mem|
  {
    z.mem[p - z.base..p - z.base + z.chunkSize]
  }

  /** The contents of an owned address are bytes. */
  ghost predicate Contents(r: RootView, p: nat, bytes: seq<Byte>) {
    if p in r.big then bytes == r.big[p]
    else exists i: nat :: i < |r.zones| && HoldsBytes(r.zones[i], p, bytes)
  }

  ghost predicate HoldsBytes(z: ZoneView, p: nat, bytes: seq<Byte>) {
    Holds(z, p) && p - z.base + z.chunkSize <= |z.mem| && bytes == ChunkBytes(z, p)
  }

  /** The step neither writes to p for its owner nor gives p up. */
  predicate Spares(r: RootView, e: Event, p: nat) {
    match e
    case Release(q, _, _, _) => q != p
    case Flush(_, _) => r.quarantine == [] || r.quarantine[0] != p
    case Destroy(i, _) => i < |r.zones| && !InZone(r.zones[i], p)
    case BigRelease(q, _) => q != p
    case BigFlush(_) => r.quarantine == [] || r.quarantine[0] != p
    case Write(i, c, _) => i < |r.zones| && ChunkAddress(r.zones[i], c) != p
    case BigWrite(q, _) => q != p
    case _ => true
  }

  lemma ApartSlice(z: ZoneView, z': ZoneView, c: nat, p: nat)
    requires ZoneOk(z) && Holds(z, p) && c < |z.states| && ChunkAddress(z, c) != p
    requires z'.base == z.base && z'.chunkSize == z.chunkSize
    requires SameOutside(z.mem, z'.mem, ChunkOffset(z, c), ChunkOffset(z, c) + z.chunkSize)
    ensures p - z.base + z.chunkSize <= |z.mem| == |z'.mem| && ChunkBytes(z', p) == ChunkBytes(z, p)
  {
    hide CacheOk, CanariesIntact, CountOf;
    HoldsInside(z, p);
    var d := (p - z.base) / z.chunkSize;
    if c < d { ChunksApart(z.chunkSize, c, d); } else if d < c { ChunksApart(z.chunkSize, d, c); }
    var lo := ChunkOffset(z, c);
    SameOutsideSlice(z.mem, z'.mem, lo, lo + z.chunkSize, p - z.base, p - z.base + z.chunkSize);
  }

  lemma TakeMemory(z: ZoneView, c: nat)
    requires ZoneOk(z) && c < |z.states| && ChunkOffset(z, c) + 8 <= |z.mem|
    ensures SameOutside(z.mem, TakeChunk(z, c).mem, ChunkOffset(z, c), ChunkOffset(z, c) + z.chunkSize)
  {
    hide CacheOk, CanariesIntact, CountOf;
  }

  /** A change of chunk c leaves the other chunks of the zone as they were. */
  lemma UpdateSpares(z: ZoneView, z': ZoneView, c: nat, s: ChunkState, p: nat, bytes: seq<Byte>)
    requires ZoneOk(z) && HoldsBytes(z, p, bytes) && c < |z.states| && ChunkAddress(z, c) != p
    requires z'.base == z.base && z'.chunkSize == z.chunkSize && z'.states == z.states[c := s]
    requires SameOutside(z.mem, z'.mem, ChunkOffset(z, c), ChunkOffset(z, c) + z.chunkSize)
    ensures HoldsBytes(z', p, bytes)
  {
    hide CacheOk, CanariesIntact, CountOf, SameOutside, Holds;
    ChunkSizePositive(z);
    HoldsUpdate(z, z', c, s, p);
    ApartSlice(z, z', c, p);
  }

  lemma SearchedSpares(z: ZoneView, z': ZoneView, p: nat, bytes: seq<Byte>)
    requires Searched(z, z') && HoldsBytes(z, p, bytes)
    ensures HoldsBytes(z', p, bytes)
  {
  }

  /** In zone j the bytes at p survive the step. */
  lemma ZoneSpares(r: RootView, e: Event, r': RootView, j: nat, p: nat, bytes: seq<Byte>)
    requires RootOk(r) && Step(r, e, r') && Spares(r, e, p) && Owned(r, p)
    requires j < |r.zones| && HoldsBytes(r.zones[j], p, bytes)
    ensures j < |r'.zones| && HoldsBytes(r'.zones[j], p, bytes)
  {
    hide ZoneOk, RangesOk, ChainsOk, TablesOk, OwnershipOk, HoldsBytes, ReleaseChunk, TakeChunk, SameOutside;
    match e
    case Search(zs) => SearchedSpares(r.zones[j], zs[j], p, bytes);
    case Take(i, c, size) => if i == j { TakeSpares(r, i, c, size, p, bytes); }
    case Release(q, i, c, permanent) => if i == j { ReleaseSpares(r.zones[i], c, permanent, p, bytes); }
    case Flush(i, c) => if i == j { ReleaseSpares(r.zones[i], c, false, p, bytes); }
    case Replace(i, z) => if i == j { IdleSpares(r.zones[i], p, bytes); }
    case Destroy(i, z) => if i == j { HeldInside(r.zones[i], p, bytes); }
    case Write(i, c, mem) => if i == j { WriteSpares(r.zones[i], c, mem, p, bytes); }
    case _ =>
  }

  lemma TakeSpares(r: RootView, i: nat, c: nat, size: nat, p: nat, bytes: seq<Byte>)
    requires RootOk(r) && i < |r.zones| && HoldsBytes(r.zones[i], p, bytes)
    requires c < |r.zones[i].states| && r.zones[i].cache.primed == 2 * c
    requires ChunkOffset(r.zones[i], c) + 8 <= |r.zones[i].mem|
    ensures HoldsBytes(TakeChunk(r.zones[i], c), p, bytes)
  {
    hide RangesOk, ChainsOk, TablesOk, OwnershipOk, CacheOk, CanariesIntact, CountOf, WriteAt;
    var z := r.zones[i];
    TakeKeepsOk(z, c);
    HoldsChunk(z, c);
    TakeMemory(z, c);
    UpdateSpares(z, TakeChunk(z, c), c, InUse, p, bytes);
  }

  lemma ReleaseSpares(z: ZoneView, c: nat, permanent: bool, p: nat, bytes: seq<Byte>)
    requires ZoneOk(z) && HoldsBytes(z, p, bytes) && c < |z.states| && ChunkAddress(z, c) != p
    requires z.afCount > 0 && 16 <= z.chunkSize && ChunkOffset(z, c) + z.chunkSize <= |z.mem|
    ensures HoldsBytes(ReleaseChunk(z, c, permanent), p, bytes)
  {
    hide CacheOk, CanariesIntact, CountOf, FreedMemory, Insert, HoldsBytes;
    FreedMemoryShape(z, c, permanent);
    UpdateSpares(z, ReleaseChunk(z, c, permanent), c, if permanent then Canary else Freed, p, bytes);
  }

  lemma IdleSpares(z: ZoneView, p: nat, bytes: seq<Byte>)
    requires ZoneOk(z) && HoldsBytes(z, p, bytes)
    ensures z.afCount != 0
  {
    hide ZoneOk, Holds;
    if z.afCount == 0 { IdleHoldsNothing(z, p); }
  }

  lemma HeldInside(z: ZoneView, p: nat, bytes: seq<Byte>)
    requires ZoneOk(z) && HoldsBytes(z, p, bytes)
    ensures InZone(z, p)
  {
    hide ZoneOk;
    HoldsInside(z, p);
  }

  lemma WriteSpares(z: ZoneView, c: nat, mem: seq<Byte>, p: nat, bytes: seq<Byte>)
    requires ZoneOk(z) && HoldsBytes(z, p, bytes) && c < |z.states| && ChunkAddress(z, c) != p
    requires SameOutside(z.mem, mem, ChunkOffset(z, c), ChunkOffset(z, c) + z.chunkSize)
    ensures HoldsBytes(z.(mem := mem), p, bytes)
  {
    hide CacheOk, CanariesIntact, CountOf, SameOutside, HoldsBytes;
    assert z.states == z.states[c := z.states[c]];
    UpdateSpares(z, z.(mem := mem), c, z.states[c], p, bytes);
  }

  /** Isolation: a step that is not the owner's own leaves an owned chunk owned
      and its contents untouched. */
  lemma StepSpares(r: RootView, e: Event, r': RootView, p: nat, bytes: seq<Byte>)
    requires RootOk(r) && Step(r, e, r') && Spares(r, e, p) && Owned(r, p) && Contents(r, p, bytes)
    ensures Owned(r', p) && Contents(r', p, bytes)
  {
    hide RootOk, HoldsBytes, ReleaseChunk, TakeChunk, Replaces;
    StaysOwned(r, e, r', p);
    if p in r.big {
      BigStays(r, e, r', p);
    } else {
      var j: nat :| j < |r.zones| && HoldsBytes(r.zones[j], p, bytes);
      ZoneSpares(r, e, r', j, p, bytes);
      BigStaysOut(r, e, r', p, j, bytes);
    }
  }

  lemma StaysOwned(r: RootView, e: Event, r': RootView, p: nat)
    requires Step(r, e, r') && Spares(r, e, p) && Owned(r, p)
    ensures Owned(r', p)
  {
    hide ReleaseChunk, TakeChunk, Replaces;
    match e
    case Flush(i, c) => assert r.quarantine == [r.quarantine[0]] + r.quarantine[1..];
    case BigFlush(_) => assert r.quarantine == [r.quarantine[0]] + r.quarantine[1..];
    case _ =>
  }

  lemma BigStays(r: RootView, e: Event, r': RootView, p: nat)
    requires RootOk(r) && Step(r, e, r') && Spares(r, e, p) && p in r.big
    ensures p in r'.big && r'.big[p] == r.big[p]
  {
    hide ZoneOk, ChainsOk, TablesOk, OwnershipOk, ReleaseChunk, TakeChunk, Replaces;
  }

  lemma BigStaysOut(r: RootView, e: Event, r': RootView, p: nat, j: nat, bytes: seq<Byte>)
    requires RootOk(r) && Step(r, e, r') && p !in r.big && j < |r.zones| && HoldsBytes(r.zones[j], p, bytes)
    ensures p !in r'.big
  {
    hide RangesOk, ChainsOk, TablesOk, OwnershipOk, ReleaseChunk, TakeChunk, Replaces, ZoneOk, Holds;
    HoldsInside(r.zones[j], p);
  }

  // ---------------------------------------------------------------------- runs

  /** An act of the owner of p, which was allocated in state r: giving p up, writing to
      it, or destroying the private zone it lies in. */
  predicate OwnAct(r: RootView, e: Event, p: nat) {
    match e
    case Quarantine(q) => q == p
    case Release(q, _, _, _) => q == p
    case BigRelease(q, _) => q == p
    case Destroy(i, _) => i < |r.zones| && InZone(r.zones[i], p)
    case Write(i, c, _) => i < |r.zones| && ChunkAddress(r.zones[i], c) == p
    case BigWrite(q, _) => q == p
    case _ => false
  }

  /** What a client holds stays its own, at the size it asked for. */
  lemma StaysLive(r: RootView, e: Event, r': RootView, p: nat)
    requires RootOk(r) && Step(r, e, r') && Spares(r, e, p) && p in r.live && e != Quarantine(p)
    ensures p in r'.live && r'.live[p] == r.live[p]
  {
    hide ZoneOk, RangesOk, ChainsOk, TablesOk, OwnershipOk, ParkedOk, ReleaseChunk, TakeChunk, Replaces, PagesFit;
    hide InZone;
    match e
    case Take(i, c, _) => TakenUnowned(r, i, c);
    case BigTake(q, bytes, _) => NewUnowned(r, q, |bytes|);
    case BigReuse(q, _, _) => ReusedUnowned(r, q);
    case _ =>
  }

  lemma TakenUnowned(r: RootView, i: nat, c: nat)
    requires RootOk(r) && i < |r.zones| && c < |r.zones[i].states| && r.zones[i].cache.primed == 2 * c
    ensures !Owned(r, ChunkAddress(r.zones[i], c))
  {
    hide RangesOk, ChainsOk, TablesOk, OwnershipOk, ParkedOk, CacheOk, CanariesIntact, CountOf, Holds, Owned;
    TakeKeepsOk(r.zones[i], c);
    HoldsChunk(r.zones[i], c);
    AddressInZone(r.zones[i], c);
    FreeIsUnowned(r, i, ChunkAddress(r.zones[i], c));
  }

  lemma NewUnowned(r: RootView, p: nat, n: nat)
    requires RootOk(r) && PagesFit(r, p, n, -1) && n > 0
    ensures !Owned(r, p) && p !in r.big
  {
    hide ZonesOk, ChainsOk, TablesOk, OwnershipOk, ParkedOk, PagesFit, Owned;
    UnmappedIsUnowned(r, p, n);
  }

  lemma ReusedUnowned(r: RootView, p: nat)
    requires RootOk(r) && p in r.parked
    ensures !Owned(r, p) && p !in r.big
  {
    hide RootOk, PagesFit;
    var r0 := r.(parked := r.parked - {p});
    Unparked(r, p);
    ParkedFits(r, p);
    ParkedLarge(r, p);
    NewUnowned(r0, p, r.parked[p]);
  }

  /** The zone that holds p keeps its pages and its chunk size. */
  lemma HolderStays(r: RootView, e: Event, r': RootView, j: nat, p: nat, bytes: seq<Byte>)
    requires RootOk(r) && Step(r, e, r') && Spares(r, e, p)
    requires j < |r.zones| && HoldsBytes(r.zones[j], p, bytes)
    ensures j < |r'.zones| && r'.zones[j].base == r.zones[j].base && r'.zones[j].chunkSize == r.zones[j].chunkSize
  {
    hide ZoneOk, RangesOk, ChainsOk, TablesOk, OwnershipOk, ParkedOk, HoldsBytes, SameOutside, FreedMemory, Insert;
    hide WriteAt;
    match e
    case Search(zs) => assert Searched(r.zones[j], zs[j]);
    case Replace(i, z) => if i == j { IdleSpares(r.zones[i], p, bytes); }
    case Destroy(i, z) => if i == j { HeldInside(r.zones[i], p, bytes); }
    case _ =>
  }

  /** Zone j still holds p where it did in state r. */
  ghost predicate StillIn(r: RootView, r': RootView, j: nat, p: nat, bytes: seq<Byte>) {
    && p in r'.live && j < |r.zones| && j < |r'.zones| && HoldsBytes(r'.zones[j], p, bytes)
    && r'.zones[j].base == r.zones[j].base && r'.zones[j].chunkSize == r.zones[j].chunkSize
  }

  lemma OthersSpareZone(r: RootView, mid: RootView, e: Event, r': RootView, j: nat, p: nat, bytes: seq<Byte>)
    requires RootOk(mid) && StillIn(r, mid, j, p, bytes) && Step(mid, e, r') && !OwnAct(r, e, p)
    ensures Spares(mid, e, p) && e != Quarantine(p)
  {
    hide RangesOk, ChainsOk, TablesOk, ParkedOk, ZoneOk, Holds, ReleaseChunk, TakeChunk, Replaces, SameOutside;
    HeldInside(mid.zones[j], p, bytes);
    match e
    case Destroy(i, z) => if i != j && InZone(mid.zones[i], p) { ZoneUnique(mid.zones, mid.big, i, j, p); }
    case Write(i, c, mem) =>
      AddressInZone(mid.zones[i], c);
      if i != j && ChunkAddress(mid.zones[i], c) == p { ZoneUnique(mid.zones, mid.big, i, j, p); }
    case _ =>
  }

  lemma {:induction false} RunSparesZone(r: RootView, es: seq<Event>, r': RootView, j: nat, p: nat, bytes: seq<Byte>)
    requires RootOk(r) && Reach(r, es, r') && StillIn(r, r, j, p, bytes)
    requires forall e :: e in es ==> !OwnAct(r, e, p)
    ensures StillIn(r, r', j, p, bytes) && r'.live[p] == r.live[p] && p !in r'.big
    decreases |es|
  {
    hide RootOk, Step, HoldsBytes, OwnAct, Spares;
    if es == [] {
      HeldIsNotBig(r, j, p, bytes);
    } else {
      var mid :| Reach(r, Front(es), mid) && Step(mid, Last(es), r');
      forall e | e in Front(es) ensures !OwnAct(r, e, p) {}
      RunSparesZone(r, Front(es), mid, j, p, bytes);
      RunKeepsOk(r, Front(es), mid);
      assert Last(es) in es;
      OthersSpareZone(r, mid, Last(es), r', j, p, bytes);
      StepSparesZone(mid, Last(es), r', j, p, bytes);
    }
  }

  lemma HeldIsNotBig(r: RootView, j: nat, p: nat, bytes: seq<Byte>)
    requires RootOk(r) && j < |r.zones| && HoldsBytes(r.zones[j], p, bytes)
    ensures p !in r.big
  {
    hide RangesOk, ChainsOk, TablesOk, OwnershipOk, ParkedOk, ZoneOk;
    HeldInside(r.zones[j], p, bytes);
    if p in r.big { BigNotInZone(r.zones, r.big, j, p); }
  }

  lemma StepSparesZone(r: RootView, e: Event, r': RootView, j: nat, p: nat, bytes: seq<Byte>)
    requires RootOk(r) && Step(r, e, r') && Spares(r, e, p) && e != Quarantine(p) && p in r.live && p !in r.big
    requires j < |r.zones| && HoldsBytes(r.zones[j], p, bytes)
    ensures j < |r'.zones| && HoldsBytes(r'.zones[j], p, bytes)
    ensures r'.zones[j].base == r.zones[j].base && r'.zones[j].chunkSize == r.zones[j].chunkSize
    ensures p in r'.live && r'.live[p] == r.live[p] && p !in r'.big
  {
    hide RootOk, Step, HoldsBytes, Spares;
    HolderStays(r, e, r', j, p, bytes);
    ZoneSpares(r, e, r', j, p, bytes);
    StaysLive(r, e, r', p);
    BigStaysOut(r, e, r', p, j, bytes);
  }

  lemma {:induction false} RunSparesBig(r: RootView, es: seq<Event>, r': RootView, p: nat)
    requires RootOk(r) && Reach(r, es, r') && p in r.live && p in r.big
    requires forall e :: e in es ==> !OwnAct(r, e, p)
    ensures p in r'.live && r'.live[p] == r.live[p] && p in r'.big && r'.big[p] == r.big[p]
    decreases |es|
  {
    hide RootOk, Step, OwnAct, Spares;
    if es != [] {
      var mid :| Reach(r, Front(es), mid) && Step(mid, Last(es), r');
      forall e | e in Front(es) ensures !OwnAct(r, e, p) {}
      RunSparesBig(r, Front(es), mid, p);
      RunKeepsOk(r, Front(es), mid);
      assert Last(es) in es;
      OthersSpareBig(r, mid, Last(es), r', p);
      BigStays(mid, Last(es), r', p);
      StaysLive(mid, Last(es), r', p);
    }
  }

  lemma OthersSpareBig(r: RootView, mid: RootView, e: Event, r': RootView, p: nat)
    requires RootOk(mid) && p in mid.live && p in mid.big && Step(mid, e, r') && !OwnAct(r, e, p)
    ensures Spares(mid, e, p) && e != Quarantine(p)
  {
    hide RangesOk, ChainsOk, TablesOk, ParkedOk, ZoneOk, Holds, ReleaseChunk, TakeChunk, Replaces, SameOutside, InZone;
    match e
    case Destroy(i, z) => BigNotInZone(mid.zones, mid.big, i, p);
    case Write(i, c, mem) =>
      AddressInZone(mid.zones[i], c);
      if ChunkAddress(mid.zones[i], c) == p { BigNotInZone(mid.zones, mid.big, i, p); }
    case _ =>
  }

  /** Isolation over whole runs: whatever the allocator and all other clients do, writes,
      flushes, retirements and destroyed zones included, what a client holds stays its
      own, at its size and with its contents, until the client itself acts on it. */
  lemma RunSpares(r: RootView, es: seq<Event>, r': RootView, p: nat, bytes: seq<Byte>)
    requires RootOk(r) && Reach(r, es, r') && p in r.live && Contents(r, p, bytes)
    requires forall e :: e in es ==> !OwnAct(r, e, p)
    ensures p in r'.live && r'.live[p] == r.live[p] && Contents(r', p, bytes)
  {
    hide RootOk, Reach, OwnAct, HoldsBytes;
    if p in r.big {
      RunSparesBig(r, es, r', p);
    } else {
      var j: nat :| j < |r.zones| && HoldsBytes(r.zones[j], p, bytes);
      RunSparesZone(r, es, r', j, p, bytes);
    }
  }
}
