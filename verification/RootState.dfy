// The root as a value: the zones, the tables that find them, the quarantine and
// the big allocations in use, together with what the clients hold.
module RootState {
  import opened Sequences
  import opened Bitmap
  import opened Geometry
  import opened ZoneState

  const MAX_ZONES: nat := 8192
  const CHUNK_QUARANTINE_SZ: nat := 64
  const ZONE_LOOKUP_TABLE_LEN: nat := 4100
  const CHUNK_LOOKUP_TABLE_LEN: nat := 65536

  datatype RootView = RootView(
    zones: seq<ZoneView>,
    sizeTable: seq<nat>,             // zone_lookup_table
    chunkTable: seq<nat>,            // chunk_lookup_table
    quarantine: seq<nat>,            // chunk_quarantine, entries not yet processed
    big: map<nat, seq<Byte>>,        // big allocations in use: address and contents
    parked: map<nat, nat>,           // mappings kept for reuse on the big free list, and their sizes
    live: map<nat, nat>)             // what clients hold: address and requested size

  // ------------------------------------------------------------ address ranges

  predicate Apart(p: nat, n: nat, q: nat, m: nat) {
    p + n <= q || q + m <= p
  }

  predicate InZone(z: ZoneView, p: nat) {
    z.base <= p < z.base + ZONE_USER_SIZE
  }

  /** No two mappings overlap. */
  ghost predicate RangesOk(zones: seq<ZoneView>, big: map<nat, seq<Byte>>) {
    && (forall i: nat, j: nat :: i < j < |zones| ==>
          Apart(zones[i].base, ZONE_USER_SIZE, zones[j].base, ZONE_USER_SIZE))
    && (forall i: nat, p :: i < |zones| && p in big ==> Apart(zones[i].base, ZONE_USER_SIZE, p, |big[p]|))
    && (forall p, q :: p in big && q in big && p != q ==> Apart(p, |big[p]|, q, |big[q]|))
    && (forall i: nat :: i < |zones| ==> zones[i].base % PAGE_SIZE == 0)
    && (forall p :: p in big ==> p % PAGE_SIZE == 0 && |big[p]| > SMALL_SIZE_MAX)
  }

  /** Mappings kept for reuse overlap nothing that is in use, and not each other. */
  ghost predicate ParkedOk(r: RootView) {
    && (forall p :: p in r.parked ==> p % PAGE_SIZE == 0 && r.parked[p] > SMALL_SIZE_MAX)
    && (forall i: nat, p :: i < |r.zones| && p in r.parked ==>
          Apart(r.zones[i].base, ZONE_USER_SIZE, p, r.parked[p]))
    && (forall p, q :: p in r.parked && q in r.big ==> Apart(p, r.parked[p], q, |r.big[q]|))
    && (forall p, q :: p in r.parked && q in r.parked && p != q ==> Apart(p, r.parked[p], q, r.parked[q]))
  }

  // ----------------------------------------------------------- size-class chains

  /** SZ_TO_ZONE_LOOKUP_IDX. */
  function SizeIndex(size: nat): nat {
    size / 16
  }

  /** The size-class lists: a non-zero table entry heads a list of internal zones
      of exactly its size, and next_sz_index always leads to a smaller index. */
  ghost predicate ChainsOk(zones: seq<ZoneView>, table: seq<nat>) {
    && |table| == ZONE_LOOKUP_TABLE_LEN
    && (forall i: nat :: i < |zones| ==> zones[i].index == i)
    && (forall k: nat :: k < |table| && table[k] != 0 ==>
          table[k] < |zones| && zones[table[k]].internal && zones[table[k]].chunkSize == 16 * k)
    && (forall i: nat :: i < |zones| && zones[i].nextSz != 0 ==>
          && zones[i].nextSz < i
          && zones[i].internal && zones[zones[i].nextSz].internal
          && zones[zones[i].nextSz].chunkSize == zones[i].chunkSize)
  }

  // ------------------------------------------------------------------ ownership

  /** p is the address of an in-use chunk of z. */
  predicate Holds(z: ZoneView, p: nat) {
    && z.chunkSize > 0 && z.base <= p
    && (p - z.base) % z.chunkSize == 0
    && (p - z.base) / z.chunkSize < |z.states|
    && z.states[(p - z.base) / z.chunkSize] == InUse
  }

  predicate Owned(r: RootView, p: nat) {
    p in r.live || p in r.quarantine
  }

  /** Clients and the quarantine together own exactly the chunks marked in use
      and the big allocations on the used list; nothing is owned twice, and every
      chunk is as large as what was asked for. */
  ghost predicate OwnershipOk(r: RootView) {
    && (forall p :: p in r.live ==> p !in r.quarantine)
    && Distinct(r.quarantine)
    && (forall p: nat :: Owned(r, p) ==> p in r.big || exists i: nat :: i < |r.zones| && Holds(r.zones[i], p))
    && (forall i: nat, p: nat :: i < |r.zones| && Holds(r.zones[i], p) ==> Owned(r, p))
    && (forall p :: p in r.big ==> Owned(r, p))
    && (forall p :: p in r.live && p in r.big ==> r.live[p] <= |r.big[p]|)
    && (forall i: nat, p: nat :: i < |r.zones| && Holds(r.zones[i], p) && p in r.live ==>
          r.live[p] <= r.zones[i].chunkSize)
  }

  ghost predicate ZonesOk(zones: seq<ZoneView>) {
    forall i: nat :: i < |zones| ==> ZoneOk(zones[i])
  }

  ghost predicate TablesOk(r: RootView) {
    && |r.chunkTable| == CHUNK_LOOKUP_TABLE_LEN
    && (forall k: nat :: k < |r.chunkTable| ==> r.chunkTable[k] < |r.zones| || r.chunkTable[k] == 0)
    && |r.quarantine| <= CHUNK_QUARANTINE_SZ
    && |r.zones| <= MAX_ZONES
  }

  // ------------------------------------------------------------ bitmap slots

  /** The slots of shared bitmap pages that the zones, all but one of them, record. */
  ghost function SlotsHeld(zones: seq<ZoneView>, except: int): set<Slot> {
    set i: nat | i < |zones| && i != except && zones[i].home.Shared? :: zones[i].home.slot
  }

  predicate SlotFits(s: Slot) {
    IsBucket(s.bytes) && s.number < UsableSlots(s.bytes)
  }

  /** A zone in a shared page has a slot for bitmaps of its own size. */
  ghost predicate HomeOk(z: ZoneView) {
    z.home.Shared? ==> SlotFits(z.home.slot) && IsChunkSize(z.chunkSize) && z.home.slot.bytes == BitmapSize(z.chunkSize)
  }

  /** No two current zones have the same slot. */
  ghost predicate SlotsOk(zones: seq<ZoneView>) {
    && (forall i: nat :: i < |zones| ==> HomeOk(zones[i]))
    && (forall i: nat, j: nat :: i < j < |zones| && zones[i].home.Shared? ==> zones[i].home != zones[j].home)
  }

  ghost predicate BaseOk(r: RootView) {
    && ZonesOk(r.zones)
    && RangesOk(r.zones, r.big)
    && ChainsOk(r.zones, r.sizeTable)
    && TablesOk(r)
    && OwnershipOk(r)
  }

  /** What holds of the root in every reachable state. */
  ghost predicate RootOk(r: RootView) {
    BaseOk(r) && ParkedOk(r) && SlotsOk(r.zones)
  }

  // ------------------------------------------------------------ addresses, chunks

  lemma HoldsChunk(z: ZoneView, c: nat)
    requires z.chunkSize > 0 && c < |z.states|
    ensures Holds(z, ChunkAddress(z, c)) <==> z.states[c] == InUse
    ensures (ChunkAddress(z, c) - z.base) / z.chunkSize == c
  {
    ChunkOfOffset(z.chunkSize, c);
  }

  /** An in-use chunk lies wholly inside the user pages of its zone. */
  lemma HoldsInside(z: ZoneView, p: nat)
    requires ZoneOk(z) && Holds(z, p)
    ensures p == ChunkAddress(z, (p - z.base) / z.chunkSize)
    ensures z.base <= p && p + z.chunkSize <= z.base + ZONE_USER_SIZE
    ensures InZone(z, p)
  {
    hide CacheOk, CanariesIntact, CountOf;
    var c := (p - z.base) / z.chunkSize;
    assert p - z.base == c * z.chunkSize;
    AddressableIsReal(z, c);
  }

  /** Two in-use chunks of one zone do not overlap. */
  lemma HoldsApart(z: ZoneView, p: nat, q: nat)
    requires ZoneOk(z) && Holds(z, p) && Holds(z, q) && p != q
    ensures Apart(p, z.chunkSize, q, z.chunkSize)
  {
    hide ZoneOk;
    HoldsInside(z, p);
    HoldsInside(z, q);
    var c, d := (p - z.base) / z.chunkSize, (q - z.base) / z.chunkSize;
    if c < d { ChunksApart(z.chunkSize, c, d); } else if d < c { ChunksApart(z.chunkSize, d, c); }
  }

  /** An address belongs to at most one zone. */
  lemma ZoneUnique(zones: seq<ZoneView>, big: map<nat, seq<Byte>>, i: nat, j: nat, p: nat)
    requires RangesOk(zones, big) && i < |zones| && j < |zones| && InZone(zones[i], p) && InZone(zones[j], p)
    ensures i == j
  {
  }

  lemma BigNotInZone(zones: seq<ZoneView>, big: map<nat, seq<Byte>>, i: nat, p: nat)
    requires RangesOk(zones, big) && i < |zones| && p in big
    ensures !InZone(zones[i], p)
  {
  }

  // ------------------------------------------------------------------- safety

  /** The bytes that belong to an owned address: its chunk or its big mapping. */
  ghost predicate Extent(r: RootView, p: nat, n: nat) {
    if p in r.big then n == |r.big[p]|
    else exists i: nat :: i < |r.zones| && Holds(r.zones[i], p) && n == r.zones[i].chunkSize
  }

  /** In a good state no two owned chunks overlap, quarantined ones included. */
  lemma OwnedApart(r: RootView, p: nat, n: nat, q: nat, m: nat)
    requires RootOk(r) && Owned(r, p) && Owned(r, q) && p != q
    requires Extent(r, p, n) && Extent(r, q, m)
    ensures Apart(p, n, q, m)
  {
    hide ZoneOk, ChainsOk, OwnershipOk, TablesOk, Holds;
    if p in r.big && q in r.big {
    } else if p in r.big {
      var j: nat :| j < |r.zones| && Holds(r.zones[j], q) && m == r.zones[j].chunkSize;
      HoldsInside(r.zones[j], q);
      assert Apart(r.zones[j].base, ZONE_USER_SIZE, p, |r.big[p]|);
    } else if q in r.big {
      var i: nat :| i < |r.zones| && Holds(r.zones[i], p) && n == r.zones[i].chunkSize;
      HoldsInside(r.zones[i], p);
      assert Apart(r.zones[i].base, ZONE_USER_SIZE, q, |r.big[q]|);
    } else {
      var i: nat :| i < |r.zones| && Holds(r.zones[i], p) && n == r.zones[i].chunkSize;
      var j: nat :| j < |r.zones| && Holds(r.zones[j], q) && m == r.zones[j].chunkSize;
      if i == j {
        HoldsApart(r.zones[i], p, q);
      } else {
        HoldsInside(r.zones[i], p);
        HoldsInside(r.zones[j], q);
        assert i < j ==> Apart(r.zones[i].base, ZONE_USER_SIZE, r.zones[j].base, ZONE_USER_SIZE);
        assert j < i ==> Apart(r.zones[j].base, ZONE_USER_SIZE, r.zones[i].base, ZONE_USER_SIZE);
      }
    }
  }
}
