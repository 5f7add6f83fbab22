// What lasts while a zone exists: a permanently freed chunk is never handed out again,
// and alloc_count counts the chunks that were.
module Permanence {
  import opened Sequences
  import opened Bitmap
  import opened Geometry
  import opened ZoneState
  import opened RootState
  import opened RootSteps
  import opened Roots

  /** Chunk c of zone i is marked 11: a canary chunk, or freed permanently. */
  ghost predicate Set11(r: RootView, i: nat, c: nat) {
    i < |r.zones| && c < |r.zones[i].states| && r.zones[i].states[c] == Canary
  }

  /** The event puts another zone in place of zone i. */
  predicate ReplacesZone(e: Event, i: nat) {
    (e.Replace? || e.Destroy?) && e.i == i
  }

  lemma StepKeeps11(r: RootView, e: Event, r': RootView, i: nat, c: nat)
    requires RootOk(r) && Step(r, e, r') && Set11(r, i, c) && !ReplacesZone(e, i)
    ensures Set11(r', i, c) && r'.zones[i].base == r.zones[i].base && r'.zones[i].chunkSize == r.zones[i].chunkSize
  {
    hide RootOk, PagesFit, Replaces, FreedMemory, Insert, WriteAt, FreshZone, ZoneOk, SameOutside;
    match e
    case Take(j, d, _) => TakenWasFree(r, j, d);
    case _ =>
  }

  /** The primed slot is never that of a chunk marked 11. */
  lemma TakenWasFree(r: RootView, i: nat, c: nat)
    requires RootOk(r) && i < |r.zones| && c < |r.zones[i].states| && r.zones[i].cache.primed == 2 * c
    ensures r.zones[i].states[c] != Canary
  {
    hide RangesOk, ChainsOk, TablesOk, OwnershipOk, CanariesIntact, CountOf;
    assert ZoneOk(r.zones[i]);
  }

  /** In every run that does not replace the zone, a chunk marked 11 stays so, and its
      address is held by no client and not quarantined. */
  lemma {:induction false} RunKeeps11(r: RootView, es: seq<Event>, r': RootView, i: nat, c: nat)
    requires RootOk(r) && Reach(r, es, r') && Set11(r, i, c)
    requires forall e :: e in es ==> !ReplacesZone(e, i)
    ensures Set11(r', i, c) && r'.zones[i].base == r.zones[i].base && r'.zones[i].chunkSize == r.zones[i].chunkSize
    ensures !Owned(r', ChunkAddress(r.zones[i], c))
    decreases |es|
  {
    hide RootOk, Step, Owned;
    if es != [] {
      var mid :| Reach(r, Front(es), mid) && Step(mid, Last(es), r');
      forall e | e in Front(es) ensures !ReplacesZone(e, i) {}
      RunKeeps11(r, Front(es), mid, i, c);
      RunKeepsOk(r, Front(es), mid);
      assert Last(es) in es;
      StepKeeps11(mid, Last(es), r', i, c);
    }
    RunKeepsOk(r, es, r');
    Unowned11(r', i, c);
  }

  lemma Unowned11(r: RootView, i: nat, c: nat)
    requires RootOk(r) && Set11(r, i, c)
    ensures !Owned(r, ChunkAddress(r.zones[i], c))
  {
    hide RangesOk, ChainsOk, TablesOk, OwnershipOk, Owned, Holds, CacheOk, CanariesIntact, CountOf;
    HoldsChunk(r.zones[i], c);
    AddressInZone(r.zones[i], c);
    FreeIsUnowned(r, i, ChunkAddress(r.zones[i], c));
  }

  /** How many chunks of zone i the events hand out. */
  function TakesIn(es: seq<Event>, i: nat): nat
    decreases |es|
  {
    if es == [] then 0 else TakesIn(Front(es), i) + if Last(es).Take? && Last(es).i == i then 1 else 0
  }

  lemma StepCountsTakes(r: RootView, e: Event, r': RootView, i: nat)
    requires Step(r, e, r') && i < |r.zones| && !ReplacesZone(e, i)
    ensures i < |r'.zones|
    ensures r'.zones[i].allocCount ==
      if e.Take? && e.i == i then (r.zones[i].allocCount + 1) % 0x1_0000_0000 else r.zones[i].allocCount
  {
    hide PagesFit, Replaces, FreedMemory, Insert, WriteAt, FreshZone, ZoneOk, SameOutside;
  }

  /** Between replacements alloc_count is the number of allocations from the zone. */
  lemma {:induction false} RunCountsTakes(r: RootView, es: seq<Event>, r': RootView, i: nat)
    requires Reach(r, es, r') && i < |r.zones| && r.zones[i].allocCount < 0x1_0000_0000
    requires forall e :: e in es ==> !ReplacesZone(e, i)
    ensures i < |r'.zones| && r'.zones[i].allocCount == (r.zones[i].allocCount + TakesIn(es, i)) % 0x1_0000_0000
    decreases |es|
  {
    hide Step;
    if es != [] {
      var mid :| Reach(r, Front(es), mid) && Step(mid, Last(es), r');
      forall e | e in Front(es) ensures !ReplacesZone(e, i) {}
      RunCountsTakes(r, Front(es), mid, i);
      assert Last(es) in es;
      StepCountsTakes(mid, Last(es), r', i);
    }
  }

  /** A zone that was new and has not been replaced since is due for retirement exactly if
      it is internal, has chunks below 16384 bytes and nothing in use, and the run has taken
      more than 32 chunks from it for each one it has. */
  lemma RetiresExactly(r: RootView, es: seq<Event>, r': RootView, i: nat)
    requires RootOk(r') && Reach(r, es, r') && i < |r.zones| && FreshZone(r.zones[i]) && TakesIn(es, i) < 0x1_0000_0000
    requires forall e :: e in es ==> !ReplacesZone(e, i)
    ensures i < |r'.zones| && IsChunkSize(r'.zones[i].chunkSize)
    ensures Retires(r', i) <==>
      && r'.zones[i].internal && r'.zones[i].chunkSize < 16384 && r'.zones[i].afCount == 0
      && TakesIn(es, i) > 32 * (4194304 / r'.zones[i].chunkSize)
  {
    hide Reach, RootOk;
    RunCountsTakes(r, es, r', i);
    RootZoneShape(r', i);
  }

  /** A chunk that a client frees permanently is nobody's again while its zone exists. */
  lemma FreedForGood(r: RootView, p: nat, i: nat, c: nat, mid: RootView, es: seq<Event>, r': RootView)
    requires RootOk(r) && Step(r, Release(p, i, c, true), mid) && Reach(mid, es, r')
    requires forall e :: e in es ==> !ReplacesZone(e, i)
    ensures !Owned(r', p) && Set11(r', i, c)
  {
    hide RootOk, Reach, Owned;
    StepKeepsOk(r, Release(p, i, c, true), mid);
    ReleasedSet11(r, p, i, c, mid);
    RunKeeps11(mid, es, r', i, c);
  }

  lemma ReleasedSet11(r: RootView, p: nat, i: nat, c: nat, mid: RootView)
    requires Step(r, Release(p, i, c, true), mid)
    ensures Set11(mid, i, c) && ChunkAddress(mid.zones[i], c) == p
  {
    hide FreedMemory;
  }
}
