// The size-class lists as the walk of find_suitable_zone sees them, in every run.
module SizeChains {
  import opened ZoneState
  import opened RootState
  import opened RootSteps

  /** The zones visited from zone i on by following next_sz_index. */
  ghost function Chain(zones: seq<ZoneView>, i: nat): seq<nat>
    decreases i
  {
    if i < |zones| && zones[i].nextSz != 0 && zones[i].nextSz < i
    then [i] + Chain(zones, zones[i].nextSz)
    else [i]
  }

  ghost predicate Descends(s: seq<nat>) {
    forall j: nat, k: nat :: j < k < |s| ==> s[k] < s[j]
  }

  /** The walk from zone i ends, after at most i + 1 zones, at one whose next_sz_index
      is 0; indices strictly fall; and every zone on it is internal and of one size. */
  lemma {:induction false} ChainVisits(zones: seq<ZoneView>, table: seq<nat>, i: nat)
    requires ChainsOk(zones, table) && i < |zones| && zones[i].internal
    ensures |Chain(zones, i)| <= i + 1 && Chain(zones, i)[0] == i && Descends(Chain(zones, i))
    ensures forall j :: j in Chain(zones, i) ==>
      j <= i && zones[j].internal && zones[j].index == j && zones[j].chunkSize == zones[i].chunkSize
    ensures var last := Chain(zones, i)[|Chain(zones, i)| - 1]; last < |zones| && zones[last].nextSz == 0
    decreases i
  {
    if zones[i].nextSz != 0 {
      var next := zones[i].nextSz;
      LinkOk(zones, table, i);
      hide ChainsOk;
      ChainVisits(zones, table, next);
      var rest := Chain(zones, next);
      assert Chain(zones, i) == [i] + rest;
      forall k: nat | k < |rest| ensures rest[k] < i { assert rest[k] in rest; }
    }
  }

  lemma LinkOk(zones: seq<ZoneView>, table: seq<nat>, i: nat)
    requires ChainsOk(zones, table) && i < |zones|
    ensures zones[i].index == i
    ensures zones[i].nextSz != 0 ==>
      zones[i].nextSz < i && zones[zones[i].nextSz].internal && zones[zones[i].nextSz].chunkSize == zones[i].chunkSize
  {
  }

  /** In every run, the walk from a non-zero entry of the size-class table visits only
      internal zones of exactly that entry's chunk size, so neither of its two mismatch
      aborts can fire. */
  lemma RunChains(es: seq<Event>, r: RootView, k: nat)
    requires Reach(EmptyRoot(), es, r) && k < |r.sizeTable| && r.sizeTable[k] != 0
    ensures Descends(Chain(r.zones, r.sizeTable[k])) && |Chain(r.zones, r.sizeTable[k])| <= |r.zones|
    ensures forall j :: j in Chain(r.zones, r.sizeTable[k]) ==>
      j < |r.zones| && r.zones[j].internal && r.zones[j].index == j && r.zones[j].chunkSize == 16 * k
  {
    hide Reach, ZonesOk, RangesOk, TablesOk, OwnershipOk, EmptyRoot;
    EmptyRootOk();
    RunKeepsOk(EmptyRoot(), es, r);
    ChainVisits(r.zones, r.sizeTable, r.sizeTable[k]);
  }

  /** The link checks at the start of _verify_zone hold of every zone in every run. */
  lemma RunLinks(es: seq<Event>, r: RootView, i: nat)
    requires Reach(EmptyRoot(), es, r) && i < |r.zones|
    ensures r.zones[i].nextSz < |r.zones|
    ensures r.zones[i].nextSz != 0 ==> r.zones[r.zones[i].nextSz].chunkSize == r.zones[i].chunkSize
  {
    hide Reach, ZonesOk, RangesOk, TablesOk, OwnershipOk, EmptyRoot;
    EmptyRootOk();
    RunKeepsOk(EmptyRoot(), es, r);
  }
}
