// Which zone serves a small request: what find_suitable_zone returns, as a function of the
// bitmaps, the chunk sizes and the size-class table.
module ZoneChoice {
  import opened Sequences
  import opened Bitmap
  import opened Geometry
  import opened ZoneState
  import opened RootState
  import opened RootSteps
  import opened SizeChains

  // -------------------------------------------------------------------- widening

  /** One round of the first loop of find_suitable_zone. */
  function Wider(size: nat): nat {
    size + AlignSzUp(size + 1)
  }

  /** The request after n widenings. */
  function Widened(size: nat, n: nat): nat {
    if n == 0 then size else Wider(Widened(size, n - 1))
  }

  function Power(n: nat): (p: nat)
    ensures p >= 1
  {
    if n == 0 then 1 else 2 * Power(n - 1)
  }

  /** 2^n * (size + 32) - 32. */
  function DoubledTo(size: nat, n: nat): nat {
    Power(n) * size + 32 * (Power(n) - 1)
  }

  /** Each widening doubles the size and adds 32. */
  lemma {:induction false} WidenedExactly(size: nat, n: nat)
    requires size % 32 == 0
    ensures Widened(size, n) == DoubledTo(size, n) && Widened(size, n) % 32 == 0
  {
    hide Wider, DoubledTo, Power;
    if n == 0 {
      NotDoubled(size);
    } else {
      WidenedExactly(size, n - 1);
      WiderExactly(Widened(size, n - 1));
      DoubledAgain(size, n - 1);
    }
  }

  lemma NotDoubled(size: nat)
    ensures DoubledTo(size, 0) == size
  {
  }

  lemma DoubledAgain(size: nat, n: nat)
    ensures DoubledTo(size, n + 1) == 2 * DoubledTo(size, n) + 32
  {
    TwiceTimes(Power(n), size);
  }

  lemma WiderExactly(size: nat)
    requires size % 32 == 0
    ensures Wider(size) == 2 * size + 32 && Wider(size) % 32 == 0
  {
  }

  lemma TwiceTimes(a: nat, b: nat)
    ensures 2 * a * b == 2 * (a * b)
  {
  }

  lemma WiderFits(size: nat)
    requires IsChunkSize(size) && size <= 1024
    ensures IsChunkSize(Wider(size)) && size < Wider(size) <= 2080
  {
  }

  lemma {:induction false} WidenedBounds(size: nat, n: nat)
    requires IsChunkSize(size) && forall j: nat :: j < n ==> Widened(size, j) <= 1024
    ensures IsChunkSize(Widened(size, n)) && size <= Widened(size, n) <= if size > 1024 then size else 2080
  {
    hide Wider, IsChunkSize;
    if n > 0 {
      assert Widened(size, 0) <= 1024;
      WidenedBounds(size, n - 1);
      WiderFits(Widened(size, n - 1));
    }
  }

  // -------------------------------------------------------------- the size class

  /** The entry of the size-class table for chunks of this size. */
  function ClassHead(table: seq<nat>, size: nat): nat {
    if size / 16 < |table| then table[size / 16] else 0
  }

  /** After n doublings the request exceeds 1024 bytes or its size has an entry, and not
      before. */
  ghost predicate SettlesOn(table: seq<nat>, orig: nat, n: nat) {
    && (forall j: nat :: j < n ==> DoubledTo(orig, j) <= 1024 && ClassHead(table, DoubledTo(orig, j)) == 0)
    && (DoubledTo(orig, n) > 1024 || ClassHead(table, DoubledTo(orig, n)) != 0)
  }

  lemma SettlesOnce(table: seq<nat>, orig: nat, m: nat, n: nat)
    requires SettlesOn(table, orig, m) && SettlesOn(table, orig, n)
    ensures m == n
  {
    hide DoubledTo;
  }

  /** The zones of a size class, the newest first. */
  ghost function ClassZones(r: RootView, size: nat): seq<nat> {
    if ClassHead(r.sizeTable, size) == 0 then [] else Chain(r.zones, ClassHead(r.sizeTable, size))
  }

  ghost predicate Serving(zones: seq<ZoneView>, i: nat, size: nat) {
    i < |zones| && CanServe(zones[i].states, zones[i].chunkSize, size)
  }

  /** The walk of a size class ends at its first zone that can serve the size, if any. */
  ghost predicate FirstServing(zones: seq<ZoneView>, chain: seq<nat>, size: nat, at: int) {
    if at < 0 then forall k: nat :: k < |chain| ==> !Serving(zones, chain[k], size)
    else exists k: nat :: k < |chain| && StopsAt(zones, chain, size, k) && chain[k] == at
  }

  ghost predicate StopsAt(zones: seq<ZoneView>, chain: seq<nat>, size: nat, k: nat)
    requires k < |chain|
  {
    Serving(zones, chain[k], size) && forall j: nat :: j < k ==> !Serving(zones, chain[j], size)
  }

  // --------------------------------------------------------------- all the zones

  /** An internal zone with large enough chunks that can serve the request. */
  ghost predicate Eligible(z: ZoneView, size: nat) {
    z.internal && z.chunkSize >= size && CanServe(z.states, z.chunkSize, size)
  }

  /** The first such zone of the zones array, or -1 if there is none. */
  ghost predicate FirstEligible(zones: seq<ZoneView>, size: nat, at: int) {
    && -1 <= at < |zones|
    && (at >= 0 ==> Eligible(zones[at], size))
    && forall j: nat :: j < (if at < 0 then |zones| else at) ==> !Eligible(zones[j], size)
  }

  /** What find_suitable_zone returns: the first zone of the size class that serves the
      widened request or, if none does, the first of all zones that serves the request. */
  ghost predicate Selects(r: RootView, orig: nat, at: int) {
    exists n: nat :: SettlesOn(r.sizeTable, orig, n) && SelectsAfter(r, orig, n, at)
  }

  ghost predicate SelectsAfter(r: RootView, orig: nat, n: nat, at: int) {
    var size := DoubledTo(orig, n);
    var chain := ClassZones(r, size);
    if FirstServing(r.zones, chain, size, -1) then FirstEligible(r.zones, orig, at)
    else at >= 0 && FirstServing(r.zones, chain, size, at)
  }

  /** That is one answer. */
  lemma SelectsOne(r: RootView, orig: nat, at: int, at': int)
    requires Selects(r, orig, at) && Selects(r, orig, at')
    ensures at == at'
  {
    hide DoubledTo, ClassZones, Serving, Eligible, SettlesOn;
    var n: nat :| SettlesOn(r.sizeTable, orig, n) && SelectsAfter(r, orig, n, at);
    var m: nat :| SettlesOn(r.sizeTable, orig, m) && SelectsAfter(r, orig, m, at');
    SettlesOnce(r.sizeTable, orig, n, m);
  }

  // --------------------------------------------- probing changes none of the answers

  /** The zones differ in their free-slot caches only. */
  ghost predicate SameBut(zones: seq<ZoneView>, zones': seq<ZoneView>) {
    |zones'| == |zones| && forall i: nat :: i < |zones| ==> zones'[i] == zones[i].(cache := zones'[i].cache)
  }

  /** The same, with further zones behind them. */
  ghost predicate SamePrefix(zones: seq<ZoneView>, zones': seq<ZoneView>) {
    |zones| <= |zones'| && forall i: nat :: i < |zones| ==> zones'[i] == zones[i].(cache := zones'[i].cache)
  }

  lemma AddedPrefix(zones: seq<ZoneView>, r: RootView, e: Event, r': RootView)
    requires SamePrefix(zones, r.zones) && Step(r, e, r') && e.AddZone?
    ensures SamePrefix(zones, r'.zones)
  {
    hide FreshZone, PagesFit, HomeFits;
  }

  /** The chunk at p of zone `at` goes from free to in use, and nothing else of the bitmaps
      and the user pages changes, except that a chunk used before now starts with a zero
      qword. */
  ghost predicate HandsOut(zones: seq<ZoneView>, zones': seq<ZoneView>, at: nat, p: nat) {
    && |zones| <= |zones'|
    && (forall i: nat :: i < |zones| && i != at ==> zones'[i] == zones[i].(cache := zones'[i].cache))
    && (at < |zones| ==> TakesChunk(zones[at], zones'[at], p))
  }

  lemma TakeHandsOut(zones: seq<ZoneView>, r: RootView, e: Event, r': RootView, p: nat)
    requires RootOk(r) && SamePrefix(zones, r.zones) && Step(r, e, r') && e.Take?
    requires e.i < |r.zones| && p == ChunkAddress(r.zones[e.i], e.c)
    ensures HandsOut(zones, r'.zones, e.i, p)
  {
    hide RangesOk, ChainsOk, TablesOk, OwnershipOk, ParkedOk, SlotsOk, CacheOk, CanariesIntact, CountOf, WriteAt;
    hide FirstCleared, MaxBitmapIdx;
    var z, c := r.zones[e.i], e.c;
    TakeKeepsOk(z, c);
    TakenParts(z, c);
  }

  lemma SearchSameBut(r: RootView, r': RootView)
    requires Step(r, Search(r'.zones), r')
    ensures SameBut(r.zones, r'.zones) && r' == r.(zones := r'.zones)
  {
  }

  lemma {:induction false} ChainSame(zones: seq<ZoneView>, zones': seq<ZoneView>, i: nat)
    requires SameBut(zones, zones')
    ensures Chain(zones', i) == Chain(zones, i)
    decreases i
  {
    if i < |zones| && zones[i].nextSz != 0 && zones[i].nextSz < i { ChainSame(zones, zones', zones[i].nextSz); }
  }

  lemma ServingSame(zones: seq<ZoneView>, zones': seq<ZoneView>, size: nat)
    requires SameBut(zones, zones')
    ensures forall i: nat :: Serving(zones', i, size) <==> Serving(zones, i, size)
    ensures forall at: int :: FirstEligible(zones', size, at) <==> FirstEligible(zones, size, at)
  {
    hide CanServe;
    assert forall i: nat :: i < |zones| ==> (Eligible(zones'[i], size) <==> Eligible(zones[i], size));
    hide Eligible;
  }

  lemma SelectsSame(r: RootView, r': RootView, orig: nat, at: int)
    requires Step(r, Search(r'.zones), r') && Selects(r', orig, at)
    ensures Selects(r, orig, at)
  {
    SearchSameBut(r, r');
    hide DoubledTo, Serving, FirstEligible, SettlesOn, Step;
    var n: nat :| SettlesOn(r'.sizeTable, orig, n) && SelectsAfter(r', orig, n, at);
    var size := DoubledTo(orig, n);
    ChainSame(r.zones, r'.zones, ClassHead(r.sizeTable, size));
    ServingSame(r.zones, r'.zones, size);
    ServingSame(r.zones, r'.zones, orig);
    FirstServingSame(r.zones, r'.zones, ClassZones(r, size), size, at);
    FirstServingSame(r.zones, r'.zones, ClassZones(r, size), size, -1);
    assert SelectsAfter(r, orig, n, at);
  }

  lemma FirstServingSame(zones: seq<ZoneView>, zones': seq<ZoneView>, chain: seq<nat>, size: nat, at: int)
    requires forall i: nat :: Serving(zones', i, size) <==> Serving(zones, i, size)
    ensures FirstServing(zones', chain, size, at) <==> FirstServing(zones, chain, size, at)
  {
    hide Serving;
    assert forall k: nat :: k < |chain| ==> (StopsAt(zones', chain, size, k) <==> StopsAt(zones, chain, size, k));
    hide StopsAt;
  }
}
