// What the two lists of big zones say of the address space: which mappings are in use,
// which are kept for reuse, and how large they are.
module BigLedger {
  import opened Sequences
  import opened Geometry
  import opened RootState
  import opened BigProtocol
  import opened BigZones
  import opened AddressSpaces

  function Sizes(big: map<nat, seq<Byte>>): (sizes: map<nat, nat>)
    ensures sizes.Keys == big.Keys && forall p :: p in big ==> sizes[p] == |big[p]|
  {
    map p | p in big :: |big[p]|
  }

  /** The records of a list are those of these mappings, one each. */
  ghost predicate Records(recs: seq<Rec>, sizes: map<nat, nat>, free: bool) {
    && (forall k: nat :: k < |recs| ==> RecordOf(recs[k], sizes, free))
    && (forall p :: p in sizes ==> exists k: nat :: k < |recs| && recs[k].start == p)
    && (forall j: nat, k: nat :: j < k < |recs| ==> recs[j].start != recs[k].start)
  }

  ghost predicate RecordOf(rec: Rec, sizes: map<nat, nat>, free: bool) {
    rec.start in sizes && rec.size == sizes[rec.start] && rec.free == free && rec.start > 0 && BigSize(rec.size)
  }

  lemma RecordsPush(recs: seq<Rec>, sizes: map<nat, nat>, rec: Rec)
    requires Records(recs, sizes, rec.free) && rec.start !in sizes && rec.start > 0 && BigSize(rec.size)
    ensures Records([rec] + recs, sizes[rec.start := rec.size], rec.free)
  {
    var now, sizes' := [rec] + recs, sizes[rec.start := rec.size];
    forall p | p in sizes' ensures exists k: nat :: k < |now| && now[k].start == p {
      if p == rec.start {
        assert now[0].start == p;
      } else {
        var k: nat :| k < |recs| && recs[k].start == p;
        assert now[k + 1].start == p;
      }
    }
  }

  lemma StillRecords(recs: seq<Rec>, sizes: map<nat, nat>, free: bool, k: nat)
    requires Records(recs, sizes, free) && k < |recs|
    ensures forall j: nat :: j < |recs| && j != k ==> RecordOf(recs[j], sizes - {recs[k].start}, free)
  {
  }

  lemma RecordsDrop(recs: seq<Rec>, sizes: map<nat, nat>, free: bool, k: nat)
    requires Records(recs, sizes, free) && k < |recs|
    ensures Records(Without(recs, k), sizes - {recs[k].start}, free)
  {
    hide RecordOf;
    var now := Without(recs, k);
    assert forall j: nat :: j < |now| ==> now[j] == recs[if j < k then j else j + 1];
    StillRecords(recs, sizes, free, k);
    forall p | p in sizes && p != recs[k].start ensures exists j: nat :: j < |now| && now[j].start == p {
      var j: nat :| j < |recs| && recs[j].start == p;
      assert now[if j < k then j else j - 1].start == p;
    }
  }

  /** The record of a mapping in use. */
  lemma RecordAt(recs: seq<Rec>, sizes: map<nat, nat>, free: bool, p: nat) returns (k: nat)
    requires Records(recs, sizes, free) && p in sizes
    ensures k < |recs| && recs[k].start == p && recs[k].size == sizes[p]
  {
    k :| k < |recs| && recs[k].start == p;
  }

  // -------------------------------------------------------- the lists and the ledger

  /** Mappings of these sizes do not overlap, and none is empty. */
  ghost predicate Spread(sizes: map<nat, nat>) {
    && (forall p :: p in sizes ==> sizes[p] > 0)
    && (forall p, q :: p in sizes && q in sizes && p != q ==> Apart(p, sizes[p], q, sizes[q]))
  }

  /** Both lists are in order and undamaged; one holds the mappings in use, the other those
      kept for reuse. */
  ghost predicate Kept(lists: BigLists, used: map<nat, nat>, spare: map<nat, nat>, records: set<BigZone>)
    reads lists, records
  {
    && (forall z :: z in lists.free ==> z in records && z.CanaryOk(lists.secret))
    && (forall z :: z in lists.used ==> z in records && z.CanaryOk(lists.secret))
    && lists.Shape() && lists.freeCount == |lists.free| && lists.usedCount == |lists.used|
    && Records(Recs(lists.free), spare, true) && Records(Recs(lists.used), used, false)
  }

  lemma NothingKept(lists: BigLists)
    requires lists.Shape() && lists.free == lists.used == [] && lists.freeCount == lists.usedCount == 0
    ensures Kept(lists, Sizes(map[]), map[], {})
  {
  }

  /** The mapping in use at p has served fewer than 16 allocations. */
  ghost predicate Young(lists: BigLists, p: nat)
    reads lists, lists.used
  {
    forall z :: z in lists.used && z.start == p ==> z.ttl < 16
  }

  lemma WithoutIn(zs: seq<BigZone>, k: nat)
    requires k < |zs|
    ensures |Without(zs, k)| == |zs| - 1 && forall z :: z in Without(zs, k) ==> z in zs
  {
  }

  /** Where the record of a mapping in use is. */
  lemma UsedRecord(lists: BigLists, used: map<nat, nat>, spare: map<nat, nat>, records: set<BigZone>, p: nat)
    returns (k: nat)
    requires Kept(lists, used, spare, records) && Spread(used) && p in used
    ensures k < |lists.used| && k == StopAt(lists.used, 0, p, lists.secret) && lists.Named(k, p)
    ensures lists.used[k].start == p && lists.used[k].size == used[p] && !lists.used[k].free
    ensures p > 0 && BigSize(used[p])
  {
    hide BigLists.Shape, BigZone.CanaryOk, StopAt;
    k := RecordAt(Recs(lists.used), used, false, p);
    forall j: nat | j < |lists.used|
      ensures lists.used[j].CanaryOk(lists.secret) && RecordOf(lists.used[j].Seen(), used, false)
    {
      assert lists.used[j] in lists.used && Recs(lists.used)[j] == lists.used[j].Seen();
    }
    FindsOwned(lists.used, p, lists.secret);
  }

  lemma NotUsed(lists: BigLists, used: map<nat, nat>, spare: map<nat, nat>, records: set<BigZone>, p: nat)
    requires Kept(lists, used, spare, records) && p !in used
    ensures var k := StopAt(lists.used, 0, p, lists.secret); k < |lists.used| ==> !lists.Named(k, p)
  {
    hide BigLists.Shape, BigZone.CanaryOk;
    var k := StopAt(lists.used, 0, p, lists.secret);
    if k < |lists.used| { assert RecordOf(Recs(lists.used)[k], used, false); }
  }

  /** iso_find_big_zone without removal: the size of the mapping in use that starts at p. It
      aborts for any other address. */
  method SizeOf(lists: BigLists, p: nat, ghost used: map<nat, nat>, ghost spare: map<nat, nat>,
                ghost records: set<BigZone>)
    returns (n: nat, aborted: bool)
    requires Kept(lists, used, spare, records) && Spread(used)
    ensures aborted <==> p !in used
    ensures !aborted ==> n == used[p]
  {
    hide BigZone.CanaryOk, StopAt, Spread, Kept, BigLists.Named;
    if p in used {
      ghost var k := UsedRecord(lists, used, spare, records, p);
    } else {
      NotUsed(lists, used, spare, records, p);
    }
    var prev, record;
    KeptShape(lists, used, spare, records);
    prev, record, aborted := lists.FindUsed(p);
    if aborted || record == null { return 0, true; }
    n := record.size;
  }

  lemma KeptShape(lists: BigLists, used: map<nat, nat>, spare: map<nat, nat>, records: set<BigZone>)
    requires Kept(lists, used, spare, records)
    ensures lists.Shape() && forall z :: z in lists.free || z in lists.used ==> z in records
  {
    hide BigLists.Shape;
  }

  /** iso_find_big_zone and iso_free_big_zone on the start of a mapping in use: its record is
      found, and leaves the used list for the free list or for good. */
  method Drop(lists: BigLists, p: nat, permanent: bool,
              ghost used: map<nat, nat>, ghost spare: map<nat, nat>, ghost records: set<BigZone>)
    returns (place: Place, aborted: bool)
    requires Kept(lists, used, spare, records) && Spread(used) && p in used && p !in spare
    modifies lists, records
    ensures !aborted && (permanent ==> place == Sealed)
    ensures Kept(lists, used - {p}, if place == OnFree then spare[p := used[p]] else spare, records)
    ensures place == OnFree <==> !permanent && |old(lists.free)| < 64 && old(Young(lists, p))
    ensures |lists.free| == |old(lists.free)| + if place == OnFree then 1 else 0
    ensures forall z :: z in lists.used ==> z in old(lists.used) && z.start == old(z.start) && z.ttl == old(z.ttl)
  {
    hide BigLists.Shape, BigZone.CanaryOk, StopAt, Without, Records, Recs, Spread, BigLists.Named;
    ghost var k := UsedRecord(lists, used, spare, records, p);
    ghost var usedRecs, freeRecs, free := Recs(lists.used), Recs(lists.free), lists.free;
    assert [] + freeRecs == freeRecs && [] + free == free;
    RecordsDrop(usedRecs, used, false, k);
    RecordsPush(freeRecs, spare, usedRecs[k].(free := true));
    WithoutIn(lists.used, k);
    OnlyRecord(lists, used, spare, records, k);
    var record;
    record, place, k, aborted := lists.BigFree(p, permanent);
  }

  lemma OnlyRecord(lists: BigLists, used: map<nat, nat>, spare: map<nat, nat>, records: set<BigZone>, k: nat)
    requires Kept(lists, used, spare, records) && k < |lists.used|
    ensures Young(lists, lists.used[k].start) <==> lists.used[k].ttl < 16
  {
    hide BigLists.Shape, BigZone.CanaryOk, RecordOf;
    forall z | z in lists.used && z.start == lists.used[k].start ensures z == lists.used[k] {
      var j: nat :| j < |lists.used| && lists.used[j] == z;
      assert Recs(lists.used)[j].start == Recs(lists.used)[k].start;
    }
    assert lists.used[k] in lists.used;
  }

  lemma KeptSound(lists: BigLists, used: map<nat, nat>, spare: map<nat, nat>, records: set<BigZone>, size: nat)
    requires Kept(lists, used, spare, records)
    ensures !lists.SearchAborts(size)
  {
    hide BigLists.Shape, BigZone.CanaryOk, FirstFit;
    forall j: nat | j < |lists.free| ensures lists.Sound(lists.free[j]) {
      assert lists.free[j] in lists.free;
      assert RecordOf(Recs(lists.free)[j], spare, true);
    }
  }

  /** _iso_big_alloc for a request it serves: on pages kept for reuse, or on new ones. */
  method Serve(lists: BigLists, os: AddressSpace, size: nat,
               ghost used: map<nat, nat>, ghost spare: map<nat, nat>, ghost records: set<BigZone>)
    returns (p: nat, n: nat, ghost reused: bool, ghost record: BigZone, aborted: bool)
    requires Kept(lists, used, spare, records) && os.Valid() && !Refused(size)
    requires forall q :: q in spare ==> q !in used
    requires forall q :: q in used ==> used[q] > 0 && Mapping(q, used[q]) in os.mapped
    modifies lists, records, os
    ensures !aborted && os.Valid() && RoundUpPage(size) <= n && p !in used
    ensures record in records || fresh(record)
    ensures reused ==> p in spare && n == spare[p] && os.mapped == old(os.mapped) && record in records
    ensures reused ==> n <= RoundUpPage(size) + 16384
    ensures reused <==> exists q :: q in spare && RoundUpPage(size) <= spare[q] <= RoundUpPage(size) + 16384
    ensures !reused ==> n == RoundUpPage(size) && p > 0 && p % PAGE_SIZE == 0 && Unmapped(p, n, old(os.mapped))
    ensures !reused ==> Mapping(p, n) in os.mapped && old(os.mapped) <= os.mapped
    ensures Kept(lists, used[p := n], if reused then spare - {p} else spare, records + {record})
  {
    hide BigLists.Shape, BigZone.CanaryOk, Without, Records, Recs, MetaPage, FirstFit;
    ghost var usedRecs, freeRecs, free := Recs(lists.used), Recs(lists.free), lists.free;
    KeptSound(lists, used, spare, records, RoundUpPage(size));
    FitsSome(freeRecs, spare, RoundUpPage(size));
    var made;
    ghost var k;
    p, made, k, aborted := lists.BigAlloc(os, size);
    n, reused, record := made.size, k >= 0, made;
    if k >= 0 {
      ReusedRecord(freeRecs, spare, k);
      RecordsDrop(freeRecs, spare, true, k);
      WithoutIn(free, k);
    }
    RecordsPush(usedRecs, used, made.Seen());
  }

  lemma FitsSome(recs: seq<Rec>, spare: map<nat, nat>, m: nat)
    requires Records(recs, spare, true)
    ensures FirstFit(recs, m) >= 0 <==> exists q :: q in spare && m <= spare[q] <= m + 16384
  {
    hide FirstFit;
    var k := FirstFit(recs, m);
    if k >= 0 {
      assert RecordOf(recs[k], spare, true);
      assert recs[k].start in spare && m <= spare[recs[k].start] <= m + 16384;
    }
    if q :| q in spare && m <= spare[q] <= m + 16384 {
      var j := RecordAt(recs, spare, true, q);
    }
  }

  lemma ReusedRecord(recs: seq<Rec>, spare: map<nat, nat>, k: nat)
    requires Records(recs, spare, true) && k < |recs|
    ensures recs[k].start in spare && recs[k].size == spare[recs[k].start] && recs[k].start > 0 && BigSize(recs[k].size)
  {
    assert RecordOf(recs[k], spare, true);
  }

  // ---------------------------------------------------------- freeing and reusing

  ghost predicate AllYoung(lists: BigLists, ps: seq<nat>)
    reads lists, lists.used
  {
    forall z :: z in lists.used && z.start in ps ==> z.ttl < 16
  }

  ghost function Only(sizes: map<nat, nat>, ps: seq<nat>): map<nat, nat> {
    map p | p in ps && p in sizes :: sizes[p]
  }

  ghost function Others(sizes: map<nat, nat>, ps: seq<nat>): map<nat, nat> {
    map p | p in sizes && p !in ps :: sizes[p]
  }

  /** Up to 64 young mappings, freed one after the other for reuse while none is kept, are
      all kept, and nothing else is. */
  method DropAll(lists: BigLists, ps: seq<nat>, ghost used: map<nat, nat>, ghost records: set<BigZone>)
    returns (aborted: bool)
    requires Kept(lists, used, map[], records) && Spread(used) && |lists.free| == 0
    requires Distinct(ps) && |ps| <= 64 && AllYoung(lists, ps) && forall k: nat :: k < |ps| ==> ps[k] in used
    modifies lists, records
    ensures !aborted && Kept(lists, Others(used, ps), Only(used, ps), records) && |lists.free| == |ps|
  {
    hide Kept, Spread;
    aborted := false;
    NoneDropped(used);
    for i: nat := 0 to |ps|
      invariant !aborted && Kept(lists, Others(used, ps[..i]), Only(used, ps[..i]), records) && |lists.free| == i
      invariant AllYoung(lists, ps)
    {
      SpreadRest(used, ps[..i]);
      OneMore(used, ps, i);
      assert ps[i] in ps;
      var place;
      place, aborted := Drop(lists, ps[i], false, Others(used, ps[..i]), Only(used, ps[..i]), records);
    }
    assert ps[..|ps|] == ps;
  }

  lemma NoneDropped(sizes: map<nat, nat>)
    ensures Others(sizes, []) == sizes && Only(sizes, []) == map[]
  {
  }

  lemma SpreadRest(sizes: map<nat, nat>, ps: seq<nat>)
    requires Spread(sizes)
    ensures Spread(Others(sizes, ps))
  {
  }

  lemma OneMore(sizes: map<nat, nat>, ps: seq<nat>, i: nat)
    requires Distinct(ps) && i < |ps| && ps[i] in sizes
    ensures ps[i] !in ps[..i] && ps[i] in Others(sizes, ps[..i]) && ps[i] !in Only(sizes, ps[..i])
    ensures Others(sizes, ps[..i + 1]) == Others(sizes, ps[..i]) - {ps[i]}
    ensures Only(sizes, ps[..i + 1]) == Only(sizes, ps[..i])[ps[i] := sizes[ps[i]]]
  {
    assert ps[..i + 1] == ps[..i] + [ps[i]];
  }

  /** As long as mappings of its size are kept, a request gets one of them and no new pages:
      n requests take n of the kept ones. */
  method ServeKept(lists: BigLists, os: AddressSpace, size: nat, n: nat,
                   ghost used: map<nat, nat>, ghost spare: map<nat, nat>, ghost records: set<BigZone>)
    returns (qs: seq<nat>, aborted: bool, ghost used': map<nat, nat>, ghost spare': map<nat, nat>)
    requires Kept(lists, used, spare, records) && os.Valid() && !Refused(size) && n <= |spare|
    requires forall q :: q in spare ==> q !in used && spare[q] == RoundUpPage(size)
    requires forall q :: q in spare ==> Mapping(q, spare[q]) in os.mapped
    requires forall q :: q in used ==> used[q] > 0 && Mapping(q, used[q]) in os.mapped
    modifies lists, records, os
    ensures !aborted && |qs| == n && Distinct(qs) && os.mapped == old(os.mapped)
    ensures forall k: nat :: k < n ==> qs[k] in spare
    ensures Kept(lists, used', spare', records) && spare' == Others(spare, qs) && used' == used + Only(spare, qs)
  {
    hide Kept;
    qs, aborted, used', spare' := [], false, used, spare;
    NoneDropped(spare);
    assert used + map[] == used;
    for i: nat := 0 to n
      invariant !aborted && |qs| == i && Distinct(qs) && os.Valid() && os.mapped == old(os.mapped)
      invariant forall k: nat :: k < i ==> qs[k] in spare
      invariant Kept(lists, used', spare', records) && spare' == Others(spare, qs) && used' == used + Only(spare, qs)
    {
      SomeLeft(spare, qs);
      var q, m;
      ghost var reused, record;
      q, m, reused, record, aborted := Serve(lists, os, size, used', spare', records);
      assert records + {record} == records;
      OneTaken(used, spare, qs, q);
      used', spare' := used'[q := m], spare' - {q};
      qs := qs + [q];
    }
  }

  lemma {:induction false} SomeLeft(spare: map<nat, nat>, qs: seq<nat>)
    requires |qs| < |spare|
    ensures exists q :: q in Others(spare, qs)
  {
    if q :| q in spare && q !in qs {
      assert q in Others(spare, qs);
    } else {
      ElementCount(qs);
      SubsetCount(spare.Keys, Elements(qs));
    }
  }

  ghost function Elements(qs: seq<nat>): set<nat> {
    set q | q in qs
  }

  lemma {:induction false} ElementCount(qs: seq<nat>)
    ensures |Elements(qs)| <= |qs|
  {
    if qs != [] {
      var front := Elements(Front(qs));
      ElementCount(Front(qs));
      assert qs == Front(qs) + [Last(qs)];
      assert Elements(qs) == front + {Last(qs)};
      assert Last(qs) in front ==> front + {Last(qs)} == front;
    }
  }

  lemma {:induction false} SubsetCount(a: set<nat>, b: set<nat>)
    requires a <= b
    ensures |a| <= |b|
  {
    if a != {} {
      var x :| x in a;
      SubsetCount(a - {x}, b - {x});
    }
  }

  lemma OneTaken(used: map<nat, nat>, spare: map<nat, nat>, qs: seq<nat>, q: nat)
    requires q in Others(spare, qs)
    ensures q !in qs && Others(spare, qs + [q]) == Others(spare, qs) - {q}
    ensures used + Only(spare, qs + [q]) == (used + Only(spare, qs))[q := spare[q]]
  {
  }
}
