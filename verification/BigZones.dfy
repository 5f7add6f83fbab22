// The two linked lists of big zones: the critical sections of _iso_big_alloc,
// iso_find_big_zone and iso_free_big_zone, and the check of a whole list.
module BigZones {
  import opened Sequences
  import opened Words
  import opened Geometry
  import opened BigProtocol
  import opened RootState
  import opened AddressSpaces

  // ------------------------------------------------------------------ canaries

  /** __builtin_bswap64 */
  function SwapBytes(x: bv64): bv64 {
    (x << 56) | ((x & 0xff00) << 40) | ((x & 0xff_0000) << 24) | ((x & 0xff00_0000) << 8) |
    ((x >> 8) & 0xff00_0000) | ((x >> 24) & 0xff_0000) | ((x >> 40) & 0xff00) | (x >> 56)
  }

  lemma SwapTwice(x: bv64)
    ensures SwapBytes(SwapBytes(x)) == x
  {
  }

  /** The canary of the record at address addr whose user pages start at start. */
  function BigCanary(addr: bv64, start: bv64, secret: bv64): bv64 {
    Xor(Xor(addr, SwapBytes(start)), secret)
  }

  /** Two records have the same canary exactly if their addresses differ in the bits in
      which their starts differ, in reversed byte order. So a record is bound to its address
      and to its user pages: changing one of the two changes the canary. */
  lemma CanaryBinds(addr: bv64, start: bv64, addr': bv64, start': bv64, secret: bv64)
    ensures BigCanary(addr, start, secret) == BigCanary(addr', start', secret) <==>
      Xor(addr, addr') == SwapBytes(Xor(start, start'))
    ensures addr == addr' || start == start' ==>
      (BigCanary(addr, start, secret) == BigCanary(addr', start', secret) <==> addr == addr' && start == start')
  {
    hide SwapBytes, Xor;
    SwapTwice(start);
    SwapTwice(start');
    XorCancels(Xor(addr, SwapBytes(start)), Xor(addr', SwapBytes(start')), secret);
    XorCancels(addr, addr', SwapBytes(start));
    XorCancels(SwapBytes(start), SwapBytes(start'), addr);
    XorMoves(addr, SwapBytes(start), addr', SwapBytes(start'));
    SwapOfXor(start, start');
  }

  lemma XorMoves(a: bv64, b: bv64, c: bv64, d: bv64)
    ensures Xor(a, b) == Xor(c, d) <==> Xor(a, c) == Xor(b, d)
  {
    hide Xor;
    XorCancels(Xor(a, b), Xor(c, d), Xor(b, c));
    XorDrops(a, b, c);
    XorDrops(d, c, b);
    XorSwaps(c, d);
    XorSwaps(b, c);
    XorSwaps(b, d);
  }

  lemma XorDrops(a: bv64, b: bv64, c: bv64)
    ensures Xor(Xor(a, b), Xor(b, c)) == Xor(a, c)
  {
  }

  lemma XorSwaps(a: bv64, b: bv64)
    ensures Xor(a, b) == Xor(b, a)
  {
  }

  lemma SwapOfXor(x: bv64, y: bv64)
    ensures SwapBytes(Xor(x, y)) == Xor(SwapBytes(x), SwapBytes(y))
  {
  }

  /** Both canaries of a record have the value expected of it. */
  predicate BothFit(a: bv64, b: bv64, expected: bv64) {
    a == expected && b == expected
  }

  /** In a record that passes, any change to one of its canaries is noticed, and so is any
      change of its start. */
  lemma DamagedRecord(a: bv64, b: bv64, addr: bv64, start: bv64, secret: bv64, a': bv64, b': bv64, start': bv64)
    requires BothFit(a, b, BigCanary(addr, start, secret))
    ensures BothFit(a', b', BigCanary(addr, start, secret)) <==> a' == a && b' == b
    ensures BothFit(a, b, BigCanary(addr, start', secret)) <==> start' == start
  {
    hide BigCanary;
    CanaryBinds(addr, start, addr, start', secret);
  }

  /** And it depends on every bit of the secret. */
  lemma CanarySecret(addr: bv64, start: bv64, secret: bv64, secret': bv64)
    ensures BigCanary(addr, start, secret) == BigCanary(addr, start, secret') <==> secret == secret'
  {
    hide SwapBytes, Xor;
    XorCancels(secret, secret', Xor(addr, SwapBytes(start)));
  }

  // ------------------------------------------------------------------- records

  /** iso_alloc_big_zone_t at address addr. */
  class BigZone {
    const addr: nat
    var canaryA: bv64
    var free: bool
    var size: nat
    var ttl: nat
    var start: nat
    var next: BigZone?
    var canaryB: bv64

    constructor (addr: nat, start: nat, size: nat, secret: bv64)
      ensures this.addr == addr && next == null && CanaryOk(secret)
      ensures Seen() == Rec(start, size, 1, false)
    {
      this.addr, this.start, this.size := addr, start, size;
      free, next, ttl := false, null, 1;
      var c := BigCanary(AddressWord(addr), AddressWord(start), secret);
      canaryA, canaryB := c, c;
    }

    function Seen(): Rec
      reads this`start, this`size, this`ttl, this`free
    {
      Rec(start, size, ttl, free)
    }

    predicate CanaryOk(secret: bv64)
      reads this`canaryA, this`canaryB, this`start
    {
      BothFit(canaryA, canaryB, BigCanary(AddressWord(addr), AddressWord(start), secret))
    }
  }

  ghost function Recs(zs: seq<BigZone>): (r: seq<Rec>)
    reads zs
    ensures |r| == |zs| && forall k: nat :: k < |zs| ==> r[k] == zs[k].Seen()
  {
    seq(|zs|, k requires 0 <= k < |zs| reads zs => zs[k].Seen())
  }

  lemma RecsSame(zs: seq<BigZone>, recs: seq<Rec>)
    requires |recs| == |zs| && forall j: nat :: j < |zs| ==> zs[j].Seen() == recs[j]
    ensures Recs(zs) == recs
  {
  }

  lemma RecsWithout(was: seq<BigZone>, recs: seq<Rec>, k: nat)
    requires |recs| == |was| && k < |was| && forall j: nat :: j < |was| && j != k ==> was[j].Seen() == recs[j]
    ensures Recs(Without(was, k)) == Without(recs, k)
  {
    var now := Without(was, k);
    forall j: nat | j < |now| ensures now[j].Seen() == Without(recs, k)[j] {
      assert now[j] == if j < k then was[j] else was[j + 1];
    }
  }

  ghost predicate Linked(head: BigZone?, zs: seq<BigZone>)
    reads zs`next
  {
    && head == Node(zs, 0)
    && forall k: nat :: k < |zs| ==> zs[k].next == Node(zs, k + 1)
  }

  ghost function Node(zs: seq<BigZone>, k: nat): BigZone? {
    if k < |zs| then zs[k] else null
  }

  ghost function Before(zs: seq<BigZone>, k: nat): BigZone?
    requires k <= |zs|
  {
    if k == 0 then null else zs[k - 1]
  }

  lemma FirstNode(head: BigZone?, zs: seq<BigZone>)
    requires Linked(head, zs)
    ensures head == Node(zs, 0)
  {
  }

  lemma NextNode(head: BigZone?, zs: seq<BigZone>, k: nat)
    requires Linked(head, zs) && k < |zs|
    ensures zs[k].next == Node(zs, k + 1)
  {
  }

  /** Removes the record after prev, or the first one. */
  method Unlink(head: BigZone?, prev: BigZone?, big: BigZone, ghost zs: seq<BigZone>, ghost k: nat)
    returns (head': BigZone?)
    requires Linked(head, zs) && Distinct(zs) && k < |zs| && big == zs[k] && prev == Before(zs, k)
    modifies zs`next
    ensures Linked(head', Without(zs, k)) && Distinct(Without(zs, k))
    ensures forall z :: z in Without(zs, k) <==> z in zs && z != zs[k]
  {
    head' := head;
    if big == head {
      head' := big.next;
    } else {
      prev.next := big.next;
    }
    WithoutRecord(zs, k);
    forall j: nat | j < |Without(zs, k)| ensures Without(zs, k)[j].next == Node(Without(zs, k), j + 1) {
      assert Without(zs, k)[j] == if j < k then zs[j] else zs[j + 1];
    }
  }

  /** The same, beside another list that shares no record with this one. */
  method UnlinkBeside(head: BigZone?, prev: BigZone?, big: BigZone, ghost zs: seq<BigZone>, ghost k: nat,
                      ghost other: BigZone?, ghost others: seq<BigZone>)
    returns (head': BigZone?)
    requires Linked(head, zs) && Distinct(zs) && k < |zs| && big == zs[k] && prev == Before(zs, k)
    requires Linked(other, others) && (forall z :: z in zs ==> z !in others)
    modifies zs`next
    ensures Linked(head', Without(zs, k)) && Distinct(Without(zs, k)) && Linked(other, others)
    ensures forall z :: z in Without(zs, k) <==> z in zs && z != zs[k]
  {
    hide Distinct, Without;
    head' := Unlink(head, prev, big, zs, k);
    assert forall j: nat :: j < |others| ==> others[j] in others;
  }

  /** A record on no list forgets its link. */
  method ClearNext(big: BigZone, ghost head: BigZone?, ghost zs: seq<BigZone>, ghost other: BigZone?,
                   ghost others: seq<BigZone>)
    requires Linked(head, zs) && Linked(other, others) && big !in zs && big !in others
    modifies big`next
    ensures Linked(head, zs) && Linked(other, others) && big.next == null
  {
    big.next := null;
  }

  lemma WithoutRecord(zs: seq<BigZone>, k: nat)
    requires Distinct(zs) && k < |zs|
    ensures |Without(zs, k)| == |zs| - 1 && Distinct(Without(zs, k))
    ensures forall z :: z in Without(zs, k) <==> z in zs && z != zs[k]
  {
  }

  /** How far the search of the free list goes. */
  ghost function Walked(recs: seq<Rec>, size: nat): nat {
    var k := FirstFit(recs, size);
    if k < 0 then |recs| else k + 1
  }

  /** Finding p ends at this record: its start is p, p lies inside it, or it is corrupt. */
  ghost predicate Stops(z: BigZone, p: nat, secret: bv64)
    reads z
  {
    !z.CanaryOk(secret) || z.start <= p < z.start + z.size || z.start == p
  }

  /** Where the walk for p ends: the first record from `from` on that stops it. */
  ghost function StopAt(zs: seq<BigZone>, from: nat, p: nat, secret: bv64): (k: nat)
    requires from <= |zs|
    reads zs
    ensures from <= k <= |zs| && (forall j: nat :: from <= j < k ==> !Stops(zs[j], p, secret))
    ensures k < |zs| ==> Stops(zs[k], p, secret)
    decreases |zs| - from
  {
    if from == |zs| || Stops(zs[from], p, secret) then from else StopAt(zs, from + 1, p, secret)
  }

  // --------------------------------------------------------------------- lists

  class BigLists {
    const secret: bv64
    var freeHead: BigZone?
    var usedHead: BigZone?
    var freeCount: int
    var usedCount: int
    ghost var free: seq<BigZone>
    ghost var used: seq<BigZone>

    ghost predicate Shape()
      reads this, free`next, used`next
    {
      && Linked(freeHead, free) && Linked(usedHead, used)
      && Distinct(free) && Distinct(used)
      && forall z :: z in free ==> z !in used
    }

    constructor (secret: bv64)
      ensures this.secret == secret && Shape() && free == used == [] && freeCount == usedCount == 0
    {
      this.secret := secret;
      freeHead, usedHead, freeCount, usedCount, free, used := null, null, 0, 0, [], [];
    }

    /** The free-list walk of _iso_big_alloc: stops at the first record that fits. */
    method FindFit(size: nat) returns (prev: BigZone?, big: BigZone?, ghost k: nat, aborted: bool)
      requires Shape()
      ensures aborted <==> SearchAborts(size)
      ensures !aborted && FirstFit(Recs(free), size) < 0 ==> big == null
      ensures !aborted && FirstFit(Recs(free), size) >= 0 ==>
        k == FirstFit(Recs(free), size) && big == free[k] && prev == Before(free, k)
    {
      hide FirstFit, BigCanary, AddressWord, Linked, Distinct;
      prev, big, k, aborted := null, freeHead, 0, false;
      FirstNode(freeHead, free);
      if big != null && freeCount <= 0 {
        aborted := true;
        return;
      }
      while big != null
        invariant k <= |free| && big == Node(free, k) && prev == Before(free, k)
        invariant free != [] ==> freeCount > 0
        invariant forall j: nat :: j < k ==> Sound(free[j]) && !Fits(Recs(free)[j], size)
        decreases |free| - k
      {
        if !big.free || !big.CanaryOk(secret) {
          assert !Sound(free[k]);
          aborted := true;
          return;
        }
        if big.size >= size && big.size - size <= BIG_ZONE_WASTE * 2 {
          return;
        }
        NextNode(freeHead, free, k);
        prev, big, k := big, big.next, k + 1;
      }
    }

    /** The count contradicts the free list, or the walk visits a record that is in use or
        damaged. */
    ghost predicate SearchAborts(size: nat)
      reads this, free
    {
      free != [] && (freeCount <= 0 || exists j: nat :: j < Walked(Recs(free), size) && !Sound(free[j]))
    }

    ghost predicate Reached(j: nat, size: nat)
      requires j < |free|
      reads this, free
    {
      forall i: nat :: i < j ==> !(size <= free[i].size <= size + 16384)
    }

    /** The count contradicts the list, or a record is met that is in use or damaged before
        one fits. */
    lemma SearchAbortsExactly(size: nat)
      ensures SearchAborts(size) <==>
        && free != []
        && (freeCount <= 0 || exists j: nat ::
             j < |free| && Reached(j, size) && (!free[j].free || !free[j].CanaryOk(secret)))
    {
      hide BigZone.CanaryOk, FirstFit;
      var k := FirstFit(Recs(free), size);
    }

    /** What the walk of the free list checks of each record it visits. */
    ghost predicate Sound(z: BigZone)
      reads z
    {
      z.free && z.CanaryOk(secret)
    }

    /** The free-list section of _iso_big_alloc: unlinks the first record that fits. */
    method TakeFree(size: nat) returns (big: BigZone?, ghost k: int, aborted: bool)
      requires Shape()
      modifies this`freeHead, this`freeCount, this`free, free`next, free`free
      ensures Shape() && k == old(FirstFit(Recs(free), size))
      ensures aborted <==> old(SearchAborts(size))
      ensures aborted || k < 0 ==>
        big == null && unchanged(this`freeHead, this`freeCount, this`free, old(free)`next, old(free)`free)
      ensures !aborted && k >= 0 ==>
        big == old(free)[k] && free == Without(old(free), k) && freeCount == old(freeCount) - 1
      ensures !aborted && k >= 0 ==> !big.free && forall z :: z in old(free) && z != big ==> z.free == old(z.free)
      ensures !aborted && k >= 0 ==> forall z :: z in free <==> z in old(free) && z != big
      ensures !aborted && k >= 0 ==> Recs(free) == Without(old(Recs(free)), k) && Recs(used) == old(Recs(used))
    {
      hide FirstFit, Shape, Fits, Without, SearchAborts, Recs;
      ghost var i: nat;
      var prev;
      ghost var recs, usedRecs, was := Recs(free), Recs(used), free;
      k := FirstFit(recs, size);
      if k >= 0 { FreeApart(k); }
      prev, big, i, aborted := FindFit(size);
      if aborted {
        big := null;
      } else if big != null {
        DropFree(prev, big, i);
        RecsWithout(was, recs, i);
        RecsSame(used, usedRecs);
      }
    }

    /** The record found is taken off the list and marked in use. */
    method DropFree(prev: BigZone?, big: BigZone, ghost i: nat)
      requires Shape() && i < |free| && big == free[i] && prev == Before(free, i)
      modifies this`freeHead, this`freeCount, this`free, free`next, free`free
      ensures Shape() && free == Without(old(free), i) && freeCount == old(freeCount) - 1 && !big.free
      ensures forall z :: z in old(free) && z != big ==> z.free == old(z.free)
      ensures forall z :: z in free <==> z in old(free) && z != big
    {
      hide Linked, Distinct, Without;
      freeHead := UnlinkBeside(freeHead, prev, big, free, i, usedHead, used);
      big.free := false;
      freeCount := freeCount - 1;
      free := Without(free, i);
    }

    /** The used-list section of _iso_big_alloc, for a reused or a new record. */
    method PushUsed(big: BigZone, reused: bool)
      requires Shape() && big !in free && big !in used
      modifies this`usedHead, this`usedCount, this`used, big`next, big`ttl
      ensures Shape() && used == [big] + old(used) && usedCount == old(usedCount) + 1
      ensures big.ttl == old(big.ttl) + (if reused then 1 else 0)
      ensures Recs(used) == [big.Seen()] + old(Recs(used)) && Recs(free) == old(Recs(free))
    {
      hide Linked, Distinct;
      ghost var recs, freeRecs := Recs(used), Recs(free);
      if reused {
        big.ttl := big.ttl + 1;
      }
      LinkUsed(big);
      RecsSame(used, [big.Seen()] + recs);
      RecsSame(free, freeRecs);
    }

    method LinkUsed(big: BigZone)
      requires Shape() && big !in free && big !in used
      modifies this`usedHead, this`usedCount, this`used, big`next
      ensures Shape() && used == [big] + old(used) && usedCount == old(usedCount) + 1
    {
      big.next := usedHead;
      usedHead := big;
      usedCount := usedCount + 1;
      used := [big] + used;
    }

    /** Record k is intact and its user pages start at p. */
    ghost predicate Named(k: nat, p: nat)
      requires k < |used|
      reads this, used
    {
      used[k].CanaryOk(secret) && used[k].start == p
    }

    /** The walk of iso_find_big_zone. */
    method FindUsed(p: nat) returns (prev: BigZone?, big: BigZone?, aborted: bool)
      requires Shape()
      ensures aborted <==> StopAt(used, 0, p, secret) < |used| && !Named(StopAt(used, 0, p, secret), p)
      ensures !aborted ==>
        big == Node(used, StopAt(used, 0, p, secret)) && prev == Before(used, StopAt(used, 0, p, secret))
    {
      hide BigCanary, AddressWord, Linked, Distinct;
      ghost var k: nat := 0;
      prev, big, aborted := null, usedHead, false;
      FirstNode(usedHead, used);
      while big != null
        invariant k <= |used| && big == Node(used, k) && prev == Before(used, k)
        invariant forall j: nat :: j < k ==> !Stops(used[j], p, secret)
        decreases |used| - k
      {
        if !big.CanaryOk(secret) {
          aborted := true;
          return;
        }
        if p == big.start {
          return;
        }
        if p > big.start && p < big.start + big.size {
          aborted := true;
          return;
        }
        NextNode(usedHead, used, k);
        prev, big, k := big, big.next, k + 1;
      }
    }

    /** iso_find_big_zone: an exact match is returned and, on request, unlinked. */
    method FindBigZone(p: nat, remove: bool) returns (big: BigZone?, ghost k: nat, aborted: bool)
      requires Shape()
      modifies this`usedHead, this`usedCount, this`used, used`next
      ensures Shape()
      ensures k == old(StopAt(used, 0, p, secret))
      ensures aborted <==> k < |old(used)| && !old(Named(k, p))
      ensures big == if aborted then null else Node(old(used), k)
      ensures aborted || big == null || !remove ==> unchanged(this`usedHead, this`usedCount, this`used, old(used)`next)
      ensures !aborted && big != null && remove ==>
        && used == Without(old(used), k) && usedCount == old(usedCount) - 1 && big.next == null
        && big !in used
      ensures forall z :: z in used ==> z in old(used)
      ensures !aborted && big != null && remove ==> Recs(used) == Without(old(Recs(used)), k)
    {
      hide BigZone.CanaryOk, Linked, Distinct, Without, StopAt, Named;
      ghost var recs, was := Recs(used), used;
      var prev;
      k := StopAt(used, 0, p, secret);
      prev, big, aborted := FindUsed(p);
      if aborted {
        big := null;
      } else if big != null && remove {
        usedHead := UnlinkBeside(usedHead, prev, big, used, k, freeHead, free);
        usedCount := usedCount - 1;
        used := Without(used, k);
        ClearNext(big, usedHead, used, freeHead, free);
        RecsWithout(was, recs, k);
      }
    }

    /** iso_free_big_zone on a record that is off both lists: it is parked on the free
        list, sealed, or unmapped. */
    method FreeBigZone(big: BigZone, permanent: bool) returns (place: Place, aborted: bool)
      requires Shape() && big !in free && big !in used
      modifies this`freeHead, this`freeCount, this`free, big`next, big`free
      ensures Shape()
      ensures aborted <==> old(big.free)
      ensures !aborted ==> place == (if !permanent && old(freeCount) < 64 && old(big.ttl) < 16 then OnFree
                                     else if permanent then Sealed else Gone)
      ensures !aborted && place == OnFree ==>
        free == [big] + old(free) && freeCount == old(freeCount) + 1
      ensures !aborted ==> (big.free <==> place != Gone)
      ensures aborted || place != OnFree ==> unchanged(this`freeHead, this`freeCount, this`free)
      ensures !aborted ==>
        Recs(free) == (if place == OnFree then [old(big.Seen()).(free := true)] else []) + old(Recs(free))
    {
      hide Linked, Distinct, Recs;
      ghost var recs := Recs(free);
      assert [] + recs == recs;
      place, aborted := Gone, big.free;
      if aborted {
        return;
      }
      if !permanent && freeCount < BIG_ZONE_MAX_FREE_LIST && big.ttl < BIG_ZONE_ALLOC_RETIRE {
        PushFree(big);
        place := OnFree;
      } else if permanent {
        big.free := true;
        place := Sealed;
      }
    }

    method PushFree(big: BigZone)
      requires Shape() && big !in free && big !in used
      modifies this`freeHead, this`freeCount, this`free, big`next, big`free
      ensures Shape() && free == [big] + old(free) && freeCount == old(freeCount) + 1 && big.free
      ensures Recs(free) == [old(big.Seen()).(free := true)] + old(Recs(free))
    {
      ghost var recs := Recs(free);
      big.free := true;
      big.next := freeHead;
      freeHead := big;
      freeCount := freeCount + 1;
      free := [big] + free;
      RecsSame(free, [big.Seen()] + recs);
    }

    /** The big half of iso_free: the record whose pages start at p leaves the used list
        for the free list or for good. It aborts, with nothing changed, for an address
        that no intact record starts at. */
    method BigFree(p: nat, permanent: bool) returns (big: BigZone?, place: Place, ghost k: nat, aborted: bool)
      requires Shape()
      modifies this`usedHead, this`usedCount, this`used, used`next, used`free, this`freeHead, this`freeCount, this`free
      ensures Shape()
      ensures k == old(StopAt(used, 0, p, secret)) <= |old(used)|
      ensures aborted <==> k == |old(used)| || !old(Named(k, p)) || old(used[k].free)
      ensures k == |old(used)| || !old(Named(k, p)) ==> used == old(used) && free == old(free)
      ensures !aborted ==>
        && big == old(used)[k] && used == Without(old(used), k) && usedCount == old(usedCount) - 1
        && place == (if !permanent && old(freeCount) < 64 && old(used[k].ttl) < 16 then OnFree
                     else if permanent then Sealed else Gone)
        && free == (if place == OnFree then [big] else []) + old(free)
        && freeCount == old(freeCount) + (if place == OnFree then 1 else 0)
      ensures !aborted ==> Recs(used) == Without(old(Recs(used)), k)
      ensures !aborted ==>
        Recs(free) == (if place == OnFree then [old(Recs(used))[k].(free := true)] else []) + old(Recs(free))
    {
      hide BigZone.CanaryOk, Linked, Distinct, StopAt, Named, Without, Recs;
      place := Gone;
      big, k, aborted := FindBigZone(p, true);
      if !aborted {
        if big == null {
          aborted := true;
        } else {
          place, aborted := FreeBigZone(big, permanent);
        }
      }
    }

    lemma FreeApart(k: nat)
      requires Shape() && k < |free|
      ensures forall j: nat :: j < |free| && j != k ==> free[j] != free[k]
      ensures forall j: nat :: j < |used| ==> used[j] !in free
    {
      hide Linked;
      forall j: nat | j < |used| ensures used[j] !in free { assert used[j] in used; }
    }

    /** _iso_big_alloc. The record that serves a request was the first on the free list to
        fit, or is new and its pages overlap nothing that was mapped. */
    method BigAlloc(os: AddressSpace, size: nat) returns (p: nat, big: BigZone?, ghost k: int, aborted: bool)
      requires Shape() && os.Valid()
      modifies this, free`next, free`free, free`ttl, os
      ensures Shape() && os.Valid()
      ensures aborted <==> !Refused(size) && old(SearchAborts(RoundUpPage(size)))
      ensures Refused(size) <==> size < 65536 || RoundUpPage(size) > 4294967296
      ensures Refused(size) ==> p == 0
      ensures big == null <==> Refused(size) || aborted
      ensures big == null ==> used == old(used) && free == old(free) && os.mapped == old(os.mapped)
      ensures k == FirstFit(old(Recs(free)), RoundUpPage(size))
      ensures big != null ==> p == big.start && !big.free && Fits(big.Seen(), RoundUpPage(size))
      ensures big != null ==> usedCount == old(usedCount) + 1
      ensures big != null ==> used == [big] + old(used) && Recs(used) == [big.Seen()] + old(Recs(used))
      ensures big != null && k >= 0 ==>
        && big == old(free)[k] && free == Without(old(free), k) && freeCount == old(freeCount) - 1
        && big.Seen() == old(Recs(free))[k].(ttl := old(Recs(free))[k].ttl + 1, free := false)
        && Recs(free) == Without(old(Recs(free)), k) && os.mapped == old(os.mapped)
      ensures big != null && k < 0 ==>
        && fresh(big) && free == old(free) && freeCount == old(freeCount) && Recs(free) == old(Recs(free))
        && big.Seen() == Rec(p, RoundUpPage(size), 1, false) && big.CanaryOk(secret)
        && p > 0 && p % PAGE_SIZE == 0 && Unmapped(p, RoundUpPage(size), old(os.mapped))
        && os.mapped == old(os.mapped) + {Mapping(p, RoundUpPage(size)), Mapping(MetaPage(big.addr), PAGE_SIZE)}
    {
      hide FirstFit, Linked, Distinct, BigZone.CanaryOk, SearchAborts, Without, MetaPage, Unmapped, Recs;
      ghost var freeRecs := Recs(free);
      p, big, aborted, k := 0, null, false, FirstFit(freeRecs, RoundUpPage(size));
      if RoundUpPage(size) > BIG_SZ_MAX || size < SMALL_SIZE_MAX {
        return;
      }
      var taken;
      taken, k, aborted := TakeFree(RoundUpPage(size));
      if aborted {
        return;
      }
      if taken != null {
        PushUsed(taken, true);
        p, big := taken.start, taken;
      } else {
        var made := MapBig(os, RoundUpPage(size));
        PushUsed(made, false);
        p, big := made.start, made;
      }
    }

    /** A new mapping and a record for it, on a page of its own. */
    method MapBig(os: AddressSpace, size: nat) returns (big: BigZone)
      requires os.Valid()
      modifies os
      ensures os.Valid() && fresh(big) && big.CanaryOk(secret)
      ensures big.Seen() == Rec(big.start, size, 1, false) && big.start > 0 && big.start % PAGE_SIZE == 0
      ensures Unmapped(big.start, size, old(os.mapped)) && Unmapped(MetaPage(big.addr), PAGE_SIZE, old(os.mapped))
      ensures os.mapped == old(os.mapped) + {Mapping(big.start, size), Mapping(MetaPage(big.addr), PAGE_SIZE)}
    {
      hide MetaOffset, MetaPage, BigZone.CanaryOk, Apart;
      var p := os.Mmap(size);
      var page := os.Mmap(PAGE_SIZE);
      var draw: nat := *;
      MetaPageOf(page, MetaOffset(draw));
      big := new BigZone(page + MetaOffset(draw), p, size, secret);
    }
  }

  /** _iso_big_alloc refuses the size. */
  predicate Refused(size: nat) {
    RoundUpPage(size) > BIG_SZ_MAX || size < SMALL_SIZE_MAX
  }

  ghost predicate Unmapped(start: nat, size: nat, mapped: set<Mapping>) {
    forall m :: m in mapped ==> Apart(start, size, m.start, m.size)
  }

  const BIG_RECORD_SIZE: nat := 48

  lemma MetaPageOf(page: nat, offset: nat)
    requires page % PAGE_SIZE == 0 && offset < PAGE_SIZE
    ensures MetaPage(page + offset) == page
  {
  }

  /** The page a record is stored on. */
  function MetaPage(addr: nat): nat {
    addr / PAGE_SIZE * PAGE_SIZE
  }

  /** The offset of a record in its meta data page, from a 32-bit random number. */
  function MetaOffset(draw: nat): (offset: nat)
    ensures offset + BIG_RECORD_SIZE <= PAGE_SIZE
  {
    var r := ((draw + 31) / 32 * 32 + 0x1_0000_0000 - 32) % 0x1_0000_0000;
    r * (PAGE_SIZE - (BIG_RECORD_SIZE - 1)) / 0x1_0000_0000
  }

  /** What _verify_big_zone_list demands of one record. */
  ghost predicate Intact(z: BigZone, secret: bv64)
    reads z
  {
    z.CanaryOk(secret) && BigSize(z.size) && z.start != 0
  }

  /** A record is in order: both canaries fit, its size is one of a big zone, and it has
      pages. */
  lemma IntactExactly(z: BigZone, secret: bv64)
    ensures Intact(z, secret) <==>
      && BothFit(z.canaryA, z.canaryB, BigCanary(AddressWord(z.addr), AddressWord(z.start), secret))
      && 65536 <= z.size <= 4294967296 && z.start != 0
  {
    hide BigCanary, AddressWord, BothFit;
  }

  /** _verify_big_zone_list aborts exactly when a record of the list is corrupt. */
  method VerifyBigZones(head: BigZone?, ghost zs: seq<BigZone>, secret: bv64) returns (aborted: bool)
    requires Linked(head, zs)
    ensures aborted <==> exists k: nat :: k < |zs| && !Intact(zs[k], secret)
  {
    hide BigCanary, AddressWord;
    var big := head;
    ghost var k: nat := 0;
    while big != null
      invariant k <= |zs| && big == Node(zs, k)
      invariant forall j: nat :: j < k ==> Intact(zs[j], secret)
      decreases |zs| - k
    {
      if !big.CanaryOk(secret) || big.size < SMALL_SIZE_MAX || big.size > BIG_SZ_MAX || big.start == 0 {
        assert !Intact(zs[k], secret);
        return true;
      }
      big, k := big.next, k + 1;
    }
    aborted := false;
  }

  /** With canaries intact and mappings apart, the walk ends exactly at the record
      whose user pages start at p, or nowhere if p is in no mapping. */
  lemma FindsOwned(zs: seq<BigZone>, p: nat, secret: bv64)
    requires forall j: nat :: j < |zs| ==> zs[j].CanaryOk(secret) && zs[j].size > 0
    requires forall i: nat, j: nat :: i < j < |zs| ==> Apart(zs[i].start, zs[i].size, zs[j].start, zs[j].size)
    ensures forall i: nat :: i < |zs| && zs[i].start == p ==> StopAt(zs, 0, p, secret) == i
    ensures StopAt(zs, 0, p, secret) == |zs| <==> forall i: nat :: i < |zs| ==>
      !(zs[i].start <= p < zs[i].start + zs[i].size)
  {
    hide BigZone.CanaryOk;
    var k := StopAt(zs, 0, p, secret);
    forall i: nat | i < |zs| && zs[i].start == p ensures k == i {
      assert Stops(zs[i], p, secret);
    }
    assert k < |zs| ==> Stops(zs[k], p, secret);
  }
}
