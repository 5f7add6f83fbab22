// Preallocated bitmap pages: zones with small bitmaps share a page, one slot each.
module BitmapPages {
  import opened Words
  import opened Geometry

  const PAGE_WORDS: nat := PAGE_SIZE / 8

  /** The bitmap sizes that have a page, in the order they are searched. */
  const BUCKETS: seq<nat> := [1024, 512, 256, 128, 64, 32]

  /** The slot a qword of the page belongs to. */
  function SlotOf(i: nat, bucket: nat): nat
    requires IsBucket(bucket)
  {
    i / (bucket / 8)
  }

  /** Slot z is the qwords from z * bucket / 8 on; distinct slots share none, and the slots
      are exactly those that end inside the page. */
  lemma SlotExtent(z: nat, i: nat, bucket: nat)
    requires IsBucket(bucket)
    ensures SlotOf(i, bucket) == z <==> z * (bucket / 8) <= i < z * (bucket / 8) + bucket / 8
    ensures z < SlotCount(bucket) <==> z * (bucket / 8) + bucket / 8 <= PAGE_WORDS
    ensures i < PAGE_WORDS <==> SlotOf(i, bucket) < SlotCount(bucket)
  {
    if bucket == 1024 { SlotStretch(z, i, 128, 4); }
    else if bucket == 512 { SlotStretch(z, i, 64, 8); }
    else if bucket == 256 { SlotStretch(z, i, 32, 16); }
    else if bucket == 128 { SlotStretch(z, i, 16, 32); }
    else if bucket == 64 { SlotStretch(z, i, 8, 64); }
    else { SlotStretch(z, i, 4, 128); }
  }

  /** n slots of w qwords each. */
  lemma SlotStretch(z: nat, i: nat, w: nat, n: nat)
    requires w > 0 && n * w == PAGE_WORDS
    ensures i / w == z <==> z * w <= i < z * w + w
    ensures z < n <==> z * w + w <= PAGE_WORDS
    ensures i < PAGE_WORDS <==> i / w < n
  {
    var q := i / w;
    assert q * w <= i < q * w + w;
    Order(q, z, w);
    Order(q, n, w);
    Order(z, n, w);
  }

  lemma Order(a: nat, b: nat, w: nat)
    requires w > 0
    ensures a < b <==> a * w + w <= b * w
    ensures b < a <==> b * w + w <= a * w
  {
    if a < b { ScaleMonotone(a + 1, b, w); } else { ScaleMonotone(b, a, w); }
    if b < a { ScaleMonotone(b + 1, a, w); } else { ScaleMonotone(a, b, w); }
    assert (a + 1) * w == a * w + w && (b + 1) * w == b * w + w;
  }

  ghost predicate AllZero(a: array<bv64>)
    reads a
  {
    forall i: nat :: i < a.Length ==> a[i] == 0
  }

  /** iso_alloc_bitmap_t. The page is kept as the slots it is cut into, each the memory of
      one bitmap. */
  class BitmapPage {
    const bucket: nat
    const slots: seq<array<bv64>>
    var inUse: bv64                  // 32 bits in the source

    /** Only bits of slots are set. */
    ghost predicate Shape()
      reads this`inUse
    {
      && IsBucket(bucket) && |slots| == SlotCount(bucket)
      && (forall z: nat :: z < |slots| ==> slots[z].Length == bucket / 8)
      && (forall y: nat, z: nat :: y < z < |slots| ==> slots[y] != slots[z])
      && (forall z: nat :: z < 64 && Bit(inUse, z) ==> z < UsableSlots(bucket))
    }

    constructor (bucket: nat)
      requires IsBucket(bucket)
      ensures Shape() && this.bucket == bucket && inUse == 0
      ensures forall z: nat :: z < |slots| ==> fresh(slots[z]) && AllZero(slots[z])
    {
      this.bucket := bucket;
      var made: seq<array<bv64>> := [];
      for n: nat := 0 to PAGE_SIZE / bucket
        invariant |made| == n
        invariant forall z: nat :: z < n ==> fresh(made[z]) && made[z].Length == bucket / 8 && AllZero(made[z])
        invariant forall y: nat, z: nat :: y < z < n ==> made[y] != made[z]
      {
        var slot := new bv64[bucket / 8](_ => 0);
        made := made + [slot];
      }
      slots, inUse := made, 0;
      new;
      forall z: nat | z < 64 ensures !Bit(inUse, z) { ZeroHasNoBit(z); }
    }

    /** The slot for a new bitmap: the lowest one whose bit is clear, or -1 if there is
        none. A bit is looked up modulo 32, the width of in_use. */
    method Claim() returns (slot: int)
      requires Shape()
      modifies this`inUse
      ensures Shape()
      ensures slot == -1 <==> forall z: nat :: z < UsableSlots(bucket) ==> Bit(old(inUse), z)
      ensures slot == -1 ==> inUse == old(inUse)
      ensures slot != -1 ==> 0 <= slot < UsableSlots(bucket) && !Bit(old(inUse), slot)
      ensures slot != -1 ==> forall z: nat :: z < slot ==> Bit(old(inUse), z)
      ensures forall z: nat :: z < 64 ==> (Bit(inUse, z) <==> Bit(old(inUse), z) || z == slot)
    {
      slot := -1;
      if inUse == 0 {
        ZeroHasNoBit(0);
        Mark(0);
        return 0;
      }
      for z: nat := 0 to PAGE_SIZE / bucket
        invariant inUse == old(inUse) && Shape()
        invariant forall y: nat :: y < z && y < 32 ==> Bit(inUse, y)
      {
        if !Bit(inUse, z % 32) {
          Mark(z);
          return z;
        }
      }
    }

    method Mark(z: nat)
      requires Shape() && z < UsableSlots(bucket)
      modifies this`inUse
      ensures Shape() && forall y: nat :: y < 64 ==> (Bit(inUse, y) <==> Bit(old(inUse), y) || y == z)
    {
      forall y: nat | y < 64 ensures Bit(SetBit(inUse, z), y) <==> y == z || Bit(inUse, y) { BitOfSet(inUse, z, y); }
      inUse := SetBit(inUse, z);
    }

    /** A slot given back is cleared; no other bit and no other slot changes. */
    method Release(z: nat)
      requires Shape() && z < UsableSlots(bucket)
      modifies this`inUse, slots[z]
      ensures Shape() && AllZero(slots[z])
      ensures forall y: nat :: y < 64 ==> (Bit(inUse, y) <==> Bit(old(inUse), y) && y != z)
    {
      forall y: nat | y < 64 ensures Bit(UnsetBit(inUse, z), y) <==> y != z && Bit(inUse, y) {
        BitOfUnset(inUse, z, y);
      }
      inUse := UnsetBit(inUse, z);
      Clear(slots[z]);
    }
  }

  /** The memset of a destroyed zone's bitmap. */
  method Clear(a: array<bv64>)
    modifies a
    ensures AllZero(a)
  {
    for k: nat := 0 to a.Length
      invariant forall i: nat :: i < k ==> a[i] == 0
    {
      a[k] := 0;
    }
  }

  // ------------------------------------------------------------ the page as a whole

  /** The first n slots as they follow each other in the page. */
  ghost function Joined(slots: seq<array<bv64>>, n: nat): seq<bv64>
    requires n <= |slots|
    reads slots
  {
    if n == 0 then [] else Joined(slots, n - 1) + slots[n - 1][..]
  }

  /** The slots make up the page: slot z is its z-th stretch of qwords. */
  lemma {:induction false} SlotsFillPage(slots: seq<array<bv64>>, bucket: nat, n: nat, z: nat)
    requires IsBucket(bucket) && n <= |slots| && z < n
    requires forall y: nat :: y < |slots| ==> slots[y].Length == bucket / 8
    ensures |Joined(slots, n)| == n * (bucket / 8) && z * (bucket / 8) + bucket / 8 <= n * (bucket / 8)
    ensures Joined(slots, n)[z * (bucket / 8)..z * (bucket / 8) + bucket / 8] == slots[z][..]
  {
    var w, front := bucket / 8, Joined(slots, n - 1);
    hide IsBucket;
    Order(z, n, w);
    JoinedLength(slots, w, n);
    JoinedLength(slots, w, n - 1);
    if z < n - 1 {
      SlotsFillPage(slots, bucket, n - 1, z);
      assert Joined(slots, n)[z * w..z * w + w] == front[z * w..z * w + w];
    }
  }

  lemma {:induction false} JoinedLength(slots: seq<array<bv64>>, w: nat, n: nat)
    requires n <= |slots| && forall y: nat :: y < |slots| ==> slots[y].Length == w
    ensures |Joined(slots, n)| == n * w
  {
    if n > 0 {
      JoinedLength(slots, w, n - 1);
      assert (n - 1) * w + w == n * w;
    }
  }

  /** The qword behind slot z is the first one of the next slot. */
  lemma NextQword(page: BitmapPage, z: nat)
    requires page.Shape() && z + 1 < |page.slots|
    ensures var words := Joined(page.slots, |page.slots|);
      |words| == PAGE_WORDS && (z + 1) * (page.bucket / 8) < PAGE_WORDS && page.slots[z + 1].Length > 0
      && words[(z + 1) * (page.bucket / 8)] == page.slots[z + 1][0]
  {
    var w, words := page.bucket / 8, Joined(page.slots, |page.slots|);
    WholePage(page.bucket);
    hide IsBucket;
    SlotsFillPage(page.slots, page.bucket, |page.slots|, z + 1);
    assert words[(z + 1) * w..(z + 1) * w + w][0] == page.slots[z + 1][..][0];
  }

  lemma WholePage(bucket: nat)
    requires IsBucket(bucket)
    ensures SlotCount(bucket) * (bucket / 8) == PAGE_WORDS && bucket / 8 > 0
  {
  }

  // ------------------------------------------------------------- choosing a page

  /** The pages of a root: none before they are set up, then one for each size. */
  ghost predicate PagesShape(pages: seq<BitmapPage>)
    reads pages
  {
    && (pages == [] || |pages| == |BUCKETS|)
    && (forall k: nat :: k < |pages| ==> pages[k].Shape() && pages[k].bucket == BUCKETS[k])
    && (forall j: nat, k: nat :: j < k < |pages| ==> pages[j] != pages[k])
  }

  /** Where the page for bitmaps of this size is. */
  function PageOf(bytes: nat): (k: nat)
    requires IsBucket(bytes)
    ensures k < |BUCKETS| && BUCKETS[k] == bytes
    ensures forall j: nat :: j < |BUCKETS| && BUCKETS[j] == bytes ==> j == k
  {
    if bytes == 1024 then 0 else if bytes == 512 then 1 else if bytes == 256 then 2
    else if bytes == 128 then 3 else if bytes == 64 then 4 else 5
  }

  ghost predicate IsSlot(pages: seq<BitmapPage>, s: Slot) {
    && IsBucket(s.bytes) && PageOf(s.bytes) < |pages|
    && s.number < |pages[PageOf(s.bytes)].slots|
  }

  /** The memory of a slot. */
  function SlotArray(pages: seq<BitmapPage>, s: Slot): array<bv64>
    requires IsSlot(pages, s)
  {
    pages[PageOf(s.bytes)].slots[s.number]
  }

  /** The memory of all slots, and of those nobody owns. */
  ghost function AllSlots(pages: seq<BitmapPage>): set<object> {
    set k: nat, z: nat | k < |pages| && z < |pages[k].slots| :: pages[k].slots[z] as object
  }

  ghost function Spare(pages: seq<BitmapPage>, owned: set<Slot>): set<object> {
    set k: nat, z: nat | k < |pages| && z < |pages[k].slots| && Slot(pages[k].bucket, z) !in owned ::
      pages[k].slots[z] as object
  }

  ghost function PageRecords(pages: seq<BitmapPage>): set<object> {
    set k: nat | k < |pages| :: pages[k] as object
  }

  /** The records of the pages, and the memory nobody owns. */
  ghost function Storage(pages: seq<BitmapPage>, owned: set<Slot>): set<object> {
    PageRecords(pages) + Spare(pages, owned)
  }

  /** The bits of in_use are set exactly for the owned slots. */
  ghost predicate Marked(pages: seq<BitmapPage>, owned: set<Slot>)
    reads pages
  {
    forall k: nat, z: nat :: k < |pages| && z < 64 ==> (Bit(pages[k].inUse, z) <==> Slot(pages[k].bucket, z) in owned)
  }

  /** The slots nobody owns are all zero. */
  ghost predicate Blank(pages: seq<BitmapPage>, owned: set<Slot>)
    reads Spare(pages, owned)
  {
    forall k: nat, z: nat :: k < |pages| && z < |pages[k].slots| && Slot(pages[k].bucket, z) !in owned ==>
      AllZero(pages[k].slots[z])
  }

  ghost predicate PagesOk(pages: seq<BitmapPage>, owned: set<Slot>)
    reads Storage(pages, owned)
  {
    && PagesShape(pages) && Marked(pages, owned) && Blank(pages, owned)
    && forall s :: s in owned ==> IsSlot(pages, s) && s.number < UsableSlots(s.bytes)
  }

  /** There is no slot for another bitmap of this size. */
  ghost predicate NoSlot(pages: seq<BitmapPage>, bytes: nat, owned: set<Slot>) {
    pages == [] || !IsBucket(bytes) || forall z: nat :: z < UsableSlots(bytes) ==> Slot(bytes, z) in owned
  }

  /** The search for a slot in _iso_new_zone finds the lowest one nobody owns. */
  method ClaimSlot(pages: seq<BitmapPage>, bytes: nat, ghost owned: set<Slot>) returns (slot: int, bitmap: array?<bv64>)
    requires PagesOk(pages, owned)
    modifies PageRecords(pages)
    ensures slot == -1 <==> NoSlot(pages, bytes, owned)
    ensures slot == -1 ==> bitmap == null && PagesOk(pages, owned)
    ensures slot != -1 ==> slot >= 0 && IsSlot(pages, Slot(bytes, slot)) && Slot(bytes, slot) !in owned
    ensures slot != -1 ==> slot < UsableSlots(bytes) && forall z: nat :: z < slot ==> Slot(bytes, z) in owned
    ensures slot != -1 ==> PagesOk(pages, owned + {Slot(bytes, slot)})
    ensures slot != -1 ==> bitmap == SlotArray(pages, Slot(bytes, slot)) && AllZero(bitmap)
  {
    hide Bit, Marked, UsableSlots, SlotCount, AllZero;
    slot, bitmap := -1, null;
    for k: nat := 0 to |pages|
      invariant slot == -1 && PagesOk(pages, owned)
      invariant forall j: nat :: j < k && BUCKETS[j] == bytes ==> NoSlot(pages, bytes, owned)
    {
      if pages[k].bucket == bytes {
        slot := ClaimOn(pages, k, owned);
        if slot != -1 {
          bitmap := pages[k].slots[slot];
          return;
        }
      }
    }
    assert IsBucket(bytes) ==> BUCKETS[PageOf(bytes)] == bytes;
  }

  /** A slot of page k. */
  method ClaimOn(pages: seq<BitmapPage>, k: nat, ghost owned: set<Slot>) returns (slot: int)
    requires PagesOk(pages, owned) && k < |pages|
    modifies pages[k]
    ensures slot == -1 <==> forall z: nat :: z < UsableSlots(pages[k].bucket) ==> Slot(pages[k].bucket, z) in owned
    ensures slot == -1 ==> PagesOk(pages, owned)
    ensures slot != -1 ==> 0 <= slot < UsableSlots(pages[k].bucket) && Slot(pages[k].bucket, slot) !in owned
    ensures slot != -1 ==> forall z: nat :: z < slot ==> Slot(pages[k].bucket, z) in owned
    ensures slot != -1 ==> PagesOk(pages, owned + {Slot(pages[k].bucket, slot)})
  {
    hide Bit, AllZero, UsableSlots, SlotCount, IsBucket;
    slot := pages[k].Claim();
  }

  /** The search in the destruction of a zone, which knows only the size of its bitmap and
      the number of its slot. */
  method ReleaseSlot(pages: seq<BitmapPage>, bytes: nat, slot: nat, ghost owned: set<Slot>)
    requires PagesOk(pages, owned) && Slot(bytes, slot) in owned
    modifies PageRecords(pages), SlotArray(pages, Slot(bytes, slot))
    ensures PagesOk(pages, owned - {Slot(bytes, slot)})
  {
    hide Bit, AllZero, UsableSlots, SlotCount, Marked;
    for k: nat := 0 to |pages|
      invariant PagesOk(pages, owned)
      invariant forall j: nat :: j < k ==> BUCKETS[j] != bytes
    {
      if pages[k].bucket == bytes {
        ReleaseOn(pages, k, slot, owned);
        return;
      }
    }
  }

  method ReleaseOn(pages: seq<BitmapPage>, k: nat, slot: nat, ghost owned: set<Slot>)
    requires PagesOk(pages, owned) && k < |pages| && Slot(pages[k].bucket, slot) in owned
    modifies pages[k], SlotArray(pages, Slot(pages[k].bucket, slot))
    ensures PagesOk(pages, owned - {Slot(pages[k].bucket, slot)})
  {
    hide Bit, AllZero, UsableSlots, SlotCount, IsBucket;
    pages[k].Release(slot);
  }

  /** The pages set up at the end of start-up. */
  method MakePages() returns (pages: seq<BitmapPage>)
    ensures |pages| == |BUCKETS| && PagesOk(pages, {}) && Storage(pages, {}) <= PageRecords(pages) + AllSlots(pages)
    ensures fresh(PageRecords(pages)) && fresh(AllSlots(pages))
  {
    hide Bit, SlotCount, UsableSlots, AllZero;
    pages := [];
    for n: nat := 0 to |BUCKETS|
      invariant |pages| == n && forall k: nat :: k < n ==> NewPage(pages[k], BUCKETS[k]) && fresh(pages[k])
      invariant forall k: nat, z: nat :: k < n && z < |pages[k].slots| ==> fresh(pages[k].slots[z])
      invariant forall j: nat, k: nat :: j < k < n ==> pages[j] != pages[k]
    {
      var page := new BitmapPage(BUCKETS[n]);
      pages := pages + [page];
    }
    NewPagesOk(pages);
  }

  ghost predicate NewPage(page: BitmapPage, bucket: nat)
    reads page, page.slots
  {
    && page.Shape() && page.bucket == bucket && page.inUse == 0
    && forall z: nat :: z < |page.slots| ==> AllZero(page.slots[z])
  }

  lemma NewPagesOk(pages: seq<BitmapPage>)
    requires |pages| == |BUCKETS| && forall k: nat :: k < |pages| ==> NewPage(pages[k], BUCKETS[k])
    requires forall j: nat, k: nat :: j < k < |pages| ==> pages[j] != pages[k]
    ensures PagesOk(pages, {})
  {
    hide Bit, SlotCount, UsableSlots, AllZero;
    forall z: nat | z < 64 ensures !Bit(0, z) { ZeroHasNoBit(z); }
  }
}
