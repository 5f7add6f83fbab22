// Which zone has which slot of a shared bitmap page, or pages of its own.
module BitmapSlots {
  import opened Words
  import opened Bitmap
  import opened Geometry
  import opened ZoneState
  import opened RootState
  import opened RootSteps
  import opened BitmapPages

  /** The bitmap of a zone is the memory of the slot it records, or of no slot. */
  ghost predicate HomeTied(pages: seq<BitmapPage>, home: Home, words: array<bv64>) {
    match home
    case OwnPages => words !in AllSlots(pages)
    case Shared(s) => IsSlot(pages, s) && words == SlotArray(pages, s)
  }

  /** The bitmaps of the zones, all but one of them, are where the zones record them, and
      the slots lent are exactly the recorded ones. */
  ghost predicate SlotTie(zs: seq<ZoneView>, pages: seq<BitmapPage>, homes: seq<array<bv64>>, lent: set<Slot>,
                          except: int)
  {
    && |homes| == |zs| && lent == SlotsHeld(zs, except)
    && forall i: nat :: i < |zs| && i != except ==> HomeTied(pages, zs[i].home, homes[i])
  }

  ghost predicate HasSlot(z: ZoneView, bytes: nat, n: nat) {
    z.home == Shared(Slot(bytes, n))
  }

  /** An in_use bit is set exactly if one current zone, and only one, has the slot; and
      that zone's bitmap is the slot. Any other slot is zero. */
  lemma BitIffOneZone(zs: seq<ZoneView>, pages: seq<BitmapPage>, homes: seq<array<bv64>>, lent: set<Slot>, k: nat,
                      n: nat)
    requires SlotsOk(zs) && SlotTie(zs, pages, homes, lent, -1) && PagesOk(pages, lent)
    requires k < |pages| && n < |pages[k].slots|
    ensures n < 64 ==>
      (Bit(pages[k].inUse, n) <==> exists i: nat :: i < |zs| && HasSlot(zs[i], pages[k].bucket, n))
    ensures forall i: nat, j: nat :: i < |zs| && j < |zs| && HasSlot(zs[i], pages[k].bucket, n) ==>
      (HasSlot(zs[j], pages[k].bucket, n) ==> i == j)
    ensures forall i: nat :: i < |zs| && HasSlot(zs[i], pages[k].bucket, n) ==> homes[i] == pages[k].slots[n]
    ensures (forall i: nat :: i < |zs| ==> !HasSlot(zs[i], pages[k].bucket, n)) ==> AllZero(pages[k].slots[n])
  {
    hide HomeOk, AllZero, Bit, SlotCount, UsableSlots;
    var s := Slot(pages[k].bucket, n);
    assert s in lent <==> exists i: nat :: i < |zs| && HasSlot(zs[i], s.bytes, s.number);
    forall i: nat | i < |zs| && HasSlot(zs[i], s.bytes, s.number) ensures homes[i] == pages[k].slots[n] {
      assert HomeTied(pages, zs[i].home, homes[i]);
    }
  }

  /** In every run no two zones have the same slot, and a slot is one of the size the
      zone's bitmap needs. */
  lemma RunSlots(es: seq<Event>, r: RootView, i: nat, j: nat)
    requires Reach(EmptyRoot(), es, r) && i < |r.zones| && j < |r.zones| && r.zones[i].home.Shared?
    ensures r.zones[j].home == r.zones[i].home ==> i == j
    ensures IsChunkSize(r.zones[i].chunkSize) && r.zones[i].home.slot.bytes == BitmapSize(r.zones[i].chunkSize)
    ensures SlotFits(r.zones[i].home.slot)
  {
    hide Reach, BaseOk, ParkedOk, EmptyRoot, SlotFits;
    EmptyRootOk();
    RunKeepsOk(EmptyRoot(), es, r);
    assert HomeOk(r.zones[i]);
  }

  lemma NothingLent()
    ensures PagesOk([], {}) && SlotTie([], [], [], {}, -1) && Storage([], {}) == AllSlots([]) == {}
  {
  }

  /** Before the pages are set up every zone has pages of its own. */
  lemma SlotTieSetUp(zs: seq<ZoneView>, homes: seq<array<bv64>>, lent: set<Slot>, pages: seq<BitmapPage>)
    requires SlotTie(zs, [], homes, lent, -1) && forall i: nat :: i < |homes| ==> homes[i] !in AllSlots(pages)
    ensures lent == {} && SlotTie(zs, pages, homes, lent, -1)
  {
    forall i: nat | i < |zs| ensures zs[i].home.OwnPages? { assert HomeTied([], zs[i].home, homes[i]); }
  }

  /** Distinct slots are distinct memory. */
  lemma SlotsDistinct(pages: seq<BitmapPage>, s: Slot, t: Slot)
    requires PagesShape(pages) && IsSlot(pages, s) && IsSlot(pages, t) && s != t
    ensures SlotArray(pages, s) != SlotArray(pages, t)
  {
    hide SlotCount, UsableSlots;
  }

  lemma SlotTieSame(zs: seq<ZoneView>, zs': seq<ZoneView>, pages: seq<BitmapPage>, homes: seq<array<bv64>>,
                    lent: set<Slot>)
    requires SlotTie(zs, pages, homes, lent, -1) && |zs'| == |zs|
    requires forall i: nat :: i < |zs| ==> zs'[i].home == zs[i].home
    ensures SlotTie(zs', pages, homes, lent, -1)
  {
    hide HomeTied;
    assert SlotsHeld(zs', -1) == SlotsHeld(zs, -1) by {
      forall s ensures s in SlotsHeld(zs', -1) <==> s in SlotsHeld(zs, -1) {
        if s in SlotsHeld(zs', -1) {
          var i: nat :| i < |zs'| && zs'[i].home.Shared? && zs'[i].home.slot == s;
          assert zs[i].home.slot == s;
        }
        if s in SlotsHeld(zs, -1) {
          var i: nat :| i < |zs| && zs[i].home.Shared? && zs[i].home.slot == s;
          assert zs'[i].home.slot == s;
        }
      }
    }
  }

  function SlotSet(home: Home): set<Slot> {
    if home.Shared? then {home.slot} else {}
  }

  /** A zone is added. */
  lemma SlotTieAdd(zs: seq<ZoneView>, v: ZoneView, pages: seq<BitmapPage>, homes: seq<array<bv64>>, words: array<bv64>,
                   lent: set<Slot>)
    requires SlotTie(zs, pages, homes, lent, -1) && HomeTied(pages, v.home, words)
    ensures SlotTie(zs + [v], pages, homes + [words], lent + SlotSet(v.home), -1)
  {
    hide HomeTied;
    var zs' := zs + [v];
    forall s ensures s in SlotsHeld(zs', -1) <==> s in lent + SlotSet(v.home) {
      if s in lent {
        var i: nat :| i < |zs| && zs[i].home.Shared? && zs[i].home.slot == s;
        assert zs'[i].home.slot == s;
      }
      if s in SlotSet(v.home) { assert zs'[|zs|].home.slot == s; }
      if s in SlotsHeld(zs', -1) {
        var i: nat :| i < |zs'| && zs'[i].home.Shared? && zs'[i].home.slot == s;
        if i < |zs| { assert zs[i].home.slot == s; }
      }
    }
  }

  /** Zone i gives its slot back. */
  lemma SlotTieWithout(zs: seq<ZoneView>, pages: seq<BitmapPage>, homes: seq<array<bv64>>, lent: set<Slot>, i: nat)
    requires SlotsOk(zs) && SlotTie(zs, pages, homes, lent, -1) && i < |zs|
    ensures SlotTie(zs, pages, homes, lent - SlotSet(zs[i].home), i)
  {
    hide HomeOk, HomeTied;
    forall s ensures s in SlotsHeld(zs, i) <==> s in lent && s !in SlotSet(zs[i].home) {
      if s in SlotsHeld(zs, i) {
        var j: nat :| j < |zs| && j != i && zs[j].home.Shared? && zs[j].home.slot == s;
        assert zs[j].home == Shared(s);
      }
    }
  }

  lemma SlotTieExcept(zs: seq<ZoneView>, w: ZoneView, pages: seq<BitmapPage>, homes: seq<array<bv64>>, lent: set<Slot>,
                      i: nat)
    requires SlotTie(zs, pages, homes, lent, i) && i < |zs|
    ensures lent == SlotsHeld(zs, i) && SlotTie(zs[i := w], pages, homes, lent, i)
  {
    hide HomeTied;
    var zs' := zs[i := w];
    forall s ensures s in SlotsHeld(zs', i) <==> s in lent {
      if s in lent {
        var j: nat :| j < |zs| && j != i && zs[j].home.Shared? && zs[j].home.slot == s;
        assert zs'[j].home.slot == s;
      }
      if s in SlotsHeld(zs', i) {
        var j: nat :| j < |zs'| && j != i && zs'[j].home.Shared? && zs'[j].home.slot == s;
        assert zs[j].home.slot == s;
      }
    }
  }

  /** Zone i is replaced. */
  lemma SlotTieReplace(zs: seq<ZoneView>, i: nat, v: ZoneView, pages: seq<BitmapPage>, homes: seq<array<bv64>>,
                       words: array<bv64>, lent: set<Slot>)
    requires SlotTie(zs, pages, homes, lent, i) && i < |zs| && HomeTied(pages, v.home, words)
    ensures SlotTie(zs[i := v], pages, homes[i := words], lent + SlotSet(v.home), -1)
  {
    hide HomeTied;
    var zs' := zs[i := v];
    forall s ensures s in SlotsHeld(zs', -1) <==> s in lent + SlotSet(v.home) {
      if s in lent {
        var j: nat :| j < |zs| && j != i && zs[j].home.Shared? && zs[j].home.slot == s;
        assert zs'[j].home.slot == s;
      }
      if s in SlotSet(v.home) { assert zs'[i].home.slot == s; }
      if s in SlotsHeld(zs', -1) {
        var j: nat :| j < |zs'| && zs'[j].home.Shared? && zs'[j].home.slot == s;
        if j != i { assert zs[j].home.slot == s; }
      }
    }
  }

  /** A zone's bitmap is none of the spare slots. */
  lemma HomeNotSpare(zs: seq<ZoneView>, pages: seq<BitmapPage>, homes: seq<array<bv64>>, lent: set<Slot>, except: int,
                     i: nat)
    requires SlotTie(zs, pages, homes, lent, except) && PagesShape(pages) && i < |zs| && i != except
    ensures homes[i] !in Spare(pages, lent)
  {
    hide SlotCount, UsableSlots;
    assert HomeTied(pages, zs[i].home, homes[i]);
    if homes[i] in Spare(pages, lent) {
      var k: nat, z: nat :| k < |pages| && z < |pages[k].slots| && Slot(pages[k].bucket, z) !in lent
                            && pages[k].slots[z] == homes[i];
      var t := Slot(pages[k].bucket, z);
      assert homes[i] in AllSlots(pages) && IsSlot(pages, t);
      SlotsDistinct(pages, zs[i].home.slot, t);
    }
  }

  lemma StorageShrinks(pages: seq<BitmapPage>, lent: set<Slot>, home: Home, words: array<bv64>)
    requires PagesOk(pages, lent + SlotSet(home)) && HomeTied(pages, home, words)
    ensures forall o: object :: o in Storage(pages, lent + SlotSet(home)) ==> o in Storage(pages, lent)
    ensures home.Shared? ==> words !in Storage(pages, lent + SlotSet(home))
  {
    hide Marked, Blank, SlotCount, UsableSlots;
  }

  lemma StorageGrows(pages: seq<BitmapPage>, lent: set<Slot>)
    requires PagesOk(pages, lent)
    ensures forall o: object :: o in Storage(pages, lent) ==>
      o is BitmapPage || (o in AllSlots(pages) && o is array<bv64> && (o as array<bv64>).Length <= 128)
    ensures forall k: nat :: k < |pages| ==> pages[k] as object in Storage(pages, lent)
  {
    hide Marked, Blank, SlotCount, UsableSlots;
  }

  lemma StorageReturned(zs: seq<ZoneView>, pages: seq<BitmapPage>, homes: seq<array<bv64>>, lent: set<Slot>, i: nat)
    requires PagesOk(pages, lent) && SlotTie(zs, pages, homes, lent, -1) && i < |zs|
    ensures forall o: object :: o in Storage(pages, lent - SlotSet(zs[i].home)) ==>
      o in Storage(pages, lent) || o == homes[i]
  {
    hide Marked, Blank, SlotCount, UsableSlots;
    assert HomeTied(pages, zs[i].home, homes[i]);
  }

  /** Once zone i has given its slot back there is one for its size. */
  lemma StillShared(zs: seq<ZoneView>, pages: seq<BitmapPage>, homes: seq<array<bv64>>, lent: set<Slot>, i: nat)
    requires SlotsOk(zs) && SlotTie(zs, pages, homes, lent, -1) && i < |zs| && zs[i].home.Shared?
    ensures IsChunkSize(zs[i].chunkSize) && !NoSlot(pages, BitmapSize(zs[i].chunkSize), SlotsHeld(zs, i))
  {
    hide BitmapSize, UsableSlots;
    assert HomeTied(pages, zs[i].home, homes[i]) && HomeOk(zs[i]);
    assert zs[i].home.slot !in SlotsHeld(zs, i);
  }

  /** What was claimed suits the zones. */
  lemma HomeIsFit(zs: seq<ZoneView>, v: ZoneView, held: set<Slot>, except: int)
    requires held == SlotsHeld(zs, except) && IsChunkSize(v.chunkSize)
    requires v.home.Shared? ==>
      && SlotFits(v.home.slot) && v.home.slot.bytes == BitmapSize(v.chunkSize) && v.home.slot !in held
      && forall n: nat :: n < v.home.slot.number ==> v.home.slot.(number := n) in held
    ensures HomeFits(zs, v, except)
  {
  }

  lemma TieHeld(zs: seq<ZoneView>, pages: seq<BitmapPage>, homes: seq<array<bv64>>, lent: set<Slot>, except: int)
    requires SlotTie(zs, pages, homes, lent, except)
    ensures lent == SlotsHeld(zs, except) && |homes| == |zs|
  {
  }

  /** The slot a zone records is lent to it. */
  lemma HomeLent(zs: seq<ZoneView>, pages: seq<BitmapPage>, homes: seq<array<bv64>>, lent: set<Slot>, i: nat)
    requires SlotTie(zs, pages, homes, lent, -1) && i < |zs| && zs[i].home.Shared?
    ensures zs[i].home.slot in lent && IsSlot(pages, zs[i].home.slot) && homes[i] == SlotArray(pages, zs[i].home.slot)
  {
    assert HomeTied(pages, zs[i].home, homes[i]);
  }

  /** The bitmap of a new zone: a slot of a shared page or, exactly if there is none for
      its size, pages of its own. */
  method ClaimHome(pages: seq<BitmapPage>, bytes: nat, ghost lent: set<Slot>)
    returns (words: array<bv64>, idx: int, ghost home: Home)
    requires PagesOk(pages, lent)
    modifies PageRecords(pages)
    ensures words.Length == bytes / 8 && AllZero(words) && HomeTied(pages, home, words)
    ensures home == if idx < 0 then OwnPages else Shared(Slot(bytes, idx))
    ensures home.OwnPages? <==> NoSlot(pages, bytes, lent)
    ensures if home.OwnPages? then fresh(words) else words in Spare(pages, lent)
    ensures home.Shared? ==> SlotFits(home.slot) && home.slot !in lent
    ensures home.Shared? ==> forall n: nat :: n < home.slot.number ==> home.slot.(number := n) in lent
    ensures PagesOk(pages, lent + SlotSet(home))
  {
    hide Bit, Marked, SlotCount, UsableSlots;
    var found;
    idx, found := ClaimSlot(pages, bytes, lent);
    if found == null {
      words := new bv64[bytes / 8](_ => 0);
      home := OwnPages;
      assert lent + SlotSet(home) == lent;
    } else {
      words := found;
      home := Shared(Slot(bytes, idx));
    }
  }

  // ------------------------------------------------ what lies behind a zone's bitmap

  function NextSlotOf(s: Slot): Slot {
    s.(number := s.number + 1)
  }

  /** The slot is followed by another one of its page. */
  predicate HasNext(s: Slot) {
    IsBucket(s.bytes) && s.number + 1 < SlotCount(s.bytes)
  }

  /** The high bit of the first chunk of whatever follows the bitmap of zone i: of the zone
      in the next slot, if there is one. Behind the last slot of a page it is foreign, and
      a bitmap on pages of its own is followed by zeroes. */
  ghost predicate StrayBit(zs: seq<ZoneView>, i: nat, foreign: bool)
    requires i < |zs|
  {
    && zs[i].home.Shared?
    && if HasNext(zs[i].home.slot) then Neighboured(zs, zs[i].home.slot) else foreign
  }

  ghost predicate Neighboured(zs: seq<ZoneView>, s: Slot) {
    exists j: nat :: j < |zs| && zs[j].home == Shared(NextSlotOf(s)) && zs[j].states != [] && HasCanary(zs[j].states[0])
  }

  /** The first qword of the next slot shows that bit. */
  lemma NextShows(zs: seq<ZoneView>, pages: seq<BitmapPage>, homes: seq<array<bv64>>, lent: set<Slot>, i: nat)
    requires SlotsOk(zs) && SlotTie(zs, pages, homes, lent, -1) && PagesOk(pages, lent)
    requires i < |zs| && zs[i].home.Shared? && HasNext(zs[i].home.slot)
    requires forall j: nat :: j < |zs| ==> zs[j].states == Decode(homes[j][..])
    ensures IsSlot(pages, NextSlotOf(zs[i].home.slot)) && SlotArray(pages, NextSlotOf(zs[i].home.slot)).Length > 0
    ensures Bit(SlotArray(pages, NextSlotOf(zs[i].home.slot))[0], 1) <==> Neighboured(zs, zs[i].home.slot)
  {
    hide HomeOk, Bit, Decode, UsableSlots;
    var s := NextSlotOf(zs[i].home.slot);
    assert HomeTied(pages, zs[i].home, homes[i]);
    var k := PageOf(s.bytes);
    var words := SlotArray(pages, s);
    if s in lent {
      var j: nat :| j < |zs| && zs[j].home.Shared? && zs[j].home.slot == s;
      assert HomeTied(pages, zs[j].home, homes[j]);
      FreeChunkBits(words[..], 0);
      assert words[..][0] == words[0];
    } else {
      assert AllZero(pages[k].slots[s.number]);
      ZeroHasNoBit(1);
      forall j: nat | j < |zs| ensures zs[j].home != Shared(s) {}
    }
  }
}
