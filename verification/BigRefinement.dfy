// The linked-list code of the big zones carries out the steps of the protocol: each
// critical section is one step, so what holds of every interleaving of steps holds of it.
module BigRefinement {
  import opened Sequences
  import opened Geometry
  import opened BigProtocol
  import opened BigZones
  import opened AddressSpaces
  import opened RootState

  /** What the two lists hold; records are named by the address they are stored at. */
  datatype Image = Image(freeNames: seq<nat>, freeRecs: seq<Rec>, usedNames: seq<nat>, usedRecs: seq<Rec>,
                         freeCount: int, usedCount: int)

  ghost function Names(zs: seq<BigZone>): (ids: seq<nat>)
    ensures |ids| == |zs| && forall k: nat :: k < |zs| ==> ids[k] == zs[k].addr
  {
    seq(|zs|, k requires 0 <= k < |zs| => zs[k].addr)
  }

  ghost function ImageOf(lists: BigLists): Image
    reads lists, lists.free, lists.used
  {
    Image(Names(lists.free), Recs(lists.free), Names(lists.used), Recs(lists.used), lists.freeCount, lists.usedCount)
  }

  ghost predicate ListShown(s: State, names: seq<nat>, recs: seq<Rec>) {
    |recs| == |names| && forall k: nat :: k < |names| ==> names[k] in s.recs && s.recs[names[k]] == recs[k]
  }

  /** The lists in memory are the lists of the protocol state. */
  ghost predicate Shown(s: State, m: Image) {
    && s.freeList == m.freeNames && s.usedList == m.usedNames
    && s.freeCount == m.freeCount && s.usedCount == m.usedCount
    && ListShown(s, m.freeNames, m.freeRecs) && ListShown(s, m.usedNames, m.usedRecs)
  }

  /** A record in a thread's hands shows the fields of its object. */
  ghost predicate Same(s: State, z: BigZone)
    reads z
  {
    z.addr in s.recs && s.recs[z.addr] == z.Seen()
  }

  lemma ListShownElsewhere(s: State, s': State, names: seq<nat>, recs: seq<Rec>, id: nat)
    requires ListShown(s, names, recs) && id !in names
    requires forall x :: x in s.recs && x != id ==> x in s'.recs && s'.recs[x] == s.recs[x]
    ensures ListShown(s', names, recs)
  {
    assert forall k: nat :: k < |names| ==> names[k] in names;
  }

  lemma ListShownWithout(s: State, names: seq<nat>, recs: seq<Rec>, k: nat)
    requires ListShown(s, names, recs) && k < |names|
    ensures ListShown(s, Without(names, k), Without(recs, k))
  {
  }

  lemma ListShownPush(s: State, names: seq<nat>, recs: seq<Rec>, id: nat, rec: Rec)
    requires ListShown(s, names, recs) && id in s.recs && s.recs[id] == rec
    ensures ListShown(s, [id] + names, [rec] + recs)
  {
  }

  // -------------------------------------------------------- the free-list section

  function ImageTaken(m: Image, k: nat): Image
    requires k < |m.freeNames| && k < |m.freeRecs|
  {
    m.(freeNames := Without(m.freeNames, k), freeRecs := Without(m.freeRecs, k), freeCount := m.freeCount - 1)
  }

  lemma NamesWithout(was: seq<BigZone>, k: nat)
    requires k < |was|
    ensures Names(Without(was, k)) == Without(Names(was), k)
  {
    var now := Without(was, k);
    forall j: nat | j < |now| ensures now[j].addr == Without(Names(was), k)[j] {
      assert now[j] == if j < k then was[j] else was[j + 1];
    }
  }

  /** Records at other places in the lists are other records. */
  lemma OtherRecords(lists: BigLists, k: nat)
    requires lists.Shape() && k < |lists.free|
    ensures forall j: nat :: j < |lists.free| && j != k ==> lists.free[j] != lists.free[k]
    ensures forall j: nat :: j < |lists.used| ==> lists.used[j] !in lists.free
    ensures lists.free[k] !in lists.used
  {
    hide Linked;
    forall j: nat | j < |lists.used| ensures lists.used[j] !in lists.free { assert lists.used[j] in lists.used; }
  }

  method TakeImage(lists: BigLists, size: nat) returns (big: BigZone?, ghost k: int, aborted: bool)
    requires lists.Shape()
    modifies lists`freeHead, lists`freeCount, lists`free, lists.free`next, lists.free`free
    ensures lists.Shape() && aborted == old(lists.SearchAborts(size))
    ensures k == FirstFit(old(ImageOf(lists)).freeRecs, size)
    ensures !aborted && k < 0 ==> big == null && ImageOf(lists) == old(ImageOf(lists))
    ensures !aborted && k >= 0 ==> big != null && big.addr == old(ImageOf(lists)).freeNames[k]
    ensures !aborted && k >= 0 ==> big !in lists.free && big !in lists.used && big in old(lists.free)
    ensures !aborted ==> forall z :: z in lists.free ==> z in old(lists.free)
    ensures !aborted && k >= 0 ==> big.Seen() == old(ImageOf(lists)).freeRecs[k].(free := false)
    ensures !aborted && k >= 0 ==> ImageOf(lists) == ImageTaken(old(ImageOf(lists)), k)
  {
    hide FirstFit, BigLists.Shape, BigLists.SearchAborts, Fits, Without;
    ghost var m, free, used := ImageOf(lists), lists.free, lists.used;
    k := FirstFit(m.freeRecs, size);
    if k >= 0 { OtherRecords(lists, k); }
    big, k, aborted := lists.TakeFree(size);
    if !aborted && k >= 0 {
      RecsSame(used, m.usedRecs);
      RecsWithout(free, m.freeRecs, k);
      NamesWithout(free, k);
    }
  }

  lemma RecsOfShown(s: State, m: Image)
    requires Shown(s, m)
    ensures (forall k: nat :: k < |s.freeList| ==> s.freeList[k] in s.recs) && RecsOf(s, s.freeList) == m.freeRecs
  {
  }

  lemma WorkShown(s: State, s': State, m: Image)
    requires Shown(s, m) && s' == s.(work := s'.work)
    ensures Shown(s', m)
  {
  }

  lemma TakenShown(s: State, t: nat, m: Image, k: nat, size: nat)
    requires Inv(s) && Shown(s, m) && k < |m.freeNames|
    ensures s.freeList[k] in s.recs && Shown(Taken(s, t, k, size), ImageTaken(m, k))
  {
    hide RecOk, WorkOk, MappingsApart, OwnersOk, CountsOk, Without;
    assert |m.freeRecs| == |m.freeNames|;
    hide ListShown;
    var id := s.freeList[k];
    assert id in s.freeList && s.place[id] == OnFree;
    WithoutFacts(s.freeList, k);
    ListShownWithout(s, m.freeNames, m.freeRecs, k);
    var s' := Taken(s, t, k, size);
    ListShownElsewhere(s, s', Without(m.freeNames, k), Without(m.freeRecs, k), id);
    ListShownElsewhere(s, s', m.usedNames, m.usedRecs, id);
  }

  /** In a good state the walk aborts exactly at a damaged record. */
  ghost predicate VisitsDamage(lists: BigLists, size: nat)
    reads lists, lists.free
  {
    exists j: nat :: j < Walked(Recs(lists.free), size) && !lists.free[j].CanaryOk(lists.secret)
  }

  lemma AbortsAtDamage(lists: BigLists, s: State, size: nat)
    requires Inv(s) && Shown(s, ImageOf(lists))
    ensures lists.SearchAborts(size) <==> VisitsDamage(lists, size)
  {
    hide WorkOk, MappingsApart, OwnersOk, FirstFit, BigZone.CanaryOk, RecOk;
    forall j: nat | j < |lists.free| ensures lists.free[j].free {
      assert s.freeList[j] in s.freeList;
      RecFlag(s, s.freeList[j]);
    }
    if VisitsDamage(lists, size) {
      var j: nat :| j < Walked(Recs(lists.free), size) && !lists.free[j].CanaryOk(lists.secret);
      assert !lists.Sound(lists.free[j]);
    }
  }

  /** The free-list section of _iso_big_alloc takes the StartAlloc step. It aborts exactly
      when it visits a damaged record. */
  method AllocSection(lists: BigLists, size: nat, ghost s: State, ghost t: nat)
    returns (big: BigZone?, aborted: bool, ghost s': State)
    requires lists.Shape() && Inv(s) && Shown(s, ImageOf(lists)) && t !in s.work && BigSize(size)
    requires size % PAGE_SIZE == 0
    modifies lists`freeHead, lists`freeCount, lists`free, lists.free`next, lists.free`free
    ensures lists.Shape() && aborted == old(VisitsDamage(lists, size))
    ensures !aborted ==> Step(s, t, StartAlloc(size), s') && Inv(s') && Shown(s', ImageOf(lists)) && t in s'.work
    ensures !aborted && big == null ==> s'.work[t] == Waiting(size)
    ensures !aborted && big != null ==> s'.work[t] == Publishing(big.addr, size, true) && Same(s', big)
    ensures !aborted && big != null ==> big !in lists.free && big !in lists.used && big in old(lists.free)
    ensures !aborted ==> forall z :: z in lists.free ==> z in old(lists.free)
  {
    hide Inv, FirstFit, BigLists.Shape, BigLists.SearchAborts, VisitsDamage, ImageOf, Without, ListShown, Fits;
    ghost var m := ImageOf(lists);
    AbortsAtDamage(lists, s, size);
    RecsOfShown(s, m);
    ghost var k;
    big, k, aborted := TakeImage(lists, size);
    s' := s.(work := s.work[t := Waiting(size)]);
    if !aborted {
      if k >= 0 {
        TakenShown(s, t, m, k, size);
        s' := Taken(s, t, k, size);
      } else {
        WorkShown(s, s', m);
      }
      StepKeeps(s, t, StartAlloc(size), s');
    }
  }

  // -------------------------------------------------------- the used-list sections

  function ImagePushed(m: Image, id: nat, rec: Rec): Image {
    m.(usedNames := [id] + m.usedNames, usedRecs := [rec] + m.usedRecs, usedCount := m.usedCount + 1)
  }

  method PushImage(lists: BigLists, big: BigZone, reused: bool)
    requires lists.Shape() && big !in lists.free && big !in lists.used
    modifies lists`usedHead, lists`usedCount, lists`used, big`next, big`ttl
    ensures lists.Shape() && big.Seen() == old(big.Seen()).(ttl := old(big.ttl) + if reused then 1 else 0)
    ensures lists.used == [big] + old(lists.used)
    ensures ImageOf(lists) == ImagePushed(old(ImageOf(lists)), big.addr, big.Seen())
  {
    hide BigLists.Shape;
    ghost var m, free, used := ImageOf(lists), lists.free, lists.used;
    lists.PushUsed(big, reused);
    assert forall j: nat :: j < |free| ==> free[j] in free;
    assert forall j: nat :: j < |used| ==> used[j] in used;
    RecsSame(free, m.freeRecs);
    RecsSame(lists.used, [big.Seen()] + m.usedRecs);
    assert Names(lists.used) == [big.addr] + m.usedNames;
  }

  lemma PublishedShown(s: State, t: nat, m: Image, rec: Rec)
    requires Inv(s) && Shown(s, m) && t in s.work && s.work[t].Publishing? && s.work[t].id in s.recs
    requires s.work[t].id in s.served
    requires var was := s.recs[s.work[t].id]; rec == if s.work[t].reused then was.(ttl := was.ttl + 1) else was
    ensures Shown(Published(s, t), ImagePushed(m, s.work[t].id, rec))
  {
    hide Inv, ListShown;
    var id, s' := s.work[t].id, Published(s, t);
    HeldUnlisted(s, t);
    ListShownElsewhere(s, s', m.freeNames, m.freeRecs, id);
    ListShownElsewhere(s, s', m.usedNames, m.usedRecs, id);
    ListShownPush(s', m.usedNames, m.usedRecs, id, rec);
  }

  lemma HeldFacts(s: State, t: nat)
    requires Inv(s) && t in s.work && !s.work[t].Waiting?
    ensures s.work[t].id in s.recs && s.work[t].id in s.served && !s.recs[s.work[t].id].free
  {
    hide MappingsApart, OwnersOk, CountsOk, ListOk, RecOk, WorkOk;
    WorkPlace(s, t);
    RecHolder(s, s.work[t].id);
    RecFlag(s, s.work[t].id);
  }

  /** The used-list section of _iso_big_alloc takes the Publish step. */
  method PublishSection(lists: BigLists, big: BigZone, reused: bool, ghost s: State, ghost t: nat)
    returns (ghost s': State)
    requires lists.Shape() && Inv(s) && Shown(s, ImageOf(lists)) && big !in lists.free && big !in lists.used
    requires t in s.work && s.work[t].Publishing? && s.work[t].id == big.addr && s.work[t].reused == reused
    requires Same(s, big)
    modifies lists`usedHead, lists`usedCount, lists`used, big`next, big`ttl
    ensures lists.Shape() && Step(s, t, Publish, s') && Inv(s') && Shown(s', ImageOf(lists))
    ensures s'.owner == s.owner[big.addr := t] && lists.used == [big] + old(lists.used)
  {
    hide Inv, BigLists.Shape, ImageOf, Shown;
    ghost var m := ImageOf(lists);
    HeldFacts(s, t);
    PushImage(lists, big, reused);
    s' := Published(s, t);
    PublishedShown(s, t, m, big.Seen());
    StepKeeps(s, t, Publish, s');
  }

  function ImageUnlinked(m: Image, k: nat): Image
    requires k < |m.usedNames| && k < |m.usedRecs|
  {
    m.(usedNames := Without(m.usedNames, k), usedRecs := Without(m.usedRecs, k), usedCount := m.usedCount - 1)
  }

  lemma UsedNotFree(lists: BigLists, k: nat)
    requires lists.Shape() && k < |lists.used|
    ensures lists.used[k] !in lists.free
  {
    hide Linked, Distinct;
  }

  method FindImage(lists: BigLists, p: nat) returns (big: BigZone?, ghost k: nat, aborted: bool)
    requires lists.Shape()
    modifies lists`usedHead, lists`usedCount, lists`used, lists.used`next
    ensures lists.Shape() && k == old(StopAt(lists.used, 0, p, lists.secret)) <= |old(lists.used)|
    ensures aborted <==> k < |old(lists.used)| && !old(lists.Named(k, p))
    ensures !aborted ==> (big == null <==> k == |old(lists.used)|)
    ensures aborted || big == null ==> big == null && ImageOf(lists) == old(ImageOf(lists))
    ensures !aborted && big != null ==> k < |old(ImageOf(lists)).usedNames|
    ensures !aborted && big != null ==>
      big.addr == old(ImageOf(lists)).usedNames[k] && big.Seen() == old(ImageOf(lists)).usedRecs[k]
    ensures !aborted && big != null ==>
      big.start == p && big !in lists.free && big !in lists.used && big in old(lists.used)
    ensures forall z :: z in lists.used ==> z in old(lists.used)
    ensures !aborted && big != null ==> ImageOf(lists) == ImageUnlinked(old(ImageOf(lists)), k)
  {
    hide BigLists.Shape, BigZone.CanaryOk, StopAt, Without;
    ghost var m, free, used := ImageOf(lists), lists.free, lists.used;
    k := StopAt(used, 0, p, lists.secret);
    if k < |used| { UsedNotFree(lists, k); }
    big, k, aborted := lists.FindBigZone(p, true);
    RecsSame(free, m.freeRecs);
    if !aborted && big != null {
      RecsWithout(used, m.usedRecs, k);
      NamesWithout(used, k);
    } else {
      RecsSame(used, m.usedRecs);
    }
  }

  lemma UnlinkedShown(s: State, t: nat, m: Image, k: nat, permanent: bool)
    requires Shown(s, m) && k < |m.usedNames|
    ensures k < |m.usedRecs| && Shown(Unlinked(s, t, k, permanent), ImageUnlinked(m, k))
  {
    hide Without;
    ListShownWithout(s, m.usedNames, m.usedRecs, k);
    var s' := Unlinked(s, t, k, permanent);
    assert s'.recs == s.recs;
    assert ListShown(s', Without(m.usedNames, k), Without(m.usedRecs, k));
  }

  /** iso_find_big_zone with removal takes the StartFree step when p is the start of a used
      mapping. It aborts exactly at a damaged record or inside a mapping. */
  method FreeSection(lists: BigLists, p: nat, ghost s: State, ghost t: nat, ghost permanent: bool)
    returns (big: BigZone?, ghost k: nat, aborted: bool, ghost s': State)
    requires lists.Shape() && Inv(s) && Shown(s, ImageOf(lists)) && t !in s.work
    modifies lists`usedHead, lists`usedCount, lists`used, lists.used`next
    ensures lists.Shape() && k == old(StopAt(lists.used, 0, p, lists.secret)) <= |old(lists.used)|
    ensures aborted <==> k < |old(lists.used)| && !old(lists.Named(k, p))
    ensures !aborted ==> (big == null <==> k == |old(lists.used)|)
    ensures aborted || big == null ==> big == null && s' == s && Shown(s, ImageOf(lists))
    ensures !aborted && big != null ==> Step(s, t, StartFree(p, permanent), s') && Inv(s') && Shown(s', ImageOf(lists))
    ensures !aborted && big != null ==> t in s'.work && s'.work[t] == Retiring(big.addr, permanent) && Same(s', big)
    ensures !aborted && big != null ==> big !in lists.free && big !in lists.used && big in old(lists.used)
    ensures forall z :: z in lists.used ==> z in old(lists.used)
  {
    hide Inv, BigLists.Shape, BigLists.Named, StopAt, Without, ImageOf;
    ghost var m := ImageOf(lists);
    big, k, aborted := FindImage(lists, p);
    s' := s;
    if !aborted && big != null {
      UnlinkedShown(s, t, m, k, permanent);
      s' := Unlinked(s, t, k, permanent);
      assert NamedBy(s, k, p);
      StepKeeps(s, t, StartFree(p, permanent), s');
    }
  }

  // ----------------------------------------------------------------- retirement

  function ImageParked(m: Image, id: nat, rec: Rec): Image {
    m.(freeNames := [id] + m.freeNames, freeRecs := [rec] + m.freeRecs, freeCount := m.freeCount + 1)
  }

  method ParkImage(lists: BigLists, big: BigZone, permanent: bool) returns (place: Place, aborted: bool)
    requires lists.Shape() && big !in lists.free && big !in lists.used
    modifies lists`freeHead, lists`freeCount, lists`free, big`next, big`free
    ensures lists.Shape() && aborted == old(big.free)
    ensures !aborted ==> (place == OnFree <==> Reusable(old(big.Seen()), old(ImageOf(lists)).freeCount, permanent))
    ensures !aborted ==> (place == OnFree <==> !permanent && old(lists.freeCount) < 64 && old(big.ttl) < 16)
    ensures !aborted && place != OnFree ==>
      place == (if permanent then Sealed else Gone) && ImageOf(lists) == old(ImageOf(lists))
    ensures lists.free == if !aborted && place == OnFree then [big] + old(lists.free) else old(lists.free)
    ensures !aborted && place == OnFree ==>
      ImageOf(lists) == ImageParked(old(ImageOf(lists)), big.addr, old(big.Seen()).(free := true))
  {
    hide BigLists.Shape;
    ghost var m, free, used := ImageOf(lists), lists.free, lists.used;
    assert forall j: nat :: j < |free| ==> free[j] in free;
    assert forall j: nat :: j < |used| ==> used[j] in used;
    place, aborted := lists.FreeBigZone(big, permanent);
    if !aborted {
      RecsSame(used, m.usedRecs);
      RecsSame(free, m.freeRecs);
      if place == OnFree {
        RecsSame(lists.free, [big.Seen()] + m.freeRecs);
        assert Names(lists.free) == [big.addr] + m.freeNames;
      }
    }
  }

  lemma ParkedShown(s: State, t: nat, m: Image)
    requires Inv(s) && Shown(s, m) && t in s.work && s.work[t].Retiring? && s.work[t].id in s.recs
    ensures Shown(Parked(s, t), ImageParked(m, s.work[t].id, s.recs[s.work[t].id].(free := true)))
  {
    hide Inv, ListShown;
    var id, s' := s.work[t].id, Parked(s, t);
    HeldUnlisted(s, t);
    ListShownElsewhere(s, s', m.freeNames, m.freeRecs, id);
    ListShownElsewhere(s, s', m.usedNames, m.usedRecs, id);
    ListShownPush(s', m.freeNames, m.freeRecs, id, s.recs[id].(free := true));
  }

  lemma DroppedShown(s: State, t: nat, m: Image)
    requires Shown(s, m) && t in s.work && s.work[t].Retiring?
    ensures Shown(Dropped(s, t), m)
  {
  }

  /** iso_free_big_zone takes the Finish step; its double-free abort cannot fire. */
  method FinishSection(lists: BigLists, big: BigZone, permanent: bool, ghost s: State, ghost t: nat)
    returns (place: Place, aborted: bool, ghost s': State)
    requires lists.Shape() && Inv(s) && Shown(s, ImageOf(lists)) && big !in lists.free && big !in lists.used
    requires t in s.work && s.work[t] == Retiring(big.addr, permanent) && Same(s, big)
    modifies lists`freeHead, lists`freeCount, lists`free, big`next, big`free
    ensures lists.Shape() && !aborted && Step(s, t, Finish, s') && Inv(s') && Shown(s', ImageOf(lists))
    ensures big.addr in s'.place && s'.place[big.addr] == place
    ensures lists.free == if place == OnFree then [big] + old(lists.free) else old(lists.free)
  {
    hide Inv, BigLists.Shape, ImageOf, ListShown, Reusable;
    ghost var m := ImageOf(lists);
    HeldFacts(s, t);
    place, aborted := ParkImage(lists, big, permanent);
    if place == OnFree {
      ParkedShown(s, t, m);
      s' := Parked(s, t);
    } else {
      DroppedShown(s, t, m);
      s' := Dropped(s, t);
    }
    StepKeeps(s, t, Finish, s');
  }

  // ---------------------------------------------------------------- new mappings

  /** The pages of every mapping that was not unmapped, and of its record, are known to the
      kernel; no two records share a page. */
  ghost predicate Backed(s: State, mapped: set<Mapping>) {
    && (forall id :: Alive(s, id) ==>
          Mapping(s.recs[id].start, s.recs[id].size) in mapped && Mapping(MetaPage(id), PAGE_SIZE) in mapped)
    && (forall i, j :: Alive(s, i) && Alive(s, j) && i != j ==> MetaPage(i) != MetaPage(j))
  }

  lemma MappedShown(s: State, t: nat, id: nat, start: nat, m: Image)
    requires Inv(s) && Shown(s, m) && t in s.work && s.work[t].Waiting? && NewName(s, id)
    ensures Shown(Mapped(s, t, id, start), m)
  {
    hide RecOk, WorkOk, MappingsApart, OwnersOk, CountsOk, Distinct;
    var s' := Mapped(s, t, id, start);
    assert id !in m.freeNames && id !in m.usedNames;
    ListShownElsewhere(s, s', m.freeNames, m.freeRecs, id);
    ListShownElsewhere(s, s', m.usedNames, m.usedRecs, id);
  }

  lemma UnmappedIsFresh(s: State, start: nat, size: nat, mapped: set<Mapping>)
    requires Backed(s, mapped) && Unmapped(start, size, mapped) && start % PAGE_SIZE == 0
    ensures FreshPages(s, start, size)
  {
    hide Apart, MetaPage;
    forall id | Alive(s, id) ensures Apart(start, size, s.recs[id].start, s.recs[id].size) {
      assert Mapping(s.recs[id].start, s.recs[id].size) in mapped;
    }
  }

  /** A record on new pages lies where no record is. */
  lemma UnmappedIsNewName(s: State, addr: nat, mapped: set<Mapping>)
    requires Inv(s) && Backed(s, mapped) && Unmapped(MetaPage(addr), PAGE_SIZE, mapped)
    ensures NewName(s, addr)
  {
    hide MetaPage, RecOk, WorkOk, MappingsApart, OwnersOk, CountsOk, ListOk;
    assert Alive(s, addr) ==> Mapping(MetaPage(addr), PAGE_SIZE) in mapped;
  }

  lemma BackedMore(s: State, t: nat, id: nat, start: nat, mapped: set<Mapping>, mapped': set<Mapping>)
    requires Backed(s, mapped) && t in s.work && s.work[t].Waiting?
    requires Unmapped(MetaPage(id), PAGE_SIZE, mapped)
    requires mapped' == mapped + {Mapping(start, s.work[t].size), Mapping(MetaPage(id), PAGE_SIZE)}
    ensures Backed(Mapped(s, t, id, start), mapped')
  {
    hide MetaPage;
    var s' := Mapped(s, t, id, start);
    forall j | Alive(s', j) && j != id ensures Alive(s, j) && MetaPage(j) != MetaPage(id) {
      assert Mapping(MetaPage(j), PAGE_SIZE) in mapped;
    }
  }

  /** The mmap calls of _iso_big_alloc take the Map step. */
  method MapSection(lists: BigLists, os: AddressSpace, size: nat, ghost s: State, ghost t: nat)
    returns (big: BigZone, ghost s': State)
    requires lists.Shape() && os.Valid() && Inv(s) && Shown(s, ImageOf(lists)) && Backed(s, os.mapped)
    requires t in s.work && s.work[t] == Waiting(size)
    modifies os
    ensures os.Valid() && fresh(big) && big.CanaryOk(lists.secret)
    ensures Step(s, t, Map(big.addr, big.start), s') && Inv(s') && Shown(s', ImageOf(lists)) && Backed(s', os.mapped)
    ensures t in s'.work && s'.work[t] == Publishing(big.addr, size, false) && Same(s', big)
    ensures s' == Mapped(s, t, big.addr, big.start) && old(os.mapped) <= os.mapped
    ensures Unmapped(big.start, size, old(os.mapped)) && Unmapped(MetaPage(big.addr), PAGE_SIZE, old(os.mapped))
  {
    hide Inv, BigLists.Shape, ImageOf, Shown, Backed, Unmapped, FreshPages, NewName, BigZone.CanaryOk, MetaPage;
    ghost var m, mapped := ImageOf(lists), os.mapped;
    big := lists.MapBig(os, size);
    s' := Mapped(s, t, big.addr, big.start);
    UnmappedIsFresh(s, big.start, size, mapped);
    UnmappedIsNewName(s, big.addr, mapped);
    MappedShown(s, t, big.addr, big.start, m);
    BackedMore(s, t, big.addr, big.start, mapped, os.mapped);
    StepKeeps(s, t, Map(big.addr, big.start), s');
  }
}
