// The big zones of one process: the two lists, the records in the hands of threads, and
// the mappings. Threads take their critical sections in any order.
module BigSystem {
  import opened Sequences
  import opened Geometry
  import opened RootState
  import opened AddressSpaces
  import opened BigProtocol
  import opened BigZones
  import opened BigRefinement

  // ------------------------------------------------- what a section leaves alone

  /** A section of one thread changes neither what another thread holds nor its record. */
  lemma OthersKeep(s: State, t: nat, e: Event, s': State, u: nat)
    requires Inv(s) && Step(s, t, e, s') && u != t
    ensures u in s'.work <==> u in s.work
    ensures u in s.work ==> s'.work[u] == s.work[u]
    ensures u in s.work && !s.work[u].Waiting? ==>
      s.work[u].id in s.recs && s.work[u].id in s'.recs && s'.recs[s.work[u].id] == s.recs[s.work[u].id]
  {
    hide Inv, FirstFit, FreshPages, Reusable, Without;
    OthersWork(s, t, e, s', u);
    if u in s.work && !s.work[u].Waiting? {
      HeldUnlisted(s, u);
      HeldFacts(s, u);
      if e.Publish? || e.Finish? { HeldUnlisted(s, t); }
    }
  }

  lemma OthersWork(s: State, t: nat, e: Event, s': State, u: nat)
    requires Step(s, t, e, s') && u != t
    ensures u in s'.work <==> u in s.work
    ensures u in s.work ==> s'.work[u] == s.work[u]
  {
    hide FirstFit, FreshPages, Reusable, Without, RecsOf;
  }

  /** No zone overlaps a mapping that is on a list or in a thread's hands, or the page of
      its record. */
  ghost predicate Beside(s: State, mapped: set<Mapping>, zones: set<nat>) {
    forall base :: base in zones ==>
      && base >= PAGE_SIZE && ZoneMapping(base) in mapped
      && forall id :: Alive(s, id) ==> ZoneApart(base, s.recs[id].start, s.recs[id].size, MetaPage(id))
  }

  predicate ZoneApart(base: nat, start: nat, size: nat, page: nat)
    requires base >= PAGE_SIZE
  {
    var z := ZoneMapping(base);
    Apart(z.start, z.size, start, size) && Apart(z.start, z.size, page, PAGE_SIZE)
  }

  ghost predicate Placed(s: State, mapped: set<Mapping>, zones: set<nat>) {
    Backed(s, mapped) && Beside(s, mapped, zones)
  }

  lemma PlacedSame(s: State, s': State, mapped: set<Mapping>, zones: set<nat>)
    requires Placed(s, mapped, zones)
    requires forall id :: Alive(s', id) ==>
      Alive(s, id) && s'.recs[id].start == s.recs[id].start && s'.recs[id].size == s.recs[id].size
    ensures Placed(s', mapped, zones)
  {
    hide MetaPage, ZoneApart;
  }

  /** Pages from mmap are beside every zone, and a new zone is beside everything alive. */
  lemma MappedBeside(s: State, t: nat, id: nat, start: nat, mapped: set<Mapping>, mapped': set<Mapping>,
                     zones: set<nat>)
    requires Beside(s, mapped, zones) && mapped <= mapped' && t in s.work && s.work[t].Waiting?
    requires Unmapped(start, s.work[t].size, mapped) && Unmapped(MetaPage(id), PAGE_SIZE, mapped)
    ensures Beside(Mapped(s, t, id, start), mapped', zones)
  {
    hide MetaPage;
    forall base | base in zones ensures ZoneApart(base, start, s.work[t].size, MetaPage(id)) {
      assert ZoneMapping(base) in mapped;
    }
  }

  lemma NewZoneBeside(s: State, mapped: set<Mapping>, zones: set<nat>, base: nat)
    requires Placed(s, mapped, zones) && base >= PAGE_SIZE
    requires forall m :: m in mapped ==> Apart(base - PAGE_SIZE, ZONE_USER_SIZE + 2 * PAGE_SIZE, m.start, m.size)
    ensures Placed(s, mapped + {ZoneMapping(base)}, zones + {base})
  {
    hide MetaPage, Apart;
    forall id | Alive(s, id) ensures ZoneApart(base, s.recs[id].start, s.recs[id].size, MetaPage(id)) {
      assert Mapping(s.recs[id].start, s.recs[id].size) in mapped && Mapping(MetaPage(id), PAGE_SIZE) in mapped;
    }
  }

  lemma DroppedZoneBeside(s: State, mapped: set<Mapping>, zones: set<nat>, base: nat)
    requires Inv(s) && Placed(s, mapped, zones) && base in zones
    ensures base >= PAGE_SIZE && Placed(s, mapped - {ZoneMapping(base)}, zones - {base})
  {
    hide MetaPage, WorkOk, OwnersOk, CountsOk, ListOk;
    forall id | Alive(s, id)
      ensures Mapping(s.recs[id].start, s.recs[id].size) != ZoneMapping(base)
      ensures Mapping(MetaPage(id), PAGE_SIZE) != ZoneMapping(base)
    {
      assert RecOk(s, id) && ZoneApart(base, s.recs[id].start, s.recs[id].size, MetaPage(id));
    }
  }

  /** Only the Map step makes a mapping alive, and no step moves one. */
  lemma StepKeepsPages(s: State, t: nat, e: Event, s': State, id: nat)
    requires Inv(s) && Step(s, t, e, s') && !e.Map? && Alive(s', id)
    ensures Alive(s, id) && s'.recs[id].start == s.recs[id].start && s'.recs[id].size == s.recs[id].size
  {
    hide Inv, RecOk, FirstFit, Reusable, Without, Distinct;
    StepPlaces(s, t, e, s', id);
  }

  lemma StepPlaces(s: State, t: nat, e: Event, s': State, id: nat)
    requires Inv(s) && Step(s, t, e, s') && !e.Map? && Alive(s', id)
    ensures Alive(s, id)
  {
    hide RecOk, MappingsApart, OwnersOk, CountsOk, FirstFit, Reusable, Without, Distinct;
  }

  lemma StepKeepsPlaced(s: State, t: nat, e: Event, s': State, mapped: set<Mapping>, zones: set<nat>)
    requires Inv(s) && Step(s, t, e, s') && !e.Map? && Placed(s, mapped, zones)
    ensures Placed(s', mapped, zones)
  {
    hide Inv, Step, Placed;
    forall id | Alive(s', id)
      ensures Alive(s, id) && s'.recs[id].start == s.recs[id].start && s'.recs[id].size == s.recs[id].size
    {
      StepKeepsPages(s, t, e, s', id);
    }
    PlacedSame(s, s', mapped, zones);
  }

  lemma ReachMore(acts: seq<Act>, s: State, t: nat, e: Event, s': State)
    requires Reach(EMPTY, acts, s) && Step(s, t, e, s')
    ensures Reach(EMPTY, acts + [Act(t, e)], s')
  {
    hide Step;
    assert Front(acts + [Act(t, e)]) == acts && Last(acts + [Act(t, e)]) == Act(t, e);
  }

  /** Unmapping the pages of a dropped record, and perhaps its own page, takes nothing
      from the others. */
  lemma UnmapsNothingElse(s: State, t: nat, s': State, mapped: set<Mapping>, gone: set<Mapping>, zones: set<nat>)
    requires Inv(s) && FinishStep(s, t, s') && s'.place[s.work[t].id] == Gone && Placed(s', mapped, zones)
    requires Alive(s, s.work[t].id) && Placed(s, mapped, zones)
    requires gone <= {Mapping(s.recs[s.work[t].id].start, s.recs[s.work[t].id].size),
                      Mapping(MetaPage(s.work[t].id), PAGE_SIZE)}
    ensures Placed(s', mapped - gone, zones)
  {
    hide MetaPage, WorkOk, OwnersOk, CountsOk, ListOk, Reusable;
    var id := s.work[t].id;
    forall j | Alive(s', j)
      ensures Mapping(s'.recs[j].start, s'.recs[j].size) !in gone && Mapping(MetaPage(j), PAGE_SIZE) !in gone
    {
      assert j != id && Alive(s, j) && RecOk(s, j) && RecOk(s, id);
    }
    forall base | base in zones ensures ZoneMapping(base) !in gone {
      assert RecOk(s, id) && ZoneApart(base, s.recs[id].start, s.recs[id].size, MetaPage(id));
    }
  }

  /** The record is thread t's, as the client at address p. */
  ghost predicate Given(s: State, t: nat, id: nat, p: nat) {
    id in s.recs && s.recs[id].start == p && id in s.owner && s.owner[id] == t
  }

  /** A mapping in use starts at p. */
  ghost predicate UsedAt(s: State, p: nat) {
    exists k: nat :: k < |s.usedList| && NamedBy(s, k, p)
  }

  /** p lies in a mapping in use, past its start. */
  ghost predicate Within(s: State, p: nat) {
    exists k: nat :: k < |s.usedList| && InnerOf(s, s.usedList[k], p)
  }

  ghost predicate InnerOf(s: State, id: nat, p: nat) {
    id in s.recs && s.recs[id].start < p < s.recs[id].start + s.recs[id].size
  }

  // ------------------------------------------------------------- records in hand

  /** What a thread sees of the record it works on. */
  datatype Hand = Hand(addr: nat, rec: Rec, intact: bool)

  /** The threads that hold a record hold, undamaged, the one the protocol says. */
  ghost predicate HandsOk(s: State, hands: map<nat, Hand>) {
    && (forall t :: t in hands <==> t in s.work && !s.work[t].Waiting?)
    && (forall t :: t in hands ==> HandOk(s, s.work[t], hands[t]))
  }

  ghost predicate HandOk(s: State, w: Work, hand: Hand)
    requires !w.Waiting?
  {
    w.id == hand.addr && hand.addr in s.recs && s.recs[hand.addr] == hand.rec && hand.intact
  }

  lemma IdleHoldsNone(s: State, hands: map<nat, Hand>, t: nat)
    requires HandsOk(s, hands) && t !in s.work
    ensures t !in hands
  {
  }

  lemma WorkMoves(s: State, t: nat, e: Event, s': State)
    requires Step(s, t, e, s')
    ensures s'.work == if t in s'.work then s.work[t := s'.work[t]] else s.work - {t}
  {
    hide Step;
    forall u | u != t ensures (u in s'.work <==> u in s.work) && (u in s.work ==> s'.work[u] == s.work[u]) {
      OthersWork(s, t, e, s', u);
    }
  }

  /** Two threads never hold one record. */
  lemma HandsApart(s: State, hands: map<nat, Hand>, t: nat, u: nat)
    requires Inv(s) && HandsOk(s, hands) && t in hands && u in hands && t != u
    ensures hands[t].addr != hands[u].addr
  {
    hide Inv;
    HeldUnlisted(s, t);
    HeldUnlisted(s, u);
  }

  /** A section keeps what the other threads have in hand. */
  lemma HandsKept(s: State, t: nat, e: Event, s': State, hands: map<nat, Hand>, hands': map<nat, Hand>)
    requires Inv(s) && Step(s, t, e, s') && HandsOk(s, hands) && hands' - {t} == hands - {t}
    requires t in hands' <==> t in s'.work && !s'.work[t].Waiting?
    requires t in hands' ==> HandOk(s', s'.work[t], hands'[t])
    ensures HandsOk(s', hands')
  {
    hide Inv, Step;
    forall u | u != t
      ensures u in hands' <==> u in s'.work && !s'.work[u].Waiting?
      ensures u in hands' ==> HandOk(s', s'.work[u], hands'[u])
    {
      OthersKeep(s, t, e, s', u);
      assert u in hands' <==> u in hands' - {t};
      assert u in hands <==> u in hands - {t};
      assert u in hands' ==> hands'[u] == (hands' - {t})[u] == (hands - {t})[u] == hands[u];
    }
  }

  // ---------------------------------------------------------------------- the system

  class System {
    const lists: BigLists
    const os: AddressSpace
    var work: map<nat, Work>         // what each thread is in the middle of
    var held: map<nat, BigZone>      // the record it is working on
    var zones: set<nat>              // where the user pages of the zones start
    ghost var s: State
    ghost var acts: seq<Act>         // the sections so far, in order
    ghost var records: set<BigZone>  // every record made so far

    /** The lists and the mappings are those of the protocol state, which some
        interleaving of sections leads to. */
    ghost predicate Core()
      reads this`s, this`acts, this`zones, lists, os, lists.free, lists.used
    {
      && lists.Shape() && os.Valid() && Inv(s) && Shown(s, ImageOf(lists))
      && Placed(s, os.mapped, zones) && Reach(EMPTY, acts, s)
    }

    ghost function Hands(): map<nat, Hand>
      reads this`held, held.Values
    {
      map t | t in held :: Hand(held[t].addr, held[t].Seen(), held[t].CanaryOk(lists.secret))
    }

    ghost predicate Known()
      reads this`records, lists
    {
      (forall z :: z in lists.free ==> z in records) && (forall z :: z in lists.used ==> z in records)
    }

    /** A record in a thread's hands is on no list. */
    ghost predicate OffLists()
      reads this`held, this`records, lists
    {
      Known() && forall t :: t in held ==> held[t] !in lists.free && held[t] !in lists.used && held[t] in records
    }

    /** Nothing has overwritten a listed record. */
    ghost predicate Undamaged()
      reads lists, lists.free, lists.used
    {
      && (forall z :: z in lists.free ==> z.CanaryOk(lists.secret))
      && (forall z :: z in lists.used ==> z.CanaryOk(lists.secret))
    }

    ghost predicate Valid()
      reads this, lists, os, lists.free, lists.used, held.Values
    {
      Core() && work == s.work && HandsOk(s, Hands()) && OffLists() && Undamaged()
    }

    constructor (secret: bv64)
      ensures Valid() && s == EMPTY && acts == [] && records == {} && fresh(lists) && fresh(os)
    {
      lists := new BigLists(secret);
      os := new AddressSpace();
      work, held, zones, s, acts, records := map[], map[], {}, EMPTY, [], {};
      new;
      EmptyOk();
    }

    method TakeFree(t: nat, size: nat) returns (big: BigZone?, aborted: bool)
      requires Core() && !VisitsDamage(lists, size) && t !in s.work && BigSize(size) && size % PAGE_SIZE == 0
      modifies lists`freeHead, lists`freeCount, lists`free, lists.free`next, lists.free`free, this`s, this`acts
      ensures !aborted && Core() && Inv(old(s)) && Step(old(s), t, Event.StartAlloc(size), s)
      ensures acts == old(acts) + [Act(t, Event.StartAlloc(size))] && t in s.work
      ensures big == null ==> s.work[t] == Waiting(size)
      ensures big != null ==> s.work[t] == Publishing(big.addr, size, true) && Same(s, big)
      ensures big != null ==> big !in lists.free && big !in lists.used && big in old(lists.free)
      ensures forall z :: z in lists.free ==> z in old(lists.free)
    {
      hide Inv, BigLists.Shape, ImageOf, Shown, Placed, Step, Reach, VisitsDamage;
      ghost var s0 := s;
      big, aborted, s := AllocSection(lists, size, s, t);
      StepKeepsPlaced(s0, t, Event.StartAlloc(size), s, os.mapped, zones);
      ReachMore(acts, s0, t, Event.StartAlloc(size), s);
      acts := acts + [Act(t, Event.StartAlloc(size))];
    }

    /** The same, seen from the other threads. */
    method TakeFreeBeside(t: nat, size: nat) returns (big: BigZone?, aborted: bool)
      requires Core() && OffLists() && Undamaged() && t !in s.work && BigSize(size) && size % PAGE_SIZE == 0
      modifies lists`freeHead, lists`freeCount, lists`free, lists.free`next, lists.free`free, this`s, this`acts
      ensures !aborted && Core() && Inv(old(s)) && Step(old(s), t, Event.StartAlloc(size), s)
      ensures acts == old(acts) + [Act(t, Event.StartAlloc(size))]
      ensures OffLists() && Undamaged() && Hands() == old(Hands())
      ensures big == null ==> t in s.work && s.work[t] == Waiting(size)
      ensures big != null ==> Received(t, big) && s.work[t] == Publishing(big.addr, size, true)
    {
      hide Core, Inv, Step, VisitsDamage, BigZone.CanaryOk;
      NoDamage(lists, size);
      big, aborted := TakeFree(t, size);
    }

    /** A record has come off a list and is thread t's. */
    ghost predicate Received(t: nat, big: BigZone)
      reads this`s, this`records, lists, big
    {
      && t in s.work && !s.work[t].Waiting?
      && HandOk(s, s.work[t], Hand(big.addr, big.Seen(), big.CanaryOk(lists.secret)))
      && big !in lists.free && big !in lists.used && big in records
    }

    method Hold(t: nat, big: BigZone, w: Work, ghost s0: State, ghost e: Event, ghost hands: map<nat, Hand>)
      requires work == s0.work && t in s.work && s.work[t] == w
      requires Core() && OffLists() && Undamaged() && HandsOk(s0, hands) && Inv(s0) && Step(s0, t, e, s)
      requires Hands() == hands && Received(t, big)
      modifies this`held, this`work
      ensures Valid() && held == old(held)[t := big]
    {
      hide Core, Inv, Step, HandsOk, HandOk, Undamaged, BigZone.CanaryOk;
      work, held := work[t := w], held[t := big];
      WorkMoves(s0, t, e, s);
      HandsKept(s0, t, e, s, hands, Hands());
    }

    method Await(t: nat, size: nat, ghost s0: State, ghost hands: map<nat, Hand>)
      requires work == s0.work && t !in work && t in s.work && s.work[t] == Waiting(size)
      requires Core() && OffLists() && Undamaged() && HandsOk(s0, hands) && Hands() == hands
      requires Inv(s0) && Step(s0, t, Event.StartAlloc(size), s)
      modifies this`work
      ensures Valid() && t !in held
    {
      hide Core, Inv, Step, HandsOk, HandOk, Undamaged, OffLists, BigZone.CanaryOk;
      IdleHoldsNone(s0, hands, t);
      assert t !in held;
      work := work[t := Waiting(size)];
      WorkMoves(s0, t, Event.StartAlloc(size), s);
      HandsKept(s0, t, Event.StartAlloc(size), s, hands, Hands());
    }

    /** The first section of _iso_big_alloc. It never aborts: no damaged record is met. */
    method StartAlloc(t: nat, size: nat) returns (found: bool, aborted: bool)
      requires Valid() && t !in work && BigSize(size) && size % PAGE_SIZE == 0
      modifies this, lists, records
      ensures records == old(records) && zones == old(zones)
      ensures !aborted && Valid() && Step(old(s), t, Event.StartAlloc(size), s)
      ensures acts == old(acts) + [Act(t, Event.StartAlloc(size))] && found == (t in held)
    {
      hide Core, Inv, Step, HandsOk, HandOk, Undamaged, Hands;
      ghost var s0, hands := s, Hands();
      var big;
      big, aborted := TakeFreeBeside(t, size);
      found := big != null;
      if big != null {
        Hold(t, big, Publishing(big.addr, size, true), s0, Event.StartAlloc(size), hands);
      } else {
        Await(t, size, s0, hands);
      }
    }

    // The zones, which are made and dropped under another lock

    /** The mmap of a new zone, at any time. */
    method MakeZone() returns (base: nat)
      requires Valid()
      modifies this`zones, os
      ensures Valid() && base >= PAGE_SIZE && zones == old(zones) + {base}
    {
      hide Core, Hands, HandsOk, OffLists, Undamaged;
      base := MapZone();
    }

    method MapZone() returns (base: nat)
      requires Core()
      modifies this`zones, os
      ensures Core() && base >= PAGE_SIZE && zones == old(zones) + {base}
    {
      hide Inv, BigLists.Shape, ImageOf, Shown, Placed, Reach, Apart;
      var m := os.Mmap(ZONE_USER_SIZE + 2 * PAGE_SIZE);
      base := m + PAGE_SIZE;
      NewZoneBeside(s, old(os.mapped), zones, base);
      zones := zones + {base};
    }

    /** The munmap of a destroyed zone. */
    method DropZone(base: nat)
      requires Valid() && base in zones
      modifies this`zones, os
      ensures Valid() && zones == old(zones) - {base}
    {
      hide Core, Hands, HandsOk, OffLists, Undamaged;
      UnmapZone(base);
    }

    method UnmapZone(base: nat)
      requires Core() && base in zones
      modifies this`zones, os
      ensures Core() && zones == old(zones) - {base}
    {
      hide Inv, BigLists.Shape, ImageOf, Shown, Placed, Reach;
      DroppedZoneBeside(s, os.mapped, zones, base);
      os.Munmap(ZoneMapping(base));
      zones := zones - {base};
    }

    /** A mapping in a thread's hands, between mmap and the used list or on its way from a
        list, lies apart from every zone, also from those made meanwhile. */
    lemma HandBesideZones(t: nat, base: nat)
      requires Valid() && t in held && base in zones
      ensures base >= PAGE_SIZE && Apart(held[t].start, held[t].size, base - PAGE_SIZE, ZONE_USER_SIZE + 2 * PAGE_SIZE)
    {
      hide Inv, BigLists.Shape, ImageOf, Shown, Backed, Reach, OffLists, Undamaged, BigZone.CanaryOk, MetaPage;
      assert t in Hands();
      HeldUnlisted(s, t);
    }

    // The mmap calls

    method MapPages(t: nat, size: nat) returns (big: BigZone)
      requires Core() && OffLists() && Undamaged() && t in s.work && s.work[t] == Waiting(size)
      modifies os, this`s, this`acts, this`records
      ensures records == old(records) + {big} && OffLists()
      ensures Core() && Inv(old(s)) && Step(old(s), t, Event.Map(big.addr, big.start), s)
      ensures acts == old(acts) + [Act(t, Event.Map(big.addr, big.start))] && fresh(big) && Received(t, big)
      ensures s.work[t] == Publishing(big.addr, size, false)
    {
      hide Inv, BigLists.Shape, ImageOf, Shown, Backed, Beside, Unmapped, Step, Reach, BigZone.CanaryOk;
      ghost var s0, mapped := s, os.mapped;
      big, s := MapSection(lists, os, size, s, t);
      MappedBeside(s0, t, big.addr, big.start, mapped, os.mapped, zones);
      ReachMore(acts, s0, t, Event.Map(big.addr, big.start), s);
      acts, records := acts + [Act(t, Event.Map(big.addr, big.start))], records + {big};
    }

    /** The mmap calls of _iso_big_alloc, when no free record fitted. */
    method Map(t: nat) returns (start: nat)
      requires Valid() && t in work && work[t].Waiting?
      modifies this, os
      ensures fresh(records - old(records)) && zones == old(zones)
      ensures Valid() && t in held && Step(old(s), t, Event.Map(held[t].addr, start), s)
      ensures acts == old(acts) + [Act(t, Event.Map(held[t].addr, start))]
    {
      hide Core, Inv, Step, HandsOk, HandOk, Undamaged, BigZone.CanaryOk;
      ghost var s0, hands := s, Hands();
      var size := work[t].size;
      var big := MapPages(t, size);
      start := big.start;
      Hold(t, big, Publishing(big.addr, size, false), s0, Event.Map(big.addr, big.start), hands);
    }

    // The used-list sections

    method PushUsed(t: nat, big: BigZone, reused: bool)
      requires Core() && Received(t, big) && s.work[t].Publishing? && s.work[t].reused == reused
      modifies lists`usedHead, lists`usedCount, lists`used, big`next, big`ttl, this`s, this`acts
      ensures Core() && Inv(old(s)) && Step(old(s), t, Event.Publish, s) && t !in s.work
      ensures acts == old(acts) + [Act(t, Event.Publish)] && lists.used == [big] + old(lists.used)
      ensures Given(s, t, big.addr, big.start)
    {
      hide Inv, BigLists.Shape, ImageOf, Shown, Placed, Reach, BigZone.CanaryOk;
      ghost var s0 := s;
      s := PublishSection(lists, big, reused, s, t);
      StepKeepsPlaced(s0, t, Event.Publish, s, os.mapped, zones);
      ReachMore(acts, s0, t, Event.Publish, s);
      acts := acts + [Act(t, Event.Publish)];
    }

    /** Thread t puts its record down, on a list or for good. */
    method Release(t: nat, ghost s0: State, ghost e: Event, ghost hands: map<nat, Hand>)
      requires work == s0.work
      requires Core() && Undamaged() && HandsOk(s0, hands) && Inv(s0) && Step(s0, t, e, s) && t !in s.work
      requires OthersOff(t) && Hands() - {t} == hands - {t}
      modifies this`held, this`work
      ensures Valid() && held == old(held) - {t}
    {
      hide Core, Inv, Step, HandsOk, HandOk, Undamaged, BigZone.CanaryOk;
      work, held := work - {t}, held - {t};
      WorkMoves(s0, t, e, s);
      HandsKept(s0, t, e, s, hands, Hands());
    }

    ghost predicate OthersOff(t: nat)
      reads this`held, this`records, lists
    {
      && Known()
      && forall u :: u in held && u != t ==> held[u] !in lists.free && held[u] !in lists.used && held[u] in records
    }

    /** Thread t's record is in no other hand and on no list. */
    lemma InHand(t: nat)
      requires Valid() && t in s.work && !s.work[t].Waiting?
      ensures t in held && Received(t, held[t]) && forall u :: u in held && u != t ==> held[u] != held[t]
    {
      hide Inv, BigZone.CanaryOk, BigLists.Shape, ImageOf, Shown, Placed, Reach;
      assert t in Hands();
      hide HandsOk;
      forall u | u in held && u != t ensures held[u] != held[t] {
        HandsApart(s, Hands(), t, u);
      }
    }

    method PushUsedBeside(t: nat, big: BigZone, reused: bool)
      requires Core() && Received(t, big) && s.work[t].Publishing? && s.work[t].reused == reused
      requires OffLists() && Undamaged() && t in held && held[t] == big
      requires forall u :: u in held && u != t ==> held[u] != held[t]
      modifies lists`usedHead, lists`usedCount, lists`used, big`next, big`ttl, this`s, this`acts
      ensures Core() && Inv(old(s)) && Step(old(s), t, Event.Publish, s) && t !in s.work
      ensures acts == old(acts) + [Act(t, Event.Publish)]
      ensures OthersOff(t) && Undamaged() && Hands() - {t} == old(Hands()) - {t} && Given(s, t, big.addr, big.start)
    {
      hide Core, Inv, Step, BigZone.CanaryOk;
      PushUsed(t, big, reused);
    }

    /** The second section of _iso_big_alloc: the record becomes the client's. */
    method Publish(t: nat) returns (p: nat)
      requires Valid() && t in work && work[t].Publishing?
      modifies this, lists, records
      ensures records == old(records) && zones == old(zones)
      ensures Valid() && Step(old(s), t, Event.Publish, s) && acts == old(acts) + [Act(t, Event.Publish)]
      ensures Given(s, t, old(s).work[t].id, p)
    {
      hide Core, Inv, Step, HandsOk, Undamaged, Given, BigZone.CanaryOk;
      ghost var s0, hands := s, Hands();
      InHand(t);
      var big := held[t];
      PushUsedBeside(t, big, work[t].reused);
      Release(t, s0, Event.Publish, hands);
      p := big.start;
    }

    // iso_find_big_zone with removal

    method FindUsed(t: nat, p: nat, permanent: bool) returns (big: BigZone?, aborted: bool)
      requires Core() && Undamaged() && Known() && t !in s.work
      modifies lists`usedHead, lists`usedCount, lists`used, lists.used`next, this`s, this`acts
      ensures aborted == Within(old(s), p) && (big != null <==> UsedAt(old(s), p))
      ensures Inv(old(s)) && Core() && forall z :: z in lists.used ==> z in old(lists.used)
      ensures big == null ==> s == old(s) && acts == old(acts)
      ensures big != null ==> Step(old(s), t, Event.StartFree(p, permanent), s)
      ensures big != null ==> acts == old(acts) + [Act(t, Event.StartFree(p, permanent))]
      ensures big != null ==> Received(t, big) && big in old(lists.used) && s.work[t] == Retiring(big.addr, permanent)
    {
      hide Inv, BigLists.Shape, ImageOf, Shown, Placed, Reach, Step, StopAt, BigZone.CanaryOk, Within, UsedAt;
      hide BigLists.Named;
      ghost var s0 := s;
      ghost var k;
      WalkEnds(lists, s, p);
      big, k, aborted, s := FreeSection(lists, p, s, t, permanent);
      if big != null {
        StepKeepsPlaced(s0, t, Event.StartFree(p, permanent), s, os.mapped, zones);
        ReachMore(acts, s0, t, Event.StartFree(p, permanent), s);
        acts := acts + [Act(t, Event.StartFree(p, permanent))];
      }
    }

    method FindUsedBeside(t: nat, p: nat, permanent: bool) returns (big: BigZone?, aborted: bool)
      requires Core() && OffLists() && Undamaged() && t !in s.work
      modifies lists`usedHead, lists`usedCount, lists`used, lists.used`next, this`s, this`acts
      ensures aborted == Within(old(s), p) && (big != null <==> UsedAt(old(s), p))
      ensures Inv(old(s)) && Core() && OffLists() && Undamaged() && Hands() == old(Hands())
      ensures big == null ==> s == old(s) && acts == old(acts)
      ensures big != null ==> Step(old(s), t, Event.StartFree(p, permanent), s)
      ensures big != null ==> acts == old(acts) + [Act(t, Event.StartFree(p, permanent))]
      ensures big != null ==> Received(t, big) && s.work[t] == Retiring(big.addr, permanent)
    {
      hide Core, Inv, Step, Within, UsedAt, BigZone.CanaryOk;
      big, aborted := FindUsed(t, p, permanent);
    }

    /** The removal of a record by iso_find_big_zone. It finds exactly the start of a
        mapping in use, and aborts exactly inside one. */
    method StartFree(t: nat, p: nat, permanent: bool) returns (found: bool, aborted: bool)
      requires Valid() && t !in work
      modifies this, lists, records
      ensures records == old(records) && zones == old(zones)
      ensures Valid() && aborted == Within(old(s), p) && (found <==> UsedAt(old(s), p))
      ensures !found ==> s == old(s) && acts == old(acts)
      ensures found ==> Step(old(s), t, Event.StartFree(p, permanent), s)
      ensures found ==> acts == old(acts) + [Act(t, Event.StartFree(p, permanent))]
      ensures found ==> t in work && work[t].Retiring? && work[t].permanent == permanent
    {
      hide Core, Inv, Step, HandsOk, HandOk, Undamaged, Within, UsedAt;
      ghost var s0, hands := s, Hands();
      var big;
      big, aborted := FindUsedBeside(t, p, permanent);
      found := big != null;
      if big != null {
        Hold(t, big, Retiring(big.addr, permanent), s0, Event.StartFree(p, permanent), hands);
      }
    }

    // iso_free_big_zone

    method Park(t: nat, big: BigZone, permanent: bool) returns (place: Place, aborted: bool)
      requires Core() && Received(t, big) && s.work[t] == Retiring(big.addr, permanent)
      modifies lists`freeHead, lists`freeCount, lists`free, big`next, big`free, this`s, this`acts
      ensures !aborted && Core() && Inv(old(s)) && Step(old(s), t, Event.Finish, s) && t !in s.work
      ensures acts == old(acts) + [Act(t, Event.Finish)] && Placed(old(s), os.mapped, zones)
      ensures big.addr in s.place && s.place[big.addr] == place && big.start == old(big.start)
      ensures big.size == old(big.size)
      ensures lists.free == if place == OnFree then [big] + old(lists.free) else old(lists.free)
    {
      hide Inv, BigLists.Shape, ImageOf, Shown, Placed, Reach, BigZone.CanaryOk;
      ghost var s0 := s;
      place, aborted, s := FinishSection(lists, big, permanent, s, t);
      StepKeepsPlaced(s0, t, Event.Finish, s, os.mapped, zones);
      ReachMore(acts, s0, t, Event.Finish, s);
      acts := acts + [Act(t, Event.Finish)];
    }

    method ParkBeside(t: nat, big: BigZone, permanent: bool) returns (place: Place, aborted: bool)
      requires Core() && Received(t, big) && s.work[t] == Retiring(big.addr, permanent)
      requires OffLists() && Undamaged() && t in held && held[t] == big
      requires forall u :: u in held && u != t ==> held[u] != held[t]
      modifies lists`freeHead, lists`freeCount, lists`free, big`next, big`free, this`s, this`acts
      ensures !aborted && Core() && Inv(old(s)) && Step(old(s), t, Event.Finish, s) && t !in s.work
      ensures acts == old(acts) + [Act(t, Event.Finish)] && Placed(old(s), os.mapped, zones)
      ensures big.addr in s.place && s.place[big.addr] == place && big.start == old(big.start)
      ensures big.size == old(big.size)
      ensures OthersOff(t) && Undamaged() && Hands() - {t} == old(Hands()) - {t}
    {
      hide Core, Inv, Step, Placed, BigZone.CanaryOk;
      place, aborted := Park(t, big, permanent);
    }

    /** A dropped mapping goes back to the kernel; the page of its record may stay. */
    method Unmap(big: BigZone, ghost t: nat, ghost s0: State)
      requires Core() && Inv(s0) && FinishStep(s0, t, s) && Placed(s0, os.mapped, zones)
      requires s0.work[t].id == big.addr && s.place[big.addr] == Gone
      requires big.start == s0.recs[big.addr].start && big.size == s0.recs[big.addr].size
      modifies os
      ensures Core()
    {
      hide Inv, BigLists.Shape, ImageOf, Shown, Placed, Reach, Reusable, Parked, Dropped;
      ghost var mapped := os.mapped;
      HeldUnlisted(s0, t);
      os.Munmap(Mapping(big.start, big.size));
      if * {
        os.Munmap(Mapping(MetaPage(big.addr), PAGE_SIZE));
      }
      UnmapsNothingElse(s0, t, s, mapped, mapped - os.mapped, zones);
      assert mapped - (mapped - os.mapped) == os.mapped;
    }

    /** iso_free_big_zone: the record is parked, sealed or unmapped. Its double-free abort
        cannot fire. */
    method Finish(t: nat) returns (place: Place, aborted: bool)
      requires Valid() && t in work && work[t].Retiring?
      modifies this, lists, os, records
      ensures records == old(records) && zones == old(zones)
      ensures !aborted && Valid() && Step(old(s), t, Event.Finish, s) && acts == old(acts) + [Act(t, Event.Finish)]
    {
      hide Core, Inv, Hands, HandsOk, Undamaged, Placed, BigZone.CanaryOk, Reusable;
      ghost var s0, hands := s, Hands();
      InHand(t);
      var big := held[t];
      place, aborted := ParkBeside(t, big, work[t].permanent);
      if place == Gone {
        Unmap(big, t, s0);
      }
      Release(t, s0, Event.Finish, hands);
    }
  }

  /** Any number of threads, scheduled in any way, with any requests, and zones made and
      dropped at any time: the system stays in good order, in a state the protocol reaches,
      and never meets a damaged record. A free of an address at which no mapping in use
      starts takes no step. */
  method Interleave(system: System, steps: nat)
    requires system.Valid()
    modifies system, system.lists, system.os, system.records
    ensures system.Valid() && old(system.acts) <= system.acts
  {
    hide System.Core, HandsOk, System.OffLists, System.Undamaged;
    for i := 0 to steps
      invariant system.Valid() && fresh(system.records - old(system.records)) && old(system.acts) <= system.acts
    {
      var t: nat := *;
      AnySection(system, t);
    }
  }

  /** One section of thread t: the one it is due to take, or the first of a new call. */
  method AnySection(system: System, t: nat)
    requires system.Valid()
    modifies system, system.lists, system.os, system.records
    ensures system.Valid() && fresh(system.records - old(system.records)) && old(system.acts) <= system.acts
  {
    hide System.Core, HandsOk, System.OffLists, System.Undamaged, Step, Within, UsedAt, Given;
    var request: nat := *;
    var permanent: bool := *;
    if * {
      AnyZone(system);
    } else if t in system.work {
      match system.work[t]
      case Waiting(_) => var _ := system.Map(t);
      case Publishing(_, _, _) => var _ := system.Publish(t);
      case Retiring(_, _) => var _, _ := system.Finish(t);
    } else if * {
      var _, _ := system.StartFree(t, request, permanent);
    } else if !Refused(request) {
      var _, _ := system.StartAlloc(t, RoundUpPage(request));
    }
  }

  /** A zone is made, or dropped if there is one. */
  method AnyZone(system: System)
    requires system.Valid()
    modifies system`zones, system.os
    ensures system.Valid()
  {
    hide System.Core, HandsOk, System.OffLists, System.Undamaged;
    var make: bool := *;
    if system.zones == {} || make {
      var _ := system.MakeZone();
    } else {
      var base :| base in system.zones;
      system.DropZone(base);
    }
  }

  /** The mappings in use, as the walk sees them. */
  lemma ListedApart(s: State, recs: seq<Rec>)
    requires Inv(s) && ListShown(s, s.usedList, recs)
    ensures forall j: nat :: j < |recs| ==> recs[j].size > 0
    ensures forall i: nat, j: nat :: i < j < |recs| ==> Apart(recs[i].start, recs[i].size, recs[j].start, recs[j].size)
  {
    hide WorkOk, OwnersOk, CountsOk, Apart;
    forall j: nat | j < |recs| ensures recs[j].size > 0 && Alive(s, s.usedList[j]) {
      assert s.usedList[j] in s.usedList && RecOk(s, s.usedList[j]);
    }
  }

  /** Where the walk for p ends, when no record is damaged: at the mapping in use that
      starts at p, inside one, or at the end of the list. */
  lemma WalkEnds(lists: BigLists, s: State, p: nat)
    requires Inv(s) && Shown(s, ImageOf(lists)) && forall z :: z in lists.used ==> z.CanaryOk(lists.secret)
    ensures var k := StopAt(lists.used, 0, p, lists.secret);
      && (k < |lists.used| && lists.Named(k, p) <==> UsedAt(s, p))
      && (k < |lists.used| && !lists.Named(k, p) <==> Within(s, p))
  {
    hide Inv, BigZone.CanaryOk, StopAt, Apart;
    var zs, k := lists.used, StopAt(lists.used, 0, p, lists.secret);
    ListedApart(s, Recs(zs));
    forall j: nat | j < |zs| ensures s.recs[s.usedList[j]] == zs[j].Seen() && zs[j].CanaryOk(lists.secret) {
      assert zs[j] in zs;
    }
    FindsOwned(zs, p, lists.secret);
    UniqueCover(zs, p);
    assert k < |zs| && lists.Named(k, p) ==> NamedBy(s, k, p);
    forall j: nat | j < |zs| && NamedBy(s, j, p) ensures k == j && lists.Named(k, p) {
      assert zs[j].start == p;
    }
  }

  ghost predicate Covers(z: BigZone, p: nat)
    reads z
  {
    z.start <= p < z.start + z.size
  }

  /** p lies in one mapping at most. */
  lemma UniqueCover(zs: seq<BigZone>, p: nat)
    requires forall i: nat, j: nat :: i < j < |zs| ==> Apart(zs[i].start, zs[i].size, zs[j].start, zs[j].size)
    ensures forall i: nat, j: nat :: i < |zs| && j < |zs| && Covers(zs[i], p) && Covers(zs[j], p) ==> i == j
  {
    forall i: nat, j: nat | i < j < |zs| ensures !(Covers(zs[i], p) && Covers(zs[j], p)) {
      assert Apart(zs[i].start, zs[i].size, zs[j].start, zs[j].size);
    }
  }

  lemma NoDamage(lists: BigLists, size: nat)
    requires forall z :: z in lists.free ==> z.CanaryOk(lists.secret)
    ensures !VisitsDamage(lists, size)
  {
    hide BigZone.CanaryOk, FirstFit;
  }
}
