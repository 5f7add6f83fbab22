// Big zones under concurrency: allocations and frees of any number of threads,
// interleaved at the two list locks. A record is on neither list between the two
// critical sections of an operation.
module BigProtocol {
  import opened Sequences
  import opened Geometry
  import opened RootState

  const BIG_ZONE_WASTE: nat := 8192
  const BIG_ZONE_MAX_FREE_LIST: nat := 64
  const BIG_ZONE_ALLOC_RETIRE: nat := 16

  /** iso_alloc_big_zone_t, without links and canaries. */
  datatype Rec = Rec(start: nat, size: nat, ttl: nat, free: bool)

  /** The page-rounded sizes _iso_big_alloc accepts. */
  predicate BigSize(size: nat) {
    SMALL_SIZE_MAX <= size <= BIG_SZ_MAX
  }

  /** A free record can serve a request of this many bytes. */
  predicate Fits(rec: Rec, size: nat) {
    rec.size >= size && rec.size - size <= 2 * BIG_ZONE_WASTE
  }

  /** The search of the free list: the first record that fits, or -1. */
  function FirstFit(recs: seq<Rec>, size: nat): (k: int)
    ensures -1 <= k < |recs|
    ensures k >= 0 ==> size <= recs[k].size <= size + 16384
    ensures forall j: nat :: j < (if k < 0 then |recs| else k) ==> !(size <= recs[j].size <= size + 16384)
  {
    if recs == [] then -1
    else if Fits(recs[0], size) then 0
    else
      var k := FirstFit(recs[1..], size);
      assert forall j: nat :: 0 < j < |recs| ==> recs[j] == recs[1..][j - 1];
      if k < 0 then -1 else k + 1
  }

  lemma FitsExactly(rec: Rec, size: nat)
    ensures Fits(rec, size) <==> size <= rec.size <= size + 16384
  {
  }

  /** A freed record may go to the free list. */
  predicate Reusable(rec: Rec, freeCount: int, permanent: bool) {
    !permanent && freeCount < BIG_ZONE_MAX_FREE_LIST && rec.ttl < BIG_ZONE_ALLOC_RETIRE
  }

  /** What a thread is in the middle of. */
  datatype Work =
    | Waiting(size: nat)                        // found nothing to reuse, about to mmap
    | Publishing(id: nat, size: nat, reused: bool)  // holds a record, about to take the used lock
    | Retiring(id: nat, permanent: bool)        // removed a record from the used list

  /** Where a record is: Sealed pages were freed permanently and stay mapped without
      access, Gone ones were unmapped. */
  datatype Place = OnFree | OnUsed | Held(t: nat) | Sealed | Gone

  datatype State = State(
    recs: map<nat, Rec>,
    freeList: seq<nat>,
    usedList: seq<nat>,
    freeCount: int,
    usedCount: int,
    work: map<nat, Work>,       // per thread, while an operation is in progress
    owner: map<nat, nat>,       // the thread each handed-out record was returned to
    asked: map<nat, nat>,       // and the page-rounded size it asked for
    served: map<nat, nat>,      // how many allocations each mapping has served
    place: map<nat, Place>)     // bookkeeping for the proof

  function RecsOf(s: State, list: seq<nat>): (r: seq<Rec>)
    requires forall k: nat :: k < |list| ==> list[k] in s.recs
    ensures |r| == |list| && forall k: nat :: k < |list| ==> r[k] == s.recs[list[k]]
  {
    seq(|list|, k requires 0 <= k < |list| => s.recs[list[k]])
  }

  /** Pages from mmap: apart from every mapping that still exists. */
  ghost predicate FreshPages(s: State, start: nat, size: nat) {
    start % PAGE_SIZE == 0 && forall id :: Alive(s, id) ==>
      Apart(start, size, s.recs[id].start, s.recs[id].size)
  }

  /** A new record is stored where no record is, or none any more. */
  ghost predicate NewName(s: State, id: nat) {
    id in s.recs ==> id in s.place && s.place[id] == Gone
  }

  // --------------------------------------------------------------------- steps

  datatype Event =
    | StartAlloc(size: nat)                 // the free-list section of _iso_big_alloc
    | Map(id: nat, start: nat)              // mmap of a new mapping and its record
    | Publish                               // the used-list section of _iso_big_alloc
    | StartFree(p: nat, permanent: bool)    // iso_find_big_zone(p, true)
    | Finish                                // iso_free_big_zone

  ghost predicate Step(s: State, t: nat, e: Event, s': State) {
    match e
    case StartAlloc(size) => StartAllocStep(s, t, size, s')
    case Map(id, start) => MapStep(s, t, id, start, s')
    case Publish => PublishStep(s, t, s')
    case StartFree(p, permanent) => StartFreeStep(s, t, p, permanent, s')
    case Finish => FinishStep(s, t, s')
  }

  ghost predicate StartAllocStep(s: State, t: nat, size: nat, s': State) {
    && t !in s.work && BigSize(size) && size % PAGE_SIZE == 0
    && (forall k: nat :: k < |s.freeList| ==> s.freeList[k] in s.recs)
    && var k := FirstFit(RecsOf(s, s.freeList), size);
    s' == if k < 0 then s.(work := s.work[t := Waiting(size)]) else Taken(s, t, k, size)
  }

  function Taken(s: State, t: nat, k: nat, size: nat): State
    requires k < |s.freeList| && s.freeList[k] in s.recs
  {
    var id := s.freeList[k];
    s.(recs := s.recs[id := s.recs[id].(free := false)],
       freeList := Without(s.freeList, k),
       freeCount := s.freeCount - 1,
       work := s.work[t := Publishing(id, size, true)],
       place := s.place[id := Held(t)])
  }

  ghost predicate MapStep(s: State, t: nat, id: nat, start: nat, s': State) {
    && t in s.work && s.work[t].Waiting? && NewName(s, id)
    && FreshPages(s, start, s.work[t].size)
    && s' == Mapped(s, t, id, start)
  }

  function Mapped(s: State, t: nat, id: nat, start: nat): State
    requires t in s.work && s.work[t].Waiting?
  {
    s.(recs := s.recs[id := Rec(start, s.work[t].size, 1, false)],
       work := s.work[t := Publishing(id, s.work[t].size, false)],
       served := s.served[id := 0],
       place := s.place[id := Held(t)])
  }

  ghost predicate PublishStep(s: State, t: nat, s': State) {
    && t in s.work && s.work[t].Publishing? && s.work[t].id in s.recs && s.work[t].id in s.served
    && s' == Published(s, t)
  }

  function Published(s: State, t: nat): State
    requires t in s.work && s.work[t].Publishing? && s.work[t].id in s.recs && s.work[t].id in s.served
  {
    var id := s.work[t].id;
    s.(recs := s.recs[id := if s.work[t].reused then s.recs[id].(ttl := s.recs[id].ttl + 1) else s.recs[id]],
       usedList := [id] + s.usedList,
       usedCount := s.usedCount + 1,
       work := s.work - {t},
       owner := s.owner[id := t],
       asked := s.asked[id := s.work[t].size],
       served := s.served[id := s.served[id] + 1],
       place := s.place[id := OnUsed])
  }

  /** A client frees an address it was given; p names the record by exact match. */
  ghost predicate StartFreeStep(s: State, t: nat, p: nat, permanent: bool, s': State) {
    && t !in s.work
    && exists k: nat :: k < |s.usedList| && NamedBy(s, k, p) && s' == Unlinked(s, t, k, permanent)
  }

  ghost predicate NamedBy(s: State, k: nat, p: nat)
    requires k < |s.usedList|
  {
    s.usedList[k] in s.recs && s.recs[s.usedList[k]].start == p
  }

  function Unlinked(s: State, t: nat, k: nat, permanent: bool): State
    requires k < |s.usedList|
  {
    s.(usedList := Without(s.usedList, k),
       usedCount := s.usedCount - 1,
       work := s.work[t := Retiring(s.usedList[k], permanent)],
       owner := s.owner - {s.usedList[k]},
       asked := s.asked - {s.usedList[k]},
       place := s.place[s.usedList[k] := Held(t)])
  }

  ghost predicate FinishStep(s: State, t: nat, s': State) {
    && t in s.work && s.work[t].Retiring? && s.work[t].id in s.recs
    && s' == if Reusable(s.recs[s.work[t].id], s.freeCount, s.work[t].permanent) then Parked(s, t) else Dropped(s, t)
  }

  function Parked(s: State, t: nat): State
    requires t in s.work && s.work[t].Retiring? && s.work[t].id in s.recs
  {
    var id := s.work[t].id;
    s.(recs := s.recs[id := s.recs[id].(free := true)],
       freeList := [id] + s.freeList,
       freeCount := s.freeCount + 1,
       work := s.work - {t},
       place := s.place[id := OnFree])
  }

  function Dropped(s: State, t: nat): State
    requires t in s.work && s.work[t].Retiring?
  {
    s.(work := s.work - {t}, place := s.place[s.work[t].id := if s.work[t].permanent then Sealed else Gone])
  }

  // ----------------------------------------------------------------- invariant

  /** A thread that holds a record holds this one, and is entitled to. */
  ghost predicate WorkFits(w: Work, id: nat, rec: Rec, served: nat) {
    match w
    case Waiting(_) => false
    case Publishing(i, size, reused) =>
      && i == id && Fits(rec, size)
      && (if reused then served == rec.ttl < BIG_ZONE_ALLOC_RETIRE else served == 0 && rec.ttl == 1)
    case Retiring(i, _) => i == id && served == rec.ttl
  }

  /** What holds of one record, by the place it is in: `free` is set exactly on the
      free list, a record there can serve again, one on the used list belongs to a
      client whose request it fits, one in neither is held by one thread; and its
      ttl, which never exceeds 16, is the number of allocations it has served. */
  ghost predicate RecOk(s: State, id: nat) {
    && id in s.recs && id in s.place && id in s.served
    && BigSize(s.recs[id].size)
    && 1 <= s.recs[id].ttl <= BIG_ZONE_ALLOC_RETIRE
    && (!s.place[id].Held? ==> s.served[id] == s.recs[id].ttl)
    && match s.place[id]
       case OnFree => s.recs[id].free && s.recs[id].ttl < BIG_ZONE_ALLOC_RETIRE && id in s.freeList
       case OnUsed =>
         && !s.recs[id].free && id in s.usedList
         && id in s.owner && id in s.asked && Fits(s.recs[id], s.asked[id])
       case Held(t) => !s.recs[id].free && t in s.work && WorkFits(s.work[t], id, s.recs[id], s.served[id])
       case Sealed => true
       case Gone => true
  }

  ghost predicate WorkOk(s: State, t: nat) {
    && t in s.work
    && match s.work[t]
       case Waiting(size) => BigSize(size)
       case Publishing(id, _, _) => id in s.place && s.place[id] == Held(t)
       case Retiring(id, _) => id in s.place && s.place[id] == Held(t)
  }

  /** A list holds records in the given place, each once. */
  ghost predicate ListOk(s: State, list: seq<nat>, place: Place) {
    Distinct(list) && forall id :: id in list ==> id in s.place && s.place[id] == place
  }

  ghost predicate Alive(s: State, id: nat) {
    id in s.recs && id in s.place && s.place[id] != Gone
  }

  ghost predicate MappingsApart(s: State) {
    forall i, j :: Alive(s, i) && Alive(s, j) && i != j ==>
      Apart(s.recs[i].start, s.recs[i].size, s.recs[j].start, s.recs[j].size)
  }

  ghost predicate OwnersOk(s: State) {
    && (forall id :: id in s.owner ==> id in s.usedList)
    && (forall id :: id in s.asked ==> id in s.usedList)
  }

  ghost predicate CountsOk(s: State) {
    s.freeCount == |s.freeList| <= BIG_ZONE_MAX_FREE_LIST && s.usedCount == |s.usedList|
  }

  ghost predicate Inv(s: State) {
    && s.place.Keys == s.recs.Keys
    && (forall id :: id in s.recs ==> RecOk(s, id))
    && (forall t :: t in s.work ==> WorkOk(s, t))
    && ListOk(s, s.freeList, OnFree) && ListOk(s, s.usedList, OnUsed)
    && MappingsApart(s) && OwnersOk(s) && CountsOk(s)
  }

  // -------------------------------------------------------------- list surgery

  lemma WithoutFacts(list: seq<nat>, k: nat)
    requires k < |list| && Distinct(list)
    ensures |Without(list, k)| == |list| - 1
    ensures forall x :: x in Without(list, k) <==> x in list && x != list[k]
    ensures Distinct(Without(list, k))
  {
  }

  // -------------------------------------------------- each step keeps the invariant

  /** Nothing about record id changed. */
  ghost predicate SameRec(s: State, s': State, id: nat) {
    && id in s.recs && id in s'.recs && s'.recs[id] == s.recs[id]
    && id in s.place && id in s'.place && s'.place[id] == s.place[id]
    && id in s.served && id in s'.served && s'.served[id] == s.served[id]
    && (id in s.freeList <==> id in s'.freeList) && (id in s.usedList <==> id in s'.usedList)
    && (id in s.owner ==> id in s'.owner) && (id in s.asked ==> id in s'.asked && s'.asked[id] == s.asked[id])
    && (s.place[id].Held? && s.place[id].t in s.work ==>
          s.place[id].t in s'.work && s'.work[s.place[id].t] == s.work[s.place[id].t])
  }

  lemma RecFrame(s: State, s': State, id: nat)
    requires RecOk(s, id) && SameRec(s, s', id)
    ensures RecOk(s', id)
  {
  }

  lemma WorkFrame(s: State, s': State, t: nat)
    requires WorkOk(s, t) && t in s'.work && s'.work[t] == s.work[t]
    requires s.work[t].Waiting? || (s.work[t].id in s'.place && s'.place[s.work[t].id] == s.place[s.work[t].id])
    ensures WorkOk(s', t)
  {
  }

  /** The list keeps its records in their place when only record x moves. */
  lemma ListFrame(s: State, s': State, list: seq<nat>, place: Place, x: nat)
    requires ListOk(s, list, place) && x !in list
    requires forall id :: id in s.place && id != x ==> id in s'.place && s'.place[id] == s.place[id]
    ensures ListOk(s', list, place)
  {
  }

  lemma ListPush(s: State, s': State, list: seq<nat>, place: Place, x: nat)
    requires ListOk(s, list, place) && x !in list && x in s'.place && s'.place[x] == place
    requires forall id :: id in s.place && id != x ==> id in s'.place && s'.place[id] == s.place[id]
    ensures ListOk(s', [x] + list, place)
  {
  }

  lemma ListDrop(s: State, s': State, list: seq<nat>, place: Place, k: nat)
    requires ListOk(s, list, place) && k < |list|
    requires forall id :: id in s.place && id != list[k] ==> id in s'.place && s'.place[id] == s.place[id]
    ensures ListOk(s', Without(list, k), place)
  {
  }

  lemma ApartFrame(s: State, s': State)
    requires MappingsApart(s)
    requires forall id :: Alive(s', id) ==>
      Alive(s, id) && s'.recs[id].start == s.recs[id].start && s'.recs[id].size == s.recs[id].size
    ensures MappingsApart(s')
  {
  }

  lemma WaitKeeps(s: State, t: nat, size: nat)
    requires Inv(s) && t !in s.work && BigSize(size)
    ensures Inv(s.(work := s.work[t := Waiting(size)]))
  {
    hide RecOk, WorkOk, MappingsApart, Apart;
    var s' := s.(work := s.work[t := Waiting(size)]);
    forall x | x in s'.recs ensures RecOk(s', x) { RecHolder(s, x); RecFrame(s, s', x); }
    forall u | u in s'.work ensures WorkOk(s', u) {
      if u == t { NewWait(s', t); } else { WorkPlace(s, u); WorkFrame(s, s', u); }
    }
    forall x ensures Alive(s', x) == Alive(s, x) {}
    ApartFrame(s, s');
  }

  lemma NewWait(s: State, t: nat)
    requires t in s.work && s.work[t].Waiting? && BigSize(s.work[t].size)
    ensures WorkOk(s, t)
  {
  }

  /** Facts a record or a thread carries, for use with their definitions hidden. */
  lemma RecHolder(s: State, id: nat)
    requires RecOk(s, id)
    ensures id in s.recs && id in s.place && id in s.served
    ensures s.place[id].Held? ==>
      s.place[id].t in s.work && !s.work[s.place[id].t].Waiting? && s.work[s.place[id].t].id == id
    ensures s.place[id].OnUsed? ==> id in s.owner && id in s.asked
    ensures s.place[id] == OnFree ==> id in s.freeList
    ensures s.place[id] == OnUsed ==> id in s.usedList
  {
  }

  lemma WorkPlace(s: State, t: nat)
    requires WorkOk(s, t)
    ensures t in s.work && (!s.work[t].Waiting? ==> s.work[t].id in s.place && s.place[s.work[t].id] == Held(t))
  {
  }

  lemma TakenKeeps(s: State, t: nat, k: nat, size: nat)
    requires Inv(s) && t !in s.work && k < |s.freeList| && s.freeList[k] in s.recs && Fits(s.recs[s.freeList[k]], size)
    ensures Inv(Taken(s, t, k, size))
  {
    hide RecOk, WorkOk, MappingsApart, Apart, Without, Fits;
    var id, s' := s.freeList[k], Taken(s, t, k, size);
    WithoutFacts(s.freeList, k);
    assert s.place[id] == OnFree;
    forall x | x in s'.recs ensures RecOk(s', x) {
      RecHolder(s, x);
      if x == id { TakenRec(s, t, k, size); } else { RecFrame(s, s', x); }
    }
    forall u | u in s'.work ensures WorkOk(s', u) {
      if u == t { NewHold(s', t, id); } else { WorkPlace(s, u); WorkFrame(s, s', u); }
    }
    ListDrop(s, s', s.freeList, OnFree, k);
    ListFrame(s, s', s.usedList, OnUsed, id);
    ApartFrame(s, s');
  }

  lemma NewHold(s: State, t: nat, id: nat)
    requires t in s.work && !s.work[t].Waiting? && s.work[t].id == id && id in s.place && s.place[id] == Held(t)
    ensures WorkOk(s, t)
  {
  }

  lemma TakenRec(s: State, t: nat, k: nat, size: nat)
    requires k < |s.freeList| && s.freeList[k] in s.recs && RecOk(s, s.freeList[k]) && s.place[s.freeList[k]] == OnFree
    requires Fits(s.recs[s.freeList[k]], size)
    ensures RecOk(Taken(s, t, k, size), s.freeList[k])
  {
  }

  lemma StartAllocKeeps(s: State, t: nat, size: nat, s': State)
    requires Inv(s) && StartAllocStep(s, t, size, s')
    ensures Inv(s')
  {
    hide Inv, Taken, Fits;
    var k := FirstFit(RecsOf(s, s.freeList), size);
    if k < 0 {
      WaitKeeps(s, t, size);
    } else {
      FitsExactly(s.recs[s.freeList[k]], size);
      TakenKeeps(s, t, k, size);
    }
  }

  lemma MapKeeps(s: State, t: nat, id: nat, start: nat, s': State)
    requires Inv(s) && MapStep(s, t, id, start, s')
    ensures Inv(s')
  {
    hide RecOk, WorkOk, MappingsApart, Apart, Fits, FreshPages;
    WorkPlace(s, t);
    WaitSize(s, t);
    forall x | x in s'.recs ensures RecOk(s', x) {
      if x == id {
        MappedRec(s, t, id, start);
      } else {
        RecHolder(s, x);
        RecFrame(s, s', x);
      }
    }
    forall u | u in s'.work ensures WorkOk(s', u) {
      if u == t { NewHold(s', t, id); } else { WorkPlace(s, u); WorkFrame(s, s', u); }
    }
    ListFrame(s, s', s.freeList, OnFree, id);
    ListFrame(s, s', s.usedList, OnUsed, id);
    MappedApart(s, t, id, start);
  }

  lemma WaitSize(s: State, t: nat)
    requires WorkOk(s, t) && s.work[t].Waiting?
    ensures BigSize(s.work[t].size)
  {
  }

  lemma MappedRec(s: State, t: nat, id: nat, start: nat)
    requires t in s.work && s.work[t].Waiting? && BigSize(s.work[t].size)
    ensures RecOk(Mapped(s, t, id, start), id)
  {
  }

  lemma MappedApart(s: State, t: nat, id: nat, start: nat)
    requires MappingsApart(s) && t in s.work && s.work[t].Waiting? && NewName(s, id) && s.place.Keys == s.recs.Keys
    requires FreshPages(s, start, s.work[t].size)
    ensures MappingsApart(Mapped(s, t, id, start))
  {
  }

  /** A record held by a thread is on neither list. */
  lemma HeldUnlisted(s: State, t: nat)
    requires Inv(s) && t in s.work && !s.work[t].Waiting?
    ensures s.work[t].id in s.place && s.place[s.work[t].id] == Held(t)
    ensures s.work[t].id !in s.freeList && s.work[t].id !in s.usedList
  {
  }

  lemma PublishKeeps(s: State, t: nat, s': State)
    requires Inv(s) && PublishStep(s, t, s')
    ensures Inv(s')
  {
    hide RecOk, WorkOk, MappingsApart, Apart, Fits, ListOk, Distinct;
    var id := s.work[t].id;
    HeldUnlisted(s, t);
    forall y ensures y in s'.usedList <==> y == id || y in s.usedList {}
    forall x | x in s'.recs ensures RecOk(s', x) {
      RecHolder(s, x);
      if x == id { PublishedRec(s, t); } else { RecFrame(s, s', x); }
    }
    forall u | u in s'.work ensures WorkOk(s', u) { WorkPlace(s, u); WorkFrame(s, s', u); }
    ListFrame(s, s', s.freeList, OnFree, id);
    ListPush(s, s', s.usedList, OnUsed, id);
    ApartFrame(s, s');
  }

  lemma PublishedRec(s: State, t: nat)
    requires t in s.work && s.work[t].Publishing? && RecOk(s, s.work[t].id) && s.place[s.work[t].id] == Held(t)
    ensures RecOk(Published(s, t), s.work[t].id)
  {
  }

  lemma StartFreeKeeps(s: State, t: nat, p: nat, permanent: bool, s': State)
    requires Inv(s) && StartFreeStep(s, t, p, permanent, s')
    ensures Inv(s')
  {
    hide Inv, Unlinked;
    var k: nat :| k < |s.usedList| && NamedBy(s, k, p) && s' == Unlinked(s, t, k, permanent);
    UnlinkedKeeps(s, t, k, permanent);
  }

  /** What taking a record off the used list leaves there. */
  lemma UsedDrop(s: State, k: nat)
    requires Inv(s) && k < |s.usedList|
    ensures s.usedList[k] in s.place && s.place[s.usedList[k]] == OnUsed && s.usedList[k] !in s.freeList
    ensures |Without(s.usedList, k)| == |s.usedList| - 1
    ensures forall x :: x in Without(s.usedList, k) <==> x in s.usedList && x != s.usedList[k]
  {
  }

  lemma UnlinkedKeeps(s: State, t: nat, k: nat, permanent: bool)
    requires Inv(s) && t !in s.work && k < |s.usedList|
    ensures Inv(Unlinked(s, t, k, permanent))
  {
    hide RecOk, WorkOk, MappingsApart, Apart, Fits, Without, ListOk, Distinct;
    var id, s' := s.usedList[k], Unlinked(s, t, k, permanent);
    UsedDrop(s, k);
    forall x | x in s'.recs ensures RecOk(s', x) {
      RecHolder(s, x);
      if x == id { UnlinkedRec(s, t, k, permanent); } else { RecFrame(s, s', x); }
    }
    forall u | u in s'.work ensures WorkOk(s', u) {
      if u == t { NewHold(s', t, id); } else { WorkPlace(s, u); WorkFrame(s, s', u); }
    }
    ListFrame(s, s', s.freeList, OnFree, id);
    ListDrop(s, s', s.usedList, OnUsed, k);
    ApartFrame(s, s');
  }

  lemma UnlinkedRec(s: State, t: nat, k: nat, permanent: bool)
    requires k < |s.usedList| && RecOk(s, s.usedList[k]) && s.place[s.usedList[k]] == OnUsed
    ensures RecOk(Unlinked(s, t, k, permanent), s.usedList[k])
  {
  }

  lemma FinishKeeps(s: State, t: nat, s': State)
    requires Inv(s) && FinishStep(s, t, s')
    ensures Inv(s')
  {
    hide Inv, Parked, Dropped;
    if Reusable(s.recs[s.work[t].id], s.freeCount, s.work[t].permanent) {
      ParkedKeeps(s, t);
    } else {
      DroppedKeeps(s, t);
    }
  }

  lemma ParkedKeeps(s: State, t: nat)
    requires Inv(s) && t in s.work && s.work[t].Retiring? && s.work[t].id in s.recs
    requires s.freeCount < BIG_ZONE_MAX_FREE_LIST && s.recs[s.work[t].id].ttl < BIG_ZONE_ALLOC_RETIRE
    ensures Inv(Parked(s, t))
  {
    hide RecOk, WorkOk, MappingsApart, Apart, Fits, ListOk, Distinct;
    var id, s' := s.work[t].id, Parked(s, t);
    HeldUnlisted(s, t);
    forall y ensures y in s'.freeList <==> y == id || y in s.freeList {}
    forall x | x in s'.recs ensures RecOk(s', x) {
      RecHolder(s, x);
      if x == id { ParkedRec(s, t); } else { RecFrame(s, s', x); }
    }
    forall u | u in s'.work ensures WorkOk(s', u) { WorkPlace(s, u); WorkFrame(s, s', u); }
    ListPush(s, s', s.freeList, OnFree, id);
    ListFrame(s, s', s.usedList, OnUsed, id);
    ApartFrame(s, s');
  }

  lemma ParkedRec(s: State, t: nat)
    requires t in s.work && s.work[t].Retiring? && RecOk(s, s.work[t].id) && s.place[s.work[t].id] == Held(t)
    requires s.recs[s.work[t].id].ttl < BIG_ZONE_ALLOC_RETIRE
    ensures RecOk(Parked(s, t), s.work[t].id)
  {
  }

  lemma DroppedKeeps(s: State, t: nat)
    requires Inv(s) && t in s.work && s.work[t].Retiring? && s.work[t].id in s.recs
    ensures Inv(Dropped(s, t))
  {
    hide RecOk, WorkOk, MappingsApart, Apart, Fits, ListOk, Distinct;
    var id, s' := s.work[t].id, Dropped(s, t);
    HeldUnlisted(s, t);
    forall x | x in s'.recs ensures RecOk(s', x) {
      RecHolder(s, x);
      if x == id { DroppedRec(s, t); } else { RecFrame(s, s', x); }
    }
    forall u | u in s'.work ensures WorkOk(s', u) { WorkPlace(s, u); WorkFrame(s, s', u); }
    ListFrame(s, s', s.freeList, OnFree, id);
    ListFrame(s, s', s.usedList, OnUsed, id);
    ApartFrame(s, s');
  }

  lemma DroppedRec(s: State, t: nat)
    requires t in s.work && s.work[t].Retiring? && RecOk(s, s.work[t].id) && s.place[s.work[t].id] == Held(t)
    ensures RecOk(Dropped(s, t), s.work[t].id)
  {
  }

  /** Every step of every thread keeps the invariant. */
  lemma StepKeeps(s: State, t: nat, e: Event, s': State)
    requires Inv(s) && Step(s, t, e, s')
    ensures Inv(s')
  {
    hide Inv, StartAllocStep, MapStep, PublishStep, StartFreeStep, FinishStep;
    match e
    case StartAlloc(size) => StartAllocKeeps(s, t, size, s');
    case Map(id, start) => MapKeeps(s, t, id, start, s');
    case Publish => PublishKeeps(s, t, s');
    case StartFree(p, permanent) => StartFreeKeeps(s, t, p, permanent, s');
    case Finish => FinishKeeps(s, t, s');
  }

  // ---------------------------------------------------------------------- runs

  /** One critical section of one thread. */
  datatype Act = Act(t: nat, e: Event)

  /** The sections of all threads, in the order in which the locks were taken. */
  ghost predicate Reach(s: State, acts: seq<Act>, s': State)
    decreases |acts|
  {
    if acts == [] then s == s'
    else exists mid :: Reach(s, Front(acts), mid) && Step(mid, Last(acts).t, Last(acts).e, s')
  }

  const EMPTY: State := State(map[], [], [], 0, 0, map[], map[], map[], map[], map[])

  lemma EmptyOk()
    ensures Inv(EMPTY)
  {
  }

  lemma {:induction false} RunKeeps(s: State, acts: seq<Act>, s': State)
    requires Inv(s) && Reach(s, acts, s')
    ensures Inv(s')
    decreases |acts|
  {
    hide Inv, Step;
    if acts != [] {
      var mid :| Reach(s, Front(acts), mid) && Step(mid, Last(acts).t, Last(acts).e, s');
      RunKeeps(s, Front(acts), mid);
      StepKeeps(mid, Last(acts).t, Last(acts).e, s');
    }
  }

  /** The thread is between its two sections with this record in hand. */
  ghost predicate Holding(s: State, t: nat, id: nat) {
    t in s.work && !s.work[t].Waiting? && s.work[t].id == id
  }

  /** The record's mapping was given back to the kernel or made inaccessible. */
  ghost predicate Retired(s: State, id: nat) {
    id in s.place && (s.place[id] == Sealed || s.place[id] == Gone)
  }

  /** Whatever the interleaving, every record is in exactly one of: the free list,
      the used list, the hands of one thread, retirement. */
  lemma OnePlace(acts: seq<Act>, s: State, id: nat)
    requires Reach(EMPTY, acts, s) && id in s.recs
    ensures id in s.freeList || id in s.usedList || Retired(s, id) || exists t :: Holding(s, t, id)
    ensures id in s.freeList ==> id !in s.usedList && !Retired(s, id)
    ensures id in s.usedList ==> !Retired(s, id)
    ensures forall t :: Holding(s, t, id) ==> id !in s.freeList && id !in s.usedList && !Retired(s, id)
    ensures forall t, u :: Holding(s, t, id) && Holding(s, u, id) ==> t == u
    ensures !Retired(s, id) ==> (s.recs[id].free <==> id in s.freeList)
  {
    hide Reach, RecOk, WorkOk, MappingsApart, OwnersOk, CountsOk, Distinct;
    EmptyOk();
    RunKeeps(EMPTY, acts, s);
    RecHolder(s, id);
    RecFlag(s, id);
    forall t | Holding(s, t, id) ensures s.place[id] == Held(t) { WorkPlace(s, t); }
    if s.place[id].Held? { assert Holding(s, s.place[id].t, id); }
  }

  lemma RecFlag(s: State, id: nat)
    requires RecOk(s, id)
    ensures (s.place[id] == OnFree ==> s.recs[id].free)
    ensures (s.place[id] == OnUsed || s.place[id].Held? ==> !s.recs[id].free)
  {
  }

  /** No cycle and no record twice on either list, the counters count, and what waits for
      reuse has served fewer than 16 allocations. */
  lemma ListsCounted(acts: seq<Act>, s: State)
    requires Reach(EMPTY, acts, s)
    ensures Distinct(s.freeList) && Distinct(s.usedList)
    ensures s.freeCount == |s.freeList| <= BIG_ZONE_MAX_FREE_LIST && s.usedCount == |s.usedList|
    ensures forall id :: id in s.freeList ==> id in s.recs && s.recs[id].ttl < BIG_ZONE_ALLOC_RETIRE
  {
    hide Reach, RecOk, WorkOk, MappingsApart, OwnersOk, Distinct;
    EmptyOk();
    RunKeeps(EMPTY, acts, s);
    forall id | id in s.freeList ensures id in s.recs && s.recs[id].ttl < BIG_ZONE_ALLOC_RETIRE {
      assert s.place[id] == OnFree;
      FreeIsYoung(s, id);
    }
  }

  lemma FreeIsYoung(s: State, id: nat)
    requires RecOk(s, id) && s.place[id] == OnFree
    ensures s.recs[id].ttl < BIG_ZONE_ALLOC_RETIRE
  {
  }

  /** In every run a freed mapping is kept exactly if it is freed for reuse, fewer than 64 are
      kept and it has served fewer than 16 allocations; then it heads the free list. Otherwise
      it is on no list. */
  lemma ParksExactly(acts: seq<Act>, s: State, t: nat, s': State)
    requires Reach(EMPTY, acts, s) && Step(s, t, Finish, s')
    ensures t in s.work && s.work[t].Retiring? && s.work[t].id in s.served && s.work[t].id in s'.place
    ensures var id := s.work[t].id;
      if !s.work[t].permanent && |s.freeList| < 64 && s.served[id] < 16
      then s'.place[id] == OnFree && s'.freeList == [id] + s.freeList && s'.usedList == s.usedList
      else
        && s'.place[id] == (if s.work[t].permanent then Sealed else Gone)
        && s'.freeList == s.freeList && s'.usedList == s.usedList && id !in s.freeList && id !in s.usedList
  {
    hide Reach, MappingsApart, OwnersOk, Distinct;
    EmptyOk();
    RunKeeps(EMPTY, acts, s);
    HeldUnlisted(s, t);
    assert RecOk(s, s.work[t].id);
  }

  /** In every run a kept mapping is reused exactly if one of at least the request, and at
      most 16 KB more, is kept. */
  lemma ReusesExactly(acts: seq<Act>, s: State, t: nat, size: nat, s': State)
    requires Reach(EMPTY, acts, s) && Step(s, t, StartAlloc(size), s')
    ensures t in s'.work
    ensures s'.work[t].Publishing? <==>
      exists id :: id in s.freeList && id in s.recs && size <= s.recs[id].size <= size + 16384
    ensures !s'.work[t].Publishing? ==> s'.work[t] == Waiting(size)
  {
    hide Reach, FirstFit, Fits;
    var recs := RecsOf(s, s.freeList);
    var k := FirstFit(recs, size);
    if k >= 0 { assert s.freeList[k] in s.freeList; }
    forall id | id in s.freeList && id in s.recs && size <= s.recs[id].size <= size + 16384 ensures k >= 0 {
      var j: nat :| j < |s.freeList| && s.freeList[j] == id;
      assert recs[j] == s.recs[id];
    }
  }

  /** Two clients never hold overlapping big allocations; each got at least what it
      asked for and at most 16 KB more; and no mapping is served a 17th time. */
  lemma ClientsSafe(acts: seq<Act>, s: State, i: nat, j: nat)
    requires Reach(EMPTY, acts, s) && i in s.owner && j in s.owner
    ensures i in s.recs && j in s.recs && i in s.asked && i in s.served
    ensures i != j ==> Apart(s.recs[i].start, s.recs[i].size, s.recs[j].start, s.recs[j].size)
    ensures s.asked[i] <= s.recs[i].size <= s.asked[i] + 2 * BIG_ZONE_WASTE
    ensures s.served[i] == s.recs[i].ttl <= BIG_ZONE_ALLOC_RETIRE
  {
    hide Reach, WorkOk, Distinct, Apart;
    EmptyOk();
    RunKeeps(EMPTY, acts, s);
    assert s.place[i] == OnUsed && s.place[j] == OnUsed;
    assert Alive(s, i) && Alive(s, j);
  }

  /** The corruption aborts inside the critical sections cannot fire: a free list
      with entries has a positive count and only free records, a record being
      retired is not free, and an address that is the start of a used mapping lies
      strictly inside no other. */
  lemma NoSpuriousAbort(acts: seq<Act>, s: State)
    requires Reach(EMPTY, acts, s)
    ensures s.freeList != [] ==> s.freeCount > 0
    ensures forall id :: id in s.freeList ==> id in s.recs && s.recs[id].free
    ensures forall t :: t in s.work && s.work[t].Retiring? ==> s.work[t].id in s.recs && !s.recs[s.work[t].id].free
    ensures forall i, j :: i in s.usedList && j in s.usedList ==>
      i in s.recs && j in s.recs && !(s.recs[j].start < s.recs[i].start < s.recs[j].start + s.recs[j].size)
  {
    hide Reach, RecOk, WorkOk, OwnersOk, Distinct, Apart, MappingsApart;
    EmptyOk();
    RunKeeps(EMPTY, acts, s);
    forall id | id in s.freeList ensures id in s.recs && s.recs[id].free {
      assert s.place[id] == OnFree;
      RecFlag(s, id);
    }
    forall t | t in s.work && s.work[t].Retiring? ensures s.work[t].id in s.recs && !s.recs[s.work[t].id].free {
      WorkPlace(s, t);
      RecFlag(s, s.work[t].id);
    }
    forall i, j | i in s.usedList && j in s.usedList
      ensures i in s.recs && j in s.recs && !(s.recs[j].start < s.recs[i].start < s.recs[j].start + s.recs[j].size)
    {
      assert s.place[i] == OnUsed && s.place[j] == OnUsed;
      UsedApart(s, i, j);
    }
  }

  lemma UsedApart(s: State, i: nat, j: nat)
    requires MappingsApart(s) && Alive(s, i) && Alive(s, j)
    requires RecOk(s, i) && RecOk(s, j)
    ensures !(s.recs[j].start < s.recs[i].start < s.recs[j].start + s.recs[j].size)
  {
  }

  /** A permanently freed mapping stays sealed, with its pages, in every continuation:
      no later allocation can return any of its addresses. */
  lemma {:induction false} SealedForever(s: State, acts: seq<Act>, s': State, id: nat)
    requires Inv(s) && Reach(s, acts, s') && id in s.recs && s.place[id] == Sealed
    ensures id in s'.recs && s'.recs[id] == s.recs[id] && id in s'.place && s'.place[id] == Sealed
    ensures forall j :: j in s'.owner ==>
      j in s'.recs && Apart(s'.recs[j].start, s'.recs[j].size, s.recs[id].start, s.recs[id].size)
    decreases |acts|
  {
    hide Step, RecOk, WorkOk, Apart, Distinct;
    if acts != [] {
      var mid :| Reach(s, Front(acts), mid) && Step(mid, Last(acts).t, Last(acts).e, s');
      SealedForever(s, Front(acts), mid, id);
      RunKeeps(s, Front(acts), mid);
      SealedStep(mid, Last(acts).t, Last(acts).e, s', id);
    }
    RunKeeps(s, acts, s');
    forall j | j in s'.owner
      ensures j in s'.recs && Apart(s'.recs[j].start, s'.recs[j].size, s.recs[id].start, s.recs[id].size)
    {
      assert s'.place[j] == OnUsed;
      assert Alive(s', j) && Alive(s', id);
    }
  }

  lemma SealedStep(s: State, t: nat, e: Event, s': State, id: nat)
    requires Inv(s) && Step(s, t, e, s') && id in s.recs && s.place[id] == Sealed
    ensures id in s'.recs && s'.recs[id] == s.recs[id] && id in s'.place && s'.place[id] == Sealed
  {
    hide Inv, FirstFit, FreshPages, Reusable, Without;
    SealedUnlisted(s, id);
    match e
    case StartAlloc(_) =>
    case Map(_, _) =>
    case Publish => HeldUnlisted(s, t);
    case StartFree(_, _) =>
    case Finish => HeldUnlisted(s, t);
  }

  lemma SealedUnlisted(s: State, id: nat)
    requires Inv(s) && id in s.recs && s.place[id] == Sealed
    ensures id in s.place && forall k: nat :: k < |s.freeList| ==> s.freeList[k] != id
    ensures forall k: nat :: k < |s.usedList| ==> s.usedList[k] != id
  {
  }

  /** Freeing an address a client was given takes exactly that record off the used
      list, whatever else is on it. */
  lemma FreeExact(acts: seq<Act>, s: State, t: nat, id: nat, permanent: bool, s': State)
    requires Reach(EMPTY, acts, s) && id in s.owner && id in s.recs
    requires Step(s, t, StartFree(s.recs[id].start, permanent), s')
    ensures s'.owner == s.owner - {id} && Holding(s', t, id)
    ensures forall x :: x in s'.usedList <==> x in s.usedList && x != id
    ensures s'.recs == s.recs && s'.freeList == s.freeList
  {
    hide Reach, RecOk, WorkOk, Distinct, Apart, Without, MappingsApart, ListOk, CountsOk;
    EmptyOk();
    RunKeeps(EMPTY, acts, s);
    var k: nat :| k < |s.usedList| && NamedBy(s, k, s.recs[id].start) && s' == Unlinked(s, t, k, permanent);
    var i: nat :| i < |s.usedList| && s.usedList[i] == id;
    UsedDrop(s, k);
    UsedDrop(s, i);
    SameStart(s, id, s.usedList[k]);
  }

  lemma SameStart(s: State, i: nat, j: nat)
    requires MappingsApart(s) && Alive(s, i) && Alive(s, j) && RecOk(s, i) && RecOk(s, j)
    requires s.recs[i].start == s.recs[j].start
    ensures i == j
  {
  }

  /** Nothing waits for ever: a thread with a record in hand can take its next section,
      and a handed-out mapping can be freed by any idle thread. */
  lemma NeverStuck(acts: seq<Act>, s: State, t: nat, id: nat)
    requires Reach(EMPTY, acts, s)
    ensures Holding(s, t, id) ==> exists e, s' :: Step(s, t, e, s') && t !in s'.work
    ensures t !in s.work && id in s.owner ==>
      exists p, s' :: Step(s, t, StartFree(p, false), s') && id !in s'.owner
  {
    hide Reach, RecOk, WorkOk, Distinct, Apart, Without, MappingsApart, Reusable;
    EmptyOk();
    RunKeeps(EMPTY, acts, s);
    if Holding(s, t, id) {
      WorkPlace(s, t);
      RecHolder(s, id);
      if s.work[t].Publishing? {
        assert Step(s, t, Publish, Published(s, t));
      } else {
        var reusable := Reusable(s.recs[id], s.freeCount, s.work[t].permanent);
        assert Step(s, t, Finish, if reusable then Parked(s, t) else Dropped(s, t));
      }
    } else if t !in s.work && id in s.owner {
      var k: nat :| k < |s.usedList| && s.usedList[k] == id;
      assert s.place[id] == OnUsed;
      assert NamedBy(s, k, s.recs[id].start);
      assert Step(s, t, StartFree(s.recs[id].start, false), Unlinked(s, t, k, false));
    }
  }
}
