// The per-thread cache of most recently used zones (_tzc).
module ZoneCaches {

  const ZONE_CACHE_SZ: nat := 8

  /** A cached zone, named by its index in the zones array, and its chunk size. */
  datatype CacheEntry = CacheEntry(at: nat, chunkSize: nat)

  /** populate_zone_cache on the entries in use: the newest entry is not repeated,
      and the ninth entry pushes out the oldest. */
  function Pushed(entries: seq<CacheEntry>, e: CacheEntry): seq<CacheEntry> {
    if entries != [] && entries[|entries| - 1].at == e.at then entries
    else if |entries| < ZONE_CACHE_SZ then entries + [e]
    else entries[1..] + [e]
  }

  // ------------------------------------------------------------ what it remembers

  /** A history of insertions with consecutive repeats of a zone removed. */
  function Dedup(history: seq<CacheEntry>): (r: seq<CacheEntry>)
    ensures |r| <= |history|
  {
    if history == [] then []
    else
      var d := Dedup(history[..|history| - 1]);
      var e := history[|history| - 1];
      if d != [] && d[|d| - 1].at == e.at then d else d + [e]
  }

  function LastFew<T>(s: seq<T>, n: nat): seq<T> {
    if |s| <= n then s else s[|s| - n..]
  }

  /** What the cache holds after a history of insertions into an empty cache. */
  function Recall(history: seq<CacheEntry>): seq<CacheEntry> {
    LastFew(Dedup(history), ZONE_CACHE_SZ)
  }

  /** One more insertion extends the history by one. */
  lemma RecallPushed(history: seq<CacheEntry>, e: CacheEntry)
    ensures Recall(history + [e]) == Pushed(Recall(history), e)
  {
  }

  /** The cache as it lies in memory: eight slots and a count. */
  class ZoneCache {
    var slots: array<CacheEntry>
    var count: nat
    ghost var history: seq<CacheEntry>

    ghost predicate Valid()
      reads this, slots
    {
      slots.Length == ZONE_CACHE_SZ && count <= ZONE_CACHE_SZ && slots[..count] == Recall(history)
    }

    constructor ()
      ensures Valid() && history == [] && fresh(slots)
    {
      slots := new CacheEntry[ZONE_CACHE_SZ](_ => CacheEntry(0, 0));
      count, history := 0, [];
    }

    /** populate_zone_cache: after any sequence of insertions the cache holds the
        last eight of them, consecutive repeats removed. Private zones are not
        inserted. */
    method Populate(at: nat, chunkSize: nat, internal: bool)
      requires Valid()
      modifies this, slots
      ensures Valid() && slots == old(slots)
      ensures history == old(history) + if internal then [CacheEntry(at, chunkSize)] else []
      ensures internal ==> slots[..count] == Pushed(old(slots[..count]), CacheEntry(at, chunkSize))
      ensures !internal ==> slots[..count] == old(slots[..count])
    {
      hide Recall;
      ghost var before := slots[..count];
      var e := CacheEntry(at, chunkSize);
      if internal {
        RecallPushed(history, e);
        history := history + [e];
      }
      if count != 0 && slots[count - 1].at == at { return; }
      if !internal { return; }
      if count < ZONE_CACHE_SZ {
        slots[count] := e;
        count := count + 1;
      } else {
        ShiftDown();
        count := ZONE_CACHE_SZ - 1;
        slots[count] := e;
        count := count + 1;
      }
      assert slots[..count] == Pushed(before, e);
    }

    /** The memmove that drops the oldest entry. */
    method ShiftDown()
      requires slots.Length == ZONE_CACHE_SZ
      modifies slots
      ensures slots[..ZONE_CACHE_SZ - 1] == old(slots[1..])
    {
      for k := 0 to ZONE_CACHE_SZ - 1
        invariant forall j: nat :: j < k ==> slots[j] == old(slots[j + 1])
        invariant forall j: nat :: k <= j < ZONE_CACHE_SZ ==> slots[j] == old(slots[j])
      {
        slots[k] := slots[k + 1];
      }
    }

    /** clear_zone_cache. */
    method Clear()
      requires Valid()
      modifies this`count, this`history
      ensures Valid() && slots[..count] == [] && history == []
    {
      count, history := 0, [];
    }

    /** The pre-lock scan of _iso_alloc: the newest cached zone whose chunks are
        large enough. */
    method Candidate(size: nat) returns (k: int)
      requires Valid()
      ensures -1 <= k < count
      ensures k >= 0 ==> slots[k].chunkSize >= size
      ensures forall j: nat :: k < j < count ==> slots[j].chunkSize < size
    {
      k := count - 1;
      while k >= 0
        invariant -1 <= k < count
        invariant forall j: nat :: k < j < count ==> slots[j].chunkSize < size
      {
        if slots[k].chunkSize >= size { return; }
        k := k - 1;
      }
    }
  }
}
