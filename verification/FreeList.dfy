// The free-slot cache of a zone: filling it from the bitmap and shuffling it.
module FreeList {
  import opened Sequences
  import opened Words
  import opened Bitmap

  const ZONE_FREE_LIST_SZ: nat := 255
  const MIN_RAND_FREELIST: nat := 4
  const MIN_BITMAP_IDX: nat := 8

  /** Bitwise and of two natural numbers. */
  function BitAnd(x: nat, m: nat): (r: nat)
    ensures r <= m
  {
    if m == 0 then 0 else 2 * BitAnd(x / 2, m / 2) + (if x % 2 == 1 && m % 2 == 1 then 1 else 0)
  }

  /** The first n elements, or all of them when there are fewer. */
  function Take<T>(s: seq<T>, n: nat): seq<T> {
    if |s| <= n then s else s[..n]
  }

  /** The cache contents a slot-by-slot filter gives: the first 255 free slots
      at or above a chunk. */
  function FirstFree(states: seq<ChunkState>, from: nat): seq<int>
    requires from <= |states|
  {
    Take(FreeIn(states, from, |states|), ZONE_FREE_LIST_SZ)
  }

  // --------------------------------------------------- the free slots of a range

  lemma {:induction false} FreeInSplit(states: seq<ChunkState>, lo: nat, mid: nat, hi: nat)
    requires lo <= mid <= hi <= |states|
    ensures FreeIn(states, lo, hi) == FreeIn(states, lo, mid) + FreeIn(states, mid, hi)
  {
    if mid < hi { FreeInSplit(states, lo, mid, hi - 1); }
  }

  lemma {:induction false} FreeInNone(states: seq<ChunkState>, lo: nat, hi: nat)
    requires lo <= hi <= |states| && NoneFree(states, lo, hi)
    ensures FreeIn(states, lo, hi) == []
  {
    if lo < hi { FreeInNone(states, lo, hi - 1); }
  }

  /** Every entry is a free slot of the range, in increasing order. */
  lemma {:induction false} FreeInSound(states: seq<ChunkState>, lo: nat, hi: nat)
    requires lo <= hi <= |states|
    ensures forall k: nat :: k < |FreeIn(states, lo, hi)| ==>
      SlotFree(states, FreeIn(states, lo, hi)[k]) && 2 * lo <= FreeIn(states, lo, hi)[k] < 2 * hi
    ensures forall j: nat, k: nat :: j < k < |FreeIn(states, lo, hi)| ==>
      FreeIn(states, lo, hi)[j] < FreeIn(states, lo, hi)[k]
  {
    if lo < hi { FreeInSound(states, lo, hi - 1); }
  }

  /** Every free chunk of the range has an entry. */
  lemma {:induction false} FreeInComplete(states: seq<ChunkState>, lo: nat, hi: nat, c: nat)
    requires lo <= c < hi <= |states| && IsFree(states[c])
    ensures 2 * c in FreeIn(states, lo, hi)
  {
    if c < hi - 1 { FreeInComplete(states, lo, hi - 1, c); }
  }

  /** The next free chunk adds exactly its own slot. */
  lemma FreeInNext(states: seq<ChunkState>, lo: nat, mid: nat, c: nat)
    requires lo <= mid <= c < |states| && IsFree(states[c]) && NoneFree(states, mid, c)
    ensures FreeIn(states, lo, c + 1) == FreeIn(states, lo, mid) + [2 * c]
  {
    FreeInSplit(states, lo, mid, c);
    FreeInNone(states, mid, c);
  }

  // ------------------------------------------------------------------- filling

  /** How far a fill has come: the first n cache entries are the free slots of
      chunks lo..hi, or the cache is full with the first 255 of them. */
  ghost predicate Filled(states: seq<ChunkState>, lo: nat, hi: nat, entries: seq<int>, n: nat) {
    && lo <= hi <= |states|
    && n <= ZONE_FREE_LIST_SZ <= |entries|
    && entries[..n] == Take(FreeIn(states, lo, hi), ZONE_FREE_LIST_SZ)
    && (n < ZONE_FREE_LIST_SZ ==> entries[..n] == FreeIn(states, lo, hi))
    && forall k: nat :: n <= k < |entries| ==> entries[k] == BAD_BIT_SLOT
  }

  lemma FilledPush(states: seq<ChunkState>, lo: nat, mid: nat, c: nat, entries: seq<int>, n: nat)
    requires Filled(states, lo, mid, entries, n) && n < ZONE_FREE_LIST_SZ
    requires mid <= c < |states| && IsFree(states[c]) && NoneFree(states, mid, c)
    ensures Filled(states, lo, c + 1, entries[n := 2 * c], n + 1)
  {
    FreeInNext(states, lo, mid, c);
    assert entries[n := 2 * c][..n + 1] == entries[..n] + [2 * c];
  }

  lemma FilledSkip(states: seq<ChunkState>, lo: nat, mid: nat, hi: nat, entries: seq<int>, n: nat)
    requires Filled(states, lo, mid, entries, n)
    requires mid <= hi <= |states|
    requires n == ZONE_FREE_LIST_SZ || NoneFree(states, mid, hi)
    ensures Filled(states, lo, hi, entries, n)
  {
    FreeInSplit(states, lo, mid, hi);
    if n < ZONE_FREE_LIST_SZ { FreeInNone(states, mid, hi); }
  }

  /** The inner loop of fill_free_bit_slots over an all-zero qword. */
  method FillEmptyWord(ghost states: seq<ChunkState>, ghost lo: nat, i: nat, entries: array<int>, n0: nat)
    returns (n: nat)
    requires 32 * i + 32 <= |states| && AllNeverUsed(states, 32 * i, 32 * i + 32)
    requires entries.Length == ZONE_FREE_LIST_SZ && n0 < ZONE_FREE_LIST_SZ
    requires Filled(states, lo, 32 * i, entries[..], n0)
    modifies entries
    ensures Filled(states, lo, 32 * i + 32, entries[..], n)
  {
    hide FreeIn, Filled;
    n := n0;
    var z := 0;
    while z < 32
      invariant 0 <= z <= 32 && n <= ZONE_FREE_LIST_SZ
      invariant n < ZONE_FREE_LIST_SZ || z == 32
      invariant Filled(states, lo, 32 * i + z, entries[..], n)
    {
      FilledPush(states, lo, 32 * i + z, 32 * i + z, entries[..], n);
      entries[n] := 64 * i + 2 * z;
      n := n + 1;
      if n >= ZONE_FREE_LIST_SZ {
        FilledSkip(states, lo, 32 * i + z + 1, 32 * i + 32, entries[..], n);
        return;
      }
      z := z + 1;
    }
  }

  /** The bits left in a free mask while it is walked: one for each free chunk
      of word i from the t-th chunk on. */
  ghost predicate RestMask(states: seq<ChunkState>, i: nat, t: nat, m: bv64)
    requires 32 * i + 32 <= |states|
  {
    forall k: nat :: k < 64 ==> (Bit(m, k) <==> 2 * t <= k && k % 2 == 0 && IsFree(states[32 * i + k / 2]))
  }

  lemma RestStart(words: seq<bv64>, i: nat)
    requires i < |words|
    ensures RestMask(Decode(words), i, 0, FreeMask(words[i]))
  {
    hide Bit, FreeMask, Decode;
    forall k: nat | k < 64
      ensures Bit(FreeMask(words[i]), k) <==> k % 2 == 0 && IsFree(Decode(words)[32 * i + k / 2])
    {
      FreeMaskBit(words, i, k);
    }
  }

  lemma RestFirst(states: seq<ChunkState>, i: nat, t: nat, m: bv64)
    requires 32 * i + 32 <= |states| && t <= 32 && m != 0 && RestMask(states, i, t, m)
    ensures var k := Ctz(m);
      && k % 2 == 0 && t <= k / 2 < 32
      && IsFree(states[32 * i + k / 2]) && NoneFree(states, 32 * i + t, 32 * i + k / 2)
  {
    hide Bit;
    var k := Ctz(m);
    assert Bit(m, k);
    forall c: nat | 32 * i + t <= c < 32 * i + k / 2 ensures !IsFree(states[c]) {
      assert !Bit(m, 2 * (c - 32 * i));
    }
  }

  lemma RestAdvance(states: seq<ChunkState>, i: nat, t: nat, m: bv64)
    requires 32 * i + 32 <= |states| && t <= 32 && m != 0 && RestMask(states, i, t, m)
    ensures RestMask(states, i, Ctz(m) / 2 + 1, m & (m - 1))
  {
    hide Bit;
    var k := Ctz(m);
    var m' := m & (m - 1);
    assert Bit(m, k);
    forall j: nat | j < 64
      ensures Bit(m', j) <==> 2 * (k / 2 + 1) <= j && j % 2 == 0 && IsFree(states[32 * i + j / 2])
    {
      ClearLowest(m, j);
    }
  }

  lemma RestEmpty(states: seq<ChunkState>, i: nat, t: nat)
    requires 32 * i + 32 <= |states| && t <= 32 && RestMask(states, i, t, 0)
    ensures NoneFree(states, 32 * i + t, 32 * i + 32)
  {
    hide Bit;
    forall c: nat | 32 * i + t <= c < 32 * i + 32 ensures !IsFree(states[c]) {
      ZeroHasNoBit(2 * (c - 32 * i));
      assert !Bit(0, 2 * (c - 32 * i));
    }
  }

  /** The inner loop of fill_free_bit_slots over any other qword: ctz jumps to
      each free chunk, clear-lowest-bit moves past it. */
  method FillMixedWord(ghost states: seq<ChunkState>, ghost lo: nat, i: nat, mask: bv64, entries: array<int>, n0: nat)
    returns (n: nat)
    requires 32 * i + 32 <= |states| && RestMask(states, i, 0, mask)
    requires entries.Length == ZONE_FREE_LIST_SZ && n0 < ZONE_FREE_LIST_SZ
    requires Filled(states, lo, 32 * i, entries[..], n0)
    modifies entries
    ensures Filled(states, lo, 32 * i + 32, entries[..], n)
  {
    hide FreeIn, Filled, RestMask, Bit, NoneFree;
    n := n0;
    var m := mask;
    ghost var t := 0;
    while m != 0
      invariant t <= 32 && n < ZONE_FREE_LIST_SZ
      invariant RestMask(states, i, t, m)
      invariant Filled(states, lo, 32 * i + t, entries[..], n)
      decreases 32 - t
    {
      RestFirst(states, i, t, m);
      var k := Ctz(m);
      FilledPush(states, lo, 32 * i + t, 32 * i + k / 2, entries[..], n);
      entries[n] := 64 * i + k;
      n := n + 1;
      if n >= ZONE_FREE_LIST_SZ {
        FilledSkip(states, lo, 32 * i + k / 2 + 1, 32 * i + 32, entries[..], n);
        return;
      }
      RestAdvance(states, i, t, m);
      m := m & (m - 1);
      t := k / 2 + 1;
    }
    RestEmpty(states, i, t);
    FilledSkip(states, lo, 32 * i + t, 32 * i + 32, entries[..], n);
  }

  lemma FilledAtStart(states: seq<ChunkState>, lo: nat, entries: seq<int>)
    requires lo <= |states| && ZONE_FREE_LIST_SZ <= |entries|
    requires forall k: nat :: k < |entries| ==> entries[k] == BAD_BIT_SLOT
    ensures Filled(states, lo, lo, entries, 0)
  {
  }

  lemma FilledAtEnd(states: seq<ChunkState>, lo: nat, hi: nat, entries: seq<int>, n: nat)
    requires Filled(states, lo, hi, entries, n)
    requires n == ZONE_FREE_LIST_SZ || hi == |states|
    ensures entries[..n] == FirstFree(states, lo)
    ensures forall k: nat :: n <= k < |entries| ==> entries[k] == BAD_BIT_SLOT
  {
    hide FreeIn;
    if n == ZONE_FREE_LIST_SZ { FilledSkip(states, lo, hi, |states|, entries, n); }
  }

  /** fill_free_bit_slots before the shuffle: from a start qword on, the cache
      becomes exactly what the slot-by-slot filter gives. */
  method Fill(bm: array<bv64>, start: nat, entries: array<int>) returns (n: nat)
    requires start <= bm.Length && entries.Length == ZONE_FREE_LIST_SZ
    requires bm as object != entries
    modifies entries
    ensures n <= ZONE_FREE_LIST_SZ
    ensures entries[..n] == FirstFree(Decode(bm[..]), 32 * start)
    ensures forall k: nat :: n <= k < ZONE_FREE_LIST_SZ ==> entries[k] == BAD_BIT_SLOT
  {
    hide Decode, FreeIn, Filled, RestMask, FreeMask, AllNeverUsed, FirstFree;
    ghost var words := bm[..];
    ghost var states := Decode(words);
    forall k | 0 <= k < entries.Length { entries[k] := BAD_BIT_SLOT; }
    n := 0;
    FilledAtStart(states, 32 * start, entries[..]);
    var i := start;
    while n < ZONE_FREE_LIST_SZ && i < bm.Length
      invariant start <= i <= bm.Length && n <= ZONE_FREE_LIST_SZ
      invariant bm[..] == words
      invariant Filled(states, 32 * start, 32 * i, entries[..], n)
      decreases bm.Length - i
    {
      var bts := bm[i];
      if bts == 0 {
        DecodeZeroWord(words, i);
        n := FillEmptyWord(states, 32 * start, i, entries, n);
      } else {
        RestStart(words, i);
        n := FillMixedWord(states, 32 * start, i, FreeMask(bts), entries, n);
      }
      FilledBound(states, 32 * start, 32 * i + 32, entries[..], n);
      i := i + 1;
    }
    FilledAtEnd(states, 32 * start, 32 * i, entries[..], n);
  }

  lemma FilledBound(states: seq<ChunkState>, lo: nat, hi: nat, entries: seq<int>, n: nat)
    requires Filled(states, lo, hi, entries, n)
    ensures n <= ZONE_FREE_LIST_SZ
  {
  }

  // ------------------------------------------------------------------ shuffling

  /** No position holds the element it held before. */
  ghost predicate Deranged<T>(before: seq<T>, after: seq<T>) {
    |before| == |after| && forall k: nat :: k < |before| ==> after[k] != before[k]
  }

  /** Positions up to i are still being shuffled: each holds its own first
      element or one that came from a finished position. */
  ghost predicate Unsettled<T>(before: seq<T>, now: seq<T>, i: nat)
    requires |before| == |now|
  {
    forall k: nat :: k <= i && k < |now| ==>
      now[k] == before[k] || exists q: nat :: i < q < |before| && now[k] == before[q]
  }

  lemma ShuffleStep<T>(before: seq<T>, now: seq<T>, i: nat, j: nat)
    requires |before| == |now| && Distinct(before) && j < i < |now|
    requires Unsettled(before, now, i)
    ensures now[j] != before[i] && now[i] != before[j]
    ensures Unsettled(before, Swapped(now, i, j), i - 1)
  {
  }

  function Swapped<T>(s: seq<T>, i: nat, j: nat): (r: seq<T>)
    requires i < |s| && j < |s|
    ensures |r| == |s| && multiset(r) == multiset(s)
  {
    s[j := s[i]][i := s[j]]
  }

  lemma SwapKeepsDistinct<T>(s: seq<T>, i: nat, j: nat)
    requires j < i < |s| && Distinct(s)
    ensures Distinct(Swapped(s, i, j))
  {
  }

  /** Positions above i are finished, and so is position 0 once i reaches it. */
  ghost predicate Settled<T>(before: seq<T>, now: seq<T>, i: nat)
    requires |before| == |now|
  {
    && (forall k: nat :: i < k < |now| ==> now[k] != before[k])
    && (i == 0 && |now| > 1 ==> now[0] != before[0])
  }

  lemma ShuffleSettles<T>(before: seq<T>, now: seq<T>, i: nat, j: nat)
    requires |before| == |now| && Distinct(before) && j < i < |now|
    requires Unsettled(before, now, i) && Settled(before, now, i)
    ensures Settled(before, Swapped(now, i, j), i - 1)
  {
  }

  /** The free-list randomisation of fill_free_bit_slots: j < i at every step
      makes it Sattolo's variant of the Fisher-Yates shuffle. */
  method Shuffle(entries: array<int>, n: nat)
    requires n <= entries.Length && Distinct(entries[..n])
    modifies entries
    ensures multiset(entries[..n]) == multiset(old(entries[..n])) && Distinct(entries[..n])
    ensures entries[n..] == old(entries[n..])
    ensures n > MIN_RAND_FREELIST ==> Deranged(old(entries[..n]), entries[..n])
    ensures n <= MIN_RAND_FREELIST ==> entries[..n] == old(entries[..n])
  {
    if n <= MIN_RAND_FREELIST { return; }
    hide Swapped, Unsettled, Distinct;
    ghost var before := entries[..n];
    UnsettledAtStart(before, n - 1);
    var i := n - 1;
    while i > 0
      invariant 0 <= i < n
      invariant multiset(entries[..n]) == multiset(before) && Distinct(entries[..n])
      invariant entries[n..] == old(entries[n..])
      invariant Unsettled(before, entries[..n], i) && Settled(before, entries[..n], i)
      decreases i
    {
      var draw: nat := *;
      var j := ScaleDraw(draw, i);
      ghost var now := entries[..n];
      ShuffleStep(before, now, i, j);
      ShuffleSettles(before, now, i, j);
      SwapKeepsDistinct(now, i, j);
      SwapEntries(entries, n, i, j);
      i := i - 1;
    }
  }

  lemma UnsettledAtStart<T>(before: seq<T>, i: nat)
    ensures Unsettled(before, before, i)
  {
  }

  /** ((free_bit_slot_t) rand * i) >> FREE_LIST_SHF: a 16-bit draw scaled to a
      position strictly below i. */
  function ScaleDraw(draw: nat, i: nat): (j: nat)
    requires i > 0
    ensures j < i
  {
    ScaledBelow(draw % 65536, i);
    (draw % 65536) * i / 65536
  }

  lemma ScaledBelow(d: nat, i: nat)
    requires d < 65536 && i > 0
    ensures d * i / 65536 < i
  {
  }

  method SwapEntries(entries: array<int>, n: nat, i: nat, j: nat)
    requires j < i < n <= entries.Length
    modifies entries
    ensures entries[..n] == Swapped(old(entries[..n]), i, j)
    ensures entries[n..] == old(entries[n..])
  {
    var t := entries[j];
    entries[j] := entries[i];
    entries[i] := t;
  }
}
