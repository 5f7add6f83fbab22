// The two whole-bitmap searches, in the three forms the source compiles:
// 128-bit words, two-lane vectors, and single qwords.
module Scan {
  import opened Words
  import opened Bitmap

  // ------------------------------------------------------------ 128-bit words

  /** Two adjacent bitmap qwords loaded as one little-endian __int128. */
  function LoadPair(lo: bv64, hi: bv64): bv128 {
    ((hi as bv128) << 64) | (lo as bv128)
  }

  function LowHalf(d: bv128): bv64 {
    (d & 0xffff_ffff_ffff_ffff) as bv64
  }

  function HighHalf(d: bv128): bv64 {
    (d >> 64) as bv64
  }

  lemma PairHalves(lo: bv64, hi: bv64)
    ensures LowHalf(LoadPair(lo, hi)) == lo && HighHalf(LoadPair(lo, hi)) == hi
    ensures LoadPair(lo, hi) == 0 <==> lo == 0 && hi == 0
  {
  }

  // -------------------------------------------------------------- fast search

  /** What the fast search promises: a run of never-used chunks or nothing. */
  predicate IsEmptyWordSlot(states: seq<ChunkState>, slot: int)
    requires |states| % 32 == 0
  {
    slot == BAD_BIT_SLOT
    || (&& 0 <= slot && slot % 64 == 0 && slot / 2 + 32 <= |states|
        && AllNeverUsed(states, slot / 2, slot / 2 + 32))
  }

  /** No qword below the i-th is all zero. */
  predicate NoEmptyWord(words: seq<bv64>, n: nat)
    requires n <= |words|
  {
    forall i: nat :: i < n ==> words[i] != 0
  }

  lemma EmptyWordSlot(words: seq<bv64>, i: nat)
    requires i < |words| && words[i] == 0
    ensures IsEmptyWordSlot(Decode(words), 64 * i)
  {
  }

  /** iso_scan_zone_free_slot, 128-bit form: only an aligned pair of empty
      qwords is reported, and the odd last qword is never looked at. */
  method ScanFastPairs(bm: array<bv64>) returns (slot: int)
    ensures IsEmptyWordSlot(Decode(bm[..]), slot)
    ensures slot == BAD_BIT_SLOT <==> forall i: nat :: 2 * i + 1 < bm.Length ==> bm[2 * i] != 0 || bm[2 * i + 1] != 0
    ensures slot != BAD_BIT_SLOT ==>
      slot % 128 == 0 && forall i: nat :: i < slot / 128 ==> bm[2 * i] != 0 || bm[2 * i + 1] != 0
  {
    hide LoadPair, Decode, IsEmptyWordSlot;
    var max := bm.Length / 2;
    for i: nat := 0 to max
      invariant forall j: nat :: j < i ==> bm[2 * j] != 0 || bm[2 * j + 1] != 0
    {
      PairHalves(bm[2 * i], bm[2 * i + 1]);
      if LoadPair(bm[2 * i], bm[2 * i + 1]) == 0 {
        EmptyWordSlot(bm[..], 2 * i);
        assert bm[2 * i] == 0 && bm[2 * i + 1] == 0;
        return 128 * i;
      }
    }
    NoEmptyIsBad(bm[..]);
    return BAD_BIT_SLOT;
  }

  lemma NoEmptyIsBad(words: seq<bv64>)
    ensures IsEmptyWordSlot(Decode(words), BAD_BIT_SLOT)
  {
  }

  /** iso_scan_zone_free_slot, two-lane form: the lowest empty qword among the
      pairs; like the 128-bit form it skips an odd last qword. */
  method ScanFastLanes(bm: array<bv64>) returns (slot: int)
    ensures IsEmptyWordSlot(Decode(bm[..]), slot)
    ensures slot == BAD_BIT_SLOT ==> NoEmptyWord(bm[..], bm.Length - bm.Length % 2)
    ensures slot != BAD_BIT_SLOT ==> bm[slot / 64] == 0 && NoEmptyWord(bm[..], slot / 64)
  {
    hide Decode, IsEmptyWordSlot;
    var max := bm.Length - bm.Length % 2;
    var i := 0;
    while i < max
      invariant 0 <= i <= max && i % 2 == 0
      invariant NoEmptyWord(bm[..], i)
    {
      if bm[i] == 0 {
        EmptyWordSlot(bm[..], i);
        return 64 * i;
      }
      if bm[i + 1] == 0 {
        EmptyWordSlot(bm[..], i + 1);
        return 64 * (i + 1);
      }
      i := i + 2;
    }
    NoEmptyIsBad(bm[..]);
    return BAD_BIT_SLOT;
  }

  /** iso_scan_zone_free_slot, qword form: the lowest empty qword of all. */
  method ScanFastWords(bm: array<bv64>) returns (slot: int)
    ensures IsEmptyWordSlot(Decode(bm[..]), slot)
    ensures slot == BAD_BIT_SLOT ==> NoEmptyWord(bm[..], bm.Length)
    ensures slot != BAD_BIT_SLOT ==> bm[slot / 64] == 0 && NoEmptyWord(bm[..], slot / 64)
  {
    hide Decode, IsEmptyWordSlot;
    for i: nat := 0 to bm.Length
      invariant NoEmptyWord(bm[..], i)
    {
      if bm[i] == 0 {
        EmptyWordSlot(bm[..], i);
        return 64 * i;
      }
    }
    NoEmptyIsBad(bm[..]);
    return BAD_BIT_SLOT;
  }

  // -------------------------------------------------------------- slow search

  lemma FirstFreeFound(words: seq<bv64>, i: nat)
    requires i < |words| && FreeMask(words[i]) != 0
    requires NoneFree(Decode(words), 0, 32 * i)
    ensures IsLowestFree(Decode(words), 64 * i + Ctz(FreeMask(words[i])))
  {
    hide Decode, FreeMask, Bit;
    FreeMaskFirst(words, i);
    var k := Ctz(FreeMask(words[i]));
    assert (64 * i + k) / 2 == 32 * i + k / 2;
  }

  lemma FullWordPassed(words: seq<bv64>, i: nat)
    requires i < |words| && FreeMask(words[i]) == 0
    requires NoneFree(Decode(words), 0, 32 * i)
    ensures NoneFree(Decode(words), 0, 32 * (i + 1))
  {
    hide Decode, FreeMask;
    FreeMaskZero(words, i);
  }

  /** The qword loop both wide forms fall through to, from any start index. */
  method ScanSlowTail(bm: array<bv64>, from: nat) returns (slot: int)
    requires from <= bm.Length
    requires NoneFree(Decode(bm[..]), 0, 32 * from)
    ensures IsLowestFree(Decode(bm[..]), slot)
  {
    hide Decode, FreeMask, NoneFree, IsLowestFree, Bit;
    ghost var words := bm[..];
    for i: nat := from to bm.Length
      invariant NoneFree(Decode(words), 0, 32 * i)
    {
      var freeMask := FreeMask(bm[i]);
      if freeMask != 0 {
        FirstFreeFound(words, i);
        return 64 * i + Ctz(freeMask);
      }
      FullWordPassed(words, i);
    }
    NothingFree(words);
    return BAD_BIT_SLOT;
  }

  lemma NothingFree(words: seq<bv64>)
    requires NoneFree(Decode(words), 0, 32 * |words|)
    ensures IsLowestFree(Decode(words), BAD_BIT_SLOT)
  {
  }

  lemma NoneFreeBelow(words: seq<bv64>, m: nat, n: nat)
    requires m <= n <= |words| && NoneFree(Decode(words), 0, 32 * n)
    ensures NoneFree(Decode(words), 0, 32 * m)
  {
  }

  /** iso_scan_zone_free_slot_slow, 128-bit form. The fall-through restarts the
      qword loop at the number of pairs, not at the number of qwords examined,
      and so looks at the upper half of the bitmap twice. */
  method ScanSlowPairs(bm: array<bv64>) returns (slot: int)
    ensures IsLowestFree(Decode(bm[..]), slot)
  {
    hide Decode, FreeMask, NoneFree, IsLowestFree, Bit, LoadPair, LowHalf, HighHalf;
    ghost var words := bm[..];
    var max := bm.Length / 2;
    NoneFreeAtStart(words);
    for i: nat := 0 to max
      invariant NoneFree(Decode(words), 0, 32 * (2 * i))
    {
      var bts := LoadPair(bm[2 * i], bm[2 * i + 1]);
      PairHalves(bm[2 * i], bm[2 * i + 1]);
      var freeLo := FreeMask(LowHalf(bts));
      if freeLo != 0 {
        FirstFreeFound(words, 2 * i);
        return 128 * i + Ctz(freeLo);
      }
      FullWordPassed(words, 2 * i);
      var freeHi := FreeMask(HighHalf(bts));
      if freeHi != 0 {
        FirstFreeFound(words, 2 * i + 1);
        return 128 * i + 64 + Ctz(freeHi);
      }
      FullWordPassed(words, 2 * i + 1);
    }
    NoneFreeBelow(words, max, 2 * max);
    slot := ScanSlowTail(bm, max);
  }

  lemma NoneFreeAtStart(words: seq<bv64>)
    ensures NoneFree(Decode(words), 0, 0)
  {
  }

  /** iso_scan_zone_free_slot_slow, two-lane form. */
  method ScanSlowLanes(bm: array<bv64>) returns (slot: int)
    ensures IsLowestFree(Decode(bm[..]), slot)
  {
    hide Decode, FreeMask, NoneFree, IsLowestFree, Bit;
    ghost var words := bm[..];
    var max := bm.Length - bm.Length % 2;
    NoneFreeAtStart(words);
    var i := 0;
    while i < max
      invariant 0 <= i <= max && i % 2 == 0
      invariant NoneFree(Decode(words), 0, 32 * i)
    {
      var free0 := FreeMask(bm[i]);
      if free0 != 0 {
        FirstFreeFound(words, i);
        return 64 * i + Ctz(free0);
      }
      FullWordPassed(words, i);
      var free1 := FreeMask(bm[i + 1]);
      if free1 != 0 {
        FirstFreeFound(words, i + 1);
        return 64 * (i + 1) + Ctz(free1);
      }
      FullWordPassed(words, i + 1);
      i := i + 2;
    }
    if max == bm.Length {
      NothingFree(words);
      return BAD_BIT_SLOT;
    }
    slot := ScanSlowTail(bm, max);
  }

  /** iso_scan_zone_free_slot_slow, qword form. */
  method ScanSlowWords(bm: array<bv64>) returns (slot: int)
    ensures IsLowestFree(Decode(bm[..]), slot)
  {
    hide *;
    NoneFreeAtStart(bm[..]);
    slot := ScanSlowTail(bm, 0);
  }

  /** The plain search has one answer, so the three slow forms agree. */
  lemma LowestFreeUnique(states: seq<ChunkState>, a: int, b: int)
    requires IsLowestFree(states, a) && IsLowestFree(states, b)
    ensures a == b
  {
  }
}
