// The read-only walks over a zone: _verify_zone and the leak detector. Both
// follow set bits with ctz and clear-lowest-bit; both are related here to a
// chunk-by-chunk reading of the zone.
module Checks {
  import opened Words
  import opened Bitmap
  import opened Geometry
  import opened ZoneState
  import opened Zones

  // ------------------------------------------------------------- _verify_zone

  /** bm[i] & CANARY_BIT_VECTOR: one bit per chunk that must carry a canary. */
  function CanaryMask(w: bv64): bv64 {
    w & !USED_BIT_VECTOR
  }

  lemma CanaryMaskBit(words: seq<bv64>, i: nat, k: nat)
    requires i < |words| && k < 64
    ensures Bit(CanaryMask(words[i]), k) <==> k % 2 == 1 && HasCanary(Decode(words)[32 * i + k / 2])
  {
    hide Bit, Decode;
    BitOfAnd(words[i], !USED_BIT_VECTOR, k);
    BitOfNot(USED_BIT_VECTOR, k);
    BitOfEvenVector(k);
    DecodeAt(words, i, k / 2);
  }

  /** The bits left in the mask: the canaried chunks of word i from the t-th on. */
  ghost predicate CanariesLeft(states: seq<ChunkState>, i: nat, t: nat, m: bv64)
    requires 32 * i + 32 <= |states|
  {
    forall k: nat :: k < 64 ==> (Bit(m, k) <==> 2 * t <= k && k % 2 == 1 && HasCanary(states[32 * i + k / 2]))
  }

  lemma CanariesLeftStart(words: seq<bv64>, i: nat)
    requires i < |words|
    ensures CanariesLeft(Decode(words), i, 0, CanaryMask(words[i]))
  {
    hide Bit, Decode, CanaryMask;
    var m := CanaryMask(words[i]);
    forall k: nat | k < 64
      ensures Bit(m, k) <==> k % 2 == 1 && HasCanary(Decode(words)[32 * i + k / 2])
    {
      CanaryMaskBit(words, i, k);
    }
  }

  /** No chunk of [lo, hi) needs a canary. */
  ghost predicate NoCanaries(states: seq<ChunkState>, lo: nat, hi: nat)
    requires hi <= |states|
  {
    forall c: nat :: lo <= c < hi ==> !HasCanary(states[c])
  }

  lemma CanariesLeftFirst(states: seq<ChunkState>, i: nat, t: nat, m: bv64)
    requires 32 * i + 32 <= |states| && m != 0 && CanariesLeft(states, i, t, m)
    ensures var c := 32 * i + Ctz(m) / 2;
            && Ctz(m) % 2 == 1 && t <= Ctz(m) / 2 < 32
            && HasCanary(states[c])
            && NoCanaries(states, 32 * i + t, c)
  {
    hide Bit;
    var k := Ctz(m);
    assert Bit(m, k);
    forall c: nat | 32 * i + t <= c < 32 * i + k / 2 ensures !HasCanary(states[c]) {
      assert !Bit(m, 2 * (c - 32 * i) + 1);
    }
  }

  lemma CanariesLeftAdvance(states: seq<ChunkState>, i: nat, t: nat, m: bv64)
    requires 32 * i + 32 <= |states| && m != 0 && CanariesLeft(states, i, t, m)
    ensures CanariesLeft(states, i, Ctz(m) / 2 + 1, m & (m - 1))
  {
    hide Bit;
    var k := Ctz(m);
    var m' := m & (m - 1);
    assert Bit(m, k);
    forall j: nat | j < 64
      ensures Bit(m', j) <==> 2 * (k / 2 + 1) <= j && j % 2 == 1 && HasCanary(states[32 * i + j / 2])
    {
      ClearLowest(m, j);
    }
  }

  lemma CanariesLeftNone(states: seq<ChunkState>, i: nat, t: nat)
    requires 32 * i + 32 <= |states| && CanariesLeft(states, i, t, 0)
    ensures NoCanaries(states, 32 * i + t, 32 * i + 32)
  {
    hide Bit;
    forall c: nat | 32 * i + t <= c < 32 * i + 32 ensures !HasCanary(states[c]) {
      ZeroHasNoBit(2 * (c - 32 * i) + 1);
      assert !Bit(0, 2 * (c - 32 * i) + 1);
    }
  }

  /** Every chunk below n that needs a canary has it. */
  ghost predicate VerifiedBelow(z: ZoneView, n: nat)
    requires GeometryOk(z) && n <= |z.states|
  {
    forall c: nat :: c < n && HasCanary(z.states[c]) ==> CanaryOkAt(z, c)
  }

  lemma VerifiedSkip(z: ZoneView, m: nat, n: nat)
    requires GeometryOk(z) && m <= n <= |z.states|
    requires VerifiedBelow(z, m) && NoCanaries(z.states, m, n)
    ensures VerifiedBelow(z, n)
  {
    hide CanaryOkAt;
  }

  lemma VerifiedNext(z: ZoneView, c: nat)
    requires GeometryOk(z) && c < |z.states|
    requires VerifiedBelow(z, c) && CanaryOkAt(z, c)
    ensures VerifiedBelow(z, c + 1)
  {
  }

  lemma BrokenFound(z: ZoneView, c: nat)
    requires GeometryOk(z) && c < |z.states| && HasCanary(z.states[c]) && !CanaryOkAt(z, c)
    ensures !CanariesIntact(z)
  {
    hide CanaryOkAt;
  }

  /** The inner loop over one qword. */
  method VerifyWord(zone: Zone, i: nat) returns (aborted: bool)
    requires zone.Shape() && i < zone.maxBitmapIdx
    requires GeometryOk(zone.View()) && VerifiedBelow(zone.View(), 32 * i)
    ensures aborted ==> !CanariesIntact(zone.View())
    ensures !aborted ==> VerifiedBelow(zone.View(), 32 * i + 32)
  {
    hide Decode, Bit, CanaryMask, CanariesLeft, VerifiedBelow, ChunkCanaryIntact, CanariesIntact, NoCanaries;
    hide MaxBitmapIdx, ChunkCount;
    ghost var z := zone.View();
    var mask := CanaryMask(zone.bitmap[i]);
    CanariesLeftStart(zone.bitmap[..], i);
    ghost var t := 0;
    while mask != 0
      invariant t <= 32
      invariant CanariesLeft(z.states, i, t, mask)
      invariant VerifiedBelow(z, 32 * i + t)
      decreases 32 - t
    {
      var j := Ctz(mask);
      CanariesLeftFirst(z.states, i, t, mask);
      CanariesLeftAdvance(z.states, i, t, mask);
      mask := mask & (mask - 1);
      var slot := 64 * i + j;
      assert slot / 2 == 32 * i + j / 2;
      AddressableIsReal(z, slot / 2);
      var ok := zone.CheckCanary(slot / 2);
      if !ok {
        BrokenFound(z, slot / 2);
        return true;
      }
      VerifiedSkip(z, 32 * i + t, slot / 2);
      VerifiedNext(z, slot / 2);
      t := j / 2 + 1;
    }
    CanariesLeftNone(z.states, i, t);
    VerifiedSkip(z, 32 * i + t, 32 * i + 32);
    return false;
  }

  /** The two-lane quick reject: no bit in the two qwords together, none in either. */
  lemma PairMask(lo: bv64, hi: bv64)
    ensures CanaryMask(lo | hi) == 0 <==> CanaryMask(lo) == 0 && CanaryMask(hi) == 0
    ensures lo | hi == 0 <==> lo == 0 && hi == 0
  {
  }

  lemma EmptyMaskSkips(words: seq<bv64>, z: ZoneView, i: nat)
    requires i < |words| && CanaryMask(words[i]) == 0 && GeometryOk(z) && z.states == Decode(words)
    requires VerifiedBelow(z, 32 * i)
    ensures VerifiedBelow(z, 32 * i + 32)
  {
    hide Decode, CanaryMask, CanariesLeft, NoCanaries, VerifiedBelow, GeometryOk;
    CanariesLeftStart(words, i);
    CanariesLeftNone(z.states, i, 0);
    VerifiedSkip(z, 32 * i, 32 * i + 32);
  }

  /** _verify_zone, with or without the two-lane form, passes exactly when every canary is
      intact. */
  method VerifyZone(zone: Zone, neon: bool) returns (aborted: bool)
    requires zone.Shape()
    ensures GeometryOk(zone.View())
    ensures aborted <==> !CanariesIntact(zone.View())
  {
    hide Decode, VerifiedBelow, CanariesIntact, CanaryMask;
    ghost var z := zone.View();
    VerifyStart(z);
    var i: nat := 0;
    while i < zone.maxBitmapIdx
      invariant i <= zone.maxBitmapIdx && VerifiedBelow(z, 32 * i)
    {
      if neon && i + 1 < zone.maxBitmapIdx && CanaryMask(zone.bitmap[i] | zone.bitmap[i + 1]) == 0 {
        PairMask(zone.bitmap[i], zone.bitmap[i + 1]);
        EmptyMaskSkips(zone.bitmap[..], z, i);
        EmptyMaskSkips(zone.bitmap[..], z, i + 1);
        i := i + 2;
        continue;
      }
      var stop := VerifyWord(zone, i);
      if stop { return true; }
      i := i + 1;
    }
    VerifyEnd(z);
    return false;
  }

  lemma VerifyStart(z: ZoneView)
    requires GeometryOk(z)
    ensures VerifiedBelow(z, 0)
  {
  }

  lemma VerifyEnd(z: ZoneView)
    requires GeometryOk(z)
    ensures VerifiedBelow(z, |z.states|) == CanariesIntact(z)
  {
    hide CanaryOkAt;
  }

  // ------------------------------------------------------------ leak detector

  /** (~bts) & (bts >> 1) & USED_BIT_VECTOR: one bit per chunk in state 01. */
  function WasUsedMask(w: bv64): bv64 {
    !w & (w >> 1) & USED_BIT_VECTOR
  }

  lemma WasUsedMaskBit(w: bv64, k: nat)
    requires k < 64
    ensures Bit(WasUsedMask(w), k) <==> k % 2 == 0 && !Bit(w, k) && Bit(w, k + 1)
  {
    hide Bit;
    BitOfEvenVector(k);
    BitOfThreeWayAnd(!w, w >> 1, USED_BIT_VECTOR, k);
    BitOfNot(w, k);
    if k % 2 == 0 { BitOfShift(w, k); }
  }

  lemma WasUsedBit(words: seq<bv64>, i: nat, k: nat)
    requires i < |words| && k < 64
    ensures Bit(WasUsedMask(words[i]), k) <==> k % 2 == 0 && Decode(words)[32 * i + k / 2] == Freed
  {
    hide Bit, Decode, WasUsedMask;
    WasUsedMaskBit(words[i], k);
    DecodeAt(words, i, k / 2);
  }

  lemma CountStep(states: seq<ChunkState>, n: nat, s: ChunkState)
    requires n < |states|
    ensures CountOf(states[..n + 1], s) == CountOf(states[..n], s) + if states[n] == s then 1 else 0
  {
    assert states[..n + 1] == states[..n] + [states[n]];
  }

  /** Counting set bits of the mask counts the chunks in state 01. */
  lemma {:induction false} WasUsedCount(words: seq<bv64>, i: nat, t: nat)
    requires i < |words| && t <= 32
    ensures var states := Decode(words);
      CountOf(states[..32 * i + t], Freed) == CountOf(states[..32 * i], Freed) + BitsBelow(WasUsedMask(words[i]), 2 * t)
  {
    hide Bit, Decode, WasUsedMask, CountOf;
    if t > 0 {
      WasUsedCount(words, i, t - 1);
      CountStep(Decode(words), 32 * i + t - 1, Freed);
      WasUsedBit(words, i, 2 * t - 2);
      WasUsedBit(words, i, 2 * t - 1);
      assert (2 * t - 2) / 2 == t - 1;
    }
  }

  /** What the leak detector reports as in use: the chunks in state 10, and those
      in state 11 whose canary does not check out. */
  ghost predicate Leaked(z: ZoneView, c: nat)
    requires GeometryOk(z) && c < |z.states|
  {
    z.states[c] == InUse || (z.states[c] == Canary && !CanaryOkAt(z, c))
  }

  ghost function LeakCount(z: ZoneView, n: nat): nat
    requires GeometryOk(z) && n <= |z.states|
  {
    if n == 0 then 0 else LeakCount(z, n - 1) + if Leaked(z, n - 1) then 1 else 0
  }

  /** The chunks it counts. */
  ghost function LeakedChunks(z: ZoneView, n: nat): set<nat>
    requires GeometryOk(z) && n <= |z.states|
  {
    set c: nat | c < n && (z.states[c] == InUse || (z.states[c] == Canary && !CanaryOkAt(z, c)))
  }

  lemma {:induction false} LeakCountCounts(z: ZoneView, n: nat)
    requires GeometryOk(z) && n <= |z.states|
    ensures LeakCount(z, n) == |LeakedChunks(z, n)|
  {
    hide GeometryOk, CanaryOkAt;
    if n > 0 {
      LeakCountCounts(z, n - 1);
      var front, last := LeakedChunks(z, n - 1), if Leaked(z, n - 1) then {n - 1} else {};
      assert LeakedChunks(z, n) == front + last;
      assert n - 1 !in front;
    }
  }

  lemma {:induction false} LeakCountQuiet(z: ZoneView, m: nat, n: nat)
    requires GeometryOk(z) && m <= n <= |z.states|
    requires NoneUsed(z.states, m, n)
    ensures LeakCount(z, n) == LeakCount(z, m)
  {
    hide CanaryOkAt;
    if m < n { LeakCountQuiet(z, m, n - 1); }
  }

  /** With the canaries intact nothing but the chunks in use is reported. */
  lemma {:induction false} LeakCountExact(z: ZoneView, n: nat)
    requires GeometryOk(z) && CanariesIntact(z) && n <= |z.states|
    ensures LeakCount(z, n) == CountOf(z.states[..n], InUse)
  {
    hide CountOf, CanariesIntact, GeometryOk, Leaked;
    if n == 0 {
      NothingCounted(z.states);
    } else {
      LeakCountExact(z, n - 1);
      CountStep(z.states, n - 1, InUse);
      LeakedExact(z, n - 1);
    }
  }

  lemma NothingCounted(states: seq<ChunkState>)
    ensures CountOf(states[..0], InUse) == 0
  {
  }

  lemma LeakedExact(z: ZoneView, c: nat)
    requires GeometryOk(z) && CanariesIntact(z) && c < |z.states|
    ensures Leaked(z, c) <==> z.states[c] == InUse
  {
    hide CanaryOkAt;
  }

  ghost predicate NoneUsed(states: seq<ChunkState>, lo: nat, hi: nat)
    requires hi <= |states|
  {
    forall c: nat :: lo <= c < hi ==> IsFree(states[c])
  }

  /** bts & USED_BIT_VECTOR, walked: the used chunks of word i from the t-th on. */
  ghost predicate UsedLeft(states: seq<ChunkState>, i: nat, t: nat, m: bv64)
    requires 32 * i + 32 <= |states|
  {
    forall k: nat :: k < 64 ==> (Bit(m, k) <==> 2 * t <= k && k % 2 == 0 && !IsFree(states[32 * i + k / 2]))
  }

  lemma UsedLeftStart(words: seq<bv64>, i: nat)
    requires i < |words|
    ensures UsedLeft(Decode(words), i, 0, words[i] & USED_BIT_VECTOR)
  {
    hide Bit, Decode;
    var m := words[i] & USED_BIT_VECTOR;
    forall k: nat | k < 64 ensures Bit(m, k) <==> k % 2 == 0 && !IsFree(Decode(words)[32 * i + k / 2]) {
      BitOfAnd(words[i], USED_BIT_VECTOR, k);
      BitOfEvenVector(k);
      DecodeAt(words, i, k / 2);
    }
  }

  lemma UsedLeftFirst(states: seq<ChunkState>, i: nat, t: nat, m: bv64)
    requires 32 * i + 32 <= |states| && m != 0 && UsedLeft(states, i, t, m)
    ensures var c := 32 * i + Ctz(m) / 2;
            && Ctz(m) % 2 == 0 && t <= Ctz(m) / 2 < 32
            && !IsFree(states[c])
            && NoneUsed(states, 32 * i + t, c)
  {
    hide Bit;
    var k := Ctz(m);
    assert Bit(m, k);
    forall c: nat | 32 * i + t <= c < 32 * i + k / 2 ensures IsFree(states[c]) {
      assert !Bit(m, 2 * (c - 32 * i));
    }
  }

  lemma UsedLeftAdvance(states: seq<ChunkState>, i: nat, t: nat, m: bv64)
    requires 32 * i + 32 <= |states| && m != 0 && UsedLeft(states, i, t, m)
    ensures UsedLeft(states, i, Ctz(m) / 2 + 1, m & (m - 1))
  {
    hide Bit;
    var k := Ctz(m);
    var m' := m & (m - 1);
    assert Bit(m, k);
    forall j: nat | j < 64
      ensures Bit(m', j) <==> 2 * (k / 2 + 1) <= j && j % 2 == 0 && !IsFree(states[32 * i + j / 2])
    {
      ClearLowest(m, j);
    }
  }

  lemma UsedLeftNone(states: seq<ChunkState>, i: nat, t: nat)
    requires 32 * i + 32 <= |states| && UsedLeft(states, i, t, 0)
    ensures NoneUsed(states, 32 * i + t, 32 * i + 32)
  {
    hide Bit;
    forall c: nat | 32 * i + t <= c < 32 * i + 32 ensures IsFree(states[c]) {
      ZeroHasNoBit(2 * (c - 32 * i));
      assert !Bit(0, 2 * (c - 32 * i));
    }
  }

  /** One used chunk: a canary whose check succeeds is not a leak. */
  method CheckLeak(zone: Zone, c: nat) returns (leaked: bool)
    requires zone.Shape() && GeometryOk(zone.View()) && c < |zone.States()| && !IsFree(zone.States()[c])
    ensures leaked == Leaked(zone.View(), c)
  {
    hide Decode, ChunkCanaryIntact, MaxBitmapIdx, ChunkCount;
    AddressableIsReal(zone.View(), c);
    var _, bitTwo := zone.ReadBits(2 * c);
    if !bitTwo { return true; }
    var intact := zone.CheckCanary(c);
    leaked := !intact;
  }

  /** The inner loop over the used chunks of one qword. */
  method CountLeaks(zone: Zone, i: nat, start: nat) returns (inUse: nat)
    requires zone.Shape() && i < zone.maxBitmapIdx && GeometryOk(zone.View())
    requires start == LeakCount(zone.View(), 32 * i)
    ensures inUse == LeakCount(zone.View(), 32 * i + 32)
  {
    hide Decode, Bit, UsedLeft, NoneUsed, Leaked, IsFree, MaxBitmapIdx, ChunkCount;
    ghost var z := zone.View();
    inUse := start;
    var low := zone.bitmap[i] & USED_BIT_VECTOR;
    UsedLeftStart(zone.bitmap[..], i);
    ghost var t := 0;
    while low != 0
      invariant t <= 32
      invariant UsedLeft(z.states, i, t, low)
      invariant inUse == LeakCount(z, 32 * i + t)
      decreases 32 - t
    {
      var j := Ctz(low);
      UsedLeftFirst(z.states, i, t, low);
      UsedLeftAdvance(z.states, i, t, low);
      low := low & (low - 1);
      var c := 32 * i + j / 2;
      LeakCountQuiet(z, 32 * i + t, c);
      var leaked := CheckLeak(zone, c);
      if leaked { inUse := inUse + 1; }
      t := j / 2 + 1;
    }
    UsedLeftNone(z.states, i, t);
    LeakCountQuiet(z, 32 * i + t, 32 * i + 32);
  }

  /** _iso_alloc_zone_leak_detector: the two totals it accumulates. */
  method LeakDetector(zone: Zone, neon: bool) returns (inUse: nat, wasUsed: nat)
    requires zone.Shape()
    ensures GeometryOk(zone.View())
    ensures wasUsed == CountOf(zone.States(), Freed)
    ensures inUse == LeakCount(zone.View(), |zone.States()|)
  {
    hide Decode, LeakCount, CountOf, Popcount, WasUsedMask;
    ghost var z := zone.View();
    inUse, wasUsed := 0, 0;
    CountsStart(z);
    var i: nat := 0;
    while i < zone.maxBitmapIdx
      invariant i <= zone.maxBitmapIdx
      invariant inUse == LeakCount(z, 32 * i)
      invariant wasUsed == CountOf(z.states[..32 * i], Freed)
    {
      if neon && i + 1 < zone.maxBitmapIdx && zone.bitmap[i] | zone.bitmap[i + 1] == 0 {
        PairMask(zone.bitmap[i], zone.bitmap[i + 1]);
        EmptyWordQuiet(zone.bitmap[..], z, i);
        EmptyWordQuiet(zone.bitmap[..], z, i + 1);
        i := i + 2;
        continue;
      }
      var bts := zone.bitmap[i];
      if bts == 0 {
        EmptyWordQuiet(zone.bitmap[..], z, i);
      } else {
        WordWasUsed(zone.bitmap[..], i);
        wasUsed := wasUsed + Popcount(WasUsedMask(bts));
        inUse := CountLeaks(zone, i, inUse);
      }
      i := i + 1;
    }
    assert z.states[..32 * zone.maxBitmapIdx] == z.states;
  }

  lemma CountsStart(z: ZoneView)
    requires GeometryOk(z)
    ensures LeakCount(z, 0) == 0 && CountOf(z.states[..0], Freed) == 0
  {
  }

  lemma WordWasUsed(words: seq<bv64>, i: nat)
    requires i < |words|
    ensures CountOf(Decode(words)[..32 * i + 32], Freed) ==
      CountOf(Decode(words)[..32 * i], Freed) + Popcount(WasUsedMask(words[i]))
  {
    hide Decode, WasUsedMask, CountOf, BitsBelow;
    WasUsedCount(words, i, 32);
  }

  lemma EmptyWordQuiet(words: seq<bv64>, z: ZoneView, i: nat)
    requires i < |words| && words[i] == 0 && GeometryOk(z) && z.states == Decode(words)
    ensures LeakCount(z, 32 * i + 32) == LeakCount(z, 32 * i)
    ensures CountOf(z.states[..32 * i + 32], Freed) == CountOf(z.states[..32 * i], Freed)
  {
    hide Decode, LeakCount;
    DecodeZeroWord(words, i);
    LeakCountQuiet(z, 32 * i, 32 * i + 32);
    QuietCount(z.states, 32 * i, 32 * i + 32);
  }

  lemma {:induction false} QuietCount(states: seq<ChunkState>, m: nat, n: nat)
    requires m <= n <= |states| && AllNeverUsed(states, m, n)
    ensures CountOf(states[..n], Freed) == CountOf(states[..m], Freed)
  {
    hide CountOf;
    if m < n {
      QuietCount(states, m, n - 1);
      CountStep(states, n - 1, Freed);
    }
  }

  /** On every zone that keeps its invariant the detector's in-use total is
      af_count. */
  lemma LeaksAreAfCount(z: ZoneView)
    requires ZoneOk(z)
    ensures LeakCount(z, |z.states|) == z.afCount
  {
    hide CanaryOkAt, CountOf, LeakCount, CacheOk;
    LeakCountExact(z, |z.states|);
    assert z.states[..|z.states|] == z.states;
  }
}
