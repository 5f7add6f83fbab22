// The two-bit-per-chunk zone bitmap, read as one state per chunk.
module Bitmap {
  import opened Words

  /** BAD_BIT_SLOT. */
  const BAD_BIT_SLOT: int := -1

  /** The four bit patterns of a chunk, low bit first: 00, 10, 01 and 11. */
  datatype ChunkState = NeverUsed | InUse | Freed | Canary

  function StateOf(low: bool, high: bool): ChunkState {
    if low then (if high then Canary else InUse)
    else (if high then Freed else NeverUsed)
  }

  /** A chunk can be handed out exactly when its low bit is clear. */
  predicate IsFree(s: ChunkState) {
    s == NeverUsed || s == Freed
  }

  /** The high bit marks the chunks that carry canaries. */
  predicate HasCanary(s: ChunkState) {
    s == Freed || s == Canary
  }

  function ChunkAt(words: seq<bv64>, c: nat): ChunkState
    requires c < 32 * |words|
  {
    StateOf(Low(words[c / 32], c % 32), High(words[c / 32], c % 32))
  }

  /** The whole bitmap, one state per chunk. */
  function Decode(words: seq<bv64>): (states: seq<ChunkState>)
    ensures |states| == 32 * |words|
    ensures forall c: nat :: c < |states| ==> states[c] == ChunkAt(words, c)
  {
    seq(32 * |words|, c requires 0 <= c < 32 * |words| => ChunkAt(words, c))
  }

  lemma DecodeAt(words: seq<bv64>, i: nat, t: nat)
    requires i < |words| && t < 32
    ensures 32 * i + t < |Decode(words)|
    ensures Decode(words)[32 * i + t] == StateOf(Low(words[i], t), High(words[i], t))
  {
    hide Low, High;
    assert (32 * i + t) / 32 == i && (32 * i + t) % 32 == t;
  }

  // ------------------------------------------------------------ bitmap updates

  /** Rewriting one word so that only chunk c changes rewrites one state. */
  lemma DecodeUpdate(words: seq<bv64>, c: nat, w: bv64)
    requires c < 32 * |words|
    requires forall t: nat :: t < 32 && t != c % 32 ==>
      Low(w, t) == Low(words[c / 32], t) && High(w, t) == High(words[c / 32], t)
    ensures Decode(words[c / 32 := w])
         == Decode(words)[c := StateOf(Low(w, c % 32), High(w, c % 32))]
  {
  }

  /** Setting or clearing one bit of a chunk leaves the other 31 chunks alone. */
  lemma SetKeepsOthers(w: bv64, t: nat, u: nat)
    requires t < 32 && u < 32
    ensures Low(SetBit(w, 2 * t), u) == (u == t || Low(w, u))
    ensures High(SetBit(w, 2 * t), u) == High(w, u)
    ensures Low(SetBit(w, 2 * t + 1), u) == Low(w, u)
    ensures High(SetBit(w, 2 * t + 1), u) == (u == t || High(w, u))
  {
    hide Bit, SetBit;
    BitOfSet(w, 2 * t, 2 * u);
    BitOfSet(w, 2 * t, 2 * u + 1);
    BitOfSet(w, 2 * t + 1, 2 * u);
    BitOfSet(w, 2 * t + 1, 2 * u + 1);
  }

  lemma UnsetKeepsOthers(w: bv64, t: nat, u: nat)
    requires t < 32 && u < 32
    ensures Low(UnsetBit(w, 2 * t), u) == (u != t && Low(w, u))
    ensures High(UnsetBit(w, 2 * t), u) == High(w, u)
    ensures Low(UnsetBit(w, 2 * t + 1), u) == Low(w, u)
    ensures High(UnsetBit(w, 2 * t + 1), u) == (u != t && High(w, u))
  {
    hide Bit, UnsetBit;
    BitOfUnset(w, 2 * t, 2 * u);
    BitOfUnset(w, 2 * t, 2 * u + 1);
    BitOfUnset(w, 2 * t + 1, 2 * u);
    BitOfUnset(w, 2 * t + 1, 2 * u + 1);
  }

  /** SET_BIT(b, which_bit); UNSET_BIT(b, which_bit + 1) marks a chunk 10. */
  lemma DecodeUse(words: seq<bv64>, c: nat)
    requires c < 32 * |words|
    ensures var t := c % 32;
            Decode(words[c / 32 := UnsetBit(SetBit(words[c / 32], 2 * t), 2 * t + 1)]) == Decode(words)[c := InUse]
  {
    hide Low, High, SetBit, UnsetBit;
    var t, w := c % 32, words[c / 32];
    var w' := UnsetBit(SetBit(w, 2 * t), 2 * t + 1);
    forall u: nat | u < 32
      ensures Low(w', u) == (u == t || Low(w, u))
      ensures High(w', u) == (u != t && High(w, u))
    {
      SetKeepsOthers(w, t, u);
      UnsetKeepsOthers(SetBit(w, 2 * t), t, u);
    }
    DecodeUpdate(words, c, w');
  }

  /** SET_BIT(b, which_bit + 1); UNSET_BIT(b, which_bit) marks a chunk 01. */
  lemma DecodeFree(words: seq<bv64>, c: nat)
    requires c < 32 * |words|
    ensures var t := c % 32;
            Decode(words[c / 32 := UnsetBit(SetBit(words[c / 32], 2 * t + 1), 2 * t)]) == Decode(words)[c := Freed]
  {
    hide Low, High, SetBit, UnsetBit;
    var t, w := c % 32, words[c / 32];
    var w' := UnsetBit(SetBit(w, 2 * t + 1), 2 * t);
    forall u: nat | u < 32
      ensures Low(w', u) == (u != t && Low(w, u))
      ensures High(w', u) == (u == t || High(w, u))
    {
      SetKeepsOthers(w, t, u);
      UnsetKeepsOthers(SetBit(w, 2 * t + 1), t, u);
    }
    DecodeUpdate(words, c, w');
  }

  /** SET_BIT(b, which_bit + 1) alone on a used chunk marks it 11. */
  lemma DecodeRetireChunk(words: seq<bv64>, c: nat)
    requires c < 32 * |words|
    requires !IsFree(Decode(words)[c])
    ensures Decode(words[c / 32 := SetBit(words[c / 32], 2 * (c % 32) + 1)]) == Decode(words)[c := Canary]
  {
    hide Low, High, SetBit;
    var t, w := c % 32, words[c / 32];
    assert Decode(words)[c] == ChunkAt(words, c);
    forall u: nat | u < 32
      ensures Low(SetBit(w, 2 * t + 1), u) == Low(w, u)
      ensures High(SetBit(w, 2 * t + 1), u) == (u == t || High(w, u))
    {
      SetKeepsOthers(w, t, u);
    }
    DecodeUpdate(words, c, SetBit(w, 2 * t + 1));
  }

  /** SET_BIT(w, 0); SET_BIT(w, 1) turns the first chunk of a word into 11. */
  lemma DecodeCanary(words: seq<bv64>, i: nat)
    requires i < |words|
    ensures Decode(words[i := SetBit(SetBit(words[i], 0), 1)]) == Decode(words)[32 * i := Canary]
  {
    hide Low, High, SetBit;
    var w := words[i];
    assert (32 * i) / 32 == i && (32 * i) % 32 == 0;
    forall u: nat | u < 32
      ensures Low(SetBit(SetBit(w, 0), 1), u) == (u == 0 || Low(w, u))
      ensures High(SetBit(SetBit(w, 0), 1), u) == (u == 0 || High(w, u))
    {
      SetKeepsOthers(w, 0, u);
      SetKeepsOthers(SetBit(w, 0), 0, u);
    }
    DecodeUpdate(words, 32 * i, SetBit(SetBit(w, 0), 1));
  }

  // ------------------------------------------------------------- bitmap reads

  predicate AllNeverUsed(states: seq<ChunkState>, lo: nat, hi: nat)
    requires hi <= |states|
  {
    forall c: nat :: lo <= c < hi ==> states[c] == NeverUsed
  }

  predicate NoneFree(states: seq<ChunkState>, lo: nat, hi: nat)
    requires hi <= |states|
  {
    forall c: nat :: lo <= c < hi ==> !IsFree(states[c])
  }

  /** An all-zero word is 32 never-used chunks, and only that. */
  lemma DecodeZeroWord(words: seq<bv64>, i: nat)
    requires i < |words|
    ensures words[i] == 0 <==> AllNeverUsed(Decode(words), 32 * i, 32 * i + 32)
  {
    hide Low, High, Decode;
    ZeroWord(words[i]);
    forall c: nat | 32 * i <= c < 32 * i + 32
      ensures Decode(words)[c] == StateOf(Low(words[i], c - 32 * i), High(words[i], c - 32 * i))
    {
      DecodeAt(words, i, c - 32 * i);
    }
    if words[i] != 0 {
      var t: nat :| t < 32 && (Low(words[i], t) || High(words[i], t));
      assert Decode(words)[32 * i + t] != NeverUsed;
    }
  }

  /** The free mask has bit 2t set exactly when chunk t of the word is free. */
  lemma FreeMaskBit(words: seq<bv64>, i: nat, k: nat)
    requires i < |words| && k < 64
    ensures Bit(FreeMask(words[i]), k) <==> k % 2 == 0 && IsFree(Decode(words)[32 * i + k / 2])
  {
    hide Bit, FreeMask, Decode;
    BitOfFreeMask(words[i], k);
    DecodeAt(words, i, k / 2);
  }

  lemma FreeMaskZero(words: seq<bv64>, i: nat)
    requires i < |words|
    ensures FreeMask(words[i]) == 0 <==> NoneFree(Decode(words), 32 * i, 32 * i + 32)
  {
    hide FreeMask, Decode, Bit;
    var m := FreeMask(words[i]);
    if m == 0 {
      forall c: nat | 32 * i <= c < 32 * i + 32 ensures !IsFree(Decode(words)[c]) {
        FreeMaskBit(words, i, 2 * (c - 32 * i));
        ZeroHasNoBit(2 * (c - 32 * i));
      }
    } else {
      FreeMaskBit(words, i, Ctz(m));
    }
  }

  /** ctz of a non-zero free mask names the word's lowest free chunk. */
  lemma FreeMaskFirst(words: seq<bv64>, i: nat)
    requires i < |words| && FreeMask(words[i]) != 0
    ensures var k := Ctz(FreeMask(words[i]));
            && k % 2 == 0
            && IsFree(Decode(words)[32 * i + k / 2])
            && NoneFree(Decode(words), 32 * i, 32 * i + k / 2)
  {
    hide FreeMask, Decode, Bit;
    var k := Ctz(FreeMask(words[i]));
    FreeMaskBit(words, i, k);
    forall c: nat | 32 * i <= c < 32 * i + k / 2 ensures !IsFree(Decode(words)[c]) {
      FreeMaskBit(words, i, 2 * (c - 32 * i));
    }
  }

  // ------------------------------------------------------ slot-by-slot reference

  /** A bit slot names a chunk whose low bit is clear. */
  predicate SlotFree(states: seq<ChunkState>, slot: int) {
    && 0 <= slot < 2 * |states|
    && slot % 2 == 0
    && IsFree(states[slot / 2])
  }

  /** The plain search: the lowest free slot, or BAD_BIT_SLOT if there is none. */
  predicate IsLowestFree(states: seq<ChunkState>, slot: int) {
    if slot == BAD_BIT_SLOT then NoneFree(states, 0, |states|)
    else SlotFree(states, slot) && NoneFree(states, 0, slot / 2)
  }

  /** The free slots of chunks lo..hi, in increasing order. */
  function FreeIn(states: seq<ChunkState>, lo: nat, hi: nat): (r: seq<int>)
    requires lo <= hi <= |states|
  {
    if lo == hi then []
    else FreeIn(states, lo, hi - 1) + if IsFree(states[hi - 1]) then [2 * (hi - 1)] else []
  }

  function CountOf(states: seq<ChunkState>, s: ChunkState): nat {
    multiset(states)[s]
  }

  /** What GET_BIT shows for a chunk's two bits. */
  lemma FreeChunkBits(words: seq<bv64>, c: nat)
    requires c < 32 * |words|
    ensures (2 * c) / 64 == c / 32 && (2 * c) % 64 == 2 * (c % 32)
    ensures Bit(words[c / 32], 2 * (c % 32)) <==> !IsFree(Decode(words)[c])
    ensures Bit(words[c / 32], 2 * (c % 32) + 1) <==> HasCanary(Decode(words)[c])
  {
  }
}
