// What the canaries of chunks are: which addresses and which secrets they tell apart.
module Canaries {
  import opened Words
  import opened Bitmap
  import opened Geometry
  import opened ZoneState

  const ADDRESS_LIMIT: nat := 0x1_0000_0000_0000_0000

  // ---------------------------------------------------------- addresses as words

  /** The word of an address is the address, counted in 64 bits. */
  lemma {:induction false} AddressNext(p: nat)
    ensures AddressWord(0) == 0 && AddressWord(p + 1) == AddressWord(p) + 1
  {
    if p % 2 == 0 {
      assert (p + 1) / 2 == p / 2;
      LowBit(AddressWord(p / 2));
    } else {
      AddressNext(p / 2);
      assert (p + 1) / 2 == p / 2 + 1;
      Carry(AddressWord(p / 2));
    }
  }

  lemma LowBit(w: bv64)
    ensures (w << 1) | 1 == (w << 1) + 1
  {
  }

  lemma Carry(w: bv64)
    ensures (w + 1) << 1 == ((w << 1) | 1) + 1
  {
  }

  function Halved(w: bv64): bv64 {
    w >> 1
  }

  /** All of the word but its low byte. */
  function UpperBytes(w: bv64): bv64 {
    w >> 8
  }

  /** One more binary digit at the end. */
  function Extended(w: bv64, one: bool): bv64 {
    (w << 1) | if one then 1 else 0
  }

  /** All ones in the n lowest bits, and the number above it. */
  ghost function Ones(n: nat): bv64 {
    if n == 0 then 0 else Extended(Ones(n - 1), true)
  }

  ghost function Limit(n: nat): nat {
    if n == 0 then 1 else 2 * Limit(n - 1)
  }

  predicate Covered(w: bv64, m: bv64) {
    w | m == m
  }

  lemma {:induction false} FitsBits(p: nat, n: nat)
    requires p < Limit(n)
    ensures Covered(AddressWord(p), Ones(n))
  {
    hide Extended, Covered;
    NoBits(Ones(n));
    if n > 0 && p > 0 {
      FitsBits(p / 2, n - 1);
      AddressDigit(p);
      ShiftedFits(AddressWord(p / 2), Ones(n - 1), p % 2 == 1);
    }
  }

  lemma NoBits(m: bv64)
    ensures Covered(0, m)
  {
  }

  lemma AddressDigit(p: nat)
    ensures AddressWord(p) == Extended(AddressWord(p / 2), p % 2 == 1)
  {
  }

  lemma ShiftedFits(w: bv64, m: bv64, one: bool)
    requires Covered(w, m)
    ensures Covered(Extended(w, one), Extended(m, true))
  {
    if one { LongerOne(w, m); } else { LongerZero(w, m); }
    hide Extended, Covered;
  }

  lemma LongerOne(w: bv64, m: bv64)
    requires Covered(w, m)
    ensures Covered(Extended(w, true), Extended(m, true))
  {
  }

  lemma LongerZero(w: bv64, m: bv64)
    requires Covered(w, m)
    ensures Covered(Extended(w, false), Extended(m, true))
  {
  }

  lemma Limits()
    ensures Limit(63) == 0x8000_0000_0000_0000 && Ones(63) == 0x7fff_ffff_ffff_ffff
  {
    hide Limit, Ones;
    NineBits(0);
    NineBits(9);
    NineBits(18);
    NineBits(27);
    NineBits(36);
    NineBits(45);
    NineBits(54);
    NothingYet();
    SevenNines();
  }

  lemma NothingYet()
    ensures Limit(0) == 1 && Ones(0) == 0
  {
  }

  function NineOnes(m: bv64): bv64 {
    (m << 9) | 0x1ff
  }

  lemma SevenNines()
    ensures NineOnes(NineOnes(NineOnes(NineOnes(NineOnes(NineOnes(NineOnes(0))))))) == 0x7fff_ffff_ffff_ffff
  {
  }

  lemma NineBits(n: nat)
    ensures Limit(n + 9) == 512 * Limit(n) && Ones(n + 9) == NineOnes(Ones(n))
  {
    hide Limit, Ones, NineOnes, Extended;
    OneBit(n);
    OneBit(n + 1);
    OneBit(n + 2);
    OneBit(n + 3);
    OneBit(n + 4);
    OneBit(n + 5);
    OneBit(n + 6);
    OneBit(n + 7);
    OneBit(n + 8);
    NineTimes(Ones(n));
  }

  lemma OneBit(n: nat)
    ensures Limit(n + 1) == 2 * Limit(n) && Ones(n + 1) == OneLonger(Ones(n))
  {
  }

  function OneLonger(m: bv64): bv64 {
    Extended(m, true)
  }

  lemma NineTimes(m: bv64)
    ensures var three := OneLonger(OneLonger(OneLonger(m)));
      OneLonger(OneLonger(OneLonger(OneLonger(OneLonger(OneLonger(three)))))) == NineOnes(m)
  {
  }

  lemma AddressHalf(p: nat)
    requires p < ADDRESS_LIMIT
    ensures Halved(AddressWord(p)) == AddressWord(p / 2)
    ensures Odd(AddressWord(p)) <==> p % 2 == 1
  {
    hide AddressWord, Limit, Ones, Extended, Covered, Halved, Odd;
    AddressDigit(p);
    Limits();
    FitsBits(p / 2, 63);
    ShiftBack(AddressWord(p / 2), p % 2 == 1);
  }

  predicate Odd(w: bv64) {
    w & 1 == 1
  }

  lemma ShiftBack(w: bv64, one: bool)
    requires Covered(w, 0x7fff_ffff_ffff_ffff)
    ensures Halved(Extended(w, one)) == w && Odd(Extended(w, one)) == one
  {
  }

  /** Dropping the low byte of the word divides the address by 256. */
  lemma AddressHigh(p: nat)
    requires p < ADDRESS_LIMIT
    ensures UpperBytes(AddressWord(p)) == AddressWord(p / 256)
  {
    hide AddressWord, Halved, UpperBytes, Odd;
    AddressHalf(p);
    AddressHalf(p / 2);
    AddressHalf(p / 2 / 2);
    AddressHalf(p / 2 / 2 / 2);
    AddressHalf(p / 2 / 2 / 2 / 2);
    AddressHalf(p / 2 / 2 / 2 / 2 / 2);
    AddressHalf(p / 2 / 2 / 2 / 2 / 2 / 2);
    AddressHalf(p / 2 / 2 / 2 / 2 / 2 / 2 / 2);
    HalvedNumber(p);
    HalvedWord(AddressWord(p));
  }

  lemma HalvedNumber(p: nat)
    ensures p / 2 / 2 / 2 / 2 / 2 / 2 / 2 / 2 == p / 256
  {
    assert p / 2 / 2 == p / 4;
    assert p / 4 / 2 / 2 == p / 16;
    assert p / 16 / 2 / 2 == p / 64;
    assert p / 64 / 2 / 2 == p / 256;
  }

  lemma HalvedWord(w: bv64)
    ensures Halved(Halved(Halved(Halved(Halved(Halved(Halved(Halved(w)))))))) == UpperBytes(w)
  {
  }

  /** Distinct addresses are distinct words. */
  lemma {:induction false} AddressExact(p: nat, q: nat)
    requires p < ADDRESS_LIMIT && q < ADDRESS_LIMIT
    ensures AddressWord(p) == AddressWord(q) <==> p == q
    decreases p + q
  {
    hide AddressWord, Halved, Odd;
    if p + q > 0 {
      AddressHalf(p);
      AddressHalf(q);
      AddressExact(p / 2, q / 2);
    }
  }

  // -------------------------------------------------------------------- canaries

  /** A qword is its bytes. */
  lemma QwordExact(v: bv64, w: bv64)
    ensures QwordBytes(v) == QwordBytes(w) <==> v == w
  {
    if QwordBytes(v) == QwordBytes(w) {
      forall k: nat | k < 8 ensures ByteOf(v, k) == ByteOf(w, k) { assert QwordBytes(v)[k] == QwordBytes(w)[k]; }
      BytesDecide(v, w);
    }
  }

  lemma BytesDecide(v: bv64, w: bv64)
    requires forall k: nat :: k < 8 ==> ByteOf(v, k) == ByteOf(w, k)
    ensures v == w
  {
    assert ByteOf(v, 0) == ByteOf(w, 0) && ByteOf(v, 1) == ByteOf(w, 1);
    assert ByteOf(v, 2) == ByteOf(w, 2) && ByteOf(v, 3) == ByteOf(w, 3);
    assert ByteOf(v, 4) == ByteOf(w, 4) && ByteOf(v, 5) == ByteOf(w, 5);
    assert ByteOf(v, 6) == ByteOf(w, 6) && ByteOf(v, 7) == ByteOf(w, 7);
  }

  /** What is left of a canary without its low byte, which is zero. */
  lemma ValueHigh(s: bv64, a: bv64)
    ensures UpperBytes(CanaryValue(s, a)) == Xor(UpperBytes(s), UpperBytes(a)) && LowClear(CanaryValue(s, a))
  {
  }

  predicate LowClear(w: bv64) {
    w & 0xff == 0
  }

  lemma HighDecides(v: bv64, w: bv64)
    requires LowClear(v) && LowClear(w)
    ensures v == w <==> UpperBytes(v) == UpperBytes(w)
  {
  }

  lemma XorZero(x: bv64, y: bv64)
    ensures Xor(x, y) == 0 <==> x == y
  {
  }

  /** The canary binds a chunk to its place: two addresses have the same canary exactly if
      they agree above the low byte. */
  lemma ChunkCanaryBinds(secret: bv64, p: nat, q: nat)
    requires p < ADDRESS_LIMIT && q < ADDRESS_LIMIT
    ensures CanaryOf(secret, p) == CanaryOf(secret, q) <==> p / 256 == q / 256
  {
    hide AddressWord, CanaryValue, QwordBytes, UpperBytes, Xor, LowClear;
    var v, w := CanaryValue(secret, AddressWord(p)), CanaryValue(secret, AddressWord(q));
    QwordExact(v, w);
    ValueHigh(secret, AddressWord(p));
    ValueHigh(secret, AddressWord(q));
    HighDecides(v, w);
    XorCancels(UpperBytes(AddressWord(p)), UpperBytes(AddressWord(q)), UpperBytes(secret));
    AddressHigh(p);
    AddressHigh(q);
    AddressExact(p / 256, q / 256);
  }

  /** And to its zone: two secrets give the same canary exactly if they agree above the
      low byte. */
  lemma ChunkCanarySecret(secret: bv64, secret': bv64, p: nat)
    ensures CanaryOf(secret, p) == CanaryOf(secret', p) <==> UpperBytes(secret) == UpperBytes(secret')
  {
    hide AddressWord, CanaryValue, QwordBytes, UpperBytes, Xor, LowClear;
    var v, w := CanaryValue(secret, AddressWord(p)), CanaryValue(secret', AddressWord(p));
    QwordExact(v, w);
    ValueHigh(secret, AddressWord(p));
    ValueHigh(secret', AddressWord(p));
    HighDecides(v, w);
    XorCancels(UpperBytes(secret), UpperBytes(secret'), UpperBytes(AddressWord(p)));
  }

  /** Its first byte in memory is zero. */
  lemma CanaryEndsStrings(secret: bv64, p: nat)
    ensures CanaryOf(secret, p)[0] == 0
  {
    hide AddressWord;
    LowByteClear(secret, AddressWord(p));
  }

  lemma LowByteClear(s: bv64, a: bv64)
    ensures ByteOf(CanaryValue(s, a), 0) == 0
  {
  }

  /** It is all zero exactly if secret and address agree above the low byte. */
  lemma ZeroCanary(secret: bv64, p: nat)
    requires p < ADDRESS_LIMIT
    ensures CanaryOf(secret, p) == ZERO_QWORD <==> UpperBytes(secret) == AddressWord(p / 256)
  {
    hide AddressWord, CanaryValue, QwordBytes, UpperBytes, Xor, LowClear;
    var v := CanaryValue(secret, AddressWord(p));
    QwordExact(v, 0);
    ZeroQword();
    ValueHigh(secret, AddressWord(p));
    HighDecides(v, 0);
    XorZero(UpperBytes(secret), UpperBytes(AddressWord(p)));
    AddressHigh(p);
  }

  lemma ZeroQword()
    ensures QwordBytes(0) == ZERO_QWORD && LowClear(0) && UpperBytes(0) == 0
  {
  }

  // ----------------------------------------------------------- damage to a chunk

  /** Both qwords that hold the canary of chunk c have been cleared. */
  ghost predicate Cleared(z: ZoneView, c: nat)
    requires GeometryOk(z)
  {
    && ChunkOffset(z, c) + z.chunkSize <= |z.mem|
    && z.mem[ChunkOffset(z, c)..][..8] == [0, 0, 0, 0, 0, 0, 0, 0]
    && z.mem[..ChunkOffset(z, c) + z.chunkSize][ChunkOffset(z, c) + z.chunkSize - 8..] == [0, 0, 0, 0, 0, 0, 0, 0]
  }

  /** Clearing a canary is noticed exactly if secret and address differ above the low byte. */
  lemma ClearedIsFound(z: ZoneView, c: nat)
    requires GeometryOk(z) && c < |z.states| && Cleared(z, c) && ChunkAddress(z, c) < ADDRESS_LIMIT
    ensures CanaryOkAt(z, c) <==> UpperBytes(z.secret) == AddressWord(ChunkAddress(z, c) / 256)
    ensures HasCanary(z.states[c]) && UpperBytes(z.secret) != AddressWord(ChunkAddress(z, c) / 256) ==>
      !CanariesIntact(z)
  {
    hide CanaryOf, AddressWord, UpperBytes, MaxBitmapIdx;
    AddressableIsReal(z, c);
    var off := ChunkOffset(z, c);
    assert z.mem[off..off + 8] == z.mem[off..][..8] == ZERO_QWORD;
    assert z.mem[off + z.chunkSize - 8..off + z.chunkSize] == ZERO_QWORD;
    ZeroCanary(z.secret, ChunkAddress(z, c));
  }

  /** Any change to a byte of a canary is noticed. */
  lemma DamageIsFound(z: ZoneView, c: nat, k: nat, b: Byte)
    requires GeometryOk(z) && CanariesIntact(z) && c < |z.states| && HasCanary(z.states[c])
    requires k < 8 || z.chunkSize - 8 <= k < z.chunkSize
    ensures ChunkOffset(z, c) + k < |z.mem|
    ensures var z' := z.(mem := z.mem[ChunkOffset(z, c) + k := b]);
      GeometryOk(z') && (CanariesIntact(z') <==> b == z.mem[ChunkOffset(z, c) + k])
  {
    hide CanaryOf, MaxBitmapIdx;
    AddressableIsReal(z, c);
    var off := ChunkOffset(z, c);
    var z' := z.(mem := z.mem[off + k := b]);
    assert CanaryOkAt(z, c);
    if b == z.mem[off + k] {
      assert z' == z;
    } else {
      ByteDiffers(z, z', off, k);
      assert !CanaryOkAt(z', c);
    }
  }

  lemma ByteDiffers(z: ZoneView, z': ZoneView, off: nat, k: nat)
    requires 16 <= z.chunkSize && off + z.chunkSize <= |z.mem| == |z'.mem|
    requires (k < 8 || z.chunkSize - 8 <= k < z.chunkSize) && z'.mem[off + k] != z.mem[off + k]
    ensures z'.mem[off..off + 8] != z.mem[off..off + 8] ||
            z'.mem[off + z.chunkSize - 8..off + z.chunkSize] != z.mem[off + z.chunkSize - 8..off + z.chunkSize]
  {
    if k < 8 {
      assert z.mem[off..off + 8][k] == z.mem[off + k] && z'.mem[off..off + 8][k] == z'.mem[off + k];
    } else {
      var lo, hi := off + z.chunkSize - 8, off + z.chunkSize;
      assert z.mem[lo..hi][off + k - lo] == z.mem[off + k] && z'.mem[lo..hi][off + k - lo] == z'.mem[off + k];
    }
  }

  /** Freeing chunk c finds the damaged canary of a chunk next to it. */
  lemma DamagedNeighbourIsFound(z: ZoneView, c: nat, d: nat, beyond: bool)
    requires GeometryOk(z) && c < |z.states| && d < |z.states| && (d == c + 1 || c == d + 1)
    requires HasCanary(z.states[d]) && !CanaryOkAt(z, d)
    ensures NeighbourAborts(z, c, beyond)
  {
    hide ChunkCanaryIntact, MaxBitmapIdx;
    AddressableIsReal(z, d);
  }
}
