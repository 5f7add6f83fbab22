// 64-bit bitmap words: the bit macros, count-trailing-zeros, clear-lowest-bit
// and population count that the allocator's scanning loops are built from, each
// characterised bit by bit.
module Words {

  /** USED_BIT_VECTOR: the even positions, one per chunk. */
  const USED_BIT_VECTOR: bv64 := 0x5555_5555_5555_5555

  /** The word with only bit k set (1UL << k). */
  function Mask(k: nat): bv64
    requires k < 64
  {
    if k == 0 then 1 else Mask(k - 1) << 1
  }

  predicate Hit(w: bv64, m: bv64) {
    w & m != 0
  }

  /** GET_BIT. */
  predicate Bit(w: bv64, k: nat)
    requires k < 64
  {
    Hit(w, Mask(k))
  }

  /** SET_BIT. */
  function SetBit(w: bv64, k: nat): bv64
    requires k < 64
  {
    w | Mask(k)
  }

  /** UNSET_BIT. */
  function UnsetBit(w: bv64, k: nat): bv64
    requires k < 64
  {
    w & !Mask(k)
  }

  // ---------------------------------------------------------------- masks

  ghost predicate OneHot(m: bv64) {
    m != 0 && m & (m - 1) == 0
  }

  lemma MaskPlusFour(k: nat)
    requires k + 4 < 64
    ensures Mask(k + 4) == Mask(k) << 4
  {
    assert Mask(k + 2) == Mask(k) << 2;
  }

  lemma TopMask()
    ensures Mask(63) == 0x8000_0000_0000_0000
  {
    MaskPlusFour(0); MaskPlusFour(4); MaskPlusFour(8); MaskPlusFour(12);
    assert Mask(16) == 0x1_0000;
    MaskPlusFour(16); MaskPlusFour(20); MaskPlusFour(24); MaskPlusFour(28);
    assert Mask(32) == 0x1_0000_0000;
    MaskPlusFour(32); MaskPlusFour(36); MaskPlusFour(40); MaskPlusFour(44);
    assert Mask(48) == 0x1_0000_0000_0000;
    MaskPlusFour(48); MaskPlusFour(52); MaskPlusFour(56);
    assert Mask(60) == 0x1000_0000_0000_0000;
    assert Mask(62) == 0x4000_0000_0000_0000;
  }

  lemma {:induction false} MaskNonZero(k: nat)
    requires k < 64
    ensures Mask(k) != 0
    decreases 63 - k
  {
    if k < 63 { MaskNonZero(k + 1); } else { TopMask(); }
  }

  lemma DoubleOneHot(m: bv64)
    requires OneHot(m) && m << 1 != 0
    ensures OneHot(m << 1) && m < (m << 1)
    ensures (m << 1) - 1 == (m - 1) | m
  {
  }

  lemma {:induction false} MaskOneHot(k: nat)
    requires k < 64
    ensures OneHot(Mask(k))
  {
    MaskNonZero(k);
    if k != 0 { MaskOneHot(k - 1); DoubleOneHot(Mask(k - 1)); }
  }

  lemma {:induction false} MaskIncreasing(j: nat, k: nat)
    requires j < k < 64
    ensures Mask(j) < Mask(k)
  {
    MaskNonZero(k);
    MaskOneHot(k - 1);
    DoubleOneHot(Mask(k - 1));
    if j < k - 1 { MaskIncreasing(j, k - 1); }
  }

  lemma MasksDistinct(j: nat, k: nat)
    requires j < 64 && k < 64
    ensures Mask(j) == Mask(k) <==> j == k
  {
    if j < k { MaskIncreasing(j, k); } else if k < j { MaskIncreasing(k, j); }
  }

  // ------------------------------------------------------- bitwise operators

  lemma OneHotAnd(a: bv64, b: bv64, m: bv64)
    requires OneHot(m)
    ensures Hit(a & b, m) == (Hit(a, m) && Hit(b, m))
  {
  }

  lemma OneHotNot(a: bv64, m: bv64)
    requires OneHot(m)
    ensures Hit(!a, m) == !Hit(a, m)
  {
  }

  lemma BitOfAnd(a: bv64, b: bv64, k: nat)
    requires k < 64
    ensures Bit(a & b, k) == (Bit(a, k) && Bit(b, k))
  {
    MaskOneHot(k);
    OneHotAnd(a, b, Mask(k));
  }

  lemma OneHotThreeWayAnd(a: bv64, b: bv64, c: bv64, m: bv64)
    requires OneHot(m)
    ensures Hit(a & b & c, m) == (Hit(a, m) && Hit(b, m) && Hit(c, m))
  {
  }

  lemma BitOfThreeWayAnd(a: bv64, b: bv64, c: bv64, k: nat)
    requires k < 64
    ensures Bit(a & b & c, k) == (Bit(a, k) && Bit(b, k) && Bit(c, k))
  {
    hide Hit, OneHot, Mask;
    MaskOneHot(k);
    OneHotThreeWayAnd(a, b, c, Mask(k));
  }

  lemma BitOfNot(a: bv64, k: nat)
    requires k < 64
    ensures Bit(!a, k) == !Bit(a, k)
  {
    MaskOneHot(k);
    OneHotNot(a, Mask(k));
  }

  lemma BitOfShift(a: bv64, k: nat)
    requires k < 63
    ensures Bit(a >> 1, k) == Bit(a, k + 1)
  {
  }

  lemma OneHotMeet(m: bv64, n: bv64)
    requires OneHot(m) && OneHot(n) && m != n
    ensures m & n == 0
  {
  }

  lemma OrMeet(w: bv64, m: bv64, n: bv64)
    requires m & n == 0
    ensures (w | m) & n == w & n
  {
  }

  lemma SetOneHot(w: bv64, m: bv64, n: bv64)
    requires OneHot(m) && OneHot(n)
    ensures Hit(w | m, n) == (m == n || Hit(w, n))
  {
    if m == n {
      assert (w | m) & m == m;
    } else {
      OneHotMeet(m, n);
      OrMeet(w, m, n);
    }
  }

  lemma UnsetOneHot(w: bv64, m: bv64, n: bv64)
    requires OneHot(m) && OneHot(n)
    ensures Hit(w & !m, n) == (m != n && Hit(w, n))
  {
  }

  lemma BitOfSet(w: bv64, k: nat, j: nat)
    requires k < 64 && j < 64
    ensures Bit(SetBit(w, k), j) == (j == k || Bit(w, j))
  {
    hide OneHot, Hit, Mask;
    MaskOneHot(k);
    MaskOneHot(j);
    MasksDistinct(j, k);
    SetOneHot(w, Mask(k), Mask(j));
  }

  lemma BitOfUnset(w: bv64, k: nat, j: nat)
    requires k < 64 && j < 64
    ensures Bit(UnsetBit(w, k), j) == (j != k && Bit(w, j))
  {
    hide OneHot, Hit, Mask;
    MaskOneHot(k);
    MaskOneHot(j);
    MasksDistinct(j, k);
    UnsetOneHot(w, Mask(k), Mask(j));
  }

  lemma ZeroHasNoBit(k: nat)
    requires k < 64
    ensures !Bit(0, k)
  {
  }

  lemma EvenVectorPeriod(m: bv64)
    requires OneHot(m) && m << 2 != 0
    ensures Hit(USED_BIT_VECTOR, m << 2) == Hit(USED_BIT_VECTOR, m)
  {
  }

  lemma {:induction false} BitOfEvenVector(k: nat)
    requires k < 64
    ensures Bit(USED_BIT_VECTOR, k) == (k % 2 == 0)
  {
    if k == 0 {
      assert Mask(0) == 1;
    } else if k == 1 {
      assert Mask(1) == 2;
    } else {
      BitOfEvenVector(k - 2);
      MaskOneHot(k - 2);
      MaskNonZero(k);
      assert Mask(k) == Mask(k - 2) << 2;
      EvenVectorPeriod(Mask(k - 2));
    }
  }

  // ------------------------------------------------- ctz and clear-lowest-bit

  lemma BelowStep(w: bv64, m: bv64)
    requires OneHot(m) && !Hit(w, m - 1) && !Hit(w, m)
    ensures m << 1 != 0 ==> !Hit(w, (m << 1) - 1)
    ensures m << 1 == 0 ==> w == 0
  {
  }

  lemma {:induction false} NoBitsBelow(w: bv64, k: nat)
    requires k < 64
    requires forall j: nat :: j < k ==> !Bit(w, j)
    ensures !Hit(w, Mask(k) - 1)
  {
    if k == 0 {
      assert Mask(0) - 1 == 0;
    } else {
      NoBitsBelow(w, k - 1);
      assert !Bit(w, k - 1);
      MaskOneHot(k - 1);
      MaskNonZero(k);
      BelowStep(w, Mask(k - 1));
    }
  }

  /** A word none of whose bits is set is zero. */
  lemma NoBitsIsZero(w: bv64)
    requires forall j: nat :: j < 64 ==> !Bit(w, j)
    ensures w == 0
  {
    NoBitsBelow(w, 63);
    assert !Bit(w, 63);
    MaskOneHot(63);
    TopMask();
    BelowStep(w, Mask(63));
  }

  lemma NoBitsIsZeroUnless(w: bv64, k: nat)
    requires w != 0 && k < 64
    requires forall j: nat :: j <= k ==> !Bit(w, j)
    ensures k < 63
  {
    if k == 63 { NoBitsIsZero(w); }
  }

  /** __builtin_ctzll: the position of the lowest set bit. */
  function Ctz(w: bv64): (k: nat)
    requires w != 0
    ensures k < 64 && Bit(w, k)
    ensures forall j: nat :: j < k ==> !Bit(w, j)
  {
    CtzFrom(w, 0)
  }

  function CtzFrom(w: bv64, from: nat): (k: nat)
    requires from < 64 && w != 0
    requires forall j: nat :: j < from ==> !Bit(w, j)
    ensures k < 64 && Bit(w, k)
    ensures forall j: nat :: j < k ==> !Bit(w, j)
    decreases 63 - from
  {
    if Bit(w, from) then from
    else
      NoBitsIsZeroUnless(w, from);
      CtzFrom(w, from + 1)
  }

  lemma ClearLowestOneHot(w: bv64, m: bv64)
    requires OneHot(m) && !Hit(w, m - 1) && Hit(w, m)
    ensures w & (w - 1) == w & !m
  {
  }

  lemma ClearLowestHit(w: bv64, m: bv64, n: bv64)
    requires OneHot(m) && OneHot(n) && !Hit(w, m - 1) && Hit(w, m)
    ensures Hit(w & (w - 1), n) == (m != n && Hit(w, n))
  {
    hide OneHot, Hit;
    ClearLowestOneHot(w, m);
    UnsetOneHot(w, m, n);
  }

  /** mask &= mask - 1 clears exactly the bit that ctz names. */
  lemma ClearLowest(w: bv64, k: nat)
    requires w != 0 && k < 64
    ensures Bit(w & (w - 1), k) == (Bit(w, k) && k != Ctz(w))
  {
    hide Mask, Hit, OneHot;
    var t := Ctz(w);
    NoBitsBelow(w, t);
    MaskOneHot(t);
    MaskOneHot(k);
    MasksDistinct(t, k);
    ClearLowestHit(w, Mask(t), Mask(k));
  }

  // --------------------------------------------------------------- popcount

  /** How many of the lowest n bits are set. */
  function BitsBelow(w: bv64, n: nat): nat
    requires n <= 64
  {
    if n == 0 then 0 else BitsBelow(w, n - 1) + if Bit(w, n - 1) then 1 else 0
  }

  /** __builtin_popcountll. */
  function Popcount(w: bv64): nat {
    BitsBelow(w, 64)
  }

  // --------------------------------------------- the two bits of a chunk

  /** The low (in-use) bit of the t-th chunk of a word. */
  predicate Low(w: bv64, t: nat)
    requires t < 32
  {
    Bit(w, 2 * t)
  }

  /** The high (was-used) bit of the t-th chunk of a word. */
  predicate High(w: bv64, t: nat)
    requires t < 32
  {
    Bit(w, 2 * t + 1)
  }

  /** ~bts & USED_BIT_VECTOR: one bit per chunk whose low bit is clear. */
  function FreeMask(w: bv64): bv64 {
    !w & USED_BIT_VECTOR
  }

  lemma BitOfFreeMask(w: bv64, k: nat)
    requires k < 64
    ensures Bit(FreeMask(w), k) == (k % 2 == 0 && !Bit(w, k))
  {
    BitOfAnd(!w, USED_BIT_VECTOR, k);
    BitOfNot(w, k);
    BitOfEvenVector(k);
  }

  /** An all-zero word is 32 chunks in state 00, and only that. */
  lemma ZeroWord(w: bv64)
    ensures w == 0 <==> forall t: nat :: t < 32 ==> !Low(w, t) && !High(w, t)
  {
    if w != 0 {
      var k := Ctz(w);
      if k % 2 == 0 { assert Low(w, k / 2); } else { assert High(w, k / 2); }
    }
  }

  function Xor(x: bv64, y: bv64): bv64 {
    x ^ y
  }

  lemma XorCancels(x: bv64, y: bv64, m: bv64)
    ensures Xor(x, m) == Xor(y, m) <==> x == y
    ensures Xor(m, x) == Xor(m, y) <==> x == y
  {
  }
}
