/**
  Single bits of 64-bit words: what the shift, mask and lowest-bit idioms of util/bitvec.h compute.
  A bit position is represented by the word that has only this bit set. The first part states facts
  about words alone; the rest lifts them to positions and hides the words.
 */
module Bits {

  type Word = bv64

  /** The word 1 << k; for k == 64 the bit is shifted out. */
  function OneBit(k: nat): Word
    requires k <= 64
  {
    if k == 0 then 1 else OneBit(k - 1) << 1
  }

  function And(a: Word, b: Word): Word { a & b }
  function Or(a: Word, b: Word): Word { a | b }
  function Not(a: Word): Word { !a }

  predicate Meets(a: Word, b: Word) {
    And(a, b) != 0
  }

  predicate Bit(w: Word, k: nat)
    requires k < 64
  {
    Meets(w, OneBit(k))
  }

  /** The bits below that of a one-bit word. */
  function Below(x: Word): Word {
    x - 1
  }

  /** The lowest bit of a word, as util/bitvec.h isolates it. */
  function Lowest(w: Word): Word {
    w & (!w + 1)
  }

  function Flip(w: Word, x: Word): Word {
    w ^ x
  }

  ghost predicate OneHot(x: Word) {
    x != 0 && x & Below(x) == 0
  }

  // ---------------------------------------------------------------- facts about words alone

  lemma {:induction false} OneHotShift(x: Word)
    requires OneHot(x) && x << 1 != 0
    ensures OneHot(x << 1)
  {
  }

  lemma {:induction false} BelowShift(x: Word, y: Word)
    requires OneHot(x) && OneHot(y)
    ensures Meets(Below(x << 1), y) <==> Meets(Below(x), y) || Meets(x, y)
  {
  }

  lemma {:induction false} OneHotCases(a: Word, x: Word)
    requires OneHot(x)
    ensures a & x == 0 || a & x == x
  {
  }

  lemma {:induction false} NotMasked(a: Word, x: Word)
    ensures a & x == 0 ==> !a & x == x
    ensures a & x == x ==> !a & x == 0
  {
  }

  lemma {:induction false} AndMasked(a: Word, b: Word, x: Word)
    ensures (a & b) & x == (a & x) & (b & x)
  {
  }

  lemma {:induction false} OneHotNot(a: Word, x: Word)
    requires OneHot(x)
    ensures Meets(Not(a), x) <==> !Meets(a, x)
  {
    OneHotCases(a, x);
    NotMasked(a, x);
    assert x != 0;
    hide OneHot;
  }

  lemma {:induction false} OneHotAnd(a: Word, b: Word, x: Word)
    requires OneHot(x)
    ensures Meets(And(a, b), x) <==> Meets(a, x) && Meets(b, x)
  {
    OneHotCases(a, x);
    OneHotCases(b, x);
    AndMasked(a, b, x);
    assert x != 0;
    hide OneHot;
  }

  lemma {:induction false} OneHotOr(a: Word, b: Word, x: Word)
    requires OneHot(x)
    ensures Meets(Or(a, b), x) <==> Meets(a, x) || Meets(b, x)
  {
    OrMasked(a, b, x);
  }

  lemma {:induction false} OrMasked(a: Word, b: Word, x: Word)
    requires OneHot(x)
    ensures (a | b) & x != 0 <==> a & x != 0 || b & x != 0
  {
  }

  lemma {:induction false} OneHotMeets(x: Word, y: Word)
    requires OneHot(x) && OneHot(y)
    ensures Meets(x, y) <==> x == y
  {
  }

  lemma {:induction false} LowestIsolated(w: Word, x: Word)
    requires OneHot(x) && Meets(w, x) && !Meets(w, Below(x))
    ensures Lowest(w) == x
  {
  }

  lemma {:induction false} ClearWordBit(w: Word, x: Word, y: Word)
    requires OneHot(x) && OneHot(y) && Meets(w, x)
    ensures Meets(Flip(w, x), y) <==> Meets(w, y) && x != y
  {
    OneHotMeets(x, y);
    hide OneHot, Meets, Flip;
    if x == y {
      FlipSame(w, x);
    } else {
      FlipOther(w, x, y);
    }
  }

  lemma {:induction false} FlipSame(w: Word, x: Word)
    requires OneHot(x) && Meets(w, x)
    ensures !Meets(Flip(w, x), x)
  {
  }

  lemma {:induction false} FlipOther(w: Word, x: Word, y: Word)
    requires !Meets(x, y)
    ensures Meets(Flip(w, x), y) <==> Meets(w, y)
  {
    XorDistributes(w, x, y);
    XorZero(w & y, x & y);
  }

  lemma {:induction false} XorDistributes(w: Word, x: Word, y: Word)
    ensures (w ^ x) & y == (w & y) ^ (x & y)
  {
  }

  lemma {:induction false} XorZero(a: Word, b: Word)
    requires b == 0
    ensures a ^ b == a
  {
  }

  lemma {:induction false} MissesSplit(w: Word, x: Word)
    requires OneHot(x) && !Meets(w, Below(x)) && !Meets(w, x)
    ensures !Meets(w, Below(x << 1))
  {
  }

  lemma {:induction false} NothingBelowOne(w: Word)
    ensures !Meets(w, Below(1)) && OneHot(1)
  {
  }

  lemma {:induction false} AllBelowZero(w: Word)
    requires !Meets(w, Below(0))
    ensures w == 0
  {
  }

  lemma {:induction false} ConstantWords(x: Word)
    requires OneHot(x)
    ensures !Meets(0, x) && Meets(0xFFFF_FFFF_FFFF_FFFF, x)
  {
  }

  lemma {:induction false} Shift8(x: Word)
    ensures ((((((((x << 1) << 1) << 1) << 1) << 1) << 1) << 1) << 1) == x << 8
  {
  }

  // ---------------------------------------------------------------- positions

  lemma {:induction false} OneBitNext(k: nat)
    requires k < 64
    ensures OneBit(k + 1) == OneBit(k) << 1
  {
  }

  lemma {:induction false} OneBitByte(k: nat)
    requires k <= 56
    ensures OneBit(k + 8) == OneBit(k) << 8
  {
    hide OneBit;
    OneBitNext(k);
    OneBitNext(k + 1);
    OneBitNext(k + 2);
    OneBitNext(k + 3);
    OneBitNext(k + 4);
    OneBitNext(k + 5);
    OneBitNext(k + 6);
    OneBitNext(k + 7);
    Shift8(OneBit(k));
  }

  lemma {:induction false} OneBitEnds()
    ensures OneBit(64) == 0 && OneBit(63) != 0
  {
    assert OneBit(0) == 1;
    OneBitByte(0);
    OneBitByte(8);
    OneBitByte(16);
    OneBitByte(24);
    OneBitByte(32);
    OneBitByte(40);
    OneBitByte(48);
    OneBitByte(56);
    OneBitByte(55);
    OneBitByte(47);
    OneBitByte(39);
    OneBitByte(31);
    OneBitByte(23);
    OneBitByte(15);
    OneBitByte(7);
    OneBitSeven();
  }

  lemma {:induction false} OneBitSeven()
    ensures OneBit(0) == 1 && OneBit(7) == 0x80
  {
    assert OneBit(0) == 1;
    OneBitNext(0);
    OneBitNext(1);
    OneBitNext(2);
    OneBitNext(3);
    OneBitNext(4);
    OneBitNext(5);
    OneBitNext(6);
  }

  /** A bit that is shifted out stays out, so none is shifted out before position 64. */
  lemma {:induction false} OneBitNonzero(k: nat)
    requires k < 64
    ensures OneBit(k) != 0
    decreases 63 - k
  {
    if k == 63 {
      OneBitEnds();
    } else {
      OneBitNonzero(k + 1);
      OneBitNext(k);
    }
  }

  lemma {:induction false} OneBitHot(k: nat)
    requires k < 64
    ensures OneHot(OneBit(k))
  {
    if k == 0 {
      NothingBelowOne(0);
    } else {
      OneBitHot(k - 1);
      OneBitNonzero(k);
      hide OneHot;
      OneHotShift(OneBit(k - 1));
    }
  }

  lemma {:induction false} BitOfOneBit(i: nat, j: nat)
    requires i < 64 && j < 64
    ensures Bit(OneBit(i), j) <==> i == j
  {
    OneBitHot(i);
    OneBitHot(j);
    OneBitDistinct(i, j);
    hide OneBit, OneHot, Meets;
    OneHotMeets(OneBit(i), OneBit(j));
  }

  lemma {:induction false} OneBitDistinct(i: nat, j: nat)
    requires i < 64 && j < 64
    ensures OneBit(i) == OneBit(j) <==> i == j
  {
    if i < j {
      LowMaskBits(j, i);
      OneBitHot(j);
      BelowItself(OneBit(j));
    } else if j < i {
      LowMaskBits(i, j);
      OneBitHot(i);
      BelowItself(OneBit(i));
    }
  }

  lemma {:induction false} BelowItself(x: Word)
    requires OneHot(x)
    ensures !Meets(Below(x), x)
  {
  }

  /** The bits below position n, one direction. */
  lemma {:induction false} LowMaskBits(n: nat, j: nat)
    requires n <= 64 && j < 64 && j < n
    ensures Meets(Below(OneBit(n)), OneBit(j))
  {
    OneBitHot(n - 1);
    OneBitHot(j);
    OneBitNext(n - 1);
    if j < n - 1 {
      LowMaskBits(n - 1, j);
    }
    hide OneBit, OneHot, Below;
    BelowShift(OneBit(n - 1), OneBit(j));
    if j == n - 1 {
      OneHotMeets(OneBit(j), OneBit(j));
    }
  }

  /** The mask (1 << n) - 1 has exactly the n lowest bits. */
  lemma {:induction false} MaskBits(n: nat, j: nat)
    requires n <= 64 && j < 64
    ensures Bit(Below(OneBit(n)), j) <==> j < n
  {
    if j < n {
      LowMaskBits(n, j);
    } else {
      MaskMisses(n, j);
    }
  }

  lemma {:induction false} MaskMisses(n: nat, j: nat)
    requires n <= j < 64
    ensures !Meets(Below(OneBit(n)), OneBit(j))
  {
    OneBitHot(j);
    if n == 0 {
      NothingBelowOne(OneBit(j));
      MeetsSymmetric(OneBit(j), Below(1));
    } else {
      MaskMisses(n - 1, j);
      OneBitHot(n - 1);
      OneBitNext(n - 1);
      OneBitDistinct(n - 1, j);
      hide OneBit, OneHot, Below, Meets;
      BelowShift(OneBit(n - 1), OneBit(j));
      OneHotMeets(OneBit(n - 1), OneBit(j));
    }
  }

  lemma {:induction false} MeetsSymmetric(a: Word, b: Word)
    ensures Meets(a, b) == Meets(b, a)
  {
  }

  // ---------------------------------------------------------------- bitwise operations, bit by bit

  lemma {:induction false} BitNot(a: Word, k: nat)
    requires k < 64
    ensures Bit(Not(a), k) <==> !Bit(a, k)
  {
    hide OneBit, OneHot, Meets, And, Or, Not, Below;
    OneBitHot(k);
    OneHotNot(a, OneBit(k));
  }

  lemma {:induction false} BitAnd(a: Word, b: Word, k: nat)
    requires k < 64
    ensures Bit(And(a, b), k) <==> Bit(a, k) && Bit(b, k)
  {
    hide OneBit, OneHot, Meets, And, Or, Not, Below;
    OneBitHot(k);
    OneHotAnd(a, b, OneBit(k));
  }

  lemma {:induction false} BitOr(a: Word, b: Word, k: nat)
    requires k < 64
    ensures Bit(Or(a, b), k) <==> Bit(a, k) || Bit(b, k)
  {
    hide OneBit, OneHot, Meets, And, Or, Not, Below;
    OneBitHot(k);
    OneHotOr(a, b, OneBit(k));
  }

  lemma {:induction false} ConstantBits(k: nat)
    requires k < 64
    ensures !Bit(0, k) && Bit(0xFFFF_FFFF_FFFF_FFFF, k)
  {
    OneBitHot(k);
    hide OneBit, OneHot, Meets;
    ConstantWords(OneBit(k));
  }

  lemma {:induction false} NoLowBits(w: Word, n: nat)
    requires n <= 64 && forall j :: 0 <= j < n ==> !Bit(w, j)
    ensures !Meets(w, Below(OneBit(n)))
  {
    if n == 0 {
      NothingBelowOne(w);
    } else {
      NoLowBits(w, n - 1);
      OneBitHot(n - 1);
      OneBitNext(n - 1);
      assert !Bit(w, n - 1);
      hide OneBit, OneHot, Meets, Below;
      MissesSplit(w, OneBit(n - 1));
    }
  }

  /** A word without bits is zero. */
  lemma {:induction false} ZeroWord(w: Word)
    ensures w == 0 <==> forall j :: 0 <= j < 64 ==> !Bit(w, j)
  {
    if forall j :: 0 <= j < 64 ==> !Bit(w, j) {
      NoLowBits(w, 64);
      OneBitEnds();
      hide OneBit, Meets, Below;
      AllBelowZero(w);
    }
    if w == 0 {
      forall j | 0 <= j < 64 ensures !Bit(w, j) {
        ConstantBits(j);
      }
    }
  }

  /** The position of the lowest bit (__builtin_ctzll). */
  function Ctz(w: Word): (k: nat)
    requires w != 0
    ensures k < 64 && Bit(w, k)
    ensures forall j :: 0 <= j < k ==> !Bit(w, j)
  {
    ZeroWord(w);
    CtzFrom(w, 0)
  }

  function CtzFrom(w: Word, k: nat): (r: nat)
    requires k <= 64 && forall j :: 0 <= j < k ==> !Bit(w, j)
    requires exists j :: 0 <= j < 64 && Bit(w, j)
    ensures r < 64 && Bit(w, r)
    ensures forall j :: 0 <= j < r ==> !Bit(w, j)
    decreases 64 - k
  {
    if k < 64 && Bit(w, k) then k else
      assert k < 64;
      CtzFrom(w, k + 1)
  }

  lemma {:induction false} LowestIsCtz(w: Word)
    requires w != 0
    ensures Lowest(w) == OneBit(Ctz(w))
  {
    OneBitHot(Ctz(w));
    NoLowBits(w, Ctz(w));
    hide OneBit, OneHot, Below, Lowest, Meets;
    LowestIsolated(w, OneBit(Ctz(w)));
  }

  lemma {:induction false} ClearBitAt(w: Word, k: nat, j: nat)
    requires k < 64 && j < 64 && Bit(w, k)
    ensures Bit(Flip(w, OneBit(k)), j) <==> Bit(w, j) && j != k
  {
    OneBitHot(k);
    OneBitHot(j);
    OneBitDistinct(k, j);
    hide OneBit, OneHot, Meets, Flip;
    ClearWordBit(w, OneBit(k), OneBit(j));
  }

  /** Flipping the lowest bit clears it and changes nothing else. */
  lemma {:induction false} ClearLowest(w: Word, j: nat)
    requires w != 0 && j < 64
    ensures Bit(Flip(w, Lowest(w)), j) <==> Bit(w, j) && j != Ctz(w)
  {
    LowestIsCtz(w);
    hide OneBit, OneHot, Meets, Bit, Lowest, Flip;
    ClearBitAt(w, Ctz(w), j);
  }
}
