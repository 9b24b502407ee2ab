/**
  The dot product of a 4-bit vector, stored as four bit planes, with a 1-bit vector (knn/space.cpp,
  BinaryDotProduct, BinaryDotProduct16, BinaryDotProductBatch2): bits in common are counted plane by plane.
 */
module DotProduct {
  import opened BitPlanes
  import opened Transpose
  import opened Shifts

  function Flag(b: bool): nat {
    if b then 1 else 0
  }

  /** How many of the lowest k bits of a byte are set. */
  function CountTo(x: Byte, k: nat): nat
    requires k <= 8
  {
    if k == 0 then 0 else CountTo(x, k - 1) + Flag(Bit(x, k - 1))
  }

  function Count(x: Byte): nat {
    CountTo(x, 8)
  }

  /** Bits set in both the first m bytes of a plane that starts at off and the first m bytes of the 1-bit vector. */
  function Common(planes: seq<Byte>, off: nat, bits: seq<Byte>, m: nat): nat
    requires off + m <= |planes| && m <= |bits|
  {
    if m == 0 then 0 else Common(planes, off, bits, m - 1) + Count(And8(planes[off + m - 1], bits[m - 1]))
  }

  /** The weighted sum over the four planes of n bytes each, of which the first m are looked at. */
  function PlaneDot(planes: seq<Byte>, bits: seq<Byte>, n: nat, m: nat): nat
    requires m <= n <= |bits| && 4 * n <= |planes|
  {
    Common(planes, At(n, 0, 0), bits, m) + 2 * Common(planes, At(n, 1, 0), bits, m) +
    4 * Common(planes, At(n, 2, 0), bits, m) + 8 * Common(planes, At(n, 3, 0), bits, m)
  }

  // ---------------------------------------------------------------- counting bits of words

  predicate Odd(w: bv64) {
    w & 1 == 1
  }

  function Half(w: bv64): bv64 {
    w >> 1
  }

  /** The bits set among the lowest n of a word, one by one. */
  function Ones(w: bv64, n: nat): nat {
    if n == 0 then 0 else Flag(Odd(w)) + Ones(Half(w), n - 1)
  }

  function PopCount64(w: bv64): nat {
    Ones(w, 64)
  }

  function PopCount32(w: bv32): nat {
    Ones(w as bv64, 32)
  }

  lemma {:induction false} LowBit(w: bv64)
    ensures Bit(ByteOf(w, 0), 0) <==> Odd(w)
  {
  }

  lemma {:induction false} NextLowBit(w: bv64, k: nat)
    requires k < 7
    ensures Bit(ByteOf(w, 0), k + 1) <==> Bit(ByteOf(Half(w), 0), k)
  {
  }

  /** Bit k of the lowest byte comes down by halving k times. */
  function HalfTimes(w: bv64, k: nat): bv64 {
    if k == 0 then w else HalfTimes(Half(w), k - 1)
  }

  lemma {:induction false} LowBitAt(w: bv64, k: nat)
    requires k < 8
    ensures Bit(ByteOf(w, 0), k) <==> Odd(HalfTimes(w, k))
    decreases k
  {
    hide Bit, ByteOf, Odd, Half;
    if k == 0 {
      LowBit(w);
    } else {
      NextLowBit(w, k - 1);
      LowBitAt(Half(w), k - 1);
    }
  }

  function Down8(w: bv64): bv64 {
    w >> 8
  }

  lemma {:induction false} ByteDown(w: bv64)
    ensures HalfTimes(w, 8) == Down8(w)
  {
    FourHalves(w);
    FourHalves(w >> 4);
    TwiceFour(w);
    hide *;
    HalvesAdd(w, 4, 4);
  }

  lemma {:induction false} TwiceFour(w: bv64)
    ensures (w >> 4) >> 4 == Down8(w)
  {
  }

  lemma {:induction false} FourHalves(w: bv64)
    ensures HalfTimes(w, 4) == w >> 4
  {
    var w4 := Half(Half(Half(Half(w))));
    assert w4 == w >> 4;
    hide Half;
    assert HalfTimes(w4, 0) == w4;
    assert HalfTimes(Half(Half(w)), 2) == w4;
  }

  lemma {:induction false} HalvesAdd(w: bv64, j: nat, k: nat)
    ensures HalfTimes(HalfTimes(w, j), k) == HalfTimes(w, j + k)
    decreases j
  {
    hide Half;
    if j > 0 {
      HalvesAdd(Half(w), j - 1, k);
    }
  }

  /** The flags of k halvings. */
  function FlagsTo(w: bv64, k: nat): nat {
    if k == 0 then 0 else FlagsTo(w, k - 1) + Flag(Odd(HalfTimes(w, k - 1)))
  }

  lemma {:induction false} HalfOnce(w: bv64, k: nat)
    ensures Half(HalfTimes(w, k)) == HalfTimes(w, k + 1)
    decreases k
  {
    hide Half;
    if k > 0 {
      HalfOnce(Half(w), k - 1);
    }
  }

  lemma {:induction false} OnesAfter(w: bv64, k: nat, n: nat)
    ensures Ones(w, n + k) == FlagsTo(w, k) + Ones(HalfTimes(w, k), n)
    decreases k
  {
    hide Half, Odd;
    if k > 0 {
      OnesAfter(w, k - 1, n + 1);
      HalfOnce(w, k - 1);
    }
  }

  lemma {:induction false} FlagsOfByte(w: bv64, k: nat)
    requires k <= 8
    ensures FlagsTo(w, k) == CountTo(ByteOf(w, 0), k)
    decreases k
  {
    hide Bit, ByteOf, Odd, HalfTimes;
    if k > 0 {
      FlagsOfByte(w, k - 1);
      LowBitAt(w, k - 1);
    }
  }

  lemma {:induction false} CountIs(x: Byte)
    ensures Count(x) == CountTo(x, 8)
  {
    hide CountTo;
  }

  /** Eight bits at a time. */
  lemma {:induction false} OnesByte(w: bv64, n: nat)
    ensures Ones(w, n + 8) == Count(ByteOf(w, 0)) + Ones(Down8(w), n)
  {
    hide *;
    OnesAfter(w, 8, n);
    FlagsOfByte(w, 8);
    CountIs(ByteOf(w, 0));
    ByteDown(w);
  }

  lemma {:induction false} NextByte(w: bv64, m: nat)
    requires m < 7
    ensures ByteOf(Down8(w), m) == ByteOf(w, m + 1)
  {
    match m {
      case 0 =>
      case 1 => assert (w >> 8) >> 8 == w >> 16;
      case 2 => assert (w >> 8) >> 16 == w >> 24;
      case 3 => assert (w >> 8) >> 24 == w >> 32;
      case 4 => assert (w >> 8) >> 32 == w >> 40;
      case 5 => assert (w >> 8) >> 40 == w >> 48;
      case 6 => assert (w >> 8) >> 48 == w >> 56;
    }
  }

  /** The bits set in the first m bytes of a word. */
  function BytesCount(w: bv64, m: nat): nat
    requires m <= 8
  {
    if m == 0 then 0 else BytesCount(w, m - 1) + Count(ByteOf(w, m - 1))
  }

  lemma {:induction false} BytesCountFront(w: bv64, m: nat)
    requires 0 < m <= 8
    ensures BytesCount(w, m) == Count(ByteOf(w, 0)) + BytesCount(Down8(w), m - 1)
  {
    hide ByteOf, Count, Down8;
    if m > 1 {
      BytesCountFront(w, m - 1);
      NextByte(w, m - 2);
    }
  }

  lemma {:induction false} OnesBytes(w: bv64, m: nat)
    requires m <= 8
    ensures Ones(w, 8 * m) == BytesCount(w, m)
    decreases m
  {
    if m > 0 {
      BytesCountFront(w, m);
      OnesBytes(Down8(w), m - 1);
      OnesByte(w, 8 * (m - 1));
      hide *;
      assert 8 * (m - 1) + 8 == 8 * m;
    }
  }

  function And64(x: bv64, y: bv64): bv64 {
    x & y
  }

  function And32(x: bv32, y: bv32): bv32 {
    x & y
  }

  function And8(x: Byte, y: Byte): Byte {
    x & y
  }

  lemma {:induction false} CommonWords(a: seq<Byte>, b: seq<Byte>, m: nat)
    requires |a| == |b| == 8 && m < 8
    ensures ByteOf(And64(Word(a), Word(b)), m) == And8(a[m], b[m])
  {
    hide *;
    BytesOfWord(a, m);
    BytesOfWord(b, m);
    ByteOfBoth(Word(a), Word(b), m);
  }

  lemma {:induction false} ByteOfBoth(x: bv64, y: bv64, m: nat)
    requires m < 8
    ensures ByteOf(And64(x, y), m) == And8(ByteOf(x, m), ByteOf(y, m))
    decreases m
  {
    if m == 0 {
      LowOfBoth(x, y);
    } else {
      hide *;
      ByteOfBoth(Down8(x), Down8(y), m - 1);
      DownOfBoth(x, y);
      NextByte(x, m - 1);
      NextByte(y, m - 1);
      NextByte(And64(x, y), m - 1);
    }
  }

  lemma {:induction false} LowOfBoth(x: bv64, y: bv64)
    ensures ByteOf(And64(x, y), 0) == And8(ByteOf(x, 0), ByteOf(y, 0))
  {
  }

  lemma {:induction false} DownOfBoth(x: bv64, y: bv64)
    ensures Down8(And64(x, y)) == And64(Down8(x), Down8(y))
  {
  }

  /** A 32-bit word in memory, lowest byte first. */
  function Word32(b: seq<Byte>): bv32
    requires |b| == 4
  {
    (b[0] as bv32) | (b[1] as bv32 << 8) | (b[2] as bv32 << 16) | (b[3] as bv32 << 24)
  }

  /** The word with four zero bytes above. */
  lemma {:induction false} WideWord(b: seq<Byte>, m: nat)
    requires |b| == 4 && m < 4
    ensures ByteOf(Word32(b) as bv64, m) == b[m]
  {
  }

  lemma {:induction false} WideAnd(x: bv32, y: bv32)
    ensures And32(x, y) as bv64 == And64(x as bv64, y as bv64)
  {
  }

  lemma {:induction false} CommonWords32(a: seq<Byte>, b: seq<Byte>, m: nat)
    requires |a| == |b| == 4 && m < 4
    ensures ByteOf(And32(Word32(a), Word32(b)) as bv64, m) == And8(a[m], b[m])
  {
    hide *;
    WideWord(a, m);
    WideWord(b, m);
    WideAnd(Word32(a), Word32(b));
    ByteOfBoth(Word32(a) as bv64, Word32(b) as bv64, m);
  }

  // ---------------------------------------------------------------- words of two vectors

  lemma {:induction false} CommonMore(planes: seq<Byte>, off: nat, bits: seq<Byte>, m: nat)
    requires off + m < |planes| && m < |bits|
    ensures Common(planes, off, bits, m + 1) == Common(planes, off, bits, m) + Count(And8(planes[off + m], bits[m]))
  {
    hide Count, And8;
  }

  /** Four bytes counted as a 32-bit word are four bytes more. */
  lemma {:induction false} CommonFour(planes: seq<Byte>, off: nat, bits: seq<Byte>, m: nat)
    requires off + m + 4 <= |planes| && m + 4 <= |bits|
    ensures Common(planes, off, bits, m + 4) == Common(planes, off, bits, m) +
            PopCount32(And32(Word32(planes[off + m..off + m + 4]), Word32(bits[m..m + 4])))
  {
    hide *;
    var w := And32(Word32(planes[off + m..off + m + 4]), Word32(bits[m..m + 4]));
    PopCountIs(w, 0);
    OnesBytes(w as bv64, 4);
    HalfWordSoFar(planes, off, bits, m, 4);
  }

  lemma {:induction false} PopCountIs(w: bv32, v: bv64)
    ensures PopCount32(w) == Ones(w as bv64, 32) && PopCount64(v) == Ones(v, 64)
  {
    hide Ones;
  }

  lemma {:induction false} HalfWordSoFar(planes: seq<Byte>, off: nat, bits: seq<Byte>, m: nat, k: nat)
    requires off + m + 4 <= |planes| && m + 4 <= |bits| && k <= 4
    ensures Common(planes, off, bits, m + k) == Common(planes, off, bits, m) +
            BytesCount(And32(Word32(planes[off + m..off + m + 4]), Word32(bits[m..m + 4])) as bv64, k)
    decreases k
  {
    hide Count, Word32, Common, ByteOf, And32, And8;
    if k > 0 {
      HalfWordSoFar(planes, off, bits, m, k - 1);
      CommonWords32(planes[off + m..off + m + 4], bits[m..m + 4], k - 1);
      CommonMore(planes, off, bits, m + k - 1);
    }
  }

  /** Eight bytes counted as a 64-bit word are eight bytes more. */
  lemma {:induction false} CommonEight(planes: seq<Byte>, off: nat, bits: seq<Byte>, m: nat)
    requires off + m + 8 <= |planes| && m + 8 <= |bits|
    ensures Common(planes, off, bits, m + 8) == Common(planes, off, bits, m) +
            PopCount64(And64(Word(planes[off + m..off + m + 8]), Word(bits[m..m + 8])))
  {
    hide *;
    var w := And64(Word(planes[off + m..off + m + 8]), Word(bits[m..m + 8]));
    PopCountIs(0, w);
    OnesBytes(w, 8);
    WordSoFar(planes, off, bits, m, 8);
  }

  lemma {:induction false} WordSoFar(planes: seq<Byte>, off: nat, bits: seq<Byte>, m: nat, k: nat)
    requires off + m + 8 <= |planes| && m + 8 <= |bits| && k <= 8
    ensures Common(planes, off, bits, m + k) == Common(planes, off, bits, m) +
            BytesCount(And64(Word(planes[off + m..off + m + 8]), Word(bits[m..m + 8])), k)
    decreases k
  {
    hide Count, Word, Common, ByteOf, And64, And8;
    if k > 0 {
      WordSoFar(planes, off, bits, m, k - 1);
      CommonWords(planes[off + m..off + m + 8], bits[m..m + 8], k - 1);
      CommonMore(planes, off, bits, m + k - 1);
    }
  }

  lemma {:induction false} PopByte(x: Byte)
    ensures PopCount32(x as bv32) == Count(x)
  {
    var w := (x as bv32) as bv64;
    assert ByteOf(w, 0) == x && ByteOf(w, 1) == 0 && ByteOf(w, 2) == 0 && ByteOf(w, 3) == 0;
    hide *;
    CountZero(0);
    PopCountIs(x as bv32, 0);
    OnesBytes(w, 4);
    LowByteCount(w, 4);
  }

  lemma {:induction false} LowByteCount(w: bv64, m: nat)
    requires 0 < m <= 4 && Count(ByteOf(w, 1)) == 0 && Count(ByteOf(w, 2)) == 0 && Count(ByteOf(w, 3)) == 0
    ensures BytesCount(w, m) == Count(ByteOf(w, 0))
    decreases m
  {
    hide Count, ByteOf;
    if m > 1 {
      LowByteCount(w, m - 1);
    } else {
      assert BytesCount(w, 0) == 0;
    }
  }

  // ---------------------------------------------------------------- one plane after the other

  /** The first i planes, each weighted by its place. */
  function PlanesTo(planes: seq<Byte>, bits: seq<Byte>, n: nat, i: nat): nat
    requires n <= |bits| && 4 * n <= |planes| && i <= 4
  {
    if i == 0 then 0 else PlanesTo(planes, bits, n, i - 1) + Shl(Common(planes, At(n, i - 1, 0), bits, n), i - 1)
  }

  lemma {:induction false} AllPlanes(planes: seq<Byte>, bits: seq<Byte>, n: nat)
    requires n <= |bits| && 4 * n <= |planes|
    ensures PlanesTo(planes, bits, n, 4) == PlaneDot(planes, bits, n, n)
  {
    var a, b, c, d := Common(planes, At(n, 0, 0), bits, n), Common(planes, At(n, 1, 0), bits, n),
        Common(planes, At(n, 2, 0), bits, n), Common(planes, At(n, 3, 0), bits, n);
    assert Shl(a, 0) == a && Shl(b, 1) == 2 * b && Shl(c, 2) == 4 * c && Shl(d, 3) == 8 * d;
    hide Common, At, Shl, PlanesTo;
    NoPlanes(planes, bits, n);
    NextPlane(planes, bits, n, 0);
    NextPlane(planes, bits, n, 1);
    NextPlane(planes, bits, n, 2);
    NextPlane(planes, bits, n, 3);
  }

  lemma {:induction false} NextPlane(planes: seq<Byte>, bits: seq<Byte>, n: nat, i: nat)
    requires n <= |bits| && 4 * n <= |planes| && i < 4
    ensures At(n, i, 0) + n <= |planes| && PlanesTo(planes, bits, n, i + 1) == PlanesTo(planes, bits, n, i) +
            Shl(Common(planes, At(n, i, 0), bits, n), i)
    ensures i < 3 ==> At(n, i + 1, 0) == At(n, i, 0) + n
  {
    hide Common, Shl;
  }

  lemma {:induction false} NoneInCommon(planes: seq<Byte>, off: nat, bits: seq<Byte>)
    requires off <= |planes|
    ensures Common(planes, off, bits, 0) == 0
  {
  }

  /** BinaryDotProduct: a plane at a time, four bytes at a time while there are four. */
  method BinaryDotProduct(pVec4Bit: seq<Byte>, pVec1Bit: seq<Byte>, iBytes: nat) returns (iResult: nat)
    requires iBytes <= |pVec1Bit| && 4 * iBytes <= |pVec4Bit|
    ensures iResult == PlaneDot(pVec4Bit, pVec1Bit, iBytes, iBytes)
  {
    hide *;
    iResult := 0;
    var ptr := 0;
    var i := 0;
    NoPlanes(pVec4Bit, pVec1Bit, iBytes);
    while i < 4
      invariant 0 <= i <= 4 && iResult == PlanesTo(pVec4Bit, pVec1Bit, iBytes, i)
      invariant i < 4 ==> ptr == At(iBytes, i, 0)
    {
      ghost var off := ptr;
      NextPlane(pVec4Bit, pVec1Bit, iBytes, i);
      var iPopCntSum := 0;
      var j := 0;
      NoneInCommon(pVec4Bit, off, pVec1Bit);
      var iLimit4Bytes := iBytes / 4 * 4;
      while j < iLimit4Bytes
        invariant j % 4 == 0 && 0 <= j <= iLimit4Bytes && ptr == off + j &&
                  iPopCntSum == Common(pVec4Bit, off, pVec1Bit, j)
      {
        var uVal4Bit, uVal1Bit := Word32(pVec4Bit[ptr..ptr + 4]), Word32(pVec1Bit[j..j + 4]);
        CommonFour(pVec4Bit, off, pVec1Bit, j);
        iPopCntSum := iPopCntSum + PopCount32(And32(uVal4Bit, uVal1Bit));
        ptr, j := ptr + 4, j + 4;
      }
      while j < iBytes
        invariant 0 <= j <= iBytes && ptr == off + j && iPopCntSum == Common(pVec4Bit, off, pVec1Bit, j)
      {
        CommonMore(pVec4Bit, off, pVec1Bit, j);
        PopByte(And8(pVec4Bit[ptr], pVec1Bit[j]));
        iPopCntSum := iPopCntSum + PopCount32(And8(pVec4Bit[ptr], pVec1Bit[j]) as bv32);
        ptr, j := ptr + 1, j + 1;
      }
      iResult := iResult + Shl(iPopCntSum, i);
      i := i + 1;
    }
    AllPlanes(pVec4Bit, pVec1Bit, iBytes);
  }

  lemma {:induction false} NoPlanes(planes: seq<Byte>, bits: seq<Byte>, n: nat)
    requires n <= |bits| && 4 * n <= |planes|
    ensures PlanesTo(planes, bits, n, 0) == 0 && At(n, 0, 0) == 0
  {
  }

  // ---------------------------------------------------------------- four planes at once

  /** Two 64-bit words of a plane and of the 1-bit vector. */
  function PopCount128(planes: seq<Byte>, off: nat, bits: seq<Byte>, i: nat): nat
    requires off + i + 16 <= |planes| && i + 16 <= |bits|
  {
    var p := off + i;
    PopCount64(And64(Word(bits[i..i + 8]), Word(planes[p..p + 8]))) +
        PopCount64(And64(Word(bits[i + 8..i + 16]), Word(planes[p + 8..p + 16])))
  }

  lemma {:induction false} CommonSixteen(planes: seq<Byte>, off: nat, bits: seq<Byte>, i: nat)
    requires off + i + 16 <= |planes| && i + 16 <= |bits|
    ensures Common(planes, off, bits, i + 16) == Common(planes, off, bits, i) + PopCount128(planes, off, bits, i)
  {
    CommonEight(planes, off, bits, i);
    CommonEight(planes, off, bits, i + 8);
    AndSwaps(Word(bits[i..i + 8]), Word(planes[off + i..off + i + 8]));
    AndSwaps(Word(bits[i + 8..i + 16]), Word(planes[off + i + 8..off + i + 16]));
    hide PopCount64, Common, Word, And64;
  }

  lemma {:induction false} AndSwaps(x: bv64, y: bv64)
    ensures And64(x, y) == And64(y, x)
  {
  }

  lemma {:induction false} AndSwaps8(x: Byte, y: Byte)
    ensures And8(x, y) == And8(y, x)
  {
  }

  function PopCountByte(planes: seq<Byte>, off: nat, bits: seq<Byte>, i: nat): nat
    requires off + i < |planes| && i < |bits|
  {
    PopCount32(And8(bits[i], planes[off + i]) as bv32)
  }

  lemma {:induction false} CommonByte(planes: seq<Byte>, off: nat, bits: seq<Byte>, i: nat)
    requires off + i < |planes| && i < |bits|
    ensures Common(planes, off, bits, i + 1) == Common(planes, off, bits, i) + PopCountByte(planes, off, bits, i)
  {
    hide PopCount32, Common, Count, And8;
    CommonMore(planes, off, bits, i);
    PopByte(And8(bits[i], planes[off + i]));
    AndSwaps8(bits[i], planes[off + i]);
  }

  /** The four counters after the first i bytes of each plane. */
  ghost predicate Counted(planes: seq<Byte>, bits: seq<Byte>, n: nat, i: nat, c0: nat, c1: nat, c2: nat, c3: nat)
    requires i <= n <= |bits| && 4 * n <= |planes|
  {
    c0 == Common(planes, 0, bits, i) && c1 == Common(planes, n, bits, i) && c2 == Common(planes, 2 * n, bits, i) &&
        c3 == Common(planes, 3 * n, bits, i)
  }

  lemma {:induction false} CountedStart(planes: seq<Byte>, bits: seq<Byte>, n: nat)
    requires n <= |bits| && 4 * n <= |planes|
    ensures Counted(planes, bits, n, 0, 0, 0, 0, 0)
  {
  }

  lemma {:induction false} CountedSixteen(planes: seq<Byte>, bits: seq<Byte>, n: nat, i: nat, c0: nat, c1: nat, c2: nat,
                                          c3: nat)
    requires i + 16 <= n <= |bits| && 4 * n <= |planes| && Counted(planes, bits, n, i, c0, c1, c2, c3)
    ensures Counted(planes, bits, n, i + 16, c0 + PopCount128(planes, 0, bits, i), c1 + PopCount128(planes, n, bits, i),
            c2 + PopCount128(planes, 2 * n, bits, i), c3 + PopCount128(planes, 3 * n, bits, i))
  {
    hide PopCount128, Common;
    CommonSixteen(planes, 0, bits, i);
    CommonSixteen(planes, n, bits, i);
    CommonSixteen(planes, 2 * n, bits, i);
    CommonSixteen(planes, 3 * n, bits, i);
  }

  lemma {:induction false} CountedByte(planes: seq<Byte>, bits: seq<Byte>, n: nat, i: nat, c0: nat, c1: nat, c2: nat,
                                       c3: nat)
    requires i < n <= |bits| && 4 * n <= |planes| && Counted(planes, bits, n, i, c0, c1, c2, c3)
    ensures Counted(planes, bits, n, i + 1, c0 + PopCountByte(planes, 0, bits, i),
            c1 + PopCountByte(planes, n, bits, i), c2 + PopCountByte(planes, 2 * n, bits, i),
            c3 + PopCountByte(planes, 3 * n, bits, i))
  {
    hide PopCountByte, Common;
    CommonByte(planes, 0, bits, i);
    CommonByte(planes, n, bits, i);
    CommonByte(planes, 2 * n, bits, i);
    CommonByte(planes, 3 * n, bits, i);
  }

  lemma {:induction false} CountedDot(planes: seq<Byte>, bits: seq<Byte>, n: nat, i: nat, c0: nat, c1: nat, c2: nat,
                                      c3: nat)
    requires i <= n <= |bits| && 4 * n <= |planes| && Counted(planes, bits, n, i, c0, c1, c2, c3)
    ensures c0 + Shl(c1, 1) + Shl(c2, 2) + Shl(c3, 3) == PlaneDot(planes, bits, n, i)
  {
    assert Shl(c1, 1) == 2 * c1 && Shl(c2, 2) == 4 * c2 && Shl(c3, 3) == 8 * c3;
    hide Common, Shl;
  }

  /** How far the chunks of 16 and the residual loop get. */
  function Looked(residuals: bool, n: nat): (r: nat)
    ensures r <= n
  {
    if residuals then n else n / 16 * 16
  }

  /** BinaryDotProduct16: 16 bytes of each plane at a time; bytes behind the last whole 16 only in the residual form. */
  method BinaryDotProduct16(residuals: bool, pVec4Bit: seq<Byte>, pVec1Bit: seq<Byte>,
                            iBytes: nat) returns (iResult: nat)
    requires iBytes <= |pVec1Bit| && 4 * iBytes <= |pVec4Bit|
    ensures iResult == PlaneDot(pVec4Bit, pVec1Bit, iBytes, Looked(residuals, iBytes))
    ensures residuals || iBytes % 16 == 0 ==> iResult == PlaneDot(pVec4Bit, pVec1Bit, iBytes, iBytes)
  {
    hide PopCount128, PopCountByte, Counted, PlaneDot, Shl;
    var iPopCnt0: nat, iPopCnt1: nat, iPopCnt2: nat, iPopCnt3: nat := 0, 0, 0, 0;
    CountedStart(pVec4Bit, pVec1Bit, iBytes);
    var uLimit16 := iBytes / 16 * 16;
    var i := 0;
    while i < uLimit16
      invariant i % 16 == 0 && 0 <= i <= uLimit16 &&
                Counted(pVec4Bit, pVec1Bit, iBytes, i, iPopCnt0, iPopCnt1, iPopCnt2, iPopCnt3)
    {
      CountedSixteen(pVec4Bit, pVec1Bit, iBytes, i, iPopCnt0, iPopCnt1, iPopCnt2, iPopCnt3);
      iPopCnt0 := iPopCnt0 + PopCount128(pVec4Bit, 0, pVec1Bit, i);
      iPopCnt1 := iPopCnt1 + PopCount128(pVec4Bit, iBytes, pVec1Bit, i);
      iPopCnt2 := iPopCnt2 + PopCount128(pVec4Bit, 2 * iBytes, pVec1Bit, i);
      iPopCnt3 := iPopCnt3 + PopCount128(pVec4Bit, 3 * iBytes, pVec1Bit, i);
      i := i + 16;
    }
    if residuals {
      while i < iBytes
        invariant uLimit16 <= i <= iBytes && Counted(pVec4Bit, pVec1Bit, iBytes, i, iPopCnt0, iPopCnt1, iPopCnt2,
                  iPopCnt3)
      {
        CountedByte(pVec4Bit, pVec1Bit, iBytes, i, iPopCnt0, iPopCnt1, iPopCnt2, iPopCnt3);
        iPopCnt0 := iPopCnt0 + PopCountByte(pVec4Bit, 0, pVec1Bit, i);
        iPopCnt1 := iPopCnt1 + PopCountByte(pVec4Bit, iBytes, pVec1Bit, i);
        iPopCnt2 := iPopCnt2 + PopCountByte(pVec4Bit, 2 * iBytes, pVec1Bit, i);
        iPopCnt3 := iPopCnt3 + PopCountByte(pVec4Bit, 3 * iBytes, pVec1Bit, i);
        i := i + 1;
      }
    }
    CountedDot(pVec4Bit, pVec1Bit, iBytes, i, iPopCnt0, iPopCnt1, iPopCnt2, iPopCnt3);
    iResult := iPopCnt0 + Shl(iPopCnt1, 1) + Shl(iPopCnt2, 2) + Shl(iPopCnt3, 3);
  }

  /** BinaryDotProductBatch2: two 1-bit vectors in one pass over the planes. */
  method BinaryDotProductBatch2(residuals: bool, pVec4Bit: seq<Byte>, pVec1BitA: seq<Byte>, pVec1BitB: seq<Byte>,
                                iBytes: nat) returns (iResultA: nat, iResultB: nat)
    requires iBytes <= |pVec1BitA| && iBytes <= |pVec1BitB| && 4 * iBytes <= |pVec4Bit|
    ensures iResultA == PlaneDot(pVec4Bit, pVec1BitA, iBytes, Looked(residuals, iBytes))
    ensures iResultB == PlaneDot(pVec4Bit, pVec1BitB, iBytes, Looked(residuals, iBytes))
    ensures residuals || iBytes % 16 == 0 ==> iResultA == PlaneDot(pVec4Bit, pVec1BitA, iBytes, iBytes)
    ensures residuals || iBytes % 16 == 0 ==> iResultB == PlaneDot(pVec4Bit, pVec1BitB, iBytes, iBytes)
  {
    hide PopCount128, PopCountByte, Counted, PlaneDot, Shl;
    var a0: nat, a1: nat, a2: nat, a3: nat := 0, 0, 0, 0;
    var b0: nat, b1: nat, b2: nat, b3: nat := 0, 0, 0, 0;
    CountedStart(pVec4Bit, pVec1BitA, iBytes);
    CountedStart(pVec4Bit, pVec1BitB, iBytes);
    var uLimit16 := iBytes / 16 * 16;
    var i := 0;
    while i < uLimit16
      invariant i % 16 == 0 && 0 <= i <= uLimit16
      invariant Counted(pVec4Bit, pVec1BitA, iBytes, i, a0, a1, a2, a3) &&
                Counted(pVec4Bit, pVec1BitB, iBytes, i, b0, b1, b2, b3)
    {
      CountedSixteen(pVec4Bit, pVec1BitA, iBytes, i, a0, a1, a2, a3);
      CountedSixteen(pVec4Bit, pVec1BitB, iBytes, i, b0, b1, b2, b3);
      a0, b0 := a0 + PopCount128(pVec4Bit, 0, pVec1BitA, i), b0 + PopCount128(pVec4Bit, 0, pVec1BitB, i);
      a1, b1 := a1 + PopCount128(pVec4Bit, iBytes, pVec1BitA, i), b1 + PopCount128(pVec4Bit, iBytes, pVec1BitB, i);
      a2, b2 := a2 + PopCount128(pVec4Bit, 2 * iBytes, pVec1BitA, i),
          b2 + PopCount128(pVec4Bit, 2 * iBytes, pVec1BitB, i);
      a3, b3 := a3 + PopCount128(pVec4Bit, 3 * iBytes, pVec1BitA, i),
          b3 + PopCount128(pVec4Bit, 3 * iBytes, pVec1BitB, i);
      i := i + 16;
    }
    if residuals {
      while i < iBytes
        invariant uLimit16 <= i <= iBytes
        invariant Counted(pVec4Bit, pVec1BitA, iBytes, i, a0, a1, a2, a3) &&
                  Counted(pVec4Bit, pVec1BitB, iBytes, i, b0, b1, b2, b3)
      {
        CountedByte(pVec4Bit, pVec1BitA, iBytes, i, a0, a1, a2, a3);
        CountedByte(pVec4Bit, pVec1BitB, iBytes, i, b0, b1, b2, b3);
        a0, b0 := a0 + PopCountByte(pVec4Bit, 0, pVec1BitA, i), b0 + PopCountByte(pVec4Bit, 0, pVec1BitB, i);
        a1, b1 := a1 + PopCountByte(pVec4Bit, iBytes, pVec1BitA, i), b1 + PopCountByte(pVec4Bit, iBytes, pVec1BitB, i);
        a2, b2 := a2 + PopCountByte(pVec4Bit, 2 * iBytes, pVec1BitA, i),
            b2 + PopCountByte(pVec4Bit, 2 * iBytes, pVec1BitB, i);
        a3, b3 := a3 + PopCountByte(pVec4Bit, 3 * iBytes, pVec1BitA, i),
            b3 + PopCountByte(pVec4Bit, 3 * iBytes, pVec1BitB, i);
        i := i + 1;
      }
    }
    CountedDot(pVec4Bit, pVec1BitA, iBytes, i, a0, a1, a2, a3);
    CountedDot(pVec4Bit, pVec1BitB, iBytes, i, b0, b1, b2, b3);
    iResultA := a0 + Shl(a1, 1) + Shl(a2, 2) + Shl(a3, 3);
    iResultB := b0 + Shl(b1, 1) + Shl(b2, 2) + Shl(b3, 3);
  }

  // ---------------------------------------------------------------- what the planes mean

  /** The value of a 4-bit coordinate, from its bits. */
  function Nibble(x: Byte): nat {
    Flag(Bit(x, 0)) + 2 * Flag(Bit(x, 1)) + 4 * Flag(Bit(x, 2)) + 8 * Flag(Bit(x, 3))
  }

  /** For the bytes quantization produces, the nibble is the byte itself. */
  lemma {:induction false} NibbleIs(x: Byte)
    requires x < 16
    ensures Nibble(x) == x as nat
  {
    if x == 0 {} else if x == 1 {} else if x == 2 {} else if x == 3 {} else if x == 4 {} else if x == 5 {}
    else if x == 6 {} else if x == 7 {} else if x == 8 {} else if x == 9 {} else if x == 10 {} else if x == 11 {}
    else if x == 12 {} else if x == 13 {} else if x == 14 {} else {}
  }

  /** The sum of the coordinates whose sign bit is set. */
  function Selected(q: seq<Byte>, v: seq<real>, m: nat): nat
    requires m <= |q|
  {
    if m == 0 then 0 else Selected(q, v, m - 1) + (if Positive(v, m - 1) then Nibble(q[m - 1]) else 0)
  }

  /** What coordinate 7 - k of a byte adds. */
  function Column(x0: Byte, x1: Byte, x2: Byte, x3: Byte, y: Byte, k: nat): nat
    requires k < 8
  {
    Flag(Bit(x0, k) && Bit(y, k)) + 2 * Flag(Bit(x1, k) && Bit(y, k)) + 4 * Flag(Bit(x2, k) && Bit(y, k)) +
        8 * Flag(Bit(x3, k) && Bit(y, k))
  }

  lemma {:induction false} AndBit(x: Byte, y: Byte, k: nat)
    requires k < 8
    ensures Bit(And8(x, y), k) <==> Bit(x, k) && Bit(y, k)
  {
  }

  function ColumnsTo(x0: Byte, x1: Byte, x2: Byte, x3: Byte, y: Byte, k: nat): nat
    requires k <= 8
  {
    if k == 0 then 0 else ColumnsTo(x0, x1, x2, x3, y, k - 1) + Column(x0, x1, x2, x3, y, k - 1)
  }

  /** Counting a byte of all planes adds up column by column. */
  lemma {:induction false} ByteColumns(x0: Byte, x1: Byte, x2: Byte, x3: Byte, y: Byte, k: nat)
    requires k <= 8
    ensures CountTo(And8(x0, y), k) + 2 * CountTo(And8(x1, y), k) + 4 * CountTo(And8(x2, y), k) +
            8 * CountTo(And8(x3, y), k) == ColumnsTo(x0, x1, x2, x3, y, k)
    decreases k
  {
    hide Bit, And8, Flag, CountTo;
    CountAnd(x0, y, k);
    CountAnd(x1, y, k);
    CountAnd(x2, y, k);
    CountAnd(x3, y, k);
    if k > 0 {
      ByteColumns(x0, x1, x2, x3, y, k - 1);
    }
  }

  lemma {:induction false} CountAnd(x: Byte, y: Byte, k: nat)
    requires k <= 8
    ensures CountTo(And8(x, y), k) ==
            if k == 0 then 0 else CountTo(And8(x, y), k - 1) + Flag(Bit(x, k - 1) && Bit(y, k - 1))
  {
    hide Bit, And8, Flag;
    if k > 0 {
      AndBit(x, y, k - 1);
    }
  }

  lemma {:induction false} ColumnValue(x0: Byte, x1: Byte, x2: Byte, x3: Byte, y: Byte, k: nat, q: Byte)
    requires k < 8 && (Bit(x0, k) <==> Bit(q, 0)) && (Bit(x1, k) <==> Bit(q, 1)) && (Bit(x2, k) <==> Bit(q, 2)) &&
             (Bit(x3, k) <==> Bit(q, 3))
    ensures Column(x0, x1, x2, x3, y, k) == if Bit(y, k) then Nibble(q) else 0
  {
    hide Bit;
  }

  /** Byte m of the planes. */
  function PlaneAt(t: seq<Byte>, d8: nat, p: nat, m: nat): Byte
    requires p < 4 && m < d8 && 4 * d8 <= |t|
  {
    t[At(d8, p, m)]
  }

  lemma {:induction false} PlaneDotByte(t: seq<Byte>, b: seq<Byte>, n: nat, m: nat)
    requires m < n <= |b| && 4 * n <= |t|
    ensures PlaneDot(t, b, n, m + 1) == PlaneDot(t, b, n, m) + Count(And8(PlaneAt(t, n, 0, m), b[m])) +
            2 * Count(And8(PlaneAt(t, n, 1, m), b[m])) +
                                        4 * Count(And8(PlaneAt(t, n, 2, m), b[m])) +
                                            8 * Count(And8(PlaneAt(t, n, 3, m), b[m]))
  {
    hide Common, Count, And8;
    CommonMore(t, 0, b, m);
    CommonMore(t, n, b, m);
    CommonMore(t, 2 * n, b, m);
    CommonMore(t, 3 * n, b, m);
  }

  /** Column k of byte m is the coordinate 8 * m + 7 - k if its sign bit is set. */
  lemma {:induction false} ColumnIs(q: seq<Byte>, v: seq<real>, dim: nat, t: seq<Byte>, b: seq<Byte>, m: nat, k: nat)
    requires dim % 8 == 0 && dim <= |q| && dim / 2 <= |t| && |b| == dim / 8 && m < dim / 8 && k < 8
    requires IsTransposed(q, dim, t) && IsPacked(v, b)
    ensures var d8, c := dim / 8, 8 * m + 7 - k;
            Column(PlaneAt(t, d8, 0, m), PlaneAt(t, d8, 1, m), PlaneAt(t, d8, 2, m), PlaneAt(t, d8, 3, m), b[m],
                k) == if Positive(v, c) then Nibble(q[c]) else 0
  {
    var d8, c := dim / 8, 8 * m + 7 - k;
    assert c / 8 == m && 7 - c % 8 == k;
    assert Bit(b[c / 8], 7 - c % 8) <==> Positive(v, c);
    hide IsPacked;
    PlaneColumn(q, dim, t, 0, m, k);
    PlaneColumn(q, dim, t, 1, m, k);
    PlaneColumn(q, dim, t, 2, m, k);
    PlaneColumn(q, dim, t, 3, m, k);
    hide *;
    ColumnValue(PlaneAt(t, d8, 0, m), PlaneAt(t, d8, 1, m), PlaneAt(t, d8, 2, m), PlaneAt(t, d8, 3, m), b[m], k, q[c]);
  }

  lemma {:induction false} PlaneColumn(q: seq<Byte>, dim: nat, t: seq<Byte>, p: nat, m: nat, k: nat)
    requires dim % 8 == 0 && dim <= |q| && dim / 2 <= |t| && m < dim / 8 && k < 8 && p < 4 && IsTransposed(q, dim, t)
    ensures Bit(PlaneAt(t, dim / 8, p, m), k) <==> Bit(q[8 * m + 7 - k], p)
  {
    hide Bit;
    assert PlaneByte(q, m, p, t[At(dim / 8, p, m)]);
  }

  /** The last k of the eight coordinates of byte m. */
  lemma {:induction false} SelectedColumns(q: seq<Byte>, v: seq<real>, dim: nat, t: seq<Byte>, b: seq<Byte>, m: nat,
                                           k: nat)
    requires dim % 8 == 0 && dim <= |q| && dim / 2 <= |t| && |b| == dim / 8 && m < dim / 8 && k <= 8
    requires IsTransposed(q, dim, t) && IsPacked(v, b)
    ensures var d8 := dim / 8;
            Selected(q, v, 8 * m + 8) == Selected(q, v, 8 * m + 8 - k) +
                ColumnsTo(PlaneAt(t, d8, 0, m), PlaneAt(t, d8, 1, m), PlaneAt(t, d8, 2, m), PlaneAt(t, d8, 3, m), b[m],
                k)
    decreases k
  {
    hide IsTransposed, IsPacked, PlaneAt, Nibble, Positive, Column;
    if k > 0 {
      SelectedColumns(q, v, dim, t, b, m, k - 1);
      ColumnIs(q, v, dim, t, b, m, k - 1);
    }
  }

  lemma {:induction false} DotSoFar(q: seq<Byte>, v: seq<real>, dim: nat, t: seq<Byte>, b: seq<Byte>, m: nat)
    requires dim % 8 == 0 && dim <= |q| && dim / 2 <= |t| && |b| == dim / 8 && m <= dim / 8
    requires IsTransposed(q, dim, t) && IsPacked(v, b)
    ensures PlaneDot(t, b, dim / 8, m) == Selected(q, v, 8 * m)
    decreases m
  {
    hide *;
    if m == 0 {
      NothingYet(q, v, t, b, dim / 8);
    } else {
      DotSoFar(q, v, dim, t, b, m - 1);
      PlaneDotColumns(t, b, dim / 8, m - 1);
      SelectedColumns(q, v, dim, t, b, m - 1, 8);
    }
  }

  lemma {:induction false} NothingYet(q: seq<Byte>, v: seq<real>, t: seq<Byte>, b: seq<Byte>, n: nat)
    requires n <= |b| && 4 * n <= |t|
    ensures PlaneDot(t, b, n, 0) == 0 && Selected(q, v, 0) == 0
  {
  }

  lemma {:induction false} PlaneDotColumns(t: seq<Byte>, b: seq<Byte>, n: nat, m: nat)
    requires m < n <= |b| && 4 * n <= |t|
    ensures PlaneDot(t, b, n, m + 1) == PlaneDot(t, b, n, m) +
            ColumnsTo(PlaneAt(t, n, 0, m), PlaneAt(t, n, 1, m), PlaneAt(t, n, 2, m), PlaneAt(t, n, 3, m), b[m], 8)
  {
    hide *;
    PlaneDotByte(t, b, n, m);
    var x0, x1, x2, x3 := PlaneAt(t, n, 0, m), PlaneAt(t, n, 1, m), PlaneAt(t, n, 2, m), PlaneAt(t, n, 3, m);
    CountIs(And8(x0, b[m]));
    CountIs(And8(x1, b[m]));
    CountIs(And8(x2, b[m]));
    CountIs(And8(x3, b[m]));
    ByteColumns(x0, x1, x2, x3, b[m], 8);
  }

  /**
    The dot product over transposed and packed vectors is the sum of the 4-bit coordinates whose sign bit is
    set, for every dimension that is a multiple of 8.
   */
  lemma {:induction false} DotExact(q: seq<Byte>, v: seq<real>, dim: nat, t: seq<Byte>, b: seq<Byte>)
    requires dim % 8 == 0 && dim <= |q| && dim / 2 <= |t| && |b| == dim / 8
    requires IsTransposed(q, dim, t) && IsPacked(v, b)
    ensures PlaneDot(t, b, dim / 8, dim / 8) == Selected(q, v, dim)
  {
    hide *;
    DotSoFar(q, v, dim, t, b, dim / 8);
  }

  /** Without the residual loop the result is right exactly when no bit behind the last whole 16 bytes is in common. */
  lemma {:induction false} WithoutResidualsIff(planes: seq<Byte>, bits: seq<Byte>, n: nat)
    requires n <= |bits| && 4 * n <= |planes|
    ensures PlaneDot(planes, bits, n, Looked(false, n)) == PlaneDot(planes, bits, n, n) <==>
            forall p, m :: 0 <= p < 4 && Looked(false, n) <= m < n ==> And8(PlaneAt(planes, n, p, m), bits[m]) == 0
  {
    hide PlaneDot, PlaneAt, And8;
    RestCounts(planes, bits, n, Looked(false, n), n);
  }

  lemma {:induction false} RestCounts(planes: seq<Byte>, bits: seq<Byte>, n: nat, a: nat, b: nat)
    requires a <= b <= n <= |bits| && 4 * n <= |planes|
    ensures PlaneDot(planes, bits, n, a) <= PlaneDot(planes, bits, n, b)
    ensures PlaneDot(planes, bits, n, a) == PlaneDot(planes, bits, n, b) <==>
            forall p, m :: 0 <= p < 4 && a <= m < b ==> And8(PlaneAt(planes, n, p, m), bits[m]) == 0
    decreases b
  {
    hide PlaneDot, PlaneAt, And8, Count;
    if a < b {
      var m := b - 1;
      RestCounts(planes, bits, n, a, m);
      PlaneDotByte(planes, bits, n, m);
      CountZero(And8(PlaneAt(planes, n, 0, m), bits[m]));
      CountZero(And8(PlaneAt(planes, n, 1, m), bits[m]));
      CountZero(And8(PlaneAt(planes, n, 2, m), bits[m]));
      CountZero(And8(PlaneAt(planes, n, 3, m), bits[m]));
    }
  }

  lemma {:induction false} CountToZero(x: Byte, k: nat)
    requires k <= 8
    ensures CountTo(x, k) == 0 <==> forall j :: 0 <= j < k ==> !Bit(x, j)
    decreases k
  {
    hide Bit;
    if k > 0 {
      CountToZero(x, k - 1);
    }
  }

  lemma {:induction false} CountZero(x: Byte)
    ensures Count(x) == 0 <==> x == 0
  {
    hide *;
    CountIs(x);
    CountToZero(x, 8);
    forall j | 0 <= j < 8 ensures !Bit(0, j) {
      NoBits(j);
    }
    if forall j :: 0 <= j < 8 ==> !Bit(x, j) {
      SameBits(x, 0);
    }
  }
}
