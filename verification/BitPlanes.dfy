/**
  The bit planes of quantized vectors (knn/quantizer.cpp): one bit per coordinate, packed eight to a byte with
  the first coordinate in the top bit, and four bits per coordinate, stored as four such planes.
 */
module BitPlanes {

  type Byte = bv8

  /** 1 << k. */
  function Mask(k: nat): Byte
    requires k < 8
  {
    match k
    case 0 => 1
    case 1 => 2
    case 2 => 4
    case 3 => 8
    case 4 => 16
    case 5 => 32
    case 6 => 64
    case 7 => 128
  }

  predicate Bit(x: Byte, k: nat)
    requires k < 8
  {
    x & Mask(k) != 0
  }

  /** The byte x >> k. */
  function ShiftedDown(x: Byte, k: nat): Byte
    requires k < 8
  {
    match k
    case 0 => x
    case 1 => x >> 1
    case 2 => x >> 2
    case 3 => x >> 3
    case 4 => x >> 4
    case 5 => x >> 5
    case 6 => x >> 6
    case 7 => x >> 7
  }

  /** The byte x << k. */
  function ShiftedUp(x: Byte, k: nat): Byte
    requires k < 8
  {
    match k
    case 0 => x
    case 1 => x << 1
    case 2 => x << 2
    case 3 => x << 3
    case 4 => x << 4
    case 5 => x << 5
    case 6 => x << 6
    case 7 => x << 7
  }

  lemma {:induction false} SetBit(x: Byte, k: nat, j: nat)
    requires k < 8 && j < 8
    ensures Bit(x | Mask(k), j) == (Bit(x, j) || j == k)
  {
  }

  lemma {:induction false} NoBits(k: nat)
    requires k < 8
    ensures !Bit(0, k)
  {
  }

  // ---------------------------------------------------------------- words of eight bytes

  /** A 64-bit word in memory, lowest byte first. */
  function Word(b: seq<Byte>): bv64
    requires |b| == 8
  {
    (b[0] as bv64) | (b[1] as bv64 << 8) | (b[2] as bv64 << 16) | (b[3] as bv64 << 24) |
    (b[4] as bv64 << 32) | (b[5] as bv64 << 40) | (b[6] as bv64 << 48) | (b[7] as bv64 << 56)
  }

  function ByteOf(w: bv64, m: nat): Byte
    requires m < 8
  {
    match m
    case 0 => (w & 0xFF) as bv8
    case 1 => ((w >> 8) & 0xFF) as bv8
    case 2 => ((w >> 16) & 0xFF) as bv8
    case 3 => ((w >> 24) & 0xFF) as bv8
    case 4 => ((w >> 32) & 0xFF) as bv8
    case 5 => ((w >> 40) & 0xFF) as bv8
    case 6 => ((w >> 48) & 0xFF) as bv8
    case 7 => ((w >> 56) & 0xFF) as bv8
  }

  lemma {:induction false} WordOfBytes(w: bv64, b: seq<Byte>)
    requires |b| == 8 && forall m :: 0 <= m < 8 ==> b[m] == ByteOf(w, m)
    ensures Word(b) == w
  {
    assert b[0] == ByteOf(w, 0) && b[1] == ByteOf(w, 1) && b[2] == ByteOf(w, 2) && b[3] == ByteOf(w, 3);
    assert b[4] == ByteOf(w, 4) && b[5] == ByteOf(w, 5) && b[6] == ByteOf(w, 6) && b[7] == ByteOf(w, 7);
  }

  lemma {:induction false} BytesOfWord(b: seq<Byte>, m: nat)
    requires |b| == 8 && m < 8
    ensures ByteOf(Word(b), m) == b[m]
  {
  }

  // ---------------------------------------------------------------- spreading nibbles

  /** Swaps the nibbles of every byte; the high nibble of the byte below gets mixed in as well. */
  function SpreadWord(w: bv64): bv64 {
    (w << 4) | ((w >> 4) & 0x0F0F_0F0F_0F0F_0F0F)
  }

  function ShiftedTimes(w: bv64, j: nat): bv64 {
    if j == 0 then w else ShiftedTimes(w, j - 1) << 1
  }

  lemma {:induction false} BytesMoveUp(w: bv64, m: nat)
    requires m < 8
    ensures ByteOf(w << 1, m) & 0xFE == ByteOf(w, m) << 1
  {
    match m {
      case 0 =>
      case 1 => MovedUp(w >> 8, (w << 1) >> 8);
      case 2 => MovedUp(w >> 16, (w << 1) >> 16);
      case 3 => MovedUp(w >> 24, (w << 1) >> 24);
      case 4 => MovedUp(w >> 32, (w << 1) >> 32);
      case 5 => MovedUp(w >> 40, (w << 1) >> 40);
      case 6 => MovedUp(w >> 48, (w << 1) >> 48);
      case 7 => MovedUp(w >> 56, (w << 1) >> 56);
    }
  }

  lemma {:induction false} MovedUp(low: bv64, up: bv64)
    requires up & 0xFE == (low << 1) & 0xFE
    ensures ((up & 0xFF) as bv8) & 0xFE == ((low & 0xFF) as bv8) << 1
  {
  }

  lemma {:induction false} NibblesMoveUp(w: bv64, m: nat)
    requires m < 8
    ensures ByteOf(SpreadWord(w), m) & 0xF0 == ByteOf(w, m) << 4
  {
    var s := SpreadWord(w);
    match m {
      case 0 => MovedFour(w, s);
      case 1 => MovedFour(w >> 8, s >> 8);
      case 2 => MovedFour(w >> 16, s >> 16);
      case 3 => MovedFour(w >> 24, s >> 24);
      case 4 => MovedFour(w >> 32, s >> 32);
      case 5 => MovedFour(w >> 40, s >> 40);
      case 6 => MovedFour(w >> 48, s >> 48);
      case 7 => MovedFour(w >> 56, s >> 56);
    }
  }

  lemma {:induction false} MovedFour(low: bv64, up: bv64)
    requires up & 0xF0 == (low << 4) & 0xF0
    ensures ((up & 0xFF) as bv8) & 0xF0 == ((low & 0xFF) as bv8) << 4
  {
  }

  lemma {:induction false} BitAbove(x: Byte, y: Byte, k: nat)
    requires k < 7 && y & 0xFE == x << 1
    ensures Bit(y, k + 1) == Bit(x, k)
  {
  }

  lemma {:induction false} BitFourAbove(x: Byte, y: Byte, k: nat)
    requires k < 4 && y & 0xF0 == x << 4
    ensures Bit(y, k + 4) == Bit(x, k)
  {
  }

  /** Shifting a word moves a bit up inside its byte. */
  lemma {:induction false} BitMovesUp(w: bv64, m: nat, k: nat)
    requires m < 8 && k < 7
    ensures Bit(ByteOf(w << 1, m), k + 1) == Bit(ByteOf(w, m), k)
  {
    hide *;
    BytesMoveUp(w, m);
    BitAbove(ByteOf(w, m), ByteOf(w << 1, m), k);
  }

  /** Spreading moves the low nibble of a byte to the top. */
  lemma {:induction false} SpreadBit(w: bv64, m: nat, k: nat)
    requires m < 8 && k < 4
    ensures Bit(ByteOf(SpreadWord(w), m), k + 4) == Bit(ByteOf(w, m), k)
  {
    hide *;
    NibblesMoveUp(w, m);
    BitFourAbove(ByteOf(w, m), ByteOf(SpreadWord(w), m), k);
  }

  lemma {:induction false} ShiftedBit(w: bv64, j: nat, m: nat)
    requires j < 4 && m < 8
    ensures Bit(ByteOf(ShiftedTimes(w, j), m), 7) == Bit(ByteOf(w, m), 7 - j)
    decreases j
  {
    hide ByteOf, Bit;
    if j > 0 {
      ShiftedIn(w, j);
      ShiftedBit(w << 1, j - 1, m);
      BitMovesUp(w, m, 7 - j);
    }
  }

  lemma {:induction false} ShiftedIn(w: bv64, j: nat)
    requires j > 0
    ensures ShiftedTimes(w, j) == ShiftedTimes(w << 1, j - 1)
    decreases j
  {
    if j > 1 {
      ShiftedIn(w, j - 1);
    }
  }

  /** After j shifts the top bit of every byte of a spread word is bit 3 - j of the byte it came from. */
  lemma {:induction false} TopBitOfSpread(w: bv64, j: nat, m: nat)
    requires j < 4 && m < 8
    ensures Bit(ByteOf(ShiftedTimes(SpreadWord(w), j), m), 7) == Bit(ByteOf(w, m), 3 - j)
  {
    hide *;
    ShiftedBit(SpreadWord(w), j, m);
    SpreadBit(w, m, 3 - j);
  }

  // ---------------------------------------------------------------- packing one bit per coordinate

  /** A missing coordinate counts as negative. */
  predicate Positive(v: seq<real>, i: nat) {
    i < |v| && v[i] > 0.0
  }

  /** Byte i / 8 holds the signs of coordinates 8 * (i / 8) on, the first in the top bit. */
  ghost predicate IsPacked(v: seq<real>, packed: seq<Byte>) {
    forall i :: 0 <= i < 8 * |packed| ==> (Bit(packed[i / 8], 7 - i % 8) <==> Positive(v, i))
  }

  /** The lowest n bits of a byte hold the signs of the last n of eight coordinates. */
  ghost predicate PackedFrom(v: seq<real>, i: nat, x: Byte, n: nat) {
    forall k :: 0 <= k < 8 ==> (Bit(x, k) <==> k < n && Positive(v, i + 7 - k))
  }

  method Pack(dVector: seq<real>, dPacked: array<Byte>)
    requires dPacked.Length >= (|dVector| + 7) / 8
    modifies dPacked
    ensures IsPacked(dVector, dPacked[..(|dVector| + 7) / 8])
    ensures dPacked[(|dVector| + 7) / 8..] == old(dPacked[(|dVector| + 7) / 8..])
  {
    hide Bit, IsPacked, PackedFrom, Mask;
    NothingPacked(dVector);
    var i, g := 0, 0;
    while i < |dVector|
      invariant i == 8 * g && 0 <= g <= (|dVector| + 7) / 8
      invariant IsPacked(dVector, dPacked[..g])
      invariant forall k :: (|dVector| + 7) / 8 <= k < dPacked.Length ==> dPacked[k] == old(dPacked[k])
    {
      ghost var before := dPacked[..];
      var uByte: Byte := 0;
      var iOff := 0;
      var j := 7;
      while j >= 0
        invariant -1 <= j <= 7 && iOff == 7 - j
        invariant PackedFrom(dVector, i, uByte, iOff) && dPacked[..] == before
      {
        NextSign(dVector, i, uByte, iOff);
        if i + j < |dVector| && dVector[i + j] > 0.0 {
          uByte := uByte | Mask(iOff);
        }
        iOff := iOff + 1;
        j := j - 1;
      }
      ghost var was := before[..g];
      assert was == dPacked[..g];
      dPacked[g] := uByte;
      OneMorePacked(dVector, was, uByte);
      assert dPacked[..g + 1] == was + [uByte];
      i, g := i + 8, g + 1;
    }
  }

  lemma {:induction false} NothingPacked(v: seq<real>)
    ensures IsPacked(v, []) && forall i :: PackedFrom(v, i, 0, 0)
  {
  }

  lemma {:induction false} NextSign(v: seq<real>, i: nat, x: Byte, n: nat)
    requires n < 8 && PackedFrom(v, i, x, n)
    ensures PackedFrom(v, i, if Positive(v, i + 7 - n) then x | Mask(n) else x, n + 1)
  {
    hide Bit, Mask, Positive;
    SetBits(x, n);
    var y := if Positive(v, i + 7 - n) then x | Mask(n) else x;
    forall k | 0 <= k < 8 ensures Bit(y, k) <==> k < n + 1 && Positive(v, i + 7 - k) {
      assert Bit(x, k) <==> k < n && Positive(v, i + 7 - k);
    }
  }

  lemma {:induction false} SetBits(x: Byte, k: nat)
    requires k < 8
    ensures forall j :: 0 <= j < 8 ==> (Bit(x | Mask(k), j) <==> Bit(x, j) || j == k)
  {
    hide *;
    forall j | 0 <= j < 8 ensures Bit(x | Mask(k), j) <==> Bit(x, j) || j == k {
      SetBit(x, k, j);
    }
  }

  lemma {:induction false} OneMorePacked(v: seq<real>, was: seq<Byte>, x: Byte)
    requires IsPacked(v, was) && PackedFrom(v, 8 * |was|, x, 8)
    ensures IsPacked(v, was + [x])
  {
    hide Bit, Positive;
    var now := was + [x];
    forall i | 0 <= i < 8 * |now| ensures Bit(now[i / 8], 7 - i % 8) <==> Positive(v, i) {
      if i >= 8 * |was| {
        assert i / 8 == |was| && i == 8 * |was| + 7 - (7 - i % 8);
      } else {
        assert i / 8 < |was|;
      }
    }
  }

  // ---------------------------------------------------------------- packing the top bits of bytes

  /** The byte made of eight top bits, behind what was in the byte before. */
  ghost predicate TopBits(tops: seq<Byte>, was: Byte, now: Byte)
    requires |tops| == 8
  {
    && (Bit(now, 7) <==> Bit(tops[0], 7) || Bit(was, 0))
    && forall k :: 1 <= k < 8 ==> (Bit(now, 7 - k) <==> Bit(tops[k], 7))
  }

  /** What a byte holds after k of its eight bits: nothing of the eighth has been shifted away yet. */
  ghost predicate TopBitsSoFar(tops: seq<Byte>, was: Byte, now: Byte, k: nat)
    requires |tops| == 8 && k < 8
  {
    && (k == 0 ==> now == was)
    && (k > 0 ==> !Bit(now, 0) && (Bit(now, k) <==> Bit(tops[0], 7) || Bit(was, 0)) && forall m :: 1 <= m < k ==>
            (Bit(now, k - m) <==> Bit(tops[m], 7)))
  }

  function WithTop(top: Byte, x: Byte): Byte {
    if top & 128 != 0 then x | 1 else x
  }

  lemma {:induction false} WithTopBit(top: Byte, x: Byte, j: nat)
    requires j < 8
    ensures Bit(WithTop(top, x), j) <==> Bit(x, j) || (j == 0 && Bit(top, 7))
  {
  }

  lemma {:induction false} DoubledBit(x: Byte, j: nat)
    requires j < 8
    ensures Bit(x << 1, j) <==> j > 0 && Bit(x, j - 1)
  {
  }

  lemma {:induction false} TopStart()
    ensures forall tops: seq<Byte>, x :: |tops| == 8 ==> TopBitsSoFar(tops, x, x, 0)
  {
  }

  lemma {:induction false} NextTop(tops: seq<Byte>, was: Byte, x: Byte, k: nat)
    requires |tops| == 8 && k < 7 && TopBitsSoFar(tops, was, x, k)
    ensures TopBitsSoFar(tops, was, WithTop(tops[k], x) << 1, k + 1)
  {
    hide Bit, WithTop;
    var y := WithTop(tops[k], x);
    DoubledBit(y, 0);
    DoubledBit(y, k + 1);
    WithTopBit(tops[k], x, k);
    forall m | 1 <= m < k + 1 ensures Bit(y << 1, k + 1 - m) <==> Bit(tops[m], 7) {
      DoubledBit(y, k + 1 - m);
      WithTopBit(tops[k], x, k - m);
    }
  }

  lemma {:induction false} LastTop(tops: seq<Byte>, was: Byte, x: Byte)
    requires |tops| == 8 && TopBitsSoFar(tops, was, x, 7)
    ensures TopBits(tops, was, WithTop(tops[7], x))
  {
    hide Bit, WithTop;
    WithTopBit(tops[7], x, 7);
    forall m | 1 <= m < 8 ensures Bit(WithTop(tops[7], x), 7 - m) <==> Bit(tops[m], 7) {
      WithTopBit(tops[7], x, 7 - m);
    }
  }

  function Eight(d: seq<Byte>, g: nat): (r: seq<Byte>)
    requires 8 * g + 8 <= |d|
    ensures |r| == 8
  {
    d[8 * g..8 * g + 8]
  }

  lemma {:induction false} InEight(d: seq<Byte>, i: nat)
    requires i < |d| && |d| % 8 == 0
    ensures 8 * (i / 8) + 8 <= |d| && Eight(d, i / 8)[i % 8] == d[i]
  {
  }

  /** The output bytes when i input bytes have been packed. */
  ghost predicate PackState(d: seq<Byte>, was: seq<Byte>, now: seq<Byte>, i: nat)
    requires |d| % 8 == 0 && i <= |d| && |d| / 8 <= |was| == |now|
  {
    && (forall g :: 0 <= g < i / 8 ==> TopBits(Eight(d, g), was[g], now[g]))
    && (i < |d| ==> TopBitsSoFar(Eight(d, i / 8), was[i / 8], now[i / 8], i % 8))
    && (forall g :: i / 8 < g < |now| ==> now[g] == was[g])
    && (i == |d| && i / 8 < |now| ==> now[i / 8] == was[i / 8])
  }

  lemma {:induction false} PackStep(d: seq<Byte>, was: seq<Byte>, now: seq<Byte>, i: nat)
    requires |d| % 8 == 0 && i < |d| && |d| / 8 <= |was| == |now| && PackState(d, was, now, i)
    ensures var x := WithTop(d[i], now[i / 8]); PackState(d, was, now[i / 8 := if i % 8 == 7 then x else x << 1], i + 1)
  {
    hide Bit, TopBits, TopBitsSoFar, Eight, WithTop;
    InEight(d, i);
    var out := i / 8;
    if i % 8 == 7 {
      assert (i + 1) / 8 == out + 1 && (i + 1) % 8 == 0;
      LastTop(Eight(d, out), was[out], now[out]);
      TopStart();
    } else {
      assert (i + 1) / 8 == out && (i + 1) % 8 == i % 8 + 1;
      NextTop(Eight(d, out), was[out], now[out], i % 8);
    }
  }

  lemma {:induction false} PackStart(d: seq<Byte>, was: seq<Byte>)
    requires |d| % 8 == 0 && |d| / 8 <= |was|
    ensures PackState(d, was, was, 0)
  {
    hide Bit, Eight;
  }

  lemma {:induction false} PackEnd(d: seq<Byte>, was: seq<Byte>, now: seq<Byte>)
    requires |d| % 8 == 0 && |d| / 8 <= |was| == |now| && PackState(d, was, now, |d|)
    ensures forall g :: 0 <= g < |d| / 8 ==> TopBits(Eight(d, g), was[g], now[g])
    ensures forall g :: |d| / 8 <= g < |now| ==> now[g] == was[g]
  {
    hide TopBits, Eight;
  }

  /** PackHighBitsToByte: the top bits of eight bytes each, shifted into one byte. */
  method PackHighBitsToByte(dIn: array<Byte>, pOut: array<Byte>)
    requires dIn != pOut && dIn.Length % 8 == 0 && pOut.Length >= dIn.Length / 8
    modifies pOut
    ensures forall g :: 0 <= g < dIn.Length / 8 ==> TopBits(Eight(dIn[..], g), old(pOut[g]), pOut[g])
    ensures forall g :: dIn.Length / 8 <= g < pOut.Length ==> pOut[g] == old(pOut[g])
  {
    hide *;
    ghost var d, was := dIn[..], pOut[..];
    PackStart(d, was);
    var i, out := 0, 0;
    while i < dIn.Length
      invariant 0 <= i <= dIn.Length && out == i / 8
      invariant PackState(d, was, pOut[..], i)
    {
      ghost var now := pOut[..];
      TopAdded(dIn[i], pOut[out]);
      PackStep(d, was, now, i);
      if dIn[i] & 128 != 0 {
        pOut[out] := pOut[out] | 1;
      }
      if i % 8 == 7 {
        assert pOut[..] == now[i / 8 := WithTop(dIn[i], now[i / 8])];
        out := out + 1;
      } else {
        pOut[out] := pOut[out] << 1;
        assert pOut[..] == now[i / 8 := WithTop(dIn[i], now[i / 8]) << 1];
      }
      i := i + 1;
    }
    PackEnd(d, was, pOut[..]);
  }

  lemma {:induction false} TopAdded(top: Byte, x: Byte)
    ensures WithTop(top, x) == if top & 128 != 0 then x | 1 else x
  {
  }
}
