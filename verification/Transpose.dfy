/**
  Turning four-bit coordinates into four bit planes (knn/quantizer.cpp, BinaryQuantizer_c::Transpose and
  TransposeAVX): groups of 32 coordinates by whole words, the rest bit by bit.
 */
module Transpose {
  import opened BitPlanes
  import ByteCodec

  /** Where byte g of plane p is, with d8 bytes to a plane: p * d8 + g. */
  function At(d8: nat, p: nat, g: nat): nat
    requires p < 4
  {
    match p
    case 0 => g
    case 1 => d8 + g
    case 2 => 2 * d8 + g
    case 3 => 3 * d8 + g
  }

  /** Byte x holds bit p of coordinates 8 * g on, the first in the top bit. */
  ghost predicate PlaneByte(q: seq<Byte>, g: nat, p: nat, x: Byte)
    requires p < 4 && 8 * g + 8 <= |q|
  {
    forall b :: 0 <= b < 8 ==> (Bit(x, b) <==> Bit(q[8 * g + 7 - b], p))
  }

  /** Every byte of the four planes is right for the groups before n, and for four more groups in some of the planes. */
  ghost predicate Planes(q: seq<Byte>, d8: nat, t: seq<Byte>, n: nat, done: set<nat>)
    requires 8 * d8 <= |q| && 4 * d8 <= |t|
  {
    forall p, g :: 0 <= p < 4 && 0 <= g < d8 && (g < n || (g < n + 4 && p in done)) ==>
            PlaneByte(q, g, p, t[At(d8, p, g)])
  }

  ghost predicate IsTransposed(q: seq<Byte>, dim: nat, t: seq<Byte>)
    requires dim <= |q| && dim / 8 * 4 <= |t|
  {
    Planes(q, dim / 8, t, dim / 8, {})
  }

  /** Nothing is set in the planes from group n on. */
  ghost predicate Clear(d8: nat, t: seq<Byte>, n: nat)
    requires 4 * d8 <= |t|
  {
    forall p, g :: 0 <= p < 4 && n <= g < d8 ==> t[At(d8, p, g)] == 0
  }

  lemma {:induction false} SameBits(x: Byte, y: Byte)
    requires forall k :: 0 <= k < 8 ==> (Bit(x, k) <==> Bit(y, k))
    ensures x == y
  {
    assert forall k :: 0 <= k < 8 ==> (Bit(x, k) <==> Bit(y, k));
    assert Bit(x, 0) <==> Bit(y, 0);
    assert Bit(x, 1) <==> Bit(y, 1);
    assert Bit(x, 2) <==> Bit(y, 2);
    assert Bit(x, 3) <==> Bit(y, 3);
    assert Bit(x, 4) <==> Bit(y, 4);
    assert Bit(x, 5) <==> Bit(y, 5);
    assert Bit(x, 6) <==> Bit(y, 6);
    assert Bit(x, 7) <==> Bit(y, 7);
  }

  /** There is only one way to be transposed: any two methods that transpose write the same bytes. */
  lemma {:induction false} TransposedOnce(q: seq<Byte>, dim: nat, t: seq<Byte>, u: seq<Byte>)
    requires dim <= |q| && dim / 8 * 4 <= |t| && dim / 8 * 4 <= |u|
    requires IsTransposed(q, dim, t) && IsTransposed(q, dim, u)
    ensures t[..dim / 8 * 4] == u[..dim / 8 * 4]
  {
    var d8 := dim / 8;
    forall k | 0 <= k < 4 * d8 ensures t[k] == u[k] {
      var p := if k < d8 then 0 else if k < 2 * d8 then 1 else if k < 3 * d8 then 2 else 3;
      var g := k - At(d8, p, 0);
      assert At(d8, p, g) == k;
      assert PlaneByte(q, g, p, t[At(d8, p, g)]) && PlaneByte(q, g, p, u[At(d8, p, g)]);
      hide Bit;
      SameBits(t[k], u[k]);
    }
  }

  // ---------------------------------------------------------------- groups of 32 coordinates

  /** The four words of a group, spread and shifted j times. */
  ghost predicate SpreadIs(spread: seq<Byte>, q32: seq<Byte>, n: nat, j: nat)
    requires |spread| == |q32| == 32 && n <= 4
  {
    forall w :: 0 <= w < n ==> Word(spread[8 * w..8 * w + 8]) == ShiftedTimes(SpreadWord(Word(q32[8 * w..8 * w + 8])),
        j)
  }

  /** Writes a word through a pointer into bytes. */
  method StoreWord(a: array<Byte>, w: nat, x: bv64)
    requires 8 * w + 8 <= a.Length
    modifies a
    ensures Word(a[8 * w..8 * w + 8]) == x
    ensures forall k :: 0 <= k < a.Length && !(8 * w <= k < 8 * w + 8) ==> a[k] == old(a[k])
  {
    hide ByteOf, Word;
    for m := 0 to 8
      invariant forall k :: 0 <= k < m ==> a[8 * w + k] == ByteOf(x, k)
      invariant forall k :: 0 <= k < a.Length && !(8 * w <= k < 8 * w + 8) ==> a[k] == old(a[k])
    {
      a[8 * w + m] := ByteOf(x, m);
    }
    WordOfBytes(x, a[8 * w..8 * w + 8]);
  }

  lemma {:induction false} NextWord(was: seq<Byte>, now: seq<Byte>, w: nat)
    requires |was| == |now| == 32 && w < 4
    requires forall k :: 0 <= k < 32 && !(8 * w <= k < 8 * w + 8) ==> now[k] == was[k]
    ensures forall v :: 0 <= v < 4 && v != w ==> now[8 * v..8 * v + 8] == was[8 * v..8 * v + 8]
  {
  }

  /** Loads a group and moves the low nibble of every byte to the top. */
  method SpreadGroup(q: seq<Byte>, i: nat, spread: array<Byte>)
    requires i + 32 <= |q| && spread.Length == 32
    modifies spread
    ensures SpreadIs(spread[..], q[i..i + 32], 4, 0)
  {
    hide Word, SpreadWord, ShiftedTimes;
    var w := 0;
    while w < 4
      invariant 0 <= w <= 4 && SpreadIs(spread[..], q[i..i + 32], w, 0)
    {
      ghost var was := spread[..];
      ByteCodec.SliceOfSlice(q, i, i + 32, 8 * w, 8 * w + 8);
      StoreWord(spread, w, SpreadWord(Word(q[i + 8 * w..i + 8 * w + 8])));
      NextWord(was, spread[..], w);
      NotShifted(SpreadWord(Word(q[i + 8 * w..i + 8 * w + 8])));
      assert spread[..][8 * w..8 * w + 8] == spread[8 * w..8 * w + 8];
      w := w + 1;
    }
  }

  lemma {:induction false} NotShifted(x: bv64)
    ensures ShiftedTimes(x, 0) == x
  {
  }

  lemma {:induction false} ShiftedOnceMore(x: bv64, j: nat)
    ensures ShiftedTimes(x, j + 1) == ShiftedTimes(x, j) << 1
  {
  }

  method ShiftGroup(spread: array<Byte>, ghost q32: seq<Byte>, ghost j: nat)
    requires spread.Length == 32 == |q32| && SpreadIs(spread[..], q32, 4, j)
    modifies spread
    ensures SpreadIs(spread[..], q32, 4, j + 1)
  {
    hide Word, SpreadWord, ShiftedTimes;
    var k := 0;
    while k < 4
      invariant 0 <= k <= 4 && SpreadIs(spread[..], q32, k, j + 1)
      invariant forall w :: k <= w < 4 ==>
                  Word(spread[..][8 * w..8 * w + 8]) == ShiftedTimes(SpreadWord(Word(q32[8 * w..8 * w + 8])), j)
    {
      ghost var was := spread[..];
      assert spread[..][8 * k..8 * k + 8] == spread[8 * k..8 * k + 8];
      ShiftedOnceMore(SpreadWord(Word(q32[8 * k..8 * k + 8])), j);
      StoreWord(spread, k, Word(spread[8 * k..8 * k + 8]) << 1);
      NextWord(was, spread[..], k);
      assert spread[..][8 * k..8 * k + 8] == spread[8 * k..8 * k + 8];
      k := k + 1;
    }
  }

  /** The top bits of eight spread bytes, packed into a zero byte, are a byte of plane 3 - j. */
  lemma {:induction false} PackedPlane(spread: seq<Byte>, q: seq<Byte>, i: nat, j: nat, g: nat, x: Byte)
    requires |spread| == 32 && i % 8 == 0 && i + 32 <= |q| && j < 4 && g < 4
    requires SpreadIs(spread, q[i..i + 32], 4, j) && TopBits(Eight(spread, g), 0, x)
    ensures PlaneByte(q, i / 8 + g, 3 - j, x)
  {
    hide Bit, Word, SpreadWord, ShiftedTimes, ByteOf;
    var s, o := spread[8 * g..8 * g + 8], q[i..i + 32][8 * g..8 * g + 8];
    assert Word(s) == ShiftedTimes(SpreadWord(Word(o)), j);
    NoBits(0);
    forall b | 0 <= b < 8 ensures Bit(x, b) <==> Bit(q[8 * (i / 8 + g) + 7 - b], 3 - j) {
      var m := 7 - b;
      TopBitOfSpread(Word(o), j, m);
      BytesOfWord(s, m);
      BytesOfWord(o, m);
      assert o[m] == q[i + 8 * g + m];
      if m > 0 {
        assert Bit(x, 7 - m) <==> Bit(s[m], 7);
      }
    }
  }

  /** Four bytes of one plane have been written. */
  lemma {:induction false} PlaneWritten(q: seq<Byte>, d8: nat, was: seq<Byte>, now: seq<Byte>, four: seq<Byte>, n: nat,
                                        done: set<nat>, r: nat, z: nat)
    requires 8 * d8 <= |q| && 4 * d8 <= |was| == |now| && r < 4 && n + 4 <= z <= d8
    requires Planes(q, d8, was, n, done) && Clear(d8, was, z)
    requires forall k :: 0 <= k < |was| && !(At(d8, r, n) <= k < At(d8, r, n) + 4) ==> now[k] == was[k]
    requires |four| == 4 && now[At(d8, r, n)..At(d8, r, n) + 4] == four
    requires forall k :: 0 <= k < 4 ==> PlaneByte(q, n + k, r, four[k])
    ensures Planes(q, d8, now, n, done + {r}) && Clear(d8, now, z)
  {
    hide PlaneByte;
    forall p, g | 0 <= p < 4 && 0 <= g < d8 && (g < n ||
        (g < n + 4 && p in done + {r})) ensures PlaneByte(q, g, p, now[At(d8, p, g)]) {
      if p == r && n <= g {
        assert now[At(d8, p, g)] == four[g - n];
      }
    }
  }

  lemma {:induction false} GroupDone(q: seq<Byte>, d8: nat, t: seq<Byte>, n: nat, done: set<nat>)
    requires 8 * d8 <= |q| && 4 * d8 <= |t| && Planes(q, d8, t, n, done) && {0, 1, 2, 3} <= done
    ensures Planes(q, d8, t, n + 4, {})
  {
    hide PlaneByte, At;
  }

  /** Copies four bytes. */
  method CopyFour(t: array<Byte>, pos: nat, tmp: array<Byte>)
    requires t != tmp && tmp.Length == 4 && pos + 4 <= t.Length
    modifies t
    ensures t[pos..pos + 4] == tmp[..]
    ensures forall k :: 0 <= k < t.Length && !(pos <= k < pos + 4) ==> t[k] == old(t[k])
  {
    for k := 0 to 4
      invariant forall m :: 0 <= m < k ==> t[pos + m] == tmp[m]
      invariant forall m :: 0 <= m < t.Length && !(pos <= m < pos + 4) ==> t[m] == old(t[m])
    {
      t[pos + k] := tmp[k];
    }
  }

  method ClearFour(a: array<Byte>)
    requires a.Length == 4
    modifies a
    ensures forall k :: 0 <= k < 4 ==> a[k] == 0
  {
    a[0], a[1], a[2], a[3] := 0, 0, 0, 0;
  }

  /** The inner loop over the planes, from the top one down. */
  method TransposeGroup(q: seq<Byte>, i: nat, d8: nat, t: array<Byte>, spread: array<Byte>, tmp: array<Byte>,
                        ghost z: nat)
    requires t != spread && t != tmp && spread != tmp && spread.Length == 32 && tmp.Length == 4
    requires i % 8 == 0 && 8 * d8 <= |q| && 4 * d8 <= t.Length && i / 8 + 4 <= z <= d8
    requires Planes(q, d8, t[..], i / 8, {}) && Clear(d8, t[..], z)
    requires forall k :: 0 <= k < 4 ==> tmp[k] == 0
    modifies t, spread, tmp
    ensures Planes(q, d8, t[..], i / 8 + 4, {}) && Clear(d8, t[..], z)
    ensures forall k :: 4 * d8 <= k < t.Length ==> t[k] == old(t[k])
    ensures forall k :: 0 <= k < 4 ==> tmp[k] == 0
  {
    hide *;
    SpreadGroup(q, i, spread);
    ghost var done := {};
    var j := 0;
    while j < 4
      invariant 0 <= j <= 4 && Planes(q, d8, t[..], i / 8, done) && SpreadIs(spread[..], q[i..i + 32], 4, j)
      invariant forall p :: 4 - j <= p < 4 ==> p in done
      invariant Clear(d8, t[..], z) && forall k :: 4 * d8 <= k < t.Length ==> t[k] == old(t[k])
      invariant forall k :: 0 <= k < 4 ==> tmp[k] == 0
    {
      ghost var was := t[..];
      PackHighBitsToByte(spread, tmp);
      forall k | 0 <= k < 4 ensures PlaneByte(q, i / 8 + k, 3 - j, tmp[k]) {
        PackedPlane(spread[..], q, i, j, k, tmp[k]);
      }
      AtInside(d8, 3 - j, i / 8);
      CopyFour(t, At(d8, 3 - j, i / 8), tmp);
      PlaneWritten(q, d8, was, t[..], tmp[..], i / 8, done, 3 - j, z);
      done := done + {3 - j};
      ClearFour(tmp);
      ShiftGroup(spread, q[i..i + 32], j);
      j := j + 1;
    }
    GroupDone(q, d8, t[..], i / 8, done);
  }

  lemma {:induction false} AtInside(d8: nat, p: nat, n: nat)
    requires p < 4 && n + 4 <= d8
    ensures At(d8, p, n) + 4 <= 4 * d8
  {
  }

  // ---------------------------------------------------------------- the rest, bit by bit

  /** Coordinate c has its bit in plane p, when i coordinates and the first j planes of the next are done. */
  predicate BitDone(c: nat, p: nat, i: nat, j: nat) {
    c < i || (c == i && p > 3 - j)
  }

  /** Every bit of the planes is right for the coordinates done, and zero for the others. */
  ghost predicate BitsDone(q: seq<Byte>, d8: nat, t: seq<Byte>, i: nat, j: nat)
    requires 8 * d8 <= |q| && 4 * d8 <= |t|
  {
    forall p, g, b :: 0 <= p < 4 && 0 <= g < d8 && 0 <= b < 8 ==>
      (Bit(t[At(d8, p, g)], b) <==> BitDone(8 * g + 7 - b, p, i, j) && Bit(q[8 * g + 7 - b], p))
  }

  lemma {:induction false} GroupsDone(q: seq<Byte>, d8: nat, t: seq<Byte>, n: nat)
    requires 8 * d8 <= |q| && 4 * d8 <= |t| && n <= d8 && Planes(q, d8, t, n, {}) && Clear(d8, t, n)
    ensures BitsDone(q, d8, t, 8 * n, 0)
  {
    forall p, g, b | 0 <= p < 4 && 0 <= g < d8 && 0 <= b < 8
      ensures Bit(t[At(d8, p, g)], b) <==> BitDone(8 * g + 7 - b, p, 8 * n, 0) && Bit(q[8 * g + 7 - b], p)
    {
      hide Bit;
      if g < n {
        assert PlaneByte(q, g, p, t[At(d8, p, g)]);
      } else {
        NoBits(b);
      }
    }
  }

  lemma {:induction false} AllBitsDone(q: seq<Byte>, d8: nat, t: seq<Byte>)
    requires 8 * d8 <= |q| && 4 * d8 <= |t| && BitsDone(q, d8, t, 8 * d8, 0)
    ensures Planes(q, d8, t, d8, {})
  {
    hide Bit, At;
  }

  /** One bit of coordinate i goes to its place in plane 3 - j. */
  lemma {:induction false} BitWritten(q: seq<Byte>, d8: nat, was: seq<Byte>, now: seq<Byte>, i: nat, j: nat, u: Byte)
    requires 8 * d8 <= |q| && 4 * d8 <= |was| == |now| && i < 8 * d8 && j < 4
    requires BitsDone(q, d8, was, i, j)
    requires var pos := At(d8, 3 - j, i / 8); pos < |was| && now == was[pos := was[pos] | u]
    requires u == if Bit(q[i], 3 - j) then Mask(7 - i % 8) else 0
    ensures BitsDone(q, d8, now, i, j + 1)
  {
    hide Bit, Mask, BitDone;
    forall p, g, b | 0 <= p < 4 && 0 <= g < d8 && 0 <= b < 8
      ensures Bit(now[At(d8, p, g)], b) <==> BitDone(8 * g + 7 - b, p, i, j + 1) && Bit(q[8 * g + 7 - b], p)
    {
      AtWithin(d8, p, g);
      SamePlace(d8, p, g, 3 - j, i / 8);
      BitWrittenAt(q, was[At(d8, p, g)], i, j, u, p, g, b);
    }
  }

  /** The same for one bit of one byte: u goes into the byte of the coordinate and leaves the others alone. */
  lemma {:induction false} BitWrittenAt(q: seq<Byte>, x: Byte, i: nat, j: nat, u: Byte, p: nat, g: nat, b: nat)
    requires i < |q| && j < 4 && p < 4 && b < 8 && 8 * g + 7 - b < |q|
    requires Bit(x, b) <==> BitDone(8 * g + 7 - b, p, i, j) && Bit(q[8 * g + 7 - b], p)
    requires u == if Bit(q[i], 3 - j) then Mask(7 - i % 8) else 0
    ensures Bit(if p == 3 - j && g == i / 8 then x | u else x, b) <==>
            BitDone(8 * g + 7 - b, p, i, j + 1) && Bit(q[8 * g + 7 - b], p)
  {
    hide *;
    DoneNext(8 * g + 7 - b, p, i, j);
    OrBit(x, u, b);
    NoBits(b);
    OneBitOnly(7 - i % 8, b);
    assert g == i / 8 && b == 7 - i % 8 <==> 8 * g + 7 - b == i;
  }

  lemma {:induction false} SamePlace(d8: nat, p: nat, g: nat, r: nat, h: nat)
    requires p < 4 && r < 4 && g < d8 && h < d8
    ensures At(d8, p, g) == At(d8, r, h) <==> p == r && g == h
  {
  }

  lemma {:induction false} DoneNext(c: nat, p: nat, i: nat, j: nat)
    requires p < 4 && j < 4
    ensures BitDone(c, p, i, j + 1) <==> BitDone(c, p, i, j) || (c == i && p == 3 - j)
  {
  }

  lemma {:induction false} OrBit(x: Byte, u: Byte, b: nat)
    requires b < 8
    ensures Bit(x | u, b) <==> Bit(x, b) || Bit(u, b)
  {
  }

  lemma {:induction false} OneBitOnly(k: nat, b: nat)
    requires k < 8 && b < 8
    ensures Bit(Mask(k), b) <==> k == b
  {
  }

  lemma {:induction false} NextCoordinate(q: seq<Byte>, d8: nat, t: seq<Byte>, i: nat)
    requires 8 * d8 <= |q| && 4 * d8 <= |t| && BitsDone(q, d8, t, i, 4)
    ensures BitsDone(q, d8, t, i + 1, 0)
  {
    hide Bit, At;
    assert forall p, c :: 0 <= p < 4 ==> (BitDone(c, p, i + 1, 0) <==> BitDone(c, p, i, 4));
  }

  /** The bit of a spread byte that goes into plane 3 - j, shifted to its place. */
  lemma {:induction false} SpreadByteBit(x: Byte, j: nat, k: nat)
    requires j < 4 && k < 8
    ensures ShiftedUp(ShiftedDown((x << 4) | ((x >> 4) & 0x0F), 7 - j) & 1, k) == if Bit(x, 3 - j) then Mask(k) else 0
  {
    var y := ShiftedDown((x << 4) | ((x >> 4) & 0x0F), 7 - j) & 1;
    assert y == if Bit(x, 3 - j) then 1 else 0;
    hide ShiftedDown, Bit;
  }

  /** The body of the loop over the rest: one bit into each plane, from the top one down. */
  method TransposeCoordinate(q: seq<Byte>, i: nat, d8: nat, t: array<Byte>)
    requires 8 * d8 <= |q| && 4 * d8 <= t.Length && i < 8 * d8 && BitsDone(q, d8, t[..], i, 0)
    modifies t
    ensures BitsDone(q, d8, t[..], i + 1, 0)
    ensures forall k :: 4 * d8 <= k < t.Length ==> t[k] == old(t[k])
  {
    hide *;
    var uByte := q[i];
    var uSpreadByte := (uByte << 4) | ((uByte >> 4) & 0x0F);
    var j := 0;
    while j < 4
      invariant 0 <= j <= 4 && BitsDone(q, d8, t[..], i, j)
      invariant forall k :: 4 * d8 <= k < t.Length ==> t[k] == old(t[k])
    {
      ghost var was := t[..];
      AtWithin(d8, 3 - j, i / 8);
      SpreadByteBit(uByte, j, 7 - i % 8);
      var uBit := ShiftedDown(uSpreadByte, 7 - j) & 1;
      var pos := At(d8, 3 - j, i / 8);
      t[pos] := t[pos] | ShiftedUp(uBit, 7 - i % 8);
      BitWritten(q, d8, was, t[..], i, j, ShiftedUp(uBit, 7 - i % 8));
      j := j + 1;
    }
    NextCoordinate(q, d8, t[..], i);
  }

  /**
    Transpose: groups of 32 coordinates by words, the rest bit by bit into bytes that must be zero before. The
    dimension is a multiple of 8.
   */
  method Transpose(dQuantized: seq<Byte>, uDim: nat, dTransposed: array<Byte>)
    requires uDim % 8 == 0 && uDim <= |dQuantized| && uDim / 2 <= dTransposed.Length
    requires Clear(uDim / 8, dTransposed[..], uDim / 32 * 4)
    modifies dTransposed
    ensures IsTransposed(dQuantized, uDim, dTransposed[..])
    ensures forall k :: uDim / 2 <= k < dTransposed.Length ==> dTransposed[k] == old(dTransposed[k])
  {
    hide *;
    var uDimDiv8 := uDim / 8;
    var uLimit32 := uDim / 32 * 32;
    TransposeGroups(dQuantized, uLimit32, uDimDiv8, dTransposed, uDim / 32);
    TransposeRest(dQuantized, uLimit32, uDim, dTransposed);
    AllTransposed(dQuantized, uDim, dTransposed[..]);
  }

  /** The loop over the whole groups. */
  method TransposeGroups(q: seq<Byte>, uLimit32: nat, d8: nat, t: array<Byte>, ghost n: nat)
    requires uLimit32 == 32 * n && 4 * n <= d8 && 8 * d8 <= |q| && 4 * d8 <= t.Length
    requires Clear(d8, t[..], 4 * n)
    modifies t
    ensures BitsDone(q, d8, t[..], uLimit32, 0)
    ensures forall k :: 4 * d8 <= k < t.Length ==> t[k] == old(t[k])
  {
    hide *;
    NoGroups(q, d8, t[..]);
    ghost var before := t[..];
    var dTmp, dSpreadBits := new Byte[4](_ => 0), new Byte[32](_ => 0);
    assert t[..] == before;
    var i := 0;
    ghost var g := 0;
    while i < uLimit32
      invariant i == 32 * g && g <= n
      invariant Planes(q, d8, t[..], 4 * g, {}) && Clear(d8, t[..], 4 * n)
      invariant forall k :: 4 * d8 <= k < t.Length ==> t[k] == old(t[k])
      invariant forall k :: 0 <= k < 4 ==> dTmp[k] == 0
    {
      assert i / 8 == 4 * g;
      TransposeGroup(q, i, d8, t, dSpreadBits, dTmp, 4 * n);
      i, g := i + 32, g + 1;
    }
    GroupsDone(q, d8, t[..], 4 * n);
  }

  /** The loop over the rest. */
  method TransposeRest(q: seq<Byte>, uLimit32: nat, uDim: nat, t: array<Byte>)
    requires uDim % 8 == 0 && uLimit32 <= uDim <= |q| && uDim / 2 <= t.Length
    requires BitsDone(q, uDim / 8, t[..], uLimit32, 0)
    modifies t
    ensures BitsDone(q, uDim / 8, t[..], uDim, 0)
    ensures forall k :: uDim / 2 <= k < t.Length ==> t[k] == old(t[k])
  {
    hide *;
    var d8 := uDim / 8;
    assert 4 * d8 == uDim / 2 && 8 * d8 == uDim;
    var i := uLimit32;
    while i < uDim
      invariant uLimit32 <= i <= uDim && BitsDone(q, d8, t[..], i, 0)
      invariant forall k :: 4 * d8 <= k < t.Length ==> t[k] == old(t[k])
    {
      TransposeCoordinate(q, i, d8, t);
      i := i + 1;
    }
  }

  lemma {:induction false} AllTransposed(q: seq<Byte>, dim: nat, t: seq<Byte>)
    requires dim % 8 == 0 && dim <= |q| && dim / 2 <= |t| && BitsDone(q, dim / 8, t, dim, 0)
    ensures IsTransposed(q, dim, t)
  {
    hide BitsDone, Planes;
    AllBitsDone(q, dim / 8, t);
  }

  lemma {:induction false} AtWithin(d8: nat, p: nat, g: nat)
    requires p < 4 && g < d8
    ensures At(d8, p, g) < 4 * d8
  {
  }

  lemma {:induction false} NoGroups(q: seq<Byte>, d8: nat, t: seq<Byte>)
    requires 8 * d8 <= |q| && 4 * d8 <= |t|
    ensures Planes(q, d8, t, 0, {})
  {
  }

  // ---------------------------------------------------------------- the vector form

  /** Two bytes as one of the sixteen lanes of a 256-bit register. */
  function Lane(lo: Byte, hi: Byte): bv16 {
    (lo as bv16) | (hi as bv16 << 8)
  }

  function LaneByte(w: bv16, m: nat): Byte
    requires m < 2
  {
    if m == 0 then (w & 0xFF) as bv8 else ((w >> 8) & 0xFF) as bv8
  }

  function SpreadLane(w: bv16): bv16 {
    (w << 4) | ((w >> 4) & 0x0F0F)
  }

  function LaneShifted(w: bv16, j: nat): bv16 {
    if j == 0 then w else LaneShifted(w, j - 1) << 1
  }

  lemma {:induction false} LaneUp(w: bv16, m: nat)
    requires m < 2
    ensures LaneByte(w << 1, m) & 0xFE == LaneByte(w, m) << 1
  {
  }

  lemma {:induction false} LaneSpread(lo: Byte, hi: Byte, m: nat)
    requires m < 2
    ensures LaneByte(SpreadLane(Lane(lo, hi)), m) & 0xF0 == (if m == 0 then lo else hi) << 4
  {
  }

  lemma {:induction false} LaneShiftedBit(w: bv16, j: nat, m: nat)
    requires j < 4 && m < 2
    ensures Bit(LaneByte(LaneShifted(w, j), m), 7) <==> Bit(LaneByte(w, m), 7 - j)
    decreases j
  {
    hide LaneByte, Bit;
    if j > 0 {
      LaneShiftedIn(w, j);
      LaneShiftedBit(w << 1, j - 1, m);
      LaneUp(w, m);
      BitAbove(LaneByte(w, m), LaneByte(w << 1, m), 7 - j);
    }
  }

  lemma {:induction false} LaneShiftedIn(w: bv16, j: nat)
    requires j > 0
    ensures LaneShifted(w, j) == LaneShifted(w << 1, j - 1)
    decreases j
  {
    if j > 1 {
      LaneShiftedIn(w, j - 1);
    }
  }

  /** Shifting inside lanes: after j shifts the top bit of each byte is bit 3 - j of the byte it came from. */
  lemma {:induction false} LaneTop(lo: Byte, hi: Byte, j: nat, m: nat)
    requires j < 4 && m < 2
    ensures Bit(LaneByte(LaneShifted(SpreadLane(Lane(lo, hi)), j), m), 7) <==> Bit(if m == 0 then lo else hi, 3 - j)
  {
    hide *;
    LaneShiftedBit(SpreadLane(Lane(lo, hi)), j, m);
    LaneSpread(lo, hi, m);
    BitFourAbove(if m == 0 then lo else hi, LaneByte(SpreadLane(Lane(lo, hi)), m), 3 - j);
  }

  /** The byte made of eight flags, the first in the lowest bit. */
  function FlagByte(f: seq<bool>): Byte
    requires |f| == 8
  {
    (if f[0] then 1 else 0) | (if f[1] then 2 else 0) | (if f[2] then 4 else 0) | (if f[3] then 8 else 0) |
    (if f[4] then 16 else 0) | (if f[5] then 32 else 0) | (if f[6] then 64 else 0) | (if f[7] then 128 else 0)
  }

  lemma {:induction false} FlagBit(f: seq<bool>, k: nat)
    requires |f| == 8 && k < 8
    ensures Bit(FlagByte(f), k) == f[k]
  {
  }

  /** ReverseBitsUint8, a table in the source. */
  function ReverseBits(x: Byte): Byte {
    FlagByte(seq(8, k requires 0 <= k < 8 => Bit(x, 7 - k)))
  }

  /** The top bits of bytes 8 * k on of a register. */
  function TopFlags(v: seq<bv16>, k: nat): (f: seq<bool>)
    requires |v| == 16 && k < 4
    ensures |f| == 8
  {
    seq(8, m requires 0 <= m < 8 => Bit(LaneByte(v[4 * k + m / 2], m % 2), 7))
  }

  /** _mm256_movemask_epi8: the top bits of all 32 bytes, that of the first byte in the lowest bit. */
  function MoveMask(v: seq<bv16>): bv32
    requires |v| == 16
  {
    (FlagByte(TopFlags(v, 0)) as bv32) | (FlagByte(TopFlags(v, 1)) as bv32 << 8) |
    (FlagByte(TopFlags(v, 2)) as bv32 << 16) | (FlagByte(TopFlags(v, 3)) as bv32 << 24)
  }

  function MaskByte(w: bv32, k: nat): Byte
    requires k < 4
  {
    match k
    case 0 => (w & 0xFF) as bv8
    case 1 => ((w >> 8) & 0xFF) as bv8
    case 2 => ((w >> 16) & 0xFF) as bv8
    case 3 => ((w >> 24) & 0xFF) as bv8
  }

  lemma {:induction false} MaskByteIs(v: seq<bv16>, k: nat)
    requires |v| == 16 && k < 4
    ensures MaskByte(MoveMask(v), k) == FlagByte(TopFlags(v, k))
  {
    hide FlagByte, TopFlags;
    var a, b, c, d := FlagByte(TopFlags(v, 0)), FlagByte(TopFlags(v, 1)), FlagByte(TopFlags(v, 2)),
        FlagByte(TopFlags(v, 3));
    FourBytes(a, b, c, d, k);
  }

  lemma {:induction false} FourBytes(a: Byte, b: Byte, c: Byte, d: Byte, k: nat)
    requires k < 4
    ensures MaskByte((a as bv32) | (b as bv32 << 8) | (c as bv32 << 16) | (d as bv32 << 24),
            k) == (match k case 0 => a case 1 => b case 2 => c case 3 => d)
  {
  }

  /** The register with 32 coordinates loaded, spread and shifted j times. */
  function Register(q: seq<Byte>, i: nat, j: nat): (v: seq<bv16>)
    requires i + 32 <= |q|
    ensures |v| == 16
  {
    seq(16, l requires 0 <= l < 16 => LaneShifted(SpreadLane(Lane(q[i + 2 * l], q[i + 2 * l + 1])), j))
  }

  lemma {:induction false} RegisterFlag(q: seq<Byte>, i: nat, j: nat, k: nat, m: nat)
    requires i + 32 <= |q| && j < 4 && k < 4 && m < 8
    ensures TopFlags(Register(q, i, j), k)[m] <==> Bit(q[i + 8 * k + m], 3 - j)
  {
    hide Bit, LaneByte, LaneShifted, SpreadLane, Lane;
    var l := 4 * k + m / 2;
    LaneTop(q[i + 2 * l], q[i + 2 * l + 1], j, m % 2);
    assert i + 8 * k + m == i + 2 * l + m % 2;
  }

  /** A reversed byte of the mask is a byte of plane 3 - j. */
  lemma {:induction false} MaskPlane(q: seq<Byte>, i: nat, j: nat, k: nat)
    requires i % 8 == 0 && i + 32 <= |q| && j < 4 && k < 4
    ensures PlaneByte(q, i / 8 + k, 3 - j, ReverseBits(MaskByte(MoveMask(Register(q, i, j)), k)))
  {
    hide Bit, FlagByte, Register, MoveMask, MaskByte, TopFlags;
    var v := Register(q, i, j);
    MaskByteIs(v, k);
    var x := FlagByte(TopFlags(v, k));
    forall b | 0 <= b < 8 ensures Bit(ReverseBits(x), b) <==> Bit(q[8 * (i / 8 + k) + 7 - b], 3 - j) {
      FlagBit(seq(8, k requires 0 <= k < 8 => Bit(x, 7 - k)), b);
      FlagBit(TopFlags(v, k), 7 - b);
      RegisterFlag(q, i, j, k, 7 - b);
    }
  }

  /** Four reversed bytes of a mask go into one plane. */
  method StoreMask(t: array<Byte>, pos: nat, uMask: bv32)
    requires pos + 4 <= t.Length
    modifies t
    ensures t[pos..pos + 4] == [ReverseBits(MaskByte(uMask, 0)), ReverseBits(MaskByte(uMask, 1)),
            ReverseBits(MaskByte(uMask, 2)), ReverseBits(MaskByte(uMask, 3))]
    ensures forall k :: 0 <= k < t.Length && !(pos <= k < pos + 4) ==> t[k] == old(t[k])
  {
    hide ReverseBits, MaskByte;
    t[pos] := ReverseBits(MaskByte(uMask, 0));
    t[pos + 1] := ReverseBits(MaskByte(uMask, 1));
    t[pos + 2] := ReverseBits(MaskByte(uMask, 2));
    t[pos + 3] := ReverseBits(MaskByte(uMask, 3));
  }

  method StorePlane(q: seq<Byte>, i: nat, d8: nat, t: array<Byte>, r: nat, ghost done: set<nat>)
    requires i % 8 == 0 && i + 32 <= |q| && 8 * d8 <= |q| && 4 * d8 <= t.Length && i / 8 + 4 <= d8 && r < 4
    requires Planes(q, d8, t[..], i / 8, done)
    modifies t
    ensures Planes(q, d8, t[..], i / 8, done + {r})
    ensures forall k :: 4 * d8 <= k < t.Length ==> t[k] == old(t[k])
  {
    hide *;
    ghost var was := t[..];
    ghost var uMask := MoveMask(Register(q, i, 3 - r));
    AtInside(d8, r, i / 8);
    NoneClear(d8, t[..]);
    StoreMask(t, At(d8, r, i / 8), MoveMask(Register(q, i, 3 - r)));
    MaskPlane(q, i, 3 - r, 0);
    MaskPlane(q, i, 3 - r, 1);
    MaskPlane(q, i, 3 - r, 2);
    MaskPlane(q, i, 3 - r, 3);
    PlaneWritten(q, d8, was, t[..], [ReverseBits(MaskByte(uMask, 0)), ReverseBits(MaskByte(uMask, 1)),
        ReverseBits(MaskByte(uMask, 2)), ReverseBits(MaskByte(uMask, 3))], i / 8, done, r, d8);
  }

  lemma {:induction false} NoneClear(d8: nat, t: seq<Byte>)
    requires 4 * d8 <= |t|
    ensures Clear(d8, t, d8)
  {
  }

  /** TransposeAVX: for dimensions that are a multiple of 32; the buffer need not be zero. */
  method TransposeAVX(dQuantized: seq<Byte>, uDim: nat, dTransposed: array<Byte>)
    requires uDim % 32 == 0 && uDim <= |dQuantized| && uDim / 2 <= dTransposed.Length
    modifies dTransposed
    ensures IsTransposed(dQuantized, uDim, dTransposed[..])
    ensures forall k :: uDim / 2 <= k < dTransposed.Length ==> dTransposed[k] == old(dTransposed[k])
  {
    hide Planes;
    var uDimDiv8 := uDim / 8;
    NoGroups(dQuantized, uDimDiv8, dTransposed[..]);
    var i := 0;
    while i < uDim
      invariant i % 32 == 0 && 0 <= i <= uDim && Planes(dQuantized, uDimDiv8, dTransposed[..], i / 8, {})
      invariant forall k :: uDim / 2 <= k < dTransposed.Length ==> dTransposed[k] == old(dTransposed[k])
    {
      StorePlane(dQuantized, i, uDimDiv8, dTransposed, 0, {});
      StorePlane(dQuantized, i, uDimDiv8, dTransposed, 1, {} + {0});
      StorePlane(dQuantized, i, uDimDiv8, dTransposed, 2, {} + {0} + {1});
      StorePlane(dQuantized, i, uDimDiv8, dTransposed, 3, {} + {0} + {1} + {2});
      GroupDone(dQuantized, uDimDiv8, dTransposed[..], i / 8, {} + {0} + {1} + {2} + {3});
      i := i + 32;
    }
  }
}
