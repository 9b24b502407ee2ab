/**
  Delta coding (util/delta_impl.h).

  Machine words are naturals below a modulus `m` (2^32 or 2^64); all arithmetic wraps.
  The vectorised loops are modelled lane by lane on a register of four 32-bit lanes or two
  64-bit lanes, and each in-place method is proved equal to the scalar definition it speeds up.
 */
module DeltaCoding {

  const M32: nat := 0x1_0000_0000
  const M64: nat := 0x1_0000_0000_0000_0000

  // ---------------------------------------------------------------- wrapping words

  ghost predicate Words(s: seq<nat>, m: nat) {
    forall i :: 0 <= i < |s| ==> s[i] < m
  }

  function WAdd(a: nat, b: nat, m: nat): (r: nat)
    requires a < m && b < m
    ensures r < m
  {
    if a + b < m then a + b else a + b - m
  }

  function WSub(a: nat, b: nat, m: nat): (r: nat)
    requires a < m && b < m
    ensures r < m
  {
    if b <= a then a - b else a + m - b
  }

  // ---------------------------------------------------------------- the scalar definitions

  /** Element i of the ascending delta coding of s. */
  ghost function DeltaAt(s: seq<nat>, m: nat, i: nat): nat
    requires i < |s| && Words(s, m)
  {
    if i == 0 then s[0] else WSub(s[i], s[i - 1], m)
  }

  /** Element i of the running sum of d. */
  ghost function SumAt(d: seq<nat>, m: nat, i: nat): (r: nat)
    requires i < |d| && Words(d, m)
    ensures r < m
  {
    if i == 0 then d[0] else WAdd(SumAt(d, m, i - 1), d[i], m)
  }

  /** Element i of the descending delta coding of s. */
  ghost function DescDeltaAt(s: seq<nat>, m: nat, i: nat): nat
    requires i < |s| && Words(s, m)
  {
    if i == 0 then s[0] else WSub(s[i - 1], s[i], m)
  }

  /** Element i of the running difference of d. */
  ghost function DescAt(d: seq<nat>, m: nat, i: nat): (r: nat)
    requires i < |d| && Words(d, m)
    ensures r < m
  {
    if i == 0 then d[0] else WSub(DescAt(d, m, i - 1), d[i], m)
  }

  ghost function Deltas(s: seq<nat>, m: nat): (r: seq<nat>)
    requires Words(s, m)
    ensures |r| == |s| && Words(r, m)
    ensures forall i :: 0 <= i < |s| ==> r[i] == DeltaAt(s, m, i)
  {
    seq(|s|, i requires 0 <= i < |s| => DeltaAt(s, m, i))
  }

  ghost function Sums(d: seq<nat>, m: nat): (r: seq<nat>)
    requires Words(d, m)
    ensures |r| == |d| && Words(r, m)
    ensures forall i :: 0 <= i < |d| ==> r[i] == SumAt(d, m, i)
  {
    seq(|d|, i requires 0 <= i < |d| => SumAt(d, m, i))
  }

  ghost function DescDeltas(s: seq<nat>, m: nat): (r: seq<nat>)
    requires Words(s, m)
    ensures |r| == |s| && Words(r, m)
    ensures forall i :: 0 <= i < |s| ==> r[i] == DescDeltaAt(s, m, i)
  {
    seq(|s|, i requires 0 <= i < |s| => DescDeltaAt(s, m, i))
  }

  ghost function DescSums(d: seq<nat>, m: nat): (r: seq<nat>)
    requires Words(d, m)
    ensures |r| == |d| && Words(r, m)
    ensures forall i :: 0 <= i < |d| ==> r[i] == DescAt(d, m, i)
  {
    seq(|d|, i requires 0 <= i < |d| => DescAt(d, m, i))
  }

  // ---------------------------------------------------------------- the codings undo each other

  lemma {:induction false} SumOfDeltaAt(s: seq<nat>, m: nat, i: nat)
    requires i < |s| && Words(s, m)
    ensures SumAt(Deltas(s, m), m, i) == s[i]
  {
    if i > 0 {
      SumOfDeltaAt(s, m, i - 1);
    }
  }

  /** Decoding undoes ascending coding, for every word sequence. */
  lemma {:induction false} AscendingRoundTrip(s: seq<nat>, m: nat)
    requires Words(s, m)
    ensures Sums(Deltas(s, m), m) == s
  {
    forall i | 0 <= i < |s| ensures Sums(Deltas(s, m), m)[i] == s[i] {
      SumOfDeltaAt(s, m, i);
    }
  }

  /** Coding undoes decoding, so the two are inverse bijections. */
  lemma {:induction false} AscendingRoundTripBack(d: seq<nat>, m: nat)
    requires Words(d, m)
    ensures Deltas(Sums(d, m), m) == d
  {
  }

  lemma {:induction false} DescOfDescDeltaAt(s: seq<nat>, m: nat, i: nat)
    requires i < |s| && Words(s, m)
    ensures DescAt(DescDeltas(s, m), m, i) == s[i]
  {
    if i > 0 {
      DescOfDescDeltaAt(s, m, i - 1);
    }
  }

  /** Scalar decoding undoes descending coding. */
  lemma {:induction false} DescendingRoundTrip(s: seq<nat>, m: nat)
    requires Words(s, m)
    ensures DescSums(DescDeltas(s, m), m) == s
  {
    forall i | 0 <= i < |s| ensures DescSums(DescDeltas(s, m), m)[i] == s[i] {
      DescOfDescDeltaAt(s, m, i);
    }
  }

  lemma {:induction false} DescendingRoundTripBack(d: seq<nat>, m: nat)
    requires Words(d, m)
    ensures DescDeltas(DescSums(d, m), m) == d
  {
  }

  // ---------------------------------------------------------------- vector registers

  /** Four 32-bit lanes, lane 0 at the lowest address. */
  datatype V4 = V4(l0: nat, l1: nat, l2: nat, l3: nat) {
    ghost predicate Valid() { l0 < M32 && l1 < M32 && l2 < M32 && l3 < M32 }
  }

  /** Two 64-bit lanes. */
  datatype V2 = V2(l0: nat, l1: nat) {
    ghost predicate Valid() { l0 < M64 && l1 < M64 }
  }

  // byte shifts of the whole register by one, two or three lanes; zeros are shifted in
  function Slli4(v: V4): V4 { V4(0, v.l0, v.l1, v.l2) }
  function Slli8(v: V4): V4 { V4(0, 0, v.l0, v.l1) }
  function Srli12(v: V4): V4 { V4(v.l3, 0, 0, 0) }
  function Broadcast3(v: V4): V4 { V4(v.l3, v.l3, v.l3, v.l3) }

  function AddEpi32(a: V4, b: V4): V4
    requires a.Valid() && b.Valid()
  {
    V4(WAdd(a.l0, b.l0, M32), WAdd(a.l1, b.l1, M32), WAdd(a.l2, b.l2, M32), WAdd(a.l3, b.l3, M32))
  }

  function SubEpi32(a: V4, b: V4): V4
    requires a.Valid() && b.Valid()
  {
    V4(WSub(a.l0, b.l0, M32), WSub(a.l1, b.l1, M32), WSub(a.l2, b.l2, M32), WSub(a.l3, b.l3, M32))
  }

  /** 64-bit subtraction on a register that holds 32-bit data: the even lane borrows from the odd one. */
  function SubEpi64(a: V4, b: V4): V4
    requires a.Valid() && b.Valid()
  {
    var lo := WSub(a.l0 + M32 * a.l1, b.l0 + M32 * b.l1, M64);
    var hi := WSub(a.l2 + M32 * a.l3, b.l2 + M32 * b.l3, M64);
    V4(lo % M32, lo / M32, hi % M32, hi / M32)
  }

  function AddEpi64(a: V2, b: V2): V2
    requires a.Valid() && b.Valid()
  {
    V2(WAdd(a.l0, b.l0, M64), WAdd(a.l1, b.l1, M64))
  }

  function SubEpi64Wide(a: V2, b: V2): V2
    requires a.Valid() && b.Valid()
  {
    V2(WSub(a.l0, b.l0, M64), WSub(a.l1, b.l1, M64))
  }

  // ---------------------------------------------------------------- an array that is being rewritten

  /** s is t up to index i and u from there on: the state of every loop below. */
  ghost predicate Rewritten(s: seq<nat>, t: seq<nat>, u: seq<nat>, i: nat) {
    && |s| == |t| == |u| && i <= |s|
    && (forall k :: 0 <= k < i ==> s[k] == t[k])
    && (forall k :: i <= k < |s| ==> s[k] == u[k])
  }

  method Load4(a: array<nat>, i: nat, ghost t: seq<nat>, ghost u: seq<nat>) returns (v: V4)
    requires i + 4 <= a.Length && Rewritten(a[..], t, u, i)
    ensures v == V4(u[i], u[i + 1], u[i + 2], u[i + 3])
  {
    v := V4(a[i], a[i + 1], a[i + 2], a[i + 3]);
  }

  method Store4(a: array<nat>, i: nat, v: V4, ghost t: seq<nat>, ghost u: seq<nat>)
    requires i + 4 <= a.Length && Rewritten(a[..], t, u, i)
    requires v == V4(t[i], t[i + 1], t[i + 2], t[i + 3])
    modifies a
    ensures Rewritten(a[..], t, u, i + 4)
  {
    a[i], a[i + 1], a[i + 2], a[i + 3] := v.l0, v.l1, v.l2, v.l3;
  }

  method Store1(a: array<nat>, i: nat, w: nat, ghost t: seq<nat>, ghost u: seq<nat>)
    requires i < a.Length && Rewritten(a[..], t, u, i) && w == t[i]
    modifies a
    ensures Rewritten(a[..], t, u, i + 1)
  {
    a[i] := w;
  }

  method Load2(a: array<nat>, i: nat, ghost t: seq<nat>, ghost u: seq<nat>) returns (v: V2)
    requires i + 2 <= a.Length && Rewritten(a[..], t, u, i)
    ensures v == V2(u[i], u[i + 1])
  {
    v := V2(a[i], a[i + 1]);
  }

  method Store2(a: array<nat>, i: nat, v: V2, ghost t: seq<nat>, ghost u: seq<nat>)
    requires i + 2 <= a.Length && Rewritten(a[..], t, u, i)
    requires v == V2(t[i], t[i + 1])
    modifies a
    ensures Rewritten(a[..], t, u, i + 2)
  {
    a[i], a[i + 1] := v.l0, v.l1;
  }

  // ---------------------------------------------------------------- one register at a time

  lemma {:induction false} WAddAssoc(a: nat, b: nat, c: nat, m: nat)
    requires a < m && b < m && c < m
    ensures WAdd(WAdd(a, b, m), c, m) == WAdd(a, WAdd(b, c, m), m)
    ensures WSub(WSub(a, b, m), c, m) == WSub(a, WAdd(b, c, m), m)
  {
  }

  /** The shift-and-add ladder turns a register into its running sums. */
  lemma {:induction false} LadderSums(x: V4, r: nat)
    requires x.Valid() && r < M32
    ensures var a1 := AddEpi32(Slli8(x), x);
            var a2 := AddEpi32(Slli4(a1), a1);
            a2.Valid() &&
            a2.l0 == x.l0 &&
            a2.l1 == WAdd(a2.l0, x.l1, M32) &&
            a2.l2 == WAdd(a2.l1, x.l2, M32) &&
            a2.l3 == WAdd(a2.l2, x.l3, M32)
  {
  }

  // ---------------------------------------------------------------- ascending, forward

  method Delta(a: array<nat>, m: nat)
    requires a.Length >= 1 && Words(a[..], m)
    modifies a
    ensures a[..] == Deltas(old(a[..]), m)
  {
    ghost var s := a[..];
    ghost var target := Deltas(s, m);
    var i := a.Length - 1;
    while i > 0
      invariant 0 <= i < a.Length
      invariant forall k :: 0 <= k <= i ==> a[k] == s[k]
      invariant forall k :: i < k < a.Length ==> a[k] == target[k]
    {
      a[i] := WSub(a[i], a[i - 1], m);
      i := i - 1;
    }
  }

  /** One register of deltas, from the word c that precedes it. */
  lemma {:induction false} DeltaRegister(s: seq<nat>, i: nat, c: nat)
    requires Words(s, M32) && i + 4 <= |s| && c == if i == 0 then 0 else s[i - 1]
    ensures var x := V4(s[i], s[i + 1], s[i + 2], s[i + 3]);
            x.Valid() &&
            SubEpi32(SubEpi32(x, V4(c, 0, 0, 0)), Slli4(x)) ==
            V4(DeltaAt(s, M32, i), DeltaAt(s, M32, i + 1), DeltaAt(s, M32, i + 2), DeltaAt(s, M32, i + 3))
  {
  }

  lemma {:induction false} DeltaStep(s: seq<nat>, i: nat)
    requires Words(s, M32) && 0 < i < |s|
    ensures Deltas(s, M32)[i] == WSub(s[i], s[i - 1], M32)
  {
  }

  method FastDeltaUnaligned(a: array<nat>)
    requires a.Length >= 1 && Words(a[..], M32)
    modifies a
    ensures a[..] == Deltas(old(a[..]), M32)
  {
    hide DeltaAt;
    if a.Length < 5 {
      Delta(a, M32);
      return;
    }
    ghost var s := a[..];
    ghost var target := Deltas(s, M32);
    var qty4 := a.Length / 4;
    var curr := 0;
    var last := V4(0, 0, 0, 0);
    while curr < qty4
      invariant 0 <= curr <= qty4
      invariant Rewritten(a[..], target, s, 4 * curr)
      invariant last.Valid()
      invariant last.l3 == if curr == 0 then 0 else s[4 * curr - 1]
    {
      var a0 := Load4(a, 4 * curr, target, s);
      DeltaRegister(s, 4 * curr, last.l3);
      var a1 := SubEpi32(a0, Srli12(last));
      a1 := SubEpi32(a1, Slli4(a0));
      last := a0;
      Store4(a, 4 * curr, a1, target, s);
      curr := curr + 1;
    }
    if 4 * qty4 < a.Length {
      var lastVal := Srli12(last).l0;
      var i := 4 * qty4;
      while i < a.Length
        invariant 4 * qty4 <= i <= a.Length
        invariant Rewritten(a[..], target, s, i)
        invariant lastVal == s[i - 1]
      {
        var newVal := a[i];
        DeltaStep(s, i);
        Store1(a, i, WSub(a[i], lastVal, M32), target, s);
        lastVal := newVal;
        i := i + 1;
      }
    }
  }

  // ---------------------------------------------------------------- ascending, inverse

  method InverseDelta(a: array<nat>, m: nat)
    requires Words(a[..], m)
    modifies a
    ensures a[..] == Sums(old(a[..]), m)
  {
    if a.Length == 0 {
      return;
    }
    ghost var d := a[..];
    ghost var target := Sums(d, m);
    var i := 1;
    while i < a.Length - 1
      invariant 1 <= i <= a.Length
      invariant Rewritten(a[..], target, d, i)
    {
      Store1(a, i, WAdd(a[i], a[i - 1], m), target, d);
      Store1(a, i + 1, WAdd(a[i + 1], a[i], m), target, d);
      i := i + 2;
    }
    while i != a.Length
      invariant 1 <= i <= a.Length
      invariant Rewritten(a[..], target, d, i)
    {
      Store1(a, i, WAdd(a[i], a[i - 1], m), target, d);
      i := i + 1;
    }
  }

  /** Register q of the running sums, from the sum carried into it. */
  lemma {:induction false} SumRegister(d: seq<nat>, i: nat, r: nat)
    requires Words(d, M32) && i + 4 <= |d|
    requires r == if i == 0 then 0 else SumAt(d, M32, i - 1)
    ensures var x := V4(d[i], d[i + 1], d[i + 2], d[i + 3]);
            var a1 := AddEpi32(Slli8(x), x);
            AddEpi32(AddEpi32(Slli4(a1), a1), V4(r, r, r, r)) ==
            V4(SumAt(d, M32, i), SumAt(d, M32, i + 1), SumAt(d, M32, i + 2), SumAt(d, M32, i + 3))
  {
    var x := V4(d[i], d[i + 1], d[i + 2], d[i + 3]);
    LadderSums(x, r);
    var a1 := AddEpi32(Slli8(x), x);
    var a2 := AddEpi32(Slli4(a1), a1);
    WAddAssoc(r, a2.l0, x.l1, M32);
    WAddAssoc(r, a2.l1, x.l2, M32);
    WAddAssoc(r, a2.l2, x.l3, M32);
  }

  method FastInverseDeltaUnaligned(a: array<nat>)
    requires Words(a[..], M32)
    modifies a
    ensures a[..] == Sums(old(a[..]), M32)
  {
    if a.Length < 5 {
      InverseDelta(a, M32);
      return;
    }
    ghost var d := a[..];
    ghost var target := Sums(d, M32);
    var qty4 := a.Length / 4;
    var runningCount := V4(0, 0, 0, 0);
    var curr := 0;
    while curr < qty4
      invariant 0 <= curr <= qty4
      invariant Rewritten(a[..], target, d, 4 * curr)
      invariant runningCount.Valid() && runningCount == Broadcast3(runningCount)
      invariant runningCount.l3 == if curr == 0 then 0 else target[4 * curr - 1]
    {
      var a0 := Load4(a, 4 * curr, target, d);
      SumRegister(d, 4 * curr, runningCount.l3);
      var a1 := AddEpi32(Slli8(a0), a0);
      var a2 := AddEpi32(Slli4(a1), a1);
      a0 := AddEpi32(a2, runningCount);
      runningCount := Broadcast3(a0);
      Store4(a, 4 * curr, a0, target, d);
      curr := curr + 1;
    }
    var i := 4 * qty4;
    while i < a.Length
      invariant 4 * qty4 <= i <= a.Length
      invariant Rewritten(a[..], target, d, i)
    {
      Store1(a, i, WAdd(a[i], a[i - 1], M32), target, d);
      i := i + 1;
    }
  }

  method CalcInverseDelta64(a: array<nat>)
    requires Words(a[..], M64)
    modifies a
    ensures a[..] == Sums(old(a[..]), M64)
  {
    if a.Length % 2 != 0 {
      InverseDelta(a, M64);
      return;
    }
    ghost var d := a[..];
    ghost var target := Sums(d, M64);
    var runningCount := V2(0, 0);
    var curr := 0;
    while curr < a.Length / 2
      invariant 0 <= curr <= a.Length / 2
      invariant Rewritten(a[..], target, d, 2 * curr)
      invariant runningCount.Valid() && runningCount.l0 == runningCount.l1
      invariant runningCount.l1 == if curr == 0 then 0 else target[2 * curr - 1]
    {
      var a0 := Load2(a, 2 * curr, target, d);
      assert a0 == V2(d[2 * curr], d[2 * curr + 1]);
      WAddAssoc(runningCount.l0, a0.l0, a0.l1, M64);
      var a1 := AddEpi64(V2(0, a0.l0), a0);
      a0 := AddEpi64(a1, runningCount);
      assert a0 == V2(target[2 * curr], target[2 * curr + 1]);
      runningCount := V2(a0.l1, a0.l1);
      Store2(a, 2 * curr, a0, target, d);
      curr := curr + 1;
    }
  }

  // ---------------------------------------------------------------- descending

  method CalcDescDeltas(a: array<nat>, m: nat)
    requires a.Length >= 1 && Words(a[..], m)
    modifies a
    ensures a[..] == DescDeltas(old(a[..]), m)
  {
    ghost var s := a[..];
    ghost var target := DescDeltas(s, m);
    var prevValue := a[0];
    var i := 1;
    while i < a.Length
      invariant 1 <= i <= a.Length
      invariant prevValue == s[i - 1]
      invariant Rewritten(a[..], target, s, i)
    {
      var curValue := a[i];
      a[i] := WSub(prevValue, curValue, m);
      prevValue := curValue;
      i := i + 1;
    }
  }

  method CalcInverseDescDeltas(a: array<nat>, m: nat)
    requires Words(a[..], m)
    modifies a
    ensures a[..] == DescSums(old(a[..]), m)
  {
    ghost var d := a[..];
    ghost var target := DescSums(d, m);
    if a.Length > 0 {
      var i := 1;
      while i < a.Length
        invariant 1 <= i <= a.Length
        invariant Rewritten(a[..], target, d, i)
      {
        a[i] := WSub(a[i - 1], a[i], m);
        i := i + 1;
      }
    }
  }

  method CalcInverseDelta64Desc(a: array<nat>)
    requires a.Length >= 1 && Words(a[..], M64)
    modifies a
    ensures a[..] == DescSums(old(a[..]), M64)
  {
    if a.Length % 2 != 0 {
      CalcInverseDescDeltas(a, M64);
      return;
    }
    ghost var d := a[..];
    ghost var input := d[0 := 0];
    ghost var target := DescSums(d, M64);
    var runningCount := V2(a[0], a[0]);
    a[0] := 0;
    var curr := 0;
    while curr < a.Length / 2
      invariant 0 <= curr <= a.Length / 2
      invariant Rewritten(a[..], target, input, 2 * curr)
      invariant runningCount.Valid() && runningCount.l0 == runningCount.l1
      invariant runningCount.l1 == if curr == 0 then d[0] else target[2 * curr - 1]
    {
      var a0 := Load2(a, 2 * curr, target, input);
      assert a0 == V2(input[2 * curr], input[2 * curr + 1]);
      WAddAssoc(runningCount.l0, a0.l0, a0.l1, M64);
      var a1 := AddEpi64(V2(0, a0.l0), a0);
      a0 := SubEpi64Wide(runningCount, a1);
      assert a0 == V2(target[2 * curr], target[2 * curr + 1]);
      runningCount := V2(a0.l1, a0.l1);
      Store2(a, 2 * curr, a0, target, input);
      curr := curr + 1;
    }
  }

  /** What one step of the 32-bit descending loop stores, given the running lane value r. */
  function DescStep(r: nat, x: V4): V4
    requires r < M32 && x.Valid()
  {
    var a1 := AddEpi32(Slli8(x), x);
    var a2 := AddEpi32(Slli4(a1), a1);
    SubEpi64(V4(r, r, r, r), a2)
  }

  /** Register q of the input of the 32-bit descending loop: the first word has been cleared. */
  ghost function DescInput(d: seq<nat>, q: nat): V4
    requires 4 * q + 4 <= |d|
  {
    V4(if q == 0 then 0 else d[4 * q], d[4 * q + 1], d[4 * q + 2], d[4 * q + 3])
  }

  /** Register q of the output of the 32-bit descending loop. */
  ghost function Desc32At(d: seq<nat>, q: nat): (v: V4)
    requires Words(d, M32) && 4 * q + 4 <= |d|
    ensures v.Valid()
    decreases q
  {
    var r := if q == 0 then d[0] else Desc32At(d, q - 1).l3;
    DescStep(r, DescInput(d, q))
  }

  ghost function Quad(v: seq<nat>, q: nat): V4
    requires 4 * q + 4 <= |v|
  {
    V4(v[4 * q], v[4 * q + 1], v[4 * q + 2], v[4 * q + 3])
  }

  /** The first n registers of the output of the 32-bit descending loop. */
  ghost function Desc32(d: seq<nat>, n: nat): (s: seq<nat>)
    requires Words(d, M32) && 4 * n <= |d|
    ensures |s| == 4 * n
  {
    if n == 0 then []
    else
      var v := Desc32At(d, n - 1);
      Desc32(d, n - 1) + [v.l0, v.l1, v.l2, v.l3]
  }

  lemma {:induction false} Desc32Register(d: seq<nat>, q: nat, n: nat)
    requires Words(d, M32) && q < n && 4 * n <= |d|
    ensures Quad(Desc32(d, n), q) == Desc32At(d, q)
  {
    hide DescStep, Desc32At;
    var front, v := Desc32(d, n - 1), Desc32At(d, n - 1);
    assert Desc32(d, n) == front + [v.l0, v.l1, v.l2, v.l3];
    if q < n - 1 {
      Desc32Register(d, q, n - 1);
      assert Quad(Desc32(d, n), q) == Quad(front, q);
    }
  }

  method CalcInverseDelta32Desc(a: array<nat>)
    requires a.Length >= 1 && Words(a[..], M32)
    modifies a
    ensures a.Length % 4 != 0 ==> a[..] == DescSums(old(a[..]), M32)
    ensures a.Length % 4 == 0 ==> a[..] == Desc32(old(a[..]), a.Length / 4)
  {
    hide DescStep;
    if a.Length % 4 != 0 {
      CalcInverseDescDeltas(a, M32);
      return;
    }
    ghost var d := a[..];
    ghost var input := d[0 := 0];
    ghost var target := Desc32(d, a.Length / 4);
    var runningCount := V4(a[0], a[0], a[0], a[0]);
    a[0] := 0;
    var curr := 0;
    while curr < a.Length / 4
      invariant 0 <= curr <= a.Length / 4
      invariant Rewritten(a[..], target, input, 4 * curr)
      invariant runningCount.Valid() && runningCount == Broadcast3(runningCount)
      invariant runningCount.l3 == if curr == 0 then d[0] else Desc32At(d, curr - 1).l3
    {
      var a0 := Load4(a, 4 * curr, target, input);
      assert a0 == DescInput(d, curr);
      a0 := DescStep(runningCount.l3, a0);
      runningCount := Broadcast3(a0);
      Desc32Register(d, curr, a.Length / 4);
      Store4(a, 4 * curr, a0, target, input);
      curr := curr + 1;
    }
  }

  // ---------------------------------------------------------------- when the 32-bit descending loop is exact

  /** The value that register q of the decoded sequence v starts from. */
  ghost function Carry(v: seq<nat>, q: nat): nat
    requires 4 * q + 4 <= |v|
  {
    if q == 0 then v[0] else v[4 * q - 1]
  }

  /** The even lanes of register q do not exceed the value carried into it. */
  ghost predicate NoBorrow(v: seq<nat>, q: nat)
    requires 4 * q + 4 <= |v|
  {
    v[4 * q] <= Carry(v, q) && v[4 * q + 2] <= Carry(v, q)
  }

  /** Subtracting in 64-bit lanes gives the 32-bit result exactly when no even lane borrows. */
  lemma {:induction false} SubEpi64Borrow(r: nat, b: V4)
    requires r < M32 && b.Valid()
    ensures SubEpi64(V4(r, r, r, r), b) ==
            V4(WSub(r, b.l0, M32),
               if b.l0 <= r then WSub(r, b.l1, M32) else WSub(WSub(r, b.l1, M32), 1, M32),
               WSub(r, b.l2, M32),
               if b.l2 <= r then WSub(r, b.l3, M32) else WSub(WSub(r, b.l3, M32), 1, M32))
  {
    PairBorrow(r, b.l0, b.l1);
    PairBorrow(r, b.l2, b.l3);
  }

  lemma {:induction false} PairBorrow(r: nat, b0: nat, b1: nat)
    requires r < M32 && b0 < M32 && b1 < M32
    ensures var lo := WSub(r + M32 * r, b0 + M32 * b1, M64);
            lo % M32 == WSub(r, b0, M32) &&
            lo / M32 == if b0 <= r then WSub(r, b1, M32) else WSub(WSub(r, b1, M32), 1, M32)
  {
    var lo := WSub(r + M32 * r, b0 + M32 * b1, M64);
    var h := if b0 <= r then WSub(r, b1, M32) else WSub(WSub(r, b1, M32), 1, M32);
    assert lo == WSub(r, b0, M32) + M32 * h;
  }

  /** In the coding of v, the running sum of register q is the distance from the carry. */
  lemma {:induction false} DescLadder(v: seq<nat>, q: nat)
    requires Words(v, M32) && 4 * q + 4 <= |v|
    ensures var x := DescInput(DescDeltas(v, M32), q);
            x.Valid() &&
            var a1 := AddEpi32(Slli8(x), x);
            AddEpi32(Slli4(a1), a1) ==
            V4(WSub(Carry(v, q), v[4 * q], M32), WSub(Carry(v, q), v[4 * q + 1], M32),
               WSub(Carry(v, q), v[4 * q + 2], M32), WSub(Carry(v, q), v[4 * q + 3], M32))
  {
    var x := DescInput(DescDeltas(v, M32), q);
    LadderSums(x, 0);
    var i, r := 4 * q, Carry(v, q);
    assert x.l0 == WSub(r, v[i], M32);
    assert x.l1 == WSub(v[i], v[i + 1], M32);
    assert x.l2 == WSub(v[i + 1], v[i + 2], M32);
    assert x.l3 == WSub(v[i + 2], v[i + 3], M32);
    WSubChain(r, v[i], v[i + 1]);
    WSubChain(r, v[i + 1], v[i + 2]);
    WSubChain(r, v[i + 2], v[i + 3]);
  }

  lemma {:induction false} WSubChain(a: nat, b: nat, c: nat)
    requires a < M32 && b < M32 && c < M32
    ensures WAdd(WSub(a, b, M32), WSub(b, c, M32), M32) == WSub(a, c, M32)
  {
  }

  lemma {:induction false} WSubBack(r: nat, b: nat)
    requires r < M32 && b < M32
    ensures WSub(r, WSub(r, b, M32), M32) == b
    ensures WSub(r, b, M32) <= r <==> b <= r
    ensures WSub(b, 1, M32) != b
  {
  }

  /** One register: from the right carry, the loop restores the values iff no even lane borrows. */
  lemma {:induction false} DescStepExact(v: seq<nat>, q: nat)
    requires Words(v, M32) && 4 * q + 4 <= |v|
    ensures DescInput(DescDeltas(v, M32), q).Valid()
    ensures DescStep(Carry(v, q), DescInput(DescDeltas(v, M32), q)) == Quad(v, q) <==> NoBorrow(v, q)
  {
    var r, x := Carry(v, q), DescInput(DescDeltas(v, M32), q);
    DescLadder(v, q);
    var a1 := AddEpi32(Slli8(x), x);
    var a2 := AddEpi32(Slli4(a1), a1);
    SubEpi64Borrow(r, a2);
    WSubBack(r, v[4 * q]);
    WSubBack(r, v[4 * q + 1]);
    WSubBack(r, v[4 * q + 2]);
    WSubBack(r, v[4 * q + 3]);
  }

  /** The condition for the first n registers. */
  ghost predicate NoBorrowBelow(v: seq<nat>, n: nat)
    requires 4 * n <= |v|
  {
    n == 0 || (NoBorrowBelow(v, n - 1) && NoBorrow(v, n - 1))
  }

  lemma {:induction false} DescPrefixExact(v: seq<nat>, n: nat)
    requires Words(v, M32) && 4 * n <= |v|
    ensures Desc32(DescDeltas(v, M32), n) == v[..4 * n] <==> NoBorrowBelow(v, n)
  {
    hide DescStep, Desc32At, NoBorrow, DescDeltaAt;
    if n > 0 {
      var d := DescDeltas(v, M32);
      var front, x, y := Desc32(d, n - 1), Desc32At(d, n - 1), Quad(v, n - 1);
      DescPrefixExact(v, n - 1);
      assert v[..4 * n] == v[..4 * (n - 1)] + [y.l0, y.l1, y.l2, y.l3];
      RegisterAppend(front, x, v[..4 * (n - 1)], y);
      if front == v[..4 * (n - 1)] {
        DescNextExact(v, n);
      }
    }
  }

  /** Once the earlier registers are right, the next one is right exactly when it does not borrow. */
  lemma {:induction false} DescNextExact(v: seq<nat>, n: nat)
    requires Words(v, M32) && 0 < n && 4 * n <= |v|
    requires Desc32(DescDeltas(v, M32), n - 1) == v[..4 * (n - 1)]
    ensures Desc32At(DescDeltas(v, M32), n - 1) == Quad(v, n - 1) <==> NoBorrow(v, n - 1)
  {
    hide DescStep, NoBorrow;
    var d := DescDeltas(v, M32);
    DescStepExact(v, n - 1);
    if n > 1 {
      LastRegister(d, n - 1);
      assert Desc32At(d, n - 2).l3 == v[..4 * (n - 1)][4 * (n - 1) - 1] == Carry(v, n - 1);
    }
    assert Desc32At(d, n - 1) == DescStep(Carry(v, n - 1), DescInput(d, n - 1));
  }

  lemma {:induction false} RegisterAppend(s: seq<nat>, x: V4, t: seq<nat>, y: V4)
    requires |s| == |t|
    ensures s + [x.l0, x.l1, x.l2, x.l3] == t + [y.l0, y.l1, y.l2, y.l3] <==> s == t && x == y
  {
    var p, q := s + [x.l0, x.l1, x.l2, x.l3], t + [y.l0, y.l1, y.l2, y.l3];
    if p == q {
      assert s == p[..|s|] == q[..|s|] == t;
      assert p[|s|] == x.l0 && p[|s| + 1] == x.l1 && p[|s| + 2] == x.l2 && p[|s| + 3] == x.l3;
    }
  }

  lemma {:induction false} LastRegister(d: seq<nat>, n: nat)
    requires Words(d, M32) && 0 < n && 4 * n <= |d|
    ensures Desc32(d, n)[4 * n - 1] == Desc32At(d, n - 1).l3
  {
    hide DescStep, Desc32At;
  }

  /**
    The 32-bit descending decoder subtracts in 64-bit lanes. On a whole number of registers it undoes
    the descending coding of v exactly when, in every register, neither even lane of v exceeds the value
    carried into the register.
   */
  lemma {:induction false} Desc32ExactIff(v: seq<nat>)
    requires Words(v, M32) && |v| % 4 == 0
    ensures Desc32(DescDeltas(v, M32), |v| / 4) == v <==> NoBorrowBelow(v, |v| / 4)
  {
    hide *;
    DescPrefixExact(v, |v| / 4);
    assert v[..4 * (|v| / 4)] == v;
  }

  lemma {:induction false} NonincreasingNoBorrow(v: seq<nat>, n: nat)
    requires 4 * n <= |v|
    requires forall i, j :: 0 <= i < j < |v| ==> v[j] <= v[i]
    ensures NoBorrowBelow(v, n)
  {
    if n > 0 {
      NonincreasingNoBorrow(v, n - 1);
    }
  }

  /** On nonincreasing data, the only data it is used for, it is always exact. */
  lemma {:induction false} Desc32ExactOnNonincreasing(v: seq<nat>)
    requires Words(v, M32) && |v| % 4 == 0
    requires forall i, j :: 0 <= i < j < |v| ==> v[j] <= v[i]
    ensures Desc32(DescDeltas(v, M32), |v| / 4) == v
  {
    NonincreasingNoBorrow(v, |v| / 4);
    Desc32ExactIff(v);
  }

  /** A sequence that the vector form decodes wrongly although the scalar form decodes it: 0, 0, 1, 0. */
  lemma {:induction false} Desc32NotAlwaysExact()
    ensures Words([0, 0, 1, 0], M32)
    ensures Desc32(DescDeltas([0, 0, 1, 0], M32), 1) != [0, 0, 1, 0]
    ensures DescSums(DescDeltas([0, 0, 1, 0], M32), M32) == [0, 0, 1, 0]
  {
    hide *;
    var v: seq<nat> := [0, 0, 1, 0];
    OneBorrows(v);
    DescendingRoundTrip(v, M32);
    Desc32ExactIff(v);
  }

  lemma {:induction false} OneBorrows(v: seq<nat>)
    requires v == [0, 0, 1, 0]
    ensures Words(v, M32) && !NoBorrowBelow(v, |v| / 4)
  {
    assert !NoBorrow(v, 0);
  }
}
