/**
  Pruning with the min/max trees (columnar/columnar.cpp, MinMaxEval_T, EstimateMinMax and EarlyReject): the
  trees of several columns are descended together, and a tester decides from the bounds of the columns
  whether a block may hold matching rows.
 */
module MinMaxEval {
  import opened MinMaxTree
  import opened Shifts

  /** A column that takes part: its tree, top level first, and the slot its bounds go to. */
  datatype Header = Header(tops: seq<seq<MinMax>>, locator: nat)

  datatype Limits = NoLimits | RowIds(min: nat, max: nat)

  /** Everything a descent depends on. leafShift is the binary logarithm of the rows per leaf. */
  datatype Query = Query(hs: seq<Header>, slots: nat, test: seq<MinMax> -> bool, stop: nat, limits: Limits,
      leafShift: nat)

  // ---------------------------------------------------------------- well-formed queries

  function Levels(q: Query): nat {
    if q.hs == [] then 0 else |q.hs[0].tops|
  }

  /** The number of blocks on a level, counted from the top. */
  function Size(q: Query, level: nat): nat
    requires level < Levels(q)
  {
    |q.hs[0].tops[level]|
  }

  /** The columns have trees of the same shape, and bounds widen on the way up. */
  ghost predicate Good(q: Query) {
    && q.hs != [] && q.stop < Levels(q)
    && (forall h :: 0 <= h < |q.hs| ==> q.hs[h].locator < q.slots && |q.hs[h].tops| == Levels(q))
    && (forall h, l :: 0 <= h < |q.hs| && 0 <= l < Levels(q) ==> |q.hs[h].tops[l]| == Size(q, l))
    && (forall h :: 0 <= h < |q.hs| ==> Widens(q.hs[h].tops))
    && Size(q, 0) <= 1
    && (q.limits.RowIds? ==> q.stop == Levels(q) - 1 && Shl(1, Levels(q) - 1 + q.leafShift) <= 0x1_0000_0000)
  }

  /** Each block covers the two blocks below it, and half as many blocks are above. */
  ghost predicate Widens(tops: seq<seq<MinMax>>) {
    forall l: nat {:trigger tops[l]} :: l < |tops| - 1 ==> WidensAt(tops[l], tops[l + 1])
  }

  ghost predicate WidensAt(up: seq<MinMax>, down: seq<MinMax>) {
    |up| == (|down| + 1) / 2 && forall k: nat :: k < |down| ==> Covers(up[k / 2], down[k])
  }

  /** The tree that is built over leaves, top level first, widens. */
  lemma {:induction false} TreeWidens(leaves: seq<MinMax>)
    ensures Widens(Reversed(TreeOf(leaves))) && |Reversed(TreeOf(leaves))[0]| <= 1
    ensures Reversed(TreeOf(leaves))[|TreeOf(leaves)| - 1] == leaves
  {
    TreeOfIsTree(leaves);
    var levels := TreeOf(leaves);
    var tops := Reversed(levels);
    hide TreeOf;
    forall l: nat | l < |tops| - 1 ensures WidensAt(tops[l], tops[l + 1]) {
      var m := |levels| - 2 - l;
      assert tops[l + 1] == levels[m] && tops[l] == levels[m + 1];
      assert levels[m + 1] == Up(levels[m]);
      UpWidens(levels[m]);
    }
  }

  lemma {:induction false} UpWidens(level: seq<MinMax>)
    ensures WidensAt(Up(level), level)
  {
    var up := Up(level);
    forall k: nat | k < |level| ensures Covers(up[k / 2], level[k]) {
      var i := k / 2;
      assert k == 2 * i || k == 2 * i + 1;
      assert up[i] == if 2 * i + 1 < |level| then Merge(level[2 * i], level[2 * i + 1]) else level[2 * i];
    }
  }

  /** The tester does not reject wider bounds than it accepts. */
  ghost predicate Monotone(test: seq<MinMax> -> bool) {
    forall a, b :: CoversAll(a, b) && test(b) ==> test(a)
  }

  ghost predicate CoversAll(a: seq<MinMax>, b: seq<MinMax>) {
    |a| == |b| && forall i :: 0 <= i < |a| ==> Covers(a[i], b[i])
  }

  // ---------------------------------------------------------------- what a linear scan accepts

  function Zeroes(n: nat): (r: seq<MinMax>)
    ensures |r| == n
  {
    seq(n, _ => MinMax(0, 0))
  }

  /** The bounds of the first n columns at a block, each in its slot. */
  ghost function Filled(q: Query, level: nat, block: nat, n: nat): (r: seq<MinMax>)
    requires Good(q) && level < Levels(q) && block < Size(q, level) && n <= |q.hs|
    ensures |r| == q.slots
  {
    if n == 0 then Zeroes(q.slots)
    else Filled(q, level, block, n - 1)[q.hs[n - 1].locator := q.hs[n - 1].tops[level][block]]
  }

  ghost predicate Accepts(q: Query, level: nat, block: nat)
    requires Good(q) && level < Levels(q)
  {
    block < Size(q, level) && q.test(Filled(q, level, block, |q.hs|))
  }

  /** Block k of the stop level matches: the tester accepts it and its rows meet the row limits. */
  ghost predicate Matches(q: Query, k: nat)
    requires Good(q)
  {
    Accepts(q, q.stop, k) &&
    (q.limits.RowIds? ==> Shl(k, q.leafShift) <= q.limits.max && q.limits.min <= Shl(k + 1, q.leafShift) - 1)
  }

  /** A linear scan: the matching blocks from lo up to hi. */
  ghost function Scan(q: Query, lo: nat, hi: nat): seq<nat>
    requires Good(q)
    decreases hi
  {
    if hi <= lo then [] else Scan(q, lo, hi - 1) + (if Matches(q, hi - 1) then [hi - 1] else [])
  }

  lemma {:induction false} ScanSplit(q: Query, lo: nat, mid: nat, hi: nat)
    requires Good(q) && lo <= mid <= hi
    ensures Scan(q, lo, hi) == Scan(q, lo, mid) + Scan(q, mid, hi)
    decreases hi
  {
    hide Good, Matches;
    if mid < hi {
      ScanSplit(q, lo, mid, hi - 1);
    }
  }

  lemma {:induction false} ScanNothing(q: Query, lo: nat, hi: nat)
    requires Good(q) && forall k: nat :: lo <= k < hi ==> !Matches(q, k)
    ensures Scan(q, lo, hi) == []
    decreases hi
  {
    hide Good, Matches;
    if lo < hi {
      ScanNothing(q, lo, hi - 1);
    }
  }

  /** The scan lists exactly the matches, ascending and without repeats. */
  lemma {:induction false} ScanExact(q: Query, lo: nat, hi: nat)
    requires Good(q)
    ensures forall k: nat :: k in Scan(q, lo, hi) <==> lo <= k < hi && Matches(q, k)
    ensures forall i, j :: 0 <= i < j < |Scan(q, lo, hi)| ==> Scan(q, lo, hi)[i] < Scan(q, lo, hi)[j]
    decreases hi
  {
    hide Good, Matches;
    if lo < hi {
      ScanExact(q, lo, hi - 1);
      var front := Scan(q, lo, hi - 1);
      forall i | 0 <= i < |front| ensures front[i] < hi - 1 {
        assert front[i] in front;
      }
    }
  }

  // ---------------------------------------------------------------- a block and the blocks below it

  lemma {:induction false} FilledCovers(q: Query, level: nat, block: nat, n: nat)
    requires Good(q) && level + 1 < Levels(q) && block < Size(q, level + 1) && n <= |q.hs|
    ensures block / 2 < Size(q, level)
    ensures CoversAll(Filled(q, level, block / 2, n), Filled(q, level + 1, block, n))
  {
    assert Widens(q.hs[0].tops) && WidensAt(q.hs[0].tops[level], q.hs[0].tops[level + 1]);
    if n > 0 {
      FilledCovers(q, level, block, n - 1);
      var tops := q.hs[n - 1].tops;
      assert Widens(tops) && WidensAt(tops[level], tops[level + 1]);
      assert Covers(tops[level][block / 2], tops[level + 1][block]);
      hide Good, Filled, Covers;
      SetCovers(Filled(q, level, block / 2, n - 1), Filled(q, level + 1, block, n - 1), q.hs[n - 1].locator,
          tops[level][block / 2], tops[level + 1][block]);
    }
  }

  lemma {:induction false} SetCovers(a: seq<MinMax>, b: seq<MinMax>, i: nat, x: MinMax, y: MinMax)
    requires CoversAll(a, b) && i < |a| && Covers(x, y)
    ensures CoversAll(a[i := x], b[i := y])
  {
    hide Covers;
  }

  /** What is accepted below is accepted above. */
  lemma {:induction false} AcceptedAbove(q: Query, level: nat, block: nat)
    requires Good(q) && Monotone(q.test) && level + 1 < Levels(q) && Accepts(q, level + 1, block)
    ensures Accepts(q, level, block / 2)
  {
    FilledCovers(q, level, block, |q.hs|);
    hide Good, Filled, CoversAll;
  }

  /** A block that is accepted makes its ancestors accepted. */
  lemma {:induction false} AncestorAccepted(q: Query, level: nat, d: nat, block: nat, k: nat)
    requires Good(q) && Monotone(q.test) && level + d < Levels(q) && Below(block, d, k) && Accepts(q, level + d, k)
    ensures Accepts(q, level, block)
    decreases d
  {
    hide *;
    if d == 0 {
      BelowSelf(block, k);
    } else {
      BelowSplit(block, d, k);
      var child := if Below(2 * block, d - 1, k) then 2 * block else 2 * block + 1;
      AncestorAccepted(q, level + 1, d - 1, child, k);
      AcceptedAbove(q, level, child);
    }
  }

  // ---------------------------------------------------------------- the part of a scan below a block

  /** The matching blocks of the stop level below a block. */
  ghost function Part(q: Query, level: nat, block: nat): seq<nat>
    requires Good(q) && level <= q.stop
  {
    Scan(q, Shl(block, q.stop - level), Shl(block + 1, q.stop - level))
  }

  lemma {:induction false} PartIs(q: Query, level: nat, block: nat)
    requires Good(q) && level <= q.stop
    ensures Part(q, level, block) == Scan(q, Shl(block, q.stop - level), Shl(block + 1, q.stop - level))
  {
    hide Good, Scan, Shl;
  }

  lemma {:induction false} MatchesAccepts(q: Query, k: nat)
    requires Good(q)
    ensures Matches(q, k) ==> Accepts(q, q.stop, k)
  {
    hide Accepts;
  }

  lemma {:induction false} StopBound(q: Query)
    requires Good(q)
    ensures q.stop <= Levels(q) - 1
  {
  }

  lemma {:induction false} NotAccepted(q: Query, level: nat, block: nat)
    requires Good(q) && Monotone(q.test) && level <= q.stop && !Accepts(q, level, block)
    ensures Part(q, level, block) == []
  {
    hide *;
    var d := q.stop - level;
    StopBound(q);
    forall k: nat | Shl(block, d) <= k < Shl(block + 1, d) ensures !Matches(q, k) {
      MatchesAccepts(q, k);
      if Accepts(q, q.stop, k) {
        InBelow(block, d, k);
        AncestorAccepted(q, level, d, block, k);
      }
    }
    ScanNothing(q, Shl(block, d), Shl(block + 1, d));
    PartIs(q, level, block);
  }

  lemma {:induction false} PartSplit(q: Query, level: nat, block: nat)
    requires Good(q) && level < q.stop
    ensures Part(q, level, block) == Part(q, level + 1, 2 * block) + Part(q, level + 1, 2 * block + 1)
  {
    hide Good;
    var d := q.stop - level - 1;
    ShlGrows(2 * block, 2 * block + 1, d);
    ShlGrows(2 * block + 1, 2 * block + 2, d);
    ScanSplit(q, Shl(2 * block, d), Shl(2 * block + 1, d), Shl(2 * block + 2, d));
  }

  lemma {:induction false} PartLeaf(q: Query, block: nat)
    requires Good(q)
    ensures Part(q, q.stop, block) == if Matches(q, block) then [block] else []
  {
    hide Good, Matches;
    assert Scan(q, block, block) == [];
  }

  // ---------------------------------------------------------------- row limits

  /** The rowid at which a block of a level starts, as a 32-bit number. */
  function StartRow(q: Query, level: nat, block: nat): nat
    requires level < Levels(q)
  {
    Shl(block, Levels(q) - level - 1 + q.leafShift) % 0x1_0000_0000
  }

  /** The last rowid of a block, computed in 32 bits. */
  function LastRow(q: Query, level: nat, block: nat): nat
    requires level < Levels(q)
  {
    (StartRow(q, level, block + 1) - 1) % 0x1_0000_0000
  }

  predicate RangesOverlap(l: Limits, min: nat, max: nat)
    requires l.RowIds?
  {
    min <= l.max && max >= l.min
  }

  lemma {:induction false} SizesBounded(q: Query, level: nat)
    requires Good(q) && level < Levels(q)
    ensures Size(q, level) <= Shl(1, level)
  {
    if level > 0 {
      SizesBounded(q, level - 1);
      assert Widens(q.hs[0].tops) && WidensAt(q.hs[0].tops[level - 1], q.hs[0].tops[level]);
      hide Good, Widens, WidensAt;
      DoubleLast(level);
    }
  }

  /** The rows of a block that exists are within 32 bits, so their numbers do not wrap. */
  lemma {:induction false} RowsOfBlock(q: Query, level: nat, block: nat)
    requires Good(q) && q.limits.RowIds? && level < Levels(q) && block < Size(q, level)
    ensures var s := Levels(q) - level - 1 + q.leafShift;
            Shl(block, s) < Shl(block + 1, s) && StartRow(q, level, block) == Shl(block, s) &&
                LastRow(q, level, block) == Shl(block + 1, s) - 1
  {
    var s := Levels(q) - level - 1 + q.leafShift;
    SizesBounded(q, level);
    assert Shl(1, Levels(q) - 1 + q.leafShift) <= 0x1_0000_0000 && block + 1 <= Shl(1, level);
    hide Good, Size;
    ShlGrows(block + 1, Shl(1, level), s);
    ShlTwice(1, level, s);
    ShlStrict(block, s);
    var r := Shl(block + 1, s);
    assert 0 < r <= 0x1_0000_0000 && Shl(block, s) < 0x1_0000_0000;
    LastOf(r);
  }

  lemma {:induction false} LastOf(r: nat)
    requires 0 < r <= 0x1_0000_0000
    ensures (r % 0x1_0000_0000 - 1) % 0x1_0000_0000 == r - 1
  {
  }

  lemma {:induction false} LeafOutside(q: Query, level: nat, block: nat, k: nat)
    requires Good(q) && q.limits.RowIds? && level <= q.stop && block < Size(q, level) && Below(block, q.stop - level, k)
    requires !RangesOverlap(q.limits, StartRow(q, level, block), LastRow(q, level, block))
    ensures !Matches(q, k)
  {
    hide *;
    var d := q.stop - level;
    StopFacts(q);
    InBelow(block, d, k);
    RowsOfBlock(q, level, block);
    LimitsMet(q, k);
    ShlGrows(Shl(block, d), k, q.leafShift);
    ShlTwice(block, d, q.leafShift);
    ShlGrows(k + 1, Shl(block + 1, d), q.leafShift);
    ShlTwice(block + 1, d, q.leafShift);
    Overlap(q.limits, StartRow(q, level, block), LastRow(q, level, block));
  }

  lemma {:induction false} StopFacts(q: Query)
    requires Good(q) && q.limits.RowIds?
    ensures q.stop == Levels(q) - 1
  {
  }

  lemma {:induction false} Overlap(l: Limits, min: nat, max: nat)
    requires l.RowIds?
    ensures RangesOverlap(l, min, max) <==> min <= l.max && max >= l.min
  {
  }

  lemma {:induction false} LimitsMet(q: Query, k: nat)
    requires Good(q) && q.limits.RowIds?
    ensures Matches(q, k) ==> Shl(k, q.leafShift) <= q.limits.max && q.limits.min <= Shl(k + 1, q.leafShift) - 1
  {
    hide Good, Accepts, Shl;
  }

  /** A block whose rows do not meet the limits has no match below it. */
  lemma {:induction false} OutsideLimits(q: Query, level: nat, block: nat)
    requires Good(q) && Monotone(q.test) && q.limits.RowIds? && level <= q.stop
    requires !RangesOverlap(q.limits, StartRow(q, level, block), LastRow(q, level, block))
    ensures Part(q, level, block) == []
  {
    hide *;
    StopFacts(q);
    AcceptsInside(q, level, block);
    PartIs(q, level, block);
    if block < Size(q, level) {
      forall k: nat | Shl(block, q.stop - level) <= k < Shl(block + 1, q.stop - level) ensures !Matches(q, k) {
        InBelow(block, q.stop - level, k);
        LeafOutside(q, level, block, k);
      }
      ScanNothing(q, Shl(block, q.stop - level), Shl(block + 1, q.stop - level));
    } else {
      NotAccepted(q, level, block);
    }
  }

  lemma {:induction false} AcceptsInside(q: Query, level: nat, block: nat)
    requires Good(q) && level < Levels(q)
    ensures Accepts(q, level, block) ==> block < Size(q, level)
  {
  }

  // ---------------------------------------------------------------- which blocks are tested

  datatype Node = Node(level: nat, block: nat)

  /** The rows of a block meet the row limits, by 32-bit row numbers. */
  ghost predicate InLimits(q: Query, level: nat, block: nat)
    requires level < Levels(q)
  {
    q.limits.RowIds? ==> RangesOverlap(q.limits, StartRow(q, level, block), LastRow(q, level, block))
  }

  /** The blocks tested from a block on, in the order of the descent. */
  ghost function Tests(q: Query, level: nat, block: nat): seq<Node>
    requires Good(q) && level <= q.stop
    decreases q.stop - level, 0
  {
    if block >= Size(q, level) then []
    else if level == q.stop || !Accepts(q, level, block) then [Node(level, block)]
    else [Node(level, block)] + ChildTests(q, level + 1, 2 * block) + ChildTests(q, level + 1, 2 * block + 1)
  }

  ghost function ChildTests(q: Query, level: nat, block: nat): seq<Node>
    requires Good(q) && level <= q.stop
    decreases q.stop - level, 1
  {
    if InLimits(q, level, block) then Tests(q, level, block) else []
  }

  /** Block k of level m has to be tested on the way down from a block: the block above it is accepted. */
  ghost predicate MustTest(q: Query, level: nat, block: nat, m: nat, k: nat)
    requires Good(q)
  {
    && level <= m <= q.stop && Below(block, m - level, k) && k < Size(q, m)
    && (m > level ==> Accepts(q, m - 1, k / 2) && InLimits(q, m, k))
  }

  lemma {:induction false} InLimitsIs(q: Query, level: nat, block: nat)
    requires Good(q) && level < Levels(q) && block < Size(q, level)
    ensures var s := Levels(q) - level - 1 + q.leafShift;
            InLimits(q, level, block) <==>
            (q.limits.RowIds? ==> Shl(block, s) <= q.limits.max && q.limits.min <= Shl(block + 1, s) - 1)
  {
    if q.limits.RowIds? {
      RowsOfBlock(q, level, block);
      hide Good, Size, StartRow, LastRow, Shl;
    }
  }

  lemma {:induction false} LimitsWiden(q: Query, level: nat, block: nat, m: nat, k: nat)
    requires Good(q) && level <= m < Levels(q) && Below(block, m - level, k) && k < Size(q, m) && block < Size(q, level)
    requires InLimits(q, m, k)
    ensures InLimits(q, level, block)
  {
    hide *;
    InLimitsIs(q, level, block);
    InLimitsIs(q, m, k);
    var s := Levels(q) - m - 1 + q.leafShift;
    InBelow(block, m - level, k);
    ShlGrows(Shl(block, m - level), k, s);
    ShlTwice(block, m - level, s);
    ShlGrows(k + 1, Shl(block + 1, m - level), s);
    ShlTwice(block + 1, m - level, s);
    assert m - level + s == Levels(q) - level - 1 + q.leafShift;
  }

  lemma {:induction false} HalfBelow(block: nat, d: nat, k: nat)
    requires d > 0 && Below(block, d, k)
    ensures Below(block, d - 1, k / 2)
  {
    ShlTwice(block, d - 1, 1);
    ShlTwice(block + 1, d - 1, 1);
    assert Shl(Shl(block, d - 1), 1) == 2 * Shl(block, d - 1);
    assert Shl(Shl(block + 1, d - 1), 1) == 2 * Shl(block + 1, d - 1);
  }

  /** A block to be tested below another one is to be tested below the child on its side, which is gone to. */
  lemma {:induction false} MustTestChild(q: Query, level: nat, block: nat, m: nat, k: nat, child: nat)
    requires Good(q) && Monotone(q.test) && level < q.stop && level < m && child in {2 * block, 2 * block + 1}
    requires Below(child, m - level - 1, k)
    ensures MustTest(q, level, block, m, k) <==>
              Accepts(q, level, block) && InLimits(q, level + 1, child) && MustTest(q, level + 1, child, m, k)
  {
    hide *;
    StopBound(q);
    BelowSplit(block, m - level, k);
    HalfBelow(block, m - level, k);
    MustTestIs(q, level, block, m, k);
    MustTestIs(q, level + 1, child, m, k);
    if m == level + 1 {
      BelowSelf(child, k);
    } else {
      HalfBelow(child, m - level - 1, k);
      AcceptsInside(q, level + 1, child);
      if m <= q.stop && Accepts(q, m - 1, k / 2) {
        AncestorAccepted(q, level, m - 1 - level, block, k / 2);
        AncestorAccepted(q, level + 1, m - 2 - level, child, k / 2);
        if k < Size(q, m) && InLimits(q, m, k) {
          LimitsWiden(q, level + 1, child, m, k);
        }
      }
    }
  }

  lemma {:induction false} MustTestIs(q: Query, level: nat, block: nat, m: nat, k: nat)
    requires Good(q) && level <= m && q.stop < Levels(q)
    ensures MustTest(q, level, block, m, k) <==>
              m <= q.stop && Below(block, m - level, k) && k < Size(q, m) &&
              (m > level ==> Accepts(q, m - 1, k / 2) && InLimits(q, m, k))
  {
    hide Good, Below, Size, Accepts, InLimits;
  }

  /** The blocks tested are exactly those that have to be. */
  lemma {:induction false} TestsExact(q: Query, level: nat, block: nat, m: nat, k: nat)
    requires Good(q) && Monotone(q.test) && level <= q.stop
    ensures Node(m, k) in Tests(q, level, block) <==> MustTest(q, level, block, m, k)
    decreases q.stop - level, 0
  {
    hide *;
    StopBound(q);
    AcceptsInside(q, level, block);
    TestsIs(q, level, block);
    if m > level {
      InsideStop(q, level, block, m, k);
    } else {
      OnTop(q, level, block, m, k);
    }
    if level < q.stop {
      ChildTestsExact(q, level + 1, 2 * block, m, k);
      ChildTestsExact(q, level + 1, 2 * block + 1, m, k);
      if m > level {
        ThroughChild(q, level, block, m, k);
      } else {
        NotBelow(q, level + 1, 2 * block, m, k);
        NotBelow(q, level + 1, 2 * block + 1, m, k);
      }
    }
  }

  lemma {:induction false} ChildTestsExact(q: Query, level: nat, block: nat, m: nat, k: nat)
    requires Good(q) && Monotone(q.test) && level <= q.stop < Levels(q)
    ensures Node(m, k) in ChildTests(q, level, block) <==> InLimits(q, level, block) && MustTest(q, level, block, m, k)
    decreases q.stop - level, 1
  {
    hide Good, Monotone, InLimits, MustTest, Tests;
    if InLimits(q, level, block) {
      TestsExact(q, level, block, m, k);
    }
  }

  lemma {:induction false} TestsIs(q: Query, level: nat, block: nat)
    requires Good(q) && level <= q.stop < Levels(q)
    ensures forall n :: n in Tests(q, level, block) <==>
                    block < Size(q, level) && (n == Node(level, block) ||
                    (level < q.stop && Accepts(q, level, block) &&
                     (n in ChildTests(q, level + 1, 2 * block) || n in ChildTests(q, level + 1, 2 * block + 1))))
  {
    hide Good, Accepts, ChildTests, Size;
  }

  lemma {:induction false} InsideStop(q: Query, level: nat, block: nat, m: nat, k: nat)
    requires Good(q) && level <= q.stop && level < m
    ensures level == q.stop ==> !MustTest(q, level, block, m, k)
  {
  }

  lemma {:induction false} NotBelow(q: Query, level: nat, block: nat, m: nat, k: nat)
    requires Good(q) && m < level
    ensures !MustTest(q, level, block, m, k)
  {
  }

  /** A block is to be tested exactly when it is below a child of an accepted block, which is gone to. */
  lemma {:induction false} ThroughChild(q: Query, level: nat, block: nat, m: nat, k: nat)
    requires Good(q) && Monotone(q.test) && level < q.stop < Levels(q) && level < m
    ensures MustTest(q, level, block, m, k) <==>
              Accepts(q, level, block) &&
              ((InLimits(q, level + 1, 2 * block) && MustTest(q, level + 1, 2 * block, m, k)) ||
               (InLimits(q, level + 1, 2 * block + 1) && MustTest(q, level + 1, 2 * block + 1, m, k)))
  {
    hide *;
    BelowSplit(block, m - level, k);
    MustBeBelow(q, level, block, m, k);
    MustBeBelow(q, level + 1, 2 * block, m, k);
    MustBeBelow(q, level + 1, 2 * block + 1, m, k);
    if Below(2 * block, m - level - 1, k) {
      MustTestChild(q, level, block, m, k, 2 * block);
    }
    if Below(2 * block + 1, m - level - 1, k) {
      MustTestChild(q, level, block, m, k, 2 * block + 1);
    }
  }

  lemma {:induction false} MustBeBelow(q: Query, level: nat, block: nat, m: nat, k: nat)
    requires Good(q) && level <= m
    ensures MustTest(q, level, block, m, k) ==> Below(block, m - level, k)
  {
    hide Below;
  }

  lemma {:induction false} OnTop(q: Query, level: nat, block: nat, m: nat, k: nat)
    requires Good(q) && level <= q.stop && m <= level
    ensures MustTest(q, level, block, m, k) <==> m == level && k == block && block < Size(q, level)
  {
    if m == level {
      BelowSelf(block, k);
    }
  }

  ghost predicate Once(s: seq<Node>) {
    forall i, j :: 0 <= i < j < |s| ==> s[i] != s[j]
  }

  lemma {:induction false} JoinOnce(a: seq<Node>, b: seq<Node>)
    requires Once(a) && Once(b) && forall n :: n in a ==> n !in b
    ensures Once(a + b)
  {
    var s := a + b;
    forall i, j | 0 <= i < j < |s| ensures s[i] != s[j] {
      if i < |a| <= j {
        assert s[i] in a && s[j] in b;
      }
    }
  }

  /** No block is tested twice. */
  lemma {:induction false} TestsOnce(q: Query, level: nat, block: nat)
    requires Good(q) && Monotone(q.test) && level <= q.stop < Levels(q)
    ensures Once(Tests(q, level, block))
    decreases q.stop - level
  {
    hide *;
    TestsDef(q, level, block);
    FewOnce(Node(level, block));
    if level < q.stop {
      var left, right := ChildTests(q, level + 1, 2 * block), ChildTests(q, level + 1, 2 * block + 1);
      ChildTestsDef(q, level + 1, 2 * block);
      ChildTestsDef(q, level + 1, 2 * block + 1);
      TestsOnce(q, level + 1, 2 * block);
      TestsOnce(q, level + 1, 2 * block + 1);
      forall n | n in left ensures n.level > level && n !in right {
        OtherSide(q, level + 1, 2 * block, n);
      }
      forall n | n in right ensures n.level > level {
        ChildTestsExact(q, level + 1, 2 * block + 1, n.level, n.block);
        MustBeLower(q, level + 1, 2 * block + 1, n.level, n.block);
      }
      JoinOnce([Node(level, block)], left);
      JoinOnce([Node(level, block)] + left, right);
    }
  }

  lemma {:induction false} FewOnce(n: Node)
    ensures Once([]) && Once([n])
  {
  }

  lemma {:induction false} MustBeLower(q: Query, level: nat, block: nat, m: nat, k: nat)
    requires Good(q)
    ensures MustTest(q, level, block, m, k) ==> level <= m
  {
  }

  /** What is tested below a block is not tested below the next one. */
  lemma {:induction false} OtherSide(q: Query, level: nat, block: nat, n: Node)
    requires Good(q) && Monotone(q.test) && level <= q.stop < Levels(q) && n in ChildTests(q, level, block)
    ensures n.level >= level && n !in ChildTests(q, level, block + 1)
  {
    hide *;
    var m, k := n.level, n.block;
    assert n == Node(m, k);
    ChildTestsExact(q, level, block, m, k);
    ChildTestsExact(q, level, block + 1, m, k);
    MustBeLower(q, level, block, m, k);
    MustBeBelow(q, level, block, m, k);
    MustBeBelow(q, level, block + 1, m, k);
    InBelow(block, m - level, k);
    InBelow(block + 1, m - level, k);
  }

  /**
    Pruning: the descent tests a block below the top exactly when the tester has accepted the block above it and its
    rows meet the row limits, and no block twice.
   */
  lemma {:induction false} PruningExact(q: Query, m: nat, k: nat)
    requires Good(q) && Monotone(q.test) && m <= q.stop && k < Size(q, m)
    ensures Node(m, k) in Tests(q, 0, 0) <==> (m > 0 ==> Accepts(q, m - 1, k / 2) && InLimits(q, m, k))
    ensures Once(Tests(q, 0, 0))
  {
    hide *;
    StopBound(q);
    TestsOnce(q, 0, 0);
    TestsExact(q, 0, 0, m, k);
    MustTestIs(q, 0, 0, m, k);
    SizesBounded(q, m);
    ShlZero(m);
    InBelow(0, m, k);
  }

  // ---------------------------------------------------------------- the descent

  class MinMaxEval {
    const q: Query
    const count: bool                 // whether matches are only counted
    var dMinMax: seq<MinMax>          // bounds of the columns at the current block
    var matching: seq<nat>            // the matching blocks found
    var total: nat                    // their number, when counting
    ghost var tested: seq<Node>       // the blocks tested

    ghost predicate Valid()
      reads this
    {
      Good(q) && Monotone(q.test) && |dMinMax| == q.slots && OtherSlots(q, dMinMax) && (count ==> q.limits.NoLimits?)
    }

    constructor (q: Query, count: bool)
      requires Good(q) && Monotone(q.test) && (count ==> q.limits.NoLimits?)
      ensures this.q == q && this.count == count && matching == [] && total == 0 && tested == [] && Valid()
    {
      hide Good, Monotone;
      this.q, this.count := q, count;
      dMinMax := Zeroes(q.slots);
      matching, total, tested := [], 0, [];
    }

    /** FillMinMax: the bounds of all columns at a block; false when there is no such block. */
    method FillMinMax(level: nat, block: nat) returns (ok: bool)
      requires Valid() && level < Levels(q)
      modifies this`dMinMax
      ensures Valid() && ok == (block < Size(q, level))
      ensures ok ==> dMinMax == Filled(q, level, block, |q.hs|)
    {
      hide *;
      QueryFacts();
      ShapeFacts(q, level);
      if block >= |q.hs[0].tops[level]| {
        return false;
      }
      FillStarts(q, level, block, dMinMax);
      var h := 0;
      while h < |q.hs|
        invariant 0 <= h <= |q.hs| && FilledUpTo(q, level, block, h, dMinMax)
      {
        FillStep(q, level, block, h, dMinMax);
        dMinMax := dMinMax[q.hs[h].locator := q.hs[h].tops[level][block]];
        h := h + 1;
      }
      FillEnds(q, level, block, dMinMax);
      IsValid();
      return true;
    }

    /** Eval: looks for matching blocks from the root. */
    method Eval()
      requires Valid()
      modifies this
      ensures Valid() && total == if count then |Part(q, 0, 0)| else 0
      ensures matching == if count then old(matching) else old(matching) + Part(q, 0, 0)
      ensures tested == old(tested) + Tests(q, 0, 0)
    {
      hide *;
      QueryFacts();
      total := 0;
      dMinMax := Zeroes(q.slots);
      ZeroSlots(q);
      IsValid();
      DoEval(0, 0);
    }

    /** EvalAll: whether the bounds of the whole columns are accepted. */
    method EvalAll() returns (ok: bool)
      requires Valid()
      modifies this`dMinMax
      ensures Valid() && ok == (Size(q, 0) == 0 || Accepts(q, 0, 0))
    {
      hide *;
      QueryFacts();
      AcceptsDef(q, 0, 0);
      dMinMax := Zeroes(q.slots);
      ZeroSlots(q);
      IsValid();
      var filled := FillMinMax(0, 0);
      if !filled {
        return true;
      }
      return q.test(dMinMax);
    }

    /** DoEval: the matching blocks below a block. */
    method DoEval(level: nat, block: nat)
      requires Valid() && level <= q.stop
      modifies this
      ensures Valid()
      ensures total == if count then old(total) + |Part(q, level, block)| else old(total)
      ensures matching == if count then old(matching) else old(matching) + Part(q, level, block)
      ensures tested == old(tested) + Tests(q, level, block)
      decreases q.stop - level, 0
    {
      hide *;
      QueryFacts();
      AcceptsDef(q, level, block);
      TestsDef(q, level, block);
      NothingAdded(tested);
      var ok := FillMinMax(level, block);
      if !ok {
        NotAccepted(q, level, block);
        NothingAdded(matching);
        return;
      }
      QueryFacts();
      tested := tested + [Node(level, block)];
      IsValid();
      if q.test(dMinMax) {
        if level == q.stop {
          LeafResult(block);
        } else {
          PartSplit(q, level, block);
          ghost var already := old(tested);
          EvalChildren(level + 1, 2 * block);
          AddedNode(already, Node(level, block), ChildTests(q, level + 1, 2 * block),
              ChildTests(q, level + 1, 2 * block + 1));
        }
      } else {
        NotAccepted(q, level, block);
        NothingAdded(matching);
      }
    }

    /** Goes on with the two blocks below an accepted one. */
    method EvalChildren(level: nat, left: nat)
      requires Valid() && level <= q.stop
      modifies this
      ensures Valid()
      ensures total == if count then old(total) + |Part(q, level, left) + Part(q, level, left + 1)| else old(total)
      ensures matching == if count then old(matching)
                          else old(matching) + (Part(q, level, left) + Part(q, level, left + 1))
      ensures tested == old(tested) + ChildTests(q, level, left) + ChildTests(q, level, left + 1)
      decreases q.stop - level, 2
    {
      hide *;
      QueryFacts();
      ghost var was := matching;
      var right := left + 1;
      EvalChild(level, left);
      EvalChild(level, right);
      PartsAdded(was, Part(q, level, left), Part(q, level, right));
    }

    /** A block of the stop level that the tester accepts; its rows may be outside the limits. */
    method LeafResult(block: nat)
      requires Valid() && Accepts(q, q.stop, block)
      modifies this`matching, this`total
      ensures Valid()
      ensures total == if count then old(total) + |Part(q, q.stop, block)| else old(total)
      ensures matching == if count then old(matching) else old(matching) + Part(q, q.stop, block)
    {
      hide *;
      QueryFacts();
      PartLeaf(q, block);
      MatchesDef(q, block);
      NothingAdded(matching);
      if q.limits.RowIds? {
        if RangesOverlap(q.limits, StartRow(q, q.stop, block), LastRow(q, q.stop, block)) {
          matching := matching + [block];
        }
      } else if count {
        total := total + 1;
      } else {
        matching := matching + [block];
      }
      IsValid();
    }

    /** Goes on with a child, unless its rows are outside the limits. */
    method EvalChild(level: nat, block: nat)
      requires Valid() && level <= q.stop
      modifies this
      ensures Valid()
      ensures total == if count then old(total) + |Part(q, level, block)| else old(total)
      ensures matching == if count then old(matching) else old(matching) + Part(q, level, block)
      ensures tested == old(tested) + ChildTests(q, level, block)
      decreases q.stop - level, 1
    {
      hide *;
      QueryFacts();
      ChildTestsDef(q, level, block);
      NothingAdded(tested);
      if q.limits.RowIds? {
        if RangesOverlap(q.limits, StartRow(q, level, block), LastRow(q, level, block)) {
          DoEval(level, block);
        } else {
          OutsideLimits(q, level, block);
          NothingAdded(matching);
        }
      } else {
        DoEval(level, block);
      }
    }

    lemma {:induction false} QueryFacts()
      requires Valid()
      ensures Good(q) && Monotone(q.test) && q.stop < Levels(q) && |dMinMax| == q.slots && OtherSlots(q, dMinMax)
      ensures count ==> q.limits.NoLimits?
    {
      hide Monotone;
    }

    lemma {:induction false} IsValid()
      requires Good(q) && Monotone(q.test) && |dMinMax| == q.slots && OtherSlots(q, dMinMax) &&
               (count ==> q.limits.NoLimits?)
      ensures Valid()
    {
      hide Monotone, Good;
    }
  }

  lemma {:induction false} NothingAdded<T>(s: seq<T>)
    ensures s + [] == s
  {
  }

  lemma {:induction false} PartsAdded<T>(s: seq<T>, a: seq<T>, b: seq<T>)
    ensures s + a + b == s + (a + b) && |a + b| == |a| + |b|
  {
  }

  lemma {:induction false} AddedNode(s: seq<Node>, n: Node, a: seq<Node>, b: seq<Node>)
    ensures s + [n] + a + b == s + ([n] + a + b)
  {
  }

  lemma {:induction false} TestsDef(q: Query, level: nat, block: nat)
    requires Good(q) && level <= q.stop < Levels(q)
    ensures Tests(q, level, block) ==
            if block >= Size(q, level) then []
            else if level == q.stop || !Accepts(q, level, block) then [Node(level, block)]
            else [Node(level, block)] + ChildTests(q, level + 1, 2 * block) + ChildTests(q, level + 1, 2 * block + 1)
  {
    hide Good, Accepts, ChildTests, Size;
  }

  lemma {:induction false} ChildTestsDef(q: Query, level: nat, block: nat)
    requires Good(q) && level <= q.stop < Levels(q)
    ensures ChildTests(q, level, block) ==
            if q.limits.RowIds? && !RangesOverlap(q.limits, StartRow(q, level, block), LastRow(q, level, block)) then []
            else Tests(q, level, block)
  {
    hide Good, StartRow, LastRow, Tests;
  }

  lemma {:induction false} ZeroSlots(q: Query)
    ensures |Zeroes(q.slots)| == q.slots && OtherSlots(q, Zeroes(q.slots))
  {
  }

  lemma {:induction false} AcceptsDef(q: Query, level: nat, block: nat)
    requires Good(q) && level < Levels(q)
    ensures Accepts(q, level, block) <==> block < Size(q, level) && q.test(Filled(q, level, block, |q.hs|))
  {
    hide Good, Filled;
  }

  /** On the last level the limits are compared with 32-bit row numbers. */
  lemma {:induction false} MatchesDef(q: Query, block: nat)
    requires Good(q) && Accepts(q, q.stop, block)
    ensures Matches(q, block) <==>
              (q.limits.RowIds? ==> RangesOverlap(q.limits, StartRow(q, q.stop, block), LastRow(q, q.stop, block)))
  {
    assert block < Size(q, q.stop);
    if q.limits.RowIds? {
      RowsOfBlock(q, q.stop, block);
      assert Levels(q) - q.stop - 1 + q.leafShift == q.leafShift;
    }
    hide Good, StartRow, LastRow, Accepts;
  }

  lemma {:induction false} ShapeFacts(q: Query, level: nat)
    requires Good(q) && level < Levels(q)
    ensures |q.hs| > 0 && level < |q.hs[0].tops| && |q.hs[0].tops[level]| == Size(q, level)
  {
  }

  /** One of the first n columns uses a slot. */
  ghost predicate HasSlot(q: Query, n: nat, i: nat) {
    exists g :: 0 <= g < n && g < |q.hs| && q.hs[g].locator == i
  }

  /** The slots of the first n columns have been filled. */
  ghost predicate FilledUpTo(q: Query, level: nat, block: nat, n: nat, bounds: seq<MinMax>) {
    && Good(q) && level < Levels(q) && block < Size(q, level) && n <= |q.hs| && |bounds| == q.slots
    && (forall i :: 0 <= i < q.slots && HasSlot(q, n, i) ==> bounds[i] == Filled(q, level, block, n)[i])
    && OtherSlots(q, bounds)
  }

  lemma {:induction false} FillStarts(q: Query, level: nat, block: nat, bounds: seq<MinMax>)
    requires Good(q) && level < Levels(q) && block < Size(q, level) && |bounds| == q.slots && OtherSlots(q, bounds)
    ensures FilledUpTo(q, level, block, 0, bounds)
  {
    hide Good, Filled, OtherSlots;
  }

  lemma {:induction false} FillStep(q: Query, level: nat, block: nat, h: nat, bounds: seq<MinMax>)
    requires FilledUpTo(q, level, block, h, bounds) && h < |q.hs|
    ensures q.hs[h].locator < |bounds| && level < |q.hs[h].tops| && block < |q.hs[h].tops[level]|
    ensures FilledUpTo(q, level, block, h + 1, bounds[q.hs[h].locator := q.hs[h].tops[level][block]])
  {
    assert q.hs[h].locator < q.slots && |q.hs[h].tops| == Levels(q) && |q.hs[h].tops[level]| == Size(q, level);
    var now := bounds[q.hs[h].locator := q.hs[h].tops[level][block]];
    var was, then_ := Filled(q, level, block, h), Filled(q, level, block, h + 1);
    assert then_ == was[q.hs[h].locator := q.hs[h].tops[level][block]];
    hide Good, Filled;
    forall i | 0 <= i < q.slots && HasSlot(q, h + 1, i) ensures now[i] == then_[i] {
      if i != q.hs[h].locator {
        assert HasSlot(q, h, i);
      }
    }
  }

  lemma {:induction false} FillEnds(q: Query, level: nat, block: nat, bounds: seq<MinMax>)
    requires FilledUpTo(q, level, block, |q.hs|, bounds)
    ensures bounds == Filled(q, level, block, |q.hs|) && OtherSlots(q, bounds)
  {
    FilledOthers(q, level, block, |q.hs|);
    hide Good, Filled;
    forall i | 0 <= i < q.slots ensures bounds[i] == Filled(q, level, block, |q.hs|)[i] {
      if !HasSlot(q, |q.hs|, i) {
        assert forall g :: 0 <= g < |q.hs| ==> q.hs[g].locator != i;
      }
    }
  }

  lemma {:induction false} FilledOthers(q: Query, level: nat, block: nat, n: nat)
    requires Good(q) && level < Levels(q) && block < Size(q, level) && n <= |q.hs|
    ensures OtherSlots(q, Filled(q, level, block, n))
  {
    hide Good;
    if n > 0 {
      FilledOthers(q, level, block, n - 1);
      FilledDef(q, level, block, n);
      hide Filled;
      SetOther(q, Filled(q, level, block, n - 1), n - 1, q.hs[n - 1].tops[level][block]);
    }
  }

  lemma {:induction false} FilledDef(q: Query, level: nat, block: nat, n: nat)
    requires Good(q) && level < Levels(q) && block < Size(q, level) && 0 < n <= |q.hs|
    ensures q.hs[n - 1].locator < q.slots && level < |q.hs[n - 1].tops| && block < |q.hs[n - 1].tops[level]|
    ensures Filled(q, level, block, n) == Filled(q, level, block,
            n - 1)[q.hs[n - 1].locator := q.hs[n - 1].tops[level][block]]
  {
  }

  lemma {:induction false} SetOther(q: Query, bounds: seq<MinMax>, g: nat, m: MinMax)
    requires OtherSlots(q, bounds) && g < |q.hs| && q.hs[g].locator < |bounds|
    ensures OtherSlots(q, bounds[q.hs[g].locator := m])
  {
  }


  /** Slots that no column uses stay zero. */
  ghost predicate OtherSlots(q: Query, bounds: seq<MinMax>) {
    forall i :: 0 <= i < |bounds| && (forall g :: 0 <= g < |q.hs| ==> q.hs[g].locator != i) ==>
            bounds[i] == MinMax(0, 0)
  }

  // ---------------------------------------------------------------- pruning equals scanning

  /** The descent from the root finds exactly what a linear scan of the stop level accepts. */
  lemma {:induction false} DescentIsScan(q: Query)
    requires Good(q) && Monotone(q.test)
    ensures Part(q, 0, 0) == Scan(q, 0, Size(q, q.stop))
    ensures forall k: nat :: k in Part(q, 0, 0) <==> Matches(q, k)
    ensures forall i, j :: 0 <= i < j < |Part(q, 0, 0)| ==> Part(q, 0, 0)[i] < Part(q, 0, 0)[j]
  {
    var n, m := Size(q, q.stop), Shl(1, q.stop);
    ShlZero(q.stop);
    SizesBounded(q, q.stop);
    assert forall k: nat :: n <= k ==> !Matches(q, k);
    hide Good, Matches, Size;
    ScanSplit(q, 0, n, m);
    ScanNothing(q, n, m);
    ScanExact(q, 0, n);
    NothingAdded(Scan(q, 0, n));
  }

  /** EarlyReject, which looks at the whole columns only, says yes only when no leaf is accepted. */
  lemma {:induction false} EarlyRejectSound(q: Query, k: nat)
    requires Good(q) && Monotone(q.test) && Size(q, 0) > 0 && !Accepts(q, 0, 0)
    ensures !Matches(q, k)
  {
    NotAccepted(q, 0, 0);
    DescentIsScan(q);
  }

  // ---------------------------------------------------------------- estimates

  /** EstimateMinMax: the query stops three levels early on deep trees. */
  function EstimateStop(levels: nat): nat {
    var last := if levels > 0 then levels - 1 else 0;
    if levels >= 8 then last - 3 else last
  }

  /** The same query, stopping at the leaves. */
  ghost function AtLeaves(q: Query): Query {
    q.(stop := if Levels(q) > 0 then Levels(q) - 1 else 0)
  }

  lemma {:induction false} AtLeavesGood(q: Query)
    requires Good(q) && q.limits.NoLimits?
    ensures Good(AtLeaves(q)) && Levels(AtLeaves(q)) == Levels(q)
  {
    var p := AtLeaves(q);
    hide Widens;
    assert forall l: nat :: l < Levels(q) ==> Size(p, l) == Size(q, l);
  }

  lemma {:induction false} LeafCovered(q: Query, p: Query, k: nat)
    requires Good(q) && Good(p) && p == AtLeaves(q) && Monotone(q.test) && q.limits.NoLimits? && Matches(p, k)
    ensures Matches(q, Above(k, Levels(q) - 1 - q.stop))
  {
    var d := Levels(q) - 1 - q.stop;
    AboveBelow(k, d);
    AncestorAccepted(p, q.stop, d, Above(k, d), k);
    SameFill(q, p, q.stop, Above(k, d), |q.hs|);
  }

  lemma {:induction false} SameFill(q: Query, p: Query, level: nat, block: nat, n: nat)
    requires Good(q) && Good(p) && p == AtLeaves(q) && level < Levels(q) && block < Size(q, level) && n <= |q.hs|
    ensures Filled(p, level, block, n) == Filled(q, level, block, n)
  {
    if n > 0 {
      SameFill(q, p, level, block, n - 1);
    }
  }

  lemma {:induction false} ScanLength(q: Query, lo: nat, hi: nat)
    requires Good(q) && lo <= hi
    ensures |Scan(q, lo, hi)| <= hi - lo
    decreases hi
  {
    hide Good, Matches;
    if lo < hi {
      ScanLength(q, lo, hi - 1);
    }
  }

  /**
    The accepted leaves below the first n blocks of the stop level are at most so many per accepted block as
    a block has leaves.
   */
  lemma {:induction false} LeavesCounted(q: Query, p: Query, n: nat)
    requires Good(q) && Good(p) && p == AtLeaves(q) && Monotone(q.test) && q.limits.NoLimits?
    ensures var d := Levels(q) - 1 - q.stop; |Scan(p, 0, Shl(n, d))| <= Shl(|Scan(q, 0, n)|, d)
  {
    hide *;
    var d := Levels(q) - 1 - q.stop;
    StopBound(q);
    if n == 0 {
      ShlZero(d);
      ScanEmpty(p);
    } else {
      LeavesCounted(q, p, n - 1);
      var lo, hi := Shl(n - 1, d), Shl(n, d);
      ShlSum(n - 1, 1, d);
      ScanSplit(p, 0, lo, hi);
      ScanLength(p, lo, hi);
      ScanPush(q, n);
      if Matches(q, n - 1) {
        ShlSum(|Scan(q, 0, n - 1)|, 1, d);
      } else {
        NothingCovered(q, p, n - 1);
      }
    }
  }

  lemma {:induction false} ScanEmpty(q: Query)
    requires Good(q)
    ensures Scan(q, 0, 0) == []
  {
  }

  lemma {:induction false} ScanPush(q: Query, n: nat)
    requires Good(q) && n > 0
    ensures |Scan(q, 0, n)| == |Scan(q, 0, n - 1)| + (if Matches(q, n - 1) then 1 else 0)
  {
    hide Good, Matches;
  }

  lemma {:induction false} NothingCovered(q: Query, p: Query, block: nat)
    requires Good(q) && Good(p) && p == AtLeaves(q) && Monotone(q.test) && q.limits.NoLimits? && !Matches(q, block)
    ensures var d := Levels(q) - 1 - q.stop; Scan(p, Shl(block, d), Shl(block + 1, d)) == []
  {
    hide *;
    StopBound(q);
    var d := Levels(q) - 1 - q.stop;
    forall k: nat | Shl(block, d) <= k < Shl(block + 1, d) ensures !Matches(p, k) {
      if Matches(p, k) {
        InBelow(block, d, k);
        AboveIs(block, d, k);
        LeafCovered(q, p, k);
      }
    }
    ScanNothing(p, Shl(block, d), Shl(block + 1, d));
  }

  /** The rows of a list of leaves. */
  function RowsOf(ks: seq<nat>, rows: nat -> nat): nat {
    if ks == [] then 0 else RowsOf(ks[..|ks| - 1], rows) + rows(ks[|ks| - 1])
  }

  lemma {:induction false} RowsAtMost(ks: seq<nat>, rows: nat -> nat, size: nat)
    requires forall k: nat :: rows(k) <= size
    ensures RowsOf(ks, rows) <= |ks| * size
  {
    if ks != [] {
      RowsAtMost(ks[..|ks| - 1], rows, size);
    }
  }

  /**
    The estimate, which is the number of accepted blocks of the stop level times the rows such a block may
    hold, is never below the number of rows in accepted leaves.
   */
  lemma {:induction false} EstimateNotBelow(q: Query, rows: nat -> nat, subblockSize: nat)
    requires Good(q) && Monotone(q.test) && q.limits.NoLimits? && q.stop == EstimateStop(Levels(q))
    requires forall k: nat :: rows(k) <= subblockSize
    ensures Good(AtLeaves(q))
    ensures RowsOf(Part(AtLeaves(q), 0, 0), rows) <= |Part(q, 0, 0)| * Shl(subblockSize,
            if Levels(q) >= 8 then 3 else 0)
  {
    hide *;
    var p := AtLeaves(q);
    var d := if Levels(q) >= 8 then 3 else 0;
    AtLeavesGood(q);
    EstimateParts(q);
    LeavesCounted(q, p, Shl(1, q.stop));
    var leaves, total := Part(p, 0, 0), |Part(q, 0, 0)|;
    RowsAtMost(leaves, rows, subblockSize);
    ShlProduct(total, subblockSize, d);
    ProductGrows(|leaves|, Shl(total, d), subblockSize);
  }

  lemma {:induction false} ProductGrows(a: nat, b: nat, c: nat)
    requires a <= b
    ensures a * c <= b * c
  {
  }

  lemma {:induction false} EstimateParts(q: Query)
    requires Good(q) && Good(AtLeaves(q)) && q.stop == EstimateStop(Levels(q))
    ensures var p, d := AtLeaves(q), if Levels(q) >= 8 then 3 else 0;
            d == Levels(q) - 1 - q.stop &&
            Part(q, 0, 0) == Scan(q, 0, Shl(1, q.stop)) && Part(p, 0, 0) == Scan(p, 0, Shl(Shl(1, q.stop), d))
  {
    var p := AtLeaves(q);
    ShlZero(q.stop);
    ShlZero(p.stop);
    ShlTwice(1, q.stop, if Levels(q) >= 8 then 3 else 0);
    hide Good, Scan, Shl;
  }

  // ---------------------------------------------------------------- queries over built trees

  /** The shape of a tree depends on the number of leaves only. */
  lemma {:induction false} SameShape(a: seq<MinMax>, b: seq<MinMax>)
    requires |a| == |b|
    ensures |TreeOf(a)| == |TreeOf(b)|
    ensures forall l :: 0 <= l < |TreeOf(a)| ==> |TreeOf(a)[l]| == |TreeOf(b)[l]|
    decreases |a|
  {
    if |a| > 1 {
      SameShape(Up(a), Up(b));
    }
  }

  /** A tree has no more levels than its leaves need. */
  lemma {:induction false} LevelsNeeded(leaves: seq<MinMax>)
    ensures |TreeOf(leaves)| >= 2 ==> Shl(1, |TreeOf(leaves)| - 2) < |leaves|
    decreases |leaves|
  {
    hide *;
    TreeStep(leaves);
    if |leaves| > 1 {
      var up := Up(leaves);
      var n := |TreeOf(up)|;
      LevelsNeeded(up);
      if n >= 2 {
        DoubleLast(n - 1);
      }
    }
  }

  lemma {:induction false} TreeStep(leaves: seq<MinMax>)
    ensures if |leaves| <= 1 then |TreeOf(leaves)| == 1
            else |TreeOf(leaves)| == |TreeOf(Up(leaves))| + 1 && |Up(leaves)| == (|leaves| + 1) / 2
    ensures Shl(1, 0) == 1
  {
  }

  /** Leaves that cover at most 2 to the power 32 rows make a tree whose row numbers fit 32 bits. */
  lemma {:induction false} TreeFits(leaves: seq<MinMax>, leafShift: nat)
    requires Shl(|leaves|, leafShift) <= 0x1_0000_0000 && leafShift <= 32
    ensures Shl(1, |TreeOf(leaves)| - 1 + leafShift) <= 0x1_0000_0000
  {
    var n := |TreeOf(leaves)|;
    LevelsNeeded(leaves);
    ThirtyTwo();
    hide TreeOf;
    if n >= 2 {
      ShlLess(Shl(1, n - 2), |leaves|, leafShift);
      ShlTwice(1, n - 2, leafShift);
      if n - 2 + leafShift >= 32 {
        MoreShift(32, n - 2 + leafShift);
      }
      MoreShift(n - 1 + leafShift, 32);
    } else {
      MoreShift(leafShift, 32);
    }
  }

  /** Columns whose trees were built over leaves of the same number of rows make a good query. */
  lemma {:induction false} BuiltQueryIsGood(q: Query, leaves: seq<seq<MinMax>>)
    requires q.hs != [] && |leaves| == |q.hs| && q.stop < Levels(q)
    requires forall h :: 0 <= h < |q.hs| ==>
            q.hs[h].locator < q.slots && q.hs[h].tops == Reversed(TreeOf(leaves[h])) && |leaves[h]| == |leaves[0]|
    requires q.limits.RowIds? ==>
               q.stop == Levels(q) - 1 && q.leafShift <= 32 && Shl(|leaves[0]|, q.leafShift) <= 0x1_0000_0000
    ensures Good(q) && Size(q, Levels(q) - 1) == |leaves[0]|
  {
    hide *;
    LevelsOf(q);
    forall h | 0 <= h < |q.hs|
      ensures Widens(q.hs[h].tops) && |q.hs[h].tops| == Levels(q)
      ensures forall l :: 0 <= l < Levels(q) ==> |q.hs[h].tops[l]| == |q.hs[0].tops[l]|
    {
      TreeWidens(leaves[h]);
      ReversedShape(leaves[h], leaves[0]);
    }
    TreeWidens(leaves[0]);
    if q.limits.RowIds? {
      TreeFits(leaves[0], q.leafShift);
    }
    IsGood(q);
  }

  lemma {:induction false} LevelsOf(q: Query)
    requires q.hs != []
    ensures Levels(q) == |q.hs[0].tops|
    ensures forall l: nat :: l < Levels(q) ==> Size(q, l) == |q.hs[0].tops[l]|
  {
  }

  lemma {:induction false} ReversedShape(a: seq<MinMax>, b: seq<MinMax>)
    requires |a| == |b|
    ensures var x, y := Reversed(TreeOf(a)),
            Reversed(TreeOf(b)); |x| == |y| == |TreeOf(b)| && forall l :: 0 <= l < |x| ==> |x[l]| == |y[l]|
  {
    SameShape(a, b);
    hide TreeOf;
  }

  lemma {:induction false} IsGood(q: Query)
    requires q.hs != [] && q.stop < Levels(q) && Levels(q) == |q.hs[0].tops| && |q.hs[0].tops[0]| <= 1
    requires forall h :: 0 <= h < |q.hs| ==>
            q.hs[h].locator < q.slots && Widens(q.hs[h].tops) && |q.hs[h].tops| == Levels(q)
    requires forall h, l :: 0 <= h < |q.hs| && 0 <= l < Levels(q) ==> |q.hs[h].tops[l]| == |q.hs[0].tops[l]|
    requires q.limits.RowIds? ==> q.stop == Levels(q) - 1 && Shl(1, Levels(q) - 1 + q.leafShift) <= 0x1_0000_0000
    ensures Good(q)
  {
    hide Widens, Shl;
  }
}
