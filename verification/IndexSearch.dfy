/**
  Where probe windows come from (secondary/secondary.cpp, PrepareBlocksRange and PrepareBlocksValues;
  secondary/blockreader.cpp, BlockIter_t). The learned index is a parameter: a function from a value to an
  approximate position whose window contains the position of the first value that is not smaller.
 */
module IndexSearch {
  import opened IndexBlocks
  import opened Orders
  import opened RangeScan
  import opened ByteCodec
  import opened Filters
  import opened RowLists
  import opened RowGroups
  import opened IndexBuilder
  import opened IndexRoundTrip
  import W = RowWriter

  datatype ApproxPos = ApproxPos(pos: nat, lo: nat, hi: nat)

  /** The blocks to look at, and the one to look at first, counted from the start. */
  datatype BlockIter = BlockIter(pos: nat, start: nat, last: nat)

  function BlockIterOf(p: ApproxPos, blocksCount: nat): (it: BlockIter)
    requires p.lo <= p.pos
  {
    var start := p.lo / 128;
    var pos := p.pos / 128 - start;
    var last := p.hi / 128;
    BlockIter(if start + pos >= blocksCount then 0 else pos, start, if last >= blocksCount &&
        blocksCount > 0 then blocksCount - 1 else last)
  }

  // ---------------------------------------------------------------- positions in the list of all values

  /** All values in one list. */
  function Flat(vals: seq<seq<int>>): seq<int> {
    if vals == [] then [] else Flat(vals[..|vals| - 1]) + vals[|vals| - 1]
  }

  /** What is assumed of the learned index. */
  ghost predicate Learned(search: int -> ApproxPos, t: ColumnType, vals: seq<seq<int>>) {
    forall v :: Lowest(t) <= v <= Highest(t) ==>
      var p := search(v); p.lo <= LowerBound(Flat(vals), v) <= p.hi && p.lo <= p.pos <= p.hi && p.lo < |Flat(vals)|
  }

  /** All blocks but the last hold 128 values. */
  ghost predicate FullBlocks(vals: seq<seq<int>>) {
    forall k :: 0 <= k < |vals| - 1 ==> |vals[k]| == 128
  }

  lemma {:induction false} FlatFull(vals: seq<seq<int>>)
    requires forall k :: 0 <= k < |vals| ==> |vals[k]| == 128
    ensures |Flat(vals)| == 128 * |vals|
  {
    if vals != [] {
      FlatFull(vals[..|vals| - 1]);
    }
  }

  lemma {:induction false} FlatAt(vals: seq<seq<int>>, k: nat, i: nat)
    requires FullBlocks(vals) && Holds(vals, k, i)
    ensures 128 * k + i < |Flat(vals)| && Flat(vals)[128 * k + i] == vals[k][i]
    decreases |vals|
  {
    var n := |vals| - 1;
    FlatFull(vals[..n]);
    if k < n {
      FlatAt(vals[..n], k, i);
    }
  }

  /**
    A value at place (k, i) has position 128 * k + i, so a bound below it has no later one, a bound above it
    no earlier one.
   */
  lemma {:induction false} BoundsAround(vals: seq<seq<int>>, k: nat, i: nat, v: int)
    requires FullBlocks(vals) && AscendingBlocks(vals) && Holds(vals, k, i)
    ensures v <= vals[k][i] ==> LowerBound(Flat(vals), v) <= 128 * k + i
    ensures vals[k][i] <= v ==> 128 * k + i <= LowerBound(Flat(vals), v)
  {
    FlatAt(vals, k, i);
    forall p | 0 <= p < 128 * k + i ensures Flat(vals)[p] < vals[k][i] {
      var l, j := PlaceOf(vals, p);
      assert l < k || (l == k && j < i);
    }
  }

  /** The place of a position. */
  lemma {:induction false} PlaceOf(vals: seq<seq<int>>, r: nat) returns (k: nat, i: nat)
    requires FullBlocks(vals) && r < |Flat(vals)|
    ensures Holds(vals, k, i) && r == 128 * k + i && i < 128 + |vals[|vals| - 1]| && Flat(vals)[r] == vals[k][i]
    ensures k < |vals| - 1 ==> i < 128
    decreases |vals|
  {
    var n := |vals| - 1;
    FlatFull(vals[..n]);
    if r < 128 * n {
      k, i := PlaceOf(vals[..n], r);
      assert |vals[..n][|vals[..n]| - 1]| == 128;
    } else {
      k, i := n, r - 128 * n;
    }
  }

  // ---------------------------------------------------------------- windows of range queries

  function Min(a: nat, b: nat): nat { if a < b then a else b }
  function Max(a: nat, b: nat): nat { if a < b then b else a }

  /** PrepareBlocksRange: the window of a range condition. */
  function PrepareRange(search: int -> ApproxPos, t: ColumnType, f: Filter, blocksCount: nat): ApproxPos
    requires blocksCount > 0
  {
    if f.leftUnbounded == f.rightUnbounded then
      var a := if f.leftUnbounded then search(Lowest(t)) else search(f.min);
      var b := if f.leftUnbounded then search(Highest(t)) else search(f.max);
      ApproxPos(Min(a.pos, b.pos), Min(a.lo, b.lo), Max(a.hi, b.hi))
    else if f.rightUnbounded then
      var a := search(f.min);
      ApproxPos(a.pos, a.lo, (blocksCount - 1) * 128)
    else
      var b := search(f.max);
      ApproxPos(b.pos, 0, b.hi)
  }

  /** Every value that satisfies the condition lies in a block of the window. */
  lemma {:induction false} RangeWindowCovers(search: int -> ApproxPos, t: ColumnType, vals: seq<seq<int>>, f: Filter,
                                             k: nat, i: nat)
    requires Learned(search, t, vals) && FullBlocks(vals) && AscendingBlocks(vals) && InType(t, vals) && Fits(f, t)
    requires Holds(vals, k, i) && Satisfies(f, vals[k][i])
    requires |vals[|vals| - 1]| <= 128
    ensures var p := PrepareRange(search, t, f, |vals|); p.lo <= p.pos && p.lo <= 128 * k + i && p.hi / 128 >= k
  {
    var v := vals[k][i];
    var lo := if f.leftUnbounded then Lowest(t) else f.min;
    var hi := if f.rightUnbounded then Highest(t) else f.max;
    assert lo <= v <= hi && Lowest(t) <= lo <= Highest(t) && Lowest(t) <= hi <= Highest(t);
    hide Satisfies, InType, Fits;
    BoundsAround(vals, k, i, lo);
    BoundsAround(vals, k, i, hi);
    assert search(lo).lo <= LowerBound(Flat(vals), lo) && search(lo).lo <= search(lo).pos;
    assert LowerBound(Flat(vals), hi) <= search(hi).hi && search(hi).lo <= search(hi).pos;
    hide Learned, LowerBound, Flat;
    assert i < 128;
  }

  /**
    The window is no wider than the learned index is uncertain: when it knows positions up to e, the blocks looked at
    start no more than e positions before the first value of the range, and end no more than e behind its upper end.
   */
  lemma {:induction false} RangeWindowTight(search: int -> ApproxPos, t: ColumnType, vals: seq<seq<int>>, f: Filter,
                                            e: nat)
    requires Learned(search, t, vals) && Fits(f, t) && vals != []
    requires forall v :: Lowest(t) <= v <= Highest(t) ==> search(v).hi <= search(v).lo + e
    requires f.leftUnbounded || f.rightUnbounded || f.min <= f.max
    ensures var p := PrepareRange(search, t, f, |vals|);
            && p.lo <= p.pos
            && (!f.leftUnbounded ==> LowerBound(Flat(vals), f.min) < 128 * (BlockIterOf(p, |vals|).start + 1) + e)
            && (!f.rightUnbounded ==> 128 * BlockIterOf(p, |vals|).last <= LowerBound(Flat(vals), f.max) + e)
  {
    WindowOrdered(search, t, vals, f);
    var p := PrepareRange(search, t, f, |vals|);
    hide Learned, Flat, LowerBound, PrepareRange;
    TightBounds(search, t, vals, f, e);
    assert !f.leftUnbounded ==> LowerBound(Flat(vals), f.min) <= p.lo + e;
    assert !f.rightUnbounded ==> p.hi <= LowerBound(Flat(vals), f.max) + e;
    assert p.lo < 128 * (p.lo / 128 + 1) && 128 * (p.hi / 128) <= p.hi;
  }

  lemma {:induction false} TightBounds(search: int -> ApproxPos, t: ColumnType, vals: seq<seq<int>>, f: Filter, e: nat)
    requires Learned(search, t, vals) && Fits(f, t) && vals != []
    requires forall v :: Lowest(t) <= v <= Highest(t) ==> search(v).hi <= search(v).lo + e
    requires f.leftUnbounded || f.rightUnbounded || f.min <= f.max
    ensures var p := PrepareRange(search, t, f, |vals|);
            && (!f.leftUnbounded ==> LowerBound(Flat(vals), f.min) <= p.lo + e)
            && (!f.rightUnbounded ==> p.hi <= LowerBound(Flat(vals), f.max) + e)
  {
    RankGrows(Flat(vals), f.min, f.max);
    hide Flat, LowerBound;
    assert !f.leftUnbounded ==> LowerBound(Flat(vals), f.min) <= search(f.min).hi <= search(f.min).lo + e;
    assert !f.rightUnbounded ==> search(f.max).hi <= search(f.max).lo + e <= LowerBound(Flat(vals), f.max) + e;
    assert !f.leftUnbounded ==> search(f.min).lo <= LowerBound(Flat(vals), f.min);
    assert !f.rightUnbounded ==> LowerBound(Flat(vals), f.max) <= search(f.max).hi;
  }

  lemma {:induction false} RankGrows(s: seq<int>, a: int, b: int)
    ensures a <= b ==> LowerBound(s, a) <= LowerBound(s, b)
  {
  }

  /**
    The scan over the window of a range condition, fixed for the column type, reports a value exactly when it
    satisfies the condition, once, in ascending order, loading the row data of each block with its first match.
   */
  lemma {:induction false} RangeQueryExact(search: int -> ApproxPos, t: ColumnType, vals: seq<seq<int>>, f: Filter,
                                           k: nat, i: nat)
    requires Learned(search, t, vals) && FullBlocks(vals) && AscendingBlocks(vals) && InType(t, vals) &&
             Fits(Fixup(t, f), t)
    requires vals != [] && |vals[|vals| - 1]| <= 128 && Holds(vals, k, i)
    ensures var g := Fixup(t, f);
            PrepareRange(search, t, g, |vals|).lo <= PrepareRange(search, t, g, |vals|).pos &&
            var it := BlockIterOf(PrepareRange(search, t, g, |vals|), |vals|);
            it.last < |vals| && InOrder(Hits(g, t, vals, it.start, it.last)) &&
            (Satisfies(f, vals[k][i]) <==> exists load :: Hit(k, i, load) in Hits(g, t, vals, it.start, it.last))
  {
    var g := Fixup(t, f);
    assert IsValue(t, vals[k][i]);
    FixupKeeps(t, f, vals[k][i]);
    hide Fixup, IsValue;
    FixedQueryExact(search, t, vals, g, k, i);
  }

  lemma {:induction false} FixedQueryExact(search: int -> ApproxPos, t: ColumnType, vals: seq<seq<int>>, f: Filter,
                                           k: nat, i: nat)
    requires Learned(search, t, vals) && FullBlocks(vals) && AscendingBlocks(vals) && InType(t, vals) && Fits(f, t)
    requires vals != [] && |vals[|vals| - 1]| <= 128 && Holds(vals, k, i)
    ensures PrepareRange(search, t, f, |vals|).lo <= PrepareRange(search, t, f, |vals|).pos
    ensures var it := BlockIterOf(PrepareRange(search, t, f, |vals|), |vals|);
            it.last < |vals| && InOrder(Hits(f, t, vals, it.start, it.last)) &&
            (Satisfies(f, vals[k][i]) <==> exists load :: Hit(k, i, load) in Hits(f, t, vals, it.start, it.last))
  {
    var p := PrepareRange(search, t, f, |vals|);
    WindowOrdered(search, t, vals, f);
    var it := BlockIterOf(p, |vals|);
    EvalIsSatisfies(f, t, vals[k][i]);
    HitsInOrder(f, t, vals, it.start, it.last);
    if Satisfies(f, vals[k][i]) {
      RangeWindowCovers(search, t, vals, f, k, i);
      assert it.start <= k <= it.last;
      var load := Loads(f, t, vals, k, i);
      HitsExact(f, t, vals, it.start, it.last, Hit(k, i, load));
    }
    hide PrepareRange, Satisfies;
    forall load | Hit(k, i, load) in Hits(f, t, vals, it.start, it.last) ensures EvalRange(f, t, vals[k][i]) {
      HitsExact(f, t, vals, it.start, it.last, Hit(k, i, load));
    }
  }

  lemma {:induction false} WindowOrdered(search: int -> ApproxPos, t: ColumnType, vals: seq<seq<int>>, f: Filter)
    requires Learned(search, t, vals) && Fits(f, t) && vals != []
    ensures PrepareRange(search, t, f, |vals|).lo <= PrepareRange(search, t, f, |vals|).pos
  {
    hide LowerBound, Flat;
    var lo := if f.leftUnbounded then Lowest(t) else f.min;
    var hi := if f.rightUnbounded then Highest(t) else f.max;
    assert search(lo).lo <= search(lo).pos && search(hi).lo <= search(hi).pos;
  }

  lemma {:induction false} Loads(f: Filter, t: ColumnType, vals: seq<seq<int>>, k: nat, i: nat) returns (load: bool)
    requires Holds(vals, k, i) && EvalRange(f, t, vals[k][i])
    ensures IsHit(f, t, vals, k, i, load, 0, false)
  {
    load := forall j :: 0 <= j < i ==> NoMatch(f, t, vals, k, j);
  }

  /** An index built from values of the column type is a good input of the searches. */
  lemma {:induction false} BuiltIndexIsGood(codec: Codec, file: seq<u8>, offsets: seq<nat>, t: ColumnType,
                                            blocks: seq<seq<Group>>, total: multiset<Entry>)
    requires StoredBlocks(codec, file, offsets, blocks) && Indexed(t.Int64?, blocks, total)
    requires forall e: Entry :: e in total ==> Lowest(t) <= e.value <= Highest(t)
    ensures GoodIndex(codec, file, offsets, t, |AllGroups(blocks)|, blocks) && FullBlocks(AllVals(t, blocks))
    ensures blocks != [] ==> |AllVals(t, blocks)[|blocks| - 1]| <= 128
  {
    assert Blocked(blocks);
    IndexAscends(t, blocks, total);
    hide StoredBlocks, AscendingBlocks, Indexed, InType;
    BuiltValuesInType(t, blocks, total);
  }

  lemma {:induction false} BuiltValuesInType(t: ColumnType, blocks: seq<seq<Group>>, total: multiset<Entry>)
    requires Indexed(t.Int64?, blocks, total) && forall e: Entry :: e in total ==> Lowest(t) <= e.value <= Highest(t)
    ensures InType(t, AllVals(t, blocks))
  {
    var vals := AllVals(t, blocks);
    hide Indexed, W.View, Lowest, Highest;
    forall k: nat, i: nat | Holds(vals, k, i) ensures Lowest(t) <= vals[k][i] <= Highest(t) {
      assert At2(blocks, k, i);
      ItemSound(t.Int64?, blocks, total, k, i);
      var e := Entry(W.View(t.Int64?, blocks[k][i].value), blocks[k][i].rows[0]);
      PairsStored(t.Int64?, blocks, total, e);
    }
  }
}
