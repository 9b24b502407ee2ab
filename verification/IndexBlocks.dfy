/**
  The blocks of a secondary index as a search sees them: sorted values, found by position
  (secondary/blockreader.cpp, ReaderTraits_T; common/interval.h).
 */
module IndexBlocks {
  import opened ByteCodec
  import opened Filters
  import opened RowLists
  import opened RowGroups
  import opened IndexBuilder
  import opened IndexRoundTrip
  import W = RowWriter

  /** The values of a block as the column type sees them. */
  function Vals(t: ColumnType, block: seq<Group>): (r: seq<int>)
    ensures |r| == |block| && forall i :: 0 <= i < |r| ==> r[i] == W.View(t.Int64?, block[i].value)
  {
    seq(|block|, i requires 0 <= i < |block| => W.View(t.Int64?, block[i].value))
  }

  function AllVals(t: ColumnType, blocks: seq<seq<Group>>): (r: seq<seq<int>>)
    ensures |r| == |blocks| && forall k :: 0 <= k < |r| ==> r[k] == Vals(t, blocks[k])
  {
    seq(|blocks|, k requires 0 <= k < |blocks| => Vals(t, blocks[k]))
  }

  /** A place in the index. */
  predicate Holds(vals: seq<seq<int>>, k: nat, i: nat) {
    k < |vals| && i < |vals[k]|
  }

  /** Values ascend strictly within and across blocks, and no block is empty. */
  ghost predicate AscendingBlocks(vals: seq<seq<int>>) {
    && (forall k :: 0 <= k < |vals| ==> vals[k] != [])
    && (forall k: nat, i: nat, l: nat, j: nat ::
          Holds(vals, k, i) && Holds(vals, l, j) && (k < l || (k == l && i < j)) ==> vals[k][i] < vals[l][j])
  }

  lemma {:induction false} IndexAscends(t: ColumnType, blocks: seq<seq<Group>>, total: multiset<Entry>)
    requires Indexed(t.Int64?, blocks, total)
    ensures AscendingBlocks(AllVals(t, blocks))
  {
    var vals := AllVals(t, blocks);
    forall k | 0 <= k < |vals| ensures vals[k] != [] {
    }
    hide Indexed, W.View, Vals, AllVals;
    forall k: nat, i: nat, l: nat, j: nat | Holds(vals, k, i) && Holds(vals, l, j) && (k < l || (k == l && i < j))
      ensures vals[k][i] < vals[l][j]
    {
      assert At2(blocks, k, i) && At2(blocks, l, j);
      BlocksAscend(t.Int64?, blocks, total, k, i, l, j);
    }
  }

  /** The blocks are stored in the file at the recorded offsets. */
  ghost predicate StoredBlocks(c: Codec, file: seq<u8>, offsets: seq<nat>, blocks: seq<seq<Group>>) {
    && c.Lawful() && |offsets| == |blocks|
    && forall k :: 0 <= k < |blocks| ==> At(file, offsets[k], BlockBytes(c, blocks[k]))
  }

  /** How many values a block holds, from the number of blocks and of values. */
  function CalcNumBlockValues(blocksCount: nat, totalValues: nat, k: nat): nat {
    if k + 1 < blocksCount then 128
    else if totalValues % 128 != 0 then totalValues % 128 else 128
  }

  lemma {:induction false} FullBlocksCount(blocks: seq<seq<Group>>)
    requires forall k :: 0 <= k < |blocks| ==> |blocks[k]| == 128
    ensures |AllGroups(blocks)| == 128 * |blocks|
  {
    if blocks != [] {
      FullBlocksCount(blocks[..|blocks| - 1]);
    }
  }

  lemma {:induction false} BlockValuesCount(blocks: seq<seq<Group>>, k: nat)
    requires Blocked(blocks) && k < |blocks|
    ensures CalcNumBlockValues(|blocks|, |AllGroups(blocks)|, k) == |blocks[k]|
  {
    var n := |blocks| - 1;
    FullBlocksCount(blocks[..n]);
    assert |AllGroups(blocks)| == 128 * n + |blocks[n]|;
  }

  /** Reading the values of a stored block. */
  lemma {:induction false} ValuesBack(c: Codec, file: seq<u8>, offsets: seq<nat>, blocks: seq<seq<Group>>, k: nat)
    requires StoredBlocks(c, file, offsets, blocks) && Blocked(blocks) && k < |blocks|
    ensures c.decodeValues(ReadVec(file, offsets[k]).0,
            CalcNumBlockValues(|blocks|, |AllGroups(blocks)|, k)) == Values(blocks[k])
  {
    BlockValuesCount(blocks, k);
    assert At(file, offsets[k], BlockBytes(c, blocks[k])) && |Values(blocks[k])| == |blocks[k]| <= 128;
    hide At, ReadVec, BlockBytes, Values, Codec.Lawful, CalcNumBlockValues, Blocked;
    TablesAt(c, file, offsets[k], blocks[k]);
    DecodeValuesBack(c, file, offsets[k], Values(blocks[k]));
  }

  // ---------------------------------------------------------------- ranges

  predicate Overlap(a: int, b: int, c: int, d: int) {
    a <= d && c <= b
  }

  /** CmpRange: 0 when the block may hold matches, -1 when it lies before the range, 1 when behind it. */
  function CmpRange(f: Filter, t: ColumnType, first: int, last: int): int {
    if f.leftUnbounded && f.rightUnbounded then 0
    else
      var start := if f.leftUnbounded then Lowest(t) else Cast(t, f.min);
      var end := if f.rightUnbounded then Highest(t) else Cast(t, f.max);
      if Overlap(first, last, start, end) then 0
      else if first < start || (first == start && last < end) then -1
      else 1
  }

  /**
    A block is judged to lie behind a range exactly when it starts behind its end, and before it when it ends
    before.
   */
  lemma {:induction false} CmpExact(f: Filter, t: ColumnType, first: int, last: int)
    requires Lowest(t) <= first <= last <= Highest(t) && Fits(f, t)
    requires f.leftUnbounded || f.rightUnbounded || f.min <= f.max
    ensures CmpRange(f, t, first, last) == 1 <==> !f.rightUnbounded && f.max < first
    ensures CmpRange(f, t, first, last) == -1 <==> !f.leftUnbounded && last < f.min
  {
    hide Cast;
    CastIsValue(t, f.min);
    CastIsValue(t, f.max);
  }

  /** A block that lies before or behind the range holds no match; behind it, no later block does. */
  lemma {:induction false} CmpRules(f: Filter, t: ColumnType, first: int, last: int, v: int)
    requires Lowest(t) <= first <= last <= Highest(t) && Lowest(t) <= v <= Highest(t)
    ensures CmpRange(f, t, first, last) == -1 && first <= v <= last ==> !EvalRange(f, t, v)
    ensures CmpRange(f, t, first, last) == 1 && first <= v ==> !EvalRange(f, t, v)
    ensures CmpRange(f, t, first, last) in {-1, 0, 1}
  {
  }
}
