/**
  The min/max tree of a column (columnar/builder/builderminmax.h; columnar/accessor/attributeheader.cpp):
  built bottom-up over blocks of rows, saved from the top level down, loaded back.
 */
module MinMaxTree {
  import opened ByteCodec
  import opened Orders
  import opened Filters

  datatype MinMax = MinMax(min: int, max: int)

  /** The first interval covers the second. */
  predicate Covers(a: MinMax, b: MinMax) {
    a.min <= b.min && b.max <= a.max
  }

  function Merge(a: MinMax, b: MinMax): (r: MinMax)
    ensures Covers(r, a) && Covers(r, b)
  {
    MinMax(if b.min < a.min then b.min else a.min, if a.max < b.max then b.max else a.max)
  }

  // ---------------------------------------------------------------- the tree over given leaves

  /** The next level up: neighbours are merged, a block without a neighbour is copied. */
  function Up(level: seq<MinMax>): (r: seq<MinMax>)
    ensures |r| == (|level| + 1) / 2
  {
    seq((|level| + 1) / 2, i requires 0 <= i < (|level| + 1) / 2 =>
      if 2 * i + 1 < |level| then Merge(level[2 * i], level[2 * i + 1]) else level[2 * i])
  }

  /** The levels of the tree, from the leaves up to a level of at most one block. */
  function TreeOf(leaves: seq<MinMax>): (r: seq<seq<MinMax>>)
    ensures r != [] && r[0] == leaves
    decreases |leaves|
  {
    if |leaves| <= 1 then [leaves] else [leaves] + TreeOf(Up(leaves))
  }

  /** Each level is the one below, merged. */
  ghost predicate IsTree(levels: seq<seq<MinMax>>) {
    && levels != [] && |levels[|levels| - 1]| <= 1
    && (forall l: nat {:trigger levels[l]} :: l < |levels| - 1 ==> |levels[l]| > 1 && levels[l + 1] == Up(levels[l]))
  }

  lemma {:induction false} TreeOfIsTree(leaves: seq<MinMax>)
    ensures IsTree(TreeOf(leaves))
    decreases |leaves|
  {
    if |leaves| > 1 {
      TreeOfIsTree(Up(leaves));
      var rest := TreeOf(Up(leaves));
      var levels := TreeOf(leaves);
      hide Up;
      assert levels == [leaves] + rest;
      forall l: nat | l < |levels| - 1 ensures |levels[l]| > 1 && levels[l + 1] == Up(levels[l]) {
        if l > 0 {
          assert levels[l] == rest[l - 1] && levels[l + 1] == rest[l];
        }
      }
    }
  }

  // ---------------------------------------------------------------- leaves

  /** The values of a stretch of rows; a row of a set attribute has any number of them. */
  function ValuesOf(rows: seq<seq<int>>): seq<int> {
    if rows == [] then [] else ValuesOf(rows[..|rows| - 1]) + rows[|rows| - 1]
  }

  /** The bounds of a block: its extremes, or zeroes when it has no values. */
  ghost predicate Bounds(values: seq<int>, m: MinMax) {
    if values == [] then m == MinMax(0, 0)
    else m.min in values && m.max in values && forall v :: v in values ==> m.min <= v <= m.max
  }

  /** Leaf k bounds the values of block k. */
  ghost predicate LeavesOf(blocks: seq<seq<seq<int>>>, leaves: seq<MinMax>) {
    |leaves| == |blocks| && forall k :: 0 <= k < |blocks| ==> Bounds(ValuesOf(blocks[k]), leaves[k])
  }

  /** The rows of all blocks. */
  function Flat(blocks: seq<seq<seq<int>>>): seq<seq<int>> {
    if blocks == [] then [] else Flat(blocks[..|blocks| - 1]) + blocks[|blocks| - 1]
  }

  ghost predicate FullBlocks(blocks: seq<seq<seq<int>>>, size: nat) {
    forall k :: 0 <= k < |blocks| ==> |blocks[k]| == size
  }

  lemma {:induction false} ValuesPush(rows: seq<seq<int>>, row: seq<int>)
    ensures ValuesOf(rows + [row]) == ValuesOf(rows) + row
  {
    assert (rows + [row])[..|rows|] == rows;
  }

  lemma {:induction false} FlatPush(blocks: seq<seq<seq<int>>>, block: seq<seq<int>>)
    ensures Flat(blocks + [block]) == Flat(blocks) + block
  {
    assert (blocks + [block])[..|blocks|] == blocks;
  }

  lemma {:induction false} BoundsMerge(values: seq<int>, m: MinMax, more: seq<int>, n: MinMax)
    requires Bounds(more, n) && more != [] && (values != [] ==> Bounds(values, m))
    ensures Bounds(values + more, if values == [] then n else Merge(m, n))
  {
    var all := values + more;
    assert forall v :: v in all <==> v in values || v in more;
  }

  lemma {:induction false} BoundsOne(v: int)
    ensures Bounds([v], MinMax(v, v))
  {
  }

  // ---------------------------------------------------------------- the builder


  /** The state of a builder: leaves of the complete blocks, and the extremes of the one being collected. */
  ghost predicate Collecting(size: nat, mva: bool, blocks: seq<seq<seq<int>>>, block: seq<seq<int>>,
                             leaves: seq<MinMax>,
                             collected: nat, haveNonEmpty: bool, min: int, max: int) {
    && size > 0 && FullBlocks(blocks, size) && LeavesOf(blocks, leaves)
    && collected == |block| <= size
    && (haveNonEmpty <==> ValuesOf(block) != [])
    && (haveNonEmpty ==> Bounds(ValuesOf(block), MinMax(min, max)))
    && (!mva && collected > 0 ==> haveNonEmpty)
  }

  lemma {:induction false} RowCollected(size: nat, mva: bool, blocks: seq<seq<seq<int>>>, block: seq<seq<int>>,
                                        leaves: seq<MinMax>,
                                        collected: nat, haveNonEmpty: bool, min: int, max: int, row: seq<int>, lo: int,
                                            hi: int)
    requires Collecting(size, mva, blocks, block, leaves, collected, haveNonEmpty, min, max) && collected < size
    requires row != [] ==> Bounds(row, MinMax(lo, hi))
    requires !mva ==> row != []
    ensures row == [] ==> Collecting(size, mva, blocks, block + [row], leaves, collected + 1, haveNonEmpty, min, max)
    ensures row != [] && !haveNonEmpty ==> Collecting(size, mva, blocks, block + [row], leaves, collected + 1, true, lo,
            hi)
    ensures row != [] && haveNonEmpty ==> Collecting(size, mva, blocks, block + [row], leaves, collected + 1, true,
            Least(min, lo), Greatest(max, hi))
    ensures !mva && collected == 0 ==> !haveNonEmpty
    ensures !mva && collected > 0 ==> haveNonEmpty
  {
    ValuesPush(block, row);
    hide ValuesOf, LeavesOf, FullBlocks;
    if row == [] {
      assert ValuesOf(block) + [] == ValuesOf(block);
    } else {
      BoundsMerge(ValuesOf(block), MinMax(min, max), row, MinMax(lo, hi));
    }
    if collected == 0 {
      assert block == [];
      EmptyValues();
    }
  }

  lemma {:induction false} EmptyValues()
    ensures ValuesOf([]) == []
  {
  }

  lemma {:induction false} BlockFlushed(size: nat, mva: bool, blocks: seq<seq<seq<int>>>, block: seq<seq<int>>,
                                        leaves: seq<MinMax>,
                                        collected: nat, haveNonEmpty: bool, min: int, max: int)
    requires Collecting(size, mva, blocks, block, leaves, collected, haveNonEmpty, min, max)
    ensures var m := if haveNonEmpty then MinMax(min, max) else MinMax(0, 0);
            LeavesOf(blocks + [block], leaves + [m]) &&
            (collected == size ==> Collecting(size, mva, blocks + [block], [], leaves + [m], 0, false, m.min, m.max))
    ensures Flat(blocks + [block]) == Flat(blocks) + block
  {
    hide ValuesOf;
    EmptyValues();
    FlatPush(blocks, block);
    assert Bounds(ValuesOf(block), if haveNonEmpty then MinMax(min, max) else MinMax(0, 0));
    hide Flat;
  }

  class Builder {
    const subblockSize: nat
    const mva: bool                             // whether rows are sets of values
    var treeLevels: seq<seq<MinMax>>
    var collected: nat
    var haveNonEmpty: bool
    var min: int
    var max: int
    ghost var blocks: seq<seq<seq<int>>>        // the complete blocks of rows
    ghost var block: seq<seq<int>>              // the rows of the block being collected

    ghost predicate Valid()
      reads this
    {
      && |treeLevels| == 1
      && Collecting(subblockSize, mva, blocks, block, treeLevels[0], collected, haveNonEmpty, min, max)
    }

    /** All rows added so far. */
    ghost function Rows(): seq<seq<int>>
      reads this
    {
      Flat(blocks) + block
    }

    constructor (subblockSize: nat, mva: bool)
      requires subblockSize > 0
      ensures Valid() && Rows() == [] && this.subblockSize == subblockSize && this.mva == mva
    {
      this.subblockSize, this.mva := subblockSize, mva;
      treeLevels, collected, haveNonEmpty, min, max := [[]], 0, false, 0, 0;
      blocks, block := [], [];
    }

    /** Flush: the leaf of the block being collected, if any row has been collected. */
    method Flush()
      requires Valid()
      modifies this
      ensures |treeLevels| == 1 && LeavesOf(blocks, treeLevels[0]) && block == []
      ensures Rows() == old(Rows())
      ensures blocks == if old(collected) == 0 then old(blocks) else old(blocks) + [old(block)]
      ensures old(collected) in {0, subblockSize} ==> Valid() && collected == 0
    {
      hide ValuesOf, LeavesOf, FullBlocks, Flat, Bounds;
      BlockFlushed(subblockSize, mva, blocks, block, treeLevels[0], collected, haveNonEmpty, min, max);
      if collected == 0 {
        return;
      }
      if !haveNonEmpty {
        min, max := 0, 0;
      }
      treeLevels := [treeLevels[0] + [MinMax(min, max)]];
      collected, haveNonEmpty := 0, false;
      AppendNone(Flat(blocks) + block);
      blocks, block := blocks + [block], [];
    }

    method FlushFull()
      requires Valid()
      modifies this
      ensures Valid() && Rows() == old(Rows()) && collected < subblockSize
    {
      hide ValuesOf, LeavesOf, FullBlocks, Flat, Bounds;
      if collected == subblockSize {
        Flush();
      }
    }

    /** Add, for one value per row. */
    method Add(value: int)
      requires Valid() && !mva
      modifies this
      ensures Valid() && Rows() == old(Rows()) + [[value]]
    {
      hide ValuesOf, LeavesOf, FullBlocks, Flat, Bounds;
      FlushFull();
      BoundsOne(value);
      RowCollected(subblockSize, mva, blocks, block, treeLevels[0], collected, haveNonEmpty, min, max, [value], value,
          value);
      AppendRow(Flat(blocks), block, [value]);
      hide Collecting;
      if collected == 0 {
        min, max := value, value;
      } else {
        min, max := Least(min, value), Greatest(max, value);
      }
      haveNonEmpty := true;
      collected := collected + 1;
      block := block + [[value]];
    }

    /** Add, for a row with any number of values. */
    method AddMva(values: seq<int>)
      requires Valid() && mva
      modifies this
      ensures Valid() && Rows() == old(Rows()) + [values]
    {
      hide ValuesOf, LeavesOf, FullBlocks, Flat, Bounds;
      FlushFull();
      AppendRow(Flat(blocks), block, values);
      if |values| == 0 {
        RowCollected(subblockSize, mva, blocks, block, treeLevels[0], collected, haveNonEmpty, min, max, values, 0, 0);
        hide Collecting;
        collected := collected + 1;
        block := block + [values];
        return;
      }
      var lo, hi := ExtremesOf(values);
      RowCollected(subblockSize, mva, blocks, block, treeLevels[0], collected, haveNonEmpty, min, max, values, lo, hi);
      hide Collecting;
      if !haveNonEmpty {
        min, max := lo, hi;
      } else {
        min, max := Least(min, lo), Greatest(max, hi);
      }
      haveNonEmpty := true;
      collected := collected + 1;
      block := block + [values];
    }

    /** BuildTree: adds level after level until one has a single block. */
    method BuildTree()
      requires |treeLevels| == 1
      modifies this`treeLevels
      ensures treeLevels == TreeOf(old(treeLevels[0]))
    {
      if |treeLevels[0]| <= 1 {
        return;
      }
      ghost var leaves := treeLevels[0];
      TreeStarts(treeLevels);
      hide *;
      while true
        invariant |treeLevels| >= 1 && |treeLevels[|treeLevels| - 1]| > 1
        invariant treeLevels[..|treeLevels| - 1] + TreeOf(treeLevels[|treeLevels| - 1]) == TreeOf(leaves)
        decreases |treeLevels[|treeLevels| - 1]|
      {
        var newBlocks := NextLevel(treeLevels[|treeLevels| - 1]);
        TreeGrows(treeLevels, treeLevels + [newBlocks], leaves);
        treeLevels := treeLevels + [newBlocks];
        if |newBlocks| <= 1 {
          return;
        }
      }
    }

    /** Save: the leaf of the last block, the tree, and its bytes. */
    method Save(t: ColumnType) returns (out: seq<u8>)
      requires Valid()
      modifies this
      ensures Rows() == old(Rows()) && block == []
      ensures blocks == if old(collected) == 0 then old(blocks) else old(blocks) + [old(block)]
      ensures treeLevels != [] && LeavesOf(blocks, treeLevels[0]) && treeLevels == TreeOf(treeLevels[0])
      ensures out == TreeBytes(t, Reversed(treeLevels))
    {
      hide ValuesOf, LeavesOf, FullBlocks, Flat, Bounds, TreeBytes, Reversed, Collecting;
      Flush();
      BuildTree();
      out := SaveLevels(t, treeLevels);
    }

    static method NextLevel(blocks: seq<MinMax>) returns (newBlocks: seq<MinMax>)
      ensures newBlocks == Up(blocks)
    {
      newBlocks := [];
      var i := 0;
      while i < |blocks|
        invariant 0 <= i <= |blocks| + 1 && i % 2 == 0
        invariant |newBlocks| == i / 2 && newBlocks == Up(blocks)[..i / 2]
      {
        var m := if i + 1 < |blocks| then Merge(blocks[i], blocks[i + 1]) else blocks[i];
        UpAt(blocks, i / 2, m);
        newBlocks := newBlocks + [m];
        i := i + 2;
      }
      assert newBlocks == Up(blocks);
    }
  }

  lemma {:induction false} UpAt(blocks: seq<MinMax>, k: nat, m: MinMax)
    requires 2 * k < |blocks| && m == if 2 * k + 1 < |blocks| then Merge(blocks[2 * k], blocks[2 * k + 1]) else
             blocks[2 * k]
    ensures k < |Up(blocks)| && Up(blocks)[..k] + [m] == Up(blocks)[..k + 1]
  {
  }

  lemma {:induction false} TreeStarts(levels: seq<seq<MinMax>>)
    requires |levels| == 1
    ensures levels[..|levels| - 1] + TreeOf(levels[|levels| - 1]) == TreeOf(levels[0])
  {
  }

  lemma {:induction false} TreeGrows(was: seq<seq<MinMax>>, now: seq<seq<MinMax>>, leaves: seq<MinMax>)
    requires was != [] && |was[|was| - 1]| > 1 && was[..|was| - 1] + TreeOf(was[|was| - 1]) == TreeOf(leaves)
    requires now == was + [Up(was[|was| - 1])]
    ensures now[..|now| - 1] + TreeOf(now[|now| - 1]) == TreeOf(leaves)
    ensures |now[|now| - 1]| <= 1 ==> now == TreeOf(leaves)
    ensures |now[|now| - 1]| < |was[|was| - 1]|
  {
    var top := was[|was| - 1];
    assert now[..|now| - 1] == was == was[..|was| - 1] + [top];
    assert TreeOf(top) == [top] + TreeOf(Up(top));
    hide Up;
    assert was[..|was| - 1] + ([top] + TreeOf(Up(top))) == was + TreeOf(Up(top));
    if |Up(top)| <= 1 {
      assert TreeOf(Up(top)) == [Up(top)];
    }
  }

  method ExtremesOf(values: seq<int>) returns (lo: int, hi: int)
    requires values != []
    ensures Bounds(values, MinMax(lo, hi))
  {
    lo, hi := values[0], values[0];
    var i := 1;
    while i < |values|
      invariant 1 <= i <= |values| && Bounds(values[..i], MinMax(lo, hi))
    {
      BoundsOne(values[i]);
      BoundsMerge(values[..i], MinMax(lo, hi), [values[i]], MinMax(values[i], values[i]));
      assert values[..i + 1] == values[..i] + [values[i]];
      hide Bounds;
      lo, hi := Least(lo, values[i]), Greatest(hi, values[i]);
      i := i + 1;
    }
    assert values[..i] == values;
  }

  lemma {:induction false} AppendNone<T>(s: seq<T>)
    ensures s + [] == s
  {
  }

  lemma {:induction false} AppendRow<T>(s: seq<T>, t: seq<T>, x: T)
    ensures s + (t + [x]) == s + t + [x]
  {
  }

  // ---------------------------------------------------------------- the stored tree

  function AsUint64(x: int): (r: nat)
    ensures r < U64_LIMIT
  {
    x % 0x1_0000_0000_0000_0000
  }

  /** An interval is stored as its lower end and its length. */
  function ElementBytes(t: ColumnType, m: MinMax): seq<u8> {
    Pack(AsUint64(m.min)) + Pack(AsUint64(Cast(t, m.max - m.min)))
  }

  /** How much a cast takes away, in whole multiples of the range of the type. */
  lemma {:induction false} CastShift(t: ColumnType, x: int) returns (k: int)
    ensures IsValue(t, Cast(t, x))
    ensures Cast(t, x) == x + (if t.UInt32? then k * 0x1_0000_0000 else k * 0x1_0000_0000_0000_0000)
  {
    match t {
      case UInt32 => k := -(x / 0x1_0000_0000);
      case Int64 => k := -((x + 0x8000_0000_0000_0000) / 0x1_0000_0000_0000_0000);
      case UInt64 => k := -(x / 0x1_0000_0000_0000_0000);
    }
  }

  /** Only one value of the type differs from x by a whole multiple of its range. */
  lemma {:induction false} SameClass(t: ColumnType, x: int, y: int, k: int)
    requires IsValue(t, x) && IsValue(t, y)
    requires x == y + (if t.UInt32? then k * 0x1_0000_0000 else k * 0x1_0000_0000_0000_0000)
    ensures x == y
  {
  }

  lemma {:induction false} StoredEnds(t: ColumnType, m: MinMax)
    requires IsValue(t, m.min) && IsValue(t, m.max)
    ensures var min := Cast(t, AsUint64(m.min));
            min == m.min && Cast(t, min + Cast(t, AsUint64(Cast(t, m.max - m.min)))) == m.max
  {
    CastBack(t, m.min);
    var d := Cast(t, m.max - m.min);
    var k := CastShift(t, m.max - m.min);
    CastBack(t, d);
    var l := CastShift(t, m.min + d);
    hide Cast, IsValue, AsUint64;
    SameClass(t, Cast(t, m.min + d), m.max, l + k);
  }

  lemma {:induction false} CastBack(t: ColumnType, x: int)
    requires IsValue(t, x)
    ensures Cast(t, AsUint64(x)) == x
  {
    var k := CastShift(t, AsUint64(x));
    var q := x / 0x1_0000_0000_0000_0000;
    assert AsUint64(x) == x - q * 0x1_0000_0000_0000_0000;
    SameClass(t, Cast(t, AsUint64(x)), x, if t.UInt32? then k - q * 0x1_0000_0000 else k - q);
  }

  function ElementsBytes(t: ColumnType, es: seq<MinMax>): seq<u8> {
    if es == [] then [] else ElementsBytes(t, es[..|es| - 1]) + ElementBytes(t, es[|es| - 1])
  }

  function SizesBytes(levels: seq<seq<MinMax>>): seq<u8> {
    if levels == [] then [] else SizesBytes(levels[..|levels| - 1]) + Pack(|levels[|levels| - 1]|)
  }

  function Elements(levels: seq<seq<MinMax>>): seq<MinMax> {
    if levels == [] then [] else Elements(levels[..|levels| - 1]) + levels[|levels| - 1]
  }

  /** The stored tree, top level first. */
  function TreeBytes(t: ColumnType, tops: seq<seq<MinMax>>): seq<u8> {
    Pack(|tops|) + SizesBytes(tops) + ElementsBytes(t, Elements(tops))
  }

  function Reversed<T>(s: seq<T>): (r: seq<T>)
    ensures |r| == |s| && forall i :: 0 <= i < |s| ==> r[i] == s[|s| - 1 - i]
  {
    seq(|s|, i requires 0 <= i < |s| => s[|s| - 1 - i])
  }

  lemma {:induction false} SizesPush(levels: seq<seq<MinMax>>, level: seq<MinMax>)
    ensures SizesBytes(levels + [level]) == SizesBytes(levels) + Pack(|level|)
    ensures Elements(levels + [level]) == Elements(levels) + level
  {
    assert (levels + [level])[..|levels|] == levels;
  }

  lemma {:induction false} ElementsPush(t: ColumnType, es: seq<MinMax>, e: MinMax)
    ensures ElementsBytes(t, es + [e]) == ElementsBytes(t, es) + ElementBytes(t, e)
  {
    assert (es + [e])[..|es|] == es;
  }

  lemma {:induction false} TreeParts(t: ColumnType, tops: seq<seq<MinMax>>)
    ensures TreeBytes(t, tops) == Pack(|tops|) + SizesBytes(tops) + ElementsBytes(t, Elements(tops))
  {
  }

  method SaveLevels(t: ColumnType, levels: seq<seq<MinMax>>) returns (out: seq<u8>)
    ensures out == TreeBytes(t, Reversed(levels))
  {
    hide *;
    ghost var tops := Reversed(levels);
    ReversedLength(levels);
    NoLevels(t);
    out := Pack(|levels|);
    var i := |levels|;
    AppendNone(out);
    assert tops[..0] == [];
    while i > 0
      invariant 0 <= i <= |levels| && out == Pack(|tops|) + SizesBytes(tops[..|levels| - i])
    {
      i := i - 1;
      ghost var k := |levels| - 1 - i;
      ReversedStep(levels, tops, k);
      SizesPush(tops[..k], levels[i]);
      AppendTwo(Pack(|tops|), SizesBytes(tops[..k]), Pack(|levels[i]|));
      out := out + Pack(|levels[i]|);
    }
    assert tops[..|levels|] == tops;
    TreeParts(t, tops);
    var elements := SaveElements(t, levels, tops);
    out := out + elements;
  }

  lemma {:induction false} AppendTwo<T>(s: seq<T>, a: seq<T>, b: seq<T>)
    ensures s + a + b == s + (a + b)
  {
  }

  lemma {:induction false} ReversedStep<T>(s: seq<T>, tops: seq<T>, k: nat)
    requires k < |s| && tops == Reversed(s)
    ensures |tops| == |s| && tops[..k + 1] == tops[..k] + [s[|s| - 1 - k]]
  {
  }

  method SaveElements(t: ColumnType, levels: seq<seq<MinMax>>, ghost tops: seq<seq<MinMax>>) returns (out: seq<u8>)
    requires tops == Reversed(levels)
    ensures out == ElementsBytes(t, Elements(tops))
  {
    hide *;
    ReversedLength(levels);
    out := [];
    var i := |levels|;
    NoLevels(t);
    assert tops[..0] == [];
    while i > 0
      invariant 0 <= i <= |levels| && out == ElementsBytes(t, Elements(tops[..|levels| - i]))
    {
      i := i - 1;
      ghost var k := |levels| - 1 - i;
      ReversedStep(levels, tops, k);
      SizesPush(tops[..k], levels[i]);
      out := SaveLevel(t, levels[i], Elements(tops[..k]), out);
    }
    ReversedLength(levels);
    assert tops[..|levels|] == tops;
  }

  lemma {:induction false} ReversedLength<T>(s: seq<T>)
    ensures |Reversed(s)| == |s|
  {
  }

  method SaveLevel(t: ColumnType, level: seq<MinMax>, ghost before: seq<MinMax>,
                   written: seq<u8>) returns (out: seq<u8>)
    requires written == ElementsBytes(t, before)
    ensures out == ElementsBytes(t, before + level)
  {
    hide *;
    out := written;
    var j := 0;
    assert before + level[..0] == before;
    while j < |level|
      invariant 0 <= j <= |level| && out == ElementsBytes(t, before + level[..j])
    {
      ElementsPush(t, before + level[..j], level[j]);
      assert before + level[..j] + [level[j]] == before + level[..j + 1];
      out := out + ElementBytes(t, level[j]);
      j := j + 1;
    }
    assert level[..j] == level;
  }

  // ---------------------------------------------------------------- loading

  lemma {:induction false} SizesPrefix(file: seq<u8>, pos: nat, levels: seq<seq<MinMax>>, k: nat)
    requires k < |levels| && At(file, pos, SizesBytes(levels))
    ensures At(file, pos + |SizesBytes(levels[..k])|, Pack(|levels[k]|))
    ensures |SizesBytes(levels[..k + 1])| == |SizesBytes(levels[..k])| + |Pack(|levels[k]|)|
    decreases |levels|
  {
    hide At, Pack;
    var n := |levels| - 1;
    AtConcat(file, pos, SizesBytes(levels[..n]), Pack(|levels[n]|));
    assert levels[..k + 1][..k] == levels[..k];
    if k < n {
      SizesPrefix(file, pos, levels[..n], k);
      assert levels[..n][..k] == levels[..k] && levels[..n][..k + 1] == levels[..k + 1];
    }
  }

  lemma {:induction false} ElementsPrefix(t: ColumnType, file: seq<u8>, pos: nat, es: seq<MinMax>, k: nat)
    requires k < |es| && At(file, pos, ElementsBytes(t, es))
    ensures At(file, pos + |ElementsBytes(t, es[..k])|, ElementBytes(t, es[k]))
    ensures |ElementsBytes(t, es[..k + 1])| == |ElementsBytes(t, es[..k])| + |ElementBytes(t, es[k])|
    decreases |es|
  {
    hide At, ElementBytes;
    var n := |es| - 1;
    AtConcat(file, pos, ElementsBytes(t, es[..n]), ElementBytes(t, es[n]));
    assert es[..k + 1][..k] == es[..k];
    if k < n {
      ElementsPrefix(t, file, pos, es[..n], k);
      assert es[..n][..k] == es[..k] && es[..n][..k + 1] == es[..k + 1];
    }
  }

  /** Reads one interval: its lower end, and its length behind it. */
  function ReadElement(t: ColumnType, file: seq<u8>, pos: nat): (MinMax, nat) {
    var first := Unpack(file, pos, U64_LIMIT);
    var second := Unpack(file, first.next, U64_LIMIT);
    var min := Cast(t, first.value);
    (MinMax(min, Cast(t, min + Cast(t, second.value))), second.next)
  }

  lemma {:induction false} ElementBack(t: ColumnType, file: seq<u8>, pos: nat, m: MinMax)
    requires At(file, pos, ElementBytes(t, m)) && IsValue(t, m.min) && IsValue(t, m.max)
    ensures ReadElement(t, file, pos) == (m, pos + |ElementBytes(t, m)|)
  {
    hide *;
    var a, b := AsUint64(m.min), AsUint64(Cast(t, m.max - m.min));
    ElementParts(t, m);
    AtConcat(file, pos, Pack(a), Pack(b));
    UnpackPack(file, pos, a, U64_LIMIT);
    UnpackPack(file, pos + |Pack(a)|, b, U64_LIMIT);
    StoredEnds(t, m);
    ElementRead(t, file, pos, a, b, pos + |Pack(a)|, pos + |Pack(a)| + |Pack(b)|);
  }

  lemma {:induction false} ElementParts(t: ColumnType, m: MinMax)
    ensures ElementBytes(t, m) == Pack(AsUint64(m.min)) + Pack(AsUint64(Cast(t, m.max - m.min)))
  {
    hide Pack, Cast, AsUint64;
  }

  lemma {:induction false} ElementRead(t: ColumnType, file: seq<u8>, pos: nat, a: nat, b: nat, mid: nat, end: nat)
    requires Unpack(file, pos, U64_LIMIT) == Decoded(a, mid) && Unpack(file, mid, U64_LIMIT) == Decoded(b, end)
    ensures ReadElement(t, file, pos) == (MinMax(Cast(t, a), Cast(t, Cast(t, a) + Cast(t, b))), end)
  {
    hide Unpack, Cast;
  }

  /** MinMax_T: the loaded tree, all intervals in one array and per level its size and where it starts. */
  class MinMaxTable {
    var tree: seq<MinMax>
    var sizes: seq<nat>
    var starts: seq<nat>

    /** Level i of the loaded tree. */
    function Level(i: nat): seq<MinMax>
      reads this
    {
      if i < |sizes| && i < |starts| && starts[i] + sizes[i] <= |tree| then tree[starts[i]..starts[i] + sizes[i]] else
          []
    }

    constructor ()
    {
      tree, sizes, starts := [], [], [];
    }

    /** Load: the number of levels, their sizes, and the intervals, top level first. */
    method Load(t: ColumnType, file: seq<u8>, pos: nat, ghost tops: seq<seq<MinMax>>)
      requires At(file, pos, TreeBytes(t, tops)) && |tops| < U32_LIMIT
      requires forall k :: 0 <= k < |tops| ==> |tops[k]| < U32_LIMIT
      requires forall k :: 0 <= k < |Elements(tops)| ==>
              IsValue(t, Elements(tops)[k].min) && IsValue(t, Elements(tops)[k].max)
      modifies this
      ensures |sizes| == |tops| && forall k :: 0 <= k < |tops| ==> Level(k) == tops[k]
    {
      hide *;
      TreeAt(t, file, pos, tops);
      var count := Unpack(file, pos, U32_LIMIT);
      UnpackPack(file, pos, |tops|, U32_LIMIT);
      var p := count.next;
      ghost var sizesPos := p;
      NoLevels(t);
      sizes := [];
      var total := 0;
      var i := 0;
      while i < count.value
        invariant 0 <= i <= count.value == |tops| == |sizes| + count.value - i
        invariant p == sizesPos + |SizesBytes(tops[..i])| && total == |Elements(tops[..i])|
        invariant forall k :: 0 <= k < i ==> sizes[k] == |tops[k]|
      {
        SizesPrefix(file, sizesPos, tops, i);
        UnpackPack(file, p, |tops[i]|, U32_LIMIT);
        MoreElements(tops, i);
        var size := Unpack(file, p, U32_LIMIT);
        sizes := sizes + [size.value];
        total := total + size.value;
        p := size.next;
        i := i + 1;
      }
      assert tops[..i] == tops;
      LoadElements(t, file, p, total, Elements(tops));
      SetStarts(tops);
    }

    method LoadElements(t: ColumnType, file: seq<u8>, pos: nat, total: nat, ghost es: seq<MinMax>)
      requires At(file, pos, ElementsBytes(t, es)) && total == |es|
      requires forall k :: 0 <= k < |es| ==> IsValue(t, es[k].min) && IsValue(t, es[k].max)
      modifies this`tree
      ensures tree == es
    {
      hide *;
      tree := [];
      var p := pos;
      var i := 0;
      NoLevels(t);
      while i < total
        invariant 0 <= i <= total && tree == es[..i] && p == pos + |ElementsBytes(t, es[..i])|
      {
        ElementsPrefix(t, file, pos, es, i);
        ElementBack(t, file, p, es[i]);
        var e := ReadElement(t, file, p);
        tree := tree + [e.0];
        p := e.1;
        i := i + 1;
      }
    }

    /** Lets each level point at its stretch of the array. */
    method SetStarts(ghost tops: seq<seq<MinMax>>)
      requires |sizes| == |tops| && tree == Elements(tops) && forall k :: 0 <= k < |tops| ==> sizes[k] == |tops[k]|
      modifies this`starts
      ensures forall k :: 0 <= k < |tops| ==> Level(k) == tops[k]
    {
      hide Elements;
      starts := [];
      var cumulative := 0;
      var i := 0;
      NoLevels(UInt32);
      while i < |sizes|
        invariant 0 <= i <= |sizes| && |starts| == i && cumulative == |Elements(tops[..i])|
        invariant forall k :: 0 <= k < i ==> starts[k] == |Elements(tops[..k])|
      {
        MoreElements(tops, i);
        starts := starts + [cumulative];
        cumulative := cumulative + sizes[i];
        i := i + 1;
      }
      forall k | 0 <= k < |tops| ensures Level(k) == tops[k] {
        ElementsAt(tops, k);
      }
    }
  }

  lemma {:induction false} TreeAt(t: ColumnType, file: seq<u8>, pos: nat, tops: seq<seq<MinMax>>)
    requires At(file, pos, TreeBytes(t, tops))
    ensures At(file, pos, Pack(|tops|)) && At(file, pos + |Pack(|tops|)|, SizesBytes(tops))
    ensures At(file, pos + |Pack(|tops|)| + |SizesBytes(tops)|, ElementsBytes(t, Elements(tops)))
  {
    hide At, Pack, SizesBytes, ElementsBytes, Elements;
    AtConcat(file, pos, Pack(|tops|) + SizesBytes(tops), ElementsBytes(t, Elements(tops)));
    AtConcat(file, pos, Pack(|tops|), SizesBytes(tops));
  }

  lemma {:induction false} NoLevels(t: ColumnType)
    ensures SizesBytes([]) == [] && Elements([]) == [] && ElementsBytes(t, []) == []
  {
  }

  lemma {:induction false} MoreElements(tops: seq<seq<MinMax>>, i: nat)
    requires i < |tops|
    ensures |Elements(tops[..i + 1])| == |Elements(tops[..i])| + |tops[i]|
  {
    assert tops[..i + 1][..i] == tops[..i];
  }

  lemma {:induction false} ElementsAt(tops: seq<seq<MinMax>>, k: nat)
    requires k < |tops|
    ensures var s := |Elements(tops[..k])|;
            s + |tops[k]| <= |Elements(tops)| && Elements(tops)[s..s + |tops[k]|] == tops[k]
    decreases |tops|
  {
    var n := |tops| - 1;
    var s := |Elements(tops[..k])|;
    if k < n {
      ElementsAt(tops[..n], k);
      assert tops[..n][..k] == tops[..k];
      assert Elements(tops)[s..s + |tops[k]|] == Elements(tops[..n])[s..s + |tops[k]|];
    }
  }
}
