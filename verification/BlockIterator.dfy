/**
  The prefilter (columnar/columnar.cpp, BlockIterator_c; columnar/accessor/accessor.h, MatchingBlocks_c):
  hands out the rows of the matching leaves, at most 1023 at a time, and can skip ahead on hints.
 */
module BlockIterator {
  import opened MinMaxEval
  import opened MinMaxTree
  import opened RowRuns
  import opened Orders
  import opened Shifts

  /** The leaves of a column: how many there are, how many rows fit one (1 << shift), and how many rows there are. */
  datatype Layout = Layout(numBlocks: nat, shift: nat, docs: nat)

  ghost predicate GoodLayout(l: Layout) {
    && l.docs <= Shl(l.numBlocks, l.shift)
    && (l.numBlocks > 0 ==> Shl(l.numBlocks - 1, l.shift) < l.docs)
  }

  lemma {:induction false} OneLeaf(n: nat)
    ensures Shl(1, n) > 0
  {
    ShlZero(n);
    ShlStrict(0, n);
  }

  /** GetNumDocs: rows in a leaf. */
  function NumDocs(l: Layout, k: nat): nat {
    if k + 1 < l.numBlocks then Shl(1, l.shift)
    else
      OneLeaf(l.shift);
      var leftover := l.docs % Shl(1, l.shift);
      if leftover > 0 then leftover else Shl(1, l.shift)
  }

  /** The rows of a leaf start at the leaf number times the leaf size and end with the leaf, or with the rows. */
  lemma {:induction false} LeafRows(l: Layout, k: nat)
    requires GoodLayout(l) && k < l.numBlocks
    ensures 0 < NumDocs(l, k) && Shl(k, l.shift) + NumDocs(l, k) <= Shl(k + 1, l.shift)
    ensures Shl(k, l.shift) + NumDocs(l, k) == if k + 1 < l.numBlocks then Shl(k + 1, l.shift) else l.docs
  {
    OneLeaf(l.shift);
    ShlSum(k, 1, l.shift);
    var size := Shl(1, l.shift);
    if k + 1 == l.numBlocks {
      var r := l.docs - Shl(k, l.shift);
      ShlProduct(1, k, l.shift);
      assert l.docs == k * size + r && 0 < r <= size;
      hide Shl;
      Leftover(l.docs, size, k, r);
    }
  }

  lemma {:induction false} Leftover(docs: nat, size: nat, k: nat, r: nat)
    requires docs == k * size + r && 0 < r <= size
    ensures docs % size == if r == size then 0 else r
  {
    if r == size {
      assert docs == (k + 1) * size;
      Remainder(docs, size, k + 1, 0);
    } else {
      Remainder(docs, size, k, r);
    }
  }

  lemma {:induction false} Remainder(x: nat, size: nat, k: nat, r: nat)
    requires x == k * size + r && r < size
    ensures x % size == r
  {
    var q := x / size;
    assert x == q * size + x % size;
    assert (q - k) * size == r - x % size;
    ZeroMultiple(q - k, size, r - x % size);
  }

  lemma {:induction false} ZeroMultiple(d: int, size: nat, e: int)
    requires d * size == e && e < size && -e < size
    ensures e == 0
  {
    ProductApart(d, size);
  }

  lemma {:induction false} ProductApart(d: int, size: nat)
    ensures d > 0 ==> d * size >= size
    ensures d < 0 ==> -(d * size) >= size
  {
  }

  // ---------------------------------------------------------------- the rows to be handed out

  /** The rows of the matching leaves from position i of the list on. */
  function RowsFrom(l: Layout, blocks: seq<nat>, i: nat): seq<nat>
    decreases |blocks| - i
  {
    if i >= |blocks| then []
    else Range(Shl(blocks[i], l.shift), Shl(blocks[i], l.shift) + NumDocs(l, blocks[i])) + RowsFrom(l, blocks, i + 1)
  }

  /** What an iterator at row rowID of leaf number i of the list has yet to hand out. */
  function RowsAt(l: Layout, blocks: seq<nat>, i: nat, docsInBlock: nat, rowID: nat): seq<nat>
  {
    if docsInBlock == 0 || i >= |blocks| then []
    else Range(rowID, Shl(blocks[i], l.shift) + docsInBlock) + RowsFrom(l, blocks, i + 1)
  }

  ghost predicate GoodBlocks(l: Layout, blocks: seq<nat>) {
    && GoodLayout(l)
    && (forall i :: 0 <= i < |blocks| ==> blocks[i] < l.numBlocks)
    && (forall i, j :: 0 <= i < j < |blocks| ==> blocks[i] < blocks[j])
  }

  lemma {:induction false} LeafDone(l: Layout, blocks: seq<nat>, i: nat, docsInBlock: nat, rowID: nat)
    requires i < |blocks| && docsInBlock > 0 && rowID >= Shl(blocks[i], l.shift) + docsInBlock
    ensures RowsAt(l, blocks, i, docsInBlock, rowID) == RowsFrom(l, blocks, i + 1)
  {
    hide Shl, NumDocs, RowsFrom;
    assert [] + RowsFrom(l, blocks, i + 1) == RowsFrom(l, blocks, i + 1);
  }

  lemma {:induction false} TakeRow(l: Layout, blocks: seq<nat>, i: nat, docsInBlock: nat, rowID: nat, rows: seq<nat>)
    requires i < |blocks| && docsInBlock > 0 && rowID < Shl(blocks[i], l.shift) + docsInBlock
    ensures rows + RowsAt(l, blocks, i, docsInBlock, rowID) == rows + [rowID] +
            RowsAt(l, blocks, i, docsInBlock, rowID + 1)
  {
    var end := Shl(blocks[i], l.shift) + docsInBlock;
    hide Shl, NumDocs, RowsFrom;
    assert Range(rowID, end) == [rowID] + Range(rowID + 1, end);
    hide Range;
    var a, b := Range(rowID + 1, end), RowsFrom(l, blocks, i + 1);
    assert rows + ([rowID] + a + b) == rows + [rowID] + (a + b);
  }

  lemma {:induction false} NothingTaken(s: seq<nat>)
    ensures [] + s == s && s + [] == s
  {
  }

  /** The rows of a leaf before leaf v lie before it. */
  lemma {:induction false} LeafUnder(l: Layout, k: nat, v: nat, a: nat)
    requires GoodLayout(l) && k < l.numBlocks && k < v
    ensures AllUnder(Range(a, Shl(k, l.shift) + NumDocs(l, k)), Shl(v, l.shift))
  {
    LeafRows(l, k);
    ShlGrows(k + 1, v, l.shift);
    hide NumDocs, GoodLayout, Shl;
  }

  /** The rows of a leaf from v on lie there. */
  lemma {:induction false} LeafFrom(l: Layout, k: nat, v: nat, a: nat, b: nat)
    requires v <= k && Shl(k, l.shift) <= a
    ensures AllFrom(Range(a, b), Shl(v, l.shift))
  {
    ShlGrows(v, k, l.shift);
    hide Shl;
  }

  lemma {:induction false} GoodBlock(l: Layout, blocks: seq<nat>, i: nat)
    requires GoodBlocks(l, blocks) && i < |blocks|
    ensures GoodLayout(l) && blocks[i] < l.numBlocks
  {
    hide GoodLayout;
  }

  lemma {:induction false} RowsStep(l: Layout, blocks: seq<nat>, i: nat, docsInBlock: nat, rowID: nat)
    requires i < |blocks|
    ensures RowsFrom(l, blocks, i) == Range(Shl(blocks[i], l.shift), Shl(blocks[i], l.shift) + NumDocs(l, blocks[i])) +
            RowsFrom(l, blocks, i + 1)
    ensures docsInBlock > 0 ==> RowsAt(l, blocks, i, docsInBlock, rowID) == Range(rowID,
            Shl(blocks[i], l.shift) + docsInBlock) + RowsFrom(l, blocks, i + 1)
    ensures docsInBlock == 0 ==> RowsAt(l, blocks, i, docsInBlock, rowID) == []
  {
    hide Shl, NumDocs, Range;
  }

  lemma {:induction false} NoRows(l: Layout, blocks: seq<nat>, i: nat, rowID: nat)
    ensures RowsAt(l, blocks, i, 0, rowID) == []
  {
  }

  /** Leaves of the list before leaf v hold only rows before it. */
  lemma {:induction false} SkipLeaves(l: Layout, blocks: seq<nat>, i: nat, next: nat, v: nat)
    requires GoodBlocks(l, blocks) && i <= next <= |blocks| && forall j :: i <= j < next ==> blocks[j] < v
    ensures Dropped(RowsFrom(l, blocks, i), RowsFrom(l, blocks, next), Shl(v, l.shift))
    decreases next - i
  {
    hide *;
    if i == next {
      DroppedNone(RowsFrom(l, blocks, i), Shl(v, l.shift));
    } else {
      SkipLeaves(l, blocks, i + 1, next, v);
      GoodBlock(l, blocks, i);
      LeafUnder(l, blocks[i], v, Shl(blocks[i], l.shift));
      RowsStep(l, blocks, i, 0, 0);
      DroppedFront(Range(Shl(blocks[i], l.shift), Shl(blocks[i], l.shift) + NumDocs(l, blocks[i])),
          RowsFrom(l, blocks, i + 1), RowsFrom(l, blocks, next), Shl(v, l.shift));
    }
  }

  /** From inside a leaf. */
  lemma {:induction false} SkipTo(l: Layout, blocks: seq<nat>, i: nat, docsInBlock: nat, rowID: nat, next: nat, v: nat)
    requires GoodBlocks(l, blocks) && i < next <= |blocks| && forall j :: i <= j < next ==> blocks[j] < v
    requires docsInBlock == NumDocs(l, blocks[i])
    ensures Dropped(RowsAt(l, blocks, i, docsInBlock, rowID), RowsFrom(l, blocks, next), Shl(v, l.shift))
  {
    hide *;
    GoodBlock(l, blocks, i);
    LeafUnder(l, blocks[i], v, rowID);
    LeafRows(l, blocks[i]);
    SkipLeaves(l, blocks, i + 1, next, v);
    RowsStep(l, blocks, i, docsInBlock, rowID);
    DroppedFront(Range(rowID, Shl(blocks[i], l.shift) + docsInBlock), RowsFrom(l, blocks, i + 1),
        RowsFrom(l, blocks, next), Shl(v, l.shift));
  }

  /** Leaves of the list from leaf v on hold no rows before it. */
  lemma {:induction false} KeepLeaves(l: Layout, blocks: seq<nat>, i: nat, v: nat)
    requires GoodBlocks(l, blocks) && (i < |blocks| ==> v <= blocks[i])
    ensures AllFrom(RowsFrom(l, blocks, i), Shl(v, l.shift))
    decreases |blocks| - i
  {
    hide NumDocs, Shl, GoodLayout, Range;
    if i < |blocks| {
      KeepLeaves(l, blocks, i + 1, v);
      hide GoodBlocks;
      RowsStep(l, blocks, i, 0, 0);
      var a, b := Shl(blocks[i], l.shift), Shl(blocks[i], l.shift) + NumDocs(l, blocks[i]);
      LeafFrom(l, blocks[i], v, a, b);
      JoinFrom(Range(a, b), RowsFrom(l, blocks, i + 1), Shl(v, l.shift));
    }
  }

  /** From inside a leaf. */
  lemma {:induction false} KeepFrom(l: Layout, blocks: seq<nat>, i: nat, docsInBlock: nat, rowID: nat, v: nat)
    requires GoodBlocks(l, blocks) && i < |blocks| && v <= blocks[i] && Shl(blocks[i], l.shift) <= rowID
    ensures AllFrom(RowsAt(l, blocks, i, docsInBlock, rowID), Shl(v, l.shift))
  {
    hide NumDocs, Shl, GoodLayout, Range, RowsFrom;
    var end := Shl(blocks[i], l.shift) + docsInBlock;
    LeafFrom(l, blocks[i], v, rowID, end);
    KeepLeaves(l, blocks, i + 1, v);
    JoinFrom(Range(rowID, end), RowsFrom(l, blocks, i + 1), Shl(v, l.shift));
  }

  lemma {:induction false} NoLeaves(l: Layout, blocks: seq<nat>)
    ensures RowsFrom(l, blocks, |blocks|) == []
  {
  }

  lemma {:induction false} StartIs(r: nat, l: Layout)
    ensures LeafStart(r, l.shift) == Shl(Above(r, l.shift), l.shift)
  {
    hide Shl, Above;
  }

  class BlockIterator {
    const l: Layout
    const blocks: seq<nat>        // the matching leaves
    var doc: nat
    var block: nat
    var docsInBlock: nat
    var rowID: nat

    ghost predicate Valid()
      reads this
    {
      && GoodBlocks(l, blocks) && (block < |blocks| || docsInBlock == 0)
      && (docsInBlock > 0 ==>
            docsInBlock == NumDocs(l, blocks[block]) && doc <= docsInBlock &&
                rowID == Shl(blocks[block], l.shift) + doc)
      && (block < |blocks| || block == 0) && (docsInBlock == 0 ==> block + 1 >= |blocks|)
    }

    /** The rows still to come. */
    ghost function Rest(): seq<nat>
      reads this
    {
      RowsAt(l, blocks, block, docsInBlock, rowID)
    }

    constructor (l: Layout, blocks: seq<nat>)
      requires GoodBlocks(l, blocks)
      ensures Valid() && Rest() == RowsFrom(l, blocks, 0) && this.l == l && this.blocks == blocks
    {
      this.l, this.blocks := l, blocks;
      doc, block, docsInBlock, rowID := 0, 0, 0, 0;
      new;
      var ok := SetCurBlock(0);
    }

    /** SetCurBlock: goes to the start of a leaf of the list; past the list, nothing is left. */
    method SetCurBlock(i: nat) returns (ok: bool)
      requires GoodBlocks(l, blocks) && (block < |blocks| || block == 0) && (i >= |blocks| ==> block + 1 >= |blocks|)
      modifies this
      ensures Valid() && ok == (i < |blocks|) && Rest() == RowsFrom(l, blocks, i)
      ensures ok ==> block == i && doc == 0 && docsInBlock > 0
      ensures !ok ==> block == old(block) && docsInBlock == 0
    {
      if i >= |blocks| {
        docsInBlock := 0;
        return false;
      }
      LeafRows(l, blocks[i]);
      hide NumDocs, Shl, GoodLayout;
      block := i;
      docsInBlock := NumDocs(l, blocks[i]);
      rowID := Shl(blocks[i], l.shift);
      doc := 0;
      return true;
    }

    /** GetNextRowIdBlock: the next 1023 rows, or all that are left. */
    method GetNextRowIdBlock() returns (ok: bool, rows: seq<nat>)
      requires Valid()
      modifies this
      ensures Valid() && |rows| <= 1023 && rows + Rest() == old(Rest())
      ensures ok == (rows != []) && (|rows| < 1023 ==> Rest() == [])
    {
      hide NumDocs, Shl, GoodLayout, RowsAt, RowsFrom, GoodBlocks;
      rows := [];
      NothingTaken(Rest());
      NoRows(l, blocks, block, rowID);
      while |rows| < 1023
        invariant Valid() && |rows| <= 1023 && rows + Rest() == old(Rest())
        invariant rows != [] ==> docsInBlock > 0
        invariant docsInBlock == 0 ==> Rest() == []
      {
        if doc >= docsInBlock {
          if docsInBlock == 0 {
            return false, [];
          }
          LeafDone(l, blocks, block, docsInBlock, rowID);
          var more := SetCurBlock(block + 1);
          if !more {
            NoRows(l, blocks, block, rowID);
            break;
          }
        }
        TakeRow(l, blocks, block, docsInBlock, rowID, rows);
        rows := rows + [rowID];
        doc := doc + 1;
        rowID := rowID + 1;
      }
      ok := rows != [];
    }

    /**
      HintRowID: goes to the first listed leaf from the current one on that is not before that of a row; false,
      with nothing moved, when there is none.
     */
    method HintRowID(r: nat) returns (ok: bool)
      requires Valid()
      modifies this
      ensures Valid()
      ensures ok <==> exists i :: old(block) <= i < |blocks| && Above(r, l.shift) <= blocks[i]
      ensures StepOk(old(Rest()), Rest(), Hinted(r, ok), l.shift) && (!ok ==> Rest() == old(Rest()))
      ensures old(block) <= block && (forall i :: old(block) <= i < block ==> blocks[i] < Above(r, l.shift))
      ensures block == if ok then FindBlock(blocks, old(block), Above(r, l.shift)) else old(block)
    {
      hide NumDocs, Shl, GoodLayout, Above, RowsFrom, RowsAt, Dropped, AllFrom, LeafStart;
      var v := Above(r, l.shift);
      var next := FindBlock(blocks, block, v);
      StartIs(r, l);
      NoLeaves(l, blocks);
      NoRows(l, blocks, block, rowID);
      if next >= |blocks| {
        if docsInBlock > 0 {
          SkipTo(l, blocks, block, docsInBlock, rowID, next, v);
          DroppedToNothing(Rest(), Shl(v, l.shift));
        }
        return false;
      }
      if next > block {
        SkipTo(l, blocks, block, docsInBlock, rowID, next, v);
        KeepLeaves(l, blocks, next, v);
        var moved := SetCurBlock(next);
        return true;
      }
      DroppedNone(Rest(), Shl(v, l.shift));
      if docsInBlock > 0 {
        KeepFrom(l, blocks, block, docsInBlock, rowID, v);
      } else {
        NothingFrom(Shl(v, l.shift));
      }
      return true;
    }
  }

  lemma {:induction false} NothingFrom(v: nat)
    ensures AllFrom([], v)
  {
  }

  // ---------------------------------------------------------------- which rows come, and in which order

  lemma {:induction false} InLeaf(l: Layout, k: nat, x: nat)
    requires GoodLayout(l) && k < l.numBlocks
    ensures Shl(k, l.shift) <= x < Shl(k, l.shift) + NumDocs(l, k) <==> x < l.docs && Above(x, l.shift) == k
  {
    LeafRows(l, k);
    if Below(k, l.shift, x) {
      AboveIs(k, l.shift, x);
    }
    AboveBelow(x, l.shift);
    if k + 1 < l.numBlocks {
      ShlGrows(k + 1, l.numBlocks - 1, l.shift);
    }
    assert Below(Above(x, l.shift), l.shift, x);
    hide NumDocs, Above, Shl;
  }

  /** The rows to be handed out: those of the matching leaves, ascending, each once. */
  lemma {:induction false} RowsExact(l: Layout, blocks: seq<nat>, i: nat, x: nat)
    requires GoodBlocks(l, blocks) && i <= |blocks|
    ensures x in RowsFrom(l, blocks, i) <==> x < l.docs && Above(x, l.shift) in blocks[i..]
    decreases |blocks| - i
  {
    hide NumDocs, Shl, Above, Range, GoodLayout;
    if i < |blocks| {
      GoodBlock(l, blocks, i);
      RowsExact(l, blocks, i + 1, x);
      InLeaf(l, blocks[i], x);
      InRange(Shl(blocks[i], l.shift), Shl(blocks[i], l.shift) + NumDocs(l, blocks[i]), x);
      assert blocks[i..] == [blocks[i]] + blocks[i + 1..];
      hide GoodBlocks;
    }
  }

  lemma {:induction false} RowsAscend(l: Layout, blocks: seq<nat>, i: nat)
    requires GoodBlocks(l, blocks) && i <= |blocks|
    ensures Ascending(RowsFrom(l, blocks, i))
    decreases |blocks| - i
  {
    hide NumDocs, Shl, Above, Range, GoodLayout, Ascending;
    if i < |blocks| {
      GoodBlock(l, blocks, i);
      RowsAscend(l, blocks, i + 1);
      var a, b := Range(Shl(blocks[i], l.shift), Shl(blocks[i], l.shift) + NumDocs(l, blocks[i])),
          RowsFrom(l, blocks, i + 1);
      InRange(Shl(blocks[i], l.shift), Shl(blocks[i], l.shift) + NumDocs(l, blocks[i]), 0);
      forall x, y | x in a && y in b ensures x < y {
        LeafOrder(l, blocks, i, x, y);
      }
      JoinAscending(a, b);
    } else {
      NoLeaves(l, blocks);
      EmptyAscends();
    }
  }

  lemma {:induction false} LeafOrder(l: Layout, blocks: seq<nat>, i: nat, x: nat, y: nat)
    requires GoodBlocks(l, blocks) && i < |blocks|
    requires x in Range(Shl(blocks[i], l.shift), Shl(blocks[i], l.shift) + NumDocs(l, blocks[i])) &&
             y in RowsFrom(l, blocks, i + 1)
    ensures x < y
  {
    hide *;
    InRange(Shl(blocks[i], l.shift), Shl(blocks[i], l.shift) + NumDocs(l, blocks[i]), x);
    GoodBlock(l, blocks, i);
    InLeaf(l, blocks[i], x);
    RowsExact(l, blocks, i + 1, y);
    LaterBlock(l, blocks, i, Above(y, l.shift));
    EarlierLeaf(x, y, l.shift);
  }

  lemma {:induction false} LaterBlock(l: Layout, blocks: seq<nat>, i: nat, k: nat)
    requires GoodBlocks(l, blocks) && i < |blocks| && k in blocks[i + 1..]
    ensures blocks[i] < k
  {
    hide GoodLayout;
    var j :| 0 <= j < |blocks[i + 1..]| && blocks[i + 1..][j] == k;
    assert k == blocks[i + 1 + j];
  }

  /**
    Any interleaving of reads and hints over the matching leaves: the rows come in strictly ascending order, only
    rows of those leaves come, one that no hint has passed has come once the run is refused or drained, and hints
    are obeyed.
   */
  lemma {:induction false} PrefilterRun(l: Layout, blocks: seq<nat>, rests: seq<seq<nat>>, steps: seq<Step>, x: nat)
    requires GoodBlocks(l, blocks) && IsRun(rests, steps, l.shift) && rests[0] == RowsFrom(l, blocks, 0)
    ensures Ascending(Emitted(steps) + rests[|steps|]) && HintsObeyed(steps, l.shift, x)
    ensures x in Emitted(steps) ==> x < l.docs && Above(x, l.shift) in blocks
    ensures (x < l.docs && Above(x, l.shift) in blocks &&
            (forall i :: 0 <= i < |steps| && steps[i].Hinted? ==> steps[i].r <= x)) ==>
              (x in Emitted(steps) || x in rests[|steps|]) &&
              (Ended(steps) ==> x in Emitted(steps))
  {
    hide GoodBlocks, RowsFrom, Above, Ascending, Emitted, StepOk, HintsObeyed;
    RowsExact(l, blocks, 0, x);
    RowsAscend(l, blocks, 0);
    assert blocks[0..] == blocks;
    RunAscends(rests, steps, l.shift);
    RunObeysHints(rests, steps, l.shift, x);
    if x in Emitted(steps) {
      RunInventsNothing(rests, steps, l.shift, x);
    }
    if x in rests[0] && forall i :: 0 <= i < |steps| && steps[i].Hinted? ==> steps[i].r <= x {
      RunLosesNothing(rests, steps, l.shift, x);
    }
  }

  // ---------------------------------------------------------------- joined with the descent

  /**
    A row whose values the tester accepts is in the leaves the descent finds, so the prefilter hands it out:
    point holds the values of the row, each as an interval of its own, which the bounds of its leaf cover.
   */
  lemma {:induction false} RowKept(q: Query, l: Layout, x: nat, point: seq<MinMax>)
    requires Good(q) && Monotone(q.test) && q.limits.NoLimits? && q.stop == Levels(q) - 1
    requires GoodLayout(l) && l.numBlocks == Size(q, q.stop) && x < l.docs
    requires Above(x, l.shift) < l.numBlocks && CoversAll(Filled(q, q.stop, Above(x, l.shift), |q.hs|), point) &&
             q.test(point)
    ensures GoodBlocks(l, Part(q, 0, 0)) && x in RowsFrom(l, Part(q, 0, 0), 0)
  {
    hide *;
    var k := Above(x, l.shift);
    PointAccepted(q, k, point);
    FoundBlocksGood(q, l);
    DescentIsScan(q);
    RowsExact(l, Part(q, 0, 0), 0, x);
    assert Part(q, 0, 0)[0..] == Part(q, 0, 0);
  }

  lemma {:induction false} PointAccepted(q: Query, k: nat, point: seq<MinMax>)
    requires Good(q) && Monotone(q.test) && q.limits.NoLimits? && k < Size(q, q.stop)
    requires CoversAll(Filled(q, q.stop, k, |q.hs|), point) && q.test(point)
    ensures Matches(q, k)
  {
    hide Good, Filled, CoversAll, Size;
  }

  lemma {:induction false} FoundBlocksGood(q: Query, l: Layout)
    requires Good(q) && Monotone(q.test) && GoodLayout(l) && l.numBlocks == Size(q, q.stop)
    ensures GoodBlocks(l, Part(q, 0, 0))
  {
    hide Good, Monotone, Part, Matches, Accepts, GoodLayout, Size;
    DescentIsScan(q);
    StopBound(q);
    var blocks := Part(q, 0, 0);
    forall i | 0 <= i < |blocks| ensures blocks[i] < l.numBlocks {
      assert blocks[i] in blocks;
      MatchesAccepts(q, blocks[i]);
      AcceptsInside(q, q.stop, blocks[i]);
    }
  }

  /** A value of a row is covered by the leaf of its block. */
  lemma {:induction false} ValueCovered(blocks: seq<seq<seq<int>>>, leaves: seq<MinMax>, k: nat, v: int)
    requires LeavesOf(blocks, leaves) && k < |blocks| && v in ValuesOf(blocks[k])
    ensures Covers(leaves[k], MinMax(v, v))
  {
    assert Bounds(ValuesOf(blocks[k]), leaves[k]);
  }
}
