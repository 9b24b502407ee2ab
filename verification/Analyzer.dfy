/**
  Scanning a column subblock by subblock (columnar/accessor/accessortraits.h, Analyzer_T and
  StoredBlockTraits_t; columnar/accessor/accessorint.cpp, Analyzer_INT_T): blocks that the filter rejects
  as a whole are skipped, the others append their passing rows to a buffer of two subblocks.
 */
module Analyzer {
  import opened Buffers
  import opened RowRuns
  import opened Orders
  import opened Shifts

  // A block holds 65536 rows (BLOCK_ID_BITS is 16).

  /**
    A column as a filter sees it. Rows come in subblocks of 1 << shift; list holds the subblocks to visit.
    pass says which rows the filter lets through, accept which blocks are not rejected as a whole, and full
    which blocks are taken whole because every row passes.
   */
  datatype Column = Column(docs: nat, shift: nat, have: bool, list: seq<nat>, pass: nat -> bool, accept: nat -> bool,
      full: nat -> bool)

  function LowBits(x: nat, n: nat): nat {
    AboveBelow(x, n);
    x - Shl(Above(x, n), n)
  }

  lemma {:induction false} LowBitsFacts(x: nat, n: nat)
    ensures x == Shl(Above(x, n), n) + LowBits(x, n) && LowBits(x, n) < Shl(1, n)
    ensures Shl(Above(x, n) + 1, n) == Shl(Above(x, n), n) + Shl(1, n)
  {
    AboveBelow(x, n);
    hide Shl, Above;
    ShlSum(Above(x, n), 1, n);
  }

  function SubblockSize(c: Column): (r: nat)
    ensures r > 0
  {
    Shl(1, c.shift)
  }

  function TotalSubblocks(c: Column): nat {
    Above(c.docs + SubblockSize(c) - 1, c.shift)
  }

  function NumBlocks(c: Column): nat {
    Above(c.docs + 65535, 16)
  }

  /** SubblockId2BlockId. */
  function BlockOf(c: Column, s: nat): nat
    requires c.shift <= 16
  {
    Above(s, 16 - c.shift)
  }

  /** The subblocks to visit are numbered in order; without a list they are all subblocks. */
  ghost predicate Good(c: Column) {
    && c.shift <= 16
    && (forall i :: 0 <= i < |c.list| ==> c.list[i] < TotalSubblocks(c))
    && (forall i, j :: 0 <= i < j < |c.list| ==> c.list[i] < c.list[j])
    && (!c.have ==> |c.list| == TotalSubblocks(c) && forall i :: 0 <= i < |c.list| ==> c.list[i] == i)
  }

  // ---------------------------------------------------------------- how many rows a subblock has

  /** AttributeHeader_c::GetNumDocs: rows in a block. */
  function NumDocsInBlock(c: Column, block: nat): nat {
    if block + 1 == NumBlocks(c) then
      var leftover := LowBits(c.docs, 16);
      if leftover > 0 then leftover else 65536
    else 65536
  }

  /** GetNumSubblockValues, for a subblock counted from the start of its block. */
  function NumSubblockValues(c: Column, numDocs: nat, sub: nat): nat {
    var numSubblocks := Above(numDocs + SubblockSize(c) - 1, c.shift);
    if numDocs == 65536 then SubblockSize(c)
    else if sub + 1 < numSubblocks then SubblockSize(c)
    else
      var leftover := LowBits(numDocs, c.shift);
      if leftover > 0 then leftover else SubblockSize(c)
  }

  function SubStart(c: Column, s: nat): nat {
    Shl(s, c.shift)
  }

  function SubEnd(c: Column, s: nat): nat {
    if Shl(s + 1, c.shift) <= c.docs then Shl(s + 1, c.shift) else c.docs
  }

  /** Rounding up: how many pieces of 1 << n are needed. */
  lemma {:induction false} PiecesNeeded(x: nat, n: nat)
    ensures var k := Above(x + Shl(1, n) - 1, n);
            x <= Shl(k, n) && (k > 0 ==> Shl(k - 1, n) < x) &&
            k == (if LowBits(x, n) > 0 then Above(x, n) + 1 else Above(x, n))
  {
    hide *;
    var y := x + Shl(1, n) - 1;
    LowBitsFacts(y, n);
    LowBitsFacts(x, n);
    var k := Above(y, n);
    if k > 0 {
      ShlSum(k - 1, 1, n);
    }
    var a := Above(x, n);
    var want := if LowBits(x, n) > 0 then a + 1 else a;
    ShlSum(want, 1, n);
    InBelow(want, n, y);
    AboveIs(want, n, y);
  }

  lemma {:induction false} BlockIs(c: Column, s: nat)
    requires c.shift <= 16
    ensures BlockOf(c, s) == Above(s, 16 - c.shift)
  {
  }

  lemma {:induction false} NumBlocksIs(c: Column)
    ensures NumBlocks(c) == Above(c.docs + 65535, 16)
  {
    hide Above;
  }

  lemma {:induction false} NumDocsIs(c: Column, block: nat)
    ensures NumDocsInBlock(c, block) == if block + 1 == NumBlocks(c) &&
            LowBits(c.docs, 16) > 0 then LowBits(c.docs, 16) else 65536
  {
    hide Above, LowBits;
  }

  /** Subblock s of the column is subblock LowBits(s) of block BlockOf(s), and their rows start where they should. */
  lemma {:induction false} SubblockPlace(c: Column, s: nat)
    requires c.shift <= 16
    ensures var block, sub := BlockOf(c, s), LowBits(s, 16 - c.shift);
            s == Shl(block, 16 - c.shift) + sub && sub < Shl(1, 16 - c.shift) &&
            Shl(s, c.shift) == Shl(block, 16) + Shl(sub, c.shift) &&
                Shl(s + 1, c.shift) == Shl(block, 16) + Shl(sub + 1, c.shift)
  {
    hide *;
    BlockIs(c, s);
    SplitShift(s, 16 - c.shift, c.shift);
    SplitShift2(s, 16 - c.shift, c.shift);
    LowBitsFacts(s, 16 - c.shift);
    assert 16 - c.shift + c.shift == 16;
  }

  lemma {:induction false} SplitShift(s: nat, n: nat, m: nat)
    ensures Shl(s, m) == Shl(Above(s, n), n + m) + Shl(LowBits(s, n), m)
  {
    hide *;
    LowBitsFacts(s, n);
    ShlTwice(Above(s, n), n, m);
    ShlSum(Shl(Above(s, n), n), LowBits(s, n), m);
  }

  lemma {:induction false} SplitShift2(s: nat, n: nat, m: nat)
    ensures Shl(s + 1, m) == Shl(Above(s, n), n + m) + Shl(LowBits(s, n) + 1, m)
  {
    hide *;
    SplitShift(s, n, m);
    ShlSum(s, 1, m);
    ShlSum(LowBits(s, n), 1, m);
  }

  lemma {:induction false} SixteenBits()
    ensures Shl(1, 16) == 65536
  {
    assert Shl(1, 4) == 0x10 && Shl(0x10, 4) == 0x100;
    ShlTwice(1, 4, 4);
    assert Shl(0x100, 4) == 0x1000 && Shl(0x1000, 4) == 0x1_0000;
    ShlTwice(0x100, 4, 4);
    ShlTwice(1, 8, 8);
  }

  /** The rows of a block: all of it, or what is left of the column. */
  lemma {:induction false} BlockDocs(c: Column, block: nat)
    requires Shl(block, 16) < c.docs
    ensures block < NumBlocks(c)
    ensures NumDocsInBlock(c, block) == if Shl(block + 1, 16) <= c.docs then 65536 else c.docs - Shl(block, 16)
    ensures Shl(block + 1, 16) == Shl(block, 16) + 65536
  {
    hide *;
    SixteenBits();
    PiecesNeeded(c.docs, 16);
    LowBitsFacts(c.docs, 16);
    NumBlocksIs(c);
    NumDocsIs(c, block);
    ShlSum(block, 1, 16);
    var k := NumBlocks(c);
    if k <= block {
      ShlGrows(k, block, 16);
    }
    if block + 1 != k {
      ShlGrows(block + 1, k - 1, 16);
    }
  }

  /** The number of values a subblock is read with is the number of its rows. */
  lemma {:induction false} SubblockLength(c: Column, s: nat)
    requires c.shift <= 16 && Shl(s, c.shift) < c.docs
    ensures NumSubblockValues(c, NumDocsInBlock(c, BlockOf(c, s)), LowBits(s, 16 - c.shift)) == SubEnd(c,
            s) - SubStart(c, s)
    ensures 0 < SubEnd(c, s) - SubStart(c, s) <= SubblockSize(c)
  {
    hide LowBits, Above, Shl, BlockOf, NumDocsInBlock;
    var block, sub := BlockOf(c, s), LowBits(s, 16 - c.shift);
    SubblockPlace(c, s);
    BlockDocs(c, block);
    ShlSum(s, 1, c.shift);
    ShlSum(sub, 1, c.shift);
    var d := NumDocsInBlock(c, block);
    InsideBlock(c, sub);
    if d < 65536 {
      PiecesNeeded(d, c.shift);
      LowBitsFacts(d, c.shift);
      var k := Above(d + SubblockSize(c) - 1, c.shift);
      if sub >= k {
        ShlGrows(k, sub, c.shift);
      }
      if sub + 1 < k {
        ShlGrows(sub + 1, k - 1, c.shift);
      }
    }
  }

  lemma {:induction false} InsideBlock(c: Column, sub: nat)
    requires c.shift <= 16 && sub < Shl(1, 16 - c.shift)
    ensures Shl(sub + 1, c.shift) <= 65536
  {
    SixteenBits();
    ShlGrows(sub + 1, Shl(1, 16 - c.shift), c.shift);
    ShlTwice(1, 16 - c.shift, c.shift);
  }

  // ---------------------------------------------------------------- what a subblock yields

  /** The passing rows from a up to b. */
  function Passing(pass: nat -> bool, a: nat, b: nat): (r: seq<nat>)
    ensures |r| <= (if a <= b then b - a else 0) && forall i :: 0 <= i < |r| ==> a <= r[i] < b
    decreases b
  {
    if b <= a then [] else Passing(pass, a, b - 1) + (if pass(b - 1) then [b - 1] else [])
  }

  lemma {:induction false} PassingExact(pass: nat -> bool, a: nat, b: nat, x: nat)
    ensures x in Passing(pass, a, b) <==> a <= x < b && pass(x)
    ensures Ascending(Passing(pass, a, b))
    decreases b
  {
    if a < b {
      PassingExact(pass, a, b - 1, x);
    }
  }

  /**
    FillWithIncreasingValues: n rows from row a on, but behind the last whole group of four the numbers start
    again at a.
   */
  function Filled(a: nat, n: nat): (r: seq<nat>)
    ensures |r| == n && forall i :: 0 <= i < n ==> a <= r[i] < a + n
  {
    var whole := n / 4 * 4;
    seq(n, i requires 0 <= i < n => if i < whole then a + i else a + (i - whole))
  }

  /** The rows filled in are consecutive exactly when their number is a multiple of four, or less than four. */
  lemma {:induction false} FilledExactIff(a: nat, n: nat)
    ensures Filled(a, n) == Range(a, a + n) <==> n % 4 == 0 || n < 4
  {
    var whole := n / 4 * 4;
    if n % 4 != 0 && n >= 4 {
      assert Filled(a, n)[whole] == a && Range(a, a + n)[whole] == a + whole;
    }
  }

  /** Five rows from row 100 on. */
  lemma {:induction false} FilledRestarts()
    ensures Filled(100, 5) == [100, 101, 102, 103, 100]
  {
  }

  /** Where a value function is called full, all rows of the subblock are filled in; otherwise the passing ones are. */
  function Produced(c: Column, s: nat): (r: seq<nat>)
    requires c.shift <= 16
  {
    if c.full(BlockOf(c, s)) then Filled(SubStart(c, s),
        if SubEnd(c, s) >= SubStart(c, s) then SubEnd(c, s) - SubStart(c, s) else 0)
    else Passing(c.pass, SubStart(c, s), SubEnd(c, s))
  }

  /** What is handed out for a subblock: nothing when its block is rejected. */
  function Yield(c: Column, s: nat): seq<nat>
    requires c.shift <= 16
  {
    if c.accept(BlockOf(c, s)) then Produced(c, s) else []
  }

  /** What is handed out for the listed subblocks from position i on. */
  function RowsFrom(c: Column, i: nat): seq<nat>
    requires c.shift <= 16
    decreases |c.list| - i
  {
    if i >= |c.list| then [] else Yield(c, c.list[i]) + RowsFrom(c, i + 1)
  }

  /** The subblocks of accepted blocks from position i up to j. */
  function Visited(c: Column, i: nat, j: nat): seq<nat>
    requires c.shift <= 16 && j <= |c.list|
    decreases j
  {
    if j <= i then [] else Visited(c, i, j - 1) + (if c.accept(BlockOf(c, c.list[j - 1])) then [c.list[j - 1]] else [])
  }

  lemma {:induction false} VisitedSplit(c: Column, i: nat, j: nat, k: nat)
    requires c.shift <= 16 && i <= j <= k <= |c.list|
    ensures Visited(c, i, k) == Visited(c, i, j) + Visited(c, j, k)
    decreases k
  {
    if j < k {
      VisitedSplit(c, i, j, k - 1);
    }
  }

  // ---------------------------------------------------------------- skipping rejected blocks

  /** Listed subblocks from i up to j belong to rejected blocks. */
  ghost predicate AllRejected(c: Column, i: nat, j: nat)
    requires c.shift <= 16
  {
    i <= j <= |c.list| && forall k :: i <= k < j ==> !c.accept(BlockOf(c, c.list[k]))
  }

  lemma {:induction false} RejectedYieldNothing(c: Column, i: nat, j: nat)
    requires c.shift <= 16 && AllRejected(c, i, j)
    ensures RowsFrom(c, i) == RowsFrom(c, j) && Visited(c, i, j) == []
    decreases j - i
  {
    hide *;
    RejectedRange(c, i, j);
    NothingYet(c, j, [], []);
    if i < j {
      RejectedFront(c, i, j);
      RejectedYieldNothing(c, i + 1, j);
      VisitedSplit(c, i, i + 1, j);
      RejectedOne(c, i);
    }
  }

  lemma {:induction false} RejectedRange(c: Column, i: nat, j: nat)
    requires c.shift <= 16 && AllRejected(c, i, j)
    ensures i <= j <= |c.list|
  {
    hide BlockOf;
  }

  lemma {:induction false} RejectedFront(c: Column, i: nat, j: nat)
    requires c.shift <= 16 && AllRejected(c, i, j) && i < j
    ensures AllRejected(c, i + 1, j) && !c.accept(BlockOf(c, c.list[i]))
  {
    hide BlockOf;
  }

  lemma {:induction false} RejectedOne(c: Column, i: nat)
    requires c.shift <= 16 && i < |c.list| && !c.accept(BlockOf(c, c.list[i]))
    ensures RowsFrom(c, i) == RowsFrom(c, i + 1) && Visited(c, i, i + 1) == []
  {
    hide BlockOf, Produced;
    assert Visited(c, i, i) == [];
    assert [] + RowsFrom(c, i + 1) == RowsFrom(c, i + 1);
  }

  lemma {:induction false} JoinRejected(c: Column, i: nat, j: nat, k: nat)
    requires c.shift <= 16 && AllRejected(c, i, j) && AllRejected(c, j, k)
    ensures AllRejected(c, i, k)
  {
    hide BlockOf;
  }

  /** Listed subblocks between two of the same block are of that block. */
  ghost predicate SameBlock(c: Column, block: nat, i: nat, j: nat)
    requires c.shift <= 16
  {
    i <= j <= |c.list| && forall k :: i <= k < j ==> BlockOf(c, c.list[k]) == block
  }

  lemma {:induction false} SameBlockRejected(c: Column, block: nat, i: nat, j: nat)
    requires c.shift <= 16 && SameBlock(c, block, i, j) && !c.accept(block)
    ensures AllRejected(c, i, j)
  {
    hide BlockOf;
  }

  lemma {:induction false} NoneOfBlock(c: Column, block: nat, i: nat)
    requires c.shift <= 16 && i <= |c.list|
    ensures SameBlock(c, block, i, i)
  {
  }

  lemma {:induction false} SameBlockMore(c: Column, block: nat, i: nat, j: nat)
    requires c.shift <= 16 && SameBlock(c, block, i, j) && j < |c.list|
    ensures BlockOf(c, c.list[j]) == block ==> SameBlock(c, block, i, j + 1)
  {
    hide BlockOf;
  }

  /** Without a list: the subblocks of a block end where those of the next block start. */
  lemma {:induction false} NextBlockStarts(c: Column, block: nat, i: nat)
    requires Good(c) && !c.have && i < |c.list| && BlockOf(c, c.list[i]) == block
    ensures var j := Shl(block + 1, 16 - c.shift);
            i < j && SameBlock(c, block, i, if j <= |c.list| then j else |c.list|) &&
                (j < |c.list| ==> BlockOf(c, c.list[j]) == block + 1)
  {
    var n := 16 - c.shift;
    var j := Shl(block + 1, n);
    LowBitsFacts(i, n);
    assert c.list[i] == i;
    hide LowBits, Shl;
    forall k | i <= k < j && k < |c.list| ensures BlockOf(c, c.list[k]) == block {
      assert Below(block, n, k) by {
        InBelow(block, n, k);
      }
      AboveIs(block, n, k);
    }
    if j < |c.list| {
      ShlStrict(block + 1, n);
      assert Below(block + 1, n, j) by {
        InBelow(block + 1, n, j);
      }
      AboveIs(block + 1, n, j);
    }
  }

  // ---------------------------------------------------------------- filling the buffer

  /**
    FillWithIncreasingValues: groups of four by one store each, then the rest one by one; the row counter
    only counts the rest.
   */
  method FillWithIncreasingValues(buf: array<nat>, pos: nat, n: nat, rowID: nat) returns (end: nat, next: nat)
    requires pos + n <= buf.Length
    modifies buf
    ensures end == pos + n && next == rowID + n % 4
    ensures buf[..pos] == old(buf[..pos]) && buf[pos..end] == Filled(rowID, n)
  {
    hide *;
    ghost var before := buf[..];
    NothingFilled(before, pos, rowID, n);
    var groups := n / 4;
    var i, g := 0, 0;
    while g < groups
      invariant i == 4 * g && g <= groups
      invariant FilledSoFar(before, buf[..], pos, i, rowID, n)
    {
      ghost var was := buf[..];
      StoreFour(buf, pos + i, rowID + i);
      FourFilled(before, was, buf[..], pos, i, rowID, n);
      i, g := i + 4, g + 1;
    }
    next := rowID;
    while i < n
      invariant 4 * groups <= i <= n && next == rowID + (i - 4 * groups)
      invariant FilledSoFar(before, buf[..], pos, i, rowID, n)
    {
      ghost var was := buf[..];
      Append(buf, pos + i, next);
      OneFilled(before, was, buf[..], pos, i, rowID, n);
      next := next + 1;
      i := i + 1;
    }
    end := pos + n;
    AllFilled(before, buf[..], pos, rowID, n);
  }

  /** The first i of n rows have been filled in. */
  ghost predicate FilledSoFar(before: seq<nat>, now: seq<nat>, pos: nat, i: nat, rowID: nat, n: nat) {
    |before| == |now| && i <= n && pos + n <= |now| && now[..pos] == before[..pos] &&
        now[pos..pos + i] == Filled(rowID, n)[..i]
  }

  lemma {:induction false} NothingFilled(before: seq<nat>, pos: nat, rowID: nat, n: nat)
    requires pos + n <= |before|
    ensures FilledSoFar(before, before, pos, 0, rowID, n)
  {
    hide Filled;
  }

  lemma {:induction false} AllFilled(before: seq<nat>, now: seq<nat>, pos: nat, rowID: nat, n: nat)
    requires FilledSoFar(before, now, pos, n, rowID, n)
    ensures now[..pos] == before[..pos] && now[pos..pos + n] == Filled(rowID, n)
  {
    hide Filled;
    assert Filled(rowID, n)[..n] == Filled(rowID, n);
  }

  lemma {:induction false} OneFilled(before: seq<nat>, was: seq<nat>, now: seq<nat>, pos: nat, i: nat, rowID: nat,
                                     n: nat)
    requires FilledSoFar(before, was, pos, i, rowID, n) && n / 4 * 4 <= i < n
    requires |now| == |was| && now[..pos + i] == was[..pos + i] && now[pos + i] == rowID + (i - n / 4 * 4)
    ensures FilledSoFar(before, now, pos, i + 1, rowID, n)
  {
    var f := Filled(rowID, n);
    assert f[i] == now[pos + i];
    hide Filled;
    SliceAppended(was, now, pos, pos + i);
    assert f[..i + 1] == f[..i] + [f[i]];
  }

  /** One store of four consecutive rows. */
  method StoreFour(buf: array<nat>, pos: nat, x: nat)
    requires pos + 4 <= buf.Length
    modifies buf
    ensures buf[..pos] == old(buf[..pos]) && buf[pos] == x && buf[pos + 1] == x + 1 && buf[pos + 2] == x + 2 &&
            buf[pos + 3] == x + 3
  {
    buf[pos], buf[pos + 1], buf[pos + 2], buf[pos + 3] := x, x + 1, x + 2, x + 3;
  }

  lemma {:induction false} FourFilled(before: seq<nat>, was: seq<nat>, now: seq<nat>, pos: nat, i: nat, rowID: nat,
                                      n: nat)
    requires FilledSoFar(before, was, pos, i, rowID, n) && i % 4 == 0 && i + 4 <= n
    requires |now| == |was| && now[..pos + i] == was[..pos + i]
    requires now[pos + i] == rowID + i && now[pos + i + 1] == rowID + i + 1 && now[pos + i + 2] == rowID + i + 2 &&
             now[pos + i + 3] == rowID + i + 3
    ensures FilledSoFar(before, now, pos, i + 4, rowID, n)
  {
    var f := Filled(rowID, n);
    assert i + 4 <= n / 4 * 4;
    assert f[i] == rowID + i && f[i + 1] == rowID + i + 1 && f[i + 2] == rowID + i + 2 && f[i + 3] == rowID + i + 3;
    hide Filled;
    assert now[pos..pos + i] == now[..pos + i][pos..] == was[..pos + i][pos..] == was[pos..pos + i];
    assert now[pos..pos + i + 4] == now[pos..pos + i] +
           [now[pos + i], now[pos + i + 1], now[pos + i + 2], now[pos + i + 3]];
    assert f[..i + 4] == f[..i] + [f[i], f[i + 1], f[i + 2], f[i + 3]];
    assert now[..pos] == now[..pos + i][..pos] == was[..pos + i][..pos] == was[..pos];
  }

  lemma {:induction false} NonePassing(pass: nat -> bool, a: nat)
    ensures Passing(pass, a, a) == []
  {
  }

  lemma {:induction false} NextPassing(pass: nat -> bool, a: nat, k: nat)
    ensures Passing(pass, a, a + k + 1) == Passing(pass, a, a + k) + (if pass(a + k) then [a + k] else [])
  {
  }

  /** One value after the other is looked at; the rows of those that pass are appended. */
  method ProcessValues(buf: array<nat>, pos: nat, n: nat, rowID: nat, pass: nat -> bool) returns (end: nat, next: nat)
    requires pos + n <= buf.Length
    modifies buf
    ensures pos <= end <= pos + n && next == rowID + n
    ensures buf[..pos] == old(buf[..pos]) && buf[pos..end] == Passing(pass, rowID, rowID + n)
  {
    hide *;
    end, next := pos, rowID;
    NonePassing(pass, rowID);
    var i := 0;
    while i < n
      invariant 0 <= i <= n && next == rowID + i && pos <= end <= pos + i
      invariant buf[..pos] == old(buf[..pos]) && buf[pos..end] == Passing(pass, rowID, rowID + i)
    {
      ghost var was := buf[..];
      NextPassing(pass, rowID, i);
      if pass(next) {
        Append(buf, end, next);
        SliceAppended(was, buf[..], pos, end);
        end := end + 1;
      }
      next := next + 1;
      i := i + 1;
    }
  }

  // ---------------------------------------------------------------- one subblock after the other

  lemma {:induction false} ListedSubblock(c: Column, i: nat)
    requires Good(c) && i < |c.list|
    ensures Shl(c.list[i], c.shift) < c.docs
  {
    assert c.list[i] < TotalSubblocks(c);
    PiecesNeeded(c.docs, c.shift);
    hide Above, Shl;
    ShlGrows(c.list[i], TotalSubblocks(c) - 1, c.shift);
  }

  lemma {:induction false} YieldFits(c: Column, i: nat)
    requires Good(c) && i < |c.list|
    ensures |Yield(c, c.list[i])| <= SubblockSize(c)
  {
    ListedSubblock(c, i);
    SubblockLength(c, c.list[i]);
    hide Above, Shl, BlockOf, Good;
  }

  lemma {:induction false} YieldIs(c: Column, i: nat)
    requires Good(c) && i < |c.list| && c.accept(BlockOf(c, c.list[i]))
    ensures var s := c.list[i];
            var n := NumSubblockValues(c, NumDocsInBlock(c, BlockOf(c, s)), LowBits(s, 16 - c.shift));
            n <= SubblockSize(c) &&
            Yield(c, s) == if c.full(BlockOf(c, s)) then Filled(SubStart(c, s), n) else
                Passing(c.pass, SubStart(c, s), SubStart(c, s) + n)
  {
    hide *;
    ShiftSmall(c);
    ListedSubblock(c, i);
    SubblockLength(c, c.list[i]);
    YieldOf(c, c.list[i], SubEnd(c, c.list[i]) - SubStart(c, c.list[i]));
  }

  lemma {:induction false} ShiftSmall(c: Column)
    requires Good(c)
    ensures c.shift <= 16
  {
  }

  lemma {:induction false} YieldOf(c: Column, s: nat, n: nat)
    requires c.shift <= 16 && c.accept(BlockOf(c, s)) && SubEnd(c, s) == SubStart(c, s) + n
    ensures Yield(c, s) == if c.full(BlockOf(c, s)) then Filled(SubStart(c, s), n) else
            Passing(c.pass, SubStart(c, s), SubStart(c, s) + n)
  {
    hide BlockOf, SubEnd, SubStart, Filled, Passing;
  }

  lemma {:induction false} NothingYet(c: Column, i: nat, rest: seq<nat>, visited: seq<nat>)
    requires c.shift <= 16
    ensures [] + rest == rest && visited + [] == visited
    ensures i <= |c.list| ==> Visited(c, i, i) == []
    ensures i >= |c.list| ==> RowsFrom(c, i) == [] && Visited(c, i, |c.list|) == []
  {
  }

  lemma {:induction false} OneMore(c: Column, from: nat, at: nat, stop: nat, was: seq<nat>, add: seq<nat>,
                                   total: seq<nat>, already: seq<nat>)
    requires c.shift <= 16 && from <= at < |c.list| && AllRejected(c, at + 1, stop) && c.accept(BlockOf(c, c.list[at]))
    requires was + RowsFrom(c, at) == total && add == Yield(c, c.list[at])
    ensures was + add + RowsFrom(c, stop) == total
    ensures already + Visited(c, from, at) + [c.list[at]] == already + Visited(c, from, stop)
  {
    hide Yield, BlockOf;
    RejectedYieldNothing(c, at + 1, stop);
    assert was + (add + RowsFrom(c, at + 1)) == was + add + RowsFrom(c, at + 1);
    VisitedSplit(c, from, at + 1, stop);
    assert Visited(c, from, at + 1) == Visited(c, from, at) + [c.list[at]];
    assert already + (Visited(c, from, at) + [c.list[at]] + []) == already + Visited(c, from, at) + [c.list[at]];
  }

  // ---------------------------------------------------------------- the traversal

  class Analyzer {
    const c: Column
    const dCollected: array<nat>
    var rowID: nat
    var curSubblock: nat
    var curBlockId: int
    var totalSubblocks: nat
    var numDocsInBlock: nat           // of the current block
    var takeAll: bool                 // whether the processing function takes all rows
    ghost var visited: seq<nat>       // the subblocks processed

    ghost predicate Base()
      reads this
    {
      Good(c) && totalSubblocks == |c.list| && dCollected.Length == 2 * SubblockSize(c)
    }

    /** The current block has been set up and was not rejected. */
    ghost predicate Ready()
      reads this
      requires c.shift <= 16
    {
      curBlockId >= 0 && c.accept(curBlockId) && takeAll == c.full(curBlockId) &&
          numDocsInBlock == NumDocsInBlock(c, curBlockId)
    }

    ghost predicate Valid()
      reads this
    {
      && Base()
      && (curSubblock < totalSubblocks ==>
            Ready() && curBlockId == BlockOf(c, c.list[curSubblock]) && rowID == SubStart(c, c.list[curSubblock]))
    }

    /** The rows still to come. */
    ghost function Rest(): seq<nat>
      reads this
      requires Base()
    {
      RowsFrom(c, curSubblock)
    }

    constructor (c: Column)
      requires Good(c)
      ensures Valid() && this.c == c && Rest() == RowsFrom(c, 0) && visited == [] && fresh(dCollected)
    {
      this.c := c;
      dCollected := new nat[2 * SubblockSize(c)](_ => 0);
      rowID, curSubblock, curBlockId, totalSubblocks, numDocsInBlock, takeAll := 0, 0, -1, |c.list|, 0, false;
      visited := [];
      new;
      hide Good, RowsFrom, BlockOf;
      var ok := MoveToSubblock(0);
      if !ok {
        curSubblock := totalSubblocks;
      }
    }

    /** MoveToSubblock: goes to a listed subblock, or to the next one whose block is not rejected. */
    method MoveToSubblock(i: nat) returns (ok: bool)
      requires Base() && i <= totalSubblocks && (curBlockId == -1 || Ready())
      modifies this
      ensures Valid() && visited == old(visited) && ok == (curSubblock < totalSubblocks) && i <= curSubblock
      ensures AllRejected(c, i, if curSubblock < totalSubblocks then curSubblock else totalSubblocks)
      ensures Rest() == RowsFrom(c, i)
    {
      curSubblock := i;
      if i >= totalSubblocks {
        return false;
      }
      var nextSubblockId := if c.have then c.list[curSubblock] else curSubblock;
      var nextBlock := BlockOf(c, nextSubblockId);
      if nextBlock == curBlockId {
        rowID := SubStart(c, nextSubblockId);
        return true;
      }
      var moved := MoveToBlock(nextBlock);
      RejectedYieldNothing(c, i, if curSubblock < totalSubblocks then curSubblock else totalSubblocks);
      if !moved {
        return false;
      }
      rowID := if c.have then SubStart(c, c.list[curSubblock]) else SubStart(c, curSubblock);
      return true;
    }

    /** MoveToBlock: sets up a block; while the filter rejects it, goes on to the next listed one. */
    method MoveToBlock(next: nat) returns (ok: bool)
      requires Base() && curSubblock < totalSubblocks && BlockOf(c, c.list[curSubblock]) == next
      modifies this`curBlockId, this`numDocsInBlock, this`takeAll, this`curSubblock
      ensures Base() && ok == (curSubblock < totalSubblocks) && old(curSubblock) <= curSubblock
      ensures ok ==> Ready() && curBlockId == BlockOf(c, c.list[curSubblock])
      ensures AllRejected(c, old(curSubblock), if curSubblock < totalSubblocks then curSubblock else totalSubblocks)
    {
      var nextBlock := next;
      while true
        invariant Base() && old(curSubblock) <= curSubblock < totalSubblocks &&
                  BlockOf(c, c.list[curSubblock]) == nextBlock
        invariant AllRejected(c, old(curSubblock), curSubblock)
        decreases totalSubblocks - curSubblock
      {
        hide Good, NumDocsInBlock;
        curBlockId := nextBlock;
        numDocsInBlock := NumDocsInBlock(c, curBlockId);
        takeAll := c.full(nextBlock);
        if c.accept(nextBlock) {
          return true;
        }
        ghost var was := curSubblock;
        var more: bool;
        more, nextBlock := RewindToNextBlock(nextBlock);
        ghost var stop := if curSubblock < totalSubblocks then curSubblock else totalSubblocks;
        SameBlockRejected(c, curBlockId, was, stop);
        JoinRejected(c, old(curSubblock), was, stop);
        if !more {
          return false;
        }
      }
    }

    /** RewindToNextBlock: the first listed subblock of another block. */
    method RewindToNextBlock(cur: nat) returns (ok: bool, nextBlock: nat)
      requires Base() && curBlockId == cur && curSubblock < totalSubblocks && BlockOf(c, c.list[curSubblock]) == cur
      modifies this`curSubblock
      ensures Base() && ok == (curSubblock < totalSubblocks) && old(curSubblock) < curSubblock
      ensures ok ==> nextBlock == BlockOf(c, c.list[curSubblock])
      ensures SameBlock(c, cur, old(curSubblock), if curSubblock < totalSubblocks then curSubblock else totalSubblocks)
    {
      if !c.have {
        NextBlockStarts(c, cur, curSubblock);
        nextBlock := cur + 1;
        curSubblock := Shl(nextBlock, 16 - c.shift);
        ok := curSubblock < totalSubblocks;
        return;
      }
      hide *;
      nextBlock := cur;
      NoneOfBlock(c, cur, curSubblock);
      while nextBlock == curBlockId && curSubblock < totalSubblocks
        invariant old(curSubblock) <= curSubblock <= totalSubblocks
        invariant nextBlock == cur ==> SameBlock(c, cur, old(curSubblock), curSubblock)
        invariant curSubblock == old(curSubblock) ==> nextBlock == cur
        invariant nextBlock != cur ==>
                    old(curSubblock) + 1 < curSubblock && SameBlock(c, cur, old(curSubblock), curSubblock - 1) &&
                    nextBlock == BlockOf(c, c.list[curSubblock - 1])
        decreases totalSubblocks - curSubblock
      {
        SameBlockMore(c, cur, old(curSubblock), curSubblock);
        nextBlock := BlockOf(c, c.list[curSubblock]);
        curSubblock := curSubblock + 1;
      }
      if nextBlock != curBlockId {
        curSubblock := curSubblock - 1;
        return true, nextBlock;
      }
      return false, nextBlock;
    }

    /** The processing function: reads the values of a subblock and appends the rows it takes. */
    method ProcessSubblock(pos: nat, subblockIdInBlock: nat) returns (end: nat)
      requires Valid() && curSubblock < totalSubblocks && pos < SubblockSize(c)
      requires subblockIdInBlock == LowBits(c.list[curSubblock], 16 - c.shift)
      modifies dCollected, this`rowID, this`visited
      ensures pos <= end <= pos + |Yield(c, c.list[curSubblock])| <= dCollected.Length &&
              dCollected[..pos] == old(dCollected[..pos])
      ensures dCollected[pos..end] == Yield(c, c.list[curSubblock])
      ensures visited == old(visited) + [c.list[curSubblock]]
      ensures Base() && Ready()
    {
      hide Good, Filled, Passing, NumDocsInBlock, NumSubblockValues, LowBits, BlockOf, SubEnd, SubStart, Yield,
           Produced, SubblockSize, Shl, Above, Valid;
      SubblockFacts();
      YieldFits(c, curSubblock);
      YieldIs(c, curSubblock);
      var n := NumSubblockValues(c, numDocsInBlock, subblockIdInBlock);
      if takeAll {
        end, rowID := FillWithIncreasingValues(dCollected, pos, n, rowID);
      } else {
        end, rowID := ProcessValues(dCollected, pos, n, rowID, c.pass);
      }
      visited := visited + [c.list[curSubblock]];
    }

    /** The state a subblock is processed in. */
    lemma {:induction false} SubblockFacts()
      requires Valid() && curSubblock < totalSubblocks
      ensures Good(c) && totalSubblocks == |c.list| && dCollected.Length == 2 * SubblockSize(c) && Base() && Ready()
      ensures takeAll == c.full(BlockOf(c, c.list[curSubblock])) && c.accept(BlockOf(c, c.list[curSubblock]))
      ensures numDocsInBlock == NumDocsInBlock(c, BlockOf(c, c.list[curSubblock])) &&
              rowID == SubStart(c, c.list[curSubblock])
    {
      hide BlockOf, SubblockSize, NumDocsInBlock, SubStart;
    }

    lemma {:induction false} ValidFacts()
      requires Valid()
      ensures Base() && Good(c) && c.shift <= 16 && totalSubblocks == |c.list| &&
              dCollected.Length == 2 * SubblockSize(c)
      ensures Rest() == RowsFrom(c, curSubblock)
      ensures curSubblock < totalSubblocks ==> Ready() && c.accept(BlockOf(c, c.list[curSubblock])) && (!c.have ==>
              c.list[curSubblock] == curSubblock)
    {
      hide BlockOf, RowsFrom, SubblockSize, NumDocsInBlock;
    }

    /**
      GetNextRowIdBlock: subblocks are processed until at least a subblock's worth of rows has been collected, and
      no further.
     */
    method GetNextRowIdBlock() returns (ok: bool, rows: seq<nat>)
      requires Valid()
      modifies this, dCollected
      ensures Valid() && old(curSubblock) <= curSubblock
      ensures rows + Rest() == old(Rest()) && |rows| < 2 * SubblockSize(c)
      ensures ok == (rows != []) && (!ok ==> Rest() == [])
      ensures |rows| < SubblockSize(c) ==> curSubblock >= totalSubblocks
      ensures |visited| > |old(visited)| ==> |rows| - |Yield(c, visited[|visited| - 1])| < SubblockSize(c)
      ensures visited == old(visited) + Visited(c, old(curSubblock),
              if curSubblock < totalSubblocks then curSubblock else totalSubblocks)
    {
      hide *;
      ValidFacts();
      NothingYet(c, curSubblock, Rest(), visited);
      if curSubblock >= totalSubblocks {
        return false, [];
      }
      ghost var from, total, already := curSubblock, Rest(), visited;
      var size := SubblockSize(c);
      var end := 0;
      while end < size
        invariant Valid() && Base() && curSubblock < totalSubblocks && from <= curSubblock &&
                  totalSubblocks == |c.list| && c.shift <= 16
        invariant 0 <= end < 2 * size && size == SubblockSize(c)
        invariant dCollected[..end] + Rest() == total && visited == already + Visited(c, from, curSubblock)
        invariant |visited| > |already| ==> end - |Yield(c, visited[|visited| - 1])| < size
        decreases totalSubblocks - curSubblock
      {
        ghost var at, was := curSubblock, dCollected[..end];
        ghost var mid := end;
        ValidFacts();
        YieldFits(c, at);
        var subblockIdInBlock := LowBits(if c.have then c.list[curSubblock] else curSubblock, 16 - c.shift);
        end := ProcessSubblock(end, subblockIdInBlock);
        var more := MoveToSubblock(curSubblock + 1);
        ValidFacts();
        ghost var stop := if curSubblock < totalSubblocks then curSubblock else totalSubblocks;
        assert dCollected[..end] == dCollected[..mid] + dCollected[mid..end];
        OneMore(c, from, at, stop, was, dCollected[mid..end], total, already);
        NothingYet(c, curSubblock, [], []);
        NothingYet(c, stop, [], []);
        if !more {
          break;
        }
      }
      rows := dCollected[..end];
      ok := rows != [];
    }

    /**
      HintRowID: goes to the first listed subblock of an accepted block from the current one on that is not before
      that of a row; false when there is none. At the end a list refuses every hint, and without a list those are
      refused that lie behind the column.
     */
    method HintRowID(r: nat) returns (ok: bool)
      requires Valid()
      modifies this
      ensures Valid() && visited == old(visited) && old(curSubblock) <= curSubblock
      ensures StepOk(old(Rest()), Rest(), Hinted(r, ok), c.shift)
      ensures old(curSubblock) < totalSubblocks ==> (ok <==> Reaches(c, old(curSubblock), Above(r, c.shift)))
      ensures old(curSubblock) >= totalSubblocks ==>
                (ok <==> !c.have && Above(r, c.shift) < totalSubblocks) && curSubblock == old(curSubblock)
      ensures ok && old(curSubblock) < totalSubblocks ==>
                FirstReached(c, old(curSubblock), curSubblock, Above(r, c.shift))
    {
      hide *;
      ValidFacts();
      var v := Above(r, c.shift);
      StartIs(c, r);
      ghost var start := curSubblock;
      var next := if c.have then FindBlock(c.list, curSubblock, v) else v;
      HintTarget(c, curSubblock, v);
      if next >= totalSubblocks {
        SkippedAll(c, curSubblock, v);
        HintRefused(c, curSubblock, r, RowsFrom(c, curSubblock));
        return false;
      }
      if next > curSubblock {
        SkippedTo(c, curSubblock, next, v);
        ok := MoveToSubblock(next);
        ValidFacts();
        HintMoved(c, start, next, curSubblock, r);
        return;
      }
      KeptFrom(c, curSubblock, v);
      HintStays(c, curSubblock, r);
      return true;
    }
  }

  /** From position i on, a subblock of an accepted block is listed that is not before subblock v. */
  ghost predicate Reaches(c: Column, i: nat, v: nat)
    requires c.shift <= 16
  {
    exists j :: i <= j < |c.list| && v <= c.list[j] && c.accept(BlockOf(c, c.list[j]))
  }

  /** j is the first such position. */
  ghost predicate FirstReached(c: Column, i: nat, j: nat, v: nat)
    requires c.shift <= 16
  {
    && i <= j < |c.list| && v <= c.list[j] && c.accept(BlockOf(c, c.list[j]))
    && forall k :: i <= k < j ==> c.list[k] < v || !c.accept(BlockOf(c, c.list[k]))
  }

  lemma {:induction false} StartIs(c: Column, r: nat)
    ensures LeafStart(r, c.shift) == Shl(Above(r, c.shift), c.shift)
  {
    hide Shl, Above;
  }

  lemma {:induction false} HintRefused(c: Column, i: nat, r: nat, rest: seq<nat>)
    requires c.shift <= 16 && AllUnder(rest, LeafStart(r, c.shift))
    requires forall k :: i <= k < |c.list| ==> c.list[k] < Above(r, c.shift)
    ensures StepOk(rest, rest, Hinted(r, false), c.shift) && !Reaches(c, i, Above(r, c.shift))
  {
    hide Shl, Above, BlockOf, LeafStart;
  }

  lemma {:induction false} HintStays(c: Column, i: nat, r: nat)
    requires c.shift <= 16 && AllFrom(RowsFrom(c, i), LeafStart(r, c.shift))
    requires i < |c.list| ==> Above(r, c.shift) <= c.list[i] && c.accept(BlockOf(c, c.list[i]))
    ensures StepOk(RowsFrom(c, i), RowsFrom(c, i), Hinted(r, true), c.shift)
    ensures i < |c.list| ==> Reaches(c, i, Above(r, c.shift)) && FirstReached(c, i, i, Above(r, c.shift))
  {
    hide Shl, Above, BlockOf, LeafStart, RowsFrom;
  }

  /** A hint that moved: the subblocks before next lie before that of the row, those up to j were rejected. */
  lemma {:induction false} HintMoved(c: Column, i: nat, next: nat, j: nat, r: nat)
    requires Good(c) && i <= next < |c.list| && next <= j && Above(r, c.shift) <= c.list[next]
    requires forall k :: i <= k < next ==> c.list[k] < Above(r, c.shift)
    requires AllRejected(c, next, if j < |c.list| then j else |c.list|)
    requires j < |c.list| ==> c.accept(BlockOf(c, c.list[j]))
    requires Dropped(RowsFrom(c, i), RowsFrom(c, next), Shl(Above(r, c.shift), c.shift))
    requires RowsFrom(c, j) == RowsFrom(c, next)
    ensures var ok := j < |c.list|;
            StepOk(RowsFrom(c, i), RowsFrom(c, j), Hinted(r, ok), c.shift) &&
                (ok <==> Reaches(c, i, Above(r, c.shift))) && (ok ==> FirstReached(c, i, j, Above(r, c.shift)))
  {
    hide *;
    var v := Above(r, c.shift);
    FoundFirst(c, i, next, j, v);
    StartIs(c, r);
    KeptFrom(c, next, v);
    ShiftSmall(c);
    NothingYet(c, j, [], []);
    MovedStep(RowsFrom(c, i), RowsFrom(c, j), r, c.shift, j < |c.list|);
  }

  lemma {:induction false} MovedStep(before: seq<nat>, after: seq<nat>, r: nat, shift: nat, ok: bool)
    requires Dropped(before, after, LeafStart(r, shift)) && AllFrom(after, LeafStart(r, shift)) && (!ok ==> after == [])
    ensures StepOk(before, after, Hinted(r, ok), shift)
  {
    hide LeafStart, Shl, Above;
  }

  lemma {:induction false} FoundFirst(c: Column, i: nat, next: nat, j: nat, v: nat)
    requires Good(c) && i <= next < |c.list| && next <= j && v <= c.list[next]
    requires forall k :: i <= k < next ==> c.list[k] < v
    requires AllRejected(c, next, if j < |c.list| then j else |c.list|)
    requires j < |c.list| ==> c.accept(BlockOf(c, c.list[j]))
    ensures j < |c.list| <==> Reaches(c, i, v)
    ensures j < |c.list| ==> FirstReached(c, i, j, v)
  {
    hide BlockOf, TotalSubblocks;
    assert j < |c.list| ==> c.list[next] <= c.list[j];
  }

  /** A subblock before subblock v yields only rows before it. */
  lemma {:induction false} YieldUnder(c: Column, i: nat, v: nat)
    requires Good(c) && i < |c.list| && c.list[i] < v
    ensures AllUnder(Yield(c, c.list[i]), Shl(v, c.shift))
  {
    hide *;
    var s := c.list[i];
    ShiftSmall(c);
    ListedSubblock(c, i);
    SubblockLength(c, s);
    EndsBelow(c, s, v);
    YieldBetween(c, s);
    UnderMore(Yield(c, s), SubEnd(c, s), Shl(v, c.shift));
  }

  lemma {:induction false} UnderMore(s: seq<nat>, a: nat, b: nat)
    requires AllUnder(s, a) && a <= b
    ensures AllUnder(s, b)
  {
  }

  lemma {:induction false} FromLess(s: seq<nat>, a: nat, b: nat)
    requires AllFrom(s, b) && a <= b
    ensures AllFrom(s, a)
  {
  }

  lemma {:induction false} EndsBelow(c: Column, s: nat, v: nat)
    requires s < v
    ensures SubEnd(c, s) <= Shl(v, c.shift)
  {
    hide Shl;
    ShlGrows(s + 1, v, c.shift);
  }

  /** A subblock yields only rows of its own. */
  lemma {:induction false} YieldBetween(c: Column, s: nat)
    requires c.shift <= 16 && SubStart(c, s) <= SubEnd(c, s)
    ensures AllUnder(Yield(c, s), SubEnd(c, s)) && AllFrom(Yield(c, s), SubStart(c, s))
  {
    hide BlockOf, SubEnd, SubStart, Filled, Passing;
    if c.accept(BlockOf(c, s)) {
      assert forall i :: 0 <= i < |Produced(c, s)| ==> SubStart(c, s) <= Produced(c, s)[i] < SubEnd(c, s);
    }
  }

  /** The subblocks from v on yield no rows before it. */
  lemma {:induction false} KeptFrom(c: Column, i: nat, v: nat)
    requires Good(c) && (i < |c.list| ==> v <= c.list[i])
    ensures c.shift <= 16 && AllFrom(RowsFrom(c, i), Shl(v, c.shift))
    decreases |c.list| - i
  {
    ShiftSmall(c);
    hide Shl, TotalSubblocks, Yield, SubEnd, SubStart, AllFrom, Above;
    NothingYet(c, i, [], []);
    if i < |c.list| {
      var s := c.list[i];
      KeptFrom(c, i + 1, v);
      ListedSubblock(c, i);
      hide Good, RowsFrom;
      SubblockLength(c, s);
      SubblockBounds(c, s);
      YieldBetween(c, s);
      ShlGrows(v, s, c.shift);
      FromLess(Yield(c, s), Shl(v, c.shift), SubStart(c, s));
      JoinFrom(Yield(c, s), RowsFrom(c, i + 1), Shl(v, c.shift));
      RowsStep(c, i);
    } else {
      NoneFrom(Shl(v, c.shift));
    }
  }

  lemma {:induction false} NoneFrom(v: nat)
    ensures AllFrom([], v)
  {
  }

  /** Where a hint for a row of subblock v leads: listed subblocks before that lie before it, all others do not. */
  lemma {:induction false} HintTarget(c: Column, i: nat, v: nat)
    requires Good(c)
    ensures var next := if c.have then FindBlock(c.list, i, v) else v;
            && (forall k :: i <= k < next && k < |c.list| ==> c.list[k] < v)
            && (i < next < |c.list| ==> v <= c.list[next])
            && (next <= i < |c.list| ==> v <= c.list[i])
            && (i >= |c.list| && next < |c.list| ==> !c.have)
  {
    hide Above, TotalSubblocks;
  }

  lemma {:induction false} SkippedTo(c: Column, i: nat, next: nat, v: nat)
    requires Good(c) && i <= next <= |c.list|
    requires forall k :: i <= k < next ==> c.list[k] < v
    ensures Dropped(RowsFrom(c, i), RowsFrom(c, next), Shl(v, c.shift))
    decreases next - i
  {
    hide *;
    ShiftSmall(c);
    if i == next {
      DroppedNone(RowsFrom(c, i), Shl(v, c.shift));
    } else {
      SkippedTo(c, i + 1, next, v);
      YieldUnder(c, i, v);
      DroppedFront(Yield(c, c.list[i]), RowsFrom(c, i + 1), RowsFrom(c, next), Shl(v, c.shift));
      RowsStep(c, i);
    }
  }

  lemma {:induction false} RowsStep(c: Column, i: nat)
    requires c.shift <= 16 && i < |c.list|
    ensures RowsFrom(c, i) == Yield(c, c.list[i]) + RowsFrom(c, i + 1)
  {
    hide Yield;
  }

  /** When no listed subblock is at v or behind it, only rows before it are left. */
  lemma {:induction false} SkippedAll(c: Column, i: nat, v: nat)
    requires Good(c) && forall k :: i <= k < |c.list| ==> c.list[k] < v
    ensures c.shift <= 16 && AllUnder(RowsFrom(c, i), Shl(v, c.shift))
  {
    hide Shl, Above, TotalSubblocks, Dropped;
    NothingYet(c, i, [], []);
    if i < |c.list| {
      SkippedTo(c, i, |c.list|, v);
      NothingYet(c, |c.list|, [], []);
      hide RowsFrom;
      DroppedToNothing(RowsFrom(c, i), Shl(v, c.shift));
    }
  }

  // ---------------------------------------------------------------- when exactly the passing rows come

  /** Rejected blocks have no passing row, and blocks taken whole have only passing ones. */
  ghost predicate Sound(c: Column)
    requires c.shift <= 16
  {
    forall s, r {:trigger Listed(c, s), c.pass(r)} :: Listed(c, s) && SubStart(c, s) <= r < SubEnd(c, s) ==>
      (!c.accept(BlockOf(c, s)) ==> !c.pass(r)) && (c.accept(BlockOf(c, s)) && c.full(BlockOf(c, s)) ==> c.pass(r))
  }

  ghost predicate Listed(c: Column, s: nat) {
    Shl(s, c.shift) < c.docs
  }

  /** The guard under which filling a whole subblock is right: its length is a multiple of four, or less than four. */
  predicate FillsRight(c: Column, s: nat)
    requires c.shift <= 16
  {
    c.accept(BlockOf(c, s)) && c.full(BlockOf(c, s)) ==>
      var n := SubEnd(c, s) - SubStart(c, s); n % 4 == 0 || n < 4
  }

  lemma {:induction false} StartsAtFour(b: nat, n: nat)
    requires n >= 2
    ensures Shl(b, n) % 4 == 0
  {
    ShlTwice(b, n - 2, 2);
    assert Shl(Shl(b, n - 2), 2) == 4 * Shl(b, n - 2);
  }

  /** With a number of rows that is a multiple of four, filling is always right. */
  lemma {:induction false} FillsRightAlways(c: Column, s: nat)
    requires 2 <= c.shift <= 16 && c.docs % 4 == 0 && Listed(c, s)
    ensures FillsRight(c, s)
  {
    hide *;
    ListedStart(c, s);
    SubblockLength(c, s);
    StartsAtFour(s, c.shift);
    StartsAtFour(s + 1, c.shift);
    SubblockBounds(c, s);
    FillsRightIs(c, s);
  }

  lemma {:induction false} ListedStart(c: Column, s: nat)
    ensures Listed(c, s) <==> Shl(s, c.shift) < c.docs
  {
    hide Shl;
  }

  lemma {:induction false} SubblockBounds(c: Column, s: nat)
    ensures SubStart(c, s) == Shl(s, c.shift) && SubEnd(c, s) == if Shl(s + 1, c.shift) <= c.docs then
            Shl(s + 1, c.shift) else c.docs
  {
    hide Shl;
  }

  lemma {:induction false} FillsRightIs(c: Column, s: nat)
    requires c.shift <= 16 && (SubEnd(c, s) - SubStart(c, s)) % 4 == 0
    ensures FillsRight(c, s)
  {
    hide SubStart, SubEnd, BlockOf;
  }

  lemma {:induction false} AllPass(pass: nat -> bool, a: nat, b: nat)
    requires a <= b && forall r: nat :: a <= r < b ==> pass(r)
    ensures Passing(pass, a, b) == Range(a, b)
    decreases b
  {
    if a < b {
      AllPass(pass, a, b - 1);
      assert Range(a, b) == Range(a, b - 1) + [b - 1];
    }
  }

  lemma {:induction false} NonePass(pass: nat -> bool, a: nat, b: nat)
    requires forall r: nat :: a <= r < b ==> !pass(r)
    ensures Passing(pass, a, b) == []
    decreases b
  {
    if a < b {
      NonePass(pass, a, b - 1);
    }
  }

  lemma {:induction false} SoundAt(c: Column, s: nat, r: nat)
    requires c.shift <= 16 && Sound(c) && Listed(c, s) && SubStart(c, s) <= r < SubEnd(c, s)
    ensures !c.accept(BlockOf(c, s)) ==> !c.pass(r)
    ensures c.accept(BlockOf(c, s)) && c.full(BlockOf(c, s)) ==> c.pass(r)
  {
    hide Listed, SubStart, SubEnd, BlockOf;
    var passes := c.pass(r);
  }

  /** A subblock yields exactly its passing rows if and only if the filling guard holds. */
  lemma {:induction false} YieldExactIff(c: Column, s: nat)
    requires c.shift <= 16 && Sound(c) && Listed(c, s)
    ensures Yield(c, s) == Passing(c.pass, SubStart(c, s), SubEnd(c, s)) <==> FillsRight(c, s)
  {
    ListedStart(c, s);
    SubblockLength(c, s);
    var a, b := SubStart(c, s), SubEnd(c, s);
    hide Shl, Above, BlockOf, SubStart, SubEnd, Filled, Passing, Listed, NumSubblockValues, NumDocsInBlock,
         SubblockSize;
    hide Sound;
    forall r: nat | a <= r < b
      ensures !c.accept(BlockOf(c, s)) ==> !c.pass(r)
      ensures c.accept(BlockOf(c, s)) && c.full(BlockOf(c, s)) ==> c.pass(r)
    {
      SoundAt(c, s, r);
    }
    if !c.accept(BlockOf(c, s)) {
      NonePass(c.pass, a, b);
    } else if c.full(BlockOf(c, s)) {
      AllPass(c.pass, a, b);
      FilledExactIff(a, b - a);
    }
  }

  /** The passing rows of the listed subblocks from position i on. */
  function PassingFrom(c: Column, i: nat): seq<nat>
    decreases |c.list| - i
  {
    if i >= |c.list| then [] else Passing(c.pass, SubStart(c, c.list[i]), SubEnd(c, c.list[i])) + PassingFrom(c, i + 1)
  }

  /** Under the guard, what is handed out is what a scan of all listed subblocks finds. */
  lemma {:induction false} ScanExact(c: Column, i: nat)
    requires Good(c) && Sound(c) && forall k :: i <= k < |c.list| ==> FillsRight(c, c.list[k])
    ensures RowsFrom(c, i) == PassingFrom(c, i)
    decreases |c.list| - i
  {
    hide FillsRight, Sound, Passing, Yield, SubStart, SubEnd;
    if i < |c.list| {
      ListedSubblock(c, i);
      assert Listed(c, c.list[i]);
      hide Good;
      YieldExactIff(c, c.list[i]);
      ScanExact(c, i + 1);
    }
  }

  /** A row is found exactly when it passes and its subblock is listed. */
  lemma {:induction false} PassingFromExact(c: Column, i: nat, x: nat)
    requires Good(c) && i <= |c.list|
    ensures x in PassingFrom(c, i) <==> x < c.docs && c.pass(x) && Above(x, c.shift) in c.list[i..]
    decreases |c.list| - i
  {
    if i < |c.list| {
      var s := c.list[i];
      PassingFromExact(c, i + 1, x);
      PassingExact(c.pass, SubStart(c, s), SubEnd(c, s), x);
      InSubblock(c, s, x);
      hide Passing, SubStart, SubEnd, Above, Good;
      assert c.list[i..] == [s] + c.list[i + 1..];
    }
  }

  lemma {:induction false} InSubblock(c: Column, s: nat, x: nat)
    ensures SubStart(c, s) <= x < SubEnd(c, s) <==> x < c.docs && Above(x, c.shift) == s
  {
    AboveBelow(x, c.shift);
    InBelow(s, c.shift, x);
    InBelow(Above(x, c.shift), c.shift, x);
    hide Above, Shl, Below;
    if Below(s, c.shift, x) {
      AboveIs(s, c.shift, x);
    }
  }

  lemma {:induction false} AboveTwice(x: nat, m: nat, n: nat)
    ensures Above(Above(x, m), n) == Above(x, m + n)
    decreases m
  {
    if m > 0 {
      AboveTwice(x / 2, m - 1, n);
    }
  }

  /** A row of a subblock lies in the block of the subblock. */
  lemma {:induction false} RowInBlock(c: Column, s: nat, x: nat)
    requires c.shift <= 16 && SubStart(c, s) <= x < SubEnd(c, s)
    ensures x < c.docs && Above(x, 16) == BlockOf(c, s)
  {
    hide *;
    InSubblock(c, s, x);
    AboveTwice(x, c.shift, 16 - c.shift);
    BlockIs(c, s);
  }

  /** The rows of a scan come in strictly ascending order. */
  lemma {:induction false} PassingFromAscends(c: Column, i: nat)
    requires Good(c) && i <= |c.list|
    ensures Ascending(PassingFrom(c, i))
    decreases |c.list| - i
  {
    if i < |c.list| {
      var s := c.list[i];
      var a, b := Passing(c.pass, SubStart(c, s), SubEnd(c, s)), PassingFrom(c, i + 1);
      PassingFromAscends(c, i + 1);
      PassingExact(c.pass, SubStart(c, s), SubEnd(c, s), 0);
      hide Ascending, Passing;
      forall x, y | x in a && y in b ensures x < y {
        SubblockOrder(c, i, x, y);
      }
      JoinAscending(a, b);
    } else {
      EmptyAscends();
    }
  }

  lemma {:induction false} SubblockOrder(c: Column, i: nat, x: nat, y: nat)
    requires Good(c) && i < |c.list| && x in Passing(c.pass, SubStart(c, c.list[i]), SubEnd(c, c.list[i])) &&
             y in PassingFrom(c, i + 1)
    ensures x < y
  {
    hide *;
    var s := c.list[i];
    PassingExact(c.pass, SubStart(c, s), SubEnd(c, s), x);
    PassingFromExact(c, i + 1, y);
    InSubblock(c, s, x);
    LaterListed(c, i, Above(y, c.shift));
    EarlierLeaf(x, y, c.shift);
  }

  lemma {:induction false} LaterListed(c: Column, i: nat, t: nat)
    requires Good(c) && i < |c.list| && t in c.list[i + 1..]
    ensures c.list[i] < t
  {
    var j :| 0 <= j < |c.list[i + 1..]| && c.list[i + 1..][j] == t;
    assert t == c.list[i + 1 + j];
  }

  /**
    Any interleaving of reads and hints over a column, when no subblock taken whole has a length at which the
    filling restarts: the rows come in strictly ascending order, only passing rows of listed subblocks come,
    one that no hint has passed has come once the run is refused or drained, and hints are obeyed.
   */
  lemma {:induction false} AnalyzerRun(c: Column, rests: seq<seq<nat>>, steps: seq<Step>, x: nat)
    requires Good(c) && Sound(c) && forall k :: 0 <= k < |c.list| ==> FillsRight(c, c.list[k])
    requires IsRun(rests, steps, c.shift) && rests[0] == RowsFrom(c, 0)
    ensures Ascending(Emitted(steps) + rests[|steps|]) && HintsObeyed(steps, c.shift, x)
    ensures x in Emitted(steps) ==> x < c.docs && c.pass(x) && Above(x, c.shift) in c.list
    ensures (x < c.docs && c.pass(x) && Above(x, c.shift) in c.list &&
            (forall i :: 0 <= i < |steps| && steps[i].Hinted? ==> steps[i].r <= x)) ==>
              (x in Emitted(steps) || x in rests[|steps|]) &&
              (Ended(steps) ==> x in Emitted(steps))
  {
    hide Good, Sound, FillsRight, RowsFrom, PassingFrom, Above, Ascending, Emitted, StepOk, HintsObeyed;
    ScanExact(c, 0);
    PassingFromAscends(c, 0);
    PassingFromExact(c, 0, x);
    assert c.list[0..] == c.list;
    RunAscends(rests, steps, c.shift);
    RunObeysHints(rests, steps, c.shift, x);
    if x in Emitted(steps) {
      RunInventsNothing(rests, steps, c.shift, x);
    }
    if x in rests[0] && forall i :: 0 <= i < |steps| && steps[i].Hinted? ==> steps[i].r <= x {
      RunLosesNothing(rests, steps, c.shift, x);
    }
  }
}
