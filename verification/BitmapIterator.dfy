/**
  The union of rowid lists as a bitmap (secondary/blockreader.cpp, BitmapIterator_T): lists are added
  through rowid iterators, the rows are fetched in order, and excluded rows are found by inversion.
 */
module BitmapIterator {
  import opened ByteCodec
  import opened Orders
  import opened RowLists
  import opened Bits
  import opened BitVector
  import opened SplitBitmap
  import opened RowidIterator
  import P = RowidProtocol

  predicate InBounds(b: Bounds, x: nat) {
    b.Unbounded? || b.min <= x <= b.max
  }

  // ---------------------------------------------------------------- cutting a sub-block

  /** The part of a sub-block inside the bounds: from position r.0 up to r.1. */
  function Cut(block: seq<u32>, b: Bounds): (r: (nat, nat))
    requires block != []
    ensures r.0 <= r.1 <= |block|
  {
    if b.Unbounded? then (0, |block|)
    else
      var cutFront := block[0] < b.min;
      var cutBack := block[|block| - 1] > b.max;
      var from := if cutFront then LowerBound(block, b.min) else 0;
      (from, if cutBack then from + UpperBound(block[from..], b.max) else |block|)
  }

  lemma {:induction false} CutExact(block: seq<u32>, b: Bounds, i: nat)
    requires block != [] && Nondecreasing(block) && i < |block|
    ensures InBounds(b, block[i]) <==> Cut(block, b).0 <= i < Cut(block, b).1
  {
    if b.Range? {
      var (from, to) := Cut(block, b);
      assert block[0] <= block[i] <= block[|block| - 1];
      var low := LowerBound(block, b.min);
      if low < |block| {
        assert low <= i ==> block[low] <= block[i];
      }
      if from <= i && block[|block| - 1] > b.max {
        assert block[from..][i - from] == block[i];
        if to < |block| {
          assert block[from..][to - from] == block[to];
          assert to <= i ==> block[to] <= block[i];
        }
      }
    }
  }

  // ---------------------------------------------------------------- what has been collected

  /** The bits of after are those of before and the rowids of the list. */
  ghost predicate RowsAdded(before: seq<Word>, after: seq<Word>, rows: seq<u32>, b: Bounds) {
    && |after| == |before|
    && forall p :: 0 <= p < 64 * |before| ==> (HasBit(after, p) <==> HasBit(before, p) || (p in rows && InBounds(b, p)))
  }

  lemma {:induction false} NothingAdded(ws: seq<Word>, b: Bounds)
    ensures RowsAdded(ws, ws, [], b)
  {
  }

  /** Setting the bit of one more rowid inside the bounds. */
  lemma {:induction false} OneRowAdded(before: seq<Word>, now: seq<Word>, after: seq<Word>, xs: seq<u32>, x: u32,
                                       b: Bounds)
    requires RowsAdded(before, now, xs, b) && x < 64 * |before| && InBounds(b, x) && BitAdded(now, after, x)
    ensures RowsAdded(before, after, xs + [x], b)
  {
    hide HasBit, InBounds;
  }

  lemma {:induction false} AddTwice(a: seq<Word>, c: seq<Word>, d: seq<Word>, xs: seq<u32>, ys: seq<u32>, b: Bounds)
    requires RowsAdded(a, c, xs, b) && RowsAdded(c, d, ys, b)
    ensures RowsAdded(a, d, xs + ys, b)
  {
    hide HasBit, InBounds;
  }

  // ---------------------------------------------------------------- the rowids inside the bounds

  /** The rowids of a list that lie inside the bounds, in their order. */
  function InsideOf(rows: seq<u32>, b: Bounds): (r: seq<u32>)
    ensures |r| <= |rows|
  {
    if rows == [] then []
    else
      var n := |rows| - 1;
      InsideOf(rows[..n], b) + (if InBounds(b, rows[n]) then [rows[n]] else [])
  }

  lemma {:induction false} InsideExact(rows: seq<u32>, b: Bounds, x: u32)
    ensures x in InsideOf(rows, b) <==> x in rows && InBounds(b, x)
    decreases |rows|
  {
    hide InBounds;
    if rows != [] {
      var n := |rows| - 1;
      InsideExact(rows[..n], b, x);
      assert rows == rows[..n] + [rows[n]];
    }
  }

  lemma {:induction false} InsideConcat(xs: seq<u32>, ys: seq<u32>, b: Bounds)
    ensures InsideOf(xs + ys, b) == InsideOf(xs, b) + InsideOf(ys, b)
    decreases |ys|
  {
    hide InBounds;
    if ys == [] {
      assert xs + ys == xs;
    } else {
      var n := |ys| - 1;
      InsideConcat(xs, ys[..n], b);
      assert (xs + ys)[..|xs| + n] == xs + ys[..n];
      assert InsideOf(xs + ys, b) == InsideOf(xs + ys[..n], b) + (if InBounds(b, ys[n]) then [ys[n]] else []);
    }
  }

  lemma {:induction false} NoneInside(rows: seq<u32>, b: Bounds)
    requires forall i :: 0 <= i < |rows| ==> !InBounds(b, rows[i])
    ensures InsideOf(rows, b) == []
    decreases |rows|
  {
    hide InBounds;
    if rows != [] {
      NoneInside(rows[..|rows| - 1], b);
    }
  }

  lemma {:induction false} AllInside(rows: seq<u32>, b: Bounds)
    requires forall i :: 0 <= i < |rows| ==> InBounds(b, rows[i])
    ensures InsideOf(rows, b) == rows
    decreases |rows|
  {
    hide InBounds;
    if rows != [] {
      AllInside(rows[..|rows| - 1], b);
    }
  }

  /** The cut part of a sub-block are its rowids inside the bounds. */
  lemma {:induction false} CutInside(block: seq<u32>, b: Bounds)
    requires block != [] && Nondecreasing(block)
    ensures var (from, to) := Cut(block, b); InsideOf(block, b) == block[from..to]
  {
    hide *;
    var (from, to) := Cut(block, b);
    forall i | 0 <= i < |block| ensures InBounds(b, block[i]) <==> from <= i < to {
      CutExact(block, b, i);
    }
    MiddleInside(block, b, from, to);
  }

  lemma {:induction false} MiddleInside(rows: seq<u32>, b: Bounds, from: nat, to: nat)
    requires from <= to <= |rows| && forall i :: 0 <= i < |rows| ==> (InBounds(b, rows[i]) <==> from <= i < to)
    ensures InsideOf(rows, b) == rows[from..to]
  {
    var x, y, z := rows[..from], rows[from..to], rows[to..];
    PartsInside(rows, b, from, to);
    hide *;
    assert rows == x + y + z;
    InsideConcat(x + y, z, b);
    InsideConcat(x, y, b);
  }

  lemma {:induction false} PartsInside(rows: seq<u32>, b: Bounds, from: nat, to: nat)
    requires from <= to <= |rows| && forall i :: 0 <= i < |rows| ==> (InBounds(b, rows[i]) <==> from <= i < to)
    ensures InsideOf(rows[..from], b) == [] && InsideOf(rows[from..to], b) == rows[from..to]
    ensures InsideOf(rows[to..], b) == []
  {
    hide InBounds, InsideOf;
    NoneInside(rows[..from], b);
    AllInside(rows[from..to], b);
    NoneInside(rows[to..], b);
  }

  /** The first n of a list, or all. */
  function FirstOf(s: seq<u32>, n: int): (r: seq<u32>)
    requires n >= 0
    ensures |r| <= |s| && |r| <= n
  {
    if n < |s| then s[..n] else s
  }

  lemma {:induction false} FirstConcat(s: seq<u32>, t: seq<u32>, n: int)
    requires n >= 0
    ensures FirstOf(s + t, n) == FirstOf(s, n) + FirstOf(t, n - |FirstOf(s, n)|)
  {
  }

  // ---------------------------------------------------------------- reading a list into the bitmap

  /** How many rowids lie in sub-blocks before sub-block f. */
  function RowsBefore(rows: seq<u32>, f: nat): (r: nat)
    ensures r <= |rows|
  {
    if PackingOf(|rows|).RowBlocksList? then if f < NumChunks(|rows|) then 1024 * f else |rows|
    else if f == 0 then 0 else |rows|
  }

  /** The rowids inside the bounds that lie in sub-blocks before sub-block f. */
  function InsideBefore(b: Bounds, rows: seq<u32>, f: nat): seq<u32> {
    InsideOf(rows[..RowsBefore(rows, f)], b)
  }

  lemma {:induction false} OneBlockMore(rows: seq<u32>, f: nat)
    requires 0 < |rows| && f < NumBlocks(rows)
    ensures rows[..RowsBefore(rows, f + 1)] == rows[..RowsBefore(rows, f)] + BlockAt(rows, f)
  {
    if PackingOf(|rows|).RowBlocksList? {
      assert Chunk(rows, f) == rows[RowsBefore(rows, f)..RowsBefore(rows, f + 1)];
    }
  }

  lemma {:induction false} AllBlocks(rows: seq<u32>, f: nat)
    requires 0 < |rows| && f >= NumBlocks(rows)
    ensures rows[..RowsBefore(rows, f)] == rows
  {
  }

  lemma {:induction false} InsideOneMore(b: Bounds, rows: seq<u32>, f: nat)
    requires 0 < |rows| && f < NumBlocks(rows)
    ensures InsideBefore(b, rows, f + 1) == InsideBefore(b, rows, f) + InsideOf(BlockAt(rows, f), b)
  {
    hide NumBlocks, BlockAt, InsideOf, RowsBefore;
    OneBlockMore(rows, f);
    InsideConcat(rows[..RowsBefore(rows, f)], BlockAt(rows, f), b);
  }

  /** A sub-block that is not marked has no rowid inside the bounds. */
  lemma {:induction false} UnmarkedOutside(b: Bounds, rows: seq<u32>, stale: set<nat>, k: nat)
    requires 0 < |rows| && Nondecreasing(rows) && k < NumBlocks(rows) && !PlanFor(b, rows, stale).marked[k]
    ensures InsideOf(BlockAt(rows, k), b) == []
  {
    assert !Overlaps(b, rows, k);
    hide PlanFor, NumBlocks, Overlaps, BlockAt, InBounds, Nondecreasing;
    var c := BlockAt(rows, k);
    forall i | 0 <= i < |c| ensures !InBounds(b, c[i]) {
      if InBounds(b, c[i]) {
        BoundedOverlaps(b, rows, k, c[i]);
      }
    }
    NoneInside(c, b);
  }

  /** Between two frontiers without marks nothing is inside the bounds. */
  lemma {:induction false} InsideGap(b: Bounds, rows: seq<u32>, stale: set<nat>, f: nat, g: nat)
    requires 0 < |rows| && Nondecreasing(rows) && f <= g <= NumBlocks(rows)
    requires forall i :: f <= i < g ==> !PlanFor(b, rows, stale).marked[i]
    ensures InsideBefore(b, rows, g) == InsideBefore(b, rows, f)
    decreases g - f
  {
    hide PlanFor, NumBlocks, BlockAt, InsideBefore, Nondecreasing;
    if f < g {
      InsideGap(b, rows, stale, f, g - 1);
      InsideOneMore(b, rows, g - 1);
      UnmarkedOutside(b, rows, stale, g - 1);
    }
  }

  lemma {:induction false} InsideOne(b: Bounds, rows: seq<u32>, stale: set<nat>, f: nat, k: nat, g: nat)
    requires 0 < |rows| && Nondecreasing(rows) && f <= k < g <= NumBlocks(rows)
    requires forall i :: f <= i < g && PlanFor(b, rows, stale).marked[i] ==> i == k
    ensures InsideBefore(b, rows, g) == InsideBefore(b, rows, f) + InsideOf(BlockAt(rows, k), b)
  {
    hide PlanFor, NumBlocks, BlockAt, InsideBefore, Nondecreasing;
    InsideGap(b, rows, stale, f, k);
    InsideOneMore(b, rows, k);
    InsideGap(b, rows, stale, k + 1, g);
  }

  lemma {:induction false} BoundedOverlaps(b: Bounds, rows: seq<u32>, k: nat, x: u32)
    requires 0 < |rows| && Nondecreasing(rows) && k < NumBlocks(rows) && x in BlockAt(rows, k) && InBounds(b, x)
    ensures Overlaps(b, rows, k)
  {
    LastIsLargest(rows, k, x);
    if PackingOf(|rows|).RowBlocksList? {
      var c := BlockAt(rows, k);
      var j :| 0 <= j < |c| && c[j] == x;
      assert c[j] == rows[1024 * k + j] && c[0] == rows[1024 * k];
    }
  }

  lemma {:induction false} BlockIn(rows: seq<u32>, k: nat, x: u32)
    requires 0 < |rows| && k < NumBlocks(rows)
    ensures x in BlockAt(rows, k) ==> x in rows
    ensures Nondecreasing(rows) ==> Nondecreasing(BlockAt(rows, k))
  {
    var c := BlockAt(rows, k);
    if PackingOf(|rows|).RowBlocksList? {
      assert forall j :: 0 <= j < |c| ==> c[j] == rows[1024 * k + j];
    }
  }

  /**
    The rowids of a list inside the bounds have been added as long as rows may be added, and the counter has gone
    down by their number.
   */
  ghost predicate Counted(before: seq<Word>, after: seq<Word>, inside: seq<u32>, b: Bounds, left: int, left': int) {
    && left >= 0 && RowsAdded(before, after, FirstOf(inside, left), b)
    && left' == left - |FirstOf(inside, left)|
  }

  lemma {:induction false} CountedNone(ws: seq<Word>, b: Bounds, left: int)
    requires left >= 0
    ensures Counted(ws, ws, [], b, left, left)
  {
    NothingAdded(ws, b);
  }

  lemma {:induction false} CountedTwice(before: seq<Word>, now: seq<Word>, after: seq<Word>, xs: seq<u32>,
                                        ys: seq<u32>, b: Bounds, left: int, left': int, left'': int)
    requires Counted(before, now, xs, b, left, left') && Counted(now, after, ys, b, left', left'')
    ensures Counted(before, after, xs + ys, b, left, left'')
  {
    hide RowsAdded, FirstOf;
    FirstConcat(xs, ys, left);
    AddTwice(before, now, after, FirstOf(xs, left), FirstOf(ys, left'), b);
  }

  /** Once the counter is used up, whatever follows is not added. */
  lemma {:induction false} CountedUp(before: seq<Word>, now: seq<Word>, xs: seq<u32>, ys: seq<u32>, b: Bounds,
                                     left: int)
    requires Counted(before, now, xs, b, left, 0)
    ensures Counted(before, now, xs + ys, b, left, 0)
  {
    hide RowsAdded;
    FirstConcat(xs, ys, left);
    assert FirstOf(ys, 0) == [];
    assert FirstOf(xs, left) + [] == FirstOf(xs, left);
  }

  lemma {:induction false} CountedFacts(before: seq<Word>, now: seq<Word>, rows: seq<u32>, b: Bounds, left: int,
                                        left': int)
    requires Counted(before, now, InsideOf(rows, b), b, left, left') && |before| <= 0x400_0000
    ensures |now| == |before| && 0 <= left' && left - |rows| <= left'
    ensures |rows| <= left ==> RowsAdded(before, now, rows, b)
  {
    hide HasBit, InBounds, InsideOf;
    if |rows| <= left {
      forall p | 0 <= p < 64 * |before| ensures HasBit(now, p) <==> HasBit(before, p) || (p in rows && InBounds(b, p)) {
        InsideExact(rows, b, p);
      }
    }
  }

  lemma {:induction false} CountedPart(before: seq<Word>, now: seq<Word>, inside: seq<u32>, n: nat, b: Bounds,
                                       left: int)
    requires left >= 0 && n == (if |inside| > left then left else |inside|) && RowsAdded(before, now, inside[..n], b)
    ensures Counted(before, now, inside, b, left, left - n)
  {
    hide RowsAdded;
    assert inside[..|inside|] == inside;
  }

  lemma {:induction false} CountLeft(before: seq<Word>, now: seq<Word>, rows: seq<u32>, b: Bounds, left: int,
                                     left': int)
    requires Counted(before, now, InsideOf(rows, b), b, left, left')
    ensures left' >= 0
  {
    hide RowsAdded, InsideOf;
  }

  /** While a list is being read: what has been collected, and how many rows may still be added. */
  ghost predicate Reading(b: Bounds, rows: seq<u32>, stale: set<nat>, it: P.It, before: seq<Word>, now: seq<Word>,
                          left: int, left': int) {
    && 0 < |rows| && Nondecreasing(rows) && Follows(b, rows, stale, it)
    && FrontOf(b, rows, stale, it) <= NumBlocks(rows)
    && Counted(before, now, InsideBefore(b, rows, FrontOf(b, rows, stale, it)), b, left, left')
  }

  ghost function FrontOf(b: Bounds, rows: seq<u32>, stale: set<nat>, it: P.It): nat
    requires 0 < |rows| && Follows(b, rows, stale, it)
  {
    P.Frontier(PlanFor(b, rows, stale), it)
  }

  lemma {:induction false} ReadingStarts(b: Bounds, rows: seq<u32>, stale: set<nat>, ws: seq<Word>, left: int)
    requires 0 < |rows| && Nondecreasing(rows) && Follows(b, rows, stale, P.FRESH) && left >= 0
    ensures Reading(b, rows, stale, P.FRESH, ws, ws, left, left)
  {
    CountedNone(ws, b, left);
    assert FrontOf(b, rows, stale, P.FRESH) == 0;
    assert rows[..RowsBefore(rows, 0)] == [];
    hide Follows, PlanFor, Counted, FrontOf, NumBlocks, Nondecreasing;
  }

  /** A sub-block that has been read and added. */
  lemma {:induction false} ReadBlock(b: Bounds, rows: seq<u32>, stale: set<nat>, it: P.It, next: P.It,
                                     block: seq<u32>, before: seq<Word>, now: seq<Word>, after: seq<Word>,
                                     left: int, left': int, left'': int)
    requires Reading(b, rows, stale, it, before, now, left, left') && IsNext(b, rows, stale, it, next, true, block)
    requires Counted(now, after, InsideOf(block, b), b, left', left'')
    ensures Reading(b, rows, stale, next, before, after, left, left'')
  {
    var p := PlanFor(b, rows, stale);
    var k := P.Next(p, it).0.value;
    var f, g := FrontOf(b, rows, stale, it), P.Frontier(p, next);
    P.NextFrontier(p, it);
    assert f <= k < g <= NumBlocks(rows) && block == BlockAt(rows, k);
    assert Follows(b, rows, stale, next) && FrontOf(b, rows, stale, next) == g;
    assert forall i :: f <= i < g && p.marked[i] ==> i == k;
    assert Counted(before, now, InsideBefore(b, rows, f), b, left, left');
    hide PlanFor, FrontOf, Follows, NumBlocks, BlockAt, InsideBefore, InsideOf, Counted, Nondecreasing, IsNext;
    InsideOne(b, rows, stale, f, k, g);
    CountedTwice(before, now, after, InsideBefore(b, rows, f), InsideOf(block, b), b, left, left', left'');
  }

  /** When the iterator has come to its end, or no more rows may be added, all that is to be added has been. */
  lemma {:induction false} ReadAll(b: Bounds, rows: seq<u32>, stale: set<nat>, it: P.It, next: P.It, ok: bool,
                                   block: seq<u32>, before: seq<Word>, now: seq<Word>, left: int, left': int)
    requires Reading(b, rows, stale, it, before, now, left, left') && IsNext(b, rows, stale, it, next, ok, block)
    requires !ok || left' <= 0
    ensures Counted(before, now, InsideOf(rows, b), b, left, left')
  {
    var p := PlanFor(b, rows, stale);
    var f := FrontOf(b, rows, stale, it);
    assert Counted(before, now, InsideBefore(b, rows, f), b, left, left');
    AllBlocks(rows, NumBlocks(rows));
    if !ok {
      P.NextFrontier(p, it);
      assert forall i :: f <= i < NumBlocks(rows) ==> !p.marked[i];
      hide Follows, PlanFor, FrontOf, NumBlocks, InsideOf, RowsBefore, Nondecreasing, IsNext, Counted;
      InsideGap(b, rows, stale, f, NumBlocks(rows));
    } else {
      assert left' == 0;
      var n := RowsBefore(rows, f);
      assert rows == rows[..n] + rows[n..];
      hide *;
      InsideConcat(rows[..n], rows[n..], b);
      InsideBeforeIs(b, rows, f);
      CountedUp(before, now, InsideBefore(b, rows, f), InsideOf(rows[n..], b), b, left);
    }
  }

  lemma {:induction false} InsideBeforeIs(b: Bounds, rows: seq<u32>, f: nat)
    ensures InsideBefore(b, rows, f) == InsideOf(rows[..RowsBefore(rows, f)], b)
  {
    hide InsideOf, RowsBefore;
  }

  /** A block that can be added: not empty, in order, inside the bitmap. */
  ghost predicate BlockFits(block: seq<u32>, size: nat) {
    0 < |block| && Nondecreasing(block) && forall i :: 0 <= i < |block| ==> block[i] < size
  }

  lemma {:induction false} FitsFacts(block: seq<u32>, size: nat)
    requires BlockFits(block, size)
    ensures block != [] && Nondecreasing(block) && forall i :: 0 <= i < |block| ==> block[i] < size
  {
  }

  lemma {:induction false} FitsWhen(block: seq<u32>, size: nat)
    requires 0 < |block| && Nondecreasing(block) && forall i :: 0 <= i < |block| ==> block[i] < size
    ensures BlockFits(block, size)
  {
  }

  ghost function FrontierOf(b: Bounds, rows: seq<u32>, stale: set<nat>, it: P.It): nat {
    if 0 < |rows| && Follows(b, rows, stale, it) then FrontOf(b, rows, stale, it) else 0
  }

  lemma {:induction false} NextBlockFacts(b: Bounds, rows: seq<u32>, stale: set<nat>, it: P.It, next: P.It, ok: bool,
                                          block: seq<u32>, size: nat)
    requires 0 < |rows| && Nondecreasing(rows) && IsNext(b, rows, stale, it, next, ok, block)
    requires forall i :: 0 <= i < |rows| ==> rows[i] < size
    ensures ok ==> BlockFits(block, size) && FrontierOf(b, rows, stale, it) < FrontierOf(b, rows, stale,
            next) <= |PlanFor(b, rows, stale).marked|
  {
    if ok {
      var p := PlanFor(b, rows, stale);
      var k := P.Next(p, it).0.value;
      P.NextFrontier(p, it);
      assert k < NumBlocks(rows) && block == BlockAt(rows, k) && block != [];
      assert FrontierOf(b, rows, stale, it) < FrontierOf(b, rows, stale, next) <= |p.marked|;
      hide *;
      BlockOfRows(rows, k, size);
      FitsWhen(block, size);
    }
  }

  lemma {:induction false} BlockOfRows(rows: seq<u32>, k: nat, size: nat)
    requires 0 < |rows| && Nondecreasing(rows) && k < NumBlocks(rows) && forall i :: 0 <= i < |rows| ==> rows[i] < size
    ensures Nondecreasing(BlockAt(rows, k)) && forall i :: 0 <= i < |BlockAt(rows, k)| ==> BlockAt(rows, k)[i] < size
  {
    BlockIn(rows, k, 0);
    var c := BlockAt(rows, k);
    forall i | 0 <= i < |c| ensures c[i] < size {
      BlockIn(rows, k, c[i]);
    }
  }

  lemma {:induction false} AddedRowsLength(before: seq<Word>, after: seq<Word>, rows: seq<u32>, b: Bounds)
    requires RowsAdded(before, after, rows, b)
    ensures |after| == |before|
  {
  }

  lemma {:induction false} AddedLength(before: seq<Word>, after: seq<Word>, bit: nat)
    requires BitAdded(before, after, bit)
    ensures |after| == |before|
  {
  }

  lemma {:induction false} ListFacts(c: Codec, file: seq<u8>, kind: Packing, off: nat, minRowID: u32, maxRowID: u32,
                                     count: nat, rows: seq<u32>)
    requires Describes(c, file, kind, off, minRowID, maxRowID, count, rows)
    ensures 0 < |rows| && Nondecreasing(rows)
  {
    hide Codec.Lawful, Stored, Nondecreasing;
  }

  class BitmapIterator {
    const split: bool             // which kind of bitmap is used
    const flat: BitVec
    const pieces: SplitBitmap
    const size: nat
    const bounds: Bounds
    const dRows: array<nat>       // the block of rows handed out, RESULT_BLOCK_SIZE long
    var index: nat                // the word to go on with
    var rowsLeft: int

    ghost predicate Valid()
      reads flat, pieces
    {
      && flat.Valid() && pieces.Valid() && dRows.Length == 1024 && size < 0x8000_0000
      && (dRows as object) != (flat.data as object)
      && (split ==> pieces.size == size)
      && (!split ==> flat.size == size && flat.data.Length == flat.dataLen)
    }

    ghost function Words(): seq<Word>
      reads flat, flat.data, pieces
    {
      if split then pieces.Words() else flat.data[..]
    }

    constructor (split: bool, size: nat, bounds: Bounds)
      requires size < 0x8000_0000
      ensures Valid() && this.split == split && this.size == size && this.bounds == bounds && index == 0 &&
              rowsLeft == 0x7FFF_FFFF
      ensures fresh(flat) && fresh(flat.data) && fresh(pieces) && fresh(dRows)
      ensures forall i :: 0 <= i < 64 * |Words()| ==> !HasBit(Words(), i)
    {
      this.split, this.size, this.bounds := split, size, bounds;
      flat := new BitVec(if split then 0 else size);
      pieces := new SplitBitmap(if split then size else 0);
      dRows := new nat[1024](_ => 0);
      index, rowsLeft := 0, 0x7FFF_FFFF;
      new;
      hide Members, HasBit;
      if split {
        EmptyWords(pieces.Words());
      } else {
        ZeroWords(flat.data[..]);
      }
    }

    method BitSet(bit: nat)
      requires Valid() && bit < size && bit < 64 * |Words()|
      modifies flat.data, pieces
      ensures Valid() && BitAdded(old(Words()), Words(), bit)
    {
      hide HasBit, Flat, GoodPieces;
      if split {
        pieces.BitSet(bit);
      } else {
        flat.BitSet(bit);
      }
    }

    lemma {:induction false} SizeFacts()
      requires Valid()
      ensures size <= 64 * |Words()| && |Words()| <= 0x400_0000
    {
      if split {
        FlatLength(pieces.bitmaps);
      }
    }

    /** Sets the bits of the part of a sub-block inside the bounds, as long as rows may be added. */
    method AddBlock(block: seq<u32>)
      requires Valid() && block != [] && Nondecreasing(block) && rowsLeft > 0
      requires forall i :: 0 <= i < |block| ==> block[i] < size
      modifies flat.data, pieces, this`rowsLeft
      ensures Valid() && Counted(old(Words()), Words(), InsideOf(block, bounds), bounds, old(rowsLeft), rowsLeft)
    {
      hide *;
      SizeFacts();
      ghost var before := Words();
      var (from, to) := Cut(block, bounds);
      CutInside(block, bounds);
      NothingAdded(before, bounds);
      ghost var whole := to;
      var processed := to - from;
      if processed > rowsLeft {
        to := from + rowsLeft;
        processed := rowsLeft;
      }
      assert block[from..from] == [];
      var i := from;
      while i < to
        invariant from <= i <= to <= whole <= |block| && Valid() && size <= 64 * |Words()| && |Words()| == |before|
        invariant RowsAdded(before, Words(), block[from..i], bounds) && rowsLeft == old(rowsLeft)
      {
        ghost var now := Words();
        BitSet(block[i]);
        AddedLength(now, Words(), block[i]);
        CutExact(block, bounds, i);
        OneRowAdded(before, now, Words(), block[from..i], block[i], bounds);
        assert block[from..i + 1] == block[from..i] + [block[i]];
        i := i + 1;
      }
      assert block[from..whole][..to - from] == block[from..to];
      CountedPart(before, Words(), block[from..whole], to - from, bounds, rowsLeft);
      rowsLeft := rowsLeft - processed;
    }

    /**
      Add: collects the rowids of an iterator that has just been set up. The counter of rows that may be
      added starts at 2 to the power 31 minus 1 even without a cutoff; once it is used up nothing is added.
     */
    method Add(it: RowidIterator)
      requires Valid() && it.Valid() && it.State() == P.FRESH && it.bounds == bounds
      requires rowsLeft >= 0 && forall i :: 0 <= i < |it.rows| ==> it.rows[i] < size
      requires it.matching != flat && it.matching.data != flat.data && (it.matching.data as object) != (dRows as object)
      modifies flat.data, pieces, this`rowsLeft, it, it.matching, it.matching.data
      ensures Valid() && it.Valid() && it.rows == old(it.rows) && rowsLeft >= 0
      ensures it.matching.data == old(it.matching.data) || fresh(it.matching.data)
      ensures Counted(old(Words()), Words(), InsideOf(it.rows, bounds), bounds, old(rowsLeft), rowsLeft)
      ensures rowsLeft >= old(rowsLeft) - |it.rows| && |Words()| == |old(Words())|
      ensures old(|it.rows| <= rowsLeft) ==> RowsAdded(old(Words()), Words(), it.rows, bounds)
    {
      hide *;
      ghost var before, rows, stale, left := Words(), it.rows, it.stale, rowsLeft;
      SizeFacts();
      it.Facts();
      ListFacts(it.codec, it.file, it.kind, it.startOffset, it.minRowID, it.maxRowID, it.count, rows);
      ReadingStarts(bounds, rows, stale, before, rowsLeft);
      ghost var was := it.State();
      var ok, block := it.GetNextRowIdBlock();
      NextBlockFacts(bounds, rows, stale, was, it.State(), ok, block, size);
      while ok && rowsLeft > 0
        invariant Valid() && it.Valid() && it.rows == rows && it.stale == stale && rowsLeft >= 0
        invariant it.matching.data == old(it.matching.data) || fresh(it.matching.data)
        invariant IsNext(bounds, rows, stale, was, it.State(), ok, block)
        invariant Reading(bounds, rows, stale, was, before, Words(), left, rowsLeft)
        invariant ok ==> BlockFits(block, size)
        invariant ok ==> FrontierOf(bounds, rows, stale, was) < FrontierOf(bounds, rows, stale,
                  it.State()) <= |PlanFor(bounds, rows, stale).marked|
        decreases |PlanFor(bounds, rows, stale).marked| - FrontierOf(bounds, rows, stale, was)
      {
        ghost var now, left' := Words(), rowsLeft;
        FitsFacts(block, size);
        AddBlock(block);
        CountLeft(now, Words(), block, bounds, left', rowsLeft);
        ReadBlock(bounds, rows, stale, was, it.State(), block, before, now, Words(), left, left', rowsLeft);
        was := it.State();
        ok, block := it.GetNextRowIdBlock();
        NextBlockFacts(bounds, rows, stale, was, it.State(), ok, block, size);
      }
      ReadAll(bounds, rows, stale, was, it.State(), ok, block, before, Words(), left, rowsLeft);
      CountedFacts(before, Words(), rows, bounds, left, rowsLeft);
    }

    /** HintRowID: skips the words before that of a rowid. */
    method HintRowID(rowid: nat) returns (ok: bool)
      modifies this`index
      ensures index == if rowid / 64 > old(index) then rowid / 64 else old(index)
      ensures ok == (index < size)
    {
      var newIndex := rowid / 64;
      if newIndex > index {
        index := newIndex;
      }
      return index < size;
    }

    /**
      GetNextRowIdBlock: the next rows, no more than the buffer holds, and as many as are sure to fit, up to the end
      of the bitmap or, in a split one, of a piece.
     */
    method GetNextRowIdBlock() returns (ok: bool, block: seq<nat>)
      requires Valid()
      modifies this`index, dRows
      ensures Valid() && Words() == old(Words()) && |block| <= 1024 && ok == (block != [])
      ensures NextRows(Words(), old(index), index, block)
      ensures 0 < |block| < 960 ==> if split then index % 1024 == 0 else index >= |Words()|
    {
      hide Flat, HasBit, Members, GoodPieces, Shift;
      ghost var ws := Words();
      var end: nat;
      if split {
        index, end := pieces.Fetch(index, dRows, 0);
      } else {
        assert flat.data[..flat.dataLen] == flat.data[..];
        index, end := flat.Fetch(index, 0, dRows, 0);
        WholeFetched(ws, old(index), index, dRows[..], end);
      }
      block := dRows[0..end];
      RowsFetched(ws, old(index), index, dRows[..], end);
      ok := block != [];
    }

    /** Invert, for bitmaps in one piece. */
    method Invert()
      requires Valid() && !split && size > 0 && (bounds.Range? ==> bounds.min <= bounds.max < size)
      modifies flat.data
      ensures Valid()
      ensures IsInverted(old(Words()), Words(), if bounds.Range? then bounds.min else 0,
              if bounds.Range? then bounds.max else size - 1)
    {
      hide IsInverted;
      match bounds {
        case Unbounded => flat.Invert(0, size - 1);
        case Range(min, max) => flat.Invert(min, max);
      }
    }
  }

  /** A block handed out: the members of the words from index up to next; an empty one says that nothing is left. */
  ghost predicate NextRows(ws: seq<Word>, index: nat, next: nat, block: seq<nat>) {
    && index <= next
    && (index <= |ws| ==> next <= |ws| && block == Members(ws, 64 * index, 64 * next))
    && (index > |ws| ==> next == index && block == [])
    && (block == [] ==> NothingFrom(ws, index))
  }

  lemma {:induction false} WholeFetched(ws: seq<Word>, index: nat, next: nat, buf: seq<nat>, end: nat)
    requires Fetched(ws, index, 0, next, buf, 0, end) && (end < |buf| - 64 ==> next >= |ws|) && |buf| > 64
    ensures end == 0 ==> NothingFrom(ws, index)
  {
    hide Members, Shift;
    if end == 0 && index <= |ws| {
      ShiftZero(Members(ws, 64 * index, 64 * |ws|));
      assert buf[0..0] == [];
    }
  }

  lemma {:induction false} RowsFetched(ws: seq<Word>, index: nat, next: nat, buf: seq<nat>, end: nat)
    requires Fetched(ws, index, 0, next, buf, 0, end) && (end == 0 ==> NothingFrom(ws, index))
    ensures NextRows(ws, index, next, buf[0..end])
  {
    hide Members, Shift;
    if index <= |ws| {
      ShiftZero(Members(ws, 64 * index, 64 * next));
    }
  }

  lemma {:induction false} EmptyWords(ws: seq<Word>)
    requires Members(ws, 0, 64 * |ws|) == []
    ensures forall i :: 0 <= i < 64 * |ws| ==> !HasBit(ws, i)
  {
    hide HasBit, Members;
    MembersComplete(ws, 0, 64 * |ws|);
  }

  lemma {:induction false} ZeroWords(ws: seq<Word>)
    requires forall i :: 0 <= i < |ws| ==> ws[i] == 0
    ensures forall i :: 0 <= i < 64 * |ws| ==> !HasBit(ws, i)
  {
    forall i | 0 <= i < 64 * |ws| ensures !HasBit(ws, i) {
      ConstantBits(i % 64);
    }
  }

  // ---------------------------------------------------------------- whole runs

  /** Blocks handed out one after the other, each starting where the one before has stopped. */
  ghost predicate Run(ws: seq<Word>, index: seq<nat>, blocks: seq<seq<nat>>) {
    && |index| == |blocks| + 1 && index[0] == 0
    && forall i {:trigger blocks[i]} :: 0 <= i < |blocks| ==>
            var next := i + 1; NextRows(ws, index[i], index[next], blocks[i])
  }

  function Join(blocks: seq<seq<nat>>): seq<nat> {
    if blocks == [] then [] else Join(blocks[..|blocks| - 1]) + blocks[|blocks| - 1]
  }

  lemma {:induction false} RunSoFar(ws: seq<Word>, index: seq<nat>, blocks: seq<seq<nat>>)
    requires Run(ws, index, blocks)
    ensures index[|blocks|] <= |ws| && Join(blocks) == Members(ws, 0, 64 * index[|blocks|])
    decreases |blocks|
  {
    hide Members, NothingFrom;
    if blocks == [] {
      assert Members(ws, 0, 0) == [] by {
        MembersGap(ws, 0, 0);
      }
    } else {
      var n := |blocks| - 1;
      assert NextRows(ws, index[n], index[n + 1], blocks[n]);
      forall i | 0 <= i < n ensures NextRows(ws, index[..n + 1][i], index[..n + 1][i + 1], blocks[..n][i]) {
        assert blocks[..n][i] == blocks[i];
      }
      RunSoFar(ws, index[..n + 1], blocks[..n]);
      MembersSplit(ws, 0, 64 * index[n], 64 * index[n + 1]);
    }
  }

  /** Blocks are handed out until an empty one comes; together they are all rows, in ascending order, each once. */
  lemma {:induction false} RunIsComplete(ws: seq<Word>, index: seq<nat>, blocks: seq<seq<nat>>)
    requires Run(ws, index, blocks) && blocks != [] && blocks[|blocks| - 1] == []
    ensures Join(blocks) == Members(ws, 0, 64 * |ws|) && Ascending(Join(blocks))
    ensures forall x :: x in Join(blocks) <==> 0 <= x < 64 * |ws| && HasBit(ws, x)
  {
    var n := |blocks| - 1;
    RunSoFar(ws, index, blocks);
    assert NextRows(ws, index[n], index[n + 1], blocks[n]);
    hide Members, HasBit, Ascending;
    forall i | 0 <= i < n ensures NextRows(ws, index[..n + 1][i], index[..n + 1][i + 1], blocks[..n][i]) {
      assert blocks[..n][i] == blocks[i];
    }
    RunSoFar(ws, index[..n + 1], blocks[..n]);
    MembersSplit(ws, 0, 64 * index[n], 64 * |ws|);
    assert Join(blocks) == Join(blocks[..n]) + [] == Join(blocks[..n]);
    MembersComplete(ws, 0, 64 * |ws|);
    var all := Members(ws, 0, 64 * |ws|);
    forall x ensures x in all ==> 0 <= x < 64 * |ws| && HasBit(ws, x) {
      if x in all {
        var j :| 0 <= j < |all| && all[j] == x;
      }
    }
  }

  /** A hint skips no row at or above it, and is refused only when nothing is left. */
  lemma {:induction false} HintSkipsNothing(ws: seq<Word>, size: nat, index: nat, rowid: nat, x: nat)
    requires |ws| <= (size + 63) / 64 || |ws| == 1024 * ((size + 65535) / 65536)
    requires x < 64 * |ws| && HasBit(ws, x) && 64 * index <= x && rowid <= x < size
    ensures var next := if rowid / 64 > index then rowid / 64 else index; 64 * next <= x && next < size
  {
    hide HasBit;
  }

  /** Bitmaps with the same rows hand out the same sequence, whichever kind they are. */
  lemma {:induction false} SameRowsSameSequence(ws: seq<Word>, vs: seq<Word>, n: nat)
    requires n <= 64 * |ws| && n <= 64 * |vs|
    requires forall p :: 0 <= p < n ==> HasBit(ws, p) == HasBit(vs, p)
    requires (forall p :: n <= p < 64 * |ws| ==> !HasBit(ws, p)) && (forall p :: n <= p < 64 * |vs| ==> !HasBit(vs, p))
    ensures Members(ws, 0, 64 * |ws|) == Members(vs, 0, 64 * |vs|)
  {
    hide HasBit, Members;
    MembersSame(ws, vs, 0, n);
    MembersSkip(ws, 0, n, 64 * |ws|);
    MembersSkip(vs, 0, n, 64 * |vs|);
  }

  /** Lists added to an empty bitmap one after the other: it holds the union of what is inside the bounds. */
  lemma {:induction false} UnionOfLists(states: seq<seq<Word>>, lists: seq<seq<u32>>, b: Bounds)
    requires |states| == |lists| + 1 && forall p :: 0 <= p < 64 * |states[0]| ==> !HasBit(states[0], p)
    requires forall i {:trigger lists[i]} :: 0 <= i < |lists| ==>
            var next := i + 1; RowsAdded(states[i], states[next], lists[i], b)
    ensures var ws := states[|lists|];
            |ws| == |states[0]| &&
            forall p :: 0 <= p < 64 * |ws| ==> (HasBit(ws, p) <==>
                    InBounds(b, p) && exists i :: 0 <= i < |lists| && p in lists[i])
    decreases |lists|
  {
    hide HasBit, InBounds;
    if lists != [] {
      var n := |lists| - 1;
      assert RowsAdded(states[n], states[n + 1], lists[n], b);
      forall i | 0 <= i < n ensures RowsAdded(states[..n + 1][i], states[..n + 1][i + 1], lists[..n][i], b) {
        assert lists[..n][i] == lists[i];
      }
      UnionOfLists(states[..n + 1], lists[..n], b);
      forall p | 0 <= p < 64 * |states[0]|
        ensures HasBit(states[n + 1], p) <==> InBounds(b, p) && exists i :: 0 <= i < |lists| && p in lists[i]
      {
        assert forall i :: 0 <= i < n ==> lists[..n][i] == lists[i];
        assert (exists i :: 0 <= i < n && p in lists[..n][i]) <==> (exists i :: 0 <= i < n && p in lists[i]);
      }
    }
  }

  /**
    After inversion the bitmap holds exactly the rows inside the bounds that were not added, if and only if
    the upper bound is not the last bit of a word, or that word has every row in bounds.
   */
  lemma {:induction false} ExclusionExactIff(before: seq<Word>, after: seq<Word>, lo: nat, hi: nat)
    requires lo <= hi < 64 * |before| && IsInverted(before, after, lo, hi)
    requires forall p :: 0 <= p < 64 * |before| && HasBit(before, p) ==> lo <= p <= hi
    ensures (forall p :: 0 <= p < 64 * |before| ==> (HasBit(after, p) <==> lo <= p <= hi && !HasBit(before, p))) <==>
              hi % 64 != 63 || forall p :: 0 <= p < 64 * |before| && p / 64 == hi / 64 && lo <= p ==> HasBit(before, p)
  {
    assert Within(before, lo, hi) && |after| == |before|;
    InvertExactIff(before, after, lo, hi);
    hide HasBit, IsInverted;
  }
}
