/**
  The rowid iterator of the secondary index (secondary/iterator.cpp, RowidIterator_T): it reads back the
  rowids stored for one value, sub-block by sub-block, and can be set up again for another value.
 */
module RowidIterator {
  import opened ByteCodec
  import opened Orders
  import opened RowLists
  import opened BitVector
  import P = RowidProtocol
  import Bits

  /** The rowids are stored at offset off of the file, in a block small enough for 32-bit offsets. */
  ghost predicate Stored(c: Codec, file: seq<u8>, off: nat, rows: seq<u32>) {
    && 0 < |rows| < 0x1_0000_0000 && Nondecreasing(rows)
    && |ItemBytes(c, rows)| < 0x1_0000_0000
    && At(file, off, ItemBytes(c, rows))
  }

  /** The sub-blocks of a list: its chunks, or the whole list when it is not stored as a list of blocks. */
  function NumBlocks(rows: seq<u32>): nat {
    if PackingOf(|rows|).RowBlocksList? then NumChunks(|rows|) else 1
  }

  function BlockAt(rows: seq<u32>, k: nat): (b: seq<u32>)
    requires 0 < |rows| && k < NumBlocks(rows)
    ensures |b| > 0
  {
    if PackingOf(|rows|).RowBlocksList? then Chunk(rows, k) else rows
  }

  function BlockMin(rows: seq<u32>, k: nat): u32
    requires 0 < |rows| && k < NumBlocks(rows)
  {
    BlockAt(rows, k)[0]
  }

  function BlockMax(rows: seq<u32>, k: nat): u32
    requires 0 < |rows| && k < NumBlocks(rows)
  {
    BlockAt(rows, k)[|BlockAt(rows, k)| - 1]
  }

  /** Rowid bounds of a query; absent bounds let everything through. */
  datatype Bounds = Unbounded | Range(min: u32, max: u32)

  predicate Overlaps(b: Bounds, rows: seq<u32>, k: nat)
    requires 0 < |rows| && k < NumBlocks(rows)
  {
    b.Unbounded? || !PackingOf(|rows|).RowBlocksList? || (b.min <= BlockMax(rows, k) && BlockMin(rows, k) <= b.max)
  }

  ghost predicate AnyOverlapUpTo(b: Bounds, rows: seq<u32>, k: nat)
    requires 0 < |rows| && k < NumBlocks(rows)
  {
    exists j :: 0 <= j <= k && Overlaps(b, rows, j)
  }

  /**
    What an iterator walks over. A sub-block is marked when it overlaps the bounds, and also when a bit
    left from an earlier use says so, unless it comes before the first sub-block that overlaps.
   */
  ghost function PlanFor(b: Bounds, rows: seq<u32>, stale: set<nat>): (p: P.Plan)
    requires 0 < |rows|
    ensures |p.lo| == |p.hi| == |p.marked| == NumBlocks(rows)
  {
    var n := NumBlocks(rows);
    P.Plan(PackingOf(|rows|).RowBlocksList?,
           seq(n, k requires 0 <= k < n => BlockMin(rows, k)),
           seq(n, k requires 0 <= k < n => BlockMax(rows, k)),
           seq(n, k requires 0 <= k < n => Overlaps(b, rows, k) || (AnyOverlapUpTo(b, rows, k) && k in stale)))
  }

  lemma {:induction false} PlanWellformed(b: Bounds, rows: seq<u32>, stale: set<nat>)
    requires 0 < |rows| && Nondecreasing(rows)
    ensures P.Wellformed(PlanFor(b, rows, stale))
  {
    hide Overlaps, AnyOverlapUpTo;
    var p := PlanFor(b, rows, stale);
    forall k, l | 0 <= k <= l < |p.hi| ensures p.hi[k] <= p.hi[l] {
      if p.list {
        BlockMaxOrder(rows, k, l);
      }
    }
    FirstInOrder(rows);
    if !p.list {
      assert Overlaps(b, rows, 0) by {
        NonListOverlaps(b, rows);
      }
      assert p.marked == [true];
    }
  }

  lemma {:induction false} FirstInOrder(rows: seq<u32>)
    requires 0 < |rows| && Nondecreasing(rows)
    ensures BlockMin(rows, 0) <= BlockMax(rows, 0)
  {
  }

  lemma {:induction false} NonListOverlaps(b: Bounds, rows: seq<u32>)
    requires 0 < |rows| && !PackingOf(|rows|).RowBlocksList?
    ensures Overlaps(b, rows, 0)
  {
  }

  lemma {:induction false} BlockMaxOrder(rows: seq<u32>, k: nat, l: nat)
    requires 0 < |rows| && Nondecreasing(rows) && PackingOf(|rows|).RowBlocksList?
    requires k <= l < NumBlocks(rows)
    ensures BlockMax(rows, k) <= BlockMax(rows, l)
  {
    assert BlockMax(rows, k) == rows[1024 * k + ChunkLen(|rows|, k) - 1];
    assert BlockMax(rows, l) == rows[1024 * l + ChunkLen(|rows|, l) - 1];
  }

  // ---------------------------------------------------------------- reading one list

  /** Positions inside a stored list of blocks. */
  function MinMaxPos(off: nat, rows: seq<u32>): nat {
    off + |Pack(NumChunks(|rows|))|
  }

  function OffsetsPos(c: Codec, off: nat, rows: seq<u32>): nat {
    MinMaxPos(off, rows) + |Vec(c.encode(MinMaxOf(rows)))|
  }

  function DataPos(c: Codec, off: nat, rows: seq<u32>): nat {
    OffsetsPos(c, off, rows) + |Vec(c.encode(OffsetsOf(c, rows)))|
  }

  lemma {:induction false} StoredList(c: Codec, file: seq<u8>, off: nat, rows: seq<u32>)
    requires Stored(c, file, off, rows) && PackingOf(|rows|).RowBlocksList?
    ensures At(file, off, Pack(NumChunks(|rows|)))
    ensures At(file, MinMaxPos(off, rows), Vec(c.encode(MinMaxOf(rows))))
    ensures At(file, OffsetsPos(c, off, rows), Vec(c.encode(OffsetsOf(c, rows))))
    ensures At(file, DataPos(c, off, rows), WordsBytes(ChunkWords(c, rows, NumChunks(|rows|))))
    ensures 4 * |ChunkWords(c, rows, NumChunks(|rows|))| < 0x1_0000_0000
  {
    hide At, Pack, Vec, WordsBytes, ChunkWords, MinMaxOf, OffsetsOf;
    var n := NumChunks(|rows|);
    var a, b, d, e := Pack(n), Vec(c.encode(MinMaxOf(rows))), Vec(c.encode(OffsetsOf(c, rows))),
        WordsBytes(ChunkWords(c, rows, n));
    assert ItemBytes(c, rows) == a + b + d + e;
    hide ItemBytes, ListBytes, Nondecreasing, NumChunks;
    AtConcat(file, off, a + b + d, e);
    AtConcat(file, off, a + b, d);
    AtConcat(file, off, a, b);
  }

  lemma {:induction false} CodecRoundTrip(c: Codec, xs: seq<u32>)
    requires c.Lawful()
    ensures c.decode(c.encode(xs), |xs|) == xs && |c.encode(xs)| <= 2 * |xs| + 1024
  {
  }

  /** Reading a coded vector of known length restores it and ends right behind it. */
  lemma {:induction false} DecodeVecBack(c: Codec, file: seq<u8>, pos: nat, xs: seq<u32>)
    requires c.Lawful() && |xs| < 0x4000_0000 && At(file, pos, Vec(c.encode(xs)))
    ensures ReadVec(file, pos).1 == pos + |Vec(c.encode(xs))|
    ensures c.decode(ReadVec(file, pos).0, |xs|) == xs
  {
    CodecRoundTrip(c, xs);
    hide Codec.Lawful, At, Vec, ReadVec;
    ReadVecBack(file, pos, c.encode(xs));
  }

  /** The recorded offsets lead to the code of sub-block k, and decoding it gives the sub-block. */
  lemma {:induction false} SubBlockBack(c: Codec, file: seq<u8>, off: nat, rows: seq<u32>, k: nat)
    requires c.Lawful() && Stored(c, file, off, rows) && PackingOf(|rows|).RowBlocksList? && k < NumChunks(|rows|)
    ensures c.decode(CodeAt(file, DataPos(c, off, rows), OffsetsOf(c, rows), k), ChunkLen(|rows|, k)) == Chunk(rows, k)
  {
    hide Codec.Lawful, CodeAt, DataPos, Chunk, At, WordsBytes, Stored, OffsetsOf, ChunkWords, NumChunks;
    StoredList(c, file, off, rows);
    ChunkInFile(c, file, DataPos(c, off, rows), rows, k);
    CodecRoundTrip(c, Chunk(rows, k));
  }

  // ---------------------------------------------------------------- marks

  /** From the first overlap on, the bits say which sub-blocks are marked. */
  ghost predicate BitsMark(b: Bounds, rows: seq<u32>, stale: set<nat>, ws: seq<Bits.Word>)
    requires 0 < |rows|
  {
    && NumBlocks(rows) <= 64 * |ws|
    && forall k :: 0 <= k < NumBlocks(rows) && AnyOverlapUpTo(b, rows, k) ==>
         (HasBit(ws, k) <==> Overlaps(b, rows, k) || k in stale)
  }

  lemma {:induction false} AnyOverlapMonotone(b: Bounds, rows: seq<u32>, j: nat, k: nat)
    requires 0 < |rows| && j <= k < NumBlocks(rows) && AnyOverlapUpTo(b, rows, j)
    ensures AnyOverlapUpTo(b, rows, k)
  {
  }

  /** Scanning the bits finds the next marked sub-block of the plan. */
  lemma {:induction false} ScanFindsMark(b: Bounds, rows: seq<u32>, stale: set<nat>, ws: seq<Bits.Word>, from: nat,
                                         r: nat)
    requires 0 < |rows| && BitsMark(b, rows, stale, ws)
    requires 0 < from < NumBlocks(rows) && AnyOverlapUpTo(b, rows, from - 1)
    requires from <= r && (r < NumBlocks(rows) ==> HasBit(ws, r))
    requires forall i :: from <= i < r && i < NumBlocks(rows) ==> !HasBit(ws, i)
    ensures var k := if r < NumBlocks(rows) then r else NumBlocks(rows);
            P.FirstMarked(PlanFor(b, rows, stale), from) == k &&
            (k < NumBlocks(rows) ==> AnyOverlapUpTo(b, rows, k))
  {
    var p := PlanFor(b, rows, stale);
    hide HasBit, Overlaps, AnyOverlapUpTo, NumBlocks, BlockMin, BlockMax;
    forall i | from <= i < NumBlocks(rows)
      ensures p.marked[i] <==> HasBit(ws, i)
      ensures AnyOverlapUpTo(b, rows, i)
    {
      AnyOverlapMonotone(b, rows, from - 1, i);
    }
  }

  /** The marks that will survive resizing to n: none when the storage has to grow. */
  ghost function StaleBits(ws: seq<Bits.Word>, n: nat): set<nat> {
    if (n + 63) / 64 > |ws| then {} else set k | 0 <= k < n && k < 64 * |ws| && HasBit(ws, k)
  }

  // ---------------------------------------------------------------- the iterator

  ghost function StaleMarks(ws: seq<Bits.Word>, rows: seq<u32>): set<nat> {
    if rows == [] then {} else StaleBits(ws, NumBlocks(rows))
  }

  /** A block entry that describes a list stored in the file. */
  ghost predicate Describes(c: Codec, file: seq<u8>, kind: Packing, off: nat, minRowID: u32, maxRowID: u32, count: nat,
                            rows: seq<u32>) {
    && |rows| > 0 && c.Lawful() && Nondecreasing(rows) && Stored(c, file, off, rows)
    && kind == PackingOf(|rows|) && count == |rows|
    && minRowID == rows[0] && maxRowID == rows[|rows| - 1]
  }

  /** The decoded tables of a started list of blocks. */
  ghost predicate TablesOf(c: Codec, off: nat, rows: seq<u32>, minMax: seq<u32>, offsets: seq<u32>, data: nat) {
    PackingOf(|rows|).RowBlocksList? && minMax == MinMaxOf(rows) && offsets == OffsetsOf(c, rows) &&
        data == DataPos(c, off, rows)
  }

  /** The block a started list stands on, and the marks ahead of it. */
  ghost predicate Standing(b: Bounds, rows: seq<u32>, stale: set<nat>, ws: seq<Bits.Word>, size: nat, cur: nat)
    requires 0 < |rows|
  {
    && size == NumBlocks(rows) && BitsMark(b, rows, stale, ws)
    && cur < NumBlocks(rows) && AnyOverlapUpTo(b, rows, cur)
  }

  ghost predicate Follows(b: Bounds, rows: seq<u32>, stale: set<nat>, it: P.It)
    requires 0 < |rows|
  {
    P.Ok(PlanFor(b, rows, stale), it)
  }

  lemma {:induction false} FreshFollows(b: Bounds, rows: seq<u32>, stale: set<nat>)
    requires 0 < |rows| && Nondecreasing(rows)
    ensures Follows(b, rows, stale, P.FRESH)
  {
    PlanWellformed(b, rows, stale);
  }

  class RowidIterator {
    const file: seq<u8>
    const codec: Codec
    const bounds: Bounds
    const matching: BitVec

    var kind: Packing
    var startOffset: nat
    var minRowID: u32
    var maxRowID: u32
    var count: nat
    var dataOffset: nat

    var started: bool
    var stopped: bool
    var needToRewind: bool
    var curBlock: nat

    var dMinMax: seq<u32>
    var dBlockOffsets: seq<u32>

    ghost var rows: seq<u32>     // the list this iterator has been set up for
    ghost var stale: set<nat>    // marks left from earlier lists

    ghost predicate Valid()
      reads this, matching, matching.data
    {
      && matching.Valid() && |rows| > 0
      && Describes(codec, file, kind, startOffset, minRowID, maxRowID, count, rows)
      && Follows(bounds, rows, stale, State())
      && (!started ==> stale == StaleMarks(matching.data[..], rows))
      && (started && !stopped ==>
            && TablesOf(codec, startOffset, rows, dMinMax, dBlockOffsets, dataOffset)
            && Standing(bounds, rows, stale, matching.data[..], matching.size, curBlock))
    }

    ghost function Plan(): P.Plan
      reads this
      requires |rows| > 0
    {
      PlanFor(bounds, rows, stale)
    }

    ghost function State(): P.It
      reads this
    {
      P.It(started, stopped, needToRewind, if stopped && curBlock > NumBlocks(rows) then NumBlocks(rows) else curBlock)
    }

    constructor (file: seq<u8>, codec: Codec, bounds: Bounds, kind: Packing, startOffset: nat,
                 minRowID: u32, maxRowID: u32, count: nat, ghost rows: seq<u32>)
      requires Describes(codec, file, kind, startOffset, minRowID, maxRowID, count, rows)
      ensures Valid() && this.file == file && this.codec == codec && this.bounds == bounds && this.rows == rows
      ensures State() == P.FRESH && Plan() == PlanFor(bounds, rows, {})
      ensures fresh(matching) && fresh(matching.data)
    {
      this.file, this.codec, this.bounds := file, codec, bounds;
      this.kind, this.startOffset, this.minRowID, this.maxRowID, this.count := kind, startOffset, minRowID, maxRowID,
          count;
      dataOffset, started, stopped, needToRewind, curBlock := 0, false, false, true, 0;
      dMinMax, dBlockOffsets := [], [];
      matching := new BitVec(0);
      this.rows, this.stale := rows, {};
      new;
      assert StaleBits(matching.data[..], NumBlocks(rows)) == {};
      FreshFollows(bounds, rows, {});
    }

    /** Turns the iterator to another list, whatever it did before. Marks of earlier lists are not cleared. */
    method Setup(kind: Packing, startOffset: nat, minRowID: u32, maxRowID: u32, count: nat, ghost rows: seq<u32>)
      requires matching.Valid() && Describes(codec, file, kind, startOffset, minRowID, maxRowID, count, rows)
      modifies this, matching
      ensures Valid() && this.rows == rows && State() == P.FRESH && matching.data == old(matching.data)
    {
      hide *;
      matching.Resize(0);
      Reset(kind, startOffset, minRowID, maxRowID, count);
      this.rows, stale := rows, StaleMarks(matching.data[..], rows);
      FreshIsValid();
    }

    /** The fields of an iterator that has not been started. */
    method Reset(kind: Packing, startOffset: nat, minRowID: u32, maxRowID: u32, count: nat)
      modifies this
      ensures this.kind == kind && this.startOffset == startOffset && this.minRowID == minRowID &&
              this.maxRowID == maxRowID
      ensures this.count == count && !started && !stopped && needToRewind && curBlock == 0
    {
      this.kind, this.startOffset := kind, startOffset;
      this.minRowID, this.maxRowID, this.count := minRowID, maxRowID, count;
      dataOffset, started, stopped, needToRewind, curBlock := 0, false, false, true, 0;
      dMinMax, dBlockOffsets := [], [];
    }

    /** An iterator that has just been pointed at a stored list. */
    lemma {:induction false} FreshIsValid()
      requires matching.Valid() && Describes(codec, file, kind, startOffset, minRowID, maxRowID, count, rows)
      requires !started && !stopped && needToRewind && curBlock == 0
      requires stale == StaleMarks(matching.data[..], rows)
      ensures Valid() && State() == P.FRESH
    {
      assert |rows| > 0 && Nondecreasing(rows);
      hide Describes, StaleBits, NumBlocks, Follows, PlanFor, Nondecreasing;
      FreshFollows(bounds, rows, stale);
    }

    /** CalcNumBlockRowids. */
    function CalcNumBlockRowids(): nat
      reads this
    {
      if curBlock + 1 < |dBlockOffsets| then 1024
      else if count % 1024 != 0 then count % 1024 else 1024
    }

    lemma {:induction false} NumBlockRowids()
      requires |rows| > 0 && PackingOf(|rows|).RowBlocksList?
      requires count == |rows| && |dBlockOffsets| == NumBlocks(rows) && curBlock < NumBlocks(rows)
      ensures CalcNumBlockRowids() == ChunkLen(|rows|, curBlock)
    {
    }

    /** Decodes the current sub-block. */
    method ReadNextBlock() returns (ok: bool, block: seq<u32>)
      requires Valid() && started && !stopped
      ensures ok && curBlock < NumBlocks(rows) && block == BlockAt(rows, curBlock)
    {
      hide Codec.Lawful, Stored, CodeAt, DataPos, OffsetsOf, MinMaxOf, Chunk, BitsMark, AnyOverlapUpTo, StaleBits,
           Follows, Nondecreasing;
      NumBlockRowids();
      SubBlockBack(codec, file, startOffset, rows, curBlock);
      var src := CodeAt(file, dataOffset, dBlockOffsets, curBlock);
      block := codec.decode(src, CalcNumBlockRowids());
      ok := block != [];
    }

    /** Moves to the next marked sub-block; stops the iterator when there is none. */
    method RewindToNextMatchingBlock() returns (ok: bool)
      requires Valid() && started && !stopped
      modifies this`curBlock, this`stopped
      ensures Valid() && ok == !stopped
      ensures State() == Rewound(bounds, rows, stale, old(State()))
    {
      hide Describes, TablesOf, StaleBits, NumBlocks, BitsMark, AnyOverlapUpTo, HasBit, PlanFor, P.FirstMarked;
      ghost var was := State();
      curBlock := curBlock + 1;
      if curBlock >= matching.size {
        ScanRewinds(bounds, rows, stale, matching.data[..], matching.size, was, curBlock);
        stopped := true;
        return false;
      }
      curBlock := matching.Scan(curBlock);
      ScanRewinds(bounds, rows, stale, matching.data[..], matching.size, was, curBlock);
      if curBlock >= matching.size {
        stopped := true;
        return false;
      }
      return true;
    }

    /** Marks the sub-blocks that overlap the bounds and moves to the first of them; returns how many overlap. */
    method MarkMatchingBlocks() returns (found: nat)
      requires matching.Valid() && |rows| > 0 && PackingOf(|rows|).RowBlocksList?
      requires dMinMax == MinMaxOf(rows) && |dBlockOffsets| == NumBlocks(rows)
      requires stale == StaleMarks(matching.data[..], rows)
      modifies this`curBlock, matching, matching.data
      ensures matching.Valid() && matching.size == NumBlocks(rows)
      ensures matching.data == old(matching.data) || fresh(matching.data)
      ensures Marked(bounds, rows, stale, matching.data[..], NumBlocks(rows), found, curBlock)
      ensures found == 0 ==> curBlock == old(curBlock)
    {
      ghost var before := matching.data[..];
      hide *;
      matching.Resize(|dBlockOffsets|);
      if bounds.Unbounded? {
        matching.SetAllBits();
        curBlock := 0;
        EverythingMarked(bounds, rows, stale, matching.data[..]);
        return |dBlockOffsets|;
      }
      KeptBits(before, matching.data[..], bounds, rows, stale, curBlock);
      found := MarkRange();
    }

    method MarkRange() returns (found: nat)
      requires matching.Valid() && bounds.Range? && |rows| > 0 && PackingOf(|rows|).RowBlocksList?
      requires dMinMax == MinMaxOf(rows) && |dBlockOffsets| == NumBlocks(rows) == matching.size
      requires Marked(bounds, rows, stale, matching.data[..], 0, 0, curBlock)
      modifies this`curBlock, matching.data
      ensures Marked(bounds, rows, stale, matching.data[..], NumBlocks(rows), found, curBlock)
      ensures found == 0 ==> curBlock == old(curBlock)
    {
      hide *;
      found := 0;
      var i := 0;
      while i < |dBlockOffsets|
        invariant 0 <= i <= |dBlockOffsets|
        invariant Marked(bounds, rows, stale, matching.data[..], i, found, curBlock)
        invariant found == 0 ==> curBlock == old(curBlock)
      {
        MinMaxAt(rows, i);
        var overlaps := bounds.min <= dMinMax[2 * i + 1] && dMinMax[2 * i] <= bounds.max;
        ghost var ws := matching.data[..];
        ghost var first := curBlock;
        if overlaps {
          matching.BitSet(i);
          if found == 0 {
            curBlock := i;
          }
          found := found + 1;
        }
        MarkOne(bounds, rows, stale, ws, matching.data[..], i, overlaps, found, first, curBlock);
        i := i + 1;
      }
    }

    /** Reads the tables of a list, or the only block, and returns the first matching sub-block. */
    method StartBlock() returns (ok: bool, block: seq<u32>)
      requires Valid() && !started
      modifies this, matching, matching.data
      ensures Valid() && rows == old(rows) && stale == old(stale)
      ensures matching.data == old(matching.data) || fresh(matching.data)
      ensures IsNext(bounds, rows, stale, old(State()), State(), ok, block)
    {
      hide *;
      Facts();
      started := true;
      match kind {
        case Row =>
          stopped := true;
          block := [minRowID];
          ok := true;
          WholeBack(codec, file, kind, startOffset, minRowID, maxRowID, count, rows);
          NextWhole(bounds, rows, stale);
          StoppedIsValid();
        case RowBlock =>
          stopped := true;
          block := codec.decode(ReadVec(file, startOffset).0, count);
          ok := block != [];
          WholeBack(codec, file, kind, startOffset, minRowID, maxRowID, count, rows);
          NextWhole(bounds, rows, stale);
          StoppedIsValid();
        case RowBlocksList =>
          ok, block := StartList();
      }
    }

    method StartList() returns (ok: bool, block: seq<u32>)
      requires matching.Valid() && Describes(codec, file, kind, startOffset, minRowID, maxRowID, count, rows)
      requires kind.RowBlocksList? && started && !stopped && needToRewind && curBlock == 0
      requires |rows| > 0 && stale == StaleMarks(matching.data[..], rows)
      modifies this`curBlock, this`stopped, this`dMinMax, this`dBlockOffsets, this`dataOffset, matching, matching.data
      ensures Valid()
      ensures matching.data == old(matching.data) || fresh(matching.data)
      ensures IsNext(bounds, rows, stale, P.FRESH, State(), ok, block)
    {
      hide *;
      StartTables(codec, file, kind, startOffset, minRowID, maxRowID, count, rows);
      ReadTables();
      TablesSizes(codec, startOffset, rows, dMinMax, dBlockOffsets, dataOffset);
      var found := MarkMatchingBlocks();
      MarkedStanding(bounds, rows, stale, matching.data[..], found, curBlock);
      if found == 0 {
        stopped := true;
        block, ok := [], false;
        StoppedIsValid();
      } else {
        StandingIsValid();
        ok, block := ReadNextBlock();
      }
      NextStarted(bounds, rows, stale, found, curBlock, block);
    }

    /** Reads the number of sub-blocks and the two coded tables in front of the data. */
    method ReadTables()
      modifies this`dMinMax, this`dBlockOffsets, this`dataOffset
      ensures Tables(codec, file, startOffset) == (dMinMax, dBlockOffsets, dataOffset)
    {
      var blocks := Unpack(file, startOffset, U32_LIMIT);
      var minMax := ReadVec(file, blocks.next);
      dMinMax := codec.decode(minMax.0, 2 * blocks.value);
      var offsets := ReadVec(file, minMax.1);
      dBlockOffsets := codec.decode(offsets.0, blocks.value);
      dataOffset := offsets.1;
    }

    /** HintRowID: skips sub-blocks that end before rowid r; a false answer means nothing is left. */
    method HintRowID(r: u32) returns (ok: bool)
      requires Valid()
      modifies this`curBlock, this`stopped, this`needToRewind
      ensures Valid() && IsHint(bounds, rows, stale, old(State()), State(), r, ok)
    {
      hide *;
      Facts();
      NoHint(bounds, rows, stale, State(), r);
      if !started {
        return true;
      }
      if stopped {
        return false;
      }
      ghost var was := State();
      Extremes(codec, file, kind, startOffset, minRowID, maxRowID, count, rows, dMinMax, dBlockOffsets, dataOffset,
          curBlock);
      HintEnds(bounds, rows, stale, was, r);
      if r <= minRowID {
        return true;
      }
      if r > maxRowID {
        stopped := true;
        StoppedIsValid();
        return false;
      }
      var oldBlock := curBlock;
      while true
        invariant Valid() && started && !stopped && State() == was.(cur := curBlock)
        invariant Reaches(bounds, rows, stale, was, r, curBlock)
        decreases NumBlocks(rows) - curBlock
      {
        Facts();
        Extremes(codec, file, kind, startOffset, minRowID, maxRowID, count, rows, dMinMax, dBlockOffsets, dataOffset,
            curBlock);
        HintMoves(bounds, rows, stale, was, r, curBlock);
        if r <= dMinMax[2 * curBlock + 1] {
          if curBlock != oldBlock {
            needToRewind := false;
          }
          StandingIsValid();
          return true;
        }
        var more := RewindToNextMatchingBlock();
        Facts();
        if !more {
          return false;
        }
      }
    }

    /** GetNextRowIdBlock: the next matching sub-block, decoded. */
    method GetNextRowIdBlock() returns (ok: bool, block: seq<u32>)
      requires Valid()
      modifies this, matching, matching.data
      ensures Valid() && rows == old(rows) && stale == old(stale)
      ensures matching.data == old(matching.data) || fresh(matching.data)
      ensures IsNext(bounds, rows, stale, old(State()), State(), ok, block)
    {
      hide *;
      Facts();
      ghost var was := State();
      if started {
        NextSteps(bounds, rows, stale, was);
      }
      if stopped {
        return false, [];
      }
      if !started {
        ok, block := StartBlock();
        return;
      }
      if needToRewind {
        ok := RewindToNextMatchingBlock();
        Facts();
        if !ok {
          return false, [];
        }
      }
      Facts();
      needToRewind := true;
      StandingIsValid();
      ok, block := ReadNextBlock();
    }

    /** What validity says, piece by piece. */
    lemma {:induction false} Facts()
      requires Valid()
      ensures |rows| > 0 && matching.Valid() && Follows(bounds, rows, stale, State())
      ensures Describes(codec, file, kind, startOffset, minRowID, maxRowID, count, rows)
      ensures State().started == started && State().stopped == stopped
      ensures !started ==>
              State() == P.FRESH && !stopped && needToRewind && curBlock == 0 &&
              stale == StaleMarks(matching.data[..], rows)
      ensures started && !stopped ==>
                && State() == P.It(true, false, needToRewind, curBlock)
                && TablesOf(codec, startOffset, rows, dMinMax, dBlockOffsets, dataOffset)
                && Standing(bounds, rows, stale, matching.data[..], matching.size, curBlock)
                && curBlock < NumBlocks(rows) && PlanFor(bounds, rows, stale).marked[curBlock]
    {
      hide Describes, TablesOf, PlanFor, StaleMarks, BitsMark, AnyOverlapUpTo, NumBlocks;
    }

    lemma {:induction false} StoppedIsValid()
      requires matching.Valid() && Describes(codec, file, kind, startOffset, minRowID, maxRowID, count, rows)
      requires started && stopped && curBlock <= NumBlocks(rows)
      ensures Valid() && State() == P.It(true, true, needToRewind, curBlock)
    {
      assert |rows| > 0 && Nondecreasing(rows);
      hide Describes;
      PlanWellformed(bounds, rows, stale);
    }

    lemma {:induction false} StandingIsValid()
      requires matching.Valid() && Describes(codec, file, kind, startOffset, minRowID, maxRowID, count, rows)
      requires started && !stopped
      requires TablesOf(codec, startOffset, rows, dMinMax, dBlockOffsets, dataOffset)
      requires Standing(bounds, rows, stale, matching.data[..], matching.size, curBlock)
      requires PlanFor(bounds, rows, stale).marked[curBlock]
      ensures Valid() && State() == P.It(true, false, needToRewind, curBlock)
    {
      assert |rows| > 0 && Nondecreasing(rows);
      PlanWellformed(bounds, rows, stale);
      hide Describes, PlanFor;
    }
  }

  // ---------------------------------------------------------------- starting

  /** The state and result of a read are those of the protocol. */
  ghost predicate IsNext(b: Bounds, rows: seq<u32>, stale: set<nat>, it: P.It, after: P.It, ok: bool, block: seq<u32>) {
    && 0 < |rows| && Follows(b, rows, stale, it)
    && var (k, next) := P.Next(PlanFor(b, rows, stale), it);
       after == next && ok == k.Some? && (ok ==> block == BlockAt(rows, k.value))
  }

  /** The extremes that hints are compared with. */
  lemma {:induction false} Extremes(c: Codec, file: seq<u8>, kind: Packing, off: nat, minRowID: u32, maxRowID: u32,
                                    count: nat, rows: seq<u32>,
                 minMax: seq<u32>, offsets: seq<u32>, data: nat, cur: nat)
    requires Describes(c, file, kind, off, minRowID, maxRowID, count, rows) &&
             TablesOf(c, off, rows, minMax, offsets, data)
    requires cur < NumBlocks(rows)
    ensures minRowID == BlockMin(rows, 0) && maxRowID == BlockMax(rows, NumBlocks(rows) - 1)
    ensures |minMax| == 2 * NumBlocks(rows) && minMax[2 * cur + 1] == BlockMax(rows, cur)
  {
    assert minRowID == rows[0] && maxRowID == rows[|rows| - 1];
    assert PackingOf(|rows|).RowBlocksList? && minMax == MinMaxOf(rows);
    hide Describes, TablesOf, MinMaxOf;
    MinMaxAt(rows, cur);
  }

  /** The state and answer of a hint are those of the protocol. */
  ghost predicate IsHint(b: Bounds, rows: seq<u32>, stale: set<nat>, it: P.It, after: P.It, r: u32, ok: bool) {
    0 < |rows| && Follows(b, rows, stale, it) && P.Hint(PlanFor(b, rows, stale), it, r) == (ok, after)
  }

  lemma {:induction false} NoHint(b: Bounds, rows: seq<u32>, stale: set<nat>, it: P.It, r: u32)
    requires 0 < |rows| && Follows(b, rows, stale, it)
    ensures !it.started ==> IsHint(b, rows, stale, it, it, r, true)
    ensures it.started && it.stopped ==> IsHint(b, rows, stale, it, it, r, false)
  {
  }

  /** A hint that has come to sub-block cur. */
  ghost predicate Reaches(b: Bounds, rows: seq<u32>, stale: set<nat>, it: P.It, r: u32, cur: nat) {
    && 0 < |rows| && Follows(b, rows, stale, it) && it.started && !it.stopped
    && var p := PlanFor(b, rows, stale);
       && it.cur <= cur < |p.marked| && p.marked[cur] && p.lo[0] < r <= p.hi[|p.hi| - 1]
       && P.Reaching(p, it.cur, r) == P.Reaching(p, cur, r)
  }

  lemma {:induction false} HintEnds(b: Bounds, rows: seq<u32>, stale: set<nat>, it: P.It, r: u32)
    requires 0 < |rows| && Follows(b, rows, stale, it) && it.started && !it.stopped
    ensures r <= BlockMin(rows, 0) ==> IsHint(b, rows, stale, it, it, r, true)
    ensures BlockMin(rows, 0) < r && BlockMax(rows, NumBlocks(rows) - 1) < r ==>
            IsHint(b, rows, stale, it, it.(stopped := true), r, false)
    ensures BlockMin(rows, 0) < r <= BlockMax(rows, NumBlocks(rows) - 1) ==> Reaches(b, rows, stale, it, r, it.cur)
  {
    hide NumBlocks, BlockMin, BlockMax, P.Reaching, P.FirstMarked;
  }

  /** At sub-block cur the hint either ends there, or goes on with the next marked one. */
  lemma {:induction false} HintMoves(b: Bounds, rows: seq<u32>, stale: set<nat>, it: P.It, r: u32, cur: nat)
    requires Reaches(b, rows, stale, it, r, cur)
    ensures r <= BlockMax(rows, cur) ==> IsHint(b, rows, stale, it,
            P.It(true, false, if cur != it.cur then false else it.rewind, cur), r, true)
    ensures BlockMax(rows, cur) < r ==>
              var next := Rewound(b, rows, stale, it.(cur := cur));
              cur < next.cur &&
              if next.stopped then IsHint(b, rows, stale, it, next, r, false) else
                  Reaches(b, rows, stale, it, r, next.cur)
  {
    hide NumBlocks, BlockMin, BlockMax;
  }

  /** The steps of a read after the first. */
  lemma {:induction false} NextSteps(b: Bounds, rows: seq<u32>, stale: set<nat>, it: P.It)
    requires 0 < |rows| && Follows(b, rows, stale, it) && it.started
    ensures it.stopped ==> IsNext(b, rows, stale, it, it, false, [])
    ensures !it.stopped && it.rewind ==>
              var next := Rewound(b, rows, stale, it);
              if next.stopped then IsNext(b, rows, stale, it, next, false, [])
              else next.cur < NumBlocks(rows) && IsNext(b, rows, stale, it, next, true, BlockAt(rows, next.cur))
    ensures !it.stopped && !it.rewind && it.cur < NumBlocks(rows) ==>
              IsNext(b, rows, stale, it, it.(rewind := true), true, BlockAt(rows, it.cur))
  {
    hide NumBlocks, BlockMin, BlockMax, BlockAt;
  }

  /** What is read at the start of a list. */
  function Tables(c: Codec, file: seq<u8>, off: nat): (seq<u32>, seq<u32>, nat) {
    var blocks := Unpack(file, off, U32_LIMIT);
    var minMax := ReadVec(file, blocks.next);
    var offsets := ReadVec(file, minMax.1);
    (c.decode(minMax.0, 2 * blocks.value), c.decode(offsets.0, blocks.value), offsets.1)
  }

  lemma {:induction false} StartTables(c: Codec, file: seq<u8>, kind: Packing, off: nat, minRowID: u32, maxRowID: u32,
                                       count: nat, rows: seq<u32>)
    requires Describes(c, file, kind, off, minRowID, maxRowID, count, rows) && kind.RowBlocksList?
    ensures kind == PackingOf(|rows|) && Nondecreasing(rows)
    ensures var (minMax, offsets, data) := Tables(c, file, off); TablesOf(c, off, rows, minMax, offsets, data)
  {
    var n := NumChunks(|rows|);
    assert 2 * n < 0x4000_0000 && |MinMaxOf(rows)| == 2 * n && |OffsetsOf(c, rows)| == n && c.Lawful();
    assert Stored(c, file, off, rows);
    StoredList(c, file, off, rows);
    hide *;
    PosSteps(c, off, rows);
    UnpackPack(file, off, n, U32_LIMIT);
    DecodeVecBack(c, file, MinMaxPos(off, rows), MinMaxOf(rows));
    DecodeVecBack(c, file, OffsetsPos(c, off, rows), OffsetsOf(c, rows));
    TablesBack(c, file, off, rows);
  }

  lemma {:induction false} TablesBack(c: Codec, file: seq<u8>, off: nat, rows: seq<u32>)
    requires PackingOf(|rows|).RowBlocksList?
    requires Unpack(file, off, U32_LIMIT) == Decoded(NumChunks(|rows|), MinMaxPos(off, rows))
    requires ReadVec(file, MinMaxPos(off, rows)).1 == OffsetsPos(c, off, rows)
    requires c.decode(ReadVec(file, MinMaxPos(off, rows)).0, |MinMaxOf(rows)|) == MinMaxOf(rows)
    requires ReadVec(file, OffsetsPos(c, off, rows)).1 == DataPos(c, off, rows)
    requires c.decode(ReadVec(file, OffsetsPos(c, off, rows)).0, |OffsetsOf(c, rows)|) == OffsetsOf(c, rows)
    ensures var (minMax, offsets, data) := Tables(c, file, off); TablesOf(c, off, rows, minMax, offsets, data)
  {
    assert |MinMaxOf(rows)| == 2 * NumChunks(|rows|) && |OffsetsOf(c, rows)| == NumChunks(|rows|);
    hide Unpack, ReadVec, MinMaxPos, OffsetsPos, DataPos, MinMaxOf, OffsetsOf, NumChunks;
  }

  lemma {:induction false} TablesSizes(c: Codec, off: nat, rows: seq<u32>, minMax: seq<u32>, offsets: seq<u32>,
                                       data: nat)
    requires TablesOf(c, off, rows, minMax, offsets, data)
    ensures minMax == MinMaxOf(rows) && |offsets| == NumBlocks(rows)
  {
  }

  lemma {:induction false} PosSteps(c: Codec, off: nat, rows: seq<u32>)
    ensures MinMaxPos(off, rows) == off + |Pack(NumChunks(|rows|))|
    ensures OffsetsPos(c, off, rows) == MinMaxPos(off, rows) + |Vec(c.encode(MinMaxOf(rows)))|
    ensures DataPos(c, off, rows) == OffsetsPos(c, off, rows) + |Vec(c.encode(OffsetsOf(c, rows)))|
  {
  }

  /** A row, or a single block, comes back whole. */
  lemma {:induction false} WholeBack(c: Codec, file: seq<u8>, kind: Packing, off: nat, minRowID: u32, maxRowID: u32,
                                     count: nat, rows: seq<u32>)
    requires Describes(c, file, kind, off, minRowID, maxRowID, count, rows) && !kind.RowBlocksList?
    ensures PackingOf(|rows|) == kind && Nondecreasing(rows)
    ensures if kind.Row? then rows == [minRowID] else c.decode(ReadVec(file, off).0, count) == rows && rows != []
  {
    if kind.RowBlock? {
      assert At(file, off, Vec(c.encode(rows)));
      hide At, Vec, Codec.Lawful, ReadVec;
      DecodeVecBack(c, file, off, rows);
    }
  }

  lemma {:induction false} NextWhole(b: Bounds, rows: seq<u32>, stale: set<nat>)
    requires 0 < |rows| && Nondecreasing(rows) && !PackingOf(|rows|).RowBlocksList?
    ensures IsNext(b, rows, stale, P.FRESH, P.It(true, true, true, 0), true, rows)
  {
    PlanWellformed(b, rows, stale);
    hide Nondecreasing;
  }

  /** The first read of a list. */
  lemma {:induction false} NextStarted(b: Bounds, rows: seq<u32>, stale: set<nat>, found: nat, cur: nat,
                                       block: seq<u32>)
    requires 0 < |rows| && Nondecreasing(rows) && PackingOf(|rows|).RowBlocksList?
    requires P.FirstMarked(PlanFor(b, rows, stale), 0) == if found == 0 then NumBlocks(rows) else cur
    requires found > 0 ==> cur < NumBlocks(rows) && block == BlockAt(rows, cur)
    ensures IsNext(b, rows, stale, P.FRESH, P.It(true, found == 0, true, if found == 0 then 0 else cur), found > 0,
            block)
  {
    PlanWellformed(b, rows, stale);
    assert PlanFor(b, rows, stale).list && |PlanFor(b, rows, stale).marked| == NumBlocks(rows);
    hide Nondecreasing, PlanFor, NumBlocks, BlockAt, P.Wellformed;
  }

  /** After marking, the iterator stands on the first marked sub-block of the plan, or there is none. */
  lemma {:induction false} MarkedStanding(b: Bounds, rows: seq<u32>, stale: set<nat>, ws: seq<Bits.Word>, found: nat,
                                          cur: nat)
    requires 0 < |rows| && Marked(b, rows, stale, ws, NumBlocks(rows), found, cur)
    ensures P.FirstMarked(PlanFor(b, rows, stale), 0) == if found == 0 then NumBlocks(rows) else cur
    ensures found > 0 ==> Standing(b, rows, stale, ws, NumBlocks(rows), cur) && PlanFor(b, rows, stale).marked[cur]
  {
    assert MarkBits(b, rows, stale, ws, NumBlocks(rows)) && MarkCount(b, rows, NumBlocks(rows), found, cur);
    hide Marked, MarkBits, MarkCount, BitsMark;
    CountedPlan(b, rows, stale, found, cur);
    MarkedBits(b, rows, stale, ws);
    if found > 0 {
      FirstOverlapHere(b, rows, found, cur);
    }
  }

  lemma {:induction false} FirstOverlapHere(b: Bounds, rows: seq<u32>, found: nat, cur: nat)
    requires 0 < |rows| && MarkCount(b, rows, NumBlocks(rows), found, cur) && found > 0
    ensures cur < NumBlocks(rows) && Overlaps(b, rows, cur) && AnyOverlapUpTo(b, rows, cur)
    ensures forall k :: 0 <= k < cur ==> !AnyOverlapUpTo(b, rows, k)
  {
    hide Overlaps, NumBlocks;
  }

  lemma {:induction false} CountedPlan(b: Bounds, rows: seq<u32>, stale: set<nat>, found: nat, cur: nat)
    requires 0 < |rows| && MarkCount(b, rows, NumBlocks(rows), found, cur)
    ensures P.FirstMarked(PlanFor(b, rows, stale), 0) == if found == 0 then NumBlocks(rows) else cur
    ensures found > 0 ==> cur < NumBlocks(rows) && PlanFor(b, rows, stale).marked[cur]
  {
    var p := PlanFor(b, rows, stale);
    var r := if found == 0 then NumBlocks(rows) else cur;
    forall k | 0 <= k < r && k < NumBlocks(rows) ensures !AnyOverlapUpTo(b, rows, k) && !Overlaps(b, rows, k) {
      hide Overlaps, NumBlocks;
    }
    hide AnyOverlapUpTo, Overlaps, NumBlocks, BlockMin, BlockMax;
    assert r <= NumBlocks(rows) && (r < NumBlocks(rows) ==> p.marked[r]);
    hide MarkCount;
    P.FirstMarkedIs(p, 0, r);
  }

  lemma {:induction false} MarkedBits(b: Bounds, rows: seq<u32>, stale: set<nat>, ws: seq<Bits.Word>)
    requires 0 < |rows| && MarkBits(b, rows, stale, ws, NumBlocks(rows))
    ensures BitsMark(b, rows, stale, ws)
  {
    if b.Unbounded? {
      assert forall k :: 0 <= k < NumBlocks(rows) ==> Overlaps(b, rows, k);
    }
    hide Overlaps, NumBlocks, HasBit, AnyOverlapUpTo;
  }

  /** Sub-block k is the first one that overlaps the bounds. */
  ghost predicate FirstOverlap(b: Bounds, rows: seq<u32>, k: nat)
    requires 0 < |rows|
  {
    k < NumBlocks(rows) && Overlaps(b, rows, k) && forall j :: 0 <= j < k ==> !Overlaps(b, rows, j)
  }

  /** The first i sub-blocks have been marked on top of the marks that were kept. */
  ghost predicate MarkBits(b: Bounds, rows: seq<u32>, stale: set<nat>, ws: seq<Bits.Word>, i: nat)
    requires 0 < |rows|
  {
    && NumBlocks(rows) <= 64 * |ws|
    && forall k :: 0 <= k < NumBlocks(rows) ==> (HasBit(ws, k) <==>
            b.Unbounded? || k in stale || (k < i && Overlaps(b, rows, k)))
  }

  /** found of the first i sub-blocks overlap the bounds, the first of them being sub-block first. */
  ghost predicate MarkCount(b: Bounds, rows: seq<u32>, i: nat, found: nat, first: nat)
    requires 0 < |rows|
  {
    && i <= NumBlocks(rows)
    && (found == 0 ==> forall k :: 0 <= k < i ==> !Overlaps(b, rows, k))
    && (found > 0 ==> FirstOverlap(b, rows, first))
  }

  ghost predicate Marked(b: Bounds, rows: seq<u32>, stale: set<nat>, ws: seq<Bits.Word>, i: nat, found: nat,
                         first: nat) {
    0 < |rows| && MarkBits(b, rows, stale, ws, i) && MarkCount(b, rows, i, found, first)
  }

  lemma {:induction false} EverythingMarked(b: Bounds, rows: seq<u32>, stale: set<nat>, ws: seq<Bits.Word>)
    requires b.Unbounded? && 0 < |rows| && NumBlocks(rows) <= 64 * |ws|
    requires forall k :: 0 <= k < 64 * |ws| ==> HasBit(ws, k)
    ensures Marked(b, rows, stale, ws, NumBlocks(rows), NumBlocks(rows), 0) && NumBlocks(rows) > 0
  {
    hide HasBit;
  }

  lemma {:induction false} KeptBits(before: seq<Bits.Word>, after: seq<Bits.Word>, b: Bounds, rows: seq<u32>,
                                    stale: set<nat>, cur: nat)
    requires b.Range? && 0 < |rows| && stale == StaleMarks(before, rows)
    requires var n := (NumBlocks(rows) + 63) / 64;
             if n > |before| then |after| == n && forall i :: 0 <= i < |after| ==> after[i] == 0 else after == before
    ensures Marked(b, rows, stale, after, 0, 0, cur)
  {
    hide Bits.Bit, Overlaps;
    var n := NumBlocks(rows);
    hide NumBlocks;
    if (n + 63) / 64 > |before| {
      forall k | 0 <= k < n ensures !HasBit(after, k) {
        Bits.ConstantBits(k % 64);
      }
    }
  }

  lemma {:induction false} MinMaxAt(rows: seq<u32>, i: nat)
    requires 0 < |rows| && PackingOf(|rows|).RowBlocksList? && i < NumBlocks(rows)
    ensures |MinMaxOf(rows)| == 2 * NumBlocks(rows)
    ensures MinMaxOf(rows)[2 * i] == BlockMin(rows, i) && MinMaxOf(rows)[2 * i + 1] == BlockMax(rows, i)
  {
  }

  lemma {:induction false} MarkOne(b: Bounds, rows: seq<u32>, stale: set<nat>, ws: seq<Bits.Word>, vs: seq<Bits.Word>,
                                   i: nat,
                overlaps: bool, found: nat, was: nat, first: nat)
    requires b.Range? && 0 < |rows| && i < NumBlocks(rows) && PackingOf(|rows|).RowBlocksList? && |vs| == |ws|
    requires overlaps <==> b.min <= BlockMax(rows, i) && BlockMin(rows, i) <= b.max
    requires overlaps ==> found > 0 && first == if found == 1 then i else was
    requires !overlaps ==> first == was
    requires Marked(b, rows, stale, ws, i, if overlaps then found - 1 else found, was)
    requires if overlaps then forall k :: 0 <= k < 64 * |ws| ==>
            (HasBit(vs, k) <==> k == i || HasBit(ws, k)) else vs == ws
    ensures Marked(b, rows, stale, vs, i + 1, found, first)
  {
    assert overlaps <==> Overlaps(b, rows, i);
    hide Overlaps, MarkBits, MarkCount, NumBlocks, BlockMin, BlockMax, HasBit;
    MarkOneBit(b, rows, stale, ws, vs, i);
    MarkOneCount(b, rows, i, overlaps, found, was, first);
  }

  lemma {:induction false} MarkOneBit(b: Bounds, rows: seq<u32>, stale: set<nat>, ws: seq<Bits.Word>,
                                      vs: seq<Bits.Word>, i: nat)
    requires b.Range? && 0 < |rows| && i < NumBlocks(rows) && |vs| == |ws|
    requires MarkBits(b, rows, stale, ws, i)
    requires if Overlaps(b, rows, i) then forall k :: 0 <= k < 64 * |ws| ==>
            (HasBit(vs, k) <==> k == i || HasBit(ws, k)) else vs == ws
    ensures MarkBits(b, rows, stale, vs, i + 1)
  {
    hide HasBit, Overlaps, NumBlocks;
  }

  lemma {:induction false} MarkOneCount(b: Bounds, rows: seq<u32>, i: nat, overlaps: bool, found: nat, was: nat,
                                        first: nat)
    requires b.Range? && 0 < |rows| && i < NumBlocks(rows) && (overlaps <==> Overlaps(b, rows, i))
    requires overlaps ==> found > 0 && first == if found == 1 then i else was
    requires !overlaps ==> first == was
    requires MarkCount(b, rows, i, if overlaps then found - 1 else found, was)
    ensures MarkCount(b, rows, i + 1, found, first)
  {
    hide Overlaps, NumBlocks;
  }

  /** The state after moving to the next marked sub-block. */
  ghost function Rewound(b: Bounds, rows: seq<u32>, stale: set<nat>, it: P.It): P.It
    requires 0 < |rows|
  {
    var n := NumBlocks(rows);
    if it.cur >= n then it
    else
      var k := P.FirstMarked(PlanFor(b, rows, stale), it.cur + 1);
      if k < n then it.(cur := k) else it.(cur := n, stopped := true)
  }

  lemma {:induction false} ScanRewinds(b: Bounds, rows: seq<u32>, stale: set<nat>, ws: seq<Bits.Word>, size: nat,
                                       it: P.It, r: nat)
    requires 0 < |rows| && Follows(b, rows, stale, it) && it.started && !it.stopped
    requires Standing(b, rows, stale, ws, size, it.cur)
    requires it.cur + 1 <= r && (it.cur + 1 >= size ==> r == it.cur + 1)
    requires it.cur + 1 < size ==> (r < NumBlocks(rows) ==> HasBit(ws, r))
    requires forall i :: it.cur + 1 <= i < r && i < NumBlocks(rows) ==> !HasBit(ws, i)
    ensures var n := NumBlocks(rows);
            Rewound(b, rows, stale, it) == (if r < n then it.(cur := r) else it.(cur := n, stopped := true)) &&
            Follows(b, rows, stale, Rewound(b, rows, stale, it)) &&
            (r < n ==> Standing(b, rows, stale, ws, size, r))
  {
    if it.cur + 1 < size {
      ScanFindsMark(b, rows, stale, ws, it.cur + 1, r);
    }
  }

  // ---------------------------------------------------------------- whole runs

  /** The rowids of the given sub-blocks, in that order. */
  ghost function Flatten(rows: seq<u32>, ks: seq<nat>): seq<u32>
    requires 0 < |rows| && forall i :: 0 <= i < |ks| ==> ks[i] < NumBlocks(rows)
  {
    if ks == [] then [] else Flatten(rows, ks[..|ks| - 1]) + BlockAt(rows, ks[|ks| - 1])
  }

  lemma {:induction false} FlattenIndices(rows: seq<u32>, n: nat)
    requires 0 < |rows| && n <= NumBlocks(rows)
    ensures Flatten(rows, P.Indices(n)) == if PackingOf(|rows|).RowBlocksList? then Concat(rows, n) else if n == 0 then
            [] else rows
  {
    if n > 0 {
      FlattenIndices(rows, n - 1);
      assert P.Indices(n)[..n - 1] == P.Indices(n - 1) && P.Indices(n)[n - 1] == n - 1;
      hide P.Indices, Chunk;
    }
  }

  /**
    Without bounds, reading until the end returns the whole list, whatever marks an earlier list has left
    behind and whichever way the list is stored.
   */
  lemma {:induction false} ReadingGivesList(rows: seq<u32>, stale: set<nat>)
    requires 0 < |rows| && Nondecreasing(rows)
    ensures var p, n := PlanFor(Unbounded, rows, stale), NumBlocks(rows);
            && P.Wellformed(p)
            && P.Returned(p, P.Reads(n)) == P.Indices(n)
            && Flatten(rows, P.Indices(n)) == rows
            && P.Next(p, P.After(p, P.Reads(n))).0 == P.None
  {
    var p, n := PlanFor(Unbounded, rows, stale), NumBlocks(rows);
    PlanWellformed(Unbounded, rows, stale);
    assert forall k :: 0 <= k < n ==> p.marked[k];
    FlattenIndices(rows, n);
    ConcatPrefix(rows, NumChunks(|rows|));
    hide PlanFor, P.Wellformed, Nondecreasing, NumChunks, Concat, P.Indices, P.Reads, P.Next, P.After, P.Returned;
    P.ReadingAll(p, n);
  }

  /**
    Any interleaving of ascending hints with reads: once a read has come to the end, or a hint was refused,
    every rowid that is not below the latest hint and lies in a sub-block overlapping the bounds has been
    returned.
   */
  lemma {:induction false} NoRowidLost(b: Bounds, rows: seq<u32>, stale: set<nat>, ops: seq<P.Op>, i: nat, k: nat,
                                       x: u32)
    requires 0 < |rows| && Nondecreasing(rows) && P.HintsAscend(ops) && i < |ops|
    requires k < NumBlocks(rows) && Overlaps(b, rows, k) && x in BlockAt(rows, k) && P.LatestHint(ops[..i + 1]) <= x
    requires P.Wellformed(PlanFor(b, rows, stale))
    requires P.OutcomeAt(PlanFor(b, rows, stale), ops, i).End? ||
             P.OutcomeAt(PlanFor(b, rows, stale), ops, i) == P.Hinted(false)
    ensures k in P.Returned(PlanFor(b, rows, stale), ops[..i + 1])
  {
    var p := PlanFor(b, rows, stale);
    assert p.marked[k] && p.hi[k] == BlockMax(rows, k);
    LastIsLargest(rows, k, x);
    hide PlanFor, NumBlocks, BlockAt, BlockMax, Overlaps, Nondecreasing;
    P.ProtocolSafe(p, ops, i, k);
  }

  /**
    Hints skip sub-blocks: one that is returned after the first read and a hint ends at the rowid hinted or
    behind it.
   */
  lemma {:induction false} HintedBlocksReach(b: Bounds, rows: seq<u32>, stale: set<nat>, ops: seq<P.Op>, i: nat, j: nat)
    requires 0 < |rows| && P.Wellformed(PlanFor(b, rows, stale)) && i < j < |ops| && ops[i].HintOp?
    requires P.After(PlanFor(b, rows, stale), ops[..i]).started
    requires P.OutcomeAt(PlanFor(b, rows, stale), ops, j).Block?
    ensures P.OutcomeAt(PlanFor(b, rows, stale), ops, i) == P.Hinted(true)
    ensures var k := P.OutcomeAt(PlanFor(b, rows, stale), ops, j).k;
            k < NumBlocks(rows) && exists x :: x in BlockAt(rows, k) && ops[i].rowid <= x
  {
    var p := PlanFor(b, rows, stale);
    P.HintsObeyed(p, ops, i, j);
    var k := P.OutcomeAt(p, ops, j).k;
    assert p.hi[k] == BlockMax(rows, k);
    var c := BlockAt(rows, k);
    assert c[|c| - 1] in c;
  }

  lemma {:induction false} LastIsLargest(rows: seq<u32>, k: nat, x: u32)
    requires 0 < |rows| && Nondecreasing(rows) && k < NumBlocks(rows) && x in BlockAt(rows, k)
    ensures x <= BlockMax(rows, k)
  {
    var c := BlockAt(rows, k);
    if PackingOf(|rows|).RowBlocksList? {
      var j :| 0 <= j < |c| && c[j] == x;
      assert c[j] == rows[1024 * k + j] && c[|c| - 1] == rows[1024 * k + |c| - 1];
    }
  }

  /** Rowids come in nondecreasing order over a whole run: a later sub-block never goes back. */
  lemma {:induction false} RowidsAscend(b: Bounds, rows: seq<u32>, stale: set<nat>, ops: seq<P.Op>, i: nat, j: nat,
                                        x: u32, y: u32)
    requires 0 < |rows| && Nondecreasing(rows) && P.Wellformed(PlanFor(b, rows, stale))
    requires i < j < |P.Returned(PlanFor(b, rows, stale), ops)|
    requires P.Returned(PlanFor(b, rows, stale), ops)[i] < NumBlocks(rows) &&
             P.Returned(PlanFor(b, rows, stale), ops)[j] < NumBlocks(rows)
    requires x in BlockAt(rows, P.Returned(PlanFor(b, rows, stale), ops)[i])
    requires y in BlockAt(rows, P.Returned(PlanFor(b, rows, stale), ops)[j])
    ensures x <= y
  {
    var ks := P.Returned(PlanFor(b, rows, stale), ops);
    P.ReturnedAscends(PlanFor(b, rows, stale), ops);
    assert ks[i] < ks[j] < NumBlocks(rows);
    var cx, cy := BlockAt(rows, ks[i]), BlockAt(rows, ks[j]);
    hide P.Returned, PlanFor, P.Wellformed;
    if PackingOf(|rows|).RowBlocksList? {
      var l :| 0 <= l < |cx| && cx[l] == x;
      var m :| 0 <= m < |cy| && cy[m] == y;
      assert cx[l] == rows[1024 * ks[i] + l] && cy[m] == rows[1024 * ks[j] + m];
    }
  }
}
