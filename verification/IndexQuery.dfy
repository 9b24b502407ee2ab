/**
  Queries on the secondary index from end to end (secondary/secondary.cpp, GetRangeRows and GetValsRows;
  secondary/blockreader.cpp, RangeReaderBase_T and BlockReader_T): the places found are turned into rowid
  iterators over the file, and those are collected in a bitmap.
 */
module IndexQuery {
  import opened ByteCodec
  import opened Orders
  import opened Filters
  import opened RowLists
  import opened RowGroups
  import opened RowidIterator
  import opened IndexBuilder
  import opened IndexRoundTrip
  import opened IndexBlocks
  import opened RangeScan
  import opened IndexSearch
  import opened BitVector
  import opened BitmapIterator
  import V = ValueLookup
  import W = RowWriter

  // ---------------------------------------------------------------- what a build leaves

  /** The blocks a writer has written are stored where it recorded them. */
  lemma {:induction false} WrittenIsStored(c: Codec, prior: seq<u8>, written: seq<seq<Group>>, dst: seq<u8>,
                                           blocksOff: seq<nat>, pgm: seq<u64>)
    requires c.Lawful() && W.Flushed(c, prior, written, dst, blocksOff, pgm)
    ensures StoredBlocks(c, dst, blocksOff, written)
  {
    hide Codec.Lawful, FileBytes, BlockBytes, BlockOffsets, AllValues;
    AtEnd(prior, FileBytes(c, written));
    if written != [] {
      BlockOffsetAt(c, |prior|, written, 0);
    } else {
      NoOffsets(c, |prior|);
    }
    hide At;
    forall k | 0 <= k < |written| ensures At(dst, blocksOff[k], BlockBytes(c, written[k])) {
      BlockOffsetAt(c, |prior|, written, k);
      AtBlock(c, dst, |prior|, written, k);
    }
  }

  lemma {:induction false} NoOffsets(c: Codec, base: nat)
    ensures BlockOffsets(c, base, []) == []
  {
  }

  lemma {:induction false} AtEnd(a: seq<u8>, b: seq<u8>)
    ensures At(a + b, |a|, b)
  {
  }

  /** An index in a file, built from pairs whose rowids are below size, that 32-bit offsets and counters can handle. */
  ghost predicate Queryable(codec: Codec, file: seq<u8>, offsets: seq<nat>, t: ColumnType, totalValues: nat,
                            blocks: seq<seq<Group>>,
                            total: multiset<Entry>, size: nat)
  {
    && GoodIndex(codec, file, offsets, t, totalValues, blocks) && Indexed(t.Int64?, blocks, total)
    && FullBlocks(AllVals(t, blocks)) && (blocks != [] ==> |AllVals(t, blocks)[|blocks| - 1]| <= 128)
    && (forall k :: 0 <= k < |blocks| ==> |PackedRows(codec, blocks[k])| < 0x1_0000_0000)
    && |total| < 0x8000_0000 && forall e: Entry :: e in total ==> e.rowid < size
  }

  /** What Process leaves is such an index, when the lists of every block take less than 32-bit offsets address. */
  lemma {:induction false} BuiltIsQueryable(w: W.RowWriter, t: ColumnType, total: multiset<Entry>, size: nat)
    requires w.Valid() && w.signed == t.Int64? && Indexed(w.signed, w.written, total) && |total| < 0x8000_0000
    requires forall e: Entry :: e in total ==> IsValue(t, e.value) && e.rowid < size
    requires forall k :: 0 <= k < |w.written| ==> |PackedRows(w.codec, w.written[k])| < 0x1_0000_0000
    ensures Queryable(w.codec, w.dst, w.blocksOff, t, |AllGroups(w.written)|, w.written, total, size)
  {
    hide Codec.Lawful, W.Pending, W.Flushed, W.Totals, Indexed, PackedRows, AllGroups, StoredBlocks, AllVals, GoodIndex,
         FullBlocks;
    WrittenIsStored(w.codec, w.prior, w.written, w.dst, w.blocksOff, w.pgmValues);
    BuiltIndexIsGood(w.codec, w.dst, w.blocksOff, t, w.written, total);
  }

  // ---------------------------------------------------------------- one item

  /** What has been loaded of a block describes the rowids of an item. */
  ghost predicate Loads(codec: Codec, file: seq<u8>, data: Loaded, item: nat, rows: seq<u32>) {
    && item < |data.types| == |data.starts| == |data.mins| == |data.maxs| == |data.counts|
    && Describes(codec, file, PackingFrom(data.types[item]), data.meta + data.starts[item], data.mins[item],
                      data.maxs[item], data.counts[item], rows)
  }

  lemma {:induction false} ItemLoads(codec: Codec, file: seq<u8>, offsets: seq<nat>, t: ColumnType, totalValues: nat,
                                     blocks: seq<seq<Group>>,
                                     total: multiset<Entry>, size: nat, k: nat, i: nat)
    requires Queryable(codec, file, offsets, t, totalValues, blocks, total, size) && At2(blocks, k, i)
    ensures k < |offsets| == |blocks|
    ensures Loads(codec, file, LoadBlock(codec, file, offsets[k], CalcNumBlockValues(|offsets|, totalValues, k)), i,
            blocks[k][i].rows)
    ensures forall x :: x in blocks[k][i].rows ==> x < size
  {
    hide At, BlockBytes, AscendingBlocks, InType, Codec.Lawful, Indexed, PackedRows, AllVals, FullBlocks, LoadBlock,
         Describes, Nondecreasing, W.View;
    assert At(file, offsets[k], BlockBytes(codec, blocks[k])) && |PackedRows(codec, blocks[k])| < 0x1_0000_0000;
    BlockValuesCount(blocks, k);
    ItemSound(t.Int64?, blocks, total, k, i);
    EntryDescribes(codec, file, offsets[k], blocks[k], i);
    forall x | x in blocks[k][i].rows ensures x < size {
      var e := Entry(W.View(t.Int64?, blocks[k][i].value), x);
      PairsStored(t.Int64?, blocks, total, e);
    }
  }

  /** An iterator that can be set up again without touching the bitmap. */
  ghost predicate Reusable(it: RowidIterator, bitmap: BitmapIterator, file: seq<u8>, codec: Codec)
    reads it, it.matching, bitmap.flat
  {
    && it.file == file && it.codec == codec && it.bounds == bitmap.bounds && it.matching.Valid()
    && it.matching != bitmap.flat && it.matching.data != bitmap.flat.data &&
        (it.matching.data as object) != (bitmap.dRows as object)
  }

  /** A list whose extremes do not overlap the bounds has no rowid inside. */
  lemma {:induction false} OutsideBounds(ws: seq<Bits.Word>, rows: seq<u32>, b: Bounds)
    requires rows != [] && Nondecreasing(rows) && b.Range? && (rows[|rows| - 1] < b.min || b.max < rows[0])
    ensures RowsAdded(ws, ws, rows, b)
  {
    hide HasBit;
    forall x | x in rows ensures !InBounds(b, x) {
      var i :| 0 <= i < |rows| && rows[i] == x;
      assert rows[0] <= rows[i] <= rows[|rows| - 1];
    }
  }

  /**
    AddIterator with a bitmap: the first item makes an iterator, the others set it up again; an item whose
    extremes do not overlap the bounds is passed over.
   */
  method AddIterator(file: seq<u8>, codec: Codec, bitmap: BitmapIterator, common: RowidIterator?, data: Loaded,
                     item: nat, ghost rows: seq<u32>)
    returns (it: RowidIterator?)
    requires bitmap.Valid() && bitmap.rowsLeft >= 0 && Loads(codec, file, data, item, rows)
    requires forall x :: x in rows ==> x < bitmap.size
    requires common != null ==> Reusable(common, bitmap, file, codec)
    modifies bitmap.flat.data, bitmap.pieces, bitmap`rowsLeft
    modifies if common != null then {common as object, common.matching, common.matching.data} else {}
    ensures bitmap.Valid() && bitmap.rowsLeft >= 0 && bitmap.rowsLeft >= old(bitmap.rowsLeft) - |rows| &&
            |bitmap.Words()| == |old(bitmap.Words())|
    ensures old(|rows| <= bitmap.rowsLeft) ==> RowsAdded(old(bitmap.Words()), bitmap.Words(), rows, bitmap.bounds)
    ensures it != null ==> Reusable(it, bitmap, file, codec)
    ensures it != null && it != common ==> fresh(it) && fresh(it.matching) && fresh(it.matching.data)
    ensures it != null && it == common ==> it.matching.data == old(it.matching.data) || fresh(it.matching.data)
  {
    hide *;
    ghost var before := bitmap.Words();
    LoadedItem(codec, file, data, item, rows);
    var kind, offset := PackingFrom(data.types[item]), data.meta + data.starts[item];
    var minRowID, maxRowID, count := data.mins[item], data.maxs[item], data.counts[item];
    if bitmap.bounds.Range? && !Overlap(bitmap.bounds.min, bitmap.bounds.max, minRowID, maxRowID) {
      NoOverlap(bitmap.bounds.min, bitmap.bounds.max, minRowID, maxRowID);
      OutsideBounds(before, rows, bitmap.bounds);
      return common;
    }
    ReusableFacts(common, bitmap, file, codec);
    if common == null {
      it := new RowidIterator(file, codec, bitmap.bounds, kind, offset, minRowID, maxRowID, count, rows);
    } else {
      it := common;
      it.Setup(kind, offset, minRowID, maxRowID, count, rows);
    }
    assert forall i :: 0 <= i < |it.rows| ==> it.rows[i] in rows;
    bitmap.Add(it);
    it.Facts();
    IsReusable(it, bitmap, file, codec);
  }

  lemma {:induction false} LoadedItem(codec: Codec, file: seq<u8>, data: Loaded, item: nat, rows: seq<u32>)
    requires Loads(codec, file, data, item, rows)
    ensures item < |data.types| == |data.starts| == |data.mins| == |data.maxs| == |data.counts|
    ensures Describes(codec, file, PackingFrom(data.types[item]), data.meta + data.starts[item], data.mins[item],
                      data.maxs[item], data.counts[item], rows)
    ensures rows != [] && Nondecreasing(rows) && data.mins[item] == rows[0] && data.maxs[item] == rows[|rows| - 1]
  {
    hide Codec.Lawful, Stored, Nondecreasing;
  }

  lemma {:induction false} NoOverlap(a: int, b: int, c: int, d: int)
    ensures Overlap(a, b, c, d) <==> a <= d && c <= b
  {
  }

  lemma {:induction false} ReusableFacts(it: RowidIterator?, bitmap: BitmapIterator, file: seq<u8>, codec: Codec)
    requires it != null ==> Reusable(it, bitmap, file, codec)
    ensures it != null ==> it.file == file && it.codec == codec && it.bounds == bitmap.bounds && it.matching.Valid()
    ensures it != null ==>
            it.matching != bitmap.flat && it.matching.data != bitmap.flat.data &&
            (it.matching.data as object) != (bitmap.dRows as object)
  {
  }

  lemma {:induction false} IsReusable(it: RowidIterator, bitmap: BitmapIterator, file: seq<u8>, codec: Codec)
    requires it.file == file && it.codec == codec && it.bounds == bitmap.bounds && it.matching.Valid()
    requires it.matching != bitmap.flat && it.matching.data != bitmap.flat.data &&
             (it.matching.data as object) != (bitmap.dRows as object)
    ensures Reusable(it, bitmap, file, codec)
  {
  }

  // ---------------------------------------------------------------- many items

  /** The bits of now are those of before and what is inside the bounds of the lists. */
  ghost predicate Union(before: seq<Bits.Word>, now: seq<Bits.Word>, lists: seq<seq<u32>>, b: Bounds) {
    && |now| == |before|
    && forall p :: 0 <= p < 64 * |before| ==> (HasBit(now, p) <==>
            HasBit(before, p) || (InBounds(b, p) && exists i :: 0 <= i < |lists| && p in lists[i]))
  }

  lemma {:induction false} NoLists(ws: seq<Bits.Word>, b: Bounds)
    ensures Union(ws, ws, [], b)
  {
  }

  lemma {:induction false} OneListMore(before: seq<Bits.Word>, was: seq<Bits.Word>, now: seq<Bits.Word>,
                                       lists: seq<seq<u32>>, rows: seq<u32>, b: Bounds)
    requires Union(before, was, lists, b) && RowsAdded(was, now, rows, b)
    ensures Union(before, now, lists + [rows], b)
  {
    hide HasBit, InBounds;
    var more := lists + [rows];
    forall p | 0 <= p < 64 * |before|
      ensures HasBit(now, p) <==> HasBit(before, p) || (InBounds(b, p) && exists i :: 0 <= i < |more| && p in more[i])
    {
      if i :| 0 <= i < |lists| && p in lists[i] {
        assert more[i] == lists[i];
      }
      if p in rows {
        assert more[|lists|] == rows;
      }
      if i :| 0 <= i < |more| && p in more[i] {
        assert i < |lists| ==> lists[i] == more[i];
      }
      assert HasBit(was, p) <==> HasBit(before, p) || (InBounds(b, p) && exists i :: 0 <= i < |lists| && p in lists[i]);
    }
  }

  function Sum(lists: seq<seq<u32>>): nat {
    if lists == [] then 0 else Sum(lists[..|lists| - 1]) + |lists[|lists| - 1]|
  }

  lemma {:induction false} SumFront(lists: seq<seq<u32>>, n: nat)
    requires n <= |lists|
    ensures Sum(lists[..n]) <= Sum(lists)
    decreases |lists|
  {
    if n < |lists| {
      SumFront(lists[..|lists| - 1], n);
      assert lists[..|lists| - 1][..n] == lists[..n];
    } else {
      assert lists[..n] == lists;
    }
  }

  ghost predicate InIndex(blocks: seq<seq<Group>>, hits: seq<Hit>) {
    forall j :: 0 <= j < |hits| ==> IsItem(blocks, hits[j])
  }

  predicate IsItem(blocks: seq<seq<Group>>, h: Hit) {
    At2(blocks, h.block, h.item)
  }

  function ItemRows(blocks: seq<seq<Group>>, h: Hit): seq<u32>
    requires IsItem(blocks, h)
  {
    blocks[h.block][h.item].rows
  }

  /** The rowids of the items reported. */
  ghost function Lists(blocks: seq<seq<Group>>, hits: seq<Hit>): (r: seq<seq<u32>>)
    requires InIndex(blocks, hits)
    ensures |r| == |hits| && forall j :: 0 <= j < |hits| ==> r[j] == ItemRows(blocks, hits[j])
  {
    seq(|hits|, j requires 0 <= j < |hits| => ItemRows(blocks, hits[j]))
  }

  /**
    The row data at hand when an item is reported is that of its block: it is loaded then, or was loaded for
    the item before.
   */
  ghost predicate LoadsInTime(hits: seq<Hit>) {
    forall j :: 0 <= j < |hits| ==> LoadsAt(hits, j)
  }

  predicate LoadsAt(hits: seq<Hit>, j: nat)
    requires j < |hits|
  {
    hits[j].load || (j > 0 && hits[j - 1].block == hits[j].block)
  }

  lemma {:induction false} HitsFromLoads(f: Filter, t: ColumnType, vals: seq<seq<int>>, k: nat, i: nat, load: bool)
    requires k < |vals|
    ensures var s := HitsFrom(f, t, vals, k, i, load);
            (forall j :: 0 <= j < |s| ==> s[j].block == k) && (s != [] ==> s[0].load == load)
    decreases |vals[k]| - i
  {
    hide EvalRange;
    if i < |vals[k]| {
      HitsFromLoads(f, t, vals, k, i + 1, false);
      HitsFromLoads(f, t, vals, k, i + 1, load);
    }
  }

  lemma {:induction false} HitsLoadInTime(f: Filter, t: ColumnType, vals: seq<seq<int>>, k: nat, last: nat)
    requires last < |vals|
    ensures LoadsInTime(Hits(f, t, vals, k, last))
    decreases last + 1 - k
  {
    if k <= last {
      HitsFromLoads(f, t, vals, k, 0, true);
      HitsLoadInTime(f, t, vals, k + 1, last);
      hide HitsFrom, Hits;
      var a, b := HitsFrom(f, t, vals, k, 0, true), Hits(f, t, vals, k + 1, last);
      assert Hits(f, t, vals, k, last) == a + b by {
        HitsStep(f, t, vals, k, last);
      }
      JoinLoads(a, b);
    }
  }

  lemma {:induction false} HitsStep(f: Filter, t: ColumnType, vals: seq<seq<int>>, k: nat, last: nat)
    requires k <= last < |vals|
    ensures Hits(f, t, vals, k, last) == HitsFrom(f, t, vals, k, 0, true) + Hits(f, t, vals, k + 1, last)
  {
    hide HitsFrom;
  }

  lemma {:induction false} JoinLoads(a: seq<Hit>, b: seq<Hit>)
    requires (forall j :: 0 <= j < |a| ==> a[j].block == a[0].block) && (a != [] ==> a[0].load) && LoadsInTime(b)
    ensures LoadsInTime(a + b)
  {
    var s := a + b;
    forall j | 0 <= j < |s| ensures LoadsAt(s, j) {
      if j >= |a| {
        assert s[j] == b[j - |a|];
        var i := j - |a|;
        assert LoadsAt(b, i);
        assert i > 0 ==> s[j - 1] == b[i - 1];
      }
    }
  }

  /** The callback of the range scan, for all items reported: row data is loaded where the scan says so. */
  method CollectHits(file: seq<u8>, codec: Codec, offsets: seq<nat>, totalValues: nat, bitmap: BitmapIterator,
                     hits: seq<Hit>,
                     ghost t: ColumnType, ghost blocks: seq<seq<Group>>, ghost total: multiset<Entry>)
    requires bitmap.Valid() && Queryable(codec, file, offsets, t, totalValues, blocks, total, bitmap.size)
    requires InIndex(blocks, hits) && LoadsInTime(hits) && Sum(Lists(blocks, hits)) <= bitmap.rowsLeft
    modifies bitmap.flat.data, bitmap.pieces, bitmap`rowsLeft
    ensures bitmap.Valid() && Union(old(bitmap.Words()), bitmap.Words(), Lists(blocks, hits), bitmap.bounds)
  {
    hide *;
    ghost var before, lists := bitmap.Words(), Lists(blocks, hits);
    var common: RowidIterator? := null;
    var data := Loaded([], [], [], [], [], [], 0);
    var j := 0;
    NoLists(before, bitmap.bounds);
    NothingSummed(lists);
    while j < |hits|
      invariant 0 <= j <= |hits| && bitmap.Valid() && bitmap.rowsLeft >= 0
      invariant Union(before, bitmap.Words(), lists[..j], bitmap.bounds)
      invariant Sum(lists) - Sum(lists[..j]) <= bitmap.rowsLeft
      invariant common != null ==> Reusable(common, bitmap, file, codec)
      invariant common != null ==> fresh(common) && fresh(common.matching) && fresh(common.matching.data)
      invariant j > 0 ==> hits[j - 1].block < |offsets|
      invariant j > 0 ==> data == LoadBlock(codec, file, offsets[hits[j - 1].block],
                CalcNumBlockValues(|offsets|, totalValues, hits[j - 1].block))
    {
      ghost var was := bitmap.Words();
      HitAt(blocks, hits, j);
      var h := hits[j];
      ItemLoads(codec, file, offsets, t, totalValues, blocks, total, bitmap.size, h.block, h.item);
      if h.load {
        data := LoadBlock(codec, file, offsets[h.block], CalcNumBlockValues(|offsets|, totalValues, h.block));
      }
      SumStep(lists, j);
      common := AddIterator(file, codec, bitmap, common, data, h.item, lists[j]);
      OneListMore(before, was, bitmap.Words(), lists[..j], lists[j], bitmap.bounds);
      assert lists[..j] + [lists[j]] == lists[..j + 1];
      j := j + 1;
    }
    assert lists[..j] == lists;
  }

  lemma {:induction false} HitAt(blocks: seq<seq<Group>>, hits: seq<Hit>, j: nat)
    requires InIndex(blocks, hits) && LoadsInTime(hits) && j < |hits|
    ensures At2(blocks, hits[j].block, hits[j].item) && hits[j].block < |blocks| &&
            hits[j].item < |blocks[hits[j].block]|
    ensures Lists(blocks, hits)[j] == blocks[hits[j].block][hits[j].item].rows
    ensures hits[j].load || (j > 0 && hits[j - 1].block == hits[j].block)
  {
    assert IsItem(blocks, hits[j]) && LoadsAt(hits, j);
  }

  lemma {:induction false} NothingSummed(lists: seq<seq<u32>>)
    ensures lists[..0] == [] && Sum(lists[..0]) == 0
  {
  }

  lemma {:induction false} SumStep(lists: seq<seq<u32>>, j: nat)
    requires j < |lists|
    ensures Sum(lists[..j + 1]) == Sum(lists[..j]) + |lists[j]| <= Sum(lists)
  {
    assert lists[..j + 1][..j] == lists[..j];
    SumFront(lists, j + 1);
  }

  // ---------------------------------------------------------------- no more rows than pairs

  function RowCount(gs: seq<Group>): nat {
    if gs == [] then 0 else RowCount(gs[..|gs| - 1]) + |gs[|gs| - 1].rows|
  }

  lemma {:induction false} CountsPairs(signed: bool, gs: seq<Group>)
    ensures RowCount(gs) == |Entries(signed, gs)|
  {
    hide W.View;
    if gs != [] {
      CountsPairs(signed, gs[..|gs| - 1]);
    }
  }

  lemma {:induction false} CountGrows(gs: seq<Group>, m: nat, n: nat)
    requires m <= n <= |gs|
    ensures RowCount(gs[..m]) <= RowCount(gs[..n])
    decreases n
  {
    if m < n {
      CountGrows(gs, m, n - 1);
      assert gs[..n][..n - 1] == gs[..n - 1];
    }
  }

  lemma {:induction false} CountStep(gs: seq<Group>, n: nat)
    requires n < |gs|
    ensures RowCount(gs[..n + 1]) == RowCount(gs[..n]) + |gs[n].rows|
  {
    assert gs[..n + 1][..n] == gs[..n];
  }

  ghost predicate PlacedBelow(blocks: seq<seq<Group>>, hits: seq<Hit>, m: nat) {
    forall j :: 0 <= j < |hits| ==>
      IsItem(blocks, hits[j]) && hits[j].block < |blocks| && Place(blocks, hits[j].block, hits[j].item) < m
  }

  /** Items reported in order have at most the rowids in front of a place that is behind all of them. */
  lemma {:induction false} SumUpTo(blocks: seq<seq<Group>>, hits: seq<Hit>, m: nat)
    requires InIndex(blocks, hits) && InOrder(hits) && PlacedBelow(blocks, hits, m) && m <= |AllGroups(blocks)|
    ensures Sum(Lists(blocks, hits)) <= RowCount(AllGroups(blocks)[..m])
    decreases |hits|
  {
    hide *;
    var lists := Lists(blocks, hits);
    if hits == [] {
      NoneSummed(lists);
    } else {
      var n := |hits| - 1;
      LastItem(blocks, hits, m);
      var at := Place(blocks, hits[n].block, hits[n].item);
      SumUpTo(blocks, hits[..n], at);
      LastSummed(lists);
      CountStep(AllGroups(blocks), at);
      CountGrows(AllGroups(blocks), at + 1, m);
    }
  }

  lemma {:induction false} NoneSummed(lists: seq<seq<u32>>)
    requires |lists| == 0
    ensures Sum(lists) == 0
  {
  }

  lemma {:induction false} LastSummed(lists: seq<seq<u32>>)
    requires lists != []
    ensures var n := |lists| - 1; Sum(lists) == Sum(lists[..n]) + |lists[n]|
  {
  }

  /** The last item, and the items before it. */
  lemma {:induction false} LastItem(blocks: seq<seq<Group>>, hits: seq<Hit>, m: nat)
    requires InIndex(blocks, hits) && InOrder(hits) && hits != [] && PlacedBelow(blocks, hits, m) &&
             m <= |AllGroups(blocks)|
    ensures var n := |hits| - 1;
            var h := hits[n];
            h.block < |blocks| && Place(blocks, h.block, h.item) < m &&
                |Lists(blocks, hits)[n]| == |AllGroups(blocks)[Place(blocks, h.block, h.item)].rows| &&
            InIndex(blocks, hits[..n]) && InOrder(hits[..n]) && Lists(blocks, hits[..n]) == Lists(blocks, hits)[..n] &&
            PlacedBelow(blocks, hits[..n], Place(blocks, h.block, h.item))
  {
    hide Place, AllGroups;
    var n := |hits| - 1;
    var h := hits[n];
    assert IsItem(blocks, h) && Lists(blocks, hits)[n] == ItemRows(blocks, h);
    IndexRoundTrip.PlaceOf(blocks, h.block, h.item);
    forall j | 0 <= j < n ensures IsItem(blocks, hits[j]) && hits[j].block < |blocks| &&
        Place(blocks, hits[j].block, hits[j].item) < Place(blocks, h.block, h.item) {
      assert Before(hits[j], h);
      PlaceGrows(blocks, hits[j].block, hits[j].item, h.block, h.item);
    }
  }

  lemma {:induction false} NoMoreThanPairs(signed: bool, blocks: seq<seq<Group>>, total: multiset<Entry>,
                                           hits: seq<Hit>)
    requires Indexed(signed, blocks, total) && InIndex(blocks, hits) && InOrder(hits)
    ensures Sum(Lists(blocks, hits)) <= |total|
  {
    var gs := AllGroups(blocks);
    var es := Entries(signed, gs);
    assert |es| == |multiset(es)| == |total|;
    hide *;
    CountsPairs(signed, gs);
    AllPlaced(blocks, hits);
    SumUpTo(blocks, hits, |gs|);
    assert gs[..|gs|] == gs;
  }

  lemma {:induction false} AllPlaced(blocks: seq<seq<Group>>, hits: seq<Hit>)
    requires InIndex(blocks, hits)
    ensures PlacedBelow(blocks, hits, |AllGroups(blocks)|)
  {
    hide Place, AllGroups;
    forall j | 0 <= j < |hits|
      ensures IsItem(blocks, hits[j]) && hits[j].block < |blocks| &&
              Place(blocks, hits[j].block, hits[j].item) < |AllGroups(blocks)|
    {
      assert IsItem(blocks, hits[j]);
      IndexRoundTrip.PlaceOf(blocks, hits[j].block, hits[j].item);
    }
  }

  // ---------------------------------------------------------------- how much room lists take

  lemma {:induction false} PackFrontLength(v: nat)
    requires v > 0
    ensures |PackFront(v)| <= v
  {
    if v >= 0x80 {
      PackFrontLength(v / 0x80);
    }
  }

  lemma {:induction false} VecLength(ws: seq<u32>)
    ensures |Vec(ws)| <= 5 * |ws| + 1
  {
    hide WordsBytes, Pack;
    PackLength(|ws|);
  }

  lemma {:induction false} ChunkWordsLength(c: Codec, rows: seq<u32>, k: nat)
    requires c.Lawful() && k <= NumChunks(|rows|)
    ensures |ChunkWords(c, rows, k)| <= 2 * (if 1024 * k <= |rows| then 1024 * k else |rows|) + 1024 * k
    decreases k
  {
    if k > 0 {
      ChunkWordsLength(c, rows, k - 1);
      assert |c.encode(Chunk(rows, k - 1))| <= 2 * |Chunk(rows, k - 1)| + 1024;
    }
  }

  lemma {:induction false} ItemLength(c: Codec, rows: seq<u32>)
    requires c.Lawful()
    ensures |ItemBytes(c, rows)| <= 13 * |rows| + 14370
  {
    match PackingOf(|rows|)
    case Row =>
    case RowBlock =>
      assert |c.encode(rows)| <= 2 * |rows| + 1024;
      hide Codec.Lawful, Vec;
      VecLength(c.encode(rows));
    case RowBlocksList =>
      ListLength(c, rows);
  }

  lemma {:induction false} ListLength(c: Codec, rows: seq<u32>)
    requires c.Lawful()
    ensures |ListBytes(c, rows)| <= 13 * |rows| + 14370
  {
    var n := NumChunks(|rows|);
    var minMax, offsets := c.encode(MinMaxOf(rows)), c.encode(OffsetsOf(c, rows));
    assert |minMax| <= 4 * n + 1024 && |offsets| <= 2 * n + 1024;
    ChunkWordsLength(c, rows, n);
    hide Codec.Lawful, Vec, Pack, WordsBytes, MinMaxOf, OffsetsOf, ChunkWords;
    VecLength(minMax);
    VecLength(offsets);
    PackLength(n);
  }

  lemma {:induction false} PackLength(v: nat)
    ensures |Pack(v)| <= v + 1
  {
    if v >= 0x80 {
      PackFrontLength(v / 0x80);
    }
  }

  lemma {:induction false} PackedLength(c: Codec, gs: seq<Group>)
    requires c.Lawful()
    ensures |PackedRows(c, gs)| <= 13 * RowCount(gs) + 14370 * |gs|
    decreases |gs|
  {
    hide Codec.Lawful, ItemBytes;
    if gs != [] {
      PackedLength(c, gs[..|gs| - 1]);
      ItemLength(c, gs[|gs| - 1].rows);
    }
  }

  lemma {:induction false} BlockCount(blocks: seq<seq<Group>>, k: nat)
    requires k < |blocks|
    ensures RowCount(blocks[k]) <= RowCount(AllGroups(blocks))
    decreases |blocks|
  {
    hide RowCount;
    var n := |blocks| - 1;
    CountConcat(AllGroups(blocks[..n]), blocks[n]);
    if k < n {
      BlockCount(blocks[..n], k);
    }
  }

  lemma {:induction false} CountConcat(a: seq<Group>, b: seq<Group>)
    ensures RowCount(a + b) == RowCount(a) + RowCount(b)
    decreases |b|
  {
    if b == [] {
      assert a + b == a;
    } else {
      CountConcat(a, b[..|b| - 1]);
      assert (a + b)[..|a + b| - 1] == a + b[..|b| - 1];
    }
  }

  /** With fewer than 2 to the power 28 pairs the lists of a block never take more than 32-bit offsets address. */
  lemma {:induction false} ListsAddressable(c: Codec, signed: bool, blocks: seq<seq<Group>>, total: multiset<Entry>)
    requires c.Lawful() && Indexed(signed, blocks, total) && |total| < 0x1000_0000
    ensures forall k :: 0 <= k < |blocks| ==> |PackedRows(c, blocks[k])| < 0x1_0000_0000
  {
    var gs := AllGroups(blocks);
    assert |Entries(signed, gs)| == |multiset(Entries(signed, gs))| == |total|;
    assert forall k :: 0 <= k < |blocks| ==> |blocks[k]| <= 128;
    hide *;
    CountsPairs(signed, gs);
    forall k | 0 <= k < |blocks| ensures |PackedRows(c, blocks[k])| < 0x1_0000_0000 {
      PackedLength(c, blocks[k]);
      BlockCount(blocks, k);
    }
  }

  // ---------------------------------------------------------------- what is found

  /** Some pair with that rowid has a wanted value. */
  ghost predicate Wanted(total: multiset<Entry>, want: int -> bool, p: nat) {
    exists e: Entry :: e in total && e.rowid == p && want(e.value)
  }

  /** The items reported are those of the index that have a wanted value. */
  ghost predicate HitsMatch(signed: bool, blocks: seq<seq<Group>>, want: int -> bool, hits: seq<Hit>) {
    && InIndex(blocks, hits)
    && (forall j :: 0 <= j < |hits| ==> want(W.View(signed, blocks[hits[j].block][hits[j].item].value)))
    && (forall k: nat, i: nat :: At2(blocks, k, i) && want(W.View(signed, blocks[k][i].value)) ==> Reported(hits, k, i))
  }

  ghost predicate Reported(hits: seq<Hit>, k: nat, i: nat) {
    exists j :: 0 <= j < |hits| && hits[j].block == k && hits[j].item == i
  }

  /** A rowid is in the lists of the items reported exactly when some pair with it has a wanted value. */
  lemma {:induction false} ListsAreWanted(signed: bool, blocks: seq<seq<Group>>, total: multiset<Entry>,
                                          want: int -> bool, hits: seq<Hit>, p: nat)
    requires Indexed(signed, blocks, total) && HitsMatch(signed, blocks, want, hits)
    ensures (exists j :: 0 <= j < |hits| && p in Lists(blocks, hits)[j]) <==> Wanted(total, want, p)
  {
    hide Indexed, W.View;
    if e: Entry :| e in total && e.rowid == p && want(e.value) {
      PairsStored(signed, blocks, total, e);
      var k: nat, i: nat :| At2(blocks, k, i) && W.View(signed, blocks[k][i].value) == e.value &&
          e.rowid in blocks[k][i].rows;
      assert Reported(hits, k, i);
      var j :| 0 <= j < |hits| && hits[j].block == k && hits[j].item == i;
      assert IsItem(blocks, hits[j]) && Lists(blocks, hits)[j] == ItemRows(blocks, hits[j]);
    }
    if j :| 0 <= j < |hits| && p in Lists(blocks, hits)[j] {
      var h := hits[j];
      assert IsItem(blocks, h) && Lists(blocks, hits)[j] == ItemRows(blocks, h);
      var e := Entry(W.View(signed, blocks[h.block][h.item].value), p);
      assert At2(blocks, h.block, h.item) && e.rowid in blocks[h.block][h.item].rows;
      PairsStored(signed, blocks, total, e);
    }
  }

  // ---------------------------------------------------------------- range queries

  /** What a range query is given. */
  ghost predicate Searchable(search: int -> ApproxPos, t: ColumnType, blocks: seq<seq<Group>>, f: Filter) {
    var vals := AllVals(t, blocks);
    && blocks != [] && Learned(search, t, vals) && FullBlocks(vals) && AscendingBlocks(vals) && InType(t, vals)
    && |vals[|vals| - 1]| <= 128 && Fits(Fixup(t, f), t)
  }

  /** The window of a range condition, in blocks. */
  function Window(search: int -> ApproxPos, t: ColumnType, f: Filter, blocksCount: nat): BlockIter
    requires blocksCount > 0
  {
    var p := PrepareRange(search, t, f, blocksCount);
    if p.lo <= p.pos then BlockIterOf(p, blocksCount) else BlockIter(0, 0, 0)
  }

  /** The range scan of the window reports the items whose value satisfies the condition. */
  lemma {:induction false} ScanMatches(search: int -> ApproxPos, t: ColumnType, blocks: seq<seq<Group>>, f: Filter)
    requires Searchable(search, t, blocks, f)
    ensures var g := Fixup(t, f);
            var it := Window(search, t, g, |blocks|);
            it.last < |blocks| && PrepareRange(search, t, g, |blocks|).lo <= PrepareRange(search, t, g, |blocks|).pos &&
            var hits := Hits(g, t, AllVals(t, blocks), it.start, it.last);
            InOrder(hits) && LoadsInTime(hits) && HitsMatch(t.Int64?, blocks, v => Satisfies(f, v), hits)
  {
    var vals := AllVals(t, blocks);
    var g := Fixup(t, f);
    hide *;
    SearchableFacts(search, t, blocks, f);
    RangeQueryExact(search, t, vals, f, 0, 0);
    WindowIs(search, t, g, |blocks|);
    var it := Window(search, t, g, |blocks|);
    HitsLoadInTime(g, t, vals, it.start, it.last);
    var hits := Hits(g, t, vals, it.start, it.last);
    FoundByRange(search, t, vals, f, it, hits);
    forall h | h in hits ensures Holds(vals, h.block, h.item) {
      HitsExact(g, t, vals, it.start, it.last, h);
      HitHolds(g, t, vals, h);
    }
    MatchedHits(t, blocks, f, hits);
  }

  lemma {:induction false} FoundByRange(search: int -> ApproxPos, t: ColumnType, vals: seq<seq<int>>, f: Filter,
                                        it: BlockIter, hits: seq<Hit>)
    requires Learned(search, t, vals) && FullBlocks(vals) && AscendingBlocks(vals) && InType(t, vals) &&
             Fits(Fixup(t, f), t)
    requires vals != [] && |vals[|vals| - 1]| <= 128 && it.last < |vals|
    requires PrepareRange(search, t, Fixup(t, f), |vals|).lo <= PrepareRange(search, t, Fixup(t, f), |vals|).pos
    requires it == BlockIterOf(PrepareRange(search, t, Fixup(t, f), |vals|), |vals|)
    requires hits == Hits(Fixup(t, f), t, vals, it.start, it.last)
    ensures forall k: nat, i: nat :: Holds(vals, k, i) ==>
            (Satisfies(f, vals[k][i]) <==> exists load :: Hit(k, i, load) in hits)
  {
    hide Learned, FullBlocks, AscendingBlocks, InType, Fits, Fixup, PrepareRange, BlockIterOf, Hits, Satisfies;
    forall k: nat, i: nat | Holds(vals, k, i) ensures Satisfies(f, vals[k][i]) <==>
            exists load :: Hit(k, i, load) in hits {
      RangeQueryExact(search, t, vals, f, k, i);
    }
  }

  lemma {:induction false} SearchableFacts(search: int -> ApproxPos, t: ColumnType, blocks: seq<seq<Group>>, f: Filter)
    requires Searchable(search, t, blocks, f)
    ensures var vals := AllVals(t, blocks);
            |vals| == |blocks| > 0 && Learned(search, t, vals) && FullBlocks(vals) && AscendingBlocks(vals) &&
                InType(t, vals) &&
            |vals[|vals| - 1]| <= 128 && Fits(Fixup(t, f), t) && vals != [] && Holds(vals, 0, 0)
  {
    hide Learned, FullBlocks, InType, Fits, Fixup;
  }

  lemma {:induction false} WindowIs(search: int -> ApproxPos, t: ColumnType, f: Filter, blocksCount: nat)
    requires blocksCount > 0 && PrepareRange(search, t, f, blocksCount).lo <= PrepareRange(search, t, f,
             blocksCount).pos
    ensures Window(search, t, f, blocksCount) == BlockIterOf(PrepareRange(search, t, f, blocksCount), blocksCount)
  {
    hide PrepareRange, BlockIterOf;
  }

  lemma {:induction false} HitHolds(f: Filter, t: ColumnType, vals: seq<seq<int>>, h: Hit)
    requires IsHit(f, t, vals, h.block, h.item, h.load, 0, false)
    ensures Holds(vals, h.block, h.item)
  {
  }

  lemma {:induction false} MatchedHits(t: ColumnType, blocks: seq<seq<Group>>, f: Filter, hits: seq<Hit>)
    requires var vals := AllVals(t, blocks);
             && (forall h :: h in hits ==> Holds(vals, h.block, h.item))
             && forall k: nat, i: nat :: Holds(vals, k, i) ==>
                     (Satisfies(f, vals[k][i]) <==> exists load :: Hit(k, i, load) in hits)
    ensures HitsMatch(t.Int64?, blocks, v => Satisfies(f, v), hits)
  {
    hide Satisfies, W.View;
    var vals := AllVals(t, blocks);
    forall j | 0 <= j < |hits|
      ensures IsItem(blocks, hits[j]) && Satisfies(f, W.View(t.Int64?, blocks[hits[j].block][hits[j].item].value))
    {
      var h := hits[j];
      assert h in hits && h == Hit(h.block, h.item, h.load);
      assert Holds(vals, h.block, h.item) && Satisfies(f, vals[h.block][h.item]);
    }
    forall k: nat, i: nat | At2(blocks, k, i) && Satisfies(f,
        W.View(t.Int64?, blocks[k][i].value)) ensures Reported(hits, k, i) {
      assert Holds(vals, k, i);
      var load :| Hit(k, i, load) in hits;
      var j :| 0 <= j < |hits| && hits[j] == Hit(k, i, load);
    }
  }

  /**
    The result of a query: the rows inside the bounds that have a wanted value. Excluding, it is those that have
    none, without the word of the last row inside the bounds when that row ends its word.
   */
  ghost predicate Answers(ws: seq<Bits.Word>, total: multiset<Entry>, want: int -> bool, exclude: bool, b: Bounds,
                          size: nat) {
    size <= 64 * |ws| && forall p: nat :: p < 64 * |ws| ==>
            (HasBit(ws, p) <==> Answered(total, want, exclude, b, size, p))
  }

  ghost predicate Answered(total: multiset<Entry>, want: int -> bool, exclude: bool, b: Bounds, size: nat, p: nat) {
    if exclude then p < size && InBounds(b, p) && !Wanted(total, want, p) && !InLostWord(b, size, p)
    else InBounds(b, p) && Wanted(total, want, p)
  }

  /** Row p shares a word with the last row inside the bounds, which ends that word. */
  predicate InLostWord(b: Bounds, size: nat, p: nat) {
    LastBit(b, size) % 64 == 63 && p / 64 == LastBit(b, size) / 64
  }

  /** The rows are those inside the bounds that have no wanted value. */
  ghost predicate Excludes(ws: seq<Bits.Word>, total: multiset<Entry>, want: int -> bool, b: Bounds, size: nat) {
    forall p :: 0 <= p < 64 * |ws| ==> (HasBit(ws, p) <==> p < size && InBounds(b, p) && !Wanted(total, want, p))
  }

  /** Every row inside the bounds that shares a word with the last one has a wanted value. */
  ghost predicate LastWordWanted(words: nat, total: multiset<Entry>, want: int -> bool, b: Bounds, size: nat) {
    forall p :: 0 <= p < 64 * words && p / 64 == LastBit(b, size) / 64 && FirstBit(b) <= p ==> Wanted(total, want, p)
  }

  function LastBit(b: Bounds, size: nat): int {
    if b.Range? then b.max else size - 1
  }

  function FirstBit(b: Bounds): nat {
    if b.Range? then b.min else 0
  }

  lemma {:induction false} UnionAnswers(signed: bool, blocks: seq<seq<Group>>, total: multiset<Entry>,
                                        want: int -> bool, hits: seq<Hit>,
                                        before: seq<Bits.Word>, ws: seq<Bits.Word>, b: Bounds, size: nat)
    requires Indexed(signed, blocks, total) && HitsMatch(signed, blocks, want, hits)
    requires Union(before, ws, Lists(blocks, hits), b) && (forall p :: 0 <= p < 64 * |before| ==> !HasBit(before, p)) &&
             size <= 64 * |before|
    ensures Answers(ws, total, want, false, b, size)
  {
    hide Indexed, HitsMatch, HasBit, InBounds, Wanted;
    forall p | 0 <= p < 64 * |ws| ensures HasBit(ws, p) <==> InBounds(b, p) && Wanted(total, want, p) {
      ListsAreWanted(signed, blocks, total, want, hits, p);
    }
  }

  lemma {:induction false} InvertedAnswers(total: multiset<Entry>, want: int -> bool, was: seq<Bits.Word>,
                                           ws: seq<Bits.Word>, b: Bounds, size: nat)
    requires Answers(was, total, want, false, b, size) && (forall e: Entry :: e in total ==> e.rowid < size)
    requires 0 < size && (b.Range? ==> b.min <= b.max < size) && LastBit(b, size) < 64 * |was|
    requires IsInverted(was, ws, FirstBit(b), LastBit(b, size))
    ensures Answers(ws, total, want, true, b, size)
  {
    var lo, hi := FirstBit(b), LastBit(b, size);
    assert |ws| == |was|;
    hide HasBit, Wanted;
    forall p: nat | p < 64 * |was|
      ensures HasBit(ws, p) <==>
              p < size && InBounds(b, p) && !Wanted(total, want, p) && !InLostWord(b, size, p)
    {
      WantedBelow(total, want, size, p);
      assert HasBit(ws, p) <==> InvertedBit(HasBit(was, p), p, lo, hi);
    }
  }

  /**
    An excluding query hands out exactly the rows inside the bounds that have no wanted value if and only if the
    last row inside the bounds does not end a word, or no row of its word has to be kept.
   */
  lemma {:induction false} ExcludingExactIff(ws: seq<Bits.Word>, total: multiset<Entry>, want: int -> bool, b: Bounds,
                                             size: nat)
    requires Answers(ws, total, want, true, b, size) && 0 < size && (b.Range? ==> b.min <= b.max < size)
    ensures Excludes(ws, total, want, b, size) <==>
              LastBit(b, size) % 64 != 63 || LastWordWanted(|ws|, total, want, b, size)
  {
    hide HasBit, Wanted;
    if LastBit(b, size) % 64 == 63 {
      assert forall p: nat :: InLostWord(b, size, p) ==> p <= LastBit(b, size);
      if Excludes(ws, total, want, b, size) {
        forall p | 0 <= p < 64 * |ws| && p / 64 == LastBit(b, size) / 64 && FirstBit(b) <= p
          ensures Wanted(total, want, p)
        {
          assert HasBit(ws, p) <==> p < size && InBounds(b, p) && !Wanted(total, want, p);
          assert InLostWord(b, size, p) && !HasBit(ws, p);
        }
      }
    }
  }

  /** 128 rows of which row 0 has the value to be excluded: rows 1 to 63 are left, 64 to 127 are lost. */
  lemma {:induction false} ExcludingLosesRows(ws: seq<Bits.Word>, p: nat)
    requires Answers(ws, multiset{Entry(5, 0), Entry(7, 1)}, v => v == 5, true, Unbounded, 128) && p < 64 * |ws|
    ensures HasBit(ws, p) <==> 1 <= p < 64
  {
    var total: multiset<Entry> := multiset{Entry(5, 0), Entry(7, 1)};
    hide HasBit;
    if p == 0 {
      assert Entry(5, 0) in total;
    }
  }

  lemma {:induction false} WantedBelow(total: multiset<Entry>, want: int -> bool, size: nat, p: nat)
    requires forall e: Entry :: e in total ==> e.rowid < size
    ensures Wanted(total, want, p) ==> p < size
  {
  }

  /**
    GetRangeRows with a bitmap: the rows whose value satisfies a range condition, or, excluding, all others.
    An empty index is answered before.
   */
  method GetRangeRows(file: seq<u8>, codec: Codec, offsets: seq<nat>, t: ColumnType, totalValues: nat,
                      search: int -> ApproxPos, filter: Filter,
                      exclude: bool, split: bool, bounds: Bounds, size: nat, ghost blocks: seq<seq<Group>>,
                          ghost total: multiset<Entry>)
    returns (bitmap: BitmapIterator)
    requires Queryable(codec, file, offsets, t, totalValues, blocks, total, size) && 0 < size < 0x8000_0000
    requires Searchable(search, t, blocks, filter)
    requires exclude ==> !split && (bounds.Range? ==> bounds.min <= bounds.max < size)
    ensures fresh(bitmap) && bitmap.Valid() && bitmap.index == 0 && bitmap.size == size
    ensures Answers(bitmap.Words(), total, v => Satisfies(filter, v), exclude, bounds, size)
  {
    hide *;
    QueryFacts(codec, file, offsets, t, totalValues, blocks, total, size);
    ScanMatches(search, t, blocks, filter);
    var g := Fixup(t, filter);
    var it := Window(search, t, g, |offsets|);
    var reader := new RangeReader(codec, file, offsets, t, totalValues, blocks);
    reader.CreateBlocksIterator(it.start, it.last, g);
    bitmap := new BitmapIterator(split, size, bounds);
    bitmap.SizeFacts();
    ghost var before := bitmap.Words();
    MatchFacts(t.Int64?, blocks, v => Satisfies(filter, v), reader.out);
    NoMoreThanPairs(t.Int64?, blocks, total, reader.out);
    CollectHits(file, codec, offsets, totalValues, bitmap, reader.out, t, blocks, total);
    UnionAnswers(t.Int64?, blocks, total, v => Satisfies(filter, v), reader.out, before, bitmap.Words(), bounds, size);
    if exclude {
      ghost var was := bitmap.Words();
      bitmap.SizeFacts();
      LastInside(bounds, size, was);
      bitmap.Invert();
      InvertedAnswers(total, v => Satisfies(filter, v), was, bitmap.Words(), bounds, size);
    }
  }

  lemma {:induction false} QueryFacts(codec: Codec, file: seq<u8>, offsets: seq<nat>, t: ColumnType, totalValues: nat,
                                      blocks: seq<seq<Group>>,
                                      total: multiset<Entry>, size: nat)
    requires Queryable(codec, file, offsets, t, totalValues, blocks, total, size)
    ensures GoodIndex(codec, file, offsets, t, totalValues, blocks) && Indexed(t.Int64?, blocks, total) &&
            |offsets| == |blocks|
    ensures |total| < 0x8000_0000 && forall e: Entry :: e in total ==> e.rowid < size
  {
    hide Codec.Lawful, At, BlockBytes, Indexed, AllVals, FullBlocks, AscendingBlocks, InType, AllGroups, Blocked;
  }

  lemma {:induction false} MatchFacts(signed: bool, blocks: seq<seq<Group>>, want: int -> bool, hits: seq<Hit>)
    requires HitsMatch(signed, blocks, want, hits)
    ensures InIndex(blocks, hits)
  {
    hide W.View;
  }

  lemma {:induction false} LastInside(b: Bounds, size: nat, ws: seq<Bits.Word>)
    requires 0 < size <= 64 * |ws| && (b.Range? ==> b.min <= b.max < size)
    ensures FirstBit(b) == (if b.Range? then b.min else 0) &&
            LastBit(b, size) == (if b.Range? then b.max else size - 1) && LastBit(b, size) < 64 * |ws|
  {
  }

  // ---------------------------------------------------------------- from pairs to rows

  /**
    A way to build a learned index over ascending values: its windows contain the rank of every value of the
    column.
   */
  ghost predicate Learns(build: seq<int> -> int -> ApproxPos, t: ColumnType) {
    forall s: seq<int>, v {:trigger build(s)(v)} :: s != [] && Ascending(s) && IsValue(t, v) ==>
      var p := build(s)(v); p.lo <= LowerBound(s, v) <= p.hi && p.lo <= p.pos <= p.hi && p.lo < |s|
  }

  lemma {:induction false} FlatIsValues(t: ColumnType, blocks: seq<seq<Group>>)
    ensures Flat(AllVals(t, blocks)) == V.ViewAll(t, AllValues(blocks))
    decreases |blocks|
  {
    hide W.View;
    if blocks != [] {
      var n := |blocks| - 1;
      FlatIsValues(t, blocks[..n]);
      assert AllVals(t, blocks)[..n] == AllVals(t, blocks[..n]);
      assert V.ViewAll(t, AllValues(blocks[..n])) + Vals(t, blocks[n]) == V.ViewAll(t, AllValues(blocks));
    }
  }

  lemma {:induction false} ValuesOfGroups(blocks: seq<seq<Group>>)
    ensures |AllValues(blocks)| == |AllGroups(blocks)|
    ensures forall i :: 0 <= i < |AllValues(blocks)| ==> AllValues(blocks)[i] == AllGroups(blocks)[i].value
    decreases |blocks|
  {
    if blocks != [] {
      ValuesOfGroups(blocks[..|blocks| - 1]);
    }
  }

  /** What is learned from the values of a built index can be searched. */
  lemma {:induction false} LearnedFromBuild(build: seq<int> -> int -> ApproxPos, t: ColumnType, blocks: seq<seq<Group>>,
                                            total: multiset<Entry>)
    requires Learns(build, t) && Indexed(t.Int64?, blocks, total) && blocks != []
    ensures Learned(build(V.ViewAll(t, AllValues(blocks))), t, AllVals(t, blocks))
  {
    hide *;
    var s := V.ViewAll(t, AllValues(blocks));
    FlatIsValues(t, blocks);
    BuiltAscends(t, blocks, total);
    LearnsAll(build, t, s, AllVals(t, blocks));
  }

  lemma {:induction false} BuiltAscends(t: ColumnType, blocks: seq<seq<Group>>, total: multiset<Entry>)
    requires Indexed(t.Int64?, blocks, total) && blocks != []
    ensures Ascending(V.ViewAll(t, AllValues(blocks))) && V.ViewAll(t, AllValues(blocks)) != []
  {
    ValuesOfGroups(blocks);
    assert AscendingValues(t.Int64?, AllGroups(blocks));
    assert blocks[|blocks| - 1] != [];
    hide W.View;
  }

  lemma {:induction false} LearnsAll(build: seq<int> -> int -> ApproxPos, t: ColumnType, s: seq<int>,
                                     vals: seq<seq<int>>)
    requires Learns(build, t) && s != [] && Ascending(s) && s == Flat(vals)
    ensures Learned(build(s), t, vals)
  {
    hide Ascending, Flat, LowerBound, Lowest, Highest;
    forall v | Lowest(t) <= v <= Highest(t)
      ensures var p := build(s)(v); p.lo <= LowerBound(s, v) <= p.hi && p.lo <= p.pos <= p.hi && p.lo < |s|
    {
      assert IsValue(t, v);
    }
  }

  lemma {:induction false} RunsFit(t: ColumnType, runs: seq<seq<Entry>>)
    requires forall e: Entry :: e in AllOf(runs) ==> IsValue(t, e.value)
    ensures forall i :: 0 <= i < |runs| ==> AllInRange(t.Int64?, runs[i])
  {
    forall i, j | 0 <= i < |runs| && 0 <= j < |runs[i]| ensures InRange(t.Int64?, runs[i][j].value) {
      InSomeRun(runs, i, j);
    }
  }

  lemma {:induction false} InSomeRun(runs: seq<seq<Entry>>, i: nat, j: nat)
    requires i < |runs| && j < |runs[i]|
    ensures runs[i][j] in AllOf(runs)
    decreases |runs|
  {
    if i < |runs| - 1 {
      InSomeRun(runs[..|runs| - 1], i, j);
    }
  }

  lemma {:induction false} SomethingBuilt(signed: bool, blocks: seq<seq<Group>>, total: multiset<Entry>)
    requires Indexed(signed, blocks, total) && total != multiset{}
    ensures blocks != []
  {
    hide W.View;
  }

  /**
    From pairs to rows: an index is built from any sorted runs of pairs, written to a file behind whatever it
    holds, and queried for a range. The rows handed out are those of the pairs that satisfy the condition.
   */
  method BuildAndQuery(dst: seq<u8>, codec: Codec, t: ColumnType, runs: seq<seq<Entry>>,
                       build: seq<int> -> int -> ApproxPos, filter: Filter, exclude: bool, split: bool,
                       bounds: Bounds, size: nat)
    returns (bitmap: BitmapIterator)
    requires codec.Lawful() && Learns(build, t)
    requires GoodRuns(runs) && runs != [] && |AllOf(runs)| < 0x1000_0000 && 0 < size < 0x8000_0000
    requires forall e: Entry :: e in AllOf(runs) ==> IsValue(t, e.value) && e.rowid < size
    requires Fits(Fixup(t, filter), t)
    requires exclude ==> !split && (bounds.Range? ==> bounds.min <= bounds.max < size)
    ensures fresh(bitmap) && bitmap.Valid() && bitmap.index == 0 && bitmap.size == size
    ensures Answers(bitmap.Words(), AllOf(runs), v => Satisfies(filter, v), exclude, bounds, size)
  {
    hide *;
    RunsFit(t, runs);
    NotEmptyRuns(runs);
    var w := Process(codec, t.Int64?, dst, runs);
    ghost var total := AllOf(runs);
    SomethingBuilt(t.Int64?, w.written, total);
    ListsAddressable(codec, t.Int64?, w.written, total);
    BuiltIsQueryable(w, t, total, size);
    LearnedFromBuild(build, t, w.written, total);
    WrittenCounts(w);
    IsSearchable(build(V.ViewAll(t, w.pgmValues)), w.codec, w.dst, w.blocksOff, t, |w.pgmValues|, w.written, total,
        size, filter);
    bitmap := GetRangeRows(w.dst, codec, w.blocksOff, t, |w.pgmValues|, build(V.ViewAll(t, w.pgmValues)), filter,
                           exclude, split, bounds, size, w.written, total);
  }

  lemma {:induction false} NotEmptyRuns(runs: seq<seq<Entry>>)
    requires GoodRuns(runs) && runs != []
    ensures AllOf(runs) != multiset{}
  {
    InSomeRun(runs, 0, 0);
  }

  lemma {:induction false} WrittenCounts(w: W.RowWriter)
    requires w.Valid()
    ensures w.pgmValues == AllValues(w.written) && |w.pgmValues| == |AllGroups(w.written)|
  {
    ValuesOfGroups(w.written);
    hide Codec.Lawful, W.Pending, W.Totals, FileBytes, BlockOffsets, AllValues, AllGroups;
  }

  lemma {:induction false} IsSearchable(search: int -> ApproxPos, codec: Codec, file: seq<u8>, offsets: seq<nat>,
                                        t: ColumnType,
                                        totalValues: nat, blocks: seq<seq<Group>>, total: multiset<Entry>, size: nat,
                                            f: Filter)
    requires Queryable(codec, file, offsets, t, totalValues, blocks, total, size) && blocks != []
    requires Learned(search, t, AllVals(t, blocks)) && Fits(Fixup(t, f), t)
    ensures Searchable(search, t, blocks, f)
  {
    hide StoredBlocks, Indexed, AllVals, FullBlocks, AscendingBlocks, InType, Learned, Fits, PackedRows, AllGroups,
         Blocked;
  }

  /** Reading the bitmap to its end hands out every row of the answer once, in ascending order, and no other. */
  lemma {:induction false} QueryAnswered(ws: seq<Bits.Word>, total: multiset<Entry>, want: int -> bool, exclude: bool,
                                         b: Bounds, size: nat,
                                         index: seq<nat>, blocks: seq<seq<nat>>)
    requires Answers(ws, total, want, exclude, b, size) && (forall e: Entry :: e in total ==> e.rowid < size)
    requires Run(ws, index, blocks) && blocks != [] && blocks[|blocks| - 1] == []
    ensures Ascending(Join(blocks))
    ensures forall x: nat :: x in Join(blocks) <==> Answered(total, want, exclude, b, size, x)
  {
    RunIsComplete(ws, index, blocks);
    hide Run, Join, HasBit, Members, Ascending, InBounds, InLostWord;
    forall x: nat ensures x in Join(blocks) <==> Answered(total, want, exclude, b, size, x) {
      if !exclude && Wanted(total, want, x) {
        var e: Entry :| e in total && e.rowid == x && want(e.value);
      }
    }
  }

  // ---------------------------------------------------------------- value queries

  /** The places found, and whether the row data of another block has to be loaded first. */
  function WithLoads(places: seq<V.Place>): (r: seq<Hit>)
    ensures |r| == |places|
  {
    if places == [] then []
    else
      var n := |places| - 1;
      WithLoads(places[..n]) + [Hit(places[n].block, places[n].item, n == 0 || places[n - 1].block != places[n].block)]
  }

  lemma {:induction false} WithLoadsAt(places: seq<V.Place>, j: nat)
    requires j < |places|
    ensures WithLoads(places)[j] == Hit(places[j].block, places[j].item, j == 0 ||
            places[j - 1].block != places[j].block)
    decreases |places|
  {
    var n := |places| - 1;
    if j < n {
      WithLoadsAt(places[..n], j);
    }
  }

  lemma {:induction false} WithLoadsInTime(places: seq<V.Place>)
    ensures LoadsInTime(WithLoads(places))
  {
    hide WithLoads;
    var hits := WithLoads(places);
    forall j | 0 <= j < |hits| ensures LoadsAt(hits, j) {
      WithLoadsAt(places, j);
      if j > 0 {
        WithLoadsAt(places, j - 1);
      }
    }
  }

  /** The probes of a list of values. */
  function Probes(search: int -> ApproxPos, values: seq<int>, blocksCount: nat): (r: seq<V.Probe>)
    ensures |r| == |values| && forall i :: 0 <= i < |r| ==> r[i].v == values[i]
    ensures forall i :: 0 <= i < |r| && search(values[i]).lo <= search(values[i]).pos ==>
            r[i].it == BlockIterOf(search(values[i]), blocksCount)
  {
    seq(|values|, i requires 0 <= i < |values| =>
      V.Probe(if search(values[i]).lo <= search(values[i]).pos then BlockIterOf(search(values[i]), blocksCount) else
          BlockIter(0, 0, 0), values[i]))
  }

  /** How many rowids a value has. */
  ghost function RowsOf(t: ColumnType, blocks: seq<seq<Group>>, v: int): nat {
    var places := V.PlacesOf(AllVals(t, blocks), v);
    if places == [] then 0 else |blocks[places[0].block][places[0].item].rows|
  }

  /** How many rowids a list of values has; a value listed twice counts twice. */
  ghost function RowsProbed(t: ColumnType, blocks: seq<seq<Group>>, values: seq<int>): nat {
    if values == [] then 0 else RowsProbed(t, blocks, values[..|values| - 1]) + RowsOf(t, blocks, values[|values| - 1])
  }

  lemma {:induction false} PlaceFound(t: ColumnType, blocks: seq<seq<Group>>, v: int)
    ensures var places := V.PlacesOf(AllVals(t, blocks), v);
            && |places| <= 1
            && (places != [] ==> At2(blocks, places[0].block, places[0].item) &&
                                 W.View(t.Int64?, blocks[places[0].block][places[0].item].value) == v &&
                                 RowsOf(t, blocks, v) == |blocks[places[0].block][places[0].item].rows|)
            && (places == [] ==> RowsOf(t, blocks, v) == 0)
            && (forall k: nat, i: nat :: At2(blocks, k, i) && W.View(t.Int64?, blocks[k][i].value) == v ==>
                    places != [])
  {
    hide W.View;
    var vals := AllVals(t, blocks);
    var places := V.PlacesOf(vals, v);
    if places != [] {
      assert Holds(vals, places[0].block, places[0].item);
    }
    forall k: nat, i: nat | At2(blocks, k, i) && W.View(t.Int64?, blocks[k][i].value) == v ensures places != [] {
      assert Holds(vals, k, i) && vals[k][i] == v;
    }
  }

  /** There is only one place for a value. */
  lemma {:induction false} OnePlace(t: ColumnType, blocks: seq<seq<Group>>, k: nat, i: nat, l: nat, j: nat)
    requires AscendingBlocks(AllVals(t, blocks)) && At2(blocks, k, i) && At2(blocks, l, j)
    requires W.View(t.Int64?, blocks[k][i].value) == W.View(t.Int64?, blocks[l][j].value)
    ensures k == l && i == j
  {
    hide W.View;
    var vals := AllVals(t, blocks);
    assert Holds(vals, k, i) && Holds(vals, l, j) && vals[k][i] == vals[l][j];
  }

  /** All places found are in the index and have a value that was probed; every item with such a value is found. */
  ghost predicate PlacesMatch(t: ColumnType, blocks: seq<seq<Group>>, values: seq<int>, places: seq<V.Place>) {
    && (forall j :: 0 <= j < |places| ==> At2(blocks, places[j].block, places[j].item) && W.View(t.Int64?,
        blocks[places[j].block][places[j].item].value) in values)
    && forall k: nat, i: nat :: At2(blocks, k, i) && W.View(t.Int64?, blocks[k][i].value) in values ==>
            V.Place(k, i) in places
  }

  lemma {:induction false} AllPlacesMatch(t: ColumnType, blocks: seq<seq<Group>>, probes: seq<V.Probe>,
                                          values: seq<int>)
    requires AscendingBlocks(AllVals(t, blocks)) && |probes| == |values| && forall i :: 0 <= i < |probes| ==>
            probes[i].v == values[i]
    ensures PlacesMatch(t, blocks, values, V.AllPlaces(AllVals(t, blocks), probes))
    decreases |probes|
  {
    hide *;
    if probes == [] {
      NoPlaces(t, blocks, probes, values);
    } else {
      var n := |probes| - 1;
      AllPlacesMatch(t, blocks, probes[..n], values[..n]);
      AllPlacesStep(AllVals(t, blocks), probes);
      assert values == values[..n] + [values[n]];
      PlacesOfMatch(t, blocks, values[n]);
      JoinPlaces(t, blocks, values[..n], values[n], V.AllPlaces(AllVals(t, blocks), probes[..n]),
          V.PlacesOf(AllVals(t, blocks), values[n]));
    }
  }

  lemma {:induction false} NoPlaces(t: ColumnType, blocks: seq<seq<Group>>, probes: seq<V.Probe>, values: seq<int>)
    requires probes == [] && values == []
    ensures PlacesMatch(t, blocks, values, V.AllPlaces(AllVals(t, blocks), probes))
  {
  }

  lemma {:induction false} PlacesOfMatch(t: ColumnType, blocks: seq<seq<Group>>, v: int)
    requires AscendingBlocks(AllVals(t, blocks))
    ensures PlacesMatch(t, blocks, [v], V.PlacesOf(AllVals(t, blocks), v))
  {
    PlaceFound(t, blocks, v);
    hide AscendingBlocks, W.View, AllVals, V.PlacesOf, RowsOf;
    var places := V.PlacesOf(AllVals(t, blocks), v);
    forall k: nat, i: nat | At2(blocks, k, i) && W.View(t.Int64?, blocks[k][i].value) in [v] ensures V.Place(k,
        i) in places {
      OnePlace(t, blocks, k, i, places[0].block, places[0].item);
    }
  }

  lemma {:induction false} JoinPlaces(t: ColumnType, blocks: seq<seq<Group>>, values: seq<int>, v: int,
                                      front: seq<V.Place>, last: seq<V.Place>)
    requires PlacesMatch(t, blocks, values, front) && PlacesMatch(t, blocks, [v], last)
    ensures PlacesMatch(t, blocks, values + [v], front + last)
  {
    hide W.View;
  }

  /** The same, as items reported. */
  lemma {:induction false} PlacesAreHits(t: ColumnType, blocks: seq<seq<Group>>, values: seq<int>, places: seq<V.Place>)
    requires PlacesMatch(t, blocks, values, places)
    ensures HitsMatch(t.Int64?, blocks, v => v in values, WithLoads(places))
  {
    hide W.View, WithLoads;
    var hits := WithLoads(places);
    forall j | 0 <= j < |hits| ensures IsItem(blocks, hits[j]) &&
        W.View(t.Int64?, blocks[hits[j].block][hits[j].item].value) in values {
      WithLoadsAt(places, j);
      assert At2(blocks, places[j].block, places[j].item);
    }
    forall k: nat, i: nat | At2(blocks, k, i) && W.View(t.Int64?, blocks[k][i].value) in values ensures Reported(hits,
        k, i) {
      var j :| 0 <= j < |places| && places[j] == V.Place(k, i);
      WithLoadsAt(places, j);
      assert hits[j].block == k && hits[j].item == i;
    }
  }

  lemma {:induction false} ProbedSum(t: ColumnType, blocks: seq<seq<Group>>, probes: seq<V.Probe>, values: seq<int>)
    requires |probes| == |values| && forall i :: 0 <= i < |probes| ==> probes[i].v == values[i]
    ensures var hits := WithLoads(V.AllPlaces(AllVals(t, blocks), probes));
            InIndex(blocks, hits) && Sum(Lists(blocks, hits)) == RowsProbed(t, blocks, values)
    decreases |probes|
  {
    hide W.View, AllVals, RowsOf;
    if probes != [] {
      var n := |probes| - 1;
      ProbedSum(t, blocks, probes[..n], values[..n]);
      PlaceFound(t, blocks, values[n]);
      hide *;
      AllPlacesStep(AllVals(t, blocks), probes);
      RowsProbedStep(t, blocks, values);
      PlaceSummed(t, blocks, V.AllPlaces(AllVals(t, blocks), probes[..n]), V.PlacesOf(AllVals(t, blocks), values[n]));
    }
  }

  lemma {:induction false} AllPlacesStep(vals: seq<seq<int>>, probes: seq<V.Probe>)
    requires probes != []
    ensures V.AllPlaces(vals, probes) == V.AllPlaces(vals, probes[..|probes| - 1]) +
            V.PlacesOf(vals, probes[|probes| - 1].v)
  {
    hide V.PlacesOf;
  }

  lemma {:induction false} RowsProbedStep(t: ColumnType, blocks: seq<seq<Group>>, values: seq<int>)
    requires values != []
    ensures RowsProbed(t, blocks, values) == RowsProbed(t, blocks, values[..|values| - 1]) +
            RowsOf(t, blocks, values[|values| - 1])
  {
    hide RowsOf;
  }

  lemma {:induction false} PlaceSummed(t: ColumnType, blocks: seq<seq<Group>>, front: seq<V.Place>, last: seq<V.Place>)
    requires InIndex(blocks, WithLoads(front)) && |last| <= 1 &&
             (last != [] ==> At2(blocks, last[0].block, last[0].item))
    ensures InIndex(blocks, WithLoads(front + last))
    ensures Sum(Lists(blocks, WithLoads(front + last))) ==
              Sum(Lists(blocks, WithLoads(front))) +
                  (if last == [] then 0 else |blocks[last[0].block][last[0].item].rows|)
  {
    hide *;
    if last == [] {
      assert front + last == front;
    } else {
      var p := last[0];
      assert front + last == front + [p];
      var h := OneHitMore(front, p);
      OneItemMore(blocks, WithLoads(front), h);
    }
  }

  lemma {:induction false} OneHitMore(front: seq<V.Place>, p: V.Place) returns (h: Hit)
    ensures WithLoads(front + [p]) == WithLoads(front) + [h] && h.block == p.block && h.item == p.item
  {
    assert (front + [p])[..|front|] == front;
    h := Hit(p.block, p.item, |front| == 0 || front[|front| - 1].block != p.block);
  }

  lemma {:induction false} OneItemMore(blocks: seq<seq<Group>>, hits: seq<Hit>, h: Hit)
    requires InIndex(blocks, hits) && At2(blocks, h.block, h.item)
    ensures InIndex(blocks, hits + [h]) && Sum(Lists(blocks, hits + [h])) == Sum(Lists(blocks, hits)) +
            |blocks[h.block][h.item].rows|
  {
    var more := hits + [h];
    assert IsItem(blocks, h);
    forall j | 0 <= j < |more| ensures IsItem(blocks, more[j]) {
      assert j < |hits| ==> more[j] == hits[j];
    }
    var lists := Lists(blocks, more);
    assert lists[..|hits|] == Lists(blocks, hits) && lists[|hits|] == ItemRows(blocks, h);
    hide Lists, InIndex;
    LastSummed(lists);
  }

  /** Smaller values come earlier in the index. */
  lemma {:induction false} ValueOrder(t: ColumnType, blocks: seq<seq<Group>>, k: nat, i: nat, l: nat, j: nat)
    requires AscendingBlocks(AllVals(t, blocks)) && At2(blocks, k, i) && At2(blocks, l, j)
    requires W.View(t.Int64?, blocks[k][i].value) < W.View(t.Int64?, blocks[l][j].value)
    ensures k < l || (k == l && i < j)
  {
    hide W.View;
    var vals := AllVals(t, blocks);
    assert Holds(vals, k, i) && Holds(vals, l, j) && vals[k][i] < vals[l][j];
  }

  /** Probing ascending values finds places in order. */
  lemma {:induction false} PlacesInOrder(t: ColumnType, blocks: seq<seq<Group>>, probes: seq<V.Probe>, values: seq<int>)
    requires AscendingBlocks(AllVals(t, blocks)) && Ascending(values)
    requires |probes| == |values| && forall i :: 0 <= i < |probes| ==> probes[i].v == values[i]
    ensures InOrder(WithLoads(V.AllPlaces(AllVals(t, blocks), probes)))
    decreases |probes|
  {
    hide AscendingBlocks, AllVals, WithLoads, InOrder, RowsOf, W.View, V.PlacesOf, PlacesMatch;
    if probes == [] {
      NothingInOrder(WithLoads([]));
    } else {
      var n := |probes| - 1;
      PlacesInOrder(t, blocks, probes[..n], values[..n]);
      AllPlacesMatch(t, blocks, probes[..n], values[..n]);
      PlaceFound(t, blocks, values[n]);
      AllPlacesStep(AllVals(t, blocks), probes);
      OneMoreInOrder(t, blocks, values[..n], values[n], V.AllPlaces(AllVals(t, blocks), probes[..n]),
                     V.PlacesOf(AllVals(t, blocks), values[n]));
    }
  }

  lemma {:induction false} NothingInOrder(hits: seq<Hit>)
    requires |hits| == 0
    ensures InOrder(hits)
  {
  }

  lemma {:induction false} OneMoreInOrder(t: ColumnType, blocks: seq<seq<Group>>, values: seq<int>, v: int,
                                          front: seq<V.Place>, last: seq<V.Place>)
    requires AscendingBlocks(AllVals(t, blocks)) && PlacesMatch(t, blocks, values, front) && InOrder(WithLoads(front))
    requires |last| <= 1 && (forall x :: x in values ==> x < v)
    requires last != [] ==> At2(blocks, last[0].block, last[0].item) && W.View(t.Int64?,
             blocks[last[0].block][last[0].item].value) == v
    ensures InOrder(WithLoads(front + last))
  {
    hide AscendingBlocks, AllVals, WithLoads, InOrder, W.View;
    if last == [] {
      assert front + last == front;
    } else {
      var p := last[0];
      assert front + last == front + [p];
      var h := OneHitMore(front, p);
      var hits := WithLoads(front);
      forall x, y | x in hits && y in [h] ensures Before(x, y) {
        var j :| 0 <= j < |hits| && hits[j] == x;
        WithLoadsAt(front, j);
        assert At2(blocks, front[j].block, front[j].item);
        ValueOrder(t, blocks, front[j].block, front[j].item, p.block, p.item);
      }
      OneInOrder(h);
      JoinInOrder(hits, [h]);
    }
  }

  lemma {:induction false} OneInOrder(h: Hit)
    ensures InOrder([h])
  {
  }

  /** Values that ascend have no more rowids than there are pairs. */
  lemma {:induction false} ProbedOnce(t: ColumnType, blocks: seq<seq<Group>>, total: multiset<Entry>,
                                      probes: seq<V.Probe>, values: seq<int>)
    requires Indexed(t.Int64?, blocks, total) && AscendingBlocks(AllVals(t, blocks)) && Ascending(values)
    requires |probes| == |values| && forall i :: 0 <= i < |probes| ==> probes[i].v == values[i]
    ensures RowsProbed(t, blocks, values) <= |total|
  {
    hide *;
    PlacesInOrder(t, blocks, probes, values);
    ProbedSum(t, blocks, probes, values);
    NoMoreThanPairs(t.Int64?, blocks, total, WithLoads(V.AllPlaces(AllVals(t, blocks), probes)));
  }

  /** What a value query is given: values of the column, and windows no longer than a block. */
  ghost predicate Probable(search: int -> ApproxPos, t: ColumnType, blocks: seq<seq<Group>>, values: seq<int>) {
    var vals := AllVals(t, blocks);
    && blocks != [] && |blocks| < 0x8000_0000 && Learned(search, t, vals) && FullBlocks(vals) && AscendingBlocks(vals)
    && |vals[|vals| - 1]| <= 128
    && forall i :: 0 <= i < |values| ==> IsValue(t, values[i]) && search(values[i]).hi <= search(values[i]).lo + 128
  }

  lemma {:induction false} ProbesAreGood(search: int -> ApproxPos, t: ColumnType, blocks: seq<seq<Group>>,
                                         values: seq<int>)
    requires Probable(search, t, blocks, values)
    ensures AscendingBlocks(AllVals(t, blocks)) && |blocks| < 0x8000_0000
    ensures var probes := Probes(search, values, |blocks|);
            forall i :: 0 <= i < |probes| ==> V.GoodProbe(AllVals(t, blocks), probes[i])
  {
    hide Learned, FullBlocks, AscendingBlocks, V.GoodProbe, BlockIterOf;
    var vals := AllVals(t, blocks);
    var probes := Probes(search, values, |blocks|);
    forall i | 0 <= i < |probes| ensures V.GoodProbe(vals, probes[i]) {
      assert IsValue(t, values[i]) && search(values[i]).hi <= search(values[i]).lo + 128;
      V.LearnedProbe(search, t, vals, values[i]);
      assert probes[i] == V.Probe(BlockIterOf(search(values[i]), |vals|), values[i]);
    }
  }

  /** GetValsRows with a bitmap: the rows that have a value of a list, in whatever order, or, excluding, all others. */
  method GetValsRows(file: seq<u8>, codec: Codec, offsets: seq<nat>, t: ColumnType, totalValues: nat,
                     search: int -> ApproxPos, values: seq<int>,
                     exclude: bool, split: bool, bounds: Bounds, size: nat, useCache: bool, cache: map<nat, seq<int>>,
                     ghost blocks: seq<seq<Group>>, ghost total: multiset<Entry>)
    returns (bitmap: BitmapIterator)
    requires Queryable(codec, file, offsets, t, totalValues, blocks, total, size) && 0 < size < 0x8000_0000
    requires Probable(search, t, blocks, values) && RowsProbed(t, blocks, values) < 0x8000_0000 &&
             V.CacheOk(AllVals(t, blocks), cache)
    requires exclude ==> !split && (bounds.Range? ==> bounds.min <= bounds.max < size)
    ensures fresh(bitmap) && bitmap.Valid() && bitmap.index == 0 && bitmap.size == size
    ensures Answers(bitmap.Words(), total, v => v in values, exclude, bounds, size)
  {
    hide *;
    QueryFacts(codec, file, offsets, t, totalValues, blocks, total, size);
    ProbesAreGood(search, t, blocks, values);
    var probes := Probes(search, values, |offsets|);
    var reader := new V.BlockReader(codec, file, offsets, t, totalValues, useCache, cache, blocks);
    reader.FindAll(probes);
    assert [] + V.AllPlaces(AllVals(t, blocks), probes) == V.AllPlaces(AllVals(t, blocks), probes);
    var hits := WithLoads(reader.out);
    AllPlacesMatch(t, blocks, probes, values);
    PlacesAreHits(t, blocks, values, reader.out);
    WithLoadsInTime(reader.out);
    ProbedSum(t, blocks, probes, values);
    bitmap := new BitmapIterator(split, size, bounds);
    bitmap.SizeFacts();
    ghost var before := bitmap.Words();
    CollectHits(file, codec, offsets, totalValues, bitmap, hits, t, blocks, total);
    UnionAnswers(t.Int64?, blocks, total, v => v in values, hits, before, bitmap.Words(), bounds, size);
    if exclude {
      ghost var was := bitmap.Words();
      bitmap.SizeFacts();
      LastInside(bounds, size, was);
      bitmap.Invert();
      InvertedAnswers(total, v => v in values, was, bitmap.Words(), bounds, size);
    }
  }
}
