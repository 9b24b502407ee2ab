/**
  Value probes of the secondary index (secondary/blockreader.cpp, BlockReader_T and FindBlockValue): the
  block that is already loaded, then the most probable one, then the others of the window in order.
 */
module ValueLookup {
  import opened ByteCodec
  import opened Orders
  import opened Filters
  import opened RowLists
  import opened RowGroups
  import opened IndexBuilder
  import opened IndexBlocks
  import opened IndexSearch
  import opened RangeScan
  import W = RowWriter

  /** The place of a value that was found. */
  datatype Place = Place(block: nat, item: nat)

  /**
    The item or -1; and 0 when the value lies between the ends of the block, 1 when the block is below it, -1
    above it.
   */
  datatype Found = Found(item: int, cmp: int)

  function FindBlockValue(values: seq<int>, v: int): (r: Found)
    ensures r.item == -1 || (0 <= r.item < |values| && values[r.item] == v)
  {
    var i := LowerBound(values, v);
    if i < |values| && values[i] == v then Found(i, 0)
    else if values == [] || values[0] <= v <= values[|values| - 1] then Found(-1, 0)
    else Found(-1, if values[|values| - 1] < v then 1 else -1)
  }

  lemma {:induction false} FoundAt(vals: seq<seq<int>>, k: nat, i: nat, v: int)
    requires AscendingBlocks(vals) && Holds(vals, k, i) && vals[k][i] == v
    ensures LowerBound(vals[k], v) == i
  {
    forall r: nat | r < i ensures vals[k][r] < v {
      assert Holds(vals, k, r);
    }
  }

  /** Searching a block of an ascending index: the value is found where it is. */
  lemma {:induction false} FindHere(vals: seq<seq<int>>, k: nat, i: nat, v: int)
    requires AscendingBlocks(vals) && Holds(vals, k, i) && vals[k][i] == v
    ensures FindBlockValue(vals[k], v) == Found(i, 0)
  {
    FoundAt(vals, k, i, v);
  }

  /** In another block it is not found, and the answer says on which side that block lies. */
  lemma {:induction false} FindElsewhere(vals: seq<seq<int>>, k: nat, b: nat, i: nat, v: int)
    requires AscendingBlocks(vals) && Holds(vals, b, i) && vals[b][i] == v && k < |vals| && k != b
    ensures FindBlockValue(vals[k], v) == Found(-1, if k < b then 1 else -1)
  {
    var z := |vals[k]| - 1;
    assert Holds(vals, k, 0) && Holds(vals, k, z);
    forall j: nat | j < |vals[k]| ensures if k < b then vals[k][j] < v else v < vals[k][j] {
      assert Holds(vals, k, j);
    }
    hide AscendingBlocks, LowerBound;
  }

  // ---------------------------------------------------------------- what a probe finds

  /** A block number as the comparison in the source sees it: 64-bit unsigned. */
  function AsUnsigned(x: int): nat {
    x % 0x1_0000_0000_0000_0000
  }

  /** The block that is already loaded is looked at first when it is not the probable one and not behind the start. */
  predicate ChecksLoaded(it: BlockIter, loaded: int) {
    AsUnsigned(loaded) != it.start + it.pos && it.start >= AsUnsigned(loaded) && AsUnsigned(loaded) <= it.last
  }

  predicate Skipped(it: BlockIter, loaded: int, k: nat) {
    k == it.start + it.pos || (ChecksLoaded(it, loaded) && k == loaded)
  }

  /** The probe gets to block b: it is looked at up front, or all blocks of the window before it were. */
  ghost predicate Reaches(it: BlockIter, loaded: int, b: nat) {
    Skipped(it, loaded, b) || (it.start <= b <= it.last && forall k: nat :: it.start <= k < b ==>
            Skipped(it, loaded, k))
  }

  ghost predicate Absent(vals: seq<seq<int>>, v: int) {
    forall b: nat, i: nat :: Holds(vals, b, i) ==> vals[b][i] != v
  }

  /** The outcome of one probe: a value present at (b, i) is reported there exactly when the probe reaches block b. */
  ghost predicate Probed(vals: seq<seq<int>>, it: BlockIter, loaded: int, v: int, before: seq<Place>,
                         after: seq<Place>) {
    && (Absent(vals, v) ==> after == before)
    && forall b: nat, i: nat :: Holds(vals, b, i) && vals[b][i] == v ==>
         after == if Reaches(it, loaded, b) then before + [Place(b, i)] else before
  }

  /** So far the value was not found, and the blocks of the window before k that were not skipped are above it. */
  ghost predicate NotYet(vals: seq<seq<int>>, it: BlockIter, loaded: int, v: int, k: nat) {
    && (forall l: nat :: l < |vals| && Skipped(it, loaded, l) ==> FindBlockValue(vals[l], v).item == -1)
    && (forall l: nat :: it.start <= l < k && l < |vals| && !Skipped(it, loaded, l) ==>
            FindBlockValue(vals[l], v).item == -1 && FindBlockValue(vals[l], v).cmp < 0)
  }

  lemma {:induction false} ProbeFound(vals: seq<seq<int>>, it: BlockIter, loaded: int, v: int, k: nat, out: seq<Place>)
    requires AscendingBlocks(vals) && k < |vals| && FindBlockValue(vals[k], v).item >= 0
    requires Skipped(it, loaded, k) || (it.start <= k <= it.last && NotYet(vals, it, loaded, v, k))
    ensures Probed(vals, it, loaded, v, out, out + [Place(k, FindBlockValue(vals[k], v).item)])
  {
    var r := FindBlockValue(vals[k], v);
    assert Holds(vals, k, r.item);
    forall b: nat, i: nat | Holds(vals, b, i) && vals[b][i] == v ensures b == k && i == r.item {
      if b != k {
        FindElsewhere(vals, k, b, i, v);
      } else {
        FindHere(vals, k, i, v);
      }
    }
    if !Skipped(it, loaded, k) {
      forall l: nat | it.start <= l < k ensures Skipped(it, loaded, l) {
        FindElsewhere(vals, l, k, r.item, v);
      }
    }
  }

  /** When a block holds the range of the value but not the value, no block does. */
  lemma {:induction false} ProbeAbsent(vals: seq<seq<int>>, it: BlockIter, loaded: int, v: int, k: nat, out: seq<Place>)
    requires AscendingBlocks(vals) && k < |vals| && FindBlockValue(vals[k], v) == Found(-1, 0)
    ensures Probed(vals, it, loaded, v, out, out)
  {
    forall b: nat, i: nat | Holds(vals, b, i) ensures vals[b][i] != v {
      if vals[b][i] == v {
        if b != k {
          FindElsewhere(vals, k, b, i, v);
        } else {
          FindHere(vals, k, i, v);
        }
      }
    }
  }

  /** A block below the value ends the probe: later blocks are not reached. */
  lemma {:induction false} ProbeStops(vals: seq<seq<int>>, it: BlockIter, loaded: int, v: int, k: nat, out: seq<Place>)
    requires AscendingBlocks(vals) && k < |vals| && it.start <= k && !Skipped(it, loaded, k) &&
             NotYet(vals, it, loaded, v, k)
    requires FindBlockValue(vals[k], v).item == -1 && FindBlockValue(vals[k], v).cmp > 0
    ensures Probed(vals, it, loaded, v, out, out)
  {
    forall b: nat, i: nat | Holds(vals, b, i) && vals[b][i] == v ensures !Reaches(it, loaded, b) {
      FindHere(vals, b, i, v);
      if b != k {
        FindElsewhere(vals, k, b, i, v);
      }
    }
  }

  lemma {:induction false} ProbeEnds(vals: seq<seq<int>>, it: BlockIter, loaded: int, v: int, k: nat, out: seq<Place>)
    requires AscendingBlocks(vals) && k > it.last && NotYet(vals, it, loaded, v, k)
    ensures Probed(vals, it, loaded, v, out, out)
  {
    forall b: nat, i: nat | Holds(vals, b, i) && vals[b][i] == v ensures !Reaches(it, loaded, b) {
      FindHere(vals, b, i, v);
    }
  }

  /** A window of at most two blocks is always searched completely. */
  lemma {:induction false} TwoBlocksReached(it: BlockIter, loaded: int, b: nat)
    requires it.start <= b <= it.last <= it.start + 1 && it.start + it.pos <= it.last
    ensures Reaches(it, loaded, b)
  {
  }

  /** Looking at a skipped block, up front. */
  lemma {:induction false} ProbeHere(vals: seq<seq<int>>, it: BlockIter, loaded: int, v: int, k: nat, out: seq<Place>)
    requires AscendingBlocks(vals) && k < |vals| && Skipped(it, loaded, k)
    ensures var r := FindBlockValue(vals[k], v);
            (r.cmp == 0 ==> Probed(vals, it, loaded, v, out, if r.item == -1 then out else out + [Place(k, r.item)])) &&
            (r.cmp != 0 ==> r.item == -1)
  {
    var r := FindBlockValue(vals[k], v);
    hide AscendingBlocks, Probed;
    if r.cmp == 0 {
      if r.item == -1 {
        ProbeAbsent(vals, it, loaded, v, k, out);
      } else {
        ProbeFound(vals, it, loaded, v, k, out);
      }
    }
  }

  /** Looking at a block of the window in turn. */
  lemma {:induction false} ProbeInWindow(vals: seq<seq<int>>, it: BlockIter, loaded: int, v: int, k: nat,
                                         out: seq<Place>)
    requires AscendingBlocks(vals) && it.start <= k <= it.last < |vals| && !Skipped(it, loaded, k) &&
             NotYet(vals, it, loaded, v, k)
    ensures var r := FindBlockValue(vals[k], v);
            (r.cmp >= 0 ==> Probed(vals, it, loaded, v, out, if r.item == -1 then out else out + [Place(k, r.item)])) &&
            (r.cmp != 0 ==> r.item == -1)
  {
    var r := FindBlockValue(vals[k], v);
    hide AscendingBlocks, Probed, NotYet;
    if r.cmp == 0 {
      if r.item == -1 {
        ProbeAbsent(vals, it, loaded, v, k, out);
      } else {
        ProbeFound(vals, it, loaded, v, k, out);
      }
    } else if r.cmp > 0 {
      ProbeStops(vals, it, loaded, v, k, out);
    }
  }

  lemma {:induction false} StartsNotYet(vals: seq<seq<int>>, it: BlockIter, loaded: int, v: int)
    requires it.start + it.pos < |vals| && FindBlockValue(vals[it.start + it.pos], v).item == -1
    requires ChecksLoaded(it, loaded) ==> 0 <= loaded < |vals| && FindBlockValue(vals[loaded], v).item == -1
    ensures NotYet(vals, it, loaded, v, it.start)
  {
  }

  lemma {:induction false} NextNotYet(vals: seq<seq<int>>, it: BlockIter, loaded: int, v: int, k: nat)
    requires k < |vals| && NotYet(vals, it, loaded, v, k)
    requires Skipped(it, loaded, k) || (FindBlockValue(vals[k], v).item == -1 && FindBlockValue(vals[k], v).cmp < 0)
    ensures NotYet(vals, it, loaded, v, k + 1)
  {
    hide FindBlockValue, Skipped;
  }

  /** Which block counts as loaded: none when the number is -1, which reads as a huge unsigned one. */
  lemma {:induction false} LoadedBlock(vals: seq<seq<int>>, it: BlockIter, loaded: int, values: seq<int>)
    requires LoadedOk(vals, loaded, values) && |vals| < 0x8000_0000 && it.last < |vals|
    ensures ChecksLoaded(it, loaded) <==>
              AsUnsigned(loaded) != it.start + it.pos && it.start >= AsUnsigned(loaded) && AsUnsigned(loaded) <= it.last
    ensures ChecksLoaded(it, loaded) ==> 0 <= loaded < |vals| && values == vals[loaded]
    ensures forall k: nat :: Skipped(it, loaded, k) <==>
            k == it.start + it.pos || (ChecksLoaded(it, loaded) && k == loaded)
  {
  }

  lemma {:induction false} LoadedFacts(vals: seq<seq<int>>, loaded: int, values: seq<int>, cache: map<nat, seq<int>>,
                                       block: nat)
    requires LoadedOk(vals, loaded, values) && CacheOk(vals, cache) && block < |vals|
    ensures loaded == block ==> values == vals[block]
    ensures block in cache ==> cache[block] == vals[block]
    ensures LoadedOk(vals, block, vals[block]) && CacheOk(vals, cache[block := vals[block]])
  {
  }

  lemma {:induction false} ReadBlock(codec: Codec, file: seq<u8>, offsets: seq<nat>, t: ColumnType, totalValues: nat,
                                     blocks: seq<seq<Group>>, k: nat)
    requires GoodIndex(codec, file, offsets, t, totalValues, blocks) && k < |blocks|
    ensures |AllVals(t, blocks)| == |blocks| == |offsets|
    ensures ViewAll(t, codec.decodeValues(ReadVec(file, offsets[k]).0,
            CalcNumBlockValues(|offsets|, totalValues, k))) == AllVals(t, blocks)[k]
  {
    hide AscendingBlocks, At, BlockBytes, Codec.Lawful, ReadVec, AllGroups, W.View;
    ValuesBack(codec, file, offsets, blocks, k);
  }

  lemma {:induction false} IndexOf(codec: Codec, file: seq<u8>, offsets: seq<nat>, t: ColumnType, totalValues: nat,
                                   blocks: seq<seq<Group>>)
    requires GoodIndex(codec, file, offsets, t, totalValues, blocks)
    ensures |AllVals(t, blocks)| == |blocks| == |offsets| && AscendingBlocks(AllVals(t, blocks))
  {
    hide AscendingBlocks, At, BlockBytes, Codec.Lawful;
  }

  // ---------------------------------------------------------------- lists of probes

  /** What a probe should find: the place of the value, or nothing. */
  ghost function PlacesOf(vals: seq<seq<int>>, v: int): (r: seq<Place>)
    ensures |r| <= 1 && (r == [] <==> Absent(vals, v))
    ensures r != [] ==> Holds(vals, r[0].block, r[0].item) && vals[r[0].block][r[0].item] == v
  {
    if Absent(vals, v) then []
    else
      NotAbsent(vals, v);
      var p: Place :| IsPlace(vals, v, p);
      [p]
  }

  ghost predicate IsPlace(vals: seq<seq<int>>, v: int, p: Place) {
    Holds(vals, p.block, p.item) && vals[p.block][p.item] == v
  }

  lemma {:induction false} NotAbsent(vals: seq<seq<int>>, v: int)
    requires !Absent(vals, v)
    ensures exists p: Place :: IsPlace(vals, v, p)
  {
    var b: nat, i: nat :| Holds(vals, b, i) && vals[b][i] == v;
    assert IsPlace(vals, v, Place(b, i));
  }

  ghost function AllPlaces(vals: seq<seq<int>>, probes: seq<Probe>): seq<Place> {
    if probes == [] then [] else AllPlaces(vals, probes[..|probes| - 1]) + PlacesOf(vals, probes[|probes| - 1].v)
  }

  /** A value to look for and the window to look in. */
  datatype Probe = Probe(it: BlockIter, v: int)

  /** A window that is not empty, spans at most two blocks, and holds the value if any block does. */
  ghost predicate GoodProbe(vals: seq<seq<int>>, p: Probe) {
    && p.it.start <= p.it.last < |vals| && p.it.last <= p.it.start + 1 && p.it.start + p.it.pos <= p.it.last
    && forall b: nat, i: nat :: Holds(vals, b, i) && vals[b][i] == p.v ==> p.it.start <= b <= p.it.last
  }

  lemma {:induction false} ProbeFindsAll(vals: seq<seq<int>>, p: Probe, loaded: int, before: seq<Place>,
                                         after: seq<Place>)
    requires GoodProbe(vals, p) && Probed(vals, p.it, loaded, p.v, before, after)
    ensures after == before + PlacesOf(vals, p.v)
  {
    if !Absent(vals, p.v) {
      var q := PlacesOf(vals, p.v)[0];
      TwoBlocksReached(p.it, loaded, q.block);
      hide Reaches;
      assert after == before + [Place(q.block, q.item)];
      assert PlacesOf(vals, p.v) == [q];
    } else {
      assert before + [] == before;
    }
  }

  /**
    The window of a probe is good when the learned index narrows the position down to a stretch of no more
    than a block's length.
   */
  lemma {:induction false} LearnedProbe(search: int -> ApproxPos, t: ColumnType, vals: seq<seq<int>>, v: int)
    requires Learned(search, t, vals) && FullBlocks(vals) && AscendingBlocks(vals) && Lowest(t) <= v <= Highest(t)
    requires vals != [] && |vals[|vals| - 1]| <= 128 && search(v).hi <= search(v).lo + 128
    ensures search(v).lo <= search(v).pos && GoodProbe(vals, Probe(BlockIterOf(search(v), |vals|), v))
  {
    var p := search(v);
    var r := LowerBound(Flat(vals), v);
    assert p.lo <= r <= p.hi && p.lo <= p.pos <= p.hi && p.lo < |Flat(vals)|;
    var n := |vals| - 1;
    FlatFull(vals[..n]);
    assert |Flat(vals)| <= 128 * n + 128;
    var it := BlockIterOf(p, |vals|);
    hide Learned, LowerBound, Flat, AscendingBlocks;
    forall b: nat, i: nat | Holds(vals, b, i) && vals[b][i] == v ensures it.start <= b <= it.last {
      BoundsAround(vals, b, i, v);
      assert r == 128 * b + i && i < 128;
    }
  }

  // ---------------------------------------------------------------- the reader

  /** What has been loaded since then is in the cache, when there is one, and it keeps what it had. */
  predicate Kept(useCache: bool, was: int, had: map<nat, seq<int>>, loaded: int, cache: map<nat, seq<int>>) {
    && (forall k :: k in had ==> k in cache)
    && (useCache && loaded != was ==> loaded >= 0 && loaded in cache)
    && (!useCache ==> cache == had)
  }

  lemma {:induction false} KeptNow(useCache: bool, was: int, had: map<nat, seq<int>>)
    ensures Kept(useCache, was, had, was, had)
  {
  }

  lemma {:induction false} KeptTwice(useCache: bool, was: int, had: map<nat, seq<int>>, mid: int,
                                     has: map<nat, seq<int>>, loaded: int, cache: map<nat, seq<int>>)
    requires Kept(useCache, was, had, mid, has) && Kept(useCache, mid, has, loaded, cache)
    ensures Kept(useCache, was, had, loaded, cache)
  {
  }

  lemma {:induction false} KeptLoad(useCache: bool, was: int, had: map<nat, seq<int>>, block: nat, values: seq<int>)
    ensures var cache := if useCache && block != was && block !in had then had[block := values] else had;
            Kept(useCache, was, had, block, cache)
  {
  }

  class BlockReader {
    const codec: Codec
    const file: seq<u8>
    const offsets: seq<nat>             // the table of block offsets in the file
    const t: ColumnType
    const totalValues: nat
    const useCache: bool
    ghost const blocks: seq<seq<Group>>

    var dBlockOffsets: seq<nat>         // offsets of the blocks of the last window
    var blockOffsetsOff: nat            // the block they start with
    var loadedValuesBlockId: int        // block whose values are loaded, or -1
    var blockValues: seq<int>
    var cache: map<nat, seq<int>>       // values of blocks read by any query
    var out: seq<Place>                 // values found

    ghost predicate Valid()
      reads this
    {
      && GoodIndex(codec, file, offsets, t, totalValues, blocks)
      && LoadedOk(AllVals(t, blocks), loadedValuesBlockId, blockValues) && CacheOk(AllVals(t, blocks), cache)
      && OffsetsOk(offsets, dBlockOffsets, blockOffsetsOff)
    }

    constructor (codec: Codec, file: seq<u8>, offsets: seq<nat>, t: ColumnType, totalValues: nat, useCache: bool,
                 cache: map<nat, seq<int>>, ghost blocks: seq<seq<Group>>)
      requires GoodIndex(codec, file, offsets, t, totalValues, blocks) && CacheOk(AllVals(t, blocks), cache)
      ensures Valid() && out == [] && this.blocks == blocks && this.t == t
    {
      hide GoodIndex, CacheOk;
      this.codec, this.file, this.offsets, this.t, this.totalValues := codec, file, offsets, t, totalValues;
      this.useCache, this.blocks, this.cache := useCache, blocks, cache;
      dBlockOffsets, blockOffsetsOff, loadedValuesBlockId, blockValues, out := [], 0, -1, [], [];
    }

    /** Reads the offsets of the window unless they are those read last. */
    method LoadBlockOffsets(it: BlockIter)
      requires Valid() && it.start <= it.last < |offsets|
      modifies this`dBlockOffsets, this`blockOffsetsOff
      ensures Valid() && dBlockOffsets == offsets[it.start..it.last + 1]
    {
      hide GoodIndex, LoadedOk, CacheOk;
      var n := it.last - it.start + 1;
      if |dBlockOffsets| == n && blockOffsetsOff == it.start {
        return;
      }
      dBlockOffsets := [];
      var i := 0;
      while i < n
        invariant 0 <= i <= n && dBlockOffsets == offsets[it.start..it.start + i]
      {
        dBlockOffsets := dBlockOffsets + [offsets[it.start + i]];
        i := i + 1;
      }
      blockOffsetsOff := it.start;
    }

    /**
      Makes the values of a block the loaded ones: as they are, from the cache, or from the file, and then they are
      kept in the cache.
     */
    method LoadBlockValuesToCache(start: nat, block: nat)
      requires Valid() && start <= block < start + |dBlockOffsets| <= |blocks| &&
               dBlockOffsets == offsets[start..start + |dBlockOffsets|]
      modifies this`loadedValuesBlockId, this`blockValues, this`cache
      ensures Valid() && loadedValuesBlockId == block && blockValues == AllVals(t, blocks)[block]
      ensures cache == if useCache && block != old(loadedValuesBlockId) && block !in old(cache)
                       then old(cache)[block := AllVals(t, blocks)[block]] else old(cache)
    {
      hide *;
      Pieces();
      ReadBlock(codec, file, offsets, t, totalValues, blocks, block);
      LoadedFacts(AllVals(t, blocks), loadedValuesBlockId, blockValues, cache, block);
      if loadedValuesBlockId == block {
        return;
      }
      if useCache {
        if block in cache {
          blockValues := cache[block];
          loadedValuesBlockId := block;
          IsValid();
          return;
        }
      }
      blockValues := ViewAll(t, codec.decodeValues(ReadVec(file, dBlockOffsets[block - start]).0,
          CalcNumBlockValues(|offsets|, totalValues, block)));
      loadedValuesBlockId := block;
      if useCache {
        cache := cache[block := blockValues];
      }
      IsValid();
    }

    lemma {:induction false} Pieces()
      requires Valid()
      ensures GoodIndex(codec, file, offsets, t, totalValues, blocks) &&
              OffsetsOk(offsets, dBlockOffsets, blockOffsetsOff)
      ensures LoadedOk(AllVals(t, blocks), loadedValuesBlockId, blockValues) && CacheOk(AllVals(t, blocks), cache)
    {
      hide GoodIndex, LoadedOk, CacheOk, OffsetsOk, AllVals;
    }

    lemma {:induction false} IsValid()
      requires GoodIndex(codec, file, offsets, t, totalValues, blocks) &&
               OffsetsOk(offsets, dBlockOffsets, blockOffsetsOff)
      requires LoadedOk(AllVals(t, blocks), loadedValuesBlockId, blockValues) && CacheOk(AllVals(t, blocks), cache)
      ensures Valid()
    {
      hide GoodIndex, LoadedOk, CacheOk, OffsetsOk, AllVals;
    }

    /** Looks for a value among the loaded ones and reports it; also says where the block lies. */
    method CreateIterator(block: int, v: int) returns (cmp: int)
      requires Valid() && block >= 0
      modifies this`out
      ensures Valid()
      ensures var r := FindBlockValue(blockValues, v);
              cmp == r.cmp && out == if r.item == -1 then old(out) else old(out) + [Place(block, r.item)]
    {
      hide GoodIndex, LoadedOk, CacheOk, OffsetsOk, AllVals;
      var r := FindBlockValue(blockValues, v);
      if r.item != -1 {
        out := out + [Place(block, r.item)];
      }
      return r.cmp;
    }

    /** CreateBlocksIterator: one probe. */
    method CreateBlocksIterator(it: BlockIter, v: int)
      requires Valid() && it.start <= it.last < |blocks| && it.start + it.pos <= it.last
      requires |blocks| < 0x8000_0000
      modifies this
      ensures Valid() && Probed(AllVals(t, blocks), it, old(loadedValuesBlockId), v, old(out), out)
      ensures Kept(useCache, old(loadedValuesBlockId), old(cache), loadedValuesBlockId, cache)
    {
      hide *;
      ghost var vals := AllVals(t, blocks);
      ghost var loaded, had := loadedValuesBlockId, cache;
      KeptNow(useCache, loaded, had);
      KeptLoad(useCache, loaded, had, it.start + it.pos, vals[it.start + it.pos]);
      Pieces();
      IndexOf(codec, file, offsets, t, totalValues, blocks);
      LoadedBlock(vals, it, loaded, blockValues);
      LoadBlockOffsets(it);
      var lastBlockChecked := -1;
      if AsUnsigned(loadedValuesBlockId) != it.start + it.pos && it.start >= AsUnsigned(loadedValuesBlockId) &&
          AsUnsigned(loadedValuesBlockId) <= it.last {
        ProbeHere(vals, it, loaded, v, loaded, out);
        var cmp := CreateIterator(loadedValuesBlockId, v);
        if cmp == 0 {
          return;
        }
        lastBlockChecked := loadedValuesBlockId;
      }
      LoadBlockValuesToCache(it.start, it.start + it.pos);
      ProbeHere(vals, it, loaded, v, it.start + it.pos, out);
      var cmp := CreateIterator(it.start + it.pos, v);
      if cmp == 0 {
        return;
      }
      StartsNotYet(vals, it, loaded, v);
      ghost var has := cache;
      CheckOthers(it, lastBlockChecked, v, loaded);
      KeptTwice(useCache, loaded, had, it.start + it.pos, has, loadedValuesBlockId, cache);
    }

    /** The blocks of the window in order, but those that have been checked. */
    method CheckOthers(it: BlockIter, lastBlockChecked: int, v: int, ghost loaded: int)
      requires Valid() && it.start <= it.last < |blocks| && dBlockOffsets == offsets[it.start..it.last + 1]
      requires |offsets| == |blocks| == |AllVals(t, blocks)| && AscendingBlocks(AllVals(t, blocks))
      requires NotYet(AllVals(t, blocks), it, loaded, v, it.start)
      requires forall k: nat :: Skipped(it, loaded, k) <==>
              k == it.start + it.pos || (lastBlockChecked != -1 && k == lastBlockChecked)
      modifies this
      ensures Valid() && Probed(AllVals(t, blocks), it, loaded, v, old(out), out)
      ensures Kept(useCache, old(loadedValuesBlockId), old(cache), loadedValuesBlockId, cache)
    {
      hide *;
      ghost var vals := AllVals(t, blocks);
      KeptNow(useCache, loadedValuesBlockId, cache);
      var block := it.start;
      while block <= it.last
        invariant it.start <= block <= it.last + 1 && Valid() && out == old(out)
        invariant dBlockOffsets == offsets[it.start..it.last + 1]
        invariant NotYet(vals, it, loaded, v, block)
        invariant Kept(useCache, old(loadedValuesBlockId), old(cache), loadedValuesBlockId, cache)
      {
        if block - it.start == it.pos || (lastBlockChecked != -1 && block == lastBlockChecked) {
          NextNotYet(vals, it, loaded, v, block);
          block := block + 1;
          continue;
        }
        KeptLoad(useCache, loadedValuesBlockId, cache, block, vals[block]);
        ghost var mid, has := loadedValuesBlockId, cache;
        LoadBlockValuesToCache(it.start, block);
        KeptTwice(useCache, old(loadedValuesBlockId), old(cache), mid, has, loadedValuesBlockId, cache);
        ProbeInWindow(vals, it, loaded, v, block, out);
        var c := CreateIterator(block, v);
        if c == 0 || c > 0 {
          return;
        }
        NextNotYet(vals, it, loaded, v, block);
        block := block + 1;
      }
      ProbeEnds(vals, it, loaded, v, block, out);
    }

    /** CreateBlocksIterator over a list of probes, in whatever order. */
    method FindAll(probes: seq<Probe>)
      requires Valid() && |blocks| < 0x8000_0000
      requires forall i :: 0 <= i < |probes| ==> GoodProbe(AllVals(t, blocks), probes[i])
      modifies this
      ensures Valid() && out == old(out) + AllPlaces(AllVals(t, blocks), probes)
    {
      hide *;
      ghost var vals := AllVals(t, blocks);
      ghost var before := out;
      NoProbes(vals, out);
      var i := 0;
      while i < |probes|
        invariant 0 <= i <= |probes| && Valid() && out == before + AllPlaces(vals, probes[..i])
      {
        ghost var was, loaded := out, loadedValuesBlockId;
        WindowOf(t, blocks, probes[i]);
        CreateBlocksIterator(probes[i].it, probes[i].v);
        ProbeFindsAll(vals, probes[i], loaded, was, out);
        MoreProbes(vals, probes, i, before, out);
        i := i + 1;
      }
      assert probes[..i] == probes;
    }
  }

  lemma {:induction false} NoProbes(vals: seq<seq<int>>, out: seq<Place>)
    ensures out == out + AllPlaces(vals, [])
  {
  }

  lemma {:induction false} WindowOf(t: ColumnType, blocks: seq<seq<Group>>, p: Probe)
    requires GoodProbe(AllVals(t, blocks), p)
    ensures p.it.start <= p.it.last < |blocks| && p.it.start + p.it.pos <= p.it.last
  {
  }

  lemma {:induction false} MoreProbes(vals: seq<seq<int>>, probes: seq<Probe>, i: nat, before: seq<Place>,
                                      out: seq<Place>)
    requires i < |probes| && out == before + AllPlaces(vals, probes[..i]) + PlacesOf(vals, probes[i].v)
    ensures out == before + AllPlaces(vals, probes[..i + 1])
  {
    hide PlacesOf;
    assert probes[..i + 1][..i] == probes[..i] && probes[..i + 1][i] == probes[i];
  }

  ghost predicate LoadedOk(vals: seq<seq<int>>, loaded: int, values: seq<int>) {
    loaded == -1 || (0 <= loaded < |vals| && values == vals[loaded])
  }

  ghost predicate CacheOk(vals: seq<seq<int>>, cache: map<nat, seq<int>>) {
    forall k :: k in cache ==> k < |vals| && cache[k] == vals[k]
  }

  ghost predicate OffsetsOk(offsets: seq<nat>, part: seq<nat>, from: nat) {
    from + |part| <= |offsets| && part == offsets[from..from + |part|]
  }

  function ViewAll(t: ColumnType, raw: seq<u64>): seq<int> {
    seq(|raw|, i requires 0 <= i < |raw| => W.View(t.Int64?, raw[i]))
  }
}
