/**
  Range scans of the secondary index (secondary/blockreader.cpp, RangeReaderBase_T): from the blocks of a
  window, one callback for every value in range, the first one of each block asking for its row data.
 */
module RangeScan {
  import opened ByteCodec
  import opened Filters
  import opened RowLists
  import opened RowGroups
  import opened IndexBuilder
  import opened IndexBlocks
  import W = RowWriter

  /** A callback: the place of the value, and whether the row data of the block has to be loaded. */
  datatype Hit = Hit(block: nat, item: nat, load: bool)

  // ---------------------------------------------------------------- what a scan has to report

  /** The matches in block k from item i on; the first one loads when nothing of the block was loaded. */
  ghost function HitsFrom(f: Filter, t: ColumnType, vals: seq<seq<int>>, k: nat, i: nat, load: bool): seq<Hit>
    requires k < |vals|
    decreases |vals[k]| - i
  {
    if i >= |vals[k]| then []
    else if EvalRange(f, t, vals[k][i]) then [Hit(k, i, load)] + HitsFrom(f, t, vals, k, i + 1, false)
    else HitsFrom(f, t, vals, k, i + 1, load)
  }

  /** The matches in blocks k to last. */
  ghost function Hits(f: Filter, t: ColumnType, vals: seq<seq<int>>, k: nat, last: nat): seq<Hit>
    requires last < |vals|
    decreases last + 1 - k
  {
    if k > last then [] else HitsFrom(f, t, vals, k, 0, true) + Hits(f, t, vals, k + 1, last)
  }

  ghost predicate NoMatch(f: Filter, t: ColumnType, vals: seq<seq<int>>, k: nat, i: nat) {
    Holds(vals, k, i) ==> !EvalRange(f, t, vals[k][i])
  }

  lemma {:induction false} NoHitsFrom(f: Filter, t: ColumnType, vals: seq<seq<int>>, k: nat, i: nat, load: bool)
    requires k < |vals| && forall j :: i <= j < |vals[k]| ==> NoMatch(f, t, vals, k, j)
    ensures HitsFrom(f, t, vals, k, i, load) == []
    decreases |vals[k]| - i
  {
    if i < |vals[k]| {
      assert NoMatch(f, t, vals, k, i);
      NoHitsFrom(f, t, vals, k, i + 1, load);
    }
  }

  lemma {:induction false} NoHits(f: Filter, t: ColumnType, vals: seq<seq<int>>, k: nat, last: nat)
    requires last < |vals| && forall l: nat, j: nat :: k <= l <= last ==> NoMatch(f, t, vals, l, j)
    ensures Hits(f, t, vals, k, last) == []
    decreases last + 1 - k
  {
    if k <= last {
      hide NoMatch, HitsFrom;
      NoHitsFrom(f, t, vals, k, 0, true);
      NoHits(f, t, vals, k + 1, last);
    }
  }

  /** Once a value of the range has been passed and a later value fails, nothing matches from there on. */
  lemma {:induction false} RangeIsOver(f: Filter, t: ColumnType, vals: seq<seq<int>>, a: int, k: nat, i: nat, last: nat,
                                       load: bool)
    requires AscendingBlocks(vals) && Holds(vals, k, i) && k <= last < |vals|
    requires EvalRange(f, t, a) && a <= vals[k][i] && !EvalRange(f, t, vals[k][i])
    ensures HitsFrom(f, t, vals, k, i, load) == [] && Hits(f, t, vals, k + 1, last) == []
  {
    forall l: nat, j: nat | (l == k && i <= j) || k < l
      ensures NoMatch(f, t, vals, l, j)
    {
      if Holds(vals, l, j) && EvalRange(f, t, vals[l][j]) {
        EvalConvex(f, t, a, vals[l][j], vals[k][i]);
      }
    }
    hide NoMatch, EvalRange, AscendingBlocks;
    NoHitsFrom(f, t, vals, k, i, load);
    NoHits(f, t, vals, k + 1, last);
  }

  /** Between two matches everything matches. */
  lemma {:induction false} AllMatch(f: Filter, t: ColumnType, vals: seq<seq<int>>, a: int, k: nat, i: nat)
    requires AscendingBlocks(vals) && Holds(vals, k, i) && EvalRange(f, t, a) && a <= vals[k][i]
    requires EvalRange(f, t, vals[k][|vals[k]| - 1])
    ensures EvalRange(f, t, vals[k][i])
  {
    var z := |vals[k]| - 1;
    assert Holds(vals, k, z) && (i < z ==> vals[k][i] < vals[k][z]);
    hide AscendingBlocks;
    EvalConvex(f, t, a, vals[k][z], vals[k][i]);
  }

  // ---------------------------------------------------------------- what the reports say

  /** Every report is a match, and it loads exactly when no earlier item of its block matches. */
  ghost predicate IsHit(f: Filter, t: ColumnType, vals: seq<seq<int>>, k: nat, i: nat, load: bool, from: nat,
                        loaded: bool) {
    && Holds(vals, k, i) && from <= i && EvalRange(f, t, vals[k][i])
    && (load <==> !loaded && forall j :: from <= j < i ==> NoMatch(f, t, vals, k, j))
  }

  lemma {:induction false} HitsFromExact(f: Filter, t: ColumnType, vals: seq<seq<int>>, k: nat, from: nat, load: bool,
                                         h: Hit)
    requires k < |vals|
    ensures h in HitsFrom(f, t, vals, k, from, load) <==>
            h.block == k && IsHit(f, t, vals, k, h.item, h.load, from, !load)
    decreases |vals[k]| - from
  {
    if from < |vals[k]| {
      if EvalRange(f, t, vals[k][from]) {
        HitsFromExact(f, t, vals, k, from + 1, false, h);
        FirstMatches(f, t, vals, k, from, load, h);
      } else {
        HitsFromExact(f, t, vals, k, from + 1, load, h);
        FirstMisses(f, t, vals, k, from, load, h);
      }
    }
  }

  lemma {:induction false} FirstMatches(f: Filter, t: ColumnType, vals: seq<seq<int>>, k: nat, from: nat, load: bool,
                                        h: Hit)
    requires Holds(vals, k, from) && EvalRange(f, t, vals[k][from])
    ensures IsHit(f, t, vals, k, h.item, h.load, from, !load) <==>
              (h.item == from && h.load == load) || IsHit(f, t, vals, k, h.item, h.load, from + 1, true)
  {
    hide EvalRange;
    if h.item > from {
      assert !NoMatch(f, t, vals, k, from);
    }
  }

  lemma {:induction false} FirstMisses(f: Filter, t: ColumnType, vals: seq<seq<int>>, k: nat, from: nat, load: bool,
                                       h: Hit)
    requires Holds(vals, k, from) && !EvalRange(f, t, vals[k][from])
    ensures IsHit(f, t, vals, k, h.item, h.load, from, !load) <==> IsHit(f, t, vals, k, h.item, h.load, from + 1, !load)
  {
    hide EvalRange;
    assert NoMatch(f, t, vals, k, from);
    if h.item > from {
      assert (forall j :: from <= j < h.item ==> NoMatch(f, t, vals, k, j)) <==>
              (forall j :: from + 1 <= j < h.item ==> NoMatch(f, t, vals, k, j));
    }
  }

  /** Exactly the matches of the window are reported. */
  lemma {:induction false} HitsExact(f: Filter, t: ColumnType, vals: seq<seq<int>>, k: nat, last: nat, h: Hit)
    requires last < |vals|
    ensures h in Hits(f, t, vals, k, last) <==> k <= h.block <= last && IsHit(f, t, vals, h.block, h.item, h.load, 0,
            false)
    decreases last + 1 - k
  {
    if k <= last {
      HitsFromExact(f, t, vals, k, 0, true, h);
      hide IsHit, HitsFrom;
      HitsExact(f, t, vals, k + 1, last, h);
    }
  }

  predicate Before(a: Hit, b: Hit) {
    a.block < b.block || (a.block == b.block && a.item < b.item)
  }

  ghost predicate InOrder(s: seq<Hit>) {
    forall i, j :: 0 <= i < j < |s| ==> Before(s[i], s[j])
  }

  lemma {:induction false} JoinInOrder(a: seq<Hit>, b: seq<Hit>)
    requires InOrder(a) && InOrder(b) && forall x, y :: x in a && y in b ==> Before(x, y)
    ensures InOrder(a + b)
  {
    var s := a + b;
    hide Before;
    forall i, j | 0 <= i < j < |s| ensures Before(s[i], s[j]) {
      if i < |a| <= j {
        assert s[i] in a && s[j] in b;
      }
    }
  }

  lemma {:induction false} HitsFromInOrder(f: Filter, t: ColumnType, vals: seq<seq<int>>, k: nat, from: nat, load: bool)
    requires k < |vals|
    ensures InOrder(HitsFrom(f, t, vals, k, from, load))
    decreases |vals[k]| - from
  {
    if from < |vals[k]| {
      if EvalRange(f, t, vals[k][from]) {
        HitsFromInOrder(f, t, vals, k, from + 1, false);
        forall y | y in HitsFrom(f, t, vals, k, from + 1, false) ensures Before(Hit(k, from, load), y) {
          HitsFromExact(f, t, vals, k, from + 1, false, y);
        }
        hide EvalRange;
        JoinInOrder([Hit(k, from, load)], HitsFrom(f, t, vals, k, from + 1, false));
      } else {
        HitsFromInOrder(f, t, vals, k, from + 1, load);
      }
    }
  }

  /** Reports come in order of value, so none comes twice. */
  lemma {:induction false} HitsInOrder(f: Filter, t: ColumnType, vals: seq<seq<int>>, k: nat, last: nat)
    requires last < |vals|
    ensures InOrder(Hits(f, t, vals, k, last))
    decreases last + 1 - k
  {
    if k <= last {
      HitsFromInOrder(f, t, vals, k, 0, true);
      HitsInOrder(f, t, vals, k + 1, last);
      var a, b := HitsFrom(f, t, vals, k, 0, true), Hits(f, t, vals, k + 1, last);
      forall x, y | x in a && y in b ensures Before(x, y) {
        HitsFromExact(f, t, vals, k, 0, true, x);
        HitsExact(f, t, vals, k + 1, last, y);
      }
      hide InOrder;
      JoinInOrder(a, b);
    }
  }

  // ---------------------------------------------------------------- the scan

  /** Some value at or before item i is known to match: a, or the last one when i is behind it. */
  ghost predicate Anchored(f: Filter, t: ColumnType, a: int, values: seq<int>, i: nat) {
    EvalRange(f, t, a) && if i < |values| then a <= values[i] else LastMatches(f, t, values)
  }

  ghost predicate LastMatches(f: Filter, t: ColumnType, values: seq<int>) {
    values != [] && EvalRange(f, t, values[|values| - 1])
  }

  lemma {:induction false} AnchorFacts(f: Filter, t: ColumnType, a: int, values: seq<int>, i: nat)
    requires values != []
    ensures Anchored(f, t, a, values, i) ==>
              EvalRange(f, t, a) && (if i < |values| then a <= values[i] else LastMatches(f, t, values))
    ensures LastMatches(f, t, values) <==> EvalRange(f, t, values[|values| - 1])
  {
  }

  // ---------------------------------------------------------------- how far a scan reads

  ghost predicate HasMatch(f: Filter, t: ColumnType, vals: seq<seq<int>>, k: nat)
    requires k < |vals|
  {
    HitsFrom(f, t, vals, k, 0, true) != []
  }

  /**
    A scan reads on behind block k: if the block has a match, because its last value matches; otherwise because it
    does not lie behind the range and no block before it had a match.
   */
  ghost predicate ReadsOn(f: Filter, t: ColumnType, vals: seq<seq<int>>, start: nat, k: nat)
    requires k < |vals|
  {
    if HasMatch(f, t, vals, k) then LastMatches(f, t, vals[k])
    else
      && vals[k] != [] && CmpRange(f, t, vals[k][0], vals[k][|vals[k]| - 1]) != 1
      && (k > start ==> !HasMatch(f, t, vals, k - 1))
  }

  /** A scan of blocks start to last has read those before end, and stopped where it should. */
  ghost predicate ReadUpTo(f: Filter, t: ColumnType, vals: seq<seq<int>>, start: nat, last: nat, end: nat)
    requires last < |vals|
  {
    start <= last ==>
      && start < end <= last + 1
      && (forall k :: start <= k < end - 1 ==> ReadsOn(f, t, vals, start, k))
      && (end <= last ==> !ReadsOn(f, t, vals, start, end - 1))
  }

  lemma {:induction false} SomeMatch(f: Filter, t: ColumnType, vals: seq<seq<int>>, k: nat, i: nat)
    requires Holds(vals, k, i) && EvalRange(f, t, vals[k][i])
    ensures HasMatch(f, t, vals, k)
  {
    var load := forall j :: 0 <= j < i ==> NoMatch(f, t, vals, k, j);
    HitsFromExact(f, t, vals, k, 0, true, Hit(k, i, load));
  }

  lemma {:induction false} MatchIs(f: Filter, t: ColumnType, vals: seq<seq<int>>, k: nat)
    requires k < |vals|
    ensures HasMatch(f, t, vals, k) <==> HitsFrom(f, t, vals, k, 0, true) != []
  {
    hide HitsFrom;
  }

  lemma {:induction false} ReadsOnIs(f: Filter, t: ColumnType, vals: seq<seq<int>>, start: nat, k: nat)
    requires k < |vals| && vals[k] != []
    ensures HasMatch(f, t, vals, k) ==> (ReadsOn(f, t, vals, start, k) <==> LastMatches(f, t, vals[k]))
    ensures !HasMatch(f, t, vals, k) ==>
              (ReadsOn(f, t, vals, start, k) <==> CmpRange(f, t, vals[k][0], vals[k][|vals[k]| - 1]) != 1 &&
                                                  (k > start ==> !HasMatch(f, t, vals, k - 1)))
  {
    hide HasMatch, LastMatches, CmpRange;
  }

  /** A scan has read on behind every block before block k. */
  ghost predicate Reading(f: Filter, t: ColumnType, vals: seq<seq<int>>, start: nat, k: nat)
    requires k <= |vals|
  {
    start <= k && forall j :: start <= j < k ==> ReadsOn(f, t, vals, start, j)
  }

  lemma {:induction false} ReadingStarts(f: Filter, t: ColumnType, vals: seq<seq<int>>, start: nat)
    requires start <= |vals|
    ensures Reading(f, t, vals, start, start)
  {
  }

  lemma {:induction false} ReadingStops(f: Filter, t: ColumnType, vals: seq<seq<int>>, start: nat, last: nat, k: nat)
    requires k <= last < |vals| && Reading(f, t, vals, start, k)
    requires k == last || !ReadsOn(f, t, vals, start, k)
    ensures ReadUpTo(f, t, vals, start, last, k + 1)
  {
    hide ReadsOn;
  }

  lemma {:induction false} ReadingPast(f: Filter, t: ColumnType, vals: seq<seq<int>>, start: nat, last: nat, k: nat)
    requires k <= last < |vals| && Reading(f, t, vals, start, k) && ReadsOn(f, t, vals, start, k)
    ensures start <= k && Reading(f, t, vals, start, k + 1)
    ensures k == last ==> ReadUpTo(f, t, vals, start, last, k + 1)
  {
    hide ReadsOn;
  }

  lemma {:induction false} ReadingFrom(f: Filter, t: ColumnType, vals: seq<seq<int>>, start: nat, k: nat)
    requires k <= |vals| && Reading(f, t, vals, start, k)
    ensures start <= k
  {
    hide ReadsOn;
  }

  lemma {:induction false} NothingToRead(f: Filter, t: ColumnType, vals: seq<seq<int>>, start: nat, last: nat)
    requires last < |vals|
    ensures start > last ==> ReadUpTo(f, t, vals, start, last, start)
  {
    hide ReadsOn;
  }

  /** The first match has not been found yet: what there is to report is in blocks k to last. */
  ghost predicate Searching(f: Filter, t: ColumnType, vals: seq<seq<int>>, start: nat, last: nat, k: nat,
                            target: seq<Hit>)
    requires last < |vals|
  {
    && start <= k && target == Hits(f, t, vals, k, last)
    && (start < k <= last + 1 ==> !HasMatch(f, t, vals, k - 1))
    && (k <= last ==> Reading(f, t, vals, start, k)) && (k > last ==> ReadUpTo(f, t, vals, start, last, k))
  }

  /** All values are values of the column type. */
  ghost predicate InType(t: ColumnType, vals: seq<seq<int>>) {
    forall k: nat, i: nat :: Holds(vals, k, i) ==> Lowest(t) <= vals[k][i] <= Highest(t)
  }

  /** A stored index of a column. */
  ghost predicate GoodIndex(codec: Codec, file: seq<u8>, offsets: seq<nat>, t: ColumnType, totalValues: nat,
                            blocks: seq<seq<Group>>) {
    && StoredBlocks(codec, file, offsets, blocks) && Blocked(blocks)
    && totalValues == |AllGroups(blocks)|
    && AscendingBlocks(AllVals(t, blocks)) && InType(t, AllVals(t, blocks))
  }

  class RangeReader {
    const codec: Codec
    const file: seq<u8>
    const offsets: seq<nat>       // the table of block offsets in the file
    const t: ColumnType
    const totalValues: nat
    ghost const blocks: seq<seq<Group>>

    var offPos: nat               // entry the offset reader stands at
    var dValues: seq<int>         // values of the loaded block
    var valCur: nat
    var valCount: nat
    var blockItCreated: int
    var blockCur: nat
    var out: seq<Hit>             // callbacks made

    ghost predicate Valid() {
      GoodIndex(codec, file, offsets, t, totalValues, blocks)
    }

    constructor (codec: Codec, file: seq<u8>, offsets: seq<nat>, t: ColumnType, totalValues: nat,
                 ghost blocks: seq<seq<Group>>)
      requires GoodIndex(codec, file, offsets, t, totalValues, blocks)
      ensures Valid() && out == [] && this.blocks == blocks && this.t == t
    {
      hide GoodIndex;
      this.codec, this.file, this.offsets, this.t, this.totalValues, this.blocks := codec, file, offsets, t,
          totalValues, blocks;
      offPos, dValues, valCur, valCount, blockItCreated, blockCur, out := 0, [], 0, 0, -1, 0, [];
    }

    /** Reads the offset of the next block and decodes its values. */
    method LoadValues()
      requires Valid() && blockCur == offPos < |blocks|
      modifies this`offPos, this`dValues, this`valCount
      ensures Valid() && offPos == old(offPos) + 1
      ensures dValues == AllVals(t, blocks)[blockCur] && valCount == |dValues| > 0
    {
      hide AscendingBlocks, At, BlockBytes, Codec.Lawful, ReadVec, AllGroups, W.View;
      ValuesBack(codec, file, offsets, blocks, blockCur);
      var off := offsets[offPos];
      offPos := offPos + 1;
      var raw := codec.decodeValues(ReadVec(file, off).0, CalcNumBlockValues(|offsets|, totalValues, blockCur));
      dValues := seq(|raw|, i requires 0 <= i < |raw| => W.View(t.Int64?, raw[i]));
      valCount := |dValues|;
    }

    /** The values of the loaded block are in place. */
    ghost predicate Loaded()
      reads this
    {
      && blockCur < |blocks|
      && dValues == AllVals(t, blocks)[blockCur] && valCount == |dValues| > 0
    }

    /** Looks for the first match in the loaded block and reports it. */
    method WarmupBlockIterators(f: Filter)
      requires blockCur < |blocks| && Loaded() && blockItCreated == -1
      modifies this`valCur, this`out, this`blockItCreated
      ensures Loaded() && valCur <= valCount
      ensures old(out) + HitsFrom(f, t, AllVals(t, blocks), blockCur, 0, true) == out +
              HitsFrom(f, t, AllVals(t, blocks), blockCur, valCur, false)
      ensures blockItCreated == -1 ==> out == old(out) && valCur == valCount
      ensures blockItCreated != -1 ==> blockItCreated == blockCur && 0 < valCur && EvalRange(f, t, dValues[valCur - 1])
    {
      hide AllVals, EvalRange;
      ghost var vals := AllVals(t, blocks);
      valCur := 0;
      while valCur < valCount
        invariant valCur <= valCount && out == old(out) && blockItCreated == -1
        invariant HitsFrom(f, t, vals, blockCur, 0, true) == HitsFrom(f, t, vals, blockCur, valCur, true)
      {
        if EvalRange(f, t, dValues[valCur]) {
          out := out + [Hit(blockCur, valCur, true)];
          blockItCreated := blockCur;
          valCur := valCur + 1;
          return;
        }
        valCur := valCur + 1;
      }
    }

    /**
      Reports the matches from the current item to the end of the loaded block. A false result says that
      the range is over. Some value at or before the current one, a, is known to match.
     */
    method AddBlockIterators(f: Filter, ghost a: int, ghost last: nat) returns (more: bool)
      requires Valid() && blockCur < |blocks| && Loaded() && valCur <= valCount && blockCur <= last < |blocks|
      requires blockItCreated <= blockCur
      requires Anchored(f, t, a, dValues, valCur)
      modifies this`valCur, this`out, this`blockItCreated
      ensures dValues == old(dValues) && blockItCreated <= blockCur
      ensures out == old(out) + HitsFrom(f, t, AllVals(t, blocks), blockCur, old(valCur),
              old(blockItCreated) != blockCur)
      ensures more <==> LastMatches(f, t, dValues)
      ensures !more ==> Hits(f, t, AllVals(t, blocks), blockCur + 1, last) == []
    {
      hide *;
      BlockFacts();
      AnchorFacts(f, t, a, dValues, valCur);
      ghost var vals := AllVals(t, blocks);
      ghost var k, from := blockCur, valCur;
      ghost var target := out + HitsFrom(f, t, vals, k, from, blockItCreated != k);
      if valCur >= valCount {
        NothingLeft(f, t, vals, k, valCur, blockItCreated != k, out);
        return true;
      }
      if !EvalRange(f, t, dValues[valCount - 1]) {
        while valCur < valCount
          invariant from <= valCur <= valCount && blockItCreated <= k
          invariant out + HitsFrom(f, t, vals, k, valCur, blockItCreated != k) == target
          invariant valCur < valCount ==> a <= dValues[valCur]
          invariant valCur > from ==> EvalRange(f, t, dValues[valCur - 1])
        {
          if !EvalRange(f, t, dValues[valCur]) {
            Over(f, t, vals, a, k, valCur, last, blockItCreated != k, out);
            return false;
          }
          Report(f, a, target);
        }
        return false;
      }
      while valCur < valCount
        invariant from <= valCur <= valCount && blockItCreated <= k
        invariant out + HitsFrom(f, t, vals, k, valCur, blockItCreated != k) == target
        invariant valCur < valCount ==> a <= dValues[valCur]
      {
        Places(vals, k, valCur);
        AllMatch(f, t, vals, a, k, valCur);
        Report(f, a, target);
      }
      NothingLeft(f, t, vals, k, valCur, blockItCreated != k, out);
      return true;
    }

    lemma {:induction false} BlockFacts()
      requires Valid() && blockCur < |blocks| && Loaded()
      ensures AscendingBlocks(AllVals(t, blocks)) && |AllVals(t, blocks)| == |blocks|
      ensures dValues == AllVals(t, blocks)[blockCur] && valCount == |dValues| > 0
    {
      hide AscendingBlocks, AllVals;
    }

    /** Reports the current item and goes on to the next. */
    method Report(f: Filter, ghost a: int, ghost target: seq<Hit>)
      requires blockCur < |AllVals(t, blocks)| && AscendingBlocks(AllVals(t, blocks)) && blockItCreated <= blockCur
      requires dValues == AllVals(t, blocks)[blockCur] && valCur < |dValues|
      requires EvalRange(f, t, dValues[valCur]) && a <= dValues[valCur]
      requires out + HitsFrom(f, t, AllVals(t, blocks), blockCur, valCur, blockItCreated != blockCur) == target
      modifies this`out, this`blockItCreated, this`valCur
      ensures valCur == old(valCur) + 1 && blockItCreated == blockCur
      ensures out + HitsFrom(f, t, AllVals(t, blocks), blockCur, valCur, false) == target
      ensures valCur < |dValues| ==> a <= dValues[valCur]
    {
      hide *;
      ValuesStep(AllVals(t, blocks), blockCur, valCur);
      Reported(f, t, AllVals(t, blocks), blockCur, valCur, blockItCreated != blockCur, out);
      out := out + [Hit(blockCur, valCur, blockItCreated != blockCur)];
      blockItCreated := blockCur;
      valCur := valCur + 1;
    }

    /**
      CreateBlocksIterator: reports the matches in blocks start to last. It reads no block behind the first one that
      ends the range.
     */
    method CreateBlocksIterator(start: nat, last: nat, f: Filter)
      requires Valid() && out == [] && last < |blocks|
      modifies this
      ensures out == Hits(f, t, AllVals(t, blocks), start, last)
      ensures ReadUpTo(f, t, AllVals(t, blocks), start, last, offPos)
    {
      hide *;
      ghost var vals := AllVals(t, blocks);
      ghost var target := Hits(f, t, vals, start, last);
      valCur, valCount, blockItCreated, blockCur := 0, 0, -1, start;
      offPos := start;
      IndexFacts();
      SearchStarts(f, t, vals, start, last);
      while blockCur <= last
        invariant offPos == blockCur && blockItCreated == -1 && out == []
        invariant Searching(f, t, vals, start, last, blockCur, target)
      {
        LoadValues();
        SearchGoesOn(f, t, vals, start, last, blockCur, target);
        var cmp := CmpRange(f, t, dValues[0], dValues[|dValues| - 1]);
        if cmp == 1 {
          ReadingStops(f, t, vals, start, last, blockCur);
          break;
        }
        if cmp == -1 {
          blockCur := blockCur + 1;
          continue;
        }
        IsLoaded();
        WarmupBlockIterators(f);
        if blockItCreated != -1 {
          Places(vals, blockCur, valCur - 1);
          SomeMatch(f, t, vals, blockCur, valCur - 1);
          AddFollowingBlocks(f, start, last, target);
          return;
        }
        NothingLeft(f, t, vals, blockCur, valCur, false, out);
        blockCur := blockCur + 1;
      }
      SearchEnds(f, t, vals, start, last, blockCur, target);
    }

    /** The search proper: from the first match on, whole blocks, parts of blocks, or nothing more. */
    method AddFollowingBlocks(f: Filter, ghost start: nat, last: nat, ghost target: seq<Hit>)
      requires Valid() && last < |blocks| && blockCur <= last && offPos == blockCur + 1
      requires dValues == AllVals(t, blocks)[blockCur] && valCount == |dValues|
      requires 0 < valCur <= valCount && EvalRange(f, t, dValues[valCur - 1]) && blockItCreated == blockCur
      requires out + HitsFrom(f, t, AllVals(t, blocks), blockCur, valCur, false) +
               Hits(f, t, AllVals(t, blocks), blockCur + 1, last) == target
      requires HasMatch(f, t, AllVals(t, blocks), blockCur) && Reading(f, t, AllVals(t, blocks), start, blockCur)
      modifies this
      ensures out == target && ReadUpTo(f, t, AllVals(t, blocks), start, last, offPos)
    {
      hide *;
      ghost var vals := AllVals(t, blocks);
      IndexFacts();
      ghost var a := dValues[valCur - 1];
      StartAnchor(f, t, vals, blockCur, valCur);
      ReadingFrom(f, t, vals, start, blockCur);
      while true
        invariant start <= blockCur <= last && offPos == blockCur + 1 && blockItCreated <= blockCur
        invariant dValues == vals[blockCur] && 0 <= valCur <= valCount == |dValues| && valCount > 0
        invariant Anchored(f, t, a, dValues, valCur)
        invariant out + HitsFrom(f, t, vals, blockCur, valCur, blockItCreated != blockCur) +
                  Hits(f, t, vals, blockCur + 1, last) == target
        invariant HasMatch(f, t, vals, blockCur) && Reading(f, t, vals, start, blockCur)
        decreases last - blockCur
      {
        NoBlocksLeft(f, t, vals, blockCur + 1, last);
        IsLoaded();
        ReadsOnIs(f, t, vals, start, blockCur);
        var more := AddBlockIterators(f, a, last);
        if !more {
          ReadingStops(f, t, vals, start, last, blockCur);
          AppendNothing(out);
          return;
        }
        ReadingPast(f, t, vals, start, last, blockCur);
        blockCur := blockCur + 1;
        if blockCur > last {
          AppendNothing(out);
          break;
        }
        BlockHits(f, t, vals, blockCur, last);
        NextAnchor(f, t, vals, blockCur, last, out);
        a := dValues[|dValues| - 1];
        LoadValues();
        valCur := 0;
        if !EvalRange(f, t, dValues[0]) {
          MatchIs(f, t, vals, blockCur);
          ReadsOnIs(f, t, vals, start, blockCur);
          ReadingStops(f, t, vals, start, last, blockCur);
          break;
        }
        Places(vals, blockCur, 0);
        SomeMatch(f, t, vals, blockCur, 0);
      }
    }

    lemma {:induction false} IsLoaded()
      requires blockCur < |blocks| && dValues == AllVals(t, blocks)[blockCur] && valCount == |dValues| > 0
      ensures Loaded()
    {
    }

    lemma {:induction false} IndexFacts()
      requires Valid()
      ensures var vals := AllVals(t, blocks); |vals| == |blocks| && AscendingBlocks(vals) && InType(t, vals)
    {
    }
  }

  lemma {:induction false} AppendNothing<T>(s: seq<T>)
    ensures s + [] == s
  {
  }

  /** What comparing a block with the range says about the matches. */
  lemma {:induction false} CmpFacts(f: Filter, t: ColumnType, vals: seq<seq<int>>, k: nat, last: nat)
    requires AscendingBlocks(vals) && InType(t, vals) && k <= last < |vals|
    ensures vals[k] != []
    ensures CmpRange(f, t, vals[k][0], vals[k][|vals[k]| - 1]) == 1 ==> Hits(f, t, vals, k, last) == []
    ensures CmpRange(f, t, vals[k][0], vals[k][|vals[k]| - 1]) == -1 ==> HitsFrom(f, t, vals, k, 0, true) == []
  {
    var z := |vals[k]| - 1;
    var cmp := CmpRange(f, t, vals[k][0], vals[k][z]);
    assert Holds(vals, k, 0) && Holds(vals, k, z);
    hide CmpRange, EvalRange, HitsFrom, Hits;
    forall l: nat, j: nat | k <= l <= last && cmp == 1 ensures NoMatch(f, t, vals, l, j) {
      if Holds(vals, l, j) {
        CmpRules(f, t, vals[k][0], vals[k][z], vals[l][j]);
      }
    }
    forall j: nat | 0 <= j && cmp == -1 ensures NoMatch(f, t, vals, k, j) {
      if Holds(vals, k, j) {
        CmpRules(f, t, vals[k][0], vals[k][z], vals[k][j]);
      }
    }
    hide AscendingBlocks, InType, NoMatch;
    if cmp == 1 {
      NoHits(f, t, vals, k, last);
    }
    if cmp == -1 {
      NoHitsFrom(f, t, vals, k, 0, true);
    }
  }

  /** The same for what is to be reported, and whether the scan reads on. */
  lemma {:induction false} BlockJudged(f: Filter, t: ColumnType, vals: seq<seq<int>>, start: nat, k: nat, last: nat)
    requires AscendingBlocks(vals) && InType(t, vals) && start <= k <= last < |vals|
    requires start < k ==> !HasMatch(f, t, vals, k - 1)
    ensures vals[k] != []
    ensures Hits(f, t, vals, k, last) == HitsFrom(f, t, vals, k, 0, true) + Hits(f, t, vals, k + 1, last)
    ensures HitsFrom(f, t, vals, k, 0, true) == [] ==> Hits(f, t, vals, k, last) == Hits(f, t, vals, k + 1, last)
    ensures k == last ==> Hits(f, t, vals, k + 1, last) == []
    ensures var cmp := CmpRange(f, t, vals[k][0], vals[k][|vals[k]| - 1]);
            && (cmp == 1 ==> Hits(f, t, vals, k, last) == [] && !ReadsOn(f, t, vals, start, k))
            && (cmp == -1 ==> HitsFrom(f, t, vals, k, 0, true) == [] && !HasMatch(f, t, vals, k))
            && (cmp != 1 && HitsFrom(f, t, vals, k, 0, true) == [] ==>
                    !HasMatch(f, t, vals, k) && ReadsOn(f, t, vals, start, k))
  {
    hide *;
    NoBlocksLeft(f, t, vals, k + 1, last);
    CmpFacts(f, t, vals, k, last);
    BlockHits(f, t, vals, k, last);
    MatchIs(f, t, vals, k);
    ReadsOnIs(f, t, vals, start, k);
  }

  lemma {:induction false} BlockHits(f: Filter, t: ColumnType, vals: seq<seq<int>>, k: nat, last: nat)
    requires k <= last < |vals|
    ensures Hits(f, t, vals, k, last) == HitsFrom(f, t, vals, k, 0, true) + Hits(f, t, vals, k + 1, last)
    ensures HitsFrom(f, t, vals, k, 0, true) == [] ==> Hits(f, t, vals, k, last) == Hits(f, t, vals, k + 1, last)
  {
    hide HitsFrom;
  }

  lemma {:induction false} SearchStarts(f: Filter, t: ColumnType, vals: seq<seq<int>>, start: nat, last: nat)
    requires last < |vals|
    ensures Searching(f, t, vals, start, last, start, Hits(f, t, vals, start, last))
  {
    hide *;
    NothingToRead(f, t, vals, start, last);
    if start <= last {
      ReadingStarts(f, t, vals, start);
    }
    IsSearching(f, t, vals, start, last, start, Hits(f, t, vals, start, last));
  }

  lemma {:induction false} IsSearching(f: Filter, t: ColumnType, vals: seq<seq<int>>, start: nat, last: nat, k: nat,
                                       target: seq<Hit>)
    requires last < |vals|
    ensures Searching(f, t, vals, start, last, k, target) <==>
              start <= k && target == Hits(f, t, vals, k, last) &&
              (start < k <= last + 1 ==> !HasMatch(f, t, vals, k - 1)) &&
              (k <= last ==> Reading(f, t, vals, start, k)) && (k > last ==> ReadUpTo(f, t, vals, start, last, k))
  {
    hide HasMatch, Reading, ReadUpTo, Hits;
  }

  /** A block without a match is passed over, unless it lies behind the range. */
  lemma {:induction false} SearchGoesOn(f: Filter, t: ColumnType, vals: seq<seq<int>>, start: nat, last: nat, k: nat,
                                        target: seq<Hit>)
    requires AscendingBlocks(vals) && InType(t, vals) && k <= last < |vals|
    requires Searching(f, t, vals, start, last, k, target)
    ensures vals[k] != [] && start <= k && Reading(f, t, vals, start, k)
    ensures target == HitsFrom(f, t, vals, k, 0, true) + Hits(f, t, vals, k + 1, last)
    ensures var cmp := CmpRange(f, t, vals[k][0], vals[k][|vals[k]| - 1]);
            && (cmp == 1 ==> target == [] && !ReadsOn(f, t, vals, start, k))
            && (cmp == -1 ==> HitsFrom(f, t, vals, k, 0, true) == [])
            && (cmp != 1 && HitsFrom(f, t, vals, k, 0, true) == [] ==>
                    Searching(f, t, vals, start, last, k + 1, target))
  {
    hide *;
    IsSearching(f, t, vals, start, last, k, target);
    IsSearching(f, t, vals, start, last, k + 1, target);
    BlockJudged(f, t, vals, start, k, last);
    var cmp := CmpRange(f, t, vals[k][0], vals[k][|vals[k]| - 1]);
    ReadingFrom(f, t, vals, start, k);
    if cmp != 1 && HitsFrom(f, t, vals, k, 0, true) == [] {
      ReadingPast(f, t, vals, start, last, k);
    }
  }

  lemma {:induction false} SearchEnds(f: Filter, t: ColumnType, vals: seq<seq<int>>, start: nat, last: nat, k: nat,
                                      target: seq<Hit>)
    requires last < |vals|
    ensures k > last && Searching(f, t, vals, start, last, k, target) ==>
              target == [] && ReadUpTo(f, t, vals, start, last, k)
  {
    hide HasMatch, Reading, ReadUpTo;
  }

  lemma {:induction false} StartAnchor(f: Filter, t: ColumnType, vals: seq<seq<int>>, k: nat, i: nat)
    requires AscendingBlocks(vals) && k < |vals| && 0 < i <= |vals[k]| && EvalRange(f, t, vals[k][i - 1])
    ensures Anchored(f, t, vals[k][i - 1], vals[k], i)
  {
    hide EvalRange;
    ValuesStep(vals, k, i - 1);
  }

  /**
    The last value of a block that matches is below the next block; when the next block starts with a miss,
    the range is over.
   */
  lemma {:induction false} NextAnchor(f: Filter, t: ColumnType, vals: seq<seq<int>>, k: nat, last: nat, out: seq<Hit>)
    requires AscendingBlocks(vals) && 0 < k <= last < |vals| && LastMatches(f, t, vals[k - 1])
    ensures vals[k - 1] != [] && vals[k] != []
    ensures EvalRange(f, t, vals[k][0]) ==> Anchored(f, t, vals[k - 1][|vals[k - 1]| - 1], vals[k], 0)
    ensures !EvalRange(f, t, vals[k][0]) ==> out + Hits(f, t, vals, k, last) == out
    ensures !EvalRange(f, t, vals[k][0]) ==> HitsFrom(f, t, vals, k, 0, true) == []
    ensures out + Hits(f, t, vals, k, last) == out + HitsFrom(f, t, vals, k, 0, true) + Hits(f, t, vals, k + 1, last)
  {
    var a := vals[k - 1][|vals[k - 1]| - 1];
    assert Holds(vals, k - 1, |vals[k - 1]| - 1) && Holds(vals, k, 0) && a < vals[k][0] && EvalRange(f, t, a);
    hide EvalRange, AscendingBlocks;
    BlockHits(f, t, vals, k, last);
    assert out + (HitsFrom(f, t, vals, k, 0, true) + Hits(f, t, vals, k + 1, last)) == out +
           HitsFrom(f, t, vals, k, 0, true) + Hits(f, t, vals, k + 1, last);
    if !EvalRange(f, t, vals[k][0]) {
      RangeIsOver(f, t, vals, a, k, 0, last, true);
    }
  }

  lemma {:induction false} NoBlocksLeft(f: Filter, t: ColumnType, vals: seq<seq<int>>, k: nat, last: nat)
    requires last < |vals|
    ensures k > last ==> Hits(f, t, vals, k, last) == []
  {
  }

  lemma {:induction false} Places(vals: seq<seq<int>>, k: nat, i: nat)
    requires k < |vals| && i < |vals[k]|
    ensures Holds(vals, k, i)
  {
  }

  lemma {:induction false} NothingLeft(f: Filter, t: ColumnType, vals: seq<seq<int>>, k: nat, i: nat, load: bool,
                                       out: seq<Hit>)
    requires k < |vals| && |vals[k]| <= i
    ensures out + HitsFrom(f, t, vals, k, i, load) == out
  {
  }

  lemma {:induction false} Over(f: Filter, t: ColumnType, vals: seq<seq<int>>, a: int, k: nat, i: nat, last: nat,
                                load: bool, out: seq<Hit>)
    requires AscendingBlocks(vals) && k <= last < |vals| && i < |vals[k]|
    requires EvalRange(f, t, a) && a <= vals[k][i] && !EvalRange(f, t, vals[k][i])
    ensures out + HitsFrom(f, t, vals, k, i, load) == out && Hits(f, t, vals, k + 1, last) == []
  {
    hide AscendingBlocks, EvalRange, HitsFrom, Hits;
    RangeIsOver(f, t, vals, a, k, i, last, load);
  }

  lemma {:induction false} Reported(f: Filter, t: ColumnType, vals: seq<seq<int>>, k: nat, i: nat, load: bool,
                                    out: seq<Hit>)
    requires k < |vals| && i < |vals[k]| && EvalRange(f, t, vals[k][i])
    ensures out + [Hit(k, i, load)] + HitsFrom(f, t, vals, k, i + 1, false) == out + HitsFrom(f, t, vals, k, i, load)
  {
    hide EvalRange;
    var rest := HitsFrom(f, t, vals, k, i + 1, false);
    assert HitsFrom(f, t, vals, k, i, load) == [Hit(k, i, load)] + rest;
    assert out + [Hit(k, i, load)] + rest == out + ([Hit(k, i, load)] + rest);
  }

  lemma {:induction false} ValuesStep(vals: seq<seq<int>>, k: nat, i: nat)
    requires AscendingBlocks(vals) && k < |vals| && i < |vals[k]|
    ensures i + 1 < |vals[k]| ==> vals[k][i] < vals[k][i + 1]
  {
    assert Holds(vals, k, i) && (i + 1 < |vals[k]| ==> Holds(vals, k, i + 1));
  }
}
