/**
  What the secondary index is for: every pair of value and rowid that went in can be read back, and
  nothing else (secondary/builder.cpp, secondary/blockreader.cpp, secondary/iterator.cpp).
 */
module IndexRoundTrip {
  import opened ByteCodec
  import opened Orders
  import opened RowLists
  import opened RowGroups
  import opened RowidIterator
  import opened IndexBuilder
  import W = RowWriter

  /** Value i of block k. */
  predicate At2(blocks: seq<seq<Group>>, k: nat, i: nat) {
    k < |blocks| && i < |blocks[k]|
  }

  lemma {:induction false} GroupOfEntry(signed: bool, gs: seq<Group>, e: Entry) returns (i: nat)
    requires e in Entries(signed, gs)
    ensures i < |gs| && W.View(signed, gs[i].value) == e.value && e.rowid in gs[i].rows
  {
    var n := |gs| - 1;
    var front, last := Entries(signed, gs[..n]), GroupEntries(signed, gs[n]);
    assert e in front || e in last;
    if e in front {
      i := GroupOfEntry(signed, gs[..n], e);
    } else {
      var j :| 0 <= j < |last| && last[j] == e;
      assert gs[n].rows[j] == e.rowid;
      i := n;
    }
  }

  lemma {:induction false} EntryOfGroup(signed: bool, gs: seq<Group>, i: nat, x: u32)
    requires i < |gs| && x in gs[i].rows
    ensures Entry(W.View(signed, gs[i].value), x) in Entries(signed, gs)
    ensures |gs[i].rows| <= |Entries(signed, gs)|
  {
    var n := |gs| - 1;
    if i < n {
      EntryOfGroup(signed, gs[..n], i, x);
    } else {
      var last := GroupEntries(signed, gs[n]);
      var j :| 0 <= j < |gs[n].rows| && gs[n].rows[j] == x;
      assert last[j] == Entry(W.View(signed, gs[n].value), x);
    }
  }

  lemma {:induction false} BlockOfGroup(blocks: seq<seq<Group>>, g: Group) returns (k: nat, i: nat)
    requires g in AllGroups(blocks)
    ensures At2(blocks, k, i) && blocks[k][i] == g
  {
    var n := |blocks| - 1;
    if g in blocks[n] {
      k := n;
      i :| 0 <= i < |blocks[n]| && blocks[n][i] == g;
    } else {
      k, i := BlockOfGroup(blocks[..n], g);
    }
  }

  lemma {:induction false} GroupOfBlock(blocks: seq<seq<Group>>, k: nat, i: nat)
    requires At2(blocks, k, i)
    ensures blocks[k][i] in AllGroups(blocks)
  {
    var n := |blocks| - 1;
    if k < n {
      GroupOfBlock(blocks[..n], k, i);
    }
  }

  /** A pair is in the index exactly when it went into the build: some block has the value with that rowid. */
  lemma {:induction false} PairsStored(signed: bool, blocks: seq<seq<Group>>, total: multiset<Entry>, e: Entry)
    requires Indexed(signed, blocks, total)
    ensures e in total <==>
              exists k: nat, i: nat :: At2(blocks, k, i) && W.View(signed, blocks[k][i].value) == e.value &&
                  e.rowid in blocks[k][i].rows
  {
    var gs := AllGroups(blocks);
    assert e in total <==> e in Entries(signed, gs);
    hide Indexed, Entries, W.View;
    if e in Entries(signed, gs) {
      var j := GroupOfEntry(signed, gs, e);
      var k, i := BlockOfGroup(blocks, gs[j]);
      assert At2(blocks, k, i);
    }
    if k: nat, i: nat :| At2(blocks, k, i) && W.View(signed, blocks[k][i].value) == e.value &&
                         e.rowid in blocks[k][i].rows {
      GroupOfBlock(blocks, k, i);
      var j :| 0 <= j < |gs| && gs[j] == blocks[k][i];
      EntryOfGroup(signed, gs, j, e.rowid);
    }
  }

  /**
    The entry of value i of block k, loaded from the recorded position of the block, describes exactly the
    rowids of that value, so an iterator made from it returns them. The lists of the block must be
    addressable by 32-bit offsets.
   */
  lemma {:induction false} StoredItemReadable(c: Codec, file: seq<u8>, pos: nat, signed: bool, blocks: seq<seq<Group>>,
                                              total: multiset<Entry>, k: nat, i: nat)
    requires c.Lawful() && Indexed(signed, blocks, total) && |total| < 0x1_0000_0000
    requires At(file, pos, FileBytes(c, blocks)) && At2(blocks, k, i) && |PackedRows(c, blocks[k])| < 0x1_0000_0000
    ensures k < |BlockOffsets(c, pos, blocks)| == |blocks|
    ensures var l := LoadBlock(c, file, BlockOffsets(c, pos, blocks)[k], |blocks[k]|);
            && |l.values| == |l.types| == |l.starts| == |l.mins| == |l.maxs| == |l.counts| == |blocks[k]|
            && l.values[i] == blocks[k][i].value
            && Describes(c, file, PackingFrom(l.types[i]), l.meta + l.starts[i], l.mins[i], l.maxs[i], l.counts[i],
                blocks[k][i].rows)
  {
    hide *;
    BlockItems(blocks, k, i);
    ItemSound(signed, blocks, total, k, i);
    BlockOffsetAt(c, pos, blocks, k);
    AtBlock(c, file, pos, blocks, k);
    EntryDescribes(c, file, pos + |FileBytes(c, blocks[..k])|, blocks[k], i);
  }

  lemma {:induction false} BlockItems(blocks: seq<seq<Group>>, k: nat, i: nat)
    requires At2(blocks, k, i)
    ensures k < |blocks| && i < |blocks[k]|
  {
  }

  lemma {:induction false} ItemSound(signed: bool, blocks: seq<seq<Group>>, total: multiset<Entry>, k: nat, i: nat)
    requires Indexed(signed, blocks, total) && At2(blocks, k, i)
    ensures |blocks[k]| <= 128 && 0 < |blocks[k][i].rows| <= |total| && Nondecreasing(blocks[k][i].rows)
  {
    var gs := AllGroups(blocks);
    var rows := blocks[k][i].rows;
    assert |Entries(signed, gs)| == |multiset(Entries(signed, gs))| == |total|;
    assert |blocks[k]| <= 128 && AscendingRows(gs);
    hide Indexed, Entries, Nondecreasing;
    GroupOfBlock(blocks, k, i);
    var j :| 0 <= j < |gs| && gs[j] == blocks[k][i];
    assert gs[j].rows != [] && Nondecreasing(gs[j].rows);
    FirstIn(rows);
    EntryOfGroup(signed, gs, j, rows[0]);
  }

  lemma {:induction false} FirstIn(rows: seq<u32>)
    requires rows != []
    ensures rows[0] in rows
  {
  }

  /** Values are found by order: a value of an earlier place is smaller, across blocks as well. */
  lemma {:induction false} BlocksAscend(signed: bool, blocks: seq<seq<Group>>, total: multiset<Entry>, k: nat, i: nat,
                                        l: nat, j: nat)
    requires Indexed(signed, blocks, total) && At2(blocks, k, i) && At2(blocks, l, j) && (k < l || (k == l && i < j))
    ensures W.View(signed, blocks[k][i].value) < W.View(signed, blocks[l][j].value)
  {
    var gs := AllGroups(blocks);
    assert AscendingValues(signed, gs);
    hide *;
    PlaceOf(blocks, k, i);
    PlaceOf(blocks, l, j);
    PlaceGrows(blocks, k, i, l, j);
    AscendingAt(signed, gs, Place(blocks, k, i), Place(blocks, l, j));
  }

  lemma {:induction false} AscendingAt(signed: bool, gs: seq<Group>, a: nat, b: nat)
    requires AscendingValues(signed, gs) && a < b < |gs|
    ensures W.View(signed, gs[a].value) < W.View(signed, gs[b].value)
  {
  }

  /** Where value i of block k comes in the list of all values. */
  function Place(blocks: seq<seq<Group>>, k: nat, i: nat): nat
    requires k < |blocks|
  {
    |AllGroups(blocks[..k])| + i
  }

  lemma {:induction false} PlaceOf(blocks: seq<seq<Group>>, k: nat, i: nat)
    requires At2(blocks, k, i)
    ensures Place(blocks, k, i) < |AllGroups(blocks)| && AllGroups(blocks)[Place(blocks, k, i)] == blocks[k][i]
    decreases |blocks|
  {
    var n := |blocks| - 1;
    if k < n {
      PlaceOf(blocks[..n], k, i);
      assert blocks[..n][..k] == blocks[..k];
    }
  }

  lemma {:induction false} PlaceGrows(blocks: seq<seq<Group>>, k: nat, i: nat, l: nat, j: nat)
    requires At2(blocks, k, i) && At2(blocks, l, j) && (k < l || (k == l && i < j))
    ensures Place(blocks, k, i) < Place(blocks, l, j)
    decreases l
  {
    if k < l {
      assert blocks[..l][..l - 1] == blocks[..l - 1];
      if k < l - 1 {
        SizesGrow(blocks, k + 1, l);
      }
      assert blocks[..k + 1][..k] == blocks[..k];
    }
  }

  lemma {:induction false} SizesGrow(blocks: seq<seq<Group>>, k: nat, l: nat)
    requires k <= l <= |blocks|
    ensures |AllGroups(blocks[..k])| <= |AllGroups(blocks[..l])|
    decreases l
  {
    if k < l {
      SizesGrow(blocks, k, l - 1);
      assert blocks[..l][..l - 1] == blocks[..l - 1];
    }
  }
}
