/**
  Blocks of the secondary index: up to 128 values, each with its rowids, and the bytes a block is stored
  as (secondary/builder.cpp, RowWriter_T; secondary/blockreader.cpp, BlockValues_T and BlockData_t).
 */
module RowGroups {
  import opened ByteCodec
  import opened Orders
  import opened RowLists
  import opened RowidIterator

  /** A value, in its stored form, and the rowids it occurs in. */
  datatype Group = Group(value: u64, rows: seq<u32>)

  ghost predicate Filled(gs: seq<Group>) {
    forall i :: 0 <= i < |gs| ==> gs[i].rows != []
  }

  function FirstRow(rows: seq<u32>): u32 {
    if rows == [] then 0 else rows[0]
  }

  function LastRow(rows: seq<u32>): u32 {
    if rows == [] then 0 else rows[|rows| - 1]
  }

  /** The rowids of all groups, one list after the other. */
  function FlatRows(gs: seq<Group>): seq<u32> {
    if gs == [] then [] else FlatRows(gs[..|gs| - 1]) + gs[|gs| - 1].rows
  }

  /** The stored bytes of all lists. */
  function PackedRows(c: Codec, gs: seq<Group>): seq<u8> {
    if gs == [] then [] else PackedRows(c, gs[..|gs| - 1]) + ItemBytes(c, gs[|gs| - 1].rows)
  }

  function Values(gs: seq<Group>): (r: seq<u64>)
    ensures |r| == |gs| && forall i :: 0 <= i < |gs| ==> r[i] == gs[i].value
  {
    seq(|gs|, i requires 0 <= i < |gs| => gs[i].value)
  }

  function Types(gs: seq<Group>): (r: seq<u32>)
    ensures |r| == |gs| && forall i :: 0 <= i < |gs| ==> r[i] == PackingCode(PackingOf(|gs[i].rows|))
  {
    seq(|gs|, i requires 0 <= i < |gs| => PackingCode(PackingOf(|gs[i].rows|)))
  }

  function Mins(gs: seq<Group>): (r: seq<u32>)
    ensures |r| == |gs| && forall i :: 0 <= i < |gs| ==> r[i] == FirstRow(gs[i].rows)
  {
    seq(|gs|, i requires 0 <= i < |gs| => FirstRow(gs[i].rows))
  }

  function Maxs(gs: seq<Group>): (r: seq<u32>)
    ensures |r| == |gs| && forall i :: 0 <= i < |gs| ==> r[i] == LastRow(gs[i].rows)
  {
    seq(|gs|, i requires 0 <= i < |gs| => LastRow(gs[i].rows))
  }

  function Counts(gs: seq<Group>): (r: seq<u32>)
    ensures |r| == |gs| && forall i :: 0 <= i < |gs| ==> r[i] == |gs[i].rows| % 0x1_0000_0000
  {
    seq(|gs|, i requires 0 <= i < |gs| => |gs[i].rows| % 0x1_0000_0000)
  }

  /** Where the stored list of each group starts, as a 32-bit offset. */
  function Starts(c: Codec, gs: seq<Group>): (r: seq<u32>)
    ensures |r| == |gs| && forall i :: 0 <= i < |gs| ==> r[i] == |PackedRows(c, gs[..i])| % 0x1_0000_0000
  {
    seq(|gs|, i requires 0 <= i < |gs| => |PackedRows(c, gs[..i])| % 0x1_0000_0000)
  }

  /** The tables in front of the lists. */
  function TableBytes(c: Codec, gs: seq<Group>): seq<u8> {
    Vec(c.encodeValues(Values(gs))) + Vec(c.encodePlain(Types(gs))) + Vec(c.encode(Mins(gs))) +
    Vec(c.encode(Maxs(gs))) + Vec(c.encode(Starts(c, gs))) + Vec(c.encodePlain(Counts(gs)))
  }

  function BlockBytes(c: Codec, gs: seq<Group>): seq<u8> {
    TableBytes(c, gs) + PackedRows(c, gs)
  }

  function FileBytes(c: Codec, blocks: seq<seq<Group>>): seq<u8> {
    if blocks == [] then [] else FileBytes(c, blocks[..|blocks| - 1]) + BlockBytes(c, blocks[|blocks| - 1])
  }

  // ---------------------------------------------------------------- reading a block back

  /**
    What loading a block gives: its values and, per value, type, extremes, offset and count; and where the
    lists start.
   */
  datatype Loaded = Loaded(values: seq<u64>, types: seq<u32>, mins: seq<u32>, maxs: seq<u32>, starts: seq<u32>,
      counts: seq<u32>, meta: nat)

  /** BlockValues_T::Load followed by BlockData_t::Load, for n values. */
  function LoadBlock(c: Codec, file: seq<u8>, pos: nat, n: nat): Loaded {
    var values := ReadVec(file, pos);
    var types := ReadVec(file, values.1);
    var mins := ReadVec(file, types.1);
    var maxs := ReadVec(file, mins.1);
    var starts := ReadVec(file, maxs.1);
    var counts := ReadVec(file, starts.1);
    Loaded(c.decodeValues(values.0, n), c.decodePlain(types.0, n), c.decode(mins.0, n), c.decode(maxs.0, n),
           c.decode(starts.0, n), c.decodePlain(counts.0, n), counts.1)
  }

  ghost predicate LoadedFrom(c: Codec, gs: seq<Group>, pos: nat, l: Loaded) {
    && l.values == Values(gs) && l.types == Types(gs) && l.mins == Mins(gs) && l.maxs == Maxs(gs)
    && l.starts == Starts(c, gs) && l.counts == Counts(gs) && l.meta == pos + |TableBytes(c, gs)|
  }

  lemma {:induction false} DecodePlainBack(c: Codec, file: seq<u8>, pos: nat, xs: seq<u32>)
    requires c.Lawful() && |xs| < 0x4000_0000 && At(file, pos, Vec(c.encodePlain(xs)))
    ensures ReadVec(file, pos).1 == pos + |Vec(c.encodePlain(xs))|
    ensures c.decodePlain(ReadVec(file, pos).0, |xs|) == xs
  {
    assert c.decodePlain(c.encodePlain(xs), |xs|) == xs && |c.encodePlain(xs)| <= 2 * |xs| + 1024;
    hide Codec.Lawful, At, Vec, ReadVec;
    ReadVecBack(file, pos, c.encodePlain(xs));
  }

  lemma {:induction false} DecodeValuesBack(c: Codec, file: seq<u8>, pos: nat, xs: seq<u64>)
    requires c.Lawful() && |xs| < 0x2000_0000 && At(file, pos, Vec(c.encodeValues(xs)))
    ensures ReadVec(file, pos).1 == pos + |Vec(c.encodeValues(xs))|
    ensures c.decodeValues(ReadVec(file, pos).0, |xs|) == xs
  {
    assert c.decodeValues(c.encodeValues(xs), |xs|) == xs && |c.encodeValues(xs)| <= 4 * |xs| + 1024;
    hide Codec.Lawful, At, Vec, ReadVec;
    ReadVecBack(file, pos, c.encodeValues(xs));
  }

  /** Six pieces at a position, one behind the other. */
  lemma {:induction false} AtSix(file: seq<u8>, pos: nat, a: seq<u8>, b: seq<u8>, d: seq<u8>, e: seq<u8>, f: seq<u8>,
                                 g: seq<u8>)
    requires At(file, pos, a + b + d + e + f + g)
    ensures At(file, pos, a) && At(file, pos + |a|, b) && At(file, pos + |a| + |b|, d) &&
            At(file, pos + |a| + |b| + |d|, e)
    ensures At(file, pos + |a| + |b| + |d| + |e|, f) && At(file, pos + |a| + |b| + |d| + |e| + |f|, g)
  {
    hide At;
    AtConcat(file, pos, a + b + d + e + f, g);
    AtConcat(file, pos, a + b + d + e, f);
    AtConcat(file, pos, a + b + d, e);
    AtConcat(file, pos, a + b, d);
    AtConcat(file, pos, a, b);
  }

  /** Where table k of a block starts; table 6 is the lists. */
  function TablePos(c: Codec, gs: seq<Group>, k: nat): nat {
    if k == 0 then 0
    else if k == 1 then |Vec(c.encodeValues(Values(gs)))|
    else if k == 2 then TablePos(c, gs, 1) + |Vec(c.encodePlain(Types(gs)))|
    else if k == 3 then TablePos(c, gs, 2) + |Vec(c.encode(Mins(gs)))|
    else if k == 4 then TablePos(c, gs, 3) + |Vec(c.encode(Maxs(gs)))|
    else if k == 5 then TablePos(c, gs, 4) + |Vec(c.encode(Starts(c, gs)))|
    else |TableBytes(c, gs)|
  }

  lemma {:induction false} TablesAt(c: Codec, file: seq<u8>, pos: nat, gs: seq<Group>)
    requires At(file, pos, BlockBytes(c, gs))
    ensures At(file, pos, Vec(c.encodeValues(Values(gs))))
    ensures At(file, pos + TablePos(c, gs, 1), Vec(c.encodePlain(Types(gs))))
    ensures At(file, pos + TablePos(c, gs, 2), Vec(c.encode(Mins(gs))))
    ensures At(file, pos + TablePos(c, gs, 3), Vec(c.encode(Maxs(gs))))
    ensures At(file, pos + TablePos(c, gs, 4), Vec(c.encode(Starts(c, gs))))
    ensures At(file, pos + TablePos(c, gs, 5), Vec(c.encodePlain(Counts(gs))))
    ensures At(file, pos + TablePos(c, gs, 6), PackedRows(c, gs))
  {
    hide *;
    BlockParts(c, gs);
    TablePosSteps(c, gs);
    AtConcat(file, pos, TableBytes(c, gs), PackedRows(c, gs));
    AtSix(file, pos, Vec(c.encodeValues(Values(gs))), Vec(c.encodePlain(Types(gs))), Vec(c.encode(Mins(gs))),
          Vec(c.encode(Maxs(gs))), Vec(c.encode(Starts(c, gs))), Vec(c.encodePlain(Counts(gs))));
  }

  lemma {:induction false} BlockParts(c: Codec, gs: seq<Group>)
    ensures BlockBytes(c, gs) == TableBytes(c, gs) + PackedRows(c, gs)
    ensures TableBytes(c, gs) ==
              Vec(c.encodeValues(Values(gs))) + Vec(c.encodePlain(Types(gs))) + Vec(c.encode(Mins(gs))) +
              Vec(c.encode(Maxs(gs))) + Vec(c.encode(Starts(c, gs))) + Vec(c.encodePlain(Counts(gs)))
  {
    hide Vec, Values, Types, Mins, Maxs, Starts, Counts, PackedRows;
  }

  /** The lengths of the tables add up. */
  lemma {:induction false} TablePosSteps(c: Codec, gs: seq<Group>)
    ensures TablePos(c, gs, 1) == |Vec(c.encodeValues(Values(gs)))|
    ensures TablePos(c, gs, 2) == TablePos(c, gs, 1) + |Vec(c.encodePlain(Types(gs)))|
    ensures TablePos(c, gs, 3) == TablePos(c, gs, 2) + |Vec(c.encode(Mins(gs)))|
    ensures TablePos(c, gs, 4) == TablePos(c, gs, 3) + |Vec(c.encode(Maxs(gs)))|
    ensures TablePos(c, gs, 5) == TablePos(c, gs, 4) + |Vec(c.encode(Starts(c, gs)))|
    ensures TablePos(c, gs, 6) == TablePos(c, gs, 5) + |Vec(c.encodePlain(Counts(gs)))| == |TableBytes(c, gs)|
  {
    hide Vec, Values, Types, Mins, Maxs, Starts, Counts;
  }

  /** Loading, once each of the six reads is known. */
  lemma {:induction false} LoadSteps(c: Codec, file: seq<u8>, pos: nat, gs: seq<Group>, p1: nat, p2: nat, p3: nat,
                                     p4: nat, p5: nat)
    requires ReadVec(file, pos).1 == p1 && c.decodeValues(ReadVec(file, pos).0, |gs|) == Values(gs)
    requires ReadVec(file, p1).1 == p2 && c.decodePlain(ReadVec(file, p1).0, |gs|) == Types(gs)
    requires ReadVec(file, p2).1 == p3 && c.decode(ReadVec(file, p2).0, |gs|) == Mins(gs)
    requires ReadVec(file, p3).1 == p4 && c.decode(ReadVec(file, p3).0, |gs|) == Maxs(gs)
    requires ReadVec(file, p4).1 == p5 && c.decode(ReadVec(file, p4).0, |gs|) == Starts(c, gs)
    requires ReadVec(file, p5).1 == pos + |TableBytes(c, gs)| && c.decodePlain(ReadVec(file, p5).0, |gs|) == Counts(gs)
    ensures LoadedFrom(c, gs, pos, LoadBlock(c, file, pos, |gs|))
  {
    hide ReadVec, Values, Types, Mins, Maxs, Starts, Counts, TableBytes;
  }

  /** Loading a stored block restores its tables. */
  lemma {:induction false} LoadBlockBack(c: Codec, file: seq<u8>, pos: nat, gs: seq<Group>)
    requires c.Lawful() && |gs| < 0x2000_0000 && At(file, pos, BlockBytes(c, gs))
    ensures LoadedFrom(c, gs, pos, LoadBlock(c, file, pos, |gs|))
    ensures At(file, pos + |TableBytes(c, gs)|, PackedRows(c, gs))
  {
    hide *;
    TablesAt(c, file, pos, gs);
    TablePosSteps(c, gs);
    DecodeValuesBack(c, file, pos, Values(gs));
    DecodePlainBack(c, file, pos + TablePos(c, gs, 1), Types(gs));
    DecodeVecBack(c, file, pos + TablePos(c, gs, 2), Mins(gs));
    DecodeVecBack(c, file, pos + TablePos(c, gs, 3), Maxs(gs));
    DecodeVecBack(c, file, pos + TablePos(c, gs, 4), Starts(c, gs));
    DecodePlainBack(c, file, pos + TablePos(c, gs, 5), Counts(gs));
    LoadSteps(c, file, pos, gs, pos + TablePos(c, gs, 1), pos + TablePos(c, gs, 2), pos + TablePos(c, gs, 3),
              pos + TablePos(c, gs, 4), pos + TablePos(c, gs, 5));
  }

  lemma {:induction false} AtItem(c: Codec, file: seq<u8>, pos: nat, gs: seq<Group>, i: nat)
    requires i < |gs| && At(file, pos, PackedRows(c, gs))
    ensures At(file, pos + |PackedRows(c, gs[..i])|, ItemBytes(c, gs[i].rows))
    ensures |PackedRows(c, gs[..i])| + |ItemBytes(c, gs[i].rows)| <= |PackedRows(c, gs)|
    decreases |gs|
  {
    hide At, ItemBytes;
    var n := |gs| - 1;
    AtConcat(file, pos, PackedRows(c, gs[..n]), ItemBytes(c, gs[n].rows));
    if i < n {
      AtItem(c, file, pos, gs[..n], i);
      assert gs[..n][..i] == gs[..i];
    }
  }

  /** The packing a type code stands for. */
  function PackingFrom(code: u32): Packing {
    if code == 0 then Row else if code == 1 then RowBlock else RowBlocksList
  }

  /**
    The entry loaded for value i of a stored block describes its rowids: an iterator made from it reads
    them back. The lists of the block must not take up more than 32-bit offsets can address.
   */
  lemma {:induction false} EntryDescribes(c: Codec, file: seq<u8>, pos: nat, gs: seq<Group>, i: nat)
    requires c.Lawful() && |gs| < 0x2000_0000 && At(file, pos, BlockBytes(c, gs)) && i < |gs|
    requires 0 < |gs[i].rows| < 0x1_0000_0000 && Nondecreasing(gs[i].rows) && |PackedRows(c, gs)| < 0x1_0000_0000
    ensures var l := LoadBlock(c, file, pos, |gs|);
            && |l.values| == |l.types| == |l.starts| == |l.mins| == |l.maxs| == |l.counts| == |gs|
            && l.values[i] == gs[i].value
            && Describes(c, file, PackingFrom(l.types[i]), l.meta + l.starts[i], l.mins[i], l.maxs[i], l.counts[i],
                gs[i].rows)
  {
    hide *;
    LoadBlockBack(c, file, pos, gs);
    AtItem(c, file, pos + |TableBytes(c, gs)|, gs, i);
    EntryFromTables(c, file, pos, gs, i, LoadBlock(c, file, pos, |gs|));
  }

  lemma {:induction false} EntryFromTables(c: Codec, file: seq<u8>, pos: nat, gs: seq<Group>, i: nat, l: Loaded)
    requires c.Lawful() && i < |gs| && LoadedFrom(c, gs, pos, l)
    requires 0 < |gs[i].rows| < 0x1_0000_0000 && Nondecreasing(gs[i].rows)
    requires At(file, pos + |TableBytes(c, gs)| + |PackedRows(c, gs[..i])|, ItemBytes(c, gs[i].rows))
    requires |PackedRows(c, gs[..i])| + |ItemBytes(c, gs[i].rows)| < 0x1_0000_0000
    ensures |l.values| == |l.types| == |l.starts| == |l.mins| == |l.maxs| == |l.counts| == |gs| &&
            l.values[i] == gs[i].value
    ensures Describes(c, file, PackingFrom(l.types[i]), l.meta + l.starts[i], l.mins[i], l.maxs[i], l.counts[i],
            gs[i].rows)
  {
    hide Codec.Lawful, At, TableBytes, ItemBytes, Nondecreasing, PackedRows;
    assert l.starts[i] == |PackedRows(c, gs[..i])|;
  }

  lemma {:induction false} AtBlock(c: Codec, file: seq<u8>, pos: nat, blocks: seq<seq<Group>>, k: nat)
    requires k < |blocks| && At(file, pos, FileBytes(c, blocks))
    ensures At(file, pos + |FileBytes(c, blocks[..k])|, BlockBytes(c, blocks[k]))
    decreases |blocks|
  {
    hide At, BlockBytes;
    var n := |blocks| - 1;
    AtConcat(file, pos, FileBytes(c, blocks[..n]), BlockBytes(c, blocks[n]));
    if k < n {
      AtBlock(c, file, pos, blocks[..n], k);
      assert blocks[..n][..k] == blocks[..k];
    }
  }

  /** The position of each block in the file, the first one being at position base. */
  function BlockOffsets(c: Codec, base: nat, blocks: seq<seq<Group>>): seq<nat> {
    if blocks == [] then []
    else BlockOffsets(c, base, blocks[..|blocks| - 1]) + [base + |FileBytes(c, blocks[..|blocks| - 1])|]
  }

  /** The values of all blocks. */
  function AllValues(blocks: seq<seq<Group>>): seq<u64> {
    if blocks == [] then [] else AllValues(blocks[..|blocks| - 1]) + Values(blocks[|blocks| - 1])
  }

  /** All groups of all blocks. */
  function AllGroups(blocks: seq<seq<Group>>): seq<Group> {
    if blocks == [] then [] else AllGroups(blocks[..|blocks| - 1]) + blocks[|blocks| - 1]
  }

  lemma {:induction false} BlockOffsetAt(c: Codec, base: nat, blocks: seq<seq<Group>>, k: nat)
    requires k < |blocks|
    ensures |BlockOffsets(c, base, blocks)| == |blocks|
    ensures BlockOffsets(c, base, blocks)[k] == base + |FileBytes(c, blocks[..k])|
    decreases |blocks|
  {
    hide FileBytes;
    var n := |blocks| - 1;
    if n > 0 {
      BlockOffsetAt(c, base, blocks[..n], if k < n then k else 0);
    }
    if k < n {
      assert blocks[..n][..k] == blocks[..k];
    }
  }
}
