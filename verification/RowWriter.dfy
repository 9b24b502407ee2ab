/**
  The writer of secondary-index blocks (secondary/builder.cpp, RowWriter_T): collects rowids per value and
  stores 128 values at a time, reusing its own buffers while it encodes them.
 */
module RowWriter {
  import opened ByteCodec
  import opened Orders
  import opened RowLists
  import opened RowGroups

  function Resized(s: seq<u32>, n: nat): (r: seq<u32>)
    ensures |r| == n
  {
    if n <= |s| then s[..n] else s + seq(n - |s|, _ => 0)
  }

  /** The rowids that start at position start. */
  ghost predicate RowsAt(buf: seq<u32>, start: nat, rows: seq<u32>) {
    start + |rows| <= |buf| && buf[start..start + |rows|] == rows
  }

  /** Only positions before end may have changed. */
  ghost predicate TailKept(before: seq<u32>, after: seq<u32>, end: nat) {
    |after| == |before| && end <= |before| && after[end..] == before[end..]
  }

  lemma {:induction false} NothingChanged(a: seq<u32>, end: nat)
    requires end <= |a|
    ensures TailKept(a, a, end)
  {
  }

  lemma {:induction false} TailKeptLater(a: seq<u32>, b: seq<u32>, c: seq<u32>, m: nat, n: nat)
    requires TailKept(a, b, m) && TailKept(b, c, n) && m <= n
    ensures TailKept(a, c, n)
  {
    assert a[n..] == a[m..][n - m..] && b[n..] == b[m..][n - m..];
  }

  lemma {:induction false} RowsKept(a: seq<u32>, b: seq<u32>, end: nat, start: nat, rows: seq<u32>)
    requires TailKept(a, b, end) && end <= start && RowsAt(a, start, rows)
    ensures RowsAt(b, start, rows)
  {
    SliceOfSlice(a, end, |a|, start - end, start - end + |rows|);
    SliceOfSlice(b, end, |b|, start - end, start - end + |rows|);
    assert a[end..|a|] == a[end..] && b[end..|b|] == b[end..];
  }

  /** Moving a chunk to the front and overwriting it there, or overwriting it in place. */
  lemma {:induction false} SpanOverwritten(buf: seq<u32>, off: nat, count: nat, moved: bool, r: seq<u32>)
    requires off + count <= |buf| && |r| == count
    ensures var b := if moved then buf[off..off + count] + buf[count..] else buf;
            var at := if moved then 0 else off;
            |b| == |buf| && b[at..at + count] == buf[off..off + count] &&
            TailKept(buf, b[..at] + r + b[at + count..], off + count)
  {
    var b := if moved then buf[off..off + count] + buf[count..] else buf;
    var at := if moved then 0 else off;
    var after := b[..at] + r + b[at + count..];
    forall k | off + count <= k < |buf| ensures after[k] == buf[k] {
    }
  }

  lemma {:induction false} RowsFit(buf: seq<u32>, start: nat, rows: seq<u32>)
    requires RowsAt(buf, start, rows)
    ensures start + |rows| <= |buf|
  {
  }

  lemma {:induction false} ChunkInRows(buf: seq<u32>, start: nat, rows: seq<u32>, k: nat)
    requires RowsAt(buf, start, rows) && k < NumChunks(|rows|)
    ensures RowsAt(buf, start + 1024 * k, Chunk(rows, k))
    ensures start + 1024 * k + ChunkLen(|rows|, k) <= |buf|
    ensures buf[start + 1024 * k] == Chunk(rows, k)[0]
    ensures buf[start + 1024 * k + ChunkLen(|rows|, k) - 1] == Chunk(rows, k)[ChunkLen(|rows|, k) - 1]
  {
    var n := ChunkLen(|rows|, k);
    SliceOfSlice(buf, start, start + |rows|, 1024 * k, 1024 * k + n);
    assert buf[start + 1024 * k] == buf[start..start + |rows|][1024 * k];
  }

  /** One more sub-block has been coded. */
  lemma {:induction false} ChunkEncoded(c: Codec, rows: seq<u32>, k: nat, tmp: seq<u8>)
    requires k < NumChunks(|rows|)
    requires tmp == WordsBytes(ChunkWords(c, rows, k)) + WordsBytes(c.encode(Chunk(rows, k)))
    ensures tmp == WordsBytes(ChunkWords(c, rows, k + 1))
    ensures |tmp| / 4 % 0x1_0000_0000 == OffsetsOf(c, rows)[k]
  {
    hide WordsBytes, Chunk;
    ChunkWordsStep(c, rows, k);
    WordsBytesConcat(ChunkWords(c, rows, k), c.encode(Chunk(rows, k)));
    assert |tmp| == 4 * |ChunkWords(c, rows, k + 1)|;
  }

  lemma {:induction false} NoChunks(c: Codec, rows: seq<u32>)
    ensures WordsBytes(ChunkWords(c, rows, 0)) == []
  {
  }

  lemma {:induction false} ListParts(c: Codec, rows: seq<u32>)
    ensures ListBytes(c, rows) == Pack(NumChunks(|rows|)) + Vec(c.encode(MinMaxOf(rows))) +
            Vec(c.encode(OffsetsOf(c, rows))) +
                                  WordsBytes(ChunkWords(c, rows, NumChunks(|rows|)))
    ensures NumChunks(|rows|) == (|rows| + 1023) / 1024
  {
  }

  /** The next sub-block of a list whose earlier ones have been coded is still what it was. */
  lemma {:induction false} NextChunkKept(before: seq<u32>, now: seq<u32>, start: nat, rows: seq<u32>, k: nat)
    requires RowsAt(before, start, rows) && k < NumChunks(|rows|) && TailKept(before, now, start + 1024 * k)
    ensures start + 1024 * k + ChunkLen(|rows|, k) <= |now|
    ensures now[start + 1024 * k..start + 1024 * k + ChunkLen(|rows|, k)] == Chunk(rows, k)
  {
    ChunkInRows(before, start, rows, k);
    RowsKept(before, now, start + 1024 * k, start + 1024 * k, Chunk(rows, k));
  }

  lemma {:induction false} MinMaxLength(rows: seq<u32>)
    ensures |MinMaxOf(rows)| == 2 * ((|rows| + 1023) / 1024)
  {
  }

  lemma {:induction false} MinMaxPair(rows: seq<u32>, k: nat)
    requires k < NumChunks(|rows|)
    ensures |MinMaxOf(rows)| == 2 * NumChunks(|rows|)
    ensures MinMaxOf(rows)[2 * k] == Chunk(rows, k)[0] &&
            MinMaxOf(rows)[2 * k + 1] == Chunk(rows, k)[ChunkLen(|rows|, k) - 1]
  {
  }

  lemma {:induction false} ChunkBounds(n: nat, k: nat)
    requires k < NumChunks(n)
    ensures NumChunks(n) == (n + 1023) / 1024
    ensures ChunkLen(n, k) == if k < (n + 1023) / 1024 - 1 then 1024 else n - 1024 * k
    ensures 1024 * k + ChunkLen(n, k) == if k + 1 < (n + 1023) / 1024 then 1024 * (k + 1) else n
  {
  }

  // ---------------------------------------------------------------- what the writer has collected

  /** The row buffer and the tables hold the groups collected so far. */
  ghost predicate Pending(values: seq<u64>, rowStart: seq<u32>, rows: seq<u32>, gs: seq<Group>) {
    && Filled(gs) && values == Values(gs) && rows == FlatRows(gs) && |rows| < 0x1_0000_0000
    && |rowStart| == |gs| && forall i :: 0 <= i < |gs| ==> rowStart[i] == |FlatRows(gs[..i])|
  }

  /** The last group with one more rowid. */
  function WithRow(gs: seq<Group>, rowid: u32): (r: seq<Group>)
    requires gs != []
    ensures |r| == |gs|
  {
    var last := gs[|gs| - 1];
    gs[..|gs| - 1] + [Group(last.value, last.rows + [rowid])]
  }

  /** What one more pair of value and rowid does to the blocks written and the groups collected. */
  function Push(written: seq<seq<Group>>, gs: seq<Group>, value: u64, rowid: u32): (seq<seq<Group>>, seq<Group>)
    requires gs != []
  {
    if gs[|gs| - 1].value == value then (written, WithRow(gs, rowid))
    else if |gs| < 128 then (written, gs + [Group(value, [rowid])])
    else (written + [gs], [Group(value, [rowid])])
  }

  lemma {:induction false} FlatRowsPush(gs: seq<Group>, g: Group)
    ensures FlatRows(gs + [g]) == FlatRows(gs) + g.rows
  {
    assert (gs + [g])[..|gs|] == gs;
  }

  lemma {:induction false} PendingAdd(values: seq<u64>, rowStart: seq<u32>, rows: seq<u32>, gs: seq<Group>, value: u64,
                                      rowid: u32)
    requires Pending(values, rowStart, rows, gs) && |rows| < 0xFFFF_FFFF
    ensures Pending(values + [value], rowStart + [|rows| % 0x1_0000_0000], rows + [rowid], gs + [Group(value, [rowid])])
  {
    var g := Group(value, [rowid]);
    FlatRowsPush(gs, g);
    hide FlatRows;
    forall i | 0 <= i <= |gs| ensures (gs + [g])[..i] == gs[..i] {
    }
    assert gs[..|gs|] == gs;
  }

  lemma {:induction false} PendingMore(values: seq<u64>, rowStart: seq<u32>, rows: seq<u32>, gs: seq<Group>, rowid: u32)
    requires Pending(values, rowStart, rows, gs) && gs != [] && |rows| < 0xFFFF_FFFF
    ensures Pending(values, rowStart, rows + [rowid], WithRow(gs, rowid))
    ensures WithRow(gs, rowid)[|gs| - 1].value == gs[|gs| - 1].value
  {
    var n := |gs| - 1;
    var more := WithRow(gs, rowid);
    assert more[..n] == gs[..n] && more[n].rows == gs[n].rows + [rowid];
    assert FlatRows(more) == FlatRows(gs[..n]) + (gs[n].rows + [rowid]);
    assert FlatRows(gs) == FlatRows(gs[..n]) + gs[n].rows;
    hide FlatRows, WithRow;
    forall i | 0 <= i <= n ensures more[..i] == gs[..i] {
      assert more[..i] == more[..n][..i];
    }
  }

  lemma {:induction false} PendingSizes(values: seq<u64>, rowStart: seq<u32>, rows: seq<u32>, gs: seq<Group>)
    requires Pending(values, rowStart, rows, gs)
    ensures |values| == |rowStart| == |gs|
  {
  }

  lemma {:induction false} EmptyIsPending()
    ensures Pending([], [], [], [])
  {
  }

  // ---------------------------------------------------------------- what the writer has written

  ghost predicate Flushed(c: Codec, prior: seq<u8>, written: seq<seq<Group>>, dst: seq<u8>, blocksOff: seq<nat>,
                          pgm: seq<u64>) {
    && dst == prior + FileBytes(c, written)
    && blocksOff == BlockOffsets(c, |prior|, written)
    && pgm == AllValues(written)
  }

  /** A file behind which the tables and the lists have been written one after the other. */
  function Appended(c: Codec, dst: seq<u8>, gs: seq<Group>): seq<u8> {
    TailAppended(c, dst + Vec(c.encodeValues(Values(gs))), gs)
  }

  function TailAppended(c: Codec, dst: seq<u8>, gs: seq<Group>): seq<u8> {
    dst + Vec(c.encodePlain(Types(gs))) + Vec(c.encode(Mins(gs))) +
    Vec(c.encode(Maxs(gs))) + Vec(c.encode(Starts(c, gs))) + Vec(c.encodePlain(Counts(gs))) + PackedRows(c, gs)
  }

  lemma {:induction false} AppendedDef(c: Codec, dst: seq<u8>, gs: seq<Group>)
    ensures Appended(c, dst, gs) == TailAppended(c, dst + Vec(c.encodeValues(Values(gs))), gs)
  {
    hide TailAppended;
  }

  lemma {:induction false} TailAppendedDef(c: Codec, dst: seq<u8>, gs: seq<Group>)
    ensures TailAppended(c, dst, gs) ==
              dst + Vec(c.encodePlain(Types(gs))) + Vec(c.encode(Mins(gs))) +
              Vec(c.encode(Maxs(gs))) + Vec(c.encode(Starts(c, gs))) + Vec(c.encodePlain(Counts(gs))) +
                  PackedRows(c, gs)
  {
  }

  lemma {:induction false} AppendedIs(c: Codec, dst: seq<u8>, gs: seq<Group>)
    ensures Appended(c, dst, gs) == dst + BlockBytes(c, gs)
  {
    BlockParts(c, gs);
    hide Vec, Values, Types, Mins, Maxs, Starts, Counts, PackedRows, TableBytes, BlockBytes;
    AppendSeven(dst, Vec(c.encodeValues(Values(gs))), Vec(c.encodePlain(Types(gs))), Vec(c.encode(Mins(gs))),
                Vec(c.encode(Maxs(gs))), Vec(c.encode(Starts(c, gs))), Vec(c.encodePlain(Counts(gs))),
                    PackedRows(c, gs));
  }

  lemma {:induction false} FrontOf<T>(s: seq<T>, x: T)
    ensures (s + [x])[..|s + [x]| - 1] == s && (s + [x])[|s + [x]| - 1] == x && s + [x] != []
  {
  }

  lemma {:induction false} OneBlockMore(c: Codec, base: nat, written: seq<seq<Group>>, gs: seq<Group>)
    ensures FileBytes(c, written + [gs]) == FileBytes(c, written) + BlockBytes(c, gs)
    ensures BlockOffsets(c, base, written + [gs]) == BlockOffsets(c, base, written) + [base + |FileBytes(c, written)|]
    ensures AllValues(written + [gs]) == AllValues(written) + Values(gs)
  {
    FrontOf(written, gs);
    hide BlockBytes, Values;
    var more := written + [gs];
    assert FileBytes(c, more) == FileBytes(c, more[..|more| - 1]) + BlockBytes(c, more[|more| - 1]) by {
      hide AllValues, BlockOffsets;
    }
    hide FileBytes;
    assert AllValues(more) == AllValues(more[..|more| - 1]) + Values(more[|more| - 1]) by {
      hide BlockOffsets;
    }
    hide AllValues;
  }

  lemma {:induction false} FlushedMore(c: Codec, prior: seq<u8>, written: seq<seq<Group>>, dst: seq<u8>,
                                       blocksOff: seq<nat>, pgm: seq<u64>, gs: seq<Group>)
    requires Flushed(c, prior, written, dst, blocksOff, pgm)
    ensures Flushed(c, prior, written + [gs], Appended(c, dst, gs), blocksOff + [|dst|], pgm + Values(gs))
  {
    hide Appended, BlockBytes, Values, FileBytes, BlockOffsets, AllValues;
    AppendedIs(c, dst, gs);
    OneBlockMore(c, |prior|, written, gs);
    AppendTwo(prior, FileBytes(c, written), BlockBytes(c, gs));
  }

  lemma {:induction false} AppendTwo<T>(s: seq<T>, a: seq<T>, b: seq<T>)
    ensures s + (a + b) == s + a + b
  {
  }

  lemma {:induction false} AppendSeven<T>(s: seq<T>, a: seq<T>, b: seq<T>, d: seq<T>, e: seq<T>, f: seq<T>, g: seq<T>,
                                          h: seq<T>)
    ensures s + a + b + d + e + f + g + h == s + (a + b + d + e + f + g + h)
  {
    assert s + a + b == s + (a + b);
    assert s + (a + b) + d == s + (a + b + d);
    assert s + (a + b + d) + e == s + (a + b + d + e);
    assert s + (a + b + d + e) + f == s + (a + b + d + e + f);
    assert s + (a + b + d + e + f) + g == s + (a + b + d + e + f + g);
    assert s + (a + b + d + e + f + g) + h == s + (a + b + d + e + f + g + h);
  }

  // ---------------------------------------------------------------- smallest and largest value

  /** A stored value as the column sees it: the 64-bit pattern of a signed value stands for that value. */
  function View(signed: bool, value: u64): int {
    if signed && value >= 0x8000_0000_0000_0000 then value - 0x1_0000_0000_0000_0000 else value
  }

  ghost predicate Extremes(signed: bool, values: seq<u64>, lo: int, hi: int) {
    && (exists i :: 0 <= i < |values| && View(signed, values[i]) == lo)
    && (exists i :: 0 <= i < |values| && View(signed, values[i]) == hi)
    && (forall i :: 0 <= i < |values| ==> lo <= View(signed, values[i]) <= hi)
  }

  /** The counter wraps at 32 bits; while it has not, the extremes are right. */
  ghost predicate Totals(signed: bool, pgm: seq<u64>, total: nat, lo: int, hi: int) {
    && total == |pgm| % 0x1_0000_0000
    && (0 < |pgm| < 0x1_0000_0000 ==> Extremes(signed, pgm, lo, hi))
  }

  lemma {:induction false} ExtremesJoin(signed: bool, a: seq<u64>, b: seq<u64>, lo: int, hi: int, lo2: int, hi2: int)
    requires Extremes(signed, b, lo2, hi2)
    ensures Extremes(signed, a, lo, hi) ==> Extremes(signed, a + b, Least(lo, lo2), Greatest(hi, hi2))
    ensures a == [] ==> Extremes(signed, a + b, lo2, hi2)
  {
    hide View;
    if a == [] {
      assert a + b == b;
    }
    if Extremes(signed, a, lo, hi) {
      var i :| 0 <= i < |a| && View(signed, a[i]) == lo;
      var j :| 0 <= j < |a| && View(signed, a[j]) == hi;
      var k :| 0 <= k < |b| && View(signed, b[k]) == lo2;
      var l :| 0 <= l < |b| && View(signed, b[l]) == hi2;
      assert (a + b)[i] == a[i] && (a + b)[j] == a[j] && (a + b)[|a| + k] == b[k] && (a + b)[|a| + l] == b[l];
    }
  }

  lemma {:induction false} CountedTotal(signed: bool, pgm: seq<u64>, total: nat, lo: int, hi: int)
    requires Totals(signed, pgm, total, lo, hi)
    ensures total == |pgm| % 0x1_0000_0000
  {
    hide Extremes;
  }

  lemma {:induction false} TotalsGrow(signed: bool, pgm: seq<u64>, values: seq<u64>, total: nat, lo: int, hi: int)
    requires total == |pgm| % 0x1_0000_0000 && values != []
    requires |pgm| < 0x1_0000_0000 ==> Extremes(signed, pgm + values, lo, hi)
    ensures Totals(signed, pgm + values, (total + |values|) % 0x1_0000_0000, lo, hi)
  {
    hide Extremes;
  }

  lemma {:induction false} ExtremesOne(signed: bool, v: u64)
    ensures Extremes(signed, [v], View(signed, v), View(signed, v))
  {
    assert [v][0] == v;
  }

  lemma {:induction false} FirstExtremes(signed: bool, values: seq<u64>)
    requires values != []
    ensures Extremes(signed, values[..1], View(signed, values[0]), View(signed, values[0]))
  {
    ExtremesOne(signed, values[0]);
    assert values[..1] == [values[0]];
  }

  /** One more value; the first one is looked at twice. */
  lemma {:induction false} NextExtremes(signed: bool, values: seq<u64>, k: nat, lo: int, hi: int)
    requires k < |values| && Extremes(signed, values[..if k == 0 then 1 else k], lo, hi)
    ensures var v := View(signed, values[k]); Extremes(signed, values[..k + 1], Least(lo, v), Greatest(hi, v))
  {
    var v := View(signed, values[k]);
    if k > 0 {
      hide Extremes, View;
      ExtremesOne(signed, values[k]);
      ExtremesJoin(signed, values[..k], [values[k]], lo, hi, v, v);
      assert values[..k + 1] == values[..k] + [values[k]];
    } else {
      hide View;
      assert values[..1][0] == values[0];
    }
  }

  /** The extremes of what was counted and what is collected. */
  lemma {:induction false} NewExtremes(signed: bool, pgm: seq<u64>, values: seq<u64>, total: nat, min: int, max: int,
                                       lo: int, hi: int)
    requires Totals(signed, pgm, total, min, max) && Extremes(signed, values, lo, hi)
    ensures |pgm| < 0x1_0000_0000 ==>
              Extremes(signed, pgm + values, if total != 0 then Least(min, lo) else lo,
                  if total != 0 then Greatest(max, hi) else hi)
  {
    hide Extremes;
    ExtremesJoin(signed, pgm, values, min, max, lo, hi);
  }

  // ---------------------------------------------------------------- coding the collected groups

  /** The tables are right for the first i groups; the others still start where they were collected. */
  ghost predicate TablesUpTo(c: Codec, gs: seq<Group>, i: nat, types: seq<u32>, mins: seq<u32>, maxs: seq<u32>,
                             counts: seq<u32>, starts: seq<u32>) {
    && i <= |gs| == |types| == |mins| == |maxs| == |counts| == |starts|
    && (forall j :: 0 <= j < i ==> types[j] == Types(gs)[j])
    && (forall j :: 0 <= j < i ==> mins[j] == Mins(gs)[j])
    && (forall j :: 0 <= j < i ==> maxs[j] == Maxs(gs)[j])
    && (forall j :: 0 <= j < i ==> counts[j] == Counts(gs)[j])
    && (forall j :: 0 <= j < i ==> starts[j] == Starts(c, gs)[j])
    && (forall j :: i <= j < |gs| ==> starts[j] == |FlatRows(gs[..j])|)
  }

  /** The first i groups have been coded; the rows of the others are still where they were. */
  ghost predicate RowsUpTo(c: Codec, gs: seq<Group>, i: nat, packed: seq<u8>, rows: seq<u32>) {
    && i <= |gs| && Filled(gs)
    && packed == PackedRows(c, gs[..i])
    && TailKept(FlatRows(gs), rows, |FlatRows(gs[..i])|)
  }

  lemma {:induction false} NothingCoded(c: Codec, values: seq<u64>, types: seq<u32>, mins: seq<u32>, maxs: seq<u32>,
                                        counts: seq<u32>,
                     starts: seq<u32>, packed: seq<u8>, rows: seq<u32>, gs: seq<Group>)
    requires Pending(values, starts, rows, gs) && packed == [] && |types| == |mins| == |maxs| == |counts| == |values|
    ensures TablesUpTo(c, gs, 0, types, mins, maxs, counts, starts) && RowsUpTo(c, gs, 0, packed, rows)
  {
    assert gs[..0] == [];
  }

  /** Rows of group i, at the place the group starts. */
  lemma {:induction false} FlatRowsAt(gs: seq<Group>, i: nat)
    requires i < |gs|
    ensures RowsAt(FlatRows(gs), |FlatRows(gs[..i])|, gs[i].rows)
    ensures |FlatRows(gs[..i + 1])| == |FlatRows(gs[..i])| + |gs[i].rows|
    ensures i + 1 == |gs| ==> gs[..i + 1] == gs
    decreases |gs|
  {
    var n := |gs| - 1;
    assert gs[..i + 1][..i] == gs[..i];
    if i < n {
      FlatRowsAt(gs[..n], i);
      assert gs[..n][..i] == gs[..i];
      var a, b := FlatRows(gs[..n]), gs[n].rows;
      var s := |FlatRows(gs[..i])|;
      assert (a + b)[s..s + |gs[i].rows|] == a[s..s + |gs[i].rows|];
    } else {
      assert gs[..i + 1] == gs;
    }
  }

  lemma {:induction false} RowsEnds(buf: seq<u32>, start: nat, rows: seq<u32>)
    requires RowsAt(buf, start, rows) && rows != []
    ensures start + |rows| <= |buf| && buf[start] == FirstRow(rows) && buf[start + |rows| - 1] == LastRow(rows)
  {
    var span := buf[start..start + |rows|];
    assert span[0] == buf[start] && span[|span| - 1] == buf[start + |rows| - 1];
  }

  lemma {:induction false} NextItem(c: Codec, gs: seq<Group>, i: nat, types: seq<u32>, mins: seq<u32>, maxs: seq<u32>,
                                    counts: seq<u32>,
                 starts: seq<u32>, packed: seq<u8>, rows: seq<u32>)
    requires TablesUpTo(c, gs, i, types, mins, maxs, counts, starts) && RowsUpTo(c, gs, i, packed, rows) && i < |gs|
    ensures |types| == |mins| == |maxs| == |counts| == |starts| == |gs|
    ensures starts[i] == |FlatRows(gs[..i])|
    ensures (if i + 1 < |starts| then starts[i + 1] - starts[i] else |rows| - starts[i]) == |gs[i].rows| > 0
    ensures RowsAt(rows, starts[i], gs[i].rows) && starts[i] + |gs[i].rows| <= |rows|
    ensures rows[starts[i]] == FirstRow(gs[i].rows) && rows[starts[i] + |gs[i].rows| - 1] == LastRow(gs[i].rows)
  {
    FlatRowsAt(gs, i);
    hide FlatRows, Types, Mins, Maxs, Counts, Starts, PackedRows;
    assert starts[i] == |FlatRows(gs[..i])| && (i + 1 < |gs| ==> starts[i + 1] == |FlatRows(gs[..i + 1])|);
    hide TablesUpTo;
    assert |rows| == |FlatRows(gs)| && gs[i].rows != [];
    RowsKept(FlatRows(gs), rows, starts[i], starts[i], gs[i].rows);
    hide RowsUpTo;
    RowsEnds(rows, starts[i], gs[i].rows);
  }

  lemma {:induction false} PackedSoFar(c: Codec, gs: seq<Group>, i: nat, packed: seq<u8>, rows: seq<u32>)
    requires RowsUpTo(c, gs, i, packed, rows)
    ensures i <= |gs| && packed == PackedRows(c, gs[..i])
  {
  }

  lemma {:induction false} ItemTables(c: Codec, gs: seq<Group>, i: nat, types: seq<u32>, mins: seq<u32>, maxs: seq<u32>,
                                      counts: seq<u32>,
                   starts: seq<u32>, packed: seq<u8>)
    requires TablesUpTo(c, gs, i, types, mins, maxs, counts, starts) && i < |gs| && packed == PackedRows(c, gs[..i])
    ensures TablesUpTo(c, gs, i + 1, types[i := PackingCode(PackingOf(|gs[i].rows|))], mins[i := FirstRow(gs[i].rows)],
                       maxs[i := LastRow(gs[i].rows)], counts[i := |gs[i].rows| % 0x1_0000_0000],
                           starts[i := |packed| % 0x1_0000_0000])
  {
    assert Types(gs)[i] == PackingCode(PackingOf(|gs[i].rows|)) && Mins(gs)[i] == FirstRow(gs[i].rows);
    assert Maxs(gs)[i] == LastRow(gs[i].rows) && Counts(gs)[i] == |gs[i].rows| % 0x1_0000_0000;
    assert Starts(c, gs)[i] == |packed| % 0x1_0000_0000;
    hide FlatRows, PackedRows, PackingCode, PackingOf, FirstRow, LastRow, Types, Mins, Maxs, Counts, Starts;
  }

  lemma {:induction false} ItemRows(c: Codec, gs: seq<Group>, i: nat, packed: seq<u8>, was: seq<u32>, rows: seq<u32>)
    requires RowsUpTo(c, gs, i, packed, was) && i < |gs|
    requires TailKept(was, rows, |FlatRows(gs[..i])| + |gs[i].rows|)
    ensures RowsUpTo(c, gs, i + 1, packed + ItemBytes(c, gs[i].rows), rows)
  {
    hide FlatRows, TailKept, Filled, RowsAt, ItemBytes;
    FlatRowsAt(gs, i);
    TailKeptLater(FlatRows(gs), was, rows, |FlatRows(gs[..i])|, |FlatRows(gs[..i])| + |gs[i].rows|);
    assert gs[..i + 1][..i] == gs[..i];
  }

  lemma {:induction false} AllCoded(c: Codec, gs: seq<Group>, types: seq<u32>, mins: seq<u32>, maxs: seq<u32>,
                                    counts: seq<u32>,
                 starts: seq<u32>, packed: seq<u8>, rows: seq<u32>)
    requires TablesUpTo(c, gs, |gs|, types, mins, maxs, counts, starts) && RowsUpTo(c, gs, |gs|, packed, rows)
    ensures types == Types(gs) && mins == Mins(gs) && maxs == Maxs(gs) && counts == Counts(gs)
    ensures starts == Starts(c, gs) && packed == PackedRows(c, gs)
  {
    assert gs[..|gs|] == gs;
    hide FlatRows, PackedRows, TailKept, Filled;
  }

  lemma {:induction false} ItemParts(c: Codec, rows: seq<u32>)
    requires |rows| > 0
    ensures PackingCode(PackingOf(|rows|)) == if |rows| == 1 then 0 else if |rows| <= 1024 then 1 else 2
    ensures ItemBytes(c, rows) == if |rows| == 1 then [] else if |rows| <= 1024 then Vec(c.encode(rows)) else
            ListBytes(c, rows)
  {
    hide Vec, ListBytes;
  }

  lemma {:induction false} RowsSlice(buf: seq<u32>, start: nat, rows: seq<u32>)
    requires RowsAt(buf, start, rows)
    ensures start + |rows| <= |buf| && buf[start..start + |rows|] == rows
  {
  }

  class RowWriter {
    const codec: Codec
    const signed: bool             // whether the column holds signed 64-bit values
    ghost const prior: seq<u8>     // what the file held before the first block

    var dValues: seq<u64>
    var dTypes: seq<u32>
    var dCount: seq<u32>
    var dRowStart: seq<u32>
    var dMin: seq<u32>
    var dMax: seq<u32>
    var dRows: seq<u32>
    var dMinMax: seq<u32>
    var dBlockOffsets: seq<u32>
    var dRowsPacked: seq<u8>
    var dTmp: seq<u8>
    var lastValue: u64
    var min: int
    var max: int
    var totalValues: nat

    var dst: seq<u8>            // the index file
    var blocksOff: seq<nat>     // the temporary file of block offsets
    var pgmValues: seq<u64>     // the temporary file the learned index is built from

    ghost var groups: seq<Group>          // what has been collected for the next block
    ghost var written: seq<seq<Group>>    // the blocks written so far

    ghost predicate Valid()
      reads this
    {
      && codec.Lawful() && |groups| <= 128
      && Pending(dValues, dRowStart, dRows, groups)
      && (groups != [] ==> lastValue == groups[|groups| - 1].value)
      && dTypes == [] && dCount == [] && dMin == [] && dMax == [] && dRowsPacked == []
      && Flushed(codec, prior, written, dst, blocksOff, pgmValues)
      && Totals(signed, pgmValues, totalValues, min, max)
    }

    constructor (codec: Codec, signed: bool, dst: seq<u8>)
      requires codec.Lawful()
      ensures Valid() && groups == [] && written == [] && prior == dst && dRows == []
      ensures this.codec == codec && this.signed == signed
    {
      this.codec, this.signed, this.prior := codec, signed, dst;
      dValues, dTypes, dCount, dRowStart, dMin, dMax, dRows, dMinMax, dBlockOffsets := [], [], [], [], [], [], [], [],
          [];
      dRowsPacked, dTmp, lastValue, min, max, totalValues := [], [], 0, 0, 0, 0;
      this.dst, blocksOff, pgmValues := dst, [], [];
      groups, written := [], [];
    }

    /** AddValue: starts the list of another value. */
    method AddValue(value: u64, rowid: u32)
      requires Valid() && |groups| < 128 && |dRows| < 0xFFFF_FFFF
      modifies this
      ensures Valid() && written == old(written) && groups == old(groups) + [Group(value, [rowid])]
      ensures |dRows| == old(|dRows|) + 1
    {
      hide Codec.Lawful, Pending, Flushed, Totals;
      PendingAdd(dValues, dRowStart, dRows, groups, value, rowid);
      dRowStart := dRowStart + [|dRows| % 0x1_0000_0000];
      dValues := dValues + [value];
      dRows := dRows + [rowid];
      lastValue := value;
      groups := groups + [Group(value, [rowid])];
    }

    /**
      NextValue: adds a rowid to the list of the current value, or starts the next value, flushing a full
      block first.
     */
    method NextValue(value: u64, rowid: u32)
      requires Valid() && groups != [] && |dRows| < 0xFFFF_FFFF
      modifies this
      ensures Valid()
      ensures (written, groups) == Push(old(written), old(groups), value, rowid)
      ensures |dRows| <= old(|dRows|) + 1
    {
      hide Codec.Lawful, Pending, Flushed, Totals;
      if lastValue == value {
        PendingMore(dValues, dRowStart, dRows, groups, rowid);
        dRows := dRows + [rowid];
        groups := WithRow(groups, rowid);
      } else {
        FlushValue();
        ghost var gs := groups;
        AddValue(value, rowid);
        assert gs == [] ==> gs + [Group(value, [rowid])] == [Group(value, [rowid])];
      }
    }

    method FlushValue()
      requires Valid()
      modifies this
      ensures Valid() && |groups| < 128 && |dRows| <= old(|dRows|)
      ensures old(|groups|) < 128 ==> written == old(written) && groups == old(groups)
      ensures old(|groups|) == 128 ==> written == old(written) + [old(groups)] && groups == []
    {
      PendingSizes(dValues, dRowStart, dRows, groups);
      hide *;
      Pieces();
      if |dValues| < 128 {
        return;
      }
      FlushBlock();
    }

    /**
      Codes count rowids from position off of the row buffer. The chunk is moved to the front of the
      buffer when it is not aligned, which depends on the buffer's address, and coding overwrites it.
     */
    method EncodeRowsBlock(off: nat, count: nat) returns (code: seq<u32>)
      requires codec.Lawful() && off + count <= |dRows|
      modifies this`dRows
      ensures code == codec.encode(old(dRows)[off..off + count])
      ensures TailKept(old(dRows), dRows, off + count)
    {
      var needPadding: bool := *;
      ghost var before := dRows;
      var at := off;
      if needPadding {
        dRows := dRows[off..off + count] + dRows[count..];
        at := 0;
      }
      SpanOverwritten(before, off, count, needPadding, codec.residue(before[off..off + count]));
      hide TailKept;
      var span := dRows[at..at + count];
      code := codec.encode(span);
      dRows := dRows[..at] + codec.residue(span) + dRows[at + count..];
    }

    method WriteSingleBlock(item: nat, start: nat, count: nat)
      requires codec.Lawful() && start + count <= |dRows| && item < |dTypes|
      modifies this`dRows, this`dTypes, this`dRowsPacked
      ensures dTypes == old(dTypes)[item := 1]
      ensures dRowsPacked == old(dRowsPacked) + Vec(codec.encode(old(dRows)[start..start + count]))
      ensures TailKept(old(dRows), dRows, start + count)
    {
      dTypes := dTypes[item := 1];
      var code := EncodeRowsBlock(start, count);
      dRowsPacked := dRowsPacked + Vec(code);
    }

    /** The extremes of each sub-block, taken before any of them is coded. */
    method FillMinMax(start: nat, count: nat, ghost rows: seq<u32>)
      requires RowsAt(dRows, start, rows) && count == |rows|
      modifies this`dMinMax
      ensures dMinMax == MinMaxOf(rows)
    {
      hide *;
      var blocks := (count + 1023) / 1024;
      dMinMax := Resized(dMinMax, 2 * blocks);
      var b := 0;
      ghost var done := MinMaxOf(rows);
      MinMaxLength(rows);
      while b < blocks
        invariant b <= blocks && |dMinMax| == |done| == 2 * blocks
        invariant forall i :: 0 <= i < 2 * b ==> dMinMax[i] == done[i]
      {
        ChunkBounds(count, b);
        ChunkInRows(dRows, start, rows, b);
        MinMaxPair(rows, b);
        var srcStart := start + 1024 * b;
        var srcCount := if b < blocks - 1 then 1024 else count - 1024 * b;
        dMinMax := dMinMax[2 * b := dRows[srcStart]][2 * b + 1 := dRows[srcStart + srcCount - 1]];
        b := b + 1;
      }
    }

    /** Codes each sub-block into temporary storage and records where its code ends. */
    method EncodeChunks(start: nat, count: nat, ghost rows: seq<u32>)
      requires codec.Lawful() && RowsAt(dRows, start, rows) && count == |rows|
      modifies this`dRows, this`dTmp, this`dBlockOffsets
      ensures dTmp == WordsBytes(ChunkWords(codec, rows, NumChunks(|rows|)))
      ensures dBlockOffsets == OffsetsOf(codec, rows)
      ensures TailKept(old(dRows), dRows, start + count)
    {
      hide *;
      NoChunks(codec, rows);
      ListParts(codec, rows);
      ghost var before := dRows;
      RowsFit(dRows, start, rows);
      var blocks := (count + 1023) / 1024;
      dBlockOffsets := Resized(dBlockOffsets, blocks);
      dTmp := [];
      var b := 0;
      NothingChanged(dRows, start);
      while b < blocks
        invariant b <= blocks && |dBlockOffsets| == blocks
        invariant dTmp == WordsBytes(ChunkWords(codec, rows, b))
        invariant forall i :: 0 <= i < b ==> dBlockOffsets[i] == OffsetsOf(codec, rows)[i]
        invariant TailKept(before, dRows, start + (if b < blocks then 1024 * b else count))
      {
        ChunkBounds(count, b);
        var srcStart := start + 1024 * b;
        var srcCount := if b < blocks - 1 then 1024 else count - 1024 * b;
        ghost var was := dRows;
        NextChunkKept(before, dRows, start, rows, b);
        var code := EncodeRowsBlock(srcStart, srcCount);
        TailKeptLater(before, was, dRows, srcStart, srcStart + srcCount);
        dTmp := dTmp + WordsBytes(code);
        ChunkEncoded(codec, rows, b, dTmp);
        dBlockOffsets := dBlockOffsets[b := |dTmp| / 4 % 0x1_0000_0000];
        b := b + 1;
      }
    }

    method WriteBlockList(item: nat, start: nat, count: nat, ghost rows: seq<u32>)
      requires codec.Lawful() && RowsAt(dRows, start, rows) && count == |rows| && item < |dTypes|
      modifies this`dRows, this`dTypes, this`dRowsPacked, this`dMinMax, this`dTmp, this`dBlockOffsets
      ensures dTypes == old(dTypes)[item := 2]
      ensures dRowsPacked == old(dRowsPacked) + ListBytes(codec, rows)
      ensures TailKept(old(dRows), dRows, start + count)
    {
      hide *;
      ListParts(codec, rows);
      dTypes := dTypes[item := 2];
      var blocks := (count + 1023) / 1024;
      FillMinMax(start, count, rows);
      dRowsPacked := dRowsPacked + Pack(blocks);
      dRowsPacked := dRowsPacked + Vec(codec.encode(dMinMax));
      dMinMax := codec.residue(dMinMax);
      EncodeChunks(start, count, rows);
      dRowsPacked := dRowsPacked + Vec(codec.encode(dBlockOffsets));
      dBlockOffsets := codec.residue(dBlockOffsets);
      dRowsPacked := dRowsPacked + dTmp;
    }

    /** Stores the rowids of one value in the packing their number asks for. */
    method WriteRows(item: nat, start: nat, count: nat, ghost rows: seq<u32>)
      requires codec.Lawful() && RowsAt(dRows, start, rows) && count == |rows| > 0 && item < |dTypes|
      modifies this`dRows, this`dTypes, this`dRowsPacked, this`dMinMax, this`dTmp, this`dBlockOffsets
      ensures dTypes == old(dTypes)[item := PackingCode(PackingOf(|rows|))]
      ensures dRowsPacked == old(dRowsPacked) + ItemBytes(codec, rows)
      ensures TailKept(old(dRows), dRows, start + count)
    {
      RowsFit(dRows, start, rows);
      ItemParts(codec, rows);
      RowsSlice(dRows, start, rows);
      NothingChanged(dRows, start + count);
      hide *;
      if count == 1 {
        dTypes := dTypes[item := 0];
      } else if count <= 1024 {
        WriteSingleBlock(item, start, count);
      } else {
        WriteBlockList(item, start, count, rows);
      }
    }

    /** Smallest and largest value so far, the collected ones included. */
    method DetermineMinMax()
      requires dValues != [] && Totals(signed, pgmValues, totalValues, min, max)
      modifies this`min, this`max
      ensures |pgmValues| < 0x1_0000_0000 ==> Extremes(signed, pgmValues + dValues, min, max)
    {
      hide *;
      var lo := View(signed, dValues[0]);
      var hi := lo;
      var k := 0;
      FirstExtremes(signed, dValues);
      while k < |dValues|
        invariant k <= |dValues| && Extremes(signed, dValues[..if k == 0 then 1 else k], lo, hi)
        invariant min == old(min) && max == old(max)
      {
        var v := View(signed, dValues[k]);
        NextExtremes(signed, dValues, k, lo, hi);
        lo := Least(lo, v);
        hi := Greatest(hi, v);
        k := k + 1;
      }
      assert dValues[..k] == dValues;
      NewExtremes(signed, pgmValues, dValues, totalValues, min, max, lo, hi);
      if totalValues != 0 {
        min, max := Least(min, lo), Greatest(max, hi);
      } else {
        min, max := lo, hi;
      }
    }

    method CountValues()
      requires dValues != [] && Totals(signed, pgmValues, totalValues, min, max)
      modifies this`min, this`max, this`totalValues
      ensures Totals(signed, pgmValues + dValues, totalValues, min, max)
    {
      hide *;
      CountedTotal(signed, pgmValues, totalValues, min, max);
      DetermineMinMax();
      TotalsGrow(signed, pgmValues, dValues, totalValues, min, max);
      totalValues := (totalValues + |dValues|) % 0x1_0000_0000;
    }

    /** Codes the rowids of every collected value and fills the tables. */
    method PackItems()
      requires codec.Lawful() && Pending(dValues, dRowStart, dRows, groups) && dRowsPacked == []
      modifies this`dRows, this`dTypes, this`dRowsPacked, this`dMinMax, this`dTmp, this`dBlockOffsets, this`dRowStart,
               this`dMin, this`dMax, this`dCount
      ensures dTypes == Types(groups) && dMin == Mins(groups) && dMax == Maxs(groups) && dCount == Counts(groups)
      ensures dRowStart == Starts(codec, groups) && dRowsPacked == PackedRows(codec, groups)
    {
      PendingSizes(dValues, dRowStart, dRows, groups);
      hide *;
      var n := |dValues|;
      dTypes, dMin, dMax, dCount := Resized(dTypes, n), Resized(dMin, n), Resized(dMax, n), Resized(dCount, n);
      NothingCoded(codec, dValues, dTypes, dMin, dMax, dCount, dRowStart, dRowsPacked, dRows, groups);
      var i := 0;
      while i < n
        invariant i <= n == |groups|
        invariant TablesUpTo(codec, groups, i, dTypes, dMin, dMax, dCount, dRowStart)
        invariant RowsUpTo(codec, groups, i, dRowsPacked, dRows)
      {
        PackItem(i);
        i := i + 1;
      }
      AllCoded(codec, groups, dTypes, dMin, dMax, dCount, dRowStart, dRowsPacked, dRows);
    }

    /** Codes the rowids of one value; its start in the row buffer gives way to its start in the stored lists. */
    method PackItem(i: nat)
      requires codec.Lawful() && i < |groups|
      requires TablesUpTo(codec, groups, i, dTypes, dMin, dMax, dCount, dRowStart) &&
               RowsUpTo(codec, groups, i, dRowsPacked, dRows)
      modifies this`dRows, this`dTypes, this`dRowsPacked, this`dMinMax, this`dTmp, this`dBlockOffsets, this`dRowStart,
               this`dMin, this`dMax, this`dCount
      ensures TablesUpTo(codec, groups, i + 1, dTypes, dMin, dMax, dCount, dRowStart) &&
              RowsUpTo(codec, groups, i + 1, dRowsPacked, dRows)
    {
      hide *;
      NextItem(codec, groups, i, dTypes, dMin, dMax, dCount, dRowStart, dRowsPacked, dRows);
      PackedSoFar(codec, groups, i, dRowsPacked, dRows);
      ItemTables(codec, groups, i, dTypes, dMin, dMax, dCount, dRowStart, dRowsPacked);
      ghost var was, packed := dRows, dRowsPacked;
      var start := dRowStart[i];
      var count := if i + 1 < |dRowStart| then dRowStart[i + 1] - start else |dRows| - start;
      dRowStart := dRowStart[i := |dRowsPacked| % 0x1_0000_0000];
      dMin := dMin[i := dRows[start]];
      dMax := dMax[i := dRows[start + count - 1]];
      dCount := dCount[i := count % 0x1_0000_0000];
      WriteRows(i, start, count, groups[i].rows);
      ItemRows(codec, groups, i, packed, was, dRows);
    }

    /** FlushBlock: writes what has been collected as one block; nothing to do when nothing was. */
    method FlushBlock()
      requires Valid()
      modifies this
      ensures Valid() && groups == [] && dRows == []
      ensures written == if old(groups) == [] then old(written) else old(written) + [old(groups)]
    {
      hide *;
      Pieces();
      if |dValues| == 0 {
        return;
      }
      StoreBlock();
      ResetData();
      written := written + [groups];
      groups := [];
      EmptyIsPending();
      IsValid();
    }

    /** What has been collected is counted, packed and written. */
    method StoreBlock()
      requires codec.Lawful() && dValues != [] && dRowsPacked == [] && dValues == Values(groups)
      requires Pending(dValues, dRowStart, dRows, groups) && Flushed(codec, prior, written, dst, blocksOff, pgmValues)
      requires Totals(signed, pgmValues, totalValues, min, max)
      modifies this`min, this`max, this`totalValues, this`dRows, this`dTypes, this`dRowsPacked, this`dMinMax, this`dTmp,
               this`dBlockOffsets, this`dRowStart, this`dMin, this`dMax, this`dCount, this`blocksOff, this`pgmValues,
                   this`dst, this`dValues
      ensures Flushed(codec, prior, written + [groups], dst, blocksOff, pgmValues)
      ensures Totals(signed, pgmValues, totalValues, min, max)
    {
      hide *;
      CountValues();
      PackItems();
      FlushedMore(codec, prior, written, dst, blocksOff, pgmValues, groups);
      WriteBlock();
    }

    /** Writes the position of the block, its raw values, its tables and its lists; coding a table overwrites it. */
    method WriteBlock()
      requires dValues == Values(groups) && dTypes == Types(groups) && dMin == Mins(groups) && dMax == Maxs(groups)
      requires dCount == Counts(groups) && dRowStart == Starts(codec, groups) &&
               dRowsPacked == PackedRows(codec, groups)
      modifies this`blocksOff, this`pgmValues, this`dst, this`dValues, this`dMin, this`dMax, this`dRowStart
      ensures blocksOff == old(blocksOff) + [|old(dst)|] && pgmValues == old(pgmValues) + Values(groups)
      ensures dst == Appended(codec, old(dst), groups)
    {
      hide *;
      AppendedDef(codec, dst, groups);
      blocksOff := blocksOff + [|dst|];
      pgmValues := pgmValues + dValues;
      dst := dst + Vec(codec.encodeValues(dValues));
      dValues := codec.residueValues(dValues);
      WriteTables();
    }

    method WriteTables()
      requires dTypes == Types(groups) && dMin == Mins(groups) && dMax == Maxs(groups)
      requires dCount == Counts(groups) && dRowStart == Starts(codec, groups) &&
               dRowsPacked == PackedRows(codec, groups)
      modifies this`dst, this`dMin, this`dMax, this`dRowStart
      ensures dst == TailAppended(codec, old(dst), groups)
    {
      hide *;
      TailAppendedDef(codec, dst, groups);
      dst := dst + Vec(codec.encodePlain(dTypes));
      dst := dst + Vec(codec.encode(dMin));
      dMin := codec.residue(dMin);
      dst := dst + Vec(codec.encode(dMax));
      dMax := codec.residue(dMax);
      dst := dst + Vec(codec.encode(dRowStart));
      dRowStart := codec.residue(dRowStart);
      dst := dst + Vec(codec.encodePlain(dCount));
      dst := dst + dRowsPacked;
    }

    method ResetData()
      modifies this`dValues, this`dTypes, this`dRowStart, this`dCount, this`dMin, this`dMax, this`dRows,
               this`dRowsPacked, this`dTmp, this`dMinMax, this`dBlockOffsets
      ensures dValues == [] && dTypes == [] && dRowStart == [] && dCount == [] && dMin == [] && dMax == [] &&
              dRows == [] && dRowsPacked == []
    {
      dValues, dTypes, dRowStart, dCount, dMin, dMax, dRows := [], [], [], [], [], [], [];
      dRowsPacked, dTmp, dMinMax, dBlockOffsets := [], [], [], [];
    }

    /** What validity says, piece by piece. */
    lemma {:induction false} Pieces()
      requires Valid()
      ensures codec.Lawful() && |groups| <= 128 && Pending(dValues, dRowStart, dRows, groups) && |dValues| == |groups|
      ensures groups == [] ==> dRows == []
      ensures dTypes == [] && dCount == [] && dMin == [] && dMax == [] && dRowsPacked == []
      ensures Flushed(codec, prior, written, dst, blocksOff, pgmValues) &&
              Totals(signed, pgmValues, totalValues, min, max)
      ensures dValues == Values(groups)
    {
      hide Codec.Lawful, Flushed, Totals;
    }

    lemma {:induction false} IsValid()
      requires codec.Lawful() && groups == [] && Pending(dValues, dRowStart, dRows, groups)
      requires dTypes == [] && dCount == [] && dMin == [] && dMax == [] && dRowsPacked == []
      requires Flushed(codec, prior, written, dst, blocksOff, pgmValues) &&
               Totals(signed, pgmValues, totalValues, min, max)
      ensures Valid()
    {
      hide Codec.Lawful, Flushed, Totals, Pending;
    }
  }
}
