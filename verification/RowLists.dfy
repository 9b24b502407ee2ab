/**
  How the secondary index stores the rowids of one value: as nothing (a single row), as one coded block,
  or as a list of coded sub-blocks of 1024 rowids with their extremes and offsets
  (secondary/builder.cpp, secondary/blockreader.h).

  The integer codec is a parameter. All that is assumed of it is that decoding undoes encoding and that
  a code is not much longer than its input.
 */
module RowLists {
  import opened ByteCodec

  // ROWIDS_PER_BLOCK is 1024 and VALUES_PER_BLOCK is 128; they are written out, which keeps the arithmetic linear.

  datatype Packing = Row | RowBlock | RowBlocksList

  function PackingCode(p: Packing): u32 {
    match p
    case Row => 0
    case RowBlock => 1
    case RowBlocksList => 2
  }

  function PackingOf(n: nat): Packing {
    if n == 1 then Row else if n <= 1024 then RowBlock else RowBlocksList
  }

  /**
    The integer codec: coding with deltas, plain coding, coding of values, and what coding with deltas
    leaves in the input it works on (some codecs overwrite it with the deltas, others leave it alone).
   */
  datatype Codec = Codec(
    encode: seq<u32> -> seq<u32>, decode: (seq<u32>, nat) -> seq<u32>,
    encodePlain: seq<u32> -> seq<u32>, decodePlain: (seq<u32>, nat) -> seq<u32>,
    encodeValues: seq<u64> -> seq<u32>, decodeValues: (seq<u32>, nat) -> seq<u64>,
    residue: seq<u32> -> seq<u32>, residueValues: seq<u64> -> seq<u64>)
  {
    ghost predicate Lawful() {
      && (forall xs: seq<u32> {:trigger encode(xs)} ::
            decode(encode(xs), |xs|) == xs && |encode(xs)| <= 2 * |xs| + 1024)
      && (forall xs: seq<u32> {:trigger encodePlain(xs)} ::
            decodePlain(encodePlain(xs), |xs|) == xs && |encodePlain(xs)| <= 2 * |xs| + 1024)
      && (forall xs: seq<u64> {:trigger encodeValues(xs)} ::
            decodeValues(encodeValues(xs), |xs|) == xs && |encodeValues(xs)| <= 4 * |xs| + 1024)
      && (forall xs: seq<u32> {:trigger residue(xs)} :: |residue(xs)| == |xs|)
    }
  }

  // ---------------------------------------------------------------- sub-blocks

  function NumChunks(n: nat): nat {
    (n + 1023) / 1024
  }

  function ChunkLen(n: nat, k: nat): (r: nat)
    requires k < NumChunks(n)
    ensures 0 < r <= 1024 && 1024 * k + r <= n
    ensures k < NumChunks(n) - 1 ==> r == 1024
    ensures k == NumChunks(n) - 1 ==> 1024 * k + r == n
  {
    if k < NumChunks(n) - 1 then 1024 else n - 1024 * k
  }

  function Chunk(rows: seq<u32>, k: nat): (c: seq<u32>)
    requires k < NumChunks(|rows|)
    ensures |c| == ChunkLen(|rows|, k)
  {
    rows[1024 * k..1024 * k + ChunkLen(|rows|, k)]
  }

  /** Smallest and largest rowid of each sub-block, alternating. */
  function MinMaxOf(rows: seq<u32>): (r: seq<u32>)
    ensures |r| == 2 * NumChunks(|rows|)
  {
    seq(2 * NumChunks(|rows|), i requires 0 <= i < 2 * NumChunks(|rows|) =>
      if i % 2 == 0 then Chunk(rows, i / 2)[0] else Chunk(rows, i / 2)[|Chunk(rows, i / 2)| - 1])
  }

  /** The codes of the first k sub-blocks, one after the other. */
  function ChunkWords(c: Codec, rows: seq<u32>, k: nat): seq<u32>
    requires k <= NumChunks(|rows|)
  {
    if k == 0 then [] else ChunkWords(c, rows, k - 1) + c.encode(Chunk(rows, k - 1))
  }

  /** Where the code of each sub-block ends, in words. */
  function OffsetsOf(c: Codec, rows: seq<u32>): (r: seq<u32>)
    ensures |r| == NumChunks(|rows|)
  {
    seq(NumChunks(|rows|), i requires 0 <= i < NumChunks(|rows|) => |ChunkWords(c, rows, i + 1)| % 0x1_0000_0000)
  }

  // ---------------------------------------------------------------- bytes

  /** A vector of words behind its packed length. */
  function Vec(ws: seq<u32>): seq<u8> {
    Pack(|ws|) + WordsBytes(ws)
  }

  function ListBytes(c: Codec, rows: seq<u32>): seq<u8> {
    var n := NumChunks(|rows|);
    Pack(n) + Vec(c.encode(MinMaxOf(rows))) + Vec(c.encode(OffsetsOf(c, rows))) + WordsBytes(ChunkWords(c, rows, n))
  }

  /** The bytes stored for the rowids of one value. */
  function ItemBytes(c: Codec, rows: seq<u32>): seq<u8> {
    match PackingOf(|rows|)
    case Row => []
    case RowBlock => Vec(c.encode(rows))
    case RowBlocksList => ListBytes(c, rows)
  }

  // ---------------------------------------------------------------- reading

  /** Reads a packed length and that many words; also says where reading stopped. */
  function ReadVec(file: seq<u8>, pos: nat): (seq<u32>, nat) {
    var len := Unpack(file, pos, U32_LIMIT);
    if len.next + 4 * len.value <= |file| then (ReadWords(file, len.next, len.value), len.next + 4 * len.value)
    else ([], |file|)
  }

  /** The n words at a position, or none when the file ends before. */
  function WordsAt(file: seq<u8>, pos: nat, n: nat): seq<u32> {
    if pos + 4 * n <= |file| then ReadWords(file, pos, n) else []
  }

  /** The code of sub-block k, found between two recorded offsets. */
  function CodeAt(file: seq<u8>, data: nat, offsets: seq<u32>, k: nat): seq<u32> {
    if k >= |offsets| then []
    else
      var from: nat, to: nat := if k > 0 then offsets[k - 1] else 0, offsets[k];
      if from <= to then WordsAt(file, data + 4 * from, to - from) else []
  }

  lemma {:induction false} ReadVecBack(file: seq<u8>, pos: nat, ws: seq<u32>)
    requires |ws| < U32_LIMIT && At(file, pos, Vec(ws))
    ensures ReadVec(file, pos) == (ws, pos + |Vec(ws)|)
  {
    hide Pack, WordsBytes, Unpack, ReadWords;
    AtConcat(file, pos, Pack(|ws|), WordsBytes(ws));
    UnpackPack(file, pos, |ws|, U32_LIMIT);
    ReadWordsBack(file, pos + |Pack(|ws|)|, ws);
  }

  // ---------------------------------------------------------------- the sub-blocks make up the list

  function Concat(rows: seq<u32>, k: nat): seq<u32>
    requires k <= NumChunks(|rows|)
  {
    if k == 0 then [] else Concat(rows, k - 1) + Chunk(rows, k - 1)
  }

  lemma {:induction false} ConcatPrefix(rows: seq<u32>, k: nat)
    requires k <= NumChunks(|rows|)
    ensures Concat(rows, k) == if k < NumChunks(|rows|) then rows[..1024 * k] else rows
  {
    if k > 0 {
      ConcatPrefix(rows, k - 1);
      var mid, end := 1024 * (k - 1), 1024 * (k - 1) + ChunkLen(|rows|, k - 1);
      assert rows[..end] == rows[..mid] + rows[mid..end];
    } else if NumChunks(|rows|) == 0 {
      assert |rows| == 0;
    }
  }

  // ---------------------------------------------------------------- finding a sub-block in the file

  lemma {:induction false} AtWordsConcat(file: seq<u8>, pos: nat, a: seq<u32>, b: seq<u32>)
    requires At(file, pos, WordsBytes(a + b))
    ensures At(file, pos, WordsBytes(a)) && At(file, pos + 4 * |a|, WordsBytes(b))
  {
    WordsBytesConcat(a, b);
    hide At, WordsBytes;
    AtConcat(file, pos, WordsBytes(a), WordsBytes(b));
  }

  lemma {:induction false} AtChunkWords(c: Codec, file: seq<u8>, pos: nat, rows: seq<u32>, k: nat, n: nat)
    requires k <= n <= NumChunks(|rows|)
    requires At(file, pos, WordsBytes(ChunkWords(c, rows, n)))
    ensures At(file, pos, WordsBytes(ChunkWords(c, rows, k)))
  {
    hide At, WordsBytes;
    if k < n {
      AtWordsConcat(file, pos, ChunkWords(c, rows, n - 1), c.encode(Chunk(rows, n - 1)));
      AtChunkWords(c, file, pos, rows, k, n - 1);
    }
  }

  lemma {:induction false} ChunkWordsGrow(c: Codec, rows: seq<u32>, k: nat, n: nat)
    requires k <= n <= NumChunks(|rows|)
    ensures |ChunkWords(c, rows, k)| <= |ChunkWords(c, rows, n)|
  {
    if k < n {
      ChunkWordsGrow(c, rows, k, n - 1);
    }
  }

  /** Offset k is where the code of sub-block k ends. */
  lemma {:induction false} OffsetAt(c: Codec, rows: seq<u32>, k: nat)
    requires k < NumChunks(|rows|) && |ChunkWords(c, rows, NumChunks(|rows|))| < 0x1_0000_0000
    ensures OffsetsOf(c, rows)[k] == |ChunkWords(c, rows, k + 1)|
  {
    ChunkWordsGrow(c, rows, k + 1, NumChunks(|rows|));
  }

  lemma {:induction false} ChunkWordsStep(c: Codec, rows: seq<u32>, k: nat)
    requires k < NumChunks(|rows|)
    ensures ChunkWords(c, rows, k + 1) == ChunkWords(c, rows, k) + c.encode(Chunk(rows, k))
    ensures ChunkWords(c, rows, 0) == []
  {
  }

  lemma {:induction false} CodeBetween(file: seq<u8>, data: nat, offsets: seq<u32>, k: nat, from: nat, code: seq<u32>)
    requires k < |offsets| && from == (if k > 0 then offsets[k - 1] else 0) && offsets[k] == from + |code|
    requires At(file, data + 4 * from, WordsBytes(code))
    ensures CodeAt(file, data, offsets, k) == code
  {
    hide WordsBytes, ReadWords;
    ReadWordsBack(file, data + 4 * from, code);
  }

  /** The words between two recorded offsets are the code of the sub-block between them. */
  lemma {:induction false} ChunkInFile(c: Codec, file: seq<u8>, pos: nat, rows: seq<u32>, k: nat)
    requires k < NumChunks(|rows|) && |ChunkWords(c, rows, NumChunks(|rows|))| < 0x1_0000_0000
    requires At(file, pos, WordsBytes(ChunkWords(c, rows, NumChunks(|rows|))))
    ensures CodeAt(file, pos, OffsetsOf(c, rows), k) == c.encode(Chunk(rows, k))
  {
    hide ChunkWords, WordsBytes, ReadWords, Chunk, OffsetsOf, At, CodeAt, NumChunks;
    AtChunkWords(c, file, pos, rows, k + 1, NumChunks(|rows|));
    ChunkWordsStep(c, rows, k);
    AtWordsConcat(file, pos, ChunkWords(c, rows, k), c.encode(Chunk(rows, k)));
    OffsetAt(c, rows, k);
    if k > 0 {
      OffsetAt(c, rows, k - 1);
    }
    CodeBetween(file, pos, OffsetsOf(c, rows), k, |ChunkWords(c, rows, k)|, c.encode(Chunk(rows, k)));
  }
}
