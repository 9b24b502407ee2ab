/**
  What is assumed of the code outside the model can be met: a codec that stores words as they are, and a
  search that knows every position.
 */
module PlainCodec {
  import opened ByteCodec
  import opened Orders
  import opened Filters
  import opened IndexQuery
  import opened IndexSearch
  import opened RowLists

  /** Two words per value, the low one first. */
  function Split(xs: seq<u64>): (r: seq<u32>)
    ensures |r| == 2 * |xs|
    ensures forall i :: 0 <= i < |xs| ==> r[2 * i] == xs[i] % 0x1_0000_0000 && r[2 * i + 1] == xs[i] / 0x1_0000_0000
  {
    if xs == [] then []
    else
      var x := xs[|xs| - 1];
      Split(xs[..|xs| - 1]) + [x % 0x1_0000_0000, x / 0x1_0000_0000]
  }

  function Join(low: nat, high: nat): nat {
    low + 0x1_0000_0000 * high
  }

  function Joined(ws: seq<u32>): (r: seq<u64>)
    ensures |r| == |ws| / 2
    ensures forall i :: 0 <= i < |r| ==> r[i] == Join(ws[2 * i], ws[2 * i + 1])
  {
    seq(|ws| / 2, i requires 0 <= i < |ws| / 2 => Join(ws[2 * i], ws[2 * i + 1]))
  }

  lemma {:induction false} JoinedSplit(xs: seq<u64>)
    ensures Joined(Split(xs)) == xs
  {
    var ws := Split(xs);
    forall i | 0 <= i < |xs| ensures Joined(ws)[i] == xs[i] {
      assert ws[2 * i] == xs[i] % 0x1_0000_0000 && ws[2 * i + 1] == xs[i] / 0x1_0000_0000;
    }
  }

  function Plain(): Codec {
    Codec(
      (xs: seq<u32>) => xs, (ws: seq<u32>, n: nat) => ws,
      (xs: seq<u32>) => xs, (ws: seq<u32>, n: nat) => ws,
      Split, (ws: seq<u32>, n: nat) => Joined(ws),
      (xs: seq<u32>) => xs, (xs: seq<u64>) => xs)
  }

  /** The assumption about codecs can be met. */
  lemma {:induction false} PlainIsLawful()
    ensures Plain().Lawful()
  {
    var c := Plain();
    forall xs: seq<u64>
      ensures c.decodeValues(c.encodeValues(xs), |xs|) == xs && |c.encodeValues(xs)| <= 4 * |xs| + 1024
    {
      JoinedSplit(xs);
    }
  }

  /** The position of the first value that is not smaller, as closely as a window can tell it. */
  function Exact(s: seq<int>): int -> ApproxPos {
    v =>
      var r := LowerBound(s, v);
      var lo := if r < |s| || r == 0 then r else r - 1;
      ApproxPos(lo, lo, r)
  }

  /** The assumption about the learned index can be met, by windows of one block's length. */
  lemma {:induction false} ExactIsLearned(t: ColumnType)
    ensures Learns(Exact, t)
    ensures forall s, v :: Exact(s)(v).hi <= Exact(s)(v).lo + 128
  {
  }
}
