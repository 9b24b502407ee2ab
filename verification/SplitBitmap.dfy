/**
  The split bitmap (secondary/blockreader.cpp, SplitBitmap_c): bits in pieces of 65536, each allocated when
  its first bit is set. It behaves like one bit vector made of all the pieces.
 */
module SplitBitmap {
  import opened Bits
  import opened BitVector

  /** A piece: not allocated, or the words of a bit vector with 65536 bits. */
  datatype Piece = Missing | Present(words: seq<Word>)

  function Zeros(n: nat): (r: seq<Word>)
    ensures |r| == n && forall i :: 0 <= i < n ==> r[i] == 0
  {
    seq(n, _ => 0)
  }

  function WordsOf(p: Piece): seq<Word> {
    if p.Missing? then Zeros(1024) else p.words
  }

  /** An allocated piece has a bit set. */
  ghost predicate GoodPiece(p: Piece) {
    |WordsOf(p)| == 1024 && (p.Present? ==> exists j :: 0 <= j < 65536 && HasBit(p.words, j))
  }

  ghost predicate GoodPieces(ps: seq<Piece>) {
    forall k :: 0 <= k < |ps| ==> GoodPiece(ps[k])
  }

  /** The words of all pieces. */
  function Flat(ps: seq<Piece>): seq<Word> {
    if ps == [] then [] else Flat(ps[..|ps| - 1]) + WordsOf(ps[|ps| - 1])
  }

  lemma {:induction false} FlatLength(ps: seq<Piece>)
    requires GoodPieces(ps)
    ensures |Flat(ps)| == 1024 * |ps|
  {
    if ps != [] {
      FlatLength(ps[..|ps| - 1]);
      assert GoodPiece(ps[|ps| - 1]);
    }
  }

  lemma {:induction false} FlatAt(ps: seq<Piece>, k: nat, j: nat)
    requires GoodPieces(ps) && k < |ps| && j < 1024
    ensures |Flat(ps)| == 1024 * |ps| && |WordsOf(ps[k])| == 1024
    ensures Flat(ps)[1024 * k + j] == WordsOf(ps[k])[j]
    decreases |ps|
  {
    var n := |ps| - 1;
    FlatLength(ps[..n]);
    assert GoodPiece(ps[n]);
    if k < n {
      FlatAt(ps[..n], k, j);
    }
  }

  /** Bit i of piece k is bit 65536 * k + i of the whole. */
  lemma {:induction false} FlatBit(ps: seq<Piece>, k: nat, i: nat)
    requires GoodPieces(ps) && k < |ps| && i < 65536
    ensures |Flat(ps)| == 1024 * |ps| && |WordsOf(ps[k])| == 1024
    ensures HasBit(Flat(ps), 65536 * k + i) == HasBit(WordsOf(ps[k]), i)
  {
    FlatAt(ps, k, i / 64);
    assert (65536 * k + i) / 64 == 1024 * k + i / 64 && (65536 * k + i) % 64 == i % 64;
    hide Bit;
  }

  // ---------------------------------------------------------------- members of the whole

  lemma {:induction false} MembersMoved(ws: seq<Word>, vs: seq<Word>, off: nat, lo: nat, hi: nat)
    requires lo <= hi && hi <= 64 * |vs| && off + hi <= 64 * |ws|
    requires forall i :: lo <= i < hi ==> HasBit(ws, off + i) == HasBit(vs, i)
    ensures Members(ws, off + lo, off + hi) == Shift(Members(vs, lo, hi), off)
    decreases hi
  {
    hide HasBit;
    if lo < hi {
      assert HasBit(ws, off + (hi - 1)) == HasBit(vs, hi - 1);
      MembersMoved(ws, vs, off, lo, hi - 1);
      MemberWritten(Members(vs, lo, hi - 1), hi - 1, off);
    }
  }

  lemma {:induction false} PieceLength(ps: seq<Piece>, k: nat)
    requires GoodPieces(ps) && k < |ps|
    ensures |WordsOf(ps[k])| == 1024
  {
    assert GoodPiece(ps[k]);
  }

  /** The members of part of a piece, as members of the whole. */
  lemma {:induction false} PieceMembers(ps: seq<Piece>, k: nat, a: nat, b: nat)
    requires GoodPieces(ps) && k < |ps| && a <= b <= 1024
    ensures |Flat(ps)| == 1024 * |ps| && |WordsOf(ps[k])| == 1024
    ensures Members(Flat(ps), 64 * (1024 * k + a),
            64 * (1024 * k + b)) == Shift(Members(WordsOf(ps[k]), 64 * a, 64 * b), 65536 * k)
  {
    hide *;
    FlatLength(ps);
    PieceLength(ps, k);
    forall i | 64 * a <= i < 64 * b ensures HasBit(Flat(ps), 65536 * k + i) == HasBit(WordsOf(ps[k]), i) {
      FlatBit(ps, k, i);
    }
    MembersMoved(Flat(ps), WordsOf(ps[k]), 65536 * k, 64 * a, 64 * b);
  }

  lemma {:induction false} NoBits(n: nat, lo: nat, hi: nat)
    requires hi <= 64 * n
    ensures Members(Zeros(n), lo, hi) == []
  {
    forall i | lo <= i < hi ensures !HasBit(Zeros(n), i) {
      ConstantBits(i % 64);
    }
    hide HasBit;
    MembersGap(Zeros(n), lo, hi);
  }

  lemma {:induction false} MissingPiece(ps: seq<Piece>, k: nat)
    requires GoodPieces(ps) && k < |ps| && ps[k].Missing?
    ensures |Flat(ps)| == 1024 * |ps| && Members(Flat(ps), 65536 * k, 65536 * k + 65536) == []
  {
    hide *;
    MissingEmpty(ps[k]);
    PieceMembers(ps, k, 0, 1024);
    ShiftNothing(65536 * k);
    assert 64 * (1024 * k + 0) == 65536 * k && 64 * (1024 * k + 1024) == 65536 * k + 65536;
  }

  lemma {:induction false} MissingEmpty(p: Piece)
    requires p.Missing?
    ensures |WordsOf(p)| == 1024 && Members(WordsOf(p), 64 * 0, 64 * 1024) == []
  {
    hide Members;
    NoBits(1024, 0, 65536);
  }

  lemma {:induction false} ShiftNothing(d: nat)
    ensures Shift([], d) == []
  {
  }

  /** Pieces from k up to l that are missing have no members. */
  lemma {:induction false} MissingGap(ps: seq<Piece>, k: nat, l: nat)
    requires GoodPieces(ps) && k <= l <= |ps| && forall m :: k <= m < l ==> ps[m].Missing?
    ensures |Flat(ps)| == 1024 * |ps| && Members(Flat(ps), 65536 * k, 65536 * l) == []
    decreases l - k
  {
    hide Flat, HasBit, GoodPieces;
    FlatLength(ps);
    if k < l {
      hide Members;
      MissingPiece(ps, k);
      MissingGap(ps, k + 1, l);
      MembersSplit(Flat(ps), 65536 * k, 65536 * k + 65536, 65536 * l);
    }
  }

  // ---------------------------------------------------------------- setting bits

  ghost predicate BitAdded(before: seq<Word>, after: seq<Word>, bit: nat) {
    && |after| == |before|
    && forall i :: 0 <= i < 64 * |before| ==> (HasBit(after, i) <==> i == bit || HasBit(before, i))
  }

  function WithBit(ws: seq<Word>, bit: nat): (r: seq<Word>)
    requires bit < 64 * |ws|
    ensures |r| == |ws|
  {
    ws[bit / 64 := Or(ws[bit / 64], OneBit(bit % 64))]
  }

  lemma {:induction false} WithBitAdds(ws: seq<Word>, bit: nat)
    requires bit < 64 * |ws|
    ensures BitAdded(ws, WithBit(ws, bit), bit)
  {
    hide Bit, Meets, OneBit, Below, And, Or, Not;
    forall i | 0 <= i < 64 * |ws| ensures HasBit(WithBit(ws, bit), i) <==> i == bit || HasBit(ws, i) {
      if i / 64 == bit / 64 {
        BitOr(ws[bit / 64], OneBit(bit % 64), i % 64);
        BitOfOneBit(bit % 64, i % 64);
      }
    }
  }

  lemma {:induction false} PieceStaysGood(p: Piece, b: nat)
    requires b < 65536 && |WordsOf(p)| == 1024
    ensures var q := Present(WithBit(WordsOf(p), b)); GoodPiece(q) && BitAdded(WordsOf(p), WordsOf(q), b)
  {
    WithBitAdds(WordsOf(p), b);
    var vs := WithBit(WordsOf(p), b);
    hide WithBit;
    assert HasBit(vs, b);
  }

  lemma {:induction false} OthersStayGood(ps: seq<Piece>, k: nat, q: Piece)
    requires GoodPieces(ps) && k < |ps| && GoodPiece(q)
    ensures GoodPieces(ps[k := q])
  {
    hide GoodPiece;
  }

  lemma {:induction false} PieceSet(ps: seq<Piece>, k: nat, b: nat)
    requires GoodPieces(ps) && k < |ps| && b < 65536 && |WordsOf(ps[k])| == 1024
    ensures var qs := ps[k := Present(WithBit(WordsOf(ps[k]), b))];
            GoodPieces(qs) && BitAdded(Flat(ps), Flat(qs), 65536 * k + b)
  {
    hide *;
    PieceStaysGood(ps[k], b);
    var q := Present(WithBit(WordsOf(ps[k]), b));
    OthersStayGood(ps, k, q);
    var qs := ps[k := q];
    FlatLength(ps);
    FlatLength(qs);
    forall i | 0 <= i < 64 * |Flat(ps)|
      ensures HasBit(Flat(qs), i) <==> i == 65536 * k + b || HasBit(Flat(ps), i)
    {
      assert i == 65536 * (i / 65536) + i % 65536;
      PieceSetAt(ps, qs, k, b, i / 65536, i % 65536);
    }
    IsBitAdded(Flat(ps), Flat(qs), 65536 * k + b);
  }

  lemma {:induction false} IsBitAdded(before: seq<Word>, after: seq<Word>, bit: nat)
    requires |after| == |before|
    requires forall i :: 0 <= i < 64 * |before| ==> (HasBit(after, i) <==> i == bit || HasBit(before, i))
    ensures BitAdded(before, after, bit)
  {
  }

  lemma {:induction false} PieceSetAt(ps: seq<Piece>, qs: seq<Piece>, k: nat, b: nat, l: nat, i: nat)
    requires GoodPieces(ps) && GoodPieces(qs) && k < |ps| == |qs| && b < 65536 && l < |ps| && i < 65536
    requires (forall m :: 0 <= m < |ps| && m != k ==> qs[m] == ps[m]) && BitAdded(WordsOf(ps[k]), WordsOf(qs[k]), b)
    ensures |Flat(ps)| == |Flat(qs)| == 1024 * |ps|
    ensures HasBit(Flat(qs), 65536 * l + i) <==> 65536 * l + i == 65536 * k + b || HasBit(Flat(ps), 65536 * l + i)
  {
    hide Flat, GoodPieces, WordsOf, HasBit;
    FlatBit(ps, l, i);
    FlatBit(qs, l, i);
  }

  // ---------------------------------------------------------------- fetching

  /** No bit is set at or behind word iter. */
  ghost predicate NothingFrom(ws: seq<Word>, iter: nat) {
    iter <= |ws| ==> Members(ws, 64 * iter, 64 * |ws|) == []
  }

  lemma {:induction false} ShiftZero(s: seq<nat>)
    ensures Shift(s, 0) == s
  {
  }

  lemma {:induction false} PieceFacts(ps: seq<Piece>, k: nat)
    requires GoodPieces(ps) && k < |ps| && ps[k].Present?
    ensures |ps[k].words| == 1024 && WordsOf(ps[k]) == ps[k].words
  {
    assert GoodPiece(ps[k]);
  }

  /** Fetching does not go past the words of a piece. */
  lemma {:induction false} InsidePiece(ws: seq<Word>, iter: nat, base: nat, next: nat, buf: seq<nat>, pos: nat,
                                       end: nat)
    requires Fetched(ws, iter, base, next, buf, pos, end) && iter <= |ws|
    ensures next <= |ws|
  {
    hide Members, Shift;
  }

  lemma {:induction false} EmptyFetch(ps: seq<Piece>, iter: nat, buf: seq<nat>, pos: nat)
    requires GoodPieces(ps) && iter / 1024 >= |ps| && pos <= |buf|
    ensures Fetched(Flat(ps), iter, 0, iter, buf, pos, pos) && NothingFrom(Flat(ps), iter)
  {
    FlatLength(ps);
    hide Flat;
  }

  lemma {:induction false} FetchedPiece(ps: seq<Piece>, k: nat, iter: nat, nx: nat, buf: seq<nat>, pos: nat, end: nat)
    requires GoodPieces(ps) && k < |ps| && k == iter / 1024 && |WordsOf(ps[k])| == 1024
    requires Fetched(WordsOf(ps[k]), iter - 1024 * k, 65536 * k, nx, buf, pos, end)
    ensures Fetched(Flat(ps), iter, 0, nx + 1024 * k, buf, pos, end)
  {
    hide Flat, Members, Shift, WordsOf, GoodPieces;
    PieceMembers(ps, k, iter - 1024 * k, nx);
    ShiftZero(Members(Flat(ps), 64 * iter, 64 * (nx + 1024 * k)));
  }

  /** A piece in which nothing was found has nothing from word iter on. */
  lemma {:induction false} FetchedNothing(ps: seq<Piece>, k: nat, iter: nat, nx: nat, buf: seq<nat>, pos: nat)
    requires GoodPieces(ps) && k < |ps| && k == iter / 1024 && |WordsOf(ps[k])| == 1024 && nx >= 1024
    requires Fetched(WordsOf(ps[k]), iter - 1024 * k, 65536 * k, nx, buf, pos, pos)
    ensures |Flat(ps)| == 1024 * |ps| && Members(Flat(ps), 64 * iter, 65536 * (k + 1)) == []
  {
    hide Flat, WordsOf, GoodPieces, Members, Shift;
    PieceMembers(ps, k, iter - 1024 * k, 1024);
    assert buf[pos..pos] == [];
  }

  lemma {:induction false} FetchedLater(ps: seq<Piece>, k: nat, iter: nat, next: nat, buf: seq<nat>, pos: nat, end: nat)
    requires GoodPieces(ps) && k < |ps| && k == iter / 1024 && |Flat(ps)| == 1024 * |ps|
    requires Members(Flat(ps), 64 * iter, 65536 * (k + 1)) == []
    requires Fetched(Flat(ps), 1024 * k + 1024, 0, next, buf, pos, end)
    ensures Fetched(Flat(ps), iter, 0, next, buf, pos, end)
    ensures NothingFrom(Flat(ps), 1024 * k + 1024) ==> NothingFrom(Flat(ps), iter)
  {
    hide Flat, GoodPieces, Members, Shift;
    FetchedBehindGap(Flat(ps), iter, 1024 * k + 1024, next, buf, pos, end);
    MembersSplit(Flat(ps), 64 * iter, 65536 * (k + 1), 64 * |Flat(ps)|);
  }

  /** Missing pieces have nothing from word iter on. */
  lemma {:induction false} GapFrom(ps: seq<Piece>, first: nat, k: nat, iter: nat)
    requires GoodPieces(ps) && first == iter / 1024 && first < k <= |ps| && forall m :: first <= m < k ==>
            ps[m].Missing?
    ensures |Flat(ps)| == 1024 * |ps| && Members(Flat(ps), 64 * iter, 65536 * k) == []
  {
    hide Flat, GoodPieces, Members;
    MissingGap(ps, first, k);
    MembersSplit(Flat(ps), 65536 * first, 64 * iter, 65536 * k);
  }

  lemma {:induction false} NoPiecesLeft(ps: seq<Piece>, first: nat, iter: nat, buf: seq<nat>, pos: nat)
    requires GoodPieces(ps) && first == iter / 1024 && first < |ps| && forall m :: first <= m < |ps| ==> ps[m].Missing?
    requires pos <= |buf|
    ensures Fetched(Flat(ps), iter, 0, iter, buf, pos, pos) && NothingFrom(Flat(ps), iter)
  {
    hide *;
    GapFrom(ps, first, |ps|, iter);
    assert 64 * |Flat(ps)| == 65536 * |ps|;
    NothingLeft(Flat(ps), iter, buf, pos);
  }

  lemma {:induction false} NothingLeft(ws: seq<Word>, iter: nat, buf: seq<nat>, pos: nat)
    requires iter <= |ws| ==> Members(ws, 64 * iter, 64 * |ws|) == []
    requires pos <= |buf|
    ensures Fetched(ws, iter, 0, iter, buf, pos, pos) && NothingFrom(ws, iter)
  {
    if iter <= |ws| {
      assert Members(ws, 64 * iter, 64 * iter) == [] && buf[pos..pos] == [];
    }
  }

  /** The next allocated piece always has something. */
  lemma {:induction false} FetchedNextPiece(ps: seq<Piece>, first: nat, k: nat, iter: nat, nx: nat, buf: seq<nat>,
                                            pos: nat, end: nat)
    requires GoodPieces(ps) && first == iter / 1024 && first < k < |ps| && ps[k].Present?
    requires forall m :: first <= m < k ==> ps[m].Missing?
    requires Fetched(ps[k].words, 0, 65536 * k, nx, buf, pos, end) && (end == pos ==> nx >= 1024)
    ensures Fetched(Flat(ps), iter, 0, nx + 1024 * k, buf, pos, end) && end != pos
  {
    hide Flat, GoodPieces, Members, WordsOf, Shift, Fetched;
    PieceFacts(ps, k);
    GapFrom(ps, first, k, iter);
    FetchedSome(ps, k, nx, buf, pos, end);
    FetchedPiece(ps, k, 1024 * k, nx, buf, pos, end);
    FetchedBehindGap(Flat(ps), iter, 1024 * k, nx + 1024 * k, buf, pos, end);
  }

  lemma {:induction false} FetchedSome(ps: seq<Piece>, k: nat, nx: nat, buf: seq<nat>, pos: nat, end: nat)
    requires GoodPieces(ps) && k < |ps| && ps[k].Present?
    requires Fetched(ps[k].words, 0, 65536 * k, nx, buf, pos, end) && (end == pos ==> nx >= 1024)
    ensures end != pos
  {
    PresentHasMember(ps[k]);
    hide Members;
    assert nx <= 1024 && (nx == 1024 ==> |buf[pos..end]| == |Members(ps[k].words, 0, 65536)| > 0);
  }

  lemma {:induction false} FetchedBehindGap(ws: seq<Word>, iter: nat, mid: nat, next: nat, buf: seq<nat>, pos: nat,
                                            end: nat)
    requires iter <= mid <= |ws| && Members(ws, 64 * iter, 64 * mid) == [] && Fetched(ws, mid, 0, next, buf, pos, end)
    ensures Fetched(ws, iter, 0, next, buf, pos, end)
  {
    hide Members, Shift;
    MembersSplit(ws, 64 * iter, 64 * mid, 64 * next);
    assert [] + Members(ws, 64 * mid, 64 * next) == Members(ws, 64 * mid, 64 * next);
  }

  lemma {:induction false} PresentHasMember(p: Piece)
    requires GoodPiece(p) && p.Present?
    ensures |p.words| == 1024 && Members(p.words, 0, 65536) != []
  {
    var j :| 0 <= j < 65536 && HasBit(p.words, j);
    MembersComplete(p.words, 0, 65536);
    hide Members;
    assert j in Members(p.words, 0, 65536);
  }

  function AllMissing(n: nat): (r: seq<Piece>)
    ensures |r| == n && forall k :: 0 <= k < n ==> r[k].Missing?
  {
    seq(n, _ => Missing)
  }

  lemma {:induction false} NothingPresent(n: nat)
    ensures var ps := AllMissing(n);
            GoodPieces(ps) && |Flat(ps)| == 1024 * n && Members(Flat(ps), 0, 64 * |Flat(ps)|) == []
  {
    var ps := AllMissing(n);
    forall k | 0 <= k < |ps| ensures GoodPiece(ps[k]) {
    }
    hide *;
    MissingGap(ps, 0, n);
    assert 64 * |Flat(ps)| == 65536 * n;
  }

  // ---------------------------------------------------------------- the class

  class SplitBitmap {
    var bitmaps: seq<Piece>
    var size: nat

    ghost predicate Valid()
      reads this
    {
      GoodPieces(bitmaps) && |bitmaps| == (size + 65535) / 65536
    }

    ghost function Words(): seq<Word>
      reads this
    {
      Flat(bitmaps)
    }

    constructor (n: nat)
      ensures Valid() && size == n && 64 * |Words()| >= n && Members(Words(), 0, 64 * |Words()|) == []
    {
      hide Flat, Members, HasBit, GoodPieces;
      NothingPresent((n + 65535) / 65536);
      size := n;
      bitmaps := AllMissing((n + 65535) / 65536);
    }

    method BitSet(bit: nat)
      requires Valid() && bit < size
      modifies this`bitmaps
      ensures Valid() && BitAdded(old(Words()), Words(), bit)
    {
      assert GoodPiece(bitmaps[bit / 65536]);
      hide Flat, GoodPieces, BitAdded, HasBit, WithBit;
      var k := bit / 65536;
      PieceSet(bitmaps, k, bit - 65536 * k);
      var words := if bitmaps[k].Missing? then Zeros(1024) else bitmaps[k].words;
      bitmaps := bitmaps[k := Present(WithBit(words, bit - 65536 * k))];
    }

    method Fetch(iter: nat, buf: array<nat>, pos: nat) returns (next: nat, end: nat)
      requires Valid() && pos + 64 < buf.Length
      modifies buf
      ensures Fetched(old(Words()), iter, 0, next, buf[..], pos, end)
      ensures buf[..pos] == old(buf[..pos])
      ensures end == pos ==> NothingFrom(old(Words()), iter)
      ensures pos < end < buf.Length - 64 ==> next % 1024 == 0
    {
      next, end := FetchPieces(bitmaps, iter, buf, pos);
    }
  }

  /** Fetches from the first piece that has something at or behind word iter. */
  method FetchPieces(ps: seq<Piece>, iter: nat, buf: array<nat>, pos: nat) returns (next: nat, end: nat)
    requires GoodPieces(ps) && pos + 64 < buf.Length
    modifies buf
    ensures Fetched(Flat(ps), iter, 0, next, buf[..], pos, end)
    ensures buf[..pos] == old(buf[..pos])
    ensures end == pos ==> NothingFrom(Flat(ps), iter)
    ensures pos < end < buf.Length - 64 ==> next % 1024 == 0
    decreases |ps| - iter / 1024
  {
    hide *;
    FlatLength(ps);
    var k := iter / 1024;
    if k >= |ps| {
      EmptyFetch(ps, iter, buf[..], pos);
      return iter, pos;
    }
    if ps[k].Present? {
      PieceFacts(ps, k);
      var inPiece: nat;
      inPiece, end := FetchWords(ps[k].words, iter - 1024 * k, 65536 * k, buf, pos);
      InsidePiece(ps[k].words, iter - 1024 * k, 65536 * k, inPiece, buf[..], pos, end);
      if end == pos {
        FetchedNothing(ps, k, iter, inPiece, buf[..], pos);
        next, end := FetchPieces(ps, 1024 * k + 1024, buf, pos);
        FetchedLater(ps, k, iter, next, buf[..], pos, end);
      } else {
        FetchedPiece(ps, k, iter, inPiece, buf[..], pos, end);
        next := inPiece + 1024 * k;
      }
    } else {
      var first := k;
      k := k + 1;
      while k < |ps| && ps[k].Missing?
        invariant first < k <= |ps| && forall m :: first <= m < k ==> ps[m].Missing?
      {
        k := k + 1;
      }
      if k == |ps| {
        NoPiecesLeft(ps, first, iter, buf[..], pos);
        return iter, pos;
      }
      PieceFacts(ps, k);
      var inPiece: nat;
      inPiece, end := FetchWords(ps[k].words, 0, 65536 * k, buf, pos);
      InsidePiece(ps[k].words, 0, 65536 * k, inPiece, buf[..], pos, end);
      FetchedNextPiece(ps, first, k, iter, inPiece, buf[..], pos, end);
      next := inPiece + 1024 * k;
    }
  }
}
