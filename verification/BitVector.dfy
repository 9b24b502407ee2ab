/**
  The growable bit vector (util/bitvec.h, BitVec_T with 64-bit words).

  A vector is described by which positions its words contain. `Resize` never clears words it keeps and
  never shrinks the storage, so positions beyond the current size can hold bits of an earlier use.
 */
module BitVector {
  import opened Bits
  import opened Buffers
  import opened Orders

  predicate HasBit(ws: seq<Word>, i: nat)
    requires i < 64 * |ws|
  {
    Bit(ws[i / 64], i % 64)
  }

  /** The positions in [lo, hi) that are set, in ascending order. */
  ghost function Members(ws: seq<Word>, lo: nat, hi: nat): (r: seq<nat>)
    requires hi <= 64 * |ws|
    ensures forall k :: 0 <= k < |r| ==> lo <= r[k] < hi && HasBit(ws, r[k])
    ensures |r| <= if lo <= hi then hi - lo else 0
    decreases hi
  {
    if hi <= lo then []
    else Members(ws, lo, hi - 1) + (if HasBit(ws, hi - 1) then [hi - 1] else [])
  }

  /** The list of members has every set position, in strictly ascending order. */
  lemma {:induction false} MembersComplete(ws: seq<Word>, lo: nat, hi: nat)
    requires hi <= 64 * |ws|
    ensures forall i :: lo <= i < hi && HasBit(ws, i) ==> i in Members(ws, lo, hi)
    ensures Ascending(Members(ws, lo, hi))
    decreases hi
  {
    hide HasBit;
    if lo < hi {
      MembersComplete(ws, lo, hi - 1);
      var front := Members(ws, lo, hi - 1);
      assert Members(ws, lo, hi) == front + (if HasBit(ws, hi - 1) then [hi - 1] else []);
    }
  }

  lemma {:induction false} MembersSplit(ws: seq<Word>, lo: nat, mid: nat, hi: nat)
    requires lo <= mid <= hi <= 64 * |ws|
    ensures Members(ws, lo, hi) == Members(ws, lo, mid) + Members(ws, mid, hi)
    decreases hi
  {
    if mid < hi {
      MembersSplit(ws, lo, mid, hi - 1);
    }
  }

  lemma {:induction false} MembersGap(ws: seq<Word>, lo: nat, hi: nat)
    requires hi <= 64 * |ws|
    requires forall i :: lo <= i < hi ==> !HasBit(ws, i)
    ensures Members(ws, lo, hi) == []
    decreases hi
  {
    if lo < hi {
      MembersGap(ws, lo, hi - 1);
    }
  }

  lemma {:induction false} MembersSame(ws: seq<Word>, vs: seq<Word>, lo: nat, hi: nat)
    requires hi <= 64 * |ws| && hi <= 64 * |vs|
    requires forall i :: lo <= i < hi ==> HasBit(ws, i) == HasBit(vs, i)
    ensures Members(ws, lo, hi) == Members(vs, lo, hi)
    decreases hi
  {
    if lo < hi {
      MembersSame(ws, vs, lo, hi - 1);
    }
  }

  /** Bit j of word w is position 64 * w + j. */
  lemma {:induction false} Position(ws: seq<Word>, w: nat, i: nat)
    requires w < |ws| && 64 * w <= i < 64 * w + 64
    ensures HasBit(ws, i) == Bit(ws[w], i - 64 * w)
  {
    assert i / 64 == w && i % 64 == i - 64 * w;
  }

  lemma {:induction false} MembersPush(ws: seq<Word>, lo: nat, hi: nat)
    requires lo <= hi < 64 * |ws| && HasBit(ws, hi)
    ensures Members(ws, lo, hi + 1) == Members(ws, lo, hi) + [hi]
  {
  }

  lemma {:induction false} MembersSkip(ws: seq<Word>, lo: nat, mid: nat, hi: nat)
    requires lo <= mid <= hi <= 64 * |ws|
    requires forall i :: mid <= i < hi ==> !HasBit(ws, i)
    ensures Members(ws, lo, hi) == Members(ws, lo, mid)
  {
    MembersSplit(ws, lo, mid, hi);
    MembersGap(ws, mid, hi);
  }

  /** One word: once its bits below lo are dealt with, its next bit is the next member. */
  lemma {:induction false} NextMember(ws: seq<Word>, word: nat, lo: nat, k: nat)
    requires word < |ws| && lo <= k < 64 && Bit(ws[word], k)
    requires forall j :: lo <= j < k ==> !Bit(ws[word], j)
    ensures Members(ws, 64 * word, 64 * word + k + 1) == Members(ws, 64 * word, 64 * word + lo) + [64 * word + k]
  {
    hide *;
    var base := 64 * word;
    forall i | base + lo <= i < base + k ensures !HasBit(ws, i) {
      Position(ws, word, i);
    }
    MembersSkip(ws, base, base + lo, base + k);
    Position(ws, word, base + k);
    MembersPush(ws, base, base + k);
  }

  lemma {:induction false} NoMoreMembers(ws: seq<Word>, word: nat, lo: nat)
    requires word < |ws| && lo <= 64
    requires forall j :: lo <= j < 64 ==> !Bit(ws[word], j)
    ensures Members(ws, 64 * word, 64 * word + 64) == Members(ws, 64 * word, 64 * word + lo)
  {
    hide *;
    var base := 64 * word;
    forall i | base + lo <= i < base + 64 ensures !HasBit(ws, i) {
      Position(ws, word, i);
    }
    MembersSkip(ws, base, base + lo, base + 64);
  }

  /** What scanning a word from bit `from` up to bit `to` says about positions. */
  lemma {:induction false} WordScanned(ws: seq<Word>, word: nat, from: nat, to: nat)
    requires word < |ws| && from <= to <= 64
    requires forall j :: from <= j < to ==> !Bit(ws[word], j)
    ensures forall i :: 64 * word + from <= i < 64 * word + to ==> !HasBit(ws, i)
    ensures to < 64 && Bit(ws[word], to) ==> HasBit(ws, 64 * word + to)
  {
    hide *;
    forall i | 64 * word + from <= i < 64 * word + to ensures !HasBit(ws, i) {
      Position(ws, word, i);
    }
    if to < 64 {
      Position(ws, word, 64 * word + to);
    }
  }

  // ---------------------------------------------------------------- inversion, as a function

  /** 1 << n on a machine that takes the shift count modulo the word width; n == 64 is the wide shift. */
  function ShiftedOne(n: nat): Word
    requires n <= 64
  {
    OneBit(n % 64)
  }

  /** Position i after Invert(minBit, maxBit), given whether it was set before. */
  ghost predicate InvertedBit(was: bool, i: nat, minBit: nat, maxBit: nat) {
    if i / 64 < minBit / 64 || i / 64 > maxBit / 64 then was
    else if i < minBit || i > maxBit then false
    else if i / 64 == maxBit / 64 && maxBit % 64 == 63 then false
    else !was
  }

  /** What inversion is for: inside the bounds the complement, outside them nothing. */
  ghost predicate IsComplement(before: seq<Word>, after: seq<Word>, minBit: nat, maxBit: nat) {
    |after| == |before| &&
    forall i :: 0 <= i < 64 * |before| ==> (HasBit(after, i) <==> minBit <= i <= maxBit && !HasBit(before, i))
  }

  ghost predicate Within(ws: seq<Word>, minBit: nat, maxBit: nat) {
    forall i :: 0 <= i < 64 * |ws| && HasBit(ws, i) ==> minBit <= i <= maxBit
  }

  ghost predicate IsInverted(before: seq<Word>, after: seq<Word>, minBit: nat, maxBit: nat) {
    |after| == |before| &&
    forall i :: 0 <= i < 64 * |before| ==> (HasBit(after, i) <==> InvertedBit(HasBit(before, i), i, minBit, maxBit))
  }

  /**
    Inversion yields the complement exactly when the upper bound is not the last bit of its word, or that
    word has nothing to invert.
   */
  lemma {:induction false} InvertExactIff(before: seq<Word>, after: seq<Word>, minBit: nat, maxBit: nat)
    requires minBit <= maxBit < 64 * |before|
    requires Within(before, minBit, maxBit) && IsInverted(before, after, minBit, maxBit)
    ensures IsComplement(before, after, minBit, maxBit) <==>
              maxBit % 64 != 63 ||
              forall i :: 0 <= i < 64 * |before| && i / 64 == maxBit / 64 && minBit <= i ==> HasBit(before, i)
  {
    hide Bit, Meets, OneBit, Below, And, Or, Not;
    if IsComplement(before, after, minBit, maxBit) && maxBit % 64 == 63 {
      forall i | 0 <= i < 64 * |before| && i / 64 == maxBit / 64 && minBit <= i ensures HasBit(before, i) {
        assert HasBit(after, i) <==> InvertedBit(HasBit(before, i), i, minBit, maxBit);
        assert i <= maxBit;
      }
    }
  }

  /** With the default bounds, 64 rows of which none is set: no bit is inverted. */
  lemma {:induction false} InvertLosesLastWord(before: seq<Word>, after: seq<Word>)
    requires before == [0] && IsInverted(before, after, 0, 63)
    ensures !IsComplement(before, after, 0, 63) && !HasBit(after, 63)
  {
    ConstantBits(63);
    assert HasBit(after, 63) <==> InvertedBit(HasBit(before, 63), 63, 0, 63);
    assert before[0] == 0;
  }

  // ---------------------------------------------------------------- fetching

  function Shift(s: seq<nat>, d: nat): (r: seq<nat>)
    ensures |r| == |s| && forall i :: 0 <= i < |r| ==> r[i] == s[i] + d
  {
    seq(|s|, i requires 0 <= i < |s| => s[i] + d)
  }

  lemma {:induction false} ShiftConcat(a: seq<nat>, b: seq<nat>, d: nat)
    ensures Shift(a + b, d) == Shift(a, d) + Shift(b, d)
  {
  }

  /** The buffer from pos to end holds the members of the words from iter up to next, moved by base. */
  ghost predicate Fetched(ws: seq<Word>, iter: nat, base: nat, next: nat, buf: seq<nat>, pos: nat, end: nat) {
    && pos <= end <= |buf| && iter <= next
    && (if iter > |ws| then next == iter && end == pos
        else next <= |ws| && buf[pos..end] == Shift(Members(ws, 64 * iter, 64 * next), base))
  }

  /** The positions of the set bits of one word. */
  method FetchWord(w: Word, outStart: nat, buf: array<nat>, pos: nat, ghost ws: seq<Word>, ghost word: nat,
                   ghost base: nat) returns (end: nat)
    requires pos + 64 <= buf.Length && word < |ws| && ws[word] == w && outStart == 64 * word + base
    modifies buf
    ensures pos <= end <= pos + 64
    ensures buf[..pos] == old(buf[..pos])
    ensures buf[pos..end] == Shift(Members(ws, 64 * word, 64 * word + 64), base)
  {
    hide *;
    var val := w;
    end := pos;
    ghost var lo := 0;
    NothingFetched(ws, word, base, w, buf[pos..end]);
    while val != 0
      invariant pos <= end <= pos + lo && lo <= 64
      invariant buf[..pos] == old(buf[..pos])
      invariant WordFetched(ws, word, base, val, lo, buf[pos..end])
      decreases 64 - lo
    {
      var idx := Ctz(val);
      ghost var was := buf[..];
      NextFetched(ws, word, base, val, lo, buf[pos..end]);
      Append(buf, end, idx + outStart);
      SliceAppended(was, buf[..], pos, end);
      end := end + 1;
      val := Flip(val, Lowest(val));
      lo := idx + 1;
    }
    WordDone(ws, word, base, val, lo, buf[pos..end]);
  }

  /** The bits below lo have been written out; val holds the others. */
  ghost predicate WordFetched(ws: seq<Word>, word: nat, base: nat, val: Word, lo: nat, out: seq<nat>) {
    && word < |ws| && lo <= 64
    && BitsLeft(ws[word], val, lo)
    && out == Shift(Members(ws, 64 * word, 64 * word + lo), base)
  }

  ghost predicate BitsLeft(w: Word, val: Word, lo: nat) {
    forall j :: 0 <= j < 64 ==> (Bit(val, j) <==> j >= lo && Bit(w, j))
  }

  lemma {:induction false} NothingFetched(ws: seq<Word>, word: nat, base: nat, w: Word, out: seq<nat>)
    requires word < |ws| && ws[word] == w && out == []
    ensures WordFetched(ws, word, base, w, 0, out)
  {
    hide Bit;
  }

  lemma {:induction false} NextFetched(ws: seq<Word>, word: nat, base: nat, val: Word, lo: nat, out: seq<nat>)
    requires WordFetched(ws, word, base, val, lo, out) && val != 0
    ensures lo <= Ctz(val) < 64
    ensures WordFetched(ws, word, base, Flip(val, Lowest(val)), Ctz(val) + 1, out + [Ctz(val) + (64 * word + base)])
  {
    hide Ctz, Flip, Lowest, Bit, Shift, Members, BitsLeft;
    var k := Ctz(val);
    LowestCleared(ws[word], val, lo);
    NextMember(ws, word, lo, k);
    MemberWritten(Members(ws, 64 * word, 64 * word + lo), 64 * word + k, base);
  }

  lemma {:induction false} LowestCleared(w: Word, val: Word, lo: nat)
    requires val != 0 && BitsLeft(w, val, lo)
    ensures lo <= Ctz(val) < 64 && Bit(w, Ctz(val)) && forall j :: lo <= j < Ctz(val) ==> !Bit(w, j)
    ensures BitsLeft(w, Flip(val, Lowest(val)), Ctz(val) + 1)
  {
    var k := Ctz(val);
    assert k < 64 && Bit(val, k) && forall j :: 0 <= j < k ==> !Bit(val, j);
    hide Ctz, Flip, Lowest, Bit;
    forall j | 0 <= j < 64 ensures Bit(Flip(val, Lowest(val)), j) <==> j >= k + 1 && Bit(w, j) {
      ClearLowest(val, j);
    }
  }

  lemma {:induction false} MemberWritten(s: seq<nat>, x: nat, base: nat)
    ensures Shift(s + [x], base) == Shift(s, base) + [x + base]
  {
  }

  lemma {:induction false} WordDone(ws: seq<Word>, word: nat, base: nat, val: Word, lo: nat, out: seq<nat>)
    requires WordFetched(ws, word, base, val, lo, out) && val == 0
    ensures out == Shift(Members(ws, 64 * word, 64 * word + 64), base)
  {
    hide Shift, Members;
    ZeroWord(val);
    hide Bit;
    NoMoreMembers(ws, word, lo);
  }

  method FetchWords(ws: seq<Word>, iter: nat, base: nat, buf: array<nat>, pos: nat) returns (next: nat, end: nat)
    requires pos + 64 <= buf.Length
    modifies buf
    ensures Fetched(ws, iter, base, next, buf[..], pos, end)
    ensures buf[..pos] == old(buf[..pos])
    ensures end < buf.Length - 64 ==> next >= |ws|
  {
    hide *;
    var max := buf.Length - 64;
    var outStart := 64 * iter + base;
    next, end := iter, pos;
    FetchStarts(ws, iter, base, buf[..], pos);
    while end < max && next < |ws|
      invariant iter <= next && pos <= end <= buf.Length && outStart == 64 * next + base
      invariant buf[..pos] == old(buf[..pos])
      invariant Fetched(ws, iter, base, next, buf[..], pos, end)
    {
      ghost var was := buf[..];
      ghost var mid := end;
      assert buf[..pos] == buf[..mid][..pos];
      end := FetchWord(ws[next], outStart, buf, end, ws, next, base);
      assert buf[..pos] == buf[..mid][..pos];
      FetchOneMore(ws, iter, base, next, was, buf[..], pos, mid, end);
      outStart := outStart + 64;
      next := next + 1;
    }
  }

  lemma {:induction false} FetchStarts(ws: seq<Word>, iter: nat, base: nat, buf: seq<nat>, pos: nat)
    requires pos <= |buf|
    ensures Fetched(ws, iter, base, iter, buf, pos, pos)
  {
  }

  lemma {:induction false} FetchOneMore(ws: seq<Word>, iter: nat, base: nat, next: nat, was: seq<nat>, now: seq<nat>,
                                        pos: nat, mid: nat, end: nat)
    requires Fetched(ws, iter, base, next, was, pos, mid) && next < |ws| && |was| == |now|
    requires mid <= end <= |now| && now[..mid] == was[..mid]
    requires now[mid..end] == Shift(Members(ws, 64 * next, 64 * next + 64), base)
    ensures Fetched(ws, iter, base, next + 1, now, pos, end)
  {
    hide Shift, Members;
    MembersSplit(ws, 64 * iter, 64 * next, 64 * next + 64);
    ShiftConcat(Members(ws, 64 * iter, 64 * next), Members(ws, 64 * next, 64 * next + 64), base);
    assert now[pos..mid] == now[..mid][pos..mid] && was[pos..mid] == was[..mid][pos..mid];
    assert now[pos..end] == now[pos..mid] + now[mid..end];
  }

  // ---------------------------------------------------------------- the class

  class BitVec {
    var data: array<Word>
    var size: nat
    var dataLen: nat

    ghost predicate Valid()
      reads this
    {
      dataLen == (size + 63) / 64 && dataLen <= data.Length
    }

    constructor (n: nat)
      ensures Valid() && size == n && fresh(data) && data.Length == dataLen
      ensures forall i :: 0 <= i < data.Length ==> data[i] == 0
    {
      size := n;
      dataLen := (n + 63) / 64;
      data := new Word[(n + 63) / 64](_ => 0);
    }

    /** Changes the size. Larger storage starts empty; storage that is kept keeps its bits. */
    method Resize(n: nat)
      requires Valid()
      modifies this
      ensures Valid() && size == n
      ensures dataLen <= old(data.Length) ==> data == old(data)
      ensures dataLen > old(data.Length) ==>
              fresh(data) && data.Length == dataLen && forall i :: 0 <= i < data.Length ==> data[i] == 0
    {
      size := n;
      dataLen := (n + 63) / 64;
      if dataLen > data.Length {
        data := new Word[dataLen](_ => 0);
      }
    }

    method SetAllBits()
      requires Valid()
      modifies data
      ensures forall i :: 0 <= i < 64 * data.Length ==> HasBit(data[..], i)
    {
      hide Bit, Meets, OneBit, Below, And, Or, Not;
      forall i | 0 <= i < data.Length {
        data[i] := 0xFFFF_FFFF_FFFF_FFFF;
      }
      forall i | 0 <= i < 64 * data.Length ensures HasBit(data[..], i) {
        ConstantBits(i % 64);
      }
    }

    method BitSet(bit: nat)
      requires Valid() && bit < size
      modifies data
      ensures forall i :: 0 <= i < 64 * data.Length ==> (HasBit(data[..], i) <==> i == bit || HasBit(old(data[..]), i))
    {
      hide Bit, Meets, OneBit, Below, And, Or, Not;
      ghost var before := data[..];
      data[bit / 64] := Or(data[bit / 64], OneBit(bit % 64));
      forall i | 0 <= i < 64 * data.Length
        ensures HasBit(data[..], i) <==> i == bit || HasBit(before, i)
      {
        if i / 64 == bit / 64 {
          BitOr(before[bit / 64], OneBit(bit % 64), i % 64);
          BitOfOneBit(bit % 64, i % 64);
        }
      }
    }

    method BitGet(bit: nat) returns (b: bool)
      requires Valid() && bit < size
      ensures b == HasBit(data[..], bit)
    {
      hide Meets, OneBit;
      b := Meets(data[bit / 64], OneBit(bit % 64));
    }

    /** The first set position from start on, over all words in use; the size when there is none. */
    method Scan(start: nat) returns (r: nat)
      requires Valid()
      ensures start >= size ==> r == size
      ensures start < size ==>
                var end := 64 * dataLen;
                (start <= r < end && HasBit(data[..], r) && forall i :: start <= i < r ==> !HasBit(data[..], i)) ||
                (r == size && forall i :: start <= i < end ==> !HasBit(data[..], i))
    {
      hide Bit, Meets, OneBit, Below, And, Or, Not;
      if start >= size {
        return size;
      }
      hide HasBit;
      ghost var ws := data[..];
      var index := start / 64;
      var bit := ScanBit(data[index], start % 64);
      WordScanned(ws, index, start % 64, bit);
      if bit < 64 {
        return 64 * index + bit;
      }
      index := index + 1;
      while index < dataLen && data[index] == 0
        invariant start / 64 < index <= dataLen
        invariant forall i :: start <= i < 64 * index ==> !HasBit(ws, i)
      {
        ZeroWord(data[index]);
        WordScanned(ws, index, 0, 64);
        index := index + 1;
      }
      if index >= dataLen {
        return size;
      }
      ZeroWord(data[index]);
      bit := ScanBit(data[index], 0);
      WordScanned(ws, index, 0, bit);
      return 64 * index + bit;
    }

    /** The first set bit of a word from start on, or 64. */
    static method ScanBit(w: Word, start: nat) returns (k: nat)
      requires start <= 64
      ensures start <= k <= 64 && (k < 64 ==> Bit(w, k))
      ensures forall j :: start <= j < k ==> !Bit(w, j)
    {
      hide Meets, OneBit;
      k := start;
      while k < 64
        invariant start <= k <= 64
        invariant forall j :: start <= j < k ==> !Bit(w, j)
      {
        if Meets(w, OneBit(k)) {
          return;
        }
        k := k + 1;
      }
    }

    /**
      Writes the positions of the set bits, word by word from word iter on, behind position pos of the
      buffer. Stops behind the last word, or after a word when there may be no room for another one.
     */
    method Fetch(iter: nat, base: nat, buf: array<nat>, pos: nat) returns (next: nat, end: nat)
      requires Valid() && pos + 64 <= buf.Length && (buf as object) != (data as object)
      modifies buf
      ensures Fetched(data[..dataLen], iter, base, next, buf[..], pos, end)
      ensures buf[..pos] == old(buf[..pos])
      ensures end < buf.Length - 64 ==> next >= dataLen
    {
      hide Fetched;
      next, end := FetchWords(data[..dataLen], iter, base, buf, pos);
    }

    /** Inverts the words from that of minBit to that of maxBit and clears what lies outside the bounds. */
    method Invert(minBit: nat, maxBit: nat)
      requires Valid() && size > 0 && minBit <= maxBit < 64 * dataLen
      modifies data
      ensures IsInverted(old(data[..]), data[..], minBit, maxBit)
    {
      hide Bit, Meets, OneBit, Below, And, Or, Not, HasBit, IsInverted;
      ghost var before := data[..];
      var minId := minBit / 64;
      var maxId := (maxBit + 64) / 64;
      FlipWords(minId, maxId);
      ghost var flipped := data[..];
      if 64 * minId != minBit {
        data[minId] := And(data[minId], Not(Below(OneBit(minBit - 64 * minId))));
      }
      ghost var lowCut := data[..];
      if 64 * maxId != maxBit {
        var firstBit := 64 * (maxId - 1);
        data[maxId - 1] := And(data[maxId - 1], Below(ShiftedOne(maxBit - firstBit + 1)));
      }
      assert maxId - 1 == maxBit / 64 && maxBit - 64 * (maxId - 1) == maxBit % 64;
      InvertedBits(before, flipped, lowCut, data[..], minBit, maxBit);
    }

    method FlipWords(minId: nat, maxId: nat)
      requires maxId <= data.Length
      modifies data
      ensures forall k :: 0 <= k < data.Length ==>
              data[k] == if minId <= k < maxId then Not(old(data[k])) else old(data[k])
    {
      hide Not;
      var i := minId;
      while i < maxId
        invariant minId <= i && (i <= maxId || minId > maxId)
        invariant forall k :: 0 <= k < data.Length ==>
                data[k] == if minId <= k < i && k < maxId then Not(old(data[k])) else old(data[k])
      {
        data[i] := Not(data[i]);
        i := i + 1;
      }
    }
  }

  /** Flipping the words, cutting the first and cutting the last give the inverted vector. */
  lemma {:induction false} InvertedBits(before: seq<Word>, flipped: seq<Word>, lowCut: seq<Word>, after: seq<Word>,
                                        minBit: nat, maxBit: nat)
    requires |before| == |flipped| == |lowCut| == |after| && minBit <= maxBit < 64 * |before|
    requires forall w :: 0 <= w < |before| ==>
            flipped[w] == if minBit / 64 <= w <= maxBit / 64 then Not(before[w]) else before[w]
    requires lowCut == if minBit % 64 == 0 then flipped else
             flipped[minBit / 64 := And(flipped[minBit / 64], Not(Below(OneBit(minBit % 64))))]
    requires after == lowCut[maxBit / 64 := And(lowCut[maxBit / 64], Below(ShiftedOne(maxBit % 64 + 1)))]
    ensures IsInverted(before, after, minBit, maxBit)
  {
    hide Bit, Meets, OneBit, Below, And, Or, Not;
    forall p | 0 <= p < 64 * |before|
      ensures HasBit(after, p) <==> InvertedBit(HasBit(before, p), p, minBit, maxBit)
    {
      BitNot(before[p / 64], p % 64);
      LowCutBit(flipped, lowCut, p, minBit);
      HighCutBit(lowCut, after, p, maxBit);
    }
  }

  lemma {:induction false} LowCutBit(a: seq<Word>, b: seq<Word>, p: nat, minBit: nat)
    requires |a| == |b| && p < 64 * |a| && minBit < 64 * |a|
    requires b == if minBit % 64 == 0 then a else a[minBit / 64 := And(a[minBit / 64], Not(Below(OneBit(minBit % 64))))]
    ensures HasBit(b, p) <==> HasBit(a, p) && !(p / 64 == minBit / 64 && p < minBit)
  {
    hide Bit, Meets, OneBit, Below, And, Or, Not;
    var w, k := p / 64, p % 64;
    if w == minBit / 64 && minBit % 64 != 0 {
      BitAnd(a[w], Not(Below(OneBit(minBit % 64))), k);
      BitNot(Below(OneBit(minBit % 64)), k);
      MaskBits(minBit % 64, k);
    }
  }

  lemma {:induction false} HighCutBit(a: seq<Word>, b: seq<Word>, p: nat, maxBit: nat)
    requires |a| == |b| && p < 64 * |a| && maxBit < 64 * |a|
    requires b == a[maxBit / 64 := And(a[maxBit / 64], Below(ShiftedOne(maxBit % 64 + 1)))]
    ensures HasBit(b, p) <==> HasBit(a, p) && !(p / 64 == maxBit / 64 && (p > maxBit || maxBit % 64 == 63))
  {
    hide Bit, Meets, OneBit, Below, And, Or, Not;
    var w, k := p / 64, p % 64;
    if w == maxBit / 64 {
      BitAnd(a[w], Below(ShiftedOne(maxBit % 64 + 1)), k);
      MaskBits((maxBit % 64 + 1) % 64, k);
    }
  }
}
