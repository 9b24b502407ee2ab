/**
  The sort of KNN search results by rowid (knn/iterator.cpp): a four-pass least-significant-digit
  radix sort over two swapped buffers.
 */
module RadixSort {
  import opened Orders

  const ROWID_LIMIT: nat := 0x1_0000_0000
  const RADIX_THRESHOLD: nat := 128

  type RowId = x: nat | x < ROWID_LIMIT

  /** A search result: a rowid and its distance. */
  datatype Doc = Doc(rowid: RowId, dist: real)

  // ---------------------------------------------------------------- digits

  /** 256 to the power p. */
  function Base(p: nat): (b: nat)
    requires p <= 4
    ensures b > 0
  {
    if p == 0 then 1 else if p == 1 then 0x100 else if p == 2 then 0x1_0000 else if p == 3 then 0x100_0000
    else ROWID_LIMIT
  }

  function DigitOf(r: nat, p: nat): (d: nat)
    requires p < 4
    ensures d < 256
  {
    (r / Base(p)) % 256
  }

  /** Byte p of the rowid. */
  function Digit(x: Doc, p: nat): (d: nat)
    requires p < 4
    ensures d < 256
  {
    DigitOf(x.rowid, p)
  }

  /** The rowid with only its p lowest bytes kept. */
  function Low(x: Doc, p: nat): nat
    requires p <= 4
  {
    x.rowid % Base(p)
  }

  lemma {:induction false} SplitByte1(r: nat)
    ensures r % 0x1_0000 == ((r / 0x100) % 256) * 0x100 + r % 0x100
  {
  }

  lemma {:induction false} SplitByte2(r: nat)
    ensures r % 0x100_0000 == ((r / 0x1_0000) % 256) * 0x1_0000 + r % 0x1_0000
  {
  }

  lemma {:induction false} SplitByte3(r: RowId)
    ensures r == ((r / 0x100_0000) % 256) * 0x100_0000 + r % 0x100_0000
  {
  }

  lemma {:induction false} LowSplit(x: Doc, p: nat)
    requires p < 4
    ensures Low(x, p + 1) == Digit(x, p) * Base(p) + Low(x, p)
    ensures Low(x, p) < Base(p)
  {
    if p == 1 {
      SplitByte1(x.rowid);
    } else if p == 2 {
      SplitByte2(x.rowid);
    } else if p == 3 {
      SplitByte3(x.rowid);
    }
  }

  // ---------------------------------------------------------------- one pass, as a function

  /** The elements of s whose byte p is b, in their order in s. */
  function Bucket(s: seq<Doc>, p: nat, b: nat): (r: seq<Doc>)
    requires p < 4
    ensures |r| <= |s|
    ensures forall k :: 0 <= k < |r| ==> Digit(r[k], p) == b
  {
    if s == [] then []
    else
      var rest := Bucket(s[..|s| - 1], p, b);
      if Digit(s[|s| - 1], p) == b then rest + [s[|s| - 1]] else rest
  }

  /** The first n buckets, one after the other. */
  function Gather(s: seq<Doc>, p: nat, n: nat): seq<Doc>
    requires p < 4
  {
    if n == 0 then [] else Gather(s, p, n - 1) + Bucket(s, p, n - 1)
  }

  /** What one counting pass over byte p makes of s. */
  function Pass(s: seq<Doc>, p: nat): seq<Doc>
    requires p < 4
  {
    Gather(s, p, 256)
  }

  function RadixSorted(s: seq<Doc>): seq<Doc> {
    Pass(Pass(Pass(Pass(s, 0), 1), 2), 3)
  }

  // ---------------------------------------------------------------- what a stable sort is

  /** The elements of s with the given rowid, in their order in s. */
  ghost function WithRowid(s: seq<Doc>, r: nat): (t: seq<Doc>)
    ensures forall k :: 0 <= k < |t| ==> t[k].rowid == r
    ensures |t| <= |s|
  {
    if s == [] then []
    else WithRowid(s[..|s| - 1], r) + (if s[|s| - 1].rowid == r then [s[|s| - 1]] else [])
  }

  ghost predicate SortedLow(s: seq<Doc>, p: nat)
    requires p <= 4
  {
    forall i, j :: 0 <= i < j < |s| ==> Low(s[i], p) <= Low(s[j], p)
  }

  ghost predicate Sorted(s: seq<Doc>) {
    forall i, j :: 0 <= i < j < |s| ==> s[i].rowid <= s[j].rowid
  }

  /** t holds, for every rowid, the same elements as s in the same order. */
  ghost predicate SameGroups(s: seq<Doc>, t: seq<Doc>) {
    forall r: nat :: WithRowid(s, r) == WithRowid(t, r)
  }

  ghost predicate StableSortOf(s: seq<Doc>, t: seq<Doc>) {
    Sorted(t) && SameGroups(s, t)
  }

  // ---------------------------------------------------------------- groups

  lemma {:induction false} WithRowidConcat(s: seq<Doc>, t: seq<Doc>, r: nat)
    ensures WithRowid(s + t, r) == WithRowid(s, r) + WithRowid(t, r)
  {
    if t == [] {
      assert s + t == s;
    } else {
      WithRowidConcat(s, t[..|t| - 1], r);
      assert (s + t)[..|s + t| - 1] == s + t[..|t| - 1];
    }
  }

  /** A group lives in one bucket. */
  lemma {:induction false} WithRowidBucket(s: seq<Doc>, p: nat, b: nat, r: nat)
    requires p < 4 && r < ROWID_LIMIT
    ensures WithRowid(Bucket(s, p, b), r) == if DigitOf(r, p) == b then WithRowid(s, r) else []
  {
    hide DigitOf;
    if s != [] {
      var last := s[|s| - 1];
      WithRowidBucket(s[..|s| - 1], p, b, r);
      WithRowidConcat(Bucket(s[..|s| - 1], p, b), [last], r);
      assert [last][..0] == [];
    }
  }

  lemma {:induction false} WithRowidGather(s: seq<Doc>, p: nat, n: nat, r: nat)
    requires p < 4 && r < ROWID_LIMIT
    ensures WithRowid(Gather(s, p, n), r) == if DigitOf(r, p) < n then WithRowid(s, r) else []
  {
    hide DigitOf, WithRowid, Bucket;
    if n > 0 {
      WithRowidGather(s, p, n - 1, r);
      WithRowidConcat(Gather(s, p, n - 1), Bucket(s, p, n - 1), r);
      WithRowidBucket(s, p, n - 1, r);
    }
  }

  lemma {:induction false} WithRowidBeyond(s: seq<Doc>, r: nat)
    requires r >= ROWID_LIMIT
    ensures WithRowid(s, r) == []
  {
    if s != [] {
      WithRowidBeyond(s[..|s| - 1], r);
    }
  }

  /** A pass keeps every group and its order. */
  lemma {:induction false} PassKeepsGroups(s: seq<Doc>, p: nat)
    requires p < 4
    ensures SameGroups(s, Pass(s, p))
  {
    forall r: nat ensures WithRowid(s, r) == WithRowid(Pass(s, p), r) {
      if r < ROWID_LIMIT {
        WithRowidGather(s, p, 256, r);
      } else {
        WithRowidBeyond(s, r);
        WithRowidBeyond(Pass(s, p), r);
      }
    }
  }

  // ---------------------------------------------------------------- order

  lemma {:induction false} BucketIsSubsequence(s: seq<Doc>, p: nat, b: nat, q: nat)
    requires p < 4 && q <= 4 && SortedLow(s, q)
    ensures SortedLow(Bucket(s, p, b), q)
    ensures forall x :: x in Bucket(s, p, b) ==> x in s
  {
    if s != [] {
      BucketIsSubsequence(s[..|s| - 1], p, b, q);
      var rest := Bucket(s[..|s| - 1], p, b);
      forall x | x in rest ensures Low(x, q) <= Low(s[|s| - 1], q) {
        var k :| 0 <= k < |s[..|s| - 1]| && s[..|s| - 1][k] == x;
      }
    }
  }

  /** The buckets of a sequence sorted on its p low bytes are sorted on p + 1 bytes. */
  lemma {:induction false} GatherSorted(s: seq<Doc>, p: nat, n: nat)
    requires p < 4 && SortedLow(s, p)
    ensures SortedLow(Gather(s, p, n), p + 1)
    ensures forall x :: x in Gather(s, p, n) ==> Digit(x, p) < n
  {
    hide DigitOf, Low;
    if n > 0 {
      GatherSorted(s, p, n - 1);
      BucketIsSubsequence(s, p, n - 1, p);
      var front, back := Gather(s, p, n - 1), Bucket(s, p, n - 1);
      var all := front + back;
      forall i, j | 0 <= i < j < |all| ensures Low(all[i], p + 1) <= Low(all[j], p + 1) {
        LowSplit(all[i], p);
        LowSplit(all[j], p);
        if i < |front| <= j {
          assert all[i] in front && Digit(all[i], p) < Digit(all[j], p);
          DigitDominates(all[i], all[j], p);
        } else if |front| <= i {
          assert all[i] == back[i - |front|] && all[j] == back[j - |front|];
        }
      }
    }
  }

  lemma {:induction false} DigitDominates(x: Doc, y: Doc, p: nat)
    requires p < 4 && Digit(x, p) < Digit(y, p)
    ensures Low(x, p + 1) < Low(y, p + 1)
  {
    hide DigitOf, Low, Base;
    LowSplit(x, p);
    LowSplit(y, p);
    Dominates(Digit(x, p), Digit(y, p), Low(x, p), Low(y, p), Base(p));
  }

  lemma {:induction false} Dominates(d: nat, e: nat, k: nat, l: nat, b: nat)
    requires d < e && k < b
    ensures d * b + k < e * b + l
  {
    assert (d + 1) * b <= e * b;
  }

  /** Each pass extends the sorted part of the key by one byte. */
  lemma {:induction false} PassSorts(s: seq<Doc>, p: nat)
    requires p < 4 && SortedLow(s, p)
    ensures SortedLow(Pass(s, p), p + 1)
  {
    GatherSorted(s, p, 256);
  }

  /** Four passes are a stable sort by rowid, whatever the input. */
  lemma {:induction false} RadixIsStableSort(s: seq<Doc>)
    ensures StableSortOf(s, RadixSorted(s))
  {
    hide *;
    var s1 := Pass(s, 0);
    var s2 := Pass(s1, 1);
    var s3 := Pass(s2, 2);
    AnySortedOnNothing(s);
    PassSorts(s, 0);
    PassSorts(s1, 1);
    PassSorts(s2, 2);
    PassSorts(s3, 3);
    PassKeepsGroups(s, 0);
    PassKeepsGroups(s1, 1);
    PassKeepsGroups(s2, 2);
    PassKeepsGroups(s3, 3);
    SameThrough(s, s1, s2);
    SameThrough(s, s2, s3);
    SameThrough(s, s3, Pass(s3, 3));
    FourPasses(s);
  }

  lemma {:induction false} AnySortedOnNothing(s: seq<Doc>)
    ensures SortedLow(s, 0)
  {
  }

  lemma {:induction false} SameThrough(s: seq<Doc>, t: seq<Doc>, u: seq<Doc>)
    requires SameGroups(s, t) && SameGroups(t, u)
    ensures SameGroups(s, u)
  {
    hide WithRowid;
  }

  lemma {:induction false} FourPasses(s: seq<Doc>)
    ensures var t := Pass(Pass(Pass(Pass(s, 0), 1), 2), 3);
            RadixSorted(s) == t && (SortedLow(t, 4) && SameGroups(s, t) ==> StableSortOf(s, t))
  {
    hide Pass, SameGroups;
    var t := Pass(Pass(Pass(Pass(s, 0), 1), 2), 3);
    assert forall i :: 0 <= i < |t| ==> Low(t[i], 4) == t[i].rowid;
  }

  // ---------------------------------------------------------------- a stable sort is unique, and a permutation

  lemma {:induction false} GroupCount(s: seq<Doc>, x: Doc)
    ensures multiset(s)[x] == multiset(WithRowid(s, x.rowid))[x]
  {
    if s != [] {
      GroupCount(s[..|s| - 1], x);
      assert s == s[..|s| - 1] + [s[|s| - 1]];
    }
  }

  lemma {:induction false} SameGroupsPermutation(s: seq<Doc>, t: seq<Doc>)
    requires SameGroups(s, t)
    ensures multiset(s) == multiset(t)
  {
    forall x: Doc ensures multiset(s)[x] == multiset(t)[x] {
      GroupCount(s, x);
      GroupCount(t, x);
    }
  }

  lemma {:induction false} SameGroupsLast(s: seq<Doc>, t: seq<Doc>)
    requires Sorted(s) && Sorted(t) && SameGroups(s, t) && s != [] && t != []
    ensures s[|s| - 1] == t[|t| - 1]
  {
    var x, y := s[|s| - 1], t[|t| - 1];
    SameGroupsPermutation(s, t);
    assert x in multiset(s) && x in multiset(t);
    assert y in multiset(t) && y in multiset(s);
    assert x.rowid == y.rowid;
    assert WithRowid(s, x.rowid) == WithRowid(t, x.rowid);
    assert WithRowid(s, x.rowid)[|WithRowid(s, x.rowid)| - 1] == x;
    assert WithRowid(t, x.rowid)[|WithRowid(t, x.rowid)| - 1] == y;
  }

  /** Order and groups together determine the sequence: there is only one stable sort of a sequence. */
  lemma {:induction false} StableSortUnique(s: seq<Doc>, t: seq<Doc>)
    requires Sorted(s) && Sorted(t) && SameGroups(s, t)
    ensures s == t
  {
    SameGroupsPermutation(s, t);
    assert |s| == |multiset(s)| == |t|;
    if s != [] {
      SameGroupsLast(s, t);
      var s', t', x := s[..|s| - 1], t[..|t| - 1], s[|s| - 1];
      forall r: nat ensures WithRowid(s', r) == WithRowid(t', r) {
        assert WithRowid(s, r) == WithRowid(t, r);
        var tail := if x.rowid == r then [x] else [];
        assert WithRowid(s', r) + tail == WithRowid(t', r) + tail;
        assert WithRowid(s', r) == (WithRowid(s', r) + tail)[..|WithRowid(s, r)| - |tail|];
      }
      StableSortUnique(s', t');
      assert s == s' + [x] && t == t' + [x];
    }
  }

  // ---------------------------------------------------------------- one pass, in place

  /** Where bucket b starts in the output of a pass. */
  ghost function Start(s: seq<Doc>, p: nat, b: nat): nat
    requires p < 4
  {
    |Gather(s, p, b)|
  }

  lemma {:induction false} BucketPrefix(s: seq<Doc>, p: nat, b: nat, i: nat)
    requires p < 4 && i <= |s|
    ensures |Bucket(s[..i], p, b)| <= |Bucket(s, p, b)|
    ensures i < |s| && Digit(s[i], p) == b ==> |Bucket(s[..i], p, b)| < |Bucket(s, p, b)|
    decreases |s| - i
  {
    if i == |s| {
      assert s[..i] == s;
    } else {
      BucketPrefix(s, p, b, i + 1);
      assert s[..i + 1][..i] == s[..i];
    }
  }

  lemma {:induction false} StartMonotone(s: seq<Doc>, p: nat, b: nat, c: nat)
    requires p < 4 && b < c
    ensures Start(s, p, b) + |Bucket(s, p, b)| <= Start(s, p, c)
  {
    if b < c - 1 {
      StartMonotone(s, p, b, c - 1);
    }
  }

  lemma {:induction false} GatherLength(s: seq<Doc>, p: nat)
    requires p < 4
    ensures |Pass(s, p)| == |s|
  {
    PassKeepsGroups(s, p);
    SameGroupsPermutation(s, Pass(s, p));
    assert |s| == |multiset(s)| == |multiset(Pass(s, p))|;
  }

  /** After i elements, every bucket area holds the bucket of the prefix. */
  ghost predicate Scattered(dst: seq<Doc>, s: seq<Doc>, p: nat, i: nat, b: nat)
    requires p < 4 && i <= |s| && |dst| == |s|
  {
    var lo := Start(s, p, b);
    var part := Bucket(s[..i], p, b);
    lo + |part| <= |s| && dst[lo..lo + |part|] == part
  }

  ghost predicate AllScattered(dst: seq<Doc>, s: seq<Doc>, p: nat, i: nat)
    requires p < 4 && i <= |s| && |dst| == |s|
  {
    forall b :: 0 <= b < 256 ==> Scattered(dst, s, p, i, b)
  }

  lemma {:induction false} BucketAppend(s: seq<Doc>, p: nat, i: nat, b: nat)
    requires p < 4 && i < |s|
    ensures Bucket(s[..i + 1], p, b) == Bucket(s[..i], p, b) + (if Digit(s[i], p) == b then [s[i]] else [])
  {
    assert s[..i + 1][..i] == s[..i];
  }

  lemma {:induction false} ScatterStep(dst: seq<Doc>, s: seq<Doc>, p: nat, i: nat, b: nat)
    requires p < 4 && i < |s| && |dst| == |s| && b < 256
    requires Scattered(dst, s, p, i, b)
    ensures var at := Start(s, p, Digit(s[i], p)) + |Bucket(s[..i], p, Digit(s[i], p))|;
            at < |s| && Scattered(dst[at := s[i]], s, p, i + 1, b)
  {
    var d := Digit(s[i], p);
    var at := Start(s, p, d) + |Bucket(s[..i], p, d)|;
    GatherLength(s, p);
    StartMonotone(s, p, d, 256);
    BucketPrefix(s, p, d, i);
    BucketPrefix(s, p, b, i);
    BucketAppend(s, p, i, b);
    if b < d {
      StartMonotone(s, p, b, d);
    } else if d < b {
      StartMonotone(s, p, d, b);
    }
    hide Bucket, DigitOf, Digit, Start;
    UpdateOutside(dst, at, s[i], Start(s, p, b), Start(s, p, b) + |Bucket(s[..i], p, b)|);
  }

  lemma {:induction false} UpdateOutside(dst: seq<Doc>, at: nat, x: Doc, lo: nat, hi: nat)
    requires at < |dst| && lo <= hi <= |dst|
    ensures at < lo || hi <= at ==> dst[at := x][lo..hi] == dst[lo..hi]
    ensures lo <= hi == at ==> dst[at := x][lo..hi + 1] == dst[lo..hi] + [x]
  {
  }

  lemma {:induction false} ScatteredAll(dst: seq<Doc>, s: seq<Doc>, p: nat, n: nat)
    requires p < 4 && |dst| == |s| && n <= 256
    requires forall b :: 0 <= b < n ==> Scattered(dst, s, p, |s|, b)
    ensures Start(s, p, n) <= |s| && dst[..Start(s, p, n)] == Gather(s, p, n)
  {
    if n > 0 {
      ScatteredAll(dst, s, p, n - 1);
      assert Scattered(dst, s, p, |s|, n - 1);
      assert s[..|s|] == s;
      var lo, hi := Start(s, p, n - 1), Start(s, p, n);
      assert dst[..hi] == dst[..lo] + dst[lo..hi];
    }
  }

  lemma {:induction false} BucketNext(s: seq<Doc>, p: nat, i: nat, b: nat)
    requires p < 4 && i < |s|
    ensures |Bucket(s[..i + 1], p, b)| == |Bucket(s[..i], p, b)| + (if Digit(s[i], p) == b then 1 else 0)
  {
    assert s[..i + 1][..i] == s[..i];
  }

  method CountDigits(src: array<Doc>, p: nat) returns (count: array<nat>)
    requires p < 4
    ensures fresh(count) && count.Length == 256
    ensures forall b :: 0 <= b < 256 ==> count[b] == |Bucket(src[..], p, b)|
  {
    count := new nat[256](_ => 0);
    var i := 0;
    while i < src.Length
      invariant 0 <= i <= src.Length
      invariant forall b :: 0 <= b < 256 ==> count[b] == |Bucket(src[..i], p, b)|
    {
      forall b | 0 <= b < 256
        ensures |Bucket(src[..i + 1], p, b)| == |Bucket(src[..i], p, b)| + (if Digit(src[i], p) == b then 1 else 0)
      {
        assert src[..][..i + 1] == src[..i + 1] && src[..][..i] == src[..i];
        BucketNext(src[..], p, i, b);
      }
      var d := Digit(src[i], p);
      count[d] := count[d] + 1;
      i := i + 1;
    }
    assert src[..i] == src[..];
  }

  method Offsets(count: array<nat>, ghost s: seq<Doc>, ghost p: nat) returns (offset: array<nat>)
    requires p < 4 && count.Length == 256
    requires forall b :: 0 <= b < 256 ==> count[b] == |Bucket(s, p, b)|
    ensures fresh(offset) && offset.Length == 256
    ensures forall b :: 0 <= b < 256 ==> offset[b] == Start(s, p, b)
  {
    offset := new nat[256](_ => 0);
    var i := 1;
    while i < 256
      invariant 1 <= i <= 256
      invariant forall b :: 0 <= b < i ==> offset[b] == Start(s, p, b)
    {
      offset[i] := offset[i - 1] + count[i - 1];
      i := i + 1;
    }
  }

  /** Moves element i of the source to the next free place of its bucket. */
  method ScatterOne(src: array<Doc>, dst: array<Doc>, offset: array<nat>, p: nat, i: nat)
    requires p < 4 && src != dst && src.Length == dst.Length && i < src.Length && offset.Length == 256
    requires forall b :: 0 <= b < 256 ==> offset[b] == Start(src[..], p, b) + |Bucket(src[..][..i], p, b)|
    requires AllScattered(dst[..], src[..], p, i)
    modifies dst, offset
    ensures forall b :: 0 <= b < 256 ==> offset[b] == Start(src[..], p, b) + |Bucket(src[..][..i + 1], p, b)|
    ensures AllScattered(dst[..], src[..], p, i + 1)
  {
    ghost var s, before := src[..], dst[..];
    var d := Digit(src[i], p);
    ghost var at := offset[d];
    ghost var next := i + 1;
    ScatterStep(before, s, p, i, 0);
    ghost var after := before[at := s[i]];
    forall b | 0 <= b < 256
      ensures Scattered(after, s, p, next, b)
    {
      ScatterStep(before, s, p, i, b);
    }
    forall b | 0 <= b < 256
      ensures |Bucket(s[..next], p, b)| == |Bucket(s[..i], p, b)| + (if d == b then 1 else 0)
    {
      BucketNext(s, p, i, b);
    }
    hide Scattered, Start, Bucket, Digit, DigitOf;
    dst[offset[d]] := src[i];
    assert dst[..] == after;
    offset[d] := offset[d] + 1;
  }

  /** One counting pass from src to dst. */
  method CountingPass(src: array<Doc>, dst: array<Doc>, p: nat)
    requires p < 4 && src != dst && src.Length == dst.Length
    modifies dst
    ensures dst[..] == Pass(src[..], p)
  {
    ghost var s := src[..];
    var count := CountDigits(src, p);
    var offset := Offsets(count, s, p);
    GatherLength(s, p);
    forall b | 0 <= b < 256 ensures Scattered(dst[..], s, p, 0, b) {
      StartMonotone(s, p, b, 256);
    }
    var i := 0;
    while i < src.Length
      invariant 0 <= i <= src.Length && src[..] == s
      invariant forall b :: 0 <= b < 256 ==> offset[b] == Start(s, p, b) + |Bucket(s[..i], p, b)|
      invariant AllScattered(dst[..], s, p, i)
    {
      hide Scattered, Start, Bucket;
      ScatterOne(src, dst, offset, p, i);
      i := i + 1;
    }
    ScatteredAll(dst[..], s, p, 256);
    assert dst[..|s|] == dst[..];
  }

  // ---------------------------------------------------------------- the whole sort

  /** The comparison of the library sort that is used on short inputs. */
  predicate ByRowID(a: Doc, b: Doc) {
    a.rowid <= b.rowid
  }

  method SortByRowID(data: array<Doc>)
    modifies data
    ensures Sorted(data[..]) && multiset(data[..]) == multiset(old(data[..]))
    ensures data.Length >= RADIX_THRESHOLD ==> StableSortOf(old(data[..]), data[..])
    ensures data.Length >= RADIX_THRESHOLD ==> data[..] == RadixSorted(old(data[..]))
  {
    ghost var s := data[..];
    if data.Length < RADIX_THRESHOLD {
      var t := LibrarySort(data[..], ByRowID);
      forall i | 0 <= i < data.Length {
        data[i] := t[i];
      }
      assert data[..] == t;
      return;
    }
    var temp := new Doc[data.Length](_ => Doc(0, 0.0));
    var src, dst := data, temp;
    CountingPass(src, dst, 0);
    src, dst := dst, src;
    CountingPass(src, dst, 1);
    src, dst := dst, src;
    CountingPass(src, dst, 2);
    src, dst := dst, src;
    CountingPass(src, dst, 3);
    src, dst := dst, src;
    assert src == data;
    RadixIsStableSort(s);
    SameGroupsPermutation(s, data[..]);
  }
}
