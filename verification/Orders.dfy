/**
  Order in sequences: the predicates, searches and sort that several components share.
 */
module Orders {

  function Least(a: int, b: int): int {
    if b < a then b else a
  }

  function Greatest(a: int, b: int): int {
    if a < b then b else a
  }

  /** Strictly ascending. */
  ghost predicate Ascending(s: seq<int>) {
    forall i, j :: 0 <= i < j < |s| ==> s[i] < s[j]
  }

  ghost predicate Nondecreasing(s: seq<int>) {
    forall i, j :: 0 <= i <= j < |s| ==> s[i] <= s[j]
  }

  lemma {:induction false} AscendingSorted(s: seq<int>)
    requires Ascending(s)
    ensures Nondecreasing(s)
  {
  }

  /** std::lower_bound: the first position whose element is not below x. */
  function LowerBound(s: seq<int>, x: int): (r: nat)
    ensures r <= |s| && forall i :: 0 <= i < r ==> s[i] < x
    ensures r < |s| ==> x <= s[r]
  {
    if s == [] || x <= s[0] then 0 else 1 + LowerBound(s[1..], x)
  }

  /** std::upper_bound: the first position whose element is above x. */
  function UpperBound(s: seq<int>, x: int): (r: nat)
    ensures r <= |s| && forall i :: 0 <= i < r ==> s[i] <= x
    ensures r < |s| ==> x < s[r]
  {
    if s == [] || x < s[0] then 0 else 1 + UpperBound(s[1..], x)
  }

  /** Binary search in a sorted sequence: a position of x, or -1. */
  method BinarySearch(s: seq<int>, x: int) returns (r: int)
    requires Nondecreasing(s)
    ensures r == -1 || (0 <= r < |s| && s[r] == x)
    ensures r == -1 ==> x !in s
  {
    var lo, hi := 0, |s|;
    while lo < hi
      invariant 0 <= lo <= hi <= |s|
      invariant forall i :: 0 <= i < lo ==> s[i] < x
      invariant forall i :: hi <= i < |s| ==> x < s[i]
    {
      var mid := (lo + hi) / 2;
      if s[mid] == x {
        return mid;
      }
      if s[mid] < x {
        lo := mid + 1;
      } else {
        hi := mid;
      }
    }
    return -1;
  }

  // ---------------------------------------------------------------- sorting

  ghost predicate Total<T(!new)>(leq: (T, T) -> bool) {
    && (forall a, b :: leq(a, b) || leq(b, a))
    && (forall a, b, c :: leq(a, b) && leq(b, c) ==> leq(a, c))
  }

  ghost predicate SortedBy<T>(s: seq<T>, leq: (T, T) -> bool) {
    forall i, j :: 0 <= i <= j < |s| ==> leq(s[i], s[j])
  }

  /** Stand-in for std::sort: it promises order and content, not stability. */
  method LibrarySort<T(!new, ==)>(s: seq<T>, leq: (T, T) -> bool) returns (t: seq<T>)
    requires Total(leq)
    ensures SortedBy(t, leq) && multiset(t) == multiset(s) && |t| == |s|
  {
    hide Total;
    t := [];
    var k := 0;
    while k < |s|
      invariant k <= |s| && SortedBy(t, leq) && multiset(t) == multiset(s[..k]) && |t| == k
    {
      t := Insert(t, s[k], leq);
      assert s[..k + 1] == s[..k] + [s[k]];
      k := k + 1;
    }
    assert s[..k] == s;
  }

  method Insert<T(!new)>(s: seq<T>, x: T, leq: (T, T) -> bool) returns (t: seq<T>)
    requires Total(leq) && SortedBy(s, leq)
    ensures SortedBy(t, leq) && multiset(t) == multiset(s) + multiset{x} && |t| == |s| + 1
  {
    var i := |s|;
    while i > 0 && !leq(s[i - 1], x)
      invariant 0 <= i <= |s| && (i < |s| ==> leq(x, s[i]))
    {
      i := i - 1;
    }
    InsertedAt(s, i, x, leq);
    t := s[..i] + [x] + s[i..];
  }

  lemma {:induction false} InsertedAt<T(!new)>(s: seq<T>, i: nat, x: T, leq: (T, T) -> bool)
    requires Total(leq) && i <= |s| && SortedBy(s, leq) && (i > 0 ==> leq(s[i - 1], x)) && (i < |s| ==> leq(x, s[i]))
    ensures SortedBy(s[..i] + [x] + s[i..], leq) && multiset(s[..i] + [x] + s[i..]) == multiset(s) + multiset{x}
  {
    InsertedContent(s, i, x);
    var t := s[..i] + [x] + s[i..];
    hide *;
    SortedFrom(s, t, i, x, leq);
  }

  lemma {:induction false} InsertedContent<T>(s: seq<T>, i: nat, x: T)
    requires i <= |s|
    ensures multiset(s[..i] + [x] + s[i..]) == multiset(s) + multiset{x}
    ensures var t := s[..i] + [x] + s[i..]; |t| == |s| + 1 && t[i] == x && t[..i] == s[..i] && t[i + 1..] == s[i..]
  {
    assert s == s[..i] + s[i..];
  }

  lemma {:induction false} SortedFrom<T(!new)>(s: seq<T>, t: seq<T>, i: nat, x: T, leq: (T, T) -> bool)
    requires Total(leq) && i <= |s| && SortedBy(s, leq) && (i > 0 ==> leq(s[i - 1], x)) && (i < |s| ==> leq(x, s[i]))
    requires |t| == |s| + 1 && t[i] == x && t[..i] == s[..i] && t[i + 1..] == s[i..]
    ensures SortedBy(t, leq)
  {
    forall j, k | 0 <= j <= k < |t| ensures leq(t[j], t[k]) {
      ShiftedEntry(s, t, i, x, j);
      ShiftedEntry(s, t, i, x, k);
      assert leq(x, x);
      if j < i <= k {
        assert leq(s[j], s[i - 1]);
      }
      if j <= i < k {
        assert leq(s[i], s[k - 1]);
      }
      if j < k {
        assert j < i || j == i || k > i;
      }
    }
  }

  lemma {:induction false} ShiftedEntry<T>(s: seq<T>, t: seq<T>, i: nat, x: T, j: nat)
    requires i <= |s| && |t| == |s| + 1 && t[i] == x && t[..i] == s[..i] && t[i + 1..] == s[i..] && j < |t|
    ensures t[j] == if j < i then s[j] else if j == i then x else s[j - 1]
  {
    if j < i {
      assert t[..i][j] == s[..i][j];
    } else if j > i {
      assert t[i + 1..][j - i - 1] == s[i..][j - i - 1];
    }
  }
}
