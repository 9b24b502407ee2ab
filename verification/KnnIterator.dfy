/**
  The rows of a KNN search (knn/iterator.cpp, RowidIteratorKNN_c): the results are sorted by rowid and handed
  out in chunks of 1000.
 */
module KnnIterator {
  import opened RadixSort
  import opened RowRuns
  import opened Orders

  const DOCS_PER_CHUNK: nat := 1000

  function RowIDs(s: seq<Doc>): (r: seq<nat>)
    ensures |r| == |s| && forall i :: 0 <= i < |s| ==> r[i] == s[i].rowid
  {
    seq(|s|, i requires 0 <= i < |s| => s[i].rowid)
  }

  /** Results with different rowids come in strictly ascending order. */
  lemma {:induction false} ResultsAscend(found: seq<Doc>, s: seq<Doc>)
    requires Sorted(s) && multiset(s) == multiset(found)
    requires forall r :: |WithRowid(found, r)| <= 1
    ensures Ascending(RowIDs(s))
  {
    forall i, j | 0 <= i < j < |s| ensures s[i].rowid < s[j].rowid {
      var r := s[i].rowid;
      assert |WithRowid(found, r)| <= 1;
      CountWithRowid(s, found, r);
      if s[i].rowid == s[j].rowid {
        TwoWithRowid(s, i, j);
      }
    }
  }

  lemma {:induction false} OneWithRowid(s: seq<Doc>, i: nat)
    requires i < |s|
    ensures |WithRowid(s, s[i].rowid)| >= 1
    decreases |s|
  {
    var front := s[..|s| - 1];
    assert s == front + [s[|s| - 1]];
    WithRowidConcat(front, [s[|s| - 1]], s[i].rowid);
    if i < |s| - 1 {
      assert front[i] == s[i];
      OneWithRowid(front, i);
    } else {
      OnlyDoc(s[i]);
    }
  }

  lemma {:induction false} OnlyDoc(x: Doc)
    ensures WithRowid([x], x.rowid) == [x]
  {
    assert [x] == [] + [x];
  }

  lemma {:induction false} TwoWithRowid(s: seq<Doc>, i: nat, j: nat)
    requires i < j < |s| && s[i].rowid == s[j].rowid
    ensures |WithRowid(s, s[i].rowid)| >= 2
  {
    var r := s[i].rowid;
    assert s == s[..j] + s[j..];
    WithRowidConcat(s[..j], s[j..], r);
    OneWithRowid(s[..j], i);
    OneWithRowid(s[j..], 0);
  }

  lemma {:induction false} WithRowidCount(s: seq<Doc>, r: nat, x: Doc)
    ensures multiset(WithRowid(s, r))[x] == if x.rowid == r then multiset(s)[x] else 0
  {
    GroupCount(s, x);
    assert x in WithRowid(s, r) ==> x.rowid == r;
  }

  lemma {:induction false} CountWithRowid(s: seq<Doc>, t: seq<Doc>, r: nat)
    requires multiset(s) == multiset(t)
    ensures |WithRowid(s, r)| == |WithRowid(t, r)|
  {
    var a, b := WithRowid(s, r), WithRowid(t, r);
    forall x ensures multiset(a)[x] == multiset(b)[x] {
      WithRowidCount(s, r, x);
      WithRowidCount(t, r, x);
    }
    assert multiset(a) == multiset(b);
    assert |a| == |multiset(a)| && |b| == |multiset(b)|;
  }

  class RowidIteratorKNN {
    const dCollected: seq<Doc>
    const dRowIDs: array<nat>
    var index: nat

    ghost predicate Valid()
      reads this
    {
      Sorted(dCollected) && index <= |dCollected| && dRowIDs.Length == DOCS_PER_CHUNK
    }

    /** The rows still to come. */
    ghost function Rest(): seq<nat>
      reads this
      requires Valid()
    {
      RowIDs(dCollected[index..])
    }

    /** found are the results of the search. */
    constructor (found: seq<Doc>)
      ensures Valid() && fresh(dRowIDs) && multiset(dCollected) == multiset(found) && Rest() == RowIDs(dCollected)
    {
      var data := new Doc[|found|](i requires 0 <= i < |found| => found[i]);
      assert data[..] == found;
      SortByRowID(data);
      dCollected := data[..];
      dRowIDs := new nat[DOCS_PER_CHUNK](_ => 0);
      index := 0;
    }

    /** std::lower_bound over the results not handed out yet. */
    method LowerBound(r: nat) returns (found: nat)
      requires Valid()
      ensures index <= found <= |dCollected|
      ensures forall i :: index <= i < found ==> dCollected[i].rowid < r
      ensures found < |dCollected| ==> r <= dCollected[found].rowid
    {
      var hi := |dCollected|;
      found := index;
      while found < hi
        invariant index <= found <= hi <= |dCollected|
        invariant forall i :: index <= i < found ==> dCollected[i].rowid < r
        invariant hi < |dCollected| ==> r <= dCollected[hi].rowid
      {
        var mid := (found + hi) / 2;
        if dCollected[mid].rowid < r {
          found := mid + 1;
        } else {
          hi := mid;
        }
      }
    }

    method HintRowID(r: nat) returns (ok: bool)
      requires Valid()
      modifies this
      ensures Valid() && (ok <==> !AllUnder(old(Rest()), r)) && (!ok ==> Rest() == [])
      ensures StepOk(old(Rest()), Rest(), Hinted(r, ok), 0)
    {
      if index >= |dCollected| {
        return false;
      }
      var found := LowerBound(r);
      if found == |dCollected| {
        index := |dCollected|;
        return false;
      }
      index := found;
      return true;
    }

    /** GetNextRowIdBlock: the next 1000 rowids, or all that are left. */
    method GetNextRowIdBlock() returns (ok: bool, rows: seq<nat>)
      requires Valid()
      modifies this, dRowIDs
      ensures Valid() && rows + Rest() == old(Rest()) && ok == (rows != []) && (!ok ==> Rest() == [])
      ensures |rows| == if |old(Rest())| < DOCS_PER_CHUNK then |old(Rest())| else DOCS_PER_CHUNK
    {
      var left := |dCollected| - index;
      var iCollected := if left < DOCS_PER_CHUNK then left else DOCS_PER_CHUNK;
      var start := index;
      index := index + iCollected;
      if iCollected == 0 {
        return false, [];
      }
      var i := 0;
      while i < iCollected
        invariant 0 <= i <= iCollected && index == start + iCollected
        invariant forall k :: 0 <= k < i ==> dRowIDs[k] == dCollected[start + k].rowid
      {
        dRowIDs[i] := dCollected[start + i].rowid;
        i := i + 1;
      }
      rows := dRowIDs[..iCollected];
      return true, rows;
    }
  }
}
