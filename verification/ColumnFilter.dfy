/**
  How a filter works on the blocks of an unsigned 32-bit column (columnar/accessor/accessorint.cpp): which
  blocks it rejects, which it takes whole, and which rows of the others it takes.
 */
module ColumnFilter {
  import opened Buffers
  import opened Filters
  import opened RowRuns
  import opened Orders
  import opened Shifts
  import A = Analyzer

  /** A list of values, wanted or excluded, or a range. */
  datatype Query = OneOf(exclude: bool, values: seq<int>) | InRange(f: Filter)

  /** What a query means. */
  predicate Passes(q: Query, v: int) {
    match q
    case OneOf(exclude, values) => (v in values) != exclude
    case InRange(f) => Satisfies(f, v)
  }

  /** The values a query is compared with, cast to the type of the column. */
  function CastAll(values: seq<int>): (r: seq<int>)
    ensures |r| == |values| && forall i :: 0 <= i < |r| ==> r[i] == Cast(UInt32, values[i])
  {
    seq(|values|, i requires 0 <= i < |values| => Cast(UInt32, values[i]))
  }

  /** What the processing functions compute, except for the linear search in plain values. */
  predicate Takes(q: Query, v: int) {
    match q
    case OneOf(exclude, values) => (v in CastAll(values)) != exclude
    case InRange(f) => EvalRange(f, UInt32, v)
  }

  /** Queries whose values, or bounds in force, are values of the column. */
  predicate FitsColumn(q: Query) {
    match q
    case OneOf(_, values) => forall x :: x in values ==> IsValue(UInt32, x)
    case InRange(f) => Fits(f, UInt32)
  }

  lemma {:induction false} CastFits(values: seq<int>)
    requires forall x :: x in values ==> IsValue(UInt32, x)
    ensures CastAll(values) == values
  {
    forall i | 0 <= i < |values| ensures CastAll(values)[i] == values[i] {
      assert values[i] in values;
      CastIsValue(UInt32, values[i]);
    }
  }

  lemma {:induction false} TakesIsPasses(q: Query, v: int)
    requires FitsColumn(q)
    ensures Takes(q, v) <==> Passes(q, v)
  {
    match q
    case OneOf(_, values) => CastFits(values);
    case InRange(f) => EvalIsSatisfies(f, UInt32, v);
  }

  /**
    A list of values means what it says for all values of the column exactly when every value it turns into
    was on the list.
   */
  lemma {:induction false} ListMeansIff(exclude: bool, values: seq<int>)
    ensures (forall v :: IsValue(UInt32, v) ==> (Takes(OneOf(exclude, values), v) <==>
            Passes(OneOf(exclude, values), v))) <==>
            (forall i :: 0 <= i < |values| ==> Cast(UInt32, values[i]) in values)
  {
    var q := OneOf(exclude, values);
    if forall i :: 0 <= i < |values| ==> Cast(UInt32, values[i]) in values {
      forall v | IsValue(UInt32, v) ensures v in CastAll(values) <==> v in values {
        CastIsValue(UInt32, v);
        if v in values {
          var i :| 0 <= i < |values| && values[i] == v;
          assert CastAll(values)[i] == v;
        }
      }
    } else {
      var i :| 0 <= i < |values| && Cast(UInt32, values[i]) !in values;
      var v := Cast(UInt32, values[i]);
      CastIsValue(UInt32, values[i]);
      assert CastAll(values)[i] == v;
    }
  }

  /** A wanted value that does not fit the column finds another one. */
  lemma {:induction false} CastFindsOther()
    ensures Takes(OneOf(false, [0x1_0000_0005]), 5) && !Passes(OneOf(false, [0x1_0000_0005]), 5)
  {
    assert CastAll([0x1_0000_0005])[0] == 5;
  }

  // ---------------------------------------------------------------- blocks

  /** A block of one value, a block with a table of its values, or plain values. */
  datatype Block = Const(value: int) | Table(table: seq<int>) | Plain

  predicate Distinct(s: seq<int>) {
    forall i, j :: 0 <= i < j < |s| ==> s[i] != s[j]
  }

  ghost predicate GoodBlock(b: Block) {
    match b
    case Const(v) => IsValue(UInt32, v)
    case Table(table) => Ascending(table) && 0 < |table| <= 255 && forall i :: 0 <= i < |table| ==>
            IsValue(UInt32, table[i])
    case Plain => true
  }

  /** Value v may occur in a block. */
  predicate MayHold(b: Block, v: int) {
    match b
    case Const(w) => v == w
    case Table(table) => v in table
    case Plain => IsValue(UInt32, v)
  }

  function Found(table: seq<int>, values: seq<int>): (r: seq<int>)
    ensures |r| <= |values|
  {
    if values == [] then []
    else
      var last := values[|values| - 1];
      Found(table, values[..|values| - 1]) + (if last in table then [last] else [])
  }

  lemma {:induction false} FoundExact(table: seq<int>, values: seq<int>, x: int)
    ensures x in Found(table, values) <==> x in values && x in table
    ensures Distinct(values) ==> Distinct(Found(table, values))
  {
    if values != [] {
      var front, last := values[..|values| - 1], values[|values| - 1];
      FoundExact(table, front, x);
      FoundExact(table, front, last);
      assert values == front + [last];
    }
  }

  /** Whether a block is processed at all. */
  predicate Accepted(q: Query, b: Block) {
    match b
    case Const(v) => Passes(q, v)
    case Table(table) =>
      (match q
       case OneOf(exclude, values) => exclude || Found(table, CastAll(values)) != []
       case InRange(f) => exists i :: 0 <= i < |table| && EvalRange(f, UInt32, table[i]))
    case Plain => true
  }

  /** Whether a block that is processed is taken whole. */
  predicate Whole(q: Query, b: Block) {
    match b
    case Const(_) => true
    case Table(table) =>
      (match q
       case OneOf(exclude, values) =>
         var found := Found(table, CastAll(values));
         if exclude then found == [] else if |values| == 1 then |table| == 1 && found != [] else |found| == |table|
       case InRange(f) => forall i :: 0 <= i < |table| ==> EvalRange(f, UInt32, table[i]))
    case Plain => false
  }

  // ---------------------------------------------------------------- soundness

  /** As many different entries of a table as the table has are all of them. */
  lemma {:induction false} AllFound(table: seq<int>, s: seq<int>)
    requires Distinct(s) && Ascending(table) && (forall x :: x in s ==> x in table) && |s| >= |table|
    ensures forall i :: 0 <= i < |table| ==> table[i] in s
    decreases |s|
  {
    var all, some := ElementsOf(table), ElementsOf(s);
    DistinctCount(table);
    DistinctCount(s);
    assert some <= all;
    SubsetFull(some, all);
  }

  function ElementsOf(s: seq<int>): (r: set<int>)
    ensures forall x :: x in r <==> x in s
  {
    set x | x in s
  }

  lemma {:induction false} SubsetFull(a: set<int>, b: set<int>)
    requires a <= b && |a| >= |b|
    ensures a == b
  {
    assert |b - a| == |b| - |a|;
    assert b == a + (b - a);
  }

  lemma {:induction false} DistinctCount(s: seq<int>)
    requires Distinct(s)
    ensures |ElementsOf(s)| == |s|
    decreases |s|
  {
    if s == [] {
      assert ElementsOf(s) == {};
    } else {
      var front, last := s[..|s| - 1], s[|s| - 1];
      DistinctCount(front);
      assert s == front + [last];
      assert ElementsOf(s) == ElementsOf(front) + {last};
    }
  }

  /** A rejected block has no value that passes. */
  lemma {:induction false} RejectionSound(q: Query, b: Block, v: int)
    requires FitsColumn(q) && GoodBlock(b) && MayHold(b, v) && !Accepted(q, b)
    ensures !Passes(q, v)
  {
    TakesIsPasses(q, v);
    if b.Table? {
      match q
      case OneOf(_, values) => FoundExact(b.table, CastAll(values), v);
      case InRange(_) =>
    }
  }

  /**
    Blocks of one value and blocks with a table are processed exactly when some value in them passes; with an
    excluded list a block with a table always is.
   */
  lemma {:induction false} AcceptedExactIff(q: Query, b: Block)
    requires FitsColumn(q) && GoodBlock(b) && !b.Plain?
    ensures Accepted(q, b) <==> (b.Table? && q.OneOf? && q.exclude) || exists v :: MayHold(b, v) && Passes(q, v)
  {
    hide Found, CastAll, FitsColumn;
    forall v ensures Takes(q, v) <==> Passes(q, v) {
      TakesIsPasses(q, v);
    }
    if b.Const? {
      assert MayHold(b, b.value);
    } else if q.OneOf? {
      forall v ensures v in Found(b.table, CastAll(q.values)) <==> v in CastAll(q.values) && v in b.table {
        FoundExact(b.table, CastAll(q.values), v);
      }
      var found := Found(b.table, CastAll(q.values));
      if !q.exclude && found != [] {
        assert found[0] in found && Takes(q, found[0]);
      }
    } else if i :| 0 <= i < |b.table| && EvalRange(q.f, UInt32, b.table[i]) {
      assert MayHold(b, b.table[i]) && Takes(q, b.table[i]);
    }
  }

  /** No more different entries than elements, and as many only when none comes twice. */
  lemma {:induction false} ElementsCount(s: seq<int>)
    ensures |ElementsOf(s)| <= |s|
    ensures |ElementsOf(s)| == |s| ==> Distinct(s)
    decreases |s|
  {
    if s == [] {
      assert ElementsOf(s) == {};
    } else {
      var front, last := s[..|s| - 1], s[|s| - 1];
      ElementsCount(front);
      assert s == front + [last];
      assert ElementsOf(s) == ElementsOf(front) + {last};
      if |ElementsOf(s)| == |s| {
        assert last !in ElementsOf(front);
      }
    }
  }

  /**
    As many elements as a table has entries, all of them entries: they are all entries exactly when none
    comes twice.
   */
  lemma {:induction false} AllFoundIff(table: seq<int>, s: seq<int>)
    requires Ascending(table) && (forall x :: x in s ==> x in table) && |s| == |table|
    ensures (forall i :: 0 <= i < |table| ==> table[i] in s) <==> Distinct(s)
  {
    hide Distinct;
    if Distinct(s) {
      AllFound(table, s);
    }
    if forall i :: 0 <= i < |table| ==> table[i] in s {
      TableDistinct(table);
      DistinctCount(table);
      ElementsCount(s);
      var all, some := ElementsOf(table), ElementsOf(s);
      assert all == some by {
        forall x ensures x in all <==> x in some {
          if x in table {
            var i :| 0 <= i < |table| && table[i] == x;
          }
        }
      }
    }
  }

  lemma {:induction false} TableDistinct(table: seq<int>)
    requires Ascending(table)
    ensures Distinct(table)
  {
  }

  /** No entry of the table of a block that is taken whole is listed twice among the wanted values. */
  predicate ListedOnce(q: Query, b: Block) {
    b.Table? && q.OneOf? && !q.exclude && |q.values| != 1 && Whole(q, b) ==> Distinct(Found(b.table, CastAll(q.values)))
  }

  /** All values that a block taken whole may hold pass exactly when no entry of its table is listed twice. */
  lemma {:induction false} WholeExactIff(q: Query, b: Block)
    requires FitsColumn(q) && GoodBlock(b) && Accepted(q, b) && Whole(q, b)
    ensures (forall v :: MayHold(b, v) ==> Passes(q, v)) <==> ListedOnce(q, b)
  {
    forall v | MayHold(b, v) ensures Takes(q, v) <==> Passes(q, v) {
      TakesIsPasses(q, v);
    }
    if b.Table? && q.OneOf? {
      WholeListIff(q, b.table);
    } else if b.Table? {
      assert forall v :: MayHold(b, v) ==> Takes(q, v);
    }
  }

  lemma {:induction false} WholeListIff(q: Query, table: seq<int>)
    requires q.OneOf? && GoodBlock(Table(table)) && Accepted(q, Table(table)) && Whole(q, Table(table))
    ensures (forall v :: v in table ==> Takes(q, v)) <==> ListedOnce(q, Table(table))
  {
    var casts := CastAll(q.values);
    var found := Found(table, casts);
    forall v ensures v in found <==> v in casts && v in table {
      FoundExact(table, casts, v);
    }
    if !q.exclude {
      if |q.values| == 1 {
        assert found[0] in found;
        assert table == [found[0]];
      } else {
        AllFoundIff(table, found);
        assert forall i :: 0 <= i < |table| ==> (table[i] in found <==> Takes(q, table[i]));
      }
    } else {
      assert found == [];
    }
  }

  /** Where all values of a block pass, it is taken whole exactly when no entry of its table is listed twice. */
  lemma {:induction false} WholeWhenAllPass(q: Query, b: Block)
    requires FitsColumn(q) && GoodBlock(b) && !b.Plain? && forall v :: MayHold(b, v) ==> Passes(q, v)
    ensures Whole(q, b) <==> (b.Table? && q.OneOf? && !q.exclude && |q.values| != 1 ==> Distinct(Found(b.table,
            CastAll(q.values))))
  {
    hide Found, CastAll, FitsColumn;
    forall v ensures Takes(q, v) <==> Passes(q, v) {
      TakesIsPasses(q, v);
    }
    if b.Table? {
      assert forall i :: 0 <= i < |b.table| ==> MayHold(b, b.table[i]) && Takes(q, b.table[i]);
      if q.OneOf? {
        WholeListWhenAll(q, b.table);
      }
    }
  }

  lemma {:induction false} WholeListWhenAll(q: Query, table: seq<int>)
    requires q.OneOf? && GoodBlock(Table(table)) && forall i :: 0 <= i < |table| ==> Takes(q, table[i])
    ensures Whole(q, Table(table)) <==> (!q.exclude && |q.values| != 1 ==> Distinct(Found(table, CastAll(q.values))))
  {
    var casts := CastAll(q.values);
    var found := Found(table, casts);
    forall v ensures v in found <==> v in casts && v in table {
      FoundExact(table, casts, v);
    }
    hide Found, Distinct;
    if q.exclude {
      SomeFound(found);
    } else if |q.values| == 1 {
      OneValue(table, casts[0]);
      SomeFound(table);
    } else {
      AllListedCount(table, found);
    }
  }

  lemma {:induction false} SomeFound(s: seq<int>)
    ensures s == [] || s[0] in s
  {
  }

  lemma {:induction false} OneValue(table: seq<int>, x: int)
    requires Ascending(table) && table != []
    ensures (forall i :: 0 <= i < |table| ==> table[i] == x) ==> |table| == 1
    ensures |table| == 1 <==> forall v :: v in table ==> v == table[0]
  {
    if |table| > 1 {
      assert table[0] < table[1] && table[1] in table;
    }
  }

  /**
    The entries of a table, in some order and perhaps more than once: they are as many exactly when none
    comes twice.
   */
  lemma {:induction false} AllListedCount(table: seq<int>, s: seq<int>)
    requires Ascending(table) && forall x :: x in s <==> x in table
    ensures |s| == |table| <==> Distinct(s)
  {
    hide Distinct;
    TableDistinct(table);
    DistinctCount(table);
    ElementsCount(s);
    assert ElementsOf(table) == ElementsOf(s);
    if Distinct(s) {
      DistinctCount(s);
    }
  }

  /** A block taken whole has only values that pass, when no entry of its table is listed twice. */
  lemma {:induction false} WholeSound(q: Query, b: Block, v: int)
    requires FitsColumn(q) && GoodBlock(b) && MayHold(b, v) && Accepted(q, b) && Whole(q, b) && ListedOnce(q, b)
    ensures Passes(q, v)
  {
    hide *;
    WholeExactIff(q, b);
  }

  /** A value listed twice makes a block be taken whole that should not be. */
  lemma {:induction false} ListedTwice()
    ensures var q, b := OneOf(false, [5, 5]), Table([5, 7]);
            GoodBlock(b) && Accepted(q, b) && Whole(q, b) && MayHold(b, 7) && !Passes(q, 7)
  {
    hide Found, Cast, CastAll;
    CastFits([5, 5]);
    FoundTwice();
    assert [5, 7][1] == 7;
  }

  lemma {:induction false} FoundTwice()
    ensures Found([5, 7], [5, 5]) == [5, 5]
  {
    assert [5, 5][..1] == [5] && [5][..0] == [];
    assert Found([5, 7], [5]) == [5];
  }

  // ---------------------------------------------------------------- blocks of one value

  /** AnalyzerBlock_Int_Const_c::SetupNextBlock: values and bounds are compared as they are, without a cast. */
  method SetupConst(q: Query, value: int) returns (ok: bool)
    ensures ok == Accepted(q, Const(value))
  {
    match q {
      case OneOf(exclude, values) =>
        var anyEqual := AnyEqual(values, value);
        ok := anyEqual != exclude;
      case InRange(f) =>
        ok := Satisfies(f, value);
    }
  }

  method AnyEqual<T(==)>(list: seq<T>, x: T) returns (r: bool)
    ensures r <==> x in list
  {
    for j := 0 to |list|
      invariant x !in list[..j]
    {
      if list[j] == x {
        return true;
      }
    }
    return false;
  }

  // ---------------------------------------------------------------- blocks with a table

  /** Binary search in ascending values: the position, or -1. */
  method GetIndexInTable(table: seq<int>, x: int) returns (r: int)
    requires Ascending(table)
    ensures r == -1 || (0 <= r < |table| && table[r] == x)
    ensures r == -1 ==> x !in table
  {
    AscendingSorted(table);
    r := BinarySearch(table, x);
  }

  lemma {:induction false} OneIndex(table: seq<int>, i: nat, j: nat)
    requires Ascending(table) && i < |table| && j < |table| && table[i] == table[j]
    ensures i == j
  {
  }

  predicate Leq(a: nat, b: nat) {
    a <= b
  }

  lemma {:induction false} SortedByLeq(s: seq<nat>)
    requires SortedBy(s, Leq)
    ensures Nondecreasing(s)
  {
  }

  /** The positions in the table of the values found in it. */
  ghost predicate Positions(table: seq<int>, values: seq<int>, ids: seq<nat>) {
    && |ids| == |Found(table, values)|
    && forall i: nat :: i in ids <==> i < |table| && table[i] in values
  }

  lemma {:induction false} PositionsStart(table: seq<int>)
    ensures Positions(table, [], [])
  {
  }

  lemma {:induction false} PositionsNext(table: seq<int>, values: seq<int>, n: nat, ids: seq<nat>, id: int)
    requires Ascending(table) && n < |values| && Positions(table, values[..n], ids)
    requires id == -1 || (0 <= id < |table| && table[id] == values[n])
    requires id == -1 ==> values[n] !in table
    ensures Positions(table, values[..n + 1], if id == -1 then ids else ids + [id])
  {
    var front := values[..n];
    assert values[..n + 1] == front + [values[n]];
    assert values[..n + 1][..n] == front;
    var now := if id == -1 then ids else ids + [id];
    forall i: nat ensures i in now <==> i < |table| && table[i] in values[..n + 1] {
      assert i in ids <==> i < |table| && table[i] in front;
      if i < |table| && id != -1 && table[i] == values[n] {
        OneIndex(table, i, id);
      }
    }
  }

  lemma {:induction false} SortedPositions(table: seq<int>, values: seq<int>, ids: seq<nat>, sorted: seq<nat>)
    requires Positions(table, values, ids) && multiset(sorted) == multiset(ids)
    ensures Positions(table, values, sorted)
  {
    assert |sorted| == |multiset(sorted)| == |multiset(ids)| == |ids|;
    forall i: nat ensures i in sorted <==> i in ids {
      assert i in sorted <==> i in multiset(sorted);
      assert i in ids <==> i in multiset(ids);
    }
  }

  /** AnalyzerBlock_Int_Table_c: what a query comes to in the table of a block. */
  class TableFilter {
    const q: Query
    const dRangeMap: array<bool>
    var tableValueId: int
    var dTableValues: seq<nat>

    constructor (q: Query)
      ensures this.q == q && dRangeMap.Length == 255 && fresh(dRangeMap)
    {
      this.q := q;
      dRangeMap := new bool[255](_ => false);
      tableValueId, dTableValues := -1, [];
    }

    /** The filter is set up for a table. */
    ghost predicate SetFor(table: seq<int>)
      reads this, dRangeMap
    {
      match q
      case OneOf(_, values) =>
        if |values| == 1 then
          var v := Cast(UInt32, values[0]);
          (tableValueId == -1 && v !in table) || (0 <= tableValueId < |table| && table[tableValueId] == v)
        else
          Nondecreasing(dTableValues) && Positions(table, CastAll(values), dTableValues)
      case InRange(f) =>
        dRangeMap.Length == 255 && |table| <= 255 && forall i :: 0 <= i < |table| ==>
                dRangeMap[i] == EvalRange(f, UInt32, table[i])
    }

    /** SetupNextBlock: false when the block is rejected. */
    method SetupNextBlock(table: seq<int>) returns (ok: bool)
      requires GoodBlock(Table(table)) && dRangeMap.Length == 255
      modifies this, dRangeMap
      ensures ok == Accepted(q, Table(table)) && SetFor(table)
    {
      hide Cast, EvalRange, Positions, Nondecreasing;
      match q {
        case OneOf(exclude, values) =>
          if |values| == 1 {
            tableValueId := GetIndexInTable(table, Cast(UInt32, values[0]));
            OneFound(table, values);
            ok := exclude || tableValueId != -1;
          } else {
            FindPositions(table, values);
            ok := exclude || dTableValues != [];
          }
        case InRange(f) =>
          ok := MapRange(table, f);
      }
    }

    method FindPositions(table: seq<int>, values: seq<int>)
      requires GoodBlock(Table(table))
      modifies this`dTableValues
      ensures Nondecreasing(dTableValues) && Positions(table, CastAll(values), dTableValues)
      ensures dTableValues == [] <==> Found(table, CastAll(values)) == []
    {
      hide Cast, Positions, Nondecreasing, Found;
      ghost var casts := CastAll(values);
      var ids: seq<nat> := [];
      PositionsStart(table);
      assert casts[..0] == [];
      for n := 0 to |values|
        invariant Positions(table, casts[..n], ids)
      {
        var id := GetIndexInTable(table, Cast(UInt32, values[n]));
        PositionsNext(table, casts, n, ids, id);
        if id != -1 {
          ids := ids + [id];
        }
      }
      assert casts[..|values|] == casts;
      dTableValues := LibrarySort(ids, Leq);
      SortedByLeq(dTableValues);
      SortedPositions(table, casts, ids, dTableValues);
      PositionsCount(table, casts, dTableValues);
    }

    method MapRange(table: seq<int>, f: Filter) returns (anyInRange: bool)
      requires |table| <= 255 && dRangeMap.Length == 255
      modifies dRangeMap
      ensures anyInRange <==> exists i :: 0 <= i < |table| && EvalRange(f, UInt32, table[i])
      ensures forall i :: 0 <= i < |table| ==> dRangeMap[i] == EvalRange(f, UInt32, table[i])
    {
      hide EvalRange;
      anyInRange := false;
      for i := 0 to |table|
        invariant anyInRange <==> exists k :: 0 <= k < i && EvalRange(f, UInt32, table[k])
        invariant forall k :: 0 <= k < i ==> dRangeMap[k] == EvalRange(f, UInt32, table[k])
      {
        dRangeMap[i] := EvalRange(f, UInt32, table[i]);
        anyInRange := anyInRange || dRangeMap[i];
      }
    }

    /** AllPassFilter, together with the processing functions that take everything by themselves. */
    method TakesAll(table: seq<int>) returns (r: bool)
      requires GoodBlock(Table(table)) && SetFor(table) && Accepted(q, Table(table))
      ensures r == Whole(q, Table(table))
    {
      var all := AllPassFilter(table);
      match q {
        case OneOf(exclude, values) =>
          if |values| == 1 {
            OneFound(table, values);
            r := all || (exclude && tableValueId == -1);
          } else {
            PositionsCount(table, CastAll(values), dTableValues);
            r := all || (exclude && dTableValues == []);
          }
        case InRange(_) =>
          r := all;
      }
    }

    method AllPassFilter(table: seq<int>) returns (r: bool)
      requires SetFor(table)
      ensures r == match q
                   case OneOf(exclude, values) =>
                     if |values| == 1 then |table| == 1 &&
                         (tableValueId != -1) != exclude else |dTableValues| == |table| && !exclude
                   case InRange(f) => forall i :: 0 <= i < |table| ==> EvalRange(f, UInt32, table[i])
    {
      hide EvalRange;
      match q {
        case OneOf(exclude, values) =>
          r := if |values| == 1 then |table| == 1 && (tableValueId != -1) != exclude
               else |dTableValues| == |table| && !exclude;
        case InRange(f) =>
          r := true;
          for i := 0 to |table|
            invariant r <==> forall k :: 0 <= k < i ==> EvalRange(f, UInt32, table[k])
          {
            r := r && dRangeMap[i];
          }
      }
    }

    /** Whether the row with table entry i is taken, as each of the processing functions finds out. */
    method TakesEntry(ghost table: seq<int>, i: nat, linear: bool) returns (r: bool)
      requires Ascending(table) && SetFor(table) && i < |table|
      ensures r == Takes(q, table[i])
    {
      hide Cast, EvalRange, Nondecreasing;
      match q {
        case OneOf(exclude, values) =>
          if |values| == 1 {
            r := (i == tableValueId) != exclude;
            OneEntry(table, values, i, tableValueId);
          } else if linear {
            var any := AnyEqual(dTableValues, i);
            r := any != exclude;
          } else {
            var at := BinarySearch(dTableValues, i);
            r := (at != -1) != exclude;
          }
        case InRange(_) =>
          r := dRangeMap[i];
      }
    }

    /** The processing functions for blocks that are not taken whole: rows whose table entry is taken are appended. */
    method ProcessSubblock(buf: array<nat>, pos: nat, rowID: nat, ghost table: seq<int>, valueIndexes: seq<nat>,
                           linear: bool, ghost pass: nat -> bool) returns (end: nat, next: nat)
      requires Ascending(table) && SetFor(table) && buf.Length >= pos + |valueIndexes|
      requires forall k :: 0 <= k < |valueIndexes| ==>
              valueIndexes[k] < |table| && pass(rowID + k) == Takes(q, table[valueIndexes[k]])
      modifies buf
      ensures pos <= end <= pos + |valueIndexes| && next == rowID + |valueIndexes|
      ensures buf[..pos] == old(buf[..pos]) && buf[pos..end] == A.Passing(pass, rowID, rowID + |valueIndexes|)
    {
      hide *;
      ghost var n := |valueIndexes|;
      end, next := pos, rowID;
      A.NonePassing(pass, rowID);
      var k := 0;
      while k < |valueIndexes|
        invariant 0 <= k <= n && next == rowID + k && pos <= end <= pos + k
        invariant SetFor(table) && tableValueId == old(tableValueId) && dTableValues == old(dTableValues)
        invariant buf[..pos] == old(buf[..pos]) && buf[pos..end] == A.Passing(pass, rowID, rowID + k)
      {
        ghost var was := buf[..];
        var takes := TakesEntry(table, valueIndexes[k], linear);
        A.NextPassing(pass, rowID, k);
        if takes {
          Append(buf, end, next);
          SliceAppended(was, buf[..], pos, end);
          end := end + 1;
        }
        next := next + 1;
        k := k + 1;
      }
    }
  }

  lemma {:induction false} OneFound(table: seq<int>, values: seq<int>)
    requires |values| == 1
    ensures Found(table, CastAll(values)) != [] <==> Cast(UInt32, values[0]) in table
  {
    var v := Cast(UInt32, values[0]);
    assert CastAll(values) == [v];
    FoundExact(table, [v], v);
    if Found(table, [v]) != [] {
      FoundExact(table, [v], Found(table, [v])[0]);
    }
  }

  lemma {:induction false} PositionsCount(table: seq<int>, values: seq<int>, ids: seq<nat>)
    requires Positions(table, values, ids)
    ensures |ids| == |Found(table, values)|
  {
  }

  lemma {:induction false} OneEntry(table: seq<int>, values: seq<int>, i: nat, id: int)
    requires Ascending(table) && |values| == 1 && i < |table|
    requires (id == -1 && Cast(UInt32, values[0]) !in table) ||
             (0 <= id < |table| && table[id] == Cast(UInt32, values[0]))
    ensures i == id <==> table[i] in CastAll(values)
  {
    assert CastAll(values) == [Cast(UInt32, values[0])];
  }

  // ---------------------------------------------------------------- plain values

  /**
    Lists of 2 to 128 values, or none, are searched one by one; a value that is different from any of an
    excluded list is taken.
   */
  predicate SearchedLinearly(q: Query) {
    q.OneOf? && |q.values| != 1 && |q.values| <= 128
  }

  /** A value that the linear search judges as the query means it. */
  predicate JudgedRight(q: Query, v: int) {
    SearchedLinearly(q) && q.exclude ==> q.values != [] && (v in q.values ==> forall x :: x in q.values ==> x == v)
  }

  predicate TakesPlain(q: Query, v: int) {
    match q
    case OneOf(exclude, values) =>
      if |values| == 1 then (v == Cast(UInt32, values[0])) != exclude
      else if |values| <= 128 then exists j :: 0 <= j < |values| && (v == Cast(UInt32, values[j])) != exclude
      else (v in values) != exclude
    case InRange(f) => EvalRange(f, UInt32, v)
  }

  /** When plain values are filtered as the query means: always, unless an excluded list is searched one by one. */
  lemma {:induction false} PlainExactIff(q: Query, v: int)
    requires FitsColumn(q) && IsValue(UInt32, v)
    ensures (TakesPlain(q, v) <==> Passes(q, v)) <==> JudgedRight(q, v)
  {
    match q
    case OneOf(exclude, values) =>
      CastFits(values);
      hide Cast;
      assert forall j :: 0 <= j < |values| ==> Cast(UInt32, values[j]) == CastAll(values)[j] == values[j];
      if |values| == 1 {
        assert values == [values[0]];
      } else if |values| <= 128 {
        assert v in values <==> exists j :: 0 <= j < |values| && values[j] == v;
        OtherValue(values, v);
        if exclude {
          assert TakesPlain(q, v) <==> exists j :: 0 <= j < |values| && values[j] != v;
          assert values != [] && v !in values ==> values[0] != v;
        } else {
          assert TakesPlain(q, v) <==> exists j :: 0 <= j < |values| && values[j] == v;
        }
      }
    case InRange(f) => EvalIsSatisfies(f, UInt32, v);
  }

  lemma {:induction false} OtherValue(values: seq<int>, v: int)
    ensures (exists j :: 0 <= j < |values| && values[j] != v) <==> exists x :: x in values && x != v
  {
    if j :| 0 <= j < |values| && values[j] != v {
      assert values[j] in values;
    }
  }

  /** Two excluded values exclude nothing. */
  lemma {:induction false} LinearExcludeTakesAll()
    ensures TakesPlain(OneOf(true, [5, 7]), 5) && !Passes(OneOf(true, [5, 7]), 5)
  {
    assert (5 == Cast(UInt32, [5, 7][1])) != true;
  }

  method LinearSearch(values: seq<int>, v: int, exclude: bool) returns (r: bool)
    ensures r <==> exists j :: 0 <= j < |values| && (v == Cast(UInt32, values[j])) != exclude
  {
    hide Cast;
    for j := 0 to |values|
      invariant forall k :: 0 <= k < j ==> (v == Cast(UInt32, values[k])) == exclude
    {
      if (v == Cast(UInt32, values[j])) != exclude {
        return true;
      }
    }
    return false;
  }

  /** The test of the processing function that SetupPackingFuncs picks. */
  method TestPlain(q: Query, v: int) returns (r: bool)
    requires q.OneOf? && |q.values| > 128 ==> Nondecreasing(q.values)
    ensures r == TakesPlain(q, v)
  {
    match q {
      case OneOf(exclude, values) =>
        if |values| == 1 {
          r := (v == Cast(UInt32, values[0])) != exclude;
        } else if |values| <= 128 {
          r := LinearSearch(values, v, exclude);
        } else {
          var at := BinarySearch(values, v);
          r := (at != -1) != exclude;
        }
      case InRange(f) =>
        r := EvalRange(f, UInt32, v);
    }
  }

  /** AnalyzerBlock_Int_Values_T: rows whose value is taken are appended. */
  method ProcessPlain(q: Query, buf: array<nat>, pos: nat, rowID: nat, dValues: seq<int>,
                      ghost pass: nat -> bool) returns (end: nat, next: nat)
    requires q.OneOf? && |q.values| > 128 ==> Nondecreasing(q.values)
    requires buf.Length >= pos + |dValues| && forall k :: 0 <= k < |dValues| ==>
            pass(rowID + k) == TakesPlain(q, dValues[k])
    modifies buf
    ensures pos <= end <= pos + |dValues| && next == rowID + |dValues|
    ensures buf[..pos] == old(buf[..pos]) && buf[pos..end] == A.Passing(pass, rowID, rowID + |dValues|)
  {
    hide *;
    ghost var n := |dValues|;
    end, next := pos, rowID;
    A.NonePassing(pass, rowID);
    var k := 0;
    while k < |dValues|
      invariant 0 <= k <= n && next == rowID + k && pos <= end <= pos + k
      invariant buf[..pos] == old(buf[..pos]) && buf[pos..end] == A.Passing(pass, rowID, rowID + k)
    {
      ghost var was := buf[..];
      var takes := TestPlain(q, dValues[k]);
      A.NextPassing(pass, rowID, k);
      if takes {
        Append(buf, end, next);
        SliceAppended(was, buf[..], pos, end);
        end := end + 1;
      }
      next := next + 1;
      k := k + 1;
    }
  }

  // ---------------------------------------------------------------- the column a query sees

  /** A column: its subblocks to visit, its blocks, and the value of each row. */
  datatype Source = Source(docs: nat, shift: nat, have: bool, list: seq<nat>, blocks: seq<Block>, value: nat -> int)

  /** Every row has a value of the column, which its block may hold. */
  ghost predicate GoodSource(s: Source) {
    && s.shift <= 16
    && (forall b :: 0 <= b < |s.blocks| ==> GoodBlock(s.blocks[b]))
    && forall r: nat {:trigger s.value(r)} :: r < s.docs ==>
            var b := Above(r, 16); b < |s.blocks| && MayHold(s.blocks[b], s.value(r))
  }

  /** Which rows of a block the processing functions take. */
  predicate Taken(q: Query, b: Block, v: int) {
    match b
    case Const(_) => Passes(q, v)
    case Table(_) => Takes(q, v)
    case Plain => TakesPlain(q, v)
  }

  /** Every row in a block of plain values is judged as the query means it. */
  ghost predicate SearchedWell(q: Query, s: Source) {
    forall r: nat {:trigger s.value(r)} :: r < s.docs ==>
      var b := Above(r, 16); b < |s.blocks| && s.blocks[b].Plain? ==> JudgedRight(q, s.value(r))
  }

  lemma {:induction false} TakenIsPasses(q: Query, b: Block, v: int)
    requires FitsColumn(q) && GoodBlock(b) && MayHold(b, v)
    requires b.Plain? ==> JudgedRight(q, v)
    ensures Taken(q, b, v) <==> Passes(q, v)
  {
    TakesIsPasses(q, v);
    if b.Plain? {
      PlainExactIff(q, v);
    }
  }

  /** The column as the analyzer sees it. */
  function ColumnOf(q: Query, s: Source): A.Column {
    A.Column(s.docs, s.shift, s.have, s.list,
             (r: nat) => var b := Above(r, 16); b < |s.blocks| && Taken(q, s.blocks[b], s.value(r)),
             (b: nat) => b < |s.blocks| && Accepted(q, s.blocks[b]),
             (b: nat) => b < |s.blocks| && Whole(q, s.blocks[b]))
  }

  lemma {:induction false} PlainUntouched(q: Query)
    ensures Accepted(q, Plain) && !Whole(q, Plain)
  {
  }

  /** No block of the column is taken whole with an entry listed twice. */
  ghost predicate AllListedOnce(q: Query, s: Source) {
    forall b :: 0 <= b < |s.blocks| ==> ListedOnce(q, s.blocks[b])
  }

  /** Rejecting blocks and taking them whole is sound, whatever the blocks are. */
  lemma {:induction false} FilterIsSound(q: Query, s: Source)
    requires GoodSource(s) && FitsColumn(q) && AllListedOnce(q, s)
    ensures A.Sound(ColumnOf(q, s))
  {
    var c := ColumnOf(q, s);
    hide GoodBlock, MayHold, Accepted, Whole, Passes, Taken, FitsColumn, ListedOnce, A.Listed, A.SubStart, A.SubEnd,
         A.BlockOf, Above;
    forall t, r {:trigger A.Listed(c, t), c.pass(r)} | A.Listed(c, t) && A.SubStart(c, t) <= r < A.SubEnd(c, t)
      ensures (!c.accept(A.BlockOf(c, t)) ==> !c.pass(r)) &&
              (c.accept(A.BlockOf(c, t)) && c.full(A.BlockOf(c, t)) ==> c.pass(r))
    {
      A.RowInBlock(c, t, r);
      RowHeld(s, r);
      var b, v := A.BlockOf(c, t), s.value(r);
      if !Accepted(q, s.blocks[b]) {
        PlainUntouched(q);
        RejectionSound(q, s.blocks[b], v);
        TakenIsPasses(q, s.blocks[b], v);
      } else if Whole(q, s.blocks[b]) {
        PlainUntouched(q);
        WholeSound(q, s.blocks[b], v);
        TakenIsPasses(q, s.blocks[b], v);
      }
    }
  }

  /**
    Any interleaving of reads and hints over a filtered column, when no subblock taken whole has a length at
    which the filling restarts: the rows come in strictly ascending order, only rows of listed subblocks come
    whose value passes, one of those that no hint has passed has come once the run is refused or drained, and hints
    are obeyed.
   */
  lemma {:induction false} FilteredRun(q: Query, s: Source, rests: seq<seq<nat>>, steps: seq<Step>, x: nat)
    requires GoodSource(s) && FitsColumn(q) && AllListedOnce(q, s) && SearchedWell(q, s)
    requires A.Good(ColumnOf(q, s))
    requires forall k :: 0 <= k < |s.list| ==> A.FillsRight(ColumnOf(q, s), s.list[k])
    requires IsRun(rests, steps, s.shift) && rests[0] == A.RowsFrom(ColumnOf(q, s), 0)
    ensures Ascending(Emitted(steps) + rests[|steps|]) && HintsObeyed(steps, s.shift, x)
    ensures x in Emitted(steps) ==> x < s.docs && Passes(q, s.value(x)) && Above(x, s.shift) in s.list
    ensures (x < s.docs && Passes(q, s.value(x)) && Above(x, s.shift) in s.list &&
            (forall i :: 0 <= i < |steps| && steps[i].Hinted? ==> steps[i].r <= x)) ==>
              (x in Emitted(steps) || x in rests[|steps|]) &&
              (Ended(steps) ==> x in Emitted(steps))
  {
    hide A.Good, A.FillsRight, A.Sound, A.RowsFrom, Passes, Above, IsRun, HintsObeyed, Emitted, Ascending, GoodSource,
         FitsColumn,
         AllListedOnce, Accepted, Whole, Taken, SearchedWell;
    FilterIsSound(q, s);
    if x < s.docs {
      RowTaken(q, s, x);
    }
    A.AnalyzerRun(ColumnOf(q, s), rests, steps, x);
  }

  /** With a number of rows that is a multiple of four, no subblock is filled wrongly. */
  lemma {:induction false} FillsRightColumn(q: Query, s: Source)
    requires A.Good(ColumnOf(q, s)) && s.shift >= 2 && s.docs % 4 == 0
    ensures forall k :: 0 <= k < |s.list| ==> A.FillsRight(ColumnOf(q, s), s.list[k])
  {
    hide A.Good, A.FillsRight, A.BlockOf, Taken, Accepted, Whole, Above;
    var c := ColumnOf(q, s);
    A.ShiftSmall(c);
    forall k | 0 <= k < |c.list| ensures A.FillsRight(c, c.list[k]) {
      A.ListedSubblock(c, k);
      A.ListedStart(c, c.list[k]);
      A.FillsRightAlways(c, c.list[k]);
    }
  }

  lemma {:induction false} RowHeld(s: Source, x: nat)
    requires GoodSource(s) && x < s.docs
    ensures var b := Above(x, 16); b < |s.blocks| && GoodBlock(s.blocks[b]) && MayHold(s.blocks[b], s.value(x))
  {
    hide GoodBlock, MayHold, Above;
    var v := s.value(x);
  }

  lemma {:induction false} RowTaken(q: Query, s: Source, x: nat)
    requires GoodSource(s) && FitsColumn(q) && SearchedWell(q, s) && x < s.docs
    ensures ColumnOf(q, s).pass(x) <==> Passes(q, s.value(x))
  {
    hide GoodBlock, MayHold, Passes, Taken, FitsColumn, JudgedRight, Above;
    RowHeld(s, x);
    var v := s.value(x);
    TakenIsPasses(q, s.blocks[Above(x, 16)], s.value(x));
  }
}
