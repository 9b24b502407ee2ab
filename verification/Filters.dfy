/**
  Integer column types and the range conditions of queries (common/filter.cpp, common/interval.h).
 */
module Filters {

  /** Integer columns: unsigned 32-bit, signed 64-bit, and unsigned 64-bit (hashes of strings). */
  datatype ColumnType = UInt32 | Int64 | UInt64

  function Lowest(t: ColumnType): int {
    if t.Int64? then -0x8000_0000_0000_0000 else 0
  }

  function Highest(t: ColumnType): int {
    match t
    case UInt32 => 0xFFFF_FFFF
    case Int64 => 0x7FFF_FFFF_FFFF_FFFF
    case UInt64 => 0xFFFF_FFFF_FFFF_FFFF
  }

  predicate IsValue(t: ColumnType, x: int) {
    Lowest(t) <= x <= Highest(t)
  }

  /** A cast to the type, which wraps. */
  function Cast(t: ColumnType, x: int): int {
    match t
    case UInt32 => x % 0x1_0000_0000
    case Int64 => (x + 0x8000_0000_0000_0000) % 0x1_0000_0000_0000_0000 - 0x8000_0000_0000_0000
    case UInt64 => x % 0x1_0000_0000_0000_0000
  }

  /** A range condition of a query. */
  datatype Filter = Filter(min: int, max: int, leftUnbounded: bool, rightUnbounded: bool, leftClosed: bool,
      rightClosed: bool)

  /** What the condition means. */
  predicate Satisfies(f: Filter, v: int) {
    && (f.leftUnbounded || (if f.leftClosed then f.min <= v else f.min < v))
    && (f.rightUnbounded || (if f.rightClosed then v <= f.max else v < f.max))
  }

  /** The bounds that are in force are values of the column type. */
  predicate Fits(f: Filter, t: ColumnType) {
    && (!f.leftUnbounded ==> IsValue(t, f.min))
    && (!f.rightUnbounded ==> IsValue(t, f.max))
  }

  /** ValueInInterval, with the bounds cast to the column type. */
  predicate EvalRange(f: Filter, t: ColumnType, v: int) {
    var min, max := Cast(t, f.min), Cast(t, f.max);
    if f.leftUnbounded && f.rightUnbounded then true
    else if f.leftUnbounded then if f.rightClosed then v <= max else v < max
    else if f.rightUnbounded then if f.leftClosed then v >= min else v > min
    else (if f.leftClosed then v >= min else v > min) && (if f.rightClosed then v <= max else v < max)
  }

  lemma {:induction false} CastIsValue(t: ColumnType, x: int)
    ensures IsValue(t, Cast(t, x)) && (IsValue(t, x) ==> Cast(t, x) == x)
  {
  }

  lemma {:induction false} EvalIsSatisfies(f: Filter, t: ColumnType, v: int)
    requires Fits(f, t)
    ensures EvalRange(f, t, v) <==> Satisfies(f, v)
  {
    hide Cast, IsValue;
    CastIsValue(t, f.min);
    CastIsValue(t, f.max);
  }

  /** Matching values are consecutive. */
  lemma {:induction false} EvalConvex(f: Filter, t: ColumnType, a: int, b: int, v: int)
    requires EvalRange(f, t, a) && EvalRange(f, t, b) && a <= v <= b
    ensures EvalRange(f, t, v)
  {
    hide Cast;
  }

  /** FixupFilterSettings: bounds below and above all unsigned 32-bit values are dropped. */
  function Fixup(t: ColumnType, f: Filter): Filter {
    if !t.UInt32? then f
    else
      var g := if f.min < 0 then f.(min := -0x8000_0000_0000_0000, leftUnbounded := true, leftClosed := false) else f;
      if g.max > 0xFFFF_FFFF then g.(max := 0x7FFF_FFFF_FFFF_FFFF, rightUnbounded := true, rightClosed := false) else g
  }

  /** Bounds of queries are signed 64-bit numbers. */
  predicate GivenAs64Bit(f: Filter) {
    IsValue(Int64, f.min) && IsValue(Int64, f.max)
  }

  /**
    Dropping bounds does not change which values of the type satisfy a condition, unless the bound excludes
    all of them.
   */
  lemma {:induction false} FixupKeeps(t: ColumnType, f: Filter, v: int)
    requires IsValue(t, v) && Fits(Fixup(t, f), t)
    ensures Satisfies(Fixup(t, f), v) <==> Satisfies(f, v)
  {
  }

  /** After fixing, the bounds fit the type exactly when no bound excludes all of its values by lying outside it. */
  lemma {:induction false} FixupFitsIff(t: ColumnType, f: Filter)
    requires GivenAs64Bit(f)
    ensures Fits(Fixup(t, f), t) <==>
              match t
              case UInt32 => (f.leftUnbounded || f.min <= Highest(t)) && (f.rightUnbounded || Lowest(t) <= f.max)
              case Int64 => true
              case UInt64 => (f.leftUnbounded || Lowest(t) <= f.min) && (f.rightUnbounded || Lowest(t) <= f.max)
  {
  }

  /** The first and the last value that the cast bounds let through. */
  function FirstThrough(f: Filter, t: ColumnType): int {
    if f.leftUnbounded then Lowest(t) else if f.leftClosed then Cast(t, f.min) else Cast(t, f.min) + 1
  }

  function LastThrough(f: Filter, t: ColumnType): int {
    if f.rightUnbounded then Highest(t) else if f.rightClosed then Cast(t, f.max) else Cast(t, f.max) - 1
  }

  lemma {:induction false} ThroughIff(f: Filter, t: ColumnType, v: int)
    requires IsValue(t, v)
    ensures EvalRange(f, t, v) <==> FirstThrough(f, t) <= v <= LastThrough(f, t)
  {
    hide Cast;
  }

  /**
    A range condition, after its bounds have been fixed, is evaluated as it is meant for all values of a column
    exactly when no bound in force is outside the type, or nothing gets between the cast bounds anyway.
   */
  lemma {:induction false} RangeMeansIff(t: ColumnType, f: Filter)
    requires GivenAs64Bit(f) && !t.UInt64?
    ensures (forall v :: IsValue(t, v) ==> (EvalRange(Fixup(t, f), t, v) <==> Satisfies(f, v))) <==>
            Fits(Fixup(t, f), t) || FirstThrough(Fixup(t, f), t) > LastThrough(Fixup(t, f), t)
  {
    var g := Fixup(t, f);
    forall v | IsValue(t, v)
      ensures Fits(g, t) ==> (EvalRange(g, t, v) <==> Satisfies(f, v))
      ensures !Fits(g, t) ==> !Satisfies(f, v)
      ensures EvalRange(g, t, v) <==> FirstThrough(g, t) <= v <= LastThrough(g, t)
    {
      if Fits(g, t) {
        EvalIsSatisfies(g, t, v);
        FixupKeeps(t, f, v);
      }
      ThroughIff(g, t, v);
    }
    CastIsValue(t, g.min);
    CastIsValue(t, g.max);
    var first := FirstThrough(g, t);
    if first <= LastThrough(g, t) {
      assert IsValue(t, first);
    }
  }

  /** "At least 2 to the power 32" on an unsigned 32-bit column: no value is meant, every value is taken. */
  lemma {:induction false} BoundAboveTypeMatches(v: int)
    requires IsValue(UInt32, v)
    ensures var f := Filter(0x1_0000_0000, 0, false, true, true, true);
            GivenAs64Bit(f) && !Satisfies(f, v) && EvalRange(Fixup(UInt32, f), UInt32, v)
  {
    assert Cast(UInt32, 0x1_0000_0000) == 0;
  }
}
