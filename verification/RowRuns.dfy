/**
  Row sources that are read and hinted (columnar/columnar.cpp, BlockIterator_c;
  columnar/accessor/accessortraits.h, Analyzer_T): what a call may do to the rows still to come, and what
  follows for whole runs.
 */
module RowRuns {
  import opened Orders
  import opened Shifts

  function Range(a: nat, b: nat): (r: seq<nat>)
    ensures |r| == if a <= b then b - a else 0
    ensures forall i :: 0 <= i < |r| ==> r[i] == a + i
  {
    if a <= b then seq(b - a, i => a + i) else []
  }

  lemma {:induction false} InRange(a: nat, b: nat, x: nat)
    ensures x in Range(a, b) <==> a <= x < b
    ensures Ascending(Range(a, b))
  {
    var r := Range(a, b);
    if a <= x < b {
      assert r[x - a] == x;
    }
  }

  lemma {:induction false} JoinAscending(a: seq<nat>, b: seq<nat>)
    requires Ascending(a) && Ascending(b) && forall x, y :: x in a && y in b ==> x < y
    ensures Ascending(a + b)
  {
    var s := a + b;
    forall i, j | 0 <= i < j < |s| ensures s[i] < s[j] {
      if i < |a| <= j {
        assert s[i] in a && s[j] in b;
      }
    }
  }

  lemma {:induction false} EmptyAscends()
    ensures Ascending([])
  {
  }

  /** Only rows below v were dropped from the front. */
  ghost predicate Dropped(before: seq<nat>, after: seq<nat>, v: nat) {
    |after| <= |before| && after == before[|before| - |after|..] && forall i :: 0 <= i < |before| - |after| ==>
            before[i] < v
  }

  ghost predicate AllUnder(s: seq<nat>, v: nat) {
    forall i :: 0 <= i < |s| ==> s[i] < v
  }

  ghost predicate AllFrom(s: seq<nat>, v: nat) {
    forall i :: 0 <= i < |s| ==> v <= s[i]
  }

  /** The rows below v were dropped from the front, and all that is left is at v or above. */
  ghost predicate CutAt(before: seq<nat>, after: seq<nat>, v: nat) {
    Dropped(before, after, v) && AllFrom(after, v)
  }

  lemma {:induction false} DroppedNone(s: seq<nat>, v: nat)
    ensures Dropped(s, s, v)
  {
  }

  lemma {:induction false} DroppedFront(a: seq<nat>, b: seq<nat>, c: seq<nat>, v: nat)
    requires AllUnder(a, v) && Dropped(b, c, v)
    ensures Dropped(a + b, c, v)
  {
    var s := a + b;
    var n := |b| - |c|;
    forall i | 0 <= i < |c| ensures s[|a| + n..][i] == c[i] {
      assert b[n..][i] == b[n + i];
    }
    assert s[|a| + n..] == c;
  }

  lemma {:induction false} DroppedToNothing(s: seq<nat>, v: nat)
    requires Dropped(s, [], v)
    ensures AllUnder(s, v)
  {
  }

  lemma {:induction false} JoinFrom(a: seq<nat>, b: seq<nat>, v: nat)
    requires AllFrom(a, v) && AllFrom(b, v)
    ensures AllFrom(a + b, v)
  {
  }

  // ---------------------------------------------------------------- lists of matching blocks

  /** MatchingBlocks_c::Find: where the first block of an ascending list from a position on is that is not below v. */
  function FindBlock(list: seq<nat>, from: nat, v: nat): (r: nat)
    ensures from <= |list| ==> from <= r <= |list| && (r < |list| ==> v <= list[r]) && forall i :: from <= i < r ==>
            list[i] < v
    ensures from > |list| ==> r == |list|
    decreases |list| - from
  {
    if from >= |list| then |list| else if v <= list[from] then from else FindBlock(list, from + 1, v)
  }

  // ---------------------------------------------------------------- whole runs

  datatype Step = Took(rows: seq<nat>) | Hinted(r: nat, ok: bool)

  /** The first row of the leaf, or subblock, of row r. */
  function LeafStart(r: nat, shift: nat): (v: nat)
    ensures v <= r
  {
    AboveBelow(r, shift);
    Shl(Above(r, shift), shift)
  }

  /**
    What a call of the iterator does to the rows still to come. A read takes them from the front, none only when
    none is left. A hint that is accepted drops all rows before the leaf of the row hinted; one that is refused
    finds no others, and may leave them.
   */
  ghost predicate StepOk(before: seq<nat>, after: seq<nat>, s: Step, shift: nat) {
    match s
    case Took(rows) => rows + after == before && (rows == [] ==> after == [])
    case Hinted(r, true) => CutAt(before, after, LeafStart(r, shift))
    case Hinted(r, false) => AllUnder(before, LeafStart(r, shift)) && (after == before || after == [])
  }

  ghost predicate IsRun(rests: seq<seq<nat>>, steps: seq<Step>, shift: nat) {
    |rests| == |steps| + 1 && forall i {:trigger steps[i]} :: 0 <= i < |steps| ==>
            var next := i + 1; StepOk(rests[i], rests[next], steps[i], shift)
  }

  /** The last call has refused a hint or handed out nothing. */
  predicate Ended(steps: seq<Step>) {
    steps != [] && match steps[|steps| - 1] case Took(rows) => rows == [] case Hinted(_, ok) => !ok
  }

  function Emitted(steps: seq<Step>): seq<nat> {
    if steps == [] then []
    else
      var last := steps[|steps| - 1];
      Emitted(steps[..|steps| - 1]) + (if last.Took? then last.rows else [])
  }

  lemma {:induction false} RunFront(rests: seq<seq<nat>>, steps: seq<Step>, shift: nat)
    requires IsRun(rests, steps, shift) && steps != []
    ensures var n := |steps| - 1;
            IsRun(rests[..n + 1], steps[..n], shift) && StepOk(rests[n], rests[n + 1], steps[n], shift)
  {
    hide StepOk;
    var n := |steps| - 1;
    forall i | 0 <= i < n ensures StepOk(rests[..n + 1][i], rests[..n + 1][i + 1], steps[..n][i], shift) {
      assert steps[..n][i] == steps[i];
    }
  }

  /** What is still to come after a hint is the end of what was to come. */
  lemma {:induction false} HintKeepsEnd(before: seq<nat>, after: seq<nat>, r: nat, ok: bool, shift: nat)
    requires StepOk(before, after, Hinted(r, ok), shift)
    ensures |after| <= |before| && after == before[|before| - |after|..]
    ensures forall i :: 0 <= i < |before| - |after| ==> before[i] < r
    ensures !ok ==> AllUnder(before, r)
  {
    hide Shl, Above;
  }

  /** Any interleaving of reads and hints hands out rows in strictly ascending order. */
  lemma {:induction false} RunAscends(rests: seq<seq<nat>>, steps: seq<Step>, shift: nat)
    requires IsRun(rests, steps, shift) && Ascending(rests[0])
    ensures Ascending(Emitted(steps) + rests[|steps|])
    decreases |steps|
  {
    if steps == [] {
      assert Emitted(steps) + rests[0] == rests[0];
    } else {
      var n := |steps| - 1;
      RunFront(rests, steps, shift);
      RunAscends(rests[..n + 1], steps[..n], shift);
      var e := Emitted(steps[..n]);
      match steps[n] {
        case Took(rows) =>
          assert e + rows + rests[n + 1] == e + (rows + rests[n + 1]);
        case Hinted(r, ok) =>
          HintKeepsEnd(rests[n], rests[n + 1], r, ok, shift);
          assert e + [] == e;
          DropAscends(e, rests[n], |rests[n]| - |rests[n + 1]|);
      }
    }
  }

  lemma {:induction false} DropAscends(e: seq<nat>, s: seq<nat>, d: nat)
    requires d <= |s| && Ascending(e + s)
    ensures Ascending(e + s[d..])
  {
    var t := e + s[d..];
    forall i, j | 0 <= i < j < |t| ensures t[i] < t[j] {
      assert t[i] == (e + s)[if i < |e| then i else i + d];
      assert t[j] == (e + s)[if j < |e| then j else j + d];
    }
  }

  /**
    A row that no hint has passed is handed out or still to come; once a hint is refused, or nothing more
    comes, it has been handed out.
   */
  lemma {:induction false} RunLosesNothing(rests: seq<seq<nat>>, steps: seq<Step>, shift: nat, x: nat)
    requires IsRun(rests, steps, shift) && x in rests[0]
    requires forall i :: 0 <= i < |steps| && steps[i].Hinted? ==> steps[i].r <= x
    ensures x in Emitted(steps) || x in rests[|steps|]
    ensures Ended(steps) ==> x in Emitted(steps)
    decreases |steps|
  {
    if steps != [] {
      var n := |steps| - 1;
      RunFront(rests, steps, shift);
      assert forall i :: 0 <= i < n ==> steps[..n][i] == steps[i];
      RunLosesNothing(rests[..n + 1], steps[..n], shift, x);
      if x !in Emitted(steps[..n]) {
        var j :| 0 <= j < |rests[n]| && rests[n][j] == x;
        match steps[n] {
          case Took(rows) =>
            assert (rows + rests[n + 1])[j] == x;
          case Hinted(r, ok) =>
            HintKeepsEnd(rests[n], rests[n + 1], r, ok, shift);
            var d := |rests[n]| - |rests[n + 1]|;
            assert j >= d && rests[n][d..][j - d] == x;
        }
      }
    }
  }

  /** Only rows that were to come are handed out. */
  lemma {:induction false} RunInventsNothing(rests: seq<seq<nat>>, steps: seq<Step>, shift: nat, x: nat)
    requires IsRun(rests, steps, shift) && (x in Emitted(steps) || x in rests[|steps|])
    ensures x in rests[0]
    decreases |steps|
  {
    if steps != [] {
      var n := |steps| - 1;
      RunFront(rests, steps, shift);
      if x !in Emitted(steps[..n]) {
        StepInventsNothing(rests[n], rests[n + 1], steps[n], shift, x);
      }
      RunInventsNothing(rests[..n + 1], steps[..n], shift, x);
    }
  }

  lemma {:induction false} StepInventsNothing(before: seq<nat>, after: seq<nat>, s: Step, shift: nat, x: nat)
    requires StepOk(before, after, s, shift) && (x in after || (s.Took? && x in s.rows))
    ensures x in before
  {
    match s {
      case Took(rows) =>
        assert x in rows + after;
      case Hinted(r, ok) =>
        HintKeepsEnd(before, after, r, ok, shift);
        assert x in before[|before| - |after|..];
    }
  }

  lemma {:induction false} StillToCome(rests: seq<seq<nat>>, steps: seq<Step>, shift: nat, i: nat, j: nat, x: nat)
    requires IsRun(rests, steps, shift) && i <= j <= |steps| && x in rests[j]
    ensures x in rests[i]
    decreases j
  {
    hide StepOk;
    if i < j {
      assert StepOk(rests[j - 1], rests[j], steps[j - 1], shift);
      StepInventsNothing(rests[j - 1], rests[j], steps[j - 1], shift, x);
      StillToCome(rests, steps, shift, i, j - 1, x);
    }
  }

  /**
    Where row x is handed out, hints before that were accepted exactly when their leaf is not behind that of x.
   */
  ghost predicate HintsObeyed(steps: seq<Step>, shift: nat, x: nat) {
    forall i, j :: 0 <= i < j < |steps| && steps[i].Hinted? && steps[j].Took? && x in steps[j].rows ==>
            (steps[i].ok <==> Above(steps[i].r, shift) <= Above(x, shift))
  }

  /**
    Hints are obeyed for the rest of a run: after one that was accepted no row of a leaf before that of the hint
    is handed out, and after one that was refused only such rows.
   */
  lemma {:induction false} RunObeysHints(rests: seq<seq<nat>>, steps: seq<Step>, shift: nat, x: nat)
    requires IsRun(rests, steps, shift)
    ensures HintsObeyed(steps, shift, x)
  {
    hide IsRun, Above;
    forall i, j | 0 <= i < j < |steps| && steps[i].Hinted? && steps[j].Took? && x in steps[j].rows
      ensures steps[i].ok <==> Above(steps[i].r, shift) <= Above(x, shift)
    {
      HintObeyed(rests, steps, shift, i, j, x);
    }
  }

  lemma {:induction false} HintObeyed(rests: seq<seq<nat>>, steps: seq<Step>, shift: nat, i: nat, j: nat, x: nat)
    requires IsRun(rests, steps, shift) && i < j < |steps| && steps[i].Hinted?
    requires steps[j].Took? && x in steps[j].rows
    ensures steps[i].ok <==> Above(steps[i].r, shift) <= Above(x, shift)
  {
    var r := steps[i].r;
    var next := j + 1;
    assert StepOk(rests[j], rests[next], steps[j], shift);
    StepInventsNothing(rests[j], rests[next], steps[j], shift, x);
    StillToCome(rests, steps, shift, i + 1, j, x);
    assert StepOk(rests[i], rests[i + 1], steps[i], shift);
    StillToCome(rests, steps, shift, i, i + 1, x);
    hide IsRun, Shl, Above;
    assert steps[i].ok <==> LeafStart(r, shift) <= x;
    LaterLeaf(r, x, shift);
  }

  /** A row is at or above the start of a leaf exactly when its own leaf is not before it. */
  lemma {:induction false} LaterLeaf(r: nat, x: nat, shift: nat)
    ensures LeafStart(r, shift) <= x <==> Above(r, shift) <= Above(x, shift)
  {
    AboveBelow(x, shift);
    var a, b := Above(r, shift), Above(x, shift);
    hide Above, Shl;
    if a <= b {
      ShlGrows(a, b, shift);
    } else {
      ShlGrows(b + 1, a, shift);
    }
  }

  lemma {:induction false} EarlierLeaf(x: nat, y: nat, shift: nat)
    requires Above(x, shift) < Above(y, shift)
    ensures x < y
  {
    LaterLeaf(y, x, shift);
  }
}
