/**
  The call protocol of the secondary-index rowid iterator (secondary/iterator.cpp) as a pure state
  machine: which sub-block a call returns and how hints move the iterator. The class in
  RowidIterator.dfy is proved to take exactly these steps.
 */
module RowidProtocol {

  datatype Option<+T> = None | Some(value: T)

  /**
    What the iterator walks over: sub-blocks with their smallest and largest rowid, and which of them
    are marked as matching the rowid bounds. Single rows and single blocks are one marked sub-block.
   */
  datatype Plan = Plan(list: bool, lo: seq<nat>, hi: seq<nat>, marked: seq<bool>)

  ghost predicate Wellformed(p: Plan) {
    && |p.lo| == |p.hi| == |p.marked| > 0
    && (!p.list ==> |p.lo| == 1 && p.marked == [true])
    && (forall k, l :: 0 <= k <= l < |p.hi| ==> p.hi[k] <= p.hi[l]) && p.lo[0] <= p.hi[0]
  }

  /** m_bStarted, m_bStopped, m_bNeedToRewind and m_iCurBlock. */
  datatype It = It(started: bool, stopped: bool, rewind: bool, cur: nat)

  const FRESH: It := It(false, false, true, 0)

  /** The first marked sub-block from k on, or the number of sub-blocks. */
  function FirstMarked(p: Plan, k: nat): (r: nat)
    requires k <= |p.marked|
    ensures k <= r <= |p.marked|
    ensures r < |p.marked| ==> p.marked[r]
    ensures forall i :: k <= i < r ==> !p.marked[i]
    decreases |p.marked| - k
  {
    if k == |p.marked| || p.marked[k] then k else FirstMarked(p, k + 1)
  }

  lemma {:induction false} FirstMarkedIs(p: Plan, k: nat, r: nat)
    requires k <= r <= |p.marked| && (r < |p.marked| ==> p.marked[r])
    requires forall i :: k <= i < r ==> !p.marked[i]
    ensures FirstMarked(p, k) == r
  {
  }

  /** A started, unstopped iterator stands on a marked sub-block of a list. */
  ghost predicate Ok(p: Plan, s: It) {
    && Wellformed(p)
    && (!s.started ==> s == FRESH)
    && (s.started && !s.stopped ==> p.list && s.cur < |p.marked| && p.marked[s.cur])
  }

  // ---------------------------------------------------------------- the steps

  /** GetNextRowIdBlock: the sub-block returned, if any. */
  function Next(p: Plan, s: It): (r: (Option<nat>, It))
    requires Ok(p, s)
    ensures Ok(p, r.1) && r.1.started
    ensures r.0.Some? ==> r.0.value < |p.marked| && p.marked[r.0.value]
  {
    if s.stopped then (None, s)
    else if !s.started then
      if !p.list then (Some(0), It(true, true, s.rewind, s.cur))
      else
        var k := FirstMarked(p, 0);
        if k == |p.marked| then (None, It(true, true, s.rewind, s.cur))
        else (Some(k), It(true, false, s.rewind, k))
    else if s.rewind then
      var k := FirstMarked(p, s.cur + 1);
      if k == |p.marked| then (None, s.(stopped := true, cur := k))
      else (Some(k), It(true, false, true, k))
    else (Some(s.cur), s.(rewind := true))
  }

  /** The first marked sub-block from cur on that reaches r, or the number of sub-blocks. */
  function Reaching(p: Plan, cur: nat, r: nat): (k: nat)
    requires Wellformed(p) && cur < |p.marked| && p.marked[cur]
    ensures cur <= k <= |p.marked|
    ensures k < |p.marked| ==> p.marked[k] && r <= p.hi[k]
    ensures forall i :: cur <= i < k && p.marked[i] ==> p.hi[i] < r
    decreases |p.marked| - cur
  {
    if r <= p.hi[cur] then cur
    else
      var next := FirstMarked(p, cur + 1);
      if next == |p.marked| then next else Reaching(p, next, r)
  }

  /** HintRowID. */
  function Hint(p: Plan, s: It, r: nat): (res: (bool, It))
    requires Ok(p, s)
    ensures Ok(p, res.1)
  {
    if !s.started then (true, s)
    else if s.stopped then (false, s)
    else if r <= p.lo[0] then (true, s)
    else if r > p.hi[|p.hi| - 1] then (false, s.(stopped := true))
    else
      var k := Reaching(p, s.cur, r);
      if k == |p.marked| then (false, s.(stopped := true, cur := k))
      else (true, It(true, false, if k != s.cur then false else s.rewind, k))
  }

  // ---------------------------------------------------------------- runs

  datatype Op = HintOp(rowid: nat) | NextOp

  datatype Outcome = Hinted(ok: bool) | Block(k: nat) | End

  function Step(p: Plan, s: It, op: Op): (r: (Outcome, It))
    requires Ok(p, s)
    ensures Ok(p, r.1)
  {
    match op
    case HintOp(rowid) => var (ok, s') := Hint(p, s, rowid); (Hinted(ok), s')
    case NextOp =>
      var (k, s') := Next(p, s);
      (if k.Some? then Block(k.value) else End, s')
  }

  /** The state after a run of operations from a fresh iterator. */
  function After(p: Plan, ops: seq<Op>): (s: It)
    requires Wellformed(p)
    ensures Ok(p, s)
  {
    if ops == [] then FRESH else Step(p, After(p, ops[..|ops| - 1]), ops[|ops| - 1]).1
  }

  /** The outcome of operation i of a run. */
  function OutcomeAt(p: Plan, ops: seq<Op>, i: nat): Outcome
    requires Wellformed(p) && i < |ops|
  {
    Step(p, After(p, ops[..i]), ops[i]).0
  }

  /** The sub-blocks returned during a run, in order. */
  function Returned(p: Plan, ops: seq<Op>): seq<nat>
    requires Wellformed(p)
  {
    if ops == [] then []
    else
      var n := |ops| - 1;
      var out := OutcomeAt(p, ops, n);
      Returned(p, ops[..n]) + (if out.Block? then [out.k] else [])
  }

  /** Hints never go back. */
  ghost predicate HintsAscend(ops: seq<Op>) {
    forall i, j :: 0 <= i < j < |ops| && ops[i].HintOp? && ops[j].HintOp? ==> ops[i].rowid <= ops[j].rowid
  }

  /** The rowid of the latest hint, or zero. */
  function LatestHint(ops: seq<Op>): nat {
    if ops == [] then 0
    else if ops[|ops| - 1].HintOp? then ops[|ops| - 1].rowid
    else LatestHint(ops[..|ops| - 1])
  }

  // ---------------------------------------------------------------- what a run keeps

  /** Every sub-block before this one has been returned or skipped; the marked ones from it on are still to come. */
  function Frontier(p: Plan, s: It): nat
    requires Ok(p, s)
  {
    if !s.started then 0
    else if s.stopped then |p.marked|
    else if s.rewind then s.cur + 1
    else s.cur
  }

  lemma {:induction false} NextFrontier(p: Plan, s: It)
    requires Ok(p, s)
    ensures var (k, s') := Next(p, s);
            Frontier(p, s) <= Frontier(p, s') &&
            match k
            case Some(b) =>
              Frontier(p, s) <= b < Frontier(p, s') &&
              (forall i :: Frontier(p, s) <= i < Frontier(p, s') && p.marked[i] ==> i == b)
            case None =>
              forall i :: Frontier(p, s) <= i < |p.marked| ==> !p.marked[i]
  {
  }

  lemma {:induction false} HintFrontier(p: Plan, s: It, r: nat)
    requires Ok(p, s)
    ensures var (ok, s') := Hint(p, s, r);
            Frontier(p, s) <= Frontier(p, s') &&
            (forall i :: Frontier(p, s) <= i < Frontier(p, s') && p.marked[i] ==> p.hi[i] < r) &&
            (!ok ==> Frontier(p, s') == |p.marked|)
  {
  }

  /**
    A hint before the first read is ignored, and one after the end refused. In between it is accepted exactly when some
    marked sub-block from the current one on reaches it; what comes then reaches it too.
   */
  lemma {:induction false} HintExact(p: Plan, s: It, r: nat)
    requires Ok(p, s)
    ensures var (ok, s') := Hint(p, s, r);
            && (!s.started ==> ok && s' == s)
            && (s.stopped ==> !ok && s' == s)
            && (s.started && !s.stopped ==>
                  (ok <==> exists k :: s.cur <= k < |p.marked| && p.marked[k] && r <= p.hi[k]) && s'.started &&
                  (ok <==> !s'.stopped) && (ok ==> forall k :: Frontier(p, s') <= k < |p.marked| ==> r <= p.hi[k]))
  {
    if s.started && !s.stopped && p.lo[0] < r <= p.hi[|p.hi| - 1] {
      var k := Reaching(p, s.cur, r);
    } else if s.started && !s.stopped {
      assert p.hi[0] <= p.hi[s.cur] <= p.hi[|p.hi| - 1];
    }
  }

  /** What has been returned lies before the frontier and is strictly ascending. */
  lemma {:induction false} ReturnedAscends(p: Plan, ops: seq<Op>)
    requires Wellformed(p)
    ensures forall i :: 0 <= i < |Returned(p, ops)| ==>
              Returned(p, ops)[i] < Frontier(p, After(p, ops)) <= |p.marked| && p.marked[Returned(p, ops)[i]]
    ensures forall i, j :: 0 <= i < j < |Returned(p, ops)| ==> Returned(p, ops)[i] < Returned(p, ops)[j]
  {
    if ops != [] {
      var n := |ops| - 1;
      ReturnedAscends(p, ops[..n]);
      var s := After(p, ops[..n]);
      assert ops[..n + 1] == ops;
      match ops[n] {
        case HintOp(r) => HintFrontier(p, s, r);
        case NextOp => NextFrontier(p, s);
      }
    }
  }

  lemma {:induction false} LatestHintGrows(ops: seq<Op>)
    requires ops != [] && HintsAscend(ops)
    ensures HintsAscend(ops[..|ops| - 1]) && LatestHint(ops[..|ops| - 1]) <= LatestHint(ops)
  {
    var front := ops[..|ops| - 1];
    if ops[|ops| - 1].HintOp? {
      LatestHintIsHint(front);
    }
  }

  lemma {:induction false} LatestHintIsHint(ops: seq<Op>)
    ensures LatestHint(ops) == 0 || exists i :: 0 <= i < |ops| && ops[i] == HintOp(LatestHint(ops))
  {
    if ops != [] && ops[|ops| - 1].NextOp? {
      LatestHintIsHint(ops[..|ops| - 1]);
    }
  }

  /** A marked sub-block before the frontier that still reaches the latest hint has been returned. */
  lemma {:induction false} NothingLost(p: Plan, ops: seq<Op>, k: nat)
    requires Wellformed(p) && HintsAscend(ops)
    requires k < |p.marked| && p.marked[k] && LatestHint(ops) <= p.hi[k]
    requires k < Frontier(p, After(p, ops))
    ensures k in Returned(p, ops)
  {
    if ops != [] {
      var n := |ops| - 1;
      var s := After(p, ops[..n]);
      LatestHintGrows(ops);
      assert ops[..n + 1] == ops;
      if k < Frontier(p, s) {
        NothingLost(p, ops[..n], k);
      } else {
        match ops[n] {
          case HintOp(r) => HintFrontier(p, s, r);
          case NextOp => NextFrontier(p, s);
        }
      }
    }
  }

  // ---------------------------------------------------------------- main results

  /**
    Any interleaving of hints and reads: no sub-block is returned twice and they come in ascending order.
    Once a read ends or a hint is refused, every marked sub-block that reaches the latest hint has been
    returned.
   */
  lemma {:induction false} ProtocolSafe(p: Plan, ops: seq<Op>, i: nat, k: nat)
    requires Wellformed(p) && HintsAscend(ops) && i < |ops|
    requires OutcomeAt(p, ops, i).End? || OutcomeAt(p, ops, i) == Hinted(false)
    requires k < |p.marked| && p.marked[k] && LatestHint(ops[..i + 1]) <= p.hi[k]
    ensures k in Returned(p, ops[..i + 1])
  {
    var run := ops[..i + 1];
    var s := After(p, ops[..i]);
    assert run[..i] == ops[..i] && run[i] == ops[i];
    assert HintsAscend(run);
    match ops[i] {
      case HintOp(r) => HintFrontier(p, s, r);
      case NextOp => NextFrontier(p, s);
    }
    if k < Frontier(p, After(p, run)) {
      NothingLost(p, run, k);
    }
  }

  /** While the iterator has not ended, a marked sub-block that reaches the latest hint is returned or still to come. */
  lemma {:induction false} ProtocolPending(p: Plan, ops: seq<Op>, k: nat)
    requires Wellformed(p) && HintsAscend(ops)
    requires k < |p.marked| && p.marked[k] && LatestHint(ops) <= p.hi[k]
    ensures k in Returned(p, ops) || Frontier(p, After(p, ops)) <= k
  {
    if k < Frontier(p, After(p, ops)) {
      NothingLost(p, ops, k);
    }
  }

  lemma {:induction false} GoesForward(p: Plan, ops: seq<Op>, i: nat)
    requires Wellformed(p) && i <= |ops|
    ensures var s, t := After(p, ops[..i]), After(p, ops);
            Frontier(p, s) <= Frontier(p, t) && (s.started ==> t.started) && (s.stopped ==> t.stopped)
    decreases |ops|
  {
    if i == |ops| {
      assert ops[..i] == ops;
    } else {
      var n := |ops| - 1;
      GoesForward(p, ops[..n], i);
      assert ops[..n][..i] == ops[..i];
      var s := After(p, ops[..n]);
      match ops[n] {
        case HintOp(r) =>
          HintFrontier(p, s, r);
          HintExact(p, s, r);
        case NextOp => NextFrontier(p, s);
      }
    }
  }

  /**
    Hints are obeyed for the rest of a run: after the first read, once a hint has been accepted only sub-blocks that
    reach it are returned, and once one has been refused nothing more is.
   */
  lemma {:induction false} HintsObeyed(p: Plan, ops: seq<Op>, i: nat, j: nat)
    requires Wellformed(p) && i < j < |ops| && ops[i].HintOp? && After(p, ops[..i]).started
    ensures OutcomeAt(p, ops, j).Block? ==>
              OutcomeAt(p, ops, i) == Hinted(true) && ops[i].rowid <= p.hi[OutcomeAt(p, ops, j).k]
  {
    var s, t := After(p, ops[..i]), After(p, ops[..j]);
    HintExact(p, s, ops[i].rowid);
    var past := ops[..i + 1];
    assert past[..i] == ops[..i] && ops[..j][..i + 1] == past;
    GoesForward(p, ops[..j], i + 1);
    if ops[j].NextOp? {
      NextFrontier(p, t);
    }
  }

  // ---------------------------------------------------------------- reading everything

  function Reads(n: nat): (ops: seq<Op>)
    ensures |ops| == n
  {
    if n == 0 then [] else Reads(n - 1) + [NextOp]
  }

  function Indices(n: nat): (r: seq<nat>)
    ensures |r| == n && forall i :: 0 <= i < n ==> r[i] == i
  {
    if n == 0 then [] else Indices(n - 1) + [n - 1]
  }

  /** The state after n reads when every sub-block is marked. */
  ghost function ReadState(p: Plan, n: nat): It
    requires Wellformed(p) && n <= |p.marked|
  {
    if n == 0 then FRESH else if p.list then It(true, false, true, n - 1) else It(true, true, true, 0)
  }

  lemma {:induction false} ReadNext(p: Plan, n: nat)
    requires Wellformed(p) && n < |p.marked|
    requires forall k :: 0 <= k < |p.marked| ==> p.marked[k]
    ensures Ok(p, ReadState(p, n)) && Next(p, ReadState(p, n)) == (Some(n), ReadState(p, n + 1))
  {
    assert FirstMarked(p, n) == n;
  }

  /** Without bounds, reading n + 1 times returns each of the n sub-blocks in turn and then ends. */
  lemma {:induction false} ReadingAll(p: Plan, n: nat)
    requires Wellformed(p) && n <= |p.marked|
    requires forall k :: 0 <= k < |p.marked| ==> p.marked[k]
    ensures After(p, Reads(n)) == ReadState(p, n)
    ensures Returned(p, Reads(n)) == Indices(n)
    ensures n == |p.marked| ==> Next(p, After(p, Reads(n))).0 == None
  {
    if n > 0 {
      ReadingAll(p, n - 1);
      ReadNext(p, n - 1);
      hide Next, Wellformed, ReadState;
      assert Reads(n)[..n - 1] == Reads(n - 1) && Reads(n)[n - 1] == NextOp;
      assert OutcomeAt(p, Reads(n), n - 1) == Block(n - 1);
      if n == |p.marked| {
        ReadingEnds(p);
      }
    }
  }

  lemma {:induction false} ReadingEnds(p: Plan)
    requires Wellformed(p)
    ensures Ok(p, ReadState(p, |p.marked|)) || !p.marked[|p.marked| - 1]
    ensures p.marked[|p.marked| - 1] ==> Next(p, ReadState(p, |p.marked|)).0 == None
  {
  }
}
