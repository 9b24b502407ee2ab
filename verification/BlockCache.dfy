/**
  The lock-free block cache of the secondary index (secondary/blockreader.cpp, BlockCache_T), as a
  state machine over the atomic operations of its threads.

  A thread that adds a block performs four atomic steps: load the slot, load the total size, swap its
  copy into the slot if the slot is still empty, and add the size of the copy to the total. Any number
  of threads may be anywhere in this sequence. ClearAll is not part of the machine.
 */
module BlockCache {

  datatype Option<+T> = None | Some(value: T)

  /** A decoded block: the slot it was read for, its content, and the bytes it takes. */
  datatype Entry = Entry(slot: nat, content: seq<int>, size: nat)

  /** Where a thread is inside AddData or AddValues. */
  datatype Thread =
    | Idle
    | Called(slot: nat, entry: Entry)     // about to load the slot
    | SawEmpty(slot: nat, entry: Entry)   // the slot was empty; about to load the total size
    | Admitted(slot: nat, entry: Entry)   // the size was below the maximum; about to compare and swap
    | Installed(size: nat)                // the swap succeeded; about to add the size

  datatype State = State(slots: seq<Option<Entry>>, size: nat, threads: seq<Thread>, maxSize: nat)

  datatype Event =
    | Call(thread: nat, slot: nat, entry: Entry)  // an idle thread calls AddData or AddValues
    | Tick(thread: nat)                           // a busy thread performs its next atomic operation

  ghost predicate Init(s: State) {
    && (forall i :: 0 <= i < |s.slots| ==> s.slots[i].None?)
    && s.size == 0
    && (forall t :: 0 <= t < |s.threads| ==> s.threads[t].Idle?)
  }

  /** Readers only add a block under the slot it was read for. */
  predicate Legal(s: State, e: Event) {
    && e.thread < |s.threads|
    && match e
       case Call(t, slot, entry) => s.threads[t].Idle? && slot < |s.slots| && entry.slot == slot
       case Tick(t) => !s.threads[t].Idle?
  }

  function SetThread(s: State, t: nat, th: Thread): State
    requires t < |s.threads|
  {
    s.(threads := s.threads[t := th])
  }

  function Tock(s: State, t: nat): State
    requires t < |s.threads|
    requires Slots(s)
  {
    match s.threads[t]
    case Idle => s
    case Called(slot, entry) =>
      if s.slots[slot].Some? then SetThread(s, t, Idle) else SetThread(s, t, SawEmpty(slot, entry))
    case SawEmpty(slot, entry) =>
      if s.maxSize != 0 && s.size >= s.maxSize then SetThread(s, t, Idle)
      else SetThread(s, t, Admitted(slot, entry))
    case Admitted(slot, entry) =>
      if s.slots[slot].Some? then SetThread(s, t, Idle)
      else SetThread(s.(slots := s.slots[slot := Some(entry)]), t, Installed(entry.size))
    case Installed(size) =>
      SetThread(s.(size := s.size + size), t, Idle)
  }

  /** Every thread works on a slot of the cache, with a block read for that slot. */
  ghost predicate ThreadOk(s: State, th: Thread) {
    match th
    case Idle => true
    case Installed(_) => true
    case Called(slot, entry) => slot < |s.slots| && entry.slot == slot
    case SawEmpty(slot, entry) => slot < |s.slots| && entry.slot == slot
    case Admitted(slot, entry) => slot < |s.slots| && entry.slot == slot
  }

  ghost predicate Slots(s: State) {
    forall t :: 0 <= t < |s.threads| ==> ThreadOk(s, s.threads[t])
  }

  ghost function Exec(s: State, e: Event): (s': State)
    requires Slots(s) && Legal(s, e)
    ensures Slots(s') && |s'.slots| == |s.slots| && |s'.threads| == |s.threads| && s'.maxSize == s.maxSize
  {
    match e
    case Call(t, slot, entry) => SetThread(s, t, Called(slot, entry))
    case Tick(t) => Tock(s, t)
  }

  /** States reached one after the other by legal events. */
  ghost predicate Run(states: seq<State>, events: seq<Event>) {
    && |states| == |events| + 1
    && Init(states[0])
    && (forall i :: 0 <= i < |events| ==>
          Slots(states[i]) && Legal(states[i], events[i]) && states[i + 1] == Exec(states[i], events[i]))
  }

  // ---------------------------------------------------------------- sizes

  function Weight(o: Option<Entry>): nat {
    if o.Some? then o.value.size else 0
  }

  /** The bytes held by the filled slots. */
  ghost function TotalInstalled(slots: seq<Option<Entry>>): nat {
    if slots == [] then 0 else TotalInstalled(slots[..|slots| - 1]) + Weight(slots[|slots| - 1])
  }

  /** What a thread has put into the cache but not yet added to the total. */
  function Debt(th: Thread): nat {
    if th.Installed? then th.size else 0
  }

  ghost function TotalDebt(threads: seq<Thread>): nat {
    if threads == [] then 0 else TotalDebt(threads[..|threads| - 1]) + Debt(threads[|threads| - 1])
  }

  /** What a thread may still add: its debt, or a whole block of at most b bytes once it is admitted. */
  function Claim(th: Thread, b: nat): nat {
    if th.Admitted? then b else Debt(th)
  }

  ghost function TotalClaim(threads: seq<Thread>, b: nat): nat {
    if threads == [] then 0 else TotalClaim(threads[..|threads| - 1], b) + Claim(threads[|threads| - 1], b)
  }

  lemma {:induction false} TotalInstalledUpdate(slots: seq<Option<Entry>>, i: nat, o: Option<Entry>)
    requires i < |slots|
    ensures TotalInstalled(slots[i := o]) == TotalInstalled(slots) - Weight(slots[i]) + Weight(o)
  {
    var n := |slots| - 1;
    if i == n {
      assert slots[i := o][..n] == slots[..n];
    } else {
      TotalInstalledUpdate(slots[..n], i, o);
      assert slots[i := o][..n] == slots[..n][i := o];
    }
  }

  lemma {:induction false} TotalDebtUpdate(threads: seq<Thread>, t: nat, th: Thread)
    requires t < |threads|
    ensures TotalDebt(threads[t := th]) == TotalDebt(threads) - Debt(threads[t]) + Debt(th)
  {
    var n := |threads| - 1;
    if t == n {
      assert threads[t := th][..n] == threads[..n];
    } else {
      TotalDebtUpdate(threads[..n], t, th);
      assert threads[t := th][..n] == threads[..n][t := th];
    }
  }

  lemma {:induction false} TotalClaimUpdate(threads: seq<Thread>, t: nat, th: Thread, b: nat)
    requires t < |threads|
    ensures TotalClaim(threads[t := th], b) == TotalClaim(threads, b) - Claim(threads[t], b) + Claim(th, b)
  {
    var n := |threads| - 1;
    if t == n {
      assert threads[t := th][..n] == threads[..n];
    } else {
      TotalClaimUpdate(threads[..n], t, th, b);
      assert threads[t := th][..n] == threads[..n][t := th];
    }
  }

  lemma {:induction false} TotalClaimBound(threads: seq<Thread>, b: nat)
    requires forall t :: 0 <= t < |threads| ==> Claim(threads[t], b) <= b
    ensures TotalDebt(threads) <= TotalClaim(threads, b) <= |threads| * b
  {
    if threads != [] {
      var n := |threads| - 1;
      TotalClaimBound(threads[..n], b);
      assert Claim(threads[n], b) <= b;
      assert (n + 1) * b == n * b + b;
    }
  }

  // ---------------------------------------------------------------- what every step keeps

  /** Every filled slot holds a block that was read for it. */
  ghost predicate Owned(s: State) {
    forall i :: 0 <= i < |s.slots| && s.slots[i].Some? ==> s.slots[i].value.slot == i
  }

  /** The recorded size and the sizes not yet recorded add up to what the slots hold. */
  ghost predicate Accounted(s: State) {
    s.size + TotalDebt(s.threads) == TotalInstalled(s.slots)
  }

  /** No block in the cache or on its way into it is larger than b. */
  ghost predicate BlocksWithin(s: State, b: nat) {
    forall t :: 0 <= t < |s.threads| ==>
      match s.threads[t]
      case Idle => true
      case Installed(size) => size <= b
      case Called(_, entry) => entry.size <= b
      case SawEmpty(_, entry) => entry.size <= b
      case Admitted(_, entry) => entry.size <= b
  }

  /** Recorded size, debts and admissions together stay below the maximum plus one block per thread. */
  ghost predicate Bounded(s: State, b: nat) {
    s.maxSize > 0 ==> s.size + TotalClaim(s.threads, b) < s.maxSize + |s.threads| * b
  }

  lemma {:induction false} StepKeepsAccount(s: State, e: Event)
    requires Slots(s) && Legal(s, e) && Owned(s) && Accounted(s)
    ensures Owned(Exec(s, e)) && Accounted(Exec(s, e))
  {
    var s' := Exec(s, e);
    var t := e.thread;
    TotalDebtUpdate(s.threads, t, s'.threads[t]);
    if e.Tick? && s.threads[t].Admitted? {
      TotalInstalledUpdate(s.slots, s.threads[t].slot, Some(s.threads[t].entry));
    }
  }

  /** A filled slot is never emptied or overwritten. */
  lemma {:induction false} StepKeepsSlots(s: State, e: Event, i: nat)
    requires Slots(s) && Legal(s, e) && i < |s.slots| && s.slots[i].Some?
    ensures Exec(s, e).slots[i] == s.slots[i]
  {
  }

  lemma {:induction false} StepKeepsBound(s: State, e: Event, b: nat)
    requires Slots(s) && Legal(s, e) && BlocksWithin(s, b) && Bounded(s, b)
    requires e.Call? ==> e.entry.size <= b
    ensures BlocksWithin(Exec(s, e), b) && Bounded(Exec(s, e), b)
  {
    var s' := Exec(s, e);
    var t := e.thread;
    TotalClaimUpdate(s.threads, t, s'.threads[t], b);
    if e.Tick? && s.threads[t].SawEmpty? {
      // an admission: every other thread claims at most one block, and the recorded size was below the maximum
      TotalClaimBound(s'.threads, b);
    }
  }

  // ---------------------------------------------------------------- safety over whole runs

  lemma {:induction false} InitTotals(s: State, b: nat)
    requires Init(s)
    ensures TotalInstalled(s.slots) == 0 && TotalClaim(s.threads, b) == 0 && TotalDebt(s.threads) == 0
  {
    EmptySlots(s.slots);
    IdleThreads(s.threads, b);
  }

  lemma {:induction false} EmptySlots(slots: seq<Option<Entry>>)
    requires forall i :: 0 <= i < |slots| ==> slots[i].None?
    ensures TotalInstalled(slots) == 0
  {
    if slots != [] {
      EmptySlots(slots[..|slots| - 1]);
    }
  }

  lemma {:induction false} IdleThreads(threads: seq<Thread>, b: nat)
    requires forall t :: 0 <= t < |threads| ==> threads[t].Idle?
    ensures TotalClaim(threads, b) == 0 && TotalDebt(threads) == 0
  {
    if threads != [] {
      IdleThreads(threads[..|threads| - 1], b);
    }
  }

  /** In every reachable state the account balances and every filled slot holds its own block. */
  lemma {:induction false} RunAccounted(states: seq<State>, events: seq<Event>, i: nat)
    requires Run(states, events) && i < |states|
    ensures Owned(states[i]) && Accounted(states[i])
  {
    if i == 0 {
      InitTotals(states[0], 0);
    } else {
      RunAccounted(states, events, i - 1);
      StepKeepsAccount(states[i - 1], events[i - 1]);
    }
  }

  /** A slot filled at some point of a run holds the same block ever after. */
  lemma {:induction false} RunKeepsSlots(states: seq<State>, events: seq<Event>, i: nat, j: nat, slot: nat)
    requires Run(states, events) && i <= j < |states|
    requires slot < |states[i].slots| && states[i].slots[slot].Some?
    ensures slot < |states[j].slots| && states[j].slots[slot] == states[i].slots[slot]
    decreases j
  {
    if i < j {
      RunKeepsSlots(states, events, i, j - 1, slot);
      StepKeepsSlots(states[j - 1], events[j - 1], slot);
    }
  }

  lemma {:induction false} RunBounded(states: seq<State>, events: seq<Event>, b: nat, i: nat)
    requires Run(states, events) && i < |states|
    requires forall k :: 0 <= k < |events| && events[k].Call? ==> events[k].entry.size <= b
    ensures BlocksWithin(states[i], b) && Bounded(states[i], b)
    ensures states[i].maxSize == states[0].maxSize && |states[i].threads| == |states[0].threads|
  {
    if i == 0 {
      InitTotals(states[0], b);
    } else {
      RunBounded(states, events, b, i - 1);
      StepKeepsBound(states[i - 1], events[i - 1], b);
    }
  }

  /**
    With a size limit, t threads and blocks of at most b bytes, the cache never holds as much as the
    limit plus t blocks, in any interleaving.
   */
  lemma {:induction false} CacheOvershootBounded(states: seq<State>, events: seq<Event>, b: nat, i: nat)
    requires Run(states, events) && i < |states| && states[0].maxSize > 0
    requires forall k :: 0 <= k < |events| && events[k].Call? ==> events[k].entry.size <= b
    ensures TotalInstalled(states[i].slots) < states[0].maxSize + |states[0].threads| * b
  {
    RunAccounted(states, events, i);
    RunBounded(states, events, b, i);
    TotalClaimBound(states[i].threads, b);
  }

  /** Once no thread is inside the cache, the recorded size is exactly what the slots hold. */
  lemma {:induction false} QuiescentSizeExact(states: seq<State>, events: seq<Event>, i: nat)
    requires Run(states, events) && i < |states|
    requires forall t :: 0 <= t < |states[i].threads| ==> states[i].threads[t].Idle?
    ensures states[i].size == TotalInstalled(states[i].slots)
  {
    RunAccounted(states, events, i);
    IdleThreads(states[i].threads, 0);
  }

  // ---------------------------------------------------------------- blocks are kept

  /** A block is kept when its slot is empty and the recorded size is below the maximum, or there is no maximum. */
  function Added(s: State, slot: nat, entry: Entry): State
    requires slot < |s.slots|
  {
    if s.slots[slot].None? && (s.maxSize == 0 || s.size < s.maxSize)
    then s.(slots := s.slots[slot := Some(entry)], size := s.size + entry.size)
    else s
  }

  function StepsLeft(th: Thread): nat {
    match th
    case Idle => 0
    case Installed(_) => 1
    case Admitted(_, _) => 2
    case SawEmpty(_, _) => 3
    case Called(_, _) => 4
  }

  /** Thread t goes on until it leaves the cache, while no other thread moves. */
  ghost function Finish(s: State, t: nat): State
    requires Slots(s) && t < |s.threads|
    decreases StepsLeft(s.threads[t])
  {
    if s.threads[t].Idle? then s else Finish(Exec(s, Tick(t)), t)
  }

  /** A call that is not disturbed keeps its block exactly when it should, and changes nothing otherwise. */
  lemma {:induction false} AddedAlone(s: State, t: nat, slot: nat, entry: Entry)
    requires Slots(s) && Legal(s, Call(t, slot, entry))
    ensures Finish(Exec(s, Call(t, slot, entry)), t) == Added(s, slot, entry)
  {
    var called := Exec(s, Call(t, slot, entry));
    assert called.threads[t := Idle] == s.threads;
    var saw := Exec(called, Tick(t));
    if s.slots[slot].Some? {
      assert saw == s;
    } else {
      var admitted := Exec(saw, Tick(t));
      assert saw.threads[t := Idle] == s.threads;
      if s.maxSize != 0 && s.size >= s.maxSize {
        assert admitted == s;
        assert Finish(admitted, t) == s;
        assert Finish(saw, t) == s;
      } else {
        var installed := Exec(admitted, Tick(t));
        var done := Exec(installed, Tick(t));
        assert installed.threads[t := Idle] == s.threads;
        assert done == Added(s, slot, entry);
        assert Finish(done, t) == done;
        assert Finish(installed, t) == done;
        assert Finish(admitted, t) == done;
      }
    }
  }

  /** Thread t is inside the call for a slot, and has not been refused; once it has installed, the slot is filled. */
  ghost predicate Inside(s: State, t: nat, slot: nat, entry: Entry) {
    t < |s.threads| && slot < |s.slots| &&
        match s.threads[t]
        case Idle => false
        case Installed(_) => s.slots[slot].Some?
        case th => th.slot == slot && th.entry == entry
  }

  predicate Filled(s: State, slot: nat) {
    slot < |s.slots| && s.slots[slot].Some?
  }

  predicate Full(s: State) {
    s.maxSize != 0 && s.size >= s.maxSize
  }

  predicate Left(s: State, t: nat) {
    t < |s.threads| && s.threads[t].Idle?
  }

  lemma {:induction false} StaysInside(s: State, e: Event, t: nat, slot: nat, entry: Entry)
    requires Slots(s) && Legal(s, e) && Inside(s, t, slot, entry)
    ensures Inside(Exec(s, e), t, slot, entry) || Filled(Exec(s, e), slot) || Full(s)
    ensures Inside(Exec(s, e), t, slot, entry) || Left(Exec(s, e), t)
  {
  }

  lemma {:induction false} CallGoesOn(states: seq<State>, events: seq<Event>, i: nat, k: nat)
    requires Run(states, events) && i < k < |states| && events[i].Call?
    requires forall m :: i < m <= k ==> !Left(states[m], events[i].thread)
    ensures Inside(states[k], events[i].thread, events[i].slot, events[i].entry)
    decreases k
  {
    var e, last := events[i], k - 1;
    RunStep(states, events, last);
    hide Run, Slots, Left;
    if k > i + 1 {
      hide Exec, Inside, Legal;
      CallGoesOn(states, events, i, last);
      StaysInside(states[last], events[last], e.thread, e.slot, e.entry);
    }
  }

  lemma {:induction false} RunStep(states: seq<State>, events: seq<Event>, i: nat)
    requires Run(states, events) && i < |events|
    ensures Slots(states[i]) && Legal(states[i], events[i]) && states[i + 1] == Exec(states[i], events[i])
  {
    hide Slots, Legal, Exec;
  }

  /**
    In any interleaving a call leaves its slot filled, unless the recorded size was at the maximum at some moment of
    the call: it was made at event i, and state j is the first in which its thread has left the cache again.
   */
  lemma {:induction false} CallFillsSlot(states: seq<State>, events: seq<Event>, i: nat, j: nat)
    requires Run(states, events) && i < j < |states| && events[i].Call?
    requires Left(states[j], events[i].thread) && forall m :: i < m < j ==> !Left(states[m], events[i].thread)
    ensures Filled(states[j], events[i].slot) || exists m :: i < m < j && Full(states[m])
  {
    var e, last := events[i], j - 1;
    RunStep(states, events, last);
    if i < last {
      CallGoesOn(states, events, i, last);
      StaysInside(states[last], events[last], e.thread, e.slot, e.entry);
    }
  }

  // ---------------------------------------------------------------- the bound is met

  function Schedule(): seq<Event> {
    [Call(0, 0, Entry(0, [], 1)), Call(1, 1, Entry(1, [], 1)), Tick(0), Tick(1), Tick(0), Tick(1), Tick(0), Tick(1)]
  }

  /** The n-th state of the schedule from two empty slots, two idle threads and a limit of one byte. */
  ghost function After(n: nat): (s: State)
    requires n <= 8
    ensures |s.threads| == 2 && |s.slots| == 2 && s.maxSize == 1
  {
    if n == 0 then State([None, None], 0, [Idle, Idle], 1)
    else if n == 1 then State([None, None], 0, [Called(0, Entry(0, [], 1)), Idle], 1)
    else if n == 2 then State([None, None], 0, [Called(0, Entry(0, [], 1)), Called(1, Entry(1, [], 1))], 1)
    else if n == 3 then State([None, None], 0, [SawEmpty(0, Entry(0, [], 1)), Called(1, Entry(1, [], 1))], 1)
    else if n == 4 then State([None, None], 0, [SawEmpty(0, Entry(0, [], 1)), SawEmpty(1, Entry(1, [], 1))], 1)
    else if n == 5 then State([None, None], 0, [Admitted(0, Entry(0, [], 1)), SawEmpty(1, Entry(1, [], 1))], 1)
    else if n == 6 then State([None, None], 0, [Admitted(0, Entry(0, [], 1)), Admitted(1, Entry(1, [], 1))], 1)
    else if n == 7 then State([Some(Entry(0, [], 1)), None], 0, [Installed(1), Admitted(1, Entry(1, [], 1))], 1)
    else State([Some(Entry(0, [], 1)), Some(Entry(1, [], 1))], 0, [Installed(1), Installed(1)], 1)
  }

  /** The limit is soft: two threads can be admitted together, and then the bound is met exactly. */
  lemma {:induction false} LimitCanBeExceeded()
    ensures Run(seq(9, n requires 0 <= n < 9 => After(n)), Schedule())
    ensures TotalInstalled(After(8).slots) == 2 == After(0).maxSize + |After(0).threads| * 1 - 1
  {
    var states := seq(9, n requires 0 <= n < 9 => After(n));
    var events := Schedule();
    forall i | 0 <= i < |events|
      ensures Slots(states[i]) && Legal(states[i], events[i]) && states[i + 1] == Exec(states[i], events[i])
    {
    }
    assert After(8).slots[..1] == [Some(Entry(0, [], 1))];
    assert After(8).slots[..1][..0] == [];
  }
}
