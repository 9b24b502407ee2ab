/**
  Building the secondary index of one column (secondary/builder.cpp): pairs of value and rowid are sorted
  in runs that fit into memory, the runs are merged, and the merged pairs are grouped into blocks.
 */
module IndexBuilder {
  import opened ByteCodec
  import opened Orders
  import opened RowLists
  import opened RowGroups
  import W = RowWriter

  /** A value of the column and a row it occurs in. */
  datatype Entry = Entry(value: int, rowid: u32)

  /** RawValueCmp: by value, then by rowid. */
  predicate Leq(a: Entry, b: Entry) {
    a.value < b.value || (a.value == b.value && a.rowid <= b.rowid)
  }

  ghost predicate Sorted(s: seq<Entry>) {
    forall i, j :: 0 <= i <= j < |s| ==> Leq(s[i], s[j])
  }

  /** Values that fit the column: signed or unsigned 64-bit. */
  predicate InRange(signed: bool, v: int) {
    if signed then -0x8000_0000_0000_0000 <= v < 0x8000_0000_0000_0000 else 0 <= v < 0x1_0000_0000_0000_0000
  }

  ghost predicate AllInRange(signed: bool, s: seq<Entry>) {
    forall i :: 0 <= i < |s| ==> InRange(signed, s[i].value)
  }

  /** Values that fit a 64-bit column of either kind. */
  predicate Storable(v: int) {
    -0x8000_0000_0000_0000 <= v < 0x1_0000_0000_0000_0000
  }

  /** The stored form of a value: its 64-bit pattern. */
  function Raw(v: int): u64
    requires Storable(v)
  {
    if v < 0 then v + 0x1_0000_0000_0000_0000 else v
  }

  lemma {:induction false} ViewRaw(signed: bool, v: int)
    requires InRange(signed, v)
    ensures Storable(v) && W.View(signed, Raw(v)) == v
  {
  }

  // ---------------------------------------------------------------- sorted runs

  /** The order of a run is total. */
  lemma {:induction false} LeqIsTotal()
    ensures Total(Leq)
  {
  }

  lemma {:induction false} SortedByLeq(s: seq<Entry>)
    requires SortedBy(s, Leq)
    ensures Sorted(s)
  {
  }

  /** RawWriter_T: collects pairs and writes them out as sorted runs. */
  lemma {:induction false} SameNumber<T>(s: seq<T>, t: seq<T>)
    requires multiset(s) == multiset(t)
    ensures |s| == |t|
  {
    assert |s| == |multiset(s)| == |multiset(t)|;
  }

  lemma {:induction false} OneRunMore(runs: seq<seq<Entry>>, run: seq<Entry>)
    requires GoodRuns(runs) && GoodRuns([run])
    ensures GoodRuns(runs + [run]) && (runs + [run])[..|runs|] == runs
  {
  }

  class RawWriter {
    var dRows: seq<Entry>
    var runs: seq<seq<Entry>>     // the runs in the temporary file
    ghost var added: seq<Entry>

    ghost predicate Valid()
      reads this
    {
      GoodRuns(runs) && multiset(added) == AllOf(runs) + multiset(dRows)
    }

    constructor ()
      ensures Valid() && added == []
    {
      dRows, runs, added := [], [], [];
    }

    method SetAttr(rowid: u32, value: int)
      requires Valid()
      modifies this
      ensures Valid() && added == old(added) + [Entry(value, rowid)]
      ensures dRows == old(dRows) + [Entry(value, rowid)] && runs == old(runs)
    {
      hide AllOf, GoodRuns;
      dRows := dRows + [Entry(value, rowid)];
      added := added + [Entry(value, rowid)];
    }

    method Flush()
      requires Valid()
      modifies this
      ensures Valid() && dRows == [] && added == old(added)
      ensures old(dRows) == [] ==> runs == old(runs)
      ensures old(dRows) != [] ==>
                |runs| == |old(runs)| + 1 && runs[..|old(runs)|] == old(runs) &&
                multiset(runs[|old(runs)|]) == multiset(old(dRows))
    {
      if |dRows| == 0 {
        return;
      }
      LeqIsTotal();
      var sorted := LibrarySort(dRows, Leq);
      SortedByLeq(sorted);
      RunAdded(runs, sorted);
      SameNumber(sorted, dRows);
      hide *;
      OneRunMore(runs, sorted);
      runs := runs + [sorted];
      dRows := [];
    }
  }

  ghost predicate GoodRuns(runs: seq<seq<Entry>>) {
    forall i :: 0 <= i < |runs| ==> runs[i] != [] && Sorted(runs[i])
  }

  /** All pairs of all runs. */
  ghost function AllOf(runs: seq<seq<Entry>>): multiset<Entry> {
    if runs == [] then multiset{} else AllOf(runs[..|runs| - 1]) + multiset(runs[|runs| - 1])
  }

  lemma {:induction false} RunAdded(runs: seq<seq<Entry>>, run: seq<Entry>)
    ensures AllOf(runs + [run]) == AllOf(runs) + multiset(run)
  {
    assert (runs + [run])[..|runs|] == runs;
  }

  // ---------------------------------------------------------------- grouping

  /** The pairs a group stands for. */
  function GroupEntries(signed: bool, g: Group): (r: seq<Entry>)
    ensures |r| == |g.rows| && forall i :: 0 <= i < |r| ==> r[i] == Entry(W.View(signed, g.value), g.rows[i])
  {
    seq(|g.rows|, i requires 0 <= i < |g.rows| => Entry(W.View(signed, g.value), g.rows[i]))
  }

  function Entries(signed: bool, gs: seq<Group>): seq<Entry> {
    if gs == [] then [] else Entries(signed, gs[..|gs| - 1]) + GroupEntries(signed, gs[|gs| - 1])
  }

  /** The blocks written and the groups collected after a sequence of pairs. */
  function Feed(s: seq<Entry>): (r: (seq<seq<Group>>, seq<Group>))
    requires forall i :: 0 <= i < |s| ==> Storable(s[i].value)
    ensures s != [] ==> r.1 != [] && r.1[|r.1| - 1].value == Raw(s[|s| - 1].value)
  {
    if s == [] then ([], [])
    else
      var x := s[|s| - 1];
      if |s| == 1 then ([], [Group(Raw(x.value), [x.rowid])])
      else
        var (written, gs) := Feed(s[..|s| - 1]);
        W.Push(written, gs, Raw(x.value), x.rowid)
  }

  /** What is promised of the blocks: all but the last are full, none is empty. */
  ghost predicate Blocked(blocks: seq<seq<Group>>) {
    && (forall k :: 0 <= k < |blocks| - 1 ==> |blocks[k]| == 128)
    && (blocks != [] ==> 0 < |blocks[|blocks| - 1]| <= 128)
  }

  ghost predicate AscendingValues(signed: bool, gs: seq<Group>) {
    forall i, j :: 0 <= i < j < |gs| ==> W.View(signed, gs[i].value) < W.View(signed, gs[j].value)
  }

  ghost predicate AscendingRows(gs: seq<Group>) {
    forall i :: 0 <= i < |gs| ==> gs[i].rows != [] && Nondecreasing(gs[i].rows)
  }

  lemma {:induction false} EntriesPush(signed: bool, gs: seq<Group>, g: Group)
    ensures Entries(signed, gs + [g]) == Entries(signed, gs) + GroupEntries(signed, g)
  {
    W.FrontOf(gs, g);
  }

  lemma {:induction false} EntriesConcat(signed: bool, a: seq<Group>, b: seq<Group>)
    ensures Entries(signed, a + b) == Entries(signed, a) + Entries(signed, b)
    decreases |b|
  {
    if b == [] {
      assert a + b == a;
    } else {
      var n := |b| - 1;
      EntriesConcat(signed, a, b[..n]);
      assert a + b == (a + b[..n]) + [b[n]];
      EntriesPush(signed, a + b[..n], b[n]);
      hide GroupEntries;
      assert Entries(signed, a) + (Entries(signed, b[..n]) + GroupEntries(signed, b[n])) ==
             Entries(signed, a) + Entries(signed, b[..n]) + GroupEntries(signed, b[n]);
    }
  }

  lemma {:induction false} EntriesWithRow(signed: bool, gs: seq<Group>, rowid: u32)
    requires gs != []
    ensures Entries(signed, W.WithRow(gs, rowid)) == Entries(signed, gs) +
            [Entry(W.View(signed, gs[|gs| - 1].value), rowid)]
  {
    var n := |gs| - 1;
    var last := gs[n];
    var more := Group(last.value, last.rows + [rowid]);
    EntriesPush(signed, gs[..n], more);
    assert GroupEntries(signed, more) == GroupEntries(signed, last) + [Entry(W.View(signed, last.value), rowid)];
    hide GroupEntries;
    var e, x := Entry(W.View(signed, last.value), rowid), Entries(signed, gs[..n]);
    assert x + (GroupEntries(signed, last) + [e]) == x + GroupEntries(signed, last) + [e];
  }

  /** Everything written and collected, in order. */
  function Whole(r: (seq<seq<Group>>, seq<Group>)): seq<Group> {
    AllGroups(r.0) + r.1
  }

  lemma {:induction false} WholePush(written: seq<seq<Group>>, gs: seq<Group>, value: u64, rowid: u32)
    requires gs != []
    ensures Whole(W.Push(written, gs, value, rowid)) ==
              if gs[|gs| - 1].value == value then W.WithRow(Whole((written, gs)), rowid)
              else Whole((written, gs)) + [Group(value, [rowid])]
  {
    var all := AllGroups(written);
    if gs[|gs| - 1].value == value {
      assert (all + gs)[..|all + gs| - 1] == all + gs[..|gs| - 1];
    } else if |gs| == 128 {
      W.FrontOf(written, gs);
    }
  }

  /** Grouping keeps every pair, in order. */
  lemma {:induction false} FeedKeepsEntries(signed: bool, s: seq<Entry>)
    requires AllInRange(signed, s)
    ensures Entries(signed, Whole(Feed(s))) == s
    decreases |s|
  {
    hide *;
    if s == [] {
      NothingFed(signed);
    } else {
      var n := |s| - 1;
      RangeFront(signed, s);
      if n == 0 {
        OneFed(signed, s[n]);
        assert s == [s[n]];
      } else {
        FeedKeepsEntries(signed, s[..n]);
        FeedStep(signed, s, Feed(s[..n]).0, Feed(s[..n]).1);
      }
    }
  }

  lemma {:induction false} NothingFed(signed: bool)
    ensures Entries(signed, Whole(Feed([]))) == []
  {
  }

  lemma {:induction false} RangeFront(signed: bool, s: seq<Entry>)
    requires AllInRange(signed, s) && s != []
    ensures AllInRange(signed, s[..|s| - 1]) && InRange(signed, s[|s| - 1].value)
    ensures forall i :: 0 <= i < |s| ==> Storable(s[i].value)
  {
  }

  lemma {:induction false} OneFed(signed: bool, x: Entry)
    requires InRange(signed, x.value)
    ensures Storable(x.value) && Whole(Feed([x])) == [Group(Raw(x.value), [x.rowid])]
    ensures Entries(signed, Whole(Feed([x]))) == [x]
  {
    ViewRaw(signed, x.value);
    EntriesPush(signed, [], Group(Raw(x.value), [x.rowid]));
    assert [] + [Group(Raw(x.value), [x.rowid])] == [Group(Raw(x.value), [x.rowid])];
  }

  lemma {:induction false} FeedStep(signed: bool, s: seq<Entry>, written: seq<seq<Group>>, gs: seq<Group>)
    requires AllInRange(signed, s) && |s| > 1 && Feed(s[..|s| - 1]) == (written, gs)
    requires Entries(signed, Whole((written, gs))) == s[..|s| - 1]
    ensures Entries(signed, Whole(Feed(s))) == s
  {
    var x := s[|s| - 1];
    ViewRaw(signed, x.value);
    var all := Whole((written, gs));
    var g := Group(Raw(x.value), [x.rowid]);
    assert all[|all| - 1] == gs[|gs| - 1] && Feed(s) == W.Push(written, gs, Raw(x.value), x.rowid);
    assert GroupEntries(signed, g) == [x] && s == s[..|s| - 1] + [x];
    hide Whole, Feed, W.Push, Raw, W.View, Entries, GroupEntries;
    WholePush(written, gs, Raw(x.value), x.rowid);
    EntriesWithRow(signed, all, x.rowid);
    EntriesPush(signed, all, g);
  }

  /** Full blocks only, until the end. */
  lemma {:induction false} FeedBlocks(s: seq<Entry>)
    requires forall i :: 0 <= i < |s| ==> Storable(s[i].value)
    ensures forall k :: 0 <= k < |Feed(s).0| ==> |Feed(s).0[k]| == 128
    ensures |Feed(s).1| <= 128
  {
    if |s| > 1 {
      FeedBlocks(s[..|s| - 1]);
    }
  }

  /** The last pair of a list of groups. */
  lemma {:induction false} LastEntry(signed: bool, gs: seq<Group>)
    requires gs != [] && gs[|gs| - 1].rows != []
    ensures var es, g := Entries(signed, gs), gs[|gs| - 1];
            es != [] && es[|es| - 1] == Entry(W.View(signed, g.value), g.rows[|g.rows| - 1])
  {
  }

  lemma {:induction false} AscendWithRow(signed: bool, gs: seq<Group>, rowid: u32)
    requires gs != [] && AscendingValues(signed, gs) && AscendingRows(gs)
    requires gs[|gs| - 1].rows[|gs[|gs| - 1].rows| - 1] <= rowid
    ensures AscendingValues(signed, W.WithRow(gs, rowid)) && AscendingRows(W.WithRow(gs, rowid))
  {
    hide W.View;
    var more := W.WithRow(gs, rowid);
    forall i | 0 <= i < |gs| ensures more[i].value == gs[i].value && more[i].rows != [] && Nondecreasing(more[i].rows) {
      assert Nondecreasing(gs[i].rows);
    }
  }

  lemma {:induction false} AscendWithGroup(signed: bool, gs: seq<Group>, g: Group)
    requires AscendingValues(signed, gs) && AscendingRows(gs) && |g.rows| == 1
    requires gs != [] ==> W.View(signed, gs[|gs| - 1].value) < W.View(signed, g.value)
    ensures AscendingValues(signed, gs + [g]) && AscendingRows(gs + [g])
  {
    hide W.View;
  }

  /** Sorted pairs give strictly ascending values, each with its rowids in nondecreasing order. */
  lemma {:induction false} FeedAscends(signed: bool, s: seq<Entry>)
    requires AllInRange(signed, s) && Sorted(s)
    ensures AscendingValues(signed, Whole(Feed(s))) && AscendingRows(Whole(Feed(s)))
  {
    if s == [] {
    } else {
      var n := |s| - 1;
      var x := s[n];
      ViewRaw(signed, x.value);
      FeedAscends(signed, s[..n]);
      FeedKeepsEntries(signed, s[..n]);
      var (written, gs) := Feed(s[..n]);
      var all := Whole((written, gs));
      var g := Group(Raw(x.value), [x.rowid]);
      if n == 0 {
        AscendWithGroup(signed, [], g);
        OneFed(signed, x);
        assert [] + [g] == [g] && s == [x];
      } else {
        AscendStep(signed, s, written, gs);
      }
    }
  }

  lemma {:induction false} AscendStep(signed: bool, s: seq<Entry>, written: seq<seq<Group>>, gs: seq<Group>)
    requires AllInRange(signed, s) && Sorted(s) && |s| > 1 && Feed(s[..|s| - 1]) == (written, gs)
    requires AscendingValues(signed, Whole((written, gs))) && AscendingRows(Whole((written, gs)))
    requires Entries(signed, Whole((written, gs))) == s[..|s| - 1]
    ensures AscendingValues(signed, Whole(Feed(s))) && AscendingRows(Whole(Feed(s)))
  {
    var x, y := s[|s| - 1], s[|s| - 2];
    ViewRaw(signed, x.value);
    ViewRaw(signed, y.value);
    var all := Whole((written, gs));
    assert all[|all| - 1] == gs[|gs| - 1] && Feed(s) == W.Push(written, gs, Raw(x.value), x.rowid);
    assert Leq(y, x) && s[..|s| - 1][|s| - 2] == y;
    assert gs[|gs| - 1].value == Raw(y.value);
    hide Whole, Feed, W.Push, Entries, GroupEntries, Sorted, AllInRange, Raw, W.View, InRange, Nondecreasing,
         AscendingValues;
    assert all[|all| - 1].rows != [];
    hide AscendingRows;
    LastEntry(signed, all);
    WholePush(written, gs, Raw(x.value), x.rowid);
    if gs[|gs| - 1].value == Raw(x.value) {
      AscendWithRow(signed, all, x.rowid);
    } else {
      AscendWithGroup(signed, all, Group(Raw(x.value), [x.rowid]));
    }
  }

  // ---------------------------------------------------------------- merging the runs

  /** A reader of a run: the pair it is at and those it has yet to read. */
  datatype Bin = Bin(cur: Entry, rest: seq<Entry>)

  ghost predicate GoodBins(signed: bool, bins: seq<Bin>) {
    forall i :: 0 <= i < |bins| ==> Sorted([bins[i].cur] + bins[i].rest) && AllInRange(signed,
        [bins[i].cur] + bins[i].rest)
  }

  ghost function Left(bins: seq<Bin>): multiset<Entry> {
    if bins == [] then multiset{}
    else Left(bins[..|bins| - 1]) + multiset{bins[|bins| - 1].cur} + multiset(bins[|bins| - 1].rest)
  }

  /** No bin is at a smaller pair: what the top of the priority queue may be. */
  predicate IsTop(bins: seq<Bin>, i: nat) {
    i < |bins| && forall j :: 0 <= j < |bins| ==> Leq(bins[i].cur, bins[j].cur)
  }

  lemma {:induction false} TopExists(bins: seq<Bin>) returns (i: nat)
    requires bins != []
    ensures IsTop(bins, i)
  {
    var n := |bins| - 1;
    if n == 0 {
      i := 0;
    } else {
      i := TopExists(bins[..n]);
      assert bins[..n][i] == bins[i];
      assert forall j :: 0 <= j < n ==> bins[..n][j] == bins[j];
      if !Leq(bins[i].cur, bins[n].cur) {
        i := n;
      }
    }
  }

  lemma {:induction false} LeftRemove(bins: seq<Bin>, i: nat)
    requires i < |bins|
    ensures Left(bins) == Left(bins[..i] + bins[i + 1..]) + multiset{bins[i].cur} + multiset(bins[i].rest)
    decreases |bins|
  {
    var n := |bins| - 1;
    RemoveFront(bins, i);
    FrontAndLast(bins);
    hide Left;
    LeftPush(bins[..n], bins[n]);
    if i < n {
      LeftRemove(bins[..n], i);
      var front := bins[..n][..i] + bins[..n][i + 1..];
      LeftPush(front, bins[n]);
      Shuffle(Left(front), multiset{bins[i].cur}, multiset(bins[i].rest), multiset{bins[n].cur},
          multiset(bins[n].rest));
    }
  }

  lemma {:induction false} FrontAndLast<T>(s: seq<T>)
    requires s != []
    ensures s[..|s| - 1] + [s[|s| - 1]] == s
  {
  }

  lemma {:induction false} RemoveFront<T>(s: seq<T>, i: nat)
    requires i < |s|
    ensures var n := |s| - 1;
            s[..i] + s[i + 1..] == if i == n then s[..n] else s[..n][..i] + s[..n][i + 1..] + [s[n]]
  {
  }

  lemma {:induction false} Shuffle<T>(a: multiset<T>, b: multiset<T>, c: multiset<T>, d: multiset<T>, e: multiset<T>)
    ensures a + b + c + d + e == a + d + e + b + c
  {
  }

  lemma {:induction false} Associate<T>(a: multiset<T>, b: multiset<T>, c: multiset<T>)
    ensures a + (b + c) == a + b + c && a + b + c == a + c + b && b + a + c == a + b + c
  {
  }

  lemma {:induction false} LeftPush(bins: seq<Bin>, bin: Bin)
    ensures Left(bins + [bin]) == Left(bins) + multiset{bin.cur} + multiset(bin.rest)
  {
    W.FrontOf(bins, bin);
  }

  /** One step of the merge: takes the smallest pair a reader is at, and lets that reader go on. */
  method Advance(signed: bool, bins: seq<Bin>) returns (cur: Entry, next: seq<Bin>)
    requires bins != [] && GoodBins(signed, bins)
    ensures exists i: nat :: IsTop(bins, i) && bins[i].cur == cur
    ensures GoodBins(signed, next) && InRange(signed, cur.value)
    ensures forall j :: 0 <= j < |next| ==> Leq(cur, next[j].cur)
    ensures Left(bins) == multiset{cur} + Left(next)
  {
    ghost var top := TopExists(bins);
    var i: nat :| i < |bins| && IsTop(bins, i);
    var bin := bins[i];
    cur := bin.cur;
    next := bins[..i] + bins[i + 1..];
    if bin.rest != [] {
      next := next + [Bin(bin.rest[0], bin.rest[1..])];
    }
    assert next == Onward(bins, i);
    hide *;
    TopRemoved(signed, bins, i);
    TopLeft(signed, bins, i);
  }

  /** The readers after the one at position i has gone on. */
  function Onward(bins: seq<Bin>, i: nat): seq<Bin>
    requires i < |bins|
  {
    bins[..i] + bins[i + 1..] + (if bins[i].rest == [] then [] else [Bin(bins[i].rest[0], bins[i].rest[1..])])
  }

  lemma {:induction false} TopLeft(signed: bool, bins: seq<Bin>, i: nat)
    requires i < |bins|
    ensures Left(bins) == multiset{bins[i].cur} + Left(Onward(bins, i))
  {
    hide Left;
    var bin, others := bins[i], bins[..i] + bins[i + 1..];
    LeftRemove(bins, i);
    Associate(multiset{bin.cur}, Left(others), multiset(bin.rest));
    if bin.rest != [] {
      HeadTail(bin.rest);
      var more := Bin(bin.rest[0], bin.rest[1..]);
      LeftPush(others, more);
      Associate(Left(others), multiset{more.cur}, multiset(more.rest));
    } else {
      assert others + [] == others;
    }
  }

  lemma {:induction false} TopRemoved(signed: bool, bins: seq<Bin>, i: nat)
    requires GoodBins(signed, bins) && IsTop(bins, i)
    ensures InRange(signed, bins[i].cur.value) && GoodBins(signed, Onward(bins, i))
    ensures forall j :: 0 <= j < |Onward(bins, i)| ==> Leq(bins[i].cur, Onward(bins, i)[j].cur)
  {
    var bin, others := bins[i], bins[..i] + bins[i + 1..];
    assert Sorted([bin.cur] + bin.rest) && AllInRange(signed, [bin.cur] + bin.rest);
    hide GoodBins, Sorted, AllInRange, InRange, Leq;
    OthersGood(signed, bins, i);
    assert forall j :: 0 <= j < |others| ==> others[j] == if j < i then bins[j] else bins[j + 1];
    if bin.rest != [] {
      var more := Bin(bin.rest[0], bin.rest[1..]);
      ReadNext(signed, bin);
      GoodPush(signed, others, more);
    } else {
      assert others + [] == others;
    }
  }

  lemma {:induction false} OthersGood(signed: bool, bins: seq<Bin>, i: nat)
    requires i < |bins| && GoodBins(signed, bins)
    ensures GoodBins(signed, bins[..i] + bins[i + 1..]) && InRange(signed, bins[i].cur.value)
  {
    var others := bins[..i] + bins[i + 1..];
    assert ([bins[i].cur] + bins[i].rest)[0] == bins[i].cur;
    hide Sorted, InRange;
    forall j | 0 <= j < |others|
      ensures Sorted([others[j].cur] + others[j].rest) && AllInRange(signed, [others[j].cur] + others[j].rest)
    {
      assert others[j] == if j < i then bins[j] else bins[j + 1];
    }
  }

  lemma {:induction false} GoodPush(signed: bool, bins: seq<Bin>, bin: Bin)
    requires GoodBins(signed, bins) && Sorted([bin.cur] + bin.rest) && AllInRange(signed, [bin.cur] + bin.rest)
    ensures GoodBins(signed, bins + [bin])
  {
    hide Sorted, AllInRange;
  }

  /** Reading on in a run keeps it sorted, and the pair read is not smaller. */
  lemma {:induction false} ReadNext(signed: bool, bin: Bin)
    requires bin.rest != [] && Sorted([bin.cur] + bin.rest) && AllInRange(signed, [bin.cur] + bin.rest)
    ensures [bin.rest[0]] + bin.rest[1..] == bin.rest
    ensures Sorted(bin.rest) && AllInRange(signed, bin.rest) && Leq(bin.cur, bin.rest[0])
    ensures multiset(bin.rest) == multiset{bin.rest[0]} + multiset(bin.rest[1..])
  {
    var s := [bin.cur] + bin.rest;
    assert s[1..] == bin.rest && s[0] == bin.cur && s[1] == bin.rest[0];
    assert forall i :: 0 <= i < |bin.rest| ==> bin.rest[i] == s[i + 1];
  }

  /** What has been merged so far, in sorted order, is not above what is left. */
  ghost predicate Merged(signed: bool, fed: seq<Entry>, bins: seq<Bin>, total: multiset<Entry>) {
    && Sorted(fed) && AllInRange(signed, fed) && GoodBins(signed, bins)
    && multiset(fed) + Left(bins) == total
    && (fed != [] ==> forall j :: 0 <= j < |bins| ==> Leq(fed[|fed| - 1], bins[j].cur))
  }

  lemma {:induction false} MergeStep(signed: bool, fed: seq<Entry>, bins: seq<Bin>, total: multiset<Entry>, cur: Entry,
                                     next: seq<Bin>)
    requires Merged(signed, fed, bins, total)
    requires exists i: nat :: IsTop(bins, i) && bins[i].cur == cur
    requires GoodBins(signed, next) && InRange(signed, cur.value)
    requires forall j :: 0 <= j < |next| ==> Leq(cur, next[j].cur)
    requires Left(bins) == multiset{cur} + Left(next)
    ensures Merged(signed, fed + [cur], next, total)
    ensures |fed| < |total| && |Left(next)| < |Left(bins)|
  {
    var i: nat :| IsTop(bins, i) && bins[i].cur == cur;
    hide GoodBins, Left, InRange, IsTop;
    assert |multiset(fed)| == |fed|;
    assert fed != [] ==> Leq(fed[|fed| - 1], cur);
    AppendSorted(signed, fed, cur);
    hide Sorted, AllInRange, Leq;
    assert multiset(fed + [cur]) == multiset(fed) + multiset{cur};
    Associate(multiset(fed), multiset{cur}, Left(next));
  }

  lemma {:induction false} AppendSorted(signed: bool, s: seq<Entry>, x: Entry)
    requires Sorted(s) && AllInRange(signed, s) && InRange(signed, x.value) && (s != [] ==> Leq(s[|s| - 1], x))
    ensures Sorted(s + [x]) && AllInRange(signed, s + [x])
  {
    hide InRange;
    forall i | 0 <= i < |s| ensures Leq(s[i], x) {
      assert Leq(s[i], s[|s| - 1]);
    }
  }

  lemma {:induction false} MergeEnds(signed: bool, fed: seq<Entry>, total: multiset<Entry>)
    requires Merged(signed, fed, [], total)
    ensures Sorted(fed) && AllInRange(signed, fed) && multiset(fed) == total
  {
  }

  lemma {:induction false} HeadTail<T>(s: seq<T>)
    requires s != []
    ensures [s[0]] + s[1..] == s && multiset(s) == multiset{s[0]} + multiset(s[1..])
  {
  }

  /** Each run is opened at its first pair. */
  method OpenRuns(signed: bool, runs: seq<seq<Entry>>) returns (bins: seq<Bin>)
    requires GoodRuns(runs) && forall i :: 0 <= i < |runs| ==> AllInRange(signed, runs[i])
    ensures GoodBins(signed, bins) && Left(bins) == AllOf(runs)
  {
    bins := [];
    var i := 0;
    while i < |runs|
      invariant 0 <= i <= |runs|
      invariant GoodBins(signed, bins) && Left(bins) == AllOf(runs[..i])
    {
      var bin := Bin(runs[i][0], runs[i][1..]);
      HeadTail(runs[i]);
      assert runs[..i + 1] == runs[..i] + [runs[i]];
      hide Left, AllOf, GoodBins, Sorted, AllInRange;
      Associate(AllOf(runs[..i]), multiset{bin.cur}, multiset(bin.rest));
      LeftPush(bins, bin);
      RunAdded(runs[..i], runs[i]);
      GoodPush(signed, bins, bin);
      bins := bins + [bin];
      i := i + 1;
    }
    assert runs[..i] == runs;
  }

  // ---------------------------------------------------------------- the whole build

  /** What the index of a column holds: every pair once, values ascending, full blocks. */
  ghost predicate Indexed(signed: bool, blocks: seq<seq<Group>>, total: multiset<Entry>) {
    && multiset(Entries(signed, AllGroups(blocks))) == total
    && AscendingValues(signed, AllGroups(blocks)) && AscendingRows(AllGroups(blocks))
    && Blocked(blocks)
  }

  /** The writer has got to where the merged pairs lead. */
  ghost predicate FedTo(fed: seq<Entry>, written: seq<seq<Group>>, gs: seq<Group>) {
    (forall i :: 0 <= i < |fed| ==> Storable(fed[i].value)) && Feed(fed) == (written, gs)
  }

  lemma {:induction false} MergeStarts(signed: bool, bins: seq<Bin>, total: multiset<Entry>)
    requires GoodBins(signed, bins) && Left(bins) == total
    ensures Merged(signed, [], bins, total) && FedTo([], [], [])
  {
  }

  lemma {:induction false} FeedFirst(signed: bool, cur: Entry)
    requires InRange(signed, cur.value)
    ensures Storable(cur.value)
    ensures FedTo([] + [cur], [], [] + [Group(Raw(cur.value), [cur.rowid])])
  {
    assert [] + [cur] == [cur] && [] + [Group(Raw(cur.value), [cur.rowid])] == [Group(Raw(cur.value), [cur.rowid])];
  }

  lemma {:induction false} FeedNext(signed: bool, fed: seq<Entry>, cur: Entry, written: seq<seq<Group>>, gs: seq<Group>)
    requires InRange(signed, cur.value) && fed != [] && FedTo(fed, written, gs)
    ensures Storable(cur.value) && gs != []
    ensures var r := W.Push(written, gs, Raw(cur.value), cur.rowid); FedTo(fed + [cur], r.0, r.1)
  {
    W.FrontOf(fed, cur);
    hide W.Push;
  }

  lemma {:induction false} FedIsIndexed(signed: bool, fed: seq<Entry>, total: multiset<Entry>, written: seq<seq<Group>>,
                                        gs: seq<Group>)
    requires Sorted(fed) && AllInRange(signed, fed) && multiset(fed) == total && FedTo(fed, written, gs)
    ensures Indexed(signed, if gs == [] then written else written + [gs], total)
  {
    hide *;
    FeedKeepsEntries(signed, fed);
    FeedAscends(signed, fed);
    FedFacts(fed, written, gs);
    FeedBlocks(fed);
    W.FrontOf(written, gs);
    WholeIndexed(signed, total, written, gs);
  }

  lemma {:induction false} FedFacts(fed: seq<Entry>, written: seq<seq<Group>>, gs: seq<Group>)
    requires FedTo(fed, written, gs)
    ensures (forall i :: 0 <= i < |fed| ==> Storable(fed[i].value)) && Feed(fed) == (written, gs)
  {
    hide Feed, Storable;
  }

  /** What was written and what is still to be flushed make an index. */
  lemma {:induction false} WholeIndexed(signed: bool, total: multiset<Entry>, written: seq<seq<Group>>, gs: seq<Group>)
    requires multiset(Entries(signed, Whole((written, gs)))) == total
    requires AscendingValues(signed, Whole((written, gs))) && AscendingRows(Whole((written, gs)))
    requires (forall k :: 0 <= k < |written| ==> |written[k]| == 128) && |gs| <= 128
    ensures Indexed(signed, if gs == [] then written else written + [gs], total)
  {
    hide Entries, AscendingValues, AscendingRows;
    W.FrontOf(written, gs);
    assert AllGroups(if gs == [] then written else written + [gs]) == Whole((written, gs));
  }

  /**
    Process: merges the runs into the index. Pairs that share a block are counted in 32 bits, so all of
    them together must be fewer than 2 to the power 32.
   */
  method Process(codec: Codec, signed: bool, dst: seq<u8>, runs: seq<seq<Entry>>) returns (w: W.RowWriter)
    requires codec.Lawful() && GoodRuns(runs) && (forall i :: 0 <= i < |runs| ==> AllInRange(signed, runs[i]))
    requires |AllOf(runs)| < 0x1_0000_0000
    ensures w.Valid() && w.groups == [] && w.codec == codec && w.signed == signed && w.prior == dst
    ensures Indexed(signed, w.written, AllOf(runs))
  {
    hide *;
    var bins := OpenRuns(signed, runs);
    w := new W.RowWriter(codec, signed, dst);
    ghost var fed: seq<Entry> := [];
    ghost var total := AllOf(runs);
    MergeStarts(signed, bins, total);
    if |bins| > 0 {
      var cur, next := Advance(signed, bins);
      MergeStep(signed, fed, bins, total, cur, next);
      FeedFirst(signed, cur);
      w.AddValue(Raw(cur.value), cur.rowid);
      fed, bins := fed + [cur], next;
      assert fed == [cur];
    }
    while |bins| > 0
      invariant GoodBins(signed, bins) && Merged(signed, fed, bins, total) && (fed == [] ==> bins == []) &&
                total == AllOf(runs)
      invariant w.Valid() && fresh(w) && |w.dRows| <= |fed|
      invariant w.codec == codec && w.signed == signed && w.prior == dst
      invariant FedTo(fed, w.written, w.groups)
      decreases |Left(bins)|
    {
      var cur, next := Advance(signed, bins);
      MergeStep(signed, fed, bins, total, cur, next);
      FeedNext(signed, fed, cur, w.written, w.groups);
      w.NextValue(Raw(cur.value), cur.rowid);
      fed, bins := fed + [cur], next;
    }
    MergeEnds(signed, fed, total);
    FedIsIndexed(signed, fed, total, w.written, w.groups);
    w.FlushBlock();
  }
}
