/** The morsel dispenser of the parallel table scan: row groups cut into slices of at most
    one vector, handed out by a shared counter. */
module Morsels {
  import opened Common
  import opened Rows

  datatype Morsel = Morsel(group: nat, offset: nat, count: nat)

  function Min(a: nat, b: nat): nat { if a < b then a else b }

  /** The slices of one row group from an offset on. */
  function Split(group: nat, offset: nat, rows: nat): seq<Morsel>
    decreases rows - offset
  {
    if offset >= rows then []
    else
      var count := Min(STANDARD_VECTOR_SIZE, rows - offset);
      [Morsel(group, offset, count)] + Split(group, offset + count, rows)
  }

  /** The slices of the row groups from g on. */
  function Layout(counts: seq<nat>, g: nat): seq<Morsel>
    requires g <= |counts|
    decreases |counts| - g
  {
    if g == |counts| then [] else Split(g, 0, counts[g]) + Layout(counts, g + 1)
  }

  class ParallelTableScanState {
    var morsels: seq<Morsel>
    var next: nat

    constructor (counts: seq<nat>)
      ensures morsels == Layout(counts, 0) && next == 0
    {
      morsels, next := [], 0;
      new;
      Initialize(counts);
    }

    method Initialize(counts: seq<nat>)
      modifies this
      ensures morsels == Layout(counts, 0) && next == 0
    {
      morsels := [];
      var g := 0;
      while g < |counts|
        invariant 0 <= g <= |counts|
        invariant morsels + Layout(counts, g) == Layout(counts, 0)
      {
        ghost var before, split, rest := morsels, Split(g, 0, counts[g]), Layout(counts, g + 1);
        assert before + (split + rest) == (before + split) + rest;
        var offset := 0;
        while offset < counts[g]
          invariant 0 <= offset <= counts[g]
          invariant morsels + Split(g, offset, counts[g]) == before + split
        {
          var count := Min(STANDARD_VECTOR_SIZE, counts[g] - offset);
          ghost var later := Split(g, offset + count, counts[g]);
          assert morsels + ([Morsel(g, offset, count)] + later) == (morsels + [Morsel(g, offset, count)]) + later;
          morsels := morsels + [Morsel(g, offset, count)];
          offset := offset + count;
        }
        assert morsels + [] == morsels;
        g := g + 1;
      }
      next := 0;
    }

    /** One atomic fetch_add: it advances even when nothing is left. */
    method NextMorsel() returns (morsel: Morsel, more: bool)
      modifies this`next
      ensures next == old(next) + 1
      ensures more <==> old(next) < |morsels|
      ensures more ==> morsel == morsels[old(next)]
    {
      var index := next;
      next := next + 1;
      if index >= |morsels| {
        return Morsel(0, 0, 0), false;
      }
      return morsels[index], true;
    }
  }

  predicate Covers(m: Morsel, group: nat, row: nat) {
    m.group == group && m.offset <= row < m.offset + m.count
  }

  /** How many of the morsels contain the row. */
  ghost function Coverings(ms: seq<Morsel>, group: nat, row: nat): nat {
    if ms == [] then 0 else (if Covers(ms[0], group, row) then 1 else 0) + Coverings(ms[1..], group, row)
  }

  lemma {:induction false} CoveringsAppend(a: seq<Morsel>, b: seq<Morsel>, group: nat, row: nat)
    ensures Coverings(a + b, group, row) == Coverings(a, group, row) + Coverings(b, group, row)
  {
    if a == [] {
      assert a + b == b;
    } else {
      assert (a + b)[0] == a[0] && (a + b)[1..] == a[1..] + b;
      CoveringsAppend(a[1..], b, group, row);
    }
  }

  lemma {:induction false} SplitCovers(g: nat, offset: nat, rows: nat, group: nat, row: nat)
    ensures Coverings(Split(g, offset, rows), group, row) == if group == g && offset <= row < rows then 1 else 0
    ensures forall m :: m in Split(g, offset, rows) ==> 1 <= m.count <= STANDARD_VECTOR_SIZE
    decreases rows - offset
  {
    if offset >= rows {
    } else {
      SplitCovers(g, offset + Min(STANDARD_VECTOR_SIZE, rows - offset), rows, group, row);
    }
  }

  /** Every row of every row group lies in exactly one morsel, nothing else lies in any, and
      a morsel has 1 to 2048 rows. */
  lemma {:induction false} ExactlyOnce(counts: seq<nat>, g: nat, group: nat, row: nat)
    requires g <= |counts|
    ensures Coverings(Layout(counts, g), group, row) == if g <= group < |counts| && row < counts[group] then 1 else 0
    ensures forall m :: m in Layout(counts, g) ==> 1 <= m.count <= STANDARD_VECTOR_SIZE
    decreases |counts| - g
  {
    if g == |counts| {
    } else {
      SplitCovers(g, 0, counts[g], group, row);
      ExactlyOnce(counts, g + 1, group, row);
      CoveringsAppend(Split(g, 0, counts[g]), Layout(counts, g + 1), group, row);
    }
  }

  lemma {:induction false} SplitIsFull(g: nat, offset: nat, rows: nat, m: Morsel)
    requires m in Split(g, offset, rows)
    ensures m.group == g && (m.count == STANDARD_VECTOR_SIZE || m.offset + m.count == rows)
    decreases rows - offset
  {
    var count := Min(STANDARD_VECTOR_SIZE, rows - offset);
    if m != Morsel(g, offset, count) {
      SplitIsFull(g, offset + count, rows, m);
    }
  }

  /** A morsel is as large as a vector unless it is the last of its row group. */
  lemma {:induction false} MorselsAreFull(counts: seq<nat>, g: nat, m: Morsel)
    requires g <= |counts| && m in Layout(counts, g)
    ensures g <= m.group < |counts| && (m.count == STANDARD_VECTOR_SIZE || m.offset + m.count == counts[m.group])
    decreases |counts| - g
  {
    if m in Split(g, 0, counts[g]) {
      SplitIsFull(g, 0, counts[g], m);
    } else {
      MorselsAreFull(counts, g + 1, m);
    }
  }

  // ----- any number of calls by any threads

  /** One call: who made it, and the morsel it was given, if any. */
  datatype Call = Call(thread: nat, given: Option<Morsel>)

  /** The calls that 'threads' make, one after the other in this order. */
  method CallInTurn(state: ParallelTableScanState, threads: seq<nat>) returns (calls: seq<Call>)
    requires state.next == 0
    modifies state`next
    ensures state.next == |threads| && |calls| == |threads|
    ensures forall i :: 0 <= i < |calls| ==> calls[i] == Call(threads[i], GivenAt(state.morsels, i))
  {
    calls := [];
    var i := 0;
    while i < |threads|
      invariant 0 <= i == state.next == |calls| <= |threads|
      invariant forall k :: 0 <= k < i ==> calls[k] == Call(threads[k], GivenAt(state.morsels, k))
    {
      var morsel, more := state.NextMorsel();
      calls := calls + [Call(threads[i], if more then Some(morsel) else None)];
      i := i + 1;
    }
  }

  /** From the call on that finds no morsel, no call does. */
  function GivenAt(morsels: seq<Morsel>, i: nat): Option<Morsel> {
    if i < |morsels| then Some(morsels[i]) else None
  }

  /** The outcome of k calls in whatever order the threads make them. */
  ghost predicate Served(morsels: seq<Morsel>, calls: seq<Call>) {
    forall i :: 0 <= i < |calls| ==> calls[i].given == GivenAt(morsels, i)
  }

  /** The morsels that one thread was given. */
  function Share(calls: seq<Call>, thread: nat): seq<Morsel> {
    if calls == [] then []
    else
      var n := |calls| - 1;
      Share(calls[..n], thread) +
      if calls[n].thread == thread && calls[n].given.Some? then [calls[n].given.value] else []
  }

  /** How often the first 'threads' threads together were given a row. */
  ghost function GivenTimes(calls: seq<Call>, threads: nat, group: nat, row: nat): nat {
    if threads == 0 then 0
    else GivenTimes(calls, threads - 1, group, row) + Coverings(Share(calls, threads - 1), group, row)
  }

  lemma {:induction false} GivenTimesSnoc(calls: seq<Call>, threads: nat, group: nat, row: nat)
    requires calls != []
    ensures var n := |calls| - 1;
      GivenTimes(calls, threads, group, row) == GivenTimes(calls[..n], threads, group, row) +
        if calls[n].thread < threads && calls[n].given.Some? && Covers(calls[n].given.value, group, row) then 1 else 0
  {
    var n := |calls| - 1;
    if threads == 0 {
    } else {
      GivenTimesSnoc(calls, threads - 1, group, row);
      var share := Share(calls[..n], threads - 1);
      if calls[n].thread == threads - 1 && calls[n].given.Some? {
        var m := calls[n].given.value;
        CoveringsAppend(share, [m], group, row);
        assert [m][1..] == [] && Coverings([m], group, row) == if Covers(m, group, row) then 1 else 0;
      } else {
        assert share + [] == share;
      }
    }
  }

  lemma {:induction false} SharesAddUp(morsels: seq<Morsel>, calls: seq<Call>, threads: nat, group: nat, row: nat)
    requires Served(morsels, calls) && forall i :: 0 <= i < |calls| ==> calls[i].thread < threads
    ensures GivenTimes(calls, threads, group, row) ==
            Coverings(if |calls| <= |morsels| then morsels[..|calls|] else morsels, group, row)
  {
    if calls == [] {
      NothingGiven(threads, group, row);
    } else {
      var n := |calls| - 1;
      SharesAddUp(morsels, calls[..n], threads, group, row);
      GivenTimesSnoc(calls, threads, group, row);
      if n < |morsels| {
        assert morsels[..n + 1] == morsels[..n] + [morsels[n]] && [morsels[n]][1..] == [];
        CoveringsAppend(morsels[..n], [morsels[n]], group, row);
      } else {
        assert morsels[..|morsels|] == morsels;
      }
    }
  }

  lemma {:induction false} NothingGiven(threads: nat, group: nat, row: nat)
    ensures GivenTimes([], threads, group, row) == 0
  {
    if threads == 0 {
    } else {
      NothingGiven(threads - 1, group, row);
    }
  }

  /** Whoever calls and in whatever order: once there have been as many calls as morsels, the
      threads together have been given every row of the table exactly once, and no later call
      is given anything. Before that they have been given no row twice. */
  lemma ThreadsShareTheTable(counts: seq<nat>, calls: seq<Call>, threads: nat, group: nat, row: nat)
    requires Served(Layout(counts, 0), calls) && forall i :: 0 <= i < |calls| ==> calls[i].thread < threads
    ensures GivenTimes(calls, threads, group, row) <= 1
    ensures |calls| >= |Layout(counts, 0)| ==>
      GivenTimes(calls, threads, group, row) == if group < |counts| && row < counts[group] then 1 else 0
    ensures forall i :: |Layout(counts, 0)| <= i < |calls| ==> calls[i].given == None
  {
    var morsels := Layout(counts, 0);
    ExactlyOnce(counts, 0, group, row);
    SharesAddUp(morsels, calls, threads, group, row);
    if |calls| < |morsels| {
      assert morsels == morsels[..|calls|] + morsels[|calls|..];
      CoveringsAppend(morsels[..|calls|], morsels[|calls|..], group, row);
    } else {
      assert morsels[..|morsels|] == morsels;
    }
  }

  // ----- what the morsels read

  /** The rows of a morsel. */
  function Slice<Row(!new)>(groups: seq<seq<Row>>, m: Morsel): seq<Row> {
    if m.group < |groups| && m.offset + m.count <= |groups[m.group]|
    then groups[m.group][m.offset..m.offset + m.count] else []
  }

  function Read<Row(!new)>(groups: seq<seq<Row>>): Morsel -> seq<Row> {
    m => Slice(groups, m)
  }

  function Counts<Row(!new)>(groups: seq<seq<Row>>): seq<nat> {
    seq(|groups|, i requires 0 <= i < |groups| => |groups[i]|)
  }

  lemma {:induction false} SplitInBounds(g: nat, offset: nat, rows: nat)
    ensures forall m :: m in Split(g, offset, rows) ==> m.group == g && m.count >= 1 && m.offset + m.count <= rows
    decreases rows - offset
  {
    if offset >= rows {
    } else {
      SplitInBounds(g, offset + Min(STANDARD_VECTOR_SIZE, rows - offset), rows);
    }
  }

  /** No morsel is empty, and none reaches beyond its row group. */
  lemma {:induction false} LayoutInBounds<Row(!new)>(groups: seq<seq<Row>>, g: nat)
    requires g <= |groups|
    ensures forall m :: m in Layout(Counts(groups), g) ==> Slice(groups, m) != []
    decreases |groups| - g
  {
    if g == |groups| {
    } else {
      SplitInBounds(g, 0, |groups[g]|);
      LayoutInBounds(groups, g + 1);
    }
  }

  lemma {:induction false} SplitReadsGroup<Row(!new)>(groups: seq<seq<Row>>, g: nat, offset: nat)
    requires g < |groups| && offset <= |groups[g]|
    ensures FlatMap(Read(groups), Split(g, offset, |groups[g]|)) == groups[g][offset..]
    decreases |groups[g]| - offset
  {
    if offset >= |groups[g]| {
    } else {
      var count := Min(STANDARD_VECTOR_SIZE, |groups[g]| - offset);
      SplitReadsGroup(groups, g, offset + count);
      assert groups[g][offset..] == groups[g][offset..offset + count] + groups[g][offset + count..];
    }
  }

  /** Read in dispensing order, the morsels give the table row by row. */
  lemma {:induction false} MorselsReadTable<Row(!new)>(groups: seq<seq<Row>>, g: nat)
    requires g <= |groups|
    ensures FlatMap(Read(groups), Layout(Counts(groups), g)) == Concat(groups[g..])
    decreases |groups| - g
  {
    if g == |groups| {
    } else {
      SplitReadsGroup(groups, g, 0);
      MorselsReadTable(groups, g + 1);
      FlatMapAppend(Read(groups), Split(g, 0, |groups[g]|), Layout(Counts(groups), g + 1));
      assert groups[g..][1..] == groups[g + 1..];
    }
  }
}
