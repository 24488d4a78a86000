/** The operators of a pipeline as they run: only a join has more to emit than one chunk, and
    it stops when its output chunk is full. */
module Machines {
  import opened Drain
  import opened Operators
  import opened Restarts
  import opened Rows

  /** What a join emits, call by call. A full chunk is followed by another one, even if nothing
      is left for it. */
  function Cut<Row>(capacity: nat, rows: seq<Row>): (chunks: seq<seq<Row>>)
    requires capacity >= 1
    ensures |chunks| >= 1
    decreases |rows|
  {
    if |rows| < capacity then [rows] else [rows[..capacity]] + Cut(capacity, rows[capacity..])
  }

  function Emitted<V>(capacity: nat, o: RowOperator<V>, rows: seq<seq<V>>): (chunks: seq<seq<seq<V>>>)
    requires capacity >= 1
    ensures |chunks| >= 1
  {
    if o.Joining? then Cut(capacity, rows) else [rows]
  }

  function Machine<V(!new)>(capacity: nat, o: RowOperator<V>): Kernel<seq<V>>
    requires capacity >= 1
  {
    Kernel(c => Emitted(capacity, o, FlatMap(RowsOf(o), c)))
  }

  function MachinesOf<V(!new)>(capacity: nat, os: seq<RowOperator<V>>): (ops: seq<Kernel<seq<V>>>)
    requires capacity >= 1
    ensures |ops| == |os|
  {
    seq(|os|, i requires 0 <= i < |os| => Machine(capacity, os[i]))
  }

  lemma {:induction false} CutIsWhole<Row(!new)>(capacity: nat, rows: seq<Row>)
    requires capacity >= 1
    ensures Concat(Cut(capacity, rows)) == rows && FullButLast(Cut(capacity, rows))
    decreases |rows|
  {
    if |rows| < capacity {
      ConcatOne(rows);
    } else {
      CutIsWhole(capacity, rows[capacity..]);
      assert Cut(capacity, rows)[1..] == Cut(capacity, rows[capacity..]);
    }
  }

  /** A full chunk and a rest. */
  lemma CutInTwo<Row(!new)>(capacity: nat, a: seq<Row>, b: seq<Row>)
    requires |a| == capacity >= 1 && |b| < capacity
    ensures Cut(capacity, a + b) == [a, b]
  {
    assert (a + b)[..capacity] == a && (a + b)[capacity..] == b;
  }

  lemma EmittedIsWhole<V(!new)>(capacity: nat, o: RowOperator<V>, rows: seq<seq<V>>)
    requires capacity >= 1
    ensures Concat(Emitted(capacity, o, rows)) == rows && FullButLast(Emitted(capacity, o, rows))
    ensures o.Joining? || |Emitted(capacity, o, rows)| == 1
  {
    if o.Joining? {
      CutIsWhole(capacity, rows);
    } else {
      ConcatOne(rows);
    }
  }

  lemma MachineRealizes<V(!new)>(capacity: nat, o: RowOperator<V>)
    requires capacity >= 1
    ensures Realizes(Machine(capacity, o), o)
  {
    hide Emitted, Concat, FlatMap, FullButLast;
    forall c
      ensures var outs := Machine(capacity, o).outputs(c);
        Concat(outs) == FlatMap(RowsOf(o), c) && FullButLast(outs) && (o.Joining? || |outs| == 1)
    {
      EmittedIsWhole(capacity, o, FlatMap(RowsOf(o), c));
    }
  }

  /** They compute the rows of the operators, whatever the capacity. */
  lemma MachinesCompute<V(!new)>(capacity: nat, os: seq<RowOperator<V>>)
    requires capacity >= 1
    ensures Computes(MachinesOf(capacity, os), os)
  {
    forall i | 0 <= i < |os| ensures Realizes(MachinesOf(capacity, os)[i], os[i]) {
      MachineRealizes(capacity, os[i]);
    }
    assert Proper(MachinesOf(capacity, os));
  }

  lemma MachinesAreProper<V(!new)>(capacity: nat, os: seq<RowOperator<V>>)
    requires capacity >= 1
    ensures Proper(MachinesOf(capacity, os))
  {
    MachinesCompute(capacity, os);
  }

  /** A filter or a projection on copies of one row. */
  lemma StreamOfCopies<V(!new)>(capacity: nat, o: RowOperator<V>, n: nat, x: seq<V>)
    requires capacity >= 1 && !o.Joining?
    ensures |ResultsOn(o, x)| == 1 ==> Machine(capacity, o).outputs(Copies(n, x)) == [Copies(n, ResultsOn(o, x)[0])]
    ensures ResultsOn(o, x) == [] ==> Machine(capacity, o).outputs(Copies(n, x)) == [[]]
  {
    FlatMapCopies(RowsOf(o), n, x);
  }

  lemma StreamOfTwo<V(!new)>(capacity: nat, o: RowOperator<V>, x: seq<V>, y: seq<V>)
    requires capacity >= 1 && !o.Joining?
    ensures Machine(capacity, o).outputs([x, y]) == [ResultsOn(o, x) + ResultsOn(o, y)]
  {
    FlatMapTwo(RowsOf(o), x, y);
  }

  /** The rows a join makes of one row that finds n copies of a build row. */
  lemma MatchesOfCopies<V(!new)>(o: RowOperator<V>, x: seq<V>, n: nat, build: seq<V>)
    requires o.Joining? && |x| >= o.width && o.matches(x[..o.width]) == Copies(n, build)
    ensures ResultsOn(o, x) == Copies(n, x + build)
  {
    FlatMapCopies(Behind(x), n, build);
  }

  /** What a join emits when its rows fit into one chunk. */
  lemma JoinInOne<V(!new)>(capacity: nat, o: RowOperator<V>, c: seq<seq<V>>, a: seq<seq<V>>)
    requires o.Joining? && |a| < capacity && FlatMap(RowsOf(o), c) == a
    ensures Machine(capacity, o).outputs(c) == [a]
  {
  }

  /** What a join emits when its rows fill one chunk and part of another. */
  lemma JoinInTwo<V(!new)>(capacity: nat, o: RowOperator<V>, c: seq<seq<V>>, a: seq<seq<V>>, b: seq<seq<V>>)
    requires o.Joining? && |a| == capacity >= 1 && |b| < capacity && FlatMap(RowsOf(o), c) == a + b
    ensures Machine(capacity, o).outputs(c) == [a, b]
  {
    CutInTwo(capacity, a, b);
  }

  lemma JoinInThree<V(!new)>(capacity: nat, o: RowOperator<V>, c: seq<seq<V>>, a: seq<seq<V>>, b: seq<seq<V>>, d: seq<seq<V>>)
    requires o.Joining? && |a| == |b| == capacity >= 1 && |d| < capacity && FlatMap(RowsOf(o), c) == a + (b + d)
    ensures Machine(capacity, o).outputs(c) == [a, b, d]
  {
    CutInTwo(capacity, b, d);
    assert (a + (b + d))[..capacity] == a && (a + (b + d))[capacity..] == b + d;
    assert Cut(capacity, a + (b + d)) == [a] + [b, d];
  }
}
