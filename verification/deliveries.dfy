/** What the runs of a pipeline deliver, pass by pass, against what its operators compute: when
    the two always agree, and that otherwise some run loses rows. */
module Deliveries {
  import opened Drain
  import opened LostRows
  import opened Machines
  import opened Operators
  import opened Restarts
  import opened Rows
  import opened Workers

  ghost predicate NoneEmpty<Row(!new)>(chunks: seq<seq<Row>>) {
    forall i :: 0 <= i < |chunks| ==> chunks[i] != []
  }

  lemma WorkIsChain<Row(!new)>(ops: seq<Kernel<Row>>, fs: seq<Row -> seq<Row>>, chunks: seq<seq<Row>>)
    requires |ops| == |fs| && forall i :: 0 <= i < |ops| ==> Implements(ops[i], fs[i])
    ensures FlatMap(Work(ops), chunks) == Chain(fs, Concat(chunks))
  {
    forall c ensures Work(ops)(c) == Chain(fs, c) {
      IdealIsChain(ops, fs, 0, c);
      assert fs[0..] == fs;
    }
    FlatMapCongruence(Work(ops), c => Chain(fs, c), chunks);
    ChainOfChunks(fs, chunks);
  }

  /** A run of pass after pass that is finalized has delivered the rows of the operators. */
  ghost predicate Right<V(!new)>(p: Pipeline<seq<V>>, os: seq<RowOperator<V>>, n: nat,
                                 states: seq<State<seq<V>>>, steps: seq<Step>) {
    Run(p, n, states, steps) && states[|steps|].main.Finalized? ==>
      multiset(states[|steps|].main.rows) == multiset(Chain(RowsOfAll(os), Concat(p.chunks)))
  }

  /** No chunk of the source is empty or larger than a chunk may be. */
  ghost predicate Fit<Row(!new)>(chunks: seq<seq<Row>>, capacity: nat) {
    forall i :: 0 <= i < |chunks| ==> 0 < |chunks[i]| <= capacity
  }

  /** Whatever the filters keep, the projections compute and the joins find, and on any number
      of threads. */
  ghost predicate AlwaysRight(kinds: seq<Kind>, capacity: nat)
    requires capacity >= 1
  {
    forall p: Pipeline<seq<int>>, os, n, states, steps {:trigger Right(p, os, n, states, steps)} ::
      RunAs(p.ops, os, capacity) && KindsOf(os) == kinds && Fit(p.chunks, capacity) ==> Right(p, os, n, states, steps)
  }

  /** And however the joins cut their output. */
  lemma SafeIsRight<V(!new)>(p: Pipeline<seq<V>>, os: seq<RowOperator<V>>, n: nat, states: seq<State<seq<V>>>,
                             steps: seq<Step>)
    requires Computes(p.ops, os) && Safe(KindsOf(os)) && NoneEmpty(p.chunks)
    requires Run(p, n, states, steps) && states[|steps|].main.Finalized?
    ensures multiset(states[|steps|].main.rows) == multiset(Chain(RowsOfAll(os), Concat(p.chunks)))
    ensures n == 1 ==> states[|steps|].main.rows == Chain(RowsOfAll(os), Concat(p.chunks))
  {
    SafeRestarts(p.ops, os);
    FinalizedHasEveryRowOnce(p, n, states, steps);
    forall i | 0 <= i < |os| ensures Implements(p.ops[i], RowsOfAll(os)[i]) {
      assert Realizes(p.ops[i], os[i]);
    }
    WorkIsChain(p.ops, RowsOfAll(os), p.chunks);
  }

  // ----- a run of one worker on one chunk does what the drain loop does

  /** One worker and nothing in the sink yet. */
  function Alone<Row>(next: nat, phase: Phase<Row>, pending: Pending<Row>, local: seq<Row>): State<Row> {
    State(next, [Worker(phase, pending, local)], [], Main.Joining, [])
  }

  lemma {:induction false} PassesRun<Row(!new)>(p: Pipeline<Row>, states: seq<State<Row>>, steps: seq<Step>, chunk: seq<Row>,
                                                pending: Pending<Row>, local: seq<Row>, passes: nat)
    returns (states': seq<State<Row>>, steps': seq<Step>)
    requires Proper(p.ops) && |pending| == |p.ops| && Loop(p.ops, pending, chunk, passes).Drained?
    requires Run(p, 1, states, steps) && states[|steps|] == Alone(1, Holding(chunk), pending, local)
    ensures var r := Loop(p.ops, pending, chunk, passes);
      Run(p, 1, states', steps') && states'[|steps'|] == Alone(1, Pulling, r.pending, local + r.sunk)
    decreases passes
  {
    var r := Pass(p.ops, pending, 0, chunk);
    var t := Alone(1, if r.more then Holding(r.chunk) else Pulling, r.pending, local + r.chunk);
    OnePush(p, chunk, pending, local);
    RunGoesOn(p, 1, states, steps, Push(0), t);
    if r.more {
      states', steps' := PassesRun(p, states + [t], steps + [Push(0)], r.chunk, r.pending, local + r.chunk, passes - 1);
      Regroup(local, r.chunk, Loop(p.ops, r.pending, r.chunk, passes - 1).sunk);
    } else {
      states', steps' := states + [t], steps + [Push(0)];
    }
  }

  lemma OnePush<Row(!new)>(p: Pipeline<Row>, chunk: seq<Row>, pending: Pending<Row>, local: seq<Row>)
    requires Proper(p.ops) && |pending| == |p.ops|
    ensures var r := Pass(p.ops, pending, 0, chunk);
      Next(p, Alone(1, Holding(chunk), pending, local), Push(0),
           Alone(1, if r.more then Holding(r.chunk) else Pulling, r.pending, local + r.chunk))
  {
    var s := Alone(1, Holding(chunk), pending, local);
    assert s.workers[0 := Passed(p.ops, s.workers[0])] == [Passed(p.ops, s.workers[0])];
  }

  lemma StepsAtEnds<Row(!new)>(p: Pipeline<Row>, chunk: seq<Row>, pending: Pending<Row>, local: seq<Row>)
    requires p.chunks == [chunk] && chunk != []
    ensures Next(p, Start(p, 1), Pull(0), Alone(1, Holding(chunk), AllIdle(|p.ops|), []))
    ensures Next(p, Alone(1, Pulling, pending, local), Pull(0), Alone(2, Draining, pending, local))
    ensures var done: State<Row> := State(2, [Worker(Done, pending, [])], local, Main.Joining, []);
      && Next(p, Alone(2, Draining, pending, local), Combine(0), done) && Next(p, done, Join, done.(main := Finalized(local)))
  {
    assert Start(p, 1).workers == [Worker(Pulling, AllIdle(|p.ops|), [])];
    assert [] + local == local;
  }

  /** The worker pulls the chunk, drains it, finds the source empty and hands over. */
  lemma RunOfLoop<Row(!new)>(ops: seq<Kernel<Row>>, chunk: seq<Row>, passes: nat)
    returns (states: seq<State<Row>>, steps: seq<Step>)
    requires Proper(ops) && chunk != [] && Loop(ops, AllIdle(|ops|), chunk, passes).Drained?
    ensures Run(Pipeline([chunk], ops), 1, states, steps)
    ensures states[|steps|].main == Finalized(Loop(ops, AllIdle(|ops|), chunk, passes).sunk)
  {
    var p := Pipeline([chunk], ops);
    var r := Loop(ops, AllIdle(|ops|), chunk, passes);
    StepsAtEnds(p, chunk, r.pending, r.sunk);
    states, steps := [Start(p, 1)], [];
    var s1 := Alone(1, Holding(chunk), AllIdle(|ops|), []);
    RunGoesOn(p, 1, states, steps, Pull(0), s1);
    states, steps := PassesRun(p, states + [s1], steps + [Pull(0)], chunk, AllIdle(|ops|), [], passes);
    assert [] + r.sunk == r.sunk;
    var s2 := Alone(2, Draining, r.pending, r.sunk);
    RunGoesOn(p, 1, states, steps, Pull(0), s2);
    states, steps := states + [s2], steps + [Pull(0)];
    var s3: State<Row> := State(2, [Worker(Done, r.pending, [])], r.sunk, Main.Joining, []);
    RunGoesOn(p, 1, states, steps, Combine(0), s3);
    states, steps := states + [s3], steps + [Combine(0)];
    var s4: State<Row> := s3.(main := Finalized(r.sunk));
    RunGoesOn(p, 1, states, steps, Join, s4);
    states, steps := states + [s4], steps + [Join];
  }

  lemma AnyRunIsRight<V(!new)>(p: Pipeline<seq<V>>, os: seq<RowOperator<V>>, n: nat, states: seq<State<seq<V>>>,
                               steps: seq<Step>, capacity: nat)
    requires capacity >= 1 && RunAs(p.ops, os, capacity) && Safe(KindsOf(os)) && Fit(p.chunks, capacity)
    ensures Right(p, os, n, states, steps)
  {
    hide MachinesOf, Realizes;
    if Run(p, n, states, steps) && states[|steps|].main.Finalized? {
      SafeIsRight(p, os, n, states, steps);
    }
  }

  lemma NotAlwaysRight(p: Pipeline<seq<int>>, os: seq<RowOperator<int>>, n: nat, states: seq<State<seq<int>>>,
                       steps: seq<Step>, capacity: nat)
    requires capacity >= 1 && RunAs(p.ops, os, capacity) && Fit(p.chunks, capacity) && !Right(p, os, n, states, steps)
    ensures !AlwaysRight(KindsOf(os), capacity)
  {
  }

  /** A chunk of which the drain loop loses rows makes a wrong run. */
  lemma WrongRun<V(!new)>(ops: seq<Kernel<seq<V>>>, os: seq<RowOperator<V>>, chunk: seq<seq<V>>, capacity: nat)
    returns (states: seq<State<seq<V>>>, steps: seq<Step>)
    requires capacity >= 1 && ops == MachinesOf(capacity, os) && Loses(ops, os, chunk, 2) && |chunk| <= capacity
    ensures RunAs(ops, os, capacity) && Fit([chunk], capacity) && !Right(Pipeline([chunk], ops), os, 1, states, steps)
  {
    hide MachinesOf, Realizes;
    states, steps := RunOfLoop(ops, chunk, 2);
    ConcatOne(chunk);
    SizesTell(states[|steps|].main.rows, Chain(RowsOfAll(os), chunk));
  }

  lemma SizesTell<A>(a: seq<A>, b: seq<A>)
    ensures multiset(a) == multiset(b) ==> |a| == |b|
  {
    assert |multiset(a)| == |a| && |multiset(b)| == |b|;
  }

  lemma SafeIsAlwaysRight(kinds: seq<Kind>, capacity: nat)
    requires capacity >= 1 && Safe(kinds)
    ensures AlwaysRight(kinds, capacity)
  {
    hide RunAs, Fit, Right, Safe, KindsOf;
    forall p: Pipeline<seq<int>>, os, n, states: seq<State<seq<int>>>, steps: seq<Step>
      | RunAs(p.ops, os, capacity) && KindsOf(os) == kinds && Fit(p.chunks, capacity)
      ensures Right(p, os, n, states, steps)
    {
      AnyRunIsRight(p, os, n, states, steps, capacity);
    }
  }

  lemma UnsafeIsNotAlwaysRight(kinds: seq<Kind>, capacity: nat)
    requires capacity >= 2 && !Safe(kinds)
    ensures !AlwaysRight(kinds, capacity)
  {
    hide *;
    var os, chunk := UnsafeLoses(kinds, capacity);
    var states, steps := WrongRun(MachinesOf(capacity, os), os, chunk, capacity);
    NotAlwaysRight(Pipeline([chunk], MachinesOf(capacity, os)), os, 1, states, steps, capacity);
  }

  /** Every finalized run on every number of threads delivers exactly the rows that the
      operators compute, whatever these are, if and only if they are arranged safely. */
  lemma DeliversIff(kinds: seq<Kind>, capacity: nat)
    requires capacity >= 2
    ensures AlwaysRight(kinds, capacity) <==> Safe(kinds)
  {
    hide *;
    if Safe(kinds) {
      SafeIsAlwaysRight(kinds, capacity);
    } else {
      UnsafeIsNotAlwaysRight(kinds, capacity);
    }
  }
}
