/** A query that loses rows: SELECT v FROM a JOIN b ON a.k = b.k WHERE a.k = 0, in a plan that
    filters a below the join. */
module LostQuery {
  import opened Common
  import opened Drain
  import opened Execution
  import opened LostRows
  import opened Machines
  import opened Operators
  import opened Plans
  import opened Restarts
  import opened Rows
  import Deliveries
  import PlanShapes
  import Workers

  const JOINED: Operator := HashJoin(3, Filter(1, TableScan(0)), TableScan(2))
  const LOST_QUERY: Operator := ResultCollector(5, Projection(4, JOINED))

  /** The same join below a GROUP BY, the plan worked out in the lab's documentation. */
  const GROUPED_QUERY: Operator := ResultCollector(5, HashGroupBy(4, JOINED))

  /** Table a has the row (0) twice, and table b the rows (0, 1), (0, 2) and so on, one less
      than fit into a chunk. */
  function Tables(capacity: nat): World<int>
    requires capacity >= 3
  {
    World((id: nat) => if id == 0 then [Probes()] else [BuildRows(capacity)],
          (id: nat) => 1,
          (id: nat) => (x: seq<int>) => x == [0],
          (id: nat) => (x: seq<int>) => if |x| > 2 then [x[2]] else x,
          (id: nat, built: seq<seq<int>>) => (key: seq<int>) => FlatMap(SameKey(key), built),
          (id: nat, rows: seq<seq<int>>) => rows)
  }

  function Probes(): (rows: seq<seq<int>>)
    ensures |rows| == 2
  {
    [[0], [0]]
  }

  function SameKey(key: seq<int>): seq<int> -> seq<seq<int>> {
    (row: seq<int>) => if |row| > 0 && [row[0]] == key then [row] else []
  }

  function BuildRows(capacity: nat): (rows: seq<seq<int>>)
    requires capacity >= 3
    ensures |rows| == capacity - 1
  {
    seq(capacity - 1, i => [0, i + 1])
  }

  /** What each of the two rows finds, and what the query makes of that. */
  function Joined(capacity: nat): (rows: seq<seq<int>>)
    requires capacity >= 3
    ensures |rows| == capacity - 1
  {
    seq(capacity - 1, i => [0, 0, i + 1])
  }

  function Answers(capacity: nat): (rows: seq<seq<int>>)
    requires capacity >= 3
    ensures |rows| == 2 * (capacity - 1)
  {
    seq(capacity - 1, i => [i + 1]) + seq(capacity - 1, i => [i + 1])
  }

  lemma SafeOrNot()
    ensures !PlanShapes.SafePlan(LOST_QUERY) && PlanShapes.SafePlan(GROUPED_QUERY)
  {
    var kinds := [FILTER, JOIN, PROJECTION];
    assert PlanShapes.Feed(LOST_QUERY.child) == kinds && kinds[0] == FILTER && kinds[1] == JOIN && kinds[2] == PROJECTION;
    assert PlanShapes.Feed(JOINED) == [FILTER, JOIN];
  }

  lemma LostQueryPipelines()
    ensures Build(LOST_QUERY) == [Stage(Some(JOINED.right), [], Some(JOINED)),
                                  Stage(Some(JOINED.left.child), [JOINED.left, JOINED, LOST_QUERY.child], Some(LOST_QUERY))]
  {
    var current := FRESH.(sink := Some(LOST_QUERY));
    CompileJoined(current);
    assert [JOINED.left, JOINED] + [LOST_QUERY.child] == [JOINED.left, JOINED, LOST_QUERY.child];
    var last := Stage(Some(JOINED.left.child), [JOINED.left, JOINED, LOST_QUERY.child], Some(LOST_QUERY));
    assert Compile(LOST_QUERY, FRESH) == ([Stage(Some(JOINED.right), [], Some(JOINED))], last);
  }

  lemma CompileJoined(current: Stage)
    requires current.operators == []
    ensures Compile(JOINED, current) ==
            ([Stage(Some(JOINED.right), [], Some(JOINED))], Stage(Some(JOINED.left.child), [JOINED.left, JOINED], current.sink))
  {
    assert Compile(JOINED.right, FRESH.(sink := Some(JOINED))) == ([], Stage(Some(JOINED.right), [], Some(JOINED)));
    assert Compile(JOINED.left.child, current) == ([], Stage(Some(JOINED.left.child), [], current.sink));
    assert [] + [JOINED.left] == [JOINED.left] && [JOINED.left] + [JOINED] == [JOINED.left, JOINED];
    assert Compile(JOINED.left, current) == ([], Stage(Some(JOINED.left.child), [JOINED.left], current.sink));
    var build := Stage(Some(JOINED.right), [], Some(JOINED));
    assert [] + [build] + [] == [build];
  }

  lemma MatchesOfZero(capacity: nat)
    requires capacity >= 3
    ensures Tables(capacity).matches(3, BuildRows(capacity))([0]) == BuildRows(capacity)
  {
    FlatMapEach(SameKey([0]), BuildRows(capacity), BuildRows(capacity));
  }

  // ----- what the operators make of the rows

  function TheFilter(capacity: nat): RowOperator<int>
    requires capacity >= 3
  {
    Filtering(1, Tables(capacity).keep(1))
  }

  function TheJoin(capacity: nat): RowOperator<int>
    requires capacity >= 3
  {
    Joining(1, Tables(capacity).matches(3, BuildRows(capacity)))
  }

  function TheProjection(capacity: nat): RowOperator<int>
    requires capacity >= 3
  {
    Projecting(Tables(capacity).compute(4))
  }

  lemma ProbesPass(capacity: nat)
    requires capacity >= 3
    ensures FlatMap(RowsOf(TheFilter(capacity)), Probes()) == Probes()
  {
    assert [0][..1] == [0];
    FlatMapEach(RowsOf(TheFilter(capacity)), Probes(), Probes());
  }

  lemma AnswersDoNot(capacity: nat, rows: seq<seq<int>>)
    requires capacity >= 3 && forall i :: 0 <= i < |rows| ==> |rows[i]| == 1 && rows[i][0] > 0
    ensures FlatMap(RowsOf(TheFilter(capacity)), rows) == []
  {
    forall i | 0 <= i < |rows| ensures RowsOf(TheFilter(capacity))(rows[i]) == [] {
      assert rows[i][..1] == rows[i];
    }
    FlatMapNone(RowsOf(TheFilter(capacity)), rows);
  }

  lemma ProbesJoin(capacity: nat)
    requires capacity >= 3
    ensures FlatMap(RowsOf(TheJoin(capacity)), Probes()) == Joined(capacity) + Joined(capacity)
  {
    var o := TheJoin(capacity);
    MatchesOfZero(capacity);
    assert [0][..1] == [0];
    forall i | 0 <= i < capacity - 1 ensures [0] + BuildRows(capacity)[i] == Joined(capacity)[i] {
    }
    FlatMapEach(Behind([0]), BuildRows(capacity), Joined(capacity));
    FlatMapTwo(RowsOf(o), [0], [0]);
  }

  lemma ProjectEach(capacity: nat, rows: seq<seq<int>>, outs: seq<seq<int>>)
    requires capacity >= 3 && |rows| == |outs| && forall i :: 0 <= i < |rows| ==> |rows[i]| == 3 && outs[i] == [rows[i][2]]
    ensures FlatMap(RowsOf(TheProjection(capacity)), rows) == outs
  {
    FlatMapEach(RowsOf(TheProjection(capacity)), rows, outs);
  }

  lemma AnswersAreLast(capacity: nat)
    requires capacity >= 3
    ensures var all, answers := Joined(capacity) + Joined(capacity), Answers(capacity);
      forall i :: 0 <= i < |all| ==> |all[i]| == 3 && answers[i] == [all[i][2]]
  {
  }

  /** A pipeline of a filter, a join and a projection that do this. */
  ghost predicate Acts<R(!new)>(ops: seq<Kernel<R>>, row: seq<R>, a: seq<R>, b: seq<R>, a': seq<R>, b': seq<R>) {
    && |ops| == 3 && Proper(ops) && Single(ops[0]) && Single(ops[2]) && ops[0].outputs([]) == [[]]
    && ops[0].outputs(row) == [row] && ops[0].outputs(a') == [[]]
    && ops[1].outputs(row) == [a, b] && ops[2].outputs(a) == [a'] && ops[2].outputs(b) == [b']
    && row != [] && a != [] && b != [] && a' != []
  }

  lemma ActsLoses<R(!new)>(ops: seq<Kernel<R>>, fs: seq<R -> seq<R>>, row: seq<R>, a: seq<R>, b: seq<R>,
                           a': seq<R>, b': seq<R>)
    requires Acts(ops, row, a, b, a', b') && |fs| == 3 && forall i :: 0 <= i < 3 ==> Implements(ops[i], fs[i])
    ensures Loop(ops, AllIdle(3), row, 2).Drained? && Loop(ops, AllIdle(3), row, 2).sunk == a' && Chain(fs, row) == a' + b'
  {
    assert Through(ops, 1, 1, row) == row && Through(ops, 3, 3, a') == a' && Through(ops, 3, 3, b') == b';
    assert Through(ops, 0, 1, row) == row && Through(ops, 2, 3, a) == a' && Through(ops, 2, 3, b) == b';
    assert Through(ops, 1, 1, []) == [] && Through(ops, 0, 1, a') == [];
    assert !ComesBack(ops, 1, a);
    NoReturnLoses(ops, fs, 1, row);
  }

  lemma FilterActs(capacity: nat)
    requires capacity >= 3
    ensures var op := Machine(capacity, TheFilter(capacity));
      && op.outputs(Probes()) == [Probes()] && op.outputs([]) == [[]] && op.outputs(Answers(capacity)[..capacity]) == [[]]
      && Single(op)
  {
    hide Answers, Probes, Tables;
    ProbesPass(capacity);
    AnswersArePositive(capacity);
    AnswersDoNot(capacity, Answers(capacity)[..capacity]);
  }

  lemma JoinActs(capacity: nat)
    requires capacity >= 3
    ensures var all := Joined(capacity) + Joined(capacity);
      Machine(capacity, TheJoin(capacity)).outputs(Probes()) == [all[..capacity], all[capacity..]]
  {
    hide Joined, Probes, Tables, Machine;
    var all := Joined(capacity) + Joined(capacity);
    ProbesJoin(capacity);
    assert all == all[..capacity] + all[capacity..];
    JoinInTwo(capacity, TheJoin(capacity), Probes(), all[..capacity], all[capacity..]);
  }

  lemma ProjectionActs(capacity: nat)
    requires capacity >= 3
    ensures var op, all := Machine(capacity, TheProjection(capacity)), Joined(capacity) + Joined(capacity);
      && op.outputs(all[..capacity]) == [Answers(capacity)[..capacity]]
      && op.outputs(all[capacity..]) == [Answers(capacity)[capacity..]] && Single(op)
  {
    hide Joined, Answers, Tables, FlatMap;
    var all, answers := Joined(capacity) + Joined(capacity), Answers(capacity);
    AnswersAreLast(capacity);
    ProjectEach(capacity, all[..capacity], answers[..capacity]);
    ProjectEach(capacity, all[capacity..], answers[capacity..]);
  }

  lemma OperatorsAct(capacity: nat, ops: seq<Kernel<seq<int>>>)
    requires capacity >= 3 && Proper(ops)
    requires ops == [Machine(capacity, TheFilter(capacity)), Machine(capacity, TheJoin(capacity)),
                     Machine(capacity, TheProjection(capacity))]
    ensures var all, answers := Joined(capacity) + Joined(capacity), Answers(capacity);
      Acts(ops, Probes(), all[..capacity], all[capacity..], answers[..capacity], answers[capacity..])
  {
    hide Joined, Answers, Probes, Machine, TheFilter, TheJoin, TheProjection, Single;
    FilterActs(capacity);
    JoinActs(capacity);
    ProjectionActs(capacity);
  }

  lemma AnswersArePositive(capacity: nat)
    requires capacity >= 3
    ensures forall i :: 0 <= i < |Answers(capacity)| ==> |Answers(capacity)[i]| == 1 && Answers(capacity)[i][0] > 0
  {
  }

  // ----- the whole execution

  /** What the query means: one row for each match. */
  lemma Meaning(capacity: nat)
    requires capacity >= 3
    ensures Evaluate(Tables(capacity), LOST_QUERY) == Answers(capacity)
  {
    hide Joined, Answers, FlatMap, ResultsOn, RowsOf;
    var all := Joined(capacity) + Joined(capacity);
    MeaningOfJoin(capacity);
    AnswersAreLast(capacity);
    ProjectEach(capacity, all, Answers(capacity));
  }

  lemma MeaningOfJoin(capacity: nat)
    requires capacity >= 3
    ensures Evaluate(Tables(capacity), JOINED) == Joined(capacity) + Joined(capacity)
  {
    ConcatOne(Probes());
    ConcatOne(BuildRows(capacity));
    ProbesPass(capacity);
    ProbesJoin(capacity);
    assert Evaluate(Tables(capacity), JOINED.left) == Probes();
    assert Evaluate(Tables(capacity), JOINED.right) == BuildRows(capacity);
  }

  lemma QuerySettles(capacity: nat)
    requires capacity >= 3
    ensures PlanShapes.Settles(Tables(capacity), LOST_QUERY)
  {
    forall a, b, key: seq<int> | multiset(a) == multiset(b)
      ensures multiset(Tables(capacity).matches(3, a)(key)) == multiset(Tables(capacity).matches(3, b)(key))
    {
      FlatMapOfPermutation(SameKey(key), SameKey(key), a, b);
    }
  }

  lemma NothingChanges(capacity: nat)
    requires capacity >= 3
    ensures forall id, rows :: Tables(capacity).finish(id, rows) == rows
  {
  }

  /** The build side, run by one worker. */
  lemma BuildTrace(capacity: nat) returns (r: Trace<int>)
    requires capacity >= 3
    ensures IsTrace(Tables(capacity), map[], Stage(Some(JOINED.right), [], Some(JOINED)), r) && Arrived(r) == BuildRows(capacity)
  {
    ConcatOne(BuildRows(capacity));
    var idle: Pending<seq<int>> := AllIdle(0);
    assert Loop([], idle, BuildRows(capacity), 1) == Drained(BuildRows(capacity), idle);
    var states, steps := Deliveries.RunOfLoop([], BuildRows(capacity), 1);
    r := Trace([], [BuildRows(capacity)], 1, states, steps);
  }

  /** The probe side, run by one worker. */
  lemma ProbeTrace(capacity: nat, h: Held<int>, s: Stage) returns (r: Trace<int>)
    requires capacity >= 3 && HeldBy(h, 3) == BuildRows(capacity)
    requires s == Stage(Some(JOINED.left.child), [JOINED.left, JOINED, LOST_QUERY.child], Some(LOST_QUERY))
    ensures IsTrace(Tables(capacity), h, s, r) && Arrived(r) == Answers(capacity)[..capacity]
  {
    var os := RowOperatorsOf(Tables(capacity), h, s.operators);
    assert os == [TheFilter(capacity), TheJoin(capacity), TheProjection(capacity)];
    var states, steps := ProbeRun(capacity, os);
    ConcatOne(Probes());
    r := Trace(MachinesOf(capacity, os), [Probes()], 1, states, steps);
  }

  lemma ProbeRun(capacity: nat, os: seq<RowOperator<int>>)
    returns (states: seq<Workers.State<seq<int>>>, steps: seq<Workers.Step>)
    requires capacity >= 3 && os == [TheFilter(capacity), TheJoin(capacity), TheProjection(capacity)]
    ensures Computes(MachinesOf(capacity, os), os)
    ensures Workers.Run(Workers.Pipeline([Probes()], MachinesOf(capacity, os)), 1, states, steps)
    ensures states[|steps|].main == Workers.Finalized(Answers(capacity)[..capacity])
  {
    hide Computes, Machine, TheFilter, TheJoin, TheProjection, Acts, Answers, Joined, Probes;
    var ops, all := MachinesOf(capacity, os), Joined(capacity) + Joined(capacity);
    MachinesCompute(capacity, os);
    MachinesAreProper(capacity, os);
    assert ops == [Machine(capacity, os[0]), Machine(capacity, os[1]), Machine(capacity, os[2])];
    OperatorsAct(capacity, ops);
    states, steps := ActsRun(ops, os, Probes(), all[..capacity], all[capacity..], Answers(capacity)[..capacity],
                             Answers(capacity)[capacity..]);
  }

  lemma ActsRun<V(!new)>(ops: seq<Kernel<seq<V>>>, os: seq<RowOperator<V>>, row: seq<seq<V>>, a: seq<seq<V>>, b: seq<seq<V>>,
                         a': seq<seq<V>>, b': seq<seq<V>>)
    returns (states: seq<Workers.State<seq<V>>>, steps: seq<Workers.Step>)
    requires Computes(ops, os) && Acts(ops, row, a, b, a', b')
    ensures Workers.Run(Workers.Pipeline([row], ops), 1, states, steps) && states[|steps|].main == Workers.Finalized(a')
  {
    forall i | 0 <= i < 3 ensures Implements(ops[i], RowsOfAll(os)[i]) {
      assert Realizes(ops[i], os[i]);
    }
    ActsLoses(ops, RowsOfAll(os), row, a, b, a', b');
    states, steps := Deliveries.RunOfLoop(ops, row, 2);
  }

  lemma QueryIsAPlan()
    ensures Distinct(LOST_QUERY) && NoCollector(LOST_QUERY.child)
  {
  }

  /** A finalized execution of the plan ends with the first chunk of answers: projected, it goes
      back to the filter, which drops it, and the other rows stay in the join. With chunks of
      2048 rows that is 2046 of 4094 answers lost. */
  lemma FilterJoinProjectionLosesRows(capacity: nat) returns (traces: seq<Trace<int>>, helds: seq<Held<int>>)
    requires capacity >= 3
    ensures Distinct(LOST_QUERY) && NoCollector(LOST_QUERY.child) && PlanShapes.Settles(Tables(capacity), LOST_QUERY)
    ensures Ran(Tables(capacity), Build(LOST_QUERY), traces, helds) && |helds| == 3
    ensures var answers := Evaluate(Tables(capacity), LOST_QUERY);
      |answers| == 2 * (capacity - 1) && HeldBy(helds[2], 5) == answers[..capacity]
  {
    hide Tables, Evaluate, IsTrace, Arrived, Distinct, NoCollector, Build, BuildRows, PlanShapes.Settles, Answers;
    QueryIsAPlan();
    LostQueryPipelines();
    Meaning(capacity);
    QuerySettles(capacity);
    NothingChanges(capacity);
    var h0: Held<int> := map[];
    var h1 := h0[3 := BuildRows(capacity)];
    var h2 := h1[5 := Answers(capacity)[..capacity]];
    var build := BuildTrace(capacity);
    var probe := ProbeTrace(capacity, h1, Build(LOST_QUERY)[1]);
    traces, helds := [build, probe], [h0, h1, h2];
  }
}
