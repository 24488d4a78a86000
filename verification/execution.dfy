/** The execution engine put together: the worker loop over a source's chunks, what a parallel
    run of one pipeline hands to its sink, the executor over all pipelines, and why the
    scheduling of the threads does not show in the result. */
module Execution {
  import opened Common
  import opened Rows
  import Deliveries
  import Drain
  import Morsels
  import Operators
  import Plans
  import PlanShapes
  import Progress
  import Restarts
  import Results
  import Workers

  /** A source as one worker sees it: each pull takes the next chunk, and past the last one
      there is only the empty chunk. */
  class ChunkSource<Row(!new)> {
    const chunks: seq<seq<Row>>
    var next: nat

    constructor (chunks: seq<seq<Row>>)
      ensures this.chunks == chunks && next == 0
    {
      this.chunks := chunks;
      next := 0;
    }

    method GetData() returns (chunk: seq<Row>)
      modifies this
      ensures next == old(next) + 1
      ensures chunk == if old(next) < |chunks| then chunks[old(next)] else []
    {
      chunk := if next < |chunks| then chunks[next] else [];
      next := next + 1;
    }
  }

  /** The pull loop of one worker on its own: it takes chunks up to the first empty one, and
      its local sink receives what the chain makes of each of them, in order. */
  method ExecuteWorker<Row(!new)>(source: ChunkSource<Row>, ops: seq<Drain.Kernel<Row>>) returns (local: seq<Row>)
    requires source.next == 0 && Drain.Restartable(ops)
    modifies source
    ensures local == FlatMap(Workers.Work(ops), source.chunks[..Workers.Reached(source.chunks, 0, 1)])
  {
    local := [];
    var pending: Drain.Pending<Row> := seq(|ops|, _ => []);
    var chunk := source.GetData();
    ghost var i := 0;
    assert source.chunks[..0] == [];
    while |chunk| > 0
      invariant 0 <= i <= |source.chunks| && source.next == i + 1
      invariant chunk == if i < |source.chunks| then source.chunks[i] else []
      invariant |pending| == |ops| && Drain.Idle(pending, 0)
      invariant local == FlatMap(Workers.Work(ops), source.chunks[..i])
      invariant Workers.Reached(source.chunks, 0, 1) == Workers.Reached(source.chunks, i, 1)
      decreases |source.chunks| - i
    {
      var sunk;
      sunk, pending := Drain.DrainChunk(ops, pending, chunk);
      FlatMapSnoc(Workers.Work(ops), source.chunks, i);
      local := local + sunk;
      chunk := source.GetData();
      i := i + 1;
    }
    if i < |source.chunks| {
      FlatMapSnoc(Workers.Work(ops), source.chunks, i);
    }
  }

  lemma FlatMapSnoc<A(!new), B(!new)>(f: A -> seq<B>, rows: seq<A>, i: nat)
    requires i < |rows|
    ensures FlatMap(f, rows[..i + 1]) == FlatMap(f, rows[..i]) + f(rows[i])
  {
    assert rows[..i + 1] == rows[..i] + [rows[i]];
    FlatMapAppend(f, rows[..i], [rows[i]]);
    assert [rows[i]][1..] == [];
    assert FlatMap(f, [rows[i]]) == f(rows[i]) + FlatMap(f, [rows[i]][1..]);
  }

  // ----- one pipeline, run in parallel

  /** The operators of the stage, as the drain loop runs them: each computes row by row what
      the plan says, and only joins cut their output into chunks, in whatever way. */
  ghost predicate Runs<V(!new)>(w: Plans.World<V>, h: Plans.Held<V>, s: Plans.Stage, ops: seq<Drain.Kernel<seq<V>>>) {
    Restarts.Computes(ops, Plans.RowOperatorsOf(w, h, s.operators))
  }

  lemma KindsAgree<V(!new)>(w: Plans.World<V>, h: Plans.Held<V>, s: Plans.Stage)
    ensures Operators.KindsOf(Plans.RowOperatorsOf(w, h, s.operators)) == Plans.StageKinds(s)
  {
  }

  /** The chunks hold the rows of the source in order, and none of them is empty. */
  ghost predicate Supplies<V(!new)>(w: Plans.World<V>, h: Plans.Held<V>, s: Plans.Stage, chunks: seq<seq<seq<V>>>)
    requires s.source.Some?
  {
    Concat(chunks) == Plans.SourceRows(w, h, s.source.value) && Deliveries.NoneEmpty(chunks)
  }

  /** The chunks a table scan hands out: one for each morsel. */
  function ScanChunks<Row(!new)>(groups: seq<seq<Row>>, ms: seq<Morsels.Morsel>): (chunks: seq<seq<Row>>)
    ensures |chunks| == |ms|
  {
    seq(|ms|, i requires 0 <= i < |ms| => Morsels.Slice(groups, ms[i]))
  }

  lemma {:induction false} ConcatOfScan<Row(!new)>(groups: seq<seq<Row>>, ms: seq<Morsels.Morsel>)
    ensures Concat(ScanChunks(groups, ms)) == FlatMap(Morsels.Read(groups), ms)
  {
    if ms == [] {
    } else {
      ConcatOfScan(groups, ms[1..]);
      assert ScanChunks(groups, ms)[1..] == ScanChunks(groups, ms[1..]);
    }
  }

  /** The morsels of a table supply its rows. */
  lemma ScanSupplies<V(!new)>(w: Plans.World<V>, h: Plans.Held<V>, s: Plans.Stage)
    requires s.source.Some? && s.source.value.TableScan?
    ensures var groups := w.groups(s.source.value.id);
      Supplies(w, h, s, ScanChunks(groups, Morsels.Layout(Morsels.Counts(groups), 0)))
  {
    var groups := w.groups(s.source.value.id);
    var ms := Morsels.Layout(Morsels.Counts(groups), 0);
    ConcatOfScan(groups, ms);
    Morsels.MorselsReadTable(groups, 0);
    assert groups[0..] == groups;
    Morsels.LayoutInBounds(groups, 0);
  }

  /** So do the chunks that a materialized sink emits as a source. */
  lemma EmitterSupplies<V(!new)>(w: Plans.World<V>, h: Plans.Held<V>, s: Plans.Stage)
    requires s.source.Some?
    ensures Supplies(w, h, s, Results.Pulled(Plans.SourceRows(w, h, s.source.value), 0))
  {
    var rows := Plans.SourceRows(w, h, s.source.value);
    Results.PulledIsAll(rows, 0);
    assert rows[0..] == rows;
  }

  const UNLIMITED: nat := 0xFFFF_FFFF_FFFF_FFFF

  function MaxSourceThreads(op: Plans.Operator): nat {
    if op.OrderBy? || op.Limit? then 1 else UNLIMITED
  }

  /** One execution of a pipeline, as far as it is left to chance. */
  datatype Trace<!V> = Trace(ops: seq<Drain.Kernel<seq<V>>>, chunks: seq<seq<seq<V>>>, threads: nat,
                             states: seq<Workers.State<seq<V>>>, steps: seq<Workers.Step>)

  ghost function Arrived<V(!new)>(r: Trace<V>): seq<seq<V>>
    requires |r.states| == |r.steps| + 1 && r.states[|r.steps|].main.Finalized?
  {
    r.states[|r.steps|].main.rows
  }

  /** The trace is a finalized run of the workers on the pipeline. */
  ghost predicate IsTrace<V(!new)>(w: Plans.World<V>, h: Plans.Held<V>, s: Plans.Stage, r: Trace<V>) {
    && s.source.Some? && Runs(w, h, s, r.ops) && Supplies(w, h, s, r.chunks)
    && Workers.Run(Workers.Pipeline(r.chunks, r.ops), Workers.ThreadCount(r.threads, MaxSourceThreads(s.source.value)),
                   r.states, r.steps)
    && r.states[|r.steps|].main.Finalized?
  }

  /** In every run of a safely arranged pipeline, on any number of threads, the sink has
      received the rows of the pipeline by the time it is finalized, each exactly once; from a
      sorted or limited source, in order. */
  lemma ParallelRunDelivers<V(!new)>(w: Plans.World<V>, h: Plans.Held<V>, s: Plans.Stage, r: Trace<V>)
    requires IsTrace(w, h, s, r) && Operators.Safe(Plans.StageKinds(s))
    ensures multiset(Arrived(r)) == multiset(Plans.Flow(w, h, s))
    ensures s.source.value.OrderBy? || s.source.value.Limit? ==> Arrived(r) == Plans.Flow(w, h, s)
  {
    KindsAgree(w, h, s);
    Deliveries.SafeIsRight(Workers.Pipeline(r.chunks, r.ops), Plans.RowOperatorsOf(w, h, s.operators),
                           Workers.ThreadCount(r.threads, MaxSourceThreads(s.source.value)), r.states, r.steps);
  }

  /** Whatever number of threads is asked for, a sorted or limited source is drained in order. */
  lemma OrderedSourceKeepsOrder<V(!new)>(w: Plans.World<V>, h: Plans.Held<V>, s: Plans.Stage, r: Trace<V>)
    requires IsTrace(w, h, s, r) && Operators.Safe(Plans.StageKinds(s)) && (s.source.value.OrderBy? || s.source.value.Limit?)
    ensures |r.states[0].workers| == 1 && Arrived(r) == Plans.Flow(w, h, s)
  {
    ParallelRunDelivers(w, h, s, r);
  }

  /** The pipelines of a plan deliver in every run what their operators compute, whatever the
      filters keep, the projections compute and the joins find, if and only if the plan is safe:
      at most one join stands between a sink and its source, and it comes first, or there is no
      filter, or it comes last and there is no projection. */
  lemma AllPipelinesDeliverIff(root: Plans.Operator, capacity: nat)
    requires root.ResultCollector? && Plans.NoCollector(root.child) && capacity >= 2
    ensures (forall i :: 0 <= i < |Plans.Build(root)| ==> Deliveries.AlwaysRight(Plans.StageKinds(Plans.Build(root)[i]), capacity))
            <==> PlanShapes.SafePlan(root)
  {
    var stages := Plans.Build(root);
    forall i | 0 <= i < |stages|
      ensures Deliveries.AlwaysRight(Plans.StageKinds(stages[i]), capacity) <==> Operators.Safe(Plans.StageKinds(stages[i]))
    {
      Deliveries.DeliversIff(Plans.StageKinds(stages[i]), capacity);
    }
    PlanShapes.SafePlanIff(root);
  }

  // ----- a whole query

  /** The pipelines run one after the other, each in its own way; 'helds' is what the sinks
      hold before, between and after. */
  ghost predicate Ran<V(!new)>(w: Plans.World<V>, stages: seq<Plans.Stage>, traces: seq<Trace<V>>,
                               helds: seq<Plans.Held<V>>) {
    && |traces| == |stages| && |helds| == |stages| + 1 && helds[0] == map[]
    && forall i :: 0 <= i < |stages| ==> IsStep(w, helds[i], stages[i], traces[i], helds[i + 1])
  }

  ghost predicate IsStep<V(!new)>(w: Plans.World<V>, h: Plans.Held<V>, s: Plans.Stage, r: Trace<V>, h': Plans.Held<V>) {
    && IsTrace(w, h, s, r) && s.sink.Some?
    && h' == h[s.sink.value.id := w.finish(s.sink.value.id, Arrived(r))]
  }

  /** Sinks with this id bring rows into an order that the data determine. */
  ghost predicate Determined<V(!new)>(w: Plans.World<V>, stages: seq<Plans.Stage>, id: nat) {
    forall i :: 0 <= i < |stages| && stages[i].sink.Some? && stages[i].sink.value.id == id ==>
      PlanShapes.SourceInOrder(w, stages[i].sink.value)
  }

  /** The same bags in all sinks, and the same sequences where the order is determined. */
  ghost predicate Alike<V(!new)>(w: Plans.World<V>, stages: seq<Plans.Stage>, h: Plans.Held<V>, g: Plans.Held<V>) {
    && (forall id :: multiset(Plans.HeldBy(h, id)) == multiset(Plans.HeldBy(g, id)))
    && (forall id :: Determined(w, stages, id) ==> Plans.HeldBy(h, id) == Plans.HeldBy(g, id))
  }

  lemma {:induction false} ChainsAlike<Row(!new)>(fs: seq<Row -> seq<Row>>, gs: seq<Row -> seq<Row>>,
                                        a: seq<Row>, b: seq<Row>)
    requires |fs| == |gs| && multiset(a) == multiset(b)
    requires forall i, x :: 0 <= i < |fs| ==> multiset(fs[i](x)) == multiset(gs[i](x))
    ensures multiset(Chain(fs, a)) == multiset(Chain(gs, b))
  {
    if fs == [] {
    } else {
      FlatMapOfPermutation(fs[0], gs[0], a, b);
      ChainsAlike(fs[1..], gs[1..], FlatMap(fs[0], a), FlatMap(gs[0], b));
    }
  }

  /** An operator at work on sinks that are alike. */
  lemma OperatorsAlike<V(!new)>(w: Plans.World<V>, stages: seq<Plans.Stage>, op: Plans.Operator,
                                h: Plans.Held<V>, g: Plans.Held<V>, x: seq<V>)
    requires Alike(w, stages, h, g) && (op.HashJoin? ==> PlanShapes.ProbeBlind(w, op.id))
    ensures var f, f' := Operators.RowsOf(Plans.RowOperatorOf(w, h, op)), Operators.RowsOf(Plans.RowOperatorOf(w, g, op));
      multiset(f(x)) == multiset(f'(x))
  {
    if op.HashJoin? {
      var a, b := w.matches(op.id, Plans.HeldBy(h, op.id)), w.matches(op.id, Plans.HeldBy(g, op.id));
      forall row ensures multiset(a(row)) == multiset(b(row)) {
        assert multiset(Plans.HeldBy(h, op.id)) == multiset(Plans.HeldBy(g, op.id));
      }
      Operators.JoinOfPermutation(w.width(op.id), a, b, x);
    }
  }

  lemma FlowsAlike<V(!new)>(w: Plans.World<V>, stages: seq<Plans.Stage>, s: Plans.Stage, h: Plans.Held<V>, g: Plans.Held<V>)
    requires Alike(w, stages, h, g) && s.source.Some? && PlanShapes.ProbesSettle(w, s)
    ensures multiset(Plans.Flow(w, h, s)) == multiset(Plans.Flow(w, g, s))
  {
    var fs := Operators.RowsOfAll(Plans.RowOperatorsOf(w, h, s.operators));
    var gs := Operators.RowsOfAll(Plans.RowOperatorsOf(w, g, s.operators));
    forall i, x | 0 <= i < |fs| ensures multiset(fs[i](x)) == multiset(gs[i](x)) {
      OperatorsAlike(w, stages, s.operators[i], h, g, x);
    }
    ChainsAlike(fs, gs, Plans.SourceRows(w, h, s.source.value), Plans.SourceRows(w, g, s.source.value));
  }

  lemma FlowInOrder<V(!new)>(w: Plans.World<V>, stages: seq<Plans.Stage>, s: Plans.Stage, h: Plans.Held<V>, g: Plans.Held<V>)
    requires Alike(w, stages, h, g) && PlanShapes.StageInOrder(w, s) && Determined(w, stages, s.source.value.id)
    ensures Plans.Flow(w, h, s) == Plans.Flow(w, g, s)
  {
    assert Plans.RowOperatorsOf(w, h, s.operators) == Plans.RowOperatorsOf(w, g, s.operators);
  }

  /** What arrives at the sink in whatever run, against what arrives in source order. */
  lemma ArrivedAlike<V(!new)>(w: Plans.World<V>, stages: seq<Plans.Stage>, s: Plans.Stage, h: Plans.Held<V>, g: Plans.Held<V>,
                                r: Trace<V>)
    requires IsTrace(w, h, s, r) && Alike(w, stages, h, g) && Operators.Safe(Plans.StageKinds(s)) && PlanShapes.ProbesSettle(w, s)
    requires PlanShapes.StageInOrder(w, s) ==> Determined(w, stages, s.source.value.id)
    ensures multiset(Arrived(r)) == multiset(Plans.Flow(w, g, s))
    ensures PlanShapes.StageInOrder(w, s) ==> Arrived(r) == Plans.Flow(w, g, s)
  {
    ParallelRunDelivers(w, h, s, r);
    FlowsAlike(w, stages, s, h, g);
    if PlanShapes.StageInOrder(w, s) {
      FlowInOrder(w, stages, s, h, g);
    }
  }

  /** Sinks that are alike stay so when one of them finishes rows that are alike. */
  lemma FinishKeepsAlike<V(!new)>(w: Plans.World<V>, stages: seq<Plans.Stage>, k: nat, h: Plans.Held<V>, g: Plans.Held<V>,
                                    rows: seq<seq<V>>, ideal: seq<seq<V>>)
    requires k < |stages| && PlanShapes.StageSettles(w, stages[k]) && Alike(w, stages, h, g)
    requires multiset(rows) == multiset(ideal) && (PlanShapes.StageInOrder(w, stages[k]) ==> rows == ideal)
    ensures var id := stages[k].sink.value.id; Alike(w, stages, h[id := w.finish(id, rows)], g[id := w.finish(id, ideal)])
  {
    var sink := stages[k].sink.value;
    assert multiset(w.finish(sink.id, rows)) == multiset(w.finish(sink.id, ideal));
    var h', g' := h[sink.id := w.finish(sink.id, rows)], g[sink.id := w.finish(sink.id, ideal)];
    forall x ensures multiset(Plans.HeldBy(h', x)) == multiset(Plans.HeldBy(g', x)) {
      assert multiset(Plans.HeldBy(h, x)) == multiset(Plans.HeldBy(g, x));
    }
    forall x | Determined(w, stages, x) ensures Plans.HeldBy(h', x) == Plans.HeldBy(g', x) {
      if x == sink.id {
        assert PlanShapes.SourceInOrder(w, sink);
      }
    }
  }

  /** Running a pipeline in whatever way keeps the sinks like those of running it in source
      order. */
  lemma StepKeepsAlike<V(!new)>(w: Plans.World<V>, stages: seq<Plans.Stage>, k: nat, h: Plans.Held<V>, g: Plans.Held<V>,
                                  r: Trace<V>, h': Plans.Held<V>)
    requires k < |stages| && IsStep(w, h, stages[k], r, h') && Alike(w, stages, h, g)
    requires Operators.Safe(Plans.StageKinds(stages[k])) && PlanShapes.StageSettles(w, stages[k])
    requires PlanShapes.StageInOrder(w, stages[k]) ==> Determined(w, stages, stages[k].source.value.id)
    ensures Plans.RunStage(w, g, stages[k]).Some? && Alike(w, stages, h', Plans.RunStage(w, g, stages[k]).value)
  {
    ArrivedAlike(w, stages, stages[k], h, g, r);
    hide Alike, Plans.Flow, IsTrace;
    FinishKeepsAlike(w, stages, k, h, g, Arrived(r), Plans.Flow(w, g, stages[k]));
  }

  /** A pipeline that starts at an ordered sink starts at a determined one. */
  lemma OrderedSourcesAreDetermined<V(!new)>(w: Plans.World<V>, root: Plans.Operator, k: nat)
    requires root.ResultCollector? && Plans.Distinct(root) && Plans.NoCollector(root.child)
    requires k < |Plans.Build(root)| && PlanShapes.StageInOrder(w, Plans.Build(root)[k])
    ensures Determined(w, Plans.Build(root), Plans.Build(root)[k].source.value.id)
  {
    var stages := Plans.Build(root);
    var source := stages[k].source.value;
    Plans.BuildIsScheduled(root);
    PlanShapes.BuildOwnsSinks(root);
    assert Plans.Ready(stages[k], stages[..k]);
    var j :| 0 <= j < k && stages[..k][j].sink == Some(source);
    assert stages[j].sink == Some(source);
    forall i | 0 <= i < |stages| && stages[i].sink.value.id == source.id ensures stages[i].sink.value == source {
      assert i == j;
    }
  }

  lemma StageFacts<V(!new)>(w: Plans.World<V>, root: Plans.Operator, k: nat)
    requires root.ResultCollector? && Plans.Distinct(root) && Plans.NoCollector(root.child)
    requires PlanShapes.SafePlan(root) && PlanShapes.Settles(w, root) && k < |Plans.Build(root)|
    ensures var s := Plans.Build(root)[k];
      && Operators.Safe(Plans.StageKinds(s)) && PlanShapes.StageSettles(w, s)
      && (PlanShapes.StageInOrder(w, s) ==> Determined(w, Plans.Build(root), s.source.value.id))
  {
    PlanShapes.SafePlanIff(root);
    PlanShapes.BuildSettles(w, root);
    if PlanShapes.StageInOrder(w, Plans.Build(root)[k]) {
      OrderedSourcesAreDetermined(w, root, k);
    }
  }

  lemma {:induction false} RunsStayAlike<V(!new)>(w: Plans.World<V>, root: Plans.Operator, traces: seq<Trace<V>>,
                                                    helds: seq<Plans.Held<V>>, k: nat) returns (g: Plans.Held<V>)
    requires root.ResultCollector? && Plans.Distinct(root) && Plans.NoCollector(root.child)
    requires PlanShapes.SafePlan(root) && PlanShapes.Settles(w, root)
    requires Ran(w, Plans.Build(root), traces, helds) && k <= |Plans.Build(root)|
    ensures Plans.RunStages(w, map[], Plans.Build(root)[..k]) == Some(g) && Alike(w, Plans.Build(root), helds[k], g)
  {
    var stages := Plans.Build(root);
    if k == 0 {
      g := map[];
    } else {
      hide Alike, IsTrace, PlanShapes.StageSettles, PlanShapes.StageInOrder, Determined, Plans.Build;
      var f := RunsStayAlike(w, root, traces, helds, k - 1);
      StageFacts(w, root, k - 1);
      assert IsStep(w, helds[k - 1], stages[k - 1], traces[k - 1], helds[k]);
      StepKeepsAlike(w, stages, k - 1, helds[k - 1], f, traces[k - 1], helds[k]);
      g := Plans.RunStage(w, f, stages[k - 1]).value;
      OneMore(w, stages, k - 1, f);
    }
  }

  lemma OneMore<V(!new)>(w: Plans.World<V>, stages: seq<Plans.Stage>, k: nat, f: Plans.Held<V>)
    requires k < |stages| && Plans.RunStages(w, map[], stages[..k]) == Some(f)
    ensures Plans.RunStages(w, map[], stages[..k + 1]) == Plans.RunStage(w, f, stages[k])
  {
    assert stages[..k + 1] == stages[..k] + [stages[k]];
    Plans.RunAppend(w, map[], stages[..k], [stages[k]]);
    Plans.RunOne(w, f, stages[k]);
  }

  /** Every execution of a safe plan, on any numbers of threads, under every interleaving and however the operators cut their
      output: the collector ends up with the bag of rows that direct evaluation of the plan
      gives; and with the very sequence, if the plan ends in a sort without ties or a LIMIT
      over one. */
  lemma EveryExecutionComputesPlan<V(!new)>(w: Plans.World<V>, root: Plans.Operator, traces: seq<Trace<V>>,
                                              helds: seq<Plans.Held<V>>)
    requires root.ResultCollector? && Plans.Distinct(root) && Plans.NoCollector(root.child)
    requires PlanShapes.SafePlan(root) && PlanShapes.Settles(w, root)
    requires Ran(w, Plans.Build(root), traces, helds)
    ensures var result := Plans.HeldBy(helds[|traces|], root.id);
      && multiset(result) == multiset(Plans.Evaluate(w, root))
      && (PlanShapes.InOrder(w, root.child) ==> result == Plans.Evaluate(w, root))
  {
    var stages := Plans.Build(root);
    var n := |stages|;
    var g := RunsStayAlike(w, root, traces, helds, n);
    assert stages[..n] == stages;
    Plans.PipelinesComputePlan(w, root);
    if PlanShapes.InOrder(w, root.child) {
      var f := RunsStayAlike(w, root, traces, helds, n - 1);
      LastStageInOrder(w, root, helds[n - 1], f, traces[n - 1], helds[n]);
      OneMore(w, stages, n - 1, f);
    }
  }

  lemma LastStageInOrder<V(!new)>(w: Plans.World<V>, root: Plans.Operator, h: Plans.Held<V>, g: Plans.Held<V>,
                                    r: Trace<V>, h': Plans.Held<V>)
    requires root.ResultCollector? && Plans.Distinct(root) && Plans.NoCollector(root.child)
    requires PlanShapes.SafePlan(root) && PlanShapes.Settles(w, root) && PlanShapes.InOrder(w, root.child)
    requires |Plans.Build(root)| > 0 && Alike(w, Plans.Build(root), h, g)
    requires IsStep(w, h, Plans.Build(root)[|Plans.Build(root)| - 1], r, h')
    ensures var last := Plans.Build(root)[|Plans.Build(root)| - 1];
      && Plans.RunStage(w, g, last).Some?
      && Plans.HeldBy(h', root.id) == Plans.HeldBy(Plans.RunStage(w, g, last).value, root.id)
  {
    var stages := Plans.Build(root);
    var last := stages[|stages| - 1];
    PlanShapes.BuildSettles(w, root);
    PlanShapes.SafePlanIff(root);
    OrderedSourcesAreDetermined(w, root, |stages| - 1);
    ParallelRunDelivers(w, h, last, r);
    FlowInOrder(w, stages, last, h, g);
    PlanShapes.CompileSinks(root.child, Plans.FRESH.(sink := Some(root)));
  }

  /** So how the threads were scheduled does not show in the result. */
  lemma SchedulingDoesNotShow<V(!new)>(w: Plans.World<V>, root: Plans.Operator, traces: seq<Trace<V>>,
                                       helds: seq<Plans.Held<V>>,
                                         traces': seq<Trace<V>>, helds': seq<Plans.Held<V>>)
    requires root.ResultCollector? && Plans.Distinct(root) && Plans.NoCollector(root.child)
    requires PlanShapes.SafePlan(root) && PlanShapes.Settles(w, root)
    requires Ran(w, Plans.Build(root), traces, helds) && Ran(w, Plans.Build(root), traces', helds')
    ensures var result, result' := Plans.HeldBy(helds[|traces|], root.id), Plans.HeldBy(helds'[|traces'|], root.id);
      && multiset(result) == multiset(result')
      && (PlanShapes.InOrder(w, root.child) ==> result == result')
  {
    EveryExecutionComputesPlan(w, root, traces, helds);
    EveryExecutionComputesPlan(w, root, traces', helds');
  }

  // ----- running it

  /** How the operators run: the kernel of each of them. */
  type Engine<!V> = Operators.RowOperator<V> -> Drain.Kernel<seq<V>>

  ghost predicate Works<V(!new)>(engine: Engine<V>) {
    forall o: Operators.RowOperator<V> :: Restarts.Realizes(engine(o), o) && Drain.Proper([engine(o)])
  }

  function Kernels<V(!new)>(w: Plans.World<V>, h: Plans.Held<V>, s: Plans.Stage, engine: Engine<V>)
    : (ops: seq<Drain.Kernel<seq<V>>>)
    ensures |ops| == |s.operators|
  {
    seq(|s.operators|, i requires 0 <= i < |s.operators| => engine(Plans.RowOperatorOf(w, h, s.operators[i])))
  }

  lemma KernelsRun<V(!new)>(w: Plans.World<V>, h: Plans.Held<V>, s: Plans.Stage, engine: Engine<V>)
    requires Works(engine)
    ensures Runs(w, h, s, Kernels(w, h, s, engine))
  {
    var ops := Kernels(w, h, s, engine);
    forall i, c | 0 <= i < |ops| ensures |ops[i].outputs(c)| >= 1 {
      var op := engine(Plans.RowOperatorOf(w, h, s.operators[i]));
      assert Drain.Proper([op]) && [op][0] == ops[i];
    }
  }

  predicate Unfinished<Row>(w: Workers.Worker<Row>) { !w.phase.Done? }

  /** Pipeline::Execute, on n threads: as long as a worker has something left to do, any such
      worker makes its next step; then the main thread joins. */
  method RunPipeline<Row(!new)>(p: Workers.Pipeline<Row>, n: nat)
    returns (rows: seq<Row>, ghost states: seq<Workers.State<Row>>, ghost steps: seq<Workers.Step>)
    requires n >= 1 && Drain.Restartable(p.ops)
    ensures Workers.Run(p, n, states, steps) && states[|steps|].main == Workers.Finalized(rows)
  {
    ghost var k :| Drain.RestartsAt(p.ops, k);
    var s := Workers.Start(p, n);
    states, steps := [s], [];
    while exists w :: 0 <= w < |s.workers| && Unfinished(s.workers[w])
      invariant Workers.Run(p, n, states, steps) && states[|steps|] == s && s.main.Joining? && Workers.Quiet(s)
      decreases Progress.Left(p, k, s)
    {
      var w: nat :| w < |s.workers| && Unfinished(s.workers[w]);
      var worker := s.workers[w];
      ghost var before := s;
      ghost var step;
      Workers.RunInv(p, k, n, states, steps, |steps|);
      match worker.phase {
        case Pulling =>
          step := Workers.Pull(w);
          s := s.(next := s.next + 1, workers := s.workers[w := worker.(phase := Workers.Received(p.chunks, s.next))]);
        case Holding(chunk) =>
          step := Workers.Push(w);
          var pending, out, more := Drain.OnePass(p.ops, worker.pending, chunk);
          var after := Workers.Worker(if more then Workers.Holding(out) else Workers.Pulling, pending, worker.local + out);
          s := s.(workers := s.workers[w := after]);
        case Draining =>
          step := Workers.Combine(w);
          s := s.(global := s.global + worker.local, workers := s.workers[w := worker.(phase := Workers.Done, local := [])]);
      }
      Progress.StepMakesProgress(p, k, n, before, step, s);
      Workers.RunGoesOn(p, n, states, steps, step, s);
      states, steps := states + [s], steps + [step];
    }
    rows := s.global;
    Workers.RunInv(p, k, n, states, steps, |steps|);
    Workers.QuietIsJoined(s);
    ghost var joined := s.(main := Workers.Finalized(rows));
    Workers.RunGoesOn(p, n, states, steps, Workers.Join, joined);
    states, steps := states + [joined], steps + [Workers.Join];
  }

  /** Executor::Execute: builds the pipelines and runs one after the other. On a plan that is
      not safe the drain loop need not even end. */
  method Execute<V(!new)>(w: Plans.World<V>, engine: Engine<V>, threads: nat, root: Plans.Operator)
    returns (held: Plans.Held<V>, ghost traces: seq<Trace<V>>, ghost helds: seq<Plans.Held<V>>)
    requires Works(engine) && PlanShapes.SafePlan(root)
    requires root.ResultCollector? && Plans.Distinct(root) && Plans.NoCollector(root.child)
    ensures Ran(w, Plans.Build(root), traces, helds) && held == helds[|traces|]
    ensures PlanShapes.Settles(w, root) ==>
      && multiset(Plans.HeldBy(held, root.id)) == multiset(Plans.Evaluate(w, root))
      && (PlanShapes.InOrder(w, root.child) ==> Plans.HeldBy(held, root.id) == Plans.Evaluate(w, root))
  {
    var builder := new Plans.PipelineBuilder();
    var pipelines := builder.BuildAll(root);
    ghost var stages := Plans.Build(root);
    Plans.BuildIsScheduled(root);
    PlanShapes.SafePlanIff(root);
    held, traces, helds := map[], [], [map[]];
    var i := 0;
    while i < |pipelines|
      invariant 0 <= i <= |pipelines| == |stages| && |traces| == i && |helds| == i + 1
      invariant helds[0] == map[] && held == helds[i]
      invariant forall k :: 0 <= k < |pipelines| ==> pipelines[k].View() == stages[k]
      invariant forall k :: 0 <= k < i ==> IsStep(w, helds[k], stages[k], traces[k], helds[k + 1])
    {
      var s := pipelines[i].View();
      assert s == stages[i] && Plans.Ready(stages[i], stages[..i]);
      ghost var trace;
      held, trace := ExecutePipeline(w, engine, threads, s, held);
      traces, helds := traces + [trace], helds + [held];
      i := i + 1;
    }
    if PlanShapes.Settles(w, root) {
      EveryExecutionComputesPlan(w, root, traces, helds);
    }
  }

  /** The chunks of a source: one for each morsel the dispenser hands out, or slices of the
      materialized rows. */
  method SourceChunks<V(!new)>(w: Plans.World<V>, held: Plans.Held<V>, s: Plans.Stage) returns (chunks: seq<seq<seq<V>>>)
    requires s.source.Some?
    ensures Supplies(w, held, s, chunks)
  {
    if s.source.value.TableScan? {
      chunks := TableChunks(w.groups(s.source.value.id));
      ScanSupplies(w, held, s);
    } else {
      chunks := Results.Pulled(Plans.SourceRows(w, held, s.source.value), 0);
      EmitterSupplies(w, held, s);
    }
  }

  method TableChunks<Row(!new)>(groups: seq<seq<Row>>) returns (chunks: seq<seq<Row>>)
    ensures chunks == ScanChunks(groups, Morsels.Layout(Morsels.Counts(groups), 0))
  {
    var state := new Morsels.ParallelTableScanState(Morsels.Counts(groups));
    ghost var ms := state.morsels;
    chunks := [];
    var morsel, more := state.NextMorsel();
    while more
      invariant state.morsels == ms && 0 < state.next <= |ms| + 1 && |chunks| == state.next - 1
      invariant more <==> state.next <= |ms|
      invariant more ==> morsel == ms[state.next - 1]
      invariant chunks == ScanChunks(groups, ms[..state.next - 1])
      decreases |ms| + 1 - state.next
    {
      assert ms[..state.next] == ms[..state.next - 1] + [morsel];
      chunks := chunks + [Morsels.Slice(groups, morsel)];
      morsel, more := state.NextMorsel();
    }
    assert ms[..|ms|] == ms;
  }

  method ExecutePipeline<V(!new)>(w: Plans.World<V>, engine: Engine<V>, threads: nat, s: Plans.Stage, held0: Plans.Held<V>)
    returns (held: Plans.Held<V>, ghost trace: Trace<V>)
    requires Works(engine) && s.source.Some? && s.sink.Some? && Operators.Safe(Plans.StageKinds(s))
    ensures IsStep(w, held0, s, trace, held)
  {
    var ops := Kernels(w, held0, s, engine);
    var chunks := SourceChunks(w, held0, s);
    var n := Workers.ThreadCount(threads, MaxSourceThreads(s.source.value));
    KernelsRun(w, held0, s, engine);
    KindsAgree(w, held0, s);
    Restarts.SafeRestarts(ops, Plans.RowOperatorsOf(w, held0, s.operators));
    var rows;
    ghost var states, steps;
    rows, states, steps := RunPipeline(Workers.Pipeline(chunks, ops), n);
    trace := Trace(ops, chunks, threads, states, steps);
    held := held0[s.sink.value.id := w.finish(s.sink.value.id, rows)];
  }

}
