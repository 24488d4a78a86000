/** Which shapes the pipelines of a plan have: how filters, projections and joins stand in them,
    what feeds a LIMIT, and that no two of them share a sink. */
module PlanShapes {
  import opened Common
  import opened Operators
  import opened Plans

  // ----- which pipelines lose no row

  /** The streaming operators between op's rows and the source they come from, op included. */
  function Feed(op: Operator): seq<Kind> {
    match op
    case Filter(_, child) => Feed(child) + [FILTER]
    case Projection(_, child) => Feed(child) + [PROJECTION]
    case HashJoin(_, left, _) => Feed(left) + [JOIN]
    case _ => []
  }

  /** What feeds a sink is arranged safely: at most one join stands between the sink and the
      source, and it comes first, or there is no filter, or it comes last and there is no
      projection. */
  predicate SafePlan(op: Operator) {
    match op
    case TableScan(_) => true
    case Filter(_, child) => SafePlan(child)
    case Projection(_, child) => SafePlan(child)
    case HashJoin(_, left, right) => SafePlan(left) && Safe(Feed(right)) && SafePlan(right)
    case _ => Safe(Feed(op.child)) && SafePlan(op.child)
  }

  predicate AllSafe(stages: seq<Stage>) {
    forall i :: 0 <= i < |stages| ==> Safe(StageKinds(stages[i]))
  }

  lemma KindsSnoc(s: Stage, op: Operator)
    ensures StageKinds(s.(operators := s.operators + [op])) == StageKinds(s) + [KindOfOperator(op)]
  {
  }

  lemma AllSafeAppend(a: seq<Stage>, b: seq<Stage>)
    ensures AllSafe(a + b) <==> AllSafe(a) && AllSafe(b)
  {
    assert forall i :: 0 <= i < |a| ==> (a + b)[i] == a[i];
    assert forall i :: 0 <= i < |b| ==> (a + b)[|a| + i] == b[i];
  }

  lemma {:induction false} CompileSafe(op: Operator, current: Stage)
    requires NoCollector(op) && current.operators == []
    ensures var (done, c) := Compile(op, current); StageKinds(c) == Feed(op) && (AllSafe(done) <==> SafePlan(op))
    decreases op, 0
  {
    hide Safe, StageKinds, AllSafe;
    match op {
      case TableScan(_) => NoKinds(current.(source := Some(op)));
      case Filter(_, child) =>
        CompileSafe(child, current);
        KindsSnoc(Compile(child, current).1, op);
      case Projection(_, child) =>
        CompileSafe(child, current);
        KindsSnoc(Compile(child, current).1, op);
      case HashJoin(_, left, right) =>
        SinkSafe(op, right);
        CompileSafe(left, current);
        var (doneRight, build) := Compile(right, FRESH.(sink := Some(op)));
        var (doneLeft, c) := Compile(left, current);
        AllSafeAppend(doneRight + [build], doneLeft);
        KindsSnoc(c, op);
      case HashGroupBy(_, child) =>
        SinkSafe(op, child);
        NoKinds(current.(source := Some(op)));
      case OrderBy(_, child) =>
        SinkSafe(op, child);
        NoKinds(current.(source := Some(op)));
      case Limit(_, child) =>
        SinkSafe(op, child);
        NoKinds(current.(source := Some(op)));
    }
  }

  lemma NoKinds(s: Stage)
    requires s.operators == []
    ensures StageKinds(s) == [] && AllSafe([])
  {
  }

  lemma {:induction false} SinkSafe(sink: Operator, child: Operator)
    requires NoCollector(child)
    ensures var (done, c) := Compile(child, FRESH.(sink := Some(sink)));
      AllSafe(done + [c]) <==> SafePlan(child) && Safe(Feed(child))
    decreases child, 1
  {
    var (done, c) := Compile(child, FRESH.(sink := Some(sink)));
    CompileSafe(child, FRESH.(sink := Some(sink)));
    AllSafeAppend(done, [c]);
    OneIsSafe(c);
  }

  lemma OneIsSafe(s: Stage)
    ensures AllSafe([s]) <==> Safe(StageKinds(s))
  {
    assert AllSafe([s]) ==> Safe(StageKinds([s][0]));
  }

  /** All pipelines of a plan are arranged safely exactly when the plan is. */
  lemma SafePlanIff(root: Operator)
    requires root.ResultCollector? && NoCollector(root.child)
    ensures AllSafe(Build(root)) <==> SafePlan(root)
  {
    SinkSafe(root, root.child);
    var (done, c) := Compile(root.child, FRESH.(sink := Some(root)));
    assert Build(root) == done + [c];
  }

  // ----- the plans of SELECT statements

  /** What the binder makes of FROM and WHERE: a table or a join of two tables, filtered or
      not. */
  predicate FromPlan(op: Operator) {
    match op
    case TableScan(_) => true
    case HashJoin(_, left, right) => left.TableScan? && right.TableScan?
    case Filter(_, child) => !child.Filter? && FromPlan(child)
    case _ => false
  }

  /** And of a whole statement: LIMIT over ORDER BY over the select list, over an aggregation
      or not. */
  predicate SelectPlan(op: Operator) {
    match op
    case Limit(_, child) => SelectPlan(child)
    case OrderBy(_, child) => SelectPlan(child)
    case Projection(_, child) => FromPlan(if child.HashGroupBy? then child.child else child)
    case _ => false
  }

  lemma {:induction false} FromPlansAreSafe(op: Operator)
    requires FromPlan(op)
    ensures SafePlan(op) && NoCollector(op) && |Feed(op)| <= 2 && (forall i :: 1 <= i < |Feed(op)| ==> Feed(op)[i] == FILTER)
  {
    match op
    case Filter(_, child) =>
      FromPlansAreSafe(child);
    case _ =>
  }

  /** A chain that is led by its only join, if it has one, is safe whatever follows. */
  lemma LeadingJoinIsSafe(kinds: seq<Kind>)
    requires forall i :: 1 <= i < |kinds| ==> kinds[i] != JOIN
    ensures Safe(kinds)
  {
  }

  /** The WHERE clause stays above the join, so in the plan of a SELECT statement the join
      leads its pipeline: none of these plans loses a row. */
  lemma {:induction false} SelectPlansAreSafe(op: Operator)
    requires SelectPlan(op)
    ensures SafePlan(op) && Safe(Feed(op)) && NoCollector(op)
  {
    if op.Projection? {
      var from := if op.child.HashGroupBy? then op.child.child else op.child;
      FromPlansAreSafe(from);
      LeadingJoinIsSafe(Feed(from));
      LeadingJoinIsSafe(Feed(op));
    } else {
      SelectPlansAreSafe(op.child);
      assert Feed(op) == [];
    }
  }

  // ----- one sink, one pipeline

  ghost predicate OwnSinks(stages: seq<Stage>, ids: set<nat>) {
    && (forall i :: 0 <= i < |stages| ==> stages[i].sink.Some? && stages[i].sink.value.id in ids)
    && (forall i, j :: 0 <= i < j < |stages| ==> stages[i].sink.value.id != stages[j].sink.value.id)
  }

  lemma {:induction false} CompileSinks(op: Operator, current: Stage)
    requires Distinct(op) && NoCollector(op)
    ensures OwnSinks(Compile(op, current).0, Ids(op)) && Compile(op, current).1.sink == current.sink
    decreases op, 0
  {
    match op {
      case TableScan(_) =>
      case Filter(_, child) => CompileSinks(child, current);
      case Projection(_, child) => CompileSinks(child, current);
      case HashJoin(_, left, right) =>
        SinkSinks(op, right);
        CompileSinks(left, current);
        var (doneRight, build) := Compile(right, FRESH.(sink := Some(op)));
        var doneLeft := Compile(left, current).0;
        assert forall i :: 0 <= i < |doneLeft| ==> (doneRight + [build] + doneLeft)[|doneRight| + 1 + i] == doneLeft[i];
      case HashGroupBy(_, child) => SinkSinks(op, child);
      case OrderBy(_, child) => SinkSinks(op, child);
      case Limit(_, child) => SinkSinks(op, child);
    }
  }

  lemma {:induction false} SinkSinks(sink: Operator, child: Operator)
    requires Distinct(child) && NoCollector(child) && sink.id !in Ids(child)
    ensures var (done, c) := Compile(child, FRESH.(sink := Some(sink))); OwnSinks(done + [c], Ids(child) + {sink.id})
    decreases child, 1
  {
    CompileSinks(child, FRESH.(sink := Some(sink)));
  }

  lemma BuildOwnsSinks(root: Operator)
    requires root.ResultCollector? && Distinct(root) && NoCollector(root.child)
    ensures OwnSinks(Build(root), Ids(root))
  {
    SinkSinks(root, root.child);
    var (done, c) := Compile(root.child, FRESH.(sink := Some(root)));
    assert Build(root) == done + [c];
  }

  // ----- what does not depend on the order in which rows arrive

  /** The sink turns the same bag of rows into the same bag of rows. */
  ghost predicate SinkBlind<V(!new)>(w: World<V>, id: nat) {
    forall a, b :: multiset(a) == multiset(b) ==> multiset(w.finish(id, a)) == multiset(w.finish(id, b))
  }

  /** The sink brings the same bag of rows into one and the same order. */
  ghost predicate Sorts<V(!new)>(w: World<V>, id: nat) {
    forall a, b :: multiset(a) == multiset(b) ==> w.finish(id, a) == w.finish(id, b)
  }

  /** A probe finds the same bag of matches in the same bag of build rows. */
  ghost predicate ProbeBlind<V(!new)>(w: World<V>, id: nat) {
    forall a, b, row :: multiset(a) == multiset(b) ==> multiset(w.matches(id, a)(row)) == multiset(w.matches(id, b)(row))
  }

  /** The operator's rows come in an order that the data alone determine: from a sort without
      ties or from a LIMIT, with at most filters and projections on the way. */
  ghost predicate InOrder<V(!new)>(w: World<V>, op: Operator) {
    match op
    case OrderBy(id, _) => Sorts(w, id)
    case Limit(_, _) => true
    case Filter(_, child) => InOrder(w, child)
    case Projection(_, child) => InOrder(w, child)
    case _ => false
  }

  /** Every sink but LIMIT looks at bags only, and what a LIMIT cuts off is in order. */
  ghost predicate Settles<V(!new)>(w: World<V>, op: Operator) {
    match op
    case TableScan(_) => true
    case Filter(_, child) => Settles(w, child)
    case Projection(_, child) => Settles(w, child)
    case HashJoin(id, left, right) => SinkBlind(w, id) && ProbeBlind(w, id) && Settles(w, left) && Settles(w, right)
    case Limit(_, child) => InOrder(w, child) && Settles(w, child)
    case _ => SinkBlind(w, op.id) && Settles(w, op.child)
  }

  /** The same of a source, of a pipeline and of a list of pipelines. */
  ghost predicate SourceInOrder<V(!new)>(w: World<V>, source: Operator) {
    source.Limit? || (source.OrderBy? && Sorts(w, source.id))
  }

  ghost predicate StageInOrder<V(!new)>(w: World<V>, s: Stage) {
    && s.source.Some? && SourceInOrder(w, s.source.value)
    && forall i :: 0 <= i < |s.operators| ==> !s.operators[i].HashJoin?
  }

  ghost predicate ProbesSettle<V(!new)>(w: World<V>, s: Stage) {
    forall i :: 0 <= i < |s.operators| && s.operators[i].HashJoin? ==> ProbeBlind(w, s.operators[i].id)
  }

  ghost predicate StageSettles<V(!new)>(w: World<V>, s: Stage) {
    && ProbesSettle(w, s) && s.sink.Some?
    && if s.sink.value.Limit? then StageInOrder(w, s) else SinkBlind(w, s.sink.value.id)
  }

  ghost predicate AllSettle<V(!new)>(w: World<V>, stages: seq<Stage>) {
    forall i :: 0 <= i < |stages| ==> StageSettles(w, stages[i])
  }

  lemma {:induction false} CompileSettles<V(!new)>(w: World<V>, op: Operator, current: Stage)
    requires Settles(w, op) && NoCollector(op) && current.operators == []
    ensures var (done, c) := Compile(op, current);
      AllSettle(w, done) && ProbesSettle(w, c) && c.sink == current.sink && (InOrder(w, op) ==> StageInOrder(w, c))
    decreases op, 0
  {
    match op {
      case TableScan(_) =>
      case Filter(_, child) => CompileSettles(w, child, current);
      case Projection(_, child) => CompileSettles(w, child, current);
      case HashJoin(_, left, right) =>
        SinkSettles(w, op, right);
        CompileSettles(w, left, current);
      case HashGroupBy(_, child) => SinkSettles(w, op, child);
      case OrderBy(_, child) => SinkSettles(w, op, child);
      case Limit(_, child) => SinkSettles(w, op, child);
    }
  }

  lemma {:induction false} SinkSettles<V(!new)>(w: World<V>, sink: Operator, child: Operator)
    requires Settles(w, child) && NoCollector(child)
    requires if sink.Limit? then InOrder(w, child) else SinkBlind(w, sink.id)
    ensures var (done, c) := Compile(child, FRESH.(sink := Some(sink))); AllSettle(w, done + [c])
    ensures InOrder(w, child) ==> StageInOrder(w, Compile(child, FRESH.(sink := Some(sink))).1)
    decreases child, 1
  {
    CompileSettles(w, child, FRESH.(sink := Some(sink)));
  }

  lemma BuildSettles<V(!new)>(w: World<V>, root: Operator)
    requires root.ResultCollector? && NoCollector(root.child) && Settles(w, root)
    ensures AllSettle(w, Build(root))
    ensures InOrder(w, root.child) ==> Build(root) != [] && StageInOrder(w, Build(root)[|Build(root)| - 1])
  {
    SinkSettles(w, root, root.child);
    var (done, c) := Compile(root.child, FRESH.(sink := Some(root)));
    assert Build(root) == done + [c];
  }
}
