/** Cutting a physical plan into pipelines, and what running the pipelines computes. */
module Plans {
  import opened Common
  import opened Operators
  import opened Rows

  /** A physical operator; the id stands for the object's address. */
  datatype Operator =
    | TableScan(id: nat)
    | Filter(id: nat, child: Operator)
    | Projection(id: nat, child: Operator)
    | HashJoin(id: nat, left: Operator, right: Operator)
    | HashGroupBy(id: nat, child: Operator)
    | OrderBy(id: nat, child: Operator)
    | Limit(id: nat, child: Operator)
    | ResultCollector(id: nat, child: Operator)

  /** The contents of one Pipeline object. */
  datatype Stage = Stage(source: Option<Operator>, operators: seq<Operator>, sink: Option<Operator>)

  const FRESH := Stage(None, [], None)

  /** Operators that consume all their input before they produce anything. */
  predicate IsBreaker(op: Operator) { op.HashGroupBy? || op.OrderBy? || op.Limit? }

  /** The pipelines that BuildRecursive completes while it works on op, in order, and what it
      makes of the current one. */
  function Compile(op: Operator, current: Stage): (seq<Stage>, Stage) {
    match op
    case ResultCollector(_, child) => Compile(child, current.(sink := Some(op)))
    case TableScan(_) => ([], current.(source := Some(op)))
    case Filter(_, child) =>
      var (done, c) := Compile(child, current);
      (done, c.(operators := c.operators + [op]))
    case Projection(_, child) =>
      var (done, c) := Compile(child, current);
      (done, c.(operators := c.operators + [op]))
    case HashJoin(_, left, right) =>
      var (doneRight, build) := Compile(right, FRESH.(sink := Some(op)));
      var (doneLeft, c) := Compile(left, current);
      (doneRight + [build] + doneLeft, c.(operators := c.operators + [op]))
    case HashGroupBy(_, child) =>
      var (done, c) := Compile(child, FRESH.(sink := Some(op)));
      (done + [c], current.(source := Some(op)))
    case OrderBy(_, child) =>
      var (done, c) := Compile(child, FRESH.(sink := Some(op)));
      (done + [c], current.(source := Some(op)))
    case Limit(_, child) =>
      var (done, c) := Compile(child, FRESH.(sink := Some(op)));
      (done + [c], current.(source := Some(op)))
  }

  function Build(root: Operator): seq<Stage> {
    var (done, last) := Compile(root, FRESH);
    done + [last]
  }

  // ----- the builder itself

  class Pipeline {
    var source: Option<Operator>
    var operators: seq<Operator>
    var sink: Option<Operator>

    constructor ()
      ensures View() == FRESH
    {
      source, operators, sink := None, [], None;
    }

    function View(): Stage
      reads this
    {
      Stage(source, operators, sink)
    }
  }

  class PipelineBuilder {
    var pipelines: seq<Pipeline>

    constructor ()
      ensures pipelines == []
    {
      pipelines := [];
    }

    function Views(): (v: seq<Stage>)
      reads this, pipelines
      ensures |v| == |pipelines|
    {
      seq(|pipelines|, i requires 0 <= i < |pipelines| reads this, pipelines => pipelines[i].View())
    }

    method BuildRecursive(op: Operator, current: Pipeline)
      requires current !in pipelines
      modifies this, current
      ensures current !in pipelines && old(pipelines) <= pipelines
      ensures forall i :: |old(pipelines)| <= i < |pipelines| ==> fresh(pipelines[i])
      ensures Views() == old(Views()) + Compile(op, old(current.View())).0
      ensures current.View() == Compile(op, old(current.View())).1
      decreases op, 0
    {
      match op {
        case ResultCollector(_, child) =>
          current.sink := Some(op);
          BuildRecursive(child, current);
        case TableScan(_) =>
          current.source := Some(op);
        case Filter(_, child) =>
          BuildRecursive(child, current);
          current.operators := current.operators + [op];
        case Projection(_, child) =>
          BuildRecursive(child, current);
          current.operators := current.operators + [op];
        case HashJoin(_, left, right) =>
          BuildInto(right, op);
          BuildRecursive(left, current);
          current.operators := current.operators + [op];
        case HashGroupBy(_, child) =>
          BuildInto(child, op);
          current.source := Some(op);
        case OrderBy(_, child) =>
          BuildInto(child, op);
          current.source := Some(op);
        case Limit(_, child) =>
          BuildInto(child, op);
          current.source := Some(op);
      }
    }

    /** A pipeline of its own that drains child into the sink. */
    method BuildInto(child: Operator, sink: Operator)
      modifies this
      ensures old(pipelines) <= pipelines
      ensures forall i :: |old(pipelines)| <= i < |pipelines| ==> fresh(pipelines[i])
      ensures var (done, c) := Compile(child, FRESH.(sink := Some(sink))); Views() == old(Views()) + done + [c]
      decreases child, 1
    {
      var pipeline := new Pipeline();
      pipeline.sink := Some(sink);
      BuildRecursive(child, pipeline);
      pipelines := pipelines + [pipeline];
    }

    method BuildAll(root: Operator) returns (result: seq<Pipeline>)
      requires pipelines == []
      modifies this
      ensures |result| == |Build(root)| && forall i :: 0 <= i < |result| ==> result[i].View() == Build(root)[i]
    {
      var current := new Pipeline();
      BuildRecursive(root, current);
      pipelines := pipelines + [current];
      assert Views() == [] + Compile(root, FRESH).0 + [Compile(root, FRESH).1];
      assert Views() == Build(root);
      assert forall i :: 0 <= i < |pipelines| ==> Views()[i] == pipelines[i].View();
      result := pipelines;
      pipelines := [];
    }
  }

  // ----- meaning

  /** What the tables hold, row group by row group, and what the operators do with rows: a
      filter or a join key reads the leading columns up to its width, a probe looks into the
      rows the join holds, and a sink turns the rows it received into the rows it holds.
      Nothing is assumed of any of these functions. */
  datatype World<!V> = World(
    groups: nat -> seq<seq<seq<V>>>,
    width: nat -> nat,
    keep: nat -> seq<V> -> bool,
    compute: nat -> seq<V> -> seq<V>,
    matches: (nat, seq<seq<V>>) -> seq<V> -> seq<seq<V>>,
    finish: (nat, seq<seq<V>>) -> seq<seq<V>>)

  /** The rows of an operator, by direct recursion on the plan. */
  ghost function Evaluate<V(!new)>(w: World<V>, op: Operator): seq<seq<V>> {
    match op
    case TableScan(id) => Concat(w.groups(id))
    case Filter(id, child) => FlatMap(RowsOf(Filtering(w.width(id), w.keep(id))), Evaluate(w, child))
    case Projection(id, child) => FlatMap(RowsOf(Projecting(w.compute(id))), Evaluate(w, child))
    case HashJoin(id, left, right) =>
      FlatMap(RowsOf(Joining(w.width(id), w.matches(id, w.finish(id, Evaluate(w, right))))), Evaluate(w, left))
    case HashGroupBy(id, child) => w.finish(id, Evaluate(w, child))
    case OrderBy(id, child) => w.finish(id, Evaluate(w, child))
    case Limit(id, child) => w.finish(id, Evaluate(w, child))
    case ResultCollector(id, child) => w.finish(id, Evaluate(w, child))
  }

  // ----- what the rows of an operator are

  /** A filter keeps the rows whose leading columns pass, each as often as it was there; a
      projection computes one row from each, in order. */
  lemma StreamRows<V(!new)>(w: World<V>, op: Operator, row: seq<V>)
    requires op.Filter? || op.Projection?
    ensures op.Filter? ==>
      var passes := |row| >= w.width(op.id) && w.keep(op.id)(row[..w.width(op.id)]);
      multiset(Evaluate(w, op))[row] == if passes then multiset(Evaluate(w, op.child))[row] else 0
    ensures op.Projection? ==> var rows := Evaluate(w, op.child);
      |Evaluate(w, op)| == |rows| && forall i :: 0 <= i < |rows| ==> Evaluate(w, op)[i] == w.compute(op.id)(rows[i])
  {
    var rows := Evaluate(w, op.child);
    if op.Filter? {
      KeptAsOften(w.width(op.id), w.keep(op.id), rows, row);
    } else {
      FlatMapEach(RowsOf(Projecting(w.compute(op.id))), rows,
                  seq(|rows|, i requires 0 <= i < |rows| => w.compute(op.id)(rows[i])));
    }
  }

  /** The matches of a probe row are looked up by its leading columns in what the join has
      made of the right child's rows. */
  ghost predicate Joins<V(!new)>(w: World<V>, op: Operator, probe: seq<V>, build: seq<V>)
    requires op.HashJoin?
  {
    && |probe| >= w.width(op.id)
    && build in w.matches(op.id, w.finish(op.id, Evaluate(w, op.right)))(probe[..w.width(op.id)])
  }

  /** A join puts matching rows of its right child behind the rows of its left child. */
  lemma JoinRows<V(!new)>(w: World<V>, op: Operator, row: seq<V>)
    requires op.HashJoin?
    ensures row in Evaluate(w, op) <==>
            exists probe, build :: probe in Evaluate(w, op.left) && Joins(w, op, probe, build) && row == probe + build
  {
    var matches, width := w.matches(op.id, w.finish(op.id, Evaluate(w, op.right))), w.width(op.id);
    var f, rows := RowsOf(Joining(width, matches)), Evaluate(w, op.left);
    FlatMapHas(f, rows, row);
    forall probe: seq<V> ensures row in f(probe) <==> exists build :: Joins(w, op, probe, build) && row == probe + build {
      if |probe| >= width {
        FlatMapHas(Behind(probe), matches(probe[..width]), row);
        if build :| Joins(w, op, probe, build) && row == probe + build {
          var i :| 0 <= i < |matches(probe[..width])| && matches(probe[..width])[i] == build;
          assert row in Behind(probe)(matches(probe[..width])[i]);
        }
      }
    }
  }

  /** The rows each sink holds so far; a sink that has not run holds none. */
  type Held<V> = map<nat, seq<seq<V>>>

  function HeldBy<V>(h: Held<V>, id: nat): seq<seq<V>> {
    if id in h then h[id] else []
  }

  function SourceRows<V(!new)>(w: World<V>, h: Held<V>, source: Operator): seq<seq<V>> {
    if source.TableScan? then Concat(w.groups(source.id)) else HeldBy(h, source.id)
  }

  /** A streaming operator at work. */
  function RowOperatorOf<V(!new)>(w: World<V>, h: Held<V>, op: Operator): RowOperator<V> {
    if op.HashJoin? then Joining(w.width(op.id), w.matches(op.id, HeldBy(h, op.id)))
    else if op.Projection? then Projecting(w.compute(op.id))
    else Filtering(w.width(op.id), w.keep(op.id))
  }

  function RowOperatorsOf<V(!new)>(w: World<V>, h: Held<V>, ops: seq<Operator>): (os: seq<RowOperator<V>>)
    ensures |os| == |ops|
  {
    seq(|ops|, i requires 0 <= i < |ops| => RowOperatorOf(w, h, ops[i]))
  }

  function KindOfOperator(op: Operator): Kind {
    if op.HashJoin? then JOIN else if op.Projection? then PROJECTION else FILTER
  }

  function StageKinds(s: Stage): (kinds: seq<Kind>)
    ensures |kinds| == |s.operators|
  {
    seq(|s.operators|, i requires 0 <= i < |s.operators| => KindOfOperator(s.operators[i]))
  }

  /** The rows that come out at the end of a pipeline's operators, in source order. */
  function Flow<V(!new)>(w: World<V>, h: Held<V>, s: Stage): seq<seq<V>>
    requires s.source.Some?
  {
    Chain(RowsOfAll(RowOperatorsOf(w, h, s.operators)), SourceRows(w, h, s.source.value))
  }

  /** Pipeline::Execute: without a source it throws. */
  function RunStage<V(!new)>(w: World<V>, h: Held<V>, s: Stage): Option<Held<V>> {
    if s.source.None? then None
    else if s.sink.None? then Some(h)
    else Some(h[s.sink.value.id := w.finish(s.sink.value.id, Flow(w, h, s))])
  }

  /** Executor::Execute: the pipelines in list order. */
  function RunStages<V(!new)>(w: World<V>, h: Held<V>, stages: seq<Stage>): Option<Held<V>>
    decreases stages
  {
    if stages == [] then Some(h)
    else
      match RunStage(w, h, stages[0])
      case None => None
      case Some(h') => RunStages(w, h', stages[1..])
  }

  lemma {:induction false} RunAppend<V(!new)>(w: World<V>, h: Held<V>, a: seq<Stage>, b: seq<Stage>)
    ensures RunStages(w, h, a + b) ==
            (match RunStages(w, h, a) case None => None case Some(h') => RunStages(w, h', b))
    decreases a
  {
    if a == [] {
      assert a + b == b;
    } else {
      assert (a + b)[0] == a[0] && (a + b)[1..] == a[1..] + b;
      var r := RunStage(w, h, a[0]);
      if r.Some? {
        RunAppend(w, r.value, a[1..], b);
      }
    }
  }

  lemma RunOne<V(!new)>(w: World<V>, h: Held<V>, s: Stage)
    ensures RunStages(w, h, [s]) == RunStage(w, h, s)
  {
  }

  lemma {:induction false} ChainSnoc<Row(!new)>(fs: seq<Row -> seq<Row>>, f: Row -> seq<Row>, rows: seq<Row>)
    ensures Chain(fs + [f], rows) == FlatMap(f, Chain(fs, rows))
  {
    if fs == [] {
      assert (fs + [f])[1..] == [];
    } else {
      assert (fs + [f])[0] == fs[0] && (fs + [f])[1..] == fs[1..] + [f];
      ChainSnoc(fs[1..], f, FlatMap(fs[0], rows));
    }
  }

  lemma FlowSnoc<V(!new)>(w: World<V>, h: Held<V>, s: Stage, op: Operator)
    requires s.source.Some?
    ensures Flow(w, h, s.(operators := s.operators + [op])) == FlatMap(RowsOf(RowOperatorOf(w, h, op)), Flow(w, h, s))
  {
    var fs, f := RowsOfAll(RowOperatorsOf(w, h, s.operators)), RowsOf(RowOperatorOf(w, h, op));
    assert RowsOfAll(RowOperatorsOf(w, h, s.operators + [op])) == fs + [f];
    ChainSnoc(fs, f, SourceRows(w, h, s.source.value));
  }

  // ----- compiling preserves meaning

  ghost function Ids(op: Operator): set<nat> {
    match op
    case TableScan(id) => {id}
    case HashJoin(id, left, right) => {id} + Ids(left) + Ids(right)
    case _ => {op.id} + Ids(op.child)
  }

  /** Plan nodes are distinct objects. */
  ghost predicate Distinct(op: Operator) {
    match op
    case TableScan(_) => true
    case HashJoin(id, left, right) =>
      Distinct(left) && Distinct(right) && id !in Ids(left) && id !in Ids(right) && Ids(left) !! Ids(right)
    case _ => Distinct(op.child) && op.id !in Ids(op.child)
  }

  ghost predicate NoCollector(op: Operator) {
    match op
    case TableScan(_) => true
    case HashJoin(_, left, right) => NoCollector(left) && NoCollector(right)
    case ResultCollector(_, _) => false
    case _ => NoCollector(op.child)
  }

  ghost predicate AgreeOn<V(!new)>(a: Held<V>, b: Held<V>, ids: set<nat>) {
    forall id :: id in ids ==> HeldBy(a, id) == HeldBy(b, id)
  }

  ghost predicate AgreeOff<V(!new)>(a: Held<V>, b: Held<V>, ids: set<nat>) {
    forall id :: id !in ids ==> HeldBy(a, id) == HeldBy(b, id)
  }

  /** Running the completed pipelines from h leaves h' with which the unfinished pipeline,
      as long as nobody disturbs op's own sinks, yields the rows of op. */
  ghost predicate Delivers<V(!new)>(w: World<V>, op: Operator, h: Held<V>, h': Held<V>, c: Stage) {
    && c.source.Some?
    && AgreeOff(h, h', Ids(op))
    && forall later :: AgreeOn(h', later, Ids(op)) ==> Flow(w, later, c) == Evaluate(w, op)
  }

  lemma {:induction false} CompileDelivers<V(!new)>(w: World<V>, op: Operator, current: Stage, h: Held<V>)
    returns (h': Held<V>)
    requires Distinct(op) && NoCollector(op) && current.source == None && current.operators == []
    ensures var (done, c) := Compile(op, current);
      RunStages(w, h, done) == Some(h') && c.sink == current.sink && Delivers(w, op, h, h', c)
    decreases op, 1
  {
    var (done, c) := Compile(op, current);
    match op {
      case TableScan(_) =>
        h' := h;
      case Filter(_, child) =>
        h' := StreamDelivers(w, op, child, current, h);
      case Projection(_, child) =>
        h' := StreamDelivers(w, op, child, current, h);
      case HashJoin(id, left, right) =>
        h' := JoinDelivers(w, op, current, h);
      case HashGroupBy(id, child) =>
        h' := SinkDelivers(w, op, child, h);
      case OrderBy(id, child) =>
        h' := SinkDelivers(w, op, child, h);
      case Limit(id, child) =>
        h' := SinkDelivers(w, op, child, h);
    }
  }

  lemma {:induction false} StreamDelivers<V(!new)>(w: World<V>, op: Operator, child: Operator, current: Stage, h: Held<V>)
    returns (h': Held<V>)
    requires (op.Filter? || op.Projection?) && op.child == child
    requires Distinct(op) && NoCollector(op) && current.source == None && current.operators == []
    ensures var (done, c) := Compile(child, current);
      && RunStages(w, h, done) == Some(h') && c.sink == current.sink
      && Delivers(w, op, h, h', c.(operators := c.operators + [op]))
    decreases child, 2
  {
    var (done, c) := Compile(child, current);
    h' := CompileDelivers(w, child, current, h);
    forall later | AgreeOn(h', later, Ids(op))
      ensures Flow(w, later, c.(operators := c.operators + [op])) == Evaluate(w, op)
    {
      assert AgreeOn(h', later, Ids(child));
      FlowSnoc(w, later, c, op);
    }
  }

  /** A dedicated pipeline drains child into op, which from then on holds its rows. */
  lemma {:induction false} SinkRuns<V(!new)>(w: World<V>, op: Operator, child: Operator, h: Held<V>)
    returns (h': Held<V>)
    requires Distinct(child) && NoCollector(child) && op.id !in Ids(child)
    ensures var (done, c) := Compile(child, FRESH.(sink := Some(op)));
      RunStages(w, h, done + [c]) == Some(h')
    ensures AgreeOff(h, h', {op.id} + Ids(child)) && HeldBy(h', op.id) == w.finish(op.id, Evaluate(w, child))
    decreases child, 2
  {
    var (done, c) := Compile(child, FRESH.(sink := Some(op)));
    var h1 := CompileDelivers(w, child, FRESH.(sink := Some(op)), h);
    assert AgreeOn(h1, h1, Ids(child));
    h' := h1[op.id := w.finish(op.id, Evaluate(w, child))];
    RunAppend(w, h, done, [c]);
    RunOne(w, h1, c);
  }

  lemma {:induction false} SinkDelivers<V(!new)>(w: World<V>, op: Operator, child: Operator, h: Held<V>)
    returns (h': Held<V>)
    requires IsBreaker(op) && op.child == child && Distinct(op) && NoCollector(op)
    ensures var (done, c) := Compile(child, FRESH.(sink := Some(op)));
      RunStages(w, h, done + [c]) == Some(h')
    ensures forall current: Stage :: current.operators == [] ==>
      Delivers(w, op, h, h', current.(source := Some(op)))
    decreases child, 3
  {
    h' := SinkRuns(w, op, child, h);
    forall current: Stage, later | current.operators == [] && AgreeOn(h', later, Ids(op))
      ensures Flow(w, later, current.(source := Some(op))) == Evaluate(w, op)
    {
      assert op.id in Ids(op);
      assert RowOperatorsOf(w, later, []) == [] && RowsOfAll(RowOperatorsOf(w, later, [])) == [];
    }
  }

  lemma {:induction false} JoinDelivers<V(!new)>(w: World<V>, op: Operator, current: Stage, h: Held<V>)
    returns (h': Held<V>)
    requires op.HashJoin? && Distinct(op) && NoCollector(op) && current.source == None && current.operators == []
    ensures var (done, c) := Compile(op, current);
      RunStages(w, h, done) == Some(h') && c.sink == current.sink && Delivers(w, op, h, h', c)
    decreases op, 0
  {
    var (doneRight, build) := Compile(op.right, FRESH.(sink := Some(op)));
    var (doneLeft, c) := Compile(op.left, current);
    var h1 := SinkRuns(w, op, op.right, h);
    h' := CompileDelivers(w, op.left, current, h1);
    RunAppend(w, h, doneRight + [build], doneLeft);
    assert HeldBy(h', op.id) == HeldBy(h1, op.id);
    forall later | AgreeOn(h', later, Ids(op))
      ensures Flow(w, later, c.(operators := c.operators + [op])) == Evaluate(w, op)
    {
      assert op.id in Ids(op) && AgreeOn(h', later, Ids(op.left));
      FlowSnoc(w, later, c, op);
    }
  }

  /** Cutting into pipelines keeps the meaning: for every plan under a result collector and
      every meaning of its operators, pipelines that each pass on the chain of their row
      functions, run in list order, leave the collector with the rows of the plan. */
  lemma PipelinesComputePlan<V(!new)>(w: World<V>, root: Operator)
    requires root.ResultCollector? && Distinct(root) && NoCollector(root.child)
    ensures var r := RunStages(w, map[], Build(root));
      r.Some? && HeldBy(r.value, root.id) == Evaluate(w, root)
  {
    var (done, c) := Compile(root, FRESH);
    var h := SinkRuns(w, root, root.child, map[]);
  }

  // ----- the schedule

  datatype Role = AsSource | AsOperator | AsSink

  function One(b: bool): nat { if b then 1 else 0 }

  /** How often op plays the role in a pipeline, in a list of them, and how often it should. */
  ghost function StageRole(s: Stage, role: Role, op: Operator): nat {
    match role
    case AsSource => One(s.source == Some(op))
    case AsOperator => Occurrences(s.operators, op)
    case AsSink => One(s.sink == Some(op))
  }

  ghost function Occurrences(ops: seq<Operator>, op: Operator): nat {
    if ops == [] then 0 else Occurrences(ops[..|ops| - 1], op) + One(ops[|ops| - 1] == op)
  }

  ghost function AllRoles(stages: seq<Stage>, role: Role, op: Operator): nat {
    if stages == [] then 0 else AllRoles(stages[..|stages| - 1], role, op) + StageRole(stages[|stages| - 1], role, op)
  }

  ghost function NodeRoles(plan: Operator, role: Role, op: Operator): nat {
    One(plan == op && Plays(plan, role)) +
    match plan
    case TableScan(_) => 0
    case HashJoin(_, left, right) => NodeRoles(left, role, op) + NodeRoles(right, role, op)
    case _ => NodeRoles(plan.child, role, op)
  }

  predicate Plays(op: Operator, role: Role) {
    match role
    case AsSource => op.TableScan? || IsBreaker(op)
    case AsOperator => op.Filter? || op.Projection? || op.HashJoin?
    case AsSink => IsBreaker(op) || op.HashJoin? || op.ResultCollector?
  }

  lemma {:induction false} AllRolesAppend(a: seq<Stage>, b: seq<Stage>, role: Role, op: Operator)
    ensures AllRoles(a + b, role, op) == AllRoles(a, role, op) + AllRoles(b, role, op)
  {
    if b == [] {
      assert a + b == a;
    } else {
      var n := |b| - 1;
      AllRolesAppend(a, b[..n], role, op);
      assert (a + b)[..|a + b| - 1] == a + b[..n];
    }
  }

  lemma AllRolesOne(s: Stage, role: Role, op: Operator)
    ensures AllRoles([s], role, op) == StageRole(s, role, op)
  {
  }

  lemma RolesSnoc(s: Stage, last: Operator, role: Role, op: Operator)
    ensures StageRole(s.(operators := s.operators + [last]), role, op) ==
            StageRole(s, role, op) + One(role.AsOperator? && last == op)
  {
  }

  lemma SourceRole(s: Stage, source: Operator, role: Role, op: Operator)
    requires s.source == None
    ensures StageRole(s.(source := Some(source)), role, op) == StageRole(s, role, op) + One(role.AsSource? && source == op)
  {
  }

  /** The roles of a plan's root beside those of the plans below it. */
  lemma RootRoles(plan: Operator, role: Role, op: Operator)
    ensures plan.TableScan? ==> NodeRoles(plan, role, op) == One(role.AsSource? && plan == op)
    ensures plan.Filter? || plan.Projection? ==>
      NodeRoles(plan, role, op) == NodeRoles(plan.child, role, op) + One(role.AsOperator? && plan == op)
    ensures plan.HashJoin? ==>
      NodeRoles(plan, role, op) == NodeRoles(plan.left, role, op) + NodeRoles(plan.right, role, op) +
                                   One(role.AsOperator? && plan == op) + One(role.AsSink? && plan == op)
    ensures IsBreaker(plan) ==>
      NodeRoles(plan, role, op) == NodeRoles(plan.child, role, op) + One(role.AsSource? && plan == op) + One(role.AsSink? && plan == op)
  {
  }

  lemma {:induction false} CompileRoles(plan: Operator, current: Stage, role: Role, op: Operator)
    requires NoCollector(plan) && current.source == None && current.operators == []
    ensures var (done, c) := Compile(plan, current);
      AllRoles(done, role, op) + StageRole(c, role, op) == NodeRoles(plan, role, op) + StageRole(current, role, op)
    decreases plan, 0
  {
    hide NodeRoles, AllRoles, StageRole, One;
    NoRoles(role, op);
    RootRoles(plan, role, op);
    SourceRole(current, plan, role, op);
    match plan {
      case TableScan(_) =>
      case Filter(_, child) =>
        CompileRoles(child, current, role, op);
        RolesSnoc(Compile(child, current).1, plan, role, op);
      case Projection(_, child) =>
        CompileRoles(child, current, role, op);
        RolesSnoc(Compile(child, current).1, plan, role, op);
      case HashJoin(_, left, right) =>
        var (doneRight, build) := Compile(right, FRESH.(sink := Some(plan)));
        var (doneLeft, c) := Compile(left, current);
        SinkRoles(plan, right, role, op);
        CompileRoles(left, current, role, op);
        AllRolesAppend(doneRight + [build], doneLeft, role, op);
        RolesSnoc(c, plan, role, op);
      case HashGroupBy(_, child) => SinkRoles(plan, child, role, op);
      case OrderBy(_, child) => SinkRoles(plan, child, role, op);
      case Limit(_, child) => SinkRoles(plan, child, role, op);
    }
  }

  lemma NoRoles(role: Role, op: Operator)
    ensures AllRoles([], role, op) == 0
  {
  }

  lemma {:induction false} SinkRoles(sink: Operator, child: Operator, role: Role, op: Operator)
    requires NoCollector(child)
    ensures var (done, c) := Compile(child, FRESH.(sink := Some(sink)));
      AllRoles(done + [c], role, op) == NodeRoles(child, role, op) + One(role.AsSink? && sink == op)
    decreases child, 1
  {
    var (done, c) := Compile(child, FRESH.(sink := Some(sink)));
    hide NodeRoles, AllRoles, StageRole, One;
    FreshRole(sink, role, op);
    CompileRoles(child, FRESH.(sink := Some(sink)), role, op);
    AllRolesAppend(done, [c], role, op);
    AllRolesOne(c, role, op);
  }

  lemma FreshRole(sink: Operator, role: Role, op: Operator)
    ensures StageRole(FRESH.(sink := Some(sink)), role, op) == One(role.AsSink? && sink == op)
  {
  }

  /** Every node of the plan takes each of its roles once for each time it occurs, so exactly
      once when the nodes are distinct, and nothing else appears in any pipeline. */
  lemma EveryRoleOnce(root: Operator, role: Role, op: Operator)
    requires root.ResultCollector? && NoCollector(root.child)
    ensures AllRoles(Build(root), role, op) == NodeRoles(root, role, op)
  {
    SinkRoles(root, root.child, role, op);
    var (done, c) := Compile(root.child, FRESH.(sink := Some(root)));
    assert Build(root) == done + [c];
    assert One(root == op && Plays(root, role)) == One(role.AsSink? && root == op);
  }

  lemma {:induction false} NodeRolesAbsent(plan: Operator, role: Role, op: Operator)
    requires op.id !in Ids(plan)
    ensures NodeRoles(plan, role, op) == 0
  {
    match plan
    case TableScan(_) =>
    case HashJoin(_, left, right) =>
      NodeRolesAbsent(left, role, op);
      NodeRolesAbsent(right, role, op);
    case _ => NodeRolesAbsent(plan.child, role, op);
  }

  lemma {:induction false} DistinctRoles(plan: Operator, role: Role, op: Operator)
    requires Distinct(plan)
    ensures NodeRoles(plan, role, op) <= 1
    ensures NodeRoles(plan, role, op) == 1 ==> Plays(op, role) && op.id in Ids(plan)
  {
    match plan
    case TableScan(_) =>
    case HashJoin(_, left, right) =>
      DistinctRoles(left, role, op);
      DistinctRoles(right, role, op);
      if op.id !in Ids(left) {
        NodeRolesAbsent(left, role, op);
      }
      if op.id !in Ids(right) {
        NodeRolesAbsent(right, role, op);
      }
    case _ =>
      DistinctRoles(plan.child, role, op);
      if op.id !in Ids(plan.child) {
        NodeRolesAbsent(plan.child, role, op);
      }
  }

  /** The sinks of the first k pipelines. */
  ghost predicate SunkBefore(stages: seq<Stage>, k: nat, op: Operator)
    requires k <= |stages|
  {
    exists j :: 0 <= j < k && stages[j].sink == Some(op)
  }

  /** What pipeline s reads has been completed by then. */
  ghost predicate Ready(s: Stage, before: seq<Stage>) {
    && s.source.Some? && s.sink.Some?
    && (!s.source.value.TableScan? ==> IsBreaker(s.source.value) && SunkBefore(before, |before|, s.source.value))
    && forall i :: 0 <= i < |s.operators| && s.operators[i].HashJoin? ==> SunkBefore(before, |before|, s.operators[i])
  }

  ghost predicate Scheduled(stages: seq<Stage>) {
    forall k :: 0 <= k < |stages| ==> Ready(stages[k], stages[..k])
  }

  lemma ReadyLater(s: Stage, before: seq<Stage>, more: seq<Stage>, also: seq<Stage>)
    requires Ready(s, before)
    ensures Ready(s, more + before) && Ready(s, before + also)
  {
    forall op | SunkBefore(before, |before|, op)
      ensures SunkBefore(more + before, |more + before|, op) && SunkBefore(before + also, |before + also|, op)
    {
      var j :| 0 <= j < |before| && before[j].sink == Some(op);
      assert (more + before)[|more| + j] == before[j] == (before + also)[j];
    }
  }

  lemma ScheduledAppend(a: seq<Stage>, b: seq<Stage>)
    requires Scheduled(a) && Scheduled(b)
    ensures Scheduled(a + b)
  {
    forall k | 0 <= k < |a + b| ensures Ready((a + b)[k], (a + b)[..k]) {
      if k < |a| {
        assert (a + b)[..k] == a[..k];
      } else {
        assert (a + b)[..k] == a + b[..k - |a|];
        ReadyLater(b[k - |a|], b[..k - |a|], a, []);
      }
    }
  }

  lemma ScheduledSnoc(a: seq<Stage>, s: Stage)
    requires Scheduled(a) && Ready(s, a)
    ensures Scheduled(a + [s])
  {
    forall k | 0 <= k < |a + [s]| ensures Ready((a + [s])[k], (a + [s])[..k]) {
      assert (a + [s])[..k] == a[..k];
      assert k == |a| ==> a[..k] == a;
    }
  }

  lemma {:induction false} CompileSchedules(op: Operator, current: Stage)
    requires NoCollector(op) && current.source == None && current.operators == [] && current.sink.Some?
    ensures var (done, c) := Compile(op, current);
      Scheduled(done) && Ready(c, done) && c.sink == current.sink
    decreases op, 0
  {
    match op {
      case TableScan(_) =>
      case Filter(_, child) => CompileSchedules(child, current);
      case Projection(_, child) => CompileSchedules(child, current);
      case HashJoin(_, left, right) =>
        var (doneRight, build) := Compile(right, FRESH.(sink := Some(op)));
        var (doneLeft, c) := Compile(left, current);
        SinkSchedules(op, right);
        CompileSchedules(left, current);
        ScheduledAppend(doneRight + [build], doneLeft);
        ReadyLater(c, doneLeft, doneRight + [build], []);
        assert (doneRight + [build] + doneLeft)[|doneRight|] == build;
      case HashGroupBy(_, child) => SinkSchedules(op, child);
      case OrderBy(_, child) => SinkSchedules(op, child);
      case Limit(_, child) => SinkSchedules(op, child);
    }
  }

  lemma {:induction false} SinkSchedules(op: Operator, child: Operator)
    requires NoCollector(child)
    ensures var (done, c) := Compile(child, FRESH.(sink := Some(op)));
      Scheduled(done + [c]) && (done + [c])[|done|].sink == Some(op)
    decreases child, 1
  {
    var (done, c) := Compile(child, FRESH.(sink := Some(op)));
    CompileSchedules(child, FRESH.(sink := Some(op)));
    ScheduledSnoc(done, c);
  }

  /** Every pipeline has a source and a sink, and whatever it reads from was filled by a
      strictly earlier one. */
  lemma BuildIsScheduled(root: Operator)
    requires root.ResultCollector? && NoCollector(root.child)
    ensures Scheduled(Build(root))
  {
    SinkSchedules(root, root.child);
  }
}
