/** Turning logical plans into physical ones. Only one case does more than rename: a filter
    directly above a table scan hands the scan its pushable conjuncts, and stays. */
module PlanGenerator {
  import opened Common
  import opened Pushdown
  import opened Rows

  datatype Kind = PROJECTION | AGGREGATE | ORDER | LIMIT

  datatype Logical =
    | Get(table: nat, columnIds: seq<nat>)
    | LogicalFilter(where: Expression, child: Logical)
    | LogicalUnary(kind: Kind, arguments: nat, child: Logical)
    | LogicalJoin(arguments: nat, left: Logical, right: Logical)

  datatype Physical =
    | TableScan(table: nat, columnIds: seq<nat>, filters: seq<TableFilter>)
    | PhysicalFilter(where: Expression, child: Physical)
    | PhysicalUnary(kind: Kind, arguments: nat, child: Physical)
    | HashJoin(arguments: nat, left: Physical, right: Physical)

  function CreatePlan(op: Logical): Physical {
    match op
    case Get(table, columnIds) => TableScan(table, columnIds, [])
    case LogicalFilter(where, child) =>
      var plan := CreatePlan(child);
      PhysicalFilter(where,
                     if plan.TableScan? then plan.(filters := FiltersOf(Conjuncts(where), plan.columnIds)) else plan)
    case LogicalUnary(kind, arguments, child) => PhysicalUnary(kind, arguments, CreatePlan(child))
    case LogicalJoin(arguments, left, right) => HashJoin(arguments, CreatePlan(left), CreatePlan(right))
  }

  /** The stored tables with their zone maps, and whatever the other operators compute, if
      they do not throw. */
  datatype Database = Database(
    tables: nat -> Table,
    mayMatch: nat -> (nat, TableFilter) -> bool,
    unary: (Kind, nat, seq<Row>) -> Option<seq<Row>>,
    join: (nat, seq<Row>, seq<Row>) -> Option<seq<Row>>)

  function Apply(f: seq<Row> -> Option<seq<Row>>, rows: Option<seq<Row>>): Option<seq<Row>> {
    match rows
    case None => None
    case Some(r) => f(r)
  }

  /** The rows a logical plan stands for, or an error: scans read everything. */
  ghost function Meaning(db: Database, op: Logical): Option<seq<Row>> {
    match op
    case Get(t, columnIds) => Some(Outputs(columnIds, Concat(db.tables(t))))
    case LogicalFilter(where, child) => Apply(r => Filtered(where, r), Meaning(db, child))
    case LogicalUnary(kind, arguments, child) => Apply(r => db.unary(kind, arguments, r), Meaning(db, child))
    case LogicalJoin(arguments, left, right) =>
      var r := Meaning(db, right);
      if r.None? then None else Apply(l => db.join(arguments, l, r.value), Meaning(db, left))
  }

  /** The rows a physical plan computes, or an error: scans skip row groups. */
  ghost function Execution(db: Database, plan: Physical): Option<seq<Row>> {
    match plan
    case TableScan(t, columnIds, filters) => Some(Outputs(columnIds, Scan(db.tables(t), filters, db.mayMatch(t), 0)))
    case PhysicalFilter(where, child) => Apply(r => Filtered(where, r), Execution(db, child))
    case PhysicalUnary(kind, arguments, child) => Apply(r => db.unary(kind, arguments, r), Execution(db, child))
    case HashJoin(arguments, left, right) =>
      var r := Execution(db, right);
      if r.None? then None else Apply(l => db.join(arguments, l, r.value), Execution(db, left))
  }

  /** Sound zone maps, and a row for each pushed filter in every row group with a selected row. */
  ghost predicate Trustworthy(db: Database, op: Logical) {
    match op
    case Get(t, _) => SoundZoneMap(db.tables(t), db.mayMatch(t))
    case LogicalFilter(where, child) =>
      Trustworthy(db, child) && (child.Get? ==> Witnessed(db.tables(child.table), where, child.columnIds))
    case LogicalUnary(_, _, child) => Trustworthy(db, child)
    case LogicalJoin(_, left, right) => Trustworthy(db, left) && Trustworthy(db, right)
  }

  /** Some scan of the plan skips a row that would have made the filter above it throw. */
  ghost predicate HidesErrors(db: Database, op: Logical) {
    match op
    case Get(_, _) => false
    case LogicalFilter(where, child) =>
      if child.Get? then HidesError(db.tables(child.table), where, child.columnIds, db.mayMatch(child.table), 0)
      else HidesErrors(db, child)
    case LogicalUnary(_, _, child) => HidesErrors(db, child)
    case LogicalJoin(_, left, right) => HidesErrors(db, left) || HidesErrors(db, right)
  }

  /** Every plan: whenever the logical plan has a result, the physical one computes it, row by
      row in the same order; and what the physical plan computes is the logical plan's result
      exactly when no scan hides an error. */
  lemma {:induction false} CreatePlanPreservesMeaning(db: Database, op: Logical)
    requires Trustworthy(db, op)
    ensures Meaning(db, op).Some? ==> Execution(db, CreatePlan(op)) == Meaning(db, op)
    ensures Execution(db, CreatePlan(op)).Some? ==>
      (Execution(db, CreatePlan(op)) == Meaning(db, op) <==> !HidesErrors(db, op))
  {
    match op
    case Get(t, _) =>
      assert db.tables(t)[0..] == db.tables(t);
      NoFilterReadsAll(db.tables(t), db.mayMatch(t), 0);
    case LogicalFilter(where, child) =>
      CreatePlanPreservesMeaning(db, child);
      if child.Get? {
        var t := child.table;
        assert db.tables(t)[0..] == db.tables(t);
        PruningAgreesIff(db.tables(t), where, child.columnIds, db.mayMatch(t), 0);
      }
    case LogicalUnary(_, _, child) => CreatePlanPreservesMeaning(db, child);
    case LogicalJoin(_, left, right) =>
      CreatePlanPreservesMeaning(db, left);
      CreatePlanPreservesMeaning(db, right);
  }

  /** A filter keeps its whole condition; a scan directly below it is handed a filter for each
      conjunct that compares a column with a constant, and no other operator is touched. */
  lemma CreatePlanPushes(where: Expression, child: Logical)
    ensures var plan := CreatePlan(LogicalFilter(where, child));
      && plan.PhysicalFilter? && plan.where == where
      && (!child.Get? ==> plan.child == CreatePlan(child))
      && (child.Get? ==>
            && plan.child.TableScan? && plan.child.table == child.table && plan.child.columnIds == child.columnIds
            && forall f :: f in plan.child.filters <==>
                 exists i :: 0 <= i < |Conjuncts(where)| && FilterOf(Conjuncts(where)[i], child.columnIds) == Some(f))
  {
    if child.Get? {
      forall f
        ensures f in FiltersOf(Conjuncts(where), child.columnIds) <==>
                exists i :: 0 <= i < |Conjuncts(where)| && FilterOf(Conjuncts(where)[i], child.columnIds) == Some(f)
      {
        FiltersAre(Conjuncts(where), child.columnIds, f);
      }
    }
  }
}
