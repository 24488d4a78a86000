/** Pushing `column CMP constant` conjuncts of a WHERE clause down to the table scan, where
    zone maps may skip whole row groups. */
module Pushdown {
  import opened Common
  import opened Values
  import opened Rows
  import opened ValueOrder

  type Row = seq<Value>

  /** A bound expression. Arithmetic, casts and functions are opaque: any function of the
      row, which may also fail. */
  datatype Expression =
    | ColumnRef(index: nat)
    | Constant(value: Value)
    | Compare(comparison: Comparison, left: Expression, right: Expression)
    | And(left: Expression, right: Expression)
    | Or(left: Expression, right: Expression)
    | Opaque(eval: Row -> Option<Value>)

  /** A value taken as a condition: NULL counts as false, and anything but a boolean is an
      error. */
  function Truth(v: Value): Option<bool> {
    if v.Null? then Some(false) else if v.Boolean? then Some(v.b) else None
  }

  function Both(l: Option<Value>, r: Option<Value>, combine: (bool, bool) -> bool): Option<Value> {
    if l.None? || r.None? || Truth(l.value).None? || Truth(r.value).None? then None
    else Some(Boolean(combine(Truth(l.value).value, Truth(r.value).value)))
  }

  /** The value of an expression on a row; None when the executor throws. A comparison with
      NULL is NULL. AND and OR evaluate both sides. */
  function Evaluate(e: Expression, row: Row): Option<Value> {
    match e
    case ColumnRef(i) => if i < |row| then Some(row[i]) else None
    case Constant(v) => Some(v)
    case Compare(comparison, left, right) =>
      (match (Evaluate(left, row), Evaluate(right, row))
       case (Some(l), Some(r)) =>
         if l.Null? || r.Null? then Some(Null(BOOLEAN))
         else (match EvaluateComparison(comparison, l, r) case Some(b) => Some(Boolean(b)) case None => None)
       case _ => None)
    case And(left, right) => Both(Evaluate(left, row), Evaluate(right, row), (a, b) => a && b)
    case Or(left, right) => Both(Evaluate(left, row), Evaluate(right, row), (a, b) => a || b)
    case Opaque(eval) => eval(row)
  }

  /** What the WHERE clause says of a row: keep it, drop it, or throw. */
  function Verdict(e: Expression, row: Row): Option<bool> {
    match Evaluate(e, row)
    case None => None
    case Some(v) => Truth(v)
  }

  predicate Selects(e: Expression, row: Row) { Verdict(e, row) == Some(true) }

  // ----- what a condition says

  /** AND needs both sides and OR one; either throws when a side throws or is no condition. */
  lemma BooleanTable(l: Expression, r: Expression, row: Row)
    ensures var a, b := Verdict(l, row), Verdict(r, row);
      && (Verdict(And(l, r), row).None? <==> a.None? || b.None?)
      && (Verdict(Or(l, r), row).None? <==> a.None? || b.None?)
      && (Selects(And(l, r), row) <==> a == Some(true) && b == Some(true))
      && (Selects(Or(l, r), row) <==> (a == Some(true) && b.Some?) || (b == Some(true) && a.Some?))
  {
  }

  /** A column compared with a constant: a row without the column throws, a NULL on either side
      is not selected, integers are compared as such. */
  lemma ComparisonTable(comparison: Comparison, i: nat, v: Value, row: Row)
    ensures var e := Compare(comparison, ColumnRef(i), Constant(v));
      && (i >= |row| ==> Verdict(e, row) == None)
      && (i < |row| && (row[i].Null? || v.Null?) ==> Verdict(e, row) == Some(false))
      && (i < |row| && !row[i].Null? && !v.Null? ==> Verdict(e, row) == EvaluateComparison(comparison, row[i], v))
      && (i < |row| && row[i].Integer? && v.Integer? ==>
            (Selects(e, row) <==>
             match comparison
             case EQUAL => row[i].i == v.i
             case NOT_EQUAL => row[i].i != v.i
             case LESS_THAN => row[i].i < v.i
             case LESS_THAN_OR_EQUAL => row[i].i <= v.i
             case GREATER_THAN => row[i].i > v.i
             case GREATER_THAN_OR_EQUAL => row[i].i >= v.i))
  {
    var e := Compare(comparison, ColumnRef(i), Constant(v));
    assert Evaluate(e.left, row) == (if i < |row| then Some(row[i]) else None) && Evaluate(e.right, row) == Some(v);
    if i < |row| && row[i].Integer? && v.Integer? {
      IntegerOperators(row[i].i, v.i);
      hide EvaluateComparison;
    }
  }

  datatype TableFilter = TableFilter(column: nat, comparison: Comparison, constant: Value)

  /** The filter admits a row of the table. */
  predicate Admits(f: TableFilter, tableRow: Row) {
    f.column < |tableRow| && EvaluateComparison(f.comparison, tableRow[f.column], f.constant) == Some(true)
  }

  // ----- extraction

  /** The filter a single comparison gives rise to; a constant on the left is flipped. */
  function FilterOf(e: Expression, columnIds: seq<nat>): Option<TableFilter> {
    if !e.Compare? then None
    else if e.left.ColumnRef? && e.right.Constant? then
      Filter(e.left.index, e.comparison, e.right.value, columnIds)
    else if e.left.Constant? && e.right.ColumnRef? then
      Filter(e.right.index, FlipComparison(e.comparison), e.left.value, columnIds)
    else None
  }

  function Filter(index: nat, comparison: Comparison, constant: Value, columnIds: seq<nat>): Option<TableFilter> {
    if constant.Null? || index >= |columnIds| then None
    else Some(TableFilter(columnIds[index], comparison, constant))
  }

  /** The conjuncts, left to right. */
  function Conjuncts(e: Expression): seq<Expression> {
    if e.And? then Conjuncts(e.left) + Conjuncts(e.right) else [e]
  }

  /** A filter is pushed exactly for a comparison of a column of the scan with a constant that is
      not NULL; with the constant on the left the operator is turned round. */
  lemma FilterOfIff(e: Expression, columnIds: seq<nat>, f: TableFilter)
    ensures FilterOf(e, columnIds) == Some(f) <==>
            !f.constant.Null? && exists i: nat, comparison :: i < |columnIds| && GivesRise(e, i, comparison, columnIds[i], f)
  {
    if FilterOf(e, columnIds) == Some(f) {
      var i := if e.left.ColumnRef? then e.left.index else e.right.index;
      assert GivesRise(e, i, e.comparison, columnIds[i], f);
    }
  }

  ghost predicate GivesRise(e: Expression, i: nat, comparison: Comparison, column: nat, f: TableFilter) {
    && f.column == column
    && (|| (f.comparison == comparison && e == Compare(comparison, ColumnRef(i), Constant(f.constant)))
        || (f.comparison == FlipComparison(comparison) && e == Compare(comparison, Constant(f.constant), ColumnRef(i))))
  }

  function FiltersOf(es: seq<Expression>, columnIds: seq<nat>): seq<TableFilter> {
    if es == [] then [] else Pushed(es[0], columnIds) + FiltersOf(es[1..], columnIds)
  }

  function Pushed(e: Expression, columnIds: seq<nat>): seq<TableFilter> {
    var f := FilterOf(e, columnIds); if f.Some? then [f.value] else []
  }

  lemma {:induction false} FiltersOfAppend(a: seq<Expression>, b: seq<Expression>, columnIds: seq<nat>)
    ensures FiltersOf(a + b, columnIds) == FiltersOf(a, columnIds) + FiltersOf(b, columnIds)
  {
    if a == [] {
      assert a + b == b;
    } else {
      assert (a + b)[0] == a[0] && (a + b)[1..] == a[1..] + b;
      FiltersOfAppend(a[1..], b, columnIds);
      var first, more, last := Pushed(a[0], columnIds), FiltersOf(a[1..], columnIds), FiltersOf(b, columnIds);
      assert first + (more + last) == (first + more) + last;
    }
  }

  /** Appends the filters of every pushable conjunct to the list. */
  method ExtractTableFilters(where: Expression, columnIds: seq<nat>, out0: seq<TableFilter>)
    returns (out: seq<TableFilter>)
    ensures out == out0 + FiltersOf(Conjuncts(where), columnIds)
    decreases where
  {
    out := out0;
    if where.And? {
      out := ExtractTableFilters(where.left, columnIds, out);
      out := ExtractTableFilters(where.right, columnIds, out);
      FiltersOfAppend(Conjuncts(where.left), Conjuncts(where.right), columnIds);
      return;
    }
    assert FiltersOf([where], columnIds) == Pushed(where, columnIds) by {
      assert [where][1..] == [];
    }
    if !where.Compare? {
      return;
    }
    var column, constant, comparison := None, None, where.comparison;
    if where.left.ColumnRef? && where.right.Constant? {
      column, constant := Some(where.left.index), Some(where.right.value);
    } else if where.left.Constant? && where.right.ColumnRef? {
      column, constant := Some(where.right.index), Some(where.left.value);
      comparison := FlipComparison(comparison);
    }
    if column.None? || constant.None? || constant.value.Null? {
      return;
    }
    if column.value >= |columnIds| {
      return;
    }
    out := out + [TableFilter(columnIds[column.value], comparison, constant.value)];
  }

  // ----- soundness

  /** The scan's output row: the listed columns of the table row. */
  predicate Projects(row: Row, tableRow: Row, columnIds: seq<nat>) {
    && |row| == |columnIds|
    && forall i :: 0 <= i < |columnIds| ==> columnIds[i] < |tableRow| && row[i] == tableRow[columnIds[i]]
  }

  /** A conjunct `constant > column` or `constant >= column` whose two values are unordered:
      the executor finds it true, although the column is not below the constant. */
  predicate Betrays(e: Expression, row: Row) {
    && e.Compare? && (e.comparison.GREATER_THAN? || e.comparison.GREATER_THAN_OR_EQUAL?)
    && e.left.Constant? && e.right.ColumnRef? && e.right.index < |row|
    && Unordered(e.left.value, row[e.right.index])
  }

  lemma {:induction false} ConjunctsAreSelected(e: Expression, row: Row)
    requires Selects(e, row)
    ensures forall c :: c in Conjuncts(e) ==> Selects(c, row)
  {
    if e.And? {
      ConjunctsAreSelected(e.left, row);
      ConjunctsAreSelected(e.right, row);
    }
  }

  /** And the other way round: a row is selected exactly when all conjuncts select it. */
  lemma {:induction false} SelectsIff(e: Expression, row: Row)
    ensures Selects(e, row) <==> forall c :: c in Conjuncts(e) ==> Selects(c, row)
  {
    if e.And? {
      SelectsIff(e.left, row);
      SelectsIff(e.right, row);
      BooleanTable(e.left, e.right, row);
      assert forall c :: c in Conjuncts(e) <==> c in Conjuncts(e.left) || c in Conjuncts(e.right);
    } else {
      assert e in Conjuncts(e);
    }
  }

  /** A selected conjunct's filter admits the table row, unless the conjunct betrays it. */
  lemma ConjunctFilter(e: Expression, row: Row, tableRow: Row, columnIds: seq<nat>)
    requires Selects(e, row) && Projects(row, tableRow, columnIds) && FilterOf(e, columnIds).Some?
    ensures Admits(FilterOf(e, columnIds).value, tableRow) <==> !Betrays(e, row)
  {
    var f := FilterOf(e, columnIds).value;
    assert Evaluate(e.left, row).Some? && Evaluate(e.right, row).Some?;
    assert !Evaluate(e.left, row).value.Null? && !Evaluate(e.right, row).value.Null?;
    if e.left.Constant? {
      var l, r := e.left.value, row[e.right.index];
      assert r == tableRow[f.column] && !r.Null?;
      FlipAgreesIff(e.comparison, l, r);
      if Unordered(l, r) {
        UnorderedIsNoRelation(l, r);
        EqualsIsPartialEquivalence(l, r, l);
      }
    } else {
      assert row[e.left.index] == tableRow[f.column];
    }
  }

  lemma {:induction false} FiltersAre(es: seq<Expression>, columnIds: seq<nat>, f: TableFilter)
    ensures f in FiltersOf(es, columnIds) <==> exists i :: 0 <= i < |es| && FilterOf(es[i], columnIds) == Some(f)
  {
    if es == [] {
    } else {
      FiltersAre(es[1..], columnIds, f);
      if i :| 0 <= i < |es[1..]| && FilterOf(es[1..][i], columnIds) == Some(f) {
        assert FilterOf(es[i + 1], columnIds) == Some(f);
      }
      if i :| 0 <= i < |es| && FilterOf(es[i], columnIds) == Some(f) {
        assert i > 0 ==> es[i] == es[1..][i - 1];
      }
    }
  }

  ghost predicate AdmitsAll(filters: seq<TableFilter>, tableRow: Row) {
    forall f :: f in filters ==> Admits(f, tableRow)
  }

  /** The pushed conjunct that betrays the row, if there is one. */
  ghost predicate Betrayed(e: Expression, row: Row, columnIds: seq<nat>) {
    exists c :: c in Conjuncts(e) && FilterOf(c, columnIds).Some? && Betrays(c, row)
  }

  /** For every predicate and every row it selects: all pushed filters hold of the table row
      exactly when no pushed conjunct has a constant on the left of > or >= and a NaN makes
      it true. */
  lemma PushdownIsSoundIff(e: Expression, row: Row, tableRow: Row, columnIds: seq<nat>)
    requires Selects(e, row) && Projects(row, tableRow, columnIds)
    ensures AdmitsAll(FiltersOf(Conjuncts(e), columnIds), tableRow) <==> !Betrayed(e, row, columnIds)
  {
    var es := Conjuncts(e);
    ConjunctsAreSelected(e, row);
    if Betrayed(e, row, columnIds) {
      var c :| c in es && FilterOf(c, columnIds).Some? && Betrays(c, row);
      ConjunctFilter(c, row, tableRow, columnIds);
      var i :| 0 <= i < |es| && es[i] == c;
      FiltersAre(es, columnIds, FilterOf(c, columnIds).value);
    } else {
      forall f | f in FiltersOf(es, columnIds) ensures Admits(f, tableRow) {
        FiltersAre(es, columnIds, f);
        var i :| 0 <= i < |es| && FilterOf(es[i], columnIds) == Some(f);
        ConjunctFilter(es[i], row, tableRow, columnIds);
      }
    }
  }

  // ----- pruning

  /** A table: row groups of rows. The oracle is the zone map check. */
  type Table = seq<seq<Row>>

  /** A zone map may say no only if no row of the group passes the filter. */
  ghost predicate SoundZoneMap(table: Table, mayMatch: (nat, TableFilter) -> bool) {
    forall g, f, k :: 0 <= g < |table| && 0 <= k < |table[g]| && !mayMatch(g, f) ==> !Admits(f, table[g][k])
  }

  predicate Kept(filters: seq<TableFilter>, mayMatch: (nat, TableFilter) -> bool, g: nat) {
    forall f :: f in filters ==> mayMatch(g, f)
  }

  /** The scan from row group g on: groups that some filter rules out are skipped. */
  ghost function Scan(table: Table, filters: seq<TableFilter>, mayMatch: (nat, TableFilter) -> bool, g: nat): seq<Row>
    requires g <= |table|
    decreases |table| - g
  {
    if g == |table| then []
    else (if Kept(filters, mayMatch, g) then table[g] else []) + Scan(table, filters, mayMatch, g + 1)
  }

  /** A row group is skipped exactly when the zone maps rule out some filter. */
  lemma ScanSkipsIff(table: Table, filters: seq<TableFilter>, mayMatch: (nat, TableFilter) -> bool, g: nat)
    requires g < |table|
    ensures Scan(table, filters, mayMatch, g) ==
            (if exists i :: 0 <= i < |filters| && !mayMatch(g, filters[i]) then [] else table[g]) +
            Scan(table, filters, mayMatch, g + 1)
  {
    assert Kept(filters, mayMatch, g) <==> forall i :: 0 <= i < |filters| ==> mayMatch(g, filters[i]);
  }

  /** The rows that a filter keeps; it throws as soon as one row makes it throw. */
  function Filtered(e: Expression, rows: seq<Row>): Option<seq<Row>> {
    if rows == [] then Some([])
    else
      match (Verdict(e, rows[0]), Filtered(e, rows[1..]))
      case (Some(keep), Some(rest)) => Some(if keep then [rows[0]] + rest else rest)
      case _ => None
  }

  /** The places, in order, of the rows that are kept. */
  ghost predicate Picks(e: Expression, rows: seq<Row>, picks: seq<nat>) {
    && (forall i, j :: 0 <= i < j < |picks| ==> picks[i] < picks[j])
    && forall k: nat :: k in picks <==> k < |rows| && Selects(e, rows[k])
  }

  ghost predicate RowsAt(rows: seq<Row>, picks: seq<nat>, kept: seq<Row>) {
    |kept| == |picks| && forall i :: 0 <= i < |kept| ==> picks[i] < |rows| && kept[i] == rows[picks[i]]
  }

  /** What a filter keeps are the selected rows, each once and in order. */
  lemma {:induction false} FilteredIsSelection(e: Expression, rows: seq<Row>) returns (picks: seq<nat>)
    requires Filtered(e, rows).Some?
    ensures Picks(e, rows, picks) && RowsAt(rows, picks, Filtered(e, rows).value)
  {
    if rows == [] {
      picks := [];
    } else {
      KeptOrNot(e, rows);
      hide Selects, Picks, RowsAt, Filtered;
      var later := FilteredIsSelection(e, rows[1..]);
      var shifted := seq(|later|, i requires 0 <= i < |later| => later[i] + 1);
      ShiftedPicks(e, rows, later, shifted);
      ShiftedRows(rows, later, shifted, Filtered(e, rows[1..]).value);
      picks := if Selects(e, rows[0]) then [0] + shifted else shifted;
    }
  }

  lemma ShiftedRows(rows: seq<Row>, later: seq<nat>, shifted: seq<nat>, kept: seq<Row>)
    requires rows != [] && RowsAt(rows[1..], later, kept)
    requires |shifted| == |later| && forall i :: 0 <= i < |later| ==> shifted[i] == later[i] + 1
    ensures RowsAt(rows, shifted, kept) && RowsAt(rows, [0] + shifted, [rows[0]] + kept)
  {
  }

  lemma KeptOrNot(e: Expression, rows: seq<Row>)
    requires rows != [] && Filtered(e, rows).Some?
    ensures var rest := Filtered(e, rows[1..]);
      rest.Some? && Filtered(e, rows).value == if Selects(e, rows[0]) then [rows[0]] + rest.value else rest.value
  {
  }

  lemma ShiftedPicks(e: Expression, rows: seq<Row>, later: seq<nat>, shifted: seq<nat>)
    requires rows != [] && Picks(e, rows[1..], later)
    requires |shifted| == |later| && forall i :: 0 <= i < |later| ==> shifted[i] == later[i] + 1
    ensures Picks(e, rows, if Selects(e, rows[0]) then [0] + shifted else shifted)
  {
    hide Selects;
    forall k: nat ensures k in shifted <==> 0 < k < |rows| && Selects(e, rows[k]) {
      if k > 0 {
        assert k - 1 in later <==> k < |rows| && Selects(e, rows[1..][k - 1]);
        if k - 1 in later {
          var i :| 0 <= i < |later| && later[i] == k - 1;
          assert shifted[i] == k;
        }
      }
    }
  }

  /** The output of the filter that stays above the scan, for rows of the table. */
  function Where(e: Expression, columnIds: seq<nat>, rows: seq<Row>): Option<seq<Row>> {
    Filtered(e, Outputs(columnIds, rows))
  }

  function Outputs(columnIds: seq<nat>, rows: seq<Row>): (out: seq<Row>)
    ensures |out| == |rows|
  {
    seq(|rows|, i requires 0 <= i < |rows| => Output(columnIds, rows[i]))
  }

  predicate Passes(e: Expression, columnIds: seq<nat>, tableRow: Row) {
    Selects(e, Output(columnIds, tableRow))
  }

  /** Some row makes the filter throw. */
  ghost predicate Throws(e: Expression, columnIds: seq<nat>, rows: seq<Row>) {
    exists k :: 0 <= k < |rows| && Verdict(e, Output(columnIds, rows[k])) == None
  }

  /** The columns the scan puts out; a table row has every column of its table. */
  function Output(columnIds: seq<nat>, tableRow: Row): Row {
    seq(|columnIds|, i requires 0 <= i < |columnIds| =>
      if columnIds[i] < |tableRow| then tableRow[columnIds[i]] else Null(INTEGER))
  }

  ghost predicate HasColumns(table: Table, columnIds: seq<nat>) {
    forall g, k, i :: 0 <= g < |table| && 0 <= k < |table[g]| && 0 <= i < |columnIds| ==> columnIds[i] < |table[g][k]|
  }

  /** No selected row of the table is betrayed by a pushed conjunct. */
  ghost predicate NoBetrayal(table: Table, e: Expression, columnIds: seq<nat>) {
    forall g, k :: 0 <= g < |table| && 0 <= k < |table[g]| && Passes(e, columnIds, table[g][k]) ==>
      !Betrayed(e, Output(columnIds, table[g][k]), columnIds)
  }

  ghost predicate HasSelected(e: Expression, columnIds: seq<nat>, rows: seq<Row>) {
    exists k :: 0 <= k < |rows| && Passes(e, columnIds, rows[k])
  }

  ghost predicate AdmitsSome(f: TableFilter, rows: seq<Row>) {
    exists k :: 0 <= k < |rows| && Admits(f, rows[k])
  }

  /** A row group with a selected row has, for each pushed filter, a row which that filter
      admits: not necessarily the same row, and not the same row for all filters. */
  ghost predicate Witnessed(table: Table, e: Expression, columnIds: seq<nat>) {
    forall g, f :: 0 <= g < |table| && f in FiltersOf(Conjuncts(e), columnIds) && HasSelected(e, columnIds, table[g]) ==>
      AdmitsSome(f, table[g])
  }

  /** So it is, in particular, where every selected row is admitted by every filter. */
  lemma NoBetrayalWitnesses(table: Table, e: Expression, columnIds: seq<nat>)
    requires HasColumns(table, columnIds) && NoBetrayal(table, e, columnIds)
    ensures Witnessed(table, e, columnIds)
  {
    forall g, f | 0 <= g < |table| && f in FiltersOf(Conjuncts(e), columnIds) && HasSelected(e, columnIds, table[g])
      ensures AdmitsSome(f, table[g])
    {
      var k :| 0 <= k < |table[g]| && Passes(e, columnIds, table[g][k]);
      PushdownIsSoundIff(e, Output(columnIds, table[g][k]), table[g][k], columnIds);
      assert Admits(f, table[g][k]);
    }
  }

  /** First one part of the rows, then the other; either may throw. */
  function Joined(a: Option<seq<Row>>, b: Option<seq<Row>>): Option<seq<Row>> {
    if a.Some? && b.Some? then Some(a.value + b.value) else None
  }

  lemma Regroup(a: seq<Row>, b: seq<Row>, c: seq<Row>)
    ensures (a + b) + c == a + (b + c)
  {
  }

  lemma {:induction false} FilteredAppend(e: Expression, a: seq<Row>, b: seq<Row>)
    ensures Filtered(e, a + b) == Joined(Filtered(e, a), Filtered(e, b))
  {
    if a == [] {
      assert a + b == b;
      var r := Filtered(e, b);
      assert r.Some? ==> [] + r.value == r.value;
    } else {
      hide Verdict;
      FilteredAppend(e, a[1..], b);
      assert (a + b)[0] == a[0] && (a + b)[1..] == a[1..] + b;
      var rest, more := Filtered(e, a[1..]), Filtered(e, b);
      if rest.Some? && more.Some? {
        Regroup([a[0]], rest.value, more.value);
      }
    }
  }

  /** A filter throws exactly when one of the rows makes it throw. */
  lemma {:induction false} ThrowsIff(e: Expression, columnIds: seq<nat>, rows: seq<Row>)
    ensures Where(e, columnIds, rows).None? <==> Throws(e, columnIds, rows)
    ensures (forall k :: 0 <= k < |rows| ==> !Passes(e, columnIds, rows[k])) && !Throws(e, columnIds, rows) ==>
            Where(e, columnIds, rows) == Some([])
  {
    if rows == [] {
    } else {
      ThrowsIff(e, columnIds, rows[1..]);
      assert Outputs(columnIds, rows)[1..] == Outputs(columnIds, rows[1..]);
      forall k | 0 <= k < |rows[1..]| ensures rows[1..][k] == rows[k + 1] {
      }
      if k :| 0 <= k < |rows| && Verdict(e, Output(columnIds, rows[k])) == None {
        assert k > 0 ==> rows[k] == rows[1..][k - 1];
      }
      if k :| 0 <= k < |rows[1..]| && Verdict(e, Output(columnIds, rows[1..][k])) == None {
        assert Verdict(e, Output(columnIds, rows[k + 1])) == None;
      }
    }
  }

  /** A skipped row group has no row that the WHERE clause keeps: filtering it would give
      nothing, or throw. */
  lemma SkippedGroupIsIrrelevant(table: Table, e: Expression, columnIds: seq<nat>,
                                 mayMatch: (nat, TableFilter) -> bool, g: nat)
    requires SoundZoneMap(table, mayMatch) && Witnessed(table, e, columnIds)
    requires g < |table| && !Kept(FiltersOf(Conjuncts(e), columnIds), mayMatch, g)
    ensures Where(e, columnIds, table[g]) == if Throws(e, columnIds, table[g]) then None else Some([])
  {
    var f :| f in FiltersOf(Conjuncts(e), columnIds) && !mayMatch(g, f);
    assert !AdmitsSome(f, table[g]);
    assert !HasSelected(e, columnIds, table[g]);
    ThrowsIff(e, columnIds, table[g]);
  }

  /** The filter above the scan of everything, and above the scan that skips row groups, from
      row group g on. */
  ghost function Full(table: Table, e: Expression, columnIds: seq<nat>, g: nat): Option<seq<Row>>
    requires g <= |table|
  {
    Where(e, columnIds, Concat(table[g..]))
  }

  ghost function Pruned(table: Table, e: Expression, columnIds: seq<nat>, mayMatch: (nat, TableFilter) -> bool,
                        g: nat): Option<seq<Row>>
    requires g <= |table|
  {
    Where(e, columnIds, Scan(table, FiltersOf(Conjuncts(e), columnIds), mayMatch, g))
  }

  /** A scan without filters reads everything. */
  lemma {:induction false} NoFilterReadsAll(table: Table, mayMatch: (nat, TableFilter) -> bool, g: nat)
    requires g <= |table|
    ensures Scan(table, [], mayMatch, g) == Concat(table[g..])
    decreases |table| - g
  {
    if g == |table| {
    } else {
      NoFilterReadsAll(table, mayMatch, g + 1);
      assert table[g..][1..] == table[g + 1..] && Kept([], mayMatch, g);
    }
  }

  lemma WhereAppend(e: Expression, columnIds: seq<nat>, a: seq<Row>, b: seq<Row>)
    ensures Where(e, columnIds, a + b) == Joined(Where(e, columnIds, a), Where(e, columnIds, b))
  {
    FilteredAppend(e, Outputs(columnIds, a), Outputs(columnIds, b));
    assert Outputs(columnIds, a + b) == Outputs(columnIds, a) + Outputs(columnIds, b);
  }

  /** What one row group adds. */
  lemma FullStep(table: Table, e: Expression, columnIds: seq<nat>, g: nat)
    requires g < |table|
    ensures Full(table, e, columnIds, g) == Joined(Where(e, columnIds, table[g]), Full(table, e, columnIds, g + 1))
  {
    assert table[g..][1..] == table[g + 1..] && Concat(table[g..]) == table[g] + Concat(table[g + 1..]);
    WhereAppend(e, columnIds, table[g], Concat(table[g + 1..]));
  }

  lemma PrunedStep(table: Table, e: Expression, columnIds: seq<nat>, mayMatch: (nat, TableFilter) -> bool, g: nat)
    requires g < |table|
    ensures Pruned(table, e, columnIds, mayMatch, g) ==
            Joined(if Kept(FiltersOf(Conjuncts(e), columnIds), mayMatch, g) then Where(e, columnIds, table[g]) else Some([]),
                   Pruned(table, e, columnIds, mayMatch, g + 1))
  {
    var filters := FiltersOf(Conjuncts(e), columnIds);
    var rest := Scan(table, filters, mayMatch, g + 1);
    WhereAppend(e, columnIds, if Kept(filters, mayMatch, g) then table[g] else [], rest);
    assert Where(e, columnIds, []) == Some([]);
  }

  lemma AtTheEnd(table: Table, e: Expression, columnIds: seq<nat>, mayMatch: (nat, TableFilter) -> bool)
    ensures Full(table, e, columnIds, |table|) == Some([]) == Pruned(table, e, columnIds, mayMatch, |table|)
  {
  }

  /** A row of a row group that the scan skips makes the filter throw. */
  ghost predicate HidesError(table: Table, e: Expression, columnIds: seq<nat>, mayMatch: (nat, TableFilter) -> bool, g: nat) {
    exists k :: g <= k < |table| && !Kept(FiltersOf(Conjuncts(e), columnIds), mayMatch, k) && Throws(e, columnIds, table[k])
  }

  lemma HidesErrorStep(table: Table, e: Expression, columnIds: seq<nat>, mayMatch: (nat, TableFilter) -> bool, g: nat)
    requires g < |table|
    ensures HidesError(table, e, columnIds, mayMatch, g) <==>
            || (!Kept(FiltersOf(Conjuncts(e), columnIds), mayMatch, g) && Throws(e, columnIds, table[g]))
            || HidesError(table, e, columnIds, mayMatch, g + 1)
  {
    hide Kept, Throws, FiltersOf, Conjuncts;
  }

  /** Skipping row groups changes nothing but whether an error is seen: whatever the zone maps
      look like, as long as they are sound, the filter above the pruned scan puts out the same
      rows in the same order as above the full scan, unless the latter throws on a skipped row
      and the former on none. */
  lemma {:induction false} PruningAgreesIff(table: Table, e: Expression, columnIds: seq<nat>,
                                            mayMatch: (nat, TableFilter) -> bool, g: nat)
    requires SoundZoneMap(table, mayMatch) && Witnessed(table, e, columnIds) && g <= |table|
    ensures var full, pruned := Full(table, e, columnIds, g), Pruned(table, e, columnIds, mayMatch, g);
      && (full.Some? ==> pruned == full)
      && (pruned == full <==> pruned.None? || !HidesError(table, e, columnIds, mayMatch, g))
    decreases |table| - g
  {
    if g == |table| {
      AtTheEnd(table, e, columnIds, mayMatch);
    } else {
      hide Full, Pruned, Where, HidesError, FiltersOf, Conjuncts, Throws, Joined, Kept, SoundZoneMap, Witnessed;
      PruningAgreesIff(table, e, columnIds, mayMatch, g + 1);
      FullStep(table, e, columnIds, g);
      PrunedStep(table, e, columnIds, mayMatch, g);
      ThrowsIff(e, columnIds, table[g]);
      HidesErrorStep(table, e, columnIds, mayMatch, g);
      if !Kept(FiltersOf(Conjuncts(e), columnIds), mayMatch, g) {
        SkippedGroupIsIrrelevant(table, e, columnIds, mayMatch, g);
      }
      JoinedAgrees(Where(e, columnIds, table[g]), Kept(FiltersOf(Conjuncts(e), columnIds), mayMatch, g),
                   Full(table, e, columnIds, g + 1), Pruned(table, e, columnIds, mayMatch, g + 1),
                   HidesError(table, e, columnIds, mayMatch, g + 1));
    }
  }

  /** One row group in front of the others, with and without skipping it. */
  lemma JoinedAgrees(group: Option<seq<Row>>, kept: bool, full: Option<seq<Row>>, pruned: Option<seq<Row>>, hides: bool)
    requires !kept ==> group.None? || group == Some([])
    requires full.Some? ==> pruned == full
    requires pruned == full <==> pruned.None? || !hides
    ensures var all, some := Joined(group, full), Joined(if kept then group else Some([]), pruned);
      && (all.Some? ==> some == all)
      && (some == all <==> some.None? || !((!kept && group.None?) || hides))
  {
  }

  // ----- when pruning keeps the result

  lemma {:induction false} SelectedIsKept(e: Expression, columnIds: seq<nat>, rows: seq<Row>)
    requires Where(e, columnIds, rows).Some? && HasSelected(e, columnIds, rows)
    ensures Where(e, columnIds, rows).value != []
  {
    assert Outputs(columnIds, rows)[1..] == Outputs(columnIds, rows[1..]);
    var k :| 0 <= k < |rows| && Passes(e, columnIds, rows[k]);
    if k > 0 {
      assert rows[1..][k - 1] == rows[k];
      SelectedIsKept(e, columnIds, rows[1..]);
    }
  }

  /** The scan skips a row group that has a selected row. */
  ghost predicate SkipsSelected(table: Table, e: Expression, columnIds: seq<nat>,
                                mayMatch: (nat, TableFilter) -> bool, g: nat) {
    exists k :: g <= k < |table| && !Kept(FiltersOf(Conjuncts(e), columnIds), mayMatch, k) && HasSelected(e, columnIds, table[k])
  }

  lemma SkipsSelectedStep(table: Table, e: Expression, columnIds: seq<nat>, mayMatch: (nat, TableFilter) -> bool, g: nat)
    requires g < |table| && SkipsSelected(table, e, columnIds, mayMatch, g)
    ensures (!Kept(FiltersOf(Conjuncts(e), columnIds), mayMatch, g) && HasSelected(e, columnIds, table[g])) ||
            SkipsSelected(table, e, columnIds, mayMatch, g + 1)
  {
    hide Kept, HasSelected, FiltersOf, Conjuncts;
  }

  /** Where nothing throws, such a scan gives fewer rows. */
  lemma {:induction false} SkippingLoses(table: Table, e: Expression, columnIds: seq<nat>,
                                        mayMatch: (nat, TableFilter) -> bool, g: nat)
    requires g <= |table| && Full(table, e, columnIds, g).Some?
    ensures var full, pruned := Full(table, e, columnIds, g), Pruned(table, e, columnIds, mayMatch, g);
      pruned.Some? && |pruned.value| <= |full.value| &&
      (SkipsSelected(table, e, columnIds, mayMatch, g) ==> |pruned.value| < |full.value|)
    decreases |table| - g
  {
    if g == |table| {
      AtTheEnd(table, e, columnIds, mayMatch);
    } else {
      hide Full, Pruned, Where, FiltersOf, Conjuncts, Kept, SkipsSelected, HasSelected;
      FullStep(table, e, columnIds, g);
      PrunedStep(table, e, columnIds, mayMatch, g);
      SkippingLoses(table, e, columnIds, mayMatch, g + 1);
      if SkipsSelected(table, e, columnIds, mayMatch, g) {
        SkipsSelectedStep(table, e, columnIds, mayMatch, g);
      }
      if HasSelected(e, columnIds, table[g]) {
        SelectedIsKept(e, columnIds, table[g]);
      }
    }
  }

  /** Whatever the zone maps look like: if the query runs without pruning, it runs with it,
      and gives the same rows. */
  ghost predicate AlwaysPreserved(table: Table, e: Expression, columnIds: seq<nat>) {
    forall mayMatch :: SoundZoneMap(table, mayMatch) && Full(table, e, columnIds, 0).Some? ==>
      Pruned(table, e, columnIds, mayMatch, 0) == Full(table, e, columnIds, 0)
  }

  /** That is so exactly when every row group with a selected row has a row that each filter
      admits, or the query throws anyway; otherwise the best zone map there can be loses rows. */
  lemma PruningPreservesResultIff(table: Table, e: Expression, columnIds: seq<nat>)
    ensures AlwaysPreserved(table, e, columnIds) <==> Full(table, e, columnIds, 0).None? || Witnessed(table, e, columnIds)
  {
    hide Full, Pruned, FiltersOf, Conjuncts;
    if Witnessed(table, e, columnIds) {
      forall mayMatch | SoundZoneMap(table, mayMatch) && Full(table, e, columnIds, 0).Some?
        ensures Pruned(table, e, columnIds, mayMatch, 0) == Full(table, e, columnIds, 0)
      {
        PruningAgreesIff(table, e, columnIds, mayMatch, 0);
      }
    } else if Full(table, e, columnIds, 0).Some? {
      var g, f :| 0 <= g < |table| && f in FiltersOf(Conjuncts(e), columnIds) && HasSelected(e, columnIds, table[g]) &&
                  !AdmitsSome(f, table[g]);
      var exact := ExactZoneMap(table);
      ExactIsSound(table);
      assert !exact(g, f) && !Kept(FiltersOf(Conjuncts(e), columnIds), exact, g);
      SkippingLoses(table, e, columnIds, exact, 0);
      assert SkipsSelected(table, e, columnIds, exact, 0);
    }
  }

  lemma ExactIsSound(table: Table)
    ensures SoundZoneMap(table, ExactZoneMap(table))
  {
  }

  /** `x < 5 AND s < 1` with a string s throws on every row; where x is never below 5, the scan
      skips the table, and the query quietly returns nothing. */
  lemma PruningMayHideError()
    ensures var table := ErrorTable(); var exact := ExactZoneMap(table);
      && SoundZoneMap(table, exact) && HasColumns(table, [0, 1]) && Witnessed(table, ErrorPredicate(), [0, 1])
      && Full(table, ErrorPredicate(), [0, 1], 0) == None
      && Pruned(table, ErrorPredicate(), [0, 1], exact, 0) == Some([])
  {
    var table := ErrorTable();
    var exact := ExactZoneMap(table);
    var f := TableFilter(0, LESS_THAN, Integer(5));
    ErrorThrows();
    ErrorFilter();
    hide ErrorPredicate, Where, FiltersOf, Conjuncts;
    ErrorWitnessed();
    hide ErrorRow, ErrorPredicate, Where, FiltersOf, Conjuncts, Admits;
    assert !exact(0, f) && !Kept(FiltersOf(Conjuncts(ErrorPredicate()), [0, 1]), exact, 0);
    FullStep(table, ErrorPredicate(), [0, 1], 0);
    PrunedStep(table, ErrorPredicate(), [0, 1], exact, 0);
    AtTheEnd(table, ErrorPredicate(), [0, 1], exact);
  }

  lemma ErrorWitnessed()
    ensures HasColumns(ErrorTable(), [0, 1]) && Witnessed(ErrorTable(), ErrorPredicate(), [0, 1])
    ensures !Admits(TableFilter(0, LESS_THAN, Integer(5)), ErrorRow())
  {
    ErrorThrows();
    hide ErrorPredicate, HasSelected, FiltersOf, Conjuncts;
  }

  function ErrorRow(): Row { [Integer(7), Varchar("a")] }
  function ErrorRows(): seq<Row> { [ErrorRow()] }
  function ErrorTable(): Table { [ErrorRows()] }

  function ErrorPredicate(): Expression {
    And(Compare(LESS_THAN, ColumnRef(0), Constant(Integer(5))), Compare(LESS_THAN, ColumnRef(1), Constant(Integer(1))))
  }

  lemma ErrorThrows()
    ensures Where(ErrorPredicate(), [0, 1], ErrorRows()) == None && !HasSelected(ErrorPredicate(), [0, 1], ErrorRows())
  {
    assert Output([0, 1], ErrorRow()) == ErrorRow() && Verdict(ErrorPredicate(), ErrorRow()) == None;
    assert Verdict(ErrorPredicate(), Output([0, 1], ErrorRows()[0])) == None;
    ThrowsIff(ErrorPredicate(), [0, 1], ErrorRows());
  }

  lemma ErrorFilter()
    ensures TableFilter(0, LESS_THAN, Integer(5)) in FiltersOf(Conjuncts(ErrorPredicate()), [0, 1])
  {
    var f := TableFilter(0, LESS_THAN, Integer(5));
    assert FilterOf(Conjuncts(ErrorPredicate())[0], [0, 1]) == Some(f);
    FiltersAre(Conjuncts(ErrorPredicate()), [0, 1], f);
  }

  /** The zone map that says yes only if some row of the group passes. */
  ghost function ExactZoneMap(table: Table): (nat, TableFilter) -> bool {
    (g: nat, f: TableFilter) => exists k :: 0 <= g < |table| && 0 <= k < |table[g]| && Admits(f, table[g][k])
  }

  /** Without NaN, in the table and in the predicate's constants, pruning is safe. */
  lemma NoNaNNoBetrayal(table: Table, e: Expression, columnIds: seq<nat>)
    requires forall g, k, i :: 0 <= g < |table| && 0 <= k < |table[g]| && 0 <= i < |table[g][k]| ==>
               !HasNaN(table[g][k][i])
    requires forall c :: c in Conjuncts(e) && c.Compare? && c.left.Constant? ==> !HasNaN(c.left.value)
    requires HasColumns(table, columnIds)
    ensures NoBetrayal(table, e, columnIds) && Witnessed(table, e, columnIds)
  {
    NoBetrayalWitnesses(table, e, columnIds);
  }

  /** With a NaN the result can change: `5 > x` selects a NaN, its filter `x < 5` does not
      admit one, and a sound zone map may therefore skip the only row of the table. Beside a
      row that the filter admits, the NaN is safe. */
  lemma PruningMayLoseNaN()
    ensures var exact := ExactZoneMap([[[DoubleValue(NaN)]]]); var e := FiveIsGreater();
      && SoundZoneMap([[[DoubleValue(NaN)]]], exact) && !Witnessed([[[DoubleValue(NaN)]]], e, [0])
      && Full([[[DoubleValue(NaN)]]], e, [0], 0) == Some([[DoubleValue(NaN)]])
      && Pruned([[[DoubleValue(NaN)]]], e, [0], exact, 0) == Some([])
      && Witnessed([[[DoubleValue(NaN)], [Integer(4)]]], e, [0])
  {
    var row: Row := [DoubleValue(NaN)];
    var table: Table := [[row]];
    var exact := ExactZoneMap(table);
    var f := TableFilter(0, LESS_THAN, Integer(5));
    FiveFilter();
    FiveOfNaN(row);
    FiveWitnessed(row);
    hide FiveIsGreater, Where, FiltersOf, Conjuncts, Admits, HasSelected, AdmitsSome;
    assert !exact(0, f) && !Kept(FiltersOf(Conjuncts(FiveIsGreater()), [0]), exact, 0);
    FullStep(table, FiveIsGreater(), [0], 0);
    PrunedStep(table, FiveIsGreater(), [0], exact, 0);
    AtTheEnd(table, FiveIsGreater(), [0], exact);
  }

  lemma FiveWitnessed(row: Row)
    requires row == [DoubleValue(NaN)]
    ensures !Admits(TableFilter(0, LESS_THAN, Integer(5)), row)
    ensures !Witnessed([[row]], FiveIsGreater(), [0]) && Witnessed([[row, [Integer(4)]]], FiveIsGreater(), [0])
  {
    var f := TableFilter(0, LESS_THAN, Integer(5));
    FiveFilter();
    FiveOfNaN(row);
    assert Admits(f, [Integer(4)]) && !Admits(f, row);
    hide FiveIsGreater, FiltersOf, Conjuncts, Passes, Admits;
    assert Passes(FiveIsGreater(), [0], [row][0]) && HasSelected(FiveIsGreater(), [0], [[row]][0]);
    assert Admits(f, [row, [Integer(4)]][1]) && AdmitsSome(f, [row, [Integer(4)]]);
    assert f in FiltersOf(Conjuncts(FiveIsGreater()), [0]) && !AdmitsSome(f, [[row]][0]);
  }

  function FiveIsGreater(): Expression { Compare(GREATER_THAN, Constant(Integer(5)), ColumnRef(0)) }

  lemma FiveFilter()
    ensures FiltersOf(Conjuncts(FiveIsGreater()), [0]) == [TableFilter(0, LESS_THAN, Integer(5))]
  {
    var e := FiveIsGreater();
    assert FiltersOf([e], [0]) == Pushed(e, [0]) + FiltersOf([e][1..], [0]);
  }

  lemma FiveOfNaN(row: Row)
    requires row == [DoubleValue(NaN)]
    ensures Passes(FiveIsGreater(), [0], row) && Where(FiveIsGreater(), [0], [row]) == Some([row])
  {
    var e := FiveIsGreater();
    assert Output([0], row) == row && Output([0], [row][0]) == row;
    assert Outputs([0], [row]) == [row] && [row][1..] == [];
    assert EvaluateComparison(GREATER_THAN, Integer(5), DoubleValue(NaN)) == Some(true);
    assert Evaluate(e, row) == Some(Boolean(true));
    assert Verdict(e, [row][0]) == Some(true) && Filtered(e, [row][1..]) == Some([]) && [row] + [] == [row];
    assert Filtered(e, [row]) == Some([row]);
  }
}
