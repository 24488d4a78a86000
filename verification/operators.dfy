/** What the streaming operators of a pipeline do to a row. A row is the list of its values. */
module Operators {
  import opened Rows

  /** A filter keeps a row by the columns its condition reads, a projection turns a row into
      one row, and a join puts the matching build rows behind the columns of the probe row. The
      width is the number of leading columns that the condition or the join key may read. */
  datatype RowOperator<!V> =
    | Filtering(width: nat, keep: seq<V> -> bool)
    | Projecting(compute: seq<V> -> seq<V>)
    | Joining(width: nat, matches: seq<V> -> seq<seq<V>>)

  datatype Kind = FILTER | PROJECTION | JOIN

  function KindOf<V>(op: RowOperator<V>): Kind {
    match op
    case Filtering(_, _) => FILTER
    case Projecting(_) => PROJECTION
    case Joining(_, _) => JOIN
  }

  function KindsOf<V>(os: seq<RowOperator<V>>): (kinds: seq<Kind>)
    ensures |kinds| == |os|
  {
    seq(|os|, i requires 0 <= i < |os| => KindOf(os[i]))
  }

  /** The row functions of the operators. */
  function RowsOf<V(!new)>(op: RowOperator<V>): seq<V> -> seq<seq<V>> {
    row => ResultsOn(op, row)
  }

  function ResultsOn<V(!new)>(op: RowOperator<V>, row: seq<V>): seq<seq<V>> {
    match op
    case Filtering(width, keep) => if |row| >= width && keep(row[..width]) then [row] else []
    case Projecting(compute) => [compute(row)]
    case Joining(width, matches) => if |row| >= width then FlatMap(Behind(row), matches(row[..width])) else []
  }

  /** The build row behind the probe row. */
  function Behind<V>(row: seq<V>): seq<V> -> seq<seq<V>> {
    build => [row + build]
  }

  function RowsOfAll<V(!new)>(os: seq<RowOperator<V>>): (fs: seq<seq<V> -> seq<seq<V>>>)
    ensures |fs| == |os|
  {
    seq(|os|, i requires 0 <= i < |os| => RowsOf(os[i]))
  }

  /** A joined row is the probe row with a matching build row behind it, one for each match and
      in the order of the matches. */
  lemma JoinedRows<V(!new)>(width: nat, matches: seq<V> -> seq<seq<V>>, row: seq<V>)
    requires |row| >= width
    ensures var found, joined := matches(row[..width]), ResultsOn(Joining(width, matches), row);
      |joined| == |found| && forall i :: 0 <= i < |found| ==> joined[i] == row + found[i]
  {
    var found := matches(row[..width]);
    FlatMapEach(Behind(row), found, seq(|found|, i requires 0 <= i < |found| => row + found[i]));
  }

  /** A filter keeps a row that passes as often as it is there, and no other. */
  lemma {:induction false} KeptAsOften<V(!new)>(width: nat, keep: seq<V> -> bool, rows: seq<seq<V>>, row: seq<V>)
    ensures multiset(FlatMap(RowsOf(Filtering(width, keep)), rows))[row] ==
            if |row| >= width && keep(row[..width]) then multiset(rows)[row] else 0
  {
    if rows == [] {
    } else {
      KeptAsOften(width, keep, rows[1..], row);
      assert rows == [rows[0]] + rows[1..];
    }
  }

  /** Build rows in another order give the joined rows in another order. */
  lemma JoinOfPermutation<V(!new)>(width: nat, a: seq<V> -> seq<seq<V>>, b: seq<V> -> seq<seq<V>>, row: seq<V>)
    requires forall r :: multiset(a(r)) == multiset(b(r))
    ensures multiset(ResultsOn(Joining(width, a), row)) == multiset(ResultsOn(Joining(width, b), row))
  {
    if |row| >= width {
      FlatMapOfPermutation(Behind(row), Behind(row), a(row[..width]), b(row[..width]));
    }
  }

  // ----- which operators the drain loop can restart

  predicate Lacks(kinds: seq<Kind>, kind: Kind) {
    forall i :: 0 <= i < |kinds| ==> kinds[i] != kind
  }

  /** The join at k is the only one in its pipeline; and it leads it, or there is no filter, or
      it ends it and there is no projection. */
  predicate SafeJoin(kinds: seq<Kind>, k: nat) {
    && (forall i :: 0 <= i < |kinds| && i != k ==> kinds[i] != JOIN)
    && (k == 0 || Lacks(kinds, FILTER) || (k == |kinds| - 1 && Lacks(kinds, PROJECTION)))
  }

  predicate Safe(kinds: seq<Kind>) {
    forall k :: 0 <= k < |kinds| && kinds[k] == JOIN ==> SafeJoin(kinds, k)
  }
}
