/** The converse: every other arrangement of filters, projections and joins loses rows, on
    inputs that are given here for every capacity of an output chunk. */
module LostRows {
  import opened Drain
  import opened Machines
  import opened Operators
  import opened Restarts
  import opened Rows

  /** When the first output of operator k does not come back, the second one stays behind. */
  lemma NoReturnLoses<Row(!new)>(ops: seq<Kernel<Row>>, fs: seq<Row -> seq<Row>>, k: nat, chunk: seq<Row>)
    requires Proper(ops) && 0 < k < |ops| == |fs| && chunk != [] && ops[0].outputs([]) == [[]]
    requires forall i :: 0 <= i < |ops| ==> Implements(ops[i], fs[i]) && (i != k ==> Single(ops[i]))
    requires var outs := ops[k].outputs(Through(ops, 0, k, chunk));
      Through(ops, 0, k, chunk) != [] && |outs| == 2 && !ComesBack(ops, k, outs[0])
    ensures var outs := ops[k].outputs(Through(ops, 0, k, chunk));
      var r := Loop(ops, AllIdle(|ops|), chunk, 2);
      && r.Drained? && r.sunk == Through(ops, k + 1, |ops|, outs[0])
      && Chain(fs, chunk) == Through(ops, k + 1, |ops|, outs[0]) + Through(ops, k + 1, |ops|, outs[1])
  {
    var c := Through(ops, 0, k, chunk);
    var outs := ops[k].outputs(c);
    var idle: Pending<Row> := AllIdle(|ops|);
    var held := idle[k := outs[1..]];
    var d := Through(ops, k + 1, |ops|, outs[0]);
    PassThrough(ops, idle, 0, k, chunk);
    PassFrom(ops, k, idle, c, outs);
    SecondPassIsEmpty(ops, k, held, d);
    assert Loop(ops, held, d, 1) == Drained([], held);
    assert d + [] == d;
    TwoOutputs(ops, fs, k, chunk);
  }

  /** What the operators make of the chunk, in those two parts. */
  lemma TwoOutputs<Row(!new)>(ops: seq<Kernel<Row>>, fs: seq<Row -> seq<Row>>, k: nat, chunk: seq<Row>)
    requires Proper(ops) && 0 < k < |ops| == |fs| && chunk != []
    requires forall i :: 0 <= i < |ops| ==> Implements(ops[i], fs[i]) && (i != k ==> Single(ops[i]))
    requires Through(ops, 0, k, chunk) != [] && |ops[k].outputs(Through(ops, 0, k, chunk))| == 2
    ensures var outs := ops[k].outputs(Through(ops, 0, k, chunk));
      Chain(fs, chunk) == Through(ops, k + 1, |ops|, outs[0]) + Through(ops, k + 1, |ops|, outs[1])
  {
    var outs := ops[k].outputs(Through(ops, 0, k, chunk));
    IdealIsChain(ops, fs, 0, chunk);
    assert fs[0..] == fs;
    IdealThrough(ops, 0, k, chunk);
    IdealThrough(ops, k + 1, |ops|, outs[0]);
    IdealThrough(ops, k + 1, |ops|, outs[1]);
    IdealOfTwo(ops, k + 1, outs);
  }

  lemma IdealOfTwo<Row(!new)>(ops: seq<Kernel<Row>>, i: nat, outs: seq<seq<Row>>)
    requires i <= |ops| && |outs| == 2
    ensures IdealAll(ops, i, outs) == Ideal(ops, i, outs[0]) + Ideal(ops, i, outs[1])
  {
    assert outs[1..][1..] == [] && IdealAll(ops, i, outs[1..][1..]) == [];
    assert IdealAll(ops, i, outs[1..]) == Ideal(ops, i, outs[1..][0]) + [];
  }

  lemma SecondPassIsEmpty<Row(!new)>(ops: seq<Kernel<Row>>, k: nat, held: Pending<Row>, d: seq<Row>)
    requires Proper(ops) && 0 < k < |ops| == |held| && IdleBut(held, k) && ops[0].outputs([]) == [[]]
    requires forall i :: 0 <= i < k ==> Single(ops[i])
    requires Through(ops, 0, k, d) == []
    ensures Pass(ops, held, 0, d) == PassResult(held, [], false)
  {
    if d == [] {
      var nothing: seq<seq<Row>> := [[]];
      assert nothing[1..] == [] && held[0 := []] == held;
    } else {
      PassThrough(ops, held, 0, k, d);
    }
  }

  /** The operators lose rows of the chunk: the loop ends, and fewer rows than they make of it
      have arrived. */
  ghost predicate Loses<V(!new)>(ops: seq<Kernel<seq<V>>>, os: seq<RowOperator<V>>, chunk: seq<seq<V>>, passes: nat) {
    && Computes(ops, os) && chunk != []
    && var r := Loop(ops, AllIdle(|ops|), chunk, passes);
       r.Drained? && |r.sunk| < |Chain(RowsOfAll(os), chunk)|
  }

  /** The operator makes d of c. */
  ghost predicate Makes<Row(!new)>(op: Kernel<Row>, c: seq<Row>, d: seq<Row>) {
    c != [] && |op.outputs(c)| >= 1 && op.outputs(c)[0] == d
  }

  /** The operators make path(i + 1) of path(i), and so on. */
  ghost predicate Leads<Row(!new)>(ops: seq<Kernel<Row>>, i: nat, j: nat, path: nat -> seq<Row>) {
    forall l {:trigger ops[l]} :: i <= l < j && l < |ops| ==> Makes(ops[l], path(l), path(l + 1))
  }

  lemma {:induction false} Follows<Row(!new)>(ops: seq<Kernel<Row>>, i: nat, j: nat, path: nat -> seq<Row>)
    requires Proper(ops) && i <= j <= |ops| && Leads(ops, i, j, path)
    ensures Through(ops, i, j, path(i)) == path(j)
    decreases j - i
  {
    if i == j {
    } else {
      assert Makes(ops[i], path(i), path(i + 1));
      Follows(ops, i + 1, j, path);
    }
  }

  /** Or operator f drops the chunk, if no other one did. */
  ghost predicate LeadsNowhere<Row(!new)>(ops: seq<Kernel<Row>>, i: nat, j: nat, f: nat, path: nat -> seq<Row>) {
    && i <= f < j <= |ops| && Makes(ops[f], path(f), [])
    && forall l {:trigger ops[l]} :: i <= l < j ==> Makes(ops[l], path(l), path(l + 1)) || Makes(ops[l], path(l), [])
  }

  lemma {:induction false} Dropped<Row(!new)>(ops: seq<Kernel<Row>>, i: nat, j: nat, f: nat, path: nat -> seq<Row>)
    requires Proper(ops) && LeadsNowhere(ops, i, j, f, path)
    ensures Through(ops, i, j, path(i)) == []
    decreases j - i
  {
    assert Makes(ops[i], path(i), path(i + 1)) || Makes(ops[i], path(i), []);
    if ops[i].outputs(path(i))[0] == [] {
    } else {
      assert i != f;
      Dropped(ops, i + 1, j, f, path);
    }
  }

  lemma NothingComesBack<Row(!new)>(ops: seq<Kernel<Row>>, k: nat, out: seq<Row>)
    requires Proper(ops) && k < |ops| && Through(ops, k + 1, |ops|, out) == []
    ensures !ComesBack(ops, k, out)
  {
  }

  ghost predicate OnlyAt<V(!new)>(os: seq<RowOperator<V>>, k: nat) {
    forall i :: 0 <= i < |os| && i != k ==> KindsOf(os)[i] != JOIN
  }

  lemma OnlyJoin<V(!new)>(os: seq<RowOperator<V>>, kinds: seq<Kind>, k: nat)
    requires KindsOf(os) == kinds && forall i :: 0 <= i < |kinds| && i != k ==> kinds[i] != JOIN
    ensures OnlyAt(os, k)
  {
  }

  /** The same on operators of a pipeline. */
  lemma LosesAt<V(!new)>(ops: seq<Kernel<seq<V>>>, os: seq<RowOperator<V>>, k: nat, chunk: seq<seq<V>>,
                         a: seq<seq<V>>, b: seq<seq<V>>)
    requires Computes(ops, os) && 0 < k < |os| && chunk != [] && OnlyAt(os, k)
    requires Through(ops, 0, k, chunk) != [] && ops[k].outputs(Through(ops, 0, k, chunk)) == [a, b]
    requires Through(ops, k + 1, |ops|, b) != [] && !ComesBack(ops, k, a)
    ensures Loses(ops, os, chunk, 2)
  {
    forall i | 0 <= i < |os| ensures Implements(ops[i], RowsOfAll(os)[i]) && (i != k ==> Single(ops[i])) {
      assert Realizes(ops[i], os[i]) && KindsOf(os)[i] == KindOf(os[i]);
    }
    assert KindsOf(os)[0] == KindOf(os[0]);
    SingleOutput(ops[0], os[0], []);
    assert ops[0].outputs([]) == [[]];
    hide Through, Realizes, KindsOf, FlatMap, RowsOf, RowsOfAll;
    NoReturnLoses(ops, RowsOfAll(os), k, chunk);
  }

  // ----- a filter behind the join

  /** The row 0 fills a chunk with its matches, the row 1 finds one more; behind the join only
      rows that begin with 1 pass. */
  function FilterBehind(kinds: seq<Kind>, k: nat, capacity: nat): (os: seq<RowOperator<int>>)
    ensures KindsOf(os) == kinds && |os| == |kinds|
  {
    seq(|kinds|, i requires 0 <= i < |kinds| =>
      match kinds[i]
      case FILTER => Filtering(1, (x: seq<int>) => i < k || x == [1])
      case PROJECTION => Projecting((x: seq<int>) => x)
      case JOIN => Joining(1, (x: seq<int>) => Copies(if x == [0] then capacity else 1, [7])))
  }

  lemma InFrontOfJoin(kinds: seq<Kind>, k: nat, capacity: nat, i: nat)
    requires i < k < |kinds| && kinds[i] != JOIN && capacity >= 1
    ensures Machine(capacity, FilterBehind(kinds, k, capacity)[i]).outputs([[0], [1]]) == [[[0], [1]]]
  {
    hide Machine, FlatMap;
    var o := FilterBehind(kinds, k, capacity)[i];
    StreamOfTwo(capacity, o, [0], [1]);
    assert ResultsOn(o, [0]) == [[0]] && ResultsOn(o, [1]) == [[1]] && [[0]] + [[1]] == [[0], [1]];
  }

  lemma AtJoin(kinds: seq<Kind>, k: nat, capacity: nat)
    requires k < |kinds| && kinds[k] == JOIN && capacity >= 2
    ensures Machine(capacity, FilterBehind(kinds, k, capacity)[k]).outputs([[0], [1]]) ==
            [Copies(capacity, [0, 7]), Copies(1, [1, 7])]
  {
    hide Machine, FlatMap, ResultsOn;
    var o := FilterBehind(kinds, k, capacity)[k];
    assert [0][..1] == [0] && [1][..1] == [1] && [0] + [7] == [0, 7] && [1] + [7] == [1, 7];
    MatchesOfCopies(o, [0], capacity, [7]);
    MatchesOfCopies(o, [1], 1, [7]);
    FlatMapTwo(RowsOf(o), [0], [1]);
    JoinInTwo(capacity, o, [[0], [1]], Copies(capacity, [0, 7]), Copies(1, [1, 7]));
  }

  lemma BehindJoin(kinds: seq<Kind>, k: nat, capacity: nat, i: nat, n: nat, x: int)
    requires k < i < |kinds| && kinds[i] != JOIN && capacity >= 1
    ensures Machine(capacity, FilterBehind(kinds, k, capacity)[i]).outputs(Copies(n, [x, 7])) ==
            [if kinds[i] == FILTER && x != 1 then [] else Copies(n, [x, 7])]
  {
    hide Machine, FlatMap;
    StreamOfCopies(capacity, FilterBehind(kinds, k, capacity)[i], n, [x, 7]);
    assert [x, 7][..1] == [x];
  }

  /** In front of the join the chunk stays as it is; the join makes a and b of it; behind it,
      filters drop a, and b stays as it is. */
  ghost predicate DropsFirst<Row(!new)>(ops: seq<Kernel<Row>>, kinds: seq<Kind>, k: nat, chunk: seq<Row>,
                                        a: seq<Row>, b: seq<Row>)
    requires Proper(ops) && |ops| == |kinds|
  {
    forall i :: 0 <= i < |ops| ==> DropsFirstAt(ops[i], kinds[i], i, k, chunk, a, b)
  }

  ghost predicate DropsFirstAt<Row(!new)>(op: Kernel<Row>, kind: Kind, i: nat, k: nat, chunk: seq<Row>,
                                        a: seq<Row>, b: seq<Row>)
  {
    if i < k then |op.outputs(chunk)| >= 1 && op.outputs(chunk)[0] == chunk
    else if i == k then op.outputs(chunk) == [a, b]
    else
      && |op.outputs(a)| >= 1 && op.outputs(a)[0] == (if kind == FILTER then [] else a)
      && |op.outputs(b)| >= 1 && op.outputs(b)[0] == b
  }

  lemma FilterBehindAt(kinds: seq<Kind>, i: nat, k: nat, capacity: nat)
    requires k < |kinds| && i < |kinds| && (kinds[i] == JOIN <==> i == k) && capacity >= 2
    ensures DropsFirstAt(Machine(capacity, FilterBehind(kinds, k, capacity)[i]), kinds[i], i, k,
                         [[0], [1]], Copies(capacity, [0, 7]), Copies(1, [1, 7]))
  {
    hide Machine, FlatMap, ResultsOn, FilterBehind;
    if i < k {
      InFrontOfJoin(kinds, k, capacity, i);
    } else if i == k {
      AtJoin(kinds, k, capacity);
    } else {
      BehindJoin(kinds, k, capacity, i, capacity, 0);
      BehindJoin(kinds, k, capacity, i, 1, 1);
    }
  }

  function Always<R>(c: R): nat -> R { (l: nat) => c }

  lemma DropsFirstLeads<R(!new)>(ops: seq<Kernel<R>>, kinds: seq<Kind>, k: nat, f: nat, chunk: seq<R>, a: seq<R>, b: seq<R>)
    requires Proper(ops) && |ops| == |kinds| && DropsFirst(ops, kinds, k, chunk, a, b) && k < f < |kinds| && kinds[f] == FILTER
    requires chunk != [] && a != [] && b != []
    ensures Leads(ops, 0, k, Always(chunk)) && Leads(ops, k + 1, |ops|, Always(b)) && LeadsNowhere(ops, k + 1, |ops|, f, Always(a))
    ensures ops[k].outputs(chunk) == [a, b]
  {
    forall i | 0 <= i < |ops| ensures DropsFirstAt(ops[i], kinds[i], i, k, chunk, a, b) {
    }
  }

  /** The first joined row is dropped, the empty chunk stops at the head of the chain, and the
      second joined row is never fetched. */
  lemma FirstDroppedLoses<V(!new)>(ops: seq<Kernel<seq<V>>>, os: seq<RowOperator<V>>, kinds: seq<Kind>, k: nat, f: nat,
                                   chunk: seq<seq<V>>, a: seq<seq<V>>, b: seq<seq<V>>)
    requires Computes(ops, os) && |ops| == |kinds| && DropsFirst(ops, kinds, k, chunk, a, b)
    requires 0 < k < f < |kinds| && kinds[f] == FILTER && OnlyAt(os, k)
    requires chunk != [] && a != [] && b != []
    ensures Loses(ops, os, chunk, 2)
  {
    DropsFirstLeads(ops, kinds, k, f, chunk, a, b);
    FirstDroppedReturns(ops, os, k, f, chunk, a, b);
  }

  lemma FirstDroppedReturns<V(!new)>(ops: seq<Kernel<seq<V>>>, os: seq<RowOperator<V>>, k: nat, f: nat,
                                     chunk: seq<seq<V>>, a: seq<seq<V>>, b: seq<seq<V>>)
    requires Computes(ops, os) && 0 < k < f < |ops| && OnlyAt(os, k) && chunk != [] && b != []
    requires Leads(ops, 0, k, Always(chunk)) && Leads(ops, k + 1, |ops|, Always(b)) && LeadsNowhere(ops, k + 1, |ops|, f, Always(a))
    requires ops[k].outputs(chunk) == [a, b]
    ensures Loses(ops, os, chunk, 2)
  {
    assert |os| == |ops|;
    Follows(ops, 0, k, Always(chunk));
    Follows(ops, k + 1, |ops|, Always(b));
    Dropped(ops, k + 1, |ops|, f, Always(a));
    NothingComesBack(ops, k, a);
    LosesAt(ops, os, k, chunk, a, b);
  }

  lemma FilterBehindDrops(kinds: seq<Kind>, k: nat, capacity: nat)
    requires k < |kinds| && (forall i :: 0 <= i < |kinds| ==> (kinds[i] == JOIN <==> i == k)) && capacity >= 2
    ensures var ops := MachinesOf(capacity, FilterBehind(kinds, k, capacity));
      Proper(ops) && DropsFirst(ops, kinds, k, [[0], [1]], Copies(capacity, [0, 7]), Copies(1, [1, 7]))
  {
    hide Machine, FilterBehind, DropsFirstAt, Computes;
    MachinesAreProper(capacity, FilterBehind(kinds, k, capacity));
    forall i | 0 <= i < |kinds| {
      FilterBehindAt(kinds, i, k, capacity);
    }
  }

  lemma FilterBehindLoses(kinds: seq<Kind>, k: nat, f: nat, capacity: nat)
    requires 0 < k < f < |kinds| && kinds[f] == FILTER && forall i :: 0 <= i < |kinds| ==> (kinds[i] == JOIN <==> i == k)
    requires capacity >= 2
    ensures Loses(MachinesOf(capacity, FilterBehind(kinds, k, capacity)), FilterBehind(kinds, k, capacity), [[0], [1]], 2)
  {
    hide *;
    var os := FilterBehind(kinds, k, capacity);
    MachinesCompute(capacity, os);
    OnlyJoin(os, kinds, k);
    FilterBehindDrops(kinds, k, capacity);
    FirstDroppedLoses(MachinesOf(capacity, os), os, kinds, k, f, [[0], [1]], Copies(capacity, [0, 7]), Copies(1, [1, 7]));
  }

  // ----- a filter in front of the join and a projection

  function Projections(kinds: seq<Kind>, i: nat): nat {
    if i == 0 then 0 else Projections(kinds, i - 1) + if i <= |kinds| && kinds[i - 1] == PROJECTION then 1 else 0
  }

  /** Every projection adds 1 to the first column, every filter expects there what it finds
      the first time, and every row finds one build row more than fit into a chunk. */
  function CountingUp(kinds: seq<Kind>, capacity: nat): (os: seq<RowOperator<int>>)
    ensures KindsOf(os) == kinds && |os| == |kinds|
  {
    seq(|kinds|, i requires 0 <= i < |kinds| =>
      match kinds[i]
      case FILTER => Filtering(1, (x: seq<int>) => x == [Projections(kinds, i)])
      case PROJECTION => Projecting((x: seq<int>) => if x == [] then [] else [x[0] + 1] + x[1..])
      case JOIN => Joining(1, (x: seq<int>) => Copies(capacity + 1, [3])))
  }

  /** n copies of a row that begins with v. */
  function Counted(n: nat, v: int, rest: seq<int>): (rows: seq<seq<int>>)
    ensures |rows| == n
  {
    Copies(n, [v] + rest)
  }

  lemma CountingStep(kinds: seq<Kind>, capacity: nat, i: nat, n: nat, v: int, rest: seq<int>)
    requires i < |kinds| && kinds[i] != JOIN && capacity >= 1
    ensures Machine(capacity, CountingUp(kinds, capacity)[i]).outputs(Counted(n, v, rest)) ==
            [if kinds[i] == PROJECTION then Counted(n, v + 1, rest)
             else if v == Projections(kinds, i) then Counted(n, v, rest) else []]
  {
    hide Machine, FlatMap, Projections;
    StreamOfCopies(capacity, CountingUp(kinds, capacity)[i], n, [v] + rest);
    assert ([v] + rest)[..1] == [v] && ([v] + rest)[1..] == rest;
  }

  lemma CountingJoin(kinds: seq<Kind>, capacity: nat, k: nat, v: int)
    requires k < |kinds| && kinds[k] == JOIN && capacity >= 2
    ensures Machine(capacity, CountingUp(kinds, capacity)[k]).outputs(Counted(1, v, [])) ==
            [Counted(capacity, v, [3]), Counted(1, v, [3])]
  {
    hide Machine, FlatMap, ResultsOn;
    var o := CountingUp(kinds, capacity)[k];
    assert [v] + [] == [v] && [v][..1] == [v] && Copies(1, [v]) == [[v]];
    MatchesOfCopies(o, [v], capacity + 1, [3]);
    FlatMapOne(RowsOf(o), [v]);
    assert Copies(capacity + 1, [v] + [3]) == Counted(capacity, v, [3]) + Counted(1, v, [3]);
    JoinInTwo(capacity, o, Counted(1, v, []), Counted(capacity, v, [3]), Counted(1, v, [3]));
  }

  lemma {:induction false} ProjectionsGrow(kinds: seq<Kind>, i: nat, p: nat)
    requires p < i <= |kinds| && kinds[p] == PROJECTION
    ensures Projections(kinds, i) > 0
  {
    if p < i - 1 {
      ProjectionsGrow(kinds, i - 1, p);
    }
  }

  /** The first joined row comes back to a filter that drops it. */
  lemma ReturnDroppedLoses<V(!new)>(ops: seq<Kernel<seq<V>>>, os: seq<RowOperator<V>>, k: nat, f: nat,
                                    front: nat -> seq<seq<V>>,
                                    a: nat -> seq<seq<V>>, b: nat -> seq<seq<V>>, back: nat -> seq<seq<V>>)
    requires Computes(ops, os) && f < k < |ops| && OnlyAt(os, k)
    requires Leads(ops, 0, k, front) && front(0) != [] && front(k) != [] && ops[k].outputs(front(k)) == [a(k + 1), b(k + 1)]
    requires Leads(ops, k + 1, |ops|, a) && Leads(ops, k + 1, |ops|, b) && b(|ops|) != [] && a(|ops|) == back(0)
    requires LeadsNowhere(ops, 0, k, f, back)
    ensures Loses(ops, os, front(0), 2)
  {
    assert |os| == |ops|;
    hide Computes, Loses, Through, Leads, LeadsNowhere;
    Follows(ops, 0, k, front);
    Follows(ops, k + 1, |ops|, a);
    Follows(ops, k + 1, |ops|, b);
    Dropped(ops, 0, k, f, back);
    assert !ComesBack(ops, k, a(k + 1));
    LosesAt(ops, os, k, front(0), a(k + 1), b(k + 1));
  }

  lemma CountingMakes(kinds: seq<Kind>, capacity: nat, i: nat, n: nat, rest: seq<int>, late: nat)
    requires i < |kinds| && kinds[i] != JOIN && capacity >= 1 && n >= 1
    ensures var v := Projections(kinds, i) + late; var op := Machine(capacity, CountingUp(kinds, capacity)[i]);
      if kinds[i] == FILTER && late > 0 then Makes(op, Counted(n, v, rest), [])
      else Makes(op, Counted(n, v, rest), Counted(n, Projections(kinds, i + 1) + late, rest))
  {
    hide Machine, CountingUp;
    assert Projections(kinds, i + 1) == Projections(kinds, i) + if kinds[i] == PROJECTION then 1 else 0;
    CountingStep(kinds, capacity, i, n, Projections(kinds, i) + late, rest);
    assert |Counted(n, Projections(kinds, i) + late, rest)| == n;
  }

  /** n copies of the row that enters the chain as [late] + rest, on their way. */
  function Path(kinds: seq<Kind>, n: nat, rest: seq<int>, late: nat): nat -> seq<seq<int>> {
    (l: nat) => Counted(n, Projections(kinds, l) + late, rest)
  }

  lemma CountingLeads(kinds: seq<Kind>, capacity: nat, i: nat, j: nat, n: nat, rest: seq<int>)
    requires j <= |kinds| && (forall l :: i <= l < j ==> kinds[l] != JOIN) && capacity >= 1 && n >= 1
    ensures Leads(MachinesOf(capacity, CountingUp(kinds, capacity)), i, j, Path(kinds, n, rest, 0))
  {
    hide Machine, CountingUp, Projections, Counted, Makes;
    var ops, path := MachinesOf(capacity, CountingUp(kinds, capacity)), Path(kinds, n, rest, 0);
    forall l | i <= l < j ensures Makes(ops[l], path(l), path(l + 1)) {
      CountingMakes(kinds, capacity, l, n, rest, 0);
    }
  }

  lemma CountingLeadsNowhere(kinds: seq<Kind>, capacity: nat, k: nat, f: nat, n: nat, rest: seq<int>, late: nat)
    requires f < k <= |kinds| && kinds[f] == FILTER && late > 0 && forall l :: 0 <= l < k ==> kinds[l] != JOIN
    requires capacity >= 1 && n >= 1
    ensures LeadsNowhere(MachinesOf(capacity, CountingUp(kinds, capacity)), 0, k, f, Path(kinds, n, rest, late))
  {
    hide Machine, CountingUp, Projections, Counted, Makes;
    var ops, path := MachinesOf(capacity, CountingUp(kinds, capacity)), Path(kinds, n, rest, late);
    forall l | 0 <= l < k
      ensures kinds[l] == FILTER ==> Makes(ops[l], path(l), [])
      ensures kinds[l] != FILTER ==> Makes(ops[l], path(l), path(l + 1))
    {
      CountingMakes(kinds, capacity, l, n, rest, late);
    }
    assert Makes(ops[f], path(f), []);
  }

  lemma PathStarts(kinds: seq<Kind>)
    ensures Path(kinds, 1, [], 0)(0) == [[0]]
  {
    assert [0] + [] == [0];
  }

  lemma PathEnds(kinds: seq<Kind>, k: nat, n: nat, rest: seq<int>)
    requires k < |kinds| && kinds[k] == JOIN && n >= 1
    ensures Path(kinds, n, rest, 0)(|kinds|) == Path(kinds, n, rest, Projections(kinds, |kinds|))(0)
    ensures Path(kinds, n, rest, 0)(k) == Counted(n, Projections(kinds, k), rest)
    ensures |Path(kinds, n, rest, 0)(k)| == |Path(kinds, n, rest, 0)(|kinds|)| == n
    ensures Path(kinds, n, rest, 0)(k + 1) == Counted(n, Projections(kinds, k), rest)
  {
    ProjectionsAt(kinds, k);
    hide Projections, Counted;
  }

  lemma ProjectionsAt(kinds: seq<Kind>, k: nat)
    requires k < |kinds| && kinds[k] == JOIN
    ensures Projections(kinds, 0) == 0 && Projections(kinds, k + 1) == Projections(kinds, k)
  {
  }

  lemma CountingPaths(kinds: seq<Kind>, capacity: nat, k: nat)
    requires k < |kinds| && kinds[k] == JOIN && capacity >= 2
    ensures Path(kinds, capacity, [3], 0)(|kinds|) == Path(kinds, capacity, [3], Projections(kinds, |kinds|))(0)
    ensures Path(kinds, 1, [], 0)(0) == [[0]] && Path(kinds, 1, [], 0)(k) != [] && Path(kinds, 1, [3], 0)(|kinds|) != []
    ensures MachinesOf(capacity, CountingUp(kinds, capacity))[k].outputs(Path(kinds, 1, [], 0)(k)) ==
            [Path(kinds, capacity, [3], 0)(k + 1), Path(kinds, 1, [3], 0)(k + 1)]
  {
    hide CountingUp, Machine, Counted, Projections, Path;
    PathStarts(kinds);
    PathEnds(kinds, k, 1, []);
    PathEnds(kinds, k, capacity, [3]);
    PathEnds(kinds, k, 1, [3]);
    CountingJoin(kinds, capacity, k, Projections(kinds, k));
  }

  lemma CountingReturns(ops: seq<Kernel<seq<int>>>, os: seq<RowOperator<int>>, kinds: seq<Kind>, capacity: nat,
                        k: nat, f: nat, p: nat)
    requires capacity >= 2 && ops == MachinesOf(capacity, CountingUp(kinds, capacity)) && Computes(ops, os) && OnlyAt(os, k)
    requires f < k < |kinds| && kinds[f] == FILTER && p < |kinds| && kinds[p] == PROJECTION
    requires forall i :: 0 <= i < |kinds| ==> (kinds[i] == JOIN <==> i == k)
    ensures Loses(ops, os, [[0]], 2)
  {
    hide *;
    var n, late := |kinds|, Projections(kinds, |kinds|);
    CountingLeads(kinds, capacity, 0, k, 1, []);
    CountingLeads(kinds, capacity, k + 1, n, capacity, [3]);
    CountingLeads(kinds, capacity, k + 1, n, 1, [3]);
    CountingPaths(kinds, capacity, k);
    ProjectionsGrow(kinds, n, p);
    CountingLeadsNowhere(kinds, capacity, k, f, capacity, [3], late);
    ReturnDroppedLoses(ops, os, k, f, Path(kinds, 1, [], 0), Path(kinds, capacity, [3], 0), Path(kinds, 1, [3], 0),
                       Path(kinds, capacity, [3], late));
  }

  lemma CountingUpLoses(kinds: seq<Kind>, k: nat, f: nat, p: nat, capacity: nat)
    requires f < k < |kinds| && kinds[f] == FILTER && p < |kinds| && kinds[p] == PROJECTION
    requires (forall i :: 0 <= i < |kinds| ==> (kinds[i] == JOIN <==> i == k)) && capacity >= 2
    ensures Loses(MachinesOf(capacity, CountingUp(kinds, capacity)), CountingUp(kinds, capacity), [[0]], 2)
  {
    hide *;
    var os := CountingUp(kinds, capacity);
    MachinesCompute(capacity, os);
    OnlyJoin(os, kinds, k);
    CountingReturns(MachinesOf(capacity, os), os, kinds, capacity, k, f, p);
  }

  // ----- two joins

  /** Every row passes; at the first join it finds one build row more than fit into a chunk, at
      the others one. */
  function FanningOut(kinds: seq<Kind>, k: nat, capacity: nat): (os: seq<RowOperator<int>>)
    ensures KindsOf(os) == kinds && |os| == |kinds|
  {
    seq(|kinds|, i requires 0 <= i < |kinds| =>
      match kinds[i]
      case FILTER => Filtering(1, (x: seq<int>) => true)
      case PROJECTION => Projecting((x: seq<int>) => x)
      case JOIN => Joining(1, (x: seq<int>) => Copies(if i == k then capacity + 1 else 1, [3])))
  }

  /** The row as it reaches operator i: every join has put one value behind it. */
  function Grown(kinds: seq<Kind>, i: nat): (row: seq<int>)
    ensures |row| >= 1 && row[0] == 0
  {
    if i == 0 then [0] else Grown(kinds, i - 1) + if i <= |kinds| && kinds[i - 1] == JOIN then [3] else []
  }

  /** n rows of it, on their way. */
  function Wave(kinds: seq<Kind>, n: nat): nat -> seq<seq<int>> {
    (i: nat) => Copies(n, Grown(kinds, i))
  }

  /** What operator i makes of a single row and of a full chunk. */
  ghost predicate FansAt<Row(!new)>(op: Kernel<Row>, kind: Kind, i: nat, k: nat, one: nat -> seq<Row>, full: nat -> seq<Row>,
                                    last: seq<Row>)
  {
    if i < k then op.outputs(one(i)) == [one(i + 1)] && op.outputs(last) == [last]
    else if i == k then op.outputs(one(i)) == [full(i + 1), one(i + 1)]
    else if kind == JOIN then op.outputs(full(i)) == [full(i + 1), []]
    else op.outputs(one(i)) == [one(i + 1)] && op.outputs(full(i)) == [full(i + 1)]
  }

  ghost predicate Fans<Row(!new)>(ops: seq<Kernel<Row>>, kinds: seq<Kind>, k: nat, one: nat -> seq<Row>, full: nat -> seq<Row>) {
    && |ops| == |kinds| && k < |kinds| && Proper(ops) && kinds[k] == JOIN
    && (forall i :: 0 <= i < |ops| && kinds[i] != JOIN ==> Single(ops[i])) && (forall i :: 0 <= i < k ==> kinds[i] != JOIN)
    && (forall i :: 0 <= i < |ops| ==> FansAt(ops[i], kinds[i], i, k, one, full, full(|ops|)))
    && forall i {:trigger one(i)} {:trigger full(i)} :: 0 <= i <= |ops| ==> one(i) != [] && full(i) != []
  }

  /** Joins from operator 'from' on hold an empty chunk, the others nothing. */
  ghost predicate HoldEmpty<Row(!new)>(pending: Pending<Row>, kinds: seq<Kind>, from: nat) {
    && |pending| == |kinds|
    && forall i :: from <= i < |kinds| ==> pending[i] == if kinds[i] == JOIN then [[]] else []
  }

  /** Behind the first join a full chunk passes, and fills the output of every join exactly. */
  lemma {:induction false} FullPass<Row(!new)>(ops: seq<Kernel<Row>>, kinds: seq<Kind>, k: nat, one: nat -> seq<Row>,
                                               full: nat -> seq<Row>, pending: Pending<Row>, i: nat)
    requires Fans(ops, kinds, k, one, full) && k < i <= |ops| == |pending| && Idle(pending, i)
    ensures var r := Pass(ops, pending, i, full(i));
      r.chunk == full(|ops|) && HoldEmpty(r.pending, kinds, i) && forall l :: 0 <= l < i ==> r.pending[l] == pending[l]
    decreases |ops| - i
  {
    if i == |ops| {
    } else {
      assert FansAt(ops[i], kinds[i], i, k, one, full, full(|ops|)) && full(i) != [] && full(i + 1) != [];
      FullPass(ops, kinds, k, one, full, pending[i := ops[i].outputs(full(i))[1..]], i + 1);
    }
  }

  /** The rest of the first join's output gets no further than the next join, which emits its
      empty chunk. */
  lemma {:induction false} RestPass<Row(!new)>(ops: seq<Kernel<Row>>, kinds: seq<Kind>, k: nat, one: nat -> seq<Row>,
                                               full: nat -> seq<Row>, pending: Pending<Row>, i: nat, l: nat)
    requires Fans(ops, kinds, k, one, full) && k < i <= l < |ops| && kinds[l] == JOIN && HoldEmpty(pending, kinds, i)
    ensures var r := Pass(ops, pending, i, one(i)); r.chunk == [] && !r.more
    decreases l - i
  {
    assert one(i) != [] && one(i + 1) != [];
    if kinds[i] == JOIN {
    } else {
      assert FansAt(ops[i], kinds[i], i, k, one, full, full(|ops|));
      assert pending[i := []] == pending;
      RestPass(ops, kinds, k, one, full, pending, i + 1, l);
    }
  }

  /** The first pass delivers a full chunk, the second nothing, and that is all. */
  lemma FansDrain<Row(!new)>(ops: seq<Kernel<Row>>, kinds: seq<Kind>, k: nat, one: nat -> seq<Row>, full: nat -> seq<Row>, l: nat)
    requires Fans(ops, kinds, k, one, full) && k < l < |ops| && kinds[l] == JOIN
    ensures var r := Loop(ops, AllIdle(|ops|), one(0), 2); r.Drained? && r.sunk == full(|ops|)
  {
    var idle: Pending<Row> := AllIdle(|ops|);
    FirstFanPass(ops, kinds, k, one, full);
    var r := Pass(ops, idle, 0, one(0));
    SecondFanPass(ops, kinds, k, one, full, r.pending, l);
    assert Loop(ops, r.pending, r.chunk, 1).Drained?;
    assert full(|ops|) + [] == full(|ops|);
  }

  /** In front of the first join the row and, later, the full chunk pass unchanged in number. */
  lemma GetsThere<Row(!new)>(ops: seq<Kernel<Row>>, kinds: seq<Kind>, k: nat, one: nat -> seq<Row>, full: nat -> seq<Row>,
                             pending: Pending<Row>)
    requires Fans(ops, kinds, k, one, full) && |pending| == |ops| && forall i :: 0 <= i < k ==> pending[i] == []
    ensures Pass(ops, pending, 0, one(0)) == Pass(ops, pending, k, one(k))
    ensures Pass(ops, pending, 0, full(|ops|)) == Pass(ops, pending, k, full(|ops|))
  {
    var last := full(|ops|);
    assert last != [] && one(0) != [] && one(k) != [];
    forall i | 0 <= i < k ensures Makes(ops[i], one(i), one(i + 1)) && Makes(ops[i], last, last) {
      assert FansAt(ops[i], kinds[i], i, k, one, full, last) && one(i) != [];
    }
    Follows(ops, 0, k, one);
    Follows(ops, 0, k, Always(last));
    hide FansAt, Makes, Pass, Through;
    PassThrough(ops, pending, 0, k, one(0));
    PassThrough(ops, pending, 0, k, last);
  }

  lemma FirstFanPass<Row(!new)>(ops: seq<Kernel<Row>>, kinds: seq<Kind>, k: nat, one: nat -> seq<Row>, full: nat -> seq<Row>)
    requires Fans(ops, kinds, k, one, full)
    ensures var r := Pass(ops, AllIdle(|ops|), 0, one(0));
      && r.chunk == full(|ops|) && r.more && HoldEmpty(r.pending, kinds, k + 1) && r.pending[k] == [one(k + 1)]
      && forall i :: 0 <= i < k ==> r.pending[i] == []
  {
    var idle: Pending<Row> := AllIdle(|ops|);
    GetsThere(ops, kinds, k, one, full, idle);
    assert one(k) != [] && full(k + 1) != [];
    assert FansAt(ops[k], kinds[k], k, k, one, full, full(|ops|));
    TailOfPair(full(k + 1), one(k + 1));
    FullPass(ops, kinds, k, one, full, idle[k := [one(k + 1)]], k + 1);
  }

  lemma TailOfPair<A>(a: A, b: A)
    ensures [a, b][1..] == [b] && [a][1..] == []
  {
  }

  lemma SecondFanPass<Row(!new)>(ops: seq<Kernel<Row>>, kinds: seq<Kind>, k: nat, one: nat -> seq<Row>, full: nat -> seq<Row>,
                                 held: Pending<Row>, l: nat)
    requires Fans(ops, kinds, k, one, full) && k < l < |ops| && kinds[l] == JOIN
    requires HoldEmpty(held, kinds, k + 1) && held[k] == [one(k + 1)] && forall i :: 0 <= i < k ==> held[i] == []
    ensures var r := Pass(ops, held, 0, full(|ops|)); r.chunk == [] && !r.more
  {
    GetsThere(ops, kinds, k, one, full, held);
    assert one(k + 1) != [];
    TailOfPair(one(k + 1), one(k + 1));
    RestPass(ops, kinds, k, one, full, held[k := []], k + 1, l);
  }

  // the operators do so

  lemma FanningRows(kinds: seq<Kind>, k: nat, capacity: nat, i: nat)
    requires i < |kinds|
    ensures ResultsOn(FanningOut(kinds, k, capacity)[i], Grown(kinds, i)) ==
            Copies(if kinds[i] == JOIN && i == k then capacity + 1 else 1, Grown(kinds, i + 1))
  {
    var o, row := FanningOut(kinds, k, capacity)[i], Grown(kinds, i);
    if kinds[i] == JOIN {
      hide ResultsOn;
      MatchesOfCopies(o, row, if i == k then capacity + 1 else 1, [3]);
    } else {
      assert row + [] == row && Copies(1, row) == [row];
    }
  }

  lemma FanningStream(kinds: seq<Kind>, k: nat, capacity: nat, i: nat, n: nat, row: seq<int>)
    requires i < |kinds| && kinds[i] != JOIN && capacity >= 1 && |row| >= 1
    ensures Machine(capacity, FanningOut(kinds, k, capacity)[i]).outputs(Copies(n, row)) == [Copies(n, row)]
  {
    hide Machine;
    StreamOfCopies(capacity, FanningOut(kinds, k, capacity)[i], n, row);
  }

  lemma FanningJoin(kinds: seq<Kind>, k: nat, capacity: nat, i: nat)
    requires k <= i < |kinds| && kinds[i] == JOIN && capacity >= 2
    ensures var op := Machine(capacity, FanningOut(kinds, k, capacity)[i]); var next := Grown(kinds, i + 1);
      if i == k then op.outputs(Copies(1, Grown(kinds, i))) == [Copies(capacity, next), Copies(1, next)]
      else op.outputs(Copies(capacity, Grown(kinds, i))) == [Copies(capacity, next), []]
  {
    hide Machine, FlatMap, ResultsOn, Grown;
    var o, row, next := FanningOut(kinds, k, capacity)[i], Grown(kinds, i), Grown(kinds, i + 1);
    FanningRows(kinds, k, capacity, i);
    if i == k {
      assert Copies(1, row) == [row] && Copies(capacity + 1, next) == Copies(capacity, next) + Copies(1, next);
      FlatMapOne(RowsOf(o), row);
      JoinInTwo(capacity, o, Copies(1, row), Copies(capacity, next), Copies(1, next));
    } else {
      FlatMapCopies(RowsOf(o), capacity, row);
      assert Copies(capacity, next) + [] == Copies(capacity, next);
      JoinInTwo(capacity, o, Copies(capacity, row), Copies(capacity, next), []);
    }
  }

  lemma {:induction false} GrownStays(kinds: seq<Kind>, i: nat, j: nat)
    requires i <= j <= |kinds| && forall l :: i <= l < j ==> kinds[l] != JOIN
    ensures Grown(kinds, j) == Grown(kinds, i)
    decreases j - i
  {
    if i == j {
    } else {
      GrownStays(kinds, i, j - 1);
      assert Grown(kinds, j - 1) + [] == Grown(kinds, j - 1);
    }
  }

  lemma FanningFansAt(kinds: seq<Kind>, k: nat, capacity: nat, i: nat)
    requires i < |kinds| && capacity >= 2 && k < |kinds| && kinds[k] == JOIN && forall l :: 0 <= l < k ==> kinds[l] != JOIN
    ensures FansAt(Machine(capacity, FanningOut(kinds, k, capacity)[i]), kinds[i], i, k, Wave(kinds, 1), Wave(kinds, capacity),
                   Wave(kinds, capacity)(|kinds|))
  {
    hide Machine, FanningOut, Grown;
    if kinds[i] == JOIN {
      FanningJoin(kinds, k, capacity, i);
    } else {
      GrownStays(kinds, i, i + 1);
      FanningStream(kinds, k, capacity, i, 1, Grown(kinds, i));
      FanningStream(kinds, k, capacity, i, capacity, Grown(kinds, i));
      FanningStream(kinds, k, capacity, i, capacity, Grown(kinds, |kinds|));
    }
  }

  lemma FanningFans(kinds: seq<Kind>, k: nat, capacity: nat)
    requires capacity >= 2 && k < |kinds| && kinds[k] == JOIN && forall l :: 0 <= l < k ==> kinds[l] != JOIN
    ensures Fans(MachinesOf(capacity, FanningOut(kinds, k, capacity)), kinds, k, Wave(kinds, 1), Wave(kinds, capacity))
  {
    hide Machine, FanningOut, Grown, FansAt, Single, Proper;
    MachinesAreProper(capacity, FanningOut(kinds, k, capacity));
    OthersAreSingle(capacity, FanningOut(kinds, k, capacity), kinds);
    forall i | 0 <= i < |kinds| {
      FanningFansAt(kinds, k, capacity, i);
    }
    forall i: nat ensures |Wave(kinds, 1)(i)| == 1 && |Wave(kinds, capacity)(i)| == capacity {
    }
  }

  lemma OthersAreSingle<V(!new)>(capacity: nat, os: seq<RowOperator<V>>, kinds: seq<Kind>)
    requires KindsOf(os) == kinds && capacity >= 1
    ensures forall i :: 0 <= i < |os| && kinds[i] != JOIN ==> Single(MachinesOf(capacity, os)[i])
  {
    hide Machine, Single;
    forall i | 0 <= i < |os| && kinds[i] != JOIN ensures Single(MachinesOf(capacity, os)[i]) {
      assert kinds[i] == KindOf(os[i]);
      StreamIsSingle(capacity, os[i]);
    }
  }

  lemma StreamIsSingle<V(!new)>(capacity: nat, o: RowOperator<V>)
    requires capacity >= 1 && !o.Joining?
    ensures Single(Machine(capacity, o))
  {
    hide FlatMap, RowsOf;
  }

  lemma FanningStep(kinds: seq<Kind>, k: nat, capacity: nat, i: nat, n: nat)
    requires k < |kinds| && kinds[k] == JOIN && i < |kinds| && (i == k ==> n == 1)
    ensures FlatMap(RowsOf(FanningOut(kinds, k, capacity)[i]), Copies(n, Grown(kinds, i))) ==
            Copies(if i == k then capacity + 1 else n, Grown(kinds, i + 1))
  {
    hide FanningOut, Grown, ResultsOn;
    var f, row := RowsOf(FanningOut(kinds, k, capacity)[i]), Grown(kinds, i);
    FanningRows(kinds, k, capacity, i);
    if i == k {
      assert Copies(1, row) == [row];
      FlatMapOne(f, row);
    } else {
      FlatMapCopies(f, n, row);
    }
  }

  /** What the operators should make of the row: one row more than fit into a chunk. */
  lemma {:induction false} FanningChain(kinds: seq<Kind>, k: nat, capacity: nat, i: nat, n: nat)
    requires k < |kinds| && kinds[k] == JOIN && i <= |kinds| && n == if i <= k then 1 else capacity + 1
    ensures |Chain(RowsOfAll(FanningOut(kinds, k, capacity))[i..], Copies(n, Grown(kinds, i)))| == capacity + 1
    decreases |kinds| - i
  {
    var fs := RowsOfAll(FanningOut(kinds, k, capacity));
    if i == |kinds| {
    } else {
      hide FanningOut, Grown, FlatMap;
      assert fs[i..][0] == fs[i] && fs[i..][1..] == fs[i + 1..];
      FanningStep(kinds, k, capacity, i, n);
      FanningChain(kinds, k, capacity, i + 1, if i < k then 1 else capacity + 1);
    }
  }

  lemma FanningOutLoses(kinds: seq<Kind>, k: nat, l: nat, capacity: nat)
    requires k < l < |kinds| && kinds[k] == kinds[l] == JOIN && (forall i :: 0 <= i < k ==> kinds[i] != JOIN) && capacity >= 2
    ensures Loses(MachinesOf(capacity, FanningOut(kinds, k, capacity)), FanningOut(kinds, k, capacity), [[0]], 2)
  {
    hide *;
    var os := FanningOut(kinds, k, capacity);
    MachinesCompute(capacity, os);
    FanningFans(kinds, k, capacity);
    FanningChain(kinds, k, capacity, 0, 1);
    FanningRun(MachinesOf(capacity, os), os, kinds, k, l, capacity);
  }

  lemma FanningRun(ops: seq<Kernel<seq<int>>>, os: seq<RowOperator<int>>, kinds: seq<Kind>, k: nat, l: nat, capacity: nat)
    requires Computes(ops, os) && Fans(ops, kinds, k, Wave(kinds, 1), Wave(kinds, capacity)) && k < l < |kinds| && kinds[l] == JOIN
    requires |Chain(RowsOfAll(os)[0..], Copies(1, Grown(kinds, 0)))| == capacity + 1
    ensures Loses(ops, os, [[0]], 2)
  {
    hide Computes, Fans, Grown;
    SameLength(ops, kinds, k, Wave(kinds, 1), Wave(kinds, capacity));
    FansDrain(ops, kinds, k, Wave(kinds, 1), Wave(kinds, capacity), l);
    StartOfWave(kinds);
    assert RowsOfAll(os)[0..] == RowsOfAll(os);
  }

  lemma SameLength<Row(!new)>(ops: seq<Kernel<Row>>, kinds: seq<Kind>, k: nat, one: nat -> seq<Row>, full: nat -> seq<Row>)
    requires Fans(ops, kinds, k, one, full)
    ensures |ops| == |kinds| && Proper(ops)
  {
  }

  lemma StartOfWave(kinds: seq<Kind>)
    ensures Wave(kinds, 1)(0) == [[0]] == Copies(1, Grown(kinds, 0))
  {
  }

  // ----- exactly which arrangements lose nothing

  /** Whatever is not safe loses rows somewhere, whatever the capacity of a chunk. */
  lemma UnsafeLoses(kinds: seq<Kind>, capacity: nat) returns (os: seq<RowOperator<int>>, chunk: seq<seq<int>>)
    requires !Safe(kinds) && capacity >= 2
    ensures KindsOf(os) == kinds && |chunk| <= 2 && Loses(MachinesOf(capacity, os), os, chunk, 2)
  {
    hide Loses, MachinesOf, FanningOut, FilterBehind, CountingUp, KindsOf;
    var k :| 0 <= k < |kinds| && kinds[k] == JOIN && !SafeJoin(kinds, k);
    if j :| 0 <= j < |kinds| && j != k && kinds[j] == JOIN {
      var first, second := TwoOf(kinds, if k < j then k else j, if k < j then j else k);
      FanningOutLoses(kinds, first, second, capacity);
      os, chunk := FanningOut(kinds, first, capacity), [[0]];
    } else {
      var f :| 0 <= f < |kinds| && kinds[f] == FILTER;
      if g :| k < g < |kinds| && kinds[g] == FILTER {
        FilterBehindLoses(kinds, k, g, capacity);
        os, chunk := FilterBehind(kinds, k, capacity), [[0], [1]];
      } else {
        var p := SomeProjection(kinds, k, f);
        CountingUpLoses(kinds, k, f, p, capacity);
        os, chunk := CountingUp(kinds, capacity), [[0]];
      }
    }
  }

  /** The first join, and another one. */
  lemma {:induction false} TwoOf(kinds: seq<Kind>, k: nat, l: nat) returns (first: nat, second: nat)
    requires k < l < |kinds| && kinds[k] == kinds[l] == JOIN
    ensures first < second < |kinds| && kinds[first] == kinds[second] == JOIN && forall i :: 0 <= i < first ==> kinds[i] != JOIN
    decreases k
  {
    if j: nat :| j < k && kinds[j] == JOIN {
      first, second := TwoOf(kinds, j, l);
    } else {
      first, second := k, l;
    }
  }

  lemma SomeProjection(kinds: seq<Kind>, k: nat, f: nat) returns (p: nat)
    requires f < k < |kinds| && kinds[k] == JOIN && !SafeJoin(kinds, k)
    requires forall i :: 0 <= i < |kinds| && i != k ==> kinds[i] != JOIN
    requires forall i :: k < i < |kinds| ==> kinds[i] != FILTER
    ensures p < |kinds| && kinds[p] == PROJECTION
  {
    if k + 1 < |kinds| {
      p := k + 1;
    } else {
      p :| 0 <= p < |kinds| && kinds[p] == PROJECTION;
    }
  }

  /** The operators as they run with this capacity. */
  ghost predicate RunAs<V(!new)>(ops: seq<Kernel<seq<V>>>, os: seq<RowOperator<V>>, capacity: nat)
    requires capacity >= 1
  {
    Computes(ops, os) && ops == MachinesOf(capacity, os)
  }

  /** Whatever the filters keep, the projections compute and the joins find. */
  ghost predicate AlwaysConserves(kinds: seq<Kind>, capacity: nat)
    requires capacity >= 1
  {
    forall ops: seq<Kernel<seq<int>>>, os, chunk ::
      RunAs(ops, os, capacity) && KindsOf(os) == kinds && 0 < |chunk| <= capacity ==> Conserves(ops, RowsOfAll(os), chunk)
  }

  /** And however the joins cut their output. */
  lemma SafeConserves<V(!new)>(ops: seq<Kernel<seq<V>>>, os: seq<RowOperator<V>>, chunk: seq<seq<V>>)
    requires Computes(ops, os) && Safe(KindsOf(os)) && chunk != []
    ensures Conserves(ops, RowsOfAll(os), chunk)
  {
    SafeRestarts(ops, os);
    forall i | 0 <= i < |ops| ensures Implements(ops[i], RowsOfAll(os)[i]) {
      assert Realizes(ops[i], os[i]);
    }
    RestartableConserves(ops, RowsOfAll(os), chunk);
  }

  /** The drain loop loses nothing exactly when there is at most one join, and it leads the
      chain, or there is no filter, or it ends the chain and there is no projection. */
  lemma DrainConservesIff(kinds: seq<Kind>, capacity: nat)
    requires capacity >= 2
    ensures AlwaysConserves(kinds, capacity) <==> Safe(kinds)
  {
    if Safe(kinds) {
      forall ops: seq<Kernel<seq<int>>>, os, chunk | RunAs(ops, os, capacity) && KindsOf(os) == kinds && 0 < |chunk| <= capacity
        ensures Conserves(ops, RowsOfAll(os), chunk)
      {
        SafeConserves(ops, os, chunk);
      }
    } else {
      hide Safe, Loses, Conserves, MachinesOf, KindsOf;
      var os, chunk := UnsafeLoses(kinds, capacity);
      LosesRows(MachinesOf(capacity, os), os, chunk, capacity);
    }
  }

  lemma LosesRows<V(!new)>(ops: seq<Kernel<seq<V>>>, os: seq<RowOperator<V>>, chunk: seq<seq<V>>, capacity: nat)
    requires capacity >= 1 && ops == MachinesOf(capacity, os) && Loses(ops, os, chunk, 2)
    ensures RunAs(ops, os, capacity) && chunk != [] && !Conserves(ops, RowsOfAll(os), chunk)
  {
    hide MachinesOf, Realizes;
    LosesForGood(ops, RowsOfAll(os), chunk, 2);
  }
}
