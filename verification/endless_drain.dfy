/** Two joins in one chain on which the drain loop runs for ever. */
module EndlessDrain {
  import opened Drain
  import opened Machines
  import opened Operators
  import opened Restarts
  import opened Rows

  /** A row that begins with 0 finds three build rows, any other row finds u. */
  function Fan(u: nat): RowOperator<int> {
    Joining(1, (x: seq<int>) => Copies(if x == [0] then 3 else u, [3]))
  }

  function TwoJoins(): seq<RowOperator<int>> { [Fan(1), Fan(2)] }

  /** Rows that begin with 0, and behind them rows that begin with 1. */
  function Mix(zeros: nat, ones: nat, rest: seq<int>): (rows: seq<seq<int>>)
    ensures |rows| == zeros + ones
  {
    Copies(zeros, [0] + rest) + Copies(ones, [1] + rest)
  }

  /** And rows that begin with 1 in front of them. */
  function Ones(n: nat, rest: seq<int>): (rows: seq<seq<int>>)
    ensures |rows| == n
  {
    Copies(n, [1] + rest)
  }

  /** The chunk to start with, full for chunks of 8 * z rows. */
  function Start(z: nat): (rows: seq<seq<int>>)
    ensures |rows| == 8 * z
  {
    Ones(z, []) + Mix(z, 6 * z, [])
  }

  // ----- what the joins make of such rows

  lemma {:induction false} FlatMapTimes<A(!new), B(!new)>(f: A -> seq<B>, n: nat, x: A, k: nat, y: B)
    requires f(x) == Copies(k, y)
    ensures FlatMap(f, Copies(n, x)) == Copies(k * n, y)
  {
    if n == 0 {
    } else {
      FlatMapTimes(f, n - 1, x, k, y);
      assert k * n == k + k * (n - 1);
      assert Copies(n, x)[1..] == Copies(n - 1, x);
      assert Copies(k, y) + Copies(k * (n - 1), y) == Copies(k * n, y);
    }
  }

  lemma FanOne(u: nat, rest: seq<int>)
    ensures RowsOf(Fan(u))([0] + rest) == Copies(3, [0] + (rest + [3]))
    ensures RowsOf(Fan(u))([1] + rest) == Copies(u, [1] + (rest + [3]))
  {
    assert ([0] + rest)[..1] == [0] && ([1] + rest)[..1] == [1];
    assert ([0] + rest) + [3] == [0] + (rest + [3]) && ([1] + rest) + [3] == [1] + (rest + [3]);
    hide ResultsOn;
    MatchesOfCopies(Fan(u), [0] + rest, 3, [3]);
    MatchesOfCopies(Fan(u), [1] + rest, u, [3]);
  }

  lemma FanRows(u: nat, zeros: nat, ones: nat, rest: seq<int>)
    ensures FlatMap(RowsOf(Fan(u)), Mix(zeros, ones, rest)) == Mix(3 * zeros, u * ones, rest + [3])
    ensures FlatMap(RowsOf(Fan(u)), Ones(ones, rest)) == Ones(u * ones, rest + [3])
  {
    var f := RowsOf(Fan(u));
    FanOne(u, rest);
    hide Fan, RowsOf;
    FlatMapAppend(f, Copies(zeros, [0] + rest), Copies(ones, [1] + rest));
    FlatMapTimes(f, zeros, [0] + rest, 3, [0] + (rest + [3]));
    FlatMapTimes(f, ones, [1] + rest, u, [1] + (rest + [3]));
  }

  lemma FanRowsBehindOnes(u: nat, first: nat, zeros: nat, ones: nat, rest: seq<int>)
    ensures FlatMap(RowsOf(Fan(u)), Ones(first, rest) + Mix(zeros, ones, rest)) ==
            Ones(u * first, rest + [3]) + Mix(3 * zeros, u * ones, rest + [3])
  {
    hide Fan, Mix, Ones;
    FlatMapAppend(RowsOf(Fan(u)), Ones(first, rest), Mix(zeros, ones, rest));
    FanRows(u, 0, first, rest);
    FanRows(u, zeros, ones, rest);
  }

  /** The four steps that the loop is made of. */
  ghost predicate Alternates(ops: seq<Kernel<seq<int>>>, z: nat, rest: seq<int>) {
    var more := rest + [3];
    && |ops| == 2
    && (rest == [] ==> ops[0].outputs(Start(z)) == [Ones(z, more) + Mix(3 * z, 4 * z, more), Ones(2 * z, more)])
    && ops[1].outputs(Ones(z, rest) + Mix(3 * z, 4 * z, rest)) ==
       [Ones(2 * z, more) + Mix(6 * z, 0, more), Mix(3 * z, 5 * z, more), Ones(3 * z, more)]
    && ops[0].outputs(Mix(3 * z, 5 * z, rest)) == [Mix(8 * z, 0, more), Mix(z, 5 * z, more)]
    && ops[1].outputs(Mix(z, 5 * z, rest)) == [Mix(3 * z, 5 * z, more), Ones(5 * z, more)]
  }

  lemma MixInTwo(zeros: nat, ones: nat, a: nat, b: nat, rest: seq<int>)
    ensures Mix(zeros + a, ones, rest) == Mix(zeros, 0, rest) + Mix(a, ones, rest)
    ensures Mix(zeros, ones + b, rest) == Mix(zeros, ones, rest) + Ones(b, rest)
  {
  }

  lemma FirstFans(z: nat, rest: seq<int>)
    requires z >= 1
    ensures var more := rest + [3];
      Machine(8 * z, Fan(1)).outputs(Mix(3 * z, 5 * z, rest)) == [Mix(8 * z, 0, more), Mix(z, 5 * z, more)]
  {
    var more := rest + [3];
    hide *;
    FanRows(1, 3 * z, 5 * z, rest);
    MixInTwo(8 * z, 5 * z, z, 0, more);
    FanIsJoin(1);
    JoinInTwo(8 * z, Fan(1), Mix(3 * z, 5 * z, rest), Mix(8 * z, 0, more), Mix(z, 5 * z, more));
  }

  lemma StartFans(z: nat)
    requires z >= 1
    ensures Machine(8 * z, Fan(1)).outputs(Start(z)) == [Ones(z, [3]) + Mix(3 * z, 4 * z, [3]), Ones(2 * z, [3])]
  {
    hide Machine, FlatMap, Mix, Ones, RowsOf;
    FanRowsBehindOnes(1, z, z, 6 * z, []);
    assert [] + [3] == [3];
    MixInTwo(3 * z, 4 * z, 0, 2 * z, [3]);
    Associate(Ones(z, [3]), Mix(3 * z, 4 * z, [3]), Ones(2 * z, [3]));
    JoinInTwo(8 * z, Fan(1), Start(z), Ones(z, [3]) + Mix(3 * z, 4 * z, [3]), Ones(2 * z, [3]));
  }

  lemma SecondFans(z: nat, rest: seq<int>)
    requires z >= 1
    ensures var more := rest + [3];
      Machine(8 * z, Fan(2)).outputs(Mix(z, 5 * z, rest)) == [Mix(3 * z, 5 * z, more), Ones(5 * z, more)]
  {
    var more := rest + [3];
    hide *;
    FanRows(2, z, 5 * z, rest);
    MixInTwo(3 * z, 5 * z, 0, 5 * z, more);
    FanIsJoin(2);
    JoinInTwo(8 * z, Fan(2), Mix(z, 5 * z, rest), Mix(3 * z, 5 * z, more), Ones(5 * z, more));
  }

  lemma SecondFansFar(z: nat, rest: seq<int>)
    requires z >= 1
    ensures var more := rest + [3];
      Machine(8 * z, Fan(2)).outputs(Ones(z, rest) + Mix(3 * z, 4 * z, rest)) ==
      [Ones(2 * z, more) + Mix(6 * z, 0, more), Mix(3 * z, 5 * z, more), Ones(3 * z, more)]
  {
    var more := rest + [3];
    hide *;
    FanRowsBehindOnes(2, z, 3 * z, 4 * z, rest);
    MixInTwo(6 * z, 8 * z, 3 * z, 0, more);
    MixInTwo(3 * z, 5 * z, 0, 3 * z, more);
    Associate(Ones(2 * z, more), Mix(6 * z, 0, more), Mix(3 * z, 8 * z, more));
    FanIsJoin(2);
    JoinInThree(8 * z, Fan(2), Ones(z, rest) + Mix(3 * z, 4 * z, rest), Ones(2 * z, more) + Mix(6 * z, 0, more),
                Mix(3 * z, 5 * z, more), Ones(3 * z, more));
  }

  lemma FanIsJoin(u: nat)
    ensures Fan(u).Joining?
  {
  }

  lemma Associate<A>(a: seq<A>, b: seq<A>, c: seq<A>)
    ensures a + (b + c) == (a + b) + c
  {
  }

  // ----- pass by pass

  /** Two operators, both of which emit something. */
  lemma PassOfTwo<R(!new)>(ops: seq<Kernel<R>>, p: Pending<R>, c: seq<R>, out: seq<R>, out': seq<R>,
                           rest: seq<seq<R>>, rest': seq<seq<R>>)
    requires Proper(ops) && |ops| == |p| == 2 && out != []
    requires Execute(ops[0], p[0], c) == (out, rest) && Execute(ops[1], p[1], out) == (out', rest')
    ensures Pass(ops, p, 0, c) == PassResult([rest, rest'], out', rest != [] || rest' != [])
  {
    var p1, p2 := p[0 := rest], p[0 := rest][1 := rest'];
    assert p2 == [rest, rest'] && p1[1] == p[1];
    assert Pass(ops, p2, 2, out') == PassResult(p2, out', false);
    assert Pass(ops, p1, 1, out) == PassResult(p2, out', rest' != []);
  }

  lemma TailOfTwo<R>(a: R, b: R)
    ensures [a, b][1..] == [b] && [a][1..] == []
  {
  }

  lemma TailOfThree<R>(a: R, b: R, c: R)
    ensures [a, b, c][1..] == [b, c]
  {
  }

  /** The first join holds rows of both kinds, and so does the second one afterwards. */
  lemma FirstHolds(ops: seq<Kernel<seq<int>>>, z: nat, rest: seq<int>, c: seq<seq<int>>)
    requires Proper(ops) && Alternates(ops, z, rest) && z >= 1
    ensures Pass(ops, [[Mix(z, 5 * z, rest)], []], 0, c) ==
            PassResult([[], [Ones(5 * z, rest + [3])]], Mix(3 * z, 5 * z, rest + [3]), true)
  {
    var s, u, t := Mix(z, 5 * z, rest), Mix(3 * z, 5 * z, rest + [3]), Ones(5 * z, rest + [3]);
    TailOfTwo(s, s);
    TailOfTwo(u, t);
    PassOfTwo(ops, [[s], []], c, s, u, [], [t]);
  }

  /** The second one holds some rows; what it emitted before makes the first one hold some. */
  lemma SecondHolds(ops: seq<Kernel<seq<int>>>, z: nat, rest: seq<int>, t: seq<seq<int>>)
    requires Proper(ops) && Alternates(ops, z, rest) && z >= 1
    ensures Pass(ops, [[], [t]], 0, Mix(3 * z, 5 * z, rest)) == PassResult([[Mix(z, 5 * z, rest + [3])], []], t, true)
  {
    var u, v, s := Mix(3 * z, 5 * z, rest), Mix(8 * z, 0, rest + [3]), Mix(z, 5 * z, rest + [3]);
    TailOfTwo(v, s);
    TailOfTwo(t, t);
    PassOfTwo(ops, [[], [t]], u, v, t, [s], []);
  }

  /** The first two passes lead there. */
  lemma FreshStart(ops: seq<Kernel<seq<int>>>, z: nat)
    requires Proper(ops) && Alternates(ops, z, []) && Alternates(ops, z, [3]) && z >= 1
    ensures var p := [[Ones(2 * z, [3])], [Mix(3 * z, 5 * z, [3, 3]), Ones(3 * z, [3, 3])]];
      Pass(ops, [[], []], 0, Start(z)) == PassResult(p, Ones(2 * z, [3, 3]) + Mix(6 * z, 0, [3, 3]), true)
  {
    assert [] + [3] == [3] && [3] + [3] == [3, 3];
    var a, b := Ones(z, [3]) + Mix(3 * z, 4 * z, [3]), Ones(2 * z, [3]);
    var c, d, e := Ones(2 * z, [3, 3]) + Mix(6 * z, 0, [3, 3]), Mix(3 * z, 5 * z, [3, 3]), Ones(3 * z, [3, 3]);
    TailOfTwo(a, b);
    TailOfThree(c, d, e);
    PassOfTwo(ops, [[], []], Start(z), a, c, [b], [d, e]);
  }

  lemma BothHold(ops: seq<Kernel<seq<int>>>, c: seq<seq<int>>, b: seq<seq<int>>, d: seq<seq<int>>, e: seq<seq<int>>)
    requires Proper(ops) && |ops| == 2 && b != []
    ensures Pass(ops, [[b], [d, e]], 0, c) == PassResult([[], [e]], d, true)
  {
    TailOfTwo(b, b);
    TailOfTwo(d, e);
    PassOfTwo(ops, [[b], [d, e]], c, b, d, [], [e]);
  }

  lemma {:induction false} RunsOn(ops: seq<Kernel<seq<int>>>, z: nat, rest: seq<int>, t: seq<seq<int>>, passes: nat)
    requires Proper(ops) && |ops| == 2 && z >= 1 && forall r :: Alternates(ops, z, r)
    ensures Loop(ops, [[], [t]], Mix(3 * z, 5 * z, rest), passes).Running?
    decreases passes
  {
    if passes == 0 {
    } else {
      assert Alternates(ops, z, rest) && Alternates(ops, z, rest + [3]);
      hide Alternates, Mix, Ones;
      SecondHolds(ops, z, rest, t);
      if passes > 1 {
        FirstHolds(ops, z, rest + [3], t);
        RunsOn(ops, z, rest + [3] + [3], Ones(5 * z, rest + [3] + [3]), passes - 2);
      }
    }
  }

  lemma NeverEnds(ops: seq<Kernel<seq<int>>>, z: nat, passes: nat)
    requires Proper(ops) && |ops| == 2 && z >= 1 && forall r :: Alternates(ops, z, r)
    ensures Loop(ops, [[], []], Start(z), passes).Running?
  {
    if passes > 0 {
      assert Alternates(ops, z, []) && Alternates(ops, z, [3]);
      hide Alternates, Mix, Ones, Start;
      FreshStart(ops, z);
      if passes > 1 {
        var c, d, e := Ones(2 * z, [3, 3]) + Mix(6 * z, 0, [3, 3]), Mix(3 * z, 5 * z, [3, 3]), Ones(3 * z, [3, 3]);
        BothHold(ops, c, Ones(2 * z, [3]), d, e);
        RunsOn(ops, z, [3, 3], e, passes - 2);
      }
    }
  }

  /** With two joins in one chain the loop may even run for ever: each restart feeds the second
      join's output to the first one as if it were fresh input. Here it does so on a full chunk,
      for chunks of 2048 rows and of any other multiple of 8. */
  lemma DrainMayNotEnd(z: nat, passes: nat)
    requires z >= 1
    ensures var ops := MachinesOf(8 * z, TwoJoins());
      Computes(ops, TwoJoins()) && Loop(ops, [[], []], Start(z), passes).Running?
  {
    hide *;
    MachinesCompute(8 * z, TwoJoins());
    JoinsAlternate(z);
    NeverEnds(MachinesOf(8 * z, TwoJoins()), z, passes);
  }

  lemma JoinsAlternate(z: nat)
    requires z >= 1
    ensures var ops := MachinesOf(8 * z, TwoJoins()); |ops| == 2 && Proper(ops) && forall rest :: Alternates(ops, z, rest)
  {
    hide Mix, Ones, Start, Machine, Fan;
    var ops := MachinesOf(8 * z, TwoJoins());
    MachinesAreProper(8 * z, TwoJoins());
    StartFans(z);
    forall rest ensures Alternates(ops, z, rest) {
      FirstFans(z, rest);
      SecondFans(z, rest);
      SecondFansFar(z, rest);
      assert rest == [] ==> rest + [3] == [3];
    }
  }
}
