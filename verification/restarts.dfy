/** For which filters, projections and joins the drain loop loses no row: exactly when it
    always comes back to the join for the output it holds. */
module Restarts {
  import opened Drain
  import opened Operators
  import opened Rows

  /** At run time: the rows of the operator, which only a join may cut into several chunks. A
      join stops early only when its output chunk is full, so none but the last is empty. */
  ghost predicate Realizes<V(!new)>(op: Kernel<seq<V>>, o: RowOperator<V>) {
    && Implements(op, RowsOf(o))
    && (o.Joining? || Single(op))
    && forall c :: FullButLast(op.outputs(c))
  }

  predicate FullButLast<Row>(outs: seq<seq<Row>>) {
    forall i :: 0 <= i < |outs| - 1 ==> |outs[i]| > 0
  }

  ghost predicate Computes<V(!new)>(ops: seq<Kernel<seq<V>>>, os: seq<RowOperator<V>>) {
    && |ops| == |os| && Proper(ops)
    && forall i :: 0 <= i < |ops| ==> Realizes(ops[i], os[i])
  }

  // ----- the loop comes back

  /** A filter or a projection emits the rows it makes of the chunk. */
  lemma SingleOutput<V(!new)>(op: Kernel<seq<V>>, o: RowOperator<V>, c: seq<seq<V>>)
    requires Realizes(op, o) && !o.Joining?
    ensures op.outputs(c) == [FlatMap(RowsOf(o), c)]
  {
    var outs := op.outputs(c);
    assert Concat(outs) == FlatMap(RowsOf(o), c) && |outs| == 1;
    assert outs[1..] == [] && Concat(outs) == outs[0] + Concat(outs[1..]);
    assert outs == [outs[0]] && outs[0] + [] == outs[0];
  }

  /** Projections pass on something of every chunk. */
  lemma {:induction false} ProjectionsPass<V(!new)>(ops: seq<Kernel<seq<V>>>, os: seq<RowOperator<V>>, i: nat,
                                        j: nat, c: seq<seq<V>>)
    requires Computes(ops, os) && i <= j <= |ops| && c != [] && forall l :: i <= l < j ==> os[l].Projecting?
    ensures Through(ops, i, j, c) != []
    decreases j - i
  {
    if i == j {
    } else {
      SingleOutput(ops[i], os[i], c);
      ProjectionsPass(ops, os, i + 1, j, FlatMap(RowsOf(os[i]), c));
      assert Through(ops, i, j, c) == Through(ops, i + 1, j, FlatMap(RowsOf(os[i]), c));
      hide Through;
    }
  }

  /** The row gets through filters i to j - 1. */
  ghost predicate Kept<V(!new)>(os: seq<RowOperator<V>>, i: nat, j: nat, row: seq<V>) {
    forall l :: i <= l < j && l < |os| && os[l].Filtering? ==> ResultsOn(os[l], row) == [row]
  }

  ghost predicate AllKept<V(!new)>(os: seq<RowOperator<V>>, i: nat, j: nat, rows: seq<seq<V>>) {
    forall row :: row in rows ==> Kept(os, i, j, row)
  }

  lemma {:induction false} FilterKeeps<V(!new)>(o: RowOperator<V>, c: seq<seq<V>>)
    requires o.Filtering?
    ensures forall row :: row in FlatMap(RowsOf(o), c) ==> row in c && ResultsOn(o, row) == [row]
    ensures (forall row :: row in c ==> ResultsOn(o, row) == [row]) ==> FlatMap(RowsOf(o), c) == c
  {
    if c == [] {
    } else {
      FilterKeeps(o, c[1..]);
      assert c == [c[0]] + c[1..];
    }
  }

  lemma FilterStep<V(!new)>(ops: seq<Kernel<seq<V>>>, os: seq<RowOperator<V>>, i: nat, j: nat, c: seq<seq<V>>)
    returns (kept: seq<seq<V>>)
    requires Computes(ops, os) && i < j <= |ops| && os[i].Filtering? && c != []
    ensures Through(ops, i, j, c) == Through(ops, i + 1, j, kept)
    ensures forall row :: row in kept ==> row in c && ResultsOn(os[i], row) == [row]
    ensures (forall row :: row in c ==> ResultsOn(os[i], row) == [row]) ==> kept == c
  {
    kept := FlatMap(RowsOf(os[i]), c);
    SingleOutput(ops[i], os[i], c);
    FilterKeeps(os[i], c);
  }

  /** What comes out of filters gets through them again. */
  lemma {:induction false} FilteredIsKept<V(!new)>(ops: seq<Kernel<seq<V>>>, os: seq<RowOperator<V>>, i: nat,
                                        j: nat, c: seq<seq<V>>, row: seq<V>)
    requires Computes(ops, os) && i <= j <= |ops| && forall l :: i <= l < j ==> os[l].Filtering?
    requires row in Through(ops, i, j, c)
    ensures row in c && Kept(os, i, j, row)
    decreases j - i
  {
    if i == j || c == [] {
    } else {
      var kept := FilterStep(ops, os, i, j, c);
      FilteredIsKept(ops, os, i + 1, j, kept, row);
      hide Through, ResultsOn, Realizes;
    }
  }

  lemma {:induction false} KeptGetsThrough<V(!new)>(ops: seq<Kernel<seq<V>>>, os: seq<RowOperator<V>>, i: nat,
                                        j: nat, c: seq<seq<V>>)
    requires Computes(ops, os) && i <= j <= |ops| && forall l :: i <= l < j ==> os[l].Filtering?
    requires AllKept(os, i, j, c)
    ensures Through(ops, i, j, c) == c
    decreases j - i
  {
    if i == j || c == [] {
    } else {
      var kept := FilterStep(ops, os, i, j, c);
      hide Through, ResultsOn, Realizes;
      assert forall row :: row in c ==> Kept(os, i, j, row);
      KeptGetsThrough(ops, os, i + 1, j, c);
    }
  }

  lemma {:induction false} FlatMapHas<A(!new), B(!new)>(f: A -> seq<B>, rows: seq<A>, y: B)
    requires y in FlatMap(f, rows)
    ensures exists x :: x in rows && y in f(x)
  {
    if y in f(rows[0]) {
    } else {
      FlatMapHas(f, rows[1..], y);
    }
  }

  lemma {:induction false} ConcatHas<A(!new)>(chunks: seq<seq<A>>, i: nat, y: A)
    requires i < |chunks| && y in chunks[i]
    ensures y in Concat(chunks)
  {
    if i == 0 {
    } else {
      ConcatHas(chunks[1..], i - 1, y);
    }
  }

  /** A joined row begins with its probe row, so filters on the latter keep it. */
  lemma JoinedIsKept<V(!new)>(op: Kernel<seq<V>>, os: seq<RowOperator<V>>, k: nat, c: seq<seq<V>>, i: nat)
    requires k < |os| && os[k].Joining? && Realizes(op, os[k]) && AllKept(os, 0, k, c) && i < |op.outputs(c)|
    ensures AllKept(os, 0, k, op.outputs(c)[i])
  {
    forall y | y in op.outputs(c)[i] ensures Kept(os, 0, k, y) {
      ConcatHas(op.outputs(c), i, y);
      FlatMapHas(RowsOf(os[k]), c, y);
      var x :| x in c && y in RowsOf(os[k])(x);
      FlatMapHas(Behind(x), os[k].matches(x[..os[k].width]), y);
      var build :| y in Behind(x)(build);
      assert y == x + build && Kept(os, 0, k, x);
      forall l | 0 <= l < k && os[l].Filtering? ensures ResultsOn(os[l], y) == [y] {
        assert ResultsOn(os[l], x) == [x];
        assert y[..os[l].width] == x[..os[l].width];
      }
    }
  }

  /** Filters in front of a join at the end. */
  lemma FiltersComeBack<V(!new)>(ops: seq<Kernel<seq<V>>>, os: seq<RowOperator<V>>, k: nat, c: seq<seq<V>>)
    requires Computes(ops, os) && k == |ops| - 1 && os[k].Joining? && forall l :: 0 <= l < k ==> os[l].Filtering?
    ensures AllComeBack(ops, k, ops[k].outputs(Through(ops, 0, k, c)))
  {
    var c' := Through(ops, 0, k, c);
    var outs := ops[k].outputs(c');
    forall row | row in c' ensures Kept(os, 0, k, row) {
      FilteredIsKept(ops, os, 0, k, c, row);
    }
    forall i | 0 <= i < |outs| - 1 ensures ComesBack(ops, k, outs[i]) {
      JoinedIsKept(ops[k], os, k, c', i);
      KeptGetsThrough(ops, os, 0, k, outs[i]);
      assert FullButLast(outs) && |outs[i]| > 0;
    }
  }

  /** Projections in front of a join and behind it. */
  lemma ProjectionsComeBack<V(!new)>(ops: seq<Kernel<seq<V>>>, os: seq<RowOperator<V>>, k: nat, c: seq<seq<V>>)
    requires Computes(ops, os) && k < |ops| && forall l :: 0 <= l < |ops| && l != k ==> os[l].Projecting?
    ensures AllComeBack(ops, k, ops[k].outputs(Through(ops, 0, k, c)))
  {
    var outs := ops[k].outputs(Through(ops, 0, k, c));
    assert FullButLast(outs);
    forall i | 0 <= i < |outs| - 1 ensures ComesBack(ops, k, outs[i]) {
      assert |outs[i]| > 0;
      ProjectionsPass(ops, os, k + 1, |ops|, outs[i]);
      ProjectionsPass(ops, os, 0, k, Through(ops, k + 1, |ops|, outs[i]));
    }
  }

  lemma SafeJoinRestarts<V(!new)>(ops: seq<Kernel<seq<V>>>, os: seq<RowOperator<V>>, k: nat)
    requires Computes(ops, os) && k < |ops| && os[k].Joining? && SafeJoin(KindsOf(os), k)
    ensures RestartsAt(ops, k)
  {
    var kinds := KindsOf(os);
    forall l | 0 <= l < |ops| ensures kinds[l] == KindOf(os[l]) {
    }
    forall l | 0 <= l < |ops| && l != k ensures Single(ops[l]) {
      assert kinds[l] != JOIN && Realizes(ops[l], os[l]);
    }
    if k > 0 {
      forall c ensures AllComeBack(ops, k, ops[k].outputs(Through(ops, 0, k, c))) {
        if Lacks(kinds, FILTER) {
          ProjectionsComeBack(ops, os, k, c);
        } else {
          FiltersComeBack(ops, os, k, c);
        }
      }
    }
  }

  lemma SafeRestarts<V(!new)>(ops: seq<Kernel<seq<V>>>, os: seq<RowOperator<V>>)
    requires Computes(ops, os) && Safe(KindsOf(os))
    ensures Restartable(ops)
  {
    if k :| 0 <= k < |os| && os[k].Joining? {
      assert KindsOf(os)[k] == JOIN;
      SafeJoinRestarts(ops, os, k);
    } else {
      forall l | 0 <= l < |ops| ensures Single(ops[l]) {
        assert Realizes(ops[l], os[l]);
      }
      assert RestartsAt(ops, 0);
    }
  }
}
