/** Rows in order, and row-by-row transformation of them. */
module Rows {

  /** Each row replaced by the rows f makes of it. */
  function FlatMap<A(!new), B(!new)>(f: A -> seq<B>, rows: seq<A>): seq<B> {
    if rows == [] then [] else f(rows[0]) + FlatMap(f, rows[1..])
  }

  lemma {:induction false} FlatMapAppend<A(!new), B(!new)>(f: A -> seq<B>, a: seq<A>, b: seq<A>)
    ensures FlatMap(f, a + b) == FlatMap(f, a) + FlatMap(f, b)
  {
    if a == [] {
      assert a + b == b;
    } else {
      FlatMapAppend(f, a[1..], b);
      assert (a + b)[0] == a[0] && (a + b)[1..] == a[1..] + b;
    }
  }

  /** A row is among the results exactly when some row gives rise to it. */
  lemma {:induction false} FlatMapHas<A(!new), B(!new)>(f: A -> seq<B>, rows: seq<A>, r: B)
    ensures r in FlatMap(f, rows) <==> exists i :: 0 <= i < |rows| && r in f(rows[i])
  {
    if rows == [] {
    } else {
      FlatMapHas(f, rows[1..], r);
      assert forall i :: 0 < i < |rows| ==> rows[i] == rows[1..][i - 1];
      if i :| 0 <= i < |rows| && r in f(rows[i]) {
        assert i > 0 ==> r in f(rows[1..][i - 1]);
      }
      if i :| 0 <= i < |rows[1..]| && r in f(rows[1..][i]) {
        assert r in f(rows[i + 1]);
      }
    }
  }

  function Concat<A(!new)>(chunks: seq<seq<A>>): seq<A> {
    if chunks == [] then [] else chunks[0] + Concat(chunks[1..])
  }

  lemma {:induction false} ConcatAppend<A(!new)>(a: seq<seq<A>>, b: seq<seq<A>>)
    ensures Concat(a + b) == Concat(a) + Concat(b)
  {
    if a == [] {
      assert a + b == b;
    } else {
      ConcatAppend(a[1..], b);
      assert (a + b)[0] == a[0] && (a + b)[1..] == a[1..] + b;
    }
  }

  /** Row functions applied one after the other, the first one first. */
  function Chain<A(!new)>(fs: seq<A -> seq<A>>, rows: seq<A>): seq<A> {
    if fs == [] then rows else Chain(fs[1..], FlatMap(fs[0], rows))
  }

  lemma {:induction false} ChainAppend<A(!new)>(fs: seq<A -> seq<A>>, a: seq<A>, b: seq<A>)
    ensures Chain(fs, a + b) == Chain(fs, a) + Chain(fs, b)
  {
    if fs == [] {
    } else {
      FlatMapAppend(fs[0], a, b);
      ChainAppend(fs[1..], FlatMap(fs[0], a), FlatMap(fs[0], b));
    }
  }

  lemma {:induction false} ChainOfNothing<A(!new)>(fs: seq<A -> seq<A>>)
    ensures Chain(fs, []) == []
  {
    if fs == [] {
    } else {
      ChainOfNothing(fs[1..]);
    }
  }

  /** Working chunk by chunk comes to the same as working on all rows at once. */
  lemma {:induction false} ChainOfChunks<A(!new)>(fs: seq<A -> seq<A>>, chunks: seq<seq<A>>)
    ensures FlatMap(c => Chain(fs, c), chunks) == Chain(fs, Concat(chunks))
  {
    if chunks == [] {
      ChainOfNothing(fs);
    } else {
      ChainOfChunks(fs, chunks[1..]);
      ChainAppend(fs, chunks[0], Concat(chunks[1..]));
    }
  }

  lemma {:induction false} FlatMapCongruence<A(!new), B(!new)>(f: A -> seq<B>, g: A -> seq<B>, rows: seq<A>)
    requires forall a :: f(a) == g(a)
    ensures FlatMap(f, rows) == FlatMap(g, rows)
  {
    if rows == [] {
    } else {
      FlatMapCongruence(f, g, rows[1..]);
    }
  }

  function Without<A>(rows: seq<A>, i: nat): (rest: seq<A>)
    requires i < |rows|
    ensures |rest| == |rows| - 1
  {
    rows[..i] + rows[i + 1..]
  }

  lemma BagWithout<A(!new)>(rows: seq<A>, i: nat)
    requires i < |rows|
    ensures multiset(Without(rows, i)) == multiset(rows) - multiset{rows[i]}
  {
    assert rows == rows[..i] + [rows[i]] + rows[i + 1..];
  }

  /** Rows in another order, and each row's results in another order, give the same bag. */
  lemma {:induction false} FlatMapOfPermutation<A(!new), B(!new)>(f: A -> seq<B>, g: A -> seq<B>, a: seq<A>, b: seq<A>)
    requires multiset(a) == multiset(b) && forall x :: multiset(f(x)) == multiset(g(x))
    ensures multiset(FlatMap(f, a)) == multiset(FlatMap(g, b))
    decreases |a|
  {
    if a == [] {
      assert |multiset(b)| == 0;
    } else {
      hide FlatMap, Without;
      assert a[0] in multiset(b);
      var i :| 0 <= i < |b| && b[i] == a[0];
      BagWithout(a, 0);
      BagWithout(b, i);
      FlatMapOfPermutation(f, g, Without(a, 0), Without(b, i));
      FlatMapMiddle(f, a, 0);
      FlatMapMiddle(g, b, i);
    }
  }

  lemma FlatMapMiddle<A(!new), B(!new)>(f: A -> seq<B>, rows: seq<A>, i: nat)
    requires i < |rows|
    ensures multiset(FlatMap(f, rows)) == multiset(FlatMap(f, Without(rows, i))) + multiset(f(rows[i]))
  {
    var before, after := rows[..i], rows[i + 1..];
    assert rows == before + rows[i..] && rows[i..][1..] == after;
    FlatMapAppend(f, before, rows[i..]);
    FlatMapAppend(f, before, after);
  }

  lemma FlatMapOne<A(!new), B(!new)>(f: A -> seq<B>, x: A)
    ensures FlatMap(f, [x]) == f(x)
  {
    assert [x][1..] == [];
    assert FlatMap(f, [x]) == f(x) + FlatMap(f, [x][1..]);
  }

  lemma FlatMapTwo<A(!new), B(!new)>(f: A -> seq<B>, x: A, y: A)
    ensures FlatMap(f, [x, y]) == f(x) + f(y)
  {
    FlatMapOne(f, y);
    assert [x, y][1..] == [y];
  }

  /** One result for each row, and none for any. */
  lemma {:induction false} FlatMapEach<A(!new), B(!new)>(f: A -> seq<B>, rows: seq<A>, outs: seq<B>)
    requires |rows| == |outs| && forall i :: 0 <= i < |rows| ==> f(rows[i]) == [outs[i]]
    ensures FlatMap(f, rows) == outs
  {
    if rows == [] {
    } else {
      FlatMapEach(f, rows[1..], outs[1..]);
    }
  }

  lemma {:induction false} FlatMapNone<A(!new), B(!new)>(f: A -> seq<B>, rows: seq<A>)
    requires forall i :: 0 <= i < |rows| ==> f(rows[i]) == []
    ensures FlatMap(f, rows) == []
  {
    if rows == [] {
    } else {
      FlatMapNone(f, rows[1..]);
    }
  }

  lemma ConcatOne<A(!new)>(chunk: seq<A>)
    ensures Concat([chunk]) == chunk
  {
    assert [chunk][1..] == [] && Concat([chunk]) == chunk + Concat([chunk][1..]);
  }

  function Copies<A>(n: nat, x: A): (rows: seq<A>)
    ensures |rows| == n
  {
    seq(n, _ => x)
  }

  lemma FlatMapCopies<A(!new), B(!new)>(f: A -> seq<B>, n: nat, x: A)
    ensures |f(x)| == 1 ==> FlatMap(f, Copies(n, x)) == Copies(n, f(x)[0])
    ensures f(x) == [] ==> FlatMap(f, Copies(n, x)) == []
  {
    if |f(x)| == 1 {
      FlatMapEach(f, Copies(n, x), Copies(n, f(x)[0]));
    } else if f(x) == [] {
      FlatMapNone(f, Copies(n, x));
    }
  }
}
