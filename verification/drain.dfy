/** The inner loop of a pipeline worker: one source chunk is pushed through the operators
    again and again until none of them reports pending output. */
module Drain {
  import opened Rows

  /** An operator at run time, as the loop sees it. An idle operator turns an input chunk into a list of
      one or more output chunks, emits the first and keeps the others pending; while it has
      pending output it ignores its input. */
  datatype Kernel<!Row> = Kernel(outputs: seq<Row> -> seq<seq<Row>>)

  ghost predicate Proper<Row(!new)>(ops: seq<Kernel<Row>>) {
    forall i, c :: 0 <= i < |ops| ==> |ops[i].outputs(c)| >= 1
  }

  /** The operator never has more than one chunk to emit. */
  ghost predicate Single<Row(!new)>(op: Kernel<Row>) {
    forall c :: |op.outputs(c)| == 1
  }

  /** What Execute emits, and what stays pending: HAVE_MORE_OUTPUT when that is not empty. */
  function Execute<Row>(op: Kernel<Row>, pending: seq<seq<Row>>, chunk: seq<Row>): (seq<Row>, seq<seq<Row>>)
    requires |op.outputs(chunk)| >= 1
  {
    if pending != [] then (pending[0], pending[1..])
    else var outs := op.outputs(chunk); (outs[0], outs[1..])
  }

  type Pending<Row> = seq<seq<seq<Row>>>

  datatype PassResult<Row> = PassResult(pending: Pending<Row>, chunk: seq<Row>, more: bool)

  /** One pass of the chain from operator i on; it stops early when a chunk runs empty. */
  ghost function Pass<Row(!new)>(ops: seq<Kernel<Row>>, pending: Pending<Row>, i: nat, chunk: seq<Row>)
    : (r: PassResult<Row>)
    requires Proper(ops) && |pending| == |ops| && i <= |ops|
    ensures |r.pending| == |ops|
    decreases |ops| - i
  {
    if i == |ops| then PassResult(pending, chunk, false)
    else
      var (out, rest) := Execute(ops[i], pending[i], chunk);
      if out == [] then PassResult(pending[i := rest], [], rest != [])
      else
        var r := Pass(ops, pending[i := rest], i + 1, out);
        r.(more := rest != [] || r.more)
  }

  datatype Drained<Row> = Running | Drained(sunk: seq<Row>, pending: Pending<Row>)

  /** What the sink has received when the loop ends, if it ends within the given number of
      passes. Each pass starts again at operator 0, on the chunk the last one left. */
  ghost function Loop<Row(!new)>(ops: seq<Kernel<Row>>, pending: Pending<Row>, chunk: seq<Row>, passes: nat)
    : Drained<Row>
    requires Proper(ops) && |pending| == |ops|
    decreases passes
  {
    if passes == 0 then Running
    else
      var r := Pass(ops, pending, 0, chunk);
      if !r.more then Drained(r.chunk, r.pending)
      else
        match Loop(ops, r.pending, r.chunk, passes - 1)
        case Running => Running
        case Drained(sunk, p) => Drained(r.chunk + sunk, p)
  }

  /** What the sink should receive: every output of every operator goes through the rest of
      the chain; an empty chunk goes no further. */
  ghost function Ideal<Row(!new)>(ops: seq<Kernel<Row>>, i: nat, chunk: seq<Row>): seq<Row>
    requires i <= |ops|
    decreases |ops| - i, 1, 0
  {
    if i == |ops| || chunk == [] then chunk else IdealAll(ops, i + 1, ops[i].outputs(chunk))
  }

  ghost function IdealAll<Row(!new)>(ops: seq<Kernel<Row>>, i: nat, chunks: seq<seq<Row>>): seq<Row>
    requires i <= |ops|
    decreases |ops| - i, 2, |chunks|
  {
    if chunks == [] then [] else Ideal(ops, i, chunks[0]) + IdealAll(ops, i, chunks[1..])
  }

  ghost predicate Idle<Row>(pending: Pending<Row>, from: nat) {
    forall i :: from <= i < |pending| ==> pending[i] == []
  }

  /** The operator at k may hold pending output, the others never do. */
  ghost predicate IdleBut<Row>(pending: Pending<Row>, k: nat) {
    forall i :: 0 <= i < |pending| && i != k ==> pending[i] == []
  }

  // ----- one operator with more to emit than one chunk

  /** What operators i to j - 1 make of a chunk in one pass, when each emits all it has. */
  ghost function Through<Row(!new)>(ops: seq<Kernel<Row>>, i: nat, j: nat, chunk: seq<Row>): seq<Row>
    requires Proper(ops) && i <= j <= |ops|
    decreases j - i
  {
    if i == j || chunk == [] then chunk else Through(ops, i + 1, j, ops[i].outputs(chunk)[0])
  }

  /** An output of operator k that leaves the chain as a chunk which, starting again at the
      head of the chain, gets as far as operator k. */
  ghost predicate ComesBack<Row(!new)>(ops: seq<Kernel<Row>>, k: nat, out: seq<Row>)
    requires Proper(ops) && k < |ops|
  {
    Through(ops, 0, k, Through(ops, k + 1, |ops|, out)) != []
  }

  /** All but the last of these outputs of operator k bring the loop back to it. */
  ghost predicate AllComeBack<Row(!new)>(ops: seq<Kernel<Row>>, k: nat, outs: seq<seq<Row>>)
    requires Proper(ops) && k < |ops|
  {
    k > 0 ==> forall i :: 0 <= i < |outs| - 1 ==> ComesBack(ops, k, outs[i])
  }

  /** Only operator k may have more than one chunk to emit, and whatever reaches it, the loop
      comes back to it for the rest. The head of the chain needs no condition: it is executed
      in every pass. */
  ghost predicate RestartsAt<Row(!new)>(ops: seq<Kernel<Row>>, k: nat) {
    && Proper(ops)
    && (forall i :: 0 <= i < |ops| && i != k ==> Single(ops[i]))
    && (k < |ops| ==> forall c :: Through(ops, 0, k, c) != [] ==> AllComeBack(ops, k, ops[k].outputs(Through(ops, 0, k, c))))
    && (k < |ops| || ops == [])
  }

  ghost predicate Restartable<Row(!new)>(ops: seq<Kernel<Row>>) {
    exists k :: RestartsAt(ops, k)
  }

  function PendingAt<Row>(pending: Pending<Row>, k: nat): seq<seq<Row>> {
    if k < |pending| then pending[k] else []
  }

  /** Between two passes: pending output only at k, with a chunk in hand that gets there; or
      none at all, with a fresh chunk. */
  ghost predicate Waits<Row(!new)>(ops: seq<Kernel<Row>>, k: nat, pending: Pending<Row>, chunk: seq<Row>) {
    && Proper(ops) && |pending| == |ops| && IdleBut(pending, k)
    && if PendingAt(pending, k) == [] then chunk != []
       else (k == 0 || Through(ops, 0, k, chunk) != []) && AllComeBack(ops, k, pending[k])
  }

  /** What the passes to come should deliver. */
  ghost function Rest<Row(!new)>(ops: seq<Kernel<Row>>, k: nat, pending: Pending<Row>, chunk: seq<Row>): seq<Row> {
    if |pending| == |ops| && PendingAt(pending, k) != [] then IdealAll(ops, k + 1, pending[k]) else Ideal(ops, 0, chunk)
  }

  /** How many passes that takes. */
  ghost function Turns<Row(!new)>(ops: seq<Kernel<Row>>, k: nat, pending: Pending<Row>, chunk: seq<Row>): nat {
    if |pending| == |ops| && PendingAt(pending, k) != [] then |pending[k]|
    else if !Proper(ops) || k >= |ops| || Through(ops, 0, k, chunk) == [] then 1
    else |ops[k].outputs(Through(ops, 0, k, chunk))|
  }

  /** Idle operators that emit all they have are passed in one go. */
  lemma {:induction false} PassThrough<Row(!new)>(ops: seq<Kernel<Row>>, pending: Pending<Row>, i: nat, j: nat,
                                        chunk: seq<Row>)
    requires Proper(ops) && |pending| == |ops| && i <= j <= |ops| && chunk != []
    requires forall l :: i <= l < j ==> Single(ops[l]) && pending[l] == []
    ensures var c := Through(ops, i, j, chunk);
      Pass(ops, pending, i, chunk) == if c == [] then PassResult(pending, [], false) else Pass(ops, pending, j, c)
    decreases j - i
  {
    if i == j {
    } else {
      var outs := ops[i].outputs(chunk);
      assert Single(ops[i]) && |outs| == 1;
      assert outs[1..] == [] && pending[i := []] == pending;
      if outs[0] != [] {
        PassThrough(ops, pending, i + 1, j, outs[0]);
      }
    }
  }

  lemma {:induction false} IdealThrough<Row(!new)>(ops: seq<Kernel<Row>>, i: nat, j: nat, chunk: seq<Row>)
    requires Proper(ops) && i <= j <= |ops|
    requires forall l :: i <= l < j ==> Single(ops[l])
    ensures Ideal(ops, i, chunk) == Ideal(ops, j, Through(ops, i, j, chunk))
    decreases j - i
  {
    if i == j || chunk == [] {
    } else {
      var outs := ops[i].outputs(chunk);
      assert Single(ops[i]) && |outs| == 1;
      IdealThrough(ops, i + 1, j, outs[0]);
      assert IdealAll(ops, i + 1, outs) == Ideal(ops, i + 1, outs[0]) + [];
    }
  }

  /** What operator k has to emit in the next pass and later ones, if the chunk gets there. */
  ghost function Queue<Row(!new)>(ops: seq<Kernel<Row>>, k: nat, pending: Pending<Row>,
                                  chunk: seq<Row>): (outs: seq<seq<Row>>)
    requires Proper(ops) && |pending| == |ops| && k < |ops|
    ensures |outs| >= 1
  {
    if pending[k] != [] then pending[k] else ops[k].outputs(Through(ops, 0, k, chunk))
  }

  /** The pass from operator k on sends the head of the queue down the chain. */
  lemma PassFrom<Row(!new)>(ops: seq<Kernel<Row>>, k: nat, pending: Pending<Row>, chunk: seq<Row>, outs: seq<seq<Row>>)
    requires Proper(ops) && k < |ops| == |pending| && |outs| >= 1
    requires forall i :: k < i < |ops| ==> Single(ops[i]) && pending[i] == []
    requires outs == if pending[k] != [] then pending[k] else ops[k].outputs(chunk)
    ensures Pass(ops, pending, k, chunk) ==
            PassResult(pending[k := outs[1..]], Through(ops, k + 1, |ops|, outs[0]), outs[1..] != [])
  {
    if outs[0] != [] {
      PassThrough(ops, pending[k := outs[1..]], k + 1, |ops|, outs[0]);
    }
  }

  /** One pass, from the head of the chain, when the chunk gets to operator k. */
  lemma PassAt<Row(!new)>(ops: seq<Kernel<Row>>, k: nat, pending: Pending<Row>, chunk: seq<Row>)
    requires RestartsAt(ops, k) && k < |ops| && Waits(ops, k, pending, chunk)
    requires k == 0 || Through(ops, 0, k, chunk) != []
    ensures var outs := Queue(ops, k, pending, chunk);
      Pass(ops, pending, 0, chunk) ==
      PassResult(pending[k := outs[1..]], Through(ops, k + 1, |ops|, outs[0]), outs[1..] != [])
  {
    PassFrom(ops, k, pending, Through(ops, 0, k, chunk), Queue(ops, k, pending, chunk));
    if k > 0 {
      PassThrough(ops, pending, 0, k, chunk);
    }
  }

  lemma QueueComesBack<Row(!new)>(ops: seq<Kernel<Row>>, k: nat, pending: Pending<Row>, chunk: seq<Row>)
    requires RestartsAt(ops, k) && k < |ops| && Waits(ops, k, pending, chunk)
    requires k == 0 || Through(ops, 0, k, chunk) != []
    ensures AllComeBack(ops, k, Queue(ops, k, pending, chunk))
  {
  }

  /** The queue, delivered one by one, is what should be delivered. */
  lemma QueueIsRest<Row(!new)>(ops: seq<Kernel<Row>>, k: nat, pending: Pending<Row>, chunk: seq<Row>)
    requires RestartsAt(ops, k) && k < |ops| && Waits(ops, k, pending, chunk)
    requires k == 0 || Through(ops, 0, k, chunk) != []
    ensures var outs := Queue(ops, k, pending, chunk);
      Rest(ops, k, pending, chunk) == Through(ops, k + 1, |ops|, outs[0]) + IdealAll(ops, k + 1, outs[1..])
  {
    var outs := Queue(ops, k, pending, chunk);
    IdealThrough(ops, k + 1, |ops|, outs[0]);
    assert IdealAll(ops, k + 1, outs) == Ideal(ops, k + 1, outs[0]) + IdealAll(ops, k + 1, outs[1..]);
    if pending[k] == [] {
      IdealThrough(ops, 0, k, chunk);
    }
  }

  lemma TailComesBack<Row(!new)>(ops: seq<Kernel<Row>>, k: nat, outs: seq<seq<Row>>)
    requires Proper(ops) && k < |ops| && |outs| > 1 && AllComeBack(ops, k, outs)
    ensures AllComeBack(ops, k, outs[1..]) && (k > 0 ==> ComesBack(ops, k, outs[0]))
  {
    hide Through;
    assert forall i :: 0 <= i < |outs[1..]| ==> outs[1..][i] == outs[i + 1];
  }

  /** After a pass that leaves output pending, the loop will get to it. */
  lemma PassWaits<Row(!new)>(ops: seq<Kernel<Row>>, k: nat, pending: Pending<Row>, chunk: seq<Row>)
    requires RestartsAt(ops, k) && k < |ops| && Waits(ops, k, pending, chunk)
    requires k == 0 || Through(ops, 0, k, chunk) != []
    ensures var outs := Queue(ops, k, pending, chunk);
      |outs| > 1 ==> Waits(ops, k, pending[k := outs[1..]], Through(ops, k + 1, |ops|, outs[0]))
  {
    var outs := Queue(ops, k, pending, chunk);
    if |outs| > 1 {
      QueueComesBack(ops, k, pending, chunk);
      TailComesBack(ops, k, outs);
      hide AllComeBack, Through;
    }
  }

  /** A pass delivers the next part of what is to come; either nothing is left then, or the
      loop will get to the rest. */
  lemma PassStep<Row(!new)>(ops: seq<Kernel<Row>>, k: nat, pending: Pending<Row>, chunk: seq<Row>)
    requires RestartsAt(ops, k) && Waits(ops, k, pending, chunk)
    ensures var r := Pass(ops, pending, 0, chunk);
      && |r.pending| == |ops|
      && (!r.more ==> Idle(r.pending, 0) && r.chunk == Rest(ops, k, pending, chunk))
      && (r.more ==> Waits(ops, k, r.pending, r.chunk) && PendingAt(r.pending, k) != [])
      && (r.more ==> Rest(ops, k, pending, chunk) == r.chunk + Rest(ops, k, r.pending, r.chunk))
      && (r.more ==> Turns(ops, k, r.pending, r.chunk) < Turns(ops, k, pending, chunk))
  {
    if ops == [] {
    } else if k > 0 && Through(ops, 0, k, chunk) == [] {
      PassThrough(ops, pending, 0, k, chunk);
      IdealThrough(ops, 0, k, chunk);
    } else {
      PassAt(ops, k, pending, chunk);
      QueueIsRest(ops, k, pending, chunk);
      PassWaits(ops, k, pending, chunk);
      hide AllComeBack, Through, Ideal;
    }
  }

  /** The drain loop. When one operator alone can hold pending output and the loop always
      comes back to it, the loop ends, the sink has received exactly what it should, and no
      operator holds anything back. */
  method DrainChunk<Row(!new)>(ops: seq<Kernel<Row>>, pending0: Pending<Row>, chunk0: seq<Row>)
    returns (sunk: seq<Row>, pending: Pending<Row>)
    requires Restartable(ops) && chunk0 != []
    requires |pending0| == |ops| && Idle(pending0, 0)
    ensures sunk == Ideal(ops, 0, chunk0)
    ensures |pending| == |ops| && Idle(pending, 0)
  {
    ghost var k :| RestartsAt(ops, k);
    FreshWaits(ops, k, pending0, chunk0);
    hide Waits, Rest, Turns, Ideal, Pass, Through, PendingAt;
    pending := pending0;
    sunk := [];
    var chunk := chunk0;
    var needMoreInput := false;
    while !needMoreInput
      invariant |pending| == |ops|
      invariant !needMoreInput ==> Waits(ops, k, pending, chunk)
      invariant !needMoreInput ==> sunk + Rest(ops, k, pending, chunk) == Ideal(ops, 0, chunk0)
      invariant needMoreInput ==> Idle(pending, 0) && sunk == Ideal(ops, 0, chunk0)
      decreases !needMoreInput, Turns(ops, k, pending, chunk)
    {
      SinkStep(ops, k, pending, chunk, sunk);
      var more;
      pending, chunk, more := OnePass(ops, pending, chunk);
      needMoreInput := !more;
      if |chunk| > 0 {
        sunk := sunk + chunk;
      } else {
        assert sunk + chunk == sunk;
      }
    }
  }

  /** The same with what the sink has received already. */
  lemma SinkStep<Row(!new)>(ops: seq<Kernel<Row>>, k: nat, pending: Pending<Row>, chunk: seq<Row>, sunk: seq<Row>)
    requires RestartsAt(ops, k) && Waits(ops, k, pending, chunk)
    ensures var r := Pass(ops, pending, 0, chunk);
      && |r.pending| == |ops|
      && (!r.more ==> Idle(r.pending, 0) && sunk + r.chunk == sunk + Rest(ops, k, pending, chunk))
      && (r.more ==> Waits(ops, k, r.pending, r.chunk))
      && (r.more ==> sunk + r.chunk + Rest(ops, k, r.pending, r.chunk) == sunk + Rest(ops, k, pending, chunk))
      && (r.more ==> Turns(ops, k, r.pending, r.chunk) < Turns(ops, k, pending, chunk))
  {
    assert Proper(ops) && |pending| == |ops|;
    hide Waits, Rest, Turns, RestartsAt, Pass, Idle;
    PassStep(ops, k, pending, chunk);
    var r := Pass(ops, pending, 0, chunk);
    Regroup(sunk, r.chunk, Rest(ops, k, r.pending, r.chunk));
  }

  lemma Regroup<Row(!new)>(a: seq<Row>, b: seq<Row>, c: seq<Row>)
    ensures a + (b + c) == (a + b) + c
  {
  }

  lemma FreshWaits<Row(!new)>(ops: seq<Kernel<Row>>, k: nat, pending: Pending<Row>, chunk: seq<Row>)
    requires RestartsAt(ops, k) && |pending| == |ops| && Idle(pending, 0) && chunk != []
    ensures Proper(ops) && Waits(ops, k, pending, chunk) && Rest(ops, k, pending, chunk) == Ideal(ops, 0, chunk)
  {
  }

  /** The for loop inside: one pass over the operators. */
  method OnePass<Row(!new)>(ops: seq<Kernel<Row>>, pending0: Pending<Row>, chunk0: seq<Row>)
    returns (pending: Pending<Row>, chunk: seq<Row>, more: bool)
    requires Proper(ops) && |pending0| == |ops|
    ensures PassResult(pending, chunk, more) == Pass(ops, pending0, 0, chunk0)
  {
    pending, chunk, more := pending0, chunk0, false;
    var i := 0;
    while i < |ops|
      invariant 0 <= i <= |ops| && |pending| == |ops|
      invariant Pass(ops, pending0, 0, chunk0) ==
                var r := Pass(ops, pending, i, chunk); r.(more := more || r.more)
    {
      var (out, rest) := Execute(ops[i], pending[i], chunk);
      pending := pending[i := rest];
      chunk := out;
      if rest != [] {
        more := true;
      }
      if |chunk| == 0 {
        break;
      }
      i := i + 1;
    }
  }

  // ----- the same in terms of rows

  /** The operator's outputs, put together, are the rows f makes of its input. */
  ghost predicate Implements<Row(!new)>(op: Kernel<Row>, f: Row -> seq<Row>) {
    forall c :: Concat(op.outputs(c)) == FlatMap(f, c)
  }

  /** However the operators cut their output into chunks, the sink receives the chain of
      their row functions. */
  lemma {:induction false} IdealIsChain<Row(!new)>(ops: seq<Kernel<Row>>, fs: seq<Row -> seq<Row>>, i: nat, chunk: seq<Row>)
    requires |ops| == |fs| && i <= |ops| && forall j :: 0 <= j < |ops| ==> Implements(ops[j], fs[j])
    ensures Ideal(ops, i, chunk) == Chain(fs[i..], chunk)
    decreases |ops| - i, 1, 0
  {
    if i == |ops| {
    } else {
      assert fs[i..][0] == fs[i] && fs[i..][1..] == fs[i + 1..];
      assert Implements(ops[i], fs[i]);
      if chunk == [] {
        ChainOfNothing(fs[i..]);
      } else {
        IdealAllIsChain(ops, fs, i + 1, ops[i].outputs(chunk));
      }
    }
  }

  lemma {:induction false} IdealAllIsChain<Row(!new)>(ops: seq<Kernel<Row>>, fs: seq<Row -> seq<Row>>, i: nat,
                                        chunks: seq<seq<Row>>)
    requires |ops| == |fs| && i <= |ops| && forall j :: 0 <= j < |ops| ==> Implements(ops[j], fs[j])
    ensures IdealAll(ops, i, chunks) == Chain(fs[i..], Concat(chunks))
    decreases |ops| - i, 2, |chunks|
  {
    if chunks == [] {
      ChainOfNothing(fs[i..]);
    } else {
      IdealIsChain(ops, fs, i, chunks[0]);
      IdealAllIsChain(ops, fs, i, chunks[1..]);
      ChainAppend(fs[i..], chunks[0], Concat(chunks[1..]));
    }
  }

  // ----- what the loop delivers

  function AllIdle<Row>(n: nat): (pending: Pending<Row>)
    ensures |pending| == n && forall i :: 0 <= i < n ==> pending[i] == []
  {
    seq(n, _ => [])
  }

  /** The loop ends, the sink has received the rows the operators make of the chunk, and
      nothing is held back. */
  ghost predicate Conserves<Row(!new)>(ops: seq<Kernel<Row>>, fs: seq<Row -> seq<Row>>, chunk: seq<Row>)
    requires Proper(ops)
  {
    exists passes: nat :: Delivers(ops, fs, chunk, passes)
  }

  ghost predicate Delivers<Row(!new)>(ops: seq<Kernel<Row>>, fs: seq<Row -> seq<Row>>, chunk: seq<Row>, passes: nat)
    requires Proper(ops)
  {
    var r := Loop(ops, AllIdle(|ops|), chunk, passes);
    r.Drained? && r.sunk == Chain(fs, chunk) && Idle(r.pending, 0)
  }

  lemma {:induction false} LoopDelivers<Row(!new)>(ops: seq<Kernel<Row>>, k: nat, pending: Pending<Row>, chunk: seq<Row>)
    requires RestartsAt(ops, k) && Waits(ops, k, pending, chunk)
    ensures var r := Loop(ops, pending, chunk, Turns(ops, k, pending, chunk));
      r.Drained? && r.sunk == Rest(ops, k, pending, chunk) && Idle(r.pending, 0)
    decreases Turns(ops, k, pending, chunk)
  {
    PassStep(ops, k, pending, chunk);
    var r := Pass(ops, pending, 0, chunk);
    if r.more {
      LoopDelivers(ops, k, r.pending, r.chunk);
      LoopStays(ops, r.pending, r.chunk, Turns(ops, k, r.pending, r.chunk), Turns(ops, k, pending, chunk) - 1);
    }
  }

  /** Once the loop has ended, more passes change nothing. */
  lemma {:induction false} LoopStays<Row(!new)>(ops: seq<Kernel<Row>>, pending: Pending<Row>, chunk: seq<Row>,
                                        passes: nat, more: nat)
    requires Proper(ops) && |pending| == |ops| && passes <= more
    ensures Loop(ops, pending, chunk, passes).Drained? ==> Loop(ops, pending, chunk, more) == Loop(ops, pending, chunk, passes)
    decreases passes
  {
    if passes == 0 {
    } else {
      var r := Pass(ops, pending, 0, chunk);
      if r.more {
        LoopStays(ops, r.pending, r.chunk, passes - 1, more - 1);
      }
    }
  }

  /** Operators the loop can restart: it delivers what they compute. */
  lemma RestartableConserves<Row(!new)>(ops: seq<Kernel<Row>>, fs: seq<Row -> seq<Row>>, chunk: seq<Row>)
    requires Restartable(ops) && |ops| == |fs| && chunk != []
    requires forall i :: 0 <= i < |ops| ==> Implements(ops[i], fs[i])
    ensures Proper(ops) && Conserves(ops, fs, chunk)
  {
    var k :| RestartsAt(ops, k);
    var idle: Pending<Row> := AllIdle(|ops|);
    LoopDelivers(ops, k, idle, chunk);
    IdealIsChain(ops, fs, 0, chunk);
    assert fs[0..] == fs;
    assert Delivers(ops, fs, chunk, Turns(ops, k, idle, chunk));
  }

  /** A loop that has ended with other rows will not deliver these. */
  lemma LosesForGood<Row(!new)>(ops: seq<Kernel<Row>>, fs: seq<Row -> seq<Row>>, chunk: seq<Row>, passes: nat)
    requires Proper(ops)
    requires var r := Loop(ops, AllIdle(|ops|), chunk, passes); r.Drained? && r.sunk != Chain(fs, chunk)
    ensures !Conserves(ops, fs, chunk)
  {
    forall q: nat ensures !Delivers(ops, fs, chunk, q) {
      if q <= passes {
        LoopStays(ops, AllIdle(|ops|), chunk, q, passes);
      } else {
        LoopStays(ops, AllIdle(|ops|), chunk, passes, q);
      }
    }
  }
}
