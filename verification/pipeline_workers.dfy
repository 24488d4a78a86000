/** One pipeline run by many threads: a shared source that hands out chunks one at a time; in
    every worker its own operators and a thread-local sink; a combine step under the sink's
    lock; and a main thread that joins all workers before it finalizes the sink or rethrows.
    A worker pushes the chunk it holds through the operators pass by pass, as the drain loop
    does. Every interleaving of the threads is a sequence of the atomic steps below. */
module Workers {
  import opened Drain
  import opened Rows

  datatype Phase<Row> =
    | Pulling
    | Holding(chunk: seq<Row>)
    | Draining
    | Done
    | Failed

  /** 'pending' is the state of the worker's operators. */
  datatype Worker<Row> = Worker(phase: Phase<Row>, pending: Pending<Row>, local: seq<Row>)

  datatype Main<Row> = Joining | Finalized(rows: seq<Row>) | Rethrown(worker: nat)

  /** Worker 0 is the main thread. The other workers that threw are listed in the order in which
      they recorded it. */
  datatype State<Row> = State(next: nat, workers: seq<Worker<Row>>, global: seq<Row>, main: Main<Row>, errors: seq<nat>)

  datatype Step = Pull(w: nat) | Push(w: nat) | Combine(w: nat) | Throw(w: nat) | Join

  datatype Pipeline<!Row> = Pipeline(chunks: seq<seq<Row>>, ops: seq<Kernel<Row>>)

  /** The clamp at the head of Pipeline::Execute: as many threads as asked for, as far as the
      source admits them, but at least one. */
  function ThreadCount(requested: nat, maxSourceThreads: nat): (n: nat)
    ensures requested >= 1 && maxSourceThreads >= 1 ==>
      n <= requested && n <= maxSourceThreads && (n == requested || n == maxSourceThreads)
    ensures requested == 0 || maxSourceThreads == 0 ==> n == 1
  {
    var least := if requested < maxSourceThreads then requested else maxSourceThreads;
    if least < 1 then 1 else least
  }

  function Start<Row(!new)>(p: Pipeline<Row>, n: nat): State<Row>
    requires n >= 1
  {
    State(0, seq(n, _ => Worker(Pulling, AllIdle(|p.ops|), [])), [], Joining, [])
  }

  /** The i-th pull stops the worker that makes it: the source is exhausted, or hands out a
      chunk without rows. */
  predicate Stops<Row>(chunks: seq<seq<Row>>, i: nat) { i < |chunks| ==> |chunks[i]| == 0 }

  function Received<Row>(chunks: seq<seq<Row>>, i: nat): Phase<Row> {
    if Stops(chunks, i) then Draining else Holding(chunks[i])
  }

  /** The worker after one more pass over its operators. */
  ghost function Passed<Row(!new)>(ops: seq<Kernel<Row>>, w: Worker<Row>): Worker<Row>
    requires Proper(ops) && w.phase.Holding? && |w.pending| == |ops|
  {
    var r := Pass(ops, w.pending, 0, w.phase.chunk);
    Worker(if r.more then Holding(r.chunk) else Pulling, r.pending, w.local + r.chunk)
  }

  ghost predicate Finished<Row(!new)>(s: State<Row>) {
    forall w :: 0 <= w < |s.workers| ==> s.workers[w].phase.Done? || s.workers[w].phase.Failed?
  }

  /** What the main thread does once all workers have ended: its own exception goes first, then
      the first one recorded. */
  function Joined<Row>(s: State<Row>): Main<Row>
    requires s.workers != []
  {
    if s.workers[0].phase.Failed? then Rethrown(0)
    else if s.errors != [] then Rethrown(s.errors[0])
    else Finalized(s.global)
  }

  ghost predicate Next<Row(!new)>(p: Pipeline<Row>, s: State<Row>, step: Step, t: State<Row>) {
    match step
    case Pull(w) =>
      && w < |s.workers| && s.workers[w].phase.Pulling?
      && t == s.(next := s.next + 1, workers := s.workers[w := s.workers[w].(phase := Received(p.chunks, s.next))])
    case Push(w) =>
      && w < |s.workers| && s.workers[w].phase.Holding? && Proper(p.ops) && |s.workers[w].pending| == |p.ops|
      && t == s.(workers := s.workers[w := Passed(p.ops, s.workers[w])])
    case Combine(w) =>
      && w < |s.workers| && s.workers[w].phase.Draining?
      && t == s.(global := s.global + s.workers[w].local, workers := s.workers[w := s.workers[w].(phase := Done, local := [])])
    case Throw(w) =>
      && w < |s.workers| && !s.workers[w].phase.Done? && !s.workers[w].phase.Failed?
      && t == s.(workers := s.workers[w := s.workers[w].(phase := Failed)], errors := if w == 0 then s.errors else s.errors + [w])
    case Join =>
      s.main.Joining? && Finished(s) && s.workers != [] && t == s.(main := Joined(s))
  }

  /** A run: the states passed through, one step after the other. */
  ghost predicate Run<Row(!new)>(p: Pipeline<Row>, n: nat, states: seq<State<Row>>, steps: seq<Step>) {
    && n >= 1 && |states| == |steps| + 1 && states[0] == Start(p, n)
    && forall i :: 0 <= i < |steps| ==> Next(p, states[i], steps[i], states[i + 1])
  }

  lemma RunGoesOn<Row(!new)>(p: Pipeline<Row>, n: nat, states: seq<State<Row>>, steps: seq<Step>, step: Step, t: State<Row>)
    requires Run(p, n, states, steps) && Next(p, states[|steps|], step, t)
    ensures Run(p, n, states + [t], steps + [step])
  {
    var more, all := states + [t], steps + [step];
    assert forall i :: 0 <= i < |states| ==> more[i] == states[i];
    assert forall i :: 0 <= i < |steps| ==> all[i] == steps[i];
  }

  // ----- where every row is

  /** What the sink should receive for a chunk. */
  ghost function Work<Row(!new)>(ops: seq<Kernel<Row>>): seq<Row> -> seq<Row> {
    c => Ideal(ops, 0, c)
  }

  /** What the operators should make of the chunks handed out so far. */
  ghost function Taken<Row(!new)>(p: Pipeline<Row>, next: nat): seq<Row> {
    FlatMap(Work(p.ops), if next <= |p.chunks| then p.chunks[..next] else p.chunks)
  }

  /** How many of the first 'next' pulls stop their worker. */
  function Stopping<Row>(chunks: seq<seq<Row>>, next: nat): nat {
    if next == 0 then 0 else Stopping(chunks, next - 1) + if Stops(chunks, next - 1) then 1 else 0
  }

  /** How many chunks n workers take before the last of them has stopped. */
  function Reached<Row>(chunks: seq<seq<Row>>, i: nat, n: nat): (r: nat)
    requires i <= |chunks|
    ensures i <= r <= |chunks|
    decreases |chunks| - i
  {
    if n == 0 || i == |chunks| then i else Reached(chunks, i + 1, if Stops(chunks, i) then n - 1 else n)
  }

  /** Between two passes the worker's operators are ready for the next one; otherwise they
      are idle. Operator k is the one that may hold output. */
  ghost predicate Tidy<Row(!new)>(ops: seq<Kernel<Row>>, k: nat, w: Worker<Row>) {
    && |w.pending| == |ops|
    && if w.phase.Holding? then Waits(ops, k, w.pending, w.phase.chunk) else Idle(w.pending, 0)
  }

  /** What the passes to come should deliver. */
  ghost function Todo<Row(!new)>(ops: seq<Kernel<Row>>, k: nat, w: Worker<Row>): seq<Row> {
    if w.phase.Holding? then Rest(ops, k, w.pending, w.phase.chunk) else []
  }

  /** The rows a worker has made or is about to make, and not yet handed over. */
  ghost function Mine<Row(!new)>(p: Pipeline<Row>, k: nat, w: Worker<Row>): seq<Row> {
    w.local + Todo(p.ops, k, w)
  }

  /** A pass moves rows from what is to come to the local sink, in order. */
  lemma PassDelivers<Row(!new)>(ops: seq<Kernel<Row>>, k: nat, w: Worker<Row>)
    requires RestartsAt(ops, k) && Tidy(ops, k, w) && w.phase.Holding?
    ensures var v := Passed(ops, w); Tidy(ops, k, v) && v.local + Todo(ops, k, v) == w.local + Todo(ops, k, w)
  {
    SinkStep(ops, k, w.pending, w.phase.chunk, w.local);
    var r := Pass(ops, w.pending, 0, w.phase.chunk);
    assert w.local + r.chunk + [] == w.local + r.chunk;
  }

  /** How often row x is in some worker's hands. */
  ghost function InHand<Row(!new)>(p: Pipeline<Row>, k: nat, ws: seq<Worker<Row>>, x: Row): nat {
    if ws == [] then 0 else multiset(Mine(p, k, ws[0]))[x] + InHand(p, k, ws[1..], x)
  }

  lemma {:induction false} InHandUpdate<Row(!new)>(p: Pipeline<Row>, k: nat, ws: seq<Worker<Row>>, w: nat,
                                        v: Worker<Row>, x: Row)
    requires w < |ws|
    ensures InHand(p, k, ws[w := v], x) + multiset(Mine(p, k, ws[w]))[x] == InHand(p, k, ws, x) + multiset(Mine(p, k, v))[x]
  {
    if w == 0 {
      assert ws[w := v][1..] == ws[1..];
    } else {
      InHandUpdate(p, k, ws[1..], w - 1, v, x);
      assert ws[w := v][1..] == ws[1..][w - 1 := v];
    }
  }

  /** Row x is as often in the sink and in the workers' hands as the chunks handed out so far
      yield it. */
  ghost predicate Balanced<Row(!new)>(p: Pipeline<Row>, k: nat, s: State<Row>, x: Row) {
    multiset(s.global)[x] + InHand(p, k, s.workers, x) == multiset(Taken(p, s.next))[x]
  }

  /** How many workers have left the pull loop. */
  function Stopped<Row>(ws: seq<Worker<Row>>): (k: nat)
    ensures k <= |ws|
  {
    if ws == [] then 0 else Stopped(ws[1..]) + if HasStopped(ws[0]) then 1 else 0
  }

  predicate HasStopped<Row>(w: Worker<Row>) { w.phase.Draining? || w.phase.Done? }

  lemma {:induction false} StoppedUpdate<Row>(ws: seq<Worker<Row>>, w: nat, v: Worker<Row>)
    requires w < |ws|
    ensures Stopped(ws[w := v]) + (if HasStopped(ws[w]) then 1 else 0) == Stopped(ws) + if HasStopped(v) then 1 else 0
    ensures !HasStopped(ws[w]) ==> Stopped(ws) < |ws|
  {
    if w == 0 {
      assert ws[w := v][1..] == ws[1..];
    } else {
      StoppedUpdate(ws[1..], w - 1, v);
      assert ws[w := v][1..] == ws[1..][w - 1 := v];
    }
  }

  lemma {:induction false} AllOrNoneStopped<Row>(ws: seq<Worker<Row>>)
    ensures (forall w :: 0 <= w < |ws| ==> HasStopped(ws[w])) ==> Stopped(ws) == |ws|
    ensures (forall w :: 0 <= w < |ws| ==> !HasStopped(ws[w])) ==> Stopped(ws) == 0
  {
    if ws == [] {
    } else {
      AllOrNoneStopped(ws[1..]);
    }
  }

  ghost predicate Quiet<Row(!new)>(s: State<Row>) {
    forall w :: 0 <= w < |s.workers| ==> !s.workers[w].phase.Failed?
  }

  /** Every stopping pull has stopped one worker, and there was a worker to make each. */
  ghost predicate Counted<Row(!new)>(p: Pipeline<Row>, n: nat, s: State<Row>) {
    && Stopped(s.workers) == Stopping(p.chunks, s.next)
    && (s.next > 0 ==> Stopping(p.chunks, s.next - 1) < n)
  }

  ghost predicate ErrorsAreFailures<Row(!new)>(s: State<Row>) {
    forall w :: w in s.errors <==> 0 < w < |s.workers| && s.workers[w].phase.Failed?
  }

  lemma QuietIsJoined<Row(!new)>(s: State<Row>)
    requires Quiet(s) && ErrorsAreFailures(s) && s.workers != []
    ensures Joined(s) == Finalized(s.global)
  {
    if s.errors != [] {
      SomethingIn(s.errors);
    }
  }

  lemma SomethingIn(s: seq<nat>)
    requires s != []
    ensures exists x :: x in s
  {
    assert s[0] in s;
  }

  /** Kept by every step of every run. */
  ghost predicate Inv<Row(!new)>(p: Pipeline<Row>, k: nat, n: nat, s: State<Row>) {
    && |s.workers| == n >= 1
    && (forall w :: 0 <= w < n && s.workers[w].phase.Done? ==> s.workers[w].local == [])
    && (forall w :: 0 <= w < n && !s.workers[w].phase.Failed? ==> Tidy(p.ops, k, s.workers[w]))
    && (Quiet(s) ==> Counted(p, n, s) && forall x :: Balanced(p, k, s, x))
    && (n == 1 && Quiet(s) ==> s.global + Mine(p, k, s.workers[0]) == Taken(p, s.next))
    && (s.main.Finalized? ==> s.main.rows == s.global && Quiet(s) && Finished(s))
    && ErrorsAreFailures(s)
  }

  lemma {:induction false} NothingInHand<Row(!new)>(p: Pipeline<Row>, k: nat, ws: seq<Worker<Row>>, x: Row)
    requires forall w :: 0 <= w < |ws| ==> ws[w].local == [] && !ws[w].phase.Holding?
    ensures InHand(p, k, ws, x) == 0
  {
    if ws == [] {
    } else {
      NothingInHand(p, k, ws[1..], x);
    }
  }

  lemma StartInv<Row(!new)>(p: Pipeline<Row>, k: nat, n: nat)
    requires n >= 1
    ensures Inv(p, k, n, Start(p, n))
  {
    AllOrNoneStopped(Start(p, n).workers);
    assert p.chunks[..0] == [] && Taken(p, 0) == [];
    forall x ensures Balanced(p, k, Start(p, n), x) {
      NothingInHand(p, k, Start(p, n).workers, x);
    }
  }

  /** One more pull takes one more chunk. */
  lemma PullTakes<Row(!new)>(p: Pipeline<Row>, next: nat)
    ensures Taken(p, next + 1) == Taken(p, next) + (match Received(p.chunks, next) case Holding(c) => Work(p.ops)(c) case _ => [])
  {
    if next < |p.chunks| {
      var c := p.chunks[next];
      assert p.chunks[..next + 1] == p.chunks[..next] + [c];
      FlatMapAppend(Work(p.ops), p.chunks[..next], [c]);
      assert FlatMap(Work(p.ops), [c]) == Work(p.ops)(c) + FlatMap(Work(p.ops), [c][1..]) == Work(p.ops)(c);
    } else {
      assert p.chunks[..|p.chunks|] == p.chunks;
    }
  }

  /** A worker step moves rows but neither loses nor makes any. */
  lemma WorkerStep<Row(!new)>(p: Pipeline<Row>, k: nat, s: State<Row>, w: nat, v: Worker<Row>, t: State<Row>, x: Row)
    requires w < |s.workers| && t.workers == s.workers[w := v] && Balanced(p, k, s, x)
    requires multiset(s.global)[x] + multiset(Mine(p, k, s.workers[w]))[x] + multiset(Taken(p, t.next))[x] ==
             multiset(t.global)[x] + multiset(Mine(p, k, v))[x] + multiset(Taken(p, s.next))[x]
    ensures Balanced(p, k, t, x)
  {
    InHandUpdate(p, k, s.workers, w, v, x);
  }

  lemma FailureStays<Row(!new)>(p: Pipeline<Row>, s: State<Row>, step: Step, t: State<Row>)
    requires Next(p, s, step, t)
    ensures Quiet(t) ==> Quiet(s) && !step.Throw?
  {
    if step.Throw? {
      assert t.workers[step.w].phase.Failed?;
    } else if v :| 0 <= v < |s.workers| && s.workers[v].phase.Failed? {
      assert t.workers[v].phase.Failed?;
    }
  }

  lemma PullMoves<Row(!new)>(p: Pipeline<Row>, k: nat, s: State<Row>, w: nat, t: State<Row>, x: Row)
    requires RestartsAt(p.ops, k) && Next(p, s, Pull(w), t) && Tidy(p.ops, k, s.workers[w])
    ensures multiset(Mine(p, k, s.workers[w]))[x] + multiset(Taken(p, t.next))[x] ==
            multiset(Mine(p, k, t.workers[w]))[x] + multiset(Taken(p, s.next))[x]
  {
    PullTakes(p, s.next);
    var c := match Received(p.chunks, s.next) case Holding(c) => Work(p.ops)(c) case _ => [];
    assert Mine(p, k, s.workers[w]) == s.workers[w].local && Mine(p, k, t.workers[w]) == s.workers[w].local + c;
    assert multiset(Taken(p, t.next)) == multiset(Taken(p, s.next)) + multiset(c);
    assert multiset(Mine(p, k, t.workers[w])) == multiset(Mine(p, k, s.workers[w])) + multiset(c);
  }

  lemma NextBalanced<Row(!new)>(p: Pipeline<Row>, k: nat, n: nat, s: State<Row>, step: Step, t: State<Row>, x: Row)
    requires RestartsAt(p.ops, k) && Inv(p, k, n, s) && Next(p, s, step, t) && Quiet(t)
    ensures Balanced(p, k, t, x)
  {
    FailureStays(p, s, step, t);
    assert Balanced(p, k, s, x);
    match step {
      case Pull(w) =>
        PullMoves(p, k, s, w, t, x);
        WorkerStep(p, k, s, w, t.workers[w], t, x);
      case Push(w) =>
        PassDelivers(p.ops, k, s.workers[w]);
        WorkerStep(p, k, s, w, t.workers[w], t, x);
      case Combine(w) =>
        WorkerStep(p, k, s, w, t.workers[w], t, x);
      case Throw(w) =>
      case Join =>
    }
  }

  lemma NextCounted<Row(!new)>(p: Pipeline<Row>, k: nat, n: nat, s: State<Row>, step: Step, t: State<Row>)
    requires Inv(p, k, n, s) && Next(p, s, step, t) && Quiet(t)
    ensures Counted(p, n, t)
  {
    FailureStays(p, s, step, t);
    if !step.Join? {
      StoppedUpdate(s.workers, step.w, t.workers[step.w]);
    }
  }

  /** On one thread the order is kept as well. */
  lemma NextOrdered<Row(!new)>(p: Pipeline<Row>, k: nat, s: State<Row>, step: Step, t: State<Row>)
    requires RestartsAt(p.ops, k) && Next(p, s, step, t) && |s.workers| == 1 && !step.Throw?
    requires Tidy(p.ops, k, s.workers[0]) && s.global + Mine(p, k, s.workers[0]) == Taken(p, s.next)
    ensures t.global + Mine(p, k, t.workers[0]) == Taken(p, t.next)
  {
    match step {
      case Pull(w) =>
        PullTakes(p, s.next);
        var c := match Received(p.chunks, s.next) case Holding(c) => Work(p.ops)(c) case _ => [];
        assert Mine(p, k, s.workers[0]) == s.workers[0].local && Mine(p, k, t.workers[0]) == s.workers[0].local + c;
        Regroup(s.global, s.workers[0].local, c);
      case Push(w) =>
        PassDelivers(p.ops, k, s.workers[w]);
      case Combine(w) =>
        assert Mine(p, k, s.workers[w]) == s.workers[w].local && Mine(p, k, t.workers[w]) == [];
      case Throw(w) =>
      case Join =>
    }
  }

  lemma NextTidy<Row(!new)>(p: Pipeline<Row>, k: nat, n: nat, s: State<Row>, step: Step, t: State<Row>, w: nat)
    requires RestartsAt(p.ops, k) && Inv(p, k, n, s) && Next(p, s, step, t) && w < n && !t.workers[w].phase.Failed?
    ensures Tidy(p.ops, k, t.workers[w])
  {
    if step.Push? && step.w == w {
      PassDelivers(p.ops, k, s.workers[w]);
    }
  }

  lemma NextInv<Row(!new)>(p: Pipeline<Row>, k: nat, n: nat, s: State<Row>, step: Step, t: State<Row>)
    requires RestartsAt(p.ops, k) && Inv(p, k, n, s) && Next(p, s, step, t)
    ensures Inv(p, k, n, t)
  {
    if Quiet(t) {
      forall x ensures Balanced(p, k, t, x) {
        NextBalanced(p, k, n, s, step, t, x);
      }
      NextCounted(p, k, n, s, step, t);
      if n == 1 {
        FailureStays(p, s, step, t);
        NextOrdered(p, k, s, step, t);
      }
    }
    forall w | 0 <= w < n && !t.workers[w].phase.Failed? ensures Tidy(p.ops, k, t.workers[w]) {
      NextTidy(p, k, n, s, step, t, w);
    }
    if step.Throw? {
      assert t.workers[step.w].phase.Failed?;
    }
  }

  lemma {:induction false} RunInv<Row(!new)>(p: Pipeline<Row>, k: nat, n: nat, states: seq<State<Row>>,
                                        steps: seq<Step>, i: nat)
    requires RestartsAt(p.ops, k) && Run(p, n, states, steps) && i < |states|
    ensures Inv(p, k, n, states[i])
  {
    if i == 0 {
      StartInv(p, k, n);
    } else {
      RunInv(p, k, n, states, steps, i - 1);
      NextInv(p, k, n, states[i - 1], steps[i - 1], states[i]);
    }
  }

  lemma {:induction false} StoppingGrows<Row>(chunks: seq<seq<Row>>, i: nat, k: nat)
    requires i <= k
    ensures Stopping(chunks, i) <= Stopping(chunks, k)
  {
    if i >= k {
    } else {
      StoppingGrows(chunks, i, k - 1);
    }
  }

  /** When n pulls have stopped, the last one among them, this is how far the source was read. */
  lemma {:induction false} StoppedThere<Row>(chunks: seq<seq<Row>>, n: nat, i: nat, k: nat)
    requires i <= k && i <= |chunks| && Stopping(chunks, i) <= n
    requires Stopping(chunks, k) == n && (k > 0 ==> Stopping(chunks, k - 1) < n)
    ensures Reached(chunks, i, n - Stopping(chunks, i)) == if k <= |chunks| then k else |chunks|
    decreases k - i
  {
    if i >= k {
    } else {
      StoppingGrows(chunks, i, k - 1);
      if i < |chunks| {
        StoppingGrows(chunks, i + 1, k);
        StoppedThere(chunks, n, i + 1, k);
      }
    }
  }

  /** With every worker done, the sink has what the chunks handed out yield. */
  lemma AllHandedOver<Row(!new)>(p: Pipeline<Row>, k: nat, n: nat, s: State<Row>)
    requires Inv(p, k, n, s) && Quiet(s) && forall w :: 0 <= w < n ==> s.workers[w].phase.Done?
    ensures multiset(s.global) == multiset(Taken(p, s.next)) && (n == 1 ==> s.global == Taken(p, s.next))
  {
    forall x ensures multiset(s.global)[x] == multiset(Taken(p, s.next))[x] {
      assert Balanced(p, k, s, x);
      NothingInHand(p, k, s.workers, x);
    }
    assert s.global + [] == s.global;
  }

  /** And this is how many chunks that is. */
  lemma AllStopped<Row(!new)>(p: Pipeline<Row>, n: nat, s: State<Row>)
    requires Counted(p, n, s) && |s.workers| == n >= 1 && forall w :: 0 <= w < n ==> s.workers[w].phase.Done?
    ensures Taken(p, s.next) == FlatMap(Work(p.ops), p.chunks[..Reached(p.chunks, 0, n)])
  {
    AllOrNoneStopped(s.workers);
    StoppedThere(p.chunks, n, 0, s.next);
    assert p.chunks[..|p.chunks|] == p.chunks;
  }

  /** Whatever the interleaving: when the sink is finalized, every worker has combined, none
      has thrown, and the sink holds the results of every chunk handed out exactly once. How
      many chunks that is depends on the source and the number of workers alone. On a single
      thread the sink holds them in source order. */
  lemma FinalizedHasTakenRowsOnce<Row(!new)>(p: Pipeline<Row>, n: nat, states: seq<State<Row>>, steps: seq<Step>)
    requires Restartable(p.ops) && Run(p, n, states, steps) && states[|steps|].main.Finalized?
    ensures var s := states[|steps|]; var taken := p.chunks[..Reached(p.chunks, 0, n)];
      && (forall w :: 0 <= w < |s.workers| ==> s.workers[w].phase.Done?)
      && multiset(s.main.rows) == multiset(FlatMap(Work(p.ops), taken))
      && (n == 1 ==> s.main.rows == FlatMap(Work(p.ops), taken))
  {
    var k :| RestartsAt(p.ops, k);
    var s := states[|steps|];
    RunInv(p, k, n, states, steps, |steps|);
    forall w | 0 <= w < n ensures s.workers[w].phase.Done? {
    }
    AllHandedOver(p, k, n, s);
    AllStopped(p, n, s);
  }

  /** The workers get to the end of the source exactly when fewer of them can stop before its
      last chunk than there are. */
  lemma {:induction false} ReachesEndIff<Row>(chunks: seq<seq<Row>>, i: nat, n: nat)
    requires i < |chunks|
    ensures Reached(chunks, i, n) == |chunks| <==> Stopping(chunks, |chunks| - 1) - Stopping(chunks, i) < n
    decreases |chunks| - i
  {
    StoppingGrows(chunks, i, |chunks| - 1);
    if n > 0 && i + 1 < |chunks| {
      ReachesEndIff(chunks, i + 1, if Stops(chunks, i) then n - 1 else n);
      StoppingGrows(chunks, i + 1, |chunks| - 1);
    }
  }

  lemma {:induction false} NoneStops<Row>(chunks: seq<seq<Row>>, k: nat)
    requires k <= |chunks| && forall i :: 0 <= i < k ==> chunks[i] != []
    ensures Stopping(chunks, k) == 0
  {
    if k == 0 {
    } else {
      NoneStops(chunks, k - 1);
    }
  }

  /** A source that hands out no empty chunk is processed to the end, every row once. */
  lemma FinalizedHasEveryRowOnce<Row(!new)>(p: Pipeline<Row>, n: nat, states: seq<State<Row>>, steps: seq<Step>)
    requires Restartable(p.ops) && Run(p, n, states, steps) && states[|steps|].main.Finalized?
    requires forall i :: 0 <= i < |p.chunks| ==> p.chunks[i] != []
    ensures multiset(states[|steps|].main.rows) == multiset(FlatMap(Work(p.ops), p.chunks))
    ensures n == 1 ==> states[|steps|].main.rows == FlatMap(Work(p.ops), p.chunks)
  {
    FinalizedHasTakenRowsOnce(p, n, states, steps);
    if |p.chunks| > 0 {
      NoneStops(p.chunks, |p.chunks| - 1);
      ReachesEndIff(p.chunks, 0, n);
    }
    assert p.chunks[..|p.chunks|] == p.chunks;
  }

  /** So the interleaving makes no difference to the rows, and neither does the number of
      threads as long as all of them get equally far. */
  lemma RunsAgree<Row(!new)>(p: Pipeline<Row>, n: nat, states: seq<State<Row>>, steps: seq<Step>,
                             n': nat, states': seq<State<Row>>, steps': seq<Step>)
    requires Restartable(p.ops)
    requires Run(p, n, states, steps) && states[|steps|].main.Finalized?
    requires Run(p, n', states', steps') && states'[|steps'|].main.Finalized?
    requires Reached(p.chunks, 0, n) == Reached(p.chunks, 0, n')
    ensures multiset(states[|steps|].main.rows) == multiset(states'[|steps'|].main.rows)
  {
    FinalizedHasTakenRowsOnce(p, n, states, steps);
    FinalizedHasTakenRowsOnce(p, n', states', steps');
  }

  lemma {:induction false} FinalizedIsQuiet<Row(!new)>(p: Pipeline<Row>, n: nat, states: seq<State<Row>>,
                                        steps: seq<Step>, i: nat)
    requires Run(p, n, states, steps) && i < |states|
    ensures ErrorsAreFailures(states[i]) && |states[i].workers| == n
    ensures states[i].main.Finalized? ==> Quiet(states[i]) && Finished(states[i])
  {
    if i == 0 {
    } else {
      FinalizedIsQuiet(p, n, states, steps, i - 1);
      assert Next(p, states[i - 1], steps[i - 1], states[i]);
    }
  }

  /** A worker's exception is never swallowed, whatever the operators: it keeps the sink from
      being finalized, then and ever after. */
  lemma {:induction false} FailureIsNotSwallowed<Row(!new)>(p: Pipeline<Row>, n: nat, states: seq<State<Row>>,
                                        steps: seq<Step>,
                                                           i: nat, j: nat, w: nat)
    requires Run(p, n, states, steps) && i <= j <= |steps|
    requires w < |states[i].workers| && states[i].workers[w].phase.Failed?
    ensures w < |states[j].workers| && states[j].workers[w].phase.Failed? && !states[j].main.Finalized?
    decreases j
  {
    FinalizedIsQuiet(p, n, states, steps, j);
    if i < j {
      FailureIsNotSwallowed(p, n, states, steps, i, j - 1, w);
      assert Next(p, states[j - 1], steps[j - 1], states[j]);
    }
  }

  /** The first of the workers beside the main thread to throw. */
  ghost predicate IsFirstThrow(steps: seq<Step>, w: nat, i: nat, n: nat) {
    && i < n <= |steps| && w > 0 && steps[i] == Throw(w)
    && forall j :: 0 <= j < i ==> !(steps[j].Throw? && steps[j].w > 0)
  }

  lemma {:induction false} ErrorsInOrder<Row(!new)>(p: Pipeline<Row>, n: nat, states: seq<State<Row>>, steps: seq<Step>, i: nat)
    requires Run(p, n, states, steps) && i < |states|
    ensures if states[i].errors == [] then forall j :: 0 <= j < i ==> !(steps[j].Throw? && steps[j].w > 0)
            else exists k: nat :: IsFirstThrow(steps, states[i].errors[0], k, i)
  {
    if i == 0 {
    } else {
      ErrorsInOrder(p, n, states, steps, i - 1);
      assert Next(p, states[i - 1], steps[i - 1], states[i]);
      if states[i].errors != [] {
        if states[i - 1].errors == [] {
          assert IsFirstThrow(steps, states[i].errors[0], i - 1, i);
        } else {
          var k: nat :| IsFirstThrow(steps, states[i - 1].errors[0], k, i - 1);
          assert IsFirstThrow(steps, states[i].errors[0], k, i);
        }
      }
    }
  }

  /** What the main thread rethrows is its own exception, or the one that was thrown first; and
      it does so only when every worker has come to an end. */
  lemma {:induction false} RethrownIsFirst<Row(!new)>(p: Pipeline<Row>, n: nat, states: seq<State<Row>>, steps: seq<Step>, i: nat)
    requires Run(p, n, states, steps) && i < |states| && states[i].main.Rethrown?
    ensures var s := states[i];
      && s.main.worker < |s.workers| == n && s.workers[s.main.worker].phase.Failed?
      && (if s.workers[0].phase.Failed? then s.main.worker == 0
          else exists k: nat :: IsFirstThrow(steps, s.main.worker, k, i))
      && forall w :: 0 <= w < n ==> s.workers[w].phase.Done? || s.workers[w].phase.Failed?
  {
    if i == 0 {
    } else {
      var before := states[i - 1];
      FinalizedIsQuiet(p, n, states, steps, i - 1);
      assert Next(p, before, steps[i - 1], states[i]);
      if before.main.Rethrown? {
        RethrownIsFirst(p, n, states, steps, i - 1);
      } else if !before.workers[0].phase.Failed? {
        ErrorsInOrder(p, n, states, steps, i - 1);
        assert before.errors[0] in before.errors;
        var k: nat :| IsFirstThrow(steps, before.errors[0], k, i - 1);
        assert IsFirstThrow(steps, states[i].main.worker, k, i);
      }
    }
  }
}
