/** Every run of a pipeline ends: what is left to do falls with every step, and until the main
    thread has joined there is always a step to make. */
module Progress {
  import opened Drain
  import opened Workers

  /** How many passes a worker can still make, with the pulls and the combine behind them;
      operator k is the one that may hold output. */
  ghost function TurnsLeft<Row(!new)>(ops: seq<Kernel<Row>>, k: nat, w: Worker<Row>): nat {
    match w.phase
    case Holding(chunk) => 3 + Turns(ops, k, w.pending, chunk)
    case Pulling => 3
    case Draining => 2
    case _ => 0
  }

  ghost function AllTurns<Row(!new)>(ops: seq<Kernel<Row>>, k: nat, ws: seq<Worker<Row>>): nat {
    if ws == [] then 0 else TurnsLeft(ops, k, ws[0]) + AllTurns(ops, k, ws[1..])
  }

  lemma {:induction false} AllTurnsUpdate<Row(!new)>(ops: seq<Kernel<Row>>, k: nat, ws: seq<Worker<Row>>,
                                        w: nat, x: Worker<Row>)
    requires w < |ws|
    ensures AllTurns(ops, k, ws[w := x]) + TurnsLeft(ops, k, ws[w]) == AllTurns(ops, k, ws) + TurnsLeft(ops, k, x)
  {
    if w == 0 {
      assert ws[w := x][1..] == ws[1..];
    } else {
      AllTurnsUpdate(ops, k, ws[1..], w - 1, x);
      assert ws[w := x][1..] == ws[1..][w - 1 := x];
    }
  }

  /** The pulls and passes that the chunks from 'next' on can still cause. */
  ghost function Budget<Row(!new)>(p: Pipeline<Row>, k: nat, next: nat): nat
    decreases |p.chunks| - next
  {
    if next >= |p.chunks| then 0 else 1 + Turns(p.ops, k, AllIdle(|p.ops|), p.chunks[next]) + Budget(p, k, next + 1)
  }

  /** Falls with every step. */
  ghost function Left<Row(!new)>(p: Pipeline<Row>, k: nat, s: State<Row>): nat {
    Budget(p, k, s.next) + AllTurns(p.ops, k, s.workers) + (if s.main.Joining? then 1 else 0)
  }

  lemma PassMakesProgress<Row(!new)>(ops: seq<Kernel<Row>>, k: nat, w: Worker<Row>)
    requires RestartsAt(ops, k) && Tidy(ops, k, w) && w.phase.Holding?
    ensures TurnsLeft(ops, k, Passed(ops, w)) < TurnsLeft(ops, k, w)
  {
    PassStep(ops, k, w.pending, w.phase.chunk);
    assert Turns(ops, k, w.pending, w.phase.chunk) >= 1;
  }

  lemma StepMakesProgress<Row(!new)>(p: Pipeline<Row>, k: nat, n: nat, s: State<Row>, step: Step, t: State<Row>)
    requires RestartsAt(p.ops, k) && Inv(p, k, n, s) && Next(p, s, step, t)
    ensures Left(p, k, t) < Left(p, k, s)
  {
    if step.Join? {
    } else {
      AllTurnsUpdate(p.ops, k, s.workers, step.w, t.workers[step.w]);
      if step.Push? {
        PassMakesProgress(p.ops, k, s.workers[step.w]);
      } else if step.Pull? {
        FreshTurns(p.ops, k, s.workers[step.w].pending, t.workers[step.w].phase);
      }
    }
  }

  /** A chunk that idle operators get takes the passes budgeted for it. */
  lemma FreshTurns<Row(!new)>(ops: seq<Kernel<Row>>, k: nat, pending: Pending<Row>, phase: Phase<Row>)
    requires |pending| == |ops| && Idle(pending, 0)
    ensures phase.Holding? ==> Turns(ops, k, pending, phase.chunk) == Turns(ops, k, AllIdle(|ops|), phase.chunk)
  {
    assert pending == AllIdle(|ops|);
  }

  lemma {:induction false} AllTurnsOfFresh<Row(!new)>(ops: seq<Kernel<Row>>, k: nat, ws: seq<Worker<Row>>)
    requires forall w :: 0 <= w < |ws| ==> ws[w].phase.Pulling?
    ensures AllTurns(ops, k, ws) == 3 * |ws|
  {
    if ws == [] {
    } else {
      AllTurnsOfFresh(ops, k, ws[1..]);
    }
  }

  lemma StartIsBounded<Row(!new)>(p: Pipeline<Row>, k: nat, n: nat)
    requires n >= 1
    ensures Left(p, k, Start(p, n)) == Budget(p, k, 0) + 3 * n + 1
  {
    AllTurnsOfFresh(p.ops, k, Start(p, n).workers);
  }

  lemma RunStart<Row(!new)>(p: Pipeline<Row>, n: nat, states: seq<State<Row>>, steps: seq<Step>)
    requires Run(p, n, states, steps)
    ensures n >= 1 && |states| == |steps| + 1 && states[0] == Start(p, n)
  {
    hide Next, Start;
  }

  lemma RunStep<Row(!new)>(p: Pipeline<Row>, n: nat, states: seq<State<Row>>, steps: seq<Step>, i: nat)
    requires Run(p, n, states, steps) && i < |steps|
    ensures i + 1 < |states| && Next(p, states[i], steps[i], states[i + 1])
  {
    hide Next, Start;
  }

  lemma {:induction false} RunIsBounded<Row(!new)>(p: Pipeline<Row>, k: nat, n: nat, states: seq<State<Row>>,
                                        steps: seq<Step>, i: nat)
    requires RestartsAt(p.ops, k) && Run(p, n, states, steps) && i < |states|
    ensures i + Left(p, k, states[i]) <= Budget(p, k, 0) + 3 * n + 1
  {
    hide *;
    RunStart(p, n, states, steps);
    if i == 0 {
      StartIsBounded(p, k, n);
    } else {
      RunIsBounded(p, k, n, states, steps, i - 1);
      RunInv(p, k, n, states, steps, i - 1);
      RunStep(p, n, states, steps, i - 1);
      StepMakesProgress(p, k, n, states[i - 1], steps[i - 1], states[i]);
    }
  }

  /** Some thread can make a step that is no exception. */
  ghost predicate CanGoOn<Row(!new)>(p: Pipeline<Row>, s: State<Row>) {
    exists step, t :: Goes(p, s, step, t)
  }

  ghost predicate Goes<Row(!new)>(p: Pipeline<Row>, s: State<Row>, step: Step, t: State<Row>) {
    !step.Throw? && Next(p, s, step, t)
  }

  /** No run is longer than its chunks and threads allow; and as long as the main thread has
      not joined, some thread can go on without throwing: no interleaving deadlocks. */
  lemma EveryRunEnds<Row(!new)>(p: Pipeline<Row>, k: nat, n: nat, states: seq<State<Row>>, steps: seq<Step>)
    requires RestartsAt(p.ops, k) && Run(p, n, states, steps)
    ensures |steps| <= Budget(p, k, 0) + 3 * n + 1
    ensures states[|steps|].main.Joining? ==> CanGoOn(p, states[|steps|])
  {
    RunIsBounded(p, k, n, states, steps, |steps|);
    RunInv(p, k, n, states, steps, |steps|);
    if states[|steps|].main.Joining? {
      var step, t := SomeStep(p, k, n, states[|steps|]);
    }
  }

  lemma SomeStep<Row(!new)>(p: Pipeline<Row>, k: nat, n: nat, s: State<Row>) returns (step: Step, t: State<Row>)
    requires RestartsAt(p.ops, k) && Inv(p, k, n, s) && s.main.Joining?
    ensures Goes(p, s, step, t)
  {
    if w :| 0 <= w < |s.workers| && !s.workers[w].phase.Done? && !s.workers[w].phase.Failed? {
      match s.workers[w].phase {
        case Pulling =>
          step := Pull(w);
          t := s.(next := s.next + 1, workers := s.workers[w := s.workers[w].(phase := Received(p.chunks, s.next))]);
        case Holding(_) =>
          step := Push(w);
          t := s.(workers := s.workers[w := Passed(p.ops, s.workers[w])]);
        case Draining =>
          step := Combine(w);
          t := s.(global := s.global + s.workers[w].local,
                  workers := s.workers[w := s.workers[w].(phase := Done, local := [])]);
      }
    } else {
      step := Join;
      t := s.(main := Joined(s));
    }
  }
}
