/** What replaying a log comes to, read off its list of actions: which files are live, in which
    order, and when the replay fails. */
module LakeReplay {
  import opened LakeLog

  /** The actions of commits 1 to v, in order. */
  function History(log: Log, v: nat): Commit {
    if v == 0 then [] else History(log, v - 1) + (if Json(v) in log then log[Json(v)] else [])
  }

  function Adds(actions: Commit, path: string): nat { multiset(actions)[Add(path)] }

  function Removes(actions: Commit, path: string): nat { multiset(actions)[Remove(path)] }

  ghost predicate Complete(log: Log, v: nat) {
    forall i: nat :: 1 <= i <= v ==> Json(i) in log
  }

  /** At every remove action the path has been added more often than removed so far. */
  ghost predicate NeverOverdrawn(actions: Commit) {
    forall n :: 0 <= n < |actions| && actions[n].Remove? ==>
      Removes(actions[..n], actions[n].path) < Adds(actions[..n], actions[n].path)
  }

  /** The action adds a file that is still live in the end: a path's removals use up its adds
      in the order in which they were made. */
  predicate Survives(actions: Commit, n: nat)
    requires n < |actions|
  {
    actions[n].Add? && Removes(actions, actions[n].path) <= Adds(actions[..n], actions[n].path)
  }

  /** The surviving files among the first n actions, in the order of their adds. */
  function Survivors(actions: Commit, n: nat): seq<string>
    requires n <= |actions|
  {
    if n == 0 then []
    else if Survives(actions, n - 1) then Survivors(actions, n - 1) + [actions[n - 1].path]
    else Survivors(actions, n - 1)
  }

  // ----- counting

  lemma CountNext(actions: Commit, n: nat, path: string)
    requires n < |actions|
    ensures Adds(actions[..n + 1], path) == Adds(actions[..n], path) + if actions[n] == Add(path) then 1 else 0
    ensures Removes(actions[..n + 1], path) == Removes(actions[..n], path) + if actions[n] == Remove(path) then 1 else 0
  {
    assert actions[..n + 1] == actions[..n] + [actions[n]];
  }

  lemma CountAppended(actions: Commit, action: Action, path: string)
    ensures Adds(actions + [action], path) == Adds(actions, path) + if action == Add(path) then 1 else 0
    ensures Removes(actions + [action], path) == Removes(actions, path) + if action == Remove(path) then 1 else 0
  {
  }

  lemma {:induction false} RemovesAreCovered(actions: Commit, path: string)
    requires NeverOverdrawn(actions)
    ensures Removes(actions, path) <= Adds(actions, path)
  {
    if actions == [] {
    } else {
      var n := |actions| - 1;
      assert actions == actions[..n] + [actions[n]];
      OverdrawnLater(actions[..n], actions[n]);
      RemovesAreCovered(actions[..n], path);
      CountAppended(actions[..n], actions[n], path);
    }
  }

  lemma OverdrawnLater(actions: Commit, action: Action)
    ensures NeverOverdrawn(actions + [action]) <==>
            NeverOverdrawn(actions) && (action.Remove? ==> Removes(actions, action.path) < Adds(actions, action.path))
  {
    var more := actions + [action];
    assert forall n :: 0 <= n < |actions| ==> more[..n] == actions[..n] && more[n] == actions[n];
    assert more[..|actions|] == actions;
  }

  // ----- list.remove

  lemma {:induction false} RemoveFirstIff(live: seq<string>, path: string)
    ensures RemoveFirst(live, path).Ok? <==> path in live
    ensures path !in live ==> RemoveFirst(live, path) == Err(NotLive(path))
  {
    if live == [] {
    } else {
      RemoveFirstIff(live[1..], path);
      assert live == [live[0]] + live[1..];
    }
  }

  lemma {:induction false} RemoveFirstFrom(live: seq<string>, last: string, path: string)
    requires path in live || last == path
    ensures path in live ==> RemoveFirst(live, path).Ok?
    ensures RemoveFirst(live + [last], path) == Ok(if path in live then RemoveFirst(live, path).value + [last] else live)
  {
    RemoveFirstIff(live, path);
    var more := live + [last];
    if live == [] {
    } else {
      assert more[0] == live[0] && more[1..] == live[1..] + [last];
      assert live == [live[0]] + live[1..];
      if live[0] == path {
      } else {
        RemoveFirstFrom(live[1..], last, path);
        RemoveFirstIff(live[1..], path);
        if path in live[1..] {
          var rest := RemoveFirst(live[1..], path).value;
          assert [live[0]] + (rest + [last]) == ([live[0]] + rest) + [last];
        }
      }
    }
  }

  // ----- one action more

  /** How often a path is among the survivors of the first n actions. */
  lemma {:induction false} SurvivorCount(actions: Commit, n: nat, path: string)
    requires n <= |actions|
    ensures var added, removed := Adds(actions[..n], path), Removes(actions, path);
      multiset(Survivors(actions, n))[path] == if added < removed then 0 else added - removed
  {
    if n == 0 {
    } else {
      SurvivorCount(actions, n - 1, path);
      CountNext(actions, n - 1, path);
    }
  }

  lemma {:induction false} OthersSurvive(actions: Commit, action: Action, n: nat)
    requires !action.Remove? && n <= |actions|
    ensures Survivors(actions + [action], n) == Survivors(actions, n)
  {
    if n == 0 {
    } else {
      OthersSurvive(actions, action, n - 1);
      assert (actions + [action])[..n - 1] == actions[..n - 1];
      if actions[n - 1].Add? {
        CountAppended(actions, action, actions[n - 1].path);
      }
    }
  }

  /** How the survivors grow by action n, without and with one more remove action at the end. */
  lemma SurvivorsStep(actions: Commit, path: string, n: nat)
    requires n < |actions|
    ensures var more := actions + [Remove(path)];
      match actions[n]
      case Add(p) =>
        var before, after := Survivors(actions, n), Survivors(more, n);
        var last := Removes(actions, p) + (if p == path then 1 else 0);
        && Survivors(actions, n + 1) == (if Removes(actions, p) <= Adds(actions[..n], p) then before + [p] else before)
        && Survivors(more, n + 1) == (if last <= Adds(actions[..n], p) then after + [p] else after)
      case _ => Survivors(actions, n + 1) == Survivors(actions, n) && Survivors(more, n + 1) == Survivors(more, n)
  {
    var more := actions + [Remove(path)];
    assert more[..n] == actions[..n] && more[n] == actions[n];
    if actions[n].Add? {
      CountAppended(actions, Remove(path), actions[n].path);
    }
  }

  /** A remove action takes the first survivor of its path. */
  lemma {:induction false} FirstSurvivorGoes(actions: Commit, path: string, n: nat)
    requires n <= |actions|
    ensures TakesFirst(Survivors(actions, n), Survivors(actions + [Remove(path)], n), path,
                       Adds(actions[..n], path), Removes(actions, path))
  {
    if n == 0 {
    } else {
      var survivors, after := Survivors(actions, n - 1), Survivors(actions + [Remove(path)], n - 1);
      FirstSurvivorGoes(actions, path, n - 1);
      SurvivorsStep(actions, path, n - 1);
      SurvivorCount(actions, n - 1, path);
      CountNext(actions, n - 1, path);
      var added, removed := Adds(actions[..n - 1], path), Removes(actions, path);
      hide Survives, Survivors, Adds, Removes, RemoveFirst;
      if actions[n - 1].Add? {
        var p := actions[n - 1].path;
        TakesFirstStep(survivors, after, path, added, removed, p, Removes(actions, p) <= Adds(actions[..n - 1], p));
      }
    }
  }

  ghost predicate TakesFirst(before: seq<string>, after: seq<string>, path: string, added: nat, removed: nat) {
    if added <= removed then after == before else RemoveFirst(before, path) == Ok(after)
  }

  lemma TakesFirstStep(before: seq<string>, after: seq<string>, path: string, added: nat, removed: nat, p: string,
                       survives: bool)
    requires TakesFirst(before, after, path, added, removed)
    requires multiset(before)[path] == if added < removed then 0 else added - removed
    requires p == path ==> (survives <==> removed <= added)
    ensures var stays := if p == path then removed + 1 <= added else survives;
      TakesFirst(if survives then before + [p] else before, if stays then after + [p] else after, path,
                 if p == path then added + 1 else added, removed)
  {
    RemoveFirstIff(before, path);
    if survives && (path in before || p == path) {
      RemoveFirstFrom(before, p, path);
    }
  }

  /** Replaying a list of actions from nothing. */
  lemma {:induction false} ReplayLeavesSurvivors(actions: Commit)
    ensures Apply([], actions).Ok? <==> NeverOverdrawn(actions)
    ensures NeverOverdrawn(actions) ==> Apply([], actions) == Ok(Survivors(actions, |actions|))
  {
    if actions == [] {
    } else {
      var n := |actions| - 1;
      var before, action := actions[..n], actions[n];
      assert actions == before + [action];
      ReplayLeavesSurvivors(before);
      OverdrawnLater(before, action);
      if NeverOverdrawn(before) {
        assert before[..n] == before;
        if action.Remove? {
          SurvivorCount(before, n, action.path);
          RemoveFirstIff(Survivors(before, n), action.path);
          FirstSurvivorGoes(before, action.path, n);
        } else {
          OthersSurvive(before, action, n);
          if action.Add? {
            RemovesAreCovered(before, action.path);
            CountAppended(before, action, action.path);
            assert Survives(actions, n);
          }
        }
      }
    }
  }

  // ----- commit by commit

  lemma {:induction false} ApplyInTwo(live: seq<string>, a: Commit, b: Commit)
    ensures Apply(live, a + b) == match Apply(live, a) case Err(e) => Err(e) case Ok(middle) => Apply(middle, b)
    decreases |b|
  {
    if b == [] {
      assert a + b == a;
    } else {
      var n := |b| - 1;
      assert (a + b)[..|a + b| - 1] == a + b[..n];
      ApplyInTwo(live, a, b[..n]);
    }
  }

  lemma {:induction false} SnapshotIsReplay(log: Log, v: nat)
    ensures Snapshot(log, v).Ok? <==> Complete(log, v) && Apply([], History(log, v)).Ok?
    ensures Snapshot(log, v).Ok? ==> Snapshot(log, v) == Apply([], History(log, v))
  {
    if v == 0 {
    } else {
      SnapshotIsReplay(log, v - 1);
      if Json(v) in log {
        ApplyInTwo([], History(log, v - 1), log[Json(v)]);
      }
    }
  }

  /** The snapshot of a version, read off the actions of its commits: it exists exactly when no
      commit is missing and no path is removed more often than it was added before; the files
      are the adds that no remove has used up, in the order of the adds, so that a path occurs
      as often as it was added less as often as it was removed. */
  lemma SnapshotIsWhatRemains(log: Log, v: nat)
    ensures Snapshot(log, v).Ok? <==> Complete(log, v) && NeverOverdrawn(History(log, v))
    ensures Snapshot(log, v).Ok? ==>
      var actions := History(log, v);
      && Snapshot(log, v).value == Survivors(actions, |actions|)
      && forall path :: multiset(Snapshot(log, v).value)[path] == Adds(actions, path) - Removes(actions, path)
  {
    var actions := History(log, v);
    SnapshotIsReplay(log, v);
    ReplayLeavesSurvivors(actions);
    if Snapshot(log, v).Ok? {
      assert actions[..|actions|] == actions;
      forall path ensures multiset(Snapshot(log, v).value)[path] == Adds(actions, path) - Removes(actions, path) {
        SurvivorCount(actions, |actions|, path);
        RemovesAreCovered(actions, path);
      }
    }
  }

  // ----- errors

  /** Action n removes a path that is not live by then. */
  ghost predicate FailsAt(live: seq<string>, actions: Commit, n: nat, path: string) {
    && n < |actions| && actions[n] == Remove(path)
    && Apply(live, actions[..n]).Ok? && path !in Apply(live, actions[..n]).value
  }

  ghost predicate FailsOn(live: seq<string>, actions: Commit, path: string) {
    exists n: nat :: FailsAt(live, actions, n, path)
  }

  lemma {:induction false} ApplyErrors(live: seq<string>, actions: Commit)
    ensures var r := Apply(live, actions); r.Err? ==> r.error.NotLive? && FailsOn(live, actions, r.error.path)
  {
    if actions == [] {
    } else {
      var n := |actions| - 1;
      ApplyErrors(live, actions[..n]);
      match Apply(live, actions[..n])
      case Err(e) =>
        var k: nat :| FailsAt(live, actions[..n], k, e.path);
        assert actions[..n][..k] == actions[..k];
        assert FailsAt(live, actions, k, e.path);
      case Ok(l) =>
        if actions[n].Remove? {
          RemoveFirstIff(l, actions[n].path);
          if actions[n].path !in l {
            assert FailsAt(live, actions, n, actions[n].path);
          }
        }
    }
  }

  /** Everything before commit i replays, and that commit is missing or fails. */
  ghost predicate FailsFirst(log: Log, i: nat, error: LakeError) {
    && i >= 1 && Snapshot(log, i - 1).Ok?
    && if Json(i) !in log then error == MissingLog(i)
       else error.NotLive? && FailsOn(Snapshot(log, i - 1).value, log[Json(i)], error.path)
  }

  /** A replay that fails tells what was wrong first: the number of the missing commit, or the
      path that a remove action did not find live. */
  lemma {:induction false} SnapshotErrorIsFirst(log: Log, v: nat)
    requires Snapshot(log, v).Err?
    ensures exists i: nat :: i <= v && FailsFirst(log, i, Snapshot(log, v).error)
  {
    if v == 0 {
    } else if Snapshot(log, v - 1).Err? {
      SnapshotErrorIsFirst(log, v - 1);
    } else {
      if Json(v) in log {
        ApplyErrors(Snapshot(log, v - 1).value, log[Json(v)]);
      }
      assert FailsFirst(log, v, Snapshot(log, v).error);
    }
  }
}
