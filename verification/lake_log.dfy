/** A lake table on disk: data files beside a log of numbered commits. The log directory and
    the table directory are modelled as maps and sets; a rename is one atomic step. */
module LakeLog {

  datatype Result<+T> = Ok(value: T) | Err(error: LakeError)

  datatype LakeError = MissingLog(version: nat) | NotLive(path: string)

  datatype Action = Add(path: string) | Remove(path: string) | Other

  type Commit = seq<Action>

  /** Names in the log directory: NNNN.json, and NNNN.json.tmp while it is being written. */
  datatype LogName = Json(version: nat) | Temporary(version: nat)

  type Log = map<LogName, Commit>

  predicate IsParquet(name: string) {
    |name| >= 8 && name[|name| - 8..] == ".parquet"
  }

  // ----- replay

  /** list.remove: the first occurrence goes, and it is an error if there is none. */
  function RemoveFirst(live: seq<string>, path: string): Result<seq<string>> {
    if live == [] then Err(NotLive(path))
    else if live[0] == path then Ok(live[1..])
    else
      match RemoveFirst(live[1..], path)
      case Err(e) => Err(e)
      case Ok(rest) => Ok([live[0]] + rest)
  }

  function ApplyOne(live: seq<string>, action: Action): Result<seq<string>> {
    match action
    case Add(path) => Ok(live + [path])
    case Remove(path) => RemoveFirst(live, path)
    case Other => Ok(live)
  }

  function Apply(live: seq<string>, actions: Commit): Result<seq<string>> {
    if actions == [] then Ok(live)
    else
      var n := |actions| - 1;
      match Apply(live, actions[..n])
      case Err(e) => Err(e)
      case Ok(l) => ApplyOne(l, actions[n])
  }

  /** The live files after commits 1 to v; commit 0 is only the schema. */
  function Snapshot(log: Log, v: nat): Result<seq<string>> {
    if v == 0 then Ok([])
    else
      match Snapshot(log, v - 1)
      case Err(e) => Err(e)
      case Ok(live) => if Json(v) in log then Apply(live, log[Json(v)]) else Err(MissingLog(v))
  }

  /** The numbers of the committed log files. */
  function Versions(log: Log): set<nat> {
    set name | name in log && name.Json? :: name.version
  }

  /** The log files are 0, 1, ... n - 1, without a gap. */
  ghost predicate Contiguous(log: Log, n: nat) {
    forall k: nat :: Json(k) in log <==> k < n
  }

  ghost function Upto(n: nat): (s: set<nat>)
    ensures |s| == n && forall k: nat :: k in s <==> k < n
  {
    if n == 0 then {} else Upto(n - 1) + {n - 1}
  }

  lemma CountIsNext(log: Log, n: nat)
    requires Contiguous(log, n)
    ensures |Versions(log)| == n
  {
    assert Versions(log) == Upto(n) by {
      forall k: nat ensures k in Versions(log) <==> k in Upto(n) {
        if k < n {
          assert Json(k) in log && Json(k).version == k;
        }
      }
    }
  }

  /** A directory listing names every file once. */
  ghost predicate Lists(listing: seq<LogName>, log: Log) {
    && (forall name :: name in listing <==> name in log)
    && forall i, j :: 0 <= i < j < |listing| ==> listing[i] != listing[j]
  }

  /** The committed versions among the first i names. */
  ghost function VersionsIn(listing: seq<LogName>, i: nat): set<nat>
    requires i <= |listing|
  {
    set name | name in listing[..i] && name.Json? :: name.version
  }

  lemma VersionsInStep(listing: seq<LogName>, i: nat)
    requires i < |listing| && forall a, b :: 0 <= a < b < |listing| ==> listing[a] != listing[b]
    ensures |VersionsIn(listing, i + 1)| == |VersionsIn(listing, i)| + if listing[i].Json? then 1 else 0
  {
    var before, name := VersionsIn(listing, i), listing[i];
    assert listing[..i + 1] == listing[..i] + [name];
    if name.Json? {
      assert name.version !in before;
      assert VersionsIn(listing, i + 1) == before + {name.version};
    } else {
      assert VersionsIn(listing, i + 1) == before;
    }
  }

  // ----- the table

  class LakeTable {
    var log: Log
    var data: set<string>

    constructor ()
      ensures log == map[] && data == {}
    {
      log, data := map[], {};
    }

    /** Counts the .json files of the directory; 'listing' is the directory in the order in
        which the operating system lists it. In a log without gaps that finds the newest
        version, however many temporary files lie about. */
    method Version(listing: seq<LogName>) returns (v: int)
      requires Lists(listing, log)
      ensures forall n: nat :: Contiguous(log, n) ==> v == n - 1
      ensures v == |Versions(log)| - 1
    {
      v := -1;
      var i := 0;
      while i < |listing|
        invariant 0 <= i <= |listing| && v == |VersionsIn(listing, i)| - 1
      {
        VersionsInStep(listing, i);
        if listing[i].Json? {
          v := v + 1;
        }
        i := i + 1;
      }
      assert VersionsIn(listing, |listing|) == Versions(log);
      forall n: nat | Contiguous(log, n) ensures v == n - 1 {
        CountIsNext(log, n);
      }
    }

    /** Writes the temporary file and renames it; a crash may happen in between, and may
        leave the temporary file torn. */
    method Commit(listing: seq<LogName>, actions: Commit, crash: bool, torn: Commit)
      requires Lists(listing, log)
      modifies this`log
      ensures log == if crash then Torn(old(log), torn) else Published(old(log), actions)
    {
      var version := 0;
      if log != map[] {
        var current := Version(listing);
        version := current + 1;
      } else {
        assert Versions(log) == {};
      }
      var temporary := Temporary(version);
      if crash {
        log := log[temporary := torn];
        return;
      }
      log := log[temporary := actions];
      log := (log - {temporary})[Json(version) := log[temporary]];
      assert log == (old(log) - {temporary})[Json(version) := actions];
    }

    /** Replays the log up to the given version. */
    method SnapshotFiles(latest: nat) returns (r: Result<seq<string>>)
      ensures r == Snapshot(log, latest)
    {
      var live: seq<string> := [];
      var version := 1;
      while version <= latest
        invariant 1 <= version <= latest + 1
        invariant Snapshot(log, version - 1) == Ok(live)
      {
        if Json(version) !in log {
          SnapshotFails(log, version, latest);
          return Err(MissingLog(version));
        }
        var actions := log[Json(version)];
        ghost var before := live;
        var i := 0;
        while i < |actions|
          invariant 0 <= i <= |actions|
          invariant Apply(before, actions[..i]) == Ok(live)
        {
          assert actions[..i + 1][..i] == actions[..i];
          var next := ApplyOne(live, actions[i]);
          if next.Err? {
            ApplyFails(before, actions, i + 1);
            SnapshotFails(log, version, latest);
            return next;
          }
          live := next.value;
          i := i + 1;
        }
        assert actions[..|actions|] == actions;
        version := version + 1;
      }
      return Ok(live);
    }

    /** Deletes the data files that are not live in the newest version. 'listing' is the
        directory in the order in which the operating system lists it. */
    method Vacuum(listing: seq<string>) returns (removed: Result<seq<string>>)
      requires (set name | name in listing) == data
      requires forall i, j :: 0 <= i < j < |listing| ==> listing[i] != listing[j]
      modifies this`data
      ensures match Snapshot(log, Latest(log))
              case Err(e) => removed == Err(e) && data == old(data)
              case Ok(_) => data == Vacuumed(old(data), Live(log)) && removed == Ok(Stale(Live(log), listing))
    {
      var snapshot := SnapshotFiles(Latest(log));
      if snapshot.Err? {
        return Err(snapshot.error);
      }
      var live := set name | name in snapshot.value;
      var gone: seq<string> := [];
      var i := 0;
      while i < |listing|
        invariant 0 <= i <= |listing|
        invariant gone == Stale(live, listing[..i])
        invariant forall name :: name in data <==> name in listing && !(name in listing[..i] && IsStale(live, name))
      {
        var name := listing[i];
        assert listing[..i + 1] == listing[..i] + [name];
        if IsParquet(name) && name !in live {
          data := data - {name};
          gone := gone + [name];
        }
        i := i + 1;
      }
      assert listing[..|listing|] == listing;
      return Ok(gone);
    }
  }

  lemma {:induction false} ApplyFails(live: seq<string>, actions: Commit, i: nat)
    requires i <= |actions| && Apply(live, actions[..i]).Err?
    ensures Apply(live, actions) == Apply(live, actions[..i])
    decreases |actions|
  {
    if i < |actions| {
      assert actions[..|actions| - 1][..i] == actions[..i];
      ApplyFails(live, actions[..|actions| - 1], i);
    } else {
      assert actions[..i] == actions;
    }
  }

  lemma {:induction false} SnapshotFails(log: Log, v: nat, latest: nat)
    requires v <= latest && Snapshot(log, v).Err?
    ensures Snapshot(log, latest) == Snapshot(log, v)
    decreases latest
  {
    if v >= latest {
    } else {
      SnapshotFails(log, v, latest - 1);
    }
  }

  predicate IsStale(live: set<string>, name: string) { IsParquet(name) && name !in live }

  function Stale(live: set<string>, listing: seq<string>): seq<string> {
    if listing == [] then []
    else
      var n := |listing| - 1;
      Stale(live, listing[..n]) + (if IsStale(live, listing[n]) then [listing[n]] else [])
  }

  function Vacuumed(data: set<string>, live: set<string>): set<string> {
    set name | name in data && !IsStale(live, name)
  }

  /** A parquet file is one whose name is some stem with the ending behind it. */
  lemma ParquetIff(name: string)
    ensures IsParquet(name) <==> exists stem :: name == stem + ".parquet"
  {
    if IsParquet(name) {
      assert name == name[..|name| - 8] + ".parquet";
    }
    forall stem | name == stem + ".parquet" ensures IsParquet(name) {
      assert name[|stem|..] == ".parquet";
    }
  }

  lemma {:induction false} StaleIff(live: set<string>, listing: seq<string>, name: string)
    ensures name in Stale(live, listing) <==> name in listing && IsStale(live, name)
  {
    if listing == [] {
    } else {
      var n := |listing| - 1;
      StaleIff(live, listing[..n], name);
      assert name in listing <==> name in listing[..n] || name == listing[n];
    }
  }

  lemma {:induction false} StaleOnce(live: set<string>, listing: seq<string>)
    requires forall i, j :: 0 <= i < j < |listing| ==> listing[i] != listing[j]
    ensures var gone := Stale(live, listing); forall i, j :: 0 <= i < j < |gone| ==> gone[i] != gone[j]
  {
    if listing == [] {
    } else {
      var n := |listing| - 1;
      var gone := Stale(live, listing[..n]);
      StaleOnce(live, listing[..n]);
      StaleIff(live, listing[..n], listing[n]);
      assert listing[n] !in listing[..n];
      assert listing[n] !in gone;
    }
  }

  /** Vacuum returns the files that are gone afterwards, each once. */
  lemma StaleIsWhatGoes(live: set<string>, listing: seq<string>, data: set<string>)
    requires (set name | name in listing) == data
    requires forall i, j :: 0 <= i < j < |listing| ==> listing[i] != listing[j]
    ensures var gone := Stale(live, listing);
      && (set name | name in gone) == data - Vacuumed(data, live)
      && forall i, j :: 0 <= i < j < |gone| ==> gone[i] != gone[j]
  {
    StaleOnce(live, listing);
    forall name ensures name in Stale(live, listing) <==> name in listing && IsStale(live, name) {
      StaleIff(live, listing, name);
    }
  }

  // ----- every run of a single writer, crashes included

  datatype State = State(log: Log, data: set<string>)

  datatype Step =
    | WriteData(name: string)
    | Publish(actions: Commit)
    | CrashedPublish(torn: Commit)
    | FullVacuum
    | CrashedVacuum(deleted: set<string>)

  const EMPTY := State(map[], {})

  function Latest(log: Log): nat {
    if |Versions(log)| == 0 then 0 else |Versions(log)| - 1
  }

  /** The live files of the newest version. */
  function Live(log: Log): set<string> {
    match Snapshot(log, Latest(log))
    case Ok(live) => set name | name in live
    case Err(_) => {}
  }

  /** Otherwise vacuum raises before it deletes anything. */
  predicate Replays(log: Log) { Snapshot(log, Latest(log)).Ok? }

  /** The log after a commit that is not cut short, and after one that is. */
  function Published(log: Log, actions: Commit): Log {
    (log - {Temporary(|Versions(log)|)})[Json(|Versions(log)|) := actions]
  }

  function Torn(log: Log, torn: Commit): Log {
    log[Temporary(|Versions(log)|) := torn]
  }

  ghost predicate Next(s: State, step: Step, t: State) {
    match step
    case WriteData(name) => t == s.(data := s.data + {name})
    case Publish(actions) => t == s.(log := Published(s.log, actions))
    case CrashedPublish(torn) => t == s.(log := Torn(s.log, torn))
    case FullVacuum => Replays(s.log) && t == s.(data := Vacuumed(s.data, Live(s.log)))
    case CrashedVacuum(deleted) =>
      && Replays(s.log) && (forall name :: name in deleted ==> IsStale(Live(s.log), name))
      && t == s.(data := s.data - deleted)
  }

  /** A writer that follows the protocol: when it commits, the files it adds are there, and
      the replay goes through (a removed file was live). */
  ghost predicate Disciplined(s: State, step: Step) {
    step.Publish? ==>
      && (forall a :: a in step.actions && a.Add? ==> a.path in s.data)
      && Snapshot(Published(s.log, step.actions), |Versions(s.log)|).Ok?
  }

  ghost predicate Run(states: seq<State>, steps: seq<Step>) {
    && |states| == |steps| + 1 && states[0] == EMPTY
    && forall i :: 0 <= i < |steps| ==> Next(states[i], steps[i], states[i + 1])
  }

  lemma NextKeepsLog(s: State, step: Step, t: State, n: nat)
    requires Next(s, step, t) && Contiguous(s.log, n)
    ensures Contiguous(t.log, if step.Publish? then n + 1 else n)
    ensures forall k: nat :: k < n ==> t.log[Json(k)] == s.log[Json(k)]
    ensures step.Publish? ==> t.log[Json(n)] == step.actions
  {
    CountIsNext(s.log, n);
  }

  /** Crashes or not: at every point of every run the log files are exactly 0 .. version,
      however many stale temporary files lie beside them. */
  lemma {:induction false} LogIsContiguous(states: seq<State>, steps: seq<Step>, i: nat)
    requires Run(states, steps) && i < |states|
    ensures Contiguous(states[i].log, |Versions(states[i].log)|)
  {
    if i == 0 {
      CountIsNext(map[], 0);
    } else {
      LogIsContiguous(states, steps, i - 1);
      var n := |Versions(states[i - 1].log)|;
      NextKeepsLog(states[i - 1], steps[i - 1], states[i], n);
      CountIsNext(states[i].log, if steps[i - 1].Publish? then n + 1 else n);
    }
  }

  lemma {:induction false} SameCommitsSameSnapshot(a: Log, b: Log, v: nat)
    requires forall k: nat :: k <= v ==> Json(k) in a && Json(k) in b && a[Json(k)] == b[Json(k)]
    ensures Snapshot(a, v) == Snapshot(b, v)
  {
    if v == 0 {
    } else {
      SameCommitsSameSnapshot(a, b, v - 1);
    }
  }

  /** Time travel: once version v is committed, its commits and its snapshot are the same at
      every later point of the run. */
  lemma {:induction false} HistoryIsImmutable(states: seq<State>, steps: seq<Step>, i: nat, j: nat, v: nat)
    requires Run(states, steps) && i <= j < |states| && Json(v) in states[i].log
    ensures Json(v) in states[j].log && states[j].log[Json(v)] == states[i].log[Json(v)]
    ensures Snapshot(states[j].log, v) == Snapshot(states[i].log, v)
    decreases j
  {
    LogIsContiguous(states, steps, i);
    if i < j {
      LogIsContiguous(states, steps, j - 1);
      HistoryIsImmutable(states, steps, i, j - 1, v);
      NextKeepsLog(states[j - 1], steps[j - 1], states[j], |Versions(states[j - 1].log)|);
      SameCommitsSameSnapshot(states[j - 1].log, states[j].log, v);
    }
  }

  lemma {:induction false} RemoveFirstKeeps(live: seq<string>, path: string)
    requires RemoveFirst(live, path).Ok?
    ensures forall p :: p in RemoveFirst(live, path).value ==> p in live
  {
    if live[0] != path {
      RemoveFirstKeeps(live[1..], path);
    }
  }

  lemma {:induction false} ApplyAddsOnly(live: seq<string>, actions: Commit, p: string)
    requires Apply(live, actions).Ok? && p in Apply(live, actions).value
    ensures p in live || Add(p) in actions
  {
    if actions == [] {
    } else {
      var n := |actions| - 1;
      var before := Apply(live, actions[..n]).value;
      if actions[n].Remove? {
        RemoveFirstKeeps(before, actions[n].path);
      }
      if p in before {
        ApplyAddsOnly(live, actions[..n], p);
      } else {
        assert actions[n] == Add(p);
      }
    }
  }

  /** The newest snapshot replays, and all its files are on disk. */
  ghost predicate Readable(s: State) {
    && Contiguous(s.log, |Versions(s.log)|)
    && Replays(s.log) && Live(s.log) <= s.data
  }

  lemma PublishKeepsReadable(s: State, step: Step, t: State)
    requires Readable(s) && step.Publish? && Next(s, step, t) && Disciplined(s, step)
    ensures Readable(t)
  {
    var n := |Versions(s.log)|;
    NextKeepsLog(s, step, t, n);
    CountIsNext(t.log, n + 1);
    if n > 0 {
      SameCommitsSameSnapshot(s.log, t.log, n - 1);
      var before := Snapshot(s.log, n - 1).value;
      forall p | p in Live(t.log) ensures p in t.data {
        ApplyAddsOnly(before, step.actions, p);
      }
    }
  }

  lemma NextKeepsReadable(s: State, step: Step, t: State)
    requires Readable(s) && Next(s, step, t) && Disciplined(s, step)
    ensures Readable(t)
  {
    if step.Publish? {
      PublishKeepsReadable(s, step, t);
    } else {
      var n := |Versions(s.log)|;
      NextKeepsLog(s, step, t, n);
      CountIsNext(t.log, n);
      if n > 0 {
        SameCommitsSameSnapshot(s.log, t.log, n - 1);
      }
      assert Live(t.log) == Live(s.log);
    }
  }

  /** In every run of a disciplined writer the newest version can be read at every point:
      no crash and no vacuum loses a live file. */
  lemma {:induction false} NewestIsAlwaysReadable(states: seq<State>, steps: seq<Step>, i: nat)
    requires Run(states, steps) && i < |states|
    requires forall k :: 0 <= k < |steps| ==> Disciplined(states[k], steps[k])
    ensures Readable(states[i])
  {
    if i == 0 {
      CountIsNext(map[], 0);
    } else {
      NewestIsAlwaysReadable(states, steps, i - 1);
      NextKeepsReadable(states[i - 1], steps[i - 1], states[i]);
    }
  }

  /** A vacuum that is not cut short leaves exactly the newest snapshot's parquet files, and
      touches nothing that is not a parquet file. */
  lemma VacuumLeavesSnapshot(states: seq<State>, steps: seq<Step>, i: nat)
    requires Run(states, steps) && i < |steps| && steps[i].FullVacuum?
    requires forall k :: 0 <= k < |steps| ==> Disciplined(states[k], steps[k])
    ensures var t := states[i + 1];
      && (set name | name in t.data && IsParquet(name)) == (set name | name in Live(t.log) && IsParquet(name))
      && (forall name :: !IsParquet(name) ==> (name in t.data <==> name in states[i].data))
  {
    NewestIsAlwaysReadable(states, steps, i);
  }

  /** All files of version v are on disk. */
  ghost predicate CanTravelTo(s: State, v: nat) {
    Snapshot(s.log, v).Ok? && forall p :: p in Snapshot(s.log, v).value ==> p in s.data
  }

  /** Vacuum breaks time travel to exactly those versions that name a parquet file the newest
      version no longer has. */
  lemma VacuumAndTimeTravel(s: State, t: State, v: nat)
    requires Next(s, FullVacuum, t) && CanTravelTo(s, v)
    ensures CanTravelTo(t, v) <==>
            forall p :: p in Snapshot(s.log, v).value && IsParquet(p) ==> p in Live(s.log)
  {
  }

  // ----- exactly when a commit can be read

  /** The step removes the file from disk: a vacuum, complete or not, that finds a parquet
      file which is not live. */
  ghost predicate Deletes(s: State, step: Step, file: string) {
    match step
    case FullVacuum => IsStale(Live(s.log), file)
    case CrashedVacuum(deleted) => file in deleted
    case _ => false
  }

  /** Step i writes the file, and no step from there to j deletes it. */
  ghost predicate WrittenAt(states: seq<State>, steps: seq<Step>, i: nat, j: nat, file: string)
    requires i < j <= |steps| <= |states|
  {
    steps[i] == WriteData(file) && forall k :: i < k < j ==> !Deletes(states[k], steps[k], file)
  }

  ghost predicate Survives(states: seq<State>, steps: seq<Step>, j: nat, file: string)
    requires j <= |steps| <= |states|
  {
    exists i :: 0 <= i < j && WrittenAt(states, steps, i, j, file)
  }

  /** At every point of every run the files on disk are those that were written and not
      deleted since. */
  lemma {:induction false} OnDiskIff(states: seq<State>, steps: seq<Step>, j: nat, file: string)
    requires Run(states, steps) && j <= |steps|
    ensures file in states[j].data <==> Survives(states, steps, j, file)
  {
    if j == 0 {
    } else {
      OnDiskIff(states, steps, j - 1, file);
      assert Next(states[j - 1], steps[j - 1], states[j]);
      if Survives(states, steps, j, file) {
        var i :| 0 <= i < j && WrittenAt(states, steps, i, j, file);
        if i < j - 1 {
          assert WrittenAt(states, steps, i, j - 1, file) && !Deletes(states[j - 1], steps[j - 1], file);
        }
      }
      if file in states[j].data {
        if steps[j - 1] == WriteData(file) {
          assert WrittenAt(states, steps, j - 1, j, file);
        } else {
          var i :| 0 <= i < j - 1 && WrittenAt(states, steps, i, j - 1, file);
          assert WrittenAt(states, steps, i, j, file);
        }
      }
    }
  }

  /** After a commit the newest version can be read exactly when its replay goes through and
      every file that has become live is on disk. */
  lemma PublishIsReadableIff(s: State, step: Step, t: State)
    requires Readable(s) && step.Publish? && Next(s, step, t)
    ensures Readable(t) <==> Replays(t.log) && Live(t.log) - Live(s.log) <= s.data
  {
    var n := |Versions(s.log)|;
    NextKeepsLog(s, step, t, n);
    CountIsNext(t.log, n + 1);
  }

  /** So in every run: what the commit makes live must have been written, and no vacuum may
      have deleted it since. */
  lemma CommitIsReadableIff(states: seq<State>, steps: seq<Step>, j: nat)
    requires Run(states, steps) && j < |steps| && steps[j].Publish? && Readable(states[j])
    ensures Readable(states[j + 1]) <==>
      && Replays(states[j + 1].log)
      && forall p :: p in Live(states[j + 1].log) && p !in Live(states[j].log) ==> Survives(states, steps, j, p)
  {
    PublishIsReadableIff(states[j], steps[j], states[j + 1]);
    forall p ensures p in states[j].data <==> Survives(states, steps, j, p) {
      OnDiskIff(states, steps, j, p);
    }
  }

  lemma LiveAfterAdd(s: State, t: State, file: string)
    requires Readable(s) && Json(0) in s.log && Next(s, Publish([Add(file)]), t)
    ensures Replays(t.log) && Live(t.log) == Live(s.log) + {file}
  {
    var n := |Versions(s.log)|;
    var actions := [Add(file)];
    NextKeepsLog(s, Publish(actions), t, n);
    CountIsNext(t.log, n + 1);
    SameCommitsSameSnapshot(s.log, t.log, n - 1);
    var before := Snapshot(s.log, n - 1).value;
    assert actions[..0] == [] && Apply(before, actions[..0]) == Ok(before);
    assert Apply(before, actions) == Ok(before + [file]);
  }

  /** An append in two steps, with whatever happens in between: the file is written, for the
      last time, by step i and committed by step j. The new version can be read exactly when no
      vacuum in between found the file to be a parquet file that is not live. */
  lemma AppendIsReadableIff(states: seq<State>, steps: seq<Step>, i: nat, j: nat, file: string)
    requires Run(states, steps) && i < j < |steps|
    requires steps[i] == WriteData(file) && steps[j] == Publish([Add(file)])
    requires forall k :: i < k < j ==> steps[k] != WriteData(file)
    requires Readable(states[j]) && Json(0) in states[j].log
    ensures Readable(states[j + 1]) <==> forall k :: i < k < j ==> !Deletes(states[k], steps[k], file)
  {
    assert Next(states[j], steps[j], states[j + 1]);
    LiveAfterAdd(states[j], states[j + 1], file);
    PublishIsReadableIff(states[j], steps[j], states[j + 1]);
    OnDiskIff(states, steps, j, file);
    if Survives(states, steps, j, file) {
      var l :| 0 <= l < j && WrittenAt(states, steps, l, j, file);
    }
    if forall k :: i < k < j ==> !Deletes(states[k], steps[k], file) {
      assert WrittenAt(states, steps, i, j, file);
    }
  }

  /** Over a whole run in which every replay goes through: the newest version can be read at
      every point exactly when every file that a commit made live had been written and not
      been deleted since. */
  lemma {:induction false} AlwaysReadableIff(states: seq<State>, steps: seq<Step>, n: nat)
    requires Run(states, steps) && n <= |steps| && forall k :: 0 <= k <= n ==> Replays(states[k].log)
    ensures (forall k :: 0 <= k <= n ==> Readable(states[k])) <==>
            forall j :: 0 <= j < n && steps[j].Publish? ==> KeepsItsFiles(states, steps, j)
  {
    if n == 0 {
      CountIsNext(map[], 0);
    } else {
      AlwaysReadableIff(states, steps, n - 1);
      var s, t := states[n - 1], states[n];
      assert Next(s, steps[n - 1], t);
      if Readable(s) {
        if steps[n - 1].Publish? {
          CommitIsReadableIff(states, steps, n - 1);
        } else {
          NextKeepsReadable(s, steps[n - 1], t);
        }
      }
    }
  }

  ghost predicate KeepsItsFiles(states: seq<State>, steps: seq<Step>, j: nat)
    requires j < |steps| < |states|
  {
    forall p :: p in Live(states[j + 1].log) && p !in Live(states[j].log) ==> Survives(states, steps, j, p)
  }

  lemma CreatedTable()
    ensures var log := Published(map[], [Other]); Json(0) in log && Contiguous(log, |Versions(log)|) && Replays(log) && Live(log) == {}
  {
    var log := Published(map[], [Other]);
    CountIsNext(map[], 0);
    NextKeepsLog(EMPTY, Publish([Other]), State(log, {}), 0);
    CountIsNext(log, 1);
  }

  const LOST := "a.parquet"

  /** Create the table, write a file, vacuum, commit the file. */
  const INTERLEAVED: seq<Step> := [Publish([Other]), WriteData(LOST), FullVacuum, Publish([Add(LOST)])]

  /** Why a vacuum must not come between writing a data file and committing it: it deletes the
      file, and the commit then names a file that is not there. */
  lemma VacuumDuringAppendLosesData() returns (states: seq<State>)
    ensures Run(states, INTERLEAVED)
    ensures LOST in states[2].data && LOST !in states[3].data
    ensures Replays(states[4].log) && LOST in Live(states[4].log) && !Readable(states[4])
  {
    var s1 := State(Published(map[], [Other]), {});
    var s2 := s1.(data := {LOST});
    var s3 := s2.(data := {});
    var s4 := s3.(log := Published(s3.log, [Add(LOST)]));
    CreatedTable();
    assert LOST[1..] == ".parquet" && IsParquet(LOST);
    assert Vacuumed(s2.data, Live(s2.log)) == s3.data;
    LiveAfterAdd(s3, s4, LOST);
    hide Apply, Snapshot, Versions;
    states := [EMPTY, s1, s2, s3, s4];
  }
}
