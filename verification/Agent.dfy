/** The code that works on the servers directory: the two swap paths and the boot
    recovery, as methods on the directory. The ghost run records one machine label
    per file-system action, so everything proved of runs holds of this code when it is
    cut off after any action. */
module Agent {
  import opened DirNames
  import opened SwapMachine
  import opened BootRecovery
  import SwapProofs

  /** A run under construction, newest step outermost. */
  datatype Log = Start(now: State) | Then(earlier: Log, action: Label, now: State)

  ghost predicate StepsTo(s: State, l: Label, s': State) {
    Enabled(s, l) && s' == Apply(s, l)
  }

  ghost predicate Genuine(log: Log) {
    log.Then? ==> Genuine(log.earlier) && StepsTo(log.earlier.now, log.action, log.now)
  }

  ghost predicate Extends(log: Log, base: Log) {
    log == base || (log.Then? && Extends(log.earlier, base))
  }

  lemma ExtendsItself(log: Log)
    ensures Extends(log, log)
  {
  }

  lemma {:induction false} ExtendsTransitive(c: Log, b: Log, a: Log)
    requires Extends(c, b) && Extends(b, a)
    ensures Extends(c, a)
  {
    if c != b { ExtendsTransitive(c.earlier, b, a); }
  }

  ghost function States(log: Log): (r: seq<State>)
    ensures |r| > 0 && r[|r| - 1] == log.now
  {
    match log
    case Start(s) => [s]
    case Then(earlier, _, s) => States(earlier) + [s]
  }

  ghost function Labels(log: Log): (r: seq<Label>)
    ensures |r| + 1 == |States(log)|
  {
    match log
    case Start(_) => []
    case Then(earlier, l, _) => Labels(earlier) + [l]
  }

  /** A genuine log is a run of the machine. */
  lemma {:induction false} LogIsRun(log: Log)
    requires Genuine(log)
    ensures IsRun(States(log), Labels(log))
  {
    if log.Then? {
      LogIsRun(log.earlier);
      var ss, ls := States(log.earlier), Labels(log.earlier);
      forall i | 0 <= i < |Labels(log)| ensures StepAt(States(log), Labels(log), i) {
        if i < |ls| {
          assert StepAt(ss, ls, i);
        } else {
          assert StepsTo(log.earlier.now, log.action, log.now);
        }
      }
    }
  }

  /** Code that starts from a safe state is safe wherever it is cut off. */
  lemma {:induction false} SafeWherever(log: Log, base: Log)
    requires Genuine(log) && Extends(log, base) && Inv(base.now)
    ensures Inv(log.now)
  {
    if log != base {
      SafeWherever(log.earlier, base);
      SwapProofs.StepKeeps(log.earlier.now, log.action);
    }
  }

  /** Which recursive removal is running; it decides the label of each unlink. */
  datatype Removal = OfStaging(u: string) | OfLeftover(u: string) | OfAside(u: string) | OfSweep(name: string)

  ghost function UnlinkLabel(r: Removal, path: string): Label {
    match r
    case OfStaging(u) => PurgeFile(u, path)
    case OfLeftover(u) => ReclaimFile(u, path)
    case OfAside(u) => DropFile(u, path)
    case OfSweep(n) => SweepFile(n, path)
  }

  ghost function RmdirLabel(r: Removal): Label {
    match r
    case OfStaging(u) => PurgeDir(u)
    case OfLeftover(u) => ReclaimDir(u)
    case OfAside(u) => DropDir(u)
    case OfSweep(n) => SweepEntry(n)
  }

  /** The directory a removal works on, when the state allows that removal. */
  ghost predicate Removes(s: State, r: Removal, name: string) {
    match r
    case OfStaging(u) => InPhase(s, u, Cleaning) && s.tasks[u].staging == name
    case OfLeftover(u) => InPhase(s, u, Reclaiming) && AsideOf(u) == name
    case OfAside(u) => InPhase(s, u, Installed) && AsideOf(u) == name
    case OfSweep(n) => n == name && s.mode.Sweeping? && n in s.mode.todo && Sweepable(s.dir, s.mode.sweep, n)
  }

  /** The state once the emptied directory is gone and `d` is what remains. */
  ghost function AfterRemoval(s: State, r: Removal, d: Listing): State
    requires r.OfSweep? ==> s.mode.Sweeping?
  {
    match r
    case OfStaging(u) => EndTask(s.(dir := d), u)
    case OfSweep(n) => s.(dir := d, mode := s.mode.(todo := s.mode.todo - {n}))
    case _ => s.(dir := d)
  }

  lemma UnlinkIs(s: State, r: Removal, name: string, path: string)
    requires Removes(s, r, name) && HasFile(s.dir, name, path)
    ensures Enabled(s, UnlinkLabel(r, path))
    ensures Apply(s, UnlinkLabel(r, path)) == s.(dir := Unlink(s.dir, name, path))
    ensures Removes(s.(dir := Unlink(s.dir, name, path)), r, name)
  {
  }

  lemma RmdirIs(s: State, r: Removal, name: string)
    requires Removes(s, r, name) && EmptyDir(s.dir, name)
    ensures Enabled(s, RmdirLabel(r))
    ensures Apply(s, RmdirLabel(r)) == AfterRemoval(s, r, s.dir - {name})
  {
  }

  datatype Support = Works | Unsupported | Breaks

  /** A recursive removal goes through, or stops after some unlinks. */
  datatype Removing = Through | StopsAfter(unlinks: nat)

  /** What the environment lets fail during one swap. */
  datatype Faults = Faults(
    exchange: Support, reclaim: Removing, moveAside: bool, install: bool, drop: Removing, clean: Removing)

  /** The live name can be renamed aside once a leftover has been dealt with: there is none,
      it can be removed, or what is left of it may be renamed over. */
  predicate AsideFrees(d: Listing, u: string, reclaim: Removing)
    requires u in d
  {
    var aside := AsideOf(u);
    || aside !in d
    || (d[aside].File? && d[u].File?)
    || (d[aside].Dir? && (reclaim.Through? || (d[u].Dir? && reclaim.unlinks >= |d[aside].files|)))
  }

  /** When a swap with a live directory succeeds, judged before it begins. */
  predicate SwapGoesThrough(d: Listing, u: string, f: Faults)
    requires u in d
  {
    match f.exchange
    case Works => true
    case Breaks => false
    case Unsupported => AsideFrees(d, u, f.reclaim) && !f.moveAside && !f.install
  }

  /** Nothing but these names changed. */
  ghost predicate Untouched(d: Listing, d': Listing, names: set<string>) {
    forall n :: n !in names ==> (n in d <==> n in d') && (n in d ==> d[n] == d'[n])
  }

  lemma StepFallback(s: State, u: string)
    requires InPhase(s, u, Ready) && u in s.dir
    ensures StepsTo(s, Fallback(u), SetPhase(s, u, Reclaiming))
  {}

  lemma StepSwapError(s: State, u: string)
    requires InPhase(s, u, Ready) || InPhase(s, u, Reclaiming)
    ensures StepsTo(s, SwapError(u), EndTask(s, u))
  {}

  lemma StepMoveAside(s: State, u: string)
    requires InPhase(s, u, Reclaiming) && CanRename(s.dir, u, AsideOf(u))
    ensures StepsTo(s, MoveAside(u), SetPhase(s.(dir := Rename(s.dir, u, AsideOf(u))), u, Vacated))
  {}

  lemma StepRollback(s: State, u: string)
    requires InPhase(s, u, Vacated) && CanRename(s.dir, AsideOf(u), u)
    ensures StepsTo(s, Rollback(u), EndTask(s.(dir := Rename(s.dir, AsideOf(u), u)), u))
  {}

  lemma StepInstall(s: State, u: string)
    requires InPhase(s, u, Vacated) && CanRename(s.dir, s.tasks[u].staging, u)
    ensures StepsTo(s, Install(u),
                    SetPhase(s.(dir := Rename(s.dir, s.tasks[u].staging, u), committed := Commit(s, u)), u, Installed))
  {}

  lemma StepDropped(s: State, u: string)
    requires InPhase(s, u, Installed)
    ensures StepsTo(s, Dropped(u), SetPhase(s, u, Cleaning))
  {}

  lemma StepFinish(s: State, u: string)
    requires InPhase(s, u, Cleaning)
    ensures StepsTo(s, Finish(u), EndTask(s, u))
  {}

  lemma StepExchange(s: State, u: string)
    requires InPhase(s, u, Ready) && u in s.dir && s.tasks[u].staging in s.dir
    ensures StepsTo(s, Exchange(u),
                    SetPhase(s.(dir := Swap(s.dir, u, s.tasks[u].staging), committed := Commit(s, u)), u, Cleaning))
  {}

  lemma StepMoveIn(s: State, u: string)
    requires InPhase(s, u, Ready) && u !in s.dir && s.tasks[u].staging in s.dir
    ensures StepsTo(s, MoveIn(u),
                    EndTask(s.(dir := Rename(s.dir, s.tasks[u].staging, u), committed := Commit(s, u)), u))
  {}

  lemma StepRestoreOne(s: State, n: string)
    requires s.mode.Restoring? && n in s.mode.todo && IsAside(n)
    ensures StepsTo(s, RestoreOne(n), s.(dir := RestoreAside(s.dir, n), mode := Restoring(s.mode.todo - {n})))
  {}

  lemma StepRestoreDone(s: State)
    requires s.mode == Restoring({})
    ensures StepsTo(s, RestoreDone, s.(mode := Sweeping(Stagings, Collect(s.dir, Stagings))))
  {}

  lemma StepSweepEntry(s: State, n: string)
    requires s.mode.Sweeping? && s.mode.sweep.Probes? && n in s.mode.todo && Sweepable(s.dir, Probes, n)
    ensures StepsTo(s, SweepEntry(n), s.(dir := s.dir - {n}, mode := Sweeping(Probes, s.mode.todo - {n})))
  {}

  lemma StepSweepSkip(s: State, n: string)
    requires s.mode.Sweeping? && n in s.mode.todo
    ensures StepsTo(s, SweepSkip(n), s.(mode := Sweeping(s.mode.sweep, s.mode.todo - {n})))
  {}

  /** No removal failed so far: `d` is the found listing with `done` swept. */
  ghost predicate Undisturbed(d: Listing, found: Listing, done: set<string>, reluctant: set<string>) {
    reluctant == {} && Plain(found) && d == Swept(found, done)
  }

  lemma SweepProgress(
    before: Listing, after: Listing, found: Listing, done: set<string>, sweep: Sweep, todo: set<string>, n: string,
    reluctant: set<string>, removed: bool)
    requires n in todo && todo <= Collect(found, sweep) && done !! Collect(found, sweep)
    requires Undisturbed(before, found, done + (Collect(found, sweep) - todo), reluctant)
    requires removed == Sweepable(before, sweep, n)
    requires after == if removed then before - {n} else before
    ensures Undisturbed(after, found, done + (Collect(found, sweep) - (todo - {n})), reluctant)
    ensures |Dropping(found, Collect(found, sweep) - (todo - {n}))|
            == |Dropping(found, Collect(found, sweep) - todo)| + (if removed then 1 else 0)
  {
    hide Droppable, Sweepable;
    var all := Collect(found, sweep);
    var sofar := done + (all - todo);
    SweepStep(found, sofar, sweep, n);
    assert done + (all - (todo - {n})) == sofar + {n};
    DroppingMore(found, all - todo, n);
    assert all - (todo - {n}) == all - todo + {n};
  }

  lemma SweepBegins(entries: Listing, found: Listing, done: set<string>, sweep: Sweep, reluctant: set<string>)
    requires Undisturbed(entries, found, done, reluctant) && done !! Collect(found, sweep)
    ensures reluctant == {} && Collect(entries, sweep) == Collect(found, sweep)
    ensures done + (Collect(found, sweep) - Collect(entries, sweep)) == done
    ensures Dropping(found, Collect(found, sweep) - Collect(entries, sweep)) == {}
  {
    CollectUndisturbed(found, done, sweep);
  }

  /** Asides whose server is missing: pass 1 gives these back or reports them. */
  function Missing(d: Listing, asides: set<string>): set<string> {
    set n | n in asides && IsAside(n) && TargetOf(n) !in d
  }

  /** What pass 2 removes of some names. */
  function Dropping(d: Listing, names: set<string>): set<string> {
    set n | n in names && Droppable(d, n)
  }

  lemma MissingMore(d: Listing, done: set<string>, n: string)
    requires Plain(d) && IsAside(n) && n !in done && n in d && d[n].Dir?
    ensures TargetOf(n) in Restored(d, done) <==> TargetOf(n) in d
    ensures |Missing(d, done + {n})| == |Missing(d, done)| + (if TargetOf(n) !in d then 1 else 0)
  {
    RestoredAt(d, done, TargetOf(n));
    AsideOfTarget(n);
    assert Missing(d, done + {n}) == Missing(d, done) + (if TargetOf(n) !in d then {n} else {});
  }

  /** One more aside dealt with, and counted if its server was missing. */
  lemma RestoreProgress(d: Listing, entries: Listing, todo: set<string>, n: string)
    requires Plain(d) && todo <= AsideDirs(d) && n in todo && entries == Restored(d, AsideDirs(d) - todo)
    ensures IsAside(n) && RestoreAside(entries, n) == Restored(d, AsideDirs(d) - (todo - {n}))
    ensures |Missing(d, AsideDirs(d) - (todo - {n}))|
            == |Missing(d, AsideDirs(d) - todo)| + (if TargetOf(n) !in entries then 1 else 0)
  {
    var done := AsideDirs(d) - todo;
    RestoreStep(d, done, n);
    MissingMore(d, done, n);
    assert AsideDirs(d) - (todo - {n}) == done + {n};
  }

  lemma NoneMissing(d: Listing)
    ensures Missing(d, {}) == {}
  {
  }

  lemma DroppingMore(d: Listing, names: set<string>, n: string)
    requires n !in names
    ensures |Dropping(d, names + {n})| == |Dropping(d, names)| + (if Droppable(d, n) then 1 else 0)
  {
    assert Dropping(d, names + {n}) == Dropping(d, names) + (if Droppable(d, n) then {n} else {});
  }

  lemma DroppingAll(d: Listing)
    ensures var a, b, c := Collect(d, Stagings), Collect(d, Asides), Collect(d, Probes);
            |Dropping(d, a)| + |Dropping(d, b)| + |Dropping(d, c)| == |Dropping(d, d.Keys)|
  {
    var a, b, c := Collect(d, Stagings), Collect(d, Asides), Collect(d, Probes);
    CollectsApart(d);
    forall n ensures n in Dropping(d, d.Keys) <==> n in Dropping(d, a) || n in Dropping(d, b) || n in Dropping(d, c) {
      DroppableCollected(d, n);
    }
    hide Collect, Droppable;
    assert Dropping(d, d.Keys) == Dropping(d, a) + Dropping(d, b) + Dropping(d, c);
    assert Dropping(d, a) !! Dropping(d, b) && (Dropping(d, a) + Dropping(d, b)) !! Dropping(d, c);
  }

  lemma DroppableCollected(d: Listing, n: string)
    ensures Droppable(d, n) ==> n in d && (n in Collect(d, Stagings) || n in Collect(d, Asides) || n in Collect(d, Probes))
    ensures n in Collect(d, Stagings) || n in Collect(d, Asides) || n in Collect(d, Probes) ==> n in d
  {
  }

  class Directory {
    var entries: Listing
    ghost var log: Log

    ghost predicate Valid()
      reads this
    {
      Genuine(log) && log.now.dir == entries
    }

    /** Boot on whatever the previous process left. */
    constructor (found: Listing, ghost committed: map<string, Content>)
      ensures Valid() && entries == found
      ensures log == Start(State(found, map[], Restoring(AsideDirs(found)), committed))
    {
      entries := found;
      log := Start(State(found, map[], Restoring(AsideDirs(found)), committed));
    }

    ghost method Record(l: Label, next: State)
      requires Genuine(log) && StepsTo(log.now, l, next) && next.dir == entries
      modifies `log
      ensures Valid() && log == Then(old(log), l, next)
      ensures Extends(log, old(log))
    {
      log := Then(log, l, next);
    }

    /** One unlink of a recursive removal. */
    method UnlinkOne(name: string, ghost r: Removal)
      requires Valid() && Removes(log.now, r, name)
      requires name in entries && entries[name].Dir? && entries[name].files != map[]
      modifies this
      ensures Valid() && Extends(log, old(log))
      ensures exists path :: path in old(entries)[name].files
                && entries == old(entries)[name := Dir(old(entries)[name].files - {path})]
      ensures log.now == old(log.now).(dir := entries) && Removes(log.now, r, name)
    {
      var path :| path in entries[name].files;
      UnlinkIs(log.now, r, name, path);
      entries := entries[name := Dir(entries[name].files - {path})];
      Record(UnlinkLabel(r, path), log.now.(dir := entries));
    }

    /** The unlinking part of a recursive removal; a failing one stops after so many. */
    method Empty(name: string, ghost r: Removal, how: Removing)
      requires Valid() && Removes(log.now, r, name) && name in entries && entries[name].Dir?
      modifies this
      ensures Valid() && Extends(log, old(log))
      ensures log.now == old(log.now).(dir := entries) && Removes(log.now, r, name)
      ensures name in entries && entries[name].Dir? && entries == old(entries)[name := entries[name]]
      ensures EmptyDir(entries, name) <==> how.Through? || how.unlinks >= |old(entries)[name].files|
    {
      hide Removes, Genuine, Extends;
      ghost var total := |entries[name].files|;
      assert Extends(log, log) by { ExtendsItself(log); }
      var done := 0;
      while entries[name].files != map[] && (how.Through? || done < how.unlinks)
        invariant Valid() && Extends(log, old(log))
        invariant Removes(log.now, r, name) && name in entries && entries[name].Dir?
        invariant log.now == old(log.now).(dir := entries)
        invariant entries == old(entries)[name := entries[name]]
        invariant done + |entries[name].files| == total && (how.StopsAfter? ==> done <= how.unlinks)
        decreases |entries[name].files|
      {
        ghost var before, files := log, entries[name].files;
        UnlinkOne(name, r);
        ExtendsTransitive(log, before, old(log));
        ghost var path :| path in files && entries[name].files == files - {path};
        assert (files - {path}).Keys == files.Keys - {path};
        done := done + 1;
      }
    }

    method RemoveEmpty(name: string, ghost r: Removal)
      requires Valid() && Removes(log.now, r, name) && EmptyDir(entries, name)
      modifies this
      ensures Valid() && Extends(log, old(log))
      ensures entries == old(entries) - {name} && log.now == AfterRemoval(old(log.now), r, entries)
    {
      RmdirIs(log.now, r, name);
      entries := entries - {name};
      Record(RmdirLabel(r), AfterRemoval(log.now, r, entries));
    }

    /** `remove_dir_all`: unlinks file by file; when it fails it stops part-way. */
    method RemoveDirAll(name: string, ghost r: Removal, how: Removing) returns (ok: bool)
      requires Valid() && Removes(log.now, r, name)
      modifies this
      ensures Valid() && Extends(log, old(log))
      ensures ok == (how.Through? && name in old(entries) && old(entries)[name].Dir?)
      ensures ok ==> entries == old(entries) - {name} && log.now == AfterRemoval(old(log.now), r, entries)
      ensures !ok ==> log.now == old(log.now).(dir := entries) && Removes(log.now, r, name)
      ensures !ok ==>
                || entries == old(entries)
                || (name in entries && entries[name].Dir? && entries == old(entries)[name := entries[name]])
      ensures !ok && name in old(entries) && old(entries)[name].Dir? ==>
                (EmptyDir(entries, name) <==> how.unlinks >= |old(entries)[name].files|)
      ensures name !in old(entries) || old(entries)[name].File? ==> entries == old(entries)
    {
      if name !in entries || !entries[name].Dir? {
        return false;
      }
      Empty(name, r, how);
      if how.StopsAfter? {
        return false;
      }
      ghost var before := log;
      RemoveEmpty(name, r);
      ExtendsTransitive(log, before, old(log));
      return true;
    }

    /** First half of the fallback: reclaim a leftover aside, rename the live directory to it. */
    method VacateLive(u: string, staging: string, f: Faults) returns (ok: bool)
      requires Valid() && InPhase(log.now, u, Ready) && ValidUuid(u) && u in entries
      requires staging == log.now.tasks[u].staging && IsStaging(staging) && staging in entries
      modifies this
      ensures Valid() && Extends(log, old(log))
      ensures ok ==> InPhase(log.now, u, Vacated) && log.now.tasks[u].staging == staging
      ensures ok ==> u !in entries && AsideOf(u) in entries && entries[AsideOf(u)] == old(entries)[u]
      ensures ok ==> staging in entries && entries[staging] == old(entries)[staging]
      ensures !ok ==> u !in log.now.tasks && u in entries && entries[u] == old(entries)[u]
      ensures ok <==> AsideFrees(old(entries), u, f.reclaim) && !f.moveAside
      ensures Untouched(old(entries), entries, {u, AsideOf(u)})
    {
      var aside := AsideOf(u);
      KindsApart(u);
      KindsApart(aside);
      StepFallback(log.now, u);
      Record(Fallback(u), SetPhase(log.now, u, Reclaiming));
      ghost var mark := log;
      if aside in entries {
        var _ := RemoveDirAll(aside, OfLeftover(u), f.reclaim);
        ExtendsTransitive(log, mark, old(log));
      }
      mark := log;
      if f.moveAside || !CanRename(entries, u, aside) {
        StepSwapError(log.now, u);
        Record(SwapError(u), EndTask(log.now, u));
        ExtendsTransitive(log, mark, old(log));
        return false;
      }
      StepMoveAside(log.now, u);
      entries := Rename(entries, u, aside);
      Record(MoveAside(u), SetPhase(log.now.(dir := entries), u, Vacated));
      ExtendsTransitive(log, mark, old(log));
      return true;
    }

    /** Second half: rename staging into place, or put the live directory back. */
    method InstallStaged(u: string, staging: string, f: Faults) returns (ok: bool)
      requires Valid() && InPhase(log.now, u, Vacated) && ValidUuid(u) && u !in entries && AsideOf(u) in entries
      requires staging == log.now.tasks[u].staging && IsStaging(staging) && staging in entries
      modifies this
      ensures Valid() && Extends(log, old(log))
      ensures ok ==> InPhase(log.now, u, Installed) && log.now.tasks[u].staging == staging
      ensures ok ==> u in entries && entries[u] == old(entries)[staging] && staging !in entries
      ensures !ok ==> u !in log.now.tasks && u in entries && entries[u] == old(entries)[AsideOf(u)]
      ensures ok ==> AsideOf(u) in entries && entries[AsideOf(u)] == old(entries)[AsideOf(u)]
      ensures ok <==> !f.install
      ensures Untouched(old(entries), entries, {u, staging, AsideOf(u)})
    {
      KindsApart(u);
      KindsApart(AsideOf(u));
      if f.install {
        StepRollback(log.now, u);
        entries := Rename(entries, AsideOf(u), u);
        Record(Rollback(u), EndTask(log.now.(dir := entries), u));
        return false;
      }
      StepInstall(log.now, u);
      entries := Rename(entries, staging, u);
      Record(Install(u), SetPhase(log.now.(dir := entries, committed := Commit(log.now, u)), u, Installed));
      return true;
    }

    /** `exchange_dirs_fallback`: rename aside, rename in, roll back when that fails. */
    method ExchangeDirsFallback(u: string, staging: string, f: Faults) returns (ok: bool)
      requires Valid() && InPhase(log.now, u, Ready) && ValidUuid(u) && u in entries
      requires staging == log.now.tasks[u].staging && IsStaging(staging) && staging in entries
      modifies this
      ensures Valid() && Extends(log, old(log))
      ensures ok ==> InPhase(log.now, u, Cleaning) && log.now.tasks[u].staging == staging
      ensures ok ==> u in entries && entries[u] == old(entries)[staging] && staging !in entries
      ensures !ok ==> u !in log.now.tasks && u in entries && entries[u] == old(entries)[u]
      ensures ok <==> AsideFrees(old(entries), u, f.reclaim) && !f.moveAside && !f.install
      ensures ok && f.drop.Through? && old(entries)[u].Dir? ==> AsideOf(u) !in entries
      ensures Untouched(old(entries), entries, {u, staging, AsideOf(u)})
    {
      var aside := AsideOf(u);
      KindsApart(u);
      KindsApart(aside);
      ok := VacateLive(u, staging, f);
      if !ok { return; }
      ghost var mark := log;
      ok := InstallStaged(u, staging, f);
      ExtendsTransitive(log, mark, old(log));
      if !ok { return; }
      mark := log;
      var _ := RemoveDirAll(aside, OfAside(u), f.drop);
      ExtendsTransitive(log, mark, old(log));
      mark := log;
      StepDropped(log.now, u);
      Record(Dropped(u), SetPhase(log.now, u, Cleaning));
      ExtendsTransitive(log, mark, old(log));
    }

    /** `exchange_dirs`: the atomic exchange where the file system has it. */
    method ExchangeDirs(u: string, staging: string, f: Faults) returns (ok: bool)
      requires Valid() && InPhase(log.now, u, Ready) && ValidUuid(u) && u in entries
      requires staging == log.now.tasks[u].staging && IsStaging(staging) && staging in entries && entries[staging].Dir?
      modifies this
      ensures Valid() && Extends(log, old(log))
      ensures ok ==> InPhase(log.now, u, Cleaning) && log.now.tasks[u].staging == staging
      ensures ok ==> u in entries && entries[u] == old(entries)[staging]
      ensures !ok ==> u !in log.now.tasks && u in entries && entries[u] == old(entries)[u]
      ensures ok <==> SwapGoesThrough(old(entries), u, f)
      ensures ok && f.exchange.Works? ==> entries == Swap(old(entries), u, staging)
      ensures ok && f.exchange.Unsupported? ==> staging !in entries
      ensures ok && f.exchange.Unsupported? && f.drop.Through? && old(entries)[u].Dir? ==> AsideOf(u) !in entries
      ensures f.exchange.Breaks? ==> entries == old(entries)
      ensures Untouched(old(entries), entries, {u, staging, AsideOf(u)})
    {
      KindsApart(u);
      match f.exchange {
        case Works =>
          StepExchange(log.now, u);
          entries := Swap(entries, u, staging);
          Record(Exchange(u), SetPhase(log.now.(dir := entries, committed := Commit(log.now, u)), u, Cleaning));
          return true;
        case Breaks =>
          StepSwapError(log.now, u);
          Record(SwapError(u), EndTask(log.now, u));
          return false;
        case Unsupported =>
          ok := ExchangeDirsFallback(u, staging, f);
      }
    }

    /** The last part of a restore: swap the verified staging directory in and drop what
        it replaced. Either the live name holds the archive, or it is as it was. */
    method SwapIn(u: string, nonce: string, f: Faults) returns (ok: bool)
      requires Valid() && InPhase(log.now, u, Ready) && TaskOk(entries, u, log.now.tasks[u])
      requires log.now.tasks[u].staging == StagingOf(u, nonce)
      modifies this
      ensures Valid() && Extends(log, old(log)) && u !in log.now.tasks
      ensures ok ==> u in entries && entries[u] == Dir(old(log.now).tasks[u].archive)
      ensures !ok ==> (u in entries <==> u in old(entries)) && (u in entries ==> entries[u] == old(entries)[u])
      ensures ok <==> if u in old(entries) then SwapGoesThrough(old(entries), u, f) else !f.install
      ensures ok && u in old(entries) && old(entries)[u].Dir? && f.clean.Through? ==> StagingOf(u, nonce) !in entries
      ensures ok && u !in old(entries) ==> StagingOf(u, nonce) !in entries
      ensures Untouched(old(entries), entries, {u, StagingOf(u, nonce), AsideOf(u)})
    {
      var staging := StagingOf(u, nonce);
      KindsApart(u);
      KindsApart(staging);
      if u in entries {
        ok := ExchangeDirs(u, staging, f);
        if !ok { return; }
        ghost var mark := log;
        var removed := RemoveDirAll(staging, OfStaging(u), f.clean);
        ExtendsTransitive(log, mark, old(log));
        if !removed {
          mark := log;
          StepFinish(log.now, u);
          Record(Finish(u), EndTask(log.now, u));
          ExtendsTransitive(log, mark, old(log));
        }
      } else if f.install {
        StepSwapError(log.now, u);
        Record(SwapError(u), EndTask(log.now, u));
        return false;
      } else {
        StepMoveIn(log.now, u);
        entries := Rename(entries, staging, u);
        Record(MoveIn(u), EndTask(log.now.(dir := entries, committed := Commit(log.now, u)), u));
        return true;
      }
    }

    /** Pass 1 on one aside; unmappable ones count as an action but stay. */
    method RestoreEntry(n: string, todo: set<string>) returns (acted: bool)
      requires Valid() && log.now.mode == Restoring(todo) && log.now.tasks == map[] && n in todo && IsAside(n)
      modifies this
      ensures Valid() && Extends(log, old(log))
      ensures log.now.mode == Restoring(todo - {n}) && log.now.tasks == map[]
      ensures entries == RestoreAside(old(entries), n)
      ensures acted <==> TargetOf(n) !in old(entries)
      ensures !acted ==> entries == old(entries)
    {
      var target := TargetOf(n);
      acted := target !in entries;
      StepRestoreOne(log.now, n);
      if acted && Hyphenated(target) && n in entries {
        entries := Rename(entries, n, target);
      }
      Record(RestoreOne(n), log.now.(dir := entries, mode := Restoring(todo - {n})));
    }

    /** Recovery pass 1: give back every aside whose live name is missing. */
    method RestorePass() returns (actions: nat)
      requires Valid() && log.now.mode == Restoring(AsideDirs(entries)) && log.now.tasks == map[]
      modifies this
      ensures Valid() && Extends(log, old(log))
      ensures log.now.mode == Sweeping(Stagings, Collect(entries, Stagings)) && log.now.tasks == map[]
      ensures Plain(old(entries)) ==> entries == Restored(old(entries), old(entries).Keys)
      ensures Plain(old(entries)) ==> actions == |Missing(old(entries), AsideDirs(old(entries)))|
      ensures actions == 0 ==> entries == old(entries)
    {
      ghost var found := entries;
      var todo := AsideDirs(entries);
      ghost var asides := todo;
      actions := 0;
      RestoredNone(found);
      hide Genuine, Restored, Missing, Plain, RestoreAside, Extends;
      assert Extends(log, log) by { ExtendsItself(log); }
      assert Missing(found, {}) == {} by { NoneMissing(found); }
      assert asides - todo == {};
      while todo != {}
        invariant Valid() && Extends(log, old(log))
        invariant log.now.mode == Restoring(todo) && log.now.tasks == map[] && todo <= asides
        invariant Plain(found) ==> entries == Restored(found, asides - todo) && actions == |Missing(found, asides - todo)|
        invariant actions == 0 ==> entries == found
        decreases todo
      {
        var n :| n in todo;
        ghost var mark := log;
        if Plain(found) { RestoreProgress(found, entries, todo, n); }
        var acted := RestoreEntry(n, todo);
        ExtendsTransitive(log, mark, old(log));
        if acted { actions := actions + 1; }
        todo := todo - {n};
      }
      assert asides - todo == asides;
      RestoredAll(found);
      ghost var mark := log;
      StepRestoreDone(log.now);
      Record(RestoreDone, log.now.(mode := Sweeping(Stagings, Collect(entries, Stagings))));
      ExtendsTransitive(log, mark, old(log));
    }

    /** Remove one collected entry if it may be dropped. */
    method SweepOne(sweep: Sweep, todo: set<string>, n: string, reluctant: set<string>) returns (removed: bool)
      requires Valid() && log.now.mode == Sweeping(sweep, todo) && n in todo && log.now.tasks == map[]
      modifies this
      ensures Valid() && Extends(log, old(log))
      ensures log.now.mode == Sweeping(sweep, todo - {n}) && log.now.tasks == map[]
      ensures removed ==> entries == old(entries) - {n}
      ensures reluctant == {} ==> removed == Sweepable(old(entries), sweep, n)
      ensures reluctant == {} && !removed ==> entries == old(entries)
    {
      removed := false;
      if Sweepable(entries, sweep, n) {
        if sweep.Probes? {
          removed := n !in reluctant;
          if removed {
            StepSweepEntry(log.now, n);
            entries := entries - {n};
            Record(SweepEntry(n), log.now.(dir := entries, mode := Sweeping(sweep, todo - {n})));
          }
        } else {
          var stop: nat := *;
          removed := RemoveDirAll(n, OfSweep(n), if n in reluctant then StopsAfter(stop) else Through);
        }
      }
      if !removed {
        ghost var mark := log;
        StepSweepSkip(log.now, n);
        Record(SweepSkip(n), log.now.(mode := Sweeping(sweep, todo - {n})));
        ExtendsTransitive(log, mark, old(log));
      }
    }

    /** One loop of pass 2. `found` and `done` say what pass 2 started from and has been
        through, for the result of an undisturbed recovery. */
    method SweepPass(sweep: Sweep, reluctant: set<string>, ghost found: Listing, ghost done: set<string>)
      returns (actions: nat)
      requires Valid() && log.now.mode == Sweeping(sweep, Collect(entries, sweep)) && log.now.tasks == map[]
      requires done !! Collect(found, sweep)
      modifies this
      ensures Valid() && Extends(log, old(log))
      ensures log.now.mode == Sweeping(sweep, {}) && log.now.tasks == map[]
      ensures Undisturbed(old(entries), found, done, reluctant) ==>
                Undisturbed(entries, found, done + Collect(found, sweep), reluctant)
      ensures Undisturbed(old(entries), found, done, reluctant) ==> actions == |Dropping(found, Collect(found, sweep))|
      ensures reluctant == {} && actions == 0 ==> entries == old(entries)
    {
      var todo := Collect(entries, sweep);
      ghost var first, all := entries, Collect(found, sweep);
      ghost var fine := Undisturbed(entries, found, done, reluctant);
      if fine { SweepBegins(entries, found, done, sweep, reluctant); }
      hide Undisturbed, Dropping, Collect, Sweepable, Genuine;
      actions := 0;
      while todo != {}
        invariant Valid() && Extends(log, old(log))
        invariant log.now.mode == Sweeping(sweep, todo) && log.now.tasks == map[]
        invariant fine ==> reluctant == {} && todo <= all && Undisturbed(entries, found, done + (all - todo), reluctant)
        invariant fine ==> actions == |Dropping(found, all - todo)|
        invariant reluctant == {} && actions == 0 ==> entries == first
        decreases todo
      {
        var n :| n in todo;
        ghost var mark, before := log, entries;
        var removed := SweepOne(sweep, todo, n, reluctant);
        ExtendsTransitive(log, mark, old(log));
        if fine {
          SweepProgress(before, entries, found, done, sweep, todo, n, reluctant, removed);
        }
        if removed { actions := actions + 1; }
        todo := todo - {n};
      }
      if fine { assert done + (all - todo) == done + all && all - todo == all; }
    }

    ghost method NextSweep(next: Mode)
      requires Valid() && log.now.mode.Sweeping? && log.now.mode.todo == {}
      requires next == Apply(log.now, SweepDone).mode
      modifies `log
      ensures Valid() && Extends(log, old(log)) && log.now == old(log.now).(mode := next)
    {
      Record(SweepDone, log.now.(mode := next));
    }

    /** Recovery pass 2: stagings, superseded asides, probe files. */
    method ReclaimPass(reluctant: set<string>) returns (actions: nat)
      requires Valid() && log.now.mode == Sweeping(Stagings, Collect(entries, Stagings)) && log.now.tasks == map[]
      modifies this
      ensures Valid() && Extends(log, old(log)) && log.now.mode.Serving? && log.now.tasks == map[]
      ensures reluctant == {} && Plain(old(entries)) ==> entries == Swept(old(entries), old(entries).Keys)
      ensures reluctant == {} && Plain(old(entries)) ==> actions == |Dropping(old(entries), old(entries).Keys)|
      ensures reluctant == {} && actions == 0 ==> entries == old(entries)
    {
      ghost var found := entries;
      ghost var stagings, asides, probes := Collect(found, Stagings), Collect(found, Asides), Collect(found, Probes);
      SweptNone(found);
      CollectsApart(found);
      actions := SweepPass(Stagings, reluctant, found, {});
      assert {} + stagings == stagings;
      ghost var mark := log;
      NextSweep(Sweeping(Asides, Collect(entries, Asides)));
      ExtendsTransitive(log, mark, old(log));
      mark := log;
      var more := SweepPass(Asides, reluctant, found, stagings);
      ExtendsTransitive(log, mark, old(log));
      actions := actions + more;
      mark := log;
      NextSweep(Sweeping(Probes, Collect(entries, Probes)));
      ExtendsTransitive(log, mark, old(log));
      mark := log;
      more := SweepPass(Probes, reluctant, found, stagings + asides);
      ExtendsTransitive(log, mark, old(log));
      actions := actions + more;
      mark := log;
      NextSweep(Serving);
      ExtendsTransitive(log, mark, old(log));
      SweptAll(found);
      DroppingAll(found);
    }

    /** `recover_stale_dirs`. Whatever fails to be removed, the run recorded is one of
        the machine and ends serving; when nothing fails, the directory is the recovered
        one, and the count is that of the asides without a server and the entries dropped. */
    method RecoverStaleDirs(reluctant: set<string>) returns (actions: nat)
      requires Valid() && log.now.mode == Restoring(AsideDirs(entries)) && log.now.tasks == map[]
      modifies this
      ensures Valid() && Extends(log, old(log)) && log.now.mode.Serving? && log.now.tasks == map[]
      ensures Inv(old(log.now)) ==> Settled(entries, log.now.committed)
      ensures reluctant == {} && Plain(old(entries)) ==> entries == Recovered(old(entries))
      ensures reluctant == {} && Plain(old(entries)) ==>
                var restored := Restored(old(entries), old(entries).Keys);
                actions == |Missing(old(entries), AsideDirs(old(entries)))| + |Dropping(restored, restored.Keys)|
      ensures reluctant == {} && actions == 0 ==> entries == old(entries)
    {
      if Plain(entries) { RestoredPlain(entries, entries.Keys); }
      actions := RestorePass();
      ghost var mark := log;
      var reclaimed := ReclaimPass(reluctant);
      ExtendsTransitive(log, mark, old(log));
      actions := actions + reclaimed;
      if Inv(old(log.now)) { SafeWherever(log, old(log)); }
    }
  }
}
