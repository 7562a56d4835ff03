/** The agent's restore protocol and its boot recovery as one step system.

    A state holds the servers directory, the restores in flight (one per server:
    `snapshot_lock`), the boot phase and, for the specification, the content each
    server is committed to. Every label is one file-system action or one decision of
    the code; `Crash` may come between any two of them, also inside recovery. */
module SwapMachine {
  import opened DirNames

  /** The files of one directory tree: path to bytes. */
  type Content = map<string, string>

  datatype Entry = Dir(files: Content) | File

  type Listing = map<string, Entry>

  // ---------------- File-system primitives ----------------

  /** rename(2): the destination must be absent, an empty directory under a
      directory, or a file under a file. */
  predicate CanRename(d: Listing, from: string, to: string) {
    && from in d
    && (to !in d
        || (d[from].Dir? && d[to] == Dir(map[]))
        || (d[from].File? && d[to].File?))
  }

  function Rename(d: Listing, from: string, to: string): Listing
    requires from in d
  {
    (d - {from})[to := d[from]]
  }

  /** renameat2 with RENAME_EXCHANGE. */
  function Swap(d: Listing, a: string, b: string): Listing
    requires a in d && b in d
  {
    d[a := d[b]][b := d[a]]
  }

  predicate HasFile(d: Listing, name: string, path: string) {
    name in d && d[name].Dir? && path in d[name].files
  }

  /** One unlink of a recursive removal, which is not atomic as a whole. */
  function Unlink(d: Listing, name: string, path: string): Listing
    requires HasFile(d, name, path)
  {
    d[name := Dir(d[name].files - {path})]
  }

  predicate EmptyDir(d: Listing, name: string) {
    name in d && d[name] == Dir(map[])
  }

  // ---------------- States ----------------

  datatype Phase =
    | Extracting   // unpacking the archive into staging
    | Ready        // unpacked, verified, owned: about to swap
    | Reclaiming   // fallback: removing a leftover aside
    | Vacated      // fallback: live directory renamed aside
    | Installed    // fallback: staging renamed into place, aside being removed
    | Cleaning     // removing whatever sits at the staging name

  datatype Task = Task(staging: string, archive: Content, phase: Phase)

  datatype Sweep = Stagings | Asides | Probes

  datatype Mode =
    | Serving
    | Restoring(todo: set<string>)               // recovery pass 1
    | Sweeping(sweep: Sweep, todo: set<string>)  // recovery pass 2

  datatype State = State(
    dir: Listing,
    tasks: map<string, Task>,
    mode: Mode,
    committed: map<string, Content>)

  datatype Label =
    | Begin(u: string, nonce: string, archive: Content)
    | Write(u: string, path: string, data: string)
    | Verified(u: string)
    | Abort(u: string)
    | PurgeFile(u: string, path: string)
    | PurgeDir(u: string)
    | Finish(u: string)
    | Exchange(u: string)
    | SwapError(u: string)
    | MoveIn(u: string)
    | Fallback(u: string)
    | ReclaimFile(u: string, path: string)
    | ReclaimDir(u: string)
    | MoveAside(u: string)
    | Install(u: string)
    | Rollback(u: string)
    | DropFile(u: string, path: string)
    | DropDir(u: string)
    | Dropped(u: string)
    | ProbeWrite(name: string)
    | ProbeRemove(name: string)
    | Crash
    | RestoreOne(name: string)
    | RestoreDone
    | SweepFile(name: string, path: string)
    | SweepEntry(name: string)
    | SweepSkip(name: string)
    | SweepDone

  /** Directories named `.previous-*`, as the first pass collects them. */
  function AsideDirs(d: Listing): set<string> {
    set n | n in d && IsAside(n) && d[n].Dir?
  }

  function Collect(d: Listing, sweep: Sweep): set<string> {
    match sweep
    case Stagings => set n | n in d && IsStaging(n) && d[n].Dir?
    case Asides => AsideDirs(d)
    case Probes => set n | n in d && IsProbe(n) && d[n].File?
  }

  /** What the second pass holds provably safe to drop. */
  predicate Sweepable(d: Listing, sweep: Sweep, n: string) {
    n in d && match sweep
              case Stagings => IsStaging(n) && d[n].Dir?
              case Asides => IsAside(n) && d[n].Dir? && TargetOf(n) in d
              case Probes => IsProbe(n) && d[n].File?
  }

  predicate InPhase(s: State, u: string, phase: Phase) {
    s.mode.Serving? && u in s.tasks && s.tasks[u].phase == phase
  }

  predicate Enabled(s: State, l: Label) {
    match l
    case Begin(u, nonce, _) =>
      s.mode.Serving? && ValidUuid(u) && u !in s.tasks && SimpleUuid(nonce) && StagingOf(u, nonce) !in s.dir
    case Write(u, _, _) =>
      InPhase(s, u, Extracting) && s.tasks[u].staging in s.dir && s.dir[s.tasks[u].staging].Dir?
    case Verified(u) =>
      InPhase(s, u, Extracting) && s.tasks[u].staging in s.dir && s.dir[s.tasks[u].staging] == Dir(s.tasks[u].archive)
    case Abort(u) => InPhase(s, u, Extracting)
    case PurgeFile(u, path) => InPhase(s, u, Cleaning) && HasFile(s.dir, s.tasks[u].staging, path)
    case PurgeDir(u) => InPhase(s, u, Cleaning) && EmptyDir(s.dir, s.tasks[u].staging)
    case Finish(u) => InPhase(s, u, Cleaning)
    case Exchange(u) => InPhase(s, u, Ready) && u in s.dir && s.tasks[u].staging in s.dir
    case SwapError(u) => InPhase(s, u, Ready) || InPhase(s, u, Reclaiming)
    case MoveIn(u) => InPhase(s, u, Ready) && u !in s.dir && s.tasks[u].staging in s.dir
    case Fallback(u) => InPhase(s, u, Ready) && u in s.dir
    case ReclaimFile(u, path) => InPhase(s, u, Reclaiming) && HasFile(s.dir, AsideOf(u), path)
    case ReclaimDir(u) => InPhase(s, u, Reclaiming) && EmptyDir(s.dir, AsideOf(u))
    case MoveAside(u) => InPhase(s, u, Reclaiming) && CanRename(s.dir, u, AsideOf(u))
    case Install(u) => InPhase(s, u, Vacated) && CanRename(s.dir, s.tasks[u].staging, u)
    case Rollback(u) => InPhase(s, u, Vacated) && CanRename(s.dir, AsideOf(u), u)
    case DropFile(u, path) => InPhase(s, u, Installed) && HasFile(s.dir, AsideOf(u), path)
    case DropDir(u) => InPhase(s, u, Installed) && EmptyDir(s.dir, AsideOf(u))
    case Dropped(u) => InPhase(s, u, Installed)
    case ProbeWrite(n) => s.mode.Serving? && IsProbe(n) && (n in s.dir ==> s.dir[n].File?)
    case ProbeRemove(n) => s.mode.Serving? && IsProbe(n) && n in s.dir && s.dir[n].File?
    case Crash => true
    case RestoreOne(n) => s.mode.Restoring? && n in s.mode.todo && IsAside(n)
    case RestoreDone => s.mode.Restoring? && s.mode.todo == {}
    case SweepFile(n, path) =>
      s.mode.Sweeping? && n in s.mode.todo && Sweepable(s.dir, s.mode.sweep, n) && HasFile(s.dir, n, path)
    case SweepEntry(n) =>
      && s.mode.Sweeping? && n in s.mode.todo && Sweepable(s.dir, s.mode.sweep, n)
      && (s.dir[n].File? || EmptyDir(s.dir, n))
    case SweepSkip(n) => s.mode.Sweeping? && n in s.mode.todo
    case SweepDone => s.mode.Sweeping? && s.mode.todo == {}
  }

  function SetPhase(s: State, u: string, phase: Phase): State
    requires u in s.tasks
  {
    s.(tasks := s.tasks[u := s.tasks[u].(phase := phase)])
  }

  function EndTask(s: State, u: string): State {
    s.(tasks := s.tasks - {u})
  }

  /** Only hyphenated names can be told apart from old-style asides at boot, so only
      they are promised anything across a crash. */
  function Commit(s: State, u: string): map<string, Content>
    requires u in s.tasks
  {
    if Hyphenated(u) then s.committed[u := s.tasks[u].archive] else s.committed
  }

  /** Pass 1 on one aside: skip it when the live name exists or is unmappable. */
  function RestoreAside(d: Listing, n: string): Listing
    requires IsAside(n)
  {
    var target := TargetOf(n);
    if target in d || !Hyphenated(target) || n !in d then d else Rename(d, n, target)
  }

  function Apply(s: State, l: Label): State
    requires Enabled(s, l)
  {
    match l
    case Begin(u, nonce, archive) =>
      s.(dir := s.dir[StagingOf(u, nonce) := Dir(map[])],
         tasks := s.tasks[u := Task(StagingOf(u, nonce), archive, Extracting)])
    case Write(u, path, data) =>
      var at := s.tasks[u].staging;
      s.(dir := s.dir[at := Dir(s.dir[at].files[path := data])])
    case Verified(u) => SetPhase(s, u, Ready)
    case Abort(u) => SetPhase(s, u, Cleaning)
    case PurgeFile(u, path) => s.(dir := Unlink(s.dir, s.tasks[u].staging, path))
    case PurgeDir(u) => EndTask(s.(dir := s.dir - {s.tasks[u].staging}), u)
    case Finish(u) => EndTask(s, u)
    case Exchange(u) =>
      SetPhase(s.(dir := Swap(s.dir, u, s.tasks[u].staging), committed := Commit(s, u)), u, Cleaning)
    case SwapError(u) => EndTask(s, u)
    case MoveIn(u) => EndTask(s.(dir := Rename(s.dir, s.tasks[u].staging, u), committed := Commit(s, u)), u)
    case Fallback(u) => SetPhase(s, u, Reclaiming)
    case ReclaimFile(u, path) => s.(dir := Unlink(s.dir, AsideOf(u), path))
    case ReclaimDir(u) => s.(dir := s.dir - {AsideOf(u)})
    case MoveAside(u) => SetPhase(s.(dir := Rename(s.dir, u, AsideOf(u))), u, Vacated)
    case Install(u) =>
      SetPhase(s.(dir := Rename(s.dir, s.tasks[u].staging, u), committed := Commit(s, u)), u, Installed)
    case Rollback(u) => EndTask(s.(dir := Rename(s.dir, AsideOf(u), u)), u)
    case DropFile(u, path) => s.(dir := Unlink(s.dir, AsideOf(u), path))
    case DropDir(u) => s.(dir := s.dir - {AsideOf(u)})
    case Dropped(u) => SetPhase(s, u, Cleaning)
    case ProbeWrite(n) => s.(dir := s.dir[n := File])
    case ProbeRemove(n) => s.(dir := s.dir - {n})
    case Crash => s.(tasks := map[], mode := Restoring(AsideDirs(s.dir)))
    case RestoreOne(n) => s.(dir := RestoreAside(s.dir, n), mode := Restoring(s.mode.todo - {n}))
    case RestoreDone => s.(mode := Sweeping(Stagings, Collect(s.dir, Stagings)))
    case SweepFile(n, path) => s.(dir := Unlink(s.dir, n, path))
    case SweepEntry(n) => s.(dir := s.dir - {n}, mode := s.mode.(todo := s.mode.todo - {n}))
    case SweepSkip(n) => s.(mode := s.mode.(todo := s.mode.todo - {n}))
    case SweepDone =>
      s.(mode := match s.mode.sweep
                 case Stagings => Sweeping(Asides, Collect(s.dir, Asides))
                 case Asides => Sweeping(Probes, Collect(s.dir, Probes))
                 case Probes => Serving)
  }

  // ---------------- Runs ----------------

  /** Step `i` of a run. */
  ghost predicate StepAt(states: seq<State>, labels: seq<Label>, i: nat)
    requires |states| == |labels| + 1 && i < |labels|
  {
    Enabled(states[i], labels[i]) && states[i + 1] == Apply(states[i], labels[i])
  }

  /** A run: states joined by enabled labels. */
  ghost predicate IsRun(states: seq<State>, labels: seq<Label>) {
    && |states| == |labels| + 1
    && forall i :: 0 <= i < |labels| ==> StepAt(states, labels, i)
  }

  /** Serving, nothing in flight, every committed server in place. Anything else may
      lie in the directory. */
  ghost predicate Init(s: State) {
    && s.mode.Serving? && s.tasks == map[]
    && Settled(s.dir, s.committed)
  }

  ghost predicate Nameable(committed: map<string, Content>) {
    forall u :: u in committed ==> ValidUuid(u) && Hyphenated(u)
  }

  ghost predicate InPlace(d: Listing, committed: map<string, Content>, u: string)
    requires u in committed
  {
    u in d && d[u] == Dir(committed[u])
  }

  /** The live name is free and the aside holds the only copy. */
  ghost predicate SetAside(d: Listing, committed: map<string, Content>, u: string)
    requires u in committed
  {
    u !in d && AsideOf(u) in d && d[AsideOf(u)] == Dir(committed[u])
  }

  ghost predicate Settled(d: Listing, committed: map<string, Content>) {
    && Nameable(committed)
    && forall u :: u in committed ==> InPlace(d, committed, u)
  }

  // ---------------- The invariant ----------------

  ghost predicate TaskOk(d: Listing, u: string, t: Task) {
    && ValidUuid(u)
    && (exists nonce :: SimpleUuid(nonce) && t.staging == StagingOf(u, nonce))
    && (t.phase in {Ready, Reclaiming, Vacated} ==> t.staging in d && d[t.staging] == Dir(t.archive))
    && (t.phase == Vacated ==> u !in d && AsideOf(u) in d)
  }

  ghost predicate Inv(s: State) {
    && Nameable(s.committed)
    && match s.mode
       case Serving =>
         && (forall u :: u in s.tasks ==> TaskOk(s.dir, u, s.tasks[u]))
         && (forall u :: u in s.committed ==>
               if InPhase(s, u, Vacated) then SetAside(s.dir, s.committed, u) else InPlace(s.dir, s.committed, u))
       case Restoring(todo) =>
         && s.tasks == map[]
         && (forall u :: u in s.committed ==>
               InPlace(s.dir, s.committed, u) || (SetAside(s.dir, s.committed, u) && AsideOf(u) in todo))
       case Sweeping(sweep, todo) =>
         && s.tasks == map[]
         && Settled(s.dir, s.committed)
  }
}
