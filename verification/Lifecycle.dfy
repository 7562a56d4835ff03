/** One server's process lifecycle: `start`, `stop`, `restart`, the waiter of each child
    and its auto-restart loop, as threads interleaving at every lock or atomic access
    of the shared `ManagedProcess`. */
module Lifecycle {
  import opened Bytes

  const MAX_AUTO_RESTART_ATTEMPTS: nat := 10

  datatype Role = Start | Stop | Restart | Waiter

  /** Where a thread is: the access it performs next. */
  datatype Pc =
    // the operation guard and what it protects
    | Acquire | CheckLatch | Latch | Poll | ClearLatch | Release(ok: bool)
    // start_inner
    | CheckPid | Spawn | SetNetwork | SetCgroup | SetStdin | SetPid | SetChild | SpawnWaiter
    // the waiter
    | TakeChild | Reap | TakeNetwork | TakeStdin | ClearPid | TakeCgroup | Decide
    // its auto-restart loop
    | BackoffLatch | BackoffPid

  /** `child` is the process a thread handles, `attempts` the waiter's restart count. */
  datatype Thread = Thread(role: Role, pc: Pc, child: nat, attempts: nat)

  /** Children are numbered in spawn order; every resource carries its child's number.
      `alive` holds the processes spawned and not yet reaped. */
  datatype State = State(
    operation: bool,
    stopping: bool,
    pid: Option<nat>,
    child: Option<nat>,
    network: Option<nat>,
    stdin: Option<nat>,
    cgroup: Option<nat>,
    alive: set<nat>,
    next: nat,
    threads: map<nat, Thread>)

  datatype Label =
    | Call(t: nat, role: Role)
    | Refused(t: nat)        // the guard is taken
    | SpawnFails(t: nat)
    | GiveUp(t: nat)         // restart: deadline, error or dropped future
    | Fork(t: nat, w: nat)   // spawn_waiter
    | StatsFail(t: nat)      // all is done, but the stats to return cannot be had
    | Settle(t: nat, auto: bool)
    | Do(t: nat)             // the one thing the program counter says

  predicate At(s: State, t: nat, pc: Pc) {
    t in s.threads && s.threads[t].pc == pc
  }

  predicate Enabled(s: State, l: Label) {
    match l
    case Call(t, role) => t !in s.threads && role != Waiter
    case Refused(t) => At(s, t, Acquire) && s.operation
    case SpawnFails(t) => At(s, t, Spawn)
    case GiveUp(t) => At(s, t, Poll)
    case Fork(t, w) => At(s, t, SpawnWaiter) && w !in s.threads
    case StatsFail(t) => At(s, t, Release(true))
    case Settle(t, _) => At(s, t, Decide)
    case Do(t) =>
      && t in s.threads
      && match s.threads[t].pc
         case Acquire => !s.operation
         case Poll => s.pid.None?
         case SpawnWaiter => false
         case Decide => false
         case _ => true
  }

  function Goto(s: State, t: nat, pc: Pc): State
    requires t in s.threads
  {
    s.(threads := s.threads[t := s.threads[t].(pc := pc)])
  }

  function End(s: State, t: nat): State {
    s.(threads := s.threads - {t})
  }

  /** A call is over. An operator's thread ends; a waiter whose attempt failed backs off
      again until its attempts are used up. */
  function Return(s: State, t: nat, ok: bool): State
    requires t in s.threads
  {
    var th := s.threads[t];
    if th.role != Waiter || ok || th.attempts >= MAX_AUTO_RESTART_ATTEMPTS then End(s, t)
    else s.(threads := s.threads[t := th.(pc := BackoffLatch, attempts := th.attempts + 1)])
  }

  /** After the guard is won: a stop or restart sets the latch, a start looks at it. */
  function AfterAcquire(role: Role): Pc {
    if role == Stop || role == Restart then Latch else CheckLatch
  }

  function Perform(s: State, t: nat): State
    requires Enabled(s, Do(t))
  {
    var th := s.threads[t];
    match th.pc
    case Acquire => Goto(s.(operation := true), t, AfterAcquire(th.role))
    case CheckLatch => Goto(s, t, if s.stopping then Release(false) else CheckPid)
    case Latch => Goto(s.(stopping := true), t, if th.role == Stop then Release(true) else Poll)
    case Poll => Goto(s, t, ClearLatch)
    case ClearLatch => Goto(s.(stopping := false), t, CheckPid)
    case Release(ok) => Return(s.(operation := false), t, ok)
    case CheckPid => Goto(s, t, if s.pid.Some? then Release(false) else Spawn)
    case Spawn =>
      s.(alive := s.alive + {s.next}, next := s.next + 1,
         threads := s.threads[t := th.(pc := SetNetwork, child := s.next)])
    case SetNetwork => Goto(s.(network := Some(th.child)), t, SetCgroup)
    case SetCgroup => Goto(s.(cgroup := Some(th.child)), t, SetStdin)
    case SetStdin => Goto(s.(stdin := Some(th.child)), t, SetPid)
    case SetPid => Goto(s.(pid := Some(th.child)), t, SetChild)
    case SetChild => Goto(s.(child := Some(th.child)), t, SpawnWaiter)
    case TakeChild =>
      if s.child.None? then End(s, t)
      else s.(child := None, threads := s.threads[t := th.(pc := Reap, child := s.child.value)])
    case Reap => Goto(s.(alive := s.alive - {th.child}), t, TakeNetwork)
    case TakeNetwork => Goto(s.(network := None), t, TakeStdin)
    case TakeStdin => Goto(s.(stdin := None), t, ClearPid)
    case ClearPid => Goto(s.(pid := None), t, TakeCgroup)
    case TakeCgroup => Goto(s.(cgroup := None), t, Decide)
    case BackoffLatch => if s.stopping then End(s, t) else Goto(s, t, BackoffPid)
    case BackoffPid => if s.pid.Some? then End(s, t) else Goto(s, t, Acquire)
  }

  function Apply(s: State, l: Label): State
    requires Enabled(s, l)
  {
    match l
    case Call(t, role) => s.(threads := s.threads[t := Thread(role, Acquire, 0, 0)])
    case Refused(t) => Return(s, t, false)
    case SpawnFails(t) => Goto(s, t, Release(false))
    case GiveUp(t) => Goto(s, t, Release(false))
    case Fork(t, w) => Goto(s.(threads := s.threads[w := Thread(Waiter, TakeChild, 0, 0)]), t, Release(true))
    case StatsFail(t) => Goto(s, t, Release(false))
    case Settle(t, auto) =>
      if s.stopping || !auto then End(s, t)
      else s.(threads := s.threads[t := s.threads[t].(pc := BackoffLatch, attempts := 1)])
    case Do(t) => Perform(s, t)
  }

  ghost predicate Init(s: State) {
    s == State(false, s.stopping, None, None, None, None, None, {}, s.next, map[])
  }

  /** Step `i` of a run. */
  ghost predicate StepAt(states: seq<State>, labels: seq<Label>, i: nat)
    requires |states| == |labels| + 1 && i < |labels|
  {
    Enabled(states[i], labels[i]) && states[i + 1] == Apply(states[i], labels[i])
  }

  ghost predicate IsRun(states: seq<State>, labels: seq<Label>) {
    && |states| == |labels| + 1
    && forall i :: 0 <= i < |labels| ==> StepAt(states, labels, i)
  }

  // ---------------- The invariant ----------------

  /** Inside the operation guard. */
  predicate Holds(pc: Pc) {
    pc in {CheckLatch, Latch, Poll, ClearLatch, Release(true), Release(false)} || Starting(pc)
  }

  /** Inside start_inner. */
  predicate Starting(pc: Pc) {
    pc in {CheckPid, Spawn} || Installing(pc)
  }

  /** A process exists but its waiter is not running yet. */
  predicate Installing(pc: Pc) {
    pc in {SetNetwork, SetCgroup, SetStdin, SetPid, SetChild, SpawnWaiter}
  }

  /** The waiter of a child whose pid is still published. */
  predicate Reaping(pc: Pc) {
    pc in {TakeChild, Reap, TakeNetwork, TakeStdin, ClearPid}
  }

  predicate Owns(pc: Pc) {
    Installing(pc) || Reaping(pc)
  }

  function When(b: bool, c: nat): Option<nat> {
    if b then Some(c) else None
  }

  /** The child a thread at an owning point answers for. */
  function ChildOf(s: State, th: Thread): Option<nat> {
    if th.pc == TakeChild then s.child else Some(th.child)
  }

  /** What the shared fields hold while `th` owns the current child `c`. */
  ghost predicate FieldsFit(s: State, pc: Pc, c: nat) {
    && s.pid == When(pc in {SetChild, SpawnWaiter} || Reaping(pc), c)
    && s.child == When(pc in {SpawnWaiter, TakeChild}, c)
    && s.network == When(pc !in {SetNetwork, TakeStdin, ClearPid}, c)
    && s.stdin == When(pc !in {SetNetwork, SetCgroup, SetStdin, ClearPid}, c)
    && s.alive == (if pc in {TakeNetwork, TakeStdin, ClearPid} then {} else {c})
    && (pc !in {SetNetwork, SetCgroup} ==> s.cgroup in {None, Some(c)})
    && c < s.next
  }

  ghost predicate Vacant(s: State) {
    s.pid.None? && s.child.None? && s.network.None? && s.stdin.None? && s.alive == {}
  }

  ghost predicate NoOwner(s: State) {
    forall t :: t in s.threads ==> !Owns(s.threads[t].pc)
  }

  /** Where each kind of call can be; a stop about to return has set the latch. */
  ghost predicate RoleFits(th: Thread, stopping: bool) {
    && (th.role == Stop ==> th.pc in {Acquire, Latch, Release(true), Release(false)} && (th.pc.Release? ==> stopping))
    && (th.pc == Latch ==> th.role in {Stop, Restart})
    && (th.pc in {Poll, ClearLatch} ==> th.role == Restart)
    && th.attempts <= MAX_AUTO_RESTART_ATTEMPTS
  }

  ghost predicate ThreadOk(s: State, t: nat)
    requires t in s.threads
  {
    var th := s.threads[t];
    && (Holds(th.pc) ==> s.operation)
    && (Starting(th.pc) ==> !s.stopping)
    && (th.pc in {Spawn, ClearLatch} ==> s.pid.None?)
    && (Owns(th.pc) ==> ChildOf(s, th).Some? && FieldsFit(s, th.pc, ChildOf(s, th).value))
    && (Reaping(th.pc) ==> th.role == Waiter)
    && (th.pc == TakeCgroup ==> th.child < s.next && th.child !in s.alive)
    && RoleFits(th, s.stopping)
  }

  ghost predicate Inv(s: State) {
    && (forall t :: t in s.threads ==> ThreadOk(s, t))
    && (forall t, u :: t in s.threads && u in s.threads && Holds(s.threads[t].pc) && Holds(s.threads[u].pc) ==> t == u)
    && (forall t, u :: t in s.threads && u in s.threads && Owns(s.threads[t].pc) && Owns(s.threads[u].pc) ==> t == u)
    && (NoOwner(s) ==> Vacant(s))
  }
}
