/** The lifecycle invariant is kept by every step of every interleaving. */
module LifecycleProofs {
  import opened Bytes
  import opened Lifecycle

  lemma ThreadFact(s: State, t: nat)
    requires Inv(s) && t in s.threads
    ensures ThreadOk(s, t)
  {
  }

  lemma NotTwoHolders(s: State, t: nat, u: nat)
    requires Inv(s) && t in s.threads && u in s.threads && t != u
    requires Holds(s.threads[t].pc)
    ensures !Holds(s.threads[u].pc)
  {
  }

  /** At the spawn point, and where a restart clears the latch, nobody owns a child: the
      previous one is fully gone. */
  lemma SpawnIsVacant(s: State, t: nat)
    requires Inv(s) && (At(s, t, Spawn) || At(s, t, ClearLatch))
    ensures NoOwner(s) && Vacant(s)
  {
    forall u | u in s.threads ensures !Owns(s.threads[u].pc) {
      assert ThreadOk(s, u);
      assert ThreadOk(s, t);
      if Installing(s.threads[u].pc) { NotTwoHolders(s, t, u); }
    }
  }

  lemma CallThreads(s: State, t: nat, role: Role, s': State, u: nat)
    requires Inv(s) && Enabled(s, Call(t, role)) && s' == Apply(s, Call(t, role)) && u in s'.threads
    ensures ThreadOk(s', u)
    ensures u == t ==> !Holds(s'.threads[u].pc) && !Owns(s'.threads[u].pc)
    ensures u != t ==> u in s.threads && s'.threads[u] == s.threads[u]
  {
    if u != t { ThreadFact(s, u); }
  }

  lemma CallKeeps(s: State, t: nat, role: Role)
    requires Inv(s) && Enabled(s, Call(t, role))
    ensures Inv(Apply(s, Call(t, role)))
  {
    hide ThreadOk;
    var s' := Apply(s, Call(t, role));
    forall u | u in s'.threads
      ensures ThreadOk(s', u)
      ensures u == t ==> !Holds(s'.threads[u].pc) && !Owns(s'.threads[u].pc)
    {
      CallThreads(s, t, role, s', u);
    }
    if NoOwner(s') {
      forall u | u in s.threads ensures !Owns(s.threads[u].pc) { assert s'.threads[u] == s.threads[u]; }
    }
  }

  ghost predicate OwnsAt(s: State, t: nat) {
    t in s.threads && Owns(s.threads[t].pc)
  }

  ghost predicate HoldsAt(s: State, t: nat) {
    t in s.threads && Holds(s.threads[t].pc)
  }

  ghost predicate OthersSame(s: State, s': State, t: nat) {
    forall u :: u != t ==> (u in s.threads <==> u in s'.threads) && (u in s.threads ==> s'.threads[u] == s.threads[u])
  }

  /** What one thread's step must show for the invariant to carry over. */
  lemma Local(s: State, s': State, t: nat)
    requires Inv(s) && t in s.threads && OthersSame(s, s', t)
    requires t in s'.threads ==> ThreadOk(s', t)
    requires forall u :: u != t && u in s.threads ==> ThreadOk(s', u)
    requires HoldsAt(s', t) ==> HoldsAt(s, t) || !s.operation
    requires OwnsAt(s', t) ==> OwnsAt(s, t) || NoOwner(s)
    requires !OwnsAt(s', t) && (OwnsAt(s, t) || NoOwner(s)) ==> Vacant(s')
    ensures Inv(s')
  {
    forall u | u in s'.threads ensures ThreadOk(s', u) {}
    forall u | u in s.threads && u != t ensures HoldsAt(s', u) ==> HoldsAt(s, u) && s.operation {
      assert ThreadOk(s, u);
    }
    if NoOwner(s') {
      if !OwnsAt(s, t) {
        forall u | u in s.threads ensures !Owns(s.threads[u].pc) {
          assert u != t ==> s'.threads[u] == s.threads[u];
        }
      }
    }
  }

  /** Steps that change no shared field keep what holds of the others. */
  lemma OthersKept(s: State, s': State, t: nat)
    requires Inv(s) && t in s.threads && OthersSame(s, s', t)
    requires s' == s.(threads := s'.threads)
    ensures forall u :: u != t && u in s.threads ==> ThreadOk(s', u)
  {
    forall u | u != t && u in s.threads ensures ThreadOk(s', u) { assert ThreadOk(s, u); }
  }

  /** The holder of the guard may change the guard and the latch. */
  lemma OthersKeptByHolder(s: State, s': State, t: nat)
    requires Inv(s) && HoldsAt(s, t) && OthersSame(s, s', t)
    requires s' == s.(threads := s'.threads, operation := s'.operation, stopping := s'.stopping)
    ensures forall u :: u != t && u in s.threads ==> ThreadOk(s', u)
  {
    forall u | u != t && u in s.threads ensures ThreadOk(s', u) {
      assert ThreadOk(s, u);
      NotTwoHolders(s, t, u);
    }
  }

  /** A thread that owns no child and touches no shared field. */
  lemma IdleKeeps(s: State, s': State, t: nat)
    requires Inv(s) && t in s.threads && !OwnsAt(s, t) && OthersSame(s, s', t)
    requires s' == s.(threads := s'.threads)
    requires t in s'.threads ==> ThreadOk(s', t) && !Owns(s'.threads[t].pc)
    requires HoldsAt(s', t) ==> HoldsAt(s, t)
    ensures Inv(s')
  {
    OthersKept(s, s', t);
    Local(s, s', t);
  }

  lemma RefusedKeeps(s: State, t: nat)
    requires Inv(s) && Enabled(s, Refused(t))
    ensures Inv(Apply(s, Refused(t)))
  {
    hide Inv, NoOwner;
    ThreadFact(s, t);
    IdleKeeps(s, Apply(s, Refused(t)), t);
  }

  lemma FailKeeps(s: State, l: Label)
    requires Inv(s) && (l.SpawnFails? || l.GiveUp? || l.StatsFail?) && Enabled(s, l)
    ensures Inv(Apply(s, l))
  {
    hide Inv, NoOwner;
    ThreadFact(s, l.t);
    IdleKeeps(s, Apply(s, l), l.t);
  }

  lemma SettleKeeps(s: State, t: nat, auto: bool)
    requires Inv(s) && Enabled(s, Settle(t, auto))
    ensures Inv(Apply(s, Settle(t, auto)))
  {
    hide Inv, NoOwner;
    ThreadFact(s, t);
    IdleKeeps(s, Apply(s, Settle(t, auto)), t);
  }

  lemma AcquireKeeps(s: State, t: nat)
    requires Inv(s) && At(s, t, Acquire) && !s.operation
    ensures Inv(Perform(s, t))
  {
    var s' := Perform(s, t);
    assert ThreadOk(s, t);
    forall u | u != t && u in s.threads ensures ThreadOk(s', u) { assert ThreadOk(s, u); }
    Local(s, s', t);
  }

  lemma GotoIdle(s: State, t: nat, pc: Pc)
    requires Inv(s) && t in s.threads && !OwnsAt(s, t) && !Owns(pc) && pc != TakeCgroup
    requires Holds(pc) ==> HoldsAt(s, t)
    requires Starting(pc) ==> !s.stopping
    requires pc in {Spawn, ClearLatch} ==> s.pid.None?
    requires RoleFits(s.threads[t].(pc := pc), s.stopping)
    ensures Inv(Goto(s, t, pc))
  {
    hide Inv, NoOwner;
    ThreadFact(s, t);
    IdleKeeps(s, Goto(s, t, pc), t);
  }

  lemma EndIdle(s: State, t: nat)
    requires Inv(s) && t in s.threads && !OwnsAt(s, t)
    ensures Inv(End(s, t))
  {
    IdleKeeps(s, End(s, t), t);
  }

  /** Looking at the latch or the pid, and the restart loop's looks. */
  lemma LookKeeps(s: State, t: nat)
    requires Inv(s) && Enabled(s, Do(t)) && s.threads[t].pc in {CheckLatch, Poll, CheckPid, BackoffLatch, BackoffPid}
    ensures Inv(Perform(s, t))
  {
    hide Inv, NoOwner;
    ThreadFact(s, t);
    match s.threads[t].pc
    case CheckLatch => GotoIdle(s, t, if s.stopping then Release(false) else CheckPid);
    case Poll => GotoIdle(s, t, ClearLatch);
    case CheckPid => GotoIdle(s, t, if s.pid.Some? then Release(false) else Spawn);
    case BackoffLatch => if s.stopping { EndIdle(s, t); } else { GotoIdle(s, t, BackoffPid); }
    case BackoffPid => if s.pid.Some? { EndIdle(s, t); } else { GotoIdle(s, t, Acquire); }
  }

  lemma HolderKeeps(s: State, s': State, t: nat)
    requires Inv(s) && HoldsAt(s, t) && !OwnsAt(s, t) && !OwnsAt(s', t) && OthersSame(s, s', t)
    requires s' == s.(threads := s'.threads, operation := s'.operation, stopping := s'.stopping)
    requires t in s'.threads ==> ThreadOk(s', t)
    ensures Inv(s')
  {
    OthersKeptByHolder(s, s', t);
    Local(s, s', t);
  }

  lemma LatchKeeps(s: State, t: nat)
    requires Inv(s) && At(s, t, Latch)
    ensures Inv(Perform(s, t))
  {
    hide Inv, NoOwner;
    ThreadFact(s, t);
    HolderKeeps(s, Perform(s, t), t);
  }

  lemma ClearLatchKeeps(s: State, t: nat)
    requires Inv(s) && At(s, t, ClearLatch)
    ensures Inv(Perform(s, t))
  {
    hide Inv, NoOwner;
    ThreadFact(s, t);
    HolderKeeps(s, Perform(s, t), t);
  }

  lemma ReleaseKeeps(s: State, t: nat, ok: bool)
    requires Inv(s) && At(s, t, Release(ok))
    ensures Inv(Perform(s, t))
  {
    hide Inv, NoOwner;
    ThreadFact(s, t);
    HolderKeeps(s, Perform(s, t), t);
  }

  lemma SpawnKeeps(s: State, t: nat)
    requires Inv(s) && At(s, t, Spawn)
    ensures Inv(Perform(s, t))
  {
    var s' := Perform(s, t);
    SpawnIsVacant(s, t);
    assert ThreadOk(s, t);
    forall u | u != t && u in s.threads ensures ThreadOk(s', u) { assert ThreadOk(s, u); }
    Local(s, s', t);
  }

  /** A step of the owner: nobody else's obligations mention the child's fields, except
      that the spawn point sees no pid. */
  lemma OwnerKeeps(s: State, s': State, t: nat)
    requires Inv(s) && OwnsAt(s, t) && OthersSame(s, s', t) && t in s'.threads
    requires s'.operation == s.operation && s'.stopping == s.stopping && s'.next == s.next && s'.alive <= s.alive
    requires ThreadOk(s', t)
    requires HoldsAt(s', t) ==> HoldsAt(s, t)
    requires s'.pid.Some? ==> s.pid.Some? || HoldsAt(s, t)
    requires !OwnsAt(s', t) ==> Vacant(s')
    ensures Inv(s')
  {
    forall u | u != t && u in s.threads ensures ThreadOk(s', u) {
      assert ThreadOk(s, u);
      assert !OwnsAt(s, u);
      if HoldsAt(s, t) { NotTwoHolders(s, t, u); }
    }
    Local(s, s', t);
  }

  lemma SetNetworkKeeps(s: State, t: nat)
    requires Inv(s) && At(s, t, SetNetwork)
    ensures Inv(Perform(s, t))
  {
    hide Inv, NoOwner;
    ThreadFact(s, t);
    OwnerKeeps(s, Perform(s, t), t);
  }

  lemma SetCgroupKeeps(s: State, t: nat)
    requires Inv(s) && At(s, t, SetCgroup)
    ensures Inv(Perform(s, t))
  {
    hide Inv, NoOwner;
    ThreadFact(s, t);
    OwnerKeeps(s, Perform(s, t), t);
  }

  lemma SetStdinKeeps(s: State, t: nat)
    requires Inv(s) && At(s, t, SetStdin)
    ensures Inv(Perform(s, t))
  {
    hide Inv, NoOwner;
    ThreadFact(s, t);
    OwnerKeeps(s, Perform(s, t), t);
  }

  lemma PublishKeeps(s: State, t: nat)
    requires Inv(s) && (At(s, t, SetPid) || At(s, t, SetChild))
    ensures Inv(Perform(s, t))
  {
    hide Inv, NoOwner;
    ThreadFact(s, t);
    OwnerKeeps(s, Perform(s, t), t);
  }

  lemma TakeChildKeeps(s: State, t: nat)
    requires Inv(s) && At(s, t, TakeChild)
    ensures Inv(Perform(s, t))
  {
    hide Inv, NoOwner;
    ThreadFact(s, t);
    var s' := Perform(s, t);
    assert s'.threads[t] == s.threads[t].(pc := Reap, child := s.child.value);
    OwnerKeeps(s, s', t);
  }

  lemma WaitKeeps(s: State, t: nat)
    requires Inv(s) && At(s, t, Reap)
    ensures Inv(Perform(s, t))
  {
    hide Inv, NoOwner;
    ThreadFact(s, t);
    var s' := Perform(s, t);
    assert s'.threads[t] == s.threads[t].(pc := TakeNetwork) && s'.alive == {};
    OwnerKeeps(s, s', t);
  }

  lemma ReleaseLeaseKeeps(s: State, t: nat)
    requires Inv(s) && (At(s, t, TakeNetwork) || At(s, t, TakeStdin))
    ensures Inv(Perform(s, t))
  {
    hide Inv, NoOwner;
    ThreadFact(s, t);
    OwnerKeeps(s, Perform(s, t), t);
  }

  lemma ClearPidKeeps(s: State, t: nat)
    requires Inv(s) && At(s, t, ClearPid)
    ensures Inv(Perform(s, t))
  {
    hide Inv, NoOwner;
    ThreadFact(s, t);
    var s' := Perform(s, t);
    assert s'.threads[t] == s.threads[t].(pc := TakeCgroup) && Vacant(s');
    OwnerKeeps(s, s', t);
  }

  lemma TakeCgroupKeeps(s: State, t: nat)
    requires Inv(s) && At(s, t, TakeCgroup)
    ensures Inv(Perform(s, t))
  {
    var s' := Perform(s, t);
    assert ThreadOk(s, t);
    forall u | u != t && u in s.threads ensures ThreadOk(s', u) { assert ThreadOk(s, u); }
    Local(s, s', t);
  }

  lemma ForkThreads(s: State, t: nat, w: nat, s': State, u: nat)
    requires Inv(s) && Enabled(s, Fork(t, w)) && s' == Apply(s, Fork(t, w)) && u in s'.threads
    ensures ThreadOk(s', u)
    ensures Holds(s'.threads[u].pc) ==> u == t
    ensures Owns(s'.threads[u].pc) ==> u == w
  {
    ThreadFact(s, t);
    if u != t && u != w {
      ThreadFact(s, u);
      NotTwoHolders(s, t, u);
    }
  }

  /** The waiter takes the child over from the thread that spawned it. */
  lemma ForkKeeps(s: State, t: nat, w: nat)
    requires Inv(s) && Enabled(s, Fork(t, w))
    ensures Inv(Apply(s, Fork(t, w)))
  {
    hide Apply, ThreadOk;
    var s' := Apply(s, Fork(t, w));
    forall u | u in s'.threads
      ensures ThreadOk(s', u) && (Holds(s'.threads[u].pc) ==> u == t) && (Owns(s'.threads[u].pc) ==> u == w)
    {
      ForkThreads(s, t, w, s', u);
    }
    ForkOwned(s, t, w);
  }

  lemma ForkOwned(s: State, t: nat, w: nat)
    requires Enabled(s, Fork(t, w))
    ensures !NoOwner(Apply(s, Fork(t, w)))
  {
    assert OwnsAt(Apply(s, Fork(t, w)), w);
  }

  lemma DoKeeps(s: State, t: nat)
    requires Inv(s) && Enabled(s, Do(t))
    ensures Inv(Perform(s, t))
  {
    hide Inv, NoOwner, Perform;
    var pc := s.threads[t].pc;
    match pc
    case SetNetwork => SetNetworkKeeps(s, t);
    case SetCgroup => SetCgroupKeeps(s, t);
    case SetStdin => SetStdinKeeps(s, t);
    case SetPid => PublishKeeps(s, t);
    case SetChild => PublishKeeps(s, t);
    case TakeChild => TakeChildKeeps(s, t);
    case Reap => WaitKeeps(s, t);
    case TakeNetwork => ReleaseLeaseKeeps(s, t);
    case TakeStdin => ReleaseLeaseKeeps(s, t);
    case ClearPid => ClearPidKeeps(s, t);
    case Acquire => AcquireKeeps(s, t);
    case Spawn => SpawnKeeps(s, t);
    case TakeCgroup => TakeCgroupKeeps(s, t);
    case Latch => LatchKeeps(s, t);
    case ClearLatch => ClearLatchKeeps(s, t);
    case Release(ok) => ReleaseKeeps(s, t, ok);
    case _ => LookKeeps(s, t);
  }

  lemma StepKeeps(s: State, l: Label)
    requires Inv(s) && Enabled(s, l)
    ensures Inv(Apply(s, l))
  {
    hide Inv, NoOwner, Perform;
    match l
    case Call(t, role) => CallKeeps(s, t, role);
    case Refused(t) => RefusedKeeps(s, t);
    case SpawnFails(_) => FailKeeps(s, l);
    case GiveUp(_) => FailKeeps(s, l);
    case Fork(t, w) => ForkKeeps(s, t, w);
    case StatsFail(_) => FailKeeps(s, l);
    case Settle(t, auto) => SettleKeeps(s, t, auto);
    case Do(t) => DoKeeps(s, t);
  }
}
