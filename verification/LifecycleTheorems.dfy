/** Whole-run results about the process lifecycle. */
module LifecycleTheorems {
  import opened Bytes
  import opened Lifecycle
  import opened LifecycleProofs

  lemma {:induction false} InvAlways(states: seq<State>, labels: seq<Label>, i: nat)
    requires IsRun(states, labels) && Init(states[0]) && i < |states|
    ensures Inv(states[i])
  {
    hide Apply, Enabled;
    if i > 0 {
      InvAlways(states, labels, i - 1);
      assert StepAt(states, labels, i - 1);
      StepKeeps(states[i - 1], labels[i - 1]);
    }
  }

  /** Step `i` of a run is thread `t` doing what stands at `pc`. */
  ghost predicate Does(states: seq<State>, labels: seq<Label>, i: int, t: nat, pc: Pc)
    requires IsRun(states, labels)
  {
    0 <= i < |labels| && labels[i] == Do(t) && At(states[i], t, pc)
  }

  /** At most one process of a server is alive at any time, and a published pid or a
      lease always belongs to the newest one. */
  lemma AtMostOneChild(states: seq<State>, labels: seq<Label>, i: nat)
    requires IsRun(states, labels) && Init(states[0]) && i < |states|
    ensures forall c, d :: c in states[i].alive && d in states[i].alive ==> c == d
    ensures forall c :: c in states[i].alive && states[i].pid.Some? ==> states[i].pid == Some(c)
    ensures forall c :: c in states[i].alive && states[i].network.Some? ==> states[i].network == Some(c)
    ensures forall c :: c in states[i].alive && states[i].stdin.Some? ==> states[i].stdin == Some(c)
  {
    InvAlways(states, labels, i);
    var s := states[i];
    if t :| t in s.threads && Owns(s.threads[t].pc) {
      assert ThreadOk(s, t);
    } else {
      assert NoOwner(s);
    }
  }

  /** A waiter releases the network lease and the stdin writer of its own child, never a
      later one's: they are there, and they carry its child's number. */
  lemma WaiterReleasesItsOwn(states: seq<State>, labels: seq<Label>, i: nat, t: nat)
    requires IsRun(states, labels) && Init(states[0])
    ensures Does(states, labels, i, t, TakeNetwork) ==> states[i].network == Some(states[i].threads[t].child)
    ensures Does(states, labels, i, t, TakeStdin) ==> states[i].stdin == Some(states[i].threads[t].child)
    ensures Does(states, labels, i, t, ClearPid) ==> states[i].pid == Some(states[i].threads[t].child)
  {
    if i < |labels| && t in states[i].threads {
      InvAlways(states, labels, i);
      assert ThreadOk(states[i], t);
    }
  }

  // ---------------- The sticky stop latch ----------------

  /** The latch comes off only by a restart's explicit step. */
  lemma LatchStep(s: State, l: Label)
    requires Inv(s) && Enabled(s, l) && s.stopping && !Apply(s, l).stopping
    ensures l.Do? && At(s, l.t, ClearLatch)
  {
  }

  lemma {:induction false} LatchCleared(states: seq<State>, labels: seq<Label>, i: nat, j: nat) returns (k: nat)
    requires IsRun(states, labels) && Init(states[0])
    requires i < j < |states| && states[i].stopping && !states[j].stopping
    ensures i <= k < j && labels[k].Do? && At(states[k], labels[k].t, ClearLatch)
    ensures states[k].pid.None? && states[k].alive == {} && states[k].network.None? && states[k].stdin.None?
  {
    InvAlways(states, labels, j - 1);
    if states[j - 1].stopping {
      k := j - 1;
      assert StepAt(states, labels, k);
      LatchStep(states[k], labels[k]);
      hide Inv, Apply, Enabled;
      SpawnIsVacant(states[k], labels[k].t);
    } else {
      k := LatchCleared(states, labels, i, j - 1);
    }
  }

  // ---------------- The guard is never lost ----------------

  /** A holder goes on holding until it releases. */
  lemma HolderStays(s: State, l: Label, t: nat)
    requires Enabled(s, l) && HoldsAt(s, t)
    ensures HoldsAt(Apply(s, l), t) || (l == Do(t) && s.threads[t].pc.Release? && !Apply(s, l).operation)
  {
    hide Perform;
    if l.t != t {
      ThreadUntouched(s, l, t);
    } else if l.Do? {
      HolderDo(s, t);
    }
  }

  lemma HolderDo(s: State, t: nat)
    requires Enabled(s, Do(t)) && HoldsAt(s, t)
    ensures HoldsAt(Perform(s, t), t) || (s.threads[t].pc.Release? && !Perform(s, t).operation)
  {
  }

  lemma ThreadUntouched(s: State, l: Label, t: nat)
    requires Enabled(s, l) && l.t != t && t in s.threads
    ensures t in Apply(s, l).threads && Apply(s, l).threads[t] == s.threads[t]
  {
  }

  lemma GuardTurns(s: State, l: Label)
    requires Enabled(s, l) && !s.operation && Apply(s, l).operation
    ensures l.Do? && HoldsAt(Apply(s, l), l.t)
  {
  }

  /** In every state of every run the guard is taken exactly when some thread is inside: it
      is released on every way out, success or failure. */
  lemma {:induction false} GuardNeverLost(states: seq<State>, labels: seq<Label>, i: nat)
    requires IsRun(states, labels) && Init(states[0]) && i < |states|
    ensures states[i].operation <==> exists t :: HoldsAt(states[i], t)
  {
    hide Apply, Enabled;
    if exists t :: HoldsAt(states[i], t) {
      var t :| HoldsAt(states[i], t);
      InvAlways(states, labels, i);
      ThreadFact(states[i], t);
    } else if i > 0 {
      GuardNeverLost(states, labels, i - 1);
      assert StepAt(states, labels, i - 1);
      if states[i - 1].operation {
        var t :| HoldsAt(states[i - 1], t);
        HolderStays(states[i - 1], labels[i - 1], t);
      } else if states[i].operation {
        GuardTurns(states[i - 1], labels[i - 1]);
      }
    }
  }

  lemma FreeGuard(s: State, t: nat)
    requires Inv(s) && !s.operation
    ensures !HoldsAt(s, t)
  {
    assert t in s.threads ==> ThreadOk(s, t);
  }

  lemma AcquireStep(s: State, l: Label, t: nat)
    requires Enabled(s, l) && !HoldsAt(s, t) && HoldsAt(Apply(s, l), t)
    ensures l == Do(t) && At(s, t, Acquire)
  {
  }

  /** A thread inside the guard that was not inside before has acquired it in between. */
  lemma {:induction false} GuardAcquired(states: seq<State>, labels: seq<Label>, i: nat, j: nat, t: nat) returns (k: nat)
    requires IsRun(states, labels)
    requires i < j < |states| && !HoldsAt(states[i], t) && HoldsAt(states[j], t)
    ensures i <= k < j && Does(states, labels, k, t, Acquire)
  {
    k := j - 1;
    if HoldsAt(states[k], t) {
      k := GuardAcquired(states, labels, i, k, t);
    } else {
      assert StepAt(states, labels, k);
      AcquireStep(states[k], labels[k], t);
    }
  }

  /** Once a stop has completed, even one that answers with an error, no process is spawned until a restart, begun after it,
      has cleared the latch: whatever starts, waiters and backoffs are pending. */
  lemma StopStays(states: seq<State>, labels: seq<Label>, i: nat, t: nat, ok: bool, j: nat, u: nat)
    returns (a: nat, k: nat, r: nat)
    requires IsRun(states, labels) && Init(states[0]) && i < j
    requires Does(states, labels, i, t, Release(ok)) && states[i].threads[t].role == Stop
    requires Does(states, labels, j, u, Spawn)
    ensures i < a < k < j
    ensures Does(states, labels, a, r, Acquire) && Does(states, labels, k, r, ClearLatch)
    ensures states[k].threads[r].role == Restart
  {
    hide Inv;
    InvAlways(states, labels, i);
    InvAlways(states, labels, j);
    ThreadFact(states[i], t);
    ThreadFact(states[j], u);
    assert StepAt(states, labels, i);
    k := LatchCleared(states, labels, i + 1, j);
    r := labels[k].t;
    InvAlways(states, labels, k);
    ThreadFact(states[k], r);
    assert !states[i + 1].operation;
    InvAlways(states, labels, i + 1);
    FreeGuard(states[i + 1], r);
    a := GuardAcquired(states, labels, i + 1, k, r);
  }

  // ---------------- The cgroup is not owned the same way ----------------

  /** Some thread stores, or takes, the cgroup at step `k`. */
  ghost predicate Stores(states: seq<State>, labels: seq<Label>, k: int)
    requires IsRun(states, labels)
  {
    0 <= k < |labels| && labels[k].Do? && At(states[k], labels[k].t, SetCgroup)
  }

  ghost predicate Takes(states: seq<State>, labels: seq<Label>, k: int)
    requires IsRun(states, labels)
  {
    0 <= k < |labels| && labels[k].Do? && At(states[k], labels[k].t, TakeCgroup)
  }

  /** The last thing done to the cgroup after step `i` and before `m` was a later start
      storing its own. */
  ghost predicate StoredLast(states: seq<State>, labels: seq<Label>, i: int, m: int)
    requires IsRun(states, labels)
  {
    exists k :: i < k < m && Stores(states, labels, k) && forall n :: k < n < m ==> !Takes(states, labels, n)
  }

  lemma WaitingKeepsChild(s: State, l: Label, t: nat)
    requires Enabled(s, l) && At(s, t, TakeCgroup) && At(Apply(s, l), t, TakeCgroup)
    ensures Apply(s, l).threads[t].child == s.threads[t].child
  {
  }

  lemma CgroupStep(s: State, l: Label, t: nat)
    requires Inv(s) && Enabled(s, l) && At(s, t, TakeCgroup)
    ensures var c := s.threads[t].child;
            var cgroup' := Apply(s, l).cgroup;
            if l.Do? && At(s, l.t, SetCgroup) then cgroup'.Some? && cgroup'.value != c
            else if l.Do? && At(s, l.t, TakeCgroup) then cgroup'.None?
            else cgroup' == s.cgroup
  {
    hide Inv, NoOwner;
    ThreadFact(s, t);
    if l.Do? && l.t in s.threads { ThreadFact(s, l.t); }
  }

  lemma ClearPidLeavesOwn(s: State, t: nat)
    requires Inv(s) && At(s, t, ClearPid)
    ensures var s' := Apply(s, Do(t));
            At(s', t, TakeCgroup) && s'.threads[t].child == s.threads[t].child
            && (s'.cgroup.Some? ==> s'.cgroup.value == s.threads[t].child)
  {
    assert ThreadOk(s, t);
  }

  ghost predicate Foreign(s: State, c: nat) {
    s.cgroup.Some? && s.cgroup.value != c
  }

  lemma CgroupAfter(states: seq<State>, labels: seq<Label>, m: nat, t: nat)
    requires IsRun(states, labels) && Init(states[0]) && m < |labels|
    requires At(states[m], t, TakeCgroup) && At(states[m + 1], t, TakeCgroup)
    ensures states[m + 1].threads[t].child == states[m].threads[t].child
    ensures var c := states[m].threads[t].child;
            Foreign(states[m + 1], c) <==>
            (Stores(states, labels, m) || (!Takes(states, labels, m) && Foreign(states[m], c)))
  {
    InvAlways(states, labels, m);
    assert StepAt(states, labels, m);
    CgroupStep(states[m], labels[m], t);
    WaitingKeepsChild(states[m], labels[m], t);
  }

  lemma CgroupAtClear(states: seq<State>, labels: seq<Label>, i: nat, t: nat)
    requires IsRun(states, labels) && Init(states[0]) && Does(states, labels, i, t, ClearPid)
    ensures At(states[i + 1], t, TakeCgroup) && states[i + 1].threads[t].child == states[i].threads[t].child
    ensures !Foreign(states[i + 1], states[i].threads[t].child)
  {
    InvAlways(states, labels, i);
    assert StepAt(states, labels, i);
    ClearPidLeavesOwn(states[i], t);
  }

  lemma {:induction false} ChildKept(states: seq<State>, labels: seq<Label>, i: nat, m: nat, t: nat)
    requires IsRun(states, labels) && Init(states[0]) && i < m < |states|
    requires Does(states, labels, i, t, ClearPid)
    requires forall k :: i < k <= m ==> At(states[k], t, TakeCgroup)
    ensures At(states[m], t, TakeCgroup) && states[m].threads[t].child == states[i].threads[t].child
  {
    if m == i + 1 {
      CgroupAtClear(states, labels, i, t);
    } else {
      ChildKept(states, labels, i, m - 1, t);
      CgroupAfter(states, labels, m - 1, t);
    }
  }

  /** A flag set by stores and cleared by takes is up when the last of them was a store. */
  lemma {:induction false} LastWriter(stores: seq<bool>, takes: seq<bool>, flag: seq<bool>, i: nat, m: nat)
    requires |stores| == |takes| && |flag| == |stores| + 1 && i < m < |flag| && !flag[i + 1]
    requires forall k :: i < k < m ==> (flag[k + 1] <==> stores[k] || (!takes[k] && flag[k]))
    ensures flag[m] <==> exists k :: i < k < m && stores[k] && forall n :: k < n < m ==> !takes[n]
  {
    if m > i + 1 {
      LastWriter(stores, takes, flag, i, m - 1);
      assert flag[m] <==> stores[m - 1] || (!takes[m - 1] && flag[m - 1]);
    }
  }

  /** The waiter takes the cgroup only after it has given up the pid. What it takes then
      belongs to another child exactly when, in between, a later start stored its cgroup
      and no other waiter took that away again. */
  lemma ForeignCgroup(states: seq<State>, labels: seq<Label>, i: nat, j: nat, t: nat)
    requires IsRun(states, labels) && Init(states[0]) && i < j
    requires Does(states, labels, i, t, ClearPid) && Does(states, labels, j, t, TakeCgroup)
    requires forall k :: i < k <= j ==> At(states[k], t, TakeCgroup)
    ensures Foreign(states[j], states[j].threads[t].child) <==> StoredLast(states, labels, i, j)
  {
    var c := states[i].threads[t].child;
    var stores := seq(|labels|, k requires 0 <= k < |labels| => Stores(states, labels, k));
    var takes := seq(|labels|, k requires 0 <= k < |labels| => Takes(states, labels, k));
    var flag := seq(|states|, k requires 0 <= k < |states| => Foreign(states[k], c));
    CgroupAtClear(states, labels, i, t);
    forall k | i < k < j ensures flag[k + 1] <==> stores[k] || (!takes[k] && flag[k]) {
      ChildKept(states, labels, i, k, t);
      CgroupAfter(states, labels, k, t);
    }
    LastWriter(stores, takes, flag, i, j);
    ChildKept(states, labels, i, j, t);
    assert flag[j] <==> Foreign(states[j], states[j].threads[t].child);
    StoredLastIs(states, labels, i, j, stores, takes);
  }

  lemma StoredLastIs(states: seq<State>, labels: seq<Label>, i: nat, j: nat, stores: seq<bool>, takes: seq<bool>)
    requires IsRun(states, labels) && j < |labels| && |stores| == |takes| == |labels|
    requires forall k :: 0 <= k < |labels| ==> stores[k] == Stores(states, labels, k) && takes[k] == Takes(states, labels, k)
    ensures StoredLast(states, labels, i, j) <==>
            exists k :: i < k < j && stores[k] && forall n :: k < n < j ==> !takes[n]
  {
    if StoredLast(states, labels, i, j) {
      var k :| i < k < j && Stores(states, labels, k) && forall n :: k < n < j ==> !Takes(states, labels, n);
      assert stores[k] && forall n :: k < n < j ==> !takes[n];
    }
    if k :| i < k < j && stores[k] && forall n :: k < n < j ==> !takes[n] {
      assert Stores(states, labels, k) && forall n :: k < n < j ==> !Takes(states, labels, n);
    }
  }

  lemma Append(states: seq<State>, labels: seq<Label>, l: Label, s': State)
    requires IsRun(states, labels) && Enabled(states[|labels|], l) && s' == Apply(states[|labels|], l)
    ensures IsRun(states + [s'], labels + [l]) && (states + [s'])[|labels| + 1] == s'
  {
    forall i | 0 <= i < |labels| + 1 ensures StepAt(states + [s'], labels + [l], i) {
      if i < |labels| { assert StepAt(states, labels, i); }
    }
  }

  /** A start on a free, unlatched, stopped server reaches its spawn point. */
  lemma StartReachesSpawn(s: State, t: nat) returns (states: seq<State>, labels: seq<Label>)
    requires t !in s.threads && !s.operation && !s.stopping && s.pid.None?
    ensures IsRun(states, labels) && labels == [Call(t, Start), Do(t), Do(t), Do(t)] && states[0] == s
    ensures states[4] == s.(operation := true, threads := s.threads[t := Thread(Start, Spawn, 0, 0)])
  {
    var s1 := s.(threads := s.threads[t := Thread(Start, Acquire, 0, 0)]);
    var s2 := s.(operation := true, threads := s.threads[t := Thread(Start, CheckLatch, 0, 0)]);
    var s3 := s2.(threads := s.threads[t := Thread(Start, CheckPid, 0, 0)]);
    var s4 := s2.(threads := s.threads[t := Thread(Start, Spawn, 0, 0)]);
    states, labels := [s], [];
    Append(states, labels, Call(t, Start), s1);
    states, labels := states + [s1], labels + [Call(t, Start)];
    assert s2.threads == s1.threads[t := Thread(Start, CheckLatch, 0, 0)];
    Append(states, labels, Do(t), s2);
    states, labels := states + [s2], labels + [Do(t)];
    assert s3.threads == s2.threads[t := Thread(Start, CheckPid, 0, 0)];
    Append(states, labels, Do(t), s3);
    states, labels := states + [s3], labels + [Do(t)];
    assert s4.threads == s3.threads[t := Thread(Start, Spawn, 0, 0)];
    Append(states, labels, Do(t), s4);
    states, labels := states + [s4], labels + [Do(t)];
  }

  /** And that happens: wherever a waiter stands before its cgroup with the guard free,
      the latch clear and no pid published, a start can slip in, and the waiter then
      takes the cgroup of the process that start has just spawned. */
  lemma StartSlipsIn(s: State, w: nat, t: nat) returns (states: seq<State>, labels: seq<Label>)
    requires Inv(s) && At(s, w, TakeCgroup) && t !in s.threads
    requires !s.operation && !s.stopping && s.pid.None?
    ensures IsRun(states, labels) && |labels| == 7 && states[0] == s
    ensures At(states[7], w, TakeCgroup) && Enabled(states[7], Do(w))
    ensures states[7].cgroup.Some? && states[7].cgroup.value in states[7].alive
    ensures Foreign(states[7], states[7].threads[w].child)
  {
    assert ThreadOk(s, w);
    states, labels := StartReachesSpawn(s, t);
    var s4, c := states[4], s.next;
    var s5 := s4.(alive := s.alive + {c}, next := c + 1, threads := s4.threads[t := Thread(Start, SetNetwork, c, 0)]);
    Append(states, labels, Do(t), s5);
    states, labels := states + [s5], labels + [Do(t)];
    var s6 := s5.(network := Some(c), threads := s5.threads[t := Thread(Start, SetCgroup, c, 0)]);
    Append(states, labels, Do(t), s6);
    states, labels := states + [s6], labels + [Do(t)];
    var s7 := s6.(cgroup := Some(c), threads := s6.threads[t := Thread(Start, SetStdin, c, 0)]);
    Append(states, labels, Do(t), s7);
    states, labels := states + [s7], labels + [Do(t)];
  }

  /** One more step of a run. */
  lemma Then(states: seq<State>, labels: seq<Label>, l: Label) returns (ss: seq<State>, ls: seq<Label>)
    requires IsRun(states, labels) && Enabled(states[|labels|], l)
    ensures IsRun(ss, ls) && ss[0] == states[0] && ls == labels + [l]
    ensures ss[|ls|] == Apply(states[|labels|], l)
  {
    var s' := Apply(states[|labels|], l);
    Append(states, labels, l, s');
    ss, ls := states + [s'], labels + [l];
  }

  lemma {:induction false} Joined(a: seq<State>, la: seq<Label>, b: seq<State>, lb: seq<Label>)
    returns (ss: seq<State>, ls: seq<Label>)
    requires IsRun(a, la) && IsRun(b, lb) && a[|la|] == b[0]
    ensures IsRun(ss, ls) && ss[0] == a[0] && ls == la + lb && ss[|ls|] == b[|lb|]
    decreases |lb|
  {
    if lb == [] {
      ss, ls := a, la;
      assert la + lb == la;
    } else {
      var n := |lb| - 1;
      var b', lb' := b[..n + 1], lb[..n];
      forall i | 0 <= i < n ensures StepAt(b', lb', i) { assert StepAt(b, lb, i); }
      ss, ls := Joined(a, la, b', lb');
      assert StepAt(b, lb, n);
      ss, ls := Then(ss, ls, lb[n]);
      assert la + lb' + [lb[n]] == la + lb;
    }
  }

  /** An unlatched server with nothing running, and with child `c` running under `w`. */
  function Quiet(next: nat): State {
    State(false, false, None, None, None, None, None, {}, next, map[])
  }

  function Running(c: nat, w: nat): State {
    var own := Some(c);
    State(false, false, own, own, own, own, own, {c}, c + 1, map[w := Thread(Waiter, TakeChild, 0, 0)])
  }

  /** A run from one state to another in which nobody calls. */
  ghost predicate Leads(states: seq<State>, labels: seq<Label>, from: State, to: State) {
    && IsRun(states, labels) && states[0] == from && states[|labels|] == to
    && forall i :: 0 <= i < |labels| ==> !labels[i].Call?
  }

  lemma NoSteps(s: State) returns (states: seq<State>, labels: seq<Label>)
    ensures Leads(states, labels, s, s) && labels == []
  {
    states, labels := [s], [];
  }

  lemma AndThen(states: seq<State>, labels: seq<Label>, from: State, to: State, l: Label, next: State)
    returns (ss: seq<State>, ls: seq<Label>)
    requires Leads(states, labels, from, to) && Enabled(to, l) && next == Apply(to, l) && !l.Call?
    ensures Leads(ss, ls, from, next)
  {
    ss, ls := Then(states, labels, l);
  }

  /** The starting thread alone, at `pc`, with its child spawned. */
  function Begun(th: Thread, t: nat, pc: Pc, pid: Option<nat>, child: Option<nat>, network: Option<nat>, stdin: Option<nat>,
    cgroup: Option<nat>): State
  {
    State(true, false, pid, child, network, stdin, cgroup, {th.child}, th.child + 1, map[t := th.(pc := pc)])
  }

  lemma StoresResources(th: Thread, t: nat) returns (states: seq<State>, labels: seq<Label>)
    ensures var own := Some(th.child);
            Leads(states, labels, Begun(th, t, SetNetwork, None, None, None, None, None),
                  Begun(th, t, SetPid, None, None, own, own, own))
  {
    hide Leads;
    var own := Some(th.child);
    var s0, s1 := Begun(th, t, SetNetwork, None, None, None, None, None), Begun(th, t, SetCgroup, None, None, own, None, None);
    var s2, s3 := Begun(th, t, SetStdin, None, None, own, None, own), Begun(th, t, SetPid, None, None, own, own, own);
    states, labels := NoSteps(s0);
    states, labels := AndThen(states, labels, s0, s0, Do(t), s1);
    states, labels := AndThen(states, labels, s0, s1, Do(t), s2);
    states, labels := AndThen(states, labels, s0, s2, Do(t), s3);
  }

  lemma StoresChild(th: Thread, t: nat, w: nat) returns (states: seq<State>, labels: seq<Label>)
    requires t != w
    ensures var own := Some(th.child);
            Leads(states, labels, Begun(th, t, SetPid, None, None, own, own, own), Running(th.child, w))
  {
    hide Leads;
    var c, own := th.child, Some(th.child);
    var s0, s1 := Begun(th, t, SetPid, None, None, own, own, own), Begun(th, t, SetChild, own, None, own, own, own);
    var s2 := Begun(th, t, SpawnWaiter, own, own, own, own, own);
    var both := map[w := Thread(Waiter, TakeChild, 0, 0), t := th.(pc := Release(true))];
    var s3 := s2.(threads := both);
    assert both - {t} == map[w := Thread(Waiter, TakeChild, 0, 0)];
    states, labels := NoSteps(s0);
    states, labels := AndThen(states, labels, s0, s0, Do(t), s1);
    states, labels := AndThen(states, labels, s0, s1, Do(t), s2);
    assert s2.threads[w := Thread(Waiter, TakeChild, 0, 0)][t := th.(pc := Release(true))] == both;
    states, labels := AndThen(states, labels, s0, s2, Fork(t, w), s3);
    states, labels := AndThen(states, labels, s0, s3, Do(t), Running(c, w));
  }

  /** A thread about to spawn on an empty server, with nobody else there. */
  function Spawning(c: nat, th: Thread, t: nat): State {
    State(true, false, None, None, None, None, None, {}, c, map[t := th.(pc := Spawn)])
  }

  /** From there, undisturbed, to the process running under its waiter. */
  lemma SpawnRuns(c: nat, th: Thread, t: nat, w: nat) returns (states: seq<State>, labels: seq<Label>)
    requires t != w
    ensures Leads(states, labels, Spawning(c, th, t), Running(c, w))
  {
    var own := th.(child := c);
    states, labels := NoSteps(Spawning(c, th, t));
    states, labels := Then(states, labels, Do(t));
    assert states[1] == Begun(own, t, SetNetwork, None, None, None, None, None);
    hide Apply, Enabled;
    var b, lb := StoresResources(own, t);
    states, labels := Joined(states, labels, b, lb);
    b, lb := StoresChild(own, t, w);
    states, labels := Joined(states, labels, b, lb);
  }

  /** The only call of the run is the first thing in it. */
  ghost predicate OneCall(labels: seq<Label>, t: nat, role: Role) {
    |labels| > 0 && labels[0] == Call(t, role) && forall i :: 0 < i < |labels| ==> !labels[i].Call?
  }

  /** A first start, all the way. */
  lemma FirstStart(c: nat, t: nat, w: nat) returns (states: seq<State>, labels: seq<Label>)
    requires t != w
    ensures IsRun(states, labels) && states[0] == Quiet(c) && states[|labels|] == Running(c, w)
    ensures OneCall(labels, t, Start)
  {
    states, labels := StartReachesSpawn(Quiet(c), t);
    assert states[4] == Spawning(c, Thread(Start, Spawn, 0, 0), t);
    hide Apply, Enabled;
    var b, lb := SpawnRuns(c, Thread(Start, Spawn, 0, 0), t, w);
    states, labels := Joined(states, labels, b, lb);
  }

  /** The waiter of child `c` at `pc`, beside other threads. */
  function Waiting(guard: bool, latch: bool, c: nat, w: nat, pc: Pc, pid: Option<nat>, network: Option<nat>, stdin: Option<nat>,
    alive: set<nat>, others: map<nat, Thread>): State
  {
    State(guard, latch, pid, None, network, stdin, Some(c), alive, c + 1, others[w := Thread(Waiter, pc, c, 0)])
  }

  /** Child `c` running under `w`, beside other threads. */
  function RunningBeside(guard: bool, latch: bool, c: nat, w: nat, others: map<nat, Thread>): State {
    var own := Some(c);
    State(guard, latch, own, own, own, own, own, {c}, c + 1, others[w := Thread(Waiter, TakeChild, 0, 0)])
  }

  /** One step of the waiter, whoever else is there. */
  lemma WaiterStep(states: seq<State>, labels: seq<Label>, from: State, at: State, w: nat, th: Thread, next: State)
    returns (ss: seq<State>, ls: seq<Label>)
    requires Leads(states, labels, from, at) && Enabled(at, Do(w))
    requires Perform(at, w) == next.(threads := at.threads[w := th]) && next.threads == at.threads[w := th]
    ensures Leads(ss, ls, from, next)
  {
    hide Leads, Enabled, Perform;
    ss, ls := AndThen(states, labels, from, at, Do(w), next);
  }

  lemma Overwritten(others: map<nat, Thread>, w: nat, a: Thread, b: Thread)
    ensures others[w := a][w := b] == others[w := b]
  {
  }

  /** Its child exits and is reaped. */
  lemma ChildReaped(guard: bool, latch: bool, c: nat, w: nat, others: map<nat, Thread>)
    returns (states: seq<State>, labels: seq<Label>)
    ensures Leads(states, labels, RunningBeside(guard, latch, c, w, others),
                  Waiting(guard, latch, c, w, TakeNetwork, Some(c), Some(c), Some(c), {}, others))
  {
    hide Leads;
    var own := Some(c);
    var s0, s1 := RunningBeside(guard, latch, c, w, others), Waiting(guard, latch, c, w, Reap, own, own, own, {c}, others);
    var s2 := Waiting(guard, latch, c, w, TakeNetwork, own, own, own, {}, others);
    states, labels := NoSteps(s0);
    Overwritten(others, w, s0.threads[w], s1.threads[w]);
    Overwritten(others, w, s1.threads[w], s2.threads[w]);
    states, labels := WaiterStep(states, labels, s0, s0, w, s1.threads[w], s1);
    states, labels := WaiterStep(states, labels, s0, s1, w, s2.threads[w], s2);
  }

  /** Then the waiter gets as far as giving up the pid. */
  lemma ResourcesReleased(guard: bool, latch: bool, c: nat, w: nat, others: map<nat, Thread>)
    returns (states: seq<State>, labels: seq<Label>)
    ensures Leads(states, labels, Waiting(guard, latch, c, w, TakeNetwork, Some(c), Some(c), Some(c), {}, others),
                  Waiting(guard, latch, c, w, TakeCgroup, None, None, None, {}, others))
  {
    hide Leads;
    var own := Some(c);
    var s0 := Waiting(guard, latch, c, w, TakeNetwork, own, own, own, {}, others);
    var s1 := Waiting(guard, latch, c, w, TakeStdin, own, None, own, {}, others);
    var s2 := Waiting(guard, latch, c, w, ClearPid, own, None, None, {}, others);
    var s3 := Waiting(guard, latch, c, w, TakeCgroup, None, None, None, {}, others);
    states, labels := NoSteps(s0);
    Overwritten(others, w, s0.threads[w], s1.threads[w]);
    Overwritten(others, w, s1.threads[w], s2.threads[w]);
    Overwritten(others, w, s2.threads[w], s3.threads[w]);
    states, labels := WaiterStep(states, labels, s0, s0, w, s1.threads[w], s1);
    states, labels := WaiterStep(states, labels, s0, s1, w, s2.threads[w], s2);
    states, labels := WaiterStep(states, labels, s0, s2, w, s3.threads[w], s3);
  }

  lemma ChildExits(guard: bool, latch: bool, c: nat, w: nat, others: map<nat, Thread>)
    returns (states: seq<State>, labels: seq<Label>)
    ensures Leads(states, labels, RunningBeside(guard, latch, c, w, others),
                  Waiting(guard, latch, c, w, TakeCgroup, None, None, None, {}, others))
  {
    hide Apply, Enabled;
    states, labels := ChildReaped(guard, latch, c, w, others);
    var b, lb := ResourcesReleased(guard, latch, c, w, others);
    states, labels := Joined(states, labels, b, lb);
  }

  // ---------------- Starts start, restarts restart ----------------

  /** The call of thread `t` is past its spawn: setting up its child, or done. */
  predicate PastSpawn(s: State, t: nat) {
    t in s.threads && s.threads[t].role != Stop && (Installing(s.threads[t].pc) || s.threads[t].pc == Release(true))
  }

  /** A step of one thread leaves the others alone, but for the waiter it forks. */
  lemma OtherThread(s: State, l: Label, t: nat)
    requires Enabled(s, l) && l.t != t && t in Apply(s, l).threads
    ensures (t in s.threads && Apply(s, l).threads[t] == s.threads[t])
            || (l.Fork? && l.w == t && t !in s.threads && Apply(s, l).threads[t] == Thread(Waiter, TakeChild, 0, 0))
  {
  }

  lemma RoleFact(s: State, t: nat)
    requires Inv(s) && t in s.threads
    ensures RoleFits(s.threads[t], s.stopping) && (Reaping(s.threads[t].pc) ==> s.threads[t].role == Waiter)
  {
    hide Inv;
    ThreadFact(s, t);
  }

  /** The thread's own access: to be past its spawn it must have been, or spawns now. */
  lemma PastSpawnDo(s: State, t: nat)
    requires Enabled(s, Do(t)) && RoleFits(s.threads[t], s.stopping) && PastSpawn(Perform(s, t), t)
    ensures (PastSpawn(s, t) && s.threads[t].child == Perform(s, t).threads[t].child)
            || (At(s, t, Spawn) && Perform(s, t).threads[t].child == s.next)
  {
  }

  lemma PastSpawnStep(s: State, l: Label, t: nat)
    requires Inv(s) && Enabled(s, l) && PastSpawn(Apply(s, l), t)
    ensures (PastSpawn(s, t) && s.threads[t].child == Apply(s, l).threads[t].child)
            || (l == Do(t) && At(s, t, Spawn) && Apply(s, l).threads[t].child == s.next)
  {
    hide Inv, Perform, RoleFits;
    if l.t != t {
      OtherThread(s, l, t);
    } else if l.Do? {
      RoleFact(s, t);
      PastSpawnDo(s, t);
    }
  }

  /** Whoever is past its spawn has spawned its child, and has held the guard ever since. */
  lemma {:induction false} SpawnedBefore(states: seq<State>, labels: seq<Label>, j: nat, t: nat) returns (k: nat)
    requires IsRun(states, labels) && Init(states[0]) && j < |states| && PastSpawn(states[j], t)
    ensures k < j && Does(states, labels, k, t, Spawn) && states[j].threads[t].child == states[k].next
    ensures forall m :: k <= m <= j ==> HoldsAt(states[m], t)
  {
    hide Inv, Apply, Enabled;
    InvAlways(states, labels, j - 1);
    assert StepAt(states, labels, j - 1);
    PastSpawnStep(states[j - 1], labels[j - 1], t);
    if PastSpawn(states[j - 1], t) {
      k := SpawnedBefore(states, labels, j - 1, t);
    } else {
      k := j - 1;
    }
  }

  /** In every run, a start, a restart or an automatic restart that returns success has
      itself spawned a process, the one it then set up, since it took the guard. */
  lemma SuccessSpawned(states: seq<State>, labels: seq<Label>, i: nat, t: nat) returns (a: nat, k: nat)
    requires IsRun(states, labels) && Init(states[0])
    requires Does(states, labels, i, t, Release(true)) && states[i].threads[t].role != Stop
    ensures a < k < i && Does(states, labels, a, t, Acquire) && Does(states, labels, k, t, Spawn)
    ensures forall m :: a < m <= i ==> HoldsAt(states[m], t)
    ensures states[i].threads[t].child == states[k].next && states[k].next in states[k + 1].alive
  {
    hide Inv, Apply, Enabled;
    k := SpawnedBefore(states, labels, i, t);
    a := LastAcquire(states, labels, k, t);
    assert StepAt(states, labels, k);
    SpawnAdds(states[k], t);
  }

  lemma SpawnAdds(s: State, t: nat)
    requires At(s, t, Spawn)
    ensures s.next in Apply(s, Do(t)).alive
  {
  }

  /** Whoever is inside the guard took it, and has been inside since. */
  lemma {:induction false} LastAcquire(states: seq<State>, labels: seq<Label>, j: nat, t: nat) returns (a: nat)
    requires IsRun(states, labels) && Init(states[0]) && j < |states| && HoldsAt(states[j], t)
    ensures a < j && Does(states, labels, a, t, Acquire)
    ensures forall m :: a < m <= j ==> HoldsAt(states[m], t)
  {
    hide Apply, Enabled;
    assert StepAt(states, labels, j - 1);
    if HoldsAt(states[j - 1], t) {
      a := LastAcquire(states, labels, j - 1, t);
    } else {
      AcquireStep(states[j - 1], labels[j - 1], t);
      a := j - 1;
    }
  }

  /** A restart's own steps up to the point where it waits for the old process. */
  lemma RestartLatches(c: nat, w: nat, t: nat) returns (states: seq<State>, labels: seq<Label>)
    requires t != w
    ensures IsRun(states, labels) && labels == [Call(t, Restart), Do(t), Do(t)] && states[0] == Running(c, w)
    ensures states[3] == RunningBeside(true, true, c, w, map[t := Thread(Restart, Poll, 0, 0)])
  {
    var s1 := RunningBeside(false, false, c, w, map[t := Thread(Restart, Acquire, 0, 0)]);
    var s2 := RunningBeside(true, false, c, w, map[t := Thread(Restart, Latch, 0, 0)]);
    var s3 := RunningBeside(true, true, c, w, map[t := Thread(Restart, Poll, 0, 0)]);
    states, labels := NoSteps(Running(c, w));
    assert s1.threads == states[0].threads[t := Thread(Restart, Acquire, 0, 0)];
    assert s2.threads == s1.threads[t := Thread(Restart, Latch, 0, 0)];
    assert s3.threads == s2.threads[t := Thread(Restart, Poll, 0, 0)];
    states, labels := Then(states, labels, Call(t, Restart));
    assert states[1] == s1;
    states, labels := Then(states, labels, Do(t));
    assert states[2] == s2;
    states, labels := Then(states, labels, Do(t));
  }

  /** The old waiter leaves. */
  lemma OldWaiterLeaves(c: nat, w: nat, others: map<nat, Thread>) returns (states: seq<State>, labels: seq<Label>)
    requires w !in others
    ensures Leads(states, labels, Waiting(true, true, c, w, TakeCgroup, None, None, None, {}, others),
                  State(true, true, None, None, None, None, None, {}, c + 1, others))
  {
    hide Leads;
    var s0 := Waiting(true, true, c, w, TakeCgroup, None, None, None, {}, others);
    var s1 := s0.(cgroup := None, threads := others[w := Thread(Waiter, Decide, c, 0)]);
    var s2 := s1.(threads := others);
    Overwritten(others, w, s0.threads[w], s1.threads[w]);
    assert s1.threads - {w} == others;
    states, labels := NoSteps(s0);
    states, labels := AndThen(states, labels, s0, s0, Do(w), s1);
    states, labels := AndThen(states, labels, s0, s1, Settle(w, true), s2);
  }

  /** The restart goes on to its spawn. */
  lemma RestartReachesSpawn(c: nat, t: nat) returns (states: seq<State>, labels: seq<Label>)
    ensures Leads(states, labels,
                  State(true, true, None, None, None, None, None, {}, c + 1, map[t := Thread(Restart, Poll, 0, 0)]),
                  Spawning(c + 1, Thread(Restart, Spawn, 0, 0), t))
  {
    hide Leads;
    var s0 := State(true, true, None, None, None, None, None, {}, c + 1, map[t := Thread(Restart, Poll, 0, 0)]);
    var s1 := s0.(threads := map[t := Thread(Restart, ClearLatch, 0, 0)]);
    var s2 := s0.(stopping := false, threads := map[t := Thread(Restart, CheckPid, 0, 0)]);
    states, labels := NoSteps(s0);
    states, labels := AndThen(states, labels, s0, s0, Do(t), s1);
    states, labels := AndThen(states, labels, s0, s1, Do(t), s2);
    states, labels := AndThen(states, labels, s0, s2, Do(t), Spawning(c + 1, Thread(Restart, Spawn, 0, 0), t));
  }

  /** An undisturbed restart of a running server: the old process ends, a new one runs
      under a new waiter, the latch is clear and the guard free. */
  lemma RestartRuns(c: nat, w: nat, t: nat, w': nat) returns (states: seq<State>, labels: seq<Label>)
    requires t != w && t != w'
    ensures IsRun(states, labels) && states[0] == Running(c, w) && states[|labels|] == Running(c + 1, w')
    ensures OneCall(labels, t, Restart)
  {
    hide Apply, Enabled;
    states, labels := RestartLatches(c, w, t);
    var b, lb := ChildExits(true, true, c, w, map[t := Thread(Restart, Poll, 0, 0)]);
    states, labels := Joined(states, labels, b, lb);
    b, lb := OldWaiterLeaves(c, w, map[t := Thread(Restart, Poll, 0, 0)]);
    states, labels := Joined(states, labels, b, lb);
    b, lb := RestartReachesSpawn(c, t);
    states, labels := Joined(states, labels, b, lb);
    b, lb := SpawnRuns(c + 1, Thread(Restart, Spawn, 0, 0), t, w');
    states, labels := Joined(states, labels, b, lb);
  }

  /** An undisturbed automatic restart after an exit nobody asked for. */
  lemma AutoRestartRuns(c: nat, w: nat, w': nat) returns (states: seq<State>, labels: seq<Label>)
    requires w != w'
    ensures Leads(states, labels, Running(c, w), Running(c + 1, w'))
  {
    hide Apply, Enabled;
    assert Running(c, w) == RunningBeside(false, false, c, w, map[]);
    states, labels := ChildExits(false, false, c, w, map[]);
    var b, lb := WaiterBacksOff(c, w);
    states, labels := Joined(states, labels, b, lb);
    b, lb := AttemptReachesGuard(c, w);
    states, labels := Joined(states, labels, b, lb);
    b, lb := GuardReachesSpawn(c, w);
    states, labels := Joined(states, labels, b, lb);
    b, lb := SpawnRuns(c + 1, Thread(Waiter, Spawn, c, 1), w, w');
    states, labels := Joined(states, labels, b, lb);
  }

  /** A server with nothing running, one thread on it. */
  function Alone(guard: bool, next: nat, t: nat, th: Thread): State {
    State(guard, false, None, None, None, None, None, {}, next, map[t := th])
  }

  lemma WaiterBacksOff(c: nat, w: nat) returns (states: seq<State>, labels: seq<Label>)
    ensures Leads(states, labels, Waiting(false, false, c, w, TakeCgroup, None, None, None, {}, map[]),
                  Alone(false, c + 1, w, Thread(Waiter, BackoffLatch, c, 1)))
  {
    hide Leads;
    var s0 := Waiting(false, false, c, w, TakeCgroup, None, None, None, {}, map[]);
    var s1 := Alone(false, c + 1, w, Thread(Waiter, Decide, c, 0));
    states, labels := NoSteps(s0);
    states, labels := AndThen(states, labels, s0, s0, Do(w), s1);
    states, labels := AndThen(states, labels, s0, s1, Settle(w, true), Alone(false, c + 1, w, Thread(Waiter, BackoffLatch, c, 1)));
  }

  lemma AttemptReachesGuard(c: nat, w: nat) returns (states: seq<State>, labels: seq<Label>)
    ensures Leads(states, labels, Alone(false, c + 1, w, Thread(Waiter, BackoffLatch, c, 1)),
                  Alone(true, c + 1, w, Thread(Waiter, CheckLatch, c, 1)))
  {
    hide Leads;
    var th := Thread(Waiter, BackoffLatch, c, 1);
    var s0, s1 := Alone(false, c + 1, w, th), Alone(false, c + 1, w, th.(pc := BackoffPid));
    var s2, s3 := Alone(false, c + 1, w, th.(pc := Acquire)), Alone(true, c + 1, w, th.(pc := CheckLatch));
    states, labels := NoSteps(s0);
    states, labels := AndThen(states, labels, s0, s0, Do(w), s1);
    states, labels := AndThen(states, labels, s0, s1, Do(w), s2);
    states, labels := AndThen(states, labels, s0, s2, Do(w), s3);
  }

  lemma GuardReachesSpawn(c: nat, w: nat) returns (states: seq<State>, labels: seq<Label>)
    ensures Leads(states, labels, Alone(true, c + 1, w, Thread(Waiter, CheckLatch, c, 1)),
                  Spawning(c + 1, Thread(Waiter, Spawn, c, 1), w))
  {
    hide Leads;
    var th := Thread(Waiter, CheckLatch, c, 1);
    var s0, s1 := Alone(true, c + 1, w, th), Alone(true, c + 1, w, th.(pc := CheckPid));
    states, labels := NoSteps(s0);
    states, labels := AndThen(states, labels, s0, s0, Do(w), s1);
    states, labels := AndThen(states, labels, s0, s1, Do(w), Spawning(c + 1, th, w));
  }

  // ---------------- Automatic restarts give up ----------------

  /** Step `k` is an attempt of `t` to start: it takes the guard, or finds it taken. */
  ghost predicate Tries(states: seq<State>, labels: seq<Label>, k: nat, t: nat)
    requires IsRun(states, labels) && k < |labels|
  {
    labels[k] == Refused(t) || Does(states, labels, k, t, Acquire)
  }

  ghost function Attempts(states: seq<State>, labels: seq<Label>, i: nat, j: nat, t: nat): nat
    requires IsRun(states, labels) && i <= j <= |labels|
    decreases j
  {
    if i == j then 0 else Attempts(states, labels, i, j - 1, t) + (if Tries(states, labels, j - 1, t) then 1 else 0)
  }

  /** Not yet decided whether to restart at all. */
  predicate Early(pc: Pc) {
    Reaping(pc) || pc in {TakeCgroup, Decide}
  }

  /** What a waiter has counted: the current attempt only once it has been made. */
  function Counted(th: Thread): int {
    if Early(th.pc) then 0 else if th.pc in {BackoffLatch, BackoffPid, Acquire} then th.attempts - 1 else th.attempts
  }

  lemma AttemptDoEarly(s: State, t: nat)
    requires Enabled(s, Do(t)) && t in Perform(s, t).threads && s.threads[t].role == Waiter && Early(s.threads[t].pc)
    ensures var th := Perform(s, t).threads[t];
            th.role == Waiter && Early(th.pc)
  {
  }

  lemma AttemptDoLate(s: State, t: nat)
    requires Enabled(s, Do(t)) && t in Perform(s, t).threads && s.threads[t].role == Waiter && !Early(s.threads[t].pc)
    requires s.threads[t].pc !in {Latch, Poll, ClearLatch}
    ensures var th := Perform(s, t).threads[t];
            && th.role == Waiter
            && Counted(th) == Counted(s.threads[t]) + (if At(s, t, Acquire) then 1 else 0)
  {
    if s.threads[t].pc.Release? {
      ReleaseCounts(s, t);
    }
  }

  lemma ReleaseCounts(s: State, t: nat)
    requires t in s.threads && s.threads[t].pc.Release? && s.threads[t].role == Waiter && t in Perform(s, t).threads
    ensures Perform(s, t).threads[t].role == Waiter && Counted(Perform(s, t).threads[t]) == Counted(s.threads[t])
  {
  }

  lemma AttemptStep(s: State, l: Label, t: nat)
    requires Inv(s) && Enabled(s, l) && t in s.threads && t in Apply(s, l).threads && s.threads[t].role == Waiter
    ensures var tries := l == Refused(t) || (l == Do(t) && At(s, t, Acquire));
            var th := Apply(s, l).threads[t];
            && th.role == Waiter && Counted(th) == Counted(s.threads[t]) + (if tries then 1 else 0)
  {
    hide Inv, Perform;
    RoleFact(s, t);
    if l.t != t {
      OtherThread(s, l, t);
    } else if l.Do? {
      if Early(s.threads[t].pc) {
        AttemptDoEarly(s, t);
        EarlyCountsNothing(s.threads[t]);
        EarlyCountsNothing(Apply(s, l).threads[t]);
      } else {
        AttemptDoLate(s, t);
      }
    }
  }

  /** The attempts of a waiter since its fork are the ones it has counted. */
  lemma {:induction false} AttemptsCounted(states: seq<State>, labels: seq<Label>, i: nat, j: nat, t: nat)
    requires IsRun(states, labels) && Init(states[0]) && i <= j < |states|
    requires forall m :: i <= m <= j ==> t in states[m].threads
    requires states[i].threads[t].role == Waiter && Early(states[i].threads[t].pc)
    ensures states[j].threads[t].role == Waiter
    ensures Attempts(states, labels, i, j, t) == Counted(states[j].threads[t])
  {
    hide Inv, Apply, Enabled, Counted, Early;
    if i == j {
      assert Counted(states[i].threads[t]) == 0 by { EarlyCountsNothing(states[i].threads[t]); }
    } else {
      AttemptsCounted(states, labels, i, j - 1, t);
      InvAlways(states, labels, j - 1);
      assert StepAt(states, labels, j - 1);
      AttemptStep(states[j - 1], labels[j - 1], t);
    }
  }

  lemma EarlyCountsNothing(th: Thread)
    requires Early(th.pc)
    ensures Counted(th) == 0
  {
  }

  /** A waiter makes at most ten attempts to start its server again, and it gives up after a
      failed one only when it has made all ten. */
  lemma GivesUpExactly(states: seq<State>, labels: seq<Label>, i: nat, j: nat, t: nat)
    requires IsRun(states, labels) && Init(states[0]) && i <= j < |labels|
    requires forall m :: i <= m <= j ==> t in states[m].threads
    requires states[i].threads[t].role == Waiter && Early(states[i].threads[t].pc)
    ensures Attempts(states, labels, i, j + 1, t) <= MAX_AUTO_RESTART_ATTEMPTS
    ensures t !in states[j + 1].threads && (labels[j] == Refused(t) || Does(states, labels, j, t, Release(false))) ==>
              Attempts(states, labels, i, j + 1, t) == MAX_AUTO_RESTART_ATTEMPTS
  {
    hide Inv, Attempts;
    AttemptsCounted(states, labels, i, j, t);
    AttemptsNext(states, labels, i, j, t);
    InvAlways(states, labels, j);
    ThreadFact(states[j], t);
    assert StepAt(states, labels, j);
  }

  lemma AttemptsNext(states: seq<State>, labels: seq<Label>, i: nat, j: nat, t: nat)
    requires IsRun(states, labels) && i <= j < |labels|
    ensures Attempts(states, labels, i, j + 1, t) == Attempts(states, labels, i, j, t) + (if Tries(states, labels, j, t) then 1 else 0)
  {
  }

  // ---------------- Automatic restarts look first ----------------

  /** The waiter is on its way to an attempt, having looked at the latch, or also the pid. */
  predicate Looked(s: State, t: nat) {
    t in s.threads && s.threads[t].role == Waiter && s.threads[t].pc in {BackoffPid, Acquire}
  }

  lemma LookedStep(s: State, l: Label, t: nat)
    requires Enabled(s, l) && Looked(Apply(s, l), t)
    ensures Looked(s, t) || (l == Do(t) && At(s, t, BackoffLatch) && !s.stopping)
    ensures At(Apply(s, l), t, Acquire) ==> At(s, t, Acquire) || (l == Do(t) && At(s, t, BackoffPid) && s.pid.None?)
    ensures At(Apply(s, l), t, BackoffPid) ==> At(s, t, BackoffPid) || (l == Do(t) && At(s, t, BackoffLatch) && !s.stopping)
  {
    hide Perform;
    if l.t != t {
      OtherThread(s, l, t);
    } else if l.Do? {
      LookedDo(s, t);
    }
  }

  lemma LookedDo(s: State, t: nat)
    requires Enabled(s, Do(t)) && Looked(Perform(s, t), t)
    ensures s.threads[t].role == Waiter
    ensures At(Perform(s, t), t, Acquire) ==> At(s, t, BackoffPid) && s.pid.None?
    ensures At(Perform(s, t), t, BackoffPid) ==> At(s, t, BackoffLatch) && !s.stopping
  {
  }

  lemma {:induction false} LookedBefore(states: seq<State>, labels: seq<Label>, j: nat, t: nat) returns (a: nat)
    requires IsRun(states, labels) && Init(states[0]) && j < |states| && Looked(states[j], t)
    ensures a < j && Does(states, labels, a, t, BackoffLatch) && !states[a].stopping
    ensures At(states[j], t, Acquire) ==>
              exists b :: a < b < j && Does(states, labels, b, t, BackoffPid) && states[b].pid.None?
  {
    hide Apply, Enabled;
    assert StepAt(states, labels, j - 1);
    LookedStep(states[j - 1], labels[j - 1], t);
    if Looked(states[j - 1], t) {
      a := LookedBefore(states, labels, j - 1, t);
      if At(states[j], t, Acquire) && At(states[j - 1], t, BackoffPid) {
        assert Does(states, labels, j - 1, t, BackoffPid);
      }
    } else {
      a := j - 1;
    }
  }

  /** In every run, before each of its attempts a waiter has found the latch clear and, after
      that, no process published. */
  lemma AttemptLooksFirst(states: seq<State>, labels: seq<Label>, j: nat, t: nat) returns (a: nat)
    requires IsRun(states, labels) && Init(states[0]) && j < |labels| && Tries(states, labels, j, t)
    requires t in states[j].threads && states[j].threads[t].role == Waiter
    ensures a < j && Does(states, labels, a, t, BackoffLatch) && !states[a].stopping
    ensures exists b :: a < b < j && Does(states, labels, b, t, BackoffPid) && states[b].pid.None?
  {
    assert StepAt(states, labels, j);
    a := LookedBefore(states, labels, j, t);
  }

  /** The whole history, from a server that never ran: a start, an exit, a second start in
      the window, and the first waiter takes the second child's cgroup. */
  lemma ForeignCgroupReachable(next: nat, t: nat, w: nat, u: nat) returns (states: seq<State>, labels: seq<Label>)
    requires t != w && u != w
    ensures IsRun(states, labels) && Init(states[0]) && |labels| > 0
    ensures var s := states[|labels|];
            && At(s, w, TakeCgroup) && Enabled(s, Do(w))
            && s.cgroup.Some? && s.cgroup.value in s.alive && Foreign(s, s.threads[w].child)
  {
    hide Enabled, Apply;
    states, labels := FirstStart(next, t, w);
    assert Running(next, w) == RunningBeside(false, false, next, w, map[]);
    var b, lb := ChildExits(false, false, next, w, map[]);
    states, labels := Joined(states, labels, b, lb);
    var s := states[|labels|];
    InvAlways(states, labels, |labels|);
    b, lb := StartSlipsIn(s, w, u);
    states, labels := Joined(states, labels, b, lb);
  }
}
