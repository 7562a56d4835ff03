/** Whole-run results about restore and boot recovery. */
module SwapTheorems {
  import opened DirNames
  import opened SwapMachine
  import opened SwapProofs
  import opened BootRecovery

  lemma {:induction false} InvAlways(states: seq<State>, labels: seq<Label>, i: nat)
    requires IsRun(states, labels) && Init(states[0]) && i < |states|
    ensures Inv(states[i])
  {
    hide Apply, Enabled;
    if i > 0 {
      InvAlways(states, labels, i - 1);
      assert StepAt(states, labels, i - 1);
      StepKeeps(states[i - 1], labels[i - 1]);
    }
  }

  /** The steps at which a restore takes effect: the exchange, the second rename of the
      fallback, and the rename onto a missing live directory. */
  predicate TakesEffect(l: Label, u: string) {
    l == Exchange(u) || l == MoveIn(u) || l == Install(u)
  }

  lemma PrefixIsRun(states: seq<State>, labels: seq<Label>, n: nat)
    requires IsRun(states, labels) && n <= |labels|
    ensures IsRun(states[..n + 1], labels[..n])
  {
    var ss, ls := states[..n + 1], labels[..n];
    forall i | 0 <= i < |ls| ensures StepAt(ss, ls, i) { assert StepAt(states, labels, i); }
  }

  /** The content the last restore of `u` that took effect put in place. */
  ghost function LastEffect(states: seq<State>, labels: seq<Label>, u: string, first: Content): Content
    requires IsRun(states, labels)
  {
    if labels == [] then first
    else
      var n := |labels| - 1;
      assert StepAt(states, labels, n);
      PrefixIsRun(states, labels, n);
      if TakesEffect(labels[n], u) then states[n].tasks[u].archive
      else LastEffect(states[..n + 1], labels[..n], u, first)
  }

  lemma CommitStep(s: State, l: Label, u: string)
    requires Enabled(s, l) && Hyphenated(u) && u in s.committed
    ensures TakesEffect(l, u) ==> u in s.tasks
    ensures u in Apply(s, l).committed
    ensures Apply(s, l).committed[u] == if TakesEffect(l, u) then s.tasks[u].archive else s.committed[u]
  {
  }

  lemma {:induction false} CommittedIsLastEffect(states: seq<State>, labels: seq<Label>, u: string)
    requires IsRun(states, labels) && Init(states[0])
    requires u in states[0].committed
    ensures u in states[|labels|].committed
    ensures states[|labels|].committed[u] == LastEffect(states, labels, u, states[0].committed[u])
  {
    if labels != [] {
      var n := |labels| - 1;
      assert StepAt(states, labels, n);
      PrefixIsRun(states, labels, n);
      CommittedIsLastEffect(states[..n + 1], labels[..n], u);
      assert Hyphenated(u);
      assert states[..n + 1][n] == states[n];
      CommitStep(states[n], labels[n], u);
    }
  }

  /** Crash safety. Whatever interleaving of restores, failures, crashes and partial
      recoveries led here, once the agent serves again a server with no restore in
      flight is there, whole, with exactly the content of the last restore of it that
      took effect, or with its first content when none did. */
  lemma CrashSafety(states: seq<State>, labels: seq<Label>, u: string)
    requires IsRun(states, labels) && Init(states[0])
    requires u in states[0].committed
    requires states[|labels|].mode.Serving? && !InPhase(states[|labels|], u, Vacated)
    ensures u in states[|labels|].dir
    ensures states[|labels|].dir[u] == Dir(LastEffect(states, labels, u, states[0].committed[u]))
  {
    InvAlways(states, labels, |labels|);
    CommittedIsLastEffect(states, labels, u);
    assert InPlace(states[|labels|].dir, states[|labels|].committed, u);
  }

  /** On the exchange path the live directory is never absent, not even in passing. */
  lemma NeverAbsentWithoutFallback(states: seq<State>, labels: seq<Label>, u: string, i: nat)
    requires IsRun(states, labels) && Init(states[0]) && i < |states|
    requires u in states[0].committed
    requires forall j :: 0 <= j < |labels| ==> labels[j] != Fallback(u)
    ensures u in states[i].dir && states[i].dir[u].Dir?
  {
    NoFallbackPhase(states, labels, u, i);
  }

  predicate OffFallback(s: State, u: string) {
    u in s.tasks ==> s.tasks[u].phase in {Extracting, Ready, Cleaning}
  }

  lemma OffFallbackStep(s: State, l: Label, u: string)
    requires Enabled(s, l) && l != Fallback(u) && OffFallback(s, u)
    ensures OffFallback(Apply(s, l), u)
  {
  }

  /** While no recovery pass is at work, the invariant itself puts the server in place. */
  lemma InPlaceStep(s: State, l: Label, u: string)
    requires Enabled(s, l) && Inv(Apply(s, l)) && ValidUuid(u) && u in s.committed
    requires InPlace(s.dir, s.committed, u) && OffFallback(Apply(s, l), u)
    ensures u in Apply(s, l).committed && InPlace(Apply(s, l).dir, Apply(s, l).committed, u)
  {
    KindsApart(u);
    if Apply(s, l).mode.Restoring? {
      assert l.RestoreOne? || l.Crash?;
    }
  }

  lemma {:induction false} NoFallbackPhase(states: seq<State>, labels: seq<Label>, u: string, i: nat)
    requires IsRun(states, labels) && Init(states[0]) && i < |states|
    requires u in states[0].committed
    requires forall j :: 0 <= j < |labels| ==> labels[j] != Fallback(u)
    ensures OffFallback(states[i], u)
    ensures u in states[i].committed && InPlace(states[i].dir, states[i].committed, u)
  {
    hide Apply, Enabled, Inv;
    if i > 0 {
      NoFallbackPhase(states, labels, u, i - 1);
      InvAlways(states, labels, i);
      assert StepAt(states, labels, i - 1);
      OffFallbackStep(states[i - 1], labels[i - 1], u);
      InPlaceStep(states[i - 1], labels[i - 1], u);
    }
  }

  /** Every content a restore can install was the archive of a restore that began. */
  lemma {:induction false} ArchiveWasBegun(states: seq<State>, labels: seq<Label>, u: string, i: nat)
    requires IsRun(states, labels) && Init(states[0]) && i < |states|
    requires u in states[i].tasks
    ensures exists j :: 0 <= j < i && labels[j].Begin? && labels[j].u == u && labels[j].archive == states[i].tasks[u].archive
  {
    var l := labels[i - 1];
    assert StepAt(states, labels, i - 1);
    if !(l.Begin? && l.u == u) { ArchiveWasBegun(states, labels, u, i - 1); }
  }

  lemma {:induction false} LastEffectOrigin(states: seq<State>, labels: seq<Label>, u: string, first: Content)
    requires IsRun(states, labels) && Init(states[0])
    ensures LastEffect(states, labels, u, first) == first
            || exists j :: 0 <= j < |labels| && labels[j].Begin? && labels[j].u == u
                           && labels[j].archive == LastEffect(states, labels, u, first)
  {
    if labels != [] {
      var n := |labels| - 1;
      assert StepAt(states, labels, n);
      PrefixIsRun(states, labels, n);
      if TakesEffect(labels[n], u) {
        ArchiveWasBegun(states, labels, u, n);
      } else {
        LastEffectOrigin(states[..n + 1], labels[..n], u, first);
      }
    }
  }

  /** The same without any bookkeeping: exactly the old content, or the whole content of
      an archive somebody asked to restore. */
  lemma OldOrWholeArchive(states: seq<State>, labels: seq<Label>, u: string)
    requires IsRun(states, labels) && Init(states[0])
    requires u in states[0].committed
    requires states[|labels|].mode.Serving? && states[|labels|].tasks == map[]
    ensures u in states[|labels|].dir && states[|labels|].dir[u].Dir?
    ensures var files := states[|labels|].dir[u].files;
            || files == states[0].committed[u]
            || exists j :: 0 <= j < |labels| && labels[j].Begin? && labels[j].u == u && labels[j].archive == files
  {
    CrashSafety(states, labels, u);
    LastEffectOrigin(states, labels, u, states[0].committed[u]);
  }

  // ---------------- The dash decides the crash window ----------------

  predicate BootLabel(l: Label) {
    l.Crash? || l.RestoreOne? || l.RestoreDone? || l.SweepFile? || l.SweepEntry? || l.SweepSkip? || l.SweepDone?
  }

  ghost predicate Placed(d: Listing, u: string, files: Content) {
    u in d && d[u] == Dir(files)
  }

  /** What boot can know of a server caught between the two renames. */
  ghost predicate Window(s: State, u: string, files: Content) {
    if Hyphenated(u) then
      || Placed(s.dir, u, files)
      || (s.mode.Restoring? && u !in s.dir && Placed(s.dir, AsideOf(u), files) && AsideOf(u) in s.mode.todo)
    else
      u !in s.dir && Placed(s.dir, AsideOf(u), files)
  }

  lemma WindowStep(s: State, l: Label, u: string, files: Content)
    requires ValidUuid(u) && BootLabel(l) && Enabled(s, l) && !s.mode.Serving?
    requires Window(s, u, files)
    ensures Window(Apply(s, l), u, files)
  {
    KindsApart(u);
    KindsApart(AsideOf(u));
    if l.RestoreOne? {
      AsideOfTarget(l.name);
      KindsApart(l.name);
    }
  }

  lemma {:induction false} WindowThroughBoot(states: seq<State>, labels: seq<Label>, u: string, files: Content, i: nat)
    requires IsRun(states, labels) && 0 < i < |states| && labels[0] == Crash
    requires forall j :: 0 <= j < |labels| ==> BootLabel(labels[j])
    requires forall j :: 0 < j < |labels| ==> !states[j].mode.Serving?
    requires ValidUuid(u) && u !in states[0].dir && Placed(states[0].dir, AsideOf(u), files)
    ensures Window(states[i], u, files)
  {
    assert StepAt(states, labels, i - 1);
    if i > 1 {
      WindowThroughBoot(states, labels, u, files, i - 1);
      WindowStep(states[i - 1], labels[i - 1], u, files);
    }
  }

  /** A crash between the two renames of the fallback: the next completed boot puts the
      old content back under the live name exactly when that name has a dash. Without
      one it stays aside, whole, and the live name stays missing. */
  lemma WindowOutcome(states: seq<State>, labels: seq<Label>, u: string, files: Content)
    requires IsRun(states, labels) && |labels| > 0 && labels[0] == Crash
    requires forall j :: 0 <= j < |labels| ==> BootLabel(labels[j])
    requires forall j :: 0 < j < |labels| ==> !states[j].mode.Serving?
    requires states[|labels|].mode.Serving?
    requires ValidUuid(u) && u !in states[0].dir && Placed(states[0].dir, AsideOf(u), files)
    ensures Placed(states[|labels|].dir, u, files) <==> Hyphenated(u)
    ensures !Hyphenated(u) ==> u !in states[|labels|].dir && Placed(states[|labels|].dir, AsideOf(u), files)
  {
    WindowThroughBoot(states, labels, u, files, |labels|);
  }

  // ---------------- Nested asides need two boots ----------------

  /** What one boot makes of an aside of an aside: it uncovers the inner one, which it had
      not collected and so does not restore. */
  ghost predicate Uncovering(s: State, u: string, files: Content) {
    var inner, outer := AsideOf(u), AsideOf(AsideOf(u));
    && u !in s.dir
    && (s.mode.Restoring? ==> inner !in s.mode.todo)
    && (|| Placed(s.dir, inner, files)
        || (s.mode.Restoring? && inner !in s.dir && Placed(s.dir, outer, files) && outer in s.mode.todo))
  }

  lemma UncoveringStep(s: State, l: Label, u: string, files: Content)
    requires ValidUuid(u) && BootLabel(l) && !l.Crash? && Enabled(s, l) && !s.mode.Serving?
    requires Uncovering(s, u, files)
    ensures Uncovering(Apply(s, l), u, files)
  {
    NestedNames(u);
    if l.RestoreOne? {
      UncoveringRestore(s, l, u, files);
    } else {
      hide RestoreAside, ValidUuid;
    }
  }

  lemma UncoveringRestore(s: State, l: Label, u: string, files: Content)
    requires ValidUuid(u) && Enabled(s, l) && l.RestoreOne? && Uncovering(s, u, files)
    ensures Uncovering(Apply(s, l), u, files)
  {
    var inner, outer := AsideOf(u), AsideOf(AsideOf(u));
    var n, target := l.name, TargetOf(l.name);
    NestedNames(u);
    AsideOfTarget(n);
    assert n != inner && target != u && (target == inner <==> n == outer);
    UncoveringRename(s.dir, u, inner, outer, n, target, files);
  }

  /** The same about names alone. */
  lemma UncoveringRename(d: Listing, u: string, inner: string, outer: string, n: string, target: string, files: Content)
    requires u !in d && n != inner && target != u && (target == inner <==> n == outer) && inner != outer
    requires Placed(d, inner, files) || (inner !in d && Placed(d, outer, files))
    ensures var d' := if n in d && target !in d then Rename(d, n, target) else d;
            u !in d' && (Placed(d, inner, files) || n == outer ==> Placed(d', inner, files))
            && (n != outer && inner !in d ==> inner !in d' && Placed(d', outer, files))
  {
  }

  lemma {:induction false} UncoveringThroughBoot(states: seq<State>, labels: seq<Label>, u: string, files: Content, i: nat)
    requires IsRun(states, labels) && 0 < i < |states| && labels[0] == Crash
    requires forall j :: 0 < j < |labels| ==> BootLabel(labels[j]) && !labels[j].Crash? && !states[j].mode.Serving?
    requires ValidUuid(u) && u !in states[0].dir && AsideOf(u) !in states[0].dir
    requires Placed(states[0].dir, AsideOf(AsideOf(u)), files)
    ensures Uncovering(states[i], u, files)
  {
    assert StepAt(states, labels, i - 1);
    if i > 1 {
      UncoveringThroughBoot(states, labels, u, files, i - 1);
      UncoveringStep(states[i - 1], labels[i - 1], u, files);
    }
  }

  /** Nested asides, which the agent never writes, are where a second boot still acts. In
      whatever order the names are read, an uninterrupted boot that finds a server and its
      aside missing and the aside of that aside in place ends serving with the server still
      missing and its aside uncovered; any later boot, interrupted as often as may be, then
      puts the server back. */
  lemma NestedAsideNeedsTwoBoots(
    first: seq<State>, boot: seq<Label>, second: seq<State>, again: seq<Label>, u: string, files: Content)
    requires IsRun(first, boot) && |boot| > 0 && boot[0] == Crash && first[|boot|].mode.Serving?
    requires forall j :: 0 < j < |boot| ==> BootLabel(boot[j]) && !boot[j].Crash? && !first[j].mode.Serving?
    requires IsRun(second, again) && |again| > 0 && again[0] == Crash && second[|again|].mode.Serving?
    requires forall j :: 0 <= j < |again| ==> BootLabel(again[j])
    requires forall j :: 0 < j < |again| ==> !second[j].mode.Serving?
    requires second[0] == first[|boot|]
    requires ValidUuid(u) && Hyphenated(u) && u !in first[0].dir && AsideOf(u) !in first[0].dir
    requires Placed(first[0].dir, AsideOf(AsideOf(u)), files)
    ensures u !in first[|boot|].dir && Placed(first[|boot|].dir, AsideOf(u), files)
    ensures Placed(second[|again|].dir, u, files)
  {
    UncoveringThroughBoot(first, boot, u, files, |boot|);
    WindowOutcome(second, again, u, files);
  }

  lemma Append(states: seq<State>, labels: seq<Label>, l: Label, s': State)
    requires IsRun(states, labels) && Enabled(states[|labels|], l) && s' == Apply(states[|labels|], l)
    ensures IsRun(states + [s'], labels + [l])
  {
    forall i | 0 <= i < |labels| + 1 ensures StepAt(states + [s'], labels + [l], i) {
      if i < |labels| { assert StepAt(states, labels, i); }
    }
  }

  /** A restore of an empty archive up to the point where the fallback may rename. */
  lemma FallbackReachable(u: string, nonce: string, first: Content) returns (states: seq<State>, labels: seq<Label>)
    requires ValidUuid(u) && SimpleUuid(nonce)
    ensures IsRun(states, labels) && |labels| == 3
    ensures states[0].dir == map[u := Dir(first)] && states[0].mode.Serving? && states[0].tasks == map[]
    ensures var at := StagingOf(u, nonce);
            states[3] == State(map[u := Dir(first), at := Dir(map[])], map[u := Task(at, map[], Reclaiming)], Serving, map[])
  {
    KindsApart(u);
    var at := StagingOf(u, nonce);
    var d: Listing := map[u := Dir(first), at := Dir(map[])];
    var s0 := State(map[u := Dir(first)], map[], Serving, map[]);
    var s1 := State(d, map[u := Task(at, map[], Extracting)], Serving, map[]);
    var s2 := State(d, map[u := Task(at, map[], Ready)], Serving, map[]);
    var s3 := State(d, map[u := Task(at, map[], Reclaiming)], Serving, map[]);
    states, labels := [s0], [];
    Append(states, labels, Begin(u, nonce, map[]), s1);
    states, labels := states + [s1], labels + [Begin(u, nonce, map[])];
    Append(states, labels, Verified(u), s2);
    states, labels := states + [s2], labels + [Verified(u)];
    Append(states, labels, Fallback(u), s3);
    states, labels := states + [s3], labels + [Fallback(u)];
  }

  /** Any valid name can be caught in that window, so the dash is not a formality:
      `validate_uuid` lets names without one through. */
  lemma WindowReachable(u: string, nonce: string, first: Content) returns (states: seq<State>, labels: seq<Label>)
    requires ValidUuid(u) && SimpleUuid(nonce)
    ensures IsRun(states, labels) && |labels| == 4
    ensures states[0].dir == map[u := Dir(first)] && states[0].mode.Serving? && states[0].tasks == map[]
    ensures u !in states[4].dir && Placed(states[4].dir, AsideOf(u), first)
  {
    KindsApart(u);
    KindsApart(AsideOf(u));
    states, labels := FallbackReachable(u, nonce, first);
    var s3 := states[3];
    assert AsideOf(u) !in s3.dir && u in s3.dir;
    var s4 := Apply(s3, MoveAside(u));
    Append(states, labels, MoveAside(u), s4);
    states, labels := states + [s4], labels + [MoveAside(u)];
  }

  lemma UndashedNameExists()
    ensures ValidUuid("db_1") && !Hyphenated("db_1")
  {
  }

  // ---------------- Every directory the agent leads to is plain ----------------

  lemma PlainStep(s: State, l: Label)
    requires Inv(s) && Enabled(s, l) && Plain(s.dir)
    ensures Plain(Apply(s, l).dir)
  {
    var d' := Apply(s, l).dir;
    forall n | n in d' && IsAside(n)
      ensures var t := TargetOf(n); !IsAside(t) && !IsStaging(t) && !IsProbe(t)
    {
      if n !in s.dir {
        KindsApart(n);
        NewAside(s, l, n);
        KindsApart(TargetOf(n));
      }
    }
  }

  /** The only step that creates an aside is the first rename of the fallback. */
  lemma NewAside(s: State, l: Label, n: string)
    requires Inv(s) && Enabled(s, l) && Plain(s.dir)
    requires IsAside(n) && n !in s.dir && n in Apply(s, l).dir
    ensures l.MoveAside? && ValidUuid(TargetOf(n)) && n == AsideOf(l.u)
  {
    hide Inv;
    KindsApart(n);
    if OfRestore(l) {
      var nonce := NonceExists(s, l);
      OwnServerKept(s, l, nonce);
      KindsApart(l.u);
      assert n in Footprint(l.u, StagingOf(l.u, nonce));
      assert n == AsideOf(l.u);
    }
  }

  lemma {:induction false} PlainAlways(states: seq<State>, labels: seq<Label>, i: nat)
    requires IsRun(states, labels) && Init(states[0]) && Plain(states[0].dir) && i < |states|
    ensures Plain(states[i].dir)
  {
    if i > 0 {
      PlainAlways(states, labels, i - 1);
      InvAlways(states, labels, i - 1);
      assert StepAt(states, labels, i - 1);
      PlainStep(states[i - 1], labels[i - 1]);
    }
  }

  /** From any directory the agent can be in when it dies, booting twice is booting once. */
  lemma SecondBootIsIdle(states: seq<State>, labels: seq<Label>, i: nat)
    requires IsRun(states, labels) && Init(states[0]) && Plain(states[0].dir) && i < |states|
    ensures var d := Recovered(states[i].dir);
            Recovered(d) == d && forall n :: n in AsideDirs(d) ==> !Hyphenated(TargetOf(n))
  {
    PlainAlways(states, labels, i);
    RecoveredIdempotent(states[i].dir);
    NothingLeft(states[i].dir);
  }

  /** What is left aside after a boot is an old-style name with no live directory. */
  lemma NothingLeft(d: Listing)
    requires Plain(d)
    ensures forall n :: n in AsideDirs(Recovered(d)) ==> !Hyphenated(TargetOf(n)) && TargetOf(n) !in Recovered(d)
    ensures forall n :: n in Recovered(d) ==> !(IsStaging(n) && Recovered(d)[n].Dir?)
    ensures forall n :: n in Recovered(d) ==> !(IsProbe(n) && Recovered(d)[n].File?)
  {
    var r := Restored(d, d.Keys);
    var e := Recovered(d);
    RestoredPlain(d, d.Keys);
    forall n | n in AsideDirs(e) ensures !Hyphenated(TargetOf(n)) && TargetOf(n) !in e {
      AsideOfTarget(n);
      RestoredAt(d, d.Keys, n);
      RestoredAt(d, d.Keys, TargetOf(n));
      assert !Droppable(r, n);
    }
  }

  /** What recovery leaves alone: every name that is no aside, staging directory or probe,
      every file that is none of the agent's, and a server appears only from its own aside. */
  lemma RecoveryKeeps(d: Listing, n: string)
    requires Plain(d)
    ensures n in d && !IsAside(n) && !IsStaging(n) && !IsProbe(n) ==> n in Recovered(d) && Recovered(d)[n] == d[n]
    ensures n in d && d[n].File? && !IsProbe(n) ==> n in Recovered(d) && Recovered(d)[n] == d[n]
    ensures n !in d && n in Recovered(d) ==> Hyphenated(n) && AsideOf(n) in d && Recovered(d)[n] == d[AsideOf(n)]
  {
    RestoredAt(d, d.Keys, n);
    var r := Restored(d, d.Keys);
    if n in r && n in d && d[n].File? { assert r[n] == d[n]; }
  }
}
