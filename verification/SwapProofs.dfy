/** Crash safety of restore and boot recovery: the invariant is kept by every step,
    so every finished recovery finds each server at its committed content. */
module SwapProofs {
  import opened DirNames
  import opened SwapMachine

  /** The three names a restore of `u` works on. */
  function Footprint(u: string, staging: string): set<string> {
    {u, AsideOf(u), staging}
  }

  ghost predicate AgreeOff(d: Listing, d': Listing, names: set<string>) {
    forall n :: n !in names ==> (n in d <==> n in d') && (n in d && n in d' ==> d[n] == d'[n])
  }

  /** What the invariant asks of one server while serving. */
  ghost predicate ServerOk(s: State, u: string) {
    && (u in s.tasks ==> TaskOk(s.dir, u, s.tasks[u]))
    && (u in s.committed ==>
          if InPhase(s, u, Vacated) then SetAside(s.dir, s.committed, u) else InPlace(s.dir, s.committed, u))
  }

  lemma ServerFact(s: State, u: string)
    requires Inv(s) && s.mode.Serving?
    ensures ServerOk(s, u) && Nameable(s.committed)
  {
  }

  /** Footprints of different servers are disjoint. */
  lemma FootprintsApart(u: string, m: string, v: string, n: string)
    requires ValidUuid(u) && ValidUuid(v) && u != v && SimpleUuid(m) && SimpleUuid(n)
    ensures Footprint(u, StagingOf(u, m)) !! Footprint(v, StagingOf(v, n))
  {
    KindsApart(u);
    KindsApart(v);
    KindsApart(AsideOf(u));
    KindsApart(AsideOf(v));
    if StagingOf(u, m) == StagingOf(v, n) { StagingInjective(u, m, v, n); }
    assert AsideOf(u) != AsideOf(v) by { assert TargetOf(AsideOf(u)) == u && TargetOf(AsideOf(v)) == v; }
  }

  /** A step inside one server's footprint keeps what holds of every other server. */
  lemma OthersKept(s: State, s': State, u: string, nonce: string, v: string)
    requires ValidUuid(u) && SimpleUuid(nonce) && v != u
    requires s.mode.Serving? && s'.mode.Serving?
    requires Nameable(s.committed) && ServerOk(s, v)
    requires AgreeOff(s.dir, s'.dir, Footprint(u, StagingOf(u, nonce)))
    requires v in s'.tasks <==> v in s.tasks
    requires v in s.tasks ==> s'.tasks[v] == s.tasks[v]
    requires v in s'.committed <==> v in s.committed
    requires v in s.committed ==> s'.committed[v] == s.committed[v]
    ensures ServerOk(s', v)
  {
    if v in s.tasks {
      var n :| SimpleUuid(n) && s.tasks[v].staging == StagingOf(v, n);
      FootprintsApart(u, nonce, v, n);
      assert v in Footprint(v, StagingOf(v, n)) && AsideOf(v) in Footprint(v, StagingOf(v, n));
      assert StagingOf(v, n) in Footprint(v, StagingOf(v, n));
    } else if v in s.committed {
      FootprintsApart(u, nonce, v, nonce);
      assert v in Footprint(v, StagingOf(v, nonce));
    }
  }

  predicate OfRestore(l: Label) {
    && !l.ProbeWrite? && !l.ProbeRemove? && !l.Crash? && !l.RestoreOne? && !l.RestoreDone?
    && !l.SweepFile? && !l.SweepEntry? && !l.SweepSkip? && !l.SweepDone?
  }

  /** The nonce behind the staging name a label works with. */
  ghost predicate NonceFits(s: State, l: Label, nonce: string)
    requires OfRestore(l)
  {
    && SimpleUuid(nonce) && ValidUuid(l.u)
    && (if l.Begin? then nonce == l.nonce
        else l.u in s.tasks && s.tasks[l.u].staging == StagingOf(l.u, nonce))
  }

  lemma NonceExists(s: State, l: Label) returns (nonce: string)
    requires OfRestore(l) && Enabled(s, l) && Inv(s)
    ensures NonceFits(s, l, nonce)
  {
    if l.Begin? {
      nonce := l.nonce;
    } else {
      assert TaskOk(s.dir, l.u, s.tasks[l.u]);
      nonce :| SimpleUuid(nonce) && s.tasks[l.u].staging == StagingOf(l.u, nonce);
    }
  }

  /** What a step of one restore must show about its own server. */
  ghost predicate OwnOk(s: State, l: Label, nonce: string)
    requires OfRestore(l) && Enabled(s, l)
  {
    && ServerOk(Apply(s, l), l.u)
    && AgreeOff(s.dir, Apply(s, l).dir, Footprint(l.u, StagingOf(l.u, nonce)))
    && Nameable(Apply(s, l).committed)
  }

  predicate Extraction(l: Label) {
    l.Begin? || l.Write? || l.Verified? || l.Abort? || l.PurgeFile? || l.PurgeDir? || l.Finish?
  }

  lemma ExtractionOwn(s: State, l: Label, nonce: string)
    requires Extraction(l) && NonceFits(s, l, nonce) && Enabled(s, l) && Inv(s)
    ensures OwnOk(s, l, nonce)
  {
    hide Inv;
    var s' := Apply(s, l);
    ServerFact(s, l.u);
    KindsApart(l.u);
    KindsApart(AsideOf(l.u));
    assert l.u in s'.tasks ==> s'.tasks[l.u].staging == StagingOf(l.u, nonce);
  }

  lemma ExchangeOwn(s: State, l: Label, nonce: string)
    requires l.Exchange? && NonceFits(s, l, nonce) && Enabled(s, l) && Inv(s)
    ensures OwnOk(s, l, nonce)
  {
    hide Inv;
    var u := l.u;
    var s', at := Apply(s, l), StagingOf(u, nonce);
    ServerFact(s, u);
    KindsApart(u);
    assert s'.dir == s.dir[u := Dir(s.tasks[u].archive)][at := s.dir[u]];
    assert s'.tasks[u] == s.tasks[u].(phase := Cleaning);
    assert u in s'.committed ==> Hyphenated(u) && s'.committed[u] == s.tasks[u].archive;
  }

  lemma ErrorOrFallbackOwn(s: State, l: Label, nonce: string)
    requires (l.SwapError? || l.Fallback?) && NonceFits(s, l, nonce) && Enabled(s, l) && Inv(s)
    ensures OwnOk(s, l, nonce)
  {
    hide Inv;
    ServerFact(s, l.u);
  }

  lemma MoveInOwn(s: State, l: Label, nonce: string)
    requires l.MoveIn? && NonceFits(s, l, nonce) && Enabled(s, l) && Inv(s)
    ensures OwnOk(s, l, nonce)
  {
    hide Inv;
    var u := l.u;
    var s', at := Apply(s, l), StagingOf(u, nonce);
    ServerFact(s, u);
    KindsApart(u);
    assert s'.dir == (s.dir - {at})[u := Dir(s.tasks[u].archive)];
    assert u !in s'.tasks;
    assert u in s'.committed ==> Hyphenated(u) && s'.committed[u] == s.tasks[u].archive;
  }

  lemma MoveAsideOwn(s: State, l: Label, nonce: string)
    requires l.MoveAside? && NonceFits(s, l, nonce) && Enabled(s, l) && Inv(s)
    ensures OwnOk(s, l, nonce)
  {
    hide Inv;
    var u := l.u;
    var s', at := Apply(s, l), StagingOf(u, nonce);
    ServerFact(s, u);
    KindsApart(u);
    KindsApart(AsideOf(u));
    assert s'.dir == (s.dir - {u})[AsideOf(u) := s.dir[u]];
    assert at in s'.dir && s'.dir[at] == Dir(s.tasks[u].archive);
    assert s'.tasks[u] == s.tasks[u].(phase := Vacated);
    assert u in s.committed ==> InPlace(s.dir, s.committed, u);
  }

  lemma InstallOwn(s: State, l: Label, nonce: string)
    requires l.Install? && NonceFits(s, l, nonce) && Enabled(s, l) && Inv(s)
    ensures OwnOk(s, l, nonce)
  {
    hide Inv;
    var u := l.u;
    var s', at := Apply(s, l), StagingOf(u, nonce);
    ServerFact(s, u);
    KindsApart(u);
    assert s'.dir == (s.dir - {at})[u := Dir(s.tasks[u].archive)];
    assert s'.tasks[u] == s.tasks[u].(phase := Installed);
    assert u in s'.committed ==> Hyphenated(u) && s'.committed[u] == s.tasks[u].archive;
  }

  lemma RollbackOwn(s: State, l: Label, nonce: string)
    requires l.Rollback? && NonceFits(s, l, nonce) && Enabled(s, l) && Inv(s)
    ensures OwnOk(s, l, nonce)
  {
    hide Inv;
    ServerFact(s, l.u);
    var u := l.u;
    var s' := Apply(s, l);
    KindsApart(u);
    assert s'.dir == (s.dir - {AsideOf(u)})[u := s.dir[AsideOf(u)]];
    assert u !in s'.tasks;
    assert u in s.committed ==> SetAside(s.dir, s.committed, u);
  }

  lemma ReclaimOwn(s: State, l: Label, nonce: string)
    requires (l.ReclaimFile? || l.ReclaimDir?) && NonceFits(s, l, nonce) && Enabled(s, l) && Inv(s)
    ensures OwnOk(s, l, nonce)
  {
    hide Inv;
    ServerFact(s, l.u);
    KindsApart(l.u);
    KindsApart(AsideOf(l.u));
  }

  lemma DropOwn(s: State, l: Label, nonce: string)
    requires (l.DropFile? || l.DropDir? || l.Dropped?) && NonceFits(s, l, nonce) && Enabled(s, l) && Inv(s)
    ensures OwnOk(s, l, nonce)
  {
    hide Inv;
    ServerFact(s, l.u);
    KindsApart(l.u);
    assert AsideOf(l.u) != l.u;
  }

  predicate FallbackLabel(l: Label) {
    l.ReclaimFile? || l.ReclaimDir? || l.MoveAside? || l.Install? || l.Rollback? || l.DropFile? || l.DropDir? || l.Dropped?
  }

  lemma FallbackOwn(s: State, l: Label, nonce: string)
    requires FallbackLabel(l) && NonceFits(s, l, nonce) && Enabled(s, l) && Inv(s)
    ensures OwnOk(s, l, nonce)
  {
    hide Inv, OwnOk, Apply;
    if l.MoveAside? {
      MoveAsideOwn(s, l, nonce);
    } else if l.Install? {
      InstallOwn(s, l, nonce);
    } else if l.Rollback? {
      RollbackOwn(s, l, nonce);
    } else if l.ReclaimFile? || l.ReclaimDir? {
      ReclaimOwn(s, l, nonce);
    } else {
      DropOwn(s, l, nonce);
    }
  }

  lemma OwnServerKept(s: State, l: Label, nonce: string)
    requires OfRestore(l) && NonceFits(s, l, nonce) && Enabled(s, l) && Inv(s)
    ensures OwnOk(s, l, nonce)
  {
    hide Inv, OwnOk, Apply;
    if Extraction(l) {
      ExtractionOwn(s, l, nonce);
    } else if FallbackLabel(l) {
      FallbackOwn(s, l, nonce);
    } else if l.Exchange? {
      ExchangeOwn(s, l, nonce);
    } else if l.MoveIn? {
      MoveInOwn(s, l, nonce);
    } else {
      ErrorOrFallbackOwn(s, l, nonce);
    }
  }

  lemma RestoreStepKeeps(s: State, l: Label)
    requires OfRestore(l) && Enabled(s, l) && Inv(s)
    ensures Inv(Apply(s, l))
  {
    var s' := Apply(s, l);
    var nonce := NonceExists(s, l);
    OwnServerKept(s, l, nonce);
    forall v ensures ServerOk(s', v) {
      assert ServerOk(s, v);
      if v != l.u { OthersKept(s, s', l.u, nonce, v); }
    }
    forall v | v in s'.tasks ensures TaskOk(s'.dir, v, s'.tasks[v]) { assert ServerOk(s', v); }
    forall v | v in s'.committed
      ensures if InPhase(s', v, Vacated) then SetAside(s'.dir, s'.committed, v) else InPlace(s'.dir, s'.committed, v)
    {
      assert ServerOk(s', v);
    }
  }

  lemma ProbeStepKeeps(s: State, l: Label)
    requires (l.ProbeWrite? || l.ProbeRemove?) && Enabled(s, l) && Inv(s)
    ensures Inv(Apply(s, l))
  {
    var s' := Apply(s, l);
    KindsApart(l.name);
    forall v | v in s.tasks ensures TaskOk(s'.dir, v, s'.tasks[v]) {
      assert TaskOk(s.dir, v, s.tasks[v]);
      KindsApart(v);
      KindsApart(AsideOf(v));
      KindsApart(s.tasks[v].staging);
    }
    forall v | v in s'.committed
      ensures if InPhase(s', v, Vacated) then SetAside(s'.dir, s'.committed, v) else InPlace(s'.dir, s'.committed, v)
    {
      KindsApart(v);
      KindsApart(AsideOf(v));
    }
  }

  lemma CrashKeeps(s: State)
    requires Inv(s)
    ensures Inv(Apply(s, Crash))
  {
  }

  /** Pass 1 moves only asides whose live name is free, and moves the one copy back. */
  lemma RestoreOneKeeps(s: State, n: string)
    requires Inv(s) && Enabled(s, RestoreOne(n))
    ensures Inv(Apply(s, RestoreOne(n)))
  {
    var s' := Apply(s, RestoreOne(n));
    AsideOfTarget(n);
    KindsApart(n);
    forall u | u in s'.committed
      ensures InPlace(s'.dir, s'.committed, u)
              || (SetAside(s'.dir, s'.committed, u) && AsideOf(u) in s'.mode.todo)
    {
      KindsApart(u);
      KindsApart(AsideOf(u));
      if n == AsideOf(u) {
        assert TargetOf(n) == u;
      } else {
        assert TargetOf(n) != u;
        assert TargetOf(n) != AsideOf(u) || AsideOf(u) in s.dir || InPlace(s.dir, s.committed, u);
      }
    }
  }

  lemma SweepStepKeeps(s: State, l: Label)
    requires l.SweepFile? || l.SweepEntry? || l.SweepSkip? || l.SweepDone? || l.RestoreDone?
    requires Inv(s) && Enabled(s, l)
    ensures Inv(Apply(s, l))
  {
    var s' := Apply(s, l);
    forall u | u in s'.committed ensures InPlace(s'.dir, s'.committed, u) {
      KindsApart(u);
      assert l.SweepFile? || l.SweepEntry? ==> l.name != u;
    }
  }

  lemma StepKeeps(s: State, l: Label)
    requires Inv(s) && Enabled(s, l)
    ensures Inv(Apply(s, l))
  {
    hide Inv;
    if OfRestore(l) {
      RestoreStepKeeps(s, l);
    } else if l.ProbeWrite? || l.ProbeRemove? {
      ProbeStepKeeps(s, l);
    } else if l.Crash? {
      CrashKeeps(s);
    } else if l.RestoreOne? {
      RestoreOneKeeps(s, l.name);
    } else {
      SweepStepKeeps(s, l);
    }
  }
}
