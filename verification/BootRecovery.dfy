/** What a completed boot recovery leaves, as a function of the directory it finds. */
module BootRecovery {
  import opened DirNames
  import opened SwapMachine

  /** Asides belong to server directories. True of every directory the agent writes,
      since `validate_uuid` keeps dots out of server names. */
  predicate Plain(d: Listing) {
    forall n :: n in d && IsAside(n) ==>
      var t := TargetOf(n); !IsAside(t) && !IsStaging(t) && !IsProbe(t)
  }

  /** Pass 1 renames exactly these. */
  predicate Restorable(d: Listing, n: string) {
    n in d && IsAside(n) && d[n].Dir? && TargetOf(n) !in d && Hyphenated(TargetOf(n))
  }

  /** The live name `t` gets back the content of its aside. */
  predicate Regains(d: Listing, t: string) {
    Restorable(d, AsideOf(t))
  }

  /** Pass 1 after the asides in `done`. */
  function Restored(d: Listing, done: set<string>): Listing {
    (map n | n in d && !(n in done && Restorable(d, n)) :: d[n])
    + (map t | t in (set n | n in done && Restorable(d, n) :: TargetOf(n)) && AsideOf(t) in d :: d[AsideOf(t)])
  }

  predicate Droppable(d: Listing, n: string) {
    Sweepable(d, Stagings, n) || Sweepable(d, Asides, n) || Sweepable(d, Probes, n)
  }

  /** Pass 2 after the entries in `done`. */
  function Swept(d: Listing, done: set<string>): Listing {
    map n | n in d && !(n in done && Droppable(d, n)) :: d[n]
  }

  function Recovered(d: Listing): Listing {
    var r := Restored(d, d.Keys);
    Swept(r, r.Keys)
  }

  lemma RestoredAt(d: Listing, done: set<string>, n: string)
    ensures n in Restored(d, done) <==>
            (n in d && !(n in done && Restorable(d, n))) || (AsideOf(n) in done && Regains(d, n))
    ensures AsideOf(n) in done && Regains(d, n) ==> n in Restored(d, done) && Restored(d, done)[n] == d[AsideOf(n)]
    ensures n in Restored(d, done) && !(AsideOf(n) in done && Regains(d, n)) ==> n in d && Restored(d, done)[n] == d[n]
  {
    var targets := set a | a in done && Restorable(d, a) :: TargetOf(a);
    if AsideOf(n) in done && Regains(d, n) {
      assert TargetOf(AsideOf(n)) == n;
      assert n in targets;
    }
    if n in targets {
      var a :| a in done && Restorable(d, a) && TargetOf(a) == n;
      AsideOfTarget(a);
    }
  }

  /** One iteration of pass 1, in whatever order the directory was read. */
  lemma RestoreStep(d: Listing, done: set<string>, n: string)
    requires Plain(d) && IsAside(n) && n !in done && n in d && d[n].Dir?
    ensures RestoreAside(Restored(d, done), n) == Restored(d, done + {n})
  {
    var r, r' := Restored(d, done), Restored(d, done + {n});
    var t := TargetOf(n);
    AsideOfTarget(n);
    RestoredAt(d, done, n);
    RestoredAt(d, done, t);
    assert !IsAside(t);
    assert t in r <==> t in d;
    forall m ensures m in RestoreAside(r, n) <==> m in r'
             ensures m in r' ==> RestoreAside(r, n)[m] == r'[m]
    {
      RestoredAt(d, done, m);
      RestoredAt(d, done + {n}, m);
      if AsideOf(m) == n { assert m == t; }
    }
  }

  /** Pass 1 keeps asides apart from server directories. */
  lemma RestoredPlain(d: Listing, done: set<string>)
    requires Plain(d)
    ensures Plain(Restored(d, done))
  {
    forall n | n in Restored(d, done) && IsAside(n)
      ensures var t := TargetOf(n); !IsAside(t) && !IsStaging(t) && !IsProbe(t)
    {
      RestoredAt(d, done, n);
    }
  }

  /** Sweeping one kind of entry does not change what else may be swept. */
  lemma SweepStep(d: Listing, done: set<string>, sweep: Sweep, n: string)
    requires Plain(d) && n !in done && n in d && n in Collect(d, sweep)
    ensures Sweepable(Swept(d, done), sweep, n) <==> Droppable(d, n)
    ensures Swept(d, done + {n}) == if Droppable(d, n) then Swept(d, done) - {n} else Swept(d, done)
  {
    KindsApart(n);
    var r := Swept(d, done);
    assert n in r && r[n] == d[n];
    if IsAside(n) {
      var t := TargetOf(n);
      assert t in r <==> t in d;
    }
    var r' := Swept(d, done + {n});
    forall m ensures m in r' <==> m in r && !(m == n && Droppable(d, n)) {
    }
  }

  lemma RestoredNone(d: Listing)
    ensures Restored(d, {}) == d
  {
    forall n ensures n in Restored(d, {}) <==> n in d
             ensures n in d ==> n in Restored(d, {}) && Restored(d, {})[n] == d[n]
    {
      RestoredAt(d, {}, n);
    }
  }

  lemma RestoredAll(d: Listing)
    ensures Restored(d, AsideDirs(d)) == Restored(d, d.Keys)
  {
    forall n ensures n in Restored(d, AsideDirs(d)) <==> n in Restored(d, d.Keys)
             ensures n in Restored(d, d.Keys) ==> Restored(d, AsideDirs(d))[n] == Restored(d, d.Keys)[n]
    {
      RestoredAt(d, AsideDirs(d), n);
      RestoredAt(d, d.Keys, n);
    }
  }

  lemma SweptNone(d: Listing)
    ensures Swept(d, {}) == d
  {
  }

  lemma SweptAll(d: Listing)
    ensures Swept(d, Collect(d, Stagings) + Collect(d, Asides) + Collect(d, Probes)) == Swept(d, d.Keys)
  {
  }

  lemma CollectsApart(d: Listing)
    ensures Collect(d, Stagings) !! Collect(d, Asides) !! Collect(d, Probes)
  {
    forall n | n in d
      ensures !(n in Collect(d, Stagings) && n in Collect(d, Asides))
      ensures !(n in Collect(d, Stagings) && n in Collect(d, Probes))
      ensures !(n in Collect(d, Asides) && n in Collect(d, Probes))
    {
      KindsApart(n);
    }
  }

  /** Sweeping other kinds leaves the next collection as it was. */
  lemma CollectUndisturbed(d: Listing, done: set<string>, sweep: Sweep)
    requires done !! Collect(d, sweep)
    ensures Collect(Swept(d, done), sweep) == Collect(d, sweep)
  {
  }

  /** Recovery is idempotent: a second boot finds nothing left to do. */
  lemma RecoveredIdempotent(d: Listing)
    requires Plain(d)
    ensures Plain(Recovered(d))
    ensures Recovered(Recovered(d)) == Recovered(d)
  {
    var r := Restored(d, d.Keys);
    var e := Recovered(d);
    RestoredPlain(d, d.Keys);
    forall n ensures !Restorable(e, n) {
      if Restorable(e, n) {
        RestoredAt(d, d.Keys, n);
        RestoredAt(d, d.Keys, TargetOf(n));
        AsideOfTarget(n);
      }
    }
    forall n ensures !Droppable(e, n) {
      if Droppable(e, n) { assert Droppable(r, n); }
    }
    var r' := Restored(e, e.Keys);
    forall n ensures n in r' <==> n in e
             ensures n in r' ==> r'[n] == e[n]
    {
      RestoredAt(e, e.Keys, n);
    }
    assert r' == e;
  }

  lemma NestedNames(u: string)
    requires ValidUuid(u)
    ensures AsideOf(AsideOf(u)) != AsideOf(u) && AsideOf(u) != u && AsideOf(AsideOf(u)) != u && Hyphenated(AsideOf(u))
    ensures !IsStaging(AsideOf(u)) && !IsProbe(AsideOf(u)) && !IsAside(u) && !IsStaging(u) && !IsProbe(u)
  {
    KindsApart(u);
    KindsApart(AsideOf(u));
    assert AsideOf(u)[9] == '-';
    assert |AsideOf(AsideOf(u))| > |AsideOf(u)| > |u|;
  }

  /** On nested asides pass 1 also depends on the order the names were read in, so no
      function of the directory describes it there: with both asides present and the server
      missing, taking the inner one first frees its name for the outer one. */
  lemma NestedOrderShows(d: Listing, u: string)
    requires ValidUuid(u) && Hyphenated(u) && u !in d
    requires AsideOf(u) in d && d[AsideOf(u)].Dir? && AsideOf(AsideOf(u)) in d && d[AsideOf(AsideOf(u))].Dir?
    ensures var inner, outer := AsideOf(u), AsideOf(AsideOf(u));
            && outer !in RestoreAside(RestoreAside(d, inner), outer)
            && outer in RestoreAside(RestoreAside(d, outer), inner)
  {
    NestedNames(u);
  }
}
