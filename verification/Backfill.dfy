/** The migration that elects one primary allocation per server. */
module Backfill {
  import opened Allocations
  import opened Bytes

  function Cleared(allocs: Allocs): Allocs {
    map i | i in allocs :: allocs[i].(primary := false)
  }

  /** Row `i` is on the port its server is known by. */
  predicate OnServerPort(servers: Servers, allocs: Allocs, i: int) {
    i in allocs && allocs[i].server in servers && servers[allocs[i].server].port == Some(allocs[i].port)
  }

  /** `MIN(a.id)` over the rows on the server's own port. */
  predicate LowestOnPort(servers: Servers, allocs: Allocs, i: int) {
    && OnServerPort(servers, allocs, i)
    && forall j | j in allocs && allocs[j].server == allocs[i].server && OnServerPort(servers, allocs, j) :: i <= j
  }

  function ElectByPort(servers: Servers, allocs: Allocs): Allocs {
    map i | i in allocs :: if LowestOnPort(servers, allocs, i) then allocs[i].(primary := true) else allocs[i]
  }

  /** `MIN(a.id)` over the rows of a server that has no primary. */
  predicate LowestOrphan(allocs: Allocs, i: int) {
    && i in allocs && !HasPrimary(allocs, allocs[i].server)
    && forall j | j in allocs && allocs[j].server == allocs[i].server :: i <= j
  }

  function ElectLowest(allocs: Allocs): Allocs {
    map i | i in allocs :: if LowestOrphan(allocs, i) then allocs[i].(primary := true) else allocs[i]
  }

  function Backfilled(servers: Servers, allocs: Allocs): Allocs {
    ElectLowest(ElectByPort(servers, Cleared(allocs)))
  }

  /** `backfill_primary_allocations`: three statements. */
  method BackfillPrimaryAllocations(servers: Servers, allocs: Allocs) returns (r: Allocs)
    ensures r.Keys == allocs.Keys
    ensures forall i :: i in allocs ==> r[i] == allocs[i].(primary := r[i].primary)
    ensures forall s, i :: Owns(allocs, s, i) ==> OnePrimary(r, s)
    ensures forall s, i, j :: Primary(r, s, i) && Owns(allocs, s, j) && OnServerPort(servers, allocs, j)
              ==> OnServerPort(servers, allocs, i)
    ensures forall s, i, j :: Primary(r, s, i) && Owns(allocs, s, j) ==>
              (OnServerPort(servers, allocs, j) <==> OnServerPort(servers, allocs, i)) ==> i <= j
    ensures r == Backfilled(servers, allocs)
  {
    r := Cleared(allocs);
    r := ElectByPort(servers, r);
    r := ElectLowest(r);
    forall s, i | Owns(allocs, s, i) ensures OnePrimary(r, s) { Elects(servers, allocs, s, i); }
    forall s, i, j | Primary(r, s, i) && Owns(allocs, s, j) && OnServerPort(servers, allocs, j)
      ensures OnServerPort(servers, allocs, i)
    {
      KeepsServerPort(servers, allocs, s, i, j);
    }
    forall s, i, j | Primary(r, s, i) && Owns(allocs, s, j)
      && (OnServerPort(servers, allocs, j) <==> OnServerPort(servers, allocs, i))
      ensures i <= j
    {
      ElectsLowest(servers, allocs, s, i, j);
    }
  }

  /** Some least element of a finite set. */
  lemma {:induction false} Least(ks: set<int>) returns (k: int)
    requires ks != {}
    ensures k in ks && forall j :: j in ks ==> k <= j
    decreases |ks|
  {
    SomeIn(ks);
    k :| k in ks;
    var rest := ks - {k};
    assert forall j :: j in ks ==> j == k || j in rest;
    if rest != {} {
      var m := Least(rest);
      if m < k { k := m; }
    }
  }

  lemma ByPortAtMostOne(servers: Servers, allocs: Allocs, s: int, i: int, j: int)
    requires forall i :: i in allocs ==> !allocs[i].primary
    requires Primary(ElectByPort(servers, allocs), s, i) && Primary(ElectByPort(servers, allocs), s, j)
    ensures i == j && OnServerPort(servers, allocs, i)
  {
    assert LowestOnPort(servers, allocs, i) && LowestOnPort(servers, allocs, j);
    assert i <= j && j <= i;
  }

  lemma ByPortElects(servers: Servers, allocs: Allocs, s: int, j: int) returns (k: int)
    requires Owns(allocs, s, j) && OnServerPort(servers, allocs, j)
    ensures Primary(ElectByPort(servers, allocs), s, k)
  {
    var rows := set i | i in allocs && allocs[i].server == s && OnServerPort(servers, allocs, i);
    assert j in rows;
    k := Least(rows);
    forall i | i in allocs && allocs[i].server == s && OnServerPort(servers, allocs, i) ensures k <= i {
      assert i in rows;
    }
  }

  lemma LowestElects(allocs: Allocs, s: int, i: int) returns (k: int)
    requires Owns(allocs, s, i) && !HasPrimary(allocs, s)
    ensures Primary(ElectLowest(allocs), s, k)
  {
    var rows := set i | i in allocs && allocs[i].server == s;
    assert i in rows;
    k := Least(rows);
    forall j | j in allocs && allocs[j].server == s ensures k <= j {
      assert j in rows;
    }
  }

  /** Electing the lowest touches only servers that have no primary, and gives them one. */
  lemma LowestFills(allocs: Allocs, s: int, i: int, j: int)
    requires forall i, j :: Primary(allocs, s, i) && Primary(allocs, s, j) ==> i == j
    requires Primary(ElectLowest(allocs), s, i) && Primary(ElectLowest(allocs), s, j)
    ensures i == j
    ensures HasPrimary(allocs, s) ==> Primary(allocs, s, i)
  {
    if HasPrimary(allocs, s) {
      assert !LowestOrphan(allocs, i) && !LowestOrphan(allocs, j);
      assert Primary(allocs, s, i) && Primary(allocs, s, j);
    } else {
      assert LowestOrphan(allocs, i) && LowestOrphan(allocs, j);
      assert i <= j && j <= i;
    }
  }

  /** Whatever the table was, a server with allocations ends with exactly one primary. */
  lemma Elects(servers: Servers, allocs: Allocs, s: int, i: int)
    requires Owns(allocs, s, i)
    ensures OnePrimary(Backfilled(servers, allocs), s)
  {
    hide ElectByPort, ElectLowest, HasPrimary;
    var c := Cleared(allocs);
    var b := ElectByPort(servers, c);
    var r := ElectLowest(b);
    ByPortKeys(servers, c);
    LowestKeys(b);
    forall i, j | Primary(b, s, i) && Primary(b, s, j) ensures i == j { ByPortAtMostOne(servers, c, s, i, j); }
    forall i, j | Primary(r, s, i) && Primary(r, s, j) ensures i == j { LowestFills(b, s, i, j); }
    if HasPrimary(b, s) {
      var k := Kept(b, s);
      assert Primary(r, s, k);
    } else {
      var k := LowestElects(b, s, i);
    }
  }

  lemma Kept(allocs: Allocs, s: int) returns (k: int)
    requires HasPrimary(allocs, s)
    ensures Primary(ElectLowest(allocs), s, k) && Primary(allocs, s, k)
  {
    k :| k in allocs && Primary(allocs, s, k);
  }

  lemma ByPortKeys(servers: Servers, allocs: Allocs)
    ensures ElectByPort(servers, allocs).Keys == allocs.Keys
    ensures forall i :: i in allocs ==> ElectByPort(servers, allocs)[i].server == allocs[i].server
  {
  }

  lemma LowestKeys(allocs: Allocs)
    ensures ElectLowest(allocs).Keys == allocs.Keys
    ensures forall i :: i in allocs ==> ElectLowest(allocs)[i].server == allocs[i].server
  {
  }

  /** The port a server is known by wins whenever one of its rows is on it. */
  lemma KeepsServerPort(servers: Servers, allocs: Allocs, s: int, i: int, j: int)
    requires Primary(Backfilled(servers, allocs), s, i)
    requires Owns(allocs, s, j) && OnServerPort(servers, allocs, j)
    ensures OnServerPort(servers, allocs, i)
  {
    hide ElectByPort, ElectLowest, HasPrimary;
    var c := Cleared(allocs);
    var b := ElectByPort(servers, c);
    ByPortKeys(servers, c);
    LowestKeys(b);
    var k := ByPortElects(servers, c, s, j);
    assert HasPrimary(b, s) by { Witnessed(b, s, k); }
    forall i, j | Primary(b, s, i) && Primary(b, s, j) ensures i == j { ByPortAtMostOne(servers, c, s, i, j); }
    LowestFills(b, s, i, i);
    ByPortAtMostOne(servers, c, s, i, i);
  }

  /** And of the rows that tie, the lowest wins. */
  lemma ElectsLowest(servers: Servers, allocs: Allocs, s: int, i: int, j: int)
    requires Primary(Backfilled(servers, allocs), s, i) && Owns(allocs, s, j)
    requires OnServerPort(servers, allocs, j) <==> OnServerPort(servers, allocs, i)
    ensures i <= j
  {
    hide HasPrimary, ElectByPort, ElectLowest;
    var c := Cleared(allocs);
    var b := ElectByPort(servers, c);
    ByPortKeys(servers, c);
    LowestKeys(b);
    OrphanOrKept(b, s, i);
    if Primary(b, s, i) {
      ByPortIsLowest(servers, c, s, i, j);
    } else {
      assert j in b && b[j].server == b[i].server;
    }
  }

  lemma OrphanOrKept(allocs: Allocs, s: int, i: int)
    requires Primary(ElectLowest(allocs), s, i)
    ensures Primary(allocs, s, i) || LowestOrphan(allocs, i)
  {
  }

  lemma ByPortIsLowest(servers: Servers, allocs: Allocs, s: int, i: int, j: int)
    requires forall i :: i in allocs ==> !allocs[i].primary
    requires Primary(ElectByPort(servers, allocs), s, i) && Owns(allocs, s, j)
    requires OnServerPort(servers, allocs, j) <==> OnServerPort(servers, allocs, i)
    ensures i <= j
  {
    assert LowestOnPort(servers, allocs, i);
  }

  lemma Witnessed(allocs: Allocs, s: int, k: int)
    requires Primary(allocs, s, k)
    ensures HasPrimary(allocs, s)
  {
    assert k in allocs;
  }

  /** Under the invariant the row on the server's port is its one primary. */
  lemma ConsistentPrimary(t: Tables, i: int)
    requires Inv(t) && i in t.allocs
    ensures t.allocs[i].primary <==> OnServerPort(t.servers, t.allocs, i)
  {
    var s := t.allocs[i].server;
    assert s in t.servers && Mirrors(t, s) && Owns(t.allocs, s, i);
    assert t.servers[s].port.Some?;
    var p :| Primary(t.allocs, s, p);
    if OnServerPort(t.servers, t.allocs, i) { assert i == p; }
    if t.allocs[i].primary { assert Primary(t.allocs, s, i); }
  }

  lemma PortElectsPrimaries(t: Tables, i: int)
    requires Inv(t) && i in t.allocs
    ensures LowestOnPort(t.servers, Cleared(t.allocs), i) <==> t.allocs[i].primary
  {
    hide Inv;
    ConsistentPrimary(t, i);
    if t.allocs[i].primary { OnlyRowOnPort(t, i); }
  }

  /** Consistent tables come through the migration unchanged. */
  lemma UnchangedWhenConsistent(t: Tables)
    requires Inv(t)
    ensures Backfilled(t.servers, t.allocs) == t.allocs
  {
    hide Inv, LowestOnPort, LowestOrphan, HasPrimary;
    var c := Cleared(t.allocs);
    var b := ElectByPort(t.servers, c);
    forall i | i in t.allocs ensures b[i] == t.allocs[i] {
      PortElectsPrimaries(t, i);
    }
    assert b == t.allocs;
    forall i | i in b ensures !LowestOrphan(b, i) {
      OwnerHasPrimary(t, b[i].server, i);
      NoOrphan(b, i);
    }
    assert ElectLowest(b) == b;
  }

  lemma NoOrphan(allocs: Allocs, i: int)
    requires i in allocs && HasPrimary(allocs, allocs[i].server)
    ensures !LowestOrphan(allocs, i)
  {
  }

  lemma OnlyRowOnPort(t: Tables, i: int)
    requires Inv(t) && i in t.allocs && t.allocs[i].primary && OnServerPort(t.servers, t.allocs, i)
    ensures LowestOnPort(t.servers, Cleared(t.allocs), i)
  {
    var c := Cleared(t.allocs);
    forall j | j in c && c[j].server == c[i].server && OnServerPort(t.servers, c, j) ensures i <= j {
      ConsistentPrimary(t, j);
      var s := t.allocs[i].server;
      assert Mirrors(t, s) && Primary(t.allocs, s, i) && Primary(t.allocs, s, j);
    }
  }
}
