/** Port allocations and the primary port mirrored on the server row. */
module Allocations {
  import opened Bytes

  const MIN_PORT: int := 1024
  const MAX_PORT: int := 65_535

  datatype Server = Server(node: string, port: Option<int>, deleted: bool)
  datatype Alloc = Alloc(server: int, node: string, port: int, primary: bool, notes: string)

  type Servers = map<int, Server>
  type Allocs = map<int, Alloc>

  /** Both tables and their AUTOINCREMENT counters. */
  datatype Tables = Tables(servers: Servers, allocs: Allocs, nextServer: int, nextAlloc: int)

  // ---------------- The invariant ----------------

  /** The unique index on allocations(node, port). */
  predicate AllocIndex(allocs: Allocs) {
    forall i, j | i in allocs && j in allocs ::
      allocs[i].node == allocs[j].node && allocs[i].port == allocs[j].port ==> i == j
  }

  /** The partial unique index on servers(node, port). */
  predicate ServerIndex(servers: Servers) {
    forall s, u | s in servers && u in servers ::
      (&& servers[s].port.Some? && !servers[s].deleted && !servers[u].deleted
       && servers[s].port == servers[u].port && servers[s].node == servers[u].node) ==> s == u
  }

  predicate Owns(allocs: Allocs, s: int, i: int) {
    i in allocs && allocs[i].server == s
  }

  predicate Primary(allocs: Allocs, s: int, i: int) {
    Owns(allocs, s, i) && allocs[i].primary
  }

  ghost predicate OnePrimary(allocs: Allocs, s: int) {
    && (exists i :: Primary(allocs, s, i))
    && (forall i, j :: Primary(allocs, s, i) && Primary(allocs, s, j) ==> i == j)
  }

  ghost predicate Mirrors(t: Tables, s: int)
    requires s in t.servers
  {
    match t.servers[s].port
    case None => forall i :: !Owns(t.allocs, s, i)
    case Some(p) => OnePrimary(t.allocs, s) && forall i :: Primary(t.allocs, s, i) ==> t.allocs[i].port == p
  }

  /** An allocation belongs to a live server and sits on that server's node. */
  ghost predicate Placed(t: Tables) {
    forall i :: i in t.allocs ==>
      && t.allocs[i].server in t.servers
      && !t.servers[t.allocs[i].server].deleted
      && t.servers[t.allocs[i].server].node == t.allocs[i].node
      && MIN_PORT <= t.allocs[i].port <= MAX_PORT
  }

  ghost predicate Counted(t: Tables) {
    && (forall i :: i in t.allocs ==> i < t.nextAlloc)
    && (forall s :: s in t.servers ==> s < t.nextServer)
  }

  ghost predicate Inv(t: Tables) {
    && AllocIndex(t.allocs) && Placed(t) && Counted(t)
    && (forall s :: s in t.servers ==> Mirrors(t, s))
  }

  /** The invariant makes the servers index redundant: it can never be violated. */
  lemma ServerIndexImplied(t: Tables)
    requires Inv(t)
    ensures ServerIndex(t.servers)
  {
    forall s, u | s in t.servers && u in t.servers
      && t.servers[s].port.Some? && t.servers[s].port == t.servers[u].port && t.servers[s].node == t.servers[u].node
      ensures s == u
    {
      assert Mirrors(t, s) && Mirrors(t, u);
      var i :| Primary(t.allocs, s, i);
      var j :| Primary(t.allocs, u, j);
      assert i == j;
    }
  }

  // ---------------- Operations ----------------

  ghost predicate At(allocs: Allocs, node: string, port: int, i: int) {
    i in allocs && allocs[i].node == node && allocs[i].port == port
  }

  predicate HasPrimary(allocs: Allocs, s: int) {
    exists i | i in allocs :: Primary(allocs, s, i)
  }

  /** Statements, one function each. */
  function SetPort(servers: Servers, s: int, port: Option<int>): Servers {
    if s in servers then servers[s := servers[s].(port := port)] else servers
  }

  function DropOwned(allocs: Allocs, s: int): Allocs {
    map i | i in allocs && allocs[i].server != s :: allocs[i]
  }

  function Renode(allocs: Allocs, s: int, node: string): Allocs {
    map i | i in allocs :: if allocs[i].server == s then allocs[i].(node := node) else allocs[i]
  }

  function Promoted(allocs: Allocs, s: int, id: int): Allocs {
    map i | i in allocs :: if allocs[i].server == s then allocs[i].(primary := i == id) else allocs[i]
  }

  function Create(t: Tables): Tables {
    t.(servers := t.servers[t.nextServer := Server("local", None, false)], nextServer := t.nextServer + 1)
  }

  /** A fresh allocation for `s`; the first one becomes primary. */
  function Attached(t: Tables, s: int, port: int, notes: string): Tables
    requires s in t.servers
  {
    var first := !HasPrimary(t.allocs, s);
    var allocs := t.allocs[t.nextAlloc := Alloc(s, t.servers[s].node, port, first, notes)];
    var servers := if first then SetPort(t.servers, s, Some(port)) else t.servers;
    Tables(servers, allocs, t.nextServer, t.nextAlloc + 1)
  }

  /** New notes on a row the server already holds; empty notes leave it alone. */
  function Noted(t: Tables, id: int, notes: string): Tables
    requires id in t.allocs
  {
    if notes == "" then t else t.(allocs := t.allocs[id := t.allocs[id].(notes := notes)])
  }

  function Promote(t: Tables, id: int): Tables {
    if id !in t.allocs then t
    else
      var a := t.allocs[id];
      t.(allocs := Promoted(t.allocs, a.server, id), servers := SetPort(t.servers, a.server, Some(a.port)))
  }

  function DeleteRow(t: Tables, id: int): Tables {
    t.(allocs := t.allocs - {id})
  }

  function Free(t: Tables, s: int): Tables {
    t.(allocs := DropOwned(t.allocs, s), servers := SetPort(t.servers, s, None))
  }

  function Delete(t: Tables, s: int): Tables {
    if s !in t.servers then t.(allocs := DropOwned(t.allocs, s))
    else t.(allocs := DropOwned(t.allocs, s), servers := t.servers[s := t.servers[s].(deleted := true, port := None)])
  }

  function Moved(t: Tables, s: int, node: string): Tables {
    t.(allocs := Renode(t.allocs, s, node),
       servers := if s in t.servers then t.servers[s := t.servers[s].(node := node)] else t.servers)
  }

  /** Another server holds one of `s`'s ports on `node`. */
  ghost predicate Clash(t: Tables, s: int, node: string) {
    exists i, j :: Owns(t.allocs, s, i) && At(t.allocs, node, t.allocs[i].port, j) && t.allocs[j].server != s
  }

  // ---------------- Each operation keeps the invariant ----------------

  lemma CreateKeeps(t: Tables)
    requires Inv(t)
    ensures Inv(Create(t))
  {
    var r := Create(t);
    forall s | s in r.servers ensures Mirrors(r, s) {
      if s != t.nextServer { assert Mirrors(t, s); }
    }
  }

  lemma AttachKeepsMirrors(t: Tables, s: int, port: int, notes: string, u: int)
    requires Inv(t) && s in t.servers && u in t.servers
    ensures Mirrors(Attached(t, s, port, notes), u)
  {
    hide AllocIndex, Placed;
    var r := Attached(t, s, port, notes);
    assert t.nextAlloc !in t.allocs;
    assert Mirrors(t, u);
    if u == s && !HasPrimary(t.allocs, s) {
      assert forall i :: !Primary(t.allocs, s, i);
      assert Primary(r.allocs, s, t.nextAlloc);
    } else {
      assert u != s ==> forall i :: Owns(r.allocs, u, i) <==> Owns(t.allocs, u, i);
      assert forall i :: Primary(r.allocs, u, i) <==> Primary(t.allocs, u, i);
    }
  }

  lemma AttachKeeps(t: Tables, s: int, port: int, notes: string)
    requires Inv(t) && s in t.servers && !t.servers[s].deleted && MIN_PORT <= port <= MAX_PORT
    requires forall i :: !At(t.allocs, t.servers[s].node, port, i)
    ensures Inv(Attached(t, s, port, notes))
  {
    hide Mirrors;
    var r := Attached(t, s, port, notes);
    forall u | u in r.servers ensures Mirrors(r, u) {
      AttachKeepsMirrors(t, s, port, notes, u);
    }
    AttachKeepsIndex(t, s, port, notes);
  }

  lemma AttachKeepsIndex(t: Tables, s: int, port: int, notes: string)
    requires AllocIndex(t.allocs) && Counted(t) && s in t.servers
    requires forall i :: !At(t.allocs, t.servers[s].node, port, i)
    ensures AllocIndex(Attached(t, s, port, notes).allocs)
  {
    var r := Attached(t, s, port, notes);
    forall i, j | i in r.allocs && j in r.allocs && r.allocs[i].node == r.allocs[j].node && r.allocs[i].port == r.allocs[j].port
      ensures i == j
    {
      assert i != t.nextAlloc ==> !At(t.allocs, t.servers[s].node, port, i);
      assert j != t.nextAlloc ==> !At(t.allocs, t.servers[s].node, port, j);
    }
  }

  lemma NotedKeeps(t: Tables, id: int, notes: string)
    requires Inv(t) && id in t.allocs
    ensures Inv(Noted(t, id, notes))
  {
    var r := Noted(t, id, notes);
    forall s | s in r.servers ensures Mirrors(r, s) {
      assert Mirrors(t, s);
      assert forall i :: Owns(r.allocs, s, i) <==> Owns(t.allocs, s, i);
      assert forall i :: Primary(r.allocs, s, i) <==> Primary(t.allocs, s, i);
    }
  }

  lemma PromoteKeeps(t: Tables, id: int)
    requires Inv(t)
    ensures Inv(Promote(t, id))
  {
    if id in t.allocs {
      var r, o := Promote(t, id), t.allocs[id].server;
      forall s | s in r.servers ensures Mirrors(r, s) {
        assert Mirrors(t, s);
        assert forall i :: Owns(r.allocs, s, i) <==> Owns(t.allocs, s, i);
        if s == o {
          assert Primary(r.allocs, s, id);
        } else {
          assert forall i :: Primary(r.allocs, s, i) <==> Primary(t.allocs, s, i);
        }
      }
    }
  }

  lemma DeleteRowMirrors(t: Tables, id: int, s: int)
    requires Inv(t) && s in t.servers && (id in t.allocs ==> !t.allocs[id].primary)
    ensures Mirrors(DeleteRow(t, id), s)
  {
    var r := DeleteRow(t, id);
    assert Mirrors(t, s);
    assert forall i :: Owns(r.allocs, s, i) ==> Owns(t.allocs, s, i);
    assert forall i :: Primary(r.allocs, s, i) <==> Primary(t.allocs, s, i);
  }

  /** Deleting one row is safe exactly when the row is not a primary at that moment. */
  lemma DeleteRowExactly(t: Tables, id: int)
    requires Inv(t)
    ensures Inv(DeleteRow(t, id)) <==> (id in t.allocs ==> !t.allocs[id].primary)
  {
    var r := DeleteRow(t, id);
    if id in t.allocs && t.allocs[id].primary {
      var s := t.allocs[id].server;
      assert Mirrors(t, s) && Primary(t.allocs, s, id);
      assert forall i :: Primary(r.allocs, s, i) ==> Primary(t.allocs, s, i);
      assert !Mirrors(r, s);
    } else {
      forall s | s in r.servers ensures Mirrors(r, s) { DeleteRowMirrors(t, id, s); }
    }
  }

  lemma DropMirrors(t: Tables, r: Tables, s: int)
    requires Inv(t) && r.allocs == DropOwned(t.allocs, s)
    requires forall u :: u in r.servers ==> u in t.servers
    requires forall u :: u in r.servers && u != s ==> r.servers[u] == t.servers[u]
    requires s in r.servers ==> r.servers[s].port.None?
    ensures forall u :: u in r.servers ==> Mirrors(r, u)
  {
    forall u | u in r.servers ensures Mirrors(r, u) {
      assert Mirrors(t, u);
      if u != s {
        assert forall i :: Owns(r.allocs, u, i) <==> Owns(t.allocs, u, i);
        assert forall i :: Primary(r.allocs, u, i) <==> Primary(t.allocs, u, i);
      }
    }
  }

  lemma FreeKeeps(t: Tables, s: int)
    requires Inv(t)
    ensures Inv(Free(t, s)) && forall i :: !Owns(Free(t, s).allocs, s, i)
  {
    hide Mirrors;
    DropMirrors(t, Free(t, s), s);
  }

  lemma DeleteKeeps(t: Tables, s: int)
    requires Inv(t)
    ensures Inv(Delete(t, s)) && forall i :: !Owns(Delete(t, s).allocs, s, i)
  {
    hide Mirrors;
    DropMirrors(t, Delete(t, s), s);
  }

  lemma MoveMirrors(t: Tables, s: int, node: string, u: int)
    requires Inv(t) && u in t.servers
    ensures Mirrors(Moved(t, s, node), u)
  {
    hide AllocIndex, Placed, Counted;
    var r := Moved(t, s, node);
    assert Mirrors(t, u);
    assert forall i :: Owns(r.allocs, u, i) <==> Owns(t.allocs, u, i);
    assert forall i :: Primary(r.allocs, u, i) <==> Primary(t.allocs, u, i);
  }

  /** The allocation index lets a move through exactly when no other server is in the way. */
  lemma MoveIndexExactly(t: Tables, s: int, node: string)
    requires Inv(t)
    ensures AllocIndex(Renode(t.allocs, s, node)) <==> !Clash(t, s, node)
  {
    hide Mirrors;
    var r := Renode(t.allocs, s, node);
    if Clash(t, s, node) {
      var i, j :| Owns(t.allocs, s, i) && At(t.allocs, node, t.allocs[i].port, j) && t.allocs[j].server != s;
      assert r[i].node == r[j].node && r[i].port == r[j].port;
    } else {
      forall i, j | i in r && j in r && r[i].node == r[j].node && r[i].port == r[j].port
        ensures i == j
      {
        MoveNoClash(t, s, node, i, j);
        MoveNoClash(t, s, node, j, i);
        assert Placed(t);
      }
    }
  }

  lemma MoveNoClash(t: Tables, s: int, node: string, i: int, j: int)
    requires !Clash(t, s, node)
    ensures Owns(t.allocs, s, i) && At(t.allocs, node, t.allocs[i].port, j) ==> t.allocs[j].server == s
  {
  }

  lemma MoveKeeps(t: Tables, s: int, node: string)
    requires Inv(t) && !Clash(t, s, node)
    ensures Inv(Moved(t, s, node))
  {
    hide Mirrors, Clash, AllocIndex;
    MoveIndexExactly(t, s, node);
    var r := Moved(t, s, node);
    forall u | u in r.servers ensures Mirrors(r, u) { MoveMirrors(t, s, node, u); }
  }

  // ---------------- Every run ----------------

  datatype Op =
    | CreateOp
    | AddOp(server: int, port: int, notes: string)
    | PromoteOp(id: int)
    | RemoveOp(id: int)
    | FreeOp(server: int)
    | DeleteOp(server: int)
    | MoveOp(server: int, node: string)

  /** What an operation leaves behind; a refused one leaves the tables as they were. */
  ghost predicate Step(t: Tables, op: Op, r: Tables) {
    match op
    case CreateOp => r == Create(t)
    case AddOp(s, port, notes) =>
      if !(MIN_PORT <= port <= MAX_PORT) || s !in t.servers || t.servers[s].deleted then r == t
      else if exists i :: At(t.allocs, t.servers[s].node, port, i) then
        exists i :: At(t.allocs, t.servers[s].node, port, i) && r == if t.allocs[i].server != s then t else Noted(t, i, notes)
      else r == Attached(t, s, port, notes)
    case PromoteOp(id) => r == Promote(t, id)
    case RemoveOp(id) => r == if id in t.allocs && !t.allocs[id].primary then DeleteRow(t, id) else t
    case FreeOp(s) => r == Free(t, s)
    case DeleteOp(s) => r == Delete(t, s)
    case MoveOp(s, node) => r == if Clash(t, s, node) then t else Moved(t, s, node)
  }

  lemma AddKeeps(t: Tables, op: Op, r: Tables)
    requires Inv(t) && Step(t, op, r) && op.AddOp?
    ensures Inv(r)
  {
    hide Inv, Attached, Noted;
    if MIN_PORT <= op.port <= MAX_PORT && op.server in t.servers && !t.servers[op.server].deleted {
      var node := t.servers[op.server].node;
      if i0 :| At(t.allocs, node, op.port, i0) {
        var i :| At(t.allocs, node, op.port, i) && r == if t.allocs[i].server != op.server then t else Noted(t, i, op.notes);
        NotedKeeps(t, i, op.notes);
      } else {
        AttachKeeps(t, op.server, op.port, op.notes);
      }
    }
  }

  lemma StepKeeps(t: Tables, op: Op, r: Tables)
    requires Inv(t) && Step(t, op, r)
    ensures Inv(r)
  {
    hide Inv, Clash, Create, Promote, DeleteRow, Free, Delete, Moved;
    match op
    case CreateOp => CreateKeeps(t);
    case AddOp(_, _, _) => AddKeeps(t, op, r);
    case PromoteOp(id) => PromoteKeeps(t, id);
    case RemoveOp(id) => DeleteRowExactly(t, id);
    case FreeOp(s) => FreeKeeps(t, s);
    case DeleteOp(s) => DeleteKeeps(t, s);
    case MoveOp(s, node) => if !Clash(t, s, node) { MoveKeeps(t, s, node); }
  }

  ghost predicate StepAt(ts: seq<Tables>, ops: seq<Op>, i: nat)
    requires |ts| == |ops| + 1 && i < |ops|
  {
    Step(ts[i], ops[i], ts[i + 1])
  }

  ghost predicate IsRun(ts: seq<Tables>, ops: seq<Op>) {
    && |ts| == |ops| + 1
    && ts[0].servers == map[] && ts[0].allocs == map[]
    && forall i :: 0 <= i < |ops| ==> StepAt(ts, ops, i)
  }

  /** From empty tables, every run of create, add, promote, remove, free, delete and move
      keeps the ports consistent, and the servers index has nothing left to refuse. */
  lemma {:induction false} AlwaysConsistent(ts: seq<Tables>, ops: seq<Op>, i: nat)
    requires IsRun(ts, ops) && i < |ts|
    ensures Inv(ts[i]) && ServerIndex(ts[i].servers)
  {
    hide Step, ServerIndex;
    if i > 0 {
      AlwaysConsistent(ts, ops, i - 1);
      assert StepAt(ts, ops, i - 1);
      hide Inv;
      StepKeeps(ts[i - 1], ops[i - 1], ts[i]);
    }
    ServerIndexImplied(ts[i]);
  }

  /** `remove_allocation` looks at the row and deletes it in two separate statements. For
      every consistent table and every removable row, a promotion of that row in between
      leaves its server without a primary. */
  lemma PromotionSlipsIn(t: Tables, id: int)
    requires Inv(t) && id in t.allocs && !t.allocs[id].primary
    ensures Inv(Promote(t, id)) && !Inv(DeleteRow(Promote(t, id), id))
  {
    PromoteKeeps(t, id);
    DeleteRowExactly(Promote(t, id), id);
  }

  // ---------------- The tables as a connection sees them ----------------

  class Registry {
    var servers: Servers
    var allocs: Allocs
    var nextServer: int
    var nextAlloc: int

    ghost function View(): Tables
      reads this
    {
      Tables(servers, allocs, nextServer, nextAlloc)
    }

    ghost predicate Valid()
      reads this
    {
      Inv(View())
    }

    constructor ()
      ensures Valid() && servers == map[] && allocs == map[]
    {
      servers, allocs, nextServer, nextAlloc := map[], map[], 1, 1;
    }

    method CreateServer() returns (id: int)
      requires Valid()
      modifies this
      ensures Valid() && id !in old(servers) && View() == Create(old(View()))
      ensures servers == old(servers)[id := Server("local", None, false)] && allocs == old(allocs)
    {
      CreateKeeps(View());
      id := nextServer;
      servers := servers[id := Server("local", None, false)];
      nextServer := nextServer + 1;
    }

    /** The row holding `port` on `node`, if any. */
    method Existing(node: string, port: int) returns (found: Option<int>)
      ensures found.Some? ==> At(allocs, node, port, found.value)
      ensures found.None? ==> forall i :: !At(allocs, node, port, i)
    {
      var left := allocs.Keys;
      while left != {}
        invariant left <= allocs.Keys
        invariant forall i :: At(allocs, node, port, i) ==> i in left
      {
        assert exists k :: k in left by { SomeIn(left); }
        var i :| i in left;
        if allocs[i].node == node && allocs[i].port == port { return Some(i); }
        left := left - {i};
      }
      return None;
    }

    /** `add_allocation`: `None` when refused. */
    method AddAllocation(s: int, port: int, notes: string) returns (id: Option<int>)
      requires Valid()
      modifies this
      ensures Valid() && Step(old(View()), AddOp(s, port, notes), View())
      ensures id.Some? ==> Owns(allocs, s, id.value) && allocs[id.value].port == port && Mirrors(View(), s)
      ensures id.None? ==> View() == old(View())
      ensures id.Some? <==>
                && 1024 <= port <= 65_535 && s in old(servers) && !old(servers)[s].deleted
                && forall i :: At(old(allocs), old(servers)[s].node, port, i) ==> old(allocs)[i].server == s
      ensures id.Some? && id.value in old(allocs) ==>
                && servers == old(servers)
                && allocs == if notes == "" then old(allocs) else old(allocs)[id.value := old(allocs)[id.value].(notes := notes)]
      ensures id.Some? && id.value !in old(allocs) ==>
                var first := !HasPrimary(old(allocs), s);
                && (first <==> forall i :: !Owns(old(allocs), s, i))
                && allocs == old(allocs)[id.value := Alloc(s, old(servers)[s].node, port, first, notes)]
                && servers == if first then old(servers)[s := old(servers)[s].(port := Some(port))] else old(servers)
    {
      ghost var before := View();
      FirstMeans(before, s);
      if !(MIN_PORT <= port <= MAX_PORT) || s !in servers || servers[s].deleted { return None; }
      var node := servers[s].node;
      var found := Existing(node, port);
      var hasPrimary := HasPrimary(allocs, s);
      hide Attached, Noted;
      if found.Some? && allocs[found.value].server != s { return None; }
      if found.Some? {
        id := found;
        NotedKeeps(before, id.value, notes);
        OwnerHasPrimary(before, s, id.value);
        if notes != "" { allocs := allocs[id.value := allocs[id.value].(notes := notes)]; }
        NotedIs(before, id.value, notes);
      } else {
        id := Some(nextAlloc);
        AttachKeeps(before, s, port, notes);
        allocs := allocs[nextAlloc := Alloc(s, node, port, !hasPrimary, notes)];
        nextAlloc := nextAlloc + 1;
      }
      if !hasPrimary { servers := SetPort(servers, s, Some(port)); }
      assert found.None? ==> View() == Attached(before, s, port, notes) by { AttachedIs(before, s, port, notes); }
    }

    /** `set_primary_allocation` */
    method SetPrimaryAllocation(id: int) returns (ok: bool)
      requires Valid()
      modifies this
      ensures Valid() && ok == (id in old(allocs)) && View() == Promote(old(View()), id)
      ensures allocs.Keys == old(allocs).Keys && servers.Keys == old(servers).Keys
      ensures ok ==> forall i :: i in allocs ==>
                if allocs[i].server == old(allocs)[id].server then allocs[i] == old(allocs)[i].(primary := i == id)
                else allocs[i] == old(allocs)[i]
      ensures ok ==> forall u :: u in servers ==>
                if u == old(allocs)[id].server then servers[u] == old(servers)[u].(port := Some(old(allocs)[id].port))
                else servers[u] == old(servers)[u]
      ensures !ok ==> View() == old(View())
    {
      PromoteKeeps(View(), id);
      if id !in allocs { return false; }
      var a := allocs[id];
      allocs := Promoted(allocs, a.server, id);
      servers := SetPort(servers, a.server, Some(a.port));
      return true;
    }

    /** `remove_allocation`, with nothing in between. */
    method RemoveAllocation(id: int) returns (ok: bool)
      requires Valid()
      modifies this`allocs
      ensures Valid() && ok == (id in old(allocs) && !old(allocs)[id].primary)
      ensures View() == if ok then DeleteRow(old(View()), id) else old(View())
      ensures allocs == if ok then old(allocs) - {id} else old(allocs)
    {
      DeleteRowExactly(View(), id);
      if id !in allocs || allocs[id].primary { return false; }
      allocs := allocs - {id};
      return true;
    }

    /** `free_ports` */
    method FreePorts(s: int)
      requires Valid()
      modifies this
      ensures Valid() && View() == Free(old(View()), s)
      ensures forall i :: i in allocs <==> i in old(allocs) && old(allocs)[i].server != s
      ensures forall i :: i in allocs ==> allocs[i] == old(allocs)[i]
      ensures servers.Keys == old(servers).Keys
      ensures forall u :: u in servers ==>
                servers[u] == if u == s then old(servers)[u].(port := None) else old(servers)[u]
    {
      FreeKeeps(View(), s);
      allocs := DropOwned(allocs, s);
      servers := SetPort(servers, s, None);
    }

    /** `delete_server` */
    method DeleteServer(s: int)
      requires Valid()
      modifies this
      ensures Valid() && View() == Delete(old(View()), s)
      ensures forall i :: i in allocs <==> i in old(allocs) && old(allocs)[i].server != s
      ensures forall i :: i in allocs ==> allocs[i] == old(allocs)[i]
      ensures servers.Keys == old(servers).Keys
      ensures forall u :: u in servers ==>
                servers[u] == if u == s then old(servers)[u].(port := None, deleted := true) else old(servers)[u]
    {
      DeleteKeeps(View(), s);
      allocs := DropOwned(allocs, s);
      if s in servers { servers := servers[s := servers[s].(deleted := true, port := None)]; }
    }

    /** `set_server_node`: two statements, each guarded by a unique index, in one
        transaction. */
    method SetServerNode(s: int, node: string) returns (ok: bool)
      requires Valid()
      modifies this
      ensures Valid() && (ok <==> !Clash(old(View()), s, node))
      ensures View() == if ok then Moved(old(View()), s, node) else old(View())
      ensures ServerIndex(servers)
      ensures allocs.Keys == old(allocs).Keys && servers.Keys == old(servers).Keys
      ensures ok ==> forall i :: i in allocs ==>
                allocs[i] == if old(allocs)[i].server == s then old(allocs)[i].(node := node) else old(allocs)[i]
      ensures ok ==> forall u :: u in servers ==>
                servers[u] == if u == s then old(servers)[u].(node := node) else old(servers)[u]
    {
      ghost var before := View();
      var oldAllocs := allocs;
      MoveIndexExactly(before, s, node);
      hide Clash, Inv, AllocIndex;
      allocs := Renode(allocs, s, node);
      if !AllocIndex(allocs) {
        allocs := oldAllocs;
        ServerIndexImplied(View());
        return false;
      }
      if s in servers { servers := servers[s := servers[s].(node := node)]; }
      MoveKeeps(before, s, node);
      ServerIndexImplied(View()); // so the index on servers has nothing to refuse
      return true;
    }
  }

  lemma SomeIn(ks: set<int>)
    ensures ks == {} || exists k :: k in ks
  {
    if forall k :: k !in ks { assert ks == {}; }
  }

  /** Under the invariant, to have no primary is to have nothing. */
  lemma FirstMeans(t: Tables, s: int)
    requires Inv(t)
    ensures !HasPrimary(t.allocs, s) <==> forall i :: !Owns(t.allocs, s, i)
  {
    hide Inv;
    if i :| Owns(t.allocs, s, i) { OwnerHasPrimary(t, s, i); }
  }

  lemma OwnerHasPrimary(t: Tables, s: int, i: int)
    requires Inv(t) && Owns(t.allocs, s, i)
    ensures HasPrimary(t.allocs, s)
  {
    assert s in t.servers && Mirrors(t, s);
    assert t.servers[s].port.Some?;
    var j :| Primary(t.allocs, s, j);
    assert j in t.allocs;
  }

  lemma NotedIs(t: Tables, id: int, notes: string)
    requires id in t.allocs
    ensures Noted(t, id, notes) == if notes == "" then t else t.(allocs := t.allocs[id := t.allocs[id].(notes := notes)])
  {
  }

  lemma AttachedIs(t: Tables, s: int, port: int, notes: string)
    requires s in t.servers
    ensures var first := !HasPrimary(t.allocs, s);
            Attached(t, s, port, notes) ==
            Tables(if first then SetPort(t.servers, s, Some(port)) else t.servers,
                   t.allocs[t.nextAlloc := Alloc(s, t.servers[s].node, port, first, notes)],
                   t.nextServer, t.nextAlloc + 1)
  {
  }
}
