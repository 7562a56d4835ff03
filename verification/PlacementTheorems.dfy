/** What nodes have promised, counted over the operations of a run and not over the table. */
module PlacementTheorems {
  import opened Bytes
  import opened Placement

  /** A claim that was answered with a node: how much it asked for, until when, and whether
      it has been released since. */
  datatype Promise = Promise(id: int, node: int, memory: int, disk: int, until: int, released: bool)

  function OwedMemory(ps: seq<Promise>, node: int, now: int): int {
    if ps == [] then 0
    else
      var p := ps[|ps| - 1];
      OwedMemory(ps[..|ps| - 1], node, now) + (if !p.released && p.node == node && now < p.until then p.memory else 0)
  }

  function OwedDisk(ps: seq<Promise>, node: int, now: int): int {
    if ps == [] then 0
    else
      var p := ps[|ps| - 1];
      OwedDisk(ps[..|ps| - 1], node, now) + (if !p.released && p.node == node && now < p.until then p.disk else 0)
  }

  /** The committed promises, and those the open transaction would commit. */
  datatype Books = Books(committed: seq<Promise>, open: seq<Promise>)

  /** What a claim is answered. */
  function Given(t: Table, nodes: seq<Node>, now: int, q: Query): Option<Node> {
    Pick(nodes, Unexpired(t.rows, now), now, q)
  }

  function Promised(ps: seq<Promise>, id: int, given: Option<Node>, now: int, ttl: int, q: Query): seq<Promise> {
    if given.None? then ps else ps + [Promise(id, given.value.id, q.memory, q.disk, now + ttl, false)]
  }

  function Released(ps: seq<Promise>, id: int): (r: seq<Promise>)
    ensures |r| == |ps| && forall i :: 0 <= i < |ps| ==> r[i] == if ps[i].id == id then ps[i].(released := true) else ps[i]
  {
    if ps == [] then []
    else
      var p := ps[|ps| - 1];
      Released(ps[..|ps| - 1], id) + [if p.id == id then p.(released := true) else p]
  }

  /** What one operation adds to the books. */
  function Entered(b: Books, db: Db, op: Op): Books {
    match op
    case BeginClaim(nodes, ttl, q) =>
      b.(open := Promised(b.committed, db.table.nextId, Given(db.table, nodes, db.now, q), db.now, ttl, q))
    case ClaimAgain(nodes, ttl, q) =>
      if db.tx.None? then b
      else b.(open := Promised(b.open, db.tx.value.nextId, Given(db.tx.value, nodes, db.now, q), db.now, ttl, q))
    case Commit => b.(committed := b.open)
    case ReleaseOp(id) => b.(committed := Released(b.committed, id))
    case _ => b
  }

  ghost function After(dbs: seq<Db>, ops: seq<Op>, i: nat): Books
    requires |dbs| == |ops| + 1 && i <= |ops|
  {
    if i == 0 then Books([], []) else Entered(After(dbs, ops, i - 1), dbs[i - 1], ops[i - 1])
  }

  // ---------------- The table holds what is promised ----------------

  function RowOf(p: Promise): Row {
    Row(p.id, p.node, p.memory, p.disk, p.until)
  }

  /** The rows the promises ask for: neither released nor past their time. */
  function Standing(ps: seq<Promise>, now: int): seq<Row> {
    if ps == [] then []
    else
      var front, p := Standing(ps[..|ps| - 1], now), ps[|ps| - 1];
      if p.released || p.until < now then front else front + [RowOf(p)]
  }

  ghost predicate Covers(ps: seq<Promise>, rows: seq<Row>, now: int) {
    Unexpired(rows, now) == Standing(ps, now)
  }

  lemma UnexpiredSnoc(rows: seq<Row>, r: Row, now: int)
    ensures Unexpired(rows + [r], now) == if r.until < now then Unexpired(rows, now) else Unexpired(rows, now) + [r]
  {
    assert (rows + [r])[..|rows|] == rows;
  }

  lemma WithoutSnoc(rows: seq<Row>, r: Row, id: int)
    ensures Without(rows + [r], id) == if r.id == id then Without(rows, id) else Without(rows, id) + [r]
  {
    assert (rows + [r])[..|rows|] == rows;
  }

  lemma {:induction false} UnexpiredLater(rows: seq<Row>, now: int, later: int)
    requires now <= later
    ensures Unexpired(Unexpired(rows, now), later) == Unexpired(rows, later)
  {
    if rows != [] {
      var front, last := rows[..|rows| - 1], rows[|rows| - 1];
      UnexpiredLater(front, now, later);
      UnexpiredSnoc(Unexpired(front, now), last, later);
    }
  }

  lemma {:induction false} StandingLater(ps: seq<Promise>, now: int, later: int)
    requires now <= later
    ensures Unexpired(Standing(ps, now), later) == Standing(ps, later)
  {
    if ps != [] {
      var front, p := ps[..|ps| - 1], ps[|ps| - 1];
      StandingLater(front, now, later);
      UnexpiredSnoc(Standing(front, now), RowOf(p), later);
    }
  }

  lemma {:induction false} WithoutUnexpired(rows: seq<Row>, id: int, now: int)
    ensures Unexpired(Without(rows, id), now) == Without(Unexpired(rows, now), id)
  {
    if rows != [] {
      var front, last := rows[..|rows| - 1], rows[|rows| - 1];
      WithoutUnexpired(front, id, now);
      UnexpiredSnoc(Without(front, id), last, now);
      WithoutSnoc(Unexpired(front, now), last, id);
    }
  }

  lemma {:induction false} WithoutStanding(ps: seq<Promise>, id: int, now: int)
    ensures Standing(Released(ps, id), now) == Without(Standing(ps, now), id)
  {
    if ps != [] {
      var front, p := ps[..|ps| - 1], ps[|ps| - 1];
      WithoutStanding(front, id, now);
      WithoutSnoc(Standing(front, now), RowOf(p), id);
      var r := Released(ps, id);
      assert r[..|r| - 1] == Released(front, id);
    }
  }

  lemma TickCovers(ps: seq<Promise>, rows: seq<Row>, now: int, later: int)
    requires Covers(ps, rows, now) && now <= later
    ensures Covers(ps, rows, later)
  {
    UnexpiredLater(rows, now, later);
    StandingLater(ps, now, later);
  }

  lemma ReleaseCovers(ps: seq<Promise>, rows: seq<Row>, id: int, now: int)
    requires Covers(ps, rows, now)
    ensures Covers(Released(ps, id), Without(rows, id), now)
  {
    WithoutUnexpired(rows, id, now);
    WithoutStanding(ps, id, now);
  }

  lemma ExpiryCovers(ps: seq<Promise>, rows: seq<Row>, now: int)
    requires Covers(ps, rows, now)
    ensures Covers(ps, Unexpired(rows, now), now)
  {
    UnexpiredTwice(rows, now);
  }

  lemma ClaimCovers(ps: seq<Promise>, t: Table, nodes: seq<Node>, now: int, ttl: int, q: Query)
    requires Covers(ps, t.rows, now)
    ensures Covers(Promised(ps, t.nextId, Given(t, nodes, now, q), now, ttl, q), Claim(t, nodes, now, ttl, q).rows, now)
  {
    hide Pick;
    var rows, given := Unexpired(t.rows, now), Given(t, nodes, now, q);
    UnexpiredTwice(t.rows, now);
    if given.Some? {
      var r := Row(t.nextId, given.value.id, q.memory, q.disk, now + ttl);
      UnexpiredSnoc(rows, r, now);
      var p := Promise(t.nextId, given.value.id, q.memory, q.disk, now + ttl, false);
      assert (ps + [p])[..|ps|] == ps;
    }
  }

  ghost predicate BooksCover(b: Books, db: Db) {
    Covers(b.committed, db.table.rows, db.now) && (db.tx.Some? ==> Covers(b.open, db.tx.value.rows, db.now))
  }

  lemma EnteredCovers(b: Books, db: Db, op: Op, cap: Capacity)
    requires BooksCover(b, db) && Enabled(db, op, cap)
    ensures BooksCover(Entered(b, db, op), Apply(db, op))
  {
    hide Covers, Claim, Reports, Unexpired, Without, Pick, Promised, Released, Given;
    match op
    case BeginClaim(nodes, ttl, q) => ClaimCovers(b.committed, db.table, nodes, db.now, ttl, q);
    case ClaimAgain(nodes, ttl, q) => ClaimCovers(b.open, db.tx.value, nodes, db.now, ttl, q);
    case DryRun(_, _) => ExpiryCovers(b.committed, db.table.rows, db.now);
    case ReleaseOp(id) => ReleaseCovers(b.committed, db.table.rows, id, db.now);
    case Tick(secs) =>
      TickCovers(b.committed, db.table.rows, db.now, db.now + secs);
      if db.tx.Some? { TickCovers(b.open, db.tx.value.rows, db.now, db.now + secs); }
    case _ =>
  }

  ghost predicate FromEmpty(dbs: seq<Db>, ops: seq<Op>, cap: Capacity) {
    IsRun(dbs, ops, cap) && dbs[0].table.rows == [] && dbs[0].tx.None?
  }

  lemma {:induction false} AfterCovers(dbs: seq<Db>, ops: seq<Op>, cap: Capacity, i: nat)
    requires FromEmpty(dbs, ops, cap) && i <= |ops|
    ensures BooksCover(After(dbs, ops, i), dbs[i])
  {
    hide Apply, Enabled, Entered;
    if i > 0 {
      hide BooksCover;
      AfterCovers(dbs, ops, cap, i - 1);
      assert StepAt(dbs, ops, i - 1, cap);
      EnteredCovers(After(dbs, ops, i - 1), dbs[i - 1], ops[i - 1], cap);
    }
  }

  // ---------------- The two sums agree ----------------

  lemma {:induction false} StandingSums(ps: seq<Promise>, node: int, now: int)
    ensures ReservedMemory(Standing(ps, now), node, now) == OwedMemory(ps, node, now)
    ensures ReservedDisk(Standing(ps, now), node, now) == OwedDisk(ps, node, now)
  {
    if ps != [] {
      var front, p := ps[..|ps| - 1], ps[|ps| - 1];
      StandingSums(front, node, now);
      ReservedSnoc(Standing(front, now), RowOf(p), node, now);
      hide ReservedMemory, ReservedDisk;
      assert Standing(ps, now) == if p.released || p.until < now then Standing(front, now) else Standing(front, now) + [RowOf(p)];
    }
  }

  /** What the table counts against a node is what the node owes. */
  lemma OwedIsReserved(ps: seq<Promise>, rows: seq<Row>, node: int, now: int)
    requires Covers(ps, rows, now)
    ensures ReservedMemory(rows, node, now) == OwedMemory(ps, node, now)
    ensures ReservedDisk(rows, node, now) == OwedDisk(ps, node, now)
  {
    hide ReservedMemory, ReservedDisk;
    ExpiryIsIdle(rows, node, now);
    StandingSums(ps, node, now);
  }

  ghost predicate WithinRoom(ps: seq<Promise>, now: int, cap: Capacity) {
    forall id :: id in cap ==>
      && OwedMemory(ps, id, now) <= (if cap[id].0 > 0 then cap[id].0 else 0)
      && OwedDisk(ps, id, now) <= (if cap[id].1 > 0 then cap[id].1 else 0)
  }

  /** In every run, what a node was asked for by the claims it was given, committed and not
      released, whose time plus lifetime is still ahead, sums to no more than its room; and
      so it would be if the open transaction committed. */
  lemma PromisesKept(dbs: seq<Db>, ops: seq<Op>, cap: Capacity, i: nat)
    requires FromEmpty(dbs, ops, cap) && i <= |ops|
    ensures WithinRoom(After(dbs, ops, i).committed, dbs[i].now, cap)
    ensures dbs[i].tx.Some? ==> WithinRoom(After(dbs, ops, i).open, dbs[i].now, cap)
  {
    hide ReservedMemory, ReservedDisk, OwedMemory, OwedDisk, Covers, StepAt;
    var b, db := After(dbs, ops, i), dbs[i];
    NeverOverbooked(dbs, ops, cap, i);
    AfterCovers(dbs, ops, cap, i);
    forall id | id in cap
      ensures OwedMemory(b.committed, id, db.now) <= AtLeastZero(cap[id].0)
              && OwedDisk(b.committed, id, db.now) <= AtLeastZero(cap[id].1)
    {
      OwedIsReserved(b.committed, db.table.rows, id, db.now);
    }
    if db.tx.Some? {
      forall id | id in cap
        ensures OwedMemory(b.open, id, db.now) <= AtLeastZero(cap[id].0) && OwedDisk(b.open, id, db.now) <= AtLeastZero(cap[id].1)
      {
        OwedIsReserved(b.open, db.tx.value.rows, id, db.now);
      }
    }
  }

  // ---------------- Admission ----------------

  /** The node may take servers at all: up, enabled, open to scheduling, neither in
      maintenance nor draining, in the place asked for and with every tag asked for. */
  ghost predicate Open(n: Node, q: Query) {
    && n.online && n.enabled && n.schedulable && !n.maintenance && |n.drainMode| == 0
    && (q.location.None? || |q.location.value| == 0 || n.location == q.location.value)
    && (forall tag :: tag in q.tags ==> tag in n.tags)
  }

  /** What it owes and what is asked for fit into what it has. */
  ghost predicate HasRoom(n: Node, ps: seq<Promise>, now: int, q: Query) {
    && OwedMemory(ps, n.id, now) + q.memory <= AvailableMb(n.memory)
    && OwedDisk(ps, n.id, now) + q.disk <= AvailableMb(n.disk)
  }

  lemma EligibleMeans(n: Node, ps: seq<Promise>, rows: seq<Row>, now: int, q: Query)
    requires Covers(ps, rows, now) && NonNegative(rows) && q.memory >= 0 && q.disk >= 0
    ensures Eligible(n, Unexpired(rows, now), now, q) <==> Open(n, q) && HasRoom(n, ps, now, q)
  {
    hide ReservedMemory, ReservedDisk, OwedMemory, OwedDisk, AvailableMb;
    OwedIsReserved(ps, rows, n.id, now);
    ExpiryIsIdle(rows, n.id, now);
    ReservedBounds(rows, n.id, now, now);
    AvailableInRange(n.memory);
    AvailableInRange(n.disk);
    hide Covers, Unexpired;
    OpenMeans(n, q);
  }

  lemma OpenMeans(n: Node, q: Query)
    ensures Placeable(n, q) <==> Open(n, q)
  {
    if Placeable(n, q) {
      forall tag | tag in q.tags ensures tag in n.tags {
        var i :| 0 <= i < |q.tags| && q.tags[i] == tag;
      }
    }
  }

  /** A request is refused if and only if every node is closed to it or has no room beside
      what it owes; otherwise it is given an open node with room, and no such node scores
      lower. */
  ghost predicate Admits(ps: seq<Promise>, given: Option<Node>, nodes: seq<Node>, now: int, q: Query) {
    && (given.None? <==> forall n :: n in nodes ==> !(Open(n, q) && HasRoom(n, ps, now, q)))
    && (given.Some? ==> given.value in nodes && Open(given.value, q) && HasRoom(given.value, ps, now, q))
    && (given.Some? ==> forall n :: n in nodes && Open(n, q) && HasRoom(n, ps, now, q) ==> Score(given.value) <= Score(n))
  }

  lemma TableAdmits(ps: seq<Promise>, t: Table, nodes: seq<Node>, now: int, q: Query)
    requires Covers(ps, t.rows, now) && NonNegative(t.rows) && q.memory >= 0 && q.disk >= 0
    ensures Admits(ps, Given(t, nodes, now, q), nodes, now, q)
  {
    hide Open, HasRoom, Eligible, Score, Pick, Covers, Unexpired;
    PickIsBest(nodes, Unexpired(t.rows, now), now, q);
    forall n ensures Eligible(n, Unexpired(t.rows, now), now, q) <==> Open(n, q) && HasRoom(n, ps, now, q) {
      EligibleMeans(n, ps, t.rows, now, q);
    }
  }

  /** That is how requests are answered in every reachable state, on the committed table and
      inside an open transaction. */
  lemma AdmissionExactly(dbs: seq<Db>, ops: seq<Op>, cap: Capacity, i: nat, nodes: seq<Node>, q: Query)
    requires FromEmpty(dbs, ops, cap) && i <= |ops| && q.memory >= 0 && q.disk >= 0
    ensures var b, db := After(dbs, ops, i), dbs[i];
            && Admits(b.committed, Given(db.table, nodes, db.now, q), nodes, db.now, q)
            && (db.tx.Some? ==> Admits(b.open, Given(db.tx.value, nodes, db.now, q), nodes, db.now, q))
  {
    hide Admits, Given, StepAt, Covers, ReservedMemory, ReservedDisk;
    var b, db := After(dbs, ops, i), dbs[i];
    AfterCovers(dbs, ops, cap, i);
    NeverOverbooked(dbs, ops, cap, i);
    TableAdmits(b.committed, db.table, nodes, db.now, q);
    if db.tx.Some? { TableAdmits(b.open, db.tx.value, nodes, db.now, q); }
  }

  /** The weights of the score: a point per percent of processor and per percent of memory
      in use, two per running server. */
  lemma ScoreWeighs(n: Node, cpu: real, used: nat, running: nat)
    requires n.memory.total > 0
    ensures var m := n.(cpuPercent := n.cpuPercent + cpu, serversRunning := n.serversRunning + running,
                        memory := n.memory.(used := n.memory.used + used));
            Score(m) == Score(n) + cpu + 100.0 * (used as real / n.memory.total as real) + 2.0 * running as real
    ensures n.cpuPercent == 0.0 && n.memory.used == 0 && n.serversRunning == 0 ==> Score(n) == 0.0
  {
    var total := n.memory.total as real;
    assert (n.memory.used + used) as real / total == n.memory.used as real / total + used as real / total;
  }
}
