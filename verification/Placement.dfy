/** Placing a server on a node: available capacity, outstanding reservations, and the
    choice of the least loaded node that fits. */
module Placement {
  import opened Bytes

  const I64_MIN: int := -0x8000_0000_0000_0000
  const I64_MAX: int := 0x7FFF_FFFF_FFFF_FFFF
  const MIB: nat := 1_048_576

  function Clamp(x: int): int {
    if x > I64_MAX then I64_MAX else if x < I64_MIN then I64_MIN else x
  }

  /** Division by a hundred, rounding towards zero. */
  function Percent(x: int): int {
    if x >= 0 then x / 100 else -((-x) / 100)
  }

  /** One resource of a node: operator limit in MB (0: none), over-allocation in percent,
      and the bytes the agent last reported. */
  datatype Resource = Resource(limitMb: int, overallocate: int, total: nat, used: nat)

  /** The operator's limit, or else what the agent reports. */
  function Hard(r: Resource): int {
    if r.limitMb > 0 then r.limitMb else r.total / MIB
  }

  /** `available_memory_mb` and `available_disk_mb`, with their saturation. */
  function AvailableMb(r: Resource): int {
    Clamp(Percent(Clamp(Hard(r) * (100 + r.overallocate))) - r.used / MIB)
  }

  /** Whatever the limits: of the over-allocated limit, saturated, the whole part nearer to
      zero, less what is used. A 64-bit byte count never saturates the difference. */
  lemma AvailableMeans(r: Resource)
    requires r.used < 0x1_0000_0000_0000_0000
    ensures var x := Clamp(Hard(r) * (100 + r.overallocate));
            var allowed := AvailableMb(r) + r.used / MIB;
            && (x >= 0 ==> 0 <= 100 * allowed <= x < 100 * allowed + 100)
            && (x <= 0 ==> 100 * allowed - 100 < x <= 100 * allowed <= 0)
    ensures r.overallocate == 0 && 0 < 100 * r.limitMb <= I64_MAX ==> AvailableMb(r) == r.limitMb - r.used / MIB
    ensures r.overallocate == 0 && r.limitMb <= 0 && 100 * (r.total / MIB) <= I64_MAX ==>
              AvailableMb(r) == r.total / MIB - r.used / MIB
  {
    var x := Clamp(Hard(r) * (100 + r.overallocate));
    assert 0 <= r.used / MIB <= 0x1000_0000_0000;
    assert AvailableMb(r) == Percent(x) - r.used / MIB;
    if r.overallocate == 0 { assert Hard(r) * (100 + r.overallocate) == 100 * Hard(r); }
  }

  datatype Node = Node(
    id: int, online: bool, enabled: bool, schedulable: bool, maintenance: bool, drainMode: string,
    location: string, tags: seq<string>, memory: Resource, disk: Resource, cpuPercent: real, serversRunning: nat)

  /** What is asked for. */
  datatype Query = Query(memory: int, disk: int, tags: seq<string>, location: Option<string>)

  datatype Row = Row(id: int, node: int, memory: int, disk: int, until: int)

  // ---------------- Reservations ----------------

  predicate Live(r: Row, node: int, now: int) {
    r.node == node && r.until > now
  }

  /** `reserved_usage`, memory and disk. */
  function ReservedMemory(rows: seq<Row>, node: int, now: int): int {
    if rows == [] then 0
    else ReservedMemory(rows[..|rows| - 1], node, now)
         + (if Live(rows[|rows| - 1], node, now) then rows[|rows| - 1].memory else 0)
  }

  function ReservedDisk(rows: seq<Row>, node: int, now: int): int {
    if rows == [] then 0
    else ReservedDisk(rows[..|rows| - 1], node, now)
         + (if Live(rows[|rows| - 1], node, now) then rows[|rows| - 1].disk else 0)
  }

  /** `DELETE ... WHERE reserved_until < now` */
  function Unexpired(rows: seq<Row>, now: int): seq<Row> {
    if rows == [] then []
    else
      var front, last := Unexpired(rows[..|rows| - 1], now), rows[|rows| - 1];
      if last.until < now then front else front + [last]
  }

  function Without(rows: seq<Row>, id: int): seq<Row> {
    if rows == [] then []
    else
      var front, last := Without(rows[..|rows| - 1], id), rows[|rows| - 1];
      if last.id == id then front else front + [last]
  }

  // ---------------- The choice ----------------

  predicate Placeable(n: Node, q: Query) {
    && n.online && n.enabled && n.schedulable && !n.maintenance && n.drainMode == ""
    && (q.location.Some? && q.location.value != "" ==> n.location == q.location.value)
    && (forall i :: 0 <= i < |q.tags| ==> q.tags[i] in n.tags)
  }

  predicate Fits(n: Node, rows: seq<Row>, now: int, q: Query) {
    && Clamp(AvailableMb(n.memory) - ReservedMemory(rows, n.id, now)) >= q.memory
    && Clamp(AvailableMb(n.disk) - ReservedDisk(rows, n.id, now)) >= q.disk
  }

  predicate Eligible(n: Node, rows: seq<Row>, now: int, q: Query) {
    Placeable(n, q) && Fits(n, rows, now, q)
  }

  function Score(n: Node): real {
    var total := if n.memory.total > 0 then n.memory.total else 1;
    n.cpuPercent + n.memory.used as real / total as real * 100.0 + n.serversRunning as real * 2.0
  }

  /** Where a stable sort puts `n` behind everything not worse than it. */
  function Insert(sorted: seq<Node>, n: Node): (r: seq<Node>)
    ensures r != []
  {
    if sorted == [] || Score(sorted[|sorted| - 1]) <= Score(n) then sorted + [n]
    else Insert(sorted[..|sorted| - 1], n) + [sorted[|sorted| - 1]]
  }

  function Sorted(ns: seq<Node>): (r: seq<Node>)
    ensures ns != [] ==> r != []
  {
    if ns == [] then [] else Insert(Sorted(ns[..|ns| - 1]), ns[|ns| - 1])
  }

  function Candidates(nodes: seq<Node>, rows: seq<Row>, now: int, q: Query): seq<Node> {
    if nodes == [] then []
    else
      var front, last := Candidates(nodes[..|nodes| - 1], rows, now, q), nodes[|nodes| - 1];
      if Eligible(last, rows, now, q) then front + [last] else front
  }

  function Pick(nodes: seq<Node>, rows: seq<Row>, now: int, q: Query): Option<Node> {
    var c := Candidates(nodes, rows, now, q);
    if c == [] then None else Some(Sorted(c)[0])
  }

  /** The same nodes in the same order, one of them worth its place: earliest among the
      lowest scores. */
  ghost predicate FirstLowest(ns: seq<Node>, k: int) {
    && 0 <= k < |ns|
    && (forall i :: 0 <= i < |ns| ==> Score(ns[k]) <= Score(ns[i]))
    && (forall i :: 0 <= i < k ==> Score(ns[k]) < Score(ns[i]))
  }

  ghost predicate LedByLowest(ns: seq<Node>) {
    forall i :: 0 <= i < |ns| ==> Score(ns[0]) <= Score(ns[i])
  }

  lemma {:induction false} InsertHead(sorted: seq<Node>, n: Node)
    requires LedByLowest(sorted)
    ensures LedByLowest(Insert(sorted, n))
    ensures Insert(sorted, n)[0] == if sorted == [] || Score(n) < Score(sorted[0]) then n else sorted[0]
  {
    hide Score;
    if sorted != [] && Score(sorted[|sorted| - 1]) > Score(n) {
      var front := sorted[..|sorted| - 1];
      assert LedByLowest(front);
      InsertHead(front, n);
    }
  }

  lemma FirstLowestSnoc(ns: seq<Node>, k: int, n: Node)
    requires FirstLowest(ns, k)
    ensures FirstLowest(ns + [n], if Score(n) < Score(ns[k]) then |ns| else k)
  {
    hide Score;
  }

  lemma {:induction false} SortedHead(ns: seq<Node>) returns (k: int)
    requires ns != []
    ensures FirstLowest(ns, k) && Sorted(ns)[0] == ns[k]
    ensures LedByLowest(Sorted(ns))
  {
    hide Score, FirstLowest, LedByLowest, Insert;
    var n := |ns| - 1;
    var front := ns[..n];
    if n == 0 {
      k := 0;
      OneSorted(ns);
    } else {
      k := SortedHead(front);
      InsertHead(Sorted(front), ns[n]);
      FirstLowestSnoc(front, k, ns[n]);
      assert front + [ns[n]] == ns;
      assert 0 <= k < n by { FirstLowestIndex(front, k); }
      if Score(ns[n]) < Score(ns[k]) { k := n; }
    }
  }

  lemma FirstLowestIndex(ns: seq<Node>, k: int)
    requires FirstLowest(ns, k)
    ensures 0 <= k < |ns|
  {
  }

  lemma OneSorted(ns: seq<Node>)
    requires |ns| == 1
    ensures Sorted(ns) == ns && FirstLowest(ns, 0) && LedByLowest(ns)
  {
    hide Score;
    assert ns[..0] == [];
    assert Sorted(ns[..0]) == [];
    assert ns == [ns[0]];
  }

  lemma {:induction false} CandidatesAre(nodes: seq<Node>, rows: seq<Row>, now: int, q: Query)
    ensures forall n :: n in Candidates(nodes, rows, now, q) <==> n in nodes && Eligible(n, rows, now, q)
  {
    hide Eligible;
    if nodes != [] {
      var k := |nodes| - 1;
      CandidatesAre(nodes[..k], rows, now, q);
      assert nodes == nodes[..k] + [nodes[k]];
    }
  }

  /** The choice is an eligible node, none eligible scores lower, and it fails only when
      no node is eligible. */
  lemma PickIsBest(nodes: seq<Node>, rows: seq<Row>, now: int, q: Query)
    ensures var p := Pick(nodes, rows, now, q);
            && (p.None? <==> forall n :: n in nodes ==> !Eligible(n, rows, now, q))
            && (p.Some? ==> p.value in nodes && Eligible(p.value, rows, now, q))
            && (p.Some? ==> forall n :: n in nodes && Eligible(n, rows, now, q) ==> Score(p.value) <= Score(n))
  {
    hide Eligible, Score;
    CandidatesAre(nodes, rows, now, q);
    var c := Candidates(nodes, rows, now, q);
    if c != [] {
      var k := SortedHead(c);
      assert c[k] in c;
      forall n | n in nodes && Eligible(n, rows, now, q) ensures Score(c[k]) <= Score(n) {
        assert n in c;
      }
    } else {
      forall n | n in nodes ensures !Eligible(n, rows, now, q) { assert n !in c; }
    }
  }

  /** Among equals the one listed first. */
  lemma PickIsFirst(nodes: seq<Node>, rows: seq<Row>, now: int, q: Query) returns (k: int)
    requires Pick(nodes, rows, now, q).Some?
    ensures var c := Candidates(nodes, rows, now, q);
            FirstLowest(c, k) && c[k] == Pick(nodes, rows, now, q).value
  {
    hide Candidates, Sorted, Score;
    k := SortedHead(Candidates(nodes, rows, now, q));
  }

  // ---------------- Sums ----------------

  ghost predicate NonNegative(rows: seq<Row>) {
    forall i :: 0 <= i < |rows| ==> rows[i].memory >= 0 && rows[i].disk >= 0
  }

  lemma {:induction false} ReservedBounds(rows: seq<Row>, node: int, now: int, later: int)
    requires NonNegative(rows) && now <= later
    ensures 0 <= ReservedMemory(rows, node, later) <= ReservedMemory(rows, node, now)
    ensures 0 <= ReservedDisk(rows, node, later) <= ReservedDisk(rows, node, now)
  {
    if rows != [] { ReservedBounds(rows[..|rows| - 1], node, now, later); }
  }

  lemma ReservedSnoc(rows: seq<Row>, r: Row, node: int, now: int)
    ensures ReservedMemory(rows + [r], node, now) == ReservedMemory(rows, node, now) + (if Live(r, node, now) then r.memory else 0)
    ensures ReservedDisk(rows + [r], node, now) == ReservedDisk(rows, node, now) + (if Live(r, node, now) then r.disk else 0)
  {
    assert (rows + [r])[..|rows|] == rows;
  }

  /** Rows past their time count for nothing, so dropping them changes no sum. */
  lemma {:induction false} ExpiryIsIdle(rows: seq<Row>, node: int, now: int)
    ensures ReservedMemory(Unexpired(rows, now), node, now) == ReservedMemory(rows, node, now)
    ensures ReservedDisk(Unexpired(rows, now), node, now) == ReservedDisk(rows, node, now)
  {
    if rows != [] {
      var front, last := rows[..|rows| - 1], rows[|rows| - 1];
      assert rows == front + [last];
      ExpiryIsIdle(front, node, now);
      ReservedSnoc(front, last, node, now);
      ReservedSnoc(Unexpired(front, now), last, node, now);
      hide ReservedMemory, ReservedDisk;
      assert Unexpired(rows, now) == if last.until < now then Unexpired(front, now) else Unexpired(front, now) + [last];
    }
  }

  lemma {:induction false} ExpiryNonNegative(rows: seq<Row>, now: int)
    requires NonNegative(rows)
    ensures NonNegative(Unexpired(rows, now))
  {
    if rows != [] {
      ExpiryNonNegative(rows[..|rows| - 1], now);
    }
  }

  lemma {:induction false} ReleaseShrinks(rows: seq<Row>, id: int, node: int, now: int)
    requires NonNegative(rows)
    ensures ReservedMemory(Without(rows, id), node, now) <= ReservedMemory(rows, node, now)
    ensures ReservedDisk(Without(rows, id), node, now) <= ReservedDisk(rows, node, now)
  {
    if rows != [] {
      var front, last := rows[..|rows| - 1], rows[|rows| - 1];
      assert rows == front + [last];
      ReleaseShrinks(front, id, node, now);
      ReservedSnoc(front, last, node, now);
      ReservedSnoc(Without(front, id), last, node, now);
      hide ReservedMemory, ReservedDisk;
      assert last.memory >= 0 && last.disk >= 0;
      assert Without(rows, id) == if last.id == id then Without(front, id) else Without(front, id) + [last];
    }
  }

  lemma {:induction false} ReleaseNonNegative(rows: seq<Row>, id: int)
    requires NonNegative(rows)
    ensures NonNegative(Without(rows, id))
  {
    if rows != [] {
      ReleaseNonNegative(rows[..|rows| - 1], id);
    }
  }

  // ---------------- The reservation table ----------------

  /** The `node_reservations` table as a transaction sees it. */
  class Ledger {
    var rows: seq<Row>
    var nextId: int

    constructor ()
      ensures rows == [] && nextId == 1
    {
      rows, nextId := [], 1;
    }

    /** `expire_stale_reservations` */
    method ExpireStale(now: int)
      modifies this`rows
      ensures rows == Unexpired(old(rows), now)
    {
      var kept: seq<Row> := [];
      for i := 0 to |rows|
        invariant rows == old(rows)
        invariant kept == Unexpired(rows[..i], now)
      {
        assert rows[..i + 1][..i] == rows[..i];
        if rows[i].until >= now { kept := kept + [rows[i]]; }
      }
      assert rows[..|rows|] == rows;
      rows := kept;
    }

    /** `pick_node_tx`: filter, sort, take the first. */
    method PickNode(nodes: seq<Node>, now: int, q: Query) returns (chosen: Option<Node>)
      ensures chosen == Pick(nodes, rows, now, q)
    {
      var candidates: seq<Node> := [];
      for i := 0 to |nodes|
        invariant candidates == Candidates(nodes[..i], rows, now, q)
      {
        assert nodes[..i + 1][..i] == nodes[..i];
        if Eligible(nodes[i], rows, now, q) { candidates := candidates + [nodes[i]]; }
      }
      assert nodes[..|nodes|] == nodes;
      if candidates == [] { return None; }
      var sorted: seq<Node> := [];
      for i := 0 to |candidates|
        invariant sorted == Sorted(candidates[..i])
      {
        assert candidates[..i + 1][..i] == candidates[..i];
        sorted := Insert(sorted, candidates[i]);
      }
      assert candidates[..|candidates|] == candidates;
      chosen := Some(sorted[0]);
    }

    /** `select_for_server`: the dry run. A failure rolls the clean-up back. */
    method SelectForServer(nodes: seq<Node>, now: int, q: Query) returns (chosen: Option<Node>)
      modifies this`rows
      ensures chosen == Pick(nodes, Unexpired(old(rows), now), now, q)
      ensures rows == if chosen.Some? then Unexpired(old(rows), now) else old(rows)
    {
      var before := rows;
      ExpireStale(now);
      chosen := PickNode(nodes, now, q);
      if chosen.None? { rows := before; }
    }

    /** `reserve_capacity_tx` inside the caller's transaction. */
    method ReserveCapacity(nodes: seq<Node>, now: int, ttl: int, q: Query) returns (chosen: Option<Node>, id: int)
      modifies this
      ensures chosen == Pick(nodes, Unexpired(old(rows), now), now, q)
      ensures Table(rows, nextId) == Claim(Table(old(rows), old(nextId)), nodes, now, ttl, q)
      ensures id == old(nextId)
    {
      id := nextId;
      ExpireStale(now);
      chosen := PickNode(nodes, now, q);
      if chosen.Some? {
        rows := rows + [Row(id, chosen.value.id, q.memory, q.disk, now + ttl)];
        nextId := nextId + 1;
      }
    }

    /** `release_reservation`: idempotent. */
    method Release(id: int)
      modifies this`rows
      ensures rows == Without(old(rows), id)
    {
      var kept: seq<Row> := [];
      for i := 0 to |rows|
        invariant rows == old(rows)
        invariant kept == Without(rows[..i], id)
      {
        assert rows[..i + 1][..i] == rows[..i];
        if rows[i].id != id { kept := kept + [rows[i]]; }
      }
      assert rows[..|rows|] == rows;
      rows := kept;
    }
  }

  datatype Table = Table(rows: seq<Row>, nextId: int)

  function Claim(t: Table, nodes: seq<Node>, now: int, ttl: int, q: Query): Table {
    var rows := Unexpired(t.rows, now);
    var p := Pick(nodes, rows, now, q);
    if p.None? then Table(rows, t.nextId)
    else Table(rows + [Row(t.nextId, p.value.id, q.memory, q.disk, now + ttl)], t.nextId + 1)
  }

  // ---------------- Runs ----------------

  /** Committed table, the open transaction's view if any, and the clock. */
  datatype Db = Db(table: Table, tx: Option<Table>, now: int)

  datatype Op =
    | BeginClaim(nodes: seq<Node>, ttl: int, q: Query)  // opens a transaction and claims
    | ClaimAgain(nodes: seq<Node>, ttl: int, q: Query)  // claims once more inside it
    | Commit
    | Rollback
    | DryRun(nodes: seq<Node>, q: Query)
    | ReleaseOp(id: int)
    | Tick(secs: nat)

  /** Capacity by node id, fixed for the run. Flags, drains, tags and scores are free. */
  type Capacity = map<int, (int, int)>

  ghost predicate Reports(nodes: seq<Node>, cap: Capacity) {
    forall n :: n in nodes ==> n.id in cap && cap[n.id] == (AvailableMb(n.memory), AvailableMb(n.disk))
  }

  /** Only one connection writes: reads and releases wait for the open transaction. */
  ghost predicate Enabled(db: Db, op: Op, cap: Capacity) {
    match op
    case BeginClaim(nodes, _, q) => db.tx.None? && Reports(nodes, cap) && q.memory >= 0 && q.disk >= 0
    case ClaimAgain(nodes, _, q) => db.tx.Some? && Reports(nodes, cap) && q.memory >= 0 && q.disk >= 0
    case Commit => db.tx.Some?
    case Rollback => db.tx.Some?
    case DryRun(nodes, _) => db.tx.None?
    case ReleaseOp(_) => db.tx.None?
    case Tick(_) => true
  }

  function Apply(db: Db, op: Op): Db {
    match op
    case BeginClaim(nodes, ttl, q) => db.(tx := Some(Claim(db.table, nodes, db.now, ttl, q)))
    case ClaimAgain(nodes, ttl, q) =>
      if db.tx.None? then db else db.(tx := Some(Claim(db.tx.value, nodes, db.now, ttl, q)))
    case Commit => if db.tx.None? then db else Db(db.tx.value, None, db.now)
    case Rollback => db.(tx := None)
    case DryRun(nodes, q) =>
      var rows := Unexpired(db.table.rows, db.now);
      if Pick(nodes, rows, db.now, q).Some? then db.(table := db.table.(rows := rows)) else db
    case ReleaseOp(id) => db.(table := db.table.(rows := Without(db.table.rows, id)))
    case Tick(secs) => db.(now := db.now + secs)
  }

  function AtLeastZero(x: int): int {
    if x < 0 then 0 else x
  }

  /** Ids are handed out once. */
  ghost predicate Fresh(t: Table) {
    forall i :: 0 <= i < |t.rows| ==> t.rows[i].id < t.nextId
  }

  /** No node holds more live reservations than it has room. */
  ghost predicate Booked(rows: seq<Row>, now: int, cap: Capacity) {
    && NonNegative(rows)
    && (forall id :: id in cap ==>
          && ReservedMemory(rows, id, now) <= AtLeastZero(cap[id].0)
          && ReservedDisk(rows, id, now) <= AtLeastZero(cap[id].1))
  }

  ghost predicate Inv(db: Db, cap: Capacity) {
    && Booked(db.table.rows, db.now, cap) && Fresh(db.table)
    && (db.tx.Some? ==> Booked(db.tx.value.rows, db.now, cap) && Fresh(db.tx.value))
  }

  lemma AvailableInRange(r: Resource)
    ensures I64_MIN <= AvailableMb(r) <= I64_MAX
  {
  }

  lemma ClaimBooks(t: Table, nodes: seq<Node>, now: int, ttl: int, q: Query, cap: Capacity)
    requires Booked(t.rows, now, cap) && Reports(nodes, cap) && q.memory >= 0 && q.disk >= 0
    ensures Booked(Claim(t, nodes, now, ttl, q).rows, now, cap)
  {
    hide AvailableMb, Pick, Score;
    var rows := Unexpired(t.rows, now);
    ExpiryNonNegative(t.rows, now);
    forall id | id in cap
      ensures ReservedMemory(rows, id, now) <= AtLeastZero(cap[id].0)
      ensures ReservedDisk(rows, id, now) <= AtLeastZero(cap[id].1)
    {
      ExpiryIsIdle(t.rows, id, now);
    }
    PickIsBest(nodes, rows, now, q);
    var p := Pick(nodes, rows, now, q);
    if p.Some? {
      var n := p.value;
      var r := Row(t.nextId, n.id, q.memory, q.disk, now + ttl);
      AvailableInRange(n.memory);
      AvailableInRange(n.disk);
      forall id | id in cap
        ensures ReservedMemory(rows + [r], id, now) <= AtLeastZero(cap[id].0)
        ensures ReservedDisk(rows + [r], id, now) <= AtLeastZero(cap[id].1)
      {
        ReservedSnoc(rows, r, id, now);
        ReservedBounds(rows, id, now, now);
      }
    }
  }

  lemma TickBooks(rows: seq<Row>, now: int, later: int, cap: Capacity)
    requires Booked(rows, now, cap) && now <= later
    ensures Booked(rows, later, cap)
  {
    forall id | id in cap
      ensures ReservedMemory(rows, id, later) <= AtLeastZero(cap[id].0)
      ensures ReservedDisk(rows, id, later) <= AtLeastZero(cap[id].1)
    {
      ReservedBounds(rows, id, now, later);
    }
  }

  lemma ExpiryBooks(rows: seq<Row>, now: int, cap: Capacity)
    requires Booked(rows, now, cap)
    ensures Booked(Unexpired(rows, now), now, cap)
  {
    ExpiryNonNegative(rows, now);
    forall id | id in cap
      ensures ReservedMemory(Unexpired(rows, now), id, now) <= AtLeastZero(cap[id].0)
      ensures ReservedDisk(Unexpired(rows, now), id, now) <= AtLeastZero(cap[id].1)
    {
      ExpiryIsIdle(rows, id, now);
    }
  }

  lemma ReleaseBooks(rows: seq<Row>, rid: int, now: int, cap: Capacity)
    requires Booked(rows, now, cap)
    ensures Booked(Without(rows, rid), now, cap)
  {
    ReleaseNonNegative(rows, rid);
    forall id | id in cap
      ensures ReservedMemory(Without(rows, rid), id, now) <= AtLeastZero(cap[id].0)
      ensures ReservedDisk(Without(rows, rid), id, now) <= AtLeastZero(cap[id].1)
    {
      ReleaseShrinks(rows, rid, id, now);
    }
  }

  lemma {:induction false} UnexpiredFresh(rows: seq<Row>, nextId: int, now: int)
    requires Fresh(Table(rows, nextId))
    ensures Fresh(Table(Unexpired(rows, now), nextId))
  {
    if rows != [] { UnexpiredFresh(rows[..|rows| - 1], nextId, now); }
  }

  lemma {:induction false} WithoutFresh(rows: seq<Row>, nextId: int, id: int)
    requires Fresh(Table(rows, nextId))
    ensures Fresh(Table(Without(rows, id), nextId))
  {
    if rows != [] { WithoutFresh(rows[..|rows| - 1], nextId, id); }
  }

  lemma ClaimFresh(t: Table, nodes: seq<Node>, now: int, ttl: int, q: Query)
    requires Fresh(t)
    ensures Fresh(Claim(t, nodes, now, ttl, q))
  {
    hide Pick, Unexpired;
    UnexpiredFresh(t.rows, t.nextId, now);
  }

  lemma {:induction false} WithoutUnused(rows: seq<Row>, id: int)
    requires forall i :: 0 <= i < |rows| ==> rows[i].id < id
    ensures Without(rows, id) == rows
  {
    if rows != [] { WithoutUnused(rows[..|rows| - 1], id); }
  }

  /** Releasing a claim puts the table back, but for rows that had run out: for every node
      the sums return to what they were. */
  lemma ReleaseUndoesClaim(t: Table, nodes: seq<Node>, now: int, ttl: int, q: Query, node: int)
    requires Fresh(t)
    ensures var after := Without(Claim(t, nodes, now, ttl, q).rows, t.nextId);
            && after == Unexpired(t.rows, now)
            && ReservedMemory(after, node, now) == ReservedMemory(t.rows, node, now)
            && ReservedDisk(after, node, now) == ReservedDisk(t.rows, node, now)
  {
    hide Pick, Unexpired, ReservedMemory, ReservedDisk;
    var rows, claimed := Unexpired(t.rows, now), Claim(t, nodes, now, ttl, q).rows;
    UnexpiredFresh(t.rows, t.nextId, now);
    WithoutUnused(rows, t.nextId);
    ExpiryIsIdle(t.rows, node, now);
    if |claimed| > |rows| { assert claimed[..|claimed| - 1] == rows; }
  }

  lemma StepKeeps(db: Db, op: Op, cap: Capacity)
    requires Inv(db, cap) && Enabled(db, op, cap)
    ensures Inv(Apply(db, op), cap)
  {
    hide Booked, Claim, Reports, Unexpired, Without, Pick, Fresh;
    match op
    case BeginClaim(nodes, ttl, q) =>
      ClaimBooks(db.table, nodes, db.now, ttl, q, cap);
      ClaimFresh(db.table, nodes, db.now, ttl, q);
    case ClaimAgain(nodes, ttl, q) =>
      ClaimBooks(db.tx.value, nodes, db.now, ttl, q, cap);
      ClaimFresh(db.tx.value, nodes, db.now, ttl, q);
    case DryRun(_, _) =>
      ExpiryBooks(db.table.rows, db.now, cap);
      UnexpiredFresh(db.table.rows, db.table.nextId, db.now);
    case ReleaseOp(id) =>
      ReleaseBooks(db.table.rows, id, db.now, cap);
      WithoutFresh(db.table.rows, db.table.nextId, id);
    case Tick(secs) =>
      TickBooks(db.table.rows, db.now, db.now + secs, cap);
      if db.tx.Some? { TickBooks(db.tx.value.rows, db.now, db.now + secs, cap); }
    case _ =>
  }

  ghost predicate IsRun(dbs: seq<Db>, ops: seq<Op>, cap: Capacity) {
    && |dbs| == |ops| + 1
    && forall i :: 0 <= i < |ops| ==> StepAt(dbs, ops, i, cap)
  }

  ghost predicate StepAt(dbs: seq<Db>, ops: seq<Op>, i: nat, cap: Capacity)
    requires |dbs| == |ops| + 1 && i < |ops|
  {
    Enabled(dbs[i], ops[i], cap) && dbs[i + 1] == Apply(dbs[i], ops[i])
  }

  lemma EmptyIsBooked(now: int, cap: Capacity)
    ensures Booked([], now, cap)
  {
  }

  /** In every run of claims, commits, roll-backs, releases, dry runs and clock ticks no
      node is ever overbooked: its live reservations stay within what it has, for memory
      and disk, in the committed table and in an open transaction alike. */
  lemma {:induction false} NeverOverbooked(dbs: seq<Db>, ops: seq<Op>, cap: Capacity, i: nat)
    requires IsRun(dbs, ops, cap) && i < |dbs|
    requires dbs[0].table.rows == [] && dbs[0].tx.None?
    ensures Inv(dbs[i], cap)
  {
    hide Apply, Enabled;
    if i == 0 {
      EmptyIsBooked(dbs[0].now, cap);
    } else {
      NeverOverbooked(dbs, ops, cap, i - 1);
      assert StepAt(dbs, ops, i - 1, cap);
      StepKeeps(dbs[i - 1], ops[i - 1], cap);
    }
  }

  /** A dry run and then a claim at the same moment, in the words of what `SelectForServer`
      and `ReserveCapacity` promise: whether the dry run succeeded or not, and although it
      may have cleaned the table up, the claim answers the same node, and takes it. */
  lemma DryRunTells(
    before: seq<Row>, between: Table, after: Table, nodes: seq<Node>, now: int, ttl: int, q: Query,
    dry: Option<Node>, claimed: Option<Node>)
    requires dry == Pick(nodes, Unexpired(before, now), now, q)
    requires between.rows == if dry.Some? then Unexpired(before, now) else before
    requires claimed == Pick(nodes, Unexpired(between.rows, now), now, q)
    requires after == Claim(between, nodes, now, ttl, q)
    ensures claimed == dry
    ensures dry.Some? ==>
              after.rows == Unexpired(before, now) + [Row(between.nextId, dry.value.id, q.memory, q.disk, now + ttl)]
    ensures dry.None? ==> after.rows == Unexpired(before, now)
  {
    UnexpiredTwice(before, now);
  }

  /** And the dry run's own clean-up does not change what comes next. */
  lemma DryRunLeavesChoice(t: Table, nodes: seq<Node>, now: int, ttl: int, q: Query)
    ensures Claim(t.(rows := Unexpired(t.rows, now)), nodes, now, ttl, q) == Claim(t, nodes, now, ttl, q)
  {
    UnexpiredTwice(t.rows, now);
  }

  lemma {:induction false} UnexpiredTwice(rows: seq<Row>, now: int)
    ensures Unexpired(Unexpired(rows, now), now) == Unexpired(rows, now)
  {
    if rows != [] {
      var front, last := rows[..|rows| - 1], rows[|rows| - 1];
      UnexpiredTwice(front, now);
      var kept := Unexpired(front, now);
      if last.until >= now { assert (kept + [last])[..|kept|] == kept; }
    }
  }
}
