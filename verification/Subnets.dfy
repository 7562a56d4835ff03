/** Choosing a /30 for a server inside 10/8, away from every address the host already has,
    and choosing a user id the same way. */
module Subnets {
  import opened Bytes

  const SPACE: int := 0x1_0000

  // ---------------- Dropping and restoring low bits ----------------

  function Shr(x: nat, n: nat): nat {
    if n == 0 then x else Shr(x / 2, n - 1)
  }

  function Shl(x: nat, n: nat): nat {
    if n == 0 then x else 2 * Shl(x, n - 1)
  }

  lemma {:induction false} ShrTwice(x: nat, m: nat, n: nat)
    ensures Shr(x, m + n) == Shr(Shr(x, m), n)
  {
    if m > 0 { ShrTwice(x / 2, m - 1, n); }
  }

  lemma {:induction false} ShlTwice(x: nat, m: nat, n: nat)
    ensures Shl(x, m + n) == Shl(Shl(x, m), n)
  {
    if n > 0 { ShlTwice(x, m, n - 1); }
  }

  lemma ShrNibble(x: nat)
    ensures Shr(x, 4) == x / 16
  {
    assert Shr(x, 4) == Shr(x / 2, 3) == Shr(x / 4, 2) == Shr(x / 8, 1) == Shr(x / 16, 0);
  }

  lemma ShrByte(x: nat)
    ensures Shr(x, 8) == x / 256
  {
    ShrTwice(x, 4, 4);
    ShrNibble(x);
    ShrNibble(x / 16);
  }

  /** High bits on top of low ones: the low `n` drop out, the high ones stay. */
  lemma {:induction false} ShrSum(h: nat, k: nat, n: nat)
    ensures Shr(Shl(h, n) + k, n) == h + Shr(k, n)
  {
    if n > 0 {
      assert (Shl(h, n) + k) / 2 == Shl(h, n - 1) + k / 2;
      ShrSum(h, k / 2, n - 1);
    }
  }

  /** The numbers sharing `b`'s bits above the low `n` are one aligned range. */
  lemma {:induction false} AlignedRange(k: nat, b: nat, n: nat)
    ensures Shl(Shr(b, n), n) <= k < Shl(Shr(b, n), n) + Shl(1, n) <==> Shr(k, n) == Shr(b, n)
  {
    if n > 0 {
      AlignedRange(k / 2, b / 2, n - 1);
    }
  }

  // ---------------- Addresses ----------------

  /** An address the host reports, `a.b.c.d/prefix`. */
  datatype Interface = Interface(a: Byte, b: Byte, c: Byte, d: Byte, prefix: nat)

  ghost predicate Wellformed(f: Interface) {
    f.prefix <= 32
  }

  function Address(f: Interface): nat {
    ((f.a * 256 + f.b) * 256 + f.c) * 256 + f.d
  }

  /** `x` is in the interface's network: same top `prefix` bits. */
  ghost predicate InNetwork(f: Interface, x: nat)
    requires Wellformed(f)
  {
    Shr(x, 32 - f.prefix) == Shr(Address(f), 32 - f.prefix)
  }

  /** The /30 with index `k`: `10.hi.lo.0` up to `10.hi.lo.3`. */
  ghost predicate InSubnet(k: nat, x: nat) {
    (10 * SPACE + k) * 256 <= x < (10 * SPACE + k) * 256 + 4
  }

  ghost predicate Disjoint(k: nat, f: Interface)
    requires Wellformed(f)
  {
    forall x: nat :: InSubnet(k, x) ==> !InNetwork(f, x)
  }

  // ---------------- What an interface marks ----------------

  function Pair(f: Interface): nat {
    f.b * 256 + f.c
  }

  function FreeBits(f: Interface): nat
    requires f.prefix > 8
  {
    if f.prefix - 8 < 16 then 24 - f.prefix else 0
  }

  predicate Marked(f: Interface, k: nat) {
    && f.a == 10 && k < SPACE
    && (f.prefix > 8 ==> Shr(k, FreeBits(f)) == Shr(Pair(f), FreeBits(f)))
  }

  /** Some interface marks it. */
  ghost predicate Claimed(interfaces: seq<Interface>, k: nat) {
    exists i :: 0 <= i < |interfaces| && Marked(interfaces[i], k)
  }

  ghost function ClaimedIndices(interfaces: seq<Interface>): set<nat> {
    set k: nat | k < SPACE && Claimed(interfaces, k)
  }

  lemma ClaimedSnoc(interfaces: seq<Interface>, f: Interface)
    ensures forall k :: Claimed(interfaces + [f], k) <==> Claimed(interfaces, k) || Marked(f, k)
  {
    hide Marked;
    var all := interfaces + [f];
    forall k: nat ensures Claimed(all, k) <==> Claimed(interfaces, k) || Marked(f, k) {
      if Marked(f, k) { assert Marked(all[|interfaces|], k); }
      if Claimed(interfaces, k) {
        var i :| 0 <= i < |interfaces| && Marked(interfaces[i], k);
        assert Marked(all[i], k);
      }
    }
  }

  lemma ClaimedInSpace(interfaces: seq<Interface>)
    ensures forall k: nat :: Claimed(interfaces, k) ==> k < SPACE
  {
  }

  /** `live_subnets` */
  method LiveSubnets(interfaces: seq<Interface>) returns (used: set<nat>)
    ensures forall k :: k in used <==> Claimed(interfaces, k)
  {
    used := {};
    for i := 0 to |interfaces|
      invariant forall k :: k in used <==> Claimed(interfaces[..i], k)
    {
      var f := interfaces[i];
      assert interfaces[..i + 1] == interfaces[..i] + [f];
      if f.a == 10 {
        var more := MarkRange(f);
        used := used + more;
      }
      ClaimedSnoc(interfaces[..i], f);
    }
    assert interfaces[..|interfaces|] == interfaces;
  }

  /** All of 10/8 for a prefix up to 8, else the anchor and every offset. */
  method MarkRange(f: Interface) returns (more: set<nat>)
    requires f.a == 10
    ensures forall k :: k in more <==> Marked(f, k)
  {
    if f.prefix <= 8 {
      more := {};
      for index := 0 to SPACE
        invariant forall k :: k in more <==> 0 <= k < index
      {
        more := more + {index};
      }
      return;
    }
    var free := FreeBits(f);
    var anchor := Shl(Shr(Pair(f), free), free);
    more := {};
    for offset := 0 to Shl(1, free)
      invariant forall k :: k in more <==> anchor <= k < anchor + offset
    {
      more := more + {anchor + offset};
    }
    forall k ensures k in more <==> Marked(f, k) {
      if k >= 0 {
        AlignedRange(k, Pair(f), free);
        if Shr(k, free) == Shr(Pair(f), free) { TopFits(k, Pair(f), free); }
      }
    }
  }

  lemma {:induction false} SixteenTop(n: nat)
    requires n <= 16
    ensures Shl(Shl(1, 16 - n), n) == SPACE
  {
    ShlTwice(1, 16 - n, n);
    assert Shl(1, 16) == 4 * Shl(1, 14) == 16 * Shl(1, 12) == 64 * Shl(1, 10) == 256 * Shl(1, 8);
    assert Shl(1, 8) == 4 * Shl(1, 6) == 16 * Shl(1, 4) == 64 * Shl(1, 2) == 256;
  }

  /** An aligned range that starts inside the space ends inside it. */
  lemma TopFits(k: nat, b: nat, n: nat)
    requires n <= 16 && b < SPACE && Shr(k, n) == Shr(b, n)
    ensures k < SPACE
  {
    SixteenTop(n);
    if k >= SPACE {
      var q := Shl(1, 16 - n);
      ShrSum(q, k - SPACE, n);
      ShrSum(q, 0, n);
      ShrBelow(b, q, n);
    }
  }

  /** Below a multiple, the shifted value stays below the multiplier. */
  lemma {:induction false} ShrBelow(b: nat, q: nat, n: nat)
    requires b < Shl(q, n)
    ensures Shr(b, n) < q
  {
    if n > 0 { ShrBelow(b / 2, q, n - 1); }
  }

  // ---------------- Marking is exact ----------------

  /** 10/8 seen through a shift by at most 16 splits into a constant and the index. */
  lemma TenSplit(k: nat, n: nat)
    requires n <= 16
    ensures Shr(10 * SPACE + k, n) == Shl(10, 16 - n) + Shr(k, n)
  {
    ShlTwice(10, 16 - n, n);
    TenTimes(16);
    SixteenTop(0);
    ShrSum(Shl(10, 16 - n), k, n);
  }

  lemma {:induction false} TenTimes(n: nat)
    ensures Shl(10, n) == 10 * Shl(1, n)
  {
    if n > 0 { TenTimes(n - 1); }
  }

  /** For prefixes from 9 to 24 an address is in the network exactly when its /24 is marked. */
  lemma WideExactly(f: Interface, k: nat, x: nat)
    requires f.a == 10 && 8 < f.prefix <= 24 && k < SPACE && x / 256 == 10 * SPACE + k
    ensures InNetwork(f, x) <==> Marked(f, k)
  {
    var free := FreeBits(f);
    ShrTwice(x, 8, free);
    ShrTwice(Address(f), 8, free);
    ShrByte(x);
    ShrByte(Address(f));
    TenSplit(k, free);
    TenSplit(Pair(f), free);
    assert Address(f) / 256 == 10 * SPACE + Pair(f);
  }

  /** Longer prefixes stay inside one /24, which is marked whole. */
  lemma NarrowMarks(f: Interface, k: nat, x: nat)
    requires f.a == 10 && 24 < f.prefix <= 32 && k < SPACE && x / 256 == 10 * SPACE + k
    requires InNetwork(f, x)
    ensures Marked(f, k)
  {
    var low := 32 - f.prefix;
    ShrTwice(x, low, 8 - low);
    ShrTwice(Address(f), low, 8 - low);
    ShrByte(x);
    ShrByte(Address(f));
  }

  /** The network reaches 10/8 although the address lies outside it. */
  predicate SpansTen(f: Interface) {
    f.a != 10 && f.prefix < 8 && Shr(f.a, 8 - f.prefix) == Shr(10, 8 - f.prefix)
  }

  lemma TopByte(x: nat, n: nat)
    ensures Shr(x, 24 + n) == Shr(x / 0x100_0000, n)
  {
    ShrTwice(x, 24, n);
    ShrTwice(x, 8, 16);
    ShrTwice(x / 256, 8, 8);
    ShrByte(x);
    ShrByte(x / 256);
    ShrByte(x / 256 / 256);
  }

  /** Up to eight bits of prefix, membership is decided by the first octet. */
  lemma ShortExactly(f: Interface, x: nat)
    requires f.prefix <= 8 && x / 0x100_0000 == 10
    ensures InNetwork(f, x) <==> f.a == 10 || SpansTen(f)
  {
    TopByte(x, 8 - f.prefix);
    TopByte(Address(f), 8 - f.prefix);
    assert Address(f) / 0x100_0000 == f.a;
  }

  /** Beyond eight bits, an address outside 10/8 has a network outside 10/8. */
  lemma LongOutside(f: Interface, x: nat)
    requires 8 < f.prefix <= 32 && x / 0x100_0000 == 10 && InNetwork(f, x)
    ensures f.a == 10
  {
    var low := 32 - f.prefix;
    ShrTwice(x, low, 24 - low);
    ShrTwice(Address(f), low, 24 - low);
    TopByte(x, 0);
    TopByte(Address(f), 0);
    assert Address(f) / 0x100_0000 == f.a;
  }

  /** An unmarked index is clear of an interface's whole network exactly when the
      interface is not one whose short prefix spans 10/8 from outside. */
  lemma ClearExactly(f: Interface, k: nat)
    requires Wellformed(f) && k < SPACE && !Marked(f, k)
    ensures Disjoint(k, f) <==> !SpansTen(f)
  {
    var base := (10 * SPACE + k) * 256;
    if SpansTen(f) {
      assert InSubnet(k, base);
      ShortExactly(f, base);
    } else {
      forall x: nat | InSubnet(k, x) ensures !InNetwork(f, x) {
        OutOfReach(f, k, x);
      }
    }
  }

  lemma OutOfReach(f: Interface, k: nat, x: nat)
    requires Wellformed(f) && k < SPACE && !Marked(f, k) && !SpansTen(f) && InSubnet(k, x)
    ensures !InNetwork(f, x)
  {
    hide Shr, Marked, SpansTen, InNetwork;
    assert x / 256 == 10 * SPACE + k && x / 0x100_0000 == 10;
    if f.prefix <= 8 {
      ShortExactly(f, x);
      if f.a == 10 { ShortMarks(f, k); }
    } else if InNetwork(f, x) {
      LongOutside(f, x);
      if f.prefix <= 24 { WideExactly(f, k, x); } else { NarrowMarks(f, k, x); }
    }
  }

  lemma ShortMarks(f: Interface, k: nat)
    requires f.prefix <= 8 && k < SPACE && f.a == 10
    ensures Marked(f, k)
  {
  }

  /** No wider than needed: an index is marked only when the network meets its /24. */
  lemma MarkedMeets(f: Interface, k: nat) returns (x: nat)
    requires Wellformed(f) && Marked(f, k)
    ensures x / 256 == 10 * SPACE + k && InNetwork(f, x)
  {
    if f.prefix <= 24 {
      x := (10 * SPACE + k) * 256;
      if f.prefix > 8 { WideExactly(f, k, x); } else { ShortExactly(f, x); }
    } else {
      x := Address(f);
    }
  }

  // ---------------- The walk ----------------

  /** The `n`th stop of a walk that wraps at the end of `[lo, lo + range)`. */
  function Stop(lo: int, range: nat, start: int, n: nat): int {
    if start + n < lo + range then start + n else start + n - range
  }

  /** The first free stop at or after the start, going round once. */
  ghost predicate FirstFree(lo: int, range: nat, start: int, used: set<nat>, r: Option<nat>) {
    match r
    case None => forall v :: lo <= v < lo + range ==> v in used
    case Some(v) =>
      && v !in used && lo <= v < lo + range
      && exists n: nat :: n < range && v == Stop(lo, range, start, n)
                          && forall m: nat :: m < n ==> Stop(lo, range, start, m) in used
  }

  lemma AllVisited(lo: int, range: nat, start: int, used: set<nat>)
    requires lo <= start < lo + range
    requires forall m: nat :: m < range ==> Stop(lo, range, start, m) in used
    ensures forall v :: lo <= v < lo + range ==> v in used
  {
    forall v | lo <= v < lo + range ensures v in used {
      var m := if v >= start then v - start else v - start + range;
      assert Stop(lo, range, start, m) == v;
    }
  }

  /** `pick_subnet`: a 16-bit index that wraps. */
  method PickSubnet(start: U16, used: set<nat>) returns (r: Option<nat>)
    ensures FirstFree(0, SPACE, start, used, r)
  {
    var index: nat := start;
    for i := 0 to SPACE
      invariant index == if i == SPACE then start else Stop(0, SPACE, start, i)
      invariant forall m: nat :: m < i ==> Stop(0, SPACE, start, m) in used
    {
      if index !in used { return Some(index); }
      index := (index + 1) % SPACE;
    }
    AllVisited(0, SPACE, start, used);
    return None;
  }

  const MIN_SERVER_UID: nat := 200_000
  const UID_RANGE: nat := 400_000

  /** `pick_uid`, over the server user ids. */
  method PickUid(start: nat, used: set<nat>) returns (r: Option<nat>)
    requires MIN_SERVER_UID <= start < MIN_SERVER_UID + UID_RANGE
    ensures FirstFree(MIN_SERVER_UID, UID_RANGE, start, used, r)
  {
    var candidate := start;
    for i := 0 to UID_RANGE
      invariant candidate == if i == UID_RANGE then start else Stop(MIN_SERVER_UID, UID_RANGE, start, i)
      invariant forall m: nat :: m < i ==> Stop(MIN_SERVER_UID, UID_RANGE, start, m) in used
    {
      if candidate !in used { return Some(candidate); }
      candidate := MIN_SERVER_UID + (candidate - MIN_SERVER_UID + 1) % UID_RANGE;
    }
    AllVisited(MIN_SERVER_UID, UID_RANGE, start, used);
    return None;
  }

  /** The starting index, from the first six bytes of the server's digest. */
  function SubnetIndex(digest: seq<bv8>): bv16
    requires |digest| >= 6
  {
    var v := (digest[0] as bv64 << 56) | (digest[1] as bv64 << 48) | (digest[2] as bv64 << 40)
             | (digest[3] as bv64 << 32) | (digest[4] as bv64 << 24) | (digest[5] as bv64 << 16);
    (((v >> 16) ^ (v & 0xffff)) & 0xffff) as bv16
  }

  /** Only two bytes matter: the fold folds nothing in. */
  lemma IndexIsTail(digest: seq<bv8>)
    requires |digest| >= 6
    ensures SubnetIndex(digest) == (digest[4] as bv16 << 8) | digest[5] as bv16
  {
  }

  /** `allocate_subnet`: clear of the whole network of every reported interface, except one
      that spans 10/8 from outside; refused only when everything is marked. */
  method AllocateSubnet(digest: seq<bv8>, interfaces: seq<Interface>) returns (r: Option<nat>)
    requires |digest| >= 6
    requires forall i :: 0 <= i < |interfaces| ==> Wellformed(interfaces[i])
    ensures r.Some? ==> r.value < SPACE && forall i :: 0 <= i < |interfaces| ==>
              (Disjoint(r.value, interfaces[i]) <==> !SpansTen(interfaces[i]))
    ensures FirstFree(0, SPACE, SubnetIndex(digest) as int, ClaimedIndices(interfaces), r)
    ensures r.None? <==> forall k: nat :: k < SPACE ==> Claimed(interfaces, k)
  {
    hide Marked, Disjoint, SpansTen;
    var used := LiveSubnets(interfaces);
    assert used == ClaimedIndices(interfaces) by { ClaimedInSpace(interfaces); }
    r := PickSubnet(SubnetIndex(digest) as int, used);
    if r.Some? {
      forall i | 0 <= i < |interfaces|
        ensures Disjoint(r.value, interfaces[i]) <==> !SpansTen(interfaces[i])
      {
        assert !Claimed(interfaces, r.value);
        ClearExactly(interfaces[i], r.value);
      }
    }
  }
}
