/** The crash-restart budget of one server. Instants are nanoseconds. */
module CrashBudget {

  const CRASH_WINDOW_SECS: int := 60
  const NANOS: int := 1_000_000_000

  /** One whole window and the second that `num_seconds` rounds away. */
  const SPACING: int := 61_000_000_000

  /** The stored start of the burst: none, an instant, or text that does not parse. */
  datatype Window = Empty | At(start: int) | Garbled

  datatype Burst = Burst(used: int, window: Window)

  datatype Verdict = Allowed(used: int) | Exhausted(used: int)

  /** Whole seconds, rounded towards zero. */
  function NumSeconds(nanos: int): int {
    if nanos >= 0 then nanos / NANOS else -((-nanos) / NANOS)
  }

  predicate Expired(w: Window, now: int) {
    match w
    case At(start) => NumSeconds(now - start) > CRASH_WINDOW_SECS
    case Empty => false
    case Garbled => true
  }

  lemma ExpiredExactly(start: int, now: int)
    ensures Expired(At(start), now) <==> now - start >= SPACING
  {
  }

  /** One crash: the clock is read once to judge the window and once to stamp it. */
  datatype Crash = Crash(check: int, stamp: int)

  function Effective(b: Burst, check: int): int {
    if Expired(b.window, check) then 0 else b.used
  }

  function Next(b: Burst, budget: int, c: Crash): Burst {
    var effective := Effective(b, c.check);
    if effective >= budget then b
    else Burst(effective + 1, if b.window.Empty? || Expired(b.window, c.check) then At(c.stamp) else b.window)
  }

  predicate Grants(b: Burst, budget: int, c: Crash) {
    Effective(b, c.check) < budget
  }

  /** The row in `servers` that carries the burst. */
  class Server {
    var used: int
    var window: Window

    ghost function Value(): Burst
      reads this
    {
      Burst(used, window)
    }

    constructor ()
      ensures Value() == Burst(0, Empty)
    {
      used, window := 0, Empty;
    }

    /** `consume_crash_budget` */
    method Consume(budget: int, c: Crash) returns (v: Verdict)
      modifies this
      ensures Value() == Next(old(Value()), budget, c)
      ensures v == if Grants(old(Value()), budget, c) then Allowed(Effective(old(Value()), c.check))
                   else Exhausted(Effective(old(Value()), c.check))
    {
      var expired := Expired(window, c.check);
      var effective := if expired then 0 else used;
      if effective >= budget {
        return Exhausted(effective);
      }
      if window.Empty? || expired {
        window := At(c.stamp);
      }
      used := effective + 1;
      v := Allowed(effective);
    }

    /** `reset_crash_window` */
    method Reset()
      modifies this
      ensures Value() == Burst(0, Empty)
    {
      used, window := 0, Empty;
    }
  }

  // ---------------- Runs ----------------

  /** Clock readings of a run never go back. */
  ghost predicate Ordered(cs: seq<Crash>) {
    && (forall i :: 0 <= i < |cs| ==> cs[i].check <= cs[i].stamp)
    && (forall i, j :: 0 <= i < j < |cs| ==> cs[i].stamp <= cs[j].check)
  }

  function Granted(b: Burst, budget: int, cs: seq<Crash>): nat
    decreases |cs|
  {
    if cs == [] then 0
    else (if Grants(b, budget, cs[0]) then 1 else 0) + Granted(Next(b, budget, cs[0]), budget, cs[1..])
  }

  function After(b: Burst, budget: int, cs: seq<Crash>): Burst
    decreases |cs|
  {
    if cs == [] then b else After(Next(b, budget, cs[0]), budget, cs[1..])
  }

  ghost predicate Within(cs: seq<Crash>, from: int, to: int) {
    forall i :: 0 <= i < |cs| ==> from <= cs[i].check && cs[i].stamp <= to
  }

  lemma WithinTail(cs: seq<Crash>, from: int, to: int)
    requires cs != [] && Ordered(cs) && Within(cs, from, to)
    ensures Ordered(cs[1..]) && Within(cs[1..], cs[0].stamp, to)
  {
  }

  /** Restarts left in a burst that began at `start`: its own remainder, and a full
      budget for every 61 seconds that still fit. */
  function Left(budget: nat, used: int, start: int, to: int): int
    requires start <= to
  {
    budget - used + budget * ((to - start) / SPACING)
  }

  lemma MulMono(b: nat, m: int, n: int)
    requires m <= n
    ensures b * m <= b * n
  {
    assert b * n == b * m + b * (n - m);
  }

  /** A window that begins 61 seconds later has one fewer to come. */
  lemma Later(budget: nat, start: int, stamp: int, to: int)
    requires stamp - start >= SPACING && stamp <= to
    ensures budget + budget * ((to - stamp) / SPACING) <= budget * ((to - start) / SPACING)
  {
    var a, b := (to - stamp) / SPACING, (to - start) / SPACING;
    MulMono(budget, a + 1, b);
    assert budget + budget * a == budget * (a + 1);
  }

  lemma Spread(budget: nat, from: int, stamp: int, to: int)
    requires from <= stamp <= to
    ensures budget + budget * ((to - stamp) / SPACING) <= budget * ((to - from) / SPACING + 1)
  {
    var a, b := (to - stamp) / SPACING, (to - from) / SPACING;
    MulMono(budget, a + 1, b + 1);
    assert budget + budget * a == budget * (a + 1);
  }

  lemma {:induction false} NothingWithoutBudget(cs: seq<Crash>)
    ensures Granted(Burst(0, Empty), 0, cs) == 0
  {
    if cs != [] { NothingWithoutBudget(cs[1..]); }
  }

  lemma {:induction false} BurstBound(b: Burst, budget: nat, cs: seq<Crash>, to: int)
    requires b.window.At? && 0 <= b.used <= budget && b.window.start <= to
    requires Ordered(cs) && Within(cs, b.window.start, to)
    ensures Granted(b, budget, cs) <= Left(budget, b.used, b.window.start, to)
    decreases |cs|
  {
    var start := b.window.start;
    if cs == [] {
      assert budget * ((to - start) / SPACING) >= 0;
    } else {
      var c, b' := cs[0], Next(b, budget, cs[0]);
      WithinTail(cs, start, to);
      ExpiredExactly(start, c.check);
      if !Grants(b, budget, c) {
        BurstBound(b, budget, cs[1..], to);
      } else if Expired(b.window, c.check) {
        BurstBound(b', budget, cs[1..], to);
        Later(budget, start, c.stamp, to);
      } else {
        BurstBound(b', budget, cs[1..], to);
      }
    }
  }

  /** A run that begins with no burst and spans `to - from` grants at most
      `budget * ((to - from) / 61 s + 1)` restarts. */
  lemma RunBound(budget: nat, cs: seq<Crash>, from: int, to: int)
    requires Ordered(cs) && Within(cs, from, to) && from <= to
    ensures Granted(Burst(0, Empty), budget, cs) <= budget * ((to - from) / SPACING + 1)
  {
    if cs == [] {
      MulMono(budget, 0, (to - from) / SPACING + 1);
    } else if budget == 0 {
      NothingWithoutBudget(cs);
    } else {
      var c := cs[0];
      WithinTail(cs, from, to);
      BurstBound(Burst(1, At(c.stamp)), budget, cs[1..], to);
      Spread(budget, from, c.stamp, to);
    }
  }

  /** While a window cannot expire, a burst grants what it has left. */
  lemma {:induction false} HotBurst(b: Burst, budget: nat, cs: seq<Crash>, to: int)
    requires b.window.At? && b.used <= budget && to - b.window.start < SPACING
    requires Ordered(cs) && Within(cs, b.window.start, to)
    ensures Granted(b, budget, cs) <= budget - b.used
    decreases |cs|
  {
    if cs != [] {
      WithinTail(cs, b.window.start, to);
      ExpiredExactly(b.window.start, cs[0].check);
      HotBurst(Next(b, budget, cs[0]), budget, cs[1..], to);
    }
  }

  function Lesser(a: int, b: int): int {
    if a <= b then a else b
  }

  /** Inside its window a burst grants every crash until its budget is used up. */
  lemma {:induction false} HotBurstExactly(b: Burst, budget: nat, cs: seq<Crash>, to: int)
    requires b.window.At? && b.used <= budget && to - b.window.start < SPACING
    requires Ordered(cs) && Within(cs, b.window.start, to)
    ensures Granted(b, budget, cs) == Lesser(|cs|, budget - b.used)
    decreases |cs|
  {
    if cs != [] {
      WithinTail(cs, b.window.start, to);
      ExpiredExactly(b.window.start, cs[0].check);
      HotBurstExactly(Next(b, budget, cs[0]), budget, cs[1..], to);
    }
  }

  /** From no burst, crashes less than 61 seconds behind the first are granted to the last
      slot: as many as there are, up to the budget. */
  lemma WindowGrantsExactly(budget: nat, cs: seq<Crash>)
    requires Ordered(cs) && cs != [] && cs[|cs| - 1].stamp - cs[0].stamp < SPACING
    ensures Granted(Burst(0, Empty), budget, cs) == Lesser(|cs|, budget)
  {
    if budget == 0 {
      NothingWithoutBudget(cs);
    } else {
      var c, to := cs[0], cs[|cs| - 1].stamp;
      assert Within(cs, c.check, to);
      WithinTail(cs, c.check, to);
      HotBurstExactly(Burst(1, At(c.stamp)), budget, cs[1..], to);
    }
  }

  /** A crash 61 seconds after the first of its burst, or one that finds no legible start,
      begins a new burst with all of the budget but the slot it takes. */
  lemma FreshBurst(b: Burst, budget: nat, c: Crash)
    requires budget > 0 && (b.window.At? ==> c.check - b.window.start >= SPACING) && (b.window.Empty? ==> b.used == 0)
    ensures Grants(b, budget, c) && Next(b, budget, c) == Burst(1, At(c.stamp))
  {
    if b.window.At? { ExpiredExactly(b.window.start, c.check); }
  }

  /** Any stretch of at most 60 seconds grants at most twice the budget, whatever burst it
      starts in: the rest of that one and a fresh one. */
  lemma {:induction false} MinuteBound(b: Burst, budget: nat, cs: seq<Crash>, from: int, to: int)
    requires b.used >= 0 && (b.window.At? ==> b.window.start <= from)
    requires Ordered(cs) && Within(cs, from, to) && to - from <= 60 * NANOS
    ensures Granted(b, budget, cs) <= (if b.used < budget then budget - b.used else 0) + budget
    decreases |cs|
  {
    if cs != [] {
      var c, b' := cs[0], Next(b, budget, cs[0]);
      WithinTail(cs, from, to);
      if !Grants(b, budget, c) {
        MinuteBound(b, budget, cs[1..], c.stamp, to);
      } else if b'.window == At(c.stamp) && (b.window.Empty? || Expired(b.window, c.check)) {
        HotBurst(b', budget, cs[1..], to);
      } else {
        MinuteBound(b', budget, cs[1..], c.stamp, to);
      }
    }
  }

  lemma {:induction false} GrantedSplit(b: Burst, budget: int, first: seq<Crash>, more: seq<Crash>)
    ensures Granted(b, budget, first + more) == Granted(b, budget, first) + Granted(After(b, budget, first), budget, more)
    decreases |first|
  {
    if first == [] {
      assert first + more == more;
    } else {
      assert (first + more)[1..] == first[1..] + more;
      GrantedSplit(Next(b, budget, first[0]), budget, first[1..], more);
    }
  }

  lemma {:induction false} AfterSane(b: Burst, budget: nat, cs: seq<Crash>, from: int, to: int)
    requires b.used >= 0 && (b.window.At? ==> b.window.start <= from) && from <= to
    requires Ordered(cs) && Within(cs, from, to)
    ensures var b' := After(b, budget, cs); b'.used >= 0 && (b'.window.At? ==> b'.window.start <= to)
    decreases |cs|
  {
    if cs != [] {
      WithinTail(cs, from, to);
      AfterSane(Next(b, budget, cs[0]), budget, cs[1..], cs[0].stamp, to);
    }
  }

  /** The same for a stretch in the middle of a run that began with no burst. */
  lemma MinuteBoundAnywhere(budget: nat, before: seq<Crash>, stretch: seq<Crash>, from: int, to: int)
    requires Ordered(before) && Ordered(stretch) && from <= to
    requires before != [] ==> Within(before, before[0].check, from)
    requires Within(stretch, from, to) && to - from <= 60 * NANOS
    ensures Granted(Burst(0, Empty), budget, before + stretch) - Granted(Burst(0, Empty), budget, before) <= 2 * budget
  {
    var b := Burst(0, Empty);
    GrantedSplit(b, budget, before, stretch);
    if before != [] { AfterSane(b, budget, before, before[0].check, from); }
    MinuteBound(After(b, budget, before), budget, stretch, from, to);
  }

  // ---------------- Overlapping crashes ----------------

  /** What a crash takes away from its read: the row as it was, and when it looked. */
  datatype Reading = Reading(row: Burst, check: int)

  /** The second statement: it puts the row that follows from what was read. */
  function Written(r: Reading, budget: int, stamp: int): Burst {
    Next(r.row, budget, Crash(r.check, stamp))
  }

  function Spare(b: Burst, budget: int, at: int): nat {
    if Effective(b, at) < budget then budget - Effective(b, at) else 0
  }

  /** Grants of two crashes that both read `b` before either writes, and the row they
      leave, `d` being the one to write last. */
  function PairGrants(b: Burst, budget: int, c: Crash, d: Crash): nat {
    (if Grants(b, budget, c) then 1 else 0) + (if Grants(b, budget, d) then 1 else 0)
  }

  function PairLeaves(b: Burst, budget: int, c: Crash, d: Crash): Burst {
    if Grants(b, budget, d) then Written(Reading(b, d.check), budget, d.stamp)
    else if Grants(b, budget, c) then Written(Reading(b, c.check), budget, c.stamp)
    else b
  }

  /** Both look at the same window, and no window opened or kept here has run out by the
      second look or by `at`. */
  ghost predicate OneWindow(b: Burst, budget: int, c: Crash, d: Crash, at: int) {
    && (Expired(b.window, c.check) <==> Expired(b.window, d.check))
    && !Expired(Next(b, budget, c).window, d.check)
    && !Expired(Next(b, budget, c).window, at)
    && !Expired(Next(b, budget, d).window, at)
    && !Expired(Next(Next(b, budget, c), budget, d).window, at)
  }

  /** Inside one window two crashes one after the other conserve the budget: what they are
      granted and what is left make what was there. Two that overlap make one more exactly
      when they are granted anything, because one of the two counts is lost. */
  lemma OverlapExactly(b: Burst, budget: int, c: Crash, d: Crash, at: int)
    requires OneWindow(b, budget, c, d, at)
    ensures var before := Spare(b, budget, c.check);
            && Granted(b, budget, [c, d]) + Spare(After(b, budget, [c, d]), budget, at) == before
            && PairGrants(b, budget, c, d) + Spare(PairLeaves(b, budget, c, d), budget, at)
               == before + (if Grants(b, budget, c) then 1 else 0)
  {
    var one: seq<Crash>, two := [d], [c, d];
    assert two[1..] == one && one[1..] == [];
    var b', b'' := Next(b, budget, c), Next(Next(b, budget, c), budget, d);
    assert Granted(b', budget, one) == if Grants(b', budget, d) then 1 else 0;
    assert After(b', budget, one) == b'';
  }

  /** Reads, writes and refunds of the crash handlers of one server. A refund puts back the
      count its own crash read. */
  datatype Access = Read(p: nat, at: int) | Write(p: nat, stamp: int) | Refund(p: nat)

  /** The row, what each handler is about to write, and what each may still refund. */
  datatype Shared = Shared(row: Burst, pending: map<nat, Reading>, spent: map<nat, Reading>)

  predicate Enabled(s: Shared, a: Access) {
    match a
    case Read(p, _) => p !in s.pending
    case Write(p, _) => p in s.pending
    case Refund(p) => p in s.spent
  }

  function Apply(s: Shared, budget: int, a: Access): Shared
    requires Enabled(s, a)
  {
    match a
    case Read(p, at) =>
      if Grants(s.row, budget, Crash(at, at)) then s.(pending := s.pending[p := Reading(s.row, at)]) else s
    case Write(p, stamp) =>
      Shared(Written(s.pending[p], budget, stamp), s.pending - {p}, s.spent[p := s.pending[p]])
    case Refund(p) =>
      s.(row := s.row.(used := Effective(s.spent[p].row, s.spent[p].check)), spent := s.spent - {p})
  }

  /** Read and write with nothing in between are what `Consume` does, and a refund right
      behind them puts the count back. */
  lemma ReadThenWrite(s: Shared, budget: int, p: nat, c: Crash)
    requires p !in s.pending && Grants(s.row, budget, c)
    ensures var read := Apply(s, budget, Read(p, c.check));
            Enabled(read, Write(p, c.stamp))
            && var written := Apply(read, budget, Write(p, c.stamp));
            && written.row == Next(s.row, budget, c) && Enabled(written, Refund(p))
            && Apply(written, budget, Refund(p)).row == written.row.(used := Effective(s.row, c.check))
  {
  }

  /** How far the row has moved on since the writer looked at it, or, for a refund, since
      it wrote. */
  function Gap(s: Shared, a: Access): int
    requires Enabled(s, a)
  {
    match a
    case Read(_, _) => 0
    case Write(p, _) => s.row.used - s.pending[p].row.used
    case Refund(p) => s.row.used - (s.spent[p].row.used + 1)
  }

  ghost predicate IsRun(states: seq<Shared>, budget: int, accesses: seq<Access>) {
    && |states| == |accesses| + 1
    && forall i :: 0 <= i < |accesses| ==> StepAt(states, budget, accesses, i)
  }

  ghost predicate StepAt(states: seq<Shared>, budget: int, accesses: seq<Access>, i: nat)
    requires |states| == |accesses| + 1 && i < |accesses|
  {
    Enabled(states[i], accesses[i]) && states[i + 1] == Apply(states[i], budget, accesses[i])
  }

  /** Restarts granted less restarts refunded over the first `n` accesses. */
  function Net(accesses: seq<Access>, n: nat): int
    requires n <= |accesses|
  {
    if n == 0 then 0
    else Net(accesses, n - 1) + Worth(accesses[n - 1])
  }

  function Worth(a: Access): int {
    match a
    case Read(_, _) => 0
    case Write(_, _) => 1
    case Refund(_) => -1
  }

  ghost function Gaps(states: seq<Shared>, budget: int, accesses: seq<Access>, n: nat): int
    requires IsRun(states, budget, accesses) && n <= |accesses|
  {
    if n == 0 then 0
    else
      assert StepAt(states, budget, accesses, n - 1);
      Gaps(states, budget, accesses, n - 1) + Gap(states[n - 1], accesses[n - 1])
  }

  /** Everything happens in the window that began at `start`, on counts within budget. */
  ghost predicate InWindow(s: Shared, budget: int, start: int) {
    && s.row.window == At(start)
    && (forall p :: p in s.pending ==> Looked(s.pending[p], budget, start))
    && (forall p :: p in s.spent ==> Looked(s.spent[p], budget, start))
  }

  ghost predicate Looked(r: Reading, budget: int, start: int) {
    r.row.window == At(start) && !Expired(At(start), r.check) && r.row.used < budget
  }

  lemma AccessInWindow(s: Shared, budget: int, a: Access, start: int)
    requires InWindow(s, budget, start) && Enabled(s, a) && (a.Read? ==> !Expired(At(start), a.at))
    ensures var s' := Apply(s, budget, a);
            && InWindow(s', budget, start) && (s.row.used <= budget ==> s'.row.used <= budget)
            && s'.row.used == s.row.used - Gap(s, a) + Worth(a)
  {
  }

  ghost predicate StartsHot(s: Shared, start: int) {
    s.row.window == At(start) && s.pending == map[] && s.spent == map[]
  }

  ghost predicate LooksBefore(accesses: seq<Access>, start: int) {
    forall i :: 0 <= i < |accesses| && accesses[i].Read? ==> !Expired(At(start), accesses[i].at)
  }

  /** In every interleaving of reads, writes and refunds inside one window, the restarts
      granted and not refunded are the growth of the count plus the gaps. So they exceed
      what was left by at most the gaps: the budget holds as far as no access works on a
      count that has moved on. */
  lemma {:induction false} LostUpdates(states: seq<Shared>, budget: int, accesses: seq<Access>, start: int, n: nat)
    requires IsRun(states, budget, accesses) && n <= |accesses|
    requires StartsHot(states[0], start) && LooksBefore(accesses, start)
    ensures InWindow(states[n], budget, start)
    ensures Net(accesses, n) == states[n].row.used - states[0].row.used + Gaps(states, budget, accesses, n)
    ensures states[0].row.used <= budget ==>
              states[n].row.used <= budget
              && Net(accesses, n) <= budget - states[0].row.used + Gaps(states, budget, accesses, n)
  {
    hide Apply, Enabled, Gap;
    if n > 0 {
      LostUpdates(states, budget, accesses, start, n - 1);
      assert StepAt(states, budget, accesses, n - 1);
      hide InWindow;
      AccessInWindow(states[n - 1], budget, accesses[n - 1], start);
    }
  }

  /** Nobody gets in between: a write comes right behind its own read, a refund right behind
      its own write. */
  ghost predicate Undisturbed(accesses: seq<Access>) {
    forall i :: 0 <= i < |accesses| ==> Follows(accesses, i)
  }

  ghost predicate Follows(accesses: seq<Access>, i: nat)
    requires i < |accesses|
  {
    && (accesses[i].Write? ==> i > 0 && accesses[i - 1].Read? && accesses[i - 1].p == accesses[i].p)
    && (accesses[i].Refund? ==> i > 0 && accesses[i - 1].Write? && accesses[i - 1].p == accesses[i].p)
  }

  lemma NoGap(s: Shared, budget: int, a: Access, b: Access, start: int)
    requires InWindow(s, budget, start) && Enabled(s, a) && Enabled(Apply(s, budget, a), b) && a.p == b.p
    requires (a.Read? && b.Write? && !Expired(At(start), a.at)) || (a.Write? && b.Refund?)
    ensures Gap(Apply(s, budget, a), b) == 0
  {
  }

  /** Without overlap the gaps vanish and the budget bounds the restarts of a window. */
  lemma {:induction false} UndisturbedKeepsBudget(states: seq<Shared>, budget: int, accesses: seq<Access>, start: int, n: nat)
    requires IsRun(states, budget, accesses) && n <= |accesses|
    requires StartsHot(states[0], start) && LooksBefore(accesses, start) && Undisturbed(accesses)
    ensures Gaps(states, budget, accesses, n) == 0
    ensures states[0].row.used <= budget ==> Net(accesses, n) <= budget - states[0].row.used
  {
    hide Apply, Enabled, InWindow, Gap;
    LostUpdates(states, budget, accesses, start, n);
    if n > 0 {
      UndisturbedKeepsBudget(states, budget, accesses, start, n - 1);
      assert StepAt(states, budget, accesses, n - 1);
      if accesses[n - 1].Read? {
        ReadNoGap(states[n - 1], accesses[n - 1]);
      } else {
        assert Follows(accesses, n - 1);
        LostUpdates(states, budget, accesses, start, n - 2);
        assert StepAt(states, budget, accesses, n - 2);
        NoGap(states[n - 2], budget, accesses[n - 2], accesses[n - 1], start);
      }
    }
  }

  lemma ReadNoGap(s: Shared, a: Access)
    requires Enabled(s, a) && a.Read?
    ensures Gap(s, a) == 0
  {
  }

  // ---------------- Overlaps and refunds over several windows ----------------

  /** A row that accesses between `from` and `to` can leave. */
  ghost predicate Tidy(b: Burst, budget: nat, from: int, to: int) {
    match b.window
    case Empty => b.used == 0
    case At(start) => from <= start <= to && 0 <= b.used <= budget
    case Garbled => false
  }

  /** What a row can still give up to `to`: the rest of its burst, and a full budget for
      every 61 seconds that still fit. */
  function Potential(b: Burst, budget: nat, from: int, to: int): int {
    match b.window
    case At(start) => budget - b.used + budget * ((to - start) / SPACING)
    case _ => budget * ((to - from) / SPACING + 1)
  }

  lemma PotentialNonNegative(b: Burst, budget: nat, from: int, to: int)
    requires Tidy(b, budget, from, to) && from <= to
    ensures Potential(b, budget, from, to) >= 0
  {
    if b.window.At? {
      MulMono(budget, 0, (to - b.window.start) / SPACING);
    } else {
      MulMono(budget, 0, (to - from) / SPACING + 1);
    }
  }

  /** A grant is paid for by the row it was read from, across the end of a window too. */
  lemma GrantPays(b: Burst, budget: nat, c: Crash, from: int, to: int)
    requires Tidy(b, budget, from, to) && Grants(b, budget, c)
    requires from <= c.stamp <= to && c.check <= c.stamp
    ensures Tidy(Next(b, budget, c), budget, from, to) && Next(b, budget, c).window.At?
    ensures Potential(Next(b, budget, c), budget, from, to) + 1 <= Potential(b, budget, from, to)
  {
    if b.window.Empty? {
      Spread(budget, from, c.stamp, to);
    } else {
      ExpiredExactly(b.window.start, c.check);
      if Expired(b.window, c.check) { Later(budget, b.window.start, c.stamp, to); }
    }
  }

  /** A handler stamps within the span, and not before it looked. */
  ghost predicate Timely(s: Shared, a: Access, from: int, to: int) {
    a.Write? && a.p in s.pending ==> from <= a.stamp <= to && s.pending[a.p].check <= a.stamp
  }

  /** What an access brings back that had been paid: the row it works from could give more
      than the one it replaces. */
  function Lost(s: Shared, budget: nat, a: Access, from: int, to: int): int
    requires Enabled(s, a)
  {
    match a
    case Read(_, _) => 0
    case Write(p, _) => Potential(s.pending[p].row, budget, from, to) - Potential(s.row, budget, from, to)
    case Refund(p) => s.row.used - (Effective(s.spent[p].row, s.spent[p].check) + 1)
  }

  /** Readings are of tidy rows that granted, and nothing is refundable before a window is open. */
  ghost predicate Sound(s: Shared, budget: nat, from: int, to: int) {
    && Tidy(s.row, budget, from, to)
    && (forall p :: p in s.pending ==> GrantedFrom(s.pending[p], budget, from, to))
    && (forall p :: p in s.spent ==> GrantedFrom(s.spent[p], budget, from, to) && s.row.window.At?)
  }

  ghost predicate GrantedFrom(r: Reading, budget: nat, from: int, to: int) {
    Tidy(r.row, budget, from, to) && Effective(r.row, r.check) < budget
  }

  lemma AccessPays(s: Shared, budget: nat, a: Access, from: int, to: int)
    requires Sound(s, budget, from, to) && Enabled(s, a) && Timely(s, a, from, to)
    ensures var s' := Apply(s, budget, a);
            && Sound(s', budget, from, to)
            && Worth(a) + Potential(s'.row, budget, from, to) <= Potential(s.row, budget, from, to) + Lost(s, budget, a, from, to)
  {
    hide Potential;
    match a
    case Read(_, _) =>
    case Write(p, stamp) =>
      hide Next, Tidy, Effective;
      GrantPays(s.pending[p].row, budget, Crash(s.pending[p].check, stamp), from, to);
    case Refund(p) =>
      RefundGives(s.row, budget, Effective(s.spent[p].row, s.spent[p].check), from, to);
  }

  lemma RefundGives(b: Burst, budget: nat, used: int, from: int, to: int)
    requires b.window.At?
    ensures Potential(b.(used := used), budget, from, to) == Potential(b, budget, from, to) + b.used - used
  {
  }

  ghost function Losts(states: seq<Shared>, budget: nat, accesses: seq<Access>, from: int, to: int, n: nat): int
    requires IsRun(states, budget, accesses) && n <= |accesses|
  {
    if n == 0 then 0
    else
      assert StepAt(states, budget, accesses, n - 1);
      Losts(states, budget, accesses, from, to, n - 1) + Lost(states[n - 1], budget, accesses[n - 1], from, to)
  }

  ghost predicate StartsEmpty(s: Shared) {
    s.row == Burst(0, Empty) && s.pending == map[] && s.spent == map[]
  }

  ghost predicate AllTimely(states: seq<Shared>, accesses: seq<Access>, from: int, to: int)
    requires |states| == |accesses| + 1
  {
    forall i :: 0 <= i < |accesses| ==> Timely(states[i], accesses[i], from, to)
  }

  lemma {:induction false} PaidOrLost(states: seq<Shared>, budget: nat, accesses: seq<Access>, from: int, to: int, n: nat)
    requires IsRun(states, budget, accesses) && n <= |accesses| && from <= to
    requires StartsEmpty(states[0]) && AllTimely(states, accesses, from, to)
    ensures Sound(states[n], budget, from, to)
    ensures Net(accesses, n) + Potential(states[n].row, budget, from, to)
            <= budget * ((to - from) / SPACING + 1) + Losts(states, budget, accesses, from, to, n)
  {
    hide Apply, Enabled, Lost, Timely;
    if n > 0 {
      PaidOrLost(states, budget, accesses, from, to, n - 1);
      assert StepAt(states, budget, accesses, n - 1);
      hide Sound, Potential;
      AccessPays(states[n - 1], budget, accesses[n - 1], from, to);
    }
  }

  /** In every interleaving of reads, writes and refunds, over however many windows, restarts
      granted and not refunded exceed the bound for crashes one at a time by at most what
      was brought back. */
  lemma OverlapBound(states: seq<Shared>, budget: nat, accesses: seq<Access>, from: int, to: int, n: nat)
    requires IsRun(states, budget, accesses) && n <= |accesses| && from <= to
    requires StartsEmpty(states[0]) && AllTimely(states, accesses, from, to)
    ensures Net(accesses, n) <= budget * ((to - from) / SPACING + 1) + Losts(states, budget, accesses, from, to, n)
  {
    hide Potential;
    PaidOrLost(states, budget, accesses, from, to, n);
    PotentialNonNegative(states[n].row, budget, from, to);
  }

  lemma ReadLosesNothing(s: Shared, budget: nat, a: Access, from: int, to: int)
    requires Enabled(s, a) && a.Read?
    ensures Lost(s, budget, a, from, to) == 0
  {
  }

  lemma {:induction false} UndisturbedLosesNothing(
    states: seq<Shared>, budget: nat, accesses: seq<Access>, from: int, to: int, n: nat)
    requires IsRun(states, budget, accesses) && n <= |accesses| && from <= to
    requires StartsEmpty(states[0]) && AllTimely(states, accesses, from, to) && Undisturbed(accesses)
    ensures Losts(states, budget, accesses, from, to, n) == 0
  {
    hide Apply, Enabled, Lost, Timely, Potential, Tidy, Effective;
    if n > 0 {
      UndisturbedLosesNothing(states, budget, accesses, from, to, n - 1);
      assert StepAt(states, budget, accesses, n - 1);
      if accesses[n - 1].Read? {
        ReadLosesNothing(states[n - 1], budget, accesses[n - 1], from, to);
      } else {
        assert Follows(accesses, n - 1);
        PaidOrLost(states, budget, accesses, from, to, n - 2);
        assert StepAt(states, budget, accesses, n - 2);
        LostBehind(states[n - 2], budget, accesses[n - 2], accesses[n - 1], from, to);
      }
    }
  }

  /** An access right behind the one it rests on brings nothing back. */
  lemma LostBehind(s: Shared, budget: nat, a: Access, b: Access, from: int, to: int)
    requires Sound(s, budget, from, to) && Enabled(s, a) && Enabled(Apply(s, budget, a), b) && a.p == b.p
    requires (a.Read? && b.Write?) || (a.Write? && b.Refund?)
    ensures Lost(Apply(s, budget, a), budget, b, from, to) == 0
  {
    hide Potential;
  }

  /** Crashes one at a time, with refunds: the bound of `RunBound` for the restarts that were
      not refunded. */
  lemma RefundedRunBound(states: seq<Shared>, budget: nat, accesses: seq<Access>, from: int, to: int, n: nat)
    requires IsRun(states, budget, accesses) && n <= |accesses| && from <= to
    requires StartsEmpty(states[0]) && AllTimely(states, accesses, from, to) && Undisturbed(accesses)
    ensures Net(accesses, n) <= budget * ((to - from) / SPACING + 1)
  {
    OverlapBound(states, budget, accesses, from, to, n);
    UndisturbedLosesNothing(states, budget, accesses, from, to, n);
  }
}
