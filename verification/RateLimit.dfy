/** The per-key token bucket in front of every request, with exact tokens. */
module RateLimit {

  const BUCKET_TRACK_LIMIT: nat := 4096
  const IDLE_SECS: int := 3600

  datatype Bucket = Bucket(tokens: real, last: int)

  type Buckets = map<string, Bucket>

  function Min(a: real, b: real): real {
    if a <= b then a else b
  }

  /** Tokens that `secs` seconds bring at `limit` per minute. */
  function Earned(limit: nat, secs: int): real {
    secs as real * (limit as real / 60.0)
  }

  /** Dropping idle buckets once too many keys are tracked. */
  function Evict(m: Buckets, now: int): Buckets {
    if |m| >= BUCKET_TRACK_LIMIT then map k | k in m && now - m[k].last < IDLE_SECS :: m[k] else m
  }

  function Refill(b: Bucket, limit: nat, now: int): Bucket {
    var elapsed := if now > b.last then now - b.last else 0;
    Bucket(Min(b.tokens + Earned(limit, elapsed), limit as real), now)
  }

  /** The bucket a call finds: a new key starts full. */
  function Find(m: Buckets, limit: nat, key: string, now: int): Bucket {
    Refill(if key in m then m[key] else Bucket(limit as real, now), limit, now)
  }

  function Spend(b: Bucket): Bucket {
    if b.tokens >= 1.0 then b.(tokens := b.tokens - 1.0) else b
  }

  datatype Outcome = Outcome(buckets: Buckets, allowed: bool)

  /** One call on a limiter that keeps every bucket. */
  function Charge(m: Buckets, limit: nat, key: string, now: int): Outcome {
    var b := Find(m, limit, key, now);
    Outcome(m[key := Spend(b)], b.tokens >= 1.0)
  }

  /** The limiter itself: shared buckets, a fixed limit per minute. */
  class Limiter {
    var buckets: Buckets
    const limit: nat

    constructor (limit: nat)
      ensures buckets == map[] && this.limit == limit
    {
      this.limit := limit;
      buckets := map[];
    }

    /** `rate_limit` */
    method Allow(key: string, now: int) returns (allowed: bool)
      modifies this
      ensures Outcome(buckets, allowed) == Charge(Evict(old(buckets), now), limit, key, now)
    {
      if |buckets| >= BUCKET_TRACK_LIMIT {
        buckets := map k | k in buckets && now - buckets[k].last < IDLE_SECS :: buckets[k];
      }
      if key !in buckets {
        buckets := buckets[key := Bucket(limit as real, now)];
      }
      var b := buckets[key];
      var elapsed := if now > b.last then now - b.last else 0;
      var tokens := Min(b.tokens + Earned(limit, elapsed), limit as real);
      allowed := tokens >= 1.0;
      buckets := buckets[key := Bucket(if allowed then tokens - 1.0 else tokens, now)];
    }
  }

  // ---------------- Runs ----------------

  datatype Call = Call(key: string, now: int)

  ghost predicate Ordered(calls: seq<Call>) {
    forall i, j :: 0 <= i < j < |calls| ==> calls[i].now <= calls[j].now
  }

  /** Answers of the limiter that evicts, and of one that never does. */
  function Answers(m: Buckets, limit: nat, calls: seq<Call>): (r: seq<bool>)
    ensures |r| == |calls|
    decreases |calls|
  {
    if calls == [] then []
    else
      var o := Charge(Evict(m, calls[0].now), limit, calls[0].key, calls[0].now);
      [o.allowed] + Answers(o.buckets, limit, calls[1..])
  }

  function AnswersKept(m: Buckets, limit: nat, calls: seq<Call>): (r: seq<bool>)
    ensures |r| == |calls|
    decreases |calls|
  {
    if calls == [] then []
    else
      var o := Charge(m, limit, calls[0].key, calls[0].now);
      [o.allowed] + AnswersKept(o.buckets, limit, calls[1..])
  }

  /** Buckets that calls up to `now` can have left. */
  ghost predicate Sane(m: Buckets, limit: nat, now: int) {
    forall k :: k in m ==> 0.0 <= m[k].tokens <= limit as real && m[k].last <= now
  }

  lemma EarnedAdds(limit: nat, a: int, b: int)
    ensures Earned(limit, a + b) == Earned(limit, a) + Earned(limit, b)
  {
    var rate := limit as real / 60.0;
    assert (a + b) as real == a as real + b as real;
    assert (a as real + b as real) * rate == a as real * rate + b as real * rate;
  }

  lemma EarnedNonNegative(limit: nat, secs: int)
    requires secs >= 0
    ensures Earned(limit, secs) >= 0.0
  {
  }

  /** An hour refills any bucket. */
  lemma HourIsEnough(limit: nat, secs: int)
    requires secs >= IDLE_SECS
    ensures Earned(limit, secs) >= limit as real
  {
    EarnedAdds(limit, IDLE_SECS, secs - IDLE_SECS);
    EarnedNonNegative(limit, secs - IDLE_SECS);
    assert Earned(limit, IDLE_SECS) == 60.0 * limit as real;
  }

  lemma ChargeSane(m: Buckets, limit: nat, key: string, now: int)
    requires Sane(m, limit, now)
    ensures Sane(Charge(m, limit, key, now).buckets, limit, now)
  {
    if key in m { EarnedNonNegative(limit, now - m[key].last); }
  }

  // ---------------- Eviction cannot be observed ----------------

  /** A bucket that, looked at now or later, is full. */
  ghost predicate FullBy(b: Bucket, limit: nat, now: int) {
    b.last <= now && b.tokens + Earned(limit, now - b.last) >= limit as real
  }

  /** `m` is `kept` without some buckets that would be full. */
  ghost predicate Thinned(m: Buckets, kept: Buckets, limit: nat, now: int) {
    && m.Keys <= kept.Keys
    && (forall k :: k in m ==> m[k] == kept[k])
    && (forall k :: k in kept && k !in m ==> FullBy(kept[k], limit, now))
  }

  lemma FullStays(b: Bucket, limit: nat, now: int, later: int)
    requires FullBy(b, limit, now) && now <= later
    ensures FullBy(b, limit, later)
  {
    EarnedAdds(limit, now - b.last, later - now);
    EarnedNonNegative(limit, later - now);
  }

  lemma EvictThins(m: Buckets, kept: Buckets, limit: nat, now: int, later: int)
    requires Thinned(m, kept, limit, now) && Sane(kept, limit, now) && now <= later
    ensures Thinned(Evict(m, later), kept, limit, later)
  {
    forall k | k in kept && k !in Evict(m, later) ensures FullBy(kept[k], limit, later) {
      if k in m {
        HourIsEnough(limit, later - kept[k].last);
      } else {
        FullStays(kept[k], limit, now, later);
      }
    }
  }

  lemma ChargeAgrees(m: Buckets, kept: Buckets, limit: nat, key: string, now: int)
    requires Thinned(m, kept, limit, now)
    ensures Charge(m, limit, key, now).allowed == Charge(kept, limit, key, now).allowed
    ensures Thinned(Charge(m, limit, key, now).buckets, Charge(kept, limit, key, now).buckets, limit, now)
  {
    assert Earned(limit, 0) == 0.0;
    assert Find(m, limit, key, now) == Find(kept, limit, key, now);
  }

  lemma {:induction false} AnswersAgree(m: Buckets, kept: Buckets, limit: nat, now: int, calls: seq<Call>)
    requires Thinned(m, kept, limit, now) && Sane(kept, limit, now)
    requires Ordered(calls) && (calls != [] ==> now <= calls[0].now)
    ensures Answers(m, limit, calls) == AnswersKept(kept, limit, calls)
    decreases |calls|
  {
    if calls != [] {
      var key, t := calls[0].key, calls[0].now;
      EvictThins(m, kept, limit, now, t);
      ChargeAgrees(Evict(m, t), kept, limit, key, t);
      ChargeSane(kept, limit, key, t);
      AnswersAgree(Charge(Evict(m, t), limit, key, t).buckets, Charge(kept, limit, key, t).buckets, limit, t, calls[1..]);
    }
  }

  /** From the same buckets, evicting and never evicting answer every call alike. */
  lemma EvictionInvisible(m: Buckets, limit: nat, now: int, calls: seq<Call>)
    requires Sane(m, limit, now) && Ordered(calls) && (calls != [] ==> now <= calls[0].now)
    ensures Answers(m, limit, calls) == AnswersKept(m, limit, calls)
  {
    AnswersAgree(m, m, limit, now, calls);
  }

  // ---------------- The bound ----------------

  /** How many of the calls for `key` were allowed. */
  function Granted(answers: seq<bool>, calls: seq<Call>, key: string): nat
    requires |answers| == |calls|
  {
    if calls == [] then 0
    else (if answers[0] && calls[0].key == key then 1 else 0) + Granted(answers[1..], calls[1..], key)
  }

  /** What `key` could spend at `now`. */
  function Available(m: Buckets, limit: nat, key: string, now: int): real {
    Find(m, limit, key, now).tokens
  }

  /** Buckets any calls can have left, whatever their clock did. */
  ghost predicate Filled(m: Buckets, limit: nat) {
    forall k :: k in m ==> 0.0 <= m[k].tokens <= limit as real
  }

  function Ahead(from: int, to: int): nat {
    if to > from then to - from else 0
  }

  /** The way the clock goes forward over some calls; going back costs nothing. */
  function Forward(now: int, calls: seq<Call>): nat
    decreases |calls|
  {
    if calls == [] then 0 else Ahead(now, calls[0].now) + Forward(calls[0].now, calls[1..])
  }

  lemma AvailableBounds(m: Buckets, limit: nat, key: string, now: int)
    requires Filled(m, limit)
    ensures 0.0 <= Available(m, limit, key, now) <= limit as real
  {
    if key in m { EarnedNonNegative(limit, Ahead(m[key].last, now)); }
  }

  /** From one reading of the clock to the next a bucket gains at most what the step
      forward brings. */
  lemma AvailableGrows(m: Buckets, limit: nat, key: string, now: int, later: int)
    requires Filled(m, limit)
    ensures Available(m, limit, key, later) <= Available(m, limit, key, now) + Earned(limit, Ahead(now, later))
  {
    EarnedNonNegative(limit, Ahead(now, later));
    if key in m {
      var last := m[key].last;
      EarnedAdds(limit, Ahead(last, now), Ahead(now, later));
      EarnedAdds(limit, Ahead(last, later), Ahead(last, now) + Ahead(now, later) - Ahead(last, later));
      EarnedNonNegative(limit, Ahead(last, now) + Ahead(now, later) - Ahead(last, later));
    }
  }

  /** Eviction drops full buckets only. */
  lemma EvictKeeps(m: Buckets, limit: nat, key: string, now: int)
    requires Filled(m, limit)
    ensures Filled(Evict(m, now), limit)
    ensures Available(Evict(m, now), limit, key, now) == Available(m, limit, key, now)
  {
    assert Earned(limit, 0) == 0.0;
    if key in m && key !in Evict(m, now) { HourIsEnough(limit, now - m[key].last); }
  }

  lemma ChargeTakes(m: Buckets, limit: nat, key: string, now: int, who: string)
    requires Filled(m, limit)
    ensures var o := Charge(m, limit, key, now);
            Filled(o.buckets, limit)
            && Available(o.buckets, limit, who, now)
               == Available(m, limit, who, now) - (if o.allowed && who == key then 1.0 else 0.0)
  {
    assert Earned(limit, 0) == 0.0;
    AvailableBounds(m, limit, key, now);
  }

  /** Grants are paid for, whatever the clock does and whatever is evicted: by what was
      there at `now` and by every step the clock makes forward. */
  lemma {:induction false} GrantsArePaid(m: Buckets, limit: nat, now: int, calls: seq<Call>, key: string)
    requires Filled(m, limit)
    ensures Granted(Answers(m, limit, calls), calls, key) as real
            <= Available(m, limit, key, now) + Earned(limit, Forward(now, calls))
    decreases |calls|
  {
    hide Charge, Evict, Available, Earned;
    if calls == [] {
      EarnedNonNegative(limit, 0);
      AvailableBounds(m, limit, key, now);
    } else {
      var c, t := calls[0], calls[0].now;
      var kept := Evict(m, t);
      var o := Charge(kept, limit, c.key, t);
      AvailableGrows(m, limit, key, now, t);
      EvictKeeps(m, limit, key, t);
      ChargeTakes(kept, limit, c.key, t, key);
      GrantsArePaid(o.buckets, limit, t, calls[1..], key);
      EarnedAdds(limit, Ahead(now, t), Forward(t, calls[1..]));
      var answers := Answers(m, limit, calls);
      assert answers[0] == o.allowed && answers[1..] == Answers(o.buckets, limit, calls[1..]);
    }
  }

  /** The buckets after some calls. */
  function After(m: Buckets, limit: nat, calls: seq<Call>): Buckets
    decreases |calls|
  {
    if calls == [] then m
    else After(Charge(Evict(m, calls[0].now), limit, calls[0].key, calls[0].now).buckets, limit, calls[1..])
  }

  lemma {:induction false} AnswersSplit(m: Buckets, limit: nat, first: seq<Call>, more: seq<Call>)
    ensures Answers(m, limit, first + more) == Answers(m, limit, first) + Answers(After(m, limit, first), limit, more)
    decreases |first|
  {
    if first == [] {
      assert first + more == more;
    } else {
      var all := first + more;
      assert all[0] == first[0] && all[1..] == first[1..] + more;
      var o := Charge(Evict(m, first[0].now), limit, first[0].key, first[0].now);
      AnswersSplit(o.buckets, limit, first[1..], more);
    }
  }

  lemma {:induction false} FilledAfter(m: Buckets, limit: nat, calls: seq<Call>)
    requires Filled(m, limit)
    ensures Filled(After(m, limit, calls), limit)
    decreases |calls|
  {
    hide Charge, Evict;
    if calls != [] {
      var c := calls[0];
      EvictKeeps(m, limit, c.key, c.now);
      ChargeTakes(Evict(m, c.now), limit, c.key, c.now, c.key);
      FilledAfter(Charge(Evict(m, c.now), limit, c.key, c.now).buckets, limit, calls[1..]);
    }
  }

  /** In any run of the limiter from start-up, on any clock, any stretch of calls grants
      one key at most `limit + limit * f / 60`, where `f` is how far the clock goes forward
      within it: whatever came before, whatever other keys do and whatever was evicted. */
  lemma ClockBound(limit: nat, calls: seq<Call>, i: nat, j: nat, key: string)
    requires i < j <= |calls|
    ensures Granted(Answers(map[], limit, calls)[i..j], calls[i..j], key) as real
            <= limit as real + limit as real * Forward(calls[i].now, calls[i..j]) as real / 60.0
  {
    hide Answers, After, Granted, Forward, Available;
    var m := After(map[], limit, calls[..i]);
    AnswersOfStretch(limit, calls, i, j);
    FilledAfter(map[], limit, calls[..i]);
    AvailableBounds(m, limit, key, calls[i].now);
    GrantsArePaid(m, limit, calls[i].now, calls[i..j], key);
    EarnedIs(limit, Forward(calls[i].now, calls[i..j]));
  }

  lemma EarnedIs(limit: nat, d: nat)
    ensures Earned(limit, d) == limit as real * d as real / 60.0
  {
  }

  lemma {:induction false} ForwardOrdered(now: int, calls: seq<Call>)
    requires Ordered(calls) && (calls != [] ==> now <= calls[0].now)
    ensures Forward(now, calls) == if calls == [] then 0 else calls[|calls| - 1].now - now
    decreases |calls|
  {
    if calls != [] { ForwardOrdered(calls[0].now, calls[1..]); }
  }

  /** So on a clock that never steps back a stretch spanning `d` seconds grants one key at
      most `limit + limit * d / 60`. */
  lemma RateBound(limit: nat, calls: seq<Call>, i: nat, j: nat, key: string, d: nat)
    requires Ordered(calls) && i < j <= |calls| && calls[j - 1].now - calls[i].now <= d
    ensures Granted(Answers(map[], limit, calls)[i..j], calls[i..j], key) as real
            <= limit as real + limit as real * d as real / 60.0
  {
    hide Answers, Granted, Forward;
    ClockBound(limit, calls, i, j, key);
    var f := Forward(calls[i].now, calls[i..j]);
    ForwardOrdered(calls[i].now, calls[i..j]);
    EarnedIs(limit, f);
    EarnedIs(limit, d);
    EarnedAdds(limit, f, d - f);
    EarnedNonNegative(limit, d - f);
  }

  lemma AnswersOfStretch(limit: nat, calls: seq<Call>, i: nat, j: nat)
    requires i <= j <= |calls|
    ensures Answers(map[], limit, calls)[i..j] == Answers(After(map[], limit, calls[..i]), limit, calls[i..j])
  {
    hide Answers, After;
    var before, stretch, rest := calls[..i], calls[i..j], calls[j..];
    var m := After(map[], limit, before);
    assert calls == before + (stretch + rest);
    AnswersSplit(map[], limit, before, stretch + rest);
    AnswersSplit(m, limit, stretch, rest);
  }

  // ---------------- Nobody is refused too early ----------------

  /** A call is allowed exactly when a whole token is there, and it takes that one. */
  lemma AllowedExactly(m: Buckets, limit: nat, key: string, now: int)
    requires Filled(m, limit)
    ensures Charge(Evict(m, now), limit, key, now).allowed <==> Available(m, limit, key, now) >= 1.0
  {
    hide Available, Evict, Earned;
    EvictKeeps(m, limit, key, now);
    ChargeAsks(Evict(m, now), limit, key, now);
  }

  lemma ChargeAsks(m: Buckets, limit: nat, key: string, now: int)
    ensures Charge(m, limit, key, now).allowed <==> Available(m, limit, key, now) >= 1.0
  {
  }

  /** On a clock that goes forward a bucket gains exactly the rate, up to the limit. */
  lemma RefillsExactly(m: Buckets, limit: nat, key: string, now: int, later: int)
    requires Sane(m, limit, now) && now <= later
    ensures Available(m, limit, key, later) == Min(Available(m, limit, key, now) + Earned(limit, later - now), limit as real)
    ensures key !in m ==> Available(m, limit, key, now) == limit as real
  {
    EarnedNonNegative(limit, later - now);
    assert Earned(limit, 0) == 0.0;
    if key in m { EarnedAdds(limit, now - m[key].last, later - now); }
  }

  lemma SaneFilled(m: Buckets, limit: nat, now: int)
    requires Sane(m, limit, now)
    ensures Filled(m, limit)
  {
  }

  lemma EvictSane(m: Buckets, limit: nat, now: int)
    requires Sane(m, limit, now)
    ensures Sane(Evict(m, now), limit, now)
  {
  }

  /** `n` calls of one key at one moment. */
  function Repeated(key: string, now: int, n: nat): seq<Call> {
    if n == 0 then [] else [Call(key, now)] + Repeated(key, now, n - 1)
  }

  lemma {:induction false} RepeatedGrants(m: Buckets, limit: nat, key: string, now: int, n: nat, left: nat)
    requires Filled(m, limit) && Available(m, limit, key, now) == left as real
    ensures Granted(Answers(m, limit, Repeated(key, now, n)), Repeated(key, now, n), key) == if n <= left then n else left
    decreases n
  {
    hide Charge, Evict, Available, Filled;
    if n > 0 {
      var calls, rest := Repeated(key, now, n), Repeated(key, now, n - 1);
      assert calls[0] == Call(key, now) && calls[1..] == rest;
      AllowedExactly(m, limit, key, now);
      EvictKeeps(m, limit, key, now);
      var kept := Evict(m, now);
      var o := Charge(kept, limit, key, now);
      ChargeTakes(kept, limit, key, now, key);
      RepeatedGrants(o.buckets, limit, key, now, n - 1, if left >= 1 then left - 1 else 0);
      AnswersFirst(m, limit, calls);
      GrantedCons(o.allowed, Answers(o.buckets, limit, rest), calls, key);
    }
  }

  lemma AnswersFirst(m: Buckets, limit: nat, calls: seq<Call>)
    requires calls != []
    ensures var o := Charge(Evict(m, calls[0].now), limit, calls[0].key, calls[0].now);
            Answers(m, limit, calls) == [o.allowed] + Answers(o.buckets, limit, calls[1..])
  {
  }

  /** A new key may burst to the limit, and not beyond. */
  lemma BurstExactly(limit: nat, key: string, now: int, n: nat)
    ensures Granted(Answers(map[], limit, Repeated(key, now, n)), Repeated(key, now, n), key) == if n <= limit then n else limit
  {
    assert Earned(limit, 0) == 0.0;
    RepeatedGrants(map[], limit, key, now, n, limit);
  }

  /** The calls of `key` are `gap` seconds apart, the first that far behind `last`. */
  ghost predicate Spaced(calls: seq<Call>, key: string, gap: nat, last: int)
    decreases |calls|
  {
    calls == []
    || if calls[0].key == key then calls[0].now - last >= gap && Spaced(calls[1..], key, gap, calls[0].now)
       else Spaced(calls[1..], key, gap, last)
  }

  ghost predicate AllAllowed(answers: seq<bool>, calls: seq<Call>, key: string)
    requires |answers| == |calls|
  {
    forall i :: 0 <= i < |calls| && calls[i].key == key ==> answers[i]
  }

  /** One call, of whoever: what `key` can spend grows with time and is touched by no one
      else, eviction included. */
  lemma OthersDoNotTake(m: Buckets, limit: nat, key: string, now: int, c: Call, last: int)
    requires Sane(m, limit, now) && now <= c.now && last <= now
    requires Available(m, limit, key, now) >= Min(Earned(limit, now - last), limit as real)
    ensures var o := Charge(Evict(m, c.now), limit, c.key, c.now);
            && Sane(o.buckets, limit, c.now)
            && Available(m, limit, key, c.now) >= Min(Earned(limit, c.now - last), limit as real)
            && (c.key != key ==> Available(o.buckets, limit, key, c.now) == Available(m, limit, key, c.now))
            && (c.key == key ==> Available(o.buckets, limit, key, c.now) >= 0.0)
  {
    hide Available, Charge, Evict, Earned;
    var kept := Evict(m, c.now);
    RefillsExactly(m, limit, key, now, c.now);
    EarnedAdds(limit, now - last, c.now - now);
    EarnedNonNegative(limit, c.now - now);
    SaneLater(m, limit, now, c.now);
    EvictSane(m, limit, c.now);
    ChargeSane(kept, limit, c.key, c.now);
    SaneFilled(m, limit, c.now);
    SaneFilled(kept, limit, c.now);
    EvictKeeps(m, limit, key, c.now);
    ChargeTakes(kept, limit, c.key, c.now, key);
    var o := Charge(kept, limit, c.key, c.now);
    SaneFilled(o.buckets, limit, c.now);
    AvailableBounds(o.buckets, limit, key, c.now);
  }

  lemma SaneLater(m: Buckets, limit: nat, now: int, later: int)
    requires Sane(m, limit, now) && now <= later
    ensures Sane(m, limit, later)
  {
  }

  lemma {:induction false} SteadyFrom(m: Buckets, limit: nat, key: string, calls: seq<Call>, gap: nat, now: int, last: int)
    requires limit * gap >= 60 && Sane(m, limit, now) && last <= now
    requires Available(m, limit, key, now) >= Min(Earned(limit, now - last), limit as real)
    requires Ordered(calls) && (calls != [] ==> now <= calls[0].now) && Spaced(calls, key, gap, last)
    ensures AllAllowed(Answers(m, limit, calls), calls, key)
    decreases |calls|
  {
    hide Charge, Evict, Available, Sane;
    if calls != [] {
      var c := calls[0];
      var o := Charge(Evict(m, c.now), limit, c.key, c.now);
      OthersDoNotTake(m, limit, key, now, c, last);
      if c.key == key {
        GapEarnsOne(limit, gap, c.now - last);
        assert Filled(m, limit) by { SaneFilled(m, limit, now); }
        AllowedExactly(m, limit, key, c.now);
        assert Earned(limit, 0) == 0.0;
      }
      SteadyFrom(o.buckets, limit, key, calls[1..], gap, c.now, if c.key == key then c.now else last);
      AnswersFirst(m, limit, calls);
    }
  }

  lemma GapEarnsOne(limit: nat, gap: nat, secs: int)
    requires limit * gap >= 60 && secs >= gap
    ensures Earned(limit, secs) >= 1.0 && limit >= 1
  {
    EarnedIs(limit, gap);
    EarnedAdds(limit, gap, secs - gap);
    EarnedNonNegative(limit, secs - gap);
    assert limit as real * gap as real == (limit * gap) as real;
  }

  /** Whoever keeps to the rate is never refused: if a key's calls are so far apart that
      each gap earns a token, every one of them is allowed, whatever other keys do and
      whatever is evicted. */
  lemma SteadyNeverRefused(limit: nat, key: string, calls: seq<Call>, gap: nat, start: int)
    requires limit * gap >= 60 && Ordered(calls) && (calls != [] ==> start <= calls[0].now)
    requires Spaced(calls, key, gap, start)
    ensures AllAllowed(Answers(map[], limit, calls), calls, key)
  {
    assert Earned(limit, 0) == 0.0;
    SteadyFrom(map[], limit, key, calls, gap, start, start);
  }

  // ---------------- A clock that steps back ----------------

  /** A first call, then `n` swings of the clock one minute back and forth. */
  function Swings(key: string, n: nat): seq<Call> {
    [Call(key, 60)] + Back(key, n)
  }

  function Back(key: string, n: nat): seq<Call> {
    if n == 0 then [] else [Call(key, 0), Call(key, 60)] + Back(key, n - 1)
  }

  lemma {:induction false} BackGrants(key: string, n: nat)
    ensures var m: Buckets := map[key := Bucket(0.0, 60)];
            Granted(Answers(m, 1, Back(key, n)), Back(key, n), key) == n
    ensures Forward(60, Back(key, n)) == 60 * n
    ensures forall i :: 0 <= i < |Back(key, n)| ==> 0 <= Back(key, n)[i].now <= 60
  {
    if n > 0 {
      var high: Buckets, low: Buckets := map[key := Bucket(0.0, 60)], map[key := Bucket(0.0, 0)];
      SwingCharges(key);
      var rest, calls := Back(key, n - 1), Back(key, n);
      BackGrants(key, n - 1);
      assert calls[0] == Call(key, 0) && calls[1] == Call(key, 60) && calls[2..] == rest;
      var tail := calls[1..];
      assert tail[0] == Call(key, 60) && tail[1..] == rest;
      assert Forward(60, calls) == Forward(0, tail);
      AnswersCons(low, tail, high, true);
      AnswersCons(high, calls, low, false);
      GrantedCons(true, Answers(high, 1, rest), tail, key);
      GrantedCons(false, Answers(low, 1, tail), calls, key);
    }
  }

  /** One swing on an empty bucket: refused low, granted high, and nothing is evicted. */
  lemma SwingCharges(key: string)
    ensures var high: Buckets, low: Buckets := map[key := Bucket(0.0, 60)], map[key := Bucket(0.0, 0)];
            && Charge(Evict(high, 0), 1, key, 0) == Outcome(low, false)
            && Charge(Evict(low, 60), 1, key, 60) == Outcome(high, true)
            && Charge(Evict(map[], 60), 1, key, 60) == Outcome(high, true)
  {
    assert Earned(1, 0) == 0.0 && Earned(1, 60) == 1.0;
  }

  lemma AnswersCons(m: Buckets, calls: seq<Call>, after: Buckets, allowed: bool)
    requires calls != [] && Charge(Evict(m, calls[0].now), 1, calls[0].key, calls[0].now) == Outcome(after, allowed)
    ensures Answers(m, 1, calls) == [allowed] + Answers(after, 1, calls[1..])
  {
  }

  lemma GrantedCons(first: bool, rest: seq<bool>, calls: seq<Call>, key: string)
    requires |calls| == |rest| + 1
    ensures Granted([first] + rest, calls, key) == (if first && calls[0].key == key then 1 else 0) + Granted(rest, calls[1..], key)
  {
    assert ([first] + rest)[1..] == rest;
  }

  /** `n` swings within one minute's span give `n + 1` grants at one per minute, which is
      what `ClockBound` allows to the last token, and from two swings on more than
      `RateBound` would allow a minute. */
  lemma ClockBackBreaksBound(key: string, n: nat)
    ensures var calls := Swings(key, n);
            && (forall i :: 0 <= i < |calls| ==> 0 <= calls[i].now <= 60)
            && Granted(Answers(map[], 1, calls), calls, key) == n + 1
            && Forward(60, calls) == 60 * n
    ensures n >= 2 ==> Granted(Answers(map[], 1, Swings(key, n)), Swings(key, n), key) as real > 1.0 + 1.0 * 60.0 / 60.0
  {
    hide Answers, Granted, Charge, Evict;
    var calls := Swings(key, n);
    var high: Buckets := map[key := Bucket(0.0, 60)];
    SwingCharges(key);
    BackGrants(key, n);
    assert calls[0] == Call(key, 60) && calls[1..] == Back(key, n);
    AnswersCons(map[], calls, high, true);
    GrantedCons(true, Answers(high, 1, Back(key, n)), calls, key);
  }
}
