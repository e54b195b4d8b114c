/** Progressive lockout after failed authentication: the doubling backoff in 64-bit arithmetic and
    the in-memory tracker that evicts what it no longer needs. Instants and durations are
    nanoseconds. */
module AuthLockout {
  import opened Options
  import opened Int64

  datatype Config = Config(threshold: int, window: int, base: int, max: int)

  const TWO_62: int := 0x4000_0000_0000_0000

  // ----- The backoff -----

  function Pow2(n: nat): nat {
    if n == 0 then 1 else 2 * Pow2(n - 1)
  }

  function Cap(x: int, max: int): int {
    if x > max then max else x
  }

  /** What is promised: nothing up to the threshold, then the base doubled per extra failure, capped. */
  function Backoff(c: Config, failures: int): int {
    if failures <= c.threshold then 0 else Cap(c.base * Pow2(failures - c.threshold - 1), c.max)
  }

  /** What is computed: `n` doublings of a 64-bit variable, ended early once the cap is reached. */
  function Doubled(x: int, max: int, n: nat): int
    decreases n
  {
    if n == 0 then Cap(x, max)
    else if x >= max then max
    else Doubled(Wrap64(x * 2), max, n - 1)
  }

  function Lockout(c: Config, failures: int): int {
    if failures <= c.threshold then 0 else Doubled(c.base, c.max, failures - c.threshold - 1)
  }

  method LockoutFor(c: Config, failures: int) returns (lockout: int)
    ensures lockout == Lockout(c, failures)
  {
    if failures <= c.threshold {
      return 0;
    }
    lockout := c.base;
    var n := failures - c.threshold - 1;
    for i := 0 to n
      invariant Doubled(lockout, c.max, n - i) == Lockout(c, failures)
    {
      if lockout >= c.max {
        return c.max;
      }
      lockout := Wrap64(lockout * 2);
    }
    if lockout > c.max {
      return c.max;
    }
  }

  // ----- When the computation keeps the promise -----

  /** How many doublings, without bounds, take `x` to the cap. */
  function Doublings(x: int, max: int): (n: nat)
    requires x > 0
    decreases max - x
  {
    if x >= max then 0 else 1 + Doublings(2 * x, max)
  }

  /** The first doubling of the base that reaches the cap fits in 64 bits. */
  predicate Fits(base: int, max: int)
    requires base > 0
  {
    base * Pow2(Doublings(base, max)) <= MAX_INT64
  }

  lemma {:induction false} Pow2Grows(m: nat, n: nat)
    requires m <= n
    ensures 1 <= Pow2(m) <= Pow2(n) && n < Pow2(n)
    decreases n
  {
    if n > 0 {
      Pow2Grows(if m < n then m else n - 1, n - 1);
    }
  }

  lemma ScaleGrows(base: int, x: int, y: int)
    requires 0 < base && x <= y
    ensures base * x <= base * y
  {
  }

  lemma DoubleScale(x: int, n: nat)
    ensures x * Pow2(n + 1) == (2 * x) * Pow2(n)
  {
    assert Pow2(n + 1) == 2 * Pow2(n);
  }

  /** A doubling on the way to the cap is no larger than the last one. */
  lemma FitsStep(x: int, max: int)
    requires 0 < x < max && Fits(x, max)
    ensures Fits(2 * x, max) && 2 * x <= MAX_INT64
  {
    var n := Doublings(2 * x, max);
    DoubleScale(x, n);
    Pow2Grows(0, n);
    ScaleGrows(2 * x, 1, Pow2(n));
  }

  lemma {:induction false} DoubledIs(x: int, max: int, n: nat)
    requires x > 0 && Fits(x, max)
    ensures Doubled(x, max, n) == Cap(x * Pow2(n), max)
    decreases n
  {
    if n > 0 {
      if x >= max {
        Pow2Grows(0, n);
        ScaleGrows(x, 1, Pow2(n));
      } else {
        FitsStep(x, max);
        WrapFits(2 * x);
        DoubledIs(2 * x, max, n - 1);
        DoubleScale(x, n - 1);
      }
    }
  }

  lemma {:induction false} DoubledOverflows(x: int, max: int) returns (n: nat)
    requires 0 < x <= MAX_INT64 && !Fits(x, max)
    ensures Doubled(x, max, n) < 0
    decreases max - x
  {
    if 2 * x > MAX_INT64 {
      n := 1;
      OverflowsOnce(x, max);
    } else {
      DoubleScale(x, Doublings(2 * x, max));
      var rest := DoubledOverflows(2 * x, max);
      WrapFits(2 * x);
      n := rest + 1;
    }
  }

  lemma OverflowsOnce(x: int, max: int)
    requires 0 < x < max && x <= MAX_INT64 < 2 * x
    ensures Doubled(x, max, 1) < 0
  {
    assert Wrap64(x * 2) == x * 2 - 0x1_0000_0000_0000_0000;
  }

  lemma LockoutIsBackoff(c: Config, failures: int)
    requires c.base > 0 && Fits(c.base, c.max)
    ensures Lockout(c, failures) == Backoff(c, failures)
  {
    if failures > c.threshold {
      DoubledIs(c.base, c.max, failures - c.threshold - 1);
    }
  }

  /** The computation yields the promised backoff for every failure count exactly when the first
      doubling of the base that reaches the cap fits in 64 bits; otherwise some failure count is
      given a negative duration, which locks nobody out. */
  lemma LockoutExactIff(c: Config)
    requires 0 < c.base <= MAX_INT64 && 0 < c.max
    ensures (forall failures: int :: Lockout(c, failures) == Backoff(c, failures)) <==> Fits(c.base, c.max)
    ensures (forall failures: int :: Lockout(c, failures) >= 0) <==> Fits(c.base, c.max)
  {
    if Fits(c.base, c.max) {
      forall failures: int ensures Lockout(c, failures) == Backoff(c, failures) && Lockout(c, failures) >= 0 {
        LockoutIsBackoff(c, failures);
        BackoffGrows(c, failures, failures);
      }
    } else {
      var n := DoubledOverflows(c.base, c.max);
      var failures := c.threshold + 1 + n;
      assert Lockout(c, failures) < 0;
      BackoffGrows(c, failures, failures);
    }
  }

  /** In terms of the cap alone: the computation is right for every base and every failure count
      exactly when the cap is at most 2^62. */
  lemma CapExactIff(max: int)
    requires 0 < max <= MAX_INT64
    ensures (forall c: Config, failures: int | c.max == max && 0 < c.base <= max ::
               Lockout(c, failures) == Backoff(c, failures)) <==> max <= TWO_62
  {
    if max <= TWO_62 {
      forall c: Config, failures: int | c.max == max && 0 < c.base <= max
        ensures Lockout(c, failures) == Backoff(c, failures)
      {
        SmallCapFits(c.base, max);
        LockoutIsBackoff(c, failures);
      }
    } else {
      var c := Config(0, 0, TWO_62, max);
      LockedForNegativeTime(c);
      BackoffGrows(c, 2, 2);
      assert Lockout(c, 2) != Backoff(c, 2);
    }
  }

  lemma {:induction false} SmallCapFits(x: int, max: int)
    requires 0 < x && max <= TWO_62 && x <= 2 * TWO_62 - 1
    ensures Fits(x, max)
    decreases max - x
  {
    if x < max {
      DoubleScale(x, Doublings(2 * x, max));
      if 2 * x < max {
        SmallCapFits(2 * x, max);
      }
    }
  }

  /** A base of 2^62 under any larger cap: the second lock would last minus 2^63 nanoseconds, so
      nobody is locked out. */
  lemma LockedForNegativeTime(c: Config)
    requires c.base == TWO_62 < c.max <= MAX_INT64
    ensures Lockout(c, c.threshold + 2) == MIN_INT64
  {
    assert Doubled(TWO_62, c.max, 1) == Doubled(Wrap64(TWO_62 * 2), c.max, 0);
  }

  /** The backoff never shrinks as failures accumulate, and starts right after the threshold. */
  lemma BackoffGrows(c: Config, m: int, n: int)
    requires 0 < c.base && 0 < c.max && m <= n
    ensures 0 <= Backoff(c, m) <= Backoff(c, n) <= c.max
    ensures Backoff(c, m) > 0 <==> m > c.threshold
  {
    if m > c.threshold {
      Pow2Grows(m - c.threshold - 1, n - c.threshold - 1);
      ScaleGrows(c.base, 1, Pow2(m - c.threshold - 1));
      ScaleGrows(c.base, Pow2(m - c.threshold - 1), Pow2(n - c.threshold - 1));
    } else if n > c.threshold {
      Pow2Grows(0, n - c.threshold - 1);
      ScaleGrows(c.base, 1, Pow2(n - c.threshold - 1));
    }
  }

  lemma {:induction false} DoublingsReach(x: int, max: int)
    requires x > 0
    ensures x * Pow2(Doublings(x, max)) >= max
    decreases max - x
  {
    if x < max {
      DoublingsReach(2 * x, max);
      DoubleScale(x, Doublings(2 * x, max));
    }
  }

  /** The backoff reaches the cap after as many extra failures as it takes doublings. */
  lemma BackoffReachesMax(c: Config, failures: int)
    requires 0 < c.base && failures >= c.threshold + 1 + Doublings(c.base, c.max)
    ensures Backoff(c, failures) == c.max
  {
    var n := failures - c.threshold - 1;
    DoublingsReach(c.base, c.max);
    Pow2Grows(Doublings(c.base, c.max), n);
    ScaleGrows(c.base, Pow2(Doublings(c.base, c.max)), Pow2(n));
  }

  // ----- The tracker -----

  datatype AuthEntry = AuthEntry(failures: nat, failuresEnd: int, lockedUntil: Option<int>)

  type Tracked = map<string, AuthEntry>

  predicate After(until: Option<int>, now: int) {
    until.Some? && until.value > now
  }

  predicate Passed(until: Option<int>, now: int) {
    until.Some? ==> now > until.value
  }

  predicate Expired(e: AuthEntry, now: int) {
    now > e.failuresEnd && Passed(e.lockedUntil, now)
  }

  predicate LockedIn(m: Tracked, key: string, now: int) {
    key in m && After(m[key].lockedUntil, now)
  }

  function Evicted(m: Tracked, now: int): Tracked {
    map k | k in m && !Expired(m[k], now) :: m[k]
  }

  /** The entry a failure is counted on. */
  function Charged(m: Tracked, key: string, now: int): AuthEntry {
    if key !in m || now > m[key].failuresEnd then AuthEntry(0, 0, None) else m[key]
  }

  function Failed(c: Config, e: AuthEntry, now: int): AuthEntry {
    var lockout := Lockout(c, e.failures + 1);
    AuthEntry(e.failures + 1, now + c.window, if lockout <= 0 then e.lockedUntil else Some(now + lockout))
  }

  datatype Charge = Charge(lockout: int, justLocked: bool)

  function Verdict(c: Config, e: AuthEntry, now: int): Charge {
    var lockout := Lockout(c, e.failures + 1);
    if lockout <= 0 then Charge(0, false) else Charge(lockout, !After(e.lockedUntil, now))
  }

  class MemoryLockout {
    const cfg: Config
    var m: Tracked

    constructor (c: Config)
      ensures cfg == c && m == map[]
    {
      cfg := c;
      m := map[];
    }

    /** `later` is the second clock reading, taken for the remaining time. */
    method Locked(key: string, now: int, later: int) returns (locked: bool, retryAfter: int)
      ensures locked == LockedIn(m, key, now)
      ensures retryAfter == if locked then m[key].lockedUntil.value - later else 0
    {
      if key !in m {
        return false, 0;
      }
      var entry := m[key];
      if After(entry.lockedUntil, now) {
        return true, entry.lockedUntil.value - later;
      }
      return false, 0;
    }

    method EvictExpired(now: int)
      modifies this
      ensures m == Evicted(old(m), now)
    {
      var keys := m.Keys;
      ghost var done: set<string> := {};
      while keys != {}
        invariant keys !! done && keys + done == old(m).Keys
        invariant forall k :: k in m <==> k in old(m) && (k in done ==> !Expired(old(m)[k], now))
        invariant forall k | k in m :: m[k] == old(m)[k]
        decreases |keys|
      {
        var key :| key in keys;
        if Expired(m[key], now) {
          m := m - {key};
        }
        keys := keys - {key};
        done := done + {key};
      }
    }

    method RecordFailure(key: string, now: int) returns (lockout: int, justLocked: bool)
      modifies this
      ensures var kept := Evicted(old(m), now);
              && m == kept[key := Failed(cfg, Charged(kept, key, now), now)]
              && Charge(lockout, justLocked) == Verdict(cfg, Charged(kept, key, now), now)
    {
      EvictExpired(now);
      var entry := if key !in m || now > m[key].failuresEnd then AuthEntry(0, 0, None) else m[key];
      var failures := entry.failures + 1;
      lockout := LockoutFor(cfg, failures);
      if lockout <= 0 {
        m := m[key := AuthEntry(failures, now + cfg.window, entry.lockedUntil)];
        return 0, false;
      }
      justLocked := !After(entry.lockedUntil, now);
      m := m[key := AuthEntry(failures, now + cfg.window, Some(now + lockout))];
    }

    method Reset(key: string)
      modifies this
      ensures m == old(m) - {key}
    {
      m := m - {key};
    }
  }

  // ----- Eviction saves space and nothing else -----

  datatype Op =
    | Check(key: string, now: int, later: int)
    | Fail(key: string, now: int)
    | Clear(key: string, now: int)

  datatype Answer = Checked(locked: bool, retryAfter: int) | FailureCounted(charge: Charge) | Cleared

  function Next(c: Config, m: Tracked, op: Op, evict: bool): Tracked {
    match op
    case Check(_, _, _) => m
    case Fail(key, now) =>
      var kept := if evict then Evicted(m, now) else m;
      kept[key := Failed(c, Charged(kept, key, now), now)]
    case Clear(key, _) => m - {key}
  }

  function AnswerTo(c: Config, m: Tracked, op: Op, evict: bool): Answer {
    match op
    case Check(key, now, later) =>
      Checked(LockedIn(m, key, now), if LockedIn(m, key, now) then m[key].lockedUntil.value - later else 0)
    case Fail(key, now) =>
      var kept := if evict then Evicted(m, now) else m;
      FailureCounted(Verdict(c, Charged(kept, key, now), now))
    case Clear(_, _) => Cleared
  }

  function Answers(c: Config, m: Tracked, ops: seq<Op>, evict: bool): seq<Answer>
    decreases |ops|
  {
    if ops == [] then [] else [AnswerTo(c, m, ops[0], evict)] + Answers(c, Next(c, m, ops[0], evict), ops[1..], evict)
  }

  /** The readings of the clock, one per operation, in order from `from` on. */
  ghost predicate InOrder(ops: seq<Op>, from: int) {
    && (forall i | 0 <= i < |ops| :: from <= ops[i].now)
    && (forall i, j | 0 <= i < j < |ops| :: ops[i].now <= ops[j].now)
  }

  /** `r` is `m` with some entries still in it that are long over. */
  ghost predicate SameButExpired(m: Tracked, r: Tracked, now: int) {
    forall k | k in r || k in m ::
      && k in r
      && (k in m ==> m[k] == r[k])
      && (k !in m ==> Expired(r[k], now))
  }

  lemma StepAlike(c: Config, m: Tracked, r: Tracked, op: Op, from: int)
    requires SameButExpired(m, r, from) && from <= op.now
    ensures AnswerTo(c, m, op, true) == AnswerTo(c, r, op, false)
    ensures SameButExpired(Next(c, m, op, true), Next(c, r, op, false), op.now)
  {
    if op.Fail? {
      assert Verdict(c, Charged(Evicted(m, op.now), op.key, op.now), op.now) == Verdict(c, Charged(r, op.key, op.now), op.now);
    }
  }

  /** The evicting tracker answers every sequence of calls exactly as one that never forgets. */
  lemma {:induction false} EvictionInvisible(c: Config, m: Tracked, r: Tracked, ops: seq<Op>, from: int)
    requires SameButExpired(m, r, from) && InOrder(ops, from)
    ensures Answers(c, m, ops, true) == Answers(c, r, ops, false)
    decreases |ops|
  {
    if ops != [] {
      StepAlike(c, m, r, ops[0], from);
      EvictionInvisible(c, Next(c, m, ops[0], true), Next(c, r, ops[0], false), ops[1..], ops[0].now);
    }
  }

  // ----- What callers are told -----

  /** A failure is answered with the time its key is then locked: exactly that long, or not by this
      failure at all. */
  lemma ChargeIsTheLock(c: Config, m: Tracked, key: string, now: int)
    ensures var charge := AnswerTo(c, m, Fail(key, now), true).charge; var after := Next(c, m, Fail(key, now), true);
            && charge.lockout >= 0 && (charge.justLocked ==> charge.lockout > 0)
            && (charge.lockout > 0 ==> forall t | now <= t :: LockedIn(after, key, t) <==> t < now + charge.lockout)
            && (charge.lockout == 0 ==> after[key].lockedUntil == Charged(m, key, now).lockedUntil)
  {
  }

  /** A refused caller is told how long its key stays locked, to the instant. */
  lemma RetryAfterIsTheRest(c: Config, m: Tracked, key: string, now: int)
    ensures var answer := AnswerTo(c, m, Check(key, now, now), true);
            && (answer.locked <==> answer.retryAfter > 0)
            && forall t | now <= t :: LockedIn(m, key, t) <==> t < now + answer.retryAfter
  {
  }

  /** After a failure the tracker holds nothing that is over: every other key still has failures within
      the window or a lock that has not passed. */
  lemma NothingExpiredKept(c: Config, m: Tracked, key: string, now: int)
    ensures var after := Next(c, m, Fail(key, now), true);
            forall k | k in after && k != key ::
              now <= after[k].failuresEnd || (after[k].lockedUntil.Some? && now <= after[k].lockedUntil.value)
  {
  }

  /** A key that is cleared is unlocked and begins anew: its next failure is charged as that of a key
      never seen. Other keys are as before. */
  lemma ClearedBeginsAnew(c: Config, m: Tracked, key: string, now: int, later: int)
    ensures var after := Next(c, m, Clear(key, now), true);
            && !LockedIn(after, key, later)
            && AnswerTo(c, after, Fail(key, later), true) == AnswerTo(c, map[], Fail(key, later), true)
            && after.Keys == m.Keys - {key}
            && forall k | k in after :: after[k] == m[k]
  {
  }
}
