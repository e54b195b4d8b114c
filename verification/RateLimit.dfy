/** The two rate limiters behind one interface: the in-memory token bucket, with exact rationals for
    its tokens and nanoseconds for its clock, and the fixed-window counter kept in Redis, one atomic
    script per call, with milliseconds for its clock. */
module RateLimit {
  import opened Int64
  import opened Options

  datatype Call = Call(key: string, now: int)

  ghost predicate InOrder(calls: seq<Call>) {
    forall i, j | 0 <= i < j < |calls| :: calls[i].now <= calls[j].now
  }

  function Min(a: real, b: real): real {
    if a <= b then a else b
  }

  /** Whole seconds announced to a refused client, at least one. */
  function RetryAfter(wait: int): int {
    if wait / SECOND > 1 then wait / SECOND else 1
  }

  // ----- Token bucket -----

  datatype Bucket = Bucket(tokens: real, lastRefill: int)

  type Buckets = map<string, Bucket>

  /** The limit, the window, and the tokens a nanosecond earns. */
  datatype Limit = Limit(limit: int, window: int, rate: real)

  predicate WellFormed(l: Limit) {
    l.window > 0 && l.rate * l.window as real == l.limit as real
  }

  /** A limit that lets anything through after the first call. */
  predicate Usable(l: Limit) {
    l.limit >= 1 && l.window > 0 && l.rate > 0.0 && l.rate * l.window as real == l.limit as real
  }

  lemma RateUsable(limit: int, window: int)
    requires window > 0
    ensures var l := Limit(limit, window, limit as real / window as real);
            WellFormed(l) && (limit >= 1 ==> Usable(l))
  {
  }

  function Refilled(l: Limit, b: Bucket, now: int): real {
    Min(l.limit as real, b.tokens + (now - b.lastRefill) as real * l.rate)
  }

  predicate Allows(l: Limit, m: Buckets, c: Call) {
    c.key in m ==> Refilled(l, m[c.key], c.now) >= 1.0
  }

  function Charged(l: Limit, m: Buckets, c: Call): Buckets {
    if c.key !in m then m[c.key := Bucket((l.limit - 1) as real, c.now)]
    else
      var tokens := Refilled(l, m[c.key], c.now);
      m[c.key := Bucket(if tokens >= 1.0 then tokens - 1.0 else tokens, c.now)]
  }

  /** The wait a refused call is told: until the next token, and a second more. */
  function Wait(l: Limit, tokens: real): int
    requires l.limit != 0
  {
    Truncated((1.0 - tokens) / l.limit as real * l.window as real) + SECOND
  }

  /** A number of nanoseconds turned into a duration: cut off toward zero. */
  function Truncated(x: real): int {
    if x >= 0.0 then x.Floor else -((-x).Floor)
  }

  class TokenBucketLimiter {
    const cfg: Limit
    var buckets: Buckets

    constructor (limit: int, window: int)
      requires window > 0
      ensures cfg.limit == limit && cfg.window == window && WellFormed(cfg) && buckets == map[]
      ensures limit >= 1 ==> Usable(cfg)
    {
      RateUsable(limit, window);
      cfg := Limit(limit, window, limit as real / window as real);
      buckets := map[];
    }

    /** With a limit of zero the wait is a division by zero turned into a duration: anything. */
    method Allow(key: string, now: int) returns (allowed: bool, wait: int)
      modifies this
      ensures allowed == Allows(cfg, old(buckets), Call(key, now))
      ensures buckets == Charged(cfg, old(buckets), Call(key, now))
      ensures allowed ==> wait == 0
      ensures !allowed && cfg.limit != 0 ==> wait == Wait(cfg, buckets[key].tokens)
    {
      if key !in buckets {
        buckets := buckets[key := Bucket((cfg.limit - 1) as real, now)];
        return true, 0;
      }
      var b := buckets[key];
      var refill := (now - b.lastRefill) as real * cfg.rate;
      var tokens := Min(cfg.limit as real, b.tokens + refill);
      assert tokens == Refilled(cfg, old(buckets)[key], now);
      if tokens >= 1.0 {
        buckets := buckets[key := Bucket(tokens - 1.0, now)];
        return true, 0;
      }
      buckets := buckets[key := Bucket(tokens, now)];
      allowed := false;
      wait := *;
      if cfg.limit != 0 {
        wait := Wait(cfg, tokens);
      }
    }
  }

  function BucketsAfter(l: Limit, calls: seq<Call>): Buckets {
    if calls == [] then map[]
    else Charged(l, BucketsAfter(l, calls[..|calls| - 1]), calls[|calls| - 1])
  }

  /** How many of the calls `i <= k < j` for the key were let through. */
  function Admitted(l: Limit, calls: seq<Call>, key: string, i: nat, j: nat): nat
    requires i <= j <= |calls|
  {
    if i == j then 0
    else
      Admitted(l, calls, key, i, j - 1) +
      if calls[j - 1].key == key && Allows(l, BucketsAfter(l, calls[..j - 1]), calls[j - 1]) then 1 else 0
  }

  ghost predicate BucketOk(l: Limit, b: Bucket, clock: int) {
    0.0 <= b.tokens <= l.limit as real && b.lastRefill <= clock
  }

  lemma RateTimes(l: Limit, x: int, y: int)
    requires Usable(l)
    ensures (x + y) as real * l.rate == x as real * l.rate + y as real * l.rate
    ensures x >= 0 ==> x as real * l.rate >= 0.0
    ensures l.rate >= 0.0
  {
  }

  /** One call on one bucket: what it lets through is paid for out of the tokens. */
  lemma ChargeBalance(l: Limit, b: Bucket, now: int)
    requires Usable(l) && BucketOk(l, b, now)
    ensures var m := map["" := b]; var c := Call("", now); var b' := Charged(l, m, c)[""];
            && BucketOk(l, b', now) && b'.lastRefill == now
            && b'.tokens + (if Allows(l, m, c) then 1.0 else 0.0) <= l.limit as real
            && b'.tokens + (if Allows(l, m, c) then 1.0 else 0.0) <= b.tokens + (now - b.lastRefill) as real * l.rate
  {
    RateTimes(l, now - b.lastRefill, 0);
  }

  ghost predicate AllOk(l: Limit, m: Buckets, clock: int) {
    forall k | k in m :: BucketOk(l, m[k], clock)
  }

  lemma {:induction false} RunOk(l: Limit, calls: seq<Call>, clock: int)
    requires Usable(l) && InOrder(calls) && (calls != [] ==> calls[|calls| - 1].now <= clock)
    ensures AllOk(l, BucketsAfter(l, calls), clock)
  {
    if calls != [] {
      var rest, c := calls[..|calls| - 1], calls[|calls| - 1];
      RunOk(l, rest, c.now);
      var m := BucketsAfter(l, rest);
      if c.key in m {
        ChargeBalance(l, m[c.key], c.now);
      }
    }
  }

  /** Either nothing was let through since call `i`, or what was let through and what is left were
      paid for by a full bucket and the refill since then. */
  ghost predicate Paid(l: Limit, m: Buckets, key: string, since: int, admitted: nat)
    requires Usable(l)
  {
    || admitted == 0
    || (&& key in m && since <= m[key].lastRefill
        && admitted as real + m[key].tokens <= l.limit as real + (m[key].lastRefill - since) as real * l.rate)
  }

  lemma PaidStep(l: Limit, m: Buckets, key: string, since: int, admitted: nat, c: Call)
    requires Usable(l) && AllOk(l, m, c.now) && since <= c.now && Paid(l, m, key, since, admitted)
    ensures Paid(l, Charged(l, m, c), key, since, admitted + if c.key == key && Allows(l, m, c) then 1 else 0)
  {
    if c.key == key {
      RateTimes(l, c.now - since, 0);
      if key in m {
        ChargeBalance(l, m[key], c.now);
        if admitted > 0 {
          RateTimes(l, c.now - m[key].lastRefill, m[key].lastRefill - since);
        }
      }
    }
  }

  lemma {:induction false} RunPaid(l: Limit, calls: seq<Call>, key: string, i: nat, j: nat)
    requires Usable(l) && InOrder(calls) && i <= j <= |calls| && i < |calls|
    ensures Paid(l, BucketsAfter(l, calls[..j]), key, calls[i].now, Admitted(l, calls, key, i, j))
    decreases j
  {
    if i < j {
      RunPaid(l, calls, key, i, j - 1);
      RunOk(l, calls[..j - 1], calls[j - 1].now);
      assert calls[..j][..j - 1] == calls[..j - 1];
      PaidStep(l, BucketsAfter(l, calls[..j - 1]), key, calls[i].now, Admitted(l, calls, key, i, j - 1), calls[j - 1]);
    }
  }

  /** At most limit + limit * elapsed / window. */
  predicate WithinRefill(l: Limit, admitted: nat, elapsed: int) {
    admitted as real <= l.limit as real + elapsed as real * l.rate
  }

  lemma PrefixOk(l: Limit, calls: seq<Call>, i: nat, j: nat)
    requires Usable(l) && InOrder(calls) && i < j <= |calls|
    ensures AllOk(l, BucketsAfter(l, calls[..j]), calls[j - 1].now) && calls[i].now <= calls[j - 1].now
  {
    RunOk(l, calls[..j], calls[j - 1].now);
  }

  /** Over every run and every key: between any two calls a time D apart, the token bucket lets
      through at most limit + limit * D / window calls for a key, whatever comes for other keys. */
  lemma TokenBucketBound(l: Limit, calls: seq<Call>, key: string, i: nat, j: nat)
    requires Usable(l) && InOrder(calls) && i < j <= |calls|
    ensures WithinRefill(l, Admitted(l, calls, key, i, j), calls[j - 1].now - calls[i].now)
  {
    PrefixOk(l, calls, i, j);
    RunPaid(l, calls, key, i, j);
    PaidGives(l, BucketsAfter(l, calls[..j]), key, calls[i].now, Admitted(l, calls, key, i, j), calls[j - 1].now);
  }

  lemma PaidGives(l: Limit, m: Buckets, key: string, since: int, admitted: nat, end: int)
    requires Usable(l) && AllOk(l, m, end) && since <= end && Paid(l, m, key, since, admitted)
    ensures WithinRefill(l, admitted, end - since)
  {
    if admitted > 0 {
      PaidOff(l, admitted, m[key].tokens, m[key].lastRefill - since, end - since);
    } else {
      PaidOff(l, 0, 0.0, 0, end - since);
    }
  }

  lemma PaidOff(l: Limit, admitted: nat, tokens: real, earned: int, elapsed: int)
    requires Usable(l) && 0.0 <= tokens && earned <= elapsed
    requires admitted as real + tokens <= l.limit as real + earned as real * l.rate
    ensures admitted as real <= l.limit as real + elapsed as real * l.rate
  {
    assert (elapsed - earned) as real * l.rate >= 0.0;
    assert (elapsed - earned) as real * l.rate == elapsed as real * l.rate - earned as real * l.rate;
  }

  lemma WindowRefill(l: Limit, d: int)
    requires Usable(l) && d <= l.window
    ensures d as real * l.rate <= l.limit as real
  {
    assert (l.window - d) as real * l.rate >= 0.0;
    assert (l.window - d) as real * l.rate == l.window as real * l.rate - d as real * l.rate;
  }

  /** In particular at most twice the limit in any interval of one window. */
  lemma TokenBucketWindowBound(l: Limit, calls: seq<Call>, key: string, i: nat, j: nat)
    requires Usable(l) && InOrder(calls) && i < j <= |calls| && calls[j - 1].now - calls[i].now <= l.window
    ensures Admitted(l, calls, key, i, j) <= 2 * l.limit
  {
    PrefixOk(l, calls, i, j);
    RunPaid(l, calls, key, i, j);
    PaidWithinWindow(l, BucketsAfter(l, calls[..j]), key, calls[i].now, Admitted(l, calls, key, i, j), calls[j - 1].now);
  }

  lemma PaidWithinWindow(l: Limit, m: Buckets, key: string, since: int, admitted: nat, end: int)
    requires Usable(l) && AllOk(l, m, end) && since <= end <= since + l.window && Paid(l, m, key, since, admitted)
    ensures admitted <= 2 * l.limit
  {
    PaidGives(l, m, key, since, admitted, end);
    WithinWindow(l, admitted, end - since);
  }

  lemma WithinWindow(l: Limit, n: nat, d: int)
    requires Usable(l) && d <= l.window && WithinRefill(l, n, d)
    ensures n <= 2 * l.limit
  {
    WindowRefill(l, d);
    var x := d as real * l.rate;
    assert (n - 2 * l.limit) as real <= x - l.limit as real;
  }

  /** A refused client that comes back after the announced number of seconds, before anybody else
      asks for that key, is let through. */
  lemma RetryAfterSuffices(l: Limit, m: Buckets, key: string, now: int, later: int)
    requires Usable(l) && key in m && BucketOk(l, m[key], now)
    requires !Allows(l, m, Call(key, now))
    requires later >= now + RetryAfter(Wait(l, Charged(l, m, Call(key, now))[key].tokens)) * SECOND
    ensures Allows(l, Charged(l, m, Call(key, now)), Call(key, later))
  {
    ChargeBalance(l, m[key], now);
    var b := Charged(l, m, Call(key, now))[key];
    var need := (1.0 - b.tokens) / l.limit as real * l.window as real;
    assert (1.0 - b.tokens) / l.limit as real >= 0.0;
    assert need >= 0.0;
    NeedPays(l, b.tokens, later - now, need);
  }

  /** The announcement is at most a second longer than need be: a second before it is over, the client
      would still be refused. */
  lemma RetryAfterTight(l: Limit, m: Buckets, key: string, now: int, later: int)
    requires Usable(l) && key in m && BucketOk(l, m[key], now)
    requires !Allows(l, m, Call(key, now))
    requires now <= later < now + (RetryAfter(Wait(l, Charged(l, m, Call(key, now))[key].tokens)) - 1) * SECOND
    ensures !Allows(l, Charged(l, m, Call(key, now)), Call(key, later))
  {
    ChargeBalance(l, m[key], now);
    var b := Charged(l, m, Call(key, now))[key];
    var need := (1.0 - b.tokens) / l.limit as real * l.window as real;
    assert (1.0 - b.tokens) / l.limit as real >= 0.0;
    assert need >= 0.0;
    assert (later - now + 1) as real <= need;
    NeedNotPaid(l, b.tokens, later - now, need);
  }

  lemma NeedNotPaid(l: Limit, tokens: real, elapsed: int, need: real)
    requires Usable(l) && tokens < 1.0
    requires need == (1.0 - tokens) / l.limit as real * l.window as real && elapsed as real < need
    ensures tokens + elapsed as real * l.rate < 1.0
  {
    var share := (1.0 - tokens) / l.limit as real;
    assert share * l.limit as real == 1.0 - tokens;
    assert need * l.rate == share * (l.rate * l.window as real);
    assert (need - elapsed as real) * l.rate > 0.0;
  }

  lemma NeedPays(l: Limit, tokens: real, elapsed: int, need: real)
    requires Usable(l) && tokens <= 1.0
    requires need == (1.0 - tokens) / l.limit as real * l.window as real && elapsed as real >= need
    ensures tokens + elapsed as real * l.rate >= 1.0
  {
    var share := (1.0 - tokens) / l.limit as real;
    assert share * l.limit as real == 1.0 - tokens;
    assert need * l.rate == share * (l.rate * l.window as real);
    assert (elapsed as real - need) * l.rate >= 0.0;
  }

  // ----- Nobody is refused too early -----

  /** What a bucket owes since the instant `since`: as long as the key has not been seen since, nothing;
      from then on, its tokens and what was let through cover the refill since, up to a full bucket. */
  ghost predicate Covers(l: Limit, m: Buckets, key: string, since: int, admitted: nat) {
    if key !in m then admitted == 0
    else
      || (m[key].lastRefill <= since && admitted == 0)
      || Enough(l, m[key].tokens, admitted, m[key].lastRefill - since)
  }

  predicate Enough(l: Limit, tokens: real, admitted: nat, elapsed: int) {
    tokens + admitted as real >= Min(l.limit as real, elapsed as real * l.rate)
  }

  lemma MinGrows(limit: real, tokens: real, admitted: real, earned: real, more: real)
    requires more >= 0.0 && admitted >= 0.0 && tokens + admitted >= Min(limit, earned)
    ensures Min(limit, tokens + more) + admitted >= Min(limit, earned + more)
  {
  }

  lemma RefillEnough(l: Limit, b: Bucket, since: int, admitted: nat, now: int)
    requires Usable(l) && BucketOk(l, b, now) && since <= now
    requires (b.lastRefill <= since && admitted == 0) || Enough(l, b.tokens, admitted, b.lastRefill - since)
    ensures Enough(l, Refilled(l, b, now), admitted, now - since)
  {
    if b.lastRefill <= since && admitted == 0 {
      IdleEnough(l, b, since, now);
    } else {
      BusyEnough(l, b, since, admitted, now);
    }
  }

  lemma IdleEnough(l: Limit, b: Bucket, since: int, now: int)
    requires Usable(l) && BucketOk(l, b, now) && b.lastRefill <= since <= now
    ensures Enough(l, Refilled(l, b, now), 0, now - since)
  {
    RateTimes(l, now - since, since - b.lastRefill);
    RateTimes(l, since - b.lastRefill, 0);
    assert (now - since) + (since - b.lastRefill) == now - b.lastRefill;
    var earned, before := (now - since) as real * l.rate, (since - b.lastRefill) as real * l.rate;
    assert Refilled(l, b, now) == Min(l.limit as real, b.tokens + (earned + before));
  }

  lemma BusyEnough(l: Limit, b: Bucket, since: int, admitted: nat, now: int)
    requires Usable(l) && BucketOk(l, b, now) && Enough(l, b.tokens, admitted, b.lastRefill - since)
    ensures Enough(l, Refilled(l, b, now), admitted, now - since)
  {
    RateTimes(l, b.lastRefill - since, now - b.lastRefill);
    RateTimes(l, now - b.lastRefill, 0);
    assert (b.lastRefill - since) + (now - b.lastRefill) == now - since;
    var earned, more := (b.lastRefill - since) as real * l.rate, (now - b.lastRefill) as real * l.rate;
    assert Refilled(l, b, now) == Min(l.limit as real, b.tokens + more);
    assert (now - since) as real * l.rate == earned + more;
    MinGrows(l.limit as real, b.tokens, admitted as real, earned, more);
  }

  lemma CoversStep(l: Limit, m: Buckets, key: string, since: int, admitted: nat, c: Call)
    requires Usable(l) && AllOk(l, m, c.now) && since <= c.now && Covers(l, m, key, since, admitted)
    ensures Covers(l, Charged(l, m, c), key, since, admitted + if c.key == key && Allows(l, m, c) then 1 else 0)
  {
    if c.key == key && key in m {
      RefillEnough(l, m[key], since, admitted, c.now);
    }
  }

  lemma {:induction false} RunCovers(l: Limit, calls: seq<Call>, key: string, since: int, i: nat, j: nat)
    requires Usable(l) && InOrder(calls) && i <= j <= |calls|
    requires (forall k | 0 <= k < i :: calls[k].now <= since) && (forall k | i <= k < j :: since <= calls[k].now)
    ensures Covers(l, BucketsAfter(l, calls[..j]), key, since, Admitted(l, calls, key, i, j))
    decreases j
  {
    if i < j {
      RunCovers(l, calls, key, since, i, j - 1);
      RunOk(l, calls[..j - 1], calls[j - 1].now);
      assert calls[..j][..j - 1] == calls[..j - 1];
      CoversStep(l, BucketsAfter(l, calls[..j - 1]), key, since, Admitted(l, calls, key, i, j - 1), calls[j - 1]);
    } else {
      RunOk(l, calls[..i], since);
    }
  }

  /** Over every run, a call is refused only if at least `limit` calls of its key passed in the window
      that ends with it. So the first `limit` calls of a key all pass, and so do the first `limit`
      calls after an idle window. */
  lemma RefusedOnlyAtLimit(l: Limit, calls: seq<Call>, i: nat, j: nat)
    requires Usable(l) && InOrder(calls) && i <= j < |calls|
    requires forall k | 0 <= k < i :: calls[k].now <= calls[j].now - l.window
    requires forall k | i <= k < j :: calls[j].now - l.window <= calls[k].now
    requires !Allows(l, BucketsAfter(l, calls[..j]), calls[j])
    ensures Admitted(l, calls, calls[j].key, i, j) >= l.limit
  {
    var key, now := calls[j].key, calls[j].now;
    var m := BucketsAfter(l, calls[..j]);
    RunCovers(l, calls, key, now - l.window, i, j);
    RunOk(l, calls[..j], now);
    RefusedCovered(l, m[key], now, Admitted(l, calls, key, i, j));
  }

  lemma RefusedCovered(l: Limit, b: Bucket, now: int, admitted: nat)
    requires Usable(l) && BucketOk(l, b, now) && Refilled(l, b, now) < 1.0
    requires (b.lastRefill <= now - l.window && admitted == 0) || Enough(l, b.tokens, admitted, b.lastRefill - (now - l.window))
    ensures admitted >= l.limit
  {
    RefillEnough(l, b, now - l.window, admitted, now);
    assert Min(l.limit as real, l.window as real * l.rate) == l.limit as real;
    AboveOneLess(admitted, l.limit, Refilled(l, b, now));
  }

  lemma AboveOneLess(n: int, limit: int, tokens: real)
    requires tokens + n as real >= limit as real && tokens < 1.0
    ensures n >= limit
  {
    assert (limit - n) as real < 1.0;
  }

  /** In particular the first `limit` calls of a key pass, whatever the clock and the other keys do. */
  lemma FirstCallsPass(l: Limit, calls: seq<Call>, j: nat)
    requires Usable(l) && InOrder(calls) && j < |calls| && Admitted(l, calls, calls[j].key, 0, j) < l.limit
    ensures Allows(l, BucketsAfter(l, calls[..j]), calls[j])
  {
    if !Allows(l, BucketsAfter(l, calls[..j]), calls[j]) {
      var i := WindowStart(calls, calls[j].now - l.window, j);
      RefusedOnlyAtLimit(l, calls, i, j);
      AdmittedMore(l, calls, calls[j].key, i, j);
      assert false;
    }
  }

  lemma {:induction false} WindowStart(calls: seq<Call>, since: int, j: nat) returns (i: nat)
    requires InOrder(calls) && j <= |calls|
    ensures i <= j && (forall k | 0 <= k < i :: calls[k].now <= since) && (forall k | i <= k < j :: since <= calls[k].now)
  {
    i := 0;
    if j > 0 {
      if calls[j - 1].now <= since {
        i := j;
      } else {
        i := WindowStart(calls, since, j - 1);
      }
    }
  }

  lemma {:induction false} AdmittedMore(l: Limit, calls: seq<Call>, key: string, i: nat, j: nat)
    requires i <= j <= |calls|
    ensures Admitted(l, calls, key, 0, j) >= Admitted(l, calls, key, i, j)
    decreases j
  {
    if i < j {
      AdmittedMore(l, calls, key, i, j - 1);
    }
  }

  lemma {:induction false} KnownIff(l: Limit, calls: seq<Call>, key: string)
    ensures key in BucketsAfter(l, calls) <==> exists k :: 0 <= k < |calls| && calls[k].key == key
  {
    if calls != [] {
      var rest := calls[..|calls| - 1];
      KnownIff(l, rest, key);
      assert forall k | 0 <= k < |rest| :: rest[k] == calls[k];
      assert calls[|calls| - 1].key == key ==> exists k :: 0 <= k < |calls| && calls[k].key == key;
    }
  }

  /** A limit below one still lets the first call of every key through, and then none. */
  lemma LimitBelowOnePassesFirst(l: Limit, calls: seq<Call>, j: nat)
    requires l.limit < 1 && j < |calls|
    ensures Allows(l, BucketsAfter(l, calls[..j]), calls[j]) <==> forall k | 0 <= k < j :: calls[k].key != calls[j].key
  {
    KnownIff(l, calls[..j], calls[j].key);
    assert forall k | 0 <= k < j :: calls[..j][k] == calls[k];
  }

  // ----- Fixed window in Redis -----

  datatype Counter = Counter(count: nat, expiresAt: int)

  type Counters = map<string, Counter>

  /** The counter a call finds: Redis drops a key once the clock is past its expiry. */
  predicate Running(m: Counters, c: Call) {
    c.key in m && c.now <= m[c.key].expiresAt
  }

  /** The script: increment, and start the time to live on the first increment. */
  function Incremented(window: nat, m: Counters, c: Call): Counter {
    if Running(m, c) then m[c.key].(count := m[c.key].count + 1) else Counter(1, c.now + window)
  }

  /** A key given no time to live is dropped at once. */
  function Scripted(window: nat, m: Counters, c: Call): Counters {
    if window == 0 && !Running(m, c) then m - {c.key} else m[c.key := Incremented(window, m, c)]
  }

  predicate Passes(limit: nat, window: nat, m: Counters, c: Call) {
    Incremented(window, m, c).count <= limit
  }

  class RedisLimiter {
    const limit: nat
    const window: nat
    var counters: Counters

    constructor (limit: nat, window: nat)
      ensures this.limit == limit && this.window == window && counters == map[]
    {
      this.limit, this.window := limit, window;
      counters := map[];
    }

    /** `wait` is in milliseconds, at least one second when refused. */
    method Allow(key: string, now: int) returns (allowed: bool, wait: int)
      modifies this
      ensures counters == Scripted(window, old(counters), Call(key, now))
      ensures allowed == Passes(limit, window, old(counters), Call(key, now))
      ensures wait == if allowed then 0
                      else if key in counters && counters[key].expiresAt - now > 1000 then counters[key].expiresAt - now
                      else 1000
    {
      var current, ttl := 1, window as int;
      if key in counters && now <= counters[key].expiresAt {
        current, ttl := counters[key].count + 1, counters[key].expiresAt - now;
        counters := counters[key := Counter(current, now + ttl)];
      } else if window == 0 {
        ttl := -2;
        counters := counters - {key};
      } else {
        counters := counters[key := Counter(current, now + ttl)];
      }
      if current > limit {
        return false, if ttl > 1000 then ttl else 1000;
      }
      return true, 0;
    }
  }

  function CountersAfter(window: nat, calls: seq<Call>): Counters {
    if calls == [] then map[]
    else Scripted(window, CountersAfter(window, calls[..|calls| - 1]), calls[|calls| - 1])
  }

  function Passed(limit: nat, window: nat, calls: seq<Call>, key: string, i: nat, j: nat): nat
    requires i <= j <= |calls|
  {
    if i == j then 0
    else
      Passed(limit, window, calls, key, i, j - 1) +
      if calls[j - 1].key == key && Passes(limit, window, CountersAfter(window, calls[..j - 1]), calls[j - 1]) then 1 else 0
  }

  function Capped(count: nat, limit: nat): nat {
    if count <= limit then count else limit
  }

  /** What passed since the instant `since` fits in the window running now and, if that began later
      than `since`, one window before it. */
  ghost predicate Fits(limit: nat, window: nat, m: Counters, key: string, since: int, passed: nat) {
    passed > 0 ==>
      && key in m && m[key].expiresAt >= since
      && passed <= Capped(m[key].count, limit) + if m[key].expiresAt - window <= since then 0 else limit
  }

  lemma FitsStep(limit: nat, window: nat, m: Counters, key: string, since: int, passed: nat, c: Call)
    requires window > 0 && since <= c.now <= since + window + 1 && Fits(limit, window, m, key, since, passed)
    ensures Fits(limit, window, Scripted(window, m, c), key, since,
                 passed + if c.key == key && Passes(limit, window, m, c) then 1 else 0)
  {
  }

  lemma {:induction false} RunFits(limit: nat, window: nat, calls: seq<Call>, key: string, i: nat, j: nat)
    requires window > 0 && InOrder(calls) && i <= j <= |calls| && i < |calls|
    requires i < j ==> calls[j - 1].now <= calls[i].now + window + 1
    ensures Fits(limit, window, CountersAfter(window, calls[..j]), key, calls[i].now, Passed(limit, window, calls, key, i, j))
    decreases j
  {
    if i < j {
      RunFits(limit, window, calls, key, i, j - 1);
      assert calls[..j][..j - 1] == calls[..j - 1];
      FitsStep(limit, window, CountersAfter(window, calls[..j - 1]), key, calls[i].now,
               Passed(limit, window, calls, key, i, j - 1), calls[j - 1]);
    }
  }

  /** Over every run and every key, the fixed window lets through at most twice the limit between
      two calls no more than one window apart. The window kept in Redis is the configured one cut off
      to whole milliseconds, hence the one millisecond more. */
  lemma FixedWindowBound(limit: nat, window: nat, calls: seq<Call>, key: string, i: nat, j: nat)
    requires window > 0 && InOrder(calls) && i < j <= |calls| && calls[j - 1].now - calls[i].now <= window + 1
    ensures Passed(limit, window, calls, key, i, j) <= 2 * limit
  {
    RunFits(limit, window, calls, key, i, j);
  }

  /** How many of the calls `i <= k < j` are for the key. */
  function CallsOf(calls: seq<Call>, key: string, i: nat, j: nat): nat
    requires i <= j <= |calls|
  {
    if i == j then 0 else CallsOf(calls, key, i, j - 1) + if calls[j - 1].key == key then 1 else 0
  }

  /** The call `i < j` of the key with which the window running before call `j` began: the first one,
      or the first later than a window after the one before it began. */
  function Began(window: nat, calls: seq<Call>, key: string, j: nat): Option<nat>
    requires j <= |calls|
    ensures var b := Began(window, calls, key, j); b.Some? ==> b.value < j
  {
    if j == 0 then None
    else
      var before := Began(window, calls, key, j - 1);
      if calls[j - 1].key != key then before
      else if before.Some? && calls[j - 1].now <= calls[before.value].now + window then before
      else Some(j - 1)
  }

  lemma {:induction false} CounterIs(window: nat, calls: seq<Call>, key: string, j: nat)
    requires window > 0 && j <= |calls|
    ensures var m := CountersAfter(window, calls[..j]); var b := Began(window, calls, key, j);
            && (key in m <==> b.Some?)
            && (b.Some? ==> m[key] == Counter(CallsOf(calls, key, b.value, j), calls[b.value].now + window))
  {
    if j > 0 {
      CounterIs(window, calls, key, j - 1);
      assert calls[..j][..j - 1] == calls[..j - 1];
    }
  }

  /** Over every run, exactly when a call passes: it begins a window of its own and the limit is at
      least one, or fewer than `limit` calls of its key came before it in the running window. */
  lemma PassesExactlyWhen(limit: nat, window: nat, calls: seq<Call>, j: nat)
    requires window > 0 && j < |calls|
    ensures var b := Began(window, calls, calls[j].key, j);
            Passes(limit, window, CountersAfter(window, calls[..j]), calls[j]) <==>
            if b.Some? && calls[j].now <= calls[b.value].now + window
            then CallsOf(calls, calls[j].key, b.value, j) < limit
            else 0 < limit
  {
    CounterIs(window, calls, calls[j].key, j);
  }

  /** A window shorter than a millisecond is passed on as zero and limits nothing: every call of every
      sequence passes. */
  lemma {:induction false} ZeroWindowPassesAll(limit: nat, calls: seq<Call>, j: nat)
    requires limit >= 1 && j < |calls|
    ensures CountersAfter(0, calls[..j]) == map[] && Passes(limit, 0, CountersAfter(0, calls[..j]), calls[j])
  {
    if j > 0 {
      ZeroWindowPassesAll(limit, calls, j - 1);
      assert calls[..j][..j - 1] == calls[..j - 1];
    }
  }

  /** Coming back after the announced seconds gets a refused client through exactly when less than a
      second was left: the announcement rounds down. */
  lemma RedisRetryAfterIff(limit: nat, window: nat, m: Counters, key: string, now: int, later: int)
    requires limit >= 1 && Running(m, Call(key, now)) && !Passes(limit, window, m, Call(key, now))
    requires var ttl := m[key].expiresAt - now;
             later == now + RetryAfter((if ttl > 1000 then ttl else 1000) * 1_000_000) * 1000
    ensures Passes(limit, window, Scripted(window, m, Call(key, now)), Call(key, later)) <==> m[key].expiresAt - now < 1000
  {
    var ttl := m[key].expiresAt - now;
    var wait := if ttl > 1000 then ttl else 1000;
    assert wait * 1_000_000 / SECOND == wait / 1000;
  }
}
