/** Runs of the lockout tracker and of the guard in front of the authentication handlers. */
module LockoutRuns {
  import opened Options
  import opened Arithmetic
  import opened AuthLockout

  // ----- Locks are not cut short, and each is announced once -----

  function Played(c: Config, m: Tracked, ops: seq<Op>): Tracked {
    if ops == [] then m else Next(c, Played(c, m, ops[..|ops| - 1]), ops[|ops| - 1], true)
  }

  /** The operation announces a lock exactly when it locks a key that was not locked. */
  predicate AnnouncesRight(c: Config, m: Tracked, op: Op) {
    op.Fail? ==>
      (AnswerTo(c, m, op, true).charge.justLocked <==>
       !LockedIn(m, op.key, op.now) && LockedIn(Next(c, m, op, true), op.key, op.now))
  }

  /** A lock in force keeps its end or has it put off, unless this key is cleared. */
  ghost predicate KeepsLocks(c: Config, m: Tracked, op: Op) {
    forall key | LockedIn(m, key, op.now) && !(op.Clear? && op.key == key) ::
      && LockedIn(Next(c, m, op, true), key, op.now)
      && Next(c, m, op, true)[key].lockedUntil.value >= m[key].lockedUntil.value
  }

  /** Both hold at the last operation of every run of a new tracker. */
  ghost predicate LocksHold(c: Config) {
    forall ops: seq<Op>, from: int | ops != [] && InOrder(ops, from) ::
      var m := Played(c, map[], ops[..|ops| - 1]);
      AnnouncesRight(c, m, ops[|ops| - 1]) && KeepsLocks(c, m, ops[|ops| - 1])
  }

  /** Locks never get shorter as failures accumulate, and none outlasts the failure window. */
  ghost predicate Steady(c: Config) {
    && (forall n: nat | 0 < n :: Lockout(c, n) <= c.window + 1)
    && (forall m: nat, n: nat | 0 < m < n && Lockout(c, m) > 0 && Lockout(c, n) > 0 :: Lockout(c, m) <= Lockout(c, n))
  }

  /** The lock of an entry ends no later than failure `m` would have it end if it were the last. */
  predicate LockFrom(c: Config, e: AuthEntry, m: nat) {
    && 0 < m <= e.failures && Lockout(c, m) > 0
    && e.lockedUntil.Some? && e.lockedUntil.value <= e.failuresEnd - c.window + Lockout(c, m)
  }

  ghost predicate EntryOk(c: Config, e: AuthEntry, clock: int) {
    && e.failuresEnd - c.window <= clock
    && (e.lockedUntil.Some? ==> exists m: nat :: LockFrom(c, e, m))
  }

  lemma FailedOk(c: Config, e: AuthEntry, now: int)
    requires e == AuthEntry(0, 0, None) || EntryOk(c, e, now)
    ensures EntryOk(c, Failed(c, e, now), now)
  {
    var f := Failed(c, e, now);
    if Lockout(c, f.failures) > 0 {
      assert LockFrom(c, f, f.failures);
    } else if e.lockedUntil.Some? {
      var m: nat :| LockFrom(c, e, m);
      assert LockFrom(c, f, m);
    }
  }

  ghost predicate AllOk(c: Config, m: Tracked, clock: int) {
    forall k | k in m :: EntryOk(c, m[k], clock)
  }

  lemma NextOk(c: Config, m: Tracked, op: Op, clock: int)
    requires AllOk(c, m, clock) && clock <= op.now
    ensures AllOk(c, Next(c, m, op, true), op.now)
  {
    if op.Fail? {
      FailedOk(c, Charged(Evicted(m, op.now), op.key, op.now), op.now);
    }
  }

  lemma {:induction false} RunOk(c: Config, ops: seq<Op>, from: int)
    requires InOrder(ops, from)
    ensures AllOk(c, Played(c, map[], ops), if ops == [] then from else ops[|ops| - 1].now)
  {
    if ops != [] {
      var rest := ops[..|ops| - 1];
      RunOk(c, rest, from);
      NextOk(c, Played(c, map[], rest), ops[|ops| - 1], if rest == [] then from else rest[|rest| - 1].now);
    }
  }

  lemma SteadyHolds(c: Config, m: Tracked, op: Op, clock: int)
    requires Steady(c) && AllOk(c, m, clock) && clock <= op.now
    ensures AnnouncesRight(c, m, op) && KeepsLocks(c, m, op)
  {
    if op.Fail? && LockedIn(m, op.key, op.now) {
      var e := m[op.key];
      assert EntryOk(c, e, clock);
      var n: nat :| LockFrom(c, e, n);
      assert Lockout(c, n) <= c.window + 1;
      assert Charged(Evicted(m, op.now), op.key, op.now) == e;
    }
  }

  /** `n` failures of one key at the same instant. */
  function Burst(key: string, n: nat): seq<Op> {
    seq(n, _ => Fail(key, 0))
  }

  /** The last lock that `n` failures earned. */
  function LastLock(c: Config, n: nat): Option<int> {
    if n == 0 then None else if Lockout(c, n) > 0 then Some(Lockout(c, n)) else LastLock(c, n - 1)
  }

  lemma {:induction false} AfterBurst(c: Config, key: string, n: nat)
    requires 0 <= c.window && n > 0
    ensures Played(c, map[], Burst(key, n)) == map[key := AuthEntry(n, c.window, LastLock(c, n))]
  {
    var ops := Burst(key, n);
    assert ops[..n - 1] == Burst(key, n - 1);
    if n > 1 {
      AfterBurst(c, key, n - 1);
    }
  }

  lemma {:induction false} LastLockIs(c: Config, n: nat, m: nat) returns (k: nat)
    requires 0 < m <= n && Lockout(c, m) > 0
    ensures m <= k <= n && Lockout(c, k) > 0 && LastLock(c, n) == Some(Lockout(c, k))
  {
    if Lockout(c, n) > 0 {
      k := n;
    } else {
      k := LastLockIs(c, n - 1, m);
    }
  }

  lemma BurstThen(c: Config, n: nat, op: Op)
    requires 0 <= c.window && n > 0 && op.now >= 0
    requires var m := map["k" := AuthEntry(n, c.window, LastLock(c, n))];
             !AnnouncesRight(c, m, op) || !KeepsLocks(c, m, op)
    ensures !LocksHold(c)
  {
    AfterBurst(c, "k", n);
    var ops := Burst("k", n) + [op];
    assert ops[..|ops| - 1] == Burst("k", n);
    assert InOrder(ops, 0);
  }

  /** A lock that outlasts the window is forgotten with it: the next failure cuts it short or
      announces it again. */
  lemma LongLockBreaks(c: Config, n: nat)
    requires 0 <= c.window && 0 < n && Lockout(c, n) > c.window + 1
    ensures !LocksHold(c)
  {
    var m := map["k" := AuthEntry(n, c.window, LastLock(c, n))];
    var late := Fail("k", c.window + 1);
    assert LockedIn(m, "k", late.now);
    assert Evicted(m, late.now) == m;
    if Lockout(c, 1) > 0 {
      assert !AnnouncesRight(c, m, late);
    } else {
      assert !LockedIn(Next(c, m, late, true), "k", late.now);
    }
    BurstThen(c, n, late);
  }

  /** A lock shorter than an earlier one replaces it. */
  lemma {:induction false} ShorterLockBreaks(c: Config, m: nat, n: nat)
    requires 0 <= c.window && 0 < m < n && Lockout(c, m) > Lockout(c, n) > 0
    ensures !LocksHold(c)
    decreases n
  {
    var k := LastLockIs(c, n - 1, m);
    if Lockout(c, k) <= Lockout(c, n) {
      ShorterLockBreaks(c, m, k);
    } else {
      var t := map["k" := AuthEntry(n - 1, c.window, LastLock(c, n - 1))];
      var again := Fail("k", 0);
      assert Evicted(t, 0) == t;
      assert LockedIn(t, "k", 0) && !KeepsLocks(c, t, again);
      BurstThen(c, n - 1, again);
    }
  }

  /** Under a negative window every failure counts as the first. */
  ghost predicate Forgotten(m: Tracked, clock: int) {
    forall k | k in m :: m[k].failuresEnd < clock && m[k].lockedUntil == None
  }

  lemma {:induction false} NeverLocked(c: Config, ops: seq<Op>, from: int)
    requires c.window < 0 && Lockout(c, 1) <= 0 && InOrder(ops, from)
    ensures Forgotten(Played(c, map[], ops), if ops == [] then from else ops[|ops| - 1].now)
  {
    if ops != [] {
      NeverLocked(c, ops[..|ops| - 1], from);
    }
  }

  lemma NegativeWindow(c: Config)
    requires c.window < 0
    ensures LocksHold(c) <==> Lockout(c, 1) <= 0
  {
    if Lockout(c, 1) > 0 {
      var first := Fail("k", 0);
      var ops := [first, first];
      assert ops[..1] == [first] && [first][..0] == [] && Played(c, map[], []) == map[];
      var m := Played(c, map[], [first]);
      assert m == map["k" := AuthEntry(1, c.window, Some(Lockout(c, 1)))];
      assert LockedIn(m, "k", 0) && !AnnouncesRight(c, m, first);
      assert InOrder(ops, 0);
    } else {
      forall ops: seq<Op>, from: int | ops != [] && InOrder(ops, from)
        ensures var m := Played(c, map[], ops[..|ops| - 1]);
                AnnouncesRight(c, m, ops[|ops| - 1]) && KeepsLocks(c, m, ops[|ops| - 1])
      {
        NeverLocked(c, ops[..|ops| - 1], from);
      }
    }
  }

  /** Over all runs, a lock is announced exactly when it begins and is never cut short, exactly when
      the computed locks are steady, or nothing is ever locked because the window is negative. This
      is for every policy, those whose doubling overflows included. */
  lemma LocksHoldIff(c: Config)
    ensures LocksHold(c) <==> if 0 <= c.window then Steady(c) else Lockout(c, 1) <= 0
  {
    if c.window < 0 {
      NegativeWindow(c);
    } else if n: nat :| 0 < n && Lockout(c, n) > c.window + 1 {
      LongLockBreaks(c, n);
    } else if m: nat, n: nat :| 0 < m < n && Lockout(c, m) > Lockout(c, n) > 0 {
      ShorterLockBreaks(c, m, n);
    } else {
      forall ops: seq<Op>, from: int | ops != [] && InOrder(ops, from)
        ensures var m := Played(c, map[], ops[..|ops| - 1]);
                AnnouncesRight(c, m, ops[|ops| - 1]) && KeepsLocks(c, m, ops[|ops| - 1])
      {
        var rest := ops[..|ops| - 1];
        RunOk(c, rest, from);
        SteadyHolds(c, Played(c, map[], rest), ops[|ops| - 1], if rest == [] then from else rest[|rest| - 1].now);
      }
    }
  }

  /** For policies whose doubling fits in 64 bits: exactly when the failure window is at least as long
      as the longest lock (to the nanosecond). */
  lemma LocksHoldForWindowIff(c: Config)
    requires 0 < c.base && 0 < c.max && Fits(c.base, c.max) && 0 <= c.window
    ensures LocksHold(c) <==> c.max <= c.window + 1
  {
    LocksHoldIff(c);
    if c.max <= c.window + 1 {
      forall m: nat, n: nat | 0 < m <= n ensures Lockout(c, m) <= Lockout(c, n) <= c.window + 1 {
        LockoutIsBackoff(c, m);
        LockoutIsBackoff(c, n);
        BackoffGrows(c, m, n);
      }
    } else {
      var n: nat := (if c.threshold > 0 then c.threshold else 0) + 1 + Doublings(c.base, c.max);
      BackoffReachesMax(c, n);
      LockoutIsBackoff(c, n);
      assert Lockout(c, n) > c.window + 1;
    }
  }

  // ----- The guard -----

  const TOO_MANY_REQUESTS := 429

  /** One request: whose wallet and address it names, whether the wallet limiter would let it pass,
      when its checks ran, and when its handler was through with which status. */
  datatype Attempt = Attempt(wallet: string, ip: string, allowed: bool, at: int, doneAt: int, status: int)

  datatype Guard = Guard(wallets: Tracked, ips: Tracked)

  datatype Policy = Policy(wallet: Config, ip: Config)

  predicate Reached(g: Guard, a: Attempt) {
    && !(a.wallet != "" && LockedIn(g.wallets, a.wallet, a.at))
    && !LockedIn(g.ips, a.ip, a.at)
    && (a.wallet != "" ==> a.allowed)
  }

  /** A status that counts against the caller. */
  predicate CountsAgainst(status: int) {
    400 <= status < 500 && status != TOO_MANY_REQUESTS
  }

  function Serve(p: Policy, g: Guard, a: Attempt): Guard {
    if !Reached(g, a) then g
    else if a.status < 400 then
      Guard(if a.wallet != "" then g.wallets - {a.wallet} else g.wallets, g.ips - {a.ip})
    else if !CountsAgainst(a.status) then g
    else
      Guard(if a.wallet != "" then Next(p.wallet, g.wallets, Fail(a.wallet, a.doneAt), true) else g.wallets,
            Next(p.ip, g.ips, Fail(a.ip, a.doneAt), true))
  }

  function Served(p: Policy, attempts: seq<Attempt>): Guard {
    if attempts == [] then Guard(map[], map[])
    else Serve(p, Served(p, attempts[..|attempts| - 1]), attempts[|attempts| - 1])
  }

  class AuthGuard {
    const wallets: MemoryLockout
    const ips: MemoryLockout

    ghost predicate Valid() {
      wallets != ips
    }

    ghost function Value(): Guard
      reads wallets, ips
    {
      Guard(wallets.m, ips.m)
    }

    constructor (walletConfig: Config, ipConfig: Config)
      ensures Valid() && fresh(wallets) && fresh(ips)
      ensures wallets.cfg == walletConfig && ips.cfg == ipConfig && Value() == Guard(map[], map[])
    {
      wallets := new MemoryLockout(walletConfig);
      ips := new MemoryLockout(ipConfig);
    }

    /** Serves one request; `reached` tells whether the handler ran. */
    method Handle(a: Attempt) returns (reached: bool)
      requires Valid()
      modifies wallets, ips
      ensures reached == Reached(old(Value()), a)
      ensures Value() == Serve(Policy(wallets.cfg, ips.cfg), old(Value()), a)
    {
      if a.wallet != "" {
        var locked, _ := wallets.Locked(a.wallet, a.at, a.at);
        if locked {
          return false;
        }
      }
      var locked, _ := ips.Locked(a.ip, a.at, a.at);
      if locked {
        return false;
      }
      if a.wallet != "" && !a.allowed {
        return false;
      }
      reached := true;
      if a.status < 400 {
        if a.wallet != "" {
          wallets.Reset(a.wallet);
        }
        ips.Reset(a.ip);
        return;
      }
      if a.status >= 500 || a.status == TOO_MANY_REQUESTS {
        return;
      }
      if a.wallet != "" {
        var _, _ := wallets.RecordFailure(a.wallet, a.doneAt);
      }
      var _, _ := ips.RecordFailure(a.ip, a.doneAt);
    }
  }

  /** When a request gets as far as its handler: neither its wallet, if it names one, nor its address
      is locked at that instant, and the wallet's limiter lets it pass. One that does not changes
      nothing. */
  lemma ReachedExactlyWhen(p: Policy, g: Guard, a: Attempt)
    ensures Reached(g, a) <==>
              && (a.wallet != "" && a.wallet in g.wallets && g.wallets[a.wallet].lockedUntil.Some? ==>
                    a.at >= g.wallets[a.wallet].lockedUntil.value)
              && (a.ip in g.ips && g.ips[a.ip].lockedUntil.Some? ==> a.at >= g.ips[a.ip].lockedUntil.value)
              && (a.wallet != "" ==> a.allowed)
    ensures !Reached(g, a) ==> Serve(p, g, a) == g
  {
  }

  /** How many failures a tracker counts against a key at an instant. */
  function CountAt(m: Tracked, key: string, now: int): nat {
    if key in m && now <= m[key].failuresEnd then m[key].failures else 0
  }

  /** A counted failure: one more for the key if it was still within the window, the first otherwise;
      it counts for one window, and locks for as long as that many failures earn. */
  ghost predicate OneMore(c: Config, before: Tracked, after: Tracked, key: string, now: int) {
    && key in after
    && after[key].failures == CountAt(before, key, now) + 1
    && after[key].failuresEnd == now + c.window
    && (Lockout(c, after[key].failures) > 0 ==> after[key].lockedUntil == Some(now + Lockout(c, after[key].failures)))
    && (forall k | k != key && k in after :: k in before && after[k] == before[k])
    && (forall k | k != key && k in before && k !in after :: CountAt(before, k, now) == 0 && !LockedIn(before, k, now))
  }

  /** What the status of a reached request does: a status below 400 forgets both keys; a 4xx other
      than 429 counts against the address, and against the wallet if one is named; 429 and anything
      from 500 on change nothing. */
  lemma StatusDecides(p: Policy, g: Guard, a: Attempt)
    requires Reached(g, a)
    ensures var h := Serve(p, g, a);
            && (a.status < 400 ==> h.wallets == (if a.wallet != "" then g.wallets - {a.wallet} else g.wallets) && h.ips == g.ips - {a.ip})
            && (400 <= a.status < 500 && a.status != 429 ==>
                  && OneMore(p.ip, g.ips, h.ips, a.ip, a.doneAt)
                  && (if a.wallet != "" then OneMore(p.wallet, g.wallets, h.wallets, a.wallet, a.doneAt) else h.wallets == g.wallets))
            && (a.status == 429 || a.status >= 500 ==> h == g)
  {
    if 400 <= a.status < 500 && a.status != 429 {
      FailureIsOneMore(p.ip, g.ips, a.ip, a.doneAt);
      FailureIsOneMore(p.wallet, g.wallets, a.wallet, a.doneAt);
    }
  }

  lemma FailureIsOneMore(c: Config, m: Tracked, key: string, now: int)
    ensures OneMore(c, m, Next(c, m, Fail(key, now), true), key, now)
  {
  }

  // ----- Failures of one key -----

  /** The guard keeps one tracker for wallets and one for addresses. */
  datatype Scope = Wallet | Address

  function KeyOf(scope: Scope, a: Attempt): string {
    if scope == Wallet then a.wallet else a.ip
  }

  function Tracker(scope: Scope, g: Guard): Tracked {
    if scope == Wallet then g.wallets else g.ips
  }

  function Rules(scope: Scope, p: Policy): Config {
    if scope == Wallet then p.wallet else p.ip
  }

  /** The request is tracked under this key; one that names no wallet is not tracked as a wallet. */
  predicate Concerns(scope: Scope, a: Attempt, key: string) {
    KeyOf(scope, a) == key && !(scope == Wallet && key == "")
  }

  /** When the failures counted against one key happened. */
  function FailureTimes(p: Policy, attempts: seq<Attempt>, scope: Scope, key: string): seq<int> {
    if attempts == [] then []
    else
      var rest, a := attempts[..|attempts| - 1], attempts[|attempts| - 1];
      FailureTimes(p, rest, scope, key) +
      if Concerns(scope, a, key) && 400 <= a.status < 500 && a.status != 429 && Reached(Served(p, rest), a)
      then [a.doneAt] else []
  }

  /** The failures that go on counting: a success ends the streak, and so does a failure that comes
      more than a window after the last, which begins the next one. */
  function StreakAfter(c: Config, g: Guard, streak: seq<int>, a: Attempt, scope: Scope, key: string): seq<int> {
    if !Concerns(scope, a, key) || !Reached(g, a) then streak
    else if a.status < 400 then []
    else if a.status >= 500 || a.status == 429 then streak
    else if streak == [] || a.doneAt > streak[|streak| - 1] + c.window then [a.doneAt]
    else streak + [a.doneAt]
  }

  function Streak(p: Policy, attempts: seq<Attempt>, scope: Scope, key: string): seq<int> {
    if attempts == [] then []
    else
      var rest, a := attempts[..|attempts| - 1], attempts[|attempts| - 1];
      StreakAfter(Rules(scope, p), Served(p, rest), Streak(p, rest, scope, key), a, scope, key)
  }

  /** Requests are handled one at a time. */
  ghost predicate OneAtATime(attempts: seq<Attempt>) {
    && (forall i | 0 <= i < |attempts| :: attempts[i].at <= attempts[i].doneAt)
    && (forall i, j | 0 <= i < j < |attempts| :: attempts[i].doneAt <= attempts[j].at)
  }

  function Last(attempts: seq<Attempt>, from: int): int {
    if attempts == [] then from else attempts[|attempts| - 1].doneAt
  }

  /** What the tracker knows about a key with this streak: all of it, or nothing once it is too late
      for the next failure to be within the window. */
  predicate Remembers(c: Config, m: Tracked, key: string, streak: seq<int>, clock: int) {
    if streak == [] then key !in m
    else
      var n, last := |streak|, streak[|streak| - 1];
      && last <= clock
      && (if key !in m then clock > last + c.window
          else
            && m[key].failures == n && m[key].failuresEnd == last + c.window
            && (Lockout(c, n) > 0 ==> m[key].lockedUntil == Some(last + Lockout(c, n))))
  }

  /** Each failure is at least the lock that the one before it earned later. */
  ghost predicate Spaced(c: Config, times: seq<int>) {
    forall i | 0 < i < |times| :: times[i] >= times[i - 1] + Max(Lockout(c, i), 0)
  }

  lemma OtherFailureRemembers(c: Config, m: Tracked, key: string, streak: seq<int>, clock: int, other: string, now: int)
    requires Remembers(c, m, key, streak, clock) && clock <= now && other != key
    ensures Remembers(c, Next(c, m, Fail(other, now), true), key, streak, now)
  {
  }

  lemma OwnFailureRemembers(c: Config, m: Tracked, key: string, streak: seq<int>, clock: int, at: int, now: int)
    requires Remembers(c, m, key, streak, clock) && Spaced(c, streak)
    requires clock <= at <= now && !LockedIn(m, key, at)
    ensures var longer := if streak == [] || now > streak[|streak| - 1] + c.window then [now] else streak + [now];
            Remembers(c, Next(c, m, Fail(key, now), true), key, longer, now) && Spaced(c, longer)
  {
  }

  /** What a request does to the tracker of one scope. */
  lemma ServeTracker(p: Policy, g: Guard, a: Attempt, scope: Scope)
    ensures var m, c, key := Tracker(scope, g), Rules(scope, p), KeyOf(scope, a);
            Tracker(scope, Serve(p, g, a)) ==
            if !Reached(g, a) || !Concerns(scope, a, key) then m
            else if a.status < 400 then m - {key}
            else if CountsAgainst(a.status) then Next(c, m, Fail(key, a.doneAt), true)
            else m
  {
  }

  lemma ServeRemembers(p: Policy, g: Guard, streak: seq<int>, a: Attempt, scope: Scope, key: string, clock: int)
    requires var c := Rules(scope, p); Remembers(c, Tracker(scope, g), key, streak, clock) && Spaced(c, streak)
    requires clock <= a.at <= a.doneAt
    ensures var c := Rules(scope, p); var after := StreakAfter(c, g, streak, a, scope, key);
            Spaced(c, after) && Remembers(c, Tracker(scope, Serve(p, g, a)), key, after, a.doneAt)
  {
    var c, m := Rules(scope, p), Tracker(scope, g);
    ServeTracker(p, g, a, scope);
    if Reached(g, a) && CountsAgainst(a.status) {
      if Concerns(scope, a, key) {
        OwnFailureRemembers(c, m, key, streak, clock, a.at, a.doneAt);
      } else if KeyOf(scope, a) != key {
        OtherFailureRemembers(c, m, key, streak, clock, KeyOf(scope, a), a.doneAt);
      }
    }
  }

  /** Whatever the guard serves and whatever the policy: within a streak of one wallet or one address,
      every failure comes at least the lock of the failure before it later. */
  lemma {:induction false} StreakSpaced(p: Policy, attempts: seq<Attempt>, scope: Scope, key: string, from: int)
    requires OneAtATime(attempts)
    ensures var c, streak := Rules(scope, p), Streak(p, attempts, scope, key);
            Spaced(c, streak) && Remembers(c, Tracker(scope, Served(p, attempts)), key, streak, Last(attempts, from))
  {
    if attempts != [] {
      var rest, a := attempts[..|attempts| - 1], attempts[|attempts| - 1];
      StreakSpaced(p, rest, scope, key, a.at);
      ServeRemembers(p, Served(p, rest), Streak(p, rest, scope, key), a, scope, key, Last(rest, a.at));
    }
  }

  /** The locks that the first `j` failures past the threshold earn, added up. */
  function LockoutSum(c: Config, j: nat): int {
    if j == 0 then 0 else LockoutSum(c, j - 1) + Max(Lockout(c, c.threshold + j), 0)
  }

  lemma {:induction false} SpacedAddsUp(c: Config, times: seq<int>, j: nat)
    requires 0 <= c.threshold && Spaced(c, times) && c.threshold + j < |times|
    ensures times[c.threshold + j] >= times[c.threshold] + LockoutSum(c, j)
  {
    if j > 0 {
      SpacedAddsUp(c, times, j - 1);
      assert times[c.threshold + j] >= times[c.threshold + j - 1] + Max(Lockout(c, c.threshold + j), 0);
    }
  }

  /** Whatever the guard serves and whatever the policy, failure number threshold + 1 + j of a streak
      comes at least the first j locks after failure number threshold + 1. */
  lemma LockoutsEnforced(p: Policy, attempts: seq<Attempt>, scope: Scope, key: string, j: nat)
    requires OneAtATime(attempts) && 0 <= Rules(scope, p).threshold
    requires Rules(scope, p).threshold + j < |Streak(p, attempts, scope, key)|
    ensures var c, streak := Rules(scope, p), Streak(p, attempts, scope, key);
            streak[c.threshold + j] >= streak[c.threshold] + LockoutSum(c, j)
  {
    StreakSpaced(p, attempts, scope, key, 0);
    SpacedAddsUp(Rules(scope, p), Streak(p, attempts, scope, key), j);
  }

  // ----- When all failures form one streak -----

  ghost predicate NoSuccess(attempts: seq<Attempt>, scope: Scope, key: string) {
    forall i | 0 <= i < |attempts| && Concerns(scope, attempts[i], key) :: attempts[i].status >= 400
  }

  ghost predicate AtMostWindowApart(c: Config, times: seq<int>) {
    forall i | 0 < i < |times| :: times[i] - times[i - 1] <= c.window
  }

  lemma PrefixApart(c: Config, times: seq<int>, longer: seq<int>)
    requires times <= longer && AtMostWindowApart(c, longer)
    ensures AtMostWindowApart(c, times)
  {
    forall i | 0 < i < |times| ensures times[i] - times[i - 1] <= c.window {
      assert longer[i] - longer[i - 1] <= c.window;
    }
  }

  lemma {:induction false} OneStreak(p: Policy, attempts: seq<Attempt>, scope: Scope, key: string)
    requires NoSuccess(attempts, scope, key) && AtMostWindowApart(Rules(scope, p), FailureTimes(p, attempts, scope, key))
    ensures Streak(p, attempts, scope, key) == FailureTimes(p, attempts, scope, key)
  {
    if attempts != [] {
      var rest, a := attempts[..|attempts| - 1], attempts[|attempts| - 1];
      var times, longer := FailureTimes(p, rest, scope, key), FailureTimes(p, attempts, scope, key);
      PrefixApart(Rules(scope, p), times, longer);
      OneStreak(p, rest, scope, key);
      if |longer| > |times| > 0 {
        assert longer[|times|] - longer[|times| - 1] <= Rules(scope, p).window;
      }
    }
  }

  /** The sum of min(max, base * 2^i) over the first `j` values of `i`. */
  function BackoffSum(c: Config, j: nat): int {
    if j == 0 then 0 else BackoffSum(c, j - 1) + Cap(c.base * Pow2(j - 1), c.max)
  }

  lemma {:induction false} SumsAgree(c: Config, j: nat)
    requires 0 < c.base && 0 < c.max && Fits(c.base, c.max)
    ensures LockoutSum(c, j) == BackoffSum(c, j)
  {
    if j > 0 {
      SumsAgree(c, j - 1);
      LockoutIsBackoff(c, c.threshold + j);
      BackoffGrows(c, c.threshold + j, c.threshold + j);
    }
  }

  /** If no request for the key succeeds, its failures are at most a window apart and the doubling
      fits in 64 bits, then failure number threshold + 1 + j comes at least the sum of
      min(max, base * 2^i) for i below j after failure number threshold + 1. */
  lemma BackoffEnforced(p: Policy, attempts: seq<Attempt>, scope: Scope, key: string, j: nat)
    requires var c := Rules(scope, p); 0 < c.base && 0 < c.max && Fits(c.base, c.max) && 0 <= c.threshold
    requires OneAtATime(attempts) && NoSuccess(attempts, scope, key)
    requires AtMostWindowApart(Rules(scope, p), FailureTimes(p, attempts, scope, key))
    requires Rules(scope, p).threshold + j < |FailureTimes(p, attempts, scope, key)|
    ensures var c, times := Rules(scope, p), FailureTimes(p, attempts, scope, key);
            times[c.threshold + j] >= times[c.threshold] + BackoffSum(c, j)
  {
    OneStreak(p, attempts, scope, key);
    LockoutsEnforced(p, attempts, scope, key, j);
    SumsAgree(Rules(scope, p), j);
  }

  // ----- When successes in between undo the backoff -----

  /** A caller that takes turns: a request answered 200, such as asking for a challenge, and a failed
      one answered 401, such as a wrong signature, always for one wallet from one address. */
  ghost predicate TakesTurns(attempts: seq<Attempt>, w: string, ip: string) {
    forall i | 0 <= i < |attempts| ::
      && attempts[i].wallet == w && attempts[i].ip == ip && attempts[i].allowed
      && attempts[i].status == if i % 2 == 0 then 200 else 401
  }

  ghost predicate AllReached(p: Policy, attempts: seq<Attempt>) {
    forall i | 0 <= i < |attempts| :: Reached(Served(p, attempts[..i]), attempts[i])
  }

  /** Nobody is locked, at any instant. */
  ghost predicate NobodyLocked(m: Tracked) {
    forall k | k in m :: m[k].lockedUntil == None
  }

  /** The trackers of a caller that takes turns: nothing right after a success, one harmless failure
      otherwise. */
  ghost predicate TurnOk(g: Guard, w: string, ip: string, served: nat) {
    && NobodyLocked(g.wallets) && g.wallets.Keys <= {w}
    && NobodyLocked(g.ips) && g.ips.Keys <= {ip}
    && (served % 2 == 1 ==> g == Guard(map[], map[]))
  }

  lemma FirstFailure(c: Config, key: string, now: int)
    requires Lockout(c, 1) <= 0
    ensures var m := Next(c, map[], Fail(key, now), true); NobodyLocked(m) && m.Keys == {key}
  {
  }

  lemma TurnServed(p: Policy, g: Guard, a: Attempt, served: nat)
    requires a.wallet != "" && a.allowed && a.status == (if served % 2 == 0 then 200 else 401)
    requires Lockout(p.wallet, 1) <= 0 && Lockout(p.ip, 1) <= 0 && TurnOk(g, a.wallet, a.ip, served)
    ensures Reached(g, a) && TurnOk(Serve(p, g, a), a.wallet, a.ip, served + 1)
  {
    if served % 2 == 0 {
      assert g.wallets - {a.wallet} == map[] && g.ips - {a.ip} == map[];
    } else {
      FirstFailure(p.wallet, a.wallet, a.doneAt);
      FirstFailure(p.ip, a.ip, a.doneAt);
    }
  }

  lemma {:induction false} TurnsNeverLock(p: Policy, attempts: seq<Attempt>, w: string, ip: string)
    requires w != "" && TakesTurns(attempts, w, ip) && Lockout(p.wallet, 1) <= 0 && Lockout(p.ip, 1) <= 0
    ensures AllReached(p, attempts) && TurnOk(Served(p, attempts), w, ip, |attempts|)
  {
    if attempts != [] {
      var rest, a := attempts[..|attempts| - 1], attempts[|attempts| - 1];
      TurnsNeverLock(p, rest, w, ip);
      TurnServed(p, Served(p, rest), a, |rest|);
      forall i | 0 <= i < |attempts| ensures Reached(Served(p, attempts[..i]), attempts[i]) {
        if i < |rest| {
          assert attempts[..i] == rest[..i];
        }
      }
    }
  }

  lemma PrefixReached(p: Policy, attempts: seq<Attempt>, n: nat)
    requires AllReached(p, attempts) && n <= |attempts|
    ensures AllReached(p, attempts[..n])
  {
    forall i | 0 <= i < n ensures Reached(Served(p, attempts[..n][..i]), attempts[..n][i]) {
      assert attempts[..n][..i] == attempts[..i];
      assert Reached(Served(p, attempts[..i]), attempts[i]);
    }
  }

  lemma Halves(n: nat)
    ensures (n + 1) / 2 == n / 2 + if n % 2 == 1 then 1 else 0
  {
  }

  /** Every other request of such a caller is counted as a failure. */
  lemma {:induction false} TurnsAreCounted(p: Policy, attempts: seq<Attempt>, scope: Scope, key: string)
    requires AllReached(p, attempts)
    requires forall i | 0 <= i < |attempts| :: Concerns(scope, attempts[i], key)
    requires forall i | 0 <= i < |attempts| :: (400 <= attempts[i].status < 500 && attempts[i].status != 429) <==> i % 2 == 1
    ensures |FailureTimes(p, attempts, scope, key)| == |attempts| / 2
  {
    if attempts != [] {
      var n := |attempts| - 1;
      assert Reached(Served(p, attempts[..n]), attempts[n]);
      PrefixReached(p, attempts, n);
      TurnsAreCounted(p, attempts[..n], scope, key);
      Halves(n);
      assert Concerns(scope, attempts[n], key);
    }
  }

  lemma TurnsFailHalf(p: Policy, attempts: seq<Attempt>, w: string, ip: string)
    requires w != "" && TakesTurns(attempts, w, ip) && AllReached(p, attempts)
    ensures |FailureTimes(p, attempts, Wallet, w)| == |FailureTimes(p, attempts, Address, ip)| == |attempts| / 2
  {
    TurnsAreCounted(p, attempts, Wallet, w);
    TurnsAreCounted(p, attempts, Address, ip);
  }

  /** A caller that takes turns fails as often as it likes without ever being locked out, as wallet or
      as address, exactly when a single failure does not lock; a threshold of at least one means that
      it does not. */
  lemma TurnsUnpunishedIff(p: Policy, w: string, ip: string)
    requires w != ""
    ensures (forall attempts | TakesTurns(attempts, w, ip) :: AllReached(p, attempts)) <==>
            Lockout(p.wallet, 1) <= 0 && Lockout(p.ip, 1) <= 0
    ensures p.wallet.threshold >= 1 && p.ip.threshold >= 1 ==> Lockout(p.wallet, 1) <= 0 && Lockout(p.ip, 1) <= 0
  {
    if Lockout(p.wallet, 1) <= 0 && Lockout(p.ip, 1) <= 0 {
      forall attempts | TakesTurns(attempts, w, ip) ensures AllReached(p, attempts) {
        TurnsNeverLock(p, attempts, w, ip);
      }
    } else {
      var good, bad := Attempt(w, ip, true, 0, 0, 200), Attempt(w, ip, true, 0, 0, 401);
      var attempts := [good, bad, good];
      assert TakesTurns(attempts, w, ip);
      assert attempts[..2] == [good, bad] && [good, bad][..1] == [good] && [good][..0] == [];
      assert Served(p, []) == Guard(map[], map[]) && Served(p, [good]) == Guard(map[], map[]);
      assert !Reached(Served(p, attempts[..2]), attempts[2]);
    }
  }
}
