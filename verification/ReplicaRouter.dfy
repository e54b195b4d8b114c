/** Replica-aware reads: the round-robin choice among eligible replicas, the pinning of users who
    just wrote, and the read-your-writes promise over every run. */
module ReplicaRouter {
  import opened Arithmetic

  const TWO_64: nat := 0x1_0000_0000_0000_0000

  datatype Pool = Primary | ReplicaPool(i: nat)

  datatype Replica = Replica(open: bool, healthy: bool, lag: int, maxLag: int)

  /** Healthy and within the lag budget, if there is one. */
  predicate Eligible(r: Replica) {
    r.healthy && (r.maxLag <= 0 || r.lag <= r.maxLag)
  }

  predicate Usable(r: Replica) {
    Eligible(r) && r.open
  }

  // ----- Choosing a replica -----

  /** The counter value that the i-th probe of a call looks at. */
  function Probe(start: nat, i: nat, n: nat): nat
    requires n > 0
  {
    (start + i) % TWO_64 % n
  }

  /** The first usable replica among the probes from the i-th on. */
  function Pick(replicas: seq<Replica>, start: nat, i: nat): Pool
    requires i <= |replicas|
    decreases |replicas| - i
  {
    if i == |replicas| then Primary
    else if Usable(replicas[Probe(start, i, |replicas|)]) then ReplicaPool(Probe(start, i, |replicas|))
    else Pick(replicas, start, i + 1)
  }

  type Pins = map<string, int>

  predicate PinnedIn(pins: Pins, user: string, now: int) {
    user in pins && now <= pins[user]
  }

  /** Looking up a pin drops it once it has run out. */
  function Looked(pins: Pins, user: string, now: int): Pins {
    if user in pins && now > pins[user] then pins - {user} else pins
  }

  class MemoryPinner {
    const window: int
    var pins: Pins

    constructor (window: int)
      ensures this.window == window && pins == map[]
    {
      this.window := window;
      pins := map[];
    }

    method Pin(user: string, now: int)
      modifies this
      ensures pins == old(pins)[user := now + window]
    {
      pins := pins[user := now + window];
    }

    method Pinned(user: string, now: int) returns (pinned: bool)
      modifies this
      ensures pinned == PinnedIn(old(pins), user, now) && pins == Looked(old(pins), user, now)
    {
      if user !in pins {
        return false;
      }
      if now > pins[user] {
        pins := pins - {user};
        return false;
      }
      return true;
    }
  }

  class Router {
    const pinner: MemoryPinner
    var replicas: seq<Replica>
    var next: nat

    constructor (pinner: MemoryPinner, replicas: seq<Replica>)
      ensures this.pinner == pinner && this.replicas == replicas && next == 0
    {
      this.pinner, this.replicas, next := pinner, replicas, 0;
    }

    method ReadAny() returns (pool: Pool)
      requires next < TWO_64
      modifies this`next
      ensures next == if |replicas| == 0 then old(next) else (old(next) + 1) % TWO_64
      ensures pool == Pick(replicas, next, 0)
    {
      var n := |replicas|;
      if n == 0 {
        return Primary;
      }
      next := (next + 1) % TWO_64;
      for i := 0 to n
        invariant Pick(replicas, next, 0) == Pick(replicas, next, i)
      {
        var idx := (next + i) % TWO_64 % n;
        if Eligible(replicas[idx]) && replicas[idx].open {
          return ReplicaPool(idx);
        }
      }
      return Primary;
    }

    method Read(user: string, now: int) returns (pool: Pool)
      requires next < TWO_64
      modifies this`next, pinner
      ensures next < TWO_64
      ensures user != "" && PinnedIn(old(pinner.pins), user, now) ==> pool == Primary && next == old(next)
      ensures !(user != "" && PinnedIn(old(pinner.pins), user, now)) ==>
                && next == Advanced(replicas, old(next))
                && pool == Pick(replicas, next, 0)
      ensures pinner.pins == if user != "" then Looked(old(pinner.pins), user, now) else old(pinner.pins)
    {
      if user != "" {
        var pinned := pinner.Pinned(user, now);
        if pinned {
          return Primary;
        }
      }
      pool := ReadAny();
    }

    method NoteWrite(user: string, now: int)
      modifies pinner
      ensures pinner.pins == if user != "" then old(pinner.pins)[user := now + pinner.window] else old(pinner.pins)
    {
      if user != "" {
        pinner.Pin(user, now);
      }
    }

    method SetReplicaHealth(i: int, healthy: bool)
      modifies this`replicas
      ensures replicas == WithHealth(old(replicas), i, healthy)
    {
      if i < 0 || i >= |replicas| {
        return;
      }
      replicas := replicas[i := replicas[i].(healthy := healthy)];
    }

    method SetReplicaLag(i: int, lag: int)
      modifies this`replicas
      ensures replicas == WithLag(old(replicas), i, lag)
    {
      if i < 0 || i >= |replicas| {
        return;
      }
      replicas := replicas[i := replicas[i].(lag := lag)];
    }
  }

  function Advanced(replicas: seq<Replica>, next: nat): nat {
    if |replicas| == 0 then next else (next + 1) % TWO_64
  }

  function WithHealth(replicas: seq<Replica>, i: int, healthy: bool): seq<Replica> {
    if 0 <= i < |replicas| then replicas[i := replicas[i].(healthy := healthy)] else replicas
  }

  function WithLag(replicas: seq<Replica>, i: int, lag: int): seq<Replica> {
    if 0 <= i < |replicas| then replicas[i := replicas[i].(lag := lag)] else replicas
  }

  lemma {:induction false} PickUsable(replicas: seq<Replica>, start: nat, i: nat)
    requires i <= |replicas|
    ensures var p := Pick(replicas, start, i); p.ReplicaPool? ==> p.i < |replicas| && Usable(replicas[p.i])
    ensures Pick(replicas, start, i) == Primary <==>
            forall k | i <= k < |replicas| :: !Usable(replicas[Probe(start, k, |replicas|)])
    decreases |replicas| - i
  {
    if i < |replicas| {
      PickUsable(replicas, start, i + 1);
    }
  }

  /** The primary serves a read exactly when no replica is open, healthy and within its lag budget, if
      it has one. */
  ghost predicate FallsBackRightly(replicas: seq<Replica>, start: nat) {
    Pick(replicas, start, 0) == Primary <==>
    forall i | 0 <= i < |replicas| ::
      !(replicas[i].open && replicas[i].healthy && (replicas[i].maxLag <= 0 || replicas[i].lag <= replicas[i].maxLag))
  }

  predicate ProbedAs(start: nat, k: nat, n: nat, i: nat) {
    k < n && Probe(start, k, n) == i
  }

  /** Some probe of a call looks at replica `i`. */
  ghost predicate Probed(start: nat, n: nat, i: nat) {
    exists k: nat :: ProbedAs(start, k, n, i)
  }

  /** The wrapping around of the counter does not show in the k-th probe. */
  predicate Straight(start: nat, k: nat, n: nat)
    requires n > 0
  {
    Probe(start, k, n) == (start + k) % n
  }

  ghost predicate AllStraight(start: nat, n: nat) {
    forall k | 0 <= k < n :: Straight(start, k, n)
  }

  /** If every replica is looked at by some probe, the fallback is right. */
  lemma AllProbed(replicas: seq<Replica>, start: nat)
    requires forall i | 0 <= i < |replicas| :: Probed(start, |replicas|, i)
    ensures FallsBackRightly(replicas, start)
  {
    PickUsable(replicas, start, 0);
    forall i | 0 <= i < |replicas| && Pick(replicas, start, 0) == Primary ensures !Usable(replicas[i]) {
      assert Probed(start, |replicas|, i);
      var k: nat :| ProbedAs(start, k, |replicas|, i);
      assert Probe(start, k, |replicas|) == i;
    }
  }

  /** As long as the counter does not wrap around within one call, the fallback is right. */
  lemma PrimaryOnlyWhenNone(replicas: seq<Replica>, start: nat)
    requires start + |replicas| <= TWO_64
    ensures FallsBackRightly(replicas, start)
  {
    var n := |replicas|;
    forall i | 0 <= i < n ensures Probed(start, n, i) {
      var k := ReachRemainder(start, n, i);
      StraightBelow(start, k, n);
      assert ProbedAs(start, k, n, i);
    }
    AllProbed(replicas, start);
  }

  lemma StraightBelow(start: nat, k: nat, n: nat)
    requires n > 0 && start + k < TWO_64
    ensures Straight(start, k, n)
  {
    assert (start + k) % TWO_64 == start + k;
  }

  lemma StraightDividing(start: nat, k: nat, n: nat)
    requires n > 0 && TWO_64 % n == 0
    ensures Straight(start, k, n)
  {
    RemainderOfRemainder(start + k, TWO_64, n);
  }

  /** Just before the counter wraps around, the probes pass over the last replica. */
  lemma LastNotProbed(n: nat, k: nat)
    requires n > 0 && TWO_64 % n != 0 && k < n
    ensures Probe(TWO_64 - 1, k, n) != n - 1
  {
    if k == 0 {
      if (TWO_64 - 1) % n == n - 1 {
        Predecessor(TWO_64, n);
      }
    } else {
      assert (TWO_64 - 1 + k) % TWO_64 == (k - 1) % TWO_64;
      RemainderAtMost(k - 1, TWO_64);
      RemainderAtMost((k - 1) % TWO_64, n);
    }
  }

  /** `n` replicas of which only the last is usable. */
  function OnlyLast(n: nat): seq<Replica> {
    seq(n, i => Replica(true, i == n - 1, 0, 0))
  }

  /** Over the counter's whole range, wrapping around included, the fallback is right for `n` replicas
      exactly when `n` divides 2^64, that is, when `n` is a power of two. */
  lemma PrimaryOnlyWhenNoneIff(n: nat)
    requires n > 0
    ensures (forall replicas: seq<Replica>, start: nat | |replicas| == n && start < TWO_64 ::
               FallsBackRightly(replicas, start)) <==> TWO_64 % n == 0
  {
    if TWO_64 % n == 0 {
      forall replicas: seq<Replica>, start: nat | |replicas| == n && start < TWO_64
        ensures FallsBackRightly(replicas, start)
      {
        forall i | 0 <= i < n ensures Probed(start, n, i) {
          var k := ReachRemainder(start, n, i);
          StraightDividing(start, k, n);
          assert ProbedAs(start, k, n, i);
        }
        AllProbed(replicas, start);
      }
    } else {
      var replicas := OnlyLast(n);
      var last := TWO_64 - 1;
      PickUsable(replicas, last, 0);
      forall k: nat | k < n ensures !Usable(replicas[Probe(last, k, n)]) {
        LastNotProbed(n, k);
      }
      assert Usable(replicas[n - 1]);
      assert !FallsBackRightly(replicas, last);
    }
  }

  /** The pools of `count` consecutive reads. */
  function Picks(replicas: seq<Replica>, next: nat, count: nat): seq<Pool> {
    seq(count, k requires 0 <= k < count => Pick(replicas, (next + 1 + k) % TWO_64, 0))
  }

  /** As many consecutive reads as there are replicas visit each of them exactly once. */
  ghost predicate TakesTurns(replicas: seq<Replica>, next: nat) {
    var picks := Picks(replicas, next, |replicas|);
    && (forall i | 0 <= i < |replicas| :: ReplicaPool(i) in picks)
    && (forall k, l | 0 <= k < l < |replicas| :: picks[k] != picks[l])
  }

  ghost predicate AllUsable(replicas: seq<Replica>) {
    forall k | 0 <= k < |replicas| ::
      replicas[k].open && replicas[k].healthy && (replicas[k].maxLag <= 0 || replicas[k].lag <= replicas[k].maxLag)
  }

  lemma PickWhenAllUsable(replicas: seq<Replica>, next: nat, k: nat)
    requires k < |replicas| && AllUsable(replicas)
    ensures Picks(replicas, next, |replicas|)[k] == ReplicaPool(Probe(next + 1, k, |replicas|))
  {
    var start := (next + 1 + k) % TWO_64;
    assert Probe(start, 0, |replicas|) == Probe(next + 1, k, |replicas|);
    assert Pick(replicas, start, 0) == ReplicaPool(Probe(start, 0, |replicas|));
  }

  /** Reads whose counters leave successive remainders take turns. */
  lemma SuccessiveTakeTurns(replicas: seq<Replica>, next: nat)
    requires replicas != [] && AllUsable(replicas)
    requires AllStraight(next + 1, |replicas|)
    ensures TakesTurns(replicas, next)
  {
    var n := |replicas|;
    var picks := Picks(replicas, next, n);
    forall k | 0 <= k < n ensures picks[k] == ReplicaPool((next + 1 + k) % n) {
      assert Straight(next + 1, k, n);
      PickWhenAllUsable(replicas, next, k);
    }
    forall i | 0 <= i < n ensures ReplicaPool(i) in picks {
      var k := ReachRemainder(next + 1, n, i);
      assert picks[k] == ReplicaPool(i);
    }
    forall k, l | 0 <= k < l < n ensures picks[k] != picks[l] {
      NotCongruent(next + 1 + k, next + 1 + l, n);
    }
  }

  /** Round robin, as long as the counter does not wrap around during those reads. */
  lemma RoundRobin(replicas: seq<Replica>, next: nat)
    requires replicas != [] && AllUsable(replicas) && next + |replicas| < TWO_64
    ensures TakesTurns(replicas, next)
  {
    var start := next + 1;
    forall k | 0 <= k < |replicas| ensures Straight(start, k, |replicas|) {
      StraightBelow(start, k, |replicas|);
    }
    SuccessiveTakeTurns(replicas, next);
  }

  /** Over the counter's whole range, `n` usable replicas always take turns exactly when `n` divides
      2^64. */
  lemma RoundRobinIff(n: nat)
    requires n > 0
    ensures (forall replicas: seq<Replica>, next: nat | |replicas| == n && AllUsable(replicas) && next < TWO_64 ::
               TakesTurns(replicas, next)) <==> TWO_64 % n == 0
  {
    if TWO_64 % n == 0 {
      forall replicas: seq<Replica>, next: nat | |replicas| == n && AllUsable(replicas) && next < TWO_64
        ensures TakesTurns(replicas, next)
      {
        var start := next + 1;
        forall k | 0 <= k < n ensures Straight(start, k, n) {
          StraightDividing(start, k, n);
        }
        SuccessiveTakeTurns(replicas, next);
      }
    } else {
      var replicas := seq(n, _ => Replica(true, true, 0, 0));
      LastLeftOut(replicas);
      assert AllUsable(replicas);
    }
  }

  lemma LastLeftOut(replicas: seq<Replica>)
    requires replicas != [] && AllUsable(replicas) && TWO_64 % |replicas| != 0
    ensures !TakesTurns(replicas, TWO_64 - 2)
  {
    var n := |replicas|;
    var picks := Picks(replicas, TWO_64 - 2, n);
    forall k | 0 <= k < n ensures picks[k] != ReplicaPool(n - 1) {
      PickWhenAllUsable(replicas, TWO_64 - 2, k);
      LastNotProbed(n, k);
    }
    assert ReplicaPool(n - 1) !in picks;
  }

  // ----- Read your writes -----

  datatype Note = Note(user: string, committedAt: int, at: int)

  datatype System = System(replicas: seq<Replica>, next: nat, pins: Pins, clock: int, notes: seq<Note>)

  /** `applied[i]` is how far replica `i` has really got when the read happens: it holds exactly the
      writes committed no later. */
  datatype Event =
    | Noted(user: string, committedAt: int, now: int)
    | HealthSet(i: int, healthy: bool)
    | LagSet(i: int, lag: int)
    | ReadFor(user: string, now: int, applied: seq<int>)

  /** The reported lag of every usable replica is truthful when a read happens. */
  predicate Truthful(replicas: seq<Replica>, now: int, applied: seq<int>) {
    |applied| == |replicas| && forall i | 0 <= i < |replicas| && Usable(replicas[i]) :: applied[i] >= now - replicas[i].lag
  }

  predicate Enabled(s: System, e: Event) {
    match e
    case Noted(_, committedAt, now) => s.clock <= now && committedAt <= now
    case HealthSet(_, _) => true
    case LagSet(_, _) => true
    case ReadFor(_, now, applied) => s.clock <= now && Truthful(s.replicas, now, applied)
  }

  predicate Unpinned(s: System, user: string, now: int) {
    !(user != "" && PinnedIn(s.pins, user, now))
  }

  function Chosen(s: System, user: string, now: int): Pool {
    if Unpinned(s, user, now) then Pick(s.replicas, Advanced(s.replicas, s.next), 0) else Primary
  }

  function Next(window: int, s: System, e: Event): System
    requires Enabled(s, e)
  {
    match e
    case Noted(user, committedAt, now) =>
      s.(pins := if user != "" then s.pins[user := now + window] else s.pins,
         clock := now, notes := s.notes + [Note(user, committedAt, now)])
    case HealthSet(i, healthy) => s.(replicas := WithHealth(s.replicas, i, healthy))
    case LagSet(i, lag) => s.(replicas := WithLag(s.replicas, i, lag))
    case ReadFor(user, now, _) =>
      s.(pins := if user != "" then Looked(s.pins, user, now) else s.pins,
         next := if Unpinned(s, user, now) then Advanced(s.replicas, s.next) else s.next,
         clock := now)
  }

  predicate Legal(window: int, s: System, events: seq<Event>)
    decreases |events|
  {
    events == [] || (Enabled(s, events[0]) && Legal(window, Next(window, s, events[0]), events[1..]))
  }

  function Run(window: int, s: System, events: seq<Event>): System
    requires Legal(window, s, events)
    decreases |events|
  {
    if events == [] then s else Run(window, Next(window, s, events[0]), events[1..])
  }

  /** The pool a read is sent to holds every write the user noted before. */
  ghost predicate SeesOwnWrites(s: System, e: Event)
    requires e.ReadFor? && Enabled(s, e)
  {
    var p := Chosen(s, e.user, e.now);
    p.ReplicaPool? ==>
      p.i < |e.applied| && forall k | 0 <= k < |s.notes| && s.notes[k].user == e.user :: s.notes[k].committedAt <= e.applied[p.i]
  }

  function Initial(replicas: seq<Replica>, now: int): System {
    System(replicas, 0, map[], now, [])
  }

  ghost predicate SameBudget(replicas: seq<Replica>, maxLag: int) {
    forall i | 0 <= i < |replicas| :: replicas[i].maxLag == maxLag
  }

  ghost predicate Inv(window: int, maxLag: int, s: System) {
    && SameBudget(s.replicas, maxLag)
    && (forall k | 0 <= k < |s.notes| ::
          var n := s.notes[k];
          && n.committedAt <= n.at <= s.clock
          && (n.user != "" ==> (n.user in s.pins && s.pins[n.user] >= n.at + window) || s.clock > n.at + window))
  }

  lemma NextKeepsInv(window: int, maxLag: int, s: System, e: Event)
    requires Inv(window, maxLag, s) && Enabled(s, e)
    ensures Inv(window, maxLag, Next(window, s, e))
  {
  }

  lemma {:induction false} RunKeepsInv(window: int, maxLag: int, s: System, events: seq<Event>)
    requires Inv(window, maxLag, s) && Legal(window, s, events)
    ensures Inv(window, maxLag, Run(window, s, events))
    decreases |events|
  {
    if events != [] {
      NextKeepsInv(window, maxLag, s, events[0]);
      RunKeepsInv(window, maxLag, Next(window, s, events[0]), events[1..]);
    }
  }

  lemma PinnedLongEnough(window: int, maxLag: int, s: System, e: Event)
    requires 0 < maxLag <= window + 1 && Inv(window, maxLag, s)
    requires e.ReadFor? && e.user != "" && Enabled(s, e)
    ensures SeesOwnWrites(s, e)
  {
    PickUsable(s.replicas, Advanced(s.replicas, s.next), 0);
  }

  /** In every run from any set of replicas with this lag budget, with truthful lags, every read for
      a user sees all the writes that user noted. */
  ghost predicate ReadYourWrites(window: int, maxLag: int) {
    forall replicas: seq<Replica>, start: int, events: seq<Event>, e: Event ::
      && SameBudget(replicas, maxLag)
      && Legal(window, Initial(replicas, start), events)
      && e.ReadFor? && e.user != "" && Enabled(Run(window, Initial(replicas, start), events), e)
      ==> SeesOwnWrites(Run(window, Initial(replicas, start), events), e)
  }

  lemma LooseBudgetBreaks(window: int, maxLag: int)
    requires 0 <= window && !(0 < maxLag <= window + 1)
    ensures !ReadYourWrites(window, maxLag)
  {
    var r := Replica(true, true, 0, maxLag);
    var s0 := Initial([r], 0);
    var wrote, lagging := Noted("u", 0, 0), LagSet(0, window + 2);
    var s1 := Next(window, s0, wrote);
    var s2 := Next(window, s1, lagging);
    var events := [wrote, lagging];
    assert events[1..] == [lagging] && [lagging][1..] == [];
    assert Legal(window, s2, []) && Run(window, s2, []) == s2;
    assert Legal(window, s1, [lagging]) && Run(window, s1, [lagging]) == s2;
    assert Legal(window, s0, events) && Run(window, s0, events) == s2;
    var e := ReadFor("u", window + 1, [-1]);
    assert Usable(s2.replicas[0]) && Chosen(s2, "u", window + 1) == ReplicaPool(0);
    assert s2.notes[0].committedAt > e.applied[0];
    assert !SeesOwnWrites(s2, e);
    assert SameBudget([r], maxLag);
  }

  /** Read-your-writes holds over all runs exactly when there is a lag budget and it is no longer than
      the pin window (to the nanosecond). */
  lemma ReadYourWritesIff(window: int, maxLag: int)
    requires 0 <= window
    ensures ReadYourWrites(window, maxLag) <==> 0 < maxLag <= window + 1
  {
    if 0 < maxLag <= window + 1 {
      forall replicas: seq<Replica>, start: int, events: seq<Event>, e: Event |
        && SameBudget(replicas, maxLag)
        && Legal(window, Initial(replicas, start), events)
        && e.ReadFor? && e.user != "" && Enabled(Run(window, Initial(replicas, start), events), e)
        ensures SeesOwnWrites(Run(window, Initial(replicas, start), events), e)
      {
        RunKeepsInv(window, maxLag, Initial(replicas, start), events);
        PinnedLongEnough(window, maxLag, Run(window, Initial(replicas, start), events), e);
      }
    } else {
      LooseBudgetBreaks(window, maxLag);
    }
  }

  // ----- Turns in runs -----

  /** The pools that a run of reads is sent to. */
  function Pools(window: int, s: System, events: seq<Event>): (pools: seq<Pool>)
    requires Legal(window, s, events) && forall e | e in events :: e.ReadFor?
    ensures |pools| == |events|
    decreases |events|
  {
    if events == [] then []
    else
      assert events[0] in events;
      [Chosen(s, events[0].user, events[0].now)] + Pools(window, Next(window, s, events[0]), events[1..])
  }

  lemma {:induction false} PoolsArePicks(window: int, s: System, events: seq<Event>)
    requires Legal(window, s, events) && (forall e | e in events :: e.ReadFor?)
    requires s.pins == map[] && s.replicas != [] && s.next < TWO_64
    ensures Pools(window, s, events) == Picks(s.replicas, s.next, |events|)
    decreases |events|
  {
    if events != [] {
      assert events[0] in events;
      var t := Next(window, s, events[0]);
      PoolsArePicks(window, t, events[1..]);
      var picks := Picks(s.replicas, s.next, |events|);
      forall k | 0 < k < |events| ensures picks[k] == Picks(t.replicas, t.next, |events| - 1)[k - 1] {
        NextCursor(s.next, k - 1);
      }
    }
  }

  lemma NextCursor(next: nat, k: nat)
    requires next < TWO_64
    ensures ((next + 1) % TWO_64 + 1 + k) % TWO_64 == (next + 1 + (k + 1)) % TWO_64
  {
  }

  /** With nobody pinned and all replicas usable, as many consecutive reads as there are replicas, for
      whomever, are sent to each replica exactly once. */
  lemma ReadsTakeTurns(window: int, s: System, events: seq<Event>, i: nat)
    requires Legal(window, s, events) && (forall e | e in events :: e.ReadFor?) && |events| == |s.replicas|
    requires s.pins == map[] && s.next + |s.replicas| < TWO_64 && AllUsable(s.replicas) && i < |s.replicas|
    ensures ReplicaPool(i) in Pools(window, s, events)
    ensures forall k, l | 0 <= k < l < |events| :: Pools(window, s, events)[k] != Pools(window, s, events)[l]
  {
    PoolsArePicks(window, s, events);
    RoundRobin(s.replicas, s.next);
  }

  // ----- Replicas out of service -----

  predicate Unhealthy(replicas: seq<Replica>, i: nat) {
    i < |replicas| && !replicas[i].healthy
  }

  predicate Behind(replicas: seq<Replica>, i: nat, budget: int) {
    i < |replicas| && replicas[i].maxLag == budget < replicas[i].lag
  }

  lemma {:induction false} StaysUnhealthy(window: int, s: System, events: seq<Event>, i: nat)
    requires Unhealthy(s.replicas, i) && Legal(window, s, events) && HealthSet(i, true) !in events
    ensures Unhealthy(Run(window, s, events).replicas, i)
    decreases |events|
  {
    if events != [] {
      StaysUnhealthy(window, Next(window, s, events[0]), events[1..], i);
    }
  }

  lemma {:induction false} StaysBehind(window: int, s: System, events: seq<Event>, i: nat, budget: int)
    requires Behind(s.replicas, i, budget) && Legal(window, s, events)
    requires forall e | e in events && e.LagSet? && e.i == i :: e.lag > budget
    ensures Behind(Run(window, s, events).replicas, i, budget)
    decreases |events|
  {
    if events != [] {
      assert events[0] in events && forall e | e in events[1..] :: e in events;
      StaysBehind(window, Next(window, s, events[0]), events[1..], i, budget);
    }
  }

  /** Once a replica is marked unhealthy, no read is sent to it, whoever reads and whatever else happens,
      until it is marked healthy. */
  lemma UnhealthyNotRead(window: int, s: System, events: seq<Event>, i: nat, user: string, now: int)
    requires i < |s.replicas| && Legal(window, Next(window, s, HealthSet(i, false)), events) && HealthSet(i, true) !in events
    ensures Chosen(Run(window, Next(window, s, HealthSet(i, false)), events), user, now) != ReplicaPool(i)
  {
    StaysUnhealthy(window, Next(window, s, HealthSet(i, false)), events, i);
    var t := Run(window, Next(window, s, HealthSet(i, false)), events);
    PickUsable(t.replicas, Advanced(t.replicas, t.next), 0);
  }

  /** Once the lag of a replica is reported above its budget, no read is sent to it until its lag is
      reported within the budget. */
  lemma BehindNotRead(window: int, s: System, lag: int, events: seq<Event>, i: nat, user: string, now: int)
    requires i < |s.replicas| && 0 < s.replicas[i].maxLag < lag
    requires Legal(window, Next(window, s, LagSet(i, lag)), events)
    requires forall e | e in events && e.LagSet? && e.i == i :: e.lag > s.replicas[i].maxLag
    ensures Chosen(Run(window, Next(window, s, LagSet(i, lag)), events), user, now) != ReplicaPool(i)
  {
    StaysBehind(window, Next(window, s, LagSet(i, lag)), events, i, s.replicas[i].maxLag);
    var t := Run(window, Next(window, s, LagSet(i, lag)), events);
    PickUsable(t.replicas, Advanced(t.replicas, t.next), 0);
  }
}
