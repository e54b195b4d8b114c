/** The circuit breaker: its policy, its decisions as functions of a state value, and the class that
    carries the state in place with a ring of ten buckets. Every method takes the clock reading it
    would have taken, in nanoseconds. */
module CircuitBreaker {
  import opened Options
  import opened Arithmetic
  import opened BreakerWindow

  datatype Config = Config(failureRatio: real, minRequests: int, window: int, openDuration: int)

  datatype Mode = Closed | HalfOpen | Open

  datatype Outcome = Success | Failure | Ignored

  datatype Permit = Permit(generation: nat, probe: bool, valid: bool)

  datatype Snapshot = Snapshot(mode: Mode, total: nat, failures: nat, ratio: real, rejected: nat, retryIn: int)

  datatype Transition = Transition(from: Mode, to: Mode, snapshot: Snapshot)

  datatype Answer = Granted(permit: Permit) | Rejected(retryIn: int)

  datatype State = State(
    mode: Mode, generation: nat, openedAt: int, probeInFlight: bool, window: Window, rejected: nat)

  function WithDefaults(c: Config): Config {
    Config(
      if c.failureRatio <= 0.0 then 0.5 else c.failureRatio,
      if c.minRequests <= 0 then 10 else c.minRequests,
      if c.window <= 0 then 60_000_000_000 else c.window,
      if c.openDuration <= 0 then 15_000_000_000 else c.openDuration)
  }

  function BucketWidth(c: Config): int {
    c.window / WINDOW_BUCKETS
  }

  /** A policy under which the window can be rolled: advancing divides by the bucket width. */
  predicate Usable(c: Config) {
    c.failureRatio > 0.0 && c.minRequests > 0 && c.openDuration > 0 && BucketWidth(c) > 0
  }

  /** Completing a policy with defaults makes it usable exactly when its window is not one of the
      nine positive lengths shorter than one nanosecond per bucket. */
  lemma DefaultsUsableIff(c: Config)
    ensures Usable(WithDefaults(c)) <==> !(1 <= c.window <= 9)
  {
    var w := WithDefaults(c).window;
    assert BucketWidth(WithDefaults(c)) > 0 <==> w >= 10;
  }

  // ----- Decisions as functions of the state -----

  function Observe(c: Config, s: State, now: int): Snapshot {
    var total, failures := Total(s.window.slots), Failures(s.window.slots);
    var remaining := c.openDuration - (now - s.openedAt);
    Snapshot(
      if s.mode == Open && remaining <= 0 then HalfOpen else s.mode,
      total,
      failures,
      if total > 0 then failures as real / total as real else 0.0,
      s.rejected,
      if s.mode == Open && remaining > 0 then remaining else 0)
  }

  function Rolled(c: Config, s: State, now: int): State
    requires Usable(c) && |s.window.slots| == WINDOW_BUCKETS
  {
    s.(window := Advance(s.window, BucketWidth(c), now))
  }

  function Entered(s: State, to: Mode, now: int): State {
    State(
      to,
      s.generation + 1,
      if to == Open then now else s.openedAt,
      false,
      if to == Closed then Window(Blank(WINDOW_BUCKETS), now) else s.window,
      s.rejected)
  }

  function Moved(c: Config, s: State, to: Mode, now: int): (r: (State, Option<Transition>)) {
    if s.mode == to then (s, None)
    else (Entered(s, to, now), Some(Transition(s.mode, to, Observe(c, Entered(s, to, now), now))))
  }

  function Tripped(c: Config, w: Window): bool {
    var total, failures := Total(w.slots), Failures(w.slots);
    total >= c.minRequests && total > 0 && failures as real / total as real >= c.failureRatio
  }

  datatype Reply = Reply(state: State, answer: Answer, event: Option<Transition>)

  function Asked(c: Config, s: State, now: int): Reply
    requires Usable(c) && |s.window.slots| == WINDOW_BUCKETS
  {
    var r := Rolled(c, s, now);
    var (t, event) :=
      if r.mode == Open && now - r.openedAt >= c.openDuration then Moved(c, r, HalfOpen, now) else (r, None);
    if t.mode == Open || (t.mode == HalfOpen && t.probeInFlight) then
      Reply(t.(rejected := t.rejected + 1), Rejected(Max(c.openDuration - (now - t.openedAt), 0)), event)
    else if t.mode == HalfOpen then
      Reply(t.(probeInFlight := true), Granted(Permit(t.generation, true, true)), event)
    else
      Reply(t, Granted(Permit(t.generation, false, true)), event)
  }

  function Counted(s: State, failed: bool): State
    requires |s.window.slots| == WINDOW_BUCKETS
  {
    s.(window := s.window.(slots := s.window.slots[0 := Count(s.window.slots[0], failed)]))
  }

  function Reported(c: Config, s: State, p: Permit, o: Outcome, now: int): (State, Option<Transition>)
    requires Usable(c) && |s.window.slots| == WINDOW_BUCKETS
  {
    if !p.valid || p.generation != s.generation then (s, None)
    else
      var r := if p.probe then s.(probeInFlight := false) else s;
      if o == Ignored then (r, None)
      else
        var t := Rolled(c, r, now);
        if t.mode == HalfOpen then Moved(c, t, if o == Failure then Open else Closed, now)
        else
          var u := Counted(t, o == Failure);
          if u.mode == Closed && Tripped(c, u.window) then Moved(c, u, Open, now) else (u, None)
  }

  function Fresh(now: int): State {
    State(Closed, 0, 0, false, Window(Blank(WINDOW_BUCKETS), now), 0)
  }

  // ----- The breaker itself -----

  /** Ring slot of the bucket filled `age` widths before the current one. */
  function RingIndex(index: nat, age: nat): nat
    requires index < WINDOW_BUCKETS && age < WINDOW_BUCKETS
  {
    if age <= index then index - age else index + WINDOW_BUCKETS - age
  }

  function Unrolled(ring: seq<Bucket>, index: nat): seq<Bucket>
    requires |ring| == WINDOW_BUCKETS && index < WINDOW_BUCKETS
  {
    seq(WINDOW_BUCKETS, age requires 0 <= age < WINDOW_BUCKETS => ring[RingIndex(index, age)])
  }

  lemma {:induction false} TotalAppend(a: seq<Bucket>, b: seq<Bucket>)
    ensures Total(a + b) == Total(a) + Total(b)
    ensures Failures(a + b) == Failures(a) + Failures(b)
  {
    if a == [] {
      assert a + b == b;
    } else {
      TotalAppend(a[1..], b);
      assert (a + b)[1..] == a[1..] + b;
    }
  }

  lemma {:induction false} TotalReverse(a: seq<Bucket>, r: seq<Bucket>)
    requires |a| == |r| && forall i | 0 <= i < |a| :: r[i] == a[|a| - 1 - i]
    ensures Total(a) == Total(r) && Failures(a) == Failures(r)
  {
    if a != [] {
      var n := |a| - 1;
      TotalReverse(a[1..], r[..n]);
      assert r == r[..n] + [a[0]];
      TotalAppend(r[..n], [a[0]]);
    }
  }

  /** Adding up the ring in storage order gives the same totals as adding it up by age. */
  lemma RingTotals(ring: seq<Bucket>, index: nat)
    requires |ring| == WINDOW_BUCKETS && index < WINDOW_BUCKETS
    ensures Total(ring) == Total(Unrolled(ring, index))
    ensures Failures(ring) == Failures(Unrolled(ring, index))
  {
    var u, k := Unrolled(ring, index), index + 1;
    HalvesReversed(ring, index);
    TotalReverse(ring[..k], u[..k]);
    TotalReverse(ring[k..], u[k..]);
    TotalAppend(ring[..k], ring[k..]);
    TotalAppend(u[..k], u[k..]);
    assert ring == ring[..k] + ring[k..] && u == u[..k] + u[k..];
  }

  lemma HalvesReversed(ring: seq<Bucket>, index: nat)
    requires |ring| == WINDOW_BUCKETS && index < WINDOW_BUCKETS
    ensures var u, k := Unrolled(ring, index), index + 1;
            && (forall i | 0 <= i < k :: u[..k][i] == ring[..k][k - 1 - i])
            && (forall i | 0 <= i < WINDOW_BUCKETS - k :: u[k..][i] == ring[k..][WINDOW_BUCKETS - k - 1 - i])
  {
  }

  /** Moving the index on by one and emptying the bucket there ages every other bucket by one. */
  lemma RingStep(ring: seq<Bucket>, index: nat)
    requires |ring| == WINDOW_BUCKETS && index < WINDOW_BUCKETS
    ensures var next := (index + 1) % WINDOW_BUCKETS;
            Unrolled(ring[next := EMPTY], next) == Shift(Unrolled(ring, index), 1)
  {
    var next := if index == 9 then 0 else index + 1;
    assert next == (index + 1) % WINDOW_BUCKETS;
    var after := Unrolled(ring[next := EMPTY], next);
    forall age | 0 <= age < WINDOW_BUCKETS ensures after[age] == Shift(Unrolled(ring, index), 1)[age] {
      assert after[age] == ring[next := EMPTY][RingIndex(next, age)];
      if age > 0 {
        assert RingIndex(next, age) == RingIndex(index, age - 1) != next;
      }
    }
  }

  class Breaker {
    const cfg: Config
    const bucketDur: int
    const buckets: array<Bucket>

    var mode: Mode
    var generation: nat
    var openedAt: int
    var probeInFlight: bool
    var bucketIndex: nat
    var bucketStart: int
    var rejected: nat

    ghost predicate Valid()
      reads this
    {
      && Usable(cfg)
      && bucketDur == BucketWidth(cfg)
      && buckets.Length == WINDOW_BUCKETS
      && bucketIndex < WINDOW_BUCKETS
    }

    ghost function Value(): State
      requires Valid()
      reads this, buckets
    {
      State(mode, generation, openedAt, probeInFlight,
            Window(Unrolled(buckets[..], bucketIndex), bucketStart), rejected)
    }

    /** Any policy makes a breaker; one whose buckets have no width makes one that cannot be used. */
    constructor (config: Config, now: int)
      ensures fresh(buckets) && cfg == WithDefaults(config)
      ensures Valid() <==> !(1 <= config.window <= 9)
      ensures Valid() ==> Value() == Fresh(now)
    {
      DefaultsUsableIff(config);
      cfg := WithDefaults(config);
      bucketDur := WithDefaults(config).window / WINDOW_BUCKETS;
      buckets := new Bucket[WINDOW_BUCKETS](_ => EMPTY);
      mode, generation, openedAt, probeInFlight := Closed, 0, 0, false;
      bucketIndex, bucketStart, rejected := 0, now, 0;
    }

    method ClearWindow()
      requires Valid()
      modifies this`bucketIndex, buckets
      ensures Valid() && Unrolled(buckets[..], bucketIndex) == Blank(WINDOW_BUCKETS)
    {
      for i := 0 to WINDOW_BUCKETS
        invariant forall k | 0 <= k < i :: buckets[k] == EMPTY
      {
        buckets[i] := EMPTY;
      }
      bucketIndex := 0;
    }

    method AdvanceTo(now: int)
      requires Valid()
      modifies this`bucketIndex, this`bucketStart, buckets
      ensures Valid() && Value() == Rolled(cfg, old(Value()), now)
    {
      var elapsed := now - bucketStart;
      if elapsed < bucketDur {
        assert Shift(Unrolled(buckets[..], bucketIndex), 0) == Unrolled(buckets[..], bucketIndex);
        return;
      }
      var steps := elapsed / bucketDur;
      if steps >= WINDOW_BUCKETS {
        ClearWindow();
      } else {
        RollBuckets(steps);
      }
      bucketStart := bucketStart + steps * bucketDur;
    }

    method RollBuckets(steps: nat)
      requires Valid() && steps < WINDOW_BUCKETS
      modifies this`bucketIndex, buckets
      ensures Valid()
      ensures Unrolled(buckets[..], bucketIndex) == Shift(old(Unrolled(buckets[..], bucketIndex)), steps)
    {
      ghost var was := Unrolled(buckets[..], bucketIndex);
      assert Shift(was, 0) == was;
      for i := 0 to steps
        invariant Valid()
        invariant Unrolled(buckets[..], bucketIndex) == Shift(was, i)
      {
        ShiftTwice(was, i, 1);
        NextBucket();
      }
    }

    method NextBucket()
      requires Valid()
      modifies this`bucketIndex, buckets
      ensures Valid()
      ensures Unrolled(buckets[..], bucketIndex) == Shift(old(Unrolled(buckets[..], bucketIndex)), 1)
    {
      RingStep(buckets[..], bucketIndex);
      bucketIndex := (bucketIndex + 1) % WINDOW_BUCKETS;
      buckets[bucketIndex] := EMPTY;
      assert buckets[..] == old(buckets[..])[bucketIndex := EMPTY];
    }

    method Counts() returns (total: nat, failures: nat)
      requires Valid()
      ensures total == Total(Value().window.slots) && failures == Failures(Value().window.slots)
    {
      total, failures := 0, 0;
      for i := 0 to WINDOW_BUCKETS
        invariant total == Total(buckets[..i]) && failures == Failures(buckets[..i])
      {
        TotalAppend(buckets[..i], [buckets[i]]);
        assert buckets[..i + 1] == buckets[..i] + [buckets[i]];
        total, failures := total + buckets[i].total, failures + buckets[i].failures;
      }
      assert buckets[..WINDOW_BUCKETS] == buckets[..];
      RingTotals(buckets[..], bucketIndex);
    }

    method SnapshotAt(now: int) returns (snapshot: Snapshot)
      requires Valid()
      ensures snapshot == Observe(cfg, Value(), now)
    {
      var total, failures := Counts();
      var ratio := 0.0;
      if total > 0 {
        ratio := failures as real / total as real;
      }
      var shown, retryIn := mode, 0;
      if mode == Open {
        var remaining := cfg.openDuration - (now - openedAt);
        if remaining > 0 {
          retryIn := remaining;
        } else {
          shown := HalfOpen;
        }
      }
      snapshot := Snapshot(shown, total, failures, ratio, rejected, retryIn);
    }

    method SetMode(to: Mode, now: int) returns (event: Option<Transition>)
      requires Valid()
      modifies this, buckets
      ensures Valid() && (Value(), event) == Moved(cfg, old(Value()), to, now)
    {
      var from := mode;
      if from == to {
        return None;
      }
      mode := to;
      generation := generation + 1;
      probeInFlight := false;
      match to {
        case Open =>
          openedAt := now;
        case Closed =>
          ClearWindow();
          bucketStart := now;
        case HalfOpen =>
      }
      var snapshot := SnapshotAt(now);
      event := Some(Transition(from, to, snapshot));
    }

    method Allow(now: int) returns (answer: Answer, event: Option<Transition>)
      requires Valid()
      modifies this, buckets
      ensures Valid() && Reply(Value(), answer, event) == Asked(cfg, old(Value()), now)
    {
      AdvanceTo(now);
      event := None;
      if mode == Open && now - openedAt >= cfg.openDuration {
        event := SetMode(HalfOpen, now);
      }
      match mode {
        case Open =>
          rejected := rejected + 1;
          answer := Rejected(RetryIn(now));
        case HalfOpen =>
          if probeInFlight {
            rejected := rejected + 1;
            answer := Rejected(RetryIn(now));
          } else {
            probeInFlight := true;
            answer := Granted(Permit(generation, true, true));
          }
        case Closed =>
          answer := Granted(Permit(generation, false, true));
      }
    }

    function RetryIn(now: int): int
      reads this
    {
      Max(cfg.openDuration - (now - openedAt), 0)
    }

    method HasTripped() returns (tripped: bool)
      requires Valid()
      ensures tripped == Tripped(cfg, Value().window)
    {
      var total, failures := Counts();
      if total < cfg.minRequests {
        return false;
      }
      return failures as real / total as real >= cfg.failureRatio;
    }

    method Record(permit: Permit, outcome: Outcome, now: int) returns (event: Option<Transition>)
      requires Valid()
      modifies this, buckets
      ensures Valid() && (Value(), event) == Reported(cfg, old(Value()), permit, outcome, now)
    {
      if !permit.valid || permit.generation != generation {
        return None;
      }
      if permit.probe {
        probeInFlight := false;
      }
      if outcome == Ignored {
        return None;
      }
      AdvanceTo(now);
      if mode == HalfOpen {
        event := SetMode(if outcome == Failure then Open else Closed, now);
        return;
      }
      CountCurrent(outcome == Failure);
      if mode == Closed {
        var tripped := HasTripped();
        if tripped {
          event := SetMode(Open, now);
          return;
        }
      }
      event := None;
    }

    method CountCurrent(failed: bool)
      requires Valid()
      modifies buckets
      ensures Valid() && Value() == Counted(old(Value()), failed)
    {
      buckets[bucketIndex] := Count(buckets[bucketIndex], failed);
      assert Unrolled(buckets[..], bucketIndex)[0] == buckets[bucketIndex];
    }

    method TakeSnapshot(now: int) returns (snapshot: Snapshot)
      requires Valid()
      modifies this`bucketIndex, this`bucketStart, buckets
      ensures Valid() && Value() == Rolled(cfg, old(Value()), now) && snapshot == Observe(cfg, Value(), now)
    {
      AdvanceTo(now);
      snapshot := SnapshotAt(now);
    }
  }
}
