/** How stale the indexed view of the chain is: the tracker, its saturating 64-bit arithmetic, and
    the whole seconds the response headers report. */
module Freshness {
  import opened Int64

  const LEDGER_CLOSE_INTERVAL: int := 5_000_000_000
  const DEFAULT_BUDGET: int := 300_000_000_000

  newtype uint64 = x: int | 0 <= x < 0x1_0000_0000_0000_0000

  /** Division as the machine does it: toward zero. */
  function Quotient(x: int, d: int): int
    requires d > 0
  {
    if x >= 0 then x / d else -((-x) / d)
  }

  /** The difference of two instants, which saturates. */
  function Since(now: int, then_: int): int {
    if now - then_ > MAX_INT64 then MAX_INT64
    else if now - then_ < MIN_INT64 then MIN_INT64
    else now - then_
  }

  function LedgerLagDuration(ledgers: uint64): int {
    if ledgers as int > MAX_INT64 / LEDGER_CLOSE_INTERVAL then MAX_INT64
    else Wrap64(ledgers as int * LEDGER_CLOSE_INTERVAL)
  }

  function AddSaturating(a: int, b: int): int {
    if b > Wrap64(MAX_INT64 - a) then MAX_INT64 else Wrap64(a + b)
  }

  function WholeSecondsUp(d: int): int {
    if d <= 0 then 0 else Quotient(Wrap64(d + SECOND - 1), SECOND)
  }

  datatype Snapshot = Snapshot(
    sampled: bool, indexedLedger: uint64, networkLedger: uint64, lagLedgers: uint64,
    lag: int, sampleAge: int, budget: int, stale: bool, sampleErrors: uint64)

  class Tracker {
    const budget: int
    var sampled: bool
    var sampledAt: int
    var indexedLedger: uint64
    var networkLedger: uint64
    var sampleErrors: uint64

    constructor (budget: int, now: int)
      requires budget <= MAX_INT64
      ensures this.budget == (if budget <= 0 then 300_000_000_000 else budget)
      ensures Value() == Sample(false, now, 0, 0)
    {
      this.budget := if budget <= 0 then DEFAULT_BUDGET else budget;
      sampled, sampledAt, indexedLedger, networkLedger, sampleErrors := false, now, 0, 0, 0;
    }

    ghost function Value(): Sample
      reads this
    {
      Sample(sampled, sampledAt, indexedLedger, networkLedger)
    }

    method Observe(indexed: uint64, network: uint64, now: int)
      modifies this
      ensures Value() == Sample(true, now, indexed, network) && sampleErrors == old(sampleErrors)
    {
      sampled := true;
      sampledAt := now;
      indexedLedger := indexed;
      networkLedger := network;
    }

    method ObserveFailure()
      modifies this
      ensures Value() == old(Value())
      ensures sampleErrors as int == (old(sampleErrors) as int + 1) % 0x1_0000_0000_0000_0000
    {
      sampleErrors := if sampleErrors == 0xFFFF_FFFF_FFFF_FFFF then 0 else sampleErrors + 1;
    }

    /** The lag reported is the ideal one cut off at the largest duration, and the verdict is the
        ideal verdict unless the budget itself is that largest duration. */
    method TakeSnapshot(now: int) returns (s: Snapshot)
      requires 0 < budget <= MAX_INT64
      ensures s.sampled == sampled && s.budget == budget && s.sampleErrors == sampleErrors
      ensures s.indexedLedger == (if sampled then indexedLedger else 0)
      ensures s.networkLedger == (if sampled then networkLedger else 0)
      ensures s.lagLedgers as int == if sampled && networkLedger > indexedLedger then networkLedger as int - indexedLedger as int else 0
      ensures s.lag == Reported(Value(), now) && s.stale == (s.lag > budget)
      ensures s.sampleAge == Reported(Sample(false, sampledAt, 0, 0), now)
    {
      var age := Age(now, sampledAt);
      s := Snapshot(sampled, 0, 0, 0, age, age, budget, false, sampleErrors);
      if sampled {
        var lagLedgers: uint64 := if networkLedger > indexedLedger then networkLedger - indexedLedger else 0;
        var lag := Lag(age, lagLedgers);
        s := s.(indexedLedger := indexedLedger, networkLedger := networkLedger, lagLedgers := lagLedgers, lag := lag);
      }
      s := s.(stale := s.lag > budget);
    }
  }

  /** How old a sample is: never negative, and cut off at the largest duration. */
  method Age(now: int, sampledAt: int) returns (age: int)
    ensures 0 <= age <= MAX_INT64
    ensures age == if now <= sampledAt then 0 else if now - sampledAt > MAX_INT64 then MAX_INT64 else now - sampledAt
  {
    age := Since(now, sampledAt);
    if age < 0 {
      age := 0;
    }
  }

  method Lag(age: int, ledgers: uint64) returns (lag: int)
    requires 0 <= age <= MAX_INT64
    ensures lag == Cut(age + ledgers as int * 5_000_000_000)
  {
    LagIsIdeal(age, ledgers);
    lag := AddSaturating(age, LedgerLagDuration(ledgers));
  }

  // ----- The ideal, in unbounded integers -----

  function Cut(ideal: int): int {
    if ideal > MAX_INT64 then MAX_INT64 else ideal
  }

  /** What the tracker holds of the last sample. */
  datatype Sample = Sample(sampled: bool, sampledAt: int, indexed: uint64, network: uint64)

  function LagLedgers(s: Sample): int {
    if s.sampled && s.network > s.indexed then s.network as int - s.indexed as int else 0
  }

  function IdealLag(s: Sample, now: int): int {
    (if now > s.sampledAt then now - s.sampledAt else 0) + LagLedgers(s) * LEDGER_CLOSE_INTERVAL
  }

  /** The lag a snapshot reports. */
  function Reported(s: Sample, now: int): int {
    Cut(IdealLag(s, now))
  }

  /** Saturating step by step is the same as computing without bounds and cutting off once. */
  lemma LagIsIdeal(age: int, ledgers: uint64)
    requires 0 <= age <= MAX_INT64
    ensures AddSaturating(age, LedgerLagDuration(ledgers)) == Cut(age + ledgers as int * 5_000_000_000)
  {
    var n := ledgers as int;
    WrapFits(MAX_INT64 - age);
    if n <= MAX_INT64 / LEDGER_CLOSE_INTERVAL {
      WrapFits(n * LEDGER_CLOSE_INTERVAL);
    }
  }

  /** The reported verdict is the ideal one for every sample and every instant, exactly when the
      budget is below the largest duration. */
  lemma VerdictIdealIff(budget: int)
    requires 0 < budget <= MAX_INT64
    ensures (forall s: Sample, now: int :: Reported(s, now) > budget <==> IdealLag(s, now) > budget) <==> budget < MAX_INT64
  {
    if budget == MAX_INT64 {
      var s := Sample(false, 0, 0, 0);
      assert IdealLag(s, MAX_INT64 + 1) > budget && !(Reported(s, MAX_INT64 + 1) > budget);
    }
  }

  datatype Event = Sampled(indexed: uint64, network: uint64, now: int) | SamplingFailed(now: int) | Elapsed(now: int)

  function After(s: Sample, e: Event): Sample {
    if e.Sampled? then Sample(true, e.now, e.indexed, e.network) else s
  }

  function AfterAll(s: Sample, events: seq<Event>): Sample {
    if events == [] then s else After(AfterAll(s, events[..|events| - 1]), events[|events| - 1])
  }

  /** Once stale, data stays stale until a sample succeeds: failed samples and the passing of time
      never make it fresh again. */
  lemma {:induction false} StaleUntilSampled(s: Sample, events: seq<Event>, now: int, later: int, budget: int)
    requires Reported(s, now) > budget && now <= later
    requires forall e | e in events :: !e.Sampled?
    ensures AfterAll(s, events) == s && Reported(AfterAll(s, events), later) > budget
  {
    if events != [] {
      StaleUntilSampled(s, events[..|events| - 1], now, later, budget);
      assert events[|events| - 1] in events;
    }
  }

  /** Until the first sample a new tracker goes stale exactly one budget after it was made. */
  lemma SilentIndexerGoesStale(start: int, now: int, budget: int)
    requires 0 < budget < MAX_INT64
    ensures Reported(Sample(false, start, 0, 0), now) > budget <==> now > start + budget
  {
  }

  /** After a sample the data is stale exactly when its age and five seconds for every ledger the
      indexer is behind exceed the budget. */
  lemma SampleGoesStale(at: int, indexed: uint64, network: uint64, now: int, budget: int)
    requires 0 < budget < MAX_INT64 && at <= now
    ensures Reported(Sample(true, at, indexed, network), now) > budget <==>
            (now - at) + (if network > indexed then (network as int - indexed as int) * 5_000_000_000 else 0) > budget
  {
  }

  // ----- Headers -----

  /** Rounding up to whole seconds never understates a duration, exactly when adding most of a second
      to it does not wrap around. */
  lemma HeaderNeverUnderstatesIff(d: int)
    requires 0 < d <= MAX_INT64
    ensures WholeSecondsUp(d) * SECOND >= d <==> d <= MAX_INT64 - (SECOND - 1)
    ensures d <= MAX_INT64 - (SECOND - 1) ==> (WholeSecondsUp(d) - 1) * SECOND < d
  {
    if d <= MAX_INT64 - (SECOND - 1) {
      WrapFits(d + SECOND - 1);
    } else {
      var x := d + SECOND - 1;
      assert Wrap64(x) == x - 0x1_0000_0000_0000_0000;
    }
  }

  /** A lag that saturated is stale under any budget the headers can show, and yet its header is
      negative. */
  lemma SaturatedLagHeader(s: Sample, now: int, budget: int)
    requires IdealLag(s, now) >= MAX_INT64 && 0 < budget <= MAX_INT64 - (SECOND - 1)
    ensures Reported(s, now) > budget && WholeSecondsUp(Reported(s, now)) < 0 < WholeSecondsUp(budget)
  {
    HeaderNeverUnderstatesIff(budget);
  }

  /** Comparing the two headers gives the stale flag for every lag that does not wrap, exactly when
      the budget is a whole number of seconds. */
  lemma HeadersDecideIff(budget: int)
    requires 0 < budget < MAX_INT64 - (SECOND - 1)
    ensures (forall lag: int | 0 <= lag <= MAX_INT64 - (SECOND - 1) ::
               lag > budget <==> WholeSecondsUp(lag) > WholeSecondsUp(budget))
            <==> budget % SECOND == 0
  {
    HeaderNeverUnderstatesIff(budget);
    if budget % SECOND == 0 {
      forall lag: int | 0 <= lag <= MAX_INT64 - (SECOND - 1)
        ensures lag > budget <==> WholeSecondsUp(lag) > WholeSecondsUp(budget)
      {
        if lag > 0 {
          HeaderNeverUnderstatesIff(lag);
        }
      }
    } else {
      var lag := budget + 1;
      HeaderNeverUnderstatesIff(lag);
      assert WholeSecondsUp(lag) == WholeSecondsUp(budget);
    }
  }

  /** With a whole-second budget, the two headers give the stale flag of a lag exactly when that lag
      does not wrap when rounded up; of those that do, the header is negative. */
  lemma HeadersRightIff(budget: int, lag: int)
    requires 0 < budget <= MAX_INT64 - (SECOND - 1) && budget % SECOND == 0 && 0 <= lag <= MAX_INT64
    ensures (lag > budget <==> WholeSecondsUp(lag) > WholeSecondsUp(budget)) <==> lag <= MAX_INT64 - (SECOND - 1)
  {
    HeaderNeverUnderstatesIff(budget);
    if lag > 0 {
      HeaderNeverUnderstatesIff(lag);
    }
    if lag > MAX_INT64 - (SECOND - 1) {
      assert Wrap64(lag + SECOND - 1) == lag + SECOND - 1 - 0x1_0000_0000_0000_0000;
    }
  }
}
