/** What each call does, in every reachable state of a breaker: how a probe ends, what is announced,
    what a refused caller is told, and what a snapshot counts. */
module BreakerLaws {
  import opened Options
  import opened Arithmetic
  import opened BreakerWindow
  import opened CircuitBreaker
  import opened BreakerRuns
  import opened UpstreamRoutes

  // ----- How a probe ends -----

  /** A probe that fails opens the breaker for another open duration from then on: nobody passes
      before it is over, everybody who is refused is told exactly how long it still lasts, and the
      first caller after it passes. */
  lemma ProbeFailed(c: Config, s: System, id: nat, now: int)
    requires Reachable(c, s) && LiveProbe(s, id) && s.clock <= now
    ensures |s.breaker.window.slots| == WINDOW_BUCKETS
    ensures var t := Next(c, s, Report(id, Failure, now));
            && s.breaker.mode == HalfOpen && t.breaker.mode == Open && t.breaker.generation == s.breaker.generation + 1
            && (forall u | now <= u < now + c.openDuration ::
                  Asked(c, t.breaker, u).answer == Rejected(now + c.openDuration - u))
            && (forall u | now + c.openDuration <= u :: Asked(c, t.breaker, u).answer.Granted?)
    ensures Announced(Reported(c, s.breaker, s.issued[id], Failure, now).1, HalfOpen, Open)
  {
    ReachableInv(c, s);
    assert PermitOk(s, id);
  }

  /** A probe that succeeds closes the breaker with an empty window: everybody passes from then on. */
  lemma ProbeSucceeded(c: Config, s: System, id: nat, now: int)
    requires Reachable(c, s) && LiveProbe(s, id) && s.clock <= now
    ensures |s.breaker.window.slots| == WINDOW_BUCKETS
    ensures var t := Next(c, s, Report(id, Success, now));
            && t.breaker.mode == Closed && t.breaker.generation == s.breaker.generation + 1 && t.log == []
            && Total(t.breaker.window.slots) == 0 && Failures(t.breaker.window.slots) == 0
            && (forall u | now <= u :: Asked(c, t.breaker, u).answer == Granted(Permit(t.breaker.generation, false, true)))
    ensures Announced(Reported(c, s.breaker, s.issued[id], Success, now).1, HalfOpen, Closed)
  {
    ReachableInv(c, s);
    assert PermitOk(s, id);
    BlankTotals(WINDOW_BUCKETS);
  }

  lemma {:induction false} BlankTotals(n: nat)
    ensures Total(Blank(n)) == 0 && Failures(Blank(n)) == 0
  {
    if n > 0 {
      BlankTotals(n - 1);
      assert Blank(n)[1..] == Blank(n - 1);
    }
  }

  /** A probe whose outcome is ignored leaves everything as it was, and the next caller may probe. */
  lemma ProbeIgnored(c: Config, s: System, id: nat, now: int)
    requires Reachable(c, s) && LiveProbe(s, id) && s.clock <= now
    ensures |s.breaker.window.slots| == WINDOW_BUCKETS
    ensures var t := Next(c, s, Report(id, Ignored, now));
            && t == s.(breaker := s.breaker.(probeInFlight := false), clock := now, pending := s.pending - {id})
            && (forall u | now <= u :: Asked(c, t.breaker, u).answer == Granted(Permit(s.breaker.generation, true, true)))
    ensures Reported(c, s.breaker, s.issued[id], Ignored, now).1 == None
  {
    ReachableInv(c, s);
    assert PermitOk(s, id);
  }

  // ----- What a round trip is counted as -----

  /** A round trip through a closed breaker is logged when it ends: as a failure for an error that is
      not the caller's own cancellation, for status 429 and from status 500 on, as a success for any
      other status, and not at all for a cancellation or when there is neither error nor response. */
  lemma RoundTripLogged(c: Config, s: System, ending: Ending, now: int, later: int)
    requires Reachable(c, s) && s.breaker.mode == Closed && s.clock <= now <= later
    ensures |s.breaker.window.slots| == WINDOW_BUCKETS
    ensures var called := Next(c, s, Ask(now)); var id := |s.issued|;
            && Enabled(called, Report(id, Classify(ending), later))
            && Next(c, called, Report(id, Classify(ending), later)).log == s.log +
               match ending
               case Error(cancelled) => if cancelled then [] else [Sample(later, true)]
               case Answered(status) => [Sample(later, status == 429 || status >= 500)]
               case Nothing => []
  {
    ReachableInv(c, s);
    ReachableNext(c, s, Ask(now));
  }

  // ----- What is announced -----

  predicate Announced(event: Option<Transition>, from: Mode, to: Mode) {
    event.Some? && event.value.from == from && event.value.to == to
  }

  /** Every change of mode is announced, with the modes before and after, and nothing else is. */
  lemma TransitionsAnnounced(c: Config, s: System, e: Event)
    requires Reachable(c, s) && Enabled(s, e) && !e.Look?
    ensures |s.breaker.window.slots| == WINDOW_BUCKETS
    ensures var t := Next(c, s, e);
            var event := if e.Ask? then Asked(c, s.breaker, e.now).event
                         else Reported(c, s.breaker, s.issued[e.id], e.outcome, e.now).1;
            && (event.Some? <==> t.breaker.mode != s.breaker.mode)
            && (event.Some? ==> Announced(event, s.breaker.mode, t.breaker.mode)
                                && event.value.snapshot.mode == t.breaker.mode)
  {
    ReachableInv(c, s);
  }

  // ----- What a refused caller is told -----

  /** A caller refused during the open period is told exactly when the period ends; one refused
      because of a probe is told nothing is left to wait for. */
  lemma RefusalTellsWait(c: Config, s: System, now: int)
    requires Reachable(c, s) && s.clock <= now
    ensures |s.breaker.window.slots| == WINDOW_BUCKETS
    ensures var answer := Asked(c, s.breaker, now).answer;
            answer.Rejected? ==>
              && (s.breaker.mode == Open ==>
                    answer.retryIn > 0 && forall u | now <= u :: Asked(c, s.breaker, u).answer.Granted? <==> now + answer.retryIn <= u)
              && (s.breaker.mode != Open ==> answer.retryIn == 0)
  {
    ReachableInv(c, s);
  }

  // ----- What a snapshot counts -----

  /** The numbers of a snapshot: the outcomes logged since the cut, their ratio, and how many calls
      were refused since the breaker was made. */
  lemma SnapshotCounts(c: Config, s: System, now: int)
    requires Reachable(c, s) && s.clock <= now
    ensures |s.breaker.window.slots| == WINDOW_BUCKETS
    ensures var snapshot := Observe(c, Rolled(c, s.breaker, now), now); var tally := Tally(s.log, Cut(c, s, now), now + 1);
            && snapshot.total == tally.total && snapshot.failures == tally.failures && snapshot.rejected == s.refused
            && (tally.total == 0 ==> snapshot.ratio == 0.0)
            && (tally.total > 0 ==> snapshot.ratio == tally.failures as real / tally.total as real)
  {
    ReachableInv(c, s);
    RingRefinesLog(c, s, now);
  }

  // ----- Defaults -----

  /** Policies that startup accepts. */
  predicate Validated(c: Config) {
    0.0 < c.failureRatio <= 1.0 && c.minRequests > 0 && c.window > 0 && c.openDuration > 0
  }

  /** Defaults change nothing that is positive, complete any policy, and from nothing make half of at
      least ten calls in a minute, and fifteen seconds. */
  lemma DefaultsComplete(c: Config)
    ensures c.failureRatio <= 1.0 ==> Validated(WithDefaults(c))
    ensures WithDefaults(WithDefaults(c)) == WithDefaults(c)
    ensures WithDefaults(Config(0.0, 0, 0, 0)) == Config(0.5, 10, 60_000_000_000, 15_000_000_000)
    ensures var d := WithDefaults(Config(0.0, 0, 0, 0)); var e := WithDefaults(c);
            && e.failureRatio == (if c.failureRatio > 0.0 then c else d).failureRatio
            && e.minRequests == (if c.minRequests > 0 then c else d).minRequests
            && e.window == (if c.window > 0 then c else d).window
            && e.openDuration == (if c.openDuration > 0 then c else d).openDuration
  {
  }
}
