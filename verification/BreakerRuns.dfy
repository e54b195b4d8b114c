/** What holds over every run of one breaker: any interleaving of calls asking for a permit, calls
    reporting an outcome, and snapshots, under a clock that never goes back and with each permit
    reported at most once. */
module BreakerRuns {
  import opened Arithmetic
  import opened Options
  import opened BreakerWindow
  import opened CircuitBreaker

  datatype Event =
    | Ask(now: int)
    | Report(id: nat, outcome: Outcome, now: int)
    | Look(now: int)

  /** The breaker together with the history a bystander would write down: which permits were
      issued and when, which are still to be reported, which outcomes arrived since the breaker
      last closed, which modes it went through and when it entered each, and how many calls were
      refused. */
  datatype System = System(
    breaker: State, clock: int,
    issued: seq<Permit>, issuedAt: seq<int>, pending: set<nat>,
    log: seq<Sample>,
    path: seq<Mode>, entered: seq<int>, refused: nat)

  function Start(now: int): System {
    System(Fresh(now), now, [], [], {}, [], [Closed], [now], 0)
  }

  predicate Enabled(s: System, e: Event) {
    s.clock <= e.now && (e.Report? ==> e.id in s.pending && e.id < |s.issued|)
  }

  /** Takes over the new breaker state, noting a change of mode. */
  function Noted(s: System, b: State, now: int): System {
    if b.generation == s.breaker.generation then s.(breaker := b, clock := now)
    else s.(breaker := b, clock := now, path := s.path + [b.mode], entered := s.entered + [now])
  }

  function Next(c: Config, s: System, e: Event): (t: System)
    requires Usable(c) && |s.breaker.window.slots| == WINDOW_BUCKETS && Enabled(s, e)
    ensures |t.breaker.window.slots| == WINDOW_BUCKETS
  {
    match e
    case Ask(now) =>
      var r := Asked(c, s.breaker, now);
      var t := Noted(s, r.state, now);
      if r.answer.Granted? then
        t.(issued := s.issued + [r.answer.permit], issuedAt := s.issuedAt + [now], pending := s.pending + {|s.issued|})
      else t.(refused := s.refused + 1)
    case Report(id, outcome, now) =>
      var p := s.issued[id];
      var b := Reported(c, s.breaker, p, outcome, now).0;
      var counts := p.valid && p.generation == s.breaker.generation && outcome != Ignored;
      Noted(s, b, now).(
        pending := s.pending - {id},
        log := if !counts then s.log
               else if s.breaker.mode == HalfOpen then (if outcome == Success then [] else s.log)
               else s.log + [Sample(now, outcome == Failure)])
    case Look(now) =>
      Noted(s, Rolled(c, s.breaker, now), now)
  }

  predicate Legal(c: Config, s: System, events: seq<Event>)
    requires Usable(c) && |s.breaker.window.slots| == WINDOW_BUCKETS
    decreases |events|
  {
    events == [] || (Enabled(s, events[0]) && Legal(c, Next(c, s, events[0]), events[1..]))
  }

  function Run(c: Config, s: System, events: seq<Event>): (t: System)
    requires Usable(c) && |s.breaker.window.slots| == WINDOW_BUCKETS && Legal(c, s, events)
    ensures |t.breaker.window.slots| == WINDOW_BUCKETS
    decreases |events|
  {
    if events == [] then s else Run(c, Next(c, s, events[0]), events[1..])
  }

  // ----- The invariant -----

  predicate Edge(a: Mode, b: Mode) {
    (a == Closed && b == Open) || (a == Open && b == HalfOpen) || (a == HalfOpen && b != HalfOpen)
  }

  ghost predicate PathInv(c: Config, s: System) {
    && |s.path| == |s.entered| == s.breaker.generation + 1
    && s.path[0] == Closed
    && s.path[s.breaker.generation] == s.breaker.mode
    && (forall g | 0 < g < |s.path| :: Edge(s.path[g - 1], s.path[g]))
    && (forall g | 0 <= g < |s.path| :: s.entered[g] <= s.clock)
    && (s.breaker.mode == Open ==> s.breaker.openedAt == s.entered[s.breaker.generation])
    && (s.breaker.mode == HalfOpen ==> s.breaker.openedAt + c.openDuration <= s.clock)
    && Spaced(c, s.path, s.entered)
  }

  /** Every mode is entered no earlier than the one before it, and at least an open duration later if
      that one is open. */
  ghost predicate Spaced(c: Config, path: seq<Mode>, entered: seq<int>)
    requires |path| == |entered|
  {
    forall g, h | 0 <= g < h < |path| :: Left(c, path[g], entered[g]) <= entered[h]
  }

  /** When a mode entered at this instant can be left at the earliest. */
  function Left(c: Config, mode: Mode, entered: int): int {
    if mode == Open then entered + c.openDuration else entered
  }

  lemma SpacedLonger(c: Config, path: seq<Mode>, entered: seq<int>, mode: Mode, now: int)
    requires c.openDuration >= 0 && |path| == |entered| > 0 && Spaced(c, path, entered)
    requires Left(c, path[|path| - 1], entered[|path| - 1]) <= now
    ensures Spaced(c, path + [mode], entered + [now])
  {
    var p, e, n := path + [mode], entered + [now], |path|;
    forall g, h | 0 <= g < h < |p| ensures Left(c, p[g], e[g]) <= e[h] {
      if h == n && g < n - 1 {
        assert Left(c, path[g], entered[g]) <= entered[n - 1];
      }
    }
  }

  /** Permit `i` was issued in the mode it is for, after that mode was entered. */
  predicate PermitOk(s: System, i: nat) {
    && i < |s.issued| && i < |s.issuedAt|
    && s.issued[i].valid
    && s.issued[i].generation < |s.path| && s.issued[i].generation < |s.entered|
    && s.path[s.issued[i].generation] == (if s.issued[i].probe then HalfOpen else Closed)
    && s.entered[s.issued[i].generation] <= s.issuedAt[i] <= s.clock
  }

  ghost predicate PermitInv(s: System) {
    && |s.issued| == |s.issuedAt|
    && (forall i {:trigger s.issued[i]} {:trigger PermitOk(s, i)} | 0 <= i < |s.issued| :: PermitOk(s, i))
    && (forall i | i in s.pending :: i < |s.issued|)
  }

  /** Permit `i` is a probe of the present half-open period that has not been reported yet. */
  predicate LiveProbe(s: System, i: nat) {
    i in s.pending && i < |s.issued| && s.issued[i].probe && s.issued[i].generation == s.breaker.generation
  }

  ghost predicate ProbeInv(s: System) {
    && (s.breaker.probeInFlight <==> exists i :: LiveProbe(s, i))
    && (forall i, j | LiveProbe(s, i) && LiveProbe(s, j) :: i == j)
  }

  ghost predicate LogInv(c: Config, s: System) {
    && BucketWidth(c) > 0
    && Summarises(s.breaker.window, BucketWidth(c), s.log)
    && s.breaker.window.start <= s.clock
    && (forall k | 0 <= k < |s.log| :: s.log[k].at <= s.clock)
  }

  ghost predicate Inv(c: Config, s: System) {
    Usable(c) && PathInv(c, s) && PermitInv(s) && ProbeInv(s) && LogInv(c, s) && s.breaker.rejected == s.refused
  }

  lemma StartInv(c: Config, now: int)
    requires Usable(c)
    ensures Inv(c, Start(now))
  {
    FreshSummarises(now, BucketWidth(c));
  }

  /** A step stays in the same mode, or takes one edge: out of the open mode only once the open
      duration has passed, and into it noting the time. */
  ghost predicate StepShape(c: Config, s: State, t: State, now: int) {
    || (t.generation == s.generation && t.mode == s.mode && t.openedAt == s.openedAt)
    || (&& t.generation == s.generation + 1
        && Edge(s.mode, t.mode)
        && (s.mode == Open ==> s.openedAt + c.openDuration <= now)
        && t.openedAt == if t.mode == Open then now else s.openedAt)
  }

  lemma NextHasShape(c: Config, s: System, e: Event)
    requires Inv(c, s) && Enabled(s, e)
    ensures StepShape(c, s.breaker, Next(c, s, e).breaker, e.now)
  {
  }

  lemma NotedKeepsPath(c: Config, s: System, b: State, now: int)
    requires c.openDuration > 0 && PathInv(c, s) && s.clock <= now && StepShape(c, s.breaker, b, now)
    ensures PathInv(c, Noted(s, b, now))
  {
    if b.generation != s.breaker.generation {
      SpacedLonger(c, s.path, s.entered, b.mode, now);
      var t := Noted(s, b, now);
      forall g | 0 < g < |t.path| ensures Edge(t.path[g - 1], t.path[g]) {
        if g < |s.path| {
          assert Edge(s.path[g - 1], s.path[g]);
        }
      }
    }
  }

  lemma NextKeepsPath(c: Config, s: System, e: Event)
    requires Inv(c, s) && Enabled(s, e)
    ensures PathInv(c, Next(c, s, e))
  {
    var t := Next(c, s, e);
    NextHasShape(c, s, e);
    NotedKeepsPath(c, s, t.breaker, e.now);
    var n := Noted(s, t.breaker, e.now);
    assert t.path == n.path && t.entered == n.entered && t.breaker == n.breaker && t.clock == n.clock;
  }

  /** A permit on the books stays on the books. */
  lemma NextKeepsPermit(c: Config, s: System, e: Event, i: nat)
    requires Inv(c, s) && Enabled(s, e) && i < |s.issued|
    ensures PermitOk(Next(c, s, e), i)
  {
    assert PermitOk(s, i);
  }

  lemma NewPermit(c: Config, s: System, now: int)
    requires Inv(c, s) && s.clock <= now && Asked(c, s.breaker, now).answer.Granted?
    ensures PermitOk(Next(c, s, Ask(now)), |s.issued|)
  {
  }

  lemma NextKeepsPermits(c: Config, s: System, e: Event)
    requires Inv(c, s) && Enabled(s, e)
    ensures PermitInv(Next(c, s, e))
  {
    var t := Next(c, s, e);
    forall i | 0 <= i < |t.issued| ensures PermitOk(t, i) {
      if i < |s.issued| {
        NextKeepsPermit(c, s, e, i);
      } else {
        NewPermit(c, s, e.now);
      }
    }
  }

  lemma AskKeepsProbe(c: Config, s: System, now: int)
    requires Inv(c, s) && s.clock <= now
    ensures ProbeInv(Next(c, s, Ask(now)))
  {
    var t := Next(c, s, Ask(now));
    var n := |s.issued|;
    forall i: nat | i != n
      ensures LiveProbe(t, i) <==> LiveProbe(s, i) && t.breaker.generation == s.breaker.generation
    {
    }
    if Asked(c, s.breaker, now).answer.Granted? && t.breaker.mode == HalfOpen {
      assert LiveProbe(t, n);
    } else {
      assert !LiveProbe(t, n);
    }
  }

  lemma ReportKeepsProbe(c: Config, s: System, id: nat, outcome: Outcome, now: int)
    requires Inv(c, s) && Enabled(s, Report(id, outcome, now))
    ensures ProbeInv(Next(c, s, Report(id, outcome, now)))
  {
    var t := Next(c, s, Report(id, outcome, now));
    forall i: nat
      ensures LiveProbe(t, i) <==> LiveProbe(s, i) && i != id && t.breaker.generation == s.breaker.generation
    {
    }
    if LiveProbe(s, id) {
      assert forall i: nat :: !LiveProbe(t, i);
    }
  }

  lemma NextKeepsProbe(c: Config, s: System, e: Event)
    requires Inv(c, s) && Enabled(s, e)
    ensures ProbeInv(Next(c, s, e))
  {
    match e
    case Ask(now) => AskKeepsProbe(c, s, now);
    case Report(id, outcome, now) => ReportKeepsProbe(c, s, id, outcome, now);
    case Look(now) =>
      forall i: nat ensures LiveProbe(Next(c, s, e), i) <==> LiveProbe(s, i) {
      }
  }

  lemma RolledLog(c: Config, s: System, now: int)
    requires Usable(c) && LogInv(c, s) && s.clock <= now
    ensures Summarises(Rolled(c, s.breaker, now).window, BucketWidth(c), s.log)
    ensures Rolled(c, s.breaker, now).window.start <= now < Rolled(c, s.breaker, now).window.start + BucketWidth(c)
  {
    AdvanceSummarises(s.breaker.window, BucketWidth(c), now, s.log);
    StepsBounds(s.breaker.window.start, BucketWidth(c), now);
  }

  lemma CountedLog(c: Config, s: System, outcome: Outcome, now: int)
    requires Usable(c) && LogInv(c, s) && s.clock <= now
    ensures Summarises(Counted(Rolled(c, s.breaker, now), outcome == Failure).window, BucketWidth(c),
                       s.log + [Sample(now, outcome == Failure)])
  {
    RolledLog(c, s, now);
    CountSummarises(Rolled(c, s.breaker, now).window, BucketWidth(c), Sample(now, outcome == Failure), s.log);
  }

  lemma ReportKeepsLog(c: Config, s: System, e: Event)
    requires Inv(c, s) && Enabled(s, e) && e.Report?
    ensures LogInv(c, Next(c, s, e))
  {
    RolledLog(c, s, e.now);
    CountedLog(c, s, e.outcome, e.now);
    FreshSummarises(e.now, BucketWidth(c));
  }

  lemma NextKeepsLog(c: Config, s: System, e: Event)
    requires Inv(c, s) && Enabled(s, e)
    ensures LogInv(c, Next(c, s, e))
  {
    if e.Report? {
      ReportKeepsLog(c, s, e);
    } else {
      RolledLog(c, s, e.now);
    }
  }

  lemma NextKeepsRefused(c: Config, s: System, e: Event)
    requires Inv(c, s) && Enabled(s, e)
    ensures Next(c, s, e).breaker.rejected == Next(c, s, e).refused
  {
  }

  lemma NextKeepsInv(c: Config, s: System, e: Event)
    requires Inv(c, s) && Enabled(s, e)
    ensures Inv(c, Next(c, s, e))
  {
    NextKeepsPath(c, s, e);
    NextKeepsPermits(c, s, e);
    NextKeepsProbe(c, s, e);
    NextKeepsLog(c, s, e);
    NextKeepsRefused(c, s, e);
  }

  lemma {:induction false} RunKeepsInv(c: Config, s: System, events: seq<Event>)
    requires Inv(c, s) && Legal(c, s, events)
    ensures Inv(c, Run(c, s, events))
    decreases |events|
  {
    if events != [] {
      NextKeepsInv(c, s, events[0]);
      RunKeepsInv(c, Next(c, s, events[0]), events[1..]);
    }
  }

  /** A system some legal run from a new breaker leads to. */
  ghost predicate Reachable(c: Config, s: System) {
    Usable(c) && exists t0, events :: Legal(c, Start(t0), events) && s == Run(c, Start(t0), events)
  }

  lemma ReachableInv(c: Config, s: System)
    requires Reachable(c, s)
    ensures Inv(c, s)
  {
    var t0, events :| Legal(c, Start(t0), events) && s == Run(c, Start(t0), events);
    StartInv(c, t0);
    RunKeepsInv(c, Start(t0), events);
  }

  lemma StartReachable(c: Config, now: int)
    requires Usable(c)
    ensures Reachable(c, Start(now))
  {
    assert Legal(c, Start(now), []) && Run(c, Start(now), []) == Start(now);
  }

  lemma {:induction false} RunThenNext(c: Config, s: System, events: seq<Event>, e: Event)
    requires Usable(c) && |s.breaker.window.slots| == WINDOW_BUCKETS && Legal(c, s, events)
    requires Enabled(Run(c, s, events), e)
    ensures Legal(c, s, events + [e]) && Run(c, s, events + [e]) == Next(c, Run(c, s, events), e)
    decreases |events|
  {
    var all := events + [e];
    if events == [] {
      assert all[0] == e && all[1..] == [];
      assert Legal(c, Next(c, s, e), []) && Run(c, Next(c, s, e), []) == Next(c, s, e);
    } else {
      assert all[0] == events[0] && all[1..] == events[1..] + [e];
      RunThenNext(c, Next(c, s, events[0]), events[1..], e);
    }
  }

  lemma ReachableNext(c: Config, s: System, e: Event)
    requires Reachable(c, s) && Enabled(s, e)
    ensures |s.breaker.window.slots| == WINDOW_BUCKETS && Reachable(c, Next(c, s, e))
  {
    ReachableInv(c, s);
    var t0, events :| Legal(c, Start(t0), events) && s == Run(c, Start(t0), events);
    RunThenNext(c, Start(t0), events, e);
    assert Legal(c, Start(t0), events + [e]) && Next(c, s, e) == Run(c, Start(t0), events + [e]);
  }

  // ----- What every reachable breaker satisfies -----

  /** Where the outcomes that count at `now` begin. */
  function Cut(c: Config, s: System, now: int): int
    requires Usable(c) && |s.breaker.window.slots| == WINDOW_BUCKETS
  {
    Rolled(c, s.breaker, now).window.start - 9 * BucketWidth(c)
  }

  /** The ring refines the log. Brought up to `now`, the ring's totals are exactly those of the
      logged outcomes at or after a cut that lies at least nine and less than ten bucket widths
      back, so the last nine bucket widths always count and nothing a window old does. */
  lemma RingRefinesLog(c: Config, s: System, now: int)
    requires Reachable(c, s) && s.clock <= now
    ensures |s.breaker.window.slots| == WINDOW_BUCKETS
    ensures now - c.window <= now - 10 * BucketWidth(c) < Cut(c, s, now) <= now - 9 * BucketWidth(c)
    ensures var slots := Rolled(c, s.breaker, now).window.slots;
            && Total(slots) == Tally(s.log, Cut(c, s, now), now + 1).total
            && Failures(slots) == Tally(s.log, Cut(c, s, now), now + 1).failures
  {
    ReachableInv(c, s);
    RolledLog(c, s, now);
    TotalsAreRecentLog(Rolled(c, s.breaker, now).window, BucketWidth(c), s.log, now + 1);
  }

  /** Outcome `k` of a reachable state is at `now` no older than nine tenths of the window. */
  ghost predicate Recent(c: Config, s: System, now: int, k: nat) {
    Reachable(c, s) && s.clock <= now && k < |s.log| && 10 * (now - s.log[k].at) <= 9 * c.window
  }

  /** Every outcome no older than nine tenths of the configured window counts. */
  ghost predicate NineTenthsCount(c: Config)
    requires Usable(c)
  {
    forall s, now, k: nat | Recent(c, s, now, k) ::
      |s.breaker.window.slots| == WINDOW_BUCKETS && s.log[k].at >= Cut(c, s, now)
  }

  lemma RecentCounts(c: Config, s: System, now: int, k: nat)
    requires c.window % 10 <= 1 && Recent(c, s, now, k)
    ensures |s.breaker.window.slots| == WINDOW_BUCKETS && s.log[k].at >= Cut(c, s, now)
  {
    RingRefinesLog(c, s, now);
    assert c.window == 10 * BucketWidth(c) + c.window % 10;
  }

  lemma RecentDropped(c: Config)
    requires Usable(c) && c.window % 10 > 1
    ensures !NineTenthsCount(c)
  {
    var s := OneLateSample(c);
    var now := 10 * BucketWidth(c);
    RingRefinesLog(c, s, now);
    assert c.window == now + c.window % 10;
    assert Recent(c, s, now, 0);
    CutAfterTenWidths(c, s);
  }

  lemma CutAfterTenWidths(c: Config, s: System)
    requires Usable(c) && |s.breaker.window.slots| == WINDOW_BUCKETS && s.breaker.window.start == 0
    ensures Cut(c, s, 10 * BucketWidth(c)) == BucketWidth(c)
  {
    var width := BucketWidth(c);
    DivUnique(10 * width, width, 10);
    assert Steps(0, width, 10 * width) == 10;
  }

  /** Bucket widths are rounded down, so that holds exactly when at most one nanosecond of the window
      is left over after dividing it by ten. */
  lemma NineTenthsCountIff(c: Config)
    requires Usable(c)
    ensures NineTenthsCount(c) <==> c.window % 10 <= 1
  {
    if c.window % 10 <= 1 {
      forall s, now, k: nat | Recent(c, s, now, k)
        ensures |s.breaker.window.slots| == WINDOW_BUCKETS && s.log[k].at >= Cut(c, s, now)
      {
        RecentCounts(c, s, now, k);
      }
    } else {
      RecentDropped(c);
    }
  }

  /** One outcome, in the last instant of the first bucket. */
  lemma OneLateSample(c: Config) returns (s: System)
    requires Usable(c)
    ensures Reachable(c, s) && s.breaker.window.start == 0 && |s.log| == 1
    ensures s.clock == s.log[0].at == BucketWidth(c) - 1
  {
    var at := BucketWidth(c) - 1;
    var asked := OneLateCall(c);
    s := Next(c, asked, Report(0, Success, at));
    ReachableNext(c, asked, Report(0, Success, at));
    ReportedStart(c, asked.breaker, asked.issued[0], at);
    assert s.log == [Sample(at, false)];
  }

  lemma ReportedStart(c: Config, s: State, p: Permit, now: int)
    requires Usable(c) && |s.window.slots| == WINDOW_BUCKETS && s.mode == Closed
    requires s.window.start <= now < s.window.start + BucketWidth(c)
    ensures Reported(c, s, p, Success, now).0.window.start == s.window.start
  {
    assert Steps(s.window.start, BucketWidth(c), now) == 0;
  }

  lemma OneLateCall(c: Config) returns (s: System)
    requires Usable(c)
    ensures Reachable(c, s) && s.breaker.mode == Closed && s.breaker.window.start == 0 && s.log == []
    ensures s.clock == BucketWidth(c) - 1 && Enabled(s, Report(0, Success, s.clock))
    ensures s.issued[0].valid && s.issued[0].generation == s.breaker.generation
  {
    var at := BucketWidth(c) - 1;
    StartReachable(c, 0);
    s := Next(c, Start(0), Ask(at));
    ReachableNext(c, Start(0), Ask(at));
  }

  /** At most one unreported probe of the present period exists, and the slot is taken exactly
      when one does. */
  lemma SingleProbe(c: Config, s: System)
    requires Reachable(c, s)
    ensures s.breaker.probeInFlight <==> exists i :: LiveProbe(s, i)
    ensures forall i, j | LiveProbe(s, i) && LiveProbe(s, j) :: i == j
    ensures s.breaker.probeInFlight ==> s.breaker.mode == HalfOpen
  {
    ReachableInv(c, s);
  }

  /** An outcome of a permit issued before the last change of mode changes nothing but the record
      that the permit was reported; a permit of the present period was issued in this very mode. */
  lemma SupersededPermitInert(c: Config, s: System, id: nat, outcome: Outcome, now: int)
    requires Reachable(c, s) && Enabled(s, Report(id, outcome, now))
    ensures s.issued[id].generation <= s.breaker.generation
    ensures s.issued[id].generation < s.breaker.generation ==>
              Next(c, s, Report(id, outcome, now)) == s.(clock := now, pending := s.pending - {id})
    ensures s.issued[id].generation == s.breaker.generation ==>
              s.breaker.mode == if s.issued[id].probe then HalfOpen else Closed
  {
    ReachableInv(c, s);
  }

  /** The modes follow closed, open, half-open and from there closed or open; the generation
      counts the changes; and two openings are at least the open duration apart. */
  lemma TransitionDiscipline(c: Config, s: System)
    requires Reachable(c, s)
    ensures |s.path| == |s.entered| == s.breaker.generation + 1
    ensures s.path[0] == Closed && s.path[s.breaker.generation] == s.breaker.mode
    ensures forall g | 0 < g < |s.path| :: Edge(s.path[g - 1], s.path[g])
    ensures forall g, h | 0 <= g < h < |s.path| && s.path[g] == Open && s.path[h] == Open ::
              s.entered[h] - s.entered[g] >= c.openDuration
  {
    ReachableInv(c, s);
  }

  /** No permit is issued while the breaker is open, and none issued after an opening is issued
      before the open duration has passed. */
  lemma OpenAdmitsNobody(c: Config, s: System, i: nat, g: nat)
    requires Reachable(c, s) && i < |s.issued| && g < |s.path| && s.path[g] == Open
    ensures |s.issuedAt| == |s.issued| && |s.entered| == |s.path|
    ensures s.issued[i].generation != g
    ensures g < s.issued[i].generation ==> s.issuedAt[i] >= s.entered[g] + c.openDuration
  {
    ReachableInv(c, s);
    var h := s.issued[i].generation;
    if g < h {
      assert Left(c, s.path[g], s.entered[g]) <= s.entered[h];
    }
  }

  /** Exactly when a caller is turned away: the open period is still running, or somebody else
      holds the probe. Ignored probes therefore never strand the breaker. */
  lemma RejectedExactlyWhen(c: Config, s: System, now: int)
    requires Reachable(c, s) && s.clock <= now
    ensures Asked(c, s.breaker, now).answer.Rejected? <==>
              || (s.breaker.mode == Open && now < s.breaker.openedAt + c.openDuration)
              || (s.breaker.mode == HalfOpen && exists i :: LiveProbe(s, i))
  {
    ReachableInv(c, s);
  }

  /** The decision to open, read off the log: an outcome counted while closed opens the breaker
      exactly when the outcomes since the cut, this one included, reach the minimum number and the
      failure ratio. */
  lemma OpensExactlyWhen(c: Config, s: System, id: nat, outcome: Outcome, now: int)
    requires Reachable(c, s) && Enabled(s, Report(id, outcome, now))
    requires s.breaker.mode == Closed && s.issued[id].generation == s.breaker.generation && outcome != Ignored
    ensures |s.breaker.window.slots| == WINDOW_BUCKETS
    ensures var tally := Tally(s.log + [Sample(now, outcome == Failure)], Cut(c, s, now), now + 1);
            Next(c, s, Report(id, outcome, now)).breaker.mode == Open <==>
            tally.total >= c.minRequests && tally.total > 0
              && tally.failures as real / tally.total as real >= c.failureRatio
  {
    ReachableInv(c, s);
    assert PermitOk(s, id);
    RolledLog(c, s, now);
    CountedLog(c, s, outcome, now);
    var counted := Counted(Rolled(c, s.breaker, now), outcome == Failure);
    OpensIffTripped(c, s.breaker, s.issued[id], outcome, now);
    TotalsAreRecentLog(counted.window, BucketWidth(c), s.log + [Sample(now, outcome == Failure)], now + 1);
  }

  lemma OpensIffTripped(c: Config, s: State, p: Permit, outcome: Outcome, now: int)
    requires Usable(c) && |s.window.slots| == WINDOW_BUCKETS
    requires s.mode == Closed && p.valid && p.generation == s.generation && !p.probe && outcome != Ignored
    ensures Reported(c, s, p, outcome, now).0.mode == Open <==>
            Tripped(c, Counted(Rolled(c, s, now), outcome == Failure).window)
  {
  }

  /** A snapshot answers what a call would meet: it shows open exactly when a call would be turned
      away for the open period, and then names to the nanosecond when that ends. */
  lemma SnapshotTruthful(c: Config, s: System, now: int)
    requires Reachable(c, s) && s.clock <= now
    ensures var snapshot := Observe(c, Rolled(c, s.breaker, now), now);
            && (snapshot.mode == Open <==> s.breaker.mode == Open && Asked(c, s.breaker, now).answer.Rejected?)
            && (snapshot.mode == Closed <==>
                Asked(c, s.breaker, now).answer == Granted(Permit(s.breaker.generation, false, true)))
            && (snapshot.mode == HalfOpen ==>
                  (Asked(c, s.breaker, now).answer.Granted? <==> !exists i :: LiveProbe(s, i)))
            && (snapshot.retryIn > 0 <==> snapshot.mode == Open) && snapshot.retryIn >= 0
            && (forall t | s.breaker.mode == Open && now <= t ::
                  Asked(c, s.breaker, t).answer.Granted? <==> t >= now + snapshot.retryIn)
  {
    ReachableInv(c, s);
  }

  // ----- Which policies can open, and what a half-open snapshot then hides -----

  lemma {:induction false} TallyOrdered(log: seq<Sample>, lo: int, hi: int)
    ensures Tally(log, lo, hi).failures <= Tally(log, lo, hi).total
  {
    if log != [] {
      TallyOrdered(log[..|log| - 1], lo, hi);
    }
  }

  lemma {:induction false} TallyAllFailed(log: seq<Sample>, lo: int, hi: int)
    requires forall k | 0 <= k < |log| :: lo <= log[k].at < hi && log[k].failed
    ensures Tally(log, lo, hi) == Bucket(|log|, |log|)
  {
    if log != [] {
      TallyAllFailed(log[..|log| - 1], lo, hi);
    }
  }

  /** A closed breaker that has seen nothing but failures, all at instant zero. */
  ghost predicate OnlyFailures(c: Config, s: System) {
    && Reachable(c, s) && s.clock == 0 && s.breaker.mode == Closed
    && (forall k | 0 <= k < |s.log| :: s.log[k] == Sample(0, true))
  }

  lemma AskWhileClosed(c: Config, s: System) returns (t: System)
    requires OnlyFailures(c, s)
    ensures OnlyFailures(c, t) && t.log == s.log && |t.issued| == |s.issued| + 1
    ensures Enabled(t, Report(|s.issued|, Failure, 0)) && t.issued[|s.issued|].generation == t.breaker.generation
  {
    ReachableInv(c, s);
    t := Next(c, s, Ask(0));
    ReachableNext(c, s, Ask(0));
  }

  lemma LogAfterFailure(c: Config, s: System, id: nat) returns (t: System)
    requires OnlyFailures(c, s) && Enabled(s, Report(id, Failure, 0)) && s.issued[id].generation == s.breaker.generation
    ensures Reachable(c, t) && |s.breaker.window.slots| == WINDOW_BUCKETS && t == Next(c, s, Report(id, Failure, 0))
    ensures t.log == s.log + [Sample(0, true)] && t.clock == 0 && (t.breaker.mode == Closed || t.breaker.mode == Open)
  {
    ReachableInv(c, s);
    assert PermitOk(s, id);
    t := Next(c, s, Report(id, Failure, 0));
    ReachableNext(c, s, Report(id, Failure, 0));
    NextHasShape(c, s, Report(id, Failure, 0));
  }

  lemma OpensWhenEnough(c: Config, s: System, id: nat)
    requires OnlyFailures(c, s) && Enabled(s, Report(id, Failure, 0)) && s.issued[id].generation == s.breaker.generation
    requires c.failureRatio <= 1.0
    ensures |s.breaker.window.slots| == WINDOW_BUCKETS
    ensures Next(c, s, Report(id, Failure, 0)).breaker.mode == Open <==> |s.log| + 1 >= c.minRequests
  {
    RingRefinesLog(c, s, 0);
    OpensExactlyWhen(c, s, id, Failure, 0);
    FailuresTally(c, s.log + [Sample(0, true)], Cut(c, s, 0));
  }

  lemma FailuresTally(c: Config, log: seq<Sample>, cut: int)
    requires log != [] && (forall k | 0 <= k < |log| :: log[k] == Sample(0, true)) && cut <= 0 && c.failureRatio <= 1.0
    ensures var tally := Tally(log, cut, 1);
            tally.total > 0 && tally.total == |log| && tally.failures as real / tally.total as real >= c.failureRatio
  {
    TallyAllFailed(log, cut, 1);
    assert |log| as real / |log| as real == 1.0;
  }

  /** One more failure opens the breaker as soon as there are enough of them. */
  lemma OneMoreFailure(c: Config, s: System) returns (t: System)
    requires OnlyFailures(c, s) && c.failureRatio <= 1.0
    ensures Reachable(c, t) && |t.log| == |s.log| + 1
    ensures if |t.log| < c.minRequests then OnlyFailures(c, t) else t.breaker.mode == Open
  {
    var id := |s.issued|;
    var asked := AskWhileClosed(c, s);
    t := LogAfterFailure(c, asked, id);
    OpensWhenEnough(c, asked, id);
  }

  lemma {:induction false} FailuresOpen(c: Config, s: System) returns (t: System)
    requires OnlyFailures(c, s) && c.failureRatio <= 1.0
    requires |s.log| < c.minRequests
    ensures Reachable(c, t) && t.breaker.mode == Open
    decreases c.minRequests - |s.log|
  {
    t := OneMoreFailure(c, s);
    if |t.log| < c.minRequests {
      t := FailuresOpen(c, t);
    }
  }

  lemma RatioAtMostOne(failures: nat, total: nat)
    requires 0 < total && failures <= total
    ensures failures as real / total as real <= 1.0
  {
  }

  lemma CountedStaysClosed(c: Config, s: System, e: Event)
    requires Reachable(c, s) && Enabled(s, e) && s.breaker.mode == Closed && c.failureRatio > 1.0
    requires e.Report? && s.issued[e.id].generation == s.breaker.generation && e.outcome != Ignored
    ensures |s.breaker.window.slots| == WINDOW_BUCKETS && Next(c, s, e).breaker.mode != Open
  {
    OpensExactlyWhen(c, s, e.id, e.outcome, e.now);
    var log := s.log + [Sample(e.now, e.outcome == Failure)];
    var tally := Tally(log, Cut(c, s, e.now), e.now + 1);
    TallyOrdered(log, Cut(c, s, e.now), e.now + 1);
    if tally.total > 0 {
      RatioAtMostOne(tally.failures, tally.total);
    }
  }

  lemma OtherStaysClosed(c: Config, s: System, e: Event)
    requires Inv(c, s) && Enabled(s, e) && s.breaker.mode == Closed
    requires !(e.Report? && s.issued[e.id].generation == s.breaker.generation && e.outcome != Ignored)
    ensures Next(c, s, e).breaker.mode == Closed
  {
  }

  lemma ClosedStays(c: Config, s: System, e: Event)
    requires Reachable(c, s) && Enabled(s, e) && s.breaker.mode == Closed && c.failureRatio > 1.0
    ensures |s.breaker.window.slots| == WINDOW_BUCKETS && Next(c, s, e).breaker.mode == Closed
  {
    ReachableInv(c, s);
    if e.Report? && s.issued[e.id].generation == s.breaker.generation && e.outcome != Ignored {
      CountedStaysClosed(c, s, e);
      NextHasShape(c, s, e);
    } else {
      OtherStaysClosed(c, s, e);
    }
  }

  lemma {:induction false} NeverOpens(c: Config, s: System, events: seq<Event>)
    requires Reachable(c, s) && s.breaker.mode == Closed && c.failureRatio > 1.0
    requires |s.breaker.window.slots| == WINDOW_BUCKETS && Legal(c, s, events)
    ensures Run(c, s, events).breaker.mode == Closed
    decreases |events|
  {
    if events != [] {
      ClosedStays(c, s, events[0]);
      ReachableNext(c, s, events[0]);
      NeverOpens(c, Next(c, s, events[0]), events[1..]);
    }
  }

  /** A breaker can ever open exactly when its failure ratio is at most one. */
  lemma CanOpenIff(c: Config)
    requires Usable(c)
    ensures (exists s :: Reachable(c, s) && s.breaker.mode == Open) <==> c.failureRatio <= 1.0
  {
    if c.failureRatio <= 1.0 {
      StartReachable(c, 0);
      var s := FailuresOpen(c, Start(0));
    } else {
      forall s | Reachable(c, s) ensures s.breaker.mode != Open {
        var t0, events :| Legal(c, Start(t0), events) && s == Run(c, Start(t0), events);
        StartReachable(c, t0);
        NeverOpens(c, Start(t0), events);
      }
    }
  }

  /** With every such policy a snapshot can show half-open, with nothing to wait for, while a call
      would be refused: somebody else holds the probe. */
  lemma HalfOpenCanRefuse(c: Config) returns (s: System, now: int)
    requires Usable(c) && c.failureRatio <= 1.0
    ensures Reachable(c, s) && s.clock <= now && |s.breaker.window.slots| == WINDOW_BUCKETS
    ensures var snapshot := Observe(c, Rolled(c, s.breaker, now), now);
            snapshot.mode == HalfOpen && snapshot.retryIn == 0 && Asked(c, s.breaker, now).answer.Rejected?
  {
    CanOpenIff(c);
    var tripped :| Reachable(c, tripped) && tripped.breaker.mode == Open;
    ReachableInv(c, tripped);
    now := Max(tripped.clock, tripped.breaker.openedAt + c.openDuration);
    s := Next(c, tripped, Ask(now));
    ReachableNext(c, tripped, Ask(now));
  }

  // ----- Snapshots are invisible -----

  /** A call as its caller sees it: permits are passed by value. */
  datatype Call = Asking(now: int) | Reporting(permit: Permit, outcome: Outcome, now: int) | Looking(now: int)

  datatype Seen = SeenAnswer(answer: Answer, event: Option<Transition>) | SeenReport(event: Option<Transition>)

  function After(c: Config, s: State, call: Call): (t: State)
    requires Usable(c) && |s.window.slots| == WINDOW_BUCKETS
    ensures |t.window.slots| == WINDOW_BUCKETS
  {
    match call
    case Asking(now) => Asked(c, s, now).state
    case Reporting(p, o, now) => Reported(c, s, p, o, now).0
    case Looking(now) => Rolled(c, s, now)
  }

  /** Everything the callers other than the snapshot takers get to see. */
  function Seens(c: Config, s: State, calls: seq<Call>): seq<Seen>
    requires Usable(c) && |s.window.slots| == WINDOW_BUCKETS
    decreases |calls|
  {
    if calls == [] then []
    else
      var rest := Seens(c, After(c, s, calls[0]), calls[1..]);
      match calls[0]
      case Asking(now) => [SeenAnswer(Asked(c, s, now).answer, Asked(c, s, now).event)] + rest
      case Reporting(p, o, now) => [SeenReport(Reported(c, s, p, o, now).1)] + rest
      case Looking(_) => rest
  }

  function WithoutLooks(calls: seq<Call>): seq<Call> {
    if calls == [] then []
    else if calls[0].Looking? then WithoutLooks(calls[1..])
    else [calls[0]] + WithoutLooks(calls[1..])
  }

  predicate Timed(calls: seq<Call>, from: int) {
    calls == [] || (from <= calls[0].now && Timed(calls[1..], calls[0].now))
  }

  /** States no caller can tell apart from `now` on: equal once both windows are rolled to `now`. */
  ghost predicate Alike(c: Config, s: State, t: State, now: int) {
    && Usable(c)
    && |s.window.slots| == |t.window.slots| == WINDOW_BUCKETS
    && Rolled(c, s, now) == Rolled(c, t, now)
  }

  lemma AlikeLater(c: Config, s: State, t: State, now: int, later: int)
    requires Alike(c, s, t, now) && now <= later
    ensures Alike(c, s, t, later)
  {
    AdvanceTwice(s.window, BucketWidth(c), now, later);
    AdvanceTwice(t.window, BucketWidth(c), now, later);
  }

  lemma LookingAlike(c: Config, s: State, now: int)
    requires Usable(c) && |s.window.slots| == WINDOW_BUCKETS
    ensures Alike(c, Rolled(c, s, now), s, now)
  {
    AdvanceTwice(s.window, BucketWidth(c), now, now);
  }

  lemma AfterAlike(c: Config, s: State, t: State, call: Call)
    requires Alike(c, s, t, call.now) && !call.Looking?
    ensures Alike(c, After(c, s, call), After(c, t, call), call.now)
    ensures call.Asking? ==> Asked(c, s, call.now) == Asked(c, t, call.now)
    ensures call.Reporting? ==>
      Reported(c, s, call.permit, call.outcome, call.now).1 == Reported(c, t, call.permit, call.outcome, call.now).1
  {
  }

  lemma {:induction false} SeensAlike(c: Config, s: State, t: State, calls: seq<Call>, from: int)
    requires Alike(c, s, t, from) && Timed(calls, from)
    ensures Seens(c, s, calls) == Seens(c, t, WithoutLooks(calls))
    decreases |calls|
  {
    if calls != [] {
      var call := calls[0];
      AlikeLater(c, s, t, from, call.now);
      if call.Looking? {
        LookingAlike(c, s, call.now);
        SeensAlike(c, Rolled(c, s, call.now), t, calls[1..], call.now);
      } else {
        AfterAlike(c, s, t, call);
        SeensAlike(c, After(c, s, call), After(c, t, call), calls[1..], call.now);
        var kept := WithoutLooks(calls);
        assert kept[0] == call && kept[1..] == WithoutLooks(calls[1..]);
      }
    }
  }

  /** Removing every snapshot from a run changes no answer, no transition and no snapshot attached
      to a transition. */
  lemma SnapshotsInvisible(c: Config, s: State, calls: seq<Call>, from: int)
    requires Usable(c) && |s.window.slots| == WINDOW_BUCKETS && Timed(calls, from)
    ensures Seens(c, s, calls) == Seens(c, s, WithoutLooks(calls))
  {
    SeensAlike(c, s, s, calls, from);
  }
}
