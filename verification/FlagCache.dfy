/** The read-through flag cache: its critical sections in place, and every interleaving of lookups,
    source reads, cache writes and invalidations. The source is any history of answers, one per flag
    and instant. */
module FlagCache {
  import opened Options
  import opened Arithmetic

  /** A definitive answer: the flag, or that there is none. */
  datatype Answer = Found(flag: string) | NotFound

  datatype SourceResult = Definitive(answer: Answer) | Transient

  /** A cached answer; `readAt` and `wroteAt` note when it was read from the source and when it was
      put in the cache, which the cache itself does not keep. */
  datatype Entry = Entry(answer: Answer, expires: int, readAt: int, wroteAt: int)

  type Entries = map<string, Entry>

  predicate Fresh(e: Option<Entry>, now: int) {
    e.Some? && now < e.value.expires
  }

  function Lookup(m: Entries, name: string): Option<Entry> {
    if name in m then Some(m[name]) else None
  }

  function Stored(m: Entries, ttl: int, name: string, answer: Answer, readAt: int, now: int): Entries {
    m[name := Entry(answer, now + ttl, readAt, now)]
  }

  class Cache {
    const ttl: int
    var entries: Entries

    constructor (ttl: int)
      ensures this.ttl == (if ttl <= 0 then 30_000_000_000 else ttl) && entries == map[]
    {
      this.ttl := if ttl <= 0 then 30_000_000_000 else ttl;
      entries := map[];
    }

    /** The first critical section of a lookup. */
    method Look(name: string) returns (entry: Option<Entry>)
      ensures entry == Lookup(entries, name)
    {
      return if name in entries then Some(entries[name]) else None;
    }

    /** The second one, after the source gave a definitive answer. */
    method Put(name: string, answer: Answer, readAt: int, now: int)
      modifies this
      ensures entries == Stored(old(entries), ttl, name, answer, readAt, now)
    {
      entries := entries[name := Entry(answer, now + ttl, readAt, now)];
    }

    /** A call that nothing interrupts; `fetched` is what the source would answer at `readAt`, and
        the three instants are the readings of the clock along the way. */
    method Get(name: string, now: int, fetched: SourceResult, readAt: int, wroteAt: int) returns (r: SourceResult)
      modifies this
      ensures Fresh(Lookup(old(entries), name), now) ==>
                entries == old(entries) && r == Definitive(old(entries)[name].answer)
      ensures !Fresh(Lookup(old(entries), name), now) ==>
                && r == fetched
                && entries == (if fetched.Definitive?
                               then Stored(old(entries), ttl, name, fetched.answer, readAt, wroteAt)
                               else old(entries))
    {
      var entry := Look(name);
      if entry.Some? && now < entry.value.expires {
        return Definitive(entry.value.answer);
      }
      r := fetched;
      if r.Definitive? {
        Put(name, r.answer, readAt, wroteAt);
      }
    }

    method Invalidate(name: string)
      modifies this
      ensures entries == old(entries) - {name}
    {
      entries := entries - {name};
    }

    method InvalidateAll()
      modifies this
      ensures entries == map[]
    {
      entries := map[];
    }
  }

  // ----- Interleaved calls -----

  datatype Phase =
    | Looked(entry: Option<Entry>)                                   // read the cache, clock not yet read
    | Missed                                                         // about to ask the source
    | Fetched(answer: Answer, readAt: int)                           // answer in hand, not yet cached
    | Served(answer: Answer, readAt: int, at: int, cached: bool)
    | Failed

  datatype Get = Get(name: string, phase: Phase)

  /** `longest` is the longest any call so far took from reading the source to writing the cache. */
  datatype State = State(entries: Entries, gets: map<nat, Get>, clock: int, longest: int)

  datatype Step =
    | Look(id: nat, name: string, now: int)
    | Decide(id: nat, now: int)
    | AskSource(id: nat, transient: bool, now: int)
    | Write(id: nat, now: int)
    | Invalidate(name: string, now: int)
    | InvalidateAll(now: int)

  function PhaseOf(s: State, id: nat): Phase {
    if id in s.gets then s.gets[id].phase else Failed
  }

  predicate Enabled(s: State, a: Step) {
    && s.clock <= a.now
    && match a
       case Look(id, _, _) => id !in s.gets
       case Decide(id, _) => PhaseOf(s, id).Looked?
       case AskSource(id, _, _) => PhaseOf(s, id).Missed?
       case Write(id, _) => PhaseOf(s, id).Fetched?
       case Invalidate(_, _) => true
       case InvalidateAll(_) => true
  }

  function To(s: State, id: nat, phase: Phase, now: int): State
    requires id in s.gets
  {
    s.(gets := s.gets[id := s.gets[id].(phase := phase)], clock := now)
  }

  function Next(ttl: int, source: (string, int) -> Answer, s: State, a: Step): State
    requires Enabled(s, a)
  {
    match a
    case Look(id, name, now) =>
      s.(gets := s.gets[id := Get(name, Looked(Lookup(s.entries, name)))], clock := now)
    case Decide(id, now) =>
      var e := s.gets[id].phase.entry;
      To(s, id, if Fresh(e, now) then Served(e.value.answer, e.value.readAt, now, true) else Missed, now)
    case AskSource(id, transient, now) =>
      To(s, id, if transient then Failed else Fetched(source(s.gets[id].name, now), now), now)
    case Write(id, now) =>
      var g := s.gets[id];
      var p := g.phase;
      To(s.(entries := Stored(s.entries, ttl, g.name, p.answer, p.readAt, now),
            longest := if now - p.readAt > s.longest then now - p.readAt else s.longest),
         id, Served(p.answer, p.readAt, now, false), now)
    case Invalidate(name, now) => s.(entries := s.entries - {name}, clock := now)
    case InvalidateAll(now) => s.(entries := map[], clock := now)
  }

  predicate Legal(ttl: int, source: (string, int) -> Answer, s: State, steps: seq<Step>)
    decreases |steps|
  {
    steps == [] || (Enabled(s, steps[0]) && Legal(ttl, source, Next(ttl, source, s, steps[0]), steps[1..]))
  }

  function Run(ttl: int, source: (string, int) -> Answer, s: State, steps: seq<Step>): State
    requires Legal(ttl, source, s, steps)
    decreases |steps|
  {
    if steps == [] then s else Run(ttl, source, Next(ttl, source, s, steps[0]), steps[1..])
  }

  function Empty(now: int): State {
    State(map[], map[], now, 0)
  }

  // ----- Staleness -----

  predicate EntryOk(ttl: int, source: (string, int) -> Answer, s: State, name: string, e: Entry) {
    && e.answer == source(name, e.readAt)
    && e.readAt <= e.wroteAt <= s.clock
    && e.wroteAt - e.readAt <= s.longest
    && e.expires == e.wroteAt + ttl
  }

  predicate GetOk(ttl: int, source: (string, int) -> Answer, s: State, g: Get) {
    match g.phase
    case Looked(e) => e.Some? ==> EntryOk(ttl, source, s, g.name, e.value)
    case Missed => true
    case Fetched(answer, readAt) => answer == source(g.name, readAt) && readAt <= s.clock
    case Served(answer, readAt, at, cached) =>
      && answer == source(g.name, readAt)
      && readAt <= at <= s.clock
      && (cached ==> at - ttl - s.longest < readAt)
    case Failed => true
  }

  ghost predicate Inv(ttl: int, source: (string, int) -> Answer, s: State) {
    && (forall n | n in s.entries :: EntryOk(ttl, source, s, n, s.entries[n]))
    && (forall i | i in s.gets :: GetOk(ttl, source, s, s.gets[i]))
  }

  lemma NextKeepsInv(ttl: int, source: (string, int) -> Answer, s: State, a: Step)
    requires Inv(ttl, source, s) && Enabled(s, a)
    ensures Inv(ttl, source, Next(ttl, source, s, a))
  {
    var t := Next(ttl, source, s, a);
    forall n | n in t.entries ensures EntryOk(ttl, source, t, n, t.entries[n]) {
      if n in s.entries {
        assert EntryOk(ttl, source, s, n, s.entries[n]);
      }
      if a.Write? {
        assert GetOk(ttl, source, s, s.gets[a.id]);
      }
    }
    forall i | i in t.gets ensures GetOk(ttl, source, t, t.gets[i]) {
      if i in s.gets {
        assert GetOk(ttl, source, s, s.gets[i]);
      }
    }
  }

  lemma {:induction false} RunKeepsInv(ttl: int, source: (string, int) -> Answer, s: State, steps: seq<Step>)
    requires Inv(ttl, source, s) && Legal(ttl, source, s, steps)
    ensures Inv(ttl, source, Run(ttl, source, s, steps))
    decreases |steps|
  {
    if steps != [] {
      NextKeepsInv(ttl, source, s, steps[0]);
      RunKeepsInv(ttl, source, Next(ttl, source, s, steps[0]), steps[1..]);
    }
  }

  /** Bounded staleness. However calls interleave and whichever invalidations are lost, an answer
      served from the cache at `t` was the source's answer at some instant after
      `t - ttl - longest` and no later than `t`; one not served from the cache was the source's
      answer at an instant no later than `t` too. */
  lemma StalenessBounded(ttl: int, source: (string, int) -> Answer, start: int, steps: seq<Step>, id: nat)
    requires Legal(ttl, source, Empty(start), steps)
    requires PhaseOf(Run(ttl, source, Empty(start), steps), id).Served?
    ensures var s := Run(ttl, source, Empty(start), steps); var p := s.gets[id].phase;
            && p.answer == source(s.gets[id].name, p.readAt)
            && p.readAt <= p.at
            && (p.cached ==> p.at - ttl - s.longest < p.readAt)
  {
    RunKeepsInv(ttl, source, Empty(start), steps);
    var s := Run(ttl, source, Empty(start), steps);
    assert GetOk(ttl, source, s, s.gets[id]);
  }

  // ----- Invalidation -----

  predicate Carries(s: State, i: nat, name: string, since: int) {
    PhaseOf(s, i).Fetched? && s.gets[i].name == name && s.gets[i].phase.readAt < since
  }

  /** Some call for the flag is between reading the source, before `since`, and writing the cache. */
  ghost predicate InFlight(s: State, name: string, since: int) {
    exists i :: Carries(s, i, name, since)
  }

  /** Nothing about the flag that is older than `since` is cached, on its way into the cache, or in
      the hands of a call that began later than the calls in `before`. */
  ghost predicate Renewed(s: State, name: string, since: int, before: set<nat>) {
    && since <= s.clock
    && (name in s.entries ==> s.entries[name].readAt >= since)
    && !InFlight(s, name, since)
    && (forall i | i in s.gets && i !in before && s.gets[i].name == name ::
          match s.gets[i].phase
          case Looked(e) => e.Some? ==> e.value.readAt >= since
          case Served(_, readAt, _, _) => readAt >= since
          case _ => true)
  }

  lemma NextKeepsRenewed(ttl: int, source: (string, int) -> Answer, s: State, a: Step, name: string, since: int, before: set<nat>)
    requires Renewed(s, name, since, before) && Enabled(s, a) && before <= s.gets.Keys
    ensures Renewed(Next(ttl, source, s, a), name, since, before)
  {
    var t := Next(ttl, source, s, a);
    forall i: nat ensures !Carries(t, i, name, since) {
      assert !Carries(s, i, name, since);
    }
    if a.Write? {
      assert !Carries(s, a.id, name, since);
    }
  }

  lemma {:induction false} RunKeepsRenewed(
      ttl: int, source: (string, int) -> Answer, s: State, steps: seq<Step>, name: string, since: int, before: set<nat>)
    requires Renewed(s, name, since, before) && Legal(ttl, source, s, steps) && before <= s.gets.Keys
    ensures Renewed(Run(ttl, source, s, steps), name, since, before)
    decreases |steps|
  {
    if steps != [] {
      NextKeepsRenewed(ttl, source, s, steps[0], name, since, before);
      RunKeepsRenewed(ttl, source, Next(ttl, source, s, steps[0]), steps[1..], name, since, before);
    }
  }

  /** After the steps, a call that began after `s` was served something read before `since`. */
  ghost predicate ServesOld(
      ttl: int, source: (string, int) -> Answer, s: State, steps: seq<Step>, name: string, since: int, id: nat)
  {
    && Legal(ttl, source, s, steps) && id !in s.gets
    && var t := Run(ttl, source, s, steps);
       PhaseOf(t, id).Served? && t.gets[id].name == name && t.gets[id].phase.readAt < since
  }

  lemma InFlightServesOld(ttl: int, source: (string, int) -> Answer, s: State, name: string, since: int)
    returns (steps: seq<Step>, id: nat)
    requires ttl > 0 && InFlight(s, name, since)
    ensures ServesOld(ttl, source, s, steps, name, since, id)
  {
    var i :| Carries(s, i, name, since);
    id := Above(s.gets.Keys);
    var w, l, d := Write(i, s.clock), Look(id, name, s.clock), Decide(id, s.clock);
    var s1 := Next(ttl, source, s, w);
    var s2 := Next(ttl, source, s1, l);
    var s3 := Next(ttl, source, s2, d);
    steps := [w, l, d];
    assert steps[1..] == [l, d] && [l, d][1..] == [d] && [d][1..] == [];
    assert Legal(ttl, source, s3, []) && Run(ttl, source, s3, []) == s3;
    assert Legal(ttl, source, s2, [d]) && Run(ttl, source, s2, [d]) == s3;
    assert Legal(ttl, source, s1, [l, d]) && Run(ttl, source, s1, [l, d]) == s3;
  }

  /** An invalidation, of the flag or of everything, is effective, in that every call that begins
      after it returns an answer read no earlier than it, exactly when no call for that flag is just
      then between its source read and its cache write. */
  lemma InvalidationEffectiveIff(
      ttl: int, source: (string, int) -> Answer, start: int, prior: seq<Step>, name: string, now: int, a: Step)
    requires ttl > 0 && Legal(ttl, source, Empty(start), prior)
    requires a == Invalidate(name, now) || a == InvalidateAll(now)
    requires Run(ttl, source, Empty(start), prior).clock <= now
    ensures var s := Run(ttl, source, Empty(start), prior);
            var t := Next(ttl, source, s, a);
            (forall steps, id :: !ServesOld(ttl, source, t, steps, name, now, id)) <==> !InFlight(s, name, now)
  {
    var s := Run(ttl, source, Empty(start), prior);
    var t := Next(ttl, source, s, a);
    assert forall i: nat :: Carries(t, i, name, now) <==> Carries(s, i, name, now);
    if InFlight(s, name, now) {
      var steps, id := InFlightServesOld(ttl, source, t, name, now);
    } else {
      forall steps, id ensures !ServesOld(ttl, source, t, steps, name, now, id) {
        if ServesOld(ttl, source, t, steps, name, now, id) {
          RunKeepsRenewed(ttl, source, t, steps, name, now, t.gets.Keys);
        }
      }
    }
  }

  // ----- What the cache saves -----

  /** A source read that fails serves nothing and caches nothing: the next call asks again. */
  lemma FailureNotCached(ttl: int, source: (string, int) -> Answer, s: State, id: nat, now: int)
    requires Enabled(s, AskSource(id, true, now))
    ensures var t := Next(ttl, source, s, AskSource(id, true, now));
            t.entries == s.entries && PhaseOf(t, id) == Failed
  {
  }

  /** The step does not touch what is cached for the flag. */
  predicate LeavesAlone(s: State, a: Step, name: string) {
    && (a.Write? ==> a.id in s.gets && s.gets[a.id].name != name)
    && (a.Invalidate? ==> a.name != name)
    && !a.InvalidateAll?
  }

  predicate AllLeaveAlone(ttl: int, source: (string, int) -> Answer, s: State, steps: seq<Step>, name: string)
    requires Legal(ttl, source, s, steps)
    decreases |steps|
  {
    steps == [] ||
    (LeavesAlone(s, steps[0], name) && AllLeaveAlone(ttl, source, Next(ttl, source, s, steps[0]), steps[1..], name))
  }

  lemma {:induction false} EntryStays(ttl: int, source: (string, int) -> Answer, s: State, steps: seq<Step>, name: string)
    requires Legal(ttl, source, s, steps) && AllLeaveAlone(ttl, source, s, steps, name) && name in s.entries
    ensures var t := Run(ttl, source, s, steps); name in t.entries && t.entries[name] == s.entries[name]
    decreases |steps|
  {
    if steps != [] {
      EntryStays(ttl, source, Next(ttl, source, s, steps[0]), steps[1..], name);
    }
  }

  /** Once a call has put its answer in the cache, and until the flag is invalidated or written again,
      every call that looks within the time to live is served that answer without asking the source. */
  lemma CachedAnswerServed(
      ttl: int, source: (string, int) -> Answer, s: State, id: nat, now: int, steps: seq<Step>, j: nat, look: int, decide: int)
    requires Enabled(s, Write(id, now)) && Legal(ttl, source, Next(ttl, source, s, Write(id, now)), steps)
    requires AllLeaveAlone(ttl, source, Next(ttl, source, s, Write(id, now)), steps, s.gets[id].name)
    requires var t := Run(ttl, source, Next(ttl, source, s, Write(id, now)), steps); j !in t.gets && t.clock <= look <= decide
    requires decide < now + ttl
    ensures var t := Run(ttl, source, Next(ttl, source, s, Write(id, now)), steps);
            var looked := Next(ttl, source, t, Look(j, s.gets[id].name, look));
            var p := s.gets[id].phase;
            PhaseOf(Next(ttl, source, looked, Decide(j, decide)), j) == Served(p.answer, p.readAt, decide, true)
  {
    EntryStays(ttl, source, Next(ttl, source, s, Write(id, now)), steps, s.gets[id].name);
  }
}
