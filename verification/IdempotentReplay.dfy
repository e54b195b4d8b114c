/** From rows and fingerprints back to requests: what a replay means in terms of HTTP. */
module IdempotentReplay {
  import opened Idempotency
  import opened ResponseRecorder

  /** The parts of a request that decide its row and fingerprint. */
  datatype Http = Http(user: string, verb: string, path: string, clientKey: string, body: string)

  function SlotOf(q: Http): Slot {
    Slot(q.user, ScopedKey(q.verb, q.path, q.clientKey))
  }

  /** Every request in the world came in as this HTTP request. */
  ghost predicate CameInAs(w: World, hash: string -> string, http: map<nat, Http>) {
    forall i | i in w.requests ::
      && i in http
      && w.requests[i].slot == SlotOf(http[i])
      && w.requests[i].fingerprint == hash(FingerprintText(http[i].verb, http[i].path, http[i].body))
  }

  /** Every copy in the world was kept by a recorder during these calls of the handler. */
  ghost predicate HandledAs(w: World, calls: map<nat, seq<Call>>) {
    forall a | a in w.copies ::
      && a in calls && FirstStatus(calls[a]) != 0
      && w.copies[a].status == RecordedAll(NEW_RECORDING, calls[a]).status
      && w.copies[a].body == RecordedAll(NEW_RECORDING, calls[a]).body
  }

  /** What the client of a request that ran its handler with these calls received. */
  function Received(calls: seq<Call>): Sent {
    Finished(RecordedAll(NEW_RECORDING, calls).sent)
  }

  /** Over every run, with whatever failures, crashes and expiries: what a replay sends, informational
      headers, status and body, is what the client of the completed execution received, whatever
      calls its handler made. */
  lemma ReplaySendsWhatWasReceived(trace: seq<Action>, calls: map<nat, seq<Call>>, i: nat)
    requires Legal(EMPTY_WORLD, trace) && HandledAs(Run(EMPTY_WORLD, trace), calls)
    requires Replaying(Run(EMPTY_WORLD, trace), i)
    ensures var w := Run(EMPTY_WORLD, trace); var r := w.requests[i].phase.reply;
            && r.author in calls && r.author in w.requests && w.requests[r.author].slot == w.requests[i].slot
            && Replay(r.response.status, r.response.body) == Received(calls[r.author])
  {
    ReplaysAreAuthentic(trace, i);
    var r := Run(EMPTY_WORLD, trace).requests[i].phase.reply;
    ReplayDeliversSameIff(calls[r.author]);
  }

  /** Over every run in which no row expires under its owner: a request answered from the row it lost
      its claim to is sent what the client of an identical request received, same user, method, path,
      key and body, whatever calls the handler made. */
  lemma ReplayIsForSameRequest(
      trace: seq<Action>, hash: string -> string, http: map<nat, Http>, calls: map<nat, seq<Call>>, i: nat)
    requires Legal(EMPTY_WORLD, trace) && Patient(EMPTY_WORLD, trace)
    requires forall s, t :: hash(s) == hash(t) ==> s == t
    requires CameInAs(Run(EMPTY_WORLD, trace), hash, http) && HandledAs(Run(EMPTY_WORLD, trace), calls)
    requires Replaying(Run(EMPTY_WORLD, trace), i) && Run(EMPTY_WORLD, trace).requests[i].phase.reply.sameRow
    ensures var w := Run(EMPTY_WORLD, trace); var r := w.requests[i].phase.reply;
            && i in http && r.author in http && http[i] == http[r.author]
            && r.author in calls && Replay(r.response.status, r.response.body) == Received(calls[r.author])
  {
    ReplaySendsWhatWasReceived(trace, calls, i);
    PatientRunsAreExclusive(trace, i, i);
    var w := Run(EMPTY_WORLD, trace);
    var a, b := http[i], http[w.requests[i].phase.reply.author];
    SameRowSameRequest(hash, a.verb, a.path, a.clientKey, a.body, b.verb, b.path, b.clientKey, b.body);
  }
}
