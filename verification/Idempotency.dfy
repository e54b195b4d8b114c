/** The idempotency protocol as a step relation: any number of requests, on any number of
    instances, sharing one store of key rows. Each call on the store is one atomic step and may
    fail, with or without having taken effect; handlers may panic and processes may die. */
module Idempotency {
  import opened Arithmetic

  const COMPLETE_MAX_RETRIES: nat := 3

  datatype Response = Response(status: int, body: string, contentType: string)

  /** The primary key of a row: the user and the client's key bound to one endpoint. */
  datatype Slot = Slot(user: string, key: string)

  /** A stored row. `claim` numbers the claims in order, `owner` is the request whose claim made
      the row and `author` the request whose response it holds; the store itself keeps only the
      fingerprint, the status and the response. */
  datatype Row = Row(fingerprint: string, done: bool, response: Response, claim: nat, owner: nat, author: nat)

  datatype Reply =
    | Served                                                     // ran the handler
    | Replayed(response: Response, author: nat, sameRow: bool)   // sameRow: the row it lost its claim to
    | Conflict
    | TooEarly
    | Errored
    | Crashed

  datatype Phase =
    | Arrived
    | Executing
    | Storing(response: Response, attempt: nat)
    | Releasing
    | Waiting(claim: nat)
    | Ended(reply: Reply)

  datatype Request = Request(slot: Slot, fingerprint: string, phase: Phase)

  /** `copies` is the copy of its response that each executed handler left behind; `runs` counts
      handler starts and `removals` counts rows deleted by a release or by expiry, both by slot. */
  datatype World = World(
    rows: map<Slot, Row>, requests: map<nat, Request>, copies: map<nat, Response>,
    claims: nat, runs: multiset<Slot>, removals: multiset<Slot>)

  datatype Action =
    | Arrive(id: nat, slot: Slot, fingerprint: string)
    | Claim(id: nat)
    | ClaimFails(id: nat, effect: bool)
    | HandlerReturns(id: nat, response: Response)
    | HandlerPanics(id: nat)
    | Complete(id: nat)
    | CompleteFails(id: nat, effect: bool)
    | GiveUpCompleting(id: nat)
    | Release(id: nat, effect: bool)
    | Poll(id: nat)
    | StopPolling(id: nat)
    | Crash(id: nat)
    | Expire(slot: Slot)

  const EMPTY_WORLD := World(map[], map[], map[], 0, multiset{}, multiset{})

  // ----- One step -----

  /** The phase of a request; one that never arrived counts as ended. */
  function PhaseOf(w: World, id: nat): Phase {
    if id in w.requests then w.requests[id].phase else Ended(Errored)
  }

  predicate Replaying(w: World, id: nat) {
    PhaseOf(w, id).Ended? && PhaseOf(w, id).reply.Replayed?
  }

  predicate Enabled(w: World, a: Action) {
    match a
    case Arrive(id, _, _) => id !in w.requests
    case Claim(id) => PhaseOf(w, id).Arrived?
    case ClaimFails(id, effect) =>
      PhaseOf(w, id).Arrived? && (effect ==> w.requests[id].slot !in w.rows)
    case HandlerReturns(id, _) => PhaseOf(w, id).Executing?
    case HandlerPanics(id) => PhaseOf(w, id).Executing?
    case Complete(id) => PhaseOf(w, id).Storing?
    case CompleteFails(id, _) => PhaseOf(w, id).Storing?
    case GiveUpCompleting(id) => PhaseOf(w, id).Storing? && PhaseOf(w, id).attempt > 0
    case Release(id, _) => PhaseOf(w, id).Releasing?
    case Poll(id) => PhaseOf(w, id).Waiting?
    case StopPolling(id) => PhaseOf(w, id).Waiting?
    case Crash(id) => !PhaseOf(w, id).Ended?
    case Expire(slot) => slot in w.rows
  }

  function To(w: World, id: nat, phase: Phase): World
    requires id in w.requests
  {
    w.(requests := w.requests[id := w.requests[id].(phase := phase)])
  }

  function Insert(w: World, id: nat): World
    requires id in w.requests
  {
    var q := w.requests[id];
    w.(rows := w.rows[q.slot := Row(q.fingerprint, false, Response(0, "", ""), w.claims, id, id)],
       claims := w.claims + 1)
  }

  function Remove(w: World, slot: Slot): World {
    w.(rows := w.rows - {slot}, removals := w.removals + multiset{slot})
  }

  /** The update addresses the row by slot alone, so it also hits a row somebody else made. */
  function Store(w: World, id: nat, response: Response): World
    requires id in w.requests
  {
    var slot := w.requests[id].slot;
    if slot !in w.rows then w
    else w.(rows := w.rows[slot := w.rows[slot].(done := true, response := response, author := id)])
  }

  /** What a request that lost its claim is told, given the row it met. */
  function Existing(row: Row, fingerprint: string): Phase {
    if row.fingerprint != fingerprint then Ended(Conflict)
    else if row.done then Ended(Replayed(row.response, row.author, true))
    else Waiting(row.claim)
  }

  function Act(w: World, a: Action): World
    requires Enabled(w, a)
  {
    match a
    case Arrive(id, slot, fingerprint) =>
      w.(requests := w.requests[id := Request(slot, fingerprint, Arrived)])
    case Claim(id) =>
      var q := w.requests[id];
      if q.slot in w.rows then To(w, id, Existing(w.rows[q.slot], q.fingerprint))
      else To(Insert(w, id), id, Executing).(runs := w.runs + multiset{q.slot})
    case ClaimFails(id, effect) => To(if effect then Insert(w, id) else w, id, Ended(Errored))
    case HandlerReturns(id, response) => To(w, id, Storing(response, 0)).(copies := w.copies[id := response])
    case HandlerPanics(id) => To(w, id, Releasing)
    case Complete(id) => To(Store(w, id, w.requests[id].phase.response), id, Ended(Served))
    case CompleteFails(id, effect) =>
      var p := w.requests[id].phase;
      To(if effect then Store(w, id, p.response) else w, id,
         if p.attempt + 1 < COMPLETE_MAX_RETRIES then p.(attempt := p.attempt + 1) else Releasing)
    case GiveUpCompleting(id) => To(w, id, Releasing)
    case Release(id, effect) =>
      var slot := w.requests[id].slot;
      To(if effect && slot in w.rows && !w.rows[slot].done then Remove(w, slot) else w, id, Ended(Served))
    case Poll(id) =>
      var q := w.requests[id];
      if q.slot !in w.rows then To(w, id, Ended(TooEarly))
      else
        var row := w.rows[q.slot];
        if row.done then To(w, id, Ended(Replayed(row.response, row.author, row.claim == q.phase.claim))) else w
    case StopPolling(id) => To(w, id, Ended(TooEarly))
    case Crash(id) => To(w, id, Ended(Crashed))
    case Expire(slot) => Remove(w, slot)
  }

  predicate Legal(w: World, trace: seq<Action>)
    decreases |trace|
  {
    trace == [] || (Enabled(w, trace[0]) && Legal(Act(w, trace[0]), trace[1..]))
  }

  function Run(w: World, trace: seq<Action>): World
    requires Legal(w, trace)
    decreases |trace|
  {
    if trace == [] then w else Run(Act(w, trace[0]), trace[1..])
  }

  // ----- What every run keeps -----

  ghost predicate CountInv(w: World) {
    forall k: Slot :: w.runs[k] <= w.removals[k] + if k in w.rows then 1 else 0
  }

  /** The response is the copy left behind by request `author`, a request on `slot`. */
  predicate Copied(w: World, author: nat, response: Response, slot: Slot) {
    && author in w.copies && w.copies[author] == response
    && author in w.requests && w.requests[author].slot == slot
  }

  predicate RowOk(w: World, k: Slot)
    requires k in w.rows
  {
    var row := w.rows[k];
    && row.claim < w.claims
    && row.owner in w.requests
    && w.requests[row.owner].slot == k
    && w.requests[row.owner].fingerprint == row.fingerprint
    && (row.done ==> Copied(w, row.author, row.response, k))
  }

  predicate RequestOk(w: World, i: nat)
    requires i in w.requests
  {
    var q := w.requests[i];
    match q.phase
    case Arrived => i !in w.copies
    case Executing => i !in w.copies
    case Storing(response, attempt) => Copied(w, i, response, q.slot) && attempt < COMPLETE_MAX_RETRIES
    case Releasing => true
    case Waiting(claim) =>
      && claim < w.claims
      && (q.slot in w.rows && w.rows[q.slot].claim == claim ==> w.rows[q.slot].fingerprint == q.fingerprint)
    case Ended(reply) => reply.Replayed? ==> Copied(w, reply.author, reply.response, q.slot)
  }

  ghost predicate Inv(w: World) {
    && CountInv(w)
    && w.copies.Keys <= w.requests.Keys
    && (forall k | k in w.rows :: RowOk(w, k))
    && (forall i | i in w.requests :: RequestOk(w, i))
  }

  /** What was copied stays copied. */
  lemma ActKeepsCopied(w: World, a: Action, author: nat, response: Response, slot: Slot)
    requires Inv(w) && Enabled(w, a) && Copied(w, author, response, slot)
    ensures Copied(Act(w, a), author, response, slot)
  {
    if a.HandlerReturns? && a.id == author {
      assert RequestOk(w, author);
    }
  }

  lemma ActKeepsCount(w: World, a: Action)
    requires Inv(w) && Enabled(w, a)
    ensures CountInv(Act(w, a))
  {
  }

  /** The three ways a row present after a step can relate to the world before it. */
  predicate RowStep(w: World, a: Action, k: Slot, row: Row) {
    || (k in w.rows && row == w.rows[k])
    || (&& (a.Claim? || a.ClaimFails?) && a.id in w.requests && k !in w.rows
        && w.requests[a.id].slot == k
        && row == Row(w.requests[a.id].fingerprint, false, Response(0, "", ""), w.claims, a.id, a.id))
    || (&& (a.Complete? || a.CompleteFails?) && PhaseOf(w, a.id).Storing? && k in w.rows
        && w.requests[a.id].slot == k
        && row == w.rows[k].(done := true, response := w.requests[a.id].phase.response, author := a.id))
  }

  lemma ActOnRow(w: World, a: Action, k: Slot)
    requires Enabled(w, a) && k in Act(w, a).rows
    ensures RowStep(w, a, k, Act(w, a).rows[k])
    ensures k !in w.rows ==> Act(w, a).claims == w.claims + 1
  {
  }

  lemma ActKeepsIdentity(w: World, a: Action, i: nat)
    requires Enabled(w, a) && i in w.requests
    ensures var v := Act(w, a);
            && i in v.requests && v.claims >= w.claims
            && v.requests[i].slot == w.requests[i].slot
            && v.requests[i].fingerprint == w.requests[i].fingerprint
  {
    match a
    case Arrive(_, _, _) =>
    case Claim(_) =>
    case ClaimFails(_, _) =>
    case Complete(_) =>
    case CompleteFails(_, _) =>
    case Release(_, _) =>
    case Poll(_) =>
    case _ =>
  }

  lemma ActOnPhase(w: World, a: Action, i: nat)
    requires Enabled(w, a) && i in w.requests && (a.Arrive? || a.Expire? || a.id != i)
    ensures i in Act(w, a).requests && Act(w, a).requests[i] == w.requests[i]
  {
  }

  lemma ActOnRequest(w: World, a: Action, i: nat)
    requires Enabled(w, a) && i in w.requests
    ensures var v := Act(w, a);
            && i in v.requests && v.claims >= w.claims
            && v.requests[i].slot == w.requests[i].slot
            && v.requests[i].fingerprint == w.requests[i].fingerprint
            && (v.requests[i].phase != w.requests[i].phase ==> !a.Arrive? && !a.Expire? && a.id == i)
  {
    ActKeepsIdentity(w, a, i);
    if a.Arrive? || a.Expire? || a.id != i {
      ActOnPhase(w, a, i);
    }
  }

  lemma ActKeepsRow(w: World, a: Action, k: Slot)
    requires Inv(w) && Enabled(w, a) && k in Act(w, a).rows
    ensures RowOk(Act(w, a), k)
  {
    ActOnRow(w, a, k);
    var row := Act(w, a).rows[k];
    ActOnRequestOf(w, a, row);
    if k in w.rows {
      assert RowOk(w, k);
    }
    if row.done {
      if k in w.rows && row == w.rows[k] {
        ActKeepsCopied(w, a, row.author, row.response, k);
      } else {
        assert RequestOk(w, a.id);
        ActKeepsCopied(w, a, a.id, row.response, k);
      }
    }
  }

  lemma ActOnRequestOf(w: World, a: Action, row: Row)
    requires Enabled(w, a)
    ensures row.owner in w.requests ==>
              var v := Act(w, a);
              && row.owner in v.requests && v.claims >= w.claims
              && v.requests[row.owner].slot == w.requests[row.owner].slot
              && v.requests[row.owner].fingerprint == w.requests[row.owner].fingerprint
  {
    if row.owner in w.requests {
      ActOnRequest(w, a, row.owner);
    }
  }

  /** A request that another request's step, or nobody's, leaves alone. */
  lemma ActKeepsBystander(w: World, a: Action, i: nat)
    requires Inv(w) && Enabled(w, a) && i in w.requests && Act(w, a).requests[i].phase == w.requests[i].phase
    ensures RequestOk(Act(w, a), i)
  {
    ActOnRequest(w, a, i);
    assert RequestOk(w, i);
    var q := w.requests[i];
    match q.phase
    case Storing(response, _) => ActKeepsCopied(w, a, i, response, q.slot);
    case Waiting(claim) =>
      if q.slot in Act(w, a).rows {
        ActOnRow(w, a, q.slot);
      }
    case Ended(reply) =>
      if reply.Replayed? {
        ActKeepsCopied(w, a, reply.author, reply.response, q.slot);
      }
    case _ =>
  }

  lemma ActKeepsActor(w: World, a: Action)
    requires Inv(w) && Enabled(w, a) && !a.Expire?
    requires a.id in w.requests ==> Act(w, a).requests[a.id].phase != w.requests[a.id].phase
    ensures RequestOk(Act(w, a), a.id)
  {
    if a.id in w.requests {
      assert RequestOk(w, a.id);
      var k := w.requests[a.id].slot;
      if k in w.rows {
        assert RowOk(w, k);
      }
    }
  }

  lemma ActKeepsRequest(w: World, a: Action, i: nat)
    requires Inv(w) && Enabled(w, a) && i in Act(w, a).requests
    ensures RequestOk(Act(w, a), i)
  {
    if i in w.requests && Act(w, a).requests[i].phase == w.requests[i].phase {
      ActKeepsBystander(w, a, i);
    } else {
      if i in w.requests {
        ActOnRequest(w, a, i);
      }
      ActKeepsActor(w, a);
    }
  }

  lemma ActKeepsInv(w: World, a: Action)
    requires Inv(w) && Enabled(w, a)
    ensures Inv(Act(w, a))
  {
    ActKeepsCount(w, a);
    forall k | k in Act(w, a).rows ensures RowOk(Act(w, a), k) {
      ActKeepsRow(w, a, k);
    }
    forall i | i in Act(w, a).requests ensures RequestOk(Act(w, a), i) {
      ActKeepsRequest(w, a, i);
    }
  }

  lemma {:induction false} RunKeepsInv(w: World, trace: seq<Action>)
    requires Inv(w) && Legal(w, trace)
    ensures Inv(Run(w, trace))
    decreases |trace|
  {
    if trace != [] {
      ActKeepsInv(w, trace[0]);
      RunKeepsInv(Act(w, trace[0]), trace[1..]);
    }
  }

  /** Whatever fails and whoever crashes, the handler is started for one slot at most once more
      than rows of that slot were released or expired. */
  lemma HandlerRunsBounded(trace: seq<Action>, k: Slot)
    requires Legal(EMPTY_WORLD, trace)
    ensures Run(EMPTY_WORLD, trace).runs[k] <= 1 + Run(EMPTY_WORLD, trace).removals[k]
  {
    RunKeepsInv(EMPTY_WORLD, trace);
  }

  /** Whatever fails and whoever crashes, a replayed response is the copy that some handler run for
      the same slot left behind. */
  lemma ReplaysAreAuthentic(trace: seq<Action>, i: nat)
    requires Legal(EMPTY_WORLD, trace)
    requires Replaying(Run(EMPTY_WORLD, trace), i)
    ensures var w := Run(EMPTY_WORLD, trace); var r := w.requests[i].phase.reply;
            Copied(w, r.author, r.response, w.requests[i].slot)
  {
    RunKeepsInv(EMPTY_WORLD, trace);
    assert RequestOk(Run(EMPTY_WORLD, trace), i);
  }

  // ----- Runs in which no row expires under its owner -----

  /** The request still has store calls to make on behalf of its claim. */
  predicate Live(w: World, id: nat) {
    var p := PhaseOf(w, id);
    p.Executing? || p.Storing? || p.Releasing?
  }

  /** Every expiry in the trace hits a row whose claimant is through with the store. */
  predicate Patient(w: World, trace: seq<Action>)
    requires Legal(w, trace)
    decreases |trace|
  {
    trace == [] ||
    (&& (trace[0].Expire? ==> !Live(w, w.rows[trace[0].slot].owner))
     && Patient(Act(w, trace[0]), trace[1..]))
  }

  predicate Owns(w: World, i: nat) {
    i in w.requests && w.requests[i].slot in w.rows && w.rows[w.requests[i].slot].owner == i
  }

  /** A replay from the very row the request lost its claim to answers its own fingerprint. */
  predicate ReplayMatches(w: World, i: nat) {
    Replaying(w, i) && w.requests[i].phase.reply.sameRow ==>
      var author := w.requests[i].phase.reply.author;
      author in w.requests && w.requests[author].fingerprint == w.requests[i].fingerprint
  }

  ghost predicate OwnerInv(w: World) {
    && (forall i | Live(w, i) :: Owns(w, i))
    && (forall k | k in w.rows && w.rows[k].done :: w.rows[k].author == w.rows[k].owner)
    && (forall i | i in w.requests :: ReplayMatches(w, i))
  }

  lemma RowsLostBy(w: World, a: Action, k: Slot)
    requires Enabled(w, a) && k in w.rows && k !in Act(w, a).rows
    ensures a.Expire? || a.Release?
    ensures a.Expire? ==> a.slot == k
    ensures a.Release? ==> w.requests[a.id].slot == k
  {
  }

  lemma BecomesLiveBy(w: World, a: Action, i: nat)
    requires Enabled(w, a) && !Live(w, i) && Live(Act(w, a), i)
    ensures Owns(Act(w, a), i)
  {
  }

  lemma StopsLivingBy(w: World, a: Action, i: nat)
    requires Enabled(w, a) && a.Release? && Live(Act(w, a), i)
    ensures a.id != i && Live(w, a.id)
  {
  }

  lemma ActKeepsOwns(w: World, a: Action, i: nat)
    requires Inv(w) && OwnerInv(w) && Enabled(w, a) && Live(Act(w, a), i)
    requires a.Expire? ==> !Live(w, w.rows[a.slot].owner)
    ensures Owns(Act(w, a), i)
  {
    if !Live(w, i) {
      BecomesLiveBy(w, a, i);
    } else {
      assert Owns(w, i);
      var k := w.requests[i].slot;
      if k !in Act(w, a).rows {
        RowsLostBy(w, a, k);
        if a.Release? {
          StopsLivingBy(w, a, i);
        }
        assert false;
      }
      ActOnRequest(w, a, i);
      ActOnRow(w, a, k);
    }
  }

  lemma ActKeepsAuthor(w: World, a: Action, k: Slot)
    requires Inv(w) && OwnerInv(w) && Enabled(w, a) && k in Act(w, a).rows && Act(w, a).rows[k].done
    ensures Act(w, a).rows[k].author == Act(w, a).rows[k].owner
  {
    ActOnRow(w, a, k);
    if (a.Complete? || a.CompleteFails?) && w.requests[a.id].slot == k {
      assert Owns(w, a.id);
    }
  }

  lemma ActKeepsMatches(w: World, a: Action, i: nat)
    requires Inv(w) && OwnerInv(w) && Enabled(w, a) && i in w.requests
    ensures ReplayMatches(Act(w, a), i)
  {
    ActOnRequest(w, a, i);
    assert ReplayMatches(w, i) && RequestOk(w, i);
    var q := w.requests[i];
    if Replaying(w, i) {
      ActOnRequest(w, a, q.phase.reply.author);
    } else if Replaying(Act(w, a), i) {
      assert RowOk(w, q.slot);
    }
  }

  lemma ActKeepsOwner(w: World, a: Action)
    requires Inv(w) && OwnerInv(w) && Enabled(w, a)
    requires a.Expire? ==> !Live(w, w.rows[a.slot].owner)
    ensures OwnerInv(Act(w, a))
  {
    var v := Act(w, a);
    forall i | Live(v, i) ensures Owns(v, i) {
      ActKeepsOwns(w, a, i);
    }
    forall k | k in v.rows && v.rows[k].done ensures v.rows[k].author == v.rows[k].owner {
      ActKeepsAuthor(w, a, k);
    }
    forall i | i in v.requests ensures ReplayMatches(v, i) {
      if i in w.requests {
        ActKeepsMatches(w, a, i);
      }
    }
  }

  lemma {:induction false} RunKeepsOwner(w: World, trace: seq<Action>)
    requires Inv(w) && OwnerInv(w) && Legal(w, trace) && Patient(w, trace)
    ensures Inv(Run(w, trace)) && OwnerInv(Run(w, trace))
    decreases |trace|
  {
    if trace != [] {
      ActKeepsOwner(w, trace[0]);
      ActKeepsInv(w, trace[0]);
      RunKeepsOwner(Act(w, trace[0]), trace[1..]);
    }
  }

  predicate Overlap(w: World, i: nat, j: nat) {
    i != j && PhaseOf(w, i).Executing? && PhaseOf(w, j).Executing? && w.requests[i].slot == w.requests[j].slot
  }

  /** If no row expires under its owner, no two handler runs for one slot are ever under way at
      once, and a request that is answered from the row it lost its claim to gets the response to
      a request with its own fingerprint. */
  lemma PatientRunsAreExclusive(trace: seq<Action>, i: nat, j: nat)
    requires Legal(EMPTY_WORLD, trace) && Patient(EMPTY_WORLD, trace)
    ensures var w := Run(EMPTY_WORLD, trace);
            && !Overlap(w, i, j)
            && ReplayMatches(w, i)
  {
    RunKeepsOwner(EMPTY_WORLD, trace);
    var w := Run(EMPTY_WORLD, trace);
    if Overlap(w, i, j) {
      assert Live(w, i) && Live(w, j);
    }
  }

  // ----- Why the patience is needed, and where it is not enough -----

  /** Some patient run leads from `w` to `v`. */
  ghost predicate CanReach(w: World, v: World) {
    exists trace :: Legal(w, trace) && Patient(w, trace) && v == Run(w, trace)
  }

  lemma {:induction false} RunsCompose(w: World, s: seq<Action>, t: seq<Action>)
    requires Legal(w, s) && Legal(Run(w, s), t)
    ensures Legal(w, s + t) && Run(w, s + t) == Run(Run(w, s), t)
    ensures Patient(w, s) && Patient(Run(w, s), t) ==> Patient(w, s + t)
    decreases |s|
  {
    if s == [] {
      assert s + t == t;
    } else {
      RunsCompose(Act(w, s[0]), s[1..], t);
      assert (s + t)[0] == s[0] && (s + t)[1..] == s[1..] + t;
    }
  }

  lemma ReachThenStep(w: World, v: World, a: Action)
    requires CanReach(w, v) && Enabled(v, a) && !a.Expire?
    ensures CanReach(w, Act(v, a))
  {
    var trace :| Legal(w, trace) && Patient(w, trace) && v == Run(w, trace);
    var one := [a];
    assert Legal(Act(v, a), one[1..]) && Patient(Act(v, a), one[1..]) && Run(Act(v, a), one[1..]) == Act(v, a);
    RunsCompose(w, trace, one);
    assert Legal(w, trace + one) && Patient(w, trace + one) && Act(v, a) == Run(w, trace + one);
  }

  lemma ReachSelf(w: World)
    ensures CanReach(w, w)
  {
    assert Legal(w, []) && Patient(w, []) && Run(w, []) == w;
  }

  lemma ReachableInv(w: World)
    requires CanReach(EMPTY_WORLD, w)
    ensures Inv(w) && OwnerInv(w)
  {
    var trace :| Legal(EMPTY_WORLD, trace) && Patient(EMPTY_WORLD, trace) && w == Run(EMPTY_WORLD, trace);
    RunKeepsOwner(EMPTY_WORLD, trace);
  }

  /** A newcomer claims a free slot. */
  lemma Newcomer(w: World, v: World, j: nat, k: Slot, fp: string) returns (u: World)
    requires CanReach(w, v) && j !in v.requests && k !in v.rows
    ensures CanReach(w, u)
    ensures u.requests == v.requests[j := Request(k, fp, Executing)]
    ensures k in u.rows && !u.rows[k].done && u.rows[k].claim == v.claims && u.rows[k].fingerprint == fp
  {
    var a := Act(v, Arrive(j, k, fp));
    ReachThenStep(w, v, Arrive(j, k, fp));
    ReachThenStep(w, a, Claim(j));
    u := Act(a, Claim(j));
  }

  /** A request that keeps failing to store its response falls back to releasing. */
  lemma {:induction false} FallsBack(w: World, v: World, i: nat) returns (u: World)
    requires CanReach(w, v) && PhaseOf(v, i).Storing?
    ensures CanReach(w, u) && u == To(v, i, Releasing)
    decreases COMPLETE_MAX_RETRIES - PhaseOf(v, i).attempt
  {
    var next := Act(v, CompleteFails(i, false));
    ReachThenStep(w, v, CompleteFails(i, false));
    if PhaseOf(next, i).Releasing? {
      u := next;
    } else {
      u := FallsBack(w, next, i);
    }
  }

  lemma OverlapAfterExpiry(w: World, k: Slot) returns (v: World, i: nat, j: nat)
    requires Inv(w) && OwnerInv(w) && k in w.rows && Live(w, w.rows[k].owner)
    ensures CanReach(Act(w, Expire(k)), v) && Overlap(v, i, j)
  {
    var start := Act(w, Expire(k));
    var owner := w.rows[k].owner;
    assert RowOk(w, k);
    var n := Above(w.requests.Keys);
    ReachSelf(start);
    if PhaseOf(w, owner).Executing? {
      v := Newcomer(start, start, n, k, "");
      i, j := owner, n;
    } else {
      var idle := start;
      if PhaseOf(w, owner).Storing? {
        idle := FallsBack(start, start, owner);
      }
      var first := Newcomer(start, idle, n, k, "");
      ReachThenStep(start, first, Release(owner, true));
      var freed := Act(first, Release(owner, true));
      v := Newcomer(start, freed, n + 1, k, "");
      i, j := n, n + 1;
    }
  }

  /** Exactly when letting a row expire is harmless: the claimant must be through with the store.
      If it is not, then even if every later expiry is patient, two handler runs for that slot can
      end up under way at once; and that is so whether the expired row was still in progress or
      already completed. */
  lemma ExpirySafeIff(w: World, k: Slot)
    requires CanReach(EMPTY_WORLD, w) && k in w.rows
    ensures (forall v, i, j | CanReach(Act(w, Expire(k)), v) :: !Overlap(v, i, j)) <==> !Live(w, w.rows[k].owner)
  {
    ReachableInv(w);
    if Live(w, w.rows[k].owner) {
      var v, i, j := OverlapAfterExpiry(w, k);
      assert CanReach(Act(w, Expire(k)), v) && Overlap(v, i, j);
    } else {
      var start := Act(w, Expire(k));
      ActKeepsInv(w, Expire(k));
      ActKeepsOwner(w, Expire(k));
      forall v, i, j | CanReach(start, v)
        ensures !Overlap(v, i, j)
      {
        var trace :| Legal(start, trace) && Patient(start, trace) && v == Run(start, trace);
        RunKeepsOwner(start, trace);
        if Overlap(v, i, j) {
          assert Live(v, i) && Live(v, j);
        }
      }
    }
  }

  /** A request that lost its row completes the row somebody else has claimed since, and the next
      request with the newcomer's fingerprint is given its response. */
  lemma CompletesOver(start: World, v: World, o: nat, j: nat, k: Slot, fp: string) returns (u: World)
    requires CanReach(start, v) && PhaseOf(v, o).Storing? && v.requests[o].slot == k && k !in v.rows
    requires fp != v.requests[o].fingerprint && j !in v.requests && j + 1 !in v.requests
    ensures CanReach(start, u) && !ReplayMatches(u, j + 1)
  {
    var claimed := Newcomer(start, v, j, k, fp);
    var stored := Act(claimed, Complete(o));
    ReachThenStep(start, claimed, Complete(o));
    var arrived := Act(stored, Arrive(j + 1, k, fp));
    ReachThenStep(start, stored, Arrive(j + 1, k, fp));
    u := Act(arrived, Claim(j + 1));
    ReachThenStep(start, arrived, Claim(j + 1));
    assert u.requests[j + 1].phase == Ended(Replayed(stored.rows[k].response, o, true));
  }

  /** The handler returns. */
  lemma Returns(start: World, v: World, o: nat) returns (u: World)
    requires CanReach(start, v) && (PhaseOf(v, o).Executing? || PhaseOf(v, o).Storing?)
    ensures CanReach(start, u) && PhaseOf(u, o).Storing? && u.rows == v.rows
    ensures u.requests.Keys == v.requests.Keys
    ensures u.requests[o].slot == v.requests[o].slot && u.requests[o].fingerprint == v.requests[o].fingerprint
  {
    u := v;
    if PhaseOf(v, o).Executing? {
      u := Act(v, HandlerReturns(o, Response(200, "", "")));
      ReachThenStep(start, v, HandlerReturns(o, Response(200, "", "")));
    }
  }

  /** A claimant about to release frees the row of a newcomer, whose handler then runs beside that of
      the next one. */
  lemma ReleasesUnder(start: World, v: World, o: nat, j: nat, k: Slot, fp: string) returns (u: World)
    requires CanReach(start, v) && PhaseOf(v, o).Releasing? && v.requests[o].slot == k && k !in v.rows
    requires j !in v.requests
    ensures CanReach(start, u) && k !in u.rows && u.requests.Keys == v.requests.Keys + {j}
    ensures PhaseOf(u, j).Executing? && u.requests[j].slot == k && u.requests[j].fingerprint == fp
  {
    var claimed := Newcomer(start, v, j, k, fp);
    u := Act(claimed, Release(o, true));
    ReachThenStep(start, claimed, Release(o, true));
  }

  lemma MismatchAfterExpiry(w: World, k: Slot) returns (v: World, i: nat)
    requires Inv(w) && k in w.rows && Live(w, w.rows[k].owner)
    ensures CanReach(Act(w, Expire(k)), v) && !ReplayMatches(v, i)
  {
    var start := Act(w, Expire(k));
    var o := w.rows[k].owner;
    assert RowOk(w, k);
    var n := Above(w.requests.Keys);
    ReachSelf(start);
    var at := start;
    if PhaseOf(w, o).Releasing? {
      at := ReleasesUnder(start, start, o, n, k, "");
      o, n := n, n + 1;
    }
    at := Returns(start, at, o);
    v := CompletesOver(start, at, o, n, k, at.requests[o].fingerprint + "x");
    i := n + 1;
  }

  /** Exactly when letting a row expire is harmless to replays: the claimant must be through with the
      store. If it is not, then even if every later expiry is patient, a request can be given, from
      the very row it lost its claim to and without polling, the response to another fingerprint. */
  lemma ReplaySafeIff(w: World, k: Slot)
    requires CanReach(EMPTY_WORLD, w) && k in w.rows
    ensures (forall v, i | CanReach(Act(w, Expire(k)), v) :: ReplayMatches(v, i)) <==> !Live(w, w.rows[k].owner)
  {
    ReachableInv(w);
    if Live(w, w.rows[k].owner) {
      var v, i := MismatchAfterExpiry(w, k);
      assert CanReach(Act(w, Expire(k)), v) && !ReplayMatches(v, i);
    } else {
      var start := Act(w, Expire(k));
      ActKeepsInv(w, Expire(k));
      ActKeepsOwner(w, Expire(k));
      forall v, i | CanReach(start, v) ensures ReplayMatches(v, i) {
        var trace :| Legal(start, trace) && Patient(start, trace) && v == Run(start, trace);
        RunKeepsOwner(start, trace);
        assert OwnerInv(v);
      }
    }
  }

  /** Some run, with whatever expiries, leads from the empty world to `v`. */
  ghost predicate Occurs(v: World) {
    exists trace :: Legal(EMPTY_WORLD, trace) && v == Run(EMPTY_WORLD, trace)
  }

  lemma OccursThenStep(v: World, a: Action)
    requires Occurs(v) && Enabled(v, a)
    ensures Occurs(Act(v, a))
  {
    var trace :| Legal(EMPTY_WORLD, trace) && v == Run(EMPTY_WORLD, trace);
    var one := [a];
    assert Legal(Act(v, a), one[1..]) && Run(Act(v, a), one[1..]) == Act(v, a);
    RunsCompose(EMPTY_WORLD, trace, one);
    assert Legal(EMPTY_WORLD, trace + one) && Act(v, a) == Run(EMPTY_WORLD, trace + one);
  }

  /** A first request is at work, its row expires, and a second one with another body claims the slot. */
  lemma ExpiredUnderFirst(k: Slot) returns (v: World)
    ensures Occurs(v) && v.requests == map[0 := Request(k, "a", Executing), 1 := Request(k, "b", Executing)]
    ensures k in v.rows && !v.rows[k].done && v.rows[k].fingerprint == "b"
  {
    assert Legal(EMPTY_WORLD, []) && Run(EMPTY_WORLD, []) == EMPTY_WORLD;
    var v1 := ArriveAndClaim(EMPTY_WORLD, 0, k, "a");
    var v2 := Act(v1, Expire(k));
    OccursThenStep(v1, Expire(k));
    v := ArriveAndClaim(v2, 1, k, "b");
  }

  lemma ArriveAndClaim(v: World, j: nat, k: Slot, fp: string) returns (u: World)
    requires Occurs(v) && j !in v.requests && k !in v.rows
    ensures Occurs(u) && u.requests == v.requests[j := Request(k, fp, Executing)]
    ensures k in u.rows && !u.rows[k].done && u.rows[k].fingerprint == fp
  {
    var a := Act(v, Arrive(j, k, fp));
    OccursThenStep(v, Arrive(j, k, fp));
    u := Act(a, Claim(j));
    OccursThenStep(a, Claim(j));
  }

  /** Such an expiry from scratch: a first request is at work, its row expires, another body claims
      the slot and a third request, with that body, waits for it; the first completes, and the third
      is told the response to the first. The row it polls is the one it lost its claim to and carries
      its fingerprint. */
  lemma WrongReplayAfterExpiry(k: Slot) returns (w: World)
    ensures Occurs(w) && PhaseOf(w, 2).Waiting? && w.requests[2].slot == k && k in w.rows && w.rows[k].done
    ensures w.rows[k].claim == w.requests[2].phase.claim && w.rows[k].fingerprint == w.requests[2].fingerprint
    ensures !ReplayMatches(Act(w, Poll(2)), 2)
  {
    var answer := Response(200, "", "");
    var v := ExpiredUnderFirst(k);
    var v1 := Act(v, Arrive(2, k, "b"));
    OccursThenStep(v, Arrive(2, k, "b"));
    var v2 := Act(v1, Claim(2));
    OccursThenStep(v1, Claim(2));
    var v3 := Act(v2, HandlerReturns(0, answer));
    OccursThenStep(v2, HandlerReturns(0, answer));
    w := Act(v3, Complete(0));
    OccursThenStep(v3, Complete(0));
    assert w.requests[0].fingerprint == "a" && w.requests[2].fingerprint == "b";
    assert Act(w, Poll(2)).requests[2].phase == Ended(Replayed(answer, 0, true));
  }

  /** A request waiting on a row is replayed whatever the slot holds when it polls, without looking
      at the fingerprint again. Once the row it waits on has been released, there is a run in which
      it receives the response to a request with a different fingerprint. */
  lemma LostRowCanMismatch(w: World, i: nat) returns (v: World)
    requires CanReach(EMPTY_WORLD, w)
    requires PhaseOf(w, i).Waiting? && w.requests[i].slot !in w.rows
    ensures CanReach(w, v) && Replaying(v, i) && !v.requests[i].phase.reply.sameRow
    ensures var author := v.requests[i].phase.reply.author;
            author in v.requests && v.requests[author].fingerprint != v.requests[i].fingerprint
  {
    ReachableInv(w);
    assert RequestOk(w, i);
    var q := w.requests[i];
    var n := Above(w.requests.Keys);
    var other := q.fingerprint + "x";
    var answer := Response(200, "", "");
    ReachSelf(w);
    var claimed := Newcomer(w, w, n, q.slot, other);
    var ran := Act(claimed, HandlerReturns(n, answer));
    ReachThenStep(w, claimed, HandlerReturns(n, answer));
    var stored := Act(ran, Complete(n));
    ReachThenStep(w, ran, Complete(n));
    v := Act(stored, Poll(i));
    ReachThenStep(w, stored, Poll(i));
  }

  /** A waiting request can lose its row, for any slot and fingerprint: the claimant panicked and its
      row was released. */
  lemma WaitingRowCanBeLost(k: Slot, fp: string) returns (w: World, i: nat)
    ensures CanReach(EMPTY_WORLD, w)
    ensures PhaseOf(w, i).Waiting? && w.requests[i].slot == k && w.requests[i].fingerprint == fp && k !in w.rows
  {
    i := 1;
    ReachSelf(EMPTY_WORLD);
    var claimed := Newcomer(EMPTY_WORLD, EMPTY_WORLD, 0, k, fp);
    var arrived := Act(claimed, Arrive(i, k, fp));
    ReachThenStep(EMPTY_WORLD, claimed, Arrive(i, k, fp));
    var waiting := Act(arrived, Claim(i));
    ReachThenStep(EMPTY_WORLD, arrived, Claim(i));
    var panicked := Act(waiting, HandlerPanics(0));
    ReachThenStep(EMPTY_WORLD, waiting, HandlerPanics(0));
    w := Act(panicked, Release(0, true));
    ReachThenStep(EMPTY_WORLD, panicked, Release(0, true));
  }

  /** Exactly when, in patient runs, a polled replay answers the waiting request: the row found by the poll must carry
      its fingerprint, the check made when the claim was lost and not repeated; and it does as long
      as the row is still the one the claim was lost to. */
  lemma PollMatchesIff(w: World, i: nat)
    requires CanReach(EMPTY_WORLD, w) && PhaseOf(w, i).Waiting?
    requires w.requests[i].slot in w.rows && w.rows[w.requests[i].slot].done
    ensures var q := w.requests[i]; var row := w.rows[q.slot]; var v := Act(w, Poll(i));
            && Replaying(v, i)
            && v.requests[i].phase.reply.author in v.requests
            && (v.requests[v.requests[i].phase.reply.author].fingerprint == q.fingerprint <==>
                row.fingerprint == q.fingerprint)
            && (row.claim == q.phase.claim ==> row.fingerprint == q.fingerprint)
  {
    ReachableInv(w);
    assert RequestOk(w, i) && RowOk(w, w.requests[i].slot);
  }

  /** A row can be completed while its claimant is still at work on it: storing the response took
      effect and yet reported an error. So it is not enough that rows still in progress do not
      expire. */
  lemma CompletedRowStillOwned(k: Slot) returns (w: World)
    ensures CanReach(EMPTY_WORLD, w) && k in w.rows && w.rows[k].done && Live(w, w.rows[k].owner)
  {
    ReachSelf(EMPTY_WORLD);
    var claimed := Newcomer(EMPTY_WORLD, EMPTY_WORLD, 0, k, "");
    var ran := Act(claimed, HandlerReturns(0, Response(200, "", "")));
    ReachThenStep(EMPTY_WORLD, claimed, HandlerReturns(0, Response(200, "", "")));
    w := Act(ran, CompleteFails(0, true));
    ReachThenStep(EMPTY_WORLD, ran, CompleteFails(0, true));
    ReachableInv(w);
    assert Live(w, 0);
  }

  // ----- The loops of one request -----

  /** Storing the response with retries: `failed[n]` and `cancelled[n]` say whether attempt `n` fails
      and whether the request is cancelled while backing off before it. */
  method CompleteWithRetry(failed: seq<bool>, cancelled: seq<bool>) returns (ok: bool, attempts: nat)
    requires |failed| == |cancelled| == 3
    ensures attempts <= 3
    ensures forall n | 0 <= n < attempts - 1 :: failed[n]
    ensures forall n | 0 < n < attempts :: !cancelled[n]
    ensures ok <==> attempts > 0 && !failed[attempts - 1]
    ensures !ok ==> attempts == 3 || (attempts > 0 && cancelled[attempts])
  {
    for attempt := 0 to COMPLETE_MAX_RETRIES
      invariant forall n | 0 <= n < attempt :: failed[n]
      invariant forall n | 0 < n < attempt :: !cancelled[n]
    {
      if attempt > 0 && cancelled[attempt] {
        return false, attempt;
      }
      if !failed[attempt] {
        return true, attempt + 1;
      }
    }
    return false, COMPLETE_MAX_RETRIES;
  }

  datatype Found = Present(row: Row) | Absent | StoreError

  /** A claim that met an existing row: the replies, given the row met and what each poll finds until
      the wait is over. Errors are polled over; a missing row ends the wait. */
  method ServeExisting(existing: Row, fingerprint: string, polls: seq<Found>) returns (reply: Reply)
    ensures existing.fingerprint != fingerprint <==> reply == Conflict
    ensures existing.fingerprint == fingerprint && existing.done ==>
              reply == Replayed(existing.response, existing.author, true)
    ensures existing.fingerprint == fingerprint && !existing.done ==>
              if exists n: nat :: FirstDone(polls, n)
              then exists n: nat :: FirstDone(polls, n)
                     && reply == Replayed(polls[n].row.response, polls[n].row.author, polls[n].row.claim == existing.claim)
              else reply == TooEarly
  {
    if existing.fingerprint != fingerprint {
      return Conflict;
    }
    if existing.done {
      return Replayed(existing.response, existing.author, true);
    }
    for i := 0 to |polls|
      invariant forall n | 0 <= n < i :: !(polls[n].Present? && polls[n].row.done) && !polls[n].Absent?
    {
      match polls[i] {
        case StoreError =>
        case Absent =>
          assert forall n: nat :: !FirstDone(polls, n);
          break;
        case Present(row) =>
          if row.done {
            assert FirstDone(polls, i);
            return Replayed(row.response, row.author, row.claim == existing.claim);
          }
      }
    }
    return TooEarly;
  }

  /** Poll `n` is the first to find a completed row, and none before it found the row gone. */
  predicate FirstDone(polls: seq<Found>, n: nat) {
    && n < |polls| && polls[n].Present? && polls[n].row.done
    && forall m | 0 <= m < n :: !(polls[m].Present? && polls[m].row.done) && !polls[m].Absent?
  }
}
