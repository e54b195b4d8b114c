/** What the idempotency protocol gives its clients: once an execution is completed, its response is
    what everybody with the same request gets, for as long as the row does not expire. */
module IdempotencyLaws {
  import opened Idempotency

  /** The row is completed with this response, and nobody is at work on its slot. */
  ghost predicate Settled(w: World, k: Slot, fingerprint: string, response: Response, author: nat) {
    && k in w.rows && w.rows[k].done
    && w.rows[k].fingerprint == fingerprint && w.rows[k].response == response && w.rows[k].author == author
    && forall j | Live(w, j) :: w.requests[j].slot != k
  }

  lemma BecomesLiveWhenFree(w: World, a: Action, j: nat)
    requires Enabled(w, a) && !Live(w, j) && Live(Act(w, a), j)
    ensures j in w.requests && w.requests[j].slot == Act(w, a).requests[j].slot && w.requests[j].slot !in w.rows
  {
  }

  lemma ActKeepsSettled(w: World, a: Action, k: Slot, fingerprint: string, response: Response, author: nat)
    requires Enabled(w, a) && a != Expire(k) && Settled(w, k, fingerprint, response, author)
    ensures Settled(Act(w, a), k, fingerprint, response, author)
  {
    var v := Act(w, a);
    assert a.Release? || a.Complete? || a.CompleteFails? ==> Live(w, a.id);
    if k !in v.rows {
      RowsLostBy(w, a, k);
      assert false;
    }
    ActOnRow(w, a, k);
    forall j | Live(v, j) ensures v.requests[j].slot != k {
      if Live(w, j) {
        ActKeepsIdentity(w, a, j);
      } else {
        BecomesLiveWhenFree(w, a, j);
      }
    }
  }

  lemma {:induction false} RunKeepsSettled(
      w: World, trace: seq<Action>, k: Slot, fingerprint: string, response: Response, author: nat)
    requires Legal(w, trace) && Expire(k) !in trace && Settled(w, k, fingerprint, response, author)
    ensures Settled(Run(w, trace), k, fingerprint, response, author)
    decreases |trace|
  {
    if trace != [] {
      ActKeepsSettled(w, trace[0], k, fingerprint, response, author);
      RunKeepsSettled(Act(w, trace[0]), trace[1..], k, fingerprint, response, author);
    }
  }

  lemma {:induction false} RunKeepsCopied(w: World, trace: seq<Action>, i: nat, response: Response, slot: Slot)
    requires Inv(w) && Legal(w, trace) && Copied(w, i, response, slot)
    ensures Inv(Run(w, trace)) && Copied(Run(w, trace), i, response, slot)
    decreases |trace|
  {
    if trace != [] {
      ActKeepsCopied(w, trace[0], i, response, slot);
      ActKeepsInv(w, trace[0]);
      RunKeepsCopied(Act(w, trace[0]), trace[1..], i, response, slot);
    }
  }

  lemma {:induction false} RunKeepsFingerprint(w: World, trace: seq<Action>, i: nat)
    requires i in w.requests && Legal(w, trace)
    ensures i in Run(w, trace).requests && Run(w, trace).requests[i].fingerprint == w.requests[i].fingerprint
    decreases |trace|
  {
    if trace != [] {
      ActKeepsIdentity(w, trace[0], i);
      RunKeepsFingerprint(Act(w, trace[0]), trace[1..], i);
    }
  }

  /** Completing a request that owns its row settles the row. */
  lemma CompleteSettles(w: World, i: nat, response: Response)
    requires Inv(w) && OwnerInv(w) && PhaseOf(w, i).Storing? && PhaseOf(w, i).response == response
    ensures Settled(Act(w, Complete(i)), w.requests[i].slot, w.requests[i].fingerprint, response, i)
  {
    var k, v := w.requests[i].slot, Act(w, Complete(i));
    assert Live(w, i) && Owns(w, i) && RowOk(w, k);
    forall j | Live(v, j) ensures v.requests[j].slot != k {
      assert j != i && Live(w, j) && Owns(w, j);
    }
  }

  /** A request that is storing is storing what its handler returned. */
  lemma StoresWhatReturned(w: World, i: nat, response: Response, mid: seq<Action>)
    requires CanReach(EMPTY_WORLD, w) && PhaseOf(w, i).Executing?
    requires Legal(Act(w, HandlerReturns(i, response)), mid) && Patient(Act(w, HandlerReturns(i, response)), mid)
    ensures var v := Run(Act(w, HandlerReturns(i, response)), mid);
            && Inv(v) && OwnerInv(v) && i in v.requests
            && v.requests[i].slot == w.requests[i].slot && v.requests[i].fingerprint == w.requests[i].fingerprint
            && (PhaseOf(v, i).Storing? ==> PhaseOf(v, i).response == response)
  {
    ReachableInv(w);
    var returned := Act(w, HandlerReturns(i, response));
    ActKeepsInv(w, HandlerReturns(i, response));
    ActKeepsOwner(w, HandlerReturns(i, response));
    RunKeepsOwner(returned, mid);
    RunKeepsCopied(returned, mid, i, response, w.requests[i].slot);
    RunKeepsFingerprint(returned, mid, i);
    assert RequestOk(Run(returned, mid), i);
  }

  /** What a newcomer to the slot, or a request waiting on it, is told next. */
  ghost predicate Told(v: World, j: nat, fingerprint: string, response: Response, author: nat) {
    && (PhaseOf(v, j).Arrived? ==>
          PhaseOf(Act(v, Claim(j)), j) ==
          Ended(if v.requests[j].fingerprint == fingerprint then Replayed(response, author, true) else Conflict))
    && (PhaseOf(v, j).Waiting? ==>
          var p := PhaseOf(Act(v, Poll(j)), j); p.Ended? && p.reply.Replayed? && p.reply.response == response)
  }

  lemma SettledTells(v: World, j: nat, k: Slot, fingerprint: string, response: Response, author: nat)
    requires Settled(v, k, fingerprint, response, author) && j in v.requests && v.requests[j].slot == k
    ensures Told(v, j, fingerprint, response, author)
  {
  }

  /** From the moment a handler returns: if storing succeeds in the end, every expiry before that is
      patient, and the row does not expire after that, then whoever claims the slot is told the
      response the handler returned if its fingerprint is that of the executed request, and of the
      conflict if it is not; and whoever waits for it is told that response when it next looks. */
  lemma CompletedIsReplayed(
      w: World, i: nat, response: Response, mid: seq<Action>, stored: World, after: seq<Action>, v: World, j: nat)
    requires CanReach(EMPTY_WORLD, w) && PhaseOf(w, i).Executing?
    requires Legal(Act(w, HandlerReturns(i, response)), mid) && Patient(Act(w, HandlerReturns(i, response)), mid)
    requires stored == Run(Act(w, HandlerReturns(i, response)), mid) && PhaseOf(stored, i).Storing?
    requires Legal(Act(stored, Complete(i)), after) && v == Run(Act(stored, Complete(i)), after)
    requires Expire(w.requests[i].slot) !in after && j in v.requests && v.requests[j].slot == w.requests[i].slot
    ensures Told(v, j, w.requests[i].fingerprint, response, i)
  {
    var k, fp := w.requests[i].slot, w.requests[i].fingerprint;
    StoresWhatReturned(w, i, response, mid);
    CompleteSettles(stored, i, response);
    RunKeepsSettled(Act(stored, Complete(i)), after, k, fp, response, i);
    SettledTells(v, j, k, fp, response, i);
  }

  // ----- Completed rows stay, and nobody waits for nothing -----

  lemma ActKeepsDone(w: World, a: Action, k: Slot)
    requires Enabled(w, a) && a != Expire(k) && k in w.rows && w.rows[k].done
    ensures k in Act(w, a).rows && Act(w, a).rows[k].done
  {
    if k !in Act(w, a).rows {
      RowsLostBy(w, a, k);
      assert false;
    }
    ActOnRow(w, a, k);
  }

  /** A completed row stays, and stays completed, until it expires, whatever is released. */
  lemma {:induction false} CompletedRowStays(w: World, trace: seq<Action>, k: Slot)
    requires Legal(w, trace) && Expire(k) !in trace && k in w.rows && w.rows[k].done
    ensures k in Run(w, trace).rows && Run(w, trace).rows[k].done
    decreases |trace|
  {
    if trace != [] {
      ActKeepsDone(w, trace[0], k);
      CompletedRowStays(Act(w, trace[0]), trace[1..], k);
    }
  }

  /** The third attempt to store the response is the last: after two failures there is another one,
      after three the row is released, whether or not any of them took effect. */
  lemma ThreeAttempts(w: World, i: nat, a: bool, b: bool, c: bool)
    requires PhaseOf(w, i).Storing? && PhaseOf(w, i).attempt == 0
    ensures var first := Act(w, CompleteFails(i, a));
            && PhaseOf(first, i).Storing? && PhaseOf(first, i).response == PhaseOf(w, i).response
            && var second := Act(first, CompleteFails(i, b));
            && PhaseOf(second, i).Storing? && PhaseOf(second, i).response == PhaseOf(w, i).response
            && PhaseOf(Act(second, CompleteFails(i, c)), i).Releasing?
  {
  }

  /** The row is in progress and nobody is at work on it. */
  ghost predicate Stranded(w: World, k: Slot) {
    k in w.rows && !w.rows[k].done && forall j | Live(w, j) :: w.requests[j].slot != k
  }

  lemma ActKeepsStranded(w: World, a: Action, k: Slot)
    requires Enabled(w, a) && a != Expire(k) && Stranded(w, k)
    ensures Stranded(Act(w, a), k) && Act(w, a).rows[k] == w.rows[k] && Act(w, a).runs[k] == w.runs[k]
  {
    var v := Act(w, a);
    assert a.Release? || a.Complete? || a.CompleteFails? ==> Live(w, a.id);
    if k !in v.rows {
      RowsLostBy(w, a, k);
      assert false;
    }
    ActOnRow(w, a, k);
    forall j | Live(v, j) ensures v.requests[j].slot != k {
      if Live(w, j) {
        ActKeepsIdentity(w, a, j);
      } else {
        BecomesLiveWhenFree(w, a, j);
      }
    }
  }

  /** What becomes of a request that meets a row in progress: a conflict if its fingerprint differs,
      otherwise it waits; looking finds it still waiting, and giving up is too early. */
  ghost predicate GetsNothing(v: World, j: nat, fingerprint: string) {
    && (PhaseOf(v, j).Arrived? ==>
          var p := PhaseOf(Act(v, Claim(j)), j);
          if v.requests[j].fingerprint == fingerprint then p.Waiting? else p == Ended(Conflict))
    && (PhaseOf(v, j).Waiting? ==>
          PhaseOf(Act(v, Poll(j)), j).Waiting? && PhaseOf(Act(v, StopPolling(j)), j) == Ended(TooEarly))
  }

  /** A row in progress that nobody is at work on blocks its slot until it expires: the handler is not
      started for it, and whoever comes is told of a conflict or waits in vain. */
  lemma {:induction false} StrandedUntilExpiry(w: World, trace: seq<Action>, k: Slot, j: nat)
    requires Legal(w, trace) && Expire(k) !in trace && Stranded(w, k)
    ensures var v := Run(w, trace);
            && Stranded(v, k) && v.runs[k] == w.runs[k] && v.rows[k].fingerprint == w.rows[k].fingerprint
            && (j in v.requests && v.requests[j].slot == k ==> GetsNothing(v, j, w.rows[k].fingerprint))
    decreases |trace|
  {
    if trace != [] {
      ActKeepsStranded(w, trace[0], k);
      StrandedUntilExpiry(Act(w, trace[0]), trace[1..], k, j);
    }
  }

  /** Two ways to strand a row: the claim took effect and yet reported an error, or the process of the
      claimant died. */
  lemma RowsCanBeStranded(k: Slot, fp: string) returns (v: World, u: World)
    ensures CanReach(EMPTY_WORLD, v) && PhaseOf(v, 0) == Ended(Errored) && Stranded(v, k)
    ensures CanReach(EMPTY_WORLD, u) && PhaseOf(u, 0) == Ended(Crashed) && Stranded(u, k)
  {
    ReachSelf(EMPTY_WORLD);
    var arrived := Act(EMPTY_WORLD, Arrive(0, k, fp));
    ReachThenStep(EMPTY_WORLD, EMPTY_WORLD, Arrive(0, k, fp));
    v := Act(arrived, ClaimFails(0, true));
    ReachThenStep(EMPTY_WORLD, arrived, ClaimFails(0, true));
    var claimed := Newcomer(EMPTY_WORLD, EMPTY_WORLD, 0, k, fp);
    u := Act(claimed, Crash(0));
    ReachThenStep(EMPTY_WORLD, claimed, Crash(0));
  }

  /** A request that waits for a row that is gone is told at its next look that it is too early. */
  lemma LostRowEndsWaiting(w: World, i: nat)
    requires PhaseOf(w, i).Waiting? && w.requests[i].slot !in w.rows
    ensures PhaseOf(Act(w, Poll(i)), i) == Ended(TooEarly)
  {
  }
}
