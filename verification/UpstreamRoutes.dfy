/** Which breaker guards which outgoing request, and one guarded round trip. */
module UpstreamRoutes {
  import opened Options
  import opened CircuitBreaker

  /** A guarded upstream: its lower-cased host, its path prefix, and the number of its breaker. */
  datatype Route = Route(host: string, prefix: string, breaker: nat)

  function TrimSlash(path: string): string {
    if path != [] && path[|path| - 1] == '/' then path[..|path| - 1] else path
  }

  /** One trailing slash makes no difference, and no other change is made. */
  lemma TrailingSlashIrrelevant(path: string)
    ensures TrimSlash(path + "/") == path
    ensures path == "" || path[|path| - 1] != '/' ==> TrimSlash(path) == path
  {
  }

  predicate Matches(r: Route, host: string, path: string) {
    r.host == host && r.prefix <= path
  }

  /** No two routes resolve to the same place. */
  ghost predicate Distinct(entries: seq<Route>) {
    forall i, j | 0 <= i < j < |entries| :: !(entries[i].host == entries[j].host && entries[i].prefix == entries[j].prefix)
  }

  /** `best` guards the request: it matches, and every other route that matches is shorter. */
  ghost predicate Guards(entries: seq<Route>, best: Route, host: string, path: string) {
    && best in entries && best.host == host && best.prefix <= path
    && forall r | r in entries && r != best && r.host == host && r.prefix <= path :: |r.prefix| < |best.prefix|
  }

  class Routes {
    var entries: seq<Route>

    constructor ()
      ensures entries == []
    {
      entries := [];
    }

    /** `url` is the lower-cased host and the path of the upstream's URL, if it parses. */
    method Register(url: Option<(string, string)>, breaker: Option<nat>) returns (ok: bool)
      requires Distinct(entries)
      modifies this
      ensures Distinct(entries)
      ensures ok <==>
                && breaker.Some? && url.Some? && url.value.0 != ""
                && forall r | r in old(entries) :: !(r.host == url.value.0 && r.prefix == TrimSlash(url.value.1))
      ensures entries == if ok then old(entries) + [Route(url.value.0, TrimSlash(url.value.1), breaker.value)]
                         else old(entries)
    {
      if breaker.None? || url.None? {
        return false;
      }
      var (host, path) := url.value;
      if host == "" {
        return false;
      }
      var entry := Route(host, TrimSlash(path), breaker.value);
      for i := 0 to |entries|
        invariant forall k | 0 <= k < i :: !(entries[k].host == entry.host && entries[k].prefix == entry.prefix)
      {
        if entries[i].host == entry.host && entries[i].prefix == entry.prefix {
          return false;
        }
      }
      entries := entries + [entry];
      return true;
    }

    /** The longest matching prefix wins. */
    method For(host: string, path: string) returns (found: Option<Route>)
      requires Distinct(entries)
      ensures found == None <==> forall r | r in entries :: !(r.host == host && r.prefix <= path)
      ensures found.Some? ==> Guards(entries, found.value, host, path)
    {
      found := None;
      for i := 0 to |entries|
        invariant found == None <==> forall k | 0 <= k < i :: !Matches(entries[k], host, path)
        invariant found.Some? ==> found.value in entries[..i] && Matches(found.value, host, path)
        invariant found.Some? ==>
          forall k | 0 <= k < i && entries[k] != found.value && Matches(entries[k], host, path) ::
            |entries[k].prefix| < |found.value.prefix|
      {
        var entry := entries[i];
        if Matches(entry, host, path) {
          if found.None? || |entry.prefix| > |found.value.prefix| {
            found := Some(entry);
          } else {
            SameLengthSamePrefix(entry, found.value, host, path);
          }
        }
      }
    }
  }

  lemma SameLengthSamePrefix(r: Route, s: Route, host: string, path: string)
    requires Matches(r, host, path) && Matches(s, host, path)
    ensures r.host == s.host && (|r.prefix| == |s.prefix| ==> r.prefix == s.prefix)
  {
    assert r.prefix == path[..|r.prefix|] && s.prefix == path[..|s.prefix|];
  }

  /** The routing does not depend on the order of registration: two tables with the same routes send
      every request to the same breaker. */
  lemma OrderIrrelevant(a: seq<Route>, b: seq<Route>, x: Route, y: Route, host: string, path: string)
    requires (forall r :: r in a <==> r in b)
    requires Guards(a, x, host, path) && Guards(b, y, host, path)
    ensures x == y
  {
    assert y in a && x in b;
  }

  // ----- One round trip -----

  /** How an attempt ended: with an error, which may be the caller's own cancellation, or with a
      response of some status, or with neither. */
  datatype Ending = Error(cancelled: bool) | Answered(status: int) | Nothing

  function Classify(e: Ending): Outcome {
    match e
    case Error(cancelled) => if cancelled then Ignored else Failure
    case Nothing => Ignored
    case Answered(status) => if status >= 500 || status == 429 then Failure else Success
  }

  /** One request: without a breaker the upstream is called; with one it is called exactly when the
      breaker grants a permit, and that permit is reported exactly once. `ending` is how the call
      would end. */
  method RoundTrip(b: Breaker?, ending: Ending, now: int, later: int) returns (called: bool)
    requires b != null ==> b.Valid()
    modifies if b == null then {} else {b, b.buckets}
    ensures b == null ==> called
    ensures b != null ==> b.Valid() && called == Asked(b.cfg, old(b.Value()), now).answer.Granted?
    ensures b != null ==>
              var asked := Asked(b.cfg, old(b.Value()), now);
              b.Value() == if called then Reported(b.cfg, asked.state, asked.answer.permit, Classify(ending), later).0
                           else asked.state
  {
    if b == null {
      return true;
    }
    var answer, _ := b.Allow(now);
    if answer.Rejected? {
      return false;
    }
    var _ := b.Record(answer.permit, Classify(ending), later);
    return true;
  }
}
