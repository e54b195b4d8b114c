/** The response writer that copies what a handler sends, and the two texts that bind a stored
    response to a request. */
module ResponseRecorder {
  import opened Options
  import opened Texts

  const STATUS_OK := 200
  const STATUS_SWITCHING_PROTOCOLS := 101

  /** What has gone out to one client: informational headers, the final status once it is fixed,
      and the body. */
  datatype Sent = Sent(informational: seq<int>, status: Option<int>, body: string)

  const NOTHING_SENT := Sent([], None, "")

  /** Status codes that announce a later final status instead of being it. */
  predicate Informational(code: int) {
    100 <= code <= 199 && code != STATUS_SWITCHING_PROTOCOLS
  }

  function SendHeader(s: Sent, code: int): Sent {
    if s.status.Some? then s
    else if Informational(code) then s.(informational := s.informational + [code])
    else s.(status := Some(code))
  }

  function SendBody(s: Sent, p: string): Sent {
    var t := SendHeader(s, STATUS_OK);
    t.(body := t.body + p)
  }

  /** A handler that returns without fixing a status has answered 200. */
  function Finished(s: Sent): Sent {
    SendHeader(s, STATUS_OK)
  }

  /** The recorder: the response it passes on, and the copy it keeps. */
  datatype Recording = Recording(sent: Sent, status: int, body: string, wroteHeader: bool)

  const NEW_RECORDING := Recording(NOTHING_SENT, STATUS_OK, "", false)

  datatype Call = Header(code: int) | Body(p: string)

  function Recorded(r: Recording, call: Call): Recording {
    match call
    case Header(code) =>
      if r.wroteHeader then r
      else Recording(SendHeader(r.sent, code), code, r.body, true)
    case Body(p) =>
      var h := if r.wroteHeader then r else Recording(SendHeader(r.sent, STATUS_OK), STATUS_OK, r.body, true);
      h.(body := h.body + p, sent := SendBody(h.sent, p))
  }

  function RecordedAll(r: Recording, calls: seq<Call>): Recording
    decreases |calls|
  {
    if calls == [] then r else RecordedAll(Recorded(r, calls[0]), calls[1..])
  }

  /** Writing a stored response to a new client. */
  function Replay(status: int, body: string): Sent {
    Finished(SendBody(SendHeader(NOTHING_SENT, if status == 0 then STATUS_OK else status), body))
  }

  class Wire {
    var informational: seq<int>
    var status: Option<int>
    var body: string

    ghost function Value(): Sent
      reads this
    {
      Sent(informational, status, body)
    }

    constructor ()
      ensures Value() == NOTHING_SENT
    {
      informational, status, body := [], None, "";
    }

    method WriteHeader(code: int)
      modifies this
      ensures Value() == SendHeader(old(Value()), code)
    {
      if status.Some? {
        return;
      }
      if Informational(code) {
        informational := informational + [code];
      } else {
        status := Some(code);
      }
    }

    method Write(p: string)
      modifies this
      ensures Value() == SendBody(old(Value()), p)
    {
      if status.None? {
        WriteHeader(STATUS_OK);
      }
      body := body + p;
    }
  }

  class RecordingWriter {
    const wire: Wire
    var status: int
    var body: string
    var wroteHeader: bool

    ghost function Value(): Recording
      reads this, wire
    {
      Recording(wire.Value(), status, body, wroteHeader)
    }

    constructor (w: Wire)
      requires w.Value() == NOTHING_SENT
      ensures wire == w && Value() == NEW_RECORDING
    {
      wire := w;
      status, body, wroteHeader := STATUS_OK, "", false;
    }

    method WriteHeader(code: int)
      modifies this, wire
      ensures Value() == Recorded(old(Value()), Header(code))
    {
      if wroteHeader {
        return;
      }
      wroteHeader := true;
      status := code;
      wire.WriteHeader(code);
    }

    method Write(p: string)
      modifies this, wire
      ensures Value() == Recorded(old(Value()), Body(p))
    {
      if !wroteHeader {
        WriteHeader(STATUS_OK);
      }
      body := body + p;
      wire.Write(p);
    }
  }

  /** Copies a stored response out to a fresh client. */
  method WriteStored(w: Wire, status: int, body: string)
    requires w.Value() == NOTHING_SENT
    modifies w
    ensures Finished(w.Value()) == Replay(status, body)
  {
    w.WriteHeader(if status == 0 then STATUS_OK else status);
    w.Write(body);
  }

  /** What the copy says about what went out. */
  ghost predicate Faithful(r: Recording) {
    && r.body == r.sent.body
    && (!r.wroteHeader ==> r == NEW_RECORDING)
    && (r.wroteHeader && !Informational(r.status) ==> r.sent.informational == [] && r.sent.status == Some(r.status))
    && (r.wroteHeader && Informational(r.status) ==>
          && r.sent.informational == [r.status]
          && (r.sent.status == None || r.sent.status == Some(STATUS_OK))
          && (r.sent.status == None ==> r.sent.body == ""))
  }

  lemma {:induction false} RecordedFaithful(r: Recording, calls: seq<Call>)
    requires Faithful(r)
    ensures Faithful(RecordedAll(r, calls))
    decreases |calls|
  {
    if calls != [] {
      assert Faithful(Recorded(r, calls[0]));
      RecordedFaithful(Recorded(r, calls[0]), calls[1..]);
    }
  }

  /** The first call fixes the status that is kept. */
  function FirstStatus(calls: seq<Call>): int {
    if calls != [] && calls[0].Header? then calls[0].code else STATUS_OK
  }

  lemma {:induction false} StatusStays(r: Recording, calls: seq<Call>)
    requires r.wroteHeader
    ensures RecordedAll(r, calls).wroteHeader && RecordedAll(r, calls).status == r.status
    decreases |calls|
  {
    if calls != [] {
      StatusStays(Recorded(r, calls[0]), calls[1..]);
    }
  }

  lemma FirstCallFixes(calls: seq<Call>)
    ensures RecordedAll(NEW_RECORDING, calls).status == FirstStatus(calls)
    ensures RecordedAll(NEW_RECORDING, calls).wroteHeader <==> calls != []
  {
    if calls != [] {
      StatusStays(Recorded(NEW_RECORDING, calls[0]), calls[1..]);
    }
  }

  /** Whatever sequence of header and body calls the handler makes, replaying the copy sends the
      next client exactly what the first client received, informational headers included; only a
      status of zero, which no server sends, would be replayed as another one. */
  lemma ReplayDeliversSameIff(calls: seq<Call>)
    ensures var r := RecordedAll(NEW_RECORDING, calls);
            Replay(r.status, r.body) == Finished(r.sent) <==> FirstStatus(calls) != 0
  {
    RecordedFaithful(NEW_RECORDING, calls);
    FirstCallFixes(calls);
    var r := RecordedAll(NEW_RECORDING, calls);
    assert "" + r.body == r.body;
  }

  /** The status kept in the copy is the one the client received exactly when the handler did not
      begin with an informational header. */
  lemma CopiedStatusExactIff(calls: seq<Call>)
    ensures var r := RecordedAll(NEW_RECORDING, calls);
            Finished(r.sent).status == Some(r.status) <==>
            !(calls != [] && calls[0].Header? && 100 <= calls[0].code <= 199 && calls[0].code != 101)
  {
    RecordedFaithful(NEW_RECORDING, calls);
    FirstCallFixes(calls);
  }

  /** The parts of the body that a handler writes, put together. */
  function Written(calls: seq<Call>): string {
    if calls == [] then "" else (if calls[0].Body? then calls[0].p else "") + Written(calls[1..])
  }

  /** The client receives, and the copy holds, everything the handler wrote, in order. */
  lemma {:induction false} BodyIsWritten(r: Recording, calls: seq<Call>)
    ensures RecordedAll(r, calls).sent.body == r.sent.body + Written(calls)
    ensures RecordedAll(r, calls).body == r.body + Written(calls)
    decreases |calls|
  {
    if calls != [] {
      BodyIsWritten(Recorded(r, calls[0]), calls[1..]);
    }
  }

  // ----- Is the client served as if nothing were recorded? -----

  function Direct(s: Sent, call: Call): Sent {
    match call
    case Header(code) => SendHeader(s, code)
    case Body(p) => SendBody(s, p)
  }

  /** What the same calls send without the recorder in between. */
  function DirectAll(s: Sent, calls: seq<Call>): Sent
    decreases |calls|
  {
    if calls == [] then s else DirectAll(Direct(s, calls[0]), calls[1..])
  }

  lemma {:induction false} DirectKeeps(s: Sent, calls: seq<Call>)
    ensures s.informational <= DirectAll(s, calls).informational
    ensures s.status.Some? ==> DirectAll(s, calls).status == s.status
    decreases |calls|
  {
    if calls != [] {
      DirectKeeps(Direct(s, calls[0]), calls[1..]);
    }
  }

  /** Once the final status is out, recorder and server agree on everything. */
  lemma {:induction false} SettledAlike(r: Recording, calls: seq<Call>)
    requires r.wroteHeader && r.sent.status.Some?
    ensures RecordedAll(r, calls).sent == DirectAll(r.sent, calls)
    decreases |calls|
  {
    if calls != [] {
      SettledAlike(Recorded(r, calls[0]), calls[1..]);
    }
  }

  /** A status of 200 that the recorder held back goes out with the body, or in the end. */
  lemma {:induction false} HeldBackAlike(r: Recording, calls: seq<Call>)
    requires r.wroteHeader && r.sent.status.None?
    ensures Finished(RecordedAll(r, calls).sent) == DirectAll(r.sent.(status := Some(STATUS_OK)), calls)
    decreases |calls|
  {
    if calls != [] {
      var next := Recorded(r, calls[0]);
      if calls[0].Header? {
        HeldBackAlike(next, calls[1..]);
      } else {
        SettledAlike(next, calls[1..]);
        DirectKeeps(next.sent, calls[1..]);
      }
    }
  }

  /** The handler begins with an informational header and follows it by a header other than 200. */
  predicate Announces(calls: seq<Call>) {
    && |calls| >= 2
    && calls[0].Header? && 100 <= calls[0].code <= 199 && calls[0].code != 101
    && calls[1].Header? && calls[1].code != 200
  }

  /** The header after an informational first one is dropped by the recorder. */
  lemma AnnouncedHeaderLost(calls: seq<Call>)
    requires Announces(calls)
    ensures Finished(RecordedAll(NEW_RECORDING, calls).sent) != Finished(DirectAll(NOTHING_SENT, calls))
  {
    RecordedFaithful(NEW_RECORDING, calls);
    FirstCallFixes(calls);
    var first := Direct(NOTHING_SENT, calls[0]);
    var second := Direct(first, calls[1]);
    assert calls[1..][0] == calls[1];
    assert DirectAll(NOTHING_SENT, calls) == DirectAll(second, calls[1..][1..]);
    DirectKeeps(second, calls[1..][1..]);
  }

  lemma OtherwiseAlike(calls: seq<Call>)
    requires !Announces(calls)
    ensures Finished(RecordedAll(NEW_RECORDING, calls).sent) == Finished(DirectAll(NOTHING_SENT, calls))
  {
    if calls != [] {
      var r, rest := Recorded(NEW_RECORDING, calls[0]), calls[1..];
      assert r.sent == Direct(NOTHING_SENT, calls[0]);
      if r.sent.status.Some? {
        SettledAlike(r, rest);
      } else if rest != [] {
        assert rest[0] == calls[1];
        AfterAnnouncement(r, rest);
      }
    }
  }

  lemma AfterAnnouncement(r: Recording, calls: seq<Call>)
    requires r.wroteHeader && r.sent.status.None? && calls != []
    requires calls[0].Header? ==> calls[0].code == STATUS_OK
    ensures Finished(RecordedAll(r, calls).sent) == Finished(DirectAll(r.sent, calls))
  {
    var sent := r.sent.(status := Some(STATUS_OK));
    if calls[0].Header? {
      HeldBackAlike(r, calls[1..]);
      DirectKeeps(sent, calls[1..]);
    } else {
      SettledAlike(Recorded(r, calls[0]), calls[1..]);
    }
  }

  /** The client receives exactly what it would receive without the recorder, unless the handler
      begins with an informational header and follows it by a header other than 200. */
  lemma PassThroughIff(calls: seq<Call>)
    ensures Finished(RecordedAll(NEW_RECORDING, calls).sent) == Finished(DirectAll(NOTHING_SENT, calls))
            <==> !Announces(calls)
  {
    if Announces(calls) {
      AnnouncedHeaderLost(calls);
    } else {
      OtherwiseAlike(calls);
    }
  }

  /** Early hints, then 201: the client is told 200, the copy says 103, and without the recorder it
      would have been 201. */
  lemma EarlyHintsLoseStatus()
    ensures var calls := [Header(103), Header(201)]; var r := RecordedAll(NEW_RECORDING, calls);
            && Finished(r.sent) == Sent([103], Some(200), "") && r.status == 103
            && Finished(DirectAll(NOTHING_SENT, calls)) == Sent([103], Some(201), "")
  {
    var calls := [Header(103), Header(201)];
    var r1 := Recorded(NEW_RECORDING, calls[0]);
    var s1 := Direct(NOTHING_SENT, calls[0]);
    assert calls[1..] == [Header(201)] && calls[1..][1..] == [];
    assert RecordedAll(r1, calls[1..]) == RecordedAll(Recorded(r1, Header(201)), []);
    assert DirectAll(s1, calls[1..]) == DirectAll(Direct(s1, Header(201)), []);
  }

  // ----- Keys and fingerprints -----

  const UNIT_SEPARATOR: char := 31 as char
  const NUL: char := 0 as char

  function ScopedKey(verb: string, path: string, clientKey: string): string {
    verb + " " + path + [UNIT_SEPARATOR] + clientKey
  }

  function FingerprintText(verb: string, path: string, body: string): string {
    verb + [NUL] + path + [NUL] + body
  }

  lemma SeparatorInside(a: string, b: string, c: char, x: string, y: string)
    requires a + [c] + x == b + [c] + y && |a| < |b|
    ensures b[|a|] == c
  {
    assert b[|a|] == (b + [c] + y)[|a|] == (a + [c] + x)[|a|];
  }

  /** Texts split by one separator in one place and by another in the same place are split alike. */
  lemma SplitTwice(a: string, b: string, c: char, x: string, y: string, d: char, u: string, v: string)
    requires c != d && a + [c] + x == b + [c] + y && a + [d] + u == b + [d] + v
    ensures a == b && x == y && u == v
  {
    var s, t := a + [c] + x, a + [d] + u;
    assert s == b + [c] + y && t == b + [d] + v;
    if |a| < |b| {
      SeparatorInside(a, b, c, x, y);
      SeparatorInside(a, b, d, u, v);
      assert false;
    } else if |b| < |a| {
      SeparatorInside(b, a, c, y, x);
      SeparatorInside(b, a, d, v, u);
      assert false;
    }
    assert a == s[..|a|] && b == s[..|b|];
    assert x == s[|a| + 1..] && y == s[|b| + 1..] && u == t[|a| + 1..] && v == t[|b| + 1..];
  }

  /** With a collision-free hash, requests whose row and fingerprint agree are the same request: same
      method, path, client key and body. No condition on any of them is needed, not even that they
      are free of separators, because the two texts use different ones. */
  lemma SameRowSameRequest(
      hash: string -> string,
      m1: string, p1: string, k1: string, b1: string,
      m2: string, p2: string, k2: string, b2: string)
    requires forall s, t :: hash(s) == hash(t) ==> s == t
    ensures ScopedKey(m1, p1, k1) == ScopedKey(m2, p2, k2)
              && hash(FingerprintText(m1, p1, b1)) == hash(FingerprintText(m2, p2, b2))
            <==> m1 == m2 && p1 == p2 && k1 == k2 && b1 == b2
  {
    if ScopedKey(m1, p1, k1) == ScopedKey(m2, p2, k2)
       && hash(FingerprintText(m1, p1, b1)) == hash(FingerprintText(m2, p2, b2)) {
      var x1, x2 := p1 + [UNIT_SEPARATOR] + k1, p2 + [UNIT_SEPARATOR] + k2;
      var y1, y2 := p1 + [NUL] + b1, p2 + [NUL] + b2;
      assert ScopedKey(m1, p1, k1) == m1 + [' '] + x1 && ScopedKey(m2, p2, k2) == m2 + [' '] + x2;
      assert FingerprintText(m1, p1, b1) == m1 + [NUL] + y1 && FingerprintText(m2, p2, b2) == m2 + [NUL] + y2;
      SplitTwice(m1, m2, ' ', x1, x2, NUL, y1, y2);
      SplitTwice(p1, p2, UNIT_SEPARATOR, k1, k2, NUL, b1, b2);
    }
  }

  /** A row belongs to one endpoint and one client key exactly when neither the path nor the key holds
      the separator between them, methods being free of spaces. */
  lemma RowIsEndpointIff(m: string, p: string, k: string)
    requires ' ' !in m
    ensures (forall m': string, p': string, k': string |
               ' ' !in m' && ScopedKey(m', p', k') == ScopedKey(m, p, k) :: m' == m && p' == p && k' == k)
            <==> UNIT_SEPARATOR !in p && UNIT_SEPARATOR !in k
  {
    if UNIT_SEPARATOR in p {
      MovedSeparator(m, p, k);
    } else if i: nat :| i < |k| && k[i] == UNIT_SEPARATOR {
      assert k == k[..i] + [UNIT_SEPARATOR] + k[i + 1..];
      assert ScopedKey(m, p + [UNIT_SEPARATOR] + k[..i], k[i + 1..]) == ScopedKey(m, p, k);
    } else {
      forall m': string, p': string, k': string | ' ' !in m' && ScopedKey(m', p', k') == ScopedKey(m, p, k)
        ensures m' == m && p' == p && k' == k
      {
        KeyParts(m, p, k, m', p', k');
      }
    }
  }

  lemma MovedSeparator(m: string, p: string, k: string)
    requires UNIT_SEPARATOR in p
    ensures exists p', k' :: p' != p && ScopedKey(m, p', k') == ScopedKey(m, p, k)
  {
    var i: nat :| i < |p| && p[i] == UNIT_SEPARATOR;
    assert p == p[..i] + [UNIT_SEPARATOR] + p[i + 1..];
    assert ScopedKey(m, p[..i], p[i + 1..] + [UNIT_SEPARATOR] + k) == ScopedKey(m, p, k);
  }

  lemma KeyParts(m: string, p: string, k: string, m': string, p': string, k': string)
    requires ' ' !in m && ' ' !in m' && UNIT_SEPARATOR !in p && UNIT_SEPARATOR !in k
    requires ScopedKey(m', p', k') == ScopedKey(m, p, k)
    ensures m' == m && p' == p && k' == k
  {
    var x, x' := p + [UNIT_SEPARATOR] + k, p' + [UNIT_SEPARATOR] + k';
    assert ScopedKey(m, p, k) == m + [' '] + x && ScopedKey(m', p', k') == m' + [' '] + x';
    SplitAtFirst(m', m, ' ', x', x);
    assert x[|p'|] == UNIT_SEPARATOR;
    assert forall i | 0 <= i < |x| && i != |p| :: x[i] != UNIT_SEPARATOR;
    assert p == x[..|p|] && p' == x[..|p'|] && k == x[|p| + 1..] && k' == x[|p'| + 1..];
  }
}
