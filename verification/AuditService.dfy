/** The audit service: its two writers in place, every interleaving of them, and what an accepted
    table proves about the log it claims to be. */
module AuditService {
  import opened Texts
  import opened LabelledText
  import opened AuditText
  import opened AuditChain

  const REDACTED := Text("[REDACTED]")

  // ----- The writers as functions of the table -----

  function NextEntry(
      l: Library, table: seq<Entry>, actor: string, action: string, target: string, detail: Json, at: int): Entry
  {
    var sequence := if table == [] then 1 else table[|table| - 1].sequence + 1;
    var prevHash := if table == [] then "" else table[|table| - 1].entryHash;
    var h := Hashed(sequence, at, actor, action, target, DetailHash(l, detail), prevHash);
    Entry(sequence, at, actor, action, target, detail, h.detailHash, prevHash, l.hash(CanonicalSerialize(l, h)), false)
  }

  datatype RedactOutcome = NotFound | NotAnObject | NothingToRedact | Redacted

  function BlankedOut(fields: map<string, Json>, keys: seq<string>): map<string, Json> {
    if keys == [] then fields
    else
      var rest := BlankedOut(fields, keys[..|keys| - 1]);
      var key := keys[|keys| - 1];
      if key in rest then rest[key := REDACTED] else rest
  }

  function RedactedEntry(e: Entry, keys: seq<string>): (RedactOutcome, Entry) {
    match e.detail
    case Object(fields) =>
      if exists k :: k in keys && k in fields then
        (Redacted, e.(detail := Object(BlankedOut(fields, keys)), redacted := true))
      else (NothingToRedact, e)
    case Null => (NothingToRedact, e)
    case _ => (NotAnObject, e)
  }

  function RedactTable(table: seq<Entry>, sequence: int, keys: seq<string>): (seq<Entry>, RedactOutcome) {
    if table == [] then (table, NotFound)
    else if table[0].sequence == sequence then
      var (outcome, e) := RedactedEntry(table[0], keys);
      ([e] + table[1..], outcome)
    else
      var (rest, outcome) := RedactTable(table[1..], sequence, keys);
      ([table[0]] + rest, outcome)
  }

  lemma {:induction false} RedactTableAt(table: seq<Entry>, sequence: int, keys: seq<string>, i: nat)
    requires i <= |table| && (forall k | 0 <= k < i :: table[k].sequence != sequence)
    requires i < |table| ==> table[i].sequence == sequence
    ensures i < |table| ==>
      RedactTable(table, sequence, keys)
        == (table[i := RedactedEntry(table[i], keys).1], RedactedEntry(table[i], keys).0)
    ensures i == |table| ==> RedactTable(table, sequence, keys) == (table, NotFound)
  {
    if table != [] {
      assert table == [table[0]] + table[1..];
      if i > 0 {
        RedactTableAt(table[1..], sequence, keys, i - 1);
        if i < |table| {
          var e := RedactedEntry(table[i], keys).1;
          assert table[i := e] == [table[0]] + table[1..][i - 1 := e];
        }
      } else {
        var e := RedactedEntry(table[0], keys).1;
        assert table[0 := e] == [e] + table[1..];
      }
    }
  }

  /** Blanking out replaces exactly the listed fields that exist, and keeps the others. */
  lemma {:induction false} BlankedOutExactly(fields: map<string, Json>, keys: seq<string>)
    ensures BlankedOut(fields, keys).Keys == fields.Keys
    ensures forall k | k in fields :: BlankedOut(fields, keys)[k] == if k in keys then REDACTED else fields[k]
  {
    if keys != [] {
      BlankedOutExactly(fields, keys[..|keys| - 1]);
      assert keys == keys[..|keys| - 1] + [keys[|keys| - 1]];
    }
  }

  /** A redaction that finds something to redact blanks out exactly the listed fields of exactly that
      row, flags it, and leaves its hashed part and its hash alone. */
  lemma RedactionExact(table: seq<Entry>, i: nat, keys: seq<string>, key: string)
    requires Ascending(table) && i < |table| && table[i].detail.Object?
    requires key in keys && key in table[i].detail.fields
    ensures var (after, outcome) := RedactTable(table, table[i].sequence, keys);
            var fields := table[i].detail.fields;
            && outcome == Redacted && |after| == |table|
            && (forall k | 0 <= k < |table| && k != i :: after[k] == table[k])
            && HashedPart(after[i]) == HashedPart(table[i]) && after[i].entryHash == table[i].entryHash
            && after[i].redacted && after[i].detail.Object?
            && after[i].detail.fields.Keys == fields.Keys
            && (forall f | f in fields :: after[i].detail.fields[f] == if f in keys then Text("[REDACTED]") else fields[f])
  {
    RedactTableAt(table, table[i].sequence, keys, i);
    BlankedOutExactly(table[i].detail.fields, keys);
  }

  class Service {
    const lib: Library
    var table: seq<Entry>

    constructor (l: Library)
      ensures lib == l && table == []
    {
      lib := l;
      table := [];
    }

    method LogAction(actor: string, action: string, target: string, detail: Json, now: int) returns (entry: Entry)
      modifies this
      ensures entry == NextEntry(lib, old(table), actor, action, target, detail, now)
      ensures entry.actor == actor && entry.action == action && entry.target == target
      ensures entry.detail == detail && entry.createdAt == now && !entry.redacted
      ensures table == old(table) + [entry]
    {
      var nextSeq, prevHash := 1, "";
      if table != [] {
        nextSeq := table[|table| - 1].sequence + 1;
        prevHash := table[|table| - 1].entryHash;
      }
      var detailHash := lib.hash(lib.render(detail));
      var text := CanonicalSerialize(lib, Hashed(nextSeq, now, actor, action, target, detailHash, prevHash));
      entry := Entry(nextSeq, now, actor, action, target, detail, detailHash, prevHash, lib.hash(text), false);
      table := table + [entry];
    }

    /** The first critical section of a redaction: the row is rewritten, its hashes are kept. */
    method RedactDetail(seq_: int, redactKeys: seq<string>) returns (outcome: RedactOutcome)
      modifies this
      ensures (table, outcome) == RedactTable(old(table), seq_, redactKeys)
    {
      var i := 0;
      while i < |table| && table[i].sequence != seq_
        invariant 0 <= i <= |table|
        invariant forall k | 0 <= k < i :: table[k].sequence != seq_
      {
        i := i + 1;
      }
      RedactTableAt(table, seq_, redactKeys, i);
      if i == |table| {
        return NotFound;
      }
      var entry := table[i];
      assert table == table[i := entry];
      if entry.detail.Null? {
        return NothingToRedact;
      }
      if !entry.detail.Object? {
        return NotAnObject;
      }
      var fields, redactedAny := BlankOut(entry.detail.fields, redactKeys);
      if !redactedAny {
        return NothingToRedact;
      }
      table := table[i := entry.(detail := Object(fields), redacted := true)];
      return Redacted;
    }

    method BlankOut(original: map<string, Json>, keys: seq<string>)
      returns (fields: map<string, Json>, redactedAny: bool)
      ensures fields == BlankedOut(original, keys)
      ensures redactedAny <==> exists k :: k in keys && k in original
    {
      fields, redactedAny := original, false;
      for i := 0 to |keys|
        invariant fields == BlankedOut(original, keys[..i])
        invariant redactedAny <==> exists k :: k in keys[..i] && k in original
      {
        BlankedOutExactly(original, keys[..i]);
        assert keys[..i + 1] == keys[..i] + [keys[i]];
        assert keys[..i + 1][..i] == keys[..i];
        if keys[i] in fields {
          fields := fields[keys[i] := REDACTED];
          redactedAny := true;
        }
      }
      assert keys[..|keys|] == keys;
    }
  }

  // ----- Every interleaving of the writers -----

  datatype Owed = Owed(sequence: int, keys: seq<string>)

  /** The table, and the redactions whose own log entry has not been written yet. */
  datatype Log = Log(table: seq<Entry>, owed: seq<Owed>)

  datatype Event =
    | Append(actor: string, action: string, target: string, detail: Json, at: int)
    | Redact(sequence: int, keys: seq<string>)
    | LogRedaction(i: nat, at: int)
    | LoseRedaction(i: nat)

  function Names(keys: seq<string>): (names: seq<Json>)
    ensures |names| == |keys| && forall i | 0 <= i < |keys| :: names[i] == Text(keys[i])
  {
    seq(|keys|, i requires 0 <= i < |keys| => Text(keys[i]))
  }

  function RedactionEntry(l: Library, table: seq<Entry>, o: Owed, at: int): Entry {
    NextEntry(l, table, "system", "redaction", "audit_logs:sequence:" + Decimal(o.sequence),
              Object(map["target_sequence" := Number(o.sequence as real), "redacted_fields" := Array(Names(o.keys))]), at)
  }

  predicate Enabled(s: Log, e: Event) {
    e.LogRedaction? || e.LoseRedaction? ==> e.i < |s.owed|
  }

  function Step(l: Library, s: Log, e: Event): Log
    requires Enabled(s, e)
  {
    match e
    case Append(actor, action, target, detail, at) =>
      s.(table := s.table + [NextEntry(l, s.table, actor, action, target, detail, at)])
    case Redact(sequence, keys) =>
      var (table, outcome) := RedactTable(s.table, sequence, keys);
      Log(table, if outcome == Redacted then s.owed + [Owed(sequence, keys)] else s.owed)
    case LogRedaction(i, at) =>
      Log(s.table + [RedactionEntry(l, s.table, s.owed[i], at)], s.owed[..i] + s.owed[i + 1..])
    case LoseRedaction(i) =>
      s.(owed := s.owed[..i] + s.owed[i + 1..])
  }

  predicate Legal(l: Library, s: Log, events: seq<Event>)
    decreases |events|
  {
    events == [] || (Enabled(s, events[0]) && Legal(l, Step(l, s, events[0]), events[1..]))
  }

  function Run(l: Library, s: Log, events: seq<Event>): Log
    requires Legal(l, s, events)
    decreases |events|
  {
    if events == [] then s else Run(l, Step(l, s, events[0]), events[1..])
  }

  /** Later versions of a table: entries are only ever added, the hashed part of an entry and its
      hash never change, and its payload changes only by becoming redacted. */
  ghost predicate Extends(old_: seq<Entry>, new_: seq<Entry>) {
    && |old_| <= |new_|
    && (forall i | 0 <= i < |old_| ::
          && HashedPart(new_[i]) == HashedPart(old_[i]) && new_[i].entryHash == old_[i].entryHash
          && (old_[i].redacted ==> new_[i].redacted)
          && (!new_[i].redacted ==> new_[i].detail == old_[i].detail))
  }

  lemma {:induction false} RedactExtends(table: seq<Entry>, sequence: int, keys: seq<string>)
    ensures Extends(table, RedactTable(table, sequence, keys).0)
    ensures |RedactTable(table, sequence, keys).0| == |table|
  {
    if table != [] && table[0].sequence != sequence {
      RedactExtends(table[1..], sequence, keys);
    }
  }

  lemma ExtendsKeepsChain(l: Library, a: seq<Entry>, b: seq<Entry>)
    requires Chained(l, a, 1) && Extends(a, b) && |a| == |b|
    ensures Chained(l, b, 1)
  {
    forall i | 0 <= i < |b| ensures RowFits(l, b, 1, i) {
      assert RowFits(l, a, 1, i);
      assert HashedPart(b[i]) == HashedPart(a[i]);
      assert i > 0 ==> b[i - 1].entryHash == a[i - 1].entryHash;
    }
  }

  lemma AppendKeepsChain(l: Library, table: seq<Entry>, actor: string, action: string, target: string, detail: Json, at: int)
    requires Chained(l, table, 1)
    ensures Chained(l, table + [NextEntry(l, table, actor, action, target, detail, at)], 1)
  {
    var e := NextEntry(l, table, actor, action, target, detail, at);
    var longer := table + [e];
    forall i | 0 <= i < |longer| ensures RowFits(l, longer, 1, i) {
      if i < |table| {
        assert RowFits(l, table, 1, i);
      } else if i > 0 {
        assert RowFits(l, table, 1, i - 1);
      }
    }
  }

  lemma StepKeepsChain(l: Library, s: Log, e: Event)
    requires Chained(l, s.table, 1) && Enabled(s, e)
    ensures Chained(l, Step(l, s, e).table, 1) && Extends(s.table, Step(l, s, e).table)
  {
    match e
    case Append(actor, action, target, detail, at) => AppendKeepsChain(l, s.table, actor, action, target, detail, at);
    case Redact(sequence, keys) =>
      RedactExtends(s.table, sequence, keys);
      ExtendsKeepsChain(l, s.table, Step(l, s, e).table);
    case LogRedaction(i, at) =>
      var o := s.owed[i];
      AppendKeepsChain(l, s.table, "system", "redaction", "audit_logs:sequence:" + Decimal(o.sequence),
                       RedactionEntry(l, s.table, o, at).detail, at);
    case LoseRedaction(_) =>
  }

  lemma {:induction false} RunKeepsChain(l: Library, s: Log, events: seq<Event>)
    requires Chained(l, s.table, 1) && Legal(l, s, events)
    ensures Chained(l, Run(l, s, events).table, 1) && Extends(s.table, Run(l, s, events).table)
    decreases |events|
  {
    if events != [] {
      StepKeepsChain(l, s, events[0]);
      RunKeepsChain(l, Step(l, s, events[0]), events[1..]);
    }
  }

  lemma {:induction false} SelectedAll(table: seq<Entry>, n: int)
    requires forall i | 0 <= i < |table| :: 1 <= table[i].sequence <= n
    ensures Selected(table, 1, n) == table
  {
    if table != [] {
      SelectedAll(table[..|table| - 1], n);
      assert table == table[..|table| - 1] + [table[|table| - 1]];
    }
  }

  lemma ChainedNumbers(l: Library, table: seq<Entry>)
    requires Chained(l, table, 1)
    ensures forall i | 0 <= i < |table| :: table[i].sequence == i + 1
    ensures Ascending(table)
  {
    forall i | 0 <= i < |table| ensures table[i].sequence == i + 1 {
      assert RowFits(l, table, 1, i);
    }
  }

  lemma ChainedAccepted(l: Library, table: seq<Entry>, fromSeq: int, toSeq: int)
    requires Chained(l, table, 1)
    ensures Accepts(l, table, fromSeq, toSeq)
  {
    ChainedNumbers(l, table);
    var n := if toSeq > |table| then toSeq else |table|;
    SelectedAll(table, n);
    SelectedSub(l, table, 1, n, Start(fromSeq), toSeq);
  }

  /** Whatever appends and redactions happen, in whatever order and with whatever landing between a
      redaction and its own log entry, entries are numbered from 1 without gaps, every range
      verifies, and entries once written keep their hashed part and hash for good. */
  lemma EveryRunVerifies(l: Library, before: seq<Event>, after: seq<Event>, fromSeq: int, toSeq: int)
    requires Legal(l, Log([], []), before) && Legal(l, Run(l, Log([], []), before), after)
    ensures var s := Run(l, Log([], []), before); var t := Run(l, s, after);
            && (forall i | 0 <= i < |t.table| :: t.table[i].sequence == i + 1)
            && Accepts(l, t.table, fromSeq, toSeq)
            && Extends(s.table, t.table)
  {
    RunKeepsChain(l, Log([], []), before);
    var s := Run(l, Log([], []), before);
    RunKeepsChain(l, s, after);
    var t := Run(l, s, after);
    ChainedNumbers(l, t.table);
    ChainedAccepted(l, t.table, fromSeq, toSeq);
  }

  // ----- Tamper evidence -----

  ghost predicate PlainEvent(e: Event) {
    e.Append? ==> Plain(e.actor, e.action, e.target)
  }

  ghost predicate PlainEntry(e: Entry) {
    Plain(e.actor, e.action, e.target)
  }

  predicate DetailHashClean(e: Entry) {
    '\n' !in e.detailHash
  }

  lemma NextEntryIs(l: Library, table: seq<Entry>, actor: string, action: string, target: string, detail: Json, at: int)
    requires Sound(l) && Chained(l, table, 1)
    ensures var e := NextEntry(l, table, actor, action, target, detail, at);
            DetailHashClean(e) && (PlainEntry(e) <==> Plain(actor, action, target))
  {
  }

  lemma RedactionEntryIs(l: Library, table: seq<Entry>, o: Owed, at: int)
    requires Sound(l) && Chained(l, table, 1)
    ensures DetailHashClean(RedactionEntry(l, table, o, at)) && PlainEntry(RedactionEntry(l, table, o, at))
  {
    var target := "audit_logs:sequence:" + Decimal(o.sequence);
    assert '\n' !in target;
    NewlineFreeIsPlain("system", "redaction", target);
    NextEntryIs(l, table, "system", "redaction", target, RedactionEntry(l, table, o, at).detail, at);
  }

  lemma AddedEntry(l: Library, s: Log, e: Event, i: nat)
    requires Sound(l) && Chained(l, s.table, 1) && Enabled(s, e) && |s.table| <= i < |Step(l, s, e).table|
    ensures DetailHashClean(Step(l, s, e).table[i])
    ensures PlainEvent(e) ==> PlainEntry(Step(l, s, e).table[i])
  {
    match e
    case Append(actor, action, target, detail, at) => NextEntryIs(l, s.table, actor, action, target, detail, at);
    case Redact(sequence, keys) => RedactExtends(s.table, sequence, keys);
    case LogRedaction(j, at) => RedactionEntryIs(l, s.table, s.owed[j], at);
    case LoseRedaction(_) =>
  }

  lemma KeptEntry(l: Library, s: Log, e: Event, i: nat)
    requires Chained(l, s.table, 1) && Enabled(s, e) && i < |s.table|
    ensures i < |Step(l, s, e).table|
    ensures DetailHashClean(Step(l, s, e).table[i]) == DetailHashClean(s.table[i])
    ensures PlainEntry(Step(l, s, e).table[i]) == PlainEntry(s.table[i])
  {
    StepKeepsChain(l, s, e);
    assert HashedPart(Step(l, s, e).table[i]) == HashedPart(s.table[i]);
  }

  /** What the log of a run is made of: detail hashes hold no newline, and if what callers append is plain, so is
      everything in the log, the entries about redactions included. */
  lemma {:induction false} RunEntries(l: Library, s: Log, events: seq<Event>)
    requires Sound(l) && Chained(l, s.table, 1) && Legal(l, s, events)
    requires forall i | 0 <= i < |s.table| :: DetailHashClean(s.table[i])
    ensures forall i | 0 <= i < |Run(l, s, events).table| :: DetailHashClean(Run(l, s, events).table[i])
    ensures (forall i | 0 <= i < |s.table| :: PlainEntry(s.table[i])) && (forall e | e in events :: PlainEvent(e)) ==>
              forall i | 0 <= i < |Run(l, s, events).table| :: PlainEntry(Run(l, s, events).table[i])
    decreases |events|
  {
    if events != [] {
      var t := Step(l, s, events[0]);
      StepKeepsChain(l, s, events[0]);
      forall i | 0 <= i < |t.table|
        ensures DetailHashClean(t.table[i])
        ensures PlainEvent(events[0]) && (forall k | 0 <= k < |s.table| :: PlainEntry(s.table[k])) ==> PlainEntry(t.table[i])
      {
        if i < |s.table| {
          KeptEntry(l, s, events[0], i);
        } else {
          AddedEntry(l, s, events[0], i);
        }
      }
      RunEntries(l, t, events[1..]);
    }
  }

  /** The two entries say the same under their hashes, and show the same payload unless one of them is
      flagged as redacted. */
  predicate Agree(l: Library, a: Entry, b: Entry) {
    && HashedPart(a) == HashedPart(b) && a.entryHash == b.entryHash
    && (!a.redacted && !b.redacted ==> l.render(a.detail) == l.render(b.detail))
  }

  /** In a chain every previous hash is a hash, or empty. */
  lemma PrevHashClean(l: Library, rows: seq<Entry>, i: nat)
    requires Sound(l) && Chained(l, rows, 1) && i < |rows|
    ensures '\n' !in rows[i].prevHash
  {
    assert RowFits(l, rows, 1, i);
    if i > 0 {
      assert RowFits(l, rows, 1, i - 1);
    }
  }

  lemma {:induction false} ChainsAgree(l: Library, a: seq<Entry>, b: seq<Entry>, k: nat, i: nat)
    requires Sound(l) && Chained(l, a, 1) && Chained(l, b, 1)
    requires i <= k < |a| && k < |b| && a[k].entryHash == b[k].entryHash
    requires forall j | 0 <= j <= k :: FrontUnambiguous(HashedPart(a[j]))
    ensures Agree(l, a[i], b[i])
    decreases k
  {
    assert RowFits(l, a, 1, k) && RowFits(l, b, 1, k);
    PrevHashClean(l, a, k);
    PrevHashClean(l, b, k);
    FrontDecides(l, HashedPart(b[k]), HashedPart(a[k]));
    assert HashedPart(b[k]) == HashedPart(a[k]);
    if i < k {
      ChainsAgree(l, a, b, k - 1, i);
    }
  }

  /** A table passes for the log at position `k`: verification accepts it from the first sequence
      number on, and its entry at `k` has the hash the log has there. */
  ghost predicate PassesFor(l: Library, log: seq<Entry>, table: seq<Entry>, toSeq: int, k: nat)
    requires k < |log|
  {
    && Accepts(l, table, 1, toSeq)
    && k < |Selected(table, 1, toSeq)| && Selected(table, 1, toSeq)[k].entryHash == log[k].entryHash
  }

  /** Every table that passes for the log at `k` agrees with it on every entry up to `k`. */
  ghost predicate Evident(l: Library, log: seq<Entry>, k: nat)
    requires k < |log|
  {
    forall table, toSeq, i | PassesFor(l, log, table, toSeq, k) && 0 <= i <= k ::
      i < |Selected(table, 1, toSeq)| && Agree(l, log[i], Selected(table, 1, toSeq)[i])
  }

  /** Replacing an ambiguous entry by one that reads differently under the same hash, marked as
      redacted so that its payload is not looked at, leaves a chain. */
  lemma ForgedChain(l: Library, log: seq<Entry>, i: nat, g: Hashed) returns (forged: seq<Entry>)
    requires Chained(l, log, 1) && i < |log|
    requires g != HashedPart(log[i]) && CanonicalSerialize(l, g) == CanonicalSerialize(l, HashedPart(log[i]))
    requires g.sequence == log[i].sequence && g.createdAt == log[i].createdAt && g.prevHash == log[i].prevHash
    ensures |forged| == |log| && Chained(l, forged, 1) && HashedPart(forged[i]) == g
    ensures forall k | 0 <= k < |log| :: forged[k].entryHash == log[k].entryHash
  {
    var e := log[i].(actor := g.actor, action := g.action, target := g.target, detailHash := g.detailHash, redacted := true);
    assert HashedPart(e) == g;
    forged := log[i := e];
    forall k | 0 <= k < |forged| ensures RowFits(l, forged, 1, k) {
      assert RowFits(l, log, 1, k);
      assert k > 0 ==> forged[k - 1].entryHash == log[k - 1].entryHash;
    }
  }

  lemma AmbiguousForgery(l: Library, log: seq<Entry>, i: nat, k: nat)
    requires Sound(l) && Chained(l, log, 1) && i <= k < |log| && !FrontUnambiguous(HashedPart(log[i]))
    ensures !Evident(l, log, k)
  {
    var h := HashedPart(log[i]);
    var j: nat :| Blurred(Front(h), FRONT_LABELS, j);
    FrontBlurred(h, j);
    var g := Confused(l, h, j);
    var forged := ForgedChain(l, log, i, g);
    ChainedNumbers(l, forged);
    SelectedAll(forged, |forged|);
    ChainedAccepted(l, forged, 1, |forged|);
    assert PassesFor(l, log, forged, |forged|, k);
    assert !Agree(l, log[i], forged[i]);
  }

  /** Tamper evidence, exactly, of any table that verifies from the first sequence number on. Every
      table that passes for it at `k` agrees with it on every entry up to `k` if and only if none of
      those entries holds the label of the action, the target or the detail hash in a field beside it. */
  lemma EvidentIff(l: Library, log: seq<Entry>, k: nat)
    requires Sound(l) && Chained(l, log, 1) && k < |log|
    ensures Evident(l, log, k) <==> forall i | 0 <= i <= k :: FrontUnambiguous(HashedPart(log[i]))
  {
    if forall i | 0 <= i <= k :: FrontUnambiguous(HashedPart(log[i])) {
      UnambiguousEvident(l, log, k);
    } else {
      var i :| 0 <= i <= k && !FrontUnambiguous(HashedPart(log[i]));
      AmbiguousForgery(l, log, i, k);
    }
  }

  lemma UnambiguousEvident(l: Library, log: seq<Entry>, k: nat)
    requires Sound(l) && Chained(l, log, 1) && k < |log|
    requires forall i | 0 <= i <= k :: FrontUnambiguous(HashedPart(log[i]))
    ensures Evident(l, log, k)
  {
    forall table, toSeq, i | PassesFor(l, log, table, toSeq, k) && 0 <= i <= k
      ensures i < |Selected(table, 1, toSeq)| && Agree(l, log[i], Selected(table, 1, toSeq)[i])
    {
      ChainsAgree(l, log, Selected(table, 1, toSeq), k, i);
    }
  }

  /** For the log of a run that is a condition on what callers supplied: neither the actor nor the
      action holds a line beginning with the action's label, neither the action nor the target one
      with the target's, and the target none with the detail hash's. */
  lemma TamperEvidentIff(l: Library, events: seq<Event>, k: nat)
    requires Sound(l) && Legal(l, Log([], []), events) && k < |Run(l, Log([], []), events).table|
    ensures var log := Run(l, Log([], []), events).table;
            Evident(l, log, k) <==> forall i | 0 <= i <= k :: PlainEntry(log[i])
  {
    RunKeepsChain(l, Log([], []), events);
    RunEntries(l, Log([], []), events);
    var log := Run(l, Log([], []), events).table;
    EvidentIff(l, log, k);
    forall i | 0 <= i <= k ensures PlainEntry(log[i]) <==> FrontUnambiguous(HashedPart(log[i])) {
      assert DetailHashClean(log[i]);
      PlainIff(HashedPart(log[i]));
    }
  }

  /** So a service that logs only plain fields, such as fields without newlines, is tamper-evident at
      every position of every run. */
  lemma TamperEvident(l: Library, events: seq<Event>, k: nat)
    requires Sound(l) && Legal(l, Log([], []), events) && k < |Run(l, Log([], []), events).table|
    requires forall e | e in events :: PlainEvent(e)
    ensures Evident(l, Run(l, Log([], []), events).table, k)
  {
    RunEntries(l, Log([], []), events);
    TamperEvidentIff(l, events, k);
  }

  // ----- What is not evident -----

  lemma ChangedPayload(l: Library, log: seq<Entry>, i: nat, d: Json, flagged: bool)
    requires Chained(l, log, 1) && i < |log|
    ensures var changed := log[i := log[i].(detail := d, redacted := flagged)];
            Chained(l, changed, 1) <==> flagged || DetailHash(l, d) == log[i].detailHash
  {
    var changed := log[i := log[i].(detail := d, redacted := flagged)];
    forall k | 0 <= k < |log|
      ensures RowFits(l, changed, 1, k) <==> k != i || flagged || DetailHash(l, d) == log[i].detailHash
    {
      assert RowFits(l, log, 1, k);
      assert HashedPart(changed[k]) == HashedPart(log[k]) && changed[k].entryHash == log[k].entryHash;
      assert k > 0 ==> changed[k - 1].entryHash == log[k - 1].entryHash;
    }
    assert Chained(l, changed, 1) ==> RowFits(l, changed, 1, i);
  }

  /** The redaction flag is not hashed, and no redaction entry is asked for. Exactly when replacing the
      payload of a row goes unnoticed: the row is flagged as redacted, or the payload has the hash. */
  lemma PayloadChangeNoticedIff(l: Library, log: seq<Entry>, i: nat, d: Json, flagged: bool, toSeq: int)
    requires Chained(l, log, 1) && i < |log| <= toSeq
    ensures Accepts(l, log[i := log[i].(detail := d, redacted := flagged)], 1, toSeq) <==>
            flagged || DetailHash(l, d) == log[i].detailHash
  {
    var changed := log[i := log[i].(detail := d, redacted := flagged)];
    ChangedPayload(l, log, i, d, flagged);
    ChainedNumbers(l, log);
    SelectedAll(changed, toSeq);
  }

  /** So any payload of any row can be replaced by any other, and every range still verifies. */
  lemma FlaggedPayloadUnverified(l: Library, log: seq<Entry>, i: nat, d: Json, fromSeq: int, toSeq: int)
    requires Chained(l, log, 1) && i < |log|
    ensures Accepts(l, log[i := log[i].(detail := d, redacted := true)], fromSeq, toSeq)
  {
    ChangedPayload(l, log, i, d, true);
    ChainedAccepted(l, log[i := log[i].(detail := d, redacted := true)], fromSeq, toSeq);
  }

  lemma KeptRowIs(l: Library, log: seq<Entry>, kept: seq<Entry>, i: nat)
    requires Chained(l, log, 1) && Chained(l, kept, 1) && i < |kept| && kept[i] in log
    ensures i < |log| && kept[i] == log[i]
  {
    ChainedNumbers(l, log);
    ChainedNumbers(l, kept);
  }

  /** Which deletions verification notices. Of all tables made of some of the rows of the log, those
      accepted over the whole range are exactly the beginnings of the log. */
  lemma DeletionsNoticedIff(l: Library, events: seq<Event>, kept: seq<Entry>, toSeq: int)
    requires Legal(l, Log([], []), events) && |Run(l, Log([], []), events).table| <= toSeq
    requires Ascending(kept) && forall e | e in kept :: e in Run(l, Log([], []), events).table
    ensures Accepts(l, kept, 1, toSeq) <==> kept <= Run(l, Log([], []), events).table
  {
    RunKeepsChain(l, Log([], []), events);
    var log := Run(l, Log([], []), events).table;
    KeptSelected(l, log, kept, toSeq);
    if Chained(l, kept, 1) {
      KeptIsPrefix(l, log, kept);
    }
    if kept <= log {
      assert log[..|kept|] == kept;
      TruncationAccepted(l, events, |kept|, 1, toSeq);
    }
  }

  lemma KeptSelected(l: Library, log: seq<Entry>, kept: seq<Entry>, toSeq: int)
    requires Chained(l, log, 1) && |log| <= toSeq && forall e | e in kept :: e in log
    ensures Selected(kept, 1, toSeq) == kept
  {
    ChainedNumbers(l, log);
    forall i | 0 <= i < |kept| ensures 1 <= kept[i].sequence <= toSeq {
      assert kept[i] in log;
    }
    SelectedAll(kept, toSeq);
  }

  lemma KeptIsPrefix(l: Library, log: seq<Entry>, kept: seq<Entry>)
    requires Chained(l, log, 1) && Chained(l, kept, 1) && forall e | e in kept :: e in log
    ensures kept <= log
  {
    forall i | 0 <= i < |kept| ensures i < |log| && kept[i] == log[i] {
      KeptRowIs(l, log, kept, i);
    }
    if kept != [] {
      KeptRowIs(l, log, kept, |kept| - 1);
    }
    assert |kept| <= |log| && kept == log[..|kept|];
  }

  /** Verification does not notice entries missing at the end: that is what the anchored hash of a
      late entry is for. */
  lemma TruncationAccepted(l: Library, events: seq<Event>, n: nat, fromSeq: int, toSeq: int)
    requires Legal(l, Log([], []), events) && n <= |Run(l, Log([], []), events).table|
    ensures Accepts(l, Run(l, Log([], []), events).table[..n], fromSeq, toSeq)
  {
    RunKeepsChain(l, Log([], []), events);
    var t := Run(l, Log([], []), events).table;
    ChainSlice(l, t, 1, 0, n);
    assert t[0..n] == t[..n];
    ChainedAccepted(l, t[..n], fromSeq, toSeq);
  }
}
