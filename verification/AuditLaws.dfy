/** What the audit log records: the entries of every run are the actions that were passed in, in
    order, and the redactions that were made. */
module AuditLaws {
  import opened Texts
  import opened AuditText
  import opened AuditChain
  import opened AuditService

  /** What an entry is about. */
  datatype Record = Record(actor: string, action: string, target: string, detail: Json, at: int)

  /** What an event asks to be recorded; the entry of a redaction names the redacted sequence number
      and the keys. */
  function RecordsOf(s: Log, e: Event): seq<Record>
    requires Enabled(s, e)
  {
    match e
    case Append(actor, action, target, detail, at) => [Record(actor, action, target, detail, at)]
    case LogRedaction(i, at) =>
      var o := s.owed[i];
      [Record("system", "redaction", "audit_logs:sequence:" + Decimal(o.sequence),
              Object(map["target_sequence" := Number(o.sequence as real), "redacted_fields" := Array(Names(o.keys))]), at)]
    case _ => []
  }

  function Records(l: Library, s: Log, events: seq<Event>): seq<Record>
    requires Legal(l, s, events)
    decreases |events|
  {
    if events == [] then [] else RecordsOf(s, events[0]) + Records(l, Step(l, s, events[0]), events[1..])
  }

  /** The entry says what the record says; its payload may have been redacted since. */
  predicate Says(e: Entry, r: Record) {
    && e.actor == r.actor && e.action == r.action && e.target == r.target && e.createdAt == r.at
    && (!e.redacted ==> e.detail == r.detail)
  }

  /** The entries from position `n` on say what the records say, one for one. */
  ghost predicate SaysFrom(t: seq<Entry>, n: nat, rs: seq<Record>) {
    |t| == n + |rs| && forall i | n <= i < |t| :: Says(t[i], rs[i - n])
  }

  lemma StepRecords(l: Library, s: Log, e: Event)
    requires Enabled(s, e)
    ensures var t := Step(l, s, e).table;
            SaysFrom(t, |s.table|, RecordsOf(s, e)) && forall i | |s.table| <= i < |t| :: !t[i].redacted
  {
    if e.Redact? {
      RedactExtends(s.table, e.sequence, e.keys);
    }
  }

  lemma SaysStays(a: seq<Entry>, b: seq<Entry>, i: nat, r: Record)
    requires Extends(a, b) && i < |a| && Says(a[i], r) && !a[i].redacted
    ensures Says(b[i], r)
  {
    assert HashedPart(b[i]) == HashedPart(a[i]);
  }

  lemma SaysJoin(a: seq<Entry>, b: seq<Entry>, n: nat, first: seq<Record>, rest: seq<Record>)
    requires SaysFrom(a, n, first) && (forall i | n <= i < |a| :: !a[i].redacted)
    requires Extends(a, b) && SaysFrom(b, |a|, rest)
    ensures SaysFrom(b, n, first + rest)
  {
    forall i | n <= i < |b| ensures Says(b[i], (first + rest)[i - n]) {
      if i < |a| {
        SaysStays(a, b, i, first[i - n]);
      }
    }
  }

  lemma {:induction false} RunRecords(l: Library, s: Log, events: seq<Event>)
    requires Chained(l, s.table, 1) && Legal(l, s, events)
    ensures SaysFrom(Run(l, s, events).table, |s.table|, Records(l, s, events))
    decreases |events|
  {
    if events != [] {
      var next := Step(l, s, events[0]);
      StepRecords(l, s, events[0]);
      StepKeepsChain(l, s, events[0]);
      RunRecords(l, next, events[1..]);
      RunKeepsChain(l, next, events[1..]);
      SaysJoin(next.table, Run(l, s, events).table, |s.table|, RecordsOf(s, events[0]), Records(l, next, events[1..]));
    }
  }

  /** Over every run the entries of the log are, one for one and in order, the actions that were
      appended and the redactions that were logged, with the actor, action, target, time and, unless
      redacted since, the payload that was passed in. */
  lemma LogRecordsRun(l: Library, events: seq<Event>)
    requires Legal(l, Log([], []), events)
    ensures SaysFrom(Run(l, Log([], []), events).table, 0, Records(l, Log([], []), events))
  {
    RunRecords(l, Log([], []), events);
  }

  /** A redaction that is not made leaves the table as it was: there is no such entry, its payload is
      not an object, or none of the keys is in it. */
  lemma NothingRedacted(table: seq<Entry>, sequence: int, keys: seq<string>)
    requires Ascending(table)
    ensures (forall e | e in table :: e.sequence != sequence) ==> RedactTable(table, sequence, keys) == (table, NotFound)
    ensures forall e | e in table && e.sequence == sequence ::
              && (e.detail == Null ==> RedactTable(table, sequence, keys) == (table, NothingToRedact))
              && (!e.detail.Null? && !e.detail.Object? ==> RedactTable(table, sequence, keys) == (table, NotAnObject))
              && (e.detail.Object? && (forall k | k in keys :: k !in e.detail.fields) ==>
                    RedactTable(table, sequence, keys) == (table, NothingToRedact))
  {
    if forall e | e in table :: e.sequence != sequence {
      RedactTableAt(table, sequence, keys, |table|);
    }
    forall e | e in table && e.sequence == sequence
      ensures (e.detail == Null ==> RedactTable(table, sequence, keys) == (table, NothingToRedact))
      ensures !e.detail.Null? && !e.detail.Object? ==> RedactTable(table, sequence, keys) == (table, NotAnObject)
      ensures e.detail.Object? && (forall k | k in keys :: k !in e.detail.fields) ==>
                RedactTable(table, sequence, keys) == (table, NothingToRedact)
    {
      var i :| 0 <= i < |table| && table[i] == e;
      RedactTableAt(table, sequence, keys, i);
      assert table[i := table[i]] == table;
    }
  }

  /** A redaction that is made is owed an entry of its own, which then names its sequence number and
      keys; one that is not made is owed none. */
  lemma RedactionIsOwed(l: Library, s: Log, sequence: int, keys: seq<string>, at: int)
    ensures var t := Step(l, s, Redact(sequence, keys));
            if RedactTable(s.table, sequence, keys).1 == Redacted
            then
              && t.owed == s.owed + [Owed(sequence, keys)]
              && RecordsOf(t, LogRedaction(|s.owed|, at)) ==
                 [Record("system", "redaction", "audit_logs:sequence:" + Decimal(sequence),
                         Object(map["target_sequence" := Number(sequence as real), "redacted_fields" := Array(Names(keys))]), at)]
              && Step(l, t, LogRedaction(|s.owed|, at)).owed == s.owed
            else t.owed == s.owed
  {
  }

  // ----- What verification reports -----

  lemma BrokenAt(l: Library, rows: seq<Entry>, log: seq<Entry>, i: nat, fault: Fault)
    requires Chained(l, log, 1) && i < |log| && i < |rows| && rows[..i] == log[..i]
    requires !RowFits(l, rows, 1, i) && FaultOf(l, rows, 1, i) == fault
    ensures FirstFault(l, rows, 1, i, rows[i].sequence, fault)
  {
    forall k | 0 <= k < i ensures RowFits(l, rows, 1, k) {
      assert RowFits(l, log, 1, k);
      assert rows[k] == rows[..i][k] == log[..i][k] == log[k];
      assert k > 0 ==> rows[k - 1] == rows[..i][k - 1] == log[..i][k - 1] == log[k - 1];
    }
  }

  /** A missing row is reported as a gap before the row after it. */
  lemma MissingRowReported(l: Library, log: seq<Entry>, i: nat)
    requires Chained(l, log, 1) && i + 1 < |log|
    ensures FirstFault(l, log[..i] + log[i + 1..], 1, i, i + 2, SequenceGap)
  {
    var rows := log[..i] + log[i + 1..];
    ChainedNumbers(l, log);
    assert rows[i] == log[i + 1] && rows[..i] == log[..i];
    BrokenAt(l, rows, log, i, SequenceGap);
  }

  /** A payload that does not have its hash is reported as such, unless the row is flagged. */
  lemma ChangedPayloadReported(l: Library, log: seq<Entry>, i: nat, d: Json)
    requires Chained(l, log, 1) && i < |log| && DetailHash(l, d) != log[i].detailHash
    ensures FirstFault(l, log[i := log[i].(detail := d, redacted := false)], 1, i, i + 1, DetailHashMismatch)
  {
    var rows := log[i := log[i].(detail := d, redacted := false)];
    ChainedNumbers(l, log);
    assert RowFits(l, log, 1, i);
    assert rows[..i] == log[..i] && (i > 0 ==> rows[i - 1] == log[i - 1]);
    BrokenAt(l, rows, log, i, DetailHashMismatch);
  }

  /** A changed link is reported as such, in the first row as a link that should not be there. */
  lemma ChangedLinkReported(l: Library, log: seq<Entry>, i: nat, prevHash: string)
    requires Chained(l, log, 1) && i < |log| && prevHash != log[i].prevHash
    ensures FirstFault(l, log[i := log[i].(prevHash := prevHash)], 1, i, i + 1,
                       if i == 0 then FirstHasPrevHash else PrevHashMismatch)
  {
    var rows := log[i := log[i].(prevHash := prevHash)];
    ChainedNumbers(l, log);
    assert RowFits(l, log, 1, i);
    assert rows[..i] == log[..i] && (i > 0 ==> rows[i - 1] == log[i - 1]);
    BrokenAt(l, rows, log, i, if i == 0 then FirstHasPrevHash else PrevHashMismatch);
  }

  /** A change of actor, action, target or time that changes the hashed text is reported as a wrong
      entry hash. */
  lemma ChangedEntryReported(l: Library, log: seq<Entry>, i: nat, r: Record)
    requires Sound(l) && Chained(l, log, 1) && i < |log|
    requires var e := log[i].(actor := r.actor, action := r.action, target := r.target, createdAt := r.at);
             CanonicalSerialize(l, HashedPart(e)) != CanonicalSerialize(l, HashedPart(log[i]))
    ensures var e := log[i].(actor := r.actor, action := r.action, target := r.target, createdAt := r.at);
            FirstFault(l, log[i := e], 1, i, i + 1, EntryHashMismatch)
  {
    var e := log[i].(actor := r.actor, action := r.action, target := r.target, createdAt := r.at);
    var rows := log[i := e];
    ChainedNumbers(l, log);
    assert RowFits(l, log, 1, i);
    assert rows[..i] == log[..i] && (i > 0 ==> rows[i - 1] == log[i - 1]);
    BrokenAt(l, rows, log, i, EntryHashMismatch);
  }
}
