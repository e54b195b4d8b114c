/** Verification of the audit log: what it accepts of a table, whoever wrote it, and how the verdicts
    on ranges relate. */
module AuditChain {
  import opened AuditText

  // ----- Verification -----

  datatype Fault = SequenceGap | PrevHashMismatch | FirstHasPrevHash | DetailHashMismatch | EntryHashMismatch

  datatype Verdict = Intact | Broken(sequence: int, fault: Fault)

  /** The rows the query for a range returns. A table is a sequence of rows in the order in which the
      query, which sorts by sequence number, goes through them. */
  function Selected(table: seq<Entry>, lo: int, hi: int): seq<Entry> {
    if table == [] then []
    else
      var rest := Selected(table[..|table| - 1], lo, hi);
      var e := table[|table| - 1];
      if lo <= e.sequence <= hi then rest + [e] else rest
  }

  function Start(fromSeq: int): int {
    if fromSeq <= 0 then 1 else fromSeq
  }

  function DetailHash(l: Library, d: Json): string {
    l.hash(l.render(d))
  }

  /** What is checked of a row on its own. */
  predicate SelfConsistent(l: Library, e: Entry) {
    && (!e.redacted ==> DetailHash(l, e.detail) == e.detailHash)
    && l.hash(CanonicalSerialize(l, HashedPart(e))) == e.entryHash
  }

  /** The row at position `i` is in order after the rows before it. */
  predicate RowFits(l: Library, rows: seq<Entry>, fromSeq: int, i: nat)
    requires i < |rows|
  {
    && rows[i].sequence == fromSeq + i
    && (if i > 0 then rows[i].prevHash == rows[i - 1].entryHash
        else rows[i].sequence == 1 ==> rows[i].prevHash == "")
    && SelfConsistent(l, rows[i])
  }

  /** A chain: every row in order. */
  ghost predicate Chained(l: Library, rows: seq<Entry>, fromSeq: int) {
    forall i | 0 <= i < |rows| :: RowFits(l, rows, fromSeq, i)
  }

  ghost predicate Accepts(l: Library, table: seq<Entry>, fromSeq: int, toSeq: int) {
    Chained(l, Selected(table, Start(fromSeq), toSeq), Start(fromSeq))
  }

  /** The fault a row shows: the first of the checks it fails, in the order verification makes them. */
  function FaultOf(l: Library, rows: seq<Entry>, fromSeq: int, i: nat): Fault
    requires i < |rows| && !RowFits(l, rows, fromSeq, i)
  {
    var e := rows[i];
    if e.sequence != fromSeq + i then SequenceGap
    else if i > 0 && e.prevHash != rows[i - 1].entryHash then PrevHashMismatch
    else if i == 0 && e.sequence == 1 && e.prevHash != "" then FirstHasPrevHash
    else if !e.redacted && DetailHash(l, e.detail) != e.detailHash then DetailHashMismatch
    else EntryHashMismatch
  }

  /** The row at `i` is the first out of order, and shows this fault. */
  ghost predicate FirstFault(l: Library, rows: seq<Entry>, fromSeq: int, i: nat, sequence: int, fault: Fault) {
    && i < |rows|
    && (forall k | 0 <= k < i :: RowFits(l, rows, fromSeq, k))
    && !RowFits(l, rows, fromSeq, i)
    && rows[i].sequence == sequence
    && FaultOf(l, rows, fromSeq, i) == fault
  }

  method VerifyChain(l: Library, table: seq<Entry>, fromSeq: int, toSeq: int) returns (verdict: Verdict)
    ensures verdict.Intact? <==> Accepts(l, table, fromSeq, toSeq)
    ensures verdict.Broken? ==>
      exists i :: FirstFault(l, Selected(table, Start(fromSeq), toSeq), Start(fromSeq), i, verdict.sequence, verdict.fault)
  {
    var first := true;
    var expectedSeq := if fromSeq <= 0 then 1 else fromSeq;
    var expectedPrevHash := "";
    var rows := Selected(table, expectedSeq, toSeq);
    for i := 0 to |rows|
      invariant expectedSeq == Start(fromSeq) + i
      invariant first <==> i == 0
      invariant i > 0 ==> expectedPrevHash == rows[i - 1].entryHash
      invariant forall k | 0 <= k < i :: RowFits(l, rows, Start(fromSeq), k)
    {
      var entry := rows[i];
      if entry.sequence != expectedSeq {
        assert FirstFault(l, rows, Start(fromSeq), i, entry.sequence, SequenceGap);
        return Broken(entry.sequence, SequenceGap);
      }
      if !first {
        if entry.prevHash != expectedPrevHash {
          assert FirstFault(l, rows, Start(fromSeq), i, entry.sequence, PrevHashMismatch);
          return Broken(entry.sequence, PrevHashMismatch);
        }
      } else if entry.sequence == 1 && entry.prevHash != "" {
        assert FirstFault(l, rows, Start(fromSeq), i, entry.sequence, FirstHasPrevHash);
        return Broken(entry.sequence, FirstHasPrevHash);
      }
      if !entry.redacted {
        var recomputed := DetailHash(l, entry.detail);
        if recomputed != entry.detailHash {
          assert FirstFault(l, rows, Start(fromSeq), i, entry.sequence, DetailHashMismatch);
          return Broken(entry.sequence, DetailHashMismatch);
        }
      }
      var recomputedHash := l.hash(CanonicalSerialize(l, HashedPart(entry)));
      if recomputedHash != entry.entryHash {
        assert FirstFault(l, rows, Start(fromSeq), i, entry.sequence, EntryHashMismatch);
        return Broken(entry.sequence, EntryHashMismatch);
      }
      expectedPrevHash := entry.entryHash;
      expectedSeq := expectedSeq + 1;
      first := false;
    }
    return Intact;
  }

  // ----- Tables and ranges -----

  /** The unique index on the sequence column and the ordering of the query. */
  ghost predicate Ascending(table: seq<Entry>) {
    forall i, j | 0 <= i < j < |table| :: table[i].sequence < table[j].sequence
  }

  lemma {:induction false} SelectedMember(table: seq<Entry>, lo: int, hi: int, e: Entry)
    ensures e in Selected(table, lo, hi) <==> e in table && lo <= e.sequence <= hi
  {
    if table != [] {
      SelectedMember(table[..|table| - 1], lo, hi, e);
      assert table == table[..|table| - 1] + [table[|table| - 1]];
    }
  }

  /** Splitting a range splits the rows it returns. */
  lemma {:induction false} SelectedSplit(table: seq<Entry>, lo: int, mid: int, hi: int)
    requires Ascending(table) && lo <= mid + 1 && mid <= hi
    ensures Selected(table, lo, hi) == Selected(table, lo, mid) + Selected(table, mid + 1, hi)
  {
    if table != [] {
      var rest, e := table[..|table| - 1], table[|table| - 1];
      SelectedSplit(rest, lo, mid, hi);
      if lo <= e.sequence <= mid {
        if Selected(rest, mid + 1, hi) != [] {
          var f := Selected(rest, mid + 1, hi)[0];
          SelectedMember(rest, mid + 1, hi, f);
          assert false;
        }
      }
    }
  }

  lemma SelectedNone(table: seq<Entry>, lo: int, hi: int)
    requires hi < lo
    ensures Selected(table, lo, hi) == []
  {
    if Selected(table, lo, hi) != [] {
      SelectedMember(table, lo, hi, Selected(table, lo, hi)[0]);
      assert false;
    }
  }

  /** Dropping rows from either end of a chain leaves a chain, if it then starts where it should. */
  lemma ChainSlice(l: Library, rows: seq<Entry>, fromSeq: int, i: nat, j: nat)
    requires Chained(l, rows, fromSeq) && i <= j <= |rows|
    requires fromSeq >= 1
    ensures Chained(l, rows[i..j], fromSeq + i)
  {
    var part, start := rows[i..j], fromSeq + i;
    forall k | 0 <= k < |part| ensures RowFits(l, part, start, k) {
      assert RowFits(l, rows, fromSeq, i + k);
    }
  }

  lemma ChainGlue(l: Library, a: seq<Entry>, b: seq<Entry>, fromSeq: int)
    requires Chained(l, a, fromSeq) && a != [] && Chained(l, [a[|a| - 1]] + b, fromSeq + |a| - 1)
    ensures Chained(l, a + b, fromSeq)
  {
    var whole, tail := a + b, [a[|a| - 1]] + b;
    forall k | 0 <= k < |whole| ensures RowFits(l, whole, fromSeq, k) {
      if k < |a| {
        assert RowFits(l, a, fromSeq, k);
      } else {
        assert RowFits(l, tail, fromSeq + |a| - 1, k - |a| + 1);
        assert whole[k] == tail[k - |a| + 1] && whole[k - 1] == tail[k - |a|];
      }
    }
  }

  /** In a verified range the rows from `x` on begin with row `x`, if there are any. */
  lemma PartStartsRight(l: Library, table: seq<Entry>, a: int, c: int, x: int, pre: seq<Entry>, rest: seq<Entry>)
    requires Ascending(table) && a <= x && Chained(l, pre + rest, a) && rest != []
    requires pre == Selected(table, a, x - 1) && rest == Selected(table, x, c)
    ensures |pre| == x - a
  {
    var whole, i := pre + rest, |pre|;
    assert RowFits(l, whole, a, i) && whole[i] == rest[0];
    SelectedMember(table, x, c, rest[0]);
    if x - a < i {
      assert RowFits(l, whole, a, x - a) && whole[x - a] == pre[x - a];
      SelectedMember(table, a, x - 1, pre[x - a]);
    }
  }

  lemma SelectedSub(l: Library, table: seq<Entry>, a: int, c: int, x: int, y: int)
    requires Ascending(table) && 1 <= a <= x && y <= c
    requires Chained(l, Selected(table, a, c), a)
    ensures Chained(l, Selected(table, x, y), x)
  {
    if y < x {
      SelectedNone(table, x, y);
      return;
    }
    SelectedSplit(table, a, x - 1, c);
    SelectedSplit(table, x, y, c);
    var pre, mid, post := Selected(table, a, x - 1), Selected(table, x, y), Selected(table, y + 1, c);
    if mid != [] {
      PartStartsRight(l, table, a, c, x, pre, mid + post);
      assert mid == (pre + (mid + post))[|pre|..|pre| + |mid|];
      ChainSlice(l, pre + (mid + post), a, |pre|, |pre| + |mid|);
    }
  }

  /** Verification of ranges is as good as verification of the whole: every part of an accepted
      range is accepted. */
  lemma SubrangeAccepted(l: Library, table: seq<Entry>, a: int, c: int, x: int, y: int)
    requires Ascending(table) && Accepts(l, table, a, c) && a <= x && y <= c
    ensures Accepts(l, table, x, y)
  {
    SelectedSub(l, table, Start(a), c, Start(x), y);
  }

  /** Accepted ranges that share an end point glue together. */
  lemma RangesGlue(l: Library, table: seq<Entry>, a: int, b: int, c: int)
    requires Ascending(table) && a <= b <= c
    requires Accepts(l, table, a, b) && Accepts(l, table, b, c)
    ensures Accepts(l, table, a, c)
  {
    var s := Start(a);
    if b < s {
      assert Start(b) == s;
      return;
    }
    assert Start(b) == b;
    var left, right := Selected(table, s, b), Selected(table, b, c);
    SelectedSplit(table, s, b, c);
    SelectedSplit(table, b, b, c);
    SelectedSplit(table, s, b - 1, b);
    var at, after := Selected(table, b, b), Selected(table, b + 1, c);
    if right == [] {
      assert Selected(table, s, c) == left;
    } else {
      assert RowFits(l, right, b, 0);
      assert at != [] by {
        if at == [] {
          assert right[0] == after[0];
          SelectedMember(table, b + 1, c, after[0]);
          assert false;
        }
      }
      SingleRow(table, b);
      assert left == Selected(table, s, b - 1) + at;
      var n := |left| - 1;
      assert RowFits(l, left, s, n);
      assert left[n] == at[0];
      SelectedMember(table, b, b, at[0]);
      assert right == [left[n]] + after;
      ChainGlue(l, left, after, s);
    }
  }

  lemma SingleRow(table: seq<Entry>, b: int)
    requires Ascending(table)
    ensures |Selected(table, b, b)| <= 1
  {
    if table != [] && table[|table| - 1].sequence == b {
      var rest := table[..|table| - 1];
      if Selected(rest, b, b) != [] {
        SelectedMember(rest, b, b, Selected(rest, b, b)[0]);
        assert false;
      }
    } else if table != [] {
      SingleRow(table[..|table| - 1], b);
    }
  }
}
