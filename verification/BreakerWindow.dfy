/** The rolling window of the circuit breaker, as a value.

    The breaker keeps its window in a ring of ten buckets and an index. The value here forgets
    where in the ring each bucket sits: `slots[0]` is the bucket being filled and `slots[i]` is the
    one filled `i` bucket widths earlier. The second half of the module relates this value to the
    plain log of timestamped outcomes that it summarises. */
module BreakerWindow {
  import opened Arithmetic

  const WINDOW_BUCKETS: nat := 10

  datatype Bucket = Bucket(total: nat, failures: nat)

  const EMPTY := Bucket(0, 0)

  datatype Window = Window(slots: seq<Bucket>, start: int)

  function Blank(n: nat): seq<Bucket> {
    seq(n, _ => EMPTY)
  }

  /** How many whole bucket widths lie between `start` and `now`; none if the clock is behind. */
  function Steps(start: int, width: int, now: int): nat
    requires width > 0
  {
    if now - start < width then 0 else (now - start) / width
  }

  function Shift(slots: seq<Bucket>, steps: nat): seq<Bucket>
    requires |slots| == WINDOW_BUCKETS
  {
    if steps >= WINDOW_BUCKETS then Blank(WINDOW_BUCKETS)
    else Blank(steps) + slots[..WINDOW_BUCKETS - steps]
  }

  function Roll(w: Window, width: int, steps: nat): Window
    requires |w.slots| == WINDOW_BUCKETS
  {
    Window(Shift(w.slots, steps), w.start + steps * width)
  }

  function Advance(w: Window, width: int, now: int): Window
    requires width > 0 && |w.slots| == WINDOW_BUCKETS
  {
    Roll(w, width, Steps(w.start, width, now))
  }

  function Count(b: Bucket, failed: bool): Bucket {
    Bucket(b.total + 1, b.failures + if failed then 1 else 0)
  }

  function Total(slots: seq<Bucket>): nat {
    if slots == [] then 0 else slots[0].total + Total(slots[1..])
  }

  function Failures(slots: seq<Bucket>): nat {
    if slots == [] then 0 else slots[0].failures + Failures(slots[1..])
  }

  // ----- Advancing in stages equals advancing once -----

  lemma ShiftTwice(slots: seq<Bucket>, m: nat, n: nat)
    requires |slots| == WINDOW_BUCKETS
    ensures Shift(Shift(slots, m), n) == Shift(slots, m + n)
  {
  }

  /** The start of the current bucket is within one width of an already reached instant. */
  lemma StepsBounds(start: int, width: int, now: int)
    requires width > 0
    ensures now < start + Steps(start, width, now) * width + width
    ensures Steps(start, width, now) > 0 ==> start + Steps(start, width, now) * width <= now
    ensures start <= now ==> start + Steps(start, width, now) * width <= now
  {
    DivBounds(now - start, width);
  }

  lemma StepsTwice(start: int, width: int, t1: int, t2: int)
    requires width > 0 && t1 <= t2
    ensures var m := Steps(start, width, t1);
            m + Steps(start + m * width, width, t2) == Steps(start, width, t2)
  {
    var m := Steps(start, width, t1);
    var mid := start + m * width;
    StepsBounds(start, width, t1);
    if m > 0 {
      var n := Steps(mid, width, t2);
      StepsBounds(mid, width, t2);
      assert (m + n) * width == m * width + n * width;
      DivUnique(t2 - start, width, m + n);
      assert t2 - start >= width by { assert m * width >= width; }
    }
  }

  lemma RollTwice(w: Window, width: int, m: nat, n: nat)
    requires |w.slots| == WINDOW_BUCKETS
    ensures Roll(Roll(w, width, m), width, n) == Roll(w, width, m + n)
  {
    ShiftTwice(w.slots, m, n);
    assert (m + n) * width == m * width + n * width;
  }

  lemma AdvanceTwice(w: Window, width: int, t1: int, t2: int)
    requires width > 0 && |w.slots| == WINDOW_BUCKETS && t1 <= t2
    ensures Advance(Advance(w, width, t1), width, t2) == Advance(w, width, t2)
  {
    var m := Steps(w.start, width, t1);
    StepsTwice(w.start, width, t1, t2);
    RollTwice(w, width, m, Steps(w.start + m * width, width, t2));
  }

  // ----- The log the window summarises -----

  datatype Sample = Sample(at: int, failed: bool)

  /** What a bucket covering the instants `lo <= t < hi` should hold, read off the log. */
  function Tally(log: seq<Sample>, lo: int, hi: int): Bucket {
    if log == [] then EMPTY
    else
      var b := Tally(log[..|log| - 1], lo, hi);
      var s := log[|log| - 1];
      if lo <= s.at < hi then Count(b, s.failed) else b
  }

  /** Every slot holds exactly the samples of its own bucket width, and no sample lies ahead. */
  ghost predicate Summarises(w: Window, width: int, log: seq<Sample>) {
    && |w.slots| == WINDOW_BUCKETS
    && (forall k | 0 <= k < |log| :: log[k].at < w.start + width)
    && (forall i | 0 <= i < WINDOW_BUCKETS ::
          w.slots[i] == Tally(log, w.start - i * width, w.start - i * width + width))
  }

  lemma {:induction false} TallyNone(log: seq<Sample>, lo: int, hi: int)
    requires forall k | 0 <= k < |log| :: log[k].at < lo
    ensures Tally(log, lo, hi) == EMPTY
  {
    if log != [] {
      TallyNone(log[..|log| - 1], lo, hi);
    }
  }

  lemma {:induction false} TallyGlue(log: seq<Sample>, lo: int, mid: int, hi: int)
    requires lo <= mid <= hi
    ensures Tally(log, lo, hi).total == Tally(log, lo, mid).total + Tally(log, mid, hi).total
    ensures Tally(log, lo, hi).failures == Tally(log, lo, mid).failures + Tally(log, mid, hi).failures
  {
    if log != [] {
      TallyGlue(log[..|log| - 1], lo, mid, hi);
    }
  }

  lemma FreshSummarises(start: int, width: int)
    requires width > 0
    ensures Summarises(Window(Blank(WINDOW_BUCKETS), start), width, [])
  {
  }

  lemma OffsetOf(start: int, width: int, n: int, i: int)
    ensures start + n * width - i * width == start - (i - n) * width
  {
  }

  lemma RollSlot(w: Window, width: int, n: nat, log: seq<Sample>, i: nat)
    requires width > 0 && Summarises(w, width, log) && i < WINDOW_BUCKETS
    ensures var v := Roll(w, width, n);
            v.slots[i] == Tally(log, v.start - i * width, v.start - i * width + width)
  {
    OffsetOf(w.start, width, n, i);
    var lo := w.start - (i - n) * width;
    if i < n {
      NextMultiple(i - n, 0, width);
      TallyNone(log, lo, lo + width);
    } else {
      assert Shift(w.slots, n)[i] == w.slots[i - n];
    }
  }

  lemma AdvanceSummarises(w: Window, width: int, now: int, log: seq<Sample>)
    requires width > 0 && Summarises(w, width, log)
    ensures Summarises(Advance(w, width, now), width, log)
  {
    var n := Steps(w.start, width, now);
    assert n * width >= 0;
    forall i | 0 <= i < WINDOW_BUCKETS
      ensures var v := Roll(w, width, n);
              v.slots[i] == Tally(log, v.start - i * width, v.start - i * width + width)
    {
      RollSlot(w, width, n, log, i);
    }
  }

  lemma CountSummarises(w: Window, width: int, s: Sample, log: seq<Sample>)
    requires width > 0 && Summarises(w, width, log)
    requires w.start <= s.at < w.start + width
    ensures Summarises(w.(slots := w.slots[0 := Count(w.slots[0], s.failed)]), width, log + [s])
  {
    var v := w.(slots := w.slots[0 := Count(w.slots[0], s.failed)]);
    var log' := log + [s];
    assert log'[..|log'| - 1] == log;
    forall i | 0 <= i < WINDOW_BUCKETS
      ensures v.slots[i] == Tally(log', v.start - i * width, v.start - i * width + width)
    {
      if i > 0 {
        assert i * width >= width;
      }
    }
  }

  lemma {:induction false} SumIsTally(slots: seq<Bucket>, log: seq<Sample>, start: int, width: int)
    requires width > 0
    requires forall i | 0 <= i < |slots| :: slots[i] == Tally(log, start - i * width, start - i * width + width)
    ensures Total(slots) == Tally(log, start + width - |slots| * width, start + width).total
    ensures Failures(slots) == Tally(log, start + width - |slots| * width, start + width).failures
  {
    if slots == [] {
      TallyEmptyRange(log, start + width);
    } else {
      var rest := slots[1..];
      var n := |rest|;
      forall i | 0 <= i < n
        ensures rest[i] == Tally(log, (start - width) - i * width, (start - width) - i * width + width)
      {
        assert rest[i] == slots[i + 1];
        assert (i + 1) * width == i * width + width;
      }
      SumIsTally(rest, log, start - width, width);
      assert (n + 1) * width == n * width + width;
      assert n * width >= 0;
      TallyGlue(log, start - n * width, start, start + width);
      assert slots[0] == Tally(log, start, start + width);
    }
  }

  lemma {:induction false} TallyEmptyRange(log: seq<Sample>, t: int)
    ensures Tally(log, t, t) == EMPTY
  {
    if log != [] {
      TallyEmptyRange(log[..|log| - 1], t);
    }
  }

  lemma {:induction false} TallyOpenEnd(log: seq<Sample>, lo: int, hi: int, hi': int)
    requires forall k | 0 <= k < |log| :: log[k].at < hi && log[k].at < hi'
    ensures Tally(log, lo, hi) == Tally(log, lo, hi')
  {
    if log != [] {
      TallyOpenEnd(log[..|log| - 1], lo, hi, hi');
    }
  }

  /** The totals the breaker decides on are those of the log entries no older than nine bucket
      widths before the current bucket began. */
  lemma TotalsAreRecentLog(w: Window, width: int, log: seq<Sample>, hi: int)
    requires width > 0 && Summarises(w, width, log)
    requires forall k | 0 <= k < |log| :: log[k].at < hi
    ensures Total(w.slots) == Tally(log, w.start - 9 * width, hi).total
    ensures Failures(w.slots) == Tally(log, w.start - 9 * width, hi).failures
  {
    SumIsTally(w.slots, log, w.start, width);
    TallyOpenEnd(log, w.start - 9 * width, w.start + width, hi);
  }
}
