/**
 * What the step history tells about the pulses made: the pulses since the last reset or
 * declared position, and the direction each was counted in.
 */
module StepRecord {
  import opened Words
  import opened StepCompression
  import opened StepHistory

  /** The signed number of pulses at or before a clock. */
  function SignedCount(times: seq<nat>, signs: seq<int>, clock: int): int
    requires |times| == |signs|
  {
    if times == [] then 0 else
      var n := |times| - 1;
      SignedCount(times[..n], signs[..n], clock) + if times[n] <= clock then signs[n] else 0
  }

  lemma {:induction false} SignedCountAppend(times: seq<nat>, signs: seq<int>, more: seq<nat>, moreSigns: seq<int>,
                                             clock: int)
    requires |times| == |signs| && |more| == |moreSigns|
    ensures SignedCount(times + more, signs + moreSigns, clock) ==
              SignedCount(times, signs, clock) + SignedCount(more, moreSigns, clock)
  {
    if more == [] {
      assert times + more == times && signs + moreSigns == signs;
    } else {
      var n := |more| - 1;
      SignedCountAppend(times, signs, more[..n], moreSigns[..n], clock);
      assert (times + more)[..|times| + n] == times + more[..n];
      assert (signs + moreSigns)[..|times| + n] == signs + moreSigns[..n];
    }
  }

  function SignOf(h: HistorySteps): int {
    if h.stepCount < 0 then -1 else 1
  }

  /** The times are the first n pulses of an entry, counted in its direction. */
  ghost predicate FirstPulses(h: HistorySteps, n: nat, times: seq<nat>, signs: seq<int>) {
    && |times| == |signs| == n
    && forall k :: 0 <= k < n ==> times[k] == PulseClock(h, k + 1) && signs[k] == SignOf(h)
  }

  lemma {:induction false} EntryCounts(h: HistorySteps, n: nat, times: seq<nat>, signs: seq<int>, clock: int)
    requires FirstPulses(h, n, times, signs)
    ensures SignedCount(times, signs, clock) == SignOf(h) * CountUpTo(h, clock, n)
  {
    if n > 0 {
      EntryCounts(h, n - 1, times[..n - 1], signs[..n - 1], clock);
    }
  }

  /** Entries, newest first, hold exactly the pulses, oldest first. */
  ghost predicate Recorded(entries: seq<HistorySteps>, times: seq<nat>, signs: seq<int>)
    decreases |entries|
  {
    && |times| == |signs|
    && if entries == [] then times == [] else
         var h, n := entries[0], Abs(entries[0].stepCount);
         && 0 < n <= |times|
         && FirstPulses(h, n, times[|times| - n..], signs[|times| - n..])
         && Recorded(entries[1..], times[..|times| - n], signs[..|times| - n])
  }

  lemma {:induction false} RecordedNext(entries: seq<HistorySteps>, times: seq<nat>, signs: seq<int>, h: HistorySteps,
                                        more: seq<nat>, moreSigns: seq<int>)
    requires Recorded(entries, times, signs) && h.stepCount != 0 && FirstPulses(h, Abs(h.stepCount), more, moreSigns)
    ensures Recorded([h] + entries, times + more, signs + moreSigns)
  {
    var all, allSigns := times + more, signs + moreSigns;
    assert ([h] + entries)[1..] == entries;
    assert all[|times|..] == more && allSigns[|times|..] == moreSigns;
    assert all[..|times|] == times && allSigns[..|times|] == signs;
  }

  /** The signed pulses of the entries are the signed pulses made. */
  lemma {:induction false} RecordedCounts(entries: seq<HistorySteps>, times: seq<nat>, signs: seq<int>, clock: int)
    requires Recorded(entries, times, signs)
    ensures SignedPulses(entries, clock) == SignedCount(times, signs, clock)
    decreases |entries|
  {
    if entries != [] {
      var h, n := entries[0], Abs(entries[0].stepCount);
      var k := |times| - n;
      RecordedCounts(entries[1..], times[..k], signs[..k], clock);
      EntryCounts(h, n, times[k..], signs[k..], clock);
      SignedCountAppend(times[..k], signs[..k], times[k..], signs[k..], clock);
      assert times[..k] + times[k..] == times && signs[..k] + signs[k..] == signs;
    }
  }

  /** Without the older entries, the entries left hold the last of the pulses. */
  lemma {:induction false} RecordedPrefix(entries: seq<HistorySteps>, keep: nat, times: seq<nat>, signs: seq<int>)
    returns (m: nat)
    requires Recorded(entries, times, signs) && keep <= |entries|
    ensures m <= |times| && Recorded(entries[..keep], times[m..], signs[m..])
    decreases |entries|
  {
    if keep == 0 {
      m := |times|;
    } else {
      var h, n := entries[0], Abs(entries[0].stepCount);
      var k := |times| - n;
      m := RecordedPrefix(entries[1..], keep - 1, times[..k], signs[..k]);
      hide Recorded, FirstPulses;
      RecordedNext(entries[1..][..keep - 1], times[..k][m..], signs[..k][m..], h, times[k..], signs[k..]);
      TakeFront(entries, keep);
      DropWithin(times, m, k);
      DropWithin(signs, m, k);
    }
  }

  lemma TakeFront<T>(s: seq<T>, n: nat)
    requires 0 < n <= |s|
    ensures s[..n] == [s[0]] + s[1..][..n - 1]
  {
  }

  lemma DropWithin<T>(s: seq<T>, m: nat, k: nat)
    requires m <= k <= |s|
    ensures s[m..] == s[..k][m..] + s[k..]
  {
  }

  lemma {:induction false} RecordedSteps(entries: seq<HistorySteps>, times: seq<nat>, signs: seq<int>)
    requires Recorded(entries, times, signs)
    ensures forall i :: 0 <= i < |entries| ==> entries[i].stepCount != 0
    decreases |entries|
  {
    if entries != [] {
      var k := |times| - Abs(entries[0].stepCount);
      RecordedSteps(entries[1..], times[..k], signs[..k]);
    }
  }

  /** Where the entries since a point in the history started from. */
  function StartOf(history: seq<HistorySteps>, position: int, since: nat): int
    requires since <= |history|
  {
    if since == 0 then position else history[since - 1].startPosition
  }

  /** From the end of the older entries on, the answer is their end position plus the signed pulses since. */
  lemma {:induction false} RecentPosition(history: seq<HistorySteps>, since: nat, clock: int)
    requires Chained(history) && since <= |history| && history != []
    requires forall i :: 0 <= i < since ==> history[i].stepCount != 0
    requires since < |history| ==> history[since].lastClock <= clock
    ensures PositionAt(history, clock)
         == StartOf(history, EndPosition(history[0]), since) + SignedPulses(history[..since], clock)
    decreases since
  {
    if since == 0 {
      AfterNewest(history, clock);
    } else if |history| == 1 {
      assert history[..1][1..] == [];
    } else {
      ChainedTail(history);
      RecentPosition(history[1..], since - 1, clock);
      assert history[..since][1..] == history[1..][..since - 1];
    }
  }

  // ---------------------------------------------------------------------------
  // The record of one stepper
  // ---------------------------------------------------------------------------

  /**
   * A history and the position at its end; the newest `since` entries hold the given pulses, which
   * started from startPosition.
   */
  datatype Record = Record(history: seq<HistorySteps>, position: int, since: nat, startPosition: int,
                           times: seq<nat>, signs: seq<int>)

  ghost predicate RecordOk(r: Record) {
    && Chained(r.history) && (r.history != [] ==> EndPosition(r.history[0]) == r.position)
    && r.since <= |r.history| && Recorded(r.history[..r.since], r.times, r.signs)
    && r.startPosition == StartOf(r.history, r.position, r.since)
  }

  /** A lookup from the end of the older entries on counts the pulses made since. */
  lemma {:induction false} RecordAnswers(r: Record, clock: int)
    requires RecordOk(r) && (r.since < |r.history| ==> r.history[r.since].lastClock <= clock)
    ensures |r.times| == |r.signs| &&
            Lookup(r.history, r.position, clock) == r.startPosition + SignedCount(r.times, r.signs, clock)
  {
    RecordedCounts(r.history[..r.since], r.times, r.signs, clock);
    RecordedSteps(r.history[..r.since], r.times, r.signs);
    if r.history != [] {
      RecentPosition(r.history, r.since, clock);
    }
  }

  /** A command whose pulses begin at or after the end of the history may be recorded. */
  lemma RecordNext(r: Record, h: HistorySteps, more: seq<nat>, moreSigns: seq<int>)
    requires RecordOk(r) && WellFormed(h) && h.stepCount != 0 && h.startPosition == r.position
    requires r.history != [] ==> r.history[0].lastClock <= h.firstClock
    requires FirstPulses(h, Abs(h.stepCount), more, moreSigns)
    ensures RecordOk(Record([h] + r.history, r.position + h.stepCount, r.since + 1, r.startPosition,
                            r.times + more, r.signs + moreSigns))
  {
    hide Chained, WellFormed, Recorded, FirstPulses;
    ChainEntry(r.history, h);
    RecordedNext(r.history[..r.since], r.times, r.signs, h, more, moreSigns);
    assert ([h] + r.history)[..r.since + 1] == [h] + r.history[..r.since];
  }

  /** A declared position starts over, whatever its clock. */
  lemma RecordMarker(r: Record, clock: nat, position: int)
    requires RecordOk(r)
    ensures RecordOk(Record([HistorySteps(clock, clock, position, 0, 0, 0)] + r.history, position, 0, position, [], []))
  {
    var h := HistorySteps(clock, clock, position, 0, 0, 0);
    ChainEntry(r.history, h);
    assert ([h] + r.history)[..0] == [];
  }

  /** Counting may start over anywhere. */
  lemma RecordRestart(r: Record)
    requires RecordOk(r)
    ensures RecordOk(Record(r.history, r.position, 0, r.position, [], []))
  {
    assert r.history[..0] == [];
  }

  /** Dropping the oldest entries keeps the record of those left. */
  lemma RecordExpire(r: Record, keep: nat) returns (since: nat, m: nat)
    requires RecordOk(r) && keep <= |r.history|
    ensures since == Min(r.since, keep) && m <= |r.times| == |r.signs| && (keep >= r.since ==> m == 0)
    ensures RecordOk(Record(r.history[..keep], r.position, since, StartOf(r.history[..keep], r.position, since),
                            r.times[m..], r.signs[m..]))
  {
    ChainedPrefix(r.history, keep);
    since := Min(r.since, keep);
    assert r.history[..keep][..since] == r.history[..r.since][..since];
    if keep >= r.since {
      m := 0;
      assert r.history[..r.since][..since] == r.history[..r.since];
      assert r.times[0..] == r.times && r.signs[0..] == r.signs;
    } else {
      m := RecordedPrefix(r.history[..r.since], since, r.times, r.signs);
    }
  }

  // ---------------------------------------------------------------------------
  // What comes next
  // ---------------------------------------------------------------------------

  /**
   * The next pulse cannot fall before the end of the history: the last step is past it, or the next
   * step to come, queued or pending (0 for none), is, even when it is taken as early as allowed.
   */
  predicate Ahead(history: seq<HistorySteps>, last: nat, clocks: seq<nat>, maxError: nat, pending: nat) {
    history == [] || history[0].lastClock <= last ||
    var next := if clocks != [] then clocks[0] else pending;
    next == 0 || history[0].lastClock <= next - Min(maxError, (next - last) / 2)
  }

  /** A history with only step commands added in front. */
  ghost predicate Grown(earlier: seq<HistorySteps>, history: seq<HistorySteps>) {
    && |earlier| <= |history| && history[|history| - |earlier|..] == earlier
    && forall i :: 0 <= i < |history| - |earlier| ==> history[i].stepCount != 0
  }

  lemma NotGrown(history: seq<HistorySteps>)
    ensures Grown(history, history)
  {
  }

  lemma GrownBy(earlier: seq<HistorySteps>, history: seq<HistorySteps>, h: HistorySteps)
    requires Grown(earlier, history) && h.stepCount != 0
    ensures Grown(earlier, [h] + history)
  {
  }

  lemma GrownAgain(a: seq<HistorySteps>, b: seq<HistorySteps>, c: seq<HistorySteps>)
    requires Grown(a, b) && Grown(b, c)
    ensures Grown(a, c)
  {
  }
}
