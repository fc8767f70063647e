/**
 * The step history: where the stepper was at a past clock. The code solves for the number
 * of pulses by division or by the quadratic formula; the reference counts them one by one.
 */
module StepHistory {
  import opened Words
  import opened StepCompression

  /** One emitted command, or (with stepCount 0) a marker that a position was declared. */
  datatype HistorySteps = HistorySteps(
    firstClock: nat, lastClock: nat, startPosition: int, stepCount: int, interval: int, add: int)

  function Abs(x: int): nat {
    if x < 0 then -x else x
  }

  /** Clock of the k-th pulse of an entry. */
  function PulseClock(h: HistorySteps, k: nat): int {
    h.firstClock - h.interval + Reach(h.interval, h.add, k)
  }

  /** Every interval between two of the n pulses is positive. */
  ghost predicate Rising(interval: int, add: int, n: nat) {
    n > 1 ==> interval > 0 && forall k :: 1 <= k < n ==> Interval(interval, add, k) > 0
  }

  /** Pulses rise from firstClock to lastClock, within the range of an int32_t. */
  ghost predicate WellFormed(h: HistorySteps) {
    && h.firstClock <= h.lastClock
    && (h.stepCount == 0 ==> h.firstClock == h.lastClock)
    && (h.stepCount != 0 ==>
          && Rising(h.interval, h.add, Abs(h.stepCount))
          && PulseClock(h, Abs(h.stepCount)) == h.lastClock
          && (h.firstClock < h.lastClock ==> h.lastClock - h.firstClock + h.interval < TWO31))
  }

  /** How many of the first n pulses are at or before clock. */
  function CountUpTo(h: HistorySteps, clock: int, n: nat): (c: nat)
    ensures c <= n
  {
    if n == 0 then 0 else CountUpTo(h, clock, n - 1) + (if PulseClock(h, n) <= clock then 1 else 0)
  }

  /** Signed steps an entry has taken at a clock. */
  function StepsTaken(h: HistorySteps, clock: int): int {
    var taken: int := CountUpTo(h, clock, Abs(h.stepCount));
    if h.stepCount < 0 then -taken else taken
  }

  lemma {:induction false} PulsesRise(h: HistorySteps, n: nat, i: nat, j: nat)
    requires Rising(h.interval, h.add, n) && 1 <= i <= j <= n
    ensures PulseClock(h, i) <= PulseClock(h, j)
    ensures i < j ==> PulseClock(h, i) < PulseClock(h, j)
    decreases j
  {
    if i < j {
      PulsesRise(h, n, i, j - 1);
      assert Interval(h.interval, h.add, j - 1) > 0;
    }
  }

  /** Pulse j at or before the clock and pulse j + 1 after it: exactly j have happened. */
  lemma {:induction false} CountIsThreshold(h: HistorySteps, clock: int, n: nat, j: nat, m: nat)
    requires Rising(h.interval, h.add, n) && m <= n && j <= n
    requires j > 0 ==> PulseClock(h, j) <= clock
    requires j < n ==> clock < PulseClock(h, j + 1)
    ensures CountUpTo(h, clock, m) == Min(j, m)
  {
    if m > 0 {
      CountIsThreshold(h, clock, n, j, m - 1);
      if m <= j { PulsesRise(h, n, m, j); } else { PulsesRise(h, n, j + 1, m); }
    }
  }

  lemma CountOutside(h: HistorySteps, clock: int)
    requires WellFormed(h) && h.stepCount != 0
    ensures clock < h.firstClock ==> StepsTaken(h, clock) == 0
    ensures clock >= h.lastClock ==> StepsTaken(h, clock) == h.stepCount
  {
    var n := Abs(h.stepCount);
    assert PulseClock(h, 1) == h.firstClock by { assert Reach(h.interval, h.add, 1) == h.interval; }
    if clock < h.firstClock { CountIsThreshold(h, clock, n, 0, n); }
    if clock >= h.lastClock { CountIsThreshold(h, clock, n, n, n); }
  }

  // ---------------------------------------------------------------------------
  // The quadratic formula
  // ---------------------------------------------------------------------------

  /** a*x*x + b*x with a = add/2 and b = interval - add/2: Reach at a real argument. */
  function RealReach(interval: int, add: int, x: real): real {
    0.5 * add as real * x * x + (interval as real - 0.5 * add as real) * x
  }

  lemma ToRealMul(x: int, y: int)
    ensures (x * y) as real == x as real * y as real
  {
  }

  lemma {:induction false} RealReachAgrees(interval: int, add: int, k: nat)
    ensures RealReach(interval, add, k as real) == Reach(interval, add, k) as real
  {
    ReachClosed(interval, add, k);
    TwiceTri(k);
    assert k * (k - 1) == k * k - k;
    var t := Tri(k);
    ToRealMul(add, t);
    ToRealMul(interval, k);
    ToRealMul(k, k);
    RealReachForm(interval as real, add as real, k as real, t as real);
  }

  lemma RealReachForm(interval: real, add: real, k: real, t: real)
    requires 2.0 * t == k * k - k
    ensures 0.5 * add * k * k + (interval - 0.5 * add) * k == add * t + interval * k
  {
    assert add * t == 0.5 * add * (k * k - k);
  }

  /** What sqrt computes, in exact reals. */
  ghost predicate IsSqrt(sqrt: real -> real) {
    forall x :: x >= 0.0 ==> sqrt(x) >= 0.0 && sqrt(x) * sqrt(x) == x
  }

  /** Slope of RealReach at x. */
  function Slope(interval: int, add: int, x: real): real {
    add as real * x + (interval as real - 0.5 * add as real)
  }

  /** A difference of two values is the distance times the mean slope. */
  lemma ReachDifference(interval: int, add: int, x: real, y: real)
    ensures RealReach(interval, add, x) - RealReach(interval, add, y)
         == (x - y) * 0.5 * (Slope(interval, add, x) + Slope(interval, add, y))
  {
    var a, b := 0.5 * add as real, interval as real - 0.5 * add as real;
    assert (x - y) * 0.5 * (2.0 * a * x + b + 2.0 * a * y + b) == a * x * x + b * x - (a * y * y + b * y);
  }

  /** Where both end slopes are non-negative (one of them positive), the function rises. */
  lemma ReachRises(interval: int, add: int, x: real, y: real)
    requires x <= y && Slope(interval, add, x) + Slope(interval, add, y) > 0.0
    ensures RealReach(interval, add, x) <= RealReach(interval, add, y)
    ensures x < y ==> RealReach(interval, add, x) < RealReach(interval, add, y)
  {
    ReachDifference(interval, add, y, x);
    var d, m := y - x, Slope(interval, add, x) + Slope(interval, add, y);
    assert d > 0.0 ==> d * m > 0.0;
    assert d * 0.5 * m == 0.5 * (d * m);
  }

  /** The slope at the root the code picks is the (non-negative) square root. */
  lemma RootOfDiscriminant(interval: int, add: int, ticks: real, s: real, r: real)
    requires add != 0
    requires s * s == SquareB(interval, add) + 2.0 * add as real * ticks
    requires r * add as real == s - (interval as real - 0.5 * add as real)
    ensures Slope(interval, add, r) == s
    ensures RealReach(interval, add, r) == ticks
  {
    var a, b := add as real, interval as real - 0.5 * add as real;
    assert r * a == s - b;
    assert a * RealReach(interval, add, r) == 0.5 * (r * a) * (r * a) + b * (r * a);
    assert 0.5 * (s - b) * (s - b) + b * (s - b) == 0.5 * (s * s - b * b);
    assert a * RealReach(interval, add, r) == a * ticks;
    CancelFactor(a, RealReach(interval, add, r), ticks);
  }

  function SquareB(interval: int, add: int): real {
    (interval as real - 0.5 * add as real) * (interval as real - 0.5 * add as real)
  }

  lemma CancelFactor(a: real, x: real, y: real)
    requires a != 0.0 && a * x == a * y
    ensures x == y
  {
    assert a * (x - y) == 0.0;
  }

  /** The two sides of a pulse's slope are the intervals around it. */
  lemma SlopeAt(interval: int, add: int, k: nat)
    requires k >= 1
    ensures 2.0 * Slope(interval, add, k as real)
         == Interval(interval, add, k) as real + Interval(interval, add, k - 1) as real
  {
    IntervalClosed(interval, add, k);
    ToRealMul(add, k);
  }

  /** The discriminant at x is the square of the slope there. */
  lemma SlopeSquared(interval: int, add: int, x: real)
    ensures Slope(interval, add, x) * Slope(interval, add, x)
         == SquareB(interval, add) + 2.0 * add as real * RealReach(interval, add, x)
  {
    var a, b := add as real, interval as real - 0.5 * add as real;
    assert (a * x + b) * (a * x + b) == b * b + 2.0 * a * (0.5 * a * x * x + b * x);
  }

  lemma {:induction false} SquareNonNegative(x: real)
    ensures x * x >= 0.0
  {
    if x >= 0.0 { assert x * x >= 0.0; } else { assert (-x) * (-x) == x * x; }
  }

  /** Before the last pulse the discriminant is non-negative, whatever the sign of add. */
  lemma {:induction false} DiscriminantNonNegative(interval: int, add: int, n: nat, ticks: int)
    requires 0 < ticks < Reach(interval, add, n)
    ensures SquareB(interval, add) + 2.0 * add as real * ticks as real >= 0.0
  {
    var slope := Slope(interval, add, n as real);
    SlopeSquared(interval, add, n as real);
    RealReachAgrees(interval, add, n);
    SquareNonNegative(slope);
    SquareNonNegative(interval as real - 0.5 * add as real);
    DiscriminantOrder(SquareB(interval, add), 2.0 * add as real, ticks as real, Reach(interval, add, n) as real);
  }

  lemma DiscriminantOrder(b2: real, a: real, x: real, y: real)
    requires b2 >= 0.0 && b2 + a * y >= 0.0 && 0.0 < x < y
    ensures b2 + a * x >= 0.0
  {
    if a < 0.0 { ScaledOrder(a, x, y); } else { assert a * x >= 0.0; }
  }

  lemma ScaledOrder(a: real, x: real, y: real)
    requires a <= 0.0 && x <= y
    ensures a * x >= a * y
  {
    assert (-a) * (y - x) >= 0.0;
  }

  /** Intervals around pulse k are positive, so the slope there is. */
  lemma SlopePositive(interval: int, add: int, n: nat, k: nat)
    requires Rising(interval, add, n) && 1 <= k < n
    ensures Slope(interval, add, k as real) > 0.0
  {
    SlopeAt(interval, add, k);
    assert Interval(interval, add, k) > 0;
    if k > 1 { assert Interval(interval, add, k - 1) > 0; }
  }

  /** The real root lies between pulse j and pulse j + 1, when its ticks do. */
  lemma RootBrackets(interval: int, add: int, n: nat, ticks: int, r: real, j: nat)
    requires add != 0 && Rising(interval, add, n) && 1 <= j < n
    requires RealReach(interval, add, r) == ticks as real && Slope(interval, add, r) >= 0.0
    requires Reach(interval, add, j) <= ticks < Reach(interval, add, j + 1)
    ensures j as real <= r < (j + 1) as real
  {
    RealReachAgrees(interval, add, j);
    RealReachAgrees(interval, add, j + 1);
    SlopePositive(interval, add, n, j);
    if r < j as real {
      ReachRises(interval, add, r, j as real);
      assert false;
    }
    var e := (j + 1) as real;
    if r >= e {
      SlopeOrder(interval, add, e, r);
      SlopeOrder(interval, add, j as real, e);
      if Slope(interval, add, e) + Slope(interval, add, r) > 0.0 {
        ReachRises(interval, add, e, r);
      } else {
        CancelFactor(add as real, e, r);
      }
      assert false;
    }
  }

  lemma SlopeOrder(interval: int, add: int, x: real, y: real)
    requires x <= y
    ensures add > 0 ==> Slope(interval, add, x) <= Slope(interval, add, y)
    ensures add < 0 ==> Slope(interval, add, x) >= Slope(interval, add, y)
  {
    var a, d := add as real, y - x;
    assert a * y - a * x == a * d;
    if add > 0 { assert a * d >= 0.0; } else if add < 0 { assert (-a) * d >= 0.0; }
  }

  // ---------------------------------------------------------------------------
  // Looking up a past position
  // ---------------------------------------------------------------------------

  /** The last pulse at or before a clock inside the entry. */
  lemma {:induction false} FindThreshold(h: HistorySteps, clock: int, n: nat) returns (j: nat)
    requires WellFormed(h) && 1 <= n <= Abs(h.stepCount)
    requires h.firstClock <= clock < PulseClock(h, n)
    ensures 1 <= j < n && PulseClock(h, j) <= clock < PulseClock(h, j + 1)
  {
    assert PulseClock(h, 1) == h.firstClock by { assert Reach(h.interval, h.add, 1) == h.interval; }
    if PulseClock(h, n - 1) <= clock && n > 1 {
      j := n - 1;
    } else {
      j := FindThreshold(h, clock, n - 1);
    }
  }

  /** The quadratic formula for the pulse count, cut to an integer. */
  function QuadraticOffset(interval: int, add: int, ticks: int, sqrt: real -> real): int
    requires add != 0
  {
    var a, b, c := 0.5 * add as real, interval as real - 0.5 * add as real, -(ticks as real);
    ((sqrt(b * b - 4.0 * a * c) - b) / (2.0 * a)).Floor
  }

  /** The offset computed inside an entry, with the 32-bit tick count the code forms. */
  function Offset(h: HistorySteps, clock: int, sqrt: real -> real): int
    requires h.add == 0 ==> h.interval > 0
  {
    var ticks := S32(U32(clock - h.firstClock)) + h.interval;
    if h.add == 0 then CDiv(ticks, h.interval) else QuadraticOffset(h.interval, h.add, ticks, sqrt)
  }

  /** The root the formula picks satisfies the hypotheses of RootBrackets. */
  lemma FormulaRoot(interval: int, add: int, n: nat, ticks: int, sqrt: real -> real) returns (r: real)
    requires IsSqrt(sqrt) && add != 0 && n > 1 && Rising(interval, add, n) && 0 < ticks < Reach(interval, add, n)
    ensures var a, b, c := 0.5 * add as real, interval as real - 0.5 * add as real, -(ticks as real);
            r == (sqrt(b * b - 4.0 * a * c) - b) / (2.0 * a)
    ensures RealReach(interval, add, r) == ticks as real && Slope(interval, add, r) >= 0.0
  {
    var a, b, c := 0.5 * add as real, interval as real - 0.5 * add as real, -(ticks as real);
    var d := b * b - 4.0 * a * c;
    assert d == SquareB(interval, add) + 2.0 * add as real * ticks as real;
    DiscriminantNonNegative(interval, add, n, ticks);
    var s := sqrt(d);
    assert s >= 0.0 && s * s == d;
    r := (s - b) / (2.0 * a);
    assert r * add as real == s - b;
    RootOfDiscriminant(interval, add, ticks as real, s, r);
  }

  lemma QuadraticOffsetIs(interval: int, add: int, n: nat, ticks: int, j: nat, sqrt: real -> real)
    requires IsSqrt(sqrt) && add != 0 && Rising(interval, add, n) && 1 <= j < n
    requires 0 < ticks < Reach(interval, add, n)
    requires Reach(interval, add, j) <= ticks < Reach(interval, add, j + 1)
    ensures QuadraticOffset(interval, add, ticks, sqrt) == j
  {
    var r := FormulaRoot(interval, add, n, ticks, sqrt);
    RootBrackets(interval, add, n, ticks, r, j);
  }

  lemma DivisionOffsetIs(interval: int, ticks: int, j: nat)
    requires interval > 0 && Reach(interval, 0, j) <= ticks < Reach(interval, 0, j + 1)
    ensures CDiv(ticks, interval) == j
  {
    ReachClosed(interval, 0, j);
    ReachClosed(interval, 0, j + 1);
    QuotientIs(ticks, interval, j);
  }

  lemma EntryInterval(h: HistorySteps)
    requires WellFormed(h) && h.firstClock < h.lastClock
    ensures Abs(h.stepCount) > 1 && h.interval > 0
  {
    assert Reach(h.interval, h.add, 1) == h.interval;
  }

  /** Inside an entry the computed offset is the number of pulses counted one by one. */
  lemma {:induction false} OffsetCounts(h: HistorySteps, clock: int, sqrt: real -> real)
    requires IsSqrt(sqrt) && WellFormed(h) && h.firstClock <= clock < h.lastClock
    ensures h.interval > 0 && Offset(h, clock, sqrt) == CountUpTo(h, clock, Abs(h.stepCount))
  {
    EntryInterval(h);
    var n, ticks := Abs(h.stepCount), clock - h.firstClock + h.interval;
    assert S32(U32(clock - h.firstClock)) == clock - h.firstClock;
    var j := FindThreshold(h, clock, n);
    CountIsThreshold(h, clock, n, j, n);
    if h.add == 0 {
      DivisionOffsetIs(h.interval, ticks, j);
    } else {
      QuadraticOffsetIs(h.interval, h.add, n, ticks, j, sqrt);
    }
  }

  lemma QuotientIs(ticks: int, d: int, j: nat)
    requires d > 0 && d * j <= ticks < d * (j + 1)
    ensures CDiv(ticks, d) == j
  {
    assert 0 <= d * j;
    IdivDownGreatest(ticks, d, j);
    IdivDownGreatest(ticks, d, j + 1);
  }

  /** The position the entry leaves behind. */
  function EndPosition(h: HistorySteps): int {
    h.startPosition + h.stepCount
  }

  /** A command starts where the entry before it ended, and no earlier; a marker may be put anywhere. */
  predicate Continues(h: HistorySteps, earlier: HistorySteps) {
    h.stepCount != 0 ==> earlier.lastClock <= h.firstClock && h.startPosition == EndPosition(earlier)
  }

  /**
   * A history, newest entry first: entries are well formed, and each command follows the entry before it. A
   * marker restarts from its own position at its own clock, which may lie before the end of recorded steps.
   */
  ghost predicate Chained(history: seq<HistorySteps>) {
    && (forall i :: 0 <= i < |history| ==> WellFormed(history[i]))
    && (forall i :: 0 <= i < |history| - 1 ==> Continues(history[i], history[i + 1]))
  }

  /** The reference answer: the newest marker reached, plus every pulse counted since. */
  function PositionAt(history: seq<HistorySteps>, clock: int): int
    requires |history| > 0
  {
    var h := history[0];
    if |history| == 1 || (h.stepCount == 0 && clock >= h.firstClock) then h.startPosition + StepsTaken(h, clock)
    else PositionAt(history[1..], clock) + StepsTaken(h, clock)
  }

  /** Signed pulses of all entries at or before a clock. */
  function SignedPulses(history: seq<HistorySteps>, clock: int): int {
    if history == [] then 0 else StepsTaken(history[0], clock) + SignedPulses(history[1..], clock)
  }

  /** Without markers the answer is the start position plus every signed pulse up to the clock. */
  lemma {:induction false} PositionCountsPulses(history: seq<HistorySteps>, clock: int)
    requires |history| > 0 && forall i :: 0 <= i < |history| ==> history[i].stepCount != 0
    ensures PositionAt(history, clock) == history[|history| - 1].startPosition + SignedPulses(history, clock)
  {
    if |history| > 1 {
      PositionCountsPulses(history[1..], clock);
    } else {
      assert SignedPulses(history[1..], clock) == 0;
    }
  }

  lemma ChainedTail(history: seq<HistorySteps>)
    requires Chained(history) && |history| > 0
    ensures Chained(history[1..])
  {
    hide WellFormed, Continues;
    var t := history[1..];
    forall i | 0 <= i < |t| - 1
      ensures Continues(t[i], t[i + 1])
    {
      assert t[i] == history[i + 1] && t[i + 1] == history[i + 2];
    }
  }

  /** A command that follows the newest entry, or a marker at any clock, may be put in front. */
  lemma ChainEntry(history: seq<HistorySteps>, h: HistorySteps)
    requires Chained(history) && WellFormed(h) && (history != [] ==> Continues(h, history[0]))
    ensures Chained([h] + history)
  {
    hide WellFormed, Continues;
    var t := [h] + history;
    forall i | 0 <= i < |t| - 1
      ensures Continues(t[i], t[i + 1])
    {
      assert i > 0 ==> t[i] == history[i - 1] && t[i + 1] == history[i];
    }
  }

  /** Once the newest entry is over, the answer is where it ended. */
  lemma {:induction false} AfterNewest(history: seq<HistorySteps>, clock: int)
    requires Chained(history) && |history| > 0 && clock >= history[0].lastClock
    ensures PositionAt(history, clock) == EndPosition(history[0])
  {
    var h := history[0];
    if h.stepCount != 0 {
      CountOutside(h, clock);
      if |history| > 1 {
        ChainedTail(history);
        assert Continues(history[0], history[1]) && WellFormed(history[0]);
        AfterNewest(history[1..], clock);
      }
    }
  }

  /** Inside the newest entry, or after it, older entries are complete. */
  lemma {:induction false} InNewest(history: seq<HistorySteps>, clock: int)
    requires Chained(history) && |history| > 0 && clock >= history[0].firstClock
    ensures PositionAt(history, clock) == history[0].startPosition + StepsTaken(history[0], clock)
  {
    if |history| > 1 && history[0].stepCount != 0 {
      ChainedTail(history);
      assert Continues(history[0], history[1]);
      AfterNewest(history[1..], clock);
    }
  }

  /** Before the newest entry, it contributes nothing. */
  lemma {:induction false} BeforeNewest(history: seq<HistorySteps>, clock: int)
    requires Chained(history) && |history| > 0 && clock < history[0].firstClock
    ensures PositionAt(history, clock)
         == if |history| == 1 then history[0].startPosition else PositionAt(history[1..], clock)
  {
    if history[0].stepCount != 0 { CountOutside(history[0], clock); }
  }

  /** Where the loop stands after skipping i entries: the answer, or its default when none is left. */
  function Remaining(history: seq<HistorySteps>, i: nat, clock: int, fallback: int): int
    requires i <= |history|
  {
    if i == |history| then fallback else PositionAt(history[i..], clock)
  }

  lemma {:induction false} ChainedFrom(history: seq<HistorySteps>, i: nat)
    requires Chained(history) && i <= |history|
    ensures Chained(history[i..])
  {
    if i > 0 {
      ChainedFrom(history, i - 1);
      if i - 1 < |history| { ChainedTail(history[i - 1..]); assert history[i - 1..][1..] == history[i..]; }
    } else {
      assert history[0..] == history;
    }
  }

  lemma SkipOne(history: seq<HistorySteps>, i: nat, clock: int, fallback: int)
    requires Chained(history) && i < |history| && clock < history[i].firstClock
    ensures Remaining(history, i, clock, fallback) == Remaining(history, i + 1, clock, history[i].startPosition)
  {
    ChainedFrom(history, i);
    BeforeNewest(history[i..], clock);
    assert history[i..][1..] == history[i + 1..];
  }

  /** The answer drawn from entry i, once the clock has reached it. */
  lemma StopAt(history: seq<HistorySteps>, i: nat, clock: int, fallback: int, sqrt: real -> real)
    requires Chained(history) && IsSqrt(sqrt) && i < |history| && clock >= history[i].firstClock
    ensures var h, answer := history[i], Remaining(history, i, clock, fallback);
            if clock >= h.lastClock then answer == EndPosition(h)
            else h.interval > 0
                 && answer - h.startPosition
                    == if h.stepCount < 0 then -Offset(h, clock, sqrt) else Offset(h, clock, sqrt)
  {
    ChainedFrom(history, i);
    if clock >= history[i].lastClock {
      AfterNewest(history[i..], clock);
    } else {
      InNewest(history[i..], clock);
      OffsetCounts(history[i], clock, sqrt);
    }
  }

  /** Search the history, newest first, for the position at a clock. */
  method FindPastPosition(history: seq<HistorySteps>, lastPosition: int, clock: nat, sqrt: real -> real)
    returns (position: int)
    requires Chained(history) && IsSqrt(sqrt)
    ensures position == if history == [] then lastPosition else PositionAt(history, clock)
  {
    position := lastPosition;
    assert history[0..] == history;
    var i := 0;
    while i < |history|
      invariant 0 <= i <= |history|
      invariant Remaining(history, i, clock, position) == Remaining(history, 0, clock, lastPosition)
    {
      var h := history[i];
      if clock < h.firstClock {
        SkipOne(history, i, clock, position);
        position, i := h.startPosition, i + 1;
        continue;
      }
      StopAt(history, i, clock, position, sqrt);
      if clock >= h.lastClock {
        return h.startPosition + h.stepCount;
      }
      var offset := Offset(h, clock, sqrt);
      return if h.stepCount < 0 then h.startPosition - offset else h.startPosition + offset;
    }
  }

  // ---------------------------------------------------------------------------
  // Expiring history
  // ---------------------------------------------------------------------------

  /** Entries beyond the first keep are over by endClock, and entry keep - 1 is not. */
  ghost predicate KeptUpTo(history: seq<HistorySteps>, keep: nat, endClock: nat) {
    && keep <= |history|
    && (forall i :: keep <= i < |history| ==> history[i].lastClock <= endClock)
    && (keep > 0 ==> history[keep - 1].lastClock > endClock)
  }

  /** Drop entries from the old end while they are over by endClock. */
  method FreeHistory(history: seq<HistorySteps>, endClock: nat) returns (kept: seq<HistorySteps>)
    ensures kept <= history && KeptUpTo(history, |kept|, endClock)
  {
    kept := history;
    while kept != []
      invariant kept <= history
      invariant forall i :: |kept| <= i < |history| ==> history[i].lastClock <= endClock
    {
      var h := kept[|kept| - 1];
      if h.lastClock > endClock {
        break;
      }
      kept := kept[..|kept| - 1];
    }
  }

  lemma {:induction false} ChainedPrefix(history: seq<HistorySteps>, keep: nat)
    requires Chained(history) && keep <= |history|
    ensures Chained(history[..keep])
  {
    hide WellFormed, Continues;
    var t := history[..keep];
    forall i | 0 <= i < |t| - 1
      ensures Continues(t[i], t[i + 1])
    {
      assert t[i] == history[i] && t[i + 1] == history[i + 1];
    }
  }

  predicate IsMarkerBy(h: HistorySteps, clock: int) {
    h.stepCount == 0 && h.firstClock <= clock
  }

  /** One of the newest n entries is a marker at or before the clock. */
  predicate MarkerReached(history: seq<HistorySteps>, n: nat, clock: int)
    requires n <= |history|
  {
    exists i :: 0 <= i < n && IsMarkerBy(history[i], clock)
  }

  /** How far the answer moves when older entries are dropped. */
  function ExpiryShift(history: seq<HistorySteps>, keep: nat, clock: int): int
    requires 1 <= keep < |history|
  {
    if history[keep - 1].stepCount == 0 && !MarkerReached(history, keep, clock)
    then EndPosition(history[keep]) - history[keep - 1].startPosition else 0
  }

  lemma {:induction false} DropOlder(history: seq<HistorySteps>, keep: nat, clock: int)
    requires Chained(history) && 1 <= keep < |history| && history[keep].lastClock <= clock
    ensures PositionAt(history, clock) == PositionAt(history[..keep], clock) + ExpiryShift(history, keep, clock)
  {
    ChainedTail(history);
    var h, rest := history[0], history[1..];
    if keep == 1 {
      AfterNewest(rest, clock);
      assert Continues(h, history[1]);
    } else if IsMarkerBy(h, clock) {
      assert MarkerReached(history, keep, clock);
    } else {
      assert history[..keep][1..] == rest[..keep - 1];
      DropOlder(rest, keep - 1, clock);
      ReachedLater(history, keep, clock);
    }
  }

  lemma ReachedLater(history: seq<HistorySteps>, n: nat, clock: int)
    requires 1 <= n <= |history| && !IsMarkerBy(history[0], clock)
    ensures MarkerReached(history, n, clock) <==> MarkerReached(history[1..], n - 1, clock)
  {
    hide IsMarkerBy;
    if MarkerReached(history, n, clock) {
      var i :| 0 <= i < n && IsMarkerBy(history[i], clock);
      assert history[1..][i - 1] == history[i];
    }
    if MarkerReached(history[1..], n - 1, clock) {
      var i :| 0 <= i < n - 1 && IsMarkerBy(history[1..][i], clock);
      assert history[1..][i] == history[i + 1];
    }
  }

  lemma ReachedLonger(history: seq<HistorySteps>, n: nat, clock: int, later: int)
    requires n <= |history| && clock <= later && MarkerReached(history, n, clock)
    ensures MarkerReached(history, n, later)
  {
    var i :| 0 <= i < n && IsMarkerBy(history[i], clock);
    assert IsMarkerBy(history[i], later);
  }

  /** What a lookup answers. */
  function Lookup(history: seq<HistorySteps>, lastPosition: int, clock: int): int {
    if history == [] then lastPosition else PositionAt(history, clock)
  }

  /** The oldest kept entry is a marker that moved the position. */
  predicate MovedByMarker(history: seq<HistorySteps>, keep: nat) {
    && 1 <= keep < |history| && history[keep - 1].stepCount == 0
    && history[keep - 1].startPosition != EndPosition(history[keep])
  }

  /**
   * Expiring up to endClock leaves every answer from endClock on unchanged exactly when the oldest entry kept
   * is not a marker that moved the position, or a newer marker is reached by then.
   */
  lemma ExpiryKeepsAnswers(history: seq<HistorySteps>, keep: nat, endClock: nat, lastPosition: int)
    requires Chained(history) && KeptUpTo(history, keep, endClock)
    requires history != [] ==> lastPosition == EndPosition(history[0])
    ensures (forall clock: nat :: clock >= endClock ==>
               Lookup(history[..keep], lastPosition, clock) == Lookup(history, lastPosition, clock))
            <==> !MovedByMarker(history, keep) || MarkerReached(history, keep, endClock)
  {
    if keep == |history| {
      assert history[..keep] == history;
    } else {
      forall clock: nat | clock >= endClock
        ensures Lookup(history, lastPosition, clock)
             == Lookup(history[..keep], lastPosition, clock)
               + (if keep == 0 then 0 else ExpiryShift(history, keep, clock))
      {
        if keep == 0 { AfterNewest(history, clock); } else { DropOlder(history, keep, clock); }
      }
      hide Chained, PositionAt;
      if MovedByMarker(history, keep) {
        if MarkerReached(history, keep, endClock) {
          forall clock: nat | clock >= endClock
            ensures ExpiryShift(history, keep, clock) == 0
          {
            ReachedLonger(history, keep, endClock, clock);
          }
        } else {
          assert ExpiryShift(history, keep, endClock) != 0;
          assert Lookup(history[..keep], lastPosition, endClock) != Lookup(history, lastPosition, endClock);
        }
      }
    }
  }

  lemma MarkerWaits(h: HistorySteps, clock: int)
    requires h.stepCount == 0 && h.firstClock == h.lastClock
    ensures WellFormed(h) && StepsTaken(h, clock) == 0
  {
  }

  lemma StepAtTen(step: HistorySteps)
    requires step == HistorySteps(10, 10, 0, 1, 10, 0)
    ensures WellFormed(step) && StepsTaken(step, 20) == 1
  {
    assert Reach(10, 0, 1) == 10 && PulseClock(step, 1) == 10;
    assert CountUpTo(step, 20, 0) == 0 && CountUpTo(step, 20, 1) == 1;
  }

  /** A step up to position 1 at clock 10, then position 5 declared at clock 30: expiry to clock 20 moves the answer. */
  lemma ExpiryCanMoveAnswer(step: HistorySteps, marker: HistorySteps)
    requires step == HistorySteps(10, 10, 0, 1, 10, 0) && marker == HistorySteps(30, 30, 5, 0, 0, 0)
    ensures Chained([marker, step]) && KeptUpTo([marker, step], 1, 20)
    ensures Lookup([marker, step], 5, 20) == 1 && Lookup([marker], 5, 20) == 5
  {
    StepAtTen(step);
    hide WellFormed, StepsTaken, Reach;
    MarkerWaits(marker, 20);
    assert Continues(marker, step);
    assert Chained([marker, step]);
    hide Chained;
    assert [marker, step][1..] == [step];
    assert PositionAt([step], 20) == 1;
  }
}
