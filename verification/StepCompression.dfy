/**
 * The search that turns queued step times into one (interval, count, add) command,
 * and the line check that guards it.
 */
module StepCompression {
  import opened Words

  /** Maximum clock distance between the last step and a queued one (3<<28). */
  const CLOCK_DIFF_MAX: nat := 0x3000_0000
  const QUADRATIC_DEV: nat := 11
  const MAX_COUNT: nat := 65535

  /** What the search reads: last_step_clock, the queued low 32 bits, and max_error. */
  datatype View = View(lastClock: nat, queue: seq<nat>, maxError: nat)

  datatype StepMove = StepMove(interval: nat, count: nat, add: int)

  datatype Points = Points(minp: int, maxp: int)

  // ---------------------------------------------------------------------------
  // Integer division as the C code rounds it
  // ---------------------------------------------------------------------------

  /** C's division: truncation toward zero. */
  function CDiv(n: int, d: int): (r: int)
    requires d > 0
  {
    if n >= 0 then n / d else -((-n) / d)
  }

  /** Quotient rounded up. */
  function IdivUp(n: int, d: int): (r: int)
    requires d > 0
  {
    if n >= 0 then CDiv(n + d - 1, d) else CDiv(n, d)
  }

  /** Quotient rounded down. */
  function IdivDown(n: int, d: int): (r: int)
    requires d > 0
  {
    if n >= 0 then CDiv(n, d) else CDiv(n - d + 1, d)
  }

  lemma MulMonotone(x: int, y: int, d: int)
    requires x <= y && d >= 0
    ensures x * d <= y * d
  {
  }

  /** IdivUp is the least integer whose product with d reaches n. */
  lemma IdivUpLeast(n: int, d: int, i: int)
    requires d > 0
    ensures i >= IdivUp(n, d) <==> i * d >= n
  {
    var r := IdivUp(n, d);
    assert (r - 1) * d < n <= r * d;
    if i >= r { MulMonotone(r, i, d); } else { MulMonotone(i, r - 1, d); }
  }

  /** IdivDown is the greatest integer whose product with d stays within n. */
  lemma IdivDownGreatest(n: int, d: int, i: int)
    requires d > 0
    ensures i <= IdivDown(n, d) <==> i * d <= n
  {
    var r := IdivDown(n, d);
    assert r * d <= n < (r + 1) * d;
    if i <= r { MulMonotone(i, r, d); } else { MulMonotone(r + 1, i, d); }
  }

  // ---------------------------------------------------------------------------
  // Requested points and their windows
  // ---------------------------------------------------------------------------

  /** Distance of queued step i from the last step, in 32-bit arithmetic. */
  function Point(v: View, i: nat): nat
    requires i < |v.queue|
  {
    U32(v.queue[i] - v.lastClock)
  }

  function PrevPoint(v: View, i: nat): nat
    requires i < |v.queue|
  {
    if i == 0 then 0 else Point(v, i - 1)
  }

  function Slack(v: View, i: nat): nat
    requires i < |v.queue|
  {
    var half := U32(Point(v, i) - PrevPoint(v, i)) / 2;
    if half > v.maxError then v.maxError else half
  }

  /** The acceptable times of queued step i, as int32_t. */
  function MinMaxPoint(v: View, i: nat): Points
    requires i < |v.queue|
  {
    Points(S32(U32(Point(v, i) - Slack(v, i))), S32(Point(v, i)))
  }

  predicate OrderedAt(v: View, i: nat)
    requires i < |v.queue|
  {
    PrevPoint(v, i) < Point(v, i) < CLOCK_DIFF_MAX
  }

  /** Queued steps strictly increase, after the last step and within CLOCK_DIFF_MAX of it. */
  ghost predicate Ordered(v: View) {
    forall i: nat :: i < |v.queue| ==> OrderedAt(v, i)
  }

  /** On an ordered queue the windows are the plain arithmetic ones, after the previous point. */
  lemma WindowShape(v: View, i: nat)
    requires Ordered(v) && i < |v.queue|
    ensures MinMaxPoint(v, i).maxp == Point(v, i) < CLOCK_DIFF_MAX
    ensures MinMaxPoint(v, i).minp == Point(v, i) - Min(v.maxError, (Point(v, i) - PrevPoint(v, i)) / 2)
    ensures 0 <= PrevPoint(v, i) < MinMaxPoint(v, i).minp <= MinMaxPoint(v, i).maxp
  {
    var p, q := Point(v, i), PrevPoint(v, i);
    assert OrderedAt(v, i);
    assert U32(p - q) == p - q;
    assert Slack(v, i) == Min(v.maxError, (p - q) / 2);
    assert U32(p - Slack(v, i)) == p - Slack(v, i);
  }

  /** A later window lies wholly after an earlier one. */
  lemma {:induction false} WindowsAscend(v: View, i: nat, j: nat)
    requires Ordered(v) && i < j < |v.queue|
    ensures MinMaxPoint(v, i).maxp < MinMaxPoint(v, j).minp
    decreases j
  {
    WindowShape(v, j);
    WindowShape(v, j - 1);
    if i < j - 1 { WindowsAscend(v, i, j - 1); }
  }

  // ---------------------------------------------------------------------------
  // Replaying a command
  // ---------------------------------------------------------------------------

  /** The microcontroller's interval after k bumps by add. */
  function Interval(interval: int, add: int, k: nat): int {
    if k == 0 then interval else Interval(interval, add, k - 1) + add
  }

  /** Ticks from the last step to pulse k: each pulse follows the previous one by the interval. */
  function Reach(interval: int, add: int, k: nat): int {
    if k == 0 then 0 else Reach(interval, add, k - 1) + Interval(interval, add, k - 1)
  }

  function Tri(k: nat): int {
    k * (k - 1) / 2
  }

  lemma TriStep(k: nat)
    ensures Tri(k + 1) == Tri(k) + k
  {
    assert (k + 1) * k == k * (k - 1) + 2 * k;
  }

  lemma {:induction false} IntervalClosed(interval: int, add: int, k: nat)
    ensures Interval(interval, add, k) == interval + add * k
  {
    if k > 0 {
      IntervalClosed(interval, add, k - 1);
      assert add * k == add * (k - 1) + add;
    }
  }

  /** The closed form the host code computes with is the replayed rule. */
  lemma {:induction false} ReachClosed(interval: int, add: int, k: nat)
    ensures Reach(interval, add, k) == add * Tri(k) + interval * k
  {
    if k > 0 {
      ReachClosed(interval, add, k - 1);
      IntervalClosed(interval, add, k - 1);
      TriStep(k - 1);
      assert add * (Tri(k - 1) + (k - 1)) == add * Tri(k - 1) + add * (k - 1);
      assert interval * k == interval * (k - 1) + interval;
    }
  }

  predicate InWindow(v: View, interval: int, add: int, k: nat)
    requires 1 <= k <= |v.queue|
  {
    MinMaxPoint(v, k - 1).minp <= Reach(interval, add, k) <= MinMaxPoint(v, k - 1).maxp
  }

  /** The first n pulses of (interval, add) all hit their windows. */
  ghost predicate Fits(v: View, interval: int, add: int, n: nat)
    requires n <= |v.queue|
  {
    forall k :: 1 <= k <= n ==> InWindow(v, interval, add, k)
  }

  // ---------------------------------------------------------------------------
  // The 32-bit range of the search
  // ---------------------------------------------------------------------------

  /** The largest max_error for which the ranges below are proved; far above any in use. */
  const SAFE_ERROR: nat := 0x8_0000

  predicate InInt32(x: int) {
    -0x8000_0000 <= x < 0x8000_0000
  }

  predicate InInt16(x: int) {
    -0x8000 <= x <= 0x7fff
  }

  lemma TwiceTri(k: nat)
    ensures 2 * Tri(k) == k * (k - 1)
  {
    if k > 0 {
      TwiceTri(k - 1);
      TriStep(k - 1);
      assert k * (k - 1) == (k - 1) * (k - 2) + 2 * (k - 1);
    }
  }

  lemma MulBound(a: int, b: int, x: int, y: int)
    requires -x <= a <= x && 0 <= b <= y && 0 <= x
    ensures -(x * y) <= a * b <= x * y
  {
    MulMonotone(a, x, b);
    MulMonotone(-x, a, b);
    MulMonotone(b, y, x);
    assert x * b == b * x && (-x) * b == -(b * x);
  }

  /** What fitting says about the size of an interval and of the bumps. */
  lemma {:induction false} FitBounds(v: View, i: int, add: int, count: nat)
    requires Ordered(v) && 1 <= count <= |v.queue| && Fits(v, i, add, count)
    ensures 0 < i < CLOCK_DIFF_MAX && 0 < Reach(i, add, count) == add * Tri(count) + i * count < CLOCK_DIFF_MAX
    ensures i + add * (count - 1) >= 1
    ensures 0 < i * count < 2 * CLOCK_DIFF_MAX && -0x3000_0000 < add * Tri(count) < CLOCK_DIFF_MAX
  {
    FitsAny(v, i, add, count, 1);
    FitsAny(v, i, add, count, count);
    IntervalClosed(i, add, count - 1);
    ReachClosed(i, add, count);
    TwiceTri(count);
    hide Fits, Interval, Reach, Tri;
    BumpBounds(i, add, count, Tri(count));
  }

  lemma {:induction false} FitsAny(v: View, i: int, add: int, count: nat, k: nat)
    requires Ordered(v) && 1 <= k <= count <= |v.queue| && Fits(v, i, add, count)
    ensures 0 < Interval(i, add, k - 1) < CLOCK_DIFF_MAX && 0 < Reach(i, add, k) < CLOCK_DIFF_MAX
    ensures k == 1 ==> Interval(i, add, k - 1) == i
  {
    assert InWindow(v, i, add, k);
    if k > 1 { assert InWindow(v, i, add, k - 1); }
    PulsesSeparate(v, i, add, k);
  }

  lemma BumpBounds(i: int, add: int, count: nat, tri: int)
    requires count >= 1 && 2 * tri == count * (count - 1) && i >= 1 && i + add * (count - 1) >= 1
    requires 0 < add * tri + i * count < CLOCK_DIFF_MAX
    ensures 0 < i * count < 2 * CLOCK_DIFF_MAX && -0x3000_0000 < add * tri < CLOCK_DIFF_MAX
  {
    MulMonotone(1, i, count);
    MulMonotone(0, count - 1, count);
    assert tri >= 0;
    if add >= 0 {
      MulMonotone(0, add, tri);
    } else {
      MulMonotone(add, 0, tri);
      DownBounds(i, add, count, tri);
    }
  }

  lemma DownBounds(i: int, add: int, count: nat, tri: int)
    requires 2 * tri == count * (count - 1) && i + add * (count - 1) >= 1
    ensures 2 * (add * tri) >= count - i * count
  {
    var bumps := add * (count - 1);
    ScaledTri(add, count, tri);
    assert (count - 1) * (add * count) == bumps * count;
    MulMonotone(1 - i, bumps, count);
    assert (1 - i) * count == count - i * count;
  }

  /** The bumps and the product for one point more. */
  lemma NextBounds(i: int, add: int, count: nat, tri: int, next: int)
    requires count >= 1 && 2 * tri == count * (count - 1) && next == tri + count
    requires InInt16(add) && 0 < i < CLOCK_DIFF_MAX && i + add * (count - 1) >= 1
    requires 0 < add * tri + i * count < CLOCK_DIFF_MAX
    requires 0 < i * count < 2 * CLOCK_DIFF_MAX && -0x3000_0000 < add * tri < CLOCK_DIFF_MAX
    ensures -0x3100_0000 < add * next < 0x3100_0000
    ensures 0 < i * (count + 1) < 0x6a00_0000
    ensures InInt32(add * next + i * (count + 1))
  {
    assert add * next == add * tri + add * count;
    assert i * (count + 1) == i * count + i;
    if count <= 100 { FewBounds(add, count, tri); } else { ManyBounds(i, add, count, tri); }
  }

  lemma FewBounds(add: int, count: nat, tri: int)
    requires 1 <= count <= 100 && 2 * tri == count * (count - 1) && InInt16(add)
    ensures -0xa00_0000 < add * tri < 0xa00_0000 && -0x33_0000 < add * count < 0x33_0000
  {
    MulBound(count - 1, count, 99, 100);
    MulMonotone(0, count - 1, count);
    MulBound(add, tri, 0x8000, 4950);
    MulBound(add, count, 0x8000, 100);
  }

  lemma ManyBounds(i: int, add: int, count: nat, tri: int)
    requires count > 100 && 2 * tri == count * (count - 1) && InInt16(add) && i >= 1 && i + add * (count - 1) >= 1
    requires i * count < 0x6000_0000 && add * tri < 0x3000_0000
    ensures i < 0xf6_0000 && -0xf7_0000 < add * count < 0xf7_0000
  {
    MulMonotone(101, count, i);
    assert 101 * i <= i * count;
    assert add * count == add * (count - 1) + add;
    if add >= 0 {
      MulMonotone(0, add, count);
      MulMonotone(100, count - 1, add * count);
      ScaledTri(add, count, tri);
    } else {
      MulMonotone(add, 0, count);
    }
  }

  lemma ScaledTri(add: int, count: nat, tri: int)
    requires 2 * tri == count * (count - 1)
    ensures (count - 1) * (add * count) == 2 * (add * tri)
  {
    assert add * (2 * tri) == add * (count * (count - 1));
  }

  /** The products and sums of one round of the inner loop, for point n and the interval bounds lo and hi. */
  predicate RoundFits(v: View, add: int, n: nat, lo: int, hi: int)
    requires 2 <= n <= |v.queue|
  {
    var w, c := MinMaxPoint(v, n - 1), add * Tri(n);
    && (add != 0 ==> InInt32(n * (n - 1))) && InInt32(Tri(n)) && InInt32(c)
    && InInt32(lo * n) && InInt32(w.minp - c) && InInt32(w.minp - c + n - 1)
    && InInt32(hi * n) && InInt32(w.maxp - c) && InInt32(w.maxp - c - n + 1)
  }

  /** Bounds that fit the points before n, or for the second point any from the first window. */
  ghost predicate BoundsFit(v: View, add: int, n: nat, lo: int, hi: int)
    requires 2 <= n <= |v.queue|
  {
    if n == 2 then 0 < lo < CLOCK_DIFF_MAX && 0 < hi < CLOCK_DIFF_MAX
    else Fits(v, lo, add, n - 1) && Fits(v, hi, add, n - 1)
  }

  /** The bounds for one interval, and what follows for the factor of add. */
  lemma BoundFits(v: View, add: int, n: nat, i: int)
    requires Ordered(v) && 2 <= n <= |v.queue| && n <= MAX_COUNT && InInt16(add)
    requires if n == 2 then 0 < i < CLOCK_DIFF_MAX else Fits(v, i, add, n - 1)
    ensures -0x3100_0000 < add * Tri(n) < 0x3100_0000 && 0 < i * n < 0x6a00_0000
    ensures 0 <= Tri(n) < 0x8000_0000 && (add != 0 ==> InInt32(n * (n - 1)))
  {
    TriStep(n - 1);
    TwiceTri(n - 1);
    TwiceTri(n);
    if n == 2 {
      assert Tri(2) == 1;
    } else {
      FitBounds(v, i, add, n - 1);
      hide Tri, Fits, Reach;
      NextBounds(i, add, n - 1, Tri(n - 1), Tri(n));
    }
    hide Tri, Fits, Reach;
    FactorFits(add, n, Tri(n));
  }

  lemma FactorFits(add: int, n: nat, tri: int)
    requires 2 <= n <= MAX_COUNT && 2 * tri == n * (n - 1) && -0x3100_0000 < add * tri < 0x3100_0000
    ensures 0 <= tri < 0x8000_0000 && (add != 0 ==> InInt32(n * (n - 1)))
  {
    MulBound(n, n - 1, 65535, 65534);
    MulMonotone(0, n - 1, n);
    if add > 0 { MulMonotone(1, add, tri); }
    if add < 0 { MulMonotone(add, -1, tri); }
  }

  /** Every round of the inner loop stays in 32 bits. */
  lemma RoundInRange(v: View, add: int, n: nat, lo: int, hi: int)
    requires Ordered(v) && 2 <= n <= |v.queue| && n <= MAX_COUNT && InInt16(add) && BoundsFit(v, add, n, lo, hi)
    ensures RoundFits(v, add, n, lo, hi)
  {
    BoundFits(v, add, n, lo);
    BoundFits(v, add, n, hi);
    WindowShape(v, n - 1);
  }

  /** The reach of a run, and the one for a point more. */
  predicate TurnFits(add: int, interval: int, count: nat) {
    && (add != 0 ==> InInt32(count * (count - 1)) && InInt32((count + 1) * count))
    && InInt32(add * Tri(count)) && InInt32(interval * count) && InInt32(add * Tri(count) + interval * count)
    && InInt32(add * Tri(count + 1)) && InInt32(interval * (count + 1))
    && InInt32(add * Tri(count + 1) + interval * (count + 1))
  }

  lemma TurnInRange(v: View, add: int, interval: int, count: nat)
    requires Ordered(v) && 1 <= count < |v.queue| && count < MAX_COUNT && InInt16(add)
    requires if count == 1 then 0 < interval < CLOCK_DIFF_MAX else Fits(v, interval, add, count)
    ensures TurnFits(add, interval, count)
  {
    BoundFits(v, add, count + 1, interval);
    if count == 1 {
      assert Tri(1) == 0 && Tri(2) == 1;
    } else {
      FitBounds(v, interval, add, count);
      TriStep(count);
      TwiceTri(count);
      hide Tri, Fits, Reach;
      NextBounds(interval, add, count, Tri(count), Tri(count + 1));
      MulMonotone(count - 1, count + 1, count);
      MulMonotone(0, count - 1, count);
    }
  }

  /** The limits on the range of adds, with the next point n and the bounds on add after the first limit. */
  predicate LimitFits(v: View, add: int, err: int, n: nat, minAdd: int, maxAdd: int, outerMin: int, outerMax: int)
    requires 2 <= n <= |v.queue|
  {
    var w, tri := MinMaxPoint(v, n - 1), Tri(n);
    && InInt32((n - 1) * (n - 1)) && InInt32(err) && InInt32(add - err) && InInt32(add + err)
    && InInt32(outerMax * n) && InInt32(w.minp - outerMax * n) && InInt32(minAdd * tri)
    && InInt32(w.minp - outerMax * n + tri - 1)
    && InInt32(outerMin * n) && InInt32(w.maxp - outerMin * n) && InInt32(maxAdd * tri)
    && InInt32(w.maxp - outerMin * n - tri + 1)
  }

  /** What the limits are computed from, once a run has ended without stopping the search. */
  ghost predicate LimitReady(v: View, add: int, minAdd: int, maxAdd: int, count: nat, interval: int, outerMin: int,
                             outerMax: int)
  {
    && Ordered(v) && 1 <= count < |v.queue| && count <= 0x200 && InInt16(add) && v.maxError <= SAFE_ERROR
    && -0x8000 <= minAdd <= add + 1 && add - 1 <= maxAdd <= 0x7fff
    && InFirst(v, outerMin) && InFirst(v, outerMax) && InFirst(v, interval)
    && (count > 1 ==> Fits(v, interval, add, count))
  }

  /** An interval of the first window times n is near the run's own. */
  lemma OuterFits(v: View, n: nat, interval: int, outer: int)
    requires Ordered(v) && 2 <= n <= 513 && |v.queue| > 0 && v.maxError <= SAFE_ERROR
    requires InFirst(v, interval) && InFirst(v, outer) && 0 < interval * n < 0x6a00_0000
    ensures 0 <= outer * n < 0x7b00_0000
  {
    WindowShape(v, 0);
    MulMonotone(0, outer, n);
    MulMonotone(outer, interval + SAFE_ERROR, n);
    assert (interval + SAFE_ERROR) * n == interval * n + SAFE_ERROR * n;
    MulMonotone(n, 513, SAFE_ERROR);
  }

  /** A bound within err of add times the factor is near add times the factor. */
  lemma NearFits(add: int, bound: int, err: nat, tri: nat)
    requires -0x3100_0000 < add * tri < 0x3100_0000 && (err + 1) * tri <= 0x100_0000
    requires add - err - 1 <= bound <= add + err + 1
    ensures InInt32(bound * tri)
  {
    MulBound(bound - add, tri, err + 1, tri);
    assert bound * tri == add * tri + (bound - add) * tri;
  }

  lemma ErrFits(v: View, count: nat, tri: nat)
    requires 2 <= count <= 0x200 && v.maxError <= SAFE_ERROR && 2 * tri == (count + 1) * count
    ensures ErrDelta(v, count) <= 0x60_0000 && (ErrDelta(v, count) + 1) * tri <= 0x100_0000
  {
    var err, square, total := ErrDelta(v, count), count * count, U32(v.maxError * QUADRATIC_DEV);
    assert total <= 0x58_0000;
    MulMonotone(2, count, 2);
    MulMonotone(2, count, count);
    QuotientTimes(total, square);
    MulMonotone(count + 1, 2 * count, count);
    MulMonotone(count + 1, 513, count);
    ErrProduct(err, square, tri);
  }

  lemma QuotientTimes(a: nat, d: nat)
    requires d > 0
    ensures a / d * d <= a
  {
  }

  lemma ErrProduct(err: nat, square: nat, tri: nat)
    requires err * square <= 0x58_0000 && 4 <= square && tri <= square && tri <= 0x2_0100
    ensures err <= 0x60_0000 && (err + 1) * tri <= 0x100_0000
  {
    MulMonotone(1, square, err);
    MulMonotone(tri, square, err);
    assert (err + 1) * tri == tri * err + tri && square * err == err * square;
  }

  lemma LimitsInRange(v: View, add: int, minAdd: int, maxAdd: int, count: nat, interval: int, outerMin: int,
                      outerMax: int, err: nat, low: int, high: int)
    requires LimitReady(v, add, minAdd, maxAdd, count, interval, outerMin, outerMax)
    requires count > 1 ==> err == ErrDelta(v, count) && low == Max(minAdd, add - err) && high == Min(maxAdd, add + err)
    requires count <= 1 ==> err == 0 && low == minAdd && high == maxAdd
    ensures LimitFits(v, add, err, count + 1, low, high, outerMin, outerMax)
  {
    var n, tri := count + 1, Tri(count + 1);
    WindowShape(v, 0);
    WindowShape(v, count);
    BoundFits(v, add, n, interval);
    TwiceTri(n);
    MulBound(count, count, 0x200, 0x200);
    assert tri <= 0x2_0100 by { MulMonotone(n, 513, count); MulMonotone(count, 0x200, 513); }
    if count > 1 { ErrFits(v, count, tri); } else { assert tri == 1; }
    hide Tri, Fits, ErrDelta, MinMaxPoint, Ordered;
    OuterFits(v, n, interval, outerMin);
    OuterFits(v, n, interval, outerMax);
    if count > 1 {
      NearFits(add, low, err, tri);
      NearFits(add, high, err, tri);
    }
  }

  /** The factor n * (n - 1), which is not used when add is 0, fits exactly up to 46341 points. */
  lemma FactorInRange(n: nat)
    ensures InInt32(n * (n - 1)) <==> n <= 46341
  {
    if n == 0 {
    } else if n <= 46341 {
      MulBound(n, n - 1, 46341, 46340);
    } else {
      MulMonotone(46342, n, n - 1);
      MulMonotone(46341, n - 1, 46342);
    }
  }

  // ---------------------------------------------------------------------------
  // The search
  // ---------------------------------------------------------------------------

  function Limit(v: View): nat {
    if |v.queue| < MAX_COUNT then |v.queue| else MAX_COUNT
  }

  /** [lo, hi] are exactly the intervals of [outerMin, outerMax] that fit n pulses. */
  ghost predicate Admissible(v: View, add: int, n: nat, outerMin: int, outerMax: int, lo: int, hi: int)
    requires n <= |v.queue|
  {
    forall i :: lo <= i <= hi <==> outerMin <= i <= outerMax && Fits(v, i, add, n)
  }

  lemma FitsOne(v: View, add: int, i: int)
    requires |v.queue| > 0
    ensures Fits(v, i, add, 1) <==> MinMaxPoint(v, 0).minp <= i <= MinMaxPoint(v, 0).maxp
  {
    assert Reach(i, add, 1) == i;
    assert InWindow(v, i, add, 1) <==> MinMaxPoint(v, 0).minp <= i <= MinMaxPoint(v, 0).maxp;
  }

  lemma FitsNext(v: View, add: int, i: int, n: nat)
    requires n < |v.queue|
    ensures Fits(v, i, add, n + 1) <==> Fits(v, i, add, n) && InWindow(v, i, add, n + 1)
  {
  }

  /** lo and hi bound the intervals whose pulse k is in its window. */
  ghost predicate Bounds(v: View, add: int, k: nat, lo: int, hi: int)
    requires 1 <= k <= |v.queue|
  {
    forall i :: InWindow(v, i, add, k) <==> lo <= i <= hi
  }

  /** The two rounded quotients are those bounds. */
  lemma QuotientsBound(v: View, add: int, k: nat)
    requires 1 <= k <= |v.queue|
    ensures var w, c := MinMaxPoint(v, k - 1), add * Tri(k);
            Bounds(v, add, k, IdivUp(w.minp - c, k), IdivDown(w.maxp - c, k))
  {
    var w, c := MinMaxPoint(v, k - 1), add * Tri(k);
    forall i
      ensures InWindow(v, i, add, k) <==> IdivUp(w.minp - c, k) <= i <= IdivDown(w.maxp - c, k)
    {
      ReachClosed(i, add, k);
      IdivUpLeast(w.minp - c, k, i);
      IdivDownGreatest(w.maxp - c, k, i);
    }
  }

  /** Clipping to the bounds of one more point keeps exactly the admissible intervals. */
  lemma Narrow(v: View, add: int, n: nat, m: nat, outerMin: int, outerMax: int, lo: int, hi: int, q: int, r: int)
    requires m == n + 1 <= |v.queue| && Admissible(v, add, n, outerMin, outerMax, lo, hi) && Bounds(v, add, m, q, r)
    ensures Admissible(v, add, m, outerMin, outerMax, Max(lo, q), Min(hi, r))
  {
    forall i
      ensures Max(lo, q) <= i <= Min(hi, r) <==> outerMin <= i <= outerMax && Fits(v, i, add, m)
    {
      FitsNext(v, add, i, n);
    }
  }

  /** Raise a lower bound so that its product with d reaches n; lower an upper bound likewise. */
  function Raise(lo: int, n: int, d: int): int
    requires d > 0
  {
    if lo * d < n then IdivUp(n, d) else lo
  }

  function Lower(hi: int, n: int, d: int): int
    requires d > 0
  {
    if hi * d > n then IdivDown(n, d) else hi
  }

  lemma ClipIsBound(bound: int, n: int, d: int)
    requires d > 0
    ensures Raise(bound, n, d) == Max(bound, IdivUp(n, d))
    ensures Lower(bound, n, d) == Min(bound, IdivDown(n, d))
  {
    IdivUpLeast(n, d, bound);
    IdivDownGreatest(n, d, bound);
  }

  lemma FirstAdmissible(v: View, add: int, outerMin: int, outerMax: int)
    requires |v.queue| > 0 && MinMaxPoint(v, 0).minp <= outerMin && outerMax <= MinMaxPoint(v, 0).maxp
    ensures Admissible(v, add, 1, outerMin, outerMax, outerMin, outerMax)
  {
    forall i
      ensures outerMin <= i <= outerMax <==> outerMin <= i <= outerMax && Fits(v, i, add, 1)
    {
      FitsOne(v, add, i);
    }
  }

  lemma FirstBlocked(v: View, add: int, outerMin: int, outerMax: int)
    requires |v.queue| > 0
    ensures LowerBlocked(v, add, 1, outerMin, outerMin) && UpperBlocked(v, add, 1, outerMax, outerMax)
  {
  }

  lemma AdmissibleFits(v: View, add: int, n: nat, outerMin: int, outerMax: int, lo: int, hi: int)
    requires n <= |v.queue| && Admissible(v, add, n, outerMin, outerMax, lo, hi)
    ensures lo <= hi ==> outerMin <= hi <= outerMax && Fits(v, hi, add, n)
  {
    hide Fits;
    assert lo <= hi ==> Fits(v, hi, add, n);
  }

  /** Both clips of one round, for the next point. */
  lemma ClipRound(v: View, add: int, count: nat, outerMin: int, outerMax: int, lo: int, hi: int)
    requires 1 <= count < |v.queue| && Admissible(v, add, count, outerMin, outerMax, lo, hi)
    requires outerMin <= lo && hi <= outerMax
    ensures var w, n, c := MinMaxPoint(v, count), count + 1, add * Tri(count + 1);
            var lo', hi' := Raise(lo, w.minp - c, n), Lower(hi, w.maxp - c, n);
            Admissible(v, add, n, outerMin, outerMax, lo', hi') && outerMin <= lo' && hi' <= outerMax
  {
    hide Raise, Lower, IdivUp, IdivDown, Bounds, Tri, MinMaxPoint, Fits, Admissible;
    var w, n, c := MinMaxPoint(v, count), count + 1, add * Tri(count + 1);
    QuotientsBound(v, add, n);
    ClipIsBound(lo, w.minp - c, n);
    ClipIsBound(hi, w.maxp - c, n);
    Narrow(v, add, count, n, outerMin, outerMax, lo, hi, IdivUp(w.minp - c, n), IdivDown(w.maxp - c, n));
  }

  /** An upper bound on intervals is the one given, or the next interval has a pulse too late among the first n. */
  ghost predicate UpperBlocked(v: View, add: int, n: nat, outerMax: int, hi: int)
    requires n <= |v.queue|
  {
    hi == outerMax || exists j :: 1 <= j <= n && LateAfter(v, hi, add, j)
  }

  predicate TooLate(v: View, i: int, add: int, j: nat)
    requires 1 <= j <= |v.queue|
  {
    Reach(i, add, j) > MinMaxPoint(v, j - 1).maxp
  }

  /** Is the next greater interval too late at a pulse, or the next lesser one too early? */
  predicate LateAfter(v: View, hi: int, add: int, j: nat)
    requires 1 <= j <= |v.queue|
  {
    TooLate(v, hi + 1, add, j)
  }

  predicate EarlyBefore(v: View, lo: int, add: int, j: nat)
    requires 1 <= j <= |v.queue|
  {
    TooEarly(v, lo - 1, add, j)
  }

  /** A lower bound is the one given, or the interval before it has a pulse too early. */
  ghost predicate LowerBlocked(v: View, add: int, n: nat, outerMin: int, lo: int)
    requires n <= |v.queue|
  {
    lo == outerMin || exists j :: 1 <= j <= n && EarlyBefore(v, lo, add, j)
  }

  predicate TooEarly(v: View, i: int, add: int, j: nat)
    requires 1 <= j <= |v.queue|
  {
    Reach(i, add, j) < MinMaxPoint(v, j - 1).minp
  }

  /** Clipping to the next point keeps bounds blocked. */
  lemma ClipsBlock(v: View, add: int, count: nat, outerMin: int, outerMax: int, lo: int, hi: int)
    requires 1 <= count < |v.queue|
    requires LowerBlocked(v, add, count, outerMin, lo) && UpperBlocked(v, add, count, outerMax, hi)
    ensures var w, n, c := MinMaxPoint(v, count), count + 1, add * Tri(count + 1);
            LowerBlocked(v, add, n, outerMin, Raise(lo, w.minp - c, n)) &&
            UpperBlocked(v, add, n, outerMax, Lower(hi, w.maxp - c, n))
  {
    hide MinMaxPoint, Tri, LateAfter, EarlyBefore, Raise, Lower, LowerBlocked, UpperBlocked;
    var w, n, c := MinMaxPoint(v, count), count + 1, add * Tri(count + 1);
    ClipUp(v, add, n, lo, w, c);
    ClipDown(v, add, n, hi, w, c);
    BlockedMore(v, add, count, outerMin, outerMax, lo, hi, Raise(lo, w.minp - c, n), Lower(hi, w.maxp - c, n));
  }

  lemma BlockedMore(v: View, add: int, count: nat, outerMin: int, outerMax: int, lo: int, hi: int, lo': int, hi': int)
    requires 1 <= count < |v.queue|
    requires LowerBlocked(v, add, count, outerMin, lo) && UpperBlocked(v, add, count, outerMax, hi)
    requires lo' == lo || EarlyBefore(v, lo', add, count + 1)
    requires hi' == hi || LateAfter(v, hi', add, count + 1)
    ensures LowerBlocked(v, add, count + 1, outerMin, lo') && UpperBlocked(v, add, count + 1, outerMax, hi')
  {
    hide LateAfter, EarlyBefore;
    if lo' == lo != outerMin {
      var j :| 1 <= j <= count && EarlyBefore(v, lo, add, j);
      assert EarlyBefore(v, lo', add, j);
    }
    if hi' == hi != outerMax {
      var j :| 1 <= j <= count && LateAfter(v, hi, add, j);
      assert LateAfter(v, hi', add, j);
    }
  }

  lemma ClipUp(v: View, add: int, n: nat, lo: int, w: Points, c: int)
    requires 1 <= n <= |v.queue| && w == MinMaxPoint(v, n - 1) && c == add * Tri(n)
    ensures var lo' := Raise(lo, w.minp - c, n); lo' == lo || EarlyBefore(v, lo', add, n)
  {
    hide MinMaxPoint, Tri;
    var q := IdivUp(w.minp - c, n);
    ReachClosed(q - 1, add, n);
    IdivUpLeast(w.minp - c, n, q - 1);
  }

  lemma ClipDown(v: View, add: int, n: nat, hi: int, w: Points, c: int)
    requires 1 <= n <= |v.queue| && w == MinMaxPoint(v, n - 1) && c == add * Tri(n)
    ensures var hi' := Lower(hi, w.maxp - c, n); hi' == hi || LateAfter(v, hi', add, n)
  {
    hide MinMaxPoint, Tri;
    var q := IdivDown(w.maxp - c, n);
    ReachClosed(q + 1, add, n);
    IdivDownGreatest(w.maxp - c, n, q + 1);
  }

  /**
   * Longest valid sequence for a fixed add: narrows the admissible intervals point by
   * point. `complete` means the sequence covers the whole usable queue.
   */
  method LongestRun(v: View, add: int, outerMin: int, outerMax: int)
    returns (complete: bool, nextMin: int, nextMax: int, interval: int, count: nat, ghost fits32: bool)
    requires |v.queue| > 0
    requires MinMaxPoint(v, 0).minp <= outerMin && outerMax <= MinMaxPoint(v, 0).maxp
    ensures 1 <= count <= Limit(v) && (complete <==> count == Limit(v))
    ensures outerMin <= nextMin && nextMax <= outerMax
    ensures count >= 2 || outerMin <= outerMax ==> outerMin <= interval <= outerMax && Fits(v, interval, add, count)
    ensures count == 1 ==> interval == outerMax
    ensures !complete ==> nextMin > nextMax && Admissible(v, add, count + 1, outerMin, outerMax, nextMin, nextMax)
    ensures !complete && Ordered(v) ==> Turned(v, add, count, interval, outerMin, nextMin, nextMax)
    ensures UpperBlocked(v, add, count, outerMax, interval)
    ensures !complete ==> LowerBlocked(v, add, count + 1, outerMin, nextMin)
    ensures !complete && outerMin <= outerMax && !TooEarly(v, interval, add, count + 1) ==>
              TooLate(v, nextMin, add, count + 1)
    ensures RunReady(v, add, outerMin, outerMax) ==> fits32
  {
    hide Raise, Lower, Tri, MinMaxPoint, Fits, Admissible, RoundFits, Turned, RunReady, Ordered, UpperBlocked,
         LowerBlocked, TooLate, TooEarly;
    nextMin, nextMax, interval := outerMin, outerMax, outerMax;
    count, fits32 := 1, true;
    FirstAdmissible(v, add, outerMin, outerMax);
    FirstBlocked(v, add, outerMin, outerMax);
    while true
      invariant 1 <= count <= Limit(v)
      invariant outerMin <= nextMin && nextMax <= outerMax && interval == nextMax
      invariant Admissible(v, add, count, outerMin, outerMax, nextMin, nextMax)
      invariant count == 1 ==> nextMin == outerMin && nextMax == outerMax
      invariant count >= 2 ==> nextMin <= nextMax
      invariant LowerBlocked(v, add, count, outerMin, nextMin) && UpperBlocked(v, add, count, outerMax, nextMax)
      invariant RunReady(v, add, outerMin, outerMax) ==> fits32
      decreases Limit(v) - count
    {
      var nextCount := count + 1;
      if nextCount - 1 >= Limit(v) {
        complete := true;
        AdmissibleFits(v, add, count, outerMin, outerMax, nextMin, nextMax);
        return;
      }
      var nextPoint := MinMaxPoint(v, nextCount - 1);
      var c := add * Tri(nextCount);
      RunRound(v, add, count, outerMin, outerMax, nextMin, nextMax);
      fits32 := fits32 && RoundFits(v, add, nextCount, nextMin, nextMax);
      AdmissibleFits(v, add, count, outerMin, outerMax, nextMin, nextMax);
      TurnsAt(v, add, count, interval, outerMin, nextMin);
      ClipRound(v, add, count, outerMin, outerMax, nextMin, nextMax);
      ClipsBlock(v, add, count, outerMin, outerMax, nextMin, nextMax);
      LateEnds(v, add, count, nextMin, nextMax);
      nextMin := Raise(nextMin, nextPoint.minp - c, nextCount);
      nextMax := Lower(nextMax, nextPoint.maxp - c, nextCount);
      if nextMin > nextMax {
        complete := false;
        return;
      }
      interval := nextMax;
      count := nextCount;
    }
  }

  /** Is an interval in the window of the first point? */
  predicate InFirst(v: View, i: int)
    requires |v.queue| > 0
  {
    MinMaxPoint(v, 0).minp <= i <= MinMaxPoint(v, 0).maxp
  }

  /** What keeps a run in 32 bits: an ordered queue, a 16-bit add, and bounds from the first window. */
  ghost predicate RunReady(v: View, add: int, outerMin: int, outerMax: int) {
    |v.queue| > 0 && Ordered(v) && InInt16(add) && InFirst(v, outerMin) && InFirst(v, outerMax)
  }

  lemma RunRound(v: View, add: int, count: nat, outerMin: int, outerMax: int, lo: int, hi: int)
    requires 1 <= count < |v.queue| && count < MAX_COUNT && Admissible(v, add, count, outerMin, outerMax, lo, hi)
    requires if count == 1 then lo == outerMin && hi == outerMax else lo <= hi
    ensures RunReady(v, add, outerMin, outerMax) ==> RoundFits(v, add, count + 1, lo, hi)
  {
    if RunReady(v, add, outerMin, outerMax) {
      WindowShape(v, 0);
      hide Fits, MinMaxPoint, RoundFits, Ordered;
      assert count > 1 ==> Fits(v, lo, add, count) && Fits(v, hi, add, count);
      RoundInRange(v, add, count + 1, lo, hi);
    }
  }

  /** Where the next pulse of a sequence of count pulses would be. */
  function NextReach(add: int, interval: int, count: nat): int {
    add * Tri(count + 1) + interval * (count + 1)
  }

  /**
   * How the run ended: if its next pulse would come too early the upper bound stood, and if not the lower bound
   * rose no further than the interval.
   */
  predicate Turned(v: View, add: int, count: nat, interval: int, outerMin: int, nextMin: int, nextMax: int)
    requires 1 <= count < |v.queue|
  {
    if NextReach(add, interval, count) < MinMaxPoint(v, count).minp then nextMax == interval
    else outerMin <= nextMin && (nextMin <= interval || nextMin == outerMin)
  }

  /** The clips of the next point turn a run this way, whatever the point. */
  lemma TurnsAt(v: View, add: int, count: nat, interval: int, outerMin: int, lo: int)
    requires 1 <= count < |v.queue| && outerMin <= lo && (lo <= interval || lo == outerMin)
    ensures var w, n, c := MinMaxPoint(v, count), count + 1, add * Tri(count + 1);
            Ordered(v) ==>
            Turned(v, add, count, interval, outerMin, Raise(lo, w.minp - c, n), Lower(interval, w.maxp - c, n))
  {
    var w, n, c := MinMaxPoint(v, count), count + 1, add * Tri(count + 1);
    if Ordered(v) { WindowShape(v, count); }
    hide MinMaxPoint, Tri, Ordered;
    IdivUpLeast(w.minp - c, n, interval);
    IdivUpLeast(w.minp - c, n, lo);
    hide IdivUp;
  }

  /** If no interval is left and the greatest is not early, the least that reaches the next point is too late. */
  lemma LateEnds(v: View, add: int, count: nat, lo: int, hi: int)
    requires 1 <= count < |v.queue|
    ensures var w, n, c := MinMaxPoint(v, count), count + 1, add * Tri(count + 1);
            var lo', hi' := Raise(lo, w.minp - c, n), Lower(hi, w.maxp - c, n);
            lo <= hi && lo' > hi' && !TooEarly(v, hi, add, n) ==> TooLate(v, lo', add, n)
  {
    hide MinMaxPoint, Tri, Raise, Lower, IdivUp, IdivDown;
    var w, n, c := MinMaxPoint(v, count), count + 1, add * Tri(count + 1);
    ClipIsBound(lo, w.minp - c, n);
    ClipIsBound(hi, w.maxp - c, n);
    var lo' := Raise(lo, w.minp - c, n);
    IdivUpLeast(w.minp - c, n, hi);
    IdivDownGreatest(w.maxp - c, n, lo');
    ReachClosed(hi, add, n);
    ReachClosed(lo', add, n);
  }

  // ---------------------------------------------------------------------------
  // What a turn of the search may discard
  // ---------------------------------------------------------------------------

  /** How far apart two sequences are at pulse k. */
  lemma {:induction false} Apart(i: int, a: int, j: int, b: int, k: nat)
    ensures 2 * (Reach(j, b, k) - Reach(i, a, k)) == k * (2 * (j - i) + (b - a) * (k - 1))
  {
    ReachClosed(i, a, k);
    ReachClosed(j, b, k);
    TwiceTri(k);
    ApartForm(i, a, j, b, k, Tri(k));
  }

  lemma ApartForm(i: int, a: int, j: int, b: int, k: nat, tri: int)
    requires 2 * tri == k * (k - 1)
    ensures 2 * (b * tri + j * k - (a * tri + i * k)) == k * (2 * (j - i) + (b - a) * (k - 1))
  {
    var e, d := b - a, j - i;
    assert b * tri - a * tri == e * tri && j * k - i * k == d * k;
    assert 2 * (e * tri) == e * (2 * tri) == e * (k * (k - 1)) == k * (e * (k - 1));
    assert k * (2 * d + e * (k - 1)) == 2 * (d * k) + k * (e * (k - 1));
  }

  /** Twice the mean distance per interval between two sequences, d intervals and e adds apart, at pulse k. */
  function Slope(d: int, e: int, k: nat): int {
    2 * d + e * (k - 1)
  }

  /** The distance at a pulse, by its slope. */
  lemma {:induction false} Slopes(i: int, a: int, j: int, b: int, k: nat)
    requires k >= 1
    ensures Reach(j, b, k) > Reach(i, a, k) ==> Slope(j - i, b - a, k) > 0
    ensures Reach(j, b, k) < Reach(i, a, k) ==> Slope(j - i, b - a, k) < 0
    ensures Reach(j, b, k) < Reach(i, a, k) + k ==> Slope(j - i, b - a, k) < 2
    ensures Reach(j, b, k) > Reach(i, a, k) - k ==> Slope(j - i, b - a, k) > -2
  {
    hide Reach;
    Apart(i, a, j, b, k);
    Factor(k, 2 * (j - i) + (b - a) * (k - 1));
  }

  lemma NextInterval(i: int, a: int, k: nat)
    ensures Reach(i + 1, a, k) == Reach(i, a, k) + k
  {
    ReachClosed(i, a, k);
    ReachClosed(i + 1, a, k);
  }

  lemma Factor(k: nat, x: int)
    requires k > 0
    ensures k * x > 0 ==> x > 0
    ensures k * x < 0 ==> x < 0
    ensures k * x < 2 * k ==> x < 2
    ensures k * x > -2 * k ==> x > -2
  {
    if x <= 0 { MulMonotone(x, 0, k); } else { MulMonotone(1, x, k); }
    if x >= 2 { MulMonotone(2, x, k); }
    if x <= -2 { MulMonotone(x, -2, k); }
  }

  /**
   * The greatest interval of a run comes too early at the next point. Then no sequence from the outer range with
   * the same or a lesser add fits that point too, nor one with a greater interval.
   */
  lemma EarlyTurn(v: View, add: int, count: nat, hi: int, outerMax: int, i: int, a: int)
    requires 1 <= count < |v.queue| && UpperBlocked(v, add, count, outerMax, hi) && TooEarly(v, hi, add, count + 1)
    requires i <= outerMax && Fits(v, i, a, count + 1)
    ensures a > add && i <= hi
  {
    hide Reach, MinMaxPoint, Fits, Slope;
    var n, d, e := count + 1, i - hi, a - add;
    FitsAt(v, i, a, n, n);
    Slopes(hi, add, i, a, n);
    if hi < i {
      var j :| 1 <= j <= count && LateAfter(v, hi, add, j);
      FitsAt(v, i, a, n, j);
      NextInterval(hi, add, j);
      Slopes(hi, add, i, a, j);
      Crossing(d, e, count, j);
    } else if a <= add {
      SlopeNegative(d, e, n);
    }
  }

  lemma {:induction false} FitsAt(v: View, i: int, a: int, n: nat, k: nat)
    requires 1 <= k <= n <= |v.queue| && Fits(v, i, a, n)
    ensures MinMaxPoint(v, k - 1).minp <= Reach(i, a, k) <= MinMaxPoint(v, k - 1).maxp
  {
    hide Reach, MinMaxPoint;
    assert InWindow(v, i, a, k);
  }

  lemma SlopeNegative(d: int, e: int, k: nat)
    requires d <= 0 && e <= 0 && k >= 1
    ensures Slope(d, e, k) <= 0
  {
    MulMonotone(e, 0, k - 1);
  }

  /** Less than one interval apart at a pulse, with a greater interval: not ahead at a later one. */
  lemma Crossing(d: int, e: int, n: nat, j: nat)
    requires 1 <= j <= n && d >= 1 && Slope(d, e, j) < 2
    ensures Slope(d, e, n + 1) <= 0
  {
    if e >= 0 {
      MulMonotone(0, e, j - 1);
    } else {
      MulMonotone(j, n, -e);
      assert e * (j - 1) == e * j - e;
      assert -e * n == -(e * n) && -e * j == -(e * j);
    }
  }

  /** The late side: what is lost to rounding lies half an interval between two that miss the next point. */
  predicate RoundedAway(add: int, count: nat, lo: int, i: int, a: int) {
    a > add && 2 * (lo - i) == (a - add) * count + 1
  }

  /**
   * The least interval of a run that reaches the next point comes too late there. Then no sequence from the outer
   * range with the same or a greater add fits that point too, nor one with a lesser interval, but for rounding.
   */
  lemma LateTurn(v: View, add: int, count: nat, lo: int, outerMin: int, i: int, a: int)
    requires 1 <= count < |v.queue|
    requires LowerBlocked(v, add, count + 1, outerMin, lo) && TooLate(v, lo, add, count + 1)
    requires outerMin <= i && Fits(v, i, a, count + 1)
    ensures (a < add && lo <= i) || RoundedAway(add, count, lo, i, a)
  {
    hide Reach, MinMaxPoint, Fits, Slope;
    var n, d, e := count + 1, i - lo, a - add;
    FitsAt(v, i, a, n, n);
    Slopes(lo, add, i, a, n);
    if i < lo {
      var j :| 1 <= j <= n && EarlyBefore(v, lo, add, j);
      FitsAt(v, i, a, n, j);
      NextInterval(lo - 1, add, j);
      Slopes(lo, add, i, a, j);
      Between(d, e, count, j);
    } else if a >= add {
      SlopePositive(d, e, n);
    }
  }

  lemma SlopePositive(d: int, e: int, k: nat)
    requires d >= 0 && e >= 0 && k >= 1
    ensures Slope(d, e, k) >= 0
  {
    MulMonotone(0, e, k - 1);
  }

  lemma Between(d: int, e: int, n: nat, j: nat)
    requires 1 <= j <= n + 1 && d <= -1 && Slope(d, e, n + 1) < 0 && Slope(d, e, j) > -2
    ensures e > 0 && -2 * d == e * n + 1
  {
    if e <= 0 {
      MulMonotone(e, 0, j - 1);
    } else if j <= n {
      MulMonotone(j - 1, n - 1, e);
    }
  }

  /** No constant-interval sequence covers more than n of the usable points. */
  ghost predicate ZeroCeiling(v: View, n: nat) {
    forall i, m: nat :: m <= Limit(v) && Fits(v, i, 0, m) ==> m <= n
  }

  lemma ZeroRunIsLongest(v: View, n: nat, lo: int, hi: int)
    requires 1 <= n < Limit(v) && lo > hi
    requires Admissible(v, 0, n + 1, MinMaxPoint(v, 0).minp, MinMaxPoint(v, 0).maxp, lo, hi)
    ensures ZeroCeiling(v, n)
  {
    forall i, m: nat | m <= Limit(v) && Fits(v, i, 0, m)
      ensures m <= n
    {
      if m > n {
        assert InWindow(v, i, 0, 1);
        FitsOne(v, 0, i);
        assert Fits(v, i, 0, n + 1);
      }
    }
  }

  /** The best sequence found so far, and the one found with add == 0. */
  datatype Best = Best(interval: int, count: nat, add: int, reach: int)
  datatype Zero = Zero(interval: int, count: nat)

  /** The remembered sequence fits, and reaches the top of the first window or beyond. */
  ghost predicate Candidate(v: View, b: Best) {
    && 1 <= b.count < Limit(v)
    && -0x8000 <= b.add <= 0x7fff
    && Fits(v, b.interval, b.add, b.count)
    && b.reach == Reach(b.interval, b.add, b.count)
    && (if b.count == 1 then b.reach == b.interval == MinMaxPoint(v, 0).maxp else b.reach > MinMaxPoint(v, 0).maxp)
  }

  /** The remembered sequence cannot be made longer. */
  ghost predicate Stuck(v: View, b: Best) {
    b.count < |v.queue| && !Fits(v, b.interval, b.add, b.count + 1)
  }

  ghost predicate ZeroFound(v: View, z: Zero) {
    1 <= z.count < Limit(v) && Fits(v, z.interval, 0, z.count) && ZeroCeiling(v, z.count)
  }

  /** A run of two or more points, or one that starts from the whole first window, is a candidate. */
  lemma {:induction false} RunIsCandidate(v: View, interval: int, add: int, count: nat)
    requires Ordered(v) && 1 <= count < Limit(v) && Fits(v, interval, add, count)
    requires -0x8000 <= add <= 0x7fff
    requires count == 1 ==> interval == MinMaxPoint(v, 0).maxp
    ensures Candidate(v, Best(interval, count, add, Reach(interval, add, count)))
  {
    if count == 1 {
      assert Reach(interval, add, 1) == interval;
    } else {
      assert InWindow(v, interval, add, count);
      WindowsAscend(v, 0, count - 1);
    }
  }

  /**
   * Keep the better of the remembered sequence and a new run. A degenerate one-point run
   * from an exhausted interval range never displaces a remembered candidate.
   */
  method Consider(v: View, b: Best, z: Zero, interval: int, count: nat, add: int)
    returns (b': Best, z': Zero, stop: bool)
    requires Ordered(v) && 1 <= count < Limit(v) && -0x8000 <= add <= 0x7fff
    requires count == 1 ==> interval <= MinMaxPoint(v, 0).maxp
    requires count >= 2 ==> Fits(v, interval, add, count)
    requires if z.count == 0
             then add == 0 && b.reach < 0 && Fits(v, interval, 0, count) && ZeroCeiling(v, count) &&
                  (count == 1 ==> interval == MinMaxPoint(v, 0).maxp) && b.count == 1
             else add != 0 && Candidate(v, b) && ZeroFound(v, z) && b.count <= 0x200 && Stuck(v, b)
    requires count >= 2 || z.count == 0 ==> !Fits(v, interval, add, count + 1)
    ensures Candidate(v, b') && ZeroFound(v, z') && Stuck(v, b') && b'.count >= count && b'.count >= b.count
    ensures if stop then count > 0x200 else count <= 0x200 && b'.count <= 0x200
  {
    b', z', stop := b, z, false;
    var reach := add * Tri(count) + interval * count;
    ReachClosed(interval, add, count);
    if reach > b.reach || (reach == b.reach && interval > b.interval) {
      if count == 1 { assert reach == interval; }
      RunIsCandidate(v, interval, add, count);
      b' := Best(interval, count, add, reach);
      if z.count != 0 && count < b.count { LongerReachesFurther(v, b', b.interval, b.count, b.add); }
      if add == 0 { z' := Zero(interval, count); }
      stop := count > 0x200;
    } else if z.count == 0 {
      FitsReachPositive(v, interval, count);
    } else if count > b.count {
      LongerReachesFurther(v, b, interval, count, add);
    }
  }

  lemma {:induction false} LongerReachesFurther(v: View, b: Best, interval: int, count: nat, add: int)
    requires Ordered(v) && Candidate(v, b) && b.count < count <= |v.queue| && Fits(v, interval, add, count)
    ensures b.reach < Reach(interval, add, count)
  {
    assert InWindow(v, b.interval, b.add, b.count) && InWindow(v, interval, add, count);
    WindowsAscend(v, b.count - 1, count - 1);
  }

  lemma {:induction false} FitsReachPositive(v: View, interval: int, count: nat)
    requires Ordered(v) && 1 <= count <= |v.queue| && Fits(v, interval, 0, count)
    ensures Reach(interval, 0, count) > 0
  {
    assert InWindow(v, interval, 0, count);
    WindowShape(v, count - 1);
  }

  /**
   * The longest constant intervals cover count of the usable points, and none of them is so early that the
   * search would try a greater add next.
   */
  ghost predicate ZeroEnds(v: View, count: nat) {
    && 1 <= count < Limit(v) && (exists i :: Fits(v, i, 0, count))
    && ZeroCeiling(v, count)
    && (forall i :: Fits(v, i, 0, count) ==> MinMaxPoint(v, count).minp <= i * (count + 1))
  }

  /** The first product of the limits on add, which the search forms after its first run, fits. */
  ghost predicate FirstLimitFits(v: View) {
    forall count: nat :: ZeroEnds(v, count) && count <= 0x200 ==> InInt32(MinMaxPoint(v, 0).maxp * (count + 1))
  }

  /** The first run decides where the constant intervals end, and so when that product is formed. */
  lemma FirstRunEnds(v: View, count: nat, interval: int)
    requires 1 <= count <= Limit(v) && Fits(v, interval, 0, count) && (count < Limit(v) ==> ZeroCeiling(v, count))
    ensures count == Limit(v) || count > 0x200 ==> FirstLimitFits(v)
    ensures count < Limit(v) && NextReach(0, interval, count) < MinMaxPoint(v, count).minp ==> FirstLimitFits(v)
    ensures InInt32(MinMaxPoint(v, 0).maxp * (count + 1)) ==> FirstLimitFits(v)
  {
    hide MinMaxPoint;
    forall n: nat | ZeroEnds(v, n)
      ensures n == count < Limit(v) && MinMaxPoint(v, count).minp <= interval * (count + 1)
    {
      var i :| Fits(v, i, 0, n);
      assert count <= n && (count < Limit(v) ==> n <= count);
    }
    hide ZeroEnds;
  }

  /**
   * One turn of the search: a run that ended, its greatest interval, whether that comes too early at the next
   * point, and if not the least interval that reaches it.
   */
  datatype Turn = Turn(add: int, count: nat, interval: int, nextMin: int, early: bool)

  ghost predicate TurnOk(v: View, t: Turn) {
    && 1 <= t.count < Limit(v) && InInt16(t.add) && InFirst(v, t.interval) && (!t.early ==> InFirst(v, t.nextMin))
    && (t.early <==> TooEarly(v, t.interval, t.add, t.count + 1))
    && (t.count > 1 ==> Fits(v, t.interval, t.add, t.count))
  }

  /** Is an add within the deviation allowed from that of a run? */
  predicate WithinDeviation(v: View, t: Turn, a: int) {
    t.count > 1 ==> t.add - ErrDelta(v, t.count) <= a <= t.add + ErrDelta(v, t.count)
  }

  /** May an add be tried after a turn? */
  predicate Allowed(v: View, t: Turn, a: int) {
    WithinDeviation(v, t, a) && if t.early then a > t.add else a < t.add
  }

  /** A turn may miss a longer sequence in two ways: its add deviates too much, or it is lost to rounding. */
  predicate Misses(v: View, t: Turn, i: int, a: int) {
    !WithinDeviation(v, t, a) || (!t.early && RoundedAway(t.add, t.count, t.nextMin, i, a))
  }

  predicate Missed(v: View, turns: seq<Turn>, i: int, a: int) {
    exists k :: 0 <= k < |turns| && Misses(v, turns[k], i, a)
  }

  /** Every sequence that covers more than n points is still to be found, or was missed. */
  ghost predicate Kept(v: View, n: nat, minAdd: int, maxAdd: int, outerMin: int, outerMax: int, turns: seq<Turn>) {
    forall i, a, m: nat :: InInt16(a) && n < m <= Limit(v) && Fits(v, i, a, m) ==>
      Missed(v, turns, i, a) || (minAdd <= a <= maxAdd && outerMin <= i <= outerMax)
  }

  /** Every sequence that covers more than n points was missed. */
  ghost predicate LongerMissed(v: View, n: nat, turns: seq<Turn>) {
    forall i, a, m: nat :: InInt16(a) && n < m <= Limit(v) && Fits(v, i, a, m) ==> Missed(v, turns, i, a)
  }

  /** No sequence covers more than n points. */
  ghost predicate Longest(v: View, n: nat) {
    forall i, a, m: nat :: InInt16(a) && m <= Limit(v) && Fits(v, i, a, m) ==> m <= n
  }

  lemma FitsFewer(v: View, i: int, a: int, n: nat, k: nat)
    requires k <= n <= |v.queue| && Fits(v, i, a, n)
    ensures Fits(v, i, a, k)
  {
    hide InWindow;
  }

  /** At first every longer sequence is still to be found. */
  lemma KeptAtFirst(v: View)
    requires |v.queue| > 0
    ensures Kept(v, 1, -0x8000, 0x7fff, MinMaxPoint(v, 0).minp, MinMaxPoint(v, 0).maxp, [])
  {
    hide MinMaxPoint, Fits;
    forall i, a, m: nat | InInt16(a) && 1 < m <= Limit(v) && Fits(v, i, a, m)
      ensures -0x8000 <= a <= 0x7fff && MinMaxPoint(v, 0).minp <= i <= MinMaxPoint(v, 0).maxp
    {
      FitsFewer(v, i, a, m, 1);
      FitsOne(v, a, i);
    }
  }

  lemma MissedMore(v: View, turns: seq<Turn>, t: Turn, i: int, a: int)
    ensures Missed(v, turns + [t], i, a) <==> Missed(v, turns, i, a) || Misses(v, t, i, a)
  {
    hide Misses;
    var more := turns + [t];
    if Missed(v, more, i, a) {
      var k :| 0 <= k < |more| && Misses(v, more[k], i, a);
      assert k < |turns| ==> Misses(v, turns[k], i, a);
    }
    if Missed(v, turns, i, a) {
      var k :| 0 <= k < |turns| && Misses(v, turns[k], i, a);
      assert Misses(v, more[k], i, a);
    }
    if Misses(v, t, i, a) { assert Misses(v, more[|turns|], i, a); }
  }

  /** A turn discards no longer sequence but those it misses. */
  lemma KeptTurn(v: View, n: nat, n': nat, minAdd: int, maxAdd: int, outerMin: int, outerMax: int, turns: seq<Turn>,
                 t: Turn)
    requires Kept(v, n, minAdd, maxAdd, outerMin, outerMax, turns) && TurnOk(v, t) && n <= n' && t.count <= n'
    requires UpperBlocked(v, t.add, t.count, outerMax, t.interval)
    requires LowerBlocked(v, t.add, t.count + 1, outerMin, t.nextMin)
    requires outerMin <= outerMax && !t.early ==> TooLate(v, t.nextMin, t.add, t.count + 1)
    ensures Kept(v, n', if t.early then t.add + 1 else minAdd, if t.early then maxAdd else t.add - 1,
                 if t.early then outerMin else t.nextMin, if t.early then t.interval else outerMax, turns + [t])
  {
    hide Fits, Missed, Misses, UpperBlocked, LowerBlocked, TooLate, TooEarly, InFirst;
    forall i, a, m: nat | InInt16(a) && n' < m <= Limit(v) && Fits(v, i, a, m)
      ensures Missed(v, turns + [t], i, a) ||
              if t.early then t.add < a <= maxAdd && outerMin <= i <= t.interval
              else minAdd <= a < t.add && t.nextMin <= i <= outerMax
    {
      MissedMore(v, turns, t, i, a);
      if !Missed(v, turns, i, a) {
        FitsFewer(v, i, a, m, t.count + 1);
        if t.early {
          EarlyTurn(v, t.add, t.count, t.interval, outerMax, i, a);
        } else {
          LateTurn(v, t.add, t.count, t.nextMin, outerMin, i, a);
          RoundingMisses(v, t, i, a);
        }
      }
    }
  }

  lemma RoundingMisses(v: View, t: Turn, i: int, a: int)
    ensures !t.early && RoundedAway(t.add, t.count, t.nextMin, i, a) ==> Misses(v, t, i, a)
    ensures !WithinDeviation(v, t, a) ==> Misses(v, t, i, a)
  {
  }

  /** Nor do the limits on add. */
  lemma KeptLimit(v: View, n: nat, minAdd: int, maxAdd: int, outerMin: int, outerMax: int, turns: seq<Turn>, t: Turn,
                  minAdd': int, maxAdd': int)
    requires TurnOk(v, t) && t.count <= n && Kept(v, n, minAdd, maxAdd, outerMin, outerMax, turns + [t])
    requires ExtendingKept(v, t.add, t.count, outerMin, outerMax, minAdd, maxAdd, minAdd', maxAdd')
    ensures Kept(v, n, minAdd', maxAdd', outerMin, outerMax, turns + [t])
  {
    hide Fits, Missed, Misses, TooEarly, InFirst, InWindow, ErrDelta;
    forall i, a, m: nat | InInt16(a) && n < m <= Limit(v) && Fits(v, i, a, m)
      ensures Missed(v, turns + [t], i, a) || (minAdd' <= a <= maxAdd' && outerMin <= i <= outerMax)
    {
      MissedMore(v, turns, t, i, a);
      RoundingMisses(v, t, i, a);
      if !Missed(v, turns + [t], i, a) {
        FitsFewer(v, i, a, m, t.count + 1);
        HitsNext(v, i, a, t.count, outerMin, outerMax);
        assert MayExtend(v, t.add, a, t.count, outerMin, outerMax);
      }
    }
  }

  lemma HitsNext(v: View, i: int, a: int, count: nat, outerMin: int, outerMax: int)
    requires 1 <= count < |v.queue| && Fits(v, i, a, count + 1) && outerMin <= i <= outerMax
    ensures Hits(v, a, count + 1, outerMin, outerMax)
  {
    assert InWindow(v, i, a, count + 1);
  }

  /** With no add left to try, every longer sequence was missed. */
  lemma NoneKept(v: View, n: nat, minAdd: int, maxAdd: int, outerMin: int, outerMax: int, turns: seq<Turn>)
    requires Kept(v, n, minAdd, maxAdd, outerMin, outerMax, turns) && minAdd > maxAdd
    ensures LongerMissed(v, n, turns)
  {
    hide Fits, Missed;
  }

  /** Without an error allowance, two sequences that cover two points are the same. */
  lemma OneThroughTwo(v: View, i: int, a: int, j: int, b: int)
    requires Ordered(v) && v.maxError == 0 && 2 <= |v.queue| && Fits(v, i, a, 2) && Fits(v, j, b, 2)
    ensures i == j && a == b
  {
    hide Ordered, MinMaxPoint, Fits;
    WindowShape(v, 0);
    WindowShape(v, 1);
    FitsAt(v, i, a, 2, 1);
    FitsAt(v, i, a, 2, 2);
    FitsAt(v, j, b, 2, 1);
    FitsAt(v, j, b, 2, 2);
    ReachClosed(i, a, 1);
    ReachClosed(i, a, 2);
    ReachClosed(j, b, 1);
    ReachClosed(j, b, 2);
    assert Tri(1) == 0 && Tri(2) == 1;
  }

  /** Nor is then anything lost to rounding after one point. */
  lemma NothingRounded(v: View, t: Turn, i: int, a: int)
    requires Ordered(v) && v.maxError == 0 && 1 <= |v.queue| && TurnOk(v, t) && t.count == 1 && Fits(v, i, a, 1)
    ensures !Misses(v, t, i, a)
  {
    hide Ordered, MinMaxPoint, Fits, TooEarly;
    WindowShape(v, 0);
    FitsOne(v, a, i);
  }

  /** Without an error allowance the chosen sequence is the longest there is. */
  lemma ChosenIsLongest(v: View, b: Best, z: Zero, turns: seq<Turn>)
    requires Ordered(v) && v.maxError == 0 && Candidate(v, b) && Stuck(v, b) && ZeroFound(v, z)
    requires forall k :: 0 <= k < |turns| ==> TurnOk(v, turns[k]) && turns[k].count <= b.count
    requires b.count == 1 ==> LongerMissed(v, 1, turns)
    ensures Longest(v, Choose(v, b, z).count)
  {
    hide Ordered, MinMaxPoint, Fits, Misses, MoveOf;
    forall i, a, m: nat | InInt16(a) && m <= Limit(v) && Fits(v, i, a, m)
      ensures m <= Choose(v, b, z).count
    {
      if m >= 2 {
        FitsFewer(v, i, a, m, 2);
        if b.count >= 2 {
          LongestThroughTwo(v, b, z, i, a, m);
        } else {
          var k :| 0 <= k < |turns| && Misses(v, turns[k], i, a);
          FitsFewer(v, i, a, m, 1);
          NothingRounded(v, turns[k], i, a);
        }
      }
    }
  }

  lemma LongestThroughTwo(v: View, b: Best, z: Zero, i: int, a: int, m: nat)
    requires Ordered(v) && v.maxError == 0 && Candidate(v, b) && Stuck(v, b) && ZeroFound(v, z) && b.count >= 2
    requires 2 <= m <= Limit(v) && Fits(v, i, a, m)
    ensures m <= Choose(v, b, z).count
  {
    hide Ordered, MinMaxPoint, Fits;
    FitsFewer(v, i, a, m, 2);
    FitsFewer(v, b.interval, b.add, b.count, 2);
    OneThroughTwo(v, i, a, b.interval, b.add);
    if m > b.count { FitsFewer(v, i, a, m, b.count + 1); }
    if z.count >= 2 {
      FitsFewer(v, z.interval, 0, z.count, 2);
      OneThroughTwo(v, z.interval, 0, b.interval, b.add);
    }
  }

  /** The turns of a search are sound, the first of them with add 0 from the whole first window. */
  ghost predicate TurnsOk(v: View, turns: seq<Turn>) {
    && (forall k :: 0 <= k < |turns| ==> TurnOk(v, turns[k]))
    && (turns != [] ==> turns[0].add == 0 && (turns[0].count == 1 ==> turns[0].interval == MinMaxPoint(v, 0).maxp))
  }

  /** Every add of a range is allowed by every turn. */
  ghost predicate RangeAllowed(v: View, turns: seq<Turn>, minAdd: int, maxAdd: int) {
    forall k, a :: 0 <= k < |turns| && minAdd <= a <= maxAdd ==> Allowed(v, turns[k], a)
  }

  ghost predicate TurnsUpTo(turns: seq<Turn>, n: nat) {
    forall k :: 0 <= k < |turns| ==> turns[k].count <= n
  }

  /** The turns so far: none covers more than n points, and they leave these ranges to try. */
  ghost predicate Following(v: View, n: nat, minAdd: int, maxAdd: int, outerMin: int, outerMax: int, turns: seq<Turn>) {
    && Kept(v, n, minAdd, maxAdd, outerMin, outerMax, turns)
    && TurnsOk(v, turns) && RangeAllowed(v, turns, minAdd, maxAdd) && TurnsUpTo(turns, n)
  }

  lemma NoTurns(v: View)
    requires |v.queue| > 0
    ensures Following(v, 1, -0x8000, 0x7fff, MinMaxPoint(v, 0).minp, MinMaxPoint(v, 0).maxp, [])
  {
    KeptAtFirst(v);
  }

  /** What the turns so far say when the search stops. */
  lemma Stops(v: View, n: nat, n': nat, minAdd: int, maxAdd: int, outerMin: int, outerMax: int, turns: seq<Turn>)
    requires Following(v, n, minAdd, maxAdd, outerMin, outerMax, turns) && n <= n' && (minAdd > maxAdd || n' > 0x200)
    ensures TurnsOk(v, turns) && TurnsUpTo(turns, n') && (n' <= 0x200 ==> LongerMissed(v, n', turns))
  {
    hide Kept, LongerMissed, TurnOk;
    if n' <= 0x200 {
      NoneKept(v, n, minAdd, maxAdd, outerMin, outerMax, turns);
      LongerStill(v, n, n', turns);
    }
  }

  lemma LongerStill(v: View, n: nat, n': nat, turns: seq<Turn>)
    requires LongerMissed(v, n, turns) && n <= n'
    ensures LongerMissed(v, n', turns)
  {
    hide Fits, Missed;
  }

  /** One more turn, and the range of adds that its limits leave. */
  lemma TurnKeeps(v: View, n: nat, n': nat, minAdd: int, maxAdd: int, outerMin: int, outerMax: int, turns: seq<Turn>,
                  t: Turn, minAdd': int, maxAdd': int, outerMin': int, outerMax': int)
    requires Following(v, n, minAdd, maxAdd, outerMin, outerMax, turns) && TurnOk(v, t) && n <= n' && t.count <= n'
    requires UpperBlocked(v, t.add, t.count, outerMax, t.interval)
    requires LowerBlocked(v, t.add, t.count + 1, outerMin, t.nextMin)
    requires outerMin <= outerMax && !t.early ==> TooLate(v, t.nextMin, t.add, t.count + 1)
    requires outerMin' == (if t.early then outerMin else t.nextMin)
    requires outerMax' == (if t.early then t.interval else outerMax)
    requires var lo, hi := if t.early then t.add + 1 else minAdd, if t.early then maxAdd else t.add - 1;
             && Max(lo, minAdd) <= minAdd' && maxAdd' <= Min(hi, maxAdd)
             && ExtendingKept(v, t.add, t.count, outerMin', outerMax', lo, hi, minAdd', maxAdd')
    requires t.count > 1 ==> t.add - ErrDelta(v, t.count) <= minAdd' && maxAdd' <= t.add + ErrDelta(v, t.count)
    requires turns == [] ==> t.add == 0 && (t.count == 1 ==> t.interval == MinMaxPoint(v, 0).maxp)
    ensures Following(v, n', minAdd', maxAdd', outerMin', outerMax', turns + [t])
  {
    hide TurnOk, MinMaxPoint, Kept, UpperBlocked, LowerBlocked, TooLate, MayExtend, ErrDelta;
    KeptTurn(v, n, n', minAdd, maxAdd, outerMin, outerMax, turns, t);
    KeptLimit(v, n', if t.early then t.add + 1 else minAdd, if t.early then maxAdd else t.add - 1, outerMin', outerMax',
              turns, t, minAdd', maxAdd');
    RangeMore(v, turns, t, minAdd, maxAdd, minAdd', maxAdd');
  }

  lemma RangeMore(v: View, turns: seq<Turn>, t: Turn, minAdd: int, maxAdd: int, minAdd': int, maxAdd': int)
    requires RangeAllowed(v, turns, minAdd, maxAdd) && minAdd <= minAdd' && maxAdd' <= maxAdd
    requires if t.early then t.add < minAdd' else maxAdd' < t.add
    requires t.count > 1 ==> t.add - ErrDelta(v, t.count) <= minAdd' && maxAdd' <= t.add + ErrDelta(v, t.count)
    ensures RangeAllowed(v, turns + [t], minAdd', maxAdd')
  {
    hide ErrDelta;
  }

  /** The turn a run makes. */
  lemma RunTurns(v: View, t: Turn, outerMin: int, outerMax: int, nextMax: int)
    requires 1 <= t.count < Limit(v) && InInt16(t.add) && InFirst(v, outerMin) && InFirst(v, outerMax)
    requires t.count >= 2 || outerMin <= outerMax ==>
               outerMin <= t.interval <= outerMax && Fits(v, t.interval, t.add, t.count)
    requires t.count == 1 ==> t.interval == outerMax
    requires Turned(v, t.add, t.count, t.interval, outerMin, t.nextMin, nextMax)
    requires t.early <==> NextReach(t.add, t.interval, t.count) < MinMaxPoint(v, t.count).minp
    ensures TurnOk(v, t) && if t.early then nextMax == t.interval && InFirst(v, nextMax) else InFirst(v, t.nextMin)
    ensures t.early <==> TooEarly(v, t.interval, t.add, t.count + 1)
  {
    hide MinMaxPoint, Tri, Fits;
    ReachClosed(t.interval, t.add, t.count + 1);
  }

  /** No interval of an exhausted range fits one point more. */
  lemma RunStuck(v: View, add: int, n: nat, outerMin: int, outerMax: int, lo: int, hi: int, i: int)
    requires n <= |v.queue| && Admissible(v, add, n, outerMin, outerMax, lo, hi) && lo > hi
    ensures outerMin <= i <= outerMax ==> !Fits(v, i, add, n)
  {
    hide Fits;
  }

  /** A command that covers everything is the longest, and one of the adds allowed. */
  lemma CoversAll(v: View, n: nat, k: nat, minAdd: int, maxAdd: int, outerMin: int, outerMax: int, turns: seq<Turn>,
                  add: int)
    requires n == Limit(v) && Following(v, k, minAdd, maxAdd, outerMin, outerMax, turns) && minAdd <= add <= maxAdd
    ensures Longest(v, n) && ZeroCeiling(v, n) && LongerMissed(v, n + n / 16, turns)
    ensures TurnsOk(v, turns) && RangeAllowed(v, turns, add, add)
  {
    hide Fits, Allowed, Kept, TurnsOk;
  }

  /** What the choice at the end of a search is worth. */
  /** A command with an add covers over a sixteenth more than any constant interval could. */
  ghost predicate AddEarned(v: View, m: StepMove) {
    m.add != 0 ==> forall i, n: nat :: n <= Limit(v) && Fits(v, i, 0, n) ==> n + n / 16 < m.count
  }

  lemma Chosen(v: View, b: Best, z: Zero, turns: seq<Turn>)
    requires Ordered(v) && Candidate(v, b) && Stuck(v, b) && ZeroFound(v, z)
    requires TurnsOk(v, turns) && TurnsUpTo(turns, b.count) && (b.count <= 0x200 ==> LongerMissed(v, b.count, turns))
    ensures var n := Choose(v, b, z).count;
            && n < Limit(v) && ZeroCeiling(v, n) && (n + n / 16 <= 0x200 ==> LongerMissed(v, n + n / 16, turns))
            && (v.maxError == 0 ==> Longest(v, n)) && AddEarned(v, Choose(v, b, z))
  {
    hide Ordered, MinMaxPoint, Fits, Missed, TurnOk;
    if v.maxError == 0 { ChosenIsLongest(v, b, z, turns); }
  }

  /** Turn to greater or lesser adds after a run, and limit them by the next point. */
  method TurnRound(v: View, add: int, minAdd: int, maxAdd: int, count: nat, interval: int, outerMin: int, outerMax: int,
                   nextMin: int, nextMax: int, ghost n: nat, ghost n': nat, ghost turns: seq<Turn>)
    returns (minAdd': int, maxAdd': int, outerMin': int, outerMax': int, ghost fits32: bool, ghost turns': seq<Turn>)
    requires Ordered(v) && 1 <= count < Limit(v) && -0x8000 <= minAdd <= add <= maxAdd <= 0x7fff
    requires InFirst(v, outerMin) && InFirst(v, outerMax)
    requires count >= 2 || outerMin <= outerMax ==> outerMin <= interval <= outerMax && Fits(v, interval, add, count)
    requires count == 1 ==> interval == outerMax
    requires Turned(v, add, count, interval, outerMin, nextMin, nextMax)
    requires UpperBlocked(v, add, count, outerMax, interval) && LowerBlocked(v, add, count + 1, outerMin, nextMin)
    requires outerMin <= outerMax && !TooEarly(v, interval, add, count + 1) ==> TooLate(v, nextMin, add, count + 1)
    requires Following(v, n, minAdd, maxAdd, outerMin, outerMax, turns) && n <= n' && count <= n'
    requires turns == [] ==> add == 0 && (count == 1 ==> interval == MinMaxPoint(v, 0).maxp)
    ensures minAdd <= minAdd' && maxAdd' <= maxAdd && (add < minAdd' || maxAdd' < add)
    ensures InFirst(v, outerMin') && InFirst(v, outerMax')
    ensures Following(v, n', minAdd', maxAdd', outerMin', outerMax', turns') && turns' != []
    ensures v.maxError <= SAFE_ERROR && count <= 0x200 ==> fits32
    ensures fits32 && MinMaxPoint(v, count).minp <= NextReach(add, interval, count) ==> InInt32(outerMax * (count + 1))
  {
    hide Following, UpperBlocked, LowerBlocked, TooLate, TooEarly, TurnOk, MinMaxPoint, Fits, Turned, ExtendingKept,
         Ordered, ErrDelta, NextReach, Tri;
    ghost var t := Turn(add, count, interval, nextMin, NextReach(add, interval, count) < MinMaxPoint(v, count).minp);
    RunTurns(v, t, outerMin, outerMax, nextMax);
    minAdd', maxAdd', outerMin', outerMax' := minAdd, maxAdd, outerMin, outerMax;
    if NextReach(add, interval, count) < MinMaxPoint(v, count).minp {
      minAdd', outerMax' := add + 1, nextMax;
    } else {
      maxAdd', outerMin' := add - 1, nextMin;
    }
    minAdd', maxAdd', fits32 := LimitAddRange(v, add, minAdd', maxAdd', count, interval, outerMin', outerMax');
    TurnKeeps(v, n, n', minAdd, maxAdd, outerMin, outerMax, turns, t, minAdd', maxAdd', outerMin', outerMax');
    turns' := turns + [t];
  }

  /**
   * Find a command covering a prefix of the queue. The result fits its windows, and no constant-interval command
   * could cover more points. Every command that covers more than a sixteenth more was missed at a turn: its add
   * deviated too much from one that was tried, or it was lost to rounding. Without an error allowance no command
   * covers more.
   */
  method CompressBisectAdd(v: View) returns (m: StepMove, ghost fits32: bool, ghost turns: seq<Turn>)
    requires Ordered(v) && |v.queue| > 0
    ensures 1 <= m.count <= Limit(v)
    ensures -0x8000 <= m.add <= 0x7fff
    ensures Fits(v, m.interval, m.add, m.count)
    ensures ZeroCeiling(v, m.count) && (m.count < Limit(v) ==> AddEarned(v, m))
    ensures m.count + m.count / 16 <= 0x200 ==> LongerMissed(v, m.count + m.count / 16, turns)
    ensures v.maxError == 0 ==> Longest(v, m.count)
    ensures TurnsOk(v, turns) && (m.count == Limit(v) ==> RangeAllowed(v, turns, m.add, m.add))
    ensures turns == [] && m.count == Limit(v) ==> m.add == 0
    ensures v.maxError <= SAFE_ERROR ==> fits32
    ensures fits32 ==> FirstLimitFits(v)
  {
    hide FirstLimitFits, Following, LongerMissed, Longest, UpperBlocked, LowerBlocked, TooLate, TooEarly, TurnsOk,
         TurnOk, RangeAllowed, TurnsUpTo, Stuck, MinMaxPoint, Fits, Admissible, Candidate, ZeroCeiling, Tri, Turned,
         ExtendingKept, Ordered, ErrDelta, TurnFits, Choose, NextReach, AddEarned;
    fits32, turns := true, [];
    var point := MinMaxPoint(v, 0);
    WindowShape(v, 0);
    var outerMin, outerMax := point.minp, point.maxp;
    var add, minAdd, maxAdd := 0, -0x8000, 0x7fff;
    var best, zero := Best(0, 1, 1, -0x8000_0000), Zero(0, 0);
    NoTurns(v);
    while true
      invariant InFirst(v, outerMin) && InFirst(v, outerMax)
      invariant v.maxError <= SAFE_ERROR ==> fits32
      invariant zero.count != 0 && fits32 ==> FirstLimitFits(v)
      invariant -0x8000 <= minAdd <= add <= maxAdd <= 0x7fff
      invariant if zero.count == 0
                then add == 0 && outerMin == point.minp && outerMax == point.maxp && best.reach < 0 && best.count == 1
                else (minAdd > 0 || maxAdd < 0) && Candidate(v, best) && ZeroFound(v, zero) && best.count <= 0x200 &&
                     Stuck(v, best)
      invariant Following(v, best.count, minAdd, maxAdd, outerMin, outerMax, turns)
      invariant turns == [] <==> zero.count == 0
      decreases maxAdd - minAdd
    {
      var complete, nextMin, nextMax, interval, count;
      ghost var roundsFit, limitsFit;
      complete, nextMin, nextMax, interval, count, roundsFit := LongestRun(v, add, outerMin, outerMax);
      fits32 := fits32 && roundsFit;
      if zero.count == 0 {
        if !complete { ZeroRunIsLongest(v, count, nextMin, nextMax); }
        FirstRunEnds(v, count, interval);
      }
      if complete {
        m := MoveOf(v, interval, count, add);
        CoversAll(v, m.count, best.count, minAdd, maxAdd, outerMin, outerMax, turns, add);
        return;
      }
      TurnInRange(v, add, interval, count);
      fits32 := fits32 && TurnFits(add, interval, count);
      RunStuck(v, add, count + 1, outerMin, outerMax, nextMin, nextMax, interval);
      ghost var before := best.count;
      var stop;
      best, zero, stop := Consider(v, best, zero, interval, count, add);
      if stop {
        Stops(v, before, best.count, minAdd, maxAdd, outerMin, outerMax, turns);
        break;
      }
      minAdd, maxAdd, outerMin, outerMax, limitsFit, turns :=
        TurnRound(v, add, minAdd, maxAdd, count, interval, outerMin, outerMax, nextMin, nextMax, before, best.count,
                  turns);
      fits32 := fits32 && limitsFit;
      if minAdd > maxAdd {
        Stops(v, best.count, best.count, minAdd, maxAdd, outerMin, outerMax, turns);
        break;
      }
      add := maxAdd - (maxAdd - minAdd) / 4;
    }
    Chosen(v, best, zero, turns);
    m := Choose(v, best, zero);
  }

  /** Prefer the add == 0 sequence when it is nearly as long as the best one. */
  function Choose(v: View, b: Best, z: Zero): (m: StepMove)
    requires Ordered(v) && Candidate(v, b) && ZeroFound(v, z)
    ensures 1 <= m.count <= Limit(v) && -0x8000 <= m.add <= 0x7fff
    ensures Fits(v, m.interval, m.add, m.count) && m.count >= z.count && m.count + m.count / 16 >= b.count
  {
    if z.count + z.count / 16 >= b.count
    then MoveOf(v, z.interval, z.count, 0)
    else MoveOf(v, b.interval, b.count, b.add)
  }

  /** A fitting interval is positive, so it is a uint32_t. */
  function MoveOf(v: View, interval: int, count: nat, add: int): StepMove
    requires 1 <= count <= |v.queue| && Ordered(v) && Fits(v, interval, add, count)
  {
    assert interval > 0 by {
      assert InWindow(v, interval, add, 1);
      FitsOne(v, add, interval);
      WindowShape(v, 0);
    }
    StepMove(interval, count, add)
  }

  /** How far from the current add another valid sequence may lie. */
  function ErrDelta(v: View, count: nat): nat
    requires count > 0
  {
    U32(v.maxError * QUADRATIC_DEV) / (count * count)
  }

  ghost predicate Hits(v: View, a: int, n: nat, outerMin: int, outerMax: int)
    requires 1 <= n <= |v.queue|
  {
    exists i :: outerMin <= i <= outerMax && InWindow(v, i, a, n)
  }

  /** Could an add within the allowed deviation reach the next point from some interval of the outer range? */
  ghost predicate MayExtend(v: View, add: int, a: int, count: nat, outerMin: int, outerMax: int)
    requires 1 <= count < |v.queue|
  {
    (count > 1 ==> add - ErrDelta(v, count) <= a <= add + ErrDelta(v, count)) &&
      Hits(v, a, count + 1, outerMin, outerMax)
  }

  /** A range of adds keeps every one of an earlier range that may extend the sequence. */
  ghost predicate ExtendingKept(v: View, add: int, count: nat, outerMin: int, outerMax: int, minAdd: int, maxAdd: int,
                                minAdd': int, maxAdd': int)
    requires 1 <= count < |v.queue|
  {
    forall a :: minAdd <= a <= maxAdd && MayExtend(v, add, a, count, outerMin, outerMax) ==> minAdd' <= a <= maxAdd'
  }

  /** An add that hits the next point from the outer range passes both clips. */
  lemma ExtendingAddKept(v: View, a: int, i: int, n: nat, outerMin: int, outerMax: int)
    requires 2 <= n <= |v.queue| && Tri(n) > 0 && outerMin <= i <= outerMax && InWindow(v, i, a, n)
    ensures var w := MinMaxPoint(v, n - 1);
            IdivUp(w.minp - outerMax * n, Tri(n)) <= a <= IdivDown(w.maxp - outerMin * n, Tri(n))
  {
    var w, d := MinMaxPoint(v, n - 1), Tri(n);
    ReachClosed(i, a, n);
    MulMonotone(i, outerMax, n);
    MulMonotone(outerMin, i, n);
    IdivUpLeast(w.minp - outerMax * n, d, a);
    IdivDownGreatest(w.maxp - outerMin * n, d, a);
  }

  /** Shrink the range of adds still worth trying: it never grows, and keeps every add that may extend the sequence. */
  method LimitAddRange(v: View, add: int, minAdd0: int, maxAdd0: int, count: nat, ghost interval: int, outerMin: int,
                       outerMax: int)
    returns (minAdd: int, maxAdd: int, ghost fits32: bool)
    requires 1 <= count < |v.queue|
    ensures minAdd0 <= minAdd && maxAdd <= maxAdd0
    ensures count > 1 ==> add - ErrDelta(v, count) <= minAdd && maxAdd <= add + ErrDelta(v, count)
    ensures ExtendingKept(v, add, count, outerMin, outerMax, minAdd0, maxAdd0, minAdd, maxAdd)
    ensures LimitReady(v, add, minAdd0, maxAdd0, count, interval, outerMin, outerMax) ==> fits32
    ensures fits32 ==> InInt32(outerMax * (count + 1))
  {
    minAdd, maxAdd := minAdd0, maxAdd0;
    var nextPoint, nextCount := MinMaxPoint(v, count), count + 1;
    var nextAddFactor := Tri(nextCount);
    TriStep(count);
    assert nextAddFactor > 0;
    if count > 1 {
      var errDelta := ErrDelta(v, count);
      if minAdd < add - errDelta { minAdd := add - errDelta; }
      if maxAdd > add + errDelta { maxAdd := add + errDelta; }
    }
    ghost var err := if count > 1 then ErrDelta(v, count) else 0;
    fits32 := LimitFits(v, add, err, nextCount, minAdd, maxAdd, outerMin, outerMax);
    if LimitReady(v, add, minAdd0, maxAdd0, count, interval, outerMin, outerMax) {
      LimitsInRange(v, add, minAdd0, maxAdd0, count, interval, outerMin, outerMax, err, minAdd, maxAdd);
    }
    ClipIsBound(minAdd, nextPoint.minp - outerMax * nextCount, nextAddFactor);
    minAdd := Raise(minAdd, nextPoint.minp - outerMax * nextCount, nextAddFactor);
    ClipIsBound(maxAdd, nextPoint.maxp - outerMin * nextCount, nextAddFactor);
    maxAdd := Lower(maxAdd, nextPoint.maxp - outerMin * nextCount, nextAddFactor);
    forall a, i | outerMin <= i <= outerMax && InWindow(v, i, a, nextCount)
      ensures IdivUp(nextPoint.minp - outerMax * nextCount, nextAddFactor) <= a
              <= IdivDown(nextPoint.maxp - outerMin * nextCount, nextAddFactor)
    {
      ExtendingAddKept(v, a, i, nextCount, outerMin, outerMax);
    }
  }

  // ---------------------------------------------------------------------------
  // The line check
  // ---------------------------------------------------------------------------

  /** The check's 32-bit registers after k pulses: ticks so far, and the next interval. */
  function IntervalAt(m: StepMove, k: nat): nat {
    if k == 0 then U32(m.interval) else U32(IntervalAt(m, k - 1) + m.add)
  }

  function PulseAt(m: StepMove, k: nat): nat {
    if k == 0 then 0 else U32(PulseAt(m, k - 1) + IntervalAt(m, k - 1))
  }

  /** The registers hold the replayed values, reduced to 32 bits. */
  lemma {:induction false} RegistersHold(m: StepMove, k: nat)
    ensures PulseAt(m, k) == U32(Reach(m.interval, m.add, k))
    ensures IntervalAt(m, k) == U32(Interval(m.interval, m.add, k))
  {
    if k > 0 {
      RegistersHold(m, k - 1);
      U32Sum(Reach(m.interval, m.add, k - 1), Interval(m.interval, m.add, k - 1));
      U32Sum(Interval(m.interval, m.add, k - 1), m.add);
    }
  }

  /** The check's comparison of one pulse: the signed window is converted to unsigned. */
  predicate RegistersAccepted(w: Points, p: nat, interval: nat) {
    U32(w.minp) <= p <= U32(w.maxp) && interval < 0x8000_0000
  }

  /** What the check demands of pulse k. */
  predicate PulseAccepted(v: View, m: StepMove, k: nat)
    requires 1 <= k <= |v.queue|
  {
    RegistersAccepted(MinMaxPoint(v, k - 1), PulseAt(m, k), IntervalAt(m, k - 1))
  }

  ghost predicate LineAccepted(v: View, m: StepMove)
    requires m.count <= |v.queue|
  {
    && m.count > 0 && m.interval < 0x8000_0000
    && !(m.interval == 0 && m.add == 0 && m.count > 1)
    && forall k :: 1 <= k <= m.count ==> PulseAccepted(v, m, k)
  }

  /** Replays the command in 32-bit arithmetic against every window it claims to cover. */
  method CheckLine(v: View, m: StepMove) returns (ok: bool)
    requires m.count <= |v.queue|
    ensures ok <==> LineAccepted(v, m)
  {
    if m.count == 0 || (m.interval == 0 && m.add == 0 && m.count > 1) || m.interval >= 0x8000_0000 {
      return false;
    }
    var interval, p, i := U32(m.interval), 0, 0;
    while i < m.count
      invariant 0 <= i <= m.count
      invariant p == PulseAt(m, i) && interval == IntervalAt(m, i)
      invariant forall k :: 1 <= k <= i ==> PulseAccepted(v, m, k)
    {
      p := U32(p + interval);
      if !RegistersAccepted(MinMaxPoint(v, i), p, interval) {
        assert !PulseAccepted(v, m, i + 1);
        return false;
      }
      interval := U32(interval + m.add);
      i := i + 1;
    }
    return true;
  }

  /** A pulse in its window lies after the previous point, and the previous pulse does not. */
  lemma PulsesSeparate(v: View, interval: int, add: int, k: nat)
    requires Ordered(v) && 1 <= k <= |v.queue| && InWindow(v, interval, add, k)
    requires k > 1 ==> InWindow(v, interval, add, k - 1)
    ensures 0 <= Reach(interval, add, k - 1) <= PrevPoint(v, k - 1) < Reach(interval, add, k) < CLOCK_DIFF_MAX
  {
    WindowShape(v, k - 1);
    if k > 1 { WindowShape(v, k - 2); }
  }

  /** Each interval of a fitting command is positive, so its pulses strictly increase. */
  lemma FitsIntervals(v: View, m: StepMove, k: nat)
    requires Ordered(v) && 1 <= k <= m.count <= |v.queue| && Fits(v, m.interval, m.add, m.count)
    ensures 0 < Interval(m.interval, m.add, k - 1) < CLOCK_DIFF_MAX
    ensures 0 <= Reach(m.interval, m.add, k - 1) < Reach(m.interval, m.add, k) < CLOCK_DIFF_MAX
  {
    assert InWindow(v, m.interval, m.add, k);
    if k > 1 { assert InWindow(v, m.interval, m.add, k - 1); }
    PulsesSeparate(v, m.interval, m.add, k);
  }

  /** Where no register overflows, the check's comparison is the signed one. */
  lemma RegistersExact(w: Points, reach: int, step: int)
    requires 0 <= w.minp <= w.maxp < CLOCK_DIFF_MAX
    requires 0 <= reach - step < CLOCK_DIFF_MAX && -0x8000 <= step < 0x8000_8000
    ensures RegistersAccepted(w, U32(reach), U32(step)) <==>
            w.minp <= reach <= w.maxp && 0 <= step < 0x8000_0000
  {
  }

  /** On an ordered queue the check accepts exactly the commands whose pulses all fit. */
  lemma CheckLineDecidesFit(v: View, m: StepMove)
    requires Ordered(v) && 1 <= m.count <= |v.queue| && -0x8000 <= m.add <= 0x7fff
    ensures LineAccepted(v, m) <==> Fits(v, m.interval, m.add, m.count)
  {
    if Fits(v, m.interval, m.add, m.count) {
      FitsIntervals(v, m, 1);
      forall k | 1 <= k <= m.count
        ensures PulseAccepted(v, m, k)
      {
        assert InWindow(v, m.interval, m.add, k);
        FitsIntervals(v, m, k);
        PulseExact(v, m, k);
      }
    } else if LineAccepted(v, m) {
      AcceptedPrefixFits(v, m, m.count);
    }
  }

  lemma {:induction false} PulseExact(v: View, m: StepMove, k: nat)
    requires Ordered(v) && 1 <= k <= |v.queue|
    requires 0 <= Reach(m.interval, m.add, k - 1) < CLOCK_DIFF_MAX
    requires -0x8000 <= Interval(m.interval, m.add, k - 1) < 0x8000_8000
    ensures PulseAccepted(v, m, k) <==>
            InWindow(v, m.interval, m.add, k) && 0 <= Interval(m.interval, m.add, k - 1) < 0x8000_0000
  {
    hide MinMaxPoint, Ordered, U32, PulseAt, IntervalAt, RegistersAccepted;
    WindowShape(v, k - 1);
    RegistersHold(m, k);
    RegistersHold(m, k - 1);
    RegistersExact(MinMaxPoint(v, k - 1), Reach(m.interval, m.add, k), Interval(m.interval, m.add, k - 1));
  }

  lemma {:induction false} AcceptedPrefixFits(v: View, m: StepMove, n: nat)
    requires Ordered(v) && n <= m.count <= |v.queue| && LineAccepted(v, m) && -0x8000 <= m.add <= 0x7fff
    ensures Fits(v, m.interval, m.add, n)
    ensures 0 <= Reach(m.interval, m.add, n) < CLOCK_DIFF_MAX
    ensures -0x8000 <= Interval(m.interval, m.add, n) < 0x8000_8000
  {
    if n == 0 {
      assert Reach(m.interval, m.add, 0) == 0;
    } else {
      AcceptedPrefixFits(v, m, n - 1);
      assert PulseAccepted(v, m, n);
      PulseExact(v, m, n);
      WindowShape(v, n - 1);
    }
  }

  // ---------------------------------------------------------------------------
  // What the search can miss
  // ---------------------------------------------------------------------------

  /** Windows of the first three points. */
  ghost predicate WindowsAre(v: View, a: Points, b: Points, c: Points) {
    |v.queue| == 3 && MinMaxPoint(v, 0) == a && MinMaxPoint(v, 1) == b && MinMaxPoint(v, 2) == c
  }

  /** A sequence through three points, pulse by pulse. */
  lemma ThroughThree(v: View, a: Points, b: Points, c: Points, i: int, add: int)
    requires WindowsAre(v, a, b, c)
    ensures Fits(v, i, add, 3) <==>
            a.minp <= i <= a.maxp && b.minp <= 2 * i + add <= b.maxp && c.minp <= 3 * i + 3 * add <= c.maxp
    ensures Fits(v, i, add, 2) <==> a.minp <= i <= a.maxp && b.minp <= 2 * i + add <= b.maxp
    ensures TooEarly(v, i, add, 2) <==> 2 * i + add < b.minp
  {
    hide MinMaxPoint;
    assert Reach(i, add, 1) == i && Reach(i, add, 2) == 2 * i + add;
    assert Interval(i, add, 2) == i + 2 * add && Reach(i, add, 3) == 3 * i + 3 * add;
    assert InWindow(v, i, add, 1) <==> a.minp <= i <= a.maxp;
    assert InWindow(v, i, add, 2) <==> b.minp <= 2 * i + add <= b.maxp;
    assert InWindow(v, i, add, 3) <==> c.minp <= 3 * i + 3 * add <= c.maxp;
  }

  const DEVIATING: View := View(0, [19, 39, 63], 1)

  lemma DeviatingWindows()
    ensures Ordered(DEVIATING) && WindowsAre(DEVIATING, Points(18, 19), Points(38, 39), Points(62, 63))
    ensures ErrDelta(DEVIATING, 2) == 2
  {
    var v := DEVIATING;
    assert Point(v, 0) == 19 && Point(v, 1) == 39 && Point(v, 2) == 63;
    assert OrderedAt(v, 0) && OrderedAt(v, 1) && OrderedAt(v, 2);
    hide Point;
    assert Ordered(v);
    assert U32(11) == 11;
  }

  /** The command (18, 3) covers all three steps, but its add deviates by 3 from that of two steps 19 apart. */
  method DeviationMisses() returns (m: StepMove)
    ensures Fits(DEVIATING, 18, 3, 3) && m.count < 3
  {
    DeviatingWindows();
    hide Ordered, MinMaxPoint, Fits, TooEarly, ErrDelta;
    var v, a, b, c := DEVIATING, Points(18, 19), Points(38, 39), Points(62, 63);
    ThroughThree(v, a, b, c, 18, 3);
    ghost var fits32, turns;
    m, fits32, turns := CompressBisectAdd(v);
    ThroughThree(v, a, b, c, m.interval, m.add);
    if m.count == 3 && turns != [] {
      assert TurnOk(v, turns[0]) && Allowed(v, turns[0], m.add);
      ThroughThree(v, a, b, c, turns[0].interval, 0);
    }
  }

  const ROUNDED: View := View(0, [2, 3, 7], 1)

  lemma RoundedWindows()
    ensures Ordered(ROUNDED) && WindowsAre(ROUNDED, Points(1, 2), Points(3, 3), Points(6, 7))
  {
    var v := ROUNDED;
    assert Point(v, 0) == 2 && Point(v, 1) == 3 && Point(v, 2) == 7;
    assert OrderedAt(v, 0) && OrderedAt(v, 1) && OrderedAt(v, 2);
    hide Point;
    assert Ordered(v);
  }

  /** The command (1, 1) covers all three steps, but with add 0 the interval 1 is early for the second, and 2 late. */
  method RoundingLoses() returns (m: StepMove)
    ensures Fits(ROUNDED, 1, 1, 3) && m.count < 3
  {
    RoundedWindows();
    hide Ordered, MinMaxPoint, Fits, TooEarly, ErrDelta;
    var v, a, b, c := ROUNDED, Points(1, 2), Points(3, 3), Points(6, 7);
    ThroughThree(v, a, b, c, 1, 1);
    ghost var fits32, turns;
    m, fits32, turns := CompressBisectAdd(v);
    ThroughThree(v, a, b, c, m.interval, m.add);
    if m.count == 3 && turns != [] {
      assert TurnOk(v, turns[0]) && Allowed(v, turns[0], m.add);
      ThroughThree(v, a, b, c, turns[0].interval, 0);
    }
  }

  /** Three steps close together after a long pause, with an error allowance of the same size. */
  const WIDE: View := View(0, [0x2b00_0000, 0x2e00_0000, 0x2f00_0000], 0x1600_0000)

  lemma WideWindows()
    ensures Ordered(WIDE) && Limit(WIDE) == 3
    ensures MinMaxPoint(WIDE, 0) == Points(0x1580_0000, 0x2b00_0000)
    ensures MinMaxPoint(WIDE, 1) == Points(0x2c80_0000, 0x2e00_0000)
    ensures MinMaxPoint(WIDE, 2) == Points(0x2e80_0000, 0x2f00_0000)
  {
    var v := WIDE;
    assert Point(v, 0) == 0x2b00_0000 && Point(v, 1) == 0x2e00_0000 && Point(v, 2) == 0x2f00_0000;
    hide Point;
    assert OrderedAt(v, 0) && OrderedAt(v, 1) && OrderedAt(v, 2);
    assert Ordered(v);
    hide MinMaxPoint;
    WindowShape(v, 0);
    WindowShape(v, 1);
    WindowShape(v, 2);
  }

  /** Pulse k of a constant interval. */
  lemma ConstantWindow(v: View, i: int, k: nat)
    requires 1 <= k <= |v.queue|
    ensures InWindow(v, i, 0, k) <==> MinMaxPoint(v, k - 1).minp <= i * k <= MinMaxPoint(v, k - 1).maxp
  {
    hide MinMaxPoint;
    ReachClosed(i, 0, k);
  }

  lemma WideCeiling()
    ensures ZeroCeiling(WIDE, 2)
  {
    WideWindows();
    hide MinMaxPoint, Ordered, InWindow;
    forall i, m: nat | m <= Limit(WIDE) && Fits(WIDE, i, 0, m)
      ensures m <= 2
    {
      ConstantWindow(WIDE, i, 2);
      ConstantWindow(WIDE, i, 3);
      assert !InWindow(WIDE, i, 0, 2) || !InWindow(WIDE, i, 0, 3);
    }
  }

  /** No constant interval covers all three steps, and those that cover two leave the upper bound where it is. */
  lemma WideEnds()
    ensures Ordered(WIDE) && ZeroEnds(WIDE, 2) && !InInt32(MinMaxPoint(WIDE, 0).maxp * 3)
  {
    WideWindows();
    hide MinMaxPoint, Ordered, Limit, InWindow;
    forall i
      ensures Fits(WIDE, i, 0, 2) ==> MinMaxPoint(WIDE, 2).minp <= i * 3
    {
      ConstantWindow(WIDE, i, 2);
      assert Fits(WIDE, i, 0, 2) ==> InWindow(WIDE, i, 0, 2);
    }
    WideCeiling();
    ConstantWindow(WIDE, 0x1700_0000, 1);
    ConstantWindow(WIDE, 0x1700_0000, 2);
    assert Fits(WIDE, 0x1700_0000, 0, 2);
  }

  /** Some bound on max_error is needed: for these steps the search leaves 32 bits. */
  method LargeErrorOverflows() returns (m: StepMove, ghost fits32: bool)
    ensures !fits32
  {
    WideEnds();
    hide ZeroEnds;
    ghost var turns;
    m, fits32, turns := CompressBisectAdd(WIDE);
  }
}
