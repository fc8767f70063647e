/**
 * Dispatch of trigger messages between microcontrollers that home together: while all report
 * in, each one's timeout is extended past what the others have acknowledged; when one
 * triggers, all are told to.
 */
module TrDispatch {
  import opened Words

  const PR_NEVER: real := 9999999999999999.0

  // ---------------------------------------------------------------------------
  // Clock estimates
  // ---------------------------------------------------------------------------

  datatype ClockEstimate = ClockEstimate(lastClock: nat, convClock: nat, convTime: real, estFreq: real)

  function S64(x: nat): int
    requires x < TWO64
  {
    if x < 0x8000_0000_0000_0000 then x else x - TWO64
  }

  /** Extend a 32-bit clock to the nearest full clock. */
  function ClockFromClock32(ce: ClockEstimate, clock32: nat): nat {
    U64(ce.lastClock + S32(U32(clock32 - ce.lastClock)))
  }

  /** A clock within 2^31 of the last one known is recovered exactly from its low 32 bits. */
  lemma Clock32Exact(ce: ClockEstimate, clock: nat)
    requires -0x8000_0000 <= clock - ce.lastClock < 0x8000_0000 && clock < TWO64
    ensures ClockFromClock32(ce, U32(clock)) == clock
  {
    var d, q := clock - ce.lastClock, clock / 0x1_0000_0000;
    assert U32(clock) == clock - q * 0x1_0000_0000;
    U32Sum(clock, 0 - ce.lastClock);
    assert U32(U32(clock) - ce.lastClock) == U32(d);
    assert S32(U32(d)) == d;
  }

  /** Conversion to an integer type: the fraction is dropped. */
  function Truncate(x: real): int {
    if x >= 0.0 then x.Floor else -((-x).Floor)
  }

  function ClockToTime(ce: ClockEstimate, clock: nat): real
    requires ce.estFreq > 0.0
  {
    ce.convTime + S64(U64(clock - ce.convClock)) as real / ce.estFreq
  }

  /** Ticks from the base of an estimate to a time, to be rounded. */
  function TicksTo(ce: ClockEstimate, time: real): real {
    (time - ce.convTime) * ce.estFreq + 0.5
  }

  /** The clock of a time, before it is stored in 64 bits. */
  function PlainClock(ce: ClockEstimate, time: real): int {
    Truncate(TicksTo(ce, time)) + ce.convClock
  }

  function ClockFromTime(ce: ClockEstimate, time: real): nat {
    U64(PlainClock(ce, time))
  }

  lemma Near64(x: int)
    requires -0x8000_0000_0000_0000 <= x < 0x8000_0000_0000_0000
    ensures S64(U64(x)) == x
  {
  }

  lemma DivideMultiply(x: real, f: real)
    requires f > 0.0
    ensures x / f * f == x
  {
  }

  /** Whole ticks and a half round to the same number of ticks, and to one more if they are negative. */
  lemma TruncateHalf(d: int)
    ensures Truncate(d as real + 0.5) == if d >= 0 then d else d + 1
  {
    if d >= 0 {
      assert (d as real + 0.5).Floor == d;
    } else {
      assert (-(d as real + 0.5)).Floor == -d - 1;
    }
  }

  /** The clock that a clock comes back as, by way of its time. */
  function Returned(ce: ClockEstimate, clock: nat): nat {
    if clock >= ce.convClock then clock else clock + 1
  }

  /** A clock within 2^63 of the base of the estimate comes back from its time, exactly if it is not before the base. */
  lemma ClockComesBack(ce: ClockEstimate, clock: nat)
    requires ce.estFreq > 0.0 && -0x8000_0000_0000_0000 <= clock - ce.convClock < 0x8000_0000_0000_0000
    ensures PlainClock(ce, ClockToTime(ce, clock)) == Returned(ce, clock)
    ensures PlainClock(ce, ClockToTime(ce, clock)) == clock <==> clock >= ce.convClock
  {
    var d := clock - ce.convClock;
    Near64(d);
    hide S64, U64, Truncate;
    DivideMultiply(d as real, ce.estFreq);
    assert ClockToTime(ce, clock) - ce.convTime == d as real / ce.estFreq;
    assert TicksTo(ce, ClockToTime(ce, clock)) == d as real + 0.5;
    TruncateHalf(d);
  }

  /** The clock one tick before the base comes back as the base. */
  lemma ClockBeforeBase()
    ensures var ce := ClockEstimate(0, 1000, 0.0, 1.0); PlainClock(ce, ClockToTime(ce, 999)) == 1000
  {
    ClockComesBack(ClockEstimate(0, 1000, 0.0, 1.0), 999);
  }

  // ---------------------------------------------------------------------------
  // The minimum, and the minimum of the others
  // ---------------------------------------------------------------------------

  /** The least of PR_NEVER and the first n times, leaving out time k. */
  function MinExcept(times: seq<real>, k: int, n: nat): real
    requires n <= |times|
  {
    if n == 0 then PR_NEVER
    else if n - 1 == k then MinExcept(times, k, n - 1)
    else MinReal(MinExcept(times, k, n - 1), times[n - 1])
  }

  /** MinExcept is a lower bound of the other times, and one of them when there is one before PR_NEVER. */
  lemma {:induction false} MinExceptIsMin(times: seq<real>, k: int, n: nat)
    requires n <= |times|
    ensures forall j :: 0 <= j < n && j != k ==> MinExcept(times, k, n) <= times[j]
    ensures MinExcept(times, k, n) == PR_NEVER || exists j :: 0 <= j < n && j != k && times[j] == MinExcept(times, k, n)
  {
    if n > 0 { MinExceptIsMin(times, k, n - 1); }
  }

  /** Leaving out an entry that is not below the minimum of the rest changes nothing. */
  lemma {:induction false} MinExceptOther(times: seq<real>, w: int, k: int, n: nat)
    requires n <= |times| && 0 <= w < n && k != w
    requires forall j :: 0 <= j < n ==> times[w] <= times[j]
    requires times[w] < PR_NEVER
    ensures MinExcept(times, k, n) == times[w]
  {
    MinExceptIsMin(times, k, n);
  }

  /** One pass for the least time, whose it is, and the least of the others. */
  method TwoLeast(times: seq<real>) returns (min: real, who: int, next: real)
    requires |times| > 0 && forall j :: 0 <= j < |times| ==> times[j] < PR_NEVER
    ensures 0 <= who < |times| && min == times[who]
    ensures forall k :: 0 <= k < |times| && |times| > 1 ==>
            (if k == who then next else min) == MinExcept(times, k, |times|)
    ensures |times| == 1 ==> next == min
  {
    min, next, who := PR_NEVER, PR_NEVER, -1;
    for i := 0 to |times|
      invariant if i == 0 then who == -1 && min == PR_NEVER else 0 <= who < i && min == times[who]
      invariant forall j :: 0 <= j < i ==> min <= times[j]
      invariant min <= next == MinExcept(times, who, i)
    {
      var t := times[i];
      if t < next {
        if t < min {
          if i > 0 { MinShift(times, who, i); }
          next, min, who := min, t, i;
        } else {
          next := t;
        }
      }
    }
    forall k | 0 <= k < |times| && k != who
      ensures MinExcept(times, k, |times|) == min
    {
      MinExceptOther(times, who, k, |times|);
    }
    if next == PR_NEVER {
      next := min;
    }
  }

  /** When entry i becomes the least, the least of the others is the old least. */
  lemma MinShift(times: seq<real>, w: int, i: nat)
    requires i < |times| && 0 <= w < i && forall j :: 0 <= j < i ==> times[w] <= times[j]
    requires times[w] < PR_NEVER
    ensures MinExcept(times, i, i + 1) == times[w]
  {
    MinExceptOther(times, w, i, i);
  }

  // ---------------------------------------------------------------------------
  // Extending timeouts
  // ---------------------------------------------------------------------------

  datatype Mcu = Mcu(oid: nat, lastStatusClock: nat, expireClock: nat, expireTicks: nat, minExtendTicks: nat,
                     ce: ClockEstimate)

  datatype Out = Trigger(mcu: nat, reason: nat) | SetTimeout(mcu: nat, clock: nat)

  function StatusTime(m: Mcu): real
    requires m.ce.estFreq > 0.0
  {
    ClockToTime(m.ce, m.lastStatusClock)
  }

  /** The timeout a microcontroller gets when the others are known to have reached a time. */
  function Target(m: Mcu, time: real): nat {
    U64(ClockFromTime(m.ce, time) + m.expireTicks)
  }

  /** The test for sending an extension: the signed difference is compared as unsigned. */
  predicate Extends(m: Mcu, target: nat) {
    U64(target - m.expireClock) >= m.minExtendTicks
  }

  function Extended(m: Mcu, time: real): Mcu {
    if Extends(m, Target(m, time)) then m.(expireClock := Target(m, time)) else m
  }

  /**
   * The timeout moves forward by at least minExtendTicks, or stays, exactly when the target is
   * not behind it or the step back happens to be small enough as an unsigned number.
   */
  lemma ExtensionAdvances(m: Mcu, time: real)
    requires m.expireClock < TWO64 && m.minExtendTicks < TWO64
    ensures var next := Extended(m, time).expireClock;
            next == m.expireClock || next >= m.expireClock + m.minExtendTicks
            <==>
            Target(m, time) >= m.expireClock || m.expireClock - Target(m, time) > TWO64 - m.minExtendTicks
  {
  }

  /** A target one tick behind the timeout is sent, and moves it back. */
  lemma ExtensionCanGoBack()
    ensures exists m: Mcu, time: real :: Extended(m, time).expireClock == m.expireClock - 1
  {
    var m := Mcu(0, 0, 1000, 899, 100, ClockEstimate(0, 0, 0.0, 1.0));
    assert Truncate((100.0 - 0.0) * 1.0 + 0.5) == 100;
    assert Target(m, 100.0) == 999;
    assert U64(-1) == TWO64 - 1;
    assert Extended(m, 100.0).expireClock == m.expireClock - 1;
  }

  /** Acknowledged times of all microcontrollers. */
  ghost predicate EstimatesOk(mcus: seq<Mcu>) {
    forall k :: 0 <= k < |mcus| ==> mcus[k].ce.estFreq > 0.0
  }

  function Times(mcus: seq<Mcu>): (t: seq<real>)
    requires EstimatesOk(mcus)
    ensures |t| == |mcus| && forall k :: 0 <= k < |t| ==> t[k] == StatusTime(mcus[k])
  {
    if mcus == [] then [] else Times(mcus[..|mcus| - 1]) + [StatusTime(mcus[|mcus| - 1])]
  }

  /** What the others have acknowledged; a lone microcontroller answers for itself. */
  function Others(times: seq<real>, k: nat): real
    requires k < |times|
  {
    if |times| == 1 then times[0] else MinExcept(times, k, |times|)
  }

  /** The extensions sent to the first n microcontrollers. */
  function Timeouts(mcus: seq<Mcu>, times: seq<real>, n: nat): seq<Out>
    requires n <= |mcus| == |times|
  {
    if n == 0 then [] else
      var target := Target(mcus[n - 1], Others(times, n - 1));
      Timeouts(mcus, times, n - 1) + if Extends(mcus[n - 1], target) then [SetTimeout(n - 1, target)] else []
  }

  /** A trigger for each of the first n microcontrollers. */
  function Triggers(n: nat, reason: nat): (t: seq<Out>)
    ensures |t| == n && forall k :: 0 <= k < n ==> t[k] == Trigger(k, reason)
  {
    if n == 0 then [] else Triggers(n - 1, reason) + [Trigger(n - 1, reason)]
  }

  ghost predicate OnlyTimeouts(out: seq<Out>) {
    forall k :: 0 <= k < |out| ==> out[k].SetTimeout?
  }

  lemma {:induction false} TimeoutsOnly(mcus: seq<Mcu>, times: seq<real>, n: nat)
    requires n <= |mcus| == |times|
    ensures OnlyTimeouts(Timeouts(mcus, times, n))
  {
    if n > 0 { TimeoutsOnly(mcus, times, n - 1); }
  }

  /** Every extension sent is expireTicks past the least time acknowledged by the other microcontrollers. */
  lemma {:induction false} TimeoutsPastOthers(mcus: seq<Mcu>, times: seq<real>, n: nat, x: Out)
    requires n <= |mcus| == |times| && |mcus| >= 2 && x in Timeouts(mcus, times, n)
    requires forall k :: 0 <= k < |times| ==> times[k] < PR_NEVER
    ensures x.SetTimeout? && x.mcu < n
    ensures exists t :: x.clock == Target(mcus[x.mcu], t) && IsLeastOther(times, x.mcu, t)
  {
    if x in Timeouts(mcus, times, n - 1) {
      TimeoutsPastOthers(mcus, times, n - 1, x);
    } else {
      var k := n - 1;
      MinExceptIsMin(times, k, |times|);
      var other := if k == 0 then 1 else 0;
      assert Others(times, k) <= times[other];
      assert IsLeastOther(times, k, Others(times, k));
    }
  }

  /** t is the least of the times other than time k. */
  ghost predicate IsLeastOther(times: seq<real>, k: nat, t: real) {
    && (forall j :: 0 <= j < |times| && j != k ==> t <= times[j])
    && (exists j :: 0 <= j < |times| && j != k && times[j] == t)
  }

  /** Microcontroller j has the least status clock of those other than k. */
  ghost predicate LeastClock(mcus: seq<Mcu>, k: nat, j: nat) {
    && j < |mcus| && j != k
    && forall i :: 0 <= i < |mcus| && i != k ==> mcus[j].lastStatusClock <= mcus[i].lastStatusClock
  }

  /** The clock lies within 2^63 of the one its estimate is based on. */
  predicate ClockNear(m: Mcu) {
    -0x8000_0000_0000_0000 <= m.lastStatusClock - m.ce.convClock < 0x8000_0000_0000_0000
  }

  /** All microcontrollers share one estimate, and have clocks near its base. */
  ghost predicate Shared(mcus: seq<Mcu>, ce: ClockEstimate) {
    ce.estFreq > 0.0 && forall k :: 0 <= k < |mcus| ==> mcus[k].ce == ce && ClockNear(mcus[k])
  }

  /** With one estimate, a later clock has a later time. */
  lemma EarlierClock(m: Mcu, other: Mcu)
    requires m.ce == other.ce && m.ce.estFreq > 0.0 && ClockNear(m) && ClockNear(other)
    requires StatusTime(m) <= StatusTime(other)
    ensures m.lastStatusClock <= other.lastStatusClock
  {
    var f, a, b := m.ce.estFreq, m.lastStatusClock - m.ce.convClock, other.lastStatusClock - m.ce.convClock;
    Near64(a);
    Near64(b);
    hide S64, U64;
    Unscaled(a as real, b as real, f);
  }

  lemma Unscaled(a: real, b: real, f: real)
    requires f > 0.0 && a / f <= b / f
    ensures a <= b
  {
    Scaled(a / f, b / f, f);
    DivideMultiply(a, f);
    DivideMultiply(b, f);
  }

  lemma TargetOfClock(m: Mcu, other: Mcu)
    requires m.ce == other.ce && m.ce.estFreq > 0.0 && ClockNear(other)
    ensures Target(m, StatusTime(other)) == U64(Returned(m.ce, other.lastStatusClock) + m.expireTicks)
  {
    ClockComesBack(m.ce, other.lastStatusClock);
    hide PlainClock, ClockToTime, Returned;
    U64Sum(Returned(m.ce, other.lastStatusClock), m.expireTicks);
  }

  lemma U64Sum(a: int, b: int)
    ensures U64(U64(a) + b) == U64(a + b)
  {
  }

  /**
   * In clocks: of microcontrollers that share an estimate, each is extended to exactly expireTicks past the least
   * status clock of the others, or past one tick more if that clock is before the base of the estimate.
   */
  lemma {:induction false} TimeoutsPastOtherClocks(mcus: seq<Mcu>, ce: ClockEstimate, n: nat, x: Out)
    requires Shared(mcus, ce) && |mcus| >= 2 && n <= |mcus| && EstimatesOk(mcus) && x in Timeouts(mcus, Times(mcus), n)
    requires forall k :: 0 <= k < |mcus| ==> StatusTime(mcus[k]) < PR_NEVER
    ensures x.SetTimeout? && x.mcu < n
    ensures exists j: nat :: LeastClock(mcus, x.mcu, j) &&
              x.clock == U64(Returned(ce, mcus[j].lastStatusClock) + mcus[x.mcu].expireTicks)
  {
    hide StatusTime, Target, Times, Timeouts, Returned, ClockNear, U64, IsLeastOther, LeastClock, EstimatesOk;
    TimeoutsPastOthers(mcus, Times(mcus), n, x);
    var t :| x.clock == Target(mcus[x.mcu], t) && IsLeastOther(Times(mcus), x.mcu, t);
    var j := LeastHasLeast(mcus, ce, Times(mcus), x.mcu, t);
    TargetOfClock(mcus[x.mcu], mcus[j]);
  }

  lemma LeastHasLeast(mcus: seq<Mcu>, ce: ClockEstimate, times: seq<real>, k: nat, t: real) returns (j: nat)
    requires Shared(mcus, ce) && |times| == |mcus| && IsLeastOther(times, k, t)
    requires forall i :: 0 <= i < |mcus| ==> mcus[i].ce.estFreq > 0.0 && times[i] == StatusTime(mcus[i])
    ensures LeastClock(mcus, k, j) && j < |mcus| && StatusTime(mcus[j]) == t
  {
    hide StatusTime, ClockNear;
    j :| j < |times| && j != k && times[j] == t;
    forall i | 0 <= i < |mcus| && i != k
      ensures mcus[j].lastStatusClock <= mcus[i].lastStatusClock
    {
      EarlierClock(mcus[j], mcus[i]);
    }
  }

  /** The least time and the least of the others, as each microcontroller is given it. */
  method LeastOfOthers(times: seq<real>) returns (min: real, who: int, next: real)
    requires |times| > 0 && forall j :: 0 <= j < |times| ==> times[j] < PR_NEVER
    ensures forall k: nat :: k < |times| ==> (if k == who then next else min) == Others(times, k)
  {
    min, who, next := TwoLeast(times);
  }

  lemma OnlyMore(out: seq<Out>, more: seq<Out>, from: nat)
    requires from <= |out| && OnlyTimeouts(out[from..]) && OnlyTimeouts(more)
    ensures OnlyTimeouts((out + more)[from..])
  {
    assert (out + more)[from..] == out[from..] + more;
  }

  /** A microcontroller after its status clock was reported. */
  function Reported(m: Mcu, clock32: nat, est: ClockEstimate): Mcu {
    m.(ce := est, lastStatusClock := ClockFromClock32(est, clock32))
  }

  lemma ExtendedEstimates(before: seq<Mcu>, after: seq<Mcu>, times: seq<real>)
    requires EstimatesOk(before) && |after| == |before| == |times|
    requires forall j :: 0 <= j < |after| ==> after[j] == Extended(before[j], Others(times, j))
    ensures EstimatesOk(after)
  {
  }

  /** Every timeout extended past what the others acknowledged. */
  function ExtendedAll(mcus: seq<Mcu>): (r: seq<Mcu>)
    requires EstimatesOk(mcus)
    ensures |r| == |mcus| && forall k :: 0 <= k < |r| ==> r[k] == Extended(mcus[k], Others(Times(mcus), k))
  {
    var times := Times(mcus);
    seq(|mcus|, k requires 0 <= k < |mcus| => Extended(mcus[k], Others(times, k)))
  }

  // ---------------------------------------------------------------------------
  // Runs of reports, while the clock estimates stay as they are
  // ---------------------------------------------------------------------------

  /** Microcontroller `who` reports the low bits of its clock. */
  datatype Report = Report(who: nat, clock32: nat)

  function Heard(mcus: seq<Mcu>, r: Report): seq<Mcu>
    requires r.who < |mcus|
  {
    mcus[r.who := Reported(mcus[r.who], r.clock32, mcus[r.who].ce)]
  }

  /** The timeout for a time, and one more extension, fit 64 bits. */
  predicate TargetFits(m: Mcu, time: real) {
    var clock := PlainClock(m.ce, time);
    0 <= clock && clock + m.expireTicks + m.minExtendTicks <= TWO64 && m.minExtendTicks > 0
  }

  /** No clock or timeout leaves 64 bits. */
  ghost predicate InRange(mcus: seq<Mcu>)
    requires EstimatesOk(mcus)
  {
    forall k :: 0 <= k < |mcus| ==> ClockNear(mcus[k]) && TargetFits(mcus[k], Others(Times(mcus), k))
  }

  /** No timeout is past the one the others allow. */
  ghost predicate Settled(mcus: seq<Mcu>)
    requires EstimatesOk(mcus)
  {
    forall k :: 0 <= k < |mcus| ==> mcus[k].expireClock <= Target(mcus[k], Others(Times(mcus), k))
  }

  /** Every timeout and one more extension fit 64 bits. */
  ghost predicate TimeoutsFit(mcus: seq<Mcu>) {
    forall k :: 0 <= k < |mcus| ==> mcus[k].expireClock + mcus[k].minExtendTicks <= TWO64
  }

  /** No timeout of a is past that of b. */
  ghost predicate Advanced(a: seq<Mcu>, b: seq<Mcu>) {
    |a| == |b| && forall k :: 0 <= k < |a| ==> a[k].expireClock <= b[k].expireClock
  }

  /** Every report comes from a microcontroller of the group, and reports no earlier clock than the one before. */
  ghost predicate Rises(mcus: seq<Mcu>, reports: seq<Report>)
    requires EstimatesOk(mcus)
    decreases |reports|
  {
    reports == [] ||
    var r := reports[0];
    && r.who < |mcus| && mcus[r.who].lastStatusClock <= Heard(mcus, r)[r.who].lastStatusClock
    && InRange(Heard(mcus, r)) && Rises(ExtendedAll(Heard(mcus, r)), reports[1..])
  }

  ghost function AfterReports(mcus: seq<Mcu>, reports: seq<Report>): (r: seq<Mcu>)
    requires EstimatesOk(mcus) && Rises(mcus, reports)
    ensures EstimatesOk(r)
    decreases |reports|
  {
    if reports == [] then mcus else AfterReports(ExtendedAll(Heard(mcus, reports[0])), reports[1..])
  }

  lemma Scaled(a: real, b: real, f: real)
    requires a <= b && f > 0.0
    ensures a * f <= b * f && a / f <= b / f
  {
  }

  lemma LaterStatus(m: Mcu, later: Mcu)
    requires m.ce == later.ce && m.ce.estFreq > 0.0 && m.lastStatusClock <= later.lastStatusClock
    requires ClockNear(m) && ClockNear(later)
    ensures StatusTime(m) <= StatusTime(later)
  {
    var a, b := m.lastStatusClock - m.ce.convClock, later.lastStatusClock - m.ce.convClock;
    Near64(a);
    Near64(b);
    hide S64, U64;
    Scaled(a as real, b as real, m.ce.estFreq);
  }

  lemma LaterClock(ce: ClockEstimate, time: real, later: real)
    requires ce.estFreq > 0.0 && time <= later
    ensures PlainClock(ce, time) <= PlainClock(ce, later)
  {
    Scaled(time - ce.convTime, later - ce.convTime, ce.estFreq);
    assert TicksTo(ce, time) <= TicksTo(ce, later);
    TruncateRises(TicksTo(ce, time), TicksTo(ce, later));
  }

  lemma LaterTarget(m: Mcu, time: real, later: real)
    requires m.ce.estFreq > 0.0 && time <= later && TargetFits(m, time) && TargetFits(m, later)
    ensures Target(m, time) <= Target(m, later)
  {
    hide PlainClock, Target;
    LaterClock(m.ce, time, later);
    TargetIs(m, time);
    TargetIs(m, later);
  }

  lemma TargetIs(m: Mcu, time: real)
    requires TargetFits(m, time)
    ensures Target(m, time) == PlainClock(m.ce, time) + m.expireTicks <= TWO64 - m.minExtendTicks
  {
    hide PlainClock;
  }

  lemma TruncateRises(x: real, y: real)
    requires x <= y
    ensures Truncate(x) <= Truncate(y)
  {
    assert x.Floor <= y.Floor && (-y).Floor <= (-x).Floor;
    assert x < 0.0 <= y ==> 0 <= (-x).Floor && 0 <= y.Floor;
  }

  lemma {:induction false} LaterMin(times: seq<real>, later: seq<real>, k: int, n: nat)
    requires n <= |times| == |later| && forall j :: 0 <= j < n ==> times[j] <= later[j]
    ensures MinExcept(times, k, n) <= MinExcept(later, k, n)
  {
    if n > 0 { LaterMin(times, later, k, n - 1); }
  }

  lemma LaterOthers(times: seq<real>, later: seq<real>, k: nat)
    requires k < |times| == |later| && forall j :: 0 <= j < |times| ==> times[j] <= later[j]
    ensures Others(times, k) <= Others(later, k)
  {
    LaterMin(times, later, k, |times|);
  }

  /** Extending timeouts changes no acknowledged time. */
  lemma {:induction false} SameTimes(mcus: seq<Mcu>)
    requires EstimatesOk(mcus)
    ensures Times(ExtendedAll(mcus)) == Times(mcus)
    ensures InRange(mcus) ==> InRange(ExtendedAll(mcus))
  {
    hide StatusTime, Others, PlainClock, Target, Extends;
    var after := ExtendedAll(mcus);
    assert forall k :: 0 <= k < |after| ==> after[k] == mcus[k].(expireClock := after[k].expireClock);
    forall k | 0 <= k < |after|
      ensures StatusTime(after[k]) == StatusTime(mcus[k])
    {
      SameStatus(mcus[k], after[k]);
    }
    hide Times, ExtendedAll;
  }

  lemma SameStatus(m: Mcu, n: Mcu)
    requires m.ce == n.ce && m.lastStatusClock == n.lastStatusClock && m.ce.estFreq > 0.0
    ensures StatusTime(m) == StatusTime(n)
  {
  }

  /** One extension leaves the timeout at or before its target, unless it wraps. */
  lemma ExtendedSettles(m: Mcu, time: real)
    requires TargetFits(m, time) && m.expireClock + m.minExtendTicks <= TWO64
    ensures var n := Extended(m, time);
            n.expireClock <= Target(m, time) && n.expireClock + n.minExtendTicks <= TWO64
    ensures m.expireClock <= Target(m, time) ==> m.expireClock <= Extended(m, time).expireClock
  {
    hide PlainClock, Target;
    TargetIs(m, time);
  }

  /** After any report, no timeout is past what the others allow. */
  lemma ReportSettles(mcus: seq<Mcu>)
    requires EstimatesOk(mcus) && InRange(mcus) && TimeoutsFit(mcus)
    ensures var after := ExtendedAll(mcus);
            EstimatesOk(after) && InRange(after) && TimeoutsFit(after) && Settled(after)
    ensures Settled(mcus) ==> Advanced(mcus, ExtendedAll(mcus))
  {
    hide StatusTime, Others, PlainClock, Target, Extends, Times, TargetFits;
    var after, times := ExtendedAll(mcus), Times(mcus);
    SameTimes(mcus);
    forall k | 0 <= k < |mcus|
      ensures after[k].expireClock <= Target(after[k], Others(times, k))
      ensures after[k].expireClock + after[k].minExtendTicks <= TWO64
      ensures Settled(mcus) ==> mcus[k].expireClock <= after[k].expireClock
    {
      ExtendedSettles(mcus[k], Others(times, k));
      SameTarget(mcus[k], after[k], Others(times, k));
    }
  }

  lemma SameTarget(m: Mcu, n: Mcu, time: real)
    requires m.ce == n.ce && m.expireTicks == n.expireTicks
    ensures Target(m, time) == Target(n, time)
  {
  }

  /** A report of a later clock leaves every timeout no later than the others allow. */
  lemma HeardSettled(mcus: seq<Mcu>, r: Report)
    requires EstimatesOk(mcus) && InRange(mcus) && Settled(mcus) && r.who < |mcus|
    requires mcus[r.who].lastStatusClock <= Heard(mcus, r)[r.who].lastStatusClock && InRange(Heard(mcus, r))
    ensures EstimatesOk(Heard(mcus, r)) && Settled(Heard(mcus, r))
    ensures TimeoutsFit(mcus) ==> TimeoutsFit(Heard(mcus, r))
    ensures Advanced(mcus, Heard(mcus, r))
  {
    hide StatusTime, Others, PlainClock, Target, TargetFits, ClockNear, ClockFromClock32;
    var heard := Heard(mcus, r);
    LaterStatus(mcus[r.who], heard[r.who]);
    var times, later := Times(mcus), Times(heard);
    forall k | 0 <= k < |mcus|
      ensures heard[k].expireClock <= Target(heard[k], Others(later, k))
    {
      LaterOthers(times, later, k);
      SameTarget(mcus[k], heard[k], Others(times, k));
      SameFits(mcus[k], heard[k], Others(times, k));
      LaterTarget(heard[k], Others(times, k), Others(later, k));
    }
  }

  lemma SameFits(m: Mcu, n: Mcu, time: real)
    requires m.ce == n.ce && m.expireTicks == n.expireTicks && m.minExtendTicks == n.minExtendTicks
    ensures TargetFits(m, time) ==> TargetFits(n, time)
  {
  }

  /** Once settled, timeouts only advance, over any run of rising reports. */
  lemma {:induction false} RunAdvances(mcus: seq<Mcu>, reports: seq<Report>)
    requires EstimatesOk(mcus) && InRange(mcus) && TimeoutsFit(mcus) && Settled(mcus) && Rises(mcus, reports)
    ensures Advanced(mcus, AfterReports(mcus, reports))
    decreases |reports|
  {
    hide InRange, Settled, ExtendedAll, Heard, TimeoutsFit, EstimatesOk;
    if reports != [] {
      var heard := Heard(mcus, reports[0]);
      HeardSettled(mcus, reports[0]);
      ReportSettles(heard);
      RunAdvances(ExtendedAll(heard), reports[1..]);
    }
  }

  lemma {:induction false} RisesSplit(mcus: seq<Mcu>, a: seq<Report>, b: seq<Report>)
    requires EstimatesOk(mcus) && InRange(mcus) && TimeoutsFit(mcus) && Settled(mcus) && Rises(mcus, a + b)
    ensures Rises(mcus, a)
    ensures var mid := AfterReports(mcus, a);
            && InRange(mid) && TimeoutsFit(mid) && Settled(mid) && Rises(mid, b)
            && AfterReports(mcus, a + b) == AfterReports(mid, b)
    decreases |a|
  {
    hide InRange, Settled, ExtendedAll, Heard, TimeoutsFit, EstimatesOk;
    if a == [] {
      assert a + b == b;
    } else {
      var heard := Heard(mcus, a[0]);
      assert (a + b)[0] == a[0] && (a + b)[1..] == a[1..] + b;
      HeardSettled(mcus, a[0]);
      ReportSettles(heard);
      RisesSplit(ExtendedAll(heard), a[1..], b);
    }
  }

  /**
   * Whatever the timeouts are at first, from the first report on they only advance: between any two later
   * points of a run of reports that do not fall, with fixed clock estimates.
   */
  lemma {:induction false} AdvanceFromFirstReport(mcus: seq<Mcu>, first: Report, earlier: seq<Report>,
                                                  later: seq<Report>)
    requires EstimatesOk(mcus) && TimeoutsFit(mcus) && first.who < |mcus| && InRange(Heard(mcus, first))
    requires Rises(ExtendedAll(Heard(mcus, first)), earlier + later)
    ensures var begun := ExtendedAll(Heard(mcus, first));
            Rises(begun, earlier) && Advanced(AfterReports(begun, earlier), AfterReports(begun, earlier + later))
  {
    hide InRange, Settled, Rises, AfterReports, ExtendedAll;
    ReportSettles(Heard(mcus, first));
    var begun := ExtendedAll(Heard(mcus, first));
    RisesSplit(begun, earlier, later);
    RunAdvances(AfterReports(begun, earlier), later);
  }

  // ---------------------------------------------------------------------------
  // The dispatcher
  // ---------------------------------------------------------------------------

  class Dispatch {
    var isActive: bool
    var canTrigger: bool
    var dispatchReason: nat
    var mcus: seq<Mcu>
    /** Messages sent, in order. */
    var out: seq<Out>

    /** Where the messages of the last start begin, and where its triggers do. */
    ghost var begun: nat
    ghost var fired: nat

    /** Since the last start: only extensions while it can trigger, then exactly one trigger each and nothing more. */
    ghost predicate Valid()
      reads this
    {
      && EstimatesOk(mcus)
      && begun <= |out|
      && (canTrigger ==> OnlyTimeouts(out[begun..]))
      && (isActive && !canTrigger ==>
            && begun <= fired <= |out| && OnlyTimeouts(out[begun..fired])
            && out[fired..] == Triggers(|mcus|, dispatchReason))
    }

    constructor (mcus: seq<Mcu>)
      requires EstimatesOk(mcus)
      ensures Valid() && !isActive && !canTrigger && this.mcus == mcus && out == []
    {
      this.mcus, isActive, canTrigger, dispatchReason, out := mcus, false, false, 0, [];
      begun, fired := 0, 0;
    }

    /** Set up one microcontroller for a test. */
    method Setup(i: nat, lastStatusClock: nat, expireClock: nat, expireTicks: nat, minExtendTicks: nat,
                 est: ClockEstimate)
      requires Valid() && i < |mcus| && est.estFreq > 0.0
      modifies `mcus
      ensures Valid() && |mcus| == |old(mcus)|
      ensures mcus
              == old(mcus)[i := Mcu(old(mcus)[i].oid, lastStatusClock, expireClock, expireTicks, minExtendTicks, est)]
    {
      mcus := mcus[i := Mcu(mcus[i].oid, lastStatusClock, expireClock, expireTicks, minExtendTicks, est)];
    }

    /** Begin synchronization, unless it is running or there is nothing to synchronize. */
    method Start(reason: nat)
      requires Valid()
      modifies `isActive, `canTrigger, `dispatchReason, `begun
      ensures Valid()
      ensures if old(isActive) || mcus == [] then unchanged(this)
              else isActive && canTrigger && dispatchReason == reason && begun == |out|
    {
      if isActive || mcus == [] {
        return;
      }
      dispatchReason, isActive, canTrigger := reason, true, true;
      begun := |out|;
    }

    method Stop()
      requires Valid()
      modifies `isActive
      ensures Valid() && !isActive
    {
      isActive := false;
    }

    /** A state report from microcontroller i: pass on a trigger, or extend the timeouts of all. */
    method HandleTrsyncState(i: nat, oid: nat, reportedCanTrigger: bool, clock32: nat, est: ClockEstimate)
      requires Valid() && i < |mcus| && est.estFreq > 0.0
      requires forall k :: 0 <= k < |mcus| ==>
                 StatusTime(if k == i then Reported(mcus[i], clock32, est) else mcus[k]) < PR_NEVER
      modifies `canTrigger, `mcus, `out, `fired
      ensures Valid() && |mcus| == |old(mcus)|
      ensures oid != old(mcus)[i].oid || !old(canTrigger) ==> unchanged(this)
      ensures oid == old(mcus)[i].oid && old(canTrigger) && !reportedCanTrigger ==>
                !canTrigger && mcus == old(mcus) && out == old(out) + Triggers(|mcus|, dispatchReason)
      ensures oid == old(mcus)[i].oid && old(canTrigger) && reportedCanTrigger ==>
                var now := old(mcus)[i := Reported(old(mcus)[i], clock32, est)];
                canTrigger && out == old(out) + Timeouts(now, Times(now), |mcus|) && mcus == ExtendedAll(now)
    {
      if oid != mcus[i].oid || !canTrigger {
        return;
      }
      if !reportedCanTrigger {
        canTrigger := false;
        SendTriggers();
        return;
      }
      mcus := mcus[i := Reported(mcus[i], clock32, est)];
      ExtendAll();
    }

    /** Send a trigger to every microcontroller. */
    method SendTriggers()
      requires EstimatesOk(mcus) && begun <= |out| && OnlyTimeouts(out[begun..]) && !canTrigger
      modifies `out, `fired
      ensures Valid() && out == old(out) + Triggers(|mcus|, dispatchReason)
    {
      fired := |out|;
      for k := 0 to |mcus|
        invariant out == old(out) + Triggers(k, dispatchReason) && fired == |old(out)|
      {
        out := out + [Trigger(k, dispatchReason)];
      }
      assert out[fired..] == Triggers(|mcus|, dispatchReason) && out[begun..fired] == old(out)[begun..];
    }

    /** Extend one timeout past a time the others acknowledged, if that is far enough. */
    method ExtendOne(k: nat, statusTime: real)
      requires k < |mcus|
      modifies `mcus, `out
      ensures mcus == old(mcus)[k := Extended(old(mcus)[k], statusTime)]
      ensures var target := Target(old(mcus)[k], statusTime);
              out == old(out) + if Extends(old(mcus)[k], target) then [SetTimeout(k, target)] else []
    {
      var m := mcus[k];
      var expire := U64(ClockFromTime(m.ce, statusTime) + m.expireTicks);
      hide ClockFromTime;
      if U64(expire - m.expireClock) >= m.minExtendTicks {
        mcus := mcus[k := m.(expireClock := expire)];
        out := out + [SetTimeout(k, expire)];
      }
    }

    /** Extend every timeout past what the other microcontrollers acknowledged. */
    method ExtendAll()
      requires Valid() && canTrigger && |mcus| > 0
      requires forall k :: 0 <= k < |mcus| ==> StatusTime(mcus[k]) < PR_NEVER
      modifies `mcus, `out
      ensures Valid() && |mcus| == |old(mcus)|
      ensures out == old(out) + Timeouts(old(mcus), Times(old(mcus)), |mcus|)
      ensures forall k :: 0 <= k < |mcus| ==> mcus[k] == Extended(old(mcus)[k], Others(Times(old(mcus)), k))
    {
      hide ClockFromTime, Others, MinExcept, U64, StatusTime, Extended, Extends, Target, OnlyTimeouts, Times;
      ghost var before := mcus;
      var times := Times(mcus);
      var min, who, next := LeastOfOthers(times);
      for k := 0 to |mcus|
        invariant |mcus| == |before|
        invariant forall j :: 0 <= j < k ==> mcus[j] == Extended(before[j], Others(times, j))
        invariant forall j :: k <= j < |mcus| ==> mcus[j] == before[j]
        invariant out == old(out) + Timeouts(before, times, k)
      {
        ExtendOne(k, if k == who then next else min);
      }
      TimeoutsOnly(before, times, |before|);
      OnlyMore(old(out), Timeouts(before, times, |before|), begun);
      ExtendedEstimates(before, mcus, times);
    }
  }

  /** One tick per second, counted from time 0. */
  const SECONDS: ClockEstimate := ClockEstimate(0, 0, 0.0, 1.0)

  lemma SecondsExact(clock: nat)
    requires clock < 0x8000_0000
    ensures ClockFromClock32(SECONDS, clock) == clock && ClockToTime(SECONDS, clock) == clock as real
    ensures ClockFromTime(SECONDS, clock as real) == clock
  {
    U32Identity(clock);
    Clock32Exact(SECONDS, clock);
    SecondsTime(clock);
    SecondsClock(clock);
    hide ClockFromTime, ClockToTime, ClockFromClock32;
  }

  lemma SecondsTime(clock: nat)
    requires clock < 0x8000_0000
    ensures ClockToTime(SECONDS, clock) == clock as real
  {
    assert U64(clock - 0) == clock;
  }

  lemma SecondsClock(clock: nat)
    requires clock < 0x8000_0000
    ensures ClockFromTime(SECONDS, clock as real) == clock
  {
    var t := clock as real;
    assert (t - 0.0) * 1.0 + 0.5 == t + 0.5;
    assert Truncate(t + 0.5) == clock;
    assert U64(clock + 0) == clock;
  }

  /** What the other of two microcontrollers acknowledged. */
  lemma OtherOfTwo(times: seq<real>)
    requires |times| == 2 && times[0] < PR_NEVER && times[1] < PR_NEVER
    ensures Others(times, 0) == times[1] && Others(times, 1) == times[0]
  {
    assert MinExcept(times, 0, 0) == PR_NEVER == MinExcept(times, 0, 1);
    assert MinExcept(times, 1, 1) == times[0];
  }

  /** A microcontroller that was not set up. */
  function Blank(oid: nat): Mcu {
    Mcu(oid, 0, 0, 0, 0, SECONDS)
  }

  const FIRST: Mcu := Mcu(1, 200, 1000, 899, 100, SECONDS)
  const SECOND: Mcu := Mcu(2, 50, 1050, 899, 100, SECONDS)

  lemma TwoTargets()
    ensures StatusTime(FIRST) == 200.0 && StatusTime(Reported(SECOND, 100, SECONDS)) == 100.0
    ensures Target(FIRST, 100.0) == 999 && Extends(FIRST, 999)
    ensures Target(Reported(SECOND, 100, SECONDS), 200.0) == 1099 && !Extends(Reported(SECOND, 100, SECONDS), 1099)
  {
    hide ClockFromTime, ClockToTime, ClockFromClock32;
    SecondsExact(100);
    SecondsExact(200);
    assert 100 as real == 100.0 && 200 as real == 200.0;
  }

  lemma {:induction false} TwoReport(now: seq<Mcu>)
    requires now == [FIRST, Reported(SECOND, 100, SECONDS)]
    ensures EstimatesOk(now) && Timeouts(now, Times(now), 2) == [SetTimeout(0, 999)]
    ensures Extended(now[0], Others(Times(now), 0)).expireClock == 999
  {
    TwoTargets();
    assert EstimatesOk(now);
    hide Target, Extends, StatusTime, Reported;
    var times := Times(now);
    OtherOfTwo(times);
    hide Others;
    assert Timeouts(now, times, 0) == [];
    assert Timeouts(now, times, 1) == [SetTimeout(0, 999)];
  }

  /**
   * Two microcontrollers, the first with its timeout at 1000 and 899 ticks per extension. The second reports
   * clock 100: the first is sent a timeout of 999, one tick back.
   */
  method TimeoutCanGoBack() returns (d: Dispatch)
    ensures fresh(d) && d.Valid() && d.canTrigger && |d.mcus| == 2
    ensures d.out == [SetTimeout(0, 999)] && d.mcus[0].expireClock == 999
  {
    TwoTargets();
    d := new Dispatch([Blank(1), Blank(2)]);
    d.Setup(0, 200, 1000, 899, 100, SECONDS);
    d.Setup(1, 50, 1050, 899, 100, SECONDS);
    assert d.mcus == [FIRST, SECOND];
    d.Start(1);
    ghost var now := [FIRST, SECOND][1 := Reported(SECOND, 100, SECONDS)];
    assert now == [FIRST, Reported(SECOND, 100, SECONDS)];
    hide Target, Extends, StatusTime, Reported, Timeouts, Extended, Others;
    d.HandleTrsyncState(1, 2, true, 100, SECONDS);
    TwoReport(now);
  }
}
