/**
 * The stepcompress object: a pending step that may still be rolled back, a queue of step
 * times in one direction, the commands emitted so far, and the history of positions.
 */
module StepQueue {
  import opened Words
  import opened StepCompression
  import opened StepHistory
  import opened StepRecord

  /** A message for the microcontroller. */
  datatype Message =
    | QueueStep(move: StepMove, minClock: nat, reqClock: nat)
    | SetNextStepDir(pin: int, reqClock: nat)

  /** A step that passed the rollback filter, with the level of the direction pin it needs. */
  datatype Request = Request(clock: nat, pin: int)

  // ---------------------------------------------------------------------------
  // What the microcontroller does with the messages
  // ---------------------------------------------------------------------------

  /** The microcontroller's 32-bit time of its last step, and its direction pin. */
  datatype Mcu = Mcu(clock32: nat, pin: int)

  datatype Pulse = Pulse(clock32: nat, pin: int)

  /** Pulses of the first n steps of a command. */
  function CommandPulses(mcu: Mcu, move: StepMove, n: nat): (p: seq<Pulse>)
    ensures |p| == n
  {
    if n == 0 then []
    else CommandPulses(mcu, move, n - 1) + [Pulse(U32(mcu.clock32 + Reach(move.interval, move.add, n)), mcu.pin)]
  }

  function McuAfter(start: Mcu, msgs: seq<Message>): Mcu {
    if msgs == [] then start else
      var mcu := McuAfter(start, msgs[..|msgs| - 1]);
      match msgs[|msgs| - 1]
      case QueueStep(m, _, _) => mcu.(clock32 := U32(mcu.clock32 + Reach(m.interval, m.add, m.count)))
      case SetNextStepDir(pin, _) => mcu.(pin := pin)
  }

  /** All pulses made by executing the messages in order. */
  function Replay(start: Mcu, msgs: seq<Message>): seq<Pulse> {
    if msgs == [] then [] else
      var init := msgs[..|msgs| - 1];
      match msgs[|msgs| - 1]
      case QueueStep(m, _, _) => Replay(start, init) + CommandPulses(McuAfter(start, init), m, m.count)
      case SetNextStepDir(_, _) => Replay(start, init)
  }

  lemma {:induction false} ReplayAppend(start: Mcu, msgs: seq<Message>, m: Message)
    ensures McuAfter(start, msgs + [m]) == var mcu := McuAfter(start, msgs);
              match m
              case QueueStep(m, _, _) => mcu.(clock32 := U32(mcu.clock32 + Reach(m.interval, m.add, m.count)))
              case SetNextStepDir(pin, _) => mcu.(pin := pin)
    ensures Replay(start, msgs + [m]) == Replay(start, msgs) +
              if m.QueueStep? then CommandPulses(McuAfter(start, msgs), m.move, m.move.count) else []
  {
    assert (msgs + [m])[..|msgs|] == msgs;
  }

  lemma {:induction false} CommandPulseAt(mcu: Mcu, move: StepMove, n: nat, k: nat)
    requires 1 <= k <= n
    ensures CommandPulses(mcu, move, n)[k - 1] == Pulse(U32(mcu.clock32 + Reach(move.interval, move.add, k)), mcu.pin)
  {
    if k < n { CommandPulseAt(mcu, move, n - 1, k); }
  }

  // ---------------------------------------------------------------------------
  // How close the pulses are to the requests
  // ---------------------------------------------------------------------------

  /** Never late, after the previous point, and early by at most the smaller of maxError and half the gap. */
  predicate Near(requested: nat, previous: nat, time: nat, maxError: nat) {
    previous < time <= requested && requested - time <= Min(maxError, (requested - previous) / 2)
  }

  /** Exact times of the pulses made so far, and the point each was measured from. */
  datatype Trace = Trace(base: nat, times: seq<nat>, previous: seq<nat>)

  function LastTime(t: Trace): nat {
    if t.times == [] then t.base else t.times[|t.times| - 1]
  }

  /** Pulse i is near request i, measured from the previous request or the previous pulse. */
  predicate PulseTracks(t: Trace, requests: seq<Request>, maxError: nat, i: nat)
    requires i < |t.times| == |t.previous| <= |requests|
  {
    && Near(requests[i].clock, t.previous[i], t.times[i], maxError)
    && (if i == 0 then t.previous[i] == t.base
        else t.previous[i] == t.times[i - 1] || t.previous[i] == requests[i - 1].clock)
  }

  ghost predicate Tracks(t: Trace, requests: seq<Request>, maxError: nat) {
    && |t.times| == |t.previous| <= |requests|
    && forall i :: 0 <= i < |t.times| ==> PulseTracks(t, requests, maxError, i)
  }

  /** The replayed pulses are the traced times in 32 bits, on the requested pin. */
  ghost predicate Realises(pulses: seq<Pulse>, t: Trace, requests: seq<Request>) {
    && |pulses| == |t.times| <= |requests|
    && forall i :: 0 <= i < |pulses| ==> pulses[i] == Pulse(U32(t.times[i]), requests[i].pin)
  }

  /** Pulse times strictly increase. */
  lemma {:induction false} TimesIncrease(t: Trace, requests: seq<Request>, maxError: nat, i: nat, j: nat)
    requires Tracks(t, requests, maxError) && i < j < |t.times|
    ensures t.base < t.times[i] < t.times[j]
    decreases j
  {
    assert PulseTracks(t, requests, maxError, j) && PulseTracks(t, requests, maxError, j - 1);
    if i < j - 1 {
      TimesIncrease(t, requests, maxError, i, j - 1);
    } else {
      AfterBase(t, requests, maxError, i);
    }
  }

  lemma {:induction false} AfterBase(t: Trace, requests: seq<Request>, maxError: nat, i: nat)
    requires Tracks(t, requests, maxError) && i < |t.times|
    ensures t.base < t.times[i]
  {
    assert PulseTracks(t, requests, maxError, i);
    if i > 0 {
      assert PulseTracks(t, requests, maxError, i - 1);
      AfterBase(t, requests, maxError, i - 1);
    }
  }

  // ---------------------------------------------------------------------------
  // One emitted command extends the trace
  // ---------------------------------------------------------------------------

  /** The point before clocks[i]. */
  function Before(last: nat, clocks: seq<nat>, i: nat): nat
    requires i <= |clocks|
  {
    if i == 0 then last else clocks[i - 1]
  }

  /** Clock i comes after the one before it, and near enough to the last step to be queued. */
  predicate ClockFits(last: nat, clocks: seq<nat>, i: nat)
    requires i < |clocks|
  {
    Before(last, clocks, i) < clocks[i] < last + CLOCK_DIFF_MAX
  }

  /** The queued clocks in full, whose low 32 bits the queue stores. */
  ghost predicate QueueHolds(last: nat, queue: seq<nat>, clocks: seq<nat>) {
    && |queue| == |clocks|
    && (forall i :: 0 <= i < |queue| ==> queue[i] == U32(clocks[i]))
    && (forall i: nat :: i < |clocks| ==> ClockFits(last, clocks, i))
  }

  lemma QueuePoint(v: View, clocks: seq<nat>, i: nat)
    requires QueueHolds(v.lastClock, v.queue, clocks) && i < |clocks|
    ensures v.lastClock < clocks[i] && Point(v, i) == clocks[i] - v.lastClock
  {
    AscendFrom(v.lastClock, v.queue, clocks, i);
    assert ClockFits(v.lastClock, clocks, i);
    U32Difference(clocks[i], v.lastClock);
  }

  lemma {:induction false} AscendFrom(last: nat, queue: seq<nat>, clocks: seq<nat>, i: nat)
    requires QueueHolds(last, queue, clocks) && i < |clocks|
    ensures last < clocks[i]
  {
    assert ClockFits(last, clocks, i);
    if i > 0 { AscendFrom(last, queue, clocks, i - 1); }
  }

  lemma PointOrdered(v: View, clocks: seq<nat>, i: nat)
    requires QueueHolds(v.lastClock, v.queue, clocks) && i < |v.queue|
    ensures OrderedAt(v, i)
  {
    assert ClockFits(v.lastClock, clocks, i);
    hide QueueHolds, Point;
    QueuePoint(v, clocks, i);
    if i > 0 { QueuePoint(v, clocks, i - 1); }
  }

  lemma QueueOrdered(v: View, clocks: seq<nat>)
    requires QueueHolds(v.lastClock, v.queue, clocks)
    ensures Ordered(v)
  {
    hide OrderedAt, QueueHolds;
    forall i: nat | i < |v.queue|
      ensures OrderedAt(v, i)
    {
      PointOrdered(v, clocks, i);
    }
  }

  /** A command that fits puts each of its pulses near the request it stands for. */
  lemma {:induction false} PulseNear(v: View, clocks: seq<nat>, m: StepMove, k: nat)
    requires QueueHolds(v.lastClock, v.queue, clocks) && 1 <= k <= m.count <= |clocks|
    requires Fits(v, m.interval, m.add, m.count)
    ensures Reach(m.interval, m.add, k) > 0
    ensures Near(clocks[k - 1], Before(v.lastClock, clocks, k - 1),
                 v.lastClock + Reach(m.interval, m.add, k), v.maxError)
  {
    QueueOrdered(v, clocks);
    assert InWindow(v, m.interval, m.add, k);
    WindowShape(v, k - 1);
    QueuePoint(v, clocks, k - 1);
    if k > 1 { QueuePoint(v, clocks, k - 2); }
  }

  /** From the n-th on, the requests are the queued clocks, all on one pin. */
  ghost predicate QueuedAre(requests: seq<Request>, n: nat, clocks: seq<nat>, pin: int) {
    && |requests| == n + |clocks|
    && forall i :: n <= i < |requests| ==> requests[i] == Request(clocks[i - n], pin)
  }

  /** Exact time of pulse k of a command whose first pulse is at first. */
  function TimeAt(first: nat, m: StepMove, k: nat): int {
    first - m.interval + Reach(m.interval, m.add, k)
  }

  /** The command's pulses are near the first clocks of the queue. */
  ghost predicate Covers(last: nat, first: nat, m: StepMove, clocks: seq<nat>, maxError: nat) {
    && 1 <= m.count <= |clocks|
    && forall k :: 1 <= k <= m.count ==>
         TimeAt(first, m, k) >= 0 && Near(clocks[k - 1], Before(last, clocks, k - 1), TimeAt(first, m, k), maxError)
  }

  /** The trace after a command: its pulse times, each measured from the queued point before it. */
  ghost function Extend(t: Trace, first: nat, m: StepMove, clocks: seq<nat>, maxError: nat): (t': Trace)
    requires Covers(LastTime(t), first, m, clocks, maxError)
  {
    Trace(t.base, t.times + NewTimes(first, m, m.count), t.previous + NewPrevious(LastTime(t), clocks, m.count))
  }

  ghost function NewTimes(first: nat, m: StepMove, n: nat): (s: seq<nat>)
    requires forall k :: 1 <= k <= n ==> TimeAt(first, m, k) >= 0
    ensures |s| == n && forall i :: 0 <= i < n ==> s[i] == TimeAt(first, m, i + 1)
  {
    if n == 0 then [] else NewTimes(first, m, n - 1) + [TimeAt(first, m, n)]
  }

  ghost function NewPrevious(last: nat, clocks: seq<nat>, n: nat): (s: seq<nat>)
    requires n <= |clocks|
    ensures |s| == n && forall i :: 0 <= i < n ==> s[i] == Before(last, clocks, i)
  {
    if n == 0 then [] else NewPrevious(last, clocks, n - 1) + [Before(last, clocks, n - 1)]
  }

  lemma NewPulseTracks(t: Trace, requests: seq<Request>, first: nat, m: StepMove, clocks: seq<nat>, pin: int,
                       maxError: nat, k: nat)
    requires |t.times| == |t.previous| && QueuedAre(requests, |t.times|, clocks, pin) && 1 <= k <= m.count
    requires Covers(LastTime(t), first, m, clocks, maxError)
    ensures PulseTracks(Extend(t, first, m, clocks, maxError), requests, maxError, |t.times| + k - 1)
  {
    var t', i := Extend(t, first, m, clocks, maxError), |t.times| + k - 1;
    assert t'.times[i] == TimeAt(first, m, k);
    assert t'.previous[i] == Before(LastTime(t), clocks, k - 1);
    assert requests[i].clock == clocks[k - 1];
    if k > 1 {
      assert requests[i - 1].clock == clocks[k - 2];
    } else if i > 0 {
      assert t'.times[i - 1] == t.times[i - 1];
    }
  }

  lemma ExtendTracks(t: Trace, requests: seq<Request>, first: nat, m: StepMove, clocks: seq<nat>, pin: int,
                     maxError: nat)
    requires Tracks(t, requests, maxError) && QueuedAre(requests, |t.times|, clocks, pin)
    requires Covers(LastTime(t), first, m, clocks, maxError)
    ensures Tracks(Extend(t, first, m, clocks, maxError), requests, maxError)
    ensures LastTime(Extend(t, first, m, clocks, maxError)) == TimeAt(first, m, m.count)
  {
    var t', n := Extend(t, first, m, clocks, maxError), |t.times|;
    forall i | 0 <= i < |t'.times|
      ensures PulseTracks(t', requests, maxError, i)
    {
      if i < n {
        assert PulseTracks(t, requests, maxError, i);
      } else {
        NewPulseTracks(t, requests, first, m, clocks, pin, maxError, i - n + 1);
      }
    }
  }

  /** Pulse k of the command, as the microcontroller makes it. */
  lemma {:induction false} NewPulse(mcu: Mcu, first: nat, m: StepMove, k: nat)
    requires 1 <= k <= m.count && U32(mcu.clock32 + m.interval) == U32(first)
    ensures CommandPulses(mcu, m, m.count)[k - 1] == Pulse(U32(TimeAt(first, m, k)), mcu.pin)
  {
    CommandPulseAt(mcu, m, m.count, k);
    var d := Reach(m.interval, m.add, k) - m.interval;
    U32Sum(mcu.clock32 + m.interval, d);
    U32Sum(first, d);
  }

  lemma {:induction false} ExtendRealises(pulses: seq<Pulse>, t: Trace, requests: seq<Request>, first: nat, m: StepMove,
                                          clocks: seq<nat>, mcu: Mcu, maxError: nat)
    requires Realises(pulses, t, requests) && QueuedAre(requests, |t.times|, clocks, mcu.pin)
    requires Covers(LastTime(t), first, m, clocks, maxError)
    requires U32(mcu.clock32 + m.interval) == U32(first)
    ensures Realises(pulses + CommandPulses(mcu, m, m.count), Extend(t, first, m, clocks, maxError), requests)
  {
    var n, added, times := |t.times|, CommandPulses(mcu, m, m.count), NewTimes(first, m, m.count);
    forall i | n <= i < n + m.count
      ensures added[i - n] == Pulse(U32(times[i - n]), requests[i].pin)
    {
      NewPulse(mcu, first, m, i - n + 1);
    }
  }

  /** What the code needs of a command it records: no 32-bit overflow, and rising pulses. */
  ghost predicate Playable(m: StepMove) {
    && 1 <= m.count <= MAX_COUNT && m.interval < TWO32 && InInt16(m.add)
    && 0 <= Reach(m.interval, m.add, m.count) - m.interval < TWO32
    && (m.count > 1 ==> Rising(m.interval, m.add, m.count) && Reach(m.interval, m.add, m.count) < TWO31)
    && (m.count > 1 ==> m.interval < TWO31)
  }

  /** A command that fits an ordered queue is playable. */
  lemma FitsPlayable(v: View, m: StepMove)
    requires Ordered(v) && 1 <= m.count <= Limit(v) && InInt16(m.add) && Fits(v, m.interval, m.add, m.count)
    ensures Playable(m)
  {
    assert Reach(m.interval, m.add, 1) == m.interval;
    FitsIntervals(v, m, 1);
    FitsIntervals(v, m, m.count);
    if m.count > 1 {
      forall k | 1 <= k < m.count
        ensures Interval(m.interval, m.add, k) > 0
      {
        FitsIntervals(v, m, k + 1);
      }
      ReachAbove(v, m, m.count);
    }
  }

  lemma {:induction false} ReachAbove(v: View, m: StepMove, k: nat)
    requires Ordered(v) && 1 <= k <= m.count <= |v.queue| && Fits(v, m.interval, m.add, m.count)
    ensures Reach(m.interval, m.add, k) >= m.interval
  {
    FitsIntervals(v, m, k);
    if k > 1 { ReachAbove(v, m, k - 1); } else { assert Reach(m.interval, m.add, 1) == m.interval; }
  }

  /** A command that fits the queue covers its first clocks. */
  lemma FitsCovers(v: View, clocks: seq<nat>, m: StepMove)
    requires QueueHolds(v.lastClock, v.queue, clocks) && 1 <= m.count <= |clocks|
    requires Fits(v, m.interval, m.add, m.count)
    ensures Covers(v.lastClock, v.lastClock + m.interval, m, clocks, v.maxError)
  {
    var first := v.lastClock + m.interval;
    forall k | 1 <= k <= m.count
      ensures TimeAt(first, m, k) >= 0
      ensures Near(clocks[k - 1], Before(v.lastClock, clocks, k - 1), TimeAt(first, m, k), v.maxError)
    {
      PulseNear(v, clocks, m, k);
    }
  }

  /** The history entry recorded for a command. */
  function Entry(first: nat, m: StepMove, sdir: int, position: int): HistorySteps
    requires m.interval < TWO32 && TimeAt(first, m, m.count) >= 0
  {
    HistorySteps(first, TimeAt(first, m, m.count), position, Signed(sdir, m.count), S32(m.interval), m.add)
  }

  /** The pulses a history entry is counted by are the command's exact pulse times. */
  lemma EntryPulses(first: nat, m: StepMove, sdir: int, position: int, k: nat)
    requires Playable(m) && 1 <= k <= m.count && TimeAt(first, m, m.count) >= 0
    ensures PulseClock(Entry(first, m, sdir, position), k) == TimeAt(first, m, k)
  {
    if k == 1 {
      assert Reach(m.interval, m.add, 1) == m.interval;
      assert Reach(S32(m.interval), m.add, 1) == S32(m.interval);
    }
  }

  lemma EntryWellFormed(first: nat, m: StepMove, sdir: int, position: int)
    requires Playable(m)
    ensures TimeAt(first, m, m.count) >= first && WellFormed(Entry(first, m, sdir, position))
  {
    var h := Entry(first, m, sdir, position);
    if m.count == 1 {
      assert Reach(m.interval, m.add, 1) == m.interval;
      assert Reach(h.interval, h.add, 1) == h.interval;
    }
  }

  function PinLevel(a: int, b: int): int {
    if a == b then 0 else 1
  }

  /** The level follows the direction, and inverting swaps the levels. */
  lemma PinFollowsDirection(dir: int, other: int, invert: int)
    requires dir in {0, 1} && other in {0, 1} && invert in {0, 1}
    ensures PinLevel(dir, 0) == dir && PinLevel(dir, 1) == 1 - dir
    ensures PinLevel(dir, invert) == PinLevel(other, invert) <==> dir == other
    ensures PinLevel(1 - dir, 1 - invert) == PinLevel(dir, invert)
  {
  }

  /** Messages are in the order of the clocks they are required by, none later than the last step. */
  ghost predicate InRequiredOrder(sent: seq<Message>, last: nat) {
    && (forall i :: 0 <= i < |sent| ==> sent[i].reqClock <= last)
    && (forall i :: 0 <= i < |sent| && sent[i].QueueStep? ==> sent[i].minClock <= sent[i].reqClock)
    && (forall i, j :: 0 <= i < j < |sent| ==> sent[i].reqClock <= sent[j].reqClock)
  }

  lemma RequiredNext(sent: seq<Message>, last: nat, message: Message, last': nat)
    requires InRequiredOrder(sent, last) && last <= message.reqClock <= last'
    requires message.QueueStep? ==> message.minClock <= message.reqClock
    ensures InRequiredOrder(sent + [message], last')
  {
  }

  ghost predicate NoMove(sent: seq<Message>) {
    forall i :: 0 <= i < |sent| ==> !sent[i].QueueStep?
  }

  /** A move's min clock is the last step before it: the start clock for the first move, and only for that one. */
  ghost predicate MinClockOk(sent: seq<Message>, i: nat, base: nat, last: nat)
    requires i < |sent|
  {
    sent[i].QueueStep? ==> base <= sent[i].minClock < last && (sent[i].minClock == base <==> NoMove(sent[..i]))
  }

  ghost predicate MinClocks(sent: seq<Message>, base: nat, last: nat) {
    base <= last && (last == base <==> NoMove(sent)) && forall i :: 0 <= i < |sent| ==> MinClockOk(sent, i, base, last)
  }

  lemma MinClocksNext(sent: seq<Message>, base: nat, last: nat, message: Message, last': nat)
    requires MinClocks(sent, base, last)
    requires if message.QueueStep? then message.minClock == last < last' else last == last'
    ensures MinClocks(sent + [message], base, last')
  {
    var more := sent + [message];
    forall i | 0 <= i < |more|
      ensures MinClockOk(more, i, base, last')
    {
      if i < |sent| {
        assert MinClockOk(sent, i, base, last) && more[..i] == sent[..i];
      } else {
        assert more[..i] == sent;
      }
    }
    assert more[|sent|] == message;
    assert NoMove(sent) && !message.QueueStep? ==> NoMove(more);
    assert NoMove(more) ==> forall i :: 0 <= i < |sent| ==> sent[i] == more[i];
  }

  /** Among the moves since a reset only the first can have min clock 0, and it has if the reset was to clock 0. */
  lemma OneWithoutSlot(sent: seq<Message>, base: nat, last: nat, i: nat)
    requires MinClocks(sent, base, last) && i < |sent| && sent[i].QueueStep?
    ensures sent[i].minClock == 0 <==> base == 0 && NoMove(sent[..i])
  {
    assert MinClockOk(sent, i, base, last);
  }

  /**
   * The messages sent since a start state replay to the traced pulses, near their requests,
   * and leave the microcontroller at the host's last step clock and direction.
   */
  ghost predicate OutputOk(start: Mcu, sent: seq<Message>, t: Trace, requests: seq<Request>, maxError: nat,
                           last: nat, sdir: int, pin: int) {
    && Tracks(t, requests, maxError)
    && Realises(Replay(start, sent), t, requests)
    && InRequiredOrder(sent, last) && MinClocks(sent, t.base, last)
    && LastTime(t) == last
    && McuAfter(start, sent).clock32 == U32(last)
    && (sdir >= 0 ==> McuAfter(start, sent).pin == pin)
  }

  /** Every pulse of a covering command comes after the last step. */
  lemma {:induction false} CoversAdvance(last: nat, first: nat, m: StepMove, clocks: seq<nat>, maxError: nat, k: nat)
    requires Covers(last, first, m, clocks, maxError) && 1 <= k <= m.count
    ensures last < TimeAt(first, m, k)
  {
    hide TimeAt;
    assert Near(clocks[k - 1], Before(last, clocks, k - 1), TimeAt(first, m, k), maxError);
    if k > 1 {
      CoversAdvance(last, first, m, clocks, maxError, k - 1);
      assert Near(clocks[k - 2], Before(last, clocks, k - 2), TimeAt(first, m, k - 1), maxError);
    }
  }

  /** Sending a command that covers the next requests keeps the output in step. */
  lemma SendMove(start: Mcu, sent: seq<Message>, t: Trace, requests: seq<Request>, maxError: nat,
                 last: nat, sdir: int, pin: int, first: nat, m: StepMove, points: seq<nat>, message: Message)
    requires OutputOk(start, sent, t, requests, maxError, last, sdir, pin) && sdir >= 0
    requires QueuedAre(requests, |t.times|, points, pin) && Covers(last, first, m, points, maxError)
    requires U32(last + m.interval) == U32(first) && message.QueueStep? && message.move == m
    requires message.minClock == last <= message.reqClock <= TimeAt(first, m, m.count)
    ensures TimeAt(first, m, m.count) >= 0
    ensures OutputOk(start, sent + [message], Extend(t, first, m, points, maxError), requests, maxError,
                     TimeAt(first, m, m.count), sdir, pin)
  {
    var mcu := McuAfter(start, sent);
    U32Sum(last, m.interval);
    ExtendTracks(t, requests, first, m, points, pin, maxError);
    ExtendRealises(Replay(start, sent), t, requests, first, m, points, mcu, maxError);
    ReplayAppend(start, sent, message);
    RequiredNext(sent, last, message, TimeAt(first, m, m.count));
    CoversAdvance(last, first, m, points, maxError, m.count);
    MinClocksNext(sent, t.base, last, message, TimeAt(first, m, m.count));
    ClockAfter(last, first, m);
  }

  /** Times with the pulses of a command added. */
  ghost predicate PulsesAdded(earlier: seq<nat>, times: seq<nat>, first: nat, m: StepMove) {
    && earlier <= times && |times| == |earlier| + m.count
    && forall i :: |earlier| <= i < |times| ==> times[i] == TimeAt(first, m, i - |earlier| + 1)
  }

  lemma AddedMore(earlier: seq<nat>, times: seq<nat>, first: nat, m: StepMove)
    requires PulsesAdded(earlier, times, first, m)
    ensures |times| == |earlier| + m.count
  {
  }

  function Repeat(sign: int, n: nat): (s: seq<int>)
    ensures |s| == n && forall k :: 0 <= k < n ==> s[k] == sign
  {
    if n == 0 then [] else Repeat(sign, n - 1) + [sign]
  }

  /** The history is over by a clock. */
  predicate EndsBy(history: seq<HistorySteps>, clock: nat) {
    history == [] || history[0].lastClock <= clock
  }

  /** The history is a record of the last of some pulse times. */
  ghost predicate RecordsWith(history: seq<HistorySteps>, position: int, since: nat, startPosition: int,
                              times: seq<nat>, signs: seq<int>) {
    |signs| <= |times| && RecordOk(Record(history, position, since, startPosition, times[|times| - |signs|..], signs))
  }

  /** The entry of a command holds exactly its pulses. */
  lemma EntryHoldsPulses(first: nat, m: StepMove, sdir: int, position: int, times: seq<nat>)
    requires Playable(m) && |times| == m.count && TimeAt(first, m, m.count) >= 0
    requires forall k :: 0 <= k < m.count ==> times[k] == TimeAt(first, m, k + 1)
    ensures FirstPulses(Entry(first, m, sdir, position), m.count, times, Repeat(Signed(sdir, 1), m.count))
  {
    var h := Entry(first, m, sdir, position);
    hide PulseClock, TimeAt;
    forall k | 0 <= k < m.count
      ensures times[k] == PulseClock(h, k + 1)
    {
      EntryPulses(first, m, sdir, position, k + 1);
    }
  }

  lemma RecordTail(r: Record, h: HistorySteps, earlier: seq<nat>, times: seq<nat>, more: seq<int>)
    requires RecordOk(r) && WellFormed(h) && h.stepCount != 0 && h.startPosition == r.position
    requires EndsBy(r.history, h.firstClock) && earlier <= times && |r.signs| <= |earlier|
    requires r.times == earlier[|earlier| - |r.signs|..]
    requires FirstPulses(h, Abs(h.stepCount), times[|earlier|..], more)
    ensures RecordsWith([h] + r.history, r.position + h.stepCount, r.since + 1, r.startPosition, times, r.signs + more)
  {
    var added := times[|earlier|..];
    assert |added| == |more|;
    hide WellFormed, FirstPulses, RecordOk;
    RecordNext(r, h, added, more);
    LastOf(earlier, times, |r.signs|, |more|);
  }

  lemma LastOf(earlier: seq<nat>, times: seq<nat>, a: nat, b: nat)
    requires earlier <= times && |times| == |earlier| + b && a <= |earlier|
    ensures times[|times| - (a + b)..] == earlier[|earlier| - a..] + times[|earlier|..]
  {
  }

  /** Recording a command keeps the history a record of the pulses traced. */
  lemma RecordPulses(history: seq<HistorySteps>, position: int, since: nat, startPosition: int, earlier: seq<nat>,
                     signs: seq<int>, times: seq<nat>, first: nat, m: StepMove, sdir: int)
    requires RecordsWith(history, position, since, startPosition, earlier, signs) && EndsBy(history, first)
    requires Playable(m) && PulsesAdded(earlier, times, first, m)
    ensures TimeAt(first, m, m.count) >= first
    ensures RecordsWith([Entry(first, m, sdir, position)] + history, position + Signed(sdir, m.count), since + 1,
                        startPosition, times, signs + Repeat(Signed(sdir, 1), m.count))
  {
    hide Playable, PulsesAdded, WellFormed, FirstPulses, RecordOk, TimeAt, Recorded, Chained;
    EntryEnds(first, m, sdir, position);
    EntryWellFormed(first, m, sdir, position);
    AddedHolds(earlier, times, first, m, sdir, position);
    var h, more := Entry(first, m, sdir, position), Repeat(Signed(sdir, 1), m.count);
    var r := Record(history, position, since, startPosition, earlier[|earlier| - |signs|..], signs);
    RecordTail(r, h, earlier, times, more);
  }

  lemma AddedHolds(earlier: seq<nat>, times: seq<nat>, first: nat, m: StepMove, sdir: int, position: int)
    requires Playable(m) && PulsesAdded(earlier, times, first, m) && TimeAt(first, m, m.count) >= 0
    ensures earlier <= times
    ensures var h := Entry(first, m, sdir, position);
            && h.stepCount == Signed(sdir, m.count) != 0 && h.firstClock == first && h.startPosition == position
            && FirstPulses(h, Abs(h.stepCount), times[|earlier|..], Repeat(Signed(sdir, 1), m.count))
  {
    EntryHoldsPulses(first, m, sdir, position, times[|earlier|..]);
    hide FirstPulses, TimeAt;
  }

  lemma RestartRecord(history: seq<HistorySteps>, position: int, since: nat, startPosition: int,
                      times: seq<nat>, signs: seq<int>)
    ensures RecordsWith(history, position, since, startPosition, times, signs) ==>
            RecordsWith(history, position, 0, position, times, [])
  {
    if RecordsWith(history, position, since, startPosition, times, signs) {
      RecordRestart(Record(history, position, since, startPosition, times[|times| - |signs|..], signs));
      assert times[|times|..] == [];
    }
  }

  lemma NoPulsesNeeded(history: seq<HistorySteps>, position: int, since: nat, startPosition: int,
                       times: seq<nat>, times': seq<nat>)
    ensures RecordsWith(history, position, since, startPosition, times, []) ==>
            RecordsWith(history, position, since, startPosition, times', [])
  {
    assert times[|times|..] == [] == times'[|times'|..];
  }

  lemma MarkRecord(history: seq<HistorySteps>, position: int, since: nat, startPosition: int,
                   times: seq<nat>, signs: seq<int>, clock: nat, declared: int)
    ensures RecordsWith(history, position, since, startPosition, times, signs) ==>
            RecordsWith([HistorySteps(clock, clock, declared, 0, 0, 0)] + history, declared, 0, declared, times, [])
  {
    if RecordsWith(history, position, since, startPosition, times, signs) {
      RecordMarker(Record(history, position, since, startPosition, times[|times| - |signs|..], signs), clock, declared);
      assert times[|times|..] == [];
    }
  }

  /** A lookup from the end of the older entries on counts the pulses traced since. */
  lemma {:induction false} RecordTells(history: seq<HistorySteps>, position: int, since: nat, startPosition: int,
                                       times: seq<nat>, signs: seq<int>, clock: int)
    requires RecordsWith(history, position, since, startPosition, times, signs)
    requires since < |history| ==> history[since].lastClock <= clock
    ensures |signs| <= |times|
    ensures Lookup(history, position, clock) == startPosition + SignedCount(times[|times| - |signs|..], signs, clock)
  {
    RecordAnswers(Record(history, position, since, startPosition, times[|times| - |signs|..], signs), clock);
  }

  lemma RecordChained(history: seq<HistorySteps>, position: int, since: nat, startPosition: int,
                      times: seq<nat>, signs: seq<int>)
    requires RecordsWith(history, position, since, startPosition, times, signs)
    ensures Chained(history)
  {
  }

  /** A marker answers from its clock on; before it, the older entries do. */
  lemma {:induction false} MarkerAnswers(history: seq<HistorySteps>, clock: int)
    requires Chained(history) && history != [] && history[0].stepCount == 0
    ensures clock >= history[0].firstClock ==> PositionAt(history, clock) == history[0].startPosition
    ensures clock < history[0].firstClock && |history| > 1 ==>
            PositionAt(history, clock) == PositionAt(history[1..], clock)
  {
    if clock >= history[0].firstClock { InNewest(history, clock); } else { BeforeNewest(history, clock); }
  }

  lemma EntryEnds(first: nat, m: StepMove, sdir: int, position: int)
    requires Playable(m)
    ensures m.interval < TWO32 && TimeAt(first, m, m.count) >= first
  {
    EntryWellFormed(first, m, sdir, position);
  }

  /** The first pulse of a command for the front of the queue comes after the end of the history. */
  lemma FirstAhead(v: View, clocks: seq<nat>, m: StepMove, history: seq<HistorySteps>, pending: nat)
    requires QueueHolds(v.lastClock, v.queue, clocks) && 1 <= m.count <= |clocks|
    requires Fits(v, m.interval, m.add, m.count)
    ensures Ahead(history, v.lastClock, clocks, v.maxError, pending) ==> EndsBy(history, v.lastClock + m.interval)
  {
    PulseNear(v, clocks, m, 1);
    assert Reach(m.interval, m.add, 1) == m.interval;
    assert Before(v.lastClock, clocks, 0) == v.lastClock;
  }

  lemma FarAhead(history: seq<HistorySteps>, last: nat, maxError: nat, c: nat)
    requires last < c
    ensures Ahead(history, last, [], maxError, c) ==> EndsBy(history, c)
  {
  }

  lemma CaughtIsAhead(history: seq<HistorySteps>, last: nat, clocks: seq<nat>, maxError: nat, pending: nat)
    ensures history != [] && history[0].lastClock == last ==> Ahead(history, last, clocks, maxError, pending)
  {
  }

  lemma NothingAhead(history: seq<HistorySteps>, last: nat, maxError: nat)
    ensures Ahead(history, last, [], maxError, 0)
  {
  }

  lemma JoinAhead(history: seq<HistorySteps>, last: nat, clocks: seq<nat>, maxError: nat, c: nat)
    ensures Ahead(history, last, clocks, maxError, c) ==> Ahead(history, last, clocks + [c], maxError, 0)
  {
  }

  lemma DropPendingAhead(history: seq<HistorySteps>, last: nat, clocks: seq<nat>, maxError: nat, pending: nat)
    ensures Ahead(history, last, clocks, maxError, pending) ==> Ahead(history, last, clocks, maxError, 0)
  {
  }

  /** With something queued, or the last step at the end of the history, a further step changes nothing. */
  lemma PendingAhead(history: seq<HistorySteps>, last: nat, clocks: seq<nat>, maxError: nat, pending: nat)
    requires clocks != [] || (history != [] && history[0].lastClock == last)
    ensures Ahead(history, last, clocks, maxError, 0) ==> Ahead(history, last, clocks, maxError, pending)
  {
  }

  lemma EntryGrows(history: seq<HistorySteps>, first: nat, m: StepMove, sdir: int, position: int)
    requires Playable(m) && TimeAt(first, m, m.count) >= 0
    ensures Grown(history, [Entry(first, m, sdir, position)] + history)
  {
    NotGrown(history);
    GrownBy(history, history, Entry(first, m, sdir, position));
  }

  /** Expiry keeps the record of what is left; if it reaches no counted entry, of the same pulses. */
  lemma ExpireTail(history: seq<HistorySteps>, position: int, since: nat, startPosition: int,
                   times: seq<nat>, signs: seq<int>, kept: seq<HistorySteps>) returns (since': nat, m: nat)
    requires RecordsWith(history, position, since, startPosition, times, signs) && kept <= history
    ensures since' == Min(since, |kept|) && m <= |signs|
    ensures RecordsWith(kept, position, since', StartOf(kept, position, since'), times, signs[m..])
    ensures |kept| >= since ==> signs[m..] == signs && StartOf(kept, position, since') == startPosition
  {
    var r := Record(history, position, since, startPosition, times[|times| - |signs|..], signs);
    since', m := RecordExpire(r, |kept|);
    assert kept == history[..|kept|];
    assert r.times[m..] == times[|times| - |signs[m..]|..];
  }

  /** The end of the history stays where it is, or nothing is left of it. */
  lemma KeptAhead(history: seq<HistorySteps>, kept: seq<HistorySteps>, last: nat, clocks: seq<nat>, maxError: nat,
                  pending: nat)
    requires kept <= history
    ensures Ahead(history, last, clocks, maxError, pending) ==> Ahead(kept, last, clocks, maxError, pending)
  {
  }

  /** Ticks from the first pulse of a command to its last, as the code computes them. */
  function Ticks(m: StepMove): nat {
    U32(m.add * Tri(m.count) + m.interval * (m.count - 1))
  }

  /** Those ticks reach the last pulse of the replayed command. */
  lemma TicksExact(m: StepMove)
    requires Playable(m)
    ensures Ticks(m) == Reach(m.interval, m.add, m.count) - m.interval
  {
    ReachClosed(m.interval, m.add, m.count);
    TicksForm(m.add * Tri(m.count), m.interval, m.count, Reach(m.interval, m.add, m.count));
  }

  lemma TicksForm(bumps: int, interval: int, count: nat, reach: int)
    requires reach == bumps + interval * count && 0 <= reach - interval < 0x1_0000_0000
    ensures U32(bumps + interval * (count - 1)) == reach - interval
  {
    assert bumps + interval * (count - 1) == reach - interval;
    U32Identity(reach - interval);
  }

  lemma ClockAfter(last: nat, first: nat, m: StepMove)
    requires U32(last + m.interval) == U32(first)
    ensures U32(U32(last) + Reach(m.interval, m.add, m.count)) == U32(TimeAt(first, m, m.count))
  {
    var d := Reach(m.interval, m.add, m.count) - m.interval;
    U32Sum(last, m.interval + d);
    U32Sum(last + m.interval, d);
    U32Sum(first, d);
  }

  /** Dropping queued clocks up to a step at or before the last one dropped. */
  lemma DropFront(last: nat, last': nat, queue: seq<nat>, clocks: seq<nat>, n: nat)
    requires QueueHolds(last, queue, clocks) && 1 <= n <= |clocks| && last < last' <= clocks[n - 1]
    ensures QueueHolds(last', queue[n..], clocks[n..])
    ensures Before(last', clocks[n..], |clocks| - n) <= Before(last, clocks, |clocks|)
  {
    var rest := clocks[n..];
    forall i: nat | i < |rest|
      ensures ClockFits(last', rest, i)
    {
      var j := n + i;
      assert rest[i] == clocks[j] && ClockFits(last, clocks, j);
      assert Before(last', rest, i) <= Before(last, clocks, j);
    }
    assert QueueHolds(last', queue[n..], rest);
  }

  /** Dropping the clocks a fitting command covers leaves a queue that still holds. */
  lemma DropCovered(v: View, clocks: seq<nat>, m: StepMove)
    requires QueueHolds(v.lastClock, v.queue, clocks) && 1 <= m.count <= |clocks|
    requires Fits(v, m.interval, m.add, m.count)
    ensures var last := TimeAt(v.lastClock + m.interval, m, m.count);
            v.lastClock < last <= clocks[m.count - 1] && QueueHolds(last, v.queue[m.count..], clocks[m.count..]) &&
            Before(last, clocks[m.count..], |clocks| - m.count) <= Before(v.lastClock, clocks, |clocks|)
  {
    PulseNear(v, clocks, m, m.count);
    QueueOrdered(v, clocks);
    FitsIntervals(v, m, m.count);
    hide QueueHolds, Fits;
    DropFront(v.lastClock, TimeAt(v.lastClock + m.interval, m, m.count), v.queue, clocks, m.count);
  }

  lemma DropQueued(requests: seq<Request>, n: nat, clocks: seq<nat>, pin: int, count: nat)
    requires QueuedAre(requests, n, clocks, pin) && count <= |clocks|
    ensures QueuedAre(requests, n + count, clocks[count..], pin)
  {
  }

  /** Sending a direction puts the pin at it and makes no pulse. */
  lemma SendDir(start: Mcu, sent: seq<Message>, t: Trace, requests: seq<Request>, maxError: nat,
                last: nat, sdir: int, pin: int, sdir': int, message: Message)
    requires OutputOk(start, sent, t, requests, maxError, last, sdir, pin)
    requires message.SetNextStepDir? && message.reqClock == last
    ensures OutputOk(start, sent + [message], t, requests, maxError, last, sdir', message.pin)
  {
    ReplayAppend(start, sent, message);
    RequiredNext(sent, last, message, last);
    MinClocksNext(sent, t.base, last, message, last);
    assert Replay(start, sent + [message]) == Replay(start, sent);
  }

  /** A further request changes nothing about the pulses already made. */
  lemma MoreRequests(start: Mcu, sent: seq<Message>, t: Trace, requests: seq<Request>, maxError: nat,
                     last: nat, sdir: int, pin: int, r: Request)
    requires OutputOk(start, sent, t, requests, maxError, last, sdir, pin)
    ensures OutputOk(start, sent, t, requests + [r], maxError, last, sdir, pin)
  {
    var more := requests + [r];
    forall i | 0 <= i < |t.times|
      ensures PulseTracks(t, more, maxError, i)
    {
      assert PulseTracks(t, requests, maxError, i);
    }
  }

  /** A later clock, close enough to the last step, may join the queue. */
  lemma JoinQueue(last: nat, queue: seq<nat>, clocks: seq<nat>, c: nat)
    requires QueueHolds(last, queue, clocks)
    requires Before(last, clocks, |clocks|) < c < last + CLOCK_DIFF_MAX
    ensures QueueHolds(last, queue + [U32(c)], clocks + [c])
  {
    var more := clocks + [c];
    forall i: nat | i < |more|
      ensures ClockFits(last, more, i)
    {
      if i < |clocks| { assert ClockFits(last, clocks, i) && Before(last, clocks, i) == Before(last, more, i); }
    }
  }

  /** A far step is one command of one pulse, exactly at the requested clock. */
  lemma FarCovers(last: nat, c: nat, maxError: nat)
    requires last < c
    ensures var m := StepMove(U32(c - last), 1, 0);
            && Playable(m) && Covers(last, c, m, [c], maxError) && U32(last + m.interval) == U32(c)
            && TimeAt(c, m, 1) == c && Starts(last, c, m)
  {
    var m := StepMove(U32(c - last), 1, 0);
    assert Reach(m.interval, 0, 1) == m.interval;
    U32Sum(c - last, last);
  }

  /**
   * What a valid object promises: the messages replay to one pulse per request already
   * emitted, on its pin, at 32 bits of a time near the request; those times strictly increase.
   */
  lemma {:induction false} ReplayMeetsRequests(start: Mcu, sent: seq<Message>, t: Trace, requests: seq<Request>,
                                               maxError: nat, last: nat, sdir: int, pin: int, clocks: seq<nat>)
    requires OutputOk(start, sent, t, requests, maxError, last, sdir, pin)
    requires QueuedAre(requests, |t.times|, clocks, pin)
    ensures var pulses := Replay(start, sent);
            && |pulses| + |clocks| == |requests| && |t.previous| == |t.times| == |pulses|
            && (forall i :: 0 <= i < |pulses| ==>
                  && pulses[i] == Pulse(U32(t.times[i]), requests[i].pin)
                  && t.previous[i] < t.times[i] <= requests[i].clock
                  && requests[i].clock - t.times[i] <= Min(maxError, (requests[i].clock - t.previous[i]) / 2))
            && (forall i :: 0 <= i < |pulses| ==>
                  if i == 0 then t.previous[i] == t.base
                  else t.previous[i] == t.times[i - 1] || t.previous[i] == requests[i - 1].clock)
            && (forall i, j :: 0 <= i < j < |pulses| ==> t.times[i] < t.times[j])
    ensures InRequiredOrder(sent, last) && MinClocks(sent, t.base, last)
  {
    forall i | 0 <= i < |t.times|
      ensures Near(requests[i].clock, t.previous[i], t.times[i], maxError)
      ensures if i == 0 then t.previous[i] == t.base
              else t.previous[i] == t.times[i - 1] || t.previous[i] == requests[i - 1].clock
    {
      assert PulseTracks(t, requests, maxError, i);
    }
    forall i, j | 0 <= i < j < |t.times|
      ensures t.times[i] < t.times[j]
    {
      TimesIncrease(t, requests, maxError, i, j);
    }
  }

  // ---------------------------------------------------------------------------
  // The object
  // ---------------------------------------------------------------------------

  /** One step in a direction, as a change of position. */
  function Signed(sdir: int, n: nat): int {
    var steps: int := n;
    if sdir != 0 then steps else -steps
  }

  /** The queue_step message of a command: it may go out from the last step on, and a far one is not urgent. */
  function MoveMessage(last: nat, first: nat, m: StepMove): Message {
    QueueStep(m, last, if m.count == 1 && first >= last + CLOCK_DIFF_MAX then first else last)
  }

  lemma NoneAfter(msgs: seq<Message>)
    ensures msgs[|msgs|..] == []
  {
  }

  /** The fields of a message fit the words the microcontroller reads them from. */
  predicate Sendable(m: Message) {
    match m
    case QueueStep(move, _, _) => move.interval < TWO32 && move.count <= MAX_COUNT && InInt16(move.add)
    case SetNextStepDir(pin, _) => pin in {0, 1}
  }

  ghost predicate AllSendable(msgs: seq<Message>) {
    forall k :: 0 <= k < |msgs| ==> Sendable(msgs[k])
  }

  lemma SuffixAppend(msgs: seq<Message>, from: nat, message: Message)
    requires from <= |msgs|
    ensures (msgs + [message])[from..] == msgs[from..] + [message]
  {
  }

  lemma CommandSendable(msgs: seq<Message>, last: nat, first: nat, m: StepMove)
    requires AllSendable(msgs) && Playable(m)
    ensures AllSendable(msgs + [MoveMessage(last, first, m)])
  {
  }

  /** The time of the first pulse of a command, as the clocks of its message tell it. */
  function FirstPulse(m: Message): nat
    requires m.QueueStep?
  {
    if m.reqClock > m.minClock then m.reqClock else m.minClock + m.move.interval
  }

  /** A command may go out from the pulse before it, and is due then, or if it is a far step of its own at that step. */
  ghost predicate Clocked(start: Mcu, sent: seq<Message>, t: Trace, i: nat)
    requires i < |sent|
  {
    sent[i].QueueStep? ==>
      var n, m := |Replay(start, sent[..i])|, sent[i];
      && n < |t.times| && FirstPulse(m) == t.times[n]
      && m.minClock == (if n == 0 then t.base else t.times[n - 1])
      && (m.reqClock > m.minClock <==> m.move.count == 1 && t.times[n] >= m.minClock + CLOCK_DIFF_MAX)
  }

  ghost predicate AllClocked(start: Mcu, sent: seq<Message>, t: Trace) {
    forall i :: 0 <= i < |sent| ==> Clocked(start, sent, t, i)
  }

  lemma ClockedStays(start: Mcu, sent: seq<Message>, t: Trace, message: Message, t': Trace)
    requires AllClocked(start, sent, t) && t.base == t'.base && t.times <= t'.times
    ensures forall i :: 0 <= i < |sent| ==> Clocked(start, sent + [message], t', i)
  {
    hide Replay, FirstPulse;
    forall i | 0 <= i < |sent|
      ensures Clocked(start, sent + [message], t', i)
    {
      assert Clocked(start, sent, t, i) && (sent + [message])[..i] == sent[..i];
    }
  }

  /** A command starts where its interval says, or is a far step of its own. */
  predicate Starts(last: nat, first: nat, m: StepMove) {
    first == last + m.interval || (m.count == 1 && first >= last + CLOCK_DIFF_MAX)
  }

  lemma ClockedMove(start: Mcu, sent: seq<Message>, t: Trace, requests: seq<Request>, maxError: nat, last: nat,
                    sdir: int, pin: int, first: nat, m: StepMove, points: seq<nat>)
    requires OutputOk(start, sent, t, requests, maxError, last, sdir, pin) && AllClocked(start, sent, t)
    requires Playable(m) && Starts(last, first, m) && LastTime(t) == last && Covers(last, first, m, points, maxError)
    requires PulsesAdded(t.times, Extend(t, first, m, points, maxError).times, first, m)
    ensures AllClocked(start, sent + [MoveMessage(last, first, m)], Extend(t, first, m, points, maxError))
  {
    var t' := Extend(t, first, m, points, maxError);
    assert Reach(m.interval, m.add, 1) == m.interval;
    assert |Replay(start, sent)| == |t.times| && t'.times[|t.times|] == first;
    hide OutputOk, Replay, PulsesAdded, Covers, Extend, Playable, TimeAt;
    assert t.base == t'.base by { ExtendBase(t, first, m, points, maxError); }
    var message := MoveMessage(last, first, m);
    ClockedStays(start, sent, t, message, t');
    assert (sent + [message])[..|sent|] == sent;
  }

  /** Of every command sent: it may go out from the pulse before it, and is due then, or at its pulse if it is far. */
  lemma {:induction false} DueAtPulse(start: Mcu, sent: seq<Message>, t: Trace, last: nat, i: nat)
    requires AllClocked(start, sent, t) && InRequiredOrder(sent, last) && i < |sent| && sent[i].QueueStep?
    ensures var n, m := |Replay(start, sent[..i])|, sent[i];
            n < |t.times| &&
            var before := if n == 0 then t.base else t.times[n - 1];
            && m.minClock == before
            && m.reqClock == if m.move.count == 1 && t.times[n] >= before + CLOCK_DIFF_MAX then t.times[n] else before
  {
    hide Replay;
    assert Clocked(start, sent, t, i);
  }

  lemma ExtendBase(t: Trace, first: nat, m: StepMove, points: seq<nat>, maxError: nat)
    requires Covers(LastTime(t), first, m, points, maxError)
    ensures Extend(t, first, m, points, maxError).base == t.base
  {
  }

  lemma ClockedDir(start: Mcu, sent: seq<Message>, t: Trace, message: Message)
    requires AllClocked(start, sent, t) && !message.QueueStep?
    ensures AllClocked(start, sent + [message], t)
  {
    hide Replay;
    ClockedStays(start, sent, t, message, t);
  }

  /** Sending the message of a playable command, as the code forms it. */
  lemma SendMoveMessage(start: Mcu, sent: seq<Message>, t: Trace, requests: seq<Request>, maxError: nat,
                        last: nat, sdir: int, pin: int, first: nat, m: StepMove, points: seq<nat>)
    requires OutputOk(start, sent, t, requests, maxError, last, sdir, pin) && sdir >= 0 && Playable(m)
    requires QueuedAre(requests, |t.times|, points, pin) && Covers(last, first, m, points, maxError)
    requires last <= first && U32(last + m.interval) == U32(first)
    ensures LastTime(t) == last && first + Ticks(m) == TimeAt(first, m, m.count)
    ensures OutputOk(start, sent + [MoveMessage(last, first, m)], Extend(t, first, m, points, maxError), requests,
                     maxError, TimeAt(first, m, m.count), sdir, pin)
    ensures PulsesAdded(t.times, Extend(t, first, m, points, maxError).times, first, m)
  {
    TicksExact(m);
    assert LastTime(t) == last && m.count <= |points|;
    hide OutputOk, Covers, QueuedAre, Ticks;
    SendMove(start, sent, t, requests, maxError, last, sdir, pin, first, m, points, MoveMessage(last, first, m));
  }

  /** Only step commands were added, each starting from a step before moveClock. */
  ghost predicate StepsBefore(earlier: seq<Message>, msgs: seq<Message>, moveClock: nat) {
    earlier <= msgs && forall i :: |earlier| <= i < |msgs| ==> msgs[i].QueueStep? && msgs[i].minClock < moveClock
  }

  /** The last of some steps are left. */
  ghost predicate StillWaiting(all: seq<nat>, left: seq<nat>) {
    |left| <= |all| && left == all[|all| - |left|..]
  }

  lemma StillWaitingAgain(all: seq<nat>, some: seq<nat>, left: seq<nat>)
    requires StillWaiting(all, some) && StillWaiting(some, left)
    ensures StillWaiting(all, left)
  {
  }

  /** The clock of a queued step, from its low bits. */
  lemma QueuedClock(last: nat, queue: seq<nat>, clocks: seq<nat>, i: nat)
    requires QueueHolds(last, queue, clocks) && i < |queue|
    ensures |clocks| == |queue| && last + U32(queue[i] - last) == clocks[i]
  {
    assert ClockFits(last, clocks, i);
    AscendFrom(last, queue, clocks, i);
    U32Difference(clocks[i], last);
  }

  /** Once the last step reaches a queued one, only those after it are left. */
  lemma LaterLeft(before: nat, all: seq<nat>, clocks: seq<nat>, last: nat, queue: seq<nat>, left: seq<nat>, i: nat)
    requires QueueHolds(before, all, clocks) && QueueHolds(last, queue, left) && StillWaiting(clocks, left)
    requires i < |clocks| && (queue == [] || last >= clocks[i])
    ensures |queue| == |left| < |clocks| - i
  {
    if |left| >= |clocks| - i {
      AscendFrom(last, queue, left, i - (|clocks| - |left|));
    }
  }

  lemma NoSteps(msgs: seq<Message>, moveClock: nat)
    ensures StepsBefore(msgs, msgs, moveClock)
  {
  }

  lemma OneMoreStep(earlier: seq<Message>, before: seq<Message>, msgs: seq<Message>, moveClock: nat)
    requires StepsBefore(earlier, before, moveClock) && before < msgs && |msgs| == |before| + 1
    requires var message := msgs[|msgs| - 1]; message.QueueStep? && message.minClock < moveClock
    ensures StepsBefore(earlier, msgs, moveClock)
  {
  }

  lemma QueueBeyond(last: nat, queue: seq<nat>, clocks: seq<nat>)
    requires QueueHolds(last, queue, clocks)
    ensures if queue == [] then clocks == [] else last < Before(last, clocks, |clocks|)
  {
    if queue != [] { AscendFrom(last, queue, clocks, |clocks| - 1); }
  }

  lemma SignedSplit(sdir: int, a: nat, b: nat)
    ensures Signed(sdir, a + b) == Signed(sdir, a) + Signed(sdir, b)
  {
  }

  /** A command that fits the front of the queue can be emitted, and the rest of the queue still holds. */
  lemma FrontCommand(v: View, clocks: seq<nat>, m: StepMove, requests: seq<Request>, n: nat, pin: int)
    requires QueueHolds(v.lastClock, v.queue, clocks) && QueuedAre(requests, n, clocks, pin)
    requires 1 <= m.count <= Limit(v) && InInt16(m.add) && Fits(v, m.interval, m.add, m.count)
    ensures |clocks| == |v.queue| && Playable(m) && Covers(v.lastClock, v.lastClock + m.interval, m, clocks, v.maxError)
    ensures QueuedAre(requests, n + m.count, clocks[m.count..], pin)
    ensures var last := TimeAt(v.lastClock + m.interval, m, m.count);
            v.lastClock < last && QueueHolds(last, v.queue[m.count..], clocks[m.count..]) &&
            Before(last, clocks[m.count..], |clocks| - m.count) <= Before(v.lastClock, clocks, |clocks|)
  {
    QueueOrdered(v, clocks);
    FitsPlayable(v, m);
    FitsCovers(v, clocks, m);
    DropCovered(v, clocks, m);
    DropQueued(requests, n, clocks, pin, m.count);
  }

  /** A request added to none that are queued, before and after it is emitted. */
  lemma OneQueued(requests: seq<Request>, n: nat, clocks: seq<nat>, pin: int, r: Request)
    requires QueuedAre(requests, n, clocks, pin) && clocks == [] && r.pin == pin
    ensures QueuedAre(requests + [r], n, [r.clock], pin) && QueuedAre(requests + [r], n + 1, [], pin)
  {
  }

  /** Nothing sent since a start at a clock. */
  lemma FreshOutput(clock: nat, maxError: nat, pin: int)
    ensures OutputOk(Mcu(U32(clock), 0), [], Trace(clock, [], []), [], maxError, clock, -1, pin)
    ensures AllClocked(Mcu(U32(clock), 0), [], Trace(clock, [], []))
    ensures QueueHolds(clock, [], []) && QueuedAre([], 0, [], pin)
  {
  }

  lemma CountedIsLookup(sc: StepCompress, clock: int)
    ensures sc.HistoryOk() ==> |sc.signs| <= |sc.trace.times|
    ensures sc.Answers(clock) ==> Lookup(sc.history, sc.lastPosition, clock) == sc.Counted(clock)
  {
    hide Ahead;
    if sc.Answers(clock) {
      RecordTells(sc.history, sc.lastPosition, sc.since, sc.startPosition, sc.trace.times, sc.signs, clock);
    }
  }

  class StepCompress {
    const maxError: nat
    /** The least integer not below SDS_FILTER_TIME * mcu_freq. */
    const filterTicks: int
    var queue: seq<nat>
    var lastStepClock: nat
    var msgs: seq<Message>
    var sdir: int
    var invertSdir: int
    var nextStepClock: nat
    var nextStepDir: int
    var lastPosition: int
    var history: seq<HistorySteps>

    /** Queued clocks in full, and the requests and pulses since the last reset. */
    ghost var clocks: seq<nat>
    ghost var requests: seq<Request>
    ghost var trace: Trace
    ghost var start: Mcu
    ghost var epoch: nat

    /** The position the newest `since` entries of the history started from, and the sign of each of their pulses. */
    ghost var startPosition: int
    ghost var since: nat
    ghost var signs: seq<int>

    ghost function Sent(): seq<Message>
      reads this
      requires epoch <= |msgs|
    {
      msgs[epoch..]
    }

    /** The messages since the last reset replay to the traced pulses, near their requests. */
    ghost predicate Emitted()
      reads this
    {
      && epoch <= |msgs| && AllSendable(msgs)
      && OutputOk(start, Sent(), trace, requests, maxError, lastStepClock, sdir, PinLevel(sdir, invertSdir))
      && AllClocked(start, Sent(), trace)
    }

    ghost function LastQueued(): nat
      reads this
    {
      Before(lastStepClock, clocks, |clocks|)
    }

    ghost predicate Valid()
      reads this
    {
      && sdir in {-1, 0, 1} && invertSdir in {0, 1} && nextStepDir in {0, 1}
      && (sdir == -1 ==> queue == [])
      && QueueHolds(lastStepClock, queue, clocks)
      && QueuedAre(requests, |trace.times|, clocks, PinLevel(sdir, invertSdir))
      && LastQueued() <= MAX_CLOCK
      && (nextStepClock != 0 ==> LastQueued() < nextStepClock <= MAX_CLOCK)
      && Emitted()
    }

    /** Position counting everything queued and pending. */
    ghost function Net(): int
      reads this
    {
      lastPosition + Signed(sdir, |queue|) + if nextStepClock != 0 then Signed(nextStepDir, 1) else 0
    }

    /** The traced pulses that the newest entries of the history hold. */
    ghost function Recent(): seq<nat>
      reads this
      requires |signs| <= |trace.times|
    {
      trace.times[|trace.times| - |signs|..]
    }

    /** The history is a record of the pulses traced, ending at the last position. */
    ghost predicate Records()
      reads this
    {
      RecordsWith(history, lastPosition, since, startPosition, trace.times, signs)
    }

    /** The history is a record, and the next pulse comes after its end. */
    ghost predicate HistoryOk()
      reads this
    {
      Records() && Ahead(history, lastStepClock, clocks, maxError, nextStepClock)
    }

    /** The position counting began at, plus the signed pulses at or before a clock since. */
    ghost function Counted(clock: int): int
      reads this
      requires |signs| <= |trace.times|
    {
      startPosition + SignedCount(Recent(), signs, clock)
    }

    /** The clock is past what was recorded before counting began. */
    ghost predicate Answers(clock: int)
      reads this
    {
      HistoryOk() && |signs| <= |trace.times| && (since < |history| ==> history[since].lastClock <= clock)
    }

    ghost predicate Flushed()
      reads this
    {
      queue == [] && nextStepClock == 0
    }

    /** The last step is the end of the history. */
    ghost predicate Caught()
      reads this
    {
      history != [] && history[0].lastClock == lastStepClock
    }

    constructor (maxError: nat, filterTicks: int)
      ensures Valid() && HistoryOk() && Net() == 0 && lastStepClock == 0 && sdir == -1 && requests == []
      ensures this.maxError == maxError && this.filterTicks == filterTicks && invertSdir == 0 && history == []
      ensures queue == [] && nextStepClock == 0 && startPosition == 0 && msgs == []
    {
      this.maxError, this.filterTicks := maxError, filterTicks;
      queue, lastStepClock, msgs := [], 0, [];
      sdir, invertSdir, nextStepClock, nextStepDir := -1, 0, 0, 0;
      lastPosition, history := 0, [];
      clocks, requests, trace, start, epoch := [], [], Trace(0, [], []), Mcu(0, 0), 0;
      startPosition, since, signs := 0, 0, [];
    }

    /** Queue the message of a command and move the last step clock to its last pulse. */
    method SendCommand(first: nat, m: StepMove, ghost points: seq<nat>)
      requires Emitted() && sdir >= 0 && Playable(m)
      requires QueuedAre(requests, |trace.times|, points, PinLevel(sdir, invertSdir))
      requires Covers(lastStepClock, first, m, points, maxError)
      requires lastStepClock <= first && U32(lastStepClock + m.interval) == U32(first)
      requires Starts(lastStepClock, first, m)
      modifies `lastStepClock, `msgs, `trace
      ensures Emitted()
      ensures msgs == old(msgs) + [MoveMessage(old(lastStepClock), first, m)]
      ensures lastStepClock == TimeAt(first, m, m.count)
      ensures PulsesAdded(old(trace).times, trace.times, first, m)
    {
      hide OutputOk, AllSendable, AllClocked, Covers, QueuedAre, Ticks, MoveMessage, Playable, TimeAt, PulsesAdded,
           Extend, LastTime, U32, PinLevel, Starts;
      var message := MoveMessage(lastStepClock, first, m);
      SendMoveMessage(start, Sent(), trace, requests, maxError, lastStepClock, sdir, PinLevel(sdir, invertSdir),
                      first, m, points);
      CommandSendable(msgs, lastStepClock, first, m);
      ghost var extended := Extend(trace, first, m, points, maxError);
      ClockedMove(start, Sent(), trace, requests, maxError, lastStepClock, sdir, PinLevel(sdir, invertSdir), first, m,
                  points);
      SuffixAppend(msgs, epoch, message);
      msgs, trace := msgs + [message], extended;
      lastStepClock := first + Ticks(m);
    }

    /** Record a command in the history. */
    method RecordCommand(first: nat, m: StepMove, ghost earlier: seq<nat>)
      requires Playable(m) && lastStepClock == TimeAt(first, m, m.count)
      requires PulsesAdded(earlier, trace.times, first, m)
      modifies `lastPosition, `history, `signs, `since
      ensures lastPosition == old(lastPosition) + Signed(sdir, m.count)
      ensures history == [Entry(first, m, sdir, old(lastPosition))] + old(history) && Caught()
      ensures |signs| == |old(signs)| + m.count && since == old(since) + 1
      ensures EndsBy(old(history), first) &&
              RecordsWith(old(history), old(lastPosition), old(since), startPosition, earlier, old(signs)) ==>
              Records()
    {
      hide PulsesAdded, RecordsWith, EndsBy, Playable;
      EntryEnds(first, m, sdir, lastPosition);
      if RecordsWith(history, lastPosition, since, startPosition, earlier, signs) && EndsBy(history, first) {
        RecordPulses(history, lastPosition, since, startPosition, earlier, signs, trace.times, first, m, sdir);
      }
      var hs := HistorySteps(first, lastStepClock, lastPosition, Signed(sdir, m.count), S32(m.interval), m.add);
      lastPosition := lastPosition + hs.stepCount;
      history := [hs] + history;
      signs, since := signs + Repeat(Signed(sdir, 1), m.count), since + 1;
    }

    /** Emit one queue_step command and record it. */
    method AddMove(first: nat, m: StepMove, ghost points: seq<nat>)
      requires Emitted() && sdir >= 0 && Playable(m)
      requires QueuedAre(requests, |trace.times|, points, PinLevel(sdir, invertSdir))
      requires Covers(lastStepClock, first, m, points, maxError)
      requires lastStepClock <= first && U32(lastStepClock + m.interval) == U32(first)
      requires Starts(lastStepClock, first, m)
      modifies `lastStepClock, `msgs, `lastPosition, `history, `trace, `signs, `since
      ensures Emitted()
      ensures msgs == old(msgs) + [MoveMessage(old(lastStepClock), first, m)]
      ensures lastStepClock == TimeAt(first, m, m.count)
      ensures |trace.times| == |old(trace).times| + m.count
      ensures lastPosition == old(lastPosition) + Signed(sdir, m.count)
      ensures history == [Entry(first, m, sdir, old(lastPosition))] + old(history) && Caught()
      ensures old(Records() && EndsBy(history, first)) ==> Records()
    {
      hide OutputOk, AllSendable, AllClocked, Covers, QueuedAre, RecordsWith, Entry, TimeAt, EndsBy, PulsesAdded;
      ghost var earlier := trace.times;
      SendCommand(first, m, points);
      AddedMore(earlier, trace.times, first, m);
      RecordCommand(first, m, earlier);
    }

    /** Convert queued steps into commands until the last step reaches moveClock or the queue is empty. */
    method QueueFlush(moveClock: nat) returns (ok: bool)
      requires Valid()
      modifies `queue, `lastStepClock, `msgs, `lastPosition, `history, `trace, `clocks, `signs, `since
      ensures Valid() && ok
      ensures queue == [] || lastStepClock >= moveClock
      ensures moveClock > MAX_CLOCK ==> queue == []
      ensures StepsBefore(old(msgs), msgs, moveClock) && StillWaiting(old(clocks), clocks)
      ensures LastQueued() <= old(LastQueued()) && lastStepClock >= old(lastStepClock)
      ensures Net() == old(Net())
      ensures old(msgs) <= msgs
      ensures Grown(old(history), history) && (Caught() || unchanged(this))
      ensures old(queue) == [] ==> unchanged(this)
      ensures old(HistoryOk()) ==> HistoryOk()
    {
      hide OutputOk, AllSendable, AllClocked, QueueHolds, QueuedAre, RecordsWith, StepsBefore, Ahead, Grown;
      ok := true;
      NoSteps(msgs, moveClock);
      NotGrown(history);
      while queue != [] && lastStepClock < moveClock
        invariant Valid() && ok
        invariant StepsBefore(old(msgs), msgs, moveClock) && old(msgs) <= msgs && StillWaiting(old(clocks), clocks)
        invariant LastQueued() <= old(LastQueued()) && lastStepClock >= old(lastStepClock)
        invariant Net() == old(Net())
        invariant Grown(old(history), history) && (Caught() || unchanged(this))
        invariant old(queue) == [] ==> unchanged(this)
        invariant old(HistoryOk()) ==> HistoryOk()
        decreases |queue|
      {
        ghost var before, grown, waiting := msgs, history, clocks;
        ok := FlushOne();
        if !ok {
          return;
        }
        StillWaitingAgain(old(clocks), waiting, clocks);
        OneMoreStep(old(msgs), before, msgs, moveClock);
        GrownAgain(old(history), grown, history);
      }
      QueueBeyond(lastStepClock, queue, clocks);
    }

    /** Compress, check and emit one command. The line check never rejects it. */
    method FlushOne() returns (ok: bool)
      requires Valid() && queue != []
      modifies `queue, `lastStepClock, `msgs, `lastPosition, `history, `trace, `clocks, `signs, `since
      ensures Valid() && ok
      ensures |queue| < old(|queue|) && StillWaiting(old(clocks), clocks)
      ensures old(msgs) < msgs && |msgs| == |old(msgs)| + 1
      ensures var message := msgs[|msgs| - 1]; message.QueueStep? && message.minClock == old(lastStepClock)
      ensures LastQueued() <= old(LastQueued()) && lastStepClock >= old(lastStepClock)
      ensures Net() == old(Net())
      ensures Grown(old(history), history) && Caught()
      ensures old(HistoryOk()) ==> HistoryOk()
    {
      var v := View(lastStepClock, queue, maxError);
      QueueOrdered(v, clocks);
      var m, _, _ := CompressBisectAdd(v);
      ok := CheckLine(v, m);
      CheckLineDecidesFit(v, m);
      hide OutputOk, AllSendable, AllClocked, QueueHolds, QueuedAre, RecordsWith, Ahead, Grown, Fits, LineAccepted;
      if ok {
        EmitQueued(m);
      }
    }

    /** Emit a command for the front of the queue and drop the steps it covers. */
    method EmitQueued(m: StepMove)
      requires Valid() && 1 <= m.count <= Limit(View(lastStepClock, queue, maxError)) && InInt16(m.add)
      requires Fits(View(lastStepClock, queue, maxError), m.interval, m.add, m.count)
      modifies `queue, `lastStepClock, `msgs, `lastPosition, `history, `trace, `clocks, `signs, `since
      ensures Valid()
      ensures msgs == old(msgs) + [MoveMessage(old(lastStepClock), old(lastStepClock) + m.interval, m)]
      ensures queue == old(queue)[m.count..] && StillWaiting(old(clocks), clocks)
      ensures LastQueued() <= old(LastQueued()) && lastStepClock >= old(lastStepClock)
      ensures Net() == old(Net())
      ensures Grown(old(history), history) && Caught()
      ensures old(HistoryOk()) ==> HistoryOk()
    {
      hide OutputOk, AllSendable, AllClocked, Covers, RecordsWith, Playable, Fits, QueueHolds, QueuedAre, TimeAt, Entry,
           MoveMessage, Before, Ahead, EndsBy, Grown;
      ghost var v := View(lastStepClock, queue, maxError);
      FrontCommand(v, clocks, m, requests, |trace.times|, PinLevel(sdir, invertSdir));
      FirstAhead(v, clocks, m, history, nextStepClock);
      SignedSplit(sdir, m.count, |queue| - m.count);
      EntryGrows(history, lastStepClock + m.interval, m, sdir, lastPosition);
      AddMove(lastStepClock + m.interval, m, clocks);
      queue, clocks := queue[m.count..], clocks[m.count..];
      CaughtIsAhead(history, lastStepClock, clocks, maxError, nextStepClock);
    }

    /** Send the set_next_step_dir command, once the steps in the old direction are out. */
    method SetNextStepDirection(dir: int) returns (ok: bool)
      requires Valid() && dir in {0, 1}
      modifies `queue, `lastStepClock, `msgs, `lastPosition, `history, `trace, `clocks, `signs, `since, `sdir
      ensures Valid() && ok && sdir == dir
      ensures LastQueued() <= old(LastQueued()) && lastStepClock >= old(lastStepClock)
      ensures Net() == old(Net())
      ensures old(msgs) <= msgs
      ensures Grown(old(history), history)
      ensures Caught() || unchanged(`history, `queue, `clocks, `lastStepClock)
      ensures old(queue) == [] ==> unchanged(`history, `queue, `clocks, `lastStepClock)
      ensures old(HistoryOk()) ==> HistoryOk()
    {
      hide OutputOk, AllSendable, AllClocked, QueueHolds, QueuedAre, RecordsWith, Ahead, Grown;
      NotGrown(history);
      if sdir == dir {
        return true;
      }
      ok := QueueFlush(UINT64_MAX);
      if !ok {
        return;
      }
      SendDirection(dir);
    }

    method SendDirection(dir: int)
      requires Valid() && queue == [] && dir in {0, 1}
      modifies `msgs, `sdir
      ensures Valid() && sdir == dir
      ensures msgs == old(msgs) + [SetNextStepDir(PinLevel(dir, invertSdir), lastStepClock)]
      ensures Net() == old(Net())
      ensures old(HistoryOk()) ==> HistoryOk()
    {
      hide OutputOk, AllClocked, RecordsWith, Ahead;
      var message := SetNextStepDir(PinLevel(dir, invertSdir), lastStepClock);
      ghost var sent := Sent();
      SendDir(start, sent, trace, requests, maxError, lastStepClock, sdir, PinLevel(sdir, invertSdir), dir, message);
      SuffixAppend(msgs, epoch, message);
      ClockedDir(start, sent, trace, message);
      sdir := dir;
      msgs := msgs + [message];
    }

    /** Store a step time in the queue. */
    method Enqueue(stepClock: nat)
      requires Valid() && nextStepClock == 0 && sdir >= 0
      requires LastQueued() < stepClock < lastStepClock + CLOCK_DIFF_MAX && stepClock <= MAX_CLOCK
      modifies `queue, `clocks, `requests
      ensures Valid() && queue == old(queue) + [U32(stepClock)]
      ensures requests == old(requests) + [Request(stepClock, PinLevel(sdir, invertSdir))]
      ensures Net() == old(Net()) + Signed(sdir, 1)
      ensures LastQueued() == stepClock
      ensures old(HistoryOk() && Ahead(history, lastStepClock, clocks, maxError, stepClock)) ==> HistoryOk()
    {
      ghost var r := Request(stepClock, PinLevel(sdir, invertSdir));
      MoreRequests(start, Sent(), trace, requests, maxError, lastStepClock, sdir, PinLevel(sdir, invertSdir), r);
      JoinQueue(lastStepClock, queue, clocks, stepClock);
      JoinAhead(history, lastStepClock, clocks, maxError, stepClock);
      hide OutputOk, AllSendable, AllClocked, QueueHolds, RecordsWith, Ahead;
      queue := queue + [U32(stepClock)];
      clocks, requests := clocks + [stepClock], requests + [r];
    }

    /** Emit a step far in the future of the last one as a command of its own. */
    method FlushFar(stepClock: nat)
      requires Valid() && nextStepClock == 0 && sdir >= 0 && queue == []
      requires lastStepClock < stepClock <= MAX_CLOCK
      modifies `lastStepClock, `msgs, `lastPosition, `history, `trace, `signs, `since, `requests
      ensures Valid()
      ensures requests == old(requests) + [Request(stepClock, PinLevel(sdir, invertSdir))]
      ensures lastStepClock == stepClock
      ensures Net() == old(Net()) + Signed(sdir, 1)
      ensures old(msgs) < msgs && |msgs| == |old(msgs)| + 1
      ensures var message := msgs[|msgs| - 1]; message.QueueStep? && message.minClock == old(lastStepClock)
      ensures Grown(old(history), history) && Caught()
      ensures old(HistoryOk() && Ahead(history, lastStepClock, clocks, maxError, stepClock)) ==> HistoryOk()
    {
      hide OutputOk, AllSendable, AllClocked, Starts, Covers, RecordsWith, QueueHolds, QueuedAre, Playable, Entry,
           TimeAt, U32, Ahead, EndsBy, Grown;
      var m := StepMove(U32(stepClock - lastStepClock), 1, 0);
      ghost var r := Request(stepClock, PinLevel(sdir, invertSdir));
      MoreRequests(start, Sent(), trace, requests, maxError, lastStepClock, sdir, PinLevel(sdir, invertSdir), r);
      FarCovers(lastStepClock, stepClock, maxError);
      QueueBeyond(lastStepClock, queue, clocks);
      FarAhead(history, lastStepClock, maxError, stepClock);
      EntryGrows(history, stepClock, m, sdir, lastPosition);
      OneQueued(requests, |trace.times|, clocks, PinLevel(sdir, invertSdir), r);
      FreshOutput(stepClock, maxError, PinLevel(sdir, invertSdir));
      requests := requests + [r];
      AddMove(stepClock, m, [stepClock]);
      CaughtIsAhead(history, lastStepClock, clocks, maxError, nextStepClock);
    }

    /** Queue a step that is far from the last one, flushing what is in the way. */
    method QueueAppendFar() returns (ok: bool)
      requires Valid() && nextStepClock >= lastStepClock + CLOCK_DIFF_MAX && sdir == nextStepDir
      modifies `queue, `lastStepClock, `msgs, `lastPosition, `history, `trace, `clocks, `signs, `since,
               `requests, `nextStepClock
      ensures Valid() && ok && nextStepClock == 0
      ensures requests == old(requests) + [Request(old(nextStepClock), PinLevel(sdir, invertSdir))]
      ensures LastQueued() <= old(nextStepClock)
      ensures Net() == old(Net())
      ensures StepsBefore(old(msgs), msgs, old(nextStepClock) - CLOCK_DIFF_MAX + 1) && old(msgs) <= msgs
      ensures Grown(old(history), history) && (queue != [] || Caught())
      ensures Caught() || unchanged(`history, `lastStepClock)
      ensures old(HistoryOk()) ==> HistoryOk()
    {
      hide OutputOk, AllSendable, AllClocked, QueueHolds, QueuedAre, RecordsWith, Ahead, Grown, StepsBefore,
           StillWaiting;
      var stepClock := nextStepClock;
      DropPendingAhead(history, lastStepClock, clocks, maxError, stepClock);
      nextStepClock := 0;
      ok := QueueFlush(stepClock - CLOCK_DIFF_MAX + 1);
      if !ok {
        return;
      }
      CaughtIsAhead(history, lastStepClock, clocks, maxError, stepClock);
      ghost var grown, before := history, msgs;
      if stepClock >= lastStepClock + CLOCK_DIFF_MAX {
        FlushFar(stepClock);
        OneMoreStep(old(msgs), before, msgs, stepClock - CLOCK_DIFF_MAX + 1);
        GrownAgain(old(history), grown, history);
      } else {
        Enqueue(stepClock);
      }
    }

    /** Queue a step when the buffer is at capacity: too long a queue is flushed first. */
    method QueueAppendExtend() returns (ok: bool)
      requires Valid() && 0 < nextStepClock < lastStepClock + CLOCK_DIFF_MAX && sdir == nextStepDir
      modifies `queue, `lastStepClock, `msgs, `lastPosition, `history, `trace, `clocks, `signs, `since,
               `requests, `nextStepClock
      ensures Valid() && ok && nextStepClock == 0
      ensures requests == old(requests) + [Request(old(nextStepClock), PinLevel(sdir, invertSdir))]
      ensures LastQueued() <= old(nextStepClock)
      ensures Net() == old(Net())
      ensures old(msgs) <= msgs
      ensures if old(|queue|) <= MAX_COUNT + 2000 then unchanged(`msgs) else
                |old(clocks)| == old(|queue|) && |queue| <= MAX_COUNT &&
                StepsBefore(old(msgs), msgs, old(clocks)[old(|queue|) - MAX_COUNT])
      ensures Grown(old(history), history) && queue != []
      ensures old(queue) == [] ==> queue == [U32(old(nextStepClock))]
      ensures Caught() || unchanged(`history, `lastStepClock)
      ensures old(HistoryOk()) ==> HistoryOk()
    {
      hide OutputOk, AllSendable, AllClocked, QueueHolds, QueuedAre, RecordsWith, Ahead, Grown;
      ok := true;
      NotGrown(history);
      if |queue| > MAX_COUNT + 2000 {
        var flush := U32(queue[|queue| - MAX_COUNT] - lastStepClock);
        QueuedClock(lastStepClock, queue, clocks, |queue| - MAX_COUNT);
        ok := QueueFlush(lastStepClock + flush);
        if !ok {
          return;
        }
        LaterLeft(old(lastStepClock), old(queue), old(clocks), lastStepClock, queue, clocks, old(|queue|) - MAX_COUNT);
      }
      EnqueueNext();
    }

    /** Store the pending step in the queue. */
    method EnqueueNext()
      requires Valid() && 0 < nextStepClock < lastStepClock + CLOCK_DIFF_MAX && sdir == nextStepDir
      modifies `queue, `clocks, `requests, `nextStepClock
      ensures Valid() && nextStepClock == 0 && queue == old(queue) + [U32(old(nextStepClock))]
      ensures requests == old(requests) + [Request(old(nextStepClock), PinLevel(sdir, invertSdir))]
      ensures LastQueued() == old(nextStepClock)
      ensures Net() == old(Net())
      ensures old(HistoryOk()) ==> HistoryOk()
    {
      hide OutputOk, AllSendable, AllClocked, QueueHolds, QueuedAre, RecordsWith, Ahead;
      var stepClock := nextStepClock;
      DropPendingAhead(history, lastStepClock, clocks, maxError, stepClock);
      nextStepClock := 0;
      Enqueue(stepClock);
    }

    /** Move the pending step to the queue, changing direction and flushing as needed. */
    method QueueAppend() returns (ok: bool)
      requires Valid() && nextStepClock != 0
      modifies `queue, `lastStepClock, `msgs, `lastPosition, `history, `trace, `clocks, `signs, `since,
               `requests, `nextStepClock, `sdir
      ensures Valid() && ok && nextStepClock == 0 && sdir == nextStepDir
      ensures requests == old(requests) + [Request(old(nextStepClock), PinLevel(nextStepDir, invertSdir))]
      ensures LastQueued() <= old(nextStepClock)
      ensures Net() == old(Net())
      ensures old(msgs) <= msgs
      ensures Grown(old(history), history) && (queue != [] || Caught())
      ensures Caught() || unchanged(`history, `lastStepClock)
      ensures old(queue == [] && nextStepClock < lastStepClock + CLOCK_DIFF_MAX) ==> queue == [U32(old(nextStepClock))]
      ensures old(HistoryOk()) ==> HistoryOk()
    {
      hide OutputOk, AllSendable, AllClocked, QueueHolds, QueuedAre, RecordsWith, Ahead, Grown;
      ok := true;
      NotGrown(history);
      if nextStepDir != sdir {
        ok := SetNextStepDirection(nextStepDir);
        if !ok {
          return;
        }
      }
      ghost var grown := history;
      if nextStepClock >= lastStepClock + CLOCK_DIFF_MAX {
        ok := QueueAppendFar();
        GrownAgain(old(history), grown, history);
      } else if * {
        ok := QueueAppendExtend();
        GrownAgain(old(history), grown, history);
      } else {
        EnqueueNext();
      }
    }

    /** A step and its reversal within the filter time cancel. */
    predicate RollsBack(dir: int, stepClock: nat)
      reads this
    {
      nextStepClock != 0 && dir != nextStepDir && stepClock - nextStepClock < filterTicks
    }

    /**
     * Add a step time. Step clock 0 is indistinguishable from no step, and is lost. Lookups stay answerable
     * if the first step after a gap in the tracking comes late enough to fall after the end of the history.
     */
    method Append(dir: int, stepClock: nat) returns (ok: bool)
      requires Valid() && dir in {0, 1} && stepClock <= MAX_CLOCK
      requires stepClock != 0 && !RollsBack(dir, stepClock) ==>
                 stepClock > if nextStepClock != 0 then nextStepClock else LastQueued()
      modifies `queue, `lastStepClock, `msgs, `lastPosition, `history, `trace, `clocks, `signs, `since,
               `requests, `nextStepClock, `nextStepDir, `sdir
      ensures Valid() && ok
      ensures old(RollsBack(dir, stepClock)) ==> requests == old(requests) && nextStepClock == 0
      ensures !old(RollsBack(dir, stepClock)) ==>
                && nextStepClock == stepClock
                && requests == old(requests) + if old(nextStepClock) == 0 then []
                     else [Request(old(nextStepClock), PinLevel(old(nextStepDir), invertSdir))]
      ensures nextStepDir == dir
      ensures old(nextStepClock) == 0 ==> unchanged(`queue, `clocks, `lastStepClock, `msgs, `history, `sdir)
      ensures Net() == old(Net()) + if stepClock == 0 && !old(RollsBack(dir, stepClock)) then 0 else Signed(dir, 1)
      ensures old(msgs) <= msgs
      ensures Grown(old(history), history)
      ensures old(HistoryOk() && (nextStepClock != 0 || Ahead(history, lastStepClock, clocks, maxError, stepClock))) ==>
                HistoryOk()
    {
      hide OutputOk, AllSendable, AllClocked, QueueHolds, QueuedAre, RecordsWith, Ahead, Grown;
      ok := true;
      NotGrown(history);
      if nextStepClock != 0 {
        DropPendingAhead(history, lastStepClock, clocks, maxError, nextStepClock);
        if dir != nextStepDir {
          if stepClock - nextStepClock < filterTicks {
            nextStepClock, nextStepDir := 0, dir;
            return;
          }
        }
        ok := QueueAppend();
        if !ok {
          return;
        }
        QueueBeyond(lastStepClock, queue, clocks);
        PendingAhead(history, lastStepClock, clocks, maxError, stepClock);
      }
      nextStepClock, nextStepDir := stepClock, dir;
    }

    /** Commit the pending step: it can no longer be rolled back. */
    method Commit() returns (ok: bool)
      requires Valid()
      modifies `queue, `lastStepClock, `msgs, `lastPosition, `history, `trace, `clocks, `signs, `since,
               `requests, `nextStepClock, `sdir
      ensures Valid() && ok && nextStepClock == 0 && (old(nextStepClock) != 0 ==> sdir == nextStepDir)
      ensures requests == old(requests) +
                if old(nextStepClock) == 0 then [] else [Request(old(nextStepClock), PinLevel(nextStepDir, invertSdir))]
      ensures Net() == old(Net())
      ensures old(msgs) <= msgs
      ensures old(queue == [] && 0 < nextStepClock < lastStepClock + CLOCK_DIFF_MAX) ==>
              queue == [U32(old(nextStepClock))]
      ensures Grown(old(history), history)
      ensures old(HistoryOk()) ==> HistoryOk()
    {
      hide OutputOk, AllSendable, AllClocked, QueueHolds, QueuedAre, RecordsWith, Ahead, Grown;
      NotGrown(history);
      ok := true;
      if nextStepClock != 0 {
        ok := QueueAppend();
      }
    }

    /** Flush steps up to moveClock; a pending step at or before it is queued first. */
    method Flush(moveClock: nat) returns (ok: bool)
      requires Valid()
      modifies `queue, `lastStepClock, `msgs, `lastPosition, `history, `trace, `clocks, `signs, `since,
               `requests, `nextStepClock, `sdir
      ensures Valid() && ok
      ensures nextStepClock == if old(nextStepClock) <= moveClock then 0 else old(nextStepClock)
      ensures requests == old(requests) +
                if old(nextStepClock) == 0 || old(nextStepClock) > moveClock then []
                else [Request(old(nextStepClock), PinLevel(nextStepDir, invertSdir))]
      ensures queue == [] || lastStepClock >= moveClock
      ensures moveClock > MAX_CLOCK ==> queue == []
      ensures LastQueued() <= Max(old(LastQueued()), old(nextStepClock))
      ensures Net() == old(Net())
      ensures old(msgs) <= msgs
      ensures Grown(old(history), history) && (Caught() || history == old(history))
      ensures old(queue == [] && nextStepClock == 0) ==> unchanged(`history, `msgs, `lastStepClock, `sdir)
      ensures old(HistoryOk()) ==> HistoryOk()
    {
      hide OutputOk, AllSendable, AllClocked, QueueHolds, QueuedAre, RecordsWith, Ahead, Grown;
      NotGrown(history);
      if nextStepClock != 0 && moveClock >= nextStepClock {
        ok := QueueAppend();
        if !ok {
          return;
        }
      }
      ghost var grown := history;
      ok := QueueFlush(moveClock);
      GrownAgain(old(history), grown, history);
    }

    /** Flush everything and restart from a given step clock, with the direction unknown. */
    method Reset(clock: nat) returns (ok: bool)
      requires Valid() && clock <= MAX_CLOCK
      modifies this
      ensures Valid() && ok && invertSdir == old(invertSdir)
      ensures queue == [] && nextStepClock == 0 && sdir == -1 && lastStepClock == clock && requests == []
      ensures Net() == old(Net()) && startPosition == lastPosition && old(msgs) <= msgs
      ensures Grown(old(history), history)
      ensures history == old(history) ||
              (history != [] && history[0].lastClock <= Max(old(LastQueued()), old(nextStepClock)))
      ensures old(queue == [] && nextStepClock == 0) ==> unchanged(`history, `msgs)
      ensures old(HistoryOk()) ==> HistoryOk()
    {
      hide QueueHolds, QueuedAre, OutputOk, AllSendable, AllClocked, RecordsWith, Ahead, Grown;
      ok := Flush(UINT64_MAX);
      if !ok {
        return;
      }
      QueueBeyond(lastStepClock, queue, clocks);
      CountAnew();
      Restart(clock);
    }

    /** Start tracking anew, with nothing queued or pending. */
    method Restart(clock: nat)
      requires Valid() && clock <= MAX_CLOCK && queue == [] && clocks == [] && nextStepClock == 0 && signs == []
      modifies `lastStepClock, `sdir, `start, `epoch, `requests, `trace
      ensures Valid() && sdir == -1 && lastStepClock == clock && requests == []
      ensures Net() == old(Net())
      ensures old(HistoryOk()) ==> HistoryOk()
    {
      hide QueueHolds, QueuedAre, OutputOk, AllSendable, AllClocked, RecordsWith, Ahead, U32, PinLevel;
      FreshOutput(clock, maxError, PinLevel(-1, invertSdir));
      NoPulsesNeeded(history, lastPosition, since, startPosition, trace.times, []);
      NothingAhead(history, clock, maxError);
      NoneAfter(msgs);
      start, epoch := Mcu(U32(clock), 0), |msgs|;
      requests, trace := [], Trace(clock, [], []);
      lastStepClock, sdir := clock, -1;
    }

    /** Count positions from here on. */
    method CountAnew()
      requires Valid()
      modifies `startPosition, `since, `signs
      ensures Valid() && startPosition == lastPosition && since == 0 && signs == []
      ensures Net() == old(Net())
      ensures old(HistoryOk()) ==> HistoryOk()
    {
      hide QueueHolds, QueuedAre, OutputOk, AllSendable, AllClocked, RecordsWith, Ahead;
      RestartRecord(history, lastPosition, since, startPosition, trace.times, signs);
      startPosition, since, signs := lastPosition, 0, [];
    }

    /** Flush everything and declare the position, marking it in the history. */
    method SetLastPosition(clock: nat, position: int) returns (ok: bool)
      requires Valid()
      modifies this
      ensures Valid() && ok && invertSdir == old(invertSdir)
      ensures queue == [] && nextStepClock == 0
      ensures Net() == position == startPosition && since == 0 && old(msgs) <= msgs
      ensures |history| > 0 && history[0] == HistorySteps(clock, clock, position, 0, 0, 0)
      ensures Grown(old(history), history[1..])
      ensures old(queue == [] && nextStepClock == 0) ==>
                history[1..] == old(history) && unchanged(`msgs, `lastStepClock, `sdir)
      ensures old(HistoryOk()) ==> HistoryOk()
    {
      hide OutputOk, AllSendable, AllClocked, QueueHolds, QueuedAre, RecordsWith, Ahead, Grown;
      ok := Flush(UINT64_MAX);
      if !ok {
        return;
      }
      QueueBeyond(lastStepClock, queue, clocks);
      Mark(clock, position);
    }

    /** Put a marker in front of the history, with nothing queued or pending. */
    method Mark(clock: nat, position: int)
      requires Valid() && queue == [] && clocks == [] && nextStepClock == 0
      modifies `lastPosition, `history, `startPosition, `since, `signs
      ensures Valid()
      ensures Net() == position == startPosition && since == 0
      ensures history == [HistorySteps(clock, clock, position, 0, 0, 0)] + old(history)
      ensures old(HistoryOk()) ==> HistoryOk()
    {
      hide QueueHolds, QueuedAre, OutputOk, AllSendable, AllClocked, RecordsWith, Ahead;
      MarkRecord(history, lastPosition, since, startPosition, trace.times, signs, clock, position);
      var hs := HistorySteps(clock, clock, position, 0, 0, 0);
      lastPosition := position;
      history := [hs] + history;
      startPosition, since, signs := position, 0, [];
      NothingAhead(history, lastStepClock, maxError);
    }

    /**
     * Set the inverted direction flag. Queued steps keep their pin and so change their sign:
     * the net position is kept exactly when the flag does not change or nothing is queued.
     */
    method SetInvertSdir(invert: int)
      requires Valid() && invert in {0, 1}
      modifies `invertSdir, `sdir
      ensures Valid() && invertSdir == invert
      ensures Net() == old(Net()) - if invert == old(invertSdir) then 0 else 2 * Signed(old(sdir), |queue|)
      ensures Net() == old(Net()) <==> invert == old(invertSdir) || queue == []
      ensures old(HistoryOk()) ==> HistoryOk()
    {
      hide RecordsWith, Ahead, QueueHolds;
      if invert != invertSdir {
        invertSdir := invert;
        if sdir >= 0 {
          sdir := 1 - sdir;
        }
      }
    }

    /** Expire history older than a clock. What is kept is still a record, of the pulses it holds. */
    method HistoryExpire(endClock: nat)
      modifies `history, `since, `signs, `startPosition
      ensures history <= old(history) && KeptUpTo(old(history), |history|, endClock)
      ensures (old(Valid()) ==> Valid()) && Net() == old(Net())
      ensures since == Min(old(since), |history|) || !old(Records())
      ensures old(Records()) && |history| >= old(since) ==> startPosition == old(startPosition) && signs == old(signs)
      ensures old(HistoryOk()) ==> HistoryOk()
    {
      hide RecordsWith, Ahead, OutputOk, AllSendable, AllClocked, QueueHolds, QueuedAre, KeptUpTo, StartOf, PinLevel,
           Signed, Before;
      var kept := FreeHistory(history, endClock);
      KeptAhead(history, kept, lastStepClock, clocks, maxError, nextStepClock);
      ghost var record := Records();
      if record {
        ghost var since', m := ExpireTail(history, lastPosition, since, startPosition, trace.times, signs, kept);
        since, signs := since', signs[m..];
        startPosition := StartOf(kept, lastPosition, since);
      }
      history := kept;
    }

    /** The position at a past clock: from the end of the older history on, what the pulses made add up to. */
    method PastPosition(clock: nat, sqrt: real -> real) returns (position: int)
      requires Chained(history) && IsSqrt(sqrt)
      ensures position == Lookup(history, lastPosition, clock)
      ensures HistoryOk() ==> |signs| <= |trace.times|
      ensures Answers(clock) ==> position == Counted(clock)
    {
      hide OutputOk, AllSendable, AllClocked, QueueHolds, QueuedAre, Ahead;
      position := FindPastPosition(history, lastPosition, clock, sqrt);
      CountedIsLookup(this, clock);
    }

    /**
     * What the end of homing does: tracking restarts at clock 0, the position reported by the microcontroller is
     * declared, and the position at the trigger is looked up. The report may come before the last step recorded,
     * as steps are generated ahead of a trigger that stops them. A trigger before the report is answered from
     * the steps made; one after it, by the report.
     */
    method EndHoming(clock: nat, position: int, trigger: nat, sqrt: real -> real) returns (past: int)
      requires Valid() && HistoryOk() && IsSqrt(sqrt)
      modifies this
      ensures Valid() && HistoryOk() && Net() == position
      ensures queue == [] && nextStepClock == 0 && lastStepClock == 0 && LastQueued() == 0
      ensures |history| > 0 && Grown(old(history), history[1..])
      ensures trigger >= clock ==> past == position
      ensures trigger < clock && |history| > 1 ==> past == PositionAt(history[1..], trigger)
      ensures trigger < clock && old(Flushed() && history != []) ==>
                past == Lookup(old(history), old(lastPosition), trigger)
      ensures trigger < clock && old(Flushed() && history != [] && Answers(trigger)) ==>
                past == old(Counted(trigger))
    {
      hide OutputOk, AllSendable, AllClocked, QueueHolds, QueuedAre, RecordsWith, Ahead, Grown;
      CountedIsLookup(this, trigger);
      var ok := Reset(0);
      QueueBeyond(lastStepClock, queue, clocks);
      ghost var grown := history;
      ok := SetLastPosition(clock, position);
      GrownAgain(old(history), grown, history[1..]);
      QueueBeyond(lastStepClock, queue, clocks);
      RecordChained(history, lastPosition, since, startPosition, trace.times, signs);
      MarkerAnswers(history, trigger);
      past := PastPosition(trigger, sqrt);
    }
  }

  /** One step up is queued when the inversion flag changes: the net position goes from 1 to -1. */
  method InversionMovesPosition() returns (sc: StepCompress)
    ensures fresh(sc) && sc.Valid() && sc.requests == [Request(100, 1)] && sc.invertSdir == 1 && sc.Net() == -1
  {
    hide OutputOk, AllSendable, AllClocked, QueueHolds, QueuedAre, RecordsWith, Ahead, Grown;
    sc := new StepCompress(0, 0);
    QueueBeyond(sc.lastStepClock, sc.queue, sc.clocks);
    var ok := sc.Append(1, 100);
    QueueBeyond(sc.lastStepClock, sc.queue, sc.clocks);
    ok := sc.Commit();
    assert sc.Net() == 1;
    sc.SetInvertSdir(1);
  }
}
