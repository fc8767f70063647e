/**
 * Which parts of the move queue a stepper generates steps for: its active moves, and the
 * windows before and after them. The walk over the queue runs once for every flush.
 */
module StepWindows {
  import opened TrapQ
  import Shaper

  /** The axes that move a stepper. */
  datatype ActiveFlags = ActiveFlags(x: bool, y: bool, z: bool)

  /** A stepper's kinematics over a queue of moves, whose last entry is the tail sentinel. */
  datatype Kinematics = Kinematics(moves: seq<Move>, flags: ActiveFlags, preActive: real, postActive: real)

  predicate CheckActive(flags: ActiveFlags, m: Move) {
    (flags.x && m.axesR.x != 0.0) || (flags.y && m.axesR.y != 0.0) || (flags.z && m.axesR.z != 0.0)
  }

  predicate Active(s: Kinematics, k: nat)
    requires k < |s.moves|
  {
    CheckActive(s.flags, s.moves[k])
  }

  ghost predicate Valid(s: Kinematics) {
    Contiguous(s.moves) && Positive(s.moves) && s.preActive >= 0.0 && s.postActive >= 0.0 &&
    s.moves != [] && !Active(s, |s.moves| - 1)
  }

  /** Does an active move, with its windows, hold an instant? */
  predicate WantedBy(s: Kinematics, k: nat, t: real)
    requires k < |s.moves|
  {
    Active(s, k) && s.moves[k].printTime - s.preActive <= t < End(s.moves[k]) + s.postActive
  }

  ghost predicate Wanted(s: Kinematics, t: real) {
    exists k: nat :: k < |s.moves| && WantedBy(s, k, t)
  }

  // ---------------------------------------------------------------------------
  // What activity means for the trajectory
  // ---------------------------------------------------------------------------

  predicate Flagged(flags: ActiveFlags, axis: Shaper.Axis) {
    match axis case X => flags.x case Y => flags.y case Z => flags.z
  }

  /** Has an axis left the start of a move at a time in it? */
  predicate Displaced(m: Move, axis: Shaper.Axis, time: real) {
    Shaper.AxisPosition(m, axis, time) != Shaper.On(m.startPos, axis)
  }

  /** A move that is not active never displaces a flagged axis. */
  lemma InactiveStands(flags: ActiveFlags, m: Move, axis: Shaper.Axis, time: real)
    requires !CheckActive(flags, m) && Flagged(flags, axis)
    ensures !Displaced(m, axis, time)
  {
    hide Distance;
    assert Shaper.On(m.axesR, axis) == 0.0;
  }

  /** An active move displaces a flagged axis, whenever there is any distance to go. */
  lemma ActiveDisplaces(flags: ActiveFlags, m: Move, time: real)
    requires CheckActive(flags, m) && Distance(m, time) != 0.0
    ensures exists axis :: Flagged(flags, axis) && Displaced(m, axis, time)
  {
    hide Distance;
    var axis: Shaper.Axis := if flags.x && m.axesR.x != 0.0 then Shaper.X else
                             if flags.y && m.axesR.y != 0.0 then Shaper.Y else Shaper.Z;
    NonZero(Shaper.On(m.axesR, axis), Distance(m, time));
    assert Flagged(flags, axis) && Displaced(m, axis, time);
  }

  lemma NonZero(a: real, b: real)
    requires a != 0.0 && b != 0.0
    ensures a * b != 0.0
  {
  }

  /** Every instant of a move that displaces a flagged axis is wanted. */
  lemma DisplacedWanted(s: Kinematics, k: nat, axis: Shaper.Axis, time: real, t: real)
    requires Valid(s) && k < |s.moves| && Flagged(s.flags, axis) && Displaced(s.moves[k], axis, time)
    requires s.moves[k].printTime <= t < End(s.moves[k])
    ensures Wanted(s, t)
  {
    if !Active(s, k) { InactiveStands(s.flags, s.moves[k], axis, time); }
    assert WantedBy(s, k, t);
  }

  /** The position of an axis at an absolute time, as move k gives it. */
  function PositionAt(s: Kinematics, k: nat, axis: Shaper.Axis, t: real): real
    requires k < |s.moves|
  {
    Shaper.AxisPosition(s.moves[k], axis, t - s.moves[k].printTime)
  }

  ghost predicate NoneWanted(s: Kinematics, lo: real, hi: real) {
    forall t: real :: lo <= t < hi ==> !Wanted(s, t)
  }

  /** Within one move, a flagged axis stands as long as no instant is wanted. */
  lemma StandsInMove(s: Kinematics, k: nat, axis: Shaper.Axis, t: real, u: real)
    requires Valid(s) && k < |s.moves| && Flagged(s.flags, axis) && s.moves[k].printTime <= t <= u <= End(s.moves[k])
    requires NoneWanted(s, t, u)
    ensures PositionAt(s, k, axis, t) == PositionAt(s, k, axis, u)
  {
    hide Shaper.AxisPosition, Contiguous, Positive;
    if t < u {
      assert !Wanted(s, t) && !WantedBy(s, k, t);
      InactiveStands(s.flags, s.moves[k], axis, t - s.moves[k].printTime);
      InactiveStands(s.flags, s.moves[k], axis, u - s.moves[k].printTime);
    }
  }

  /** And so it does across moves: between wanted instants the flagged axes stand still. */
  lemma {:induction false} StandsAcross(s: Kinematics, i: nat, j: nat, axis: Shaper.Axis, t: real, u: real)
    requires Valid(s) && Continuous(s.moves) && i <= j < |s.moves| && Flagged(s.flags, axis) && t <= u
    requires Shaper.Within(s.moves[i], t) && Shaper.Within(s.moves[j], u) && NoneWanted(s, t, u)
    ensures PositionAt(s, i, axis, t) == PositionAt(s, j, axis, u)
    decreases j - i
  {
    if i == j {
      StandsInMove(s, i, axis, t, u);
    } else {
      var e := End(s.moves[i]);
      StartsAscend(s.moves, i, j);
      assert Joins(s.moves[i], s.moves[i + 1]) && s.moves[i + 1].moveT > 0.0;
      Shaper.JoinAt(s.moves[i], s.moves[i + 1], axis);
      hide Shaper.AxisPosition, Continuous, Positive;
      StandsInMove(s, i, axis, t, e);
      StandsAcross(s, i + 1, j, axis, e, u);
    }
  }

  // ---------------------------------------------------------------------------
  // Ranges
  // ---------------------------------------------------------------------------

  datatype Range = Range(lo: real, hi: real)

  predicate Holds(r: Range, t: real) {
    r.lo <= t < r.hi
  }

  ghost predicate Emitted(ranges: seq<Range>, t: real) {
    exists i :: 0 <= i < |ranges| && Holds(ranges[i], t)
  }

  /** No range is empty, and each ends before the next begins. */
  ghost predicate InOrder(ranges: seq<Range>) {
    (forall i :: 0 <= i < |ranges| ==> ranges[i].lo < ranges[i].hi) &&
    (forall i, j :: 0 <= i < j < |ranges| ==> ranges[i].hi <= ranges[j].lo)
  }

  ghost predicate Before(ranges: seq<Range>, time: real) {
    forall i :: 0 <= i < |ranges| ==> ranges[i].hi <= time
  }

  ghost predicate After(ranges: seq<Range>, time: real) {
    forall i :: 0 <= i < |ranges| ==> time <= ranges[i].lo
  }

  /** The part of a move that steps are generated for, if any. */
  function Clip(m: Move, absStart: real, absEnd: real): seq<Range> {
    var lo := if absStart < m.printTime then m.printTime else absStart;
    var hi := if absEnd > End(m) then End(m) else absEnd;
    if lo < hi then [Range(lo, hi)] else []
  }

  lemma ClipHolds(m: Move, absStart: real, absEnd: real, t: real)
    ensures Emitted(Clip(m, absStart, absEnd), t) <==> absStart <= t < absEnd && m.printTime <= t < End(m)
  {
    var c := Clip(m, absStart, absEnd);
    if absStart <= t < absEnd && m.printTime <= t < End(m) {
      assert Holds(c[0], t);
    }
  }

  lemma ClipBounds(m: Move, absStart: real, absEnd: real)
    ensures var c := Clip(m, absStart, absEnd);
            InOrder(c) && After(c, absStart) && After(c, m.printTime) && Before(c, absEnd) && Before(c, End(m))
  {
  }

  lemma EmittedAppend(a: seq<Range>, b: seq<Range>, t: real)
    ensures Emitted(a + b, t) <==> Emitted(a, t) || Emitted(b, t)
  {
    var c := a + b;
    if Emitted(c, t) {
      var i :| 0 <= i < |c| && Holds(c[i], t);
      if i < |a| { assert Holds(a[i], t); } else { assert Holds(b[i - |a|], t); }
    }
    if Emitted(a, t) {
      var i :| 0 <= i < |a| && Holds(a[i], t);
      assert Holds(c[i], t);
    }
    if Emitted(b, t) {
      var i :| 0 <= i < |b| && Holds(b[i], t);
      assert Holds(c[|a| + i], t);
    }
  }

  /** Ranges after a time follow ranges before it. */
  lemma OrderAppend(a: seq<Range>, b: seq<Range>, time: real)
    requires InOrder(a) && InOrder(b) && Before(a, time) && After(b, time)
    ensures InOrder(a + b)
  {
  }

  lemma BeforeLater(a: seq<Range>, time: real, later: real)
    requires Before(a, time) && time <= later
    ensures Before(a, later)
  {
  }

  // ---------------------------------------------------------------------------
  // What the walk keeps
  // ---------------------------------------------------------------------------

  /** No activity before move k asks for steps at or past a time. */
  ghost predicate SettledBefore(s: Kinematics, k: nat, time: real)
    requires k <= |s.moves|
  {
    forall j: nat :: j < k && Active(s, j) ==> End(s.moves[j]) + s.postActive <= time
  }

  /** The last activity time covers all activity before the last flush. */
  ghost predicate Known(s: Kinematics, lastFlush: real, lastMove: real) {
    lastMove <= lastFlush &&
    forall j: nat :: j < |s.moves| && Active(s, j) && s.moves[j].printTime < lastFlush ==>
      End(s.moves[j]) <= lastMove || lastFlush <= lastMove
  }

  /** Nothing more is needed for an instant. */
  ghost predicate Done(s: Kinematics, ranges: seq<Range>, t: real) {
    Emitted(ranges, t) || !Wanted(s, t)
  }

  /** An instant in the moves skipped last, which later activity may still want. */
  predicate Pending(s: Kinematics, k: nat, skip: nat, force: real, t: real)
    requires skip <= k <= |s.moves|
  {
    skip > 0 && force <= t && s.moves[k - skip].printTime <= t
  }

  ghost predicate Bounded(ranges: seq<Range>, lastFlush: real, flush: real) {
    InOrder(ranges) && After(ranges, lastFlush) && Before(ranges, flush)
  }

  /** Where move k starts, or where the queue ends. */
  function Edge(s: Kinematics, k: nat): real
    requires s.moves != [] && k <= |s.moves|
  {
    if k < |s.moves| then s.moves[k].printTime else End(s.moves[|s.moves| - 1])
  }

  lemma EdgeNext(s: Kinematics, k: nat)
    requires Contiguous(s.moves) && k < |s.moves|
    ensures Edge(s, k + 1) == End(s.moves[k])
  {
  }

  /** An instant that the walk must account for before it reaches move k. */
  predicate Passed(s: Kinematics, k: nat, lastFlush: real, flush: real, t: real)
    requires s.moves != [] && k <= |s.moves|
  {
    lastFlush <= t < flush && s.moves[0].printTime <= t < Edge(s, k)
  }

  /** The walk is about to look at move k. */
  ghost predicate Walking(s: Kinematics, lastFlush: real, flush: real, k: nat, skip: nat, force: real,
                          ranges: seq<Range>)
  {
    s.moves != [] && skip <= k <= |s.moves| && SettledBefore(s, k, force) && Bounded(ranges, lastFlush, flush) &&
    Before(ranges, Edge(s, k)) && Before(ranges, force) &&
    forall t: real :: Passed(s, k, lastFlush, flush, t) ==> Done(s, ranges, t) || Pending(s, k, skip, force, t)
  }

  /** Every instant before move k is accounted for. */
  ghost predicate Resolved(s: Kinematics, lastFlush: real, flush: real, k: nat, ranges: seq<Range>) {
    s.moves != [] && k <= |s.moves| && Bounded(ranges, lastFlush, flush) && Before(ranges, Edge(s, k)) &&
    forall t: real :: Passed(s, k, lastFlush, flush, t) ==> Done(s, ranges, t)
  }

  lemma StartsInOrder(s: Kinematics, i: nat, j: nat)
    requires Contiguous(s.moves) && Positive(s.moves) && i <= j < |s.moves|
    ensures s.moves[i].printTime <= s.moves[j].printTime
  {
    if i < j {
      StartsAscend(s.moves, i, j);
      assert s.moves[i].moveT > 0.0;
    }
  }

  /** Between past activity and the window before the next, no steps are wanted. */
  lemma BetweenUnwanted(s: Kinematics, k: nat, time: real, next: real, t: real)
    requires Valid(s) && k <= |s.moves| && SettledBefore(s, k, time)
    requires forall j: nat :: k <= j < |s.moves| && Active(s, j) ==> next <= s.moves[j].printTime
    requires time <= t < next - s.preActive
    ensures !Wanted(s, t)
  {
    forall j: nat | j < |s.moves|
      ensures !WantedBy(s, j, t)
    {
      if j < k && Active(s, j) { assert End(s.moves[j]) + s.postActive <= time; }
    }
  }

  /** An inactive move: steps follow recent activity into it, and what is left of it is pending. */
  lemma PassInactive(s: Kinematics, lastFlush: real, flush: real, k: nat, skip: nat, force: real, ranges: seq<Range>)
    requires Valid(s) && Walking(s, lastFlush, flush, k, skip, force, ranges) && k < |s.moves| && !Active(s, k)
    ensures s.moves[k].printTime < force ==>
              Walking(s, lastFlush, flush, k + 1, 1, force,
                ranges + Clip(s.moves[k], lastFlush, if force > flush then flush else force))
    ensures s.moves[k].printTime >= force ==> Walking(s, lastFlush, flush, k + 1, skip + 1, force, ranges)
  {
    var m := s.moves[k];
    EdgeNext(s, k);
    assert m.moveT > 0.0;
    BeforeLater(ranges, m.printTime, End(m));
    StartsInOrder(s, k - skip, k);
    if m.printTime < force {
      var absEnd := if force > flush then flush else force;
      var more := Clip(m, lastFlush, absEnd);
      ClipBounds(m, lastFlush, absEnd);
      OrderAppend(ranges, more, m.printTime);
      forall t: real | Passed(s, k + 1, lastFlush, flush, t)
        ensures Done(s, ranges + more, t) || Pending(s, k + 1, 1, force, t)
      {
        EmittedAppend(ranges, more, t);
        ClipHolds(m, lastFlush, absEnd, t);
        assert t < m.printTime ==> Passed(s, k, lastFlush, flush, t);
      }
    } else {
      forall t: real | Passed(s, k + 1, lastFlush, flush, t)
        ensures Done(s, ranges, t) || Pending(s, k + 1, skip + 1, force, t)
      {
        assert t < m.printTime ==> Passed(s, k, lastFlush, flush, t);
      }
    }
  }

  /** With nothing skipped, or no window before activity, nothing is pending at an active move. */
  lemma NothingPending(s: Kinematics, lastFlush: real, flush: real, k: nat, skip: nat, force: real, ranges: seq<Range>)
    requires Valid(s) && Walking(s, lastFlush, flush, k, skip, force, ranges) && k < |s.moves|
    requires skip == 0 || s.preActive == 0.0
    ensures Resolved(s, lastFlush, flush, k, ranges)
  {
    LaterActive(s, k);
    forall t: real | Passed(s, k, lastFlush, flush, t)
      ensures Done(s, ranges, t)
    {
      if !Done(s, ranges, t) {
        BetweenUnwanted(s, k, force, Edge(s, k), t);
      }
    }
  }

  lemma LaterActive(s: Kinematics, k: nat)
    requires Valid(s) && k <= |s.moves|
    ensures forall j: nat :: k <= j < |s.moves| && Active(s, j) ==> Edge(s, k) <= s.moves[j].printTime
  {
    forall j: nat | k <= j < |s.moves|
      ensures Edge(s, k) <= s.moves[j].printTime
    {
      StartsInOrder(s, k, j);
    }
  }

  /** Generate steps for skipped moves from absStart up to move k. */
  method LeadUp(s: Kinematics, k: nat, skip: nat, absStart: real, flush: real) returns (out: seq<Range>)
    requires Valid(s) && 0 < skip <= k < |s.moves|
    ensures InOrder(out) && After(out, absStart) && Before(out, flush) && Before(out, s.moves[k].printTime)
    ensures forall t: real :: absStart <= t < flush && s.moves[k - skip].printTime <= t < s.moves[k].printTime ==>
            Emitted(out, t)
  {
    var pm, skipCount := k - 1, skip - 1;
    while skipCount != 0 && s.moves[pm].printTime > absStart
      invariant 0 <= skipCount < skip && pm == k - skip + skipCount
    {
      pm, skipCount := pm - 1, skipCount - 1;
    }
    ghost var first := pm;
    StartsInOrder(s, k - skip, first);
    out := [];
    while pm != k
      invariant first <= pm <= k
      invariant InOrder(out) && After(out, absStart) && Before(out, flush) && Before(out, s.moves[pm].printTime)
      invariant forall t: real :: absStart <= t < flush && s.moves[first].printTime <= t < s.moves[pm].printTime ==>
                Emitted(out, t)
      decreases k - pm
    {
      out := GenerateRange(s, pm, absStart, flush, out, s.moves[first].printTime);
      pm := pm + 1;
    }
  }

  /** One more move of a run of moves. */
  method GenerateRange(s: Kinematics, pm: nat, absStart: real, flush: real, out: seq<Range>, ghost from: real)
    returns (more: seq<Range>)
    requires Valid(s) && pm + 1 < |s.moves|
    requires InOrder(out) && After(out, absStart) && Before(out, flush) && Before(out, s.moves[pm].printTime)
    requires forall t: real :: absStart <= t < flush && from <= t < s.moves[pm].printTime ==> Emitted(out, t)
    ensures InOrder(more) && After(more, absStart) && Before(more, flush) && Before(more, s.moves[pm + 1].printTime)
    ensures forall t: real :: absStart <= t < flush && from <= t < s.moves[pm + 1].printTime ==> Emitted(more, t)
  {
    var m := s.moves[pm];
    var clip := Clip(m, absStart, flush);
    more := out + clip;
    assert End(m) == s.moves[pm + 1].printTime && m.moveT > 0.0;
    ClipBounds(m, absStart, flush);
    OrderAppend(out, clip, m.printTime);
    forall t: real | absStart <= t < flush && from <= t < s.moves[pm + 1].printTime
      ensures Emitted(more, t)
    {
      EmittedAppend(out, clip, t);
      ClipHolds(m, absStart, flush, t);
    }
  }

  /** The steps leading up to activity settle what was pending. */
  lemma LeadUpResolves(s: Kinematics, lastFlush: real, flush: real, k: nat, skip: nat, force: real, ranges: seq<Range>,
                       absStart: real, out: seq<Range>)
    requires Valid(s) && Walking(s, lastFlush, flush, k, skip, force, ranges) && 0 < skip && k < |s.moves|
    requires lastFlush <= absStart && force <= absStart
    requires absStart == lastFlush || absStart == force || absStart == s.moves[k].printTime - s.preActive
    requires InOrder(out) && After(out, absStart) && Before(out, flush) && Before(out, s.moves[k].printTime)
    requires forall t: real :: absStart <= t < flush && s.moves[k - skip].printTime <= t < s.moves[k].printTime ==>
             Emitted(out, t)
    ensures Resolved(s, lastFlush, flush, k, ranges + out)
  {
    BeforeLater(ranges, force, absStart);
    OrderAppend(ranges, out, absStart);
    LaterActive(s, k);
    forall t: real | Passed(s, k, lastFlush, flush, t)
      ensures Done(s, ranges + out, t)
    {
      EmittedAppend(ranges, out, t);
      if !Done(s, ranges, t) && t < absStart {
        BetweenUnwanted(s, k, force, Edge(s, k), t);
      }
    }
  }

  /** An active move: steps are generated for all of it that the flush reaches. */
  lemma PassActive(s: Kinematics, lastFlush: real, flush: real, k: nat, force: real, ranges: seq<Range>)
    requires Valid(s) && Resolved(s, lastFlush, flush, k, ranges) && k < |s.moves| && Active(s, k) &&
             SettledBefore(s, k, force)
    ensures var more := ranges + Clip(s.moves[k], lastFlush, flush);
            Resolved(s, lastFlush, flush, k + 1, more) &&
              Walking(s, lastFlush, flush, k + 1, 0, End(s.moves[k]) + s.postActive, more)
  {
    var m, clip := s.moves[k], Clip(s.moves[k], lastFlush, flush);
    EdgeNext(s, k);
    assert m.moveT > 0.0;
    ClipBounds(m, lastFlush, flush);
    OrderAppend(ranges, clip, m.printTime);
    BeforeLater(ranges, m.printTime, End(m));
    forall t: real | Passed(s, k + 1, lastFlush, flush, t)
      ensures Done(s, ranges + clip, t)
    {
      EmittedAppend(ranges, clip, t);
      ClipHolds(m, lastFlush, flush, t);
      assert t < m.printTime ==> Passed(s, k, lastFlush, flush, t);
    }
    forall j: nat | j < k && Active(s, j)
      ensures End(s.moves[j]) <= End(m)
    {
      StartsAscend(s.moves, j, k);
    }
  }

  /** The walk may stop at an inactive move that ends past every window the flush can reach. */
  lemma StopInactive(s: Kinematics, lastFlush: real, flush: real, k: nat, skip: nat, force: real, ranges: seq<Range>)
    requires Valid(s) && Walking(s, lastFlush, flush, k, skip, force, ranges) && flush + s.preActive <= Edge(s, k)
    ensures Resolved(s, lastFlush, flush, k, ranges)
  {
    LaterActive(s, k);
    forall t: real | Passed(s, k, lastFlush, flush, t)
      ensures Done(s, ranges, t)
    {
      if !Done(s, ranges, t) {
        BetweenUnwanted(s, k, force, Edge(s, k), t);
      }
    }
  }

  // ---------------------------------------------------------------------------
  // No steps are generated elsewhere
  // ---------------------------------------------------------------------------

  /** Wanted, or within a post window of time 0, which counts as activity. */
  ghost predicate Due(s: Kinematics, t: real) {
    Wanted(s, t) || t < s.postActive
  }

  ghost predicate Sound(s: Kinematics, ranges: seq<Range>) {
    forall t: real :: Emitted(ranges, t) ==> Due(s, t)
  }

  /** Steps past a flush, up to the end of the last post window, are due. */
  ghost predicate Owed(s: Kinematics, lastFlush: real, lastMove: real)
    requires s.moves != []
  {
    forall t: real :: lastFlush <= t < lastMove + s.postActive && s.moves[0].printTime <= t ==> Due(s, t)
  }

  /** Is an instant still ahead of the walk, or of the flush? */
  predicate Ahead(s: Kinematics, k: nat, lastFlush: real, flush: real, t: real)
    requires s.moves != [] && k <= |s.moves|
  {
    lastFlush <= t && s.moves[0].printTime <= t && (Edge(s, k) <= t || flush <= t)
  }

  ghost predicate Justified(s: Kinematics, lastFlush: real, flush: real, k: nat, force: real, ranges: seq<Range>) {
    s.moves != [] && k <= |s.moves| && Sound(s, ranges) && (k == 0 || Edge(s, k) <= flush + s.preActive) &&
    forall t: real :: Ahead(s, k, lastFlush, flush, t) && t < force ==> Due(s, t)
  }

  lemma SoundAppend(s: Kinematics, a: seq<Range>, b: seq<Range>)
    requires Sound(s, a) && Sound(s, b)
    ensures Sound(s, a + b)
  {
    forall t: real | Emitted(a + b, t)
      ensures Due(s, t)
    {
      EmittedAppend(a, b, t);
    }
  }

  lemma DueBy(s: Kinematics, k: nat, t: real)
    requires k < |s.moves| && WantedBy(s, k, t)
    ensures Due(s, t)
  {
  }

  lemma InactiveSound(s: Kinematics, lastFlush: real, flush: real, k: nat, force: real, ranges: seq<Range>,
                      absEnd: real)
    requires Valid(s) && Justified(s, lastFlush, flush, k, force, ranges) && k < |s.moves| && absEnd <= force
    ensures Sound(s, ranges + Clip(s.moves[k], lastFlush, absEnd))
  {
    var clip := Clip(s.moves[k], lastFlush, absEnd);
    StartsInOrder(s, 0, k);
    forall t: real | Emitted(clip, t)
      ensures Due(s, t)
    {
      ClipHolds(s.moves[k], lastFlush, absEnd, t);
      assert Ahead(s, k, lastFlush, flush, t);
    }
    SoundAppend(s, ranges, clip);
  }

  lemma LeadUpSound(s: Kinematics, k: nat, absStart: real, ranges: seq<Range>, out: seq<Range>)
    requires Valid(s) && k < |s.moves| && Active(s, k) && Sound(s, ranges) &&
             s.moves[k].printTime - s.preActive <= absStart
    requires After(out, absStart) && Before(out, s.moves[k].printTime)
    ensures Sound(s, ranges + out)
  {
    assert s.moves[k].moveT > 0.0;
    forall t: real | Emitted(out, t)
      ensures Due(s, t)
    {
      DueBy(s, k, t);
    }
    SoundAppend(s, ranges, out);
  }

  lemma ActiveSound(s: Kinematics, lastFlush: real, flush: real, k: nat, ranges: seq<Range>)
    requires Valid(s) && k < |s.moves| && Active(s, k) && Sound(s, ranges)
    ensures Sound(s, ranges + Clip(s.moves[k], lastFlush, flush))
  {
    var clip := Clip(s.moves[k], lastFlush, flush);
    forall t: real | Emitted(clip, t)
      ensures Due(s, t)
    {
      ClipHolds(s.moves[k], lastFlush, flush, t);
      DueBy(s, k, t);
    }
    SoundAppend(s, ranges, clip);
  }

  /** Past an active move that ends before the flush, its post window is due. */
  lemma ActiveJustified(s: Kinematics, lastFlush: real, flush: real, k: nat, ranges: seq<Range>)
    requires Valid(s) && k < |s.moves| && Active(s, k) && Sound(s, ranges) && End(s.moves[k]) < flush
    ensures Justified(s, lastFlush, flush, k + 1, End(s.moves[k]) + s.postActive, ranges)
  {
    EdgeNext(s, k);
    assert s.moves[k].moveT > 0.0;
    forall t: real | Ahead(s, k + 1, lastFlush, flush, t) && t < End(s.moves[k]) + s.postActive
      ensures Due(s, t)
    {
      DueBy(s, k, t);
    }
  }

  /** An active move that the flush cuts, or that lies ahead of it, leaves a post window at the flush. */
  lemma ActiveOwes(s: Kinematics, flush: real, k: nat)
    requires Valid(s) && k < |s.moves| && Active(s, k) && flush <= End(s.moves[k])
    requires k == 0 || s.moves[k].printTime <= flush + s.preActive
    ensures Known(s, flush, flush) && Owed(s, flush, flush)
  {
    forall t: real | flush <= t < flush + s.postActive && s.moves[0].printTime <= t
      ensures Due(s, t)
    {
      DueBy(s, k, t);
    }
  }

  lemma InactiveJustified(s: Kinematics, lastFlush: real, flush: real, k: nat, force: real, lastMove: real,
                          ranges: seq<Range>, more: seq<Range>)
    requires Valid(s) && Justified(s, lastFlush, flush, k, force, ranges) && k < |s.moves| && Sound(s, more)
    requires lastFlush <= flush && force == lastMove + s.postActive
    ensures End(s.moves[k]) < flush + s.preActive ==> Justified(s, lastFlush, flush, k + 1, force, more)
    ensures Owed(s, flush, lastMove)
  {
    EdgeNext(s, k);
    assert s.moves[k].moveT > 0.0;
    forall t: real | Ahead(s, k + 1, lastFlush, flush, t) && t < force
      ensures Due(s, t)
    {
      assert Ahead(s, k, lastFlush, flush, t);
    }
    forall t: real | flush <= t < force && s.moves[0].printTime <= t
      ensures Due(s, t)
    {
      assert Ahead(s, k, lastFlush, flush, t);
    }
  }

  lemma StopKnown(s: Kinematics, flush: real, k: nat, lastMove: real)
    requires Valid(s) && k <= |s.moves| && SettledBefore(s, k, lastMove + s.postActive) && flush <= Edge(s, k) &&
             lastMove <= flush
    ensures Known(s, flush, lastMove)
  {
    LaterActive(s, k);
  }

  lemma WalkStarts(s: Kinematics, lastFlush: real, lastMove: real, flush: real, k: nat)
    requires Valid(s) && Known(s, lastFlush, lastMove) && Owed(s, lastFlush, lastMove) && lastFlush <= flush
    requires k < |s.moves| && (k > 0 ==> End(s.moves[k - 1]) <= lastFlush)
    ensures lastMove <= flush && Walking(s, lastFlush, flush, k, 0, lastMove + s.postActive, [])
    ensures Justified(s, lastFlush, flush, k, lastMove + s.postActive, [])
  {
    if k > 0 {
      EdgeNext(s, k - 1);
      forall j: nat | j < k && Active(s, j)
        ensures End(s.moves[j]) <= lastMove
      {
        assert s.moves[j].moveT > 0.0;
        if j < k - 1 {
          StartsAscend(s.moves, j, k - 1);
          assert s.moves[k - 1].moveT > 0.0;
        }
      }
    }
  }

  // ---------------------------------------------------------------------------
  // The walk of one flush
  // ---------------------------------------------------------------------------

  /** The moves dropped from the front of the queue were over by the last flush. */
  ghost predicate FirstLeft(s: Kinematics, first: nat, lastFlush: real) {
    first < |s.moves| && (first > 0 ==> End(s.moves[first - 1]) <= lastFlush)
  }

  /** Every instant of the queue from the last flush up to this one has its steps, if it wants them. */
  ghost predicate Complete(s: Kinematics, lastFlush: real, flush: real, ranges: seq<Range>)
    requires s.moves != []
  {
    forall t: real :: lastFlush <= t < flush && s.moves[0].printTime <= t ==> Done(s, ranges, t)
  }

  lemma ResolvedComplete(s: Kinematics, lastFlush: real, flush: real, k: nat, ranges: seq<Range>)
    requires Resolved(s, lastFlush, flush, k, ranges) && flush <= Edge(s, k)
    ensures Complete(s, lastFlush, flush, ranges)
  {
    forall t: real | lastFlush <= t < flush && s.moves[0].printTime <= t
      ensures Done(s, ranges, t)
    {
      assert Passed(s, k, lastFlush, flush, t);
    }
  }

  /** Look at an active move. */
  method VisitActive(s: Kinematics, lastFlush: real, flush: real, k: nat, skip: nat, force: real, ranges: seq<Range>)
    returns (more: seq<Range>)
    requires Valid(s) && Walking(s, lastFlush, flush, k, skip, force, ranges) &&
             Justified(s, lastFlush, flush, k, force, ranges)
    requires k < |s.moves| && Active(s, k)
    ensures Resolved(s, lastFlush, flush, k + 1, more) && Sound(s, more)
    ensures Walking(s, lastFlush, flush, k + 1, 0, End(s.moves[k]) + s.postActive, more)
  {
    more := ranges;
    if skip > 0 && s.preActive != 0.0 {
      var absStart := s.moves[k].printTime - s.preActive;
      if absStart < lastFlush {
        absStart := lastFlush;
      }
      if absStart < force {
        absStart := force;
      }
      var out := LeadUp(s, k, skip, absStart, flush);
      LeadUpResolves(s, lastFlush, flush, k, skip, force, ranges, absStart, out);
      LeadUpSound(s, k, absStart, ranges, out);
      more := ranges + out;
    } else {
      NothingPending(s, lastFlush, flush, k, skip, force, ranges);
    }
    hide Resolved, Sound, Clip, Justified, Before, After, InOrder, Active, End;
    PassActive(s, lastFlush, flush, k, force, more);
    ActiveSound(s, lastFlush, flush, k, more);
    more := more + Clip(s.moves[k], lastFlush, flush);
  }

  /** Look at an inactive move. */
  method VisitInactive(s: Kinematics, lastFlush: real, flush: real, k: nat, skip: nat, force: real, ranges: seq<Range>)
    returns (more: seq<Range>, skipCount: nat)
    requires Valid(s) && Walking(s, lastFlush, flush, k, skip, force, ranges) &&
             Justified(s, lastFlush, flush, k, force, ranges)
    requires k < |s.moves| && !Active(s, k)
    ensures Walking(s, lastFlush, flush, k + 1, skipCount, force, more) && Sound(s, more) && skipCount <= skip + 1
  {
    PassInactive(s, lastFlush, flush, k, skip, force, ranges);
    if s.moves[k].printTime < force {
      var absEnd := force;
      if absEnd > flush {
        absEnd := flush;
      }
      InactiveSound(s, lastFlush, flush, k, force, ranges, absEnd);
      more, skipCount := ranges + Clip(s.moves[k], lastFlush, absEnd), 1;
    } else {
      more, skipCount := ranges, skip + 1;
    }
  }

  /** Step past the moves that ended by the last flush. */
  method SkipFinished(s: Kinematics, first: nat, lastFlush: real, ghost flush: real) returns (k: nat)
    requires Valid(s) && lastFlush <= flush && flush + s.preActive < End(s.moves[|s.moves| - 1])
    requires FirstLeft(s, first, lastFlush)
    ensures first <= k && FirstLeft(s, k, lastFlush) && lastFlush < End(s.moves[k])
  {
    hide Active, Contiguous, Positive;
    k := first;
    while lastFlush >= End(s.moves[k])
      invariant first <= k && FirstLeft(s, k, lastFlush)
      decreases |s.moves| - k
    {
      k := k + 1;
    }
  }

  /** Generate steps from the last flush to this one. Moves before the first one left in the queue are not looked at. */
  method Walk(s: Kinematics, first: nat, lastFlush: real, lastMove: real, flush: real)
    returns (ranges: seq<Range>, moveTime: real)
    requires Valid(s) && lastFlush <= flush && flush + s.preActive < End(s.moves[|s.moves| - 1])
    requires FirstLeft(s, first, lastFlush)
    requires Known(s, lastFlush, lastMove) && Owed(s, lastFlush, lastMove)
    ensures Bounded(ranges, lastFlush, flush) && Sound(s, ranges) && Complete(s, lastFlush, flush, ranges)
    ensures Known(s, flush, moveTime) && Owed(s, flush, moveTime)
  {
    hide Walking, Justified, Known, Owed, Complete, Resolved, Sound, Valid, Active, CheckActive, Clip;
    var k := SkipFinished(s, first, lastFlush, flush);
    WalkStarts(s, lastFlush, lastMove, flush, k);
    ranges, moveTime := [], lastMove;
    var force, skip: nat := lastMove + s.postActive, 0;
    while true
      invariant first <= k < |s.moves| && skip <= k - first && force == moveTime + s.postActive && moveTime <= flush
      invariant Walking(s, lastFlush, flush, k, skip, force, ranges) && Justified(s, lastFlush, flush, k, force, ranges)
      decreases |s.moves| - k
    {
      ghost var was := ranges;
      if Active(s, k) {
        ranges := VisitActive(s, lastFlush, flush, k, skip, force, ranges);
        if End(s.moves[k]) >= flush {
          StopsActive(s, lastFlush, flush, k, force, was, ranges);
          return ranges, flush;
        }
        ActiveJustified(s, lastFlush, flush, k, ranges);
        NotLast(s, k);
        skip, moveTime := 0, End(s.moves[k]);
        force := moveTime + s.postActive;
      } else {
        ranges, skip := VisitInactive(s, lastFlush, flush, k, skip, force, ranges);
        InactiveJustified(s, lastFlush, flush, k, force, moveTime, was, ranges);
        if flush + s.preActive <= End(s.moves[k]) {
          StopsInactive(s, lastFlush, flush, k, skip, moveTime, ranges);
          return ranges, moveTime;
        }
      }
      k := k + 1;
    }
  }

  lemma NotLast(s: Kinematics, k: nat)
    requires Valid(s) && k < |s.moves| && Active(s, k)
    ensures k + 1 < |s.moves|
  {
  }

  lemma StopsActive(s: Kinematics, lastFlush: real, flush: real, k: nat, force: real, was: seq<Range>,
                    ranges: seq<Range>)
    requires Valid(s) && Justified(s, lastFlush, flush, k, force, was) && Resolved(s, lastFlush, flush, k + 1, ranges)
    requires k < |s.moves| && Active(s, k) && End(s.moves[k]) >= flush
    ensures Complete(s, lastFlush, flush, ranges) && Bounded(ranges, lastFlush, flush)
    ensures Known(s, flush, flush) && Owed(s, flush, flush)
  {
    EdgeNext(s, k);
    ResolvedComplete(s, lastFlush, flush, k + 1, ranges);
    ActiveOwes(s, flush, k);
  }

  lemma StopsInactive(s: Kinematics, lastFlush: real, flush: real, k: nat, skip: nat, moveTime: real,
                      ranges: seq<Range>)
    requires Valid(s) && k < |s.moves| && flush + s.preActive <= End(s.moves[k]) && moveTime <= flush
    requires Walking(s, lastFlush, flush, k + 1, skip, moveTime + s.postActive, ranges)
    ensures Complete(s, lastFlush, flush, ranges) && Bounded(ranges, lastFlush, flush) && Known(s, flush, moveTime)
  {
    EdgeNext(s, k);
    StopInactive(s, lastFlush, flush, k + 1, skip, moveTime + s.postActive, ranges);
    ResolvedComplete(s, lastFlush, flush, k + 1, ranges);
    StopKnown(s, flush, k + 1, moveTime);
  }

  // ---------------------------------------------------------------------------
  // Runs of flushes
  // ---------------------------------------------------------------------------

  lemma FlushesJoin(s: Kinematics, before: real, lastFlush: real, flush: real, earlier: seq<Range>, more: seq<Range>)
    requires s.moves != [] && before <= lastFlush <= flush
    requires Bounded(earlier, before, lastFlush) && Complete(s, before, lastFlush, earlier) && Sound(s, earlier)
    requires Bounded(more, lastFlush, flush) && Complete(s, lastFlush, flush, more) && Sound(s, more)
    ensures Bounded(earlier + more, before, flush) && Complete(s, before, flush, earlier + more) &&
            Sound(s, earlier + more)
  {
    OrderAppend(earlier, more, lastFlush);
    SoundAppend(s, earlier, more);
    forall t: real | before <= t < flush && s.moves[0].printTime <= t
      ensures Done(s, earlier + more, t)
    {
      EmittedAppend(earlier, more, t);
      assert t < lastFlush ==> Done(s, earlier, t);
      assert t >= lastFlush ==> Done(s, more, t);
    }
  }

  /** Past the first post window, steps are generated at exactly the instants that want them. */
  lemma ExactlyWanted(s: Kinematics, flush: real, ranges: seq<Range>, t: real)
    requires s.moves != [] && Complete(s, 0.0, flush, ranges) && Sound(s, ranges)
    requires 0.0 <= t < flush && s.moves[0].printTime <= t && s.postActive <= t
    ensures Emitted(ranges, t) <==> Wanted(s, t)
  {
    assert Done(s, ranges, t);
  }

  /** Steps are generated at every instant of a move that displaces a flagged axis. */
  lemma DisplacedStepped(s: Kinematics, before: real, flush: real, ranges: seq<Range>, k: nat, axis: Shaper.Axis,
                         time: real, t: real)
    requires Valid(s) && Complete(s, before, flush, ranges) && before <= t < flush
    requires k < |s.moves| && Flagged(s.flags, axis) && Displaced(s.moves[k], axis, time)
    requires s.moves[k].printTime <= t < End(s.moves[k])
    ensures Emitted(ranges, t)
  {
    StartsInOrder(s, 0, k);
    DisplacedWanted(s, k, axis, time, t);
    assert Done(s, ranges, t);
  }

  /** That holds for every move, flagged axis and instant up to a flush. */
  ghost predicate MovementStepped(s: Kinematics, flush: real, ranges: seq<Range>) {
    forall k, axis, time, t: real ::
      (&& 0 <= k < |s.moves| && Flagged(s.flags, axis) && Displaced(s.moves[k], axis, time)
       && s.moves[k].printTime <= t < End(s.moves[k]) && 0.0 <= t < flush) ==>
      Emitted(ranges, t)
  }

  lemma AllMovementStepped(s: Kinematics, flush: real, ranges: seq<Range>)
    requires Valid(s) && Complete(s, 0.0, flush, ranges)
    ensures MovementStepped(s, flush, ranges)
  {
    hide Valid, Complete, Emitted, Displaced;
    forall k, axis, time, t: real | 0 <= k < |s.moves| && Flagged(s.flags, axis) &&
      Displaced(s.moves[k], axis, time) && s.moves[k].printTime <= t < End(s.moves[k]) && 0.0 <= t < flush
      ensures Emitted(ranges, t)
    {
      DisplacedStepped(s, 0.0, flush, ranges, k, axis, time, t);
    }
  }

  /** While no steps are generated, no flagged axis moves: its position is the same at both ends of any such stretch. */
  lemma UnsteppedStands(s: Kinematics, before: real, flush: real, ranges: seq<Range>, i: nat, j: nat,
                        axis: Shaper.Axis, t: real, u: real)
    requires Valid(s) && Continuous(s.moves) && Complete(s, before, flush, ranges) && before <= t <= u <= flush
    requires i <= j < |s.moves| && Flagged(s.flags, axis)
    requires Shaper.Within(s.moves[i], t) && Shaper.Within(s.moves[j], u)
    requires forall v: real :: t <= v < u ==> !Emitted(ranges, v)
    ensures PositionAt(s, i, axis, t) == PositionAt(s, j, axis, u)
  {
    StartsInOrder(s, 0, i);
    forall v: real | t <= v < u
      ensures !Wanted(s, v)
    {
      assert Done(s, ranges, v);
    }
    StandsAcross(s, i, j, axis, t, u);
  }

  // ---------------------------------------------------------------------------
  // Changes to the queue between flushes
  // ---------------------------------------------------------------------------

  /** The queue with moves added before a new tail sentinel. */
  function Extended(s: Kinematics, more: seq<Move>, tail: Move): Kinematics
    requires s.moves != []
  {
    s.(moves := s.moves[..|s.moves| - 1] + more + [tail])
  }

  /** No added move is active so soon that its pre window reaches back before a time. */
  ghost predicate InTime(s: Kinematics, more: seq<Move>, time: real) {
    forall k :: 0 <= k < |more| && CheckActive(s.flags, more[k]) ==> time <= more[k].printTime - s.preActive
  }

  /** An instant is wanted after an extension if it was before; one before the time only then. */
  lemma ExtendedWanted(s: Kinematics, more: seq<Move>, tail: Move, time: real, t: real)
    requires Valid(s) && Valid(Extended(s, more, tail)) && InTime(s, more, time)
    ensures Wanted(s, t) ==> Wanted(Extended(s, more, tail), t)
    ensures t < time && Wanted(Extended(s, more, tail), t) ==> Wanted(s, t)
  {
    var s', n := Extended(s, more, tail), |s.moves| - 1;
    if Wanted(s, t) {
      var k: nat :| k < |s.moves| && WantedBy(s, k, t);
      assert k < n && s'.moves[k] == s.moves[k];
      assert WantedBy(s', k, t);
    }
    if t < time && Wanted(s', t) {
      var k: nat :| k < |s'.moves| && WantedBy(s', k, t);
      if k < n { assert WantedBy(s, k, t); }
    }
  }

  lemma ExtendedKnown(s: Kinematics, more: seq<Move>, tail: Move, lastFlush: real, lastMove: real)
    requires Valid(s) && Valid(Extended(s, more, tail)) && InTime(s, more, lastFlush) && Known(s, lastFlush, lastMove)
    ensures Known(Extended(s, more, tail), lastFlush, lastMove)
  {
    var s', n := Extended(s, more, tail), |s.moves| - 1;
    forall j: nat | j < |s'.moves| && Active(s', j) && s'.moves[j].printTime < lastFlush
      ensures End(s'.moves[j]) <= lastMove || lastFlush <= lastMove
    {
      if j < n { assert Active(s, j); }
    }
  }

  /** An extension in time leaves all that was generated in order, complete and sound. */
  lemma ExtensionKeeps(s: Kinematics, more: seq<Move>, tail: Move, lastFlush: real, lastMove: real, ranges: seq<Range>)
    requires Valid(s) && |s.moves| > 1 && Valid(Extended(s, more, tail)) && InTime(s, more, lastFlush)
    requires Owed(s, lastFlush, lastMove) && Complete(s, 0.0, lastFlush, ranges) && Sound(s, ranges)
    ensures var s' := Extended(s, more, tail);
            Owed(s', lastFlush, lastMove) && Complete(s', 0.0, lastFlush, ranges) && Sound(s', ranges)
  {
    var s' := Extended(s, more, tail);
    assert s'.moves[0] == s.moves[0];
    hide Wanted, Emitted, Valid;
    forall t: real
      ensures Due(s, t) ==> Due(s', t)
      ensures t < lastFlush && Wanted(s', t) ==> Wanted(s, t)
    {
      ExtendedWanted(s, more, tail, lastFlush, t);
    }
    forall t: real | 0.0 <= t < lastFlush && s'.moves[0].printTime <= t
      ensures Done(s', ranges, t)
    {
      assert Done(s, ranges, t);
    }
  }

  /** Ranges of earlier queues come before a time, and those of this one after it. */
  ghost predicate Later(earlier: seq<Range>, ranges: seq<Range>, begun: real, flush: real) {
    InOrder(earlier) && After(earlier, 0.0) && Before(earlier, begun) && After(ranges, begun) && 0.0 <= begun <= flush
  }

  /** With its activity over, all that a queue will ever want has been generated. */
  lemma SettledDone(s: Kinematics, lastFlush: real, ranges: seq<Range>, t: real)
    requires Valid(s) && SettledBefore(s, |s.moves|, lastFlush)
    requires Bounded(ranges, 0.0, lastFlush) && Complete(s, 0.0, lastFlush, ranges) && Sound(s, ranges)
    requires 0.0 <= t && s.moves[0].printTime <= t && s.postActive <= t
    ensures Emitted(ranges, t) <==> Wanted(s, t)
  {
    if t < lastFlush {
      ExactlyWanted(s, lastFlush, ranges, t);
    } else {
      SettledUnwanted(s, lastFlush, t);
    }
  }

  lemma SettledUnwanted(s: Kinematics, lastFlush: real, t: real)
    requires SettledBefore(s, |s.moves|, lastFlush) && lastFlush <= t
    ensures !Wanted(s, t)
  {
  }

  lemma NothingYet(s: Kinematics, flush: real)
    requires flush >= 0.0
    ensures Bounded([], 0.0, flush) && Sound(s, [])
  {
  }

  lemma AllEarlier(earlier: seq<Range>, ranges: seq<Range>, begun: real, flush: real)
    requires Later(earlier, ranges, begun, flush) && Bounded(ranges, 0.0, flush)
    ensures Later(earlier + ranges, [], flush, flush)
  {
    OrderAppend(earlier, ranges, begun);
  }

  lemma LaterMore(earlier: seq<Range>, ranges: seq<Range>, more: seq<Range>, begun: real, last: real, flush: real)
    requires Later(earlier, ranges, begun, last) && Bounded(more, last, flush) && last <= flush
    requires InOrder(ranges + more)
    ensures Later(earlier, ranges + more, begun, flush) && InOrder(earlier + (ranges + more))
  {
    OrderAppend(earlier, ranges + more, begun);
  }

  /** A new queue that wants nothing before the last flush starts with nothing owed. */
  lemma RestartKeeps(s: Kinematics, s': Kinematics, lastFlush: real, lastMove: real)
    requires Valid(s) && Valid(s') && s'.preActive == s.preActive && s'.postActive == s.postActive
    requires SettledBefore(s, |s.moves|, lastFlush) && s.moves[0].printTime <= s'.moves[0].printTime
    requires InTime(s', s'.moves, lastFlush) && Known(s, lastFlush, lastMove) && Owed(s, lastFlush, lastMove)
    ensures Known(s', lastFlush, lastMove) && Owed(s', lastFlush, lastMove) && Complete(s', 0.0, lastFlush, [])
  {
    forall t: real | lastFlush <= t < lastMove + s.postActive && s'.moves[0].printTime <= t
      ensures Due(s', t)
    {
      assert Due(s, t);
      SettledUnwanted(s, lastFlush, t);
    }
  }

  /** A stepper, its queue with all moves added since it was last empty, and the ranges it has generated steps for. */
  class Stepper {
    var s: Kinematics
    /** The ranges of queues that were emptied since, and when the last of them was. */
    ghost var earlier: seq<Range>
    ghost var begun: real
    /** How many moves have been dropped from the front of the queue. */
    var first: nat
    var lastFlushTime: real
    var lastMoveTime: real
    var ranges: seq<Range>

    ghost predicate Ok()
      reads this
    {
      Valid(s) && FirstLeft(s, first, lastFlushTime) && lastFlushTime >= 0.0 &&
      Known(s, lastFlushTime, lastMoveTime) && Owed(s, lastFlushTime, lastMoveTime) &&
      Bounded(ranges, 0.0, lastFlushTime) && Complete(s, 0.0, lastFlushTime, ranges) && Sound(s, ranges) &&
      Later(earlier, ranges, begun, lastFlushTime)
    }

    constructor (s: Kinematics)
      requires Valid(s)
      ensures Ok() && this.s == s && lastFlushTime == 0.0 && ranges == []
    {
      this.s, first, lastFlushTime, lastMoveTime, ranges := s, 0, 0.0, 0.0, [];
      earlier, begun := [], 0.0;
    }

    /** Over any run of flushes and changes to the queue, the ranges are in order, complete and sound. */
    method GenerateSteps(flushTime: real)
      requires Ok() && lastFlushTime <= flushTime && flushTime + s.preActive < End(s.moves[|s.moves| - 1])
      modifies `lastFlushTime, `lastMoveTime, `ranges
      ensures Ok() && lastFlushTime == flushTime && old(ranges) <= ranges
      ensures InOrder(earlier + ranges) && Complete(s, 0.0, flushTime, ranges) && Sound(s, ranges)
      ensures forall t: real :: 0.0 <= t < flushTime && s.moves[0].printTime <= t && s.postActive <= t ==>
                (Emitted(ranges, t) <==> Wanted(s, t))
      ensures MovementStepped(s, flushTime, ranges)
    {
      hide Valid, Known, Owed, Complete, Sound, Emitted, Wanted, MovementStepped;
      var last := lastFlushTime;
      lastFlushTime := flushTime;
      var more, moveTime := Walk(s, first, last, lastMoveTime, flushTime);
      FlushesJoin(s, 0.0, last, flushTime, ranges, more);
      LaterMore(earlier, ranges, more, begun, last, flushTime);
      lastMoveTime := moveTime;
      ranges := ranges + more;
      forall t: real | 0.0 <= t < flushTime && s.moves[0].printTime <= t && s.postActive <= t
        ensures Emitted(ranges, t) <==> Wanted(s, t)
      {
        ExactlyWanted(s, flushTime, ranges, t);
      }
      AllMovementStepped(s, flushTime, ranges);
    }

    /** Moves join the queue, none active so soon that steps before the last flush would have been wanted. */
    method Extend(more: seq<Move>, tail: Move)
      requires Ok() && |s.moves| > 1
      requires Valid(Extended(s, more, tail)) && InTime(s, more, lastFlushTime)
      modifies `s
      ensures Ok() && s == Extended(old(s), more, tail)
    {
      ExtendedKnown(s, more, tail, lastFlushTime, lastMoveTime);
      ExtensionKeeps(s, more, tail, lastFlushTime, lastMoveTime, ranges);
      assert forall k :: 0 <= k < |s.moves| - 1 ==> Extended(s, more, tail).moves[k] == s.moves[k];
      hide Valid, Known, Owed, Complete, Sound, Bounded;
      s := Extended(s, more, tail);
    }

    /**
     * Moves join a queue whose activity is over, and which may have been emptied: its first move need not start
     * where the queue ended. All that the queue before wanted has been generated.
     */
    method Restart(moves: seq<Move>)
      requires Ok() && SettledBefore(s, |s.moves|, lastFlushTime)
      requires Valid(s.(moves := moves)) && InTime(s, moves, lastFlushTime)
      requires moves != [] && s.moves[0].printTime <= moves[0].printTime
      modifies `s, `first, `ranges, `earlier, `begun
      ensures Ok() && s == old(s).(moves := moves) && first == 0
      ensures ranges == [] && earlier == old(earlier + ranges)
      ensures forall t: real :: 0.0 <= t && old(s).moves[0].printTime <= t && s.postActive <= t ==>
                (Emitted(old(ranges), t) <==> Wanted(old(s), t))
    {
      hide Valid, Known, Owed, Complete, Sound, Emitted, Wanted, SettledBefore, Later, Bounded;
      ghost var s' := s.(moves := moves);
      forall t: real | 0.0 <= t && s.moves[0].printTime <= t && s.postActive <= t
        ensures Emitted(ranges, t) <==> Wanted(s, t)
      {
        SettledDone(s, lastFlushTime, ranges, t);
      }
      RestartKeeps(s, s', lastFlushTime, lastMoveTime);
      NothingYet(s', lastFlushTime);
      AllEarlier(earlier, ranges, begun, lastFlushTime);
      earlier, begun := earlier + ranges, lastFlushTime;
      s, first, ranges := s.(moves := moves), 0, [];
    }

    /** Moves that are over leave the front of the queue. */
    method Finalize(time: real)
      requires Ok() && time <= lastFlushTime
      modifies `first
      ensures Ok() && first >= old(first)
      ensures first < |s.moves| - 1 ==> End(s.moves[first]) > time
    {
      hide Valid, Known, Owed, Complete, Sound, Bounded;
      while first < |s.moves| - 1 && End(s.moves[first]) <= time
        invariant Ok() && first >= old(first)
        decreases |s.moves| - first
      {
        first := first + 1;
      }
    }
  }
}
