/** The queue of moves with trapezoidal velocity: contiguous in time, each with constant acceleration. */
module TrapQ {
  const MAX_NULL_MOVE: real := 1.0
  const NEVER_TIME: real := 9999999999999999.9

  datatype Coord = Coord(x: real, y: real, z: real)

  datatype Move = Move(printTime: real, moveT: real, startV: real, halfAccel: real, startPos: Coord, axesR: Coord)

  const ORIGIN: Coord := Coord(0.0, 0.0, 0.0)

  function End(m: Move): real {
    m.printTime + m.moveT
  }

  /** Distance moved at a time in a move. */
  function Distance(m: Move, time: real): real {
    (m.startV + m.halfAccel * time) * time
  }

  function CoordAt(m: Move, time: real): Coord {
    var d := Distance(m, time);
    Coord(m.startPos.x + m.axesR.x * d, m.startPos.y + m.axesR.y * d, m.startPos.z + m.axesR.z * d)
  }

  /** Each move begins when the one before it ends. */
  ghost predicate Contiguous(moves: seq<Move>) {
    forall i :: 0 <= i < |moves| - 1 ==> End(moves[i]) == moves[i + 1].printTime
  }

  ghost predicate Positive(moves: seq<Move>) {
    forall i :: 0 <= i < |moves| ==> moves[i].moveT > 0.0
  }

  function EndPos(m: Move): Coord {
    CoordAt(m, m.moveT)
  }

  /** Does a move begin where another ends? */
  predicate Joins(prev: Move, m: Move) {
    EndPos(prev) == m.startPos
  }

  /** Each move begins where the one before it ends. */
  ghost predicate Continuous(moves: seq<Move>) {
    forall i :: 0 <= i < |moves| - 1 ==> Joins(moves[i], moves[i + 1])
  }

  /** Later moves start later. */
  lemma {:induction false} StartsAscend(moves: seq<Move>, i: nat, j: nat)
    requires Contiguous(moves) && Positive(moves) && i < j < |moves|
    ensures End(moves[i]) <= moves[j].printTime
    decreases j
  {
    assert End(moves[j - 1]) == moves[j].printTime;
    if i < j - 1 {
      StartsAscend(moves, i, j - 1);
      assert moves[j - 1].moveT > 0.0;
    }
  }

  // ---------------------------------------------------------------------------
  // Adding moves
  // ---------------------------------------------------------------------------

  /** The move that fills the time before m: at most MAX_NULL_MOVE long when the move before is at time 0. */
  function NullMove(prev: Move, m: Move): Move {
    var start := if prev.printTime == 0.0 && m.printTime > MAX_NULL_MOVE then m.printTime - MAX_NULL_MOVE
      else End(prev);
    Move(start, m.printTime - start, 0.0, 0.0, m.startPos, ORIGIN)
  }

  /** The head sentinel, from which the first move is measured. */
  const HEAD: Move := Move(0.0, 0.0, 0.0, 0.0, ORIGIN, ORIGIN)

  function Last(moves: seq<Move>): Move {
    if moves == [] then HEAD else moves[|moves| - 1]
  }

  function AddMove(moves: seq<Move>, m: Move): seq<Move> {
    if End(Last(moves)) < m.printTime then moves + [NullMove(Last(moves), m), m] else moves + [m]
  }

  /** A real move at time 0 is taken for the head sentinel, and its gap is then filled wrongly. */
  predicate MistakenForHead(prev: Move, m: Move) {
    prev.printTime == 0.0 && End(prev) < m.printTime && m.printTime > MAX_NULL_MOVE &&
      End(prev) != m.printTime - MAX_NULL_MOVE
  }

  /** May m follow these moves without a break in time? */
  predicate Follows(moves: seq<Move>, m: Move) {
    moves == [] || (End(Last(moves)) <= m.printTime && !MistakenForHead(Last(moves), m))
  }

  lemma ContiguousAppend(moves: seq<Move>, m: Move)
    ensures Contiguous(moves + [m]) <==> Contiguous(moves) && (moves == [] || End(Last(moves)) == m.printTime)
  {
    var more := moves + [m];
    if Contiguous(more) {
      forall i | 0 <= i < |moves| - 1
        ensures End(moves[i]) == moves[i + 1].printTime
      {
        assert End(more[i]) == more[i + 1].printTime;
      }
      if moves != [] { assert End(more[|moves| - 1]) == more[|moves|].printTime; }
    }
  }

  /** Adding a move keeps the queue contiguous exactly when it may follow. */
  lemma AddMoveContiguous(moves: seq<Move>, m: Move)
    ensures Contiguous(AddMove(moves, m)) <==> Contiguous(moves) && Follows(moves, m)
  {
    var prev := Last(moves);
    if End(prev) < m.printTime {
      var filler := NullMove(prev, m);
      assert moves + [filler, m] == (moves + [filler]) + [m];
      ContiguousAppend(moves, filler);
      ContiguousAppend(moves + [filler], m);
    } else {
      ContiguousAppend(moves, m);
    }
  }

  lemma ContinuousAppend(moves: seq<Move>, m: Move)
    ensures Continuous(moves + [m]) <==> Continuous(moves) && (moves == [] || Joins(Last(moves), m))
  {
    hide Joins;
    var more := moves + [m];
    if Continuous(more) {
      forall i | 0 <= i < |moves| - 1
        ensures Joins(moves[i], moves[i + 1])
      {
        assert Joins(more[i], more[i + 1]);
      }
      if moves != [] { assert Joins(more[|moves| - 1], more[|moves|]); }
    }
  }

  /** A filler rests where the move after it starts. */
  lemma NullMoveRests(prev: Move, m: Move)
    ensures Joins(NullMove(prev, m), m) && NullMove(prev, m).startPos == m.startPos
  {
  }

  /** Adding a move keeps positions joined exactly when it starts where the last move ends, filler or not. */
  lemma AddMoveContinuous(moves: seq<Move>, m: Move)
    ensures Continuous(AddMove(moves, m)) <==> Continuous(moves) && (moves == [] || Joins(Last(moves), m))
  {
    var prev := Last(moves);
    if End(prev) < m.printTime {
      var filler := NullMove(prev, m);
      assert moves + [filler, m] == (moves + [filler]) + [m];
      ContinuousAppend(moves, filler);
      ContinuousAppend(moves + [filler], m);
      NullMoveRests(prev, m);
    } else {
      ContinuousAppend(moves, m);
    }
  }

  /** The queue with one move more, and what it keeps. */
  lemma AddMoveKeeps(moves: seq<Move>, m: Move)
    ensures AddMove(moves, m)
         == if End(Last(moves)) < m.printTime then moves + [NullMove(Last(moves), m), m] else moves + [m]
    ensures Last(AddMove(moves, m)) == m
    ensures Contiguous(AddMove(moves, m)) <==> Contiguous(moves) && Follows(moves, m)
    ensures Continuous(AddMove(moves, m)) <==> Continuous(moves) && (moves == [] || Joins(Last(moves), m))
  {
    hide Contiguous, Continuous, Joins, NullMove, Follows;
    AddMoveContiguous(moves, m);
    AddMoveContinuous(moves, m);
    AddMoveLast(moves, m);
  }

  /** A move of one second at time 0, then one at five seconds: the filler starts at four, and leaves a gap. */
  lemma GapLeftOpen(m: Move)
    requires m.printTime == 5.0
    ensures var moves := [Move(0.0, 1.0, 0.0, 0.0, ORIGIN, ORIGIN)];
            Contiguous(moves) && End(Last(moves)) < m.printTime && !Contiguous(AddMove(moves, m))
  {
    var moves := [Move(0.0, 1.0, 0.0, 0.0, ORIGIN, ORIGIN)];
    assert MistakenForHead(Last(moves), m);
    AddMoveContiguous(moves, m);
  }

  /** Queued moves are never of no or negative length, if the added ones are not. */
  lemma AddMovePositive(moves: seq<Move>, m: Move)
    requires Positive(moves) && m.moveT > 0.0
    ensures Positive(AddMove(moves, m))
  {
  }

  lemma AddMoveLast(moves: seq<Move>, m: Move)
    ensures Last(AddMove(moves, m)) == m
  {
  }

  // ---------------------------------------------------------------------------
  // The phases of one trapezoid
  // ---------------------------------------------------------------------------

  datatype Trapezoid = Trapezoid(printTime: real, accelT: real, cruiseT: real, decelT: real,
                                 startPos: Coord, axesR: Coord, startV: real, cruiseV: real, accel: real)

  function Accelerating(p: Trapezoid): Move {
    Move(p.printTime, p.accelT, p.startV, 0.5 * p.accel, p.startPos, p.axesR)
  }

  function CruiseStart(p: Trapezoid): (real, Coord) {
    if p.accelT != 0.0 then (p.printTime + p.accelT, CoordAt(Accelerating(p), p.accelT)) else (p.printTime, p.startPos)
  }

  function Cruising(p: Trapezoid): Move {
    Move(CruiseStart(p).0, p.cruiseT, p.cruiseV, 0.0, CruiseStart(p).1, p.axesR)
  }

  function DecelStart(p: Trapezoid): (real, Coord) {
    if p.cruiseT != 0.0 then (CruiseStart(p).0 + p.cruiseT, CoordAt(Cruising(p), p.cruiseT)) else CruiseStart(p)
  }

  function Decelerating(p: Trapezoid): Move {
    Move(DecelStart(p).0, p.decelT, p.cruiseV, -0.5 * p.accel, DecelStart(p).1, p.axesR)
  }

  /** The velocity at a time in a move. */
  function Velocity(m: Move, time: real): real {
    m.startV + 2.0 * m.halfAccel * time
  }

  /** The distance changes at that velocity, up to a term in the square of the change of time. */
  lemma VelocityIsSlope(m: Move, time: real, dt: real)
    ensures Distance(m, time + dt) - Distance(m, time) == Velocity(m, time) * dt + m.halfAccel * dt * dt
  {
  }

  predicate SpeedsJoin(prev: Move, m: Move) {
    Velocity(prev, prev.moveT) == m.startV
  }

  /** Acceleration ends at the cruising velocity. */
  predicate ReachesCruise(p: Trapezoid) {
    p.startV + p.accel * p.accelT == p.cruiseV
  }

  /** Acceleration joins the next phase in velocity exactly when it reaches it; cruising always joins. */
  lemma PhaseSpeeds(p: Trapezoid)
    ensures SpeedsJoin(Accelerating(p), Cruising(p)) <==> ReachesCruise(p)
    ensures SpeedsJoin(Accelerating(p), Decelerating(p)) <==> ReachesCruise(p)
    ensures SpeedsJoin(Cruising(p), Decelerating(p))
    ensures Velocity(Decelerating(p), p.decelT) == p.cruiseV - p.accel * p.decelT
  {
    hide CruiseStart, DecelStart;
  }

  /** Each phase goes as far as its mean velocity takes it. */
  lemma MeanVelocity(m: Move)
    ensures Distance(m, m.moveT) == (Velocity(m, 0.0) + Velocity(m, m.moveT)) / 2.0 * m.moveT
  {
  }

  /** The phases of a trapezoid that take any time. */
  function Phases(p: Trapezoid): seq<Move> {
    (if p.accelT != 0.0 then [Accelerating(p)] else []) +
    (if p.cruiseT != 0.0 then [Cruising(p)] else []) +
    (if p.decelT != 0.0 then [Decelerating(p)] else [])
  }

  /** The phases follow each other in time and space, from the given start. */
  lemma PhasesJoined(p: Trapezoid)
    ensures Contiguous(Phases(p)) && Continuous(Phases(p))
    ensures Phases(p) != [] ==> Phases(p)[0].printTime == p.printTime && Phases(p)[0].startPos == p.startPos
  {
    hide CoordAt;
  }

  function AddAll(moves: seq<Move>, more: seq<Move>): seq<Move> {
    if more == [] then moves else AddMove(AddAll(moves, more[..|more| - 1]), more[|more| - 1])
  }

  /** Phases that follow each other need no filler between them: the first is added, the rest join on. */
  lemma {:induction false} AddAllJoins(moves: seq<Move>, more: seq<Move>)
    requires more != [] && Contiguous(more)
    ensures AddAll(moves, more) == AddMove(moves, more[0]) + more[1..]
    ensures Last(AddAll(moves, more)) == more[|more| - 1]
  {
    var n := |more| - 1;
    AddMoveLast(AddAll(moves, more[..n]), more[n]);
    if n == 0 {
      assert more[..0] == [] && more[1..] == [];
    } else {
      ContiguousPrefix(more, n);
      AddAllJoins(moves, more[..n]);
      assert End(more[n - 1]) == more[n].printTime;
      assert more[..n][1..] + [more[n]] == more[1..];
    }
  }

  lemma ContiguousPrefix(moves: seq<Move>, n: nat)
    requires Contiguous(moves) && n <= |moves|
    ensures Contiguous(moves[..n])
  {
    var p := moves[..n];
    forall i | 0 <= i < |p| - 1
      ensures End(p[i]) == p[i + 1].printTime
    {
      assert End(moves[i]) == moves[i + 1].printTime;
    }
  }

  /** Adding phases keeps the queue contiguous exactly when the first of them may follow. */
  lemma {:induction false} AddAllContiguous(moves: seq<Move>, more: seq<Move>)
    requires Contiguous(more)
    ensures Contiguous(AddAll(moves, more)) <==> Contiguous(moves) && (more == [] || Follows(moves, more[0]))
  {
    if more != [] {
      var first := AddMove(moves, more[0]);
      AddAllJoins(moves, more);
      AddMoveContiguous(moves, more[0]);
      AddMoveLast(moves, more[0]);
      ContiguousJoin(first, more);
    }
  }

  /** A queue that ends in the first of some contiguous moves, extended by the rest of them. */
  lemma ContiguousJoin(front: seq<Move>, more: seq<Move>)
    requires front != [] && more != [] && Last(front) == more[0] && Contiguous(more)
    ensures Contiguous(front + more[1..]) <==> Contiguous(front)
  {
    var all, n := front + more[1..], |front|;
    if Contiguous(all) {
      ContiguousPrefix(all, n);
      assert all[..n] == front;
    }
    if Contiguous(front) {
      forall i | 0 <= i < |all| - 1
        ensures End(all[i]) == all[i + 1].printTime
      {
        if i < n - 1 {
          assert End(front[i]) == front[i + 1].printTime;
        } else {
          assert all[i] == more[i - n + 1] && all[i + 1] == more[i - n + 2];
        }
      }
    }
  }

  lemma {:induction false} AddAllPositive(moves: seq<Move>, more: seq<Move>)
    requires Positive(moves) && Positive(more)
    ensures Positive(AddAll(moves, more))
  {
    if more != [] {
      AddAllPositive(moves, more[..|more| - 1]);
      AddMovePositive(AddAll(moves, more[..|more| - 1]), more[|more| - 1]);
    }
  }

  /** What adding the phases of a trapezoid keeps. */
  lemma ContinuousPrefix(moves: seq<Move>, n: nat)
    requires Continuous(moves) && n <= |moves|
    ensures Continuous(moves[..n]) && Continuous(moves[n..])
  {
    hide Joins;
    var front, back := moves[..n], moves[n..];
    forall i | 0 <= i < |front| - 1
      ensures Joins(front[i], front[i + 1])
    {
      assert front[i] == moves[i] && front[i + 1] == moves[i + 1];
    }
    forall i | 0 <= i < |back| - 1
      ensures Joins(back[i], back[i + 1])
    {
      assert back[i] == moves[n + i] && back[i + 1] == moves[n + i + 1];
    }
  }

  lemma ContinuousJoin(front: seq<Move>, more: seq<Move>)
    requires front != [] && more != [] && Last(front) == more[0] && Continuous(more)
    ensures Continuous(front + more[1..]) <==> Continuous(front)
  {
    hide Joins;
    var all, n := front + more[1..], |front|;
    if Continuous(all) {
      ContinuousPrefix(all, n);
      assert all[..n] == front;
    }
    if Continuous(front) {
      forall i | 0 <= i < |all| - 1
        ensures Joins(all[i], all[i + 1])
      {
        if i < n - 1 {
          assert Joins(front[i], front[i + 1]);
        } else {
          assert all[i] == more[i - n + 1] && all[i + 1] == more[i - n + 2];
        }
      }
    }
  }

  /** Adding joined moves keeps positions joined exactly when the first starts where the last move ends. */
  lemma {:induction false} AddAllContinuous(moves: seq<Move>, more: seq<Move>)
    requires Contiguous(more) && Continuous(more)
    ensures Continuous(AddAll(moves, more)) <==>
            Continuous(moves) && (more == [] || moves == [] || Joins(Last(moves), more[0]))
  {
    hide Joins;
    if more != [] {
      AddAllJoins(moves, more);
      AddMoveContinuous(moves, more[0]);
      AddMoveLast(moves, more[0]);
      ContinuousJoin(AddMove(moves, more[0]), more);
    }
  }

  lemma {:induction false} PhasesAdded(moves: seq<Move>, p: Trapezoid)
    ensures AddAll(moves, []) == moves
    ensures Contiguous(AddAll(moves, Phases(p))) <==>
            Contiguous(moves) && (Phases(p) == [] || Follows(moves, Phases(p)[0]))
    ensures Continuous(AddAll(moves, Phases(p))) <==>
            Continuous(moves) && (Phases(p) == [] || moves == [] || EndPos(Last(moves)) == p.startPos)
    ensures Positive(moves) && p.accelT >= 0.0 && p.cruiseT >= 0.0 && p.decelT >= 0.0 ==>
            Positive(AddAll(moves, Phases(p)))
  {
    hide Contiguous, Continuous, Follows, Phases, Positive, CoordAt;
    PhasesJoined(p);
    AddAllContiguous(moves, Phases(p));
    AddAllContinuous(moves, Phases(p));
    if Positive(moves) && p.accelT >= 0.0 && p.cruiseT >= 0.0 && p.decelT >= 0.0 {
      PhasesPositive(p);
      AddAllPositive(moves, Phases(p));
    }
  }

  lemma PhasesPositive(p: Trapezoid)
    requires p.accelT >= 0.0 && p.cruiseT >= 0.0 && p.decelT >= 0.0
    ensures Positive(Phases(p))
  {
    hide CruiseStart, DecelStart, CoordAt;
  }

  /** One phase more. */
  lemma {:induction false} AddNext(moves: seq<Move>, done: seq<Move>, m: Move)
    ensures AddAll(moves, done + [m]) == AddMove(AddAll(moves, done), m)
  {
    assert (done + [m])[..|done|] == done;
  }

  ghost predicate TailFollows(moves: seq<Move>, tail: Move) {
    if moves == [] then tail.printTime == NEVER_TIME
    else tail.printTime == End(Last(moves)) && tail.startPos == CoordAt(Last(moves), Last(moves).moveT)
  }

  /** A tail sentinel that rests for ever. */
  predicate AtRest(tail: Move) {
    tail.moveT == NEVER_TIME && tail.startV == 0.0 && tail.halfAccel == 0.0 && tail.axesR == ORIGIN
  }

  /** The first n moves are over by a time. */
  ghost predicate Expired(moves: seq<Move>, n: nat, time: real) {
    n <= |moves| && forall i :: 0 <= i < n ==> End(moves[i]) <= time
  }

  // ---------------------------------------------------------------------------
  // Finished moves
  // ---------------------------------------------------------------------------

  predicate Moving(m: Move) {
    m.startV != 0.0 || m.halfAccel != 0.0
  }

  /** A move that is not moving stays where it is throughout, and any other leaves its start at some time. */
  lemma MovingLeavesStart(m: Move, time: real)
    requires m.moveT > 0.0
    ensures !Moving(m) ==> Distance(m, time) == 0.0
    ensures Moving(m) ==> Distance(m, m.moveT) != 0.0 || Distance(m, m.moveT / 2.0) != 0.0
  {
    if Moving(m) && Distance(m, m.moveT) == 0.0 && Distance(m, m.moveT / 2.0) == 0.0 {
      NoZero(m.startV + m.halfAccel * m.moveT, m.moveT);
      NoZero(m.startV + m.halfAccel * (m.moveT / 2.0), m.moveT / 2.0);
      NoZero(m.halfAccel, m.moveT);
    }
  }

  lemma NoZero(a: real, b: real)
    requires b != 0.0 && a * b == 0.0
    ensures a == 0.0
  {
  }

  /** The history, newest first, with finished moves added; moves that stood still are not kept. */
  function Archived(history: seq<Move>, done: seq<Move>): seq<Move> {
    if done == [] then history else
      var m, earlier := done[|done| - 1], Archived(history, done[..|done| - 1]);
      if Moving(m) then [m] + earlier else earlier
  }

  /** What is left of a history after clearing: the latest move, and back to the first that is over by a time. */
  ghost predicate Cleared(all: seq<Move>, kept: seq<Move>, time: real) {
    && kept <= all && (all != [] ==> kept != [])
    && (forall i :: |kept| <= i < |all| ==> End(all[i]) <= time)
    && (|kept| > 1 ==> End(kept[|kept| - 1]) > time)
  }

  /** Drop moves from the old end while they are over, but never the latest. */
  method ClearHistory(history: seq<Move>, clearTime: real) returns (kept: seq<Move>)
    ensures Cleared(history, kept, clearTime)
  {
    kept := history;
    while |kept| > 1
      invariant kept <= history && (history != [] ==> kept != [])
      invariant forall i :: |kept| <= i < |history| ==> End(history[i]) <= clearTime
    {
      var m := kept[|kept| - 1];
      if End(m) > clearTime {
        break;
      }
      kept := kept[..|kept| - 1];
    }
  }

  /** How many moves are over by a time, and the history with them added. */
  method ArchiveExpired(moves: seq<Move>, history: seq<Move>, printTime: real) returns (n: nat, more: seq<Move>)
    ensures Expired(moves, n, printTime) && more == Archived(history, moves[..n])
    ensures n < |moves| ==> End(moves[n]) > printTime
  {
    n, more := 0, history;
    assert moves[..0] == [];
    while n < |moves|
      invariant n <= |moves| && Expired(moves, n, printTime) && more == Archived(history, moves[..n])
    {
      var m := moves[n];
      if m.printTime + m.moveT > printTime {
        break;
      }
      ArchiveNext(history, moves[..n], m);
      assert moves[..n + 1] == moves[..n] + [m];
      if m.startV != 0.0 || m.halfAccel != 0.0 {
        more := [m] + more;
      }
      n := n + 1;
    }
  }

  /** The tail sentinel follows what is left of the queue, if anything is. */
  lemma TailStays(moves: seq<Move>, n: nat, tail: Move)
    requires n <= |moves|
    ensures n < |moves| && TailFollows(moves, tail) ==> TailFollows(moves[n..], tail)
    ensures n == |moves| ==> TailFollows(moves[n..], tail.(printTime := NEVER_TIME))
  {
    hide CoordAt;
  }

  lemma {:induction false} ContiguousFrom(moves: seq<Move>, n: nat)
    requires Contiguous(moves) && n <= |moves|
    ensures Contiguous(moves[n..])
  {
    var t := moves[n..];
    forall i | 0 <= i < |t| - 1
      ensures End(t[i]) == t[i + 1].printTime
    {
      assert End(moves[n + i]) == moves[n + i + 1].printTime;
    }
  }

  /** A history, newest first, whose moves do not overlap and are over by a time. */
  ghost predicate Past(history: seq<Move>, time: real) {
    && (forall i :: 0 <= i < |history| ==> End(history[i]) <= time)
    && (forall i, j :: 0 <= i < j < |history| ==> End(history[j]) <= history[i].printTime)
  }

  lemma {:induction false} ArchiveNext(history: seq<Move>, done: seq<Move>, m: Move)
    ensures Archived(history, done + [m])
            == if Moving(m) then [m] + Archived(history, done) else Archived(history, done)
  {
    assert (done + [m])[..|done|] == done;
  }

  /** Finished moves of a contiguous queue extend the history without overlap. */
  lemma {:induction false} ArchivedPast(history: seq<Move>, moves: seq<Move>, n: nat)
    requires Contiguous(moves) && Positive(moves) && 0 < n <= |moves| && Past(history, moves[0].printTime)
    ensures Past(Archived(history, moves[..n]), End(moves[n - 1]))
  {
    assert moves[..n][..n - 1] == moves[..n - 1] && moves[n - 1].moveT > 0.0;
    if n > 1 {
      ArchivedPast(history, moves, n - 1);
      assert End(moves[n - 2]) == moves[n - 1].printTime;
    } else {
      assert moves[..0] == [];
    }
  }

  /** The history with the first n moves is over where the rest of the queue starts. */
  lemma {:induction false} FinishedPast(history: seq<Move>, moves: seq<Move>, n: nat)
    requires Contiguous(moves) && Positive(moves) && n < |moves| && Past(history, moves[0].printTime)
    ensures Past(Archived(history, moves[..n]), moves[n..][0].printTime)
  {
    if n == 0 {
      assert moves[..0] == [];
    } else {
      ArchivedPast(history, moves, n);
      assert End(moves[n - 1]) == moves[n].printTime;
    }
  }

  lemma ClearedPast(all: seq<Move>, kept: seq<Move>, clearTime: real, time: real)
    requires Cleared(all, kept, clearTime) && Past(all, time)
    ensures Past(kept, time)
  {
  }

  class Queue {
    /** Moves between the sentinels; the tail sentinel's time is 0 until it is brought up to date. */
    var moves: seq<Move>
    var tail: Move
    /** Moves that are over, newest first. */
    var history: seq<Move>

    /** The tail sentinel follows the last move in time and space, or waits to be brought up to date. */
    ghost predicate Valid()
      reads this
    {
      tail.printTime == 0.0 || TailFollows(moves, tail)
    }

    constructor ()
      ensures Valid() && moves == [] && history == [] && AtRest(tail)
    {
      moves, history := [], [];
      tail := Move(NEVER_TIME, NEVER_TIME, 0.0, 0.0, ORIGIN, ORIGIN);
    }

    /** Add one move before the tail sentinel, filling a time gap. */
    method Add(m: Move)
      modifies `moves, `tail
      ensures Valid() && moves == AddMove(old(moves), m) && Last(moves) == m && tail.printTime == 0.0
      ensures old(AtRest(tail)) ==> AtRest(tail)
      ensures Contiguous(moves) <==> old(Contiguous(moves)) && Follows(old(moves), m)
      ensures Continuous(moves) <==> old(Continuous(moves)) && (old(moves) == [] || Joins(Last(old(moves)), m))
    {
      hide Contiguous, Continuous, Joins, NullMove, Follows, CoordAt, AddMove, Last, TailFollows;
      AddMoveKeeps(moves, m);
      var prev := Last(moves);
      if prev.printTime + prev.moveT < m.printTime {
        moves := moves + [NullMove(prev, m), m];
      } else {
        moves := moves + [m];
      }
      tail := tail.(printTime := 0.0);
    }

    /** Bring the tail sentinel up to date. */
    method CheckSentinels()
      requires Valid()
      modifies `tail
      ensures Valid() && TailFollows(moves, tail)
      ensures old(AtRest(tail)) ==> AtRest(tail)
    {
      hide CoordAt;
      if tail.printTime != 0.0 {
        return;
      }
      if moves == [] {
        tail := tail.(printTime := NEVER_TIME);
        return;
      }
      var m := moves[|moves| - 1];
      tail := tail.(printTime := m.printTime + m.moveT, startPos := CoordAt(m, m.moveT));
    }

    /** Move what is over by a time from the queue to the history, and clear the history; returns how many. */
    method FinalizeMoves(printTime: real, clearHistoryTime: real) returns (n: nat)
      requires Valid()
      modifies this
      ensures Valid() && Expired(old(moves), n, printTime) && moves == old(moves)[n..]
      ensures old(AtRest(tail)) ==> AtRest(tail)
      ensures moves != [] ==> End(moves[0]) > printTime
      ensures Cleared(Archived(old(history), old(moves)[..n]), history, clearHistoryTime)
      ensures old(Contiguous(moves)) ==> Contiguous(moves)
      ensures old(Continuous(moves)) ==> Continuous(moves)
      ensures old(Contiguous(moves) && Positive(moves) && moves != [] && Past(history, moves[0].printTime)) ==>
              moves == [] || Past(history, moves[0].printTime)
    {
      hide Contiguous, Continuous, Positive, CoordAt, Cleared, Past, Moving;
      n := ExpireMoves(printTime);
      ghost var all := history;
      history := ClearHistory(history, clearHistoryTime);
      if old(Contiguous(moves) && Positive(moves) && moves != [] && Past(history, moves[0].printTime)) && moves != [] {
        FinishedPast(old(history), old(moves), n);
        ClearedPast(all, history, clearHistoryTime, moves[0].printTime);
      }
    }

    /** Move what is over by a time from the queue to the history; returns how many. */
    method ExpireMoves(printTime: real) returns (n: nat)
      requires Valid()
      modifies this
      ensures Valid() && Expired(old(moves), n, printTime) && moves == old(moves)[n..]
      ensures old(AtRest(tail)) ==> AtRest(tail)
      ensures moves != [] ==> End(moves[0]) > printTime
      ensures history == Archived(old(history), old(moves)[..n])
      ensures old(Contiguous(moves)) ==> Contiguous(moves)
      ensures old(Continuous(moves)) ==> Continuous(moves)
    {
      hide Contiguous, Continuous, CoordAt, Archived, Expired, TailFollows;
      n, history := ArchiveExpired(moves, history, printTime);
      if Contiguous(moves) { ContiguousFrom(moves, n); }
      if Continuous(moves) { ContinuousPrefix(moves, n); }
      TailStays(moves, n, tail);
      if n == |moves| {
        tail := tail.(printTime := NEVER_TIME);
      }
      moves := moves[n..];
    }

    /** Add the phases of a trapezoid. */
    method Append(p: Trapezoid)
      requires Valid()
      modifies `moves, `tail
      ensures Valid() && moves == AddAll(old(moves), Phases(p))
      ensures old(AtRest(tail)) ==> AtRest(tail)
      ensures Contiguous(moves) <==> old(Contiguous(moves)) && (Phases(p) == [] || Follows(old(moves), Phases(p)[0]))
      ensures Continuous(moves) <==>
              old(Continuous(moves)) && (Phases(p) == [] || old(moves) == [] || EndPos(Last(old(moves))) == p.startPos)
      ensures old(Positive(moves)) && p.accelT >= 0.0 && p.cruiseT >= 0.0 && p.decelT >= 0.0 ==> Positive(moves)
    {
      hide Contiguous, Positive, AddMove, AddAll, CoordAt, Follows, Continuous, Joins;
      ghost var phases := Phases(p);
      PhasesAdded(moves, p);
      var printTime, startPos := p.printTime, p.startPos;
      ghost var done := [];
      if p.accelT != 0.0 {
        var m := Move(printTime, p.accelT, p.startV, 0.5 * p.accel, startPos, p.axesR);
        AddNext(old(moves), done, m);
        Add(m);
        done := done + [m];
        printTime, startPos := printTime + p.accelT, CoordAt(m, p.accelT);
      }
      if p.cruiseT != 0.0 {
        var m := Move(printTime, p.cruiseT, p.cruiseV, 0.0, startPos, p.axesR);
        AddNext(old(moves), done, m);
        Add(m);
        done := done + [m];
        printTime, startPos := printTime + p.cruiseT, CoordAt(m, p.cruiseT);
      }
      if p.decelT != 0.0 {
        var m := Move(printTime, p.decelT, p.cruiseV, -0.5 * p.accel, startPos, p.axesR);
        AddNext(old(moves), done, m);
        Add(m);
        done := done + [m];
      }
      assert done == phases;
    }
  }
}
