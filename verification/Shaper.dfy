/**
 * Input shaping: a position is the weighted sum of the positions at several times around it,
 * found by walking from the current move to its neighbours.
 */
module Shaper {
  import opened TrapQ

  // ---------------------------------------------------------------------------
  // Position across moves
  // ---------------------------------------------------------------------------

  datatype Axis = X | Y | Z

  function On(c: Coord, axis: Axis): real {
    match axis case X => c.x case Y => c.y case Z => c.z
  }

  function AxisPosition(m: Move, axis: Axis, time: real): real {
    On(m.startPos, axis) + On(m.axesR, axis) * Distance(m, time)
  }

  /** Is an absolute time within a move? */
  predicate Within(m: Move, time: real) {
    m.printTime <= time <= End(m)
  }

  /** Is an absolute time within some move of the queue? */
  predicate Spans(moves: seq<Move>, time: real) {
    moves != [] && moves[0].printTime <= time <= End(moves[|moves| - 1])
  }

  /** Walk from move i to the move that holds a time given relative to move i. */
  method FindMove(moves: seq<Move>, i: nat, time: real) returns (j: nat, local: real)
    requires Contiguous(moves) && Positive(moves) && i < |moves|
    requires Spans(moves, moves[i].printTime + time)
    ensures j < |moves| && moves[j].printTime + local == moves[i].printTime + time
    ensures Within(moves[j], moves[i].printTime + time)
  {
    j, local := i, time;
    while local < 0.0
      invariant 0 <= j < |moves| && moves[j].printTime + local == moves[i].printTime + time
      decreases j
    {
      if j == 0 {
        assert false;
      }
      assert End(moves[j - 1]) == moves[j].printTime;
      j := j - 1;
      local := local + moves[j].moveT;
    }
    while local > moves[j].moveT
      invariant 0 <= j < |moves| && moves[j].printTime + local == moves[i].printTime + time && local >= 0.0
      decreases |moves| - j
    {
      if j == |moves| - 1 {
        assert false;
      }
      assert End(moves[j]) == moves[j + 1].printTime;
      local := local - moves[j].moveT;
      j := j + 1;
    }
  }

  /** A time within two moves is where one ends and the next begins, so that both give one position. */
  lemma PositionUnique(moves: seq<Move>, axis: Axis, i: nat, j: nat, time: real)
    requires Contiguous(moves) && Positive(moves) && Continuous(moves) && i <= j < |moves|
    requires Within(moves[i], time) && Within(moves[j], time)
    ensures AxisPosition(moves[i], axis, time - moves[i].printTime)
            == AxisPosition(moves[j], axis, time - moves[j].printTime)
  {
    if i < j {
      StartsAscend(moves, i, j);
      if i < j - 1 {
        StartsAscend(moves, i, i + 1);
        StartsAscend(moves, i + 1, j);
        assert false;
      }
      JoinAt(moves[i], moves[j], axis);
    }
  }

  lemma JoinAt(m: Move, next: Move, axis: Axis)
    requires CoordAt(m, m.moveT) == next.startPos
    ensures AxisPosition(m, axis, m.moveT) == AxisPosition(next, axis, 0.0)
  {
    assert Distance(next, 0.0) == 0.0;
  }

  /** The position at an absolute time, as every move that holds the time gives it. */
  ghost predicate PositionIs(moves: seq<Move>, axis: Axis, time: real, position: real) {
    forall k :: 0 <= k < |moves| && Within(moves[k], time) ==>
      position == AxisPosition(moves[k], axis, time - moves[k].printTime)
  }

  /** The position at an absolute time, as some move that holds the time gives it. */
  ghost predicate Gives(moves: seq<Move>, axis: Axis, time: real, position: real) {
    exists k :: 0 <= k < |moves| && Within(moves[k], time) &&
      position == AxisPosition(moves[k], axis, time - moves[k].printTime)
  }

  /** The trajectory position at a time relative to move i. Where moves join in space there is only one. */
  method PositionAcrossMoves(moves: seq<Move>, i: nat, axis: Axis, time: real) returns (position: real)
    requires Contiguous(moves) && Positive(moves) && i < |moves|
    requires Spans(moves, moves[i].printTime + time)
    ensures Gives(moves, axis, moves[i].printTime + time, position)
    ensures Continuous(moves) ==> PositionIs(moves, axis, moves[i].printTime + time, position)
  {
    var j, local := FindMove(moves, i, time);
    position := AxisPosition(moves[j], axis, local);
    ghost var t := moves[i].printTime + time;
    hide AxisPosition, Contiguous, Positive, Continuous;
    assert local == t - moves[j].printTime;
    if Continuous(moves) {
      forall k | 0 <= k < |moves| && Within(moves[k], t)
        ensures position == AxisPosition(moves[k], axis, t - moves[k].printTime)
      {
        if j <= k { PositionUnique(moves, axis, j, k, t); } else { PositionUnique(moves, axis, k, j, t); }
      }
    }
  }

  // ---------------------------------------------------------------------------
  // Pulses
  // ---------------------------------------------------------------------------

  const MAX_PULSES: nat := 5

  /** A weight, and the time offset it applies to. */
  datatype Pulse = Pulse(t: real, a: real)

  function Weights(s: seq<Pulse>): real {
    if s == [] then 0.0 else s[0].a + Weights(s[1..])
  }

  /** Sum of weighted time offsets. */
  function Moment(s: seq<Pulse>): real {
    if s == [] then 0.0 else s[0].a * s[0].t + Moment(s[1..])
  }

  function Total(a: seq<real>): real {
    if a == [] then 0.0 else Total(a[..|a| - 1]) + a[|a| - 1]
  }

  lemma {:induction false} SumsAppend(s: seq<Pulse>, p: Pulse)
    ensures Weights(s + [p]) == Weights(s) + p.a && Moment(s + [p]) == Moment(s) + p.a * p.t
  {
    if s == [] {
      assert s + [p] == [p];
    } else {
      SumsAppend(s[1..], p);
      assert (s + [p])[1..] == s[1..] + [p];
    }
  }

  /** Pulses moved earlier by ts. */
  function Shifted(s: seq<Pulse>, ts: real): (r: seq<Pulse>)
    ensures |r| == |s| && forall i :: 0 <= i < |r| ==> r[i] == Pulse(s[i].t - ts, s[i].a)
  {
    if s == [] then [] else [Pulse(s[0].t - ts, s[0].a)] + Shifted(s[1..], ts)
  }

  lemma {:induction false} ShiftedSums(s: seq<Pulse>, ts: real)
    ensures Weights(Shifted(s, ts)) == Weights(s) && Moment(Shifted(s, ts)) == Moment(s) - ts * Weights(s)
  {
    if s != [] {
      ShiftedSums(s[1..], ts);
      assert Shifted(s, ts)[1..] == Shifted(s[1..], ts);
      ShiftTerm(s[0].a, s[0].t, ts, Weights(s[1..]), Moment(s[1..]));
    }
  }

  lemma ShiftTerm(a: real, t: real, ts: real, w: real, m: real)
    ensures a * (t - ts) + (m - ts * w) == (a * t + m) - ts * (a + w)
  {
  }

  class ShaperPulses {
    const pulses: array<Pulse>
    var numPulses: nat

    ghost predicate Valid()
      reads this
    {
      numPulses <= MAX_PULSES == pulses.Length
    }

    /** Weights add up to 1, and weighted times to 0. */
    ghost predicate Normalised()
      reads this, pulses
    {
      numPulses <= pulses.Length && Weights(pulses[..numPulses]) == 1.0 && Moment(pulses[..numPulses]) == 0.0
    }

    constructor ()
      ensures Valid() && numPulses == 0 && fresh(pulses)
    {
      pulses := new Pulse[MAX_PULSES](_ => Pulse(0.0, 0.0));
      numPulses := 0;
    }

    /** Shift pulses around the weighted mid-point. */
    method ShiftPulses()
      requires Valid()
      modifies pulses
      ensures pulses[..numPulses] == Shifted(old(pulses[..numPulses]), Moment(old(pulses[..numPulses])))
    {
      hide Moment;
      ghost var s := pulses[..numPulses];
      var ts := Midpoint(pulses[..numPulses]);
      for i := 0 to numPulses
        invariant forall k :: 0 <= k < i ==> pulses[k] == Pulse(s[k].t - ts, s[k].a)
        invariant forall k :: i <= k < numPulses ==> pulses[k] == s[k]
      {
        pulses[i] := pulses[i].(t := pulses[i].t - ts);
      }
    }

    /** Take pulses in reverse, scaled to a total weight of 1 and shifted to a zero moment. */
    method InitShaper(n: int, a: seq<real>, t: seq<real>) returns (status: int)
      requires Valid() && |a| == |t| && (0 <= n <= MAX_PULSES ==> n <= |a|)
      modifies this, pulses
      ensures Valid()
      ensures if 0 <= n <= MAX_PULSES then status == 0 && numPulses == n else status == -1 && numPulses == 0
      ensures numPulses > 0 && Total(a[..n]) != 0.0 ==>
                Normalised() && exists ts :: Reverses(pulses[..numPulses], a[..n], t[..n], ts)
    {
      if n < 0 || n > MAX_PULSES {
        numPulses := 0;
        return -1;
      }
      FillReversed(n, a, t);
      numPulses := n;
      ghost var s := pulses[..n];
      if n > 0 && Total(a[..n]) != 0.0 { ShiftNormalised(s, a[..n], t[..n]); }
      hide Weights, Moment, Reverses, Shifted, Total;
      ShiftPulses();
      return 0;
    }

    /** The shaped position; motion that is steady where the pulses fall keeps its unshaped position. */
    method Shape(moves: seq<Move>, i: nat, axis: Axis, moveTime: real) returns (res: real)
      requires Valid() && Contiguous(moves) && Positive(moves) && i < |moves|
      requires forall k :: 0 <= k < numPulses ==> ReachesPulse(moves, i, moveTime, pulses[k])
      ensures IsShaped(moves, i, axis, moveTime, pulses[..numPulses], res)
      ensures Normalised() ==> KeepsSteady(moves, i, axis, moveTime, pulses[..numPulses], res)
    {
      res := CalcPosition(moves, i, axis, moveTime, pulses[..numPulses]);
    }

    method FillReversed(n: nat, a: seq<real>, t: seq<real>)
      requires n <= MAX_PULSES == pulses.Length && n <= |a| == |t|
      modifies pulses
      ensures n > 0 && Total(a[..n]) != 0.0 ==>
              Weights(pulses[..n]) == 1.0 && Reverses(pulses[..n], a[..n], t[..n], 0.0)
    {
      hide Scaled, Total, Weights;
      var sumA := Sum(a[..n]);
      // The quotient for weights that add up to 0 is not a number, and is left open.
      var scale: real := *;
      if sumA != 0.0 {
        scale := 1.0 / sumA;
      }
      for i := 0 to n
        invariant forall k :: n - i <= k < n ==> pulses[k] == Pulse(-t[n - 1 - k], Scaled(a[n - 1 - k], scale))
      {
        pulses[n - i - 1] := Pulse(-t[i], Scaled(a[i], scale));
      }
      if n > 0 && sumA != 0.0 {
        Normalises(pulses[..n], a[..n], t[..n], sumA);
      }
    }
  }

  /** Pulse k carries the share of weight n - 1 - k, at the negated time less ts. */
  ghost predicate Reverses(s: seq<Pulse>, a: seq<real>, t: seq<real>, ts: real) {
    && |s| == |a| == |t|
    && forall k :: 0 <= k < |s| ==> Scaled(s[k].a, Total(a)) == a[|s| - 1 - k] && s[k].t == -t[|s| - 1 - k] - ts
  }

  /** Shifting by the moment leaves no moment, when the weights add up to 1. */
  lemma {:induction false} ShiftNormalised(s: seq<Pulse>, a: seq<real>, t: seq<real>)
    requires Weights(s) == 1.0 && Reverses(s, a, t, 0.0)
    ensures var r := Shifted(s, Moment(s));
            Weights(r) == 1.0 && Moment(r) == 0.0 && Reverses(r, a, t, Moment(s))
  {
    ShiftedSums(s, Moment(s));
    hide Weights, Moment, Total, Scaled;
  }

  /** Weights divided by their total add up to 1. */
  lemma {:induction false} Normalises(s: seq<Pulse>, a: seq<real>, t: seq<real>, total: real)
    requires |s| == |a| == |t| > 0 && total == Total(a) != 0.0
    requires forall k :: 0 <= k < |s| ==> s[k] == Pulse(-t[|s| - 1 - k], Scaled(a[|s| - 1 - k], 1.0 / total))
    ensures Weights(s) == 1.0 && Reverses(s, a, t, 0.0)
  {
    hide Scaled, Total, Weights;
    ReversedWeights(s, a, 1.0 / total);
    UnscaleOne(total);
    forall k | 0 <= k < |s|
      ensures Scaled(s[k].a, total) == a[|s| - 1 - k]
    {
      Unscale(a[|s| - 1 - k], total);
    }
  }

  function Scaled(x: real, scale: real): real {
    x * scale
  }

  /** The mid-point of the pulses, weighted by their amplitudes. */
  method Midpoint(s: seq<Pulse>) returns (ts: real)
    ensures ts == Moment(s)
  {
    ts := 0.0;
    for i := 0 to |s|
      invariant ts == Moment(s[..i])
    {
      SumsAppend(s[..i], s[i]);
      assert s[..i + 1] == s[..i] + [s[i]];
      ts := ts + s[i].a * s[i].t;
    }
    assert s[..|s|] == s;
  }

  method Sum(a: seq<real>) returns (total: real)
    ensures total == Total(a)
  {
    total := 0.0;
    for i := 0 to |a|
      invariant total == Total(a[..i])
    {
      assert a[..i + 1][..i] == a[..i];
      total := total + a[i];
    }
    assert a[..|a|] == a;
  }

  /** Scaled weights, in reverse, add up to the scaled total. */
  lemma {:induction false} ReversedWeights(s: seq<Pulse>, a: seq<real>, scale: real)
    requires |s| == |a| && forall k :: 0 <= k < |s| ==> s[k].a == Scaled(a[|s| - 1 - k], scale)
    ensures Weights(s) == Scaled(Total(a), scale)
  {
    if a != [] {
      var n := |a| - 1;
      ReversedWeights(s[1..], a[..n], scale);
      ScaledSum(scale, Total(a[..n]), a[n]);
      hide Scaled;
    }
  }

  lemma UnscaleOne(total: real)
    requires total != 0.0
    ensures Scaled(total, 1.0 / total) == 1.0
  {
  }

  lemma ScaledSum(k: real, x: real, y: real)
    ensures Scaled(x + y, k) == Scaled(x, k) + Scaled(y, k)
  {
  }

  lemma Unscale(x: real, total: real)
    requires total != 0.0
    ensures Scaled(Scaled(x, 1.0 / total), total) == x
  {
    var inv := 1.0 / total;
    assert inv * total == 1.0;
    assert x * inv * total == x * (inv * total);
  }

  // ---------------------------------------------------------------------------
  // Convolution
  // ---------------------------------------------------------------------------

  function Term(p: Pulse, x: real): real {
    p.a * x
  }

  function Weighted(s: seq<Pulse>, positions: seq<real>): real
    requires |positions| == |s|
  {
    if s == [] then 0.0 else Term(s[0], positions[0]) + Weighted(s[1..], positions[1..])
  }

  lemma {:induction false} WeightedAppend(s: seq<Pulse>, positions: seq<real>, p: Pulse, x: real)
    requires |positions| == |s|
    ensures Weighted(s + [p], positions + [x]) == Weighted(s, positions) + Term(p, x)
  {
    if s == [] {
      assert s + [p] == [p] && positions + [x] == [x];
    } else {
      WeightedAppend(s[1..], positions[1..], p, x);
      assert (s + [p])[1..] == s[1..] + [p] && (positions + [x])[1..] == positions[1..] + [x];
    }
  }

  lemma NoWeight()
    ensures Weighted([], []) == 0.0
  {
  }

  /** Do the moves reach the time of a pulse? */
  predicate ReachesPulse(moves: seq<Move>, i: nat, moveTime: real, p: Pulse)
    requires i < |moves|
  {
    Spans(moves, moves[i].printTime + (moveTime + p.t))
  }

  /** The trajectory position at the time a pulse falls on: the only one, where moves join in space. */
  ghost predicate PulsePosition(moves: seq<Move>, i: nat, axis: Axis, moveTime: real, p: Pulse, x: real)
    requires i < |moves|
  {
    var time := moves[i].printTime + (moveTime + p.t);
    Gives(moves, axis, time, x) && (Continuous(moves) ==> PositionIs(moves, axis, time, x))
  }

  ghost predicate PulsePositions(moves: seq<Move>, i: nat, axis: Axis, moveTime: real, s: seq<Pulse>,
                                 positions: seq<real>)
    requires i < |moves|
  {
    |positions| == |s| && forall k :: 0 <= k < |s| ==> PulsePosition(moves, i, axis, moveTime, s[k], positions[k])
  }

  /** The weighted sum of such positions. */
  ghost predicate IsShaped(moves: seq<Move>, i: nat, axis: Axis, moveTime: real, s: seq<Pulse>, res: real)
    requires i < |moves|
  {
    exists positions :: PulsePositions(moves, i, axis, moveTime, s, positions) && res == Weighted(s, positions)
  }

  /** The shaped position: each pulse weighs the position at its own time. */
  method CalcPosition(moves: seq<Move>, i: nat, axis: Axis, moveTime: real, s: seq<Pulse>) returns (res: real)
    requires Contiguous(moves) && Positive(moves) && i < |moves|
    requires forall k :: 0 <= k < |s| ==> ReachesPulse(moves, i, moveTime, s[k])
    ensures IsShaped(moves, i, axis, moveTime, s, res)
    ensures Weights(s) == 1.0 && Moment(s) == 0.0 ==> KeepsSteady(moves, i, axis, moveTime, s, res)
  {
    hide Contiguous, Positive, Weighted, Term, ReachesPulse, PulsePosition, KeepsSteady, Weights, Moment;
    res := 0.0;
    ghost var positions: seq<real> := [];
    assert s[..0] == [];
    NoWeight();
    for k := 0 to |s|
      invariant |positions| == k && res == Weighted(s[..k], positions)
      invariant forall j :: 0 <= j < k ==> PulsePosition(moves, i, axis, moveTime, s[j], positions[j])
    {
      var x := PositionAtPulse(moves, i, axis, moveTime, s[k]);
      WeightedAppend(s[..k], positions, s[k], x);
      assert s[..k + 1] == s[..k] + [s[k]];
      res := res + Term(s[k], x);
      positions := positions + [x];
    }
    assert s[..|s|] == s && PulsePositions(moves, i, axis, moveTime, s, positions);
    if Weights(s) == 1.0 && Moment(s) == 0.0 {
      PositionsKeepSteady(moves, i, axis, moveTime, s, positions);
    }
  }

  method PositionAtPulse(moves: seq<Move>, i: nat, axis: Axis, moveTime: real, p: Pulse) returns (x: real)
    requires Contiguous(moves) && Positive(moves) && i < |moves| && ReachesPulse(moves, i, moveTime, p)
    ensures PulsePosition(moves, i, axis, moveTime, p, x)
  {
    hide Gives, PositionIs, Continuous, Contiguous, Positive;
    x := PositionAcrossMoves(moves, i, axis, moveTime + p.t);
  }

  /** Every move that holds a time is on the line start + v * time then. */
  ghost predicate OnLineAt(moves: seq<Move>, axis: Axis, time: real, start: real, v: real) {
    forall k :: 0 <= k < |moves| && Within(moves[k], time) ==>
      AxisPosition(moves[k], axis, time - moves[k].printTime) == start + v * time
  }

  /** Motion keeps one velocity at the times the pulses fall on; elsewhere it may do anything. */
  ghost predicate Steady(moves: seq<Move>, axis: Axis, time: real, s: seq<Pulse>, start: real, v: real) {
    forall k :: 0 <= k < |s| ==> OnLineAt(moves, axis, time + s[k].t, start, v)
  }

  ghost predicate SteadyFrom(moves: seq<Move>, i: nat, axis: Axis, moveTime: real, s: seq<Pulse>, start: real, v: real)
    requires i < |moves|
  {
    Steady(moves, axis, moves[i].printTime + moveTime, s, start, v)
  }

  /** A result that is the unshaped position of motion that is steady where the pulses fall. */
  ghost predicate KeepsSteady(moves: seq<Move>, i: nat, axis: Axis, moveTime: real, s: seq<Pulse>, res: real)
    requires i < |moves|
  {
    forall start: real, v: real :: SteadyFrom(moves, i, axis, moveTime, s, start, v) ==>
      res == start + v * (moves[i].printTime + moveTime)
  }

  lemma {:induction false} PositionsKeepSteady(moves: seq<Move>, i: nat, axis: Axis, moveTime: real, s: seq<Pulse>,
                                               positions: seq<real>)
    requires i < |moves| && PulsePositions(moves, i, axis, moveTime, s, positions)
    requires Weights(s) == 1.0 && Moment(s) == 0.0
    ensures KeepsSteady(moves, i, axis, moveTime, s, Weighted(s, positions))
  {
    hide Gives, Weights, Moment, Weighted, Steady, PositionIs, Continuous;
    var time := moves[i].printTime + moveTime;
    forall k | 0 <= k < |s|
      ensures Gives(moves, axis, time + s[k].t, positions[k])
    {
      assert moves[i].printTime + (moveTime + s[k].t) == time + s[k].t;
    }
    forall start: real, v: real | SteadyFrom(moves, i, axis, moveTime, s, start, v)
      ensures Weighted(s, positions) == start + v * time
    {
      ShaperKeepsConstantVelocity(moves, axis, time, s, positions, start, v);
    }
  }

  lemma {:induction false} WeightedLine(s: seq<Pulse>, positions: seq<real>, x: real, v: real)
    requires |positions| == |s| && forall k :: 0 <= k < |s| ==> positions[k] == x + v * s[k].t
    ensures Weighted(s, positions) == x * Weights(s) + v * Moment(s)
  {
    if s != [] {
      var w, m, rest := Weights(s[1..]), Moment(s[1..]), Weighted(s[1..], positions[1..]);
      assert Weights(s) == s[0].a + w && Moment(s) == s[0].a * s[0].t + m;
      assert Weighted(s, positions) == s[0].a * (x + v * s[0].t) + rest;
      WeightedLine(s[1..], positions[1..], x, v);
      hide Weights, Moment, Weighted, Term;
      LineTerm(s[0].a, s[0].t, x, v, w, m);
    }
  }

  lemma LineTerm(a: real, t: real, x: real, v: real, w: real, m: real)
    ensures a * (x + v * t) + (x * w + v * m) == x * (a + w) + v * (a * t + m)
  {
  }

  /** Pulses of total weight 1 and zero moment leave motion at constant velocity unchanged. */
  lemma {:induction false} ShaperKeepsConstantVelocity(moves: seq<Move>, axis: Axis, time: real, s: seq<Pulse>,
                                                       positions: seq<real>, start: real, v: real)
    requires Steady(moves, axis, time, s, start, v) && Weights(s) == 1.0 && Moment(s) == 0.0
    requires |positions| == |s|
    requires forall k :: 0 <= k < |s| ==> Gives(moves, axis, time + s[k].t, positions[k])
    ensures Weighted(s, positions) == start + v * time
  {
    hide Gives, OnLineAt, Weights, Moment, Weighted;
    var x := start + v * time;
    forall k | 0 <= k < |s|
      ensures positions[k] == x + v * s[k].t
    {
      LineAt(moves, axis, time + s[k].t, positions[k], start, v);
      assert v * (time + s[k].t) == v * time + v * s[k].t;
    }
    hide Steady;
    WeightedLine(s, positions, x, v);
  }

  lemma LineAt(moves: seq<Move>, axis: Axis, time: real, position: real, start: real, v: real)
    requires OnLineAt(moves, axis, time, start, v) && Gives(moves, axis, time, position)
    ensures position == start + v * time
  {
    hide AxisPosition;
    var k :| 0 <= k < |moves| && Within(moves[k], time) &&
      position == AxisPosition(moves[k], axis, time - moves[k].printTime);
  }
}
