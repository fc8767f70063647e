/**
 * Pressure advance: the extruder position is smoothed by a triangular window, through
 * definite integrals over the moves the window covers.
 */
module PressureAdvance {
  import opened TrapQ
  import opened Words

  // ---------------------------------------------------------------------------
  // Integrals of one move
  // ---------------------------------------------------------------------------

  /** Motion base + t * (v + t * ha). */
  datatype Motion = Motion(base: real, v: real, ha: real)

  /** Antiderivatives of the motion, and of the motion times t. */
  function AreaOf(base: real, v: real, ha: real, x: real): real {
    x * (base + x * (0.5 * v + x * (1.0 / 3.0 * ha)))
  }

  function TimeAreaOf(base: real, v: real, ha: real, x: real): real {
    x * x * (0.5 * base + x * (1.0 / 3.0 * v + x * (0.25 * ha)))
  }

  function Area(q: Motion, x: real): real {
    AreaOf(q.base, q.v, q.ha, x)
  }

  function TimeArea(q: Motion, x: real): real {
    TimeAreaOf(q.base, q.v, q.ha, x)
  }

  function ExtruderIntegrate(q: Motion, start: real, end: real): real {
    Area(q, end) - Area(q, start)
  }

  function ExtruderIntegrateTime(q: Motion, start: real, end: real): real {
    TimeArea(q, end) - TimeArea(q, start)
  }

  /** Antiderivative of the motion times t - offset. */
  function Lever(q: Motion, offset: real, x: real): real {
    TimeArea(q, x) - Times(offset, Area(q, x))
  }

  /** The motion seen from a time tau later. */
  function Later(q: Motion, tau: real): Motion {
    Motion(q.base + tau * (q.v + tau * q.ha), q.v + 2.0 * q.ha * tau, q.ha)
  }

  lemma AreaPoly(b: real, v: real, h: real, s: real, y: real, b': real, v': real)
    requires b' == b + s * (v + s * h) && v' == v + 2.0 * h * s
    ensures AreaOf(b', v', h, y) == AreaOf(b, v, h, y + s) - AreaOf(b, v, h, s)
  {
  }

  lemma TimeAreaPoly(b: real, v: real, h: real, s: real, y: real, b': real, v': real)
    requires b' == b + s * (v + s * h) && v' == v + 2.0 * h * s
    ensures TimeAreaOf(b', v', h, y) + Times(s, AreaOf(b', v', h, y))
            == TimeAreaOf(b, v, h, y + s) - TimeAreaOf(b, v, h, s)
  {
    hide TimeAreaOf, AreaOf, Times, Square, Cube, Fourth;
    var p, q, r := 0.5 * Square(y), 1.0 / 3.0 * Cube(y), 0.25 * Fourth(y);
    var sy, sp, sq := s * y, s * p, s * q;
    var sm, sn := s * (p + sy), s * (q + sp);
    var ssm := s * sm;
    TimePowers(b', v', h, y);
    TimesArea(s, b', v', h, y, p, q, sy, sp, sq);
    LaterBase(b, v, h, s, b', p, sy, sm, ssm);
    LaterSlope(v, h, s, v', q, sp, sn);
    LaterPowers(s, y, p, q, r, sy, sp, sq, sm, sn, ssm);
    TimeAreaDifference(b, v, h, s, y + s);
    CollectTerms(v, h, sm, q + sp, ssm, 2.0 * sn, r, sq, 1.0 / 3.0 * Cube(y + s) - 1.0 / 3.0 * Cube(s),
                 0.25 * Fourth(y + s) - 0.25 * Fourth(s));
  }

  lemma TimeAreaDifference(b: real, v: real, h: real, s: real, e: real)
    ensures TimeAreaOf(b, v, h, e) - TimeAreaOf(b, v, h, s)
         == Times(b, 0.5 * Square(e) - 0.5 * Square(s)) + Times(v, 1.0 / 3.0 * Cube(e) - 1.0 / 3.0 * Cube(s))
          + Times(h, 0.25 * Fourth(e) - 0.25 * Fourth(s))
  {
    hide TimeAreaOf, Times, Square, Cube, Fourth;
    TimePowers(b, v, h, s);
    TimePowers(b, v, h, e);
    Distribute(b, 0.5 * Square(e), 0.5 * Square(s));
    Distribute(v, 1.0 / 3.0 * Cube(e), 1.0 / 3.0 * Cube(s));
    Distribute(h, 0.25 * Fourth(e), 0.25 * Fourth(s));
  }

  lemma CollectTerms(v: real, h: real, x: real, y: real, a: real, b: real, c: real, d: real, vs: real, hs: real)
    requires x + y == vs && a + b + (c + d) == hs
    ensures Times(v, x) + Times(v, y) == Times(v, vs)
    ensures Times(h, a) + Times(h, b) + Times(h, c) + Times(h, d) == Times(h, hs)
  {
    hide Times;
    Collect(v, x, y, vs);
    Collect(h, a, b, a + b);
    Collect(h, c, d, c + d);
    Collect(h, a + b, c + d, hs);
  }

  /** Powers of a later time, from those of the time between. */
  lemma LaterPowers(s: real, y: real, p: real, q: real, r: real, sy: real, sp: real, sq: real, sm: real, sn: real,
                    ssm: real)
    requires p == 0.5 * Square(y) && q == 1.0 / 3.0 * Cube(y) && r == 0.25 * Fourth(y)
    requires sy == s * y && sp == s * p && sq == s * q && sm == s * (p + sy) && sn == s * (q + sp) && ssm == s * sm
    ensures p + sy == 0.5 * Square(y + s) - 0.5 * Square(s)
    ensures sm + (q + sp) == 1.0 / 3.0 * Cube(y + s) - 1.0 / 3.0 * Cube(s)
    ensures ssm + 2.0 * sn + (r + sq) == 0.25 * Fourth(y + s) - 0.25 * Fourth(s)
  {
    hide Square, Cube, Fourth;
    PlainPowers(s, y);
    var m, n := 0.5 * Square(y) + s * y, 1.0 / 3.0 * Cube(y) + s * (0.5 * Square(y));
    SameProduct(s, p, 0.5 * Square(y));
    SameProduct(s, q, 1.0 / 3.0 * Cube(y));
    SameProduct(s, p + sy, m);
    SameProduct(s, q + sp, n);
    SameProduct(s, sm, s * m);
  }

  lemma SameProduct(s: real, a: real, b: real)
    requires a == b
    ensures s * a == s * b
  {
  }

  lemma PlainPowers(s: real, y: real)
    ensures var p, q, r := 0.5 * Square(y), 1.0 / 3.0 * Cube(y), 0.25 * Fourth(y);
            && p + s * y == 0.5 * Square(y + s) - 0.5 * Square(s)
            && s * (p + s * y) + (q + s * p) == 1.0 / 3.0 * Cube(y + s) - 1.0 / 3.0 * Cube(s)
            && s * (s * (p + s * y)) + 2.0 * (s * (q + s * p)) + (r + s * q) == 0.25 * Fourth(y + s) - 0.25 * Fourth(s)
  {
    FourthOfSum(s, y);
  }

  lemma FourthOfSum(s: real, y: real)
    ensures (y + s) * ((y + s) * ((y + s) * (y + s)))
         == y * (y * (y * y)) + 4.0 * (s * (y * (y * y))) + 6.0 * (s * (s * (y * y))) + 4.0 * (s * (s * (s * y)))
          + s * (s * (s * s))
  {
  }

  lemma TimesArea(s: real, b: real, v: real, h: real, y: real, p: real, q: real, sy: real, sp: real, sq: real)
    requires p == 0.5 * Square(y) && q == 1.0 / 3.0 * Cube(y) && sy == s * y && sp == s * p && sq == s * q
    ensures Times(s, AreaOf(b, v, h, y)) == Times(b, sy) + Times(v, sp) + Times(h, sq)
  {
  }

  lemma LaterBase(b: real, v: real, h: real, s: real, b': real, p: real, sy: real, sm: real, ssm: real)
    requires b' == b + s * (v + s * h) && sm == s * (p + sy) && ssm == s * sm
    ensures Times(b', p) + Times(b', sy) == Times(b, p + sy) + Times(v, sm) + Times(h, ssm)
  {
  }

  lemma LaterSlope(v: real, h: real, s: real, v': real, q: real, sp: real, sn: real)
    requires v' == v + 2.0 * h * s && sn == s * (q + sp)
    ensures Times(v', q) + Times(v', sp) == Times(v, q + sp) + Times(h, 2.0 * sn)
  {
  }

  lemma Collect(a: real, x: real, y: real, total: real)
    requires x + y == total
    ensures Times(a, x) + Times(a, y) == Times(a, total)
  {
  }

  lemma AreasLater(q: Motion, tau: real, y: real)
    ensures Area(Later(q, tau), y) == Area(q, y + tau) - Area(q, tau)
    ensures TimeArea(Later(q, tau), y) + Times(tau, Area(Later(q, tau), y)) == TimeArea(q, y + tau) - TimeArea(q, tau)
  {
    hide AreaOf, TimeAreaOf;
    var r := Later(q, tau);
    AreaPoly(q.base, q.v, q.ha, tau, y, r.base, r.v);
    TimeAreaPoly(q.base, q.v, q.ha, tau, y, r.base, r.v);
  }

  /** Moving the origin of time moves the lever with it. */
  lemma LeverLater(q: Motion, offset: real, tau: real, y: real)
    ensures Lever(Later(q, tau), offset - tau, y) == Lever(q, offset, y + tau) - Lever(q, offset, tau)
  {
    hide Area, TimeArea, Later, Times;
    AreasLater(q, tau, y);
    TimesLess(offset, tau, Area(Later(q, tau), y));
    Distribute(offset, Area(q, y + tau), Area(q, tau));
  }

  /** Antiderivatives vanish at 0. */
  lemma LeverZero(q: Motion, offset: real)
    ensures Lever(q, offset, 0.0) == 0.0
  {
  }

  /** The motion of a move with pressure advance, relative to a base position. */
  function MotionOf(m: Move, pressureAdvance: real, base: real): Motion {
    var pa := if m.axesR.y != 0.0 then pressureAdvance else 0.0;
    Motion(base + pa * m.startV, m.startV + pa * 2.0 * m.halfAccel, m.halfAccel)
  }

  function Square(x: real): (r: real)
    ensures x > 0.0 ==> r > 0.0
  {
    var r := x * x;
    ProductPositive(x, x, r);
    r
  }

  lemma ProductPositive(a: real, b: real, product: real)
    requires product == a * b
    ensures a > 0.0 && b > 0.0 ==> product > 0.0
  {
  }

  function Times(a: real, b: real): real {
    a * b
  }

  /** The factor kept beside the half smooth time. */
  function InverseSquare(hst: real): real
    requires hst > 0.0
  {
    1.0 / Square(hst)
  }

  /** The definite integral for one move, clipped to it. */
  function PaMoveIntegrate(m: Move, pressureAdvance: real, base: real, start: real, end: real, timeOffset: real): real {
    var s, e := MaxReal(start, 0.0), MinReal(end, m.moveT);
    var q := MotionOf(m, pressureAdvance, base);
    WeightedIntegrate(q, s, e, timeOffset)
  }

  function WeightedIntegrate(q: Motion, start: real, end: real, timeOffset: real): real {
    ExtruderIntegrateTime(q, start, end) - Times(timeOffset, ExtruderIntegrate(q, start, end))
  }

  /** The motion's value, and its value weighted by the time since offset. */
  function ValueOf(base: real, v: real, ha: real, t: real): real {
    base + t * (v + t * ha)
  }

  function ValueAt(q: Motion, t: real): real {
    ValueOf(q.base, q.v, q.ha, t)
  }

  function WeightedAt(q: Motion, offset: real, t: real): real {
    Times(t - offset, ValueAt(q, t))
  }

  /** Simpson's rule, which is the integral for a polynomial of degree three or less. */
  function Simpson(a: real, mid: real, b: real, width: real): real {
    Times(width / 6.0, a + 4.0 * mid + b)
  }

  function Cube(x: real): real {
    x * Square(x)
  }

  function Fourth(x: real): real {
    x * Cube(x)
  }

  lemma LinearIntegral(s: real, e: real)
    ensures Simpson(s, (s + e) / 2.0, e, e - s) == 0.5 * Square(e) - 0.5 * Square(s)
  {
  }

  lemma SquareIntegral(s: real, e: real)
    ensures Simpson(Square(s), Square((s + e) / 2.0), Square(e), e - s) == 1.0 / 3.0 * Cube(e) - 1.0 / 3.0 * Cube(s)
  {
  }

  lemma CubeIntegral(s: real, e: real)
    ensures Simpson(Cube(s), Cube((s + e) / 2.0), Cube(e), e - s) == 0.25 * Fourth(e) - 0.25 * Fourth(s)
  {
    CubeOfMean(s, e, (s + e) / 2.0);
    FourthDifference(s, e);
    var mixed := s * (s * s) + s * s * e + s * e * e + e * (e * e);
    assert Cube(s) + 4.0 * Cube((s + e) / 2.0) + Cube(e) == 1.5 * mixed;
    assert Times((e - s) / 6.0, 1.5 * mixed) == 0.25 * ((e - s) * mixed);
  }

  lemma CubeOfMean(s: real, e: real, c: real)
    requires c == (s + e) / 2.0
    ensures 4.0 * (c * (c * c)) == 0.5 * (s * (s * s) + 3.0 * (s * s * e) + 3.0 * (s * e * e) + e * (e * e))
  {
  }

  lemma FourthDifference(s: real, e: real)
    ensures (e - s) * (s * (s * s) + s * s * e + s * e * e + e * (e * e)) == e * (e * (e * e)) - s * (s * (s * s))
  {
  }

  /** The antiderivatives and the weighted motion, power by power. */
  lemma Powers(b: real, v: real, h: real, x: real)
    ensures ValueOf(b, v, h, x) == b + Times(v, x) + Times(h, Square(x))
    ensures Times(x, ValueOf(b, v, h, x)) == Times(b, x) + Times(v, Square(x)) + Times(h, Cube(x))
    ensures AreaOf(b, v, h, x) == Times(b, x) + Times(v, 0.5 * Square(x)) + Times(h, 1.0 / 3.0 * Cube(x))
  {
  }

  lemma TimePowers(b: real, v: real, h: real, x: real)
    ensures TimeAreaOf(b, v, h, x)
         == Times(b, 0.5 * Square(x)) + Times(v, 1.0 / 3.0 * Cube(x)) + Times(h, 0.25 * Fourth(x))
  {
  }

  lemma SimpsonSum(a: real, b: real, c: real, x: real, y: real, z: real, width: real)
    ensures Simpson(a + x, b + y, c + z, width) == Simpson(a, b, c, width) + Simpson(x, y, z, width)
  {
    Distribute(width / 6.0, a + 4.0 * b + c, x + 4.0 * y + z);
  }

  /** Simpson's rule over a sum of three scaled quantities. */
  lemma SimpsonOfSum(b: real, v: real, h: real, p: (real, real, real), q: (real, real, real), r: (real, real, real),
                     w: real)
    ensures Simpson(Times(b, p.0) + Times(v, q.0) + Times(h, r.0), Times(b, p.1) + Times(v, q.1) + Times(h, r.1),
                    Times(b, p.2) + Times(v, q.2) + Times(h, r.2), w)
         == Times(b, Simpson(p.0, p.1, p.2, w)) + Times(v, Simpson(q.0, q.1, q.2, w))
           + Times(h, Simpson(r.0, r.1, r.2, w))
  {
    hide Simpson, Times;
    SimpsonScaled(b, p.0, p.1, p.2, w);
    SimpsonScaled(v, q.0, q.1, q.2, w);
    SimpsonScaled(h, r.0, r.1, r.2, w);
    SimpsonSum(Times(b, p.0), Times(b, p.1), Times(b, p.2), Times(v, q.0), Times(v, q.1), Times(v, q.2), w);
    SimpsonSum(Times(b, p.0) + Times(v, q.0), Times(b, p.1) + Times(v, q.1), Times(b, p.2) + Times(v, q.2),
               Times(h, r.0), Times(h, r.1), Times(h, r.2), w);
  }

  lemma UnitIntegral(width: real)
    ensures Simpson(1.0, 1.0, 1.0, width) == width
  {
  }

  lemma TimesOne(b: real)
    ensures Times(b, 1.0) == b
  {
  }

  lemma AreaIsIntegral(b: real, v: real, h: real, s: real, e: real, c: real)
    requires c == (s + e) / 2.0
    ensures AreaOf(b, v, h, e) - AreaOf(b, v, h, s)
         == Simpson(ValueOf(b, v, h, s), ValueOf(b, v, h, c), ValueOf(b, v, h, e), e - s)
  {
    hide AreaOf, ValueOf, Simpson, Times, Square, Cube;
    Powers(b, v, h, s);
    Powers(b, v, h, c);
    Powers(b, v, h, e);
    TimesOne(b);
    SimpsonOfSum(b, v, h, (1.0, 1.0, 1.0), (s, c, e), (Square(s), Square(c), Square(e)), e - s);
    UnitIntegral(e - s);
    LinearIntegral(s, e);
    SquareIntegral(s, e);
    Distribute(b, e, s);
    Distribute(v, 0.5 * Square(e), 0.5 * Square(s));
    Distribute(h, 1.0 / 3.0 * Cube(e), 1.0 / 3.0 * Cube(s));
  }

  lemma TimeAreaIsIntegral(b: real, v: real, h: real, s: real, e: real, c: real)
    requires c == (s + e) / 2.0
    ensures TimeAreaOf(b, v, h, e) - TimeAreaOf(b, v, h, s)
         == Simpson(Times(s, ValueOf(b, v, h, s)), Times(c, ValueOf(b, v, h, c)), Times(e, ValueOf(b, v, h, e)), e - s)
  {
    hide TimeAreaOf, ValueOf, Simpson, Times, Square, Cube, Fourth;
    Powers(b, v, h, s);
    Powers(b, v, h, c);
    Powers(b, v, h, e);
    TimeAreaDifference(b, v, h, s, e);
    SimpsonOfSum(b, v, h, (s, c, e), (Square(s), Square(c), Square(e)), (Cube(s), Cube(c), Cube(e)), e - s);
    LinearIntegral(s, e);
    SquareIntegral(s, e);
    CubeIntegral(s, e);
  }

  /** Each closed form is an integral: of the motion, and of the motion times t. */
  lemma IntegralsAreSimpson(q: Motion, s: real, e: real, c: real)
    requires c == (s + e) / 2.0
    ensures ExtruderIntegrate(q, s, e) == Simpson(ValueAt(q, s), ValueAt(q, c), ValueAt(q, e), e - s)
    ensures ExtruderIntegrateTime(q, s, e)
            == Simpson(Times(s, ValueAt(q, s)), Times(c, ValueAt(q, c)), Times(e, ValueAt(q, e)), e - s)
  {
    hide AreaOf, TimeAreaOf, ValueOf, Simpson, Times;
    AreaIsIntegral(q.base, q.v, q.ha, s, e, c);
    TimeAreaIsIntegral(q.base, q.v, q.ha, s, e, c);
  }

  /** The code's two closed forms together integrate the weighted motion. */
  lemma IntegralIsWeighted(q: Motion, s: real, e: real, o: real)
    ensures WeightedIntegrate(q, s, e, o)
         == Simpson(WeightedAt(q, o, s), WeightedAt(q, o, (s + e) / 2.0), WeightedAt(q, o, e), e - s)
  {
    hide ExtruderIntegrate, ExtruderIntegrateTime, ValueAt, Simpson, Times;
    var c := (s + e) / 2.0;
    IntegralsAreSimpson(q, s, e, c);
    SimpsonWeights(s, c, e, o, ValueAt(q, s), ValueAt(q, c), ValueAt(q, e));
  }

  lemma SimpsonWeights(s: real, c: real, e: real, o: real, vs: real, vc: real, ve: real)
    ensures Simpson(Times(s - o, vs), Times(c - o, vc), Times(e - o, ve), e - s)
         == Simpson(Times(s, vs), Times(c, vc), Times(e, ve), e - s) - Times(o, Simpson(vs, vc, ve, e - s))
  {
    hide Simpson, Times;
    TimesLess(s, o, vs);
    TimesLess(c, o, vc);
    TimesLess(e, o, ve);
    SimpsonLinear(Times(s, vs), Times(c, vc), Times(e, ve), Times(o, vs), Times(o, vc), Times(o, ve), e - s);
    SimpsonScaled(o, vs, vc, ve, e - s);
  }

  lemma TimesLess(a: real, b: real, x: real)
    ensures Times(a - b, x) == Times(a, x) - Times(b, x)
  {
  }

  lemma SimpsonLinear(a: real, b: real, c: real, x: real, y: real, z: real, width: real)
    ensures Simpson(a - x, b - y, c - z, width) == Simpson(a, b, c, width) - Simpson(x, y, z, width)
  {
    Distribute(width / 6.0, a + 4.0 * b + c, x + 4.0 * y + z);
  }

  lemma SimpsonScaled(k: real, a: real, b: real, c: real, width: real)
    ensures Simpson(Times(k, a), Times(k, b), Times(k, c), width) == Times(k, Simpson(a, b, c, width))
  {
    hide Times;
    ScaledMean(k, a, b, c);
    Reassociate(width / 6.0, k, a + 4.0 * b + c);
  }

  lemma ScaledMean(k: real, a: real, b: real, c: real)
    ensures Times(k, a) + 4.0 * Times(k, b) + Times(k, c) == Times(k, a + 4.0 * b + c)
  {
  }

  lemma Reassociate(w: real, k: real, x: real)
    ensures Times(w, Times(k, x)) == Times(k, Times(w, x))
  {
  }

  // ---------------------------------------------------------------------------
  // The window over all moves
  // ---------------------------------------------------------------------------

  /** A window in absolute time, and the time its weight is measured from. */
  datatype Window = Window(from: real, to: real, offset: real)

  /** Integral over the part of a window within [p, p + t], for a motion that starts at p. */
  function Part(q: Motion, p: real, t: real, w: Window): real {
    var lo, hi := MaxReal(w.from - p, 0.0), MinReal(w.to - p, t);
    if lo < hi then Lever(q, w.offset - p, hi) - Lever(q, w.offset - p, lo) else 0.0
  }

  /** One move's share of the window, relative to position x0. */
  function Piece(m: Move, pa: real, x0: real, w: Window): real {
    Part(MotionOf(m, pa, m.startPos.x - x0), m.printTime, m.moveT, w)
  }

  function Pieces(moves: seq<Move>, pa: real, x0: real, w: Window): real {
    if moves == [] then 0.0 else Pieces(moves[..|moves| - 1], pa, x0, w) + Piece(moves[|moves| - 1], pa, x0, w)
  }

  function LeftWindow(time: real, hst: real): Window {
    Window(time - hst, time, time - hst)
  }

  function RightWindow(time: real, hst: real): Window {
    Window(time, time + hst, time + hst)
  }

  /** The smoothed integral of the whole trajectory, relative to position x0. */
  function Smoothed(moves: seq<Move>, pa: real, x0: real, time: real, hst: real): real {
    Pieces(moves, pa, x0, LeftWindow(time, hst)) - Pieces(moves, pa, x0, RightWindow(time, hst))
  }

  /** The code's integral for a move is its share of the window, when the window reaches it. */
  lemma IntegrateIsPiece(m: Move, pa: real, x0: real, w: Window, start: real, end: real)
    requires MaxReal(start, 0.0) == MaxReal(w.from - m.printTime, 0.0)
    requires MinReal(end, m.moveT) == MinReal(w.to - m.printTime, m.moveT)
    requires MaxReal(start, 0.0) <= MinReal(end, m.moveT)
    ensures PaMoveIntegrate(m, pa, m.startPos.x - x0, start, end, w.offset - m.printTime) == Piece(m, pa, x0, w)
  {
    hide Lever, WeightedIntegrate, MotionOf;
    var q, s, e, o := MotionOf(m, pa, m.startPos.x - x0), MaxReal(start, 0.0), MinReal(end, m.moveT),
      w.offset - m.printTime;
    LeverDifference(q, o, s, e);
  }

  lemma LeverDifference(q: Motion, o: real, s: real, e: real)
    ensures WeightedIntegrate(q, s, e, o) == Lever(q, o, e) - Lever(q, o, s)
  {
    hide Area, TimeArea, Times;
    Distribute(o, Area(q, e), Area(q, s));
  }

  // ---------------------------------------------------------------------------
  // Cutting a move
  // ---------------------------------------------------------------------------

  /** The part of a move before and after a time within it. */
  function First(m: Move, tau: real): Move {
    m.(moveT := tau)
  }

  function Second(m: Move, tau: real): Move {
    Move(m.printTime + tau, m.moveT - tau, m.startV + 2.0 * m.halfAccel * tau, m.halfAccel,
         m.startPos.(x := m.startPos.x + Distance(m, tau)), m.axesR)
  }

  lemma SecondMotion(m: Move, tau: real, pa: real, x0: real)
    ensures MotionOf(Second(m, tau), pa, Second(m, tau).startPos.x - x0)
            == Later(MotionOf(m, pa, m.startPos.x - x0), tau)
  {
    var p := if m.axesR.y != 0.0 then pa else 0.0;
    var q := MotionOf(m, pa, m.startPos.x - x0);
    assert q == Motion(m.startPos.x - x0 + p * m.startV, m.startV + p * 2.0 * m.halfAccel, m.halfAccel);
    SecondPoly(m.startPos.x, x0, m.startV, m.halfAccel, p, tau, Distance(m, tau));
    hide Distance;
    assert Second(m, tau).startPos.x == m.startPos.x + Distance(m, tau);
  }

  lemma SecondPoly(x: real, x0: real, v: real, h: real, p: real, s: real, d: real)
    requires d == (v + h * s) * s
    ensures x + d - x0 + p * (v + 2.0 * h * s) == x - x0 + p * v + s * (v + p * 2.0 * h + s * h)
    ensures v + 2.0 * h * s + p * 2.0 * h == v + p * 2.0 * h + 2.0 * h * s
  {
  }

  /** The two parts of an interval share its integral. */
  lemma PartCut(q: Motion, p: real, t: real, tau: real, w: Window)
    requires 0.0 < tau < t
    ensures Part(q, p, t, w) == Part(q, p, tau, w) + Part(Later(q, tau), p + tau, t - tau, w)
  {
    var o, lo, hi := w.offset - p, MaxReal(w.from - p, 0.0), MinReal(w.to - p, t);
    hide Lever, Later;
    assert w.offset - (p + tau) == o - tau;
    LeverLater(q, o, tau, hi - tau);
    LeverLater(q, o, tau, lo - tau);
    LeverZero(Later(q, tau), o - tau);
    assert hi - tau + tau == hi && lo - tau + tau == lo;
  }

  /** Cutting a move in two leaves its share of any window unchanged. */
  lemma PieceCut(m: Move, tau: real, pa: real, x0: real, w: Window)
    requires 0.0 < tau < m.moveT
    ensures Piece(m, pa, x0, w) == Piece(First(m, tau), pa, x0, w) + Piece(Second(m, tau), pa, x0, w)
  {
    SecondMotion(m, tau, pa, x0);
    hide Part, Later, Distance;
    PartCut(MotionOf(m, pa, m.startPos.x - x0), m.printTime, m.moveT, tau, w);
    assert MotionOf(First(m, tau), pa, First(m, tau).startPos.x - x0) == MotionOf(m, pa, m.startPos.x - x0);
  }

  function Cut(moves: seq<Move>, k: nat, tau: real): seq<Move>
    requires k < |moves|
  {
    moves[..k] + [First(moves[k], tau), Second(moves[k], tau)] + moves[k + 1..]
  }

  lemma {:induction false} PiecesAppend(a: seq<Move>, b: seq<Move>, pa: real, x0: real, w: Window)
    ensures Pieces(a + b, pa, x0, w) == Pieces(a, pa, x0, w) + Pieces(b, pa, x0, w)
  {
    hide Piece;
    if b == [] {
      assert a + b == a;
    } else {
      var n := |b| - 1;
      PiecesAppend(a, b[..n], pa, x0, w);
      assert (a + b)[..|a| + n] == a + b[..n];
    }
  }

  /** Smoothing does not depend on how the trajectory is cut into moves. */
  lemma {:induction false} CutInvariant(moves: seq<Move>, k: nat, tau: real, pa: real, x0: real, w: Window)
    requires k < |moves| && 0.0 < tau < moves[k].moveT
    ensures Pieces(Cut(moves, k, tau), pa, x0, w) == Pieces(moves, pa, x0, w)
  {
    var m := moves[k];
    PieceCut(m, tau, pa, x0, w);
    hide Piece, First, Second;
    var front, back, parts := moves[..k], moves[k + 1..], [First(m, tau), Second(m, tau)];
    assert moves == front + [m] + back;
    PiecesAppend(front, [m], pa, x0, w);
    PiecesAppend(front + [m], back, pa, x0, w);
    PiecesAppend(front, parts, pa, x0, w);
    PiecesAppend(front + parts, back, pa, x0, w);
    OnePiece(m, pa, x0, w);
    PiecesAppend([First(m, tau)], [Second(m, tau)], pa, x0, w);
    assert parts == [First(m, tau)] + [Second(m, tau)];
    OnePiece(First(m, tau), pa, x0, w);
    OnePiece(Second(m, tau), pa, x0, w);
  }

  lemma {:induction false} OnePiece(m: Move, pa: real, x0: real, w: Window)
    ensures Pieces([m], pa, x0, w) == Piece(m, pa, x0, w)
  {
    hide Piece;
    assert [m][..0] == [];
  }

  // ---------------------------------------------------------------------------
  // Motion along one line
  // ---------------------------------------------------------------------------

  function ClampTo(x: real, w: Window): real {
    MinReal(MaxReal(x, w.from), w.to)
  }

  /** On the line c + v * x, an interval's part is a difference of one antiderivative. */
  lemma LinePart(c: real, v: real, p: real, t: real, w: Window)
    requires t >= 0.0 && w.from <= w.to
    ensures var line := Motion(c, v, 0.0);
            Part(Later(line, p), p, t, w)
              == Lever(line, w.offset, ClampTo(p + t, w)) - Lever(line, w.offset, ClampTo(p, w))
  {
    var line, lo, hi := Motion(c, v, 0.0), MaxReal(w.from - p, 0.0), MinReal(w.to - p, t);
    hide Lever, Later;
    LeverLater(line, w.offset, p, hi);
    LeverLater(line, w.offset, p, lo);
  }

  /** Every move follows the line, once pressure advance is applied. */
  ghost predicate OnLine(moves: seq<Move>, pa: real, x0: real, c: real, v: real) {
    forall k :: 0 <= k < |moves| ==>
      MotionOf(moves[k], pa, moves[k].startPos.x - x0) == Later(Motion(c, v, 0.0), moves[k].printTime)
  }

  /** The shares of contiguous moves on a line add up to the integral between their ends. */
  lemma {:induction false} LinePieces(moves: seq<Move>, pa: real, x0: real, c: real, v: real, w: Window)
    requires Contiguous(moves) && Positive(moves) && moves != [] && OnLine(moves, pa, x0, c, v) && w.from <= w.to
    ensures var line := Motion(c, v, 0.0);
            Pieces(moves, pa, x0, w) ==
              Lever(line, w.offset, ClampTo(End(moves[|moves| - 1]), w))
                - Lever(line, w.offset, ClampTo(moves[0].printTime, w))
  {
    var n := |moves| - 1;
    var m := moves[n];
    LinePart(c, v, m.printTime, m.moveT, w);
    assert Piece(m, pa, x0, w) == Part(Later(Motion(c, v, 0.0), m.printTime), m.printTime, m.moveT, w);
    hide Part, Lever, ClampTo, Later, MotionOf;
    if n > 0 {
      ContiguousPrefix(moves, n);
      LinePieces(moves[..n], pa, x0, c, v, w);
      assert End(moves[n - 1]) == m.printTime;
    } else {
      assert moves[..0] == [];
    }
  }

  /** Contiguous moves that cover a window. */
  ghost predicate CoversWindow(moves: seq<Move>, from: real, to: real) {
    Contiguous(moves) && Positive(moves) && moves != [] && moves[0].printTime <= from <= to <= End(moves[|moves| - 1])
  }

  /** The triangle has area Square(hst), and its centre is where it is placed. */
  lemma TriangleLine(c: real, v: real, time: real, hst: real)
    ensures (Lever(Motion(c, v, 0.0), time - hst, time) - Lever(Motion(c, v, 0.0), time - hst, time - hst)) -
            (Lever(Motion(c, v, 0.0), time + hst, time + hst) - Lever(Motion(c, v, 0.0), time + hst, time))
         == Times(c + v * time, Square(hst))
  {
  }

  /** On a line the smoothed integral is the value at the centre times hst squared. */
  lemma SmoothedLine(moves: seq<Move>, pa: real, x0: real, c: real, v: real, time: real, hst: real)
    requires hst >= 0.0 && CoversWindow(moves, time - hst, time + hst) && OnLine(moves, pa, x0, c, v)
    ensures Smoothed(moves, pa, x0, time, hst) == Times(c + v * time, Square(hst))
  {
    LinePieces(moves, pa, x0, c, v, LeftWindow(time, hst));
    LinePieces(moves, pa, x0, c, v, RightWindow(time, hst));
    TriangleLine(c, v, time, hst);
    hide Lever, Pieces, OnLine, Contiguous, Positive;
  }

  // ---------------------------------------------------------------------------
  // The base position does not matter
  // ---------------------------------------------------------------------------

  /** A move that stays at position 1. */
  function Flat(m: Move): Move {
    Move(m.printTime, m.moveT, 0.0, 0.0, Coord(1.0, 0.0, 0.0), ORIGIN)
  }

  function FlatAll(moves: seq<Move>): (r: seq<Move>)
    ensures |r| == |moves| && forall k :: 0 <= k < |r| ==> r[k] == Flat(moves[k])
  {
    if moves == [] then [] else FlatAll(moves[..|moves| - 1]) + [Flat(moves[|moves| - 1])]
  }

  lemma LeverShift(q: Motion, x0: real, offset: real, x: real)
    ensures Lever(q.(base := q.base - x0), offset, x)
            == Lever(q, offset, x) - Times(x0, Lever(Motion(1.0, 0.0, 0.0), offset, x))
  {
    hide AreaOf, TimeAreaOf, Times;
    var a, t := AreaOf(1.0, 0.0, 0.0, x), TimeAreaOf(1.0, 0.0, 0.0, x);
    AreaShift(q.base, q.v, q.ha, x0, x);
    Distribute(offset, Area(q, x), Times(x0, a));
    Distribute(x0, t, Times(offset, a));
    Reassociate(offset, x0, a);
  }

  lemma AreaShift(b: real, v: real, h: real, x0: real, x: real)
    ensures AreaOf(b - x0, v, h, x) == AreaOf(b, v, h, x) - Times(x0, AreaOf(1.0, 0.0, 0.0, x))
    ensures TimeAreaOf(b - x0, v, h, x) == TimeAreaOf(b, v, h, x) - Times(x0, TimeAreaOf(1.0, 0.0, 0.0, x))
  {
  }

  lemma PartShift(q: Motion, x0: real, p: real, t: real, w: Window)
    ensures Part(q.(base := q.base - x0), p, t, w) == Part(q, p, t, w) - Times(x0, Part(Motion(1.0, 0.0, 0.0), p, t, w))
  {
    var lo, hi, one := MaxReal(w.from - p, 0.0), MinReal(w.to - p, t), Motion(1.0, 0.0, 0.0);
    hide Lever, Times;
    LeverShift(q, x0, w.offset - p, lo);
    LeverShift(q, x0, w.offset - p, hi);
    Distribute(x0, Lever(one, w.offset - p, hi), Lever(one, w.offset - p, lo));
    TimesZero(x0);
  }

  lemma TimesZero(x: real)
    ensures Times(x, 0.0) == 0.0
  {
  }

  lemma Distribute(x: real, a: real, b: real)
    ensures Times(x, a - b) == Times(x, a) - Times(x, b)
    ensures Times(x, a + b) == Times(x, a) + Times(x, b)
  {
  }

  lemma PieceShift(m: Move, pa: real, x0: real, w: Window)
    ensures Piece(m, pa, x0, w) == Piece(m, pa, 0.0, w) - Times(x0, Piece(Flat(m), pa, 0.0, w))
  {
    var q := MotionOf(m, pa, m.startPos.x);
    assert MotionOf(m, pa, m.startPos.x - x0) == q.(base := q.base - x0);
    assert MotionOf(Flat(m), pa, 1.0) == Motion(1.0, 0.0, 0.0);
    hide Part, MotionOf, Times;
    PartShift(q, x0, m.printTime, m.moveT, w);
    assert m.startPos.x - 0.0 == m.startPos.x && Flat(m).startPos.x - 0.0 == 1.0;
  }

  lemma {:induction false} PiecesShift(moves: seq<Move>, pa: real, x0: real, w: Window)
    ensures Pieces(moves, pa, x0, w) == Pieces(moves, pa, 0.0, w) - Times(x0, Pieces(FlatAll(moves), pa, 0.0, w))
  {
    hide Piece, Flat, Times;
    if moves == [] {
      TimesZero(x0);
    } else {
      var n := |moves| - 1;
      PiecesShift(moves[..n], pa, x0, w);
      PieceShift(moves[n], pa, x0, w);
      var flat := FlatAll(moves);
      assert flat[..n] == FlatAll(moves[..n]) && flat[n] == Flat(moves[n]);
      var a, b := Pieces(FlatAll(moves[..n]), pa, 0.0, w), Piece(Flat(moves[n]), pa, 0.0, w);
      Distribute(x0, a, b);
    }
  }

  lemma {:induction false} FlatCovers(moves: seq<Move>, pa: real, from: real, to: real)
    requires CoversWindow(moves, from, to)
    ensures CoversWindow(FlatAll(moves), from, to) && OnLine(FlatAll(moves), pa, 0.0, 1.0, 0.0)
  {
    var flat := FlatAll(moves);
    forall i | 0 <= i < |flat| - 1
      ensures End(flat[i]) == flat[i + 1].printTime
    {
      assert End(moves[i]) == moves[i + 1].printTime;
    }
    forall k | 0 <= k < |flat|
      ensures MotionOf(flat[k], pa, flat[k].startPos.x - 0.0) == Later(Motion(1.0, 0.0, 0.0), flat[k].printTime)
    {
      var p := moves[k].printTime;
      assert p * (0.0 + p * 0.0) == 0.0;
    }
  }

  /** The weight of the whole triangle. */
  lemma {:induction false} FlatWeight(moves: seq<Move>, pa: real, time: real, hst: real)
    requires hst >= 0.0 && CoversWindow(moves, time - hst, time + hst)
    ensures Smoothed(FlatAll(moves), pa, 0.0, time, hst) == Square(hst)
  {
    FlatCovers(moves, pa, time - hst, time + hst);
    hide CoversWindow, OnLine, Smoothed, FlatAll, Square;
    SmoothedLine(FlatAll(moves), pa, 0.0, 1.0, 0.0, time, hst);
    assert 1.0 + 0.0 * time == 1.0 && Times(1.0, Square(hst)) == Square(hst);
  }

  /** Smoothing relative to a base position differs by that position under the whole triangle. */
  lemma SmoothedShift(moves: seq<Move>, pa: real, x0: real, time: real, hst: real)
    requires hst >= 0.0 && CoversWindow(moves, time - hst, time + hst)
    ensures Smoothed(moves, pa, x0, time, hst) == Smoothed(moves, pa, 0.0, time, hst) - Times(x0, Square(hst))
  {
    hide Pieces, CoversWindow, FlatAll, LeftWindow, RightWindow, Square, Times;
    var left, right, flat := LeftWindow(time, hst), RightWindow(time, hst), FlatAll(moves);
    PiecesShift(moves, pa, x0, left);
    PiecesShift(moves, pa, x0, right);
    FlatWeight(moves, pa, time, hst);
    Distribute(x0, Pieces(flat, pa, 0.0, left), Pieces(flat, pa, 0.0, right));
  }

  // ---------------------------------------------------------------------------
  // Walking the moves
  // ---------------------------------------------------------------------------

  /** Moves that a window does not reach have no share of it. */
  lemma {:induction false} OutsideIsZero(moves: seq<Move>, pa: real, x0: real, w: Window)
    requires forall k :: 0 <= k < |moves| ==> End(moves[k]) <= w.from || w.to <= moves[k].printTime
    ensures Pieces(moves, pa, x0, w) == 0.0
  {
    hide Lever, MotionOf;
    if moves != [] {
      OutsideIsZero(moves[..|moves| - 1], pa, x0, w);
      assert Piece(moves[|moves| - 1], pa, x0, w) == 0.0;
    }
  }

  /** Only the moves a window reaches matter. */
  lemma {:induction false} PiecesWithin(moves: seq<Move>, pa: real, x0: real, w: Window, j: nat, k: nat)
    requires Contiguous(moves) && Positive(moves) && j <= k < |moves|
    requires moves[j].printTime <= w.from && w.to <= End(moves[k])
    ensures Pieces(moves, pa, x0, w) == Share(moves, j, k + 1, pa, x0, w)
  {
    var front, mid, back := moves[..j], moves[j..k + 1], moves[k + 1..];
    assert moves == front + mid + back;
    forall n | 0 <= n < |front|
      ensures End(front[n]) <= w.from
    {
      StartsAscend(moves, n, j);
    }
    forall n | 0 <= n < |back|
      ensures w.to <= back[n].printTime
    {
      StartsAscend(moves, k, k + 1 + n);
    }
    hide Pieces;
    OutsideIsZero(front, pa, x0, w);
    OutsideIsZero(back, pa, x0, w);
    PiecesAppend(front, mid, pa, x0, w);
    PiecesAppend(front + mid, back, pa, x0, w);
  }

  lemma {:induction false} OneEarlier(moves: seq<Move>, pa: real, x0: real, w: Window, j: nat, k: nat)
    requires 0 < j < k <= |moves|
    ensures Pieces(moves[j - 1..k], pa, x0, w) == Piece(moves[j - 1], pa, x0, w) + Pieces(moves[j..k], pa, x0, w)
  {
    hide Pieces, Piece;
    assert moves[j - 1..k] == [moves[j - 1]] + moves[j..k];
    PiecesAppend([moves[j - 1]], moves[j..k], pa, x0, w);
    OnePiece(moves[j - 1], pa, x0, w);
  }

  lemma {:induction false} OneLater(moves: seq<Move>, pa: real, x0: real, w: Window, j: nat, k: nat)
    requires j <= k < |moves|
    ensures Pieces(moves[j..k + 1], pa, x0, w) == Pieces(moves[j..k], pa, x0, w) + Piece(moves[k], pa, x0, w)
  {
    hide Pieces, Piece;
    assert moves[j..k + 1] == moves[j..k] + [moves[k]];
    PiecesAppend(moves[j..k], [moves[k]], pa, x0, w);
    OnePiece(moves[k], pa, x0, w);
  }

  /** The share of a window that a run of moves has. */
  function Share(moves: seq<Move>, j: nat, k: nat, pa: real, x0: real, w: Window): real
    requires j <= k <= |moves|
  {
    Pieces(moves[j..k], pa, x0, w)
  }

  /** What the code adds for the current move. */
  lemma CurrentMove(moves: seq<Move>, i: nat, pa: real, w: Window, start: real, end: real)
    requires i < |moves| && start == w.from - moves[i].printTime && end == w.to - moves[i].printTime && start <= end
    requires start <= moves[i].moveT && 0.0 <= end && (0.0 <= start || end <= moves[i].moveT)
    ensures PaMoveIntegrate(moves[i], pa, 0.0, start, end, w.offset - moves[i].printTime)
            == Share(moves, i, i + 1, pa, moves[i].startPos.x, w)
  {
    var x0 := moves[i].startPos.x;
    assert moves[i].moveT >= 0.0;
    IntegrateIsPiece(moves[i], pa, x0, w, start, end);
    hide PaMoveIntegrate, Piece, Pieces;
    assert moves[i..i + 1] == [moves[i]] && x0 - x0 == 0.0;
    OnePiece(moves[i], pa, x0, w);
  }

  /** What the code adds for the next earlier move. */
  lemma EarlierMove(moves: seq<Move>, i: nat, j: nat, pa: real, x0: real, w: Window, start: real)
    requires Contiguous(moves) && Positive(moves) && 0 < j <= i < |moves|
    requires w.from == w.offset && start == w.from - moves[j].printTime && start < 0.0 && moves[i].printTime <= w.to
    ensures start + moves[j - 1].moveT == w.from - moves[j - 1].printTime
    ensures PaMoveIntegrate(moves[j - 1], pa, moves[j - 1].startPos.x - x0, start + moves[j - 1].moveT,
                            moves[j - 1].moveT, start + moves[j - 1].moveT)
            == Share(moves, j - 1, i + 1, pa, x0, w) - Share(moves, j, i + 1, pa, x0, w)
  {
    hide PaMoveIntegrate, Piece, Pieces;
    StartsAscend(moves, j - 1, i);
    assert End(moves[j - 1]) == moves[j].printTime && moves[j - 1].moveT > 0.0;
    IntegrateIsPiece(moves[j - 1], pa, x0, w, start + moves[j - 1].moveT, moves[j - 1].moveT);
    hide Contiguous, Positive;
    OneEarlier(moves, pa, x0, w, j, i + 1);
  }

  /** What the code adds for the next later move. */
  lemma LaterMove(moves: seq<Move>, i: nat, k: nat, pa: real, x0: real, w: Window, end: real)
    requires Contiguous(moves) && Positive(moves) && i <= k < |moves| - 1
    requires w.to == w.offset && end == w.to - moves[k].printTime && end > moves[k].moveT && w.from <= End(moves[i])
    ensures end - moves[k].moveT == w.to - moves[k + 1].printTime
    ensures PaMoveIntegrate(moves[k + 1], pa, moves[k + 1].startPos.x - x0, 0.0, end - moves[k].moveT,
                            end - moves[k].moveT)
            == Share(moves, i, k + 2, pa, x0, w) - Share(moves, i, k + 1, pa, x0, w)
  {
    hide PaMoveIntegrate, Piece, Pieces;
    StartsAscend(moves, i, k + 1);
    assert End(moves[k]) == moves[k + 1].printTime && moves[k + 1].moveT > 0.0;
    IntegrateIsPiece(moves[k + 1], pa, x0, w, 0.0, end - moves[k].moveT);
    hide Contiguous, Positive;
    OneLater(moves, pa, x0, w, i, k + 1);
  }

  /** Integrate over the moves before move i, as far as the window reaches. */
  method IntegrateEarlier(moves: seq<Move>, i: nat, pa: real, startBase: real, moveStart: real, ghost w: Window)
    returns (sum: real)
    requires Contiguous(moves) && Positive(moves) && i < |moves|
    requires w.from == w.offset == moveStart + moves[i].printTime
    requires moves[0].printTime <= w.from && moves[i].printTime <= w.to <= End(moves[i])
    ensures sum == Pieces(moves, pa, startBase, w) - Share(moves, i, i + 1, pa, startBase, w)
  {
    hide PaMoveIntegrate, Pieces, Share, Contiguous, Positive;
    var j, start := i, moveStart;
    sum := 0.0;
    while start < 0.0
      invariant 0 <= j <= i && start == w.from - moves[j].printTime
      invariant sum == Share(moves, j, i + 1, pa, startBase, w) - Share(moves, i, i + 1, pa, startBase, w)
      decreases j
    {
      EarlierMove(moves, i, j, pa, startBase, w, start);
      j := j - 1;
      start := start + moves[j].moveT;
      sum := sum + PaMoveIntegrate(moves[j], pa, moves[j].startPos.x - startBase, start, moves[j].moveT, start);
    }
    PiecesWithin(moves, pa, startBase, w, j, i);
  }

  /** Integrate over the moves after move i, as far as the window reaches. */
  method IntegrateLater(moves: seq<Move>, i: nat, pa: real, startBase: real, moveEnd: real, ghost w: Window)
    returns (sum: real)
    requires Contiguous(moves) && Positive(moves) && i < |moves|
    requires w.to == w.offset == moveEnd + moves[i].printTime
    requires w.to <= End(moves[|moves| - 1]) && moves[i].printTime <= w.from <= End(moves[i])
    ensures sum == Pieces(moves, pa, startBase, w) - Share(moves, i, i + 1, pa, startBase, w)
  {
    hide PaMoveIntegrate, Pieces, Share, Contiguous, Positive;
    var k, end := i, moveEnd;
    sum := 0.0;
    while end > moves[k].moveT
      invariant i <= k < |moves| && end == w.to - moves[k].printTime
      invariant sum == Share(moves, i, k + 1, pa, startBase, w) - Share(moves, i, i + 1, pa, startBase, w)
      decreases |moves| - k
    {
      LaterMove(moves, i, k, pa, startBase, w, end);
      end := end - moves[k].moveT;
      k := k + 1;
      sum := sum + PaMoveIntegrate(moves[k], pa, moves[k].startPos.x - startBase, 0.0, end, end);
    }
    PiecesWithin(moves, pa, startBase, w, i, k);
  }

  /** Integrate over the current move, then over the moves before and after it as far as the window reaches. */
  method PaRangeIntegrate(moves: seq<Move>, i: nat, moveTime: real, pa: real, hst: real) returns (res: real)
    requires hst >= 0.0 && i < |moves| && 0.0 <= moveTime <= moves[i].moveT
    requires CoversWindow(moves, moves[i].printTime + moveTime - hst, moves[i].printTime + moveTime + hst)
    ensures res == Smoothed(moves, pa, moves[i].startPos.x, moves[i].printTime + moveTime, hst)
  {
    ghost var time := moves[i].printTime + moveTime;
    ghost var left, right := LeftWindow(time, hst), RightWindow(time, hst);
    var start, end := moveTime - hst, moveTime + hst;
    var startBase := moves[i].startPos.x;
    hide PaMoveIntegrate, Pieces, Share, Contiguous, Positive;
    CurrentMove(moves, i, pa, left, start, moveTime);
    CurrentMove(moves, i, pa, right, moveTime, end);
    res := PaMoveIntegrate(moves[i], pa, 0.0, start, moveTime, start);
    res := res - PaMoveIntegrate(moves[i], pa, 0.0, moveTime, end, end);
    var earlier := IntegrateEarlier(moves, i, pa, startBase, start, left);
    var later := IntegrateLater(moves, i, pa, startBase, end, right);
    res := res + earlier - later;
  }

  /** The triangular average of pressure-advanced position around a time. */
  function SmoothPosition(moves: seq<Move>, pa: real, time: real, hst: real): real
    requires hst > 0.0
  {
    Times(Smoothed(moves, pa, 0.0, time, hst), InverseSquare(hst))
  }

  /** The position comes out the same whichever move it is measured from. */
  method ExtruderCalcPosition(moves: seq<Move>, i: nat, moveTime: real, pa: real, hst: real) returns (position: real)
    requires hst >= 0.0 && i < |moves| && 0.0 <= moveTime <= moves[i].moveT
    requires CoversWindow(moves, moves[i].printTime + moveTime - hst, moves[i].printTime + moveTime + hst)
    ensures hst == 0.0 ==> position == moves[i].startPos.x + Distance(moves[i], moveTime)
    ensures hst > 0.0 ==> position == SmoothPosition(moves, pa, moves[i].printTime + moveTime, hst)
  {
    if hst == 0.0 {
      return moves[i].startPos.x + Distance(moves[i], moveTime);
    }
    var area := PaRangeIntegrate(moves, i, moveTime, pa, hst);
    position := moves[i].startPos.x + Times(area, InverseSquare(hst));
    hide Smoothed, CoversWindow, Distance, Square, Times, InverseSquare;
    SmoothedShift(moves, pa, moves[i].startPos.x, moves[i].printTime + moveTime, hst);
    AddBase(moves[i].startPos.x, area, Smoothed(moves, pa, 0.0, moves[i].printTime + moveTime, hst), hst);
  }

  lemma AddBase(x0: real, area: real, whole: real, hst: real)
    requires hst > 0.0 && area == whole - Times(x0, Square(hst))
    ensures x0 + Times(area, InverseSquare(hst)) == Times(whole, InverseSquare(hst))
  {
    hide Square, Times, InverseSquare;
    CancelSquare(x0, hst);
    TimesLess(whole, Times(x0, Square(hst)), InverseSquare(hst));
  }

  lemma CancelSquare(a: real, hst: real)
    requires hst > 0.0
    ensures Times(Times(a, Square(hst)), InverseSquare(hst)) == a
  {
    hide Square;
    var s := Square(hst);
    assert s * (1.0 / s) == 1.0;
    assert a * s * (1.0 / s) == a * (s * (1.0 / s));
  }

  /** Cutting a move in two changes no position. */
  lemma CutKeepsPosition(moves: seq<Move>, k: nat, tau: real, pa: real, time: real, hst: real)
    requires hst > 0.0 && k < |moves| && 0.0 < tau < moves[k].moveT
    ensures SmoothPosition(Cut(moves, k, tau), pa, time, hst) == SmoothPosition(moves, pa, time, hst)
  {
    CutInvariant(moves, k, tau, pa, 0.0, LeftWindow(time, hst));
    CutInvariant(moves, k, tau, pa, 0.0, RightWindow(time, hst));
    hide Pieces, Cut;
  }

  /** Moves at one velocity along one line, all with pressure advance or all without. */
  ghost predicate ConstantVelocity(moves: seq<Move>, c: real, v: real, advances: bool) {
    forall k :: 0 <= k < |moves| ==> MovesAlong(moves[k], c, v, advances)
  }

  predicate MovesAlong(m: Move, c: real, v: real, advances: bool) {
    m.halfAccel == 0.0 && m.startV == v && (m.axesR.y != 0.0 <==> advances) && m.startPos.x == c + v * m.printTime
  }

  /** The moves from j to k are a queue of their own that covers the window. */
  lemma SliceCovers(moves: seq<Move>, j: nat, k: nat, from: real, to: real)
    requires Contiguous(moves) && Positive(moves) && j <= k < |moves|
    requires moves[j].printTime <= from <= to <= End(moves[k])
    ensures CoversWindow(moves[j..k + 1], from, to)
  {
    var slice := moves[j..k + 1];
    forall i | 0 <= i < |slice| - 1
      ensures End(slice[i]) == slice[i + 1].printTime
    {
      assert End(moves[j + i]) == moves[j + i + 1].printTime;
    }
  }

  /**
   * Where the moves that the window reaches keep one velocity, the smoothed position is the nominal one plus
   * pressure advance times velocity, whatever the rest of the queue does.
   */
  lemma ConstantVelocityPosition(moves: seq<Move>, j: nat, k: nat, c: real, v: real, advances: bool,
                                 pa: real, time: real, hst: real)
    requires hst > 0.0 && Contiguous(moves) && Positive(moves) && j <= k < |moves|
    requires moves[j].printTime <= time - hst && time + hst <= End(moves[k])
    requires ConstantVelocity(moves[j..k + 1], c, v, advances)
    ensures SmoothPosition(moves, pa, time, hst) == c + v * time + (if advances then pa * v else 0.0)
  {
    hide *;
    var slice, p := moves[j..k + 1], if advances then pa else 0.0;
    SliceSmoothed(moves, j, k, pa, time, hst);
    var start := c + p * v;
    AlongIsOnLine(slice, c, v, advances, pa, start);
    SliceCovers(moves, j, k, time - hst, time + hst);
    SmoothedLine(slice, pa, 0.0, start, v, time, hst);
    PositionFrom(moves, pa, time, hst, start + v * time);
  }

  lemma PositionFrom(moves: seq<Move>, pa: real, time: real, hst: real, value: real)
    requires hst > 0.0 && Smoothed(moves, pa, 0.0, time, hst) == Times(value, Square(hst))
    ensures SmoothPosition(moves, pa, time, hst) == value
  {
    hide Smoothed, Times, Square, InverseSquare;
    CancelSquare(value, hst);
  }

  lemma SliceSmoothed(moves: seq<Move>, j: nat, k: nat, pa: real, time: real, hst: real)
    requires hst > 0.0 && Contiguous(moves) && Positive(moves) && j <= k < |moves|
    requires moves[j].printTime <= time - hst && time + hst <= End(moves[k])
    ensures Smoothed(moves, pa, 0.0, time, hst) == Smoothed(moves[j..k + 1], pa, 0.0, time, hst)
  {
    hide Pieces, Contiguous, Positive;
    PiecesWithin(moves, pa, 0.0, LeftWindow(time, hst), j, k);
    PiecesWithin(moves, pa, 0.0, RightWindow(time, hst), j, k);
  }

  lemma AlongIsOnLine(moves: seq<Move>, c: real, v: real, advances: bool, pa: real, start: real)
    requires ConstantVelocity(moves, c, v, advances) && start == c + (if advances then pa else 0.0) * v
    ensures OnLine(moves, pa, 0.0, start, v)
  {
    hide MotionOf, Later, MovesAlong;
    forall n | 0 <= n < |moves|
      ensures MotionOf(moves[n], pa, moves[n].startPos.x - 0.0) == Later(Motion(start, v, 0.0), moves[n].printTime)
    {
      OnLineMotion(moves[n], pa, c, v, advances, start);
    }
  }

  lemma OnLineMotion(m: Move, pa: real, c: real, v: real, advances: bool, start: real)
    requires MovesAlong(m, c, v, advances) && start == c + (if advances then pa else 0.0) * v
    ensures MotionOf(m, pa, m.startPos.x - 0.0) == Later(Motion(start, v, 0.0), m.printTime)
  {
    var t, p := m.printTime, if advances then pa else 0.0;
    assert t * (v + t * 0.0) == v * t;
    assert p * 2.0 * m.halfAccel == 0.0;
  }
}
