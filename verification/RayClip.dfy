/** Ray tracing in the obstacle layer: moving the far end of a clearing ray onto the map. */
module RayClip {
  import opened Reals

  const MARGIN := 0.001

  datatype Vec = Vec(x: real, y: real)

  /** The map covers `[x0, x1)` by `[y0, y1)`. */
  datatype MapArea = MapArea(x0: real, y0: real, x1: real, y1: real) {
    predicate InMap(p: Vec) {
      x0 <= p.x < x1 && y0 <= p.y < y1
    }

    predicate InClosedMap(p: Vec) {
      x0 <= p.x <= x1 && y0 <= p.y <= y1
    }

    predicate RoomForMargin() {
      x1 - x0 >= 0.001 && y1 - y0 >= 0.001
    }
  }

  /** One coordinate of the ray: `t` runs from 0 at the sensor to 1 at the far end. */
  function Along(o: real, a: real, t: real): real {
    o + a * t
  }

  /** The `t` at which a coordinate reaches `bound`. */
  function Meets(o: real, a: real, bound: real): real
    requires a != 0.0
  {
    (bound - o) / a
  }

  function On(o: Vec, w: Vec, t: real): Vec {
    Vec(Along(o.x, w.x - o.x, t), Along(o.y, w.y - o.y, t))
  }

  /** Where the ray leaves the map: the last of its points that lies in the closed rectangle. */
  ghost predicate Exit(m: MapArea, o: Vec, w: Vec, t: real) {
    && 0.0 <= t <= 1.0
    && m.InClosedMap(On(o, w, t))
    && forall u: real | t < u <= 1.0 :: !m.InClosedMap(On(o, w, u))
  }

  lemma ExitUnique(m: MapArea, o: Vec, w: Vec, t: real, u: real)
    requires Exit(m, o, w, t) && Exit(m, o, w, u)
    ensures t == u
  {
    hide On;
  }

  /** The ray has crossed the lower end of a coordinate. */
  lemma CrossedLow(o: real, a: real, s: real, lo: real)
    requires 0.0 <= s && lo <= o && Along(o, a, s) < lo
    ensures a != 0.0
    ensures var t := Meets(o, a, lo);
            0.0 <= t < s && Along(o, a, t) == lo && forall u: real | u > t :: Along(o, a, u) < lo
  {
    NegativeSlope(a, s, lo - o);
    var t := (lo - o) / a;
    assert t * a == lo - o;
    Ordered(a, t, s, lo - o);
    forall u: real | u > t
      ensures Along(o, a, u) < lo
    {
      Falls(a, t, u);
    }
  }

  lemma CrossedHigh(o: real, a: real, s: real, hi: real)
    requires 0.0 <= s && o <= hi && hi < Along(o, a, s)
    ensures a != 0.0
    ensures var t := Meets(o, a, hi);
            0.0 <= t < s && Along(o, a, t) == hi && forall u: real | u > t :: hi < Along(o, a, u)
  {
    NegativeSlope(-a, s, o - hi);
    var t := (hi - o) / a;
    assert t * a == hi - o;
    Ordered(-a, t, s, o - hi);
    forall u: real | u > t
      ensures hi < Along(o, a, u)
    {
      Falls(-a, t, u);
    }
  }

  lemma NegativeSlope(a: real, s: real, d: real)
    requires 0.0 <= s && a * s < d <= 0.0
    ensures a < 0.0
  {
    SignOfProduct(a, s);
  }

  lemma Ordered(a: real, t: real, s: real, d: real)
    requires a < 0.0 && t * a == d && d <= 0.0 && a * s < d
    ensures 0.0 <= t < s
  {
    var d' := s - t;
    SignOfProduct(t, a);
    SignOfProduct(d', a);
    assert d' * a == a * s - t * a;
  }

  lemma Falls(a: real, t: real, u: real)
    requires a < 0.0 && t < u
    ensures a * u < a * t
  {
    var d := u - t;
    SignOfProduct(d, a);
    assert d * a == a * u - a * t;
  }

  /** A stretch of the ray stays within a bound that both its ends keep. */
  lemma StaysBounded(o: real, a: real, t: real, s: real, lo: real)
    requires 0.0 <= t <= s
    ensures lo <= o && lo <= Along(o, a, s) ==> lo <= Along(o, a, t)
    ensures o <= lo && Along(o, a, s) <= lo ==> Along(o, a, t) <= lo
  {
    var d := s - t;
    SignOfProduct(a, t);
    SignOfProduct(a, d);
    assert a * d == a * s - a * t;
  }

  /** The same, away from the far end of the stretch. */
  lemma StaysInside(o: real, a: real, t: real, s: real, lo: real)
    requires 0.0 <= t < s
    ensures lo < o && lo <= Along(o, a, s) ==> lo < Along(o, a, t)
    ensures o < lo && Along(o, a, s) <= lo ==> Along(o, a, t) < lo
    ensures Along(o, a, 1.0) < lo <= o && lo <= Along(o, a, s) ==> lo < Along(o, a, t)
  {
    var d, one := s - t, 1.0;
    SignOfProduct(a, t);
    SignOfProduct(a, d);
    assert a * d == a * s - a * t && a * one == a;
  }

  // ---------------------------------------------------------------- one clip at a time

  /** The ray has left the map for good at `s`. */
  ghost predicate Left(m: MapArea, o: Vec, w: Vec, s: real) {
    0.0 <= s <= 1.0 && forall u: real | s < u <= 1.0 :: !m.InClosedMap(On(o, w, u))
  }

  lemma AtFarEnd(m: MapArea, o: Vec, w: Vec)
    ensures On(o, w, 1.0) == w && Left(m, o, w, 1.0)
  {
  }

  lemma ClipLeft(m: MapArea, o: Vec, w: Vec)
    requires m.InMap(o) && w.x < m.x0
    ensures w.x - o.x != 0.0
    ensures var t := Meets(o.x, w.x - o.x, m.x0); t < 1.0 && Left(m, o, w, t) && On(o, w, t).x == m.x0
  {
    hide Along;
    var one := 1.0;
    AtFarEnd(m, o, w);
    CrossedLow(o.x, w.x - o.x, one, m.x0);
  }

  lemma ClipBottom(m: MapArea, o: Vec, w: Vec, s: real)
    requires m.InMap(o) && Left(m, o, w, s) && m.x0 <= On(o, w, s).x && On(o, w, s).y < m.y0
    ensures w.y - o.y != 0.0
    ensures var t := Meets(o.y, w.y - o.y, m.y0);
            t < s && Left(m, o, w, t) && m.x0 <= On(o, w, t).x && On(o, w, t).y == m.y0
    ensures w.y < m.y0
  {
    hide Along;
    var b := w.y - o.y;
    AtFarEnd(m, o, w);
    CrossedLow(o.y, b, s, m.y0);
    var t := Meets(o.y, b, m.y0);
    StaysBounded(o.x, w.x - o.x, t, s, m.x0);
  }

  lemma ClipRight(m: MapArea, o: Vec, w: Vec, s: real)
    requires m.InMap(o) && Left(m, o, w, s) && m.y0 <= On(o, w, s).y && m.x1 < On(o, w, s).x
    ensures w.x - o.x != 0.0
    ensures var t := Meets(o.x, w.x - o.x, m.x1);
            && t < s && Left(m, o, w, t) && On(o, w, t).x == m.x1 && m.y0 <= On(o, w, t).y
            && (w.y < m.y0 ==> m.y0 < On(o, w, t).y)
  {
    hide Along;
    var a := w.x - o.x;
    AtFarEnd(m, o, w);
    CrossedHigh(o.x, a, s, m.x1);
    var t := Meets(o.x, a, m.x1);
    StaysBounded(o.y, w.y - o.y, t, s, m.y0);
    StaysInside(o.y, w.y - o.y, t, s, m.y0);
  }

  lemma ClipTop(m: MapArea, o: Vec, w: Vec, s: real)
    requires m.InMap(o) && Left(m, o, w, s) && m.x0 <= On(o, w, s).x <= m.x1 && m.y1 < On(o, w, s).y
    ensures w.y - o.y != 0.0
    ensures var t := Meets(o.y, w.y - o.y, m.y1);
            && t < s && Left(m, o, w, t) && m.x0 <= On(o, w, t).x < m.x1 && On(o, w, t).y == m.y1
            && (w.x < m.x0 ==> m.x0 < On(o, w, t).x)
  {
    hide Along;
    var b := w.y - o.y;
    AtFarEnd(m, o, w);
    CrossedHigh(o.y, b, s, m.y1);
    var t := Meets(o.y, b, m.y1);
    StaysBounded(o.x, w.x - o.x, t, s, m.x0);
    StaysInside(o.x, w.x - o.x, t, s, m.x1);
    StaysInside(o.x, w.x - o.x, t, s, m.x0);
  }

  // ---------------------------------------------------------------- all four

  /** What the clipping makes of the point where the ray leaves the map. */
  ghost predicate ClippedTo(m: MapArea, o: Vec, w: Vec, t: real, r: Vec) {
    var p := On(o, w, t);
    || r == p
    || (p.x == m.x1 && r == Vec(m.x1 - 0.001, p.y))
    || (p.y == m.y1 && r == Vec(p.x, m.y1 - 0.001))
  }

  /** The ray leaves through a corner of an upper edge. */
  predicate ThroughCorner(m: MapArea, w: Vec, p: Vec) {
    || (p.x == m.x1 && p.y == m.y1)
    || (p.x == m.x1 && p.y == m.y0 && w.y < m.y0)
    || (p.x == m.x0 && p.y == m.y1 && w.x < m.x0)
  }

  /** The rays that are traced: those that end inside, and those that leave other than through such a corner. */
  predicate Traced(m: MapArea, o: Vec, w: Vec, t: real) {
    var p := On(o, w, t);
    if t == 1.0 then p.x < m.x1 && p.y < m.y1 else !ThroughCorner(m, w, p)
  }

  ghost predicate Outcome(m: MapArea, o: Vec, w: Vec, r: Vec, t: real) {
    && Exit(m, o, w, t) && ClippedTo(m, o, w, t, r)
    && (m.InClosedMap(w) ==> r == w)
    && (m.RoomForMargin() ==> m.InClosedMap(r) && (m.InMap(r) <==> Traced(m, o, w, t)))
  }

  /** The far end after the four clips. */
  method Clip(m: MapArea, o: Vec, w: Vec) returns (r: Vec)
    requires m.InMap(o)
    ensures exists t: real :: Outcome(m, o, w, r, t)
  {
    hide On, Left, Along, Meets;
    var wx, wy, a, b := w.x, w.y, w.x - o.x, w.y - o.y;
    ghost var s := 1.0;
    AtFarEnd(m, o, w);
    if wx < m.x0 {
      ClipLeft(m, o, w);
      var t := Meets(o.x, a, m.x0);
      OtherCoordinate(o, w, t);
      wx := m.x0;
      wy := Along(o.y, b, t);
      s := t;
    }
    if wy < m.y0 {
      ClipBottom(m, o, w, s);
      var t := Meets(o.y, b, m.y0);
      OtherCoordinate(o, w, t);
      wx := Along(o.x, a, t);
      wy := m.y0;
      s := t;
    }
    assert Vec(wx, wy) == On(o, w, s) && m.x0 <= wx && m.y0 <= wy;
    assert s == 1.0 || (wx == m.x0 && w.x < m.x0) || (wy == m.y0 && w.y < m.y0);
    if wx > m.x1 {
      ClipRight(m, o, w, s);
      var t := Meets(o.x, a, m.x1);
      OtherCoordinate(o, w, t);
      wx := m.x1 - MARGIN;
      wy := Along(o.y, b, t);
      s := t;
    }
    if wy > m.y1 {
      ClipTop(m, o, w, s);
      var t := Meets(o.y, b, m.y1);
      OtherCoordinate(o, w, t);
      wx := Along(o.x, a, t);
      wy := m.y1 - MARGIN;
      s := t;
    }
    r := Vec(wx, wy);
    LeftAtExit(m, o, w, s);
    assert Outcome(m, o, w, r, s);
  }

  lemma OtherCoordinate(o: Vec, w: Vec, t: real)
    ensures On(o, w, t).x == Along(o.x, w.x - o.x, t) && On(o, w, t).y == Along(o.y, w.y - o.y, t)
  {
  }

  lemma LeftAtExit(m: MapArea, o: Vec, w: Vec, t: real)
    requires Left(m, o, w, t)
    ensures m.InClosedMap(On(o, w, t)) <==> Exit(m, o, w, t)
  {
  }

  /** A ray from the middle of a unit map through its upper right corner: it clears nothing. */
  lemma DiagonalNotTraced(t: real)
    requires t == 1.0 / 3.0
    ensures var m, o, w := MapArea(0.0, 0.0, 1.0, 1.0), Vec(0.5, 0.5), Vec(2.0, 2.0);
            m.InMap(o) && m.RoomForMargin() && Exit(m, o, w, t) && !Traced(m, o, w, t)
  {
    var m, o, w := MapArea(0.0, 0.0, 1.0, 1.0), Vec(0.5, 0.5), Vec(2.0, 2.0);
    assert On(o, w, t) == Vec(1.0, 1.0);
    forall u: real | t < u <= 1.0
      ensures !m.InClosedMap(On(o, w, u))
    {
      assert On(o, w, u).x == 0.5 + 1.5 * u;
    }
  }
}
