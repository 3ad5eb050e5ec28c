/** `projectState` and `transformPoints`: moving a pose by a velocity, and seeing points from a pose. */
module Kinematics {
  import opened Reals
  import opened RayCrossing

  datatype Pose = Pose(x: real, y: real, theta: real)

  datatype Velocity = Velocity(x: real, y: real, tw: real) {
    function Scaled(k: real): Velocity {
      Velocity(x * k, y * k, tw * k)
    }

    lemma ScaledParts(k: real)
      ensures Scaled(k) == Velocity(Covered(x, k), Covered(y, k), Covered(tw, k))
    {
    }

    predicate IsZero() {
      x == 0.0 && y == 0.0 && tw == 0.0
    }
  }

  /** Cosine and sine of the same angle lie on the unit circle; nothing else is used of them. */
  datatype Trig = Trig(cos: real -> real, sin: real -> real) {
    function Cos(t: real): real {
      cos(t)
    }

    function Sin(t: real): real {
      sin(t)
    }

    ghost predicate Sound() {
      forall t: real {:trigger Cos(t)} :: cos(t) * cos(t) + sin(t) * sin(t) == 1.0
    }
  }

  /** The distance, or the angle, covered at a rate in `dt`. */
  function Covered(rate: real, dt: real): real {
    rate * dt
  }

  function Square(x: real, y: real): real {
    x * x + y * y
  }

  /** A vector turned by the angle with cosine `c` and sine `s`, backwards and forwards. */
  function Back(c: real, s: real, x: real, y: real): Point {
    Point(x * c + y * s, -x * s + y * c)
  }

  function Forth(c: real, s: real, x: real, y: real): Point {
    Point(x * c - y * s, x * s + y * c)
  }

  // ---------------------------------------------------------------- frames

  /** The point as seen from the pose. */
  function Seen(trig: Trig, pose: Pose, p: Point): Point {
    Back(trig.Cos(pose.theta), trig.Sin(pose.theta), p.x - pose.x, p.y - pose.y)
  }

  /** The body of the loop, for a pose whose cosine and sine are at hand. */
  function TransformPoint(trig: Trig, pose: Pose, cosTheta: real, sinTheta: real, point: Point): (p: Point)
    requires cosTheta == trig.Cos(pose.theta) && sinTheta == trig.Sin(pose.theta)
    ensures p == Seen(trig, pose, point)
  {
    var mulX, mulY := point.x - pose.x, point.y - pose.y;
    Point(mulX * cosTheta + mulY * sinTheta, -mulX * sinTheta + mulY * cosTheta)
  }

  method TransformPoints(trig: Trig, pose: Pose, points: array<Point>)
    modifies points
    ensures forall i | 0 <= i < points.Length :: points[i] == Seen(trig, pose, old(points[i]))
  {
    hide Seen;
    var cosTheta, sinTheta := trig.Cos(pose.theta), trig.Sin(pose.theta);
    for i := 0 to points.Length
      invariant forall j | 0 <= j < i :: points[j] == Seen(trig, pose, old(points[j]))
      invariant forall j | i <= j < points.Length :: points[j] == old(points[j])
    {
      points[i] := TransformPoint(trig, pose, cosTheta, sinTheta, points[i]);
    }
  }

  lemma RotatedSquares(c: real, s: real, x: real, y: real)
    requires c * c + s * s == 1.0
    ensures (x * c + y * s) * (x * c + y * s) + (-x * s + y * c) * (-x * s + y * c) == x * x + y * y
    ensures (x * c - y * s) * (x * c - y * s) + (x * s + y * c) * (x * s + y * c) == x * x + y * y
  {
    var cc, ss, xx, yy, xy, cs := c * c, s * s, x * x, y * y, x * y, c * s;
    assert (x * c + y * s) * (x * c + y * s) == xx * cc + 2.0 * (xy * cs) + yy * ss;
    assert (-x * s + y * c) * (-x * s + y * c) == xx * ss - 2.0 * (xy * cs) + yy * cc;
    assert (x * c - y * s) * (x * c - y * s) == xx * cc - 2.0 * (xy * cs) + yy * ss;
    assert (x * s + y * c) * (x * s + y * c) == xx * ss + 2.0 * (xy * cs) + yy * cc;
    assert xx * cc + xx * ss == xx * (cc + ss) && yy * cc + yy * ss == yy * (cc + ss);
  }

  lemma RotationKeepsLength(c: real, s: real, x: real, y: real)
    requires c * c + s * s == 1.0
    ensures Square(Back(c, s, x, y).x, Back(c, s, x, y).y) == Square(x, y)
    ensures Square(Forth(c, s, x, y).x, Forth(c, s, x, y).y) == Square(x, y)
  {
    RotatedSquares(c, s, x, y);
  }

  /** Changing the frame keeps all distances, from the robot and between points. */
  lemma SeenIsIsometry(trig: Trig, pose: Pose, p: Point, q: Point)
    requires trig.Sound()
    ensures var p', q' := Seen(trig, pose, p), Seen(trig, pose, q);
            && Square(p'.x, p'.y) == Square(p.x - pose.x, p.y - pose.y)
            && Square(p'.x - q'.x, p'.y - q'.y) == Square(p.x - q.x, p.y - q.y)
  {
    hide Square, Back;
    var c, s := trig.Cos(pose.theta), trig.Sin(pose.theta);
    RotationKeepsLength(c, s, p.x - pose.x, p.y - pose.y);
    RotationKeepsLength(c, s, p.x - q.x, p.y - q.y);
    BackOfDifference(c, s, p.x - pose.x, p.y - pose.y, q.x - pose.x, q.y - pose.y);
  }

  /** Where the pose's frame puts a point of its own: `p = R * p' + pose`. */
  function Placed(trig: Trig, pose: Pose, p: Point): Point {
    var c, s := trig.cos(pose.theta), trig.sin(pose.theta);
    Point(pose.x + (c * p.x - s * p.y), pose.y + (s * p.x + c * p.y))
  }

  lemma PlacedIsForth(trig: Trig, pose: Pose, p: Point)
    ensures var f := Forth(trig.Cos(pose.theta), trig.Sin(pose.theta), p.x, p.y);
            Placed(trig, pose, p) == Point(pose.x + f.x, pose.y + f.y)
  {
    var c, s := trig.cos(pose.theta), trig.sin(pose.theta);
    assert c * p.x == p.x * c && s * p.y == p.y * s && s * p.x == p.x * s && c * p.y == p.y * c;
  }

  /** Changing the frame and changing it back. */
  lemma SeenInvertsPlaced(trig: Trig, pose: Pose, p: Point)
    requires trig.Sound()
    ensures Seen(trig, pose, Placed(trig, pose, p)) == p
    ensures Placed(trig, pose, Seen(trig, pose, p)) == p
  {
    hide Forth, Back, Placed;
    var c, s := trig.Cos(pose.theta), trig.Sin(pose.theta);
    PlacedIsForth(trig, pose, p);
    PlacedIsForth(trig, pose, Seen(trig, pose, p));
    BackAndForth(c, s, p.x, p.y);
    BackAndForth(c, s, p.x - pose.x, p.y - pose.y);
  }

  lemma BackAndForth(c: real, s: real, x: real, y: real)
    requires c * c + s * s == 1.0
    ensures var f := Forth(c, s, x, y); Back(c, s, f.x, f.y) == Point(x, y)
    ensures var b := Back(c, s, x, y); Forth(c, s, b.x, b.y) == Point(x, y)
  {
    var cc, ss, cs := c * c, s * s, c * s;
    assert (x * c - y * s) * c + (x * s + y * c) * s == x * (cc + ss);
    assert -(x * c - y * s) * s + (x * s + y * c) * c == y * (cc + ss);
    assert (x * c + y * s) * c - (-x * s + y * c) * s == x * (cc + ss);
    assert (x * c + y * s) * s + (-x * s + y * c) * c == y * (cc + ss);
  }

  lemma BackOfDifference(c: real, s: real, x: real, y: real, u: real, v: real)
    ensures var a, b := Back(c, s, x, y), Back(c, s, u, v);
            Back(c, s, x - u, y - v) == Point(a.x - b.x, a.y - b.y)
  {
  }

  // ---------------------------------------------------------------- motion

  /** One step of `dt`: the pose moves along the velocity, then the velocity turns with the pose. */
  function Project(trig: Trig, dt: real, pose: Pose, v: Velocity): (Pose, Velocity) {
    var theta := Covered(v.tw, dt);
    var turned := Forth(trig.Cos(theta), trig.Sin(theta), v.x, v.y);
    (Pose(pose.x + Covered(v.x, dt), pose.y + Covered(v.y, dt), pose.theta + theta), Velocity(turned.x, turned.y, v.tw))
  }

  /** Pose and velocity after `n` steps from the base frame's origin. */
  function After(trig: Trig, dt: real, v: Velocity, n: nat): (Pose, Velocity) {
    if n == 0 then (Pose(0.0, 0.0, 0.0), v)
    else Project(trig, dt, After(trig, dt, v, n - 1).0, After(trig, dt, v, n - 1).1)
  }

  lemma AfterStep(trig: Trig, dt: real, v: Velocity, n: nat)
    requires n > 0
    ensures var (pose, u) := After(trig, dt, v, n - 1);
            var f := Forth(trig.Cos(Covered(u.tw, dt)), trig.Sin(Covered(u.tw, dt)), u.x, u.y);
            After(trig, dt, v, n) == (Pose(pose.x + Covered(u.x, dt), pose.y + Covered(u.y, dt),
                                           pose.theta + Covered(u.tw, dt)),
                                      Velocity(f.x, f.y, u.tw))
  {
    hide Forth, Covered;
  }

  /** The simulated speed never changes. */
  lemma {:induction false} SpeedInvariant(trig: Trig, dt: real, v: Velocity, n: nat)
    requires trig.Sound()
    ensures var v' := After(trig, dt, v, n).1; Square(v'.x, v'.y) == Square(v.x, v.y) && v'.tw == v.tw
  {
    hide Square, Forth, Covered;
    if n > 0 {
      SpeedInvariant(trig, dt, v, n - 1);
      AfterStep(trig, dt, v, n);
      var u := After(trig, dt, v, n - 1).1;
      RotationKeepsLength(trig.Cos(Covered(u.tw, dt)), trig.Sin(Covered(u.tw, dt)), u.x, u.y);
    }
  }

  /** The addition theorems. */
  ghost predicate Adds(trig: Trig, a: real, b: real) {
    && trig.cos(a + b) == trig.cos(a) * trig.cos(b) - trig.sin(a) * trig.sin(b)
    && trig.sin(a + b) == trig.sin(a) * trig.cos(b) + trig.cos(a) * trig.sin(b)
  }

  ghost predicate Additive(trig: Trig) {
    trig.cos(0.0) == 1.0 && trig.sin(0.0) == 0.0 && forall a: real, b: real :: Adds(trig, a, b)
  }

  lemma ForthTwice(trig: Trig, a: real, b: real, x: real, y: real)
    requires Additive(trig)
    ensures var f := Forth(trig.Cos(a), trig.Sin(a), x, y);
            Forth(trig.Cos(b), trig.Sin(b), f.x, f.y) == Forth(trig.Cos(a + b), trig.Sin(a + b), x, y)
  {
    var c, s, d, e := trig.Cos(a), trig.Sin(a), trig.Cos(b), trig.Sin(b);
    assert Adds(trig, a, b);
    ForthProduct(c, s, d, e, x, y);
  }

  lemma ForthProduct(c: real, s: real, d: real, e: real, x: real, y: real)
    ensures (x * c - y * s) * d - (x * s + y * c) * e == x * (c * d - s * e) - y * (s * d + c * e)
    ensures (x * c - y * s) * e + (x * s + y * c) * d == x * (s * d + c * e) + y * (c * d - s * e)
  {
    assert x * c * d - x * s * e == x * (c * d - s * e);
    assert y * s * d + y * c * e == y * (s * d + c * e);
    assert x * c * e + x * s * d == x * (s * d + c * e);
    assert -(y * s * e) + y * c * d == y * (c * d - s * e);
  }

  /** In the robot's own frame its velocity is the commanded one throughout. */
  lemma {:induction false} TwistInvariant(trig: Trig, dt: real, v: Velocity, n: nat)
    requires Additive(trig)
    ensures var (pose, u) := After(trig, dt, v, n);
            Forth(trig.Cos(pose.theta), trig.Sin(pose.theta), v.x, v.y) == Point(u.x, u.y)
  {
    hide Forth, Covered;
    if n == 0 {
      NoTurn(v.x, v.y);
    } else {
      TwistInvariant(trig, dt, v, n - 1);
      AfterStep(trig, dt, v, n);
      var (pose, u) := After(trig, dt, v, n - 1);
      ForthTwice(trig, pose.theta, Covered(u.tw, dt), v.x, v.y);
    }
  }

  /** The commanded velocity turned by a heading: to the left for a positive one. */
  function Headed(trig: Trig, v: Velocity, a: real): Point {
    Point(v.x * trig.cos(a) - v.y * trig.sin(a), v.x * trig.sin(a) + v.y * trig.cos(a))
  }

  lemma HeadedIsForth(trig: Trig, v: Velocity, a: real)
    ensures Headed(trig, v, a) == Forth(trig.Cos(a), trig.Sin(a), v.x, v.y)
  {
  }

  /** The way from the origin, written out: at every step the commanded velocity, turned by the heading so far. */
  ghost function Way(trig: Trig, dt: real, v: Velocity, n: nat): Point {
    if n == 0 then Point(0.0, 0.0)
    else
      var w, h := Way(trig, dt, v, n - 1), Headed(trig, v, Covered((n - 1) as real, Covered(v.tw, dt)));
      Point(w.x + Covered(h.x, dt), w.y + Covered(h.y, dt))
  }

  lemma HeadingNext(a: real, n: nat)
    ensures Covered(0.0, a) == 0.0
    ensures Covered((n + 1) as real, a) == Covered(n as real, a) + a
  {
  }

  lemma {:induction false} Heading(trig: Trig, dt: real, v: Velocity, n: nat)
    ensures var (pose, u) := After(trig, dt, v, n); pose.theta == Covered(n as real, Covered(v.tw, dt)) && u.tw == v.tw
  {
    hide Forth, Covered;
    if n > 0 {
      Heading(trig, dt, v, n - 1);
      AfterStep(trig, dt, v, n);
      HeadingNext(Covered(v.tw, dt), n - 1);
    } else {
      HeadingNext(Covered(v.tw, dt), n);
    }
  }

  /** The simulation is that way, and its heading the sum of the turns: to the left for a positive rate. */
  lemma {:induction false} MotionWrittenOut(trig: Trig, dt: real, v: Velocity, n: nat)
    requires Additive(trig)
    ensures var pose, w := After(trig, dt, v, n).0, Way(trig, dt, v, n);
            pose == Pose(w.x, w.y, Covered(n as real, Covered(v.tw, dt)))
  {
    hide Covered, Additive, Headed, Forth;
    Heading(trig, dt, v, n);
    if n > 0 {
      MotionWrittenOut(trig, dt, v, n - 1);
      Heading(trig, dt, v, n - 1);
      AfterStep(trig, dt, v, n);
      var (pose, u) := After(trig, dt, v, n - 1);
      TwistInvariant(trig, dt, v, n - 1);
      HeadedIsForth(trig, v, pose.theta);
    }
  }

  /** A quarter turn to the left: forwards becomes leftwards, and what was on the left is seen ahead. */
  lemma QuarterTurn(trig: Trig, pose: Pose, w: real, dt: real, q: real)
    requires trig.cos(q) == 0.0 && trig.sin(q) == 1.0 && q == w * dt
    ensures Project(trig, dt, pose, Velocity(1.0, 0.0, w))
            == (Pose(pose.x + dt, pose.y, pose.theta + q), Velocity(0.0, 1.0, w))
    ensures Seen(trig, Pose(0.0, 0.0, q), Point(0.0, 1.0)) == Point(1.0, 0.0)
  {
  }

  lemma NoTurn(x: real, y: real)
    ensures Forth(1.0, 0.0, x, y) == Point(x, y)
  {
  }

  /** Cauchy and Schwarz in the plane. */
  lemma DotBound(ax: real, ay: real, bx: real, bz: real, l: real, m: real)
    requires 0.0 <= l && 0.0 <= m && Square(ax, ay) <= l * l && Square(bx, bz) <= m * m
    ensures ax * bx + ay * bz <= l * m
  {
    var dot, lm := ax * bx + ay * bz, l * m;
    Lagrange(ax, ay, bx, bz);
    LengthNonNegative(ax, ay);
    LengthNonNegative(bx, bz);
    ProductsInOrder(Square(ax, ay), Square(bx, bz), l * l, m * m);
    assert (l * l) * (m * m) == lm * lm;
    SquaresInOrder(dot, lm);
  }

  lemma Lagrange(ax: real, ay: real, bx: real, bz: real)
    ensures (ax * bx + ay * bz) * (ax * bx + ay * bz) <= Square(ax, ay) * Square(bx, bz)
  {
    var dot, cross := ax * bx + ay * bz, ax * bz - ay * bx;
    assert dot * dot + cross * cross == Square(ax, ay) * Square(bx, bz);
    SquareNonNegative(cross);
  }

  lemma LengthNonNegative(x: real, y: real)
    ensures 0.0 <= Square(x, y)
  {
    SquareNonNegative(x);
    SquareNonNegative(y);
  }

  lemma ProductsInOrder(a: real, b: real, c: real, d: real)
    requires 0.0 <= a <= c && 0.0 <= b <= d
    ensures a * b <= c * d
  {
    ScaledOrder(b, a, c);
    ScaledOrder(c, b, d);
  }

  /** The triangle inequality, with lengths given by bounds on their squares. */
  lemma SumBound(ax: real, ay: real, bx: real, bz: real, l: real, m: real)
    requires 0.0 <= l && 0.0 <= m && Square(ax, ay) <= l * l && Square(bx, bz) <= m * m
    ensures Square(ax + bx, ay + bz) <= (l + m) * (l + m)
  {
    DotBound(ax, ay, bx, bz, l, m);
    assert Square(ax + bx, ay + bz) == Square(ax, ay) + Square(bx, bz) + 2.0 * (ax * bx + ay * bz);
    assert (l + m) * (l + m) == l * l + m * m + 2.0 * (l * m);
  }

  /** After `n` steps the robot is at most `n * dt * speed` away. */
  lemma {:induction false} DisplacementBound(trig: Trig, dt: real, v: Velocity, speed: real, n: nat)
    requires trig.Sound() && dt >= 0.0 && speed >= 0.0 && Square(v.x, v.y) <= speed * speed
    ensures var pose, d := After(trig, dt, v, n).0, n as real * (dt * speed);
            0.0 <= d && Square(pose.x, pose.y) <= d * d
  {
    hide Square, Forth, Covered;
    var d := n as real * (dt * speed);
    SignOfProduct(dt, speed);
    SignOfProduct(n as real, dt * speed);
    if n > 0 {
      DisplacementBound(trig, dt, v, speed, n - 1);
      SpeedInvariant(trig, dt, v, n - 1);
      AfterStep(trig, dt, v, n);
      var pose, u, e := After(trig, dt, v, n - 1).0, After(trig, dt, v, n - 1).1, (n - 1) as real * (dt * speed);
      StepLength(u.x, u.y, dt, speed);
      SumBound(pose.x, pose.y, Covered(u.x, dt), Covered(u.y, dt), e, dt * speed);
      assert d == e + dt * speed;
    } else {
      OriginWithin(d);
    }
  }

  lemma OriginWithin(d: real)
    ensures Square(0.0, 0.0) <= d * d
  {
  }

  lemma StepLength(x: real, y: real, dt: real, speed: real)
    requires dt >= 0.0 && speed >= 0.0 && Square(x, y) <= speed * speed
    ensures Square(Covered(x, dt), Covered(y, dt)) <= (dt * speed) * (dt * speed)
  {
    var t := dt * dt;
    assert Square(x * dt, y * dt) == Square(x, y) * t;
    assert (dt * speed) * (dt * speed) == (speed * speed) * t;
    SquareNonNegative(dt);
    ScaledOrder(t, Square(x, y), speed * speed);
  }

  /** A scaled velocity, simulated with steps that much longer, visits the same poses. */
  lemma {:induction false} ScaledVisitsSamePoses(trig: Trig, dt: real, v: Velocity, ratio: real, n: nat)
    requires ratio != 0.0
    ensures After(trig, dt / ratio, v.Scaled(ratio), n).0 == After(trig, dt, v, n).0
    ensures After(trig, dt / ratio, v.Scaled(ratio), n).1 == After(trig, dt, v, n).1.Scaled(ratio)
  {
    hide Forth, Covered, Velocity.Scaled;
    v.ScaledParts(ratio);
    if n > 0 {
      ScaledVisitsSamePoses(trig, dt, v, ratio, n - 1);
      AfterStep(trig, dt, v, n);
      AfterStep(trig, dt / ratio, v.Scaled(ratio), n);
      var u := After(trig, dt, v, n - 1).1;
      ScaledStep(u.x, dt, ratio);
      ScaledStep(u.y, dt, ratio);
      ScaledStep(u.tw, dt, ratio);
      u.ScaledParts(ratio);
      After(trig, dt, v, n).1.ScaledParts(ratio);
      ForthScales(trig.Cos(Covered(u.tw, dt)), trig.Sin(Covered(u.tw, dt)), u.x, u.y, ratio);
    }
  }

  lemma ForthScales(c: real, s: real, x: real, y: real, k: real)
    ensures var f := Forth(c, s, x, y);
            Forth(c, s, Covered(x, k), Covered(y, k)) == Point(Covered(f.x, k), Covered(f.y, k))
  {
    assert (x * k) * c - (y * k) * s == (x * c - y * s) * k;
    assert (x * k) * s + (y * k) * c == (x * s + y * c) * k;
  }

  lemma ScaledStep(a: real, dt: real, ratio: real)
    requires ratio != 0.0
    ensures Covered(Covered(a, ratio), dt / ratio) == Covered(a, dt)
  {
    var q := dt / ratio;
    assert q * ratio == dt;
    assert (a * ratio) * q == a * (q * ratio);
  }
}
