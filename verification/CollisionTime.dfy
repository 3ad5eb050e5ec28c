/** `getCollisionTime`: simulating the commanded motion until the zone holds enough points. */
module CollisionTime {
  import opened Reals
  import opened RayCrossing
  import opened Kinematics

  /** The two shapes of a safety zone. */
  datatype Shape = Polygon(vertices: seq<Point>) | Circle(radiusSquared: real) {
    predicate Contains(p: Point) {
      match this
      case Polygon(vertices) => Inside(vertices, p)
      case Circle(radiusSquared) => p.x * p.x + p.y * p.y < radiusSquared
    }
  }

  function Count(shape: Shape, points: seq<Point>): nat {
    if points == [] then 0
    else Count(shape, points[..|points| - 1]) + if shape.Contains(points[|points| - 1]) then 1 else 0
  }

  /** The positions of the points that lie in the shape. */
  ghost function IndicesInside(shape: Shape, points: seq<Point>): set<int> {
    set i | 0 <= i < |points| && shape.Contains(points[i])
  }

  /** A circle is open; a polygon is what the ray-crossing test says. */
  lemma ContainsMeans(p: Point, vertices: seq<Point>, radiusSquared: real)
    ensures Circle(radiusSquared).Contains(p) <==> p.x * p.x + p.y * p.y < radiusSquared
    ensures Polygon(vertices).Contains(p) <==> Inside(vertices, p)
  {
  }

  lemma {:induction false} CountIsSize(shape: Shape, points: seq<Point>)
    ensures Count(shape, points) == |IndicesInside(shape, points)|
  {
    hide Shape.Contains;
    if points != [] {
      var last := |points| - 1;
      CountIsSize(shape, points[..last]);
      var before := IndicesInside(shape, points[..last]);
      assert IndicesInside(shape, points) == before + if shape.Contains(points[last]) then {last} else {};
    } else {
      assert IndicesInside(shape, points) == {};
    }
  }

  /** `getPointsInside` of either shape. */
  method PointsInside(shape: Shape, points: seq<Point>) returns (num: nat)
    ensures num == Count(shape, points)
  {
    num := 0;
    for i := 0 to |points|
      invariant num == Count(shape, points[..i])
    {
      var inside;
      match shape {
        case Polygon(vertices) =>
          inside := IsPointInside(vertices, points[i]);
        case Circle(radiusSquared) =>
          inside := points[i].x * points[i].x + points[i].y * points[i].y < radiusSquared;
      }
      assert points[..i + 1][..i] == points[..i];
      if inside {
        num := num + 1;
      }
    }
    assert points[..|points|] == points;
  }

  /** The points as seen from a pose. */
  function SeenAll(trig: Trig, pose: Pose, points: seq<Point>): seq<Point> {
    seq(|points|, i requires 0 <= i < |points| => Seen(trig, pose, points[i]))
  }

  /** An approach zone: its shape, its threshold and how it simulates. */
  datatype Approach = Approach(shape: Shape, minPoints: int, horizon: real, step: real) {
    /** The zone holds enough points. */
    predicate Hit(points: seq<Point>) {
      Count(shape, points) >= minPoints
    }

    /** Enough points are in the zone after `n + 1` steps. */
    predicate HitSample(trig: Trig, points: seq<Point>, v: Velocity, n: nat) {
      Hit(SeenAll(trig, After(trig, step, v, n + 1).0, points))
    }

    /** The simulation reaches sample `n`, whose time stamp is `n` steps. */
    predicate Reaches(n: nat) {
      n as real * step <= horizon
    }

    function StepsLeft(n: nat): int
      requires step > 0.0
    {
      (horizon / step).Floor + 1 - n
    }

    lemma ReachesBound(n: nat)
      requires step > 0.0 && Reaches(n)
      ensures StepsLeft(n) > 0
    {
      var q := horizon / step;
      assert q * step == horizon;
      assert n as real <= q by {
        assert (q - n as real) * step >= 0.0;
        SignOfProduct(q - n as real, step);
      }
    }

    /** The simulation from sample `n` on. */
    function TimeFrom(trig: Trig, points: seq<Point>, v: Velocity, n: nat): real
      requires step > 0.0
      decreases if Reaches(n) then StepsLeft(n) else 0
    {
      if !Reaches(n) then -1.0
      else if HitSample(trig, points, v, n) then n as real * step
      else
        ReachesBound(n);
        assert Reaches(n + 1) ==> StepsLeft(n + 1) < StepsLeft(n);
        TimeFrom(trig, points, v, n + 1)
    }

    /** Zero if the zone is hit already, the time stamp of the first hit, or minus one. */
    function Time(trig: Trig, points: seq<Point>, v: Velocity): real
      requires step > 0.0
    {
      if Hit(points) then 0.0 else TimeFrom(trig, points, v, 0)
    }

    /** With a negative horizon nothing is simulated. */
    lemma NoHorizon(trig: Trig, points: seq<Point>, v: Velocity)
      requires step > 0.0 && horizon < 0.0
      ensures Time(trig, points, v) == if Hit(points) then 0.0 else -1.0
    {
      hide Hit, HitSample;
      var zero := 0;
      assert !Reaches(zero);
    }

    /** The loop is left at sample `n`, past the horizon or with a hit. */
    predicate LeavesAt(trig: Trig, points: seq<Point>, v: Velocity, n: nat) {
      !Reaches(n) || HitSample(trig, points, v, n)
    }

    /** Whatever the step, the loop ends iff it is positive or some sample hits. */
    lemma LoopEndsIff(trig: Trig, points: seq<Point>, v: Velocity)
      requires horizon >= 0.0
      ensures (exists n: nat :: LeavesAt(trig, points, v, n)) <==>
              step > 0.0 || exists n: nat :: HitSample(trig, points, v, n)
    {
      hide HitSample;
      if step > 0.0 {
        var n := StepsBeyond();
        assert LeavesAt(trig, points, v, n);
      } else {
        forall n: nat
          ensures Reaches(n)
        {
          SignOfProduct(n as real, step);
        }
        if n: nat :| HitSample(trig, points, v, n) {
          assert LeavesAt(trig, points, v, n);
        }
      }
    }

    lemma StepsBeyond() returns (n: nat)
      requires step > 0.0 && horizon >= 0.0
      ensures !Reaches(n)
    {
      var q := horizon / step;
      QuotientTimes(horizon, step);
      SignOfProduct(q, step);
      n := q.Floor + 1;
      if Reaches(n) {
        ReachesBound(n);
      }
    }

    /** With a step of 0 the loop would go on for ever: every sample is within the horizon and none hits. */
    lemma StandingStill(trig: Trig, points: seq<Point>, v: Velocity, n: nat)
      requires trig.Cos(0.0) == 1.0 && trig.Sin(0.0) == 0.0
      requires step == 0.0 && horizon >= 0.0 && !Hit(points)
      ensures Reaches(n) && !HitSample(trig, points, v, n)
    {
      hide Hit;
      StillPose(trig, v, n + 1);
      var pose := After(trig, step, v, n + 1).0;
      forall i | 0 <= i < |points|
        ensures Seen(trig, pose, points[i]) == points[i]
      {
      }
      assert SeenAll(trig, pose, points) == points;
    }

    lemma {:induction false} StillPose(trig: Trig, v: Velocity, n: nat)
      requires step == 0.0
      ensures After(trig, step, v, n).0 == Pose(0.0, 0.0, 0.0)
    {
      hide Forth;
      if n > 0 {
        StillPose(trig, v, n - 1);
      }
    }

    /** Sample `n` is the first to hit. */
    ghost predicate FirstHit(trig: Trig, points: seq<Point>, v: Velocity, n: nat) {
      HitSample(trig, points, v, n) && forall m: nat | m < n :: !HitSample(trig, points, v, m)
    }

    /** A result that is not negative is the time stamp of the first hit within the horizon; minus one means none. */
    lemma {:induction false} TimeFromMeaning(trig: Trig, points: seq<Point>, v: Velocity, n: nat) returns (k: nat)
      requires step > 0.0 && forall m: nat | m < n :: !HitSample(trig, points, v, m)
      ensures var t := TimeFrom(trig, points, v, n);
              if t >= 0.0 then Reaches(k) && FirstHit(trig, points, v, k) && t == k as real * step
              else t == -1.0 && forall m: nat | Reaches(m) :: !HitSample(trig, points, v, m)
      decreases if Reaches(n) then StepsLeft(n) else 0
    {
      hide HitSample;
      k := n;
      if !Reaches(n) {
        forall m: nat | Reaches(m)
          ensures m < n
        {
          Farther(m, n);
        }
      } else if HitSample(trig, points, v, n) {
        assert TimeFrom(trig, points, v, n) == n as real * step;
        SignOfProduct(n as real, step);
      } else {
        ReachesBound(n);
        k := TimeFromMeaning(trig, points, v, n + 1);
        assert TimeFrom(trig, points, v, n) == TimeFrom(trig, points, v, n + 1);
      }
    }

    lemma Farther(m: nat, n: nat)
      requires step > 0.0
      ensures m >= n && Reaches(m) ==> Reaches(n)
    {
      if m >= n {
        assert 0.0 <= (m - n) as real * step;
        assert m as real * step == n as real * step + (m - n) as real * step;
      }
    }
  }

  /** As many points as the zone asks for lie in it, seen from a pose. */
  ghost predicate HitsFrom(zone: Approach, trig: Trig, points: seq<Point>, pose: Pose) {
    |set i | 0 <= i < |points| && zone.shape.Contains(Seen(trig, pose, points[i]))| >= zone.minPoints
  }

  ghost predicate HitsAfter(zone: Approach, trig: Trig, points: seq<Point>, v: Velocity, n: nat) {
    HitsFrom(zone, trig, points, After(trig, zone.step, v, n).0)
  }

  lemma HitSampleMeans(zone: Approach, trig: Trig, points: seq<Point>, v: Velocity, n: nat)
    ensures zone.HitSample(trig, points, v, n) <==> HitsAfter(zone, trig, points, v, n + 1)
  {
    hide Shape.Contains, Count, Seen, After;
    var pose := After(trig, zone.step, v, n + 1).0;
    CountIsSize(zone.shape, SeenAll(trig, pose, points));
    assert IndicesInside(zone.shape, SeenAll(trig, pose, points))
        == set i | 0 <= i < |points| && zone.shape.Contains(Seen(trig, pose, points[i]));
  }

  /** The pose after `n` steps, not counting the first, is the first with enough points in the zone. */
  ghost predicate FirstHitAt(zone: Approach, trig: Trig, points: seq<Point>, v: Velocity, n: nat) {
    HitsAfter(zone, trig, points, v, n) && forall m: nat | 0 < m < n :: !HitsAfter(zone, trig, points, v, m)
  }

  /**
   What is returned, in counts of points: 0 if enough are in the zone already, else `n - 1` steps if the first pose
   with enough comes after `n` steps and `n - 1` steps are within the horizon, else minus one.
   */
  lemma TimeMeans(zone: Approach, trig: Trig, points: seq<Point>, v: Velocity, n: nat)
    requires zone.step > 0.0 && n > 0
    ensures var t, before := zone.Time(trig, points, v), (n - 1) as real * zone.step;
            if |IndicesInside(zone.shape, points)| >= zone.minPoints then t == 0.0
            else
              && (FirstHitAt(zone, trig, points, v, n) ==> t == if before <= zone.horizon then before else -1.0)
              && ((forall m: nat | m > 0 :: !HitsAfter(zone, trig, points, v, m)) ==> t == -1.0)
  {
    hide Approach.HitSample, Approach.TimeFrom, Count, HitsAfter, IndicesInside;
    CountIsSize(zone.shape, points);
    if !zone.Hit(points) {
      var zero := 0;
      var k := zone.TimeFromMeaning(trig, points, v, zero);
      forall m: nat
        ensures zone.HitSample(trig, points, v, m) <==> HitsAfter(zone, trig, points, v, m + 1)
      {
        HitSampleMeans(zone, trig, points, v, m);
      }
      if FirstHitAt(zone, trig, points, v, n) {
        SameFirst(zone, trig, points, v, n - 1, k);
        assert zone.Reaches(n - 1) <==> (n - 1) as real * zone.step <= zone.horizon;
      }
    }
  }

  /** The first hitting sample is one, and within the horizon iff the loop finds it. */
  lemma SameFirst(zone: Approach, trig: Trig, points: seq<Point>, v: Velocity, n: nat, k: nat)
    requires zone.HitSample(trig, points, v, n)
    requires forall m: nat | m < n :: !zone.HitSample(trig, points, v, m)
    ensures zone.FirstHit(trig, points, v, n)
    ensures zone.FirstHit(trig, points, v, k) ==> k == n
  {
    hide Approach.HitSample;
  }

  /** The robot's motion is simulated step by step, on a buffer of points seen from each pose. */
  method GetCollisionTime(zone: Approach, trig: Trig, collisionPoints: seq<Point>, velocity: Velocity)
    returns (result: real)
    requires zone.step > 0.0
    ensures result == zone.Time(trig, collisionPoints, velocity)
  {
    hide After, Count, Seen, Project;
    var buffer := new Point[|collisionPoints|](i requires 0 <= i < |collisionPoints| => collisionPoints[i]);
    assert buffer[..] == collisionPoints;
    var count := PointsInside(zone.shape, buffer[..]);
    if count >= zone.minPoints {
      return 0.0;
    }
    var pose, vel := Pose(0.0, 0.0, 0.0), velocity;
    var time := 0.0;
    ghost var n: nat := 0;
    AfterNone(trig, zone.step, velocity);
    while time <= zone.horizon
      invariant time == n as real * zone.step && (pose, vel) == After(trig, zone.step, velocity, n)
      invariant zone.Time(trig, collisionPoints, velocity) == zone.TimeFrom(trig, collisionPoints, velocity, n)
      invariant buffer.Length == |collisionPoints|
      decreases if zone.Reaches(n) then zone.StepsLeft(n) else 0
    {
      var moved := Project(trig, zone.step, pose, vel);
      AfterNext(trig, zone.step, velocity, n);
      pose, vel := moved.0, moved.1;
      forall i | 0 <= i < buffer.Length {
        buffer[i] := collisionPoints[i];
      }
      TransformPoints(trig, pose, buffer);
      assert buffer[..] == SeenAll(trig, pose, collisionPoints);
      count := PointsInside(zone.shape, buffer[..]);
      if count >= zone.minPoints {
        return time;
      }
      zone.ReachesBound(n);
      time := time + zone.step;
      n := n + 1;
    }
    return -1.0;
  }

  lemma AfterNone(trig: Trig, dt: real, v: Velocity)
    ensures After(trig, dt, v, 0) == (Pose(0.0, 0.0, 0.0), v)
  {
  }

  lemma AfterNext(trig: Trig, dt: real, v: Velocity, n: nat)
    ensures After(trig, dt, v, n + 1) == Project(trig, dt, After(trig, dt, v, n).0, After(trig, dt, v, n).1)
  {
    hide Project;
  }

  lemma {:induction false} CountConcat(shape: Shape, a: seq<Point>, b: seq<Point>)
    ensures Count(shape, a + b) == Count(shape, a) + Count(shape, b)
    decreases |b|
  {
    if b == [] {
      assert a + b == a;
    } else {
      assert (a + b)[..|a + b| - 1] == a + b[..|b| - 1];
      CountConcat(shape, a, b[..|b| - 1]);
    }
  }

  // ---------------------------------------------------------------- a lower bound for circular zones

  lemma {:induction false} NonePresent(shape: Shape, points: seq<Point>)
    requires forall p <- points :: !shape.Contains(p)
    ensures Count(shape, points) == 0
  {
    if points != [] {
      assert points[|points| - 1] in points;
      assert forall p <- points[..|points| - 1] :: p in points;
      NonePresent(shape, points[..|points| - 1]);
    }
  }

  /** A point farther away than the zone and the robot's way together stays out of the zone. */
  lemma StaysOutside(trig: Trig, dt: real, v: Velocity, speed: real, radius: real, reach: real, n: nat, p: Point)
    requires trig.Sound() && dt >= 0.0 && speed >= 0.0 && Square(v.x, v.y) <= speed * speed && radius >= 0.0
    requires n as real * (dt * speed) <= reach && Square(p.x, p.y) > (radius + reach) * (radius + reach)
    ensures var q := Seen(trig, After(trig, dt, v, n).0, p); Square(q.x, q.y) >= radius * radius
  {
    hide Square, Seen, After;
    var pose, d := After(trig, dt, v, n).0, n as real * (dt * speed);
    DisplacementBound(trig, dt, v, speed, n);
    SeenIsIsometry(trig, pose, p, p);
    var dx, dy := p.x - pose.x, p.y - pose.y;
    if Square(dx, dy) <= radius * radius {
      SumBound(dx, dy, pose.x, pose.y, radius, d);
      SquaresInOrder(radius + d, radius + reach);
    }
  }

  /** No point within the zone's radius plus what the robot can cover: no collision is reported. */
  lemma FarPointsNoCollision(zone: Approach, trig: Trig, points: seq<Point>, v: Velocity, speed: real, radius: real)
    requires trig.Sound() && zone.step > 0.0 && zone.minPoints >= 1 && zone.horizon >= 0.0
    requires speed >= 0.0 && Square(v.x, v.y) == speed * speed
    requires radius >= 0.0 && zone.shape == Circle(radius * radius)
    requires var reach := radius + speed * (zone.horizon + zone.step);
             forall p <- points :: Square(p.x, p.y) > reach * reach
    ensures zone.Time(trig, points, v) == -1.0
  {
    hide Square, Seen, After, Count;
    var reach := speed * (zone.horizon + zone.step);
    SignOfProduct(speed, zone.horizon + zone.step);
    forall p | p in points
      ensures !zone.shape.Contains(p)
    {
      SquaresInOrder(radius, radius + reach);
      SquareIs(p.x, p.y);
    }
    NonePresent(zone.shape, points);
    forall n: nat | zone.Reaches(n)
      ensures !zone.HitSample(trig, points, v, n)
    {
      WayBound(zone.step, speed, zone.horizon, n);
      var seen := SeenAll(trig, After(trig, zone.step, v, n + 1).0, points);
      forall q | q in seen
        ensures !zone.shape.Contains(q)
      {
        var i :| 0 <= i < |seen| && seen[i] == q;
        StaysOutside(trig, zone.step, v, speed, radius, reach, n + 1, points[i]);
        SquareIs(q.x, q.y);
      }
      NonePresent(zone.shape, seen);
    }
    var k := zone.TimeFromMeaning(trig, points, v, 0);
  }

  lemma SquareIs(x: real, y: real)
    ensures Square(x, y) == x * x + y * y
  {
  }

  lemma WayBound(dt: real, speed: real, horizon: real, n: nat)
    requires speed >= 0.0 && n as real * dt <= horizon
    ensures (n + 1) as real * (dt * speed) <= speed * (horizon + dt)
  {
    var m := n as real * dt;
    assert (n + 1) as real * (dt * speed) == (m + dt) * speed;
    assert (m + dt) * speed <= (horizon + dt) * speed by {
      assert 0.0 <= (horizon - m) * speed;
    }
  }

  // ---------------------------------------------------------------- what the approach action guarantees

  /**
   The command scaled by `time / horizon`, simulated in steps that much longer, passes the same poses:
   no sample within the horizon hits, and the first that does comes later. A time of zero is a stop.
   */
  lemma ApproachGuarantee(zone: Approach, trig: Trig, points: seq<Point>, v: Velocity)
    requires zone.step > 0.0 && zone.horizon > 0.0 && zone.Time(trig, points, v) >= 0.0
    ensures var ratio := zone.Time(trig, points, v) / zone.horizon;
            && 0.0 <= ratio <= 1.0
            && (ratio == 0.0 ==> v.Scaled(ratio).IsZero())
            && (ratio > 0.0 ==> !zone.Hit(points) && SafeUntil(zone, trig, points, v, ratio))
  {
    hide After, Count, Seen;
    var t := zone.Time(trig, points, v);
    var ratio := t / zone.horizon;
    assert ratio * zone.horizon == t;
    if zone.Hit(points) {
      RatioInRange(t, zone.horizon, ratio);
    } else {
      var k := zone.TimeFromMeaning(trig, points, v, 0);
      RatioInRange(t, zone.horizon, ratio);
      if ratio > 0.0 {
        SlowIsSafe(zone, trig, points, v, ratio, k);
      }
    }
  }

  /** The scaled command first hits after the horizon, as its own simulation in longer steps shows. */
  ghost predicate SafeUntil(zone: Approach, trig: Trig, points: seq<Point>, v: Velocity, ratio: real)
    requires ratio > 0.0
  {
    var slow, u := zone.(step := zone.step / ratio), v.Scaled(ratio);
    && (forall n: nat | (n + 1) as real * slow.step <= zone.horizon :: !slow.HitSample(trig, points, u, n))
    && exists n: nat :: slow.FirstHit(trig, points, u, n) && (n + 1) as real * slow.step > zone.horizon
  }

  lemma SameSamples(zone: Approach, trig: Trig, points: seq<Point>, v: Velocity, ratio: real, n: nat)
    requires ratio > 0.0
    ensures zone.(step := zone.step / ratio).HitSample(trig, points, v.Scaled(ratio), n)
            == zone.HitSample(trig, points, v, n)
  {
    hide After, Count, Seen;
    ScaledVisitsSamePoses(trig, zone.step, v, ratio, n + 1);
  }

  lemma SlowIsSafe(zone: Approach, trig: Trig, points: seq<Point>, v: Velocity, ratio: real, k: nat)
    requires ratio > 0.0 && zone.step > 0.0 && ratio * zone.horizon == k as real * zone.step
    requires zone.FirstHit(trig, points, v, k)
    ensures SafeUntil(zone, trig, points, v, ratio)
  {
    hide Approach.HitSample;
    var slow, u := zone.(step := zone.step / ratio), v.Scaled(ratio);
    assert slow.step * ratio == zone.step;
    SlowSteps(slow.step, zone.step, zone.horizon, ratio, k);
    forall n: nat
      ensures slow.HitSample(trig, points, u, n) == zone.HitSample(trig, points, v, n)
    {
      SameSamples(zone, trig, points, v, ratio, n);
    }
    forall n: nat | (n + 1) as real * slow.step <= zone.horizon
      ensures !slow.HitSample(trig, points, u, n)
    {
      MoreSlowSteps(slow.step, zone.horizon, k, n + 1);
    }
    assert slow.FirstHit(trig, points, u, k);
  }

  /** Any command that is no faster than the zone asks for, and moves, keeps clear of the zone up to the horizon. */
  lemma SlowerIsSafe(zone: Approach, trig: Trig, points: seq<Point>, v: Velocity, k: real)
    requires zone.step > 0.0 && zone.horizon > 0.0 && 0.0 < k <= 1.0
    requires zone.Time(trig, points, v) >= 0.0 ==> k <= zone.Time(trig, points, v) / zone.horizon
    ensures !zone.Hit(points) && ClearUntil(zone, trig, points, v, k)
  {
    hide Approach.HitSample, Approach.Hit, Approach.Time;
    NotHitYet(zone, trig, points, v, k);
    var slow, u := zone.(step := zone.step / k), v.Scaled(k);
    forall n: nat | (n + 1) as real * slow.step <= zone.horizon
      ensures !slow.HitSample(trig, points, u, n)
    {
      SameSamples(zone, trig, points, v, k, n);
      ClearSample(zone, trig, points, v, k, n);
    }
  }

  lemma NotHitYet(zone: Approach, trig: Trig, points: seq<Point>, v: Velocity, k: real)
    requires zone.step > 0.0 && zone.horizon > 0.0 && k > 0.0
    requires zone.Time(trig, points, v) >= 0.0 ==> k <= zone.Time(trig, points, v) / zone.horizon
    ensures !zone.Hit(points)
  {
    hide Approach.Hit, Approach.TimeFrom;
    RatioOfNothing(zone.horizon);
  }

  lemma ClearSample(zone: Approach, trig: Trig, points: seq<Point>, v: Velocity, k: real, n: nat)
    requires zone.step > 0.0 && zone.horizon > 0.0 && 0.0 < k <= 1.0 && !zone.Hit(points)
    requires zone.Time(trig, points, v) >= 0.0 ==> k <= zone.Time(trig, points, v) / zone.horizon
    requires (n + 1) as real * (zone.step / k) <= zone.horizon
    ensures !zone.HitSample(trig, points, v, n)
  {
    hide Approach.HitSample, Approach.Hit, Approach.TimeFrom, Approach.Reaches, Times, Over;
    var zero := 0;
    var m := zone.TimeFromMeaning(trig, points, v, zero);
    InNamedTerms(zone, k, n, m);
    EarlyStep(zone.step, zone.horizon, k, n, m);
  }

  /** The command scaled by `k` has no hitting sample within the horizon, simulated in steps that much longer. */
  ghost predicate ClearUntil(zone: Approach, trig: Trig, points: seq<Point>, v: Velocity, k: real)
    requires k > 0.0
  {
    var slow, u := zone.(step := zone.step / k), v.Scaled(k);
    forall n: nat | (n + 1) as real * slow.step <= zone.horizon :: !slow.HitSample(trig, points, u, n)
  }

  lemma InNamedTerms(zone: Approach, k: real, n: nat, m: nat)
    requires k > 0.0 && zone.horizon > 0.0
    ensures (n + 1) as real * (zone.step / k) == Times((n + 1) as real, Over(zone.step, k))
    ensures (m as real * zone.step) / zone.horizon == Over(Times(m as real, zone.step), zone.horizon)
    ensures zone.Reaches(n) <==> Times(n as real, zone.step) <= zone.horizon
  {
  }

  lemma RatioOfNothing(horizon: real)
    requires horizon > 0.0
    ensures 0.0 / horizon == 0.0
  {
  }

  /** A longer step that ends within the horizon is one of the simulation, before sample `m` if that sets the ratio. */
  lemma EarlyStep(step: real, horizon: real, k: real, n: nat, m: nat)
    requires step > 0.0 && horizon > 0.0 && 0.0 < k <= 1.0 && Times((n + 1) as real, Over(step, k)) <= horizon
    ensures Times(n as real, step) <= horizon
    ensures k <= Over(Times(m as real, step), horizon) ==> n < m
  {
    hide Times, Over;
    ShrunkStep(step, horizon, k, n + 1);
    FractionOf(k, horizon);
    FewerSteps(step, n, n + 1);
    if k <= Over(Times(m as real, step), horizon) {
      BelowQuotient(k, Times(m as real, step), horizon);
      FewerSteps(step, m, n + 1);
    }
  }

  lemma ShrunkStep(step: real, horizon: real, k: real, n: nat)
    requires k > 0.0 && Times(n as real, Over(step, k)) <= horizon
    ensures Times(n as real, step) <= Times(k, horizon)
  {
    var m, slow := n as real, step / k;
    var way := m * slow;
    QuotientTimes(step, k);
    ScaledOrder(k, way, horizon);
    assert k * way == m * (slow * k);
  }

  lemma FractionOf(k: real, h: real)
    requires k <= 1.0 && h >= 0.0
    ensures Times(k, h) <= h
  {
    var one := 1.0;
    ScaledOrder(h, k, one);
    assert h * one == h && h * k == k * h;
  }

  lemma FewerSteps(step: real, m: nat, n: nat)
    requires step > 0.0
    ensures m < n <==> Times(m as real, step) < Times(n as real, step)
  {
    var a, b := m as real, n as real;
    ScaledOrder(step, a, b);
    assert step * a == a * step && step * b == b * step;
  }

  lemma BelowQuotient(k: real, t: real, h: real)
    requires h > 0.0 && k <= Over(t, h)
    ensures Times(k, h) <= t
  {
    var q := t / h;
    QuotientTimes(t, h);
    ScaledOrder(h, k, q);
    assert h * k == k * h && h * q == q * h;
  }

  lemma RatioInRange(t: real, horizon: real, ratio: real)
    requires horizon > 0.0 && 0.0 <= t <= horizon && ratio * horizon == t
    ensures 0.0 <= ratio <= 1.0 && (ratio == 0.0 <==> t == 0.0)
  {
    SignOfProduct(ratio, horizon);
    assert (1.0 - ratio) * horizon == horizon - t;
    SignOfProduct(1.0 - ratio, horizon);
  }

  /** In the longer steps the horizon is exactly `k` steps away. */
  lemma SlowSteps(slow: real, step: real, horizon: real, ratio: real, k: nat)
    requires ratio > 0.0 && step > 0.0 && slow * ratio == step && ratio * horizon == k as real * step
    ensures slow > 0.0 && k as real * slow == horizon && (k + 1) as real * slow > horizon
  {
    SignOfProduct(slow, ratio);
    assert (k as real * slow) * ratio == k as real * step;
    assert (k as real * slow - horizon) * ratio == 0.0;
    SignOfProduct(k as real * slow - horizon, ratio);
    assert (k + 1) as real * slow == k as real * slow + slow;
  }

  lemma MoreSlowSteps(slow: real, horizon: real, k: nat, n: nat)
    requires slow > 0.0 && k as real * slow == horizon
    ensures n as real * slow <= horizon ==> n <= k
  {
    assert n as real * slow - horizon == (n - k) as real * slow;
    SignOfProduct((n - k) as real, slow);
  }

  /** A point ahead on the left and a robot that turns left: it stands there after two steps, and the time is one. */
  lemma LeftTurnHits(trig: Trig, q: real)
    requires trig.cos(q) == 0.0 && trig.sin(q) == 1.0
    ensures var zone := Approach(Circle(0.25), 1, 1.5, 1.0);
            zone.Time(trig, [Point(1.0, 1.0)], Velocity(1.0, 0.0, q)) == 1.0
  {
    var zone, v := Approach(Circle(0.25), 1, 1.5, 1.0), Velocity(1.0, 0.0, q);
    var p, points, zero, one := Point(1.0, 1.0), [Point(1.0, 1.0)], 0, 1;
    TwoSteps(trig, q);
    OnePoint(zone.shape, p);
    OnePoint(zone.shape, Seen(trig, Pose(1.0, 0.0, q), p));
    OnePoint(zone.shape, Seen(trig, Pose(1.0, 1.0, q + q), p));
    assert SeenAll(trig, Pose(1.0, 0.0, q), points) == [Seen(trig, Pose(1.0, 0.0, q), p)];
    assert SeenAll(trig, Pose(1.0, 1.0, q + q), points) == [Seen(trig, Pose(1.0, 1.0, q + q), p)];
    hide After, Count;
    assert !zone.Hit(points) && !zone.HitSample(trig, points, v, zero) && zone.HitSample(trig, points, v, one);
    assert zone.Reaches(zero) && zone.Reaches(one);
    assert zone.TimeFrom(trig, points, v, one) == 1.0;
  }

  lemma TwoSteps(trig: Trig, q: real)
    requires trig.cos(q) == 0.0 && trig.sin(q) == 1.0
    ensures var v := Velocity(1.0, 0.0, q);
            After(trig, 1.0, v, 1).0 == Pose(1.0, 0.0, q) && After(trig, 1.0, v, 2).0 == Pose(1.0, 1.0, q + q)
  {
    var v, one, start := Velocity(1.0, 0.0, q), 1.0, Pose(0.0, 0.0, 0.0);
    assert q * one == q;
    QuarterTurn(trig, start, q, one, q);
    assert After(trig, one, v, 1) == (Pose(1.0, 0.0, q), Velocity(0.0, 1.0, q));
  }

  lemma OnePoint(shape: Shape, p: Point)
    ensures Count(shape, [p]) == if shape.Contains(p) then 1 else 0
  {
    assert [p][..0] == [];
  }
}
