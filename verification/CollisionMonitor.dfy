/** The collision monitor: the fold over the safety zones, and when its commands are published. */
module CollisionMonitor {
  import opened Reals
  import opened RayCrossing
  import opened Kinematics
  import opened Options
  import opened CollisionTime

  datatype ActionType = DoNothing | Stop | Slowdown | ApproachAction | Limit

  datatype Action = Action(actionType: ActionType, velocity: Velocity, polygonName: string)

  /** `hypot` and the trigonometric functions of the library. */
  datatype Library = Library(hypot: (real, real) -> real, trig: Trig) {
    function Hypot(x: real, y: real): real {
      hypot(x, y)
    }

    ghost predicate Sound() {
      forall x: real, y: real {:trigger Hypot(x, y)} ::
        hypot(x, y) >= 0.0 && hypot(x, y) * hypot(x, y) == x * x + y * y
    }
  }

  /** A zone after `updatePolygon`: its shape if it is set, its action, and the parameters of that action. */
  datatype Zone = Zone(
    name: string, enabled: bool, action: ActionType, shape: Option<Shape>, minPoints: int, sources: seq<string>,
    slowdownRatio: real, linearLimit: real, angularLimit: real, horizon: real, step: real) {

    /** With a step that is not positive the simulation of an approach need not end. */
    predicate Valid() {
      action == ApproachAction ==> step > 0.0
    }

    /** Nothing in the source keeps a slowdown ratio from being negative. */
    predicate Fraction() {
      action == Slowdown ==> slowdownRatio >= 0.0
    }

    /** The points of the zone's sources, in the order of their names. */
    function Points(data: map<string, seq<Point>>): seq<Point> {
      PointsOf(sources, data)
    }

    static function PointsOf(names: seq<string>, data: map<string, seq<Point>>): seq<Point> {
      if names == [] then []
      else PointsOf(names[..|names| - 1], data) +
           var name := names[|names| - 1]; if name in data then data[name] else []
    }

    function Simulation(shape: Shape): Approach {
      Approach(shape, minPoints, horizon, step)
    }

    /** The fraction of the command that respects both limits. */
    function LimitRatio(lib: Library, v: Velocity): real {
      var speed := lib.Hypot(v.x, v.y);
      var r1 := if speed != 0.0 then Min(1.0, linearLimit / speed) else 1.0;
      var r2 := if v.tw != 0.0 then Min(r1, angularLimit / Abs(v.tw)) else r1;
      Min(1.0, Max(0.0, r2))
    }

    /**
     The fraction of the command the zone asks for, if it is triggered. With a horizon of 0 the fraction is zero by
     zero, not a number, and the comparison with the velocity so far fails: the zone has no say.
     */
    function Ratio(lib: Library, data: map<string, seq<Point>>, v: Velocity): Option<real>
      requires Valid()
    {
      if !enabled || shape.None? then None
      else match action
        case Stop => if Count(shape.value, Points(data)) >= minPoints then Some(0.0) else None
        case Slowdown => if Count(shape.value, Points(data)) >= minPoints then Some(slowdownRatio) else None
        case Limit => if Count(shape.value, Points(data)) >= minPoints then Some(LimitRatio(lib, v)) else None
        case ApproachAction =>
          var time := Simulation(shape.value).Time(lib.trig, Points(data), v);
          if time >= 0.0 && horizon != 0.0 then Some(time / horizon) else None
        case DoNothing => None
    }

    predicate StopTriggered(lib: Library, data: map<string, seq<Point>>, v: Velocity)
      requires Valid()
    {
      action == Stop && Ratio(lib, data, v).Some?
    }
  }

  // ---------------------------------------------------------------- when a zone is triggered

  /** How many points the named sources have in all. */
  ghost function Total(names: seq<string>, data: map<string, seq<Point>>): nat {
    if names == [] then 0
    else Total(names[..|names| - 1], data) +
         var name := names[|names| - 1]; if name in data then |data[name]| else 0
  }

  /** The collected points are all points of all named sources that have data, one source after the other. */
  lemma {:induction false} CollectedPoints(names: seq<string>, data: map<string, seq<Point>>, j: nat, i: nat)
    ensures |Zone.PointsOf(names, data)| == Total(names, data)
    ensures j < |names| && names[j] in data && i < |data[names[j]]| ==>
              var at := Total(names[..j], data) + i;
              at < Total(names, data) && Zone.PointsOf(names, data)[at] == data[names[j]][i]
  {
    if names != [] {
      var last := |names| - 1;
      CollectedPoints(names[..last], data, j, i);
      if j < last {
        assert names[..last][..j] == names[..j];
      }
    }
  }

  /** The zone is in force and at least as many of the collected points as it asks for lie in its shape. */
  ghost predicate Occupied(z: Zone, data: map<string, seq<Point>>) {
    z.enabled && z.shape.Some? && |IndicesInside(z.shape.value, z.Points(data))| >= z.minPoints
  }

  /** When a zone asks for something, and for what. */
  lemma TriggeredIff(lib: Library, data: map<string, seq<Point>>, v: Velocity, z: Zone)
    requires z.Valid()
    ensures var r := z.Ratio(lib, data, v);
            match z.action
            case Stop => r == if Occupied(z, data) then Some(0.0) else None
            case Slowdown => r == if Occupied(z, data) then Some(z.slowdownRatio) else None
            case Limit => r == if Occupied(z, data) then Some(z.LimitRatio(lib, v)) else None
            case ApproachAction =>
              && (r.Some? ==> z.horizon != 0.0 && r.value * z.horizon >= 0.0)
              && (z.enabled && z.shape.Some? && z.horizon != 0.0 ==>
                    var t := z.Simulation(z.shape.value).Time(lib.trig, z.Points(data), v);
                    (r.Some? <==> t >= 0.0) && (r.Some? ==> r.value * z.horizon == t))
              && (!z.enabled || z.shape.None? ==> r.None?)
            case DoNothing => r.None?
  {
    hide Count, Approach.Time, IndicesInside, Zone.LimitRatio, Zone.Points;
    if z.shape.Some? {
      CountIsSize(z.shape.value, z.Points(data));
      if z.action == ApproachAction && z.horizon != 0.0 {
        QuotientTimes(z.Simulation(z.shape.value).Time(lib.trig, z.Points(data), v), z.horizon);
      }
    }
  }

  // ---------------------------------------------------------------- the fold

  /** Everything a cycle sees besides its zones. */
  datatype Scene = Scene(lib: Library, data: map<string, seq<Point>>, command: Velocity)

  /** What the comparison of velocities compares: rotations in place count too. */
  function SquaredNorm(v: Velocity): real {
    Times(v.x, v.x) + Times(v.y, v.y) + Times(v.tw, v.tw)
  }

  /** The fraction that slows down more; the earlier one if both slow down alike. */
  function Slower(k: real, r: real): real {
    if Abs(r) < Abs(k) then r else k
  }

  /** The slowest of 1 and the ratios of the triggered zones. */
  function SlowestRatio(scene: Scene, zones: seq<Zone>): real
    requires forall z <- zones :: z.Valid()
  {
    if zones == [] then 1.0
    else
      var z := zones[|zones| - 1];
      assert z in zones;
      var k := SlowestRatio(scene, zones[..|zones| - 1]);
      match z.Ratio(scene.lib, scene.data, scene.command)
      case None => k
      case Some(r) => Slower(k, r)
  }

  ghost predicate AnyStop(scene: Scene, zones: seq<Zone>)
    requires forall z <- zones :: z.Valid()
  {
    exists z <- zones :: z.StopTriggered(scene.lib, scene.data, scene.command)
  }

  lemma RatiosNonNegative(scene: Scene, z: Zone)
    requires z.Valid() && z.Fraction()
    ensures var r := z.Ratio(scene.lib, scene.data, scene.command); r.Some? ==> r.value >= 0.0
  {
    hide Count;
    if z.enabled && z.shape.Some? && z.action == ApproachAction {
      var a, points := z.Simulation(z.shape.value), z.Points(scene.data);
      if z.horizon < 0.0 {
        a.NoHorizon(scene.lib.trig, points, scene.command);
      } else if z.horizon > 0.0 && a.Time(scene.lib.trig, points, scene.command) >= 0.0 {
        ApproachGuarantee(a, scene.lib.trig, points, scene.command);
      }
    }
  }

  /** The slowest ratio is as slow as 1 and as every triggered one, and it is one of them. */
  lemma {:induction false} SlowestRatioIsSlowest(scene: Scene, zones: seq<Zone>)
    requires forall z <- zones :: z.Valid()
    ensures Abs(SlowestRatio(scene, zones)) <= 1.0
    ensures forall z <- zones :: var r := z.Ratio(scene.lib, scene.data, scene.command);
              r.Some? ==> Abs(SlowestRatio(scene, zones)) <= Abs(r.value)
    ensures SlowestRatio(scene, zones) == 1.0 ||
            exists z <- zones :: z.Ratio(scene.lib, scene.data, scene.command) == Some(SlowestRatio(scene, zones))
  {
    hide Zone.Ratio;
    if zones != [] {
      var z, rest := zones[|zones| - 1], zones[..|zones| - 1];
      assert z in zones;
      assert forall y :: y in zones <==> y in rest || y == z;
      SlowestRatioIsSlowest(scene, rest);
    }
  }

  /** Where the slowdown ratios are fractions, the slowest ratio is the least. */
  lemma SlowestRatioIsLeast(scene: Scene, zones: seq<Zone>)
    requires forall z <- zones :: z.Valid() && z.Fraction()
    ensures 0.0 <= SlowestRatio(scene, zones) <= 1.0
    ensures forall z <- zones :: var r := z.Ratio(scene.lib, scene.data, scene.command);
              r.Some? ==> SlowestRatio(scene, zones) <= r.value
    ensures SlowestRatio(scene, zones) == 1.0 ||
            exists z <- zones :: z.Ratio(scene.lib, scene.data, scene.command) == Some(SlowestRatio(scene, zones))
  {
    hide Zone.Ratio, SlowestRatio;
    SlowestRatioIsSlowest(scene, zones);
    forall z <- zones
      ensures var r := z.Ratio(scene.lib, scene.data, scene.command); r.Some? ==> r.value >= 0.0
    {
      RatiosNonNegative(scene, z);
    }
  }

  /** The order of the zones does not change how slow the command becomes, nor anything if the ratios are fractions. */
  lemma OrderIrrelevant(scene: Scene, zones: seq<Zone>, zones': seq<Zone>)
    requires forall z <- zones :: z.Valid()
    requires multiset(zones) == multiset(zones')
    ensures forall z <- zones' :: z.Valid()
    ensures Abs(SlowestRatio(scene, zones')) == Abs(SlowestRatio(scene, zones))
    ensures (forall z <- zones :: z.Fraction()) ==> SlowestRatio(scene, zones') == SlowestRatio(scene, zones)
  {
    hide Zone.Ratio, SlowestRatio;
    forall z
      ensures z in zones <==> z in zones'
    {
      assert z in zones <==> z in multiset(zones);
      assert z in zones' <==> z in multiset(zones');
    }
    SlowestRatioIsSlowest(scene, zones);
    SlowestRatioIsSlowest(scene, zones');
    if forall z <- zones :: z.Fraction() {
      SlowestRatioIsLeast(scene, zones);
      SlowestRatioIsLeast(scene, zones');
    }
  }

  // ---------------------------------------------------------------- zone by zone

  /** The points inside the zone, source by source. */
  method CountPoints(zone: Zone, shape: Shape, data: map<string, seq<Point>>) returns (num: nat)
    ensures num == Count(shape, zone.Points(data))
  {
    hide Count;
    num := 0;
    NoPoints(shape);
    for i := 0 to |zone.sources|
      invariant num == Count(shape, Zone.PointsOf(zone.sources[..i], data))
    {
      var name := zone.sources[i];
      assert zone.sources[..i + 1][..i] == zone.sources[..i];
      if name in data {
        var n := PointsInside(shape, data[name]);
        CountConcat(shape, Zone.PointsOf(zone.sources[..i], data), data[name]);
        num := num + n;
      } else {
        assert Zone.PointsOf(zone.sources[..i], data) + [] == Zone.PointsOf(zone.sources[..i], data);
      }
    }
    assert zone.sources[..|zone.sources|] == zone.sources;
  }

  lemma NoPoints(shape: Shape)
    ensures Count(shape, []) == 0
  {
  }

  /** The points of the zone's sources in one list. */
  method CollectPoints(zone: Zone, data: map<string, seq<Point>>) returns (points: seq<Point>)
    ensures points == zone.Points(data)
  {
    points := [];
    for i := 0 to |zone.sources|
      invariant points == Zone.PointsOf(zone.sources[..i], data)
    {
      var name := zone.sources[i];
      assert zone.sources[..i + 1][..i] == zone.sources[..i];
      if name in data {
        points := points + data[name];
      } else {
        assert points + [] == points;
      }
    }
    assert zone.sources[..|zone.sources|] == zone.sources;
  }

  /** The zone's answer, as the source computes it. */
  method Evaluate(scene: Scene, zone: Zone) returns (ratio: Option<real>)
    requires zone.Valid() && zone.enabled
    ensures ratio == zone.Ratio(scene.lib, scene.data, scene.command)
  {
    hide Count, Approach.Time;
    if zone.shape.None? || zone.action == DoNothing {
      return None;
    }
    var shape, v := zone.shape.value, scene.command;
    if zone.action == ApproachAction {
      var points := CollectPoints(zone, scene.data);
      var time := GetCollisionTime(Approach(shape, zone.minPoints, zone.horizon, zone.step), scene.lib.trig, points, v);
      return if time >= 0.0 && zone.horizon != 0.0 then Some(time / zone.horizon) else None;
    }
    var count := CountPoints(zone, shape, scene.data);
    if count < zone.minPoints {
      return None;
    }
    match zone.action {
      case Stop => ratio := Some(0.0);
      case Slowdown => ratio := Some(zone.slowdownRatio);
      case Limit =>
        var linearVel := scene.lib.Hypot(v.x, v.y);
        var r := 1.0;
        if linearVel != 0.0 {
          r := Min(r, zone.linearLimit / linearVel);
        }
        if v.tw != 0.0 {
          r := Min(r, zone.angularLimit / Abs(v.tw));
        }
        ratio := Some(Min(1.0, Max(0.0, r)));
    }
  }

  lemma SquareScaled(a: real, k: real)
    ensures Times(Covered(a, k), Covered(a, k)) == Times(k, k) * Times(a, a)
  {
    assert (a * k) * (a * k) == (k * k) * (a * a);
  }

  lemma ScaledNorm(v: Velocity, k: real)
    ensures SquaredNorm(v.Scaled(k)) == Times(k, k) * SquaredNorm(v)
  {
    hide Times, Covered, Velocity.Scaled;
    v.ScaledParts(k);
    SquareScaled(v.x, k);
    SquareScaled(v.y, k);
    SquareScaled(v.tw, k);
    var m, a, b, c := Times(k, k), Times(v.x, v.x), Times(v.y, v.y), Times(v.tw, v.tw);
    assert m * a + m * b + m * c == m * (a + b + c);
  }

  lemma MirroredProduct(a: real, b: real)
    ensures Times(-a, -b) == Times(a, b)
    ensures Times(0.0, 0.0) == 0.0
  {
  }

  lemma SquarePositive(a: real)
    ensures a != 0.0 ==> Times(a, a) > 0.0
    ensures a == 0.0 ==> Times(a, a) == 0.0
  {
    hide Times;
    SignOfTimes(a, a);
  }

  lemma ZeroNorm(v: Velocity)
    ensures !v.IsZero() ==> SquaredNorm(v) > 0.0
    ensures v.IsZero() ==> SquaredNorm(v) == 0.0
  {
    hide Times;
    SquarePositive(v.x);
    SquarePositive(v.y);
    SquarePositive(v.tw);
  }

  lemma MagnitudeSquare(a: real)
    ensures Abs(a) >= 0.0
    ensures Times(Abs(a), Abs(a)) == Times(a, a)
  {
    hide Times;
    MirroredProduct(a, a);
  }

  /** The comparison of velocities prefers the slower of two multiples of a command, unless it is zero anyway. */
  lemma ComparisonPrefersSlower(v: Velocity, r: real, k: real)
    ensures SquaredNorm(v.Scaled(r)) < SquaredNorm(v.Scaled(k)) <==> Abs(r) < Abs(k) && !v.IsZero()
    ensures !(SquaredNorm(v.Scaled(r)) < SquaredNorm(v.Scaled(k))) ==> v.Scaled(k) == v.Scaled(Slower(k, r))
  {
    hide SquaredNorm, Times, Abs;
    ScaledNorm(v, r);
    ScaledNorm(v, k);
    ZeroNorm(v);
    MagnitudeSquare(r);
    MagnitudeSquare(k);
    SquareOrder(Abs(r), Abs(k));
    SquareOrder(Abs(k), Abs(r));
    NormOrder(Times(r, r), Times(k, k), SquaredNorm(v));
    if v.IsZero() {
      ScaledZero(v, r);
      ScaledZero(v, k);
    }
  }

  lemma NormOrder(a: real, b: real, n: real)
    ensures n > 0.0 ==> (a * n < b * n <==> a < b)
    ensures n == 0.0 ==> a * n == b * n
  {
    if n > 0.0 {
      ScaledOrder(n, a, b);
    }
  }

  lemma SquareOrder(r: real, k: real)
    requires 0.0 <= r && 0.0 <= k
    ensures r < k ==> Times(r, r) < Times(k, k)
  {
    SquaresInOrder(r, k);
  }

  lemma ScaledZero(v: Velocity, k: real)
    ensures v.IsZero() || k == 0.0 ==> v.Scaled(k) == Velocity(0.0, 0.0, 0.0)
  {
  }

  /** What the fold has made of the command after the first zones. */
  ghost predicate FoldedTo(scene: Scene, zones: seq<Zone>, action: Action)
    requires forall z <- zones :: z.Valid()
  {
    && action.velocity == scene.command.Scaled(SlowestRatio(scene, zones))
    && (action.actionType == Stop <==> AnyStop(scene, zones))
    && (action.actionType == DoNothing || action.actionType == Stop || !scene.command.IsZero())
    && (action.actionType == DoNothing ==> action.velocity == scene.command && action.polygonName == "")
    && (action.actionType != DoNothing ==>
          exists z <- zones :: z.name == action.polygonName && z.action == action.actionType
                               && z.Ratio(scene.lib, scene.data, scene.command) == Some(SlowestRatio(scene, zones)))
  }

  lemma OneMoreZone(scene: Scene, zones: seq<Zone>, z: Zone)
    requires (forall y <- zones :: y.Valid()) && z.Valid()
    ensures forall y <- zones + [z] :: y.Valid()
    ensures SlowestRatio(scene, zones + [z]) ==
            match z.Ratio(scene.lib, scene.data, scene.command)
            case None => SlowestRatio(scene, zones)
            case Some(r) => Slower(SlowestRatio(scene, zones), r)
    ensures AnyStop(scene, zones + [z]) <==>
            AnyStop(scene, zones) || z.StopTriggered(scene.lib, scene.data, scene.command)
  {
    hide Zone.Ratio;
    assert (zones + [z])[..|zones + [z]| - 1] == zones;
    assert forall y :: y in zones + [z] <==> y in zones || y == z;
  }

  /** A zone that is not triggered, or not stricter, leaves the action as it is. */
  lemma NotStricter(scene: Scene, zones: seq<Zone>, z: Zone, action: Action)
    requires (forall y <- zones :: y.Valid()) && z.Valid() && FoldedTo(scene, zones, action)
    requires !z.StopTriggered(scene.lib, scene.data, scene.command)
    requires var r := z.Ratio(scene.lib, scene.data, scene.command);
             r.None? || !(SquaredNorm(scene.command.Scaled(r.value)) < SquaredNorm(action.velocity))
    ensures forall y <- zones + [z] :: y.Valid()
    ensures FoldedTo(scene, zones + [z], action)
  {
    hide Zone.Ratio, SquaredNorm, Velocity.Scaled;
    OneMoreZone(scene, zones, z);
    var r := z.Ratio(scene.lib, scene.data, scene.command);
    if r.Some? {
      ComparisonPrefersSlower(scene.command, r.value, SlowestRatio(scene, zones));
    }
    if action.actionType == Stop {
      StopIsLeast(scene, zones);
    }
    if action.actionType != DoNothing {
      var y :| y in zones && y.name == action.polygonName && y.action == action.actionType
               && y.Ratio(scene.lib, scene.data, scene.command) == Some(SlowestRatio(scene, zones));
      assert y in zones + [z];
    }
  }

  lemma StopIsLeast(scene: Scene, zones: seq<Zone>)
    requires (forall y <- zones :: y.Valid()) && AnyStop(scene, zones)
    ensures SlowestRatio(scene, zones) == 0.0
  {
    hide Count;
    SlowestRatioIsSlowest(scene, zones);
    var z :| z in zones && z.StopTriggered(scene.lib, scene.data, scene.command);
  }

  /** A stricter zone takes over. */
  lemma Stricter(scene: Scene, zones: seq<Zone>, z: Zone, action: Action)
    requires (forall y <- zones :: y.Valid()) && z.Valid()
    requires FoldedTo(scene, zones, action) && action.actionType != Stop
    requires var r := z.Ratio(scene.lib, scene.data, scene.command);
             r.Some? && (z.action == Stop || SquaredNorm(scene.command.Scaled(r.value)) < SquaredNorm(action.velocity))
    ensures forall y <- zones + [z] :: y.Valid()
    ensures var r := z.Ratio(scene.lib, scene.data, scene.command);
            FoldedTo(scene, zones + [z], Action(z.action, scene.command.Scaled(r.value), z.name))
  {
    hide SquaredNorm, Velocity.Scaled, Count, Approach.Time;
    OneMoreZone(scene, zones, z);
    var r := z.Ratio(scene.lib, scene.data, scene.command);
    ComparisonPrefersSlower(scene.command, r.value, SlowestRatio(scene, zones));
    assert z in zones + [z];
  }

  /** `process`, the loop over the polygons. */
  method ProcessZones(scene: Scene, zones: seq<Zone>) returns (action: Action)
    requires forall z <- zones :: z.Valid()
    ensures FoldedTo(scene, zones, action)
    ensures action.actionType == Stop <==> exists z <- zones :: z.action == Stop && Occupied(z, scene.data)
    ensures action.actionType == Stop ==> action.velocity == Velocity(0.0, 0.0, 0.0)
  {
    hide Zone.Ratio, SlowestRatio, SquaredNorm, Occupied;
    action := Action(DoNothing, scene.command, "");
    NoZones(scene);
    for i := 0 to |zones|
      invariant FoldedTo(scene, zones[..i], action)
    {
      var z := zones[i];
      assert z in zones && zones[..i] + [z] == zones[..i + 1];
      if !z.enabled {
        DisabledRatio(scene, z);
        NotStricter(scene, zones[..i], z, action);
        continue;
      }
      if action.actionType == Stop {
        StopStays(scene, zones, i, action);
        StoppedIff(scene, zones, action);
        return;
      }
      var ratio := Evaluate(scene, z);
      if ratio.Some? {
        var safe := if z.action == Stop then Velocity(0.0, 0.0, 0.0) else scene.command.Scaled(ratio.value);
        if z.action == Stop {
          StopRatio(scene, z);
        }
        if z.action == Stop || SquaredNorm(safe) < SquaredNorm(action.velocity) {
          Stricter(scene, zones[..i], z, action);
          action := Action(z.action, safe, z.name);
        } else {
          NotStricter(scene, zones[..i], z, action);
        }
      } else {
        NotStricter(scene, zones[..i], z, action);
      }
    }
    assert zones[..|zones|] == zones;
    StoppedIff(scene, zones, action);
  }

  /** The fold orders a stop iff enough points lie in some stop zone, and then leaves no velocity. */
  lemma StoppedIff(scene: Scene, zones: seq<Zone>, action: Action)
    requires (forall z <- zones :: z.Valid()) && FoldedTo(scene, zones, action)
    ensures action.actionType == Stop <==> exists z <- zones :: z.action == Stop && Occupied(z, scene.data)
    ensures action.actionType == Stop ==> action.velocity == Velocity(0.0, 0.0, 0.0)
  {
    hide Zone.Ratio, SlowestRatio, Occupied;
    forall z <- zones
      ensures z.StopTriggered(scene.lib, scene.data, scene.command) <==> z.action == Stop && Occupied(z, scene.data)
    {
      TriggeredIff(scene.lib, scene.data, scene.command, z);
    }
    if action.actionType == Stop {
      StopIsLeast(scene, zones);
      ScaledZero(scene.command, SlowestRatio(scene, zones));
    }
  }

  lemma NoZones(scene: Scene)
    ensures SlowestRatio(scene, []) == 1.0 && FoldedTo(scene, [], Action(DoNothing, scene.command, ""))
  {
  }

  lemma DisabledRatio(scene: Scene, z: Zone)
    requires z.Valid() && !z.enabled
    ensures z.Ratio(scene.lib, scene.data, scene.command).None?
  {
  }

  lemma StopRatio(scene: Scene, z: Zone)
    requires z.Valid() && z.action == Stop && z.Ratio(scene.lib, scene.data, scene.command).Some?
    ensures z.Ratio(scene.lib, scene.data, scene.command) == Some(0.0)
    ensures scene.command.Scaled(0.0) == Velocity(0.0, 0.0, 0.0)
  {
    hide Count;
  }

  /** Once a stop is ordered the remaining zones cannot change it. */
  lemma {:induction false} StopStays(scene: Scene, zones: seq<Zone>, i: nat, action: Action)
    requires (forall z <- zones :: z.Valid()) && i <= |zones|
    requires FoldedTo(scene, zones[..i], action) && action.actionType == Stop
    ensures FoldedTo(scene, zones, action)
  {
    hide Zone.Ratio, SlowestRatio;
    assert forall z <- zones[..i] :: z in zones;
    StopIsLeast(scene, zones[..i]);
    var z :| z in zones[..i] && z.StopTriggered(scene.lib, scene.data, scene.command);
    assert z in zones;
    StopIsLeast(scene, zones);
  }

  // ---------------------------------------------------------------- limits and curvature

  lemma HypotIs(lib: Library, v: Velocity)
    requires lib.Sound()
    ensures lib.Hypot(v.x, v.y) >= 0.0
  {
  }

  /** The fraction a limit zone asks for, and any smaller one, obeys each limit iff the limit can be obeyed. */
  lemma LimitRatioRespects(z: Zone, lib: Library, v: Velocity, k: real)
    requires lib.Sound() && 0.0 <= k <= z.LimitRatio(lib, v)
    ensures k * lib.Hypot(v.x, v.y) <= z.linearLimit <==> z.linearLimit >= 0.0
    ensures k * Abs(v.tw) <= z.angularLimit <==> z.angularLimit >= 0.0
  {
    hide Library.Hypot;
    HypotIs(lib, v);
    var speed, turn := lib.Hypot(v.x, v.y), Abs(v.tw);
    SignOfProduct(k, speed);
    SignOfProduct(k, turn);
    if speed != 0.0 {
      QuotientBounds(k, z.linearLimit, speed);
    }
    if v.tw != 0.0 {
      QuotientBounds(k, z.angularLimit, turn);
    }
  }

  /** No greater fraction respects both limits. */
  lemma LimitRatioIsGreatest(z: Zone, lib: Library, v: Velocity, k: real)
    requires lib.Sound() && 0.0 <= k <= 1.0
    requires k * lib.Hypot(v.x, v.y) <= z.linearLimit && k * Abs(v.tw) <= z.angularLimit
    ensures k <= z.LimitRatio(lib, v)
  {
    hide Library.Hypot;
    HypotIs(lib, v);
    var speed := lib.Hypot(v.x, v.y);
    if speed != 0.0 {
      QuotientReached(k, z.linearLimit, speed);
    }
    if v.tw != 0.0 {
      QuotientReached(k, z.angularLimit, Abs(v.tw));
    }
  }

  lemma QuotientReached(k: real, limit: real, d: real)
    requires d > 0.0 && k * d <= limit
    ensures k <= limit / d
  {
    var q := limit / d;
    assert q * d == limit;
    assert (q - k) * d == limit - k * d;
    SignOfProduct(q - k, d);
  }

  lemma QuotientBounds(k: real, limit: real, d: real)
    requires d > 0.0
    ensures k <= limit / d ==> k * d <= limit
    ensures limit >= 0.0 ==> limit / d >= 0.0
  {
    var q := limit / d;
    assert q * d == limit;
    assert (q - k) * d == limit - k * d;
    SignOfProduct(q - k, d);
    SignOfProduct(q, d);
  }

  lemma ScaledSpeed(lib: Library, v: Velocity, k: real)
    requires lib.Sound()
    ensures 0.0 <= lib.Hypot(v.Scaled(k).x, v.Scaled(k).y) <= Abs(k) * lib.Hypot(v.x, v.y)
  {
    var u, s, t, m := v.Scaled(k), lib.Hypot(v.x, v.y), lib.Hypot(v.Scaled(k).x, v.Scaled(k).y), Abs(k);
    var ms := m * s;
    SignOfProduct(m, s);
    MagnitudeSquare(k);
    assert ms * ms == (m * m) * (s * s);
    assert (k * k) * (v.x * v.x + v.y * v.y) == u.x * u.x + u.y * u.y by {
      assert u.x * u.x == (k * k) * (v.x * v.x) && u.y * u.y == (k * k) * (v.y * v.y);
    }
    assert t * t == ms * ms;
    SquaresInOrder(t, ms);
  }

  lemma TriggeredLimit(scene: Scene, z: Zone)
    requires z.Valid() && z.action == Limit && z.Ratio(scene.lib, scene.data, scene.command).Some?
    ensures z.Ratio(scene.lib, scene.data, scene.command) == Some(z.LimitRatio(scene.lib, scene.command))
  {
    hide Count, Zone.LimitRatio, Zone.Points;
  }

  lemma LimitRatioRange(z: Zone, lib: Library, v: Velocity)
    ensures 0.0 <= z.LimitRatio(lib, v) <= 1.0
  {
  }

  lemma CurvatureKept(v: Velocity, k: real)
    ensures Times(v.Scaled(k).x, v.tw) == Times(v.x, v.Scaled(k).tw)
    ensures Times(v.Scaled(k).y, v.tw) == Times(v.y, v.Scaled(k).tw)
  {
    assert (v.x * k) * v.tw == v.x * (v.tw * k);
    assert (v.y * k) * v.tw == v.y * (v.tw * k);
  }

  lemma ScaledWithinLimits(z: Zone, lib: Library, v: Velocity, k: real)
    requires lib.Sound() && Abs(k) <= z.LimitRatio(lib, v)
    ensures lib.Hypot(v.Scaled(k).x, v.Scaled(k).y) <= z.linearLimit <==> z.linearLimit >= 0.0
    ensures Abs(v.Scaled(k).tw) <= z.angularLimit <==> z.angularLimit >= 0.0
  {
    hide Library.Sound, Library.Hypot, Zone.LimitRatio, Abs;
    MagnitudeSquare(k);
    LimitRatioRespects(z, lib, v, Abs(k));
    ScaledSpeed(lib, v, k);
    ScaledMagnitude(v, k);
  }

  /**
   The resulting command obeys every limit of every triggered limit zone at once, if the limit is not
   negative, and keeps its curvature.
   */
  lemma LimitsObeyed(scene: Scene, zones: seq<Zone>, z: Zone, action: Action)
    requires scene.lib.Sound() && (forall y <- zones :: y.Valid()) && FoldedTo(scene, zones, action)
    requires z in zones && z.action == Limit && z.Ratio(scene.lib, scene.data, scene.command).Some?
    ensures scene.lib.Hypot(action.velocity.x, action.velocity.y) <= z.linearLimit <==> z.linearLimit >= 0.0
    ensures Abs(action.velocity.tw) <= z.angularLimit <==> z.angularLimit >= 0.0
    ensures Times(action.velocity.x, scene.command.tw) == Times(scene.command.x, action.velocity.tw)
    ensures Times(action.velocity.y, scene.command.tw) == Times(scene.command.y, action.velocity.tw)
  {
    hide Zone.Ratio, Zone.LimitRatio, SlowestRatio, AnyStop, Library.Sound, Library.Hypot, Times, Velocity.Scaled;
    var k := SlowestRatio(scene, zones);
    SlowestRatioIsSlowest(scene, zones);
    TriggeredLimit(scene, z);
    LimitRatioRange(z, scene.lib, scene.command);
    ScaledWithinLimits(z, scene.lib, scene.command, k);
    CurvatureKept(scene.command, k);
  }

  /**
   The approach guarantee of the whole fold: unless the robot is stopped, no approach zone is hit up to its
   horizon, whichever zone decided, and whether that zone was triggered or not.
   */
  lemma ApproachesKept(scene: Scene, zones: seq<Zone>, z: Zone)
    requires (forall y <- zones :: y.Valid()) && z in zones && SlowestRatio(scene, zones) > 0.0
    requires z.enabled && z.shape.Some? && z.action == ApproachAction && z.horizon > 0.0
    ensures var a, points := z.Simulation(z.shape.value), z.Points(scene.data);
            !a.Hit(points) && ClearUntil(a, scene.lib.trig, points, scene.command, SlowestRatio(scene, zones))
  {
    hide SlowestRatio, Count, Approach.Time, Approach.Hit, ClearUntil;
    SlowestRatioIsSlowest(scene, zones);
    var a, points := z.Simulation(z.shape.value), z.Points(scene.data);
    var time := a.Time(scene.lib.trig, points, scene.command);
    if time >= 0.0 {
      ApproachRatio(scene, z);
      RatiosNonNegative(scene, z);
    }
    SlowerIsSafe(a, scene.lib.trig, points, scene.command, SlowestRatio(scene, zones));
  }

  lemma ApproachRatio(scene: Scene, z: Zone)
    requires z.Valid() && z.enabled && z.shape.Some? && z.action == ApproachAction && z.horizon > 0.0
    requires z.Simulation(z.shape.value).Time(scene.lib.trig, z.Points(scene.data), scene.command) >= 0.0
    ensures z.Ratio(scene.lib, scene.data, scene.command) ==
            Some(z.Simulation(z.shape.value).Time(scene.lib.trig, z.Points(scene.data), scene.command) / z.horizon)
  {
    hide Count, Approach.Time;
  }

  /** A limit zone stops the robot iff a limit that is not positive meets a component that is not zero. */
  lemma LimitStopsIff(z: Zone, lib: Library, v: Velocity)
    requires lib.Sound()
    ensures z.LimitRatio(lib, v) == 0.0 <==>
            (lib.Hypot(v.x, v.y) != 0.0 && z.linearLimit <= 0.0) || (v.tw != 0.0 && z.angularLimit <= 0.0)
  {
    hide Library.Hypot;
    HypotIs(lib, v);
    var speed := lib.Hypot(v.x, v.y);
    if speed != 0.0 {
      SignOfQuotient(z.linearLimit, speed);
    }
    if v.tw != 0.0 {
      SignOfQuotient(z.angularLimit, Abs(v.tw));
    }
  }

  lemma SignOfQuotient(n: real, d: real)
    requires d > 0.0
    ensures n / d > 0.0 <==> n > 0.0
  {
    var q := n / d;
    QuotientTimes(n, d);
    SignOfProduct(q, d);
  }

  lemma ScaledMagnitude(v: Velocity, k: real)
    ensures 0.0 <= Abs(v.Scaled(k).tw) == Abs(k) * Abs(v.tw)
  {
    SignOfProduct(v.tw, k);
    SignOfProduct(-v.tw, k);
    SignOfProduct(v.tw, -k);
    SignOfProduct(-v.tw, -k);
    assert v.tw * -k == -(v.tw * k) == -v.tw * k && -v.tw * -k == v.tw * k;
  }

  /** No zone makes the command faster. */
  lemma NeverFaster(scene: Scene, zones: seq<Zone>, action: Action)
    requires (forall z <- zones :: z.Valid()) && FoldedTo(scene, zones, action)
    ensures SquaredNorm(action.velocity) <= SquaredNorm(scene.command)
  {
    hide SlowestRatio, SquaredNorm, Zone.Ratio, Velocity.Scaled;
    var one := 1.0;
    SlowestRatioIsSlowest(scene, zones);
    ComparisonPrefersSlower(scene.command, one, SlowestRatio(scene, zones));
    ScaledByOne(scene.command);
  }

  lemma ScaledByOne(v: Velocity)
    ensures v.Scaled(1.0) == v
  {
  }
}
