/** When the order of the safety zones matters: only for ratios that differ in their sign. */
module ZoneOrder {
  import opened Options
  import opened Reals
  import opened RayCrossing
  import opened Kinematics
  import opened CollisionTime
  import opened CollisionMonitor

  ghost predicate AllValid(zones: seq<Zone>) {
    forall z <- zones :: z.Valid()
  }

  function RatioIn(scene: Scene, z: Zone): Option<real>
    requires z.Valid()
  {
    z.Ratio(scene.lib, scene.data, scene.command)
  }

  /** `zones'` are the same zones in some order. */
  ghost predicate Reordered(zones: seq<Zone>, zones': seq<Zone>) {
    multiset(zones') == multiset(zones) && AllValid(zones')
  }

  /** Some order of the zones gives another ratio. */
  ghost predicate OrderMatters(scene: Scene, zones: seq<Zone>)
    requires AllValid(zones)
  {
    exists zones' :: Reordered(zones, zones') && SlowestRatio(scene, zones') != SlowestRatio(scene, zones)
  }

  /** Some order of the zones gives another velocity. */
  ghost predicate VelocityDepends(scene: Scene, zones: seq<Zone>)
    requires AllValid(zones)
  {
    exists zones' :: Reordered(zones, zones') &&
      scene.command.Scaled(SlowestRatio(scene, zones')) != scene.command.Scaled(SlowestRatio(scene, zones))
  }

  /** Two triggered zones ask for opposite ratios, below 1 and as slow as any. */
  ghost predicate OpposedBy(scene: Scene, zones: seq<Zone>, y: Zone, z: Zone)
    requires AllValid(zones)
  {
    && y in zones && z in zones
    && RatioIn(scene, y).Some? && RatioIn(scene, z).Some?
    && var m := RatioIn(scene, y).value;
       RatioIn(scene, z).value == -m && m != 0.0 && Abs(m) < 1.0 && Abs(m) == Abs(SlowestRatio(scene, zones))
  }

  ghost predicate Opposed(scene: Scene, zones: seq<Zone>)
    requires AllValid(zones)
  {
    exists y, z :: OpposedBy(scene, zones, y, z)
  }

  // ---------------------------------------------------------------- the first of the slowest wins

  /** At full speed the ratio is 1 itself. */
  lemma {:induction false} FullSpeed(scene: Scene, zones: seq<Zone>)
    requires AllValid(zones)
    ensures Abs(SlowestRatio(scene, zones)) < 1.0 || SlowestRatio(scene, zones) == 1.0
  {
    hide Zone.Ratio;
    if zones != [] {
      var z := zones[|zones| - 1];
      assert z in zones;
      FullSpeed(scene, zones[..|zones| - 1]);
    }
  }

  lemma {:induction false} FirstWins(scene: Scene, y: Zone, rest: seq<Zone>, m: real)
    requires AllValid([y] + rest) && RatioIn(scene, y) == Some(m) && Abs(m) < 1.0
    requires forall z <- rest :: RatioIn(scene, z).Some? ==> Abs(m) <= Abs(RatioIn(scene, z).value)
    ensures SlowestRatio(scene, [y] + rest) == m
  {
    hide Zone.Ratio, SlowestRatio;
    if rest == [] {
      NoZones(scene);
      OneMoreZone(scene, [], y);
      assert [] + [y] == [y] + rest;
    } else {
      var z, front := rest[|rest| - 1], rest[..|rest| - 1];
      assert z in [y] + rest && z in rest;
      assert [y] + rest == ([y] + front) + [z];
      assert forall x <- [y] + front :: x in [y] + rest;
      FirstWins(scene, y, front, m);
      OneMoreZone(scene, [y] + front, z);
    }
  }

  /** The zones with `y` moved to the front. */
  lemma MovedToFront(zones: seq<Zone>, y: Zone) returns (rest: seq<Zone>)
    requires y in zones && AllValid(zones)
    ensures Reordered(zones, [y] + rest) && forall z <- rest :: z in zones
  {
    var i :| 0 <= i < |zones| && zones[i] == y;
    rest := zones[..i] + zones[i + 1..];
    assert zones == zones[..i] + [y] + zones[i + 1..];
    assert forall z <- [y] + rest :: z in zones;
  }

  lemma FrontDecides(scene: Scene, zones: seq<Zone>, y: Zone) returns (zones': seq<Zone>)
    requires AllValid(zones) && y in zones && RatioIn(scene, y).Some? && Abs(RatioIn(scene, y).value) < 1.0
    requires Abs(RatioIn(scene, y).value) == Abs(SlowestRatio(scene, zones))
    ensures Reordered(zones, zones') && SlowestRatio(scene, zones') == RatioIn(scene, y).value
  {
    hide Zone.Ratio, SlowestRatio;
    var rest := MovedToFront(zones, y);
    SlowestRatioIsSlowest(scene, zones);
    zones' := [y] + rest;
    FirstWins(scene, y, rest, RatioIn(scene, y).value);
  }

  // ---------------------------------------------------------------- when the order matters

  lemma SameZones(zones: seq<Zone>, zones': seq<Zone>, z: Zone)
    requires multiset(zones') == multiset(zones)
    ensures z in zones <==> z in zones'
  {
    assert z in zones <==> z in multiset(zones);
    assert z in zones' <==> z in multiset(zones');
  }

  lemma OtherRatioIsOpposite(scene: Scene, zones: seq<Zone>, zones': seq<Zone>)
    requires AllValid(zones) && Reordered(zones, zones') && SlowestRatio(scene, zones') != SlowestRatio(scene, zones)
    ensures SlowestRatio(scene, zones') == -SlowestRatio(scene, zones) && Opposed(scene, zones)
  {
    hide Zone.Ratio, SlowestRatio;
    OrderIrrelevant(scene, zones, zones');
    FullSpeed(scene, zones);
    FullSpeed(scene, zones');
    SlowestRatioIsSlowest(scene, zones);
    SlowestRatioIsSlowest(scene, zones');
    var y :| y in zones && RatioIn(scene, y) == Some(SlowestRatio(scene, zones));
    var z :| z in zones' && RatioIn(scene, z) == Some(SlowestRatio(scene, zones'));
    SameZones(zones, zones', z);
    assert OpposedBy(scene, zones, y, z);
  }

  /** The order of the zones matters iff two of the slowest triggered ratios are opposite. */
  lemma OrderMattersIff(scene: Scene, zones: seq<Zone>)
    requires AllValid(zones)
    ensures OrderMatters(scene, zones) <==> Opposed(scene, zones)
  {
    hide Zone.Ratio, SlowestRatio;
    if OrderMatters(scene, zones) {
      var zones' :| Reordered(zones, zones') && SlowestRatio(scene, zones') != SlowestRatio(scene, zones);
      OtherRatioIsOpposite(scene, zones, zones');
    }
    if Opposed(scene, zones) {
      var y, z :| OpposedBy(scene, zones, y, z);
      var first := FrontDecides(scene, zones, y);
      var second := FrontDecides(scene, zones, z);
    }
  }

  lemma OppositeMultiples(v: Velocity, k: real)
    ensures v.Scaled(k) == v.Scaled(-k) <==> v.IsZero() || k == 0.0
  {
    hide Covered;
    v.ScaledParts(k);
    v.ScaledParts(-k);
    CoveredMirrored(v.x, k);
    CoveredMirrored(v.y, k);
    CoveredMirrored(v.tw, k);
  }

  lemma CoveredMirrored(a: real, k: real)
    ensures Covered(a, -k) == -Covered(a, k)
    ensures Covered(a, k) == 0.0 <==> a == 0.0 || k == 0.0
  {
    SignOfProduct(a, k);
  }

  /** The resulting velocity depends on the order iff the ratio does and there is a command to slow down. */
  lemma VelocityDependsIff(scene: Scene, zones: seq<Zone>)
    requires AllValid(zones)
    ensures VelocityDepends(scene, zones) <==> Opposed(scene, zones) && !scene.command.IsZero()
  {
    hide Zone.Ratio, SlowestRatio, Velocity.Scaled, Velocity.IsZero;
    OrderMattersIff(scene, zones);
    var k := SlowestRatio(scene, zones);
    OppositeMultiples(scene.command, k);
    if VelocityDepends(scene, zones) {
      var zones' :| Reordered(zones, zones') &&
        scene.command.Scaled(SlowestRatio(scene, zones')) != scene.command.Scaled(SlowestRatio(scene, zones));
      OtherRatioIsOpposite(scene, zones, zones');
    }
    if Opposed(scene, zones) && !scene.command.IsZero() {
      var zones' :| Reordered(zones, zones') && SlowestRatio(scene, zones') != SlowestRatio(scene, zones);
      OtherRatioIsOpposite(scene, zones, zones');
    }
  }

  // ---------------------------------------------------------------- two zones that do not commute

  function SlowZone(name: string, ratio: real): Zone {
    Zone(name, true, Slowdown, Some(Circle(1.0)), 1, ["scan"], ratio, 0.0, 0.0, 0.0, 0.0)
  }

  function PointAhead(): map<string, seq<Point>> {
    map["scan" := [Point(0.5, 0.0)]]
  }

  lemma SlowZoneTriggered(lib: Library, v: Velocity, name: string, ratio: real)
    ensures RatioIn(Scene(lib, PointAhead(), v), SlowZone(name, ratio)) == Some(ratio)
  {
    var points := [Point(0.5, 0.0)];
    assert SlowZone(name, ratio).Points(PointAhead()) == points by {
      assert Zone.PointsOf(["scan"][..0], PointAhead()) == [];
      assert Zone.PointsOf(["scan"], PointAhead()) == [] + points;
    }
    assert points[..0] == [] && Count(Circle(1.0), points) == 1;
  }

  /** One point, two zones: half the speed forwards or backwards, as the zones are ordered. */
  lemma HalfForwardsOrBack(lib: Library, v: Velocity)
    ensures var scene, y, z := Scene(lib, PointAhead(), v), SlowZone("a", 0.5), SlowZone("b", -0.5);
            SlowestRatio(scene, [y, z]) == 0.5 && SlowestRatio(scene, [z, y]) == -0.5
  {
    hide Zone.Ratio, SlowestRatio;
    var scene, y, z := Scene(lib, PointAhead(), v), SlowZone("a", 0.5), SlowZone("b", -0.5);
    SlowZoneTriggered(lib, v, "a", 0.5);
    SlowZoneTriggered(lib, v, "b", -0.5);
    FirstWins(scene, y, [z], 0.5);
    FirstWins(scene, z, [y], -0.5);
    assert [y] + [z] == [y, z] && [z] + [y] == [z, y];
  }
}
