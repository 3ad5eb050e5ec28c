/** The spin behaviour: turning in place by a commanded angle, watched through wrapped yaw readings. */
module Spin {
  import opened Options
  import opened Reals

  const TOLERANCE := 0.000001

  function CopySign(magnitude: real, sign: real): real {
    if sign < 0.0 then -Abs(magnitude) else Abs(magnitude)
  }

  // ---------------------------------------------------------------- unwrapping

  /** The rotation read off two successive yaw readings. */
  function Unwrapped(pi: real, previous: real, current: real): real {
    var delta := current - previous;
    if Abs(delta) > pi then CopySign(2.0 * pi - Abs(delta), previous) else delta
  }

  /** What has been accumulated after these readings, the first of which started the behaviour. */
  function Relative(pi: real, readings: seq<real>): real {
    if |readings| <= 1 then 0.0
    else Relative(pi, readings[..|readings| - 1]) + Unwrapped(pi, readings[|readings| - 2], readings[|readings| - 1])
  }

  lemma OneMoreReading(pi: real, readings: seq<real>, current: real)
    requires |readings| > 0
    ensures Relative(pi, readings + [current]) ==
            Relative(pi, readings) + Unwrapped(pi, readings[|readings| - 1], current)
  {
    assert (readings + [current])[..|readings|] == readings;
  }

  function Turns(pi: real, k: int): real {
    2.0 * pi * k as real
  }

  /** A yaw reading shows a heading up to whole turns. */
  ghost predicate Shows(pi: real, heading: real, reading: real) {
    -pi <= reading <= pi && exists k: int :: heading == reading + Turns(pi, k)
  }

  lemma TurnsApart(pi: real, k: int)
    requires pi > 0.0
    ensures Turns(pi, 0) == 0.0 && Turns(pi, 1) == 2.0 * pi && Turns(pi, -1) == -2.0 * pi
    ensures k >= 2 ==> Turns(pi, k) >= 4.0 * pi
    ensures k <= -2 ==> Turns(pi, k) <= -4.0 * pi
  {
    var above, below := k as real - 2.0, -2.0 - k as real;
    SignOfProduct(pi, above);
    SignOfProduct(pi, below);
    assert pi * above == pi * k as real - 2.0 * pi && pi * below == -2.0 * pi - pi * k as real;
    assert Turns(pi, k) == 2.0 * (pi * k as real);
  }

  lemma TurnsSubtract(pi: real, j: int, k: int)
    ensures Turns(pi, j) - Turns(pi, k) == Turns(pi, j - k)
  {
  }

  /**
   Two readings give the true rotation between them exactly when it is less than half a turn, or just half
   a turn that the readings show without wrapping.
   */
  lemma UnwrapExact(pi: real, h: real, h': real, previous: real, current: real)
    requires pi > 0.0 && Shows(pi, h, previous) && Shows(pi, h', current)
    ensures Unwrapped(pi, previous, current) == h' - h <==>
            Abs(h' - h) < pi || (Abs(h' - h) == pi && h' - h == current - previous)
  {
    hide Turns;
    var j: int :| h == previous + Turns(pi, j);
    var k: int :| h' == current + Turns(pi, k);
    TurnsSubtract(pi, k, j);
    TurnsApart(pi, k - j);
    var n := k - j;
    assert h' - h == current - previous + Turns(pi, n);
    assert n >= 2 || n <= -2 || n == 1 || n == 0 || n == -1;
  }

  /** Every reading shows its heading, and no cycle turns by half a turn. */
  ghost predicate Observes(pi: real, headings: seq<real>, readings: seq<real>) {
    && |headings| == |readings| > 0
    && (forall i | 0 <= i < |readings| :: Shows(pi, headings[i], readings[i]))
    && (forall i | 0 < i < |readings| :: Abs(headings[i] - headings[i - 1]) < pi)
  }

  /** Whatever the run, the accumulated yaw is the total rotation, whole turns included. */
  lemma {:induction false} TotalRotation(pi: real, headings: seq<real>, readings: seq<real>)
    requires pi > 0.0 && Observes(pi, headings, readings)
    ensures Relative(pi, readings) == headings[|headings| - 1] - headings[0]
  {
    hide Shows, Unwrapped;
    if |readings| > 1 {
      var n := |readings| - 1;
      TotalRotation(pi, headings[..n], readings[..n]);
      UnwrapExact(pi, headings[n - 1], headings[n], readings[n - 1], readings[n]);
    }
  }

  /** The angle still to turn, as the behaviour reckons it. */
  function Remaining(pi: real, readings: seq<real>, target: real): real {
    Abs(target) - Abs(Relative(pi, readings))
  }

  /** The run succeeds with its last reading and not before; the first cycle is the second reading. */
  ghost predicate Arrives(pi: real, headings: seq<real>, readings: seq<real>, target: real) {
    && pi > 0.0 && Observes(pi, headings, readings) && |readings| > 1
    && Remaining(pi, readings, target) < TOLERANCE
    && (|readings| == 2 || TOLERANCE <= Remaining(pi, readings[..|readings| - 1], target))
  }

  /** What there is to turn before the behaviour succeeds. */
  function Due(target: real): real {
    Max(0.0, Abs(target) - TOLERANCE)
  }

  function Turned(headings: seq<real>): real
    requires |headings| > 0
  {
    headings[|headings| - 1] - headings[0]
  }

  function LastTurn(headings: seq<real>): real
    requires |headings| > 1
  {
    headings[|headings| - 1] - headings[|headings| - 2]
  }

  /** On success the robot has turned by the angle, in some direction, and at most the last cycle's rotation too far. */
  lemma Arrival(pi: real, headings: seq<real>, readings: seq<real>, target: real)
    requires Arrives(pi, headings, readings, target)
    ensures Abs(target) - TOLERANCE < Abs(Turned(headings)) <= Due(target) + Abs(LastTurn(headings))
    ensures Relative(pi, readings) == Turned(headings)
  {
    hide Shows, Relative;
    var n := |headings| - 1;
    TotalRotation(pi, headings, readings);
    assert Observes(pi, headings[..n], readings[..n]);
    TotalRotation(pi, headings[..n], readings[..n]);
  }

  /** The commanded angle, with its sign, was turned to within the tolerance and the last cycle's rotation. */
  predicate TurnedByTarget(headings: seq<real>, target: real)
    requires |headings| > 1
  {
    var most := Due(target) + Abs(LastTurn(headings));
    if target < 0.0 then -most <= Turned(headings) < target + TOLERANCE
    else target - TOLERANCE < Turned(headings) <= most
  }

  /** Success means the commanded rotation iff the accumulated yaw has the command's sign, or both are tiny. */
  lemma ArrivalIff(pi: real, headings: seq<real>, readings: seq<real>, target: real)
    requires Arrives(pi, headings, readings, target)
    ensures TurnedByTarget(headings, target) <==>
            (Relative(pi, readings) < 0.0 <==> target < 0.0) || Abs(Relative(pi, readings)) + Abs(target) < TOLERANCE
  {
    hide Observes, Relative;
    Arrival(pi, headings, readings, target);
  }

  lemma ZeroTurns(pi: real)
    ensures Turns(pi, 0) == 0.0
  {
  }

  /** A robot pushed back by one radian succeeds in turning forward by one. */
  lemma WrongWayArrives(pi: real)
    requires pi > 3.0
    ensures Arrives(pi, [0.0, -1.0], [0.0, -1.0], 1.0) && !TurnedByTarget([0.0, -1.0], 1.0)
  {
    var run, start := [0.0, -1.0], [0.0];
    ZeroTurns(pi);
    assert 0.0 == 0.0 + Turns(pi, 0) && -1.0 == -1.0 + Turns(pi, 0);
    assert Shows(pi, run[0], run[0]) && Shows(pi, run[1], run[1]);
    assert run[..1] == start;
    assert Relative(pi, start) == 0.0;
    assert Relative(pi, run) == Relative(pi, start) + Unwrapped(pi, run[0], run[1]);
  }

  // ---------------------------------------------------------------- speed

  datatype Settings = Settings(pi: real, maxVel: real, minVel: real, accLimit: real, sqrt: real -> real) {
    function Sqrt(a: real): real {
      sqrt(a)
    }

    ghost predicate Sound() {
      pi > 0.0 && forall a: real {:trigger Sqrt(a)} | a >= 0.0 :: sqrt(a) >= 0.0 && sqrt(a) * sqrt(a) == a
    }

    /** The square of the speed from which braking at the limit takes the remaining angle. */
    function BrakingSquare(remaining: real): real {
      2.0 * accLimit * remaining
    }

    /**
     The speed at which the robot could still brake in time, kept within the configured range; none where it is
     the root of a negative number, which the comparisons hand on.
     */
    function Speed(remaining: real): Option<real> {
      if BrakingSquare(remaining) < 0.0 then None
      else Some(Min(Max(Sqrt(BrakingSquare(remaining)), minVel), maxVel))
    }

    /**
     The speed is a number iff the acceleration limit is not negative. Braking at the limit from it takes no more
     than the remaining angle, or it is the least one; a negative greatest speed is taken as it is.
     */
    lemma SpeedBound(remaining: real)
      requires Sound() && remaining >= 0.0
      ensures Speed(remaining).Some? <==> accLimit >= 0.0 || remaining == 0.0
      ensures Speed(remaining).Some? ==>
                var v := Speed(remaining).value;
                && (maxVel < 0.0 ==> v == maxVel)
                && (maxVel >= 0.0 ==>
                      && 0.0 <= v <= maxVel && (minVel <= maxVel ==> minVel <= v)
                      && v * v <= Max(2.0 * (accLimit * remaining), minVel * minVel)
                      && (v == maxVel || v * v >= 2.0 * (accLimit * remaining)))
    {
      hide Times, BrakingSquare, Sound, Sqrt;
      SpeedInNames(remaining);
      BrakingIs(remaining);
      SquareIs(minVel);
      if Speed(remaining).Some? {
        SquareIs(Speed(remaining).value);
      }
    }

    lemma BrakingIs(remaining: real)
      ensures BrakingSquare(remaining) == 2.0 * (accLimit * remaining)
    {
    }

    static lemma SquareIs(a: real)
      ensures Times(a, a) == a * a
    {
    }

    lemma SpeedInNames(remaining: real)
      requires Sound() && remaining >= 0.0
      ensures Speed(remaining).Some? <==> accLimit >= 0.0 || remaining == 0.0
      ensures Speed(remaining).Some? ==>
                var v := Speed(remaining).value;
                && (maxVel < 0.0 ==> v == maxVel)
                && (maxVel >= 0.0 ==>
                      && 0.0 <= v <= maxVel && (minVel <= maxVel ==> minVel <= v)
                      && Times(v, v) <= Max(BrakingSquare(remaining), Times(minVel, minVel))
                      && (v == maxVel || Times(v, v) >= BrakingSquare(remaining)))
    {
      hide Times, BrakingSquare, Sound, Sqrt;
      BrakingSign(remaining);
      if Speed(remaining).Some? {
        RootOfBraking(remaining);
        if maxVel >= 0.0 {
          ClampedSquare(Sqrt(BrakingSquare(remaining)), minVel, maxVel);
        }
      }
    }

    lemma BrakingSign(remaining: real)
      requires remaining >= 0.0
      ensures BrakingSquare(remaining) < 0.0 <==> accLimit < 0.0 && remaining > 0.0
    {
      SignOfProduct(accLimit, remaining);
      assert BrakingSquare(remaining) == 2.0 * (accLimit * remaining);
    }

    lemma RootOfBraking(remaining: real)
      requires Sound() && BrakingSquare(remaining) >= 0.0
      ensures var w := BrakingSquare(remaining); Sqrt(w) >= 0.0 && Times(Sqrt(w), Sqrt(w)) == w
    {
    }

    lemma ClampedSquare(root: real, least: real, most: real)
      requires root >= 0.0 && most >= 0.0
      ensures var v := Min(Max(root, least), most);
              && 0.0 <= v <= most && (least <= most ==> least <= v)
              && Times(v, v) <= Max(Times(root, root), Times(least, least))
              && (v == most || Times(v, v) >= Times(root, root))
    {
      var v := Min(Max(root, least), most);
      if v != most {
        SquaresInOrder(root, v);
      }
      if v <= root {
        SquaresInOrder(v, root);
      } else {
        SquaresInOrder(v, least);
      }
    }
  }

  // ---------------------------------------------------------------- the behaviour

  /** What a cycle publishes. */
  datatype Sent = Nothing | Velocity(angular: real) | NotANumber

  datatype Status = Running | Succeeded | TimedOut | NoPose | CollisionAhead

  class Behaviour {
    const settings: Settings
    var prevYaw: real
    var relativeYaw: real
    var cmdYaw: real
    var allowance: real
    var endTime: real

    constructor (settings: Settings)
      ensures this.settings == settings
    {
      this.settings := settings;
      prevYaw, relativeYaw, cmdYaw, allowance, endTime := 0.0, 0.0, 0.0, 0.0, 0.0;
    }

    /** The readings taken since the behaviour was started. */
    ghost predicate Tracks(readings: seq<real>)
      reads this
    {
      |readings| > 0 && prevYaw == readings[|readings| - 1] && relativeYaw == Relative(settings.pi, readings)
    }

    method OnRun(yaw: Option<real>, target: real, allowance: real, now: real) returns (status: Status)
      modifies this
      ensures status == if yaw.Some? then Succeeded else NoPose
      ensures yaw.Some? ==> Tracks([yaw.value]) && cmdYaw == target
      ensures yaw.Some? ==> this.allowance == allowance && endTime == now + allowance
      ensures yaw.None? ==> unchanged(this)
    {
      if yaw.None? {
        return NoPose;
      }
      prevYaw := yaw.value;
      relativeYaw := 0.0;
      cmdYaw := target;
      this.allowance := allowance;
      endTime := now + allowance;
      status := Succeeded;
    }

    /**
     One cycle. `collisionFree` answers for the simulated motion; the result is the status and the angular
     velocity sent, if one is.
     */
    method OnCycleUpdate(now: real, yaw: Option<real>, collisionFree: bool, ghost readings: seq<real>)
        returns (status: Status, sent: Sent)
      requires Tracks(readings)
      modifies this`prevYaw, this`relativeYaw
      ensures status == TimedOut <==> endTime < now && allowance > 0.0
      ensures status == NoPose <==> status != TimedOut && yaw.None?
      ensures status == TimedOut || status == NoPose ==> Tracks(readings)
      ensures status != TimedOut && status != NoPose ==>
                && Tracks(readings + [yaw.value])
                && var remaining := Abs(cmdYaw) - Abs(Relative(settings.pi, readings + [yaw.value]));
                   && (status == Succeeded <==> remaining < 0.000001)
                   && (status == CollisionAhead <==> remaining >= 0.000001 && !collisionFree)
                   && (status == Running ==>
                         sent == match settings.Speed(remaining)
                                 case None => NotANumber
                                 case Some(v) => Velocity(CopySign(v, cmdYaw)))
      ensures status == Running && sent.Velocity? ==>
                (cmdYaw < 0.0 ==> sent.angular <= 0.0) && (cmdYaw >= 0.0 ==> sent.angular >= 0.0)
      ensures status == NoPose ==> sent == Nothing
      ensures status == Succeeded || status == TimedOut || status == CollisionAhead ==> sent == Velocity(0.0)
    {
      hide Relative, Settings.BrakingSquare, Settings.Sqrt;
      if endTime - now < 0.0 && allowance > 0.0 {
        return TimedOut, Velocity(0.0);
      }
      if yaw.None? {
        return NoPose, Nothing;
      }
      var currentYaw := yaw.value;
      var deltaYaw := currentYaw - prevYaw;
      if Abs(deltaYaw) > settings.pi {
        deltaYaw := CopySign(2.0 * settings.pi - Abs(deltaYaw), prevYaw);
      }
      OneMoreReading(settings.pi, readings, currentYaw);
      relativeYaw := relativeYaw + deltaYaw;
      prevYaw := currentYaw;
      var remaining := Abs(cmdYaw) - Abs(relativeYaw);
      if remaining < TOLERANCE {
        return Succeeded, Velocity(0.0);
      }
      var square := settings.BrakingSquare(remaining);
      if !collisionFree {
        return CollisionAhead, Velocity(0.0);
      }
      if square < 0.0 {
        return Running, NotANumber;
      }
      var vel := settings.Sqrt(square);
      vel := Min(Max(vel, settings.minVel), settings.maxVel);
      return Running, Velocity(CopySign(vel, cmdYaw));
    }
  }
}
