/** The collision monitor node: one cycle per command, and what it remembers between them. */
module MonitorNode {
  import opened Options
  import opened RayCrossing
  import opened Kinematics
  import opened CollisionMonitor
  import StopPublication

  /** What a data source answers in a cycle: the points it adds and whether its data is usable. */
  datatype Reading = Reading(name: string, enabled: bool, points: seq<Point>, usable: bool, timeout: real) {
    /** An enabled source without usable data, unless its timeout is switched off. */
    predicate Failed() {
      enabled && !usable && timeout != 0.0
    }
  }

  /** The points the enabled sources of that name have added, in order. */
  function PointsNamed(readings: seq<Reading>, name: string): seq<Point> {
    if readings == [] then []
    else
      var last := readings[|readings| - 1];
      PointsNamed(readings[..|readings| - 1], name) + if last.enabled && last.name == name then last.points else []
  }

  /** The data map holds every source's name with all the points of that name. */
  ghost predicate Gathered(readings: seq<Reading>, data: map<string, seq<Point>>) {
    && (forall name :: name in data <==> exists r <- readings :: r.name == name)
    && (forall name <- data :: data[name] == PointsNamed(readings, name))
  }

  lemma {:induction false} NamelessPoints(readings: seq<Reading>, name: string)
    requires forall r <- readings :: r.name != name
    ensures PointsNamed(readings, name) == []
  {
    if readings != [] {
      NamelessPoints(readings[..|readings| - 1], name);
    }
  }

  /** A point is listed under a name iff an enabled source of that name has it. */
  lemma {:induction false} NamedPoints(readings: seq<Reading>, name: string, q: Point)
    ensures q in PointsNamed(readings, name) <==> exists r <- readings :: r.enabled && r.name == name && q in r.points
  {
    if readings != [] {
      var last, rest := readings[|readings| - 1], readings[..|readings| - 1];
      NamedPoints(rest, name, q);
      assert forall r :: r in readings <==> r in rest || r == last;
    }
  }

  /** The data map after one more source: its name is inserted, its points appended if it is enabled. */
  function WithReading(data: map<string, seq<Point>>, r: Reading): map<string, seq<Point>> {
    var inserted := if r.name in data then data else data[r.name := []];
    if r.enabled then inserted[r.name := inserted[r.name] + r.points] else inserted
  }

  lemma PointsOfMore(readings: seq<Reading>, r: Reading, name: string)
    ensures PointsNamed(readings + [r], name) ==
            PointsNamed(readings, name) + if r.enabled && r.name == name then r.points else []
  {
    assert (readings + [r])[..|readings|] == readings;
  }

  lemma OneMoreReading(readings: seq<Reading>, r: Reading, data: map<string, seq<Point>>)
    requires Gathered(readings, data)
    ensures Gathered(readings + [r], WithReading(data, r))
  {
    hide PointsNamed;
    var data' := WithReading(data, r);
    assert forall q :: q in readings + [r] <==> q in readings || q == r;
    if r.name !in data {
      NamelessPoints(readings, r.name);
    }
    forall name <- data'
      ensures data'[name] == PointsNamed(readings + [r], name)
    {
      PointsOfMore(readings, r, name);
    }
  }

  /** The loop over the sources: the first that fails makes the cycle invalid. */
  method GatherData(readings: seq<Reading>) returns (valid: bool, data: map<string, seq<Point>>)
    ensures valid <==> forall r <- readings :: !r.enabled || r.usable || r.timeout == 0.0
    ensures valid ==> Gathered(readings, data)
  {
    hide Gathered;
    data := map[];
    NothingGathered();
    for i := 0 to |readings|
      invariant forall r <- readings[..i] :: !r.Failed()
      invariant Gathered(readings[..i], data)
    {
      var r := readings[i];
      assert readings[..i + 1] == readings[..i] + [r];
      OneMoreReading(readings[..i], r, data);
      if r.name !in data {
        data := data[r.name := []];
      }
      if r.enabled {
        data := data[r.name := data[r.name] + r.points];
        if !r.usable && r.timeout != 0.0 {
          assert r in readings && r.Failed();
          return false, data;
        }
      }
    }
    assert readings[..|readings|] == readings;
    valid := true;
  }

  lemma NothingGathered()
    ensures Gathered([], map[])
  {
  }

  const ZERO := Velocity(0.0, 0.0, 0.0)

  /** The action a cycle must come to. */
  ghost predicate Decides(enabled: bool, lib: Library, readings: seq<Reading>, zones: seq<Zone>,
                          command: Velocity, action: Action)
    requires forall z <- zones :: z.Valid()
  {
    if exists r <- readings :: r.Failed() then action == Action(Stop, ZERO, "invalid source")
    else if !enabled then action == Action(DoNothing, command, "")
    else exists data :: Gathered(readings, data) && FoldedTo(Scene(lib, data, command), zones, action)
  }

  /** Whatever is decided, the robot is not made faster, and a failed source stops it. */
  lemma DecidedIsSafe(enabled: bool, lib: Library, readings: seq<Reading>, zones: seq<Zone>,
                      command: Velocity, action: Action)
    requires (forall z <- zones :: z.Valid()) && Decides(enabled, lib, readings, zones, command, action)
    ensures SquaredNorm(action.velocity) <= SquaredNorm(command)
    ensures (exists r <- readings :: r.Failed()) ==> action.velocity.IsZero()
  {
    hide FoldedTo, SquaredNorm, Gathered;
    if exists r <- readings :: r.Failed() {
      ZeroNorm(ZERO);
      ZeroNorm(command);
    } else if enabled {
      var data :| Gathered(readings, data) && FoldedTo(Scene(lib, data, command), zones, action);
      NeverFaster(Scene(lib, data, command), zones, action);
    }
  }

  class Node {
    var enabled: bool
    var processActive: bool
    var robotActionPrev: Action
    var stopStamp: real
    const stopPubTimeout: real

    constructor (timeout: real)
      ensures enabled && stopPubTimeout == timeout
      ensures Remembered() == StopPublication.START && robotActionPrev.polygonName == ""
    {
      enabled, processActive, stopStamp, stopPubTimeout := true, false, 0.0, timeout;
      robotActionPrev := Action(DoNothing, StopPublication.NO_VELOCITY, "");
    }

    function Remembered(): StopPublication.State
      reads this
    {
      StopPublication.State(processActive, robotActionPrev.velocity, stopStamp)
    }

    method Activate()
      modifies this`processActive
      ensures Remembered() == StopPublication.Step(stopPubTimeout, old(Remembered()), StopPublication.Activate).0
    {
      processActive := true;
    }

    method Deactivate()
      modifies this`processActive, this`robotActionPrev
      ensures Remembered() == StopPublication.Step(stopPubTimeout, old(Remembered()), StopPublication.Deactivate).0
      ensures robotActionPrev.polygonName == ""
    {
      processActive := false;
      robotActionPrev := Action(DoNothing, StopPublication.NO_VELOCITY, "");
    }

    /** Switching the zones on or off leaves what is remembered of the commands alone. */
    method Toggle(value: bool)
      modifies this`enabled
      ensures enabled == value && Remembered() == old(Remembered()) && robotActionPrev == old(robotActionPrev)
    {
      enabled := value;
    }

    /** `publishVelocity`: the velocity that goes out, if any. */
    method PublishVelocity(action: Action, now: real) returns (published: Option<Velocity>)
      modifies this`stopStamp
      ensures old(processActive) ==>
                (published, stopStamp) ==
                var command := StopPublication.Command(action.velocity, now);
                var (st, out) := StopPublication.Step(stopPubTimeout, old(Remembered()), command);
                (out, st.stopStamp)
    {
      if action.velocity.IsZero() {
        if !robotActionPrev.velocity.IsZero() {
          stopStamp := now;
        } else if now - stopStamp > stopPubTimeout {
          return None;
        }
      }
      published := Some(action.velocity);
    }

    /**
     `process`: the action of the cycle, whether its change is reported, and what is published. The zones
     are those the polygons present for this command.
     */
    method Process(lib: Library, readings: seq<Reading>, zones: seq<Zone>, command: Velocity, now: real)
        returns (action: Action, reported: bool, published: Option<Velocity>)
      requires forall z <- zones :: z.Valid()
      modifies this`robotActionPrev, this`stopStamp
      ensures processActive ==> Decides(enabled, lib, readings, zones, command, action) && robotActionPrev == action
      ensures (Remembered(), published) ==
              StopPublication.Step(stopPubTimeout, old(Remembered()), StopPublication.Command(action.velocity, now))
      ensures reported <==> processActive && enabled && action.polygonName != old(robotActionPrev.polygonName)
      ensures !processActive ==> robotActionPrev == old(robotActionPrev)
    {
      hide FoldedTo, Gathered;
      action := Action(DoNothing, command, "");
      if !processActive {
        return action, false, None;
      }
      var valid, data := GatherData(readings);
      if !valid {
        action := Action(Stop, ZERO, "invalid source");
      } else if enabled {
        action := ProcessZones(Scene(lib, data, command), zones);
      }
      reported := action.polygonName != robotActionPrev.polygonName && enabled;
      published := PublishVelocity(action, now);
      robotActionPrev := action;
    }
  }
}
