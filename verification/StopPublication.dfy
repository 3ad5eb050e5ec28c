/** When the monitor publishes: every moving command, and each stop for a while. */
module StopPublication {
  import opened Kinematics
  import opened Options

  /** `processActive`, the velocity of the last processed action, and when the robot was last stopped. */
  datatype State = State(active: bool, previous: Velocity, stopStamp: real)

  const NO_VELOCITY := Velocity(-1.0, -1.0, -1.0)

  /** A command carries the velocity the zones have left of it and the time it is processed at. */
  datatype Event = Activate | Deactivate | Command(velocity: Velocity, now: real)

  const START := State(false, NO_VELOCITY, 0.0)

  /** Whether a processed command is published, and the stop stamp afterwards. */
  function Publishes(timeout: real, st: State, v: Velocity, now: real): (bool, real) {
    if !v.IsZero() then (true, st.stopStamp)
    else if !st.previous.IsZero() then (true, now)
    else (!(now - st.stopStamp > timeout), st.stopStamp)
  }

  function Step(timeout: real, st: State, e: Event): (State, Option<Velocity>) {
    match e
    case Activate => (st.(active := true), None)
    case Deactivate => (st.(active := false, previous := NO_VELOCITY), None)
    case Command(v, now) =>
      if !st.active then (st, None)
      else
        var (published, stamp) := Publishes(timeout, st, v, now);
        (State(true, v, stamp), if published then Some(v) else None)
  }

  /** The state before event `i`. */
  function At(timeout: real, events: seq<Event>, i: nat): State
    requires i <= |events|
  {
    if i == 0 then START else Step(timeout, At(timeout, events, i - 1), events[i - 1]).0
  }

  /** What event `i` publishes. */
  function Published(timeout: real, events: seq<Event>, i: nat): Option<Velocity>
    requires i < |events|
  {
    Step(timeout, At(timeout, events, i), events[i]).1
  }

  // ---------------------------------------------------------------- the trace, without the machine

  predicate Active(events: seq<Event>, i: nat)
    requires i <= |events|
  {
    i > 0 && (events[i - 1].Activate? || (!events[i - 1].Deactivate? && Active(events, i - 1)))
  }

  predicate Processed(events: seq<Event>, i: nat)
    requires i < |events|
  {
    events[i].Command? && Active(events, i)
  }

  /** The last command processed before event `i`, unless the monitor was deactivated since. */
  function Last(events: seq<Event>, i: nat): (h: Option<nat>)
    requires i <= |events|
    ensures h.Some? ==> h.value < i && events[h.value].Command?
  {
    if i == 0 || events[i - 1].Deactivate? then None
    else if Processed(events, i - 1) then Some(i - 1)
    else Last(events, i - 1)
  }

  /** The first of the stretch of stop commands that command `i` belongs to. */
  function StretchStart(events: seq<Event>, i: nat): (j: nat)
    requires i < |events| && events[i].Command?
    ensures j <= i && events[j].Command?
  {
    var h := Last(events, i);
    if h.Some? && events[h.value].velocity.IsZero() then StretchStart(events, h.value) else i
  }

  /** The machine remembers exactly what the trace says. */
  lemma {:induction false} Remembers(timeout: real, events: seq<Event>, i: nat)
    requires i <= |events|
    ensures var st, h := At(timeout, events, i), Last(events, i);
            && st.active == Active(events, i)
            && (h.None? ==> !st.previous.IsZero())
            && (h.Some? ==> st.previous == events[h.value].velocity)
            && (h.Some? && st.previous.IsZero() ==> st.stopStamp == events[StretchStart(events, h.value)].now)
  {
    if i > 0 {
      Remembers(timeout, events, i - 1);
    }
  }

  /**
   Every run: a processed command is published iff it moves, or begins a stretch of stops, or comes no
   later than the timeout after the stretch began; what is published is the command itself.
   */
  lemma PublicationTrace(timeout: real, events: seq<Event>, i: nat)
    requires i < |events|
    ensures !Processed(events, i) ==> Published(timeout, events, i) == None
    ensures Processed(events, i) ==>
              var e, j := events[i], StretchStart(events, i);
              && (Published(timeout, events, i) == Some(e.velocity) || Published(timeout, events, i) == None)
              && (Published(timeout, events, i).Some? <==>
                  !e.velocity.IsZero() || j == i || e.now - events[j].now <= timeout)
  {
    Remembers(timeout, events, i);
  }

  /** A stretch holds stop commands only, and what comes before it is none. */
  lemma {:induction false} StretchIsStops(events: seq<Event>, i: nat, m: nat)
    requires i < |events| && Processed(events, i) && events[i].velocity.IsZero()
    requires StretchStart(events, i) <= m <= i && Processed(events, m)
    ensures events[m].velocity.IsZero()
    ensures var h := Last(events, StretchStart(events, i)); h.None? || !events[h.value].velocity.IsZero()
    decreases i
  {
    var h := Last(events, i);
    if h.Some? && events[h.value].velocity.IsZero() {
      LastProcessed(events, i);
      StretchIsStops(events, h.value, if m <= h.value then m else h.value);
      if m < i {
        LastIsLatest(events, i, m);
      }
    }
  }

  lemma {:induction false} LastProcessed(events: seq<Event>, i: nat)
    requires i <= |events|
    ensures Last(events, i).Some? ==> Processed(events, Last(events, i).value)
  {
    if i > 0 && !events[i - 1].Deactivate? && !Processed(events, i - 1) {
      LastProcessed(events, i - 1);
    }
  }

  lemma {:induction false} LastIsLatest(events: seq<Event>, i: nat, m: nat)
    requires m < i <= |events| && Processed(events, m) && Last(events, i).Some?
    ensures m <= Last(events, i).value
  {
    if !Processed(events, i - 1) {
      LastIsLatest(events, i - 1, m);
    }
  }
}
