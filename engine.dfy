/**
 * The session engine of the record screen: the fold of each GPS fix into
 * the current activity (the position callback of `startTracking`), the
 * one-second display tick, and the finalization done by `stopTracking`.
 * The current activity is `Option<Session>`: `None` is the idle state
 * (`currentActivity == null`), in which fixes and ticks change nothing.
 */
module Engine {
  import opened Records
  import opened Geo

  /** Calories burned per kilometre: 60 when running, 30 otherwise. */
  function CaloriesPerKm(kind: ActivityType): (r: real)
    ensures r == 60.0 || r == 30.0
    ensures r == 60.0 <==> kind == Running
  {
    if kind == Running then 60.0 else 30.0
  }

  /** Whole seconds elapsed between two clock readings, rounded down (`Math.floor`). */
  function ElapsedSeconds(startTime: int, now: int): (r: int)
    ensures r * 1000 <= now - startTime < r * 1000 + 1000
    ensures now >= startTime ==> r >= 0
  {
    (now - startTime) / 1000
  }

  /** A missing speed (`null`, or 0) counts as 0. */
  function SpeedOf(speed: Option<real>): (r: real)
  {
    match speed
    case None => 0.0
    case Some(v) => v
  }

  /** The session `startTracking` opens at time `now`. */
  function Start(kind: ActivityType, now: int): (s: Session)
  {
    Session(kind, now, 0.0, [], 0.0, 0.0, 0.0, 0)
  }

  /** The positions of the recorded samples, in order. */
  function Positions(samples: seq<Sample>): (r: seq<Coord>)
    ensures |r| == |samples|
    ensures forall i :: 0 <= i < |samples| ==> r[i] == samples[i].position
  {
    seq(|samples|, i requires 0 <= i < |samples| => samples[i].position)
  }

  /** The largest of two numbers (`Math.max`). */
  function Max(a: real, b: real): (r: real)
    ensures r >= a && r >= b
    ensures r == a || r == b
  {
    if a >= b then a else b
  }

  /** One call of the position callback: the state after `reading` arrives at time `now`. */
  function OnSample(d: Metric, prev: Option<Session>, reading: Reading, now: int): (r: Option<Session>)
    ensures r.Some? <==> prev.Some?
    ensures prev.None? || reading.NoFix? ==> r == prev
    ensures prev.Some? && reading.Fix? ==>
      var s, v, speed := prev.value, r.value, SpeedOf(reading.speed);
      && v.coordinates == s.coordinates + [Sample(reading.position, speed, now)]
      && v.distance >= s.distance
      && v.maxSpeed >= s.maxSpeed && v.maxSpeed >= speed
      && (v.maxSpeed == s.maxSpeed || v.maxSpeed == speed)
      && v.avgSpeed == speed * 3.6
      && v.calories == v.distance / 1000.0 * CaloriesPerKm(s.kind)
      && v.duration == ElapsedSeconds(s.startTime, now)
      && v.kind == s.kind && v.startTime == s.startTime
  {
    match (prev, reading)
    case (None, _) => prev
    case (_, NoFix) => prev
    case (Some(s), Fix(position, rawSpeed)) =>
      var speed := SpeedOf(rawSpeed);
      var coordinates := s.coordinates + [Sample(position, speed, now)];
      var distance :=
        if |coordinates| > 1 then s.distance + d(s.coordinates[|s.coordinates| - 1].position, position)
        else s.distance;
      Some(s.(coordinates := coordinates,
              distance := distance,
              maxSpeed := Max(s.maxSpeed, speed),
              avgSpeed := speed * 3.6,
              calories := distance / 1000.0 * CaloriesPerKm(s.kind),
              duration := ElapsedSeconds(s.startTime, now)))
  }

  /** One run of the one-second interval: only the duration is refreshed from the clock. */
  function Tick(prev: Option<Session>, now: int): (r: Option<Session>)
    ensures r.Some? <==> prev.Some?
    ensures prev.Some? ==>
      && r.value.duration == ElapsedSeconds(prev.value.startTime, now)
      && r.value.(duration := 0) == prev.value.(duration := 0)
  {
    match prev
    case None => None
    case Some(s) => Some(s.(duration := ElapsedSeconds(s.startTime, now)))
  }

  /**
   * What a session promises at every point while recording: its distance is
   * the length of the track through its samples, its calories follow from
   * that distance, and its maximum speed bounds every sample's speed.
   */
  ghost predicate Tracked(d: Metric, s: Session)
  {
    && s.distance == PathLength(d, Positions(s.coordinates))
    && s.calories == s.distance / 1000.0 * CaloriesPerKm(s.kind)
    && s.maxSpeed >= 0.0
    && forall i :: 0 <= i < |s.coordinates| ==> s.coordinates[i].speed <= s.maxSpeed
  }

  lemma StartIsTracked(d: Metric, kind: ActivityType, now: int)
    ensures Tracked(d, Start(kind, now))
    ensures Start(kind, now).coordinates == [] && Start(kind, now).kind == kind
  {
  }

  /** Folding a fix into a tracked session keeps it tracked. */
  lemma {:induction false} OnSampleKeepsTracked(d: Metric, s: Session, reading: Reading, now: int)
    requires Tracked(d, s)
    ensures Tracked(d, OnSample(d, Some(s), reading, now).value)
  {
    if reading.Fix? {
      var v := OnSample(d, Some(s), reading, now).value;
      assert Positions(v.coordinates) == Positions(s.coordinates) + [reading.position];
      PathLengthSnoc(d, Positions(s.coordinates), reading.position);
    }
  }

  /** A tick never disturbs the fold: a fix that follows it gives the same state as without the tick. */
  lemma TickThenFix(d: Metric, prev: Option<Session>, position: Coord, speed: Option<real>, tickAt: int, now: int)
    ensures OnSample(d, Tick(prev, tickAt), Fix(position, speed), now) == OnSample(d, prev, Fix(position, speed), now)
  {
    if prev.Some? {
      var s, t := prev.value, Tick(prev, tickAt).value;
      assert t.coordinates == s.coordinates && t.distance == s.distance && t.maxSpeed == s.maxSpeed;
      assert t.kind == s.kind && t.startTime == s.startTime;
    }
  }

  /** The events that reach a session: a reading from the location watcher, or the interval firing. */
  datatype Event = Sampled(reading: Reading, at: int) | Ticked(at: int)

  function Step(d: Metric, prev: Option<Session>, e: Event): (r: Option<Session>)
  {
    match e
    case Sampled(reading, at) => OnSample(d, prev, reading, at)
    case Ticked(at) => Tick(prev, at)
  }

  /** The state after a series of events, oldest first. */
  function Replay(d: Metric, prev: Option<Session>, events: seq<Event>): (r: Option<Session>)
    ensures r.Some? <==> prev.Some?
    decreases |events|
  {
    if events == [] then prev
    else Step(d, Replay(d, prev, events[..|events| - 1]), events[|events| - 1])
  }

  /** The positions of the fixes among a series of events, in order. */
  function FixPositions(events: seq<Event>): (r: seq<Coord>)
    decreases |events|
  {
    if events == [] then []
    else
      var e := events[|events| - 1];
      FixPositions(events[..|events| - 1]) + (if e.Sampled? && e.reading.Fix? then [e.reading.position] else [])
  }

  /** One event keeps a tracked session tracked and extends its track by the position of a fix, if it is one. */
  lemma {:induction false} StepKeepsTracked(d: Metric, s: Session, e: Event)
    requires Tracked(d, s)
    ensures var v := Step(d, Some(s), e).value;
      && Tracked(d, v)
      && Positions(v.coordinates) == Positions(s.coordinates) + (if e.Sampled? && e.reading.Fix? then [e.reading.position] else [])
      && v.kind == s.kind && v.startTime == s.startTime
  {
    match e
    case Sampled(reading, at) =>
      OnSampleKeepsTracked(d, s, reading, at);
      if reading.Fix? {
        assert Positions(OnSample(d, Some(s), reading, at).value.coordinates) == Positions(s.coordinates) + [reading.position];
      } else {
        assert Positions(s.coordinates) + [] == Positions(s.coordinates);
      }
    case Ticked(at) =>
      assert Positions(s.coordinates) + [] == Positions(s.coordinates);
  }

  /**
   * Recording from a fresh session: the track holds exactly the fixes
   * received, in order, and the distance is the sum of the legs between
   * consecutive fixes, whatever ticks and failed readings came in between.
   */
  lemma {:induction false} ReplayFromStart(d: Metric, kind: ActivityType, t0: int, events: seq<Event>)
    ensures var s := Replay(d, Some(Start(kind, t0)), events).value;
      && Tracked(d, s)
      && Positions(s.coordinates) == FixPositions(events)
      && s.distance == PathLength(d, FixPositions(events))
      && s.kind == kind && s.startTime == t0
    decreases |events|
  {
    if events == [] {
      StartIsTracked(d, kind, t0);
    } else {
      var init := events[..|events| - 1];
      ReplayFromStart(d, kind, t0, init);
      StepKeepsTracked(d, Replay(d, Some(Start(kind, t0)), init).value, events[|events| - 1]);
    }
  }

  /** The distance of a session never decreases as events arrive. */
  lemma {:induction false} ReplayDistanceGrows(d: Metric, prev: Session, events: seq<Event>, k: nat)
    requires k <= |events|
    ensures Replay(d, Some(prev), events[..k]).value.distance <= Replay(d, Some(prev), events).value.distance
    decreases |events| - k
  {
    if k < |events| {
      ReplayDistanceGrows(d, prev, events, k + 1);
      assert events[..k + 1][..k] == events[..k];
    } else {
      assert events[..k] == events;
    }
  }

  /** The maximum speed of a session never decreases and bounds every speed received. */
  lemma {:induction false} ReplayMaxSpeed(d: Metric, prev: Session, events: seq<Event>, i: nat)
    requires i < |events| && events[i].Sampled? && events[i].reading.Fix?
    ensures SpeedOf(events[i].reading.speed) <= Replay(d, Some(prev), events).value.maxSpeed
    ensures prev.maxSpeed <= Replay(d, Some(prev), events).value.maxSpeed
    decreases |events|
  {
    var init := events[..|events| - 1];
    if i < |events| - 1 {
      ReplayMaxSpeed(d, prev, init, i);
    } else if init != [] {
      ReplayMaxSpeedBase(d, prev, init);
    }
  }

  lemma {:induction false} ReplayMaxSpeedBase(d: Metric, prev: Session, events: seq<Event>)
    ensures prev.maxSpeed <= Replay(d, Some(prev), events).value.maxSpeed
    decreases |events|
  {
    if events != [] {
      ReplayMaxSpeedBase(d, prev, events[..|events| - 1]);
    }
  }

  /** The ten-metre noise floor: a session of at most this many metres is not saved. */
  const MinDistance: real := 10.0

  /** `stopTracking`'s finalization: the stored activity, or nothing when the session is too short. */
  function Finalize(s: Session, id: int, now: int): (r: Option<Activity>)
    ensures r.Some? <==> s.distance > MinDistance
    ensures r.Some? ==>
      var a := r.value;
      && a.id == id && a.endTime == now
      && a.kind == s.kind && a.startTime == s.startTime && a.duration == s.duration
      && a.maxSpeed == s.maxSpeed && a.avgSpeed == s.avgSpeed && a.calories == s.calories
      && a.distance * 1000.0 == s.distance
      && (s.duration > 0 ==> a.avgPace * (s.duration as real / 3600.0) == a.distance)
      && (s.duration <= 0 ==> a.avgPace == 0.0)
      && a.coordinates == Positions(s.coordinates)
  {
    if s.distance > MinDistance then
      var km := s.distance / 1000.0;
      Some(Activity(
        id := id,
        kind := s.kind,
        startTime := s.startTime,
        endTime := now,
        distance := km,
        coordinates := Positions(s.coordinates),
        maxSpeed := s.maxSpeed,
        avgSpeed := s.avgSpeed,
        calories := s.calories,
        duration := s.duration,
        avgPace := if s.duration > 0 then km / (s.duration as real / 3600.0) else 0.0))
    else None
  }

  /** A stored activity of a tracked session burns the per-kilometre calories of its kind, and its distance is positive. */
  lemma FinalizeTracked(d: Metric, s: Session, id: int, now: int)
    requires Tracked(d, s) && Finalize(s, id, now).Some?
    ensures var a := Finalize(s, id, now).value;
      a.calories == a.distance * CaloriesPerKm(a.kind) && a.distance > 0.01 && a.maxSpeed >= 0.0
  {
  }
}
