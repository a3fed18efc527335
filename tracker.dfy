/**
 * The mutable state of the StravaMinAPK component that the engine uses:
 * the history (`activities`), whether a session is recording
 * (`isTracking`), the session itself (`currentActivity`), the selected
 * activity type and the summary recomputed whenever the history changes.
 * The great-circle distance function is a parameter of the engine.
 */
module Tracker {
  import opened Records
  import opened Geo
  import Engine
  import History
  import Stats

  /** What `stopTracking` does with the session. */
  datatype StopOutcome =
    | NotRecording            // no current activity: nothing to stop
    | Discarded               // at most ten metres: nothing is saved
    | Saved(activity: Activity)

  /**
   * As written, the type buttons call `setActivityType(choice)` and then
   * `startTracking()`, which reads `activityType` from the same render, so
   * the session gets the type selected before the click.
   */
  function ClickedSessionAsWritten(selected: ActivityType, clicked: ActivityType, now: int): Session
  {
    Engine.Start(selected, now)
  }

  /** As written, choosing the other type records the previous one (a walk is counted at 60 kcal/km). */
  lemma StaleTypeRecorded(selected: ActivityType, clicked: ActivityType, now: int)
    requires selected != clicked
    ensures ClickedSessionAsWritten(selected, clicked, now).kind != clicked
    ensures clicked == Walking ==> Engine.CaloriesPerKm(ClickedSessionAsWritten(selected, clicked, now).kind) == 60.0
  {
  }

  /** As intended: the session has the type of the button pressed, whatever was selected before. */
  function ClickedSession(selected: ActivityType, clicked: ActivityType, now: int): (s: Session)
    ensures s.kind == clicked && s.startTime == now
    ensures s.coordinates == [] && s.distance == 0.0 && s.calories == 0.0 && s.maxSpeed == 0.0
  {
    Engine.Start(clicked, now)
  }

  class Tracker {
    const distance: Metric
    var activities: seq<Activity>
    var isTracking: bool
    var current: Option<Session>
    var activityType: ActivityType
    var stats: Stats.Summary

    /** Recording exactly when there is a session, that session is consistent, and the summary matches the history. */
    ghost predicate Valid()
      reads this
    {
      && (isTracking <==> current.Some?)
      && (current.Some? ==> Engine.Tracked(distance, current.value))
      && stats == Stats.CalculateStats(activities)
    }

    /** The component as mounted, with the history found in storage, if any. */
    constructor (distance: Metric, saved: Option<seq<Activity>>)
      ensures Valid() && this.distance == distance
      ensures activities == (if saved.Some? then saved.value else [])
      ensures !isTracking && current == None && activityType == Running
    {
      this.distance := distance;
      activities := if saved.Some? then saved.value else [];
      isTracking := false;
      current := None;
      activityType := Running;
      stats := Stats.CalculateStats(if saved.Some? then saved.value else []);
    }

    /** A type button: select `choice` and open a fresh session of that type at `now`. */
    method StartTracking(choice: ActivityType, now: int)
      requires Valid()
      modifies this`activityType, this`isTracking, this`current
      ensures Valid()
      ensures activityType == choice && isTracking
      ensures current == Some(ClickedSession(old(activityType), choice, now))
    {
      var session := ClickedSession(activityType, choice, now);
      Engine.StartIsTracked(distance, choice, now);
      activityType := choice;
      isTracking := true;
      current := Some(session);
    }

    /** The position callback: fold `reading`, arrived at `now`, into the current session, if any. */
    method OnPosition(reading: Reading, now: int)
      requires Valid()
      modifies this`current
      ensures Valid()
      ensures current == Engine.OnSample(distance, old(current), reading, now)
      ensures old(current).Some? && reading.Fix? ==> |current.value.coordinates| == |old(current).value.coordinates| + 1
      ensures old(current).Some? ==> current.value.distance >= old(current).value.distance
    {
      if current.Some? {
        Engine.OnSampleKeepsTracked(distance, current.value, reading, now);
      }
      current := Engine.OnSample(distance, current, reading, now);
    }

    /** The one-second interval: refresh the duration of the current session, if any. */
    method OnTick(now: int)
      requires Valid()
      modifies this`current
      ensures Valid()
      ensures current == Engine.Tick(old(current), now)
      ensures current.Some? ==>
        && current.value.distance == old(current).value.distance
        && current.value.calories == old(current).value.calories
        && current.value.coordinates == old(current).value.coordinates
    {
      current := Engine.Tick(current, now);
    }

    /** The stop button: finalize the session, saving it under `id` when it is longer than ten metres. */
    method StopTracking(id: int, now: int) returns (outcome: StopOutcome)
      requires Valid()
      modifies this`isTracking, this`current, this`activities, this`stats
      ensures Valid()
      ensures old(current).None? ==> outcome == NotRecording && activities == old(activities) && !isTracking && current == None
      ensures old(current).Some? ==> !isTracking && current == None
      ensures old(current).Some? ==>
        outcome == (match Engine.Finalize(old(current).value, id, now)
                    case Some(a) => Saved(a)
                    case None => Discarded)
      ensures outcome.Saved? <==> old(current).Some? && old(current).value.distance > Engine.MinDistance
      ensures activities == old(activities) + (if outcome.Saved? then [outcome.activity] else [])
      ensures old(activities) <= activities
    {
      if current.None? {
        return NotRecording;
      }
      var s := current.value;
      isTracking := false;
      match Engine.Finalize(s, id, now) {
        case Some(a) =>
          activities := activities + [a];
          stats := Stats.CalculateStats(activities);
          outcome := Saved(a);
        case None =>
          outcome := Discarded;
      }
      current := None;
    }

    /** The delete button: drop every stored activity whose id is `id`. */
    method DeleteActivity(id: int)
      requires Valid()
      modifies this`activities, this`stats
      ensures Valid()
      ensures activities == History.Delete(old(activities), id)
    {
      activities := History.Delete(activities, id);
      stats := Stats.CalculateStats(activities);
    }
  }
}
