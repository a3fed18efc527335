/**
 * The records the activity-tracking engine of StravaMinAPK works on:
 * the live session that GPS fixes are folded into, and the finalized
 * activity that is appended to the history.
 *
 * Distances are metres in a session and kilometres in a stored activity;
 * speeds are metres per second except `avgSpeed`, which is km/h; times are
 * milliseconds since the epoch; durations are whole seconds.
 */
module Records {

  datatype Option<T> = None | Some(value: T)

  /** The activity kinds the record screen offers ('running' and 'walking'). */
  datatype ActivityType = Running | Walking

  /** A position in degrees. */
  datatype Coord = Coord(lat: real, lng: real)

  /** What the location watcher delivers: a fix whose speed may be absent, or nothing usable (an error or no position). */
  datatype Reading = Fix(position: Coord, speed: Option<real>) | NoFix

  /** A fix as the session keeps it: position, speed in m/s (0 when the fix had none), arrival time. */
  datatype Sample = Sample(position: Coord, speed: real, timestamp: int)

  /** The in-progress activity (the component's `currentActivity`). */
  datatype Session = Session(
    kind: ActivityType,
    startTime: int,
    distance: real,          // metres
    coordinates: seq<Sample>,
    maxSpeed: real,          // m/s
    avgSpeed: real,          // km/h of the latest fix
    calories: real,
    duration: int)           // seconds

  /** A finalized activity as stored in the history. */
  datatype Activity = Activity(
    id: int,
    kind: ActivityType,
    startTime: int,
    endTime: int,
    distance: real,          // kilometres
    coordinates: seq<Coord>,
    maxSpeed: real,          // m/s, copied from the session
    avgSpeed: real,          // km/h, copied from the session
    calories: real,
    duration: int,           // seconds
    avgPace: real)           // km/h over the whole activity
}
