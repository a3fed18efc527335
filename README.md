# StravaMinAPK activity-tracking engine in Dafny

This project models the activity-tracking engine of the `StravaMinAPK` React
component (`src/App.jsx`). The component records a run or a walk from GPS
fixes and stores finished activities in a history. It also shows summary
statistics and formats durations.

- `Records` (records.dfy): the live session (`currentActivity`), the stored activity and a GPS reading.
- `Geo` (geo.dfy): the great-circle distance is kept abstract, as a `Metric`. A `Metric` is any function from two positions to a non-negative number of metres. `PathLength` sums the distances between consecutive points of a track.
- `Engine` (engine.dfy): the per-fix fold of the position callback, the one-second tick and the finalization done by `stopTracking`. These are pure record-to-record functions over `Option<Session>`. `None` is the idle state. The module also holds lemmas about any series of fixes and ticks.
- `History` (history.dfy): `deleteActivity`, a filter by id.
- `Stats` (stats.dfy): `calculateStats`, whose totals and mean are folds over the history.
- `TimeFormat` (time_format.dfy): `formatTime`, with JavaScript's truncating `%` written out. The partner is a parser that reads the text back.
- `Tracker` (tracker.dfy): the component's mutable state as a class. It has `activities`, `isTracking`, `currentActivity`, `activityType` and the recomputed `stats`. Its methods are start, position callback, tick, stop and delete, and each keeps the invariant `Valid()`.

The clock is an explicit `now` parameter in milliseconds. The new activity's id (`Date.now()` in the source) is a parameter too. Distances, speeds and calories are `real`.

Notes on what the code does:
- A stored activity keeps `maxSpeed` in m/s, copied unchanged from the session. It is not converted to km/h.
- `startTracking` has no guard against a session that is already recording: called then, it opens a new session, and the model does the same. The record screen only shows the start buttons while idle.
- `stopTracking` on an idle state throws a TypeError at src/App.jsx:169 (`currentActivity.intervalId` on `null`) before any state change. The model returns `NotRecording` and leaves the state unchanged.
- The noise floor keeps sessions of more than 10 m and discards the rest, including exactly 10 m.

## Model

| member | source | states |
|---|---|---|
| Geo.PathLength | src/App.jsx:103-114 | The distance accumulated over a track is the sum over consecutive pairs and is never negative |
| Geo.PathLengthSnoc | src/App.jsx:103-114 | Adding a point adds the leg from the previous point; the first point adds nothing |
| Geo.PathLengthPrefix | src/App.jsx:103-114 | A track is never shorter than any of its prefixes |
| Engine.CaloriesPerKm | src/App.jsx:120-121 | 60 kcal per km exactly when running, 30 otherwise |
| Engine.ElapsedSeconds | src/App.jsx:130 | The duration is the floor of the elapsed milliseconds over 1000, and non-negative when the clock has not gone back |
| Engine.Positions | src/App.jsx:184-187 | The stored track has the samples' length and order and keeps only their positions |
| Engine.Max | src/App.jsx:116 | `Math.max` is one of its arguments and at least both |
| Engine.OnSample | src/App.jsx:96-132 | Idle or no fix: state unchanged. Otherwise the track grows by exactly the new sample, with speed 0 when missing. Distance and max speed never decrease, and max speed is at least the sample's speed. `avgSpeed` is the latest speed times 3.6. Calories are recomputed from the total distance. Duration comes from the clock. Type and start time are kept |
| Engine.Tick | src/App.jsx:139-145 | Idle stays idle; otherwise only the duration changes, to the clock's elapsed seconds |
| Engine.StartIsTracked | src/App.jsx:72-81 | A fresh session satisfies the recording invariant `Tracked`: its distance is the track's length, its calories follow from the distance, and its max speed bounds every sample |
| Engine.OnSampleKeepsTracked | src/App.jsx:100-131 | Every fix keeps the recording invariant |
| Engine.TickThenFix | src/App.jsx:139-145 | A tick never disturbs the fold: a fix after a tick gives the same state as the fix alone |
| Engine.Replay | src/App.jsx:90-146 | Events never create or end a session |
| Engine.StepKeepsTracked | src/App.jsx:100-145 | A fix or tick keeps the invariant and extends the track by exactly the fix's position, if there is one |
| Engine.ReplayFromStart | src/App.jsx:70-146 | After any events from a fresh session, the track is exactly the fixes received, in order. The distance is the sum of `d` over consecutive fixes, whatever ticks and failed readings came in between |
| Engine.ReplayDistanceGrows | src/App.jsx:104-114 | The session's distance never decreases as events arrive |
| Engine.ReplayMaxSpeed | src/App.jsx:98-116 | Max speed is at least every speed received (a missing one as 0) and at least its starting value |
| Engine.ReplayMaxSpeedBase | src/App.jsx:116 | Max speed never falls below its value before the events |
| Engine.Finalize | src/App.jsx:175-188 | An activity exists exactly when distance > 10 m. It carries the given id, `now` as end time, km = metres/1000, and the session's type, start, duration, speeds and calories. Its pace times the hours gives the km when duration > 0, and is 0 otherwise. Its track is the samples' positions |
| Engine.FinalizeTracked | src/App.jsx:175-188 | A saved activity from a consistent session burns its kind's calories per km, is longer than 0.01 km and has a non-negative max speed |
| History.Delete | src/App.jsx:199-201 | The result is never longer than the history and holds no entry with the given id |
| History.DeleteCounts | src/App.jsx:200 | Exactly the entries with the given id are removed; every other entry keeps its multiplicity |
| History.DeleteConcat | src/App.jsx:200 | The kept entries stay in their original order (deleting distributes over concatenation) |
| History.DeleteAbsent | src/App.jsx:200 | Deleting an id that no entry has leaves the history unchanged |
| History.DeleteIdempotent | src/App.jsx:200 | Deleting the same id twice equals deleting it once |
| History.DeletePartition | src/App.jsx:200 | The kept and the removed entries together are the old history |
| Stats.CalculateStats | src/App.jsx:50-68 | Empty history: all zero. Otherwise count = length, total km and calories = sums, and mean pace times count = sum of paces |
| Stats.TotalConcat | src/App.jsx:56-59 | A `reduce` sum over two histories is the sum of their sums |
| Stats.TotalRemoveAt | src/App.jsx:56-59 | Taking one activity out of a history takes exactly its value out of a `reduce` sum |
| Stats.TotalPermutation | src/App.jsx:56-59 | The totals do not depend on the order of the history |
| Stats.StatsAfterAppend | src/App.jsx:50-68 | Saving an activity adds one to the count and its km and calories to the totals; the mean moves to (n·old + new)/(n+1) |
| Stats.StatsAfterDelete | src/App.jsx:50-68 | Deleting removes exactly the removed activities' count, km and calories from the summary |
| Stats.TotalBounds | src/App.jsx:56-59 | A sum of n values in [lo, hi] lies in [n·lo, n·hi] |
| Stats.AvgPaceBounds | src/App.jsx:58-60 | The mean pace lies between the smallest and largest per-activity pace |
| Stats.UnweightedMeanExample | src/App.jsx:58-60 | Paces 5 and 10 average 7.5 whatever the distances: the mean is unweighted |
| TimeFormat.JsRem | src/App.jsx:206-207 | JavaScript `%`: dividend = divisor × truncated quotient + remainder, remainder with the dividend's sign |
| TimeFormat.Split | src/App.jsx:204-207 | For s ≥ 0: h·3600 + m·60 + sec = s, with h ≥ 0 and 0 ≤ m, sec < 60. Hours are positive exactly when s ≥ 3600 |
| TimeFormat.NatToString | src/App.jsx:210-212 | Interpolated numbers are non-empty strings of decimal digits |
| TimeFormat.IntToString | src/App.jsx:210-212 | Interpolated integers consist of digits and a minus sign only |
| TimeFormat.FormatTimeShowsHours | src/App.jsx:209-212 | The text has an hours segment exactly when the duration is at least 3600 s |
| TimeFormat.ParseFormatTime | src/App.jsx:204-213 | For s ≥ 0 the formatted text reads back to exactly s |
| Tracker.StaleTypeRecorded | src/App.jsx:368-371 | As written, pressing the other type's button records the previously selected type (a walk at 60 kcal/km) |
| Tracker.ClickedSession | src/App.jsx:70-81 | The opened session has the pressed button's type, starts at `now` and is empty |
| Tracker.Tracker.constructor | src/App.jsx:38-43 | The history is the stored one, or empty when nothing is stored. Idle, with the summary of that history |
| Tracker.Tracker.StartTracking | src/App.jsx:70-81 | Records the choice, starts recording with a fresh session of that type, keeps the history and the invariant |
| Tracker.Tracker.OnPosition | src/App.jsx:90-134 | The session becomes `OnSample` of the old one; the track grows by one on a fix, distance never decreases, and only the session changes |
| Tracker.Tracker.OnTick | src/App.jsx:138-146 | The session becomes `Tick` of the old one; distance, calories and track are untouched |
| Tracker.Tracker.StopTracking | src/App.jsx:164-197 | Idle: `NotRecording` and nothing changes. Otherwise tracking ends and the session is cleared. An activity is appended exactly when the distance > 10 m, and the old history is a prefix of the new one. The summary is recomputed |
| Tracker.Tracker.DeleteActivity | src/App.jsx:199-202 | The history becomes its filter by id and the summary is recomputed |

## Left out

- The haversine body of `calculateDistance` (src/App.jsx:152-162) is floating-point trigonometry. It is an arbitrary non-negative `Metric`, so `d(a, a) == 0` and symmetry are not modelled.
- Floating point: reals replace JavaScript numbers, so rounding, `NaN` (a `NaN` speed turned into 0 by `|| 0`) and `Infinity` are not modelled.
- Device calls are foreign APIs: `Geolocation.watchPosition` and `clearWatch`, the `watchIdRef` handle, and the back-button listener with `exitApp`. The position callback is `OnPosition`; a GPS error or an empty position is the `NoFix` reading.
- `setInterval`/`clearInterval` and the timer handle are asynchronous scheduling. `startTracking` is only reachable from the idle screen, where `currentActivity` is `null`, so it ends in a TypeError at src/App.jsx:149. By then `setIsTracking`, `setCurrentActivity`, `watchPosition` and `setInterval` have run; React still applies the queued state updates, and `Tracker.Tracker.StartTracking` models only those, not the exception. The interval handle is stored nowhere, so it is never cleared. Ticks arriving after a stop are `OnTick` on an idle state, which changes nothing.
- React's asynchronous state updates: events are taken one at a time, each seeing the previous one's result.
- The `localStorage` and JSON persistence is I/O. The constructor takes the stored history as `Option<seq<Activity>>`, and saving is the assignment of `activities`.
- `toFixed` and `toLocaleDateString` formatting is library float-to-text and locale code. `Stats.CalculateStats` gives the numbers before `toFixed`.
- The id is a parameter of `StopTracking`: `Date.now()` does not guarantee uniqueness, and the model does not assume it.
- Views and navigation (`currentView`, `HomeView`, `RecordView`, `StatsView`) are presentation.

## Findings

| source | as written | input that shows it | evidently intended | confidence | as-written member | corrected member |
|---|---|---|---|---|---|---|
| src/App.jsx:357-371 | Each type button calls `setActivityType(choice)` and then `startTracking()`. `startTracking` reads `activityType` from the same render, so it still sees the earlier selection | On a fresh app (selection `running`), pressing the walking button records a run, counted at 60 kcal/km | The session has the type of the button pressed | high, not executed | Tracker.ClickedSessionAsWritten, Tracker.StaleTypeRecorded | Tracker.ClickedSession (used by Tracker.Tracker.StartTracking) |
