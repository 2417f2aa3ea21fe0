# Trail Tracker: a Dafny model of the recording core

Trail Tracker is a browser application that records GPS trails. Pressing
Start asks for a location fix, seeds the in-progress path with it and opens
a location watch; every sample the watch delivers is appended to the path
and the whole path is saved to local storage, so that a reload can pick the
recording up again. Pressing Stop closes the watch and, when the path has at
least two points, turns it into a `Trail` (id, name, start and end time,
points, distance) appended to the saved trail list. Past trails can be
selected for playback, where a slider moves a marker along the path, or
deleted.

This project models that core in Dafny:

- `types.dfy` (module `Types`): `GeoPoint` and `Trail` from
  `src/types/index.ts`, and an `Option` for the nullable state.
- `trail_storage.dfy` (module `TrailStorage`): the local-storage slots of
  `src/lib/trail-storage.ts` as a `LocalStore` object (trail list,
  in-progress path, the `isTracking` flag that the page writes directly),
  and `calculateDistance` as a loop proved equal to a left-to-right sum of
  segment lengths over adjacent points.
- `trail_tracker.dfy` (module `TrailTracker`): the page's state as the
  fields of a `TrailRecorder` object and each handler of `src/app/page.tsx`
  as a method: start, the watch's sample and error callbacks, stop, the
  silent resume and the mount effect that triggers it, select, delete and
  the playback slider; plus the slider's index computation and the delete
  filter as functions.
- `formatting.dfy` (module `Formatting`): the duration and distance display
  helpers. `formatDuration(ms)` and `formatTrailDistance` in `page.tsx` and
  `formatDuration(startTime, endTime)` and `formatDistance` in
  `src/components/history-modal.tsx` carry the same arithmetic; the
  distance helper is one function here, `FormatDistance`, which models both
  copies (`page.tsx:255-259` and `history-modal.tsx:41-45`).
- `numbers.dfy` (module `Numbers`): JavaScript's `Math.trunc`, truncating
  `%` and the decimal rendering of an integer in a template string.
- `scenarios.dfy` (module `Scenarios`): client code driving the recorder
  through sequences of events using only the handlers' contracts.

External inputs are parameters: the outcome of `getCurrentPosition` is an
`Option<GeoPoint>` (`None` for a denied or failed request, or for a
resume fix that has not arrived yet), whether
`navigator.geolocation` exists is a `bool`, the handle `watchPosition`
returns is a `nat`, `Date.now()` at a stop is an `int`, and the `date-fns`
rendering of the start time is a `string`. The haversine segment length is
a function value (`Segment`) fixed when the recorder is built; nothing is
assumed about it, so every distance result holds for any segment function.
The slider value is an integer count of tenths of a percent (0 to 1000),
matching its 0.1 step.

Behaviour of the code that the model keeps as written:

- Start writes the durable flag `"1"` before the permission outcome is
  known, so a denied Start leaves the flag set and the path empty.
- A watch error only switches `isTracking` off: no trail is saved, the
  watch stays open, the path is kept and the durable flag is untouched. Starting again then
  overwrites the watch handle, and the first watch is never cleared; after
  Stop it keeps appending samples (`Scenarios.OrphanedWatchOutlivesStop`).
- The silent resume replaces the restored path with the fresh fix, and its
  watch appends samples without saving them.
- After a reload with the flag set, `isTracking` is on before the resume fix
  arrives, so Stop can run first: the restored points are saved as a trail
  and the flag becomes "0"; the late fix then switches tracking back on in
  memory under a watch that saves nothing, so the next reload does not
  resume (`Scenarios.StopBeforeResumeFix`).
- Trail ids are `trail_<Date.now()>`: two trails stopped in the same
  millisecond get the same id (`TrailTracker.TrailIdInjective`), and delete
  removes every trail with that id.

## Model

| member | source | states |
|---|---|---|
| `TrailStorage.LoadOrEmpty` | src/lib/trail-storage.ts:10-16 | a guarded read returns the stored value, and `[]` for a missing key or unparsable text |
| `TrailStorage.LocalStore.constructor` | src/lib/trail-storage.ts:3-4 | the storage holds the given trail list, in-progress path and flag when the page loads |
| `TrailStorage.LocalStore.GetStoredTrails` | src/lib/trail-storage.ts:6-17 | returns the saved trails, `[]` when nothing is stored or the text does not parse |
| `TrailStorage.LocalStore.SaveStoredTrails` | src/lib/trail-storage.ts:19-28 | after a successful save the trail slot reads back as exactly the saved list; a failed write leaves it unchanged; the other slots are untouched |
| `TrailStorage.LocalStore.GetStoredCurrentPath` | src/lib/trail-storage.ts:61-70 | returns the saved in-progress path, `[]` when absent or unparsable |
| `TrailStorage.LocalStore.SaveStoredCurrentPath` | src/lib/trail-storage.ts:72-79 | after a successful save the path slot reads back as the saved path; a failed write leaves it unchanged |
| `TrailStorage.LocalStore.ClearStoredCurrentPath` | src/lib/trail-storage.ts:81-88 | the path slot is removed and reads back as `[]`; the other slots are untouched |
| `TrailStorage.LocalStore.TrackingFlagSet` | src/app/page.tsx:55 | the page counts as tracking only when the flag holds exactly "1"; a missing flag or the "0" that Stop writes reads as not tracking |
| `TrailStorage.LocalStore.SetTrackingFlag` | src/app/page.tsx:93 | the flag holds the written value; it reads as "tracking" exactly when the value is "1" |
| `TrailStorage.PathDistance` | src/lib/trail-storage.ts:31-33 | a path of fewer than two points has distance 0 |
| `TrailStorage.CalculateDistance` | src/lib/trail-storage.ts:31-59 | the loop's total equals the in-order sum of the segment lengths of all adjacent pairs |
| `TrailStorage.DistanceExtend` | src/lib/trail-storage.ts:38-57 | appending a point to a non-empty path adds exactly one term, the segment from the old last point to the new one |
| `TrailStorage.DistanceConcat` | src/lib/trail-storage.ts:38-57 | the distance of a concatenation is the two parts' distances plus the joining segment |
| `TrailStorage.DistanceIgnoresTimestamps` | src/lib/trail-storage.ts:31-45 | paths with the same positions have the same distance whatever their timestamps |
| `Numbers.JsRem` | src/app/page.tsx:249-250 | for a positive divisor the remainder lies in [0, divisor) for a non-negative dividend and in (-divisor, 0] for a negative one: it takes the dividend's sign |
| `Numbers.JsRemQuotient` | src/app/page.tsx:249-250 | the dividend is the divisor times the truncated quotient plus `JsRem`, so with the bounds above `JsRem` is the remainder |
| `Numbers.DigitString` | src/app/page.tsx:194 | the decimal rendering of a natural is non-empty, all digits, and starts with '0' only for zero |
| `Numbers.DecimalRoundTrip` | src/app/page.tsx:194 | reading the rendered digits back gives the number |
| `Numbers.DigitStringInjective` | src/app/page.tsx:194 | distinct naturals render to distinct digit strings |
| `Numbers.NumberString` | src/app/page.tsx:252 | an integer renders as digits with a leading minus exactly for negatives |
| `Numbers.NumberStringInjective` | src/app/page.tsx:194 | distinct integers render to distinct strings |
| `TrailTracker.TrailId` | src/app/page.tsx:194 | the id is `trail_` followed by the decimal rendering of the stop time, with a minus sign exactly for a negative time |
| `TrailTracker.TrailIdInjective` | src/app/page.tsx:194 | two stops give the same trail id exactly when they happen in the same millisecond |
| `Formatting.DurationParts` | src/app/page.tsx:249-251 | for a non-negative duration the JavaScript floor/remainder computation gives hours, minutes and seconds with minutes and seconds in 0..59 and hours·3600 + minutes·60 + seconds = whole seconds; for a negative one hours are negative and minutes and seconds lie in -60..0 |
| `Formatting.DurationText` | src/app/page.tsx:252 | the text contains an hours part exactly when hours is positive, always a minutes part, and ends with the seconds unit |
| `Formatting.DurationTextInjective` | src/app/page.tsx:252 | the text shows the numbers: equal texts have equal minutes and seconds, and equal hours whenever either shows an hours part |
| `Formatting.MinutesSecondsInjective` | src/app/page.tsx:252 | minutes and seconds are read back unambiguously from the `Xm Ys` part |
| `Formatting.FormatDuration` | src/app/page.tsx:248-253 | hours appear exactly from one hour on; for a non-negative duration the text shows its Euclidean hours/minutes/seconds decomposition |
| `Formatting.FormatTrailDuration` | src/components/history-modal.tsx:33-39 | the same rendering applied to `endTime - startTime`: hours appear exactly when the trail lasted an hour or more |
| `Formatting.FormatDistance` | src/components/history-modal.tsx:41-45 | "N/A" exactly for a missing distance, metres exactly below 1000, otherwise kilometres at one thousandth of the distance |
| `TrailTracker.PlaybackIndex` | src/app/page.tsx:241 | for a slider value in [0, 100] the marker index is the floor of progress/100·(length-1), lies in the path, is the first point at 0 and the last at 100 |
| `TrailTracker.PlaybackIndexMonotone` | src/app/page.tsx:241 | moving the slider forward never moves the marker backward |
| `TrailTracker.RemoveTrail` | src/app/page.tsx:227 | a trail is kept exactly when it was in the list and its id differs from the deleted id |
| `TrailTracker.RemoveTrailConcat` | src/app/page.tsx:227 | deleting from a concatenation deletes from each part and keeps their order |
| `TrailTracker.RemoveTrailCount` | src/app/page.tsx:227 | every trail with another id keeps its multiplicity; those with the deleted id are all gone |
| `TrailTracker.RemoveTrailAbsent` | src/app/page.tsx:227 | deleting an id no trail carries changes nothing |
| `TrailTracker.RemoveTrailIdempotent` | src/app/page.tsx:227 | deleting the same id twice equals deleting it once |
| `TrailTracker.TrailRecorder.constructor` | src/app/page.tsx:37-45 | the initial state: not tracking, empty path, no position, no trails, no selection, progress 0, no watch |
| `TrailTracker.TrailRecorder.Initialize` | src/app/page.tsx:51-68 | loads the saved trails; `isTracking` equals the durable flag; the watch handle is one no open subscription has; with the flag set, a successful resume fix replaces the restored path by that fix, otherwise a non-empty restored path is shown with its last point as position |
| `TrailTracker.TrailRecorder.ResumeTrackingSilently` | src/app/page.tsx:143-179 | on a fix the path becomes `[fix]`, tracking is on and a non-saving watch is opened; on failure or without geolocation nothing changes |
| `TrailTracker.TrailRecorder.StartTracking` | src/app/page.tsx:88-141 | without geolocation nothing changes; otherwise the flag is "1", selection and marker are cleared and, on a fix, path = `[fix]`, position = fix, tracking on with a saving watch; on denial the path is empty and tracking is as before |
| `TrailTracker.TrailRecorder.OnSample` | src/app/page.tsx:113-125 | appends exactly the new point at the end of the path, sets it as the position, and the saving watch writes the whole updated path to storage |
| `TrailTracker.TrailRecorder.OnWatchError` | src/app/page.tsx:129-133 | only `isTracking` becomes false; the watch, the path and the flag are untouched |
| `TrailTracker.TrailRecorder.StopTracking` | src/app/page.tsx:181-211 | clears the watch, tracking, flag ("0"), path, position and stored path; appends exactly one trail iff the path had more than one point, with start/end the first/last timestamps, the path itself and its computed distance; otherwise the trail list is unchanged |
| `TrailTracker.TrailRecorder.SaveFinishedTrail` | src/app/page.tsx:189-202 | the finished trail (id from the stop time, name from the rendered start, first/last timestamps, the path, its computed distance) is appended after the existing trails and the list is saved; nothing else changes |
| `TrailTracker.TrailRecorder.SelectTrail` | src/app/page.tsx:213-224 | when tracking, performs Stop first; then the trail is selected, progress is 0 and the marker is its first point |
| `TrailTracker.TrailRecorder.DeleteTrail` | src/app/page.tsx:226-235 | the trail list becomes the filtered list and is saved; selection and marker are cleared only when the selected trail had the deleted id |
| `TrailTracker.TrailRecorder.ScrubPlayback` | src/app/page.tsx:237-246 | no change without a selected trail; otherwise progress is the slider value and the marker is the path point at the playback index |

## Left out

- The haversine term (`src/lib/trail-storage.ts:35-56`): the segment length is a parameter, so nothing about it (non-negativity, the Earth radius, metre accuracy) is claimed.
- TrailStorage.PathDistance: does not state that a distance is non-negative or that a repeated point adds nothing, because both depend on the haversine term, which is not modelled.
- Floating point: distances are exact reals summed left to right; rounding in the sum, in the slider's `progress / 100 * (length - 1)` and in the duration arithmetic is not modelled.
- `toFixed` and the string forms of distances: `FormatDistance` returns which unit is shown and the number before rendering.
- `navigator.geolocation` itself, the watch options, `Date.now()` and `date-fns` `format`: their results are method parameters. The time between Start's synchronous part and the arrival of the first fix is not modelled; Start is one step. A resume fix that arrives late is modelled as `Initialize` with no fix followed by a separate `ResumeTrackingSilently` call.
- JSON serialization: a slot holds a value, nothing, or text that fails to parse; `JSON.parse` of text that parses to the wrong shape is not modelled.
- A storage that refuses access altogether and the server-side `typeof window === 'undefined'` guards: the model's storage only fails on writes (`writable`), which the guarded saves catch. The flag writes at `src/app/page.tsx:93` and `:187` have no guard; they are modelled as always succeeding, so a handler aborted by a throwing flag write is not represented.
- TrailStorage.LocalStore: one constant `writable` decides every guarded write, so a quota failure that depends on the size of what is written (a large trail list refused while a small path is still accepted) is not represented.
- Numbers.NumberString: renders integers below 10^21 in magnitude; JavaScript's exponent form from 10^21 on is not modelled, and millisecond timestamps and duration components never reach it.
- TrailTracker.TrailRecorder.SelectTrail: requires a trail with at least one point. For an empty path `src/app/page.tsx:218` throws on `trail.path[0]` after Stop (:215) and `setSelectedTrail` (:217) have already run, so the page is left with the empty trail selected, the previous marker and progress, and a stopped recording; that outcome is not modelled. The recorder's invariant carries the non-empty path for the selected trail, which `ScrubPlayback` relies on.
- React rendering, state batching and stale closures: each handler sees the latest state and its updates apply at once.
- Toasts, `console` output, the map centre and zoom (`setMapCenter`, `setMapZoom`, the mount effect's centring fix at `src/app/page.tsx:70-85`) and the history dialog's visibility: view state only.
- `src/components/map-display.tsx` (map rendering) and `next.config.ts` (build configuration) are not part of this model.
