/** The trail page: the recording state machine behind the Start/Stop
    buttons, the location watch callbacks, recovery after a reload, the
    history actions (select, delete) and the playback slider.

    The React state variables and the watch-id ref become the fields of
    one `TrailRecorder` object; each handler becomes a method. Geolocation
    results, `Date.now()` and the `date-fns` rendering of the start time are
    passed in as parameters. */
module TrailTracker {
  import opened Types
  import opened Numbers
  import opened TrailStorage

  /** A location subscription opened with `watchPosition`. `mirrorsPath`
      tells which callback it runs: the one installed by Start saves the
      whole path after every sample, the one installed by the silent resume
      does not. */
  datatype Watch = Watch(id: nat, mirrorsPath: bool)

  /** `Math.floor((progress / 100) * (length - 1))` for a slider value of
      `tenths / 10` percent (the slider runs from 0 to 100 in steps of 0.1):
      the largest index whose share of the path does not exceed the progress. */
  function PlaybackIndex(tenths: int, pathLength: int): (index: int)
    requires 0 <= tenths <= 1000 && pathLength >= 1
    ensures 0 <= index < pathLength
    ensures index * 1000 <= tenths * (pathLength - 1) < (index + 1) * 1000
    ensures tenths == 0 ==> index == 0
    ensures tenths == 1000 ==> index == pathLength - 1
  {
    MulMono(0, tenths, pathLength - 1);
    MulMono(tenths, 1000, pathLength - 1);
    tenths * (pathLength - 1) / 1000
  }

  /** Multiplying by a non-negative factor keeps the order. */
  lemma MulMono(a: int, b: int, c: int)
    requires a <= b && c >= 0
    ensures a * c <= b * c
  {
  }

  /** Moving the slider forward never moves the marker backward. */
  lemma PlaybackIndexMonotone(t1: int, t2: int, pathLength: int)
    requires 0 <= t1 <= t2 <= 1000 && pathLength >= 1
    ensures PlaybackIndex(t1, pathLength) <= PlaybackIndex(t2, pathLength)
  {
    MulMono(t1, t2, pathLength - 1);
  }

  /** `trails.filter(t => t.id !== trailId)`. */
  function RemoveTrail(trails: seq<Trail>, trailId: string): (r: seq<Trail>)
    ensures |r| <= |trails|
    ensures forall t :: t in r <==> t in trails && t.id != trailId
  {
    if trails == [] then []
    else if trails[0].id != trailId then [trails[0]] + RemoveTrail(trails[1..], trailId)
    else RemoveTrail(trails[1..], trailId)
  }

  /** Filtering a concatenation filters each part and keeps them in order,
      so the surviving trails keep their relative order. */
  lemma {:induction false} RemoveTrailConcat(a: seq<Trail>, b: seq<Trail>, trailId: string)
    ensures RemoveTrail(a + b, trailId) == RemoveTrail(a, trailId) + RemoveTrail(b, trailId)
  {
    if a != [] {
      assert (a + b)[0] == a[0];
      assert (a + b)[1..] == a[1..] + b;
      RemoveTrailConcat(a[1..], b, trailId);
    } else {
      assert a + b == b;
    }
  }

  /** Every trail with another id survives as often as it occurred; every
      trail with the deleted id is gone. */
  lemma {:induction false} RemoveTrailCount(trails: seq<Trail>, trailId: string, t: Trail)
    ensures multiset(RemoveTrail(trails, trailId))[t]
         == if t.id == trailId then 0 else multiset(trails)[t]
  {
    if trails != [] {
      RemoveTrailCount(trails[1..], trailId, t);
      assert trails == [trails[0]] + trails[1..];
    }
  }

  /** Deleting an id that no trail carries leaves the list as it is. */
  lemma {:induction false} RemoveTrailAbsent(trails: seq<Trail>, trailId: string)
    requires forall i :: 0 <= i < |trails| ==> trails[i].id != trailId
    ensures RemoveTrail(trails, trailId) == trails
  {
    if trails != [] {
      RemoveTrailAbsent(trails[1..], trailId);
    }
  }

  /** Deleting twice is the same as deleting once. */
  lemma RemoveTrailIdempotent(trails: seq<Trail>, trailId: string)
    ensures RemoveTrail(RemoveTrail(trails, trailId), trailId) == RemoveTrail(trails, trailId)
  {
  }

  /** The id given to a trail stopped at time `now`: `trail_${Date.now()}`. */
  function TrailId(now: int): (id: string)
    ensures |id| > 6 && id[..6] == "trail_"
    ensures forall i :: 6 <= i < |id| ==> IsDigit(id[i]) || id[i] == '-'
    ensures id[6] == '-' <==> now < 0
  {
    "trail_" + NumberString(now)
  }

  /** Two trails get the same id exactly when they were stopped in the same
      millisecond; nothing else keeps ids apart. */
  lemma TrailIdInjective(now1: int, now2: int)
    ensures TrailId(now1) == TrailId(now2) <==> now1 == now2
  {
    if TrailId(now1) == TrailId(now2) {
      assert NumberString(now1) == TrailId(now1)[6..] == TrailId(now2)[6..] == NumberString(now2);
      NumberStringInjective(now1, now2);
    }
  }

  class TrailRecorder {
    const store: LocalStore
    /** The haversine segment length used by `calculateDistance`. */
    const segment: Segment

    var isTracking: bool
    var currentPath: seq<GeoPoint>
    var currentPosition: Option<GeoPoint>
    var storedTrails: seq<Trail>
    var selectedTrail: Option<Trail>
    /** The slider value in tenths of a percent, 0 to 1000. */
    var playbackProgress: int
    var playbackMarkerPosition: Option<GeoPoint>
    /** `watchIdRef.current`. */
    var watchId: Option<Watch>
    /** The subscriptions the browser still delivers samples to: opened and
        not yet cleared. A subscription whose handle was overwritten in
        `watchId` stays here. */
    var liveWatches: set<Watch>

    ghost predicate Valid()
      reads this
    {
      && (selectedTrail.Some? ==> |selectedTrail.value.path| > 0)
      && 0 <= playbackProgress <= 1000
      && (watchId.Some? ==> watchId.value in liveWatches)
    }

    /** `watchPosition` hands out a handle that no open subscription has. */
    predicate FreshHandle(handle: nat)
      reads this
    {
      forall w :: w in liveWatches ==> w.id != handle
    }

    /** The initial values of the page's state. */
    constructor (store: LocalStore, segment: Segment)
      ensures Valid() && this.store == store && this.segment == segment
      ensures !isTracking && currentPath == [] && currentPosition == None
      ensures storedTrails == [] && selectedTrail == None && playbackProgress == 0
      ensures playbackMarkerPosition == None && watchId == None && liveWatches == {}
    {
      this.store := store;
      this.segment := segment;
      isTracking := false;
      currentPath := [];
      currentPosition := None;
      storedTrails := [];
      selectedTrail := None;
      playbackProgress := 0;
      playbackMarkerPosition := None;
      watchId := None;
      liveWatches := {};
    }

    /** The playback fields are as they were. */
    twostate predicate PlaybackUnchanged()
      reads this
    {
      && selectedTrail == old(selectedTrail)
      && playbackProgress == old(playbackProgress)
      && playbackMarkerPosition == old(playbackMarkerPosition)
    }

    /** The recording fields and storage are as they were. */
    twostate predicate RecordingUnchanged()
      reads this, store
    {
      && isTracking == old(isTracking)
      && currentPath == old(currentPath)
      && currentPosition == old(currentPosition)
      && storedTrails == old(storedTrails)
      && watchId == old(watchId)
      && liveWatches == old(liveWatches)
      && store.trails == old(store.trails)
      && store.currentPath == old(store.currentPath)
      && store.isTrackingFlag == old(store.isTrackingFlag)
    }

    /** The state `handleStopTracking` leaves: the watch in the ref is
        cleared, tracking is off in memory and in the durable flag, the
        in-progress path is emptied in memory and in storage, and a trail is
        appended exactly when the path had more than one point. */
    twostate predicate StoppedFrom(now: int, formattedStart: string)
      reads this, store
    {
      var path := old(currentPath);
      && watchId == None
      && liveWatches == (if old(watchId).Some? then old(liveWatches) - {old(watchId).value} else old(liveWatches))
      && !isTracking
      && store.isTrackingFlag == Some("0")
      && currentPath == [] && currentPosition == None
      && store.currentPath == Absent
      && (if |path| > 1 then
            && storedTrails == old(storedTrails) + [FinishedTrail(now, formattedStart, path)]
            && (store.trails == if store.writable then Stored(storedTrails) else old(store.trails))
          else
            && storedTrails == old(storedTrails)
            && store.trails == old(store.trails))
    }

    /** The trail a stop at time `now` makes of `path`: named after the
        rendered start time, spanning the first to the last sample, holding
        the path and its distance. */
    function FinishedTrail(now: int, formattedStart: string, path: seq<GeoPoint>): Trail
      requires |path| > 0
    {
      Trail(TrailId(now), "Trail - " + formattedStart, path[0].timestamp,
            path[|path| - 1].timestamp, path, Some(PathDistance(segment, path)))
    }

    /** The mount effect: load the saved trails, read the durable flag and,
        when it says a recording was under way, show the saved in-progress
        path and resume tracking. */
    method Initialize(geolocationSupported: bool, resumeFix: Option<GeoPoint>, handle: nat)
      requires Valid() && FreshHandle(handle)
      modifies this
      ensures Valid() && PlaybackUnchanged()
      ensures storedTrails == LoadOrEmpty(store.trails)
      ensures isTracking == store.TrackingFlagSet()
      ensures
        var restored := LoadOrEmpty(store.currentPath);
        if !store.TrackingFlagSet() then
          && currentPath == old(currentPath) && currentPosition == old(currentPosition)
          && watchId == old(watchId) && liveWatches == old(liveWatches)
        else if geolocationSupported && resumeFix.Some? then
          // the restored points are replaced by the fresh fix
          && currentPath == [resumeFix.value] && currentPosition == resumeFix
          && watchId == Some(Watch(handle, false))
          && liveWatches == old(liveWatches) + {Watch(handle, false)}
        else if |restored| > 0 then
          && currentPath == restored && currentPosition == Some(restored[|restored| - 1])
          && watchId == old(watchId) && liveWatches == old(liveWatches)
        else
          && currentPath == old(currentPath) && currentPosition == old(currentPosition)
          && watchId == old(watchId) && liveWatches == old(liveWatches)
    {
      storedTrails := store.GetStoredTrails();
      var isTrackingNow := store.isTrackingFlag == Some("1");
      isTracking := isTrackingNow;
      if isTrackingNow {
        var storedPath := store.GetStoredCurrentPath();
        if |storedPath| > 0 {
          currentPath := storedPath;
          currentPosition := Some(storedPath[|storedPath| - 1]);
        }
        ResumeTrackingSilently(geolocationSupported, resumeFix, handle);
      }
    }

    /** `resumeTrackingSilently`: on a fix, restart the path from that fix
        and open a watch whose samples are appended without being saved. A
        failed fix changes nothing. */
    method ResumeTrackingSilently(geolocationSupported: bool, fix: Option<GeoPoint>, handle: nat)
      requires Valid() && FreshHandle(handle)
      modifies this
      ensures Valid() && PlaybackUnchanged() && storedTrails == old(storedTrails)
      ensures geolocationSupported && fix.Some? ==>
        && currentPath == [fix.value] && currentPosition == fix && isTracking
        && watchId == Some(Watch(handle, false))
        && liveWatches == old(liveWatches) + {Watch(handle, false)}
      ensures !(geolocationSupported && fix.Some?) ==>
        && currentPath == old(currentPath) && currentPosition == old(currentPosition)
        && isTracking == old(isTracking) && watchId == old(watchId) && liveWatches == old(liveWatches)
    {
      if !geolocationSupported {
        return;
      }
      match fix
      case None =>
      case Some(initialPos) =>
        currentPosition := Some(initialPos);
        currentPath := [initialPos];
        isTracking := true;
        watchId := Some(Watch(handle, false));
        liveWatches := liveWatches + {Watch(handle, false)};
    }

    /** `handleStartTracking`. Without geolocation nothing changes. Otherwise
        the durable flag is set to "1" and playback is cleared before the
        permission outcome is known; a denied fix leaves it that way, with an
        empty path. A granted fix seeds the path and opens a watch whose
        samples are saved. */
    method StartTracking(geolocationSupported: bool, fix: Option<GeoPoint>, handle: nat)
      requires Valid() && FreshHandle(handle)
      modifies this, store
      ensures Valid()
      ensures !geolocationSupported ==> RecordingUnchanged() && PlaybackUnchanged()
      ensures geolocationSupported ==>
        && store.isTrackingFlag == Some("1")
        && store.trails == old(store.trails) && store.currentPath == old(store.currentPath)
        && storedTrails == old(storedTrails)
        && selectedTrail == None && playbackMarkerPosition == None
        && playbackProgress == old(playbackProgress)
      ensures geolocationSupported && fix.None? ==>
        && currentPath == [] && currentPosition == old(currentPosition)
        && isTracking == old(isTracking) && watchId == old(watchId) && liveWatches == old(liveWatches)
      ensures geolocationSupported && fix.Some? ==>
        && currentPath == [fix.value] && currentPosition == fix && isTracking
        && watchId == Some(Watch(handle, true))
        && liveWatches == old(liveWatches) + {Watch(handle, true)}
    {
      if !geolocationSupported {
        return;
      }
      store.SetTrackingFlag("1");
      selectedTrail := None;
      playbackMarkerPosition := None;
      currentPath := [];
      match fix
      case None =>
      case Some(initialPos) =>
        currentPosition := Some(initialPos);
        currentPath := [initialPos];
        isTracking := true;
        watchId := Some(Watch(handle, true));
        liveWatches := liveWatches + {Watch(handle, true)};
    }

    /** The success callback of a live watch: the sample becomes the current
        position and is appended to the path; the watch opened by Start then
        saves the whole updated path. */
    method OnSample(w: Watch, newPoint: GeoPoint)
      requires Valid() && w in liveWatches
      modifies this, store
      ensures Valid() && PlaybackUnchanged()
      ensures currentPath == old(currentPath) + [newPoint]
      ensures currentPosition == Some(newPoint)
      ensures isTracking == old(isTracking) && storedTrails == old(storedTrails)
      ensures watchId == old(watchId) && liveWatches == old(liveWatches)
      ensures store.currentPath ==
        if w.mirrorsPath && store.writable then Stored(currentPath) else old(store.currentPath)
      ensures store.trails == old(store.trails) && store.isTrackingFlag == old(store.isTrackingFlag)
    {
      currentPosition := Some(newPoint);
      var updatedPath := currentPath + [newPoint];
      if w.mirrorsPath {
        store.SaveStoredCurrentPath(updatedPath);
      }
      currentPath := updatedPath;
    }

    /** The error callback of a watch: tracking is switched off in memory
        only. The watch stays open, the path is kept and the durable flag is
        not touched. */
    method OnWatchError(w: Watch)
      requires Valid() && w in liveWatches
      modifies this
      ensures Valid() && PlaybackUnchanged()
      ensures !isTracking
      ensures currentPath == old(currentPath) && currentPosition == old(currentPosition)
      ensures storedTrails == old(storedTrails)
      ensures watchId == old(watchId) && liveWatches == old(liveWatches)
    {
      isTracking := false;
    }

    /** `handleStopTracking`. `now` is `Date.now()` at the stop and
        `formattedStart` the `date-fns` rendering of the first point's time. */
    method StopTracking(now: int, formattedStart: string)
      requires Valid()
      modifies this, store
      ensures Valid() && PlaybackUnchanged()
      ensures StoppedFrom(now, formattedStart)
    {
      if watchId.Some? {
        liveWatches := liveWatches - {watchId.value};
        watchId := None;
      }
      isTracking := false;
      store.SetTrackingFlag("0");
      if |currentPath| > 1 {
        SaveFinishedTrail(now, formattedStart);
      }
      currentPath := [];
      currentPosition := None;
      store.ClearStoredCurrentPath();
    }

    /** The branch of `handleStopTracking` for a path of two or more points:
        the finished trail is appended to the list and the list is saved. */
    method SaveFinishedTrail(now: int, formattedStart: string)
      requires |currentPath| > 1
      modifies this, store
      ensures isTracking == old(isTracking) && currentPath == old(currentPath)
      ensures storedTrails == old(storedTrails) + [FinishedTrail(now, formattedStart, currentPath)]
      ensures store.trails == if store.writable then Stored(storedTrails) else old(store.trails)
      ensures store.currentPath == old(store.currentPath) && store.isTrackingFlag == old(store.isTrackingFlag)
      ensures currentPosition == old(currentPosition) && watchId == old(watchId)
      ensures liveWatches == old(liveWatches) && PlaybackUnchanged()
    {
      var startTime := currentPath[0].timestamp;
      var endTime := currentPath[|currentPath| - 1].timestamp;
      var distance := CalculateDistance(segment, currentPath);
      var newTrail := Trail(TrailId(now), "Trail - " + formattedStart,
                            startTime, endTime, currentPath, Some(distance));
      storedTrails := storedTrails + [newTrail];
      store.SaveStoredTrails(storedTrails);
    }

    /** `handleSelectTrail`: stop a recording first (finalising it as Stop
        does), then show the trail from its first point. */
    method SelectTrail(trail: Trail, now: int, formattedStart: string)
      requires Valid() && |trail.path| > 0
      modifies this, store
      ensures Valid()
      ensures selectedTrail == Some(trail) && playbackProgress == 0
      ensures playbackMarkerPosition == Some(trail.path[0])
      ensures old(isTracking) ==> StoppedFrom(now, formattedStart)
      ensures !old(isTracking) ==> RecordingUnchanged()
    {
      if isTracking {
        StopTracking(now, formattedStart);
      }
      selectedTrail := Some(trail);
      playbackProgress := 0;
      playbackMarkerPosition := Some(trail.path[0]);
    }

    /** `handleDeleteTrail`: drop every trail with that id, save the rest,
        and leave playback only if the shown trail was the one deleted. */
    method DeleteTrail(trailId: string)
      requires Valid()
      modifies this, store
      ensures Valid()
      ensures storedTrails == RemoveTrail(old(storedTrails), trailId)
      ensures store.trails == if store.writable then Stored(storedTrails) else old(store.trails)
      ensures store.currentPath == old(store.currentPath)
      ensures store.isTrackingFlag == old(store.isTrackingFlag)
      ensures old(selectedTrail).Some? && old(selectedTrail).value.id == trailId ==>
        selectedTrail == None && playbackMarkerPosition == None
      ensures !(old(selectedTrail).Some? && old(selectedTrail).value.id == trailId) ==>
        selectedTrail == old(selectedTrail) && playbackMarkerPosition == old(playbackMarkerPosition)
      ensures playbackProgress == old(playbackProgress)
      ensures isTracking == old(isTracking) && currentPath == old(currentPath)
      ensures currentPosition == old(currentPosition)
      ensures watchId == old(watchId) && liveWatches == old(liveWatches)
    {
      var updatedTrails := RemoveTrail(storedTrails, trailId);
      storedTrails := updatedTrails;
      store.SaveStoredTrails(updatedTrails);
      if selectedTrail.Some? && selectedTrail.value.id == trailId {
        selectedTrail := None;
        playbackMarkerPosition := None;
      }
    }

    /** `handlePlaybackProgressChange`: with a trail shown, record the slider
        value and move the marker to the path point it selects. */
    method ScrubPlayback(tenths: int)
      requires Valid() && 0 <= tenths <= 1000
      modifies this
      ensures Valid() && RecordingUnchanged() && selectedTrail == old(selectedTrail)
      ensures selectedTrail.None? ==>
        playbackProgress == old(playbackProgress) && playbackMarkerPosition == old(playbackMarkerPosition)
      ensures selectedTrail.Some? ==>
        var path := selectedTrail.value.path;
        && playbackProgress == tenths
        && playbackMarkerPosition == Some(path[PlaybackIndex(tenths, |path|)])
    {
      if selectedTrail.Some? {
        var path := selectedTrail.value.path;
        playbackProgress := tenths;
        var pathIndex := PlaybackIndex(tenths, |path|);
        playbackMarkerPosition := Some(path[pathIndex]);
      }
    }
  }
}
