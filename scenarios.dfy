/** Client code that drives the recorder through the handlers' contracts
    only, showing what the page does in a few sequences of events. */
module Scenarios {
  import opened Types
  import opened TrailStorage
  import opened TrailTracker

  /** Start, two samples, Stop: one trail holding all three points. */
  method RecordOneTrail(segment: Segment, a: GeoPoint, b: GeoPoint, c: GeoPoint)
  {
    var store := new LocalStore(true, Absent, Absent, None);
    var r := new TrailRecorder(store, segment);
    r.StartTracking(true, Some(a), 7);
    var w := Watch(7, true);
    r.OnSample(w, b);
    assert r.currentPath == [a, b];
    assert store.currentPath == Stored([a, b]);
    r.OnSample(w, c);
    assert r.currentPath == [a, b, c];
    r.StopTracking(1000, "Jan 01, 2024 10:00");
    assert |r.storedTrails| == 1;
    assert r.storedTrails[0].path == [a, b, c];
    assert r.storedTrails[0].startTime == a.timestamp && r.storedTrails[0].endTime == c.timestamp;
    assert store.trails == Stored(r.storedTrails);
    assert store.currentPath == Absent && store.isTrackingFlag == Some("0");
  }

  /** A denied permission leaves the durable flag at "1", so the next load
      believes a recording was under way. */
  method DeniedStartLeavesFlag(segment: Segment)
  {
    var store := new LocalStore(true, Absent, Absent, None);
    var r := new TrailRecorder(store, segment);
    r.StartTracking(true, None, 1);
    assert !r.isTracking && store.TrackingFlagSet();
  }

  /** Recovery with a fresh fix throws away the restored points. */
  method ResumeDiscardsRestoredPoints(segment: Segment, a: GeoPoint, b: GeoPoint, fix: GeoPoint)
  {
    var store := new LocalStore(true, Absent, Stored([a, b]), Some("1"));
    var r := new TrailRecorder(store, segment);
    r.Initialize(true, Some(fix), 3);
    assert r.isTracking && r.currentPath == [fix];
  }

  /** A watch error followed by a new Start leaves the first watch open;
      Stop clears only the second, so the first keeps adding points to the
      path that Stop has just emptied. */
  method OrphanedWatchOutlivesStop(segment: Segment, a: GeoPoint, b: GeoPoint, c: GeoPoint)
  {
    var store := new LocalStore(true, Absent, Absent, None);
    var r := new TrailRecorder(store, segment);
    r.StartTracking(true, Some(a), 1);
    r.OnWatchError(Watch(1, true));
    r.StartTracking(true, Some(b), 2);
    r.StopTracking(5000, "Jan 01, 2024 10:00");
    assert Watch(1, true) in r.liveWatches;
    r.OnSample(Watch(1, true), c);
    assert !r.isTracking && r.currentPath == [c] && store.currentPath == Stored([c]);
  }

  /** After a reload with the flag set, Stop can run before the resume fix
      arrives: the restored points become a trail, and the late fix then
      turns tracking back on in memory under a watch that saves nothing,
      while the durable flag stays "0". */
  method StopBeforeResumeFix(segment: Segment, a: GeoPoint, b: GeoPoint, fix: GeoPoint, c: GeoPoint)
  {
    var store := new LocalStore(true, Absent, Stored([a, b]), Some("1"));
    var r := new TrailRecorder(store, segment);
    r.Initialize(true, None, 3);
    assert r.isTracking && r.currentPath == [a, b];
    r.StopTracking(1000, "Jan 01, 2024 10:00");
    assert |r.storedTrails| == 1 && r.storedTrails[0].path == [a, b];
    r.ResumeTrackingSilently(true, Some(fix), 4);
    assert r.isTracking && r.currentPath == [fix] && store.isTrackingFlag == Some("0");
    r.OnSample(Watch(4, false), c);
    assert r.currentPath == [fix, c] && store.currentPath == Absent;
  }
}
