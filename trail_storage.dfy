/** The persistence layer and the path-length computation.

    The browser's local storage is modelled as three slots: the list of
    saved trails, the in-progress path, and the `isTracking` flag that the
    trail page writes directly. The JSON encoding is not modelled: a slot
    holds a value, is absent, or holds text that does not parse. */
module TrailStorage {
  import opened Types

  /** The content of one storage key: nothing, a value written earlier, or
      text that `JSON.parse` rejects. */
  datatype Slot<T> = Absent | Stored(value: T) | Corrupt

  /** What a guarded read returns: the stored value, and `[]` for a missing
      key or for text that fails to parse. */
  function LoadOrEmpty<T>(slot: Slot<seq<T>>): (r: seq<T>)
    ensures slot.Stored? ==> r == slot.value
    ensures !slot.Stored? ==> r == []
  {
    match slot
    case Stored(v) => v
    case _ => []
  }

  class LocalStore {
    /** Whether `setItem` succeeds. When it throws (the storage quota is
        exhausted), the guarded saves catch the error and store nothing. */
    const writable: bool
    var trails: Slot<seq<Trail>>
    var currentPath: Slot<seq<GeoPoint>>
    /** The raw `isTracking` value: "1", "0", or missing. */
    var isTrackingFlag: Option<string>

    /** Storage as the page finds it when it loads. */
    constructor (writable: bool, trails: Slot<seq<Trail>>, currentPath: Slot<seq<GeoPoint>>,
                 isTrackingFlag: Option<string>)
      ensures this.writable == writable && this.trails == trails
      ensures this.currentPath == currentPath && this.isTrackingFlag == isTrackingFlag
    {
      this.writable := writable;
      this.trails := trails;
      this.currentPath := currentPath;
      this.isTrackingFlag := isTrackingFlag;
    }

    /** The flag test the page makes at startup: `getItem('isTracking') === '1'`. */
    predicate TrackingFlagSet()
      reads this
      ensures TrackingFlagSet() ==> isTrackingFlag.Some? && isTrackingFlag.value == "1"
      ensures isTrackingFlag == None || isTrackingFlag == Some("0") ==> !TrackingFlagSet()
    {
      isTrackingFlag == Some("1")
    }

    /** `getStoredTrails`: the saved trails; `[]` when nothing is stored or
        the stored text does not parse. */
    method GetStoredTrails() returns (ts: seq<Trail>)
      ensures ts == LoadOrEmpty(trails)
      ensures trails == Absent ==> ts == []
    {
      match trails
      case Stored(v) => ts := v;
      case Absent => ts := [];
      case Corrupt => ts := [];
    }

    /** `saveStoredTrails`: overwrites the trail list; a failed write is
        caught and leaves the slot as it was. */
    method SaveStoredTrails(ts: seq<Trail>)
      modifies this
      ensures writable ==> trails == Stored(ts) && LoadOrEmpty(trails) == ts
      ensures !writable ==> trails == old(trails)
      ensures currentPath == old(currentPath) && isTrackingFlag == old(isTrackingFlag)
    {
      if writable {
        trails := Stored(ts);
      }
    }

    /** `getStoredCurrentPath`: the saved in-progress path, or `[]`. */
    method GetStoredCurrentPath() returns (p: seq<GeoPoint>)
      ensures p == LoadOrEmpty(currentPath)
      ensures currentPath == Absent ==> p == []
    {
      match currentPath
      case Stored(v) => p := v;
      case Absent => p := [];
      case Corrupt => p := [];
    }

    /** `saveStoredCurrentPath`: overwrites the in-progress path slot. */
    method SaveStoredCurrentPath(p: seq<GeoPoint>)
      modifies this
      ensures writable ==> currentPath == Stored(p) && LoadOrEmpty(currentPath) == p
      ensures !writable ==> currentPath == old(currentPath)
      ensures trails == old(trails) && isTrackingFlag == old(isTrackingFlag)
    {
      if writable {
        currentPath := Stored(p);
      }
    }

    /** `clearStoredCurrentPath`: removes the in-progress path, after which
        it reads back as `[]`. Removing a key does not run into the quota. */
    method ClearStoredCurrentPath()
      modifies this
      ensures currentPath == Absent && LoadOrEmpty(currentPath) == []
      ensures trails == old(trails) && isTrackingFlag == old(isTrackingFlag)
    {
      currentPath := Absent;
    }

    /** `localStorage.setItem('isTracking', value)`, as the page calls it. */
    method SetTrackingFlag(value: string)
      modifies this
      ensures isTrackingFlag == Some(value)
      ensures TrackingFlagSet() <==> value == "1"
      ensures trails == old(trails) && currentPath == old(currentPath)
    {
      isTrackingFlag := Some(value);
    }
  }

  /** The part of a point that the distance computation reads. */
  datatype Coord = Coord(lat: real, lng: real)

  /** The great-circle distance in metres between two positions. The
      haversine formula itself is not modelled; every result below holds
      for whichever segment function the recorder is given. */
  type Segment = (Coord, Coord) -> real

  function CoordOf(p: GeoPoint): Coord
  {
    Coord(p.lat, p.lng)
  }

  /** The accumulator of `calculateDistance` after `k` iterations: the
      first `k` segment lengths added left to right. */
  function SegmentSum(segment: Segment, path: seq<GeoPoint>, k: nat): real
    requires k == 0 || k < |path|
  {
    if k == 0 then 0.0
    else SegmentSum(segment, path, k - 1) + segment(CoordOf(path[k - 1]), CoordOf(path[k]))
  }

  /** The value of `calculateDistance(path)`: zero for fewer than two
      points, otherwise the sum of every adjacent pair's segment. */
  function PathDistance(segment: Segment, path: seq<GeoPoint>): (d: real)
    ensures |path| < 2 ==> d == 0.0
  {
    if |path| < 2 then 0.0 else SegmentSum(segment, path, |path| - 1)
  }

  /** `calculateDistance`: the loop over adjacent pairs. */
  method CalculateDistance(segment: Segment, path: seq<GeoPoint>) returns (totalDistance: real)
    ensures totalDistance == PathDistance(segment, path)
  {
    totalDistance := 0.0;
    if |path| < 2 {
      return 0.0;
    }
    var i := 0;
    while i < |path| - 1
      invariant 0 <= i <= |path| - 1
      invariant totalDistance == SegmentSum(segment, path, i)
    {
      var p1 := path[i];
      var p2 := path[i + 1];
      totalDistance := totalDistance + segment(Coord(p1.lat, p1.lng), Coord(p2.lat, p2.lng));
      i := i + 1;
    }
  }

  /** The first `k` segments depend only on the first `k + 1` points. */
  lemma {:induction false} SegmentSumPrefix(segment: Segment, path: seq<GeoPoint>, more: seq<GeoPoint>, k: nat)
    requires k < |path|
    ensures SegmentSum(segment, path + more, k) == SegmentSum(segment, path, k)
  {
    if k > 0 {
      SegmentSumPrefix(segment, path, more, k - 1);
      assert (path + more)[k - 1] == path[k - 1] && (path + more)[k] == path[k];
    }
  }

  /** Appending one point to a non-empty path adds exactly one term: the
      segment from the old last point to the new one. */
  lemma DistanceExtend(segment: Segment, path: seq<GeoPoint>, p: GeoPoint)
    requires |path| >= 1
    ensures PathDistance(segment, path + [p])
         == PathDistance(segment, path) + segment(CoordOf(path[|path| - 1]), CoordOf(p))
  {
    var n := |path|;
    if n >= 2 {
      SegmentSumPrefix(segment, path, [p], n - 1);
    }
    assert (path + [p])[n - 1] == path[n - 1] && (path + [p])[n] == p;
    assert SegmentSum(segment, path + [p], n)
        == SegmentSum(segment, path + [p], n - 1) + segment(CoordOf(path[n - 1]), CoordOf(p));
  }

  /** The segments of `b` are counted the same way inside `a + b`, shifted
      by `|a|` positions. */
  lemma {:induction false} SegmentSumShift(segment: Segment, a: seq<GeoPoint>, b: seq<GeoPoint>, k: nat)
    requires |a| >= 1 && k < |b|
    ensures SegmentSum(segment, a + b, |a| + k)
         == SegmentSum(segment, a + b, |a|) + SegmentSum(segment, b, k)
  {
    if k > 0 {
      SegmentSumShift(segment, a, b, k - 1);
      assert (a + b)[|a| + k - 1] == b[k - 1] && (a + b)[|a| + k] == b[k];
    }
  }

  /** Distance is additive over concatenation: the two parts plus the
      segment that joins them. */
  lemma DistanceConcat(segment: Segment, a: seq<GeoPoint>, b: seq<GeoPoint>)
    requires |a| >= 1 && |b| >= 1
    ensures PathDistance(segment, a + b)
         == PathDistance(segment, a) + segment(CoordOf(a[|a| - 1]), CoordOf(b[0]))
            + PathDistance(segment, b)
  {
    var n := |a|;
    SegmentSumShift(segment, a, b, |b| - 1);
    if n >= 2 {
      SegmentSumPrefix(segment, a, b, n - 1);
    }
    assert (a + b)[n - 1] == a[n - 1] && (a + b)[n] == b[0];
  }

  lemma {:induction false} SegmentSumCoords(segment: Segment, p: seq<GeoPoint>, q: seq<GeoPoint>, k: nat)
    requires |p| == |q| && (k == 0 || k < |p|)
    requires forall i :: 0 <= i < |p| ==> CoordOf(p[i]) == CoordOf(q[i])
    ensures SegmentSum(segment, p, k) == SegmentSum(segment, q, k)
  {
    if k > 0 {
      SegmentSumCoords(segment, p, q, k - 1);
    }
  }

  /** Only latitude and longitude are read: two paths with the same
      positions have the same distance, whatever their timestamps. */
  lemma DistanceIgnoresTimestamps(segment: Segment, p: seq<GeoPoint>, q: seq<GeoPoint>)
    requires |p| == |q|
    requires forall i :: 0 <= i < |p| ==> p[i].lat == q[i].lat && p[i].lng == q[i].lng
    ensures PathDistance(segment, p) == PathDistance(segment, q)
  {
    if |p| >= 2 {
      SegmentSumCoords(segment, p, q, |p| - 1);
    }
  }
}
