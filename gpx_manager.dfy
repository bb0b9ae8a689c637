/** The bounding box of a GPS track: the most northern, southern, eastern and western
    coordinates among all points of all segments of all tracks. */
module GpxManager {
  import opened Wrappers
  import opened Tracks

  /** The four running extremes of the scan. */
  datatype Box = Box(north: real, west: real, south: real, east: real)

  /** The starting extremes: every real latitude and longitude lies inside them, so
      the first point replaces all four. */
  const START: Box := Box(-300.0, 300.0, 300.0, -300.0)

  /** One step of the scan: each extreme the point goes beyond is replaced by it. */
  function Visit(b: Box, p: Point): Box
  {
    Box(if p.latitude > b.north then p.latitude else b.north,
        if p.longitude < b.west then p.longitude else b.west,
        if p.latitude < b.south then p.latitude else b.south,
        if p.longitude > b.east then p.longitude else b.east)
  }

  /** The scan over a run of points, in order. */
  function VisitAll(b: Box, points: seq<Point>): Box
  {
    if points == [] then b else Visit(VisitAll(b, points[..|points| - 1]), points[|points| - 1])
  }

  /** The box the scan of the whole document ends with. */
  function Bounds(gpx: Gpx): Box
  {
    VisitAll(START, Points(gpx))
  }

  /** Every point lies inside the box, borders included. */
  ghost predicate Encloses(b: Box, points: seq<Point>)
  {
    forall i :: 0 <= i < |points| ==>
      b.south <= points[i].latitude <= b.north && b.west <= points[i].longitude <= b.east
  }

  /** The box `outer` contains the box `inner`. */
  predicate Widens(inner: Box, outer: Box)
  {
    outer.north >= inner.north && outer.south <= inner.south &&
    outer.west <= inner.west && outer.east >= inner.east
  }

  /** Scanning two runs one after the other is scanning their concatenation. */
  lemma {:induction false} VisitAllAppend(b: Box, xs: seq<Point>, ys: seq<Point>)
    ensures VisitAll(b, xs + ys) == VisitAll(VisitAll(b, xs), ys)
    decreases |ys|
  {
    if ys == [] {
      assert xs + ys == xs;
    } else {
      var n := |ys| - 1;
      assert (xs + ys)[..|xs + ys| - 1] == xs + ys[..n];
      assert (xs + ys)[|xs + ys| - 1] == ys[n];
      VisitAllAppend(b, xs, ys[..n]);
    }
  }

  /** The scan only widens the box, and the final box holds every point. */
  lemma {:induction false} VisitAllEncloses(b: Box, points: seq<Point>)
    ensures Widens(b, VisitAll(b, points))
    ensures Encloses(VisitAll(b, points), points)
    decreases |points|
  {
    if points != [] {
      var n := |points| - 1;
      var init := points[..n];
      VisitAllEncloses(b, init);
      var r := VisitAll(b, points);
      forall i | 0 <= i < n
        ensures r.south <= points[i].latitude <= r.north && r.west <= points[i].longitude <= r.east
      {
        assert init[i] == points[i];
      }
    }
  }

  /** Each side of the final box is the starting side or the coordinate of a point. */
  lemma {:induction false} VisitAllAttains(b: Box, points: seq<Point>)
    ensures var r := VisitAll(b, points);
      (r.north == b.north || exists i :: 0 <= i < |points| && r.north == points[i].latitude) &&
      (r.south == b.south || exists i :: 0 <= i < |points| && r.south == points[i].latitude) &&
      (r.west == b.west || exists i :: 0 <= i < |points| && r.west == points[i].longitude) &&
      (r.east == b.east || exists i :: 0 <= i < |points| && r.east == points[i].longitude)
    decreases |points|
  {
    if points != [] {
      var n := |points| - 1;
      var init := points[..n];
      VisitAllAttains(b, init);
      assert forall i :: 0 <= i < n ==> init[i] == points[i];
    }
  }

  /** The box of a document without points is the starting box, whose south-west
      corner lies north-east of its north-east corner. */
  lemma EmptyTrackKeepsStart(gpx: Gpx)
    requires Points(gpx) == []
    ensures Bounds(gpx) == START
    ensures Bounds(gpx).south > Bounds(gpx).north && Bounds(gpx).west > Bounds(gpx).east
  {
  }

  /** For a document with points whose coordinates lie strictly between -300 and 300,
      each side of the box is the extreme coordinate of some point, and the box is
      the right way round. */
  lemma BoundsAreTight(gpx: Gpx)
    requires Points(gpx) != []
    requires forall p | p in Points(gpx) :: -300.0 < p.latitude < 300.0 && -300.0 < p.longitude < 300.0
    ensures var b, pts := Bounds(gpx), Points(gpx);
      Encloses(b, pts) && b.south <= b.north && b.west <= b.east &&
      (exists i :: 0 <= i < |pts| && b.north == pts[i].latitude) &&
      (exists i :: 0 <= i < |pts| && b.south == pts[i].latitude) &&
      (exists i :: 0 <= i < |pts| && b.west == pts[i].longitude) &&
      (exists i :: 0 <= i < |pts| && b.east == pts[i].longitude)
  {
    var pts := Points(gpx);
    VisitAllEncloses(START, pts);
    VisitAllAttains(START, pts);
    assert pts[0] in pts;
  }

  /** A corner of the box as the source keeps it, a latitude and a longitude that are
      unset until the scan has run. */
  datatype Corner = Corner(lat: Option<real>, lng: Option<real>)

  datatype Boundaries = Boundaries(ne: Corner, sw: Corner)

  datatype GpxError = MissingGpx

  function NorthEast(b: Box): Corner
  {
    Corner(Some(b.north), Some(b.east))
  }

  function SouthWest(b: Box): Corner
  {
    Corner(Some(b.south), Some(b.west))
  }

  /** Scans one segment's points, starting from the extremes in `b`. */
  method ScanSegment(b: Box, segment: Segment) returns (r: Box)
    ensures r == VisitAll(b, segment.points)
  {
    var north, west, south, east := b.north, b.west, b.south, b.east;
    var k := 0;
    while k < |segment.points|
      invariant 0 <= k <= |segment.points|
      invariant Box(north, west, south, east) == VisitAll(b, segment.points[..k])
    {
      var point := segment.points[k];
      assert segment.points[..k + 1][..k] == segment.points[..k];
      if point.latitude > north {
        north := point.latitude;
      }
      if point.latitude < south {
        south := point.latitude;
      }
      if point.longitude > east {
        east := point.longitude;
      }
      if point.longitude < west {
        west := point.longitude;
      }
      k := k + 1;
    }
    assert segment.points[..k] == segment.points;
    r := Box(north, west, south, east);
  }

  /** Scans the segments of one track in order. */
  method ScanTrack(b: Box, track: Track) returns (r: Box)
    ensures r == VisitAll(b, SegmentPoints(track.segments))
  {
    r := b;
    var s := 0;
    while s < |track.segments|
      invariant 0 <= s <= |track.segments|
      invariant r == VisitAll(b, SegmentPoints(track.segments[..s]))
    {
      assert track.segments[..s + 1][..s] == track.segments[..s];
      VisitAllAppend(b, SegmentPoints(track.segments[..s]), track.segments[s].points);
      r := ScanSegment(r, track.segments[s]);
      s := s + 1;
    }
    assert track.segments[..s] == track.segments;
  }

  /** Scans the tracks in order, from the starting extremes. */
  method ScanTracks(tracks: seq<Track>) returns (r: Box)
    ensures r == VisitAll(START, TrackPoints(tracks))
  {
    r := START;
    var t := 0;
    while t < |tracks|
      invariant 0 <= t <= |tracks|
      invariant r == VisitAll(START, TrackPoints(tracks[..t]))
    {
      assert tracks[..t + 1][..t] == tracks[..t];
      VisitAllAppend(START, TrackPoints(tracks[..t]), SegmentPoints(tracks[t].segments));
      r := ScanTrack(r, tracks[t]);
      t := t + 1;
    }
    assert tracks[..t] == tracks;
  }

  /** Holds a document and the corners of its bounding box. */
  class Manager {
    var gpx: Gpx
    var ne: Corner
    var sw: Corner

    /** The corners are those of the scan of the document. */
    ghost predicate Valid()
      reads this
    {
      ne == NorthEast(Bounds(gpx)) && sw == SouthWest(Bounds(gpx))
    }

    constructor (gpx: Gpx)
      ensures this.gpx == gpx && Valid()
    {
      this.gpx := gpx;
      ne := Corner(None, None);
      sw := Corner(None, None);
      new;
      Parse();
    }

    /** A manager for a document, or an error when there is none. */
    static method Create(gpx: Option<Gpx>) returns (r: Result<Manager, GpxError>)
      ensures r.Err? <==> gpx.None?
      ensures r.Ok? ==> fresh(r.value) && r.value.gpx == gpx.value && r.value.Valid()
    {
      if gpx.None? {
        return Err(MissingGpx);
      }
      var m := new Manager(gpx.value);
      return Ok(m);
    }

    /** Scans every point of every segment of every track and stores the corners. */
    method Parse()
      modifies this
      ensures gpx == old(gpx) && Valid()
    {
      var b := ScanTracks(gpx.tracks);
      ne := NorthEast(b);
      sw := SouthWest(b);
    }

    /** The two corners; every point of the document lies between them. */
    method GetBoundaries() returns (r: Boundaries)
      requires Valid()
      ensures r == Boundaries(ne, sw)
      ensures r.ne.lat.Some? && r.ne.lng.Some? && r.sw.lat.Some? && r.sw.lng.Some?
      ensures forall p | p in Points(gpx) ::
        r.sw.lat.value <= p.latitude <= r.ne.lat.value && r.sw.lng.value <= p.longitude <= r.ne.lng.value
    {
      var pts := Points(gpx);
      VisitAllEncloses(START, pts);
      forall p | p in pts
        ensures sw.lat.value <= p.latitude <= ne.lat.value && sw.lng.value <= p.longitude <= ne.lng.value
      {
        var i :| 0 <= i < |pts| && pts[i] == p;
      }
      r := Boundaries(ne, sw);
    }
  }
}
