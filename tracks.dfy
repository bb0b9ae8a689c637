/** The parts of a parsed GPX document the generator reads: tracks made of segments
    made of points, each point with a latitude and a longitude. */
module Tracks {
  datatype Point = Point(latitude: real, longitude: real)

  datatype Segment = Segment(points: seq<Point>)

  datatype Track = Track(segments: seq<Segment>)

  datatype Gpx = Gpx(tracks: seq<Track>)

  /** The points of a run of segments, segment after segment. */
  function SegmentPoints(segments: seq<Segment>): seq<Point>
  {
    if segments == [] then []
    else SegmentPoints(segments[..|segments| - 1]) + segments[|segments| - 1].points
  }

  /** The points of a run of tracks, track after track. */
  function TrackPoints(tracks: seq<Track>): seq<Point>
  {
    if tracks == [] then []
    else TrackPoints(tracks[..|tracks| - 1]) + SegmentPoints(tracks[|tracks| - 1].segments)
  }

  /** Every point of the document, in the order the nested loops over tracks,
      segments and points visit them. */
  function Points(gpx: Gpx): seq<Point>
  {
    TrackPoints(gpx.tracks)
  }

  /** Each point of segment `s` is listed among the points of the segments. */
  lemma {:induction false} SegmentPointIsListed(segments: seq<Segment>, s: int, k: int)
    requires 0 <= s < |segments| && 0 <= k < |segments[s].points|
    ensures segments[s].points[k] in SegmentPoints(segments)
  {
    var n := |segments| - 1;
    if s < n {
      assert segments[..n][s] == segments[s];
      SegmentPointIsListed(segments[..n], s, k);
    }
  }

  /** A listed point belongs to one of the segments. */
  lemma {:induction false} ListedPointIsInSegment(segments: seq<Segment>, p: Point)
    requires p in SegmentPoints(segments)
    ensures exists s, k :: 0 <= s < |segments| && 0 <= k < |segments[s].points| && segments[s].points[k] == p
  {
    var n := |segments| - 1;
    var init := SegmentPoints(segments[..n]);
    if p in init {
      ListedPointIsInSegment(segments[..n], p);
      var s, k :| 0 <= s < n && 0 <= k < |segments[..n][s].points| && segments[..n][s].points[k] == p;
      assert segments[s] == segments[..n][s];
    } else {
      var k :| 0 <= k < |segments[n].points| && segments[n].points[k] == p;
    }
  }

  /** Every point of every segment of every track is among the document's points. */
  lemma {:induction false} TrackPointIsListed(tracks: seq<Track>, t: int, s: int, k: int)
    requires 0 <= t < |tracks| && 0 <= s < |tracks[t].segments|
    requires 0 <= k < |tracks[t].segments[s].points|
    ensures tracks[t].segments[s].points[k] in TrackPoints(tracks)
  {
    var n := |tracks| - 1;
    if t < n {
      assert tracks[..n][t] == tracks[t];
      TrackPointIsListed(tracks[..n], t, s, k);
    } else {
      SegmentPointIsListed(tracks[t].segments, s, k);
    }
  }

  /** Point k of segment s of track t is p. */
  predicate Locates(tracks: seq<Track>, t: int, s: int, k: int, p: Point)
  {
    0 <= t < |tracks| && 0 <= s < |tracks[t].segments| &&
    0 <= k < |tracks[t].segments[s].points| && tracks[t].segments[s].points[k] == p
  }

  /** The document's points are exactly those of its tracks' segments. */
  lemma {:induction false} ListedPointIsInTrack(tracks: seq<Track>, p: Point)
    requires p in TrackPoints(tracks)
    ensures exists t, s, k :: Locates(tracks, t, s, k, p)
  {
    var n := |tracks| - 1;
    if p in TrackPoints(tracks[..n]) {
      ListedPointIsInTrack(tracks[..n], p);
      var t, s, k :| Locates(tracks[..n], t, s, k, p);
      assert tracks[t] == tracks[..n][t];
      assert Locates(tracks, t, s, k, p);
    } else {
      ListedPointIsInSegment(tracks[n].segments, p);
      var s, k :| 0 <= s < |tracks[n].segments| && 0 <= k < |tracks[n].segments[s].points| &&
        tracks[n].segments[s].points[k] == p;
      assert Locates(tracks, n, s, k, p);
    }
  }
}
