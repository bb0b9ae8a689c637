/** Drawing a GPS track onto the height grid: each point inside the region is
    projected to a pixel, and the Bresenham line from it to the previous projected
    pixel is stamped with a circle at every pixel, each stamped cell receiving the
    point's altitude (or the last known one) raised by a fixed elevation. */
module GpsOverlay {
  import opened Wrappers
  import opened Arithmetic
  import opened RegionGrid
  import opened Tracks
  import Raster

  type Pixel = Raster.Pixel

  /** What the stamping reads of the region: its south and east bounds, its extents
      and the grid's rows (latitude samples) and columns (longitude samples). */
  datatype Frame = Frame(south: real, east: real, latDelta: real, lngDelta: real, rows: int, cols: int)

  /** The fixed inputs of one overlay: the region, the altitude lookup, the circle
      thickness and the elevation added to every stamped cell. */
  datatype Setup = Setup(frame: Frame, altitude: (real, real) -> Option<real>, thickness: real, elevationDelta: real)

  /** The point's distances from the south and east bounds are within the extents.
      Distances are absolute, so points south of `south` or east of `east` are
      measured as if mirrored into the region. */
  predicate InRegion(f: Frame, lat: real, lng: real)
  {
    AbsReal(lat - f.south) < f.latDelta && AbsReal(f.east - lng) < f.lngDelta
  }

  /** The pixel index of a distance along an axis of `n` samples. */
  function PixelIndex(distance: real, delta: real, n: int): int
    requires delta != 0.0
  {
    (distance / delta * n as real).Floor
  }

  /** The pixel of a point inside the region: (latitude index, longitude index). */
  function PixelOf(f: Frame, lat: real, lng: real): Pixel
    requires InRegion(f, lat, lng)
  {
    (PixelIndex(AbsReal(lat - f.south), f.latDelta, f.rows), PixelIndex(AbsReal(f.east - lng), f.lngDelta, f.cols))
  }

  /** A grid index clamped from above only. */
  function ClampAbove(i: int, n: int): int
  {
    if i >= n then n - 1 else i
  }

  /** The cell numpy addresses for an index: a negative index counts from the end. */
  function NumpyIndex(i: int, n: int): int
  {
    if i < 0 then i + n else i
  }

  /** The grid cell (row, column) that circle offset `offset` around line pixel
      `pixel` lands on: the row is rows - pixel.0 + offset.1 and the column
      cols - pixel.1 + offset.0, each clamped from above. */
  function CellOf(f: Frame, pixel: Pixel, offset: Pixel): Pixel
  {
    (NumpyIndex(ClampAbove(f.rows - pixel.0 + offset.1, f.rows), f.rows),
     NumpyIndex(ClampAbove(f.cols - pixel.1 + offset.0, f.cols), f.cols))
  }

  /** The cells one circle around a line pixel covers. */
  function CircleCells(f: Frame, pixel: Pixel, circle: set<Pixel>): set<Pixel>
  {
    set offset | offset in circle :: CellOf(f, pixel, offset)
  }

  /** The cells the circles around every pixel of a line cover. */
  function LineCells(f: Frame, line: seq<Pixel>, circle: set<Pixel>): set<Pixel>
  {
    if line == [] then {}
    else LineCells(f, line[..|line| - 1], circle) + CircleCells(f, line[|line| - 1], circle)
  }

  /** One stamping: every cell in `cells` receives `value`. */
  datatype Stamp = Stamp(cells: set<Pixel>, value: real)

  /** What the loop carries from point to point. */
  datatype GpsState = GpsState(prevPixel: Option<Pixel>, prevAlt: real)

  const START_STATE: GpsState := GpsState(None, 0.0)

  /** The carried state and the stampings made so far, in order. */
  datatype Trace = Trace(state: GpsState, stamps: seq<Stamp>)

  /** One point: a falsy altitude is replaced by the previous one; a point inside the
      region becomes the previous pixel and, when there was a previous pixel, the
      line back to it is stamped; a point outside leaves the previous pixel alone. */
  function StepPoint(s: Setup, st: GpsState, point: Point): Trace
  {
    var a := s.altitude(point.latitude, point.longitude);
    var alt := if Truthy(a) then a.value else st.prevAlt;
    if !InRegion(s.frame, point.latitude, point.longitude) then Trace(GpsState(st.prevPixel, alt), [])
    else
      var pixel := PixelOf(s.frame, point.latitude, point.longitude);
      var stamps := if st.prevPixel.None? then []
                    else [Stamp(LineCells(s.frame, Raster.LinePoints(pixel, st.prevPixel.value),
                                          Raster.CirclePoints(Trunc(s.thickness))),
                                alt + Trunc(s.elevationDelta) as real)];
      Trace(GpsState(Some(pixel), alt), stamps)
  }

  /** The points processed in order. */
  function Overlay(s: Setup, st: GpsState, points: seq<Point>): Trace
  {
    if points == [] then Trace(st, [])
    else
      var t := Overlay(s, st, points[..|points| - 1]);
      var u := StepPoint(s, t.state, points[|points| - 1]);
      Trace(u.state, t.stamps + u.stamps)
  }

  /** The value a cell holds after the stampings, starting from `before`: the value of
      the last stamping that covers it. */
  function Painted(stamps: seq<Stamp>, cell: Pixel, before: real): real
  {
    if stamps == [] then before
    else if cell in stamps[|stamps| - 1].cells then stamps[|stamps| - 1].value
    else Painted(stamps[..|stamps| - 1], cell, before)
  }

  // ---------------------------------------------------------------------------
  // Properties
  // ---------------------------------------------------------------------------

  /** The altitude carried on is the point's when it is truthy and the previous one
      otherwise. */
  lemma StepCarriesAltitude(s: Setup, st: GpsState, point: Point)
    ensures var a := s.altitude(point.latitude, point.longitude);
      StepPoint(s, st, point).state.prevAlt == if Truthy(a) then a.value else st.prevAlt
  {
  }

  /** A point outside the region stamps nothing and keeps the previous pixel. */
  lemma OutsidePointIsSkipped(s: Setup, st: GpsState, point: Point)
    requires !InRegion(s.frame, point.latitude, point.longitude)
    ensures StepPoint(s, st, point).stamps == []
    ensures StepPoint(s, st, point).state.prevPixel == st.prevPixel
  {
  }

  /** A point inside the region becomes the previous pixel; it stamps exactly when
      there was a previous pixel, with its carried altitude plus the elevation. */
  lemma InsidePointIsProjected(s: Setup, st: GpsState, point: Point)
    requires InRegion(s.frame, point.latitude, point.longitude)
    ensures var t := StepPoint(s, st, point);
      t.state.prevPixel == Some(PixelOf(s.frame, point.latitude, point.longitude)) &&
      (|t.stamps| == 1 <==> st.prevPixel.Some?) && |t.stamps| <= 1 &&
      (t.stamps != [] ==> t.stamps[0].value == t.state.prevAlt + Trunc(s.elevationDelta) as real)
  {
  }

  lemma FloorIsInRange(x: real, n: int)
    requires 0.0 <= x < n as real
    ensures 0 <= x.Floor < n
  {
  }

  /** A distance within the extent lands on one of the axis's pixels. */
  lemma PixelIndexInRange(distance: real, delta: real, n: int)
    requires 0.0 <= distance < delta && n >= 1
    ensures 0 <= PixelIndex(distance, delta, n) < n
  {
    var q := distance / delta;
    assert q * delta == distance;
    QuotientIsNonNegative(distance, delta);
    assert (1.0 - q) * delta == delta - distance;
    PositiveFactor(1.0 - q, delta);
    var m := n as real;
    ProductOfNonNegatives(q, m);
    assert m - q * m == (1.0 - q) * m;
    ProductOfPositives(1.0 - q, m);
    FloorIsInRange(q * m, n);
  }

  predicate PixelInFrame(f: Frame, p: Pixel)
  {
    0 <= p.0 < f.rows && 0 <= p.1 < f.cols
  }

  /** Every point inside the region projects into the grid. */
  lemma PixelOfLiesInGrid(f: Frame, lat: real, lng: real)
    requires InRegion(f, lat, lng) && f.rows >= 1 && f.cols >= 1
    ensures PixelInFrame(f, PixelOf(f, lat, lng))
  {
    PixelIndexInRange(AbsReal(lat - f.south), f.latDelta, f.rows);
    PixelIndexInRange(AbsReal(f.east - lng), f.lngDelta, f.cols);
  }

  /** An offset cell inside the grid is stamped where it is: the clamp only moves
      cells beyond the last row or column. */
  lemma InsideOffsetIsExact(f: Frame, pixel: Pixel, offset: Pixel)
    requires 0 <= f.rows - pixel.0 + offset.1 < f.rows && 0 <= f.cols - pixel.1 + offset.0 < f.cols
    ensures CellOf(f, pixel, offset) == (f.rows - pixel.0 + offset.1, f.cols - pixel.1 + offset.0)
  {
  }

  /** Cells beyond the last row or column are stamped on it: there is no clamp below. */
  lemma BeyondOffsetIsClamped(f: Frame, pixel: Pixel, offset: Pixel)
    requires f.rows >= 1 && f.cols >= 1
    ensures f.rows - pixel.0 + offset.1 >= f.rows ==> CellOf(f, pixel, offset).0 == f.rows - 1
    ensures f.cols - pixel.1 + offset.0 >= f.cols ==> CellOf(f, pixel, offset).1 == f.cols - 1
    ensures f.rows - pixel.0 + offset.1 < 0 ==> CellOf(f, pixel, offset).0 == f.rows - pixel.0 + offset.1 + f.rows
  {
  }

  /** For a pixel in the grid and an offset no longer than the radius, where the
      radius is at most one more than each side, the cell is in the grid. */
  lemma CellFits(f: Frame, pixel: Pixel, offset: Pixel, radius: int)
    requires PixelInFrame(f, pixel) && Abs(offset.0) <= radius && Abs(offset.1) <= radius
    requires radius <= f.rows + 1 && radius <= f.cols + 1
    ensures PixelInFrame(f, CellOf(f, pixel, offset))
  {
  }

  /** A cell is covered by a line stamping exactly when it is the cell of some circle
      offset around some pixel of the line. */
  lemma {:induction false} LineCellsAreCircleCells(f: Frame, line: seq<Pixel>, circle: set<Pixel>, cell: Pixel)
    ensures cell in LineCells(f, line, circle) <==>
      exists k, offset :: 0 <= k < |line| && offset in circle && cell == CellOf(f, line[k], offset)
  {
    if line != [] {
      var n := |line| - 1;
      LineCellsAreCircleCells(f, line[..n], circle, cell);
      if cell in LineCells(f, line, circle) {
        if cell in LineCells(f, line[..n], circle) {
          var k, offset :| 0 <= k < n && offset in circle && cell == CellOf(f, line[..n][k], offset);
          assert line[k] == line[..n][k];
        } else {
          var offset :| offset in circle && cell == CellOf(f, line[n], offset);
        }
      }
      if exists k, offset :: 0 <= k < |line| && offset in circle && cell == CellOf(f, line[k], offset) {
        var k, offset :| 0 <= k < |line| && offset in circle && cell == CellOf(f, line[k], offset);
        if k < n {
          assert line[..n][k] == line[k];
        }
      }
    }
  }

  lemma CircleCellsInsert(f: Frame, pixel: Pixel, circle: set<Pixel>, offset: Pixel)
    ensures CircleCells(f, pixel, circle + {offset}) == CircleCells(f, pixel, circle) + {CellOf(f, pixel, offset)}
  {
  }

  /** Every cell of a line stamping lies in the grid when the line does and the
      radius is at most one more than each side of the grid. */
  lemma LineCellsFit(f: Frame, line: seq<Pixel>, radius: int, cell: Pixel)
    requires forall k | 0 <= k < |line| :: PixelInFrame(f, line[k])
    requires radius <= f.rows + 1 && radius <= f.cols + 1
    requires cell in LineCells(f, line, Raster.CirclePoints(radius))
    ensures PixelInFrame(f, cell)
  {
    LineCellsAreCircleCells(f, line, Raster.CirclePoints(radius), cell);
    var k, offset :| 0 <= k < |line| && offset in Raster.CirclePoints(radius) && cell == CellOf(f, line[k], offset);
    Raster.CircleIsBounded(radius, offset);
    CellFits(f, line[k], offset, radius);
  }

  /** Stamping two runs one after the other is stamping their concatenation. */
  lemma {:induction false} PaintedAppend(s1: seq<Stamp>, s2: seq<Stamp>, cell: Pixel, before: real)
    ensures Painted(s1 + s2, cell, before) == Painted(s2, cell, Painted(s1, cell, before))
    decreases |s2|
  {
    if s2 == [] {
      assert s1 + s2 == s1;
    } else {
      var n := |s2| - 1;
      assert (s1 + s2)[..|s1 + s2| - 1] == s1 + s2[..n];
      assert (s1 + s2)[|s1 + s2| - 1] == s2[n];
      PaintedAppend(s1, s2[..n], cell, before);
    }
  }

  /** A cell no stamping covers keeps its value; otherwise it holds the value of the
      last stamping that covers it. */
  lemma {:induction false} PaintedIsLastStamp(stamps: seq<Stamp>, cell: Pixel, before: real)
    ensures (forall k | 0 <= k < |stamps| :: cell !in stamps[k].cells) ==> Painted(stamps, cell, before) == before
    ensures forall k | 0 <= k < |stamps| && cell in stamps[k].cells &&
                       (forall m | k < m < |stamps| :: cell !in stamps[m].cells) ::
              Painted(stamps, cell, before) == stamps[k].value
  {
    if stamps != [] {
      var n := |stamps| - 1;
      var init := stamps[..n];
      PaintedIsLastStamp(init, cell, before);
      assert forall k | 0 <= k < n :: init[k] == stamps[k];
    }
  }

  /** Processing two runs of points one after the other is processing their
      concatenation. */
  lemma {:induction false} OverlayAppend(s: Setup, st: GpsState, xs: seq<Point>, ys: seq<Point>)
    ensures var t1 := Overlay(s, st, xs);
      var t2 := Overlay(s, t1.state, ys);
      Overlay(s, st, xs + ys) == Trace(t2.state, t1.stamps + t2.stamps)
    decreases |ys|
  {
    if ys == [] {
      assert xs + ys == xs;
    } else {
      var n := |ys| - 1;
      assert (xs + ys)[..|xs + ys| - 1] == xs + ys[..n];
      assert (xs + ys)[|xs + ys| - 1] == ys[n];
      OverlayAppend(s, st, xs, ys[..n]);
      var t1 := Overlay(s, st, xs);
      var t2 := Overlay(s, t1.state, ys[..n]);
      var u := StepPoint(s, t2.state, ys[n]);
      assert t1.stamps + t2.stamps + u.stamps == t1.stamps + (t2.stamps + u.stamps);
    }
  }

  /** The altitude the loop carries is the starting one or the truthy altitude of one
      of the points, and every stamping's value is such an altitude plus the
      elevation. */
  lemma {:induction false} StampValueIsCarriedAltitude(s: Setup, st: GpsState, points: seq<Point>)
    ensures CarriedFrom(s, st, points, Overlay(s, st, points).state.prevAlt)
    ensures forall k | 0 <= k < |Overlay(s, st, points).stamps| ::
      CarriedFrom(s, st, points, Overlay(s, st, points).stamps[k].value - Trunc(s.elevationDelta) as real)
  {
    if points != [] {
      var n := |points| - 1;
      var init := points[..n];
      StampValueIsCarriedAltitude(s, st, init);
      var t := Overlay(s, st, init);
      var u := StepPoint(s, t.state, points[n]);
      assert forall i | 0 <= i < n :: init[i] == points[i];
      CarriedFromPrefix(s, st, points, t.state.prevAlt);
      forall k | 0 <= k < |t.stamps|
        ensures CarriedFrom(s, st, points, t.stamps[k].value - Trunc(s.elevationDelta) as real)
      {
        CarriedFromPrefix(s, st, points, t.stamps[k].value - Trunc(s.elevationDelta) as real);
      }
      var a := s.altitude(points[n].latitude, points[n].longitude);
      if Truthy(a) {
        assert CarriedFrom(s, st, points, a.value) by {
          assert AltitudeAt(s, points, n, a.value);
        }
      }
    }
  }

  /** Point i of `points` has the truthy altitude v. */
  predicate AltitudeAt(s: Setup, points: seq<Point>, i: int, v: real)
  {
    0 <= i < |points| && s.altitude(points[i].latitude, points[i].longitude) == Some(v) && v != 0.0
  }

  ghost predicate CarriedFrom(s: Setup, st: GpsState, points: seq<Point>, v: real)
  {
    v == st.prevAlt || exists i :: AltitudeAt(s, points, i, v)
  }

  lemma CarriedFromPrefix(s: Setup, st: GpsState, points: seq<Point>, v: real)
    requires points != [] && CarriedFrom(s, st, points[..|points| - 1], v)
    ensures CarriedFrom(s, st, points, v)
  {
    if v != st.prevAlt {
      var i :| AltitudeAt(s, points[..|points| - 1], i, v);
      assert points[..|points| - 1][i] == points[i];
      assert AltitudeAt(s, points, i, v);
    }
  }

  // ---------------------------------------------------------------------------
  // The stamping loops
  // ---------------------------------------------------------------------------

  /** The grid has the frame's shape and at least one row and one column, and the
      circle radius is at most one more than each side, so that every stamped index
      numpy is given is valid. */
  predicate Ready(s: Setup, grid: array2<real>)
  {
    grid.Length0 == s.frame.rows && grid.Length1 == s.frame.cols &&
    s.frame.rows >= 1 && s.frame.cols >= 1 &&
    Trunc(s.thickness) <= s.frame.rows + 1 && Trunc(s.thickness) <= s.frame.cols + 1
  }

  predicate StateFits(f: Frame, st: GpsState)
  {
    st.prevPixel.Some? ==> PixelInFrame(f, st.prevPixel.value)
  }

  /** The contents of a grid as a value, row by row. */
  ghost function Snapshot(grid: array2<real>): (r: seq<seq<real>>)
    reads grid
    ensures |r| == grid.Length0
    ensures forall i | 0 <= i < grid.Length0 :: |r[i]| == grid.Length1
    ensures forall i, j | 0 <= i < grid.Length0 && 0 <= j < grid.Length1 :: r[i][j] == grid[i, j]
  {
    seq(grid.Length0, i requires 0 <= i < grid.Length0 reads grid =>
      seq(grid.Length1, j requires 0 <= j < grid.Length1 reads grid => grid[i, j]))
  }

  /** The grid holds `value` in `cells` and the snapshot's contents everywhere else. */
  ghost predicate Stamped(grid: array2<real>, before: seq<seq<real>>, cells: set<Pixel>, value: real)
    reads grid
  {
    |before| == grid.Length0 && (forall i | 0 <= i < grid.Length0 :: |before[i]| == grid.Length1) &&
    forall i, j | 0 <= i < grid.Length0 && 0 <= j < grid.Length1 ::
      grid[i, j] == if (i, j) in cells then value else before[i][j]
  }

  /** Writes `value` into one cell, which joins the stamped cells. */
  method StampCell(grid: array2<real>, cell: Pixel, value: real, ghost before: seq<seq<real>>, ghost cells: set<Pixel>)
    requires 0 <= cell.0 < grid.Length0 && 0 <= cell.1 < grid.Length1
    requires Stamped(grid, before, cells, value)
    modifies grid
    ensures Stamped(grid, before, cells + {cell}, value)
  {
    grid[cell.0, cell.1] := value;
  }

  /** Writes `value` into every cell the circle of `radius` around `pixel` covers. */
  method StampCircle(grid: array2<real>, f: Frame, pixel: Pixel, radius: int, value: real)
    requires grid.Length0 == f.rows && grid.Length1 == f.cols && PixelInFrame(f, pixel)
    requires radius <= f.rows + 1 && radius <= f.cols + 1
    modifies grid
    ensures forall i, j | 0 <= i < grid.Length0 && 0 <= j < grid.Length1 ::
      grid[i, j] == if (i, j) in CircleCells(f, pixel, Raster.CirclePoints(radius)) then value else old(grid[i, j])
  {
    var circ := Raster.Circle(radius);
    var pixelY := f.rows - pixel.0;
    var pixelX := f.cols - pixel.1;
    var remaining := circ;
    ghost var before := Snapshot(grid);
    ghost var done: set<Pixel> := {};
    while remaining != {}
      invariant done + remaining == circ
      invariant Stamped(grid, before, CircleCells(f, pixel, done), value)
      decreases |remaining|
    {
      var offset :| offset in remaining;
      // the clamp keeps indices below the axis length; numpy reads a negative index
      // from the end of the axis
      var circX := NumpyIndex(ClampAbove(pixelX + offset.0, f.cols), f.cols);
      var circY := NumpyIndex(ClampAbove(pixelY + offset.1, f.rows), f.rows);
      assert circY == CellOf(f, pixel, offset).0;
      assert circX == CellOf(f, pixel, offset).1;
      Raster.CircleIsBounded(radius, offset);
      CellFits(f, pixel, offset, radius);
      StampCell(grid, (circY, circX), value, before, CircleCells(f, pixel, done));
      CircleCellsInsert(f, pixel, done, offset);
      done := done + {offset};
      remaining := remaining - {offset};
    }
  }

  /** Stamps a circle around every pixel of `line`, in order. */
  method StampLine(grid: array2<real>, f: Frame, line: seq<Pixel>, radius: int, value: real)
    requires grid.Length0 == f.rows && grid.Length1 == f.cols
    requires forall k | 0 <= k < |line| :: PixelInFrame(f, line[k])
    requires radius <= f.rows + 1 && radius <= f.cols + 1
    modifies grid
    ensures forall i, j | 0 <= i < grid.Length0 && 0 <= j < grid.Length1 ::
      grid[i, j] == if (i, j) in LineCells(f, line, Raster.CirclePoints(radius)) then value else old(grid[i, j])
  {
    var k := 0;
    while k < |line|
      invariant 0 <= k <= |line|
      invariant forall i, j | 0 <= i < grid.Length0 && 0 <= j < grid.Length1 ::
        grid[i, j] == if (i, j) in LineCells(f, line[..k], Raster.CirclePoints(radius)) then value else old(grid[i, j])
    {
      assert line[..k + 1][..k] == line[..k];
      StampCircle(grid, f, line[k], radius, value);
      k := k + 1;
    }
    assert line[..k] == line;
  }

  /** Processes one track point. */
  method OverlayPoint(grid: array2<real>, s: Setup, st: GpsState, point: Point) returns (st': GpsState)
    requires Ready(s, grid) && StateFits(s.frame, st)
    modifies grid
    ensures st' == StepPoint(s, st, point).state && StateFits(s.frame, st')
    ensures forall i, j | 0 <= i < grid.Length0 && 0 <= j < grid.Length1 ::
      grid[i, j] == Painted(StepPoint(s, st, point).stamps, (i, j), old(grid[i, j]))
  {
    var f := s.frame;
    var pLat, pLng := point.latitude, point.longitude;
    var alt := s.altitude(pLat, pLng);
    var a: real;
    var prevAlt := st.prevAlt;
    if !(alt.Some? && alt.value != 0.0) {
      a := prevAlt;
    } else {
      a := alt.value;
      prevAlt := alt.value;
    }
    var latPt := AbsReal(pLat - f.south);
    var lngPt := AbsReal(f.east - pLng);
    st' := GpsState(st.prevPixel, prevAlt);
    if latPt < f.latDelta && lngPt < f.lngDelta {
      var pixelLat := PixelIndex(latPt, f.latDelta, f.rows);
      var pixelLng := PixelIndex(lngPt, f.lngDelta, f.cols);
      PixelOfLiesInGrid(f, pLat, pLng);
      if st.prevPixel.Some? {
        var prev := st.prevPixel.value;
        var coords := Raster.BresenhamLine((pixelLat, pixelLng), prev);
        forall k | 0 <= k < |coords|
          ensures PixelInFrame(f, coords[k])
        {
          Raster.LineStaysInBox((pixelLat, pixelLng), prev, k);
        }
        StampLine(grid, f, coords, Trunc(s.thickness), a + Trunc(s.elevationDelta) as real);
      }
      st' := GpsState(Some((pixelLat, pixelLng)), prevAlt);
    }
  }

  /** Processes the points of one segment in order. */
  method OverlaySegment(grid: array2<real>, s: Setup, st: GpsState, segment: Segment) returns (st': GpsState)
    requires Ready(s, grid) && StateFits(s.frame, st)
    modifies grid
    ensures st' == Overlay(s, st, segment.points).state && StateFits(s.frame, st')
    ensures forall i, j | 0 <= i < grid.Length0 && 0 <= j < grid.Length1 ::
      grid[i, j] == Painted(Overlay(s, st, segment.points).stamps, (i, j), old(grid[i, j]))
  {
    var points := segment.points;
    st' := st;
    var k := 0;
    while k < |points|
      invariant 0 <= k <= |points|
      invariant st' == Overlay(s, st, points[..k]).state && StateFits(s.frame, st')
      invariant forall i, j | 0 <= i < grid.Length0 && 0 <= j < grid.Length1 ::
        grid[i, j] == Painted(Overlay(s, st, points[..k]).stamps, (i, j), old(grid[i, j]))
    {
      assert points[..k + 1][..k] == points[..k];
      ghost var done := Overlay(s, st, points[..k]).stamps;
      ghost var next := StepPoint(s, st', points[k]).stamps;
      st' := OverlayPoint(grid, s, st', points[k]);
      forall i, j | 0 <= i < grid.Length0 && 0 <= j < grid.Length1
        ensures grid[i, j] == Painted(done + next, (i, j), old(grid[i, j]))
      {
        PaintedAppend(done, next, (i, j), old(grid[i, j]));
      }
      k := k + 1;
    }
    assert points[..k] == points;
  }

  /** Processes the segments of one track in order. */
  method OverlayTrack(grid: array2<real>, s: Setup, st: GpsState, track: Track) returns (st': GpsState)
    requires Ready(s, grid) && StateFits(s.frame, st)
    modifies grid
    ensures st' == Overlay(s, st, SegmentPoints(track.segments)).state && StateFits(s.frame, st')
    ensures forall i, j | 0 <= i < grid.Length0 && 0 <= j < grid.Length1 ::
      grid[i, j] == Painted(Overlay(s, st, SegmentPoints(track.segments)).stamps, (i, j), old(grid[i, j]))
  {
    var segments := track.segments;
    st' := st;
    var k := 0;
    while k < |segments|
      invariant 0 <= k <= |segments|
      invariant st' == Overlay(s, st, SegmentPoints(segments[..k])).state && StateFits(s.frame, st')
      invariant forall i, j | 0 <= i < grid.Length0 && 0 <= j < grid.Length1 ::
        grid[i, j] == Painted(Overlay(s, st, SegmentPoints(segments[..k])).stamps, (i, j), old(grid[i, j]))
    {
      assert segments[..k + 1][..k] == segments[..k];
      ghost var done := Overlay(s, st, SegmentPoints(segments[..k])).stamps;
      ghost var next := Overlay(s, st', segments[k].points).stamps;
      OverlayAppend(s, st, SegmentPoints(segments[..k]), segments[k].points);
      st' := OverlaySegment(grid, s, st', segments[k]);
      forall i, j | 0 <= i < grid.Length0 && 0 <= j < grid.Length1
        ensures grid[i, j] == Painted(done + next, (i, j), old(grid[i, j]))
      {
        PaintedAppend(done, next, (i, j), old(grid[i, j]));
      }
      k := k + 1;
    }
    assert segments[..k] == segments;
  }

  /** Processes every track in order, from the starting state: no previous pixel and
      a previous altitude of 0. */
  method OverlayTracks(grid: array2<real>, s: Setup, tracks: seq<Track>)
    requires Ready(s, grid)
    modifies grid
    ensures forall i, j | 0 <= i < grid.Length0 && 0 <= j < grid.Length1 ::
      grid[i, j] == Painted(Overlay(s, START_STATE, TrackPoints(tracks)).stamps, (i, j), old(grid[i, j]))
  {
    var st := START_STATE;
    var k := 0;
    while k < |tracks|
      invariant 0 <= k <= |tracks|
      invariant st == Overlay(s, START_STATE, TrackPoints(tracks[..k])).state && StateFits(s.frame, st)
      invariant forall i, j | 0 <= i < grid.Length0 && 0 <= j < grid.Length1 ::
        grid[i, j] == Painted(Overlay(s, START_STATE, TrackPoints(tracks[..k])).stamps, (i, j), old(grid[i, j]))
    {
      assert tracks[..k + 1][..k] == tracks[..k];
      ghost var done := Overlay(s, START_STATE, TrackPoints(tracks[..k])).stamps;
      ghost var next := Overlay(s, st, SegmentPoints(tracks[k].segments)).stamps;
      OverlayAppend(s, START_STATE, TrackPoints(tracks[..k]), SegmentPoints(tracks[k].segments));
      st := OverlayTrack(grid, s, st, tracks[k]);
      forall i, j | 0 <= i < grid.Length0 && 0 <= j < grid.Length1
        ensures grid[i, j] == Painted(done + next, (i, j), old(grid[i, j]))
      {
        PaintedAppend(done, next, (i, j), old(grid[i, j]));
      }
      k := k + 1;
    }
    assert tracks[..k] == tracks;
  }
}
