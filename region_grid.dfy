/** The rules both Region classes share: the aspect ratio and the sample counts and
    intervals derived from the bounding box, the south-to-north sampling walk that
    fills the grid and tracks the highest and lowest sample, and contour
    quantisation of the grid. */
module RegionGrid {
  import opened Wrappers
  import opened Arithmetic

  /** ZeroDivision is Python's ZeroDivisionError; NegativeDimensions is numpy's
      refusal to allocate a grid with a negative side. */
  datatype GridError = ZeroDivision | NegativeDimensions

  function AbsReal(a: real): (r: real)
    ensures r >= 0.0 && (r == a || r == -a)
  {
    if a < 0.0 then -a else a
  }

  function MinReal(a: real, b: real): real
  {
    if a <= b then a else b
  }

  /** Python's `math.ceil`. */
  function Ceil(a: real): (n: int)
    ensures a <= n as real < a + 1.0
  {
    -((-a).Floor)
  }

  // ---------------------------------------------------------------------------
  // Box geometry
  // ---------------------------------------------------------------------------

  /** The ratio of the latitude extent to the longitude extent. */
  function AspectRatio(latDelta: real, lngDelta: real): (r: Result<real, GridError>)
    ensures r.Err? <==> lngDelta == 0.0
    ensures r.Err? ==> r.error == ZeroDivision
    ensures r.Ok? ==> r.value * lngDelta == latDelta
  {
    if lngDelta == 0.0 then Err(ZeroDivision) else Ok(latDelta / lngDelta)
  }

  /** The padding added to the box: `pct` percent of its smaller extent. */
  function Padding(latDelta: real, lngDelta: real, pct: real): (p: real)
    ensures p == MinReal(latDelta, lngDelta) * (pct / 100.0)
  {
    if latDelta < lngDelta then latDelta * (pct / 100.0) else lngDelta * (pct / 100.0)
  }

  datatype Bounds = Bounds(north: real, east: real, south: real, west: real)

  function LatDelta(b: Bounds): real
  {
    AbsReal(b.north - b.south)
  }

  function LngDelta(b: Bounds): real
  {
    AbsReal(b.east - b.west)
  }

  /** Each bound moves outward by half the padding. */
  function Pad(b: Bounds, padding: real): (r: Bounds)
    ensures r.north - r.south == b.north - b.south + padding
    ensures r.east - r.west == b.east - b.west + padding
    ensures (r.north + r.south) == (b.north + b.south) && (r.east + r.west) == (b.east + b.west)
  {
    Bounds(b.north + padding / 2.0, b.east + padding / 2.0, b.south - padding / 2.0, b.west - padding / 2.0)
  }

  /** For a box given north of south and east of west, padding keeps it centred and
      adds the padding to both extents; a non-negative padding keeps the orientation
      of the box (taller than wide or not) and moves the aspect ratio toward 1. */
  lemma PaddingWidensTheBox(b: Bounds, pct: real)
    requires b.south <= b.north && b.west < b.east && pct >= 0.0
    ensures var p := Padding(LatDelta(b), LngDelta(b), pct);
      var r := Pad(b, p);
      p >= 0.0 && LatDelta(r) == LatDelta(b) + p && LngDelta(r) == LngDelta(b) + p &&
      AspectRatio(LatDelta(r), LngDelta(r)).Ok? &&
      (AspectRatio(LatDelta(r), LngDelta(r)).value > 1.0 <==> AspectRatio(LatDelta(b), LngDelta(b)).value > 1.0) &&
      (AspectRatio(LatDelta(b), LngDelta(b)).value <= 1.0 ==>
        AspectRatio(LatDelta(b), LngDelta(b)).value <= AspectRatio(LatDelta(r), LngDelta(r)).value <= 1.0) &&
      (AspectRatio(LatDelta(b), LngDelta(b)).value >= 1.0 ==>
        1.0 <= AspectRatio(LatDelta(r), LngDelta(r)).value <= AspectRatio(LatDelta(b), LngDelta(b)).value)
  {
    var a, g := LatDelta(b), LngDelta(b);
    var p := Padding(a, g, pct);
    assert p >= 0.0 by {
      ProductOfNonNegatives(MinReal(a, g), pct / 100.0);
    }
    var r := Pad(b, p);
    assert LatDelta(r) == a + p && LngDelta(r) == g + p;
    assert AspectRatio(a, g) == Ok(a / g);
    assert AspectRatio(a + p, g + p) == Ok((a + p) / (g + p));
    RatioMovesTowardOne(a, g, p);
  }

  lemma ProductOfNonNegatives(x: real, y: real)
    requires x >= 0.0 && y >= 0.0
    ensures x * y >= 0.0
  {
  }

  /** Fractions with positive denominators compare as their cross products. */
  lemma CompareFractions(x1: real, y1: real, x2: real, y2: real)
    requires y1 > 0.0 && y2 > 0.0
    ensures x1 / y1 <= x2 / y2 <==> x1 * y2 <= x2 * y1
  {
    var f1, f2 := x1 / y1, x2 / y2;
    var d := y1 * y2;
    ProductOfPositives(y1, y2);
    assert x2 * y1 - x1 * y2 == (f2 - f1) * d by {
      assert f1 * y1 == x1 && f2 * y2 == x2;
    }
    if f1 <= f2 {
      ProductOfNonNegatives(f2 - f1, d);
    }
    if x1 * y2 <= x2 * y1 {
      SignOfFactor(f2 - f1, d);
    }
  }

  /** (a + p) / (g + p) lies between a / g and 1 and on the same side of 1. */
  lemma RatioMovesTowardOne(a: real, g: real, p: real)
    requires a >= 0.0 && g > 0.0 && p >= 0.0
    ensures (a + p) / (g + p) > 1.0 <==> a / g > 1.0
    ensures a / g <= 1.0 ==> a / g <= (a + p) / (g + p) <= 1.0
    ensures a / g >= 1.0 ==> 1.0 <= (a + p) / (g + p) <= a / g
  {
    CompareFractions(a, g, a + p, g + p);
    CompareFractions(a + p, g + p, a, g);
    CompareFractions(a + p, g + p, 1.0, 1.0);
    CompareFractions(1.0, 1.0, a + p, g + p);
    CompareFractions(a, g, 1.0, 1.0);
    CompareFractions(1.0, 1.0, a, g);
    assert a * (g + p) - (a + p) * g == p * (a - g);
    if a <= g {
      ProductOfNonNegatives(p, g - a);
    } else {
      ProductOfNonNegatives(p, a - g);
    }
  }

  lemma ProductOfPositives(x: real, y: real)
    requires x > 0.0 && y > 0.0
    ensures x * y > 0.0
  {
  }

  /** A factor whose product with a positive number is non-negative is non-negative. */
  lemma SignOfFactor(x: real, d: real)
    requires d > 0.0 && x * d >= 0.0
    ensures x >= 0.0
  {
  }

  lemma PositiveFactor(x: real, d: real)
    requires d > 0.0 && x * d > 0.0
    ensures x > 0.0
  {
  }

  lemma QuotientIsNonNegative(x: real, d: real)
    requires x >= 0.0 && d > 0.0
    ensures x / d >= 0.0
  {
  }

  lemma DivIsMonotonic(u: real, v: real, d: real)
    requires d > 0.0 && u <= v
    ensures u / d <= v / d
  {
    assert (v / d - u / d) * d == v - u;
    SignOfFactor(v / d - u / d, d);
  }

  lemma FloorIsMonotonic(a: real, b: real)
    requires a <= b
    ensures a.Floor <= b.Floor
  {
  }

  // ---------------------------------------------------------------------------
  // Sample counts and intervals
  // ---------------------------------------------------------------------------

  /** The numbers of latitude and longitude samples.  When the aspect ratio is above
      1 the longitude axis gets `resolution` samples and the latitude axis the
      truncated quotient, otherwise the other way round; the division by a zero
      aspect ratio fails. */
  function SampleCounts(resolution: int, aspect: real): (r: Result<(int, int), GridError>)
    ensures r.Err? <==> aspect == 0.0
    ensures r.Err? ==> r.error == ZeroDivision
  {
    if aspect > 1.0 then Ok((Trunc(resolution as real / aspect), resolution))
    else if aspect == 0.0 then Err(ZeroDivision)
    else Ok((resolution, Trunc(resolution as real / aspect)))
  }

  /** For a non-negative resolution the axis named by the rule gets exactly
      `resolution` samples and the other the whole part of resolution / aspect:
      fewer latitude samples when the aspect ratio is above 1, as many or more
      longitude samples when it is in (0, 1]. */
  lemma SampleCountsRule(resolution: int, aspect: real)
    requires resolution >= 0 && aspect > 0.0
    ensures var (lat, lng) := SampleCounts(resolution, aspect).value;
      var q := resolution as real / aspect;
      (aspect > 1.0 ==> lng == resolution && 0 <= lat <= resolution && lat as real <= q < lat as real + 1.0) &&
      (aspect <= 1.0 ==> lat == resolution && resolution <= lng && lng as real <= q < lng as real + 1.0)
  {
    var q := resolution as real / aspect;
    assert q * aspect == resolution as real;
    QuotientIsNonNegative(resolution as real, aspect);
    if aspect > 1.0 {
      assert resolution as real - q == q * (aspect - 1.0);
      ProductOfNonNegatives(q, aspect - 1.0);
    } else {
      assert q - resolution as real == q * (1.0 - aspect);
      ProductOfNonNegatives(q, 1.0 - aspect);
    }
  }

  /** The layout of the sample grid: its rows and columns and the spacing of
      samples in degrees. */
  datatype Layout = Layout(latPoints: int, lngPoints: int, latInterval: real, lngInterval: real)

  /** Sample counts, intervals and the check numpy makes when the grid is allocated,
      in the order the source runs them. */
  function PlanLayout(resolution: int, aspect: real, latDelta: real, lngDelta: real): (r: Result<Layout, GridError>)
    ensures r.Ok? <==> (aspect != 0.0 && SampleCounts(resolution, aspect).value.0 > 0 &&
                        SampleCounts(resolution, aspect).value.1 > 0)
    ensures (r.Err? && aspect != 0.0 && SampleCounts(resolution, aspect).value.0 != 0 &&
             SampleCounts(resolution, aspect).value.1 != 0) ==> r.error == NegativeDimensions
    ensures r.Ok? ==> (r.value.latPoints, r.value.lngPoints) == SampleCounts(resolution, aspect).value
    ensures r.Ok? ==> r.value.latInterval * r.value.latPoints as real == latDelta
    ensures r.Ok? ==> r.value.lngInterval * r.value.lngPoints as real == lngDelta
  {
    match SampleCounts(resolution, aspect)
    case Err(e) => Err(e)
    case Ok((lat, lng)) =>
      if lng == 0 || lat == 0 then Err(ZeroDivision)
      else if lat < 0 || lng < 0 then Err(NegativeDimensions)
      else Ok(Layout(lat, lng, latDelta / lat as real, lngDelta / lng as real))
  }

  /** Every sample the walk takes lies strictly inside the box's latitude range. */
  lemma SamplesInsideBox(south: real, latDelta: real, layout: Layout, y: int)
    requires latDelta > 0.0 && layout.latPoints > 0
    requires layout.latInterval * layout.latPoints as real == latDelta
    requires 1 <= y < layout.latPoints
    ensures south < south + y as real * layout.latInterval < south + latDelta
  {
    var i := layout.latInterval;
    PositiveFactor(i, layout.latPoints as real);
    ProductOfPositives(y as real, i);
    ProductOfPositives((layout.latPoints - y) as real, i);
    assert layout.latPoints as real * i - y as real * i == (layout.latPoints - y) as real * i;
  }

  // ---------------------------------------------------------------------------
  // The sampling walk
  // ---------------------------------------------------------------------------

  /** Where the walk samples: the south-west corner, the spacing and the grid's
      rows and columns. */
  datatype Sampling = Sampling(south: real, west: real, latInterval: real, lngInterval: real, rows: nat, cols: nat)

  function SampleLat(g: Sampling, y: int): real
  {
    g.south + y as real * g.latInterval
  }

  function SampleLng(g: Sampling, x: int): real
  {
    g.west + x as real * g.lngInterval
  }

  /** Python truthiness of an altitude: neither None nor zero. */
  predicate Truthy(a: Option<real>)
  {
    a.Some? && a.value != 0.0
  }

  /** The highest or lowest sample so far and where it was taken. */
  datatype Extreme = Extreme(alt: real, lat: Option<real>, lng: Option<real>)

  datatype Walk = Walk(peak: Extreme, valley: Extreme)

  const INITIAL_WALK: Walk := Walk(Extreme(0.0, None, None), Extreme(32767.0, None, None))

  /** One sample: a truthy altitude replaces the valley if strictly lower and the
      peak if strictly higher. */
  function VisitSample(altitude: (real, real) -> Option<real>, g: Sampling, w: Walk, y: int, x: int): Walk
  {
    var lat := SampleLat(g, y);
    var lng := SampleLng(g, x);
    var a := altitude(lat, lng);
    if !Truthy(a) then w
    else
      var valley := if a.value < w.valley.alt then Extreme(a.value, Some(lat), Some(lng)) else w.valley;
      var peak := if a.value > w.peak.alt then Extreme(a.value, Some(lat), Some(lng)) else w.peak;
      Walk(peak, valley)
  }

  /** Row y from column x to the end. */
  function WalkRowFrom(altitude: (real, real) -> Option<real>, g: Sampling, w: Walk, y: int, x: nat): Walk
    decreases g.cols - x
  {
    if x >= g.cols then w else WalkRowFrom(altitude, g, VisitSample(altitude, g, w, y, x), y, x + 1)
  }

  /** Rows y to the end, each from column 1. */
  function WalkRowsFrom(altitude: (real, real) -> Option<real>, g: Sampling, w: Walk, y: nat): Walk
    decreases g.rows - y
  {
    if y >= g.rows then w else WalkRowsFrom(altitude, g, WalkRowFrom(altitude, g, w, y, 1), y + 1)
  }

  /** The whole walk: rows 1 .. rows-1, columns 1 .. cols-1. */
  function WalkGrid(altitude: (real, real) -> Option<real>, g: Sampling, w: Walk): Walk
  {
    WalkRowsFrom(altitude, g, w, 1)
  }

  /** What the walk writes into cell (r, c): the altitude sampled for row rows - r
      when it is truthy, for cells outside row 0 and column 0. */
  function SampledCell(altitude: (real, real) -> Option<real>, g: Sampling, before: real, r: int, c: int): real
  {
    var a := altitude(SampleLat(g, g.rows - r), SampleLng(g, c));
    if 1 <= r < g.rows && 1 <= c < g.cols && Truthy(a) then a.value else before
  }

  /** Row 0, column 0 and cells whose altitude is falsy keep their value. */
  lemma SampledCellSkipsBorder(altitude: (real, real) -> Option<real>, g: Sampling, before: real, r: int, c: int)
    requires r == 0 || c == 0 || !Truthy(altitude(SampleLat(g, g.rows - r), SampleLng(g, c)))
    ensures SampledCell(altitude, g, before, r, c) == before
  {
  }

  predicate Extends(w: Walk, w': Walk)
  {
    w'.peak.alt >= w.peak.alt && w'.valley.alt <= w.valley.alt
  }

  predicate Covers(w: Walk, v: real)
  {
    w.valley.alt <= v <= w.peak.alt
  }

  lemma {:induction false} RowExtends(altitude: (real, real) -> Option<real>, g: Sampling, w: Walk, y: int, x: nat)
    ensures Extends(w, WalkRowFrom(altitude, g, w, y, x))
    decreases g.cols - x
  {
    if x < g.cols {
      RowExtends(altitude, g, VisitSample(altitude, g, w, y, x), y, x + 1);
    }
  }

  lemma {:induction false} RowsExtend(altitude: (real, real) -> Option<real>, g: Sampling, w: Walk, y: nat)
    ensures Extends(w, WalkRowsFrom(altitude, g, w, y))
    decreases g.rows - y
  {
    if y < g.rows {
      RowExtends(altitude, g, w, y, 1);
      RowsExtend(altitude, g, WalkRowFrom(altitude, g, w, y, 1), y + 1);
    }
  }

  lemma {:induction false} RowCovers(altitude: (real, real) -> Option<real>, g: Sampling, w: Walk, y: int, x: nat, x0: int)
    requires x <= x0 < g.cols && Truthy(altitude(SampleLat(g, y), SampleLng(g, x0)))
    ensures Covers(WalkRowFrom(altitude, g, w, y, x), altitude(SampleLat(g, y), SampleLng(g, x0)).value)
    decreases g.cols - x
  {
    var next := VisitSample(altitude, g, w, y, x);
    if x == x0 {
      RowExtends(altitude, g, next, y, x + 1);
    } else {
      RowCovers(altitude, g, next, y, x + 1, x0);
    }
  }

  lemma {:induction false} RowsCover(altitude: (real, real) -> Option<real>, g: Sampling, w: Walk, y: nat, y0: int, x0: int)
    requires y <= y0 < g.rows && 1 <= x0 < g.cols && Truthy(altitude(SampleLat(g, y0), SampleLng(g, x0)))
    ensures Covers(WalkRowsFrom(altitude, g, w, y), altitude(SampleLat(g, y0), SampleLng(g, x0)).value)
    decreases g.rows - y
  {
    var next := WalkRowFrom(altitude, g, w, y, 1);
    if y == y0 {
      RowCovers(altitude, g, w, y, 1, x0);
      RowsExtend(altitude, g, next, y + 1);
    } else {
      RowsCover(altitude, g, next, y + 1, y0, x0);
    }
  }

  /** After the walk the valley is at most and the peak at least every truthy
      sample, and at most / at least where they started. */
  lemma WalkBoundsSamples(altitude: (real, real) -> Option<real>, g: Sampling, w: Walk, y: int, x: int)
    requires 1 <= y < g.rows && 1 <= x < g.cols && Truthy(altitude(SampleLat(g, y), SampleLng(g, x)))
    ensures Covers(WalkGrid(altitude, g, w), altitude(SampleLat(g, y), SampleLng(g, x)).value)
    ensures Extends(w, WalkGrid(altitude, g, w))
  {
    RowsCover(altitude, g, w, 1, y, x);
    RowsExtend(altitude, g, w, 1);
  }

  /** e was sampled at (y, x): its altitude is the truthy sample there and its
      position the sample's. */
  predicate TakenAt(altitude: (real, real) -> Option<real>, g: Sampling, e: Extreme, y: int, x: int)
  {
    1 <= y < g.rows && 1 <= x < g.cols &&
    altitude(SampleLat(g, y), SampleLng(g, x)) == Some(e.alt) && e.alt != 0.0 &&
    e.lat == Some(SampleLat(g, y)) && e.lng == Some(SampleLng(g, x))
  }

  ghost predicate Attained(altitude: (real, real) -> Option<real>, g: Sampling, e: Extreme, start: Extreme)
  {
    e == start || exists y, x :: TakenAt(altitude, g, e, y, x)
  }

  ghost predicate WalkAttained(altitude: (real, real) -> Option<real>, g: Sampling, w: Walk, start: Walk)
  {
    Attained(altitude, g, w.peak, start.peak) && Attained(altitude, g, w.valley, start.valley)
  }

  lemma {:induction false} RowAttains(altitude: (real, real) -> Option<real>, g: Sampling, w: Walk, start: Walk, y: int, x: nat)
    requires 1 <= y < g.rows && 1 <= x && WalkAttained(altitude, g, w, start)
    ensures WalkAttained(altitude, g, WalkRowFrom(altitude, g, w, y, x), start)
    decreases g.cols - x
  {
    if x < g.cols {
      var next := VisitSample(altitude, g, w, y, x);
      if next.peak != w.peak {
        assert TakenAt(altitude, g, next.peak, y, x);
      }
      if next.valley != w.valley {
        assert TakenAt(altitude, g, next.valley, y, x);
      }
      RowAttains(altitude, g, next, start, y, x + 1);
    }
  }

  lemma {:induction false} RowsAttain(altitude: (real, real) -> Option<real>, g: Sampling, w: Walk, start: Walk, y: nat)
    requires 1 <= y && WalkAttained(altitude, g, w, start)
    ensures WalkAttained(altitude, g, WalkRowsFrom(altitude, g, w, y), start)
    decreases g.rows - y
  {
    if y < g.rows {
      RowAttains(altitude, g, w, start, y, 1);
      RowsAttain(altitude, g, WalkRowFrom(altitude, g, w, y, 1), start, y + 1);
    }
  }

  /** The peak and the valley are each either where they started or a truthy
      sample of the walk together with the position it was taken at. */
  lemma WalkAttainsExtremes(altitude: (real, real) -> Option<real>, g: Sampling, w: Walk)
    ensures WalkAttained(altitude, g, WalkGrid(altitude, g, w), w)
  {
    RowsAttain(altitude, g, w, w, 1);
  }

  /** Samples row y of the grid into row rows - y. */
  method SampleRow(grid: array2<real>, altitude: (real, real) -> Option<real>, g: Sampling, y: int, w: Walk)
    returns (w': Walk)
    requires grid.Length0 == g.rows && grid.Length1 == g.cols && 1 <= y < g.rows
    modifies grid
    ensures w' == WalkRowFrom(altitude, g, w, y, 1)
    ensures forall r, c | 0 <= r < g.rows && 0 <= c < g.cols ::
      grid[r, c] == if r == g.rows - y then SampledCell(altitude, g, old(grid[r, c]), r, c) else old(grid[r, c])
  {
    var x := 1;
    w' := w;
    while x < g.cols
      invariant 1 <= x <= g.cols || (g.cols == 0 && x == 1)
      invariant WalkRowFrom(altitude, g, w', y, x) == WalkRowFrom(altitude, g, w, y, 1)
      invariant forall r, c | 0 <= r < g.rows && 0 <= c < g.cols ::
        grid[r, c] == if r == g.rows - y && c < x then SampledCell(altitude, g, old(grid[r, c]), r, c) else old(grid[r, c])
    {
      ghost var before := w';
      var lat := g.south + y as real * g.latInterval;
      var lng := g.west + x as real * g.lngInterval;
      var alt := altitude(lat, lng);
      assert lat == SampleLat(g, y) && lng == SampleLng(g, x);
      if alt.Some? && alt.value != 0.0 {
        var valley := if alt.value < w'.valley.alt then Extreme(alt.value, Some(lat), Some(lng)) else w'.valley;
        var peak := if alt.value > w'.peak.alt then Extreme(alt.value, Some(lat), Some(lng)) else w'.peak;
        w' := Walk(peak, valley);
        assert g.rows - (g.rows - y) == y;
        assert alt.value == SampledCell(altitude, g, old(grid[g.rows - y, x]), g.rows - y, x);
        grid[g.rows - y, x] := alt.value;
      }
      assert w' == VisitSample(altitude, g, before, y, x);
      x := x + 1;
    }
  }

  /** The whole walk: every cell outside row 0 and column 0 whose sample is truthy
      is written, and the peak and valley follow the walk. */
  method SampleGrid(grid: array2<real>, altitude: (real, real) -> Option<real>, g: Sampling, w: Walk)
    returns (w': Walk)
    requires grid.Length0 == g.rows && grid.Length1 == g.cols
    modifies grid
    ensures w' == WalkGrid(altitude, g, w)
    ensures forall r, c | 0 <= r < g.rows && 0 <= c < g.cols ::
      grid[r, c] == SampledCell(altitude, g, old(grid[r, c]), r, c)
  {
    var y := 1;
    w' := w;
    while y < g.rows
      invariant 1 <= y <= g.rows || (g.rows == 0 && y == 1)
      invariant WalkRowsFrom(altitude, g, w', y) == WalkGrid(altitude, g, w)
      invariant forall r, c | 0 <= r < g.rows && 0 <= c < g.cols ::
        grid[r, c] == if g.rows - y < r then SampledCell(altitude, g, old(grid[r, c]), r, c) else old(grid[r, c])
    {
      w' := SampleRow(grid, altitude, g, y, w');
      y := y + 1;
    }
  }

  // ---------------------------------------------------------------------------
  // Contours
  // ---------------------------------------------------------------------------

  /** The grey step between contour shades: the altitude range split into
      ceil(range / delta) steps. */
  function GreyDelta(peak: real, valley: real, delta: real): (r: Result<real, GridError>)
    ensures r.Err? <==> delta == 0.0 || Ceil((peak - valley) / delta) == 0
    ensures r.Err? ==> r.error == ZeroDivision
  {
    if delta == 0.0 then Err(ZeroDivision)
    else
      var steps := Ceil((peak - valley) / delta);
      if steps == 0 then Err(ZeroDivision) else Ok((peak - valley) / steps as real)
  }

  /** The contour band of an altitude. */
  function Band(value: real, delta: real): int
    requires delta != 0.0
  {
    (value / delta).Floor
  }

  /** A contour band scaled by the grey step. */
  function Scale(band: int, grey: real): real
  {
    band as real * grey
  }

  /** The shade of a contour band: the band times the grey step, floored. */
  function BandShade(band: int, grey: real): real
  {
    Scale(band, grey).Floor as real
  }

  /** The shade of one cell. */
  function Shade(value: real, delta: real, grey: real): real
    requires delta != 0.0
  {
    BandShade(Band(value, delta), grey)
  }

  /** A positive range is split into steps no wider than delta. */
  lemma GreyDeltaIsAtMostDelta(peak: real, valley: real, delta: real)
    requires peak > valley && delta > 0.0
    ensures GreyDelta(peak, valley, delta).Ok?
    ensures 0.0 < GreyDelta(peak, valley, delta).value <= delta
  {
    var range := peak - valley;
    var q := range / delta;
    assert q * delta == range;
    PositiveFactor(q, delta);
    var steps := Ceil(q);
    assert steps >= 1;
    var n := steps as real;
    MulRealIsMonotonic(delta, q, n);
    DivIsMonotonic(range, n * delta, n);
    assert (n * delta) / n == delta;
    var grey := range / n;
    assert grey * n == range;
    PositiveFactor(grey, n);
  }

  lemma MulRealIsMonotonic(b: real, u: real, v: real)
    requires b >= 0.0 && u <= v
    ensures b * u <= b * v
  {
    assert b * v - b * u == b * (v - u);
    ProductOfNonNegatives(b, v - u);
  }

  lemma MulRightIsMonotonic(u: real, v: real, b: real)
    requires b >= 0.0 && u <= v
    ensures u * b <= v * b
  {
    assert v * b - u * b == (v - u) * b;
    ProductOfNonNegatives(v - u, b);
  }

  /** Shading keeps the order of altitudes. */
  lemma ShadeIsMonotonic(v1: real, v2: real, delta: real, grey: real)
    requires delta > 0.0 && grey >= 0.0 && v1 <= v2
    ensures Shade(v1, delta, grey) <= Shade(v2, delta, grey)
  {
    DivIsMonotonic(v1, v2, delta);
    var b1, b2 := Band(v1, delta), Band(v2, delta);
    FloorIsMonotonic(v1 / delta, v2 / delta);
    BandShadeIsMonotonic(b1, b2, grey);
  }

  lemma BandShadeIsMonotonic(b1: int, b2: int, grey: real)
    requires b1 <= b2 && grey >= 0.0
    ensures BandShade(b1, grey) <= BandShade(b2, grey)
  {
    ScaleIsMonotonic(b1, b2, grey);
    FloorAsRealIsMonotonic(Scale(b1, grey), Scale(b2, grey));
  }

  lemma ScaleIsMonotonic(b1: int, b2: int, grey: real)
    requires b1 <= b2 && grey >= 0.0
    ensures Scale(b1, grey) <= Scale(b2, grey)
  {
    MulRightIsMonotonic(b1 as real, b2 as real, grey);
  }

  lemma FloorAsRealIsMonotonic(a: real, b: real)
    requires a <= b
    ensures a.Floor as real <= b.Floor as real
  {
    FloorIsMonotonic(a, b);
    IntAsRealIsMonotonic(a.Floor, b.Floor);
  }

  lemma IntAsRealIsMonotonic(m: int, n: int)
    requires m <= n
    ensures m as real <= n as real
  {
  }

  /** Altitudes in the same contour band get the same shade. */
  lemma ShadeIsConstantOnBands(v1: real, v2: real, delta: real, grey: real)
    requires delta != 0.0 && Band(v1, delta) == Band(v2, delta)
    ensures Shade(v1, delta, grey) == Shade(v2, delta, grey)
  {
  }

  /** With a positive range and delta a non-negative altitude is never shaded above
      itself or below zero. */
  lemma ShadeIsBetweenZeroAndValue(v: real, peak: real, valley: real, delta: real)
    requires peak > valley && delta > 0.0 && v >= 0.0
    ensures GreyDelta(peak, valley, delta).Ok?
    ensures 0.0 <= Shade(v, delta, GreyDelta(peak, valley, delta).value) <= v
  {
    GreyDeltaIsAtMostDelta(peak, valley, delta);
    var grey := GreyDelta(peak, valley, delta).value;
    var q := v / delta;
    QuotientIsNonNegative(v, delta);
    assert q * delta == v;
    var band := Band(v, delta);
    assert 0 <= band && band as real <= q;
    MulRealIsMonotonic(delta, band as real, q);
    MulRealIsMonotonic(band as real, grey, delta);
    ProductOfNonNegatives(band as real, grey);
    assert 0.0 <= band as real * grey <= v;
  }

  /** Shades row r of the grid in place. */
  method ContourRow(grid: array2<real>, delta: real, grey: real, r: int)
    requires delta != 0.0 && 0 <= r < grid.Length0
    modifies grid
    ensures forall i, j | 0 <= i < grid.Length0 && 0 <= j < grid.Length1 ::
      grid[i, j] == if i == r then Shade(old(grid[i, j]), delta, grey) else old(grid[i, j])
  {
    var j := 0;
    while j < grid.Length1
      invariant 0 <= j <= grid.Length1
      invariant forall i, k | 0 <= i < grid.Length0 && 0 <= k < grid.Length1 ::
        grid[i, k] == if i == r && k < j then Shade(old(grid[i, k]), delta, grey) else old(grid[i, k])
    {
      grid[r, j] := Shade(grid[r, j], delta, grey);
      j := j + 1;
    }
  }

  /** Shades every cell of the grid in place. */
  method ContourGrid(grid: array2<real>, delta: real, grey: real)
    requires delta != 0.0
    modifies grid
    ensures forall i, j | 0 <= i < grid.Length0 && 0 <= j < grid.Length1 ::
      grid[i, j] == Shade(old(grid[i, j]), delta, grey)
  {
    var i := 0;
    while i < grid.Length0
      invariant 0 <= i <= grid.Length0
      invariant forall k, j | 0 <= k < grid.Length0 && 0 <= j < grid.Length1 ::
        grid[k, j] == if k < i then Shade(old(grid[k, j]), delta, grey) else old(grid[k, j])
    {
      ContourRow(grid, delta, grey, i);
      i := i + 1;
    }
  }

  /** A fresh grid of rows x cols zeros. */
  method Zeros(rows: nat, cols: nat) returns (grid: array2<real>)
    ensures fresh(grid) && grid.Length0 == rows && grid.Length1 == cols
    ensures forall i, j | 0 <= i < rows && 0 <= j < cols :: grid[i, j] == 0.0
  {
    grid := new real[rows, cols]((i, j) => 0.0);
  }
}
