/** The older region class kept beside the tile manager: no padding, the sample grid
    computed and filled in one step, and contouring that returns a shaded copy of
    the grid instead of rewriting it. */
module LegacyRegions {
  import opened Wrappers
  import opened RegionGrid

  /** The layout of the unpadded box, or the first error. */
  function LegacyPlan(b: Bounds, resolution: int): Result<Layout, GridError>
  {
    match AspectRatio(LatDelta(b), LngDelta(b))
    case Err(e) => Err(e)
    case Ok(aspect) => PlanLayout(resolution, aspect, LatDelta(b), LngDelta(b))
  }

  class Region {
    var north: real
    var east: real
    var south: real
    var west: real
    var resolution: int
    var aspectRatio: real
    var latDelta: real
    var lngDelta: real
    var latPoints: int
    var lngPoints: int
    var latInterval: real
    var lngInterval: real
    var peak: Extreme
    var valley: Extreme
    var outfile: array2<real>

    function Box(): Bounds
      reads this
    {
      Bounds(north, east, south, west)
    }

    function Grid(): Sampling
      requires latPoints >= 0 && lngPoints >= 0
      reads this
    {
      Sampling(south, west, latInterval, lngInterval, latPoints, lngPoints)
    }

    constructor (north: real, east: real, south: real, west: real, resolution: int)
      ensures Box() == Bounds(north, east, south, west) && this.resolution == resolution
      ensures aspectRatio == 1.0 && Walk(peak, valley) == INITIAL_WALK
    {
      this.north := north;
      this.east := east;
      this.south := south;
      this.west := west;
      this.resolution := resolution;
      aspectRatio := 1.0;
      peak, valley := INITIAL_WALK.peak, INITIAL_WALK.valley;
      latDelta, lngDelta := 0.0, 0.0;
      latPoints, lngPoints, latInterval, lngInterval := 0, 0, 0.0, 0.0;
      outfile := new real[0, 0];
    }

    /** Computes the extents, the aspect ratio and the layout of the unpadded box,
        allocates a grid of zeros and runs the sampling walk over it; or fails with
        the error the computation raises. */
    method ParseRegion(altitude: (real, real) -> Option<real>) returns (r: Result<(), GridError>)
      modifies this
      ensures Box() == old(Box()) && resolution == old(resolution)
      ensures latDelta == LatDelta(Box()) && lngDelta == LngDelta(Box())
      ensures var plan := LegacyPlan(old(Box()), old(resolution));
        (r.Ok? <==> plan.Ok?) && (r.Err? ==> r.error == plan.error) &&
        (r.Ok? ==> aspectRatio == AspectRatio(LatDelta(Box()), LngDelta(Box())).value &&
                   Layout(latPoints, lngPoints, latInterval, lngInterval) == plan.value)
      ensures r.Ok? ==> fresh(outfile) && outfile.Length0 == latPoints && outfile.Length1 == lngPoints
      ensures r.Ok? ==> Walk(peak, valley) == WalkGrid(altitude, Grid(), old(Walk(peak, valley)))
      ensures r.Ok? ==> forall i, j | 0 <= i < latPoints && 0 <= j < lngPoints ::
        outfile[i, j] == SampledCell(altitude, Grid(), 0.0, i, j)
      ensures r.Err? ==> Walk(peak, valley) == old(Walk(peak, valley)) && outfile == old(outfile)
    {
      r := PlanGrid();
      if r.Ok? {
        SampleRegion(altitude);
      }
    }

    /** The first half of parsing: extents, aspect ratio and layout. */
    method PlanGrid() returns (r: Result<(), GridError>)
      modifies this
      ensures Box() == old(Box()) && resolution == old(resolution)
      ensures Walk(peak, valley) == old(Walk(peak, valley)) && outfile == old(outfile)
      ensures latDelta == LatDelta(Box()) && lngDelta == LngDelta(Box())
      ensures var plan := LegacyPlan(Box(), resolution);
        (r.Ok? <==> plan.Ok?) && (r.Err? ==> r.error == plan.error) &&
        (r.Ok? ==> aspectRatio == AspectRatio(LatDelta(Box()), LngDelta(Box())).value &&
                   Layout(latPoints, lngPoints, latInterval, lngInterval) == plan.value)
      ensures r.Ok? ==> latPoints > 0 && lngPoints > 0
    {
      latDelta := AbsReal(north - south);
      lngDelta := AbsReal(east - west);
      if lngDelta == 0.0 {
        return Err(ZeroDivision);
      }
      aspectRatio := latDelta / lngDelta;
      var plan := PlanLayout(resolution, aspectRatio, latDelta, lngDelta);
      if plan.Err? {
        return Err(plan.error);
      }
      latPoints, lngPoints := plan.value.latPoints, plan.value.lngPoints;
      latInterval, lngInterval := plan.value.latInterval, plan.value.lngInterval;
      return Ok(());
    }

    /** The second half: a fresh grid of zeros and the sampling walk over it. */
    method SampleRegion(altitude: (real, real) -> Option<real>)
      requires latPoints > 0 && lngPoints > 0
      modifies this
      ensures Box() == old(Box()) && resolution == old(resolution) && aspectRatio == old(aspectRatio)
      ensures latDelta == old(latDelta) && lngDelta == old(lngDelta)
      ensures Layout(latPoints, lngPoints, latInterval, lngInterval) ==
              old(Layout(latPoints, lngPoints, latInterval, lngInterval))
      ensures fresh(outfile) && outfile.Length0 == latPoints && outfile.Length1 == lngPoints
      ensures Walk(peak, valley) == WalkGrid(altitude, Grid(), old(Walk(peak, valley)))
      ensures forall i, j | 0 <= i < latPoints && 0 <= j < lngPoints ::
        outfile[i, j] == SampledCell(altitude, Grid(), 0.0, i, j)
    {
      var grid := Zeros(latPoints, lngPoints);
      var w := SampleGrid(grid, altitude, Grid(), Walk(peak, valley));
      outfile := grid;
      peak, valley := w.peak, w.valley;
    }

    /** A contoured copy of the grid: every cell replaced by the shade of its band,
        the grid itself left as it is; or the error when the band width is zero or
        the altitude range gives no step. */
    method Contour(delta: real) returns (r: Result<array2<real>, GridError>)
      ensures r.Ok? <==> GreyDelta(peak.alt, valley.alt, delta).Ok?
      ensures r.Err? ==> r.error == ZeroDivision
      ensures r.Ok? ==> fresh(r.value) && r.value.Length0 == outfile.Length0 && r.value.Length1 == outfile.Length1
      ensures r.Ok? ==> forall i, j | 0 <= i < outfile.Length0 && 0 <= j < outfile.Length1 ::
        r.value[i, j] == Shade(outfile[i, j], delta, GreyDelta(peak.alt, valley.alt, delta).value)
    {
      var grey := GreyDelta(peak.alt, valley.alt, delta);
      if grey.Err? {
        return Err(grey.error);
      }
      var source := outfile;
      var contoured := new real[source.Length0, source.Length1]((i, j) reads source =>
        if 0 <= i < source.Length0 && 0 <= j < source.Length1 then source[i, j] else 0.0);
      ContourGrid(contoured, delta, grey.value);
      return Ok(contoured);
    }
  }
}
