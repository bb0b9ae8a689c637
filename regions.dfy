/** The region of the map being rendered: its bounding box, padded on every side,
    the sample grid laid over it, the highest and lowest sample, and the
    operations that fill the grid with altitudes, quantise it into contour bands
    and draw a GPS track onto it. */
module Regions {
  import opened Wrappers
  import opened Arithmetic
  import opened RegionGrid
  import opened Tracks
  import GpsOverlay

  /** The region's scalar fields, for stating what an operation changes. */
  datatype RegionState = RegionState(
    bounds: Bounds,
    paddingPct: real,
    latDelta: real,
    lngDelta: real,
    aspectRatio: real,
    padding: real,
    resolution: int,
    layout: Layout,
    walk: Walk)

  /** What construction computes from the requested box: the padding, the padded box,
      its extents and aspect ratio, and the grid layout; or the first error. */
  datatype Plan = Plan(padding: real, bounds: Bounds, latDelta: real, lngDelta: real, aspectRatio: real, layout: Layout)

  function PlanRegion(b: Bounds, resolution: int, paddingPct: real): (r: Result<Plan, GridError>)
    ensures r.Ok? ==> r.value.layout.latPoints > 0 && r.value.layout.lngPoints > 0
    ensures r.Ok? ==> r.value.latDelta == LatDelta(r.value.bounds) && r.value.lngDelta == LngDelta(r.value.bounds)
  {
    match AspectRatio(LatDelta(b), LngDelta(b))
    case Err(e) => Err(e)
    case Ok(_) =>
      var p := Padding(LatDelta(b), LngDelta(b), paddingPct);
      var padded := Pad(b, p);
      match AspectRatio(LatDelta(padded), LngDelta(padded))
      case Err(e) => Err(e)
      case Ok(aspect) =>
        match PlanLayout(resolution, aspect, LatDelta(padded), LngDelta(padded))
        case Err(e) => Err(e)
        case Ok(layout) => Ok(Plan(p, padded, LatDelta(padded), LngDelta(padded), aspect, layout))
  }

  /** For a box given north of south and east of west and a non-negative padding
      percentage, only the grid layout can fail; when it does not, the padded box
      is the given one grown by the padding on both axes and keeps its centre. */
  lemma PlanOfProperBox(b: Bounds, resolution: int, paddingPct: real)
    requires b.south <= b.north && b.west < b.east && paddingPct >= 0.0
    ensures var p := Padding(LatDelta(b), LngDelta(b), paddingPct);
      var padded := Pad(b, p);
      AspectRatio(LatDelta(padded), LngDelta(padded)).Ok? &&
      (PlanRegion(b, resolution, paddingPct).Ok? <==>
        PlanLayout(resolution, AspectRatio(LatDelta(padded), LngDelta(padded)).value,
                   LatDelta(padded), LngDelta(padded)).Ok?) &&
      (PlanRegion(b, resolution, paddingPct).Ok? ==>
        PlanRegion(b, resolution, paddingPct).value.bounds == padded &&
        PlanRegion(b, resolution, paddingPct).value.latDelta == LatDelta(b) + p &&
        PlanRegion(b, resolution, paddingPct).value.lngDelta == LngDelta(b) + p)
  {
    PaddingWidensTheBox(b, paddingPct);
  }

  class Region {
    var north: real
    var east: real
    var south: real
    var west: real
    var paddingPct: real
    var latDelta: real
    var lngDelta: real
    var aspectRatio: real
    var padding: real
    var resolution: int
    var latPoints: int
    var lngPoints: int
    var latInterval: real
    var lngInterval: real
    var peak: Extreme
    var valley: Extreme
    var outfile: array2<real>

    function Box(): Bounds
      reads this
    {
      Bounds(north, east, south, west)
    }

    function State(): RegionState
      reads this
    {
      RegionState(Box(), paddingPct, latDelta, lngDelta, aspectRatio, padding, resolution,
                  Layout(latPoints, lngPoints, latInterval, lngInterval), Walk(peak, valley))
    }

    /** The grid has the layout's shape and at least one row and one column. */
    predicate Valid()
      reads this
    {
      outfile.Length0 == latPoints && outfile.Length1 == lngPoints && latPoints >= 1 && lngPoints >= 1
    }

    /** Where the sampling walk samples. */
    function Grid(): Sampling
      requires Valid()
      reads this
    {
      Sampling(south, west, latInterval, lngInterval, latPoints, lngPoints)
    }

    /** What the GPS overlay reads of the region. */
    function Frame(): GpsOverlay.Frame
      reads this
    {
      GpsOverlay.Frame(south, east, latDelta, lngDelta, latPoints, lngPoints)
    }

    /** The fields as the constructor sets them before its first computation. */
    constructor Init(north: real, east: real, south: real, west: real, resolution: int, paddingPct: real)
      ensures Box() == Bounds(north, east, south, west)
      ensures this.resolution == resolution && this.paddingPct == paddingPct
      ensures Walk(peak, valley) == INITIAL_WALK
    {
      this.north := north;
      this.east := east;
      this.south := south;
      this.west := west;
      this.paddingPct := paddingPct;
      this.resolution := resolution;
      latDelta, lngDelta, aspectRatio, padding := 0.0, 0.0, 0.0, 0.0;
      latPoints, lngPoints, latInterval, lngInterval := 0, 0, 0.0, 0.0;
      peak, valley := INITIAL_WALK.peak, INITIAL_WALK.valley;
      outfile := new real[0, 0];
    }

    /** A region for the box, padded by `paddingPct` percent of its smaller extent,
        with an empty grid of the planned layout; or the error the construction
        raises. */
    static method New(north: real, east: real, south: real, west: real, resolution: int, paddingPct: real)
      returns (r: Result<Region, GridError>)
      ensures r.Ok? <==> PlanRegion(Bounds(north, east, south, west), resolution, paddingPct).Ok?
      ensures r.Err? ==> r.error == PlanRegion(Bounds(north, east, south, west), resolution, paddingPct).error
      ensures r.Ok? ==> fresh(r.value) && fresh(r.value.outfile) && r.value.Valid()
      ensures r.Ok? ==>
        var plan := PlanRegion(Bounds(north, east, south, west), resolution, paddingPct).value;
        r.value.State() == RegionState(plan.bounds, paddingPct, plan.latDelta, plan.lngDelta, plan.aspectRatio,
                                       plan.padding, resolution, plan.layout, INITIAL_WALK)
      ensures r.Ok? ==> forall i, j | 0 <= i < r.value.latPoints && 0 <= j < r.value.lngPoints ::
        r.value.outfile[i, j] == 0.0
    {
      var region := new Region.Init(north, east, south, west, resolution, paddingPct);
      var aspect := region.CalculateAspectRatio();
      if aspect.Err? {
        return Err(aspect.error);
      }
      var padding := region.AddCoordinatePadding();
      if padding.Err? {
        return Err(padding.error);
      }
      var setup := region.SetupOutfile();
      if setup.Err? {
        return Err(setup.error);
      }
      return Ok(region);
    }

    /** Sets the extents from the box and computes the aspect ratio, or fails when the
        longitude extent is zero. */
    method CalculateAspectRatio() returns (r: Result<real, GridError>)
      modifies this
      ensures r == AspectRatio(LatDelta(old(Box())), LngDelta(old(Box())))
      ensures State() == old(State()).(latDelta := LatDelta(old(Box())), lngDelta := LngDelta(old(Box())),
                                       aspectRatio := if r.Ok? then r.value else old(aspectRatio))
      ensures outfile == old(outfile)
    {
      latDelta := AbsReal(north - south);
      lngDelta := AbsReal(east - west);
      if lngDelta == 0.0 {
        return Err(ZeroDivision);
      }
      aspectRatio := latDelta / lngDelta;
      return Ok(aspectRatio);
    }

    /** Moves every bound outward by half the padding, then recomputes the extents and
        the aspect ratio; returns the padding. */
    method AddCoordinatePadding() returns (r: Result<real, GridError>)
      modifies this
      ensures padding == Padding(old(latDelta), old(lngDelta), paddingPct)
      ensures Box() == Pad(old(Box()), padding)
      ensures var aspect := AspectRatio(LatDelta(Box()), LngDelta(Box()));
        r == (if aspect.Ok? then Ok(padding) else Err(aspect.error)) &&
        State() == old(State()).(bounds := Box(), padding := padding, latDelta := LatDelta(Box()),
                                 lngDelta := LngDelta(Box()),
                                 aspectRatio := if aspect.Ok? then aspect.value else old(aspectRatio))
      ensures outfile == old(outfile)
    {
      if latDelta < lngDelta {
        padding := latDelta * (paddingPct / 100.0);
      } else {
        padding := lngDelta * (paddingPct / 100.0);
      }
      assert padding == Padding(latDelta, lngDelta, paddingPct);
      ghost var box := Pad(Box(), padding);
      north := north + padding / 2.0;
      south := south - padding / 2.0;
      west := west - padding / 2.0;
      east := east + padding / 2.0;
      assert Box() == box;
      assert State() == old(State()).(bounds := box, padding := padding);
      var aspect := CalculateAspectRatio();
      if aspect.Err? {
        return Err(aspect.error);
      }
      return Ok(padding);
    }

    /** Plans the sample counts and intervals from the resolution and aspect ratio and
        allocates a grid of zeros, latitude samples tall and longitude samples wide. */
    method SetupOutfile() returns (r: Result<(), GridError>)
      modifies this
      ensures var plan := PlanLayout(old(resolution), old(aspectRatio), old(latDelta), old(lngDelta));
        (r.Ok? <==> plan.Ok?) && (r.Err? ==> r.error == plan.error) &&
        (r.Ok? ==> State() == old(State()).(layout := plan.value) && Valid() && fresh(outfile))
      ensures r.Ok? ==> forall i, j | 0 <= i < latPoints && 0 <= j < lngPoints :: outfile[i, j] == 0.0
      ensures r.Err? ==> State() == old(State()) && outfile == old(outfile)
    {
      var plan := PlanLayout(resolution, aspectRatio, latDelta, lngDelta);
      if plan.Err? {
        return Err(plan.error);
      }
      latPoints, lngPoints := plan.value.latPoints, plan.value.lngPoints;
      latInterval, lngInterval := plan.value.latInterval, plan.value.lngInterval;
      outfile := Zeros(latPoints, lngPoints);
      return Ok(());
    }

    /** Samples the altitude at every grid point outside row 0 and column 0, south to
        north and west to east, writing each truthy altitude into the flipped row and
        keeping the highest and lowest sample. */
    method OverlayMap(altitude: (real, real) -> Option<real>)
      requires Valid()
      modifies this, outfile
      ensures Valid() && outfile == old(outfile)
      ensures Walk(peak, valley) == WalkGrid(altitude, Grid(), old(Walk(peak, valley)))
      ensures State() == old(State()).(walk := Walk(peak, valley))
      ensures forall r, c | 0 <= r < latPoints && 0 <= c < lngPoints ::
        outfile[r, c] == SampledCell(altitude, Grid(), old(outfile[r, c]), r, c)
      ensures forall y, x | 1 <= y < latPoints && 1 <= x < lngPoints && Truthy(altitude(SampleLat(Grid(), y), SampleLng(Grid(), x))) ::
        valley.alt <= outfile[latPoints - y, x] <= peak.alt
    {
      var g := Grid();
      var w := SampleGrid(outfile, altitude, g, Walk(peak, valley));
      peak, valley := w.peak, w.valley;
      forall y, x | 1 <= y < latPoints && 1 <= x < lngPoints && Truthy(altitude(SampleLat(g, y), SampleLng(g, x)))
        ensures valley.alt <= outfile[latPoints - y, x] <= peak.alt
      {
        WalkBoundsSamples(altitude, g, old(Walk(peak, valley)), y, x);
        assert g.rows - (latPoints - y) == y;
      }
    }

    /** Replaces every cell by the shade of its contour band, or fails, leaving the
        grid as it was, when the band width is zero or the altitude range gives no
        step. */
    method Contour(delta: real) returns (r: Result<(), GridError>)
      modifies outfile
      ensures r.Ok? <==> GreyDelta(peak.alt, valley.alt, delta).Ok?
      ensures r.Err? ==> r.error == ZeroDivision && unchanged(outfile)
      ensures r.Ok? ==> forall i, j | 0 <= i < outfile.Length0 && 0 <= j < outfile.Length1 ::
        outfile[i, j] == Shade(old(outfile[i, j]), delta, GreyDelta(peak.alt, valley.alt, delta).value)
    {
      var grey := GreyDelta(peak.alt, valley.alt, delta);
      if grey.Err? {
        return Err(grey.error);
      }
      ContourGrid(outfile, delta, grey.value);
      return Ok(());
    }

    /** Draws every point of every segment of every track onto the grid. */
    method OverlayGps(gpx: Gpx, altitude: (real, real) -> Option<real>, thickness: real, elevationDelta: real)
      requires Valid() && Trunc(thickness) <= latPoints + 1 && Trunc(thickness) <= lngPoints + 1
      modifies outfile
      ensures forall i, j | 0 <= i < latPoints && 0 <= j < lngPoints ::
        outfile[i, j] == GpsOverlay.Painted(
          GpsOverlay.Overlay(GpsOverlay.Setup(Frame(), altitude, thickness, elevationDelta),
                             GpsOverlay.START_STATE, Points(gpx)).stamps,
          (i, j), old(outfile[i, j]))
    {
      var s := GpsOverlay.Setup(Frame(), altitude, thickness, elevationDelta);
      GpsOverlay.OverlayTracks(outfile, s, gpx.tracks);
    }
  }
}
