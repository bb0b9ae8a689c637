# SRTM heightmap generator, modelled in Dafny

This project models the core of a Python 2 program. The program turns NASA SRTM
elevation tiles into a grey-scale height grid for a bounding box, and can quantise
that grid into contour bands and draw a GPS track onto it. The parts modelled are:

- **Tiles** (`Srtm`, srtm.py `SRTMTile`): the size check when a tile is opened,
  the row-flipped sample offset, void handling, bilinear altitude lookup, the
  eight-direction void estimate and the in-place void-filling sweep.
- **Downloader** (`SrtmDownloader`, srtm.py `SRTMDownloader`): reading a tile
  corner from an archive name such as `N37W123.hgt.zip`, and the file list that maps
  corners to archives. The tile lookup truncates the position toward zero.
- **Directory-listing parser** (`DirectoryListing`, srtm.py
  `parseHTMLDirectoryListing`): the start-tag, end-tag and text handlers that collect
  hyperlinks and recognise an index page.
- **Tile manager** (`TileManager`, srtm_manager.py `SRTMManager`): a one-tile
  cache keyed by the floor of the position.
- **Raster primitives** (`Raster`, util.py): the Bresenham line and the Bresenham
  circle. Each is an imperative loop proved equal to an independent reference
  definition. Properties are then proved about that definition: connectivity, the
  bounding box and the endpoints for the line; the eight-fold symmetry, the bound
  and the distance band r² − r < x² + y² ≤ r² + r for the circle.
- **Region grid** (`RegionGrid`, `Regions`, `LegacyRegions`):
  - the rules shared by region.py `Region` and srtm_manager.py `Region`: extents
    and aspect ratio, padding, sample counts and intervals, the sampling walk that
    fills the grid and tracks its highest and lowest sample, and contour shading;
  - the two classes that use these rules.
- **GPS overlay** (`GpsOverlay`, region.py `overlay_gps`): the projection of track
  points to pixels, the line between consecutive pixels, and the circle stamped
  around each line pixel, with clamping and numpy's negative-index addressing.
- **GPX boundaries** (`Tracks`, `GpxManager`, gpx_manager.py): the bounding box of
  all points of all segments of all tracks.

How the source's features are represented:

- Floating-point values are `real`.
- Python's `int()` on a float is `Arithmetic.Trunc`, which truncates toward zero.
- `math.floor` is `.Floor`.
- A falsy altitude (`None` or `0`) is the predicate `RegionGrid.Truthy`.
- Exceptions become `Result` errors:
  - `ZeroDivisionError` is `ZeroDivision` or `NoDirection`;
  - `NoSuchTileError`, `WrongTileError` and `InvalidTileError` are the
    `Srtm.TileError` cases. These are the errors the code means to raise; what
    it actually raises is described under "## Left out";
  - numpy's error for a negative dimension is `NegativeDimensions`;
  - the `ValueError` for a missing GPX document is `MissingGpx`.
- External inputs are parameters:
  - the altitude service is a function `(lat, lng) -> Option<real>`. It never fails,
    so the model has no failed lookup. In the source a cell without a tile makes
    `getTile` raise (srtm_manager.py:26, srtm.py:189), and the sampling walk or the
    GPS overlay then stops with the grid half written. That failure path is not
    modelled for `Regions.Region.OverlayMap`, `Regions.Region.OverlayGps` or
    `LegacyRegions.Region.ParseRegion`;
  - the tile archives on disk are a function from path to archive contents.

For an aspect ratio of at most 1 (a box at least as wide as it is tall), the code
takes `resolution` latitude samples and `int(resolution / aspect)` longitude samples
(`RegionGrid.SampleCountsRule`). So aspect 0.875 at resolution 500 gives a grid of
500 × 571 samples. The comment at region.py:161 has the sense of the ratio the
wrong way round; the model follows the code.

## Model

| member | source | states |
|---|---|---|
| Arithmetic.Trunc | srtm.py:323-326 | `int()` of a float truncates toward zero: non-negative values round down and negative values round up |
| Raster.LinePoints | util.py:48-73 | the line has one pixel per step of the major axis plus the endpoint; it ends at the end point; it starts at the start point unless the two coincide, in which case it is just the end point |
| Raster.LineAt | util.py:56-71 | the closed form of loop pixel k: k steps along the major axis and, on the minor axis, the number of times the decision has turned non-negative; the lemmas below prove it is what the loop appends |
| Raster.LinePrefix | util.py:62-71 | the loop's first n pixels are exactly n pixels |
| Raster.LinePrefixAt | util.py:62-71 | pixel k of the loop's output is the closed-form pixel `LineAt(k)` |
| Raster.LineStartsAtStart | util.py:61-66 | the first pixel the loop appends is the start point |
| Raster.MinorStepsAtMost | util.py:61-71 | before the last major step the minor coordinate has moved at most the minor extent |
| Raster.MinorStepsAdvance | util.py:67-71 | one major step moves the minor coordinate by zero or one |
| Raster.MinorStepsAtEnd | util.py:61-71 | after all major steps the minor coordinate has moved by exactly the minor extent |
| Raster.MinorStepsLast | util.py:67-72 | the last loop pixel is at most one minor step short of the end point |
| Raster.LineAtAdvances | util.py:62-71 | consecutive loop pixels differ by exactly one on the major axis and at most one on the minor axis |
| Raster.LineAtReachesEnd | util.py:70-72 | the last loop pixel is such a neighbour of the appended end point |
| Raster.LineIsConnected | util.py:48-73 | every two consecutive pixels of the line are neighbours in that sense |
| Raster.LineStaysInBox | util.py:48-73 | every pixel of the line lies in the box spanned by its two end points |
| Raster.LineAtStaysInBox | util.py:62-71 | every loop pixel lies in that box |
| Raster.HorizontalLineIsStraight | util.py:52-71 | a line with equal second coordinates keeps that coordinate and steps the first one by one per pixel |
| Raster.VerticalLineIsStraight | util.py:52-71 | a line with equal first coordinates keeps that coordinate and steps the second one by one per pixel |
| Raster.DiagonalLineMovesBoth | util.py:52-71 | a line with equal extents steps both coordinates by one per pixel |
| Raster.LoopPixelIsLineAt | util.py:56-71 | after the steep-case swap, the pixel at loop index i (swapped back when steep) is the closed-form pixel i |
| Raster.CatchUpMinor | util.py:67-69 | the inner loop steps the minor coordinate and lowers the decision by 2·dx per step, until the decision is negative and at least −2·dx |
| Raster.BresenhamLine | util.py:48-73 | the loop's result equals the reference line `LinePoints` |
| Raster.CircleMove | util.py:34-39 | one step advances x by one, lowers y by zero or one, and leaves exactly the remaining points of the reference set ahead |
| Raster.Circle | util.py:9-40 | the loop's point set equals the reference set `CirclePoints(radius)` |
| Raster.DecisionStep | util.py:34-39 | the update of the decision variable keeps it equal to the summed errors of the two candidate pixels, and the pixel it chooses stays in the distance band |
| Raster.Octants | util.py:17-39 | the points the circle loop adds from a given (x, y, switch) state on, taking the source's two decision updates; the reference for `Circle` |
| Raster.CirclePoints | util.py:9-40 | the circle's point set, the octants from x = 0, y = radius and switch 3 − 2·radius; the symmetry, bound and distance-band lemmas are about it |
| Raster.OrbitIsSymmetric | util.py:18-33 | the eight points added per step are closed under swapping and negating coordinates |
| Raster.OctantsSymmetric | util.py:17-39 | the points added from any loop state on are closed under swapping and negating coordinates |
| Raster.RestSymmetric | util.py:17-39 | the same holds for the points added after the current step |
| Raster.CircleIsSymmetric | util.py:9-40 | the circle is symmetric under swapping and negating coordinates |
| Raster.OrbitBounded | util.py:18-33 | each of the eight images stays within the bound of its coordinates |
| Raster.OctantsBounded | util.py:17-39 | no point added from state (x, y) on has a coordinate larger than y in absolute value |
| Raster.RestBounded | util.py:17-39 | the same holds for the points added after the current step |
| Raster.CircleIsBounded | util.py:9-40 | every point of the circle lies within the radius on both axes |
| Raster.NegativeRadiusIsEmpty | util.py:15-17 | a negative radius gives no points |
| Raster.CircleHasAxisPoints | util.py:15-25 | a non-negative radius gives the four axis points at distance radius |
| Raster.CircleOfRadiusZero | util.py:12-40 | radius zero gives the centre only |
| Raster.OrbitNearCircle | util.py:18-33 | the eight images of a pixel in the distance band are in the band |
| Raster.OctantsNearCircle | util.py:17-39 | every point added from a state satisfying the decision invariant is in the distance band |
| Raster.RestNearCircle | util.py:17-39 | the same holds for the points added after the current step |
| Raster.CircleIsNearCircle | util.py:9-40 | every point of a circle of positive radius satisfies r² − r < x² + y² ≤ r² + r |
| Srtm.ISqrt | srtm.py:253 | the side length is the integer square root: its square is at most the count, and the next square exceeds it |
| Srtm.ISqrtOfSquare | srtm.py:253 | a perfect square of samples gives back its side |
| Srtm.CheckTile | srtm.py:248-260 | every rejection is `InvalidTile(lat, lon)` |
| Srtm.CheckTileAccepts | srtm.py:248-260 | a tile is accepted with side s exactly when the archive has one entry, s is 1201 or 3601, and there are s·s samples |
| Srtm.Tile.constructor | srtm.py:257-262 | the tile holds the given size, corner and samples |
| Srtm.Tile.Open | srtm.py:247-262 | opening fails exactly when the checks fail, with `InvalidTile`; otherwise the tile holds the samples, the corner and the checked size |
| Srtm.CalcOffset | srtm.py:276-295 | the row-flipped offset of pixel (x, y), reference for `PixelValue`; `OffsetInRange`, `OffsetIsInjective` and `OffsetCorners` prove it in range, injective and equal to the commented offsets |
| Srtm.OffsetInRange | srtm.py:276-295 | the offset of a pixel inside the tile is inside the data |
| Srtm.OffsetIsInjective | srtm.py:276-295 | distinct pixels have distinct offsets |
| Srtm.OffsetCorners | srtm.py:283-295 | the six example offsets in the layout comment hold for every size |
| Srtm.PixelValue | srtm.py:297-308 | a pixel value is never the void marker −32768 |
| Srtm.PixelValueIsSample | srtm.py:297-308 | a pixel is absent exactly when its sample is −32768; otherwise its value is that sample |
| Srtm.Tile.GetPixelValue | srtm.py:297-308 | the method reads the pixel value of the tile's current data |
| Srtm.Avg | srtm.py:264-274 | the weighted average that passes the other value through when one is None; `AvgIsBetween` and `AvgAtEnds` prove its bounds and end weights |
| Srtm.AvgIsBetween | srtm.py:264-274 | the weighted average of values in a range stays in that range, with an absent value ignored |
| Srtm.AvgAtEnds | srtm.py:264-274 | weight 0 gives the first value and weight 1 the second |
| Srtm.Cell | srtm.py:320-326 | the integer part of the scaled offset leaves room for the neighbour at +1 inside the tile; the fraction lies in [0, 1) |
| Srtm.AltitudeFromLatLon | srtm.py:310-337 | the lookup fails exactly when the position lies outside the tile, and then with `WrongTile` and the requested position |
| Srtm.AltitudeIsBetweenNeighbours | srtm.py:320-337 | inside the tile the altitude is absent exactly when all four neighbours are voids, and otherwise lies between the bounds of the present neighbours |
| Srtm.AltitudeAtGridPoint | srtm.py:320-337 | at a position exactly on a present sample, the altitude is that sample |
| Srtm.Tile.GetAltitudeFromLatLon | srtm.py:310-337 | the method's lookup is the reference lookup on the tile's data |
| Srtm.Extrapolate | srtm.py:388-403 | the guess 2·near − far from one direction, present only when both neighbours are; `ExtrapolateOnPlane` proves it exact on a linear run |
| Srtm.Sum | srtm.py:405 | Python's `sum` of the direction guesses, used by `Estimate` |
| Srtm.Vectors | srtm.py:380-403 | at most eight directional estimates are collected |
| Srtm.Estimate | srtm.py:405-411 | the estimate fails exactly when no direction has both neighbours; a kept estimate lies in [−32767, 32767] |
| Srtm.Truncate | srtm.py:428 | truncating a kept estimate never produces the void marker |
| Srtm.ExtrapolateOnPlane | srtm.py:388-403 | on a line of evenly spaced values, the directional estimate is the missing value |
| Srtm.EstimateIsExactOnPlanes | srtm.py:339-411 | when all sixteen neighbours lie on a plane through the void's value, the estimate is that value |
| Srtm.Tile.AppendEstimate | srtm.py:388-403 | an estimate is appended exactly when both neighbours of its direction are present |
| Srtm.Tile.Interpolate | srtm.py:339-415 | the sixteen reads and the averaging give the reference estimate |
| Srtm.OnlyVoidsFilledKeepsVoidsInterior | srtm.py:417-428 | filling never creates a void, so interior voids stay interior |
| Srtm.FillSample | srtm.py:420-428 | one step changes only a void and writes no void; a stop leaves the samples as they were, at the position reached |
| Srtm.FillColumnFrom | srtm.py:419-428 | the sweep up a column changes only voids; a stop is at a position that was a void |
| Srtm.FillColumnsFrom | srtm.py:418-428 | the same for the sweep over the remaining columns |
| Srtm.FillPass | srtm.py:417-428 | the same for the whole sweep |
| Srtm.SampleStopsAtDeadEnd | srtm.py:420-428 | a step stops only at an interior void without a usable direction |
| Srtm.ColumnStopsAtDeadEnd | srtm.py:419-428 | the column sweep stops only at such a void of the samples it reached |
| Srtm.ColumnsStopAtDeadEnd | srtm.py:418-428 | the same for the sweep over the remaining columns |
| Srtm.FillPassStopsAtDeadEnd | srtm.py:417-428 | the same for the whole sweep |
| Srtm.FillPassWithoutVoids | srtm.py:417-428 | a tile without voids is left unchanged and the sweep completes |
| Srtm.Tile.FillAt | srtm.py:420-428 | one visit updates the data as the reference step and fails exactly when the step stops |
| Srtm.Tile.FillColumn | srtm.py:419-428 | the inner loop updates the data as the reference column sweep and fails exactly when it stops |
| Srtm.Tile.FillNulls | srtm.py:417-428 | the nested loops update the data as the reference whole-tile sweep and fail exactly when it stops |
| SrtmDownloader.ParseFilename | srtm.py:167-180 | a recognised name has the 15-character pattern with suffix `.hgt.zip`; the corner is within ±99 and ±999; a negative latitude came from `S` and a negative longitude from `W` |
| SrtmDownloader.ParseByFields | srtm.py:167-180 | a name is recognised exactly when its fields match, and then it yields the signed field values |
| SrtmDownloader.FormatFilename | srtm.py:74-75 | the canonical archive name of a corner has 15 characters |
| SrtmDownloader.ParseFormatRoundTrip | srtm.py:167-180 | parsing the canonical name of a corner in range, followed by anything, gives back that corner |
| SrtmDownloader.ParseIsCanonical | srtm.py:167-180 | a recognised name starts with the canonical name of its corner, unless it is `S00` or `W000` (negative zero) |
| SrtmDownloader.FieldsAreCanonical | srtm.py:174-180 | apart from those negative zeros, the digit fields reproduce the corner |
| SrtmDownloader.ParseIgnoresTail | srtm.py:169 | the pattern is matched at the start only, so text after a recognised name does not change the result |
| SrtmDownloader.Downloader.constructor | srtm.py:73 | the file list starts empty |
| SrtmDownloader.Downloader.AddFile | srtm.py:156-158 | an archive is recorded under the corner its name parses to (`None` if unrecognised); a later one replaces an earlier one |
| SrtmDownloader.Downloader.GetTile | srtm.py:182-194 | the lookup key is the truncation of the position; a missing key gives `NoSuchTile`; a bad archive gives `InvalidTile`; otherwise the tile holds the archive's samples and the truncated corner |
| SrtmDownloader.RecordedTileIsFound | srtm.py:182-189 | after recording an archive with a canonical name, a lookup anywhere in its cell with non-negative coordinates finds it |
| SrtmDownloader.LookupBelowZeroUsesNeighbour | srtm.py:187 | below zero, truncation selects the cell one to the north or east of the position's own cell |
| DirectoryListing.HrefAfter | srtm.py:460-462 | the href left after the attribute loop; `HrefAfterIsLastHref` proves it is the last `href` attribute's value, or the previous href when there is none |
| DirectoryListing.Step | srtm.py:453-486 | the parser's response to one start tag, end tag or text event; the handler methods are proved to perform it and the lemmas below state its effect |
| DirectoryListing.Run | srtm.py:453-489 | the parser fed a stream of events in order; the lemmas below state what it lists |
| DirectoryListing.HrefAfterIsLastHref | srtm.py:460-462 | among the link's attributes the last href wins; without one the current href is kept |
| DirectoryListing.OnlyEndOfLinkAppends | srtm.py:464-474 | only the end of a link appends; it appends the current href exactly when that href is not empty; it clears the href and the in-link flag |
| DirectoryListing.RunExtendsList | srtm.py:453-486 | the list only grows, keeping its earlier entries |
| DirectoryListing.RunNeverListsEmptyHref | srtm.py:468-471 | an empty href is never listed |
| DirectoryListing.RunKeepsDirListing | srtm.py:476-482 | once a page is recognised as an index it stays recognised |
| DirectoryListing.TitleText | srtm.py:476-482 | text inside the title becomes the title; it marks the page as an index exactly when it contains `Index of` (or the page already was one) |
| DirectoryListing.TextOutsideTitle | srtm.py:476-486 | text outside the title changes neither the title nor the index flag |
| DirectoryListing.LinkIsListed | srtm.py:453-486 | a link is listed with its last href exactly when that href is not empty and the link's text does not contain `Parent Directory` |
| DirectoryListing.Parser.constructor | srtm.py:442-451 | the parser starts with title `Undefined`, no entries and all flags cleared |
| DirectoryListing.Parser.HandleStartTag | srtm.py:453-462 | the handler performs the start-tag step on the parser's fields |
| DirectoryListing.Parser.HandleEndTag | srtm.py:464-474 | the handler performs the end-tag step on the parser's fields |
| DirectoryListing.Parser.HandleData | srtm.py:476-486 | the handler performs the text step on the parser's fields |
| DirectoryListing.Parser.GetDirListing | srtm.py:488-489 | the listing is the collected list |
| TileManager.TileKey | srtm_manager.py:21-22 | the floored corner is a tile that contains the position |
| TileManager.TileKeyIsUnique | srtm_manager.py:21-25 | a tile contains the position exactly when it is the floored corner |
| TileManager.SameCellSameKey | srtm_manager.py:21-25 | two positions share a key exactly when the second lies in the first's tile |
| TileManager.Manager.constructor | srtm_manager.py:13-18 | the manager starts with no tile held |
| TileManager.Manager.GetAltitude | srtm_manager.py:20-28 | a held tile covering the position is reused without a fetch; otherwise one fetch happens; a success holds the covering tile and returns its lookup; a fetched tile holds the samples of the archive the file list records for the key; a failed fetch keeps the previous tile and is `NoSuchTile` exactly when the key is not in the file list, and `InvalidTile` for the key otherwise; so a run of successful queries inside one cell fetches at most once |
| TileManager.LookupInHeldTileSucceeds | srtm_manager.py:20-28 | the lookup in the floored tile never reports a position outside it |
| RegionGrid.Ceil | region.py:216 | `math.ceil` is the least integer at or above its argument |
| RegionGrid.AspectRatio | region.py:125-129 | the ratio fails exactly when the longitude extent is zero; otherwise it times that extent is the latitude extent |
| RegionGrid.Padding | region.py:147-150 | the padding is the percentage of the smaller extent |
| RegionGrid.Pad | region.py:152-155 | padding grows each extent by the padding and keeps the box's centre |
| RegionGrid.PaddingWidensTheBox | region.py:146-158 | for a proper box, padding grows both extents by the padding, keeps the aspect ratio's side of 1, and moves it toward 1 without crossing |
| RegionGrid.RatioMovesTowardOne | region.py:157 | adding the same amount to both extents moves their ratio toward 1 without crossing it |
| RegionGrid.SampleCounts | region.py:162-167 | the counts fail exactly when the aspect ratio is zero |
| RegionGrid.SampleCountsRule | region.py:160-167 | a box taller than wide (aspect > 1) gets `resolution` longitude samples and `int(resolution / aspect)` latitude samples; a wide or square box gets `resolution` latitude samples and `int(resolution / aspect)` longitude samples |
| RegionGrid.PlanLayout | region.py:160-170 | the layout exists exactly when both counts are positive; a zero count is a division by zero and a negative one a `NegativeDimensions` error; each interval times its count is the extent |
| RegionGrid.SamplesInsideBox | region.py:188-191 | every sampled latitude lies strictly inside the box |
| RegionGrid.SampledCell | region.py:188-202 | what the sampling walk leaves in cell (r, c): the truthy altitude of the flipped row's sample point, otherwise the old value |
| RegionGrid.VisitSample | region.py:190-201 | one sample of the walk: a truthy altitude replaces the valley when strictly lower and the peak when strictly higher, with its position |
| RegionGrid.WalkRowFrom | region.py:189-201 | the walk over one row from a given column to the end |
| RegionGrid.WalkRowsFrom | region.py:188-201 | the walk over the rows from a given one to the end, each from column 1 |
| RegionGrid.WalkGrid | region.py:188-201 | the whole walk from row 1 and column 1; `WalkBoundsSamples` and `WalkAttainsExtremes` are about it |
| RegionGrid.SampledCellSkipsBorder | region.py:188-202 | row 0, column 0 and cells whose altitude is falsy keep their previous value |
| RegionGrid.WalkBoundsSamples | region.py:188-202 | the walk only widens the peak–valley range, and every truthy sample lies within the final range |
| RegionGrid.WalkAttainsExtremes | region.py:193-201 | the final peak and valley are the starting ones or are attained by the altitude at the recorded position |
| RegionGrid.SampleRow | region.py:189-202 | the inner loop writes exactly the flipped row of its latitude, as the reference, and continues the walk |
| RegionGrid.SampleGrid | region.py:188-202 | the nested loops write every cell as the reference and perform the reference walk |
| RegionGrid.GreyDelta | region.py:215-217 | the grey step fails, as a division by zero, exactly when the band width is zero or the rounded-up number of steps is zero |
| RegionGrid.GreyDeltaIsAtMostDelta | region.py:215-217 | for a positive range and band width, the grey step is positive and at most the band width |
| RegionGrid.Band | region.py:220 | the contour band of an altitude, `math.floor(value / contour_delta)` |
| RegionGrid.BandShade | region.py:221 | the shade of a band, `int(math.floor(band · grey_delta))` |
| RegionGrid.Shade | region.py:219-222 | the shade of a cell; the three lemmas below prove it monotonic, constant on bands and between 0 and the altitude |
| RegionGrid.ShadeIsMonotonic | region.py:219-222 | shading preserves the order of altitudes |
| RegionGrid.ShadeIsConstantOnBands | region.py:219-222 | altitudes in the same band get the same shade |
| RegionGrid.ShadeIsBetweenZeroAndValue | region.py:215-222 | a non-negative altitude is shaded to a value between zero and itself |
| RegionGrid.ContourRow | region.py:219-222 | one row's cells are replaced by their shades and all other cells are unchanged |
| RegionGrid.ContourGrid | region.py:219-222 | every cell is replaced by its shade |
| RegionGrid.Zeros | region.py:177 | a fresh grid of the given shape holding only zeros |
| Regions.PlanRegion | region.py:17-43 | a planned region has positive sample counts and extents equal to those of its padded box |
| Regions.PlanOfProperBox | region.py:146-170 | for a proper box only the layout can fail; the padded box is the given one grown by the padding |
| Regions.Region.Init | region.py:17-28 | the fields as set before the first computation, with the initial peak 0 and valley 32767 |
| Regions.Region.New | region.py:13-43 | construction succeeds exactly when the plan does, then holds the plan's box, extents, aspect ratio, padding and layout, the initial walk and a grid of zeros; otherwise it fails with the plan's error |
| Regions.Region.CalculateAspectRatio | region.py:125-129 | the extents are set from the box and the ratio is computed, or fails on a zero longitude extent; nothing else changes |
| Regions.Region.AddCoordinatePadding | region.py:146-158 | the bounds move outward by half the padding, and the extents and the ratio are recomputed; nothing else changes |
| Regions.Region.SetupOutfile | region.py:160-177 | the layout is planned and a zero grid of that shape allocated, or the plan's error is returned with nothing changed |
| Regions.Region.OverlayMap | region.py:179-202 | the grid and the walk are the reference sampling; every truthy sample written lies between the final valley and peak |
| Regions.Region.Contour | region.py:209-222 | every cell is shaded, or a division by zero leaves the grid unchanged |
| Regions.Region.OverlayGps | region.py:263-321 | every cell ends up holding the value of the last stamping that covered it, or its old value |
| GpsOverlay.StepPoint | region.py:274-321 | one point of the overlay: the carried altitude, the projection of an inside point and the stamping of the line back to the previous pixel |
| GpsOverlay.Overlay | region.py:271-321 | the points processed in order from a carried state, with the stampings in order; the reference for the overlay methods |
| GpsOverlay.Painted | region.py:318-319 | the value a cell holds after a run of stampings; `PaintedIsLastStamp` proves it is the last covering stamping's value |
| GpsOverlay.StepCarriesAltitude | region.py:276-281 | a falsy altitude is replaced by the last truthy one (initially 0) |
| GpsOverlay.OutsidePointIsSkipped | region.py:285-288 | a point outside the region stamps nothing and keeps the previous pixel |
| GpsOverlay.InsidePointIsProjected | region.py:288-321 | a point inside becomes the previous pixel; it stamps one line exactly when there was a previous pixel, with the carried altitude raised by the elevation |
| GpsOverlay.PixelOf | region.py:285-294 | the pixel of an inside point, `floor` of its fraction of each extent times the sample count; `PixelOfLiesInGrid` proves it in the grid |
| GpsOverlay.CellOf | region.py:304-318 | the cell a circle offset around a line pixel lands on: flipped, clamped from above and addressed as numpy does; `InsideOffsetIsExact`, `BeyondOffsetIsClamped` and `CellFits` are about it |
| GpsOverlay.PixelIndexInRange | region.py:289-294 | a distance within the extent projects to an index within the sample count |
| GpsOverlay.PixelOfLiesInGrid | region.py:285-294 | an inside point projects to a pixel inside the grid |
| GpsOverlay.InsideOffsetIsExact | region.py:304-313 | an offset landing inside the grid addresses the flipped cell itself |
| GpsOverlay.BeyondOffsetIsClamped | region.py:312-318 | an index past the top end is clamped to the last row or column; a negative row counts from the end, as numpy does |
| GpsOverlay.CellFits | region.py:304-318 | for a circle of radius at most one more than the grid's dimensions, every stamped cell is inside the grid |
| GpsOverlay.LineCellsAreCircleCells | region.py:298-318 | the cells of a line are exactly the circle cells around its pixels |
| GpsOverlay.LineCellsFit | region.py:298-318 | all cells of a line of in-grid pixels are inside the grid |
| GpsOverlay.PaintedAppend | region.py:271-321 | painting two runs of stampings is painting the second over the first |
| GpsOverlay.PaintedIsLastStamp | region.py:318-319 | a cell holds the value of the last stamping that covers it, or its old value if none does |
| GpsOverlay.OverlayAppend | region.py:271-273 | processing two runs of points is processing the first and then the second from its final state |
| GpsOverlay.StampValueIsCarriedAltitude | region.py:276-319 | every stamped value is a truthy altitude of an earlier or current point, or 0, raised by the elevation |
| GpsOverlay.StampCell | region.py:318-319 | one write extends the stamped cells by that cell |
| GpsOverlay.StampCircle | region.py:308-319 | the circle loop stamps exactly the circle's cells and leaves every other cell unchanged |
| GpsOverlay.StampLine | region.py:298-319 | the pixel loop stamps exactly the line's cells and leaves every other cell unchanged |
| GpsOverlay.OverlayPoint | region.py:274-321 | one point updates the carried state and the grid as the reference step |
| GpsOverlay.OverlaySegment | region.py:273-321 | a segment's points update the state and the grid as the reference overlay |
| GpsOverlay.OverlayTrack | region.py:272-321 | a track's segments do the same |
| GpsOverlay.OverlayTracks | region.py:268-321 | starting without a previous pixel and with altitude 0, the tracks paint the grid as the reference overlay |
| LegacyRegions.LegacyPlan | srtm_manager.py:144-157 | the unpadded plan: aspect ratio, then counts and intervals, or the first error; `ParseRegion` and `PlanGrid` are proved against it |
| LegacyRegions.Region.constructor | srtm_manager.py:35-46 | the box and resolution as given, aspect ratio 1.0, peak 0, valley 32767 |
| LegacyRegions.Region.ParseRegion | srtm_manager.py:143-180 | the extents are those of the box; parsing fails exactly when the unpadded plan does, with its error, and changes neither grid nor walk; otherwise it stores the plan, a fresh grid of the reference samples and the reference walk |
| LegacyRegions.Region.PlanGrid | srtm_manager.py:144-156 | the extents are those of the box, also on failure; the ratio, the counts and the intervals are those of the unpadded plan, or the plan fails with its error |
| LegacyRegions.Region.SampleRegion | srtm_manager.py:162-180 | a fresh grid of zeros is filled by the reference sampling and the walk is recorded; the box, the extents, the ratio and the layout are kept |
| LegacyRegions.Region.Contour | srtm_manager.py:184-197 | a fresh copy of the grid with every cell shaded, leaving the grid alone, or a division by zero |
| Tracks.SegmentPointIsListed | gpx_manager.py:18-19 | every point of every segment is among the listed points |
| Tracks.ListedPointIsInSegment | gpx_manager.py:18-19 | every listed point belongs to some segment |
| Tracks.TrackPointIsListed | gpx_manager.py:17-19 | every point of every segment of every track is among the document's points |
| Tracks.ListedPointIsInTrack | gpx_manager.py:17-19 | every point of the document belongs to some segment of some track |
| GpxManager.Visit | gpx_manager.py:20-27 | one point of the scan: each side the point goes beyond is replaced by its coordinate |
| GpxManager.VisitAll | gpx_manager.py:17-27 | the scan over the points in order; the lemmas below prove it encloses every point and attains each side |
| GpxManager.Bounds | gpx_manager.py:10-31 | the scan of all points of the document from the start box (−300, 300, 300, −300); `BoundsAreTight` is about it |
| GpxManager.VisitAllAppend | gpx_manager.py:17-19 | scanning two runs in turn is scanning their concatenation |
| GpxManager.VisitAllEncloses | gpx_manager.py:12-27 | the scan only widens the box, and the final box holds every point |
| GpxManager.VisitAllAttains | gpx_manager.py:12-27 | each side of the final box is its starting value or some point's coordinate |
| GpxManager.EmptyTrackKeepsStart | gpx_manager.py:12-15 | without points the box stays the inverted start box (−300, 300, 300, −300) |
| GpxManager.BoundsAreTight | gpx_manager.py:10-31 | with points inside ±300, the box holds them all, is the right way round, and each side is attained by a point |
| GpxManager.ScanSegment | gpx_manager.py:19-27 | the point loop computes the reference scan |
| GpxManager.ScanTrack | gpx_manager.py:18-27 | the segment loop computes the reference scan of the track's points |
| GpxManager.ScanTracks | gpx_manager.py:12-27 | the track loop computes the reference scan from the start box |
| GpxManager.Manager.constructor | gpx_manager.py:2-8 | the manager holds the document, and its corners are already those of the scan |
| GpxManager.Manager.Create | gpx_manager.py:2-8 | a missing document is an error; otherwise a manager for it is created |
| GpxManager.Manager.Parse | gpx_manager.py:10-31 | the corners become those of the scan of the document |
| GpxManager.Manager.GetBoundaries | gpx_manager.py:33-34 | the returned corners are set, and every point lies between them |

## Left out

- File, network and cache I/O: FTP/HTTP downloads, the file-list pickle,
  zip extraction, the byte swap, `save_to_file`, the region caches and their
  directory naming, and `_save_cache`/`_load_cache`. Archive contents and altitudes
  are parameters instead.
- `SRTMDownloader.loadFileList`, `createFileList` and `createFileListHTTP` are
  modelled only through `AddFile` and the parser handlers; the `'jpg'` filter on
  region names is not modelled.
- The HTML tokenizer itself (Python's `HTMLParser`): the model takes its stream of
  callbacks as given.
- `geo.py`, `haversine`, `get_xy`, `_calculate_distance_ratio`,
  `_calculate_area_size` and the midpoint are not part of this model. Their values
  feed only metadata, but one error path goes with them; see the next two lines.
- Regions.Region.SetupOutfile: `_calculate_distance_ratio` (region.py:110-121)
  divides by the haversine distance between the parallels `ceil` and `floor` of
  `north_lat + 0.0001`. When that value is a whole number the two parallels coincide,
  the distance is 0 and `_setup_outfile` raises `ZeroDivisionError`. The model
  returns `Ok` there, so this error path is not modelled, for `Regions.Region.New`
  either.
- LegacyRegions.Region.ParseRegion: the same division (srtm_manager.py:131-141,
  called at 158) raises `ZeroDivisionError` for such a `north_lat`; the model does not
  model that error path and returns the sampled grid.
- `median_filter` (SciPy), the scripts, and `util.overlay_gps`, which duplicates
  `Region.overlay_gps`.
- `Region.__init__`'s `auto_parse` call chain (`overlay_map` and `_load_cache`) and
  the `patch_mode` argument: the constructor's imports and arguments do not match
  the tile manager it calls. `Regions.Region.New` therefore stops after
  `_setup_outfile`, and `OverlayMap` is called on its own.
- LegacyRegions.Region.constructor: the source's constructor ends by calling
  `parse_region()` when `no_cache` is set and `_load_cache()` otherwise
  (srtm_manager.py:50-53). The model's constructor does neither; `ParseRegion` is
  called on its own, and the cache is not modelled.
- The import at region.py:7, which takes `SRTMManager` from `srtm` although the
  class is defined in srtm_manager.py, is not modelled. `SRTMManager`'s `srtm_format` argument is not modelled either.
- Floating point: all coordinates and altitudes are exact reals. Rounding of
  floating-point arithmetic is not modelled.
- Python 2 integers: when both operands are integers, `/` floors. Every such
  division is real division here. This matters in `contour` when the peak, the
  valley and the band width are all integers, and in the legacy `parse_region`
  when the bounds are integers; both cases are not modelled.
- LegacyRegions.Region.PlanGrid: with integer bounds, srtm_manager.py:146 floors
  the aspect ratio and 155-156 floor the intervals. For `Region(38, -122, 37, -124)`
  the deltas are 1 and 2, the aspect ratio is 1/2 = 0, and `int(500 / 0)` raises
  `ZeroDivisionError`. The model divides exactly and plans a 500 × 1000 grid for
  those bounds. With integer deltas and a non-zero aspect ratio the source's
  intervals are 0, so every sample is taken at the south-west corner; the model
  spaces the samples across the box. `LegacyRegions.Region.ParseRegion` and
  `LegacyRegions.LegacyPlan` inherit this.
- Srtm.TileError: the three exception classes call `Exception.__init__()` without
  `self` (srtm.py:26, 37 and 51). In Python 2 that call raises `TypeError`, so each
  raise at srtm.py:189, 251, 256, 260 and 318 ends in a `TypeError` without the
  coordinates. The `NoSuchTile`, `InvalidTile` and `WrongTile` cases and their fields
  are the intended errors. `Srtm.CheckTile`, `Srtm.Tile.Open`,
  `Srtm.AltitudeFromLatLon`, `Srtm.Tile.GetAltitudeFromLatLon`,
  `SrtmDownloader.Downloader.GetTile` and `TileManager.Manager.GetAltitude` report
  those cases; they do not model the `TypeError`.
- Srtm.ISqrt: `int(math.sqrt(n))` is modelled as the exact integer square root;
  floating-point square roots agree for the sample counts that occur (below 2^52).
- Srtm.CheckTile: an odd byte count, which makes `array.array` raise `ValueError`, is
  not modelled; samples arrive already decoded.
- Srtm.Tile.Interpolate: requires the void to lie at least two samples from every
  edge (`Interior`). Nearer the edge the sixteen reads (srtm.py:359-378) go through
  `getPixelValue` (srtm.py:297-308), and the source has three outcomes, none of
  which is modelled:
  - y < 2: one of the reads below the void has offset at least size², and the
    source raises `IndexError` at the first such read (srtm.py:359-362). For y = 0
    that is `bl1` when x ≥ 1 and `bl2` when x = 0. For y = 1 it is `bl2` when
    x ≥ 2 and `b2` when x < 2;
  - otherwise, x + 2 ≥ size or y + 2 ≥ size: a read such as `br2` at (x + 2, y − 2)
    fails `assert x < self.size` or `assert y < self.size` (srtm.py:300-301), and
    with assertions enabled the source raises `AssertionError`;
  - otherwise, x < 2: the reads at x − 1 and x − 2 have offsets that land in the
    far end of the next row up, or, for `tl2` when y + 2 = size − 1, a negative
    offset that Python takes from the end of the data. No error is raised, and
    the estimate is computed from those wrong pixels.
- Srtm.Tile.FillNulls: requires `VoidsInterior` (every void is interior), because
  the estimate at a void near the edge has the three outcomes listed for
  `Srtm.Tile.Interpolate`: `IndexError`, `AssertionError`, or a silent estimate from
  wrong pixels. A void with no usable direction is modelled as `Err(NoDirection)`
  (the source's `ZeroDivisionError`): the sweep stops, and the samples written before
  it are kept, as in the source.
- Srtm.Estimate: the diagnostic print at srtm.py:412-413 has no effect on the result
  and is not modelled.
- Regions.Region.OverlayGps: requires the circle radius to be at most one more than
  each grid dimension. A larger circle reaches indices below −size, where numpy
  raises `IndexError`, and that error is not modelled.
- GpsOverlay: negative indices after the upper clamp are modelled as numpy
  addresses them (`NumpyIndex`). The circle's points are a set, so the order in
  which one line's cells are written does not matter: they all receive the same
  value.
- Regions.Region.New: a failure leaves no object in the model. In the source a
  failing constructor raises, so no partially built region escapes either.
- The `ne`/`sw` dictionaries of `GPXManager` are values here. The source returns
  the same dictionary objects on every call, so a caller that mutated them would
  see the change in the manager; that aliasing is not modelled.
- Peak and valley latitudes and longitudes are recorded as `Option<real>`. The
  walk's altitude comparison follows the source, including the `if alt:` test that
  skips an altitude of exactly 0.
- Progress reporting (`update_status`) and every `print`.
