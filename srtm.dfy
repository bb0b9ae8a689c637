/** One SRTM elevation tile: a square grid of signed 16-bit samples covering the
    1-degree cell whose south-west corner is (lat, lon), with a one-sample overlap
    into the neighbouring tiles.  Row 0 of the stored data is the northern edge;
    the y coordinate used to address a sample counts from the southern edge. */
module Srtm {
  import opened Wrappers
  import opened Arithmetic

  /** A signed 16-bit sample. */
  type Sample = x: int | -32768 <= x <= 32767

  /** The sample value that marks a void (no data). */
  const VOID: Sample := -32768

  /** The two tile sizes that are accepted: SRTM3 and SRTM1. */
  const SRTM3_SIZE: nat := 1201
  const SRTM1_SIZE: nat := 3601

  /** The errors raised by tile lookup and sampling. */
  datatype TileError =
    | NoSuchTile(reqLat: real, reqLon: real)
    | WrongTile(tileLat: int, tileLon: int, reqLat: real, reqLon: real)
    | InvalidTile(tileLat: int, tileLon: int)

  // ---------------------------------------------------------------------------
  // Size check of a freshly read tile
  // ---------------------------------------------------------------------------

  lemma SquareIsMonotonic(a: nat, b: nat)
    ensures a <= b ==> a * a <= b * b
  {
    if a <= b {
      MulIsMonotonic(a, a, b);
      MulIsMonotonic(b, a, b);
    }
  }

  /** The integer square root, rounded down. */
  function ISqrt(n: nat): (r: nat)
    ensures r * r <= n < (r + 1) * (r + 1)
  {
    if n == 0 then 0
    else
      var s := ISqrt(n - 1);
      if (s + 1) * (s + 1) <= n then
        assert (s + 2) * (s + 2) == (s + 1) * (s + 1) + 2 * s + 3;
        s + 1
      else s
  }

  lemma ISqrtOfSquare(s: nat)
    ensures ISqrt(s * s) == s
  {
    var r := ISqrt(s * s);
    SquareIsMonotonic(r + 1, s);
    SquareIsMonotonic(s + 1, r);
  }

  /** The checks the tile constructor makes on the archive it opened: exactly one
      entry, a side length (the square root of the sample count, rounded down) of
      1201 or 3601, and exactly side * side samples.  Yields the side length. */
  function CheckTile(entryCount: nat, samples: seq<Sample>, lat: int, lon: int): (r: Result<nat, TileError>)
    ensures r.Err? ==> r.error == InvalidTile(lat, lon)
  {
    if entryCount != 1 then Err(InvalidTile(lat, lon))
    else
      var size := ISqrt(|samples|);
      if size != SRTM3_SIZE && size != SRTM1_SIZE then Err(InvalidTile(lat, lon))
      else if |samples| != size * size then Err(InvalidTile(lat, lon))
      else Ok(size)
  }

  /** A tile is accepted with side length `size` exactly when it has one entry,
      `size` is one of the two SRTM sizes and there are size * size samples. */
  lemma CheckTileAccepts(entryCount: nat, samples: seq<Sample>, lat: int, lon: int, size: nat)
    ensures CheckTile(entryCount, samples, lat, lon) == Ok(size) <==>
      entryCount == 1 && (size == SRTM3_SIZE || size == SRTM1_SIZE) && |samples| == size * size
  {
    if |samples| == size * size {
      ISqrtOfSquare(size);
    }
  }

  // ---------------------------------------------------------------------------
  // Addressing
  // ---------------------------------------------------------------------------

  /** Offset of sample (x, y) in the row-major data, rows stored north to south:
      x counts columns from the west, y rows from the south. */
  function CalcOffset(size: nat, x: int, y: int): int
  {
    x + size * (size - y - 1)
  }

  lemma OffsetInRange(size: nat, x: int, y: int)
    requires 0 <= x < size && 0 <= y < size
    ensures 0 <= CalcOffset(size, x, y) < size * size
  {
    MulIsMonotonic(size, size - y - 1, size - 1);
    assert size * (size - 1) + size == size * size;
  }

  /** Distinct samples have distinct offsets. */
  lemma OffsetIsInjective(size: nat, x: int, y: int, x': int, y': int)
    requires 0 <= x < size && 0 <= y < size && 0 <= x' < size && 0 <= y' < size
    requires CalcOffset(size, x, y) == CalcOffset(size, x', y')
    ensures x == x' && y == y'
  {
    var a, b := size - y - 1, size - y' - 1;
    assert size * a - size * b == x' - x;
    assert size * (a - b) == x' - x;
    if a < b {
      MulIsMonotonic(size, a - b, -1);
    } else if a > b {
      MulIsMonotonic(size, 1, a - b);
    }
  }

  /** The corner offsets of the data layout: the north-west sample comes first, the
      south-east one last. */
  lemma OffsetCorners(size: nat)
    requires size >= 2
    ensures CalcOffset(size, 0, size - 1) == 0
    ensures CalcOffset(size, size - 1, size - 1) == size - 1
    ensures CalcOffset(size, 0, size - 2) == size
    ensures CalcOffset(size, size - 1, size - 2) == 2 * size - 1
    ensures CalcOffset(size, 0, 0) == size * (size - 1)
    ensures CalcOffset(size, size - 1, 0) == size * size - 1
  {
    assert size * (size - 1) == size * size - size;
  }

  /** The value of sample (x, y), or None for a void. */
  function PixelValue(samples: seq<Sample>, size: nat, x: int, y: int): (r: Option<int>)
    requires |samples| == size * size && 0 <= x < size && 0 <= y < size
    ensures r != Some(VOID as int)
  {
    OffsetInRange(size, x, y);
    var value := samples[CalcOffset(size, x, y)];
    if value == VOID then None else Some(value)
  }

  /** A sample reads as void exactly when it holds VOID, and otherwise reads as
      its stored value. */
  lemma PixelValueIsSample(samples: seq<Sample>, size: nat, x: int, y: int)
    requires |samples| == size * size && 0 <= x < size && 0 <= y < size
    ensures 0 <= CalcOffset(size, x, y) < |samples|
    ensures PixelValue(samples, size, x, y).None? <==> samples[CalcOffset(size, x, y)] == VOID
    ensures PixelValue(samples, size, x, y).Some? ==>
      PixelValue(samples, size, x, y).value == samples[CalcOffset(size, x, y)]
  {
    OffsetInRange(size, x, y);
  }

  // ---------------------------------------------------------------------------
  // Bilinear lookup
  // ---------------------------------------------------------------------------

  /** Weighted average of two optional values; a missing operand yields the other. */
  function Avg(v1: Option<real>, v2: Option<real>, weight: real): Option<real>
  {
    if v1.None? then v2
    else if v2.None? then v1
    else Some(v2.value * weight + v1.value * (1.0 - weight))
  }

  predicate WithinOpt(v: Option<real>, lo: real, hi: real)
  {
    v.Some? ==> lo <= v.value <= hi
  }

  /** The average is missing only when both operands are, and for a weight in
      [0, 1] it never leaves an interval holding both operands. */
  lemma AvgIsBetween(v1: Option<real>, v2: Option<real>, weight: real, lo: real, hi: real)
    requires 0.0 <= weight <= 1.0
    requires WithinOpt(v1, lo, hi) && WithinOpt(v2, lo, hi)
    ensures WithinOpt(Avg(v1, v2, weight), lo, hi)
  {
    if v1.Some? && v2.Some? {
      ConvexCombination(v1.value, v2.value, weight, lo, hi);
    }
  }

  lemma ConvexCombination(a: real, b: real, w: real, lo: real, hi: real)
    requires 0.0 <= w <= 1.0 && lo <= a <= hi && lo <= b <= hi
    ensures lo <= b * w + a * (1.0 - w) <= hi
  {
    ProductIsNonNegative(b - lo, w);
    ProductIsNonNegative(a - lo, 1.0 - w);
    ProductIsNonNegative(hi - b, w);
    ProductIsNonNegative(hi - a, 1.0 - w);
    assert b * w + a * (1.0 - w) - lo == (b - lo) * w + (a - lo) * (1.0 - w);
    assert hi - (b * w + a * (1.0 - w)) == (hi - b) * w + (hi - a) * (1.0 - w);
  }

  lemma ProductIsNonNegative(x: real, y: real)
    requires 0.0 <= x && 0.0 <= y
    ensures 0.0 <= x * y
  {
  }

  /** Weight 0 keeps the first operand, weight 1 the second. */
  lemma AvgAtEnds(v1: Option<real>, v2: Option<real>)
    ensures v1.Some? ==> Avg(v1, v2, 0.0) == v1
    ensures v2.Some? ==> Avg(v1, v2, 1.0) == v2
  {
  }

  /** Integer part and fraction of a coordinate offset in [0, 1) scaled to the
      grid; the integer part leaves room for its right/upper neighbour. */
  function Cell(size: nat, offset: real): (c: (int, real))
    requires size >= 2 && 0.0 <= offset < 1.0
    ensures 0 <= c.0 && c.0 + 1 <= size - 1
    ensures 0.0 <= c.1 < 1.0
  {
    var t := offset * (size - 1) as real;
    ScaledFractionIsBelow(offset, (size - 1) as real);
    (t.Floor, t - t.Floor as real)
  }

  lemma ScaledFractionIsBelow(offset: real, n: real)
    requires 0.0 <= offset < 1.0 && n > 0.0
    ensures 0.0 <= offset * n < n
  {
    ProductIsNonNegative(offset, n);
    assert n - offset * n == (1.0 - offset) * n;
    ProductIsNonNegative(1.0 - offset, n);
    assert (1.0 - offset) * n != 0.0;
  }

  function ToReal(v: Option<int>): Option<real>
  {
    if v.Some? then Some(v.value as real) else None
  }

  predicate InTile(tileLat: int, tileLon: int, lat: real, lon: real)
  {
    0.0 <= lat - tileLat as real < 1.0 && 0.0 <= lon - tileLon as real < 1.0
  }

  /** Altitude at (lat, lon) by bilinear interpolation between the four samples
      around it, for the tile whose south-west corner is (tileLat, tileLon). */
  function AltitudeFromLatLon(samples: seq<Sample>, size: nat, tileLat: int, tileLon: int,
                              lat: real, lon: real): (r: Result<Option<real>, TileError>)
    requires |samples| == size * size && size >= 2
    ensures r.Err? <==> !InTile(tileLat, tileLon, lat, lon)
    ensures r.Err? ==> r.error == WrongTile(tileLat, tileLon, lat, lon)
  {
    var dlat := lat - tileLat as real;
    var dlon := lon - tileLon as real;
    if dlat < 0.0 || dlat >= 1.0 || dlon < 0.0 || dlon >= 1.0 then
      Err(WrongTile(tileLat, tileLon, tileLat as real + dlat, tileLon as real + dlon))
    else
      var (xi, xf) := Cell(size, dlon);
      var (yi, yf) := Cell(size, dlat);
      var value00 := ToReal(PixelValue(samples, size, xi, yi));
      var value10 := ToReal(PixelValue(samples, size, xi + 1, yi));
      var value01 := ToReal(PixelValue(samples, size, xi, yi + 1));
      var value11 := ToReal(PixelValue(samples, size, xi + 1, yi + 1));
      Ok(Avg(Avg(value00, value10, xf), Avg(value01, value11, xf), yf))
  }

  /** Every present sample of the 2x2 block with lower-left corner (xi, yi) lies in
      [lo, hi]. */
  predicate BlockWithin(samples: seq<Sample>, size: nat, xi: int, yi: int, lo: real, hi: real)
    requires |samples| == size * size && 0 <= xi && xi + 1 < size && 0 <= yi && yi + 1 < size
  {
    WithinOpt(ToReal(PixelValue(samples, size, xi, yi)), lo, hi) &&
    WithinOpt(ToReal(PixelValue(samples, size, xi + 1, yi)), lo, hi) &&
    WithinOpt(ToReal(PixelValue(samples, size, xi, yi + 1)), lo, hi) &&
    WithinOpt(ToReal(PixelValue(samples, size, xi + 1, yi + 1)), lo, hi)
  }

  predicate BlockVoid(samples: seq<Sample>, size: nat, xi: int, yi: int)
    requires |samples| == size * size && 0 <= xi && xi + 1 < size && 0 <= yi && yi + 1 < size
  {
    PixelValue(samples, size, xi, yi).None? && PixelValue(samples, size, xi + 1, yi).None? &&
    PixelValue(samples, size, xi, yi + 1).None? && PixelValue(samples, size, xi + 1, yi + 1).None?
  }

  /** Inside the tile the lookup succeeds; it is missing exactly when all four
      surrounding samples are void, and it never leaves an interval that holds
      every present surrounding sample (interpolation does not overshoot). */
  lemma AltitudeIsBetweenNeighbours(samples: seq<Sample>, size: nat, tileLat: int, tileLon: int,
                                    lat: real, lon: real, lo: real, hi: real)
    requires |samples| == size * size && size >= 2 && InTile(tileLat, tileLon, lat, lon)
    ensures var xi := Cell(size, lon - tileLon as real).0;
            var yi := Cell(size, lat - tileLat as real).0;
            var r := AltitudeFromLatLon(samples, size, tileLat, tileLon, lat, lon);
            r.Ok? && (r.value.None? <==> BlockVoid(samples, size, xi, yi)) &&
            (BlockWithin(samples, size, xi, yi, lo, hi) ==> WithinOpt(r.value, lo, hi))
  {
    var (xi, xf) := Cell(size, lon - tileLon as real);
    var (yi, yf) := Cell(size, lat - tileLat as real);
    var value00 := ToReal(PixelValue(samples, size, xi, yi));
    var value10 := ToReal(PixelValue(samples, size, xi + 1, yi));
    var value01 := ToReal(PixelValue(samples, size, xi, yi + 1));
    var value11 := ToReal(PixelValue(samples, size, xi + 1, yi + 1));
    if BlockWithin(samples, size, xi, yi, lo, hi) {
      AvgIsBetween(value00, value10, xf, lo, hi);
      AvgIsBetween(value01, value11, xf, lo, hi);
      AvgIsBetween(Avg(value00, value10, xf), Avg(value01, value11, xf), yf, lo, hi);
    }
  }

  /** At a position that falls exactly on a present sample the lookup returns
      that sample. */
  lemma AltitudeAtGridPoint(samples: seq<Sample>, size: nat, tileLat: int, tileLon: int, lat: real, lon: real)
    requires |samples| == size * size && size >= 2 && InTile(tileLat, tileLon, lat, lon)
    requires Cell(size, lon - tileLon as real).1 == 0.0 && Cell(size, lat - tileLat as real).1 == 0.0
    requires PixelValue(samples, size, Cell(size, lon - tileLon as real).0, Cell(size, lat - tileLat as real).0).Some?
    ensures AltitudeFromLatLon(samples, size, tileLat, tileLon, lat, lon) ==
      Ok(ToReal(PixelValue(samples, size, Cell(size, lon - tileLon as real).0, Cell(size, lat - tileLat as real).0)))
  {
    var (xi, xf) := Cell(size, lon - tileLon as real);
    var (yi, yf) := Cell(size, lat - tileLat as real);
    var value00 := ToReal(PixelValue(samples, size, xi, yi));
    var value10 := ToReal(PixelValue(samples, size, xi + 1, yi));
    var value01 := ToReal(PixelValue(samples, size, xi, yi + 1));
    var value11 := ToReal(PixelValue(samples, size, xi + 1, yi + 1));
    AvgAtEnds(value00, value10);
    AvgAtEnds(Avg(value00, value10, xf), Avg(value01, value11, xf));
  }

  // ---------------------------------------------------------------------------
  // Void filling
  // ---------------------------------------------------------------------------

  /** The division by zero raised when a void has no usable direction. */
  datatype FillError = NoDirection

  /** Samples whose whole 5x5 neighbourhood lies inside the tile. */
  predicate Interior(size: nat, x: int, y: int)
  {
    2 <= x && x + 2 < size && 2 <= y && y + 2 < size
  }

  /** The estimate seen from one direction: the near neighbour plus the step from
      the far neighbour to it, when both are present. */
  function Extrapolate(near: Option<int>, far: Option<int>): Option<int>
  {
    if near.Some? && far.Some? then Some(near.value * 2 - far.value) else None
  }

  function AsSeq(o: Option<int>): seq<int>
  {
    if o.Some? then [o.value] else []
  }

  /** The estimates from the eight directions around (x, y), in the order the
      source collects them: bottom-left, bottom, bottom-right, left, right,
      top-left, top, top-right; each from the neighbour at distance 1 and the one
      at distance 2 on that line. */
  function Vectors(samples: seq<Sample>, size: nat, x: int, y: int): (r: seq<int>)
    requires |samples| == size * size && Interior(size, x, y)
    ensures |r| <= 8
  {
    AsSeq(Extrapolate(PixelValue(samples, size, x - 1, y - 1), PixelValue(samples, size, x - 2, y - 2))) +
    AsSeq(Extrapolate(PixelValue(samples, size, x, y - 1), PixelValue(samples, size, x, y - 2))) +
    AsSeq(Extrapolate(PixelValue(samples, size, x + 1, y - 1), PixelValue(samples, size, x + 2, y - 2))) +
    AsSeq(Extrapolate(PixelValue(samples, size, x - 1, y), PixelValue(samples, size, x - 2, y))) +
    AsSeq(Extrapolate(PixelValue(samples, size, x + 1, y), PixelValue(samples, size, x + 2, y))) +
    AsSeq(Extrapolate(PixelValue(samples, size, x - 1, y + 1), PixelValue(samples, size, x - 2, y + 2))) +
    AsSeq(Extrapolate(PixelValue(samples, size, x, y + 1), PixelValue(samples, size, x, y + 2))) +
    AsSeq(Extrapolate(PixelValue(samples, size, x + 1, y + 1), PixelValue(samples, size, x + 2, y + 2)))
  }

  function Sum(s: seq<int>): int
  {
    if s == [] then 0 else Sum(s[..|s| - 1]) + s[|s| - 1]
  }

  /** The replacement proposed for void (x, y): the mean of the directional
      estimates, dropped when it leaves [-32767, 32767]; no estimate at all is the
      division-by-zero error. */
  function Estimate(samples: seq<Sample>, size: nat, x: int, y: int): (r: Result<Option<real>, FillError>)
    requires |samples| == size * size && Interior(size, x, y)
    ensures r.Err? <==> Vectors(samples, size, x, y) == []
    ensures r.Ok? && r.value.Some? ==> -32767.0 <= r.value.value <= 32767.0
  {
    var vectors := Vectors(samples, size, x, y);
    if |vectors| == 0 then Err(NoDirection)
    else
      var average := Sum(vectors) as real / |vectors| as real;
      if average > 32767.0 || average < -32767.0 then Ok(None) else Ok(Some(average))
  }

  /** Conversion of an estimate to a sample, truncating toward zero; an estimate
      that passed the threshold never becomes the void marker. */
  function Truncate(a: real): (v: Sample)
    requires -32767.0 <= a <= 32767.0
    ensures v != VOID && -32767 <= v <= 32767
  {
    Trunc(a)
  }

  lemma SumOfConstant(s: seq<int>, c: int)
    requires forall i :: 0 <= i < |s| ==> s[i] == c
    ensures Sum(s) == c * |s|
  {
    if s != [] {
      SumOfConstant(s[..|s| - 1], c);
    }
  }

  /** A plane through the neighbourhood: sample (x + i, y + j) holds c + a*i + b*j. */
  predicate OnPlane(samples: seq<Sample>, size: nat, x: int, y: int, a: int, b: int, c: int, i: int, j: int)
    requires |samples| == size * size && Interior(size, x, y) && -2 <= i <= 2 && -2 <= j <= 2
  {
    PixelValue(samples, size, x + i, y + j) == Some(c + a * i + b * j)
  }

  lemma ExtrapolateOnPlane(near: Option<int>, far: Option<int>, c: int, d: int)
    requires near == Some(c + d) && far == Some(c + 2 * d)
    ensures Extrapolate(near, far) == Some(c)
  {
  }

  /** Directional extrapolation is exact on planes: when the sixteen samples the
      estimate reads lie on one plane, the estimate is the plane's value at (x, y). */
  lemma EstimateIsExactOnPlanes(samples: seq<Sample>, size: nat, x: int, y: int, a: int, b: int, c: int)
    requires |samples| == size * size && Interior(size, x, y) && -32767 <= c <= 32767
    requires forall i, j :: -2 <= i <= 2 && -2 <= j <= 2 && (i == 0 || j == 0 || i == j || i == -j) && (i, j) != (0, 0)
               ==> OnPlane(samples, size, x, y, a, b, c, i, j)
    ensures Estimate(samples, size, x, y) == Ok(Some(c as real))
  {
    assert OnPlane(samples, size, x, y, a, b, c, -1, -1);
    assert OnPlane(samples, size, x, y, a, b, c, -2, -2);
    ExtrapolateOnPlane(PixelValue(samples, size, x - 1, y - 1), PixelValue(samples, size, x - 2, y - 2), c, -a + -b);
    assert OnPlane(samples, size, x, y, a, b, c, 0, -1);
    assert OnPlane(samples, size, x, y, a, b, c, 0, -2);
    ExtrapolateOnPlane(PixelValue(samples, size, x, y - 1), PixelValue(samples, size, x, y - 2), c, 0 + -b);
    assert OnPlane(samples, size, x, y, a, b, c, 1, -1);
    assert OnPlane(samples, size, x, y, a, b, c, 2, -2);
    ExtrapolateOnPlane(PixelValue(samples, size, x + 1, y - 1), PixelValue(samples, size, x + 2, y - 2), c, a + -b);
    assert OnPlane(samples, size, x, y, a, b, c, -1, 0);
    assert OnPlane(samples, size, x, y, a, b, c, -2, 0);
    ExtrapolateOnPlane(PixelValue(samples, size, x - 1, y), PixelValue(samples, size, x - 2, y), c, -a + 0);
    assert OnPlane(samples, size, x, y, a, b, c, 1, 0);
    assert OnPlane(samples, size, x, y, a, b, c, 2, 0);
    ExtrapolateOnPlane(PixelValue(samples, size, x + 1, y), PixelValue(samples, size, x + 2, y), c, a + 0);
    assert OnPlane(samples, size, x, y, a, b, c, -1, 1);
    assert OnPlane(samples, size, x, y, a, b, c, -2, 2);
    ExtrapolateOnPlane(PixelValue(samples, size, x - 1, y + 1), PixelValue(samples, size, x - 2, y + 2), c, -a + b);
    assert OnPlane(samples, size, x, y, a, b, c, 0, 1);
    assert OnPlane(samples, size, x, y, a, b, c, 0, 2);
    ExtrapolateOnPlane(PixelValue(samples, size, x, y + 1), PixelValue(samples, size, x, y + 2), c, 0 + b);
    assert OnPlane(samples, size, x, y, a, b, c, 1, 1);
    assert OnPlane(samples, size, x, y, a, b, c, 2, 2);
    ExtrapolateOnPlane(PixelValue(samples, size, x + 1, y + 1), PixelValue(samples, size, x + 2, y + 2), c, a + b);
    var vectors := Vectors(samples, size, x, y);
    assert vectors == [c, c, c, c, c, c, c, c];
    SumOfConstant(vectors, c);
  }

  /** Every void lies in the interior of the tile. */
  predicate VoidsInterior(samples: seq<Sample>, size: nat)
    requires |samples| == size * size
  {
    forall x, y :: 0 <= x < size && 0 <= y < size && PixelValue(samples, size, x, y).None? ==> Interior(size, x, y)
  }

  /** `after` differs from `before` only where `before` held a void, and holds no
      void there. */
  predicate OnlyVoidsFilled(before: seq<Sample>, after: seq<Sample>)
  {
    |after| == |before| &&
    forall i :: 0 <= i < |before| ==> after[i] == before[i] || (before[i] == VOID && after[i] != VOID)
  }

  lemma OnlyVoidsFilledIsTransitive(a: seq<Sample>, b: seq<Sample>, c: seq<Sample>)
    requires OnlyVoidsFilled(a, b) && OnlyVoidsFilled(b, c)
    ensures OnlyVoidsFilled(a, c)
  {
  }

  /** Filling never creates a void, so voids that were interior stay interior. */
  lemma OnlyVoidsFilledKeepsVoidsInterior(size: nat, a: seq<Sample>, b: seq<Sample>)
    requires |a| == size * size && OnlyVoidsFilled(a, b) && VoidsInterior(a, size)
    ensures VoidsInterior(b, size)
  {
    forall x, y | 0 <= x < size && 0 <= y < size && PixelValue(b, size, x, y).None?
      ensures Interior(size, x, y)
    {
      PixelValueIsSample(a, size, x, y);
      PixelValueIsSample(b, size, x, y);
    }
  }

  /** The state of the sweep over the tile: still running with the samples so far,
      or stopped by the error at sample (x, y). */
  datatype Sweep = Running(samples: seq<Sample>) | Stopped(samples: seq<Sample>, x: int, y: int)

  /** The sweep stopped at an interior void that has no usable direction. */
  predicate StoppedAtDeadEnd(r: Sweep, size: nat)
    requires r.Stopped?
  {
    |r.samples| == size * size && Interior(size, r.x, r.y) &&
    PixelValue(r.samples, size, r.x, r.y).None? && Vectors(r.samples, size, r.x, r.y) == []
  }

  /** One step of the sweep: a present sample is kept; a void gets the truncated
      estimate, stays void when the estimate was dropped, or stops the sweep. */
  function FillSample(samples: seq<Sample>, size: nat, x: int, y: int): (r: Sweep)
    requires |samples| == size * size && VoidsInterior(samples, size)
    requires 0 <= x < size && 0 <= y < size
    ensures OnlyVoidsFilled(samples, r.samples) && VoidsInterior(r.samples, size)
    ensures r.Stopped? ==> r.samples == samples && r.x == x && r.y == y
  {
    PixelValueIsSample(samples, size, x, y);
    var r :=
      if PixelValue(samples, size, x, y).Some? then Running(samples)
      else
        match Estimate(samples, size, x, y)
        case Err(_) => Stopped(samples, x, y)
        case Ok(None) => Running(samples)
        case Ok(Some(average)) => Running(samples[CalcOffset(size, x, y) := Truncate(average)]);
    OnlyVoidsFilledKeepsVoidsInterior(size, samples, r.samples);
    r
  }

  /** The sweep over column x from row y northwards to the top of the tile. */
  function FillColumnFrom(samples: seq<Sample>, size: nat, x: int, y: nat): (r: Sweep)
    requires |samples| == size * size && VoidsInterior(samples, size)
    requires 0 <= x < size && y <= size
    ensures OnlyVoidsFilled(samples, r.samples) && VoidsInterior(r.samples, size)
    ensures r.Stopped? ==> 0 <= r.x < size && 0 <= r.y < size && PixelValue(samples, size, r.x, r.y).None?
    decreases size - y
  {
    if y == size then Running(samples)
    else
      var step := FillSample(samples, size, x, y);
      if step.Stopped? then step
      else
        var r := FillColumnFrom(step.samples, size, x, y + 1);
        OnlyVoidsFilledIsTransitive(samples, step.samples, r.samples);
        if r.Stopped? then
          PixelValueIsSample(samples, size, r.x, r.y);
          PixelValueIsSample(step.samples, size, r.x, r.y);
          r
        else r
  }

  /** One step of the column sweep, unfolded. */
  lemma FillColumnStep(samples: seq<Sample>, size: nat, x: int, y: nat)
    requires |samples| == size * size && VoidsInterior(samples, size)
    requires 0 <= x < size && y < size
    ensures var step := FillSample(samples, size, x, y);
      FillColumnFrom(samples, size, x, y) ==
        if step.Stopped? then step else FillColumnFrom(step.samples, size, x, y + 1)
  {
  }

  /** The sweep over the columns from x eastwards to the edge of the tile, each
      column from the south, as the nested loops of the source visit them. */
  function FillColumnsFrom(samples: seq<Sample>, size: nat, x: nat): (r: Sweep)
    requires |samples| == size * size && VoidsInterior(samples, size)
    requires x <= size
    ensures OnlyVoidsFilled(samples, r.samples) && VoidsInterior(r.samples, size)
    ensures r.Stopped? ==> 0 <= r.x < size && 0 <= r.y < size && PixelValue(samples, size, r.x, r.y).None?
    decreases size - x
  {
    if x == size then Running(samples)
    else
      var column := FillColumnFrom(samples, size, x, 0);
      if column.Stopped? then column
      else
        var r := FillColumnsFrom(column.samples, size, x + 1);
        OnlyVoidsFilledIsTransitive(samples, column.samples, r.samples);
        if r.Stopped? then
          PixelValueIsSample(samples, size, r.x, r.y);
          PixelValueIsSample(column.samples, size, r.x, r.y);
          r
        else r
  }

  /** The whole void-filling pass over a tile. */
  function FillPass(samples: seq<Sample>, size: nat): (r: Sweep)
    requires |samples| == size * size && VoidsInterior(samples, size)
    ensures OnlyVoidsFilled(samples, r.samples) && VoidsInterior(r.samples, size)
    ensures r.Stopped? ==> 0 <= r.x < size && 0 <= r.y < size && PixelValue(samples, size, r.x, r.y).None?
  {
    FillColumnsFrom(samples, size, 0)
  }

  lemma SampleStopsAtDeadEnd(samples: seq<Sample>, size: nat, x: int, y: int)
    requires |samples| == size * size && VoidsInterior(samples, size)
    requires 0 <= x < size && 0 <= y < size
    ensures var r := FillSample(samples, size, x, y); r.Stopped? ==> StoppedAtDeadEnd(r, size)
  {
  }

  lemma {:induction false} ColumnStopsAtDeadEnd(samples: seq<Sample>, size: nat, x: int, y: nat)
    requires |samples| == size * size && VoidsInterior(samples, size)
    requires 0 <= x < size && y <= size
    ensures var r := FillColumnFrom(samples, size, x, y); r.Stopped? ==> StoppedAtDeadEnd(r, size)
    decreases size - y
  {
    if y < size {
      SampleStopsAtDeadEnd(samples, size, x, y);
      var step := FillSample(samples, size, x, y);
      if step.Running? {
        ColumnStopsAtDeadEnd(step.samples, size, x, y + 1);
      }
    }
  }

  lemma {:induction false} ColumnsStopAtDeadEnd(samples: seq<Sample>, size: nat, x: nat)
    requires |samples| == size * size && VoidsInterior(samples, size)
    requires x <= size
    ensures var r := FillColumnsFrom(samples, size, x); r.Stopped? ==> StoppedAtDeadEnd(r, size)
    decreases size - x
  {
    if x < size {
      ColumnStopsAtDeadEnd(samples, size, x, 0);
      var column := FillColumnFrom(samples, size, x, 0);
      if column.Running? {
        ColumnsStopAtDeadEnd(column.samples, size, x + 1);
      }
    }
  }

  /** The pass stops only at a void, interior to the tile, none of whose eight
      directions has both neighbours present. */
  lemma FillPassStopsAtDeadEnd(samples: seq<Sample>, size: nat)
    requires |samples| == size * size && VoidsInterior(samples, size)
    ensures var r := FillPass(samples, size); r.Stopped? ==> StoppedAtDeadEnd(r, size)
  {
    ColumnsStopAtDeadEnd(samples, size, 0);
  }

  /** A tile without voids passes through the fill unchanged. */
  lemma FillPassWithoutVoids(samples: seq<Sample>, size: nat)
    requires |samples| == size * size && VOID !in samples
    ensures VoidsInterior(samples, size)
    ensures FillPass(samples, size) == Running(samples)
  {
    forall x, y | 0 <= x < size && 0 <= y < size
      ensures PixelValue(samples, size, x, y).Some?
    {
      PixelValueIsSample(samples, size, x, y);
    }
    var r := FillPass(samples, size);
    assert r.samples == samples;
  }

  /** In-memory SRTM tile: its side length, its south-west corner and its samples. */
  class Tile {
    const size: nat
    const lat: int
    const lon: int
    const data: array<Sample>

    ghost predicate Valid()
    {
      data.Length == size * size && (size == SRTM3_SIZE || size == SRTM1_SIZE)
    }

    constructor (size: nat, lat: int, lon: int, samples: seq<Sample>)
      requires |samples| == size * size && (size == SRTM3_SIZE || size == SRTM1_SIZE)
      ensures Valid() && fresh(data)
      ensures this.size == size && this.lat == lat && this.lon == lon && data[..] == samples
    {
      this.size := size;
      this.lat := lat;
      this.lon := lon;
      this.data := new Sample[|samples|](i requires 0 <= i < |samples| => samples[i]);
    }

    /** Opens a tile after the checks of the source's constructor; the only error is
        InvalidTile for the given corner. */
    static method Open(entryCount: nat, samples: seq<Sample>, lat: int, lon: int) returns (r: Result<Tile, TileError>)
      ensures r.Err? <==> CheckTile(entryCount, samples, lat, lon).Err?
      ensures r.Err? ==> r.error == InvalidTile(lat, lon)
      ensures r.Ok? ==> fresh(r.value) && fresh(r.value.data) && r.value.Valid()
      ensures r.Ok? ==> r.value.data[..] == samples && r.value.lat == lat && r.value.lon == lon
      ensures r.Ok? ==> CheckTile(entryCount, samples, lat, lon) == Ok(r.value.size)
    {
      var checked := CheckTile(entryCount, samples, lat, lon);
      if checked.Err? {
        return Err(checked.error);
      }
      CheckTileAccepts(entryCount, samples, lat, lon, checked.value);
      var tile := new Tile(checked.value, lat, lon, samples);
      return Ok(tile);
    }

    /** Reads sample (x, y) from the array; a void reads as None. */
    function GetPixelValue(x: int, y: int): (v: Option<int>)
      requires Valid() && 0 <= x < size && 0 <= y < size
      reads data
      ensures v == PixelValue(data[..], size, x, y)
    {
      OffsetInRange(size, x, y);
      var value := data[x + size * (size - y - 1)];
      if value == VOID then None else Some(value as int)
    }

    /** Altitude at (lat, lon) from this tile's samples. */
    function GetAltitudeFromLatLon(lat: real, lon: real): (r: Result<Option<real>, TileError>)
      requires Valid()
      reads data
      ensures r == AltitudeFromLatLon(data[..], size, this.lat, this.lon, lat, lon)
    {
      AltitudeFromLatLon(data[..], size, this.lat, this.lon, lat, lon)
    }

    /** Appends the estimate from one direction when both its samples are present. */
    static method AppendEstimate(vectors: seq<int>, near: Option<int>, far: Option<int>) returns (r: seq<int>)
      ensures r == vectors + AsSeq(Extrapolate(near, far))
    {
      r := vectors;
      if near.Some? && far.Some? {
        r := r + [near.value * 2 - far.value];
      }
    }

    /** The estimate for sample (x, y), collected from the eight directions as the
        source does. */
    method Interpolate(x: int, y: int) returns (r: Result<Option<real>, FillError>)
      requires Valid() && Interior(size, x, y)
      ensures r == Estimate(data[..], size, x, y)
    {
      ghost var s := data[..];
      var bl1 := GetPixelValue(x - 1, y - 1);
      var bl2 := GetPixelValue(x - 2, y - 2);
      var b1 := GetPixelValue(x, y - 1);
      var b2 := GetPixelValue(x, y - 2);
      var br1 := GetPixelValue(x + 1, y - 1);
      var br2 := GetPixelValue(x + 2, y - 2);
      var l1 := GetPixelValue(x - 1, y);
      var l2 := GetPixelValue(x - 2, y);
      var r1 := GetPixelValue(x + 1, y);
      var r2 := GetPixelValue(x + 2, y);
      var tl1 := GetPixelValue(x - 1, y + 1);
      var tl2 := GetPixelValue(x - 2, y + 2);
      var t1 := GetPixelValue(x, y + 1);
      var t2 := GetPixelValue(x, y + 2);
      var tr1 := GetPixelValue(x + 1, y + 1);
      var tr2 := GetPixelValue(x + 2, y + 2);
      var vectors: seq<int> := [];
      vectors := AppendEstimate(vectors, bl1, bl2);
      assert vectors == AsSeq(Extrapolate(bl1, bl2));
      vectors := AppendEstimate(vectors, b1, b2);
      vectors := AppendEstimate(vectors, br1, br2);
      vectors := AppendEstimate(vectors, l1, l2);
      vectors := AppendEstimate(vectors, r1, r2);
      vectors := AppendEstimate(vectors, tl1, tl2);
      vectors := AppendEstimate(vectors, t1, t2);
      vectors := AppendEstimate(vectors, tr1, tr2);
      assert vectors == Vectors(s, size, x, y);
      if |vectors| == 0 {
        return Err(NoDirection);
      }
      var average := Sum(vectors) as real / |vectors| as real;
      if average > 32767.0 || average < -32767.0 {
        return Ok(None);
      }
      return Ok(Some(average));
    }

    /** One sample of the void fill: a void at (x, y) receives the truncated
        estimate, stays void when the estimate was dropped, or stops the fill. */
    method FillAt(x: int, y: int) returns (r: Result<(), FillError>)
      requires Valid() && VoidsInterior(data[..], size) && 0 <= x < size && 0 <= y < size
      modifies data
      ensures data[..] == FillSample(old(data[..]), size, x, y).samples
      ensures r.Ok? <==> FillSample(old(data[..]), size, x, y).Running?
    {
      ghost var s := data[..];
      ghost var step := FillSample(s, size, x, y);
      PixelValueIsSample(s, size, x, y);
      var pixelValue := GetPixelValue(x, y);
      if pixelValue.None? {
        var offset := x + size * (size - y - 1);
        assert offset == CalcOffset(size, x, y);
        var interpolated := Interpolate(x, y);
        if interpolated.Err? {
          assert step == Stopped(s, x, y);
          return Err(NoDirection);
        }
        if interpolated.value.Some? {
          data[offset] := Truncate(interpolated.value.value);
          assert step == Running(s[offset := Truncate(interpolated.value.value)]);
        } else {
          assert step == Running(s);
        }
      } else {
        assert step == Running(s);
      }
      return Ok(());
    }

    /** The inner loop of the void fill: the voids of column x, from the south. */
    method FillColumn(x: int) returns (r: Result<(), FillError>)
      requires Valid() && VoidsInterior(data[..], size) && 0 <= x < size
      modifies data
      ensures data[..] == FillColumnFrom(old(data[..]), size, x, 0).samples
      ensures r.Ok? <==> FillColumnFrom(old(data[..]), size, x, 0).Running?
    {
      ghost var s0 := data[..];
      for y := 0 to size
        invariant VoidsInterior(data[..], size)
        invariant FillColumnFrom(data[..], size, x, y) == FillColumnFrom(s0, size, x, 0)
      {
        FillColumnStep(data[..], size, x, y);
        var sample := FillAt(x, y);
        if sample.Err? {
          return Err(NoDirection);
        }
      }
      return Ok(());
    }

    /** Replaces every void, column by column from the west and within a column from
        the south, by the truncated estimate; a void without any usable direction
        stops the pass with the samples filled so far. */
    method FillNulls() returns (r: Result<(), FillError>)
      requires Valid() && VoidsInterior(data[..], size)
      modifies data
      ensures data[..] == FillPass(old(data[..]), size).samples
      ensures r.Ok? <==> FillPass(old(data[..]), size).Running?
    {
      ghost var s0 := data[..];
      for x := 0 to size
        invariant VoidsInterior(data[..], size)
        invariant FillColumnsFrom(data[..], size, x) == FillPass(s0, size)
      {
        var column := FillColumn(x);
        if column.Err? {
          return Err(NoDirection);
        }
      }
      return Ok(());
    }
  }
}
