/** Integer rasterisation primitives: Bresenham's line between two pixels and the
    midpoint ("Bresenham") circle of a given radius.  Both work on plain integers;
    a pixel is a pair (first, second) of coordinates. */
module Raster {
  import opened Arithmetic

  type Pixel = (int, int)

  function Max(a: int, b: int): int
  {
    if a < b then b else a
  }

  /** The step the line takes along one axis: +1 towards a larger end, -1 otherwise
      (also when both ends agree on that axis). */
  function Step(from: int, to: int): int
  {
    if to - from > 0 then 1 else -1
  }

  /** The coordinate m steps on from `from` in the direction of `to`. */
  function Toward(from: int, to: int, m: int): int
  {
    if to - from > 0 then from + m else from - m
  }

  lemma StepTimes(from: int, to: int, m: int)
    ensures from + Step(from, to) * m == Toward(from, to, m)
  {
    if to - from > 0 {
      assert Step(from, to) * m == m;
    } else {
      assert Step(from, to) * m == -m;
    }
  }

  // ---------------------------------------------------------------------------
  // Bresenham line
  // ---------------------------------------------------------------------------

  /** Number of steps along the major axis (the axis with the larger extent; the
      first axis on a tie). */
  function MajorExtent(p: Pixel, q: Pixel): nat
  {
    Max(Abs(q.0 - p.0), Abs(q.1 - p.1))
  }

  /** How many minor-axis steps the line has taken after `k` major-axis steps:
      k * minor / major rounded to nearest, halves rounded down. */
  function MinorSteps(minor: nat, major: nat, k: nat): nat
    requires major > 0
  {
    (2 * minor * k + major) / (2 * major)
  }

  /** The k-th pixel of the line from p towards q, for k below the major extent.
      This closed form is the reference the loop below is proved against. */
  function LineAt(p: Pixel, q: Pixel, k: nat): Pixel
    requires k < MajorExtent(p, q)
  {
    var dx := Abs(q.0 - p.0);
    var dy := Abs(q.1 - p.1);
    if dy > dx then
      (Toward(p.0, q.0, MinorSteps(dx, dy, k)), Toward(p.1, q.1, k))
    else
      (Toward(p.0, q.0, k), Toward(p.1, q.1, MinorSteps(dy, dx, k)))
  }

  /** The first n pixels of the line. */
  function LinePrefix(p: Pixel, q: Pixel, n: nat): (r: seq<Pixel>)
    requires n <= MajorExtent(p, q)
    ensures |r| == n
  {
    if n == 0 then [] else LinePrefix(p, q, n - 1) + [LineAt(p, q, n - 1)]
  }

  lemma {:induction false} LinePrefixAt(p: Pixel, q: Pixel, n: nat, k: nat)
    requires k < n <= MajorExtent(p, q)
    ensures LinePrefix(p, q, n)[k] == LineAt(p, q, k)
  {
    if k < n - 1 {
      LinePrefixAt(p, q, n - 1, k);
    }
  }

  lemma LineStartsAtStart(p: Pixel, q: Pixel)
    requires 0 < MajorExtent(p, q)
    ensures LineAt(p, q, 0) == p
  {
    var dx := Abs(q.0 - p.0);
    var dy := Abs(q.1 - p.1);
    if dy > dx {
      DivIsUnique(dy, 2 * dy, 0);
    } else {
      DivIsUnique(dx, 2 * dx, 0);
    }
  }

  /** The pixels of the line: one per major-axis step, and then the end point. */
  function LinePoints(p: Pixel, q: Pixel): (r: seq<Pixel>)
    ensures |r| == MajorExtent(p, q) + 1
    ensures r[|r| - 1] == q
    ensures p != q ==> r[0] == p
    ensures p == q ==> r == [q]
  {
    var n := MajorExtent(p, q);
    if n == 0 then [q]
    else
      LinePrefixAt(p, q, n, 0);
      LineStartsAtStart(p, q);
      LinePrefix(p, q, n) + [q]
  }

  lemma MinorStepsAtMost(minor: nat, major: nat, k: nat)
    requires 0 < major && minor <= major && k < major
    ensures MinorSteps(minor, major, k) <= minor
  {
    var b := 2 * major;
    var num := 2 * minor * k + major;
    var m := num / b;
    assert b * m <= num;
    MulIsMonotonic(2 * minor, k, major - 1);
    assert num < b * (minor + 1);
    MulIsMonotonic(b, minor + 1, m);
  }

  lemma MinorStepsAdvance(minor: nat, major: nat, k: nat)
    requires 0 < major && minor <= major
    ensures MinorSteps(minor, major, k + 1) - MinorSteps(minor, major, k) in {0, 1}
  {
    var num := 2 * minor * k + major;
    assert 2 * minor * (k + 1) + major == num + 2 * minor;
    DivOfSmallIncrease(num, 2 * major, 2 * minor);
  }

  lemma MinorStepsAtEnd(minor: nat, major: nat)
    requires 0 < major
    ensures MinorSteps(minor, major, major) == minor
  {
    var b := 2 * major;
    assert 2 * minor * major + major == b * minor + major;
    DivIsUnique(2 * minor * major + major, b, minor);
  }

  /** Pixels are 8-connected neighbours along a line whose major axis is the first
      coordinate (major == true) or the second one. */
  predicate Adjacent(a: Pixel, b: Pixel, firstIsMajor: bool)
  {
    if firstIsMajor then Abs(b.0 - a.0) == 1 && Abs(b.1 - a.1) <= 1
    else Abs(b.1 - a.1) == 1 && Abs(b.0 - a.0) <= 1
  }

  lemma LineAtAdvances(p: Pixel, q: Pixel, k: nat)
    requires k + 1 < MajorExtent(p, q)
    ensures Adjacent(LineAt(p, q, k), LineAt(p, q, k + 1), Abs(q.1 - p.1) <= Abs(q.0 - p.0))
  {
    var dx := Abs(q.0 - p.0);
    var dy := Abs(q.1 - p.1);
    if dy > dx {
      MinorStepsAdvance(dx, dy, k);
    } else {
      MinorStepsAdvance(dy, dx, k);
    }
  }

  /** After its last major step the minor coordinate has at most one step to go. */
  lemma MinorStepsLast(minor: nat, major: nat)
    requires 0 < major && minor <= major
    ensures minor - MinorSteps(minor, major, major - 1) in {0, 1}
  {
    MinorStepsAdvance(minor, major, major - 1);
    MinorStepsAtEnd(minor, major);
  }

  lemma LineAtReachesEnd(p: Pixel, q: Pixel)
    requires 0 < MajorExtent(p, q)
    ensures Adjacent(LineAt(p, q, MajorExtent(p, q) - 1), q, Abs(q.1 - p.1) <= Abs(q.0 - p.0))
  {
    var dx := Abs(q.0 - p.0);
    var dy := Abs(q.1 - p.1);
    if dy > dx {
      assert MajorExtent(p, q) == dy;
      var m := MinorSteps(dx, dy, dy - 1);
      var r := (Toward(p.0, q.0, m), Toward(p.1, q.1, dy - 1));
      assert LineAt(p, q, dy - 1) == r;
      MinorStepsLast(dx, dy);
      TowardStaysBetween(p.0, q.0, m);
      TowardStaysBetween(p.1, q.1, dy - 1);
      assert Adjacent(r, q, false);
    } else {
      assert MajorExtent(p, q) == dx;
      var m := MinorSteps(dy, dx, dx - 1);
      var r := (Toward(p.0, q.0, dx - 1), Toward(p.1, q.1, m));
      assert LineAt(p, q, dx - 1) == r;
      MinorStepsLast(dy, dx);
      TowardStaysBetween(p.0, q.0, dx - 1);
      TowardStaysBetween(p.1, q.1, m);
      assert Adjacent(r, q, true);
    }
  }

  /** Moving m steps from a towards b, for m at most their distance, stays between
      them and leaves the rest of the distance to go. */
  lemma TowardStaysBetween(a: int, b: int, m: int)
    requires 0 <= m <= Abs(b - a)
    ensures a <= Toward(a, b, m) <= b || b <= Toward(a, b, m) <= a
    ensures Abs(b - Toward(a, b, m)) == Abs(b - a) - m
  {
  }

  /** Consecutive pixels of a line are 8-connected: the major coordinate moves by
      exactly one and the minor one by at most one. */
  lemma LineIsConnected(p: Pixel, q: Pixel, k: nat)
    requires k + 1 < |LinePoints(p, q)|
    ensures Adjacent(LinePoints(p, q)[k], LinePoints(p, q)[k + 1], Abs(q.1 - p.1) <= Abs(q.0 - p.0))
  {
    var n := MajorExtent(p, q);
    LinePrefixAt(p, q, n, k);
    if k + 1 < n {
      LinePrefixAt(p, q, n, k + 1);
      LineAtAdvances(p, q, k);
    } else {
      LineAtReachesEnd(p, q);
    }
  }

  /** Every pixel of a line lies in the bounding box of its two end points. */
  lemma LineStaysInBox(p: Pixel, q: Pixel, k: nat)
    requires k < |LinePoints(p, q)|
    ensures var r := LinePoints(p, q)[k];
      (p.0 <= r.0 <= q.0 || q.0 <= r.0 <= p.0) && (p.1 <= r.1 <= q.1 || q.1 <= r.1 <= p.1)
  {
    var n := MajorExtent(p, q);
    if k < n {
      LinePrefixAt(p, q, n, k);
      assert LinePoints(p, q)[k] == LineAt(p, q, k);
      LineAtStaysInBox(p, q, k);
    }
  }

  lemma LineAtStaysInBox(p: Pixel, q: Pixel, k: nat)
    requires k < MajorExtent(p, q)
    ensures var r := LineAt(p, q, k);
      (p.0 <= r.0 <= q.0 || q.0 <= r.0 <= p.0) && (p.1 <= r.1 <= q.1 || q.1 <= r.1 <= p.1)
  {
    var dx := Abs(q.0 - p.0);
    var dy := Abs(q.1 - p.1);
    if dy > dx {
      var m := MinorSteps(dx, dy, k);
      assert LineAt(p, q, k) == (Toward(p.0, q.0, m), Toward(p.1, q.1, k));
      MinorStepsAtMost(dx, dy, k);
      TowardStaysBetween(p.0, q.0, m);
      TowardStaysBetween(p.1, q.1, k);
    } else {
      var m := MinorSteps(dy, dx, k);
      assert LineAt(p, q, k) == (Toward(p.0, q.0, k), Toward(p.1, q.1, m));
      MinorStepsAtMost(dy, dx, k);
      TowardStaysBetween(p.0, q.0, k);
      TowardStaysBetween(p.1, q.1, m);
    }
  }

  /** A line along the first axis keeps the second coordinate. */
  lemma HorizontalLineIsStraight(p: Pixel, q: Pixel, k: nat)
    requires q.1 == p.1 && k < MajorExtent(p, q)
    ensures LineAt(p, q, k) == (Toward(p.0, q.0, k), p.1)
  {
    var dx := Abs(q.0 - p.0);
    DivIsUnique(dx, 2 * dx, 0);
  }

  /** A line along the second axis keeps the first coordinate. */
  lemma VerticalLineIsStraight(p: Pixel, q: Pixel, k: nat)
    requires q.0 == p.0 && k < MajorExtent(p, q)
    ensures LineAt(p, q, k) == (p.0, Toward(p.1, q.1, k))
  {
    var dy := Abs(q.1 - p.1);
    DivIsUnique(dy, 2 * dy, 0);
  }

  /** A line at 45 degrees moves both coordinates at every step. */
  lemma DiagonalLineMovesBoth(p: Pixel, q: Pixel, k: nat)
    requires Abs(q.0 - p.0) == Abs(q.1 - p.1) && k < MajorExtent(p, q)
    ensures LineAt(p, q, k) == (Toward(p.0, q.0, k), Toward(p.1, q.1, k))
  {
    var d := Abs(q.0 - p.0);
    assert 2 * d * k + d < 2 * d * (k + 1);
    DivIsUnique(2 * d * k + d, 2 * d, k);
  }

  /** The pixel the loop appends at major step i, in the loop's own (possibly
      swapped) coordinates, is the i-th pixel of the reference line. */
  lemma LoopPixelIsLineAt(start: Pixel, end: Pixel, steep: bool, x0: int, y0: int, sx: int, sy: int,
                          dx: nat, dy: nat, i: nat, m: nat)
    requires steep == (Abs(end.1 - start.1) > Abs(end.0 - start.0))
    requires steep ==> (x0 == start.1 && y0 == start.0 && sx == Step(start.1, end.1) && sy == Step(start.0, end.0)
                        && dx == Abs(end.1 - start.1) && dy == Abs(end.0 - start.0))
    requires !steep ==> (x0 == start.0 && y0 == start.1 && sx == Step(start.0, end.0) && sy == Step(start.1, end.1)
                         && dx == Abs(end.0 - start.0) && dy == Abs(end.1 - start.1))
    requires i < dx && m == MinorSteps(dy, dx, i)
    ensures i < MajorExtent(start, end)
    ensures (if steep then (y0 + sy * m, x0 + sx * i) else (x0 + sx * i, y0 + sy * m)) == LineAt(start, end, i)
  {
    if steep {
      StepTimes(start.0, end.0, m);
      StepTimes(start.1, end.1, i);
    } else {
      StepTimes(start.0, end.0, i);
      StepTimes(start.1, end.1, m);
    }
  }

  /** The inner loop of the line: step the minor coordinate until the error term is
      negative again, taking 2 * dx off the error term at each step. */
  method CatchUpMinor(y: int, d: int, sy: int, dx: nat, dy: nat, ghost y0: int, ghost base: int, ghost m: nat)
    returns (y': int, d': int, ghost m': nat)
    requires dx > 0 && d == base - 2 * dx * m && y == y0 + sy * m && -2 * dx <= d < 2 * dy
    ensures d' == base - 2 * dx * m' && y' == y0 + sy * m' && -2 * dx <= d' < 0
  {
    y', d', m' := y, d, m;
    while d' >= 0
      invariant d' == base - 2 * dx * m' && y' == y0 + sy * m'
      invariant -2 * dx <= d' < 2 * dy
      decreases d' + 2 * dx
    {
      y' := y' + sy;
      d' := d' - (2 * dx);
      m' := m' + 1;
      assert 2 * dx * m' == 2 * dx * (m' - 1) + 2 * dx;
      assert y0 + sy * m' == y0 + sy * (m' - 1) + sy;
    }
  }

  /** Bresenham's line from (x, y) to (x2, y2), as the source steps it: swap the axes
      for a steep line, then advance the major coordinate once per iteration and the
      minor one whenever the error term is non-negative. */
  method BresenhamLine(start: Pixel, end: Pixel) returns (coords: seq<Pixel>)
    ensures coords == LinePoints(start, end)
  {
    var x, y := start.0, start.1;
    var steep := false;
    coords := [];
    var dx := Abs(end.0 - x);
    var sx := if end.0 - x > 0 then 1 else -1;
    var dy := Abs(end.1 - y);
    var sy := if end.1 - y > 0 then 1 else -1;
    if dy > dx {
      steep := true;
      x, y := y, x;
      dx, dy := dy, dx;
      sx, sy := sy, sx;
    }
    ghost var x0, y0 := x, y;
    ghost var m: nat := 0;
    var d := (2 * dy) - dx;
    for i := 0 to dx
      invariant dx == MajorExtent(start, end) && dy <= dx
      invariant coords == LinePrefix(start, end, i)
      invariant x == x0 + sx * i && y == y0 + sy * m
      invariant d == 2 * dy * i + 2 * dy - dx - 2 * dx * m
      invariant 2 * dy - 2 * dx <= d && (dx > 0 ==> d < 2 * dy)
    {
      assert 2 * dx * (m + 1) == 2 * dx * m + 2 * dx;
      DivIsUnique(2 * dy * i + dx, 2 * dx, m);
      LoopPixelIsLineAt(start, end, steep, x0, y0, sx, sy, dx, dy, i, m);
      if steep {
        coords := coords + [(y, x)];
      } else {
        coords := coords + [(x, y)];
      }
      assert coords == LinePrefix(start, end, i + 1);
      y, d, m := CatchUpMinor(y, d, sy, dx, dy, y0, 2 * dy * i + 2 * dy - dx, m);
      x := x + sx;
      d := d + (2 * dy);
      assert 2 * dy * (i + 1) == 2 * dy * i + 2 * dy;
      assert x == x0 + sx * (i + 1);
    }
    coords := coords + [end];
  }

  // ---------------------------------------------------------------------------
  // Midpoint circle
  // ---------------------------------------------------------------------------

  /** The eight images of (x, y) under the symmetries of the square, in the order
      the source adds them. */
  function Orbit(x: int, y: int): set<Pixel>
  {
    {(x, -y), (y, -x), (y, x), (x, y), (-x, y), (-y, x), (-y, -x), (-x, -y)}
  }

  /** The points the circle loop adds from state (x, y, decision) onwards: it stops
      once x passes y; otherwise x advances, and y drops when the decision is
      non-negative. */
  function Octants(x: int, y: int, decision: int): set<Pixel>
    decreases if x <= y then y - x + 1 else 0
  {
    if x > y then {}
    else if decision < 0 then Orbit(x, y) + Octants(x + 1, y, decision + 4 * x + 6)
    else Orbit(x, y) + Octants(x + 1, y - 1, decision + 4 * (x - y) + 10)
  }

  /** The point set of the circle of the given radius. */
  function CirclePoints(radius: int): set<Pixel>
  {
    Octants(0, radius, 3 - 2 * radius)
  }

  /** The points added from the state after (x, y, decision). */
  function Rest(x: int, y: int, decision: int): set<Pixel>
    requires x <= y
  {
    if decision < 0 then Octants(x + 1, y, decision + 4 * x + 6)
    else Octants(x + 1, y - 1, decision + 4 * (x - y) + 10)
  }

  lemma OctantsSplit(x: int, y: int, decision: int)
    requires x <= y
    ensures Octants(x, y, decision) == Orbit(x, y) + Rest(x, y, decision)
  {
  }

  /** Adding the orbit of (x, y) and moving on to the next state keeps the union of
      what is drawn and what is still to come. */
  lemma CircleLoopStep(points: set<Pixel>, x: int, y: int, decision: int, all: set<Pixel>)
    requires x <= y && points + Octants(x, y, decision) == all
    ensures (points + Orbit(x, y)) + Rest(x, y, decision) == all
  {
    OctantsSplit(x, y, decision);
  }

  /** One move of the midpoint walk: always one column on, and one row down when the
      decision variable is not negative. */
  method CircleMove(x: int, y: int, decision: int) returns (x': int, y': int, decision': int)
    requires x <= y
    ensures x' == x + 1 && (y' == y || y' == y - 1)
    ensures Octants(x', y', decision') == Rest(x, y, decision)
  {
    if decision < 0 {
      decision' := decision + (4 * x) + 6;
      y' := y;
    } else {
      decision' := decision + (4 * (x - y)) + 10;
      y' := y - 1;
    }
    x' := x + 1;
  }

  /** Bresenham's complete circle: walk the first octant from 12 o'clock and add the
      eight symmetric images of every point. */
  method Circle(radius: int) returns (points: set<Pixel>)
    ensures points == CirclePoints(radius)
  {
    var switch := 3 - (2 * radius);
    points := {};
    var x := 0;
    var y := radius;
    ghost var all := CirclePoints(radius);
    while x <= y
      invariant points + Octants(x, y, switch) == all
      decreases if x <= y then y - x + 1 else 0
    {
      CircleLoopStep(points, x, y, switch, all);
      points := points + Orbit(x, y);
      x, y, switch := CircleMove(x, y, switch);
    }
  }

  /** The images of p under swapping its coordinates and negating either one. */
  predicate ImagesIn(p: Pixel, s: set<Pixel>)
  {
    (p.1, p.0) in s && (-p.0, p.1) in s && (p.0, -p.1) in s
  }

  lemma OrbitIsSymmetric(x: int, y: int, p: Pixel)
    requires p in Orbit(x, y)
    ensures ImagesIn(p, Orbit(x, y))
  {
  }

  lemma ImagesInSubset(p: Pixel, s: set<Pixel>, t: set<Pixel>)
    requires ImagesIn(p, s) && s <= t
    ensures ImagesIn(p, t)
  {
  }

  lemma ImagesInOctants(x: int, y: int, decision: int, p: Pixel)
    requires x <= y
    requires ImagesIn(p, Orbit(x, y)) || ImagesIn(p, Rest(x, y, decision))
    ensures ImagesIn(p, Octants(x, y, decision))
  {
    OctantsSplit(x, y, decision);
    if ImagesIn(p, Orbit(x, y)) {
      ImagesInSubset(p, Orbit(x, y), Octants(x, y, decision));
    } else {
      ImagesInSubset(p, Rest(x, y, decision), Octants(x, y, decision));
    }
  }

  lemma {:induction false} OctantsSymmetric(x: int, y: int, decision: int, p: Pixel)
    requires p in Octants(x, y, decision)
    ensures ImagesIn(p, Octants(x, y, decision))
    decreases if x <= y then y - x + 1 else 0, 1
  {
    OctantsSplit(x, y, decision);
    if p in Orbit(x, y) {
      OrbitIsSymmetric(x, y, p);
    } else {
      RestSymmetric(x, y, decision, p);
    }
    ImagesInOctants(x, y, decision, p);
  }

  lemma {:induction false} RestSymmetric(x: int, y: int, decision: int, p: Pixel)
    requires x <= y && p in Rest(x, y, decision)
    ensures ImagesIn(p, Rest(x, y, decision))
    decreases y - x + 1, 0
  {
    if decision < 0 {
      OctantsSymmetric(x + 1, y, decision + 4 * x + 6, p);
    } else {
      OctantsSymmetric(x + 1, y - 1, decision + 4 * (x - y) + 10, p);
    }
  }

  /** The point set is closed under swapping the coordinates and under negating
      either of them, hence under all eight octant symmetries. */
  lemma CircleIsSymmetric(radius: int, p: Pixel)
    requires p in CirclePoints(radius)
    ensures ImagesIn(p, CirclePoints(radius))
  {
    OctantsSymmetric(0, radius, 3 - 2 * radius, p);
  }

  /** Every image of (x, y) is bounded by b on both axes when x and y are. */
  lemma OrbitBounded(x: int, y: int, b: int, p: Pixel)
    requires Abs(x) <= b && Abs(y) <= b && p in Orbit(x, y)
    ensures Abs(p.0) <= b && Abs(p.1) <= b
  {
  }

  lemma {:induction false} OctantsBounded(x: int, y: int, decision: int, p: Pixel)
    requires 0 <= x && p in Octants(x, y, decision)
    ensures Abs(p.0) <= y && Abs(p.1) <= y
    decreases if x <= y then y - x + 1 else 0, 1
  {
    OctantsSplit(x, y, decision);
    if p in Orbit(x, y) {
      OrbitBounded(x, y, y, p);
    } else {
      RestBounded(x, y, decision, p);
    }
  }

  lemma {:induction false} RestBounded(x: int, y: int, decision: int, p: Pixel)
    requires 0 <= x <= y && p in Rest(x, y, decision)
    ensures Abs(p.0) <= y && Abs(p.1) <= y
    decreases y - x + 1, 0
  {
    if decision < 0 {
      OctantsBounded(x + 1, y, decision + 4 * x + 6, p);
    } else {
      OctantsBounded(x + 1, y - 1, decision + 4 * (x - y) + 10, p);
    }
  }

  /** No point of the circle lies further than the radius along either axis, and a
      negative radius draws nothing. */
  lemma CircleIsBounded(radius: int, p: Pixel)
    requires p in CirclePoints(radius)
    ensures Abs(p.0) <= radius && Abs(p.1) <= radius
  {
    OctantsBounded(0, radius, 3 - 2 * radius, p);
  }

  lemma NegativeRadiusIsEmpty(radius: int)
    requires radius < 0
    ensures CirclePoints(radius) == {}
  {
  }

  /** The four axis points (0, +-r) and (+-r, 0) are on the circle. */
  lemma CircleHasAxisPoints(radius: int)
    requires radius >= 0
    ensures (0, radius) in CirclePoints(radius) && (0, -radius) in CirclePoints(radius)
    ensures (radius, 0) in CirclePoints(radius) && (-radius, 0) in CirclePoints(radius)
  {
    OctantsSplit(0, radius, 3 - 2 * radius);
  }

  /** The circle of radius zero is the single centre pixel. */
  lemma CircleOfRadiusZero()
    ensures CirclePoints(0) == {(0, 0)}
  {
    assert Octants(1, -1, 13) == {};
    assert Orbit(0, 0) == {(0, 0)};
  }

  /** The (doubled) squared-distance error of pixel (a, b) from a circle of the
      given radius. */
  function Error(radius: int, a: int, b: int): int
  {
    a * a + b * b - radius * radius
  }

  /** A pixel is on the rasterised circle when its squared distance from the centre
      is within the radius of the squared radius: r^2 - r < a^2 + b^2 <= r^2 + r. */
  predicate NearCircle(radius: int, p: Pixel)
  {
    -radius < Error(radius, p.0, p.1) <= radius
  }

  /** The error term is the same for all eight images of a pixel. */
  lemma OrbitNearCircle(radius: int, x: int, y: int, p: Pixel)
    requires NearCircle(radius, (x, y)) && p in Orbit(x, y)
    ensures NearCircle(radius, p)
  {
    assert (-x) * (-x) == x * x && (-y) * (-y) == y * y;
  }

  /** The loop's decision variable at state (x, y): the summed errors of the two
      candidate pixels for the next column. */
  predicate DecisionInvariant(radius: int, x: int, y: int, decision: int)
  {
    0 <= x && y <= radius && decision == Error(radius, x + 1, y) + Error(radius, x + 1, y - 1)
      && (x <= y ==> NearCircle(radius, (x, y)))
  }

  /** One loop step keeps the decision invariant: the candidate the sign of the
      decision picks is the one nearer the circle. */
  lemma DecisionStep(radius: int, x: int, y: int, decision: int)
    requires x <= y && DecisionInvariant(radius, x, y, decision)
    ensures decision < 0 ==> DecisionInvariant(radius, x + 1, y, decision + 4 * x + 6)
    ensures decision >= 0 ==> DecisionInvariant(radius, x + 1, y - 1, decision + 4 * (x - y) + 10)
  {
    ErrorSteps(radius, x, y);
    ErrorSteps(radius, x + 1, y);
    ErrorSteps(radius, x + 1, y - 1);
    ErrorSteps(radius, x + 2, y - 1);
    DecisionArithmetic(radius, x, y, decision, Error(radius, x, y), Error(radius, x + 1, y),
      Error(radius, x + 1, y - 1), Error(radius, x + 2, y), Error(radius, x + 2, y - 1), Error(radius, x + 2, y - 2));
  }

  /** Moving one column right or one row down changes the error by the odd number
      between the two squares. */
  lemma ErrorSteps(radius: int, a: int, b: int)
    ensures Error(radius, a + 1, b) == Error(radius, a, b) + 2 * a + 1
    ensures Error(radius, a, b - 1) == Error(radius, a, b) - 2 * b + 1
  {
    assert (a + 1) * (a + 1) == a * a + 2 * a + 1;
    assert (b - 1) * (b - 1) == b * b - 2 * b + 1;
  }

  /** The linear core of the decision step: e is the error at (x, y), a and b those
      of the two candidates, and the rest those of the candidates after the step. */
  lemma DecisionArithmetic(radius: int, x: int, y: int, decision: int, e: int, a: int, b: int,
                           a2: int, b2: int, c2: int)
    requires 0 <= x <= y <= radius && -radius < e <= radius && decision == a + b
    requires a == e + 2 * x + 1 && b == a - 2 * y + 1
    requires a2 == a + 2 * x + 3 && b2 == b + 2 * x + 3 && c2 == b2 - 2 * (y - 1) + 1
    ensures decision < 0 ==> decision + 4 * x + 6 == a2 + b2 && (x + 1 <= y ==> -radius < a <= radius)
    ensures decision >= 0 ==> decision + 4 * (x - y) + 10 == b2 + c2 && (x + 1 <= y - 1 ==> -radius < b <= radius)
  {
  }

  lemma {:induction false} OctantsNearCircle(radius: int, x: int, y: int, decision: int, p: Pixel)
    requires DecisionInvariant(radius, x, y, decision) && p in Octants(x, y, decision)
    ensures NearCircle(radius, p)
    decreases if x <= y then y - x + 1 else 0, 1
  {
    OctantsSplit(x, y, decision);
    if p in Orbit(x, y) {
      OrbitNearCircle(radius, x, y, p);
    } else {
      RestNearCircle(radius, x, y, decision, p);
    }
  }

  lemma {:induction false} RestNearCircle(radius: int, x: int, y: int, decision: int, p: Pixel)
    requires x <= y && DecisionInvariant(radius, x, y, decision) && p in Rest(x, y, decision)
    ensures NearCircle(radius, p)
    decreases y - x + 1, 0
  {
    DecisionStep(radius, x, y, decision);
    if decision < 0 {
      OctantsNearCircle(radius, x + 1, y, decision + 4 * x + 6, p);
    } else {
      OctantsNearCircle(radius, x + 1, y - 1, decision + 4 * (x - y) + 10, p);
    }
  }

  /** Every pixel of a circle of positive radius is within the half-pixel band
      around the true circle: r^2 - r < a^2 + b^2 <= r^2 + r. */
  lemma CircleIsNearCircle(radius: int, p: Pixel)
    requires radius > 0 && p in CirclePoints(radius)
    ensures NearCircle(radius, p)
  {
    OctantsNearCircle(radius, 0, radius, 3 - 2 * radius, p);
  }
}
