/** The Catmull-Rom curve a smooth route follows. Coordinates are exact reals. */
module RouteCurve {
  datatype Vec3 = Vec3(x: real, y: real, z: real) {
    function Plus(o: Vec3): Vec3 { Vec3(x + o.x, y + o.y, z + o.z) }
    function Minus(o: Vec3): Vec3 { Vec3(x - o.x, y - o.y, z - o.z) }
    function Times(k: real): Vec3 { Vec3(x * k, y * k, z * k) }
  }

  /** The length of a vector; only that it is a real matters. */
  type Length = Vec3 -> real

  function CatmullRom(p0: Vec3, p1: Vec3, p2: Vec3, p3: Vec3, t: real): Vec3 {
    var t2, t3 := t * t, t * t * t;
    p1.Times(2.0)
    .Plus(p2.Minus(p0).Times(t))
    .Plus(p0.Times(2.0).Minus(p1.Times(5.0)).Plus(p2.Times(4.0)).Minus(p3).Times(t2))
    .Plus(p1.Times(3.0).Minus(p0).Minus(p2.Times(3.0)).Plus(p3).Times(t3))
    .Times(0.5)
  }

  /** A segment starts exactly at its first control point and ends exactly at its second. */
  lemma CurveMeetsControlPoints(p0: Vec3, p1: Vec3, p2: Vec3, p3: Vec3)
    ensures CatmullRom(p0, p1, p2, p3, 0.0) == p1 && CatmullRom(p0, p1, p2, p3, 1.0) == p2
  {
  }

  /** The cubic that starts in `p` with velocity `v` and ends in `q` with velocity `w`. */
  function Hermite(p: Vec3, v: Vec3, q: Vec3, w: Vec3, t: real): Vec3 {
    var t2, t3 := t * t, t * t * t;
    p.Times(1.0 - 3.0 * t2 + 2.0 * t3)
    .Plus(v.Times(t - 2.0 * t2 + t3))
    .Plus(q.Times(3.0 * t2 - 2.0 * t3))
    .Plus(w.Times(t3 - t2))
  }

  /** The cubic in one coordinate. */
  function Cubic(a: real, b: real, c: real, d: real, t: real, t2: real, t3: real): real {
    (b * 2.0 + (c - a) * t + (a * 2.0 - b * 5.0 + c * 4.0 - d) * t2 + (b * 3.0 - a - c * 3.0 + d) * t3) * 0.5
  }

  lemma CurveByCoordinate(p0: Vec3, p1: Vec3, p2: Vec3, p3: Vec3, t: real)
    ensures var t2, t3 := t * t, t * t * t;
      CatmullRom(p0, p1, p2, p3, t) == Vec3(
        Cubic(p0.x, p1.x, p2.x, p3.x, t, t2, t3), Cubic(p0.y, p1.y, p2.y, p3.y, t, t2, t3),
        Cubic(p0.z, p1.z, p2.z, p3.z, t, t2, t3))
  {
    var t2, t3 := t * t, t * t * t;
    assert CatmullRom(p0, p1, p2, p3, t).x == Cubic(p0.x, p1.x, p2.x, p3.x, t, t2, t3);
    assert CatmullRom(p0, p1, p2, p3, t).y == Cubic(p0.y, p1.y, p2.y, p3.y, t, t2, t3);
    assert CatmullRom(p0, p1, p2, p3, t).z == Cubic(p0.z, p1.z, p2.z, p3.z, t, t2, t3);
  }

  function HermiteCubic(p: real, v: real, q: real, w: real, t: real, t2: real, t3: real): real {
    p * (1.0 - 3.0 * t2 + 2.0 * t3) + v * (t - 2.0 * t2 + t3) + q * (3.0 * t2 - 2.0 * t3) + w * (t3 - t2)
  }

  lemma HermiteByCoordinate(p: Vec3, v: Vec3, q: Vec3, w: Vec3, t: real)
    ensures var t2, t3 := t * t, t * t * t;
      Hermite(p, v, q, w, t) == Vec3(
        HermiteCubic(p.x, v.x, q.x, w.x, t, t2, t3), HermiteCubic(p.y, v.y, q.y, w.y, t, t2, t3),
        HermiteCubic(p.z, v.z, q.z, w.z, t, t2, t3))
  {
    var t2, t3 := t * t, t * t * t;
    assert Hermite(p, v, q, w, t).x == HermiteCubic(p.x, v.x, q.x, w.x, t, t2, t3);
    assert Hermite(p, v, q, w, t).y == HermiteCubic(p.y, v.y, q.y, w.y, t, t2, t3);
    assert Hermite(p, v, q, w, t).z == HermiteCubic(p.z, v.z, q.z, w.z, t, t2, t3);
  }

  lemma CubicIsHermite(a: real, b: real, c: real, d: real, t: real, t2: real, t3: real)
    ensures Cubic(a, b, c, d, t, t2, t3) == HermiteCubic(b, (c - a) * 0.5, c, (d - b) * 0.5, t, t2, t3)
  {
  }

  /** A segment leaves and enters its control points with half the step between their neighbours, so two segments
      that meet there meet without a corner. */
  lemma CurveIsHermite(p0: Vec3, p1: Vec3, p2: Vec3, p3: Vec3, t: real)
    ensures CatmullRom(p0, p1, p2, p3, t) == Hermite(p1, p2.Minus(p0).Times(0.5), p2, p3.Minus(p1).Times(0.5), t)
  {
    hide CatmullRom, Hermite, Cubic, HermiteCubic;
    var t2, t3 := t * t, t * t * t;
    CubicIsHermite(p0.x, p1.x, p2.x, p3.x, t, t2, t3);
    CubicIsHermite(p0.y, p1.y, p2.y, p3.y, t, t2, t3);
    CubicIsHermite(p0.z, p1.z, p2.z, p3.z, t, t2, t3);
    HermiteByCoordinate(p1, p2.Minus(p0).Times(0.5), p2, p3.Minus(p1).Times(0.5), t);
    CurveByCoordinate(p0, p1, p2, p3, t);
  }

  function RealMax(a: real, b: real): real { if a < b then b else a }

  function Ceil(r: real): int { if r.Floor as real == r then r.Floor else r.Floor + 1 }

  /** Samples on a segment of vector `d`. */
  function Steps(length: Length, d: Vec3, spacing: real): nat
    requires spacing > 0.0
  {
    var n := Ceil(RealMax(length(d), spacing) / spacing);
    if n < 1 then 1 else n
  }

  /** How far `n` pieces of one spacing reach. */
  function Reach(n: int, spacing: real): real {
    n as real * spacing
  }

  /** The samples cut a segment into pieces no longer than the spacing, and no fewer would do. */
  lemma StepsIff(length: Length, d: Vec3, spacing: real, n: nat)
    requires spacing > 0.0 && n >= 1
    ensures Steps(length, d, spacing) == n <==> Reach(n, spacing) >= length(d) && (n == 1 || Reach(n - 1, spacing) < length(d))
  {
    StepsFit(length, d, spacing);
    var steps := Steps(length, d, spacing);
    hide Steps, Reach;
    if n < steps {
      ReachGrows(n, steps - 1, spacing);
    } else if n > steps {
      ReachGrows(steps, n - 1, spacing);
    }
  }

  lemma ReachGrows(a: int, b: int, spacing: real)
    requires a <= b && spacing > 0.0
    ensures Reach(a, spacing) <= Reach(b, spacing)
  {
    ProductGrows(a as real, b as real, spacing);
  }

  lemma StepsFit(length: Length, d: Vec3, spacing: real)
    requires spacing > 0.0
    ensures var n := Steps(length, d, spacing);
      n >= 1 && Reach(n, spacing) >= length(d) && (n == 1 || Reach(n - 1, spacing) < length(d))
  {
    var longest := RealMax(length(d), spacing);
    var q := longest / spacing;
    QuotientOf(longest, spacing);
    if q < 1.0 {
      ProductGrowsStrictly(q, 1.0, spacing);
    }
    var n := Ceil(q);
    assert n >= 1 && Steps(length, d, spacing) == n;
    ReachAround(n, q, spacing);
    if longest != length(d) {
      assert q == 1.0;
      assert n == 1;
    }
    hide Reach;
  }

  lemma ReachAround(n: int, q: real, spacing: real)
    requires (n - 1) as real < q <= n as real && spacing > 0.0
    ensures Reach(n - 1, spacing) < q * spacing <= Reach(n, spacing)
  {
    ProductGrowsStrictly((n - 1) as real, q, spacing);
    ProductGrows(q, n as real, spacing);
  }

  lemma QuotientOf(a: real, b: real)
    requires b > 0.0
    ensures a / b * b == a
  {
  }

  lemma ProductGrows(a: real, b: real, c: real)
    requires a <= b && c > 0.0
    ensures a * c <= b * c
  {
  }

  lemma ProductGrowsStrictly(a: real, b: real, c: real)
    requires a < b && c > 0.0
    ensures a * c < b * c
  {
  }

  /** Control point `i`: the loop wraps around, an open route repeats its ends. */
  function ControlAt<T>(points: seq<T>, closed: bool, i: int): T
    requires points != []
  {
    var n := |points|;
    if closed then points[i % n] else if i < 0 then points[0] else if i >= n then points[n - 1] else points[i]
  }

  function SegmentCount<T>(points: seq<T>, closed: bool): nat
    requires points != []
  {
    if closed then |points| else |points| - 1
  }

  function SegmentSteps(length: Length, points: seq<Vec3>, closed: bool, spacing: real, s: nat): nat
    requires points != [] && spacing > 0.0
  {
    Steps(length, ControlAt(points, closed, s + 1).Minus(ControlAt(points, closed, s)), spacing)
  }

  function Sample(points: seq<Vec3>, closed: bool, s: nat, t: real): Vec3
    requires points != []
  {
    CatmullRom(ControlAt(points, closed, s - 1), ControlAt(points, closed, s), ControlAt(points, closed, s + 1),
               ControlAt(points, closed, s + 2), t)
  }

  function Segment(length: Length, points: seq<Vec3>, closed: bool, spacing: real, s: nat): seq<Vec3>
    requires points != [] && spacing > 0.0
  {
    var steps := SegmentSteps(length, points, closed, spacing, s);
    seq(steps, k requires 0 <= k < steps => Sample(points, closed, s, k as real / steps as real))
  }

  function Segments(length: Length, points: seq<Vec3>, closed: bool, spacing: real, m: nat): seq<Vec3>
    requires points != [] && spacing > 0.0
  {
    if m == 0 then []
    else Segments(length, points, closed, spacing, m - 1) + Segment(length, points, closed, spacing, m - 1)
  }

  /** `catmull_rom_path`. */
  function CatmullRomPath(length: Length, points: seq<Vec3>, closed: bool, spacing: real): seq<Vec3> {
    if |points| < 3 then points
    else
      Segments(length, points, closed, RealMax(spacing, 0.25), SegmentCount(points, closed))
      + if closed then [] else [points[|points| - 1]]
  }

  method CatmullRomPathLoop(length: Length, points: seq<Vec3>, closed: bool, spacing: real) returns (out: seq<Vec3>)
    ensures out == CatmullRomPath(length, points, closed, spacing)
  {
    if |points| < 3 {
      return points;
    }
    hide Sample, SegmentSteps, ControlAt, Segment;
    var gap := RealMax(spacing, 0.25);
    var segments := SegmentCount(points, closed);
    out := [];
    for s := 0 to segments
      invariant out == Segments(length, points, closed, gap, s)
    {
      var steps := SegmentSteps(length, points, closed, gap, s);
      ghost var before := out;
      ghost var segment := Segment(length, points, closed, gap, s);
      SegmentIs(length, points, closed, gap, s);
      for k := 0 to steps
        invariant out == before + segment[..k]
      {
        assert segment[..k + 1] == segment[..k] + [segment[k]];
        out := out + [Sample(points, closed, s, k as real / steps as real)];
      }
      assert segment[..steps] == segment;
    }
    if !closed {
      out := out + [points[|points| - 1]];
    }
  }

  lemma SegmentIs(length: Length, points: seq<Vec3>, closed: bool, spacing: real, s: nat)
    requires points != [] && spacing > 0.0
    ensures var steps := SegmentSteps(length, points, closed, spacing, s);
      && steps >= 1 && |Segment(length, points, closed, spacing, s)| == steps
      && forall k :: 0 <= k < steps ==>
           Segment(length, points, closed, spacing, s)[k] == Sample(points, closed, s, k as real / steps as real)
  {
    hide Sample, ControlAt;
  }

  // ----- Where the control points lie on the path -----

  /** The index of the first sample of segment `i`, which is control point `i`. */
  function StartOf(length: Length, points: seq<Vec3>, closed: bool, spacing: real, i: nat): nat
    requires points != [] && spacing > 0.0
  {
    |Segments(length, points, closed, spacing, i)|
  }

  lemma {:induction false} StartsIncrease(length: Length, points: seq<Vec3>, closed: bool, spacing: real, i: nat, j: nat)
    requires points != [] && spacing > 0.0 && i < j
    ensures StartOf(length, points, closed, spacing, i) < StartOf(length, points, closed, spacing, j)
  {
    if i < j - 1 {
      StartsIncrease(length, points, closed, spacing, i, j - 1);
    }
  }

  lemma {:induction false} SegmentsPrefix(length: Length, points: seq<Vec3>, closed: bool, spacing: real, i: nat, m: nat)
    requires points != [] && spacing > 0.0 && i <= m
    ensures Segments(length, points, closed, spacing, i) <= Segments(length, points, closed, spacing, m)
  {
    if i < m {
      SegmentsPrefix(length, points, closed, spacing, i, m - 1);
    }
  }

  /** The path passes through every control point, in order. */
  lemma PathMeetsControlPoint(length: Length, points: seq<Vec3>, closed: bool, spacing: real, i: nat)
    requires 3 <= |points| && i < |points| && spacing >= 0.25
    ensures var path := CatmullRomPath(length, points, closed, spacing);
      StartOf(length, points, closed, spacing, i) < |path|
      && path[StartOf(length, points, closed, spacing, i)] == points[i]
  {
    var m := SegmentCount(points, closed);
    var start := StartOf(length, points, closed, spacing, i);
    if i < m {
      SegmentsPrefix(length, points, closed, spacing, i + 1, m);
      SegmentStartsAtControl(length, points, closed, spacing, i);
      var upTo := Segments(length, points, closed, spacing, i + 1);
      assert upTo[start] == Segment(length, points, closed, spacing, i)[0];
      assert upTo[start] == Segments(length, points, closed, spacing, m)[start];
    }
  }

  lemma SegmentStartsAtControl(length: Length, points: seq<Vec3>, closed: bool, spacing: real, i: nat)
    requires i < |points| && spacing > 0.0
    ensures var segment := Segment(length, points, closed, spacing, i); segment != [] && segment[0] == points[i]
  {
    var steps := SegmentSteps(length, points, closed, spacing, i);
    assert 0 as real / steps as real == 0.0;
    assert ControlAt(points, closed, i) == points[i];
    CurveMeetsControlPoints(ControlAt(points, closed, i - 1), points[i], ControlAt(points, closed, i + 1),
                            ControlAt(points, closed, i + 2));
  }

  /** The neighbour of a control point, `offset` further on: around the loop, or, on an open route, no further than
      its ends. */
  function Neighbour(points: seq<Vec3>, closed: bool, i: nat, offset: int): Vec3
    requires i < |points| && -1 <= offset <= 2
  {
    var j, n := i + offset, |points|;
    if 0 <= j < n then points[j]
    else if closed then points[if j < 0 then j + n else if j - n < n then j - n else 0]
    else if j < 0 then points[0] else points[n - 1]
  }

  /** Every point of the path: segment `i` is cut at equal steps of its parameter into pieces no longer than the
      spacing, and its points are those of the curve there; an open path ends in its last control point. */
  lemma PathSampleIs(length: Length, points: seq<Vec3>, closed: bool, spacing: real, i: nat, k: nat, t: real)
    requires 3 <= |points| && spacing >= 0.25 && i < if closed then |points| else |points| - 1
    requires var pieces := StartOf(length, points, closed, spacing, i + 1) - StartOf(length, points, closed, spacing, i);
      k < pieces && t * pieces as real == k as real
    ensures var path, start := CatmullRomPath(length, points, closed, spacing), StartOf(length, points, closed, spacing, i);
      var p0, p1 := Neighbour(points, closed, i, -1), Neighbour(points, closed, i, 0);
      var p2, p3 := Neighbour(points, closed, i, 1), Neighbour(points, closed, i, 2);
      && StartOf(length, points, closed, spacing, i + 1) - start == Steps(length, p2.Minus(p1), spacing)
      && start + k < |path|
      && path[start + k] == Hermite(p1, p2.Minus(p0).Times(0.5), p2, p3.Minus(p1).Times(0.5), t)
    ensures var path := CatmullRomPath(length, points, closed, spacing);
      |path| == StartOf(length, points, closed, spacing, if closed then |points| else |points| - 1) + (if closed then 0 else 1)
      && (!closed ==> path[|path| - 1] == points[|points| - 1])
  {
    hide Sample, SegmentSteps, Segment, Steps, CatmullRom, Hermite, ControlAt, Neighbour, CatmullRomPath, StartOf;
    PathLaidOut(length, points, closed, spacing, i);
    SegmentIs(length, points, closed, spacing, i);
    var steps := SegmentSteps(length, points, closed, spacing, i);
    QuotientOf(k as real, steps as real);
    SameQuotient(t, k as real / steps as real, steps as real);
    SampleIsHermite(points, closed, i, t);
    ControlsAreNeighbours(points, closed, i);
    StepsOfSegment(length, points, closed, spacing, i);
    var path, start := CatmullRomPath(length, points, closed, spacing), StartOf(length, points, closed, spacing, i);
    assert path[start + k] == Segment(length, points, closed, spacing, i)[k];
    assert path[start + k] == Sample(points, closed, i, t);
  }

  /** The path is its segments one after the other. */
  lemma PathLaidOut(length: Length, points: seq<Vec3>, closed: bool, spacing: real, i: nat)
    requires 3 <= |points| && spacing >= 0.25 && i < if closed then |points| else |points| - 1
    ensures var path, start := CatmullRomPath(length, points, closed, spacing), StartOf(length, points, closed, spacing, i);
      var segment := Segment(length, points, closed, spacing, i);
      && StartOf(length, points, closed, spacing, i + 1) == start + |segment| <= |path|
      && forall k :: 0 <= k < |segment| ==> path[start + k] == segment[k]
    ensures var path := CatmullRomPath(length, points, closed, spacing);
      |path| == StartOf(length, points, closed, spacing, if closed then |points| else |points| - 1) + (if closed then 0 else 1)
      && (!closed ==> path[|path| - 1] == points[|points| - 1])
  {
    hide Segment;
    var m, start := SegmentCount(points, closed), StartOf(length, points, closed, spacing, i);
    SegmentsPrefix(length, points, closed, spacing, i + 1, m);
    var upTo := Segments(length, points, closed, spacing, i + 1);
    assert upTo[start..] == Segment(length, points, closed, spacing, i);
    assert RealMax(spacing, 0.25) == spacing;
    assert upTo <= CatmullRomPath(length, points, closed, spacing);
  }

  lemma SameQuotient(a: real, b: real, c: real)
    requires c > 0.0 && a * c == b * c
    ensures a == b
  {
    if a < b {
      ProductGrowsStrictly(a, b, c);
    } else if b < a {
      ProductGrowsStrictly(b, a, c);
    }
  }

  lemma StepsOfSegment(length: Length, points: seq<Vec3>, closed: bool, spacing: real, i: nat)
    requires points != [] && spacing > 0.0
    ensures SegmentSteps(length, points, closed, spacing, i)
         == Steps(length, ControlAt(points, closed, i + 1).Minus(ControlAt(points, closed, i)), spacing)
  {
  }

  lemma ControlsAreNeighbours(points: seq<Vec3>, closed: bool, i: nat)
    requires 3 <= |points| && i < |points|
    ensures ControlAt(points, closed, i - 1) == Neighbour(points, closed, i, -1)
    ensures ControlAt(points, closed, i) == Neighbour(points, closed, i, 0)
    ensures ControlAt(points, closed, i + 1) == Neighbour(points, closed, i, 1)
    ensures ControlAt(points, closed, i + 2) == Neighbour(points, closed, i, 2)
  {
    WrapsOnce(i - 1, |points|);
    WrapsOnce(i, |points|);
    WrapsOnce(i + 1, |points|);
    WrapsOnce(i + 2, |points|);
  }

  lemma WrapsOnce(j: int, n: nat)
    requires n >= 3 && -1 <= j < n + 2
    ensures j % n == if j < 0 then j + n else if j < n then j else j - n
  {
  }

  lemma SampleIsHermite(points: seq<Vec3>, closed: bool, i: nat, t: real)
    requires points != []
    ensures var p0, p1 := ControlAt(points, closed, i - 1), ControlAt(points, closed, i);
      var p2, p3 := ControlAt(points, closed, i + 1), ControlAt(points, closed, i + 2);
      Sample(points, closed, i, t) == Hermite(p1, p2.Minus(p0).Times(0.5), p2, p3.Minus(p1).Times(0.5), t)
  {
    hide CatmullRom, Hermite, ControlAt;
    CurveIsHermite(ControlAt(points, closed, i - 1), ControlAt(points, closed, i), ControlAt(points, closed, i + 1),
                   ControlAt(points, closed, i + 2), t);
  }
}
