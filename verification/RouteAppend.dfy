/** Appending a waypoint in the editor: when the compiler sees the new route as an append to the old one. */
module RouteAppend {
  import opened Wrappers
  import opened Decimals
  import opened Json
  import opened Text
  import opened RouteCurve
  import opened RouteExpansion
  import opened RouteBaking
  import Compiler = RouteCompiler

  /** The legs are kept and more follow. */
  predicate Extended(before: seq<Json>, after: seq<Json>) {
    before <= after && |before| < |after|
  }

  // ----- What a segment's shape depends on -----

  lemma NonZeroProduct(a: real, b: real, p: real)
    requires a != 0.0 && b != 0.0 && p == a * b
    ensures p != 0.0
  {
  }

  /** The two weights with which a segment's neighbours enter its inner samples. */
  lemma WeightsAreNonZero(t: real, t2: real, t3: real)
    requires 0.0 < t < 1.0 && t2 == t * t && t3 == t2 * t
    ensures t3 - t2 != 0.0 && 2.0 * t2 - t - t3 != 0.0
  {
    var u := t - 1.0;
    var u2 := u * u;
    NonZeroProduct(t, t, t2);
    NonZeroProduct(u, u, u2);
    assert t2 * u == t3 - t2;
    NonZeroProduct(t2, u, t3 - t2);
    assert u2 == t2 - 2.0 * t + 1.0;
    assert t * u2 == t * t2 - 2.0 * t2 + t;
    NonZeroProduct(t, u2, t * u2);
  }

  lemma CubicMoves(a: real, b: real, c: real, d: real, e: real, t: real, t2: real, t3: real)
    requires t3 - t2 != 0.0 && 2.0 * t2 - t - t3 != 0.0
    ensures Cubic(a, b, c, d, t, t2, t3) == Cubic(a, b, c, e, t, t2, t3) <==> d == e
    ensures Cubic(d, a, b, c, t, t2, t3) == Cubic(e, a, b, c, t, t2, t3) <==> d == e
  {
    CubicAhead(a, b, c, d, e, t, t2, t3);
    CubicBehind(a, b, c, d, e, t, t2, t3);
    hide Cubic;
    if d != e {
      NonZeroProduct(d - e, t3 - t2, (d - e) * (t3 - t2));
      NonZeroProduct(d - e, 2.0 * t2 - t - t3, (d - e) * (2.0 * t2 - t - t3));
    }
  }

  lemma CubicAhead(a: real, b: real, c: real, d: real, e: real, t: real, t2: real, t3: real)
    ensures Cubic(a, b, c, d, t, t2, t3) - Cubic(a, b, c, e, t, t2, t3) == (d - e) * (t3 - t2) * 0.5
  {
  }

  lemma CubicBehind(a: real, b: real, c: real, d: real, e: real, t: real, t2: real, t3: real)
    ensures Cubic(d, a, b, c, t, t2, t3) - Cubic(e, a, b, c, t, t2, t3) == (d - e) * (2.0 * t2 - t - t3) * 0.5
  {
  }

  /** Moving a neighbour moves every inner sample, and none other. */
  lemma NeighbourMoves(p0: Vec3, p1: Vec3, p2: Vec3, p3: Vec3, q: Vec3, t: real)
    requires 0.0 <= t < 1.0
    ensures CatmullRom(p0, p1, p2, p3, t) == CatmullRom(p0, p1, p2, q, t) <==> t == 0.0 || p3 == q
    ensures CatmullRom(p0, p1, p2, p3, t) == CatmullRom(q, p1, p2, p3, t) <==> t == 0.0 || p0 == q
  {
    if t == 0.0 {
      CurveMeetsControlPoints(p0, p1, p2, p3);
      CurveMeetsControlPoints(p0, p1, p2, q);
      CurveMeetsControlPoints(q, p1, p2, p3);
    } else {
      hide CatmullRom, Cubic;
      var t2, t3 := t * t, t * t * t;
      WeightsAreNonZero(t, t2, t3);
      CurveByCoordinate(p0, p1, p2, p3, t);
      CurveByCoordinate(p0, p1, p2, q, t);
      CurveByCoordinate(q, p1, p2, p3, t);
      CubicMoves(p0.x, p1.x, p2.x, p3.x, q.x, t, t2, t3);
      CubicMoves(p0.y, p1.y, p2.y, p3.y, q.y, t, t2, t3);
      CubicMoves(p0.z, p1.z, p2.z, p3.z, q.z, t, t2, t3);
      CubicMoves(p1.x, p2.x, p3.x, p0.x, q.x, t, t2, t3);
      CubicMoves(p1.y, p2.y, p3.y, p0.y, q.y, t, t2, t3);
      CubicMoves(p1.z, p2.z, p3.z, p0.z, q.z, t, t2, t3);
    }
  }

  // ----- Segments before and after -----

  function StepsOf(length: Length, ctrl: seq<Control>, closed: bool, s: nat): nat
    requires ctrl != []
  {
    SegmentSteps(length, Positions(ctrl), closed, SMOOTH_SPACING, s)
  }

  /** A leg written for a readable position tells which position that is. */
  lemma DriveTellsPosition(text: CoordText, p: Vec3, q: Vec3)
    requires Readable(text, p) && Readable(text, q)
    ensures Drive(text, p, true) == Drive(text, q, true) <==> p == q
  {
    if Drive(text, p, true) == Drive(text, q, true) {
      assert Drive(text, p, true).fields["target"] == Str(FormatPoint(text, p));
      assert Drive(text, q, true).fields["target"] == Str(FormatPoint(text, q));
      FormatReads(text, p);
      FormatReads(text, q);
    }
  }

  ghost predicate AllReadable(text: CoordText, points: seq<Vec3>) {
    forall i :: 0 <= i < |points| ==> Readable(text, points[i])
  }

  lemma DrivesTellPath(text: CoordText, a: seq<Vec3>, b: seq<Vec3>)
    requires AllReadable(text, a) && AllReadable(text, b) && |a| == |b|
    ensures Drives(text, a) == Drives(text, b) <==> a == b
  {
    hide Drive, Readable;
    if Drives(text, a) == Drives(text, b) {
      forall i | 0 <= i < |a| ensures a[i] == b[i] {
        assert Drives(text, a)[i] == Drives(text, b)[i];
        DriveTellsPosition(text, a[i], b[i]);
      }
    }
  }

  /** Two segments of as many samples are driven alike exactly when they have the same samples. */
  lemma SameSegmentLegs(text: CoordText, length: Length, a: seq<Control>, b: seq<Control>, closed: bool, s: nat)
    requires s < |a| && s < |b| && a[s].dwell == b[s].dwell
    requires StepsOf(length, a, closed, s) == StepsOf(length, b, closed, s)
    requires AllReadable(text, Segment(length, Positions(a), closed, SMOOTH_SPACING, s))
    requires AllReadable(text, Segment(length, Positions(b), closed, SMOOTH_SPACING, s))
    ensures |SegmentLegs(text, length, a, closed, s)| == |SegmentLegs(text, length, b, closed, s)|
    ensures SegmentLegs(text, length, a, closed, s) == SegmentLegs(text, length, b, closed, s) <==>
      Segment(length, Positions(a), closed, SMOOTH_SPACING, s) == Segment(length, Positions(b), closed, SMOOTH_SPACING, s)
  {
    hide Sample, SegmentSteps, Drive, AllReadable;
    var x, y := Segment(length, Positions(a), closed, SMOOTH_SPACING, s), Segment(length, Positions(b), closed, SMOOTH_SPACING, s);
    DrivesTellPath(text, x, y);
    SegmentNonEmpty(length, Positions(a), closed, s);
    SegmentNonEmpty(length, Positions(b), closed, s);
    var dx, dy, hold := Drives(text, x), Drives(text, y), HoldAt(a[s].dwell);
    CutOut(dx, dy, hold);
  }

  lemma CutOut(x: seq<Json>, y: seq<Json>, hold: seq<Json>)
    requires |x| == |y| >= 1
    ensures x[..1] + hold + x[1..] == y[..1] + hold + y[1..] <==> x == y
  {
    var a, b := x[..1] + hold + x[1..], y[..1] + hold + y[1..];
    if a == b {
      assert x[0] == a[0] == b[0] == y[0];
      forall i | 1 <= i < |x| ensures x[i] == y[i] {
        assert a[|hold| + i] == x[i] && b[|hold| + i] == y[i];
      }
    }
  }

  /** The control points a segment's samples depend on. */
  predicate Around(a: seq<Vec3>, b: seq<Vec3>, closed: bool, s: int)
    requires a != [] && b != []
  {
    ControlAt(a, closed, s) == ControlAt(b, closed, s) && ControlAt(a, closed, s + 1) == ControlAt(b, closed, s + 1)
  }

  /** A segment between the same two points has as many samples; they are the same exactly when there is only
      one or the neighbours are the same. At most one neighbour differs. */
  lemma SegmentKeptIff(length: Length, a: seq<Vec3>, b: seq<Vec3>, closed: bool, s: nat)
    requires a != [] && b != [] && Around(a, b, closed, s)
    requires ControlAt(a, closed, s - 1) == ControlAt(b, closed, s - 1) || ControlAt(a, closed, s + 2) == ControlAt(b, closed, s + 2)
    ensures SegmentSteps(length, a, closed, SMOOTH_SPACING, s) == SegmentSteps(length, b, closed, SMOOTH_SPACING, s)
    ensures Segment(length, a, closed, SMOOTH_SPACING, s) == Segment(length, b, closed, SMOOTH_SPACING, s) <==>
      || SegmentSteps(length, a, closed, SMOOTH_SPACING, s) == 1
      || (ControlAt(a, closed, s - 1) == ControlAt(b, closed, s - 1) && ControlAt(a, closed, s + 2) == ControlAt(b, closed, s + 2))
  {
    hide CatmullRom, ControlAt, Steps;
    var steps := SegmentSteps(length, a, closed, SMOOTH_SPACING, s);
    assert steps >= 1 by { StepsArePositive(length, a, closed, s); }
    var x, y := Segment(length, a, closed, SMOOTH_SPACING, s), Segment(length, b, closed, SMOOTH_SPACING, s);
    var p0, p1, p2, p3 := ControlAt(a, closed, s - 1), ControlAt(a, closed, s), ControlAt(a, closed, s + 1), ControlAt(a, closed, s + 2);
    var q0, q3 := ControlAt(b, closed, s - 1), ControlAt(b, closed, s + 2);
    forall k: nat | k < steps ensures x[k] == y[k] <==> k == 0 || (p0 == q0 && p3 == q3) {
      var t := k as real / steps as real;
      FractionInside(k, steps);
      NeighbourMoves(p0, p1, p2, p3, q3, t);
      NeighbourMoves(p0, p1, p2, p3, q0, t);
    }
    if x == y && steps > 1 {
      assert x[1] == y[1];
    }
  }

  lemma FractionInside(k: nat, n: nat)
    requires k < n
    ensures 0.0 <= k as real / n as real < 1.0 && (k as real / n as real == 0.0 <==> k == 0)
  {
  }

  // ----- One more waypoint on a smooth route -----

  lemma PositionsGrow(ctrl: seq<Control>, c: Control)
    ensures Positions(ctrl + [c]) == Positions(ctrl) + [c.at]
  {
  }

  lemma ControlInside(points: seq<Vec3>, closed: bool, i: nat)
    requires i < |points|
    ensures ControlAt(points, closed, i) == points[i]
  {
  }

  lemma ControlOutside(points: seq<Vec3>, closed: bool)
    requires points != []
    ensures ControlAt(points, closed, -1) == points[if closed then |points| - 1 else 0]
    ensures ControlAt(points, closed, |points|) == points[if closed then 0 else |points| - 1]
  {
    if closed {
      assert (-1) % |points| == |points| - 1 by { WrapsBehind(|points|); }
      assert |points| % |points| == 0;
    }
  }

  lemma WrapsBehind(n: nat)
    requires n > 0
    ensures (-1) % n == n - 1
  {
    assert -1 == (-1) * n + (n - 1);
  }

  /** The points around an old segment, before and after a waypoint `q` is appended. */
  lemma ControlsAround(points: seq<Vec3>, q: Vec3, closed: bool, s: nat)
    requires |points| >= 3 && s <= |points| - 2
    ensures var n, after := |points|, points + [q];
      && Around(points, after, closed, s)
      && ControlAt(points, closed, s - 1) == points[if s > 0 then s - 1 else if closed then n - 1 else 0]
      && ControlAt(after, closed, s - 1) == (if s > 0 then points[s - 1] else if closed then q else points[0])
      && ControlAt(points, closed, s + 2) == points[if s < n - 2 then s + 2 else if closed then 0 else n - 1]
      && ControlAt(after, closed, s + 2) == if s < n - 2 then points[s + 2] else q
  {
    hide ControlAt;
    var n, after := |points|, points + [q];
    ControlInside(points, closed, s);
    ControlInside(after, closed, s);
    ControlInside(points, closed, s + 1);
    ControlInside(after, closed, s + 1);
    ControlInside(after, closed, s + 2);
    if s > 0 {
      ControlInside(points, closed, s - 1);
      ControlInside(after, closed, s - 1);
    } else {
      ControlOutside(points, closed);
      ControlOutside(after, closed);
    }
    if s < n - 2 {
      ControlInside(points, closed, s + 2);
    } else {
      ControlOutside(points, closed);
    }
  }

  /** Whether an old segment is driven as before: it has a single sample, or the new waypoint stands where its
      old neighbour stood. Of an open route only the last segment has the waypoint for a neighbour, of a patrol
      the first one too. */
  predicate SegmentStays(length: Length, ctrl: seq<Control>, c: Control, closed: bool, s: nat)
    requires |ctrl| >= 3 && s <= |ctrl| - 2
  {
    var n := |ctrl|;
    || StepsOf(length, ctrl, closed, s) == 1
    || ((s == n - 2 ==> c.at == ctrl[if closed then 0 else n - 1].at) && (s == 0 && closed ==> c.at == ctrl[n - 1].at))
  }

  ghost predicate SegmentReadable(text: CoordText, length: Length, ctrl: seq<Control>, closed: bool, s: nat)
    requires ctrl != []
  {
    AllReadable(text, Segment(length, Positions(ctrl), closed, SMOOTH_SPACING, s))
  }

  lemma SegmentStaysIff(text: CoordText, length: Length, ctrl: seq<Control>, c: Control, closed: bool, s: nat)
    requires |ctrl| >= 3 && s <= |ctrl| - 2
    requires SegmentReadable(text, length, ctrl, closed, s) && SegmentReadable(text, length, ctrl + [c], closed, s)
    ensures var kept, grown := SegmentLegs(text, length, ctrl, closed, s), SegmentLegs(text, length, ctrl + [c], closed, s);
      |kept| == |grown| && (kept == grown <==> SegmentStays(length, ctrl, c, closed, s))
  {
    hide Segment, SegmentLegs, SegmentSteps, ControlAt, AllReadable;
    var points := Positions(ctrl);
    PositionsGrow(ctrl, c);
    ControlsAround(points, c.at, closed, s);
    SegmentKeptIff(length, points, points + [c.at], closed, s);
    SameSegmentLegs(text, length, ctrl, ctrl + [c], closed, s);
  }

  /** The legs of the first segments, before and after. */
  lemma {:induction false} SegmentsStayIff(text: CoordText, length: Length, ctrl: seq<Control>, c: Control, closed: bool, m: nat)
    requires |ctrl| >= 3 && m <= |ctrl| - 1
    requires forall s :: 0 <= s < m ==>
      SegmentReadable(text, length, ctrl, closed, s) && SegmentReadable(text, length, ctrl + [c], closed, s)
    ensures var kept, grown := SegmentsLegs(text, length, ctrl, closed, m), SegmentsLegs(text, length, ctrl + [c], closed, m);
      |kept| == |grown| && (kept == grown <==> forall s :: 0 <= s < m ==> SegmentStays(length, ctrl, c, closed, s))
  {
    hide SegmentLegs, SegmentReadable, SegmentStays;
    if m > 0 {
      SegmentsStayIff(text, length, ctrl, c, closed, m - 1);
      SegmentStaysIff(text, length, ctrl, c, closed, m - 1);
      SplitEqual(SegmentsLegs(text, length, ctrl, closed, m - 1), SegmentLegs(text, length, ctrl, closed, m - 1),
        SegmentsLegs(text, length, ctrl + [c], closed, m - 1), SegmentLegs(text, length, ctrl + [c], closed, m - 1));
    }
  }

  lemma SplitEqual(a: seq<Json>, x: seq<Json>, b: seq<Json>, y: seq<Json>)
    requires |a| == |b|
    ensures a + x == b + y <==> a == b && x == y
  {
    if a + x == b + y {
      assert (a + x)[..|a|] == a && (b + y)[..|b|] == b;
      assert (a + x)[|a|..] == x && (b + y)[|b|..] == y;
    }
  }

  lemma SplitExtended(a: seq<Json>, x: seq<Json>, b: seq<Json>, y: seq<Json>)
    requires |a| == |b|
    ensures Extended(a + x, b + y) <==> a == b && Extended(x, y)
  {
    if Extended(a + x, b + y) {
      assert (a + x)[..|a|] == a && (b + y)[..|b|] == b && (b + y)[..|a + x|][..|a|] == b;
      forall i | 0 <= i < |x| ensures x[i] == y[i] {
        assert (a + x)[|a| + i] == x[i] && (b + y)[|a| + i] == y[i];
      }
    }
  }

  /** A segment's legs open with the control point it starts at and its hold. */
  lemma SegmentOpens(text: CoordText, length: Length, ctrl: seq<Control>, closed: bool, s: nat)
    requires s < |ctrl|
    ensures [Drive(text, ctrl[s].at, true)] + HoldAt(ctrl[s].dwell) <= SegmentLegs(text, length, ctrl, closed, s)
    ensures StepsOf(length, ctrl, closed, s) == 1 ==>
      SegmentLegs(text, length, ctrl, closed, s) == [Drive(text, ctrl[s].at, true)] + HoldAt(ctrl[s].dwell)
  {
    hide Drive, Sample;
    SegmentStartsAtControl(length, Positions(ctrl), closed, SMOOTH_SPACING, s);
    SegmentNonEmpty(length, Positions(ctrl), closed, s);
    var drives := Drives(text, Segment(length, Positions(ctrl), closed, SMOOTH_SPACING, s));
    assert drives[..1] == [Drive(text, ctrl[s].at, true)];
    if StepsOf(length, ctrl, closed, s) == 1 {
      assert drives[1..] == [];
    }
  }

  /** Appending to an open smooth route keeps its legs exactly when every segment stays: the last one, between
      the last two old waypoints, has a single sample or the new waypoint stands on the last one. */
  lemma OpenAppendIff(text: CoordText, length: Length, ctrl: seq<Control>, c: Control)
    requires |ctrl| >= 3
    requires forall s :: 0 <= s < |ctrl| - 1 ==>
      SegmentReadable(text, length, ctrl, false, s) && SegmentReadable(text, length, ctrl + [c], false, s)
    ensures Extended(SmoothLegs(text, length, ctrl, false), SmoothLegs(text, length, ctrl + [c], false)) <==>
      SegmentStays(length, ctrl, c, false, |ctrl| - 2)
  {
    hide SegmentLegs, SegmentsLegs, SegmentReadable, Drive, HoldAt, StepsOf;
    var n, grown := |ctrl|, ctrl + [c];
    SegmentsStayIff(text, length, ctrl, c, false, n - 1);
    SegmentOpens(text, length, grown, false, n - 1);
    var a, x := SegmentsLegs(text, length, ctrl, false, n - 1), [Drive(text, ctrl[n - 1].at, true)] + HoldAt(ctrl[n - 1].dwell);
    var b := SegmentsLegs(text, length, grown, false, n - 1);
    var y := SegmentLegs(text, length, grown, false, n - 1) + ([Drive(text, c.at, true)] + HoldAt(c.dwell));
    LastSegment(text, length, grown, false, n);
    assert SmoothLegs(text, length, grown, false) == b + y;
    SplitExtended(a, x, b, y);
    assert Extended(x, y);
  }

  lemma LastSegment(text: CoordText, length: Length, ctrl: seq<Control>, closed: bool, m: nat)
    requires 0 < m <= |ctrl|
    ensures SegmentsLegs(text, length, ctrl, closed, m) ==
      SegmentsLegs(text, length, ctrl, closed, m - 1) + SegmentLegs(text, length, ctrl, closed, m - 1)
  {
  }

  /** The last segment of a patrol, back to its start, is driven on the new way round too. */
  predicate ReturnStays(text: CoordText, length: Length, ctrl: seq<Control>, c: Control)
    requires ctrl != []
  {
    var n := |ctrl|;
    Extended(SegmentLegs(text, length, ctrl, true, n - 1),
      SegmentLegs(text, length, ctrl + [c], true, n - 1) + SegmentLegs(text, length, ctrl + [c], true, n))
  }

  /** Appending to a smooth patrol keeps its legs exactly when the first and the last but one segment stay, and
      the way back to the start does; it does if it has a single sample. */
  lemma PatrolAppendIff(text: CoordText, length: Length, ctrl: seq<Control>, c: Control)
    requires |ctrl| >= 3
    requires forall s :: 0 <= s < |ctrl| - 1 ==>
      SegmentReadable(text, length, ctrl, true, s) && SegmentReadable(text, length, ctrl + [c], true, s)
    ensures Extended(SmoothLegs(text, length, ctrl, true), SmoothLegs(text, length, ctrl + [c], true)) <==>
      && SegmentStays(length, ctrl, c, true, 0) && SegmentStays(length, ctrl, c, true, |ctrl| - 2)
      && ReturnStays(text, length, ctrl, c)
    ensures StepsOf(length, ctrl, true, |ctrl| - 1) == 1 ==> ReturnStays(text, length, ctrl, c)
  {
    hide SegmentLegs, SegmentsLegs, SegmentReadable, Drive, HoldAt, StepsOf;
    var n, grown := |ctrl|, ctrl + [c];
    SegmentsStayIff(text, length, ctrl, c, true, n - 1);
    LastSegment(text, length, ctrl, true, n);
    LastSegment(text, length, grown, true, n + 1);
    LastSegment(text, length, grown, true, n);
    var a, x := SegmentsLegs(text, length, ctrl, true, n - 1), SegmentLegs(text, length, ctrl, true, n - 1);
    var b := SegmentsLegs(text, length, grown, true, n - 1);
    var y := SegmentLegs(text, length, grown, true, n - 1) + SegmentLegs(text, length, grown, true, n);
    assert SmoothLegs(text, length, ctrl, true) == a + x;
    assert SmoothLegs(text, length, grown, true) == b + y;
    SplitExtended(a, x, b, y);
    SegmentOpens(text, length, ctrl, true, n - 1);
    SegmentOpens(text, length, grown, true, n - 1);
    SegmentOpens(text, length, grown, true, n);
  }

  // ----- One more waypoint on any editor route -----

  predicate DrivenSmooth(legs: seq<Json>) {
    AnySmooth(legs) && |legs| >= 3
  }

  /** When a waypoint appended to an editor route is an append to its legs: as long as the route is straight, or
      once it is smooth and the segments next to the new waypoint stay. It is never one when the route turns
      smooth, by its third waypoint or by a first smooth leg. */
  ghost predicate KeepsLegs(text: CoordText, length: Length, ctrl: seq<Control>, legs: seq<Json>, c: Control, leg: Json, closed: bool)
    requires |ctrl| == |legs|
  {
    if !DrivenSmooth(legs) then !DrivenSmooth(legs + [leg])
    else
      && SegmentStays(length, ctrl, c, closed, |ctrl| - 2)
      && (closed ==> SegmentStays(length, ctrl, c, closed, 0) && ReturnStays(text, length, ctrl, c))
  }

  lemma ControlsGrow(text: CoordText, legs: seq<Json>, leg: Json)
    requires Controls(text, legs).Some? && ControlOf(text, leg).Some?
    ensures Controls(text, legs + [leg]) == Some(Controls(text, legs).value + [ControlOf(text, leg).value])
  {
    assert (legs + [leg])[..|legs|] == legs;
  }

  lemma AnySmoothGrows(legs: seq<Json>, leg: Json)
    ensures AnySmooth(legs + [leg]) <==> AnySmooth(legs) || IsSmooth(leg)
  {
    var all := legs + [leg];
    if AnySmooth(legs) {
      var i :| 0 <= i < |legs| && IsSmooth(legs[i]);
      assert IsSmooth(all[i]);
    }
    if IsSmooth(leg) {
      assert IsSmooth(all[|legs|]);
    }
  }

  lemma StraightLegsGrow(text: CoordText, ctrl: seq<Control>, c: Control)
    ensures Extended(StraightLegs(text, ctrl), StraightLegs(text, ctrl + [c]))
  {
    hide Drive, HoldAt;
    assert (ctrl + [c])[..|ctrl|] == ctrl;
  }

  lemma {:induction false} StraightOpens(text: CoordText, ctrl: seq<Control>)
    requires ctrl != []
    ensures StraightLegs(text, ctrl) != [] && StraightLegs(text, ctrl)[0] == Drive(text, ctrl[0].at, false)
  {
    hide Drive, HoldAt;
    if |ctrl| > 1 {
      StraightOpens(text, ctrl[..|ctrl| - 1]);
    }
  }

  lemma {:induction false} SmoothOpens(text: CoordText, length: Length, ctrl: seq<Control>, closed: bool, m: nat)
    requires 0 < m <= |ctrl|
    ensures SegmentsLegs(text, length, ctrl, closed, m) != []
    ensures SegmentsLegs(text, length, ctrl, closed, m)[0] == Drive(text, ctrl[0].at, true)
  {
    hide Drive, HoldAt, SegmentLegs;
    SegmentOpens(text, length, ctrl, closed, 0);
    if m > 1 {
      SmoothOpens(text, length, ctrl, closed, m - 1);
    }
  }

  lemma DrivesDiffer(text: CoordText, p: Vec3, q: Vec3)
    ensures Drive(text, p, false) != Drive(text, q, true)
  {
    assert "radius" in Drive(text, q, true).fields;
    assert |"radius"| != |"kind"| && "radius"[0] != "target"[0];
    assert "radius" !in Drive(text, p, false).fields;
  }

  ghost predicate RouteReadable(text: CoordText, length: Length, ctrl: seq<Control>, c: Control, closed: bool)
    requires ctrl != []
  {
    forall s :: 0 <= s < |ctrl| - 1 ==>
      SegmentReadable(text, length, ctrl, closed, s) && SegmentReadable(text, length, ctrl + [c], closed, s)
  }

  /** The legs of a route of waypoints and of the same route with one more. */
  lemma WaypointKeepsLegsIff(text: CoordText, length: Length, legs: seq<Json>, leg: Json, closed: bool)
    requires legs != [] && Controls(text, legs).Some? && ControlOf(text, leg).Some?
    requires RouteReadable(text, length, Controls(text, legs).value, ControlOf(text, leg).value, closed)
    ensures ExpandedLegs(text, length, legs, closed).Some? && ExpandedLegs(text, length, legs + [leg], closed).Some?
    ensures Extended(ExpandedLegs(text, length, legs, closed).value, ExpandedLegs(text, length, legs + [leg], closed).value)
       <==> KeepsLegs(text, length, Controls(text, legs).value, legs, ControlOf(text, leg).value, leg, closed)
  {
    hide Controls, ControlOf, AnySmooth, SmoothLegs, StraightLegs, SegmentStays, ReturnStays, RouteReadable;
    var ctrl, c := Controls(text, legs).value, ControlOf(text, leg).value;
    ControlsGrow(text, legs, leg);
    AnySmoothGrows(legs, leg);
    if DrivenSmooth(legs) {
      SmoothRouteGrows(text, length, ctrl, c, closed);
    } else if DrivenSmooth(legs + [leg]) {
      TurnsSmooth(text, length, ctrl, ctrl + [c], closed);
    } else {
      StraightLegsGrow(text, ctrl, c);
    }
  }

  lemma SmoothRouteGrows(text: CoordText, length: Length, ctrl: seq<Control>, c: Control, closed: bool)
    requires |ctrl| >= 3 && RouteReadable(text, length, ctrl, c, closed)
    ensures Extended(SmoothLegs(text, length, ctrl, closed), SmoothLegs(text, length, ctrl + [c], closed)) <==>
      && SegmentStays(length, ctrl, c, closed, |ctrl| - 2)
      && (closed ==> SegmentStays(length, ctrl, c, closed, 0) && ReturnStays(text, length, ctrl, c))
  {
    hide SmoothLegs, SegmentStays, ReturnStays, SegmentReadable;
    if closed {
      PatrolAppendIff(text, length, ctrl, c);
    } else {
      OpenAppendIff(text, length, ctrl, c);
    }
  }

  lemma TurnsSmooth(text: CoordText, length: Length, before: seq<Control>, after: seq<Control>, closed: bool)
    requires before != [] && |after| >= 2 && before[0] == after[0]
    ensures !Extended(StraightLegs(text, before), SmoothLegs(text, length, after, closed))
  {
    hide Drive, SegmentsLegs, StraightLegs, HoldAt;
    StraightOpens(text, before);
    SmoothOpens(text, length, after, closed, SegmentCount(after, closed));
    DrivesDiffer(text, before[0].at, after[0].at);
  }

  // ----- What the compiler sees -----

  /** The spec a route's legs are read as, each leg by itself. */
  function SpecOf(read: Json -> Compiler.Spec, legs: seq<Json>, closed: bool): Compiler.Spec {
    var route := Compiler.Sequence(seq(|legs|, i requires 0 <= i < |legs| => read(legs[i])));
    if closed then Compiler.Forever(route) else route
  }

  /** Different legs are read differently. */
  ghost predicate TellsApart(read: Json -> Compiler.Spec, a: seq<Json>, b: seq<Json>) {
    forall i, j :: 0 <= i < |a| && 0 <= j < |b| && read(a[i]) == read(b[j]) ==> a[i] == b[j]
  }

  lemma AppendOnlyIffExtended(read: Json -> Compiler.Spec, a: seq<Json>, b: seq<Json>, closed: bool)
    requires TellsApart(read, a, b)
    ensures Compiler.AppendOnly(SpecOf(read, a, closed), SpecOf(read, b, closed)) <==> Extended(a, b)
  {
    var x := seq(|a|, i requires 0 <= i < |a| => read(a[i]));
    var y := seq(|b|, i requires 0 <= i < |b| => read(b[i]));
    assert Compiler.RouteLegs(SpecOf(read, a, closed)) == Some(x) && Compiler.RouteLegs(SpecOf(read, b, closed)) == Some(y);
    if x <= y {
      forall i | 0 <= i < |a| ensures a[i] == b[i] {
        assert x[i] == y[i];
      }
    }
  }

  /** A waypoint appended in the editor lets the vessel drive on along its leg, the tree being the one derived
      before, exactly when the route keeps its legs; otherwise the tree is rebuilt and starts over. */
  lemma WaypointResumesIff(
    text: CoordText, length: Length, read: Json -> Compiler.Spec, legs: seq<Json>, leg: Json, closed: bool, v: Compiler.Vessel)
    requires legs != [] && Controls(text, legs).Some? && ControlOf(text, leg).Some?
    requires RouteReadable(text, length, Controls(text, legs).value, ControlOf(text, leg).value, closed)
    requires ExpandedLegs(text, length, legs, closed).Some? && ExpandedLegs(text, length, legs + [leg], closed).Some?
    requires var before, after := ExpandedLegs(text, length, legs, closed).value, ExpandedLegs(text, length, legs + [leg], closed).value;
      && TellsApart(read, before, after)
      && Compiler.DrivesDerived(v) && v.lastDerived == Some(SpecOf(read, before, closed))
      && v.pilot.value.exec == Some(Compiler.Running)
    ensures var after := SpecOf(read, ExpandedLegs(text, length, legs + [leg], closed).value, closed);
      var moved := Compiler.Frame(v, Compiler.Derived(after)).pilot.value.tree;
      if KeepsLegs(text, length, Controls(text, legs).value, legs, ControlOf(text, leg).value, leg, closed) then
        moved.Some? && Compiler.CurrentLeg(moved.value) == Compiler.CurrentLeg(v.pilot.value.tree.value)
      else
        moved == Some(Compiler.FreshTree(after)) || after == v.lastDerived.value
  {
    hide Controls, ControlOf, ExpandedLegs, KeepsLegs, RouteReadable, TellsApart, SpecOf;
    var before, grown := ExpandedLegs(text, length, legs, closed).value, ExpandedLegs(text, length, legs + [leg], closed).value;
    WaypointKeepsLegsIff(text, length, legs, leg, closed);
    AppendOnlyIffExtended(read, before, grown, closed);
    if Extended(before, grown) {
      Compiler.AppendResumes(v, SpecOf(read, grown, closed));
    }
  }
}
