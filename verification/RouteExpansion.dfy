/** `expand_editor_route_in_place`: the dwell and smooth flags of an editor route become real legs. */
module RouteExpansion {
  import opened Wrappers
  import opened Decimals
  import opened Json
  import opened RouteCurve
  import opened Text

  /** How a coordinate is written in a `target` and read from one (trimmed). */
  datatype CoordText = CoordText(show: real -> string, read: string -> Option<real>)

  const SMOOTH_SPACING: real := 2.0
  const SMOOTH_RADIUS: Json := Num(FloatNum(Dec(15, -1)))

  predicate IsKind(v: Json, kind: string) {
    Field(v, "kind") == Some(Str(kind))
  }

  function ParseCoordTarget(text: CoordText, s: string): Option<Vec3> {
    var p := Split(s, ';');
    if |p| != 3 then None
    else
      match (text.read(p[0]), text.read(p[1]), text.read(p[2]))
      case (Some(x), Some(y), Some(z)) => Some(Vec3(x, y, z))
      case _ => None
  }

  function FormatPoint(text: CoordText, p: Vec3): string {
    text.show(p.x) + ";" + text.show(p.y) + ";" + text.show(p.z)
  }

  /** A target spells a point exactly if it is three texts with a semicolon between them that read as its
      coordinates. */
  lemma CoordTargetIff(text: CoordText, s: string, p: Vec3)
    ensures ParseCoordTarget(text, s) == Some(p) <==> Spells(text, s, p)
    ensures FormatPoint(text, p) == text.show(p.x) + ";" + text.show(p.y) + ";" + text.show(p.z)
  {
    if ParseCoordTarget(text, s) == Some(p) {
      var parts := Split(s, ';');
      SplitIsJoined(s, parts[0], parts[1], parts[2]);
      assert ReadsAs(text, parts[0], p.x) && ReadsAs(text, parts[1], p.y) && ReadsAs(text, parts[2], p.z);
    }
    if Spells(text, s, p) {
      var a: string, b: string, c: string :| ReadsAs(text, a, p.x) && ReadsAs(text, b, p.y) && ReadsAs(text, c, p.z)
        && s == a + ";" + b + ";" + c;
      SplitWithout(c, ';');
      SplitAt(b, ';', c);
      SplitAt(a, ';', b + [';'] + c);
      assert s == a + [';'] + (b + [';'] + c);
      assert Split(s, ';') == [a, b, c];
    }
  }

  predicate ReadsAs(text: CoordText, s: string, r: real) {
    ';' !in s && text.read(s) == Some(r)
  }

  ghost predicate Spells(text: CoordText, s: string, p: Vec3) {
    exists a: string, b: string, c: string ::
      ReadsAs(text, a, p.x) && ReadsAs(text, b, p.y) && ReadsAs(text, c, p.z) && s == a + ";" + b + ";" + c
  }

  lemma SplitIsJoined(s: string, a: string, b: string, c: string)
    requires Split(s, ';') == [a, b, c]
    ensures s == a + ";" + b + ";" + c
  {
    hide Split;
    var i := SplitHead(s, ';');
    var rest := s[i + 1..];
    assert Split(rest, ';') == [b, c];
    var j := SplitHead(rest, ';');
    var tail := rest[j + 1..];
    assert Split(tail, ';') == [c];
    SplitWithoutIs(tail, ';');
    assert s == a + [s[i]] + rest && rest == b + [rest[j]] + tail;
  }

  // ----- Reading the route -----

  /** One control point: where, and how long to hold there. */
  datatype Control = Control(at: Vec3, dwell: Option<Decimal>)

  function DwellOf(leg: Json): Option<Decimal> {
    match Field(leg, "dwell")
    case Some(Num(n)) => if n.AsDecimal().mantissa > 0 then Some(n.AsDecimal()) else None
    case _ => None
  }

  predicate IsSmooth(leg: Json) {
    Field(leg, "smooth") == Some(Bool(true))
  }

  function ControlOf(text: CoordText, leg: Json): Option<Control> {
    if !IsKind(leg, "drive_to") then None
    else
      match Field(leg, "target")
      case Some(Str(s)) =>
        (match ParseCoordTarget(text, s)
         case Some(p) => Some(Control(p, DwellOf(leg)))
         case None => None)
      case _ => None
  }

  /** The control points of a route that is coordinate legs throughout. */
  function Controls(text: CoordText, legs: seq<Json>): (r: Option<seq<Control>>)
    ensures r.Some? ==> |r.value| == |legs|
  {
    if legs == [] then Some([])
    else
      match (Controls(text, legs[..|legs| - 1]), ControlOf(text, legs[|legs| - 1]))
      case (Some(before), Some(c)) => Some(before + [c])
      case _ => None
  }

  function Positions(ctrl: seq<Control>): (r: seq<Vec3>)
    ensures |r| == |ctrl|
    ensures forall i :: 0 <= i < |r| ==> r[i] == ctrl[i].at
  {
    seq(|ctrl|, i requires 0 <= i < |ctrl| => ctrl[i].at)
  }

  // ----- Writing the legs -----

  function Drive(text: CoordText, p: Vec3, smooth: bool): Json {
    var m := map["kind" := Str("drive_to"), "target" := Str(FormatPoint(text, p))];
    Obj(if smooth then m["radius" := SMOOTH_RADIUS] else m)
  }

  function Wait(seconds: Decimal): Json {
    Obj(map["kind" := Str("wait"), "seconds" := Num(FloatNum(seconds))])
  }

  function HoldAt(dwell: Option<Decimal>): seq<Json> {
    match dwell case Some(d) => [Wait(d)] case None => []
  }

  function Drives(text: CoordText, points: seq<Vec3>): seq<Json> {
    seq(|points|, i requires 0 <= i < |points| => Drive(text, points[i], true))
  }

  /** The legs of segment `s`: its samples, with the hold of its control point after the first. */
  function SegmentLegs(text: CoordText, length: Length, ctrl: seq<Control>, closed: bool, s: nat): seq<Json>
    requires s < |ctrl|
  {
    var drives := Drives(text, Segment(length, Positions(ctrl), closed, SMOOTH_SPACING, s));
    drives[..1] + HoldAt(ctrl[s].dwell) + drives[1..]
  }

  function SegmentsLegs(text: CoordText, length: Length, ctrl: seq<Control>, closed: bool, m: nat): seq<Json>
    requires m <= |ctrl|
  {
    if m == 0 then []
    else SegmentsLegs(text, length, ctrl, closed, m - 1) + SegmentLegs(text, length, ctrl, closed, m - 1)
  }

  function SmoothLegs(text: CoordText, length: Length, ctrl: seq<Control>, closed: bool): seq<Json>
    requires ctrl != []
  {
    var last := ctrl[|ctrl| - 1];
    SegmentsLegs(text, length, ctrl, closed, SegmentCount(ctrl, closed))
    + if closed then [] else [Drive(text, last.at, true)] + HoldAt(last.dwell)
  }

  function StraightLegs(text: CoordText, ctrl: seq<Control>): seq<Json> {
    if ctrl == [] then []
    else
      var last := ctrl[|ctrl| - 1];
      StraightLegs(text, ctrl[..|ctrl| - 1]) + [Drive(text, last.at, false)] + HoldAt(last.dwell)
  }

  predicate AnySmooth(legs: seq<Json>) {
    exists i :: 0 <= i < |legs| && IsSmooth(legs[i])
  }

  function ExpandedLegs(text: CoordText, length: Length, legs: seq<Json>, closed: bool): Option<seq<Json>> {
    match Controls(text, legs)
    case None => None
    case Some(ctrl) =>
      if ctrl == [] then None
      else if AnySmooth(legs) && |ctrl| >= 3 then Some(SmoothLegs(text, length, ctrl, closed))
      else Some(StraightLegs(text, ctrl))
  }

  function ExpandSequence(text: CoordText, length: Length, node: Json, closed: bool): Json
    requires node.Obj?
  {
    match GetArr(node.fields, "children")
    case None => node
    case Some(legs) =>
      match ExpandedLegs(text, length, legs, closed)
      case None => node
      case Some(out) => Obj(node.fields["children" := Arr(out)])
  }

  /** The whole pass: a top-level sequence, or a sequence directly below; anything else is left alone. */
  function ExpandRoute(text: CoordText, length: Length, v: Json): Json {
    var closed := IsKind(v, "forever");
    if IsKind(v, "sequence") then ExpandSequence(text, length, v, closed)
    else
      match Field(v, "child")
      case Some(child) =>
        if IsKind(child, "sequence") then Obj(v.fields["child" := ExpandSequence(text, length, child, closed)]) else v
      case None => v
  }

  // ----- The pass as the source runs it -----

  method ReadControls(text: CoordText, legs: seq<Json>) returns (ctrl: Option<seq<Control>>, smooth: bool)
    ensures ctrl == Controls(text, legs)
    ensures ctrl.Some? ==> smooth == AnySmooth(legs)
  {
    var found := [];
    smooth := false;
    for i := 0 to |legs|
      invariant Controls(text, legs[..i]) == Some(found)
      invariant smooth == AnySmooth(legs[..i])
    {
      assert legs[..i + 1][..i] == legs[..i];
      var c := ControlOf(text, legs[i]);
      if c.None? {
        StopsAt(text, legs, i);
        return None, smooth;
      }
      smooth := smooth || IsSmooth(legs[i]);
      found := found + [c.value];
      assert AnySmooth(legs[..i + 1]) <==> AnySmooth(legs[..i]) || IsSmooth(legs[i]) by {
        assert legs[..i + 1][i] == legs[i];
        assert forall j :: 0 <= j < i ==> legs[..i + 1][j] == legs[..i][j];
      }
    }
    assert legs[..|legs|] == legs;
    ctrl := Some(found);
  }

  lemma {:induction false} StopsAt(text: CoordText, legs: seq<Json>, i: nat)
    requires i < |legs| && ControlOf(text, legs[i]).None?
    ensures Controls(text, legs).None?
  {
    if i < |legs| - 1 {
      StopsAt(text, legs[..|legs| - 1], i);
    }
  }

  method WriteSmoothLegs(text: CoordText, length: Length, ctrl: seq<Control>, closed: bool) returns (out: seq<Json>)
    requires ctrl != []
    ensures out == SmoothLegs(text, length, ctrl, closed)
  {
    hide SegmentLegs, Drive, HoldAt;
    out := [];
    var segments := SegmentCount(ctrl, closed);
    for s := 0 to segments
      invariant out == SegmentsLegs(text, length, ctrl, closed, s)
    {
      var legs := WriteSegment(text, length, ctrl, closed, s);
      out := out + legs;
    }
    if !closed {
      var last := ctrl[|ctrl| - 1];
      out := out + ([Drive(text, last.at, true)] + HoldAt(last.dwell));
    }
  }

  method WriteSegment(text: CoordText, length: Length, ctrl: seq<Control>, closed: bool, s: nat) returns (out: seq<Json>)
    requires s < |ctrl|
    ensures out == SegmentLegs(text, length, ctrl, closed, s)
  {
    hide Sample, SegmentSteps, Drive;
    var points := Positions(ctrl);
    var steps := SegmentSteps(length, points, closed, SMOOTH_SPACING, s);
    ghost var drives := Drives(text, Segment(length, points, closed, SMOOTH_SPACING, s));
    ghost var hold := HoldAt(ctrl[s].dwell);
    out := [];
    for k := 0 to steps
      invariant out == if k == 0 then [] else drives[..1] + hold + drives[1..k]
    {
      var leg := Drive(text, Sample(points, closed, s, k as real / steps as real), true);
      assert leg == drives[k];
      if k == 0 {
        out := [leg] + HoldAt(ctrl[s].dwell);
        assert out == drives[..1] + hold + drives[1..1];
      } else {
        assert drives[1..k + 1] == drives[1..k] + [leg];
        out := out + [leg];
      }
    }
    assert steps >= 1 by { StepsArePositive(length, points, closed, s); }
    assert drives[1..steps] == drives[1..];
  }

  lemma StepsArePositive(length: Length, points: seq<Vec3>, closed: bool, s: nat)
    requires points != []
    ensures SegmentSteps(length, points, closed, SMOOTH_SPACING, s) >= 1
  {
  }

  method WriteStraightLegs(text: CoordText, ctrl: seq<Control>) returns (out: seq<Json>)
    ensures out == StraightLegs(text, ctrl)
  {
    out := [];
    for i := 0 to |ctrl|
      invariant out == StraightLegs(text, ctrl[..i])
    {
      assert ctrl[..i + 1][..i] == ctrl[..i];
      out := out + [Drive(text, ctrl[i].at, false)] + HoldAt(ctrl[i].dwell);
    }
    assert ctrl[..|ctrl|] == ctrl;
  }

  method ExpandEditorRoute(text: CoordText, length: Length, v: Json) returns (r: Json)
    ensures r == ExpandRoute(text, length, v)
  {
    hide Controls, SmoothLegs, StraightLegs, AnySmooth;
    var closed := IsKind(v, "forever");
    var atTop := IsKind(v, "sequence");
    var child := Field(v, "child");
    if !atTop && (child.None? || !IsKind(child.value, "sequence")) {
      return v;
    }
    var node := if atTop then v else child.value;
    var legs := GetArr(node.fields, "children");
    if legs.None? {
      return v;
    }
    var ctrl, smooth := ReadControls(text, legs.value);
    if ctrl.None? || ctrl.value == [] {
      return v;
    }
    var out;
    if smooth && |ctrl.value| >= 3 {
      out := WriteSmoothLegs(text, length, ctrl.value, closed);
    } else {
      out := WriteStraightLegs(text, ctrl.value);
    }
    var expanded := Obj(node.fields["children" := Arr(out)]);
    r := if atTop then expanded else Obj(v.fields["child" := expanded]);
  }

  // ----- What the expanded route drives, and where it holds -----

  /** A path driven sample by sample, holding after the samples that carry a dwell. */
  function Weave(text: CoordText, path: seq<Vec3>, holds: seq<Option<Decimal>>): seq<Json>
    requires |path| == |holds|
  {
    if path == [] then []
    else
      var n := |path| - 1;
      Weave(text, path[..n], holds[..n]) + [Drive(text, path[n], true)] + HoldAt(holds[n])
  }

  lemma {:induction false} WeaveConcat(
    text: CoordText, a: seq<Vec3>, ha: seq<Option<Decimal>>, b: seq<Vec3>, hb: seq<Option<Decimal>>)
    requires |a| == |ha| && |b| == |hb|
    ensures Weave(text, a + b, ha + hb) == Weave(text, a, ha) + Weave(text, b, hb)
  {
    hide Drive;
    if b == [] {
      assert a + b == a && ha + hb == ha;
    } else {
      var n := |b| - 1;
      WeaveConcat(text, a, ha, b[..n], hb[..n]);
      assert (a + b)[..|a + b| - 1] == a + b[..n];
      assert (ha + hb)[..|a + b| - 1] == ha + hb[..n];
    }
  }

  function Nones(n: nat): (r: seq<Option<Decimal>>)
    ensures |r| == n && forall i :: 0 <= i < n ==> r[i] == None
  {
    seq(n, _ => None)
  }

  lemma {:induction false} WeaveWithoutHolds(text: CoordText, path: seq<Vec3>)
    ensures Weave(text, path, Nones(|path|)) == Drives(text, path)
  {
    hide Drive;
    if path != [] {
      var n := |path| - 1;
      WeaveWithoutHolds(text, path[..n]);
      assert Nones(|path|)[..n] == Nones(n);
      assert Drives(text, path) == Drives(text, path[..n]) + [Drive(text, path[n], true)];
    }
  }

  /** The dwell of each control point at the first sample of its segment, nothing elsewhere. */
  function HoldsUpTo(length: Length, ctrl: seq<Control>, closed: bool, m: nat): seq<Option<Decimal>>
    requires m <= |ctrl|
  {
    if m == 0 then []
    else HoldsUpTo(length, ctrl, closed, m - 1) + SegmentHolds(length, ctrl, closed, m - 1)
  }

  function SegmentHolds(length: Length, ctrl: seq<Control>, closed: bool, s: nat): (r: seq<Option<Decimal>>)
    requires s < |ctrl|
    ensures |r| == |Segment(length, Positions(ctrl), closed, SMOOTH_SPACING, s)| >= 1
    ensures r[0] == ctrl[s].dwell && forall j :: 0 < j < |r| ==> r[j] == None
  {
    hide SegmentSteps, Sample;
    SegmentNonEmpty(length, Positions(ctrl), closed, s);
    [ctrl[s].dwell] + Nones(|Segment(length, Positions(ctrl), closed, SMOOTH_SPACING, s)| - 1)
  }

  lemma {:induction false} HoldsUpToLength(length: Length, ctrl: seq<Control>, closed: bool, m: nat)
    requires m <= |ctrl| && ctrl != []
    ensures |HoldsUpTo(length, ctrl, closed, m)| == StartOf(length, Positions(ctrl), closed, SMOOTH_SPACING, m)
  {
    hide Segment, SegmentHolds;
    if m > 0 {
      HoldsUpToLength(length, ctrl, closed, m - 1);
    }
  }

  lemma SegmentIsWoven(text: CoordText, length: Length, ctrl: seq<Control>, closed: bool, s: nat)
    requires s < |ctrl|
    ensures var segment := Segment(length, Positions(ctrl), closed, SMOOTH_SPACING, s);
      segment != []
      && SegmentLegs(text, length, ctrl, closed, s) == Weave(text, segment, SegmentHolds(length, ctrl, closed, s))
  {
    hide Drive, Sample, SegmentSteps, Segment;
    StepsArePositive(length, Positions(ctrl), closed, s);
    SegmentNonEmpty(length, Positions(ctrl), closed, s);
    var segment := Segment(length, Positions(ctrl), closed, SMOOTH_SPACING, s);
    var drives := Drives(text, segment);
    var head, tail := segment[..1], segment[1..];
    assert segment == head + tail;
    WeaveConcat(text, head, [ctrl[s].dwell], tail, Nones(|tail|));
    WeaveWithoutHolds(text, tail);
    assert drives[1..] == Drives(text, tail);
    WeaveOne(text, head[0], ctrl[s].dwell);
    assert head == [head[0]];
    assert drives[..1] == [Drive(text, head[0], true)];
  }

  lemma SegmentNonEmpty(length: Length, points: seq<Vec3>, closed: bool, s: nat)
    requires points != []
    ensures |Segment(length, points, closed, SMOOTH_SPACING, s)| == SegmentSteps(length, points, closed, SMOOTH_SPACING, s) >= 1
  {
  }

  lemma WeaveNothing(text: CoordText)
    ensures Weave(text, [], []) == []
  {
  }

  lemma {:induction false} SegmentsAreWoven(text: CoordText, length: Length, ctrl: seq<Control>, closed: bool, m: nat)
    requires ctrl != [] && m <= |ctrl|
    ensures |HoldsUpTo(length, ctrl, closed, m)| == |Segments(length, Positions(ctrl), closed, SMOOTH_SPACING, m)|
    ensures SegmentsLegs(text, length, ctrl, closed, m)
         == Weave(text, Segments(length, Positions(ctrl), closed, SMOOTH_SPACING, m), HoldsUpTo(length, ctrl, closed, m))
  {
    hide Segment, SegmentLegs, SegmentHolds, Weave, StartOf, Positions, Drive;
    if m == 0 {
      assert Weave(text, [], []) == [] by { WeaveNothing(text); }
    } else {
      var points := Positions(ctrl);
      SegmentIsWoven(text, length, ctrl, closed, m - 1);
      SegmentsAreWoven(text, length, ctrl, closed, m - 1);
      WeaveConcat(text, Segments(length, points, closed, SMOOTH_SPACING, m - 1), HoldsUpTo(length, ctrl, closed, m - 1),
                  Segment(length, points, closed, SMOOTH_SPACING, m - 1), SegmentHolds(length, ctrl, closed, m - 1));
    }
  }

  function AllHolds(length: Length, ctrl: seq<Control>, closed: bool): seq<Option<Decimal>>
    requires ctrl != []
  {
    HoldsUpTo(length, ctrl, closed, SegmentCount(ctrl, closed)) + if closed then [] else [ctrl[|ctrl| - 1].dwell]
  }

  /** A smooth route of three or more legs drives exactly the Catmull-Rom path of its control points,
      open or closed, woven with its holds. */
  lemma SmoothRouteIsThePath(text: CoordText, length: Length, ctrl: seq<Control>, closed: bool)
    requires |ctrl| >= 3
    ensures var path := CatmullRomPath(length, Positions(ctrl), closed, SMOOTH_SPACING);
      |AllHolds(length, ctrl, closed)| == |path|
      && SmoothLegs(text, length, ctrl, closed) == Weave(text, path, AllHolds(length, ctrl, closed))
  {
    hide Drive, Segments, HoldsUpTo, SegmentsLegs, Weave;
    var points := Positions(ctrl);
    var m := SegmentCount(ctrl, closed);
    SegmentsAreWoven(text, length, ctrl, closed, m);
    var segments := Segments(length, points, closed, SMOOTH_SPACING, m);
    var holds := HoldsUpTo(length, ctrl, closed, m);
    if closed {
      assert segments + [] == segments && holds + [] == holds;
    } else {
      var last := ctrl[|ctrl| - 1];
      WeaveConcat(text, segments, holds, [last.at], [last.dwell]);
      WeaveOne(text, last.at, last.dwell);
    }
  }

  lemma WeaveOne(text: CoordText, p: Vec3, hold: Option<Decimal>)
    ensures Weave(text, [p], [hold]) == [Drive(text, p, true)] + HoldAt(hold)
  {
    assert [p][..0] == [] && [hold][..0] == [];
    assert Weave(text, [], []) == [];
  }

  /** Every dwell sits at the sample that is its own control point, and no other sample holds. */
  lemma HoldsSitAtControlPoints(length: Length, ctrl: seq<Control>, closed: bool)
    requires |ctrl| >= 3
    ensures Placed(length, ctrl, closed, |ctrl|, AllHolds(length, ctrl, closed))
    ensures var path := CatmullRomPath(length, Positions(ctrl), closed, SMOOTH_SPACING);
      && |AllHolds(length, ctrl, closed)| == |path|
      && forall i :: 0 <= i < |ctrl| ==>
           var start := StartOf(length, Positions(ctrl), closed, SMOOTH_SPACING, i);
           start < |path| && path[start] == ctrl[i].at
  {
    hide HoldsUpTo, StartOf, Placed, CatmullRomPath;
    var points := Positions(ctrl);
    var m := SegmentCount(ctrl, closed);
    PathLength(length, points, closed);
    HoldsUpToLength(length, ctrl, closed, m);
    HoldsUpToPlaced(length, ctrl, closed, m);
    if closed {
      assert HoldsUpTo(length, ctrl, closed, m) + [] == HoldsUpTo(length, ctrl, closed, m);
    } else {
      PlacedStep(length, ctrl, closed, m, HoldsUpTo(length, ctrl, closed, m), [ctrl[m].dwell]);
    }
    forall i | 0 <= i < |ctrl|
      ensures var start := StartOf(length, points, closed, SMOOTH_SPACING, i);
        var path := CatmullRomPath(length, points, closed, SMOOTH_SPACING);
        start < |path| && path[start] == ctrl[i].at
    {
      PathMeetsControlPoint(length, points, closed, SMOOTH_SPACING, i);
    }
  }

  lemma PathLength(length: Length, points: seq<Vec3>, closed: bool)
    requires |points| >= 3
    ensures |CatmullRomPath(length, points, closed, SMOOTH_SPACING)|
         == StartOf(length, points, closed, SMOOTH_SPACING, SegmentCount(points, closed)) + if closed then 0 else 1
  {
  }

  /** `holds` carries the dwell of control point `i` at its start, for every `i` below `m`, and nothing else. */
  ghost predicate Placed(length: Length, ctrl: seq<Control>, closed: bool, m: nat, holds: seq<Option<Decimal>>)
    requires ctrl != [] && m <= |ctrl|
  {
    && (forall i :: 0 <= i < m ==>
          var start := StartOf(length, Positions(ctrl), closed, SMOOTH_SPACING, i);
          start < |holds| && holds[start] == ctrl[i].dwell)
    && (forall j :: 0 <= j < |holds| && holds[j].Some? ==>
          exists i :: 0 <= i < m && j == StartOf(length, Positions(ctrl), closed, SMOOTH_SPACING, i))
  }

  lemma PlacedStep(
    length: Length, ctrl: seq<Control>, closed: bool, m: nat, before: seq<Option<Decimal>>, here: seq<Option<Decimal>>)
    requires m < |ctrl| && Placed(length, ctrl, closed, m, before)
    requires |before| == StartOf(length, Positions(ctrl), closed, SMOOTH_SPACING, m)
    requires here != [] && here[0] == ctrl[m].dwell && forall j :: 0 < j < |here| ==> here[j] == None
    ensures Placed(length, ctrl, closed, m + 1, before + here)
  {
    hide StartOf;
    var holds := before + here;
    forall j | 0 <= j < |holds| && holds[j].Some?
      ensures exists i :: 0 <= i < m + 1 && j == StartOf(length, Positions(ctrl), closed, SMOOTH_SPACING, i)
    {
      if j < |before| {
        assert before[j].Some?;
      } else {
        assert here[j - |before|].Some?;
      }
    }
  }

  lemma {:induction false} HoldsUpToPlaced(length: Length, ctrl: seq<Control>, closed: bool, m: nat)
    requires ctrl != [] && m <= |ctrl|
    ensures Placed(length, ctrl, closed, m, HoldsUpTo(length, ctrl, closed, m))
  {
    hide Segment, StartOf, Placed;
    if m == 0 {
      NothingPlaced(length, ctrl, closed);
    } else {
      HoldsUpToPlaced(length, ctrl, closed, m - 1);
      HoldsUpToLength(length, ctrl, closed, m - 1);
      PlacedStep(length, ctrl, closed, m - 1, HoldsUpTo(length, ctrl, closed, m - 1),
                 SegmentHolds(length, ctrl, closed, m - 1));
    }
  }

  lemma NothingPlaced(length: Length, ctrl: seq<Control>, closed: bool)
    requires ctrl != []
    ensures Placed(length, ctrl, closed, 0, [])
  {
  }

  function Only(legs: seq<Json>, kind: string): seq<Json> {
    if legs == [] then []
    else Only(legs[..|legs| - 1], kind) + if IsKind(legs[|legs| - 1], kind) then [legs[|legs| - 1]] else []
  }

  lemma {:induction false} OnlyConcat(a: seq<Json>, b: seq<Json>, kind: string)
    ensures Only(a + b, kind) == Only(a, kind) + Only(b, kind)
  {
    hide IsKind;
    if b == [] {
      assert a + b == a;
    } else {
      assert (a + b)[..|a + b| - 1] == a + b[..|b| - 1];
      OnlyConcat(a, b[..|b| - 1], kind);
    }
  }

  /** The dwells in order, each as one wait. */
  function Waits(holds: seq<Option<Decimal>>): seq<Json> {
    if holds == [] then [] else Waits(holds[..|holds| - 1]) + HoldAt(holds[|holds| - 1])
  }

  lemma OnlyOne(leg: Json, kind: string)
    ensures Only([leg], kind) == if IsKind(leg, kind) then [leg] else []
  {
    hide IsKind;
    assert [leg][..0] == [];
    assert Only([], kind) == [];
  }

  lemma KindsOfLegs(text: CoordText, p: Vec3, smooth: bool, seconds: Decimal)
    ensures IsKind(Drive(text, p, smooth), "drive_to") && !IsKind(Drive(text, p, smooth), "wait")
    ensures IsKind(Wait(seconds), "wait") && !IsKind(Wait(seconds), "drive_to")
  {
    hide FormatPoint;
    assert Field(Drive(text, p, smooth), "kind") == Some(Str("drive_to"));
    assert Field(Wait(seconds), "kind") == Some(Str("wait"));
    assert |"drive_to"| != |"wait"|;
  }

  lemma OnlyOfLeg(text: CoordText, p: Vec3, smooth: bool, hold: Option<Decimal>)
    ensures Only([Drive(text, p, smooth)] + HoldAt(hold), "drive_to") == [Drive(text, p, smooth)]
    ensures Only([Drive(text, p, smooth)] + HoldAt(hold), "wait") == HoldAt(hold)
  {
    hide Only, Drive, Wait, IsKind;
    var leg := Drive(text, p, smooth);
    OnlyOne(leg, "drive_to");
    OnlyOne(leg, "wait");
    match hold
    case None =>
      KindsOfLegs(text, p, smooth, FromInt(0));
      assert [leg] + HoldAt(hold) == [leg];
    case Some(d) =>
      KindsOfLegs(text, p, smooth, d);
      OnlyOne(Wait(d), "drive_to");
      OnlyOne(Wait(d), "wait");
      OnlyConcat([leg], HoldAt(hold), "drive_to");
      OnlyConcat([leg], HoldAt(hold), "wait");
  }

  /** Of a woven route the drives are the path, in order, and the waits are the dwells, in order. */
  lemma {:induction false} WeaveTakenApart(text: CoordText, path: seq<Vec3>, holds: seq<Option<Decimal>>)
    requires |path| == |holds|
    ensures Only(Weave(text, path, holds), "drive_to") == Drives(text, path)
    ensures Only(Weave(text, path, holds), "wait") == Waits(holds)
  {
    hide Drive, IsKind, Wait;
    if path != [] {
      var n := |path| - 1;
      WeaveTakenApart(text, path[..n], holds[..n]);
      OnlyOfLeg(text, path[n], true, holds[n]);
      var before, leg := Weave(text, path[..n], holds[..n]), [Drive(text, path[n], true)] + HoldAt(holds[n]);
      OnlyConcat(before, leg, "drive_to");
      OnlyConcat(before, leg, "wait");
      assert Weave(text, path, holds) == before + leg;
      assert Drives(text, path) == Drives(text, path[..n]) + [Drive(text, path[n], true)];
    }
  }

  /** The targets an expanded smooth route drives to are exactly the path the ribbon shows. */
  lemma SmoothTargets(text: CoordText, length: Length, ctrl: seq<Control>, closed: bool)
    requires |ctrl| >= 3
    ensures Only(SmoothLegs(text, length, ctrl, closed), "drive_to")
         == Drives(text, CatmullRomPath(length, Positions(ctrl), closed, SMOOTH_SPACING))
  {
    hide CatmullRomPath, SmoothLegs, AllHolds;
    SmoothRouteIsThePath(text, length, ctrl, closed);
    WeaveTakenApart(text, CatmullRomPath(length, Positions(ctrl), closed, SMOOTH_SPACING),
                    AllHolds(length, ctrl, closed));
  }

  function Dwells(ctrl: seq<Control>): seq<Option<Decimal>> {
    seq(|ctrl|, i requires 0 <= i < |ctrl| => ctrl[i].dwell)
  }

  /** Every positive dwell becomes exactly one wait, in the order of the control points. */
  lemma SmoothWaits(text: CoordText, length: Length, ctrl: seq<Control>, closed: bool)
    requires |ctrl| >= 3
    ensures Only(SmoothLegs(text, length, ctrl, closed), "wait") == Waits(Dwells(ctrl))
  {
    hide CatmullRomPath, SmoothLegs, Only, Waits;
    SmoothRouteIsThePath(text, length, ctrl, closed);
    WeaveTakenApart(text, CatmullRomPath(length, Positions(ctrl), closed, SMOOTH_SPACING),
                    AllHolds(length, ctrl, closed));
    var m := SegmentCount(ctrl, closed);
    WaitsOfHoldsUpTo(length, ctrl, closed, m);
    if closed {
      assert Dwells(ctrl)[..m] == Dwells(ctrl);
      assert AllHolds(length, ctrl, closed) == HoldsUpTo(length, ctrl, closed, m);
    } else {
      var last := [ctrl[m].dwell];
      WaitsConcat(HoldsUpTo(length, ctrl, closed, m), last);
      WaitsConcat(Dwells(ctrl)[..m], last);
      assert Dwells(ctrl) == Dwells(ctrl)[..m] + last;
    }
  }

  function StraightDrives(text: CoordText, ctrl: seq<Control>): seq<Json> {
    seq(|ctrl|, i requires 0 <= i < |ctrl| => Drive(text, ctrl[i].at, false))
  }

  /** A route that is not smooth still drives to its control points, in order, and holds as long as they say. */
  lemma {:induction false} StraightTakenApart(text: CoordText, ctrl: seq<Control>)
    ensures Only(StraightLegs(text, ctrl), "drive_to") == StraightDrives(text, ctrl)
    ensures Only(StraightLegs(text, ctrl), "wait") == Waits(Dwells(ctrl))
  {
    hide Drive, IsKind, Wait, HoldAt;
    if ctrl != [] {
      var n := |ctrl| - 1;
      StraightTakenApart(text, ctrl[..n]);
      OnlyOfLeg(text, ctrl[n].at, false, ctrl[n].dwell);
      var before, leg := StraightLegs(text, ctrl[..n]), [Drive(text, ctrl[n].at, false)] + HoldAt(ctrl[n].dwell);
      OnlyConcat(before, leg, "drive_to");
      OnlyConcat(before, leg, "wait");
      assert StraightLegs(text, ctrl) == before + leg;
      assert StraightDrives(text, ctrl) == StraightDrives(text, ctrl[..n]) + [Drive(text, ctrl[n].at, false)];
      assert Dwells(ctrl)[..n] == Dwells(ctrl[..n]);
    }
  }

  lemma {:induction false} WaitsConcat(a: seq<Option<Decimal>>, b: seq<Option<Decimal>>)
    ensures Waits(a + b) == Waits(a) + Waits(b)
  {
    hide HoldAt;
    if b == [] {
      assert a + b == a;
    } else {
      assert (a + b)[..|a + b| - 1] == a + b[..|b| - 1];
      WaitsConcat(a, b[..|b| - 1]);
    }
  }

  lemma {:induction false} NoWaits(n: nat)
    ensures Waits(Nones(n)) == []
  {
    if n > 0 {
      NoWaits(n - 1);
      assert Nones(n)[..n - 1] == Nones(n - 1);
    }
  }

  lemma {:induction false} WaitsOfHoldsUpTo(length: Length, ctrl: seq<Control>, closed: bool, m: nat)
    requires m <= |ctrl|
    ensures Waits(HoldsUpTo(length, ctrl, closed, m)) == Waits(Dwells(ctrl)[..m])
  {
    hide Waits, Segment;
    if m == 0 {
      assert Dwells(ctrl)[..0] == [] == HoldsUpTo(length, ctrl, closed, 0);
    } else {
      WaitsOfHoldsUpTo(length, ctrl, closed, m - 1);
      var before, here := HoldsUpTo(length, ctrl, closed, m - 1), SegmentHolds(length, ctrl, closed, m - 1);
      NoWaits(|here| - 1);
      assert here == [ctrl[m - 1].dwell] + Nones(|here| - 1);
      WaitsConcat([ctrl[m - 1].dwell], Nones(|here| - 1));
      WaitsConcat(before, here);
      WaitsConcat(Dwells(ctrl)[..m - 1], [ctrl[m - 1].dwell]);
      assert Dwells(ctrl)[..m] == Dwells(ctrl)[..m - 1] + [ctrl[m - 1].dwell];
    }
  }

  // ----- The legs that were expanded, as they are written -----

  /** The seconds a leg asks to hold: a positive number under `dwell`. */
  predicate AsksFor(leg: Json, seconds: Decimal) {
    && leg.Obj? && "dwell" in leg.fields && leg.fields["dwell"].Num?
    && leg.fields["dwell"].number.AsDecimal() == seconds && seconds.mantissa > 0
  }

  /** One wait for every leg that asks for one, in order. */
  ghost function AskedWaits(legs: seq<Json>): seq<Json> {
    if legs == [] then []
    else
      var last := legs[|legs| - 1];
      AskedWaits(legs[..|legs| - 1]) +
      if exists seconds: Decimal :: AsksFor(last, seconds) then
        var seconds: Decimal :| AsksFor(last, seconds);
        [Obj(map["kind" := Str("wait"), "seconds" := Num(FloatNum(seconds))])]
      else []
  }

  /** The leg drives to these coordinates. */
  predicate DrivesTo(text: CoordText, leg: Json, p: Vec3) {
    && leg.Obj? && "kind" in leg.fields && leg.fields["kind"] == Str("drive_to")
    && "target" in leg.fields && leg.fields["target"].Str? && ParseCoordTarget(text, leg.fields["target"].s) == Some(p)
  }

  predicate FlagsSmooth(leg: Json) {
    leg.Obj? && "smooth" in leg.fields && leg.fields["smooth"] == Bool(true)
  }

  /** A drive leg as it is written, with an arrival radius if the route is smooth. */
  predicate WrittenDrive(text: CoordText, leg: Json, p: Vec3, smooth: bool) {
    leg == Obj(if smooth then map["kind" := Str("drive_to"), "target" := Str(FormatPoint(text, p)),
                                  "radius" := Num(FloatNum(Dec(15, -1)))]
               else map["kind" := Str("drive_to"), "target" := Str(FormatPoint(text, p))])
  }

  lemma {:induction false} ControlsAreLegs(text: CoordText, legs: seq<Json>)
    requires Controls(text, legs).Some?
    ensures var ctrl := Controls(text, legs).value;
      && Waits(Dwells(ctrl)) == AskedWaits(legs)
      && forall i :: 0 <= i < |legs| ==> DrivesTo(text, legs[i], ctrl[i].at)
  {
    hide ParseCoordTarget, AsksFor, DrivesTo;
    if legs != [] {
      var n := |legs| - 1;
      var ctrl, last := Controls(text, legs).value, ControlOf(text, legs[n]).value;
      ControlsAreLegs(text, legs[..n]);
      ControlIsLeg(text, legs[n]);
      assert Dwells(ctrl)[..n] == Dwells(ctrl[..n]) && ctrl[..n] == Controls(text, legs[..n]).value;
    }
  }

  lemma ControlIsLeg(text: CoordText, leg: Json)
    requires ControlOf(text, leg).Some?
    ensures DrivesTo(text, leg, ControlOf(text, leg).value.at)
    ensures forall seconds: Decimal :: AsksFor(leg, seconds) <==> ControlOf(text, leg).value.dwell == Some(seconds)
  {
    hide ParseCoordTarget;
  }

  /** What any route of coordinate legs becomes: each positive dwell is one wait, in order; a smooth route of three
      legs or more drives the Catmull-Rom path at spacing two, with an arrival radius of one and a half, and any
      other one drives the points it names. */
  lemma ExpandedAsAsked(text: CoordText, length: Length, legs: seq<Json>, closed: bool, points: seq<Vec3>)
    requires legs != [] && |points| == |legs| && forall i :: 0 <= i < |legs| ==> DrivesTo(text, legs[i], points[i])
    ensures ExpandedLegs(text, length, legs, closed).Some?
    ensures var out := ExpandedLegs(text, length, legs, closed).value;
      var smooth := |legs| >= 3 && exists i :: 0 <= i < |legs| && FlagsSmooth(legs[i]);
      var path, drives := if smooth then CatmullRomPath(length, points, closed, 2.0) else points, Only(out, "drive_to");
      && Only(out, "wait") == AskedWaits(legs)
      && |drives| == |path| && forall j :: 0 <= j < |path| ==> WrittenDrive(text, drives[j], path[j], smooth)
  {
    hide DrivesTo, CatmullRomPath, SmoothLegs, StraightLegs, Only, AskedWaits, Waits, FlagsSmooth, IsSmooth;
    LegsAreControls(text, legs, points);
    ControlsAreLegs(text, legs);
    var ctrl := Controls(text, legs).value;
    assert Positions(ctrl) == points;
    forall i | 0 <= i < |legs| ensures FlagsSmooth(legs[i]) <==> IsSmooth(legs[i]) {
      FlagIs(legs[i]);
    }
    if AnySmooth(legs) && |legs| >= 3 {
      SmoothTargets(text, length, ctrl, closed);
      SmoothWaits(text, length, ctrl, closed);
    } else {
      StraightTakenApart(text, ctrl);
    }
  }

  lemma FlagIs(leg: Json)
    ensures FlagsSmooth(leg) <==> IsSmooth(leg)
  {
  }

  lemma {:induction false} LegsAreControls(text: CoordText, legs: seq<Json>, points: seq<Vec3>)
    requires |points| == |legs| && forall i :: 0 <= i < |legs| ==> DrivesTo(text, legs[i], points[i])
    ensures Controls(text, legs).Some? && forall i :: 0 <= i < |legs| ==> Controls(text, legs).value[i].at == points[i]
  {
    hide ParseCoordTarget, DwellOf;
    if legs != [] {
      var n := |legs| - 1;
      LegsAreControls(text, legs[..n], points[..n]);
      assert DrivesTo(text, legs[n], points[n]);
    }
  }
}
