/** `bake_targets`: the targets of a behaviour tree become positions, or the tree is held back. */
module RouteBaking {
  import opened Wrappers
  import opened Json
  import opened RouteCurve
  import opened RouteExpansion
  import opened Text

  /** Where the prim a path names is now, if it is bound to a live entity; and how a position is written. */
  datatype Places = Places(position: string -> Option<Vec3>, number: real -> Number)

  predicate IsPath(v: Json) {
    v.Str? && v.s != [] && v.s[0] == '/'
  }

  function Point(places: Places, p: Vec3): Json {
    Arr([Num(places.number(p.x)), Num(places.number(p.y)), Num(places.number(p.z))])
  }

  /** What a target stands for: a prim's position, or the coordinates it spells. */
  function Resolved(text: CoordText, places: Places, target: Json): Option<Json> {
    if !target.Str? then None
    else
      match if IsPath(target) then places.position(target.s) else ParseCoordTarget(text, target.s)
      case Some(p) => Some(Point(places, p))
      case None => None
  }

  function Bake(text: CoordText, places: Places, v: Json): Json {
    match v
    case Obj(m) =>
      Obj(map k | k in m ::
        if k == "target" && Resolved(text, places, m[k]).Some? then Resolved(text, places, m[k]).value
        else Bake(text, places, m[k]))
    case Arr(items) => Arr(seq(|items|, i requires 0 <= i < |items| => Bake(text, places, items[i])))
    case _ => v
  }

  /** Some node at some depth has a prim path as its target that stands for nothing. */
  ghost predicate Dangling(places: Places, v: Json) {
    match v
    case Obj(m) =>
      || ("target" in m && IsPath(m["target"]) && places.position(m["target"].s).None?)
      || exists k :: k in m && Dangling(places, m[k])
    case Arr(items) => exists i :: 0 <= i < |items| && Dangling(places, items[i])
    case _ => false
  }

  /** Some node at some depth still has a prim path as its target. */
  ghost predicate NamesPrim(v: Json) {
    match v
    case Obj(m) =>
      || ("target" in m && IsPath(m["target"]))
      || exists k :: k in m && NamesPrim(m[k])
    case Arr(items) => exists i :: 0 <= i < |items| && NamesPrim(items[i])
    case _ => false
  }

  /** The walk: each object's target first, then everything below. */
  method BakeTargets(text: CoordText, places: Places, v: Json) returns (out: Json, missing: seq<string>)
    ensures out == Bake(text, places, v)
    ensures missing != [] <==> Dangling(places, v)
    decreases v, 1
  {
    missing := [];
    match v
    case Obj(m) =>
      out, missing := BakeObject(text, places, m);
    case Arr(items) =>
      out, missing := BakeItems(text, places, items);
    case _ =>
      out := v;
  }

  method BakeObject(text: CoordText, places: Places, m: map<string, Json>) returns (out: Json, missing: seq<string>)
    ensures out == Bake(text, places, Obj(m))
    ensures missing != [] <==> Dangling(places, Obj(m))
    decreases Obj(m), 0
  {
    hide Bake, Dangling, Resolved, IsPath;
    missing := [];
    var now := m;
    var baked := "target" in m && Resolved(text, places, m["target"]).Some?;
    if baked {
      PointIsInert(text, places, m["target"]);
      now := now["target" := Resolved(text, places, m["target"]).value];
    } else if "target" in m && IsPath(m["target"]) {
      UnresolvedPath(text, places, m["target"]);
      missing := [m["target"].s];
    }
    var todo := if baked then m.Keys - {"target"} else m.Keys;
    ghost var below := false;
    while todo != {}
      invariant now.Keys == m.Keys && todo <= m.Keys && (baked ==> "target" !in todo)
      invariant baked ==> now["target"] == Resolved(text, places, m["target"]).value
      invariant forall k :: k in m && !(baked && k == "target") ==>
        now[k] == if k in todo then m[k] else Bake(text, places, m[k])
      invariant below <==> exists k :: k in m && k !in todo && Dangling(places, m[k])
      invariant missing != [] <==> below || (!baked && "target" in m && IsPath(m["target"]))
      decreases |todo|
    {
      var k :| k in todo;
      assert m[k] < Obj(m);
      var child, lost := BakeTargets(text, places, m[k]);
      now, missing, todo := now[k := child], missing + lost, todo - {k};
      below := below || Dangling(places, m[k]);
    }
    out := Obj(now);
    ObjectBaked(text, places, m, now);
  }

  lemma ObjectBaked(text: CoordText, places: Places, m: map<string, Json>, now: map<string, Json>)
    requires now.Keys == m.Keys
    requires var baked := "target" in m && Resolved(text, places, m["target"]).Some?;
      && (baked ==> now["target"] == Resolved(text, places, m["target"]).value)
      && forall k :: k in m && !(baked && k == "target") ==> now[k] == Bake(text, places, m[k])
    ensures Bake(text, places, Obj(m)) == Obj(now)
    ensures Dangling(places, Obj(m)) <==>
            || (exists k :: k in m && Dangling(places, m[k]))
            || (!("target" in m && Resolved(text, places, m["target"]).Some?) && "target" in m && IsPath(m["target"]))
  {
    assert Bake(text, places, Obj(m)).fields == now;
  }

  /** A path that resolves to nothing is missing; one that resolves stands for a prim. */
  lemma UnresolvedPath(text: CoordText, places: Places, target: Json)
    requires IsPath(target)
    ensures Resolved(text, places, target).None? <==> places.position(target.s).None?
    ensures target.Str?
  {
  }

  /** What a target is replaced by holds nothing to bake and names nothing. */
  lemma PointIsInert(text: CoordText, places: Places, target: Json)
    requires Resolved(text, places, target).Some?
    ensures var out := Resolved(text, places, target).value;
      Bake(text, places, out) == out && !NamesPrim(out) && !IsPath(out) && Resolved(text, places, out).None?
    ensures !Dangling(places, target)
  {
    var out := Resolved(text, places, target).value;
    assert Bake(text, places, out).items == out.items;
  }

  method BakeItems(text: CoordText, places: Places, items: seq<Json>) returns (out: Json, missing: seq<string>)
    ensures out == Bake(text, places, Arr(items))
    ensures missing != [] <==> Dangling(places, Arr(items))
    decreases Arr(items), 0
  {
    missing := [];
    var now := items;
    for i := 0 to |items|
      invariant |now| == |items|
      invariant forall j :: 0 <= j < |items| ==> now[j] == if j < i then Bake(text, places, items[j]) else items[j]
      invariant missing != [] <==> exists j :: 0 <= j < i && Dangling(places, items[j])
    {
      var child, lost := BakeTargets(text, places, items[i]);
      now, missing := now[i := child], missing + lost;
    }
    out := Arr(now);
    assert Bake(text, places, Arr(items)).items == now;
  }

  /** A baked tree names a prim exactly when one of its paths dangles: no tree that is let through drives
      to a name. */
  lemma {:induction false} NamesPrimIff(text: CoordText, places: Places, v: Json)
    ensures NamesPrim(Bake(text, places, v)) <==> Dangling(places, v)
    decreases v
  {
    match v
    case Obj(m) =>
      var out := Bake(text, places, v).fields;
      forall k | k in m
        ensures NamesPrim(out[k]) <==> Dangling(places, m[k])
        ensures k == "target" ==> (IsPath(out[k]) <==> IsPath(m[k]) && places.position(m[k].s).None?)
      {
        if k == "target" && Resolved(text, places, m[k]).Some? {
          PointIsInert(text, places, m[k]);
        } else {
          NamesPrimIff(text, places, m[k]);
        }
      }
      assert Bake(text, places, v) == Obj(out);
    case Arr(items) =>
      var out := Bake(text, places, v).items;
      forall i | 0 <= i < |items| ensures NamesPrim(out[i]) <==> Dangling(places, items[i]) {
        NamesPrimIff(text, places, items[i]);
      }
      assert Bake(text, places, v) == Arr(out);
    case _ =>
  }

  /** Baking a baked tree changes nothing. */
  lemma {:induction false} BakeTwice(text: CoordText, places: Places, v: Json)
    ensures Bake(text, places, Bake(text, places, v)) == Bake(text, places, v)
    decreases v
  {
    match v
    case Obj(m) =>
      var out := Bake(text, places, v).fields;
      forall k | k in m ensures Bake(text, places, Obj(out)).fields[k] == out[k] {
        if k == "target" && Resolved(text, places, m[k]).Some? {
          PointIsInert(text, places, m[k]);
        } else {
          BakeTwice(text, places, m[k]);
          assert k == "target" ==> Resolved(text, places, out[k]).None? by {
            assert m[k].Str? ==> out[k] == m[k];
          }
        }
      }
      assert Bake(text, places, Obj(out)).fields == out;
    case Arr(items) =>
      var out := Bake(text, places, v).items;
      forall i | 0 <= i < |items| ensures Bake(text, places, out[i]) == out[i] {
        BakeTwice(text, places, items[i]);
      }
      assert Bake(text, places, Arr(out)).items == out;
    case _ =>
  }

  /** The position a target stands for: a bound prim's, or the one its text spells. */
  ghost predicate StandsFor(text: CoordText, places: Places, target: Json, p: Vec3) {
    target.Str? &&
    if target.s != "" && target.s[0] == '/' then places.position(target.s) == Some(p) else Spells(text, target.s, p)
  }

  /** Every target that stands for a position becomes that position, as an array of three numbers, at every depth;
      every other field, item and scalar stays. The equations determine the result. */
  lemma BakedTargets(text: CoordText, places: Places, v: Json)
    ensures match v
      case Obj(m) =>
        && Bake(text, places, v).Obj? && Bake(text, places, v).fields.Keys == m.Keys
        && (forall p :: "target" in m && StandsFor(text, places, m["target"], p) ==>
              Bake(text, places, v).fields["target"] ==
                Arr([Num(places.number(p.x)), Num(places.number(p.y)), Num(places.number(p.z))]))
        && (forall k :: k in m && !(k == "target" && exists p :: StandsFor(text, places, m[k], p)) ==>
              Bake(text, places, v).fields[k] == Bake(text, places, m[k]))
      case Arr(items) =>
        && Bake(text, places, v).Arr? && |Bake(text, places, v).items| == |items|
        && forall i :: 0 <= i < |items| ==> Bake(text, places, v).items[i] == Bake(text, places, items[i])
      case _ => Bake(text, places, v) == v
  {
    if v.Obj? {
      var m := v.fields;
      if "target" in m {
        ResolvedIff(text, places, m["target"]);
      }
    }
  }

  lemma ResolvedIff(text: CoordText, places: Places, target: Json)
    ensures forall p :: StandsFor(text, places, target, p) ==> Resolved(text, places, target) == Some(Point(places, p))
    ensures Resolved(text, places, target).Some? ==> exists p :: StandsFor(text, places, target, p)
  {
    hide ParseCoordTarget, Spells;
    if target.Str? {
      forall p ensures ParseCoordTarget(text, target.s) == Some(p) <==> Spells(text, target.s, p) {
        CoordTargetIff(text, target.s, p);
      }
      if Resolved(text, places, target).Some? {
        var p := if IsPath(target) then places.position(target.s).value else ParseCoordTarget(text, target.s).value;
        assert StandsFor(text, places, target, p);
      }
    }
  }

  // ----- A route, from its control points to the positions it drives to -----

  /** A position whose coordinates can be read back from how they are written. */
  ghost predicate Readable(text: CoordText, p: Vec3) {
    && text.read(text.show(p.x)) == Some(p.x)
    && text.read(text.show(p.y)) == Some(p.y)
    && text.read(text.show(p.z)) == Some(p.z)
    && ';' !in text.show(p.x) && ';' !in text.show(p.y) && ';' !in text.show(p.z)
    && (text.show(p.x) != [] ==> text.show(p.x)[0] != '/') && text.show(p.x) != []
  }

  lemma FormatReads(text: CoordText, p: Vec3)
    requires Readable(text, p)
    ensures ParseCoordTarget(text, FormatPoint(text, p)) == Some(p)
    ensures FormatPoint(text, p)[0] == text.show(p.x)[0]
  {
    var x, y, z := text.show(p.x), text.show(p.y), text.show(p.z);
    SplitWithout(z, ';');
    SplitAt(y, ';', z);
    SplitAt(x, ';', y + [';'] + z);
    assert FormatPoint(text, p) == x + [';'] + (y + [';'] + z);
    assert Split(FormatPoint(text, p), ';') == [x, y, z];
  }

  /** A drive written for a position is baked to that very position. */
  lemma DriveIsBaked(text: CoordText, places: Places, p: Vec3, smooth: bool)
    requires Readable(text, p)
    ensures var baked := Bake(text, places, Drive(text, p, smooth));
      Field(baked, "target") == Some(Point(places, p)) && IsKind(baked, "drive_to")
  {
    FormatReads(text, p);
    var leg := Drive(text, p, smooth);
    assert leg.fields["target"] == Str(FormatPoint(text, p));
    assert leg.fields["kind"] == Str("drive_to") && "kind" != "target" by { assert |"kind"| != |"target"|; }
  }

  /** The baked legs of a smooth route of three or more control points drive, in order, to the points of
      its Catmull-Rom path. */
  lemma SmoothRouteDrivesThePath(text: CoordText, places: Places, length: Length, ctrl: seq<Control>, closed: bool)
    requires |ctrl| >= 3
    requires forall i :: 0 <= i < |CatmullRomPath(length, Positions(ctrl), closed, SMOOTH_SPACING)| ==>
               Readable(text, CatmullRomPath(length, Positions(ctrl), closed, SMOOTH_SPACING)[i])
    ensures var path := CatmullRomPath(length, Positions(ctrl), closed, SMOOTH_SPACING);
      var drives := Only(SmoothLegs(text, length, ctrl, closed), "drive_to");
      |drives| == |path|
      && forall i :: 0 <= i < |path| ==> Field(Bake(text, places, drives[i]), "target") == Some(Point(places, path[i]))
  {
    hide CatmullRomPath, SmoothLegs, Only, Bake, Drive, Readable;
    SmoothTargets(text, length, ctrl, closed);
    var path := CatmullRomPath(length, Positions(ctrl), closed, SMOOTH_SPACING);
    forall i | 0 <= i < |path| ensures Field(Bake(text, places, Drives(text, path)[i]), "target") == Some(Point(places, path[i])) {
      DriveIsBaked(text, places, path[i], true);
    }
  }
}
