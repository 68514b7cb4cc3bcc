/** One frame of one vessel, from its behaviour XML to its pilot: strip, expand, bake, read, install. */
module RouteFrame {
  import opened Wrappers
  import opened Json
  import opened RouteCurve
  import opened RouteExpansion
  import opened RouteBaking
  import Compiler = RouteCompiler

  /** What a frame sees: how coordinates are written, how long a chord is, which targets the vessel has
      reached, where prims are, and which trees are specs. */
  datatype Scene = Scene(
    text: CoordText,
    length: Length,
    reached: string -> bool,
    places: Places,
    readSpec: Json -> Option<Compiler.Spec>)

  /** The tree that is baked: reached legs gone, the editor's route made of real legs. */
  function Prepared(scene: Scene, tree: Json): Json {
    ExpandRoute(scene.text, scene.length, Compiler.Strip(tree, scene.reached))
  }

  ghost function Derive(scene: Scene, imported: Result<Json, string>): Compiler.Derivation {
    match imported
    case Err(_) => Compiler.InvalidXml
    case Ok(tree) =>
      if Dangling(scene.places, Prepared(scene, tree)) then Compiler.Derivation.Dangling
      else
        match scene.readSpec(Bake(scene.text, scene.places, Prepared(scene, tree)))
        case Some(spec) => Compiler.Derived(spec)
        case None => Compiler.InvalidSpec
  }

  /** The body of the source's loop over the vessels. */
  method CompileVessel(scene: Scene, imported: Result<Json, string>, vessel: Compiler.VesselState)
    modifies vessel
    ensures vessel.Value() == Compiler.Frame(old(vessel.Value()), Derive(scene, imported))
  {
    if imported.Err? {
      vessel.Compile(Compiler.InvalidXml);
      return;
    }
    var expanded := ExpandEditorRoute(scene.text, scene.length, Compiler.Strip(imported.value, scene.reached));
    var baked, missing := BakeTargets(scene.text, scene.places, expanded);
    if missing != [] {
      vessel.Compile(Compiler.Derivation.Dangling);
      return;
    }
    var spec := scene.readSpec(baked);
    vessel.Compile(if spec.Some? then Compiler.Derived(spec.value) else Compiler.InvalidSpec);
  }

  /** What a frame derives is read from a tree that holds no reached leg's target and names no prim. */
  lemma DerivedFromPositions(scene: Scene, tree: Json)
    requires Derive(scene, Ok(tree)).Derived?
    ensures Compiler.NoneReached(Compiler.Strip(tree, scene.reached), scene.reached)
    ensures var baked := Bake(scene.text, scene.places, Prepared(scene, tree));
      !NamesPrim(baked) && scene.readSpec(baked) == Some(Derive(scene, Ok(tree)).spec)
  {
    Compiler.StripLeavesNoneReached(tree, scene.reached);
    NamesPrimIff(scene.text, scene.places, Prepared(scene, tree));
  }

  // ----- A smooth route, all the way -----

  /** A sequence whose legs that are not yet reached are coordinate legs, three or more, some of them smooth. */
  ghost predicate SmoothSequence(scene: Scene, node: Json, ctrl: seq<Control>) {
    && IsKind(node, "sequence") && "children" in node.fields && node.fields["children"].Arr?
    && var left := Compiler.StripAll(node.fields["children"].items, scene.reached, true);
       Controls(scene.text, left) == Some(ctrl) && AnySmooth(left) && |ctrl| >= 3
  }

  lemma StrippedSequence(scene: Scene, node: Json, ctrl: seq<Control>, closed: bool)
    requires SmoothSequence(scene, node, ctrl)
    ensures var stripped := Compiler.Strip(node, scene.reached);
      && IsKind(stripped, "sequence")
      && ExpandSequence(scene.text, scene.length, stripped, closed)
         == Obj(stripped.fields["children" := Arr(SmoothLegs(scene.text, scene.length, ctrl, closed))])
  {
    hide SmoothLegs, Controls, AnySmooth, Compiler.StripAll;
    var stripped := Compiler.Strip(node, scene.reached);
    KindStays(scene, node);
    assert "kind" != "children" by { assert |"kind"| != |"children"|; }
  }

  /** The legs of the tree that a frame bakes: of a sequence at the top, or of one directly below. */
  function LegsOf(tree: Json, closed: bool): Option<seq<Json>> {
    match if closed then Field(tree, "child") else Some(tree)
    case Some(Obj(m)) => GetArr(m, "children")
    case _ => None
  }

  /** A smooth sequence at the top, or, for a patrol, directly below a `forever`. */
  ghost predicate SmoothRoute(scene: Scene, tree: Json, ctrl: seq<Control>, closed: bool) {
    if closed then
      IsKind(tree, "forever") && Field(tree, "child").Some? && SmoothSequence(scene, Field(tree, "child").value, ctrl)
    else SmoothSequence(scene, tree, ctrl)
  }

  lemma PreparedRoute(scene: Scene, tree: Json, ctrl: seq<Control>, closed: bool)
    requires SmoothRoute(scene, tree, ctrl, closed)
    ensures LegsOf(Prepared(scene, tree), closed) == Some(SmoothLegs(scene.text, scene.length, ctrl, closed))
  {
    hide SmoothLegs, SmoothSequence, ExpandSequence;
    assert |"forever"| != |"sequence"| && |"kind"| != |"child"|;
    if closed {
      var child := Field(tree, "child").value;
      StrippedSequence(scene, child, ctrl, true);
      var stripped := Compiler.Strip(tree, scene.reached);
      assert |"child"| != |"children"|;
      assert stripped.fields["kind"] == tree.fields["kind"] by { KindStays(scene, tree); }
      assert stripped.fields["child"] == Compiler.Strip(child, scene.reached);
      assert IsKind(stripped, "forever") && !IsKind(stripped, "sequence");
    } else {
      StrippedSequence(scene, tree, ctrl, false);
      assert !IsKind(Compiler.Strip(tree, scene.reached), "forever");
    }
  }

  lemma KindStays(scene: Scene, tree: Json)
    requires Field(tree, "kind").Some? && Field(tree, "kind").value.Str?
    ensures Field(Compiler.Strip(tree, scene.reached), "kind") == Field(tree, "kind")
  {
    assert |"kind"| != |"children"|;
  }

  lemma BakedLegs(scene: Scene, tree: Json, closed: bool)
    requires LegsOf(tree, closed).Some?
    ensures var legs := LegsOf(tree, closed).value;
      LegsOf(Bake(scene.text, scene.places, tree), closed)
      == Some(seq(|legs|, i requires 0 <= i < |legs| => Bake(scene.text, scene.places, legs[i])))
  {
    assert |"child"| != |"target"| && |"children"| != |"target"|;
    hide Resolved;
    if closed {
      var child := Field(tree, "child").value;
      assert Field(Bake(scene.text, scene.places, tree), "child") == Some(Bake(scene.text, scene.places, child));
      ChildrenBaked(scene, child);
    } else {
      ChildrenBaked(scene, tree);
    }
  }

  lemma ChildrenBaked(scene: Scene, node: Json)
    requires node.Obj? && GetArr(node.fields, "children").Some?
    ensures var legs := GetArr(node.fields, "children").value;
      && Bake(scene.text, scene.places, node).Obj?
      && GetArr(Bake(scene.text, scene.places, node).fields, "children")
         == Some(seq(|legs|, i requires 0 <= i < |legs| => Bake(scene.text, scene.places, legs[i])))
  {
    hide Resolved;
    assert |"children"| != |"target"|;
    assert Bake(scene.text, scene.places, node).fields["children"] == Bake(scene.text, scene.places, node.fields["children"]);
  }

  /** From the XML to the positions: what a frame derives for a smooth route, open or patrolled, is read from
      a tree whose legs are the baked smooth legs of the control points that are not yet reached, and the
      positions it drives to are, in order, the Catmull-Rom path through them. */
  lemma FrameDrivesTheUnreachedPath(scene: Scene, tree: Json, ctrl: seq<Control>, closed: bool)
    requires SmoothRoute(scene, tree, ctrl, closed)
    requires forall i :: 0 <= i < |CatmullRomPath(scene.length, Positions(ctrl), closed, SMOOTH_SPACING)| ==>
               Readable(scene.text, CatmullRomPath(scene.length, Positions(ctrl), closed, SMOOTH_SPACING)[i])
    ensures var path := CatmullRomPath(scene.length, Positions(ctrl), closed, SMOOTH_SPACING);
      var legs := SmoothLegs(scene.text, scene.length, ctrl, closed);
      var drives := Only(legs, "drive_to");
      && LegsOf(Bake(scene.text, scene.places, Prepared(scene, tree)), closed)
         == Some(seq(|legs|, i requires 0 <= i < |legs| => Bake(scene.text, scene.places, legs[i])))
      && |drives| == |path|
      && forall i :: 0 <= i < |path| ==>
           Field(Bake(scene.text, scene.places, drives[i]), "target") == Some(Point(scene.places, path[i]))
  {
    assert |ctrl| >= 3;
    hide SmoothLegs, SmoothSequence, Prepared, Bake, LegsOf, CatmullRomPath, Only, Readable;
    PreparedRoute(scene, tree, ctrl, closed);
    BakedLegs(scene, Prepared(scene, tree), closed);
    SmoothRouteDrivesThePath(scene.text, scene.places, scene.length, ctrl, closed);
  }
}
