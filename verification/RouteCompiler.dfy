/** `strip_reached_legs` and `compile_behavior_xml`: which legs a vessel still has to drive, and when
    its running tree is kept, resumed or rebuilt. */
module RouteCompiler {
  import opened Wrappers
  import opened Json

  // ----- Reached legs -----

  /** A leg whose target the vessel has reached; `reached` says so of a target text. */
  predicate LegReached(leg: Json, reached: string -> bool) {
    match Field(leg, "target")
    case Some(Str(t)) => reached(t)
    case _ => false
  }

  /** `strip_reached_legs`: children of any node that are reached legs are dropped, at every depth. */
  function Strip(v: Json, reached: string -> bool): Json {
    match v
    case Obj(m) => Obj(map k | k in m ::
      if k == "children" && m[k].Arr? then Arr(StripAll(m[k].items, reached, true)) else Strip(m[k], reached))
    case Arr(items) => Arr(StripAll(items, reached, false))
    case _ => v
  }

  function StripAll(items: seq<Json>, reached: string -> bool, legs: bool): seq<Json> {
    if items == [] then []
    else if legs && LegReached(items[0], reached) then StripAll(items[1..], reached, legs)
    else [Strip(items[0], reached)] + StripAll(items[1..], reached, legs)
  }

  /** No node at any depth has a reached leg among its children. */
  ghost predicate NoneReached(v: Json, reached: string -> bool) {
    match v
    case Obj(m) =>
      && ("children" in m && m["children"].Arr? ==>
            forall i :: 0 <= i < |m["children"].items| ==> !LegReached(m["children"].items[i], reached))
      && forall k :: k in m ==> NoneReached(m[k], reached)
    case Arr(items) => forall i :: 0 <= i < |items| ==> NoneReached(items[i], reached)
    case _ => true
  }

  lemma StripKeepsTarget(v: Json, reached: string -> bool)
    ensures LegReached(Strip(v, reached), reached) == LegReached(v, reached)
  {
  }

  /** Every value is clean and, where they are legs, none is reached. */
  ghost predicate AllClean(items: seq<Json>, reached: string -> bool, legs: bool) {
    forall i :: 0 <= i < |items| ==> NoneReached(items[i], reached) && (legs ==> !LegReached(items[i], reached))
  }

  lemma AllCleanCons(first: Json, rest: seq<Json>, reached: string -> bool, legs: bool)
    requires NoneReached(first, reached) && (legs ==> !LegReached(first, reached)) && AllClean(rest, reached, legs)
    ensures AllClean([first] + rest, reached, legs)
  {
    hide NoneReached, LegReached;
  }

  lemma {:induction false} StripLeavesNoneReached(v: Json, reached: string -> bool)
    ensures NoneReached(Strip(v, reached), reached)
    decreases v
  {
    hide LegReached;
    match v
    case Obj(m) =>
      var out := Strip(v, reached).fields;
      if "children" in m && m["children"].Arr? {
        StripAllLeavesNone(v, m["children"].items, reached, true);
        assert out["children"] == Arr(StripAll(m["children"].items, reached, true));
      }
      forall k | k in out ensures NoneReached(out[k], reached) {
        if k == "children" && m[k].Arr? {
          CleanArray(StripAll(m[k].items, reached, true), reached, true);
        } else {
          StripLeavesNoneReached(m[k], reached);
          assert out[k] == Strip(m[k], reached);
        }
      }
      CleanObject(out, reached);
      assert Strip(v, reached) == Obj(out);
    case Arr(items) =>
      StripAllLeavesNone(v, items, reached, false);
      CleanArray(StripAll(items, reached, false), reached, false);
      assert Strip(v, reached) == Arr(StripAll(items, reached, false));
    case _ =>
  }

  lemma CleanObject(m: map<string, Json>, reached: string -> bool)
    requires "children" in m && m["children"].Arr? ==> AllClean(m["children"].items, reached, true)
    requires forall k :: k in m ==> NoneReached(m[k], reached)
    ensures NoneReached(Obj(m), reached)
  {
    hide LegReached;
    assert NoneReached(Obj(m), reached) by {
      if "children" in m && m["children"].Arr? {
        forall i: nat | i < |m["children"].items| ensures !LegReached(m["children"].items[i], reached) {
        }
      }
    }
  }

  lemma CleanArray(items: seq<Json>, reached: string -> bool, legs: bool)
    requires AllClean(items, reached, legs)
    ensures NoneReached(Arr(items), reached)
  {
  }

  lemma {:induction false} StripAllLeavesNone(parent: Json, items: seq<Json>, reached: string -> bool, legs: bool)
    requires forall c :: c in items ==> c < parent
    ensures AllClean(StripAll(items, reached, legs), reached, legs)
    decreases parent, |items|
  {
    hide LegReached, NoneReached, Strip;
    if items != [] {
      assert items[0] in items && forall c :: c in items[1..] ==> c in items;
      StripAllLeavesNone(parent, items[1..], reached, legs);
      if !(legs && LegReached(items[0], reached)) {
        StripLeavesNoneReached(items[0], reached);
        StripKeepsTarget(items[0], reached);
        AllCleanCons(Strip(items[0], reached), StripAll(items[1..], reached, legs), reached, legs);
      }
    }
  }

  lemma {:induction false} StripKeepsClean(v: Json, reached: string -> bool)
    requires NoneReached(v, reached)
    ensures Strip(v, reached) == v
    decreases v
  {
    match v
    case Obj(m) =>
      var out := Strip(v, reached).fields;
      forall k | k in m ensures out[k] == m[k] {
        assert NoneReached(m[k], reached);
        if k == "children" && m[k].Arr? {
          StripAllKeepsClean(v, m[k].items, reached, true);
        } else {
          StripKeepsClean(m[k], reached);
        }
      }
      assert out == m;
    case Arr(items) =>
      StripAllKeepsClean(v, items, reached, false);
    case _ =>
  }

  lemma {:induction false} StripAllKeepsClean(parent: Json, items: seq<Json>, reached: string -> bool, legs: bool)
    requires forall c :: c in items ==> c < parent
    requires forall i :: 0 <= i < |items| ==> NoneReached(items[i], reached)
    requires legs ==> forall i :: 0 <= i < |items| ==> !LegReached(items[i], reached)
    ensures StripAll(items, reached, legs) == items
    decreases parent, |items|
  {
    if items != [] {
      assert items[0] in items && forall c :: c in items[1..] ==> c in items;
      StripKeepsClean(items[0], reached);
      StripAllKeepsClean(parent, items[1..], reached, legs);
    }
  }

  /** A tree is left alone exactly when it holds no reached leg, so stripping twice is stripping once. */
  lemma StripIdleIff(v: Json, reached: string -> bool)
    ensures Strip(v, reached) == v <==> NoneReached(v, reached)
    ensures Strip(Strip(v, reached), reached) == Strip(v, reached)
  {
    StripLeavesNoneReached(v, reached);
    StripKeepsClean(Strip(v, reached), reached);
    if NoneReached(v, reached) {
      StripKeepsClean(v, reached);
    }
  }

  /** A leg names this target. */
  predicate Names(leg: Json, target: string) {
    leg.Obj? && "target" in leg.fields && leg.fields["target"] == Str(target)
  }

  ghost predicate NamesReached(leg: Json, reached: string -> bool) {
    exists t :: Names(leg, t) && reached(t)
  }

  /** `at` picks, in order, exactly the children that name no reached target. */
  ghost predicate PicksTheRest(before: seq<Json>, at: seq<nat>, reached: string -> bool) {
    && (forall i, j :: 0 <= i < j < |at| ==> at[i] < at[j])
    && (forall j :: 0 <= j < |at| ==> at[j] < |before|)
    && (forall i: nat :: i < |before| ==> (i in at <==> !NamesReached(before[i], reached)))
  }

  /** What is picked is kept, stripped in turn. */
  ghost predicate KeepsTheRest(before: seq<Json>, after: seq<Json>, at: seq<nat>, reached: string -> bool) {
    && PicksTheRest(before, at, reached)
    && |at| == |after|
    && forall j :: 0 <= j < |at| ==> after[j] == Strip(before[at[j]], reached)
  }

  /** Nothing but reached legs is dropped, nothing is reordered, and every field and scalar stays. The equations
      determine the result. */
  lemma StripKeepsTheRest(v: Json, reached: string -> bool)
    ensures match v
      case Obj(m) =>
        && Strip(v, reached).Obj? && Strip(v, reached).fields.Keys == m.Keys
        && (forall k :: k in m && !(k == "children" && m[k].Arr?) ==> Strip(v, reached).fields[k] == Strip(m[k], reached))
        && ("children" in m && m["children"].Arr? ==>
              && Strip(v, reached).fields["children"].Arr?
              && exists at :: KeepsTheRest(m["children"].items, Strip(v, reached).fields["children"].items, at, reached))
      case Arr(items) =>
        && Strip(v, reached).Arr? && |Strip(v, reached).items| == |items|
        && forall i :: 0 <= i < |items| ==> Strip(v, reached).items[i] == Strip(items[i], reached)
      case _ => Strip(v, reached) == v
  {
    match v
    case Obj(m) =>
      if "children" in m && m["children"].Arr? {
        var at := LegsKept(m["children"].items, reached);
      }
    case Arr(items) =>
      ElementsKept(items, reached);
    case _ =>
  }

  lemma {:induction false} LegsKept(items: seq<Json>, reached: string -> bool) returns (at: seq<nat>)
    ensures KeepsTheRest(items, StripAll(items, reached, true), at, reached)
    decreases |items|
  {
    at := [];
    if items != [] {
      var below := LegsKept(items[1..], reached);
      at := PicksOneMore(items, below, reached);
      StripAllCons(items, reached);
      var rest := StripAll(items[1..], reached, true);
      hide NamesReached, LegReached, Strip, StripAll;
      KeepsOneMore(items, rest, below, at, reached);
    }
  }

  lemma StripAllCons(items: seq<Json>, reached: string -> bool)
    requires items != []
    ensures StripAll(items, reached, true) ==
      (if NamesReached(items[0], reached) then [] else [Strip(items[0], reached)]) + StripAll(items[1..], reached, true)
  {
    LegReachedIff(items[0], reached);
  }

  lemma KeepsOneMore(items: seq<Json>, rest: seq<Json>, below: seq<nat>, at: seq<nat>, reached: string -> bool)
    requires items != [] && KeepsTheRest(items[1..], rest, below, reached) && PicksTheRest(items, at, reached)
    requires |at| == |below| + if NamesReached(items[0], reached) then 0 else 1
    requires forall j :: 0 <= j < |below| ==> at[|at| - |below| + j] == below[j] + 1
    requires |at| > |below| ==> at[0] == 0
    ensures KeepsTheRest(items, (if NamesReached(items[0], reached) then [] else [Strip(items[0], reached)]) + rest, at, reached)
  {
    hide NamesReached, Strip;
    var after := (if NamesReached(items[0], reached) then [] else [Strip(items[0], reached)]) + rest;
    forall j | 0 <= j < |at| ensures after[j] == Strip(items[at[j]], reached) {
      var k := j - (|at| - |below|);
      if k >= 0 {
        assert at[|at| - |below| + k] == below[k] + 1 && items[1..][below[k]] == items[at[j]];
      }
    }
  }

  lemma PicksOneMore(items: seq<Json>, below: seq<nat>, reached: string -> bool) returns (at: seq<nat>)
    requires items != [] && PicksTheRest(items[1..], below, reached)
    ensures PicksTheRest(items, at, reached)
    ensures |at| == |below| + if NamesReached(items[0], reached) then 0 else 1
    ensures forall j :: 0 <= j < |below| ==> at[|at| - |below| + j] == below[j] + 1
    ensures |at| > |below| ==> at[0] == 0
  {
    hide NamesReached;
    at := seq(|below|, j requires 0 <= j < |below| => below[j] + 1);
    ghost var shifted := at;
    if !NamesReached(items[0], reached) {
      at := [0] + at;
    }
    forall i: nat | i < |items| ensures i in at <==> !NamesReached(items[i], reached) {
      if i > 0 {
        ShiftedIn(below, shifted, i);
        assert items[1..][i - 1] == items[i];
        assert i in at <==> i in shifted;
      } else {
        assert 0 !in shifted;
      }
    }
  }

  lemma ShiftedIn(below: seq<nat>, shifted: seq<nat>, i: nat)
    requires |shifted| == |below| && i > 0
    requires forall j :: 0 <= j < |below| ==> shifted[j] == below[j] + 1
    ensures i in shifted <==> i - 1 in below
  {
    if i - 1 in below {
      var j :| 0 <= j < |below| && below[j] == i - 1;
      assert shifted[j] == i;
    }
  }

  lemma LegReachedIff(leg: Json, reached: string -> bool)
    ensures LegReached(leg, reached) <==> NamesReached(leg, reached)
  {
    if LegReached(leg, reached) {
      assert Names(leg, leg.fields["target"].s);
    }
  }

  lemma {:induction false} ElementsKept(items: seq<Json>, reached: string -> bool)
    ensures var out := StripAll(items, reached, false);
      |out| == |items| && forall i :: 0 <= i < |items| ==> out[i] == Strip(items[i], reached)
    decreases |items|
  {
    if items != [] {
      ElementsKept(items[1..], reached);
    }
  }

  // ----- Specs, trees, pilots -----

  datatype Spec = Sequence(children: seq<Spec>) | Forever(child: Spec) | Node(name: string) | Brake

  /** `spec_route_legs`. */
  function RouteLegs(spec: Spec): Option<seq<Spec>> {
    match spec
    case Sequence(legs) => Some(legs)
    case Forever(Sequence(legs)) => Some(legs)
    case _ => None
  }

  /** `legsspec_is_append_only`. */
  predicate AppendOnly(before: Spec, after: Spec) {
    match (RouteLegs(before), RouteLegs(after))
    case (Some(a), Some(b)) => |b| > |a| && a <= b
    case _ => false
  }

  datatype Exec = Running | Completed | Failed

  /** A running tree: what it was compiled from and, for a route, the leg it is on. */
  datatype Tree = Tree(spec: Spec, cursor: Option<nat>)

  /** The autopilot that drives the vessel; it may have no tree yet. */
  datatype Pilot = Pilot(tree: Option<Tree>, exec: Option<Exec>)

  function FreshTree(spec: Spec): Tree {
    Tree(spec, if RouteLegs(spec).Some? then Some(0) else None)
  }

  function ResumedTree(spec: Spec, cursor: Option<nat>): Tree {
    match cursor
    case Some(c) => if RouteLegs(spec).Some? then Tree(spec, Some(c)) else FreshTree(spec)
    case None => FreshTree(spec)
  }

  /** One vessel as `compile_behavior_xml` sees it: its memory of the last derivation, the spec it
      published, and the autopilot, if any. */
  datatype Vessel = Vessel(lastDerived: Option<Spec>, published: Option<Spec>, pilot: Option<Pilot>)

  /** What the XML, the reached legs and the prims derive to in one frame. */
  datatype Derivation = InvalidXml | Dangling | InvalidSpec | Derived(spec: Spec)

  function Rerouted(pilot: Pilot, previous: Option<Spec>, spec: Spec): Pilot {
    var changed := previous != Some(spec);
    if pilot.tree.Some? && changed && previous.Some? && AppendOnly(previous.value, spec) then
      var cursor := if pilot.exec == Some(Completed) then Some(|RouteLegs(previous.value).value|) else pilot.tree.value.cursor;
      Pilot(Some(ResumedTree(spec, cursor)), Some(Running))
    else if changed || pilot.tree.None? then
      Pilot(Some(FreshTree(spec)), Some(Running))
    else pilot
  }

  function Braked(pilot: Pilot): Pilot {
    if pilot.exec == Some(Failed) then pilot else Pilot(Some(FreshTree(Brake)), Some(Failed))
  }

  function Frame(v: Vessel, d: Derivation): Vessel {
    match d
    case InvalidXml => v
    case InvalidSpec => v
    case Dangling =>
      v.(lastDerived := None, pilot := match v.pilot case Some(p) => Some(Braked(p)) case None => None)
    case Derived(spec) =>
      Vessel(Some(spec), if v.lastDerived == Some(spec) then v.published else Some(spec),
             match v.pilot case Some(p) => Some(Rerouted(p, v.lastDerived, spec)) case None => None)
  }

  class VesselState {
    var lastDerived: Option<Spec>
    var published: Option<Spec>
    var pilot: Option<Pilot>

    function Value(): Vessel
      reads this
    {
      Vessel(lastDerived, published, pilot)
    }

    method Compile(d: Derivation)
      modifies this
      ensures Value() == Frame(old(Value()), d)
    {
      if d.InvalidXml? || d.InvalidSpec? {
        return;
      }
      if d.Dangling? {
        lastDerived := None;
        if pilot.Some? && pilot.value.exec != Some(Failed) {
          pilot := Some(Pilot(Some(FreshTree(Brake)), Some(Failed)));
        }
        return;
      }
      var previous := lastDerived;
      var changed := previous != Some(d.spec);
      if changed {
        lastDerived := Some(d.spec);
        published := Some(d.spec);
      }
      if pilot.Some? {
        var hasTree := pilot.value.tree.Some?;
        var append := hasTree && changed && previous.Some? && AppendOnly(previous.value, d.spec);
        if append {
          var cursor := if pilot.value.exec == Some(Completed) then Some(|RouteLegs(previous.value).value|)
                        else pilot.value.tree.value.cursor;
          pilot := Some(Pilot(Some(ResumedTree(d.spec, cursor)), Some(Running)));
        } else if changed || !hasTree {
          pilot := Some(Pilot(Some(FreshTree(d.spec)), Some(Running)));
        }
      }
    }
  }

  // ----- What one frame does to a running tree -----

  /** The running tree was compiled from the last derivation and is on one of its legs. */
  ghost predicate DrivesDerived(v: Vessel) {
    && v.pilot.Some? && v.pilot.value.tree.Some? && v.lastDerived.Some?
    && v.pilot.value.tree.value.spec == v.lastDerived.value
    && RouteLegs(v.lastDerived.value).Some?
    && v.pilot.value.tree.value.cursor.Some?
    && v.pilot.value.tree.value.cursor.value < |RouteLegs(v.lastDerived.value).value|
  }

  /** Where a new tree starts: a plain sequence and a repeated one at the first leg. */
  predicate Starts(tree: Tree, spec: Spec) {
    && tree.spec == spec
    && (tree.cursor == Some(0) <==> spec.Sequence? || (spec.Forever? && spec.child.Sequence?))
    && (tree.cursor == None <==> !(spec.Sequence? || (spec.Forever? && spec.child.Sequence?)))
  }

  /** The new spec is the same kind of route or the other kind, with legs added at the end and nothing else changed. */
  ghost predicate Extends(before: Spec, after: Spec) {
    exists legs: seq<Spec>, more: seq<Spec> ::
      && more != []
      && before in {Sequence(legs), Forever(Sequence(legs))}
      && after in {Sequence(legs + more), Forever(Sequence(legs + more))}
  }

  lemma AppendOnlyIff(before: Spec, after: Spec)
    ensures AppendOnly(before, after) <==> Extends(before, after)
  {
    if AppendOnly(before, after) {
      var a, b := RouteLegs(before).value, RouteLegs(after).value;
      assert b == a + b[|a|..];
      assert before in {Sequence(a), Forever(Sequence(a))} && after in {Sequence(a + b[|a|..]), Forever(Sequence(a + b[|a|..]))};
    }
    if Extends(before, after) {
      var legs: seq<Spec>, more: seq<Spec> :| more != []
        && before in {Sequence(legs), Forever(Sequence(legs))}
        && after in {Sequence(legs + more), Forever(Sequence(legs + more))};
      assert RouteLegs(before) == Some(legs) && RouteLegs(after) == Some(legs + more);
    }
  }

  /** Every other change of the derivation, and every engagement without a tree, starts a new running tree. */
  lemma ChangeStartsOver(v: Vessel, spec: Spec)
    requires v.pilot.Some?
    requires v.pilot.value.tree.None?
      || (v.lastDerived != Some(spec) && (v.lastDerived.None? || !Extends(v.lastDerived.value, spec)))
    ensures var after := Frame(v, Derived(spec)).pilot;
      after.Some? && after.value.exec == Some(Running) && after.value.tree.Some? && Starts(after.value.tree.value, spec)
  {
    if v.lastDerived.Some? {
      AppendOnlyIff(v.lastDerived.value, spec);
    }
  }

  /** The leg a tree is on. */
  function CurrentLeg(t: Tree): Option<Spec> {
    match (RouteLegs(t.spec), t.cursor)
    case (Some(legs), Some(c)) => if c < |legs| then Some(legs[c]) else None
    case _ => None
  }

  /** Appending legs keeps the pilot on the leg it was driving; after completion it continues with the
      first appended leg. */
  lemma AppendResumes(v: Vessel, spec: Spec)
    requires DrivesDerived(v) && AppendOnly(v.lastDerived.value, spec)
    ensures var after := Frame(v, Derived(spec)).pilot.value;
      && after.exec == Some(Running) && after.tree.Some? && after.tree.value.spec == spec
      && CurrentLeg(after.tree.value) ==
           if v.pilot.value.exec == Some(Completed)
           then Some(RouteLegs(spec).value[|RouteLegs(v.lastDerived.value).value|])
           else CurrentLeg(v.pilot.value.tree.value)
  {
    var a, b := RouteLegs(v.lastDerived.value).value, RouteLegs(spec).value;
    assert |a| < |b| && forall i :: 0 <= i < |a| ==> a[i] == b[i];
  }

  /** What an append does to any tree on a route, whoever installed it. Before completion it resumes by the
      number of the leg: the vessel stays on the leg it was driving exactly when the new route has that very
      leg under that number, which for the legs of the last derivation says that the tree agreed with it
      there. After completion it goes on with the first appended leg in any case. */
  lemma AppendKeepsLegIff(v: Vessel, spec: Spec)
    requires v.pilot.Some? && v.pilot.value.tree.Some? && v.lastDerived.Some?
    requires CurrentLeg(v.pilot.value.tree.value).Some? && AppendOnly(v.lastDerived.value, spec)
    ensures var tree := v.pilot.value.tree.value;
      var last, own, legs := RouteLegs(v.lastDerived.value).value, RouteLegs(tree.spec).value, RouteLegs(spec).value;
      var c, after := tree.cursor.value, Frame(v, Derived(spec)).pilot.value.tree.value;
      if v.pilot.value.exec == Some(Completed) then CurrentLeg(after) == Some(legs[|last|])
      else
        && (CurrentLeg(after) == CurrentLeg(tree) <==> c < |legs| && legs[c] == own[c])
        && (c < |last| ==> (CurrentLeg(after) == CurrentLeg(tree) <==> last[c] == own[c]))
  {
    var a, b := RouteLegs(v.lastDerived.value).value, RouteLegs(spec).value;
    assert |a| < |b| && forall i :: 0 <= i < |a| ==> a[i] == b[i];
  }

  // ----- Runs -----

  /** Frames, and everything that happens to the pilot in between: engaging, disengaging, ticking, and
      commands that install a tree. */
  datatype Move = Compiled(d: Derivation) | PilotBecomes(pilot: Option<Pilot>)

  function Step(v: Vessel, m: Move): Vessel {
    match m
    case Compiled(d) => Frame(v, d)
    case PilotBecomes(p) => v.(pilot := p)
  }

  function Run(v: Vessel, moves: seq<Move>): Vessel
    decreases |moves|
  {
    if moves == [] then v
    else Run(Step(v, moves[0]), moves[1..])
  }

  /** A frame whose route names a missing prim stops the vessel: every engaged pilot that had not failed already is
      put on the brake and fails; one that had is left as it was. */
  lemma StoppedByDangling(v: Vessel)
    ensures Frame(v, Dangling).lastDerived == None && Frame(v, Dangling).published == v.published
    ensures v.pilot.Some? && v.pilot.value.exec != Some(Failed) ==>
              Frame(v, Dangling).pilot == Some(Pilot(Some(Tree(Brake, None)), Some(Failed)))
    ensures v.pilot.None? || v.pilot.value.exec == Some(Failed) ==> Frame(v, Dangling).pilot == v.pilot
  {
  }

  /** The pilot's tree, if it has one, is the brake. */
  predicate Stands(v: Vessel) {
    v.pilot.Some? && v.pilot.value.tree.Some? ==> v.pilot.value.tree.value.spec == Brake
  }

  lemma {:induction false} StandsOn(v: Vessel, moves: seq<Move>)
    requires Stands(v) && AllUncommanded(v, moves)
    requires forall m :: m in moves ==> !(m.Compiled? && m.d.Derived?)
    ensures Stands(Run(v, moves))
    decreases |moves|
  {
    if moves != [] {
      assert moves[0] in moves && forall m :: m in moves[1..] ==> m in moves;
      StandsOn(Step(v, moves[0]), moves[1..]);
    }
  }

  /** And it stays stopped: through any frames, ticks and engagements without a command and without a good
      derivation, a vessel that had not failed already drives no leg of any route. */
  lemma NoLegUntilDerived(v: Vessel, between: seq<Move>)
    requires v.pilot.Some? ==> v.pilot.value.exec != Some(Failed)
    requires AllUncommanded(Step(v, Compiled(Dangling)), between)
    requires forall m :: m in between ==> !(m.Compiled? && m.d.Derived?)
    ensures var after := Run(Step(v, Compiled(Dangling)), between);
      after.pilot.Some? && after.pilot.value.tree.Some? ==>
        after.pilot.value.tree.value.spec == Brake && CurrentLeg(after.pilot.value.tree.value) == None
  {
    StoppedByDangling(v);
    StandsOn(Step(v, Compiled(Dangling)), between);
  }

  /** What is published is what was derived last, and it stays published while a target dangles. */
  lemma {:induction false} PublishedIsDerived(v: Vessel, moves: seq<Move>)
    requires v.lastDerived.Some? ==> v.published == v.lastDerived
    ensures var w := Run(v, moves);
      && (w.lastDerived.Some? ==> w.published == w.lastDerived)
      && (moves != [] && moves[|moves| - 1].Compiled? && moves[|moves| - 1].d.Derived? ==>
            w.published == Some(moves[|moves| - 1].d.spec))
    decreases |moves|
  {
    if moves != [] {
      PublishedIsDerived(Step(v, moves[0]), moves[1..]);
      assert |moves| > 1 ==> moves[1..][|moves| - 2] == moves[|moves| - 1];
    }
  }

  lemma {:induction false} ForgottenUntilDerived(v: Vessel, moves: seq<Move>)
    requires v.lastDerived == None
    requires forall m :: m in moves ==> !(m.Compiled? && m.d.Derived?)
    ensures Run(v, moves).lastDerived == None
    decreases |moves|
  {
    if moves != [] {
      assert moves[0] in moves && forall m :: m in moves[1..] ==> m in moves;
      ForgottenUntilDerived(Step(v, moves[0]), moves[1..]);
    }
  }

  /** Whatever happens in between, the first good derivation after a dangling one puts every engaged
      pilot back on a running tree of that derivation, from its first leg. */
  lemma RecoversAfterDangling(v: Vessel, between: seq<Move>, spec: Spec)
    requires forall m :: m in between ==> !(m.Compiled? && m.d.Derived?)
    ensures var before := Run(Frame(v, Dangling), between);
      var after := Frame(before, Derived(spec));
      before.pilot.Some? ==> after.pilot == Some(Pilot(Some(FreshTree(spec)), Some(Running)))
  {
    ForgottenUntilDerived(Frame(v, Dangling), between);
  }

  /** A pilot that is engaged has a tree. */
  predicate HasTree(pilot: Option<Pilot>) {
    pilot.Some? ==> pilot.value.tree.Some?
  }

  /** Frames that derive nothing new: the XML or the spec is invalid, or the spec is the last one again. */
  predicate Stale(m: Move, spec: Spec) {
    m.Compiled? && (m.d.InvalidXml? || m.d.InvalidSpec? || m.d == Derived(spec))
  }

  /** What happens to the pilot, without the frames in between. */
  function PilotMoves(moves: seq<Move>): seq<Move> {
    if moves == [] then []
    else (if moves[0].PilotBecomes? then [moves[0]] else []) + PilotMoves(moves[1..])
  }

  /** As long as the derivation stays the same, frames are invisible: whatever trees commands install and
      however they are ticked in between, the vessel is as if only that had happened. */
  lemma {:induction false} UnchangedFramesAreInvisible(v: Vessel, spec: Spec, moves: seq<Move>)
    requires v.lastDerived == Some(spec) && HasTree(v.pilot)
    requires forall m :: m in moves ==> Stale(m, spec) || (m.PilotBecomes? && HasTree(m.pilot))
    ensures Run(v, moves) == Run(v, PilotMoves(moves))
    decreases |moves|
  {
    if moves != [] {
      var m, rest := moves[0], moves[1..];
      assert m in moves && forall x :: x in rest ==> x in moves;
      UnchangedFramesAreInvisible(Step(v, m), spec, rest);
      if m.PilotBecomes? {
        var left := [m] + PilotMoves(rest);
        assert left[1..] == PilotMoves(rest);
        assert Run(v, left) == Run(Step(v, m), PilotMoves(rest));
      } else {
        assert Step(v, m) == v;
        assert PilotMoves(moves) == PilotMoves(rest);
      }
    }
  }

  // ----- Trees that come from the derivation -----

  /** If the compiler remembers a derivation, the pilot's tree, if it has one, is of that derivation. */
  ghost predicate FollowsDerivation(v: Vessel) {
    v.lastDerived.Some? && v.pilot.Some? && v.pilot.value.tree.Some? ==>
      && v.pilot.value.tree.value.spec == v.lastDerived.value
      && (v.pilot.value.tree.value.cursor.Some? <==> RouteLegs(v.lastDerived.value).Some?)
  }

  /** Everything but a command that installs a tree: any frame at all, a tick, which moves a tree along and may
      end it, engaging with no tree, and disengaging. */
  predicate Uncommanded(v: Vessel, m: Move) {
    match m
    case Compiled(_) => true
    case PilotBecomes(None) => true
    case PilotBecomes(Some(p)) =>
      p.tree.Some? ==>
        && v.pilot.Some? && v.pilot.value.tree.Some?
        && p.tree.value.spec == v.pilot.value.tree.value.spec
        && (p.tree.value.cursor.Some? <==> v.pilot.value.tree.value.cursor.Some?)
  }

  ghost predicate AllUncommanded(v: Vessel, moves: seq<Move>)
    decreases |moves|
  {
    moves == [] || (Uncommanded(v, moves[0]) && AllUncommanded(Step(v, moves[0]), moves[1..]))
  }

  /** Over every run without commands, dangling and invalid frames and derivations that are no route included,
      the tree goes on being of the derivation that is remembered. */
  lemma {:induction false} FollowsDerivationStays(v: Vessel, moves: seq<Move>)
    requires FollowsDerivation(v) && AllUncommanded(v, moves)
    ensures FollowsDerivation(Run(v, moves))
    decreases |moves|
  {
    if moves != [] {
      FollowsDerivationStep(v, moves[0]);
      FollowsDerivationStays(Step(v, moves[0]), moves[1..]);
    }
  }

  lemma FollowsDerivationStep(v: Vessel, m: Move)
    requires FollowsDerivation(v) && Uncommanded(v, m)
    ensures FollowsDerivation(Step(v, m))
  {
  }

  lemma {:induction false} UncommandedPrefix(v: Vessel, moves: seq<Move>, k: nat)
    requires AllUncommanded(v, moves) && k <= |moves|
    ensures AllUncommanded(v, moves[..k])
    decreases |moves|
  {
    if k > 0 {
      assert moves[..k][0] == moves[0] && moves[..k][1..] == moves[1..][..k - 1];
      UncommandedPrefix(Step(v, moves[0]), moves[1..], k - 1);
    }
  }

  /** So every append in such a run resumes on the leg being driven, or, once the route was completed, goes on
      with the first new leg. */
  lemma EveryAppendResumes(v: Vessel, moves: seq<Move>, k: nat)
    requires FollowsDerivation(v) && AllUncommanded(v, moves) && k < |moves|
    requires var w := Run(v, moves[..k]);
      && moves[k].Compiled? && moves[k].d.Derived? && w.lastDerived.Some? && AppendOnly(w.lastDerived.value, moves[k].d.spec)
      && w.pilot.Some? && w.pilot.value.tree.Some? && CurrentLeg(w.pilot.value.tree.value).Some?
    ensures var w := Run(v, moves[..k]);
      var after := Step(w, moves[k]).pilot.value;
      && after.exec == Some(Running) && after.tree.Some? && after.tree.value.spec == moves[k].d.spec
      && CurrentLeg(after.tree.value) ==
           if w.pilot.value.exec == Some(Completed)
           then Some(RouteLegs(moves[k].d.spec).value[|RouteLegs(w.lastDerived.value).value|])
           else CurrentLeg(w.pilot.value.tree.value)
  {
    UncommandedPrefix(v, moves, k);
    FollowsDerivationStays(v, moves[..k]);
    AppendResumes(Run(v, moves[..k]), moves[k].d.spec);
  }
}
