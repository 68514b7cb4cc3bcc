/** `expand`: every `<SubTree ID="X"/>` marker is replaced by tree `X`, depth- and cycle-checked. */
module SubTrees {
  import opened Wrappers
  import opened Json
  import opened BehaviorXmlWriter

  datatype ExpandError = DepthExceeded | NodeNotAnObject | Recursive(id: string) | Dangling(id: string)

  /** The `<BehaviorTree>`s of a file, by ID. */
  type Trees = map<string, Json>

  predicate IsMarker(node: Json) {
    node.Obj? && GetStr(node.fields, SUBTREE).Some?
  }

  function MarkerId(node: Json): string
    requires IsMarker(node)
  {
    node.fields[SUBTREE].s
  }

  function DepthLeft(depth: nat): nat {
    if depth > MAX_DEPTH then 0 else MAX_DEPTH + 1 - depth
  }

  function Expand(trees: Trees, node: Json, visiting: seq<string>, depth: nat): Result<Json, ExpandError>
    decreases DepthLeft(depth), 0, 0
  {
    if depth > MAX_DEPTH then Err(DepthExceeded)
    else if !node.Obj? then Err(NodeNotAnObject)
    else if IsMarker(node) then
      var id := MarkerId(node);
      if id in visiting then Err(Recursive(id))
      else if id !in trees then Err(Dangling(id))
      else Expand(trees, trees[id], visiting + [id], depth + 1)
    else
      var obj := node.fields;
      var withChildren :- ExpandChildren(trees, obj, visiting, depth);
      if "child" in obj then
        var child :- Expand(trees, obj["child"], visiting, depth + 1);
        Ok(Obj(withChildren["child" := child]))
      else
        Ok(Obj(withChildren))
  }

  function ExpandChildren(trees: Trees, obj: map<string, Json>, visiting: seq<string>, depth: nat)
    : Result<map<string, Json>, ExpandError>
    requires depth <= MAX_DEPTH
    decreases DepthLeft(depth + 1), 2, 0
  {
    match GetArr(obj, "children")
    case None => Ok(obj)
    case Some(items) =>
      var kids :- ExpandAll(trees, items, visiting, depth + 1);
      Ok(obj["children" := Arr(kids)])
  }

  function ExpandAll(trees: Trees, nodes: seq<Json>, visiting: seq<string>, depth: nat)
    : (r: Result<seq<Json>, ExpandError>)
    ensures r.Ok? ==> |r.value| == |nodes|
    ensures r.Ok? ==> forall i :: 0 <= i < |nodes| ==> Expand(trees, nodes[i], visiting, depth) == Ok(r.value[i])
    ensures r.Err? ==> exists i :: 0 <= i < |nodes| && Expand(trees, nodes[i], visiting, depth).Err?
    decreases DepthLeft(depth), 1, |nodes|
  {
    if nodes == [] then Ok([])
    else
      var first := Expand(trees, nodes[0], visiting, depth);
      var rest := ExpandAll(trees, nodes[1..], visiting, depth);
      if first.Err? then Err(first.error)
      else if rest.Err? then
        assert forall i :: 0 <= i < |nodes[1..]| ==> nodes[1..][i] == nodes[i + 1];
        Err(rest.error)
      else Ok([first.value] + rest.value)
  }

  // ----- The expander as the source runs it, with one shared stack of visited IDs -----

  class Expander {
    const trees: Trees
    var visiting: seq<string>

    constructor (trees: Trees)
      ensures this.trees == trees && visiting == []
    {
      this.trees := trees;
      visiting := [];
    }

    method Run(node: Json, depth: nat) returns (r: Result<Json, ExpandError>)
      modifies this
      ensures r == Expand(trees, node, old(visiting), depth)
      ensures r.Ok? ==> visiting == old(visiting)
      decreases DepthLeft(depth), 0
    {
      if depth > MAX_DEPTH {
        return Err(DepthExceeded);
      }
      if !node.Obj? {
        return Err(NodeNotAnObject);
      }
      if IsMarker(node) {
        var id := MarkerId(node);
        if id in visiting {
          return Err(Recursive(id));
        }
        if id !in trees {
          return Err(Dangling(id));
        }
        visiting := visiting + [id];
        r := Run(trees[id], depth + 1);
        if r.Ok? {
          visiting := visiting[..|visiting| - 1];
        }
        return;
      }
      var m := node.fields;
      if "children" in node.fields && node.fields["children"].Arr? {
        var kids := RunAll(node.fields["children"].items, depth + 1);
        if kids.Err? {
          return Err(kids.error);
        }
        m := m["children" := Arr(kids.value)];
      }
      if "child" in node.fields {
        var child := Run(node.fields["child"], depth + 1);
        if child.Err? {
          return child;
        }
        m := m["child" := child.value];
      }
      r := Ok(Obj(m));
    }

    method RunAll(nodes: seq<Json>, depth: nat) returns (r: Result<seq<Json>, ExpandError>)
      modifies this
      ensures r == ExpandAll(trees, nodes, old(visiting), depth)
      ensures r.Ok? ==> visiting == old(visiting)
      decreases DepthLeft(depth), 1, |nodes|
    {
      if nodes == [] {
        return Ok([]);
      }
      var first := Run(nodes[0], depth);
      if first.Err? {
        return Err(first.error);
      }
      var rest := RunAll(nodes[1..], depth);
      r := if rest.Err? then rest else Ok([first.value] + rest.value);
    }
  }

  // ----- What expansion means -----

  /** One step of the unfolding of a tree: from a marker to the tree it names, from any other node to
      one of its subtrees. */
  ghost predicate Unfolds(trees: Trees, from: Json, to: Json) {
    if IsMarker(from) then
      MarkerId(from) in trees && to == trees[MarkerId(from)]
    else
      from.Obj? && ((GetArr(from.fields, "children").Some? && to in GetArr(from.fields, "children").value)
                    || Get(from.fields, "child") == Some(to))
  }

  ghost predicate IsPath(trees: Trees, path: seq<Json>) {
    path != [] && forall i :: 0 < i < |path| ==> Unfolds(trees, path[i - 1], path[i])
  }

  /** The path ends where expansion must give up: too deep, at something that is no node, at a marker
      that names nothing, or at a marker for a tree that is already being expanded. */
  ghost predicate Fatal(trees: Trees, path: seq<Json>, visiting: seq<string>, depth: nat)
    requires path != []
  {
    var last := path[|path| - 1];
    || depth + |path| - 1 > MAX_DEPTH
    || !last.Obj?
    || (IsMarker(last) &&
        (|| MarkerId(last) !in trees
         || MarkerId(last) in visiting
         || exists i :: 0 <= i < |path| - 1 && IsMarker(path[i]) && MarkerId(path[i]) == MarkerId(last)))
  }

  ghost function Entered(node: Json, visiting: seq<string>): seq<string> {
    if IsMarker(node) then visiting + [MarkerId(node)] else visiting
  }

  lemma {:induction false} FatalPathFails(trees: Trees, path: seq<Json>, visiting: seq<string>, depth: nat)
    requires IsPath(trees, path) && Fatal(trees, path, visiting, depth)
    ensures Expand(trees, path[0], visiting, depth).Err?
    decreases |path|
  {
    if |path| > 1 && depth <= MAX_DEPTH {
      var tail := path[1..];
      assert Unfolds(trees, path[0], path[1]);
      assert IsPath(trees, tail) by {
        forall i | 0 < i < |tail| ensures Unfolds(trees, tail[i - 1], tail[i]) {
          assert Unfolds(trees, path[i], path[i + 1]);
        }
      }
      var inside := Entered(path[0], visiting);
      assert Fatal(trees, tail, inside, depth + 1) by {
        var last := path[|path| - 1];
        if IsMarker(last) && exists i :: 0 <= i < |path| - 1 && IsMarker(path[i]) && MarkerId(path[i]) == MarkerId(last) {
          var i :| 0 <= i < |path| - 1 && IsMarker(path[i]) && MarkerId(path[i]) == MarkerId(last);
          if i > 0 {
            assert tail[i - 1] == path[i];
          }
        }
      }
      FatalPathFails(trees, tail, inside, depth + 1);
      FailureSpreads(trees, path[0], path[1], visiting, depth);
    }
  }

  lemma FailureSpreads(trees: Trees, from: Json, to: Json, visiting: seq<string>, depth: nat)
    requires depth <= MAX_DEPTH && Unfolds(trees, from, to)
    requires Expand(trees, to, Entered(from, visiting), depth + 1).Err?
    ensures Expand(trees, from, visiting, depth).Err?
  {
    if !IsMarker(from) && GetArr(from.fields, "children").Some? {
      var items := GetArr(from.fields, "children").value;
      if to in items {
        var i :| 0 <= i < |items| && items[i] == to;
        assert Expand(trees, items[i], visiting, depth + 1).Err?;
      }
    }
  }

  lemma {:induction false} FailureHasPath(trees: Trees, node: Json, visiting: seq<string>, depth: nat)
    returns (path: seq<Json>)
    requires Expand(trees, node, visiting, depth).Err?
    ensures IsPath(trees, path) && path[0] == node && Fatal(trees, path, visiting, depth)
    decreases DepthLeft(depth)
  {
    path := [node];
    if !Fatal(trees, path, visiting, depth) {
      var next := FailingSuccessor(trees, node, visiting, depth);
      var tail := FailureHasPath(trees, next, Entered(node, visiting), depth + 1);
      path := [node] + tail;
      assert forall i :: 0 < i < |path| ==> path[i] == tail[i - 1];
      assert IsPath(trees, path) by {
        forall i | 0 < i < |path| ensures Unfolds(trees, path[i - 1], path[i]) {
          if i > 1 {
            assert Unfolds(trees, tail[i - 2], tail[i - 1]);
          }
        }
      }
      assert Fatal(trees, path, visiting, depth) by {
        var last := tail[|tail| - 1];
        assert path[|path| - 1] == last;
        if IsMarker(last) && IsMarker(node) && MarkerId(node) == MarkerId(last) {
          if |tail| >= 1 {
            assert path[0] == node;
          }
        }
        if IsMarker(last) && exists i :: 0 <= i < |tail| - 1 && IsMarker(tail[i]) && MarkerId(tail[i]) == MarkerId(last) {
          var i :| 0 <= i < |tail| - 1 && IsMarker(tail[i]) && MarkerId(tail[i]) == MarkerId(last);
          assert path[i + 1] == tail[i];
        }
      }
    }
  }

  lemma FailingSuccessor(trees: Trees, node: Json, visiting: seq<string>, depth: nat) returns (next: Json)
    requires Expand(trees, node, visiting, depth).Err?
    requires !Fatal(trees, [node], visiting, depth)
    ensures Unfolds(trees, node, next) && Expand(trees, next, Entered(node, visiting), depth + 1).Err?
  {
    if IsMarker(node) {
      next := trees[MarkerId(node)];
    } else if GetArr(node.fields, "children").Some?
      && ExpandAll(trees, GetArr(node.fields, "children").value, visiting, depth + 1).Err? {
      var items := GetArr(node.fields, "children").value;
      var i :| 0 <= i < |items| && Expand(trees, items[i], visiting, depth + 1).Err?;
      next := items[i];
    } else {
      next := node.fields["child"];
    }
  }

  /** Expansion fails exactly when some path of the unfolding ends fatally. */
  lemma ExpandFailsIff(trees: Trees, node: Json)
    ensures Expand(trees, node, [], 0).Err? <==>
      exists path :: IsPath(trees, path) && path[0] == node && Fatal(trees, path, [], 0)
  {
    if Expand(trees, node, [], 0).Err? {
      var path := FailureHasPath(trees, node, [], 0);
    } else {
      forall path | IsPath(trees, path) && path[0] == node && Fatal(trees, path, [], 0) ensures false {
        FatalPathFails(trees, path, [], 0);
      }
    }
  }

  // ----- Every reachable cycle is an error -----

  /** `path` with the closed walk `cycle` (from the path's end back to it) appended `n` times. */
  ghost function Pumped(path: seq<Json>, cycle: seq<Json>, n: nat): seq<Json> {
    if n == 0 then path else Pumped(path, cycle, n - 1) + cycle
  }

  /** `cycle` leads from `at` back to `at`. */
  ghost predicate IsCycle(trees: Trees, at: Json, cycle: seq<Json>) {
    cycle != [] && IsPath(trees, [at] + cycle) && cycle[|cycle| - 1] == at
  }

  lemma {:induction false} PumpedIsPath(trees: Trees, path: seq<Json>, cycle: seq<Json>, n: nat)
    requires IsPath(trees, path) && IsCycle(trees, path[|path| - 1], cycle)
    ensures IsPath(trees, Pumped(path, cycle, n))
    ensures Pumped(path, cycle, n)[0] == path[0]
    ensures Pumped(path, cycle, n)[|Pumped(path, cycle, n)| - 1] == path[|path| - 1]
    ensures |Pumped(path, cycle, n)| >= n + 1
  {
    if n > 0 {
      PumpedIsPath(trees, path, cycle, n - 1);
      var short := Pumped(path, cycle, n - 1);
      var long := Pumped(path, cycle, n);
      var loop := [path[|path| - 1]] + cycle;
      forall i | 0 < i < |long| ensures Unfolds(trees, long[i - 1], long[i]) {
        if i >= |short| {
          assert long[i] == loop[i - |short| + 1];
          assert long[i - 1] == loop[i - |short|];
        }
      }
    }
  }

  lemma ReachableCycleFails(trees: Trees, path: seq<Json>, cycle: seq<Json>)
    requires IsPath(trees, path) && IsCycle(trees, path[|path| - 1], cycle)
    ensures Expand(trees, path[0], [], 0).Err?
  {
    PumpedIsPath(trees, path, cycle, MAX_DEPTH + 1);
    FatalPathFails(trees, Pumped(path, cycle, MAX_DEPTH + 1), [], 0);
  }

  // ----- Success is the full substitution -----

  /** Substitution with neither a depth limit nor a list of visited IDs; `None` when `fuel` levels do
      not reach the leaves. */
  ghost function Substituted(trees: Trees, node: Json, fuel: nat): Option<Json>
    decreases fuel, 0
  {
    if fuel == 0 || !node.Obj? then None
    else if IsMarker(node) then
      if MarkerId(node) in trees then Substituted(trees, trees[MarkerId(node)], fuel - 1) else None
    else
      var kids := match GetArr(node.fields, "children")
        case None => Some(node.fields)
        case Some(items) =>
          if forall i :: 0 <= i < |items| ==> Substituted(trees, items[i], fuel - 1).Some? then
            Some(node.fields["children" := Arr(seq(|items|, i requires 0 <= i < |items| =>
              Substituted(trees, items[i], fuel - 1).value))])
          else None;
      match (kids, Get(node.fields, "child"))
      case (Some(m), None) => Some(Obj(m))
      case (Some(m), Some(c)) =>
        var child := Substituted(trees, c, fuel - 1);
        if child.Some? then Some(Obj(m["child" := child.value])) else None
      case _ => None
  }

  /** No marker in any node position. */
  ghost predicate MarkerFree(node: Json) {
    && node.Obj? && !IsMarker(node)
    && ("children" in node.fields && node.fields["children"].Arr? ==>
          forall i :: 0 <= i < |node.fields["children"].items| ==> MarkerFree(node.fields["children"].items[i]))
    && ("child" in node.fields ==> MarkerFree(node.fields["child"]))
  }

  lemma {:induction false} ExpandIsSubstitution(trees: Trees, node: Json, visiting: seq<string>, depth: nat, fuel: nat)
    requires Expand(trees, node, visiting, depth).Ok? && fuel >= DepthLeft(depth)
    ensures Substituted(trees, node, fuel) == Some(Expand(trees, node, visiting, depth).value)
    decreases DepthLeft(depth)
  {
    if IsMarker(node) {
      ExpandIsSubstitution(trees, trees[MarkerId(node)], Entered(node, visiting), depth + 1, fuel - 1);
    } else {
      var obj := node.fields;
      if GetArr(obj, "children").Some? {
        var items := GetArr(obj, "children").value;
        var kids := ExpandAll(trees, items, visiting, depth + 1).value;
        forall i | 0 <= i < |items| ensures Substituted(trees, items[i], fuel - 1) == Some(kids[i]) {
          ExpandIsSubstitution(trees, items[i], visiting, depth + 1, fuel - 1);
        }
        assert kids == seq(|items|, i requires 0 <= i < |items| => Substituted(trees, items[i], fuel - 1).value);
      }
      if "child" in obj {
        ExpandIsSubstitution(trees, obj["child"], visiting, depth + 1, fuel - 1);
      }
    }
  }

  lemma {:induction false} ExpandLeavesNoMarker(trees: Trees, node: Json, visiting: seq<string>, depth: nat)
    requires Expand(trees, node, visiting, depth).Ok?
    ensures MarkerFree(Expand(trees, node, visiting, depth).value)
    decreases DepthLeft(depth)
  {
    var out := Expand(trees, node, visiting, depth).value;
    if IsMarker(node) {
      ExpandLeavesNoMarker(trees, trees[MarkerId(node)], Entered(node, visiting), depth + 1);
    } else {
      var obj := node.fields;
      if GetArr(obj, "children").Some? {
        var items := GetArr(obj, "children").value;
        var kids := ExpandAll(trees, items, visiting, depth + 1).value;
        forall i | 0 <= i < |items| ensures MarkerFree(kids[i]) {
          ExpandLeavesNoMarker(trees, items[i], visiting, depth + 1);
        }
        assert out.fields["children"] == Arr(kids);
      }
      if "child" in obj {
        ExpandLeavesNoMarker(trees, obj["child"], visiting, depth + 1);
      }
    }
  }

  /** On success the result is the full substitution, whatever budget it is computed with, and holds
      no marker. */
  lemma ExpandSucceeds(trees: Trees, node: Json)
    requires Expand(trees, node, [], 0).Ok?
    ensures MarkerFree(Expand(trees, node, [], 0).value)
    ensures forall fuel: nat :: fuel > MAX_DEPTH ==>
      Substituted(trees, node, fuel) == Some(Expand(trees, node, [], 0).value)
  {
    ExpandLeavesNoMarker(trees, node, [], 0);
    forall fuel: nat | fuel > MAX_DEPTH ensures Substituted(trees, node, fuel) == Some(Expand(trees, node, [], 0).value) {
      ExpandIsSubstitution(trees, node, [], 0, fuel);
    }
  }
}
