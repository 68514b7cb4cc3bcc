/** `transitive_file_closure_with`: every file that the roots transitively name. */
module FileClosure {
  import opened AssetPathMeaning
  import opened AssetPaths
  import opened Wrappers

  /** What the walk asks of the disk and of the file formats. */
  datatype Files = Files(
    isDocument: Path -> bool,
    text: Path -> Option<string>,
    dependencies: string -> Option<seq<string>>,
    resolveAnchored: string -> Option<Path>)

  /** The file one reference of a document names, if it names a local one. */
  function Target(f: Files, document: Path, arc: string): Option<Path> {
    if IsAnchored(arc) then
      match f.resolveAnchored(arc)
      case Some(p) => Some(Normalize(p))
      case None => None
    else Some(Normalize(Joined(Parent(document), arc)))
  }

  function ArcTargets(f: Files, document: Path, arcs: seq<string>): seq<Path> {
    if arcs == [] then []
    else
      var n := |arcs| - 1;
      ArcTargets(f, document, arcs[..n]) +
      match Target(f, document, arcs[n]) case Some(p) => [p] case None => []
  }

  lemma {:induction false} ArcOfTarget(f: Files, document: Path, arcs: seq<string>, q: Path) returns (arc: string)
    requires q in ArcTargets(f, document, arcs)
    ensures arc in arcs && Target(f, document, arc) == Some(q)
  {
    hide Target;
    var n := |arcs| - 1;
    if q in ArcTargets(f, document, arcs[..n]) {
      arc := ArcOfTarget(f, document, arcs[..n], q);
    } else {
      arc := arcs[n];
    }
  }

  /** What a file leads to: nothing, unless it is a document that can be read and declares references. */
  function Targets(f: Files, path: Path): seq<Path> {
    if !f.isDocument(path) then []
    else
      match f.text(path)
      case None => []
      case Some(text) =>
        match f.dependencies(text)
        case None => []
        case Some(arcs) => ArcTargets(f, path, arcs)
  }

  ghost predicate Closed(f: Files, s: set<Path>) {
    forall p, q :: p in s && q in Targets(f, p) ==> q in s
  }

  ghost predicate Roots(roots: seq<Path>, s: set<Path>) {
    forall i :: 0 <= i < |roots| ==> Normalize(roots[i]) in s
  }

  /** The smallest set that holds the roots and everything its own files lead to. */
  ghost predicate IsClosure(f: Files, roots: seq<Path>, s: set<Path>) {
    && Roots(roots, s) && Closed(f, s)
    && forall other: set<Path> :: Roots(roots, other) && Closed(f, other) ==> s <= other
  }

  lemma ClosureIsUnique(f: Files, roots: seq<Path>, s: set<Path>, t: set<Path>)
    requires IsClosure(f, roots, s) && IsClosure(f, roots, t)
    ensures s == t
  {
  }

  /** While the walk runs: everything seen has its targets seen or queued, and nothing is seen or queued
      that some closed set could do without. */
  ghost predicate Underway(f: Files, roots: seq<Path>, seen: set<Path>, queue: seq<Path>) {
    && (forall i :: 0 <= i < |roots| ==> Normalize(roots[i]) in seen || Normalize(roots[i]) in queue)
    && (forall p, q :: p in seen && q in Targets(f, p) ==> q in seen || q in queue)
    && (forall s: set<Path> :: Roots(roots, s) && Closed(f, s) ==> seen <= s && forall q :: q in queue ==> q in s)
  }

  lemma Started(f: Files, roots: seq<Path>, queue: seq<Path>)
    requires |queue| == |roots| && forall i :: 0 <= i < |roots| ==> queue[i] == Normalize(roots[i])
    ensures Underway(f, roots, {}, queue)
  {
  }

  /** One step: any queued path is taken, and, if it is new, its targets are queued in any order. */
  lemma Stepped(f: Files, roots: seq<Path>, seen: set<Path>, queue: seq<Path>, path: Path, rest: seq<Path>)
    requires Underway(f, roots, seen, queue)
    requires forall q :: q in queue <==> q == path || q in rest
    ensures path in seen ==> Underway(f, roots, seen, rest)
    ensures Underway(f, roots, seen + {path}, rest + Targets(f, path))
  {
    hide Targets;
    var more := rest + Targets(f, path);
    forall p, q | p in seen + {path} && q in Targets(f, p) ensures q in seen + {path} || q in more {
    }
    forall s: set<Path> | Roots(roots, s) && Closed(f, s)
      ensures seen + {path} <= s && forall q :: q in more ==> q in s
    {
      assert path in queue;
      assert forall q :: q in rest ==> q in queue;
    }
  }

  lemma Finished(f: Files, roots: seq<Path>, seen: set<Path>)
    requires Underway(f, roots, seen, [])
    ensures IsClosure(f, roots, seen)
  {
    hide Targets;
  }

  lemma Grew(f: Files, roots: seq<Path>, universe: set<Path>, seen: set<Path>, queue: seq<Path>, path: Path)
    requires Roots(roots, universe) && Closed(f, universe)
    requires Underway(f, roots, seen, queue) && path in queue
    ensures path in universe && seen <= universe
    ensures path !in seen ==> |universe - (seen + {path})| < |universe - seen|
  {
    if path !in seen && path in universe {
      assert universe - seen == (universe - (seen + {path})) + {path};
    }
  }

  /** Only these files lead anywhere. */
  ghost predicate LeadOn(f: Files, documents: set<Path>) {
    forall p :: Targets(f, p) != [] ==> p in documents
  }

  /** Everything a walk can meet when only `documents` lead anywhere. */
  ghost function Universe(f: Files, roots: seq<Path>, documents: set<Path>): (u: set<Path>)
    requires LeadOn(f, documents)
    ensures Roots(roots, u) && Closed(f, u)
  {
    hide Targets;
    (set i | 0 <= i < |roots| :: Normalize(roots[i])) + (set d, q | d in documents && q in Targets(f, d) :: q)
  }

  /** The walk over a disk with finitely many documents: it ends, with the least closed set. */
  method TransitiveFileClosure(f: Files, roots: seq<Path>, ghost documents: set<Path>) returns (seen: set<Path>)
    requires LeadOn(f, documents)
    ensures IsClosure(f, roots, seen)
  {
    hide Underway, Targets, Closed, Roots, LeadOn, Universe;
    ghost var universe := Universe(f, roots, documents);
    seen := {};
    var queue := seq(|roots|, i requires 0 <= i < |roots| => Normalize(roots[i]));
    Started(f, roots, queue);
    while queue != []
      invariant Underway(f, roots, seen, queue)
      decreases |universe - seen|, |queue|
    {
      var last := |queue| - 1;
      var path, rest := queue[last], queue[..last];
      assert queue == rest + [path];
      Grew(f, roots, universe, seen, queue, path);
      Stepped(f, roots, seen, queue, path, rest);
      queue := rest;
      if path !in seen {
        seen := seen + {path};
        var targets := ReadTargets(f, path);
        queue := queue + targets;
      }
    }
    Finished(f, roots, seen);
  }

  /** The references of one file, resolved one at a time. */
  method ReadTargets(f: Files, path: Path) returns (targets: seq<Path>)
    ensures targets == Targets(f, path)
  {
    targets := [];
    if !f.isDocument(path) {
      return;
    }
    var text := f.text(path);
    if text.None? {
      return;
    }
    var arcs := f.dependencies(text.value);
    if arcs.None? {
      return;
    }
    for i := 0 to |arcs.value|
      invariant targets == ArcTargets(f, path, arcs.value[..i])
    {
      assert arcs.value[..i + 1][..i] == arcs.value[..i];
      var arc := arcs.value[i];
      if IsAnchored(arc) {
        var resolved := f.resolveAnchored(arc);
        if resolved.Some? {
          targets := targets + [Normalize(resolved.value)];
        }
      } else {
        targets := targets + [Normalize(Joined(Parent(path), arc))];
      }
    }
    assert arcs.value[..|arcs.value|] == arcs.value;
  }

  /** The same walk taking any queued path next: the set it ends with does not depend on which. */
  method AnyOrderClosure(f: Files, roots: seq<Path>, ghost documents: set<Path>) returns (seen: set<Path>)
    requires LeadOn(f, documents)
    ensures IsClosure(f, roots, seen)
  {
    hide Underway, Targets, Closed, Roots, LeadOn, Universe;
    ghost var universe := Universe(f, roots, documents);
    seen := {};
    var queue := seq(|roots|, i requires 0 <= i < |roots| => Normalize(roots[i]));
    Started(f, roots, queue);
    while queue != []
      invariant Underway(f, roots, seen, queue)
      decreases |universe - seen|, |queue|
    {
      var at :| 0 <= at < |queue|;
      var path, rest := queue[at], queue[..at] + queue[at + 1..];
      assert queue == queue[..at] + [path] + queue[at + 1..];
      Grew(f, roots, universe, seen, queue, path);
      Stepped(f, roots, seen, queue, path, rest);
      queue := rest;
      if path !in seen {
        seen := seen + {path};
        var targets := ReadTargets(f, path);
        queue := queue + targets;
      }
    }
    Finished(f, roots, seen);
  }

  /** Every file of the closure is listed under its normal form, so no file is listed under two. */
  lemma ClosureIsNormal(f: Files, roots: seq<Path>, s: set<Path>)
    requires IsClosure(f, roots, s)
    ensures forall p :: p in s ==> Normalize(p) == p
  {
    var normal := set p | p in s && Normalize(p) == p;
    forall i | 0 <= i < |roots| ensures Normalize(roots[i]) in normal {
      NormalIff(roots[i]);
    }
    forall p, q | p in normal && q in Targets(f, p) ensures q in normal {
      TargetIsNormal(f, p, q);
    }
    assert s <= normal;
  }

  lemma TargetIsNormal(f: Files, document: Path, q: Path)
    requires q in Targets(f, document)
    ensures Normalize(q) == q
  {
    var arcs := f.dependencies(f.text(document).value).value;
    var arc := ArcOfTarget(f, document, arcs, q);
    if IsAnchored(arc) {
      NormalIff(f.resolveAnchored(arc).value);
    } else {
      NormalIff(Joined(Parent(document), arc));
    }
  }

  /** The names of a directory's path, all but the last of the file's. */
  function Directory(file: Path): seq<string> {
    if file.segments == [] then [] else file.segments[..|file.segments| - 1]
  }

  /** What a file of the closure was named by: a root, or a reference of another file of the closure. A relative
      one leads, as it is written and in every tree, from the directory of the file that holds it; an anchored one
      leads where the resolver says. */
  ghost predicate NamedBy(f: Files, document: Path, arc: string, q: Path) {
    if IsAnchored(arc) then f.resolveAnchored(arc).Some? && LeadsTo(f.resolveAnchored(arc).value, q)
    else
      && q.absolute == (document.segments != [] && document.absolute)
      && forall t: Tree<seq<string>>, d :: t.Lawful() ==>
           Walk(t, d, q.segments) == Leads(t, Walk(t, d, Directory(document)), arc)
  }

  ghost predicate LeadsTo(p: Path, q: Path) {
    p.absolute == q.absolute
    && forall t: Tree<seq<string>>, d :: t.Lawful() ==> Walk(t, d, q.segments) == Walk(t, d, p.segments)
  }

  lemma TargetIsNamed(f: Files, document: Path, arc: string)
    ensures match Target(f, document, arc)
      case Some(q) => NamedBy(f, document, arc, q)
      case None => IsAnchored(arc) && f.resolveAnchored(arc).None?
  {
    hide Walk, Leads, Parse;
    if !IsAnchored(arc) {
      var joined := Joined(Parent(document), arc);
      forall t: Tree<seq<string>>, d | t.Lawful()
        ensures Walk(t, d, NormalSegments(joined.segments)) == Leads(t, Walk(t, d, Directory(document)), arc)
      {
        NormalWalksAlike(t, d, joined.segments);
        WalkConcat(t, d, Directory(document), Parse(arc).segments);
        ParsedLeadsAlike(t, Walk(t, d, Directory(document)), arc);
      }
    } else if f.resolveAnchored(arc).Some? {
      NormalIsLedTo(f.resolveAnchored(arc).value);
    }
  }

  lemma NormalIsLedTo(p: Path)
    ensures LeadsTo(p, Normalize(p))
  {
    hide Walk;
    forall t: Tree<seq<string>>, d | t.Lawful() ensures Walk(t, d, NormalSegments(p.segments)) == Walk(t, d, p.segments) {
      NormalWalksAlike(t, d, p.segments);
    }
  }

  /** The declared references of a file, if it is a document that can be read. */
  function Declared(f: Files, file: Path): seq<string> {
    if f.isDocument(file) && f.text(file).Some? then
      match f.dependencies(f.text(file).value)
      case Some(arcs) => arcs
      case None => []
    else []
  }

  /** A file is a root, or named by a reference of a file of the set. */
  ghost predicate Accounted(f: Files, roots: seq<Path>, s: set<Path>, q: Path) {
    || (exists i :: 0 <= i < |roots| && LeadsTo(roots[i], q))
    || (exists p, arc :: p in s && arc in Declared(f, p) && NamedBy(f, p, arc, q))
  }

  ghost predicate HoldsRoot(s: set<Path>, root: Path) {
    exists q :: q in s && LeadsTo(root, q)
  }

  /** The set holds the file a reference names, unless the reference is anchored and resolves to none. */
  ghost predicate Served(f: Files, s: set<Path>, document: Path, arc: string) {
    || (IsAnchored(arc) && f.resolveAnchored(arc).None?)
    || exists q :: q in s && NamedBy(f, document, arc, q)
  }

  /** The closure holds the roots and what each of its files names, and no other file. */
  lemma ClosureIsNamed(f: Files, roots: seq<Path>, s: set<Path>)
    requires IsClosure(f, roots, s)
    ensures forall i :: 0 <= i < |roots| ==> HoldsRoot(s, roots[i])
    ensures forall p, arc :: p in s && arc in Declared(f, p) ==> Served(f, s, p, arc)
    ensures forall q :: q in s ==> Accounted(f, roots, s, q)
  {
    hide IsClosure, Closed, Declared, Served, Accounted, IsAnchored, HoldsRoot;
    RootsAreServed(f, roots, s);
    forall p, arc | p in s && arc in Declared(f, p) ensures Served(f, s, p, arc) {
      ReferenceIsServed(f, roots, s, p, arc);
    }
    NothingElse(f, roots, s);
  }

  lemma RootsAreServed(f: Files, roots: seq<Path>, s: set<Path>)
    requires IsClosure(f, roots, s)
    ensures forall i :: 0 <= i < |roots| ==> HoldsRoot(s, roots[i])
  {
    hide Closed;
    forall i | 0 <= i < |roots| ensures HoldsRoot(s, roots[i]) {
      NormalIsLedTo(roots[i]);
      assert Normalize(roots[i]) in s;
    }
  }

  lemma ReferenceIsServed(f: Files, roots: seq<Path>, s: set<Path>, p: Path, arc: string)
    requires IsClosure(f, roots, s) && p in s && arc in Declared(f, p)
    ensures Served(f, s, p, arc)
  {
    hide NamedBy, Target, ArcTargets, IsAnchored;
    TargetIsNamed(f, p, arc);
    if Target(f, p, arc).Some? {
      TargetOfArc(f, p, Declared(f, p), arc);
      assert Target(f, p, arc).value in Targets(f, p);
    }
  }

  lemma TargetIsAccounted(f: Files, roots: seq<Path>, s: set<Path>, p: Path, q: Path)
    requires p in s && q in Targets(f, p)
    ensures Accounted(f, roots, s, q)
  {
    hide NamedBy, LeadsTo, Target, ArcTargets, IsAnchored;
    var arc := ArcOfTarget(f, p, Declared(f, p), q);
    TargetIsNamed(f, p, arc);
  }

  lemma NothingElse(f: Files, roots: seq<Path>, s: set<Path>)
    requires IsClosure(f, roots, s)
    ensures forall q :: q in s ==> Accounted(f, roots, s, q)
  {
    hide Targets, NamedBy, LeadsTo, Normalize;
    var named := set q | q in s && Accounted(f, roots, s, q);
    forall i | 0 <= i < |roots| ensures Normalize(roots[i]) in named {
      NormalIsLedTo(roots[i]);
    }
    hide Accounted;
    forall p, q | p in named && q in Targets(f, p) ensures q in named {
      TargetIsAccounted(f, roots, s, p, q);
    }
    assert s <= named;
  }

  lemma {:induction false} TargetOfArc(f: Files, document: Path, arcs: seq<string>, arc: string)
    requires arc in arcs && Target(f, document, arc).Some?
    ensures Target(f, document, arc).value in ArcTargets(f, document, arcs)
  {
    hide Target;
    var n := |arcs| - 1;
    if arc != arcs[n] {
      TargetOfArc(f, document, arcs[..n], arc);
    }
  }
}
