/** Whole documents, references included: an import is the reading of the entry tree with every reference
    replaced by the element it names, and what of it can be written back. */
module BehaviorXmlDocuments {
  import opened Wrappers
  import opened Arithmetic
  import opened Json
  import opened KindTable
  import opened XmlText
  import opened BehaviorXmlWriter
  import opened BehaviorXmlReader
  import opened BehaviorXmlRoundTrip
  import opened BehaviorXmlElements
  import opened BehaviorXmlReExport
  import SubTrees

  type Elements = map<string, Element>

  /** The tree an element refers to: a `<SubTree>`, or an element without a row whose port named like the
      internal marker is text. */
  function Reference(env: Env, e: Element): Option<string> {
    var attrs := AttrsOf(e);
    if e.tag == "SubTree" then FindAttr(attrs, "ID")
    else if NamesKind(e.tag) || ByTag(e.tag).None? then
      match AttrValue(env, attrs, SUBTREE)
      case Some(Str(id)) => Some(id)
      case _ => None
    else None
  }

  /** The element with its references replaced, down to the deepest level an import reaches. */
  function Unfolded(env: Env, trees: Elements, e: Element, depth: nat): Element
    decreases SubTrees.DepthLeft(depth), 0, 0
  {
    if depth > MAX_DEPTH then e
    else match Reference(env, e)
      case Some(id) => if id in trees then Unfolded(env, trees, trees[id], depth + 1) else e
      case None =>
        if e.Bare? then e else Around(e.tag, e.raw, UnfoldedAll(env, trees, e.inner, depth + 1))
  }

  function UnfoldedAll(env: Env, trees: Elements, es: seq<Element>, depth: nat): (r: seq<Element>)
    ensures |r| == |es|
    ensures forall i :: 0 <= i < |es| ==> r[i] == Unfolded(env, trees, es[i], depth)
    decreases SubTrees.DepthLeft(depth), 1, |es|
  {
    if es == [] then []
    else
      assert forall i :: 1 <= i < |es| ==> es[1..][i - 1] == es[i];
      [Unfolded(env, trees, es[0], depth)] + UnfoldedAll(env, trees, es[1..], depth)
  }

  // ----- References are what the expander takes for markers -----

  lemma SpecFieldsHoldNoMarker(env: Env, km: KindMap, attrs: seq<Attr>)
    ensures SUBTREE !in SpecFields(env, km, attrs)
  {
  }

  lemma SubTreeReads(env: Env, e: Element)
    requires NodeOf(env, e).Ok? && e.tag == "SubTree"
    ensures ReadAttrs(e.raw).Ok? && FindAttr(AttrsOf(e), "ID").Some?
    ensures NodeOf(env, e) == Ok(Obj(map[SUBTREE := Str(FindAttr(AttrsOf(e), "ID").value)]))
  {
  }

  lemma ReferenceIsMarker(env: Env, e: Element)
    requires NodeOf(env, e).Ok?
    ensures var v := NodeOf(env, e).value;
      Reference(env, e) == if SubTrees.IsMarker(v) then Some(SubTrees.MarkerId(v)) else None
  {
    hide ByTag, FieldsRead, NodeOf, SpecFields, FindAttr, Distinct;
    if e.tag == "SubTree" {
      SubTreeReads(env, e);
    } else {
      var kids := NodeParts(env, e);
      var fields := FieldsRead(env, e.tag, AttrsOf(e)).value;
      var obj := NodeOf(env, e).value.fields;
      assert Get(obj, SUBTREE) == Get(fields, SUBTREE);
      if NamesKind(e.tag) || ByTag(e.tag).None? {
        PortRead(env, e.tag, AttrsOf(e), SUBTREE);
      } else {
        RowFieldsRead(env, e.tag, AttrsOf(e));
        SpecFieldsHoldNoMarker(env, ByTag(e.tag).value, AttrsOf(e));
      }
    }
  }

  lemma RowFieldsRead(env: Env, tag: string, attrs: seq<Attr>)
    requires !NamesKind(tag) && ByTag(tag).Some?
    ensures FieldsRead(env, tag, attrs) == Ok(SpecFields(env, ByTag(tag).value, attrs))
  {
    hide ByTag, SpecFields;
  }

  // ----- Expanding the nodes is unfolding the elements -----

  /** `trees` are the nodes of `elements`. */
  ghost predicate Backs(env: Env, elements: Elements, trees: SubTrees.Trees) {
    elements.Keys == trees.Keys && forall id :: id in elements ==> NodeOf(env, elements[id]) == Ok(trees[id])
  }

  /** Expansion goes through the slot of a node that is no marker. */
  lemma SlottedExpands(
    trees: SubTrees.Trees, fields: map<string, Json>, shape: Shape, kids: seq<Json>, visiting: seq<string>, depth: nat)
    requires FitsSlot(shape, kids) && "child" !in fields && "children" !in fields && depth <= MAX_DEPTH
    requires !SubTrees.IsMarker(Obj(Slotted(fields, shape, kids)))
    requires SubTrees.Expand(trees, Obj(Slotted(fields, shape, kids)), visiting, depth).Ok?
    ensures SubTrees.ExpandAll(trees, kids, visiting, depth + 1).Ok?
    ensures var grown := SubTrees.ExpandAll(trees, kids, visiting, depth + 1).value;
      && FitsSlot(shape, grown)
      && SubTrees.Expand(trees, Obj(Slotted(fields, shape, kids)), visiting, depth) == Ok(Obj(Slotted(fields, shape, grown)))
  {
    var obj := Slotted(fields, shape, kids);
    match shape
    case Control =>
      var grown := SubTrees.ExpandAll(trees, kids, visiting, depth + 1).value;
      assert obj["children" := Arr(grown)] == fields["children" := Arr(grown)];
    case Decorator =>
      assert kids == [kids[0]] && kids[1..] == [];
      var grown := SubTrees.ExpandAll(trees, kids, visiting, depth + 1).value;
      assert obj["child" := grown[0]] == fields["child" := grown[0]];
    case Leaf =>
  }

  /** An element around other children reads as the same fields around other nodes. */
  lemma NodeAround(env: Env, e: Element, inner: seq<Element>, kids: seq<Json>)
    requires NodeOf(env, e).Ok? && e.Around? && e.tag != "SubTree" && NodesOf(env, inner) == Ok(kids)
    requires FitsSlot(ShapeRead(e.tag), kids)
    ensures FieldsRead(env, e.tag, AttrsOf(e)).Ok?
    ensures NodeOf(env, Around(e.tag, e.raw, inner)) ==
      Ok(Obj(Slotted(FieldsRead(env, e.tag, AttrsOf(e)).value, ShapeRead(e.tag), kids)))
  {
    hide FieldsRead, FrameToValue, ByTag;
    var before := NodeParts(env, e);
    FrameIsSlotted(env, e.tag, AttrsOf(e), kids);
  }

  /** Where expansion of an element's node succeeds, its result is the node of the unfolded element. */
  lemma {:induction false} UnfoldedReads(
    env: Env, elements: Elements, trees: SubTrees.Trees, e: Element, visiting: seq<string>, depth: nat)
    requires Backs(env, elements, trees) && NodeOf(env, e).Ok?
    requires SubTrees.Expand(trees, NodeOf(env, e).value, visiting, depth).Ok?
    ensures NodeOf(env, Unfolded(env, elements, e, depth)) == SubTreesValue(trees, NodeOf(env, e).value, visiting, depth)
    decreases SubTrees.DepthLeft(depth), 0, 0
  {
    hide NodeOf, NodesOf, FieldsRead, ByTag, Slotted, FitsSlot, ShapeRead, Reference, AttrsOf, SubTrees.ExpandAll, UnfoldedAll;
    ReferenceIsMarker(env, e);
    var v := NodeOf(env, e).value;
    if SubTrees.IsMarker(v) {
      var id := SubTrees.MarkerId(v);
      UnfoldedReads(env, elements, trees, elements[id], visiting + [id], depth + 1);
    } else {
      SubTreeIsMarker(env, e);
      var kids := NodeParts(env, e);
      FieldsAreFlat(env, e.tag, AttrsOf(e));
      SlottedExpands(trees, FieldsRead(env, e.tag, AttrsOf(e)).value, ShapeRead(e.tag), kids, visiting, depth);
      if e.Around? {
        UnfoldedReadAll(env, elements, trees, e.inner, visiting, depth + 1);
        NodeAround(env, e, UnfoldedAll(env, elements, e.inner, depth + 1),
          SubTrees.ExpandAll(trees, kids, visiting, depth + 1).value);
      }
    }
  }

  lemma SubTreeIsMarker(env: Env, e: Element)
    requires NodeOf(env, e).Ok?
    ensures e.tag == "SubTree" ==> SubTrees.IsMarker(NodeOf(env, e).value)
  {
  }

  function SubTreesValue(trees: SubTrees.Trees, v: Json, visiting: seq<string>, depth: nat): Result<Json, ReadError> {
    match SubTrees.Expand(trees, v, visiting, depth)
    case Ok(out) => Ok(out)
    case Err(x) => Err(NotExpandable(x))
  }

  lemma {:induction false} UnfoldedReadAll(
    env: Env, elements: Elements, trees: SubTrees.Trees, es: seq<Element>, visiting: seq<string>, depth: nat)
    requires Backs(env, elements, trees) && NodesOf(env, es).Ok?
    requires SubTrees.ExpandAll(trees, NodesOf(env, es).value, visiting, depth).Ok?
    ensures NodesOf(env, UnfoldedAll(env, elements, es, depth)) ==
      Ok(SubTrees.ExpandAll(trees, NodesOf(env, es).value, visiting, depth).value)
    decreases SubTrees.DepthLeft(depth), 1, |es|
  {
    hide NodeOf, SubTrees.Expand, Unfolded, Backs;
    if es != [] {
      var vs := NodesOf(env, es).value;
      assert vs[1..] == NodesOf(env, es[1..]).value;
      UnfoldedReads(env, elements, trees, es[0], visiting, depth);
      UnfoldedReadAll(env, elements, trees, es[1..], visiting, depth);
      var unfolded := UnfoldedAll(env, elements, es, depth);
      assert unfolded[1..] == UnfoldedAll(env, elements, es[1..], depth);
    }
  }

  // ----- No import is too deep to be written -----

  lemma {:induction false} ExpandedHeight(trees: SubTrees.Trees, v: Json, visiting: seq<string>, depth: nat)
    requires SubTrees.Expand(trees, v, visiting, depth).Ok?
    ensures depth + Height(SubTrees.Expand(trees, v, visiting, depth).value) <= MAX_DEPTH + 1
    decreases SubTrees.DepthLeft(depth), 0, 0
  {
    if SubTrees.IsMarker(v) {
      ExpandedHeight(trees, trees[SubTrees.MarkerId(v)], visiting + [SubTrees.MarkerId(v)], depth + 1);
    } else {
      if GetArr(v.fields, "children").Some? {
        ExpandedHeightAll(trees, v.fields["children"].items, visiting, depth + 1);
      }
      if "child" in v.fields {
        ExpandedHeight(trees, v.fields["child"], visiting, depth + 1);
      }
      HeightOfFields(SubTrees.Expand(trees, v, visiting, depth).value.fields);
    }
  }

  lemma HeightOfFields(m: map<string, Json>)
    ensures Height(Obj(m)) ==
      if GetArr(m, "children").Some? then 1 + HeightAll(m["children"].items)
      else if "child" in m then 1 + Height(m["child"])
      else 1
  {
  }

  lemma {:induction false} ExpandedHeightAll(trees: SubTrees.Trees, vs: seq<Json>, visiting: seq<string>, depth: nat)
    requires SubTrees.ExpandAll(trees, vs, visiting, depth).Ok? && depth <= MAX_DEPTH + 1
    ensures depth + HeightAll(SubTrees.ExpandAll(trees, vs, visiting, depth).value) <= MAX_DEPTH + 1
    decreases SubTrees.DepthLeft(depth), 1, |vs|
  {
    hide Height;
    if vs != [] {
      ExpandedHeight(trees, vs[0], visiting, depth);
      ExpandedHeightAll(trees, vs[1..], visiting, depth);
      var out := SubTrees.ExpandAll(trees, vs, visiting, depth).value;
      assert out[1..] == SubTrees.ExpandAll(trees, vs[1..], visiting, depth).value;
    }
  }

  /** Of two trees with one ID the later one counts. */
  lemma {:induction false} LastTreeWins(trees: seq<(string, Json)>, k: nat)
    requires k < |trees| && forall j :: k < j < |trees| ==> trees[j].0 != trees[k].0
    ensures trees[k].0 in ById(trees) && ById(trees)[trees[k].0] == trees[k].1
  {
    var n := |trees| - 1;
    if k < n {
      LastTreeWins(trees[..n], k);
    }
  }

  // ----- The document as a whole -----

  function TreeId(t: Tree): string {
    match ReadAttrs(t.raw)
    case Ok(attrs) => IdIn(attrs)
    case Err(_) => ""
  }

  /** The elements of the trees by ID, the later one of two. */
  function ElementsById(ts: seq<Tree>): Elements {
    if ts == [] then map[]
    else ElementsById(ts[..|ts| - 1])[TreeId(ts[|ts| - 1]) := ts[|ts| - 1].node]
  }

  /** The tree that `main_tree_to_execute` names, or the only one. */
  function EntryElement(d: Document): Element
    requires d.trees != []
  {
    match ReadAttrs(d.raw)
    case Ok(attrs) =>
      (match FindAttr(attrs, "main_tree_to_execute")
       case Some(id) => if id in ElementsById(d.trees) then ElementsById(d.trees)[id] else d.trees[0].node
       case None => d.trees[0].node)
    case Err(_) => d.trees[0].node
  }

  /** What an import of the document reads: the entry tree without its references. */
  function Entire(env: Env, d: Document): Element
    requires d.trees != []
  {
    Unfolded(env, ElementsById(d.trees), EntryElement(d), 0)
  }

  lemma {:induction false} TreesReadPrefix(env: Env, ts: seq<Tree>, k: nat)
    requires TreesRead(env, ts).Ok? && k <= |ts|
    ensures TreesRead(env, ts[..k]) == Ok(TreesRead(env, ts).value[..k])
  {
    hide TreeRead;
    if k > 0 {
      TreesReadPrefix(env, ts[1..], k - 1);
      assert ts[..k][1..] == ts[1..][..k - 1];
      assert TreesRead(env, ts).value[..k] == [TreesRead(env, ts).value[0]] + TreesRead(env, ts[1..]).value[..k - 1];
    }
  }

  lemma {:induction false} ElementsBackTrees(env: Env, ts: seq<Tree>)
    requires TreesRead(env, ts).Ok?
    ensures Backs(env, ElementsById(ts), ById(TreesRead(env, ts).value))
  {
    if ts != [] {
      var n := |ts| - 1;
      var read := TreesRead(env, ts).value;
      TreesReadPrefix(env, ts, n);
      ElementsBackTrees(env, ts[..n]);
      assert TreeRead(env, ts[n]) == Ok(read[n]);
      assert read[n] == (TreeId(ts[n]), NodeOf(env, ts[n].node).value);
    }
  }

  /** An import succeeds only on a document it has room for, whose trees can all be read, and yields the
      node of the entry tree with every reference replaced. */
  lemma ImportReadsEntire(env: Env, d: Document, v: Json)
    requires d.Flat() && ImportXml(env, DocumentEvents(d)) == Ok(v)
    ensures d.Fits() && d.trees != [] && NodeOf(env, Entire(env, d)) == Ok(v)
    ensures Height(v) <= MAX_DEPTH + 1
  {
    hide FeedAll, TreesRead, NodeOf, SubTrees.Expand, Height, Unfolded, DocumentEvents, FindAttr, Backs;
    DocumentParses(env, d);
    var st := DocumentRead(env, d).value;
    var trees := TreesRead(env, d.trees).value;
    ElementsBackTrees(env, d.trees);
    EntryIsEntryElement(env, d);
    var entry := Entry(st).value;
    UnfoldedReads(env, ElementsById(d.trees), ById(trees), EntryElement(d), [], 0);
    ExpandedHeight(ById(trees), entry, [], 0);
  }

  lemma EntryIsEntryElement(env: Env, d: Document)
    requires DocumentRead(env, d).Ok? && Entry(DocumentRead(env, d).value).Ok?
    ensures d.trees != [] && NodeOf(env, EntryElement(d)) == Ok(Entry(DocumentRead(env, d).value).value)
  {
    hide NodeOf, FindAttr, ReadAttrs;
    ElementsBackTrees(env, d.trees);
    var trees := TreesRead(env, d.trees).value;
    if |d.trees| > 0 {
      assert TreeRead(env, d.trees[0]) == Ok(trees[0]);
    }
  }

  /** Reading a document and writing it back: what was imported can be exported exactly when each element
      can be, whatever its depth; the export is the same containers around the rewritten elements; and
      they are the elements that were read exactly when each one survives. */
  lemma ReExport(env: Env, d: Document, v: Json)
    requires env.Lawful() && d.Flat() && ImportXml(env, DocumentEvents(d)) == Ok(v)
    ensures d.trees != []
    ensures var e := Entire(env, d);
      && (ExportXml(env, v).Ok? <==> AllWrite(env, e))
      && (AllWrite(env, e) ==>
            && ExportXml(env, v) == Ok([RootStart(), TreeStart()] + Events(Rewritten(env, e)) + [End("BehaviorTree"), End("root")])
            && (SameElements(env, e, Rewritten(env, e)) <==> AllSurvive(e)))
  {
    hide ImportXml, DocumentEvents, Entire, NodeOf, PrintNode, Height, AllWrite, Events, Rewritten, AllSurvive;
    ImportReadsEntire(env, d, v);
    var e := Entire(env, d);
    WrittenIff(env, e, 0);
    if AllWrite(env, e) {
      ElementsSurviveIff(env, e);
    }
  }
}
