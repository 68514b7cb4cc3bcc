/** BehaviorTree.CPP documents as trees of elements, and what the event parser makes of them. */
module BehaviorXmlElements {
  import opened Wrappers
  import opened Arithmetic
  import opened Json
  import opened KindTable
  import opened BehaviorXmlWriter
  import opened BehaviorXmlReader
  import opened BehaviorXmlRoundTrip

  /** One element with its escaped attributes: `<X …/>`, or a start and an end tag around other elements. */
  datatype Element =
    | Bare(tag: string, raw: seq<Attr>)
    | Around(tag: string, raw: seq<Attr>, inner: seq<Element>)
  {
    function Children(): seq<Element> {
      if Bare? then [] else inner
    }
  }

  function Events(e: Element): seq<Event> {
    match e
    case Bare(tag, raw) => [Empty(tag, raw)]
    case Around(tag, raw, inner) => [Start(tag, raw)] + EventsAll(inner) + [End(tag)]
  }

  function EventsAll(es: seq<Element>): seq<Event> {
    if es == [] then [] else Events(es[0]) + EventsAll(es[1..])
  }

  /** The node an element stands for: its attributes are read first, then what it encloses. */
  function NodeOf(env: Env, e: Element): Result<Json, ReadError> {
    var attrs :- ReadAttrs(e.raw);
    match e
    case Bare(tag, _) => FrameToValue(env, tag, attrs, [])
    case Around(tag, _, inner) =>
      var kids :- NodesOf(env, inner);
      FrameToValue(env, tag, attrs, kids)
  }

  function NodesOf(env: Env, es: seq<Element>): (r: Result<seq<Json>, ReadError>)
    ensures r.Ok? ==> |r.value| == |es|
    ensures r.Ok? ==> forall i :: 0 <= i < |es| ==> NodeOf(env, es[i]) == Ok(r.value[i])
  {
    if es == [] then Ok([])
    else
      var first :- NodeOf(env, es[0]);
      var rest :- NodesOf(env, es[1..]);
      Ok([first] + rest)
  }

  /** Elements that are open at once below the one around them. */
  function OpenLevels(e: Element): nat {
    match e
    case Bare(_, _) => 0
    case Around(_, _, inner) => 1 + OpenLevelsAll(inner)
  }

  function OpenLevelsAll(es: seq<Element>): nat {
    if es == [] then 0 else Max(OpenLevels(es[0]), OpenLevelsAll(es[1..]))
  }

  /** `<root>` and `<BehaviorTree>` occur nowhere in it. */
  predicate NoContainer(e: Element) {
    !Container(e.tag) && (e.Around? ==> NoContainers(e.inner))
  }

  predicate NoContainers(es: seq<Element>) {
    forall i :: 0 <= i < |es| ==> NoContainer(es[i])
  }

  // ----- The parser computes what the recursion computes -----

  /** What the reader must do with an element or a list of elements that stand for `nodes`. */
  ghost predicate Parsed(st: Import, nodes: Result<seq<Json>, ReadError>, got: Result<Import, ReadError>)
    requires st.stack != []
  {
    match nodes
    case Ok(vs) => got == Ok(AttachAll(st, vs))
    case Err(x) => got == Err(x)
  }

  function Single(r: Result<Json, ReadError>): Result<seq<Json>, ReadError> {
    match r
    case Ok(v) => Ok([v])
    case Err(x) => Err(x)
  }

  lemma BareParses(env: Env, st: Import, e: Element)
    requires st.stack != [] && e.Bare? && !Container(e.tag)
    ensures Parsed(st, Single(NodeOf(env, e)), FeedAll(env, st, Events(e)))
  {
    var events := Events(e);
    assert events[1..] == [];
  }

  /** What happens to an open element once its contents are known. */
  lemma AroundParses(env: Env, st: Import, e: Element)
    requires st.stack != [] && e.Around? && !Container(e.tag) && |st.stack| < MAX_DEPTH
    requires ReadAttrs(e.raw).Ok? ==>
      var inside := st.(stack := st.stack + [Frame(e.tag, ReadAttrs(e.raw).value, [])]);
      Parsed(inside, NodesOf(env, e.inner), FeedAll(env, inside, EventsAll(e.inner)))
    ensures Parsed(st, Single(NodeOf(env, e)), FeedAll(env, st, Events(e)))
  {
    hide FrameToValue, ReadAttrs, NodesOf, Container;
    var open, inner, end := [Start(e.tag, e.raw)], EventsAll(e.inner), [End(e.tag)];
    FeedAllConcat(env, st, open, inner);
    FeedAllConcat(env, st, open + inner, end);
    assert open[1..] == [];
    if ReadAttrs(e.raw).Ok? {
      var frame := Frame(e.tag, ReadAttrs(e.raw).value, []);
      var inside := st.(stack := st.stack + [frame]);
      assert FeedAll(env, st, open) == Ok(inside);
      if NodesOf(env, e.inner).Ok? {
        var kids := NodesOf(env, e.inner).value;
        FrameCloses(env, st, frame, kids);
      }
    } else {
      assert FeedAll(env, st, open) == Err(ReadAttrs(e.raw).error);
    }
  }

  lemma FrameCloses(env: Env, st: Import, frame: Frame, kids: seq<Json>)
    requires st.stack != [] && frame.children == [] && !Container(frame.tag)
    ensures Parsed(st, Single(FrameToValue(env, frame.tag, frame.attrs, kids)),
      FeedAll(env, AttachAll(st.(stack := st.stack + [frame]), kids), [End(frame.tag)]))
  {
    hide FrameToValue;
    var inside := st.(stack := st.stack + [frame]);
    var filled := AttachAll(inside, kids);
    assert [] + kids == kids;
    assert inside.stack[..|inside.stack| - 1] == st.stack;
    assert filled.stack == st.stack + [Frame(frame.tag, frame.attrs, kids)];
    assert filled.stack[..|filled.stack| - 1] == st.stack;
    assert [End(frame.tag)][1..] == [];
  }

  /** Fed the events of an element, the reader hangs the element's node under the open frame, or gives
      the very error the recursion gives; without room for the elements open at once it fails. */
  lemma {:induction false} ElementParses(env: Env, st: Import, e: Element)
    requires NoContainer(e) && st.stack != []
    ensures HasRoom(st, OpenLevels(e)) ==> Parsed(st, Single(NodeOf(env, e)), FeedAll(env, st, Events(e)))
    ensures !HasRoom(st, OpenLevels(e)) ==> FeedAll(env, st, Events(e)).Err?
    decreases e, 1
  {
    hide FrameToValue, FeedAll, ReadAttrs, Container;
    if e.Bare? {
      BareParses(env, st, e);
    } else if |st.stack| >= MAX_DEPTH {
      StartRefused(env, st, e.tag, e.raw, EventsAll(e.inner), [End(e.tag)]);
    } else {
      if ReadAttrs(e.raw).Ok? {
        ElementsParse(env, st.(stack := st.stack + [Frame(e.tag, ReadAttrs(e.raw).value, [])]), e, e.inner);
      }
      if HasRoom(st, OpenLevels(e)) {
        AroundParses(env, st, e);
      } else {
        AroundRefused(env, st, e);
      }
    }
  }

  lemma AroundRefused(env: Env, st: Import, e: Element)
    requires e.Around? && |st.stack| < MAX_DEPTH
    requires ReadAttrs(e.raw).Ok? ==>
      FeedAll(env, st.(stack := st.stack + [Frame(e.tag, ReadAttrs(e.raw).value, [])]), EventsAll(e.inner)).Err?
    ensures FeedAll(env, st, Events(e)).Err?
  {
    hide ReadAttrs;
    var open, inner, end := [Start(e.tag, e.raw)], EventsAll(e.inner), [End(e.tag)];
    FeedAllConcat(env, st, open, inner);
    FeedAllConcat(env, st, open + inner, end);
    assert open[1..] == [];
  }

  lemma {:induction false} ElementsParse(env: Env, st: Import, parent: Element, es: seq<Element>)
    requires NoContainers(es) && st.stack != []
    requires forall e :: e in es ==> e < parent
    ensures HasRoom(st, OpenLevelsAll(es)) ==> Parsed(st, NodesOf(env, es), FeedAll(env, st, EventsAll(es)))
    ensures !HasRoom(st, OpenLevelsAll(es)) ==> FeedAll(env, st, EventsAll(es)).Err?
    decreases parent, 0, |es|
  {
    hide NoContainer, NodeOf, Events, OpenLevels, Feed, FeedAll;
    if es == [] {
      AttachNothing(st);
      FeedNothing(env, st);
    } else {
      var first, rest := Events(es[0]), EventsAll(es[1..]);
      assert es[0] in es;
      ElementParses(env, st, es[0]);
      FeedAllConcat(env, st, first, rest);
      if HasRoom(st, OpenLevels(es[0])) && NodeOf(env, es[0]).Ok? {
        var v := NodeOf(env, es[0]).value;
        var next := AttachAll(st, [v]);
        assert |next.stack| == |st.stack|;
        assert forall e :: e in es[1..] ==> e in es;
        ElementsParse(env, next, parent, es[1..]);
        if NodesOf(env, es[1..]).Ok? {
          AttachInTurn(st, v, NodesOf(env, es[1..]).value);
        }
      }
    }
  }

  // ----- Documents -----

  /** One `<BehaviorTree>` around one element, and a `<root>` around any number of them. */
  datatype Tree = Tree(raw: seq<Attr>, node: Element)

  datatype Document = Document(raw: seq<Attr>, trees: seq<Tree>) {
    predicate Flat() {
      forall i :: 0 <= i < |trees| ==> NoContainer(trees[i].node)
    }

    /** No tree opens more elements at once than the reader has room for inside the two containers. */
    predicate Fits() {
      forall i :: 0 <= i < |trees| ==> OpenLevels(trees[i].node) <= MAX_DEPTH - 2
    }
  }

  function TreeEvents(t: Tree): seq<Event> {
    [Start("BehaviorTree", t.raw)] + Events(t.node) + [End("BehaviorTree")]
  }

  function TreeEventsAll(ts: seq<Tree>): seq<Event> {
    if ts == [] then [] else TreeEvents(ts[0]) + TreeEventsAll(ts[1..])
  }

  function DocumentEvents(d: Document): seq<Event> {
    [Start("root", d.raw)] + TreeEventsAll(d.trees) + [End("root")]
  }

  function IdIn(attrs: seq<Attr>): string {
    match FindAttr(attrs, "ID")
    case Some(id) => id
    case None => ""
  }

  function TreeRead(env: Env, t: Tree): Result<(string, Json), ReadError> {
    var attrs :- ReadAttrs(t.raw);
    var node :- NodeOf(env, t.node);
    Ok((IdIn(attrs), node))
  }

  function TreesRead(env: Env, ts: seq<Tree>): (r: Result<seq<(string, Json)>, ReadError>)
    ensures r.Ok? ==> |r.value| == |ts|
    ensures r.Ok? ==> forall i :: 0 <= i < |ts| ==> TreeRead(env, ts[i]) == Ok(r.value[i])
  {
    if ts == [] then Ok([])
    else
      var first :- TreeRead(env, ts[0]);
      var rest :- TreesRead(env, ts[1..]);
      Ok([first] + rest)
  }

  function DocumentRead(env: Env, d: Document): Result<Import, ReadError> {
    var attrs :- ReadAttrs(d.raw);
    var trees :- TreesRead(env, d.trees);
    Ok(Import([], trees, FindAttr(attrs, "main_tree_to_execute")))
  }

  /** The reader's state right inside `<root>`, with the trees read so far. */
  function InRoot(root: seq<Attr>, trees: seq<(string, Json)>): Import {
    Import([Frame("root", root, [])], trees, None)
  }

  ghost predicate TreesParsed(
    root: seq<Attr>, before: seq<(string, Json)>, read: Result<seq<(string, Json)>, ReadError>,
    got: Result<Import, ReadError>)
  {
    match read
    case Ok(trees) => got == Ok(InRoot(root, before + trees))
    case Err(x) => got == Err(x)
  }

  function SingleTree(r: Result<(string, Json), ReadError>): Result<seq<(string, Json)>, ReadError> {
    match r
    case Ok(t) => Ok([t])
    case Err(x) => Err(x)
  }

  lemma TreeCloses(env: Env, root: seq<Attr>, before: seq<(string, Json)>, attrs: seq<Attr>, v: Json)
    ensures var open := Import([Frame("root", root, []), Frame("BehaviorTree", attrs, [])], before, None);
      FeedAll(env, AttachAll(open, [v]), [End("BehaviorTree")]) == Ok(InRoot(root, before + [(IdIn(attrs), v)]))
  {
    var bottom := Frame("root", root, []);
    var open := Import([bottom, Frame("BehaviorTree", attrs, [])], before, None);
    var filled := AttachAll(open, [v]);
    assert open.stack[..1] == [bottom] && [] + [v] == [v];
    assert filled.stack == [bottom, Frame("BehaviorTree", attrs, [v])];
    assert filled.stack[..1] == [bottom];
    assert [End("BehaviorTree")][1..] == [];
  }

  lemma TreeParses(env: Env, root: seq<Attr>, before: seq<(string, Json)>, t: Tree)
    requires NoContainer(t.node)
    ensures OpenLevels(t.node) <= MAX_DEPTH - 2 ==>
      TreesParsed(root, before, SingleTree(TreeRead(env, t)), FeedAll(env, InRoot(root, before), TreeEvents(t)))
    ensures OpenLevels(t.node) > MAX_DEPTH - 2 ==> FeedAll(env, InRoot(root, before), TreeEvents(t)).Err?
  {
    hide ReadAttrs, NodeOf, Events, FindAttr, NoContainer, OpenLevels;
    var st := InRoot(root, before);
    var open, inner, end := [Start("BehaviorTree", t.raw)], Events(t.node), [End("BehaviorTree")];
    FeedAllConcat(env, st, open, inner);
    FeedAllConcat(env, st, open + inner, end);
    assert open[1..] == [];
    if ReadAttrs(t.raw).Ok? {
      var attrs := ReadAttrs(t.raw).value;
      var inside := Import([Frame("root", root, []), Frame("BehaviorTree", attrs, [])], before, None);
      assert FeedAll(env, st, open) == Ok(inside) by {
        assert st.stack + [Frame("BehaviorTree", attrs, [])] == inside.stack;
      }
      ElementParses(env, inside, t.node);
      if NodeOf(env, t.node).Ok? {
        TreeCloses(env, root, before, attrs, NodeOf(env, t.node).value);
      }
    } else {
      assert FeedAll(env, st, open) == Err(ReadAttrs(t.raw).error);
    }
  }

  lemma {:induction false} TreesParse(env: Env, root: seq<Attr>, before: seq<(string, Json)>, ts: seq<Tree>)
    requires forall i :: 0 <= i < |ts| ==> NoContainer(ts[i].node)
    ensures (forall i :: 0 <= i < |ts| ==> OpenLevels(ts[i].node) <= MAX_DEPTH - 2) ==>
      TreesParsed(root, before, TreesRead(env, ts), FeedAll(env, InRoot(root, before), TreeEventsAll(ts)))
    ensures (exists i :: 0 <= i < |ts| && OpenLevels(ts[i].node) > MAX_DEPTH - 2) ==>
      FeedAll(env, InRoot(root, before), TreeEventsAll(ts)).Err?
    decreases |ts|
  {
    hide NoContainer, OpenLevels, TreeRead, TreeEvents, Feed, FeedAll;
    if ts == [] {
      assert before + [] == before;
      FeedNothing(env, InRoot(root, before));
    } else {
      TreeParses(env, root, before, ts[0]);
      FeedAllConcat(env, InRoot(root, before), TreeEvents(ts[0]), TreeEventsAll(ts[1..]));
      assert forall i :: 0 < i < |ts| ==> ts[i] == ts[1..][i - 1];
      if OpenLevels(ts[0].node) <= MAX_DEPTH - 2 && TreeRead(env, ts[0]).Ok? {
        var first := TreeRead(env, ts[0]).value;
        TreesParse(env, root, before + [first], ts[1..]);
        if TreesRead(env, ts[1..]).Ok? {
          assert (before + [first]) + TreesRead(env, ts[1..]).value == before + ([first] + TreesRead(env, ts[1..]).value);
        }
      }
    }
  }

  /** A document is read tree by tree, element by element, or with the first error on the way; one that
      opens too many elements at once is refused. */
  lemma DocumentParses(env: Env, d: Document)
    requires d.Flat()
    ensures d.Fits() ==> FeedAll(env, EMPTY_IMPORT, DocumentEvents(d)) == DocumentRead(env, d)
    ensures !d.Fits() ==> FeedAll(env, EMPTY_IMPORT, DocumentEvents(d)).Err?
  {
    hide ReadAttrs, NoContainer, OpenLevels, FindAttr, TreesRead, TreeEventsAll;
    var open, inner, end := [Start("root", d.raw)], TreeEventsAll(d.trees), [End("root")];
    FeedAllConcat(env, EMPTY_IMPORT, open, inner);
    FeedAllConcat(env, EMPTY_IMPORT, open + inner, end);
    assert open[1..] == [] && end[1..] == [];
    if ReadAttrs(d.raw).Ok? {
      var root := ReadAttrs(d.raw).value;
      assert EMPTY_IMPORT.stack + [Frame("root", root, [])] == [Frame("root", root, [])];
      TreesParse(env, root, [], d.trees);
      if TreesRead(env, d.trees).Ok? {
        var trees := TreesRead(env, d.trees).value;
        assert [] + trees == trees;
        RootEndReads(env, Frame("root", root, []), trees);
      }
    } else {
      assert FeedAll(env, EMPTY_IMPORT, open) == Err(ReadAttrs(d.raw).error);
    }
  }
}
