/** Tree JSON to BehaviorTree.CPP v4 XML, as the sequence of XML events the writer emits. */
module BehaviorXmlWriter {
  import opened Wrappers
  import opened Json
  import opened Decimals
  import opened KindTable
  import opened TagNames
  import opened XmlText
  import Numerals

  const MAX_DEPTH: nat := 64
  const MAIN_TREE := "MainTree"
  const RESERVED: set<string> := {"kind", "child", "children"}
  const SUBTREE := "__subtree"

  /** A name and its value. In an `Event` the value is escaped text. */
  datatype Attr = Attr(name: string, text: string)

  datatype Event =
    | Start(tag: string, attrs: seq<Attr>)
    | Empty(tag: string, attrs: seq<Attr>)
    | End(tag: string)

  datatype WriteError =
    | TooDeep
    | NotAnObject
    | MissingKind
    | UnknownRequire(value: string)
    | NeedsWholeNumber(kind: string)
    | NeedsSeconds(kind: string)
    | LeafWithSubtree(kind: string)
    | NeedsChildren(kind: string)
    | NeedsChild(kind: string)
    | ForeignWithChild(kind: string)
    | ChildrenNotAnArray(kind: string)

  // ----- Attributes -----

  function Escaped(attrs: seq<Attr>): (r: seq<Attr>)
    ensures |r| == |attrs|
    ensures forall i :: 0 <= i < |r| ==> r[i] == Attr(attrs[i].name, EscapeText(attrs[i].text))
  {
    seq(|attrs|, i requires 0 <= i < |attrs| => Attr(attrs[i].name, EscapeText(attrs[i].text)))
  }

  /** The fields of a node that ride as attributes, in iteration order, without `skip`. */
  function Ports(env: Env, names: seq<string>, obj: map<string, Json>, skip: set<string>): seq<Attr> {
    if names == [] then []
    else if names[0] in obj && names[0] !in RESERVED && names[0] !in skip then
      [Attr(names[0], AttrFromValue(env, obj[names[0]]))] + Ports(env, names[1..], obj, skip)
    else
      Ports(env, names[1..], obj, skip)
  }

  /** `whole_field`: a whole, non-negative count; the cast to `i64` saturates. */
  function WholeField(obj: map<string, Json>, kind: string): Result<string, WriteError> {
    if "times" in obj && obj["times"].Num? then
      var n := obj["times"].number.AsDecimal();
      if IsWhole(n) && WholeValue(n) >= 0 then
        Ok(Numerals.ShowInt(if WholeValue(n) > Numerals.I64_MAX then Numerals.I64_MAX else WholeValue(n)))
      else
        Err(NeedsWholeNumber(kind))
    else
      Err(NeedsWholeNumber(kind))
  }

  /** `secs_field`: defaults to one second. */
  function SecsField(obj: map<string, Json>, kind: string): Result<Decimal, WriteError> {
    match Get(obj, "seconds")
    case None => Ok(Dec(1, 0))
    case Some(Num(n)) => Ok(n.AsDecimal())
    case Some(_) => Err(NeedsSeconds(kind))
  }

  /** Spec fields that have another name in XML, and the keys they use up. */
  datatype Renamed = Renamed(extra: seq<Attr>, consumed: set<string>)

  function RenamedFields(env: Env, kind: string, obj: map<string, Json>): Result<Renamed, WriteError> {
    if kind == "parallel" then
      var require := match GetStr(obj, "require") case Some(s) => s case None => "all";
      if require == "all" then Ok(Renamed([Attr("success_count", "-1")], {"require"}))
      else if require == "one" then Ok(Renamed([Attr("success_count", "1")], {"require"}))
      else Err(UnknownRequire(require))
    else if kind == "forever" then
      Ok(Renamed([Attr("num_cycles", "-1")], {}))
    else if kind == "repeat" then
      var count :- WholeField(obj, kind);
      Ok(Renamed([Attr("num_cycles", count)], {"times"}))
    else if kind == "retry" then
      var count :- WholeField(obj, kind);
      Ok(Renamed([Attr("num_attempts", count)], {"times"}))
    else if kind == "timeout" then
      var secs :- SecsField(obj, kind);
      Ok(Renamed([Attr("msec", NumText(env.decimals, Scaled(secs, 3)))], {"seconds"}))
    else if kind == "cooldown" then
      var secs :- SecsField(obj, kind);
      Ok(Renamed([Attr("sec", NumText(env.decimals, secs))], {"seconds"}))
    else
      Ok(Renamed([], {}))
  }

  function TagOf(km: KindMap): string {
    match km.elem
    case Tag(t) => t
    case Action => "Action"
    case Condition => "Condition"
  }

  /** All attributes of a known element, not yet escaped. */
  function KnownAttrs(env: Env, km: KindMap, obj: map<string, Json>, renamed: Renamed): seq<Attr> {
    (if km.elem.Tag? then [] else [Attr("ID", km.kind)])
    + renamed.extra
    + Ports(env, env.order(obj.Keys), obj, renamed.consumed)
  }

  // ----- Nodes -----

  function Enclosed(tag: string, attrs: seq<Attr>, inner: Result<seq<Event>, WriteError>)
    : Result<seq<Event>, WriteError>
  {
    match inner
    case Ok(events) => Ok([Start(tag, attrs)] + events + [End(tag)])
    case Err(e) => Err(e)
  }

  function PrintNode(env: Env, node: Json, depth: nat): Result<seq<Event>, WriteError>
    decreases node, 2
  {
    if depth > MAX_DEPTH then Err(TooDeep)
    else if !node.Obj? then Err(NotAnObject)
    else
      match GetStr(node.fields, "kind")
      case None => Err(MissingKind)
      case Some(kind) =>
        match ByKind(kind)
        case Some(km) => PrintKnown(env, km, node, depth)
        case None => PrintForeign(env, kind, node, depth)
  }

  function PrintKnown(env: Env, km: KindMap, node: Json, depth: nat): Result<seq<Event>, WriteError>
    requires node.Obj?
    decreases node, 1
  {
    var obj := node.fields;
    var renamed :- RenamedFields(env, km.kind, obj);
    PrintElement(env, km, node, Escaped(KnownAttrs(env, km, obj, renamed)), depth)
  }

  /** The element of a known kind, with its subtree in the slot the kind's shape names. */
  function PrintElement(env: Env, km: KindMap, node: Json, attrs: seq<Attr>, depth: nat)
    : Result<seq<Event>, WriteError>
    requires node.Obj?
    decreases node, 0
  {
    var obj := node.fields;
    var tag := TagOf(km);
    match km.shape
    case Leaf =>
      if "child" in obj || "children" in obj then Err(LeafWithSubtree(km.kind)) else Ok([Empty(tag, attrs)])
    case Control =>
      if "children" in obj && obj["children"].Arr? then
        Enclosed(tag, attrs, PrintAll(env, obj["children"].items, depth + 1))
      else
        Err(NeedsChildren(km.kind))
    case Decorator =>
      if "child" in obj && obj["child"] != Null then
        Enclosed(tag, attrs, PrintNode(env, obj["child"], depth + 1))
      else
        Err(NeedsChild(km.kind))
  }

  function PrintForeign(env: Env, kind: string, node: Json, depth: nat): Result<seq<Event>, WriteError>
    requires node.Obj?
    decreases node, 1
  {
    var obj := node.fields;
    var ports := Ports(env, env.order(obj.Keys), obj, {});
    if "children" !in obj then
      if "child" in obj then Err(ForeignWithChild(kind))
      else Ok([Empty("Action", Escaped([Attr("ID", kind)] + ports))])
    else if obj["children"].Arr? then
      Enclosed(Camel(kind), Escaped(ports), PrintAll(env, obj["children"].items, depth + 1))
    else
      Err(ChildrenNotAnArray(kind))
  }

  function PrintAll(env: Env, nodes: seq<Json>, depth: nat): Result<seq<Event>, WriteError>
    decreases nodes
  {
    if nodes == [] then Ok([])
    else
      var first :- PrintNode(env, nodes[0], depth);
      var rest :- PrintAll(env, nodes[1..], depth);
      Ok(first + rest)
  }

  function RootStart(): Event {
    Start("root", Escaped([Attr("BTCPP_format", "4"), Attr("main_tree_to_execute", MAIN_TREE)]))
  }

  function TreeStart(): Event {
    Start("BehaviorTree", Escaped([Attr("ID", MAIN_TREE)]))
  }

  /** `value_to_xml`. */
  function ExportXml(env: Env, root: Json): Result<seq<Event>, WriteError> {
    var inner :- PrintNode(env, root, 0);
    Ok([RootStart(), TreeStart()] + inner + [End("BehaviorTree"), End("root")])
  }

  /** What a writing method leaves behind: the printed events on success, the error and some partial
      output otherwise. */
  ghost predicate Wrote(
    before: seq<Event>, after: seq<Event>, printed: Result<seq<Event>, WriteError>, r: Result<(), WriteError>)
  {
    match printed
    case Ok(events) => r.Ok? && after == before + events
    case Err(e) => r == Err(e) && before <= after
  }

  lemma EnclosedWrote(
    before: seq<Event>, inside: seq<Event>, after: seq<Event>, tag: string, attrs: seq<Attr>,
    printed: Result<seq<Event>, WriteError>, r: Result<(), WriteError>)
    requires Wrote(before + [Start(tag, attrs)], inside, printed, r)
    requires after == if r.Ok? then inside + [End(tag)] else inside
    ensures Wrote(before, after, Enclosed(tag, attrs, printed), r)
  {
    if printed.Ok? {
      assert after == before + ([Start(tag, attrs)] + printed.value + [End(tag)]);
    }
  }

  /** What is left to print after the first `i` children came out as `written`. */
  ghost predicate PrintedSoFar(env: Env, nodes: seq<Json>, depth: nat, i: nat, written: seq<Event>)
    requires i <= |nodes|
  {
    match PrintAll(env, nodes[i..], depth)
    case Ok(rest) => PrintAll(env, nodes, depth) == Ok(written + rest)
    case Err(e) => PrintAll(env, nodes, depth) == Err(e)
  }

  lemma PrintAllStep(env: Env, nodes: seq<Json>, depth: nat, i: nat, written: seq<Event>)
    requires i < |nodes| && PrintedSoFar(env, nodes, depth, i, written)
    ensures PrintNode(env, nodes[i], depth).Err? ==>
      PrintAll(env, nodes, depth) == Err(PrintNode(env, nodes[i], depth).error)
    ensures PrintNode(env, nodes[i], depth).Ok? ==>
      PrintedSoFar(env, nodes, depth, i + 1, written + PrintNode(env, nodes[i], depth).value)
  {
    assert nodes[i..][0] == nodes[i] && nodes[i..][1..] == nodes[i + 1..];
    var first := PrintNode(env, nodes[i], depth);
    var rest := PrintAll(env, nodes[i + 1..], depth);
    if first.Ok? && rest.Ok? {
      assert PrintAll(env, nodes[i..], depth) == Ok(first.value + rest.value);
      assert written + (first.value + rest.value) == (written + first.value) + rest.value;
    }
  }

  // ----- The writer as the source runs it: events are appended to one buffer -----

  class XmlWriter {
    var events: seq<Event>

    constructor ()
      ensures events == []
    {
      events := [];
    }

    method WriteEvent(e: Event)
      modifies this
      ensures events == old(events) + [e]
    {
      events := events + [e];
    }

    method WriteNode(env: Env, node: Json, depth: nat) returns (r: Result<(), WriteError>)
      modifies this
      ensures Wrote(old(events), events, PrintNode(env, node, depth), r)
      decreases node, 2
    {
      if depth > MAX_DEPTH {
        return Err(TooDeep);
      }
      if !node.Obj? {
        return Err(NotAnObject);
      }
      match GetStr(node.fields, "kind")
      case None =>
        r := Err(MissingKind);
      case Some(kind) =>
        match ByKind(kind)
        case Some(km) =>
          r := WriteKnown(env, km, node, depth);
        case None =>
          r := WriteForeign(env, kind, node, depth);
    }

    method WriteKnown(env: Env, km: KindMap, node: Json, depth: nat) returns (r: Result<(), WriteError>)
      requires node.Obj?
      modifies this
      ensures Wrote(old(events), events, PrintKnown(env, km, node, depth), r)
      decreases node, 1
    {
      var obj := node.fields;
      var fields := RenamedFields(env, km.kind, obj);
      if fields.Err? {
        return Err(fields.error);
      }
      r := WriteElement(env, km, node, Escaped(KnownAttrs(env, km, obj, fields.value)), depth);
    }

    method WriteElement(env: Env, km: KindMap, node: Json, attrs: seq<Attr>, depth: nat)
      returns (r: Result<(), WriteError>)
      requires node.Obj?
      modifies this
      ensures Wrote(old(events), events, PrintElement(env, km, node, attrs, depth), r)
      decreases node, 0
    {
      var obj := node.fields;
      var tag := TagOf(km);
      match km.shape
      case Leaf =>
        if "child" in obj || "children" in obj {
          return Err(LeafWithSubtree(km.kind));
        }
        WriteEvent(Empty(tag, attrs));
        r := Ok(());
      case Control =>
        if "children" !in obj || !obj["children"].Arr? {
          return Err(NeedsChildren(km.kind));
        }
        r := WriteControl(env, tag, attrs, obj["children"].items, depth);
      case Decorator =>
        if "child" !in obj || obj["child"] == Null {
          return Err(NeedsChild(km.kind));
        }
        r := WriteDecorator(env, tag, attrs, obj["child"], depth);
    }

    method WriteControl(env: Env, tag: string, attrs: seq<Attr>, children: seq<Json>, depth: nat)
      returns (r: Result<(), WriteError>)
      modifies this
      ensures Wrote(old(events), events, Enclosed(tag, attrs, PrintAll(env, children, depth + 1)), r)
      decreases children, 1
    {
      WriteEvent(Start(tag, attrs));
      r := WriteAll(env, children, depth + 1);
      ghost var inside := events;
      if r.Ok? {
        WriteEvent(End(tag));
      }
      EnclosedWrote(old(events), inside, events, tag, attrs, PrintAll(env, children, depth + 1), r);
    }

    method WriteDecorator(env: Env, tag: string, attrs: seq<Attr>, child: Json, depth: nat)
      returns (r: Result<(), WriteError>)
      modifies this
      ensures Wrote(old(events), events, Enclosed(tag, attrs, PrintNode(env, child, depth + 1)), r)
      decreases child, 3
    {
      WriteEvent(Start(tag, attrs));
      r := WriteNode(env, child, depth + 1);
      ghost var inside := events;
      if r.Ok? {
        WriteEvent(End(tag));
      }
      EnclosedWrote(old(events), inside, events, tag, attrs, PrintNode(env, child, depth + 1), r);
    }

    method WriteForeign(env: Env, kind: string, node: Json, depth: nat) returns (r: Result<(), WriteError>)
      requires node.Obj?
      modifies this
      ensures Wrote(old(events), events, PrintForeign(env, kind, node, depth), r)
      decreases node, 1
    {
      var obj := node.fields;
      var ports := Ports(env, env.order(obj.Keys), obj, {});
      if "children" !in obj {
        if "child" in obj {
          return Err(ForeignWithChild(kind));
        }
        WriteEvent(Empty("Action", Escaped([Attr("ID", kind)] + ports)));
        return Ok(());
      }
      if !obj["children"].Arr? {
        return Err(ChildrenNotAnArray(kind));
      }
      r := WriteControl(env, Camel(kind), Escaped(ports), obj["children"].items, depth);
    }

    /** `for c in children { write_node(…)?; }`. */
    method WriteAll(env: Env, nodes: seq<Json>, depth: nat) returns (r: Result<(), WriteError>)
      modifies this
      ensures Wrote(old(events), events, PrintAll(env, nodes, depth), r)
      decreases nodes, 0
    {
      hide PrintNode, PrintKnown, PrintForeign;
      ghost var written: seq<Event> := [];
      assert nodes[0..] == nodes;
      assert forall e: seq<Event> :: written + e == e;
      for i := 0 to |nodes|
        invariant events == old(events) + written
        invariant PrintedSoFar(env, nodes, depth, i, written)
      {
        PrintAllStep(env, nodes, depth, i, written);
        r := WriteNode(env, nodes[i], depth);
        if r.Err? {
          return;
        }
        written := written + PrintNode(env, nodes[i], depth).value;
      }
      assert nodes[|nodes|..] == [] && written + [] == written;
      r := Ok(());
    }

    /** `value_to_xml`, run on a fresh writer. */
    static method ValueToXml(env: Env, root: Json) returns (r: Result<seq<Event>, WriteError>)
      ensures r == ExportXml(env, root)
    {
      hide PrintNode, EscapeText;
      var w := new XmlWriter();
      w.WriteEvent(RootStart());
      w.WriteEvent(TreeStart());
      var node := w.WriteNode(env, root, 0);
      if node.Err? {
        return Err(node.error);
      }
      w.WriteEvent(End("BehaviorTree"));
      w.WriteEvent(End("root"));
      assert w.events == [RootStart(), TreeStart()] + PrintNode(env, root, 0).value + [End("BehaviorTree"), End("root")];
      r := Ok(w.events);
    }
  }
}
