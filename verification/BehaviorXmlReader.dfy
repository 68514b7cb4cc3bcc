/** BehaviorTree.CPP v4 XML events to tree JSON: a stack of open elements, a list of finished trees. */
module BehaviorXmlReader {
  import opened Wrappers
  import opened Json
  import opened Decimals
  import opened KindTable
  import opened TagNames
  import opened XmlText
  import opened BehaviorXmlWriter
  import SubTrees
  import Numerals

  datatype ReadError =
    | BadAttribute(name: string)
    | ElementsTooDeep
    | Unbalanced
    | NoTree
    | NoSuchMainTree(id: string)
    | SeveralTreesNoMain
    | TreeNeedsOneNode(id: string)
    | MissingId(tag: string)
    | LeafWithChildren(tag: string)
    | DecoratorNeedsOneChild(tag: string)
    | ReservedAttribute(tag: string, name: string)
    | NotExpandable(reason: SubTrees.ExpandError)

  /** An element that is still open. */
  datatype Frame = Frame(tag: string, attrs: seq<Attr>, children: seq<Json>)

  datatype Import = Import(stack: seq<Frame>, trees: seq<(string, Json)>, main: Option<string>)

  const EMPTY_IMPORT: Import := Import([], [], None)

  // ----- Attributes -----

  predicate HasAttr(attrs: seq<Attr>, name: string) {
    exists i :: 0 <= i < |attrs| && attrs[i].name == name
  }

  function FindAttr(attrs: seq<Attr>, name: string): (r: Option<string>)
    ensures r.Some? <==> HasAttr(attrs, name)
    ensures r.Some? ==> exists i :: 0 <= i < |attrs| && attrs[i] == Attr(name, r.value)
  {
    if attrs == [] then None
    else if attrs[0].name == name then Some(attrs[0].text)
    else
      var r := FindAttr(attrs[1..], name);
      assert attrs == [attrs[0]] + attrs[1..];
      r
  }

  /** `read_attrs`: values are normalised; a duplicate name or a bad reference is an error. */
  function ReadAttrs(raw: seq<Attr>): Result<seq<Attr>, ReadError> {
    if raw == [] then Ok([])
    else
      var last := raw[|raw| - 1];
      var earlier :- ReadAttrs(raw[..|raw| - 1]);
      match Normalised(last.text)
      case None => Err(BadAttribute(last.name))
      case Some(text) =>
        if HasAttr(earlier, last.name) then Err(BadAttribute(last.name)) else Ok(earlier + [Attr(last.name, text)])
  }

  /** `put_attrs`: every attribute but `ID` becomes a field; structural names are refused. */
  function PutAttrs(env: Env, m: map<string, Json>, attrs: seq<Attr>, tag: string): Result<map<string, Json>, ReadError>
  {
    if attrs == [] then Ok(m)
    else
      var last := attrs[|attrs| - 1];
      var earlier :- PutAttrs(env, m, attrs[..|attrs| - 1], tag);
      if last.name == "ID" then Ok(earlier)
      else if last.name in RESERVED then Err(ReservedAttribute(tag, last.name))
      else Ok(earlier[last.name := ValueFromAttr(env, last.text)])
  }

  function IntAttr(attrs: seq<Attr>, name: string, default: int): int {
    match FindAttr(attrs, name)
    case None => default
    case Some(text) =>
      match Numerals.ParseI64(text)
      case None => default
      case Some(n) => n
  }

  // ----- Elements -----

  /** The kind an element of the table stands for, with the spec fields its attributes carry. */
  function SpecFields(env: Env, km: KindMap, attrs: seq<Attr>): map<string, Json> {
    if km.kind == "parallel" then
      map["kind" := Str("parallel"),
          "require" := Str(if IntAttr(attrs, "success_count", -1) == 1 then "one" else "all")]
    else if km.kind == "repeat" then
      var cycles := IntAttr(attrs, "num_cycles", 1);
      if cycles < 0 then map["kind" := Str("forever")]
      else map["kind" := Str("repeat"), "times" := Num(IntNum(cycles))]
    else if km.kind == "retry" then
      var n := IntAttr(attrs, "num_attempts", 1);
      map["kind" := Str("retry"), "times" := Num(IntNum(if n < 0 then 0 else n))]
    else if km.kind == "timeout" then
      var secs := match FindAttr(attrs, "msec")
        case None => None
        case Some(text) => MsecToSecs(env.decimals, text);
      map["kind" := Str("timeout"), "seconds" := Num(FloatNum(if secs.Some? then secs.value else Dec(1, 0)))]
    else if km.kind == "cooldown" then
      var secs := match FindAttr(attrs, "sec")
        case None => None
        case Some(text) => env.decimals.read(text);
      map["kind" := Str("cooldown"), "seconds" := Num(FloatNum(if secs.Some? then secs.value else Dec(1, 0)))]
    else
      map["kind" := Str(km.kind)]
  }

  /** `frame_to_value`. */
  function FrameToValue(env: Env, tag: string, attrs: seq<Attr>, children: seq<Json>): Result<Json, ReadError> {
    if tag == "SubTree" then
      match FindAttr(attrs, "ID")
      case None => Err(MissingId(tag))
      case Some(id) => Ok(Obj(map[SUBTREE := Str(id)]))
    else if tag == "Action" || tag == "Condition" then
      match FindAttr(attrs, "ID")
      case None => Err(MissingId(tag))
      case Some(kind) =>
        if children != [] then Err(LeafWithChildren(tag))
        else
          var m :- PutAttrs(env, map["kind" := Str(kind)], attrs, tag);
          Ok(Obj(m))
    else
      match ByTag(tag)
      case None =>
        var m :- PutAttrs(env, map["kind" := Str(Snake(tag))], attrs, tag);
        Ok(Obj(m["children" := Arr(children)]))
      case Some(km) =>
        var m := SpecFields(env, km, attrs);
        match km.shape
        case Control => Ok(Obj(m["children" := Arr(children)]))
        case Decorator =>
          if |children| != 1 then Err(DecoratorNeedsOneChild(tag)) else Ok(Obj(m["child" := children[0]]))
        case Leaf =>
          if children != [] then Err(LeafWithChildren(tag)) else Ok(Obj(m))
  }

  /** A finished node goes to the element around it, or is a tree by itself. */
  function Attach(st: Import, node: Json): Import {
    if st.stack == [] then st.(trees := st.trees + [("", node)])
    else
      var top := st.stack[|st.stack| - 1];
      st.(stack := st.stack[..|st.stack| - 1] + [top.(children := top.children + [node])])
  }

  function Untitled(nodes: seq<Json>): seq<(string, Json)> {
    seq(|nodes|, i requires 0 <= i < |nodes| => ("", nodes[i]))
  }

  /** `close`. */
  function Close(env: Env, f: Frame, st: Import): Result<Import, ReadError> {
    if f.tag == "root" then
      Ok(Import(st.stack, st.trees + Untitled(f.children), FindAttr(f.attrs, "main_tree_to_execute")))
    else if f.tag == "BehaviorTree" then
      var id := match FindAttr(f.attrs, "ID") case Some(id) => id case None => "";
      if |f.children| != 1 then Err(TreeNeedsOneNode(id))
      else Ok(st.(trees := st.trees + [(id, f.children[0])]))
    else
      var node :- FrameToValue(env, f.tag, f.attrs, f.children);
      Ok(Attach(st, node))
  }

  // ----- The document -----

  function Feed(env: Env, st: Import, e: Event): Result<Import, ReadError> {
    match e
    case Start(tag, raw) =>
      if |st.stack| >= MAX_DEPTH then Err(ElementsTooDeep)
      else
        var attrs :- ReadAttrs(raw);
        Ok(st.(stack := st.stack + [Frame(tag, attrs, [])]))
    case Empty(tag, raw) =>
      var attrs :- ReadAttrs(raw);
      Close(env, Frame(tag, attrs, []), st)
    case End(_) =>
      if st.stack == [] then Err(Unbalanced)
      else Close(env, st.stack[|st.stack| - 1], st.(stack := st.stack[..|st.stack| - 1]))
  }

  function FeedAll(env: Env, st: Import, events: seq<Event>): Result<Import, ReadError>
    decreases |events|
  {
    if events == [] then Ok(st)
    else
      var next :- Feed(env, st, events[0]);
      FeedAll(env, next, events[1..])
  }

  /** The trees by ID: a later tree replaces an earlier one of the same ID. */
  function ById(trees: seq<(string, Json)>): map<string, Json> {
    if trees == [] then map[]
    else ById(trees[..|trees| - 1])[trees[|trees| - 1].0 := trees[|trees| - 1].1]
  }

  function Entry(st: Import): Result<Json, ReadError> {
    if st.stack != [] then Err(Unbalanced)
    else if st.trees == [] then Err(NoTree)
    else
      match st.main
      case Some(id) => if id in ById(st.trees) then Ok(ById(st.trees)[id]) else Err(NoSuchMainTree(id))
      case None => if |st.trees| == 1 then Ok(st.trees[0].1) else Err(SeveralTreesNoMain)
  }

  /** `xml_to_value`. */
  function ImportXml(env: Env, events: seq<Event>): Result<Json, ReadError> {
    var st :- FeedAll(env, EMPTY_IMPORT, events);
    var entry :- Entry(st);
    match SubTrees.Expand(ById(st.trees), entry, [], 0)
    case Ok(v) => Ok(v)
    case Err(e) => Err(NotExpandable(e))
  }

  // ----- The reader as the source runs it: one mutable stack, one mutable list of trees -----

  class Importer {
    var stack: seq<Frame>
    var trees: seq<(string, Json)>
    var main: Option<string>

    function State(): Import
      reads this
    {
      Import(stack, trees, main)
    }

    constructor ()
      ensures State() == EMPTY_IMPORT
    {
      stack, trees, main := [], [], None;
    }

    method CloseFrame(env: Env, f: Frame) returns (r: Result<(), ReadError>)
      modifies this
      ensures r.Ok? <==> Close(env, f, old(State())).Ok?
      ensures r.Ok? ==> State() == Close(env, f, old(State())).value
      ensures r.Err? ==> r.error == Close(env, f, old(State())).error
    {
      if f.tag == "root" {
        main := FindAttr(f.attrs, "main_tree_to_execute");
        ghost var before := trees;
        for i := 0 to |f.children|
          invariant trees == before + Untitled(f.children)[..i]
          invariant stack == old(stack) && main == FindAttr(f.attrs, "main_tree_to_execute")
        {
          trees := trees + [("", f.children[i])];
        }
        return Ok(());
      }
      if f.tag == "BehaviorTree" {
        var id := match FindAttr(f.attrs, "ID") case Some(id) => id case None => "";
        if |f.children| != 1 {
          return Err(TreeNeedsOneNode(id));
        }
        trees := trees + [(id, f.children[0])];
        return Ok(());
      }
      var node := FrameToValue(env, f.tag, f.attrs, f.children);
      if node.Err? {
        return Err(node.error);
      }
      if stack == [] {
        trees := trees + [("", node.value)];
      } else {
        var top := stack[|stack| - 1];
        stack := stack[..|stack| - 1] + [top.(children := top.children + [node.value])];
      }
      r := Ok(());
    }

    method Consume(env: Env, e: Event) returns (r: Result<(), ReadError>)
      modifies this
      ensures r.Ok? <==> Feed(env, old(State()), e).Ok?
      ensures r.Ok? ==> State() == Feed(env, old(State()), e).value
      ensures r.Err? ==> r.error == Feed(env, old(State()), e).error
    {
      match e
      case Start(tag, raw) =>
        if |stack| >= MAX_DEPTH {
          return Err(ElementsTooDeep);
        }
        var attrs := ReadAttrs(raw);
        if attrs.Err? {
          return Err(attrs.error);
        }
        stack := stack + [Frame(tag, attrs.value, [])];
        r := Ok(());
      case Empty(tag, raw) =>
        var attrs := ReadAttrs(raw);
        if attrs.Err? {
          return Err(attrs.error);
        }
        r := CloseFrame(env, Frame(tag, attrs.value, []));
      case End(_) =>
        if stack == [] {
          return Err(Unbalanced);
        }
        var f := stack[|stack| - 1];
        stack := stack[..|stack| - 1];
        r := CloseFrame(env, f);
    }

    static method XmlToValue(env: Env, events: seq<Event>) returns (r: Result<Json, ReadError>)
      ensures r == ImportXml(env, events)
    {
      var p := new Importer();
      for i := 0 to |events|
        invariant fresh(p)
        invariant FeedAll(env, EMPTY_IMPORT, events) == FeedAll(env, p.State(), events[i..])
      {
        assert events[i..][0] == events[i] && events[i..][1..] == events[i + 1..];
        var step := p.Consume(env, events[i]);
        if step.Err? {
          return Err(step.error);
        }
      }
      assert events[|events|..] == [];
      var st := Import(p.stack, p.trees, p.main);
      var entry := Entry(st);
      if entry.Err? {
        return Err(entry.error);
      }
      var expander := new SubTrees.Expander(ById(st.trees));
      var out := expander.Run(entry.value, 0);
      r := match out case Ok(v) => Ok(v) case Err(e) => Err(NotExpandable(e));
    }
  }
}
