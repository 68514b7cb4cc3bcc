/** Writing a behaviour tree as XML and reading it back. */
module BehaviorXmlRoundTrip {
  import opened Arithmetic
  import opened Wrappers
  import opened Json
  import opened Decimals
  import opened KindTable
  import opened TagNames
  import opened XmlText
  import opened BehaviorXmlWriter
  import opened BehaviorXmlReader
  import SubTrees
  import Numerals

  // ----- Canonical trees: what the format carries in full -----

  /** Counts a double holds exactly. */
  const EXACT_COUNT: int := 0x20_0000_0000_0000

  /** The keys besides `kind` a kind with a dedicated element carries. */
  function SpecKeys(kind: string): set<string> {
    if kind == "parallel" then {"require"}
    else if kind == "repeat" || kind == "retry" then {"times"}
    else if kind == "timeout" || kind == "cooldown" then {"seconds"}
    else {}
  }

  predicate SpecFieldsValid(kind: string, m: map<string, Json>)
    requires SpecKeys(kind) <= m.Keys
  {
    if kind == "parallel" then
      m["require"] == Str("all") || m["require"] == Str("one")
    else if kind == "repeat" || kind == "retry" then
      m["times"].Num? && m["times"].number.IntNum? && 0 <= m["times"].number.i <= EXACT_COUNT
    else if kind == "timeout" || kind == "cooldown" then
      m["seconds"].Num? && m["seconds"].number.FloatNum?
    else true
  }

  function SlotKeys(shape: Shape): set<string> {
    match shape
    case Control => {"children"}
    case Decorator => {"child"}
    case Leaf => {}
  }

  /** A leaf named by its `ID`: any ports but the structural ones and the `SubTree` marker. */
  predicate CanonicalLeaf(m: map<string, Json>) {
    "ID" !in m && "child" !in m && "children" !in m && GetStr(m, SUBTREE).None?
  }

  ghost predicate Canonical(v: Json) {
    && v.Obj?
    && GetStr(v.fields, "kind").Some?
    && var m, kind := v.fields, v.fields["kind"].s;
       match ByKind(kind)
       case Some(km) =>
         if km.elem.Tag? then
           && m.Keys == {"kind"} + SpecKeys(kind) + SlotKeys(km.shape)
           && SpecFieldsValid(kind, m)
           && (km.shape.Control? ==>
                 m["children"].Arr?
                 && forall i :: 0 <= i < |m["children"].items| ==> Canonical(m["children"].items[i]))
           && (km.shape.Decorator? ==> Canonical(m["child"]))
         else
           CanonicalLeaf(m)
       case None =>
         if "children" in m then
           && "ID" !in m && "child" !in m && GetStr(m, SUBTREE).None?
           && SnakeCase(kind) && !Structural(Camel(kind)) && ByTag(Camel(kind)).None?
           && m["children"].Arr?
           && forall i :: 0 <= i < |m["children"].items| ==> Canonical(m["children"].items[i])
         else
           CanonicalLeaf(m)
  }

  ghost predicate CanonicalAll(nodes: seq<Json>) {
    forall i :: 0 <= i < |nodes| ==> Canonical(nodes[i])
  }

  // ----- How deep a tree is -----

  /** Levels of nodes written with a start and an end tag. */
  function InteriorHeight(v: Json): nat {
    if !v.Obj? then 0
    else if "children" in v.fields && v.fields["children"].Arr? then 1 + InteriorHeightAll(v.fields["children"].items)
    else if "child" in v.fields then 1 + InteriorHeight(v.fields["child"])
    else 0
  }

  function InteriorHeightAll(nodes: seq<Json>): nat {
    if nodes == [] then 0 else Max(InteriorHeight(nodes[0]), InteriorHeightAll(nodes[1..]))
  }

  /** Levels of nodes. */
  function Height(v: Json): nat {
    if !v.Obj? then 1
    else if "children" in v.fields && v.fields["children"].Arr? then 1 + HeightAll(v.fields["children"].items)
    else if "child" in v.fields then 1 + Height(v.fields["child"])
    else 1
  }

  function HeightAll(nodes: seq<Json>): nat {
    if nodes == [] then 0 else Max(Height(nodes[0]), HeightAll(nodes[1..]))
  }

  lemma {:induction false} HeightIsInteriorPlusOne(v: Json)
    ensures InteriorHeight(v) <= Height(v) <= InteriorHeight(v) + 1
  {
    if v.Obj? {
      if "children" in v.fields && v.fields["children"].Arr? {
        HeightAllIsInteriorPlusOne(v.fields["children"].items);
      } else if "child" in v.fields {
        HeightIsInteriorPlusOne(v.fields["child"]);
      }
    }
  }

  lemma {:induction false} HeightAllIsInteriorPlusOne(nodes: seq<Json>)
    ensures InteriorHeightAll(nodes) <= HeightAll(nodes) <= InteriorHeightAll(nodes) + 1
  {
    if nodes != [] {
      HeightIsInteriorPlusOne(nodes[0]);
      HeightAllIsInteriorPlusOne(nodes[1..]);
    }
  }

  // ----- Attributes come back -----

  ghost predicate Distinct(attrs: seq<Attr>) {
    forall i, j :: 0 <= i < j < |attrs| ==> attrs[i].name != attrs[j].name
  }

  lemma {:induction false} ReadAttrsInvertsEscaped(attrs: seq<Attr>)
    requires Distinct(attrs)
    ensures ReadAttrs(Escaped(attrs)) == Ok(attrs)
  {
    hide Normalised, EscapeText;
    if attrs != [] {
      var n := |attrs| - 1;
      ReadAttrsInvertsEscaped(attrs[..n]);
      assert Escaped(attrs)[..n] == Escaped(attrs[..n]);
      NormalisedEscapeText(attrs[n].text);
      assert attrs == attrs[..n] + [attrs[n]];
    }
  }

  /** The ports of `obj`, each once, in some order. */
  ghost predicate ArePorts(env: Env, attrs: seq<Attr>, obj: map<string, Json>, skip: set<string>) {
    && Distinct(attrs)
    && (forall i :: 0 <= i < |attrs| ==>
          && attrs[i].name in obj && attrs[i].name !in RESERVED && attrs[i].name !in skip
          && attrs[i].text == AttrFromValue(env, obj[attrs[i].name]))
    && (forall k :: k in obj && k !in RESERVED && k !in skip ==> HasAttr(attrs, k))
  }

  lemma {:induction false} PortsFromNames(env: Env, names: seq<string>, obj: map<string, Json>, skip: set<string>)
    requires forall i, j :: 0 <= i < j < |names| ==> names[i] != names[j]
    ensures Distinct(Ports(env, names, obj, skip))
    ensures forall i :: 0 <= i < |Ports(env, names, obj, skip)| ==>
      var a := Ports(env, names, obj, skip)[i];
      && a.name in names && a.name in obj && a.name !in RESERVED && a.name !in skip
      && a.text == AttrFromValue(env, obj[a.name])
    ensures forall k :: k in names && k in obj && k !in RESERVED && k !in skip ==>
      HasAttr(Ports(env, names, obj, skip), k)
  {
    if names != [] {
      PortsFromNames(env, names[1..], obj, skip);
      var rest := Ports(env, names[1..], obj, skip);
      var all := Ports(env, names, obj, skip);
      assert names == [names[0]] + names[1..];
      if names[0] in obj && names[0] !in RESERVED && names[0] !in skip {
        assert all == [Attr(names[0], AttrFromValue(env, obj[names[0]]))] + rest;
        forall k | HasAttr(rest, k) ensures HasAttr(all, k) {
          var i :| 0 <= i < |rest| && rest[i].name == k;
          assert all[i + 1].name == k;
        }
        assert all[0].name == names[0];
      }
    }
  }

  lemma PortsArePorts(env: Env, obj: map<string, Json>, skip: set<string>)
    requires env.Lawful()
    ensures ArePorts(env, Ports(env, env.order(obj.Keys), obj, skip), obj, skip)
  {
    assert Enumerates(env.order(obj.Keys), obj.Keys);
    PortsFromNames(env, env.order(obj.Keys), obj, skip);
  }

  lemma {:induction false} PutAttrsSucceeds(env: Env, m: map<string, Json>, attrs: seq<Attr>, tag: string)
    requires forall i :: 0 <= i < |attrs| ==> attrs[i].name !in RESERVED
    ensures PutAttrs(env, m, attrs, tag).Ok?
  {
    if attrs != [] {
      PutAttrsSucceeds(env, m, attrs[..|attrs| - 1], tag);
    }
  }

  lemma {:induction false} PutAttrsElsewhere(env: Env, m: map<string, Json>, attrs: seq<Attr>, tag: string, k: string)
    requires PutAttrs(env, m, attrs, tag).Ok?
    requires k == "ID" || forall i :: 0 <= i < |attrs| ==> attrs[i].name != k
    ensures Get(PutAttrs(env, m, attrs, tag).value, k) == Get(m, k)
  {
    if attrs != [] {
      PutAttrsElsewhere(env, m, attrs[..|attrs| - 1], tag, k);
    }
  }

  lemma {:induction false} PutAttrsAt(env: Env, m: map<string, Json>, attrs: seq<Attr>, tag: string, i: nat)
    requires PutAttrs(env, m, attrs, tag).Ok? && Distinct(attrs)
    requires i < |attrs| && attrs[i].name != "ID"
    ensures Get(PutAttrs(env, m, attrs, tag).value, attrs[i].name) == Some(ValueFromAttr(env, attrs[i].text))
  {
    if i < |attrs| - 1 {
      PutAttrsAt(env, m, attrs[..|attrs| - 1], tag, i);
    }
  }

  /** Every attribute but `ID` becomes the field it was written from. */
  lemma PutPort(
    env: Env, m: map<string, Json>, id: seq<Attr>, ports: seq<Attr>, obj: map<string, Json>, tag: string, k: string)
    requires env.Lawful() && ArePorts(env, ports, obj, {}) && Distinct(id + ports)
    requires PutAttrs(env, m, id + ports, tag).Ok?
    requires k in obj && k !in RESERVED && k != "ID"
    ensures Get(PutAttrs(env, m, id + ports, tag).value, k) == Some(obj[k])
  {
    hide PutAttrs, AttrFromValue, ValueFromAttr, Env.Lawful;
    assert HasAttr(ports, k);
    var i :| 0 <= i < |ports| && ports[i].name == k;
    assert (id + ports)[|id| + i] == ports[i];
    PutAttrsAt(env, m, id + ports, tag, |id| + i);
    BareAttributeRoundTrip(env, obj[k]);
  }

  lemma PutNothing(
    env: Env, m: map<string, Json>, id: seq<Attr>, ports: seq<Attr>, obj: map<string, Json>, tag: string, k: string)
    requires ArePorts(env, ports, obj, {}) && forall i :: 0 <= i < |id| ==> id[i].name == "ID"
    requires PutAttrs(env, m, id + ports, tag).Ok?
    requires k !in obj || k in RESERVED || k == "ID"
    ensures Get(PutAttrs(env, m, id + ports, tag).value, k) == Get(m, k)
  {
    var attrs := id + ports;
    forall i | 0 <= i < |attrs| && k != "ID" ensures attrs[i].name != k {
      if i >= |id| {
        assert attrs[i] == ports[i - |id|];
      }
    }
    PutAttrsElsewhere(env, m, attrs, tag, k);
  }

  lemma IdAndPortsAreDistinct(env: Env, id: seq<Attr>, ports: seq<Attr>, obj: map<string, Json>)
    requires ArePorts(env, ports, obj, {}) && "ID" !in obj && |id| <= 1
    requires forall i :: 0 <= i < |id| ==> id[i].name == "ID"
    ensures Distinct(id + ports)
    ensures forall i :: 0 <= i < |id + ports| ==> (id + ports)[i].name !in RESERVED
  {
    forall i | 0 <= i < |id + ports| ensures (id + ports)[i] == if i < |id| then id[i] else ports[i - |id|] {}
  }

  /** A node that rides entirely in attributes: its kind, `ID` if it has one, and its ports. */
  lemma PortsComeBack(env: Env, kind: string, id: seq<Attr>, obj: map<string, Json>, tag: string)
    requires env.Lawful()
    requires |id| <= 1 && forall i :: 0 <= i < |id| ==> id[i].name == "ID"
    requires "ID" !in obj && "child" !in obj && GetStr(obj, "kind") == Some(kind)
    ensures Distinct(id + Ports(env, env.order(obj.Keys), obj, {}))
    ensures PutAttrs(env, map["kind" := Str(kind)], id + Ports(env, env.order(obj.Keys), obj, {}), tag)
         == Ok(obj - {"children"})
  {
    var ports := Ports(env, env.order(obj.Keys), obj, {});
    PortsArePorts(env, obj, {});
    IdAndPortsAreDistinct(env, id, ports, obj);
    var m := map["kind" := Str(kind)];
    PutAttrsSucceeds(env, m, id + ports, tag);
    var r := PutAttrs(env, m, id + ports, tag).value;
    forall k ensures Get(r, k) == Get(obj - {"children"}, k) {
      if k in obj && k !in RESERVED && k != "ID" {
        PutPort(env, m, id, ports, obj, tag, k);
      } else {
        PutNothing(env, m, id, ports, obj, tag, k);
      }
    }
    SameFields(r, obj - {"children"});
  }

  lemma SameFields(a: map<string, Json>, b: map<string, Json>)
    requires forall k :: Get(a, k) == Get(b, k)
    ensures a == b
  {
    forall k ensures k in a <==> k in b {
      assert Get(a, k) == Get(b, k);
    }
    forall k | k in a ensures a[k] == b[k] {
      assert Get(a, k) == Get(b, k);
    }
  }

  // ----- Elements come back -----

  lemma MinusOneParses()
    ensures Numerals.ParseI64("-1") == Some(-1) && Numerals.ParseI64("1") == Some(1)
  {
    assert "-1"[1..] == "1";
    assert Numerals.ParseNat("1") == Some(1);
  }

  lemma FindOnly(name: string, text: string)
    ensures FindAttr([Attr(name, text)], name) == Some(text)
  {
  }

  /** The fields an element's attributes carry, read from what was written for them. */
  ghost predicate FieldsComeBack(env: Env, km: KindMap, found: KindMap, m: map<string, Json>) {
    && RenamedFields(env, km.kind, m).Ok?
    && var renamed := RenamedFields(env, km.kind, m).value;
       && renamed.consumed == SpecKeys(km.kind)
       && |renamed.extra| <= 1
       && forall k :: Get(SpecFields(env, found, renamed.extra), k) ==
            if k == "kind" || k in SpecKeys(km.kind) then Get(m, k) else None
  }

  ghost predicate CanonicalFields(km: KindMap, m: map<string, Json>) {
    && GetStr(m, "kind") == Some(km.kind)
    && m.Keys == {"kind"} + SpecKeys(km.kind) + SlotKeys(km.shape)
    && SpecFieldsValid(km.kind, m)
  }

  lemma ParallelComesBack(env: Env, km: KindMap, m: map<string, Json>)
    requires km.kind == "parallel" && CanonicalFields(km, m)
    ensures FieldsComeBack(env, km, km, m)
  {
    MinusOneParses();
    FindOnly("success_count", "-1");
    FindOnly("success_count", "1");
  }

  lemma ForeverComesBack(env: Env, km: KindMap, found: KindMap, m: map<string, Json>)
    requires km.kind == "forever" && found.kind == "repeat" && CanonicalFields(km, m)
    ensures FieldsComeBack(env, km, found, m)
  {
    MinusOneParses();
    FindOnly("num_cycles", "-1");
  }

  lemma CountComesBack(env: Env, km: KindMap, m: map<string, Json>)
    requires (km.kind == "repeat" || km.kind == "retry") && CanonicalFields(km, m)
    ensures FieldsComeBack(env, km, km, m)
  {
    var n := m["times"].number.i;
    WholeFromInt(n);
    Numerals.ParseShowInt(n);
    assert WholeField(m, km.kind) == Ok(Numerals.ShowInt(n));
    FindOnly("num_cycles", Numerals.ShowInt(n));
    FindOnly("num_attempts", Numerals.ShowInt(n));
  }

  lemma DecimalsAreLawful(env: Env)
    requires env.Lawful()
    ensures env.decimals.Lawful()
  {
  }

  lemma SecondsComeBack(env: Env, km: KindMap, m: map<string, Json>)
    requires env.Lawful()
    requires (km.kind == "timeout" || km.kind == "cooldown") && CanonicalFields(km, m)
    ensures FieldsComeBack(env, km, km, m)
  {
    hide MsecToSecs, NumText, DecimalText.Lawful, Env.Lawful;
    var secs := m["seconds"].number.d;
    assert env.decimals.Lawful() by { DecimalsAreLawful(env); }
    MsecRoundTrip(env.decimals, secs);
    NumTextRoundTrip(env.decimals, secs);
    FindOnly("msec", NumText(env.decimals, Scaled(secs, 3)));
    FindOnly("sec", NumText(env.decimals, secs));
  }

  lemma SpecFieldsComeBack(env: Env, km: KindMap, found: KindMap, m: map<string, Json>)
    requires env.Lawful() && CanonicalFields(km, m)
    requires found == km || (km.kind == "forever" && found.kind == "repeat")
    requires km.kind == "forever" ==> found.kind == "repeat"
    ensures FieldsComeBack(env, km, found, m)
  {
    if km.kind == "parallel" {
      ParallelComesBack(env, km, m);
    } else if km.kind == "forever" {
      ForeverComesBack(env, km, found, m);
    } else if km.kind == "repeat" || km.kind == "retry" {
      CountComesBack(env, km, m);
    } else if km.kind == "timeout" || km.kind == "cooldown" {
      SecondsComeBack(env, km, m);
    }
  }

  lemma {:induction false} NoPortsLeft(env: Env, names: seq<string>, m: map<string, Json>, skip: set<string>)
    requires m.Keys <= RESERVED + skip
    ensures Ports(env, names, m, skip) == []
  {
    if names != [] {
      NoPortsLeft(env, names[1..], m, skip);
    }
  }

  ghost function SlotContents(shape: Shape, m: map<string, Json>): seq<Json> {
    match shape
    case Control => if "children" in m && m["children"].Arr? then m["children"].items else []
    case Decorator => if "child" in m then [m["child"]] else []
    case Leaf => []
  }

  /** What the reader makes of an element of the table. */
  lemma ReadTagged(env: Env, tag: string, found: KindMap, attrs: seq<Attr>, children: seq<Json>)
    requires !Structural(tag) && ByTag(tag) == Some(found)
    requires found.shape.Decorator? ==> |children| == 1
    requires found.shape.Leaf? ==> children == []
    ensures FrameToValue(env, tag, attrs, children) == Ok(Obj(
      match found.shape
      case Control => SpecFields(env, found, attrs)["children" := Arr(children)]
      case Decorator => SpecFields(env, found, attrs)["child" := children[0]]
      case Leaf => SpecFields(env, found, attrs)))
  {
  }

  function FoundRow(i: nat): KindMap
    requires i < ROWS
  {
    if i == 6 then Row(5) else Row(i)
  }

  lemma FoundRowFits(i: nat)
    requires i < ROWS
    ensures FoundRow(i).shape == Row(i).shape
    ensures FoundRow(i) == Row(i) || (Row(i).kind == "forever" && FoundRow(i).kind == "repeat")
    ensures Row(i).kind == "forever" ==> FoundRow(i).kind == "repeat"
  {
    assert Row(5).kind == "repeat" && Row(6).kind == "forever" && Row(5).shape == Row(6).shape;
    if Row(i).kind == "forever" {
      ForeverIsRowSix(i);
    }
  }

  lemma ElementComesBack(env: Env, km: KindMap, found: KindMap, m: map<string, Json>)
    requires env.Lawful() && km.elem.Tag? && CanonicalFields(km, m)
    requires km.shape.Control? ==> m["children"].Arr?
    requires !Structural(km.elem.name) && ByTag(km.elem.name) == Some(found) && found.shape == km.shape
    requires found == km || (km.kind == "forever" && found.kind == "repeat")
    requires km.kind == "forever" ==> found.kind == "repeat"
    ensures RenamedFields(env, km.kind, m).Ok?
    ensures var attrs := KnownAttrs(env, km, m, RenamedFields(env, km.kind, m).value);
      && Distinct(attrs)
      && FrameToValue(env, km.elem.name, attrs, SlotContents(km.shape, m)) == Ok(Obj(m))
  {
    hide FrameToValue, ByTag, SpecFieldsValid, Env.Lawful, Ports;
    SpecFieldsComeBack(env, km, found, m);
    NoPortsLeft(env, env.order(m.Keys), m, SpecKeys(km.kind));
    var extra := RenamedFields(env, km.kind, m).value.extra;
    ReadTagged(env, km.elem.name, found, extra, SlotContents(km.shape, m));
    SlotComesBack(km, m, SpecFields(env, found, extra));
    assert KnownAttrs(env, km, m, RenamedFields(env, km.kind, m).value) == extra;
  }

  /** A node with an element of its own is read back as itself, around the same subtrees. */
  lemma TaggedComesBack(env: Env, i: nat, m: map<string, Json>)
    requires env.Lawful() && i < ROWS && Row(i).elem.Tag?
    requires CanonicalFields(Row(i), m)
    requires Row(i).shape.Control? ==> m["children"].Arr?
    ensures RenamedFields(env, Row(i).kind, m).Ok?
    ensures var attrs := KnownAttrs(env, Row(i), m, RenamedFields(env, Row(i).kind, m).value);
      && Distinct(attrs)
      && FrameToValue(env, Row(i).elem.name, attrs, SlotContents(Row(i).shape, m)) == Ok(Obj(m))
  {
    hide FrameToValue, ByTag, SpecFieldsValid, Env.Lawful, Ports, RenamedFields, KnownAttrs, SpecKeys, SlotContents;
    ByTagFindsRow(i);
    TagsAreNotStructural(i);
    FoundRowFits(i);
    ElementComesBack(env, Row(i), FoundRow(i), m);
  }

  lemma ForeverIsRowSix(i: nat)
    requires i < ROWS && Row(i).kind == "forever"
    ensures i == 6
  {
    if i < 6 {
      KindsDiffer(i, 6);
    } else {
      KindsDiffer(6, i);
    }
  }

  lemma SlotComesBack(km: KindMap, m: map<string, Json>, spec: map<string, Json>)
    requires CanonicalFields(km, m)
    requires km.shape.Control? ==> m["children"].Arr?
    requires forall k :: Get(spec, k) == if k == "kind" || k in SpecKeys(km.kind) then Get(m, k) else None
    ensures m == match km.shape
      case Control => spec["children" := Arr(SlotContents(km.shape, m))]
      case Decorator => spec["child" := SlotContents(km.shape, m)[0]]
      case Leaf => spec
  {
    var r := match km.shape
      case Control => spec["children" := Arr(SlotContents(km.shape, m))]
      case Decorator => spec["child" := SlotContents(km.shape, m)[0]]
      case Leaf => spec;
    forall k ensures Get(r, k) == Get(m, k) {
      assert Get(spec, k) == if k == "kind" || k in SpecKeys(km.kind) then Get(m, k) else None;
    }
    SameFields(r, m);
  }

  /** A leaf named by its `ID`: every known action and condition, every foreign action. */
  lemma LeafComesBack(env: Env, tag: string, kind: string, m: map<string, Json>)
    requires env.Lawful() && (tag == "Action" || tag == "Condition")
    requires CanonicalLeaf(m) && GetStr(m, "kind") == Some(kind)
    ensures var attrs := [Attr("ID", kind)] + Ports(env, env.order(m.Keys), m, {});
      && Distinct(attrs)
      && FrameToValue(env, tag, attrs, []) == Ok(Obj(m))
  {
    PortsComeBack(env, kind, [Attr("ID", kind)], m, tag);
    var attrs := [Attr("ID", kind)] + Ports(env, env.order(m.Keys), m, {});
    assert attrs[0] == Attr("ID", kind);
    assert FindAttr(attrs, "ID") == Some(kind);
    assert m - {"children"} == m;
  }

  /** A foreign element is read back under its own kind, with its ports and its whole subtree. */
  lemma ForeignComesBack(env: Env, kind: string, m: map<string, Json>)
    requires env.Lawful()
    requires "ID" !in m && "child" !in m && GetArr(m, "children").Some? && GetStr(m, "kind") == Some(kind)
    requires SnakeCase(kind) && !Structural(Camel(kind)) && ByTag(Camel(kind)).None?
    ensures var attrs := Ports(env, env.order(m.Keys), m, {});
      && Distinct(attrs)
      && FrameToValue(env, Camel(kind), attrs, m["children"].items) == Ok(Obj(m))
  {
    hide PutAttrs, Ports, Snake, SnakeCase, Camel, ByTag, Env.Lawful;
    var attrs := Ports(env, env.order(m.Keys), m, {});
    assert [] + attrs == attrs;
    PortsComeBack(env, kind, [], m, Camel(kind));
    SnakeInvertsCamelIff(kind);
    var put := m - {"children"};
    assert put["children" := Arr(m["children"].items)] == m;
  }

  // ----- The stack machine inverts the recursion -----

  lemma {:induction false} FeedAllConcat(env: Env, st: Import, a: seq<Event>, b: seq<Event>)
    ensures FeedAll(env, st, a).Ok? ==> FeedAll(env, st, a + b) == FeedAll(env, FeedAll(env, st, a).value, b)
    ensures FeedAll(env, st, a).Err? ==> FeedAll(env, st, a + b) == FeedAll(env, st, a)
    decreases |a|
  {
    if a == [] {
      assert a + b == b;
    } else {
      assert (a + b)[0] == a[0] && (a + b)[1..] == a[1..] + b;
      if Feed(env, st, a[0]).Ok? {
        FeedAllConcat(env, Feed(env, st, a[0]).value, a[1..], b);
      }
    }
  }

  function AttachAll(st: Import, nodes: seq<Json>): Import
    requires st.stack != []
  {
    var top := st.stack[|st.stack| - 1];
    st.(stack := st.stack[..|st.stack| - 1] + [top.(children := top.children + nodes)])
  }

  /** One element around a subtree that reads back: the reader pushes a frame, fills it, pops it. */
  lemma EnclosedReads(
    env: Env, st: Import, tag: string, attrs: seq<Attr>, inner: seq<Event>, children: seq<Json>, node: Json)
    requires st.stack != [] && |st.stack| < MAX_DEPTH
    requires Distinct(attrs) && !Container(tag)
    requires FrameToValue(env, tag, attrs, children) == Ok(node)
    requires var inside := st.(stack := st.stack + [Frame(tag, attrs, [])]);
      FeedAll(env, inside, inner) == Ok(AttachAll(inside, children))
    ensures FeedAll(env, st, [Start(tag, Escaped(attrs))] + inner + [End(tag)]) == Ok(AttachAll(st, [node]))
  {
    ReadAttrsInvertsEscaped(attrs);
    var open, close := [Start(tag, Escaped(attrs))], [End(tag)];
    var inside := st.(stack := st.stack + [Frame(tag, attrs, [])]);
    var filled := AttachAll(inside, children);
    assert filled.stack == st.stack + [Frame(tag, attrs, children)] by {
      assert inside.stack[|inside.stack| - 1] == Frame(tag, attrs, []);
      assert [] + children == children;
    }
    FeedAllConcat(env, st, open, inner);
    FeedAllConcat(env, st, open + inner, close);
    assert FeedAll(env, st, open) == Ok(inside);
    assert filled.stack[..|filled.stack| - 1] == st.stack;
    assert Feed(env, filled, End(tag)) == Ok(AttachAll(st, [node]));
  }

  lemma EmptyReads(env: Env, st: Import, tag: string, attrs: seq<Attr>, node: Json)
    requires st.stack != [] && Distinct(attrs) && !Container(tag)
    requires FrameToValue(env, tag, attrs, []) == Ok(node)
    ensures FeedAll(env, st, [Empty(tag, Escaped(attrs))]) == Ok(AttachAll(st, [node]))
  {
    ReadAttrsInvertsEscaped(attrs);
  }

  // ----- The round trip -----

  /** What printing a canonical node amounts to: one element, its attributes, its subtrees. */
  datatype Printed =
    | Leafy(tag: string, attrs: seq<Attr>)
    | Enclosing(tag: string, attrs: seq<Attr>, children: seq<Json>)

  /** `p` is how `v` prints, and what `v` reads back from. */
  ghost predicate Describes(env: Env, p: Printed, v: Json, depth: nat) {
    && Distinct(p.attrs) && !Container(p.tag)
    && match p
       case Leafy(tag, attrs) =>
         && FrameToValue(env, tag, attrs, []) == Ok(v)
         && (depth <= MAX_DEPTH ==> PrintNode(env, v, depth) == Ok([Empty(tag, Escaped(attrs))]))
         && InteriorHeight(v) == 0 && Height(v) == 1
       case Enclosing(tag, attrs, children) =>
         && FrameToValue(env, tag, attrs, children) == Ok(v)
         && (depth <= MAX_DEPTH ==>
               PrintNode(env, v, depth) == Enclosed(tag, Escaped(attrs), PrintAll(env, children, depth + 1)))
         && InteriorHeight(v) == 1 + InteriorHeightAll(children) && Height(v) == 1 + HeightAll(children)
         && CanonicalAll(children)
         && (forall c :: c in children ==> c < v)
  }

  lemma DescribeForeign(env: Env, v: Json, depth: nat) returns (p: Printed)
    requires env.Lawful() && Canonical(v) && ByKind(v.fields["kind"].s).None?
    ensures Describes(env, p, v, depth)
  {
    hide FrameToValue, Ports, PutAttrs, FindAttr, SnakeCase, Camel, ByKind, ByTag, Env.Lawful;
    var m, kind := v.fields, v.fields["kind"].s;
    assert depth <= MAX_DEPTH ==> PrintNode(env, v, depth) == PrintForeign(env, kind, v, depth);
    var ports := Ports(env, env.order(m.Keys), m, {});
    if "children" in m {
      ForeignComesBack(env, kind, m);
      p := Enclosing(Camel(kind), ports, m["children"].items);
      assert CanonicalAll(p.children);
      assert forall c :: c in p.children ==> c < v;
    } else {
      LeafComesBack(env, "Action", kind, m);
      p := Leafy("Action", [Attr("ID", kind)] + ports);
    }
  }

  const RENAMING: set<string> := {"parallel", "forever", "repeat", "retry", "timeout", "cooldown"}

  lemma PlainRows(i: nat)
    requires i < ROWS && !Row(i).elem.Tag?
    ensures Row(i).shape.Leaf? && Row(i).kind !in RENAMING
  {
    assert i >= 15;
  }

  lemma NamedLeafComesBack(env: Env, km: KindMap, m: map<string, Json>)
    requires env.Lawful() && !km.elem.Tag? && km.shape.Leaf? && km.kind !in RENAMING
    requires CanonicalLeaf(m) && GetStr(m, "kind") == Some(km.kind)
    ensures RenamedFields(env, km.kind, m) == Ok(Renamed([], {}))
    ensures var attrs := KnownAttrs(env, km, m, Renamed([], {}));
      && Distinct(attrs)
      && FrameToValue(env, TagOf(km), attrs, []) == Ok(Obj(m))
  {
    hide FrameToValue, Ports, PutAttrs, FindAttr, Env.Lawful, CanonicalLeaf;
    LeafComesBack(env, TagOf(km), km.kind, m);
    var ports := Ports(env, env.order(m.Keys), m, {});
    assert KnownAttrs(env, km, m, Renamed([], {})) == [Attr("ID", km.kind)] + ports;
  }

  lemma DescribeNamedLeaf(env: Env, i: nat, v: Json, depth: nat) returns (p: Printed)
    requires env.Lawful() && Canonical(v)
    requires i < ROWS && !Row(i).elem.Tag? && v.fields["kind"].s == Row(i).kind
    ensures Describes(env, p, v, depth)
  {
    hide FrameToValue, Ports, PutAttrs, FindAttr;
    var km := Row(i);
    ByKindFindsRow(i);
    PlainRows(i);
    NamedLeafComesBack(env, km, v.fields);
    p := DescribeElement(env, km, v, KnownAttrs(env, km, v.fields, Renamed([], {})), depth);
  }

  lemma PrintAllSingleton(env: Env, node: Json, depth: nat)
    ensures PrintAll(env, [node], depth) == PrintNode(env, node, depth)
  {
    var r := PrintNode(env, node, depth);
    assert [node][1..] == [];
    if r.Ok? {
      assert r.value + [] == r.value;
    }
  }

  lemma DescribeTagged(env: Env, i: nat, v: Json, depth: nat) returns (p: Printed)
    requires env.Lawful() && Canonical(v)
    requires i < ROWS && Row(i).elem.Tag? && v.fields["kind"].s == Row(i).kind
    ensures Describes(env, p, v, depth)
  {
    hide FrameToValue, RenamedFields, KnownAttrs, Ports, SpecFieldsValid, SpecKeys, ByTag;
    var km, m := Row(i), v.fields;
    ByKindFindsRow(i);
    TaggedComesBack(env, i, m);
    TagsAreNotStructural(i);
    var attrs := KnownAttrs(env, km, m, RenamedFields(env, km.kind, m).value);
    p := DescribeElement(env, km, v, attrs, depth);
  }

  lemma DescribeElement(env: Env, km: KindMap, v: Json, attrs: seq<Attr>, depth: nat) returns (p: Printed)
    requires env.Lawful() && Canonical(v) && !Container(TagOf(km)) && (!km.elem.Tag? ==> km.shape.Leaf?)
    requires ByKind(v.fields["kind"].s) == Some(km) && v.fields["kind"].s == km.kind
    requires RenamedFields(env, km.kind, v.fields).Ok?
    requires attrs == KnownAttrs(env, km, v.fields, RenamedFields(env, km.kind, v.fields).value)
    requires Distinct(attrs) && FrameToValue(env, TagOf(km), attrs, SlotContents(km.shape, v.fields)) == Ok(v)
    ensures Describes(env, p, v, depth)
  {
    hide FrameToValue, RenamedFields, KnownAttrs, Ports, SpecFieldsValid, ByKind, ByTag, Distinct, Env.Lawful;
    var m := v.fields;
    assert depth <= MAX_DEPTH ==> PrintNode(env, v, depth) == PrintKnown(env, km, v, depth);
    assert PrintKnown(env, km, v, depth) == PrintElement(env, km, v, Escaped(attrs), depth);
    match km.shape
    case Leaf =>
      p := Leafy(TagOf(km), attrs);
      assert InteriorHeight(v) == 0 && Height(v) == 1;
    case Control =>
      p := Enclosing(TagOf(km), attrs, m["children"].items);
      assert CanonicalAll(p.children);
      assert forall c :: c in p.children ==> c < v;
    case Decorator =>
      p := Enclosing(TagOf(km), attrs, [m["child"]]);
      PrintAllSingleton(env, m["child"], depth + 1);
      assert p.children[1..] == [];
      assert InteriorHeight(v) == 1 + InteriorHeightAll(p.children) && Height(v) == 1 + HeightAll(p.children);
      assert CanonicalAll(p.children);
  }

  lemma Describe(env: Env, v: Json, depth: nat) returns (p: Printed)
    requires env.Lawful() && Canonical(v)
    ensures Describes(env, p, v, depth)
  {
    var found := KindIndex(v.fields["kind"].s, 0);
    if found.None? {
      p := DescribeForeign(env, v, depth);
    } else if Row(found.value).elem.Tag? {
      p := DescribeTagged(env, found.value, v, depth);
    } else {
      p := DescribeNamedLeaf(env, found.value, v, depth);
    }
  }

  lemma TooDeepFails(env: Env, v: Json, depth: nat)
    requires depth > MAX_DEPTH
    ensures PrintNode(env, v, depth) == Err(TooDeep) && Height(v) >= 1
  {
  }

  /** Printing a canonical tree fails exactly when it is nested too deep. */
  lemma {:induction false} PrintsIff(env: Env, v: Json, depth: nat)
    requires env.Lawful() && Canonical(v)
    ensures PrintNode(env, v, depth).Ok? <==> depth + Height(v) <= MAX_DEPTH + 1
    decreases v, 1
  {
    hide PrintNode, PrintAll, Canonical, CanonicalAll, FrameToValue, Height, InteriorHeight, HeightAll, InteriorHeightAll;
    var p := Describe(env, v, depth);
    if depth > MAX_DEPTH {
      TooDeepFails(env, v, depth);
    } else if p.Enclosing? {
      PrintsAllIff(env, v, p.children, depth + 1);
    }
  }

  lemma {:induction false} PrintsAllIff(env: Env, parent: Json, nodes: seq<Json>, depth: nat)
    requires env.Lawful() && CanonicalAll(nodes) && depth <= MAX_DEPTH + 1
    requires forall c :: c in nodes ==> c < parent
    ensures PrintAll(env, nodes, depth).Ok? <==> depth + HeightAll(nodes) <= MAX_DEPTH + 1
    decreases parent, 0, |nodes|
  {
    hide PrintNode, Canonical, FrameToValue, Height, InteriorHeight;
    if nodes != [] {
      assert nodes[0] in nodes;
      PrintsIff(env, nodes[0], depth);
      assert forall c :: c in nodes[1..] ==> c in nodes;
      PrintsAllIff(env, parent, nodes[1..], depth);
    }
  }

  /** Whether the reader has room for `height` more open elements; empty elements need none. */
  predicate HasRoom(st: Import, height: nat) {
    |st.stack| + height <= MAX_DEPTH || height == 0
  }

  lemma StartRefused(env: Env, st: Import, tag: string, attrs: seq<Attr>, inner: seq<Event>, end: seq<Event>)
    requires |st.stack| >= MAX_DEPTH
    ensures FeedAll(env, st, [Start(tag, attrs)] + inner + end).Err?
  {
    var events := [Start(tag, attrs)] + inner + end;
    assert events[0] == Start(tag, attrs);
  }

  lemma InnerRefused(env: Env, st: Import, tag: string, attrs: seq<Attr>, inner: seq<Event>, end: seq<Event>)
    requires |st.stack| < MAX_DEPTH && Distinct(attrs)
    requires FeedAll(env, st.(stack := st.stack + [Frame(tag, attrs, [])]), inner).Err?
    ensures FeedAll(env, st, [Start(tag, Escaped(attrs))] + inner + end).Err?
  {
    ReadAttrsInvertsEscaped(attrs);
    var open := [Start(tag, Escaped(attrs))];
    FeedAllConcat(env, st, open, inner);
    FeedAllConcat(env, st, open + inner, end);
    assert FeedAll(env, st, open) == Ok(st.(stack := st.stack + [Frame(tag, attrs, [])]));
  }

  /** The reader, fed the events of a canonical tree, hangs exactly that tree under the open element;
      it fails exactly when an inner element would be one open element too many. */
  lemma {:induction false} ReadsBack(env: Env, st: Import, v: Json, depth: nat)
    requires env.Lawful() && Canonical(v) && st.stack != [] && PrintNode(env, v, depth).Ok?
    ensures HasRoom(st, InteriorHeight(v)) ==>
      FeedAll(env, st, PrintNode(env, v, depth).value) == Ok(AttachAll(st, [v]))
    ensures !HasRoom(st, InteriorHeight(v)) ==> FeedAll(env, st, PrintNode(env, v, depth).value).Err?
    decreases v, 1
  {
    hide PrintNode, PrintAll, Canonical, CanonicalAll, FrameToValue, Height, InteriorHeight, HeightAll, InteriorHeightAll;
    hide FeedAll, Feed, AttachAll, Distinct, Env.Lawful;
    var p := Describe(env, v, depth);
    if depth > MAX_DEPTH {
      TooDeepFails(env, v, depth);
    } else if p.Leafy? {
      EmptyReads(env, st, p.tag, p.attrs, v);
    } else if |st.stack| >= MAX_DEPTH {
      StartRefused(env, st, p.tag, Escaped(p.attrs), PrintAll(env, p.children, depth + 1).value, [End(p.tag)]);
    } else {
      var inner := PrintAll(env, p.children, depth + 1).value;
      var inside := st.(stack := st.stack + [Frame(p.tag, p.attrs, [])]);
      ReadsAllBack(env, inside, v, p.children, depth + 1);
      if HasRoom(inside, InteriorHeightAll(p.children)) {
        EnclosedReads(env, st, p.tag, p.attrs, inner, p.children, v);
      } else {
        InnerRefused(env, st, p.tag, p.attrs, inner, [End(p.tag)]);
      }
    }
  }

  lemma {:induction false} ReadsAllBack(env: Env, st: Import, parent: Json, nodes: seq<Json>, depth: nat)
    requires env.Lawful() && CanonicalAll(nodes) && st.stack != [] && PrintAll(env, nodes, depth).Ok?
    requires forall c :: c in nodes ==> c < parent
    ensures HasRoom(st, InteriorHeightAll(nodes)) ==>
      FeedAll(env, st, PrintAll(env, nodes, depth).value) == Ok(AttachAll(st, nodes))
    ensures !HasRoom(st, InteriorHeightAll(nodes)) ==> FeedAll(env, st, PrintAll(env, nodes, depth).value).Err?
    decreases parent, 0, |nodes|
  {
    hide PrintNode, Canonical, FrameToValue, Height, InteriorHeight, Feed, FeedAll, Env.Lawful;
    if nodes == [] {
      AttachNothing(st);
      FeedNothing(env, st);
    } else {
      var first := PrintNode(env, nodes[0], depth).value;
      var rest := PrintAll(env, nodes[1..], depth).value;
      assert PrintAll(env, nodes, depth).value == first + rest;
      assert nodes[0] in nodes;
      ReadsBack(env, st, nodes[0], depth);
      FeedAllConcat(env, st, first, rest);
      if HasRoom(st, InteriorHeight(nodes[0])) {
        var next := AttachAll(st, [nodes[0]]);
        assert |next.stack| == |st.stack|;
        assert forall c :: c in nodes[1..] ==> c in nodes;
        ReadsAllBack(env, next, parent, nodes[1..], depth);
        AttachInTurn(st, nodes[0], nodes[1..]);
        assert nodes == [nodes[0]] + nodes[1..];
      }
    }
  }

  lemma FeedNothing(env: Env, st: Import)
    ensures FeedAll(env, st, []) == Ok(st)
  {
  }

  lemma AttachNothing(st: Import)
    requires st.stack != []
    ensures AttachAll(st, []) == st
  {
    var top := st.stack[|st.stack| - 1];
    assert top.children + [] == top.children;
  }

  lemma AttachInTurn(st: Import, first: Json, rest: seq<Json>)
    requires st.stack != []
    ensures AttachAll(AttachAll(st, [first]), rest) == AttachAll(st, [first] + rest)
  {
    var top := st.stack[|st.stack| - 1];
    assert (top.children + [first]) + rest == top.children + ([first] + rest);
    assert AttachAll(st, [first]).stack[..|st.stack| - 1] == st.stack[..|st.stack| - 1];
  }

  lemma CanonicalStructure(v: Json)
    requires Canonical(v)
    ensures v.Obj? && !SubTrees.IsMarker(v)
    ensures "children" in v.fields ==>
      "child" !in v.fields && v.fields["children"].Arr? && CanonicalAll(v.fields["children"].items)
    ensures "child" in v.fields ==> Canonical(v.fields["child"])
  {
    hide ByKind, ByTag, SnakeCase, Camel, Structural, SpecFieldsValid;
  }

  lemma {:induction false} CanonicalExpandsToItself(trees: SubTrees.Trees, v: Json, visiting: seq<string>, depth: nat)
    requires Canonical(v) && depth + Height(v) <= MAX_DEPTH + 1
    ensures SubTrees.Expand(trees, v, visiting, depth) == Ok(v)
    decreases v, 1
  {
    hide Canonical;
    CanonicalStructure(v);
    var m := v.fields;
    if "children" in m {
      AllExpandToThemselves(trees, v, m["children"].items, visiting, depth + 1);
      assert m["children" := Arr(m["children"].items)] == m;
    } else if "child" in m {
      CanonicalExpandsToItself(trees, m["child"], visiting, depth + 1);
      assert m["child" := m["child"]] == m;
    }
  }

  lemma {:induction false} AllExpandToThemselves(
    trees: SubTrees.Trees, parent: Json, nodes: seq<Json>, visiting: seq<string>, depth: nat)
    requires CanonicalAll(nodes) && depth + HeightAll(nodes) <= MAX_DEPTH + 1
    requires forall c :: c in nodes ==> c < parent
    ensures SubTrees.ExpandAll(trees, nodes, visiting, depth) == Ok(nodes)
    decreases parent, 0, |nodes|
  {
    hide Canonical, Height;
    if nodes != [] {
      assert nodes[0] in nodes && nodes == [nodes[0]] + nodes[1..];
      assert forall c :: c in nodes[1..] ==> c in nodes;
      CanonicalExpandsToItself(trees, nodes[0], visiting, depth);
      AllExpandToThemselves(trees, parent, nodes[1..], visiting, depth);
    }
  }

  /** The state in which the reader meets the one node of an exported document. */
  function InsideTree(): Import {
    Import([Frame("root", [Attr("BTCPP_format", "4"), Attr("main_tree_to_execute", MAIN_TREE)], []),
            Frame("BehaviorTree", [Attr("ID", MAIN_TREE)], [])], [], None)
  }

  lemma StartReads(env: Env, st: Import, tag: string, attrs: seq<Attr>)
    requires |st.stack| < MAX_DEPTH && Distinct(attrs)
    ensures Feed(env, st, Start(tag, Escaped(attrs))) == Ok(st.(stack := st.stack + [Frame(tag, attrs, [])]))
  {
    ReadAttrsInvertsEscaped(attrs);
  }

  lemma HeaderReads(env: Env)
    ensures FeedAll(env, EMPTY_IMPORT, [RootStart(), TreeStart()]) == Ok(InsideTree())
  {
    hide EscapeText, ReadAttrs, Feed;
    var root, tree := InsideTree().stack[0], InsideTree().stack[1];
    StartReads(env, EMPTY_IMPORT, "root", root.attrs);
    var afterRoot := EMPTY_IMPORT.(stack := EMPTY_IMPORT.stack + [root]);
    StartReads(env, afterRoot, "BehaviorTree", tree.attrs);
    assert afterRoot.stack + [tree] == InsideTree().stack;
    assert [RootStart(), TreeStart()][1..] == [TreeStart()];
  }

  lemma TreeEndReads(env: Env, root: Frame, attrs: seq<Attr>, v: Json)
    ensures Feed(env, Import([root, Frame("BehaviorTree", attrs, [v])], [], None), End("BehaviorTree"))
         == Ok(Import([root], [(match FindAttr(attrs, "ID") case Some(id) => id case None => "", v)], None))
  {
    var st := Import([root, Frame("BehaviorTree", attrs, [v])], [], None);
    assert st.stack[..|st.stack| - 1] == [root];
    assert st.stack[|st.stack| - 1] == Frame("BehaviorTree", attrs, [v]);
    var id := match FindAttr(attrs, "ID") case Some(id) => id case None => "";
    assert [] + [(id, v)] == [(id, v)];
  }

  lemma RootEndReads(env: Env, root: Frame, trees: seq<(string, Json)>)
    requires root.tag == "root" && root.children == []
    ensures Feed(env, Import([root], trees, None), End("root"))
         == Ok(Import([], trees, FindAttr(root.attrs, "main_tree_to_execute")))
  {
    assert [root][..0] == [];
    assert trees + Untitled([]) == trees;
  }

  lemma FooterReads(env: Env, v: Json)
    ensures FeedAll(env, AttachAll(InsideTree(), [v]), [End("BehaviorTree"), End("root")])
         == Ok(Import([], [(MAIN_TREE, v)], Some(MAIN_TREE)))
  {
    hide Feed;
    var st := AttachAll(InsideTree(), [v]);
    var root := InsideTree().stack[0];
    assert InsideTree().stack[..1] == [root] && [] + [v] == [v];
    assert st.stack == [root, Frame("BehaviorTree", [Attr("ID", MAIN_TREE)], [v])];
    FindOnly("ID", MAIN_TREE);
    TreeEndReads(env, root, [Attr("ID", MAIN_TREE)], v);
    assert FindAttr(root.attrs, "main_tree_to_execute") == Some(MAIN_TREE) by {
      assert root.attrs[1..] == [Attr("main_tree_to_execute", MAIN_TREE)];
    }
    RootEndReads(env, root, [(MAIN_TREE, v)]);
    assert [End("BehaviorTree"), End("root")][1..] == [End("root")];
  }

  /** The law the codec exists for, on every canonical tree: it can be written exactly when no node is
      deeper than the limit, and what was written reads back as the same tree exactly when no
      element with subtrees is deeper than the limit less the two elements around the tree. */
  lemma RoundTrip(env: Env, v: Json)
    requires env.Lawful() && Canonical(v)
    ensures ExportXml(env, v).Ok? <==> Height(v) <= 65
    ensures Height(v) <= 65 && InteriorHeight(v) <= 62 ==> ImportXml(env, ExportXml(env, v).value) == Ok(v)
    ensures Height(v) <= 65 && InteriorHeight(v) > 62 ==> ImportXml(env, ExportXml(env, v).value).Err?
  {
    hide Canonical, PrintNode, Height, InteriorHeight, Feed;
    PrintsIff(env, v, 0);
    if Height(v) <= MAX_DEPTH + 1 {
      var inner := PrintNode(env, v, 0).value;
      var header, footer := [RootStart(), TreeStart()], [End("BehaviorTree"), End("root")];
      HeaderReads(env);
      ReadsBack(env, InsideTree(), v, 0);
      FeedAllConcat(env, EMPTY_IMPORT, header, inner);
      FeedAllConcat(env, EMPTY_IMPORT, header + inner, footer);
      if InteriorHeight(v) <= MAX_DEPTH - 2 {
        FooterReads(env, v);
        CanonicalExpandsToItself(ById([(MAIN_TREE, v)]), v, [], 0);
        assert [(MAIN_TREE, v)][..0] == [];
        assert ById([(MAIN_TREE, v)]) == map[MAIN_TREE := v];
      }
    }
  }

  // ----- The two limits do not agree -----

  /** `n` nested inverters around a brake. */
  function Tower(n: nat): Json {
    if n == 0 then Obj(map["kind" := Str("brake")])
    else Obj(map["kind" := Str("invert"), "child" := Tower(n - 1)])
  }

  lemma {:induction false} TowerIsCanonical(n: nat)
    ensures Canonical(Tower(n)) && InteriorHeight(Tower(n)) == n && Height(Tower(n)) == n + 1
  {
    hide ByKind;
    if n == 0 {
      ByKindFindsRow(19);
      assert ByKind("brake") == Some(Act("brake"));
    } else {
      ByKindFindsRow(8);
      TowerIsCanonical(n - 1);
      assert ByKind("invert") == Some(Deco("invert", "Inverter"));
      var m := Tower(n).fields;
      assert m == map["kind" := Str("invert"), "child" := Tower(n - 1)];
      assert m.Keys == {"kind"} + SpecKeys("invert") + SlotKeys(Decorator);
    }
  }

  /** A tree the writer accepts and the reader refuses. */
  lemma WritableButNotReadable(env: Env)
    requires env.Lawful()
    ensures ExportXml(env, Tower(63)).Ok?
    ensures ImportXml(env, ExportXml(env, Tower(63)).value).Err?
  {
    hide Tower, Canonical;
    TowerIsCanonical(63);
    RoundTrip(env, Tower(63));
  }
}
