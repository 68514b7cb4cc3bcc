/** Reading a BehaviorTree.CPP document and writing it back: which documents can be written at all, what
    each element becomes, and which elements come back as themselves. */
module BehaviorXmlReExport {
  import opened Wrappers
  import opened Arithmetic
  import opened Json
  import opened Decimals
  import opened KindTable
  import opened TagNames
  import opened XmlText
  import opened BehaviorXmlWriter
  import opened BehaviorXmlReader
  import opened BehaviorXmlRoundTrip
  import opened BehaviorXmlElements
  import SubTrees
  import Numerals

  // ----- What an element is read as, part by part -----

  /** Elements that name their kind in `ID`. */
  predicate NamesKind(tag: string) {
    tag == "Action" || tag == "Condition"
  }

  function ShapeRead(tag: string): Shape {
    if NamesKind(tag) then Leaf
    else match ByTag(tag)
      case Some(km) => km.shape
      case None => Control
  }

  function KindRead(tag: string, attrs: seq<Attr>): string {
    if NamesKind(tag) then IdIn(attrs)
    else match ByTag(tag)
      case Some(km) => if km.kind == "repeat" && IntAttr(attrs, "num_cycles", 1) < 0 then "forever" else km.kind
      case None => Snake(tag)
  }

  /** The fields an element's attributes give, without its subtrees. */
  function FieldsRead(env: Env, tag: string, attrs: seq<Attr>): Result<map<string, Json>, ReadError> {
    if NamesKind(tag) && FindAttr(attrs, "ID").None? then Err(MissingId(tag))
    else match if NamesKind(tag) then None else ByTag(tag)
      case Some(km) => Ok(SpecFields(env, km, attrs))
      case None => PutAttrs(env, map["kind" := Str(KindRead(tag, attrs))], attrs, tag)
  }

  predicate FitsSlot(shape: Shape, kids: seq<Json>) {
    match shape
    case Control => true
    case Decorator => |kids| == 1
    case Leaf => kids == []
  }

  function Slotted(fields: map<string, Json>, shape: Shape, kids: seq<Json>): map<string, Json>
    requires FitsSlot(shape, kids)
  {
    match shape
    case Control => fields["children" := Arr(kids)]
    case Decorator => fields["child" := kids[0]]
    case Leaf => fields
  }

  lemma FrameIsSlotted(env: Env, tag: string, attrs: seq<Attr>, kids: seq<Json>)
    requires tag != "SubTree"
    ensures FrameToValue(env, tag, attrs, kids).Ok? <==>
      FieldsRead(env, tag, attrs).Ok? && FitsSlot(ShapeRead(tag), kids)
    ensures FrameToValue(env, tag, attrs, kids).Ok? ==>
      FrameToValue(env, tag, attrs, kids).value == Obj(Slotted(FieldsRead(env, tag, attrs).value, ShapeRead(tag), kids))
  {
    hide PutAttrs, SpecFields, ByTag, FindAttr;
  }

  lemma {:induction false} PutAttrsRefusesReserved(env: Env, m: map<string, Json>, attrs: seq<Attr>, tag: string)
    requires PutAttrs(env, m, attrs, tag).Ok?
    ensures forall i :: 0 <= i < |attrs| ==> attrs[i].name !in RESERVED
  {
    if attrs != [] {
      PutAttrsRefusesReserved(env, m, attrs[..|attrs| - 1], tag);
    }
  }

  /** The fields carry the kind and no subtree. */
  lemma FieldsAreFlat(env: Env, tag: string, attrs: seq<Attr>)
    requires FieldsRead(env, tag, attrs).Ok?
    ensures var fields := FieldsRead(env, tag, attrs).value;
      && GetStr(fields, "kind") == Some(KindRead(tag, attrs))
      && "child" !in fields && "children" !in fields
  {
    hide PutAttrs, FindAttr, ByTag, Snake;
    if NamesKind(tag) || ByTag(tag).None? {
      var m := map["kind" := Str(KindRead(tag, attrs))];
      var fields := FieldsRead(env, tag, attrs).value;
      PutAttrsRefusesReserved(env, m, attrs, tag);
      PutAttrsElsewhere(env, m, attrs, tag, "kind");
      PutAttrsElsewhere(env, m, attrs, tag, "child");
      PutAttrsElsewhere(env, m, attrs, tag, "children");
      assert Get(fields, "kind") == Some(Str(KindRead(tag, attrs)));
    }
  }

  // ----- Whether a node read from an element can be written -----

  /** `require`, if it is text, is a word the writer knows. */
  predicate RequireKnown(env: Env, attrs: seq<Attr>) {
    match FindAttr(attrs, "require")
    case None => true
    case Some(text) => var v := ValueFromAttr(env, text); v.Str? ==> v.s == "all" || v.s == "one"
  }

  /** What can be said of one element, from its name and its attributes: a reference cannot be written; an
      element with a row can; any other one unless its name or `ID` is a kind of the table that holds its
      subtree elsewhere. */
  predicate Writes(env: Env, tag: string, attrs: seq<Attr>) {
    tag != "SubTree" &&
    (ByTag(tag).None? || NamesKind(tag) ==>
      match ByKind(KindRead(tag, attrs))
      case None => true
      case Some(km) => km.shape == ShapeRead(tag) && (km.kind == "parallel" ==> RequireKnown(env, attrs)))
  }

  function AttrsOf(e: Element): seq<Attr> {
    match ReadAttrs(e.raw)
    case Ok(attrs) => attrs
    case Err(_) => []
  }

  predicate AllWrite(env: Env, e: Element) {
    Writes(env, e.tag, AttrsOf(e)) && (e.Around? ==> EachWrites(env, e.inner))
  }

  predicate EachWrites(env: Env, es: seq<Element>) {
    forall i :: 0 <= i < |es| ==> AllWrite(env, es[i])
  }

  /** The tag and the attributes that are written for an element. */
  function WrittenTag(tag: string, attrs: seq<Attr>): string {
    match ByKind(KindRead(tag, attrs))
    case Some(km) => TagOf(km)
    case None => if ShapeRead(tag).Leaf? then "Action" else Camel(KindRead(tag, attrs))
  }

  function WrittenAttrs(env: Env, kind: string, obj: map<string, Json>): seq<Attr> {
    match ByKind(kind)
    case Some(km) =>
      (match RenamedFields(env, km.kind, obj)
       case Ok(renamed) => KnownAttrs(env, km, obj, renamed)
       case Err(_) => [])
    case None => (if "children" in obj then [] else [Attr("ID", kind)]) + Ports(env, env.order(obj.Keys), obj, {})
  }

  function FieldsOf(env: Env, e: Element): map<string, Json> {
    match NodeOf(env, e)
    case Ok(v) => if v.Obj? then v.fields else map[]
    case Err(_) => map[]
  }

  /** The element that is written for an element that was read. */
  function Rewritten(env: Env, e: Element): Element {
    var attrs := AttrsOf(e);
    var raw := Escaped(WrittenAttrs(env, KindRead(e.tag, attrs), FieldsOf(env, e)));
    var tag := WrittenTag(e.tag, attrs);
    if ShapeRead(e.tag).Leaf? then Bare(tag, raw)
    else Around(tag, raw, if e.Around? then RewrittenAll(env, e.inner) else [])
  }

  function RewrittenAll(env: Env, es: seq<Element>): (r: seq<Element>)
    ensures |r| == |es|
    ensures forall i :: 0 <= i < |es| ==> r[i] == Rewritten(env, es[i])
  {
    if es == [] then [] else [Rewritten(env, es[0])] + RewrittenAll(env, es[1..])
  }

  // ----- Rows of the table write what they read -----

  lemma RowIsFound(km: KindMap, tag: string) returns (i: nat)
    requires ByTag(tag) == Some(km)
    ensures i < ROWS && i != 6 && km == Row(i) && km.elem == Tag(tag)
  {
    i := TagIndex(tag, 0).value;
    assert Row(5).elem == Row(6).elem;
  }

  /** An element with a row is read as a kind with a row of the same element and shape. */
  lemma RowReadsItsElement(tag: string, attrs: seq<Attr>)
    requires !NamesKind(tag) && ByTag(tag).Some?
    ensures var found := ByKind(KindRead(tag, attrs));
      found.Some? && found.value.kind == KindRead(tag, attrs)
      && found.value.elem == Tag(tag) && found.value.shape == ShapeRead(tag)
  {
    var i := RowIsFound(ByTag(tag).value, tag);
    ByKindFindsRow(i);
    if KindRead(tag, attrs) == "forever" && Row(i).kind != "forever" {
      assert Row(i).kind == "repeat" && Row(5).kind == "repeat" && Row(6).kind == "forever";
      KindsDifferEither(i, 5);
      ByKindFindsRow(6);
      assert Row(6).elem == Row(5).elem && Row(6).shape == Row(5).shape;
    }
  }

  lemma KindsDifferEither(i: nat, j: nat)
    requires i < ROWS && j < ROWS && Row(i).kind == Row(j).kind
    ensures i == j
  {
    if i <= j {
      KindsDiffer(i, j);
    } else {
      KindsDiffer(j, i);
    }
  }

  /** The fields a writer renames, as it finds them in `obj`. */
  ghost predicate SameRenamed(a: map<string, Json>, b: map<string, Json>) {
    && Get(a, "require") == Get(b, "require") && Get(a, "times") == Get(b, "times")
    && Get(a, "seconds") == Get(b, "seconds")
  }

  lemma RenamedFieldsLookAt(env: Env, kind: string, a: map<string, Json>, b: map<string, Json>)
    requires SameRenamed(a, b)
    ensures RenamedFields(env, kind, a) == RenamedFields(env, kind, b)
  {
    assert GetStr(a, "require") == GetStr(b, "require") by {
      assert Get(a, "require") == Get(b, "require");
    }
    assert WholeField(a, kind) == WholeField(b, kind) by {
      assert Get(a, "times") == Get(b, "times");
    }
  }

  lemma SpecFieldsRename(env: Env, km: KindMap, attrs: seq<Attr>)
    ensures RenamedFields(env, if km.kind == "repeat" && IntAttr(attrs, "num_cycles", 1) < 0 then "forever" else km.kind,
      SpecFields(env, km, attrs)).Ok? || km.kind == "forever"
  {
    if km.kind == "repeat" || km.kind == "retry" {
      var cycles := IntAttr(attrs, if km.kind == "repeat" then "num_cycles" else "num_attempts", 1);
      WholeFromInt(cycles);
    }
  }

  /** What the writer asks of a node: nothing of a foreign one, of a known one its slot and its renamed
      fields. */
  predicate Accepts(env: Env, kind: string, obj: map<string, Json>, shape: Shape) {
    match ByKind(kind)
    case None => true
    case Some(km) => km.shape == shape && RenamedFields(env, km.kind, obj).Ok?
  }

  const RENAMING_CONTROL := "parallel"

  /** No row but these renames a field, and of them only `parallel` is a control. */
  lemma RenamingRows(i: nat)
    requires i < ROWS && !Row(i).shape.Decorator?
    ensures Row(i).kind in RENAMING ==> Row(i).kind == RENAMING_CONTROL
  {
  }

  lemma RequireIsLookedUp(env: Env, tag: string, attrs: seq<Attr>)
    requires tag != "SubTree" && (NamesKind(tag) || ByTag(tag).None?) && Distinct(attrs)
    requires FieldsRead(env, tag, attrs).Ok?
    ensures RenamedFields(env, "parallel", FieldsRead(env, tag, attrs).value).Ok? <==> RequireKnown(env, attrs)
  {
    hide ByTag, FindAttr, PutAttrs;
    PortRead(env, tag, attrs, "require");
  }

  /** An attribute but `ID` becomes the field of its name, and no field but the kind comes from elsewhere. */
  lemma PortRead(env: Env, tag: string, attrs: seq<Attr>, name: string)
    requires NamesKind(tag) || ByTag(tag).None?
    requires Distinct(attrs) && FieldsRead(env, tag, attrs).Ok? && name !in RESERVED && name != "ID"
    ensures Get(FieldsRead(env, tag, attrs).value, name) ==
      match FindAttr(attrs, name) case Some(text) => Some(ValueFromAttr(env, text)) case None => None
  {
    hide PutAttrs, ByTag;
    var m := map["kind" := Str(KindRead(tag, attrs))];
    if FindAttr(attrs, name).Some? {
      var i :| 0 <= i < |attrs| && attrs[i] == Attr(name, FindAttr(attrs, name).value);
      PutAttrsAt(env, m, attrs, tag, i);
    } else {
      PutAttrsElsewhere(env, m, attrs, tag, name);
    }
  }

  lemma {:induction false} ReadAttrsAreDistinct(raw: seq<Attr>)
    requires ReadAttrs(raw).Ok?
    ensures Distinct(ReadAttrs(raw).value)
  {
    hide Normalised;
    if raw != [] {
      ReadAttrsAreDistinct(raw[..|raw| - 1]);
      var earlier, all := ReadAttrs(raw[..|raw| - 1]).value, ReadAttrs(raw).value;
      assert all == earlier + [all[|earlier|]];
      assert !HasAttr(earlier, all[|earlier|].name);
    }
  }

  /** The element tells, before anything is read, whether the writer will accept the node. */
  lemma WritesIffAccepted(env: Env, tag: string, attrs: seq<Attr>, kids: seq<Json>)
    requires tag != "SubTree" && Distinct(attrs) && FieldsRead(env, tag, attrs).Ok? && FitsSlot(ShapeRead(tag), kids)
    ensures Writes(env, tag, attrs) <==> Accepts(env, KindRead(tag, attrs),
      Slotted(FieldsRead(env, tag, attrs).value, ShapeRead(tag), kids), ShapeRead(tag))
  {
    hide ByTag, FindAttr, PutAttrs, SpecFields, RenamedFields, Snake, Distinct, RequireKnown;
    var fields := FieldsRead(env, tag, attrs).value;
    var obj := Slotted(fields, ShapeRead(tag), kids);
    var kind := KindRead(tag, attrs);
    assert SameRenamed(fields, obj);
    RenamedFieldsLookAt(env, kind, fields, obj);
    if ByTag(tag).Some? && !NamesKind(tag) {
      RowReadsItsElement(tag, attrs);
      SpecFieldsRename(env, ByTag(tag).value, attrs);
      var i := RowIsFound(ByTag(tag).value, tag);
      NotForever(i);
    } else if ByKind(kind).Some? && ByKind(kind).value.shape == ShapeRead(tag) {
      var i := KindIndex(kind, 0).value;
      ForeignShapes(tag);
      RenamingRows(i);
      if kind == "parallel" {
        RequireIsLookedUp(env, tag, attrs);
      } else {
        NothingRenamed(env, kind, obj);
      }
    }
  }

  lemma NotForever(i: nat)
    requires i < ROWS && i != 6
    ensures Row(i).kind != "forever"
  {
    if Row(i).kind == "forever" {
      ForeverIsRowSix(i);
    }
  }

  lemma ForeignShapes(tag: string)
    requires NamesKind(tag) || ByTag(tag).None?
    ensures !ShapeRead(tag).Decorator?
  {
  }

  lemma NothingRenamed(env: Env, kind: string, obj: map<string, Json>)
    requires kind !in RENAMING
    ensures RenamedFields(env, kind, obj) == Ok(Renamed([], {}))
  {
  }

  // ----- Writing what was read -----

  lemma SubTreeIsRefused(env: Env, e: Element, v: Json, depth: nat)
    requires NodeOf(env, e) == Ok(v) && e.tag == "SubTree"
    ensures PrintNode(env, v, depth).Err?
  {
  }

  lemma PrintedByRow(env: Env, kind: string, obj: map<string, Json>, depth: nat)
    requires GetStr(obj, "kind") == Some(kind) && depth <= MAX_DEPTH
    ensures PrintNode(env, Obj(obj), depth) ==
      match ByKind(kind)
      case None => PrintForeign(env, kind, Obj(obj), depth)
      case Some(km) =>
        if RenamedFields(env, km.kind, obj).Err? then Err(RenamedFields(env, km.kind, obj).error)
        else PrintElement(env, km, Obj(obj), Escaped(KnownAttrs(env, km, obj, RenamedFields(env, km.kind, obj).value)), depth)
  {
    hide RenamedFields, KnownAttrs, Ports, ByKind;
    var node := Obj(obj);
    if ByKind(kind).Some? {
      assert PrintNode(env, node, depth) == PrintKnown(env, ByKind(kind).value, node, depth);
    }
  }

  /** An accepted leaf is written as one empty element. */
  lemma LeafIsWritten(env: Env, kind: string, obj: map<string, Json>, depth: nat)
    requires GetStr(obj, "kind") == Some(kind) && "child" !in obj && "children" !in obj && depth <= MAX_DEPTH
    ensures PrintNode(env, Obj(obj), depth).Ok? <==> Accepts(env, kind, obj, Leaf)
    ensures PrintNode(env, Obj(obj), depth).Ok? ==>
      PrintNode(env, Obj(obj), depth) == Ok([Empty(match ByKind(kind) case Some(km) => TagOf(km) case None => "Action", Escaped(WrittenAttrs(env, kind, obj)))])
  {
    hide RenamedFields, KnownAttrs, Ports, ByKind;
    PrintedByRow(env, kind, obj, depth);
  }

  lemma ControlIsWritten(env: Env, kind: string, obj: map<string, Json>, depth: nat)
    requires GetStr(obj, "kind") == Some(kind) && "child" !in obj && GetArr(obj, "children").Some? && depth <= MAX_DEPTH
    ensures var inner := PrintAll(env, obj["children"].items, depth + 1);
      && (PrintNode(env, Obj(obj), depth).Ok? <==> Accepts(env, kind, obj, Control) && inner.Ok?)
      && (PrintNode(env, Obj(obj), depth).Ok? ==>
            PrintNode(env, Obj(obj), depth) == Enclosed(match ByKind(kind) case Some(km) => TagOf(km) case None => Camel(kind),
              Escaped(WrittenAttrs(env, kind, obj)), inner))
  {
    hide RenamedFields, KnownAttrs, Ports, ByKind;
    PrintedByRow(env, kind, obj, depth);
    var ports := Ports(env, env.order(obj.Keys), obj, {});
    assert [] + ports == ports;
  }

  lemma DecoratorIsWritten(env: Env, kind: string, obj: map<string, Json>, depth: nat)
    requires GetStr(obj, "kind") == Some(kind) && "children" !in obj && ByKind(kind).Some? && depth <= MAX_DEPTH
    requires Get(obj, "child").Some? && obj["child"].Obj?
    ensures var inner := PrintNode(env, obj["child"], depth + 1);
      && (PrintNode(env, Obj(obj), depth).Ok? <==> Accepts(env, kind, obj, Decorator) && inner.Ok?)
      && (PrintNode(env, Obj(obj), depth).Ok? ==>
            PrintNode(env, Obj(obj), depth) == Enclosed(TagOf(ByKind(kind).value), Escaped(WrittenAttrs(env, kind, obj)), inner))
  {
    hide RenamedFields, KnownAttrs, Ports, ByKind;
    PrintedByRow(env, kind, obj, depth);
  }

  /** A node whose subtrees are written is written itself, as the rewritten element around them. */
  lemma SlottedIsWritten(env: Env, tag: string, attrs: seq<Attr>, kids: seq<Json>, depth: nat)
    requires tag != "SubTree" && Distinct(attrs) && FieldsRead(env, tag, attrs).Ok? && FitsSlot(ShapeRead(tag), kids)
    requires depth <= MAX_DEPTH && (forall i :: 0 <= i < |kids| ==> kids[i].Obj?)
    ensures var obj := Slotted(FieldsRead(env, tag, attrs).value, ShapeRead(tag), kids);
      var inner := PrintAll(env, kids, depth + 1);
      var raw := Escaped(WrittenAttrs(env, KindRead(tag, attrs), obj));
      var printed := PrintNode(env, Obj(obj), depth);
      && (printed.Ok? <==> Writes(env, tag, attrs) && inner.Ok?)
      && (printed.Ok? ==> printed == if ShapeRead(tag).Leaf? then Ok([Empty(WrittenTag(tag, attrs), raw)])
                                     else Enclosed(WrittenTag(tag, attrs), raw, inner))
  {
    hide ByTag, FieldsRead, Writes, RenamedFields, Distinct, KindRead, PrintNode, PrintAll, WrittenAttrs, ByKind;
    WritesIffAccepted(env, tag, attrs, kids);
    FieldsAreFlat(env, tag, attrs);
    var obj := Slotted(FieldsRead(env, tag, attrs).value, ShapeRead(tag), kids);
    var kind := KindRead(tag, attrs);
    PrintNothing(env, depth + 1);
    if ShapeRead(tag).Leaf? {
      LeafIsWritten(env, kind, obj, depth);
    } else if ShapeRead(tag).Control? {
      ControlIsWritten(env, kind, obj, depth);
    } else {
      DecoratorHasRow(tag, attrs);
      DecoratorIsWritten(env, kind, obj, depth);
      PrintAllSingleton(env, kids[0], depth + 1);
      assert kids == [kids[0]];
    }
  }

  lemma PrintNothing(env: Env, depth: nat)
    ensures PrintAll(env, [], depth) == Ok([])
  {
  }

  lemma DecoratorHasRow(tag: string, attrs: seq<Attr>)
    requires ShapeRead(tag).Decorator?
    ensures ByKind(KindRead(tag, attrs)).Some?
  {
    RowReadsItsElement(tag, attrs);
  }

  lemma NodesAreObjects(env: Env, e: Element)
    requires NodeOf(env, e).Ok?
    ensures NodeOf(env, e).value.Obj?
  {
    hide PutAttrs, SpecFields, ByTag;
  }

  lemma HeightOfSlotted(fields: map<string, Json>, shape: Shape, kids: seq<Json>)
    requires FitsSlot(shape, kids) && "child" !in fields && "children" !in fields
    ensures Height(Obj(Slotted(fields, shape, kids))) == 1 + HeightAll(kids)
  {
    if shape.Decorator? {
      assert kids == [kids[0]] && kids[1..] == [];
    }
  }

  /** What a node read from an element is made of. */
  lemma NodeParts(env: Env, e: Element) returns (kids: seq<Json>)
    requires NodeOf(env, e).Ok? && e.tag != "SubTree"
    ensures ReadAttrs(e.raw).Ok? && Distinct(AttrsOf(e)) && NodesOf(env, e.Children()) == Ok(kids)
    ensures FieldsRead(env, e.tag, AttrsOf(e)).Ok? && FitsSlot(ShapeRead(e.tag), kids)
    ensures NodeOf(env, e).value == Obj(Slotted(FieldsRead(env, e.tag, AttrsOf(e)).value, ShapeRead(e.tag), kids))
    ensures Height(NodeOf(env, e).value) == 1 + HeightAll(kids)
    ensures forall i :: 0 <= i < |kids| ==> kids[i].Obj?
  {
    hide FrameToValue, ByTag, FieldsRead, Distinct, Height, HeightAll;
    ReadAttrsAreDistinct(e.raw);
    kids := NodesOf(env, e.Children()).value;
    FrameIsSlotted(env, e.tag, AttrsOf(e), kids);
    FieldsAreFlat(env, e.tag, AttrsOf(e));
    HeightOfSlotted(FieldsRead(env, e.tag, AttrsOf(e)).value, ShapeRead(e.tag), kids);
    forall i | 0 <= i < |kids| ensures kids[i].Obj? {
      NodesAreObjects(env, e.Children()[i]);
    }
  }

  /** A node that was read is written exactly when every element in it can be and no level is too deep;
      what is written are the rewritten elements. */
  lemma {:induction false} WrittenIff(env: Env, e: Element, depth: nat)
    requires NodeOf(env, e).Ok?
    ensures var v := NodeOf(env, e).value;
      && (PrintNode(env, v, depth).Ok? <==> depth + Height(v) <= MAX_DEPTH + 1 && AllWrite(env, e))
      && (PrintNode(env, v, depth).Ok? ==> PrintNode(env, v, depth) == Ok(Events(Rewritten(env, e))))
    decreases e, 1
  {
    hide NodeOf, NodesOf, PrintNode, PrintAll, AllWrite, Rewritten, Events, Height, HeightAll;
    var v := NodeOf(env, e).value;
    if e.tag == "SubTree" {
      SubTreeIsRefused(env, e, v, depth);
      ReferenceDoesNotWrite(env, e);
    } else if depth > MAX_DEPTH {
      TooDeepFails(env, v, depth);
    } else {
      ChildrenRead(env, e);
      AllWrittenIff(env, e, e.Children(), depth + 1);
      NodeWrittenIff(env, e, depth);
    }
  }

  lemma ChildrenRead(env: Env, e: Element)
    requires NodeOf(env, e).Ok?
    ensures NodesOf(env, e.Children()).Ok?
  {
    hide FrameToValue;
  }

  /** The same for one node, given its children. */
  lemma NodeWrittenIff(env: Env, e: Element, depth: nat)
    requires NodeOf(env, e).Ok? && e.tag != "SubTree" && depth <= MAX_DEPTH && NodesOf(env, e.Children()).Ok?
    requires var vs := NodesOf(env, e.Children()).value;
      && (PrintAll(env, vs, depth + 1).Ok? <==> depth + 1 + HeightAll(vs) <= MAX_DEPTH + 1 && EachWrites(env, e.Children()))
      && (PrintAll(env, vs, depth + 1).Ok? ==>
            PrintAll(env, vs, depth + 1) == Ok(EventsAll(RewrittenAll(env, e.Children()))))
    ensures var v := NodeOf(env, e).value;
      && (PrintNode(env, v, depth).Ok? <==> depth + Height(v) <= MAX_DEPTH + 1 && AllWrite(env, e))
      && (PrintNode(env, v, depth).Ok? ==> PrintNode(env, v, depth) == Ok(Events(Rewritten(env, e))))
  {
    hide NodeOf, NodesOf, PrintNode, PrintAll, Writes, FieldsRead, Height, HeightAll, Distinct, WrittenAttrs, WrittenTag,
      ShapeRead, KindRead, Slotted, AttrsOf, Rewritten, RewrittenAll, Events, EventsAll, AllWrite, EachWrites;
    var v := NodeOf(env, e).value;
    var kids := NodeParts(env, e);
    SlottedIsWritten(env, e.tag, AttrsOf(e), kids, depth);
    assert FieldsOf(env, e) == v.fields;
    LeavesHoldNothing(ShapeRead(e.tag), kids);
    AllWriteParts(env, e);
    RewrittenEvents(env, e);
  }

  lemma LeavesHoldNothing(shape: Shape, kids: seq<Json>)
    requires FitsSlot(shape, kids)
    ensures shape.Leaf? ==> kids == []
  {
  }

  lemma AllWriteParts(env: Env, e: Element)
    ensures AllWrite(env, e) <==> Writes(env, e.tag, AttrsOf(e)) && EachWrites(env, e.Children())
  {
    hide Writes, AttrsOf;
  }

  lemma ReferenceDoesNotWrite(env: Env, e: Element)
    ensures AllWrite(env, e) ==> e.tag != "SubTree"
  {
  }

  lemma RewrittenEvents(env: Env, e: Element)
    requires ShapeRead(e.tag).Leaf? ==> e.Children() == []
    ensures var attrs := AttrsOf(e);
      var raw := Escaped(WrittenAttrs(env, KindRead(e.tag, attrs), FieldsOf(env, e)));
      Events(Rewritten(env, e)) ==
        if ShapeRead(e.tag).Leaf? then [Empty(WrittenTag(e.tag, attrs), raw)]
        else [Start(WrittenTag(e.tag, attrs), raw)] + EventsAll(RewrittenAll(env, e.Children())) + [End(WrittenTag(e.tag, attrs))]
  {
    hide ShapeRead, AttrsOf, WrittenAttrs, WrittenTag, FieldsOf, KindRead;
  }

  lemma {:induction false} AllWrittenIff(env: Env, parent: Element, es: seq<Element>, depth: nat)
    requires NodesOf(env, es).Ok? && depth <= MAX_DEPTH + 1
    requires forall e :: e in es ==> e < parent
    ensures var vs := NodesOf(env, es).value;
      && (PrintAll(env, vs, depth).Ok? <==> depth + HeightAll(vs) <= MAX_DEPTH + 1 && EachWrites(env, es))
      && (PrintAll(env, vs, depth).Ok? ==> PrintAll(env, vs, depth) == Ok(EventsAll(RewrittenAll(env, es))))
    decreases parent, 0, |es|
  {
    hide NodeOf, PrintNode, AllWrite, Height, Rewritten, Events;
    if es != [] {
      assert es[0] in es;
      WrittenIff(env, es[0], depth);
      assert forall e :: e in es[1..] ==> e in es;
      AllWrittenIff(env, parent, es[1..], depth);
      var vs := NodesOf(env, es).value;
      assert vs[1..] == NodesOf(env, es[1..]).value;
      assert EachWrites(env, es) <==> AllWrite(env, es[0]) && EachWrites(env, es[1..]) by {
        forall i | 0 < i < |es| ensures es[i] == es[1..][i - 1] {}
      }
    }
  }

  // ----- Foreign elements and foreign kinds -----

  /** The name of an element can be got back from the kind made of it. */
  predicate NameSurvives(tag: string) {
    '_' !in tag && (tag == [] || !IsLower(tag[0])) && ByKind(Snake(tag)).None?
  }

  lemma RowTagIsFound(km: KindMap, kind: string)
    requires ByKind(kind) == Some(km) && km.elem.Tag?
    ensures ByTag(TagOf(km)).Some? && !Structural(TagOf(km))
  {
    var i := KindIndex(kind, 0).value;
    ByTagFindsRow(i);
    TagsAreNotStructural(i);
  }

  lemma ControlRowHasTag(km: KindMap, kind: string)
    requires ByKind(kind) == Some(km) && !km.shape.Leaf?
    ensures km.elem.Tag?
  {
    NonLeafRows(KindIndex(kind, 0).value);
  }

  lemma NonLeafRows(i: nat)
    requires i < ROWS && !Row(i).shape.Leaf?
    ensures Row(i).elem.Tag?
  {
    assert i < 13;
  }

  /** An element the table has no row for, around children that can be written, is written back under its
      own name exactly when the name holds no underscore, does not start with a lower-case letter, and its
      snake-case form is no kind of the table. */
  lemma ForeignElementKeepsNameIff(env: Env, tag: string, attrs: seq<Attr>, kids: seq<Json>, depth: nat)
    requires ByTag(tag).None? && !Structural(tag)
    requires FrameToValue(env, tag, attrs, kids).Ok? && depth <= MAX_DEPTH && PrintAll(env, kids, depth + 1).Ok?
    ensures var printed := PrintNode(env, FrameToValue(env, tag, attrs, kids).value, depth);
      printed.Ok? && printed.value != [] && printed.value[0].Start? && printed.value[0].tag == tag <==> NameSurvives(tag)
  {
    hide PrintNode, PrintAll, ByTag, ByKind, PutAttrs, Snake, Camel, WrittenAttrs, FrameToValue;
    FrameIsSlotted(env, tag, attrs, kids);
    FieldsAreFlat(env, tag, attrs);
    var obj := FrameToValue(env, tag, attrs, kids).value.fields;
    ControlIsWritten(env, Snake(tag), obj, depth);
    CamelInvertsSnakeIff(tag);
    if ByKind(Snake(tag)).Some? && ByKind(Snake(tag)).value.shape.Control? {
      ControlRowHasTag(ByKind(Snake(tag)).value, Snake(tag));
      RowTagIsFound(ByKind(Snake(tag)).value, Snake(tag));
    }
  }

  lemma {:induction false} CamelOpensHigh(s: string)
    ensures CamelFrom(s, true) != [] ==> !IsLower(CamelFrom(s, true)[0])
  {
    if s != [] && s[0] == '_' {
      CamelOpensHigh(s[1..]);
    }
  }

  lemma NoKindIsRoot(kind: string)
    ensures Camel(kind) != "root"
  {
    CamelByCharacter(kind);
    CamelOpensHigh(kind);
    assert "root"[0] == 'r';
  }

  lemma AttachTellsApart(st: Import, a: Json, b: Json)
    ensures Attach(st, a) == Attach(st, b) ==> a == b
  {
    var x, y := Attach(st, a), Attach(st, b);
    if x == y {
      if st.stack == [] {
        assert x.trees[|st.trees|] == y.trees[|st.trees|];
      } else {
        var top := st.stack[|st.stack| - 1];
        assert x.stack[|st.stack| - 1].children == y.stack[|st.stack| - 1].children;
        assert (top.children + [a])[|top.children|] == (top.children + [b])[|top.children|];
      }
    }
  }

  /** A `<BehaviorTree>` that closes is not the node that was written. */
  lemma TreeIsNoNode(env: Env, attrs: seq<Attr>, m: map<string, Json>, st: Import)
    requires GetArr(m, "children").Some?
    ensures Close(env, Frame("BehaviorTree", attrs, m["children"].items), st) != Ok(Attach(st, Obj(m)))
  {
    var items := m["children"].items;
    var closed := Close(env, Frame("BehaviorTree", attrs, items), st);
    if closed.Ok? {
      if st.stack == [] {
        var node := Obj(m);
        assert items[0] < node;
        assert closed.value.trees[|st.trees|].1 == items[0];
        assert Attach(st, node).trees[|st.trees|].1 == node;
      } else {
        var last := |st.stack| - 1;
        assert |Attach(st, Obj(m)).stack[last].children| == |st.stack[last].children| + 1;
      }
    }
  }

  lemma NoIdAmongPorts(env: Env, m: map<string, Json>)
    requires env.Lawful() && "ID" !in m
    ensures FindAttr(Ports(env, env.order(m.Keys), m, {}), "ID") == None
  {
    PortsArePorts(env, m, {});
  }

  /** What the reader makes of the element written for a foreign kind, when it is an element like any other. */
  lemma ForeignKindReads(env: Env, kind: string, m: map<string, Json>)
    requires env.Lawful() && ByKind(kind).None? && GetStr(m, "kind") == Some(kind)
    requires "ID" !in m && "child" !in m && GetArr(m, "children").Some?
    ensures FrameToValue(env, Camel(kind), Ports(env, env.order(m.Keys), m, {}), m["children"].items) == Ok(Obj(m))
        <==> SnakeCase(kind) && Camel(kind) !in {"SubTree", "Action", "Condition"} && ByTag(Camel(kind)).None?
  {
    hide PutAttrs, Ports, Snake, SnakeCase, Camel, ByTag, ByKind, Env.Lawful, SpecFields;
    var tag, attrs, kids := Camel(kind), Ports(env, env.order(m.Keys), m, {}), m["children"].items;
    NoIdAmongPorts(env, m);
    if tag != "SubTree" && !NamesKind(tag) {
      FrameIsSlotted(env, tag, attrs, kids);
      if ByTag(tag).Some? {
        RowReadsItsElement(tag, attrs);
        if FrameToValue(env, tag, attrs, kids).Ok? {
          FieldsAreFlat(env, tag, attrs);
        }
      } else {
        SnakeInvertsCamelIff(kind);
        if Snake(tag) == kind {
          assert [] + attrs == attrs;
          PortsComeBack(env, kind, [], m, tag);
          assert (m - {"children"})["children" := Arr(kids)] == m;
        } else if FrameToValue(env, tag, attrs, kids).Ok? {
          FieldsAreFlat(env, tag, attrs);
        }
      }
    }
  }

  /** A kind the table has no row for, written with its children and read again, comes back as itself
      exactly when it is snake case and its element name is neither known nor structural. */
  lemma ForeignKindReadsBackIff(env: Env, kind: string, m: map<string, Json>, st: Import)
    requires env.Lawful() && ByKind(kind).None? && GetStr(m, "kind") == Some(kind)
    requires "ID" !in m && "child" !in m && GetArr(m, "children").Some?
    ensures var attrs := Ports(env, env.order(m.Keys), m, {});
      && ReadAttrs(Escaped(attrs)) == Ok(attrs)
      && (Close(env, Frame(Camel(kind), attrs, m["children"].items), st) == Ok(Attach(st, Obj(m)))
          <==> SnakeCase(kind) && !Structural(Camel(kind)) && ByTag(Camel(kind)).None?)
  {
    hide FrameToValue, Ports, SnakeCase, Camel, ByTag, ByKind, Env.Lawful, Attach, Close;
    var attrs, kids := Ports(env, env.order(m.Keys), m, {}), m["children"].items;
    PortsArePorts(env, m, {});
    ReadAttrsInvertsEscaped(attrs);
    NoKindIsRoot(kind);
    if Camel(kind) == "BehaviorTree" {
      TreeIsNoNode(env, attrs, m, st);
    } else {
      ForeignKindReads(env, kind, m);
      NodeCloses(env, Frame(Camel(kind), attrs, kids), st, Obj(m));
    }
  }

  lemma NodeCloses(env: Env, f: Frame, st: Import, v: Json)
    requires !Container(f.tag)
    ensures Close(env, f, st) == Ok(Attach(st, v)) <==> FrameToValue(env, f.tag, f.attrs, f.children) == Ok(v)
  {
    hide FrameToValue;
    var node := FrameToValue(env, f.tag, f.attrs, f.children);
    if node.Ok? {
      AttachTellsApart(st, node.value, v);
    }
  }

  // ----- Which elements come back as themselves -----

  function AttrValue(env: Env, attrs: seq<Attr>, name: string): Option<Json> {
    match FindAttr(attrs, name)
    case Some(text) => Some(ValueFromAttr(env, text))
    case None => None
  }

  /** The same names with the same values, in any order. */
  ghost predicate SameAttrs(env: Env, a: seq<Attr>, b: seq<Attr>) {
    forall name :: AttrValue(env, a, name) == AttrValue(env, b, name)
  }

  /** The element, and of an element without a row everything it carries. A row says itself which
      attributes its element has. */
  ghost predicate SameElement(env: Env, a: Element, b: Element) {
    && a.tag == b.tag
    && (NamesKind(a.tag) || ByTag(a.tag).None? ==> SameAttrs(env, AttrsOf(a), AttrsOf(b)))
  }

  ghost predicate SameElements(env: Env, a: Element, b: Element) {
    && SameElement(env, a, b)
    && |a.Children()| == |b.Children()|
    && forall i :: 0 <= i < |a.Children()| ==> SameElements(env, a.Children()[i], b.Children()[i])
  }

  /** The condition on one element that is written at all: an action's kind is no condition and has no
      element of its own, a condition's kind is one of the table, a foreign element has a name that
      survives and no `ID`. */
  predicate Survives(tag: string, attrs: seq<Attr>) {
    if tag == "Action" then
      match ByKind(IdIn(attrs)) case Some(km) => km.elem == Elem.Action case None => true
    else if tag == "Condition" then
      match ByKind(IdIn(attrs)) case Some(km) => km.elem == Elem.Condition case None => false
    else
      ByTag(tag).Some? || (NameSurvives(tag) && !HasAttr(attrs, "ID"))
  }

  predicate AllSurvive(e: Element) {
    Survives(e.tag, AttrsOf(e)) && (e.Around? ==> EachSurvives(e.inner))
  }

  predicate EachSurvives(es: seq<Element>) {
    forall i :: 0 <= i < |es| ==> AllSurvive(es[i])
  }

  lemma FindAttrAt(attrs: seq<Attr>, i: nat)
    requires Distinct(attrs) && i < |attrs|
    ensures FindAttr(attrs, attrs[i].name) == Some(attrs[i].text)
  {
    assert HasAttr(attrs, attrs[i].name);
  }

  /** An attribute written for a field holds the field's value. */
  lemma PortValue(env: Env, id: seq<Attr>, obj: map<string, Json>, name: string)
    requires env.Lawful() && "ID" !in obj && |id| <= 1 && (forall i :: 0 <= i < |id| ==> id[i].name == "ID")
    ensures var attrs := id + Ports(env, env.order(obj.Keys), obj, {});
      && Distinct(attrs)
      && AttrValue(env, attrs, name) ==
           if name == "ID" then (if id == [] then None else Some(ValueFromAttr(env, id[0].text)))
           else if name in RESERVED then None
           else Get(obj, name)
  {
    hide FindAttr, Ports, AttrFromValue, ValueFromAttr, Env.Lawful;
    var ports := Ports(env, env.order(obj.Keys), obj, {});
    var attrs := id + ports;
    PortsArePorts(env, obj, {});
    IdAndPortsAreDistinct(env, id, ports, obj);
    if HasAttr(attrs, name) {
      var i :| 0 <= i < |attrs| && attrs[i].name == name;
      FindAttrAt(attrs, i);
      if i >= |id| {
        assert attrs[i] == ports[i - |id|];
        BareAttributeRoundTrip(env, obj[name]);
      }
    } else {
      AmongPorts(id, ports, name);
    }
  }

  lemma AmongPorts(id: seq<Attr>, ports: seq<Attr>, name: string)
    ensures HasAttr(id, name) || HasAttr(ports, name) ==> HasAttr(id + ports, name)
  {
    var attrs := id + ports;
    if HasAttr(id, name) {
      var i :| 0 <= i < |id| && id[i].name == name;
      assert attrs[i].name == name;
    }
    if HasAttr(ports, name) {
      var i :| 0 <= i < |ports| && ports[i].name == name;
      assert attrs[|id| + i].name == name;
    }
  }

  lemma NoReservedAttr(env: Env, tag: string, attrs: seq<Attr>, name: string)
    requires (NamesKind(tag) || ByTag(tag).None?) && FieldsRead(env, tag, attrs).Ok? && name in RESERVED
    ensures FindAttr(attrs, name).None?
  {
    hide ByTag, PutAttrs;
    PutAttrsRefusesReserved(env, map["kind" := Str(KindRead(tag, attrs))], attrs, tag);
  }

  lemma NoIdField(env: Env, tag: string, attrs: seq<Attr>)
    requires (NamesKind(tag) || ByTag(tag).None?) && FieldsRead(env, tag, attrs).Ok?
    ensures "ID" !in FieldsRead(env, tag, attrs).value
  {
    hide ByTag, PutAttrs;
    PutAttrsElsewhere(env, map["kind" := Str(KindRead(tag, attrs))], attrs, tag, "ID");
  }

  /** Every attribute that was read is written again, but for the `ID` of a foreign element. */
  lemma AttrsComeBackIff(env: Env, tag: string, attrs: seq<Attr>, kids: seq<Json>)
    requires env.Lawful() && tag != "SubTree" && (NamesKind(tag) || ByTag(tag).None?)
    requires Distinct(attrs) && FieldsRead(env, tag, attrs).Ok? && FitsSlot(ShapeRead(tag), kids)
    requires ByKind(KindRead(tag, attrs)).None? || !ByKind(KindRead(tag, attrs)).value.elem.Tag?
    requires ByKind(KindRead(tag, attrs)).Some? ==> NamesKind(tag)
    ensures var written := WrittenAttrs(env, KindRead(tag, attrs),
        Slotted(FieldsRead(env, tag, attrs).value, ShapeRead(tag), kids));
      && Distinct(written)
      && (SameAttrs(env, attrs, written) <==> NamesKind(tag) || !HasAttr(attrs, "ID"))
  {
    hide ByTag, PutAttrs, FindAttr, Ports, FieldsRead, Env.Lawful, ByKind, Distinct, Snake, ValueFromAttr;
    var kind, shape := KindRead(tag, attrs), ShapeRead(tag);
    var fields := FieldsRead(env, tag, attrs).value;
    var obj := Slotted(fields, shape, kids);
    var id := if NamesKind(tag) then [Attr("ID", kind)] else [];
    ForeignShapes(tag);
    FieldsAreFlat(env, tag, attrs);
    NoIdField(env, tag, attrs);
    WrittenIsIdAndPorts(env, tag, kind, obj);
    var written := id + Ports(env, env.order(obj.Keys), obj, {});
    PortValue(env, id, obj, "ID");
    forall name | name != "ID" ensures AttrValue(env, attrs, name) == AttrValue(env, written, name) {
      PortValue(env, id, obj, name);
      if name in RESERVED {
        NoReservedAttr(env, tag, attrs, name);
      } else {
        PortRead(env, tag, attrs, name);
        assert Get(obj, name) == Get(fields, name);
      }
    }
    IdIsRead(env, tag, attrs);
    assert SameAttrs(env, attrs, written) <==> AttrValue(env, attrs, "ID") == AttrValue(env, written, "ID");
  }

  lemma IdIsRead(env: Env, tag: string, attrs: seq<Attr>)
    requires FieldsRead(env, tag, attrs).Ok?
    ensures NamesKind(tag) ==> AttrValue(env, attrs, "ID") == Some(ValueFromAttr(env, KindRead(tag, attrs)))
    ensures AttrValue(env, attrs, "ID").Some? <==> HasAttr(attrs, "ID")
  {
    hide ByTag, PutAttrs;
  }

  lemma WrittenIsIdAndPorts(env: Env, tag: string, kind: string, obj: map<string, Json>)
    requires "children" in obj <==> !NamesKind(tag)
    requires ByKind(kind).None? || (!ByKind(kind).value.elem.Tag? && NamesKind(tag))
    ensures WrittenAttrs(env, kind, obj) ==
      (if NamesKind(tag) then [Attr("ID", kind)] else []) + Ports(env, env.order(obj.Keys), obj, {})
  {
    hide Ports, ByKind, RenamedFields;
    if ByKind(kind).Some? {
      FoundKindIsPlain(kind);
      NothingRenamed(env, kind, obj);
      var ports := Ports(env, env.order(obj.Keys), obj, {});
      assert [Attr("ID", kind)] + [] + ports == [Attr("ID", kind)] + ports;
    }
  }

  lemma FoundKindIsPlain(kind: string)
    requires ByKind(kind).Some? && !ByKind(kind).value.elem.Tag?
    ensures kind !in RENAMING && ByKind(kind).value.kind == kind
  {
    PlainRows(KindIndex(kind, 0).value);
  }

  /** The tag that is written is the tag that was read. */
  lemma TagComesBackIff(env: Env, tag: string, attrs: seq<Attr>)
    requires tag != "SubTree" && Writes(env, tag, attrs)
    ensures WrittenTag(tag, attrs) == tag <==>
      if tag == "Action" || tag == "Condition" then Survives(tag, attrs) else ByTag(tag).Some? || NameSurvives(tag)
  {
    hide ByTag, ByKind, Snake, Camel, RequireKnown;
    var kind := KindRead(tag, attrs);
    if NamesKind(tag) {
      if ByKind(kind).Some? && ByKind(kind).value.elem.Tag? {
        RowTagIsFound(ByKind(kind).value, kind);
      }
    } else if ByTag(tag).Some? {
      RowReadsItsElement(tag, attrs);
    } else {
      CamelInvertsSnakeIff(tag);
      if ByKind(kind).Some? {
        ControlRowHasTag(ByKind(kind).value, kind);
        RowTagIsFound(ByKind(kind).value, kind);
      }
    }
  }

  /** One element is written back as itself exactly under `Survives`. */
  lemma ElementSurvivesIff(env: Env, e: Element)
    requires env.Lawful() && NodeOf(env, e).Ok? && e.tag != "SubTree" && Writes(env, e.tag, AttrsOf(e))
    ensures SameElement(env, e, Rewritten(env, e)) <==> Survives(e.tag, AttrsOf(e))
  {
    hide ByTag, ByKind, Snake, Camel, NodeOf, FieldsRead, WrittenAttrs, Writes, Env.Lawful, Distinct, NameSurvives, SameAttrs;
    var tag, attrs := e.tag, AttrsOf(e);
    var kids := NodeParts(env, e);
    TagComesBackIff(env, tag, attrs);
    if (NamesKind(tag) || ByTag(tag).None?) && WrittenTag(tag, attrs) == tag {
      WrittenKindFits(tag, attrs);
      AttrsComeBackIff(env, tag, attrs, kids);
      var obj := Slotted(FieldsRead(env, tag, attrs).value, ShapeRead(tag), kids);
      assert FieldsOf(env, e) == obj;
      ReadAttrsInvertsEscaped(WrittenAttrs(env, KindRead(tag, attrs), obj));
      assert AttrsOf(Rewritten(env, e)) == WrittenAttrs(env, KindRead(tag, attrs), obj);
    }
  }

  lemma WrittenKindFits(tag: string, attrs: seq<Attr>)
    requires (NamesKind(tag) || ByTag(tag).None?) && WrittenTag(tag, attrs) == tag
    ensures var kind := KindRead(tag, attrs);
      ByKind(kind).None? || (!ByKind(kind).value.elem.Tag? && NamesKind(tag))
  {
    hide ByTag, ByKind, Snake;
    var kind := KindRead(tag, attrs);
    if ByKind(kind).Some? && ByKind(kind).value.elem.Tag? {
      RowTagIsFound(ByKind(kind).value, kind);
    }
  }

  lemma {:induction false} ElementsSurviveIff(env: Env, e: Element)
    requires env.Lawful() && NodeOf(env, e).Ok? && AllWrite(env, e)
    ensures SameElements(env, e, Rewritten(env, e)) <==> AllSurvive(e)
  {
    hide SameElement, Survives, Writes, Env.Lawful, WrittenAttrs, WrittenTag;
    ReferenceDoesNotWrite(env, e);
    ElementSurvivesIff(env, e);
    RewrittenChildren(env, e);
    forall i | 0 <= i < |e.Children()|
      ensures SameElements(env, e.Children()[i], Rewritten(env, e).Children()[i]) <==> AllSurvive(e.Children()[i])
    {
      ElementsSurviveIff(env, e.inner[i]);
    }
  }

  lemma RewrittenChildren(env: Env, e: Element)
    requires NodeOf(env, e).Ok? && e.tag != "SubTree"
    ensures |Rewritten(env, e).Children()| == |e.Children()|
    ensures forall i :: 0 <= i < |e.Children()| ==>
      NodeOf(env, e.Children()[i]).Ok? && Rewritten(env, e).Children()[i] == Rewritten(env, e.Children()[i])
  {
    hide ByTag, ByKind, FrameToValue, FieldsRead, WrittenAttrs, WrittenTag, NodeOf;
    var kids := NodeParts(env, e);
  }

  lemma NoSuchTag(tag: string)
    requires forall i :: 0 <= i < 15 ==> Row(i).elem != Tag(tag)
    ensures ByTag(tag).None?
  {
    if ByTag(tag).Some? {
      var i := RowIsFound(ByTag(tag).value, tag);
    }
  }

  lemma {:induction false} LowerStays(s: string)
    requires forall i :: 0 <= i < |s| ==> !IsUpper(s[i])
    ensures SnakeRest(s) == s
  {
    if s != [] {
      LowerStays(s[1..]);
    }
  }

  lemma OneWord(tag: string, kind: string)
    requires |kind| == |tag| > 0 && kind[0] == ToLower(tag[0]) && kind[1..] == tag[1..]
    requires forall i :: 0 < i < |tag| ==> !IsUpper(tag[i])
    ensures Snake(tag) == kind
  {
    LowerStays(tag[1..]);
  }

  lemma DelayIsRenamed(env: Env)
    ensures Writes(env, "delay", []) && !Survives("delay", [])
  {
    hide ByTag, ByKind, Snake;
    NoSuchTag("delay");
    OneWord("delay", "delay");
    NoDelayKind();
  }

  lemma SelectorIsRenamed(env: Env)
    ensures Writes(env, "Selector", []) && !Survives("Selector", []) && WrittenTag("Selector", []) == "Fallback"
  {
    hide ByTag, ByKind, Snake;
    NoSuchTag("Selector");
    OneWord("Selector", "selector");
    ByKindFindsRow(1);
    assert Row(1) == Ctrl("selector", "Fallback");
  }

  lemma WaitIsNotWritten(env: Env)
    ensures FieldsRead(env, "Wait", []).Ok? && !Writes(env, "Wait", [])
  {
    hide ByTag, ByKind, Snake;
    NoSuchTag("Wait");
    OneWord("Wait", "wait");
    ByKindFindsRow(17);
    assert Row(17) == Act("wait");
  }

  /** Elements that are read and written under another name, and one that is read and cannot be written. */
  lemma NotEverythingComesBack(env: Env)
    ensures Writes(env, "delay", []) && !Survives("delay", [])
    ensures Writes(env, "Selector", []) && !Survives("Selector", []) && WrittenTag("Selector", []) == "Fallback"
    ensures FieldsRead(env, "Wait", []).Ok? && !Writes(env, "Wait", [])
  {
    hide Writes, Survives, WrittenTag, FieldsRead;
    DelayIsRenamed(env);
    SelectorIsRenamed(env);
    WaitIsNotWritten(env);
  }

  lemma NoDelayKind()
    ensures ByKind("delay").None?
  {
  }
}
