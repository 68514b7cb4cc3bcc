/** The vocabulary of the format, name by name: which element and which attributes stand for which kind and
    which fields, as whole documents show it. */
module BehaviorXmlVocabulary {
  import opened Wrappers
  import opened Json
  import opened Decimals
  import opened KindTable
  import opened TagNames
  import opened Text
  import opened XmlText
  import opened BehaviorXmlWriter
  import opened BehaviorXmlReader
  import opened BehaviorXmlElements
  import opened BehaviorXmlReExport
  import opened BehaviorXmlDocuments
  import opened BehaviorXmlRoundTrip
  import opened Numerals

  // ----- The names -----

  /** Kinds whose element is their own name in camel case. */
  predicate OwnElement(kind: string) {
    kind in {"sequence", "reactive_sequence", "parallel", "repeat", "force_success", "force_failure", "timeout", "cooldown"}
  }

  /** The seven kinds that go by another name of the standard. */
  function StandardElement(kind: string): Option<string> {
    if kind == "selector" then Some("Fallback")
    else if kind == "reactive_selector" then Some("ReactiveFallback")
    else if kind == "forever" then Some("Repeat")
    else if kind == "retry" then Some("RetryUntilSuccessful")
    else if kind == "invert" then Some("Inverter")
    else if kind == "succeed" then Some("AlwaysSuccess")
    else if kind == "fail" then Some("AlwaysFailure")
    else None
  }

  predicate IsAction(kind: string) {
    kind in {"drive_to", "patrol", "wait", "cruise", "brake", "face", "hold", "follow", "intercept", "steer_clear", "run_tool"}
  }

  predicate IsCondition(kind: string) {
    kind in {"arrived", "facing", "obstacle_ahead", "path_blocked"}
  }

  predicate HoldsMany(kind: string) {
    kind in {"sequence", "selector", "reactive_sequence", "reactive_selector", "parallel"}
  }

  predicate HoldsNone(kind: string) {
    kind == "succeed" || kind == "fail" || IsAction(kind) || IsCondition(kind)
  }

  lemma CamelOfWord(word: string)
    requires '_' !in word
    ensures Camel(word) == Capitalised(word)
  {
    SplitWithout(word, '_');
    assert [word][1..] == [] && CapitalisedAll([]) == "";
  }

  lemma CamelOfTwo(first: string, second: string)
    requires '_' !in first && '_' !in second
    ensures Camel(first + "_" + second) == Capitalised(first) + Capitalised(second)
  {
    SplitAt(first, '_', second);
    SplitWithout(second, '_');
    hide Split;
    assert first + ['_'] + second == first + "_" + second;
    var words := [first] + [second];
    assert words[1..] == [second] && [second][1..] == [];
    assert CapitalisedAll([second]) == Capitalised(second) + CapitalisedAll([]);
  }

  lemma CamelWordIs(word: string, camel: string)
    requires word != "" && '_' !in word && |camel| == |word|
    requires camel[0] == ToUpper(word[0]) && camel[1..] == word[1..]
    ensures Camel(word) == camel
  {
    CamelOfWord(word);
    assert camel == [camel[0]] + camel[1..];
  }

  lemma OwnWords()
    ensures Camel("sequence") == "Sequence" && Camel("parallel") == "Parallel" && Camel("repeat") == "Repeat"
    ensures Camel("timeout") == "Timeout" && Camel("cooldown") == "Cooldown"
  {
    hide Camel;
    CamelWordIs("sequence", "Sequence");
    CamelWordIs("parallel", "Parallel");
    CamelWordIs("repeat", "Repeat");
    CamelWordIs("timeout", "Timeout");
    CamelWordIs("cooldown", "Cooldown");
  }

  lemma OwnPair(first: string, second: string, kind: string, camel: string)
    requires '_' !in first && '_' !in second && kind == first + "_" + second
    requires camel == Capitalised(first) + Capitalised(second)
    ensures Camel(kind) == camel
  {
    hide Camel;
    CamelOfTwo(first, second);
  }

  lemma OwnPairs()
    ensures Camel("reactive_sequence") == "ReactiveSequence"
    ensures Camel("force_success") == "ForceSuccess" && Camel("force_failure") == "ForceFailure"
  {
    hide Camel;
    WordStarts();
    hide Capitalised;
    OwnPair("reactive", "sequence", "reactive_sequence", "ReactiveSequence");
    OwnPair("force", "success", "force_success", "ForceSuccess");
    OwnPair("force", "failure", "force_failure", "ForceFailure");
  }

  lemma WordStarts()
    ensures Capitalised("reactive") == "Reactive" && Capitalised("sequence") == "Sequence"
    ensures Capitalised("force") == "Force" && Capitalised("success") == "Success" && Capitalised("failure") == "Failure"
  {
  }

  /** What a row of the table must say. */
  predicate Spelled(km: KindMap) {
    && km.elem == (if IsAction(km.kind) then Action
                   else if IsCondition(km.kind) then Condition
                   else if StandardElement(km.kind).Some? then Tag(StandardElement(km.kind).value)
                   else Tag(Camel(km.kind)))
    && km.shape == (if HoldsMany(km.kind) then Control else if HoldsNone(km.kind) then Leaf else Decorator)
  }

  predicate Known(kind: string) {
    OwnElement(kind) || StandardElement(kind).Some? || IsAction(kind) || IsCondition(kind)
  }

  lemma RowIsSpelled(i: nat)
    requires i < ROWS
    ensures Spelled(Row(i)) && Known(Row(i).kind)
  {
    if i < 5 {
      ControlIsSpelled(i);
    } else if i < 15 {
      TaggedIsSpelled(i);
    } else {
      NamedIsSpelled(i);
    }
  }

  lemma ControlIsSpelled(i: nat)
    requires i < 5
    ensures Spelled(Row(i)) && Known(Row(i).kind)
  {
    OwnWords();
    OwnPairs();
    hide Camel;
  }

  lemma TaggedIsSpelled(i: nat)
    requires 5 <= i < 15
    ensures Spelled(Row(i)) && Known(Row(i).kind)
  {
    OwnWords();
    OwnPairs();
    hide Camel;
  }

  lemma NamedIsSpelled(i: nat)
    requires 15 <= i < ROWS
    ensures Spelled(Row(i)) && Known(Row(i).kind)
  {
    hide Camel;
  }

  lemma KnownHasRow(kind: string)
    requires Known(kind)
    ensures ByKind(kind).Some?
  {
    var i := RowOf(kind);
    hide Known;
  }

  lemma RowOf(kind: string) returns (i: nat)
    requires Known(kind)
    ensures i < ROWS && Row(i).kind == kind
  {
    if IsAction(kind) || IsCondition(kind) {
      i := if kind == "drive_to" then 15 else if kind == "patrol" then 16 else if kind == "wait" then 17
        else if kind == "cruise" then 18 else if kind == "brake" then 19 else if kind == "face" then 20
        else if kind == "hold" then 21 else if kind == "follow" then 22 else if kind == "intercept" then 23
        else if kind == "steer_clear" then 24 else if kind == "run_tool" then 25 else if kind == "arrived" then 26
        else if kind == "facing" then 27 else if kind == "obstacle_ahead" then 28 else 29;
    } else {
      i := TaggedRowOf(kind);
    }
  }

  lemma TaggedRowOf(kind: string) returns (i: nat)
    requires OwnElement(kind) || StandardElement(kind).Some?
    ensures i < ROWS && Row(i).kind == kind
  {
    i := if kind == "sequence" then 0 else if kind == "selector" then 1 else if kind == "reactive_sequence" then 2
      else if kind == "reactive_selector" then 3 else if kind == "parallel" then 4 else if kind == "repeat" then 5
      else if kind == "forever" then 6 else if kind == "retry" then 7 else if kind == "invert" then 8
      else if kind == "force_success" then 9 else if kind == "force_failure" then 10 else if kind == "timeout" then 11
      else if kind == "cooldown" then 12 else if kind == "succeed" then 13 else 14;
  }

  /** The table holds exactly the kinds of the vocabulary, each under its element and with its slot. */
  lemma ByKindIff(kind: string, km: KindMap)
    ensures ByKind(kind) == Some(km) <==> km.kind == kind && Known(kind) && Spelled(km)
  {
    hide Camel;
    if ByKind(kind).Some? {
      RowIsSpelled(KindIndex(kind, 0).value);
    }
    if Known(kind) {
      KnownHasRow(kind);
    }
  }

  // ----- What is written -----

  /** The element of a node of any kind; `interior` says that it holds children. */
  function ElementOf(kind: string, interior: bool): string {
    if IsAction(kind) then "Action"
    else if IsCondition(kind) then "Condition"
    else if StandardElement(kind).Some? then StandardElement(kind).value
    else if OwnElement(kind) || interior then Camel(kind)
    else "Action"
  }

  predicate Markup(c: char) {
    c in {'&', '<', '>', '\"', '\'', '\n', '\r', '\t'}
  }

  lemma {:induction false} PlainText(s: string)
    requires IsPlain(s)
    ensures EscapeText(s) == s
  {
    if s != "" {
      PlainText(s[1..]);
      assert s == [s[0]] + s[1..];
    }
  }

  const ROOT: Event := Start("root", [Attr("BTCPP_format", "4"), Attr("main_tree_to_execute", "MainTree")])
  const TREE: Event := Start("BehaviorTree", [Attr("ID", "MainTree")])

  predicate IsPlain(s: string) {
    forall i :: 0 <= i < |s| ==> !Markup(s[i])
  }

  lemma EscapedPlain(attrs: seq<Attr>)
    requires forall i :: 0 <= i < |attrs| ==> IsPlain(attrs[i].text)
    ensures Escaped(attrs) == attrs
  {
    forall i | 0 <= i < |attrs| ensures EscapeText(attrs[i].text) == attrs[i].text {
      PlainText(attrs[i].text);
    }
    hide EscapeText;
    assert forall i :: 0 <= i < |attrs| ==> Escaped(attrs)[i] == attrs[i];
  }

  lemma WrapperIs()
    ensures RootStart() == ROOT && TreeStart() == TREE
  {
    hide EscapeText, Escaped;
    assert IsPlain("4") && IsPlain("MainTree");
    EscapedPlain([Attr("BTCPP_format", "4"), Attr("main_tree_to_execute", "MainTree")]);
    EscapedPlain([Attr("ID", "MainTree")]);
  }

  /** Every exported node stands in the same document, under the element of its kind, which is open exactly when
      it holds something; a kind without an element of its own is named in `ID`. */
  lemma WrittenUnder(env: Env, m: map<string, Json>, kind: string)
    requires Get(m, "kind") == Some(Str(kind)) && ExportXml(env, Obj(m)).Ok?
    ensures var events := ExportXml(env, Obj(m)).value;
      && |events| >= 5 && events[0] == ROOT && events[1] == TREE
      && events[|events| - 2..] == [End("BehaviorTree"), End("root")]
      && events[2].tag == ElementOf(kind, "children" in m)
      && (events[2].Start? <==> "children" in m || "child" in m) && (events[2].Empty? <==> !events[2].Start?)
      && (events[2].tag in {"Action", "Condition"} && events[2].Empty? ==>
            events[2].attrs != [] && events[2].attrs[0] == Attr("ID", EscapeText(kind)))
  {
    hide PrintNode, ElementOf, EscapeText;
    WrapperIs();
    NodeWrittenUnder(env, m, kind);
    var inner := PrintNode(env, Obj(m), 0).value;
    WrappedAround(inner, ExportXml(env, Obj(m)).value);
  }

  lemma WrappedAround(inner: seq<Event>, events: seq<Event>)
    requires inner != [] && events == [ROOT, TREE] + inner + [End("BehaviorTree"), End("root")]
    ensures |events| >= 5 && events[0] == ROOT && events[1] == TREE && events[2] == inner[0]
    ensures events[|events| - 2..] == [End("BehaviorTree"), End("root")]
  {
  }

  lemma NodeWrittenUnder(env: Env, m: map<string, Json>, kind: string)
    requires Get(m, "kind") == Some(Str(kind)) && PrintNode(env, Obj(m), 0).Ok?
    ensures var inner := PrintNode(env, Obj(m), 0).value;
      && inner != [] && inner[0].tag == ElementOf(kind, "children" in m)
      && (inner[0].Start? <==> "children" in m || "child" in m) && (inner[0].Empty? <==> !inner[0].Start?)
      && (inner[0].tag in {"Action", "Condition"} && inner[0].Empty? ==>
            inner[0].attrs != [] && inner[0].attrs[0] == Attr("ID", EscapeText(kind)))
  {
    hide Camel, EscapeText, PrintKnown, PrintForeign, PrintAll, ByKind, Ports;
    if ByKind(kind).Some? {
      var km := ByKind(kind).value;
      ByKindIff(kind, km);
      KnownWritten(env, km, Obj(m), 0);
      SlotIsHeld(km);
    } else {
      ByKindIff(kind, KindMap(kind, Action, Leaf));
      if Known(kind) {
        KnownHasRow(kind);
      }
      ForeignWritten(env, kind, Obj(m), 0);
    }
  }

  lemma SlotIsHeld(km: KindMap)
    requires Spelled(km) && Known(km.kind)
    ensures TagOf(km) == ElementOf(km.kind, true) == ElementOf(km.kind, false)
    ensures TagOf(km) in {"Action", "Condition"} <==> !km.elem.Tag?
  {
    OwnWords();
    OwnPairs();
    hide Camel;
  }

  lemma KnownWritten(env: Env, km: KindMap, node: Json, depth: nat)
    requires node.Obj? && PrintKnown(env, km, node, depth).Ok?
    ensures RenamedFields(env, km.kind, node.fields).Ok?
    ensures var inner, m := PrintKnown(env, km, node, depth).value, node.fields;
      var attrs := KnownAttrs(env, km, m, RenamedFields(env, km.kind, m).value);
      && inner != [] && inner[0] == (if km.shape.Leaf? then Empty(TagOf(km), Escaped(attrs)) else Start(TagOf(km), Escaped(attrs)))
      && (km.shape.Leaf? <==> "child" !in m && "children" !in m)
      && (!km.elem.Tag? ==> attrs != [] && attrs[0] == Attr("ID", km.kind))
      && (km.elem.Tag? ==> RenamedFields(env, km.kind, m).value.extra <= attrs)
  {
    hide RenamedFields, Ports, PrintNode, PrintAll, EscapeText;
  }

  lemma ForeignWritten(env: Env, kind: string, node: Json, depth: nat)
    requires node.Obj? && PrintForeign(env, kind, node, depth).Ok?
    ensures var inner, m := PrintForeign(env, kind, node, depth).value, node.fields;
      && inner != [] && inner[0].tag == (if "children" in m then Camel(kind) else "Action")
      && (inner[0].Start? <==> "children" in m || "child" in m) && (inner[0].Empty? <==> !inner[0].Start?)
      && (inner[0].Empty? ==> inner[0].attrs != [] && inner[0].attrs[0] == Attr("ID", EscapeText(kind)))
  {
    hide Ports, PrintNode, PrintAll, EscapeText, Camel;
  }

  /** A number of repetitions that may be written: a whole one, with its text. */
  ghost predicate CountText(times: Option<Json>, text: string) {
    && times.Some? && times.value.Num?
    && exists k: nat :: FromInt(k) == times.value.number.AsDecimal() && text == ShowNat(if k > I64_MAX then I64_MAX else k)
  }

  /** The seconds of a node; one, if it does not say. */
  ghost predicate Lasts(seconds: Option<Json>, d: Decimal) {
    if seconds == None then d == Dec(1, 0) else seconds.value.Num? && seconds.value.number.AsDecimal() == d
  }

  function Thousandfold(d: Decimal): Decimal {
    if d.mantissa == 0 then Dec(0, 0) else Dec(d.mantissa, d.exponent + 3)
  }

  /** The field of a kind under the name and in the unit of the format, before escaping; text and field must agree
      for the node to be written at all. */
  ghost predicate FieldText(env: Env, m: map<string, Json>, kind: string, name: string, text: string) {
    match kind
    case "parallel" =>
      name == "success_count" && text == (if Get(m, "require") == Some(Str("one")) then "1" else "-1")
      && (GetStr(m, "require").Some? ==> GetStr(m, "require").value in {"all", "one"})
    case "forever" => name == "num_cycles" && text == "-1"
    case "repeat" => name == "num_cycles" && CountText(Get(m, "times"), text)
    case "retry" => name == "num_attempts" && CountText(Get(m, "times"), text)
    case "timeout" =>
      name == "msec" && exists d: Decimal :: Lasts(Get(m, "seconds"), d) && env.decimals.read(text) == Some(Thousandfold(d))
    case "cooldown" =>
      name == "sec" && exists d: Decimal :: Lasts(Get(m, "seconds"), d) && env.decimals.read(text) == Some(d)
    case _ => true
  }

  /** Six kinds carry a field under another name, as their element's first attribute. */
  lemma FieldWritten(env: Env, m: map<string, Json>, kind: string)
    requires env.Lawful() && Get(m, "kind") == Some(Str(kind)) && ExportXml(env, Obj(m)).Ok?
    requires kind in {"parallel", "forever", "repeat", "retry", "timeout", "cooldown"}
    ensures var events := ExportXml(env, Obj(m)).value;
      |events| > 2 && !events[2].End? && events[2].attrs != []
      && exists text :: events[2].attrs[0].text == EscapeText(text) && FieldText(env, m, kind, events[2].attrs[0].name, text)
  {
    hide PrintNode, PrintKnown, EscapeText, FieldText, RenamedFields, KnownAttrs, Escaped, Env.Lawful, Spelled;
    KnownHasRow(kind);
    var km := ByKind(kind).value;
    ByKindIff(kind, km);
    SixAreTagged(km);
    assert PrintNode(env, Obj(m), 0) == PrintKnown(env, km, Obj(m), 0) by { PrintedAsKnown(env, m, kind, km); }
    KnownWritten(env, km, Obj(m), 0);
    FieldRenamed(env, m, kind);
    WrapperIs();
    var inner := PrintNode(env, Obj(m), 0).value;
    WrappedAround(inner, ExportXml(env, Obj(m)).value);
    var attrs, extra := KnownAttrs(env, km, m, RenamedFields(env, kind, m).value), RenamedFields(env, kind, m).value.extra;
    assert extra[0] == attrs[0];
    EscapedFirst(attrs);
  }

  lemma EscapedFirst(attrs: seq<Attr>)
    requires attrs != []
    ensures Escaped(attrs) != [] && Escaped(attrs)[0] == Attr(attrs[0].name, EscapeText(attrs[0].text))
  {
  }

  lemma SixAreTagged(km: KindMap)
    requires Spelled(km) && km.kind in {"parallel", "forever", "repeat", "retry", "timeout", "cooldown"}
    ensures km.elem.Tag? && !km.shape.Leaf?
  {
  }

  lemma PrintedAsKnown(env: Env, m: map<string, Json>, kind: string, km: KindMap)
    requires Get(m, "kind") == Some(Str(kind)) && ByKind(kind) == Some(km)
    ensures PrintNode(env, Obj(m), 0) == PrintKnown(env, km, Obj(m), 0)
  {
  }

  lemma FieldRenamed(env: Env, m: map<string, Json>, kind: string)
    requires env.Lawful() && RenamedFields(env, kind, m).Ok?
    requires kind in {"parallel", "forever", "repeat", "retry", "timeout", "cooldown"}
    ensures var extra := RenamedFields(env, kind, m).value.extra;
      |extra| == 1 && FieldText(env, m, kind, extra[0].name, extra[0].text)
  {
    if kind == "repeat" || kind == "retry" {
      CountRenamed(env, m, kind);
    } else if kind == "timeout" || kind == "cooldown" {
      TimeRenamed(env, m, kind);
    } else {
      FlagRenamed(env, m, kind);
    }
  }

  lemma FlagRenamed(env: Env, m: map<string, Json>, kind: string)
    requires RenamedFields(env, kind, m).Ok? && kind in {"parallel", "forever"}
    ensures var extra := RenamedFields(env, kind, m).value.extra;
      |extra| == 1 && FieldText(env, m, kind, extra[0].name, extra[0].text)
  {
  }

  lemma CountRenamed(env: Env, m: map<string, Json>, kind: string)
    requires RenamedFields(env, kind, m).Ok? && kind in {"repeat", "retry"}
    ensures var extra := RenamedFields(env, kind, m).value.extra;
      |extra| == 1 && FieldText(env, m, kind, extra[0].name, extra[0].text)
  {
    hide WholeField, CountText;
    assert WholeField(m, kind).Ok?;
    CountWritten(m, kind);
  }

  lemma TimeRenamed(env: Env, m: map<string, Json>, kind: string)
    requires env.Lawful() && RenamedFields(env, kind, m).Ok? && kind in {"timeout", "cooldown"}
    ensures var extra := RenamedFields(env, kind, m).value.extra;
      |extra| == 1 && FieldText(env, m, kind, extra[0].name, extra[0].text)
  {
    TimeAttr(env, m, kind);
    SecondsLast(m, kind);
    var d := SecsField(m, kind).value;
    ReadsAsWritten(env, d);
    hide FieldText, SecsField, Lasts, NumText, RenamedFields, Scaled, Thousandfold, Env.Lawful;
    if kind == "timeout" {
      TimeoutText(env, m, NumText(env.decimals, Scaled(d, 3)), d);
    } else {
      CooldownText(env, m, NumText(env.decimals, d), d);
    }
  }

  lemma TimeoutText(env: Env, m: map<string, Json>, text: string, d: Decimal)
    requires Lasts(Get(m, "seconds"), d) && env.decimals.read(text) == Some(Thousandfold(d))
    ensures FieldText(env, m, "timeout", "msec", text)
  {
    hide Lasts, Thousandfold;
  }

  lemma CooldownText(env: Env, m: map<string, Json>, text: string, d: Decimal)
    requires Lasts(Get(m, "seconds"), d) && env.decimals.read(text) == Some(d)
    ensures FieldText(env, m, "cooldown", "sec", text)
  {
    hide Lasts;
  }

  lemma TimeAttr(env: Env, m: map<string, Json>, kind: string)
    requires RenamedFields(env, kind, m).Ok? && kind in {"timeout", "cooldown"}
    ensures SecsField(m, kind).Ok?
    ensures var d := SecsField(m, kind).value;
      RenamedFields(env, kind, m).value.extra ==
        [if kind == "timeout" then Attr("msec", NumText(env.decimals, Scaled(d, 3))) else Attr("sec", NumText(env.decimals, d))]
  {
    hide SecsField, NumText, Scaled;
  }

  lemma SecondsLast(m: map<string, Json>, kind: string)
    ensures SecsField(m, kind).Ok? ==> Lasts(Get(m, "seconds"), SecsField(m, kind).value)
  {
  }

  lemma ReadsAsWritten(env: Env, d: Decimal)
    requires env.Lawful()
    ensures env.decimals.read(NumText(env.decimals, Scaled(d, 3))) == Some(Thousandfold(d))
    ensures env.decimals.read(NumText(env.decimals, d)) == Some(d)
  {
    NumTextRoundTrip(env.decimals, Scaled(d, 3));
    NumTextRoundTrip(env.decimals, d);
  }

  lemma CountWritten(m: map<string, Json>, kind: string)
    requires WholeField(m, kind).Ok?
    ensures CountText(Get(m, "times"), WholeField(m, kind).value)
  {
    var k := WholeValue(m["times"].number.AsDecimal());
    FromWholeValue(m["times"].number.AsDecimal());
    assert FromInt(k) == m["times"].number.AsDecimal();
  }

  // ----- What is read -----

  /** The integer an attribute holds, if it is there and can be read. */
  ghost predicate Says(attrs: seq<Attr>, name: string, n: JsonInt) {
    FindAttr(attrs, name).Some? && ParseI64(FindAttr(attrs, name).value) == Some(n)
  }

  ghost predicate SaysNone(attrs: seq<Attr>, name: string) {
    forall n: JsonInt :: !Says(attrs, name, n)
  }

  /** A repetition with a negative count goes on for ever. */
  ghost predicate Endless(attrs: seq<Attr>) {
    exists n: JsonInt :: n < 0 && Says(attrs, "num_cycles", n)
  }

  ghost predicate SecondsRead(read: Option<Decimal>, v: Option<Json>) {
    v == Some(Num(FloatNum(if read.Some? then read.value else Dec(1, 0))))
  }

  /** The field an element's attributes give the node. */
  ghost predicate FieldRead(env: Env, attrs: seq<Attr>, tag: string, m: map<string, Json>) {
    match tag
    case "Parallel" => Get(m, "require") == Some(Str(if Says(attrs, "success_count", 1) then "one" else "all"))
    case "Repeat" =>
      && Get(m, "kind") == Some(Str(if Endless(attrs) then "forever" else "repeat"))
      && (forall n: JsonInt :: n >= 0 && Says(attrs, "num_cycles", n) ==> Get(m, "times") == Some(Num(IntNum(n))))
      && (SaysNone(attrs, "num_cycles") ==> Get(m, "times") == Some(Num(IntNum(1))))
    case "RetryUntilSuccessful" =>
      && (forall n: JsonInt :: Says(attrs, "num_attempts", n) ==> Get(m, "times") == Some(Num(IntNum(if n < 0 then 0 else n))))
      && (SaysNone(attrs, "num_attempts") ==> Get(m, "times") == Some(Num(IntNum(1))))
    case "Timeout" =>
      var text := FindAttr(attrs, "msec");
      SecondsRead(if text.None? then None else if env.decimals.read(text.value + "e-3").Some? then env.decimals.read(text.value + "e-3")
                  else Thousandth(env.decimals.read(text.value)), Get(m, "seconds"))
    case "Cooldown" =>
      var text := FindAttr(attrs, "sec");
      SecondsRead(if text.None? then None else env.decimals.read(text.value), Get(m, "seconds"))
    case _ => true
  }

  function Thousandth(d: Option<Decimal>): Option<Decimal> {
    match d
    case Some(d) => Some(if d.mantissa == 0 then d else Dec(d.mantissa, d.exponent - 3))
    case None => None
  }

  /** Reading a document of one tree, whose outer element is that of a kind: the node has that kind, except that a
      repetition may be endless; its field is the one the attributes give; and it holds as many nodes as the
      element does elements, in the slot of its kind. */
  lemma ReadUnder(env: Env, d: Document, kind: string, v: Json)
    requires d.Flat() && |d.trees| == 1 && ImportXml(env, DocumentEvents(d)) == Ok(v)
    requires (OwnElement(kind) || StandardElement(kind).Some?) && d.trees[0].node.tag == ElementOf(kind, true)
    ensures var e := d.trees[0].node;
      && v.Obj?
      && (e.tag != "Repeat" ==> Get(v.fields, "kind") == Some(Str(kind)))
      && FieldRead(env, AttrsOf(e), e.tag, v.fields)
      && (if HoldsMany(kind) then GetArr(v.fields, "children").Some? && |v.fields["children"].items| == |e.Children()|
          else if HoldsNone(kind) then e.Children() == []
          else |e.Children()| == 1 && "child" in v.fields)
  {
    hide ByTag, ElementOf, NodeOf, FieldRead, OwnElement, StandardElement, HoldsMany, HoldsNone, FieldsRead, FindAttr, ImportXml;
    var e := d.trees[0].node;
    TagIsKnown(kind);
    var km := ByTag(e.tag).value;
    var u := OnlyTreeIsRead(env, d, v);
    var kids := NodeParts(env, u);
    RowFieldsRead(env, e.tag, AttrsOf(e));
    FieldsAreFlat(env, e.tag, AttrsOf(e));
    KidsAreSlotted(kind, km, SpecFields(env, km, AttrsOf(e)), kids);
    FieldIsRead(env, km, AttrsOf(e), SpecFields(env, km, AttrsOf(e)));
    KindIsRead(env, km, AttrsOf(e));
    hide SpecFields;
    SlotKeepsField(env, AttrsOf(e), e.tag, SpecFields(env, km, AttrsOf(e)), km.shape, kids);
  }

  lemma TagIsKnown(kind: string)
    requires OwnElement(kind) || StandardElement(kind).Some?
    ensures var tag := ElementOf(kind, true);
      && !Structural(tag) && ByTag(tag).Some? && ByTag(tag).value.elem == Tag(tag)
      && Spelled(ByTag(tag).value) && Known(ByTag(tag).value.kind)
      && ByTag(tag).value.kind == (if kind == "forever" then "repeat" else kind)
      && (tag == "Repeat" <==> kind == "forever" || kind == "repeat")
  {
    var i := TaggedRowOf(kind);
    RowIsSpelled(i);
    SlotIsHeld(Row(i));
    TagIsRow(i);
    RepeatIsShared(i);
    TagOfTagged(Row(i));
    hide Spelled, Known, Structural, ByTag, Row, ElementOf, OwnElement, StandardElement;
  }

  lemma TagOfTagged(km: KindMap)
    requires Spelled(km) && (OwnElement(km.kind) || StandardElement(km.kind).Some?)
    ensures km.elem == Tag(ElementOf(km.kind, true))
  {
    hide Camel;
  }

  lemma TagIsRow(i: nat)
    requires i < ROWS && Row(i).elem.Tag?
    ensures !Structural(Row(i).elem.name)
    ensures ByTag(Row(i).elem.name) == Some(if i == 6 then Row(5) else Row(i))
    ensures Spelled(Row(5)) && Known(Row(5).kind)
  {
    ByTagFindsRow(i);
    TagsAreNotStructural(i);
    RowIsSpelled(5);
  }

  lemma RepeatIsShared(i: nat)
    requires i < ROWS && Row(i).elem.Tag?
    ensures Row(i).elem.name == "Repeat" <==> i == 5 || i == 6
    ensures Row(i).kind == "forever" <==> i == 6
    ensures Row(i).kind == "repeat" <==> i == 5
    ensures Row(5).kind == "repeat" && Row(6).kind == "forever" && Row(5).elem == Row(6).elem
  {
  }

  lemma OnlyTreeIsRead(env: Env, d: Document, v: Json) returns (u: Element)
    requires d.Flat() && |d.trees| == 1 && ImportXml(env, DocumentEvents(d)) == Ok(v)
    requires !Structural(d.trees[0].node.tag) && ByTag(d.trees[0].node.tag).Some?
    ensures var e := d.trees[0].node;
      u.tag == e.tag && u.raw == e.raw && |u.Children()| == |e.Children()| && NodeOf(env, u) == Ok(v)
  {
    hide NodeOf, ImportXml, ByTag;
    var e := d.trees[0].node;
    ImportReadsEntire(env, d, v);
    u := Unfolded(env, ElementsById(d.trees), e, 0);
    assert d.trees[..0] == [];
    assert ElementsById(d.trees) == map[TreeId(d.trees[0]) := e];
    assert EntryElement(d) == e;
  }

  lemma KidsAreSlotted(kind: string, km: KindMap, fields: map<string, Json>, kids: seq<Json>)
    requires Spelled(km) && km.kind == (if kind == "forever" then "repeat" else kind) && FitsSlot(km.shape, kids)
    ensures var m := Slotted(fields, km.shape, kids);
      if HoldsMany(kind) then GetArr(m, "children").Some? && m["children"].items == kids
      else if HoldsNone(kind) then kids == []
      else |kids| == 1 && "child" in m
  {
  }

  lemma KindIsRead(env: Env, km: KindMap, attrs: seq<Attr>)
    ensures km.kind != "repeat" ==> Get(SpecFields(env, km, attrs), "kind") == Some(Str(km.kind))
  {
  }

  lemma FieldIsRead(env: Env, km: KindMap, attrs: seq<Attr>, m: map<string, Json>)
    requires Spelled(km) && Known(km.kind) && km.elem.Tag? && m == SpecFields(env, km, attrs)
    requires km.kind != "forever"
    ensures FieldRead(env, attrs, km.elem.name, m)
  {
    FieldTags(km);
    hide Spelled, Known, FindAttr, ParseI64;
    var tag := km.elem.name;
    if tag == "Parallel" || tag == "Repeat" || tag == "RetryUntilSuccessful" {
      CountIsRead(env, km, attrs, m);
    } else {
      TimeIsRead(env, km, attrs, m);
    }
  }

  lemma CountIsRead(env: Env, km: KindMap, attrs: seq<Attr>, m: map<string, Json>)
    requires m == SpecFields(env, km, attrs)
    ensures km.kind == "parallel" ==> FieldRead(env, attrs, "Parallel", m)
    ensures km.kind == "repeat" ==> FieldRead(env, attrs, "Repeat", m)
    ensures km.kind == "retry" ==> FieldRead(env, attrs, "RetryUntilSuccessful", m)
  {
    IntRead(attrs, "success_count", -1);
    IntRead(attrs, "num_cycles", 1);
    IntRead(attrs, "num_attempts", 1);
    hide IntAttr, SaysNone, Says;
  }

  lemma TimeIsRead(env: Env, km: KindMap, attrs: seq<Attr>, m: map<string, Json>)
    requires m == SpecFields(env, km, attrs)
    ensures km.kind == "timeout" ==> FieldRead(env, attrs, "Timeout", m)
    ensures km.kind == "cooldown" ==> FieldRead(env, attrs, "Cooldown", m)
    ensures forall tag :: tag !in {"Parallel", "Repeat", "RetryUntilSuccessful", "Timeout", "Cooldown"} ==>
              FieldRead(env, attrs, tag, m)
  {
    hide FindAttr, IntAttr;
  }

  lemma FieldTags(km: KindMap)
    requires Spelled(km) && Known(km.kind) && km.elem.Tag? && km.kind != "forever"
    ensures km.elem.name == "Parallel" <==> km.kind == "parallel"
    ensures km.elem.name == "Repeat" <==> km.kind == "repeat"
    ensures km.elem.name == "RetryUntilSuccessful" <==> km.kind == "retry"
    ensures km.elem.name == "Timeout" <==> km.kind == "timeout"
    ensures km.elem.name == "Cooldown" <==> km.kind == "cooldown"
  {
    OwnWords();
    OwnPairs();
    hide Camel;
  }

  lemma IntRead(attrs: seq<Attr>, name: string, default: int)
    ensures SaysNone(attrs, name) ==> IntAttr(attrs, name, default) == default
    ensures forall n: JsonInt :: Says(attrs, name, n) ==> IntAttr(attrs, name, default) == n
    ensures !SaysNone(attrs, name) ==> exists n: JsonInt :: Says(attrs, name, n) && IntAttr(attrs, name, default) == n
  {
    if FindAttr(attrs, name).Some? && ParseI64(FindAttr(attrs, name).value).Some? {
      var n: JsonInt := ParseI64(FindAttr(attrs, name).value).value;
      assert Says(attrs, name, n);
    }
  }

  lemma SlotKeepsField(env: Env, attrs: seq<Attr>, tag: string, m: map<string, Json>, shape: Shape, kids: seq<Json>)
    requires FieldRead(env, attrs, tag, m) && FitsSlot(shape, kids)
    ensures FieldRead(env, attrs, tag, Slotted(m, shape, kids))
    ensures Get(Slotted(m, shape, kids), "kind") == Get(m, "kind")
  {
    hide FindAttr, ParseI64;
    var out := Slotted(m, shape, kids);
    assert Get(out, "kind") == Get(m, "kind") && Get(out, "require") == Get(m, "require");
    assert Get(out, "times") == Get(m, "times") && Get(out, "seconds") == Get(m, "seconds");
    hide Slotted, Get;
  }
}
