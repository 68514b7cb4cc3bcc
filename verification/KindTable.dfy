/** `TABLE`, row by row: which BehaviorTree.CPP element writes which behaviour kind. */
module KindTable {
  import opened Wrappers

  datatype Elem = Tag(name: string) | Action | Condition

  datatype Shape = Control | Decorator | Leaf

  datatype KindMap = KindMap(kind: string, elem: Elem, shape: Shape)

  function Ctrl(kind: string, tag: string): KindMap { KindMap(kind, Tag(tag), Control) }
  function Deco(kind: string, tag: string): KindMap { KindMap(kind, Tag(tag), Decorator) }
  function LeafTag(kind: string, tag: string): KindMap { KindMap(kind, Tag(tag), Leaf) }
  function Act(kind: string): KindMap { KindMap(kind, Action, Leaf) }
  function Cond(kind: string): KindMap { KindMap(kind, Condition, Leaf) }

  /** Every kind once. `repeat` precedes `forever`: both are `<Repeat>`. */
  const ROWS: nat := 30

  function Row(i: nat): KindMap
    requires i < ROWS
  {
    match i
    case 0 => Ctrl("sequence", "Sequence")
    case 1 => Ctrl("selector", "Fallback")
    case 2 => Ctrl("reactive_sequence", "ReactiveSequence")
    case 3 => Ctrl("reactive_selector", "ReactiveFallback")
    case 4 => Ctrl("parallel", "Parallel")
    case 5 => Deco("repeat", "Repeat")
    case 6 => Deco("forever", "Repeat")
    case 7 => Deco("retry", "RetryUntilSuccessful")
    case 8 => Deco("invert", "Inverter")
    case 9 => Deco("force_success", "ForceSuccess")
    case 10 => Deco("force_failure", "ForceFailure")
    case 11 => Deco("timeout", "Timeout")
    case 12 => Deco("cooldown", "Cooldown")
    case 13 => LeafTag("succeed", "AlwaysSuccess")
    case 14 => LeafTag("fail", "AlwaysFailure")
    case 15 => Act("drive_to")
    case 16 => Act("patrol")
    case 17 => Act("wait")
    case 18 => Act("cruise")
    case 19 => Act("brake")
    case 20 => Act("face")
    case 21 => Act("hold")
    case 22 => Act("follow")
    case 23 => Act("intercept")
    case 24 => Act("steer_clear")
    case 25 => Act("run_tool")
    case 26 => Cond("arrived")
    case 27 => Cond("facing")
    case 28 => Cond("obstacle_ahead")
    case _ => Cond("path_blocked")
  }

  function KindIndex(kind: string, i: nat): (r: Option<nat>)
    requires i <= ROWS
    ensures r.Some? ==> i <= r.value < ROWS && Row(r.value).kind == kind
    ensures r.Some? ==> forall j :: i <= j < r.value ==> Row(j).kind != kind
    ensures r.None? ==> forall j :: i <= j < ROWS ==> Row(j).kind != kind
    decreases ROWS - i
  {
    if i == ROWS then None else if Row(i).kind == kind then Some(i) else KindIndex(kind, i + 1)
  }

  function TagIndex(tag: string, i: nat): (r: Option<nat>)
    requires i <= ROWS
    ensures r.Some? ==> i <= r.value < ROWS && Row(r.value).elem == Tag(tag)
    ensures r.Some? ==> forall j :: i <= j < r.value ==> Row(j).elem != Tag(tag)
    ensures r.None? ==> forall j :: i <= j < ROWS ==> Row(j).elem != Tag(tag)
    decreases ROWS - i
  {
    if i == ROWS then None else if Row(i).elem == Tag(tag) then Some(i) else TagIndex(tag, i + 1)
  }

  function ByKind(kind: string): Option<KindMap> {
    match KindIndex(kind, 0)
    case Some(i) => Some(Row(i))
    case None => None
  }

  function ByTag(tag: string): Option<KindMap> {
    match TagIndex(tag, 0)
    case Some(i) => Some(Row(i))
    case None => None
  }

  /** Elements that hold trees and are no nodes. */
  predicate Container(tag: string) {
    tag == "root" || tag == "BehaviorTree"
  }

  /** Elements the reader treats by itself, before it looks at the table. */
  predicate Structural(tag: string) {
    Container(tag) || tag == "SubTree" || tag == "Action" || tag == "Condition"
  }

  /** Kinds are unique, so looking a row's kind up finds that row. */
  lemma ByKindFindsRow(i: nat)
    requires i < ROWS
    ensures ByKind(Row(i).kind) == Some(Row(i))
  {
    var j := KindIndex(Row(i).kind, 0).value;
    KindsDiffer(j, i);
  }

  lemma KindsDiffer(j: nat, i: nat)
    requires j <= i < ROWS && Row(j).kind == Row(i).kind
    ensures j == i
  {
    if i < 15 {
      TaggedKindsDiffer(j, i);
    } else {
      NamedKindsDiffer(j, i);
    }
  }

  lemma TaggedKindsDiffer(j: nat, i: nat)
    requires j <= i < 15 && Row(j).kind == Row(i).kind
    ensures j == i
  {
  }

  lemma NamedKindsDiffer(j: nat, i: nat)
    requires j <= i && 15 <= i < ROWS && Row(j).kind == Row(i).kind
    ensures j == i
  {
  }

  lemma TagsDiffer(j: nat, i: nat)
    requires j <= i < ROWS && Row(i).elem.Tag? && Row(j).elem == Row(i).elem
    ensures j == i || (j == 5 && i == 6)
  {
    assert i <= 14;
  }

  /** Looking a row's tag up finds that row; only `forever` is found as `repeat`. */
  lemma ByTagFindsRow(i: nat)
    requires i < ROWS && Row(i).elem.Tag?
    ensures ByTag(Row(i).elem.name) == Some(if i == 6 then Row(5) else Row(i))
  {
    var j := TagIndex(Row(i).elem.name, 0).value;
    TagsDiffer(j, i);
  }

  lemma TagsAreNotStructural(i: nat)
    requires i < ROWS && Row(i).elem.Tag?
    ensures !Structural(Row(i).elem.name)
  {
    assert i <= 14;
  }
}
