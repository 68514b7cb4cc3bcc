/** What the rewriting touches, and when globalizing a command and resolving it again restores it. */
module EntityIdLaws {
  import opened EntityIdWalk
  import opened EntityIds
  import opened EntityRegistry
  import opened Json
  import opened Numerals
  import opened Wrappers

  // ----- Positions -----

  datatype Step = Key(key: string) | Nth(i: nat)

  /** The value one step below, if there is one. */
  function Child(v: Json, step: Step): Option<Json> {
    match (v, step)
    case (Obj(m), Key(k)) => Get(m, k)
    case (Arr(items), Nth(i)) => if i < |items| then Some(items[i]) else None
    case _ => None
  }

  function At(v: Json, path: seq<Step>): Option<Json> {
    if path == [] then Some(v)
    else
      match Child(v, path[0])
      case Some(c) => At(c, path[1..])
      case None => None
  }

  /** What the schema expects one step below a settled position. */
  function ChildSlot(r: Reflection, v: Json, slot: Slot, step: Step): Slot {
    match step
    case Key(k) => if v.Obj? then AtKey(r, v.fields.Keys, slot, k) else Inert
    case Nth(i) => AtIndex(r, slot, i)
  }

  /** Whether the schema puts an entity at a position, and whether that field is local to a peer. */
  function LeafAt(r: Reflection, v: Json, slot: Slot, path: seq<Step>): Option<bool>
    requires r.WellFormed()
    decreases |path|
  {
    var at := Settle(r, v, slot);
    if IsLeaf(r, at) then if path == [] then Some(at.syncLocal) else None
    else if path == [] || Child(v, path[0]).None? then None
    else LeafAt(r, Child(v, path[0]).value, ChildSlot(r, v, at, path[0]), path[1..])
  }

  /** Whether a position is an entity, or lies inside the value at one. */
  predicate WithinLeaf(r: Reflection, v: Json, slot: Slot, path: seq<Step>)
    requires r.WellFormed()
    decreases |path|
  {
    var at := Settle(r, v, slot);
    IsLeaf(r, at)
    || (path != [] && Child(v, path[0]).Some?
        && WithinLeaf(r, Child(v, path[0]).value, ChildSlot(r, v, at, path[0]), path[1..]))
  }

  /** The same scalar, the same keys, or the same length. */
  ghost predicate SameHead(a: Option<Json>, b: Option<Json>) {
    match (a, b)
    case (None, None) => true
    case (Some(Obj(m)), Some(Obj(n))) => m.Keys == n.Keys
    case (Some(Arr(xs)), Some(Arr(ys))) => |xs| == |ys|
    case (Some(x), Some(y)) => x == y
    case _ => false
  }

  lemma ChildOfConverted(r: Reflection, leaf: Leaf, v: Json, slot: Slot, step: Step)
    requires r.WellFormed() && !IsLeaf(r, Settle(r, v, slot))
    ensures SameHead(Some(v), Some(Convert(r, leaf, v, slot)))
    ensures Child(v, step).None? ==> Child(Convert(r, leaf, v, slot), step).None?
    ensures Child(v, step).Some? ==>
              Child(Convert(r, leaf, v, slot), step)
              == Some(Convert(r, leaf, Child(v, step).value, ChildSlot(r, v, Settle(r, v, slot), step)))
  {
    hide Settle, AtKey, AtIndex;
    match v
    case Obj(m) =>
      assert Convert(r, leaf, v, slot).fields.Keys == m.Keys;
    case _ =>
  }

  /** Every entity position is rewritten, and every position outside one keeps its scalar, its keys or
      its length. Together the two clauses determine the result. */
  lemma {:induction false} TouchesExactlyTheLeaves(r: Reflection, leaf: Leaf, v: Json, slot: Slot, path: seq<Step>)
    requires r.WellFormed()
    ensures var out := Convert(r, leaf, v, slot);
      match LeafAt(r, v, slot, path)
      case Some(local) => At(v, path).Some? && At(out, path) == Some(leaf(At(v, path).value, local))
      case None => !WithinLeaf(r, v, slot, path) ==> SameHead(At(v, path), At(out, path))
    decreases |path|
  {
    hide Settle, AtKey, AtIndex, Convert;
    var at := Settle(r, v, slot);
    if IsLeaf(r, at) {
      LeafIsConverted(r, leaf, v, slot);
    } else if path == [] {
      ChildOfConverted(r, leaf, v, slot, Nth(0));
    } else {
      ChildOfConverted(r, leaf, v, slot, path[0]);
      if Child(v, path[0]).Some? {
        TouchesExactlyTheLeaves(r, leaf, Child(v, path[0]).value, ChildSlot(r, v, at, path[0]), path[1..]);
      }
    }
  }

  lemma LeafIsConverted(r: Reflection, leaf: Leaf, v: Json, slot: Slot)
    requires r.WellFormed() && IsLeaf(r, Settle(r, v, slot))
    ensures Convert(r, leaf, v, slot) == leaf(v, Settle(r, v, slot).syncLocal)
  {
  }

  /** Every entity of the value is left alone by `leaf`. */
  ghost predicate LeavesKept(r: Reflection, leaf: Leaf, v: Json, slot: Slot)
    requires r.WellFormed()
  {
    forall path :: LeafAt(r, v, slot, path).Some? ==>
                     At(v, path).Some? && leaf(At(v, path).value, LeafAt(r, v, slot, path).value) == At(v, path).value
  }

  lemma {:induction false} KeptIsIdentity(r: Reflection, leaf: Leaf, v: Json, slot: Slot)
    requires r.WellFormed() && LeavesKept(r, leaf, v, slot)
    ensures Convert(r, leaf, v, slot) == v
    decreases v
  {
    hide Settle, AtKey, AtIndex, LeavesKept;
    var at := Settle(r, v, slot);
    if IsLeaf(r, at) {
      assert LeafAt(r, v, slot, []) == Some(at.syncLocal);
      KeptAt(r, leaf, v, slot, []);
    } else {
      match v
      case Obj(m) =>
        forall k | k in m ensures Convert(r, leaf, m[k], AtKey(r, m.Keys, at, k)) == m[k] {
          KeptBelow(r, leaf, v, slot, Key(k));
          KeptIsIdentity(r, leaf, m[k], AtKey(r, m.Keys, at, k));
        }
        assert Convert(r, leaf, v, slot).fields == m;
      case Arr(items) =>
        forall i: nat | i < |items| ensures Convert(r, leaf, items[i], AtIndex(r, at, i)) == items[i] {
          KeptBelow(r, leaf, v, slot, Nth(i));
          KeptIsIdentity(r, leaf, items[i], AtIndex(r, at, i));
        }
      case _ =>
    }
  }

  lemma KeptAt(r: Reflection, leaf: Leaf, v: Json, slot: Slot, path: seq<Step>)
    requires r.WellFormed() && LeavesKept(r, leaf, v, slot) && LeafAt(r, v, slot, path).Some?
    ensures At(v, path).Some? && leaf(At(v, path).value, LeafAt(r, v, slot, path).value) == At(v, path).value
  {
  }

  lemma KeptBelow(r: Reflection, leaf: Leaf, v: Json, slot: Slot, step: Step)
    requires r.WellFormed() && LeavesKept(r, leaf, v, slot)
    requires !IsLeaf(r, Settle(r, v, slot)) && Child(v, step).Some?
    ensures LeavesKept(r, leaf, Child(v, step).value, ChildSlot(r, v, Settle(r, v, slot), step))
  {
    hide Settle, AtKey, AtIndex, Child, ChildSlot;
    var child, below := Child(v, step).value, ChildSlot(r, v, Settle(r, v, slot), step);
    forall path | LeafAt(r, child, below, path).Some?
      ensures At(child, path).Some? && leaf(At(child, path).value, LeafAt(r, child, below, path).value) == At(child, path).value
    {
      var longer := [step] + path;
      assert longer[0] == step && longer[1..] == path;
      assert LeafAt(r, v, slot, longer) == LeafAt(r, child, below, path);
      assert At(v, longer) == At(child, path);
    }
  }

  /** A value comes through unchanged exactly when each of its entities does. */
  lemma UnchangedIff(r: Reflection, leaf: Leaf, v: Json, slot: Slot)
    requires r.WellFormed()
    ensures Convert(r, leaf, v, slot) == v <==> LeavesKept(r, leaf, v, slot)
  {
    hide Convert, Settle;
    if Convert(r, leaf, v, slot) == v {
      forall path | LeafAt(r, v, slot, path).Some?
        ensures At(v, path).Some? && leaf(At(v, path).value, LeafAt(r, v, slot, path).value) == At(v, path).value
      {
        TouchesExactlyTheLeaves(r, leaf, v, slot, path);
      }
    }
    if LeavesKept(r, leaf, v, slot) {
      KeptIsIdentity(r, leaf, v, slot);
    }
  }

  // ----- Two passes in one -----

  function Then(f: Leaf, g: Leaf): Leaf {
    (v, local) => g(f(v, local), local)
  }

  /** `leaf` makes no array of what was none. */
  ghost predicate MakesNoArray(leaf: Leaf) {
    forall v, local :: leaf(v, local).Arr? ==> v.Arr?
  }

  lemma SettlesAlike(r: Reflection, v: Json, w: Json, slot: Slot)
    requires r.WellFormed() && v.Arr? == w.Arr?
    ensures Settle(r, v, slot) == Settle(r, w, slot)
    decreases if slot.Typed? then r.rank(slot.ty) else 0
  {
    if slot.Typed? && r.Wrapped(slot.ty).Some? && !v.Arr? {
      SettlesAlike(r, v, w, Typed(r.Wrapped(slot.ty).value, false));
    }
  }

  lemma LeafStaysLeaf(r: Reflection, v: Json, w: Json, slot: Slot)
    requires r.WellFormed() && IsLeaf(r, Settle(r, v, slot)) && (w.Arr? ==> v.Arr?)
    ensures Settle(r, w, slot) == Settle(r, v, slot)
    decreases if slot.Typed? then r.rank(slot.ty) else 0
  {
    if slot.Typed? && r.Wrapped(slot.ty).Some? {
      if v.Arr? {
        assert Settle(r, v, slot) == slot;
      } else {
        LeafStaysLeaf(r, v, w, Typed(r.Wrapped(slot.ty).value, false));
      }
    }
  }

  /** Rewriting twice is rewriting once with both leaf rules: the first pass moves no entity position. */
  lemma {:induction false} TwoPasses(r: Reflection, f: Leaf, g: Leaf, v: Json, slot: Slot)
    requires r.WellFormed() && MakesNoArray(f)
    ensures Convert(r, g, Convert(r, f, v, slot), slot) == Convert(r, Then(f, g), v, slot)
    decreases v
  {
    hide Settle, AtKey, AtIndex, MakesNoArray;
    var at, once := Settle(r, v, slot), Convert(r, f, v, slot);
    if IsLeaf(r, at) {
      assert once.Arr? ==> v.Arr? by { NoArrayAt(f, v, at.syncLocal); }
      LeafStaysLeaf(r, v, once, slot);
    } else {
      SettlesAlike(r, v, once, slot);
      match v
      case Obj(m) =>
        assert once.fields.Keys == m.Keys;
        forall k | k in m
          ensures Convert(r, g, once.fields[k], AtKey(r, m.Keys, at, k)) == Convert(r, Then(f, g), m[k], AtKey(r, m.Keys, at, k))
        {
          TwoPasses(r, f, g, m[k], AtKey(r, m.Keys, at, k));
        }
        assert Convert(r, g, once, slot).fields == Convert(r, Then(f, g), v, slot).fields;
      case Arr(items) =>
        forall i: nat | i < |items|
          ensures Convert(r, g, once.items[i], AtIndex(r, at, i)) == Convert(r, Then(f, g), items[i], AtIndex(r, at, i))
        {
          TwoPasses(r, f, g, items[i], AtIndex(r, at, i));
        }
        assert Convert(r, g, once, slot).items == Convert(r, Then(f, g), v, slot).items;
      case _ =>
    }
  }

  lemma NoArrayAt(f: Leaf, v: Json, local: bool)
    requires MakesNoArray(f)
    ensures f(v, local).Arr? ==> v.Arr?
  {
  }

  // ----- Globalize, then resolve -----

  /** The bits of an entity the index knows. */
  predicate Registered(r: Reflection, ix: Index, v: Json) {
    LocalEntity(r, v).Some? && ix.ApiIdFor(LocalEntity(r, v).value).Some?
  }

  /** A value at an entity position that survives the trip over the wire. */
  predicate Survives(r: Reflection, ix: Index, v: Json, local: bool) {
    if local then ConvertLeaf(r, Resolve, ix, U64Json(r.placeholder), local) == v
    else Registered(r, ix, v) || ConvertLeaf(r, Resolve, ix, v, local) == v
  }

  lemma LeafSurvives(r: Reflection, ix: Index, v: Json, local: bool)
    requires ix.Sound()
    ensures ConvertLeaf(r, Resolve, ix, ConvertLeaf(r, Globalize, ix, v, local), local) == v <==> Survives(r, ix, v, local)
  {
  }

  /** Every entity of a command survives. */
  ghost predicate AllSurvive(r: Reflection, ix: Index, v: Json, command: TypeId)
    requires r.WellFormed()
  {
    forall path :: LeafAt(r, v, Typed(command, false), path).Some? ==>
                     At(v, path).Some?
                     && Survives(r, ix, At(v, path).value, LeafAt(r, v, Typed(command, false), path).value)
  }

  lemma SurvivingIsKept(r: Reflection, ix: Index, v: Json, command: TypeId)
    requires r.WellFormed() && ix.Sound()
    ensures AllSurvive(r, ix, v, command)
       <==> LeavesKept(r, Then(LeafOf(r, Globalize, ix), LeafOf(r, Resolve, ix)), v, Typed(command, false))
  {
    var slot, trip := Typed(command, false), Then(LeafOf(r, Globalize, ix), LeafOf(r, Resolve, ix));
    forall x, local ensures trip(x, local) == x <==> Survives(r, ix, x, local) {
      LeafSurvives(r, ix, x, local);
    }
    hide ConvertLeaf, Survives, LeafAt, At, Then, LeafOf;
    if AllSurvive(r, ix, v, command) {
      forall path | LeafAt(r, v, slot, path).Some?
        ensures At(v, path).Some? && trip(At(v, path).value, LeafAt(r, v, slot, path).value) == At(v, path).value
      {
      }
    }
    if LeavesKept(r, trip, v, slot) {
      forall path | LeafAt(r, v, slot, path).Some?
        ensures At(v, path).Some? && Survives(r, ix, At(v, path).value, LeafAt(r, v, slot, path).value)
      {
      }
    }
  }

  lemma RewritesMakeNoArray(r: Reflection, dir: IdDir, ix: Index)
    ensures MakesNoArray(LeafOf(r, dir, ix))
  {
  }

  /** A command globalized by one peer and resolved against the same index is the same command exactly
      when every entity in it survives. */
  lemma RoundTripIff(r: Reflection, ix: Index, v: Json, command: TypeId)
    requires r.WellFormed() && ix.Sound()
    ensures Rewrite(r, Resolve, ix, Rewrite(r, Globalize, ix, v, command), command) == v <==> AllSurvive(r, ix, v, command)
  {
    hide Convert, MakesNoArray, LeavesKept, AllSurvive, LeafOf, Then;
    var there, back := LeafOf(r, Globalize, ix), LeafOf(r, Resolve, ix);
    RewritesMakeNoArray(r, Globalize, ix);
    TwoPasses(r, there, back, v, Typed(command, false));
    UnchangedIff(r, Then(there, back), v, Typed(command, false));
    SurvivingIsKept(r, ix, v, command);
  }

  /** On every registry that can be reached, a command whose entities are all registered, none of them
      local to a peer, is restored. */
  lemma RegisteredCommandRestored(r: Reflection, edits: seq<Edit>, v: Json, command: TypeId)
    requires r.WellFormed()
    requires forall path :: LeafAt(r, v, Typed(command, false), path).Some? ==>
               LeafAt(r, v, Typed(command, false), path) == Some(false) && At(v, path).Some?
               && Registered(r, Edited(EMPTY, edits), At(v, path).value)
    ensures var ix := Edited(EMPTY, edits);
      Rewrite(r, Resolve, ix, Rewrite(r, Globalize, ix, v, command), command) == v
  {
    hide Registered, LeafAt, At, Rewrite, Edited;
    ReachedIsSound(edits);
    RoundTripIff(r, Edited(EMPTY, edits), v, command);
  }

  // ----- Fields local to a peer -----

  /** From a value of this type, a position is reached through the payloads of one-field enum variants only. */
  predicate ThroughPayloads(r: Reflection, v: Json, ty: TypeId, below: seq<Step>) {
    if below == [] then ty == r.entityType
    else
      && ty != r.entityType && ty in r.info && r.info[ty].Enum? && v.Obj? && below[0].Key?
      && var variants, key := r.info[ty].variants, below[0].key;
         && key in v.fields && FirstKey(r, v.fields.Keys) == Some(key) && key in variants
         && variants[key].TupleVariant? && |variants[key].types| == 1
         && ThroughPayloads(r, v.fields[key], variants[key].types[0], below[1..])
  }

  /** The step enters a struct field that is tagged local. */
  predicate EntersTag(r: Reflection, at: Slot, step: Step) {
    && at.Typed? && at.ty in r.info && r.info[at.ty].Struct? && step.Key?
    && var field := FieldSlot(r.info[at.ty].fields, step.key, true);
       field.Typed? && field.syncLocal
  }

  /** The path enters a field that is tagged local, and from there on leads through the payloads of one-field
      enum variants only. */
  predicate Shielded(r: Reflection, v: Json, slot: Slot, path: seq<Step>)
    requires r.WellFormed()
    decreases |path|
  {
    path != []
    && var at := Settle(r, v, slot);
       !IsLeaf(r, at) && Child(v, path[0]).Some?
       && var child, next := Child(v, path[0]).value, ChildSlot(r, v, at, path[0]);
          || (EntersTag(r, at, path[0]) && next.Typed? && ThroughPayloads(r, child, next.ty, path[1..]))
          || Shielded(r, child, next, path[1..])
  }

  lemma {:induction false} FieldsUntagged(fields: seq<FieldInfo>, name: string)
    ensures FieldSlot(fields, name, false).Typed? ==> !FieldSlot(fields, name, false).syncLocal
  {
    if fields != [] {
      FieldsUntagged(fields[..|fields| - 1], name);
    }
  }

  lemma SettleDropsTag(r: Reflection, v: Json, slot: Slot)
    requires r.WellFormed()
    ensures Settle(r, v, slot) == slot
      || (slot.Typed? && r.Wrapped(slot.ty).Some? && Settle(r, v, slot).Typed? && !Settle(r, v, slot).syncLocal)
    decreases if slot.Typed? then r.rank(slot.ty) else 0
  {
    if slot.Typed? && r.Wrapped(slot.ty).Some? && !v.Arr? {
      SettleDropsTag(r, v, Typed(r.Wrapped(slot.ty).value, false));
    }
  }

  /** The tag reaches exactly the entities it shields. */
  lemma {:induction false} TagReachesIff(r: Reflection, v: Json, slot: Slot, path: seq<Step>)
    requires r.WellFormed() && LeafAt(r, v, slot, path).Some?
    ensures LeafAt(r, v, slot, path) == Some(true) <==>
      (slot.Typed? && slot.syncLocal && ThroughPayloads(r, v, slot.ty, path)) || Shielded(r, v, slot, path)
    decreases |path|
  {
    SettleDropsTag(r, v, slot);
    var at := Settle(r, v, slot);
    if !IsLeaf(r, at) {
      if at.Fields? && path[0].Key? {
        FieldsUntagged(at.fields, path[0].key);
      }
      TagReachesIff(r, Child(v, path[0]).value, ChildSlot(r, v, at, path[0]), path[1..]);
    }
  }

  /** An entity of a command leaves as the placeholder, whatever it held, exactly when the path to it enters a
      field tagged local and from there on leads through one-field enum payloads only. Any other one, also
      inside a tagged field, leaves as if there were no tag. */
  lemma LocalFieldsStayHomeIff(r: Reflection, ix: Index, v: Json, command: TypeId, path: seq<Step>)
    requires r.WellFormed() && LeafAt(r, v, Typed(command, false), path).Some?
    ensures At(v, path).Some?
    ensures At(Rewrite(r, Globalize, ix, v, command), path) == Some(
      if Shielded(r, v, Typed(command, false), path) then U64Json(r.placeholder)
      else ConvertLeaf(r, Globalize, ix, At(v, path).value, false))
  {
    hide Convert, Shielded;
    TagReachesIff(r, v, Typed(command, false), path);
    TouchesExactlyTheLeaves(r, LeafOf(r, Globalize, ix), v, Typed(command, false), path);
  }

  /** The tag does not reach through a wrapper or a list: a peer's own entity, tagged local and not registered,
      leaves with its local bits. */
  lemma TaggedWrapperLeaks(r: Reflection, ix: Index, command: TypeId, name: string, ty: TypeId, held: Json)
    requires r.WellFormed() && command != r.entityType && command in r.info
    requires r.info[command] == Struct([FieldInfo(name, ty, true)])
    requires LocalEntity(r, held).Some? && !Registered(r, ix, held)
    ensures r.Wrapped(ty) == Some(r.entityType) ==>
      Rewrite(r, Globalize, ix, Obj(map[name := held]), command) == Obj(map[name := held])
    ensures ty != r.entityType && ty in r.info && r.info[ty] == List(r.entityType) ==>
      Rewrite(r, Globalize, ix, Obj(map[name := Arr([held])]), command) == Obj(map[name := Arr([held])])
  {
    var leaf := LeafOf(r, Globalize, ix);
    OneField(r, leaf, command, name, ty, held);
    OneField(r, leaf, command, name, ty, Arr([held]));
    if r.Wrapped(ty) == Some(r.entityType) {
      WrapperIsTransparent(r, leaf, held, ty, true);
    }
    if ty != r.entityType && ty in r.info && r.info[ty] == List(r.entityType) {
      assert Convert(r, leaf, Arr([held]), Typed(ty, true)).items == [held];
    }
  }

  lemma OneField(r: Reflection, leaf: Leaf, command: TypeId, name: string, ty: TypeId, held: Json)
    requires r.WellFormed() && command != r.entityType && command in r.info
    requires r.info[command] == Struct([FieldInfo(name, ty, true)])
    ensures Convert(r, leaf, Obj(map[name := held]), Typed(command, false)) ==
      Obj(map[name := Convert(r, leaf, held, Typed(ty, true))])
  {
    hide Convert;
    var m := map[name := held];
    var out := map k | k in m :: Convert(r, leaf, m[k], FieldSlot(r.info[command].fields, k, true));
    StructRewritten(r, leaf, m, command, false, out);
    assert out == map[name := Convert(r, leaf, held, Typed(ty, true))];
  }

  // ----- Wrappers -----

  /** Two slots under which a value is rewritten alike by every rule. */
  ghost predicate AgreeForAll(r: Reflection, v: Json, a: Slot, b: Slot)
    requires r.WellFormed()
  {
    forall leaf: Leaf :: Convert(r, leaf, v, a) == Convert(r, leaf, v, b)
  }

  /** A wrapper takes an array for its own field list: the first element for the value it wraps, the others
      for nothing. */
  lemma WrapperOnArray(r: Reflection, leaf: Leaf, items: seq<Json>, wrapper: TypeId, local: bool)
    requires r.WellFormed() && r.Wrapped(wrapper).Some?
    ensures var out := Convert(r, leaf, Arr(items), Typed(wrapper, local));
      && out.Arr? && |out.items| == |items|
      && (items != [] ==> out.items[0] == Convert(r, leaf, items[0], Typed(r.Wrapped(wrapper).value, false)))
      && forall i :: 1 <= i < |items| ==> out.items[i] == items[i]
  {
    var slot := Typed(wrapper, local);
    forall i: nat | 1 <= i < |items| ensures Convert(r, leaf, items[i], AtIndex(r, slot, i)) == items[i] {
      InertIsUntouched(r, leaf, items[i]);
    }
    assert forall i: nat :: 1 <= i < |items| ==>
        Convert(r, leaf, Arr(items), slot).items[i] == Convert(r, leaf, items[i], AtIndex(r, slot, i));
  }

  /** An inner type that reads arrays takes each element for what it says of that place. */
  lemma InnerOnArray(r: Reflection, leaf: Leaf, items: seq<Json>, inner: TypeId)
    requires r.WellFormed() && inner != r.entityType && inner in r.info
    ensures var out := Convert(r, leaf, Arr(items), Typed(inner, false));
      && out.Arr? && |out.items| == |items|
      && forall i: nat :: i < |items| ==> out.items[i] == Convert(r, leaf, items[i], ElementSlot(r.info[inner], i))
  {
    hide Convert;
    var out := seq(|items|, i requires 0 <= i < |items| => Convert(r, leaf, items[i], ElementSlot(r.info[inner], i)));
    ElementsRewritten(r, leaf, items, inner, false, out);
  }

  /** What an array becomes under a wrapper: the first element is taken for a whole inner value. */
  function FirstOnly(first: Json, items: seq<Json>): Json {
    Arr(if items == [] then [] else [first] + items[1..])
  }

  /** A wrapper is serialised as what it wraps, and is meant to be walked like it. For any inner type and any
      rule it is, exactly when the value is no array, or the rule does to each element under the inner type
      what it does under the wrapper: that is, to the first what it does to a whole inner value, and to the
      others nothing. Around the entity itself the rule must do so to the array as a whole. */
  lemma WrapperAgreesIff(r: Reflection, leaf: Leaf, v: Json, wrapper: TypeId, local: bool)
    requires r.WellFormed() && r.Wrapped(wrapper).Some?
    ensures var inner := r.Wrapped(wrapper).value;
      Convert(r, leaf, v, Typed(wrapper, local)) == Convert(r, leaf, v, Typed(inner, false))
      <==> || !v.Arr?
           || if inner == r.entityType then
                leaf(v, false) == FirstOnly(if v.items == [] then Null else leaf(v.items[0], false), v.items)
              else
                forall i: nat :: i < |v.items| ==>
                  Convert(r, leaf, v.items[i], AtIndex(r, Typed(inner, false), i))
                  == if i == 0 then Convert(r, leaf, v.items[0], Typed(inner, false)) else v.items[i]
  {
    hide Convert;
    var inner := r.Wrapped(wrapper).value;
    if !v.Arr? {
      WrapperIsTransparent(r, leaf, v, wrapper, local);
    } else if inner == r.entityType {
      EntityWrapperOnArray(r, leaf, v.items, wrapper, local);
    } else {
      ArrayWrapperIff(r, leaf, v.items, wrapper, local);
    }
  }

  lemma ArrayWrapperIff(r: Reflection, leaf: Leaf, items: seq<Json>, wrapper: TypeId, local: bool)
    requires r.WellFormed() && r.Wrapped(wrapper).Some? && r.Wrapped(wrapper).value != r.entityType
    ensures var inner := r.Wrapped(wrapper).value;
      Convert(r, leaf, Arr(items), Typed(wrapper, local)) == Convert(r, leaf, Arr(items), Typed(inner, false))
      <==> forall i: nat :: i < |items| ==>
             Convert(r, leaf, items[i], AtIndex(r, Typed(inner, false), i))
             == if i == 0 then Convert(r, leaf, items[0], Typed(inner, false)) else items[i]
  {
    hide Convert, AtIndex;
    var inner := r.Wrapped(wrapper).value;
    WrapperOnArray(r, leaf, items, wrapper, local);
    SlotOnArray(r, leaf, items, inner);
    var own, whole := Convert(r, leaf, Arr(items), Typed(wrapper, local)), Convert(r, leaf, Arr(items), Typed(inner, false));
    assert own == whole <==> forall i: nat :: i < |items| ==> own.items[i] == whole.items[i] by {
      if forall i: nat :: i < |items| ==> own.items[i] == whole.items[i] {
        assert own.items == whole.items;
      }
    }
  }

  /** Any type but the entity's, registered or not, takes an array element by element or leaves it alone. */
  lemma SlotOnArray(r: Reflection, leaf: Leaf, items: seq<Json>, inner: TypeId)
    requires r.WellFormed() && inner != r.entityType
    ensures var out := Convert(r, leaf, Arr(items), Typed(inner, false));
      && out.Arr? && |out.items| == |items|
      && forall i: nat :: i < |items| ==> out.items[i] == Convert(r, leaf, items[i], AtIndex(r, Typed(inner, false), i))
  {
    hide Convert;
    var out := seq(|items|, i requires 0 <= i < |items| => Convert(r, leaf, items[i], AtIndex(r, Typed(inner, false), i)));
    ArrayRewritten(r, leaf, items, Typed(inner, false), out);
  }

  lemma EntityWrapperOnArray(r: Reflection, leaf: Leaf, items: seq<Json>, wrapper: TypeId, local: bool)
    requires r.WellFormed() && r.Wrapped(wrapper) == Some(r.entityType)
    ensures Convert(r, leaf, Arr(items), Typed(wrapper, local)) ==
      FirstOnly(if items == [] then Null else leaf(items[0], false), items)
    ensures Convert(r, leaf, Arr(items), Typed(r.entityType, false)) == leaf(Arr(items), false)
  {
    WrapperOnArray(r, leaf, items, wrapper, local);
    LeafIsConverted(r, leaf, Arr(items), Typed(r.entityType, false));
    var own := Convert(r, leaf, Arr(items), Typed(wrapper, local));
    if items != [] {
      LeafIsConverted(r, leaf, items[0], Typed(r.entityType, false));
      assert own.items == [leaf(items[0], false)] + items[1..];
    } else {
      assert own.items == [];
    }
  }

  /** The plainest wrapper, around the entity itself: the two agree under every rule exactly when the value is
      no array. The rules the source has leave an array at an entity alone; under them, exactly when there is
      no first element or it is left alone too. */
  lemma EntityWrapperIff(r: Reflection, v: Json, wrapper: TypeId, local: bool)
    requires r.WellFormed() && r.Wrapped(wrapper) == Some(r.entityType)
    ensures AgreeForAll(r, v, Typed(wrapper, local), Typed(r.entityType, false)) <==> !v.Arr?
    ensures forall dir: IdDir, ix: Index ::
      Convert(r, LeafOf(r, dir, ix), v, Typed(wrapper, local)) == Convert(r, LeafOf(r, dir, ix), v, Typed(r.entityType, false))
      <==> !v.Arr? || v.items == [] || ConvertLeaf(r, dir, ix, v.items[0], false) == v.items[0]
  {
    hide Convert;
    if v.Arr? {
      WrapperAgreesIff(r, Constant(Null), v, wrapper, local);
    } else {
      forall leaf: Leaf ensures Convert(r, leaf, v, Typed(wrapper, local)) == Convert(r, leaf, v, Typed(r.entityType, false)) {
        WrapperAgreesIff(r, leaf, v, wrapper, local);
      }
    }
    forall dir: IdDir, ix: Index
      ensures Convert(r, LeafOf(r, dir, ix), v, Typed(wrapper, local)) == Convert(r, LeafOf(r, dir, ix), v, Typed(r.entityType, false))
        <==> !v.Arr? || v.items == [] || ConvertLeaf(r, dir, ix, v.items[0], false) == v.items[0]
    {
      WrapperAgreesIff(r, LeafOf(r, dir, ix), v, wrapper, local);
      if v.Arr? {
        ArrayIsNoEntity(r, dir, ix, v, false);
        if v.items != [] {
          assert v.items == [v.items[0]] + v.items[1..];
        }
      }
    }
  }

  lemma ArrayIsNoEntity(r: Reflection, dir: IdDir, ix: Index, v: Json, local: bool)
    requires v.Arr? && !local
    ensures ConvertLeaf(r, dir, ix, v, local) == v
  {
  }

  /** The rule that turns every entity into `c`. */
  function Constant(c: Json): Leaf {
    (_, _) => c
  }

  lemma FirstEntityDiffers(r: Reflection, x: Json, inner: TypeId, first: Slot) returns (c: Json)
    requires r.WellFormed() && inner != r.entityType && inner in r.info
    requires IsLeaf(r, first)
    ensures x.Arr? || !Fits(r.info[inner], x) ==>
              Convert(r, Constant(c), x, first) != Convert(r, Constant(c), x, Typed(inner, false))
  {
    c := if x == Null then Bool(true) else Null;
    if x.Arr? {
      InnerOnArray(r, Constant(c), x.items, inner);
    } else if !Fits(r.info[inner], x) {
      MismatchIsUntouched(r, Constant(c), x, inner, false);
    }
  }

  /** Inner lists and arrays of entities: wrapper and inner type agree under every rule exactly on values
      that are no array or an empty one. */
  lemma EntityListWrapperIff(r: Reflection, v: Json, wrapper: TypeId, local: bool)
    requires r.WellFormed() && r.Wrapped(wrapper).Some?
    requires var inner := r.Wrapped(wrapper).value;
      inner != r.entityType && inner in r.info && r.info[inner] in {List(r.entityType), Array(r.entityType)}
    ensures AgreeForAll(r, v, Typed(wrapper, local), Typed(r.Wrapped(wrapper).value, false)) <==> !v.Arr? || v.items == []
  {
    hide Convert;
    var inner := r.Wrapped(wrapper).value;
    if v.Arr? && v.items != [] {
      var c := FirstEntityDiffers(r, v.items[0], inner, ElementSlot(r.info[inner], 0));
      WrapperAgreesIff(r, Constant(c), v, wrapper, local);
    } else {
      forall leaf: Leaf ensures Convert(r, leaf, v, Typed(wrapper, local)) == Convert(r, leaf, v, Typed(inner, false)) {
        WrapperAgreesIff(r, leaf, v, wrapper, local);
      }
    }
  }

  /** Inner tuple structs that start with an entity: the same. */
  lemma EntityTupleWrapperIff(r: Reflection, v: Json, wrapper: TypeId, local: bool)
    requires r.WellFormed() && r.Wrapped(wrapper).Some?
    requires var inner := r.Wrapped(wrapper).value;
      && inner != r.entityType && inner in r.info && r.info[inner].TupleStruct?
      && |r.info[inner].types| >= 2 && r.info[inner].types[0] == r.entityType
    ensures AgreeForAll(r, v, Typed(wrapper, local), Typed(r.Wrapped(wrapper).value, false)) <==> !v.Arr? || v.items == []
  {
    hide Convert;
    var inner := r.Wrapped(wrapper).value;
    if v.Arr? && v.items != [] {
      var c := FirstEntityDiffers(r, v.items[0], inner, ElementSlot(r.info[inner], 0));
      WrapperAgreesIff(r, Constant(c), v, wrapper, local);
    } else {
      forall leaf: Leaf ensures Convert(r, leaf, v, Typed(wrapper, local)) == Convert(r, leaf, v, Typed(inner, false)) {
        WrapperAgreesIff(r, leaf, v, wrapper, local);
      }
    }
  }

  /** A key and its value, neither of them an array. */
  predicate FlatPair(v: Json) {
    v.Arr? && |v.items| == 2 && !v.items[0].Arr? && !v.items[1].Arr?
  }

  predicate FixesValue(leaf: Leaf, pair: Json) {
    FlatPair(pair) && leaf(pair.items[1], false) == pair.items[1]
  }

  /** A pair of a map whose values are entities: its second element, and nothing else. */
  lemma EntityPair(r: Reflection, leaf: Leaf, pair: Json)
    requires r.WellFormed() && FlatPair(pair)
    ensures Convert(r, leaf, pair, Pair(r.entityType)) == Arr([pair.items[0], leaf(pair.items[1], false)])
  {
    InertIsUntouched(r, leaf, pair.items[0]);
    assert Convert(r, leaf, pair, Pair(r.entityType)).items == [pair.items[0], leaf(pair.items[1], false)];
  }

  /** A pair taken for a whole map holds no pair of its own. */
  lemma PairIsNoMap(r: Reflection, leaf: Leaf, pair: Json, inner: TypeId)
    requires r.WellFormed() && FlatPair(pair) && inner != r.entityType && inner in r.info && r.info[inner] == Map(r.entityType)
    ensures Convert(r, leaf, pair, Typed(inner, false)) == pair
  {
    hide Convert;
    InnerOnArray(r, leaf, pair.items, inner);
    BarrenIsUntouched(r, leaf, pair.items[0], Pair(r.entityType));
    BarrenIsUntouched(r, leaf, pair.items[1], Pair(r.entityType));
    assert Convert(r, leaf, pair, Typed(inner, false)).items == pair.items;
  }

  /** Inner maps of entities, serialised as key-value pairs: under a wrapper no value is rewritten, so the two
      agree under a rule exactly when it fixes every value, and under every rule exactly for the empty map. */
  lemma EntityMapWrapperIff(r: Reflection, leaf: Leaf, pairs: seq<Json>, wrapper: TypeId, local: bool)
    requires r.WellFormed() && r.Wrapped(wrapper).Some?
    requires var inner := r.Wrapped(wrapper).value;
      inner != r.entityType && inner in r.info && r.info[inner] == Map(r.entityType)
    requires forall i :: 0 <= i < |pairs| ==> FlatPair(pairs[i])
    ensures var inner := r.Wrapped(wrapper).value;
      && Convert(r, leaf, Arr(pairs), Typed(wrapper, local)) == Arr(pairs)
      && (Convert(r, leaf, Arr(pairs), Typed(inner, false)) == Arr(pairs) <==>
            forall i :: 0 <= i < |pairs| ==> FixesValue(leaf, pairs[i]))
      && (AgreeForAll(r, Arr(pairs), Typed(wrapper, local), Typed(inner, false)) <==> pairs == [])
  {
    hide Convert;
    var inner := r.Wrapped(wrapper).value;
    MapWrapperOnPairs(r, leaf, pairs, wrapper, local);
    if pairs == [] {
      forall other: Leaf
        ensures Convert(r, other, Arr(pairs), Typed(wrapper, local)) == Convert(r, other, Arr(pairs), Typed(inner, false))
      {
        MapWrapperOnPairs(r, other, pairs, wrapper, local);
      }
    } else {
      assert FlatPair(pairs[0]);
      var c := if pairs[0].items[1] == Null then Bool(true) else Null;
      MapWrapperOnPairs(r, Constant(c), pairs, wrapper, local);
      assert FlatPair(pairs[0]) && !FixesValue(Constant(c), pairs[0]);
    }
  }

  lemma MapWrapperOnPairs(r: Reflection, leaf: Leaf, pairs: seq<Json>, wrapper: TypeId, local: bool)
    requires r.WellFormed() && r.Wrapped(wrapper).Some?
    requires var inner := r.Wrapped(wrapper).value;
      inner != r.entityType && inner in r.info && r.info[inner] == Map(r.entityType)
    requires forall i :: 0 <= i < |pairs| ==> FlatPair(pairs[i])
    ensures Convert(r, leaf, Arr(pairs), Typed(wrapper, local)) == Arr(pairs)
    ensures Convert(r, leaf, Arr(pairs), Typed(r.Wrapped(wrapper).value, false)) == Arr(pairs) <==>
            forall i :: 0 <= i < |pairs| ==> FixesValue(leaf, pairs[i])
  {
    hide Convert;
    var inner := r.Wrapped(wrapper).value;
    WrapperOnArray(r, leaf, pairs, wrapper, local);
    InnerOnArray(r, leaf, pairs, inner);
    if pairs != [] {
      PairIsNoMap(r, leaf, pairs[0], inner);
    }
    assert Convert(r, leaf, Arr(pairs), Typed(wrapper, local)).items == pairs;
    var whole := Convert(r, leaf, Arr(pairs), Typed(inner, false));
    forall i: nat | i < |pairs| ensures whole.items[i] == Arr([pairs[i].items[0], leaf(pairs[i].items[1], false)]) {
      EntityPair(r, leaf, pairs[i]);
    }
    forall i: nat | i < |pairs| ensures pairs[i].items == [pairs[i].items[0], pairs[i].items[1]] {
    }
    if forall i :: 0 <= i < |pairs| ==> FixesValue(leaf, pairs[i]) {
      assert whole.items == pairs;
    }
  }

  /** For a given rule and a list of numbers or texts, wrapper and list agree exactly when the rule fixes
      every item. */
  lemma ListWrapperFixedIff(r: Reflection, leaf: Leaf, ids: seq<Json>, wrapper: TypeId, local: bool)
    requires r.WellFormed() && r.Wrapped(wrapper).Some?
    requires var inner := r.Wrapped(wrapper).value;
      inner != r.entityType && inner in r.info && r.info[inner] in {List(r.entityType), Array(r.entityType)}
    requires forall i :: 0 <= i < |ids| ==> !ids[i].Arr?
    ensures Convert(r, leaf, Arr(ids), Typed(wrapper, local)) == Arr(ids)
    ensures Convert(r, leaf, Arr(ids), Typed(r.Wrapped(wrapper).value, false)) == Arr(ids) <==>
            forall i :: 0 <= i < |ids| ==> leaf(ids[i], false) == ids[i]
  {
    var inner := r.Wrapped(wrapper).value;
    WrapperOnArray(r, leaf, ids, wrapper, local);
    InnerOnArray(r, leaf, ids, inner);
    if ids != [] {
      MismatchIsUntouched(r, leaf, ids[0], inner, false);
    }
    assert Convert(r, leaf, Arr(ids), Typed(wrapper, local)).items == ids;
    var whole := Convert(r, leaf, Arr(ids), Typed(inner, false));
    forall i: nat | i < |ids| ensures whole.items[i] == leaf(ids[i], false) {
    }
    if forall i :: 0 <= i < |ids| ==> leaf(ids[i], false) == ids[i] {
      assert whole.items == ids;
    }
  }
}
