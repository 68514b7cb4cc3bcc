/** What a rewritten command holds, position by position, in terms of the two maps of the index alone; and where
    in a command the schema puts an entity. */
module EntityIdMeaning {
  import opened EntityIdLaws
  import opened EntityIdWalk
  import opened EntityIds
  import opened EntityRegistry
  import opened Json
  import opened Numerals
  import opened Wrappers

  predicate HoldsNumber(v: Json, n: U64) {
    v == Num(IntNum(n))
  }

  /** A wire id as a number or as text. */
  ghost predicate HoldsId(v: Json, id: GlobalId) {
    HoldsNumber(v, id) || (v.Str? && DenotesUnsigned(v.s, id))
  }

  /** A value holds one number and one wire id at most. */
  lemma HeldOnce(v: Json, m: U64, n: U64)
    requires HoldsId(v, m) && HoldsId(v, n)
    ensures m == n
  {
    if v.Str? {
      ParseU64Iff(v.s, m);
      ParseU64Iff(v.s, n);
    }
  }

  /** Globalizing, at every entity position: the bits of a known entity become its id, a field local to a peer
      becomes the placeholder, and anything else stays. */
  lemma GlobalizedAt(r: Reflection, ix: Index, v: Json, command: TypeId, path: seq<Step>)
    requires r.WellFormed() && LeafAt(r, v, Typed(command, false), path).Some?
    ensures At(v, path).Some?
    ensures var held, sent := At(v, path).value, At(Rewrite(r, Globalize, ix, v, command), path);
      if LeafAt(r, v, Typed(command, false), path) == Some(true) then sent == Some(Num(IntNum(r.placeholder)))
      else
        && (forall n: U64 :: HoldsNumber(held, n) && r.isEntity(n) && n in ix.bevyToApi ==>
              sent == Some(Num(IntNum(ix.bevyToApi[n]))))
        && ((forall n: U64 :: HoldsNumber(held, n) && r.isEntity(n) ==> n !in ix.bevyToApi) ==> sent == Some(held))
  {
    hide Convert, LeafAt;
    TouchesExactlyTheLeaves(r, LeafOf(r, Globalize, ix), v, Typed(command, false), path);
    var held := At(v, path).value;
    GlobalizedLeaf(r, ix, held);
  }

  lemma GlobalizedLeaf(r: Reflection, ix: Index, held: Json)
    ensures forall n: U64 :: HoldsNumber(held, n) && r.isEntity(n) && n in ix.bevyToApi ==>
              ConvertLeaf(r, Globalize, ix, held, false) == Num(IntNum(ix.bevyToApi[n]))
    ensures (forall n: U64 :: HoldsNumber(held, n) && r.isEntity(n) ==> n !in ix.bevyToApi) ==>
              ConvertLeaf(r, Globalize, ix, held, false) == held
  {
    if LocalEntity(r, held).Some? {
      assert HoldsNumber(held, LocalEntity(r, held).value);
    }
  }

  /** Resolving, at every entity position: a known id, written as a number or as text, becomes the bits of its
      entity, and anything else stays. */
  lemma ResolvedAt(r: Reflection, ix: Index, v: Json, command: TypeId, path: seq<Step>)
    requires r.WellFormed() && LeafAt(r, v, Typed(command, false), path).Some?
    ensures At(v, path).Some?
    ensures var held, got := At(v, path).value, At(Rewrite(r, Resolve, ix, v, command), path);
      && (forall id: GlobalId :: HoldsId(held, id) && id in ix.apiToBevy ==>
            got == Some(Num(IntNum(ix.apiToBevy[id]))))
      && ((forall id: GlobalId :: HoldsId(held, id) ==> id !in ix.apiToBevy) ==> got == Some(held))
  {
    hide Convert, LeafAt;
    TouchesExactlyTheLeaves(r, LeafOf(r, Resolve, ix), v, Typed(command, false), path);
    var held := At(v, path).value;
    ResolvedLeaf(r, ix, held, LeafAt(r, v, Typed(command, false), path).value);
  }

  lemma WireIdIff(v: Json, id: GlobalId)
    ensures WireId(v) == Some(id) <==> HoldsId(v, id)
  {
    if v.Str? {
      ParseU64Iff(v.s, id);
    }
  }

  lemma ResolvedLeaf(r: Reflection, ix: Index, held: Json, local: bool)
    ensures forall id: GlobalId :: HoldsId(held, id) && id in ix.apiToBevy ==>
              ConvertLeaf(r, Resolve, ix, held, local) == Num(IntNum(ix.apiToBevy[id]))
    ensures (forall id: GlobalId :: HoldsId(held, id) ==> id !in ix.apiToBevy) ==>
              ConvertLeaf(r, Resolve, ix, held, local) == held
  {
    forall id: GlobalId ensures WireId(held) == Some(id) <==> HoldsId(held, id) {
      WireIdIff(held, id);
    }
    hide WireId, HoldsId;
    if WireId(held).Some? {
      assert HoldsId(held, WireId(held).value);
    }
  }

  // ----- Where a schema puts entities -----

  /** A value of this type holds an entity at the end of the path, read off the type as it is declared; `flag` says
      whether the field that holds it is local to a peer. A wrapper is serialised as what it wraps, a map as an
      object or as pairs, a data variant as an object with one key. */
  ghost predicate Holds(r: Reflection, ty: TypeId, local: bool, v: Json, path: seq<Step>, flag: bool)
    requires r.WellFormed()
    decreases |path|, 1, r.rank(ty)
  {
    if ty == r.entityType then path == [] && flag == local
    else if ty !in r.info then false
    else
      match r.info[ty]
      case Struct(fields) => HoldsField(r, fields, true, v, path, flag)
      case TupleStruct(types) =>
        if |types| == 1 && !v.Arr? then
          assert r.Wrapped(ty) == Some(types[0]);
          Holds(r, types[0], false, v, path, flag)
        else HoldsNth(r, types, v, path, flag)
      case List(item) => HoldsItem(r, item, v, path, flag)
      case Array(item) => HoldsItem(r, item, v, path, flag)
      case Map(value) =>
        if v.Arr? then
          && |path| >= 2 && path[0].Nth? && path[0].i < |v.items| && path[1] == Nth(1)
          && v.items[path[0].i].Arr? && |v.items[path[0].i].items| >= 2
          && Holds(r, value, false, v.items[path[0].i].items[1], path[2..], flag)
        else
          && path != [] && path[0].Key? && v.Obj? && path[0].key in v.fields
          && Holds(r, value, false, v.fields[path[0].key], path[1..], flag)
      case Enum(variants) =>
        && path != [] && path[0].Key? && v.Obj? && path[0].key in v.fields && path[0].key in variants
        && r.order(v.fields.Keys) != [] && r.order(v.fields.Keys)[0] == path[0].key
        && HoldsPayload(r, variants[path[0].key], local, v.fields[path[0].key], path[1..], flag)
      case Other => false
  }

  ghost predicate HoldsPayload(r: Reflection, variant: Variant, local: bool, v: Json, path: seq<Step>, flag: bool)
    requires r.WellFormed()
    decreases |path|, 2, 0
  {
    match variant
    case UnitVariant => false
    case StructVariant(fields) => HoldsField(r, fields, false, v, path, flag)
    case TupleVariant(types) =>
      if |types| == 1 then Holds(r, types[0], local, v, path, flag) else HoldsNth(r, types, v, path, flag)
  }

  /** A field of an object; only fields of structs, not of variants, can be local. */
  ghost predicate HoldsField(r: Reflection, fields: seq<FieldInfo>, tags: bool, v: Json, path: seq<Step>, flag: bool)
    requires r.WellFormed()
    decreases |path|, 0
  {
    && path != [] && path[0].Key? && v.Obj? && path[0].key in v.fields
    && exists i :: 0 <= i < |fields| && fields[i].name == path[0].key
         && Holds(r, fields[i].ty, tags && fields[i].syncLocal, v.fields[path[0].key], path[1..], flag)
  }

  ghost predicate HoldsNth(r: Reflection, types: seq<TypeId>, v: Json, path: seq<Step>, flag: bool)
    requires r.WellFormed()
    decreases |path|, 0
  {
    && path != [] && path[0].Nth? && v.Arr? && path[0].i < |v.items| && path[0].i < |types|
    && Holds(r, types[path[0].i], false, v.items[path[0].i], path[1..], flag)
  }

  ghost predicate HoldsItem(r: Reflection, item: TypeId, v: Json, path: seq<Step>, flag: bool)
    requires r.WellFormed()
    decreases |path|, 0
  {
    && path != [] && path[0].Nth? && v.Arr? && path[0].i < |v.items|
    && Holds(r, item, false, v.items[path[0].i], path[1..], flag)
  }

  lemma {:induction false} InertHoldsNothing(r: Reflection, v: Json, path: seq<Step>)
    requires r.WellFormed()
    ensures LeafAt(r, v, Inert, path) == None
    decreases |path|
  {
    if path != [] && Child(v, path[0]).Some? {
      InertHoldsNothing(r, Child(v, path[0]).value, path[1..]);
    }
  }

  /** A position that is no entity itself passes the question on. */
  lemma LeafBelow(r: Reflection, v: Json, slot: Slot, path: seq<Step>)
    requires r.WellFormed() && !IsLeaf(r, slot) && Settle(r, v, slot) == slot
    ensures LeafAt(r, v, slot, path) ==
      if path == [] || Child(v, path[0]).None? then None
      else LeafAt(r, Child(v, path[0]).value, ChildSlot(r, v, slot, path[0]), path[1..])
  {
  }

  /** The walk reaches exactly the entities the declarations put there. */
  lemma {:induction false} LeafAtIff(r: Reflection, v: Json, ty: TypeId, local: bool, path: seq<Step>, flag: bool)
    requires r.WellFormed()
    ensures LeafAt(r, v, Typed(ty, local), path) == Some(flag) <==> Holds(r, ty, local, v, path, flag)
    decreases |path|, 1, r.rank(ty)
  {
    hide Settle, LeafAt, AtKey, AtIndex, Child, HoldsField, HoldsNth, HoldsItem;
    if ty == r.entityType {
      EntityIsLeaf(r, v, local, path);
    } else if r.Wrapped(ty).Some? && !v.Arr? {
      WrapperPassesOn(r, v, ty, local, path);
      LeafAtIff(r, v, r.Wrapped(ty).value, false, path, flag);
    } else {
      StaysTyped(r, v, ty, local);
      LeafBelow(r, v, Typed(ty, local), path);
      if ty in r.info {
        match r.info[ty]
        case Struct(fields) => FieldsHeld(r, fields, v, ty, local, path, flag);
        case TupleStruct(types) => NthsHeld(r, types, v, Typed(ty, local), path, flag);
        case List(item) => ItemsHeld(r, item, v, ty, local, path, flag);
        case Array(item) => ItemsHeld(r, item, v, ty, local, path, flag);
        case Map(value) => ValuesHeld(r, value, v, ty, local, path, flag);
        case Enum(variants) => PayloadHeld(r, variants, v, ty, local, path, flag);
        case Other => NothingHeld(r, v, ty, local, path);
      } else {
        NothingHeld(r, v, ty, local, path);
      }
    }
  }

  lemma EntityIsLeaf(r: Reflection, v: Json, local: bool, path: seq<Step>)
    requires r.WellFormed()
    ensures LeafAt(r, v, Typed(r.entityType, local), path) == if path == [] then Some(local) else None
  {
  }

  lemma WrapperPassesOn(r: Reflection, v: Json, ty: TypeId, local: bool, path: seq<Step>)
    requires r.WellFormed() && r.Wrapped(ty).Some? && !v.Arr?
    ensures LeafAt(r, v, Typed(ty, local), path) == LeafAt(r, v, Typed(r.Wrapped(ty).value, false), path)
  {
    assert Settle(r, v, Typed(ty, local)) == Settle(r, v, Typed(r.Wrapped(ty).value, false));
  }

  lemma StaysTyped(r: Reflection, v: Json, ty: TypeId, local: bool)
    requires r.WellFormed() && ty != r.entityType && (r.Wrapped(ty).None? || v.Arr?)
    ensures Settle(r, v, Typed(ty, local)) == Typed(ty, local) && !IsLeaf(r, Typed(ty, local))
  {
  }

  lemma NothingHeld(r: Reflection, v: Json, ty: TypeId, local: bool, path: seq<Step>)
    requires r.WellFormed() && ty != r.entityType && (ty !in r.info || r.info[ty].Other?)
    ensures LeafAt(r, v, Typed(ty, local), path) == None
  {
    StaysTyped(r, v, ty, local);
    if path != [] && Child(v, path[0]).Some? {
      assert ChildSlot(r, v, Typed(ty, local), path[0]) == Inert;
      InertHoldsNothing(r, Child(v, path[0]).value, path[1..]);
    }
  }

  /** The slot of a named field. */
  lemma {:induction false} FieldSlotOf(fields: seq<FieldInfo>, name: string, tags: bool, i: nat)
    requires i < |fields| && fields[i].name == name && DistinctNames(fields)
    ensures FieldSlot(fields, name, tags) == Typed(fields[i].ty, tags && fields[i].syncLocal)
  {
    if i < |fields| - 1 {
      FieldSlotOf(fields[..|fields| - 1], name, tags, i);
    }
  }

  lemma FieldHeld(
    r: Reflection, fields: seq<FieldInfo>, tags: bool, v: Json, path: seq<Step>, flag: bool)
    requires r.WellFormed() && DistinctNames(fields)
    requires path != [] && path[0].Key? && v.Obj? && path[0].key in v.fields
    ensures LeafAt(r, v.fields[path[0].key], FieldSlot(fields, path[0].key, tags), path[1..]) == Some(flag)
       <==> HoldsField(r, fields, tags, v, path, flag)
    decreases |path|, 0, 0
  {
    var name, child := path[0].key, v.fields[path[0].key];
    if i :| 0 <= i < |fields| && fields[i].name == name {
      FieldSlotOf(fields, name, tags, i);
      LeafAtIff(r, child, fields[i].ty, tags && fields[i].syncLocal, path[1..], flag);
      assert forall j :: 0 <= j < |fields| && fields[j].name == name ==> j == i;
      hide FieldSlot, LeafAt, Holds;
    } else {
      FieldSlotMisses(fields, name, tags);
      InertHoldsNothing(r, child, path[1..]);
    }
  }

  lemma FieldsHeld(
    r: Reflection, fields: seq<FieldInfo>, v: Json, ty: TypeId, local: bool, path: seq<Step>, flag: bool)
    requires r.WellFormed() && ty != r.entityType && ty in r.info && r.info[ty] == Struct(fields)
    ensures LeafAt(r, v, Typed(ty, local), path) == Some(flag) <==> HoldsField(r, fields, true, v, path, flag)
    decreases |path|, 0, 1
  {
    StaysTyped(r, v, ty, local);
    LeafBelow(r, v, Typed(ty, local), path);
    hide LeafAt, Holds;
    if path != [] && path[0].Key? && v.Obj? && path[0].key in v.fields {
      FieldHeld(r, fields, true, v, path, flag);
    } else if path != [] && Child(v, path[0]).Some? {
      InertHoldsNothing(r, Child(v, path[0]).value, path[1..]);
    }
  }

  lemma NthsHeld(r: Reflection, types: seq<TypeId>, v: Json, slot: Slot, path: seq<Step>, flag: bool)
    requires r.WellFormed() && Settle(r, v, slot) == slot && !IsLeaf(r, slot)
    requires slot == Positions(types) || (slot.Typed? && slot.ty in r.info && r.info[slot.ty] == TupleStruct(types))
    ensures LeafAt(r, v, slot, path) == Some(flag) <==> HoldsNth(r, types, v, path, flag)
    decreases |path|, 0, 1
  {
    LeafBelow(r, v, slot, path);
    hide LeafAt, Holds;
    if path != [] && path[0].Nth? && v.Arr? && path[0].i < |v.items| && path[0].i < |types| {
      LeafAtIff(r, v.items[path[0].i], types[path[0].i], false, path[1..], flag);
    } else if path != [] && Child(v, path[0]).Some? {
      InertHoldsNothing(r, Child(v, path[0]).value, path[1..]);
    }
  }

  lemma ItemsHeld(r: Reflection, item: TypeId, v: Json, ty: TypeId, local: bool, path: seq<Step>, flag: bool)
    requires r.WellFormed() && ty != r.entityType && ty in r.info && r.info[ty] in {List(item), Array(item)}
    ensures LeafAt(r, v, Typed(ty, local), path) == Some(flag) <==> HoldsItem(r, item, v, path, flag)
    decreases |path|, 0, 1
  {
    StaysTyped(r, v, ty, local);
    LeafBelow(r, v, Typed(ty, local), path);
    hide LeafAt, Holds;
    if path != [] && path[0].Nth? && v.Arr? && path[0].i < |v.items| {
      LeafAtIff(r, v.items[path[0].i], item, false, path[1..], flag);
    } else if path != [] && Child(v, path[0]).Some? {
      InertHoldsNothing(r, Child(v, path[0]).value, path[1..]);
    }
  }

  lemma ValuesHeld(r: Reflection, value: TypeId, v: Json, ty: TypeId, local: bool, path: seq<Step>, flag: bool)
    requires r.WellFormed() && ty != r.entityType && ty in r.info && r.info[ty] == Map(value)
    ensures LeafAt(r, v, Typed(ty, local), path) == Some(flag) <==> Holds(r, ty, local, v, path, flag)
    decreases |path|, 0, 1
  {
    StaysTyped(r, v, ty, local);
    LeafBelow(r, v, Typed(ty, local), path);
    hide LeafAt;
    if path == [] || Child(v, path[0]).None? {
    } else if v.Arr? {
      PairHeld(r, value, v.items[path[0].i], path[1..], flag);
    } else {
      LeafAtIff(r, v.fields[path[0].key], value, false, path[1..], flag);
    }
  }

  lemma PairHeld(r: Reflection, value: TypeId, pair: Json, path: seq<Step>, flag: bool)
    requires r.WellFormed()
    ensures LeafAt(r, pair, Pair(value), path) == Some(flag) <==>
      && path != [] && path[0] == Nth(1) && pair.Arr? && |pair.items| >= 2
      && Holds(r, value, false, pair.items[1], path[1..], flag)
    decreases |path|, 0, 1
  {
    LeafBelow(r, pair, Pair(value), path);
    hide LeafAt, Holds;
    if path != [] && path[0] == Nth(1) && pair.Arr? && |pair.items| >= 2 {
      LeafAtIff(r, pair.items[1], value, false, path[1..], flag);
    } else if path != [] && Child(pair, path[0]).Some? {
      InertHoldsNothing(r, Child(pair, path[0]).value, path[1..]);
    }
  }

  lemma PayloadHeld(
    r: Reflection, variants: map<string, Variant>, v: Json, ty: TypeId, local: bool, path: seq<Step>, flag: bool)
    requires r.WellFormed() && ty != r.entityType && ty in r.info && r.info[ty] == Enum(variants)
    ensures LeafAt(r, v, Typed(ty, local), path) == Some(flag) <==> Holds(r, ty, local, v, path, flag)
    decreases |path|, 0, 1
  {
    StaysTyped(r, v, ty, local);
    LeafBelow(r, v, Typed(ty, local), path);
    hide LeafAt;
    if path == [] || Child(v, path[0]).None? {
    } else if v.Obj? && FirstKey(r, v.fields.Keys) == Some(path[0].key) && path[0].key in variants {
      VariantHeld(r, variants[path[0].key], v.fields[path[0].key], local, path[1..], flag);
    } else {
      InertHoldsNothing(r, Child(v, path[0]).value, path[1..]);
    }
  }

  lemma VariantHeld(r: Reflection, variant: Variant, v: Json, local: bool, path: seq<Step>, flag: bool)
    requires r.WellFormed() && (variant.StructVariant? ==> DistinctNames(variant.fields))
    ensures LeafAt(r, v, PayloadSlot(variant, local), path) == Some(flag) <==> HoldsPayload(r, variant, local, v, path, flag)
    decreases |path|, 2, 0
  {
    hide LeafAt, Holds;
    match variant
    case UnitVariant => InertHoldsNothing(r, v, path);
    case StructVariant(fields) =>
      LeafBelow(r, v, Fields(fields), path);
      if path != [] && path[0].Key? && v.Obj? && path[0].key in v.fields {
        FieldHeld(r, fields, false, v, path, flag);
      } else if path != [] && Child(v, path[0]).Some? {
        InertHoldsNothing(r, Child(v, path[0]).value, path[1..]);
      }
    case TupleVariant(types) =>
      if |types| == 1 {
        LeafAtIff(r, v, types[0], local, path, flag);
      } else {
        NthsHeld(r, types, v, Positions(types), path, flag);
      }
  }
}
