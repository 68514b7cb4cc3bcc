/** `convert_node`: the entity references inside a command's JSON, found by the command's type schema
    and rewritten between wire ids and local entities. */
module EntityIds {
  import opened EntityRegistry
  import opened Json
  import opened Numerals
  import opened Wrappers

  // ----- Type schemas -----

  type TypeId = nat

  datatype FieldInfo = FieldInfo(name: string, ty: TypeId, syncLocal: bool)

  datatype Variant = UnitVariant | StructVariant(fields: seq<FieldInfo>) | TupleVariant(types: seq<TypeId>)

  datatype TypeInfo =
    | Struct(fields: seq<FieldInfo>)
    | TupleStruct(types: seq<TypeId>)
    | List(item: TypeId)
    | Array(item: TypeId)
    | Map(value: TypeId)
    | Enum(variants: map<string, Variant>)
    | Other

  /** The type registry, and what the walk takes from the engine: which type is the entity, which bits
      are an entity, the placeholder entity, and the order a JSON object is iterated in. */
  datatype Reflection = Reflection(
    entityType: TypeId,
    info: map<TypeId, TypeInfo>,
    rank: TypeId -> nat,
    order: set<string> -> seq<string>,
    isEntity: U64 -> bool,
    placeholder: U64)
  {
    /** The type a registered one-field tuple struct wraps. */
    function Wrapped(ty: TypeId): Option<TypeId> {
      if ty != entityType && ty in info && info[ty].TupleStruct? && |info[ty].types| == 1
      then Some(info[ty].types[0]) else None
    }

    /** No type wraps itself, directly or through others, and no struct names a field twice: the
        language accepts no others. */
    ghost predicate WellFormed() {
      && (forall ty :: Wrapped(ty).Some? ==> rank(Wrapped(ty).value) < rank(ty))
      && (forall ty :: ty in info && info[ty].Struct? ==> DistinctNames(info[ty].fields))
      && (forall ty, name ::
            (ty in info && info[ty].Enum? && name in info[ty].variants && info[ty].variants[name].StructVariant?) ==>
              DistinctNames(info[ty].variants[name].fields))
    }
  }

  ghost predicate DistinctNames(fields: seq<FieldInfo>) {
    forall i, j :: 0 <= i < j < |fields| ==> fields[i].name != fields[j].name
  }

  // ----- What the schema says of each position -----

  /** What is expected at one position of the JSON. */
  datatype Slot =
    | Typed(ty: TypeId, syncLocal: bool)
    | Fields(fields: seq<FieldInfo>)
    | Positions(types: seq<TypeId>)
    | Pair(value: TypeId)
    | Inert

  /** A wrapper is serialised as the bare value it wraps, but an array under it is taken for the
      wrapper's own field list. */
  function Settle(r: Reflection, v: Json, slot: Slot): Slot
    requires r.WellFormed()
    decreases if slot.Typed? then r.rank(slot.ty) else 0
  {
    if slot.Typed? && r.Wrapped(slot.ty).Some? && !v.Arr? then
      Settle(r, v, Typed(r.Wrapped(slot.ty).value, false))
    else slot
  }

  predicate IsLeaf(r: Reflection, slot: Slot) {
    slot.Typed? && slot.ty == r.entityType
  }

  function FieldSlot(fields: seq<FieldInfo>, name: string, honoured: bool): Slot {
    if fields == [] then Inert
    else if fields[|fields| - 1].name == name then
      Typed(fields[|fields| - 1].ty, honoured && fields[|fields| - 1].syncLocal)
    else FieldSlot(fields[..|fields| - 1], name, honoured)
  }

  function PositionSlot(types: seq<TypeId>, i: nat): Slot {
    if i < |types| then Typed(types[i], false) else Inert
  }

  function PayloadSlot(variant: Variant, syncLocal: bool): Slot {
    match variant
    case UnitVariant => Inert
    case StructVariant(fields) => Fields(fields)
    case TupleVariant(types) => if |types| == 1 then Typed(types[0], syncLocal) else Positions(types)
  }

  /** The first key of an object, in iteration order. */
  function FirstKey(r: Reflection, keys: set<string>): Option<string> {
    var names := r.order(keys);
    if names == [] then None else Some(names[0])
  }

  function AtKey(r: Reflection, keys: set<string>, slot: Slot, key: string): Slot {
    match slot
    case Typed(ty, syncLocal) =>
      if ty !in r.info then Inert else
        (match r.info[ty]
         case Struct(fields) => FieldSlot(fields, key, true)
         case Map(value) => Typed(value, false)
         case Enum(variants) =>
           if FirstKey(r, keys) == Some(key) && key in variants then PayloadSlot(variants[key], syncLocal) else Inert
         case _ => Inert)
    case Fields(fields) => FieldSlot(fields, key, false)
    case _ => Inert
  }

  function AtIndex(r: Reflection, slot: Slot, i: nat): Slot {
    match slot
    case Typed(ty, _) =>
      if ty !in r.info then Inert else
        (match r.info[ty]
         case TupleStruct(types) => PositionSlot(types, i)
         case List(item) => Typed(item, false)
         case Array(item) => Typed(item, false)
         case Map(value) => Pair(value)
         case _ => Inert)
    case Positions(types) => PositionSlot(types, i)
    case Pair(value) => if i == 1 then Typed(value, false) else Inert
    case _ => Inert
  }

  /** What each element of an array is taken for under a type that reads arrays. */
  function ElementSlot(info: TypeInfo, i: nat): Slot {
    match info
    case TupleStruct(types) => PositionSlot(types, i)
    case List(item) => Typed(item, false)
    case Array(item) => Typed(item, false)
    case Map(value) => Pair(value)
    case _ => Inert
  }

  // ----- The rewriting, as a map over the entity positions -----

  /** What is done to the value at an entity position; the flag says the field is local to a peer. */
  type Leaf = (Json, bool) -> Json

  function Convert(r: Reflection, leaf: Leaf, v: Json, slot: Slot): Json
    requires r.WellFormed()
    decreases v
  {
    var at := Settle(r, v, slot);
    if IsLeaf(r, at) then leaf(v, at.syncLocal)
    else
      match v
      case Obj(m) => Obj(map k | k in m :: Convert(r, leaf, m[k], AtKey(r, m.Keys, at, k)))
      case Arr(items) => Arr(seq(|items|, i requires 0 <= i < |items| => Convert(r, leaf, items[i], AtIndex(r, at, i))))
      case _ => v
  }

  datatype IdDir = Resolve | Globalize

  function AsU64(v: Json): Option<U64> {
    if v.Num? && v.number.IntNum? && 0 <= v.number.i <= U64_MAX then Some(v.number.i) else None
  }

  function U64Json(n: U64): Json {
    Num(IntNum(n))
  }

  /** A wire id: a number, or its decimal text. */
  function WireId(v: Json): Option<U64> {
    if AsU64(v).Some? then AsU64(v) else if v.Str? then ParseU64(v.s) else None
  }

  function LocalEntity(r: Reflection, v: Json): Option<Entity> {
    match AsU64(v)
    case Some(bits) => if r.isEntity(bits) then Some(bits) else None
    case None => None
  }

  function ConvertLeaf(r: Reflection, dir: IdDir, ix: Index, v: Json, syncLocal: bool): Json {
    match dir
    case Resolve =>
      (match WireId(v)
       case Some(id) => (match ix.Resolve(id) case Some(e) => U64Json(e) case None => v)
       case None => v)
    case Globalize =>
      if syncLocal then U64Json(r.placeholder)
      else
        match LocalEntity(r, v)
        case Some(e) => (match ix.ApiIdFor(e) case Some(id) => U64Json(id) case None => v)
        case None => v
  }

  function LeafOf(r: Reflection, dir: IdDir, ix: Index): Leaf {
    (v, syncLocal) => ConvertLeaf(r, dir, ix, v, syncLocal)
  }

  /** `resolve_command_ids` and `globalize_command_ids`. */
  function Rewrite(r: Reflection, dir: IdDir, ix: Index, v: Json, command: TypeId): Json
    requires r.WellFormed()
  {
    Convert(r, LeafOf(r, dir, ix), v, Typed(command, false))
  }
}
