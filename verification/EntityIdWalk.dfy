/** `convert_node` as the source runs it: a walk of the value alongside the type schema, rewriting each
    object and array one child at a time. */
module EntityIdWalk {
  import opened EntityIds
  import opened EntityRegistry
  import opened Json
  import opened Wrappers

  lemma {:induction false} InertIsUntouched(r: Reflection, leaf: Leaf, v: Json)
    requires r.WellFormed()
    ensures Convert(r, leaf, v, Inert) == v
    decreases v
  {
    match v
    case Obj(m) =>
      forall k | k in m ensures Convert(r, leaf, m[k], AtKey(r, m.Keys, Inert, k)) == m[k] {
        InertIsUntouched(r, leaf, m[k]);
      }
      assert Convert(r, leaf, v, Inert).fields == m;
    case Arr(items) =>
      forall i: nat | i < |items| ensures Convert(r, leaf, items[i], AtIndex(r, Inert, i)) == items[i] {
        InertIsUntouched(r, leaf, items[i]);
      }
    case _ =>
  }

  /** A position that expects nothing at any child is untouched. */
  lemma BarrenIsUntouched(r: Reflection, leaf: Leaf, v: Json, slot: Slot)
    requires r.WellFormed() && Settle(r, v, slot) == slot && !IsLeaf(r, slot)
    requires v.Obj? ==> forall k :: k in v.fields ==> AtKey(r, v.fields.Keys, slot, k) == Inert
    requires v.Arr? ==> forall i: nat :: i < |v.items| ==> AtIndex(r, slot, i) == Inert
    ensures Convert(r, leaf, v, slot) == v
  {
    match v
    case Obj(m) =>
      forall k | k in m ensures Convert(r, leaf, m[k], AtKey(r, m.Keys, slot, k)) == m[k] {
        InertIsUntouched(r, leaf, m[k]);
      }
      assert Convert(r, leaf, v, slot).fields == m;
    case Arr(items) =>
      forall i: nat | i < |items| ensures Convert(r, leaf, items[i], AtIndex(r, slot, i)) == items[i] {
        InertIsUntouched(r, leaf, items[i]);
      }
    case _ =>
  }

  lemma ObjectRewritten(r: Reflection, leaf: Leaf, m: map<string, Json>, slot: Slot, out: map<string, Json>)
    requires r.WellFormed() && Settle(r, Obj(m), slot) == slot && !IsLeaf(r, slot)
    requires out.Keys == m.Keys && forall k :: k in m ==> out[k] == Convert(r, leaf, m[k], AtKey(r, m.Keys, slot, k))
    ensures Convert(r, leaf, Obj(m), slot) == Obj(out)
  {
    hide AtKey, Settle;
    assert Convert(r, leaf, Obj(m), slot).fields == out;
  }

  lemma ArrayRewritten(r: Reflection, leaf: Leaf, items: seq<Json>, slot: Slot, out: seq<Json>)
    requires r.WellFormed() && Settle(r, Arr(items), slot) == slot && !IsLeaf(r, slot)
    requires |out| == |items|
    requires forall i: nat :: i < |items| ==> out[i] == Convert(r, leaf, items[i], AtIndex(r, slot, i))
    ensures Convert(r, leaf, Arr(items), slot) == Arr(out)
  {
    hide AtIndex, Settle;
    assert Convert(r, leaf, Arr(items), slot).items == out;
  }

  lemma StructRewritten(
    r: Reflection, leaf: Leaf, m: map<string, Json>, ty: TypeId, syncLocal: bool, out: map<string, Json>)
    requires r.WellFormed() && ty != r.entityType && ty in r.info && r.info[ty].Struct?
    requires out == map k | k in m :: Convert(r, leaf, m[k], FieldSlot(r.info[ty].fields, k, true))
    ensures Convert(r, leaf, Obj(m), Typed(ty, syncLocal)) == Obj(out)
  {
    hide Convert;
    ObjectRewritten(r, leaf, m, Typed(ty, syncLocal), out);
  }

  lemma ValuesRewritten(
    r: Reflection, leaf: Leaf, m: map<string, Json>, ty: TypeId, syncLocal: bool, out: map<string, Json>)
    requires r.WellFormed() && ty != r.entityType && ty in r.info && r.info[ty].Map?
    requires out == map k | k in m :: Convert(r, leaf, m[k], Typed(r.info[ty].value, false))
    ensures Convert(r, leaf, Obj(m), Typed(ty, syncLocal)) == Obj(out)
  {
    hide Convert;
    ObjectRewritten(r, leaf, m, Typed(ty, syncLocal), out);
  }

  lemma ElementsRewritten(r: Reflection, leaf: Leaf, items: seq<Json>, ty: TypeId, syncLocal: bool, out: seq<Json>)
    requires r.WellFormed() && ty != r.entityType && ty in r.info && |out| == |items|
    requires forall i: nat :: i < |items| ==> out[i] == Convert(r, leaf, items[i], ElementSlot(r.info[ty], i))
    ensures Convert(r, leaf, Arr(items), Typed(ty, syncLocal)) == Arr(out)
  {
    hide Convert;
    ArrayRewritten(r, leaf, items, Typed(ty, syncLocal), out);
  }

  lemma WrapperIsTransparent(r: Reflection, leaf: Leaf, v: Json, ty: TypeId, syncLocal: bool)
    requires r.WellFormed() && r.Wrapped(ty).Some? && !v.Arr?
    ensures Convert(r, leaf, v, Typed(ty, syncLocal)) == Convert(r, leaf, v, Typed(r.Wrapped(ty).value, false))
  {
    assert Settle(r, v, Typed(ty, syncLocal)) == Settle(r, v, Typed(r.Wrapped(ty).value, false));
  }

  lemma {:induction false} FieldSlotMisses(fields: seq<FieldInfo>, name: string, honoured: bool)
    requires forall i :: 0 <= i < |fields| ==> fields[i].name != name
    ensures FieldSlot(fields, name, honoured) == Inert
  {
    if fields != [] {
      FieldSlotMisses(fields[..|fields| - 1], name, honoured);
    }
  }

  /** The first `n` fields have been rewritten in `now`, a copy of the object `m`. */
  ghost predicate FieldsDone(
    r: Reflection, leaf: Leaf, m: map<string, Json>, fields: seq<FieldInfo>, honoured: bool, n: nat, now: map<string, Json>)
    requires r.WellFormed() && n <= |fields|
  {
    && now.Keys == m.Keys
    && forall k :: k in m ==> now[k] == Convert(r, leaf, m[k], FieldSlot(fields[..n], k, honoured))
  }

  lemma FieldsDoneStart(r: Reflection, leaf: Leaf, m: map<string, Json>, fields: seq<FieldInfo>, honoured: bool)
    requires r.WellFormed()
    ensures FieldsDone(r, leaf, m, fields, honoured, 0, m)
  {
    hide Convert;
    forall k | k in m ensures Convert(r, leaf, m[k], Inert) == m[k] {
      InertIsUntouched(r, leaf, m[k]);
    }
  }

  lemma FieldsDoneStep(
    r: Reflection, leaf: Leaf, m: map<string, Json>, fields: seq<FieldInfo>, honoured: bool, n: nat, now: map<string, Json>)
    requires r.WellFormed() && n < |fields| && DistinctNames(fields)
    requires FieldsDone(r, leaf, m, fields, honoured, n, now)
    ensures var f := fields[n];
      if f.name !in m then FieldsDone(r, leaf, m, fields, honoured, n + 1, now)
      else
        now[f.name] == m[f.name]
        && FieldsDone(r, leaf, m, fields, honoured, n + 1,
                      now[f.name := Convert(r, leaf, m[f.name], Typed(f.ty, honoured && f.syncLocal))])
  {
    hide Convert, FieldSlot;
    var f := fields[n];
    assert fields[..n + 1][..n] == fields[..n];
    forall k | k in m && k != f.name ensures FieldSlot(fields[..n + 1], k, honoured) == FieldSlot(fields[..n], k, honoured) {
      FieldSlotOther(fields[..n + 1], k, honoured);
    }
    if f.name in m {
      FieldSlotMisses(fields[..n], f.name, honoured);
      InertIsUntouched(r, leaf, m[f.name]);
      FieldSlotLast(fields[..n + 1], honoured);
    }
  }

  lemma FieldSlotOther(fields: seq<FieldInfo>, name: string, honoured: bool)
    requires fields != [] && fields[|fields| - 1].name != name
    ensures FieldSlot(fields, name, honoured) == FieldSlot(fields[..|fields| - 1], name, honoured)
  {
  }

  lemma FieldSlotLast(fields: seq<FieldInfo>, honoured: bool)
    requires fields != []
    ensures var f := fields[|fields| - 1];
      FieldSlot(fields, f.name, honoured) == Typed(f.ty, honoured && f.syncLocal)
  {
  }

  method ConvertFields(
    r: Reflection, dir: IdDir, entities: ApiEntityRegistry, m: map<string, Json>, fields: seq<FieldInfo>, honoured: bool)
    returns (out: map<string, Json>)
    requires r.WellFormed() && DistinctNames(fields)
    ensures out == map k | k in m :: Convert(r, LeafOf(r, dir, entities.Value()), m[k], FieldSlot(fields, k, honoured))
    decreases Obj(m), 0
  {
    hide Convert, FieldSlot, LeafOf, FieldsDone;
    ghost var leaf := LeafOf(r, dir, entities.Value());
    out := m;
    FieldsDoneStart(r, leaf, m, fields, honoured);
    for i := 0 to |fields|
      invariant FieldsDone(r, leaf, m, fields, honoured, i, out) && out.Keys == m.Keys
    {
      var f := fields[i];
      FieldsDoneStep(r, leaf, m, fields, honoured, i, out);
      if f.name in out {
        var child := ConvertNode(r, dir, entities, m[f.name], f.ty, honoured && f.syncLocal);
        out := out[f.name := child];
      }
    }
    FieldsDoneEnd(r, leaf, m, fields, honoured, out);
  }

  lemma FieldsDoneEnd(
    r: Reflection, leaf: Leaf, m: map<string, Json>, fields: seq<FieldInfo>, honoured: bool, now: map<string, Json>)
    requires r.WellFormed() && FieldsDone(r, leaf, m, fields, honoured, |fields|, now)
    ensures now == map k | k in m :: Convert(r, leaf, m[k], FieldSlot(fields, k, honoured))
  {
    hide Convert, FieldSlot;
    assert fields[..|fields|] == fields;
  }

  method ConvertPositions(
    r: Reflection, dir: IdDir, entities: ApiEntityRegistry, items: seq<Json>, types: seq<TypeId>) returns (out: seq<Json>)
    requires r.WellFormed()
    ensures |out| == |items|
    ensures forall i: nat :: i < |items| ==>
              out[i] == Convert(r, LeafOf(r, dir, entities.Value()), items[i], PositionSlot(types, i))
    decreases Arr(items), 0
  {
    ghost var leaf := LeafOf(r, dir, entities.Value());
    out := items;
    for i := 0 to |types|
      invariant |out| == |items|
      invariant forall j: nat :: j < |items| ==>
        out[j] == if j < i then Convert(r, leaf, items[j], PositionSlot(types, j)) else items[j]
    {
      if i < |items| {
        var child := ConvertNode(r, dir, entities, items[i], types[i], false);
        out := out[i := child];
      }
    }
    forall i: nat | |types| <= i < |items| ensures out[i] == Convert(r, leaf, items[i], PositionSlot(types, i)) {
      InertIsUntouched(r, leaf, items[i]);
    }
  }

  method ConvertItems(
    r: Reflection, dir: IdDir, entities: ApiEntityRegistry, items: seq<Json>, item: TypeId) returns (out: seq<Json>)
    requires r.WellFormed()
    ensures |out| == |items|
    ensures forall i: nat :: i < |items| ==>
              out[i] == Convert(r, LeafOf(r, dir, entities.Value()), items[i], Typed(item, false))
    decreases Arr(items), 0
  {
    out := items;
    for i := 0 to |items|
      invariant |out| == |items|
      invariant forall j: nat :: j < |items| ==>
        out[j] == if j < i then Convert(r, LeafOf(r, dir, entities.Value()), items[j], Typed(item, false)) else items[j]
    {
      var child := ConvertNode(r, dir, entities, items[i], item, false);
      out := out[i := child];
    }
  }

  /** The values of a map serialised as an array of key-value pairs. */
  method ConvertPairs(
    r: Reflection, dir: IdDir, entities: ApiEntityRegistry, items: seq<Json>, value: TypeId) returns (out: seq<Json>)
    requires r.WellFormed()
    ensures |out| == |items|
    ensures forall i: nat :: i < |items| ==>
              out[i] == Convert(r, LeafOf(r, dir, entities.Value()), items[i], Pair(value))
    decreases Arr(items), 0
  {
    ghost var leaf := LeafOf(r, dir, entities.Value());
    out := items;
    for i := 0 to |items|
      invariant |out| == |items|
      invariant forall j: nat :: j < |items| ==>
        out[j] == if j < i then Convert(r, leaf, items[j], Pair(value)) else items[j]
    {
      if items[i].Arr? && |items[i].items| > 1 {
        var pair := items[i].items;
        assert pair[1] < items[i];
        var child := ConvertNode(r, dir, entities, pair[1], value, false);
        out := out[i := Arr(pair[1 := child])];
        forall j: nat | j < |pair| && j != 1 ensures Convert(r, leaf, pair[j], AtIndex(r, Pair(value), j)) == pair[j] {
          InertIsUntouched(r, leaf, pair[j]);
        }
        assert Convert(r, leaf, items[i], Pair(value)).items == pair[1 := child];
      } else {
        BarrenIsUntouched(r, leaf, items[i], Pair(value));
      }
    }
  }

  method ConvertValues(
    r: Reflection, dir: IdDir, entities: ApiEntityRegistry, m: map<string, Json>, value: TypeId)
    returns (out: map<string, Json>)
    requires r.WellFormed()
    ensures out == map k | k in m :: Convert(r, LeafOf(r, dir, entities.Value()), m[k], Typed(value, false))
    decreases Obj(m), 0
  {
    hide Convert, LeafOf;
    out := m;
    var todo := m.Keys;
    while todo != {}
      invariant out.Keys == m.Keys && todo <= m.Keys
      invariant forall k :: k in m ==>
        out[k] == if k in todo then m[k] else Convert(r, LeafOf(r, dir, entities.Value()), m[k], Typed(value, false))
      decreases |todo|
    {
      var k :| k in todo;
      assert m[k] < Obj(m);
      var child := ConvertNode(r, dir, entities, m[k], value, false);
      out, todo := out[k := child], todo - {k};
    }
  }

  method ConvertPayload(
    r: Reflection, dir: IdDir, entities: ApiEntityRegistry, payload: Json, variant: Variant, syncLocal: bool)
    returns (out: Json)
    requires r.WellFormed() && (variant.StructVariant? ==> DistinctNames(variant.fields))
    ensures out == Convert(r, LeafOf(r, dir, entities.Value()), payload, PayloadSlot(variant, syncLocal))
    decreases payload, 2
  {
    ghost var leaf := LeafOf(r, dir, entities.Value());
    out := payload;
    match variant
    case UnitVariant =>
      InertIsUntouched(r, leaf, payload);
    case StructVariant(fields) =>
      if payload.Obj? {
        var m := ConvertFields(r, dir, entities, payload.fields, fields, false);
        out := Obj(m);
      } else {
        BarrenIsUntouched(r, leaf, payload, Fields(fields));
      }
    case TupleVariant(types) =>
      if |types| == 1 {
        out := ConvertNode(r, dir, entities, payload, types[0], syncLocal);
      } else if payload.Arr? {
        var items := ConvertPositions(r, dir, entities, payload.items, types);
        out := Arr(items);
      } else {
        BarrenIsUntouched(r, leaf, payload, Positions(types));
      }
  }

  /** Whether a value has a shape its type is serialised in. */
  predicate Fits(info: TypeInfo, v: Json) {
    match info
    case Struct(_) => v.Obj?
    case TupleStruct(types) => v.Arr? || |types| == 1
    case List(_) => v.Arr?
    case Array(_) => v.Arr?
    case Map(_) => v.Arr? || v.Obj?
    case Enum(_) => v.Obj?
    case Other => false
  }

  lemma UnregisteredIsUntouched(r: Reflection, leaf: Leaf, v: Json, ty: TypeId, syncLocal: bool)
    requires r.WellFormed() && ty != r.entityType && ty !in r.info
    ensures Convert(r, leaf, v, Typed(ty, syncLocal)) == v
  {
    hide Convert;
    BarrenIsUntouched(r, leaf, v, Typed(ty, syncLocal));
  }

  lemma MismatchIsUntouched(r: Reflection, leaf: Leaf, v: Json, ty: TypeId, syncLocal: bool)
    requires r.WellFormed() && ty != r.entityType && ty in r.info && !Fits(r.info[ty], v)
    ensures Convert(r, leaf, v, Typed(ty, syncLocal)) == v
  {
    hide Convert;
    BarrenIsUntouched(r, leaf, v, Typed(ty, syncLocal));
  }

  /** The payload of a data variant, under the object's first key. */
  method ConvertEnum(
    r: Reflection, dir: IdDir, entities: ApiEntityRegistry, m: map<string, Json>, ty: TypeId, syncLocal: bool)
    returns (out: Json)
    requires r.WellFormed() && ty != r.entityType && ty in r.info && r.info[ty].Enum?
    ensures out == Convert(r, LeafOf(r, dir, entities.Value()), Obj(m), Typed(ty, syncLocal))
    decreases Obj(m), 0
  {
    hide Convert, LeafOf;
    ghost var leaf, slot := LeafOf(r, dir, entities.Value()), Typed(ty, syncLocal);
    var variants, name := r.info[ty].variants, FirstKey(r, m.Keys);
    if name.None? || name.value !in m || name.value !in variants {
      BarrenIsUntouched(r, leaf, Obj(m), slot);
      return Obj(m);
    }
    var key := name.value;
    assert m[key] < Obj(m);
    var payload := ConvertPayload(r, dir, entities, m[key], variants[key], syncLocal);
    forall k | k in m && k != key ensures Convert(r, leaf, m[k], AtKey(r, m.Keys, slot, k)) == m[k] {
      InertIsUntouched(r, leaf, m[k]);
    }
    ObjectRewritten(r, leaf, m, slot, m[key := payload]);
    out := Obj(m[key := payload]);
  }

  /** The walk computes the rewriting. */
  method ConvertNode(r: Reflection, dir: IdDir, entities: ApiEntityRegistry, value: Json, ty: TypeId, syncLocal: bool)
    returns (out: Json)
    requires r.WellFormed()
    ensures out == Convert(r, LeafOf(r, dir, entities.Value()), value, Typed(ty, syncLocal))
    decreases value, 1, r.rank(ty)
  {
    ghost var leaf := LeafOf(r, dir, entities.Value());
    if ty == r.entityType {
      return ConvertLeaf(r, dir, entities.Value(), value, syncLocal);
    }
    hide Convert, LeafOf, AtKey, AtIndex, Settle, FieldSlot, PositionSlot;
    if ty !in r.info {
      UnregisteredIsUntouched(r, leaf, value, ty, syncLocal);
      return value;
    }
    var info := r.info[ty];
    match (info, value)
    case (Struct(fields), Obj(m)) =>
      var now := ConvertFields(r, dir, entities, m, fields, true);
      StructRewritten(r, leaf, m, ty, syncLocal, now);
      out := Obj(now);
    case (TupleStruct(types), Arr(items)) =>
      var now := ConvertPositions(r, dir, entities, items, types);
      ElementsRewritten(r, leaf, items, ty, syncLocal, now);
      out := Arr(now);
    case (TupleStruct(types), _) =>
      if |types| == 1 {
        assert r.Wrapped(ty) == Some(types[0]);
        WrapperIsTransparent(r, leaf, value, ty, syncLocal);
        out := ConvertNode(r, dir, entities, value, types[0], false);
      } else {
        MismatchIsUntouched(r, leaf, value, ty, syncLocal);
        out := value;
      }
    case (List(item), Arr(items)) =>
      var now := ConvertItems(r, dir, entities, items, item);
      ElementsRewritten(r, leaf, items, ty, syncLocal, now);
      out := Arr(now);
    case (Array(item), Arr(items)) =>
      var now := ConvertItems(r, dir, entities, items, item);
      ElementsRewritten(r, leaf, items, ty, syncLocal, now);
      out := Arr(now);
    case (Map(vt), Arr(items)) =>
      var now := ConvertPairs(r, dir, entities, items, vt);
      ElementsRewritten(r, leaf, items, ty, syncLocal, now);
      out := Arr(now);
    case (Map(vt), Obj(m)) =>
      var now := ConvertValues(r, dir, entities, m, vt);
      ValuesRewritten(r, leaf, m, ty, syncLocal, now);
      out := Obj(now);
    case (Enum(_), Obj(m)) =>
      out := ConvertEnum(r, dir, entities, m, ty, syncLocal);
    case _ =>
      MismatchIsUntouched(r, leaf, value, ty, syncLocal);
      out := value;
  }
}
