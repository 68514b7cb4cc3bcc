/** The two-way index between wire ids and live entities, and the system that keeps it in step with
    the world. */
module EntityRegistry {
  import opened Numerals
  import opened Wrappers

  /** An entity by its bits, index and generation together; a global id by its raw value. */
  type Entity = U64
  type GlobalId = U64

  // ----- The index as a value -----

  datatype Index = Index(apiToBevy: map<GlobalId, Entity>, bevyToApi: map<Entity, GlobalId>) {
    function Resolve(id: GlobalId): Option<Entity> {
      if id in apiToBevy then Some(apiToBevy[id]) else None
    }

    function ApiIdFor(e: Entity): Option<GlobalId> {
      if e in bevyToApi then Some(bevyToApi[e]) else None
    }

    /** The id an entity goes by leads back to that entity. */
    ghost predicate Sound() {
      forall e :: e in bevyToApi ==> Resolve(bevyToApi[e]) == Some(e)
    }
  }

  const EMPTY: Index := Index(map[], map[])

  function Assigned(ix: Index, e: Entity, id: GlobalId): Index {
    var rest := if id in ix.apiToBevy && ix.apiToBevy[id] != e then ix.bevyToApi - {ix.apiToBevy[id]} else ix.bevyToApi;
    Index(ix.apiToBevy[id := e], rest[e := id])
  }

  function Removed(ix: Index, e: Entity): Index {
    if e !in ix.bevyToApi then ix
    else
      var id := ix.bevyToApi[e];
      Index(if ix.Resolve(id) == Some(e) then ix.apiToBevy - {id} else ix.apiToBevy, ix.bevyToApi - {e})
  }

  datatype Edit = Assign(entity: Entity, id: GlobalId) | Remove(entity: Entity)

  function Edited(ix: Index, edits: seq<Edit>): Index {
    if edits == [] then ix
    else
      var before := Edited(ix, edits[..|edits| - 1]);
      match edits[|edits| - 1]
      case Assign(e, id) => Assigned(before, e, id)
      case Remove(e) => Removed(before, e)
  }

  /** Whatever order ids are assigned, moved and dropped in, the reverse index never dangles. */
  lemma {:induction false} ReachedIsSound(edits: seq<Edit>)
    ensures Edited(EMPTY, edits).Sound()
  {
    if edits != [] {
      ReachedIsSound(edits[..|edits| - 1]);
    }
  }

  /** A late removal of the entity a reload replaced does not disturb its replacement. */
  lemma LateRemoveKeepsReplacement(ix: Index, stale: Entity, renewed: Entity, id: GlobalId)
    requires ix.Resolve(id) == Some(stale) && stale != renewed
    ensures var after := Removed(Assigned(ix, renewed, id), stale);
      after == Assigned(ix, renewed, id) && after.Resolve(id) == Some(renewed) && after.ApiIdFor(renewed) == Some(id)
      && after.ApiIdFor(stale) == None
  {
  }

  // ----- The index as the source keeps it -----

  class ApiEntityRegistry {
    var apiToBevy: map<GlobalId, Entity>
    var bevyToApi: map<Entity, GlobalId>

    function Value(): Index
      reads this
    {
      Index(apiToBevy, bevyToApi)
    }

    constructor ()
      ensures Value() == EMPTY
    {
      apiToBevy, bevyToApi := map[], map[];
    }

    method Assign(e: Entity, id: GlobalId)
      modifies this
      ensures Value() == Assigned(old(Value()), e, id)
    {
      var previous := if id in apiToBevy then Some(apiToBevy[id]) else None;
      apiToBevy := apiToBevy[id := e];
      if previous.Some? && previous.value != e {
        bevyToApi := bevyToApi - {previous.value};
      }
      bevyToApi := bevyToApi[e := id];
    }

    method Remove(e: Entity)
      modifies this
      ensures Value() == Removed(old(Value()), e)
    {
      if e in bevyToApi {
        var id := bevyToApi[e];
        bevyToApi := bevyToApi - {e};
        if id in apiToBevy && apiToBevy[id] == e {
          apiToBevy := apiToBevy - {id};
        }
      }
    }

    /** `sync_api_registry`: everything that lost its id since the last run, then everything that gained one. */
    method Sync(lost: seq<Entity>, gained: seq<(Entity, GlobalId)>)
      modifies this
      ensures Value() == Synced(old(Value()), lost, gained)
    {
      for i := 0 to |lost|
        invariant Value() == AllRemoved(old(Value()), lost[..i])
      {
        Remove(lost[i]);
        assert lost[..i + 1][..i] == lost[..i];
      }
      assert lost[..|lost|] == lost;
      for i := 0 to |gained|
        invariant Value() == AllAssigned(AllRemoved(old(Value()), lost), gained[..i])
      {
        Assign(gained[i].0, gained[i].1);
        assert gained[..i + 1][..i] == gained[..i];
      }
      assert gained[..|gained|] == gained;
    }
  }

  function AllRemoved(ix: Index, lost: seq<Entity>): Index {
    if lost == [] then ix else Removed(AllRemoved(ix, lost[..|lost| - 1]), lost[|lost| - 1])
  }

  function AllAssigned(ix: Index, gained: seq<(Entity, GlobalId)>): Index {
    if gained == [] then ix
    else
      var last := gained[|gained| - 1];
      Assigned(AllAssigned(ix, gained[..|gained| - 1]), last.0, last.1)
  }

  function Synced(ix: Index, lost: seq<Entity>, gained: seq<(Entity, GlobalId)>): Index {
    AllAssigned(AllRemoved(ix, lost), gained)
  }

  // ----- The world between two syncs -----

  /** What happens to the id components. An entity that has an id can lose it, or have it overwritten in
      place: the engine reports the first as a removal and the second as neither removal nor addition. */
  datatype Change = Gain(entity: Entity, id: GlobalId) | Lose(entity: Entity) | Overwrite(entity: Entity, id: GlobalId)

  type Live = map<Entity, GlobalId>

  ghost predicate Legal(live: Live, change: Change) {
    change.Gain? <==> change.entity !in live
  }

  ghost function After(live: Live, change: Change): Live {
    match change
    case Gain(e, id) => live[e := id]
    case Lose(e) => live - {e}
    case Overwrite(e, id) => live[e := id]
  }

  ghost predicate AllLegal(live: Live, changes: seq<Change>) {
    changes == [] ||
    var before := changes[..|changes| - 1];
    AllLegal(live, before) && Legal(LiveAfter(live, before), changes[|changes| - 1])
  }

  ghost function LiveAfter(live: Live, changes: seq<Change>): Live {
    if changes == [] then live else After(LiveAfter(live, changes[..|changes| - 1]), changes[|changes| - 1])
  }

  /** The removal events of a frame, in order. */
  ghost function LostIn(changes: seq<Change>): seq<Entity> {
    if changes == [] then []
    else
      var last := changes[|changes| - 1];
      LostIn(changes[..|changes| - 1]) + if last.Lose? then [last.entity] else []
  }

  /** The live entities whose id component was added this frame. */
  ghost function GainedIn(changes: seq<Change>): set<Entity> {
    if changes == [] then {}
    else
      var before := GainedIn(changes[..|changes| - 1]);
      match changes[|changes| - 1]
      case Gain(e, _) => before + {e}
      case Lose(e) => before - {e}
      case Overwrite(_, _) => before
  }

  /** The query over added components lists each of them once, in some order, with its id. */
  ghost predicate ListsGained(gained: seq<(Entity, GlobalId)>, live: Live, changes: seq<Change>) {
    && (forall i :: 0 <= i < |gained| ==>
          gained[i].0 in GainedIn(changes) && gained[i].0 in live && gained[i].1 == live[gained[i].0])
    && (forall e :: e in GainedIn(changes) && e in live ==> (e, live[e]) in gained)
  }

  ghost predicate Distinct(live: Live) {
    forall a, b :: a in live && b in live && live[a] == live[b] ==> a == b
  }

  /** The index is the live entities and nothing else, in both directions. */
  ghost predicate Mirrors(ix: Index, live: Live) {
    && ix.bevyToApi == live
    && forall id, e :: ix.Resolve(id) == Some(e) <==> e in live && live[e] == id
  }

  /** Every entity that kept its id component kept its id: ids change only by being lost and gained. */
  ghost predicate KeepsIds(live: Live, changes: seq<Change>) {
    forall e :: e in live && e !in LostIn(changes) && e in LiveAfter(live, changes) ==> LiveAfter(live, changes)[e] == live[e]
  }

  lemma {:induction false} ChangesSplit(live: Live, changes: seq<Change>, e: Entity)
    requires AllLegal(live, changes)
    ensures e in GainedIn(changes) ==> e in LiveAfter(live, changes)
    ensures e in LiveAfter(live, changes) && e !in GainedIn(changes) ==> e in live && e !in LostIn(changes)
    ensures e in live && e !in LostIn(changes) ==> e in LiveAfter(live, changes) && e !in GainedIn(changes)
  {
    if changes != [] {
      ChangesSplit(live, changes[..|changes| - 1], e);
    }
  }

  ghost function Without(live: Live, gone: seq<Entity>): Live {
    map e | e in live && e !in gone :: live[e]
  }

  lemma {:induction false} RemovalsMirror(ix: Index, live: Live, lost: seq<Entity>)
    requires Mirrors(ix, live)
    ensures Mirrors(AllRemoved(ix, lost), Without(live, lost))
  {
    if lost == [] {
      assert Without(live, lost) == live;
    } else {
      var n := |lost| - 1;
      RemovalsMirror(ix, live, lost[..n]);
      var before := AllRemoved(ix, lost[..n]);
      RemovalMirrors(before, Without(live, lost[..n]), lost[n]);
      assert Without(live, lost) == Without(live, lost[..n]) - {lost[n]} by {
        assert lost == lost[..n] + [lost[n]];
      }
    }
  }

  lemma RemovalMirrors(ix: Index, live: Live, e: Entity)
    requires Mirrors(ix, live)
    ensures Mirrors(Removed(ix, e), live - {e})
  {
    var after := Removed(ix, e);
    if e in live {
      assert ix.Resolve(live[e]) == Some(e);
      assert after.bevyToApi == live - {e};
      forall id, x ensures after.Resolve(id) == Some(x) <==> x in live - {e} && live[x] == id {
        assert ix.Resolve(id) == Some(x) <==> x in live && live[x] == id;
        assert ix.Resolve(id) == Some(e) <==> live[e] == id;
      }
    } else {
      assert live - {e} == live;
    }
  }

  /** Listed entries that agree with a map of distinct ids extend a mirror of the rest of that map. */
  lemma {:induction false} AssignmentsMirror(ix: Index, kept: Live, live: Live, gained: seq<(Entity, GlobalId)>)
    requires Mirrors(ix, kept) && Distinct(live)
    requires forall e :: e in kept ==> e in live && live[e] == kept[e]
    requires forall i :: 0 <= i < |gained| ==> gained[i].0 in live && gained[i].1 == live[gained[i].0]
    ensures Mirrors(AllAssigned(ix, gained), With(kept, gained))
  {
    if gained == [] {
      assert With(kept, gained) == kept;
    } else {
      var n := |gained| - 1;
      AssignmentsMirror(ix, kept, live, gained[..n]);
      WithAgrees(kept, live, gained[..n]);
      AssignmentMirrors(AllAssigned(ix, gained[..n]), With(kept, gained[..n]), live, gained[n].0);
    }
  }

  ghost function With(live: Live, gained: seq<(Entity, GlobalId)>): Live {
    if gained == [] then live
    else With(live, gained[..|gained| - 1])[gained[|gained| - 1].0 := gained[|gained| - 1].1]
  }

  lemma {:induction false} WithAgrees(kept: Live, live: Live, gained: seq<(Entity, GlobalId)>)
    requires forall e :: e in kept ==> e in live && live[e] == kept[e]
    requires forall i :: 0 <= i < |gained| ==> gained[i].0 in live && gained[i].1 == live[gained[i].0]
    ensures forall e :: e in With(kept, gained) ==> e in live && live[e] == With(kept, gained)[e]
    ensures forall e :: e in kept ==> e in With(kept, gained)
    ensures forall i :: 0 <= i < |gained| ==> gained[i].0 in With(kept, gained)
    ensures forall e :: e in With(kept, gained) ==> e in kept || exists i :: 0 <= i < |gained| && gained[i].0 == e
  {
    if gained != [] {
      var n := |gained| - 1;
      WithAgrees(kept, live, gained[..n]);
      forall e | e in With(kept, gained) && e !in kept
        ensures exists i :: 0 <= i < |gained| && gained[i].0 == e
      {
        if e in With(kept, gained[..n]) {
          var i :| 0 <= i < n && gained[..n][i].0 == e;
          assert gained[i].0 == e;
        } else {
          assert gained[n].0 == e;
        }
      }
      forall i | 0 <= i < |gained| ensures gained[i].0 in With(kept, gained) {
        assert i < n ==> gained[..n][i] == gained[i];
      }
    }
  }

  lemma AssignmentMirrors(ix: Index, kept: Live, live: Live, e: Entity)
    requires Mirrors(ix, kept) && Distinct(live) && e in live
    requires forall x :: x in kept ==> x in live && live[x] == kept[x]
    ensures Mirrors(Assigned(ix, e, live[e]), kept[e := live[e]])
  {
    var id, after := live[e], Assigned(ix, e, live[e]);
    if id in ix.apiToBevy {
      assert ix.Resolve(id) == Some(ix.apiToBevy[id]);
      assert ix.apiToBevy[id] == e;
    }
    assert after.bevyToApi == kept[e := id];
    forall i, x ensures after.Resolve(i) == Some(x) <==> x in kept[e := id] && kept[e := id][x] == i {
      assert ix.Resolve(i) == Some(x) <==> x in kept && kept[x] == i;
    }
  }

  /** One sync: if the index mirrored the world after the last sync, and live ids are distinct now, it
      mirrors the world again exactly when ids changed only by being lost and gained, whatever else
      happened in between and in whatever order additions are listed. */
  lemma SyncMirrorsIff(ix: Index, live: Live, changes: seq<Change>, gained: seq<(Entity, GlobalId)>)
    requires Mirrors(ix, live) && AllLegal(live, changes)
    requires var now := LiveAfter(live, changes); Distinct(now) && ListsGained(gained, now, changes)
    ensures Mirrors(Synced(ix, LostIn(changes), gained), LiveAfter(live, changes)) <==> KeepsIds(live, changes)
  {
    if KeepsIds(live, changes) {
      SyncMirrors(ix, live, changes, gained);
    } else {
      var e :| e in live && e !in LostIn(changes) && e in LiveAfter(live, changes) && LiveAfter(live, changes)[e] != live[e];
      OverwrittenStaysStale(ix, live, changes, gained, e);
    }
  }

  lemma SyncMirrors(ix: Index, live: Live, changes: seq<Change>, gained: seq<(Entity, GlobalId)>)
    requires Mirrors(ix, live) && AllLegal(live, changes) && KeepsIds(live, changes)
    requires var now := LiveAfter(live, changes); Distinct(now) && ListsGained(gained, now, changes)
    ensures Mirrors(Synced(ix, LostIn(changes), gained), LiveAfter(live, changes))
  {
    hide Mirrors, AllRemoved, AllAssigned, LiveAfter, LostIn, GainedIn, AllLegal, Distinct, With;
    var now, lost := LiveAfter(live, changes), LostIn(changes);
    var kept := Without(live, lost);
    forall e ensures
        && (e in kept ==> e in now && now[e] == kept[e])
        && (e in now ==> e in kept || e in GainedIn(changes)) {
      ChangesSplit(live, changes, e);
    }
    RemovalsMirror(ix, live, lost);
    AssignmentsMirror(AllRemoved(ix, lost), kept, now, gained);
    WithAgrees(kept, now, gained);
    forall e | e in now ensures e in With(kept, gained) {
      if e !in kept {
        assert (e, now[e]) in gained;
        var i :| 0 <= i < |gained| && gained[i] == (e, now[e]);
        assert gained[i].0 in With(kept, gained);
      }
    }
    assert With(kept, gained) == now;
  }

  /** No assignment of another entity, under an id of its own, touches what an entity is called. */
  lemma {:induction false} UnlistedKeepsItsName(ix: Index, gained: seq<(Entity, GlobalId)>, e: Entity)
    requires forall i :: 0 <= i < |gained| ==> gained[i].0 != e
    ensures e in AllAssigned(ix, gained).bevyToApi ==> e in ix.bevyToApi && AllAssigned(ix, gained).bevyToApi[e] == ix.bevyToApi[e]
  {
    if gained != [] {
      UnlistedKeepsItsName(ix, gained[..|gained| - 1], e);
    }
  }

  /** An id that was overwritten in place is not in the index after the sync. */
  lemma OverwrittenStaysStale(ix: Index, live: Live, changes: seq<Change>, gained: seq<(Entity, GlobalId)>, e: Entity)
    requires Mirrors(ix, live) && AllLegal(live, changes) && e in live && e !in LostIn(changes)
    requires var now := LiveAfter(live, changes); ListsGained(gained, now, changes) && e in now && now[e] != live[e]
    ensures !Mirrors(Synced(ix, LostIn(changes), gained), LiveAfter(live, changes))
  {
    hide AllRemoved, AllAssigned, LiveAfter, LostIn, GainedIn, AllLegal;
    var lost := LostIn(changes);
    ChangesSplit(live, changes, e);
    RemovalsMirror(ix, live, lost);
    UnlistedKeepsItsName(AllRemoved(ix, lost), gained, e);
    assert Without(live, lost)[e] == live[e];
  }

  /** The index is its own inverse: an id resolves to an entity exactly when the entity goes by it. */
  ghost predicate Inverse(ix: Index) {
    forall id: GlobalId, e: Entity :: ix.Resolve(id) == Some(e) <==> ix.ApiIdFor(e) == Some(id)
  }

  /** One assignment to a mirror keeps the two maps inverse exactly when the entity had no other id: one that
      did would answer to both. */
  lemma AssignKeepsInverseIff(ix: Index, live: Live, e: Entity, id: GlobalId)
    requires Mirrors(ix, live)
    ensures Inverse(Assigned(ix, e, id)) <==> (e in live ==> live[e] == id)
  {
    var after := Assigned(ix, e, id);
    if e in live && live[e] != id {
      assert ix.Resolve(live[e]) == Some(e);
      assert after.Resolve(live[e]) == Some(e) && after.ApiIdFor(e) == Some(id);
    } else {
      forall i: GlobalId, x: Entity ensures after.Resolve(i) == Some(x) <==> after.ApiIdFor(x) == Some(i) {
        assert ix.Resolve(i) == Some(x) <==> x in live && live[x] == i;
        assert ix.Resolve(id) == Some(x) <==> x in live && live[x] == id;
      }
    }
  }

  // ----- Whole histories -----

  datatype Frame = Frame(changes: seq<Change>, gained: seq<(Entity, GlobalId)>)

  ghost function LiveAt(frames: seq<Frame>): Live {
    if frames == [] then map[] else LiveAfter(LiveAt(frames[..|frames| - 1]), frames[|frames| - 1].changes)
  }

  ghost function IndexAt(frames: seq<Frame>): Index {
    if frames == [] then EMPTY
    else
      var last := frames[|frames| - 1];
      Synced(IndexAt(frames[..|frames| - 1]), LostIn(last.changes), last.gained)
  }

  ghost predicate Possible(frames: seq<Frame>) {
    frames == [] ||
    var before, last := frames[..|frames| - 1], frames[|frames| - 1];
    && Possible(before)
    && AllLegal(LiveAt(before), last.changes)
    && Distinct(LiveAt(frames))
    && ListsGained(last.gained, LiveAt(frames), last.changes)
  }

  /** Ids changed only by being lost and gained, in every frame. */
  ghost predicate AllKeepIds(frames: seq<Frame>) {
    frames == [] ||
    var before := frames[..|frames| - 1];
    AllKeepIds(before) && KeepsIds(LiveAt(before), frames[|frames| - 1].changes)
  }

  /** The index mirrored the world after every sync so far. */
  ghost predicate AllMirrored(frames: seq<Frame>) {
    Mirrors(IndexAt(frames), LiveAt(frames)) && (frames == [] || AllMirrored(frames[..|frames| - 1]))
  }

  /** For every history of spawns, despawns, reloads and overwrites in which live ids are distinct: after
      every sync an id resolves to an entity exactly when that entity is live under it, if and only if ids
      are changed only by being lost and gained. */
  lemma {:induction false} EverySyncMirrorsIff(frames: seq<Frame>)
    requires Possible(frames)
    ensures AllMirrored(frames) <==> AllKeepIds(frames)
  {
    hide Mirrors, KeepsIds, Synced, LiveAfter, AllLegal, Distinct, ListsGained;
    if frames == [] {
      NothingMirrorsNothing();
    } else {
      var before, last := frames[..|frames| - 1], frames[|frames| - 1];
      EverySyncMirrorsIff(before);
      if AllMirrored(before) {
        SyncMirrorsIff(IndexAt(before), LiveAt(before), last.changes, last.gained);
      }
    }
  }

  lemma NothingMirrorsNothing()
    ensures Mirrors(EMPTY, map[])
  {
  }
}
