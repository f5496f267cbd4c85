/** The statements of the store, column by column: when each succeeds, what the row written holds, and that
    no other row changes. */
module Columns {
  import opened Types
  import opened Ordering
  import opened Tables

  /** What Valid promises of every row: the schema's keys, CHECK clauses and foreign keys. */
  lemma RowConstraints(t: Tables)
    requires t.Valid()
    ensures forall i :: i in t.entities ==>
              t.entities[i].id == i && 0 < i < t.nextId
              && t.entities[i].kind in {Person, Organization, Place, Concept, ObjectType, Agent}
    ensures forall i :: i in t.memories ==>
              && t.memories[i].id == i && 0 < i < t.nextId && t.memories[i].entityId in t.entities
              && t.memories[i].category in {Preference, Fact, RelationshipFact, Event, Instruction}
              && 0.0 <= t.memories[i].confidence <= 1.0
              && (t.memories[i].sourceId.Some? ==> t.memories[i].sourceId.value in t.sources)
    ensures forall i :: i in t.relationships ==>
              && t.relationships[i].id == i && 0 < i < t.nextId
              && t.relationships[i].from in t.entities && t.relationships[i].to in t.entities
    ensures forall i :: i in t.sources ==>
              && t.sources[i].id == i && 0 < i < t.nextId
              && (t.sources[i].subjectId.Some? ==> t.sources[i].subjectId.value in t.entities)
  {
    assert forall i | i in t.entities :: t.ValidEntity(i);
    assert forall i | i in t.memories :: t.ValidMemory(i);
    assert forall i | i in t.relationships :: t.ValidRelationship(i);
    assert forall i | i in t.sources :: t.ValidSource(i);
  }

  /** And of pairs of rows: UNIQUE (external_id) and UNIQUE (from, to, type). */
  lemma UniqueConstraints(t: Tables)
    requires t.Valid()
    ensures forall i, j | i in t.entities && j in t.entities && t.entities[i].externalId.Some?
                          && t.entities[i].externalId == t.entities[j].externalId :: i == j
    ensures forall i, j | i in t.relationships && j in t.relationships
                          && t.relationships[i].from == t.relationships[j].from
                          && t.relationships[i].to == t.relationships[j].to
                          && t.relationships[i].kind == t.relationships[j].kind :: i == j
  {
    forall i, j | i in t.entities && j in t.entities && t.entities[i].externalId.Some?
                  && t.entities[i].externalId == t.entities[j].externalId
      ensures i == j
    {
      assert SharesExternalId(t.entities[i], t.entities[j]);
    }
    forall i, j | i in t.relationships && j in t.relationships
                  && t.relationships[i].from == t.relationships[j].from
                  && t.relationships[i].to == t.relationships[j].to
                  && t.relationships[i].kind == t.relationships[j].kind
      ensures i == j
    {
      assert SameTriple(t.relationships[i], t.relationships[j]);
    }
  }

  /** No other entity carries the external identifier. */
  predicate ExternalIdFree(t: Tables, externalId: Option<string>, id: Id) {
    externalId.Some? ==> forall i :: i in t.entities && t.entities[i].externalId == externalId ==> i == id
  }

  // ---- entities ----

  lemma EntityInserted(t: Tables, p: CreateEntityParams)
    requires t.Valid()
    ensures var r := CreateEntity(t, p);
            && (r.Ok? <==> && p.kind in {Person, Organization, Place, Concept, ObjectType, Agent}
                           && ExternalIdFree(t, p.externalId, t.nextId))
            && (r.Err? ==> r.error.StoreFailure?)
            && (r.Ok? ==>
                  var e, t' := r.value.row, r.value.tables;
                  && e.id == t.nextId && e.name == p.name && e.kind == p.kind && e.externalId == p.externalId
                  && e.metadata == p.metadata && e.createdAt == e.updatedAt == t.now
                  && t' == t.(entities := t'.entities, nextId := t.nextId + 1)
                  && t.nextId !in t.entities && t'.entities == t.entities[t.nextId := e])
  {
    FreshId(t);
  }

  /** A patched column has the patch's value, a cleared external identifier is gone, and every other column keeps
      its value; clearing wins over setting where the backend accepts both. */
  ghost predicate EntityColumns(e: Entity, p: EntityPatch, e': Entity) {
    && e'.id == e.id && e'.createdAt == e.createdAt
    && (p.name.Some? ==> e'.name == p.name.value) && (p.name.None? ==> e'.name == e.name)
    && (p.kind.Some? ==> e'.kind == p.kind.value) && (p.kind.None? ==> e'.kind == e.kind)
    && (p.clearExternalId ==> e'.externalId == None)
    && (!p.clearExternalId && p.externalId.Some? ==> e'.externalId == p.externalId)
    && (!p.clearExternalId && p.externalId.None? ==> e'.externalId == e.externalId)
    && (p.metadata.Some? ==> e'.metadata == p.metadata.value) && (p.metadata.None? ==> e'.metadata == e.metadata)
  }

  predicate NothingToSet(p: EntityPatch) {
    p == EntityPatch(None, None, None, false, None)
  }

  lemma EntityPatched(t: Tables, id: Id, p: EntityPatch)
    requires t.Valid()
    ensures var r, both := UpdateEntity(t, id, p), p.externalId.Some? && p.clearExternalId;
            && (r.Ok? <==>
                  && id in t.entities && (t.sqlite || !both)
                  && (p.kind.Some? ==> p.kind.value in {Person, Organization, Place, Concept, ObjectType, Agent})
                  && (p.externalId.Some? && !p.clearExternalId ==> ExternalIdFree(t, p.externalId, id)))
            && (r.Err? && id !in t.entities && (t.sqlite || !both) ==> r.error.NotFound?)
            && (r.Err? && (id in t.entities || (both && !t.sqlite)) ==> r.error.StoreFailure?)
            && (r.Ok? ==>
                  var e, t' := r.value.row, r.value.tables;
                  && EntityColumns(t.entities[id], p, e)
                  && e.updatedAt == (if NothingToSet(p) then t.entities[id].updatedAt else t.now)
                  && t' == t.(entities := t'.entities) && t'.entities == t.entities[id := e])
  {
    hide ExternalIdTaken, PatchedEntity, EntityColumns;
    ExternalIdsTaken(t, id, p);
    if id in t.entities {
      PatchColumns(t, id, p);
    }
  }

  lemma PatchColumns(t: Tables, id: Id, p: EntityPatch)
    requires t.Valid() && id in t.entities
    ensures EntityColumns(t.entities[id], p, PatchedEntity(t.entities[id], p, t.now))
    ensures NothingToSet(p) ==> EntityColumns(t.entities[id], p, t.entities[id])
    ensures PatchedEntity(t.entities[id], p, t.now).updatedAt == t.now
    ensures t.entities[id := t.entities[id]] == t.entities && StoredType(t.entities[id].kind)
    ensures var kind := PatchedEntity(t.entities[id], p, t.now).kind;
            kind == if p.kind.Some? then p.kind.value else t.entities[id].kind
  {
    assert t.ValidEntity(id);
  }

  lemma ExternalIdsTaken(t: Tables, id: Id, p: EntityPatch)
    requires t.Valid()
    ensures id in t.entities ==>
              (ExternalIdTaken(t, PatchedEntity(t.entities[id], p, t.now).externalId, id)
               <==> p.externalId.Some? && !p.clearExternalId && !ExternalIdFree(t, p.externalId, id))
  {
    UniqueConstraints(t);
    hide Tables.Valid;
  }

  /** Deleting an entity takes its memories and its relationships along, clears it as an audit subject, and leaves
      everything else. */
  lemma EntityDeleted(t: Tables, id: Id)
    ensures var r := DeleteEntity(t, id);
            && (r.Ok? <==> id in t.entities) && (r.Err? ==> r.error.NotFound?)
            && (r.Ok? ==>
                  var t' := r.value;
                  && t'.sqlite == t.sqlite && t'.nextId == t.nextId && t'.now == t.now
                  && t'.entities == (map i | i in t.entities && i != id :: t.entities[i])
                  && t'.memories == (map i | i in t.memories && t.memories[i].entityId != id :: t.memories[i])
                  && t'.relationships == (map i | i in t.relationships && t.relationships[i].from != id
                                                  && t.relationships[i].to != id :: t.relationships[i])
                  && t'.sources.Keys == t.sources.Keys
                  && forall i :: i in t.sources ==>
                       t'.sources[i] == t.sources[i].(subjectId := if t.sources[i].subjectId == Some(id) then None
                                                                   else t.sources[i].subjectId))
  {
  }

  // ---- memories ----

  lemma MemoryInserted(t: Tables, p: CreateMemoryParams)
    requires t.Valid()
    ensures var r := CreateMemory(t, p);
            && (r.Ok? <==> && p.entityId in t.entities
                           && p.category in {Preference, Fact, RelationshipFact, Event, Instruction}
                           && 0.0 <= p.confidence <= 1.0 && (p.sourceId.Some? ==> p.sourceId.value in t.sources))
            && (r.Err? ==> r.error.StoreFailure?)
            && (r.Ok? ==>
                  var m, t' := r.value.row, r.value.tables;
                  && m.id == t.nextId && m.entityId == p.entityId && m.content == p.content
                  && m.category == p.category && m.confidence == p.confidence && m.sourceId == p.sourceId
                  && m.expiresAt == p.expiresAt && m.metadata == p.metadata && m.createdAt == m.updatedAt == t.now
                  && t' == t.(memories := t'.memories, nextId := t.nextId + 1)
                  && t.nextId !in t.memories && t'.memories == t.memories[t.nextId := m])
  {
    FreshId(t);
  }

  ghost predicate MemoryColumns(m: Memory, p: MemoryPatch, m': Memory) {
    && m'.id == m.id && m'.entityId == m.entityId && m'.category == m.category && m'.createdAt == m.createdAt
    && (p.content.Some? ==> m'.content == p.content.value) && (p.content.None? ==> m'.content == m.content)
    && (p.confidence.Some? ==> m'.confidence == p.confidence.value)
    && (p.confidence.None? ==> m'.confidence == m.confidence)
    && (p.clearExpiresAt ==> m'.expiresAt == None)
    && (!p.clearExpiresAt && p.expiresAt.Some? ==> m'.expiresAt == p.expiresAt)
    && (!p.clearExpiresAt && p.expiresAt.None? ==> m'.expiresAt == m.expiresAt)
    && (p.metadata.Some? ==> m'.metadata == p.metadata.value) && (p.metadata.None? ==> m'.metadata == m.metadata)
    && (p.clearSourceId ==> m'.sourceId == None)
    && (!p.clearSourceId && p.sourceId.Some? ==> m'.sourceId == p.sourceId)
    && (!p.clearSourceId && p.sourceId.None? ==> m'.sourceId == m.sourceId)
  }

  lemma MemoryPatched(t: Tables, id: Id, p: MemoryPatch)
    requires t.Valid()
    ensures var r := UpdateMemory(t, id, p);
            var both := (p.expiresAt.Some? && p.clearExpiresAt) || (p.sourceId.Some? && p.clearSourceId);
            && (r.Ok? <==>
                  && id in t.memories && (t.sqlite || !both)
                  && (p.confidence.Some? ==> 0.0 <= p.confidence.value <= 1.0)
                  && (p.sourceId.Some? && !p.clearSourceId ==> p.sourceId.value in t.sources))
            && (r.Err? && id !in t.memories && (t.sqlite || !both) ==> r.error.NotFound?)
            && (r.Err? && (id in t.memories || (both && !t.sqlite)) ==> r.error.StoreFailure?)
            && (r.Ok? ==>
                  var m, t' := r.value.row, r.value.tables;
                  && MemoryColumns(t.memories[id], p, m)
                  && m.updatedAt == (if p == MemoryPatch(None, None, None, false, None, None, false)
                                     then t.memories[id].updatedAt else t.now)
                  && t' == t.(memories := t'.memories) && t'.memories == t.memories[id := m])
  {
    hide Patched, MemoryColumns;
    if id in t.memories {
      MemoryPatchColumns(t, id, p);
    }
    hide Tables.Valid;
  }

  lemma MemoryPatchColumns(t: Tables, id: Id, p: MemoryPatch)
    requires t.Valid() && id in t.memories
    ensures var m, m' := t.memories[id], Patched(t.memories[id], p, t.now);
            && MemoryColumns(m, p, m') && m'.updatedAt == t.now
            && (p == MemoryPatch(None, None, None, false, None, None, false) ==> MemoryColumns(m, p, m))
            && t.memories[id := m] == t.memories
            && (UnitInterval(m'.confidence) <==> (p.confidence.Some? ==> 0.0 <= p.confidence.value <= 1.0))
            && (SourceResolves(t, m'.sourceId)
                <==> (p.sourceId.Some? && !p.clearSourceId ==> p.sourceId.value in t.sources))
  {
    assert t.ValidMemory(id);
  }

  lemma MemoryDeleted(t: Tables, id: Id)
    ensures var r := DeleteMemory(t, id);
            && (r.Ok? <==> id in t.memories) && (r.Err? ==> r.error.NotFound?)
            && (r.Ok? ==> r.value == t.(memories := map i | i in t.memories && i != id :: t.memories[i]))
  {
    assert t.memories - {id} == map i | i in t.memories && i != id :: t.memories[i];
  }

  // ---- relationships and the audit log ----

  lemma RelationshipInserted(t: Tables, p: CreateRelationshipParams)
    requires t.Valid()
    ensures var w := CreateRelationship(t, p);
            && (w.Ok? <==>
                  && p.from in t.entities && p.to in t.entities
                  && forall i | i in t.relationships ::
                       !(t.relationships[i].from == p.from && t.relationships[i].to == p.to
                         && t.relationships[i].kind == p.kind))
            && (w.Err? ==> w.error.StoreFailure?)
            && (w.Ok? ==>
                  var r, t' := w.value.row, w.value.tables;
                  && r.id == t.nextId && r.from == p.from && r.to == p.to && r.kind == p.kind && r.weight == p.weight
                  && r.metadata == p.metadata && r.createdAt == t.now
                  && t' == t.(relationships := t'.relationships, nextId := t.nextId + 1)
                  && t.nextId !in t.relationships && t'.relationships == t.relationships[t.nextId := r])
  {
    FreshId(t);
  }

  lemma RelationshipDeleted(t: Tables, id: Id)
    ensures var r := DeleteRelationship(t, id);
            && (r.Ok? <==> id in t.relationships) && (r.Err? ==> r.error.NotFound?)
            && (r.Ok? ==>
                  r.value == t.(relationships := map i | i in t.relationships && i != id :: t.relationships[i]))
  {
    assert t.relationships - {id} == map i | i in t.relationships && i != id :: t.relationships[i];
  }

  lemma SourceInserted(t: Tables, rawText: string, subjectId: Option<Id>, model: string, actions: seq<Action>)
    requires t.Valid()
    ensures var w := CreateIngestSource(t, rawText, subjectId, model, actions);
            && (w.Ok? <==> (subjectId.Some? ==> subjectId.value in t.entities))
            && (w.Err? ==> w.error.StoreFailure?)
            && (w.Ok? ==>
                  var s, t' := w.value.row, w.value.tables;
                  && s.id == t.nextId && s.rawText == rawText && s.subjectId == subjectId && s.model == model
                  && s.actions == actions && s.createdAt == t.now
                  && t' == t.(sources := t'.sources, nextId := t.nextId + 1)
                  && t.nextId !in t.sources && t'.sources == t.sources[t.nextId := s])
  {
    FreshId(t);
  }

  /** A read answers the stored row, or that there is none. */
  lemma RowsRead(t: Tables, id: Id)
    ensures id in t.entities ==> GetEntity(t, id) == Ok(t.entities[id])
    ensures id !in t.entities ==> GetEntity(t, id).Err? && GetEntity(t, id).error.NotFound?
    ensures id in t.memories ==> GetMemory(t, id) == Ok(t.memories[id])
    ensures id !in t.memories ==> GetMemory(t, id).Err? && GetMemory(t, id).error.NotFound?
    ensures id in t.relationships ==> GetRelationship(t, id) == Ok(t.relationships[id])
    ensures id !in t.relationships ==> GetRelationship(t, id).Err? && GetRelationship(t, id).error.NotFound?
  {
  }

  // ---- the order of listings ----

  /** Memories are listed from the most recently updated to the least, rows of one time by identifier. */
  ghost predicate NewestFirst(l: seq<Memory>) {
    forall i, j :: 0 <= i < j < |l| ==> && l[i].updatedAt >= l[j].updatedAt
                                        && (l[i].updatedAt == l[j].updatedAt ==> l[i].id <= l[j].id)
  }

  ghost predicate NewestEdgesFirst(l: seq<Relationship>) {
    forall i, j :: 0 <= i < j < |l| ==> && l[i].createdAt >= l[j].createdAt
                                        && (l[i].createdAt == l[j].createdAt ==> l[i].id <= l[j].id)
  }

  lemma SelectedNewest(memories: map<Id, Memory>, ids: set<Id>)
    requires Keyed(memories, MemoryRow, ids)
    ensures NewestFirst(Select(memories, MemoryRow, ids))
  {
    hide Select;
    SelectSorted(memories, MemoryRow, ids);
  }

  lemma SelectedEdges(relationships: map<Id, Relationship>, ids: set<Id>)
    requires Keyed(relationships, RelationshipRow, ids)
    ensures NewestEdgesFirst(Select(relationships, RelationshipRow, ids))
  {
    hide Select;
    SelectSorted(relationships, RelationshipRow, ids);
  }

  lemma MemoryListings(t: Tables, entityId: Id, category: Category) returns (all: set<Id>, active: set<Id>)
    requires t.Valid()
    ensures Keyed(t.memories, MemoryRow, all) && Keyed(t.memories, MemoryRow, active)
    ensures MemoriesOf(t, entityId) == Select(t.memories, MemoryRow, all)
    ensures ActiveMemories(t, entityId, category) == Select(t.memories, MemoryRow, active)
  {
    hide Select;
    RowsKeyed(t);
    all := set i | i in t.memories && t.memories[i].entityId == entityId;
    active := set i | i in t.memories && ActiveIn(t.memories[i], entityId, category, t.now);
  }

  lemma MemoriesInOrder(t: Tables, entityId: Id, category: Category)
    requires t.Valid()
    ensures NewestFirst(MemoriesOf(t, entityId)) && NewestFirst(ActiveMemories(t, entityId, category))
  {
    hide *;
    var all, active := MemoryListings(t, entityId, category);
    SelectedNewest(t.memories, all);
    SelectedNewest(t.memories, active);
  }

  lemma EdgeListings(t: Tables, id: Id) returns (out: set<Id>, incident: set<Id>)
    requires t.Valid()
    ensures Keyed(t.relationships, RelationshipRow, out) && Keyed(t.relationships, RelationshipRow, incident)
    ensures Outgoing(t, id) == Select(t.relationships, RelationshipRow, out)
    ensures Incident(t, id) == Select(t.relationships, RelationshipRow, incident)
  {
    hide Select;
    RowsKeyed(t);
    out := set i | i in t.relationships && t.relationships[i].from == id;
    incident := set i | i in t.relationships && Touches(t.relationships[i], id);
  }

  lemma EdgesInOrder(t: Tables, id: Id)
    requires t.Valid()
    ensures NewestEdgesFirst(Outgoing(t, id)) && NewestEdgesFirst(Incident(t, id))
  {
    hide *;
    var out, incident := EdgeListings(t, id);
    SelectedEdges(t.relationships, out);
    SelectedEdges(t.relationships, incident);
  }

  /** A memory counts for decisions until the clock reaches its expiry, and in its own category only. */
  lemma ActiveUntilExpiry(t: Tables, entityId: Id, category: Category, m: Memory)
    requires t.Valid()
    ensures m in ActiveMemories(t, entityId, category)
            <==> && m.id in t.memories && t.memories[m.id] == m && m.entityId == entityId && m.category == category
                 && (m.expiresAt.None? || t.now < m.expiresAt.value)
  {
  }

  lemma IncidentEnds(t: Tables, id: Id, r: Relationship)
    requires t.Valid()
    ensures r in Incident(t, id)
            <==> r.id in t.relationships && t.relationships[r.id] == r && (r.from == id || r.to == id)
    ensures r in Outgoing(t, id) <==> r.id in t.relationships && t.relationships[r.id] == r && r.from == id
  {
  }
}
