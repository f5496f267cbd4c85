/** The store: three tables and the ingest audit log, with their keys, CHECK and UNIQUE
    constraints and ON DELETE rules.  Each function is the effect of one SQL statement (plus the
    read-back that follows a write); a failed statement leaves the tables as they were. */
module Tables {
  import opened Types
  import opened Ordering

  datatype Tables = Tables(
    sqlite: bool,                     // the backend; false for postgres and age
    entities: map<Id, Entity>,
    memories: map<Id, Memory>,
    relationships: map<Id, Relationship>,
    sources: map<Id, IngestSource>,
    nextId: Id,                       // every identifier in use is below it
    now: nat)                         // the database clock
  {
    /** Primary keys, foreign keys, CHECK and UNIQUE constraints. */
    ghost predicate Valid() {
      && 0 < nextId
      && (forall i :: i in entities ==> ValidEntity(i))
      && (forall i :: i in memories ==> ValidMemory(i))
      && (forall i :: i in relationships ==> ValidRelationship(i))
      && (forall i :: i in sources ==> ValidSource(i))
      && UniqueTriples(relationships)
      && UniqueExternalIds(entities)
    }

    predicate ValidEntity(i: Id)
      requires i in entities
    {
      entities[i].id == i && 0 < i < nextId && StoredType(entities[i].kind)
    }

    predicate ValidMemory(i: Id)
      requires i in memories
    {
      var m := memories[i];
      && m.id == i && 0 < i < nextId && m.entityId in entities
      && StoredCategory(m.category) && UnitInterval(m.confidence)
      && (m.sourceId.Some? ==> m.sourceId.value in sources)
    }

    predicate ValidRelationship(i: Id)
      requires i in relationships
    {
      var r := relationships[i];
      r.id == i && 0 < i < nextId && r.from in entities && r.to in entities
    }

    predicate ValidSource(i: Id)
      requires i in sources
    {
      var s := sources[i];
      s.id == i && 0 < i < nextId && (s.subjectId.Some? ==> s.subjectId.value in entities)
    }
  }

  /** The columns of UNIQUE (from_entity_id, to_entity_id, type). */
  predicate SameTriple(a: Relationship, b: Relationship) {
    a.from == b.from && a.to == b.to && a.kind == b.kind
  }

  predicate SharesExternalId(a: Entity, b: Entity) {
    a.externalId.Some? && a.externalId == b.externalId
  }

  ghost predicate UniqueTriples(m: map<Id, Relationship>) {
    forall i, j | i in m && j in m && SameTriple(m[i], m[j]) :: i == j
  }

  ghost predicate UniqueExternalIds(m: map<Id, Entity>) {
    forall i, j | i in m && j in m && SharesExternalId(m[i], m[j]) :: i == j
  }

  /** Every row is stored under its own identifier. */
  lemma RowsKeyed(t: Tables)
    requires t.Valid()
    ensures forall i :: i in t.entities ==> t.entities[i].id == i
    ensures forall i :: i in t.memories ==> t.memories[i].id == i
    ensures forall i :: i in t.relationships ==> t.relationships[i].id == i
  {
    assert forall i | i in t.entities :: t.ValidEntity(i);
    assert forall i | i in t.memories :: t.ValidMemory(i);
    assert forall i | i in t.relationships :: t.ValidRelationship(i);
  }

  /** The next identifier is not in use. */
  lemma FreshId(t: Tables)
    requires t.Valid()
    ensures t.nextId !in t.entities && t.nextId !in t.memories && t.nextId !in t.relationships && t.nextId !in t.sources
  {
  }

  /** A successful write: the new tables and the row read back. */
  datatype Wrote<+T> = Wrote(tables: Tables, row: T)

  // ---- entities ----

  function GetEntity(t: Tables, id: Id): Result<Entity> {
    if id in t.entities then Ok(t.entities[id]) else Err(NotFound("entity not found"))
  }

  predicate ExternalIdTaken(t: Tables, externalId: Option<string>, except: Id) {
    externalId.Some? && exists i :: i in t.entities && i != except && t.entities[i].externalId == externalId
  }

  function CreateEntity(t: Tables, p: CreateEntityParams): (r: Result<Wrote<Entity>>)
    ensures t.Valid() && r.Ok? ==> r.value.tables.Valid()
  {
    if !StoredType(p.kind) || ExternalIdTaken(t, p.externalId, t.nextId) then Err(StoreFailure("create entity"))
    else
      var e := Entity(t.nextId, p.name, p.kind, p.externalId, p.metadata, t.now, t.now);
      Ok(Wrote(t.(entities := t.entities[t.nextId := e], nextId := t.nextId + 1), e))
  }

  predicate EmptyEntityPatch(p: EntityPatch) {
    p.name.None? && p.kind.None? && p.externalId.None? && !p.clearExternalId && p.metadata.None?
  }

  function PatchedEntity(e: Entity, p: EntityPatch, now: nat): Entity {
    e.(name := if p.name.Some? then p.name.value else e.name,
       kind := if p.kind.Some? then p.kind.value else e.kind,
       externalId := if p.clearExternalId then None else if p.externalId.Some? then p.externalId else e.externalId,
       metadata := if p.metadata.Some? then p.metadata.value else e.metadata,
       updatedAt := now)
  }

  /** References to entities depend only on which entities there are. */
  lemma ReferencesKept(t: Tables, t': Tables)
    requires t.Valid() && t' == t.(entities := t'.entities) && t.entities.Keys == t'.entities.Keys
    ensures forall i :: i in t'.memories ==> t'.ValidMemory(i)
    ensures forall i :: i in t'.relationships ==> t'.ValidRelationship(i)
    ensures forall i :: i in t'.sources ==> t'.ValidSource(i)
  {
    assert forall i | i in t.memories :: t.ValidMemory(i) && t'.ValidMemory(i);
    assert forall i | i in t.relationships :: t.ValidRelationship(i) && t'.ValidRelationship(i);
    assert forall i | i in t.sources :: t.ValidSource(i) && t'.ValidSource(i);
  }

  lemma ExternalIdsKept(m: map<Id, Entity>, id: Id, e: Entity)
    requires UniqueExternalIds(m) && forall i :: i in m && i != id ==> !SharesExternalId(e, m[i])
    ensures UniqueExternalIds(m[id := e])
  {
  }

  lemma EntityRewritten(t: Tables, id: Id, e: Entity)
    requires t.Valid() && id in t.entities && e.id == id && StoredType(e.kind) && !ExternalIdTaken(t, e.externalId, id)
    ensures t.(entities := t.entities[id := e]).Valid()
  {
    var t' := t.(entities := t.entities[id := e]);
    assert t.ValidEntity(id);
    ReferencesKept(t, t');
    ExternalIdsKept(t.entities, id, e);
  }

  function UpdateEntity(t: Tables, id: Id, p: EntityPatch): (r: Result<Wrote<Entity>>)
    ensures t.Valid() && r.Ok? ==> r.value.tables.Valid()
  {
    if EmptyEntityPatch(p) then
      var e :- GetEntity(t, id);
      Ok(Wrote(t, e))
    else if !t.sqlite && p.externalId.Some? && p.clearExternalId then Err(StoreFailure("update entity"))
    else if id !in t.entities then Err(NotFound("entity not found"))
    else
      var e := PatchedEntity(t.entities[id], p, t.now);
      if !StoredType(e.kind) || ExternalIdTaken(t, e.externalId, id) then Err(StoreFailure("update entity"))
      else
        assert t.Valid() ==> t.(entities := t.entities[id := e]).Valid() by {
          if t.Valid() {
            assert t.ValidEntity(id);
            EntityRewritten(t, id, e);
          }
        }
        Ok(Wrote(t.(entities := t.entities[id := e]), e))
  }

  /** Deleting an entity cascades to its memories and relationships and clears audit subjects. */
  function WithoutEntity(t: Tables, id: Id): Tables {
    t.(entities := t.entities - {id},
       memories := map i | i in t.memories && t.memories[i].entityId != id :: t.memories[i],
       relationships := map i | i in t.relationships && !Touches(t.relationships[i], id) :: t.relationships[i],
       sources := map i | i in t.sources :: ClearSubject(t.sources[i], id))
  }

  predicate Touches(r: Relationship, id: Id) {
    r.from == id || r.to == id
  }

  function ClearSubject(s: IngestSource, id: Id): IngestSource {
    if s.subjectId == Some(id) then s.(subjectId := None) else s
  }

  lemma MemoriesCascade(t: Tables, id: Id, i: Id)
    requires t.Valid() && i in WithoutEntity(t, id).memories
    ensures WithoutEntity(t, id).ValidMemory(i)
  {
    assert t.ValidMemory(i);
  }

  lemma RelationshipsCascade(t: Tables, id: Id, i: Id)
    requires t.Valid() && i in WithoutEntity(t, id).relationships
    ensures WithoutEntity(t, id).ValidRelationship(i)
  {
    assert t.ValidRelationship(i);
  }

  lemma SourcesCleared(t: Tables, id: Id, i: Id)
    requires t.Valid() && i in WithoutEntity(t, id).sources
    ensures WithoutEntity(t, id).ValidSource(i)
  {
    assert t.ValidSource(i);
  }

  lemma KeysStayUnique(t: Tables, id: Id)
    requires t.Valid()
    ensures UniqueExternalIds(WithoutEntity(t, id).entities) && UniqueTriples(WithoutEntity(t, id).relationships)
    ensures forall i :: i in WithoutEntity(t, id).entities ==> WithoutEntity(t, id).ValidEntity(i)
  {
    assert forall i | i in WithoutEntity(t, id).entities :: t.ValidEntity(i);
  }

  lemma WithoutEntityValid(t: Tables, id: Id)
    requires t.Valid()
    ensures WithoutEntity(t, id).Valid()
  {
    var t' := WithoutEntity(t, id);
    assert t'.nextId == t.nextId;
    KeysStayUnique(t, id);
    forall i | i in t'.memories
      ensures t'.ValidMemory(i)
    {
      MemoriesCascade(t, id, i);
    }
    forall i | i in t'.relationships
      ensures t'.ValidRelationship(i)
    {
      RelationshipsCascade(t, id, i);
    }
    forall i | i in t'.sources
      ensures t'.ValidSource(i)
    {
      SourcesCleared(t, id, i);
    }
    hide WithoutEntity;
  }

  function DeleteEntity(t: Tables, id: Id): (r: Result<Tables>)
    ensures t.Valid() && r.Ok? ==> r.value.Valid()
  {
    if id in t.entities then
      assert t.Valid() ==> WithoutEntity(t, id).Valid() by {
        if t.Valid() {
          WithoutEntityValid(t, id);
        }
      }
      Ok(WithoutEntity(t, id))
    else Err(NotFound("entity not found"))
  }

  // ---- memories ----

  function GetMemory(t: Tables, id: Id): Result<Memory> {
    if id in t.memories then Ok(t.memories[id]) else Err(NotFound("memory not found"))
  }

  predicate SourceResolves(t: Tables, sourceId: Option<Id>) {
    sourceId.Some? ==> sourceId.value in t.sources
  }

  function CreateMemory(t: Tables, p: CreateMemoryParams): (r: Result<Wrote<Memory>>)
    ensures t.Valid() && r.Ok? ==> r.value.tables.Valid()
  {
    if p.entityId !in t.entities || !StoredCategory(p.category) || !UnitInterval(p.confidence)
       || !SourceResolves(t, p.sourceId)
    then Err(StoreFailure("create memory"))
    else
      var m := Memory(t.nextId, p.entityId, p.content, p.category, p.confidence, p.sourceId,
                      t.now, t.now, p.expiresAt, p.metadata);
      Ok(Wrote(t.(memories := t.memories[t.nextId := m], nextId := t.nextId + 1), m))
  }

  predicate EmptyMemoryPatch(p: MemoryPatch) {
    && p.content.None? && p.confidence.None? && p.expiresAt.None? && !p.clearExpiresAt
    && p.metadata.None? && p.sourceId.None? && !p.clearSourceId
  }

  /** Two assignments to one column: postgres rejects the statement, SQLite keeps the last. */
  predicate DoubleAssignment(p: MemoryPatch) {
    (p.expiresAt.Some? && p.clearExpiresAt) || (p.sourceId.Some? && p.clearSourceId)
  }

  function Patched(m: Memory, p: MemoryPatch, now: nat): Memory {
    m.(content := if p.content.Some? then p.content.value else m.content,
       confidence := if p.confidence.Some? then p.confidence.value else m.confidence,
       expiresAt := if p.clearExpiresAt then None else if p.expiresAt.Some? then p.expiresAt else m.expiresAt,
       metadata := if p.metadata.Some? then p.metadata.value else m.metadata,
       sourceId := if p.clearSourceId then None else if p.sourceId.Some? then p.sourceId else m.sourceId,
       updatedAt := now)
  }

  function UpdateMemory(t: Tables, id: Id, p: MemoryPatch): (r: Result<Wrote<Memory>>)
    ensures t.Valid() && r.Ok? ==> r.value.tables.Valid()
  {
    if EmptyMemoryPatch(p) then
      var m :- GetMemory(t, id);
      Ok(Wrote(t, m))
    else if !t.sqlite && DoubleAssignment(p) then Err(StoreFailure("update memory"))
    else if id !in t.memories then Err(NotFound("memory not found"))
    else
      var m := Patched(t.memories[id], p, t.now);
      if !UnitInterval(m.confidence) || !SourceResolves(t, m.sourceId) then Err(StoreFailure("update memory"))
      else Ok(Wrote(t.(memories := t.memories[id := m]), m))
  }

  function DeleteMemory(t: Tables, id: Id): (r: Result<Tables>)
    ensures t.Valid() && r.Ok? ==> r.value.Valid()
  {
    if id in t.memories then Ok(t.(memories := t.memories - {id})) else Err(NotFound("memory not found"))
  }

  // ---- relationships ----

  function GetRelationship(t: Tables, id: Id): Result<Relationship> {
    if id in t.relationships then Ok(t.relationships[id]) else Err(NotFound("relationship not found"))
  }

  predicate RelationshipExists(t: Tables, from: Id, to: Id, kind: string) {
    exists i :: i in t.relationships && t.relationships[i].from == from && t.relationships[i].to == to
                && t.relationships[i].kind == kind
  }

  function CreateRelationship(t: Tables, p: CreateRelationshipParams): (r: Result<Wrote<Relationship>>)
    ensures t.Valid() && r.Ok? ==> r.value.tables.Valid()
  {
    if p.from !in t.entities || p.to !in t.entities || RelationshipExists(t, p.from, p.to, p.kind)
    then Err(StoreFailure("create relationship"))
    else
      var r := Relationship(t.nextId, p.from, p.to, p.kind, p.weight, t.now, p.metadata);
      Ok(Wrote(t.(relationships := t.relationships[t.nextId := r], nextId := t.nextId + 1), r))
  }

  function DeleteRelationship(t: Tables, id: Id): (r: Result<Tables>)
    ensures t.Valid() && r.Ok? ==> r.value.Valid()
  {
    if id in t.relationships then Ok(t.(relationships := t.relationships - {id}))
    else Err(NotFound("relationship not found"))
  }

  // ---- audit log ----

  function CreateIngestSource(t: Tables, rawText: string, subjectId: Option<Id>, model: string, actions: seq<Action>)
      : (r: Result<Wrote<IngestSource>>)
    ensures t.Valid() && r.Ok? ==> r.value.tables.Valid()
  {
    if subjectId.Some? && subjectId.value !in t.entities then Err(StoreFailure("create ingest source"))
    else
      var s := IngestSource(t.nextId, rawText, subjectId, model, actions, t.now);
      Ok(Wrote(t.(sources := t.sources[t.nextId := s], nextId := t.nextId + 1), s))
  }

  // ---- listings ----

  /** ORDER BY updated_at DESC. */
  function MemoryRow(m: Memory): Row<Memory> {
    Row(0 - m.updatedAt as int, m.id, m)
  }

  /** ORDER BY created_at DESC. */
  function RelationshipRow(r: Relationship): Row<Relationship> {
    Row(0 - r.createdAt as int, r.id, r)
  }

  /** ORDER BY updated_at DESC. */
  function EntityRow(e: Entity): Row<Entity> {
    Row(0 - e.updatedAt as int, e.id, e)
  }

  /** ORDER BY created_at ASC. */
  function OldestFirst(e: Entity): Row<Entity> {
    Row(e.createdAt, e.id, e)
  }

  /** All memories of an entity, expired ones included. */
  function MemoriesOf(t: Tables, entityId: Id): (l: seq<Memory>)
    requires t.Valid()
    ensures Distinct(l)
    ensures forall m: Memory :: m in l <==> m.id in t.memories && t.memories[m.id] == m && m.entityId == entityId
  {
    Select(t.memories, MemoryRow, set i | i in t.memories && t.memories[i].entityId == entityId)
  }

  predicate IsActive(m: Memory, now: nat) {
    m.expiresAt.Some? ==> now < m.expiresAt.value
  }

  predicate ActiveIn(m: Memory, entityId: Id, category: Category, now: nat) {
    m.entityId == entityId && m.category == category && IsActive(m, now)
  }

  /** The unexpired memories of an entity in one category. */
  function ActiveMemories(t: Tables, entityId: Id, category: Category): (l: seq<Memory>)
    requires t.Valid()
    ensures Distinct(l)
    ensures forall m: Memory :: m in l <==> (&& m.id in t.memories && t.memories[m.id] == m
                                             && ActiveIn(m, entityId, category, t.now))
  {
    Select(t.memories, MemoryRow, set i | i in t.memories && ActiveIn(t.memories[i], entityId, category, t.now))
  }

  /** The edges leaving an entity. */
  function Outgoing(t: Tables, id: Id): (l: seq<Relationship>)
    requires t.Valid()
    ensures Distinct(l)
    ensures forall r: Relationship :: r in l <==> IsEdge(t, r) && r.from == id
  {
    Select(t.relationships, RelationshipRow, set i | i in t.relationships && t.relationships[i].from == id)
  }

  /** The edges touching an entity at either end. */
  function Incident(t: Tables, id: Id): (l: seq<Relationship>)
    requires t.Valid()
    ensures Distinct(l)
    ensures forall r: Relationship :: r in l <==> IsEdge(t, r) && Touches(r, id)
  {
    Select(t.relationships, RelationshipRow, set i | i in t.relationships && Touches(t.relationships[i], id))
  }

  predicate IsEdge(t: Tables, r: Relationship) {
    r.id in t.relationships && t.relationships[r.id] == r
  }
}
