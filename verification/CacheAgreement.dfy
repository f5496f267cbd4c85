/** The context cache against the store, over every sequential run of the service. */
module CacheAgreement {
  import opened Types
  import opened Ordering
  import opened Tables
  import opened Text
  import opened Neighbourhood
  import opened EntityContext
  import opened ContextCache
  import opened Planner
  import opened Ingest
  import opened IngestProperties
  import opened IngestTouches

  // ---- validation in front of the store ----

  function CheckCreateMemory(u: Text, p: CreateMemoryParams): Option<Error> {
    if p.entityId == NIL_ID then Some(InvalidRequest("entity_id is required"))
    else if u.Trim(p.content) == "" then Some(InvalidRequest("content is required"))
    else if !StoredCategory(p.category) then Some(InvalidRequest("invalid memory category"))
    else if !UnitInterval(p.confidence) then Some(InvalidRequest("confidence must be between 0 and 1"))
    else None
  }

  function CheckMemoryPatch(u: Text, p: MemoryPatch): Option<Error> {
    if p.content.Some? && u.Trim(p.content.value) == "" then Some(InvalidRequest("content cannot be empty"))
    else if p.confidence.Some? && !UnitInterval(p.confidence.value)
        then Some(InvalidRequest("confidence must be between 0 and 1"))
    else None
  }

  function CheckCreateEntity(u: Text, p: CreateEntityParams): Option<Error> {
    if u.Trim(p.name) == "" then Some(InvalidRequest("name is required"))
    else if !StoredType(p.kind) then Some(InvalidRequest("invalid entity type"))
    else None
  }

  function CheckEntityPatch(u: Text, p: EntityPatch): Option<Error> {
    if p.name.Some? && u.Trim(p.name.value) == "" then Some(InvalidRequest("name cannot be empty"))
    else if p.kind.Some? && !StoredType(p.kind.value) then Some(InvalidRequest("invalid entity type"))
    else None
  }

  function CheckCreateRelationship(u: Text, p: CreateRelationshipParams): Option<Error> {
    if p.from == NIL_ID || p.to == NIL_ID then Some(InvalidRequest("from_entity_id and to_entity_id are required"))
    else if u.Trim(p.kind) == "" then Some(InvalidRequest("type is required"))
    else if p.weight.Some? && !UnitInterval(p.weight.value) then Some(InvalidRequest("weight must be between 0 and 1"))
    else None
  }

  // ---- the service as a state machine ----

  datatype State = State(tables: Tables, cache: Entries)

  datatype Op =
    | CreateMemoryOp(createMemory: CreateMemoryParams)
    | UpdateMemoryOp(memoryId: Id, memoryPatch: MemoryPatch)
    | DeleteMemoryOp(memoryId: Id)
    | CreateEntityOp(createEntity: CreateEntityParams)
    | UpdateEntityOp(entityId: Id, entityPatch: EntityPatch)
    | DeleteEntityOp(entityId: Id)
    | CreateRelationshipOp(createRelationship: CreateRelationshipParams)
    | DeleteRelationshipOp(relationshipId: Id)
    | IngestOp(req: Request, extraction: Extraction, faults: Faults)
    | ReadContextOp(root: Id, depth: int, answer: EntityContext)   // what the store answers, if asked
    | EvictOp(expired: set<Key>)
    | TickOp(elapsed: nat)

  /** A store write followed by invalidation of the listed entities. */
  function Written(s: State, t: Tables, ids: seq<Id>): State {
    State(t, Without(s.cache, Touched(ids)))
  }

  /** A store write of the service, with the entities it invalidates. */
  datatype Write = Write(tables: Tables, ids: seq<Id>)

  /** The store write an operation makes, when it makes one. */
  ghost function WriteOf(cfg: Config, t: Tables, op: Op): Option<Write>
    requires t.Valid()
  {
    match op
    case CreateMemoryOp(p) =>
      if CheckCreateMemory(cfg.u, p).Some? || CreateMemory(t, p).Err? then None
      else Some(Write(CreateMemory(t, p).value.tables, [CreateMemory(t, p).value.row.entityId]))
    case UpdateMemoryOp(id, patch) =>
      if CheckMemoryPatch(cfg.u, patch).Some? || id !in t.memories || UpdateMemory(t, id, patch).Err? then None
      else Some(Write(UpdateMemory(t, id, patch).value.tables, [t.memories[id].entityId]))
    case DeleteMemoryOp(id) =>
      if id !in t.memories || DeleteMemory(t, id).Err? then None
      else Some(Write(DeleteMemory(t, id).value, [t.memories[id].entityId]))
    case CreateEntityOp(p) =>
      if CheckCreateEntity(cfg.u, p).Some? || CreateEntity(t, p).Err? then None
      else Some(Write(CreateEntity(t, p).value.tables, []))
    case UpdateEntityOp(id, patch) =>
      if CheckEntityPatch(cfg.u, patch).Some? || UpdateEntity(t, id, patch).Err? then None
      else Some(Write(UpdateEntity(t, id, patch).value.tables, [id]))
    case DeleteEntityOp(id) =>
      if DeleteEntity(t, id).Err? then None else Some(Write(DeleteEntity(t, id).value, [id]))
    case CreateRelationshipOp(p) =>
      if CheckCreateRelationship(cfg.u, p).Some? || CreateRelationship(t, p).Err? then None
      else Some(Write(CreateRelationship(t, p).value.tables, [p.from, p.to]))
    case DeleteRelationshipOp(id) =>
      if id !in t.relationships || DeleteRelationship(t, id).Err? then None
      else Some(Write(DeleteRelationship(t, id).value, [t.relationships[id].from, t.relationships[id].to]))
    case IngestOp(req, extraction, faults) =>
      var p := FinishedPlan(cfg, t, req, extraction, faults);
      Some(Write(RunIngest(cfg, t, req, extraction, faults).tables,
          if p.Some? then AllTouches(p.value.refs, p.value.steps) else []))
    case TickOp(elapsed) => Some(Write(t.(now := t.now + elapsed), []))
    case ReadContextOp(_, _, _) => None
    case EvictOp(_) => None
  }

  /** One operation of the service, with the entries it invalidates, stores or loses. */
  ghost function Apply(cfg: Config, s: State, op: Op): State
    requires s.tables.Valid()
  {
    match op
    case ReadContextOp(root, depth, answer) =>
      if depth < 0 || depth > 3 || Key(root, depth) in s.cache || !IsContext(s.tables, root, depth, answer) then s
      else s.(cache := s.cache[Key(root, depth) := answer])
    case EvictOp(expired) => s.(cache := s.cache - expired)
    case _ =>
      match WriteOf(cfg, s.tables, op)
      case None => s
      case Some(w) => Written(s, w.tables, w.ids)
  }

  // ---- agreement ----

  /** The entity and memories of a cached entry are those of the store. */
  ghost predicate EntryAgrees(t: Tables, k: Key, c: EntityContext)
    requires t.Valid()
  {
    0 <= k.depth <= 3 && k.entity in t.entities && c.entity == t.entities[k.entity]
        && c.memories == MemoriesOf(t, k.entity)
  }

  ghost function CachedRootEdges(c: EntityContext, root: Id): set<Id> {
    set j | 0 <= j < |c.relationships| && Touches(c.relationships[j].relationship, root) ::
        c.relationships[j].relationship.id
  }

  ghost function StoredRootEdges(t: Tables, root: Id): set<Id> {
    set i | i in t.relationships && Touches(t.relationships[i], root)
  }

  /** Every cached entry agrees on its entity and memories. */
  ghost predicate Agrees(s: State)
    requires s.tables.Valid()
  {
    forall k :: k in s.cache ==> EntryAgrees(s.tables, k, s.cache[k])
  }

  /** Every entry of depth at least 1 lists exactly the stored relationships at its root. */
  ghost predicate EdgesAgree(s: State) {
    forall k :: k in s.cache && k.depth >= 1 ==>
        CachedRootEdges(s.cache[k], k.entity) == StoredRootEdges(s.tables, k.entity)
  }

  /** Freshly read contexts agree. */
  lemma FreshAgrees(t: Tables, root: Id, depth: int, c: EntityContext)
    requires t.Valid() && 0 <= depth <= 3 && IsContext(t, root, depth, c)
    ensures EntryAgrees(t, Key(root, depth), c)
    ensures depth >= 1 ==> CachedRootEdges(c, root) == StoredRootEdges(t, root)
  {
    hide Ball;
    hide OnTrail;
    if depth >= 1 {
      ValidIsKeyed(t);
      forall i | i in StoredRootEdges(t, root)
        ensures i in CachedRootEdges(c, root)
      {
        RootEdgeOnTrail(t, root, t.relationships[i], depth);
        var j :| 0 <= j < |c.relationships| && c.relationships[j].relationship.id == i;
        EntryIsEdge(t, root, c, j);
      }
      forall i | i in CachedRootEdges(c, root)
        ensures i in StoredRootEdges(t, root)
      {
        var j :| 0 <= j < |c.relationships| && Touches(c.relationships[j].relationship, root)
            && c.relationships[j].relationship.id == i;
        EntryIsEdge(t, root, c, j);
      }
    }
  }

  lemma RootEdgeOnTrail(t: Tables, root: Id, r: Relationship, depth: nat)
    requires t.Valid() && IsEdge(t, r) && Touches(r, root) && depth >= 1
    ensures OnTrail(t, root, r, depth)
  {
    ValidIsKeyed(t);
    BallGrows(t, root, 0, depth - 1);
    OnTrailIffNear(t, root, r, depth);
  }

  lemma EntryIsEdge(t: Tables, root: Id, c: EntityContext, j: nat)
    requires Collected(t, root, c.relationships) && j < |c.relationships|
    ensures IsEdge(t, c.relationships[j].relationship)
  {
    assert c.relationships[j] in c.relationships;
    assert WellResolved(t, root, c.relationships[j]);
  }

  ghost function MemoryIds(t: Tables, y: Id): set<Id> {
    set i | i in t.memories && t.memories[i].entityId == y
  }

  lemma MemoriesListed(t: Tables, y: Id)
    requires t.Valid()
    ensures Keyed(t.memories, MemoryRow, MemoryIds(t, y))
    ensures MemoriesOf(t, y) == Select(t.memories, MemoryRow, MemoryIds(t, y))
  {
    hide Select;
    RowsKeyed(t);
  }

  lemma SameMemoryIds(t: Tables, t': Tables, y: Id)
    requires SameMemories(t, t', y)
    ensures MemoryIds(t', y) == MemoryIds(t, y)
    ensures forall i :: i in MemoryIds(t, y) ==> i in t.memories && i in t'.memories && t'.memories[i] == t.memories[i]
  {
  }

  lemma SelectSame(m: map<Id, Memory>, m': map<Id, Memory>, ids: set<Id>)
    requires Keyed(m, MemoryRow, ids) && Keyed(m', MemoryRow, ids)
    requires forall i :: i in ids ==> i in m && i in m' && m'[i] == m[i]
    ensures Select(m, MemoryRow, ids) == Select(m', MemoryRow, ids)
  {
    assert RowsOf(m, MemoryRow, ids) == RowsOf(m', MemoryRow, ids);
  }

  /** The listing of an entity's memories depends only on its rows. */
  lemma MemoriesOfSame(t: Tables, t': Tables, y: Id)
    requires t.Valid() && t'.Valid() && SameMemories(t, t', y)
    ensures MemoriesOf(t', y) == MemoriesOf(t, y)
  {
    hide *;
    MemoriesListed(t, y);
    MemoriesListed(t', y);
    SameMemoryIds(t, t', y);
    SelectSame(t.memories, t'.memories, MemoryIds(t, y));
  }

  /** The row and the memories of an entity are the same in both stores. */
  ghost predicate SameOwn(t: Tables, t': Tables, y: Id) {
    (y in t.entities ==> y in t'.entities && t'.entities[y] == t.entities[y]) && SameMemories(t, t', y)
  }

  lemma StillAgrees(t: Tables, t': Tables, k: Key, c: EntityContext)
    requires t.Valid() && t'.Valid() && EntryAgrees(t, k, c) && SameOwn(t, t', k.entity)
    ensures EntryAgrees(t', k, c)
  {
    MemoriesOfSame(t, t', k.entity);
  }

  /** A write that leaves alone the rows and memories of every uninvalidated entity keeps the agreement; if
      it also leaves their edges alone, the edges keep agreeing. */
  lemma WrittenAgrees(s: State, t': Tables, ids: seq<Id>)
    requires s.tables.Valid() && t'.Valid() && Agrees(s)
    requires forall y :: y in s.tables.entities && y !in ids ==> SameOwn(s.tables, t', y)
    ensures Agrees(Written(s, t', ids))
    ensures EdgesAgree(s) && (forall y :: y in s.tables.entities && y !in ids ==> SameEdges(s.tables, t', y)) ==>
              EdgesAgree(Written(s, t', ids))
  {
    hide EntryAgrees, Touched, SameOwn, SameEdges, CachedRootEdges, StoredRootEdges;
    var s' := Written(s, t', ids);
    forall k | k in s'.cache
      ensures k in s.cache && s'.cache[k] == s.cache[k] && k.entity in s.tables.entities && k.entity !in ids
      ensures EntryAgrees(t', k, s'.cache[k])
    {
      Survivor(s, ids, k);
      StillAgrees(s.tables, t', k, s.cache[k]);
    }
    forall y | SameEdges(s.tables, t', y)
      ensures StoredRootEdges(t', y) == StoredRootEdges(s.tables, y)
    {
      SameRootEdges(s.tables, t', y);
    }
  }

  lemma SameRootEdges(t: Tables, t': Tables, y: Id)
    requires SameEdges(t, t', y)
    ensures StoredRootEdges(t', y) == StoredRootEdges(t, y)
  {
  }

  lemma Survivor(s: State, ids: seq<Id>, k: Key)
    requires s.tables.Valid() && Agrees(s) && k in Without(s.cache, Touched(ids))
    ensures k in s.cache && k.entity in s.tables.entities && k.entity !in ids
  {
    assert EntryAgrees(s.tables, k, s.cache[k]);
    assert s.tables.ValidEntity(k.entity);
  }

  // ---- what each write leaves alone ----

  lemma CreateMemoryTouches(t: Tables, p: CreateMemoryParams, y: Id)
    requires t.Valid() && CreateMemory(t, p).Ok? && y != CreateMemory(t, p).value.row.entityId
    ensures Untouched(t, CreateMemory(t, p).value.tables, y)
  {
    FreshId(t);
  }

  lemma UpdateMemoryTouches(t: Tables, id: Id, p: MemoryPatch, y: Id)
    requires t.Valid() && UpdateMemory(t, id, p).Ok? && id in t.memories && y != t.memories[id].entityId
    ensures Untouched(t, UpdateMemory(t, id, p).value.tables, y)
  {
    var t' := UpdateMemory(t, id, p).value.tables;
    UpdateMemoryWrites(t, id, p);
    if t' != t {
      OneMemoryRewritten(t, id, t'.memories[id], y);
    }
  }

  lemma UpdateMemoryWrites(t: Tables, id: Id, p: MemoryPatch)
    requires UpdateMemory(t, id, p).Ok? && id in t.memories
    ensures var t' := UpdateMemory(t, id, p).value.tables;
            id in t'.memories && t'.memories[id].entityId == t.memories[id].entityId
            && (t' == t || t' == t.(memories := t.memories[id := t'.memories[id]]))
  {
    assert t.(memories := t.memories) == t;
  }

  lemma OneMemoryRewritten(t: Tables, id: Id, m: Memory, y: Id)
    requires id in t.memories && m.entityId == t.memories[id].entityId && y != m.entityId
    ensures Untouched(t, t.(memories := t.memories[id := m]), y)
  {
  }

  lemma DeleteMemoryTouches(t: Tables, id: Id, y: Id)
    requires t.Valid() && id in t.memories && y != t.memories[id].entityId
    ensures DeleteMemory(t, id).Ok? && Untouched(t, DeleteMemory(t, id).value, y)
  {
  }

  lemma CreateEntityTouches(t: Tables, p: CreateEntityParams, y: Id)
    requires t.Valid() && CreateEntity(t, p).Ok? && y in t.entities
    ensures Untouched(t, CreateEntity(t, p).value.tables, y)
  {
    FreshId(t);
  }

  lemma UpdateEntityTouches(t: Tables, id: Id, p: EntityPatch, y: Id)
    requires t.Valid() && UpdateEntity(t, id, p).Ok? && y != id
    ensures Untouched(t, UpdateEntity(t, id, p).value.tables, y)
  {
    hide *;
    UpdateEntityWrites(t, id, p, y);
    OnlyEntitiesDiffer(t, UpdateEntity(t, id, p).value.tables, y);
  }

  lemma UpdateEntityWrites(t: Tables, id: Id, p: EntityPatch, y: Id)
    requires UpdateEntity(t, id, p).Ok? && y != id
    ensures var t' := UpdateEntity(t, id, p).value.tables;
            && t'.memories == t.memories && t'.relationships == t.relationships
            && (y in t.entities ==> y in t'.entities && t'.entities[y] == t.entities[y])
  {
    hide ExternalIdTaken;
  }

  lemma OnlyEntitiesDiffer(t: Tables, t': Tables, y: Id)
    requires t'.memories == t.memories && t'.relationships == t.relationships
    requires y in t.entities ==> y in t'.entities && t'.entities[y] == t.entities[y]
    ensures Untouched(t, t', y)
  {
  }

  lemma CreateRelationshipTouches(t: Tables, p: CreateRelationshipParams, y: Id)
    requires t.Valid() && CreateRelationship(t, p).Ok? && y != p.from && y != p.to
    ensures Untouched(t, CreateRelationship(t, p).value.tables, y)
  {
    FreshId(t);
    CreateRelationshipWrites(t, p);
    OneEdgeAdded(t, t.nextId, CreateRelationship(t, p).value.row, y);
  }

  lemma CreateRelationshipWrites(t: Tables, p: CreateRelationshipParams)
    requires CreateRelationship(t, p).Ok?
    ensures var w := CreateRelationship(t, p).value;
            w.row.from == p.from && w.row.to == p.to
            && w.tables == t.(relationships := t.relationships[t.nextId := w.row], nextId := t.nextId + 1)
  {
  }

  lemma OneEdgeAdded(t: Tables, id: Id, r: Relationship, y: Id)
    requires id !in t.relationships && !Touches(r, y)
    ensures Untouched(t, t.(relationships := t.relationships[id := r], nextId := t.nextId + 1), y)
  {
  }

  lemma DeleteRelationshipTouches(t: Tables, id: Id, y: Id)
    requires t.Valid() && id in t.relationships && !Touches(t.relationships[id], y)
    ensures DeleteRelationship(t, id).Ok? && Untouched(t, DeleteRelationship(t, id).value, y)
  {
  }

  /** Deleting an entity leaves every other row and its memories, but takes away shared edges. */
  lemma DeleteEntityTouches(t: Tables, id: Id, y: Id)
    requires t.Valid() && DeleteEntity(t, id).Ok? && y != id
    ensures SameOwn(t, DeleteEntity(t, id).value, y)
    ensures StoredRootEdges(DeleteEntity(t, id).value, y) == StoredRootEdges(t, y) - StoredRootEdges(t, id)
  {
    hide *;
    DeletedIs(t, id);
    OwnKept(t, id, y);
    SharedEdgesLost(t, id, y);
  }

  lemma DeletedIs(t: Tables, id: Id)
    requires DeleteEntity(t, id).Ok?
    ensures DeleteEntity(t, id).value == WithoutEntity(t, id)
  {
    hide WithoutEntity;
  }

  lemma OwnKept(t: Tables, id: Id, y: Id)
    requires y != id
    ensures SameOwn(t, WithoutEntity(t, id), y)
  {
  }

  lemma SharedEdgesLost(t: Tables, id: Id, y: Id)
    ensures StoredRootEdges(WithoutEntity(t, id), y) == StoredRootEdges(t, y) - StoredRootEdges(t, id)
  {
  }

  lemma UntouchedParts(t: Tables, t': Tables, y: Id)
    requires Untouched(t, t', y)
    ensures SameOwn(t, t', y) && SameEdges(t, t', y)
  {
  }

  lemma TickTouches(t: Tables, elapsed: nat, y: Id)
    ensures Untouched(t, t.(now := t.now + elapsed), y)
  {
  }

  // ---- one step ----

  lemma SameIsUntouched(t: Tables, y: Id)
    ensures Untouched(t, t, y)
  {
  }

  lemma IngestTouchesOnly(cfg: Config, t: Tables, req: Request, extraction: Extraction, faults: Faults, y: Id)
    requires ValidConfig(cfg) && t.Valid()
    requires y !in WriteOf(cfg, t, IngestOp(req, extraction, faults)).value.ids
    ensures Untouched(t, WriteOf(cfg, t, IngestOp(req, extraction, faults)).value.tables, y)
  {
    hide RunIngest, FinishedPlan, AllTouches, Untouched;
    IngestUntouched(cfg, t, req, extraction, faults, y);
    SameIsUntouched(t, y);
  }

  /** A statement of the service leaves alone whatever it does not invalidate. */
  lemma StatementTouches(cfg: Config, t: Tables, op: Op, y: Id)
    requires t.Valid() && WriteOf(cfg, t, op).Some? && !op.IngestOp? && !op.DeleteEntityOp?
    requires y in t.entities && y !in WriteOf(cfg, t, op).value.ids
    ensures Untouched(t, WriteOf(cfg, t, op).value.tables, y)
  {
    hide CreateMemory, UpdateMemory, DeleteMemory, CreateEntity, UpdateEntity, CreateRelationship, DeleteRelationship;
    hide Untouched, RunIngest, FinishedPlan, AllTouches;
    hide CheckCreateMemory, CheckMemoryPatch, CheckCreateEntity, CheckEntityPatch, CheckCreateRelationship;
    match op
    case CreateMemoryOp(p) => CreateMemoryTouches(t, p, y);
    case UpdateMemoryOp(id, patch) => UpdateMemoryTouches(t, id, patch, y);
    case DeleteMemoryOp(id) => DeleteMemoryTouches(t, id, y);
    case CreateEntityOp(p) => CreateEntityTouches(t, p, y);
    case UpdateEntityOp(id, patch) => UpdateEntityTouches(t, id, patch, y);
    case CreateRelationshipOp(p) => CreateRelationshipTouches(t, p, y);
    case DeleteRelationshipOp(id) => DeleteRelationshipTouches(t, id, y);
    case TickOp(elapsed) => TickTouches(t, elapsed, y);
  }

  lemma DeletionTouches(cfg: Config, t: Tables, id: Id, y: Id)
    requires t.Valid() && WriteOf(cfg, t, DeleteEntityOp(id)).Some?
        && y !in WriteOf(cfg, t, DeleteEntityOp(id)).value.ids
    ensures SameOwn(t, WriteOf(cfg, t, DeleteEntityOp(id)).value.tables, y)
  {
    hide DeleteEntity, SameOwn;
    DeleteEntityTouches(t, id, y);
  }

  lemma WriteTouches(cfg: Config, t: Tables, op: Op, y: Id)
    requires ValidConfig(cfg) && t.Valid() && WriteOf(cfg, t, op).Some?
    requires y in t.entities && y !in WriteOf(cfg, t, op).value.ids
    ensures SameOwn(t, WriteOf(cfg, t, op).value.tables, y)
    ensures !op.DeleteEntityOp? ==> SameEdges(t, WriteOf(cfg, t, op).value.tables, y)
  {
    hide *;
    match op
    case DeleteEntityOp(id) => DeletionTouches(cfg, t, id, y);
    case IngestOp(req, extraction, faults) =>
      IngestTouchesOnly(cfg, t, req, extraction, faults, y);
      UntouchedParts(t, WriteOf(cfg, t, op).value.tables, y);
    case _ =>
      StatementTouches(cfg, t, op, y);
      UntouchedParts(t, WriteOf(cfg, t, op).value.tables, y);
  }

  lemma IngestWriteValid(cfg: Config, t: Tables, req: Request, extraction: Extraction, faults: Faults)
    requires ValidConfig(cfg) && t.Valid()
    ensures WriteOf(cfg, t, IngestOp(req, extraction, faults)).value.tables.Valid()
  {
    hide RunIngest, FinishedPlan, AllTouches;
    IngestAllOrNothing(cfg, t, req, extraction, faults);
  }

  lemma TickWriteValid(cfg: Config, t: Tables, elapsed: nat)
    requires t.Valid()
    ensures WriteOf(cfg, t, TickOp(elapsed)).value.tables.Valid()
  {
    hide RunIngest, FinishedPlan, AllTouches;
    TickValid(t, elapsed);
  }

  /** A write leaves a valid store. */
  lemma WriteValid(cfg: Config, t: Tables, op: Op)
    requires ValidConfig(cfg) && t.Valid() && WriteOf(cfg, t, op).Some?
    ensures WriteOf(cfg, t, op).value.tables.Valid()
  {
    hide *;
    match op
    case IngestOp(req, extraction, faults) => IngestWriteValid(cfg, t, req, extraction, faults);
    case TickOp(elapsed) => TickWriteValid(cfg, t, elapsed);
    case _ => StatementValid(cfg, t, op);
  }

  lemma StatementValid(cfg: Config, t: Tables, op: Op)
    requires t.Valid() && WriteOf(cfg, t, op).Some? && !op.IngestOp? && !op.TickOp?
    ensures WriteOf(cfg, t, op).value.tables.Valid()
  {
    hide CreateMemory, UpdateMemory, DeleteMemory, CreateEntity, UpdateEntity, DeleteEntity, CreateRelationship,
        DeleteRelationship, RunIngest, FinishedPlan, AllTouches;
    hide CheckCreateMemory, CheckMemoryPatch, CheckCreateEntity, CheckEntityPatch, CheckCreateRelationship;
  }

  lemma ApplyWrites(cfg: Config, s: State, op: Op)
    requires s.tables.Valid() && !op.ReadContextOp? && !op.EvictOp?
    ensures Apply(cfg, s, op) == match WriteOf(cfg, s.tables, op)
                                 case None => s
                                 case Some(w) => Written(s, w.tables, w.ids)
  {
    hide WriteOf, Written;
  }

  /** Every operation keeps the agreement, and every operation but deleting an entity keeps that of the edges. */
  lemma ApplyAgrees(cfg: Config, s: State, op: Op)
    requires ValidConfig(cfg) && s.tables.Valid() && Agrees(s)
    ensures var s' := Apply(cfg, s, op);
            && s'.tables.Valid() && Agrees(s')
            && (EdgesAgree(s) && !op.DeleteEntityOp? ==> EdgesAgree(s'))
  {
    hide EntryAgrees, CachedRootEdges, StoredRootEdges, IsContext, SameEdges, SameOwn, WriteOf;
    match op
    case ReadContextOp(root, depth, answer) =>
      if 0 <= depth <= 3 && IsContext(s.tables, root, depth, answer) {
        FreshAgrees(s.tables, root, depth, answer);
      }
    case EvictOp(expired) =>
    case _ =>
      ApplyWrites(cfg, s, op);
      if WriteOf(cfg, s.tables, op).Some? {
        var w := WriteOf(cfg, s.tables, op).value;
        WriteValid(cfg, s.tables, op);
        forall y | y in s.tables.entities && y !in w.ids
          ensures SameOwn(s.tables, w.tables, y) && (!op.DeleteEntityOp? ==> SameEdges(s.tables, w.tables, y))
        {
          WriteTouches(cfg, s.tables, op, y);
        }
        WrittenAgrees(s, w.tables, w.ids);
      }
  }

  // ---- every run ----

  /** The state after a run of operations. */
  ghost function Run(cfg: Config, s: State, ops: seq<Op>): (s': State)
    requires ValidConfig(cfg) && s.tables.Valid() && Agrees(s)
    ensures s'.tables.Valid() && Agrees(s')
  {
    if ops == [] then s
    else
      var n := |ops| - 1;
      var before := Run(cfg, s, ops[..n]);
      ApplyAgrees(cfg, before, ops[n]);
      Apply(cfg, before, ops[n])
  }

  /** From a valid store and an empty cache, whatever is done in whatever order: every cached entry shows the
      stored entity and its stored memories; and if no entity was ever deleted, every entry of depth at least 1 shows
      exactly the stored relationships at its root. */
  lemma {:induction false} RunAgrees(cfg: Config, t: Tables, ops: seq<Op>)
    requires ValidConfig(cfg) && t.Valid()
    ensures var s := Run(cfg, State(t, map[]), ops);
            && s.tables.Valid()
            && (forall k :: k in s.cache ==> EntryAgrees(s.tables, k, s.cache[k]))
            && ((forall i :: 0 <= i < |ops| ==> !ops[i].DeleteEntityOp?) ==> EdgesAgree(s))
    decreases |ops|
  {
    if ops != [] {
      var n := |ops| - 1;
      RunAgrees(cfg, t, ops[..n]);
      hide Apply, EntryAgrees, EdgesAgree;
      ApplyAgrees(cfg, Run(cfg, State(t, map[]), ops[..n]), ops[n]);
    }
  }

  // ---- deleting an entity ----

  /** Some cached entry of depth at least 1 shows an edge between its root and another entity. */
  ghost predicate CachedNeighbour(s: State, id: Id) {
    exists k, i :: k in s.cache && k.depth >= 1 && k.entity != id && i in s.tables.relationships
                   && Touches(s.tables.relationships[i], k.entity) && Touches(s.tables.relationships[i], id)
  }

  /** Deleting an entity keeps the edges in agreement exactly when no neighbour of it is cached: only the
      deleted entity's own entries are invalidated, while the edges it shared are gone from the store. */
  lemma DeleteKeepsEdgesIff(cfg: Config, s: State, id: Id)
    requires ValidConfig(cfg) && s.tables.Valid() && Agrees(s) && EdgesAgree(s) && id in s.tables.entities
    ensures EdgesAgree(Apply(cfg, s, DeleteEntityOp(id))) <==> !CachedNeighbour(s, id)
  {
    hide *;
    var s' := Apply(cfg, s, DeleteEntityOp(id));
    AfterDelete(cfg, s, id);
    forall y | y != id
      ensures StoredRootEdges(s'.tables, y) == StoredRootEdges(s.tables, y) - StoredRootEdges(s.tables, id)
    {
      DeleteEntityTouches(s.tables, id, y);
    }
    EdgesAfterDelete(s, s', id);
  }

  lemma EdgesAfterDelete(s: State, s': State, id: Id)
    requires EdgesAgree(s)
    requires forall k :: k in s'.cache <==> k in s.cache && k.entity != id
    requires forall k :: k in s'.cache ==> s'.cache[k] == s.cache[k]
    requires forall y :: y != id ==>
               StoredRootEdges(s'.tables, y) == StoredRootEdges(s.tables, y) - StoredRootEdges(s.tables, id)
    ensures EdgesAgree(s') <==> !CachedNeighbour(s, id)
  {
    hide CachedRootEdges;
    if CachedNeighbour(s, id) {
      var k, i :| k in s.cache && k.depth >= 1 && k.entity != id && i in s.tables.relationships
                  && Touches(s.tables.relationships[i], k.entity) && Touches(s.tables.relationships[i], id);
      assert i in StoredRootEdges(s.tables, k.entity) && i in StoredRootEdges(s.tables, id);
      assert i in CachedRootEdges(s'.cache[k], k.entity) && i !in StoredRootEdges(s'.tables, k.entity);
    } else {
      forall k | k in s'.cache && k.depth >= 1
        ensures CachedRootEdges(s'.cache[k], k.entity) == StoredRootEdges(s'.tables, k.entity)
      {
        assert StoredRootEdges(s.tables, k.entity) !! StoredRootEdges(s.tables, id);
      }
    }
  }

  lemma AfterDelete(cfg: Config, s: State, id: Id)
    requires s.tables.Valid() && Agrees(s) && id in s.tables.entities
    ensures DeleteEntity(s.tables, id).Ok?
    ensures var s' := Apply(cfg, s, DeleteEntityOp(id));
            && s'.tables == DeleteEntity(s.tables, id).value
            && (forall k :: k in s'.cache <==> k in s.cache && k.entity != id)
            && (forall k :: k in s'.cache ==> s'.cache[k] == s.cache[k])
  {
    hide *;
    DeleteSucceeds(s.tables, id);
    DeleteIs(cfg, s, id);
    forall k | k in s.cache
      ensures 0 <= k.depth <= 3
    {
      DepthInRange(s, k);
    }
    WithoutOne(s.cache, id);
  }

  lemma DeleteSucceeds(t: Tables, id: Id)
    requires t.Valid() && id in t.entities
    ensures DeleteEntity(t, id).Ok? && id != NIL_ID
  {
    assert t.ValidEntity(id);
    hide WithoutEntity;
  }

  lemma DeleteIs(cfg: Config, s: State, id: Id)
    requires s.tables.Valid() && DeleteEntity(s.tables, id).Ok?
    ensures Apply(cfg, s, DeleteEntityOp(id))
        == State(DeleteEntity(s.tables, id).value, Without(s.cache, Touched([id])))
  {
    hide DeleteEntity, Without, Touched;
  }

  lemma DepthInRange(s: State, k: Key)
    requires s.tables.Valid() && Agrees(s) && k in s.cache
    ensures 0 <= k.depth <= 3
  {
    assert EntryAgrees(s.tables, k, s.cache[k]);
  }

  lemma WithoutOne(entries: Entries, id: Id)
    requires id != NIL_ID && forall k :: k in entries ==> 0 <= k.depth <= 3
    ensures forall k :: k in Without(entries, Touched([id])) <==> k in entries && k.entity != id
    ensures forall k :: k in Without(entries, Touched([id])) ==> Without(entries, Touched([id]))[k] == entries[k]
  {
  }

  // ---- what the checks in front of the store accept ----

  lemma MemoryChecked(u: Text, p: CreateMemoryParams, patch: MemoryPatch)
    ensures CheckCreateMemory(u, p).None?
            <==> && p.entityId != 0 && u.Trim(p.content) != ""
                 && p.category in {Preference, Fact, RelationshipFact, Event, Instruction}
                 && 0.0 <= p.confidence <= 1.0
    ensures CheckMemoryPatch(u, patch).None?
            <==> && (patch.content.Some? ==> u.Trim(patch.content.value) != "")
                 && (patch.confidence.Some? ==> 0.0 <= patch.confidence.value <= 1.0)
    ensures CheckCreateMemory(u, p).Some? ==> CheckCreateMemory(u, p).value.InvalidRequest?
    ensures CheckMemoryPatch(u, patch).Some? ==> CheckMemoryPatch(u, patch).value.InvalidRequest?
  {
  }

  lemma EntityChecked(u: Text, p: CreateEntityParams, patch: EntityPatch)
    ensures CheckCreateEntity(u, p).None?
            <==> u.Trim(p.name) != "" && p.kind in {Person, Organization, Place, Concept, ObjectType, Agent}
    ensures CheckEntityPatch(u, patch).None?
            <==> && (patch.name.Some? ==> u.Trim(patch.name.value) != "")
                 && (patch.kind.Some? ==> patch.kind.value in {Person, Organization, Place, Concept, ObjectType, Agent})
    ensures CheckCreateEntity(u, p).Some? ==> CheckCreateEntity(u, p).value.InvalidRequest?
    ensures CheckEntityPatch(u, patch).Some? ==> CheckEntityPatch(u, patch).value.InvalidRequest?
  {
  }

  lemma RelationshipChecked(u: Text, p: CreateRelationshipParams)
    ensures CheckCreateRelationship(u, p).None?
            <==> && p.from != 0 && p.to != 0 && u.Trim(p.kind) != ""
                 && (p.weight.Some? ==> 0.0 <= p.weight.value <= 1.0)
    ensures CheckCreateRelationship(u, p).Some? ==> CheckCreateRelationship(u, p).value.InvalidRequest?
  {
  }
}
