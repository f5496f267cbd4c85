/** The AGE graph: Entity and Memory nodes, HAS_MEMORY and RELATIONSHIP edges, and the Cypher statements
    that write it.  A statement whose MATCH finds nothing does nothing. */
module AgeGraph {
  import opened Types
  import opened Tables

  datatype EntityNode = EntityNode(name: string, kind: EntityType, externalId: Option<string>, metadata: Metadata)

  datatype MemoryNode = MemoryNode(
    entityId: Id,
    category: Category,
    content: string,
    confidence: real,
    sourceId: Option<Id>,
    expiresAt: Option<nat>,
    metadata: Metadata)

  /** A RELATIONSHIP edge is matched by its id property and both its ends. */
  datatype EdgeKey = EdgeKey(id: Id, from: Id, to: Id)

  datatype EdgeProps = EdgeProps(kind: string, weight: Option<real>, metadata: Metadata)

  datatype Graph = Graph(
    entityNodes: map<Id, EntityNode>,
    memoryNodes: map<Id, MemoryNode>,
    hasMemory: set<(Id, Id)>,          // entity, memory
    edges: map<EdgeKey, EdgeProps>,
    others: set<Id>)                   // nodes under any other label

  const EMPTY_GRAPH := Graph(map[], map[], {}, map[], {})

  // ---- statements ----

  function MergeEntity(g: Graph, id: Id, n: EntityNode): Graph {
    g.(entityNodes := g.entityNodes[id := n])
  }

  function MergeMemory(g: Graph, id: Id, n: MemoryNode): Graph {
    if n.entityId !in g.entityNodes then g
    else g.(memoryNodes := g.memoryNodes[id := n], hasMemory := g.hasMemory + {(n.entityId, id)})
  }

  function MergeEdge(g: Graph, k: EdgeKey, n: EdgeProps): Graph {
    if k.from !in g.entityNodes || k.to !in g.entityNodes then g
    else g.(edges := g.edges[k := n])
  }

  /** DETACH DELETE takes every edge at the node with it. */
  function DetachEntity(g: Graph, id: Id): Graph {
    g.(entityNodes := g.entityNodes - {id},
       hasMemory := (set p | p in g.hasMemory && p.0 != id),
       edges := map k | k in g.edges && k.from != id && k.to != id :: g.edges[k])
  }

  function DetachMemory(g: Graph, id: Id): Graph {
    g.(memoryNodes := g.memoryNodes - {id}, hasMemory := (set p | p in g.hasMemory && p.1 != id))
  }

  function DeleteEdge(g: Graph, id: Id): Graph {
    g.(edges := map k | k in g.edges && k.id != id :: g.edges[k])
  }

  // ---- rows as nodes ----

  function EntityNodeOf(e: Entity): EntityNode {
    EntityNode(e.name, e.kind, e.externalId, e.metadata)
  }

  function MemoryNodeOf(m: Memory): MemoryNode {
    MemoryNode(m.entityId, m.category, m.content, m.confidence, m.sourceId, m.expiresAt, m.metadata)
  }

  function KeyOf(r: Relationship): EdgeKey {
    EdgeKey(r.id, r.from, r.to)
  }

  function EdgePropsOf(r: Relationship): EdgeProps {
    EdgeProps(r.kind, r.weight, r.metadata)
  }

  function SyncEntity(g: Graph, e: Entity): Graph {
    MergeEntity(g, e.id, EntityNodeOf(e))
  }

  /** The owner is synced first. */
  function SyncMemory(t: Tables, g: Graph, m: Memory): Result<Graph> {
    var e :- GetEntity(t, m.entityId);
    Ok(MergeMemory(SyncEntity(g, e), m.id, MemoryNodeOf(m)))
  }

  /** Both ends are synced first. */
  function SyncRelationship(t: Tables, g: Graph, r: Relationship): Result<Graph> {
    var from :- GetEntity(t, r.from);
    var to :- GetEntity(t, r.to);
    Ok(MergeEdge(SyncEntity(SyncEntity(g, from), to), KeyOf(r), EdgePropsOf(r)))
  }

  // ---- dual writes ----

  datatype Dual = Dual(tables: Tables, graph: Graph)

  datatype Write =
    | CreateEntityW(createEntity: CreateEntityParams)
    | UpdateEntityW(entityId: Id, entityPatch: EntityPatch)
    | DeleteEntityW(entityId: Id)
    | CreateMemoryW(createMemory: CreateMemoryParams)
    | UpdateMemoryW(memoryId: Id, memoryPatch: MemoryPatch)
    | DeleteMemoryW(memoryId: Id)
    | CreateRelationshipW(createRelationship: CreateRelationshipParams)
    | DeleteRelationshipW(relationshipId: Id)
    | CreateIngestSourceW(rawText: string, subjectId: Option<Id>, model: string, actions: seq<Action>)

  /** One write inside a transaction: the tables first, then the graph. */
  function WriteBoth(s: Dual, w: Write): Result<Dual> {
    match w
    case CreateEntityW(p) =>
      var done :- CreateEntity(s.tables, p);
      Ok(Dual(done.tables, SyncEntity(s.graph, done.row)))
    case UpdateEntityW(id, patch) =>
      var done :- UpdateEntity(s.tables, id, patch);
      Ok(Dual(done.tables, SyncEntity(s.graph, done.row)))
    case DeleteEntityW(id) =>
      var t :- DeleteEntity(s.tables, id);
      Ok(Dual(t, DetachEntity(s.graph, id)))
    case CreateMemoryW(p) =>
      var done :- CreateMemory(s.tables, p);
      var g :- SyncMemory(done.tables, s.graph, done.row);
      Ok(Dual(done.tables, g))
    case UpdateMemoryW(id, patch) =>
      var done :- UpdateMemory(s.tables, id, patch);
      var g :- SyncMemory(done.tables, s.graph, done.row);
      Ok(Dual(done.tables, g))
    case DeleteMemoryW(id) =>
      var t :- DeleteMemory(s.tables, id);
      Ok(Dual(t, DetachMemory(s.graph, id)))
    case CreateRelationshipW(p) =>
      var done :- CreateRelationship(s.tables, p);
      var g :- SyncRelationship(done.tables, s.graph, done.row);
      Ok(Dual(done.tables, g))
    case DeleteRelationshipW(id) =>
      var t :- DeleteRelationship(s.tables, id);
      Ok(Dual(t, DeleteEdge(s.graph, id)))
    case CreateIngestSourceW(rawText, subjectId, model, actions) =>
      var done :- CreateIngestSource(s.tables, rawText, subjectId, model, actions);
      Ok(Dual(done.tables, s.graph))
  }

  // ---- agreement ----

  function EntityNodes(t: Tables): map<Id, EntityNode> {
    map i | i in t.entities :: EntityNodeOf(t.entities[i])
  }

  function EdgeKeys(t: Tables): set<EdgeKey> {
    set i | i in t.relationships :: KeyOf(t.relationships[i])
  }

  /** The RELATIONSHIP edges the relationship table stands for. */
  ghost predicate EdgesMirrored(t: Tables, g: Graph) {
    && (forall i :: i in t.relationships ==>
          KeyOf(t.relationships[i]) in g.edges && g.edges[KeyOf(t.relationships[i])] == EdgePropsOf(t.relationships[i]))
    && (forall k :: k in g.edges ==> k.id in t.relationships && KeyOf(t.relationships[k.id]) == k)
  }

  /** Every memory row has its node and its HAS_MEMORY edge, and there is no other HAS_MEMORY edge: a Memory
      node without a row is isolated. */
  ghost predicate MemoriesMirrored(t: Tables, g: Graph) {
    && (forall i :: i in t.memories ==>
          i in g.memoryNodes && g.memoryNodes[i] == MemoryNodeOf(t.memories[i])
              && (t.memories[i].entityId, i) in g.hasMemory)
    && (forall p :: p in g.hasMemory ==> p.1 in t.memories && t.memories[p.1].entityId == p.0)
  }

  ghost predicate Agrees(t: Tables, g: Graph) {
    g.entityNodes == EntityNodes(t) && EdgesMirrored(t, g) && MemoriesMirrored(t, g)
  }

  // ---- the same, property by property ----

  ghost predicate EntityMirrored(e: Entity, n: EntityNode) {
    n.name == e.name && n.kind == e.kind && n.externalId == e.externalId && n.metadata == e.metadata
  }

  ghost predicate MemoryMirrored(m: Memory, n: MemoryNode) {
    && n.entityId == m.entityId && n.category == m.category && n.content == m.content && n.confidence == m.confidence
    && n.sourceId == m.sourceId && n.expiresAt == m.expiresAt && n.metadata == m.metadata
  }

  ghost predicate EdgeMirrored(r: Relationship, n: EdgeProps) {
    n.kind == r.kind && n.weight == r.weight && n.metadata == r.metadata
  }

  /** There is an Entity node for every entity, a RELATIONSHIP edge between its ends for every relationship, and no
      other of either; every memory has its node and a HAS_MEMORY edge from its owner, and there is no other such
      edge.  Each node and edge carries the columns of its row. */
  ghost predicate Mirrors(t: Tables, g: Graph) {
    && g.entityNodes.Keys == t.entities.Keys
    && (forall i :: i in t.entities ==> EntityMirrored(t.entities[i], g.entityNodes[i]))
    && (forall i :: i in t.relationships ==>
          var r := t.relationships[i];
          EdgeKey(i, r.from, r.to) in g.edges && EdgeMirrored(r, g.edges[EdgeKey(i, r.from, r.to)]))
    && (forall k :: k in g.edges ==>
          k.id in t.relationships && t.relationships[k.id].from == k.from && t.relationships[k.id].to == k.to)
    && (forall i :: i in t.memories ==>
          && i in g.memoryNodes && MemoryMirrored(t.memories[i], g.memoryNodes[i])
          && (t.memories[i].entityId, i) in g.hasMemory)
    && (forall p :: p in g.hasMemory ==> p.1 in t.memories && p.0 == t.memories[p.1].entityId)
  }

  /** The graph the tables stand for, and nothing else. */
  ghost function Projection(t: Tables): Graph {
    Graph(EntityNodes(t),
          (map i | i in t.memories :: MemoryNodeOf(t.memories[i])),
          (set i | i in t.memories :: (t.memories[i].entityId, i)),
          (map k | k in EdgeKeys(t) && k.id in t.relationships :: EdgePropsOf(t.relationships[k.id])),
          {})
  }
}
