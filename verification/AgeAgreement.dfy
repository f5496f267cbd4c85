/** The graph agrees with the tables after every sequence of transactions, committed or rolled back. */
module AgeAgreement {
  import opened Types
  import opened Tables
  import opened AgeGraph

  // ---- what agreement means for each property ----

  lemma EntitiesMirror(t: Tables, g: Graph)
    ensures g.entityNodes == EntityNodes(t)
            <==> && g.entityNodes.Keys == t.entities.Keys
                 && forall i :: i in t.entities ==> EntityMirrored(t.entities[i], g.entityNodes[i])
  {
    if g.entityNodes.Keys == t.entities.Keys
       && forall i :: i in t.entities ==> EntityMirrored(t.entities[i], g.entityNodes[i]) {
      assert EntityNodes(t).Keys == t.entities.Keys;
      assert forall i :: i in t.entities ==> g.entityNodes[i] == EntityNodes(t)[i];
    }
  }

  lemma EdgesMirror(t: Tables, g: Graph)
    requires forall i :: i in t.relationships ==> t.relationships[i].id == i
    ensures EdgesMirrored(t, g)
            <==> && (forall i :: i in t.relationships ==>
                       var r := t.relationships[i];
                       EdgeKey(i, r.from, r.to) in g.edges && EdgeMirrored(r, g.edges[EdgeKey(i, r.from, r.to)]))
                 && (forall k :: k in g.edges ==>
                       && k.id in t.relationships
                       && t.relationships[k.id].from == k.from && t.relationships[k.id].to == k.to)
  {
    assert forall i :: i in t.relationships ==>
        KeyOf(t.relationships[i]) == EdgeKey(i, t.relationships[i].from, t.relationships[i].to);
  }

  lemma MemoriesMirror(t: Tables, g: Graph)
    ensures MemoriesMirrored(t, g)
            <==> && (forall i :: i in t.memories ==>
                       && i in g.memoryNodes && MemoryMirrored(t.memories[i], g.memoryNodes[i])
                       && (t.memories[i].entityId, i) in g.hasMemory)
                 && (forall p :: p in g.hasMemory ==> p.1 in t.memories && p.0 == t.memories[p.1].entityId)
  {
  }

  /** Graph and tables agree exactly when every node and edge carries the columns of its row, one by one. */
  lemma AgreesIffMirrors(t: Tables, g: Graph)
    requires t.Valid()
    ensures Agrees(t, g) <==> Mirrors(t, g)
  {
    hide *;
    RowsKeyed(t);
    KeyedAgree(t, g);
  }

  lemma KeyedAgree(t: Tables, g: Graph)
    requires forall i :: i in t.relationships ==> t.relationships[i].id == i
    ensures Agrees(t, g) <==> Mirrors(t, g)
  {
    EntitiesMirror(t, g);
    EdgesMirror(t, g);
    MemoriesMirror(t, g);
    hide EntityNodes, EdgesMirrored, MemoriesMirrored, EntityMirrored, EdgeMirrored, MemoryMirrored;
  }

  /** The projection mirrors the tables and holds nothing else. */
  lemma ProjectionMirrors(t: Tables)
    requires t.Valid()
    ensures var g := Projection(t);
            && Mirrors(t, g) && g.others == {}
            && g.memoryNodes.Keys == t.memories.Keys && |g.edges| == |t.relationships|
  {
    hide *;
    ExactWhenNoExtra(t, Projection(t));
    AgreesIffMirrors(t, Projection(t));
    RowsKeyed(t);
    OneEdgeEach(t, t.relationships.Keys);
    ProjectedEdges(t);
  }

  lemma ProjectedEdges(t: Tables)
    requires forall i :: i in t.relationships ==> t.relationships[i].id == i
    ensures Projection(t).edges.Keys == KeysOfRows(t, t.relationships.Keys)
  {
  }

  ghost function KeysOfRows(t: Tables, ids: set<Id>): set<EdgeKey>
    requires ids <= t.relationships.Keys
  {
    set i | i in ids :: EdgeKey(i, t.relationships[i].from, t.relationships[i].to)
  }

  lemma {:induction false} OneEdgeEach(t: Tables, ids: set<Id>)
    requires ids <= t.relationships.Keys
    ensures |KeysOfRows(t, ids)| == |ids|
    decreases |ids|
  {
    if ids != {} {
      var i :| i in ids;
      OneEdgeEach(t, ids - {i});
      var r := t.relationships[i];
      assert KeysOfRows(t, ids) == KeysOfRows(t, ids - {i}) + {EdgeKey(i, r.from, r.to)};
    }
  }

  /** Merging a relationship sets its edge, with its columns, and both its ends' nodes. */
  lemma RelationshipSyncColumns(t: Tables, g: Graph, r: Relationship)
    requires t.Valid()
    ensures var s := SyncRelationship(t, g, r);
            && (s.Ok? <==> r.from in t.entities && r.to in t.entities)
            && (s.Ok? ==>
                  && s.value.edges == g.edges[EdgeKey(r.id, r.from, r.to) := EdgeProps(r.kind, r.weight, r.metadata)]
                  && s.value.memoryNodes == g.memoryNodes && s.value.hasMemory == g.hasMemory
                  && s.value.entityNodes.Keys == g.entityNodes.Keys + {r.from, r.to}
                  && EntityMirrored(t.entities[r.from], s.value.entityNodes[r.from])
                  && EntityMirrored(t.entities[r.to], s.value.entityNodes[r.to])
                  && forall i :: i in g.entityNodes && i != r.from && i != r.to ==>
                       s.value.entityNodes[i] == g.entityNodes[i])
  {
    RowsKeyed(t);
    hide Tables.Valid;
  }

  /** Merging a memory sets its node, with its columns, its HAS_MEMORY edge and its owner's node. */
  lemma MemorySyncColumns(t: Tables, g: Graph, m: Memory)
    requires t.Valid()
    ensures var s := SyncMemory(t, g, m);
            && (s.Ok? <==> m.entityId in t.entities)
            && (s.Ok? ==>
                  && s.value.memoryNodes.Keys == g.memoryNodes.Keys + {m.id}
                  && MemoryMirrored(m, s.value.memoryNodes[m.id])
                  && (forall i :: i in g.memoryNodes && i != m.id ==> s.value.memoryNodes[i] == g.memoryNodes[i])
                  && s.value.hasMemory == g.hasMemory + {(m.entityId, m.id)} && s.value.edges == g.edges
                  && s.value.entityNodes.Keys == g.entityNodes.Keys + {m.entityId}
                  && EntityMirrored(t.entities[m.entityId], s.value.entityNodes[m.entityId])
                  && forall i :: i in g.entityNodes && i != m.entityId ==> s.value.entityNodes[i] == g.entityNodes[i])
  {
    RowsKeyed(t);
    hide Tables.Valid;
  }

  // ---- one statement pair at a time ----

  /** Syncing an entity whose row is in the table changes nothing else. */
  lemma EntitySynced(t: Tables, g: Graph, e: Entity)
    requires g.entityNodes == EntityNodes(t)
    ensures SyncEntity(g, e) == g.(entityNodes := EntityNodes(t)[e.id := EntityNodeOf(e)])
    ensures e.id in t.entities && t.entities[e.id] == e ==> SyncEntity(g, e) == g
  {
    if e.id in t.entities && t.entities[e.id] == e {
      assert g.entityNodes[e.id := EntityNodeOf(e)] == g.entityNodes;
    }
  }

  lemma EntityWritten(t: Tables, g: Graph, e: Entity, t': Tables)
    requires Agrees(t, g)
    requires t'.entities == t.entities[e.id := e] && t'.memories == t.memories && t'.relationships == t.relationships
    ensures Agrees(t', SyncEntity(g, e))
  {
    assert EntityNodes(t') == EntityNodes(t)[e.id := EntityNodeOf(e)];
  }

  lemma EntityDeleted(t: Tables, g: Graph, id: Id)
    requires Agrees(t, g)
    ensures Agrees(WithoutEntity(t, id), DetachEntity(g, id))
  {
    NodeDetached(t, g, id);
    EdgesDetached(t, g, id);
    MemoriesDetached(t, g, id);
    hide WithoutEntity, DetachEntity, EdgesMirrored, MemoriesMirrored, EntityNodes;
  }

  lemma NodeDetached(t: Tables, g: Graph, id: Id)
    requires g.entityNodes == EntityNodes(t)
    ensures DetachEntity(g, id).entityNodes == EntityNodes(WithoutEntity(t, id))
  {
  }

  lemma EdgesDetached(t: Tables, g: Graph, id: Id)
    requires EdgesMirrored(t, g)
    ensures EdgesMirrored(WithoutEntity(t, id), DetachEntity(g, id))
  {
  }

  lemma MemoriesDetached(t: Tables, g: Graph, id: Id)
    requires MemoriesMirrored(t, g)
    ensures MemoriesMirrored(WithoutEntity(t, id), DetachEntity(g, id))
  {
  }

  /** A memory whose owner is stored syncs without touching the entity nodes. */
  lemma MemorySynced(t: Tables, g: Graph, m: Memory)
    requires t.Valid() && g.entityNodes == EntityNodes(t) && m.entityId in t.entities
    ensures SyncMemory(t, g, m)
            == Ok(g.(memoryNodes := g.memoryNodes[m.id := MemoryNodeOf(m)],
                hasMemory := g.hasMemory + {(m.entityId, m.id)}))
  {
    assert t.ValidEntity(m.entityId);
    hide Tables.Valid;
    EntitySynced(t, g, t.entities[m.entityId]);
  }

  lemma MemoryWritten(t: Tables, g: Graph, m: Memory, t': Tables)
    requires Agrees(t, g) && t'.Valid()
    requires t'.memories == t.memories[m.id := m] && t'.entities == t.entities && t'.relationships == t.relationships
    requires m.id in t.memories ==> t.memories[m.id].entityId == m.entityId
    ensures SyncMemory(t', g, m).Ok? && Agrees(t', SyncMemory(t', g, m).value)
  {
    hide *;
    OwnerStored(t', m.id);
    NodesAgree(t, g, t');
    MemorySynced(t', g, m);
    MemoryAdded(t, g, m, t');
  }

  lemma OwnerStored(t: Tables, id: Id)
    requires t.Valid() && id in t.memories
    ensures t.memories[id].entityId in t.entities
  {
    assert t.ValidMemory(id);
  }

  lemma NodesAgree(t: Tables, g: Graph, t': Tables)
    requires Agrees(t, g) && t'.entities == t.entities
    ensures g.entityNodes == EntityNodes(t')
  {
  }

  lemma MemoryAdded(t: Tables, g: Graph, m: Memory, t': Tables)
    requires Agrees(t, g)
    requires t'.memories == t.memories[m.id := m] && t'.entities == t.entities && t'.relationships == t.relationships
    requires m.id in t.memories ==> t.memories[m.id].entityId == m.entityId
    ensures Agrees(t', g.(memoryNodes := g.memoryNodes[m.id := MemoryNodeOf(m)],
                          hasMemory := g.hasMemory + {(m.entityId, m.id)}))
  {
  }

  lemma MemoryDeleted(t: Tables, g: Graph, id: Id)
    requires Agrees(t, g)
    ensures Agrees(t.(memories := t.memories - {id}), DetachMemory(g, id))
  {
  }

  /** An edge whose ends are stored syncs without touching the nodes. */
  lemma RelationshipSynced(t: Tables, g: Graph, r: Relationship)
    requires t.Valid() && g.entityNodes == EntityNodes(t) && r.from in t.entities && r.to in t.entities
    ensures SyncRelationship(t, g, r) == Ok(g.(edges := g.edges[KeyOf(r) := EdgePropsOf(r)]))
  {
    assert t.ValidEntity(r.from) && t.ValidEntity(r.to);
    hide Tables.Valid;
    EntitySynced(t, g, t.entities[r.from]);
    EntitySynced(t, g, t.entities[r.to]);
  }

  lemma RelationshipWritten(t: Tables, g: Graph, r: Relationship, t': Tables)
    requires Agrees(t, g) && t'.Valid() && r.id !in t.relationships
    requires t'.relationships == t.relationships[r.id := r] && t'.entities == t.entities && t'.memories == t.memories
    ensures SyncRelationship(t', g, r).Ok? && Agrees(t', SyncRelationship(t', g, r).value)
  {
    hide *;
    EndsStored(t', r.id);
    NodesAgree(t, g, t');
    RelationshipSynced(t', g, r);
    EdgeAdded(t, g, r, t');
  }

  lemma EndsStored(t: Tables, id: Id)
    requires t.Valid() && id in t.relationships
    ensures t.relationships[id].from in t.entities && t.relationships[id].to in t.entities
    ensures t.relationships[id].id == id
  {
    assert t.ValidRelationship(id);
  }

  lemma EdgeAdded(t: Tables, g: Graph, r: Relationship, t': Tables)
    requires Agrees(t, g) && r.id !in t.relationships
    requires t'.relationships == t.relationships[r.id := r] && t'.entities == t.entities && t'.memories == t.memories
    ensures Agrees(t', g.(edges := g.edges[KeyOf(r) := EdgePropsOf(r)]))
  {
  }

  lemma RelationshipDeleted(t: Tables, g: Graph, id: Id)
    requires t.Valid() && Agrees(t, g)
    ensures Agrees(t.(relationships := t.relationships - {id}), DeleteEdge(g, id))
  {
    hide *;
    RowsKeyed(t);
    EdgeRemoved(t, g, id);
  }

  lemma EdgeRemoved(t: Tables, g: Graph, id: Id)
    requires Agrees(t, g) && forall i :: i in t.relationships ==> t.relationships[i].id == i
    ensures Agrees(t.(relationships := t.relationships - {id}), DeleteEdge(g, id))
  {
  }

  // ---- one write ----

  function TablesAfter<T>(w: Result<Wrote<T>>): Result<Tables> {
    match w case Ok(done) => Ok(done.tables) case Err(error) => Err(error)
  }

  /** What the table half of a write does, whatever the graph. */
  function TablesOf(t: Tables, w: Write): Result<Tables> {
    match w
    case CreateEntityW(p) => TablesAfter(CreateEntity(t, p))
    case UpdateEntityW(id, patch) => TablesAfter(UpdateEntity(t, id, patch))
    case DeleteEntityW(id) => DeleteEntity(t, id)
    case CreateMemoryW(p) => TablesAfter(CreateMemory(t, p))
    case UpdateMemoryW(id, patch) => TablesAfter(UpdateMemory(t, id, patch))
    case DeleteMemoryW(id) => DeleteMemory(t, id)
    case CreateRelationshipW(p) => TablesAfter(CreateRelationship(t, p))
    case DeleteRelationshipW(id) => DeleteRelationship(t, id)
    case CreateIngestSourceW(rawText, subjectId, model, actions) =>
      TablesAfter(CreateIngestSource(t, rawText, subjectId, model, actions))
  }

  // ---- the rows a write changes ----

  /** The written row, and what the tables look like then. */
  ghost predicate EntityRowWritten(t: Tables, w: Wrote<Entity>) {
    && w.tables.entities == t.entities[w.row.id := w.row]
    && w.tables.memories == t.memories && w.tables.relationships == t.relationships
  }

  ghost predicate MemoryRowWritten(t: Tables, w: Wrote<Memory>) {
    && w.tables.memories == t.memories[w.row.id := w.row]
    && w.tables.entities == t.entities && w.tables.relationships == t.relationships
    && (w.row.id in t.memories ==> t.memories[w.row.id].entityId == w.row.entityId)
  }

  ghost predicate RelationshipRowWritten(t: Tables, w: Wrote<Relationship>) {
    && w.row.id !in t.relationships
    && w.tables.relationships == t.relationships[w.row.id := w.row]
    && w.tables.entities == t.entities && w.tables.memories == t.memories
  }

  lemma CreateEntityRow(t: Tables, p: CreateEntityParams)
    ensures CreateEntity(t, p).Ok? ==> EntityRowWritten(t, CreateEntity(t, p).value)
  {
  }

  lemma UpdateEntityRow(t: Tables, id: Id, p: EntityPatch)
    requires t.Valid()
    ensures UpdateEntity(t, id, p).Ok? ==> EntityRowWritten(t, UpdateEntity(t, id, p).value)
  {
    hide *;
    RowsKeyed(t);
    PatchedEntityRow(t, id, p);
  }

  lemma PatchedEntityRow(t: Tables, id: Id, p: EntityPatch)
    requires id in t.entities ==> t.entities[id].id == id
    ensures UpdateEntity(t, id, p).Ok? ==> EntityRowWritten(t, UpdateEntity(t, id, p).value)
  {
    hide ExternalIdTaken;
    if id in t.entities {
      assert t.entities[id := t.entities[id]] == t.entities;
    }
  }

  lemma CreateMemoryRow(t: Tables, p: CreateMemoryParams)
    requires t.Valid()
    ensures CreateMemory(t, p).Ok? ==> MemoryRowWritten(t, CreateMemory(t, p).value)
  {
    FreshId(t);
  }

  lemma UpdateMemoryRow(t: Tables, id: Id, p: MemoryPatch)
    requires t.Valid()
    ensures UpdateMemory(t, id, p).Ok? ==> MemoryRowWritten(t, UpdateMemory(t, id, p).value)
  {
    hide *;
    RowsKeyed(t);
    PatchedMemoryRow(t, id, p);
  }

  lemma PatchedMemoryRow(t: Tables, id: Id, p: MemoryPatch)
    requires id in t.memories ==> t.memories[id].id == id
    ensures UpdateMemory(t, id, p).Ok? ==> MemoryRowWritten(t, UpdateMemory(t, id, p).value)
  {
    if id in t.memories {
      assert t.memories[id := t.memories[id]] == t.memories;
    }
  }

  lemma CreateRelationshipRow(t: Tables, p: CreateRelationshipParams)
    requires t.Valid()
    ensures CreateRelationship(t, p).Ok? ==> RelationshipRowWritten(t, CreateRelationship(t, p).value)
  {
    FreshId(t);
  }

  lemma SourceRow(t: Tables, g: Graph, rawText: string, subjectId: Option<Id>, model: string, actions: seq<Action>)
    requires Agrees(t, g)
    ensures var w := CreateIngestSource(t, rawText, subjectId, model, actions); w.Ok? ==> Agrees(w.value.tables, g)
  {
  }

  /** From agreement, a write fails only if its statement on the tables fails: no sync ever misses an
      entity.  Otherwise the two sides agree again. */
  lemma WriteAgrees(s: Dual, w: Write)
    requires s.tables.Valid() && Agrees(s.tables, s.graph)
    ensures WriteBoth(s, w).Ok? <==> TablesOf(s.tables, w).Ok?
    ensures var r := WriteBoth(s, w);
            r.Ok? ==> && r.value.tables == TablesOf(s.tables, w).value
                      && r.value.tables.Valid() && Agrees(r.value.tables, r.value.graph)
  {
    hide Agrees, SyncEntity, SyncMemory, SyncRelationship, DetachEntity, DetachMemory, DeleteEdge;
    hide CreateEntity, UpdateEntity, CreateMemory, UpdateMemory, CreateRelationship, CreateIngestSource;
    var t, g := s.tables, s.graph;
    match w
    case CreateEntityW(p) =>
      CreateEntityRow(t, p);
      if CreateEntity(t, p).Ok? {
        EntityWritten(t, g, CreateEntity(t, p).value.row, CreateEntity(t, p).value.tables);
      }
    case UpdateEntityW(id, patch) =>
      UpdateEntityRow(t, id, patch);
      if UpdateEntity(t, id, patch).Ok? {
        EntityWritten(t, g, UpdateEntity(t, id, patch).value.row, UpdateEntity(t, id, patch).value.tables);
      }
    case DeleteEntityW(id) => EntityDeleted(t, g, id);
    case CreateMemoryW(p) =>
      CreateMemoryRow(t, p);
      if CreateMemory(t, p).Ok? {
        MemoryWritten(t, g, CreateMemory(t, p).value.row, CreateMemory(t, p).value.tables);
      }
    case UpdateMemoryW(id, patch) =>
      UpdateMemoryRow(t, id, patch);
      if UpdateMemory(t, id, patch).Ok? {
        MemoryWritten(t, g, UpdateMemory(t, id, patch).value.row, UpdateMemory(t, id, patch).value.tables);
      }
    case DeleteMemoryW(id) => MemoryDeleted(t, g, id);
    case CreateRelationshipW(p) =>
      CreateRelationshipRow(t, p);
      if CreateRelationship(t, p).Ok? {
        RelationshipWritten(t, g, CreateRelationship(t, p).value.row, CreateRelationship(t, p).value.tables);
      }
    case DeleteRelationshipW(id) => RelationshipDeleted(t, g, id);
    case CreateIngestSourceW(rawText, subjectId, model, actions) => SourceRow(t, g, rawText, subjectId, model, actions);
  }

  // ---- transactions ----

  /** A transaction's writes, in order; the first failure ends it. */
  function WriteAll(s: Dual, writes: seq<Write>): Result<Dual> {
    if writes == [] then Ok(s)
    else
      var n := |writes| - 1;
      var done :- WriteAll(s, writes[..n]);
      WriteBoth(done, writes[n])
  }

  /** The same writes on the tables alone. */
  function WriteTables(t: Tables, writes: seq<Write>): Result<Tables> {
    if writes == [] then Ok(t)
    else
      var n := |writes| - 1;
      var done :- WriteTables(t, writes[..n]);
      TablesOf(done, writes[n])
  }

  /** A transaction with its fate: it may be rolled back although every write went through. */
  datatype Transaction = Transaction(writes: seq<Write>, aborted: bool)

  function RunTransaction(s: Dual, tx: Transaction): Dual {
    match WriteAll(s, tx.writes)
    case Ok(done) => if tx.aborted then s else done
    case Err(_) => s
  }

  /** From agreement, the graph half never makes a transaction fail, and the two sides agree afterwards. */
  lemma {:induction false} WritesAgree(s: Dual, writes: seq<Write>)
    requires s.tables.Valid() && Agrees(s.tables, s.graph)
    ensures WriteAll(s, writes).Ok? <==> WriteTables(s.tables, writes).Ok?
    ensures var r := WriteAll(s, writes);
            r.Ok? ==> && r.value.tables == WriteTables(s.tables, writes).value
                      && r.value.tables.Valid() && Agrees(r.value.tables, r.value.graph)
    decreases |writes|
  {
    hide Agrees, WriteBoth, TablesOf;
    if writes != [] {
      var n := |writes| - 1;
      WritesAgree(s, writes[..n]);
      if WriteAll(s, writes[..n]).Ok? {
        WriteAgrees(WriteAll(s, writes[..n]).value, writes[n]);
      }
    }
  }

  function RunHistory(s: Dual, txs: seq<Transaction>): Dual {
    if txs == [] then s else RunTransaction(RunHistory(s, txs[..|txs| - 1]), txs[|txs| - 1])
  }

  /** After any history of transactions, committed or rolled back: the Entity nodes and RELATIONSHIP edges are
      those of the tables, every memory has its node and edge, and a Memory node without a row is isolated. */
  lemma {:induction false} HistoryAgrees(s: Dual, txs: seq<Transaction>)
    requires s.tables.Valid() && Agrees(s.tables, s.graph)
    ensures var s' := RunHistory(s, txs);
            s'.tables.Valid() && Agrees(s'.tables, s'.graph) && Mirrors(s'.tables, s'.graph)
    ensures var s' := RunHistory(s, txs);
            forall m :: m in s'.graph.memoryNodes && m !in s'.tables.memories ==> forall p ::
                p in s'.graph.hasMemory ==> p.1 != m
    decreases |txs|
  {
    hide *;
    var s' := RunHistory(s, txs);
    if txs == [] {
      NoTransactions(s);
    } else {
      var n := |txs| - 1;
      var before := RunHistory(s, txs[..n]);
      HistoryAgrees(s, txs[..n]);
      WritesAgree(before, txs[n].writes);
      LastTransaction(s, txs);
    }
    AgreesIffMirrors(s'.tables, s'.graph);
    LeftoversIsolated(s'.tables, s'.graph);
  }

  lemma NoTransactions(s: Dual)
    ensures RunHistory(s, []) == s
  {
  }

  lemma LastTransaction(s: Dual, txs: seq<Transaction>)
    requires txs != []
    ensures var n := |txs| - 1;
            var before := RunHistory(s, txs[..n]);
            var after := WriteAll(before, txs[n].writes);
            RunHistory(s, txs) == if after.Ok? && !txs[n].aborted then after.value else before
  {
    hide WriteAll;
  }

  lemma LeftoversIsolated(t: Tables, g: Graph)
    requires Mirrors(t, g)
    ensures forall m :: m in g.memoryNodes && m !in t.memories ==> forall p :: p in g.hasMemory ==> p.1 != m
  {
  }

  // ---- exactly when nothing is left behind ----

  lemma EdgesExact(t: Tables, g: Graph)
    requires t.Valid()
    ensures EdgesMirrored(t, g) <==> g.edges == Projection(t).edges
  {
    forall i | i in t.relationships
      ensures KeyOf(t.relationships[i]) in EdgeKeys(t) && KeyOf(t.relationships[i]).id == i
    {
      assert t.ValidRelationship(i);
    }
    EdgesMatch(t, g);
  }

  lemma EdgesMatch(t: Tables, g: Graph)
    requires forall i :: i in t.relationships ==>
        KeyOf(t.relationships[i]) in EdgeKeys(t) && KeyOf(t.relationships[i]).id == i
    ensures EdgesMirrored(t, g) <==> g.edges == Projection(t).edges
  {
    var p := Projection(t);
    assert p.edges.Keys == EdgeKeys(t);
    if EdgesMirrored(t, g) {
      assert g.edges.Keys == p.edges.Keys;
      assert g.edges == p.edges;
    }
  }

  lemma MemoriesExact(t: Tables, g: Graph)
    ensures MemoriesMirrored(t, g) && g.memoryNodes.Keys == t.memories.Keys <==>
            g.memoryNodes == Projection(t).memoryNodes && g.hasMemory == Projection(t).hasMemory
  {
    hide *;
    if MemoriesMirrored(t, g) && g.memoryNodes.Keys == t.memories.Keys {
      MemoriesProjected(t, g);
    }
    if g.memoryNodes == Projection(t).memoryNodes && g.hasMemory == Projection(t).hasMemory {
      ProjectedMemories(t, g);
    }
  }

  lemma MemoriesProjected(t: Tables, g: Graph)
    requires MemoriesMirrored(t, g) && g.memoryNodes.Keys == t.memories.Keys
    ensures g.memoryNodes == Projection(t).memoryNodes && g.hasMemory == Projection(t).hasMemory
  {
    assert g.hasMemory == Projection(t).hasMemory;
    assert g.memoryNodes == Projection(t).memoryNodes;
  }

  lemma ProjectedMemories(t: Tables, g: Graph)
    requires g.memoryNodes == Projection(t).memoryNodes && g.hasMemory == Projection(t).hasMemory
    ensures MemoriesMirrored(t, g) && g.memoryNodes.Keys == t.memories.Keys
  {
  }

  lemma ExactWhenNoExtra(t: Tables, g: Graph)
    requires t.Valid()
    ensures g == Projection(t) <==> Agrees(t, g) && g.memoryNodes.Keys == t.memories.Keys && g.others == {}
  {
    hide EdgesMirrored, MemoriesMirrored, EntityNodes, EdgeKeys;
    EdgesExact(t, g);
    MemoriesExact(t, g);
  }

  /** Which Memory nodes a write leaves, against which rows. */
  lemma NodesAfter(s: Dual, w: Write)
    requires s.tables.Valid() && Agrees(s.tables, s.graph) && WriteBoth(s, w).Ok?
    requires s.graph.memoryNodes.Keys == s.tables.memories.Keys
    ensures var s' := WriteBoth(s, w).value;
            && s'.graph.others == s.graph.others
            && (!w.DeleteEntityW? ==> s'.graph.memoryNodes.Keys == s'.tables.memories.Keys)
            && (w.DeleteEntityW? ==> s'.graph.memoryNodes.Keys == s.tables.memories.Keys
                                     && s'.tables.memories.Keys == set m | m in s.tables.memories
                                         && s.tables.memories[m].entityId != w.entityId)
  {
    hide CreateEntity, UpdateEntity, CreateMemory, UpdateMemory, CreateRelationship, CreateIngestSource;
    hide Agrees, SyncEntity, SyncMemory, SyncRelationship, DetachEntity, DetachMemory, DeleteEdge;
    hide EntityRowWritten, MemoryRowWritten, RelationshipRowWritten, DeleteEntity, DeleteMemory, DeleteRelationship;
    var t := s.tables;
    match w
    case CreateEntityW(p) =>
      CreateEntityRow(t, p);
      EntityNodeSet(s, CreateEntity(t, p).value);
    case UpdateEntityW(id, patch) =>
      UpdateEntityRow(t, id, patch);
      EntityNodeSet(s, UpdateEntity(t, id, patch).value);
    case DeleteEntityW(id) => EntityNodeDropped(s, id);
    case DeleteMemoryW(id) => MemoryNodeDropped(s, id);
    case DeleteRelationshipW(id) => EdgeDropped(s, id);
    case CreateMemoryW(p) =>
      CreateMemoryRow(t, p);
      MemoryNodeAdded(s, CreateMemory(t, p).value);
    case UpdateMemoryW(id, patch) =>
      UpdateMemoryRow(t, id, patch);
      MemoryNodeAdded(s, UpdateMemory(t, id, patch).value);
    case CreateRelationshipW(p) =>
      CreateRelationshipRow(t, p);
      EdgeNodeAdded(s, CreateRelationship(t, p).value);
    case CreateIngestSourceW(rawText, subjectId, model, actions) => SourceKeepsMemories(t, rawText, subjectId, model,
        actions);
  }

  lemma EntityNodeSet(s: Dual, w: Wrote<Entity>)
    requires EntityRowWritten(s.tables, w)
    ensures var g := SyncEntity(s.graph, w.row);
            g.memoryNodes == s.graph.memoryNodes && g.others == s.graph.others && w.tables.memories == s.tables.memories
  {
  }

  lemma EntityNodeDropped(s: Dual, id: Id)
    ensures var g := DetachEntity(s.graph, id); g.memoryNodes == s.graph.memoryNodes && g.others == s.graph.others
    ensures var t := DeleteEntity(s.tables, id);
            t.Ok? ==> t.value.memories.Keys == set m | m in s.tables.memories && s.tables.memories[m].entityId != id
  {
  }

  lemma MemoryNodeDropped(s: Dual, id: Id)
    ensures var g := DetachMemory(s.graph, id);
            g.memoryNodes.Keys == s.graph.memoryNodes.Keys - {id} && g.others == s.graph.others
    ensures var t := DeleteMemory(s.tables, id); t.Ok? ==> t.value.memories.Keys == s.tables.memories.Keys - {id}
  {
  }

  lemma EdgeDropped(s: Dual, id: Id)
    ensures var g := DeleteEdge(s.graph, id); g.memoryNodes == s.graph.memoryNodes && g.others == s.graph.others
    ensures var t := DeleteRelationship(s.tables, id); t.Ok? ==> t.value.memories == s.tables.memories
  {
  }

  lemma MemoryNodeAdded(s: Dual, w: Wrote<Memory>)
    requires s.tables.Valid() && Agrees(s.tables, s.graph) && w.tables.Valid() && MemoryRowWritten(s.tables, w)
    ensures SyncMemory(w.tables, s.graph, w.row).Ok?
    ensures var g := SyncMemory(w.tables, s.graph, w.row).value;
            g.memoryNodes.Keys == s.graph.memoryNodes.Keys + {w.row.id} && g.others == s.graph.others
            && w.tables.memories.Keys == s.tables.memories.Keys + {w.row.id}
  {
    assert w.tables.ValidMemory(w.row.id);
    MemorySynced(w.tables, s.graph, w.row);
  }

  lemma EdgeNodeAdded(s: Dual, w: Wrote<Relationship>)
    requires s.tables.Valid() && Agrees(s.tables, s.graph) && w.tables.Valid() && RelationshipRowWritten(s.tables, w)
    ensures SyncRelationship(w.tables, s.graph, w.row).Ok?
    ensures var g := SyncRelationship(w.tables, s.graph, w.row).value;
            g.memoryNodes == s.graph.memoryNodes && g.others == s.graph.others && w.tables.memories == s.tables.memories
  {
    assert w.tables.ValidRelationship(w.row.id);
    RelationshipSynced(w.tables, s.graph, w.row);
  }

  lemma SourceKeepsMemories(t: Tables, rawText: string, subjectId: Option<Id>, model: string, actions: seq<Action>)
    ensures var w := CreateIngestSource(t, rawText, subjectId, model, actions); w.Ok? ==>
        w.value.tables.memories == t.memories
  {
  }

  /** A write keeps the graph an exact projection, unless it deletes an entity that has memories: their rows
      go with it, their nodes stay. */
  lemma ExactIff(s: Dual, w: Write)
    requires s.tables.Valid() && s.graph == Projection(s.tables) && WriteBoth(s, w).Ok?
    ensures var s' := WriteBoth(s, w).value;
            s'.graph == Projection(s'.tables) <==>
            !(w.DeleteEntityW? && exists m :: m in s.tables.memories && s.tables.memories[m].entityId == w.entityId)
  {
    hide WriteBoth, Agrees, Projection, TablesOf;
    var s' := WriteBoth(s, w).value;
    ExactWhenNoExtra(s.tables, s.graph);
    WriteAgrees(s, w);
    NodesAfter(s, w);
    ExactWhenNoExtra(s'.tables, s'.graph);
    if w.DeleteEntityW? {
      KeysLost(s.tables.memories, w.entityId);
    }
  }

  lemma KeysLost(memories: map<Id, Memory>, entityId: Id)
    ensures (memories.Keys == set m | m in memories && memories[m].entityId != entityId) <==>
            !exists m :: m in memories && memories[m].entityId == entityId
  {
    var kept := set m | m in memories && memories[m].entityId != entityId;
    if exists m :: m in memories && memories[m].entityId == entityId {
      var m :| m in memories && memories[m].entityId == entityId;
      assert m !in kept;
    }
  }
}
