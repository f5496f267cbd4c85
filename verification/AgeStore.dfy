/** The AGE store: every write goes to the tables and to the graph inside one transaction, and the graph
    can be rebuilt from the tables. */
module AgeStore {
  import opened Types
  import opened Ordering
  import opened Tables
  import opened Paging
  import opened Connection
  import opened AgeGraph
  import opened AgeAgreement
  import Statements = AgeGraph

  // ---- what the loops of a rebuild have written so far ----

  function EntitiesSynced(rows: seq<Entity>): map<Id, EntityNode> {
    if rows == [] then map[]
    else
      var n := |rows| - 1;
      EntitiesSynced(rows[..n])[rows[n].id := EntityNodeOf(rows[n])]
  }

  function MemoriesSynced(rows: seq<Memory>): map<Id, MemoryNode> {
    if rows == [] then map[]
    else
      var n := |rows| - 1;
      MemoriesSynced(rows[..n])[rows[n].id := MemoryNodeOf(rows[n])]
  }

  function OwnersSynced(rows: seq<Memory>): set<(Id, Id)> {
    if rows == [] then {}
    else
      var n := |rows| - 1;
      OwnersSynced(rows[..n]) + {(rows[n].entityId, rows[n].id)}
  }

  function EdgesSynced(rows: seq<Relationship>): map<EdgeKey, EdgeProps> {
    if rows == [] then map[]
    else
      var n := |rows| - 1;
      EdgesSynced(rows[..n])[KeyOf(rows[n]) := EdgePropsOf(rows[n])]
  }

  lemma {:induction false} EntitiesSyncedFrom(t: Tables, rows: seq<Entity>)
    requires forall e :: e in rows ==> e.id in t.entities && t.entities[e.id] == e
    ensures forall i :: i in EntitiesSynced(rows) ==>
        i in t.entities && EntitiesSynced(rows)[i] == EntityNodeOf(t.entities[i])
    ensures forall e :: e in rows ==> e.id in EntitiesSynced(rows)
    decreases |rows|
  {
    if rows != [] {
      var n := |rows| - 1;
      assert rows == rows[..n] + [rows[n]] && rows[n] in rows;
      EntitiesSyncedFrom(t, rows[..n]);
    }
  }

  lemma {:induction false} MemoriesSyncedFrom(t: Tables, rows: seq<Memory>)
    requires forall m :: m in rows ==> m.id in t.memories && t.memories[m.id] == m
    ensures forall i :: i in MemoriesSynced(rows) ==>
        i in t.memories && MemoriesSynced(rows)[i] == MemoryNodeOf(t.memories[i])
    ensures forall p :: p in OwnersSynced(rows) ==> p.1 in t.memories && p.0 == t.memories[p.1].entityId
    ensures forall m :: m in rows ==> m.id in MemoriesSynced(rows) && (m.entityId, m.id) in OwnersSynced(rows)
    decreases |rows|
  {
    if rows != [] {
      var n := |rows| - 1;
      assert rows == rows[..n] + [rows[n]] && rows[n] in rows;
      MemoriesSyncedFrom(t, rows[..n]);
    }
  }

  lemma {:induction false} EdgesSyncedFrom(t: Tables, rows: seq<Relationship>)
    requires forall r :: r in rows ==> r.id in t.relationships && t.relationships[r.id] == r
    ensures forall k :: k in EdgesSynced(rows) ==>
              k.id in t.relationships && k == KeyOf(t.relationships[k.id])
                  && EdgesSynced(rows)[k] == EdgePropsOf(t.relationships[k.id])
    ensures forall r :: r in rows ==> KeyOf(r) in EdgesSynced(rows)
    decreases |rows|
  {
    if rows != [] {
      var n := |rows| - 1;
      assert rows == rows[..n] + [rows[n]] && rows[n] in rows;
      EdgesSyncedFrom(t, rows[..n]);
    }
  }

  // ---- whole listings ----

  lemma AllKeyed(t: Tables)
    requires t.Valid()
    ensures Keyed(t.entities, EntityRow, t.entities.Keys)
    ensures Keyed(t.memories, MemoryRow, t.memories.Keys)
    ensures Keyed(t.relationships, RelationshipRow, t.relationships.Keys)
  {
    RowsKeyed(t);
  }

  function AllEntities(t: Tables): (l: seq<Entity>)
    requires t.Valid()
    ensures forall e: Entity :: e in l <==> e.id in t.entities && t.entities[e.id] == e
  {
    AllKeyed(t);
    Select(t.entities, EntityRow, t.entities.Keys)
  }

  function AllMemories(t: Tables): (l: seq<Memory>)
    requires t.Valid()
    ensures forall m: Memory :: m in l <==> m.id in t.memories && t.memories[m.id] == m
  {
    AllKeyed(t);
    Select(t.memories, MemoryRow, t.memories.Keys)
  }

  function AllRelationships(t: Tables): (l: seq<Relationship>)
    requires t.Valid()
    ensures forall r: Relationship :: r in l <==> r.id in t.relationships && t.relationships[r.id] == r
  {
    AllKeyed(t);
    Select(t.relationships, RelationshipRow, t.relationships.Keys)
  }

  /** Syncing the three whole listings into an empty graph gives the projection of the tables. */
  lemma SyncedIsProjection(t: Tables)
    requires t.Valid()
    ensures EntitiesSynced(AllEntities(t)) == EntityNodes(t)
    ensures Projection(t) == Graph(EntityNodes(t), MemoriesSynced(AllMemories(t)), OwnersSynced(AllMemories(t)),
                                   EdgesSynced(AllRelationships(t)), {})
  {
    EntitiesListed(t, AllEntities(t));
    MemoriesListed(t, AllMemories(t));
    EdgesListed(t, AllRelationships(t));
  }

  lemma EntitiesListed(t: Tables, rows: seq<Entity>)
    requires t.Valid() && forall e: Entity :: e in rows <==> e.id in t.entities && t.entities[e.id] == e
    ensures EntitiesSynced(rows) == EntityNodes(t)
  {
    EntitiesSyncedFrom(t, rows);
    forall i | i in t.entities
      ensures i in EntitiesSynced(rows)
    {
      assert t.ValidEntity(i);
      assert t.entities[i] in rows;
    }
  }

  lemma MemoriesListed(t: Tables, rows: seq<Memory>)
    requires t.Valid() && forall m: Memory :: m in rows <==> m.id in t.memories && t.memories[m.id] == m
    ensures MemoriesSynced(rows) == Projection(t).memoryNodes && OwnersSynced(rows) == Projection(t).hasMemory
  {
    MemoriesSyncedFrom(t, rows);
    forall i | i in t.memories
      ensures i in MemoriesSynced(rows) && (t.memories[i].entityId, i) in OwnersSynced(rows)
    {
      assert t.ValidMemory(i);
      assert t.memories[i] in rows;
    }
  }

  lemma EdgesListed(t: Tables, rows: seq<Relationship>)
    requires t.Valid() && forall r: Relationship :: r in rows <==> r.id in t.relationships && t.relationships[r.id] == r
    ensures EdgesSynced(rows) == Projection(t).edges
  {
    hide EdgesSynced;
    EdgesSyncedFrom(t, rows);
    forall k | k in EdgeKeys(t)
      ensures k in EdgesSynced(rows) && k.id in t.relationships
    {
      EdgeListed(t, rows, k);
    }
    assert EdgesSynced(rows).Keys == Projection(t).edges.Keys;
  }

  lemma EdgeListed(t: Tables, rows: seq<Relationship>, k: EdgeKey)
    requires t.Valid() && forall r: Relationship :: r in rows <==> r.id in t.relationships && t.relationships[r.id] == r
    requires k in EdgeKeys(t)
    ensures k.id in t.relationships && t.relationships[k.id] in rows && k == KeyOf(t.relationships[k.id])
  {
    var i :| i in t.relationships && k == KeyOf(t.relationships[i]);
    assert t.ValidRelationship(i);
  }

  // ---- the store ----

  /** Success has done what is prescribed; without driver failures it succeeds exactly when that is possible. */
  ghost predicate Performs(prescribed: Result<Dual>, healthy: bool, ok: bool, now: Dual) {
    (ok ==> prescribed == Ok(now)) && (healthy ==> (ok <==> prescribed.Ok?))
  }

  class AgeStore {
    const db: Database
    var graph: Graph
    var savedGraph: Graph

    constructor (db: Database, g: Graph)
      ensures this.db == db && graph == g
    {
      this.db, graph, savedGraph := db, g, g;
    }

    /** One Cypher statement, whose effect is the graph given. */
    method CypherExec(effect: Graph) returns (r: Result<()>)
      modifies this`graph, db`faults
      ensures r == if Fails(old(db.faults)) then Err(DRIVER_FAILURE) else Ok(())
      ensures graph == if r.Ok? then effect else old(graph)
      ensures db.faults == Later(old(db.faults))
    {
      var failed := db.Attempt();
      if failed {
        return Err(DRIVER_FAILURE);
      }
      graph := effect;
      r := Ok(());
    }

    method SyncEntity(e: Entity) returns (r: Result<()>)
      modifies this`graph, db`faults
      ensures r.Ok? ==> graph == Statements.SyncEntity(old(graph), e)
      ensures old(db.faults) == [] ==> db.faults == [] && r.Ok?
    {
      r := CypherExec(MergeEntity(graph, e.id, EntityNodeOf(e)));
    }

    method SyncMemory(m: Memory) returns (r: Result<()>)
      modifies this`graph, db`faults
      ensures r.Ok? ==> Statements.SyncMemory(db.tables, old(graph), m) == Ok(graph)
      ensures r.Ok? && db.tables.Valid() ==> m.id in graph.memoryNodes && MemoryMirrored(m, graph.memoryNodes[m.id])
      ensures old(db.faults) == [] ==> db.faults == [] && (r.Ok? <==>
          Statements.SyncMemory(db.tables, old(graph), m).Ok?)
    {
      if db.tables.Valid() {
        MemorySyncColumns(db.tables, graph, m);
      }
      var entity :- db.GetEntity(m.entityId);
      var _ :- SyncEntity(entity);
      r := CypherExec(MergeMemory(graph, m.id, MemoryNodeOf(m)));
    }

    method SyncRelationship(e: Relationship) returns (r: Result<()>)
      modifies this`graph, db`faults
      ensures r.Ok? ==> Statements.SyncRelationship(db.tables, old(graph), e) == Ok(graph)
      ensures r.Ok? && db.tables.Valid() ==>
                graph.edges == old(graph.edges)[EdgeKey(e.id, e.from, e.to) := EdgeProps(e.kind, e.weight, e.metadata)]
      ensures old(db.faults) == [] ==> db.faults == [] && (r.Ok? <==>
          Statements.SyncRelationship(db.tables, old(graph), e).Ok?)
    {
      if db.tables.Valid() {
        RelationshipSyncColumns(db.tables, graph, e);
      }
      var from :- db.GetEntity(e.from);
      var _ :- SyncEntity(from);
      var to :- db.GetEntity(e.to);
      var _ :- SyncEntity(to);
      r := CypherExec(MergeEdge(graph, KeyOf(e), EdgePropsOf(e)));
    }

    // ---- dual writes ----

    /** One write inside the running transaction: the tables, then the graph. */
    method WriteInTx(w: Write) returns (r: Result<()>)
      modifies this`graph, db`tables, db`faults
      ensures Performs(WriteBoth(old(Dual(db.tables, graph)), w), old(db.faults) == [], r.Ok?, Dual(db.tables, graph))
      ensures old(db.faults) == [] ==> db.faults == []
    {
      hide CreateEntity, UpdateEntity, DeleteEntity, CreateMemory, UpdateMemory, DeleteMemory, CreateRelationship,
          DeleteRelationship;
      hide CreateIngestSource, DetachEntity, DetachMemory, DeleteEdge;
      hide Statements.SyncEntity, Statements.SyncMemory, Statements.SyncRelationship;
      match w
      case CreateEntityW(p) =>
        var entity :- db.CreateEntity(p);
        r := SyncEntity(entity);
      case UpdateEntityW(id, patch) =>
        var entity :- db.UpdateEntity(id, patch);
        r := SyncEntity(entity);
      case DeleteEntityW(id) =>
        var _ :- db.DeleteEntity(id);
        r := CypherExec(DetachEntity(graph, id));
      case CreateMemoryW(p) =>
        var memory :- db.CreateMemory(p);
        r := SyncMemory(memory);
      case UpdateMemoryW(id, patch) =>
        var memory :- db.UpdateMemory(id, patch);
        r := SyncMemory(memory);
      case DeleteMemoryW(id) =>
        var _ :- db.DeleteMemory(id);
        r := CypherExec(DetachMemory(graph, id));
      case CreateRelationshipW(p) =>
        var relationship :- db.CreateRelationship(p);
        r := SyncRelationship(relationship);
      case DeleteRelationshipW(id) =>
        var _ :- db.DeleteRelationship(id);
        r := CypherExec(DeleteEdge(graph, id));
      case CreateIngestSourceW(rawText, subjectId, model, actions) =>
        var _ :- db.CreateIngestSource(rawText, subjectId, model, actions);
        r := Ok(());
    }

    /** A transaction over both structures: all of its writes, or none. */
    method RunInTx(writes: seq<Write>) returns (r: Result<()>)
      modifies this, db
      ensures Dual(db.tables, graph) == RunTransaction(old(Dual(db.tables, graph)), Transaction(writes, r.Err?))
      ensures r.Ok? ==> WriteAll(old(Dual(db.tables, graph)), writes).Ok?
      ensures old(db.faults) == [] ==> (r.Ok? <==> WriteAll(old(Dual(db.tables, graph)), writes).Ok?)
    {
      hide WriteBoth, WriteAll;
      ghost var s := Dual(db.tables, graph);
      var _ :- db.Begin();
      savedGraph := graph;
      var i := 0;
      NothingWritten(s, writes);
      while i < |writes|
        invariant 0 <= i <= |writes|
        invariant WriteAll(s, writes[..i]) == Ok(Dual(db.tables, graph))
        invariant db.saved == s.tables && savedGraph == s.graph
        invariant old(db.faults) == [] ==> db.faults == []
      {
        WriteSnoc(s, writes, i);
        var done := WriteInTx(writes[i]);
        if done.Err? {
          if old(db.faults) == [] {
            WritesFail(s, writes, i + 1);
          }
          db.Rollback();
          graph := savedGraph;
          return Err(done.error);
        }
        i := i + 1;
      }
      assert writes[..i] == writes;
      var committed := db.Commit();
      if committed.Err? {
        graph := savedGraph;
        return Err(committed.error);
      }
      r := Ok(());
    }

    /** A write outside any transaction runs in one of its own. */
    method Write(w: Write) returns (r: Result<()>)
      modifies this, db
      ensures r.Err? ==> Dual(db.tables, graph) == old(Dual(db.tables, graph))
      ensures r.Ok? ==> WriteBoth(old(Dual(db.tables, graph)), w) == Ok(Dual(db.tables, graph))
      ensures old(db.faults) == [] ==> (r.Ok? <==> WriteBoth(old(Dual(db.tables, graph)), w).Ok?)
    {
      hide WriteBoth;
      OneWrite(Dual(db.tables, graph), w);
      r := RunInTx([w]);
    }

    // ---- rebuilding the graph ----

    /** Whatever the graph held, a successful rebuild leaves exactly the projection of the tables. */
    method Reconcile() returns (r: Result<()>)
      requires db.tables.Valid()
      modifies this`graph, db`faults
      ensures r.Ok? ==> graph == Projection(db.tables) && Mirrors(db.tables, graph)
      ensures old(db.faults) == [] ==> r.Ok?
    {
      hide *;
      NeverFails();
      SyncedIsProjection(db.tables);
      ProjectionMirrors(db.tables);
      var emptied := CypherExec(EMPTY_GRAPH);
      if emptied.Err? {
        return emptied;
      }
      r := SyncAllEntities();
      if r.Err? {
        return;
      }
      r := SyncAllMemories();
      if r.Err? {
        return;
      }
      r := SyncAllRelationships();
    }

    method SyncAllEntities() returns (r: Result<()>)
      requires db.tables.Valid() && graph == EMPTY_GRAPH
      modifies this`graph, db`faults
      ensures r.Ok? ==> graph == Graph(EntitiesSynced(AllEntities(db.tables)), map[], {}, map[], {})
      ensures old(db.faults) == [] ==> db.faults == [] && r.Ok?
    {
      hide *;
      NeverFails();
      var failed := db.Attempt();
      if failed {
        return Err(DRIVER_FAILURE);
      }
      var entities := ListAllWhileMore(AllEntities(db.tables), PAGE_SIZE);
      NothingSynced();
      var i := 0;
      while i < |entities|
        invariant 0 <= i <= |entities|
        invariant graph == Graph(EntitiesSynced(entities[..i]), map[], {}, map[], {})
        invariant old(db.faults) == [] ==> db.faults == []
      {
        EntitySnoc(graph, entities, i);
        var synced := SyncEntity(entities[i]);
        if synced.Err? {
          return synced;
        }
        i := i + 1;
      }
      assert entities[..i] == entities;
      r := Ok(());
    }

    /** Each memory syncs its owner again, which changes nothing. */
    method SyncAllMemories() returns (r: Result<()>)
      requires db.tables.Valid() && graph == Graph(EntityNodes(db.tables), map[], {}, map[], {})
      modifies this`graph, db`faults
      ensures r.Ok? ==> graph == Graph(EntityNodes(db.tables), MemoriesSynced(AllMemories(db.tables)),
                                       OwnersSynced(AllMemories(db.tables)), map[], {})
      ensures old(db.faults) == [] ==> db.faults == [] && r.Ok?
    {
      hide *;
      NeverFails();
      var failed := db.Attempt();
      if failed {
        return Err(DRIVER_FAILURE);
      }
      var memories := ListAllWhileMore(AllMemories(db.tables), PAGE_SIZE);
      NothingSynced();
      var i := 0;
      while i < |memories|
        invariant 0 <= i <= |memories|
        invariant graph
            == Graph(EntityNodes(db.tables), MemoriesSynced(memories[..i]), OwnersSynced(memories[..i]), map[], {})
        invariant old(db.faults) == [] ==> db.faults == []
      {
        MemorySnoc(db.tables, graph, memories, i);
        var synced := SyncMemory(memories[i]);
        if synced.Err? {
          return synced;
        }
        i := i + 1;
      }
      assert memories[..i] == memories;
      r := Ok(());
    }

    /** Each relationship syncs both its ends again, which changes nothing. */
    method SyncAllRelationships() returns (r: Result<()>)
      requires db.tables.Valid() && graph.entityNodes == EntityNodes(db.tables) && graph.edges == map[]
      modifies this`graph, db`faults
      ensures r.Ok? ==> graph == old(graph).(edges := EdgesSynced(AllRelationships(db.tables)))
      ensures old(db.faults) == [] ==> db.faults == [] && r.Ok?
    {
      hide *;
      NeverFails();
      var failed := db.Attempt();
      if failed {
        return Err(DRIVER_FAILURE);
      }
      var relationships := ListAllWhileMore(AllRelationships(db.tables), PAGE_SIZE);
      NothingSynced();
      var i := 0;
      while i < |relationships|
        invariant 0 <= i <= |relationships|
        invariant graph == old(graph).(edges := EdgesSynced(relationships[..i]))
        invariant old(db.faults) == [] ==> db.faults == []
      {
        EdgeSnoc(db.tables, graph, relationships, i);
        var synced := SyncRelationship(relationships[i]);
        if synced.Err? {
          return synced;
        }
        i := i + 1;
      }
      assert relationships[..i] == relationships;
      r := Ok(());
    }
  }

  lemma NeverFails()
    ensures !Fails([]) && Later([]) == []
    ensures EMPTY_GRAPH == Graph(map[], map[], {}, map[], {})
  {
  }

  lemma NothingSynced()
    ensures EntitiesSynced([]) == map[] && MemoriesSynced([]) == map[] && OwnersSynced([]) == {}
        && EdgesSynced([]) == map[]
  {
  }

  lemma EntitySnoc(g: Graph, rows: seq<Entity>, i: nat)
    requires i < |rows| && g.entityNodes == EntitiesSynced(rows[..i])
    ensures rows[..0] == []
    ensures Statements.SyncEntity(g, rows[i]) == g.(entityNodes := EntitiesSynced(rows[..i + 1]))
  {
    assert rows[..i + 1][..i] == rows[..i];
  }

  lemma MemorySnoc(t: Tables, g: Graph, rows: seq<Memory>, i: nat)
    requires t.Valid() && i < |rows| && rows == AllMemories(t) && g.entityNodes == EntityNodes(t)
    requires g.memoryNodes == MemoriesSynced(rows[..i]) && g.hasMemory == OwnersSynced(rows[..i])
    ensures Statements.SyncMemory(t, g, rows[i])
            == Ok(g.(memoryNodes := MemoriesSynced(rows[..i + 1]), hasMemory := OwnersSynced(rows[..i + 1])))
  {
    hide *;
    MemoryOwner(t, i);
    MemorySynced(t, g, rows[i]);
    MemorySyncedNext(rows, i);
  }

  lemma MemoryOwner(t: Tables, i: nat)
    requires t.Valid() && i < |AllMemories(t)|
    ensures AllMemories(t)[i].entityId in t.entities
  {
    var m := AllMemories(t)[i];
    assert m in AllMemories(t);
    hide AllMemories;
    assert t.ValidMemory(m.id);
  }

  lemma MemorySyncedNext(rows: seq<Memory>, i: nat)
    requires i < |rows|
    ensures MemoriesSynced(rows[..i + 1]) == MemoriesSynced(rows[..i])[rows[i].id := MemoryNodeOf(rows[i])]
    ensures OwnersSynced(rows[..i + 1]) == OwnersSynced(rows[..i]) + {(rows[i].entityId, rows[i].id)}
  {
    assert rows[..i + 1][..i] == rows[..i];
  }

  lemma EdgeSnoc(t: Tables, g: Graph, rows: seq<Relationship>, i: nat)
    requires t.Valid() && i < |rows| && rows == AllRelationships(t) && g.entityNodes == EntityNodes(t)
    requires g.edges == EdgesSynced(rows[..i])
    ensures Statements.SyncRelationship(t, g, rows[i]) == Ok(g.(edges := EdgesSynced(rows[..i + 1])))
  {
    hide *;
    EdgeEnds(t, i);
    RelationshipSynced(t, g, rows[i]);
    EdgeSyncedNext(rows, i);
  }

  lemma EdgeEnds(t: Tables, i: nat)
    requires t.Valid() && i < |AllRelationships(t)|
    ensures AllRelationships(t)[i].from in t.entities && AllRelationships(t)[i].to in t.entities
  {
    var r := AllRelationships(t)[i];
    assert r in AllRelationships(t);
    hide AllRelationships;
    assert t.ValidRelationship(r.id);
  }

  lemma EdgeSyncedNext(rows: seq<Relationship>, i: nat)
    requires i < |rows|
    ensures EdgesSynced(rows[..i + 1]) == EdgesSynced(rows[..i])[KeyOf(rows[i]) := EdgePropsOf(rows[i])]
  {
    assert rows[..i + 1][..i] == rows[..i];
  }

  lemma OneWrite(s: Dual, w: Write)
    ensures WriteAll(s, [w]) == WriteBoth(s, w)
  {
    hide WriteBoth;
    assert [w][..0] == [];
    assert WriteAll(s, []) == Ok(s);
  }

  lemma NothingWritten(s: Dual, writes: seq<Write>)
    ensures WriteAll(s, writes[..0]) == Ok(s)
  {
  }

  lemma WriteSnoc(s: Dual, writes: seq<Write>, i: nat)
    requires i < |writes| && WriteAll(s, writes[..i]).Ok?
    ensures WriteAll(s, writes[..i + 1]) == WriteBoth(WriteAll(s, writes[..i]).value, writes[i])
  {
    hide WriteBoth;
    assert writes[..i + 1][..i] == writes[..i];
  }

  lemma {:induction false} WritesFail(s: Dual, writes: seq<Write>, i: nat)
    requires i <= |writes| && WriteAll(s, writes[..i]).Err?
    ensures WriteAll(s, writes).Err?
    decreases |writes|
  {
    hide WriteBoth;
    if i == |writes| {
      assert writes[..i] == writes;
    } else {
      assert writes[..|writes| - 1][..i] == writes[..i];
      WritesFail(s, writes[..|writes| - 1], i);
    }
  }
}
