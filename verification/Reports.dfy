/** What the answer of an ingest reports of each step, and the columns of the rows it created. */
module Reports {
  import opened Types
  import opened Ordering
  import opened Tables
  import opened Planner
  import opened PlanProperties
  import opened Commit
  import opened CommitEntities
  import opened CommitEdges
  import opened CommitMemories
  import opened CommitProperties
  import opened KeyOrder
  import opened Ingest
  import opened IngestProperties

  // ---- what executing the steps fills in ----

  /** The identifiers a step reports, in terms of the references and edges as committed. */
  ghost predicate Filled(refs: map<string, EntityRef>, edges: map<string, EdgePlan>, s: Step, f: Step) {
    && (forall x: Id :: x in f.createdEntityIds <==>
          x in s.createdEntityIds
          || exists k :: (k in s.relatedKeys || k == s.subjectKey) && k in refs && refs[k].createdId == Some(x))
    && (forall x: Id :: x in f.createdRelationIds <==>
          x in s.createdRelationIds
          || exists k :: k in edges && edges[k].createdId == Some(x) && edges[k].fromKey == s.subjectKey)
    && (!s.decision.action.CreateAction? ==> f.createdMemoryId == s.createdMemoryId)
  }

  lemma {:induction false} CreatedIdsMean(refs: map<string, EntityRef>, keys: seq<string>, x: Id)
    ensures x in CreatedIds(refs, keys) <==> exists k :: k in keys && k in refs && refs[k].createdId == Some(x)
    decreases |keys|
  {
    if keys != [] {
      var n := |keys| - 1;
      CreatedIdsMean(refs, keys[..n], x);
      assert keys == keys[..n] + [keys[n]];
    }
  }

  lemma FinishedFills(refs: map<string, EntityRef>, edges: map<string, EdgePlan>, s: Step, subjectId: Id,
      rows: seq<Memory>)
    ensures Filled(refs, edges, s, FinishedStep(refs, edges, s, subjectId, rows))
  {
    var f := FinishedStep(refs, edges, s, subjectId, rows);
    var keys := s.relatedKeys + [s.subjectKey];
    var created := CreatedIds(refs, keys);
    forall x: Id
      ensures x in created <==>
              exists k :: (k in s.relatedKeys || k == s.subjectKey) && k in refs && refs[k].createdId == Some(x)
    {
      CreatedIdsMean(refs, keys, x);
      assert forall k :: k in keys <==> k in s.relatedKeys || k == s.subjectKey;
    }
    hide CreatedIds;
    assert f.createdEntityIds == s.createdEntityIds + created;
  }

  lemma {:induction false} StepsFill(t: Tables, refs: map<string, EntityRef>, edges: map<string, EdgePlan>,
      steps: seq<Step>)
    requires ExecuteSteps(t, refs, edges, steps).Ok?
    ensures var done := ExecuteSteps(t, refs, edges, steps).value.steps;
            |done| == |steps| && forall i :: 0 <= i < |steps| ==> Filled(refs, edges, steps[i], done[i])
    decreases |steps|
  {
    hide Filled, FinishedStep, StepWrite;
    if steps != [] {
      var n := |steps| - 1;
      StepsFill(t, refs, edges, steps[..n]);
      var w := StepWrite(ExecuteSteps(t, refs, edges, steps[..n]).value.tables,
          ResolvedId(refs, steps[n].subjectKey), steps[n]);
      FinishedFills(refs, edges, steps[n], ResolvedId(refs, steps[n].subjectKey), w.value.row);
    }
  }

  // ---- the rows created ----

  ghost predicate EntityRowOf(e: Entity, p: CreateEntityParams, now: nat) {
    && e.name == p.name && e.kind == p.kind && e.externalId == p.externalId && e.metadata == p.metadata
    && e.createdAt == e.updatedAt == now
  }

  lemma {:induction false} RowsCreated(t: Tables, refs: map<string, EntityRef>, keys: seq<string>)
    requires Distinct(keys) && (forall k :: k in keys ==> k in refs) && CreateEntities(t, refs, keys).Ok?
    ensures var done := CreateEntities(t, refs, keys).value;
            && done.tables.now == t.now && done.refs.Keys == refs.Keys
            && (forall k :: k in refs && (k !in keys || refs[k].existing.Some?) ==> done.refs[k] == refs[k])
            && forall k :: k in keys && refs[k].existing.None? ==>
                 done.refs[k].existing.Some? && EntityRowOf(done.refs[k].existing.value, refs[k].create, t.now)
    decreases |keys|
  {
    hide CreateOneEntity;
    if keys != [] {
      var n := |keys| - 1;
      RowsCreated(t, refs, keys[..n]);
      var done := CreateEntities(t, refs, keys[..n]).value;
      assert keys == keys[..n] + [keys[n]];
      OneRowCreated(done, keys[n]);
      hide CreateEntities, EntityRowOf;
    }
  }

  lemma OneRowCreated(done: EntitiesDone, key: string)
    requires key in done.refs && CreateOneEntity(done, key).Ok?
    ensures var next := CreateOneEntity(done, key).value;
            && next.tables.now == done.tables.now && next.refs.Keys == done.refs.Keys
            && (forall k :: k in done.refs && k != key ==> next.refs[k] == done.refs[k])
            && (done.refs[key].existing.Some? ==> next.refs[key] == done.refs[key])
            && (done.refs[key].existing.None? ==>
                  && next.refs[key].existing.Some?
                  && EntityRowOf(next.refs[key].existing.value, done.refs[key].create, done.tables.now))
  {
    hide ExternalIdTaken;
  }

  ghost predicate EdgeRowFresh(r: Relationship, now: nat) {
    r.weight == None && r.metadata == map["created_via" := "ingest"] && r.createdAt == now
  }

  lemma {:induction false} EdgeRowsCreated(t: Tables, refs: map<string, EntityRef>, edges: map<string, EdgePlan>,
      keys: seq<string>)
    requires (forall k :: k in keys ==> k in edges) && CreateEdges(t, refs, edges, keys).Ok?
    ensures var t' := CreateEdges(t, refs, edges, keys).value.tables;
            && t'.now == t.now
            && forall i :: i in t'.relationships ==>
                 (i in t.relationships && t'.relationships[i] == t.relationships[i])
                     || EdgeRowFresh(t'.relationships[i], t.now)
    decreases |keys|
  {
    hide CreateOneEdge;
    if keys != [] {
      var n := |keys| - 1;
      EdgeRowsCreated(t, refs, edges, keys[..n]);
      OneEdgeRow(refs, CreateEdges(t, refs, edges, keys[..n]).value, keys[n]);
      hide CreateEdges, EdgeRowFresh;
    }
  }

  lemma OneEdgeRow(refs: map<string, EntityRef>, done: EdgesDone, key: string)
    requires key in done.edges && CreateOneEdge(refs, done, key).Ok?
    ensures var t, t' := done.tables, CreateOneEdge(refs, done, key).value.tables;
            && t'.now == t.now
            && forall i :: i in t'.relationships ==>
                 (i in t.relationships && t'.relationships[i] == t.relationships[i])
                     || EdgeRowFresh(t'.relationships[i], t.now)
  {
    hide RelationshipExists;
  }

  // ---- the report of a committed plan ----

  /** A memory row as an ingest creates it. */
  ghost predicate MemoryRowFresh(m: Memory, id: Id, entityId: Id, c: Candidate, now: nat) {
    && m.id == id && m.entityId == entityId && m.content == c.content && m.category == c.category
    && m.confidence == c.confidence && m.sourceId == None && m.expiresAt == None
    && m.metadata == map["created_via" := "ingest"] && m.createdAt == m.updatedAt == now
  }

  /** A finished step keeps its candidate, decision, keys and type, and reports its subject; the entities created
      for its names; the relationships created from its subject; and the memory it created, if it did. */
  ghost predicate Reported(env: Env, c: Committed, s: Step, f: Step) {
    var refs := c.plan.refs;
    && f.candidate == s.candidate && f.decision == s.decision && f.subjectKey == s.subjectKey
    && f.subjectExisting == s.subjectExisting && f.relatedKeys == s.relatedKeys
    && f.relationshipType == s.relationshipType
    && Commit.Resolved(refs, s.subjectKey) && f.subjectId == Some(ResolvedId(refs, s.subjectKey))
    && (forall x: Id :: x in f.createdEntityIds <==>
          x !in env.tables.entities
          && exists k :: (k in s.relatedKeys || k == s.subjectKey) && Commit.Resolved(refs, k)
              && ResolvedId(refs, k) == x)
    && (forall x: Id :: x in f.createdRelationIds <==>
          && x in c.tables.relationships && x !in env.tables.relationships
          && c.tables.relationships[x].from == ResolvedId(refs, s.subjectKey))
    && (f.createdMemoryId.Some? <==> s.decision.action == CreateAction)
    && (f.createdMemoryId.Some? ==>
          var id := f.createdMemoryId.value;
          && id !in env.tables.memories && id in c.tables.memories
          && MemoryRowFresh(c.tables.memories[id], id, ResolvedId(refs, s.subjectKey), s.candidate, env.tables.now))
  }

  /** The created entities have the planned columns, the created relationships no weight and the ingest's mark. */
  ghost predicate RowsAsPlanned(env: Env, plan: Plan, c: Committed) {
    && (forall k :: k in plan.refs && plan.refs[k].existing.None? ==>
          && Commit.Resolved(c.plan.refs, k)
          && var id := ResolvedId(c.plan.refs, k);
             && id !in env.tables.entities && id in c.tables.entities
             && EntityRowOf(c.tables.entities[id], plan.refs[k].create, env.tables.now))
    && (forall i :: i in c.tables.relationships && i !in env.tables.relationships ==>
          EdgeRowFresh(c.tables.relationships[i], env.tables.now))
  }

  lemma ReferenceCreated(env: Env, plan: Plan, entityKeys: seq<string>, e: EntitiesDone, k: string)
    requires env.tables.Valid() && RefsOk(env, plan.refs) && Lists(entityKeys, plan.refs)
    requires RefsDone(env.u, e.tables, env.tables.nextId, e.refs) && RefsKept(plan.refs, entityKeys, e.refs)
    ensures k in e.refs <==> k in plan.refs
    ensures k in e.refs ==>
              && Commit.Resolved(e.refs, k)
              && (e.refs[k].createdId.Some? <==> ResolvedId(e.refs, k) !in env.tables.entities)
              && (e.refs[k].createdId.Some? <==> plan.refs[k].existing.None?)
              && (e.refs[k].createdId.Some? ==> e.refs[k].createdId.value == ResolvedId(e.refs, k))
  {
    hide EntityKey, Creatable;
    if k in plan.refs {
      assert RefOk(env, k, plan.refs[k]);
      assert RefDone(env.u, e.tables, env.tables.nextId, k, e.refs[k]);
      if plan.refs[k].existing.None? {
        NewIdFresh(env.tables, ResolvedId(e.refs, k));
      }
    }
  }

  lemma NewIdFresh(t: Tables, id: Id)
    requires t.Valid() && t.nextId <= id
    ensures id !in t.entities && id !in t.memories && id !in t.relationships
  {
    RowsBelow(t);
  }

  lemma RowsBelow(t: Tables)
    requires t.Valid()
    ensures forall i :: i in t.entities ==> i < t.nextId
    ensures forall i :: i in t.memories ==> i < t.nextId
    ensures forall i :: i in t.relationships ==> i < t.nextId
  {
    assert forall i | i in t.entities :: t.ValidEntity(i);
    assert forall i | i in t.memories :: t.ValidMemory(i);
    assert forall i | i in t.relationships :: t.ValidRelationship(i);
  }

  lemma EntitiesReported(env: Env, plan: Plan, entityKeys: seq<string>, e: EntitiesDone, s: Step, x: Id)
    requires env.tables.Valid() && RefsOk(env, plan.refs) && Lists(entityKeys, plan.refs)
    requires RefsDone(env.u, e.tables, env.tables.nextId, e.refs) && RefsKept(plan.refs, entityKeys, e.refs)
    ensures (exists k :: (k in s.relatedKeys || k == s.subjectKey) && k in e.refs && e.refs[k].createdId == Some(x))
            <==> x !in env.tables.entities
                 && exists k :: && (k in s.relatedKeys || k == s.subjectKey)
                                && Commit.Resolved(e.refs, k) && ResolvedId(e.refs, k) == x
  {
    forall k | k in e.refs
      ensures e.refs[k].createdId == Some(x)
              <==> Commit.Resolved(e.refs, k) && ResolvedId(e.refs, k) == x && x !in env.tables.entities
    {
      ReferenceCreated(env, plan, entityKeys, e, k);
    }
    hide *;
    forall k | Commit.Resolved(e.refs, k)
      ensures k in e.refs
    {
      ResolvedIs(e.refs, k);
    }
  }

  lemma NewEdge(env: Env, plan: Plan, edgeKeys: seq<string>, e: EntitiesDone, r: EdgesDone, k: string)
    requires env.tables.Valid() && Lists(edgeKeys, plan.edges) && OnlyEntitiesAdded(env.tables, e.tables)
    requires EdgesDoneOk(e.tables, e.refs, plan.edges, edgeKeys, r) && k in r.edges && r.edges[k].createdId.Some?
    ensures var x := r.edges[k].createdId.value;
            && x in r.tables.relationships && x !in env.tables.relationships
            && Commit.Resolved(e.refs, r.edges[k].fromKey)
            && r.tables.relationships[x].from == ResolvedId(e.refs, r.edges[k].fromKey)
  {
    hide Tables.Valid, RelationshipExists, AddedByPlan;
    assert k in plan.edges && k in edgeKeys;
    assert EdgeDone(e.tables, r.tables, e.refs, plan.edges[k], r.edges[k]);
    NewIdFresh(env.tables, r.edges[k].createdId.value);
  }

  lemma AddedEdge(env: Env, plan: Plan, edgeKeys: seq<string>, e: EntitiesDone, r: EdgesDone, x: Id) returns (k: string)
    requires OnlyEntitiesAdded(env.tables, e.tables) && EdgesDoneOk(e.tables, e.refs, plan.edges, edgeKeys, r)
    requires x in r.tables.relationships && x !in env.tables.relationships
    ensures k in r.edges && r.edges[k].createdId == Some(x)
  {
    hide ListedDone, OthersAsPlanned, OnlyEdgesAdded, CreatedKeys;
    k :| k in edgeKeys && k in r.edges && r.edges[k].createdId == Some(x);
  }

  lemma RelationsReported(env: Env, plan: Plan, edgeKeys: seq<string>, e: EntitiesDone, r: EdgesDone, key: string,
      x: Id)
    requires env.tables.Valid() && Lists(edgeKeys, plan.edges) && OnlyEntitiesAdded(env.tables, e.tables)
    requires RefsDone(env.u, e.tables, env.tables.nextId, e.refs) && Commit.Resolved(e.refs, key)
    requires EdgesDoneOk(e.tables, e.refs, plan.edges, edgeKeys, r)
    ensures (exists k :: k in r.edges && r.edges[k].createdId == Some(x) && r.edges[k].fromKey == key)
            <==> && x in r.tables.relationships && x !in env.tables.relationships
                 && r.tables.relationships[x].from == ResolvedId(e.refs, key)
  {
    hide *;
    if k :| k in r.edges && r.edges[k].createdId == Some(x) && r.edges[k].fromKey == key {
      NewEdge(env, plan, edgeKeys, e, r, k);
    }
    if x in r.tables.relationships && x !in env.tables.relationships
       && r.tables.relationships[x].from == ResolvedId(e.refs, key) {
      var k := AddedEdge(env, plan, edgeKeys, e, r, x);
      NewEdge(env, plan, edgeKeys, e, r, k);
      KeysInjective(env.u, e.tables, env.tables.nextId, e.refs, r.edges[k].fromKey, key);
    }
  }

  /** What the answer says of a committed plan's steps is what the commit did for them, and the rows created are
      those planned. */
  lemma CommitReports(env: Env, plan: Plan, entityKeys: seq<string>, edgeKeys: seq<string>)
    requires env.Valid() && PlanOk(env, plan)
    requires Lists(entityKeys, plan.refs) && Lists(edgeKeys, plan.edges)
    ensures var c := CommitPlan(env.tables, plan, entityKeys, edgeKeys);
            && c.Ok? && |c.value.plan.steps| == |plan.steps|
            && (forall i :: 0 <= i < |plan.steps| ==> Reported(env, c.value, plan.steps[i], c.value.plan.steps[i]))
            && RowsAsPlanned(env, plan, c.value)
  {
    hide *;
    EnvUnfold(env);
    PlanOkUnfold(env, plan);
    ListsUnfold(entityKeys, plan.refs);
    var e, r, s := CommitPhases(env, plan, entityKeys, edgeKeys);
    var c := Committed(s.tables, Plan(s.steps, e.refs, r.edges), s.committed);
    StepsFill(r.tables, e.refs, r.edges, plan.steps);
    PhasesParts(env, plan, entityKeys, edgeKeys, e, r, s);
    EdgeTables(env, plan, entityKeys, edgeKeys, e, r, s);
    PhaseMemories(env, plan, entityKeys, edgeKeys, e, r, s);
    forall i | 0 <= i < |plan.steps|
      ensures Reported(env, c, plan.steps[i], s.steps[i])
    {
      PlannedStep(env, plan, i);
      OneStepReported(env.tables, e.refs, s.tables.memories, plan.steps, s.steps, i);
      OneReport(env, plan, entityKeys, edgeKeys, e, r, s, plan.steps[i], s.steps[i]);
    }
    RowsCreated(env.tables, plan.refs, entityKeys);
    EdgeRowsCreated(e.tables, e.refs, plan.edges, edgeKeys);
    PlannedRows(env, plan, entityKeys, e, r, c);
  }

  lemma PhasesParts(env: Env, plan: Plan, entityKeys: seq<string>, edgeKeys: seq<string>,
                    e: EntitiesDone, r: EdgesDone, s: StepsDone)
    requires Phases(env, plan, entityKeys, edgeKeys, e, r, s)
    ensures OnlyEntitiesAdded(env.tables, e.tables) && EdgesDoneOk(e.tables, e.refs, plan.edges, edgeKeys, r)
    ensures RefsDone(env.u, e.tables, env.tables.nextId, e.refs) && RefsKept(plan.refs, entityKeys, e.refs)
    ensures s.tables.entities == e.tables.entities && |s.steps| == |plan.steps|
  {
    hide RefsDone, RefsKept, AddedByRefs, EdgesReady, ListedDone, OthersAsPlanned, AddedByPlan, StepReported;
    hide StoredFinal, CommittedRows, RowOrigins;
  }

  lemma PlannedStep(env: Env, plan: Plan, i: nat)
    requires StepsOk(env, plan.refs, plan.steps) && i < |plan.steps|
    ensures var s := plan.steps[i];
            && s.createdEntityIds == [] && s.createdMemoryId.None? && s.createdRelationIds == {}
            && s.subjectKey in plan.refs && forall k :: k in s.relatedKeys ==> k in plan.refs
  {
    assert StepOk(env, plan.refs, plan.steps[i]);
  }

  lemma OneStepReported(t: Tables, refs: map<string, EntityRef>, memories: map<Id, Memory>, steps: seq<Step>,
                        done: seq<Step>, i: nat)
    requires StepsReported(t, refs, memories, steps, done) && i < |steps|
    ensures i < |done| && StepReported(t, refs, memories, steps[i], done[i])
  {
    hide StepReported;
  }

  lemma OneReport(env: Env, plan: Plan, entityKeys: seq<string>, edgeKeys: seq<string>,
                  e: EntitiesDone, r: EdgesDone, s: StepsDone, p: Step, f: Step)
    requires env.tables.Valid() && RefsOk(env, plan.refs)
    requires Lists(entityKeys, plan.refs) && Lists(edgeKeys, plan.edges)
    requires OnlyEntitiesAdded(env.tables, e.tables) && EdgesDoneOk(e.tables, e.refs, plan.edges, edgeKeys, r)
    requires RefsDone(env.u, e.tables, env.tables.nextId, e.refs) && RefsKept(plan.refs, entityKeys, e.refs)
    requires s.tables.relationships == r.tables.relationships
    requires p.createdEntityIds == [] && p.createdMemoryId.None? && p.createdRelationIds == {}
    requires Filled(e.refs, r.edges, p, f) && StepReported(env.tables, e.refs, s.tables.memories, p, f)
    ensures Reported(env, Committed(s.tables, Plan(s.steps, e.refs, r.edges), s.committed), p, f)
  {
    hide *;
    var c := Committed(s.tables, Plan(s.steps, e.refs, r.edges), s.committed);
    StepKept(env.tables, e.refs, s.tables.memories, p, f);
    forall x: Id
      ensures (exists k :: (k in p.relatedKeys || k == p.subjectKey) && k in e.refs && e.refs[k].createdId == Some(x))
              <==> x !in env.tables.entities
                   && exists k :: && (k in p.relatedKeys || k == p.subjectKey)
                                  && Commit.Resolved(e.refs, k) && ResolvedId(e.refs, k) == x
    {
      EntitiesReported(env, plan, entityKeys, e, p, x);
    }
    forall x: Id
      ensures (exists k :: k in r.edges && r.edges[k].createdId == Some(x) && r.edges[k].fromKey == p.subjectKey)
              <==> && x in r.tables.relationships && x !in env.tables.relationships
                   && r.tables.relationships[x].from == ResolvedId(e.refs, p.subjectKey)
    {
      RelationsReported(env, plan, edgeKeys, e, r, p.subjectKey, x);
    }
    ReportFolds(env, c, p, f);
  }

  lemma StepKept(t: Tables, refs: map<string, EntityRef>, memories: map<Id, Memory>, s: Step, f: Step)
    requires StepReported(t, refs, memories, s, f)
    ensures f.candidate == s.candidate && f.decision == s.decision && f.subjectKey == s.subjectKey
    ensures f.subjectExisting == s.subjectExisting && f.relatedKeys == s.relatedKeys
    ensures f.relationshipType == s.relationshipType
    ensures Commit.Resolved(refs, s.subjectKey) && f.subjectId == Some(ResolvedId(refs, s.subjectKey))
    ensures s.decision.action == CreateAction ==>
              && f.createdMemoryId.Some? && f.createdMemoryId.value !in t.memories
                  && f.createdMemoryId.value in memories
              && MemoryRowFresh(memories[f.createdMemoryId.value], f.createdMemoryId.value,
                  ResolvedId(refs, s.subjectKey),
                                s.candidate, t.now)
  {
  }

  lemma ReportFolds(env: Env, c: Committed, s: Step, f: Step)
    requires s.createdEntityIds == [] && s.createdMemoryId.None? && s.createdRelationIds == {}
    requires Filled(c.plan.refs, c.plan.edges, s, f)
    requires f.candidate == s.candidate && f.decision == s.decision && f.subjectKey == s.subjectKey
    requires f.subjectExisting == s.subjectExisting && f.relatedKeys == s.relatedKeys
    requires f.relationshipType == s.relationshipType
    requires Commit.Resolved(c.plan.refs, s.subjectKey) && f.subjectId == Some(ResolvedId(c.plan.refs, s.subjectKey))
    requires forall x: Id ::
               (exists k :: (k in s.relatedKeys || k == s.subjectKey) && k in c.plan.refs
                   && c.plan.refs[k].createdId == Some(x))
               <==> x !in env.tables.entities
                    && exists k :: && (k in s.relatedKeys || k == s.subjectKey)
                                   && Commit.Resolved(c.plan.refs, k) && ResolvedId(c.plan.refs, k) == x
    requires forall x: Id ::
               (exists k :: k in c.plan.edges && c.plan.edges[k].createdId == Some(x)
                   && c.plan.edges[k].fromKey == s.subjectKey)
               <==> && x in c.tables.relationships && x !in env.tables.relationships
                    && c.tables.relationships[x].from == ResolvedId(c.plan.refs, s.subjectKey)
    requires s.decision.action == CreateAction ==>
               && f.createdMemoryId.Some? && f.createdMemoryId.value !in env.tables.memories
               && f.createdMemoryId.value in c.tables.memories
               && MemoryRowFresh(c.tables.memories[f.createdMemoryId.value], f.createdMemoryId.value,
                                 ResolvedId(c.plan.refs, s.subjectKey), s.candidate, env.tables.now)
    ensures Reported(env, c, s, f)
  {
    hide Commit.Resolved, ResolvedId, MemoryRowFresh;
  }

  lemma PlannedRows(env: Env, plan: Plan, entityKeys: seq<string>, e: EntitiesDone, r: EdgesDone, c: Committed)
    requires env.tables.Valid() && RefsOk(env, plan.refs) && Lists(entityKeys, plan.refs)
    requires RefsDone(env.u, e.tables, env.tables.nextId, e.refs) && RefsKept(plan.refs, entityKeys, e.refs)
    requires c.plan.refs == e.refs && c.tables.entities == e.tables.entities
    requires c.tables.relationships == r.tables.relationships && e.tables.relationships == env.tables.relationships
    requires e.tables.now == env.tables.now
    requires forall k :: k in entityKeys && k in plan.refs && k in e.refs && plan.refs[k].existing.None? ==>
               e.refs[k].existing.Some? && EntityRowOf(e.refs[k].existing.value, plan.refs[k].create, env.tables.now)
    requires forall i :: i in r.tables.relationships ==>
               || (i in e.tables.relationships && r.tables.relationships[i] == e.tables.relationships[i])
               || EdgeRowFresh(r.tables.relationships[i], env.tables.now)
    ensures RowsAsPlanned(env, plan, c)
  {
    hide EntityRowOf, EdgeRowFresh;
    forall k | k in plan.refs && plan.refs[k].existing.None?
      ensures && Commit.Resolved(e.refs, k) && ResolvedId(e.refs, k) !in env.tables.entities
              && ResolvedId(e.refs, k) in e.tables.entities
              && EntityRowOf(e.tables.entities[ResolvedId(e.refs, k)], plan.refs[k].create, env.tables.now)
    {
      ReferenceCreated(env, plan, entityKeys, e, k);
      OneRowStored(env, e, k);
    }
    hide Tables.Valid, RefsDone, RefsKept, RefsOk;
  }

  lemma OneRowStored(env: Env, e: EntitiesDone, k: string)
    requires RefsDone(env.u, e.tables, env.tables.nextId, e.refs) && Commit.Resolved(e.refs, k)
    ensures var x := ResolvedId(e.refs, k); x in e.tables.entities && e.tables.entities[x] == e.refs[k].existing.value
  {
    assert RefDone(env.u, e.tables, env.tables.nextId, k, e.refs[k]);
  }

  /** A committed request answers the steps as its commit left them. */
  lemma IngestReports(cfg: Config, t: Tables, req: Request, extraction: Extraction, faults: Faults)
      returns (c: Committed)
    requires ValidConfig(cfg) && t.Valid() && Commits(extraction, req) && !faults.commitFails
    requires RunIngest(cfg, t, req, extraction, faults).result.Ok?
    ensures PlanRequest(cfg, t, req, extraction, faults).Ok?
    ensures var o, plan := RunIngest(cfg, t, req, extraction, faults),
        PlanRequest(cfg, t, req, extraction, faults).value;
            var env := Env(cfg.u, t, cfg.threshold, faults);
            && o.result.value.steps == c.plan.steps && |c.plan.steps| == |plan.steps|
            && o.tables.entities == c.tables.entities && o.tables.relationships == c.tables.relationships
            && (forall i :: 0 <= i < |plan.steps| ==> Reported(env, c, plan.steps[i], c.plan.steps[i]))
            && RowsAsPlanned(env, plan, c)
  {
    hide *;
    RunCases(cfg, t, req, extraction, faults);
    PlannedOk(cfg, t, req, extraction, faults);
    var plan := PlanRequest(cfg, t, req, extraction, faults).value;
    var env := Env(cfg.u, t, cfg.threshold, faults);
    var subject := RequestSubject(cfg, t, req);
    var o := CommitAndAudit(t, req, SubjectId(subject), plan, faults);
    c := CommitAuditedHolds(env, plan, req, SubjectId(subject));
    AuditedUnfold(env, plan, req, SubjectId(subject), o, c);
    AuditedValid(env, plan, req, subject, o, c);
    SortedKeysList(plan.refs);
    SortedKeysList(plan.edges);
    CommitReports(env, plan, SortedKeys(plan.refs.Keys), SortedKeys(plan.edges.Keys));
  }
}
