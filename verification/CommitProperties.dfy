/** What committing a plan does to the store it was planned against. */
module CommitProperties {
  import opened Types
  import opened Ordering
  import opened Tables
  import opened Resolution
  import opened Planner
  import opened PlanProperties
  import opened Commit
  import opened CommitEntities
  import opened CommitEdges
  import opened CommitMemories

  /** No existence check failed while planning. */
  ghost predicate ChecksSucceed(env: Env) {
    forall a, b, kind :: !env.faults.existsFails(a, b, kind)
  }

  /** Each phase of a successful commit, seen from the store it started in. */
  ghost predicate Phases(env: Env, plan: Plan, entityKeys: seq<string>, edgeKeys: seq<string>,
                         e: EntitiesDone, r: EdgesDone, s: StepsDone) {
    && OnlyEntitiesAdded(env.tables, e.tables) && AddedByRefs(env.tables, e.tables, e.refs)
    && RefsDone(env.u, e.tables, env.tables.nextId, e.refs) && RefsKept(plan.refs, entityKeys, e.refs)
    && |e.tables.entities| == |env.tables.entities| + CountEntitiesToCreate(plan.refs)
    && EdgesReady(env.u, e.tables, env.tables.nextId, e.refs, plan.edges)
    && EdgesDoneOk(e.tables, e.refs, plan.edges, edgeKeys, r)
    && MemoriesDone(r.tables, e.refs, plan.steps, s)
    && s.tables.Valid()
  }

  lemma CommitPhases(env: Env, plan: Plan, entityKeys: seq<string>, edgeKeys: seq<string>)
      returns (e: EntitiesDone, r: EdgesDone, s: StepsDone)
    requires env.Valid() && PlanOk(env, plan)
    requires Lists(entityKeys, plan.refs) && Lists(edgeKeys, plan.edges)
    ensures CommitPlan(env.tables, plan, entityKeys, edgeKeys)
            == Ok(Committed(s.tables, Plan(s.steps, e.refs, r.edges), s.committed))
    ensures Phases(env, plan, entityKeys, edgeKeys, e, r, s)
    ensures forall k :: k in entityKeys ==> k in plan.refs
    ensures forall k :: k in edgeKeys ==> k in plan.edges
    ensures CreateEntities(env.tables, plan.refs, entityKeys) == Ok(e)
    ensures CreateEdges(e.tables, e.refs, plan.edges, edgeKeys) == Ok(r)
    ensures r.tables.memories == env.tables.memories && ExecuteSteps(r.tables, e.refs, r.edges, plan.steps) == Ok(s)
  {
    hide *;
    PlanOkUnfold(env, plan);
    ListsUnfold(entityKeys, plan.refs);
    ListsUnfold(edgeKeys, plan.edges);
    EnvUnfold(env);
    PlannedRefsDone(env, plan.refs);
    EntitiesCommitted(env.u, env.tables, plan.refs, entityKeys);
    e := CreateEntities(env.tables, plan.refs, entityKeys).value;
    AllResolved(plan.refs, entityKeys, e.refs);
    ReadyForEdges(env, plan, entityKeys, e);
    EdgesCommitted(env.u, e.tables, env.tables.nextId, e.refs, plan.edges, edgeKeys);
    r := CreateEdges(e.tables, e.refs, plan.edges, edgeKeys).value;
    ReadyForSteps(env, plan, entityKeys, edgeKeys, e, r);
    MemoriesCommitted(r.tables, e.refs, r.edges, plan.steps);
    s := ExecuteSteps(r.tables, e.refs, r.edges, plan.steps).value;
    CommitUnfold(env, plan, entityKeys, edgeKeys, e, r, s);
  }

  lemma PlanOkUnfold(env: Env, plan: Plan)
    requires PlanOk(env, plan)
    ensures RefsOk(env, plan.refs) && StepsOk(env, plan.refs, plan.steps)
        && EdgesOk(env, plan.refs, plan.steps, plan.edges)
  {
  }

  lemma ListsUnfold<T>(keys: seq<string>, table: map<string, T>)
    requires Lists(keys, table)
    ensures Distinct(keys) && forall k :: k in keys ==> k in table
  {
  }

  lemma EnvUnfold(env: Env)
    requires env.Valid()
    ensures env.u.Valid() && env.tables.Valid()
  {
  }

  lemma ReadyForEdges(env: Env, plan: Plan, entityKeys: seq<string>, e: EntitiesDone)
    requires EdgesOk(env, plan.refs, plan.steps, plan.edges)
    requires RefsDone(env.u, e.tables, env.tables.nextId, e.refs) && RefsKept(plan.refs, entityKeys, e.refs)
    requires forall k :: k in plan.refs ==> Resolved(e.refs, k)
    ensures EdgesReady(env.u, e.tables, env.tables.nextId, e.refs, plan.edges)
  {
    hide EdgeKey;
    hide RefsDone;
    hide EdgeStored;
    forall k | k in plan.edges
      ensures plan.edges[k].key == k == EdgeKey(plan.edges[k].fromKey, plan.edges[k].toKey, plan.edges[k].kind)
      ensures plan.edges[k].createdId.None? && plan.edges[k].fromKey in e.refs && plan.edges[k].toKey in e.refs
    {
      assert EdgeOk(env, plan.refs, plan.steps, k, plan.edges[k]);
    }
  }

  lemma ReadyForSteps(env: Env, plan: Plan, entityKeys: seq<string>, edgeKeys: seq<string>, e: EntitiesDone,
      r: EdgesDone)
    requires StepsOk(env, plan.refs, plan.steps) && RefsKept(plan.refs, entityKeys, e.refs)
    requires RefsDone(env.u, e.tables, env.tables.nextId, e.refs)
    requires OnlyEntitiesAdded(env.tables, e.tables) && EdgesDoneOk(e.tables, e.refs, plan.edges, edgeKeys, r)
    requires forall k :: k in plan.refs ==> Resolved(e.refs, k)
    ensures StepsReady(r.tables, e.refs, plan.steps)
    ensures r.tables.memories == env.tables.memories && r.tables.now == env.tables.now
  {
    hide *;
    EdgesLeaveRows(env, e, plan, edgeKeys, r);
    forall i | 0 <= i < |plan.steps|
      ensures StepReady(r.tables, e.refs, plan.steps[i])
    {
      OneStepReady(env, plan, entityKeys, e, r.tables, i);
    }
    StepsReadyFolds(r.tables, e.refs, plan.steps);
  }

  lemma EdgesLeaveRows(env: Env, e: EntitiesDone, plan: Plan, edgeKeys: seq<string>, r: EdgesDone)
    requires OnlyEntitiesAdded(env.tables, e.tables) && EdgesDoneOk(e.tables, e.refs, plan.edges, edgeKeys, r)
    ensures r.tables.memories == env.tables.memories && r.tables.now == env.tables.now
    ensures r.tables.entities == e.tables.entities
  {
    hide ListedDone, AddedByPlan, OthersAsPlanned;
  }

  lemma StepsReadyFolds(t: Tables, refs: map<string, EntityRef>, steps: seq<Step>)
    requires forall i :: 0 <= i < |steps| ==> StepReady(t, refs, steps[i])
    ensures StepsReady(t, refs, steps)
  {
  }

  lemma OneStepReady(env: Env, plan: Plan, entityKeys: seq<string>, e: EntitiesDone, t: Tables, i: nat)
    requires i < |plan.steps| && StepsOk(env, plan.refs, plan.steps) && RefsKept(plan.refs, entityKeys, e.refs)
    requires RefsDone(env.u, e.tables, env.tables.nextId, e.refs)
    requires t.memories == env.tables.memories && t.entities == e.tables.entities
    requires forall k :: k in plan.refs ==> Resolved(e.refs, k)
    ensures StepReady(t, e.refs, plan.steps[i])
  {
    var s := plan.steps[i];
    assert StepOk(env, plan.refs, s);
    assert RefDone(env.u, e.tables, env.tables.nextId, s.subjectKey, e.refs[s.subjectKey]);
    if s.subjectExisting.Some? {
      assert e.refs[s.subjectKey] == plan.refs[s.subjectKey];
    }
  }

  lemma CommitUnfold(env: Env, plan: Plan, entityKeys: seq<string>, edgeKeys: seq<string>,
                     e: EntitiesDone, r: EdgesDone, s: StepsDone)
    requires forall k :: k in entityKeys ==> k in plan.refs
    requires forall k :: k in edgeKeys ==> k in plan.edges
    requires CreateEntities(env.tables, plan.refs, entityKeys) == Ok(e)
    requires CreateEdges(e.tables, e.refs, plan.edges, edgeKeys) == Ok(r)
    requires ExecuteSteps(r.tables, e.refs, r.edges, plan.steps) == Ok(s)
    requires OnlyEntitiesAdded(env.tables, e.tables) && AddedByRefs(env.tables, e.tables, e.refs)
    requires RefsDone(env.u, e.tables, env.tables.nextId, e.refs) && RefsKept(plan.refs, entityKeys, e.refs)
    requires |e.tables.entities| == |env.tables.entities| + |Missing(plan.refs, entityKeys)|
    requires Missing(plan.refs, entityKeys) == ToCreate(plan.refs)
    requires EdgesReady(env.u, e.tables, env.tables.nextId, e.refs, plan.edges)
    requires EdgesDoneOk(e.tables, e.refs, plan.edges, edgeKeys, r)
    requires MemoriesDone(r.tables, e.refs, plan.steps, s) && s.tables.Valid()
    ensures CommitPlan(env.tables, plan, entityKeys, edgeKeys)
            == Ok(Committed(s.tables, Plan(s.steps, e.refs, r.edges), s.committed))
    ensures Phases(env, plan, entityKeys, edgeKeys, e, r, s)
  {
    hide CreateEntities;
    hide CreateEdges;
    hide ExecuteSteps;
    hide OnlyEntitiesAdded;
    hide AddedByRefs;
    hide RefsDone;
    hide RefsKept;
    hide AddedByRefs;
    hide EdgesReady;
    hide EdgesDoneOk;
    hide MemoriesDone;
  }

  // ---- the theorems ----

  /** A plan commits without error into a valid store, whichever checks failed while planning: none of the
      commit's internal errors, and no constraint violation, can occur. */
  lemma CommitNeverFails(env: Env, plan: Plan, entityKeys: seq<string>, edgeKeys: seq<string>)
    requires env.Valid() && PlanOk(env, plan)
    requires Lists(entityKeys, plan.refs) && Lists(edgeKeys, plan.edges)
    ensures var c := CommitPlan(env.tables, plan, entityKeys, edgeKeys); c.Ok? && c.value.tables.Valid()
  {
    hide *;
    var e, r, s := CommitPhases(env, plan, entityKeys, edgeKeys);
    PhasesValid(env, plan, entityKeys, edgeKeys, e, r, s);
  }

  lemma PhasesValid(env: Env, plan: Plan, entityKeys: seq<string>, edgeKeys: seq<string>,
                    e: EntitiesDone, r: EdgesDone, s: StepsDone)
    requires Phases(env, plan, entityKeys, edgeKeys, e, r, s)
    ensures s.tables.Valid()
  {
  }

  /** Both ends of the edge were known entities while planning, and the edge was in the table then. */
  predicate StoredWhilePlanning(t: Tables, refs: map<string, EntityRef>, e: EdgePlan) {
    && Commit.Resolved(refs, e.fromKey) && Commit.Resolved(refs, e.toKey)
    && RelationshipExists(t, ResolvedId(refs, e.fromKey), ResolvedId(refs, e.toKey), e.kind)
  }

  /** The planned edges the commit has to skip: a failed check made the plan ask for them. */
  function SkippedEdges(t: Tables, plan: Plan): set<string> {
    set k | k in plan.edges && StoredWhilePlanning(t, plan.refs, plan.edges[k])
  }

  /** The commit adds exactly the entities and memories the plan counted, and exactly the planned edges that were
      not stored before.  That is every planned edge if and only if none of them joins two known entities whose
      edge was stored; no such edge is planned when no check fails. */
  lemma CommitCounts(env: Env, plan: Plan, entityKeys: seq<string>, edgeKeys: seq<string>)
    requires env.Valid() && PlanOk(env, plan)
    requires Lists(entityKeys, plan.refs) && Lists(edgeKeys, plan.edges)
    ensures var c := CommitPlan(env.tables, plan, entityKeys, edgeKeys);
            && c.Ok?
            && |c.value.tables.entities| == |env.tables.entities| + CountEntitiesToCreate(plan.refs)
            && |c.value.tables.memories| == |env.tables.memories| + CountAction(plan.steps, CreateAction)
            && CreatedKeys(edgeKeys, c.value.plan.edges) == plan.edges.Keys - SkippedEdges(env.tables, plan)
            && |c.value.tables.relationships|
                == |env.tables.relationships| + |plan.edges| - |SkippedEdges(env.tables, plan)|
            && (|c.value.tables.relationships| == |env.tables.relationships| + |plan.edges| <==>
                  forall k :: k in plan.edges ==> !StoredWhilePlanning(env.tables, plan.refs, plan.edges[k]))
    ensures ChecksSucceed(env) ==> SkippedEdges(env.tables, plan) == {}
  {
    hide *;
    var e, r, s := CommitPhases(env, plan, entityKeys, edgeKeys);
    PhaseCounts(env, plan, entityKeys, edgeKeys, e, r, s);
    PlanOkUnfold(env, plan);
    EnvUnfold(env);
    CreatedExactly(env, plan, entityKeys, edgeKeys, e, r, s);
    CountSkipped(env.tables, plan);
    if ChecksSucceed(env) {
      NoneSkipped(env, plan);
    }
  }

  lemma CountSkipped(t: Tables, plan: Plan)
    ensures |plan.edges.Keys - SkippedEdges(t, plan)| == |plan.edges| - |SkippedEdges(t, plan)|
    ensures |SkippedEdges(t, plan)| == 0 <==>
              forall k :: k in plan.edges ==> !StoredWhilePlanning(t, plan.refs, plan.edges[k])
  {
    hide StoredWhilePlanning;
    var skipped := SkippedEdges(t, plan);
    assert plan.edges.Keys == (plan.edges.Keys - skipped) + skipped;
    assert forall k :: k in plan.edges && StoredWhilePlanning(t, plan.refs, plan.edges[k]) ==> k in skipped;
  }

  lemma NoneSkipped(env: Env, plan: Plan)
    requires ChecksSucceed(env) && EdgesOk(env, plan.refs, plan.steps, plan.edges)
    ensures SkippedEdges(env.tables, plan) == {}
  {
    hide EdgeKey, RelationshipExists;
    forall k | k in plan.edges
      ensures !StoredWhilePlanning(env.tables, plan.refs, plan.edges[k])
    {
      assert EdgeOk(env, plan.refs, plan.steps, k, plan.edges[k]);
    }
  }

  lemma PhaseCounts(env: Env, plan: Plan, entityKeys: seq<string>, edgeKeys: seq<string>,
                    e: EntitiesDone, r: EdgesDone, s: StepsDone)
    requires Phases(env, plan, entityKeys, edgeKeys, e, r, s)
    ensures |s.tables.entities| == |env.tables.entities| + CountEntitiesToCreate(plan.refs)
    ensures |s.tables.memories| == |env.tables.memories| + CountAction(plan.steps, CreateAction)
    ensures |s.tables.relationships| == |env.tables.relationships| + |CreatedKeys(edgeKeys, r.edges)|
  {
    hide RefsDone;
    hide RefsKept;
    hide AddedByRefs;
    hide EdgesReady;
    hide ListedDone;
    hide OthersAsPlanned;
    hide AddedByPlan;
    hide StepsReported;
    hide StoredFinal;
    hide CommittedRows;
  }

  /** A planned edge is created exactly when it was not stored while planning. */
  lemma CreatedExactly(env: Env, plan: Plan, entityKeys: seq<string>, edgeKeys: seq<string>,
                       e: EntitiesDone, r: EdgesDone, s: StepsDone)
    requires env.tables.Valid() && Phases(env, plan, entityKeys, edgeKeys, e, r, s)
    requires Lists(entityKeys, plan.refs) && Lists(edgeKeys, plan.edges)
    requires EdgesOk(env, plan.refs, plan.steps, plan.edges)
    ensures CreatedKeys(edgeKeys, r.edges) == plan.edges.Keys - SkippedEdges(env.tables, plan)
  {
    hide *;
    PhaseParts(env, plan, entityKeys, edgeKeys, e, r, s);
    EdgeTables(env, plan, entityKeys, edgeKeys, e, r, s);
    AllListed(edgeKeys, plan.edges);
    PhaseUnique(env, plan, entityKeys, edgeKeys, e, r, s);
    forall k | k in plan.edges
      ensures k in r.edges
          && (r.edges[k].createdId.None? <==> StoredWhilePlanning(env.tables, plan.refs, plan.edges[k]))
    {
      EdgeIsCreated(env, plan, entityKeys, edgeKeys, e, r, k);
    }
    CreatedFolds(env.tables, plan, edgeKeys, r.edges);
  }

  lemma CreatedFolds(t: Tables, plan: Plan, keys: seq<string>, edges: map<string, EdgePlan>)
    requires forall k :: k in plan.edges <==> k in keys
    requires forall k :: k in plan.edges ==>
               k in edges && (edges[k].createdId.None? <==> StoredWhilePlanning(t, plan.refs, plan.edges[k]))
    ensures CreatedKeys(keys, edges) == plan.edges.Keys - SkippedEdges(t, plan)
  {
    hide StoredWhilePlanning;
  }

  lemma PhaseUnique(env: Env, plan: Plan, entityKeys: seq<string>, edgeKeys: seq<string>,
                    e: EntitiesDone, r: EdgesDone, s: StepsDone)
    requires Phases(env, plan, entityKeys, edgeKeys, e, r, s) && s.tables.relationships == r.tables.relationships
    ensures UniqueTriples(r.tables.relationships)
  {
    hide OnlyEntitiesAdded, AddedByRefs, RefsDone, RefsKept, EdgesReady, EdgesDoneOk, MemoriesDone, UniqueTriples;
  }

  lemma PhaseParts(env: Env, plan: Plan, entityKeys: seq<string>, edgeKeys: seq<string>,
                   e: EntitiesDone, r: EdgesDone, s: StepsDone)
    requires Phases(env, plan, entityKeys, edgeKeys, e, r, s)
    ensures OnlyEntitiesAdded(env.tables, e.tables) && AddedByRefs(env.tables, e.tables, e.refs)
    ensures RefsDone(env.u, e.tables, env.tables.nextId, e.refs) && RefsKept(plan.refs, entityKeys, e.refs)
    ensures EdgesDoneOk(e.tables, e.refs, plan.edges, edgeKeys, r)
    ensures MemoriesDone(r.tables, e.refs, plan.steps, s)
  {
  }

  lemma AllListed<T>(keys: seq<string>, table: map<string, T>)
    requires Lists(keys, table)
    ensures forall k :: k in table <==> k in keys
  {
  }

  lemma EdgeIsCreated(env: Env, plan: Plan, entityKeys: seq<string>, edgeKeys: seq<string>, e: EntitiesDone,
                      r: EdgesDone, k: string)
    requires env.tables.Valid() && k in plan.edges && k in edgeKeys
    requires OnlyEntitiesAdded(env.tables, e.tables)
    requires RefsDone(env.u, e.tables, env.tables.nextId, e.refs) && RefsKept(plan.refs, entityKeys, e.refs)
    requires EdgesDoneOk(e.tables, e.refs, plan.edges, edgeKeys, r) && UniqueTriples(r.tables.relationships)
    ensures k in r.edges
    ensures r.edges[k].createdId.None? <==> StoredWhilePlanning(env.tables, plan.refs, plan.edges[k])
  {
    hide *;
    var p := plan.edges[k];
    DoneParts(env, plan, edgeKeys, e, r, k);
    if r.edges[k].createdId.None? {
      SkippedWasStored(e.tables, r.tables, e.refs, p, r.edges[k]);
      StoredBefore(env, plan, entityKeys, e, p);
    }
    if StoredWhilePlanning(env.tables, plan.refs, p) {
      KnownEnds(env.tables, plan, entityKeys, e, p);
      StoredIsSkipped(env, e, r.tables, p, r.edges[k]);
    }
  }

  lemma SkippedWasStored(t1: Tables, t: Tables, refs: map<string, EntityRef>, p: EdgePlan, done: EdgePlan)
    requires EdgeDone(t1, t, refs, p, done) && done.createdId.None?
    ensures Commit.Resolved(refs, p.fromKey) && Commit.Resolved(refs, p.toKey)
    ensures RelationshipExists(t1, ResolvedId(refs, p.fromKey), ResolvedId(refs, p.toKey), p.kind)
  {
  }

  /** The ends known while planning are the ends at commit. */
  lemma KnownEnds(t: Tables, plan: Plan, entityKeys: seq<string>, e: EntitiesDone, p: EdgePlan)
    requires RefsKept(plan.refs, entityKeys, e.refs) && StoredWhilePlanning(t, plan.refs, p)
    ensures Commit.Resolved(e.refs, p.fromKey) && Commit.Resolved(e.refs, p.toKey)
    ensures RelationshipExists(t, ResolvedId(e.refs, p.fromKey), ResolvedId(e.refs, p.toKey), p.kind)
  {
  }

  /** A created row would be a second one with the triple of a stored row. */
  lemma StoredIsSkipped(env: Env, e: EntitiesDone, t: Tables, p: EdgePlan, done: EdgePlan)
    requires env.tables.Valid() && OnlyEntitiesAdded(env.tables, e.tables) && OnlyEdgesAdded(e.tables, t)
    requires UniqueTriples(t.relationships) && EdgeDone(e.tables, t, e.refs, p, done)
    requires Commit.Resolved(e.refs, p.fromKey) && Commit.Resolved(e.refs, p.toKey)
    requires RelationshipExists(env.tables, ResolvedId(e.refs, p.fromKey), ResolvedId(e.refs, p.toKey), p.kind)
    ensures done.createdId.None?
  {
    var i :| i in env.tables.relationships && env.tables.relationships[i].from == ResolvedId(e.refs, p.fromKey)
             && env.tables.relationships[i].to == ResolvedId(e.refs, p.toKey)
                 && env.tables.relationships[i].kind == p.kind;
    assert env.tables.ValidRelationship(i);
    forall j | j in t.relationships && HasTriple(t.relationships[j], e.refs, done)
      ensures j == i
    {
      assert SameTriple(t.relationships[i], t.relationships[j]);
    }
  }

  /** An edge stored before the commit joins entities that were stored before it. */
  lemma StoredBefore(env: Env, plan: Plan, entityKeys: seq<string>, e: EntitiesDone, p: EdgePlan)
    requires env.tables.Valid() && OnlyEntitiesAdded(env.tables, e.tables)
    requires RefsDone(env.u, e.tables, env.tables.nextId, e.refs) && RefsKept(plan.refs, entityKeys, e.refs)
    requires Commit.Resolved(e.refs, p.fromKey) && Commit.Resolved(e.refs, p.toKey)
    requires RelationshipExists(e.tables, ResolvedId(e.refs, p.fromKey), ResolvedId(e.refs, p.toKey), p.kind)
    ensures StoredWhilePlanning(env.tables, plan.refs, p)
  {
    StoredEnd(env, plan, entityKeys, e, p.fromKey, p.toKey, p.kind, p.fromKey);
    StoredEnd(env, plan, entityKeys, e, p.fromKey, p.toKey, p.kind, p.toKey);
  }

  lemma DoneParts(env: Env, plan: Plan, edgeKeys: seq<string>, e: EntitiesDone, r: EdgesDone, k: string)
    requires k in plan.edges && k in edgeKeys
    requires OnlyEntitiesAdded(env.tables, e.tables) && EdgesDoneOk(e.tables, e.refs, plan.edges, edgeKeys, r)
    ensures k in r.edges && EdgeDone(e.tables, r.tables, e.refs, plan.edges[k], r.edges[k])
    ensures e.tables.relationships == env.tables.relationships
    ensures OnlyEdgesAdded(e.tables, r.tables)
  {
  }

  lemma StoredEnd(env: Env, plan: Plan, entityKeys: seq<string>, e: EntitiesDone, fromKey: string, toKey: string,
      kind: string, key: string)
    requires env.tables.Valid() && e.tables.relationships == env.tables.relationships
    requires RefsDone(env.u, e.tables, env.tables.nextId, e.refs) && RefsKept(plan.refs, entityKeys, e.refs)
    requires Commit.Resolved(e.refs, fromKey) && Commit.Resolved(e.refs, toKey) && (key == fromKey || key == toKey)
    requires RelationshipExists(e.tables, ResolvedId(e.refs, fromKey), ResolvedId(e.refs, toKey), kind)
    ensures key in plan.refs && e.refs[key] == plan.refs[key]
  {
    var i :| i in env.tables.relationships && env.tables.relationships[i].from == ResolvedId(e.refs, fromKey)
             && env.tables.relationships[i].to == ResolvedId(e.refs, toKey);
    assert env.tables.ValidRelationship(i);
    assert env.tables.ValidEntity(ResolvedId(e.refs, key));
    assert RefDone(env.u, e.tables, env.tables.nextId, key, e.refs[key]);
  }

  /** What the commit does to the memories already stored: each keeps its identity, owner, category, creation
      time, expiry and source; the content is that of the last update step aimed at it; without one it is
      untouched; and outside the singleton categories the confidence never falls. */
  ghost predicate MemoryKept(m: Memory, steps: seq<Step>, m': Memory) {
    && m'.id == m.id && m'.entityId == m.entityId && m'.category == m.category
    && m'.createdAt == m.createdAt && m'.expiresAt == m.expiresAt && m'.sourceId == m.sourceId
    && ((forall i :: 0 <= i < |steps| ==> !Targets(steps[i], m.id)) ==> m' == m)
    && (forall i :: 0 <= i < |steps| && IsLastTarget(steps, i, m.id) ==>
          m'.content == steps[i].candidate.content && m'.confidence == steps[i].candidate.confidence)
    && (!Singleton(m.category) ==> m.confidence <= m'.confidence)
  }

  /** Every update step is aimed at a memory of its own subject and category. */
  ghost predicate TargetsOwned(env: Env, refs: map<string, EntityRef>, s: Step) {
    s.decision.action.UpdateAction? ==>
      && s.decision.target.Some? && s.decision.target.value in env.tables.memories
      && Commit.Resolved(refs, s.subjectKey)
      && env.tables.memories[s.decision.target.value].entityId == ResolvedId(refs, s.subjectKey)
      && env.tables.memories[s.decision.target.value].category == s.candidate.category
  }

  lemma CommitKeepsMemories(env: Env, plan: Plan, entityKeys: seq<string>, edgeKeys: seq<string>)
    requires env.Valid() && PlanOk(env, plan)
    requires Lists(entityKeys, plan.refs) && Lists(edgeKeys, plan.edges)
    ensures var c := CommitPlan(env.tables, plan, entityKeys, edgeKeys);
            && c.Ok?
            && (forall i :: i in env.tables.memories ==>
                  i in c.value.tables.memories
                      && MemoryKept(env.tables.memories[i], plan.steps, c.value.tables.memories[i]))
            && (forall i :: 0 <= i < |plan.steps| ==> TargetsOwned(env, c.value.plan.refs, plan.steps[i]))
            && CommittedRows(c.value.plan.refs, plan.steps, c.value.memories)
            && StepsReported(env.tables, c.value.plan.refs, c.value.tables.memories, plan.steps, c.value.plan.steps)
  {
    hide *;
    var e, r, s := CommitPhases(env, plan, entityKeys, edgeKeys);
    EnvUnfold(env);
    PlanOkUnfold(env, plan);
    PhaseMemories(env, plan, entityKeys, edgeKeys, e, r, s);
    forall i | i in env.tables.memories
      ensures i in s.tables.memories && MemoryKept(env.tables.memories[i], plan.steps, s.tables.memories[i])
    {
      OneMemoryKept(env, plan, i);
    }
    forall i | 0 <= i < |plan.steps|
      ensures TargetsOwned(env, e.refs, plan.steps[i])
    {
      OneTargetOwned(env, plan, entityKeys, edgeKeys, e, r, s, i);
    }
  }

  lemma PhaseMemories(env: Env, plan: Plan, entityKeys: seq<string>, edgeKeys: seq<string>,
                      e: EntitiesDone, r: EdgesDone, s: StepsDone)
    requires Phases(env, plan, entityKeys, edgeKeys, e, r, s)
    ensures forall i :: i in env.tables.memories ==>
              i in s.tables.memories
                  && s.tables.memories[i] == FinalMemory(env.tables.memories[i], plan.steps, env.tables.now)
    ensures CommittedRows(e.refs, plan.steps, s.committed)
    ensures StepsReported(env.tables, e.refs, s.tables.memories, plan.steps, s.steps)
  {
    hide RefsDone;
    hide RefsKept;
    hide AddedByRefs;
    hide EdgesReady;
    hide ListedDone;
    hide OthersAsPlanned;
    hide AddedByPlan;
    hide FinalMemory;
    hide CommittedRows;
    forall i | 0 <= i < |plan.steps|
      ensures StepReported(env.tables, e.refs, s.tables.memories, plan.steps[i], s.steps[i])
    {
      assert StepReported(r.tables, e.refs, s.tables.memories, plan.steps[i], s.steps[i]);
    }
  }

  lemma OneMemoryKept(env: Env, plan: Plan, id: Id)
    requires env.tables.Valid() && StepsOk(env, plan.refs, plan.steps) && id in env.tables.memories
    ensures MemoryKept(env.tables.memories[id], plan.steps,
        FinalMemory(env.tables.memories[id], plan.steps, env.tables.now))
  {
    var m, steps, now := env.tables.memories[id], plan.steps, env.tables.now;
    assert m.id == id by {
      assert env.tables.ValidMemory(id);
    }
    FinalKeepsIdentity(m, steps, now);
    if forall i :: 0 <= i < |steps| ==> !Targets(steps[i], id) {
      UntargetedUnchanged(m, steps, now);
    }
    forall i | 0 <= i < |steps| && Targets(steps[i], id) && (forall j :: i < j < |steps| ==> !Targets(steps[j], id))
      ensures var f := FinalMemory(m, steps, now);
              f.content == steps[i].candidate.content && f.confidence == steps[i].candidate.confidence
    {
      LastTargetWins(m, steps, now, i);
    }
    if !Singleton(m.category) {
      forall i | 0 <= i < |steps| && Targets(steps[i], id)
        ensures m.confidence < steps[i].candidate.confidence
      {
        assert StepOk(env, plan.refs, steps[i]);
      }
      ConfidenceNeverFalls(m, steps, now);
    }
  }

  lemma OneTargetOwned(env: Env, plan: Plan, entityKeys: seq<string>, edgeKeys: seq<string>,
                       e: EntitiesDone, r: EdgesDone, s: StepsDone, i: nat)
    requires StepsOk(env, plan.refs, plan.steps) && i < |plan.steps|
    requires Phases(env, plan, entityKeys, edgeKeys, e, r, s)
    ensures TargetsOwned(env, e.refs, plan.steps[i])
  {
    hide RefsDone;
    hide EdgesReady;
    hide EdgesDoneOk;
    hide MemoriesDone;
    assert StepOk(env, plan.refs, plan.steps[i]);
  }

  // ---- every requested edge ends up stored ----

  lemma AskedEdgesStored(env: Env, plan: Plan, entityKeys: seq<string>, edgeKeys: seq<string>, i: nat, toKey: string)
    requires env.Valid() && PlanOk(env, plan) && StepsAsked(env, plan)
    requires Lists(entityKeys, plan.refs) && Lists(edgeKeys, plan.edges)
    requires i < |plan.steps| && plan.steps[i].relationshipType != "" && toKey in plan.steps[i].relatedKeys
    ensures var c := CommitPlan(env.tables, plan, entityKeys, edgeKeys);
            && c.Ok? && Commit.Resolved(c.value.plan.refs, plan.steps[i].subjectKey)
                && Commit.Resolved(c.value.plan.refs, toKey)
            && RelationshipExists(c.value.tables, ResolvedId(c.value.plan.refs, plan.steps[i].subjectKey),
                                  ResolvedId(c.value.plan.refs, toKey), plan.steps[i].relationshipType)
  {
    hide *;
    var e, r, s := CommitPhases(env, plan, entityKeys, edgeKeys);
    EnvUnfold(env);
    PlanOkUnfold(env, plan);
    AskedOne(env, plan, i, toKey);
    var fromKey, kind := plan.steps[i].subjectKey, plan.steps[i].relationshipType;
    PlannedOrStored(env, plan, entityKeys, edgeKeys, e, r, s, fromKey, toKey, kind);
  }

  lemma AskedOne(env: Env, plan: Plan, i: nat, toKey: string)
    requires StepsAsked(env, plan) && i < |plan.steps|
    requires plan.steps[i].relationshipType != "" && toKey in plan.steps[i].relatedKeys
    ensures plan.steps[i].subjectKey in plan.refs && toKey in plan.refs
    ensures EdgeKey(plan.steps[i].subjectKey, toKey, plan.steps[i].relationshipType) in plan.edges
            || EdgeStored(env, plan.refs[plan.steps[i].subjectKey], plan.refs[toKey], plan.steps[i].relationshipType)
  {
    assert StepAsked(env, plan.refs, plan.edges, plan.steps[i]);
  }

  lemma RefKeyIsPlain(env: Env, refs: map<string, EntityRef>, key: string)
    requires env.u.Valid() && RefsOk(env, refs) && key in refs
    ensures Plain(key)
  {
    assert RefOk(env, key, refs[key]);
    if refs[key].existing.Some? {
      KeyIsPlain(env.u, refs[key].existing.value.name);
    } else {
      KeyIsPlain(env.u, refs[key].create.name);
    }
  }

  /** The plan's edge under this key is the requested edge itself, because keys decode uniquely. */
  lemma EdgeUnderKey(env: Env, plan: Plan, fromKey: string, toKey: string, kind: string)
    requires env.u.Valid() && RefsOk(env, plan.refs) && EdgesOk(env, plan.refs, plan.steps, plan.edges)
    requires fromKey in plan.refs && toKey in plan.refs && EdgeKey(fromKey, toKey, kind) in plan.edges
    ensures var e := plan.edges[EdgeKey(fromKey, toKey, kind)];
            e.fromKey == fromKey && e.toKey == toKey && e.kind == kind
  {
    var key := EdgeKey(fromKey, toKey, kind);
    var e := plan.edges[key];
    assert EdgeOk(env, plan.refs, plan.steps, key, e);
    RefKeyIsPlain(env, plan.refs, fromKey);
    RefKeyIsPlain(env, plan.refs, toKey);
    RefKeyIsPlain(env, plan.refs, e.fromKey);
    RefKeyIsPlain(env, plan.refs, e.toKey);
    EdgeKeyUnique(e.fromKey, e.toKey, e.kind, fromKey, toKey, kind);
  }

  lemma PlannedOrStored(env: Env, plan: Plan, entityKeys: seq<string>, edgeKeys: seq<string>,
                        e: EntitiesDone, r: EdgesDone, s: StepsDone, fromKey: string, toKey: string, kind: string)
    requires env.u.Valid() && RefsOk(env, plan.refs) && EdgesOk(env, plan.refs, plan.steps, plan.edges)
    requires Phases(env, plan, entityKeys, edgeKeys, e, r, s)
    requires Lists(entityKeys, plan.refs) && Lists(edgeKeys, plan.edges)
    requires fromKey in plan.refs && toKey in plan.refs
    requires EdgeKey(fromKey, toKey, kind) in plan.edges || EdgeStored(env, plan.refs[fromKey], plan.refs[toKey], kind)
    ensures Commit.Resolved(e.refs, fromKey) && Commit.Resolved(e.refs, toKey)
    ensures RelationshipExists(s.tables, ResolvedId(e.refs, fromKey), ResolvedId(e.refs, toKey), kind)
  {
    hide EdgeKey;
    hide RefsDone;
    hide MemoriesDone;
    hide AddedByPlan;
    AllResolved(plan.refs, entityKeys, e.refs);
    EdgeTables(env, plan, entityKeys, edgeKeys, e, r, s);
    var from, to := ResolvedId(e.refs, fromKey), ResolvedId(e.refs, toKey);
    if EdgeKey(fromKey, toKey, kind) in plan.edges {
      var key := EdgeKey(fromKey, toKey, kind);
      EdgeUnderKey(env, plan, fromKey, toKey, kind);
      assert EdgeDone(e.tables, r.tables, e.refs, plan.edges[key], r.edges[key]);
      if r.edges[key].createdId.Some? {
        assert HasTriple(s.tables.relationships[r.edges[key].createdId.value], e.refs, r.edges[key]);
      } else {
        assert RelationshipExists(e.tables, from, to, kind);
      }
    } else {
      assert e.refs[fromKey] == plan.refs[fromKey] && e.refs[toKey] == plan.refs[toKey];
    }
  }

  lemma EdgeTables(env: Env, plan: Plan, entityKeys: seq<string>, edgeKeys: seq<string>,
                   e: EntitiesDone, r: EdgesDone, s: StepsDone)
    requires Phases(env, plan, entityKeys, edgeKeys, e, r, s)
    ensures e.tables.relationships == env.tables.relationships && s.tables.relationships == r.tables.relationships
    ensures forall i :: i in e.tables.relationships ==>
        i in r.tables.relationships && r.tables.relationships[i] == e.tables.relationships[i]
  {
    hide RefsDone;
    hide RefsKept;
    hide AddedByRefs;
    hide EdgesReady;
    hide ListedDone;
    hide OthersAsPlanned;
    hide AddedByPlan;
    hide StepsReported;
    hide StoredFinal;
    hide CommittedRows;
  }
}
