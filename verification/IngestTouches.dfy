/** Which entities an ingest changes, and that the service invalidates all of them. */
module IngestTouches {
  import opened Types
  import opened Tables
  import opened Planner
  import opened PlanProperties
  import opened Commit
  import opened CommitEntities
  import opened CommitEdges
  import opened CommitMemories
  import opened CommitProperties
  import opened KeyOrder
  import opened Ingest
  import opened IngestProperties

  /** The memories of an entity are the same rows in both stores. */
  ghost predicate SameMemories(t: Tables, t': Tables, y: Id) {
    && (forall i :: i in t.memories && t.memories[i].entityId == y ==>
        i in t'.memories && t'.memories[i] == t.memories[i])
    && (forall i :: i in t'.memories && t'.memories[i].entityId == y ==>
        i in t.memories && t.memories[i] == t'.memories[i])
  }

  /** The edges touching an entity are the same rows in both stores. */
  ghost predicate SameEdges(t: Tables, t': Tables, y: Id) {
    && (forall i :: i in t.relationships && Touches(t.relationships[i], y) ==>
        i in t'.relationships && t'.relationships[i] == t.relationships[i])
    && (forall i :: i in t'.relationships && Touches(t'.relationships[i], y) ==>
        i in t.relationships && t.relationships[i] == t'.relationships[i])
  }

  // ---- where new rows come from ----

  ghost predicate OwnedByCreate(refs: map<string, EntityRef>, steps: seq<Step>, m: Memory) {
    exists j :: && 0 <= j < |steps| && Commit.Resolved(refs, steps[j].subjectKey)
                && m.entityId == ResolvedId(refs, steps[j].subjectKey)
  }

  lemma {:induction false} NewRowsOwned(t: Tables, refs: map<string, EntityRef>, edges: map<string, EdgePlan>,
      steps: seq<Step>)
    requires ExecuteSteps(t, refs, edges, steps).Ok?
    ensures var done := ExecuteSteps(t, refs, edges, steps).value;
            && (forall i :: i in done.tables.memories && i !in t.memories ==>
                OwnedByCreate(refs, steps, done.tables.memories[i]))
            && |done.steps| == |steps|
            && forall j :: 0 <= j < |steps| ==>
                 && Finished(steps[j], done.steps[j])
                 && done.steps[j].createdRelationIds
                    == steps[j].createdRelationIds + CreatedFrom(edges, steps[j].subjectKey)
    decreases |steps|
  {
    hide CreatedFrom, CreatedIds, OwnedByCreate, ExecuteOne, Finished;
    if steps != [] {
      var n := |steps| - 1;
      NewRowsOwned(t, refs, edges, steps[..n]);
      var before := ExecuteSteps(t, refs, edges, steps[..n]).value;
      var done := ExecuteSteps(t, refs, edges, steps).value;
      assert ExecuteOne(refs, edges, before, steps[n]) == Ok(done);
      OneStepFinished(refs, edges, before, steps[n]);
      hide ExecuteSteps;
      forall i | i in done.tables.memories && i !in t.memories
        ensures OwnedByCreate(refs, steps, done.tables.memories[i])
      {
        OneRowOwned(refs, edges, before, steps, i, t);
      }
    }
  }

  lemma OneStepFinished(refs: map<string, EntityRef>, edges: map<string, EdgePlan>, before: StepsDone, s: Step)
    requires ExecuteOne(refs, edges, before, s).Ok?
    ensures var done := ExecuteOne(refs, edges, before, s).value;
            && |done.steps| == |before.steps| + 1
            && done.steps[..|before.steps|] == before.steps
            && Finished(s, done.steps[|before.steps|])
            && done.steps[|before.steps|].createdRelationIds == s.createdRelationIds + CreatedFrom(edges, s.subjectKey)
  {
    hide CreatedFrom, CreatedIds, ResolvedId, StepWrite;
  }

  lemma OneRowOwned(refs: map<string, EntityRef>, edges: map<string, EdgePlan>, before: StepsDone, steps: seq<Step>,
      i: Id, t: Tables)
    requires steps != [] && ExecuteOne(refs, edges, before, steps[|steps| - 1]).Ok?
    requires i in before.tables.memories && i !in t.memories ==>
        OwnedByCreate(refs, steps[..|steps| - 1], before.tables.memories[i])
    requires i in ExecuteOne(refs, edges, before, steps[|steps| - 1]).value.tables.memories && i !in t.memories
    ensures OwnedByCreate(refs, steps, ExecuteOne(refs, edges, before, steps[|steps| - 1]).value.tables.memories[i])
  {
    hide CreatedFrom;
    hide CreatedIds;
    var n := |steps| - 1;
    var m := ExecuteOne(refs, edges, before, steps[n]).value.tables.memories[i];
    OneRowKept(refs, edges, before, steps[n], i);
    hide ExecuteOne, ResolvedId;
    if i in before.tables.memories && m.entityId == before.tables.memories[i].entityId {
      var j :| 0 <= j < n && Commit.Resolved(refs, steps[..n][j].subjectKey)
               && before.tables.memories[i].entityId == ResolvedId(refs, steps[..n][j].subjectKey);
      assert steps[..n][j] == steps[j];
    } else {
      assert Commit.Resolved(refs, steps[n].subjectKey) && m.entityId == ResolvedId(refs, steps[n].subjectKey);
    }
  }

  /** A row after one step was there before with the same owner, or belongs to the step's subject. */
  lemma OneRowKept(refs: map<string, EntityRef>, edges: map<string, EdgePlan>, before: StepsDone, s: Step, i: Id)
    requires ExecuteOne(refs, edges, before, s).Ok? && i in ExecuteOne(refs, edges, before, s).value.tables.memories
    ensures Commit.Resolved(refs, s.subjectKey)
    ensures var m := ExecuteOne(refs, edges, before, s).value.tables.memories[i];
            || (i in before.tables.memories && m.entityId == before.tables.memories[i].entityId)
            || m.entityId == ResolvedId(refs, s.subjectKey)
  {
    hide CreatedFrom, CreatedIds;
  }

  // ---- the touched entities cover every change ----

  lemma {:induction false} TouchesOfStep(refs: map<string, EntityRef>, steps: seq<Step>, j: nat, id: Id)
    requires j < |steps| && id in StepTouches(refs, steps[j])
    ensures id in AllTouches(refs, steps)
    decreases |steps|
  {
    hide StepTouches;
    if j < |steps| - 1 {
      TouchesOfStep(refs, steps[..|steps| - 1], j, id);
    }
  }

  lemma {:induction false} RelatedIsTouched(refs: map<string, EntityRef>, keys: seq<string>, k: string)
    requires k in keys && Commit.Resolved(refs, k)
    ensures ResolvedId(refs, k) in RelatedIds(refs, keys)
    decreases |keys|
  {
    var n := |keys| - 1;
    if keys[n] != k {
      RelatedIsTouched(refs, keys[..n], k);
    }
  }

  /** The subject of a step is touched, whether found or created. */
  lemma SubjectIsTouched(env: Env, plan: Plan, entityKeys: seq<string>, e: EntitiesDone, steps: seq<Step>, j: nat)
    requires StepsOk(env, plan.refs, plan.steps) && RefsDone(env.u, e.tables, env.tables.nextId, e.refs)
        && RefsKept(plan.refs, entityKeys, e.refs)
    requires Lists(entityKeys, plan.refs)
    requires j < |steps| == |plan.steps| && Finished(plan.steps[j], steps[j])
    ensures Commit.Resolved(e.refs, plan.steps[j].subjectKey)
    ensures ResolvedId(e.refs, plan.steps[j].subjectKey) in AllTouches(e.refs, steps)
  {
    hide *;
    StepSubject(env, plan.refs, plan.steps, j);
    SubjectRef(env, plan, entityKeys, e, plan.steps[j].subjectKey);
    SubjectInTouches(plan.refs, e.refs, plan.steps[j], steps[j]);
    TouchesOfStep(e.refs, steps, j, ResolvedId(e.refs, plan.steps[j].subjectKey));
  }

  lemma StepSubject(env: Env, refs: map<string, EntityRef>, steps: seq<Step>, j: nat)
    requires StepsOk(env, refs, steps) && j < |steps|
    ensures steps[j].subjectKey in refs && steps[j].subjectExisting == refs[steps[j].subjectKey].existing
    ensures steps[j].createdRelationIds == {}
  {
    assert StepOk(env, refs, steps[j]);
  }

  lemma SubjectRef(env: Env, plan: Plan, entityKeys: seq<string>, e: EntitiesDone, k: string)
    requires RefsDone(env.u, e.tables, env.tables.nextId, e.refs) && RefsKept(plan.refs, entityKeys, e.refs)
    requires Lists(entityKeys, plan.refs) && k in plan.refs
    ensures Commit.Resolved(e.refs, k)
    ensures plan.refs[k].existing.Some? ==> e.refs[k].existing == plan.refs[k].existing
    ensures plan.refs[k].existing.None? ==> e.refs[k].createdId == Some(e.refs[k].existing.value.id)
  {
    hide EntityKey;
    assert RefDone(env.u, e.tables, env.tables.nextId, k, e.refs[k]);
  }

  lemma SubjectInTouches(refs: map<string, EntityRef>, refs': map<string, EntityRef>, s: Step, f: Step)
    requires s.subjectKey in refs && s.subjectExisting == refs[s.subjectKey].existing && Finished(s, f)
    requires Commit.Resolved(refs', s.subjectKey)
    requires refs[s.subjectKey].existing.Some? ==> refs'[s.subjectKey].existing == refs[s.subjectKey].existing
    requires refs[s.subjectKey].existing.None? ==>
        refs'[s.subjectKey].createdId == Some(refs'[s.subjectKey].existing.value.id)
    ensures ResolvedId(refs', s.subjectKey) in StepTouches(refs', f)
  {
    hide RelatedIds;
    var id := ResolvedId(refs', s.subjectKey);
    if s.subjectExisting.Some? {
      assert StepTouches(refs', f)[0] == id;
    } else {
      assert StepTouches(refs', f)[1] == id;
    }
  }

  /** A relationship row made for a planned edge. */
  ghost predicate MadeFor(plan: Plan, r: EdgesDone, refs: map<string, EntityRef>, i: Id, k: string) {
    && k in plan.edges && k in r.edges && r.edges[k].createdId == Some(i)
    && i in r.tables.relationships && HasTriple(r.tables.relationships[i], refs, r.edges[k])
    && r.edges[k] == plan.edges[k].(createdId := r.edges[k].createdId)
  }

  /** Both ends of a created edge are touched. */
  lemma EdgeEndsTouched(env: Env, plan: Plan, entityKeys: seq<string>, e: EntitiesDone, r: EdgesDone,
      steps: seq<Step>, i: Id, k: string)
    requires StepsOk(env, plan.refs, plan.steps) && EdgesOk(env, plan.refs, plan.steps, plan.edges)
    requires RefsDone(env.u, e.tables, env.tables.nextId, e.refs) && RefsKept(plan.refs, entityKeys, e.refs)
        && Lists(entityKeys, plan.refs)
    requires |steps| == |plan.steps|
    requires forall j :: 0 <= j < |steps| ==>
               && Finished(plan.steps[j], steps[j])
               && steps[j].createdRelationIds
                   == plan.steps[j].createdRelationIds + CreatedFrom(r.edges, plan.steps[j].subjectKey)
    requires MadeFor(plan, r, e.refs, i, k)
    ensures i in r.tables.relationships
    ensures r.tables.relationships[i].from in AllTouches(e.refs, steps)
        && r.tables.relationships[i].to in AllTouches(e.refs, steps)
  {
    hide *;
    MadeForParts(plan, r, e.refs, i, k);
    var j := AskingStep(env, plan, k);
    SubjectIsTouched(env, plan, entityKeys, e, steps, j);
    var to := ResolvedId(e.refs, plan.edges[k].toKey);
    RelatedInTouches(e.refs, plan.steps[j], steps[j], r.edges, plan.edges[k].toKey, i, k);
    TouchesOfStep(e.refs, steps, j, to);
  }

  lemma MadeForParts(plan: Plan, r: EdgesDone, refs: map<string, EntityRef>, i: Id, k: string)
    requires MadeFor(plan, r, refs, i, k)
    ensures k in plan.edges && k in r.edges && r.edges[k].createdId == Some(i)
        && r.edges[k].fromKey == plan.edges[k].fromKey
    ensures i in r.tables.relationships && Commit.Resolved(refs, plan.edges[k].fromKey)
        && Commit.Resolved(refs, plan.edges[k].toKey)
    ensures r.tables.relationships[i].from == ResolvedId(refs, plan.edges[k].fromKey)
    ensures r.tables.relationships[i].to == ResolvedId(refs, plan.edges[k].toKey)
  {
  }

  lemma AskingStep(env: Env, plan: Plan, k: string) returns (j: nat)
    requires EdgesOk(env, plan.refs, plan.steps, plan.edges) && k in plan.edges
    ensures j < |plan.steps| && plan.steps[j].subjectKey == plan.edges[k].fromKey
        && plan.edges[k].toKey in plan.steps[j].relatedKeys
  {
    hide EdgeKey;
    assert EdgeOk(env, plan.refs, plan.steps, k, plan.edges[k]);
    j :| 0 <= j < |plan.steps| && AskedBy(plan.edges[k], plan.steps[j]);
  }

  lemma RelatedInTouches(refs: map<string, EntityRef>, s: Step, f: Step, edges: map<string, EdgePlan>, toKey: string,
      i: Id, k: string)
    requires Finished(s, f) && f.createdRelationIds == s.createdRelationIds + CreatedFrom(edges, s.subjectKey)
    requires k in edges && edges[k].createdId == Some(i) && edges[k].fromKey == s.subjectKey
    requires toKey in s.relatedKeys && Commit.Resolved(refs, toKey)
    ensures ResolvedId(refs, toKey) in StepTouches(refs, f)
  {
    assert i in CreatedFrom(edges, s.subjectKey);
    RelatedIsTouched(refs, f.relatedKeys, toKey);
  }

  /** An untouched entity keeps its row, its memories and its edges through a commit. */
  ghost predicate Untouched(t: Tables, t': Tables, y: Id) {
    && (y in t.entities ==> y in t'.entities && t'.entities[y] == t.entities[y])
    && SameMemories(t, t', y) && SameEdges(t, t', y)
  }

  lemma MemoriesUntouched(env: Env, plan: Plan, entityKeys: seq<string>, edgeKeys: seq<string>,
                          e: EntitiesDone, r: EdgesDone, s: StepsDone, y: Id)
    requires env.tables.Valid() && StepsOk(env, plan.refs, plan.steps) && Lists(entityKeys, plan.refs)
    requires RefsDone(env.u, e.tables, env.tables.nextId, e.refs) && RefsKept(plan.refs, entityKeys, e.refs)
    requires r.tables.memories == env.tables.memories
    requires forall i :: i in env.tables.memories ==>
        i in s.tables.memories && MemoryKept(env.tables.memories[i], plan.steps, s.tables.memories[i])
    requires forall i :: i in s.tables.memories && i !in r.tables.memories ==>
        OwnedByCreate(e.refs, plan.steps, s.tables.memories[i])
    requires |s.steps| == |plan.steps| && forall j :: 0 <= j < |s.steps| ==> Finished(plan.steps[j], s.steps[j])
    requires y !in AllTouches(e.refs, s.steps)
    ensures SameMemories(env.tables, s.tables, y)
  {
    forall i | i in env.tables.memories && env.tables.memories[i].entityId == y
      ensures s.tables.memories[i] == env.tables.memories[i]
    {
      assert env.tables.ValidMemory(i);
      forall j | 0 <= j < |plan.steps|
        ensures !Targets(plan.steps[j], i)
      {
        if Targets(plan.steps[j], i) {
          TargetIsTouched(env, plan, e, s.steps, j, i);
        }
      }
    }
    forall i | i in s.tables.memories && s.tables.memories[i].entityId == y
      ensures i in env.tables.memories && env.tables.memories[i] == s.tables.memories[i]
    {
      if i !in env.tables.memories {
        var j :| 0 <= j < |plan.steps| && Commit.Resolved(e.refs, plan.steps[j].subjectKey)
            && y == ResolvedId(e.refs, plan.steps[j].subjectKey);
        SubjectIsTouched(env, plan, entityKeys, e, s.steps, j);
      }
    }
  }

  lemma TargetIsTouched(env: Env, plan: Plan, e: EntitiesDone, steps: seq<Step>, j: nat, i: Id)
    requires StepsOk(env, plan.refs, plan.steps) && j < |plan.steps| == |steps| && Targets(plan.steps[j], i)
    requires Finished(plan.steps[j], steps[j])
    ensures i in env.tables.memories && env.tables.memories[i].entityId in AllTouches(e.refs, steps)
  {
    assert StepOk(env, plan.refs, plan.steps[j]);
    assert StepTouches(e.refs, steps[j])[0] == env.tables.memories[i].entityId;
    TouchesOfStep(e.refs, steps, j, env.tables.memories[i].entityId);
  }

  lemma EdgesUntouched(env: Env, plan: Plan, entityKeys: seq<string>, edgeKeys: seq<string>,
                       e: EntitiesDone, r: EdgesDone, s: StepsDone, y: Id)
    requires StepsOk(env, plan.refs, plan.steps) && EdgesOk(env, plan.refs, plan.steps, plan.edges)
    requires RefsDone(env.u, e.tables, env.tables.nextId, e.refs) && RefsKept(plan.refs, entityKeys, e.refs)
    requires Lists(entityKeys, plan.refs) && Lists(edgeKeys, plan.edges)
    requires EdgesDoneOk(e.tables, e.refs, plan.edges, edgeKeys, r)
    requires e.tables.relationships == env.tables.relationships && s.tables.relationships == r.tables.relationships
    requires |s.steps| == |plan.steps|
    requires forall j :: 0 <= j < |s.steps| ==>
               && Finished(plan.steps[j], s.steps[j])
               && s.steps[j].createdRelationIds
                   == plan.steps[j].createdRelationIds + CreatedFrom(r.edges, plan.steps[j].subjectKey)
    requires y !in AllTouches(e.refs, s.steps)
    ensures SameEdges(env.tables, s.tables, y)
  {
    hide *;
    EdgesGrow(e, r, plan, edgeKeys);
    forall i | i in s.tables.relationships && i !in env.tables.relationships
      ensures s.tables.relationships[i].from != y && s.tables.relationships[i].to != y
    {
      var k := PlanOfEdge(e, r, plan, edgeKeys, i);
      EdgeEndsTouched(env, plan, entityKeys, e, r, s.steps, i, k);
    }
    SameEdgesFolds(env.tables, s.tables, y);
  }

  lemma EdgesGrow(e: EntitiesDone, r: EdgesDone, plan: Plan, edgeKeys: seq<string>)
    requires EdgesDoneOk(e.tables, e.refs, plan.edges, edgeKeys, r)
    ensures forall i :: i in e.tables.relationships ==>
        i in r.tables.relationships && r.tables.relationships[i] == e.tables.relationships[i]
  {
  }

  lemma PlanOfEdge(e: EntitiesDone, r: EdgesDone, plan: Plan, edgeKeys: seq<string>, i: Id) returns (k: string)
    requires EdgesDoneOk(e.tables, e.refs, plan.edges, edgeKeys, r) && Lists(edgeKeys, plan.edges)
    requires i in r.tables.relationships && i !in e.tables.relationships
    ensures MadeFor(plan, r, e.refs, i, k)
  {
    k :| k in edgeKeys && k in r.edges && r.edges[k].createdId == Some(i);
    assert EdgeDone(e.tables, r.tables, e.refs, plan.edges[k], r.edges[k]);
  }

  lemma SameEdgesFolds(t: Tables, t': Tables, y: Id)
    requires forall i :: i in t.relationships ==> i in t'.relationships && t'.relationships[i] == t.relationships[i]
    requires forall i :: i in t'.relationships && i !in t.relationships ==>
        t'.relationships[i].from != y && t'.relationships[i].to != y
    ensures SameEdges(t, t', y)
  {
  }

  /** Every entity the commit does not touch is untouched. */
  lemma CommitTouches(env: Env, plan: Plan, entityKeys: seq<string>, edgeKeys: seq<string>, y: Id)
    requires env.Valid() && PlanOk(env, plan) && Lists(entityKeys, plan.refs) && Lists(edgeKeys, plan.edges)
    ensures var c := CommitPlan(env.tables, plan, entityKeys, edgeKeys);
            c.Ok? && (y !in AllTouches(c.value.plan.refs, c.value.plan.steps) ==>
                Untouched(env.tables, c.value.tables, y))
  {
    hide *;
    EnvUnfold(env);
    PlanOkUnfold(env, plan);
    var e, r, s := CommitPhases(env, plan, entityKeys, edgeKeys);
    if y !in AllTouches(e.refs, s.steps) {
      PhaseParts(env, plan, entityKeys, edgeKeys, e, r, s);
      PhaseEntities(env, plan, entityKeys, edgeKeys, e, r, s);
      EdgeTables(env, plan, entityKeys, edgeKeys, e, r, s);
      NewRowsOwned(r.tables, e.refs, r.edges, plan.steps);
      CommitKeepsMemories(env, plan, entityKeys, edgeKeys);
      MemoriesUntouched(env, plan, entityKeys, edgeKeys, e, r, s, y);
      EdgesUntouched(env, plan, entityKeys, edgeKeys, e, r, s, y);
      UntouchedFolds(env.tables, s.tables, y);
    }
  }

  lemma UntouchedFolds(t: Tables, t': Tables, y: Id)
    requires y in t.entities ==> y in t'.entities && t'.entities[y] == t.entities[y]
    requires SameMemories(t, t', y) && SameEdges(t, t', y)
    ensures Untouched(t, t', y)
  {
  }

  /** No audited row belongs to an untouched entity. */
  lemma AuditedRowsTouched(env: Env, plan: Plan, entityKeys: seq<string>, edgeKeys: seq<string>, y: Id, k: nat)
    requires env.Valid() && PlanOk(env, plan) && Lists(entityKeys, plan.refs) && Lists(edgeKeys, plan.edges)
    requires var c := CommitPlan(env.tables, plan, entityKeys, edgeKeys);
             c.Ok? && k < |c.value.memories| && y !in AllTouches(c.value.plan.refs, c.value.plan.steps)
    ensures var c := CommitPlan(env.tables, plan, entityKeys, edgeKeys).value;
            c.memories[k].id in c.tables.memories && c.tables.memories[c.memories[k].id].entityId != y
  {
    hide *;
    EnvUnfold(env);
    PlanOkUnfold(env, plan);
    var e, r, s := CommitPhases(env, plan, entityKeys, edgeKeys);
    PhaseParts(env, plan, entityKeys, edgeKeys, e, r, s);
    PhaseRows(env, plan, entityKeys, edgeKeys, e, r, s);
    PhaseOrigins(env, plan, entityKeys, edgeKeys, e, r, s);
    NewRowsOwned(r.tables, e.refs, r.edges, plan.steps);
    CommitKeepsMemories(env, plan, entityKeys, edgeKeys);
    RowsKeyed(env.tables);
    var id := s.committed[k].id;
    RowIsStored(s.tables.memories, s.committed, k);
    if id in env.tables.memories {
      var j := OriginOf(env.tables.memories, plan.steps, s.committed, k);
      TargetIsTouched(env, plan, e, s.steps, j, id);
      OwnerKept(env.tables.memories[id], plan.steps, s.tables.memories[id]);
    } else {
      var j := CreatorOf(e.refs, plan.steps, s.tables.memories[id]);
      SubjectIsTouched(env, plan, entityKeys, e, s.steps, j);
    }
  }

  lemma RowIsStored(memories: map<Id, Memory>, rows: seq<Memory>, k: nat)
    requires RowsStored(memories, rows) && k < |rows|
    ensures rows[k].id in memories
  {
    assert rows[k] in rows;
  }

  lemma OriginOf(memories: map<Id, Memory>, steps: seq<Step>, rows: seq<Memory>, k: nat) returns (j: nat)
    requires RowOrigins(memories, steps, rows) && k < |rows| && rows[k].id in memories
    ensures j < |steps| && Targets(steps[j], rows[k].id)
  {
    assert rows[k] in rows;
    j :| 0 <= j < |steps| && Targets(steps[j], rows[k].id);
  }

  lemma CreatorOf(refs: map<string, EntityRef>, steps: seq<Step>, m: Memory) returns (j: nat)
    requires OwnedByCreate(refs, steps, m)
    ensures j < |steps| && Commit.Resolved(refs, steps[j].subjectKey)
        && m.entityId == ResolvedId(refs, steps[j].subjectKey)
  {
    j :| 0 <= j < |steps| && Commit.Resolved(refs, steps[j].subjectKey)
        && m.entityId == ResolvedId(refs, steps[j].subjectKey);
  }

  lemma OwnerKept(m: Memory, steps: seq<Step>, m': Memory)
    requires MemoryKept(m, steps, m')
    ensures m'.entityId == m.entityId
  {
  }

  lemma StillUntouched(t: Tables, done: Tables, t': Tables, ids: set<Id>, sourceId: Id, now: nat, y: Id)
    requires Untouched(t, done, y) && t'.entities == done.entities && t'.relationships == done.relationships
    requires t'.memories == LinkedTable(done.memories, ids, sourceId, now)
    requires forall i :: i in ids ==> i in done.memories && done.memories[i].entityId != y
    ensures Untouched(t, t', y)
  {
  }

  /** What an ingest leaves alone: everything, if it does not commit; otherwise every entity outside those the
      service then invalidates. */
  lemma IngestUntouched(cfg: Config, t: Tables, req: Request, extraction: Extraction, faults: Faults, y: Id)
    requires ValidConfig(cfg) && t.Valid()
    ensures var o, p := RunIngest(cfg, t, req, extraction, faults), FinishedPlan(cfg, t, req, extraction, faults);
            && (p.None? ==> o.tables == t)
            && (p.Some? && y !in AllTouches(p.value.refs, p.value.steps) ==> Untouched(t, o.tables, y))
  {
    hide *;
    RunCases(cfg, t, req, extraction, faults);
    FinishedCases(cfg, t, req, extraction, faults);
    if PlanRequest(cfg, t, req, extraction, faults).Ok? {
      PlannedOk(cfg, t, req, extraction, faults);
      if Commits(extraction, req) && !faults.commitFails {
        var plan := PlanRequest(cfg, t, req, extraction, faults).value;
        CommittedUntouched(Env(cfg.u, t, cfg.threshold, faults), plan, req, RequestSubject(cfg, t, req), y);
      }
    }
  }

  lemma FinishedCases(cfg: Config, t: Tables, req: Request, extraction: Extraction, faults: Faults)
    requires t.Valid()
    ensures match PlanRequest(cfg, t, req, extraction, faults)
            case Err(_) => FinishedPlan(cfg, t, req, extraction, faults).None?
            case Ok(plan) =>
              && extraction.Some? && extraction.value.Ok?
              && Lists(SortedKeys(plan.refs.Keys), plan.refs) && Lists(SortedKeys(plan.edges.Keys), plan.edges)
              && (!Commits(extraction, req) || faults.commitFails ==>
                  FinishedPlan(cfg, t, req, extraction, faults).None?)
              && (Commits(extraction, req) && !faults.commitFails ==>
                    var c := CommitPlan(t, plan, SortedKeys(plan.refs.Keys), SortedKeys(plan.edges.Keys));
                    FinishedPlan(cfg, t, req, extraction, faults) == if c.Ok? then Some(c.value.plan) else None)
  {
    hide BuildPlan;
    hide CommitPlan;
    hide ExplicitSubject;
    if PlanRequest(cfg, t, req, extraction, faults).Ok? {
      SortedKeysList(PlanRequest(cfg, t, req, extraction, faults).value.refs);
      SortedKeysList(PlanRequest(cfg, t, req, extraction, faults).value.edges);
    }
  }

  lemma CommittedUntouched(env: Env, plan: Plan, req: Request, subject: Option<Entity>, y: Id)
    requires env.Valid() && PlanOk(env, plan) && (subject.Some? ==> subject.value.id in env.tables.entities)
    requires Lists(SortedKeys(plan.refs.Keys), plan.refs) && Lists(SortedKeys(plan.edges.Keys), plan.edges)
    requires !env.faults.commitFails
    ensures var c := CommitPlan(env.tables, plan, SortedKeys(plan.refs.Keys), SortedKeys(plan.edges.Keys));
            && c.Ok?
            && (y !in AllTouches(c.value.plan.refs, c.value.plan.steps) ==>
                  Untouched(env.tables, CommitAndAudit(env.tables, req, SubjectId(subject), plan, env.faults).tables,
                      y))
  {
    hide *;
    var eks, rks := SortedKeys(plan.refs.Keys), SortedKeys(plan.edges.Keys);
    var o := CommitAndAudit(env.tables, req, SubjectId(subject), plan, env.faults);
    var done := CommitAuditedHolds(env, plan, req, SubjectId(subject));
    AuditedUnfold(env, plan, req, SubjectId(subject), o, done);
    AuditedValid(env, plan, req, subject, o, done);
    CommitTouches(env, plan, eks, rks, y);
    if y !in AllTouches(done.plan.refs, done.plan.steps) {
      var fails := env.faults.auditFails;
      forall i | i in AuditedIds(done.memories, fails)
        ensures i in done.tables.memories && done.tables.memories[i].entityId != y
      {
        var k := RowAt(done.memories, fails, i);
        AuditedRowsTouched(env, plan, eks, rks, y, k);
      }
      StillUntouched(env.tables, done.tables, o.tables, AuditedIds(done.memories, fails), done.tables.nextId,
                     done.tables.now, y);
    }
  }

  lemma RowAt(rows: seq<Memory>, fails: seq<bool>, i: Id) returns (k: nat)
    requires i in AuditedIds(rows, fails)
    ensures k < |rows| && rows[k].id == i
  {
    k :| 0 <= k < |rows| && rows[k].id == i;
  }

  // ---- and nothing else is invalidated ----

  /** The entities one step touches: its subject, found or created, and, when it created relationships, the
      entities they lead to. */
  ghost predicate TouchedBy(refs: map<string, EntityRef>, s: Step, id: Id) {
    || (s.subjectExisting.Some? && id == s.subjectExisting.value.id)
    || (s.subjectKey in refs && refs[s.subjectKey].createdId == Some(id))
    || (s.createdRelationIds != {}
        && exists k :: k in s.relatedKeys && k in refs && refs[k].existing.Some? && id == refs[k].existing.value.id)
  }

  lemma {:induction false} RelatedOnly(refs: map<string, EntityRef>, keys: seq<string>, id: Id)
    ensures id != NIL_ID ==>
              (id in RelatedIds(refs, keys)
               <==> exists k :: k in keys && k in refs && refs[k].existing.Some? && id == refs[k].existing.value.id)
    decreases |keys|
  {
    if keys != [] {
      var n := |keys| - 1;
      RelatedOnly(refs, keys[..n], id);
      assert keys == keys[..n] + [keys[n]];
    }
  }

  lemma StepTouchesOnly(refs: map<string, EntityRef>, s: Step, id: Id)
    ensures id != NIL_ID ==> (id in StepTouches(refs, s) <==> TouchedBy(refs, s, id))
  {
    RelatedOnly(refs, s.relatedKeys, id);
    var first := [DerefEntity(s.subjectExisting), DerefCreated(refs, s.subjectKey)];
    var related := RelatedIds(refs, s.relatedKeys);
    hide RelatedIds;
    assert id in first <==> id == first[0] || id == first[1];
    assert StepTouches(refs, s) == first + if s.createdRelationIds != {} then related else [];
  }

  /** An ingest invalidates exactly the entities its steps touch. */
  lemma {:induction false} TouchesMean(refs: map<string, EntityRef>, steps: seq<Step>, id: Id)
    ensures id != NIL_ID ==>
              (id in AllTouches(refs, steps) <==> exists j :: 0 <= j < |steps| && TouchedBy(refs, steps[j], id))
    decreases |steps|
  {
    hide StepTouches, TouchedBy;
    if steps != [] {
      var n := |steps| - 1;
      TouchesMean(refs, steps[..n], id);
      StepTouchesOnly(refs, steps[n], id);
      if id != NIL_ID && exists j :: 0 <= j < |steps[..n]| && TouchedBy(refs, steps[..n][j], id) {
        var j :| 0 <= j < |steps[..n]| && TouchedBy(refs, steps[..n][j], id);
        assert TouchedBy(refs, steps[j], id);
      }
    }
  }
}
