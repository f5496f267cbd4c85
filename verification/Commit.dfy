/** Committing a plan: entities, then edges, then memories, inside one transaction. */
module Commit {
  import opened Types
  import opened Ordering
  import opened Tables
  import opened Planner

  /** The keys of a table in some order, each once. */
  ghost predicate Lists<T>(keys: seq<string>, table: map<string, T>) {
    Distinct(keys) && forall k :: k in keys <==> k in table
  }

  datatype EntitiesDone = EntitiesDone(tables: Tables, refs: map<string, EntityRef>)

  /** Create the missing entities, in the order of keys. */
  function CreateEntities(t: Tables, refs: map<string, EntityRef>, keys: seq<string>): (r: Result<EntitiesDone>)
    requires forall k :: k in keys ==> k in refs
    ensures r.Ok? ==> r.value.refs.Keys == refs.Keys
  {
    if keys == [] then Ok(EntitiesDone(t, refs))
    else
      var n := |keys| - 1;
      assert forall k :: k in keys[..n] ==> k in keys;
      var done :- CreateEntities(t, refs, keys[..n]);
      CreateOneEntity(done, keys[n])
  }

  function CreateOneEntity(done: EntitiesDone, key: string): (r: Result<EntitiesDone>)
    requires key in done.refs
    ensures r.Ok? ==> r.value.refs.Keys == done.refs.Keys
  {
    var ref := done.refs[key];
    if ref.existing.Some? then Ok(done)
    else
      var w :- CreateEntity(done.tables, ref.create);
      Ok(EntitiesDone(w.tables, done.refs[key := ref.(existing := Some(w.row), createdId := Some(w.row.id))]))
  }

  datatype EdgesDone = EdgesDone(tables: Tables, edges: map<string, EdgePlan>)

  predicate Resolved(refs: map<string, EntityRef>, key: string) {
    key in refs && refs[key].existing.Some?
  }

  function ResolvedId(refs: map<string, EntityRef>, key: string): Id
    requires Resolved(refs, key)
  {
    refs[key].existing.value.id
  }

  lemma ResolvedIs(refs: map<string, EntityRef>, key: string)
    ensures Resolved(refs, key) <==> key in refs && refs[key].existing.Some?
    ensures Resolved(refs, key) ==> ResolvedId(refs, key) == refs[key].existing.value.id
  {
  }

  const UNRESOLVED_EDGE := StoreFailure("relationship entity resolution failed")
  const MISSING_SUBJECT := StoreFailure("subject entity missing during ingest commit")
  const MISSING_TARGET := StoreFailure("missing target memory for update")

  /** Create the planned edges, in the order of keys; an edge already stored is skipped. */
  function CreateEdges(t: Tables, refs: map<string, EntityRef>, edges: map<string, EdgePlan>, keys: seq<string>)
      : (r: Result<EdgesDone>)
    requires forall k :: k in keys ==> k in edges
    ensures r.Ok? ==> r.value.edges.Keys == edges.Keys
  {
    if keys == [] then Ok(EdgesDone(t, edges))
    else
      var n := |keys| - 1;
      assert forall k :: k in keys[..n] ==> k in keys;
      var done :- CreateEdges(t, refs, edges, keys[..n]);
      CreateOneEdge(refs, done, keys[n])
  }

  function EdgeParams(refs: map<string, EntityRef>, e: EdgePlan): CreateRelationshipParams
    requires Resolved(refs, e.fromKey) && Resolved(refs, e.toKey)
  {
    CreateRelationshipParams(ResolvedId(refs, e.fromKey), ResolvedId(refs, e.toKey), e.kind, None, CREATED_VIA_INGEST)
  }

  function CreateOneEdge(refs: map<string, EntityRef>, done: EdgesDone, key: string): (r: Result<EdgesDone>)
    requires key in done.edges
    ensures r.Ok? ==> r.value.edges.Keys == done.edges.Keys
  {
    var e := done.edges[key];
    if !Resolved(refs, e.fromKey) || !Resolved(refs, e.toKey) then Err(UNRESOLVED_EDGE)
    else
      var p := EdgeParams(refs, e);
      if RelationshipExists(done.tables, p.from, p.to, p.kind) then Ok(done)
      else
        var w :- CreateRelationship(done.tables, p);
        Ok(EdgesDone(w.tables, done.edges[key := e.(createdId := Some(w.row.id))]))
  }

  datatype StepsDone = StepsDone(tables: Tables, steps: seq<Step>, committed: seq<Memory>)

  function NewMemoryParams(entityId: Id, c: Candidate): CreateMemoryParams {
    CreateMemoryParams(entityId, c.content, c.category, c.confidence, None, None, CREATED_VIA_INGEST)
  }

  function UpdatePatch(c: Candidate): MemoryPatch {
    MemoryPatch(Some(c.content), Some(c.confidence), None, false, Some(UPDATED_VIA_INGEST), None, false)
  }

  /** The write of one step: nothing for merge and no-op. */
  function StepWrite(t: Tables, subjectId: Id, s: Step): Result<Wrote<seq<Memory>>> {
    match s.decision.action
    case CreateAction =>
      var w :- CreateMemory(t, NewMemoryParams(subjectId, s.candidate));
      Ok(Wrote(w.tables, [w.row]))
    case UpdateAction =>
      if s.decision.target.None? then Err(MISSING_TARGET)
      else
        var w :- UpdateMemory(t, s.decision.target.value, UpdatePatch(s.candidate));
        Ok(Wrote(w.tables, [w.row]))
    case _ => Ok(Wrote(t, []))
  }

  function CreatedIds(refs: map<string, EntityRef>, keys: seq<string>): seq<Id> {
    if keys == [] then []
    else
      var n := |keys| - 1;
      CreatedIds(refs, keys[..n])
      + if keys[n] in refs && refs[keys[n]].createdId.Some? then [refs[keys[n]].createdId.value] else []
  }

  function CreatedFrom(edges: map<string, EdgePlan>, fromKey: string): set<Id> {
    set k | k in edges && edges[k].createdId.Some? && edges[k].fromKey == fromKey :: edges[k].createdId.value
  }

  /** A step as reported after its write. */
  function FinishedStep(refs: map<string, EntityRef>, edges: map<string, EdgePlan>, s: Step, subjectId: Id,
      rows: seq<Memory>): Step {
    s.(subjectId := Some(subjectId),
       createdMemoryId := if s.decision.action.CreateAction? && rows != [] then Some(rows[0].id) else s.createdMemoryId,
       createdEntityIds := s.createdEntityIds + CreatedIds(refs, s.relatedKeys + [s.subjectKey]),
       createdRelationIds := s.createdRelationIds + CreatedFrom(edges, s.subjectKey))
  }

  function ExecuteSteps(t: Tables, refs: map<string, EntityRef>, edges: map<string, EdgePlan>,
      steps: seq<Step>): Result<StepsDone> {
    if steps == [] then Ok(StepsDone(t, [], []))
    else
      var n := |steps| - 1;
      var done :- ExecuteSteps(t, refs, edges, steps[..n]);
      ExecuteOne(refs, edges, done, steps[n])
  }

  function ExecuteOne(refs: map<string, EntityRef>, edges: map<string, EdgePlan>, done: StepsDone,
      s: Step): Result<StepsDone> {
    if !Resolved(refs, s.subjectKey) then Err(MISSING_SUBJECT)
    else
      var subjectId := ResolvedId(refs, s.subjectKey);
      var w :- StepWrite(done.tables, subjectId, s);
      Ok(StepsDone(w.tables, done.steps + [FinishedStep(refs, edges, s, subjectId, w.row)], done.committed + w.row))
  }

  datatype Committed = Committed(tables: Tables, plan: Plan, memories: seq<Memory>)

  /** The whole commit, for given orders of the entity and edge keys. */
  function CommitPlan(t: Tables, plan: Plan, entityKeys: seq<string>, edgeKeys: seq<string>): Result<Committed>
    requires forall k :: k in entityKeys ==> k in plan.refs
    requires forall k :: k in edgeKeys ==> k in plan.edges
  {
    var e :- CreateEntities(t, plan.refs, entityKeys);
    var r :- CreateEdges(e.tables, e.refs, plan.edges, edgeKeys);
    var s :- ExecuteSteps(r.tables, e.refs, r.edges, plan.steps);
    Ok(Committed(s.tables, Plan(s.steps, e.refs, r.edges), s.committed))
  }

  function ToCreate(refs: map<string, EntityRef>): set<string> {
    set k | k in refs && refs[k].existing.None?
  }

  /** The number reported as entities created, computed before the commit. */
  function CountEntitiesToCreate(refs: map<string, EntityRef>): nat {
    |ToCreate(refs)|
  }

  function CountAction(steps: seq<Step>, a: Action): nat {
    if steps == [] then 0
    else CountAction(steps[..|steps| - 1], a) + if steps[|steps| - 1].decision.action == a then 1 else 0
  }

  /** The steps that write a memory, in order. */
  function WritingSteps(steps: seq<Step>): seq<Step> {
    if steps == [] then []
    else
      var s := steps[|steps| - 1];
      WritingSteps(steps[..|steps| - 1])
      + if s.decision.action.CreateAction? || s.decision.action.UpdateAction? then [s] else []
  }
}
