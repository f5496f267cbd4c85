/** The service: each method validates, writes through the store and invalidates the cache.  A method that
    succeeds is exactly its step of the state machine in CacheAgreement, and one that fails changes nothing,
    whichever statements the driver fails. */
module Service {
  import opened Types
  import Columns
  import opened Tables
  import Sql = Tables
  import opened Planner
  import opened PlanProperties
  import opened Commit
  import opened Ingest
  import opened IngestProperties
  import opened IngestTouches
  import opened KeyOrder
  import opened EntityContext
  import Contexts = EntityContext
  import Paths = FindPath
  import opened Graph
  import opened ContextCache
  import opened CacheAgreement
  import opened Connection
  import opened Planning
  import opened Committing
  import opened IngestService

  /** What a service method may do: take its step, or fail without effect.  It takes the step only if the
      operation makes a write, and always does so then when the driver does not fail. */
  ghost predicate Does(cfg: Config, before: State, after: State, op: Op, healthy: bool, ok: bool)
    requires before.tables.Valid()
  {
    && after == (if ok then Apply(cfg, before, op) else before)
    && (ok ==> WriteOf(cfg, before.tables, op).Some?)
    && (healthy && WriteOf(cfg, before.tables, op).Some? ==> ok)
  }

  class Service {
    const cfg: Config
    const db: Database
    const cache: Cache

    ghost function Current(): State
      reads db, cache
    {
      State(db.tables, cache.entries)
    }

    constructor (cfg: Config, db: Database, cache: Cache)
      ensures this.cfg == cfg && this.db == db && this.cache == cache
    {
      this.cfg, this.db, this.cache := cfg, db, cache;
    }

    method CreateMemory(p: CreateMemoryParams) returns (r: Result<Memory>)
      requires db.tables.Valid()
      modifies db`tables, db`faults, cache
      ensures Does(cfg, old(Current()), Current(), CreateMemoryOp(p), old(db.faults) == [], r.Ok?)
      ensures r.Ok? ==> r.value.id == old(db.tables).nextId && r == Sql.GetMemory(db.tables, r.value.id)
    {
      hide Sql.CreateMemory, WriteOf, Apply, Without, Touched;
      CreateMemoryStep(cfg, State(db.tables, cache.entries), p);
      CreatedMemory(db.tables, p);
      var invalid := CheckCreateMemory(cfg.u, p);
      if invalid.Some? {
        return Err(invalid.value);
      }
      var memory :- db.CreateMemory(p);
      cache.InvalidateEntityContext([memory.entityId]);
      r := Ok(memory);
    }

    method UpdateMemory(id: Id, patch: MemoryPatch) returns (r: Result<Memory>)
      requires db.tables.Valid()
      modifies db`tables, db`faults, cache
      ensures Does(cfg, old(Current()), Current(), UpdateMemoryOp(id, patch), old(db.faults) == [], r.Ok?)
      ensures r.Ok? ==> r == Sql.GetMemory(db.tables, id)
      ensures r.Ok? ==> && id in old(db.tables).memories
                        && Columns.MemoryColumns(old(db.tables).memories[id], patch, r.value)
                        && db.tables == old(db.tables).(memories := old(db.tables).memories[id := r.value])
    {
      hide Sql.UpdateMemory, WriteOf, Apply, Without, Touched, Columns.MemoryColumns;
      UpdateMemoryStep(cfg, State(db.tables, cache.entries), id, patch);
      UpdatedMemory(db.tables, id, patch);
      var invalid := CheckMemoryPatch(cfg.u, patch);
      if invalid.Some? {
        return Err(invalid.value);
      }
      var current :- db.GetMemory(id);
      var updated :- db.UpdateMemory(id, patch);
      cache.InvalidateEntityContext([current.entityId]);
      r := Ok(updated);
    }

    method DeleteMemory(id: Id) returns (r: Result<()>)
      requires db.tables.Valid()
      modifies db`tables, db`faults, cache
      ensures Does(cfg, old(Current()), Current(), DeleteMemoryOp(id), old(db.faults) == [], r.Ok?)
    {
      hide Sql.DeleteMemory, WriteOf, Apply, Without, Touched;
      DeleteMemoryStep(cfg, State(db.tables, cache.entries), id);
      var current :- db.GetMemory(id);
      var _ :- db.DeleteMemory(id);
      cache.InvalidateEntityContext([current.entityId]);
      r := Ok(());
    }

    method CreateEntity(p: CreateEntityParams) returns (r: Result<Entity>)
      requires db.tables.Valid()
      modifies db`tables, db`faults
      ensures Does(cfg, old(Current()), Current(), CreateEntityOp(p), old(db.faults) == [], r.Ok?)
      ensures r.Ok? ==> r.value.id == old(db.tables).nextId && r == Sql.GetEntity(db.tables, r.value.id)
    {
      hide Sql.CreateEntity, WriteOf, Apply, Without, Touched;
      CreateEntityStep(cfg, State(db.tables, cache.entries), p);
      CreatedEntity(db.tables, p);
      NoneTouched(cache.entries);
      var invalid := CheckCreateEntity(cfg.u, p);
      if invalid.Some? {
        return Err(invalid.value);
      }
      r := db.CreateEntity(p);
    }

    method UpdateEntity(id: Id, patch: EntityPatch) returns (r: Result<Entity>)
      requires db.tables.Valid()
      modifies db`tables, db`faults, cache
      ensures Does(cfg, old(Current()), Current(), UpdateEntityOp(id, patch), old(db.faults) == [], r.Ok?)
      ensures r.Ok? ==> r == Sql.GetEntity(db.tables, id)
      ensures r.Ok? ==> && id in old(db.tables).entities
                        && Columns.EntityColumns(old(db.tables).entities[id], patch, r.value)
                        && db.tables == old(db.tables).(entities := old(db.tables).entities[id := r.value])
    {
      hide Sql.UpdateEntity, WriteOf, Apply, Without, Touched, Columns.EntityColumns;
      UpdateEntityStep(cfg, State(db.tables, cache.entries), id, patch);
      UpdatedEntity(db.tables, id, patch);
      var invalid := CheckEntityPatch(cfg.u, patch);
      if invalid.Some? {
        return Err(invalid.value);
      }
      var entity :- db.UpdateEntity(id, patch);
      cache.InvalidateEntityContext([id]);
      r := Ok(entity);
    }

    method DeleteEntity(id: Id) returns (r: Result<()>)
      requires db.tables.Valid()
      modifies db`tables, db`faults, cache
      ensures Does(cfg, old(Current()), Current(), DeleteEntityOp(id), old(db.faults) == [], r.Ok?)
    {
      hide Sql.DeleteEntity, WriteOf, Apply, Without, Touched;
      DeleteEntityStep(cfg, State(db.tables, cache.entries), id);
      var _ :- db.DeleteEntity(id);
      cache.InvalidateEntityContext([id]);
      r := Ok(());
    }

    method CreateRelationship(p: CreateRelationshipParams) returns (r: Result<Relationship>)
      requires db.tables.Valid()
      modifies db`tables, db`faults, cache
      ensures Does(cfg, old(Current()), Current(), CreateRelationshipOp(p), old(db.faults) == [], r.Ok?)
      ensures r.Ok? ==> r.value.id == old(db.tables).nextId && r == Sql.GetRelationship(db.tables, r.value.id)
    {
      hide Sql.CreateRelationship, WriteOf, Apply, Without, Touched;
      CreateRelationshipStep(cfg, State(db.tables, cache.entries), p);
      CreatedRelationship(db.tables, p);
      var invalid := CheckCreateRelationship(cfg.u, p);
      if invalid.Some? {
        return Err(invalid.value);
      }
      var relationship :- db.CreateRelationship(p);
      cache.InvalidateEntityContext([p.from, p.to]);
      r := Ok(relationship);
    }

    method DeleteRelationship(id: Id) returns (r: Result<()>)
      requires db.tables.Valid()
      modifies db`tables, db`faults, cache
      ensures Does(cfg, old(Current()), Current(), DeleteRelationshipOp(id), old(db.faults) == [], r.Ok?)
    {
      hide Sql.DeleteRelationship, WriteOf, Apply, Without, Touched;
      DeleteRelationshipStep(cfg, State(db.tables, cache.entries), id);
      var relationship :- db.GetRelationship(id);
      var _ :- db.DeleteRelationship(id);
      cache.InvalidateEntityContext([relationship.from, relationship.to]);
      r := Ok(());
    }

    /** Read through the cache. */
    method GetEntityContext(root: Id, depth: int) returns (r: Result<EntityContext>)
      requires db.tables.Valid()
      modifies db`faults, cache
      ensures depth < 0 || depth > 3 ==> r.Err? && r.error.InvalidRequest?
      ensures 0 <= depth <= 3 && Key(root, depth) in old(cache.entries) ==>
          r == Ok(old(cache.entries)[Key(root, depth)])
      ensures 0 <= depth <= 3 && Key(root, depth) !in old(cache.entries) && r.Ok? ==>
          IsContext(db.tables, root, depth, r.value)
      ensures old(db.faults) == [] && 0 <= depth <= 3 && root in db.tables.entities ==> r.Ok?
      ensures r.Err? ==> Current() == old(Current())
      ensures r.Ok? ==> Current() == Apply(cfg, old(Current()), ReadContextOp(root, depth, r.value))
    {
      hide IsContext;
      if depth < 0 {
        return Err(InvalidRequest("depth must be >= 0"));
      }
      if depth > 3 {
        return Err(InvalidRequest("depth must be <= 3"));
      }
      var cached := cache.GetEntityContext(root, depth);
      if cached.Some? {
        return Ok(cached.value);
      }
      var failed := db.Attempt();
      if failed {
        return Err(DRIVER_FAILURE);
      }
      var result :- Contexts.GetEntityContext(db.tables, root, depth);
      cache.SetEntityContext(root, depth, result);
      r := Ok(result);
    }

    /** A path of at most maxDepth edges, when the depth is in range and one exists. */
    method FindPath(from: Id, to: Id, maxDepth: int) returns (r: Result<seq<Paths.PathNode>>)
      requires db.tables.Valid()
      modifies db`faults
      ensures maxDepth <= 0 || maxDepth > 6 ==> r.Err? && r.error.InvalidRequest?
      ensures old(db.faults) == [] && 1 <= maxDepth <= 6 && from != to ==>
                (r.Ok? <==> Reachable(db.tables, from, to, maxDepth))
      ensures old(db.faults) == [] && 1 <= maxDepth <= 6 && from == to ==> (r.Ok? <==> from in db.tables.entities)
      ensures from != to && r.Ok? ==>
                exists p :: Paths.IsPathOf(db.tables, from, to, p, r.value) && 1 <= |p| <= maxDepth
      ensures from == to && r.Ok? ==>
          from in db.tables.entities && r.value == [Paths.PathNode(db.tables.entities[from], None)]
    {
      hide Paths.IsPathOf, Reachable;
      if maxDepth <= 0 {
        return Err(InvalidRequest("max_depth must be >= 1"));
      }
      if maxDepth > 6 {
        return Err(InvalidRequest("max_depth must be <= 6"));
      }
      var failed := db.Attempt();
      if failed {
        return Err(DRIVER_FAILURE);
      }
      r := Paths.FindPath(db.tables, from, to, maxDepth);
    }

    /** One ingest request; extraction is what the extractor answers and readFaults tells which reads of the planning
        fail.  Whatever the driver does, the answer, the store and the cache are those of an ingest in which the
        transaction failed or not and some audit statements failed or not; without driver failures nothing
        fails after planning.  An error leaves everything as it was. */
    method Ingest(req: Request, extraction: Extraction, readFaults: Faults)
        returns (r: Result<Response>, ghost faults: Faults)
      requires ValidConfig(cfg) && db.tables.Valid()
      modifies db, cache
      ensures faults == readFaults.(commitFails := faults.commitFails, auditFails := faults.auditFails)
      ensures old(db.faults) == [] ==> !faults.commitFails && faults.auditFails == []
      ensures Outcome(db.tables, r) == RunIngest(cfg, old(db.tables), req, extraction, faults)
      ensures State(db.tables, cache.entries)
              == Apply(cfg, old(State(db.tables, cache.entries)), IngestOp(req, extraction, faults))
      ensures r.Err? ==> State(db.tables, cache.entries) == old(State(db.tables, cache.entries))
    {
      hide *;
      ghost var s := State(db.tables, cache.entries);
      ghost var env := Env(cfg.u, s.tables, cfg.threshold, readFaults);
      faults := readFaults.(commitFails := false, auditFails := []);
      RequestCases(cfg, s.tables, req, extraction, readFaults);
      SamePlanned(cfg, s.tables, req, extraction, readFaults, faults);
      Uncommitted(cfg, s, req, extraction, faults);
      if cfg.u.Trim(req.rawText) == "" {
        r := Err(InvalidRequest("raw_text is required"));
        return;
      }
      if extraction.None? {
        r := Err(ExtractorUnavailable("extractor is not configured"));
        return;
      }
      var subject := ExplicitSubject(cfg.u, db.tables, req);
      if subject.Err? {
        r := Err(subject.error);
        return;
      }
      if extraction.value.Err? {
        r := Err(extraction.value.error);
        return;
      }
      var candidates := extraction.value.value;
      if |candidates| == 0 {
        EmptyPlan(env, subject.value);
        r := Ok(Response(None, Counters(0, 0, 0, 0, 0, 0), [], []));
        return;
      }
      var plan := new IngestPlan();
      var built := plan.BuildIngestPlan(Env(cfg.u, db.tables, cfg.threshold, readFaults), subject.value, candidates);
      if built.Err? {
        r := Err(built.error);
        return;
      }
      ghost var planned := Plan(plan.steps, plan.refs, plan.edges);
      var entities := CountToCreate(plan.refs);
      var relationships := |plan.edges|;
      var created, updated, merged, noOp := CountActions(plan.steps);
      CountersAre(plan.steps, entities, relationships);
      if req.dryRun {
        r := Ok(Response(None, Counters(created, updated, merged, noOp, entities, relationships), plan.steps, []));
        return;
      }
      PrescribedSucceeds(cfg, s.tables, req, extraction, readFaults);
      var committed := CommitInTx(db, plan);
      if committed.Err? {
        faults := faults.(commitFails := true);
        DriverFailed(Prescribed(s.tables, planned), old(db.faults) == [], committed.error);
        SamePlanned(cfg, s.tables, req, extraction, readFaults, faults);
        Uncommitted(cfg, s, req, extraction, faults);
        r := Err(committed.error);
        return;
      }
      faults := faults.(auditFails := db.faults);
      SamePlanned(cfg, s.tables, req, extraction, readFaults, faults);
      ghost var done := Committed(db.tables, Plan(plan.steps, plan.refs, plan.edges), committed.value);
      var sourceId, audited := RecordAudit(db, req, SubjectId(subject.value), plan.steps, committed.value);
      created, updated, merged, noOp := CountActions(plan.steps);
      CountersAre(plan.steps, entities, relationships);
      InvalidateTouched(cache, plan.refs, plan.steps);
      r := Ok(Response(sourceId, Counters(created, updated, merged, noOp, entities, relationships), plan.steps,
                       audited));
      CommittedOutcome(cfg, s, req, extraction, faults, planned, done, Audited(db.tables, sourceId, audited));
    }
  }

  /** What fails after planning does not change what is planned. */
  lemma SamePlanned(cfg: Config, t: Tables, req: Request, extraction: Extraction, readFaults: Faults, faults: Faults)
    requires t.Valid() && faults == readFaults.(commitFails := faults.commitFails, auditFails := faults.auditFails)
    ensures PlanRequest(cfg, t, req, extraction, faults) == PlanRequest(cfg, t, req, extraction, readFaults)
  {
    hide ExplicitSubject, BuildPlan;
    if ExplicitSubject(cfg.u, t, req).Ok? && extraction.Some? && extraction.value.Ok? {
      SamePlans(Env(cfg.u, t, cfg.threshold, faults), Env(cfg.u, t, cfg.threshold, readFaults),
                ExplicitSubject(cfg.u, t, req).value, extraction.value.value);
    }
  }

  /** A commit that is prescribed to succeed fails only in the driver. */
  lemma DriverFailed(prescribed: Result<Committed>, healthy: bool, error: Error)
    requires prescribed.Ok? && Committing.Fails(prescribed, healthy, error)
    ensures !healthy && error == DRIVER_FAILURE
  {
  }

  lemma RequestCases(cfg: Config, t: Tables, req: Request, extraction: Extraction, faults: Faults)
    requires t.Valid()
    ensures var subject := ExplicitSubject(cfg.u, t, req);
            PlanRequest(cfg, t, req, extraction, faults)
            == if cfg.u.Trim(req.rawText) == "" then Err(InvalidRequest("raw_text is required"))
               else if extraction.None? then Err(ExtractorUnavailable("extractor is not configured"))
               else if subject.Err? then Err(subject.error)
               else if extraction.value.Err? then Err(extraction.value.error)
               else BuildPlan(Env(cfg.u, t, cfg.threshold, faults), subject.value, extraction.value.value)
    ensures ExplicitSubject(cfg.u, t, req).Ok? ==> RequestSubject(cfg, t, req) == ExplicitSubject(cfg.u, t, req).value
  {
    hide ExplicitSubject, BuildPlan;
  }

  lemma EmptyPlan(env: Env, subject: Option<Entity>)
    requires env.tables.Valid()
    ensures BuildPlan(env, subject, []).Ok?
  {
  }

  lemma CountersAre(steps: seq<Step>, entities: nat, relationships: nat)
    ensures MemoryCounters(steps, entities, relationships)
            == Counters(CountAction(steps, CreateAction), CountAction(steps, UpdateAction),
                        CountAction(steps, MergeAction), CountAction(steps, NoOpAction), entities, relationships)
  {
  }

  /** A request that does not commit, or whose transaction fails, leaves the state alone. */
  lemma Uncommitted(cfg: Config, s: State, req: Request, extraction: Extraction, faults: Faults)
    requires s.tables.Valid()
    ensures var o := RunIngest(cfg, s.tables, req, extraction, faults);
            var s' := Apply(cfg, s, IngestOp(req, extraction, faults));
            match PlanRequest(cfg, s.tables, req, extraction, faults)
            case Err(error) => o == Outcome(s.tables, Err(error)) && s' == s
            case Ok(plan) =>
              && extraction.Some? && extraction.value.Ok?
              && (extraction.value.value == [] || req.dryRun ==>
                    && s' == s
                    && o == Outcome(s.tables,
                                    Ok(Response(None,
                                                MemoryCounters(plan.steps, CountEntitiesToCreate(plan.refs),
                                                    |plan.edges|),
                                                plan.steps, []))))
              && (extraction.value.value == [] ==> o.result == Ok(Response(None, Counters(0, 0, 0, 0, 0, 0), [], [])))
              && (extraction.value.value != [] && !req.dryRun && faults.commitFails ==>
                    s' == s && o == Outcome(s.tables, Err(DRIVER_FAILURE)))
  {
    hide *;
    RunCases(cfg, s.tables, req, extraction, faults);
    FinishedCases(cfg, s.tables, req, extraction, faults);
    NoneTouched(s.cache);
    ApplyIngest(cfg, s, req, extraction, faults);
    if PlanRequest(cfg, s.tables, req, extraction, faults).Ok? && extraction.value.value == [] {
      var plan := PlanRequest(cfg, s.tables, req, extraction, faults).value;
      NoCandidates(cfg, s.tables, req, extraction, faults, plan);
      ZeroCounters(plan.refs);
    }
  }

  lemma ZeroCounters(refs: map<string, EntityRef>)
    requires ToCreate(refs) == {}
    ensures MemoryCounters([], CountEntitiesToCreate(refs), 0) == Counters(0, 0, 0, 0, 0, 0)
  {
  }

  lemma ApplyIngest(cfg: Config, s: State, req: Request, extraction: Extraction, faults: Faults)
    requires s.tables.Valid()
    ensures var p := FinishedPlan(cfg, s.tables, req, extraction, faults);
            Apply(cfg, s, IngestOp(req, extraction, faults))
            == State(RunIngest(cfg, s.tables, req, extraction, faults).tables,
                     Without(s.cache, Touched(if p.Some? then AllTouches(p.value.refs, p.value.steps) else [])))
  {
    hide FinishedPlan, RunIngest, AllTouches;
  }

  /** The prescription never fails, and leaves a valid store. */
  lemma PrescribedSucceeds(cfg: Config, t: Tables, req: Request, extraction: Extraction, faults: Faults)
    requires ValidConfig(cfg) && t.Valid() && PlanRequest(cfg, t, req, extraction, faults).Ok?
    ensures var c := Prescribed(t, PlanRequest(cfg, t, req, extraction, faults).value); c.Ok? && c.value.tables.Valid()
  {
    hide *;
    PlannedOk(cfg, t, req, extraction, faults);
    var plan := PlanRequest(cfg, t, req, extraction, faults).value;
    var env := Env(cfg.u, t, cfg.threshold, faults);
    var done := CommitAuditedHolds(env, plan, req, None);
    PrescribedIs(t, plan);
  }

  lemma PrescribedIs(t: Tables, plan: Plan)
    ensures Prescribed(t, plan) == CommitPlan(t, plan, SortedKeys(plan.refs.Keys), SortedKeys(plan.edges.Keys))
  {
  }

  lemma CommittedOutcome(cfg: Config, s: State, req: Request, extraction: Extraction, faults: Faults,
                         plan: Plan, done: Committed, audited: Audited)
    requires s.tables.Valid() && PlanRequest(cfg, s.tables, req, extraction, faults) == Ok(plan)
    requires extraction.Some? && extraction.value.Ok? && extraction.value.value != [] && !req.dryRun
    requires Prescribed(s.tables, plan) == Ok(done)
    requires audited
        == AuditIngest(done.tables, req, SubjectId(RequestSubject(cfg, s.tables, req)), done.plan.steps,
            done.memories, faults.auditFails)
    requires !faults.commitFails
    ensures RunIngest(cfg, s.tables, req, extraction, faults)
            == Outcome(audited.tables,
                       Ok(Response(audited.sourceId,
                                   MemoryCounters(done.plan.steps, CountEntitiesToCreate(plan.refs), |plan.edges|),
                                   done.plan.steps, audited.memories)))
    ensures Apply(cfg, s, IngestOp(req, extraction, faults))
            == State(audited.tables, Without(s.cache, Touched(AllTouches(done.plan.refs, done.plan.steps))))
  {
    hide *;
    RunCases(cfg, s.tables, req, extraction, faults);
    FinishedCases(cfg, s.tables, req, extraction, faults);
    ApplyIngest(cfg, s, req, extraction, faults);
    PrescribedIs(s.tables, plan);
    CommitAndAuditIs(s.tables, req, SubjectId(RequestSubject(cfg, s.tables, req)), plan, done, faults);
  }

  lemma CommitAndAuditIs(t: Tables, req: Request, subjectId: Option<Id>, plan: Plan, done: Committed, faults: Faults)
    requires Prescribed(t, plan) == Ok(done) && !faults.commitFails
    ensures var audited := AuditIngest(done.tables, req, subjectId, done.plan.steps, done.memories, faults.auditFails);
            CommitAndAudit(t, req, subjectId, plan, faults)
            == Outcome(audited.tables,
                       Ok(Response(audited.sourceId,
                                   MemoryCounters(done.plan.steps, CountEntitiesToCreate(plan.refs), |plan.edges|),
                                   done.plan.steps, audited.memories)))
  {
    hide CommitPlan, AuditIngest, MemoryCounters, CountEntitiesToCreate;
  }

  // ---- the step of each method ----

  lemma CreateMemoryStep(cfg: Config, s: State, p: CreateMemoryParams)
    requires s.tables.Valid()
    ensures WriteOf(cfg, s.tables, CreateMemoryOp(p)).Some?
            <==> CheckCreateMemory(cfg.u, p).None? && CreateMemory(s.tables, p).Ok?
    ensures CheckCreateMemory(cfg.u, p).None? && CreateMemory(s.tables, p).Ok? ==>
              Apply(cfg, s, CreateMemoryOp(p))
              == State(CreateMemory(s.tables, p).value.tables,
                  Without(s.cache, Touched([CreateMemory(s.tables, p).value.row.entityId])))
  {
    hide CheckCreateMemory, CreateMemory, Without, Touched, RunIngest, FinishedPlan, AllTouches, IsContext;
  }

  lemma UpdateMemoryStep(cfg: Config, s: State, id: Id, patch: MemoryPatch)
    requires s.tables.Valid()
    ensures WriteOf(cfg, s.tables, UpdateMemoryOp(id, patch)).Some?
            <==> && CheckMemoryPatch(cfg.u, patch).None? && id in s.tables.memories
                 && UpdateMemory(s.tables, id, patch).Ok?
    ensures CheckMemoryPatch(cfg.u, patch).None? && id in s.tables.memories && UpdateMemory(s.tables, id, patch).Ok? ==>
              Apply(cfg, s, UpdateMemoryOp(id, patch))
              == State(UpdateMemory(s.tables, id, patch).value.tables,
                  Without(s.cache, Touched([s.tables.memories[id].entityId])))
  {
    hide CheckMemoryPatch, UpdateMemory, Without, Touched, RunIngest, FinishedPlan, AllTouches, IsContext;
  }

  lemma DeleteMemoryStep(cfg: Config, s: State, id: Id)
    requires s.tables.Valid()
    ensures WriteOf(cfg, s.tables, DeleteMemoryOp(id)).Some?
            <==> id in s.tables.memories && DeleteMemory(s.tables, id).Ok?
    ensures id in s.tables.memories && DeleteMemory(s.tables, id).Ok? ==>
              Apply(cfg, s, DeleteMemoryOp(id))
              == State(DeleteMemory(s.tables, id).value, Without(s.cache, Touched([s.tables.memories[id].entityId])))
  {
    hide DeleteMemory, Without, Touched, RunIngest, FinishedPlan, AllTouches, IsContext;
  }

  lemma CreateEntityStep(cfg: Config, s: State, p: CreateEntityParams)
    requires s.tables.Valid()
    ensures WriteOf(cfg, s.tables, CreateEntityOp(p)).Some?
            <==> CheckCreateEntity(cfg.u, p).None? && CreateEntity(s.tables, p).Ok?
    ensures CheckCreateEntity(cfg.u, p).None? && CreateEntity(s.tables, p).Ok? ==>
              Apply(cfg, s, CreateEntityOp(p))
              == State(CreateEntity(s.tables, p).value.tables, Without(s.cache, Touched([])))
  {
    hide CheckCreateEntity, CreateEntity, Without, Touched, RunIngest, FinishedPlan, AllTouches, IsContext;
  }

  lemma UpdateEntityStep(cfg: Config, s: State, id: Id, patch: EntityPatch)
    requires s.tables.Valid()
    ensures WriteOf(cfg, s.tables, UpdateEntityOp(id, patch)).Some?
            <==> CheckEntityPatch(cfg.u, patch).None? && UpdateEntity(s.tables, id, patch).Ok?
    ensures CheckEntityPatch(cfg.u, patch).None? && UpdateEntity(s.tables, id, patch).Ok? ==>
              Apply(cfg, s, UpdateEntityOp(id, patch))
              == State(UpdateEntity(s.tables, id, patch).value.tables, Without(s.cache, Touched([id])))
  {
    hide CheckEntityPatch, UpdateEntity, Without, Touched, RunIngest, FinishedPlan, AllTouches, IsContext;
  }

  lemma DeleteEntityStep(cfg: Config, s: State, id: Id)
    requires s.tables.Valid()
    ensures WriteOf(cfg, s.tables, DeleteEntityOp(id)).Some?
            <==> DeleteEntity(s.tables, id).Ok?
    ensures DeleteEntity(s.tables, id).Ok? ==>
              Apply(cfg, s, DeleteEntityOp(id))
              == State(DeleteEntity(s.tables, id).value, Without(s.cache, Touched([id])))
  {
    hide DeleteEntity, Without, Touched, RunIngest, FinishedPlan, AllTouches, IsContext;
  }

  lemma CreateRelationshipStep(cfg: Config, s: State, p: CreateRelationshipParams)
    requires s.tables.Valid()
    ensures WriteOf(cfg, s.tables, CreateRelationshipOp(p)).Some?
            <==> CheckCreateRelationship(cfg.u, p).None? && CreateRelationship(s.tables, p).Ok?
    ensures CheckCreateRelationship(cfg.u, p).None? && CreateRelationship(s.tables, p).Ok? ==>
              Apply(cfg, s, CreateRelationshipOp(p))
              == State(CreateRelationship(s.tables, p).value.tables, Without(s.cache, Touched([p.from, p.to])))
  {
    hide CheckCreateRelationship, CreateRelationship, Without, Touched, RunIngest, FinishedPlan, AllTouches, IsContext;
  }

  lemma DeleteRelationshipStep(cfg: Config, s: State, id: Id)
    requires s.tables.Valid()
    ensures WriteOf(cfg, s.tables, DeleteRelationshipOp(id)).Some?
            <==> id in s.tables.relationships && DeleteRelationship(s.tables, id).Ok?
    ensures id in s.tables.relationships && DeleteRelationship(s.tables, id).Ok? ==>
              Apply(cfg, s, DeleteRelationshipOp(id))
              == State(DeleteRelationship(s.tables, id).value,
                  Without(s.cache, Touched([s.tables.relationships[id].from, s.tables.relationships[id].to])))
  {
    hide DeleteRelationship, Without, Touched, RunIngest, FinishedPlan, AllTouches, IsContext;
  }

  lemma CreatedMemory(t: Tables, p: CreateMemoryParams)
    ensures var w := CreateMemory(t, p);
            w.Ok? ==> w.value.row.id == t.nextId && Sql.GetMemory(w.value.tables, t.nextId) == Ok(w.value.row)
  {
  }

  lemma UpdatedMemory(t: Tables, id: Id, patch: MemoryPatch)
    ensures var w := UpdateMemory(t, id, patch);
            t.Valid() && w.Ok? ==>
              && Sql.GetMemory(w.value.tables, id) == Ok(w.value.row)
              && id in t.memories && Columns.MemoryColumns(t.memories[id], patch, w.value.row)
              && w.value.tables == t.(memories := t.memories[id := w.value.row])
  {
    if t.Valid() {
      Columns.MemoryPatched(t, id, patch);
    }
    hide UpdateMemory, Columns.MemoryColumns;
  }

  lemma CreatedEntity(t: Tables, p: CreateEntityParams)
    ensures var w := CreateEntity(t, p);
            w.Ok? ==> w.value.row.id == t.nextId && Sql.GetEntity(w.value.tables, t.nextId) == Ok(w.value.row)
  {
    hide ExternalIdTaken;
  }

  lemma UpdatedEntity(t: Tables, id: Id, patch: EntityPatch)
    ensures var w := UpdateEntity(t, id, patch);
            t.Valid() && w.Ok? ==>
              && Sql.GetEntity(w.value.tables, id) == Ok(w.value.row)
              && id in t.entities && Columns.EntityColumns(t.entities[id], patch, w.value.row)
              && w.value.tables == t.(entities := t.entities[id := w.value.row])
  {
    if t.Valid() {
      Columns.EntityPatched(t, id, patch);
    }
    hide UpdateEntity, Columns.EntityColumns;
  }

  lemma CreatedRelationship(t: Tables, p: CreateRelationshipParams)
    ensures var w := CreateRelationship(t, p);
            w.Ok? ==> w.value.row.id == t.nextId && Sql.GetRelationship(w.value.tables, t.nextId) == Ok(w.value.row)
  {
  }
}
