/** The ingest pipeline as a whole: plan, then either report or commit, then audit. */
module Ingest {
  import opened Types
  import opened Ordering
  import opened Tables
  import opened Text
  import opened Planner
  import opened Commit
  import opened KeyOrder

  datatype Config = Config(u: Text, threshold: real)

  /** What the extractor answers, when one is configured. */
  type Extraction = Option<Result<seq<Candidate>>>

  datatype Request = Request(
    rawText: string,
    subjectId: Option<Id>,
    subjectExternalId: string,
    model: string,
    dryRun: bool)

  datatype Counters = Counters(created: nat, updated: nat, merged: nat, noOp: nat, entities: nat, relationships: nat)

  datatype Response = Response(sourceId: Option<Id>, counters: Counters, steps: seq<Step>, committed: seq<Memory>)

  datatype Outcome = Outcome(tables: Tables, result: Result<Response>)

  // ---- the subject named by the request ----

  function ExternalIdMatches(t: Tables, externalId: string): set<Id> {
    set i | i in t.entities && t.entities[i].externalId == Some(externalId)
  }

  function GetEntityByExternalId(t: Tables, externalId: string): (r: Result<Entity>)
    requires t.Valid()
    ensures r.Ok? ==>
        r.value.id in t.entities && t.entities[r.value.id] == r.value && r.value.externalId == Some(externalId)
  {
    var ids := ExternalIdMatches(t, externalId);
    if ids == {} then Err(NotFound("entity not found"))
    else
      EntitiesKeyed(t, ids);
      var found := Select(t.entities, OldestFirst, ids);
      assert found[0] in found;
      Ok(found[0])
  }

  function ExplicitSubject(u: Text, t: Tables, req: Request): (r: Result<Option<Entity>>)
    requires t.Valid()
    ensures r.Ok? && r.value.Some? ==> r.value.value.id in t.entities && t.entities[r.value.value.id] == r.value.value
  {
    if req.subjectId.Some? then
      var e :- GetEntity(t, req.subjectId.value);
      assert t.ValidEntity(req.subjectId.value);
      Ok(Some(e))
    else if u.Trim(req.subjectExternalId) != "" then
      var e :- GetEntityByExternalId(t, req.subjectExternalId);
      Ok(Some(e))
    else Ok(None)
  }

  // ---- counting ----

  function MemoryCounters(steps: seq<Step>, entities: nat, relationships: nat): Counters {
    Counters(CountAction(steps, CreateAction), CountAction(steps, UpdateAction),
             CountAction(steps, MergeAction), CountAction(steps, NoOpAction), entities, relationships)
  }

  /** Every step falls under exactly one of the four memory counters. */
  lemma {:induction false} CountersSum(steps: seq<Step>)
    ensures CountAction(steps, CreateAction) + CountAction(steps, UpdateAction)
            + CountAction(steps, MergeAction) + CountAction(steps, NoOpAction) == |steps|
    decreases |steps|
  {
    if steps != [] {
      CountersSum(steps[..|steps| - 1]);
    }
  }

  // ---- audit ----

  datatype Audited = Audited(tables: Tables, sourceId: Option<Id>, memories: seq<Memory>)

  function SourcePatch(sourceId: Id): MemoryPatch {
    MemoryPatch(None, None, None, false, None, Some(sourceId), false)
  }

  datatype Backfilled = Backfilled(tables: Tables, memories: seq<Memory>)

  /** Link each committed memory to the audit record; a failed update is skipped. */
  function Backfill(t: Tables, sourceId: Id, memories: seq<Memory>, fails: seq<bool>): Backfilled {
    if memories == [] then Backfilled(t, [])
    else
      var n := |memories| - 1;
      var done := Backfill(t, sourceId, memories[..n], fails);
      if FailsAt(fails, n + 1) then Backfilled(done.tables, done.memories + [memories[n]])
      else
        match UpdateMemory(done.tables, memories[n].id, SourcePatch(sourceId))
        case Ok(w) => Backfilled(w.tables, done.memories + [w.row])
        case Err(_) => Backfilled(done.tables, done.memories + [memories[n]])
  }

  function Actions(steps: seq<Step>): seq<Action> {
    seq(|steps|, i requires 0 <= i < |steps| => steps[i].decision.action)
  }

  /** Best effort: without a record nothing is linked, and a failed link is skipped. */
  function AuditIngest(t: Tables, req: Request, subjectId: Option<Id>, steps: seq<Step>, committed: seq<Memory>,
                       fails: seq<bool>): Audited {
    if FailsAt(fails, 0) then Audited(t, None, committed)
    else
      match CreateIngestSource(t, req.rawText, subjectId, req.model, Actions(steps))
      case Err(_) => Audited(t, None, committed)
      case Ok(w) =>
        var done := Backfill(w.tables, w.row.id, committed, fails);
        Audited(done.tables, Some(w.row.id), done.memories)
  }

  // ---- the pipeline ----

  function SubjectId(subject: Option<Entity>): Option<Id> {
    if subject.Some? then Some(subject.value.id) else None
  }

  /** Everything up to the decision whether to write. */
  function PlanRequest(cfg: Config, t: Tables, req: Request, extraction: Extraction, faults: Faults): Result<Plan>
    requires t.Valid()
  {
    if cfg.u.Trim(req.rawText) == "" then Err(InvalidRequest("raw_text is required"))
    else if extraction.None? then Err(ExtractorUnavailable("extractor is not configured"))
    else
      var subject :- ExplicitSubject(cfg.u, t, req);
      var candidates :- extraction.value;
      BuildPlan(Env(cfg.u, t, cfg.threshold, faults), subject, candidates)
  }

  function RequestSubject(cfg: Config, t: Tables, req: Request): Option<Entity>
    requires t.Valid()
  {
    match ExplicitSubject(cfg.u, t, req) case Ok(s) => s case Err(_) => None
  }

  /** Commit a plan in one transaction, keys in sorted order, then audit. */
  function CommitAndAudit(t: Tables, req: Request, subjectId: Option<Id>, plan: Plan, faults: Faults): Outcome {
    SortedKeysList(plan.refs);
    SortedKeysList(plan.edges);
    if faults.commitFails then Outcome(t, Err(DRIVER_FAILURE)) else
    match CommitPlan(t, plan, SortedKeys(plan.refs.Keys), SortedKeys(plan.edges.Keys))
    case Err(error) => Outcome(t, Err(error))
    case Ok(done) =>
      var audited := AuditIngest(done.tables, req, subjectId, done.plan.steps, done.memories, faults.auditFails);
      Outcome(audited.tables,
              Ok(Response(audited.sourceId,
                          MemoryCounters(done.plan.steps, CountEntitiesToCreate(plan.refs), |plan.edges|),
                          done.plan.steps, audited.memories)))
  }

  /** The request gets as far as the commit, once its plan stands. */
  predicate Commits(extraction: Extraction, req: Request) {
    extraction.Some? && extraction.value.Ok? && extraction.value.value != [] && !req.dryRun
  }

  /** One ingest request against the store; extraction is what the extractor answered, if there is one. */
  function RunIngest(cfg: Config, t: Tables, req: Request, extraction: Extraction, faults: Faults): Outcome
    requires t.Valid()
  {
    match PlanRequest(cfg, t, req, extraction, faults)
    case Err(error) => Outcome(t, Err(error))
    case Ok(plan) =>
      var planned := MemoryCounters(plan.steps, CountEntitiesToCreate(plan.refs), |plan.edges|);
      if !Commits(extraction, req) then Outcome(t, Ok(Response(None, planned, plan.steps, [])))
      else CommitAndAudit(t, req, SubjectId(RequestSubject(cfg, t, req)), plan, faults)
  }

  // ---- cache invalidation after a commit ----

  function DerefEntity(e: Option<Entity>): Id {
    if e.Some? then e.value.id else NIL_ID
  }

  function DerefCreated(refs: map<string, EntityRef>, key: string): Id {
    if key in refs && refs[key].createdId.Some? then refs[key].createdId.value else NIL_ID
  }

  function RelatedIds(refs: map<string, EntityRef>, keys: seq<string>): seq<Id> {
    if keys == [] then []
    else
      var n := |keys| - 1;
      RelatedIds(refs, keys[..n]) + if keys[n] in refs then [DerefEntity(refs[keys[n]].existing)] else []
  }

  /** The entities whose contexts one finished step invalidates. */
  function StepTouches(refs: map<string, EntityRef>, s: Step): seq<Id> {
    [DerefEntity(s.subjectExisting), DerefCreated(refs, s.subjectKey)]
    + if s.createdRelationIds != {} then RelatedIds(refs, s.relatedKeys) else []
  }

  function AllTouches(refs: map<string, EntityRef>, steps: seq<Step>): seq<Id> {
    if steps == [] then []
    else AllTouches(refs, steps[..|steps| - 1]) + StepTouches(refs, steps[|steps| - 1])
  }

  /** The plan as finished by the commit, if the request got that far. */
  function FinishedPlan(cfg: Config, t: Tables, req: Request, extraction: Extraction, faults: Faults): Option<Plan>
    requires t.Valid()
  {
    match PlanRequest(cfg, t, req, extraction, faults)
    case Err(_) => None
    case Ok(plan) =>
      if !Commits(extraction, req) || faults.commitFails then None
      else
        SortedKeysList(plan.refs);
        SortedKeysList(plan.edges);
        match CommitPlan(t, plan, SortedKeys(plan.refs.Keys), SortedKeys(plan.edges.Keys))
        case Err(_) => None
        case Ok(done) => Some(done.plan)
  }

  // ---- what the counters and the subject mean ----

  ghost function StepsTaking(steps: seq<Step>, a: Action): set<nat> {
    set i: nat | i < |steps| && steps[i].decision.action == a
  }

  lemma {:induction false} CountsSteps(steps: seq<Step>, a: Action)
    ensures CountAction(steps, a) == |StepsTaking(steps, a)|
    decreases |steps|
  {
    if steps != [] {
      var n := |steps| - 1;
      CountsSteps(steps[..n], a);
      assert StepsTaking(steps, a)
          == StepsTaking(steps[..n], a) + if steps[n].decision.action == a then {n} else {};
    }
  }

  /** Each memory counter is the number of steps with its action. */
  lemma CountersMean(steps: seq<Step>, entities: nat, relationships: nat)
    ensures var n := MemoryCounters(steps, entities, relationships);
            && n.created == |set i: nat | i < |steps| && steps[i].decision.action == CreateAction|
            && n.updated == |set i: nat | i < |steps| && steps[i].decision.action == UpdateAction|
            && n.merged == |set i: nat | i < |steps| && steps[i].decision.action == MergeAction|
            && n.noOp == |set i: nat | i < |steps| && steps[i].decision.action == NoOpAction|
            && n.entities == entities && n.relationships == relationships
  {
    CountsSteps(steps, CreateAction);
    CountsSteps(steps, UpdateAction);
    CountsSteps(steps, MergeAction);
    CountsSteps(steps, NoOpAction);
  }

  /** The subject a request names: by id first, then by external id, and a request that names none has none. */
  lemma SubjectMeans(u: Text, t: Tables, req: Request)
    requires t.Valid()
    ensures var r, byId := ExplicitSubject(u, t, req), req.subjectId.Some?;
            var byExternal := !byId && u.Trim(req.subjectExternalId) != "";
            && (byId ==> (r.Ok? <==> req.subjectId.value in t.entities))
            && (byExternal ==>
                  (r.Ok? <==> exists i :: && i in t.entities
                                          && t.entities[i].externalId == Some(req.subjectExternalId)))
            && (!byId && !byExternal ==> r == Ok(None))
            && (r.Ok? && r.value.Some? ==>
                  var e := r.value.value;
                  && e.id in t.entities && t.entities[e.id] == e
                  && (byId ==> e.id == req.subjectId.value)
                  && (byExternal ==> e.externalId == Some(req.subjectExternalId)))
            && (byId || byExternal ==> (r.Ok? ==> r.value.Some?) && (r.Err? ==> r.error.NotFound?))
  {
    RowsKeyed(t);
    if exists i :: i in t.entities && t.entities[i].externalId == Some(req.subjectExternalId) {
      var i :| i in t.entities && t.entities[i].externalId == Some(req.subjectExternalId);
      assert i in ExternalIdMatches(t, req.subjectExternalId);
    }
    hide Tables.Valid;
  }
}
