/** The same request, sent twice in a row to the whole pipeline. */
module RepeatRequest {
  import opened Types
  import opened Tables
  import opened Planner
  import opened PlanProperties
  import opened Commit
  import opened CommitProperties
  import opened KeyOrder
  import opened Ingest
  import opened IngestProperties
  import opened RepeatIngest

  // ---- the subject of the second request ----

  /** Stored entities keep their rows. */
  ghost predicate EntitiesKept(t: Tables, t': Tables) {
    forall i :: i in t.entities ==> i in t'.entities && t'.entities[i] == t.entities[i]
  }

  lemma SameByExternalId(t: Tables, t': Tables, externalId: string)
    requires t.Valid() && t'.Valid() && EntitiesKept(t, t') && GetEntityByExternalId(t, externalId).Ok?
    ensures GetEntityByExternalId(t', externalId) == GetEntityByExternalId(t, externalId)
  {
    var e := GetEntityByExternalId(t, externalId).value;
    FoundByExternalId(t', e.id, externalId);
    hide GetEntityByExternalId;
    var e' := GetEntityByExternalId(t', externalId).value;
    OneExternalId(t', e.id, e'.id);
  }

  lemma FoundByExternalId(t: Tables, id: Id, externalId: string)
    requires t.Valid() && id in t.entities && t.entities[id].externalId == Some(externalId)
    ensures GetEntityByExternalId(t, externalId).Ok?
  {
    assert id in ExternalIdMatches(t, externalId);
  }

  lemma OneExternalId(t: Tables, a: Id, b: Id)
    requires t.Valid() && a in t.entities && b in t.entities
    requires t.entities[a].externalId.Some? && t.entities[a].externalId == t.entities[b].externalId
    ensures a == b
  {
    assert SharesExternalId(t.entities[a], t.entities[b]);
  }

  lemma SameSubject(cfg: Config, t: Tables, t': Tables, req: Request)
    requires t.Valid() && t'.Valid() && EntitiesKept(t, t') && ExplicitSubject(cfg.u, t, req).Ok?
    ensures ExplicitSubject(cfg.u, t', req) == ExplicitSubject(cfg.u, t, req)
    ensures RequestSubject(cfg, t', req) == RequestSubject(cfg, t, req) == ExplicitSubject(cfg.u, t, req).value
  {
    hide GetEntityByExternalId;
    if req.subjectId.None? && cfg.u.Trim(req.subjectExternalId) != "" {
      SameByExternalId(t, t', req.subjectExternalId);
    }
  }

  // ---- the store between the two requests ----

  /** What auditing adds to a commit does not matter to a second plan. */
  lemma AuditFollows(done: Tables, now0: nat, t': Tables, ids: set<Id>, sourceId: Id)
    requires t'.Valid() && t'.entities == done.entities && t'.relationships == done.relationships
    requires t'.memories == LinkedTable(done.memories, ids, sourceId, done.now)
    requires t'.now == now0
    ensures FollowsCommit(done, now0, t')
  {
  }

  lemma RequestPlan(cfg: Config, t: Tables, req: Request, c: Candidate, faults: Faults)
    requires t.Valid()
    ensures PlanRequest(cfg, t, req, Some(Ok([c])), faults).Ok? ==>
              cfg.u.Trim(req.rawText) != "" && ExplicitSubject(cfg.u, t, req).Ok?
    ensures cfg.u.Trim(req.rawText) != "" && ExplicitSubject(cfg.u, t, req).Ok? ==>
              PlanRequest(cfg, t, req, Some(Ok([c])), faults)
              == BuildPlan(Env(cfg.u, t, cfg.threshold, faults), ExplicitSubject(cfg.u, t, req).value, [c])
  {
    hide ExplicitSubject, BuildPlan;
  }

  lemma CreatesNothingCounts(p: Plan)
    ensures var n := MemoryCounters(p.steps, CountEntitiesToCreate(p.refs), |p.edges|);
            && (CreatesNothing(p) <==> NothingCreated(n))
            && (n.entities == 0 <==> ToCreate(p.refs) == {}) && n.created == CountAction(p.steps, CreateAction)
            && n.relationships == |p.edges| && (p.edges == map[] ==> n.relationships == 0)
  {
    assert |p.edges| == 0 <==> p.edges == map[];
  }

  // ---- both requests ----

  /** After a committed request: a valid store with the same clock, every entity kept, and the rows of the commit
      as a second plan sees them. */
  lemma FirstRequest(cfg: Config, t: Tables, req: Request, c: Candidate, faults: Faults) returns (done: Committed)
    requires ValidConfig(cfg) && t.Valid() && !req.dryRun
    requires PlanRequest(cfg, t, req, Some(Ok([c])), faults).Ok? && !faults.commitFails
    ensures var plan := PlanRequest(cfg, t, req, Some(Ok([c])), faults).value;
            var first := RunIngest(cfg, t, req, Some(Ok([c])), faults);
            && CommitPlan(t, plan, SortedKeys(plan.refs.Keys), SortedKeys(plan.edges.Keys)) == Ok(done)
            && first.tables.Valid() && EntitiesKept(t, first.tables) && FollowsCommit(done.tables, t.now, first.tables)
  {
    hide *;
    var extraction: Extraction := Some(Ok([c]));
    RunCases(cfg, t, req, extraction, faults);
    PlannedOk(cfg, t, req, extraction, faults);
    var plan := PlanRequest(cfg, t, req, extraction, faults).value;
    var env := Env(cfg.u, t, cfg.threshold, faults);
    var subject := RequestSubject(cfg, t, req);
    var o := CommitAndAudit(t, req, SubjectId(subject), plan, faults);
    done := CommitAuditedHolds(env, plan, req, SubjectId(subject));
    AuditedUnfold(env, plan, req, SubjectId(subject), o, done);
    AuditedValid(env, plan, req, subject, o, done);
    SortedKeysList(plan.refs);
    SortedKeysList(plan.edges);
    var e, r, s := CommitPhases(env, plan, SortedKeys(plan.refs.Keys), SortedKeys(plan.edges.Keys));
    PhaseEntities(env, plan, SortedKeys(plan.refs.Keys), SortedKeys(plan.edges.Keys), e, r, s);
    KeptFolds(t, o.tables);
    AuditFollows(done.tables, t.now, o.tables, AuditedIds(done.memories, faults.auditFails), done.tables.nextId);
  }

  lemma KeptFolds(t: Tables, t': Tables)
    requires forall i :: i in t.entities ==> i in t'.entities && t'.entities[i] == t.entities[i]
    ensures EntitiesKept(t, t')
  {
  }

  lemma StoredSubject(env: Env, subject: Option<Entity>)
    requires subject.Some? ==>
        subject.value.id in env.tables.entities && env.tables.entities[subject.value.id] == subject.value
    ensures SubjectStored(env, subject)
  {
  }

  lemma EnvsValid(cfg: Config, t: Tables, t': Tables, faults: Faults, faults2: Faults)
    requires ValidConfig(cfg) && t.Valid() && t'.Valid()
    ensures Env(cfg.u, t, cfg.threshold, faults).Valid() && Env(cfg.u, t', cfg.threshold, faults2).Valid()
  {
  }

  /** Whether reads fail does not depend on the store. */
  lemma SameReads(cfg: Config, t: Tables, t': Tables, faults: Faults)
    requires ReadsSucceed(Env(cfg.u, t, cfg.threshold, faults))
    ensures ReadsSucceed(Env(cfg.u, t', cfg.threshold, faults))
  {
  }

  /** When the same candidate creates nothing a second time. */
  ghost predicate RepeatIsQuiet(cfg: Config, t: Tables, subject: Option<Entity>, c: Candidate, faults: Faults) {
    && NamesStable(Env(cfg.u, t, cfg.threshold, faults), subject, c)
    && (IsEdgeFact(c, Kind(cfg.u, c), RelatedKeys(cfg.u, c)) || cfg.u.Normalized(c.content) != "")
  }

  predicate NothingCreated(n: Counters) {
    n.created == 0 && n.entities == 0 && n.relationships == 0
  }

  /** Sending a committed one-candidate request again, before the clock moves, succeeds and reports nothing
      created if and only if every name the first run looked up in vain reads the same once trimmed, and the
      candidate is an edge fact or its content normalises to some text.  The audits of both may fail anywhere. */
  lemma RepeatedRequestIff(cfg: Config, t: Tables, req: Request, c: Candidate, faults: Faults, faults2: Faults)
    requires ValidConfig(cfg) && t.Valid() && !req.dryRun
    requires ReadsSucceed(Env(cfg.u, t, cfg.threshold, faults)) && ReadsSucceed(Env(cfg.u, t, cfg.threshold, faults2))
    requires RunIngest(cfg, t, req, Some(Ok([c])), faults).result.Ok? && !faults2.commitFails
    ensures var first := RunIngest(cfg, t, req, Some(Ok([c])), faults);
            first.tables.Valid() &&
            var second := RunIngest(cfg, first.tables, req, Some(Ok([c])), faults2);
            second.result.Ok? &&
            var n, stable := second.result.value.counters,
                NamesStable(Env(cfg.u, t, cfg.threshold, faults), RequestSubject(cfg, t, req), c);
            && (NothingCreated(n) <==> RepeatIsQuiet(cfg, t, RequestSubject(cfg, t, req), c, faults))
            && (n.entities == 0 <==> stable)
            && (stable ==> n.relationships == 0
                           && (n.created == 0 <==> RepeatIsQuiet(cfg, t, RequestSubject(cfg, t, req), c, faults)))
  {
    hide *;
    var extraction: Extraction := Some(Ok([c]));
    var env := Env(cfg.u, t, cfg.threshold, faults);
    RunCases(cfg, t, req, extraction, faults);
    var done := FirstRequest(cfg, t, req, c, faults);
    var plan := PlanRequest(cfg, t, req, extraction, faults).value;
    var t' := RunIngest(cfg, t, req, extraction, faults).tables;
    var env' := Env(cfg.u, t', cfg.threshold, faults2);
    PlannedOk(cfg, t, req, extraction, faults);
    RequestPlan(cfg, t, req, c, faults);
    SameSubject(cfg, t, t', req);
    RequestPlan(cfg, t', req, c, faults2);
    var subject := RequestSubject(cfg, t, req);
    EnvsValid(cfg, t, t', faults, faults2);
    SameReads(cfg, t, t', faults2);
    StoredSubject(env, subject);
    SortedKeysList(plan.refs);
    SortedKeysList(plan.edges);
    RepeatCreatesNothingIff(env, env', subject, c, SortedKeys(plan.refs.Keys), SortedKeys(plan.edges.Keys));
    ReportedCounters(cfg, t', req, c, faults2);
    CreatesNothingCounts(BuildPlan(env', subject, [c]).value);
    QuietFolds(cfg, t, subject, c, faults);
  }

  lemma QuietFolds(cfg: Config, t: Tables, subject: Option<Entity>, c: Candidate, faults: Faults)
    ensures RepeatIsQuiet(cfg, t, subject, c, faults)
            <==> NamesStable(Env(cfg.u, t, cfg.threshold, faults), subject, c)
                 && (IsEdgeFact(c, Kind(cfg.u, c), RelatedKeys(cfg.u, c)) || cfg.u.Normalized(c.content) != "")
  {
    hide NamesStable, IsEdgeFact, Kind, RelatedKeys;
  }

  /** A committed request reports the counters of its plan. */
  lemma ReportedCounters(cfg: Config, t: Tables, req: Request, c: Candidate, faults: Faults)
    requires ValidConfig(cfg) && t.Valid() && !req.dryRun && PlanRequest(cfg, t, req, Some(Ok([c])), faults).Ok?
    requires !faults.commitFails
    ensures var plan := PlanRequest(cfg, t, req, Some(Ok([c])), faults).value;
            var o := RunIngest(cfg, t, req, Some(Ok([c])), faults);
            && o.result.Ok?
            && o.result.value.counters == MemoryCounters(plan.steps, CountEntitiesToCreate(plan.refs), |plan.edges|)
  {
    hide *;
    var extraction: Extraction := Some(Ok([c]));
    var d := req.(dryRun := true);
    assert req.(dryRun := false) == req;
    DryRunAgrees(cfg, t, req, extraction, faults);
    SamePlan(cfg, t, req, extraction, faults);
    RunCases(cfg, t, d, extraction, faults);
    RunCases(cfg, t, req, extraction, faults);
    NotDry(extraction, d);
  }

  lemma NotDry(extraction: Extraction, req: Request)
    requires req.dryRun
    ensures !Commits(extraction, req)
  {
  }
}
