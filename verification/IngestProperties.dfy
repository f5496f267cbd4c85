/** What an ingest request does to the store, whatever it contains. */
module IngestProperties {
  import opened Types
  import opened Tables
  import opened Resolution
  import opened Planner
  import opened PlanProperties
  import opened Commit
  import opened CommitEntities
  import opened CommitEdges
  import opened CommitMemories
  import opened CommitProperties
  import opened KeyOrder
  import opened Ingest

  ghost predicate ValidConfig(cfg: Config) {
    cfg.u.Valid() && 0.0 < cfg.threshold <= 1.0
  }

  // ---- audit ----

  function Linked(m: Memory, sourceId: Id, now: nat): Memory {
    m.(sourceId := Some(sourceId), updatedAt := now)
  }

  /** The memory table after linking some rows to an audit record. */
  ghost function LinkedTable(memories: map<Id, Memory>, ids: set<Id>, sourceId: Id, now: nat): map<Id, Memory> {
    map i | i in memories :: if i in ids then Linked(memories[i], sourceId, now) else memories[i]
  }

  lemma SourceLinked(t: Tables, id: Id, sourceId: Id)
    requires t.Valid() && id in t.memories && sourceId in t.sources
    ensures UpdateMemory(t, id, SourcePatch(sourceId)).Ok?
    ensures var w := UpdateMemory(t, id, SourcePatch(sourceId)).value;
            && w.tables.Valid() && w.row == Linked(t.memories[id], sourceId, t.now)
            && w.tables == t.(memories := t.memories[id := w.row])
  {
    assert t.ValidMemory(id);
  }

  /** The committed rows whose backfill goes through, once the audit record exists. */
  ghost function LinkedIds(rows: seq<Memory>, fails: seq<bool>): set<Id> {
    set k | 0 <= k < |rows| && !FailsAt(fails, k + 1) :: rows[k].id
  }

  /** Backfill links exactly the committed rows whose statement does not fail, changes nothing but their source ids
      and update times, and returns them as stored; a row whose statement fails is returned as it was committed. */
  lemma {:induction false} BackfillLinks(t: Tables, sourceId: Id, rows: seq<Memory>, fails: seq<bool>)
    requires t.Valid() && sourceId in t.sources && RowsStored(t.memories, rows)
    ensures var b := Backfill(t, sourceId, rows, fails);
            && b.tables.Valid()
            && b.tables == t.(memories := LinkedTable(t.memories, LinkedIds(rows, fails), sourceId, t.now))
            && |b.memories| == |rows|
            && forall i :: 0 <= i < |rows| ==>
                 b.memories[i] == if FailsAt(fails, i + 1) then rows[i]
                     else Linked(t.memories[rows[i].id], sourceId, t.now)
    decreases |rows|
  {
    hide *;
    if rows == [] {
      NoneLinked(t, sourceId, fails);
    } else {
      var n := |rows| - 1;
      StoredSplit(t.memories, rows);
      BackfillLinks(t, sourceId, rows[..n], fails);
      var done := Backfill(t, sourceId, rows[..n], fails);
      LinkOneMore(t.memories, rows, sourceId, t.now, fails);
      if FailsAt(fails, n + 1) {
        BackfillSkip(t, sourceId, rows, fails);
      } else {
        SourceLinked(done.tables, rows[n].id, sourceId);
        BackfillSnoc(t, sourceId, rows, fails);
      }
    }
  }

  lemma NoneLinked(t: Tables, sourceId: Id, fails: seq<bool>)
    ensures Backfill(t, sourceId, [], fails) == Backfilled(t, [])
    ensures t == t.(memories := LinkedTable(t.memories, LinkedIds([], fails), sourceId, t.now))
  {
    assert LinkedTable(t.memories, LinkedIds([], fails), sourceId, t.now) == t.memories;
  }

  lemma StoredSplit(memories: map<Id, Memory>, rows: seq<Memory>)
    requires RowsStored(memories, rows) && rows != []
    ensures RowsStored(memories, rows[..|rows| - 1]) && forall i :: 0 <= i < |rows| ==> rows[i].id in memories
  {
    forall i | 0 <= i < |rows|
      ensures rows[i].id in memories
    {
      assert rows[i] in rows;
    }
  }

  lemma BackfillSkip(t: Tables, sourceId: Id, rows: seq<Memory>, fails: seq<bool>)
    requires rows != [] && FailsAt(fails, |rows|)
    ensures var done := Backfill(t, sourceId, rows[..|rows| - 1], fails);
            Backfill(t, sourceId, rows, fails) == Backfilled(done.tables, done.memories + [rows[|rows| - 1]])
  {
  }

  lemma BackfillSnoc(t: Tables, sourceId: Id, rows: seq<Memory>, fails: seq<bool>)
    requires rows != [] && !FailsAt(fails, |rows|)
    requires UpdateMemory(Backfill(t, sourceId, rows[..|rows| - 1], fails).tables, rows[|rows| - 1].id,
                          SourcePatch(sourceId)).Ok?
    ensures var done := Backfill(t, sourceId, rows[..|rows| - 1], fails);
            var w := UpdateMemory(done.tables, rows[|rows| - 1].id, SourcePatch(sourceId)).value;
            Backfill(t, sourceId, rows, fails) == Backfilled(w.tables, done.memories + [w.row])
  {
    hide FailsAt;
  }

  lemma LinkOneMore(memories: map<Id, Memory>, rows: seq<Memory>, sourceId: Id, now: nat, fails: seq<bool>)
    requires rows != [] && RowsStored(memories, rows)
    ensures var n := |rows| - 1;
            var before := LinkedTable(memories, LinkedIds(rows[..n], fails), sourceId, now);
            && rows[n].id in before
            && Linked(before[rows[n].id], sourceId, now) == Linked(memories[rows[n].id], sourceId, now)
            && LinkedTable(memories, LinkedIds(rows, fails), sourceId, now)
               == if FailsAt(fails, n + 1) then before
                   else before[rows[n].id := Linked(memories[rows[n].id], sourceId, now)]
  {
    hide FailsAt;
    var n := |rows| - 1;
    assert rows[n] in rows;
    assert rows == rows[..n] + [rows[n]];
    assert LinkedIds(rows, fails) == LinkedIds(rows[..n], fails) + if FailsAt(fails, n + 1) then {} else {rows[n].id};
  }

  /** Whether the audit got as far as linking the k-th committed row. */
  predicate RowLinked(fails: seq<bool>, k: nat) {
    !FailsAt(fails, 0) && !FailsAt(fails, k + 1)
  }

  /** The memories an audit links. */
  ghost function AuditedIds(rows: seq<Memory>, fails: seq<bool>): set<Id> {
    set k | 0 <= k < |rows| && RowLinked(fails, k) :: rows[k].id
  }

  /** Auditing a commit, whichever of its statements fail: entities, relationships and the set of memories stay; the
      committed rows whose statements go through are linked to the new audit record and returned as stored, the
      others are unchanged and returned as committed. */
  lemma AuditLinks(t: Tables, req: Request, subjectId: Option<Id>, steps: seq<Step>, rows: seq<Memory>,
      fails: seq<bool>)
    requires t.Valid() && RowsStored(t.memories, rows) && (subjectId.Some? ==> subjectId.value in t.entities)
    ensures var a := AuditIngest(t, req, subjectId, steps, rows, fails);
            && a.tables.Valid() && t.nextId !in t.sources
            && a.sourceId == (if FailsAt(fails, 0) then None else Some(t.nextId))
            && a.tables.entities == t.entities && a.tables.relationships == t.relationships && a.tables.now == t.now
            && a.tables.memories == LinkedTable(t.memories, AuditedIds(rows, fails), t.nextId, t.now)
            && (FailsAt(fails, 0) ==> a.tables.sources == t.sources)
            && (!FailsAt(fails, 0) ==>
                  exists s: IngestSource ::
                    && a.tables.sources == t.sources[t.nextId := s] && s.id == t.nextId && s.rawText == req.rawText
                    && s.subjectId == subjectId && s.model == req.model && s.createdAt == t.now
                    && |s.actions| == |steps|
                    && forall i :: 0 <= i < |steps| ==> s.actions[i] == steps[i].decision.action)
            && |a.memories| == |rows|
            && forall i :: 0 <= i < |rows| ==>
                 && rows[i].id in a.tables.memories
                 && a.memories[i] == if RowLinked(fails, i) then a.tables.memories[rows[i].id] else rows[i]
  {
    hide *;
    FreshId(t);
    RowsIn(t.memories, rows, fails);
    if FailsAt(fails, 0) {
      AuditFailed(t, req, subjectId, steps, rows, fails);
    } else {
      var w := AuditRecorded(t, req, subjectId, steps, rows, fails);
      BackfillLinks(w.tables, w.row.id, rows, fails);
      LinkedRows(t.memories, rows, fails, t.nextId, t.now);
    }
  }

  lemma RowsIn(memories: map<Id, Memory>, rows: seq<Memory>, fails: seq<bool>)
    requires RowsStored(memories, rows)
    ensures forall i :: 0 <= i < |rows| ==> rows[i].id in memories
    ensures FailsAt(fails, 0) ==> AuditedIds(rows, fails) == {}
    ensures !FailsAt(fails, 0) ==> AuditedIds(rows, fails) == LinkedIds(rows, fails)
    ensures forall k: nat :: RowLinked(fails, k) <==> !FailsAt(fails, 0) && !FailsAt(fails, k + 1)
  {
    hide FailsAt;
    forall i | 0 <= i < |rows|
      ensures rows[i].id in memories
    {
      assert rows[i] in rows;
    }
  }

  lemma AuditFailed(t: Tables, req: Request, subjectId: Option<Id>, steps: seq<Step>, rows: seq<Memory>,
      fails: seq<bool>)
    requires FailsAt(fails, 0)
    ensures AuditIngest(t, req, subjectId, steps, rows, fails) == Audited(t, None, rows)
    ensures LinkedTable(t.memories, {}, t.nextId, t.now) == t.memories
  {
  }

  lemma AuditRecorded(t: Tables, req: Request, subjectId: Option<Id>, steps: seq<Step>, rows: seq<Memory>,
      fails: seq<bool>)
      returns (w: Wrote<IngestSource>)
    requires t.Valid() && !FailsAt(fails, 0) && (subjectId.Some? ==> subjectId.value in t.entities)
    ensures w.tables.Valid() && w.row.id == t.nextId && w.tables.now == t.now && w.tables.memories == t.memories
    ensures w.tables.entities == t.entities && w.tables.relationships == t.relationships
    ensures w.tables.sources == t.sources[t.nextId := w.row] && w.row.rawText == req.rawText
    ensures w.row.subjectId == subjectId && w.row.model == req.model && w.row.createdAt == t.now
    ensures |w.row.actions| == |steps| && forall i :: 0 <= i < |steps| ==> w.row.actions[i] == steps[i].decision.action
    ensures var done := Backfill(w.tables, w.row.id, rows, fails);
            AuditIngest(t, req, subjectId, steps, rows, fails) == Audited(done.tables, Some(w.row.id), done.memories)
  {
    hide Backfill, FailsAt;
    w := CreateIngestSource(t, req.rawText, subjectId, req.model, Actions(steps)).value;
  }

  lemma LinkedRows(memories: map<Id, Memory>, rows: seq<Memory>, fails: seq<bool>, sourceId: Id, now: nat)
    requires forall i :: 0 <= i < |rows| ==> rows[i].id in memories
    ensures var linked := LinkedTable(memories, LinkedIds(rows, fails), sourceId, now);
            forall i :: 0 <= i < |rows| ==>
              && rows[i].id in linked
              && (!FailsAt(fails, i + 1) ==> linked[rows[i].id] == Linked(memories[rows[i].id], sourceId, now))
  {
    hide FailsAt;
    forall i | 0 <= i < |rows| && !FailsAt(fails, i + 1)
      ensures rows[i].id in LinkedIds(rows, fails)
    {
    }
  }

  // ---- the whole request ----

  /** The plan, when there is one, satisfies the conditions of the commit. */
  lemma PlannedOk(cfg: Config, t: Tables, req: Request, extraction: Extraction, faults: Faults)
    requires ValidConfig(cfg) && t.Valid()
    requires PlanRequest(cfg, t, req, extraction, faults).Ok?
    ensures extraction.Some? && extraction.value.Ok?
    ensures var plan := PlanRequest(cfg, t, req, extraction, faults).value;
            var env := Env(cfg.u, t, cfg.threshold, faults);
            && env.Valid() && PlanOk(env, plan) && StepsAsked(env, plan)
            && |plan.steps| == |extraction.value.value|
            && forall i :: 0 <= i < |plan.steps| ==> plan.steps[i].candidate == extraction.value.value[i]
    ensures var s := RequestSubject(cfg, t, req); s.Some? ==>
        s.value.id in t.entities && t.entities[s.value.id] == s.value
  {
    hide BuildPlan;
    hide PlanOk;
    hide StepsAsked;
    var env := Env(cfg.u, t, cfg.threshold, faults);
    var subject := RequestSubject(cfg, t, req);
    hide ExplicitSubject;
    BuildPlanOk(env, subject, extraction.value.value);
    BuildPlanAsked(env, subject, extraction.value.value);
    OneStepEach(env, subject, extraction.value.value);
  }

  /** The plain outcome of committing and auditing. */
  ghost predicate CommitAudited(env: Env, plan: Plan, req: Request, subjectId: Option<Id>, o: Outcome,
      done: Committed) {
    && CommitPlan(env.tables, plan, SortedKeys(plan.refs.Keys), SortedKeys(plan.edges.Keys)) == Ok(done)
    && done.tables.Valid() && RowsStored(done.tables.memories, done.memories)
    && o.result.Ok?
    && var a := AuditIngest(done.tables, req, subjectId, done.plan.steps, done.memories, env.faults.auditFails);
       && o.tables == a.tables
       && o.result.value
           == Response(a.sourceId, MemoryCounters(done.plan.steps, CountEntitiesToCreate(plan.refs), |plan.edges|),
                                     done.plan.steps, a.memories)
  }

  lemma CommitAuditedHolds(env: Env, plan: Plan, req: Request, subjectId: Option<Id>) returns (done: Committed)
    requires env.Valid() && PlanOk(env, plan)
    ensures CommitPlan(env.tables, plan, SortedKeys(plan.refs.Keys), SortedKeys(plan.edges.Keys)) == Ok(done)
    ensures done.tables.Valid() && RowsStored(done.tables.memories, done.memories)
    ensures !env.faults.commitFails ==>
              CommitAudited(env, plan, req, subjectId, CommitAndAudit(env.tables, req, subjectId, plan, env.faults),
                  done)
  {
    hide *;
    var eks, rks := SortedKeys(plan.refs.Keys), SortedKeys(plan.edges.Keys);
    SortedKeysList(plan.refs);
    SortedKeysList(plan.edges);
    var e, r, s := CommitPhases(env, plan, eks, rks);
    PhasesValid(env, plan, eks, rks, e, r, s);
    PhaseRows(env, plan, eks, rks, e, r, s);
    done := Committed(s.tables, Plan(s.steps, e.refs, r.edges), s.committed);
    if !env.faults.commitFails {
      CommitAuditedFolds(env, plan, req, subjectId, done);
    }
  }

  lemma PhaseRows(env: Env, plan: Plan, entityKeys: seq<string>, edgeKeys: seq<string>,
                  e: EntitiesDone, r: EdgesDone, s: StepsDone)
    requires Phases(env, plan, entityKeys, edgeKeys, e, r, s)
    ensures RowsStored(s.tables.memories, s.committed)
  {
  }

  lemma CommitAuditedFolds(env: Env, plan: Plan, req: Request, subjectId: Option<Id>, done: Committed)
    requires Lists(SortedKeys(plan.refs.Keys), plan.refs) && Lists(SortedKeys(plan.edges.Keys), plan.edges)
    requires CommitPlan(env.tables, plan, SortedKeys(plan.refs.Keys), SortedKeys(plan.edges.Keys)) == Ok(done)
    requires done.tables.Valid() && RowsStored(done.tables.memories, done.memories) && !env.faults.commitFails
    ensures CommitAudited(env, plan, req, subjectId, CommitAndAudit(env.tables, req, subjectId, plan, env.faults), done)
  {
    hide CommitPlan;
    hide AuditIngest;
    hide MemoryCounters;
    hide RowsStored;
  }

  /** A request fails exactly when planning fails or the commit transaction does, and a failed or dry request
      leaves the store as it was.  A committed one leaves a valid store. */
  lemma IngestAllOrNothing(cfg: Config, t: Tables, req: Request, extraction: Extraction, faults: Faults)
    requires ValidConfig(cfg) && t.Valid()
    ensures var o := RunIngest(cfg, t, req, extraction, faults);
            && o.tables.Valid()
            && (o.result.Err? <==> PlanRequest(cfg, t, req, extraction, faults).Err?
                                   || (faults.commitFails && !req.dryRun && extraction.value.value != []))
            && (o.result.Err? || req.dryRun || extraction.value.value == [] ==> o.tables == t)
  {
    hide *;
    RunCases(cfg, t, req, extraction, faults);
    if PlanRequest(cfg, t, req, extraction, faults).Ok? && !faults.commitFails {
      PlannedOk(cfg, t, req, extraction, faults);
      var plan := PlanRequest(cfg, t, req, extraction, faults).value;
      var env := Env(cfg.u, t, cfg.threshold, faults);
      var subjectId := SubjectId(RequestSubject(cfg, t, req));
      var done := CommitAuditedHolds(env, plan, req, subjectId);
      AuditedValid(env, plan, req, RequestSubject(cfg, t, req), CommitAndAudit(t, req, subjectId, plan, faults), done);
    }
  }

  lemma RunCases(cfg: Config, t: Tables, req: Request, extraction: Extraction, faults: Faults)
    requires t.Valid()
    ensures var o := RunIngest(cfg, t, req, extraction, faults);
            match PlanRequest(cfg, t, req, extraction, faults)
            case Err(error) => o == Outcome(t, Err(error))
            case Ok(plan) =>
              && extraction.Some? && extraction.value.Ok?
              && (Commits(extraction, req) <==> extraction.value.value != [] && !req.dryRun)
              && (Commits(extraction, req) && faults.commitFails ==> o == Outcome(t, Err(DRIVER_FAILURE)))
              && o == if !Commits(extraction, req)
                      then Outcome(t,
                          Ok(Response(None, MemoryCounters(plan.steps, CountEntitiesToCreate(plan.refs), |plan.edges|),
                                                  plan.steps, [])))
                      else CommitAndAudit(t, req, SubjectId(RequestSubject(cfg, t, req)), plan, faults)
  {
    hide BuildPlan, CommitPlan, AuditIngest, MemoryCounters, ExplicitSubject;
  }

  lemma AuditedValid(env: Env, plan: Plan, req: Request, subject: Option<Entity>, o: Outcome, done: Committed)
    requires env.Valid() && PlanOk(env, plan) && CommitAudited(env, plan, req, SubjectId(subject), o, done)
    requires subject.Some? ==> subject.value.id in env.tables.entities
    ensures o.tables.Valid() && o.result.Ok?
    ensures subject.Some? ==> subject.value.id in done.tables.entities
    ensures o.tables.entities == done.tables.entities && o.tables.relationships == done.tables.relationships
    ensures o.tables.memories == LinkedTable(done.tables.memories, AuditedIds(done.memories, env.faults.auditFails),
                                             done.tables.nextId, done.tables.now)
    ensures o.tables.now == done.tables.now
    ensures |o.result.value.committed| == |done.memories|
    ensures forall i :: 0 <= i < |done.memories| ==>
              && done.memories[i].id in o.tables.memories
              && o.result.value.committed[i] == if RowLinked(env.faults.auditFails, i)
                                                then o.tables.memories[done.memories[i].id] else done.memories[i]
  {
    hide *;
    AuditedUnfold(env, plan, req, SubjectId(subject), o, done);
    SubjectIdIs(subject);
    var eks, rks := SortedKeys(plan.refs.Keys), SortedKeys(plan.edges.Keys);
    SortedKeysList(plan.refs);
    SortedKeysList(plan.edges);
    var e, r, s := CommitPhases(env, plan, eks, rks);
    PhaseEntities(env, plan, eks, rks, e, r, s);
    AuditLinks(done.tables, req, SubjectId(subject), done.plan.steps, done.memories, env.faults.auditFails);
  }

  lemma SubjectIdIs(subject: Option<Entity>)
    ensures SubjectId(subject).Some? <==> subject.Some?
    ensures subject.Some? ==> SubjectId(subject) == Some(subject.value.id)
  {
  }

  lemma AuditedUnfold(env: Env, plan: Plan, req: Request, subjectId: Option<Id>, o: Outcome, done: Committed)
    requires CommitAudited(env, plan, req, subjectId, o, done)
    ensures CommitPlan(env.tables, plan, SortedKeys(plan.refs.Keys), SortedKeys(plan.edges.Keys)) == Ok(done)
    ensures done.tables.Valid() && RowsStored(done.tables.memories, done.memories) && o.result.Ok?
    ensures var a := AuditIngest(done.tables, req, subjectId, done.plan.steps, done.memories, env.faults.auditFails);
            o.tables == a.tables && o.result.value.committed == a.memories && o.result.value.sourceId == a.sourceId
            && o.result.value.steps == done.plan.steps
            && o.result.value.counters
                == MemoryCounters(done.plan.steps, CountEntitiesToCreate(plan.refs), |plan.edges|)
  {
    hide AuditIngest;
    hide MemoryCounters;
    hide RowsStored;
  }

  lemma PhaseEntities(env: Env, plan: Plan, entityKeys: seq<string>, edgeKeys: seq<string>,
                      e: EntitiesDone, r: EdgesDone, s: StepsDone)
    requires Phases(env, plan, entityKeys, edgeKeys, e, r, s)
    ensures forall i :: i in env.tables.entities ==>
        i in s.tables.entities && s.tables.entities[i] == env.tables.entities[i]
    ensures s.tables.now == env.tables.now
  {
    hide RefsDone;
    hide RefsKept;
    hide AddedByRefs;
    hide ListedDone;
    hide AddedByPlan;
    hide StepsReported;
    hide StoredFinal;
    hide CommittedRows;
  }

  // ---- dry runs ----

  lemma {:induction false} SameCounts(steps: seq<Step>, done: seq<Step>, a: Action)
    requires |done| == |steps| && forall i :: 0 <= i < |steps| ==> done[i].decision == steps[i].decision
    ensures CountAction(done, a) == CountAction(steps, a)
    decreases |steps|
  {
    if steps != [] {
      SameCounts(steps[..|steps| - 1], done[..|done| - 1], a);
    }
  }

  /** The finished steps take the planned decisions. */
  ghost predicate SameDecisions(steps: seq<Step>, done: seq<Step>) {
    |done| == |steps| && forall i :: 0 <= i < |steps| ==>
      done[i].candidate == steps[i].candidate && done[i].decision == steps[i].decision
      && done[i].subjectKey == steps[i].subjectKey && done[i].relatedKeys == steps[i].relatedKeys
  }

  lemma ReportedDecisions(t: Tables, refs: map<string, EntityRef>, memories: map<Id, Memory>, steps: seq<Step>,
      done: seq<Step>)
    requires StepsReported(t, refs, memories, steps, done)
    ensures SameDecisions(steps, done)
  {
    forall i | 0 <= i < |steps|
      ensures done[i].candidate == steps[i].candidate && done[i].decision == steps[i].decision
      ensures done[i].subjectKey == steps[i].subjectKey && done[i].relatedKeys == steps[i].relatedKeys
    {
      assert StepReported(t, refs, memories, steps[i], done[i]);
    }
  }

  lemma SameMemoryCounters(steps: seq<Step>, done: seq<Step>, entities: nat, relationships: nat)
    requires SameDecisions(steps, done)
    ensures MemoryCounters(done, entities, relationships) == MemoryCounters(steps, entities, relationships)
  {
    SameCounts(steps, done, CreateAction);
    SameCounts(steps, done, UpdateAction);
    SameCounts(steps, done, MergeAction);
    SameCounts(steps, done, NoOpAction);
  }

  /** A dry run and a commit from the same store succeed together, unless the transaction fails, and report the same
      decisions, reasons and counters; the four memory counters add up to the number of candidates. */
  lemma DryRunAgrees(cfg: Config, t: Tables, req: Request, extraction: Extraction, faults: Faults)
    requires ValidConfig(cfg) && t.Valid()
    ensures var dry := RunIngest(cfg, t, req.(dryRun := true), extraction, faults);
            var wet := RunIngest(cfg, t, req.(dryRun := false), extraction, faults);
            && (dry.result.Err? ==> wet == dry)
            && (dry.result.Ok? ==>
                  && extraction.Some? && extraction.value.Ok?
                  && (wet.result.Ok? <==> !faults.commitFails || extraction.value.value == [])
                  && (wet.result.Ok? ==>
                        && wet.result.value.counters == dry.result.value.counters
                        && SameDecisions(dry.result.value.steps, wet.result.value.steps))
                  && var n := dry.result.value.counters;
                     n.created + n.updated + n.merged + n.noOp == |extraction.value.value|)
  {
    hide *;
    var d, w := req.(dryRun := true), req.(dryRun := false);
    SamePlan(cfg, t, req, extraction, faults);
    RunCases(cfg, t, d, extraction, faults);
    RunCases(cfg, t, w, extraction, faults);
    if PlanRequest(cfg, t, d, extraction, faults).Ok? {
      PlannedOk(cfg, t, d, extraction, faults);
      var plan := PlanRequest(cfg, t, d, extraction, faults).value;
      var env := Env(cfg.u, t, cfg.threshold, faults);
      var subjectId := SubjectId(RequestSubject(cfg, t, w));
      CountersOfPlan(plan.steps, CountEntitiesToCreate(plan.refs), |plan.edges|);
      NoChange(plan.steps);
      var done := CommitAuditedHolds(env, plan, w, subjectId);
      if !faults.commitFails {
        AuditedUnfold(env, plan, w, subjectId, CommitAndAudit(t, w, subjectId, plan, faults), done);
      }
      SortedKeysList(plan.refs);
      SortedKeysList(plan.edges);
      CommitKeepsMemories(env, plan, SortedKeys(plan.refs.Keys), SortedKeys(plan.edges.Keys));
      ReportedDecisions(env.tables, done.plan.refs, done.tables.memories, plan.steps, done.plan.steps);
      SameMemoryCounters(plan.steps, done.plan.steps, CountEntitiesToCreate(plan.refs), |plan.edges|);
    }
  }

  lemma SamePlan(cfg: Config, t: Tables, req: Request, extraction: Extraction, faults: Faults)
    requires t.Valid()
    ensures PlanRequest(cfg, t, req.(dryRun := true), extraction, faults)
        == PlanRequest(cfg, t, req.(dryRun := false), extraction, faults)
  {
  }

  lemma CountersOfPlan(steps: seq<Step>, entities: nat, relationships: nat)
    ensures var n := MemoryCounters(steps, entities, relationships);
            n.created + n.updated + n.merged + n.noOp == |steps|
  {
    CountersSum(steps);
  }

  lemma NoChange(steps: seq<Step>)
    ensures SameDecisions(steps, steps)
  {
  }

  // ---- the effect of a committed request ----

  /** What an ingest may do to a stored memory: rewrite its content, confidence, metadata, source and update
      time, never anything else; never lower its confidence outside the singleton categories; and
      nothing at all when no update step is aimed at it. */
  ghost predicate IngestKeeps(m: Memory, steps: seq<Step>, m': Memory) {
    && m'.id == m.id && m'.entityId == m.entityId && m'.category == m.category
    && m'.createdAt == m.createdAt && m'.expiresAt == m.expiresAt
    && (!Singleton(m.category) ==> m.confidence <= m'.confidence)
    && ((forall i :: 0 <= i < |steps| ==> !Targets(steps[i], m.id)) ==> m' == m)
    && (forall i :: 0 <= i < |steps| && IsLastTarget(steps, i, m.id) ==>
          m'.content == steps[i].candidate.content && m'.confidence == steps[i].candidate.confidence)
  }

  lemma KeptThenLinked(m: Memory, steps: seq<Step>, m1: Memory, m2: Memory, linked: bool, sourceId: Id, now: nat)
    requires MemoryKept(m, steps, m1) && m2 == if linked then Linked(m1, sourceId, now) else m1
    requires linked ==> exists i :: 0 <= i < |steps| && Targets(steps[i], m.id)
    ensures IngestKeeps(m, steps, m2)
  {
  }

  /** A linked row that was stored before is an update target. */
  lemma LinkedIsTargeted(memories: map<Id, Memory>, steps: seq<Step>, rows: seq<Memory>, fails: seq<bool>, id: Id)
    requires RowOrigins(memories, steps, rows) && id in memories && id in AuditedIds(rows, fails)
    ensures exists i :: 0 <= i < |steps| && Targets(steps[i], id)
  {
    var k :| 0 <= k < |rows| && rows[k].id == id;
    assert rows[k] in rows;
  }

  lemma KeepsSameDecisions(m: Memory, steps: seq<Step>, done: seq<Step>, m': Memory)
    requires IngestKeeps(m, steps, m') && SameDecisions(steps, done)
    ensures IngestKeeps(m, done, m')
  {
    assert forall i :: 0 <= i < |steps| ==> Targets(done[i], m.id) == Targets(steps[i], m.id);
  }

  lemma {:induction false} SameWriters(steps: seq<Step>, done: seq<Step>)
    requires SameDecisions(steps, done)
    ensures |WritingSteps(done)| == |WritingSteps(steps)|
    ensures forall i :: 0 <= i < |WritingSteps(steps)| ==>
              && WritingSteps(done)[i].decision == WritingSteps(steps)[i].decision
              && WritingSteps(done)[i].candidate == WritingSteps(steps)[i].candidate
    decreases |steps|
  {
    if steps != [] {
      SameWriters(steps[..|steps| - 1], done[..|done| - 1]);
    }
  }

  /** Committing changes the store as counted, but for planned edges that were stored all along; it keeps every
      stored memory, and answers with the rows as stored, or as committed where the audit failed. */
  ghost predicate Effect(env: Env, plan: Plan, o: Outcome) {
    && o.result.Ok?
    && var n, steps := o.result.value.counters, o.result.value.steps;
       && |o.tables.entities| == |env.tables.entities| + n.entities
       && |o.tables.memories| == |env.tables.memories| + n.created
       && |o.tables.relationships| == |env.tables.relationships| + n.relationships - |SkippedEdges(env.tables, plan)|
       && (|o.tables.relationships| == |env.tables.relationships| + n.relationships <==>
             forall k :: k in plan.edges ==> !StoredWhilePlanning(env.tables, plan.refs, plan.edges[k]))
       && AllKept(env.tables.memories, steps, o.tables.memories)
       && o.tables.now == env.tables.now
       && RowsInPlanOrder(steps, o.result.value.committed, o.tables.memories, env.faults.auditFails)
  }

  ghost predicate AllKept(memories: map<Id, Memory>, steps: seq<Step>, memories': map<Id, Memory>) {
    forall i :: i in memories ==> i in memories' && IngestKeeps(memories[i], steps, memories'[i])
  }

  /** One row for each create or update step, in plan order; an update's row is its target.  A row linked by the
      audit is the row as stored; any other is as its step wrote it. */
  ghost predicate RowsInPlanOrder(steps: seq<Step>, rows: seq<Memory>, memories: map<Id, Memory>, fails: seq<bool>) {
    var w := WritingSteps(steps);
    |rows| == |w| && forall i :: 0 <= i < |w| ==>
      && rows[i].id in memories
      && (RowLinked(fails, i) ==> memories[rows[i].id] == rows[i])
      && (!RowLinked(fails, i) ==>
            && rows[i].content == w[i].candidate.content && rows[i].category == w[i].candidate.category
            && rows[i].confidence == w[i].candidate.confidence)
      && (w[i].decision.action.UpdateAction? ==> w[i].decision.target == Some(rows[i].id))
  }

  lemma RowsFinished(refs: map<string, EntityRef>, steps: seq<Step>, done: seq<Step>, rows: seq<Memory>,
                     memories: map<Id, Memory>, final: seq<Memory>, fails: seq<bool>)
    requires CommittedRows(refs, steps, rows) && SameDecisions(steps, done)
    requires |final| == |rows| && forall i :: 0 <= i < |rows| ==>
               rows[i].id in memories && final[i] == if RowLinked(fails, i) then memories[rows[i].id] else rows[i]
    requires forall i :: i in memories ==> memories[i].id == i
    ensures RowsInPlanOrder(done, final, memories, fails)
  {
    hide RowLinked;
    SameWriters(steps, done);
    var w := WritingSteps(steps);
    forall i | 0 <= i < |w|
      ensures WrittenAs(refs, w[i], rows[i]) && final[i].id == rows[i].id
    {
    }
  }

  lemma IngestEffect(cfg: Config, t: Tables, req: Request, extraction: Extraction, faults: Faults)
    requires ValidConfig(cfg) && t.Valid() && !req.dryRun
    requires RunIngest(cfg, t, req, extraction, faults).result.Ok?
    ensures PlanRequest(cfg, t, req, extraction, faults).Ok?
    ensures Effect(Env(cfg.u, t, cfg.threshold, faults), PlanRequest(cfg, t, req, extraction, faults).value,
                   RunIngest(cfg, t, req, extraction, faults))
  {
    hide *;
    RunCases(cfg, t, req, extraction, faults);
    PlannedOk(cfg, t, req, extraction, faults);
    var plan := PlanRequest(cfg, t, req, extraction, faults).value;
    var env := Env(cfg.u, t, cfg.threshold, faults);
    if extraction.value.value == [] {
      NoCandidates(cfg, t, req, extraction, faults, plan);
      QuietEffect(env, plan, RunIngest(cfg, t, req, extraction, faults));
    } else {
      CommitEffect(env, plan, req, RequestSubject(cfg, t, req));
    }
  }

  lemma NoCandidates(cfg: Config, t: Tables, req: Request, extraction: Extraction, faults: Faults, plan: Plan)
    requires t.Valid() && PlanRequest(cfg, t, req, extraction, faults) == Ok(plan)
    requires extraction.Some? && extraction.value == Ok([])
    ensures plan.steps == [] && plan.edges == map[] && ToCreate(plan.refs) == {}
  {
    hide ExplicitSubject;
    hide EntityKey;
  }

  lemma QuietEffect(env: Env, plan: Plan, o: Outcome)
    requires env.tables.Valid() && plan.steps == [] && plan.edges == map[] && ToCreate(plan.refs) == {}
    requires o == Outcome(env.tables,
        Ok(Response(None, MemoryCounters([], CountEntitiesToCreate(plan.refs), |plan.edges|), [], [])))
    ensures Effect(env, plan, o)
  {
    RowsKeyed(env.tables);
    hide StoredWhilePlanning;
    assert SkippedEdges(env.tables, plan) == {};
  }

  lemma CommitEffect(env: Env, plan: Plan, req: Request, subject: Option<Entity>)
    requires env.Valid() && PlanOk(env, plan) && (subject.Some? ==> subject.value.id in env.tables.entities)
    requires !env.faults.commitFails
    ensures Effect(env, plan, CommitAndAudit(env.tables, req, SubjectId(subject), plan, env.faults))
  {
    hide *;
    EnvUnfold(env);
    var o := CommitAndAudit(env.tables, req, SubjectId(subject), plan, env.faults);
    var done := CommitAuditedHolds(env, plan, req, SubjectId(subject));
    AuditedUnfold(env, plan, req, SubjectId(subject), o, done);
    AuditedValid(env, plan, req, subject, o, done);
    var eks, rks := SortedKeys(plan.refs.Keys), SortedKeys(plan.edges.Keys);
    SortedKeysList(plan.refs);
    SortedKeysList(plan.edges);
    CommitCounts(env, plan, eks, rks);
    CommitKeepsMemories(env, plan, eks, rks);
    var e, r, s := CommitPhases(env, plan, eks, rks);
    PhaseEntities(env, plan, eks, rks, e, r, s);
    PhaseOrigins(env, plan, eks, rks, e, r, s);
    ReportedDecisions(env.tables, done.plan.refs, done.tables.memories, plan.steps, done.plan.steps);
    SameMemoryCounters(plan.steps, done.plan.steps, CountEntitiesToCreate(plan.refs), |plan.edges|);
    RowsKeyed(env.tables);
    RowsKeyed(o.tables);
    RowsFinished(done.plan.refs, plan.steps, done.plan.steps, done.memories, o.tables.memories,
                 o.result.value.committed, env.faults.auditFails);
    forall i | i in env.tables.memories
      ensures i in o.tables.memories && IngestKeeps(env.tables.memories[i], done.plan.steps, o.tables.memories[i])
    {
      LinkedKept(env, plan, done, o.tables, i);
      KeepsSameDecisions(env.tables.memories[i], plan.steps, done.plan.steps, o.tables.memories[i]);
    }
    AllKeptFolds(env.tables.memories, done.plan.steps, o.tables.memories);
    SameKeys(done.tables.memories, AuditedIds(done.memories, env.faults.auditFails), done.tables.nextId,
        done.tables.now);
    EffectFolds(env, plan, o, done);
  }

  lemma PhaseOrigins(env: Env, plan: Plan, entityKeys: seq<string>, edgeKeys: seq<string>,
                     e: EntitiesDone, r: EdgesDone, s: StepsDone)
    requires Phases(env, plan, entityKeys, edgeKeys, e, r, s)
    ensures RowOrigins(env.tables.memories, plan.steps, s.committed)
  {
    hide RefsDone;
    hide RefsKept;
    hide AddedByRefs;
    hide ListedDone;
    hide AddedByPlan;
    hide StepsReported;
    hide StoredFinal;
    hide CommittedRows;
  }

  lemma LinkedKept(env: Env, plan: Plan, done: Committed, t': Tables, i: Id)
    requires i in env.tables.memories && i in done.tables.memories && env.tables.memories[i].id == i
    requires MemoryKept(env.tables.memories[i], plan.steps, done.tables.memories[i])
    requires RowOrigins(env.tables.memories, plan.steps, done.memories)
    requires t'.memories == LinkedTable(done.tables.memories, AuditedIds(done.memories, env.faults.auditFails),
                                        done.tables.nextId, done.tables.now)
    ensures i in t'.memories && IngestKeeps(env.tables.memories[i], plan.steps, t'.memories[i])
  {
    hide MemoryKept;
    hide RowOrigins;
    hide AuditedIds;
    var linked := i in AuditedIds(done.memories, env.faults.auditFails);
    if linked {
      LinkedIsTargeted(env.tables.memories, plan.steps, done.memories, env.faults.auditFails, i);
    }
    hide IngestKeeps;
    KeptThenLinked(env.tables.memories[i], plan.steps, done.tables.memories[i], t'.memories[i], linked,
        done.tables.nextId, done.tables.now);
  }

  lemma EffectFolds(env: Env, plan: Plan, o: Outcome, done: Committed)
    requires o.result.Ok?
    requires o.tables.entities == done.tables.entities && o.tables.relationships == done.tables.relationships
    requires o.tables.memories.Keys == done.tables.memories.Keys
    requires |done.tables.entities| == |env.tables.entities| + CountEntitiesToCreate(plan.refs)
    requires |done.tables.memories| == |env.tables.memories| + CountAction(plan.steps, CreateAction)
    requires |done.tables.relationships| == |env.tables.relationships| + |plan.edges| - |SkippedEdges(env.tables, plan)|
    requires |done.tables.relationships| == |env.tables.relationships| + |plan.edges| <==>
               forall k :: k in plan.edges ==> !StoredWhilePlanning(env.tables, plan.refs, plan.edges[k])
    requires o.tables.now == env.tables.now
    requires o.result.value.steps == done.plan.steps
    requires o.result.value.counters == MemoryCounters(plan.steps, CountEntitiesToCreate(plan.refs), |plan.edges|)
    requires AllKept(env.tables.memories, done.plan.steps, o.tables.memories)
    requires RowsInPlanOrder(done.plan.steps, o.result.value.committed, o.tables.memories, env.faults.auditFails)
    ensures Effect(env, plan, o)
  {
    hide AllKept, RowsInPlanOrder, StoredWhilePlanning, SkippedEdges;
    assert |o.tables.memories| == |o.tables.memories.Keys| == |done.tables.memories.Keys| == |done.tables.memories|;
  }

  lemma AllKeptFolds(memories: map<Id, Memory>, steps: seq<Step>, memories': map<Id, Memory>)
    requires forall i :: i in memories ==> i in memories' && IngestKeeps(memories[i], steps, memories'[i])
    ensures AllKept(memories, steps, memories')
  {
  }

  lemma SameKeys(memories: map<Id, Memory>, ids: set<Id>, sourceId: Id, now: nat)
    ensures LinkedTable(memories, ids, sourceId, now).Keys == memories.Keys
  {
  }

  // ---- any sequence of ingests ----

  datatype Event =
    | IngestEvent(req: Request, extraction: Extraction, faults: Faults)
    | TickEvent(elapsed: nat)

  function StepEvent(cfg: Config, t: Tables, e: Event): Tables
    requires t.Valid()
  {
    match e
    case IngestEvent(req, extraction, faults) => RunIngest(cfg, t, req, extraction, faults).tables
    case TickEvent(elapsed) => t.(now := t.now + elapsed)
  }

  /** What no ingest ever changes or lowers. */
  ghost predicate Persists(m: Memory, m': Memory) {
    && m'.id == m.id && m'.entityId == m.entityId && m'.category == m.category
    && m'.createdAt == m.createdAt && m'.expiresAt == m.expiresAt
    && (!Singleton(m.category) ==> m.confidence <= m'.confidence)
  }

  lemma OneEventPersists(cfg: Config, t: Tables, e: Event)
    requires ValidConfig(cfg) && t.Valid()
    ensures StepEvent(cfg, t, e).Valid()
    ensures forall i :: i in t.memories ==>
        i in StepEvent(cfg, t, e).memories && Persists(t.memories[i], StepEvent(cfg, t, e).memories[i])
  {
    match e
    case TickEvent(elapsed) =>
      TickValid(t, elapsed);
    case IngestEvent(req, extraction, faults) =>
      hide RunIngest, Persists;
      IngestPersists(cfg, t, req, extraction, faults);
  }

  lemma IngestPersists(cfg: Config, t: Tables, req: Request, extraction: Extraction, faults: Faults)
    requires ValidConfig(cfg) && t.Valid()
    ensures var t' := RunIngest(cfg, t, req, extraction, faults).tables;
            t'.Valid() && forall i :: i in t.memories ==> i in t'.memories && Persists(t.memories[i], t'.memories[i])
  {
    hide *;
    IngestAllOrNothing(cfg, t, req, extraction, faults);
    var o := RunIngest(cfg, t, req, extraction, faults);
    if !req.dryRun && o.result.Ok? {
      IngestEffect(cfg, t, req, extraction, faults);
      EffectKeeps(Env(cfg.u, t, cfg.threshold, faults), PlanRequest(cfg, t, req, extraction, faults).value, o);
      KeptPersists(t.memories, o.result.value.steps, o.tables.memories);
    } else {
      SamePersists(t.memories);
    }
  }

  lemma EffectKeeps(env: Env, plan: Plan, o: Outcome)
    requires Effect(env, plan, o)
    ensures o.result.Ok? && AllKept(env.tables.memories, o.result.value.steps, o.tables.memories)
  {
    hide AllKept, RowsInPlanOrder, SkippedEdges;
  }

  lemma SamePersists(memories: map<Id, Memory>)
    ensures forall i :: i in memories ==> Persists(memories[i], memories[i])
  {
  }

  lemma KeptPersists(memories: map<Id, Memory>, steps: seq<Step>, memories': map<Id, Memory>)
    requires AllKept(memories, steps, memories')
    ensures forall i :: i in memories ==> i in memories' && Persists(memories[i], memories'[i])
  {
    forall i | i in memories
      ensures i in memories' && Persists(memories[i], memories'[i])
    {
      assert IngestKeeps(memories[i], steps, memories'[i]);
    }
  }

  lemma TickValid(t: Tables, elapsed: nat)
    requires t.Valid()
    ensures t.(now := t.now + elapsed).Valid()
  {
    var t' := t.(now := t.now + elapsed);
    forall i | i in t.memories ensures t'.ValidMemory(i) { assert t.ValidMemory(i); }
    forall i | i in t.entities ensures t'.ValidEntity(i) { assert t.ValidEntity(i); }
    forall i | i in t.relationships ensures t'.ValidRelationship(i) { assert t.ValidRelationship(i); }
    forall i | i in t.sources ensures t'.ValidSource(i) { assert t.ValidSource(i); }
  }

  /** The store after a history of ingests, each allowed to fail, with time passing in between. */
  ghost function After(cfg: Config, t: Tables, events: seq<Event>): (t': Tables)
    requires ValidConfig(cfg) && t.Valid()
    ensures t'.Valid()
  {
    if events == [] then t
    else
      var n := |events| - 1;
      var earlier := After(cfg, t, events[..n]);
      OneEventPersists(cfg, earlier, events[n]);
      StepEvent(cfg, earlier, events[n])
  }

  /** Over any history of ingests no memory disappears or changes owner, category, creation time or expiry,
      and outside the singleton categories its confidence never falls. */
  lemma {:induction false} HistoryPersists(cfg: Config, t: Tables, events: seq<Event>, id: Id)
    requires ValidConfig(cfg) && t.Valid() && id in t.memories
    ensures id in After(cfg, t, events).memories && Persists(t.memories[id], After(cfg, t, events).memories[id])
    decreases |events|
  {
    hide StepEvent;
    if events != [] {
      var n := |events| - 1;
      HistoryPersists(cfg, t, events[..n], id);
      OneEventPersists(cfg, After(cfg, t, events[..n]), events[n]);
    }
  }
}
