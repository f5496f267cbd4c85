/** The ingest request as the service runs it: plan, commit in one transaction, audit, invalidate. */
module IngestService {
  import opened Types
  import opened Tables
  import opened Planner
  import opened Commit
  import opened KeyOrder
  import opened Ingest
  import opened ContextCache
  import opened Connection
  import opened Planning
  import opened Committing

  // ---- the transaction ----

  /** What the commit of a plan prescribes, keys in sorted order. */
  ghost function Prescribed(t: Tables, plan: Plan): Result<Committed> {
    CommitPlan(t, plan, SortedKeys(plan.refs.Keys), SortedKeys(plan.edges.Keys))
  }

  /** All or nothing: success is exactly the prescribed commit; an error leaves the tables as they were, and is the
      prescribed one or the driver's. */
  method CommitInTx(db: Database, plan: IngestPlan) returns (r: Result<seq<Memory>>)
    modifies db, plan
    ensures r.Err? ==> db.tables == old(db.tables)
    ensures r.Ok? ==> Prescribed(old(db.tables), old(Plan(plan.steps, plan.refs, plan.edges)))
                      == Ok(Committed(db.tables, Plan(plan.steps, plan.refs, plan.edges), r.value))
    ensures r.Err? ==> Committing.Fails(Prescribed(old(db.tables), old(Plan(plan.steps, plan.refs, plan.edges))),
                                        old(db.faults) == [], r.error)
    ensures old(db.faults) == [] ==> db.faults == []
  {
    hide *;
    NoFaults();
    ghost var t0, p0 := db.tables, Plan(plan.steps, plan.refs, plan.edges);
    FailsUnfold(Prescribed(t0, p0));
    var begun := db.Begin();
    if begun.Err? {
      return Err(begun.error);
    }
    ghost var e, d, s := EntitiesDone(t0, p0.refs), EdgesDone(t0, p0.edges), StepsDone(t0, p0.steps, []);
    ghost var h1, h2, h3 := db.faults == [], false, false;
    var committed: seq<Memory> := [];
    var done := CreatePlannedEntities(db, plan);
    e := EntitiesDone(db.tables, plan.refs);
    var edgesDone, stepsDone := done, done;
    if done.Ok? {
      h2 := db.faults == [];
      edgesDone := CreatePlannedRelationships(db, plan);
      d := EdgesDone(db.tables, plan.edges);
      stepsDone := edgesDone;
      if edgesDone.Ok? {
        h3 := db.faults == [];
        stepsDone, committed := ExecutePlannedMemories(db, plan);
        s := StepsDone(db.tables, plan.steps, committed);
      }
    }
    PhasesFollow(t0, p0, h1, h2, h3, done, e, edgesDone, d, stepsDone, s);
    if stepsDone.Err? {
      db.Rollback();
      return Err(stepsDone.error);
    }
    var finished := db.Commit();
    if finished.Err? {
      return Err(finished.error);
    }
    r := Ok(committed);
  }

  lemma NoFaults()
    ensures !Connection.Fails([]) && Later([]) == []
  {
  }

  lemma PhasesFollow(t: Tables, plan: Plan, h1: bool, h2: bool, h3: bool, done: Result<()>, e: EntitiesDone,
      edgesDone: Result<()>, d: EdgesDone,
                     stepsDone: Result<()>, s: StepsDone)
    requires Follows(CreateEntities(t, plan.refs, SortedKeys(plan.refs.Keys)), h1, done, e)
    requires done.Ok? ==>
        Follows(CreateEdges(e.tables, e.refs, plan.edges, SortedKeys(plan.edges.Keys)), h2, edgesDone, d)
    requires done.Ok? && edgesDone.Ok? ==>
        Follows(ExecuteSteps(d.tables, e.refs, d.edges, plan.steps), h3, stepsDone, s)
    requires done.Err? ==> stepsDone == done
    requires done.Ok? && edgesDone.Err? ==> stepsDone == edgesDone
    ensures stepsDone.Ok? ==>
        Prescribed(t, plan) == Ok(Committed(s.tables, Plan(s.steps, e.refs, d.edges), s.committed))
    ensures stepsDone.Err? ==>
        Committing.Fails(Prescribed(t, plan), h1 && (done.Ok? ==> h2) && (done.Ok? && edgesDone.Ok? ==> h3),
                                                stepsDone.error)
  {
    hide CreateEntities, CreateEdges, ExecuteSteps, SortedKeys;
  }

  // ---- the audit ----

  /** Best effort: exactly the audit prescribed for the statements that fail, the first for the record and one for
      each committed memory. */
  method RecordAudit(db: Database, req: Request, subjectId: Option<Id>, steps: seq<Step>, committed: seq<Memory>)
    returns (sourceId: Option<Id>, audited: seq<Memory>)
    modifies db`tables, db`faults
    ensures Audited(db.tables, sourceId, audited)
            == AuditIngest(old(db.tables), req, subjectId, steps, committed, old(db.faults))
  {
    hide *;
    ghost var fails := db.faults;
    audited := committed;
    RemainingCases(fails, 0);
    AttemptedCases(db.faults, db.tables,
        CreateIngestSource(db.tables, req.rawText, subjectId, req.model, Actions(steps)));
    AttemptFate(db.faults, db.tables, CreateIngestSource(db.tables, req.rawText, subjectId, req.model, Actions(steps)));
    var source := db.CreateIngestSource(req.rawText, subjectId, req.model, Actions(steps));
    AuditCases(old(db.tables), req, subjectId, steps, committed, fails);
    if source.Err? {
      return None, audited;
    }
    sourceId := Some(source.value.id);
    ghost var t1 := db.tables;
    var i := 0;
    assert committed[..0] == [];
    NothingLinked(t1, source.value.id, fails);
    while i < |audited|
      invariant 0 <= i <= |audited| == |committed| && audited[i..] == committed[i..]
      invariant db.faults == Remaining(fails, i + 1)
      invariant Backfill(t1, source.value.id, committed[..i], fails) == Backfilled(db.tables, audited[..i])
    {
      ghost var before := db.tables;
      assert audited[i] == audited[i..][0] == committed[i..][0] == committed[i];
      RemainingCases(fails, i + 1);
      AttemptFate(db.faults, db.tables, UpdateMemory(db.tables, audited[i].id, SourcePatch(source.value.id)));
      PatchIs(source.value.id);
      var updated := db.UpdateMemory(audited[i].id,
          MemoryPatch(None, None, None, false, None, Some(source.value.id), false));
      BackfillNext(t1, source.value.id, committed, i, before, audited[..i], fails);
      OneRowDone(audited, committed, i, if updated.Ok? then updated.value else audited[i]);
      if updated.Ok? {
        audited := audited[i := updated.value];
      }
      i := i + 1;
    }
    assert committed[..i] == committed && audited[..i] == audited;
  }

  /** What is left of a schedule after k statements. */
  ghost function Remaining(fails: seq<bool>, k: nat): seq<bool> {
    if k <= |fails| then fails[k..] else []
  }

  lemma RemainingCases(fails: seq<bool>, k: nat)
    ensures Remaining(fails, 0) == fails && Later(Remaining(fails, k)) == Remaining(fails, k + 1)
    ensures Connection.Fails(Remaining(fails, k)) <==> FailsAt(fails, k)
  {
    assert fails[0..] == fails;
  }

  /** A write is attempted as the schedule says. */
  lemma AttemptFate<T>(faults: seq<bool>, t: Tables, w: Result<Wrote<T>>)
    ensures Attempted(faults, t, w)
            == if Connection.Fails(faults) then (t, Err(DRIVER_FAILURE))
               else if w.Ok? then (w.value.tables, Ok(w.value.row)) else (t, Err(w.error))
  {
  }

  lemma AuditCases(t: Tables, req: Request, subjectId: Option<Id>, steps: seq<Step>, committed: seq<Memory>,
      fails: seq<bool>)
    ensures var created := CreateIngestSource(t, req.rawText, subjectId, req.model, Actions(steps));
            AuditIngest(t, req, subjectId, steps, committed, fails)
            == if FailsAt(fails, 0) || created.Err? then Audited(t, None, committed)
               else
                 var done := Backfill(created.value.tables, created.value.row.id, committed, fails);
                 Audited(done.tables, Some(created.value.row.id), done.memories)
  {
    hide CreateIngestSource, Backfill, Actions, FailsAt;
  }

  lemma NothingLinked(t: Tables, sourceId: Id, fails: seq<bool>)
    ensures Backfill(t, sourceId, [], fails) == Backfilled(t, [])
  {
  }

  lemma PatchIs(sourceId: Id)
    ensures SourcePatch(sourceId) == MemoryPatch(None, None, None, false, None, Some(sourceId), false)
  {
  }

  lemma BackfillNext(t: Tables, sourceId: Id, rows: seq<Memory>, i: nat, t': Tables, done: seq<Memory>,
      fails: seq<bool>)
    requires i < |rows| && Backfill(t, sourceId, rows[..i], fails) == Backfilled(t', done)
    ensures var linked := UpdateMemory(t', rows[i].id, SourcePatch(sourceId));
            Backfill(t, sourceId, rows[..i + 1], fails)
            == if FailsAt(fails, i + 1) || linked.Err? then Backfilled(t', done + [rows[i]])
               else Backfilled(linked.value.tables, done + [linked.value.row])
  {
    hide UpdateMemory, SourcePatch, FailsAt;
    assert rows[..i + 1][..i] == rows[..i];
  }

  lemma OneRowDone(audited: seq<Memory>, committed: seq<Memory>, i: nat, row: Memory)
    requires i < |audited| == |committed| && audited[i..] == committed[i..]
    ensures audited[i := row][..i + 1] == audited[..i] + [row]
    ensures audited[i := row][i + 1..] == committed[i + 1..]
    ensures audited[..i + 1] == audited[..i] + [audited[i]] && audited[i + 1..] == committed[i + 1..]
  {
    assert audited[i + 1..] == audited[i..][1..] == committed[i..][1..] == committed[i + 1..];
  }

  // ---- counting ----

  method CountActions(steps: seq<Step>) returns (created: nat, updated: nat, merged: nat, noOp: nat)
    ensures created == CountAction(steps, CreateAction) && updated == CountAction(steps, UpdateAction)
    ensures merged == CountAction(steps, MergeAction) && noOp == CountAction(steps, NoOpAction)
  {
    created, updated, merged, noOp := 0, 0, 0, 0;
    var i := 0;
    while i < |steps|
      invariant 0 <= i <= |steps|
      invariant created == CountAction(steps[..i], CreateAction) && updated == CountAction(steps[..i], UpdateAction)
      invariant merged == CountAction(steps[..i], MergeAction) && noOp == CountAction(steps[..i], NoOpAction)
    {
      assert steps[..i + 1][..i] == steps[..i];
      match steps[i].decision.action {
        case CreateAction => created := created + 1;
        case UpdateAction => updated := updated + 1;
        case MergeAction => merged := merged + 1;
        case NoOpAction => noOp := noOp + 1;
      }
      i := i + 1;
    }
    assert steps[..i] == steps;
  }

  /** Counted over the map in any order. */
  method CountToCreate(refs: map<string, EntityRef>) returns (total: nat)
    ensures total == CountEntitiesToCreate(refs)
  {
    total := 0;
    ghost var counted: set<string> := {};
    var pending := refs.Keys;
    while pending != {}
      invariant pending <= refs.Keys
      invariant counted == (set k | k in refs && k !in pending && refs[k].existing.None?) && total == |counted|
      decreases |pending|
    {
      var k :| k in pending;
      pending := pending - {k};
      if refs[k].existing.None? {
        total := total + 1;
        counted := counted + {k};
      }
    }
    assert counted == ToCreate(refs);
  }

  // ---- invalidation ----

  method CollectRelatedIds(refs: map<string, EntityRef>, keys: seq<string>) returns (ids: seq<Id>)
    ensures ids == RelatedIds(refs, keys)
  {
    ids := [];
    var i := 0;
    while i < |keys|
      invariant 0 <= i <= |keys| && ids == RelatedIds(refs, keys[..i])
    {
      assert keys[..i + 1][..i] == keys[..i];
      if keys[i] in refs {
        ids := ids + [DerefEntity(refs[keys[i]].existing)];
      }
      i := i + 1;
    }
    assert keys[..i] == keys;
  }

  lemma WithoutTwice(entries: Entries, a: seq<Id>, b: seq<Id>)
    ensures Without(Without(entries, Touched(a)), Touched(b)) == Without(entries, Touched(a + b))
  {
    assert Touched(a + b) == Touched(a) + Touched(b);
  }

  /** Every entity a finished step touched loses its cached contexts. */
  method InvalidateTouched(cache: Cache, refs: map<string, EntityRef>, steps: seq<Step>)
    modifies cache
    ensures cache.entries == Without(old(cache.entries), Touched(AllTouches(refs, steps)))
  {
    hide Without, Touched, StepTouches, RelatedIds;
    var i := 0;
    NoneTouched(cache.entries);
    while i < |steps|
      invariant 0 <= i <= |steps| && cache.entries == Without(old(cache.entries), Touched(AllTouches(refs, steps[..i])))
    {
      var step := steps[i];
      ghost var before := cache.entries;
      var first := [DerefEntity(step.subjectExisting), DerefCreated(refs, step.subjectKey)];
      cache.InvalidateEntityContext(first);
      var related: seq<Id> := [];
      if step.createdRelationIds != {} {
        related := CollectRelatedIds(refs, step.relatedKeys);
        cache.InvalidateEntityContext(related);
      } else {
        NoneTouched(cache.entries);
      }
      WithoutTwice(before, first, related);
      StepTouchesIs(refs, step, first, related);
      WithoutTwice(old(cache.entries), AllTouches(refs, steps[..i]), first + related);
      assert steps[..i + 1][..i] == steps[..i];
      i := i + 1;
    }
    assert steps[..i] == steps;
  }

  lemma NoneTouched(entries: Entries)
    ensures Without(entries, Touched([])) == entries
  {
  }

  lemma StepTouchesIs(refs: map<string, EntityRef>, s: Step, first: seq<Id>, related: seq<Id>)
    requires first == [DerefEntity(s.subjectExisting), DerefCreated(refs, s.subjectKey)]
    requires related == if s.createdRelationIds != {} then RelatedIds(refs, s.relatedKeys) else []
    ensures StepTouches(refs, s) == first + related
  {
  }
}
