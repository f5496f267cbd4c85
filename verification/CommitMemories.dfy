/** Writing the memories of a plan: creates add, updates rewrite in place, merge and no-op write nothing. */
module CommitMemories {
  import opened Types
  import opened Tables
  import opened Planner
  import opened Commit

  /** A step whose subject is resolved, whose candidate passed validation, and whose update target is a
      stored memory of that subject and category. */
  ghost predicate StepReady(t: Tables, refs: map<string, EntityRef>, s: Step) {
    && Resolved(refs, s.subjectKey) && ResolvedId(refs, s.subjectKey) in t.entities
    && StoredCategory(s.candidate.category) && UnitInterval(s.candidate.confidence)
    && (s.decision.action.UpdateAction? ==>
          && s.decision.target.Some? && s.decision.target.value in t.memories
          && t.memories[s.decision.target.value].entityId == ResolvedId(refs, s.subjectKey)
          && t.memories[s.decision.target.value].category == s.candidate.category)
  }

  ghost predicate StepsReady(t: Tables, refs: map<string, EntityRef>, steps: seq<Step>) {
    forall i :: 0 <= i < |steps| ==> StepReady(t, refs, steps[i])
  }

  predicate Targets(s: Step, id: Id) {
    s.decision.action.UpdateAction? && s.decision.target == Some(id)
  }

  /** The step aims at the memory and no later one does. */
  predicate IsLastTarget(steps: seq<Step>, i: nat, id: Id)
    requires i < |steps|
  {
    Targets(steps[i], id) && forall j :: i < j < |steps| ==> !Targets(steps[j], id)
  }

  /** What the steps make of a stored memory: the updates that target it, in order. */
  function FinalMemory(m: Memory, steps: seq<Step>, now: nat): Memory {
    if steps == [] then m
    else
      var n := |steps| - 1;
      var earlier := FinalMemory(m, steps[..n], now);
      if Targets(steps[n], m.id) then Patched(earlier, UpdatePatch(steps[n].candidate), now) else earlier
  }

  /** The row a create step inserts. */
  function NewMemory(id: Id, refs: map<string, EntityRef>, s: Step, now: nat): Memory
    requires Resolved(refs, s.subjectKey)
  {
    Memory(id, ResolvedId(refs, s.subjectKey), s.candidate.content, s.candidate.category, s.candidate.confidence,
           None, now, now, None, CREATED_VIA_INGEST)
  }

  /** The row reported for a writing step. */
  ghost predicate WrittenAs(refs: map<string, EntityRef>, s: Step, m: Memory) {
    && Resolved(refs, s.subjectKey) && m.entityId == ResolvedId(refs, s.subjectKey)
    && m.content == s.candidate.content && m.category == s.candidate.category && m.confidence == s.candidate.confidence
    && (s.decision.action.UpdateAction? ==> s.decision.target == Some(m.id))
  }

  ghost predicate StoredFinal(t: Tables, steps: seq<Step>, memories: map<Id, Memory>) {
    forall i :: i in t.memories ==> i in memories && memories[i] == FinalMemory(t.memories[i], steps, t.now)
  }

  ghost predicate OthersFresh(t: Tables, memories: map<Id, Memory>) {
    forall i :: i in memories && i !in t.memories ==> t.nextId <= i
  }

  /** The finished step differs from the planned one only in what the commit fills in. */
  ghost predicate Finished(s: Step, f: Step) {
    f == s.(subjectId := f.subjectId, createdEntityIds := f.createdEntityIds,
            createdMemoryId := f.createdMemoryId, createdRelationIds := f.createdRelationIds)
  }

  ghost predicate StepReported(t: Tables, refs: map<string, EntityRef>, memories: map<Id, Memory>, s: Step, f: Step) {
    && Finished(s, f) && Resolved(refs, s.subjectKey) && f.subjectId == Some(ResolvedId(refs, s.subjectKey))
    && (s.decision.action.CreateAction? ==>
          && f.createdMemoryId.Some? && f.createdMemoryId.value !in t.memories && f.createdMemoryId.value in memories
          && memories[f.createdMemoryId.value] == NewMemory(f.createdMemoryId.value, refs, s, t.now))
  }

  ghost predicate StepsReported(t: Tables, refs: map<string, EntityRef>, memories: map<Id, Memory>, steps: seq<Step>,
      done: seq<Step>) {
    |done| == |steps| && forall i :: 0 <= i < |steps| ==> StepReported(t, refs, memories, steps[i], done[i])
  }

  ghost predicate CommittedRows(refs: map<string, EntityRef>, steps: seq<Step>, rows: seq<Memory>) {
    var w := WritingSteps(steps);
    |rows| == |w| && forall i :: 0 <= i < |w| ==> WrittenAs(refs, w[i], rows[i])
  }

  ghost predicate RowsStored(memories: map<Id, Memory>, rows: seq<Memory>) {
    forall m :: m in rows ==> m.id in memories
  }

  /** A written row that was stored before is an update target. */
  ghost predicate RowOrigins(memories: map<Id, Memory>, steps: seq<Step>, rows: seq<Memory>) {
    forall m :: m in rows && m.id in memories ==> exists i :: 0 <= i < |steps| && Targets(steps[i], m.id)
  }

  ghost predicate MemoriesDone(t: Tables, refs: map<string, EntityRef>, steps: seq<Step>, done: StepsDone) {
    && done.tables.(memories := t.memories, nextId := t.nextId) == t && t.nextId <= done.tables.nextId
    && StoredFinal(t, steps, done.tables.memories)
    && OthersFresh(t, done.tables.memories)
    && |done.tables.memories| == |t.memories| + CountAction(steps, CreateAction)
    && StepsReported(t, refs, done.tables.memories, steps, done.steps)
    && CommittedRows(refs, steps, done.committed)
    && RowsStored(done.tables.memories, done.committed)
    && RowOrigins(t.memories, steps, done.committed)
  }

  // ---- FinalMemory ----

  /** Updates keep identity, owner, category, creation time, expiry and source. */
  lemma {:induction false} FinalKeepsIdentity(m: Memory, steps: seq<Step>, now: nat)
    ensures var f := FinalMemory(m, steps, now);
            && f.id == m.id && f.entityId == m.entityId && f.category == m.category
            && f.createdAt == m.createdAt && f.expiresAt == m.expiresAt && f.sourceId == m.sourceId
    decreases |steps|
  {
    if steps != [] {
      FinalKeepsIdentity(m, steps[..|steps| - 1], now);
    }
  }

  /** A memory no step targets is untouched. */
  lemma {:induction false} UntargetedUnchanged(m: Memory, steps: seq<Step>, now: nat)
    requires forall i :: 0 <= i < |steps| ==> !Targets(steps[i], m.id)
    ensures FinalMemory(m, steps, now) == m
    decreases |steps|
  {
    if steps != [] {
      UntargetedUnchanged(m, steps[..|steps| - 1], now);
    }
  }

  /** The last step to target a memory decides its content and confidence. */
  lemma {:induction false} LastTargetWins(m: Memory, steps: seq<Step>, now: nat, last: nat)
    requires last < |steps| && Targets(steps[last], m.id)
    requires forall i :: last < i < |steps| ==> !Targets(steps[i], m.id)
    ensures var f := FinalMemory(m, steps, now);
            && f.content == steps[last].candidate.content && f.confidence == steps[last].candidate.confidence
            && f.metadata == UPDATED_VIA_INGEST && f.updatedAt == now
    decreases |steps|
  {
    if last < |steps| - 1 {
      LastTargetWins(m, steps[..|steps| - 1], now, last);
    }
  }

  /** If every targeting step is more confident than the stored memory, so is the outcome. */
  lemma {:induction false} ConfidenceNeverFalls(m: Memory, steps: seq<Step>, now: nat)
    requires forall i :: 0 <= i < |steps| && Targets(steps[i], m.id) ==> m.confidence < steps[i].candidate.confidence
    ensures m.confidence <= FinalMemory(m, steps, now).confidence
    decreases |steps|
  {
    if steps != [] {
      ConfidenceNeverFalls(m, steps[..|steps| - 1], now);
    }
  }

  // ---- one step ----

  lemma MemoryCreated(t: Tables, p: CreateMemoryParams)
    requires t.Valid() && p.entityId in t.entities && StoredCategory(p.category) && UnitInterval(p.confidence)
        && p.sourceId.None?
    ensures CreateMemory(t, p).Ok?
    ensures var w := CreateMemory(t, p).value;
            && w.tables.Valid() && t.nextId !in t.memories
            && w.row == Memory(t.nextId, p.entityId, p.content, p.category, p.confidence, None, t.now, t.now,
                p.expiresAt, p.metadata)
            && w.tables == t.(memories := t.memories[t.nextId := w.row], nextId := t.nextId + 1)
  {
    FreshId(t);
  }

  lemma MemoryUpdated(t: Tables, id: Id, c: Candidate)
    requires t.Valid() && id in t.memories && UnitInterval(c.confidence)
    ensures UpdateMemory(t, id, UpdatePatch(c)).Ok?
    ensures var w := UpdateMemory(t, id, UpdatePatch(c)).value;
            && w.tables.Valid()
            && w.row == Patched(t.memories[id], UpdatePatch(c), t.now)
            && w.tables == t.(memories := t.memories[id := w.row])
  {
    assert t.ValidMemory(id);
  }

  lemma FinalSnoc(m: Memory, steps: seq<Step>, s: Step, now: nat)
    ensures FinalMemory(m, steps + [s], now)
            == if Targets(s, m.id) then Patched(FinalMemory(m, steps, now), UpdatePatch(s.candidate), now)
               else FinalMemory(m, steps, now)
  {
    assert (steps + [s])[..|steps|] == steps;
  }

  lemma CountsSnoc(steps: seq<Step>, s: Step)
    ensures CountAction(steps + [s], CreateAction)
        == CountAction(steps, CreateAction) + if s.decision.action.CreateAction? then 1 else 0
    ensures WritingSteps(steps + [s])
            == WritingSteps(steps) + if s.decision.action.CreateAction? || s.decision.action.UpdateAction? then [s]
                else []
  {
    assert (steps + [s])[..|steps|] == steps;
  }

  lemma ReportSnoc(t: Tables, refs: map<string, EntityRef>, memories: map<Id, Memory>, memories': map<Id, Memory>,
                   steps: seq<Step>, done: seq<Step>, s: Step, f: Step)
    requires StepsReported(t, refs, memories, steps, done) && StepReported(t, refs, memories', s, f)
    requires forall i :: i in memories && i !in t.memories ==> i in memories' && memories'[i] == memories[i]
    ensures StepsReported(t, refs, memories', steps + [s], done + [f])
  {
    forall i | 0 <= i < |steps| + 1
      ensures StepReported(t, refs, memories', (steps + [s])[i], (done + [f])[i])
    {
      if i < |steps| {
        assert StepReported(t, refs, memories, steps[i], done[i]);
      }
    }
  }

  lemma FinalsSnoc(t: Tables, steps: seq<Step>, s: Step, memories: map<Id, Memory>, memories': map<Id, Memory>)
    requires StoredFinal(t, steps, memories) && forall i :: i in t.memories ==> t.memories[i].id == i
    requires forall i :: i in t.memories ==>
               i in memories' && memories'[i] == if Targets(s, i)
                   then Patched(memories[i], UpdatePatch(s.candidate), t.now)
                                                 else memories[i]
    ensures StoredFinal(t, steps + [s], memories')
  {
    forall i | i in t.memories
      ensures memories'[i] == FinalMemory(t.memories[i], steps + [s], t.now)
    {
      FinalSnoc(t.memories[i], steps, s, t.now);
    }
  }

  lemma RowsSnoc(refs: map<string, EntityRef>, steps: seq<Step>, committed: seq<Memory>, s: Step, rows: seq<Memory>)
    requires CommittedRows(refs, steps, committed)
    requires if s.decision.action.CreateAction? || s.decision.action.UpdateAction?
             then |rows| == 1 && WrittenAs(refs, s, rows[0]) else rows == []
    ensures CommittedRows(refs, steps + [s], committed + rows)
  {
    CountsSnoc(steps, s);
  }

  lemma OriginsSnoc(memories: map<Id, Memory>, steps: seq<Step>, committed: seq<Memory>, s: Step, rows: seq<Memory>)
    requires RowOrigins(memories, steps, committed)
    requires forall m :: m in rows ==> m.id !in memories || Targets(s, m.id)
    ensures RowOrigins(memories, steps + [s], committed + rows)
  {
    hide Targets;
    var more := steps + [s];
    forall m | m in committed + rows && m.id in memories
      ensures exists i :: 0 <= i < |more| && Targets(more[i], m.id)
    {
      if m in committed {
        var i :| 0 <= i < |steps| && Targets(steps[i], m.id);
        assert more[i] == steps[i];
      } else {
        assert more[|steps|] == s;
      }
    }
  }

  /** The parts of the state after one more step. */
  lemma Assembled(t: Tables, refs: map<string, EntityRef>, steps: seq<Step>, done: StepsDone, s: Step,
                  t': Tables, f: Step, rows: seq<Memory>)
    requires MemoriesDone(t, refs, steps, done) && forall i :: i in t.memories ==> t.memories[i].id == i
    requires t'.(memories := done.tables.memories, nextId := done.tables.nextId) == done.tables
    requires done.tables.nextId <= t'.nextId
    requires forall i :: i in t.memories ==>
               i in t'.memories && t'.memories[i] == if Targets(s, i)
                   then Patched(done.tables.memories[i], UpdatePatch(s.candidate), t.now)
                                                     else done.tables.memories[i]
    requires forall i :: i in done.tables.memories && i !in t.memories ==>
        i in t'.memories && t'.memories[i] == done.tables.memories[i]
    requires forall i :: i in t'.memories && i !in done.tables.memories ==> t.nextId <= i
    requires |t'.memories| == |done.tables.memories| + if s.decision.action.CreateAction? then 1 else 0
    requires StepReported(t, refs, t'.memories, s, f)
    requires forall m :: m in rows ==> m.id !in t.memories || Targets(s, m.id)
    requires RowsStored(t'.memories, rows) && done.tables.memories.Keys <= t'.memories.Keys
    requires if s.decision.action.CreateAction? || s.decision.action.UpdateAction?
             then |rows| == 1 && WrittenAs(refs, s, rows[0]) else rows == []
    ensures MemoriesDone(t, refs, steps + [s], StepsDone(t', done.steps + [f], done.committed + rows))
  {
    hide StepReported;
    hide StepsReported;
    hide CommittedRows;
    hide WrittenAs;
    hide StoredFinal;
    hide RowOrigins;
    hide Patched, UpdatePatch, CountAction;
    hide FinalMemory;
    OriginsSnoc(t.memories, steps, done.committed, s, rows);
    CountsSnoc(steps, s);
    FinalsSnoc(t, steps, s, done.tables.memories, t'.memories);
    ReportSnoc(t, refs, done.tables.memories, t'.memories, steps, done.steps, s, f);
    RowsSnoc(refs, steps, done.committed, s, rows);
  }

  lemma DoneBasics(t: Tables, refs: map<string, EntityRef>, steps: seq<Step>, done: StepsDone)
    requires MemoriesDone(t, refs, steps, done)
    ensures done.tables.(memories := t.memories, nextId := t.nextId) == t && t.nextId <= done.tables.nextId
    ensures done.tables.entities == t.entities && done.tables.now == t.now
    ensures forall i :: i in t.memories ==>
        i in done.tables.memories && done.tables.memories[i] == FinalMemory(t.memories[i], steps, t.now)
  {
  }

  lemma ReadyFacts(t: Tables, refs: map<string, EntityRef>, s: Step)
    requires StepReady(t, refs, s)
    ensures Resolved(refs, s.subjectKey) && ResolvedId(refs, s.subjectKey) in t.entities
    ensures StoredCategory(s.candidate.category) && UnitInterval(s.candidate.confidence)
    ensures s.decision.action.UpdateAction? ==>
              && s.decision.target.Some? && s.decision.target.value in t.memories
              && t.memories[s.decision.target.value].entityId == ResolvedId(refs, s.subjectKey)
              && t.memories[s.decision.target.value].category == s.candidate.category
  {
  }

  lemma ExecuteCases(refs: map<string, EntityRef>, edges: map<string, EdgePlan>, done: StepsDone, s: Step,
      w: Wrote<seq<Memory>>)
    requires Resolved(refs, s.subjectKey) && StepWrite(done.tables, ResolvedId(refs, s.subjectKey), s) == Ok(w)
    ensures ExecuteOne(refs, edges, done, s)
            == Ok(StepsDone(w.tables,
                done.steps + [FinishedStep(refs, edges, s, ResolvedId(refs, s.subjectKey), w.row)],
                            done.committed + w.row))
  {
  }

  lemma CreateReported(t: Tables, refs: map<string, EntityRef>, edges: map<string, EdgePlan>, s: Step,
      memories: map<Id, Memory>,
                       id: Id, m: Memory)
    requires Resolved(refs, s.subjectKey) && s.decision.action.CreateAction? && id !in t.memories && id in memories
    requires memories[id] == m
    requires m == Memory(id, ResolvedId(refs, s.subjectKey), s.candidate.content, s.candidate.category,
        s.candidate.confidence,
                         None, t.now, t.now, None, CREATED_VIA_INGEST)
    ensures StepReported(t, refs, memories, s, FinishedStep(refs, edges, s, ResolvedId(refs, s.subjectKey), [m]))
    ensures WrittenAs(refs, s, m) && !Targets(s, id) && forall i :: !Targets(s, i)
  {
    hide CreatedIds;
    hide CreatedFrom;
  }

  lemma RowStored(memories: map<Id, Memory>, m: Memory)
    requires m.id in memories
    ensures RowsStored(memories, [m])
  {
  }

  lemma NoRowStored(memories: map<Id, Memory>)
    ensures RowsStored(memories, [])
  {
  }

  lemma CreateStep(t: Tables, refs: map<string, EntityRef>, edges: map<string, EdgePlan>, steps: seq<Step>,
      done: StepsDone, s: Step)
    requires done.tables.Valid() && MemoriesDone(t, refs, steps, done) && StepReady(t, refs, s)
        && s.decision.action.CreateAction?
    requires forall i :: i in t.memories ==> t.memories[i].id == i
    ensures var r := ExecuteOne(refs, edges, done, s);
            r.Ok? && r.value.tables.Valid() && MemoriesDone(t, refs, steps + [s], r.value)
  {
    hide *;
    DoneBasics(t, refs, steps, done);
    ReadyFacts(t, refs, s);
    var subjectId := ResolvedId(refs, s.subjectKey);
    var w := CreateWrites(done.tables, subjectId, s);
    ExecuteCases(refs, edges, done, s, w);
    var m := w.row[0];
    assert w.row == [m];
    RowStored(w.tables.memories, m);
    CreateReported(t, refs, edges, s, w.tables.memories, m.id, m);
    Assembled(t, refs, steps, done, s, w.tables, FinishedStep(refs, edges, s, subjectId, w.row), w.row);
  }

  lemma CreateWrites(t: Tables, subjectId: Id, s: Step) returns (w: Wrote<seq<Memory>>)
    requires t.Valid() && subjectId in t.entities && s.decision.action.CreateAction?
    requires StoredCategory(s.candidate.category) && UnitInterval(s.candidate.confidence)
    ensures StepWrite(t, subjectId, s) == Ok(w) && w.tables.Valid() && |w.row| == 1 && t.nextId !in t.memories
    ensures w.row[0] == Memory(t.nextId, subjectId, s.candidate.content, s.candidate.category, s.candidate.confidence,
                               None, t.now, t.now, None, CREATED_VIA_INGEST)
    ensures w.tables == t.(memories := t.memories[t.nextId := w.row[0]], nextId := t.nextId + 1)
  {
    MemoryCreated(t, NewMemoryParams(subjectId, s.candidate));
    hide CreateMemory;
    w := StepWrite(t, subjectId, s).value;
  }

  lemma UpdateWrites(t: Tables, subjectId: Id, s: Step, id: Id) returns (w: Wrote<seq<Memory>>)
    requires t.Valid() && Targets(s, id) && id in t.memories && UnitInterval(s.candidate.confidence)
    ensures StepWrite(t, subjectId, s) == Ok(w) && w.tables.Valid()
    ensures w.row == [Patched(t.memories[id], UpdatePatch(s.candidate), t.now)]
    ensures w.tables == t.(memories := t.memories[id := w.row[0]])
  {
    MemoryUpdated(t, id, s.candidate);
    hide UpdateMemory;
    w := StepWrite(t, subjectId, s).value;
  }

  lemma UpdateReported(t: Tables, refs: map<string, EntityRef>, edges: map<string, EdgePlan>, s: Step,
      memories: map<Id, Memory>,
                       id: Id, earlier: Memory, now: nat)
    requires Resolved(refs, s.subjectKey) && s.decision.action.UpdateAction? && s.decision.target == Some(id)
    requires earlier.id == id && earlier.entityId == ResolvedId(refs, s.subjectKey)
        && earlier.category == s.candidate.category
    ensures var m := Patched(earlier, UpdatePatch(s.candidate), now);
            && StepReported(t, refs, memories, s, FinishedStep(refs, edges, s, ResolvedId(refs, s.subjectKey), [m]))
            && WrittenAs(refs, s, m) && m.id == id
    ensures forall i :: Targets(s, i) <==> i == id
  {
    hide CreatedIds;
    hide CreatedFrom;
  }

  lemma UpdateStep(t: Tables, refs: map<string, EntityRef>, edges: map<string, EdgePlan>, steps: seq<Step>,
      done: StepsDone, s: Step)
    requires done.tables.Valid() && MemoriesDone(t, refs, steps, done) && StepReady(t, refs, s)
        && s.decision.action.UpdateAction?
    requires forall i :: i in t.memories ==> t.memories[i].id == i
    ensures var r := ExecuteOne(refs, edges, done, s);
            r.Ok? && r.value.tables.Valid() && MemoriesDone(t, refs, steps + [s], r.value)
  {
    hide *;
    DoneBasics(t, refs, steps, done);
    ReadyFacts(t, refs, s);
    var subjectId, id := ResolvedId(refs, s.subjectKey), s.decision.target.value;
    FinalKeepsIdentity(t.memories[id], steps, t.now);
    UpdateReported(t, refs, edges, s, done.tables.memories, id, done.tables.memories[id], t.now);
    var w := UpdateWrites(done.tables, subjectId, s, id);
    UpdateReported(t, refs, edges, s, w.tables.memories, id, done.tables.memories[id], t.now);
    RowStored(w.tables.memories, w.row[0]);
    ExecuteCases(refs, edges, done, s, w);
    Assembled(t, refs, steps, done, s, w.tables, FinishedStep(refs, edges, s, subjectId, w.row), w.row);
  }

  lemma QuietReported(t: Tables, refs: map<string, EntityRef>, edges: map<string, EdgePlan>, s: Step,
      memories: map<Id, Memory>, now: Tables)
    requires Resolved(refs, s.subjectKey) && !s.decision.action.CreateAction? && !s.decision.action.UpdateAction?
    ensures StepReported(t, refs, memories, s, FinishedStep(refs, edges, s, ResolvedId(refs, s.subjectKey), []))
    ensures forall i :: !Targets(s, i)
    ensures StepWrite(now, ResolvedId(refs, s.subjectKey), s) == Ok(Wrote(now, []))
  {
    hide CreatedIds;
    hide CreatedFrom;
  }

  lemma QuietStep(t: Tables, refs: map<string, EntityRef>, edges: map<string, EdgePlan>, steps: seq<Step>,
      done: StepsDone, s: Step)
    requires done.tables.Valid() && MemoriesDone(t, refs, steps, done) && StepReady(t, refs, s)
    requires !s.decision.action.CreateAction? && !s.decision.action.UpdateAction?
    requires forall i :: i in t.memories ==> t.memories[i].id == i
    ensures var r := ExecuteOne(refs, edges, done, s);
            r.Ok? && r.value.tables.Valid() && MemoriesDone(t, refs, steps + [s], r.value)
  {
    hide *;
    DoneBasics(t, refs, steps, done);
    ReadyFacts(t, refs, s);
    var subjectId := ResolvedId(refs, s.subjectKey);
    QuietReported(t, refs, edges, s, done.tables.memories, done.tables);
    NoRowStored(done.tables.memories);
    ExecuteCases(refs, edges, done, s, Wrote(done.tables, []));
    Assembled(t, refs, steps, done, s, done.tables, FinishedStep(refs, edges, s, subjectId, []), []);
  }

  // ---- all steps ----

  lemma NoStepsDone(t: Tables, refs: map<string, EntityRef>)
    ensures MemoriesDone(t, refs, [], StepsDone(t, [], []))
  {
  }

  /** Writing the memories cannot fail, and its effect is the one MemoriesDone describes. */
  lemma {:induction false} MemoriesCommitted(t: Tables, refs: map<string, EntityRef>, edges: map<string, EdgePlan>,
      steps: seq<Step>)
    requires t.Valid() && StepsReady(t, refs, steps)
    ensures var r := ExecuteSteps(t, refs, edges, steps);
            r.Ok? && r.value.tables.Valid() && MemoriesDone(t, refs, steps, r.value)
    decreases |steps|
  {
    hide *;
    RowsKeyed(t);
    if steps == [] {
      NoStepsDone(t, refs);
      ExecuteNone(t, refs, edges);
      assert steps == [];
    } else {
      var n := |steps| - 1;
      var s := steps[n];
      ReadySplit(t, refs, steps);
      MemoriesCommitted(t, refs, edges, steps[..n]);
      var done := ExecuteSteps(t, refs, edges, steps[..n]).value;
      assert steps == steps[..n] + [s];
      ExecuteSnoc(t, refs, edges, steps);
      match s.decision.action {
        case CreateAction => CreateStep(t, refs, edges, steps[..n], done, s);
        case UpdateAction => UpdateStep(t, refs, edges, steps[..n], done, s);
        case MergeAction => QuietStep(t, refs, edges, steps[..n], done, s);
        case NoOpAction => QuietStep(t, refs, edges, steps[..n], done, s);
      }
    }
  }

  lemma ExecuteNone(t: Tables, refs: map<string, EntityRef>, edges: map<string, EdgePlan>)
    ensures ExecuteSteps(t, refs, edges, []) == Ok(StepsDone(t, [], []))
  {
  }

  lemma ExecuteSnoc(t: Tables, refs: map<string, EntityRef>, edges: map<string, EdgePlan>, steps: seq<Step>)
    requires steps != [] && ExecuteSteps(t, refs, edges, steps[..|steps| - 1]).Ok?
    ensures ExecuteSteps(t, refs, edges, steps)
            == ExecuteOne(refs, edges, ExecuteSteps(t, refs, edges, steps[..|steps| - 1]).value, steps[|steps| - 1])
  {
  }

  lemma ReadySplit(t: Tables, refs: map<string, EntityRef>, steps: seq<Step>)
    requires StepsReady(t, refs, steps) && steps != []
    ensures StepsReady(t, refs, steps[..|steps| - 1]) && StepReady(t, refs, steps[|steps| - 1])
  {
    hide StepReady;
  }
}
