/** Committing a filled-in plan through a database session, statement by statement.  Any statement may fail;
    a phase that succeeds has done exactly what the commit prescribes. */
module Committing {
  import opened Types
  import opened Tables
  import opened Planner
  import opened Commit
  import opened KeyOrder
  import opened Connection
  import opened Planning

  /** An error is the prescribed one, or a failure of the driver in a session that has them. */
  ghost predicate Fails<T>(prescribed: Result<T>, healthy: bool, error: Error) {
    prescribed == Err(error) || (!healthy && error == DRIVER_FAILURE)
  }

  /** A phase succeeded exactly as prescribed, or failed as prescribed or in the driver. */
  ghost predicate Follows<T>(prescribed: Result<T>, healthy: bool, r: Result<()>, done: T) {
    match r case Ok(_) => prescribed == Ok(done) case Err(error) => Fails(prescribed, healthy, error)
  }

  method CreatePlannedEntities(db: Database, plan: IngestPlan) returns (r: Result<()>)
    modifies db`tables, db`faults, plan`refs
    ensures Follows(CreateEntities(old(db.tables), old(plan.refs), SortedKeys(old(plan.refs).Keys)),
        old(db.faults) == [], r,
                    EntitiesDone(db.tables, plan.refs))
    ensures old(db.faults) == [] ==> db.faults == []
  {
    hide *;
    var keys := SortedKeys(plan.refs.Keys);
    var i := 0;
    NoEntities(db.tables, plan.refs, keys);
    while i < |keys|
      invariant 0 <= i <= |keys|
      invariant CreateEntitiesUpTo(old(db.tables), old(plan.refs), keys, i) == Ok(EntitiesDone(db.tables, plan.refs))
      invariant old(db.faults) == [] ==> db.faults == []
    {
      EntitiesSnoc(old(db.tables), old(plan.refs), keys, i, EntitiesDone(db.tables, plan.refs));
      var ref := plan.refs[keys[i]];
      if ref.existing.None? {
        ghost var w := CreateEntity(db.tables, ref.create);
        AttemptedCases(db.faults, db.tables, w);
        var entity := db.CreateEntity(ref.create);
        if entity.Err? {
          if w == Err(entity.error) {
            EntitiesFail(old(db.tables), old(plan.refs), keys, i + 1);
          }
          EntitiesFollow(old(db.tables), old(plan.refs), keys, old(db.faults) == [], Err(entity.error),
              EntitiesDone(db.tables, plan.refs));
          return Err(entity.error);
        }
        plan.refs := plan.refs[keys[i] := ref.(createdId := Some(entity.value.id), existing := Some(entity.value))];
      }
      i := i + 1;
    }
    r := Ok(());
    EntitiesFollow(old(db.tables), old(plan.refs), keys, old(db.faults) == [], r, EntitiesDone(db.tables, plan.refs));
  }

  ghost function CreateEntitiesUpTo(t: Tables, refs: map<string, EntityRef>, keys: seq<string>,
      i: nat): Result<EntitiesDone>
    requires (forall k :: k in keys ==> k in refs) && i <= |keys|
  {
    CreateEntities(t, refs, keys[..i])
  }

  lemma NoEntities(t: Tables, refs: map<string, EntityRef>, keys: seq<string>)
    requires keys == SortedKeys(refs.Keys)
    ensures forall k :: k in keys ==> k in refs
    ensures CreateEntitiesUpTo(t, refs, keys, 0) == Ok(EntitiesDone(t, refs))
  {
  }

  lemma EntitiesSnoc(t: Tables, refs: map<string, EntityRef>, keys: seq<string>, i: nat, done: EntitiesDone)
    requires (forall k :: k in keys ==> k in refs) && i < |keys| && CreateEntitiesUpTo(t, refs, keys, i) == Ok(done)
    ensures keys[i] in done.refs
    ensures CreateEntitiesUpTo(t, refs, keys, i + 1)
            == var ref := done.refs[keys[i]];
               if ref.existing.Some? then Ok(done)
               else match CreateEntity(done.tables, ref.create)
                    case Err(error) => Err(error)
                    case Ok(w) => Ok(EntitiesDone(w.tables,
                        done.refs[keys[i] := ref.(existing := Some(w.row), createdId := Some(w.row.id))]))
  {
    hide CreateEntity;
    assert keys[..i + 1][..i] == keys[..i];
  }

  lemma {:induction false} EntitiesFail(t: Tables, refs: map<string, EntityRef>, keys: seq<string>, i: nat)
    requires (forall k :: k in keys ==> k in refs) && i <= |keys| && CreateEntitiesUpTo(t, refs, keys, i).Err?
    ensures CreateEntities(t, refs, keys) == CreateEntitiesUpTo(t, refs, keys, i)
    decreases |keys|
  {
    hide CreateOneEntity;
    if i == |keys| {
      assert keys[..i] == keys;
    } else {
      var n := |keys| - 1;
      assert keys[..n][..i] == keys[..i];
      assert forall k :: k in keys[..n] ==> k in keys;
      EntitiesFail(t, refs, keys[..n], i);
    }
  }

  lemma EntitiesFollow(t: Tables, refs: map<string, EntityRef>, keys: seq<string>, healthy: bool, r: Result<()>,
      done: EntitiesDone)
    requires keys == SortedKeys(refs.Keys) && forall k :: k in keys ==> k in refs
    requires r.Ok? ==> CreateEntitiesUpTo(t, refs, keys, |keys|) == Ok(done)
    requires r.Err? ==> CreateEntities(t, refs, keys) == Err(r.error) || (!healthy && r.error == DRIVER_FAILURE)
    ensures Follows(CreateEntities(t, refs, keys), healthy, r, done)
  {
    hide CreateEntities;
    assert keys[..|keys|] == keys;
  }

  // ---- relationships ----

  method CreatePlannedRelationships(db: Database, plan: IngestPlan) returns (r: Result<()>)
    modifies db`tables, db`faults, plan`edges
    ensures Follows(CreateEdges(old(db.tables), plan.refs, old(plan.edges), SortedKeys(old(plan.edges).Keys)),
        old(db.faults) == [], r,
                    EdgesDone(db.tables, plan.edges))
    ensures old(db.faults) == [] ==> db.faults == []
  {
    hide *;
    var keys := SortedKeys(plan.edges.Keys);
    var i := 0;
    NoEdges(db.tables, plan.refs, plan.edges, keys);
    while i < |keys|
      invariant 0 <= i <= |keys|
      invariant CreateEdgesUpTo(old(db.tables), plan.refs, old(plan.edges), keys, i)
          == Ok(EdgesDone(db.tables, plan.edges))
      invariant old(db.faults) == [] ==> db.faults == []
    {
      EdgesSnoc(old(db.tables), plan.refs, old(plan.edges), keys, i, EdgesDone(db.tables, plan.edges));
      var relationship := plan.edges[keys[i]];
      ghost var step := EdgeStep(db.tables, plan.refs, relationship);
      FailsUnfold(step);
      var created := CreatePlannedRelationship(db, plan.refs, relationship);
      if created.Err? {
        if step == Err(created.error) {
          EdgesFail(old(db.tables), plan.refs, old(plan.edges), keys, i + 1);
        }
        EdgesFollow(old(db.tables), plan.refs, old(plan.edges), keys, old(db.faults) == [], Err(created.error),
            EdgesDone(db.tables, plan.edges));
        return Err(created.error);
      }
      if created.value.Some? {
        plan.edges := plan.edges[keys[i] := relationship.(createdId := created.value)];
      }
      i := i + 1;
    }
    r := Ok(());
    EdgesFollow(old(db.tables), plan.refs, old(plan.edges), keys, old(db.faults) == [], r,
        EdgesDone(db.tables, plan.edges));
  }

  /** One planned edge: the id of the new row, or none when the edge turned out to be stored. */
  method CreatePlannedRelationship(db: Database, refs: map<string, EntityRef>, e: EdgePlan)
      returns (r: Result<Option<Id>>)
    modifies db`tables, db`faults
    ensures old(db.faults) == [] ==> db.faults == []
    ensures r.Ok? ==> EdgeStep(old(db.tables), refs, e) == Ok((db.tables, r.value))
    ensures r.Err? ==> Fails(EdgeStep(old(db.tables), refs, e), old(db.faults) == [], r.error)
  {
    hide CreateRelationship, RelationshipExists;
    if !Commit.Resolved(refs, e.fromKey) || !Commit.Resolved(refs, e.toKey) {
      return Err(UNRESOLVED_EDGE);
    }
    var from, to := refs[e.fromKey].existing.value, refs[e.toKey].existing.value;
    var exists_ :- db.RelationshipExists(from.id, to.id, e.kind);
    if exists_ {
      return Ok(None);
    }
    var created :- db.CreateRelationship(CreateRelationshipParams(from.id, to.id, e.kind, None, CREATED_VIA_INGEST));
    r := Ok(Some(created.id));
  }

  ghost function EdgeStep(t: Tables, refs: map<string, EntityRef>, e: EdgePlan): Result<(Tables, Option<Id>)> {
    if !Commit.Resolved(refs, e.fromKey) || !Commit.Resolved(refs, e.toKey) then Err(UNRESOLVED_EDGE)
    else
      var p := EdgeParams(refs, e);
      if RelationshipExists(t, p.from, p.to, p.kind) then Ok((t, None))
      else match CreateRelationship(t, p) case Err(error) => Err(error) case Ok(w) => Ok((w.tables, Some(w.row.id)))
  }

  ghost function CreateEdgesUpTo(t: Tables, refs: map<string, EntityRef>, edges: map<string, EdgePlan>,
      keys: seq<string>, i: nat)
      : Result<EdgesDone>
    requires (forall k :: k in keys ==> k in edges) && i <= |keys|
  {
    CreateEdges(t, refs, edges, keys[..i])
  }

  lemma NoEdges(t: Tables, refs: map<string, EntityRef>, edges: map<string, EdgePlan>, keys: seq<string>)
    requires keys == SortedKeys(edges.Keys)
    ensures forall k :: k in keys ==> k in edges
    ensures CreateEdgesUpTo(t, refs, edges, keys, 0) == Ok(EdgesDone(t, edges))
  {
  }

  lemma EdgesSnoc(t: Tables, refs: map<string, EntityRef>, edges: map<string, EdgePlan>, keys: seq<string>, i: nat,
      done: EdgesDone)
    requires (forall k :: k in keys ==> k in edges) && i < |keys|
        && CreateEdgesUpTo(t, refs, edges, keys, i) == Ok(done)
    ensures keys[i] in done.edges
    ensures CreateEdgesUpTo(t, refs, edges, keys, i + 1)
            == var e := done.edges[keys[i]];
               match EdgeStep(done.tables, refs, e)
               case Err(error) => Err(error)
               case Ok(step) => Ok(EdgesDone(step.0,
                   if step.1.Some? then done.edges[keys[i] := e.(createdId := step.1)] else done.edges))
  {
    hide CreateRelationship, RelationshipExists;
    assert keys[..i + 1][..i] == keys[..i];
  }

  lemma {:induction false} EdgesFail(t: Tables, refs: map<string, EntityRef>, edges: map<string, EdgePlan>,
      keys: seq<string>, i: nat)
    requires (forall k :: k in keys ==> k in edges) && i <= |keys| && CreateEdgesUpTo(t, refs, edges, keys, i).Err?
    ensures CreateEdges(t, refs, edges, keys) == CreateEdgesUpTo(t, refs, edges, keys, i)
    decreases |keys|
  {
    hide CreateOneEdge;
    if i == |keys| {
      assert keys[..i] == keys;
    } else {
      var n := |keys| - 1;
      assert keys[..n][..i] == keys[..i];
      assert forall k :: k in keys[..n] ==> k in keys;
      EdgesFail(t, refs, edges, keys[..n], i);
    }
  }

  lemma EdgesFollow(t: Tables, refs: map<string, EntityRef>, edges: map<string, EdgePlan>, keys: seq<string>,
      healthy: bool, r: Result<()>,
                    done: EdgesDone)
    requires keys == SortedKeys(edges.Keys) && forall k :: k in keys ==> k in edges
    requires r.Ok? ==> CreateEdgesUpTo(t, refs, edges, keys, |keys|) == Ok(done)
    requires r.Err? ==> CreateEdges(t, refs, edges, keys) == Err(r.error) || (!healthy && r.error == DRIVER_FAILURE)
    ensures Follows(CreateEdges(t, refs, edges, keys), healthy, r, done)
  {
    hide CreateEdges;
    assert keys[..|keys|] == keys;
  }

  // ---- memories ----

  /** The memory write of one step. */
  method WriteStep(db: Database, subjectId: Id, s: Step) returns (r: Result<seq<Memory>>)
    modifies db`tables, db`faults
    ensures old(db.faults) == [] ==> db.faults == []
    ensures r.Ok? ==> StepWrite(old(db.tables), subjectId, s) == Ok(Wrote(db.tables, r.value))
    ensures r.Err? ==> Fails(StepWrite(old(db.tables), subjectId, s), old(db.faults) == [], r.error)
  {
    hide CreateMemory, UpdateMemory;
    match s.decision.action
    case CreateAction =>
      var memory :- db.CreateMemory(CreateMemoryParams(subjectId, s.candidate.content, s.candidate.category,
          s.candidate.confidence,
                                                       None, None, CREATED_VIA_INGEST));
      r := Ok([memory]);
    case UpdateAction =>
      if s.decision.target.None? {
        return Err(MISSING_TARGET);
      }
      var memory :- db.UpdateMemory(s.decision.target.value,
                                    MemoryPatch(Some(s.candidate.content), Some(s.candidate.confidence), None, false,
                                                Some(UPDATED_VIA_INGEST), None, false));
      r := Ok([memory]);
    case _ =>
      r := Ok([]);
  }

  /** The entities created under the listed keys, in order. */
  method CollectCreatedIds(refs: map<string, EntityRef>, keys: seq<string>) returns (ids: seq<Id>)
    ensures ids == CreatedIds(refs, keys)
  {
    ids := [];
    var i := 0;
    while i < |keys|
      invariant 0 <= i <= |keys| && ids == CreatedIds(refs, keys[..i])
    {
      assert keys[..i + 1][..i] == keys[..i];
      if keys[i] in refs && refs[keys[i]].createdId.Some? {
        ids := ids + [refs[keys[i]].createdId.value];
      }
      i := i + 1;
    }
    assert keys[..i] == keys;
  }

  /** The edges created from one entity, whatever the order in which the map is walked. */
  method CollectCreatedRelations(edges: map<string, EdgePlan>, fromKey: string) returns (ids: set<Id>)
    ensures ids == CreatedFrom(edges, fromKey)
  {
    ids := {};
    var pending := edges.Keys;
    while pending != {}
      invariant pending <= edges.Keys
      invariant ids == set k | k in edges && k !in pending && edges[k].createdId.Some?
          && edges[k].fromKey == fromKey :: edges[k].createdId.value
      decreases |pending|
    {
      var k :| k in pending;
      pending := pending - {k};
      if edges[k].createdId.Some? && edges[k].fromKey == fromKey {
        ids := ids + {edges[k].createdId.value};
      }
    }
  }

  method ExecutePlannedMemories(db: Database, plan: IngestPlan) returns (r: Result<()>, committed: seq<Memory>)
    modifies db`tables, db`faults, plan`steps
    ensures Follows(ExecuteSteps(old(db.tables), plan.refs, plan.edges, old(plan.steps)), old(db.faults) == [], r,
                    StepsDone(db.tables, plan.steps, committed))
    ensures old(db.faults) == [] ==> db.faults == []
  {
    hide *;
    committed := [];
    var i := 0;
    NoSteps(db.tables, plan.refs, plan.edges, plan.steps);
    while i < |plan.steps|
      invariant 0 <= i <= |plan.steps| == |old(plan.steps)| && plan.steps[i..] == old(plan.steps)[i..]
      invariant ExecuteUpTo(old(db.tables), plan.refs, plan.edges, old(plan.steps), i)
          == Ok(StepsDone(db.tables, plan.steps[..i], committed))
      invariant old(db.faults) == [] ==> db.faults == []
    {
      var step := plan.steps[i];
      assert step == plan.steps[i..][0] == old(plan.steps)[i..][0];
      StepsSnoc(old(db.tables), plan.refs, plan.edges, old(plan.steps), i,
          StepsDone(db.tables, plan.steps[..i], committed));
      ResolvedIs(plan.refs, step.subjectKey);
      if step.subjectKey !in plan.refs || plan.refs[step.subjectKey].existing.None? {
        StepsFail(old(db.tables), plan.refs, plan.edges, old(plan.steps), i + 1);
        StepsFollow(old(db.tables), plan.refs, plan.edges, old(plan.steps), old(db.faults) == [],
            Err(MISSING_SUBJECT), StepsDone(db.tables, plan.steps, committed));
        return Err(MISSING_SUBJECT), committed;
      }
      var subject := plan.refs[step.subjectKey].existing.value;
      ghost var write := StepWrite(db.tables, subject.id, step);
      FailsUnfold(write);
      var rows := WriteStep(db, subject.id, step);
      if rows.Err? {
        if write == Err(rows.error) {
          StepsFail(old(db.tables), plan.refs, plan.edges, old(plan.steps), i + 1);
        }
        StepsFollow(old(db.tables), plan.refs, plan.edges, old(plan.steps), old(db.faults) == [], Err(rows.error),
            StepsDone(db.tables, plan.steps, committed));
        return Err(rows.error), committed;
      }
      var created := CollectCreatedIds(plan.refs, step.relatedKeys + [step.subjectKey]);
      var relations := CollectCreatedRelations(plan.edges, step.subjectKey);
      var finished := step.(subjectId := Some(subject.id),
                            createdEntityIds := step.createdEntityIds + created,
                            createdRelationIds := step.createdRelationIds + relations);
      if step.decision.action == CreateAction && |rows.value| > 0 {
        finished := finished.(createdMemoryId := Some(rows.value[0].id));
      }
      FinishedIs(plan.refs, plan.edges, step, subject.id, rows.value, finished);
      OneStepDone(plan.steps, old(plan.steps), i, finished);
      plan.steps := plan.steps[i := finished];
      committed := committed + rows.value;
      i := i + 1;
    }
    r := Ok(());
    assert plan.steps[..i] == plan.steps;
    StepsFollow(old(db.tables), plan.refs, plan.edges, old(plan.steps), old(db.faults) == [], r,
        StepsDone(db.tables, plan.steps, committed));
  }

  lemma OneStepDone(steps: seq<Step>, planned: seq<Step>, i: nat, finished: Step)
    requires i < |steps| == |planned| && steps[i..] == planned[i..]
    ensures steps[i := finished][..i + 1] == steps[..i] + [finished]
    ensures steps[i := finished][i + 1..] == planned[i + 1..]
  {
    assert steps[i + 1..] == steps[i..][1..] == planned[i..][1..] == planned[i + 1..];
  }

  lemma FinishedIs(refs: map<string, EntityRef>, edges: map<string, EdgePlan>, s: Step, subjectId: Id,
      rows: seq<Memory>, f: Step)
    requires f == s.(subjectId := Some(subjectId),
                     createdEntityIds := s.createdEntityIds + CreatedIds(refs, s.relatedKeys + [s.subjectKey]),
                     createdRelationIds := s.createdRelationIds + CreatedFrom(edges, s.subjectKey),
                     createdMemoryId := if s.decision.action == CreateAction
                         && |rows| > 0 then Some(rows[0].id) else s.createdMemoryId)
    ensures FinishedStep(refs, edges, s, subjectId, rows) == f
  {
  }

  ghost function ExecuteUpTo(t: Tables, refs: map<string, EntityRef>, edges: map<string, EdgePlan>, steps: seq<Step>,
      i: nat): Result<StepsDone>
    requires i <= |steps|
  {
    ExecuteSteps(t, refs, edges, steps[..i])
  }

  lemma NoSteps(t: Tables, refs: map<string, EntityRef>, edges: map<string, EdgePlan>, steps: seq<Step>)
    ensures ExecuteUpTo(t, refs, edges, steps, 0) == Ok(StepsDone(t, steps[..0], []))
  {
  }

  lemma StepsSnoc(t: Tables, refs: map<string, EntityRef>, edges: map<string, EdgePlan>, steps: seq<Step>, i: nat,
      done: StepsDone)
    requires i < |steps| && ExecuteUpTo(t, refs, edges, steps, i) == Ok(done)
    ensures ExecuteUpTo(t, refs, edges, steps, i + 1)
            == var s := steps[i];
               if !Commit.Resolved(refs, s.subjectKey) then Err(MISSING_SUBJECT)
               else
                 var id := ResolvedId(refs, s.subjectKey);
                 match StepWrite(done.tables, id, s)
                 case Err(error) => Err(error)
                 case Ok(w) => Ok(StepsDone(w.tables, done.steps + [FinishedStep(refs, edges, s, id, w.row)],
                     done.committed + w.row))
  {
    hide StepWrite, FinishedStep, ResolvedId;
    assert steps[..i + 1][..i] == steps[..i];
  }

  lemma {:induction false} StepsFail(t: Tables, refs: map<string, EntityRef>, edges: map<string, EdgePlan>,
      steps: seq<Step>, i: nat)
    requires i <= |steps| && ExecuteUpTo(t, refs, edges, steps, i).Err?
    ensures ExecuteSteps(t, refs, edges, steps) == ExecuteUpTo(t, refs, edges, steps, i)
    decreases |steps|
  {
    hide ExecuteOne;
    if i == |steps| {
      assert steps[..i] == steps;
    } else {
      assert steps[..|steps| - 1][..i] == steps[..i];
      StepsFail(t, refs, edges, steps[..|steps| - 1], i);
    }
  }

  lemma StepsFollow(t: Tables, refs: map<string, EntityRef>, edges: map<string, EdgePlan>, steps: seq<Step>,
      healthy: bool, r: Result<()>,
                    done: StepsDone)
    requires r.Ok? ==> ExecuteUpTo(t, refs, edges, steps, |steps|) == Ok(done)
    requires r.Err? ==> ExecuteSteps(t, refs, edges, steps) == Err(r.error) || (!healthy && r.error == DRIVER_FAILURE)
    ensures Follows(ExecuteSteps(t, refs, edges, steps), healthy, r, done)
  {
    hide ExecuteSteps;
    assert steps[..|steps|] == steps;
  }

  lemma AttemptedCases<T>(faults: seq<bool>, t: Tables, w: Result<Wrote<T>>)
    ensures faults == [] ==> Later(faults) == []
    ensures var a := Attempted(faults, t, w);
            && (a.1.Ok? ==> w.Ok? && a == (w.value.tables, Ok(w.value.row)))
            && (a.1.Err? ==> a.0 == t)
            && (a.1.Err? ==> w == Err(a.1.error) || (faults != [] && a.1.error == DRIVER_FAILURE))
  {
  }

  lemma FailsUnfold<T>(prescribed: Result<T>)
    ensures forall healthy, error :: Fails(prescribed, healthy, error) <==>
              prescribed == Err(error) || (!healthy && error == DRIVER_FAILURE)
  {
  }
}
