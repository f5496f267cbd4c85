/** An ingest over the AGE store: the commit is one transaction of writes, and each audit statement is a
    transaction of its own. */
module AgeIngest {
  import opened Types
  import opened Tables
  import opened Planner
  import opened PlanProperties
  import opened Commit
  import opened KeyOrder
  import opened Ingest
  import opened IngestProperties
  import opened AgeGraph
  import opened AgeAgreement

  // ---- writes on the tables alone ----

  lemma {:induction false} WriteTablesAppend(t: Tables, a: seq<Write>, b: seq<Write>)
    requires WriteTables(t, a).Ok?
    ensures WriteTables(t, a + b) == WriteTables(WriteTables(t, a).value, b)
    decreases |b|
  {
    hide TablesOf;
    if b == [] {
      assert a + b == a;
    } else {
      var n := |b| - 1;
      WriteTablesAppend(t, a, b[..n]);
      assert (a + b)[..|a + b| - 1] == a + b[..n];
    }
  }

  lemma WriteTablesOne(t: Tables, a: seq<Write>, w: Write)
    requires WriteTables(t, a).Ok?
    ensures WriteTables(t, a + [w]) == TablesOf(WriteTables(t, a).value, w)
  {
    hide TablesOf;
    assert (a + [w])[..|a|] == a;
  }

  // ---- the writes of a commit ----

  function EntityWrite(done: EntitiesDone, key: string): seq<Write>
    requires key in done.refs
  {
    if done.refs[key].existing.None? then [CreateEntityW(done.refs[key].create)] else []
  }

  function EntityWrites(t: Tables, refs: map<string, EntityRef>, keys: seq<string>): seq<Write>
    requires forall k :: k in keys ==> k in refs
  {
    if keys == [] then []
    else
      var n := |keys| - 1;
      assert forall k :: k in keys[..n] ==> k in keys;
      EntityWrites(t, refs, keys[..n])
      + match CreateEntities(t, refs, keys[..n]) case Ok(done) => EntityWrite(done, keys[n]) case Err(_) => []
  }

  function EdgeWrite(refs: map<string, EntityRef>, done: EdgesDone, key: string): seq<Write>
    requires key in done.edges
  {
    var e := done.edges[key];
    if !Commit.Resolved(refs, e.fromKey) || !Commit.Resolved(refs, e.toKey) then []
    else
      var p := EdgeParams(refs, e);
      if RelationshipExists(done.tables, p.from, p.to, p.kind) then [] else [CreateRelationshipW(p)]
  }

  function EdgeWrites(t: Tables, refs: map<string, EntityRef>, edges: map<string, EdgePlan>,
      keys: seq<string>): seq<Write>
    requires forall k :: k in keys ==> k in edges
  {
    if keys == [] then []
    else
      var n := |keys| - 1;
      assert forall k :: k in keys[..n] ==> k in keys;
      EdgeWrites(t, refs, edges, keys[..n])
      + match CreateEdges(t, refs, edges, keys[..n]) case Ok(done) => EdgeWrite(refs, done, keys[n]) case Err(_) => []
  }

  function MemoryWrite(refs: map<string, EntityRef>, s: Step): seq<Write> {
    if !Commit.Resolved(refs, s.subjectKey) then []
    else
      match s.decision.action
      case CreateAction => [CreateMemoryW(NewMemoryParams(ResolvedId(refs, s.subjectKey), s.candidate))]
      case UpdateAction =>
        if s.decision.target.None? then [] else [UpdateMemoryW(s.decision.target.value, UpdatePatch(s.candidate))]
      case _ => []
  }

  function MemoryWrites(refs: map<string, EntityRef>, steps: seq<Step>): seq<Write> {
    if steps == [] then []
    else MemoryWrites(refs, steps[..|steps| - 1]) + MemoryWrite(refs, steps[|steps| - 1])
  }

  /** Entities, then edges, then memories. */
  function CommitWrites(t: Tables, plan: Plan, entityKeys: seq<string>, edgeKeys: seq<string>): seq<Write>
    requires forall k :: k in entityKeys ==> k in plan.refs
    requires forall k :: k in edgeKeys ==> k in plan.edges
  {
    EntityWrites(t, plan.refs, entityKeys)
    + match CreateEntities(t, plan.refs, entityKeys)
      case Ok(e) => EdgeWrites(e.tables, e.refs, plan.edges, edgeKeys) + MemoryWrites(e.refs, plan.steps)
      case Err(_) => []
  }

  lemma OneEntityWritten(t: Tables, a: seq<Write>, done: EntitiesDone, key: string)
    requires WriteTables(t, a) == Ok(done.tables) && key in done.refs && CreateOneEntity(done, key).Ok?
    ensures WriteTables(t, a + EntityWrite(done, key)) == Ok(CreateOneEntity(done, key).value.tables)
  {
    hide CreateEntity, WriteTables;
    if done.refs[key].existing.None? {
      WriteTablesOne(t, a, CreateEntityW(done.refs[key].create));
    } else {
      assert a + [] == a;
    }
  }

  lemma {:induction false} EntitiesWritten(t: Tables, refs: map<string, EntityRef>, keys: seq<string>)
    requires (forall k :: k in keys ==> k in refs) && CreateEntities(t, refs, keys).Ok?
    ensures WriteTables(t, EntityWrites(t, refs, keys)) == Ok(CreateEntities(t, refs, keys).value.tables)
    decreases |keys|
  {
    hide CreateOneEntity, EntityWrite;
    if keys != [] {
      var n := |keys| - 1;
      EntitiesWritten(t, refs, keys[..n]);
      OneEntityWritten(t, EntityWrites(t, refs, keys[..n]), CreateEntities(t, refs, keys[..n]).value, keys[n]);
    }
  }

  lemma OneEdgeWritten(t: Tables, a: seq<Write>, refs: map<string, EntityRef>, done: EdgesDone, key: string)
    requires WriteTables(t, a) == Ok(done.tables) && key in done.edges && CreateOneEdge(refs, done, key).Ok?
    ensures WriteTables(t, a + EdgeWrite(refs, done, key)) == Ok(CreateOneEdge(refs, done, key).value.tables)
  {
    hide CreateRelationship, RelationshipExists, WriteTables;
    assert a + [] == a;
    var p := EdgeParams(refs, done.edges[key]);
    if !RelationshipExists(done.tables, p.from, p.to, p.kind) {
      WriteTablesOne(t, a, CreateRelationshipW(p));
    }
  }

  lemma {:induction false} EdgesWritten(t: Tables, refs: map<string, EntityRef>, edges: map<string, EdgePlan>,
      keys: seq<string>)
    requires (forall k :: k in keys ==> k in edges) && CreateEdges(t, refs, edges, keys).Ok?
    ensures WriteTables(t, EdgeWrites(t, refs, edges, keys)) == Ok(CreateEdges(t, refs, edges, keys).value.tables)
    decreases |keys|
  {
    hide CreateOneEdge, EdgeWrite;
    if keys != [] {
      var n := |keys| - 1;
      EdgesWritten(t, refs, edges, keys[..n]);
      OneEdgeWritten(t, EdgeWrites(t, refs, edges, keys[..n]), refs, CreateEdges(t, refs, edges, keys[..n]).value,
          keys[n]);
    }
  }

  lemma OneMemoryWritten(t: Tables, a: seq<Write>, refs: map<string, EntityRef>, edges: map<string, EdgePlan>,
                         done: StepsDone, s: Step)
    requires WriteTables(t, a) == Ok(done.tables) && ExecuteOne(refs, edges, done, s).Ok?
    ensures WriteTables(t, a + MemoryWrite(refs, s)) == Ok(ExecuteOne(refs, edges, done, s).value.tables)
  {
    hide CreateMemory, UpdateMemory, WriteTables, FinishedStep;
    assert a + [] == a;
    if MemoryWrite(refs, s) != [] {
      WriteTablesOne(t, a, MemoryWrite(refs, s)[0]);
    }
  }

  lemma {:induction false} MemoriesWritten(t: Tables, refs: map<string, EntityRef>, edges: map<string, EdgePlan>,
      steps: seq<Step>)
    requires ExecuteSteps(t, refs, edges, steps).Ok?
    ensures WriteTables(t, MemoryWrites(refs, steps)) == Ok(ExecuteSteps(t, refs, edges, steps).value.tables)
    decreases |steps|
  {
    hide ExecuteOne, MemoryWrite;
    if steps != [] {
      var n := |steps| - 1;
      MemoriesWritten(t, refs, edges, steps[..n]);
      OneMemoryWritten(t, MemoryWrites(refs, steps[..n]), refs, edges,
          ExecuteSteps(t, refs, edges, steps[..n]).value, steps[n]);
    }
  }

  /** Performing the writes of a commit one after another is the commit. */
  lemma CommitWritten(t: Tables, plan: Plan, entityKeys: seq<string>, edgeKeys: seq<string>)
    requires (forall k :: k in entityKeys ==> k in plan.refs) && forall k :: k in edgeKeys ==> k in plan.edges
    requires CommitPlan(t, plan, entityKeys, edgeKeys).Ok?
    ensures WriteTables(t, CommitWrites(t, plan, entityKeys, edgeKeys))
            == Ok(CommitPlan(t, plan, entityKeys, edgeKeys).value.tables)
  {
    hide CreateEntities, CreateEdges, ExecuteSteps, WriteTables, EntityWrites, EdgeWrites, MemoryWrites;
    var e := CreateEntities(t, plan.refs, entityKeys).value;
    var r := CreateEdges(e.tables, e.refs, plan.edges, edgeKeys).value;
    EntitiesWritten(t, plan.refs, entityKeys);
    EdgesWritten(e.tables, e.refs, plan.edges, edgeKeys);
    MemoriesWritten(r.tables, e.refs, r.edges, plan.steps);
    var a, b, c := EntityWrites(t, plan.refs, entityKeys), EdgeWrites(e.tables, e.refs, plan.edges, edgeKeys),
        MemoryWrites(e.refs, plan.steps);
    WriteTablesAppend(t, a, b + c);
    WriteTablesAppend(e.tables, b, c);
  }

  // ---- the transactions of a request ----

  /** One transaction for each committed row, rolled back when its statement fails. */
  function BackfillTxs(sourceId: Id, rows: seq<Memory>, fails: seq<bool>): seq<Transaction> {
    if rows == [] then []
    else
      var n := |rows| - 1;
      BackfillTxs(sourceId, rows[..n], fails)
      + [Transaction([UpdateMemoryW(rows[n].id, SourcePatch(sourceId))], FailsAt(fails, n + 1))]
  }

  /** The record, then, if there is one, a link for each committed row. */
  function AuditTxs(t: Tables, req: Request, subjectId: Option<Id>, steps: seq<Step>, rows: seq<Memory>,
      fails: seq<bool>)
      : seq<Transaction>
  {
    [Transaction([CreateIngestSourceW(req.rawText, subjectId, req.model, Actions(steps))], FailsAt(fails, 0))]
    + match CreateIngestSource(t, req.rawText, subjectId, req.model, Actions(steps))
      case Ok(w) => if FailsAt(fails, 0) then [] else BackfillTxs(w.row.id, rows, fails)
      case Err(_) => []
  }

  /** The transactions of a plan that is committed. */
  function PlanTxs(t: Tables, plan: Plan, req: Request, subjectId: Option<Id>, faults: Faults): seq<Transaction> {
    SortedKeysList(plan.refs);
    SortedKeysList(plan.edges);
    var eks, rks := SortedKeys(plan.refs.Keys), SortedKeys(plan.edges.Keys);
    [Transaction(CommitWrites(t, plan, eks, rks), faults.commitFails)]
    + match CommitPlan(t, plan, eks, rks)
      case Ok(done) =>
        if faults.commitFails then []
        else AuditTxs(done.tables, req, subjectId, done.plan.steps, done.memories, faults.auditFails)
      case Err(_) => []
  }

  /** What a request does to a store, as a history of transactions: the commit, then the audit. */
  function IngestTxs(cfg: Config, t: Tables, req: Request, extraction: Extraction, faults: Faults): seq<Transaction>
    requires t.Valid()
  {
    match PlanRequest(cfg, t, req, extraction, faults)
    case Err(_) => []
    case Ok(plan) =>
      if !Commits(extraction, req) then []
      else PlanTxs(t, plan, req, SubjectId(RequestSubject(cfg, t, req)), faults)
  }

  /** A transaction of one write over an agreeing store. */
  lemma OneWriteTx(s: Dual, w: Write, aborted: bool)
    requires s.tables.Valid() && Agrees(s.tables, s.graph)
    ensures var s' := RunTransaction(s, Transaction([w], aborted));
            && s'.tables == (if aborted || TablesOf(s.tables, w).Err? then s.tables else TablesOf(s.tables, w).value)
            && s'.tables.Valid() && Agrees(s'.tables, s'.graph)
  {
    hide Agrees, TablesOf, WriteBoth;
    assert [w][..0] == [];
    assert WriteAll(s, []) == Ok(s);
    assert WriteAll(s, [w]) == WriteBoth(s, w);
    hide WriteAll;
    WriteAgrees(s, w);
  }

  lemma {:induction false} HistoryAppend(s: Dual, a: seq<Transaction>, b: seq<Transaction>)
    ensures RunHistory(s, a + b) == RunHistory(RunHistory(s, a), b)
    decreases |b|
  {
    hide RunTransaction;
    if b == [] {
      assert a + b == a;
    } else {
      var n := |b| - 1;
      HistoryAppend(s, a, b[..n]);
      assert (a + b)[..|a + b| - 1] == a + b[..n];
    }
  }

  lemma HistoryOne(s: Dual, tx: Transaction)
    ensures RunHistory(s, [tx]) == RunTransaction(s, tx)
  {
    hide RunTransaction;
    assert [tx][..0] == [];
    assert RunHistory(s, []) == s;
  }

  lemma {:induction false} BackfillHistory(s: Dual, sourceId: Id, rows: seq<Memory>, fails: seq<bool>)
    requires s.tables.Valid() && Agrees(s.tables, s.graph)
    ensures var s' := RunHistory(s, BackfillTxs(sourceId, rows, fails));
            && s'.tables == Backfill(s.tables, sourceId, rows, fails).tables
            && s'.tables.Valid() && Agrees(s'.tables, s'.graph)
    decreases |rows|
  {
    hide Agrees, RunTransaction, RunHistory, UpdateMemory, SourcePatch, FailsAt;
    if rows == [] {
      NoHistory(s);
    } else {
      var n := |rows| - 1;
      BackfillHistory(s, sourceId, rows[..n], fails);
      var before := RunHistory(s, BackfillTxs(sourceId, rows[..n], fails));
      var w := UpdateMemoryW(rows[n].id, SourcePatch(sourceId));
      HistoryAppend(s, BackfillTxs(sourceId, rows[..n], fails), [Transaction([w], FailsAt(fails, n + 1))]);
      HistoryOne(before, Transaction([w], FailsAt(fails, n + 1)));
      OneWriteTx(before, w, FailsAt(fails, n + 1));
    }
  }

  lemma NoHistory(s: Dual)
    ensures RunHistory(s, []) == s
  {
  }

  lemma AuditHistory(s: Dual, req: Request, subjectId: Option<Id>, steps: seq<Step>, rows: seq<Memory>,
      fails: seq<bool>)
    requires s.tables.Valid() && Agrees(s.tables, s.graph)
    ensures var s' := RunHistory(s, AuditTxs(s.tables, req, subjectId, steps, rows, fails));
            && s'.tables == AuditIngest(s.tables, req, subjectId, steps, rows, fails).tables
            && s'.tables.Valid() && Agrees(s'.tables, s'.graph)
  {
    hide Agrees, RunTransaction, RunHistory, CreateIngestSource, Actions, FailsAt, Backfill, BackfillTxs;
    var w := CreateIngestSourceW(req.rawText, subjectId, req.model, Actions(steps));
    var first := [Transaction([w], FailsAt(fails, 0))];
    HistoryOne(s, first[0]);
    OneWriteTx(s, w, FailsAt(fails, 0));
    var created := CreateIngestSource(s.tables, req.rawText, subjectId, req.model, Actions(steps));
    assert first + [] == first;
    if created.Ok? && !FailsAt(fails, 0) {
      HistoryAppend(s, first, BackfillTxs(created.value.row.id, rows, fails));
      BackfillHistory(RunHistory(s, first), created.value.row.id, rows, fails);
    }
  }

  lemma CommitHistory(s: Dual, writes: seq<Write>, aborted: bool)
    requires s.tables.Valid() && Agrees(s.tables, s.graph) && WriteTables(s.tables, writes).Ok?
    ensures var s' := RunHistory(s, [Transaction(writes, aborted)]);
            && s'.tables == (if aborted then s.tables else WriteTables(s.tables, writes).value)
            && s'.tables.Valid() && Agrees(s'.tables, s'.graph)
  {
    hide Agrees, WriteAll, WriteTables;
    HistoryOne(s, Transaction(writes, aborted));
    hide RunHistory;
    WritesAgree(s, writes);
  }

  /** An ingest over the AGE store leaves the tables of RunIngest and a graph that agrees with them, whether its
      transaction commits or not and whichever audit statements fail. */
  lemma IngestOverAge(cfg: Config, s: Dual, req: Request, extraction: Extraction, faults: Faults)
    requires ValidConfig(cfg) && s.tables.Valid() && Agrees(s.tables, s.graph)
    ensures var s' := RunHistory(s, IngestTxs(cfg, s.tables, req, extraction, faults));
            && s'.tables == RunIngest(cfg, s.tables, req, extraction, faults).tables
            && s'.tables.Valid() && Agrees(s'.tables, s'.graph)
  {
    hide *;
    RunCases(cfg, s.tables, req, extraction, faults);
    TxsCases(cfg, s.tables, req, extraction, faults);
    NoHistory(s);
    if PlanRequest(cfg, s.tables, req, extraction, faults).Ok? && Commits(extraction, req) {
      PlannedOk(cfg, s.tables, req, extraction, faults);
      var plan := PlanRequest(cfg, s.tables, req, extraction, faults).value;
      PlanOverAge(Env(cfg.u, s.tables, cfg.threshold, faults), s, plan, req,
          SubjectId(RequestSubject(cfg, s.tables, req)));
    }
  }

  lemma TxsCases(cfg: Config, t: Tables, req: Request, extraction: Extraction, faults: Faults)
    requires t.Valid()
    ensures var p := PlanRequest(cfg, t, req, extraction, faults);
            IngestTxs(cfg, t, req, extraction, faults)
            == if p.Ok? && Commits(extraction, req)
                then PlanTxs(t, p.value, req, SubjectId(RequestSubject(cfg, t, req)), faults)
               else []
  {
    hide PlanRequest, RequestSubject, CommitPlan, AuditTxs, CommitWrites;
  }

  lemma PlanOverAge(env: Env, s: Dual, plan: Plan, req: Request, subjectId: Option<Id>)
    requires env.Valid() && env.tables == s.tables && PlanOk(env, plan) && Agrees(s.tables, s.graph)
    ensures var s' := RunHistory(s, PlanTxs(s.tables, plan, req, subjectId, env.faults));
            && s'.tables == CommitAndAudit(s.tables, req, subjectId, plan, env.faults).tables
            && s'.tables.Valid() && Agrees(s'.tables, s'.graph)
  {
    hide *;
    EnvTables(env);
    var eks, rks := SortedKeys(plan.refs.Keys), SortedKeys(plan.edges.Keys);
    SortedKeysList(plan.refs);
    SortedKeysList(plan.edges);
    ListsInside(eks, plan.refs);
    ListsInside(rks, plan.edges);
    var done := CommitAuditedHolds(env, plan, req, subjectId);
    var writes := CommitWrites(s.tables, plan, eks, rks);
    var first := [Transaction(writes, env.faults.commitFails)];
    CommitWritten(s.tables, plan, eks, rks);
    CommitHistory(s, writes, env.faults.commitFails);
    PlanTxsCases(s.tables, plan, req, subjectId, env.faults, done);
    OutcomeCases(s.tables, plan, req, subjectId, env.faults, done);
    if !env.faults.commitFails {
      var audit := AuditTxs(done.tables, req, subjectId, done.plan.steps, done.memories, env.faults.auditFails);
      AuditHistory(RunHistory(s, first), req, subjectId, done.plan.steps, done.memories, env.faults.auditFails);
      HistoryAppend(s, first, audit);
    } else {
      assert first + [] == first;
    }
  }

  lemma EnvTables(env: Env)
    requires env.Valid()
    ensures env.tables.Valid()
  {
  }

  lemma ListsInside<T>(keys: seq<string>, table: map<string, T>)
    requires Lists(keys, table)
    ensures forall k :: k in keys ==> k in table
  {
  }

  lemma PlanTxsCases(t: Tables, plan: Plan, req: Request, subjectId: Option<Id>, faults: Faults, done: Committed)
    requires Lists(SortedKeys(plan.refs.Keys), plan.refs) && Lists(SortedKeys(plan.edges.Keys), plan.edges)
    requires CommitPlan(t, plan, SortedKeys(plan.refs.Keys), SortedKeys(plan.edges.Keys)) == Ok(done)
    ensures PlanTxs(t, plan, req, subjectId, faults)
            == [Transaction(CommitWrites(t, plan, SortedKeys(plan.refs.Keys), SortedKeys(plan.edges.Keys)),
                faults.commitFails)]
               + if faults.commitFails then []
                 else AuditTxs(done.tables, req, subjectId, done.plan.steps, done.memories, faults.auditFails)
  {
    hide CommitPlan, AuditTxs, CommitWrites;
  }

  lemma OutcomeCases(t: Tables, plan: Plan, req: Request, subjectId: Option<Id>, faults: Faults, done: Committed)
    requires Lists(SortedKeys(plan.refs.Keys), plan.refs) && Lists(SortedKeys(plan.edges.Keys), plan.edges)
    requires CommitPlan(t, plan, SortedKeys(plan.refs.Keys), SortedKeys(plan.edges.Keys)) == Ok(done)
    ensures CommitAndAudit(t, req, subjectId, plan, faults).tables
            == if faults.commitFails then t
               else AuditIngest(done.tables, req, subjectId, done.plan.steps, done.memories, faults.auditFails).tables
  {
    hide CommitPlan, AuditIngest, MemoryCounters;
  }
}
