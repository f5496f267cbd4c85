/** Planning an ingest: every candidate becomes one step, over a table of the entities mentioned and a
    set of edges to create.  Planning reads the store and writes nothing. */
module Planner {
  import opened Types
  import opened Ordering
  import opened Tables
  import opened Text
  import opened Resolution

  // ---- the plan ----

  /** An entity mentioned by a candidate: found in the store, or to be created. */
  datatype EntityRef = EntityRef(key: string, existing: Option<Entity>, create: CreateEntityParams,
      createdId: Option<Id>)

  datatype EdgePlan = EdgePlan(key: string, fromKey: string, toKey: string, kind: string, createdId: Option<Id>)

  datatype Step = Step(
    candidate: Candidate,
    decision: Decision,
    subjectId: Option<Id>,
    subjectKey: string,
    subjectExisting: Option<Entity>,   // as found while planning
    relatedKeys: seq<string>,
    relationshipType: string,
    createdEntityIds: seq<Id>,
    createdMemoryId: Option<Id>,
    createdRelationIds: set<Id>)

  datatype Plan = Plan(steps: seq<Step>, refs: map<string, EntityRef>, edges: map<string, EdgePlan>)

  /** What fails in the driver during one request: reads of the planning, by their arguments; the commit
      transaction, somewhere; statements of the audit, the record first, then one for each committed memory. */
  datatype Faults = Faults(
    findFails: string -> bool,
    existsFails: (Id, Id, string) -> bool,
    listFails: (Id, Category) -> bool,
    commitFails: bool,
    auditFails: seq<bool>)

  /** What planning depends on: the text tables, the store, the threshold and the failing reads. */
  datatype Env = Env(u: Text, tables: Tables, threshold: real, faults: Faults)
  {
    ghost predicate Valid() {
      u.Valid() && tables.Valid() && 0.0 < threshold <= 1.0
    }
  }

  const NO_PARAMS := CreateEntityParams("", NoType, None, map[])
  const CREATED_VIA_INGEST: Metadata := map["created_via" := "ingest"]
  const UPDATED_VIA_INGEST: Metadata := map["updated_via" := "ingest"]

  function EntityKey(u: Text, name: string): string {
    u.Normalized(name)
  }

  function EdgeKey(fromKey: string, toKey: string, kind: string): string {
    fromKey + "->" + toKey + ":" + kind
  }

  // ---- lookups ----

  function NameMatches(u: Text, t: Tables, name: string): set<Id> {
    set i | i in t.entities && u.sqlLower(t.entities[i].name) == u.sqlLower(name)
  }

  lemma EntitiesKeyed(t: Tables, ids: set<Id>)
    requires t.Valid() && ids <= t.entities.Keys
    ensures Keyed(t.entities, OldestFirst, ids)
  {
    RowsKeyed(t);
  }

  /** The oldest entity whose name agrees up to the database's lower(). */
  function FindEntityByName(u: Text, t: Tables, name: string): (r: Result<Entity>)
    requires t.Valid()
    ensures r.Ok? <==> NameMatches(u, t, name) != {}
    ensures r.Ok? ==> r.value.id in NameMatches(u, t, name) && t.entities[r.value.id] == r.value
    ensures r.Ok? ==> forall i :: i in NameMatches(u, t, name) ==>
        Before(OldestFirst(r.value), OldestFirst(t.entities[i]))
    ensures r.Err? ==> r.error.NotFound?
  {
    var ids := NameMatches(u, t, name);
    if ids == {} then Err(NotFound("entity not found"))
    else
      EntitiesKeyed(t, ids);
      var found := Select(t.entities, OldestFirst, ids);
      FirstSelected(t, ids);
      Ok(found[0])
  }

  lemma FirstSelected(t: Tables, ids: set<Id>)
    requires t.Valid() && ids <= t.entities.Keys && ids != {} && Keyed(t.entities, OldestFirst, ids)
    ensures var found := Select(t.entities, OldestFirst, ids);
            && found != [] && found[0].id in ids && t.entities[found[0].id] == found[0]
            && forall i :: i in ids ==> Before(OldestFirst(found[0]), OldestFirst(t.entities[i]))
  {
    var found := Select(t.entities, OldestFirst, ids);
    assert |found| == |ids|;
    assert found[0] in found;
    SelectSorted(t.entities, OldestFirst, ids);
    forall i | i in ids
      ensures Before(OldestFirst(found[0]), OldestFirst(t.entities[i]))
    {
      assert t.entities[i] in found;
      var k :| 0 <= k < |found| && found[k] == t.entities[i];
    }
  }

  /** Two lookups of one name agree, and a found name has the key it was looked up under. */
  lemma FoundKey(u: Text, t: Tables, name: string)
    requires u.Valid() && t.Valid() && FindEntityByName(u, t, name).Ok?
    ensures EntityKey(u, FindEntityByName(u, t, name).value.name) == EntityKey(u, name)
  {
  }

  // ---- resolving names to references ----

  function CreateParams(u: Text, c: CandidateEntity): CreateEntityParams {
    CreateEntityParams(u.Trim(c.name), if c.kind.NoType? then Concept else c.kind, None, CREATED_VIA_INGEST)
  }

  /** The reference made for a name mentioned for the first time. */
  function NewRef(env: Env, c: CandidateEntity): Result<EntityRef>
    requires env.tables.Valid()
  {
    var key := EntityKey(env.u, c.name);
    if env.faults.findFails(c.name) then Err(StoreFailure("get entity"))
    else
      var found := FindEntityByName(env.u, env.tables, c.name);
      if found.Ok? then Ok(EntityRef(key, Some(found.value), NO_PARAMS, None))
      else Ok(EntityRef(key, None, CreateParams(env.u, c), None))
  }

  function ResolveRef(env: Env, refs: map<string, EntityRef>, c: CandidateEntity): (r: Result<map<string, EntityRef>>)
    requires env.tables.Valid()
    ensures r.Ok? ==> EntityKey(env.u, c.name) in r.value
  {
    var key := EntityKey(env.u, c.name);
    if key in refs then Ok(refs)
    else
      var ref :- NewRef(env, c);
      Ok(refs[key := ref])
  }

  /** The references after a lookup, and the keys looked up. */
  datatype Found = Found(refs: map<string, EntityRef>, keys: seq<string>)

  predicate NamesSubject(u: Text, subject: Entity, c: Candidate) {
    c.subject.None? || u.EqualFold(u.Trim(c.subject.value.name), subject.name)
  }

  function ResolveSubject(env: Env, refs: map<string, EntityRef>, subject: Option<Entity>, c: Candidate): Result<Found>
    requires env.tables.Valid()
  {
    if subject.Some? && NamesSubject(env.u, subject.value, c)
    then Ok(Found(refs, [EntityKey(env.u, subject.value.name)]))
    else if c.subject.None? || env.u.Trim(c.subject.value.name) == ""
    then Err(InvalidRequest("candidate subject is required when no explicit subject is provided"))
    else
      var refs' :- ResolveRef(env, refs, c.subject.value);
      Ok(Found(refs', [EntityKey(env.u, c.subject.value.name)]))
  }

  /** Related entities in order; blank names are skipped. */
  function ResolveRelated(env: Env, refs: map<string, EntityRef>, related: seq<CandidateEntity>): Result<Found>
    requires env.tables.Valid()
  {
    if related == [] then Ok(Found(refs, []))
    else
      var n := |related| - 1;
      var found :- ResolveRelated(env, refs, related[..n]);
      if env.u.Trim(related[n].name) == "" then Ok(found)
      else
        var refs' :- ResolveRef(env, found.refs, related[n]);
        Ok(Found(refs', found.keys + [EntityKey(env.u, related[n].name)]))
  }

  // ---- queueing edges ----

  datatype Queue = Queue(edges: map<string, EdgePlan>, queued: bool)

  /** The edge is known to be stored already; a failed read counts as not stored. */
  predicate EdgeStored(env: Env, from: EntityRef, to: EntityRef, kind: string) {
    && from.existing.Some? && to.existing.Some?
    && !env.faults.existsFails(from.existing.value.id, to.existing.value.id, kind)
    && RelationshipExists(env.tables, from.existing.value.id, to.existing.value.id, kind)
  }

  function QueueEdges(env: Env, edges: map<string, EdgePlan>, refs: map<string, EntityRef>,
                      subjectKey: string, relatedKeys: seq<string>, kind: string): Queue
    requires subjectKey in refs && forall k :: k in relatedKeys ==> k in refs
  {
    if relatedKeys == [] then Queue(edges, false)
    else
      var n := |relatedKeys| - 1;
      assert forall k :: k in relatedKeys[..n] ==> k in relatedKeys;
      var q := QueueEdges(env, edges, refs, subjectKey, relatedKeys[..n], kind);
      var toKey := relatedKeys[n];
      var key := EdgeKey(subjectKey, toKey, kind);
      if key in q.edges || EdgeStored(env, refs[subjectKey], refs[toKey], kind) then q
      else Queue(q.edges[key := EdgePlan(key, subjectKey, toKey, kind, None)], true)
  }

  const QUEUED := "Queued explicit relationship edge for extracted fact."
  const EDGE_EXISTS := "Relationship edge already exists for this fact."

  // ---- one candidate ----

  predicate TypeAccepted(kind: EntityType) {
    kind.NoType? || StoredType(kind)
  }

  function ValidateCandidate(u: Text, c: Candidate): Option<Error> {
    if u.Trim(c.content) == "" then Some(ExtractionFailed("candidate content is required"))
    else if !StoredCategory(c.category) then Some(InvalidRequest("invalid memory category"))
    else if !UnitInterval(c.confidence) then Some(ExtractionFailed("candidate confidence must be between 0 and 1"))
    else if c.subject.Some? && !TypeAccepted(c.subject.value.kind) then Some(InvalidRequest("invalid entity type"))
    else if exists i :: 0 <= i < |c.related| && !TypeAccepted(c.related[i].kind)
        then Some(InvalidRequest("invalid entity type"))
    else None
  }

  function RelationshipKind(u: Text, c: Candidate, relatedKeys: seq<string>): string {
    var kind := u.Trim(c.relationshipType);
    if kind == "" && c.category.RelationshipFact? && relatedKeys != [] then "related_to" else kind
  }

  /** A candidate recorded as an edge rather than as a memory. */
  predicate IsEdgeFact(c: Candidate, kind: string, relatedKeys: seq<string>) {
    c.category.RelationshipFact? && kind != "" && relatedKeys != []
  }

  function NewStep(c: Candidate, subject: EntityRef, relatedKeys: seq<string>, kind: string, d: Decision): Step {
    Step(c, d, if subject.existing.Some? then Some(subject.existing.value.id) else None,
         subject.key, subject.existing, relatedKeys, kind, [], None, {})
  }

  function SubjectMemories(env: Env, subject: EntityRef, category: Category): Result<seq<Memory>>
    requires env.tables.Valid()
  {
    if subject.existing.None? then Ok([])
    else if env.faults.listFails(subject.existing.value.id, category) then Err(StoreFailure("list active memories"))
    else Ok(ActiveMemories(env.tables, subject.existing.value.id, category))
  }

  /** The references resolved for one candidate. */
  function ResolveNames(env: Env, subject: Option<Entity>, refs: map<string, EntityRef>,
      c: Candidate): (r: Result<Found>)
    requires env.tables.Valid()
  {
    var s :- ResolveSubject(env, refs, subject, c);
    var related :- ResolveRelated(env, s.refs, c.related);
    Ok(Found(related.refs, s.keys + related.keys))
  }

  /** Edges are queued for every typed candidate with related entities. */
  function CandidateQueue(env: Env, edges: map<string, EdgePlan>, refs: map<string, EntityRef>,
                          subjectKey: string, relatedKeys: seq<string>, kind: string): Queue
    requires subjectKey in refs && forall k :: k in relatedKeys ==> k in refs
  {
    if kind != "" && relatedKeys != [] then QueueEdges(env, edges, refs, subjectKey, relatedKeys, kind)
    else Queue(edges, false)
  }

  /** An edge fact merges into the graph; any other candidate is weighed against the subject's memories. */
  function CandidateDecision(env: Env, c: Candidate, subject: EntityRef, relatedKeys: seq<string>, kind: string,
      queued: bool)
      : Result<Decision>
    requires env.tables.Valid()
  {
    if IsEdgeFact(c, kind, relatedKeys) then Ok(Decision(MergeAction, None, if queued then QUEUED else EDGE_EXISTS))
    else
      var existing :- SubjectMemories(env, subject, c.category);
      Ok(Decide(env.u, c, existing, env.threshold))
  }

  function PlanCandidate(env: Env, subject: Option<Entity>, plan: Plan, c: Candidate): Result<Plan>
    requires env.tables.Valid()
    requires subject.Some? ==> EntityKey(env.u, subject.value.name) in plan.refs
  {
    var invalid := ValidateCandidate(env.u, c);
    if invalid.Some? then Err(invalid.value)
    else
      var names :- ResolveNames(env, subject, plan.refs, c);
      NamesResolved(env, subject, plan.refs, c);
      PlanNamed(env, plan, c, names)
  }

  /** The plan once the candidate's names are resolved. */
  function PlanNamed(env: Env, plan: Plan, c: Candidate, names: Found): Result<Plan>
    requires env.tables.Valid()
    requires names.keys != [] && forall k :: k in names.keys ==> k in names.refs
  {
    var subjectKey, relatedKeys := names.keys[0], names.keys[1..];
    var kind := RelationshipKind(env.u, c, relatedKeys);
    var ref := names.refs[subjectKey];
    var q := CandidateQueue(env, plan.edges, names.refs, subjectKey, relatedKeys, kind);
    var d :- CandidateDecision(env, c, ref, relatedKeys, kind, q.queued);
    Ok(Plan(plan.steps + [NewStep(c, ref, relatedKeys, kind, d)], names.refs, q.edges))
  }

  /** References are only ever added, and every key looked up is among them. */
  ghost predicate Extends(refs: map<string, EntityRef>, refs': map<string, EntityRef>) {
    forall k :: k in refs ==> k in refs' && refs'[k] == refs[k]
  }

  lemma {:induction false} RelatedResolved(env: Env, refs: map<string, EntityRef>, related: seq<CandidateEntity>)
    requires env.tables.Valid()
    ensures var r := ResolveRelated(env, refs, related);
            r.Ok? ==> Extends(refs, r.value.refs) && forall k :: k in r.value.keys ==> k in r.value.refs
    decreases |related|
  {
    if related != [] {
      RelatedResolved(env, refs, related[..|related| - 1]);
    }
  }

  lemma NamesResolved(env: Env, subject: Option<Entity>, refs: map<string, EntityRef>, c: Candidate)
    requires env.tables.Valid()
    requires subject.Some? ==> EntityKey(env.u, subject.value.name) in refs
    ensures var r := ResolveNames(env, subject, refs, c);
            r.Ok? ==> && Extends(refs, r.value.refs) && r.value.keys != []
                      && forall k :: k in r.value.keys ==> k in r.value.refs
  {
    var s := ResolveSubject(env, refs, subject, c);
    if s.Ok? {
      RelatedResolved(env, s.value.refs, c.related);
    }
  }

  // ---- the whole plan ----

  function StartPlan(u: Text, subject: Option<Entity>): Plan {
    var refs: map<string, EntityRef> :=
      if subject.None? then map[]
      else
        var key := EntityKey(u, subject.value.name);
        map[key := EntityRef(key, subject, NO_PARAMS, None)];
    Plan([], refs, map[])
  }

  function BuildPlan(env: Env, subject: Option<Entity>, candidates: seq<Candidate>): (r: Result<Plan>)
    requires env.tables.Valid()
    ensures r.Ok? && subject.Some? ==> EntityKey(env.u, subject.value.name) in r.value.refs
  {
    if candidates == [] then Ok(StartPlan(env.u, subject))
    else
      var n := |candidates| - 1;
      var plan :- BuildPlan(env, subject, candidates[..n]);
      PlanCandidateExtends(env, subject, plan, candidates[n]);
      PlanCandidate(env, subject, plan, candidates[n])
  }

  lemma PlanCandidateExtends(env: Env, subject: Option<Entity>, plan: Plan, c: Candidate)
    requires env.tables.Valid()
    requires subject.Some? ==> EntityKey(env.u, subject.value.name) in plan.refs
    ensures var r := PlanCandidate(env, subject, plan, c); r.Ok? ==> Extends(plan.refs, r.value.refs)
  {
    NamesResolved(env, subject, plan.refs, c);
  }

  /** A name finds the oldest of the entities whose names the database takes for equal up to case. */
  lemma OldestFound(u: Text, t: Tables, name: string)
    requires t.Valid()
    ensures var r := FindEntityByName(u, t, name);
            && (r.Ok? <==> exists i :: i in t.entities && u.sqlLower(t.entities[i].name) == u.sqlLower(name))
            && (r.Ok? ==>
                  var e := r.value;
                  && e.id in t.entities && t.entities[e.id] == e && u.sqlLower(e.name) == u.sqlLower(name)
                  && forall i :: i in t.entities && u.sqlLower(t.entities[i].name) == u.sqlLower(name) ==>
                       && e.createdAt <= t.entities[i].createdAt
                       && (e.createdAt == t.entities[i].createdAt ==> e.id <= t.entities[i].id))
  {
    RowsKeyed(t);
    hide Tables.Valid;
    var r := FindEntityByName(u, t, name);
    hide FindEntityByName;
    assert forall i :: i in t.entities && u.sqlLower(t.entities[i].name) == u.sqlLower(name) ==>
                         i in NameMatches(u, t, name);
  }
}
