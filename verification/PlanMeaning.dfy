/** What a plan says of each candidate, in the candidate's own terms, and what it creates. */
module PlanMeaning {
  import opened Types
  import opened Tables
  import opened Text
  import opened Resolution
  import opened Planner
  import opened PlanProperties
  import opened Ingest
  import opened IngestProperties
  import RepeatIngest

  // ---- validation and the type of a relationship ----

  /** An entity type a candidate may name: one of the schema's, or none. */
  predicate KnownType(k: EntityType) {
    k in {Person, Organization, Place, Concept, ObjectType, Agent, NoType}
  }

  lemma CandidateChecked(u: Text, c: Candidate)
    ensures ValidateCandidate(u, c).None?
            <==> && u.Trim(c.content) != "" && 0.0 <= c.confidence <= 1.0
                 && c.category in {Preference, Fact, RelationshipFact, Event, Instruction}
                 && (c.subject.Some? ==> KnownType(c.subject.value.kind))
                 && forall i :: 0 <= i < |c.related| ==> KnownType(c.related[i].kind)
    ensures ValidateCandidate(u, c).Some? ==>
              var e := ValidateCandidate(u, c).value;
              && (e.ExtractionFailed? || e.InvalidRequest?)
              && (u.Trim(c.content) == "" ==> e == ExtractionFailed("candidate content is required"))
  {
    forall k: EntityType
      ensures KnownType(k) <==> TypeAccepted(k)
    {
      assert k.OtherType? || KnownType(k);
    }
    hide KnownType, TypeAccepted;
  }

  // ---- the entities to create ----

  /** The reference will create an entity for a name some candidate mentions: trimmed, of the type given or else a
      concept, without external identifier and marked as the ingest's.  No stored entity has that name. */
  ghost predicate MadeFor(env: Env, candidates: seq<Candidate>, key: string, ref: EntityRef) {
    exists m :: && Mentioned(candidates, m) && key == env.u.Normalized(m.name)
                && ref.create
                    == CreateEntityParams(env.u.Trim(m.name), if m.kind == NoType then Concept else m.kind, None,
                                                    map["created_via" := "ingest"])
                && forall i :: i in env.tables.entities ==>
                     env.u.sqlLower(env.tables.entities[i].name) != env.u.sqlLower(m.name)
  }

  ghost predicate Mentioned(candidates: seq<Candidate>, m: CandidateEntity) {
    exists i :: 0 <= i < |candidates| && (candidates[i].subject == Some(m) || m in candidates[i].related)
  }

  /** The reference is to the request's subject, or to the entity found by a name some candidate mentions. */
  ghost predicate FoundFor(env: Env, subject: Option<Entity>, candidates: seq<Candidate>, key: string, e: Entity)
    requires env.tables.Valid()
  {
    || (subject == Some(e) && key == env.u.Normalized(e.name))
    || exists m :: Mentioned(candidates, m) && key == env.u.Normalized(m.name)
        && FindEntityByName(env.u, env.tables, m.name) == Ok(e)
  }

  ghost predicate RefMeans(env: Env, subject: Option<Entity>, candidates: seq<Candidate>, key: string, ref: EntityRef)
    requires env.tables.Valid()
  {
    && ref.key == key && ref.createdId == None
    && match ref.existing
       case Some(e) => FoundFor(env, subject, candidates, key, e)
       case None => MadeFor(env, candidates, key, ref)
  }

  ghost predicate RefsMean(env: Env, subject: Option<Entity>, candidates: seq<Candidate>, refs: map<string, EntityRef>)
    requires env.tables.Valid()
  {
    forall k :: k in refs ==> RefMeans(env, subject, candidates, k, refs[k])
  }

  lemma MoreCandidates(env: Env, subject: Option<Entity>, candidates: seq<Candidate>, c: Candidate, refs: map<string,
      EntityRef>)
    requires env.tables.Valid() && RefsMean(env, subject, candidates, refs)
    ensures RefsMean(env, subject, candidates + [c], refs)
  {
    var more := candidates + [c];
    forall m | Mentioned(candidates, m)
      ensures Mentioned(more, m)
    {
      var i :| 0 <= i < |candidates| && (candidates[i].subject == Some(m) || m in candidates[i].related);
      assert more[i] == candidates[i];
    }
    hide Tables.Valid, Mentioned, FindEntityByName, Text.Normalized;
    forall k | k in refs
      ensures RefMeans(env, subject, more, k, refs[k])
    {
      assert RefMeans(env, subject, candidates, k, refs[k]);
    }
  }

  lemma NewRefMeans(env: Env, subject: Option<Entity>, candidates: seq<Candidate>, m: CandidateEntity)
    requires env.tables.Valid() && Mentioned(candidates, m) && NewRef(env, m).Ok?
    ensures RefMeans(env, subject, candidates, env.u.Normalized(m.name), NewRef(env, m).value)
  {
    hide Mentioned, Text.Normalized;
    OldestFound(env.u, env.tables, m.name);
    hide FindEntityByName;
  }

  lemma RefsAfterLookup(env: Env, subject: Option<Entity>, candidates: seq<Candidate>, refs: map<string, EntityRef>,
      m: CandidateEntity)
    requires env.tables.Valid() && RefsMean(env, subject, candidates, refs) && Mentioned(candidates, m)
    ensures var r := ResolveRef(env, refs, m); r.Ok? ==> RefsMean(env, subject, candidates, r.value)
  {
    hide NewRef, RefMeans, Mentioned, Text.Normalized;
    if NewRef(env, m).Ok? {
      NewRefMeans(env, subject, candidates, m);
    }
  }

  lemma {:induction false} RefsAfterRelated(env: Env, subject: Option<Entity>, candidates: seq<Candidate>,
                                            refs: map<string, EntityRef>, related: seq<CandidateEntity>)
    requires env.tables.Valid() && RefsMean(env, subject, candidates, refs)
    requires forall m :: m in related ==> Mentioned(candidates, m)
    ensures var r := ResolveRelated(env, refs, related); r.Ok? ==> RefsMean(env, subject, candidates, r.value.refs)
    decreases |related|
  {
    hide ResolveRef, RefsMean, Mentioned, Text.Normalized;
    if related != [] {
      var n := |related| - 1;
      RefsAfterRelated(env, subject, candidates, refs, related[..n]);
      if ResolveRelated(env, refs, related[..n]).Ok? {
        RefsAfterLookup(env, subject, candidates, ResolveRelated(env, refs, related[..n]).value.refs, related[n]);
      }
    }
  }

  lemma RefsAfterNames(env: Env, subject: Option<Entity>, candidates: seq<Candidate>, refs: map<string, EntityRef>,
      c: Candidate)
    requires env.tables.Valid() && RefsMean(env, subject, candidates, refs) && c in candidates
    ensures var r := ResolveNames(env, subject, refs, c); r.Ok? ==> RefsMean(env, subject, candidates, r.value.refs)
  {
    hide ResolveRef, ResolveRelated, RefsMean, Text.Normalized;
    MentionedBy(candidates, c);
    hide Mentioned;
    if c.subject.Some? {
      RefsAfterLookup(env, subject, candidates, refs, c.subject.value);
    }
    var s := ResolveSubject(env, refs, subject, c);
    if s.Ok? {
      RefsAfterRelated(env, subject, candidates, s.value.refs, c.related);
    }
  }

  lemma MentionedBy(candidates: seq<Candidate>, c: Candidate)
    requires c in candidates
    ensures c.subject.Some? ==> Mentioned(candidates, c.subject.value)
    ensures forall m :: m in c.related ==> Mentioned(candidates, m)
  {
    var i :| 0 <= i < |candidates| && candidates[i] == c;
  }

  // ---- the step of one candidate ----

  /** The names of the related entities that are not blank, in order, as keys. */
  function NamedKeys(u: Text, related: seq<CandidateEntity>): seq<string> {
    if related == [] then []
    else (if u.Trim(related[0].name) == "" then [] else [u.Normalized(related[0].name)]) + NamedKeys(u, related[1..])
  }

  /** The candidate is about the request's explicit subject: it names none, or the same name up to case. */
  ghost predicate AboutSubject(u: Text, subject: Option<Entity>, c: Candidate) {
    subject.Some? && (c.subject.Some? ==> u.EqualFold(u.Trim(c.subject.value.name), subject.value.name))
  }

  /** The relationship a candidate states between its subject and its related entities. */
  function StatedType(u: Text, c: Candidate): string {
    if u.Trim(c.relationshipType) != "" then u.Trim(c.relationshipType)
    else if c.category == RelationshipFact && NamedKeys(u, c.related) != [] then "related_to"
    else ""
  }

  ghost predicate StepMeans(env: Env, subject: Option<Entity>, c: Candidate, s: Step)
    requires env.tables.Valid()
  {
    var u := env.u;
    && s.candidate == c
    && (if AboutSubject(u, subject, c) then s.subjectKey == u.Normalized(subject.value.name)
        else && c.subject.Some? && u.Trim(c.subject.value.name) != ""
             && s.subjectKey == u.Normalized(c.subject.value.name))
    && s.relatedKeys == NamedKeys(u, c.related)
    && s.relationshipType == StatedType(u, c)
    && (if c.category == RelationshipFact && NamedKeys(u, c.related) != []
        then && s.decision.action == MergeAction && s.decision.target == None
             && (s.decision.reason == "Queued explicit relationship edge for extracted fact."
                 || s.decision.reason == "Relationship edge already exists for this fact.")
        else s.decision == Decide(u, c, if s.subjectExisting.None? then []
                                        else ActiveMemories(env.tables, s.subjectExisting.value.id, c.category),
                                  env.threshold))
  }

  lemma {:induction false} NamedKeysJoin(u: Text, a: seq<CandidateEntity>, b: seq<CandidateEntity>)
    ensures NamedKeys(u, a + b) == NamedKeys(u, a) + NamedKeys(u, b)
    decreases |a|
  {
    if a == [] {
      assert a + b == b;
    } else {
      assert (a + b)[1..] == a[1..] + b;
      NamedKeysJoin(u, a[1..], b);
    }
  }

  lemma NamedSnoc(u: Text, related: seq<CandidateEntity>)
    requires related != []
    ensures var n := |related| - 1;
            NamedKeys(u, related)
            == NamedKeys(u, related[..n])
               + if u.Trim(related[n].name) == "" then [] else [u.Normalized(related[n].name)]
  {
    var n := |related| - 1;
    assert related == related[..n] + [related[n]];
    NamedKeysJoin(u, related[..n], [related[n]]);
    assert [related[n]][1..] == [];
  }

  lemma {:induction false} RelatedKeysMean(env: Env, refs: map<string, EntityRef>, related: seq<CandidateEntity>)
    requires env.tables.Valid()
    ensures var r := ResolveRelated(env, refs, related); r.Ok? ==> r.value.keys == NamedKeys(env.u, related)
    decreases |related|
  {
    hide ResolveRef, Tables.Valid;
    if related != [] {
      RelatedKeysMean(env, refs, related[..|related| - 1]);
      NamedSnoc(env.u, related);
    }
  }

  lemma NamesMean(env: Env, subject: Option<Entity>, refs: map<string, EntityRef>, c: Candidate)
    requires env.tables.Valid()
    ensures var r, u := ResolveNames(env, subject, refs, c), env.u;
            r.Ok? ==>
              && |r.value.keys| == 1 + |NamedKeys(u, c.related)| && r.value.keys[1..] == NamedKeys(u, c.related)
              && (if AboutSubject(u, subject, c) then r.value.keys[0] == u.Normalized(subject.value.name)
                  else && c.subject.Some? && u.Trim(c.subject.value.name) != ""
                       && r.value.keys[0] == u.Normalized(c.subject.value.name))
  {
    hide ResolveRef;
    var s := ResolveSubject(env, refs, subject, c);
    if s.Ok? {
      RelatedKeysMean(env, s.value.refs, c.related);
      hide ResolveRelated, NamedKeys;
    }
  }

  lemma NamedMeans(env: Env, subject: Option<Entity>, plan: Plan, c: Candidate, names: Found)
    requires env.tables.Valid() && names.keys != [] && forall k :: k in names.keys ==> k in names.refs
    requires names.keys[1..] == NamedKeys(env.u, c.related)
    requires names.refs[names.keys[0]].key == names.keys[0]
    requires if AboutSubject(env.u, subject, c) then names.keys[0] == env.u.Normalized(subject.value.name)
             else && c.subject.Some? && env.u.Trim(c.subject.value.name) != ""
                  && names.keys[0] == env.u.Normalized(c.subject.value.name)
    ensures var r := PlanNamed(env, plan, c, names);
            r.Ok? ==> && |r.value.steps| == |plan.steps| + 1 && r.value.steps[..|plan.steps|] == plan.steps
                      && StepMeans(env, subject, c, r.value.steps[|plan.steps|])
  {
    hide QueueEdges, ActiveMemories, Decide, NamedKeys;
    var r := PlanNamed(env, plan, c, names);
    if r.Ok? {
      var s := r.value.steps[|plan.steps|];
      assert s.relatedKeys == NamedKeys(env.u, c.related);
      assert s.candidate == c && s.subjectKey == names.keys[0];
      assert s.relationshipType == StatedType(env.u, c);
      assert c.category == RelationshipFact && NamedKeys(env.u, c.related) != [] ==> s.relationshipType != "";
    }
  }

  lemma CandidateMeans(env: Env, subject: Option<Entity>, candidates: seq<Candidate>, plan: Plan, c: Candidate)
    requires env.tables.Valid() && (subject.Some? ==> EntityKey(env.u, subject.value.name) in plan.refs)
    requires RefsMean(env, subject, candidates, plan.refs) && c in candidates
    ensures var r := PlanCandidate(env, subject, plan, c);
            r.Ok? ==> && |r.value.steps| == |plan.steps| + 1 && r.value.steps[..|plan.steps|] == plan.steps
                      && StepMeans(env, subject, c, r.value.steps[|plan.steps|])
                      && ValidateCandidate(env.u, c).None? && RefsMean(env, subject, candidates, r.value.refs)
  {
    hide ResolveNames, PlanNamed, StepMeans, EntityKey, ValidateCandidate, RefMeans;
    NamesMean(env, subject, plan.refs, c);
    NamesResolved(env, subject, plan.refs, c);
    RefsAfterNames(env, subject, candidates, plan.refs, c);
    var names := ResolveNames(env, subject, plan.refs, c);
    if names.Ok? {
      KeyOfRef(env, subject, candidates, names.value.refs, names.value.keys[0]);
      NamedMeans(env, subject, plan, c, names.value);
      NamedRefs(env, plan, c, names.value);
    }
  }

  lemma KeyOfRef(env: Env, subject: Option<Entity>, candidates: seq<Candidate>, refs: map<string, EntityRef>, k: string)
    requires env.tables.Valid() && RefsMean(env, subject, candidates, refs) && k in refs
    ensures refs[k].key == k
  {
    assert RefMeans(env, subject, candidates, k, refs[k]);
  }

  lemma NamedRefs(env: Env, plan: Plan, c: Candidate, names: Found)
    requires env.tables.Valid() && names.keys != [] && forall k :: k in names.keys ==> k in names.refs
    ensures var r := PlanNamed(env, plan, c, names); r.Ok? ==> r.value.refs == names.refs
  {
    hide QueueEdges, CandidateDecision;
  }

  /** Each step of a plan follows from its candidate, the store and the request's subject alone; and each of its
      references is found or made for a name that some candidate mentions, or is the subject's. */
  lemma {:induction false} PlanMeans(env: Env, subject: Option<Entity>, candidates: seq<Candidate>)
    requires env.tables.Valid()
    ensures var r := BuildPlan(env, subject, candidates);
            r.Ok? ==> && |r.value.steps| == |candidates|
                      && (forall i :: 0 <= i < |candidates| ==>
                            && ValidateCandidate(env.u, candidates[i]).None?
                            && StepMeans(env, subject, candidates[i], r.value.steps[i]))
                      && RefsMean(env, subject, candidates, r.value.refs)
    decreases |candidates|
  {
    hide PlanCandidate, StepMeans, EntityKey, ValidateCandidate, RefsMean;
    if candidates == [] {
      StartMeans(env, subject);
    } else {
      var n := |candidates| - 1;
      var before := BuildPlan(env, subject, candidates[..n]);
      PlanMeans(env, subject, candidates[..n]);
      if before.Ok? {
        assert candidates == candidates[..n] + [candidates[n]];
        MoreCandidates(env, subject, candidates[..n], candidates[n], before.value.refs);
        CandidateMeans(env, subject, candidates, before.value, candidates[n]);
      }
    }
  }

  lemma StartMeans(env: Env, subject: Option<Entity>)
    requires env.tables.Valid()
    ensures RefsMean(env, subject, [], StartPlan(env.u, subject).refs)
  {
    hide FindEntityByName;
  }

  // ---- the edges queued for one candidate ----

  /** Both ends are stored entities, the existence check did not fail, and the relationship is in the table. */
  ghost predicate SeenStored(env: Env, from: EntityRef, to: EntityRef, kind: string) {
    && from.existing.Some? && to.existing.Some?
    && !env.faults.existsFails(from.existing.value.id, to.existing.value.id, kind)
    && exists i :: && i in env.tables.relationships && env.tables.relationships[i].kind == kind
                   && env.tables.relationships[i].from == from.existing.value.id
                   && env.tables.relationships[i].to == to.existing.value.id
  }

  /** Queueing adds an edge for each related entity whose relationship was not seen stored, once, and tells whether
      it added any. */
  lemma {:induction false} QueueMeans(env: Env, edges: map<string, EdgePlan>, refs: map<string, EntityRef>,
                                      subjectKey: string, relatedKeys: seq<string>, kind: string)
    requires subjectKey in refs && forall k :: k in relatedKeys ==> k in refs
    ensures var q := QueueEdges(env, edges, refs, subjectKey, relatedKeys, kind);
            && (forall k :: k in edges ==> k in q.edges && q.edges[k] == edges[k])
            && (forall k :: k in q.edges <==>
                  k in edges || exists to :: && to in relatedKeys && k == EdgeKey(subjectKey, to, kind)
                                             && !SeenStored(env, refs[subjectKey], refs[to], kind))
            && (forall k :: k in q.edges && k !in edges ==>
                  && q.edges[k].key == k && q.edges[k].fromKey == subjectKey && q.edges[k].toKey in relatedKeys
                  && k == EdgeKey(subjectKey, q.edges[k].toKey, kind) && q.edges[k].kind == kind
                  && q.edges[k].createdId == None)
            && (q.queued <==> q.edges != edges)
    decreases |relatedKeys|
  {
    hide EdgeKey;
    if relatedKeys != [] {
      var n := |relatedKeys| - 1;
      assert relatedKeys == relatedKeys[..n] + [relatedKeys[n]];
      QueueMeans(env, edges, refs, subjectKey, relatedKeys[..n], kind);
      var q := QueueEdges(env, edges, refs, subjectKey, relatedKeys[..n], kind);
      StoredIff(env, refs[subjectKey], refs[relatedKeys[n]], kind);
      hide SeenStored, EdgeStored;
    }
  }

  lemma StoredIff(env: Env, from: EntityRef, to: EntityRef, kind: string)
    ensures EdgeStored(env, from, to, kind) <==> SeenStored(env, from, to, kind)
  {
  }

  /** The reason a step gives when its candidate states relationships. */
  function FactReason(queued: bool): string {
    if queued then "Queued explicit relationship edge for extracted fact."
    else "Relationship edge already exists for this fact."
  }

  lemma NamedReason(env: Env, plan: Plan, c: Candidate, names: Found)
    requires env.tables.Valid() && names.keys != [] && forall k :: k in names.keys ==> k in names.refs
    requires c.category == RelationshipFact && names.keys[1..] == NamedKeys(env.u, c.related) != []
    ensures var r := PlanNamed(env, plan, c, names);
            && r.Ok? && |r.value.steps| == |plan.steps| + 1
            && r.value.steps[|plan.steps|].decision.reason == FactReason(r.value.edges != plan.edges)
  {
    hide NamedKeys;
    assert forall k :: k in names.keys[1..] ==> k in names.keys;
    var kind := RelationshipKind(env.u, c, names.keys[1..]);
    assert kind == StatedType(env.u, c) != "";
    QueueMeans(env, plan.edges, names.refs, names.keys[0], names.keys[1..], kind);
    hide QueueEdges;
  }

  /** A candidate that states relationships gives as its reason whether planning it queued an edge. */
  lemma ReasonMeans(env: Env, subject: Option<Entity>, plan: Plan, c: Candidate)
    requires env.tables.Valid() && (subject.Some? ==> EntityKey(env.u, subject.value.name) in plan.refs)
    requires c.category == RelationshipFact && NamedKeys(env.u, c.related) != []
    ensures var r := PlanCandidate(env, subject, plan, c);
            r.Ok? ==> && |r.value.steps| == |plan.steps| + 1
                      && r.value.steps[|plan.steps|].decision.reason == FactReason(r.value.edges != plan.edges)
  {
    hide ResolveNames, PlanNamed, EntityKey, ValidateCandidate, FactReason, NamedKeys;
    NamesMean(env, subject, plan.refs, c);
    NamesResolved(env, subject, plan.refs, c);
    var names := ResolveNames(env, subject, plan.refs, c);
    if names.Ok? {
      NamedReason(env, plan, c, names.value);
    }
  }

  // ---- when planning succeeds ----

  /** The candidate is valid, and is about the request's subject or names one of its own. */
  ghost predicate Plannable(u: Text, subject: Option<Entity>, c: Candidate) {
    && ValidateCandidate(u, c).None?
    && (AboutSubject(u, subject, c) || (c.subject.Some? && u.Trim(c.subject.value.name) != ""))
  }

  lemma CandidatePlanned(env: Env, subject: Option<Entity>, plan: Plan, c: Candidate)
    requires env.tables.Valid() && RepeatIngest.ReadsSucceed(env)
    requires subject.Some? ==> EntityKey(env.u, subject.value.name) in plan.refs
    ensures PlanCandidate(env, subject, plan, c).Ok? <==> Plannable(env.u, subject, c)
  {
    hide ResolveNames, PlanNamed, EntityKey, ValidateCandidate, RepeatIngest.ReadsSucceed;
    RepeatIngest.NamesAfter(env, subject, plan.refs, c);
    NamesResolved(env, subject, plan.refs, c);
    var names := ResolveNames(env, subject, plan.refs, c);
    if names.Ok? {
      RepeatIngest.MemoriesListed(env, c, names.value);
    }
    hide RepeatIngest.RefsAfter, RepeatIngest.SubjectKey, RepeatIngest.Mentions, RepeatIngest.Named;
  }

  /** With no failing read, planning succeeds exactly when every candidate is valid and has a subject. */
  lemma {:induction false} PlanSucceedsIff(env: Env, subject: Option<Entity>, candidates: seq<Candidate>)
    requires env.tables.Valid() && RepeatIngest.ReadsSucceed(env)
    ensures BuildPlan(env, subject, candidates).Ok?
            <==> forall i :: 0 <= i < |candidates| ==> Plannable(env.u, subject, candidates[i])
    decreases |candidates|
  {
    hide PlanCandidate, Plannable, EntityKey, RepeatIngest.ReadsSucceed;
    if candidates != [] {
      var n := |candidates| - 1;
      PlanSucceedsIff(env, subject, candidates[..n]);
      if BuildPlan(env, subject, candidates[..n]).Ok? {
        CandidatePlanned(env, subject, BuildPlan(env, subject, candidates[..n]).value, candidates[n]);
      }
    }
  }

  // ---- when a request succeeds ----

  /** The request names no subject, or one that is stored. */
  ghost predicate SubjectKnown(u: Text, t: Tables, req: Request) {
    && (req.subjectId.Some? ==> req.subjectId.value in t.entities)
    && (req.subjectId.None? && u.Trim(req.subjectExternalId) != "" ==>
          exists i :: i in t.entities && t.entities[i].externalId == Some(req.subjectExternalId))
  }

  /** With no failing read, a request succeeds exactly when it has a text, an extractor that answers, a subject that
      is stored if it names one, and candidates that can be planned, and its transaction, if it needs one, does not
      fail. */
  lemma IngestSucceedsIff(cfg: Config, t: Tables, req: Request, extraction: Extraction, faults: Faults)
    requires ValidConfig(cfg) && t.Valid() && RepeatIngest.ReadsSucceed(Env(cfg.u, t, cfg.threshold, faults))
    ensures var r := RunIngest(cfg, t, req, extraction, faults).result;
            && (r.Ok? <==> && cfg.u.Trim(req.rawText) != "" && extraction.Some? && extraction.value.Ok?
                           && SubjectKnown(cfg.u, t, req)
                           && (forall c :: c in extraction.value.value ==>
                                 Plannable(cfg.u, RequestSubject(cfg, t, req), c))
                           && (faults.commitFails ==> req.dryRun || extraction.value.value == []))
            && (cfg.u.Trim(req.rawText) == "" ==> r == Err(InvalidRequest("raw_text is required")))
            && (cfg.u.Trim(req.rawText) != "" && extraction.None? ==>
                  r == Err(ExtractorUnavailable("extractor is not configured")))
  {
    hide *;
    IngestAllOrNothing(cfg, t, req, extraction, faults);
    RunCases(cfg, t, req, extraction, faults);
    RequestPlanned(cfg, t, req, extraction, faults);
  }

  lemma RequestPlanned(cfg: Config, t: Tables, req: Request, extraction: Extraction, faults: Faults)
    requires t.Valid() && RepeatIngest.ReadsSucceed(Env(cfg.u, t, cfg.threshold, faults))
    ensures var r := PlanRequest(cfg, t, req, extraction, faults);
            && (r.Ok? <==> && cfg.u.Trim(req.rawText) != "" && extraction.Some? && extraction.value.Ok?
                           && SubjectKnown(cfg.u, t, req)
                           && forall c :: c in extraction.value.value ==>
                                Plannable(cfg.u, RequestSubject(cfg, t, req), c))
            && (cfg.u.Trim(req.rawText) == "" ==> r == Err(InvalidRequest("raw_text is required")))
            && (cfg.u.Trim(req.rawText) != "" && extraction.None? ==>
                  r == Err(ExtractorUnavailable("extractor is not configured")))
  {
    SubjectMeans(cfg.u, t, req);
    hide ExplicitSubject, BuildPlan, RepeatIngest.ReadsSucceed, Plannable;
    if extraction.Some? && extraction.value.Ok? {
      var env, candidates := Env(cfg.u, t, cfg.threshold, faults), extraction.value.value;
      PlanSucceedsIff(env, RequestSubject(cfg, t, req), candidates);
      assert (forall i :: 0 <= i < |candidates| ==> Plannable(cfg.u, RequestSubject(cfg, t, req), candidates[i]))
             <==> forall c :: c in candidates ==> Plannable(cfg.u, RequestSubject(cfg, t, req), c);
    }
  }
}
