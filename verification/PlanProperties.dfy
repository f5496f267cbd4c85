/** What every plan guarantees to the commit that follows, whichever reads failed while planning. */
module PlanProperties {
  import opened Types
  import opened Tables
  import opened Text
  import opened Resolution
  import opened Planner

  /** A reference is stored under its own key; it names a stored entity of that key, or parameters that
      will create one. */
  ghost predicate RefOk(env: Env, key: string, ref: EntityRef) {
    && ref.key == key && ref.createdId.None?
    && (ref.existing.Some? ==> StoredUnder(env, key, ref.existing.value))
    && (ref.existing.None? ==> Creatable(env.u, key, ref.create))
  }

  ghost predicate StoredUnder(env: Env, key: string, e: Entity) {
    e.id in env.tables.entities && env.tables.entities[e.id] == e && EntityKey(env.u, e.name) == key
  }

  ghost predicate Creatable(u: Text, key: string, p: CreateEntityParams) {
    EntityKey(u, p.name) == key && StoredType(p.kind) && p.externalId.None?
  }

  /** A matched memory belongs to the step's subject and category, and an update that is not a singleton's
      raises its confidence. */
  ghost predicate TargetOk(env: Env, s: Step) {
    && (s.decision.action.UpdateAction? ==> s.decision.target.Some?)
    && (s.decision.action.CreateAction? ==> s.decision.target.None?)
    && (s.decision.target.Some? ==>
          && s.subjectExisting.Some? && s.decision.target.value in env.tables.memories
          && var m := env.tables.memories[s.decision.target.value];
             && ActiveIn(m, s.subjectExisting.value.id, s.candidate.category, env.tables.now)
             && (s.decision.action.UpdateAction? && !Singleton(s.candidate.category) ==>
                 m.confidence < s.candidate.confidence))
  }

  ghost predicate StepOk(env: Env, refs: map<string, EntityRef>, s: Step) {
    && s.subjectKey in refs && s.subjectExisting == refs[s.subjectKey].existing
    && s.subjectId == (if s.subjectExisting.Some? then Some(s.subjectExisting.value.id) else None)
    && (forall k :: k in s.relatedKeys ==> k in refs)
    && s.createdEntityIds == [] && s.createdMemoryId.None? && s.createdRelationIds == {}
    && ValidateCandidate(env.u, s.candidate).None?
    && TargetOk(env, s)
  }

  /** A planned edge decodes to its own key, joins known references, was asked for by a step, and was not
      seen in the store. */
  ghost predicate EdgeOk(env: Env, refs: map<string, EntityRef>, steps: seq<Step>, key: string, e: EdgePlan) {
    && e.key == key == EdgeKey(e.fromKey, e.toKey, e.kind) && e.createdId.None?
    && e.fromKey in refs && e.toKey in refs
    && !EdgeStored(env, refs[e.fromKey], refs[e.toKey], e.kind)
    && exists i :: 0 <= i < |steps| && AskedBy(e, steps[i])
  }

  ghost predicate AskedBy(e: EdgePlan, s: Step) {
    s.subjectKey == e.fromKey && e.toKey in s.relatedKeys
  }

  ghost predicate RefsOk(env: Env, refs: map<string, EntityRef>) {
    forall k :: k in refs ==> RefOk(env, k, refs[k])
  }

  ghost predicate StepsOk(env: Env, refs: map<string, EntityRef>, steps: seq<Step>) {
    forall i :: 0 <= i < |steps| ==> StepOk(env, refs, steps[i])
  }

  ghost predicate EdgesOk(env: Env, refs: map<string, EntityRef>, steps: seq<Step>, edges: map<string, EdgePlan>) {
    forall k :: k in edges ==> EdgeOk(env, refs, steps, k, edges[k])
  }

  ghost predicate PlanOk(env: Env, plan: Plan) {
    RefsOk(env, plan.refs) && StepsOk(env, plan.refs, plan.steps) && EdgesOk(env, plan.refs, plan.steps, plan.edges)
  }

  /** The explicit subject is a stored entity. */
  ghost predicate SubjectStored(env: Env, subject: Option<Entity>) {
    subject.Some? ==> subject.value.id in env.tables.entities && env.tables.entities[subject.value.id] == subject.value
  }

  // ---- references ----

  lemma NewRefOk(env: Env, c: CandidateEntity)
    requires env.Valid() && TypeAccepted(c.kind) && NewRef(env, c).Ok?
    ensures RefOk(env, EntityKey(env.u, c.name), NewRef(env, c).value)
  {
    if FindEntityByName(env.u, env.tables, c.name).Ok? {
      FoundKey(env.u, env.tables, c.name);
    } else {
      NormalizedTrim(env.u, c.name);
    }
  }

  lemma RefAdded(env: Env, refs: map<string, EntityRef>, c: CandidateEntity)
    requires env.Valid() && RefsOk(env, refs) && TypeAccepted(c.kind)
    ensures var r := ResolveRef(env, refs, c); r.Ok? ==> RefsOk(env, r.value)
  {
    hide NewRef;
    hide RefOk;
    if NewRef(env, c).Ok? {
      NewRefOk(env, c);
    }
  }

  lemma {:induction false} RelatedRefsOk(env: Env, refs: map<string, EntityRef>, related: seq<CandidateEntity>)
    requires env.Valid() && RefsOk(env, refs)
    requires forall i :: 0 <= i < |related| ==> TypeAccepted(related[i].kind)
    ensures var r := ResolveRelated(env, refs, related); r.Ok? ==> RefsOk(env, r.value.refs)
    decreases |related|
  {
    hide ResolveRef;
    hide RefsOk;
    if related != [] {
      var n := |related| - 1;
      RelatedRefsOk(env, refs, related[..n]);
      var found := ResolveRelated(env, refs, related[..n]);
      if found.Ok? {
        RefAdded(env, found.value.refs, related[n]);
      }
    }
  }

  lemma NamesOk(env: Env, subject: Option<Entity>, refs: map<string, EntityRef>, c: Candidate)
    requires env.Valid() && RefsOk(env, refs) && ValidateCandidate(env.u, c).None?
    ensures var r := ResolveNames(env, subject, refs, c); r.Ok? ==> RefsOk(env, r.value.refs)
  {
    hide ResolveRef;
    hide ResolveRelated;
    hide RefsOk;
    if c.subject.Some? {
      RefAdded(env, refs, c.subject.value);
    }
    var s := ResolveSubject(env, refs, subject, c);
    if s.Ok? {
      RelatedRefsOk(env, s.value.refs, c.related);
    }
  }

  // ---- edges ----

  /** Queueing keeps every edge, adds only unstored edges from the subject to the related entities, and
      leaves no related entity without an edge, planned or stored. */
  lemma {:induction false} QueueFacts(env: Env, edges: map<string, EdgePlan>, refs: map<string, EntityRef>,
                                      subjectKey: string, relatedKeys: seq<string>, kind: string)
    requires subjectKey in refs && forall k :: k in relatedKeys ==> k in refs
    ensures var q := QueueEdges(env, edges, refs, subjectKey, relatedKeys, kind).edges;
            && (forall k :: k in edges ==> k in q && q[k] == edges[k])
            && (forall k :: k in q && k !in edges ==>
                  exists toKey :: && toKey in relatedKeys && k == EdgeKey(subjectKey, toKey, kind)
                                  && q[k] == EdgePlan(k, subjectKey, toKey, kind, None)
                                  && !EdgeStored(env, refs[subjectKey], refs[toKey], kind))
            && (forall toKey :: toKey in relatedKeys ==>
                  EdgeKey(subjectKey, toKey, kind) in q || EdgeStored(env, refs[subjectKey], refs[toKey], kind))
    decreases |relatedKeys|
  {
    hide EdgeStored;
    hide EdgeKey;
    if relatedKeys != [] {
      var n := |relatedKeys| - 1;
      assert forall k :: k in relatedKeys[..n] ==> k in relatedKeys;
      QueueFacts(env, edges, refs, subjectKey, relatedKeys[..n], kind);
      assert relatedKeys == relatedKeys[..n] + [relatedKeys[n]];
    }
  }

  lemma QueuedEdgesOk(env: Env, refs: map<string, EntityRef>, steps: seq<Step>, edges: map<string, EdgePlan>, s: Step)
    requires EdgesOk(env, refs, steps, edges)
    requires s.subjectKey in refs && forall k :: k in s.relatedKeys ==> k in refs
    ensures var q := QueueEdges(env, edges, refs, s.subjectKey, s.relatedKeys, s.relationshipType).edges;
            EdgesOk(env, refs, steps + [s], q) && EdgesOk(env, refs, steps + [s], edges)
  {
    hide EdgeStored;
    hide EdgeKey;
    hide QueueEdges;
    QueueFacts(env, edges, refs, s.subjectKey, s.relatedKeys, s.relationshipType);
    var q := QueueEdges(env, edges, refs, s.subjectKey, s.relatedKeys, s.relationshipType).edges;
    forall k | k in q
      ensures EdgeOk(env, refs, steps + [s], k, q[k])
    {
      if k in edges {
        EdgeKept(env, refs, steps, s, k, edges[k]);
      } else {
        assert AskedBy(q[k], (steps + [s])[|steps|]);
      }
    }
    forall k | k in edges
      ensures EdgeOk(env, refs, steps + [s], k, edges[k])
    {
      EdgeKept(env, refs, steps, s, k, edges[k]);
    }
  }

  lemma EdgeKept(env: Env, refs: map<string, EntityRef>, steps: seq<Step>, s: Step, key: string, e: EdgePlan)
    requires EdgeOk(env, refs, steps, key, e)
    ensures EdgeOk(env, refs, steps + [s], key, e)
  {
    hide EdgeStored;
    hide EdgeKey;
    var i :| 0 <= i < |steps| && AskedBy(e, steps[i]);
    assert AskedBy(e, (steps + [s])[i]);
  }

  /** Adding references changes nothing for the edges and steps already planned. */
  lemma MoreRefs(env: Env, refs: map<string, EntityRef>, refs': map<string, EntityRef>, plan: Plan)
    requires Extends(refs, refs') && EdgesOk(env, refs, plan.steps, plan.edges) && StepsOk(env, refs, plan.steps)
    ensures EdgesOk(env, refs', plan.steps, plan.edges) && StepsOk(env, refs', plan.steps)
  {
    hide EdgeStored;
    hide EdgeKey;
    hide ValidateCandidate;
    hide TargetOk;
    forall k | k in plan.edges
      ensures EdgeOk(env, refs', plan.steps, k, plan.edges[k])
    {
      assert EdgeOk(env, refs, plan.steps, k, plan.edges[k]);
    }
    forall i | 0 <= i < |plan.steps|
      ensures StepOk(env, refs', plan.steps[i])
    {
      assert StepOk(env, refs, plan.steps[i]);
    }
  }

  // ---- steps ----

  lemma DecidedTargetOk(env: Env, c: Candidate, ref: EntityRef, relatedKeys: seq<string>, kind: string, queued: bool)
    requires env.Valid() && CandidateDecision(env, c, ref, relatedKeys, kind, queued).Ok?
    ensures TargetOk(env,
        NewStep(c, ref, relatedKeys, kind, CandidateDecision(env, c, ref, relatedKeys, kind, queued).value))
  {
    hide Decide;
    if !IsEdgeFact(c, kind, relatedKeys) {
      var existing := SubjectMemories(env, ref, c.category).value;
      var d := Decide(env.u, c, existing, env.threshold);
      DecisionFacts(env.u, c, existing, env.threshold);
      if d.target.Some? {
        var m :| m in existing && d.target == Some(m.id)
                 && (d.action.UpdateAction? && !Singleton(c.category) ==> m.confidence < c.confidence);
        assert ActiveIn(m, ref.existing.value.id, c.category, env.tables.now);
      }
    }
  }

  lemma DecisionFacts(u: Text, c: Candidate, existing: seq<Memory>, threshold: real)
    ensures var d := Decide(u, c, existing, threshold);
            && (d.action.UpdateAction? ==> d.target.Some?)
            && (d.action.CreateAction? ==> d.target.None?)
            && (d.target.Some? ==>
                  exists m :: && m in existing && d.target == Some(m.id)
                              && (d.action.UpdateAction? && !Singleton(c.category) ==> m.confidence < c.confidence))
  {
    hide BestIndex, BestScore;
    var k := BestIndex(u, c.content, existing);
    if k >= 0 {
      assert existing[k] in existing;
      AgainstFacts(u, c, existing[k], BestScore(u, c.content, existing, k));
    }
    hide Against;
  }

  lemma AgainstFacts(u: Text, c: Candidate, target: Memory, score: real)
    ensures var d := Against(u, c, target, score);
            && !d.action.CreateAction? && d.target == Some(target.id)
            && (d.action.UpdateAction? && !Singleton(c.category) ==> target.confidence < c.confidence)
  {
  }

  // ---- the plan ----

  lemma PlanNamedOk(env: Env, plan: Plan, c: Candidate, names: Found)
    requires env.Valid() && PlanOk(env, plan) && ValidateCandidate(env.u, c).None?
    requires names.keys != [] && forall k :: k in names.keys ==> k in names.refs
    requires RefsOk(env, names.refs) && Extends(plan.refs, names.refs)
    ensures var r := PlanNamed(env, plan, c, names); r.Ok? ==> PlanOk(env, r.value)
  {
    hide QueueEdges;
    hide CandidateDecision;
    hide ValidateCandidate;
    hide RefsOk;
    hide EdgesOk;
    hide TargetOk;
    hide RelationshipKind;
    var subjectKey, relatedKeys := names.keys[0], names.keys[1..];
    var kind := RelationshipKind(env.u, c, relatedKeys);
    var ref := names.refs[subjectKey];
    var q := CandidateQueue(env, plan.edges, names.refs, subjectKey, relatedKeys, kind);
    var d := CandidateDecision(env, c, ref, relatedKeys, kind, q.queued);
    if d.Ok? {
      var s := NewStep(c, ref, relatedKeys, kind, d.value);
      MoreRefs(env, plan.refs, names.refs, plan);
      DecidedTargetOk(env, c, ref, relatedKeys, kind, q.queued);
      RefKey(env, names.refs, subjectKey);
      QueuedEdgesOk(env, names.refs, plan.steps, plan.edges, s);
    }
  }

  lemma RefKey(env: Env, refs: map<string, EntityRef>, key: string)
    requires RefsOk(env, refs) && key in refs
    ensures refs[key].key == key
  {
    assert RefOk(env, key, refs[key]);
  }

  lemma PlanCandidateOk(env: Env, subject: Option<Entity>, plan: Plan, c: Candidate)
    requires env.Valid() && PlanOk(env, plan)
    requires subject.Some? ==> EntityKey(env.u, subject.value.name) in plan.refs
    ensures var r := PlanCandidate(env, subject, plan, c); r.Ok? ==> PlanOk(env, r.value)
  {
    hide ResolveNames;
    hide PlanNamed;
    hide ValidateCandidate;
    if ValidateCandidate(env.u, c).None? {
      NamesResolved(env, subject, plan.refs, c);
      NamesOk(env, subject, plan.refs, c);
      var names := ResolveNames(env, subject, plan.refs, c);
      if names.Ok? {
        PlanNamedOk(env, plan, c, names.value);
      }
    }
  }

  lemma StartPlanOk(env: Env, subject: Option<Entity>)
    requires env.Valid() && SubjectStored(env, subject)
    ensures PlanOk(env, StartPlan(env.u, subject))
  {
  }

  /** Every plan is well formed: references under their own keys, every key a step or edge uses
      resolvable, a target on every update. */
  lemma {:induction false} BuildPlanOk(env: Env, subject: Option<Entity>, candidates: seq<Candidate>)
    requires env.Valid() && SubjectStored(env, subject)
    ensures var r := BuildPlan(env, subject, candidates); r.Ok? ==> PlanOk(env, r.value)
    decreases |candidates|
  {
    hide PlanCandidate;
    hide PlanOk;
    if candidates == [] {
      StartPlanOk(env, subject);
    } else {
      var n := |candidates| - 1;
      BuildPlanOk(env, subject, candidates[..n]);
      var plan := BuildPlan(env, subject, candidates[..n]);
      if plan.Ok? {
        PlanCandidateOk(env, subject, plan.value, candidates[n]);
      }
    }
  }

  /** One step per candidate, in order. */
  lemma {:induction false} OneStepEach(env: Env, subject: Option<Entity>, candidates: seq<Candidate>)
    requires env.tables.Valid()
    ensures var r := BuildPlan(env, subject, candidates);
            r.Ok? ==> && |r.value.steps| == |candidates|
                      && forall i :: 0 <= i < |candidates| ==> r.value.steps[i].candidate == candidates[i]
    decreases |candidates|
  {
    hide PlanCandidate, EntityKey;
    if candidates != [] {
      var n := |candidates| - 1;
      OneStepEach(env, subject, candidates[..n]);
      if BuildPlan(env, subject, candidates[..n]).Ok? {
        OneMoreStep(env, subject, BuildPlan(env, subject, candidates[..n]).value, candidates[n]);
      }
    }
  }

  lemma OneMoreStep(env: Env, subject: Option<Entity>, plan: Plan, c: Candidate)
    requires env.tables.Valid() && (subject.Some? ==> EntityKey(env.u, subject.value.name) in plan.refs)
    ensures var r := PlanCandidate(env, subject, plan, c);
            r.Ok? ==> && |r.value.steps| == |plan.steps| + 1 && r.value.steps[..|plan.steps|] == plan.steps
                      && r.value.steps[|plan.steps|].candidate == c
  {
    hide ResolveNames, CandidateQueue, CandidateDecision, ValidateCandidate, EntityKey;
  }

  // ---- no requested edge is lost ----

  /** Every edge a step asks for is planned or already stored. */
  ghost predicate StepAsked(env: Env, refs: map<string, EntityRef>, edges: map<string, EdgePlan>, s: Step) {
    s.subjectKey in refs && forall k :: k in s.relatedKeys ==>
      k in refs && (s.relationshipType == "" || EdgeKey(s.subjectKey, k, s.relationshipType) in edges
                    || EdgeStored(env, refs[s.subjectKey], refs[k], s.relationshipType))
  }

  ghost predicate StepsAsked(env: Env, plan: Plan) {
    forall i :: 0 <= i < |plan.steps| ==> StepAsked(env, plan.refs, plan.edges, plan.steps[i])
  }

  lemma PlanNamedAsked(env: Env, plan: Plan, c: Candidate, names: Found)
    requires env.tables.Valid() && StepsAsked(env, plan) && RefsOk(env, names.refs)
    requires names.keys != [] && forall k :: k in names.keys ==> k in names.refs
    requires Extends(plan.refs, names.refs)
    ensures var r := PlanNamed(env, plan, c, names); r.Ok? ==> StepsAsked(env, r.value)
  {
    hide QueueEdges;
    hide CandidateDecision;
    hide RelationshipKind;
    hide RefsOk;
    hide EdgeStored;
    hide EdgeKey;
    var subjectKey, relatedKeys := names.keys[0], names.keys[1..];
    var kind := RelationshipKind(env.u, c, relatedKeys);
    QueueFacts(env, plan.edges, names.refs, subjectKey, relatedKeys, kind);
    RefKey(env, names.refs, subjectKey);
    var r := PlanNamed(env, plan, c, names);
    if r.Ok? {
      forall i | 0 <= i < |r.value.steps|
        ensures StepAsked(env, r.value.refs, r.value.edges, r.value.steps[i])
      {
        if i < |plan.steps| {
          assert StepAsked(env, plan.refs, plan.edges, plan.steps[i]);
        }
      }
    }
  }

  lemma {:induction false} BuildPlanAsked(env: Env, subject: Option<Entity>, candidates: seq<Candidate>)
    requires env.Valid() && SubjectStored(env, subject)
    ensures var r := BuildPlan(env, subject, candidates); r.Ok? ==> StepsAsked(env, r.value)
    decreases |candidates|
  {
    hide ResolveNames;
    hide PlanNamed;
    hide ValidateCandidate;
    hide PlanOk;
    hide StepsAsked;
    if candidates == [] {
      NoStepsAsked(env, subject);
    } else {
      var n := |candidates| - 1;
      BuildPlanAsked(env, subject, candidates[..n]);
      BuildPlanOk(env, subject, candidates[..n]);
      var plan := BuildPlan(env, subject, candidates[..n]);
      if plan.Ok? {
        PlanRefsOk(env, plan.value);
        var c := candidates[n];
        if ValidateCandidate(env.u, c).None? {
          NamesResolved(env, subject, plan.value.refs, c);
          NamesOk(env, subject, plan.value.refs, c);
          var names := ResolveNames(env, subject, plan.value.refs, c);
          if names.Ok? {
            PlanNamedAsked(env, plan.value, c, names.value);
          }
        }
      }
    }
  }

  lemma NoStepsAsked(env: Env, subject: Option<Entity>)
    ensures StepsAsked(env, StartPlan(env.u, subject))
  {
  }

  lemma PlanRefsOk(env: Env, plan: Plan)
    requires PlanOk(env, plan)
    ensures RefsOk(env, plan.refs)
  {
  }

  // ---- planning depends on the failing reads only ----

  /** The environments differ at most in what fails after planning. */
  ghost predicate SameReads(a: Env, b: Env) {
    && a.u == b.u && a.tables == b.tables && a.threshold == b.threshold
    && a.faults.findFails == b.faults.findFails && a.faults.existsFails == b.faults.existsFails
    && a.faults.listFails == b.faults.listFails
  }

  lemma SameRef(a: Env, b: Env, refs: map<string, EntityRef>, c: CandidateEntity)
    requires a.tables.Valid() && SameReads(a, b)
    ensures ResolveRef(a, refs, c) == ResolveRef(b, refs, c)
  {
    hide FindEntityByName;
  }

  lemma {:induction false} SameRelated(a: Env, b: Env, refs: map<string, EntityRef>, related: seq<CandidateEntity>)
    requires a.tables.Valid() && SameReads(a, b)
    ensures ResolveRelated(a, refs, related) == ResolveRelated(b, refs, related)
    decreases |related|
  {
    hide ResolveRef, EntityKey;
    if related != [] {
      var n := |related| - 1;
      SameRelated(a, b, refs, related[..n]);
      if ResolveRelated(a, refs, related[..n]).Ok? {
        SameRef(a, b, ResolveRelated(a, refs, related[..n]).value.refs, related[n]);
      }
    }
  }

  lemma SameSubject(a: Env, b: Env, subject: Option<Entity>, refs: map<string, EntityRef>, c: Candidate)
    requires a.tables.Valid() && SameReads(a, b)
    ensures ResolveSubject(a, refs, subject, c) == ResolveSubject(b, refs, subject, c)
  {
    hide ResolveRef, EntityKey;
    if c.subject.Some? {
      SameRef(a, b, refs, c.subject.value);
    }
  }

  lemma SameNames(a: Env, b: Env, subject: Option<Entity>, refs: map<string, EntityRef>, c: Candidate)
    requires a.tables.Valid() && SameReads(a, b)
    ensures ResolveNames(a, subject, refs, c) == ResolveNames(b, subject, refs, c)
  {
    hide ResolveSubject, ResolveRelated;
    SameSubject(a, b, subject, refs, c);
    if ResolveSubject(a, refs, subject, c).Ok? {
      SameRelated(a, b, ResolveSubject(a, refs, subject, c).value.refs, c.related);
    }
  }

  lemma {:induction false} SameQueue(a: Env, b: Env, edges: map<string, EdgePlan>, refs: map<string, EntityRef>,
                                     subjectKey: string, relatedKeys: seq<string>, kind: string)
    requires SameReads(a, b) && subjectKey in refs && forall k :: k in relatedKeys ==> k in refs
    ensures QueueEdges(a, edges, refs, subjectKey, relatedKeys, kind)
        == QueueEdges(b, edges, refs, subjectKey, relatedKeys, kind)
    decreases |relatedKeys|
  {
    hide RelationshipExists, EdgeKey;
    if relatedKeys != [] {
      SameQueue(a, b, edges, refs, subjectKey, relatedKeys[..|relatedKeys| - 1], kind);
    }
  }

  lemma SameNamed(a: Env, b: Env, plan: Plan, c: Candidate, names: Found)
    requires a.tables.Valid() && SameReads(a, b)
    requires names.keys != [] && forall k :: k in names.keys ==> k in names.refs
    ensures PlanNamed(a, plan, c, names) == PlanNamed(b, plan, c, names)
  {
    hide QueueEdges, ActiveMemories, Decide;
    SameQueue(a, b, plan.edges, names.refs, names.keys[0], names.keys[1..], RelationshipKind(a.u, c, names.keys[1..]));
  }

  lemma SameCandidate(a: Env, b: Env, subject: Option<Entity>, plan: Plan, c: Candidate)
    requires a.tables.Valid() && SameReads(a, b)
    requires subject.Some? ==> EntityKey(a.u, subject.value.name) in plan.refs
    ensures PlanCandidate(a, subject, plan, c) == PlanCandidate(b, subject, plan, c)
  {
    hide ResolveNames, PlanNamed, ValidateCandidate, EntityKey;
    SameNames(a, b, subject, plan.refs, c);
    NamesResolved(a, subject, plan.refs, c);
    if ResolveNames(a, subject, plan.refs, c).Ok? {
      SameNamed(a, b, plan, c, ResolveNames(a, subject, plan.refs, c).value);
    }
  }

  /** What fails after planning does not change the plan. */
  lemma {:induction false} SamePlans(a: Env, b: Env, subject: Option<Entity>, candidates: seq<Candidate>)
    requires a.tables.Valid() && SameReads(a, b)
    ensures BuildPlan(a, subject, candidates) == BuildPlan(b, subject, candidates)
    decreases |candidates|
  {
    hide PlanCandidate, EntityKey;
    if candidates != [] {
      var n := |candidates| - 1;
      SamePlans(a, b, subject, candidates[..n]);
      if BuildPlan(a, subject, candidates[..n]).Ok? {
        SameCandidate(a, b, subject, BuildPlan(a, subject, candidates[..n]).value, candidates[n]);
      }
    }
  }
}
