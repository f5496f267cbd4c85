/** The ingest plan as the service fills it in: one mutable plan, candidates resolved one after another. */
module Planning {
  import opened Types
  import opened Tables
  import opened Text
  import opened Resolution
  import opened Planner

  function KeysOf(refs: seq<EntityRef>): seq<string> {
    seq(|refs|, i requires 0 <= i < |refs| => refs[i].key)
  }

  /** The memories listed so far while planning, by subject and category. */
  type MemoryCache = map<(Id, Category), seq<Memory>>

  ghost predicate CacheOk(env: Env, cache: MemoryCache)
    requires env.tables.Valid()
  {
    forall k :: k in cache ==> !env.faults.listFails(k.0, k.1) && cache[k] == ActiveMemories(env.tables, k.0, k.1)
  }

  ghost predicate Keyed(refs: map<string, EntityRef>) {
    forall k :: k in refs ==> refs[k].key == k
  }

  /** The listed references are entries of the table. */
  ghost predicate Listed(refs: map<string, EntityRef>, listed: seq<EntityRef>) {
    forall i :: 0 <= i < |listed| ==> listed[i].key in refs && refs[listed[i].key] == listed[i]
  }

  class IngestPlan {
    var steps: seq<Step>
    var refs: map<string, EntityRef>
    var edges: map<string, EdgePlan>

    constructor ()
      ensures Plan(steps, refs, edges) == Plan([], map[], map[])
    {
      steps, refs, edges := [], map[], map[];
    }

    // ---- resolving names ----

    method ResolveEntityRef(env: Env, c: CandidateEntity) returns (r: Result<EntityRef>)
      requires env.tables.Valid() && Keyed(refs)
      modifies this`refs
      ensures Keyed(refs)
      ensures match ResolveRef(env, old(refs), c)
              case Ok(refs') => refs == refs' && r == Ok(refs'[EntityKey(env.u, c.name)])
              case Err(error) => refs == old(refs) && r == Err(error)
    {
      hide *;
      RefCases(env, refs, c);
      KeyedUnfold(refs);
      var key := NormalizedText(env.u, c.name);
      if key in refs {
        return Ok(refs[key]);
      }
      if env.faults.findFails(c.name) {
        return Err(StoreFailure("get entity"));
      }
      var found := FindEntityByName(env.u, env.tables, c.name);
      var ref: EntityRef;
      if found.Ok? {
        ref := EntityRef(key, Some(found.value), NO_PARAMS, None);
      } else {
        var kind := c.kind;
        if kind == NoType {
          kind := Concept;
        }
        ref := EntityRef(key, None, CreateEntityParams(env.u.Trim(c.name), kind, None, CREATED_VIA_INGEST), None);
      }
      refs := refs[key := ref];
      KeyedFolds(refs);
      r := Ok(ref);
    }

    method ResolveCandidateSubject(env: Env, subject: Option<Entity>, c: Candidate) returns (r: Result<EntityRef>)
      requires env.tables.Valid() && Keyed(refs)
      requires subject.Some? ==> EntityKey(env.u, subject.value.name) in refs
      modifies this`refs
      ensures Keyed(refs)
      ensures match ResolveSubject(env, old(refs), subject, c)
              case Ok(found) => refs == found.refs && r.Ok? && found.keys == [r.value.key] && Listed(refs, [r.value])
              case Err(error) => r == Err(error)
    {
      hide *;
      SubjectCases(env, refs, subject, c);
      if subject.Some? {
        var key := NormalizedText(env.u, subject.value.name);
        EntryListed(refs, key);
        if c.subject.None? || env.u.EqualFold(env.u.Trim(c.subject.value.name), subject.value.name) {
          return Ok(refs[key]);
        }
      }
      if c.subject.None? || env.u.Trim(c.subject.value.name) == "" {
        return Err(InvalidRequest("candidate subject is required when no explicit subject is provided"));
      }
      r := ResolveEntityRef(env, c.subject.value);
      EntryListed(refs, EntityKey(env.u, c.subject.value.name));
    }

    method ResolveRelatedEntities(env: Env, c: Candidate) returns (r: Result<seq<EntityRef>>)
      requires env.tables.Valid() && Keyed(refs)
      modifies this`refs
      ensures Keyed(refs)
      ensures match ResolveRelated(env, old(refs), c.related)
              case Ok(found) => refs == found.refs && r.Ok? && KeysOf(r.value) == found.keys && Listed(refs, r.value)
              case Err(error) => r == Err(error)
    {
      hide *;
      var result: seq<EntityRef> := [];
      var i := 0;
      NothingRelated(env, refs, c.related);
      while i < |c.related|
        invariant 0 <= i <= |c.related| && Keyed(refs)
        invariant ResolveRelated(env, old(refs), c.related[..i]) == Ok(Found(refs, KeysOf(result)))
        invariant Listed(refs, result)
      {
        var related := c.related[i];
        ghost var before := refs;
        RelatedSnoc(env, old(refs), c.related, i, Found(refs, KeysOf(result)));
        if env.u.Trim(related.name) != "" {
          var ref := ResolveEntityRef(env, related);
          if ref.Err? {
            RelatedFails(env, old(refs), c.related, i + 1);
            return Err(ref.error);
          }
          AppendRef(env, before, related, result);
          result := result + [ref.value];
        }
        i := i + 1;
      }
      assert c.related[..i] == c.related;
      r := Ok(result);
    }

    // ---- queueing edges ----

    method QueueRelationships(env: Env, subject: EntityRef, related: seq<EntityRef>, kind: string)
        returns (reason: string, queued: bool)
      requires Listed(refs, [subject]) && Listed(refs, related)
      modifies this`edges
      ensures subject.key in refs && forall k :: k in KeysOf(related) ==> k in refs
      ensures Queue(edges, queued) == QueueEdges(env, old(edges), refs, subject.key, KeysOf(related), kind)
      ensures reason == if queued then QUEUED else EDGE_EXISTS
    {
      hide *;
      queued := false;
      ListedKeys(refs, [subject]);
      assert [subject][0] == subject;
      ListedKeys(refs, related);
      NothingQueued(env, edges, refs, subject.key, kind);
      var i := 0;
      while i < |related|
        invariant 0 <= i <= |related|
        invariant forall k :: k in KeysOf(related)[..i] ==> k in refs
        invariant Queue(edges, queued) == QueueEdges(env, old(edges), refs, subject.key, KeysOf(related)[..i], kind)
      {
        QueueSnoc(env, old(edges), refs, subject, related, i, kind, Queue(edges, queued));
        var entity := related[i];
        var key := subject.key + "->" + entity.key + ":" + kind;
        if key !in edges && !(subject.existing.Some? && entity.existing.Some?
                              && !env.faults.existsFails(subject.existing.value.id, entity.existing.value.id, kind)
                              && RelationshipExists(env.tables, subject.existing.value.id, entity.existing.value.id,
                                  kind)) {
          edges := edges[key := EdgePlan(key, subject.key, entity.key, kind, None)];
          queued := true;
        }
        i := i + 1;
      }
      assert KeysOf(related)[..i] == KeysOf(related);
      reason := if queued then QUEUED else EDGE_EXISTS;
    }

    // ---- one candidate ----

    /** The subject's memories in the candidate's category, listed at most once. */
    method CachedSubjectMemories(env: Env, cache: MemoryCache, subject: EntityRef, category: Category)
      returns (r: Result<seq<Memory>>, cache': MemoryCache)
      requires env.tables.Valid() && CacheOk(env, cache)
      ensures r == SubjectMemories(env, subject, category) && CacheOk(env, cache')
    {
      hide ActiveMemories;
      cache' := cache;
      if subject.existing.None? {
        return Ok([]), cache';
      }
      var key := (subject.existing.value.id, category);
      if key in cache {
        return Ok(cache[key]), cache';
      }
      if env.faults.listFails(key.0, key.1) {
        return Err(StoreFailure("list active memories")), cache';
      }
      var memories := ActiveMemories(env.tables, key.0, key.1);
      cache' := cache[key := memories];
      r := Ok(memories);
    }

    method PlanOneCandidate(env: Env, subject: Option<Entity>, cache: MemoryCache, c: Candidate)
      returns (r: Result<()>, cache': MemoryCache)
      requires env.tables.Valid() && Keyed(refs) && CacheOk(env, cache)
      requires subject.Some? ==> EntityKey(env.u, subject.value.name) in refs
      modifies this
      ensures Keyed(refs) && CacheOk(env, cache')
      ensures match PlanCandidate(env, subject, old(Plan(steps, refs, edges)), c)
              case Ok(plan) => r.Ok? && Plan(steps, refs, edges) == plan
              case Err(error) => r == Err(error)
    {
      hide *;
      cache' := cache;
      var invalid := ValidateCandidate(env.u, c);
      CandidateCases(env, subject, Plan(steps, refs, edges), c);
      if invalid.Some? {
        return Err(invalid.value), cache';
      }
      var subjectRef := ResolveCandidateSubject(env, subject, c);
      if subjectRef.Err? {
        return Err(subjectRef.error), cache';
      }
      ghost var subjectRefs := refs;
      var relatedRefs := ResolveRelatedEntities(env, c);
      if relatedRefs.Err? {
        return Err(relatedRefs.error), cache';
      }
      ListedStill(env, subjectRefs, c.related, subjectRef.value);
      var relatedKeys := KeysOf(relatedRefs.value);
      var relationshipType := env.u.Trim(c.relationshipType);
      if relationshipType == "" && c.category == RelationshipFact && |relatedRefs.value| > 0 {
        relationshipType := "related_to";
      }
      var step := Step(c, Decision(NoOpAction, None, ""), None, subjectRef.value.key, subjectRef.value.existing,
                       relatedKeys, relationshipType, [], None, {});
      if subjectRef.value.existing.Some? {
        step := step.(subjectId := Some(subjectRef.value.existing.value.id));
      }
      KeysResolved(refs, subjectRef.value, relatedRefs.value);
      PlanNamedCases(env, old(Plan(steps, refs, edges)), c, subjectRef.value, relatedRefs.value, refs,
          relationshipType, step);

      if c.category == RelationshipFact && relationshipType != "" && |relatedRefs.value| > 0 {
        var reason, queued := QueueRelationships(env, subjectRef.value, relatedRefs.value, relationshipType);
        step := step.(decision := Decision(MergeAction, None, reason));
        steps := steps + [step];
        return Ok(()), cache';
      }
      var existing;
      existing, cache' := CachedSubjectMemories(env, cache, subjectRef.value, c.category);
      if existing.Err? {
        return Err(existing.error), cache';
      }
      var d := ResolveMemoryAction(env.u, c, existing.value, env.threshold);
      step := step.(decision := d);
      if relationshipType != "" && |relatedRefs.value| > 0 {
        var _, _ := QueueRelationships(env, subjectRef.value, relatedRefs.value, relationshipType);
      }
      steps := steps + [step];
      r := Ok(());
    }

    // ---- the whole plan ----

    method BuildIngestPlan(env: Env, subject: Option<Entity>, candidates: seq<Candidate>) returns (r: Result<()>)
      requires env.tables.Valid()
      modifies this
      ensures match BuildPlan(env, subject, candidates)
              case Ok(plan) => r.Ok? && Plan(steps, refs, edges) == plan
              case Err(error) => r == Err(error)
    {
      hide *;
      steps, refs, edges := [], map[], map[];
      var cache: MemoryCache := map[];
      if subject.Some? {
        var key := NormalizedText(env.u, subject.value.name);
        refs := refs[key := EntityRef(key, subject, NO_PARAMS, None)];
      }
      StartsKeyed(env, subject, candidates);
      var i := 0;
      while i < |candidates|
        invariant 0 <= i <= |candidates| && Keyed(refs) && CacheOk(env, cache)
        invariant subject.Some? ==> EntityKey(env.u, subject.value.name) in refs
        invariant BuildPlan(env, subject, candidates[..i]) == Ok(Plan(steps, refs, edges))
      {
        BuildSnoc(env, subject, candidates, i, Plan(steps, refs, edges));
        var done;
        done, cache := PlanOneCandidate(env, subject, cache, candidates[i]);
        if done.Err? {
          BuildFails(env, subject, candidates, i + 1);
          return Err(done.error);
        }
        i := i + 1;
      }
      assert candidates[..i] == candidates;
      r := Ok(());
    }
  }

  lemma StartsKeyed(env: Env, subject: Option<Entity>, candidates: seq<Candidate>)
    requires env.tables.Valid()
    ensures CacheOk(env, map[])
    ensures var refs: map<string, EntityRef> :=
              if subject.None? then map[]
              else map[env.u.Normalized(subject.value.name) := EntityRef(env.u.Normalized(subject.value.name),
                  subject, NO_PARAMS, None)];
            && Keyed(refs) && (subject.Some? ==> EntityKey(env.u, subject.value.name) in refs)
            && BuildPlan(env, subject, candidates[..0]) == Ok(Plan([], refs, map[]))
  {
    assert subject.Some? ==> EntityKey(env.u, subject.value.name) == env.u.Normalized(subject.value.name);
  }

  lemma BuildSnoc(env: Env, subject: Option<Entity>, candidates: seq<Candidate>, i: nat, plan: Plan)
    requires env.tables.Valid() && i < |candidates| && BuildPlan(env, subject, candidates[..i]) == Ok(plan)
    requires subject.Some? ==> EntityKey(env.u, subject.value.name) in plan.refs
    ensures var next := PlanCandidate(env, subject, plan, candidates[i]);
            && BuildPlan(env, subject, candidates[..i + 1]) == next
            && (next.Ok? && subject.Some? ==> EntityKey(env.u, subject.value.name) in next.value.refs)
  {
    PlanCandidateExtends(env, subject, plan, candidates[i]);
    hide PlanCandidate, EntityKey;
    assert candidates[..i + 1][..i] == candidates[..i];
  }

  lemma {:induction false} BuildFails(env: Env, subject: Option<Entity>, candidates: seq<Candidate>, i: nat)
    requires env.tables.Valid() && i <= |candidates| && BuildPlan(env, subject, candidates[..i]).Err?
    ensures BuildPlan(env, subject, candidates) == BuildPlan(env, subject, candidates[..i])
    decreases |candidates|
  {
    hide PlanCandidate, EntityKey;
    if i == |candidates| {
      assert candidates[..i] == candidates;
    } else {
      assert candidates[..|candidates| - 1][..i] == candidates[..i];
      BuildFails(env, subject, candidates[..|candidates| - 1], i);
    }
  }

  lemma CandidateCases(env: Env, subject: Option<Entity>, plan: Plan, c: Candidate)
    requires env.tables.Valid() && (subject.Some? ==> EntityKey(env.u, subject.value.name) in plan.refs)
    ensures var invalid := ValidateCandidate(env.u, c);
            var s := ResolveSubject(env, plan.refs, subject, c);
            if invalid.Some? then PlanCandidate(env, subject, plan, c) == Err(invalid.value)
            else if s.Err? then PlanCandidate(env, subject, plan, c) == Err(s.error)
            else
              var related := ResolveRelated(env, s.value.refs, c.related);
              if related.Err? then PlanCandidate(env, subject, plan, c) == Err(related.error)
              else
                var names := Found(related.value.refs, s.value.keys + related.value.keys);
                && names.keys != [] && (forall k :: k in names.keys ==> k in names.refs)
                && PlanCandidate(env, subject, plan, c) == PlanNamed(env, plan, c, names)
  {
    NamesResolved(env, subject, plan.refs, c);
    hide ValidateCandidate, ResolveSubject, ResolveRelated, PlanNamed;
  }

  /** Resolving the related names keeps the subject's reference. */
  lemma ListedStill(env: Env, refs: map<string, EntityRef>, related: seq<CandidateEntity>, subject: EntityRef)
    requires env.tables.Valid() && Listed(refs, [subject]) && ResolveRelated(env, refs, related).Ok?
    ensures Listed(ResolveRelated(env, refs, related).value.refs, [subject])
  {
    assert [subject][0] == subject;
    RelatedResolved(env, refs, related);
    hide ResolveRelated;
  }

  lemma KeysResolved(refs: map<string, EntityRef>, subject: EntityRef, related: seq<EntityRef>)
    requires Listed(refs, [subject]) && Listed(refs, related)
    ensures subject.key in refs && forall k :: k in [subject.key] + KeysOf(related) ==> k in refs
  {
    assert [subject][0] == subject;
  }

  /** The rest of the candidate's planning, by the branch taken. */
  lemma PlanNamedCases(env: Env, plan: Plan, c: Candidate, subject: EntityRef, related: seq<EntityRef>,
                       refs: map<string, EntityRef>, kind: string, step: Step)
    requires env.tables.Valid() && Listed(refs, [subject]) && Listed(refs, related)
    requires forall k :: k in [subject.key] + KeysOf(related) ==> k in refs
    requires kind == (var trimmed := env.u.Trim(c.relationshipType);
                      if trimmed == "" && c.category == RelationshipFact
                          && |related| > 0 then "related_to" else trimmed)
    requires step
        == Step(c, Decision(NoOpAction, None, ""),
            if subject.existing.Some? then Some(subject.existing.value.id) else None,
                          subject.key, subject.existing, KeysOf(related), kind, [], None, {})
    ensures subject.key in refs && forall k :: k in KeysOf(related) ==> k in refs
    ensures var q := if kind != "" && |related| > 0
        then QueueEdges(env, plan.edges, refs, subject.key, KeysOf(related), kind)
                     else Queue(plan.edges, false);
            PlanNamed(env, plan, c, Found(refs, [subject.key] + KeysOf(related)))
            == if c.category == RelationshipFact && kind != "" && |related| > 0
               then
                 var merged := Decision(MergeAction, None, if q.queued then QUEUED else EDGE_EXISTS);
                 Ok(Plan(plan.steps + [step.(decision := merged)], refs, q.edges))
               else match SubjectMemories(env, subject, c.category)
                    case Err(error) => Err(error)
                    case Ok(existing) =>
                      var decided := Decide(env.u, c, existing, env.threshold);
                      Ok(Plan(plan.steps + [step.(decision := decided)], refs, q.edges))
  {
    hide QueueEdges, SubjectMemories, Decide;
    var keys := [subject.key] + KeysOf(related);
    assert keys[0] == subject.key && keys[1..] == KeysOf(related);
    assert [subject][0] == subject && refs[subject.key] == subject;
    assert RelationshipKind(env.u, c, KeysOf(related)) == kind;
  }

  lemma ListedKeys(refs: map<string, EntityRef>, listed: seq<EntityRef>)
    requires Listed(refs, listed)
    ensures |KeysOf(listed)| == |listed|
    ensures forall i :: 0 <= i < |listed| ==>
        listed[i].key in refs && KeysOf(listed)[i] == listed[i].key && refs[listed[i].key] == listed[i]
    ensures forall k :: k in KeysOf(listed) ==> k in refs
  {
  }

  lemma NothingQueued(env: Env, edges: map<string, EdgePlan>, refs: map<string, EntityRef>, subjectKey: string,
      kind: string)
    requires subjectKey in refs
    ensures QueueEdges(env, edges, refs, subjectKey, [], kind) == Queue(edges, false)
  {
  }

  lemma QueueSnoc(env: Env, edges: map<string, EdgePlan>, refs: map<string, EntityRef>,
                  subject: EntityRef, related: seq<EntityRef>, i: nat, kind: string, q: Queue)
    requires Listed(refs, [subject]) && Listed(refs, related) && i < |related| == |KeysOf(related)|
    requires subject.key in refs && forall k :: k in KeysOf(related) ==> k in refs
    requires forall k :: k in KeysOf(related)[..i] ==> k in refs
    requires q == QueueEdges(env, edges, refs, subject.key, KeysOf(related)[..i], kind)
    ensures forall k :: k in KeysOf(related)[..i + 1] ==> k in refs
    ensures var key := subject.key + "->" + related[i].key + ":" + kind;
            var stored := && subject.existing.Some? && related[i].existing.Some?
                          && !env.faults.existsFails(subject.existing.value.id, related[i].existing.value.id, kind)
                          && RelationshipExists(env.tables, subject.existing.value.id, related[i].existing.value.id,
                              kind);
            QueueEdges(env, edges, refs, subject.key, KeysOf(related)[..i + 1], kind)
            == if key in q.edges || stored then q
               else Queue(q.edges[key := EdgePlan(key, subject.key, related[i].key, kind, None)], true)
  {
    hide RelationshipExists;
    assert [subject][0] == subject;
    assert KeysOf(related)[..i + 1][..i] == KeysOf(related)[..i];
    assert KeysOf(related)[..i + 1][i] == related[i].key;
  }

  lemma EntryListed(refs: map<string, EntityRef>, key: string)
    requires Keyed(refs)
    ensures key in refs ==> refs[key].key == key && Listed(refs, [refs[key]])
  {
  }

  lemma SubjectCases(env: Env, refs: map<string, EntityRef>, subject: Option<Entity>, c: Candidate)
    requires env.tables.Valid()
    ensures subject.Some? ==> env.u.Normalized(subject.value.name) == EntityKey(env.u, subject.value.name)
    ensures ResolveSubject(env, refs, subject, c)
            == if subject.Some?
                && (c.subject.None? || env.u.EqualFold(env.u.Trim(c.subject.value.name), subject.value.name))
               then Ok(Found(refs, [EntityKey(env.u, subject.value.name)]))
               else if c.subject.None? || env.u.Trim(c.subject.value.name) == ""
               then Err(InvalidRequest("candidate subject is required when no explicit subject is provided"))
               else match ResolveRef(env, refs, c.subject.value)
                    case Ok(refs') => Ok(Found(refs', [EntityKey(env.u, c.subject.value.name)]))
                    case Err(error) => Err(error)
  {
    hide ResolveRef;
    if subject.Some? {
      KeyIs(env.u, subject.value.name);
    }
    hide EntityKey;
  }

  lemma NothingRelated(env: Env, refs: map<string, EntityRef>, related: seq<CandidateEntity>)
    requires env.tables.Valid()
    ensures KeysOf([]) == [] && Listed(refs, [])
    ensures ResolveRelated(env, refs, related[..0]) == Ok(Found(refs, KeysOf([])))
  {
  }

  /** Resolving one more name keeps the listed references and adds one. */
  lemma AppendRef(env: Env, refs: map<string, EntityRef>, c: CandidateEntity, listed: seq<EntityRef>)
    requires env.tables.Valid() && Keyed(refs) && Listed(refs, listed) && ResolveRef(env, refs, c).Ok?
    ensures var refs' := ResolveRef(env, refs, c).value;
            var ref := refs'[EntityKey(env.u, c.name)];
            && Listed(refs', listed + [ref])
            && KeysOf(listed + [ref]) == KeysOf(listed) + [EntityKey(env.u, c.name)]
  {
    hide EntityKey, FindEntityByName, CreateParams;
    var refs' := ResolveRef(env, refs, c).value;
    var ref := refs'[EntityKey(env.u, c.name)];
    assert ref.key == EntityKey(env.u, c.name);
    assert KeysOf(listed + [ref]) == KeysOf(listed) + [ref.key];
  }

  lemma RefCases(env: Env, refs: map<string, EntityRef>, c: CandidateEntity)
    requires env.tables.Valid()
    ensures env.u.Normalized(c.name) == EntityKey(env.u, c.name)
    ensures var key, found := EntityKey(env.u, c.name), FindEntityByName(env.u, env.tables, c.name);
            ResolveRef(env, refs, c)
            == if key in refs then Ok(refs)
               else if env.faults.findFails(c.name) then Err(StoreFailure("get entity"))
               else if found.Ok? then Ok(refs[key := EntityRef(key, Some(found.value), NO_PARAMS, None)])
               else
                 var kind := if c.kind.NoType? then Concept else c.kind;
                 var p := CreateEntityParams(env.u.Trim(c.name), kind, None, CREATED_VIA_INGEST);
                 Ok(refs[key := EntityRef(key, None, p, None)])
  {
    hide FindEntityByName;
    hide EntityKey;
    assert EntityKey(env.u, c.name) == env.u.Normalized(c.name) by {
      KeyIs(env.u, c.name);
    }
  }

  lemma KeyIs(u: Text, name: string)
    ensures EntityKey(u, name) == u.Normalized(name)
  {
  }

  lemma KeyedUnfold(refs: map<string, EntityRef>)
    requires Keyed(refs)
    ensures forall k :: k in refs ==> refs[k].key == k
  {
  }

  lemma KeyedFolds(refs: map<string, EntityRef>)
    requires forall k :: k in refs ==> refs[k].key == k
    ensures Keyed(refs)
  {
  }

  lemma RelatedSnoc(env: Env, refs: map<string, EntityRef>, related: seq<CandidateEntity>, i: nat, found: Found)
    requires env.tables.Valid() && i < |related| && ResolveRelated(env, refs, related[..i]) == Ok(found)
    ensures ResolveRelated(env, refs, related[..i + 1])
            == if env.u.Trim(related[i].name) == "" then Ok(found)
               else match ResolveRef(env, found.refs, related[i])
                    case Ok(refs') => Ok(Found(refs', found.keys + [EntityKey(env.u, related[i].name)]))
                    case Err(error) => Err(error)
  {
    hide ResolveRef;
    assert related[..i + 1][..i] == related[..i];
  }

  lemma {:induction false} RelatedFails(env: Env, refs: map<string, EntityRef>, related: seq<CandidateEntity>, i: nat)
    requires env.tables.Valid() && i <= |related| && ResolveRelated(env, refs, related[..i]).Err?
    ensures ResolveRelated(env, refs, related) == ResolveRelated(env, refs, related[..i])
    decreases |related|
  {
    if i == |related| {
      assert related[..i] == related;
    } else {
      assert related[..|related| - 1][..i] == related[..i];
      RelatedFails(env, refs, related[..|related| - 1], i);
    }
  }
}
