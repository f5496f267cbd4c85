/** Ingesting the same candidate twice in a row. */
module RepeatIngest {
  import opened Types
  import opened Ordering
  import opened Tables
  import opened Text
  import opened Trigram
  import opened Resolution
  import opened Planner
  import opened PlanProperties
  import opened Commit
  import opened CommitEntities
  import opened CommitEdges
  import opened CommitMemories
  import opened CommitProperties

  ghost predicate ReadsSucceed(env: Env) {
    && (forall name :: !env.faults.findFails(name))
    && (forall a, b, kind :: !env.faults.existsFails(a, b, kind))
    && (forall id, category :: !env.faults.listFails(id, category))
  }

  // ---- the names a candidate mentions ----

  function Named(u: Text, related: seq<CandidateEntity>): seq<CandidateEntity> {
    if related == [] then []
    else
      var n := |related| - 1;
      Named(u, related[..n]) + if u.Trim(related[n].name) == "" then [] else [related[n]]
  }

  /** The entities looked up by name, in order. */
  function Mentions(u: Text, subject: Option<Entity>, c: Candidate): seq<CandidateEntity> {
    SubjectMention(u, subject, c) + Named(u, c.related)
  }

  function SubjectMention(u: Text, subject: Option<Entity>, c: Candidate): seq<CandidateEntity> {
    if (subject.Some? && NamesSubject(u, subject.value, c)) || c.subject.None? then [] else [c.subject.value]
  }

  function KeysOf(u: Text, mentions: seq<CandidateEntity>): seq<string> {
    seq(|mentions|, i requires 0 <= i < |mentions| => EntityKey(u, mentions[i].name))
  }

  /** The key of a candidate's subject, when it has one. */
  predicate HasSubject(u: Text, subject: Option<Entity>, c: Candidate) {
    (subject.Some? && NamesSubject(u, subject.value, c)) || (c.subject.Some? && u.Trim(c.subject.value.name) != "")
  }

  function SubjectKey(u: Text, subject: Option<Entity>, c: Candidate): string
    requires HasSubject(u, subject, c)
  {
    if subject.Some? && NamesSubject(u, subject.value, c) then EntityKey(u, subject.value.name)
    else EntityKey(u, c.subject.value.name)
  }

  /** The references after a number of lookups, none of which fails. */
  function RefsAfter(env: Env, refs: map<string, EntityRef>, mentions: seq<CandidateEntity>): (r: map<string,
      EntityRef>)
    requires env.tables.Valid() && ReadsSucceed(env)
  {
    if mentions == [] then refs
    else
      var n := |mentions| - 1;
      ResolveRef(env, RefsAfter(env, refs, mentions[..n]), mentions[n]).value
  }

  lemma {:induction false} RelatedAfter(env: Env, refs: map<string, EntityRef>, before: seq<CandidateEntity>,
      related: seq<CandidateEntity>)
    requires env.tables.Valid() && ReadsSucceed(env)
    ensures ResolveRelated(env, RefsAfter(env, refs, before), related)
            == Ok(Found(RefsAfter(env, refs, before + Named(env.u, related)), KeysOf(env.u, Named(env.u, related))))
    decreases |related|
  {
    hide ReadsSucceed;
    hide ResolveRef;
    hide EntityKey;
    hide KeysOf;
    NoKeys(env.u);
    var named := Named(env.u, related);
    if related == [] {
      assert before + named == before;
    } else {
      var n := |related| - 1;
      var earlier := Named(env.u, related[..n]);
      RelatedAfter(env, refs, before, related[..n]);
      if env.u.Trim(related[n].name) != "" {
        LookupSucceeds(env, RefsAfter(env, refs, before + earlier), related[n]);
        assert named == earlier + [related[n]];
        assert (before + named)[..|before + named| - 1] == before + earlier;
        KeysSnoc(env.u, earlier, related[n]);
      } else {
        assert named == earlier;
      }
    }
  }

  lemma NoKeys(u: Text)
    ensures KeysOf(u, []) == []
  {
  }

  lemma KeysSnoc(u: Text, mentions: seq<CandidateEntity>, m: CandidateEntity)
    ensures KeysOf(u, mentions + [m]) == KeysOf(u, mentions) + [EntityKey(u, m.name)]
  {
    hide EntityKey;
  }

  lemma LookupSucceeds(env: Env, refs: map<string, EntityRef>, c: CandidateEntity)
    requires env.tables.Valid() && ReadsSucceed(env)
    ensures ResolveRef(env, refs, c).Ok? && NewRef(env, c).Ok?
  {
  }

  /** With no failed read, whether and how the names resolve depends on the store only through the lookups. */
  lemma NamesAfter(env: Env, subject: Option<Entity>, refs: map<string, EntityRef>, c: Candidate)
    requires env.tables.Valid() && ReadsSucceed(env)
    ensures ResolveNames(env, subject, refs, c).Ok? <==> HasSubject(env.u, subject, c)
    ensures HasSubject(env.u, subject, c) ==>
              ResolveNames(env, subject, refs, c)
              == Ok(Found(RefsAfter(env, refs, Mentions(env.u, subject, c)),
                          [SubjectKey(env.u, subject, c)] + KeysOf(env.u, Named(env.u, c.related))))
  {
    hide ReadsSucceed;
    hide ResolveRef;
    hide EntityKey;
    hide RefsAfter, Mentions, SubjectMention, Named, KeysOf, ResolveSubject, ResolveRelated, SubjectKey, HasSubject;
    SubjectAfter(env, subject, refs, c);
    if HasSubject(env.u, subject, c) {
      RelatedAfter(env, refs, SubjectMention(env.u, subject, c), c.related);
      MentionsAre(env.u, subject, c);
    }
  }

  lemma MentionsAre(u: Text, subject: Option<Entity>, c: Candidate)
    ensures Mentions(u, subject, c) == SubjectMention(u, subject, c) + Named(u, c.related)
  {
  }

  lemma SubjectAfter(env: Env, subject: Option<Entity>, refs: map<string, EntityRef>, c: Candidate)
    requires env.tables.Valid() && ReadsSucceed(env)
    ensures ResolveSubject(env, refs, subject, c).Ok? <==> HasSubject(env.u, subject, c)
    ensures HasSubject(env.u, subject, c) ==>
              ResolveSubject(env, refs, subject, c)
              == Ok(Found(RefsAfter(env, refs, SubjectMention(env.u, subject, c)), [SubjectKey(env.u, subject, c)]))
  {
    hide ReadsSucceed, ResolveRef, EntityKey;
    if c.subject.Some? {
      var first := [c.subject.value];
      LookupSucceeds(env, refs, c.subject.value);
      assert first[..0] == [];
      assert RefsAfter(env, refs, first) == ResolveRef(env, refs, c.subject.value).value;
    }
  }

  // ---- the second lookup of a name ----

  /** A store in which the entities of a commit, and only they, joined those of the planning store. */
  ghost predicate Grown(u: Text, t: Tables, t': Tables, final: map<string, EntityRef>) {
    && t.Valid() && t'.Valid()
    && (forall i :: i in t.entities ==> i in t'.entities && t'.entities[i] == t.entities[i])
    && (forall i :: i in t'.entities && i !in t.entities ==> exists k :: k in final && final[k].createdId == Some(i))
    && (forall k :: k in final ==> FinalRef(u, t, t', k, final[k]))
  }

  /** A reference after the commit. */
  ghost predicate FinalRef(u: Text, t: Tables, t': Tables, key: string, ref: EntityRef) {
    && ref.existing.Some? && ref.existing.value.id in t'.entities
        && t'.entities[ref.existing.value.id] == ref.existing.value
    && EntityKey(u, ref.existing.value.name) == key
    && (ref.createdId.Some? ==> ref.createdId.value == ref.existing.value.id && ref.createdId.value !in t.entities)
    && (ref.createdId.None? ==> ref.existing.value.id in t.entities)
  }

  /** How a planned reference looks after the commit. */
  ghost predicate Became(planned: EntityRef, final: EntityRef) {
    && (planned.existing.Some? ==> final.existing == planned.existing && final.createdId.None?)
    && (planned.existing.None? ==>
        final.createdId.Some? && final.existing.Some? && final.existing.value.name == planned.create.name)
  }

  /** A name found before is found again, and the same entity is returned. */
  lemma FoundAgain(u: Text, t: Tables, t': Tables, final: map<string, EntityRef>, name: string)
    requires u.Valid() && Grown(u, t, t', final) && FindEntityByName(u, t, name).Ok?
    requires EntityKey(u, name) in final
        && final[EntityKey(u, name)].existing == Some(FindEntityByName(u, t, name).value)
    requires final[EntityKey(u, name)].createdId.None?
    ensures FindEntityByName(u, t', name) == FindEntityByName(u, t, name)
  {
    hide *;
    GrownValid(u, t, t', final);
    OldMatches(u, t, t', final, name);
    SameFirst(u, t, t', name);
  }

  lemma GrownValid(u: Text, t: Tables, t': Tables, final: map<string, EntityRef>)
    requires Grown(u, t, t', final)
    ensures t.Valid() && t'.Valid()
  {
  }

  lemma SameFirst(u: Text, t: Tables, t': Tables, name: string)
    requires t.Valid() && t'.Valid() && FindEntityByName(u, t, name).Ok?
    requires NameMatches(u, t', name) == NameMatches(u, t, name)
    requires forall i :: i in NameMatches(u, t, name) ==>
        i in t.entities && i in t'.entities && t'.entities[i] == t.entities[i]
    ensures FindEntityByName(u, t', name) == FindEntityByName(u, t, name)
  {
    hide *;
    OldestIsOne(FindEntityByName(u, t, name).value, FindEntityByName(u, t', name).value);
  }

  lemma OldestIsOne(a: Entity, b: Entity)
    requires Before(OldestFirst(a), OldestFirst(b)) && Before(OldestFirst(b), OldestFirst(a))
    ensures a.id == b.id
  {
  }

  lemma OldMatches(u: Text, t: Tables, t': Tables, final: map<string, EntityRef>, name: string)
    requires u.Valid() && Grown(u, t, t', final)
    requires EntityKey(u, name) in final && final[EntityKey(u, name)].createdId.None?
    ensures NameMatches(u, t', name) == NameMatches(u, t, name)
    ensures forall i :: i in NameMatches(u, t, name) ==>
        i in t.entities && i in t'.entities && t'.entities[i] == t.entities[i]
  {
    forall i | i in NameMatches(u, t', name)
      ensures i in t.entities
    {
      if i !in t.entities {
        Newcomer(u, t, t', final, i);
      }
    }
  }

  /** An entity that joined is the one bound to the key of its name. */
  lemma Newcomer(u: Text, t: Tables, t': Tables, final: map<string, EntityRef>, i: Id)
    requires Grown(u, t, t', final) && i in t'.entities && i !in t.entities
    ensures var k := EntityKey(u, t'.entities[i].name);
            k in final && final[k].createdId == Some(i) && final[k].existing.value.id == i
  {
    hide EntityKey;
    var k :| k in final && final[k].createdId == Some(i);
    assert FinalRef(u, t, t', k, final[k]);
  }

  /** A name that was not found now finds exactly the entity created for it, if trimming the name does not
      change how the database compares it; otherwise it is again not found. */
  lemma CreatedFound(u: Text, t: Tables, t': Tables, final: map<string, EntityRef>, name: string)
    requires u.Valid() && Grown(u, t, t', final) && FindEntityByName(u, t, name).Err?
    requires EntityKey(u, name) in final && final[EntityKey(u, name)].createdId.Some?
    requires final[EntityKey(u, name)].existing.value.name == u.Trim(name)
    ensures var r := FindEntityByName(u, t', name);
            if u.sqlLower(u.Trim(name)) == u.sqlLower(name) then r == Ok(final[EntityKey(u, name)].existing.value)
                else r.Err?
  {
    var key := EntityKey(u, name);
    var e := final[key].existing.value;
    assert FinalRef(u, t, t', key, final[key]);
    forall i | i in NameMatches(u, t', name)
      ensures i == e.id
    {
      assert i !in NameMatches(u, t, name);
      Newcomer(u, t, t', final, i);
    }
    if u.sqlLower(u.Trim(name)) == u.sqlLower(name) {
      assert e.id in NameMatches(u, t', name);
    }
  }

  // ---- replaying the lookups ----

  /** No earlier mention, and not the explicit subject, has this mention's key. */
  predicate FirstMention(u: Text, subject: Option<Entity>, mentions: seq<CandidateEntity>, j: nat)
    requires j < |mentions|
  {
    && (subject.Some? ==> EntityKey(u, subject.value.name) != EntityKey(u, mentions[j].name))
    && forall i :: 0 <= i < j ==> EntityKey(u, mentions[i].name) != EntityKey(u, mentions[j].name)
  }

  /** A first mention of an unknown entity whose name reads differently to the database once trimmed. */
  predicate Unstable(u: Text, t: Tables, subject: Option<Entity>, mentions: seq<CandidateEntity>, j: nat)
    requires j < |mentions|
  {
    && FirstMention(u, subject, mentions, j)
    && NameMatches(u, t, mentions[j].name) == {}
    && u.sqlLower(u.Trim(mentions[j].name)) != u.sqlLower(mentions[j].name)
  }

  ghost predicate UnstableKey(u: Text, t: Tables, subject: Option<Entity>, mentions: seq<CandidateEntity>, k: string) {
    exists j :: 0 <= j < |mentions| && EntityKey(u, mentions[j].name) == k && Unstable(u, t, subject, mentions, j)
  }

  ghost predicate MentionedKey(u: Text, subject: Option<Entity>, mentions: seq<CandidateEntity>, k: string) {
    (subject.Some? && EntityKey(u, subject.value.name) == k)
    || exists j :: 0 <= j < |mentions| && EntityKey(u, mentions[j].name) == k
  }

  /** The second run's references: those of the first run after its commit, except that unstable names are
      unknown again. */
  ghost predicate Replayed(env: Env, subject: Option<Entity>, mentions: seq<CandidateEntity>,
                           final: map<string, EntityRef>, r1: map<string, EntityRef>, r2: map<string, EntityRef>) {
    && r1.Keys == r2.Keys
    && (forall k :: k in r1 <==> MentionedKey(env.u, subject, mentions, k))
    && (forall k :: k in r2 ==> k in final)
    && (forall k :: k in r2 ==> if UnstableKey(env.u, env.tables, subject, mentions, k) then r2[k].existing.None?
                                else r2[k].existing == final[k].existing)
  }

  lemma MentionSnoc(u: Text, t: Tables, subject: Option<Entity>, mentions: seq<CandidateEntity>, m: CandidateEntity)
    ensures forall k :: MentionedKey(u, subject, mentions + [m], k) <==>
        MentionedKey(u, subject, mentions, k) || k == EntityKey(u, m.name)
    ensures forall k :: UnstableKey(u, t, subject, mentions + [m], k) <==>
                          (|| UnstableKey(u, t, subject, mentions, k)
                           || (k == EntityKey(u, m.name) && !MentionedKey(u, subject, mentions, k)
                               && NameMatches(u, t, m.name) == {} && u.sqlLower(u.Trim(m.name)) != u.sqlLower(m.name)))
  {
    hide EntityKey;
    hide NameMatches;
    var more := mentions + [m];
    forall j | 0 <= j < |mentions|
      ensures Unstable(u, t, subject, more, j) <==> Unstable(u, t, subject, mentions, j)
    {
      assert forall i :: 0 <= i <= j ==> more[i] == mentions[i];
    }
    forall k
      ensures MentionedKey(u, subject, more, k) <==> MentionedKey(u, subject, mentions, k) || k == EntityKey(u, m.name)
    {
      assert more[|mentions|] == m;
      if j :| 0 <= j < |mentions| && EntityKey(u, mentions[j].name) == k {
        assert more[j] == mentions[j];
      }
    }
    forall k
      ensures UnstableKey(u, t, subject, more, k) <==>
                (|| UnstableKey(u, t, subject, mentions, k)
                 || (k == EntityKey(u, m.name) && !MentionedKey(u, subject, mentions, k)
                     && NameMatches(u, t, m.name) == {} && u.sqlLower(u.Trim(m.name)) != u.sqlLower(m.name)))
    {
      LastUnstable(u, t, subject, mentions, m);
      if j :| 0 <= j < |mentions| && EntityKey(u, mentions[j].name) == k && Unstable(u, t, subject, mentions, j) {
        assert more[j] == mentions[j];
      }
    }
  }

  lemma UnstableIsMentioned(u: Text, t: Tables, subject: Option<Entity>, mentions: seq<CandidateEntity>, k: string)
    ensures UnstableKey(u, t, subject, mentions, k) ==> MentionedKey(u, subject, mentions, k)
  {
    hide EntityKey;
    hide Unstable;
  }

  lemma LastUnstable(u: Text, t: Tables, subject: Option<Entity>, mentions: seq<CandidateEntity>, m: CandidateEntity)
    ensures Unstable(u, t, subject, mentions + [m], |mentions|) <==>
              && !MentionedKey(u, subject, mentions, EntityKey(u, m.name))
              && NameMatches(u, t, m.name) == {} && u.sqlLower(u.Trim(m.name)) != u.sqlLower(m.name)
  {
    hide EntityKey;
    hide NameMatches;
    var more := mentions + [m];
    assert more[|mentions|] == m;
    assert forall i :: 0 <= i < |mentions| ==> more[i] == mentions[i];
  }

  /** One more lookup, replayed. */
  lemma ReplayOne(env: Env, env2: Env, subject: Option<Entity>, mentions: seq<CandidateEntity>, m: CandidateEntity,
                  final: map<string, EntityRef>, r1: map<string, EntityRef>, r2: map<string, EntityRef>)
    requires env.Valid() && env2.Valid() && env2.u == env.u && ReadsSucceed(env) && ReadsSucceed(env2)
    requires Grown(env.u, env.tables, env2.tables, final)
    requires Replayed(env, subject, mentions, final, r1, r2)
    requires EntityKey(env.u, m.name) in final
    requires EntityKey(env.u, m.name) !in r1 && NewRef(env, m).Ok? ==>
        Became(NewRef(env, m).value, final[EntityKey(env.u, m.name)])
    ensures ResolveRef(env, r1, m).Ok? && ResolveRef(env2, r2, m).Ok?
    ensures Replayed(env, subject, mentions + [m], final, ResolveRef(env, r1, m).value, ResolveRef(env2, r2, m).value)
  {
    hide *;
    EnvUnfold(env);
    EnvUnfold(env2);
    LookupSucceeds(env, r1, m);
    LookupSucceeds(env2, r2, m);
    ResolveCases(env, r1, m);
    ResolveCases(env2, r2, m);
    SameKeys(env, subject, mentions, final, r1, r2);
    if EntityKey(env.u, m.name) !in r1 {
      SecondLookup(env, env2, m, final);
    }
    ReplayedNext(env, subject, mentions, m, final, r1, r2, ResolveRef(env, r1, m).value, ResolveRef(env2, r2, m).value);
  }

  lemma SameKeys(env: Env, subject: Option<Entity>, mentions: seq<CandidateEntity>,
                 final: map<string, EntityRef>, r1: map<string, EntityRef>, r2: map<string, EntityRef>)
    requires Replayed(env, subject, mentions, final, r1, r2)
    ensures r1.Keys == r2.Keys
  {
  }

  lemma ResolveCases(env: Env, refs: map<string, EntityRef>, m: CandidateEntity)
    requires env.tables.Valid() && NewRef(env, m).Ok?
    ensures ResolveRef(env, refs, m)
            == Ok(if EntityKey(env.u, m.name) in refs then refs
                else refs[EntityKey(env.u, m.name) := NewRef(env, m).value])
  {
  }

  lemma ReplayedNext(env: Env, subject: Option<Entity>, mentions: seq<CandidateEntity>, m: CandidateEntity,
                     final: map<string, EntityRef>, r1: map<string, EntityRef>, r2: map<string, EntityRef>,
                     r1': map<string, EntityRef>, r2': map<string, EntityRef>)
    requires Replayed(env, subject, mentions, final, r1, r2) && EntityKey(env.u, m.name) in final
    requires EntityKey(env.u, m.name) in r1 ==> r1' == r1 && r2' == r2
    requires EntityKey(env.u, m.name) !in r1 ==>
               var k := EntityKey(env.u, m.name);
               && k in r1' && r1' == r1[k := r1'[k]] && k in r2' && r2' == r2[k := r2'[k]]
               && r2'[k].existing == if NameMatches(env.u, env.tables, m.name) == {}
                   && env.u.sqlLower(env.u.Trim(m.name)) != env.u.sqlLower(m.name)
                                     then None else final[k].existing
    requires EntityKey(env.u, m.name) !in r1 ==> final[EntityKey(env.u, m.name)].existing.Some?
    ensures Replayed(env, subject, mentions + [m], final, r1', r2')
  {
    hide EntityKey;
    hide NameMatches;
    UnstableIsMentioned(env.u, env.tables, subject, mentions, EntityKey(env.u, m.name));
    hide MentionedKey;
    hide UnstableKey;
    MentionSnoc(env.u, env.tables, subject, mentions, m);
  }

  lemma SecondLookup(env: Env, env2: Env, m: CandidateEntity, final: map<string, EntityRef>)
    requires env.Valid() && env2.Valid() && env2.u == env.u && ReadsSucceed(env) && ReadsSucceed(env2)
    requires Grown(env.u, env.tables, env2.tables, final)
    requires EntityKey(env.u, m.name) in final && NewRef(env, m).Ok?
        && Became(NewRef(env, m).value, final[EntityKey(env.u, m.name)])
    ensures NewRef(env2, m).Ok? && final[EntityKey(env.u, m.name)].existing.Some?
    ensures NewRef(env2, m).value.existing
            == if NameMatches(env.u, env.tables, m.name) == {}
                && env.u.sqlLower(env.u.Trim(m.name)) != env.u.sqlLower(m.name)
               then None else final[EntityKey(env.u, m.name)].existing
  {
    var u, key := env.u, EntityKey(env.u, m.name);
    assert FinalRef(u, env.tables, env2.tables, key, final[key]);
    if FindEntityByName(u, env.tables, m.name).Ok? {
      FoundAgain(u, env.tables, env2.tables, final, m.name);
    } else {
      CreatedFound(u, env.tables, env2.tables, final, m.name);
    }
  }

  lemma {:induction false} AfterGrows(env: Env, refs: map<string, EntityRef>, mentions: seq<CandidateEntity>, n: nat)
    requires env.tables.Valid() && ReadsSucceed(env) && n <= |mentions|
    ensures Extends(RefsAfter(env, refs, mentions[..n]), RefsAfter(env, refs, mentions))
    decreases |mentions|
  {
    hide ReadsSucceed;
    hide NewRef;
    hide EntityKey;
    var last := |mentions| - 1;
    if n == |mentions| {
      assert mentions[..n] == mentions;
    } else {
      assert mentions[..last][..n] == mentions[..n];
      AfterGrows(env, refs, mentions[..last], n);
      LookupSucceeds(env, RefsAfter(env, refs, mentions[..last]), mentions[last]);
    }
  }

  ghost predicate AllBecame(refs: map<string, EntityRef>, final: map<string, EntityRef>) {
    forall k :: k in refs ==> k in final && Became(refs[k], final[k])
  }

  /** All the lookups, replayed. */
  lemma {:induction false} Replay(env: Env, env2: Env, subject: Option<Entity>, mentions: seq<CandidateEntity>,
                                  final: map<string, EntityRef>, n: nat)
    requires env.Valid() && env2.Valid() && env2.u == env.u && ReadsSucceed(env) && ReadsSucceed(env2)
    requires Grown(env.u, env.tables, env2.tables, final) && n <= |mentions|
    requires AllBecame(RefsAfter(env, StartPlan(env.u, subject).refs, mentions), final)
    ensures var start := StartPlan(env.u, subject).refs;
            Replayed(env, subject, mentions[..n], final, RefsAfter(env, start, mentions[..n]),
                RefsAfter(env2, start, mentions[..n]))
    decreases n
  {
    hide *;
    EnvUnfold(env);
    EnvUnfold(env2);
    var start := StartPlan(env.u, subject).refs;
    AfterGrows(env, start, mentions, n);
    if n == 0 {
      AfterNone(env, start, mentions);
      AfterNone(env2, start, mentions);
      ReplayStart(env, subject, mentions, final);
    } else {
      Replay(env, env2, subject, mentions, final, n - 1);
      var earlier, m := mentions[..n - 1], mentions[n - 1];
      assert mentions[..n] == earlier + [m];
      var r1, r2 := RefsAfter(env, start, earlier), RefsAfter(env2, start, earlier);
      AfterSnoc(env, start, earlier, m);
      AfterSnoc(env2, start, earlier, m);
      NewlyBecame(env, start, mentions, n, final);
      ReplayOne(env, env2, subject, earlier, m, final, r1, r2);
    }
  }

  lemma AfterNone(env: Env, start: map<string, EntityRef>, mentions: seq<CandidateEntity>)
    requires env.tables.Valid() && ReadsSucceed(env)
    ensures RefsAfter(env, start, mentions[..0]) == start
  {
  }

  lemma AfterSnoc(env: Env, start: map<string, EntityRef>, mentions: seq<CandidateEntity>, m: CandidateEntity)
    requires env.tables.Valid() && ReadsSucceed(env)
    ensures ResolveRef(env, RefsAfter(env, start, mentions), m).Ok?
    ensures RefsAfter(env, start, mentions + [m]) == ResolveRef(env, RefsAfter(env, start, mentions), m).value
  {
    LookupSucceeds(env, RefsAfter(env, start, mentions), m);
    assert (mentions + [m])[..|mentions|] == mentions;
  }

  lemma ReplayStart(env: Env, subject: Option<Entity>, mentions: seq<CandidateEntity>, final: map<string, EntityRef>)
    requires env.tables.Valid() && ReadsSucceed(env)
        && AllBecame(RefsAfter(env, StartPlan(env.u, subject).refs, mentions), final)
    requires Extends(StartPlan(env.u, subject).refs, RefsAfter(env, StartPlan(env.u, subject).refs, mentions))
    ensures Replayed(env, subject, mentions[..0], final, StartPlan(env.u, subject).refs, StartPlan(env.u, subject).refs)
  {
    hide EntityKey;
    hide RefsAfter;
    hide Unstable;
    var start := StartPlan(env.u, subject).refs;
    forall k | k in start
      ensures k in final && start[k].existing == final[k].existing
    {
      assert Became(start[k], final[k]);
    }
  }

  lemma NewlyBecame(env: Env, start: map<string, EntityRef>, mentions: seq<CandidateEntity>, n: nat,
      final: map<string, EntityRef>)
    requires env.tables.Valid() && ReadsSucceed(env) && 0 < n <= |mentions|
    requires AllBecame(RefsAfter(env, start, mentions), final)
    requires Extends(RefsAfter(env, start, mentions[..n]), RefsAfter(env, start, mentions))
    ensures var k := EntityKey(env.u, mentions[n - 1].name);
            && k in final
            && (k !in RefsAfter(env, start, mentions[..n - 1]) && NewRef(env, mentions[n - 1]).Ok? ==>
                  Became(NewRef(env, mentions[n - 1]).value, final[k]))
  {
    hide ReadsSucceed;
    hide NewRef;
    hide EntityKey;
    var earlier, m := mentions[..n - 1], mentions[n - 1];
    assert mentions[..n] == earlier + [m];
    AfterSnoc(env, start, earlier, m);
    var k := EntityKey(env.u, m.name);
    hide RefsAfter;
    assert k in RefsAfter(env, start, mentions[..n]);
  }

  // ---- what the commit leaves for the second run ----

  lemma CommitGrows(env: Env, plan: Plan, entityKeys: seq<string>, edgeKeys: seq<string>,
                    e: EntitiesDone, r: EdgesDone, s: StepsDone, t2: Tables)
    requires env.Valid() && PlanOk(env, plan) && Phases(env, plan, entityKeys, edgeKeys, e, r, s)
    requires Lists(entityKeys, plan.refs) && t2.Valid() && t2.entities == s.tables.entities
    ensures Grown(env.u, env.tables, t2, e.refs) && AllBecame(plan.refs, e.refs)
  {
    hide *;
    EnvUnfold(env);
    PlanOkUnfold(env, plan);
    PhaseParts(env, plan, entityKeys, edgeKeys, e, r, s);
    SameEntities(env, plan, entityKeys, edgeKeys, e, r, s);
    AllResolved(plan.refs, entityKeys, e.refs);
    GrownParts(env, plan, entityKeys, e, t2);
    BecameParts(env, plan, entityKeys, e);
  }

  lemma SameEntities(env: Env, plan: Plan, entityKeys: seq<string>, edgeKeys: seq<string>,
                     e: EntitiesDone, r: EdgesDone, s: StepsDone)
    requires Phases(env, plan, entityKeys, edgeKeys, e, r, s)
    ensures s.tables.entities == e.tables.entities
  {
    hide RefsDone;
    hide RefsKept;
    hide AddedByRefs;
    hide ListedDone;
    hide AddedByPlan;
    hide StepsReported;
    hide StoredFinal;
    hide CommittedRows;
  }

  lemma GrownParts(env: Env, plan: Plan, entityKeys: seq<string>, e: EntitiesDone, t2: Tables)
    requires env.tables.Valid() && t2.Valid() && t2.entities == e.tables.entities
    requires OnlyEntitiesAdded(env.tables, e.tables) && AddedByRefs(env.tables, e.tables, e.refs)
    requires RefsDone(env.u, e.tables, env.tables.nextId, e.refs) && RefsKept(plan.refs, entityKeys, e.refs)
    requires forall k :: k in plan.refs ==> Commit.Resolved(e.refs, k)
    ensures Grown(env.u, env.tables, t2, e.refs)
  {
    hide EntityKey;
    forall k | k in e.refs
      ensures FinalRef(env.u, env.tables, t2, k, e.refs[k])
    {
      assert RefDone(env.u, e.tables, env.tables.nextId, k, e.refs[k]);
      var i := e.refs[k].existing.value.id;
      if i in env.tables.entities {
        assert env.tables.ValidEntity(i);
      }
    }
  }

  lemma BecameParts(env: Env, plan: Plan, entityKeys: seq<string>, e: EntitiesDone)
    requires RefsOk(env, plan.refs) && RefsKept(plan.refs, entityKeys, e.refs) && Lists(entityKeys, plan.refs)
    ensures AllBecame(plan.refs, e.refs)
  {
    hide EntityKey;
    forall k | k in plan.refs
      ensures Became(plan.refs[k], e.refs[k])
    {
      assert RefOk(env, k, plan.refs[k]);
    }
  }

  // ---- the plan of a single candidate ----

  function RelatedKeys(u: Text, c: Candidate): seq<string> {
    KeysOf(u, Named(u, c.related))
  }

  function Kind(u: Text, c: Candidate): string {
    RelationshipKind(u, c, RelatedKeys(u, c))
  }

  /** The names resolved for a lone candidate. */
  ghost function LoneNames(env: Env, subject: Option<Entity>, c: Candidate): Found
    requires env.tables.Valid() && ReadsSucceed(env) && HasSubject(env.u, subject, c)
  {
    Found(RefsAfter(env, StartPlan(env.u, subject).refs, Mentions(env.u, subject, c)),
          [SubjectKey(env.u, subject, c)] + RelatedKeys(env.u, c))
  }

  lemma LonePlan(env: Env, subject: Option<Entity>, c: Candidate)
    requires env.Valid() && ReadsSucceed(env)
    ensures BuildPlan(env, subject, [c]).Ok? <==> ValidateCandidate(env.u, c).None? && HasSubject(env.u, subject, c)
    ensures BuildPlan(env, subject, [c]).Ok? ==>
              var names := LoneNames(env, subject, c);
              && (forall k :: k in names.keys ==> k in names.refs)
              && BuildPlan(env, subject, [c]) == PlanNamed(env, StartPlan(env.u, subject), c, names)
  {
    hide *;
    EnvUnfold(env);
    NamesAfter(env, subject, StartPlan(env.u, subject).refs, c);
    LoneCases(env, subject, c);
    if HasSubject(env.u, subject, c) {
      LoneIs(env, subject, c);
    }
    if ValidateCandidate(env.u, c).None? && HasSubject(env.u, subject, c) {
      MemoriesListed(env, c, LoneNames(env, subject, c));
    }
  }

  lemma LoneIs(env: Env, subject: Option<Entity>, c: Candidate)
    requires env.tables.Valid() && ReadsSucceed(env) && HasSubject(env.u, subject, c)
    ensures LoneNames(env, subject, c)
            == Found(RefsAfter(env, StartPlan(env.u, subject).refs, Mentions(env.u, subject, c)),
                     [SubjectKey(env.u, subject, c)] + KeysOf(env.u, Named(env.u, c.related)))
  {
  }

  lemma LoneCases(env: Env, subject: Option<Entity>, c: Candidate)
    requires env.tables.Valid()
    ensures var start := StartPlan(env.u, subject);
            var names := ResolveNames(env, subject, start.refs, c);
            if ValidateCandidate(env.u, c).Some? || names.Err? then BuildPlan(env, subject, [c]).Err?
            else
              && names.value.keys != [] && (forall k :: k in names.value.keys ==> k in names.value.refs)
              && BuildPlan(env, subject, [c]) == PlanNamed(env, start, c, names.value)
  {
    hide ResolveNames, ValidateCandidate, PlanNamed, EntityKey;
    var start := StartPlan(env.u, subject);
    assert [c][..0] == [];
    assert BuildPlan(env, subject, []) == Ok(start);
    NamesResolved(env, subject, start.refs, c);
  }

  lemma MemoriesListed(env: Env, c: Candidate, names: Found)
    requires env.tables.Valid() && ReadsSucceed(env)
    requires names.keys != [] && forall k :: k in names.keys ==> k in names.refs
    ensures forall plan :: PlanNamed(env, plan, c, names).Ok?
  {
    hide QueueEdges;
    hide Decide;
  }

  lemma LoneStep(env: Env, subject: Option<Entity>, c: Candidate) returns (s: Step)
    requires env.Valid() && ReadsSucceed(env) && BuildPlan(env, subject, [c]).Ok?
    requires SubjectStored(env, subject)
    ensures BuildPlan(env, subject, [c]).value.steps == [s]
    ensures HasSubject(env.u, subject, c) && BuildPlan(env, subject, [c]).value.refs == LoneNames(env, subject, c).refs
    ensures s.candidate == c && s.subjectKey == SubjectKey(env.u, subject, c) && s.relatedKeys == RelatedKeys(env.u, c)
    ensures s.relationshipType == Kind(env.u, c)
    ensures s.subjectKey in LoneNames(env, subject, c).refs && forall k :: k in s.relatedKeys ==>
        k in LoneNames(env, subject, c).refs
    ensures var names := LoneNames(env, subject, c);
            var q := CandidateQueue(env, map[], names.refs, s.subjectKey, s.relatedKeys, s.relationshipType);
            && BuildPlan(env, subject, [c]).value.edges == q.edges
            && CandidateDecision(env, c, names.refs[s.subjectKey], s.relatedKeys, s.relationshipType, q.queued)
                == Ok(s.decision)
  {
    LonePlan(env, subject, c);
    BuildPlanOk(env, subject, [c]);
    var names := LoneNames(env, subject, c);
    var plan := BuildPlan(env, subject, [c]).value;
    hide LoneNames;
    hide BuildPlan;
    PlanNamedParts(env, StartPlan(env.u, subject), c, names, plan);
    s := plan.steps[0];
  }

  lemma PlanNamedParts(env: Env, start: Plan, c: Candidate, names: Found, plan: Plan)
    requires env.Valid() && names.keys != [] && (forall k :: k in names.keys ==> k in names.refs)
    requires start.steps == [] && start.edges == map[]
    requires PlanNamed(env, start, c, names) == Ok(plan) && PlanOk(env, plan)
    ensures plan.refs == names.refs && |plan.steps| == 1
    ensures var s := plan.steps[0];
            && s.candidate == c && s.subjectKey == names.keys[0] && s.relatedKeys == names.keys[1..]
            && s.relationshipType == RelationshipKind(env.u, c, names.keys[1..])
            && var q := CandidateQueue(env, map[], names.refs, names.keys[0], names.keys[1..], s.relationshipType);
               && plan.edges == q.edges
               && CandidateDecision(env, c, names.refs[names.keys[0]], names.keys[1..], s.relationshipType, q.queued)
                   == Ok(s.decision)
  {
    hide CandidateQueue;
    hide CandidateDecision;
    hide RelationshipKind;
    hide StepsOk;
    hide EdgesOk;
    RefKey(env, names.refs, names.keys[0]);
  }

  // ---- the second plan ----

  /** Everything created by committing the plan would be new. */
  ghost predicate CreatesNothing(p: Plan) {
    ToCreate(p.refs) == {} && p.edges == map[] && CountAction(p.steps, CreateAction) == 0
  }

  /** Every name the first run looked up in vain reads the same to the database once trimmed. */
  ghost predicate NamesStable(env: Env, subject: Option<Entity>, c: Candidate) {
    var ms := Mentions(env.u, subject, c);
    forall j :: 0 <= j < |ms| ==> !Unstable(env.u, env.tables, subject, ms, j)
  }

  /** The store of the second run: the committed one, give or take audit backfill and time in which no
      memory expires. */
  ghost predicate FollowsCommit(t: Tables, now0: nat, t2: Tables) {
    && t2.Valid() && t2.entities == t.entities && t2.relationships == t.relationships
    && forall i :: i in t.memories ==>
         && i in t2.memories && t2.memories[i]
             == t.memories[i].(sourceId := t2.memories[i].sourceId, updatedAt := t2.memories[i].updatedAt)
         && (IsActive(t.memories[i], now0) ==> IsActive(t.memories[i], t2.now))
  }

  lemma {:induction false} QueueNothing(env: Env, refs: map<string, EntityRef>, subjectKey: string,
      relatedKeys: seq<string>, kind: string)
    requires subjectKey in refs && forall k :: k in relatedKeys ==> k in refs
    requires forall k :: k in relatedKeys ==> EdgeStored(env, refs[subjectKey], refs[k], kind)
    ensures QueueEdges(env, map[], refs, subjectKey, relatedKeys, kind).edges == map[]
    decreases |relatedKeys|
  {
    hide EdgeStored;
    if relatedKeys != [] {
      var n := |relatedKeys| - 1;
      assert forall k :: k in relatedKeys[..n] ==> k in relatedKeys;
      assert relatedKeys[n] in relatedKeys;
      QueueNothing(env, refs, subjectKey, relatedKeys[..n], kind);
    }
  }

  /** A memory the second run is bound to match. */
  ghost predicate Matching(env: Env, t: Tables, entityId: Id, c: Candidate, i: Id) {
    && i in t.memories && ActiveIn(t.memories[i], entityId, c.category, env.tables.now)
    && Similarity(env.u, c.content, t.memories[i].content) >= env.threshold
  }

  lemma NotCreatedIfSimilar(u: Text, c: Candidate, existing: seq<Memory>, threshold: real, m: Memory)
    requires m in existing && 0.0 < threshold <= Similarity(u, c.content, m.content)
    ensures !Decide(u, c, existing, threshold).action.CreateAction?
  {
    hide Similarity;
    hide Decide;
    ResolveMatches(u, c, existing, threshold);
  }

  lemma MatchListed(env: Env, env2: Env, done: Tables, c: Candidate, ref: EntityRef, i: Id)
    requires env.Valid() && env2.Valid() && env2.u == env.u && env2.threshold == env.threshold && ReadsSucceed(env2)
    requires FollowsCommit(done, env.tables.now, env2.tables) && ref.existing.Some?
    requires Matching(env, done, ref.existing.value.id, c, i)
    requires forall j :: j in env2.tables.memories ==> env2.tables.memories[j].id == j
    ensures SubjectMemories(env2, ref, c.category).Ok? && i in env2.tables.memories
    ensures env2.tables.memories[i] in SubjectMemories(env2, ref, c.category).value
    ensures 0.0 < env2.threshold <= Similarity(env2.u, c.content, env2.tables.memories[i].content)
  {
    hide Similarity;
    var m := env2.tables.memories[i];
    assert ActiveIn(m, ref.existing.value.id, c.category, env2.tables.now);
  }

  lemma DecisionCases(env: Env, c: Candidate, ref: EntityRef, relatedKeys: seq<string>, kind: string, queued: bool)
    requires env.tables.Valid() && SubjectMemories(env, ref, c.category).Ok?
    ensures CandidateDecision(env, c, ref, relatedKeys, kind, queued)
            == Ok(if IsEdgeFact(c, kind, relatedKeys)
                then Decision(MergeAction, None, if queued then QUEUED else EDGE_EXISTS)
                  else Decide(env.u, c, SubjectMemories(env, ref, c.category).value, env.threshold))
  {
    hide Decide;
  }

  lemma SecondDecision(env: Env, env2: Env, done: Tables, c: Candidate, ref: EntityRef, relatedKeys: seq<string>,
      kind: string,
                       queued: bool, i: Id)
    requires env.Valid() && env2.Valid() && env2.u == env.u && env2.threshold == env.threshold && ReadsSucceed(env2)
    requires FollowsCommit(done, env.tables.now, env2.tables) && ref.existing.Some?
    requires Matching(env, done, ref.existing.value.id, c, i) && !IsEdgeFact(c, kind, relatedKeys)
    requires forall j :: j in env2.tables.memories ==> env2.tables.memories[j].id == j
    ensures CandidateDecision(env2, c, ref, relatedKeys, kind, queued).Ok?
    ensures !CandidateDecision(env2, c, ref, relatedKeys, kind, queued).value.action.CreateAction?
  {
    hide *;
    EnvUnfold(env2);
    MatchListed(env, env2, done, c, ref, i);
    DecisionCases(env2, c, ref, relatedKeys, kind, queued);
    NotCreatedIfSimilar(env2.u, c, SubjectMemories(env2, ref, c.category).value, env2.threshold,
        env2.tables.memories[i]);
  }

  lemma EmptyContentCreates(env: Env, c: Candidate, ref: EntityRef, relatedKeys: seq<string>, kind: string,
      queued: bool)
    requires env.Valid() && env.u.Normalized(c.content) == "" && !IsEdgeFact(c, kind, relatedKeys)
    requires CandidateDecision(env, c, ref, relatedKeys, kind, queued).Ok?
    ensures CandidateDecision(env, c, ref, relatedKeys, kind, queued).value.action.CreateAction?
  {
    hide Decide;
    var existing := SubjectMemories(env, ref, c.category).value;
    ResolveMatches(env.u, c, existing, env.threshold);
    forall m | m in existing
      ensures Similarity(env.u, c.content, m.content) == 0.0
    {
    }
  }

  /** After the first run some active memory of the subject and category matches the candidate. */
  lemma FirstRunLeavesMatch(env: Env, refs: map<string, EntityRef>, s: Step, done: Tables, refs': map<string,
      EntityRef>, f: Step,
                            ref: EntityRef, queued: bool) returns (i: Id)
    requires env.Valid() && env.u.Normalized(s.candidate.content) != ""
        && !IsEdgeFact(s.candidate, s.relationshipType, s.relatedKeys)
    requires s.subjectKey in refs && refs[s.subjectKey] == ref && SubjectMemories(env, ref, s.candidate.category).Ok?
    requires CandidateDecision(env, s.candidate, ref, s.relatedKeys, s.relationshipType, queued) == Ok(s.decision)
    requires Commit.Resolved(refs', s.subjectKey) && (ref.existing.Some? ==>
        refs'[s.subjectKey].existing == ref.existing)
    requires forall j :: j in env.tables.memories ==> env.tables.memories[j].id == j
    requires forall j :: j in env.tables.memories ==>
        j in done.memories && MemoryKept(env.tables.memories[j], [s], done.memories[j])
    requires StepReported(env.tables, refs', done.memories, s, f)
    ensures Matching(env, done, ResolvedId(refs', s.subjectKey), s.candidate, i)
  {
    hide *;
    EnvUnfold(env);
    var c := s.candidate;
    DecisionCases(env, c, ref, s.relatedKeys, s.relationshipType, queued);
    if s.decision.action.CreateAction? {
      i := CreatedMatches(env, s, done, refs', f);
    } else {
      i := TargetMatches(env, s, done, refs', ref);
    }
  }

  lemma CreatedMatches(env: Env, s: Step, done: Tables, refs': map<string, EntityRef>, f: Step) returns (i: Id)
    requires env.Valid() && env.u.Normalized(s.candidate.content) != "" && s.decision.action.CreateAction?
    requires Commit.Resolved(refs', s.subjectKey) && StepReported(env.tables, refs', done.memories, s, f)
    ensures Matching(env, done, ResolvedId(refs', s.subjectKey), s.candidate, i)
  {
    i := f.createdMemoryId.value;
    SimilarityRange(env.u, s.candidate.content, s.candidate.content);
  }

  lemma TargetMatches(env: Env, s: Step, done: Tables, refs': map<string, EntityRef>, ref: EntityRef) returns (i: Id)
    requires env.Valid() && env.u.Normalized(s.candidate.content) != "" && !s.decision.action.CreateAction?
    requires SubjectMemories(env, ref, s.candidate.category).Ok?
    requires s.decision
        == Decide(env.u, s.candidate, SubjectMemories(env, ref, s.candidate.category).value, env.threshold)
    requires Commit.Resolved(refs', s.subjectKey) && (ref.existing.Some? ==>
        refs'[s.subjectKey].existing == ref.existing)
    requires forall j :: j in env.tables.memories ==> env.tables.memories[j].id == j
    requires forall j :: j in env.tables.memories ==>
        j in done.memories && MemoryKept(env.tables.memories[j], [s], done.memories[j])
    ensures Matching(env, done, ResolvedId(refs', s.subjectKey), s.candidate, i)
  {
    hide Decide;
    hide Similarity;
    var c := s.candidate;
    var existing := SubjectMemories(env, ref, c.category).value;
    MatchedTarget(env, c, existing, s.decision);
    var m :| m in existing && s.decision.target == Some(m.id)
        && Similarity(env.u, c.content, m.content) >= env.threshold;
    i := m.id;
    assert env.tables.memories[i] == m && ActiveIn(m, ResolvedId(refs', s.subjectKey), c.category, env.tables.now);
    KeptOrRewritten(env, s, m, done.memories[i]);
  }

  lemma KeptOrRewritten(env: Env, s: Step, m: Memory, m': Memory)
    requires env.Valid() && env.u.Normalized(s.candidate.content) != "" && s.decision.target == Some(m.id)
    requires MemoryKept(m, [s], m') && Similarity(env.u, s.candidate.content, m.content) >= env.threshold
    ensures Similarity(env.u, s.candidate.content, m'.content) >= env.threshold
    ensures m'.entityId == m.entityId && m'.category == m.category && m'.expiresAt == m.expiresAt
  {
    assert [s][0] == s;
    if s.decision.action.UpdateAction? {
      assert Targets([s][0], m.id);
      SimilarityRange(env.u, s.candidate.content, s.candidate.content);
    }
  }

  lemma MatchedTarget(env: Env, c: Candidate, existing: seq<Memory>, d: Decision)
    requires d == Decide(env.u, c, existing, env.threshold) && !d.action.CreateAction?
    ensures d.target.Some?
    ensures exists m :: && m in existing && d.target == Some(m.id)
                        && Similarity(env.u, c.content, m.content) >= env.threshold
  {
    hide Similarity;
    hide Decide;
    ResolveMatches(env.u, c, existing, env.threshold);
    var k :| 0 <= k < |existing| && d.target.value == existing[k].id && IsFirstBest(env.u, c.content, existing, k);
    var m :| m in existing && Similarity(env.u, c.content, m.content) >= env.threshold;
    var j :| 0 <= j < |existing| && existing[j] == m;
    assert existing[k] in existing;
  }

  // ---- the theorem ----

  /** What one run leaves behind, gathered from the commit's phases. */
  ghost predicate FirstRun(env: Env, subject: Option<Entity>, c: Candidate, s: Step, refs': map<string, EntityRef>,
      done: Tables)
    requires env.tables.Valid() && ReadsSucceed(env) && HasSubject(env.u, subject, c)
  {
    var names := LoneNames(env, subject, c);
    && s.candidate == c && s.subjectKey == SubjectKey(env.u, subject, c) && s.relatedKeys == RelatedKeys(env.u, c)
    && s.relationshipType == Kind(env.u, c) && s.subjectKey in names.refs
    && Grown(env.u, env.tables, done, refs') && AllBecame(names.refs, refs')
    && (forall k :: k in names.refs ==> Commit.Resolved(refs', k))
    && (forall k :: k in s.relatedKeys ==> k in names.refs)
    && (s.relationshipType != "" ==> forall k :: k in s.relatedKeys ==>
          Commit.Resolved(refs', k) && Commit.Resolved(refs', s.subjectKey)
          && RelationshipExists(done, ResolvedId(refs', s.subjectKey), ResolvedId(refs', k), s.relationshipType))
    && (env.u.Normalized(c.content) != "" && !IsEdgeFact(c, s.relationshipType, s.relatedKeys) ==>
          exists i :: Matching(env, done, ResolvedId(refs', s.subjectKey), c, i))
  }

  lemma RunOnce(env: Env, subject: Option<Entity>, c: Candidate, entityKeys: seq<string>, edgeKeys: seq<string>)
      returns (s: Step, refs': map<string, EntityRef>, done: Tables)
    requires env.Valid() && ReadsSucceed(env) && SubjectStored(env, subject)
    requires BuildPlan(env, subject, [c]).Ok?
    requires var plan := BuildPlan(env, subject, [c]).value; Lists(entityKeys, plan.refs) && Lists(edgeKeys, plan.edges)
    ensures HasSubject(env.u, subject, c)
    ensures var plan := BuildPlan(env, subject, [c]).value;
            var done_ := CommitPlan(env.tables, plan, entityKeys, edgeKeys);
            done_.Ok? && done_.value.tables == done
    ensures FirstRun(env, subject, c, s, refs', done)
  {
    hide *;
    EnvUnfold(env);
    var plan := BuildPlan(env, subject, [c]).value;
    BuildPlanOk(env, subject, [c]);
    BuildPlanAsked(env, subject, [c]);
    s := LoneStep(env, subject, c);
    var e, r, st := CommitPhases(env, plan, entityKeys, edgeKeys);
    PhasesValid(env, plan, entityKeys, edgeKeys, e, r, st);
    refs' := e.refs;
    done := st.tables;
    CommitGrows(env, plan, entityKeys, edgeKeys, e, r, st, done);
    PhaseParts(env, plan, entityKeys, edgeKeys, e, r, st);
    AllResolved(plan.refs, entityKeys, e.refs);
    CommitKeepsMemories(env, plan, entityKeys, edgeKeys);
    var f := FirstReport(env, e.refs, done.memories, s, st.steps);
    forall k | k in s.relatedKeys && s.relationshipType != ""
      ensures Commit.Resolved(refs', k) && Commit.Resolved(refs', s.subjectKey)
      ensures RelationshipExists(done, ResolvedId(refs', s.subjectKey), ResolvedId(refs', k), s.relationshipType)
    {
      AskedEdgesStored(env, plan, entityKeys, edgeKeys, 0, k);
    }
    RowsKeyed(env.tables);
    if env.u.Normalized(c.content) != "" && !IsEdgeFact(c, s.relationshipType, s.relatedKeys) {
      var q := CandidateQueue(env, map[], LoneNames(env, subject, c).refs, s.subjectKey, s.relatedKeys,
          s.relationshipType);
      ExistingKept(plan.refs, entityKeys, e.refs, s.subjectKey);
      MemoriesReadable(env, plan.refs[s.subjectKey], c.category);
      var i := FirstRunLeavesMatch(env, plan.refs, s, done, refs', f, plan.refs[s.subjectKey], q.queued);
    }
    Gathered(env, subject, c, s, refs', done);
  }

  lemma FirstReport(env: Env, refs: map<string, EntityRef>, memories: map<Id, Memory>, s: Step, done: seq<Step>)
      returns (f: Step)
    requires StepsReported(env.tables, refs, memories, [s], done)
    ensures StepReported(env.tables, refs, memories, s, f)
  {
    f := done[0];
    assert StepReported(env.tables, refs, memories, [s][0], f);
  }

  lemma ExistingKept(refs: map<string, EntityRef>, keys: seq<string>, refs': map<string, EntityRef>, k: string)
    requires RefsKept(refs, keys, refs') && k in refs
    ensures k in refs' && (refs[k].existing.Some? ==> refs'[k].existing == refs[k].existing)
  {
  }

  lemma MemoriesReadable(env: Env, ref: EntityRef, category: Category)
    requires env.tables.Valid() && ReadsSucceed(env)
    ensures SubjectMemories(env, ref, category).Ok?
  {
  }

  lemma Gathered(env: Env, subject: Option<Entity>, c: Candidate, s: Step, refs': map<string, EntityRef>, done: Tables)
    requires env.tables.Valid() && ReadsSucceed(env) && HasSubject(env.u, subject, c)
    requires s.candidate == c && s.subjectKey == SubjectKey(env.u, subject, c) && s.relatedKeys == RelatedKeys(env.u, c)
    requires s.relationshipType == Kind(env.u, c) && s.subjectKey in LoneNames(env, subject, c).refs
    requires Grown(env.u, env.tables, done, refs') && AllBecame(LoneNames(env, subject, c).refs, refs')
    requires forall k :: k in LoneNames(env, subject, c).refs ==> Commit.Resolved(refs', k)
    requires forall k :: k in s.relatedKeys ==> k in LoneNames(env, subject, c).refs
    requires s.relationshipType != "" ==> forall k :: k in s.relatedKeys ==>
               Commit.Resolved(refs', k) && Commit.Resolved(refs', s.subjectKey)
               && RelationshipExists(done, ResolvedId(refs', s.subjectKey), ResolvedId(refs', k), s.relationshipType)
    requires env.u.Normalized(c.content) != "" && !IsEdgeFact(c, s.relationshipType, s.relatedKeys) ==>
               exists i :: Matching(env, done, ResolvedId(refs', s.subjectKey), c, i)
    ensures FirstRun(env, subject, c, s, refs', done)
  {
    hide Grown;
    hide AllBecame;
    hide LoneNames;
    hide RelationshipExists;
    hide Matching;
    hide SubjectKey;
    hide RelatedKeys;
    hide Kind;
  }

  /** The second run's references, in the store that follows the first commit. */
  lemma SecondRefs(env: Env, env2: Env, subject: Option<Entity>, c: Candidate, s: Step, refs': map<string,
      EntityRef>, done: Tables)
    requires env.Valid() && ReadsSucceed(env) && env2.Valid() && ReadsSucceed(env2) && env2.u == env.u
    requires HasSubject(env.u, subject, c) && FirstRun(env, subject, c, s, refs', done)
    requires FollowsCommit(done, env.tables.now, env2.tables)
    ensures var r2 := LoneNames(env2, subject, c).refs;
            && r2.Keys == LoneNames(env, subject, c).refs.Keys
            && (forall k :: k in r2 ==> k in refs')
            && (NamesStable(env, subject, c) ==> forall k :: k in r2 ==> r2[k].existing == refs'[k].existing)
            && (ToCreate(r2) == {} ==> NamesStable(env, subject, c))
  {
    hide *;
    EnvUnfold(env);
    EnvUnfold(env2);
    FirstRunGrown(env, subject, c, s, refs', done);
    StillGrown(env.u, env.tables, done, env2.tables, refs', env.tables.now);
    var ms := Mentions(env.u, subject, c);
    assert ms[..|ms|] == ms;
    LoneNamesAre(env, subject, c);
    LoneNamesAre(env2, subject, c);
    Replay(env, env2, subject, ms, refs', |ms|);
    ReplayedAll(env, subject, c, refs', LoneNames(env, subject, c).refs, LoneNames(env2, subject, c).refs);
  }

  lemma LoneNamesAre(env: Env, subject: Option<Entity>, c: Candidate)
    requires env.tables.Valid() && ReadsSucceed(env) && HasSubject(env.u, subject, c)
    ensures LoneNames(env, subject, c).refs
        == RefsAfter(env, StartPlan(env.u, subject).refs, Mentions(env.u, subject, c))
    ensures LoneNames(env, subject, c).keys == [SubjectKey(env.u, subject, c)] + RelatedKeys(env.u, c)
  {
  }

  lemma FirstRunGrown(env: Env, subject: Option<Entity>, c: Candidate, s: Step, refs': map<string, EntityRef>,
      done: Tables)
    requires env.tables.Valid() && ReadsSucceed(env) && HasSubject(env.u, subject, c)
    requires FirstRun(env, subject, c, s, refs', done)
    ensures Grown(env.u, env.tables, done, refs') && AllBecame(LoneNames(env, subject, c).refs, refs')
    ensures s.subjectKey == SubjectKey(env.u, subject, c) && s.relatedKeys == RelatedKeys(env.u, c)
        && s.relationshipType == Kind(env.u, c)
  {
  }

  lemma StillGrown(u: Text, t: Tables, done: Tables, t2: Tables, final: map<string, EntityRef>, now0: nat)
    requires Grown(u, t, done, final) && FollowsCommit(done, now0, t2)
    ensures Grown(u, t, t2, final)
  {
    hide EntityKey;
    forall k | k in final
      ensures FinalRef(u, t, t2, k, final[k])
    {
      assert FinalRef(u, t, done, k, final[k]);
    }
  }

  lemma ReplayedAll(env: Env, subject: Option<Entity>, c: Candidate, final: map<string, EntityRef>,
                    r1: map<string, EntityRef>, r2: map<string, EntityRef>)
    requires Replayed(env, subject, Mentions(env.u, subject, c), final, r1, r2)
    ensures r1.Keys == r2.Keys && forall k :: k in r2 ==> k in final
    ensures NamesStable(env, subject, c) ==> forall k :: k in r2 ==> r2[k].existing == final[k].existing
    ensures ToCreate(r2) == {} ==> NamesStable(env, subject, c)
  {
    hide Unstable;
    hide EntityKey;
    hide Mentions;
    var ms := Mentions(env.u, subject, c);
    if !NamesStable(env, subject, c) {
      var j :| 0 <= j < |ms| && Unstable(env.u, env.tables, subject, ms, j);
      var k := EntityKey(env.u, ms[j].name);
      assert UnstableKey(env.u, env.tables, subject, ms, k) && MentionedKey(env.u, subject, ms, k);
      assert k in ToCreate(r2);
    }
  }

  lemma EdgesKnown(env: Env, env2: Env, subject: Option<Entity>, c: Candidate, s: Step, refs': map<string,
      EntityRef>, done: Tables,
                   r2: map<string, EntityRef>)
    requires env.tables.Valid() && ReadsSucceed(env) && ReadsSucceed(env2) && HasSubject(env.u, subject, c)
    requires FirstRun(env, subject, c, s, refs', done) && FollowsCommit(done, env.tables.now, env2.tables)
    requires r2.Keys == LoneNames(env, subject, c).refs.Keys
    requires forall k :: k in r2 ==> k in refs' && r2[k].existing == refs'[k].existing
    ensures s.subjectKey in r2 && forall k :: k in s.relatedKeys ==> k in r2
    ensures CandidateQueue(env2, map[], r2, s.subjectKey, s.relatedKeys, s.relationshipType).edges == map[]
    ensures ToCreate(r2) == {}
  {
    hide Grown;
    hide AllBecame;
    hide LoneNames;
    hide Matching;
    hide RelationshipExists;
    if s.relationshipType != "" && s.relatedKeys != [] {
      forall k | k in s.relatedKeys
        ensures EdgeStored(env2, r2[s.subjectKey], r2[k], s.relationshipType)
      {
        SameExists(done, env2.tables, ResolvedId(refs', s.subjectKey), ResolvedId(refs', k), s.relationshipType);
      }
      QueueNothing(env2, r2, s.subjectKey, s.relatedKeys, s.relationshipType);
    }
  }

  lemma SameExists(t: Tables, t2: Tables, from: Id, to: Id, kind: string)
    requires t2.relationships == t.relationships
    ensures RelationshipExists(t2, from, to, kind) == RelationshipExists(t, from, to, kind)
  {
  }

  lemma OneStepCount(s: Step)
    ensures CountAction([s], CreateAction) == if s.decision.action.CreateAction? then 1 else 0
  {
    assert [s][..0] == [];
  }

  /** Ingesting one candidate a second time, before any memory expires: no entity is created if and only if every
      name the first run failed to find reads the same once trimmed, and in that case no edge is created, and no
      memory exactly when the candidate is an edge fact or its content normalises to some text. */
  lemma RepeatCreatesNothingIff(env: Env, env2: Env, subject: Option<Entity>, c: Candidate,
                                entityKeys: seq<string>, edgeKeys: seq<string>)
    requires env.Valid() && ReadsSucceed(env) && SubjectStored(env, subject)
    requires BuildPlan(env, subject, [c]).Ok?
    requires var plan := BuildPlan(env, subject, [c]).value; Lists(entityKeys, plan.refs) && Lists(edgeKeys, plan.edges)
    requires env2.Valid() && ReadsSucceed(env2) && env2.u == env.u && env2.threshold == env.threshold
    requires var done := CommitPlan(env.tables, BuildPlan(env, subject, [c]).value, entityKeys, edgeKeys);
             done.Ok? && FollowsCommit(done.value.tables, env.tables.now, env2.tables)
    ensures BuildPlan(env2, subject, [c]).Ok?
    ensures var plan := BuildPlan(env2, subject, [c]).value;
            && (ToCreate(plan.refs) == {} <==> NamesStable(env, subject, c))
            && (NamesStable(env, subject, c) ==>
                  && plan.edges == map[]
                  && (CountAction(plan.steps, CreateAction) == 0
                      <==> IsEdgeFact(c, Kind(env.u, c), RelatedKeys(env.u, c)) || env.u.Normalized(c.content) != ""))
            && (CreatesNothing(plan)
                <==> NamesStable(env, subject, c)
                     && (IsEdgeFact(c, Kind(env.u, c), RelatedKeys(env.u, c)) || env.u.Normalized(c.content) != ""))
  {
    hide *;
    EnvUnfold(env);
    EnvUnfold(env2);
    var s, refs', done := RunOnce(env, subject, c, entityKeys, edgeKeys);
    LonePlan(env, subject, c);
    LonePlan(env2, subject, c);
    SubjectStillStored(env, env2, subject, c, s, refs', done);
    var s2 := LoneStep(env2, subject, c);
    var plan2 := BuildPlan(env2, subject, [c]).value;
    SecondRefs(env, env2, subject, c, s, refs', done);
    FirstRunGrown(env, subject, c, s, refs', done);
    NothingParts(plan2);
    OneStepCount(s2);
    if NamesStable(env, subject, c) {
      SecondRun(env, env2, subject, c, s, refs', done, s2);
    }
  }

  lemma NothingParts(p: Plan)
    ensures CreatesNothing(p) <==> ToCreate(p.refs) == {} && p.edges == map[] && CountAction(p.steps, CreateAction) == 0
  {
  }

  lemma SubjectStillStored(env: Env, env2: Env, subject: Option<Entity>, c: Candidate, s: Step, refs': map<string,
      EntityRef>, done: Tables)
    requires env.tables.Valid() && ReadsSucceed(env) && HasSubject(env.u, subject, c) && SubjectStored(env, subject)
    requires FirstRun(env, subject, c, s, refs', done) && FollowsCommit(done, env.tables.now, env2.tables)
    ensures SubjectStored(env2, subject)
  {
    hide AllBecame;
    hide LoneNames;
    hide Matching;
    hide RelationshipExists;
  }

  lemma SecondRun(env: Env, env2: Env, subject: Option<Entity>, c: Candidate, s: Step, refs': map<string, EntityRef>,
      done: Tables, s2: Step)
    requires env.Valid() && env2.Valid() && ReadsSucceed(env) && ReadsSucceed(env2) && env2.u == env.u
        && env2.threshold == env.threshold
    requires HasSubject(env.u, subject, c) && FirstRun(env, subject, c, s, refs', done)
    requires FollowsCommit(done, env.tables.now, env2.tables)
    requires var r2 := LoneNames(env2, subject, c).refs;
             && r2.Keys == LoneNames(env, subject, c).refs.Keys
             && (forall k :: k in r2 ==> k in refs' && r2[k].existing == refs'[k].existing)
             && s2.candidate == c && s2.subjectKey == SubjectKey(env2.u, subject, c)
                 && s2.relatedKeys == RelatedKeys(env2.u, c)
             && s2.relationshipType == Kind(env2.u, c)
             && s2.subjectKey in r2 && (forall k :: k in s2.relatedKeys ==> k in r2)
             && var q := CandidateQueue(env2, map[], r2, s2.subjectKey, s2.relatedKeys, s2.relationshipType);
                CandidateDecision(env2, c, r2[s2.subjectKey], s2.relatedKeys, s2.relationshipType, q.queued)
                    == Ok(s2.decision)
    ensures var r2 := LoneNames(env2, subject, c).refs;
            && ToCreate(r2) == {}
            && CandidateQueue(env2, map[], r2, s2.subjectKey, s2.relatedKeys, s2.relationshipType).edges == map[]
    ensures s2.decision.action.CreateAction?
            <==> !IsEdgeFact(c, Kind(env.u, c), RelatedKeys(env.u, c)) && env.u.Normalized(c.content) == ""
  {
    hide *;
    EnvUnfold(env);
    EnvUnfold(env2);
    FirstRunGrown(env, subject, c, s, refs', done);
    var r2 := LoneNames(env2, subject, c).refs;
    EdgesKnown(env, env2, subject, c, s, refs', done, r2);
    var ref := r2[s2.subjectKey];
    var q := CandidateQueue(env2, map[], r2, s2.subjectKey, s2.relatedKeys, s2.relationshipType);
    MemoriesReadable(env2, ref, c.category);
    DecisionCases(env2, c, ref, s2.relatedKeys, s2.relationshipType, q.queued);
    if !IsEdgeFact(c, s2.relationshipType, s2.relatedKeys) {
      if env.u.Normalized(c.content) == "" {
        EmptyContentCreates(env2, c, ref, s2.relatedKeys, s2.relationshipType, q.queued);
      } else {
        var i := MatchLeft(env, subject, c, s, refs', done);
        RowsKeyed(env2.tables);
        ResolvedIs(refs', s.subjectKey);
        SecondDecision(env, env2, done, c, ref, s2.relatedKeys, s2.relationshipType, q.queued, i);
      }
    }
  }

  lemma MatchLeft(env: Env, subject: Option<Entity>, c: Candidate, s: Step, refs': map<string, EntityRef>,
      done: Tables) returns (i: Id)
    requires env.tables.Valid() && ReadsSucceed(env) && HasSubject(env.u, subject, c)
        && FirstRun(env, subject, c, s, refs', done)
    requires env.u.Normalized(c.content) != "" && !IsEdgeFact(c, s.relationshipType, s.relatedKeys)
    ensures Commit.Resolved(refs', s.subjectKey) && Matching(env, done, ResolvedId(refs', s.subjectKey), c, i)
  {
    hide Matching;
    hide Grown;
    i :| Matching(env, done, ResolvedId(refs', s.subjectKey), c, i);
  }
}
