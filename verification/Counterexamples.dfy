/** Inputs on which the properties fail that the code does not keep: one lemma for each, at a store and a request
    the service can be given. */
module Counterexamples {
  import opened Types
  import opened Tables
  import opened Text
  import opened Planner
  import opened Commit
  import opened CommitProperties
  import opened Ingest
  import opened IngestProperties
  import opened RepeatIngest
  import opened RepeatRequest
  import opened Ascii
  import opened Neighbourhood
  import opened EntityContext
  import opened ContextCache
  import opened CacheAgreement
  import opened AgeGraph
  import opened AgeAgreement
  import opened SearchTerms

  const EMPTY_STORE := Tables(true, map[], map[], map[], map[], 1, 0)

  const CFG := Config(ASCII, 0.85)

  const HEALTHY := Faults((name: string) => false, (from: Id, to: Id, kind: string) => false,
                          (id: Id, category: Category) => false, false, [])

  // ---- the same request twice ----

  const ASKED := Request("about Bob", None, "", "model", false)

  const BLANKED := CandidateEntity(" Bob", Person)
  const ABOUT_BLANKED := Candidate("likes tea", Fact, 1.0, Some(BLANKED), [], "")

  const BOB := CandidateEntity("Bob", Person)
  const EXCLAIMED := Candidate("!!!", Fact, 1.0, Some(BOB), [], "")

  function First(c: Candidate): Outcome {
    EmptyStoreValid();
    RunIngest(CFG, EMPTY_STORE, ASKED, Some(Ok([c])), HEALTHY)
  }

  lemma EmptyStoreValid()
    ensures EMPTY_STORE.Valid()
  {
  }

  lemma Trimmed(s: string)
    requires s != "" && !IsSpace(s[0]) && !IsSpace(s[|s| - 1])
    ensures ASCII.Trim(s) == s
  {
  }

  lemma BobIsTrimmed()
    ensures ASCII.Trim(" Bob") == "Bob" && ASCII.Trim("Bob") == "Bob"
  {
    assert " Bob"[1..] == "Bob";
    assert ASCII.TrimLeft(" Bob") == ASCII.TrimLeft("Bob");
    Trimmed("Bob");
  }

  /** A candidate about a person, with nothing related, is accepted into the empty store. */
  lemma FirstAccepted(c: Candidate)
    requires c.category == Fact && c.confidence == 1.0 && c.related == [] && ASCII.Trim(c.content) != ""
    requires c.subject.Some? && c.subject.value.kind == Person && ASCII.Trim(c.subject.value.name) != ""
    ensures ValidConfig(CFG) && ReadsSucceed(Env(CFG.u, EMPTY_STORE, CFG.threshold, HEALTHY))
    ensures RequestSubject(CFG, EMPTY_STORE, ASKED) == None
    ensures First(c).result.Ok? && First(c).tables.Valid()
  {
    hide *;
    EmptyStoreValid();
    SettingsValid();
    var env := Env(CFG.u, EMPTY_STORE, CFG.threshold, HEALTHY);
    CandidateValid(c);
    LonePlan(env, None, c);
    NoExplicitSubject();
    RequestPlan(CFG, EMPTY_STORE, ASKED, c, HEALTHY);
    IngestAllOrNothing(CFG, EMPTY_STORE, ASKED, Some(Ok([c])), HEALTHY);
    FirstIs(c);
  }

  lemma FirstIs(c: Candidate)
    ensures EMPTY_STORE.Valid() && First(c) == RunIngest(CFG, EMPTY_STORE, ASKED, Some(Ok([c])), HEALTHY)
    ensures !HEALTHY.commitFails && CFG.u == ASCII && !ASKED.dryRun
  {
    hide RunIngest;
  }

  lemma SettingsValid()
    ensures ValidConfig(CFG) && Env(CFG.u, EMPTY_STORE, CFG.threshold, HEALTHY).Valid()
    ensures ReadsSucceed(Env(CFG.u, EMPTY_STORE, CFG.threshold, HEALTHY)) && CFG.u == ASCII && !HEALTHY.commitFails
  {
    AsciiValid();
    hide Text.Valid;
  }

  lemma CandidateValid(c: Candidate)
    requires c.category == Fact && c.confidence == 1.0 && c.related == [] && ASCII.Trim(c.content) != ""
    requires c.subject.Some? && c.subject.value.kind == Person && ASCII.Trim(c.subject.value.name) != ""
    ensures ValidateCandidate(ASCII, c).None? && HasSubject(ASCII, None, c)
  {
    hide Text.Trim;
  }

  lemma NoExplicitSubject()
    ensures EMPTY_STORE.Valid() && CFG.u.Trim(ASKED.rawText) != ""
    ensures ExplicitSubject(CFG.u, EMPTY_STORE, ASKED) == Ok(None) && RequestSubject(CFG, EMPTY_STORE, ASKED) == None
  {
    Trimmed("about Bob");
  }

  /** A name with a blank in front is not stable: with no entity stored, an entity "Bob" is created, which a second
      lookup of " Bob" does not find. */
  lemma BlankedNameIsUnstable(env: Env)
    requires env.u == ASCII && env.tables.entities == map[]
    ensures !NamesStable(env, None, ABOUT_BLANKED)
  {
    var ms := Mentions(ASCII, None, ABOUT_BLANKED);
    assert ms == [BLANKED];
    BobIsTrimmed();
    assert |LowerAll(" Bob")| != |LowerAll("Bob")|;
    assert Unstable(ASCII, env.tables, None, ms, 0);
  }

  /** Ingesting a fact about " Bob" twice into an empty store: both requests succeed, and the second creates an
      entity again. */
  lemma BlankedNameTwice()
    ensures First(ABOUT_BLANKED).result.Ok? && First(ABOUT_BLANKED).tables.Valid()
    ensures var second := RunIngest(CFG, First(ABOUT_BLANKED).tables, ASKED, Some(Ok([ABOUT_BLANKED])), HEALTHY);
            && second.result.Ok? && second.result.value.counters.entities > 0
            && |First(ABOUT_BLANKED).tables.entities| < |second.tables.entities|
  {
    hide *;
    BlankedFacts();
    FirstAccepted(ABOUT_BLANKED);
    FirstIs(ABOUT_BLANKED);
    RepeatedRequestIff(CFG, EMPTY_STORE, ASKED, ABOUT_BLANKED, HEALTHY, HEALTHY);
    BlankedNameIsUnstable(Env(CFG.u, EMPTY_STORE, CFG.threshold, HEALTHY));
    Grows(First(ABOUT_BLANKED).tables, ABOUT_BLANKED);
  }

  /** The tables grow by what the second request counts. */
  lemma Grows(t: Tables, c: Candidate)
    requires t.Valid() && RunIngest(CFG, t, ASKED, Some(Ok([c])), HEALTHY).result.Ok?
    ensures var o := RunIngest(CFG, t, ASKED, Some(Ok([c])), HEALTHY);
            && |o.tables.entities| == |t.entities| + o.result.value.counters.entities
            && |o.tables.memories| == |t.memories| + o.result.value.counters.created
  {
    hide *;
    SettingsValid();
    FirstIs(c);
    IngestEffect(CFG, t, ASKED, Some(Ok([c])), HEALTHY);
    EffectCounts(Env(CFG.u, t, CFG.threshold, HEALTHY), PlanRequest(CFG, t, ASKED, Some(Ok([c])), HEALTHY).value,
                 RunIngest(CFG, t, ASKED, Some(Ok([c])), HEALTHY));
  }

  lemma EffectCounts(env: Env, plan: Plan, o: Outcome)
    requires Effect(env, plan, o)
    ensures o.result.Ok? && |o.tables.entities| == |env.tables.entities| + o.result.value.counters.entities
    ensures |o.tables.memories| == |env.tables.memories| + o.result.value.counters.created
  {
    hide AllKept, RowsInPlanOrder, SkippedEdges;
  }

  lemma BlankedFacts()
    ensures ABOUT_BLANKED.category == Fact && ABOUT_BLANKED.confidence == 1.0 && ABOUT_BLANKED.related == []
    ensures ASCII.Trim(ABOUT_BLANKED.content) != "" && EMPTY_STORE.entities == map[]
    ensures ABOUT_BLANKED.subject == Some(BLANKED) && BLANKED.kind == Person && ASCII.Trim(BLANKED.name) != ""
  {
    BobIsTrimmed();
    Trimmed("likes tea");
  }

  /** Ingesting "!!!" about "Bob" twice: the second request finds the entity and still creates a memory, since
      content without a letter or digit is similar to nothing, itself included. */
  lemma WordlessContentTwice()
    ensures First(EXCLAIMED).result.Ok? && First(EXCLAIMED).tables.Valid()
    ensures var second := RunIngest(CFG, First(EXCLAIMED).tables, ASKED, Some(Ok([EXCLAIMED])), HEALTHY);
            && second.result.Ok? && second.result.value.counters.entities == 0
            && second.result.value.counters.created > 0
            && |First(EXCLAIMED).tables.memories| < |second.tables.memories|
  {
    hide *;
    ExclaimedFacts();
    FirstAccepted(EXCLAIMED);
    FirstIs(EXCLAIMED);
    RepeatedRequestIff(CFG, EMPTY_STORE, ASKED, EXCLAIMED, HEALTHY, HEALTHY);
    ExclaimedIsStable(Env(CFG.u, EMPTY_STORE, CFG.threshold, HEALTHY));
    ExclaimedIsNotQuiet();
    Grows(First(EXCLAIMED).tables, EXCLAIMED);
  }

  lemma ExclaimedFacts()
    ensures EXCLAIMED.category == Fact && EXCLAIMED.confidence == 1.0 && EXCLAIMED.related == []
    ensures ASCII.Trim(EXCLAIMED.content) != ""
    ensures EXCLAIMED.subject == Some(BOB) && BOB.kind == Person && ASCII.Trim(BOB.name) != ""
  {
    BobIsTrimmed();
    Trimmed("!!!");
  }

  lemma ExclaimedIsStable(env: Env)
    requires env.u == ASCII
    ensures NamesStable(env, None, EXCLAIMED)
  {
    assert Mentions(ASCII, None, EXCLAIMED) == [BOB];
    BobIsTrimmed();
    TrimmedNamesAreStable(env, None, EXCLAIMED);
  }

  lemma ExclaimedIsNotQuiet()
    ensures !RepeatIsQuiet(CFG, EMPTY_STORE, None, EXCLAIMED, HEALTHY)
  {
    Trimmed("!!!");
    assert ASCII.Lowered("!!!") == "!!!";
    assert "!!!"[..2] == "!!" && "!!"[..1] == "!" && "!"[..0] == "";
    assert ASCII.Kept("!!!") == ASCII.Kept("!!") == ASCII.Kept("!") == "";
    assert ASCII.Normalized("!!!") == "";
  }

  // ---- the graph after deleting an entity ----

  const ANN := Entity(1, "Ann", Person, None, map[], 0, 0)
  const ANN_LIKES_TEA := Memory(2, 1, "likes tea", Fact, 1.0, None, 0, 0, None, map[])
  const ONE_MEMORY := Tables(false, map[1 := ANN], map[2 := ANN_LIKES_TEA], map[], map[], 3, 0)

  /** Deleting an entity with a memory from a store mirrored exactly leaves the memory's node behind. */
  lemma NodeLeftBehind()
    ensures ONE_MEMORY.Valid()
    ensures var after := WriteBoth(Dual(ONE_MEMORY, Projection(ONE_MEMORY)), DeleteEntityW(1));
            after.Ok? && after.value.graph != Projection(after.value.tables)
  {
    hide *;
    OneMemoryValid();
    DeletionSucceeds();
    OwnsOne();
    ExactIff(Dual(ONE_MEMORY, Projection(ONE_MEMORY)), DeleteEntityW(1));
  }

  lemma DeletionSucceeds()
    ensures WriteBoth(Dual(ONE_MEMORY, Projection(ONE_MEMORY)), DeleteEntityW(1)).Ok?
  {
    hide Projection, WithoutEntity, DetachEntity;
  }

  lemma OneMemoryValid()
    ensures ONE_MEMORY.Valid()
  {
    assert ONE_MEMORY.ValidEntity(1) && ONE_MEMORY.ValidMemory(2);
  }

  lemma OwnsOne()
    ensures exists m :: m in ONE_MEMORY.memories && ONE_MEMORY.memories[m].entityId == 1
  {
    assert 2 in ONE_MEMORY.memories && ONE_MEMORY.memories[2].entityId == 1;
  }

  // ---- a query without terms ----

  /** A blank between quotes is one empty term, and compiles to no expression. */
  lemma QuotedBlank()
    ensures Terms(ASCII, "\" \"") == [""]
    ensures ParseConjunction(FtsQuery(ASCII, "\" \"")).None?
  {
    var q := "\" \"";
    assert q[1..] == " \"" && " \""[1..] == "\"" && "\""[1..] == "" && " "[1..] == "";
    assert ASCII.TrimLeft(" ") == ASCII.TrimLeft("");
    var quoted, taken := Splitter([], "", true), Splitter([], " ", true);
    assert Feed(ASCII, START, '"') == quoted && Feed(ASCII, quoted, ' ') == taken;
    assert Feed(ASCII, taken, '"') == Splitter([""], "", false);
    assert FeedAll(ASCII, START, q) == FeedAll(ASCII, quoted, " \"") == FeedAll(ASCII, taken, "\"")
        == FeedAll(ASCII, Splitter([""], "", false), "");
    hide *;
    OnlyBlank(q);
    FtsQueryParses(ASCII, q);
  }

  lemma OnlyBlank(q: string)
    requires q == "\" \""
    ensures Solid(ASCII, q) == "" && Enclosed(q, 1)
  {
    SpacesOnly(ASCII, q);
    assert q[..1] == "\"" && "\""[..0] == "";
  }

  // ---- a cached edge after deleting its other end ----

  const BEN := Entity(2, "Ben", Person, None, map[], 0, 0)
  const ANN_KNOWS_BEN := Relationship(3, 1, 2, "knows", None, 0, map[])
  const FRIENDS := Tables(false, map[1 := ANN, 2 := BEN], map[], map[3 := ANN_KNOWS_BEN], map[], 4, 0)

  lemma FriendsValid()
    ensures FRIENDS.Valid()
  {
    assert FRIENDS.ValidEntity(1) && FRIENDS.ValidEntity(2) && FRIENDS.ValidRelationship(3);
  }

  /** The context of Ann at depth 1. */
  function AnnContext(): EntityContext {
    EntityContext(ANN, [], [Resolved(ANN_KNOWS_BEN, BEN)])
  }

  lemma AnnContextIs()
    ensures FRIENDS.Valid() && IsContext(FRIENDS, 1, 1, AnnContext())
  {
    hide *;
    FriendsValid();
    NoMemories();
    OnlyEdge();
    AnnResolved();
    ValidIsKeyed(FRIENDS);
    OnTrailIffNear(FRIENDS, 1, ANN_KNOWS_BEN, 1);
    AnnContextFolds();
  }

  lemma NoMemories()
    ensures FRIENDS.Valid() && MemoriesOf(FRIENDS, 1) == []
  {
    FriendsValid();
    assert forall m :: m in MemoriesOf(FRIENDS, 1) ==> m.id in FRIENDS.memories;
  }

  lemma OnlyEdge()
    ensures forall r: Relationship :: IsEdge(FRIENDS, r) <==> r == ANN_KNOWS_BEN
    ensures Near(FRIENDS, 1, ANN_KNOWS_BEN, 1)
  {
  }

  lemma AnnResolved()
    ensures WellResolved(FRIENDS, 1, Resolved(ANN_KNOWS_BEN, BEN))
  {
    forall k: nat
      ensures 1 in Ball(FRIENDS, 1, k)
    {
      BallGrows(FRIENDS, 1, 0, k);
    }
    hide Ball;
    assert Remote(ANN_KNOWS_BEN, 1) == 2 && Touches(ANN_KNOWS_BEN, 1);
  }

  lemma AnnContextFolds()
    requires FRIENDS.Valid() && MemoriesOf(FRIENDS, 1) == [] && WellResolved(FRIENDS, 1, Resolved(ANN_KNOWS_BEN, BEN))
    requires forall r: Relationship :: IsEdge(FRIENDS, r) <==> r == ANN_KNOWS_BEN
    requires OnTrail(FRIENDS, 1, ANN_KNOWS_BEN, 1)
    ensures IsContext(FRIENDS, 1, 1, AnnContext())
  {
    hide WellResolved, IsEdge, OnTrail, MemoriesOf;
    var c := AnnContext();
    assert c.relationships[0].relationship.id == 3;
    assert EdgeIds(c.relationships) == {3};
  }

  /** Reading Ann's context and then deleting Ben leaves an entry that still shows the edge between them. */
  lemma CachedEdgeOutlivesEntity()
    ensures ValidConfig(CFG) && FRIENDS.Valid() && IsContext(FRIENDS, 1, 1, AnnContext())
    ensures !EdgesAgree(Run(CFG, State(FRIENDS, map[]), [ReadContextOp(1, 1, AnnContext()), DeleteEntityOp(2)]))
  {
    hide *;
    SettingsValid();
    AnnContextIs();
    var s := State(FRIENDS, map[]);
    var read := ReadContextOp(1, 1, AnnContext());
    NothingCached();
    RunTwo(s, read, DeleteEntityOp(2));
    ReadIs();
    ApplyAgrees(CFG, s, read);
    AnnCached();
    DeleteKeepsEdgesIff(CFG, Apply(CFG, s, read), 2);
  }

  lemma NothingCached()
    requires FRIENDS.Valid()
    ensures CacheAgreement.Agrees(State(FRIENDS, map[])) && EdgesAgree(State(FRIENDS, map[]))
  {
  }

  lemma RunTwo(s: State, first: Op, second: Op)
    requires ValidConfig(CFG) && s.tables.Valid() && CacheAgreement.Agrees(s)
    ensures Apply(CFG, s, first).tables.Valid()
    ensures Run(CFG, s, [first, second]) == Apply(CFG, Apply(CFG, s, first), second)
  {
    hide *;
    ApplyAgrees(CFG, s, first);
    RunEmpty(s);
    RunSnoc(s, [], first);
    RunSnoc(s, [first], second);
    assert [] + [first] == [first] && [first] + [second] == [first, second];
  }

  lemma RunEmpty(s: State)
    requires ValidConfig(CFG) && s.tables.Valid() && CacheAgreement.Agrees(s)
    ensures Run(CFG, s, []) == s
  {
  }

  lemma RunSnoc(s: State, ops: seq<Op>, op: Op)
    requires ValidConfig(CFG) && s.tables.Valid() && CacheAgreement.Agrees(s)
    ensures Run(CFG, s, ops + [op]) == Apply(CFG, Run(CFG, s, ops), op)
  {
    hide Apply, CacheAgreement.Agrees;
    assert (ops + [op])[..|ops|] == ops;
  }

  lemma ReadIs()
    requires FRIENDS.Valid() && IsContext(FRIENDS, 1, 1, AnnContext())
    ensures Apply(CFG, State(FRIENDS, map[]), ReadContextOp(1, 1, AnnContext()))
        == State(FRIENDS, map[Key(1, 1) := AnnContext()])
  {
    hide IsContext, WriteOf;
  }

  lemma AnnCached()
    ensures CachedNeighbour(State(FRIENDS, map[Key(1, 1) := AnnContext()]), 2) && 2 in FRIENDS.entities
  {
    hide AnnContext;
    var s := State(FRIENDS, map[Key(1, 1) := AnnContext()]);
    assert Key(1, 1) in s.cache && 3 in s.tables.relationships;
    assert Touches(s.tables.relationships[3], Key(1, 1).entity) && Touches(s.tables.relationships[3], 2);
  }

  // ---- counting a relationship that is already stored ----

  const ASKED_OF_ANN := Request("about Ann", Some(1), "", "model", false)
  const BEN_NAMED := CandidateEntity("Ben", Person)
  const KNOWS_BEN := Candidate("knows Ben", RelationshipFact, 1.0, None, [BEN_NAMED], "knows")

  /** Every existence check fails. */
  const BLIND := HEALTHY.(existsFails := (from: Id, to: Id, kind: string) => true)

  const ENV := Env(ASCII, FRIENDS, 0.85, BLIND)

  /** Ingesting that Ann knows Ben, which is stored, while the existence check fails: the request succeeds and
      counts one relationship created, and the table has not grown. */
  lemma CountedAgain()
    ensures ValidConfig(CFG) && FRIENDS.Valid()
    ensures var o := RunIngest(CFG, FRIENDS, ASKED_OF_ANN, Some(Ok([KNOWS_BEN])), BLIND);
            && o.result.Ok? && o.result.value.counters.relationships == 1
            && |FRIENDS.relationships| == |o.tables.relationships| == 1
  {
    hide *;
    SettingsValid();
    FriendsValid();
    var extraction: Extraction := Some(Ok([KNOWS_BEN]));
    var plan := KnowsPlan();
    AskedOfAnn();
    RequestPlan(CFG, FRIENDS, ASKED_OF_ANN, KNOWS_BEN, BLIND);
    IngestAllOrNothing(CFG, FRIENDS, ASKED_OF_ANN, extraction, BLIND);
    ReportedCounters(CFG, FRIENDS, ASKED_OF_ANN, KNOWS_BEN, BLIND);
    IngestEffect(CFG, FRIENDS, ASKED_OF_ANN, extraction, BLIND);
    CountersGiven(plan);
    OneSkipped(plan, RunIngest(CFG, FRIENDS, ASKED_OF_ANN, extraction, BLIND));
  }

  lemma CountersGiven(plan: Plan)
    ensures MemoryCounters(plan.steps, CountEntitiesToCreate(plan.refs), |plan.edges|).relationships == |plan.edges|
  {
  }

  lemma AskedOfAnn()
    ensures FRIENDS.Valid() && ExplicitSubject(CFG.u, FRIENDS, ASKED_OF_ANN) == Ok(Some(ANN))
    ensures CFG.u.Trim(ASKED_OF_ANN.rawText) != "" && !ASKED_OF_ANN.dryRun && !BLIND.commitFails
    ensures Env(CFG.u, FRIENDS, CFG.threshold, BLIND) == ENV
  {
    FriendsValid();
    Trimmed("about Ann");
  }

  lemma NameKeys()
    ensures EntityKey(ASCII, "Ann") == "ann" && EntityKey(ASCII, "Ben") == "ben"
  {
    Trimmed("Ann");
    Trimmed("Ben");
    OneWord("Ann", "ann");
    OneWord("Ben", "ben");
  }

  lemma OneWord(s: string, key: string)
    requires |s| == |key| == 3 && ASCII.Trim(s) == s && ASCII.Lowered(s) == key
    requires forall i :: 0 <= i < 3 ==> IsLetter(key[i])
    ensures ASCII.Normalized(s) == key
  {
    assert key[..2][..1] == key[..1] && key[..1][..0] == "";
    assert ASCII.Kept(key[..1]) == key[..1];
    assert ASCII.Kept(key[..2]) == key[..2];
    assert ASCII.Kept(key) == key;
    assert key[..3] == key && key[3..] == "";
    assert ASCII.RunLength(key) == 3;
    assert ASCII.Fields(key) == [key];
  }

  lemma BenFound()
    ensures FRIENDS.Valid() && FindEntityByName(ASCII, FRIENDS, "Ben") == Ok(BEN)
  {
    FriendsValid();
    assert LowerAll("Ann")[0] == 'a' && LowerAll("Ben")[0] == 'b';
    assert 2 in NameMatches(ASCII, FRIENDS, "Ben") && 1 !in NameMatches(ASCII, FRIENDS, "Ben");
  }

  const ANN_REF := EntityRef("ann", Some(ANN), NO_PARAMS, None)
  const BEN_REF := EntityRef("ben", Some(BEN), NO_PARAMS, None)

  lemma BenResolved()
    ensures FRIENDS.Valid() && StartPlan(ASCII, Some(ANN)) == Plan([], map["ann" := ANN_REF], map[])
    ensures ResolveNames(ENV, Some(ANN), map["ann" := ANN_REF], KNOWS_BEN)
            == Ok(Found(map["ann" := ANN_REF, "ben" := BEN_REF], ["ann", "ben"]))
  {
    hide FindEntityByName, EntityKey;
    NameKeys();
    BenFound();
    Trimmed("Ben");
    assert KNOWS_BEN.related[..0] == [];
    assert ResolveRelated(ENV, map["ann" := ANN_REF], []) == Ok(Found(map["ann" := ANN_REF], []));
    assert ResolveRef(ENV, map["ann" := ANN_REF], BEN_NAMED) == Ok(map["ann" := ANN_REF, "ben" := BEN_REF]);
    hide ResolveRef;
    assert ENV.u.Trim(BEN_NAMED.name) != "" && KNOWS_BEN.related == [BEN_NAMED];
    assert ResolveRelated(ENV, map["ann" := ANN_REF], [BEN_NAMED])
        == Ok(Found(map["ann" := ANN_REF, "ben" := BEN_REF], [] + ["ben"]));
    assert ResolveSubject(ENV, map["ann" := ANN_REF], Some(ANN), KNOWS_BEN)
        == Ok(Found(map["ann" := ANN_REF], ["ann"]));
    assert ["ann"] + ([] + ["ben"]) == ["ann", "ben"];
  }

  /** The edge is planned although it is stored. */
  lemma KnowsPlan() returns (plan: Plan)
    ensures FRIENDS.Valid() && BuildPlan(ENV, Some(ANN), [KNOWS_BEN]) == Ok(plan)
    ensures |plan.edges| == 1 && SkippedEdges(FRIENDS, plan) == plan.edges.Keys
  {
    hide *;
    BenResolved();
    KnowsValid();
    LoneCases(ENV, Some(ANN), KNOWS_BEN);
    plan := KnowsQueued();
  }

  lemma KnowsValid()
    ensures ValidateCandidate(ASCII, KNOWS_BEN).None? && ENV.u == ASCII && ENV.tables == FRIENDS
  {
    Trimmed("knows Ben");
  }

  lemma KnowsQueued() returns (plan: Plan)
    ensures FRIENDS.Valid()
    ensures PlanNamed(ENV, Plan([], map["ann" := ANN_REF], map[]), KNOWS_BEN,
                      Found(map["ann" := ANN_REF, "ben" := BEN_REF], ["ann", "ben"])) == Ok(plan)
    ensures |plan.edges| == 1 && SkippedEdges(FRIENDS, plan) == plan.edges.Keys
  {
    FriendsValid();
    Trimmed("knows");
    var refs := map["ann" := ANN_REF, "ben" := BEN_REF];
    var key := Planner.EdgeKey("ann", "ben", "knows");
    assert ["ann", "ben"][1..] == ["ben"] && ["ben"][..0] == [];
    assert QueueEdges(ENV, map[], refs, "ann", [], "knows") == Queue(map[], false);
    assert QueueEdges(ENV, map[], refs, "ann", ["ben"], "knows")
        == Queue(map[key := EdgePlan(key, "ann", "ben", "knows", None)], true);
    hide QueueEdges;
    plan := PlanNamed(ENV, Plan([], map["ann" := ANN_REF], map[]), KNOWS_BEN, Found(refs, ["ann", "ben"])).value;
    assert FRIENDS.relationships[3].kind == "knows";
    assert StoredWhilePlanning(FRIENDS, refs, plan.edges[key]);
  }

  lemma OneSkipped(plan: Plan, o: Outcome)
    requires FRIENDS.Valid() && Effect(ENV, plan, o)
    requires |plan.edges| == 1 && SkippedEdges(FRIENDS, plan) == plan.edges.Keys
    requires o.result.value.counters.relationships == |plan.edges|
    ensures |FRIENDS.relationships| == |o.tables.relationships| == 1
  {
    hide AllKept, RowsInPlanOrder, SkippedEdges;
    assert |plan.edges.Keys| == |plan.edges|;
    assert FRIENDS.relationships.Keys == {3};
    assert |FRIENDS.relationships| == 1;
  }
}
