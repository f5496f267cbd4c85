# Elephas in Dafny

Elephas keeps what is known about people, places and things: entities, the memories about them, and the
relationships between them, in SQLite or PostgreSQL, optionally mirrored into an Apache AGE graph, with entity
contexts cached in Redis. This project models the parts of Elephas that decide and change that knowledge, and proves
what they promise each other.

`dafny verify dfyconfig.toml` checks everything.

## How it is laid out

The store is one value, `Tables`: finite maps of entities, memories, relationships and audit records with a clock and a
source of fresh identifiers. Every SQL statement is a function on it, with the foreign keys, CHECK and UNIQUE
constraints and ON DELETE rules of the schema; a failing statement changes nothing. `Valid` is the conjunction of those
constraints.

| files | what they hold |
|---|---|
| `Types`, `Ordering`, `Tables`, `Columns`, `Paging` | rows, ORDER BY, the statements and what each does column by column, LIMIT/OFFSET and the two paging loops |
| `Graph`, `FindPath` | directed walks; the bounded breadth-first search and the predecessor walk |
| `Neighbourhood`, `EntityContext` | undirected balls and trails; the hop-by-hop context |
| `Text`, `Trigram`, `Resolution` | normalised text, trigram similarity, the decision for one candidate |
| `Planner`, `PlanProperties`, `PlanMeaning` | the plan of an ingest as a function, what every plan guarantees, and what it says of each candidate |
| `Commit`, `CommitEntities`, `CommitEdges`, `CommitMemories`, `CommitProperties`, `KeyOrder` | the commit as a function, phase by phase, and its theorems |
| `Ingest`, `IngestProperties`, `Reports`, `IngestTouches`, `RepeatIngest`, `RepeatRequest` | whole requests, histories of requests, what they report, what they leave alone, and asking twice |
| `Connection`, `Planning`, `Committing`, `IngestService`, `Service` | the same pipeline as objects updated in place, over a database session in which any statement may fail |
| `ContextCache`, `CacheAgreement` | the cache, and its agreement with the store over every run |
| `AgeGraph`, `AgeAgreement`, `AgeStore`, `AgeIngest`, `AgeQueries` | the graph, dual writes, reconciliation, an ingest over both, and the two graph queries |
| `SearchTerms`, `Filters` | the full-text tokenizer and printer, the filter compiler |
| `Migrate` | the migration runner |
| `Ascii`, `Counterexamples` | a concrete text table meeting every assumption made of text; inputs on which a property fails |

The Go code that fills in maps and slices step by step is modelled twice. A method does the same steps on the same
fields in the same order; its contract ties the new state to a function of the old one. The lemmas are about the
functions, so they hold of the methods. For the ingest that chain is: `Planning.IngestPlan.BuildIngestPlan` equals
`Planner.BuildPlan`; `IngestService.CommitInTx` equals `Commit.CommitPlan`; `Service.Service.Ingest` equals
`Ingest.RunIngest`; the theorems are about `RunIngest`.

## What is assumed

- One service runs at a time: no writer comes between plan and commit, or between a store read and a cache fill.
- Unicode tables and the database's `lower()` are a parameter of type `Text`. `Text.Valid` lists what is assumed:
  lowering is idempotent and neither makes nor unmakes a space, spaces are neither letters nor digits, `-`, `>` and `:` are none of the three, and names the
  database takes for equal up to case normalise to the same text. `Ascii.AsciiValid` shows the list can be met.
- ORDER BY is refined to a total order by breaking ties on the identifier.
- Similarity, confidence and weight are exact reals.
- The extractor's answer, the failing reads of a planning run, the fate of its transaction, the failing statements of
  its audit and those of a session are arbitrary parameters.

## Where the code and its documentation differ

The model follows the code.

- The repository's design document, in its section on category-specific rules, calls events and facts additive. In the
  code (`service_ingest.go:618-630`) they are updated, merged or skipped at the threshold like any other category.
- The same section merges a relationship memory when its edge exists. In the code
  (`service_ingest.go:318-327`) it merges also when the edge is only queued.
- Its description of the commit lists merge among the actions executed on memories. In the code
  (`service_ingest.go:530-562`) it writes nothing.
- The SQL path carries each interior entity's outgoing edge and no edge at either end, so a path of one edge has no
  edge at all (`internal/store/sqlstore/store.go:758-784`). The AGE path carries the incoming edge
  (`internal/store/age/age.go:377-379`). `FindPath.IsPathOf` states the SQL labels as coded.

## What turned out false, and exactly when it holds

Each entry names the exact condition and an input on which the property fails.

- Repeating a one-candidate ingest can create again: `RepeatIngest.RepeatCreatesNothingIff` and, for whole requests,
  `RepeatRequest.RepeatedRequestIff` give the condition, `Counterexamples.BlankedNameTwice` (the name `" Bob"`) and
  `Counterexamples.WordlessContentTwice` (the content `"!!!"`) the inputs, `Ascii.TrimmedNamesAreStable` the usual case.
- The reported number of relationships can exceed the growth of the table: `CommitProperties.CommitCounts`,
  `Counterexamples.CountedAgain`.
- Cached edges can outlive a deleted entity: `CacheAgreement.DeleteKeepsEdgesIff`,
  `Counterexamples.CachedEdgeOutlivesEntity`.
- The graph is not always exactly the projection of the tables: `AgeAgreement.ExactIff`,
  `Counterexamples.NodeLeftBehind`.
- A query can have terms and still compile to an empty full-text expression: `SearchTerms.FtsQueryParses`,
  `Counterexamples.QuotedBlank`.

`Paging.SteppedCompleteIff` says when stepping by a page size reads a whole listing; the page size used, 500, is within
the clamp.

## Model

| member | source | states |
|---|---|---|
| `FindPath.FindPath` | internal/store/sqlstore/store.go:596-651 | with distinct endpoints it succeeds exactly when a directed path of at most the capped depth exists; the answer follows a shortest such path; equal endpoints answer the entity alone or not found; both loops terminate |
| `FindPath.BuildPath` | internal/store/sqlstore/store.go:745-787 | from a search tree, walking predecessors rebuilds the recorded walk entity by entity with the labels as coded; the missing-predecessor error cannot occur |
| `FindPath.ListAllOutgoing` | internal/store/sqlstore/store.go:808-827 | the paging loop returns every outgoing edge of an entity, in listing order |
| `Graph.WalkIffChain` | internal/store/sqlstore/store.go:758-764 | the walks used to state path results are exactly the sequences of stored edges each starting where the last ended |
| `Graph.WalkStaysInside` | internal/migrate/migrations/sqlite/0001_initial_schema.sql:55-64 | with foreign keys in force a walk never leaves the entity table |
| `EntityContext.GetEntityContext` | internal/store/sqlstore/store.go:531-594 | the entity, all its memories in listing order, and exactly the edges on some edge-distinct undirected trail of 1 to depth hops, each once; not found exactly for a missing root |
| `EntityContext.CollectHops` | internal/store/sqlstore/store.go:551-591 | after depth hops the entries are exactly the edges touching an entity nearer than depth, each once, self-loops and parallel edges included; each names the end not nearer to the root |
| `EntityContext.ListAllMemoriesForEntity` | internal/store/sqlstore/store.go:829-849 | the paging loop returns all memories of the entity, expired ones included |
| `Neighbourhood.OnTrailIffNear` | internal/store/age/age.go:307-312 | an edge is on a trail of 1 to depth hops from the root if and only if one of its ends is at distance less than depth |
| `Neighbourhood.BallIffTrail` | internal/store/age/age.go:307-312 | an entity is within distance k if and only if some trail of at most k hops ends there |
| `Paging.ListAllByStep` | internal/store/sqlstore/store.go:808-849 | stepping by the page size until a short page returns the stepped listing, all of it when the page size respects the clamp |
| `Paging.SteppedCompleteIff` | internal/store/sqlstore/store.go:1101-1109 | stepping reads the whole listing if and only if the page size is within the clamp or one clamped page holds every row |
| `Paging.SteppedSuffix` | internal/store/sqlstore/store.go:808-849 | from any offset, stepping within the clamp collects exactly the rows from that offset on |
| `Paging.ListAllWhileMore` | internal/store/age/age.go:591-641 | stepping by what each page held until HasMore is false terminates and returns the whole listing once, in order, for every requested limit |
| `Tables.CreateEntity` | internal/store/sqlstore/store.go:264-277 | a successful insert keeps keys, foreign keys, CHECK and UNIQUE constraints |
| `Tables.UpdateEntity` | internal/store/sqlstore/store.go:309-348 | a successful patch keeps the constraints; its columns are those of `Columns.EntityPatched` |
| `Tables.DeleteEntity` | internal/store/sqlstore/store.go:350-356 | the cascade to memories and relationships and the cleared audit subjects leave every constraint in force |
| `Tables.WithoutEntityValid` | internal/migrate/migrations/sqlite/0001_initial_schema.sql:39-64 | the ON DELETE rules leave no dangling reference |
| `Tables.CreateMemory` | internal/store/sqlstore/store.go:112-136 | a successful insert keeps the constraints |
| `Tables.UpdateMemory` | internal/store/sqlstore/store.go:148-195 | a successful patch keeps the constraints, whichever columns it assigns |
| `Tables.DeleteMemory` | internal/store/sqlstore/store.go:197-203 | a deletion keeps the constraints |
| `Tables.CreateRelationship` | internal/store/sqlstore/store.go:417-439 | a successful insert keeps UNIQUE (from, to, type) and both foreign keys |
| `Tables.DeleteRelationship` | internal/store/sqlstore/store.go:451-457 | a deletion keeps the constraints |
| `Tables.CreateIngestSource` | internal/store/sqlstore/store.go:693-706 | a successful insert keeps the constraints |
| `Columns.EntityInserted` | internal/store/sqlstore/store.go:264-277 | succeeds exactly for a type of the schema and an external id no entity carries; the new row has the given columns under a fresh id, and nothing else changes |
| `Columns.EntityPatched` | internal/store/sqlstore/store.go:309-348 | succeeds exactly when the row exists, the new type and external id are admissible and, outside sqlite, the external id is not both set and cleared; a patched column has the patch's value, a cleared external id is gone, every other column keeps its own, the update time moves unless there is nothing to set, and no other row changes |
| `Columns.MemoryInserted` | internal/store/sqlstore/store.go:112-136 | succeeds exactly with a stored owner, a category of the schema, a confidence in [0,1] and a stored source if any; the new row has the given columns |
| `Columns.MemoryPatched` | internal/store/sqlstore/store.go:148-195 | succeeds exactly when the row exists, confidence and source are admissible and, outside sqlite, no column is both set and cleared; columns as for an entity patch, owner, category and creation time kept, and no other row changes |
| `Columns.RelationshipInserted` | internal/store/sqlstore/store.go:417-439 | succeeds exactly with both ends stored and no relationship of the same ends and type; the new row has the given columns |
| `Columns.SourceInserted` | internal/store/sqlstore/store.go:693-706 | succeeds exactly when the subject, if any, is stored; the new record has the given columns |
| `Columns.RowConstraints` | internal/migrate/migrations/sqlite/0001_initial_schema.sql:9-64 | every stored row: its key, the types and categories of the schema, confidence in [0,1], and foreign keys that resolve |
| `Columns.UniqueConstraints` | internal/migrate/migrations/sqlite/0001_initial_schema.sql:9-64 | no two entities share an external id and no two relationships their ends and type |
| `Tables.ActiveMemories` | internal/store/sqlstore/store.go:244-262 | the listing holds exactly the unexpired memories of the entity and category, each once |
| `Tables.Incident` | internal/store/sqlstore/store.go:789-806 | the listing holds exactly the edges touching the entity at either end, each once, a self-loop too |
| `Columns.MemoriesInOrder` | internal/store/sqlstore/store.go:216-262 | both memory listings run from the latest update to the earliest, ties by id |
| `Columns.EdgesInOrder` | internal/store/sqlstore/store.go:789-827 | the relationship listings run from the latest created to the earliest, ties by id |
| `Ordering.SelectSorted` | internal/store/sqlstore/store.go:216-222 | listed rows come in the order of the sort key |
| `Text.NormalizedText` | service_ingest.go:699-710 | the character loop computes the normalised text |
| `Text.NormalizedIdempotent` | service_ingest.go:699-723 | normalising twice is normalising once, so entity keys are stable |
| `Text.NormalizedIsNormal` | service_ingest.go:699-710 | normalised text holds only lowered letters and digits and single interior blanks |
| `Text.NormalizedTrim` | service_ingest.go:420-420 | surrounding space never changes the key of a name |
| `Text.NormalizedAtSpace` | service_ingest.go:699-710 | at any space, the normal form of a text is the normal forms of the two sides, one blank between them unless a side is empty |
| `Text.NormalizedDrops` | service_ingest.go:699-710 | a character that is neither space nor, lowered, a letter or digit is dropped and its neighbours join: O'Brien becomes obrien |
| `Text.NormalizedWord` | service_ingest.go:699-710 | letters and digits alone are lowered one by one; with the two rows above this determines every normal form |
| `Text.TrimTakesSpaces` | service_ingest.go:364-420 | trimming takes a run of spaces off either end and leaves none there |
| `Trigram.Trigrams` | service_ingest.go:712-719 | the byte loop yields exactly the trigrams of the text, which `Trigram.GramBytes` gives byte by byte |
| `Trigram.GramBytes` | service_ingest.go:712-719 | a text of n bytes has n + 2 trigrams, and byte j of trigram k is byte k + j - 2 of the text, or a blank outside it |
| `Trigram.EncodeDecodes` | service_ingest.go:712-719 | the bytes of a character announce their number, continue as UTF-8 does, are as few as possible and decode to the character |
| `Trigram.Utf8Decodes` | service_ingest.go:712-719 | the bytes of a text decode to its characters, in order |
| `Trigram.CountGrams` | service_ingest.go:674-681 | the counting map holds exactly the multiplicities of the trigrams |
| `Trigram.TrigramSimilarity` | service_ingest.go:659-697 | the map-walking loops compute the similarity whatever order the map is walked in |
| `Trigram.SimilarityLaws` | service_ingest.go:659-697 | for texts that normalise to something, similarity times the two numbers of trigrams is twice the number shared, counted with multiplicity; it is symmetric, in [0,1], and 1 exactly when the multisets are equal |
| `Trigram.SimilarityRange` | service_ingest.go:659-672 | always in [0,1]; positive only if both texts normalise to something; 1 for equal non-empty normal forms |
| `Trigram.SimilarityOfNormalForms` | service_ingest.go:659-672 | the similarity depends on the normal forms only |
| `Resolution.ResolveMemoryAction` | service_ingest.go:600-632 | the scan takes the decision that `Resolution.ResolveMatches` characterises |
| `Resolution.BestIndexIsFirstMaximum` | service_ingest.go:605-614 | the scan settles on the first memory of greatest score, and on none only if every score is 0 |
| `Resolution.ResolveMatches` | service_ingest.go:600-632 | create exactly when no score is positive and at the threshold; otherwise the target is the first memory of greatest score, and the action is update exactly for a preference, an instruction or a target less confident than the candidate, merge exactly when that fails and the normal forms are equal or the score is at least 0.98, and no-op in all other cases; each with its own reason |
| `Resolution.ThresholdMonotone` | service_ingest.go:616-618 | raising the threshold can only turn a decision into create |
| `Resolution.UpdateRaisesConfidence` | service_ingest.go:622-626 | outside preference and instruction an update is more confident than its target |
| `Planner.FindEntityByName` | internal/store/sqlstore/store.go:299-307 | finds an entity exactly when one matches up to the database's lower(), and then the oldest |
| `Planner.OldestFound` | internal/store/sqlstore/store.go:299-307 | of all entities of that name none was created before the one found, nor at the same time with a smaller id |
| `PlanMeaning.CandidateChecked` | service_ingest.go:634-657 | a candidate is accepted exactly with some content, a category of the schema, a confidence in [0,1] and types of the schema, or none, for its names |
| `PlanMeaning.PlanMeans` | service_ingest.go:271-427 | each step follows from its candidate, the store and the request's subject alone: its keys are the normal forms of the subject's and the related names, blank ones skipped; its type is the one given, or related_to for a relationship fact with related names; an edge fact merges and anything else is decided against the subject's active memories of the category; each reference names an entity found under a mentioned name, or one to create with the trimmed name, the given type or concept, and the ingest's mark |
| `PlanMeaning.QueueMeans` | service_ingest.go:429-457 | exactly the edges to related names not seen stored are queued, each from the subject, of the stated type; the flag says whether any was new |
| `PlanMeaning.ReasonMeans` | service_ingest.go:318-327 | a relationship fact says in its reason whether planning it queued an edge |
| `PlanMeaning.PlanSucceedsIff` | service_ingest.go:271-344 | with no failing read, planning succeeds exactly when every candidate is accepted and is about the request's subject or names one |
| `PlanProperties.BuildPlanOk` | service_ingest.go:271-344 | whatever the candidates and failing reads: refs keyed by their own key and naming stored or creatable entities, steps and edges with resolvable keys, a target on every update step, owned by the step's subject and category, edge keys decoding to their edge |
| `PlanProperties.BuildPlanAsked` | service_ingest.go:429-457 | every edge a step asks for is queued, or was seen stored |
| `PlanProperties.OneStepEach` | service_ingest.go:290-341 | one step for each candidate, in order |
| `PlanProperties.SamePlans` | service_ingest.go:271-344 | what fails after planning, in the transaction or the audit, does not change the plan |
| `PlanProperties.NewRefOk` | service_ingest.go:394-427 | a fresh reference names a stored entity of the same key or parameters whose trimmed name has that key |
| `Planning.IngestPlan.ResolveEntityRef` | service_ingest.go:394-427 | the table of references grows exactly as specified and the returned reference is its entry for the name |
| `Planning.IngestPlan.ResolveCandidateSubject` | service_ingest.go:364-377 | explicit subject, named subject or error, as specified |
| `Planning.IngestPlan.ResolveRelatedEntities` | service_ingest.go:379-392 | the related names in order, blank ones skipped |
| `Planning.IngestPlan.QueueRelationships` | service_ingest.go:429-457 | the edge map, the flag and the reason after queueing are those specified |
| `Planning.IngestPlan.CachedSubjectMemories` | service_ingest.go:346-362 | the cached listing is the listing: planning sees one snapshot |
| `Planning.IngestPlan.PlanOneCandidate` | service_ingest.go:290-341 | one candidate changes steps, references and edges exactly as specified, with the error of the first failing stage |
| `Planning.IngestPlan.BuildIngestPlan` | service_ingest.go:271-344 | the plan filled in place equals the specified plan, for every candidate list and every pattern of failing reads |
| `CommitEdges.EdgeKeyUnique` | service_ingest.go:432-432 | a from->to:type key determines both keys and the type |
| `CommitEdges.KeyIsPlain` | service_ingest.go:721-723 | no entity key contains a separator of the edge keys |
| `CommitEntities.EntitiesCommitted` | service_ingest.go:459-480 | every reference ends up with a stored entity, created ones under fresh ids, distinct keys under distinct ids |
| `CommitEdges.EdgesCommitted` | service_ingest.go:482-518 | every planned edge is stored afterwards, created ones under fresh ids, and nothing else is added |
| `CommitMemories.MemoriesCommitted` | service_ingest.go:520-580 | each stored memory becomes what the steps aimed at it make of it, each create step adds one row, and the committed rows follow the plan |
| `CommitMemories.LastTargetWins` | service_ingest.go:544-562 | the last step to target a memory decides its content and confidence |
| `CommitMemories.ConfidenceNeverFalls` | service_ingest.go:544-562 | several updates of one memory never end below the confidence it had |
| `CommitProperties.CommitNeverFails` | service_ingest.go:482-552 | a plan commits without error: none of the three internal errors and no constraint violation can occur |
| `CommitProperties.CommitCounts` | service_ingest.go:459-598 | entities and memories grow by exactly the planned counts, and relationships by exactly the planned edges not stored before; that is every planned edge if and only if none of them joins two entities known while planning whose edge was stored then, which needs a failed existence check |
| `CommitProperties.CommitKeepsMemories` | service_ingest.go:520-580 | stored memories keep id, owner, category, creation time, expiry and source; untargeted ones are unchanged; update targets belong to their step's subject and category; the committed rows are the create and update steps in plan order |
| `CommitProperties.AskedEdgesStored` | service_ingest.go:482-518 | after the commit every edge a candidate asked for is in the relationship table |
| `Reports.CommitReports` | service_ingest.go:459-580 | a step reports exactly the entities created for its names, the relationships created from its subject and the memory it created; created rows have the planned columns, new memories the candidate's own, no expiry and the ingest's mark |
| `KeyOrder.SortedKeys` | service_ingest.go:461-465 | the keys of a map, each once, in order |
| `KeyOrder.LeqMeans` | service_ingest.go:461-487 | that order is the lexicographic one: a prefix, or the smaller character where two keys first differ |
| `Committing.CreatePlannedEntities` | service_ingest.go:459-480 | the in-place loop, if it succeeds, has done exactly the specified phase; without driver failures it follows it either way |
| `Committing.CreatePlannedRelationships` | service_ingest.go:482-518 | the same for the edges |
| `Committing.ExecutePlannedMemories` | service_ingest.go:520-580 | the same for the memory steps and the step reports rewritten in place |
| `Committing.CollectCreatedRelations` | service_ingest.go:567-575 | the relationship ids reported for a subject do not depend on the order in which the map is walked |
| `IngestService.CommitInTx` | service_ingest.go:168-196 | an error, of any statement or of the commit itself, leaves the tables as they were and is the specified one or the driver's; success is exactly the specified commit; without driver failures it succeeds whenever the specification does |
| `Ingest.CountersSum` | service_ingest.go:138-149 | every step counts under exactly one of the four memory counters |
| `Ingest.CountersMean` | service_ingest.go:138-149 | each memory counter is the number of steps that take its action |
| `Ingest.SubjectMeans` | service_ingest.go:251-269 | the explicit subject is the entity of the given id, else one carrying the given external id, else none; a subject given and not stored is not found |
| `PlanMeaning.IngestSucceedsIff` | service_ingest.go:46-249 | with no failing read, a request succeeds exactly when it has a text, an extractor that answers, a stored subject if it names one and candidates that can be planned, and its transaction does not fail if it needs one |
| `IngestProperties.IngestAllOrNothing` | service_ingest.go:46-249 | a request fails exactly when planning fails or its transaction does; a failed or dry request, or one without candidates, leaves the store as it was; a committed one leaves a valid store, however much of its audit fails |
| `IngestProperties.DryRunAgrees` | service_ingest.go:132-167 | a dry run and a commit from the same store agree on actions, targets, reasons and counters, and the four memory counters sum to the number of candidates |
| `IngestProperties.IngestEffect` | service_ingest.go:168-219 | entities and memories grow by the reported counters, relationships by the reported counter less the planned edges that were stored all along, so by the counter if and only if there is none; every stored memory is kept as promised; the answer lists the committed rows in plan order, as stored where the audit linked them |
| `Reports.IngestReports` | service_ingest.go:168-219 | the answer's steps are those the commit finished, so they report what it created |
| `Counterexamples.CountedAgain` | service_ingest.go:429-457 | a stored relationship whose existence check fails is counted as created, and the table does not grow |
| `IngestProperties.AuditLinks` | service_ingest.go:762-802 | auditing adds one record, with the request's text and model, its subject and the action of every step, and changes nothing but the source ids and update times of the committed rows whose statement went through; if the record fails nothing changes |
| `IngestProperties.BackfillLinks` | service_ingest.go:786-799 | the backfill links exactly the committed rows whose statement does not fail, and returns the others as committed |
| `IngestProperties.HistoryPersists` | service_ingest.go:544-632 | over any history of ingests, with any failing reads, transactions and audit statements, no memory disappears or changes owner, category, creation time or expiry, and outside preference and instruction its confidence never falls |
| `IngestService.RecordAudit` | service_ingest.go:762-802 | whichever statements fail, store and answer are exactly those of the specified audit for those failures |
| `IngestService.InvalidateTouched` | service_ingest.go:221-234 | the loop over the steps invalidates exactly the touched entities |
| `IngestService.CountToCreate` | service_ingest.go:590-598 | the count does not depend on the order in which the map is walked |
| `IngestTouches.CommitTouches` | service_ingest.go:221-234 | an entity outside the touched ones keeps its row, its memories and its edges through the commit |
| `IngestTouches.TouchesMean` | service_ingest.go:221-234 | the touched entities are the steps' subjects, as planned or created, and the related entities of a step that created a relationship |
| `IngestTouches.IngestUntouched` | service_ingest.go:168-234 | the same for the whole request, audit included; a request that does not commit changes nothing |
| `IngestTouches.EdgeEndsTouched` | service_ingest.go:221-234 | both ends of every created edge are among the touched entities |
| `RepeatIngest.RepeatCreatesNothingIff` | service_ingest.go:394-427 | ingesting one candidate again before any memory expires creates no entity if and only if every name first looked up in vain reads the same once trimmed; then it creates no edge either, and no memory exactly when the candidate is an edge fact or its content normalises to some text |
| `RepeatRequest.RepeatedRequestIff` | service_ingest.go:46-249 | a committed one-candidate request sent again, clock unmoved, succeeds, and its counters of entities, relationships and memories created are 0 under exactly the same conditions |
| `RepeatRequest.SameSubject` | service_ingest.go:251-269 | the second request finds the same explicit subject, by id or by external id |
| `Ascii.TrimmedNamesAreStable` | service_ingest.go:400-420 | names without surrounding space meet that condition |
| `Counterexamples.BlankedNameTwice` | service_ingest.go:400-420 | a fact about `" Bob"` ingested twice into an empty store: both requests succeed and the second creates an entity again |
| `Counterexamples.WordlessContentTwice` | service_ingest.go:659-672 | the fact `"!!!"` about `"Bob"` ingested twice: the second request finds the entity and creates a memory again |
| `Ascii.AsciiValid` | service_ingest.go:699-710 | the assumptions on text can be met |
| `Service.Service.Ingest` | service_ingest.go:46-249 | for every schedule of failing statements, answer, store and cache are exactly those of an ingest in which the transaction failed or not and certain audit statements failed; without driver failures none of them did; an error leaves store and cache as they were |
| `Service.Service.GetEntityContext` | service_crud.go:156-186 | a cached entry is returned as it is; otherwise the store's context is returned and cached; depths outside 0..3 are refused |
| `Service.Service.FindPath` | service_crud.go:188-196 | for depths 1..6: with distinct endpoints it succeeds exactly when a path of that many edges exists, with equal ones exactly when the entity is stored; other depths are refused |
| `Service.Service.CreateMemory` | service_crud.go:11-23 | success takes exactly this step of the state machine and only when validation and the store accept it; failure has no effect and without driver failures means that one of them refused; the answer is the new row as stored |
| `Service.Service.UpdateMemory` | service_crud.go:29-46 | the same for a patch; the answer is the row as stored, patched column by column, and no other row changes |
| `Service.Service.DeleteMemory` | service_crud.go:48-60 | the same for a deletion; an unknown memory is refused |
| `Service.Service.CreateEntity` | service_crud.go:76-81 | the same for an entity; the answer is the new row as stored, and no cached entry goes |
| `Service.Service.UpdateEntity` | service_crud.go:87-99 | the same for a patch; the answer is the row as stored, patched column by column, and no other row changes |
| `Service.Service.DeleteEntity` | service_crud.go:101-108 | the same for a deletion with its cascade; an unknown entity is refused |
| `Service.Service.CreateRelationship` | service_crud.go:117-129 | the same for an edge; the answer is the new row as stored, and both ends lose their entries |
| `Service.Service.DeleteRelationship` | service_crud.go:135-147 | the same for a deletion; both ends lose their entries |
| `ContextCache.Cache.DeleteEntityContext` | internal/cache/redis/cache.go:63-71 | the entity loses its entries of depth 0 to 3 and no other entry goes |
| `ContextCache.Cache.InvalidateEntityContext` | service_crud.go:206-224 | every listed entity but the nil one loses its entries, repeated ones once |
| `ContextCache.InvalidatedIff` | service_crud.go:206-224 | an invalidation keeps every entry but those of depth 0 to 3 of a listed entity other than the nil one |
| `CacheAgreement.RunAgrees` | service_crud.go:11-224 | after any run of mutations, ingests with any failing reads, transactions and audit statements, reads, evictions and passing time: every cached entry shows the stored entity and its stored memories; if no entity was deleted, every entry of depth at least 1 shows exactly the stored relationships at its root |
| `CacheAgreement.ApplyAgrees` | service_crud.go:11-224 | every single operation keeps both agreements, deleting an entity the first |
| `CacheAgreement.FreshAgrees` | internal/store/sqlstore/store.go:531-594 | a context just read agrees, its root edges included |
| `CacheAgreement.DeleteKeepsEdgesIff` | service_crud.go:101-108 | deleting an entity keeps the edge agreement if and only if no neighbour of it is cached at depth at least 1 |
| `Counterexamples.CachedEdgeOutlivesEntity` | service_crud.go:101-108 | a run that reads an entity's context and then deletes its neighbour leaves an entry that shows an edge the store no longer has |
| `AgeStore.AgeStore.RunInTx` | internal/store/age/age.go:64-81 | tables and graph both take all writes of the transaction, or both are as before |
| `AgeStore.AgeStore.WriteInTx` | internal/store/age/age.go:130-282 | success is exactly the specified pair of table and graph updates |
| `AgeStore.AgeStore.Write` | internal/store/age/age.go:130-282 | outside a transaction a write runs in one of its own, all or nothing; without driver failures it succeeds exactly when the specified pair of updates does |
| `AgeStore.AgeStore.SyncMemory` | internal/store/age/age.go:471-493 | the owner's node with its row's columns, the memory's node with its own and the HAS_MEMORY edge; nothing else changes |
| `AgeStore.AgeStore.SyncRelationship` | internal/store/age/age.go:495-520 | both ends' nodes with their rows' columns and the RELATIONSHIP edge with the relationship's type, weight and metadata; nothing else changes |
| `AgeStore.AgeStore.Reconcile` | internal/store/age/age.go:83-128 | from any graph whatever, success leaves exactly the projection of the tables, every node and edge with its row's columns; without driver failures it succeeds |
| `AgeStore.AgeStore.SyncAllEntities` | internal/store/age/age.go:91-99 | after the first loop the graph holds exactly the entity nodes |
| `AgeStore.AgeStore.SyncAllMemories` | internal/store/age/age.go:101-109 | after the second, exactly the memories too: syncing owners again changes nothing |
| `AgeStore.AgeStore.SyncAllRelationships` | internal/store/age/age.go:111-119 | after the third, exactly the relationships too |
| `AgeStore.SyncedIsProjection` | internal/store/age/age.go:591-641 | syncing the three whole listings gives the projection of the tables |
| `AgeAgreement.WriteAgrees` | internal/store/age/age.go:130-282 | from agreement a write fails only if its table statement fails, never for a missing node, and otherwise both sides agree again |
| `AgeAgreement.WritesAgree` | internal/store/age/age.go:64-81 | from agreement a transaction's writes all succeed exactly when they do on the tables alone, with the same tables and a graph that agrees |
| `AgeAgreement.AgreesIffMirrors` | internal/store/age/age.go:460-520 | the graph agrees with the tables exactly when its Entity nodes are the stored entities with their name, type, external id and metadata, its edges the stored relationships with their ends, type, weight and metadata, and every memory has a node with its seven columns and its HAS_MEMORY edge |
| `AgeAgreement.ProjectionMirrors` | internal/store/age/age.go:83-128 | so does the projection, which has no other node and one edge for each relationship |
| `AgeAgreement.HistoryAgrees` | internal/store/age/age.go:64-282 | after any history of committed and rolled-back transactions Entity nodes and RELATIONSHIP edges equal the tables property by property, every memory has its node, with its columns, and its HAS_MEMORY edge, and a Memory node without a row is isolated |
| `AgeIngest.CommitWritten` | service_ingest.go:168-196 | the writes a commit makes, one after another in one transaction, are the commit |
| `AgeIngest.IngestOverAge` | internal/store/age/age.go:64-81 | an ingest over the AGE store, its commit one transaction and each audit statement one of its own, ends with the tables of the specified ingest and a graph that agrees with them, whichever of them fail |
| `AgeAgreement.ExactIff` | internal/store/age/age.go:176-187 | a write keeps the graph an exact projection if and only if it does not delete an entity that has memories |
| `Counterexamples.NodeLeftBehind` | internal/store/age/age.go:176-187 | deleting an entity that has a memory, over an exactly mirrored store, leaves a graph that is not the projection |
| `AgeQueries.TrailQueryAgrees` | internal/store/age/age.go:307-312 | over an agreeing graph the trail query finds exactly the relationships of the hop-by-hop context |
| `AgeQueries.PathQueryAgrees` | internal/store/age/age.go:376-380 | over an agreeing graph paths of a given length exist in the graph exactly when they do in the tables, so shortest lengths agree |
| `SearchTerms.SplitSearchTerms` | internal/store/sqlstore/store.go:951-983 | the loop computes the query's terms, which the next four rows determine |
| `SearchTerms.TermsAtSpace` | internal/store/sqlstore/store.go:951-983 | at a space outside quotes the terms are those of the two sides |
| `SearchTerms.TermsAtQuotes` | internal/store/sqlstore/store.go:951-983 | a quoted text is one term, trimmed, between the terms of the two sides; an empty one is none |
| `SearchTerms.TermsUnclosed` | internal/store/sqlstore/store.go:951-983 | a quote that is never closed makes one term of the rest |
| `SearchTerms.TermsOfRun` | internal/store/sqlstore/store.go:951-983 | a run of characters that are neither spaces nor quotes is one term |
| `SearchTerms.TermsConserve` | internal/store/sqlstore/store.go:951-983 | the terms carry exactly the query's characters other than spaces and quotes, in order |
| `SearchTerms.TermsAreTerms` | internal/store/sqlstore/store.go:951-983 | no term contains a quote or has space at an end |
| `SearchTerms.SplitPrinted` | internal/store/sqlstore/store.go:951-983 | printing the non-empty terms as quoted strings and splitting again returns them |
| `SearchTerms.SqliteFtsQuery` | internal/store/sqlstore/store.go:935-949 | the loop computes the expression that `SearchTerms.FtsQueryParses` reads back |
| `SearchTerms.TwoWords` | internal/store/sqlstore/store.go:935-949 | two words with a space between become the two quoted words joined by AND |
| `SearchTerms.ParsePrinted` | internal/store/sqlstore/store.go:941-948 | any list of terms, quotes included, reads back from its AND-joined expression |
| `SearchTerms.FtsQueryParses` | internal/store/sqlstore/store.go:935-949 | a query with a character other than spaces and quotes becomes an expression that parses back to exactly its non-empty terms, and one without terms the expression of one empty string; any other becomes no expression exactly when one of its characters stands between quotes |
| `SearchTerms.TermsIff` | internal/store/sqlstore/store.go:951-983 | a query has terms if and only if it has a character other than a quote that is no space or stands between quotes |
| `Counterexamples.QuotedBlank` | internal/store/sqlstore/store.go:935-949 | the query of a blank between quotes has one empty term and compiles to no expression |
| `Filters.MemoryWhere` | internal/store/sqlstore/store.go:851-875 | under both binding styles the clauses mean the filter's conditions whatever arguments follow, and bind every argument once, in order |
| `Filters.CompileListing` | internal/store/sqlstore/store.go:205-222 | the statement keeps exactly the rows of the filter, with its limit and offset, and no argument is unused or out of range |
| `Filters.SearchWhere` | internal/store/sqlstore/store.go:877-910 | the same for a search with any number of categories |
| `Filters.CompileSearch` | internal/store/sqlstore/store.go:653-659 | a blank query is refused; any other compiles to a statement that means the search's conditions and applies its own limit, clamped to the configured default and maximum; the numbered form reuses placeholder 1 for ranking by the query |
| `Paging.SearchLimit` | internal/store/sqlstore/store.go:1101-1122 | the limit is positive and at most the maximum; a requested limit in range is taken as it is, one above it becomes the maximum, and none requested becomes the configured default, or 20, clamped to the maximum |
| `Filters.FilterMeaning` | internal/store/sqlstore/store.go:851-875 | the compiled conditions are the filter's own predicate |
| `Filters.SearchMeaning` | internal/store/sqlstore/store.go:877-910 | the compiled conditions are the search's own predicate |
| `Filters.SearchText` | internal/store/sqlstore/store.go:877-949 | postgres matches by the query itself, sqlite by an expression that parses back to the query's non-empty terms |
| `Migrate.LoadMigrations` | internal/migrate/migrate.go:91-124 | the names in order, each once, without the graph projection on plain postgres |
| `Migrate.Runner.Apply` | internal/migrate/migrate.go:46-66 | a migration and its record take effect together or not at all |
| `Migrate.Runner.Run` | internal/migrate/migrate.go:25-70 | whatever fails, the first missing migrations were applied with their records, in order; success means none is missing |
| `Migrate.Runner.Current` | internal/migrate/migrate.go:72-89 | true exactly when nothing is missing |
| `Migrate.RunsApplyPrefix` | internal/migrate/migrate.go:25-70 | however often the runner fails and restarts, the applied migrations are the first ones in order, each once |

## Left out

- HTTP routing, JSON and Cypher text, authentication, logging, configuration and process start-up: input and output around the modelled logic.
- The OpenAI extractor: its answer is an arbitrary candidate list or error.
- Full-text matching and ranking (`bm25`, `ts_rank_cd`): the match of an expression against a memory is an uninterpreted predicate.
- Concurrent services: a writer between plan and commit, and a cache fill racing an invalidation. The code guards neither.
- A commit that takes effect although the driver reports an error: a reported error means that the transaction was undone.
- Cache operations that fail: the code logs and goes on, and a failed deletion leaves the entry in place, so no agreement holds then. A service without a cache is not modelled.
- Cached related-entity payloads and cached edges more than one hop from the root: updating or deleting a neighbour invalidates only that neighbour.
- Equality of whole AGE and SQL contexts: the AGE store reads at most 500 memories and names related entities relative to the root. The edge sets are compared.
- The order of rows with equal sort keys: fixed by identifier here, left open by the database.
- Floating point: similarity, confidence and weight are exact reals.
- A read that fails once and succeeds when repeated within one planning run: failing reads are fixed by their arguments.
- Go pointers: references and steps are values in maps and sequences, rewritten where the code writes through a pointer. No reference changes while planning, so the copies cannot differ.
- The order of `CreatedRelationID`, which follows map iteration in the code: a set here.
- The contents of `resolution_plan` in an audit record beyond the actions, and `updated_at` triggers beyond the update time of each statement.
- Graphs with several nodes of one label and id: `Reconcile` deletes everything first, and the writes of the store never make one.
- GetIngestSource, Stats, SearchMemories beyond its statement, and plain row reads: lookups without logic of their own.
- Migrate.Runner.Run: does not model the SQL of a migration; a script is its name and either takes effect or not.
- AgeStore.AgeStore.RunInTx: takes the list of writes a transaction makes, because a callback cannot be passed; what a callback reads in between is not modelled.
