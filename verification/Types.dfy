/** The values the service exchanges with its stores: rows of the three tables, the audit record,
    patches, ingest candidates and errors.  Times are ticks of the database clock; confidences and
    weights are exact reals. */
module Types {

  /** Row identifiers are opaque; the store hands them out from a counter and never reuses one. */
  type Id = nat

  /** The nil identifier, which no row carries. */
  const NIL_ID: Id := 0

  datatype Option<+T> = None | Some(value: T)

  datatype Error =
    | InvalidRequest(message: string)
    | NotFound(message: string)
    | ExtractionFailed(message: string)
    | ExtractorUnavailable(message: string)
    | StoreFailure(message: string)

  datatype Result<+T> = Ok(value: T) | Err(error: Error) {
    predicate IsFailure() {
      Err?
    }

    function PropagateFailure<U>(): Result<U>
      requires Err?
    {
      Err(error)
    }

    function Extract(): T
      requires Ok?
    {
      value
    }
  }

  /** The five categories the schema accepts; OtherCategory stands for every other string. */
  datatype Category =
    | Preference
    | Fact
    | RelationshipFact
    | Event
    | Instruction
    | OtherCategory(name: string)

  /** The six entity types the schema accepts, the empty string, and every other string. */
  datatype EntityType =
    | Person
    | Organization
    | Place
    | Concept
    | ObjectType
    | Agent
    | NoType
    | OtherType(name: string)

  type Metadata = map<string, string>

  datatype Entity = Entity(
    id: Id,
    name: string,
    kind: EntityType,
    externalId: Option<string>,
    metadata: Metadata,
    createdAt: nat,
    updatedAt: nat)

  datatype Memory = Memory(
    id: Id,
    entityId: Id,
    content: string,
    category: Category,
    confidence: real,
    sourceId: Option<Id>,
    createdAt: nat,
    updatedAt: nat,
    expiresAt: Option<nat>,
    metadata: Metadata)

  datatype Relationship = Relationship(
    id: Id,
    from: Id,
    to: Id,
    kind: string,
    weight: Option<real>,
    createdAt: nat,
    metadata: Metadata)

  datatype CreateEntityParams = CreateEntityParams(
    name: string,
    kind: EntityType,
    externalId: Option<string>,
    metadata: Metadata)

  datatype EntityPatch = EntityPatch(
    name: Option<string>,
    kind: Option<EntityType>,
    externalId: Option<string>,
    clearExternalId: bool,
    metadata: Option<Metadata>)

  datatype CreateMemoryParams = CreateMemoryParams(
    entityId: Id,
    content: string,
    category: Category,
    confidence: real,
    sourceId: Option<Id>,
    expiresAt: Option<nat>,
    metadata: Metadata)

  datatype MemoryPatch = MemoryPatch(
    content: Option<string>,
    confidence: Option<real>,
    expiresAt: Option<nat>,
    clearExpiresAt: bool,
    metadata: Option<Metadata>,
    sourceId: Option<Id>,
    clearSourceId: bool)

  datatype CreateRelationshipParams = CreateRelationshipParams(
    from: Id,
    to: Id,
    kind: string,
    weight: Option<real>,
    metadata: Metadata)

  datatype CandidateEntity = CandidateEntity(name: string, kind: EntityType)

  datatype Candidate = Candidate(
    content: string,
    category: Category,
    confidence: real,
    subject: Option<CandidateEntity>,
    related: seq<CandidateEntity>,
    relationshipType: string)

  datatype Action = CreateAction | UpdateAction | MergeAction | NoOpAction

  datatype IngestSource = IngestSource(
    id: Id,
    rawText: string,
    subjectId: Option<Id>,
    model: string,
    actions: seq<Action>,
    createdAt: nat)

  /** What a statement answers when it fails on the driver's side. */
  const DRIVER_FAILURE := StoreFailure("execute statement")

  /** Whether the k-th statement from here on fails in the driver: a schedule is healthy once exhausted. */
  predicate FailsAt(schedule: seq<bool>, k: nat) {
    k < |schedule| && schedule[k]
  }

  predicate StoredCategory(c: Category) {
    !c.OtherCategory?
  }

  predicate StoredType(k: EntityType) {
    !k.NoType? && !k.OtherType?
  }

  predicate UnitInterval(x: real) {
    0.0 <= x <= 1.0
  }
}
