/** The context of an entity: its memories and every relationship within a number of hops. */
module EntityContext {
  import opened Types
  import opened Ordering
  import opened Tables
  import opened Paging
  import opened Neighbourhood

  datatype Resolved = Resolved(relationship: Relationship, related: Entity)

  datatype EntityContext = EntityContext(entity: Entity, memories: seq<Memory>, relationships: seq<Resolved>)

  /** The end of an edge that the code takes to be remote, seen from current. */
  function Remote(r: Relationship, current: Id): Id {
    if r.to == current then r.from else r.to
  }

  /** The entity shown with an edge is the end not nearer to the root. */
  ghost predicate WellResolved(t: Tables, root: Id, e: Resolved) {
    IsEdge(t, e.relationship) &&
    exists x :: && Touches(e.relationship, x)
                && Remote(e.relationship, x) in t.entities && e.related == t.entities[Remote(e.relationship, x)]
                && forall k: nat :: Remote(e.relationship, x) in Ball(t, root, k) ==> x in Ball(t, root, k)
  }

  ghost function EdgeIds(entries: seq<Resolved>): set<Id> {
    set k | 0 <= k < |entries| :: entries[k].relationship.id
  }

  /** The entries are well resolved and no edge appears twice. */
  ghost predicate Collected(t: Tables, root: Id, entries: seq<Resolved>) {
    && (forall e :: e in entries ==> WellResolved(t, root, e))
    && (forall i, j :: 0 <= i < j < |entries| ==> entries[i].relationship.id != entries[j].relationship.id)
  }

  /** What GetEntityContext promises: the entity, all its memories in listing order, and exactly the
      edges on some trail of 1 to depth hops, each once. */
  ghost predicate IsContext(t: Tables, root: Id, depth: int, c: EntityContext)
    requires t.Valid()
  {
    && root in t.entities && c.entity == t.entities[root]
    && c.memories == MemoriesOf(t, root)
    && Collected(t, root, c.relationships)
    && forall r: Relationship :: IsEdge(t, r) ==>
         (r.id in EdgeIds(c.relationships) <==> depth > 0 && OnTrail(t, root, r, depth))
  }

  // ---- the sets the hops maintain ----

  /** Strictly inside distance h. */
  ghost function Inside(t: Tables, root: Id, h: nat): set<Id> {
    if h == 0 then {} else Ball(t, root, h - 1)
  }

  ghost function TouchingIds(t: Tables, s: set<Id>): set<Id> {
    set i | i in t.relationships && (t.relationships[i].from in s || t.relationships[i].to in s)
  }

  ghost function Ids(edges: seq<Relationship>): set<Id> {
    set k | 0 <= k < |edges| :: edges[k].id
  }

  ghost function Remotes(edges: seq<Relationship>, current: Id): set<Id> {
    set k | 0 <= k < |edges| :: Remote(edges[k], current)
  }

  /** The entities expanded so far: everything nearer than hop h and the first f of the frontier. */
  ghost function ExpandedSet(t: Tables, root: Id, h: nat, frontier: seq<Id>, f: nat): set<Id>
    requires f <= |frontier|
  {
    Inside(t, root, h) + Elements(frontier[..f])
  }

  method ListAllMemoriesForEntity(t: Tables, id: Id) returns (rows: seq<Memory>)
    requires t.Valid()
    ensures rows == MemoriesOf(t, id)
  {
    rows := ListAllByStep(MemoriesOf(t, id), PAGE_SIZE);
  }

  method GetEntityContext(t: Tables, root: Id, depth: int) returns (r: Result<EntityContext>)
    requires t.Valid()
    ensures root in t.entities ==> r.Ok? && IsContext(t, root, depth, r.value)
    ensures root !in t.entities ==> r == Err(NotFound("entity not found"))
  {
    var entity :- GetEntity(t, root);
    var memories := ListAllMemoriesForEntity(t, root);
    var entries := CollectHops(t, root, depth);
    ContextComplete(t, root, depth, entries);
    r := Ok(EntityContext(entity, memories, entries));
  }

  lemma ContextComplete(t: Tables, root: Id, depth: int, entries: seq<Resolved>)
    requires t.Valid()
    requires EdgeIds(entries) == TouchingIds(t, Inside(t, root, if depth > 0 then depth else 0))
    ensures forall r: Relationship :: IsEdge(t, r) ==>
              (r.id in EdgeIds(entries) <==> depth > 0 && OnTrail(t, root, r, depth))
  {
    ValidIsKeyed(t);
    forall r: Relationship | IsEdge(t, r)
      ensures r.id in EdgeIds(entries) <==> depth > 0 && OnTrail(t, root, r, depth)
    {
      if depth > 0 {
        OnTrailIffNear(t, root, r, depth);
      }
    }
  }

  /** The hop loop.  At hop h the frontier is exactly the set of entities at distance h. */
  method CollectHops(t: Tables, root: Id, depth: int) returns (entries: seq<Resolved>)
    requires t.Valid() && root in t.entities
    ensures Collected(t, root, entries)
    ensures EdgeIds(entries) == TouchingIds(t, Inside(t, root, if depth > 0 then depth else 0))
  {
    hide *;
    entries := [];
    StartHops(t, root);
    if depth <= 0 {
      return;
    }
    var visitedEntities := {root};
    var visitedRelationships: set<Id> := {};
    var frontier := [root];

    var hop := 0;
    while hop < depth
      invariant 0 <= hop <= depth
      invariant visitedEntities == Ball(t, root, hop)
      invariant Elements(frontier) == Ball(t, root, hop) - Inside(t, root, hop) && Distinct(frontier)
      invariant EdgeIds(entries) == visitedRelationships == TouchingIds(t, Inside(t, root, hop))
      invariant Collected(t, root, entries)
    {
      var nextFrontier: seq<Id> := [];
      var f := 0;
      NoneExpanded(t, root, hop, frontier);
      while f < |frontier|
        invariant 0 <= f <= |frontier|
        invariant visitedEntities == Ball(t, root, hop) + Neighbours(t, ExpandedSet(t, root, hop, frontier, f))
        invariant Elements(nextFrontier) == visitedEntities - Ball(t, root, hop) && Distinct(nextFrontier)
        invariant EdgeIds(entries) == visitedRelationships == TouchingIds(t, ExpandedSet(t, root, hop, frontier, f))
        invariant Collected(t, root, entries)
      {
        var current := frontier[f];
        ghost var s := ExpandedSet(t, root, hop, frontier, f);
        FrontierEntity(t, root, hop, frontier, f);
        var relationships := Incident(t, current);
        var j := 0;
        NoneListed(relationships, current);
        while j < |relationships|
          invariant 0 <= j <= |relationships|
          invariant visitedEntities == Ball(t, root, hop) + Neighbours(t, s) + Remotes(relationships[..j], current)
          invariant Elements(nextFrontier) == visitedEntities - Ball(t, root, hop) && Distinct(nextFrontier)
          invariant EdgeIds(entries) == visitedRelationships == TouchingIds(t, s) + Ids(relationships[..j])
          invariant Collected(t, root, entries)
        {
          var relationship := relationships[j];
          OneListed(t, root, hop, s, current, relationships, j);
          if relationship.id !in visitedRelationships {
            visitedRelationships := visitedRelationships + {relationship.id};
            var relatedId := relationship.to;
            if relationship.to == current {
              relatedId := relationship.from;
            }
            match GetEntity(t, relatedId) {
              case Err(_) =>
                LookupSucceeds(t, relationship, current);
                assert false;
              case Ok(relatedEntity) =>
                Append(t, root, hop, s, current, relationship, entries, relatedEntity);
                entries := entries + [Resolved(relationship, relatedEntity)];
            }
            if relatedId !in visitedEntities {
              ElementsSnoc(nextFrontier, relatedId);
              visitedEntities := visitedEntities + {relatedId};
              nextFrontier := nextFrontier + [relatedId];
            }
          }
          j := j + 1;
        }
        AllListed(t, root, hop, frontier, f, relationships);
        f := f + 1;
      }
      AllExpanded(t, root, hop, frontier);
      frontier := nextFrontier;
      hop := hop + 1;
    }
  }

  // ---- the steps of the hop loop ----

  lemma StartHops(t: Tables, root: Id)
    ensures EdgeIds([]) == {} == TouchingIds(t, Inside(t, root, 0))
    ensures Collected(t, root, [])
    ensures Ball(t, root, 0) == {root} == Elements([root]) && Inside(t, root, 0) == {} && Distinct([root])
  {
  }

  lemma NoneExpanded(t: Tables, root: Id, h: nat, frontier: seq<Id>)
    ensures ExpandedSet(t, root, h, frontier, 0) == Inside(t, root, h)
    ensures Neighbours(t, Inside(t, root, h)) <= Ball(t, root, h)
    ensures Elements<Id>([]) == {} && Distinct<Id>([])
  {
  }

  /** The next frontier entity is at distance h and not yet expanded. */
  lemma FrontierEntity(t: Tables, root: Id, h: nat, frontier: seq<Id>, f: nat)
    requires f < |frontier| && Distinct(frontier)
    requires Elements(frontier) == Ball(t, root, h) - Inside(t, root, h)
    ensures frontier[f] in Ball(t, root, h) && frontier[f] !in ExpandedSet(t, root, h, frontier, f)
    ensures Inside(t, root, h) <= ExpandedSet(t, root, h, frontier, f) <= Ball(t, root, h)
  {
    assert frontier[f] in Elements(frontier);
    assert forall v :: v in frontier[..f] ==> v in Elements(frontier);
    if h > 0 {
      BallGrows(t, root, h - 1, h);
    }
  }

  lemma NoneListed(relationships: seq<Relationship>, current: Id)
    ensures Ids(relationships[..0]) == {} == Remotes(relationships[..0], current)
  {
  }

  /** An edge seen before leads nowhere new; either way the listing advances by one edge. */
  lemma OneListed(t: Tables, root: Id, h: nat, s: set<Id>, current: Id, relationships: seq<Relationship>, j: nat)
    requires t.Valid() && relationships == Incident(t, current) && j < |relationships|
    requires current in Ball(t, root, h) && current !in s && s <= Ball(t, root, h)
    ensures Ids(relationships[..j + 1]) == Ids(relationships[..j]) + {relationships[j].id}
    ensures Remotes(relationships[..j + 1], current)
        == Remotes(relationships[..j], current) + {Remote(relationships[j], current)}
    ensures relationships[j].id in TouchingIds(t, s) ==> Remote(relationships[j], current) in s
    ensures relationships[j].id !in Ids(relationships[..j])
    ensures IsEdge(t, relationships[j]) && Touches(relationships[j], current)
    ensures Remote(relationships[j], current)
            == if relationships[j].to == current then relationships[j].from else relationships[j].to
  {
    hide *;
    ListedIncident(t, current, relationships);
    FirstSeen(t, current, relationships, j);
    ListOne(t, h, s, current, relationships, j);
  }

  lemma ListOne(t: Tables, h: nat, s: set<Id>, current: Id, relationships: seq<Relationship>, j: nat)
    requires j < |relationships| && current !in s
    requires IsEdge(t, relationships[j]) && Touches(relationships[j], current)
    ensures Ids(relationships[..j + 1]) == Ids(relationships[..j]) + {relationships[j].id}
    ensures Remotes(relationships[..j + 1], current)
        == Remotes(relationships[..j], current) + {Remote(relationships[j], current)}
    ensures relationships[j].id in TouchingIds(t, s) ==> Remote(relationships[j], current) in s
    ensures Remote(relationships[j], current)
            == if relationships[j].to == current then relationships[j].from else relationships[j].to
  {
    assert relationships[..j + 1] == relationships[..j] + [relationships[j]];
  }

  lemma FirstSeen(t: Tables, current: Id, relationships: seq<Relationship>, j: nat)
    requires t.Valid() && relationships == Incident(t, current) && j < |relationships|
    ensures relationships[j].id !in Ids(relationships[..j])
  {
    assert relationships[j] in relationships;
    forall k | 0 <= k < j
      ensures relationships[k].id != relationships[j].id
    {
      assert relationships[k] in relationships;
    }
  }

  lemma LookupSucceeds(t: Tables, e: Relationship, current: Id)
    requires t.Valid() && IsEdge(t, e)
    ensures GetEntity(t, Remote(e, current)).Ok?
    ensures Remote(e, current) == if e.to == current then e.from else e.to
  {
    assert t.ValidRelationship(e.id);
  }

  lemma Append(t: Tables, root: Id, h: nat, s: set<Id>, current: Id, e: Relationship, entries: seq<Resolved>,
      related: Entity)
    requires Collected(t, root, entries) && e.id !in EdgeIds(entries) && TouchingIds(t, s) <= EdgeIds(entries)
    requires IsEdge(t, e) && Touches(e, current) && GetEntity(t, Remote(e, current)) == Ok(related)
    requires current in Ball(t, root, h) && Inside(t, root, h) <= s
    ensures Collected(t, root, entries + [Resolved(e, related)])
    ensures EdgeIds(entries + [Resolved(e, related)]) == EdgeIds(entries) + {e.id}
  {
    var longer := entries + [Resolved(e, related)];
    forall k: nat | Remote(e, current) in Ball(t, root, k)
      ensures current in Ball(t, root, k)
    {
      if k < h {
        BallGrows(t, root, k, h - 1);
      } else {
        BallGrows(t, root, h, k);
      }
    }
    assert WellResolved(t, root, Resolved(e, related));
    forall i | i in EdgeIds(longer)
      ensures i in EdgeIds(entries) + {e.id}
    {
      var k :| 0 <= k < |longer| && longer[k].relationship.id == i;
      assert k < |entries| ==> entries[k] == longer[k];
    }
    forall i | i in EdgeIds(entries) + {e.id}
      ensures i in EdgeIds(longer)
    {
      if i in EdgeIds(entries) {
        var k :| 0 <= k < |entries| && entries[k].relationship.id == i;
        assert longer[k] == entries[k];
      } else {
        assert longer[|entries|].relationship.id == i;
      }
    }
    forall i, j | 0 <= i < j < |longer|
      ensures longer[i].relationship.id != longer[j].relationship.id
    {
      assert entries[i].relationship.id in EdgeIds(entries);
    }
  }

  lemma ElementsSnoc(ids: seq<Id>, id: Id)
    requires Distinct(ids) && id !in Elements(ids)
    ensures Elements(ids + [id]) == Elements(ids) + {id} && Distinct(ids + [id])
  {
  }

  /** Once every incident edge is listed, current counts as expanded. */
  lemma AllListed(t: Tables, root: Id, h: nat, frontier: seq<Id>, f: nat, relationships: seq<Relationship>)
    requires t.Valid() && f < |frontier| && relationships == Incident(t, frontier[f])
    ensures relationships[..|relationships|] == relationships
    ensures var s, s' := ExpandedSet(t, root, h, frontier, f), ExpandedSet(t, root, h, frontier, f + 1);
            && TouchingIds(t, s') == TouchingIds(t, s) + Ids(relationships)
            && Neighbours(t, s') == Neighbours(t, s) + Remotes(relationships, frontier[f])
  {
    var current := frontier[f];
    var s, s' := ExpandedSet(t, root, h, frontier, f), ExpandedSet(t, root, h, frontier, f + 1);
    hide *;
    ExpandedNext(t, root, h, frontier, f);
    ExpandOne(t, s, current, relationships);
  }

  lemma ExpandedNext(t: Tables, root: Id, h: nat, frontier: seq<Id>, f: nat)
    requires f < |frontier|
    ensures ExpandedSet(t, root, h, frontier, f + 1) == ExpandedSet(t, root, h, frontier, f) + {frontier[f]}
  {
    hide Ball;
    assert frontier[..f + 1] == frontier[..f] + [frontier[f]];
  }

  lemma ExpandOne(t: Tables, s: set<Id>, current: Id, relationships: seq<Relationship>)
    requires t.Valid() && relationships == Incident(t, current)
    ensures TouchingIds(t, s + {current}) == TouchingIds(t, s) + Ids(relationships)
    ensures Neighbours(t, s + {current}) == Neighbours(t, s) + Remotes(relationships, current)
  {
    hide *;
    ValidIsKeyed(t);
    ListedIncident(t, current, relationships);
    NewTouching(t, s, current, relationships);
    forall y
      ensures y in Neighbours(t, s + {current}) <==> y in Neighbours(t, s) + Remotes(relationships, current)
    {
      NewNeighbour(t, s, current, relationships, y);
    }
  }

  /** An edge is listed exactly when it touches the entity. */
  lemma ListedIncident(t: Tables, current: Id, relationships: seq<Relationship>)
    requires t.Valid() && relationships == Incident(t, current)
    ensures forall k :: 0 <= k < |relationships| ==> IsEdge(t, relationships[k]) && Touches(relationships[k], current)
    ensures forall i :: i in t.relationships && Touches(t.relationships[i], current) ==>
                          exists k :: 0 <= k < |relationships| && relationships[k] == t.relationships[i]
  {
    ValidIsKeyed(t);
    forall k | 0 <= k < |relationships|
      ensures IsEdge(t, relationships[k]) && Touches(relationships[k], current)
    {
      assert relationships[k] in relationships;
    }
    forall i | i in t.relationships && Touches(t.relationships[i], current)
      ensures exists k :: 0 <= k < |relationships| && relationships[k] == t.relationships[i]
    {
      assert t.relationships[i] in relationships;
    }
  }

  lemma NewTouching(t: Tables, s: set<Id>, current: Id, relationships: seq<Relationship>)
    requires KeyedEdges(t)
    requires forall k :: 0 <= k < |relationships| ==> IsEdge(t, relationships[k]) && Touches(relationships[k], current)
    requires forall i :: i in t.relationships && Touches(t.relationships[i], current) ==>
                           exists k :: 0 <= k < |relationships| && relationships[k] == t.relationships[i]
    ensures TouchingIds(t, s + {current}) == TouchingIds(t, s) + Ids(relationships)
  {
  }

  lemma NewNeighbour(t: Tables, s: set<Id>, current: Id, relationships: seq<Relationship>, y: Id)
    requires KeyedEdges(t)
    requires forall k :: 0 <= k < |relationships| ==> IsEdge(t, relationships[k]) && Touches(relationships[k], current)
    requires forall i :: i in t.relationships && Touches(t.relationships[i], current) ==>
                           exists k :: 0 <= k < |relationships| && relationships[k] == t.relationships[i]
    ensures y in Neighbours(t, s + {current}) <==> y in Neighbours(t, s) + Remotes(relationships, current)
  {
    hide Neighbours;
    NeighbourIff(t, s + {current}, y);
    NeighbourIff(t, s, y);
    if y in Neighbours(t, s + {current}) && y !in Neighbours(t, s) {
      var i, x :| i in t.relationships && x in s + {current} && Joins(t.relationships[i], x, y);
      assert x == current && Touches(t.relationships[i], current);
      var k :| 0 <= k < |relationships| && relationships[k] == t.relationships[i];
      assert Remote(relationships[k], current) == y;
    }
    if y in Remotes(relationships, current) {
      var k :| 0 <= k < |relationships| && Remote(relationships[k], current) == y;
      assert Joins(t.relationships[relationships[k].id], current, y);
    }
  }

  /** After the whole frontier, the next ball is visited and its new layer is the next frontier. */
  lemma AllExpanded(t: Tables, root: Id, h: nat, frontier: seq<Id>)
    requires Elements(frontier) == Ball(t, root, h) - Inside(t, root, h)
    ensures ExpandedSet(t, root, h, frontier, |frontier|) == Ball(t, root, h) == Inside(t, root, h + 1)
    ensures Ball(t, root, h) + Neighbours(t, Ball(t, root, h)) == Ball(t, root, h + 1)
  {
    assert frontier[..|frontier|] == frontier;
    if h > 0 {
      BallGrows(t, root, h - 1, h);
    }
  }
}
