/** The two graph queries, read declaratively: over an agreeing graph they answer as the tables do. */
module AgeQueries {
  import opened Types
  import opened Tables
  import opened Graph
  import opened Neighbourhood
  import opened EntityContext
  import AgeGraph

  // ---- (root)-[:RELATIONSHIP*1..depth]-(other:Entity) ----

  datatype GraphHop = GraphHop(edge: AgeGraph.EdgeKey, to: Id)

  function GraphPlace(root: Id, hops: seq<GraphHop>, i: nat): Id
    requires i <= |hops|
  {
    if i == 0 then root else hops[i - 1].to
  }

  predicate KeyJoins(k: AgeGraph.EdgeKey, x: Id, y: Id) {
    (k.from == x && k.to == y) || (k.from == y && k.to == x)
  }

  ghost predicate IsGraphStep(g: AgeGraph.Graph, root: Id, hops: seq<GraphHop>, i: nat)
    requires i < |hops|
  {
    hops[i].edge in g.edges && KeyJoins(hops[i].edge, GraphPlace(root, hops, i), hops[i].to)
  }

  /** A match of the pattern: no edge twice, from an Entity node to an Entity node. */
  ghost predicate IsGraphTrail(g: AgeGraph.Graph, root: Id, hops: seq<GraphHop>) {
    && root in g.entityNodes && GraphPlace(root, hops, |hops|) in g.entityNodes
    && (forall i :: 0 <= i < |hops| ==> IsGraphStep(g, root, hops, i))
    && (forall i, j :: 0 <= i < j < |hops| ==> hops[i].edge != hops[j].edge)
  }

  /** An edge with this id is on a match of 1 to depth edges. */
  ghost predicate OnGraphTrail(g: AgeGraph.Graph, root: Id, id: Id, depth: nat) {
    exists hops: seq<GraphHop> :: IsGraphTrail(g, root, hops) && 1 <= |hops| <= depth && exists i ::
        0 <= i < |hops| && hops[i].edge.id == id
  }

  function ToGraph(hops: seq<Hop>): seq<GraphHop> {
    seq(|hops|, i requires 0 <= i < |hops| => GraphHop(AgeGraph.KeyOf(hops[i].edge), hops[i].to))
  }

  function ToTables(t: Tables, hops: seq<GraphHop>): seq<Hop>
    requires forall i :: 0 <= i < |hops| ==> hops[i].edge.id in t.relationships
  {
    seq(|hops|, i requires 0 <= i < |hops| => Hop(t.relationships[hops[i].edge.id], hops[i].to))
  }

  /** The key names a stored row. */
  lemma KeyIsRow(t: Tables, g: AgeGraph.Graph, k: AgeGraph.EdgeKey)
    requires t.Valid() && AgeGraph.EdgesMirrored(t, g) && k in g.edges
    ensures k.id in t.relationships && IsEdge(t, t.relationships[k.id]) && AgeGraph.KeyOf(t.relationships[k.id]) == k
  {
    assert t.ValidRelationship(k.id);
  }

  lemma TrailToGraph(t: Tables, g: AgeGraph.Graph, root: Id, hops: seq<Hop>)
    requires t.Valid() && AgeGraph.Agrees(t, g) && root in t.entities && IsTrail(t, root, hops)
    ensures IsGraphTrail(g, root, ToGraph(hops))
  {
    hide *;
    forall i | 0 <= i < |hops|
      ensures IsEdge(t, hops[i].edge) && hops[i].to in t.entities
    {
      HopInside(t, root, hops, i);
    }
    StepsToGraph(t, g, root, hops);
  }

  lemma HopInside(t: Tables, root: Id, hops: seq<Hop>, i: nat)
    requires t.Valid() && IsTrail(t, root, hops) && i < |hops|
    ensures IsEdge(t, hops[i].edge) && hops[i].to in t.entities
  {
    assert IsStep(t, root, hops, i);
    assert t.ValidRelationship(hops[i].edge.id);
  }

  lemma StepsToGraph(t: Tables, g: AgeGraph.Graph, root: Id, hops: seq<Hop>)
    requires AgeGraph.Agrees(t, g) && root in t.entities && IsTrail(t, root, hops)
    requires forall i :: 0 <= i < |hops| ==> IsEdge(t, hops[i].edge) && hops[i].to in t.entities
    ensures IsGraphTrail(g, root, ToGraph(hops))
  {
    forall i | 0 <= i < |hops|
      ensures IsGraphStep(g, root, ToGraph(hops), i)
    {
      assert IsStep(t, root, hops, i);
    }
  }

  lemma TrailToTables(t: Tables, g: AgeGraph.Graph, root: Id, hops: seq<GraphHop>)
    requires t.Valid() && AgeGraph.Agrees(t, g) && IsGraphTrail(g, root, hops)
    ensures forall i :: 0 <= i < |hops| ==>
        hops[i].edge.id in t.relationships && IsEdge(t, t.relationships[hops[i].edge.id])
    ensures forall i :: 0 <= i < |hops| ==> t.relationships[hops[i].edge.id].id == hops[i].edge.id
    ensures IsTrail(t, root, ToTables(t, hops))
  {
    hide Tables.Valid;
    forall i | 0 <= i < |hops|
      ensures hops[i].edge.id in t.relationships && IsEdge(t, t.relationships[hops[i].edge.id])
      ensures AgeGraph.KeyOf(t.relationships[hops[i].edge.id]) == hops[i].edge
    {
      assert IsGraphStep(g, root, hops, i);
      KeyIsRow(t, g, hops[i].edge);
    }
    var rows := ToTables(t, hops);
    forall i | 0 <= i < |hops|
      ensures IsStep(t, root, rows, i)
    {
      assert IsGraphStep(g, root, hops, i);
    }
  }

  /** Over an agreeing graph the trail query finds exactly the relationships of the hop-by-hop context. */
  lemma TrailQueryAgrees(t: Tables, g: AgeGraph.Graph, root: Id, depth: nat, c: EntityContext)
    requires t.Valid() && AgeGraph.Agrees(t, g) && 1 <= depth && IsContext(t, root, depth, c)
    ensures forall id :: id in EdgeIds(c.relationships) <==> OnGraphTrail(g, root, id, depth)
  {
    hide Tables.Valid, AgeGraph.Agrees;
    forall id
      ensures id in EdgeIds(c.relationships) <==> OnGraphTrail(g, root, id, depth)
    {
      if id in EdgeIds(c.relationships) {
        var e := EntryEdge(t, root, c, id);
        var hops: seq<Hop>, i: nat :| IsTrail(t, root, hops) && 1 <= |hops| <= depth && 0 <= i < |hops|
            && hops[i].edge == e;
        TrailToGraph(t, g, root, hops);
        assert ToGraph(hops)[i].edge.id == id;
      }
      if OnGraphTrail(g, root, id, depth) {
        var hops: seq<GraphHop>, i: nat :| IsGraphTrail(g, root, hops) && 1 <= |hops| <= depth && 0 <= i < |hops|
            && hops[i].edge.id == id;
        TrailToTables(t, g, root, hops);
        var e := t.relationships[id];
        assert ToTables(t, hops)[i].edge == e;
        assert OnTrail(t, root, e, depth) && IsEdge(t, e) && e.id == id;
      }
    }
  }

  lemma EntryEdge(t: Tables, root: Id, c: EntityContext, id: Id) returns (e: Relationship)
    requires Collected(t, root, c.relationships) && id in EdgeIds(c.relationships)
    ensures IsEdge(t, e) && e.id == id
  {
    var k :| 0 <= k < |c.relationships| && c.relationships[k].relationship.id == id;
    assert c.relationships[k] in c.relationships;
    assert WellResolved(t, root, c.relationships[k]);
    e := c.relationships[k].relationship;
  }

  // ---- shortestPath((from)-[:RELATIONSHIP*..max]->(to)) ----

  /** A directed chain of RELATIONSHIP edges. */
  ghost predicate IsGraphWalk(g: AgeGraph.Graph, from: Id, to: Id, ks: seq<AgeGraph.EdgeKey>)
    decreases |ks|
  {
    if ks == [] then from == to
    else
      var last := ks[|ks| - 1];
      last in g.edges && last.to == to && IsGraphWalk(g, from, last.from, ks[..|ks| - 1])
  }

  function Keys(p: seq<Relationship>): seq<AgeGraph.EdgeKey> {
    seq(|p|, i requires 0 <= i < |p| => AgeGraph.KeyOf(p[i]))
  }

  lemma {:induction false} WalkToGraph(t: Tables, g: AgeGraph.Graph, from: Id, to: Id, p: seq<Relationship>)
    requires AgeGraph.EdgesMirrored(t, g)
    requires IsWalk(t, from, to, p)
    ensures IsGraphWalk(g, from, to, Keys(p))
    decreases |p|
  {
    if p != [] {
      var n := |p| - 1;
      WalkToGraph(t, g, from, p[n].from, p[..n]);
      assert Keys(p)[..n] == Keys(p[..n]);
    }
  }

  lemma {:induction false} WalkToTables(t: Tables, g: AgeGraph.Graph, from: Id, to: Id, ks: seq<AgeGraph.EdgeKey>)
      returns (p: seq<Relationship>)
    requires t.Valid() && AgeGraph.EdgesMirrored(t, g)
    requires IsGraphWalk(g, from, to, ks)
    ensures IsWalk(t, from, to, p) && Keys(p) == ks
    decreases |ks|
  {
    hide Tables.Valid;
    if ks == [] {
      p := [];
    } else {
      var n := |ks| - 1;
      var q := WalkToTables(t, g, from, ks[n].from, ks[..n]);
      KeyIsRow(t, g, ks[n]);
      WalkSnoc(t, from, q, t.relationships[ks[n].id]);
      p := q + [t.relationships[ks[n].id]];
    }
  }

  /** Over an agreeing graph a path of given length exists in the graph exactly when it does in the tables, so
      both stores find a path for the same endpoints and limits, and shortest paths have the same length. */
  lemma PathQueryAgrees(t: Tables, g: AgeGraph.Graph, from: Id, to: Id, n: int)
    requires t.Valid() && AgeGraph.Agrees(t, g)
    ensures Reachable(t, from, to, n) <==> exists ks :: IsGraphWalk(g, from, to, ks) && |ks| <= n
    ensures Shortest(t, from, to, n) <==> forall ks :: IsGraphWalk(g, from, to, ks) ==> n <= |ks|
  {
    hide Tables.Valid, IsWalk, IsGraphWalk;
    forall ks | IsGraphWalk(g, from, to, ks)
      ensures exists p :: IsWalk(t, from, to, p) && |p| == |ks|
    {
      var p := WalkToTables(t, g, from, to, ks);
      assert |Keys(p)| == |p|;
    }
    forall p | IsWalk(t, from, to, p)
      ensures IsGraphWalk(g, from, to, Keys(p)) && |Keys(p)| == |p|
    {
      WalkToGraph(t, g, from, to, p);
    }
  }
}
