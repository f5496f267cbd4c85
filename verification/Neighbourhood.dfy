/** Undirected neighbourhoods of an entity, and the edge-distinct trails that reach them. */
module Neighbourhood {
  import opened Types
  import opened Tables

  /** The edge joins the two entities, in either direction. */
  predicate Joins(e: Relationship, x: Id, y: Id) {
    (e.from == x && e.to == y) || (e.from == y && e.to == x)
  }

  /** The entities one edge away from s, in either direction. */
  ghost function Neighbours(t: Tables, s: set<Id>): set<Id> {
    (set i | i in t.relationships && t.relationships[i].from in s :: t.relationships[i].to)
    + (set i | i in t.relationships && t.relationships[i].to in s :: t.relationships[i].from)
  }

  lemma NeighbourIff(t: Tables, s: set<Id>, y: Id)
    ensures y in Neighbours(t, s) <==> exists i, x :: i in t.relationships && x in s && Joins(t.relationships[i], x, y)
  {
    if y in Neighbours(t, s) {
      if i :| i in t.relationships && t.relationships[i].from in s && t.relationships[i].to == y {
        assert Joins(t.relationships[i], t.relationships[i].from, y);
      } else {
        var i :| i in t.relationships && t.relationships[i].to in s && t.relationships[i].from == y;
        assert Joins(t.relationships[i], t.relationships[i].to, y);
      }
    }
  }

  /** The entities at undirected distance at most k. */
  ghost function Ball(t: Tables, root: Id, k: nat): set<Id> {
    if k == 0 then {root} else Ball(t, root, k - 1) + Neighbours(t, Ball(t, root, k - 1))
  }

  /** At undirected distance exactly k. */
  ghost predicate AtDistance(t: Tables, root: Id, x: Id, k: nat) {
    x in Ball(t, root, k) && (k > 0 ==> x !in Ball(t, root, k - 1))
  }

  lemma {:induction false} BallGrows(t: Tables, root: Id, j: nat, k: nat)
    requires j <= k
    ensures Ball(t, root, j) <= Ball(t, root, k)
    decreases k
  {
    if j < k {
      BallGrows(t, root, j, k - 1);
    }
  }

  lemma {:induction false} DistanceExists(t: Tables, root: Id, x: Id, k: nat) returns (d: nat)
    requires x in Ball(t, root, k)
    ensures d <= k && AtDistance(t, root, x, d)
  {
    if k > 0 && x in Ball(t, root, k - 1) {
      d := DistanceExists(t, root, x, k - 1);
    } else {
      d := k;
    }
  }

  // ---- trails ----

  /** One step of an undirected walk: the edge taken and the entity it leads to. */
  datatype Hop = Hop(edge: Relationship, to: Id)

  function Place(root: Id, hops: seq<Hop>, i: nat): Id
    requires i <= |hops|
  {
    if i == 0 then root else hops[i - 1].to
  }

  /** Consecutive stored edges, each taken in either direction. */
  ghost predicate IsUndirectedWalk(t: Tables, root: Id, hops: seq<Hop>) {
    forall i :: 0 <= i < |hops| ==> IsStep(t, root, hops, i)
  }

  ghost predicate IsStep(t: Tables, root: Id, hops: seq<Hop>, i: nat)
    requires i < |hops|
  {
    IsEdge(t, hops[i].edge) && Joins(hops[i].edge, Place(root, hops, i), hops[i].to)
  }

  /** No edge is taken twice, as in a variable-length graph pattern. */
  ghost predicate IsTrail(t: Tables, root: Id, hops: seq<Hop>) {
    IsUndirectedWalk(t, root, hops)
    && forall i, j :: 0 <= i < j < |hops| ==> hops[i].edge != hops[j].edge
  }

  /** The declarative neighbourhood query: e lies on some trail of 1 to depth edges from the root. */
  ghost predicate OnTrail(t: Tables, root: Id, e: Relationship, depth: nat) {
    exists hops: seq<Hop> :: IsTrail(t, root, hops) && 1 <= |hops| <= depth && exists i ::
        0 <= i < |hops| && hops[i].edge == e
  }

  /** An end of e is at distance less than depth. */
  ghost predicate Near(t: Tables, root: Id, e: Relationship, depth: nat) {
    depth > 0 && (e.from in Ball(t, root, depth - 1) || e.to in Ball(t, root, depth - 1))
  }

  lemma {:induction false} PlaceInBall(t: Tables, root: Id, hops: seq<Hop>, i: nat)
    requires IsUndirectedWalk(t, root, hops) && i <= |hops|
    ensures Place(root, hops, i) in Ball(t, root, i)
    decreases i
  {
    if i > 0 {
      PlaceInBall(t, root, hops, i - 1);
      assert IsStep(t, root, hops, i - 1);
      var e := hops[i - 1].edge;
      assert Joins(t.relationships[e.id], Place(root, hops, i - 1), Place(root, hops, i));
      NeighbourIff(t, Ball(t, root, i - 1), Place(root, hops, i));
    }
  }

  /** Every entity at distance k ends a walk that gains one level of distance at each hop. */
  lemma {:induction false} LevelWalk(t: Tables, root: Id, x: Id, k: nat) returns (hops: seq<Hop>)
    requires KeyedEdges(t) && AtDistance(t, root, x, k)
    ensures |hops| == k && IsUndirectedWalk(t, root, hops) && Place(root, hops, k) == x
    ensures forall i :: 0 <= i < k ==> AtDistance(t, root, hops[i].to, i + 1)
    decreases k
  {
    hide Ball;
    hide AtDistance;
    if k == 0 {
      LevelZero(t, root, x);
      hops := [];
    } else {
      var e, y := PreviousLevel(t, root, x, k);
      var shorter := LevelWalk(t, root, y, k - 1);
      hops := shorter + [Hop(e, x)];
      forall j | 0 <= j < k
        ensures IsStep(t, root, hops, j)
      {
        assert Place(root, hops, j) == Place(root, shorter, j);
        assert j < k - 1 ==> IsStep(t, root, shorter, j);
      }
    }
  }

  lemma LevelZero(t: Tables, root: Id, x: Id)
    ensures AtDistance(t, root, x, 0) <==> x == root
  {
  }

  /** An entity at distance k > 0 has an edge to one at distance k - 1. */
  lemma PreviousLevel(t: Tables, root: Id, x: Id, k: nat) returns (e: Relationship, y: Id)
    requires KeyedEdges(t) && k > 0 && AtDistance(t, root, x, k)
    ensures IsEdge(t, e) && Joins(e, y, x) && AtDistance(t, root, y, k - 1)
  {
    hide Neighbours;
    NeighbourIff(t, Ball(t, root, k - 1), x);
    var i :| i in t.relationships && exists z :: z in Ball(t, root, k - 1) && Joins(t.relationships[i], z, x);
    y :| y in Ball(t, root, k - 1) && Joins(t.relationships[i], y, x);
    e := t.relationships[i];
    if k > 1 && y in Ball(t, root, k - 2) {
      NeighbourIff(t, Ball(t, root, k - 2), x);
    }
  }

  /** Each relationship is stored under its own identifier. */
  ghost predicate KeyedEdges(t: Tables) {
    forall i :: i in t.relationships ==> t.relationships[i].id == i
  }

  lemma ValidIsKeyed(t: Tables)
    requires t.Valid()
    ensures KeyedEdges(t)
  {
    RowsKeyed(t);
  }

  /** A walk that gains a level at each hop repeats no edge. */
  lemma LevelWalkIsTrail(t: Tables, root: Id, hops: seq<Hop>)
    requires IsUndirectedWalk(t, root, hops)
    requires forall i :: 0 <= i < |hops| ==> AtDistance(t, root, hops[i].to, i + 1)
    ensures IsTrail(t, root, hops)
  {
    hide Ball;
    forall i, j | 0 <= i < j < |hops|
      ensures hops[i].edge != hops[j].edge
    {
      PlaceInBall(t, root, hops, i);
      BallGrows(t, root, i, j);
      BallGrows(t, root, i + 1, j);
      assert AtDistance(t, root, hops[i].to, i + 1) && AtDistance(t, root, hops[j].to, j + 1);
      assert hops[j].to !in Ball(t, root, j);
      assert IsStep(t, root, hops, i) && IsStep(t, root, hops, j);
    }
  }

  /** The trail query and the distance condition describe the same edges. */
  lemma OnTrailIffNear(t: Tables, root: Id, e: Relationship, depth: nat)
    requires KeyedEdges(t) && IsEdge(t, e)
    ensures OnTrail(t, root, e, depth) <==> Near(t, root, e, depth)
  {
    hide Ball;
    if OnTrail(t, root, e, depth) {
      var hops: seq<Hop> :| IsTrail(t, root, hops) && 1 <= |hops| <= depth && exists i ::
          0 <= i < |hops| && hops[i].edge == e;
      var i :| 0 <= i < |hops| && hops[i].edge == e;
      PlaceInBall(t, root, hops, i);
      BallGrows(t, root, i, depth - 1);
      assert IsStep(t, root, hops, i);
    }
    if Near(t, root, e, depth) {
      NearOnTrail(t, root, e, depth);
    }
  }

  lemma NearOnTrail(t: Tables, root: Id, e: Relationship, depth: nat)
    requires KeyedEdges(t) && IsEdge(t, e) && Near(t, root, e, depth)
    ensures OnTrail(t, root, e, depth)
  {
    hide Ball;
    hide AtDistance;
    var x := if e.from in Ball(t, root, depth - 1) then e.from else e.to;
    var y := if e.from in Ball(t, root, depth - 1) then e.to else e.from;
    var k := DistanceExists(t, root, x, depth - 1);
    var hops := LevelWalk(t, root, x, k);
    LevelWalkIsTrail(t, root, hops);
    if i :| 0 <= i < |hops| && hops[i].edge == e {
    } else {
      var longer := hops + [Hop(e, y)];
      forall j | 0 <= j < |longer|
        ensures IsStep(t, root, longer, j)
      {
        assert Place(root, longer, j) == Place(root, hops, j);
        assert j < k ==> IsStep(t, root, hops, j);
      }
      assert longer[k].edge == e && IsTrail(t, root, longer);
    }
  }

  /** Distance is the length of a shortest trail. */
  lemma BallIffTrail(t: Tables, root: Id, x: Id, k: nat)
    requires KeyedEdges(t)
    ensures x in Ball(t, root, k) <==> exists hops: seq<Hop> ::
        IsTrail(t, root, hops) && |hops| <= k && Place(root, hops, |hops|) == x
  {
    hide Ball;
    hide AtDistance;
    if x in Ball(t, root, k) {
      var d := DistanceExists(t, root, x, k);
      var hops := LevelWalk(t, root, x, d);
      LevelWalkIsTrail(t, root, hops);
    }
    if hops: seq<Hop> :| IsTrail(t, root, hops) && |hops| <= k && Place(root, hops, |hops|) == x {
      PlaceInBall(t, root, hops, |hops|);
      BallGrows(t, root, |hops|, k);
    }
  }
}
