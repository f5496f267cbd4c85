/** Walks over the relationship table, read as a directed multigraph. */
module Graph {
  import opened Types
  import opened Tables

  /** p is a chain of stored edges leading from one entity to another. */
  ghost predicate IsWalk(t: Tables, from: Id, to: Id, p: seq<Relationship>)
    decreases |p|
  {
    if p == [] then from == to
    else
      var last := p[|p| - 1];
      IsEdge(t, last) && last.to == to && IsWalk(t, from, last.from, p[..|p| - 1])
  }

  /** The entity reached after i edges. */
  function Vertex(from: Id, p: seq<Relationship>, i: nat): Id
    requires i <= |p|
  {
    if i == 0 then from else p[i - 1].to
  }

  /** An independent reading of IsWalk: every edge is stored and starts where the previous one ended. */
  lemma {:induction false} WalkIffChain(t: Tables, from: Id, to: Id, p: seq<Relationship>)
    ensures IsWalk(t, from, to, p) <==>
            (forall i :: 0 <= i < |p| ==> IsEdge(t, p[i]) && p[i].from == Vertex(from, p, i))
                && Vertex(from, p, |p|) == to
    decreases |p|
  {
    if p != [] {
      var n := |p| - 1;
      var q := p[..n];
      WalkIffChain(t, from, p[n].from, q);
      assert forall i :: 0 <= i <= n ==> Vertex(from, q, i) == Vertex(from, p, i);
      assert forall i :: 0 <= i < n ==> q[i] == p[i];
    }
  }

  /** Extending a walk by one edge. */
  lemma WalkSnoc(t: Tables, from: Id, p: seq<Relationship>, e: Relationship)
    requires IsEdge(t, e) && IsWalk(t, from, e.from, p)
    ensures IsWalk(t, from, e.to, p + [e])
  {
    assert (p + [e])[..|p|] == p;
  }

  /** With foreign keys in force a walk stays inside the entity table. */
  lemma {:induction false} WalkStaysInside(t: Tables, from: Id, to: Id, p: seq<Relationship>)
    requires t.Valid() && IsWalk(t, from, to, p)
    ensures p != [] ==> from in t.entities && to in t.entities
    decreases |p|
  {
    if p != [] {
      var last := p[|p| - 1];
      WalkStaysInside(t, from, last.from, p[..|p| - 1]);
      assert t.ValidRelationship(last.id);
    }
  }

  /** A walk of at most cap edges exists. */
  ghost predicate Reachable(t: Tables, from: Id, to: Id, cap: int) {
    exists p :: IsWalk(t, from, to, p) && |p| <= cap
  }

  /** No walk between the endpoints is shorter. */
  ghost predicate Shortest(t: Tables, from: Id, to: Id, n: int) {
    forall p :: IsWalk(t, from, to, p) ==> n <= |p|
  }
}
