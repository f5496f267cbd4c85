/** Bounded breadth-first search between two entities. */
module FindPath {
  import opened Types
  import opened Ordering
  import opened Tables
  import opened Paging
  import opened Graph

  datatype PathNode = PathNode(entity: Entity, relationship: Option<Relationship>)

  datatype Predecessor = Predecessor(entity: Id, relationship: Relationship)

  /** The cap the store applies to the requested depth. */
  function Cap(maxDepth: int): (c: int)
    ensures 1 <= c <= 6
  {
    if maxDepth <= 0 then 1 else if maxDepth > 6 then 6 else maxDepth
  }

  /** What the search answers with: the entities along a shortest walk p, none repeated.  The labels are
      the code's: the first and last nodes carry none, every interior node carries its outgoing edge. */
  ghost predicate IsPathOf(t: Tables, from: Id, to: Id, p: seq<Relationship>, nodes: seq<PathNode>) {
    && IsWalk(t, from, to, p)
    && Shortest(t, from, to, |p|)
    && |nodes| == |p| + 1
    && (forall i :: 0 <= i <= |p| ==>
          Vertex(from, p, i) in t.entities && nodes[i].entity == t.entities[Vertex(from, p, i)])
    && (forall i :: 0 <= i <= |p| ==> nodes[i].relationship == if 0 < i < |p| then Some(p[i]) else None)
    && (forall i, j :: 0 <= i < j <= |p| ==> nodes[i].entity.id != nodes[j].entity.id)
  }

  // ---- the search state ----

  /** What the queue, visited set, depth map and predecessor map say about each other. */
  ghost predicate SearchTree(t: Tables, from: Id, depths: map<Id, nat>, prev: map<Id, Predecessor>) {
    && from in depths && depths[from] == 0
    && prev.Keys == depths.Keys - {from}
    && forall v :: v in prev ==>
         && IsEdge(t, prev[v].relationship)
         && prev[v].relationship.to == v
         && prev[v].relationship.from == prev[v].entity
         && prev[v].entity in depths
         && depths[v] == depths[prev[v].entity] + 1
  }

  /** The walk recorded by the predecessors of v. */
  ghost function TreeWalk(t: Tables, from: Id, v: Id, depths: map<Id, nat>, prev: map<Id, Predecessor>)
      : (p: seq<Relationship>)
    requires SearchTree(t, from, depths, prev) && v in depths
    ensures IsWalk(t, from, v, p) && |p| == depths[v]
    decreases depths[v]
  {
    if v == from then []
    else
      var q := TreeWalk(t, from, prev[v].entity, depths, prev);
      WalkSnoc(t, from, q, prev[v].relationship);
      q + [prev[v].relationship]
  }

  /** The queue is in order of depth and spans at most two levels. */
  ghost predicate QueueOrdered(queue: seq<Id>, depths: map<Id, nat>) {
    && (forall i :: 0 <= i < |queue| ==> queue[i] in depths)
    && (forall i, j :: 0 <= i < j < |queue| ==> depths[queue[i]] <= depths[queue[j]])
    && (forall i, j :: 0 <= i < |queue| && 0 <= j < |queue| ==> depths[queue[j]] <= depths[queue[i]] + 1)
  }

  /** Every queued entity is at depth d or d + 1. */
  ghost predicate WithinLevel(queue: seq<Id>, depths: map<Id, nat>, d: nat) {
    forall v :: v in queue ==> v in depths && d <= depths[v] <= d + 1
  }

  ghost predicate AtMost(done: set<Id>, depths: map<Id, nat>, d: nat) {
    forall v :: v in done ==> v in depths && depths[v] <= d
  }

  ghost predicate NoDeeper(done: set<Id>, queue: seq<Id>, depths: map<Id, nat>) {
    forall v, u :: v in done && u in queue ==> v in depths && u in depths && depths[v] <= depths[u]
  }

  /** Every listed edge leads to a visited entity of depth at most d + 1. */
  ghost predicate Followed(edges: seq<Relationship>, depths: map<Id, nat>, d: nat) {
    forall r :: r in edges ==> r.to in depths && depths[r.to] <= d + 1
  }

  /** Every edge out of an expanded entity leads to an entity at most one level deeper. */
  ghost predicate Expanded(t: Tables, done: set<Id>, depths: map<Id, nat>, cap: int) {
    forall r: Relationship :: IsEdge(t, r) && r.from in done && r.from in depths && depths[r.from] < cap
                              ==> r.to in depths && depths[r.to] <= depths[r.from] + 1
  }

  /** The frontier argument: a walk within the cap ends at a visited entity no deeper than its length,
      or some queued entity is shallower than the walk is long. */
  lemma {:induction false} Frontier(t: Tables, from: Id, to: Id, p: seq<Relationship>,
                                    queue: seq<Id>, done: set<Id>, depths: map<Id, nat>, cap: int)
    requires IsWalk(t, from, to, p) && |p| <= cap
    requires from in depths && depths[from] == 0
    requires depths.Keys == done + Elements(queue)
    requires Expanded(t, done, depths, cap)
    ensures (to in depths && depths[to] <= |p|) || (exists u :: u in queue && u in depths && depths[u] < |p|)
    decreases |p|
  {
    if p != [] {
      var last := p[|p| - 1];
      Frontier(t, from, last.from, p[..|p| - 1], queue, done, depths, cap);
      if last.from in depths && depths[last.from] <= |p| - 1 {
        if last.from in done {
          assert IsEdge(t, last);
        } else {
          assert last.from in queue;
        }
      }
    }
  }

  /** The i-th entity of p was discovered at depth i, and its recorded walk is the prefix of p. */
  ghost predicate AtLevel(t: Tables, from: Id, p: seq<Relationship>, i: nat,
                          depths: map<Id, nat>, prev: map<Id, Predecessor>)
    requires SearchTree(t, from, depths, prev)
  {
    i <= |p| &&
    var u := Vertex(from, p, i);
    u in depths && depths[u] == i && TreeWalk(t, from, u, depths, prev) == p[..i]
  }

  lemma {:induction false} TreeWalkLevels(t: Tables, from: Id, v: Id, p: seq<Relationship>,
                                          depths: map<Id, nat>, prev: map<Id, Predecessor>)
    requires SearchTree(t, from, depths, prev) && v in depths
    requires p == TreeWalk(t, from, v, depths, prev)
    ensures forall i: nat :: i <= |p| ==> AtLevel(t, from, p, i, depths, prev)
    decreases depths[v]
  {
    assert p[..|p|] == p;
    if v != from {
      var u := prev[v].entity;
      var q := TreeWalk(t, from, u, depths, prev);
      TreeWalkLevels(t, from, u, q, depths, prev);
      forall i: nat | i <= |p|
        ensures AtLevel(t, from, p, i, depths, prev)
      {
        if i < |p| {
          assert AtLevel(t, from, q, i, depths, prev);
          assert Vertex(from, p, i) == Vertex(from, q, i);
          assert p[..i] == q[..i];
        }
      }
    }
  }

  // ---- rebuilding the path ----

  datatype Link = Link(entity: Id, relationship: Option<Relationship>)

  /** The predecessor walk, from the target back to the start.  Its missing-predecessor error cannot occur here. */
  method TraceBack(t: Tables, from: Id, to: Id, prev: map<Id, Predecessor>, ghost depths: map<Id, nat>,
                   ghost p: seq<Relationship>)
      returns (r: Result<seq<Link>>)
    requires SearchTree(t, from, depths, prev) && IsWalk(t, from, to, p)
    requires forall i: nat :: i <= |p| ==> AtLevel(t, from, p, i, depths, prev)
    ensures r.Ok? && |r.value| == |p| + 1 && ChainOf(from, p, r.value)
  {
    hide *;
    ghost var n := |p|;
    var chain := [Link(to, None)];
    var current := to;
    WalkEnd(t, from, to, p);
    ChainStart(from, to, p);
    while current != from
      invariant 1 <= |chain| <= n + 1
      invariant current == Vertex(from, p, n + 1 - |chain|)
      invariant ChainOf(from, p, chain)
      decreases n - |chain|
    {
      LevelStep(t, from, p, n + 1 - |chain|, depths, prev);
      if current !in prev {
        return Err(NotFound("path not found"));
      }
      var step := prev[current];
      ChainSnoc(from, p, chain);
      chain := chain + [Link(step.entity, Some(step.relationship))];
      current := step.entity;
    }
    LevelStep(t, from, p, n + 1 - |chain|, depths, prev);
    r := Ok(chain);
  }

  /** The nodes of the chain in reverse; the entity lookups cannot fail here. */
  method Rebuild(t: Tables, ghost from: Id, ghost p: seq<Relationship>, chain: seq<Link>)
      returns (r: Result<seq<PathNode>>)
    requires |chain| == |p| + 1 && ChainOf(from, p, chain)
    requires forall i :: 0 <= i <= |p| ==> Vertex(from, p, i) in t.entities
    ensures r.Ok? && |r.value| == |p| + 1 && NodesOf(t, from, p, r.value)
  {
    hide Vertex;
    var path: seq<PathNode> := [];
    var i := |chain| - 1;
    while i >= 0
      invariant -1 <= i <= |p| && |path| == |p| - i
      invariant NodesOf(t, from, p, path)
    {
      assert Vertex(from, p, |p| - i) in t.entities;
      match GetEntity(t, chain[i].entity)
      case Err(error) =>
        return Err(error);
      case Ok(entity) =>
        var relationship := None;
        if i < |chain| - 1 {
          relationship := chain[i].relationship;
        }
        path := path + [PathNode(entity, relationship)];
        i := i - 1;
    }
    r := Ok(path);
  }

  /** The recorded walk to the target, entity by entity. */
  method BuildPath(t: Tables, from: Id, to: Id, prev: map<Id, Predecessor>, ghost depths: map<Id, nat>)
      returns (r: Result<seq<PathNode>>)
    requires t.Valid() && from != to
    requires SearchTree(t, from, depths, prev) && to in depths
    requires Shortest(t, from, to, depths[to])
    ensures r.Ok? && IsPathOf(t, from, to, TreeWalk(t, from, to, depths, prev), r.value)
  {
    hide *;
    ghost var p := TreeWalk(t, from, to, depths, prev);
    TreeWalkLevels(t, from, to, p, depths, prev);
    PathInside(t, from, to, p);
    var chain := TraceBack(t, from, to, prev, depths, p);
    r := Rebuild(t, from, p, chain.value);
    PathRebuilt(t, from, to, p, depths, prev, r.value);
  }

  /** The chain holds the end of p, last entity first, each entity with the edge leaving it. */
  ghost predicate ChainOf(from: Id, p: seq<Relationship>, chain: seq<Link>) {
    |chain| <= |p| + 1 &&
    forall j :: 0 <= j < |chain| ==> && chain[j].entity == Vertex(from, p, |p| - j)
                                     && chain[j].relationship == if j == 0 then None else Some(p[|p| - j])
  }

  /** The nodes hold the start of p, labelled as the rebuild loop labels them. */
  ghost predicate NodesOf(t: Tables, from: Id, p: seq<Relationship>, nodes: seq<PathNode>) {
    |nodes| <= |p| + 1 &&
    forall k :: 0 <= k < |nodes| ==> && Vertex(from, p, k) in t.entities
                                     && nodes[k].entity == t.entities[Vertex(from, p, k)]
                                     && nodes[k].relationship == if 0 < k < |p| then Some(p[k]) else None
  }

  lemma ChainStart(from: Id, to: Id, p: seq<Relationship>)
    requires Vertex(from, p, |p|) == to
    ensures ChainOf(from, p, [Link(to, None)])
  {
  }

  lemma ChainSnoc(from: Id, p: seq<Relationship>, chain: seq<Link>)
    requires 1 <= |chain| <= |p| && ChainOf(from, p, chain)
    ensures var k := |p| - |chain|;
            ChainOf(from, p, chain + [Link(Vertex(from, p, k), Some(p[k]))])
  {
    hide Vertex;
  }

  lemma WalkEnd(t: Tables, from: Id, to: Id, p: seq<Relationship>)
    requires IsWalk(t, from, to, p)
    ensures Vertex(from, p, |p|) == to
  {
  }

  /** Level 0 is the start, and the predecessor of level k > 0 is level k - 1 along p. */
  lemma LevelStep(t: Tables, from: Id, p: seq<Relationship>, k: nat, depths: map<Id, nat>, prev: map<Id, Predecessor>)
    requires SearchTree(t, from, depths, prev) && AtLevel(t, from, p, k, depths, prev)
    ensures Vertex(from, p, k) == from <==> k == 0
    ensures k > 0 ==> var v := Vertex(from, p, k);
                      v in prev && prev[v] == Predecessor(Vertex(from, p, k - 1), p[k - 1])
  {
    var v := Vertex(from, p, k);
    if k > 0 {
      var q := TreeWalk(t, from, prev[v].entity, depths, prev);
      assert p[..k] == q + [prev[v].relationship];
      assert p[k - 1] == p[..k][k - 1];
      assert p[..k][..k - 1] == q;
      if k > 1 {
        assert q[k - 2] == p[k - 2];
      }
    }
  }

  lemma PathRebuilt(t: Tables, from: Id, to: Id, p: seq<Relationship>, depths: map<Id, nat>,
                    prev: map<Id, Predecessor>, nodes: seq<PathNode>)
    requires t.Valid() && SearchTree(t, from, depths, prev) && IsWalk(t, from, to, p) && Shortest(t, from, to, |p|)
    requires forall i: nat :: i <= |p| ==> AtLevel(t, from, p, i, depths, prev)
    requires NodesOf(t, from, p, nodes) && |nodes| == |p| + 1
    ensures IsPathOf(t, from, to, p, nodes)
  {
    forall i, j | 0 <= i < j <= |p|
      ensures nodes[i].entity.id != nodes[j].entity.id
    {
      assert t.ValidEntity(Vertex(from, p, i)) && t.ValidEntity(Vertex(from, p, j));
      assert AtLevel(t, from, p, i, depths, prev) && AtLevel(t, from, p, j, depths, prev);
    }
  }

  lemma PathInside(t: Tables, from: Id, to: Id, p: seq<Relationship>)
    requires t.Valid() && IsWalk(t, from, to, p) && from != to
    ensures forall i :: 0 <= i <= |p| ==> Vertex(from, p, i) in t.entities
  {
    WalkStaysInside(t, from, to, p);
    WalkIffChain(t, from, to, p);
    forall i | 0 < i <= |p|
      ensures Vertex(from, p, i) in t.entities
    {
      assert IsEdge(t, p[i - 1]) && t.ValidRelationship(p[i - 1].id);
    }
  }

  // ---- the search ----

  method ListAllOutgoing(t: Tables, id: Id) returns (rows: seq<Relationship>)
    requires t.Valid()
    ensures rows == Outgoing(t, id)
  {
    rows := ListAllByStep(Outgoing(t, id), PAGE_SIZE);
  }

  method OnlyNode(t: Tables, id: Id) returns (r: Result<seq<PathNode>>)
    ensures r == if id in t.entities then Ok([PathNode(t.entities[id], None)]) else Err(NotFound("entity not found"))
  {
    var entity :- GetEntity(t, id);
    r := Ok([PathNode(entity, None)]);
  }

  /** The search succeeds exactly when a walk within the cap exists, and then returns a shortest one. */
  method FindPath(t: Tables, from: Id, to: Id, maxDepth: int) returns (r: Result<seq<PathNode>>)
    requires t.Valid()
    ensures from == to ==> r == if from in t.entities then Ok([PathNode(t.entities[from], None)])
                                else Err(NotFound("entity not found"))
    ensures from != to ==> (r.Ok? <==> Reachable(t, from, to, Cap(maxDepth)))
    ensures from != to && r.Ok? ==>
              exists p :: IsPathOf(t, from, to, p, r.value) && 1 <= |p| <= Cap(maxDepth)
    ensures from != to && r.Err? ==> r.error == NotFound("path not found")
  {
    hide *;
    var cap := Cap(maxDepth);
    if from == to {
      r := OnlyNode(t, from);
      return;
    }

    var queue := [from];
    var visited := {from};
    var depths: map<Id, nat> := map[from := 0];
    var prev: map<Id, Predecessor> := map[];
    ghost var done: set<Id> := {};
    ghost var bound := t.entities.Keys + {from};
    Start(t, from, cap);
    while |queue| > 0
      invariant visited == depths.Keys == done + Elements(queue) && visited <= bound
      invariant done !! Elements(queue) && Distinct(queue)
      invariant to !in visited && from in visited
      invariant SearchTree(t, from, depths, prev)
      invariant QueueOrdered(queue, depths)
      invariant NoDeeper(done, queue, depths)
      invariant Expanded(t, done, depths, cap)
      decreases bound - done
    {
      var current := queue[0];
      NoShorterWalk(t, from, to, queue, done, depths, prev, cap);
      Dequeue(queue, done, depths);
      queue := queue[1..];
      ghost var d := depths[current];

      if depths[current] < cap {
        var relationships := ListAllOutgoing(t, current);
        var i := 0;
        FollowedNone(relationships, depths, d);
        while i < |relationships|
          invariant 0 <= i <= |relationships|
          invariant visited == depths.Keys == done + {current} + Elements(queue) && visited <= bound
          invariant done + {current} !! Elements(queue) && current !in done && Distinct(queue)
          invariant to !in visited && from in visited
          invariant depths[current] == d
          invariant SearchTree(t, from, depths, prev)
          invariant QueueOrdered(queue, depths)
          invariant WithinLevel(queue, depths, d)
          invariant AtMost(done, depths, d)
          invariant Expanded(t, done, depths, cap)
          invariant Followed(relationships[..i], depths, d)
        {
          var relationship := relationships[i];
          assert relationship in relationships;
          var next := relationship.to;
          FollowOne(relationships, i, done, current, queue, depths, d);
          if next !in visited {
            EdgeInside(t, relationship);
            ghost var before, prevBefore := depths, prev;
            visited := visited + {next};
            depths := depths[next := depths[current] + 1];
            prev := prev[next := Predecessor(current, relationship)];
            Discover(t, from, queue, done, before, prevBefore, current, next, relationship, cap, depths, prev);
            FollowedLater(relationships, i, done, before, next, d, depths);
            if next == to {
              r := BuildPath(t, from, to, prev, depths);
              PathFound(t, from, to, depths, prev, r.value, cap);
              return;
            }
            queue := queue + [next];
          }
          i := i + 1;
        }
        assert relationships[..i] == relationships;
        ExpansionComplete(t, done, current, relationships, depths, cap);
      } else {
        ExpansionSkipped(t, done, current, depths, cap);
      }
      NoDeeperNext(done, current, queue, depths);
      done := done + {current};
    }
    Exhausted(t, from, to, done, depths, prev, cap);
    r := Err(NotFound("path not found"));
  }

  // ---- the steps of the search ----

  lemma Start(t: Tables, from: Id, cap: int)
    ensures SearchTree(t, from, map[from := 0], map[])
    ensures QueueOrdered([from], map[from := 0])
    ensures Elements([from]) == {from} && Distinct([from])
    ensures NoDeeper({}, [from], map[from := 0])
    ensures Expanded(t, {}, map[from := 0], cap)
  {
  }

  /** While the target is unvisited, every walk to it is longer than the head of the queue is deep. */
  lemma NoShorterWalk(t: Tables, from: Id, to: Id, queue: seq<Id>, done: set<Id>, depths: map<Id, nat>,
                      prev: map<Id, Predecessor>, cap: int)
    requires queue != [] && QueueOrdered(queue, depths)
    requires SearchTree(t, from, depths, prev)
    requires depths.Keys == done + Elements(queue)
    requires Expanded(t, done, depths, cap)
    requires to !in depths
    ensures queue[0] in depths
    ensures depths[queue[0]] < cap ==> Shortest(t, from, to, depths[queue[0]] + 1)
  {
    forall p | IsWalk(t, from, to, p) && |p| <= cap
      ensures depths[queue[0]] < |p|
    {
      Frontier(t, from, to, p, queue, done, depths, cap);
      var u :| u in queue && u in depths && depths[u] < |p|;
      var k :| 0 <= k < |queue| && queue[k] == u;
    }
  }

  lemma EdgeInside(t: Tables, e: Relationship)
    requires t.Valid() && IsEdge(t, e)
    ensures e.from in t.entities && e.to in t.entities
  {
    assert t.ValidRelationship(e.id);
  }

  lemma Dequeue(queue: seq<Id>, done: set<Id>, depths: map<Id, nat>)
    requires queue != [] && QueueOrdered(queue, depths) && Distinct(queue) && NoDeeper(done, queue, depths)
    ensures queue[0] in depths && queue[0] in Elements(queue)
    ensures var head, tail := queue[0], queue[1..];
            && QueueOrdered(tail, depths) && Distinct(tail) && head !in tail
            && Elements(queue) == {head} + Elements(tail) && head !in Elements(tail)
            && WithinLevel(tail, depths, depths[head]) && AtMost(done, depths, depths[head])
  {
    assert queue == [queue[0]] + queue[1..];
  }

  /** Discovering an entity keeps the search state consistent. */
  lemma Discover(t: Tables, from: Id, queue: seq<Id>, done: set<Id>, depths: map<Id, nat>,
                 prev: map<Id, Predecessor>, current: Id, next: Id, e: Relationship, cap: int,
                 depths': map<Id, nat>, prev': map<Id, Predecessor>)
    requires SearchTree(t, from, depths, prev) && QueueOrdered(queue, depths) && Expanded(t, done, depths, cap)
    requires IsEdge(t, e) && e.from == current && e.to == next
    requires current in depths && next !in depths && done <= depths.Keys
    requires WithinLevel(queue, depths, depths[current]) && AtMost(done, depths, depths[current])
    requires Distinct(queue)
    requires depths' == depths[next := depths[current] + 1] && prev' == prev[next := Predecessor(current, e)]
    ensures SearchTree(t, from, depths', prev')
    ensures QueueOrdered(queue + [next], depths')
    ensures Expanded(t, done, depths', cap)
    ensures WithinLevel(queue + [next], depths', depths[current])
    ensures AtMost(done, depths', depths[current])
    ensures Elements(queue + [next]) == Elements(queue) + {next} && Distinct(queue + [next])
  {
    hide IsEdge;
    ExpandedLater(t, done, depths, next, depths[current] + 1, cap);
    hide Expanded;
    assert forall v :: v in queue ==> v in depths;
  }

  lemma ExpandedLater(t: Tables, done: set<Id>, depths: map<Id, nat>, next: Id, d: nat, cap: int)
    requires Expanded(t, done, depths, cap) && next !in depths && done <= depths.Keys
    ensures Expanded(t, done, depths[next := d], cap)
  {
    hide IsEdge;
  }

  lemma FollowedNone(relationships: seq<Relationship>, depths: map<Id, nat>, d: nat)
    ensures Followed(relationships[..0], depths, d)
  {
  }

  lemma FollowOne(relationships: seq<Relationship>, i: nat, done: set<Id>, current: Id, queue: seq<Id>,
                  depths: map<Id, nat>, d: nat)
    requires i < |relationships| && Followed(relationships[..i], depths, d)
    requires depths.Keys == done + {current} + Elements(queue)
    requires current in depths && depths[current] == d && WithinLevel(queue, depths, d) && AtMost(done, depths, d)
    ensures relationships[i].to in depths ==> Followed(relationships[..i + 1], depths, d)
  {
    assert relationships[..i + 1] == relationships[..i] + [relationships[i]];
  }

  lemma FollowedLater(relationships: seq<Relationship>, i: nat, done: set<Id>, depths: map<Id, nat>, next: Id, d: nat,
                      depths': map<Id, nat>)
    requires i < |relationships| && Followed(relationships[..i], depths, d)
    requires next == relationships[i].to && depths' == depths[next := d + 1]
    ensures Followed(relationships[..i + 1], depths', d)
  {
    assert relationships[..i + 1] == relationships[..i] + [relationships[i]];
  }

  lemma ExpansionComplete(t: Tables, done: set<Id>, current: Id, relationships: seq<Relationship>,
                          depths: map<Id, nat>, cap: int)
    requires t.Valid() && Expanded(t, done, depths, cap) && current in depths
    requires relationships == Outgoing(t, current) && Followed(relationships, depths, depths[current])
    ensures Expanded(t, done + {current}, depths, cap)
  {
    hide *;
    forall r: Relationship | IsEdge(t, r) && r.from == current
      ensures r in relationships
    {
      OutgoingListed(t, r);
    }
    ExpandedSnoc(t, done, current, relationships, depths, cap);
  }

  lemma OutgoingListed(t: Tables, r: Relationship)
    requires t.Valid() && IsEdge(t, r)
    ensures r in Outgoing(t, r.from)
  {
  }

  lemma ExpandedSnoc(t: Tables, done: set<Id>, current: Id, relationships: seq<Relationship>,
                     depths: map<Id, nat>, cap: int)
    requires Expanded(t, done, depths, cap) && current in depths
    requires (forall r: Relationship :: IsEdge(t, r) && r.from == current ==> r in relationships)
    requires Followed(relationships, depths, depths[current])
    ensures Expanded(t, done + {current}, depths, cap)
  {
    hide IsEdge;
  }

  lemma ExpansionSkipped(t: Tables, done: set<Id>, current: Id, depths: map<Id, nat>, cap: int)
    requires Expanded(t, done, depths, cap) && current in depths && depths[current] >= cap
    ensures Expanded(t, done + {current}, depths, cap)
  {
  }

  lemma NoDeeperNext(done: set<Id>, current: Id, queue: seq<Id>, depths: map<Id, nat>)
    requires current in depths && WithinLevel(queue, depths, depths[current]) && AtMost(done, depths, depths[current])
    ensures NoDeeper(done + {current}, queue, depths)
  {
  }

  lemma PathFound(t: Tables, from: Id, to: Id, depths: map<Id, nat>, prev: map<Id, Predecessor>,
                  nodes: seq<PathNode>, cap: int)
    requires SearchTree(t, from, depths, prev) && to in depths && 1 <= depths[to] <= cap
    requires IsPathOf(t, from, to, TreeWalk(t, from, to, depths, prev), nodes)
    ensures exists p :: IsPathOf(t, from, to, p, nodes) && 1 <= |p| <= cap
    ensures Reachable(t, from, to, cap)
  {
    var p := TreeWalk(t, from, to, depths, prev);
    assert IsWalk(t, from, to, p) && |p| <= cap;
  }

  lemma Exhausted(t: Tables, from: Id, to: Id, done: set<Id>, depths: map<Id, nat>, prev: map<Id, Predecessor>,
      cap: int)
    requires SearchTree(t, from, depths, prev) && Expanded(t, done, depths, cap)
    requires depths.Keys == done + Elements([]) && to !in depths
    ensures !Reachable(t, from, to, cap)
  {
    forall p | IsWalk(t, from, to, p) && |p| <= cap
      ensures false
    {
      Frontier(t, from, to, p, [], done, depths, cap);
    }
  }
}
