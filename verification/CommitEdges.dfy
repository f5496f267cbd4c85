/** Creating the planned edges: each exactly once, and none that UNIQUE (from, to, type) would refuse. */
module CommitEdges {
  import opened Types
  import opened Ordering
  import opened Tables
  import opened Text
  import opened Planner
  import opened Commit
  import opened CommitEntities

  // ---- the string keys of edges ----

  /** Text that can be told apart inside an edge key: the separators' characters do not occur in it. */
  ghost predicate Plain(s: string) {
    forall i :: 0 <= i < |s| ==> s[i] != '-' && s[i] != '>' && s[i] != ':'
  }

  lemma KeyIsPlain(u: Text, name: string)
    requires u.Valid()
    ensures Plain(EntityKey(u, name))
  {
    NormalizedIsNormal(u, name);
  }

  /** A string splits uniquely at the first occurrence of a character. */
  lemma FirstSplit(a: string, b: string, c: char, x: string, y: string)
    requires c !in a && c !in b && a + [c] + x == b + [c] + y
    ensures a == b && x == y
  {
    var s := a + [c] + x;
    assert s[|a|] == c && (b + [c] + y)[|b|] == c;
    assert |a| == |b|;
    assert s[..|a|] == a && (b + [c] + y)[..|b|] == b;
    assert s[|a| + 1..] == x && (b + [c] + y)[|b| + 1..] == y;
  }

  /** The key of an edge determines both end keys and the type, whatever the type contains. */
  lemma EdgeKeyUnique(from1: string, to1: string, kind1: string, from2: string, to2: string, kind2: string)
    requires Plain(from1) && Plain(to1) && Plain(from2) && Plain(to2)
    requires EdgeKey(from1, to1, kind1) == EdgeKey(from2, to2, kind2)
    ensures from1 == from2 && to1 == to2 && kind1 == kind2
  {
    var x, y := ">" + to1 + ":" + kind1, ">" + to2 + ":" + kind2;
    assert EdgeKey(from1, to1, kind1) == from1 + ['-'] + x;
    assert EdgeKey(from2, to2, kind2) == from2 + ['-'] + y;
    FirstSplit(from1, from2, '-', x, y);
    assert x[1..] == to1 + [':'] + kind1 && y[1..] == to2 + [':'] + kind2;
    FirstSplit(to1, to2, ':', kind1, kind2);
  }

  // ---- committing the edges ----

  ghost predicate HasTriple(r: Relationship, refs: map<string, EntityRef>, e: EdgePlan) {
    && Resolved(refs, e.fromKey) && Resolved(refs, e.toKey)
    && r.from == ResolvedId(refs, e.fromKey) && r.to == ResolvedId(refs, e.toKey) && r.kind == e.kind
  }

  /** Only relationships were added, under fresh identifiers. */
  ghost predicate OnlyEdgesAdded(t1: Tables, t: Tables) {
    && t.(relationships := t1.relationships, nextId := t1.nextId) == t1
    && t1.nextId <= t.nextId
    && (forall i :: i in t1.relationships ==> i in t.relationships && t.relationships[i] == t1.relationships[i])
    && (forall i :: i in t.relationships && i !in t1.relationships ==> t1.nextId <= i)
  }

  /** The planned edge after its turn: created under a fresh identifier, or stored all along. */
  ghost predicate EdgeDone(t1: Tables, t: Tables, refs: map<string, EntityRef>, planned: EdgePlan, e: EdgePlan) {
    && e == planned.(createdId := e.createdId) && planned.createdId.None?
    && Resolved(refs, e.fromKey) && Resolved(refs, e.toKey)
    && match e.createdId
       case Some(i) => i in t.relationships && t1.nextId <= i && HasTriple(t.relationships[i], refs, e)
       case None => var p := EdgeParams(refs, e); RelationshipExists(t1, p.from, p.to, p.kind)
  }

  /** Every added relationship is one of the listed planned edges. */
  ghost predicate AddedByPlan(t1: Tables, t: Tables, keys: seq<string>, edges: map<string, EdgePlan>) {
    forall i :: i in t.relationships && i !in t1.relationships ==>
                  exists k :: k in keys && k in edges && edges[k].createdId == Some(i)
  }

  ghost function CreatedKeys(keys: seq<string>, edges: map<string, EdgePlan>): set<string> {
    set k | k in keys && k in edges && edges[k].createdId.Some?
  }

  ghost predicate EdgesDoneOk(t1: Tables, refs: map<string, EntityRef>, planned: map<string, EdgePlan>,
                              keys: seq<string>, done: EdgesDone) {
    && OnlyEdgesAdded(t1, done.tables)
    && OthersAsPlanned(planned, keys, done.edges)
    && ListedDone(t1, done.tables, refs, planned, keys, done.edges)
    && AddedByPlan(t1, done.tables, keys, done.edges)
    && |done.tables.relationships| == |t1.relationships| + |CreatedKeys(keys, done.edges)|
  }

  ghost predicate OthersAsPlanned(planned: map<string, EdgePlan>, keys: seq<string>, edges: map<string, EdgePlan>) {
    edges.Keys == planned.Keys && forall k :: k in planned && k !in keys ==> edges[k] == planned[k]
  }

  ghost predicate ListedDone(t1: Tables, t: Tables, refs: map<string, EntityRef>, planned: map<string, EdgePlan>,
                             keys: seq<string>, edges: map<string, EdgePlan>) {
    forall k :: k in planned && k in keys ==> k in edges && EdgeDone(t1, t, refs, planned[k], edges[k])
  }

  /** What a plan gives the edge phase. */
  ghost predicate EdgesReady(u: Text, t1: Tables, next0: Id, refs: map<string, EntityRef>, planned: map<string,
      EdgePlan>) {
    && RefsDone(u, t1, next0, refs)
    && (forall k :: k in refs ==> Resolved(refs, k))
    && forall k :: k in planned ==>
         && planned[k].key == k == EdgeKey(planned[k].fromKey, planned[k].toKey, planned[k].kind)
         && planned[k].createdId.None? && planned[k].fromKey in refs && planned[k].toKey in refs
  }

  /** An edge not stored before the commit is not stored when its turn comes. */
  lemma NotYetStored(u: Text, t1: Tables, next0: Id, refs: map<string, EntityRef>, planned: map<string, EdgePlan>,
                     keys: seq<string>, done: EdgesDone, key: string)
    requires EdgesReady(u, t1, next0, refs, planned) && EdgesDoneOk(t1, refs, planned, keys, done)
    requires key in planned && key !in keys
    requires var p := EdgeParams(refs, planned[key]); !RelationshipExists(t1, p.from, p.to, p.kind)
    ensures var p := EdgeParams(refs, planned[key]); !RelationshipExists(done.tables, p.from, p.to, p.kind)
  {
    hide RefsDone;
    hide EdgeKey;
    var p := EdgeParams(refs, planned[key]);
    if i :| i in done.tables.relationships && done.tables.relationships[i].from == p.from
            && done.tables.relationships[i].to == p.to && done.tables.relationships[i].kind == p.kind {
      if i !in t1.relationships {
        var k :| k in keys && k in done.edges && done.edges[k].createdId == Some(i);
        assert EdgeDone(t1, done.tables, refs, planned[k], done.edges[k]);
        KeysInjective(u, t1, next0, refs, planned[k].fromKey, planned[key].fromKey);
        KeysInjective(u, t1, next0, refs, planned[k].toKey, planned[key].toKey);
      }
    }
  }

  lemma EdgeCreated(t: Tables, p: CreateRelationshipParams)
    requires t.Valid() && p.from in t.entities && p.to in t.entities && !RelationshipExists(t, p.from, p.to, p.kind)
    ensures CreateRelationship(t, p).Ok?
    ensures var w := CreateRelationship(t, p).value;
            && w.tables.Valid() && t.nextId !in t.relationships
            && w.row == Relationship(t.nextId, p.from, p.to, p.kind, p.weight, t.now, p.metadata)
            && w.tables == t.(relationships := t.relationships[t.nextId := w.row], nextId := t.nextId + 1)
  {
    FreshId(t);
  }

  lemma EdgeAdded(t1: Tables, refs: map<string, EntityRef>, planned: map<string, EdgePlan>, keys: seq<string>,
                  done: EdgesDone, key: string, r: Relationship, done': EdgesDone)
    requires EdgesDoneOk(t1, refs, planned, keys, done) && key in planned && key !in keys
        && planned[key].createdId.None?
    requires r.id == done.tables.nextId && r.id !in done.tables.relationships && HasTriple(r, refs, planned[key])
    requires done' == EdgesDone(done.tables.(relationships := done.tables.relationships[r.id := r], nextId := r.id + 1),
                                done.edges[key := done.edges[key].(createdId := Some(r.id))])
    ensures EdgesDoneOk(t1, refs, planned, keys + [key], done')
  {
    hide HasTriple;
    hide ListedDone;
    hide AddedByPlan;
    AddedEdgesDone(t1, refs, planned, keys, done, key, r, done');
    AddedStillByPlan(t1, keys, done, key, r, done');
    CreatedKeyAdded(keys, done.edges, key, done'.edges);
  }

  lemma CreatedKeyAdded(keys: seq<string>, edges: map<string, EdgePlan>, key: string, edges': map<string, EdgePlan>)
    requires key !in keys && key in edges && key in edges' && edges'[key].createdId.Some?
    requires forall k :: k in keys && k in edges ==> k in edges' && edges'[k] == edges[k]
    requires edges'.Keys == edges.Keys
    ensures |CreatedKeys(keys + [key], edges')| == |CreatedKeys(keys, edges)| + 1
  {
    assert CreatedKeys(keys + [key], edges') == CreatedKeys(keys, edges) + {key};
  }

  lemma AddedEdgesDone(t1: Tables, refs: map<string, EntityRef>, planned: map<string, EdgePlan>, keys: seq<string>,
                       done: EdgesDone, key: string, r: Relationship, done': EdgesDone)
    requires ListedDone(t1, done.tables, refs, planned, keys, done.edges)
    requires key in planned && key !in keys && planned[key].createdId.None? && key in done.edges
        && done.edges[key] == planned[key]
    requires t1.nextId <= r.id && r.id !in done.tables.relationships && HasTriple(r, refs, planned[key])
    requires done'.tables.relationships == done.tables.relationships[r.id := r]
    requires done'.edges == done.edges[key := done.edges[key].(createdId := Some(r.id))]
    ensures ListedDone(t1, done'.tables, refs, planned, keys + [key], done'.edges)
  {
    hide RelationshipExists;
    forall k | k in planned && k in keys + [key]
      ensures k in done'.edges && EdgeDone(t1, done'.tables, refs, planned[k], done'.edges[k])
    {
      if k in keys {
        assert EdgeDone(t1, done.tables, refs, planned[k], done.edges[k]);
      }
    }
  }

  lemma AddedStillByPlan(t1: Tables, keys: seq<string>, done: EdgesDone, key: string, r: Relationship, done': EdgesDone)
    requires AddedByPlan(t1, done.tables, keys, done.edges) && key !in keys && key in done.edges
    requires done'.tables.relationships == done.tables.relationships[r.id := r]
    requires done'.edges == done.edges[key := done.edges[key].(createdId := Some(r.id))]
    ensures AddedByPlan(t1, done'.tables, keys + [key], done'.edges)
  {
    forall i | i in done'.tables.relationships && i !in t1.relationships
      ensures exists k :: k in keys + [key] && k in done'.edges && done'.edges[k].createdId == Some(i)
    {
      if i == r.id {
        assert key in keys + [key];
      } else {
        var k :| k in keys && k in done.edges && done.edges[k].createdId == Some(i);
        assert k in keys + [key] && done'.edges[k] == done.edges[k];
      }
    }
  }

  lemma EdgeSkipped(t1: Tables, refs: map<string, EntityRef>, planned: map<string, EdgePlan>, keys: seq<string>,
                    done: EdgesDone, key: string)
    requires EdgesDoneOk(t1, refs, planned, keys, done) && key in planned && key !in keys
        && planned[key].createdId.None?
    requires Resolved(refs, planned[key].fromKey) && Resolved(refs, planned[key].toKey)
    requires var p := EdgeParams(refs, planned[key]); RelationshipExists(t1, p.from, p.to, p.kind)
    ensures EdgesDoneOk(t1, refs, planned, keys + [key], done)
  {
    assert CreatedKeys(keys + [key], done.edges) == CreatedKeys(keys, done.edges);
    forall i | i in done.tables.relationships && i !in t1.relationships
      ensures exists k :: k in keys + [key] && k in done.edges && done.edges[k].createdId == Some(i)
    {
      var k :| k in keys && k in done.edges && done.edges[k].createdId == Some(i);
      assert k in keys + [key];
    }
  }

  lemma OneEdgeDone(u: Text, t1: Tables, next0: Id, refs: map<string, EntityRef>, planned: map<string, EdgePlan>,
                    keys: seq<string>, done: EdgesDone, key: string)
    requires EdgesReady(u, t1, next0, refs, planned)
    requires done.tables.Valid() && EdgesDoneOk(t1, refs, planned, keys, done) && key in planned && key !in keys
    ensures var r := CreateOneEdge(refs, done, key);
            r.Ok? && r.value.tables.Valid() && EdgesDoneOk(t1, refs, planned, keys + [key], r.value)
  {
    hide *;
    PlannedEdge(u, t1, next0, refs, planned, keys, done, key);
    var p := EdgeParams(refs, planned[key]);
    OneEdgeCases(refs, done, key);
    if RelationshipExists(t1, p.from, p.to, p.kind) {
      StillStored(t1, refs, planned, keys, done, p);
      EdgeSkipped(t1, refs, planned, keys, done, key);
    } else {
      NotYetStored(u, t1, next0, refs, planned, keys, done, key);
      EdgeCreated(done.tables, p);
      var w := CreateRelationship(done.tables, p).value;
      TripleOf(refs, planned[key], w.row);
      EdgeAdded(t1, refs, planned, keys, done, key, w.row,
                EdgesDone(w.tables, done.edges[key := done.edges[key].(createdId := Some(w.row.id))]));
    }
  }

  lemma PlannedEdge(u: Text, t1: Tables, next0: Id, refs: map<string, EntityRef>, planned: map<string, EdgePlan>,
                    keys: seq<string>, done: EdgesDone, key: string)
    requires EdgesReady(u, t1, next0, refs, planned)
    requires EdgesDoneOk(t1, refs, planned, keys, done) && key in planned && key !in keys
    ensures key in done.edges && done.edges[key] == planned[key] && planned[key].createdId.None?
    ensures Resolved(refs, planned[key].fromKey) && Resolved(refs, planned[key].toKey)
    ensures var p := EdgeParams(refs, planned[key]); p.from in done.tables.entities && p.to in done.tables.entities
  {
    var e := planned[key];
    assert RefDone(u, t1, next0, e.fromKey, refs[e.fromKey]) && RefDone(u, t1, next0, e.toKey, refs[e.toKey]);
  }

  lemma OneEdgeCases(refs: map<string, EntityRef>, done: EdgesDone, key: string)
    requires key in done.edges && Resolved(refs, done.edges[key].fromKey) && Resolved(refs, done.edges[key].toKey)
    ensures var p, r := EdgeParams(refs, done.edges[key]), CreateOneEdge(refs, done, key);
            && (RelationshipExists(done.tables, p.from, p.to, p.kind) ==> r == Ok(done))
            && (!RelationshipExists(done.tables, p.from, p.to, p.kind) && CreateRelationship(done.tables, p).Ok? ==>
                  var w := CreateRelationship(done.tables, p).value;
                  r == Ok(EdgesDone(w.tables, done.edges[key := done.edges[key].(createdId := Some(w.row.id))])))
  {
  }

  lemma StillStored(t1: Tables, refs: map<string, EntityRef>, planned: map<string, EdgePlan>, keys: seq<string>,
                    done: EdgesDone, p: CreateRelationshipParams)
    requires EdgesDoneOk(t1, refs, planned, keys, done) && RelationshipExists(t1, p.from, p.to, p.kind)
    ensures RelationshipExists(done.tables, p.from, p.to, p.kind)
  {
  }

  lemma TripleOf(refs: map<string, EntityRef>, e: EdgePlan, r: Relationship)
    requires Resolved(refs, e.fromKey) && Resolved(refs, e.toKey)
    requires var p := EdgeParams(refs, e); r.from == p.from && r.to == p.to && r.kind == p.kind
    ensures HasTriple(r, refs, e)
  {
  }

  /** Edge creation cannot fail. */
  lemma {:induction false} EdgesCommitted(u: Text, t1: Tables, next0: Id, refs: map<string, EntityRef>,
                                          planned: map<string, EdgePlan>, keys: seq<string>)
    requires t1.Valid() && EdgesReady(u, t1, next0, refs, planned)
    requires Distinct(keys) && forall k :: k in keys ==> k in planned
    ensures var r := CreateEdges(t1, refs, planned, keys);
            r.Ok? && r.value.tables.Valid() && EdgesDoneOk(t1, refs, planned, keys, r.value)
    decreases |keys|
  {
    hide EdgesReady;
    hide CreateOneEdge;
    hide EdgesDoneOk;
    if keys == [] {
      NoEdgesDone(t1, refs, planned);
    } else {
      var n := |keys| - 1;
      assert forall k :: k in keys[..n] ==> k in keys;
      EdgesCommitted(u, t1, next0, refs, planned, keys[..n]);
      OneEdgeDone(u, t1, next0, refs, planned, keys[..n], CreateEdges(t1, refs, planned, keys[..n]).value, keys[n]);
      assert keys == keys[..n] + [keys[n]];
    }
  }

  lemma NoEdgesDone(t1: Tables, refs: map<string, EntityRef>, planned: map<string, EdgePlan>)
    ensures EdgesDoneOk(t1, refs, planned, [], EdgesDone(t1, planned))
  {
    assert CreatedKeys([], planned) == {};
  }
}
