/** Creating the planned entities, and the one-to-one match of keys and entities that results. */
module CommitEntities {
  import opened Types
  import opened Ordering
  import opened Tables
  import opened Text
  import opened Planner
  import opened PlanProperties
  import opened Commit

  /** A reference while entities are being created: next0 separates the entities that were already stored. */
  ghost predicate RefDone(u: Text, t: Tables, next0: Id, key: string, ref: EntityRef) {
    && ref.key == key
    && (ref.existing.None? ==> ref.createdId.None? && Creatable(u, key, ref.create))
    && (ref.existing.Some? ==>
          && ref.existing.value.id in t.entities && t.entities[ref.existing.value.id] == ref.existing.value
          && EntityKey(u, ref.existing.value.name) == key
          && (ref.createdId.None? ==> ref.existing.value.id < next0)
          && (ref.createdId.Some? ==> ref.createdId.value == ref.existing.value.id && next0 <= ref.createdId.value))
  }

  ghost predicate RefsDone(u: Text, t: Tables, next0: Id, refs: map<string, EntityRef>) {
    forall k :: k in refs ==> RefDone(u, t, next0, k, refs[k])
  }

  /** Only entities were added, under fresh identifiers. */
  ghost predicate OnlyEntitiesAdded(t0: Tables, t: Tables) {
    && t.(entities := t0.entities, nextId := t0.nextId) == t0
    && t0.nextId <= t.nextId
    && (forall i :: i in t0.entities ==> i in t.entities && t.entities[i] == t0.entities[i])
    && (forall i :: i in t.entities && i !in t0.entities ==> t0.nextId <= i)
  }

  /** References already resolved, and those not yet reached, are as planned. */
  ghost predicate RefsKept(refs: map<string, EntityRef>, keys: seq<string>, refs': map<string, EntityRef>) {
    && refs'.Keys == refs.Keys
    && (forall k :: k in refs && (k !in keys || refs[k].existing.Some?) ==> refs'[k] == refs[k])
    && (forall k :: k in refs && k in keys ==> refs'[k].existing.Some?)
    && (forall k :: k in refs && refs[k].existing.None? && k in keys ==>
          refs'[k].createdId.Some? && refs'[k].existing.value.name == refs[k].create.name)
  }

  /** Every added entity is bound to a reference. */
  ghost predicate AddedByRefs(t0: Tables, t: Tables, refs: map<string, EntityRef>) {
    forall i :: i in t.entities && i !in t0.entities ==> exists k :: k in refs && refs[k].createdId == Some(i)
  }

  ghost function Missing(refs: map<string, EntityRef>, keys: seq<string>): set<string> {
    set k | k in keys && k in refs && refs[k].existing.None?
  }

  lemma PlannedRefsDone(env: Env, refs: map<string, EntityRef>)
    requires env.Valid() && RefsOk(env, refs)
    ensures RefsDone(env.u, env.tables, env.tables.nextId, refs)
  {
    forall k | k in refs
      ensures RefDone(env.u, env.tables, env.tables.nextId, k, refs[k])
    {
      assert RefOk(env, k, refs[k]);
      if refs[k].existing.Some? {
        assert env.tables.ValidEntity(refs[k].existing.value.id);
      }
    }
  }

  lemma EntityCreated(t: Tables, p: CreateEntityParams)
    requires t.Valid() && StoredType(p.kind) && p.externalId.None?
    ensures CreateEntity(t, p).Ok?
    ensures var w := CreateEntity(t, p).value;
            && w.tables.Valid()
            && w.row.id == t.nextId && w.row.name == p.name && t.nextId !in t.entities
            && w.tables == t.(entities := t.entities[t.nextId := w.row], nextId := t.nextId + 1)
  {
    FreshId(t);
  }

  /** One more key: at most one entity is created, and it is bound to that key. */
  lemma OneEntityDone(u: Text, t0: Tables, refs: map<string, EntityRef>, keys: seq<string>, done: EntitiesDone,
      key: string)
    requires done.tables.Valid() && OnlyEntitiesAdded(t0, done.tables) && AddedByRefs(t0, done.tables, done.refs)
    requires RefsDone(u, done.tables, t0.nextId, done.refs) && RefsKept(refs, keys, done.refs)
    requires key in refs && key !in keys
    requires |done.tables.entities| == |t0.entities| + |Missing(refs, keys)|
    ensures var r := CreateOneEntity(done, key);
            && r.Ok? && r.value.tables.Valid() && OnlyEntitiesAdded(t0, r.value.tables)
            && AddedByRefs(t0, r.value.tables, r.value.refs)
            && RefsDone(u, r.value.tables, t0.nextId, r.value.refs) && RefsKept(refs, keys + [key], r.value.refs)
            && |r.value.tables.entities| == |t0.entities| + |Missing(refs, keys + [key])|
  {
    hide *;
    KeptNext(refs, keys, done.refs, key);
    var ref := done.refs[key];
    OneEntityCases(done, key);
    if ref.existing.None? {
      CreatableParams(u, t0.nextId, done.tables, done.refs, key);
      EntityCreated(done.tables, ref.create);
      var w := CreateEntity(done.tables, ref.create).value;
      EntityAdded(u, t0, done, key, w.tables, w.row);
    }
  }

  lemma OneEntityCases(done: EntitiesDone, key: string)
    requires key in done.refs
    ensures var ref, r := done.refs[key], CreateOneEntity(done, key);
            && (ref.existing.Some? ==> r == Ok(done))
            && (ref.existing.None? && CreateEntity(done.tables, ref.create).Ok? ==>
                  var w := CreateEntity(done.tables, ref.create).value;
                  r == Ok(EntitiesDone(w.tables,
                      done.refs[key := ref.(existing := Some(w.row), createdId := Some(w.row.id))])))
  {
  }

  lemma KeptNext(refs: map<string, EntityRef>, keys: seq<string>, done: map<string, EntityRef>, key: string)
    requires RefsKept(refs, keys, done) && key in refs && key !in keys
    ensures key in done && done[key] == refs[key]
    ensures refs[key].existing.Some? ==>
        RefsKept(refs, keys + [key], done) && Missing(refs, keys + [key]) == Missing(refs, keys)
    ensures refs[key].existing.None? ==>
              && |Missing(refs, keys + [key])| == |Missing(refs, keys)| + 1
              && forall e: Entity | e.name == refs[key].create.name ::
                   RefsKept(refs, keys + [key], done[key := done[key].(existing := Some(e), createdId := Some(e.id))])
  {
    if refs[key].existing.Some? {
      assert Missing(refs, keys + [key]) == Missing(refs, keys);
    } else {
      assert Missing(refs, keys + [key]) == Missing(refs, keys) + {key};
    }
  }

  lemma EntityAdded(u: Text, t0: Tables, done: EntitiesDone, key: string, t': Tables, e: Entity)
    requires key in done.refs
    requires OnlyEntitiesAdded(t0, done.tables) && RefsDone(u, done.tables, t0.nextId, done.refs)
    requires AddedByRefs(t0, done.tables, done.refs) && done.refs[key].existing.None? && done.refs[key].createdId.None?
    requires e.id == done.tables.nextId && e.id !in done.tables.entities && EntityKey(u, e.name) == key
    requires t' == done.tables.(entities := done.tables.entities[e.id := e], nextId := done.tables.nextId + 1)
    ensures OnlyEntitiesAdded(t0, t')
    ensures RefsDone(u, t', t0.nextId, done.refs[key := done.refs[key].(existing := Some(e), createdId := Some(e.id))])
    ensures AddedByRefs(t0, t', done.refs[key := done.refs[key].(existing := Some(e), createdId := Some(e.id))])
  {
    hide Creatable;
    hide EntityKey;
    AddedStillByRefs(t0, done, key, t', e);
    hide AddedByRefs;
    var refs' := done.refs[key := done.refs[key].(existing := Some(e), createdId := Some(e.id))];
    forall k | k in refs'
      ensures RefDone(u, t', t0.nextId, k, refs'[k])
    {
      assert k in done.refs && RefDone(u, done.tables, t0.nextId, k, done.refs[k]);
    }
  }

  lemma AddedStillByRefs(t0: Tables, done: EntitiesDone, key: string, t': Tables, e: Entity)
    requires key in done.refs && AddedByRefs(t0, done.tables, done.refs) && done.refs[key].createdId.None?
    requires t'.entities == done.tables.entities[e.id := e]
    ensures AddedByRefs(t0, t', done.refs[key := done.refs[key].(existing := Some(e), createdId := Some(e.id))])
  {
    var refs' := done.refs[key := done.refs[key].(existing := Some(e), createdId := Some(e.id))];
    forall i | i in t'.entities && i !in t0.entities
      ensures exists k :: k in refs' && refs'[k].createdId == Some(i)
    {
      if i == e.id {
        assert refs'[key].createdId == Some(i);
      } else {
        var k :| k in done.refs && done.refs[k].createdId == Some(i);
        assert refs'[k] == done.refs[k];
      }
    }
  }

  lemma CreatableParams(u: Text, next0: Id, t: Tables, refs: map<string, EntityRef>, key: string)
    requires RefsDone(u, t, next0, refs) && key in refs && refs[key].existing.None?
    ensures refs[key].createdId.None?
    ensures var p := refs[key].create; EntityKey(u, p.name) == key && StoredType(p.kind) && p.externalId.None?
  {
    assert RefDone(u, t, next0, key, refs[key]);
  }

  /** Entity creation cannot fail; it creates exactly the missing entities and resolves every listed key. */
  lemma {:induction false} EntitiesCommitted(u: Text, t0: Tables, refs: map<string, EntityRef>, keys: seq<string>)
    requires t0.Valid() && RefsDone(u, t0, t0.nextId, refs)
    requires Distinct(keys) && forall k :: k in keys ==> k in refs
    ensures var r := CreateEntities(t0, refs, keys);
            && r.Ok? && r.value.tables.Valid() && OnlyEntitiesAdded(t0, r.value.tables)
            && AddedByRefs(t0, r.value.tables, r.value.refs)
            && RefsDone(u, r.value.tables, t0.nextId, r.value.refs) && RefsKept(refs, keys, r.value.refs)
            && |r.value.tables.entities| == |t0.entities| + |Missing(refs, keys)|
    decreases |keys|
  {
    hide CreateOneEntity;
    hide RefsDone;
    hide RefsKept;
    hide OnlyEntitiesAdded;
    hide AddedByRefs;
    hide Missing;
    if keys == [] {
      NoEntitiesDone(t0, refs);
    } else {
      var n := |keys| - 1;
      assert forall k :: k in keys[..n] ==> k in keys;
      EntitiesCommitted(u, t0, refs, keys[..n]);
      OneEntityDone(u, t0, refs, keys[..n], CreateEntities(t0, refs, keys[..n]).value, keys[n]);
      assert keys == keys[..n] + [keys[n]];
    }
  }

  lemma NoEntitiesDone(t0: Tables, refs: map<string, EntityRef>)
    ensures OnlyEntitiesAdded(t0, t0) && AddedByRefs(t0, t0, refs) && RefsKept(refs, [], refs)
        && Missing(refs, []) == {}
  {
  }

  /** Distinct keys resolve to distinct entities. */
  lemma KeysInjective(u: Text, t: Tables, next0: Id, refs: map<string, EntityRef>, a: string, b: string)
    requires RefsDone(u, t, next0, refs) && Resolved(refs, a) && Resolved(refs, b)
    ensures ResolvedId(refs, a) == ResolvedId(refs, b) ==> a == b
  {
    assert RefDone(u, t, next0, a, refs[a]) && RefDone(u, t, next0, b, refs[b]);
  }

  lemma AllResolved(refs: map<string, EntityRef>, keys: seq<string>, refs': map<string, EntityRef>)
    requires Lists(keys, refs) && RefsKept(refs, keys, refs')
    ensures forall k :: k in refs ==> Resolved(refs', k)
    ensures Missing(refs, keys) == ToCreate(refs)
  {
  }
}
