/** The cache of entity contexts, keyed by entity and depth. */
module ContextCache {
  import opened Types
  import opened EntityContext

  datatype Key = Key(entity: Id, depth: int)

  type Entries = map<Key, EntityContext>

  /** The keys one invalidation deletes. */
  function DeletedKeys(id: Id): set<Key> {
    {Key(id, 0), Key(id, 1), Key(id, 2), Key(id, 3)}
  }

  /** The entries left after invalidating a set of entities. */
  function Without(entries: Entries, ids: set<Id>): (e: Entries)
    ensures forall k :: k in e ==> k in entries && e[k] == entries[k]
  {
    map k | k in entries && !(k.entity in ids && 0 <= k.depth <= 3) :: entries[k]
  }

  /** The entities an invalidation call touches: the nil identifier is skipped. */
  function Touched(ids: seq<Id>): set<Id> {
    set id | id in ids && id != NIL_ID
  }

  /** What an invalidation leaves: every entry but those of depth 0 to 3 of a listed entity that is not nil. */
  lemma InvalidatedIff(entries: Entries, ids: seq<Id>)
    ensures Without(entries, Touched(ids))
            == map k | k in entries && (k.entity !in ids || k.entity == 0 || k.depth < 0 || k.depth > 3) :: entries[k]
  {
    assert forall k: Key :: k.entity in Touched(ids) <==> k.entity in ids && k.entity != 0;
  }

  class Cache {
    var entries: Entries

    constructor ()
      ensures entries == map[]
    {
      entries := map[];
    }

    method GetEntityContext(id: Id, depth: int) returns (found: Option<EntityContext>)
      ensures found == if Key(id, depth) in entries then Some(entries[Key(id, depth)]) else None
    {
      if Key(id, depth) in entries {
        return Some(entries[Key(id, depth)]);
      }
      found := None;
    }

    method SetEntityContext(id: Id, depth: int, value: EntityContext)
      modifies this
      ensures entries == old(entries)[Key(id, depth) := value]
    {
      entries := entries[Key(id, depth) := value];
    }

    method DeleteEntityContext(id: Id)
      modifies this
      ensures entries == Without(old(entries), {id})
    {
      entries := entries - DeletedKeys(id);
      assert entries == Without(old(entries), {id});
    }

    /** Each listed entity is invalidated once. */
    method InvalidateEntityContext(ids: seq<Id>)
      modifies this
      ensures entries == Without(old(entries), Touched(ids))
    {
      var seen: set<Id> := {};
      var i := 0;
      while i < |ids|
        invariant 0 <= i <= |ids|
        invariant seen == Touched(ids[..i])
        invariant entries == Without(old(entries), seen)
      {
        var id := ids[i];
        assert ids[..i + 1] == ids[..i] + [id];
        assert Touched(ids[..i + 1]) == Touched(ids[..i]) + if id != NIL_ID then {id} else {};
        if id != NIL_ID && id !in seen {
          seen := seen + {id};
          DeleteEntityContext(id);
        }
        i := i + 1;
      }
      assert ids[..i] == ids;
    }
  }
}
