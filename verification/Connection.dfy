/** A connection to the store: the tables, the statements that change them, and one transaction at a time.
    Any statement may fail on the driver's side; the schedule of those failures is arbitrary. */
module Connection {
  import opened Types
  import opened Sql = Tables

  /** Whether the next statement fails. */
  predicate Fails(faults: seq<bool>) {
    FailsAt(faults, 0)
  }

  function Later(faults: seq<bool>): seq<bool> {
    if faults == [] then [] else faults[1..]
  }

  /** The tables and the answer after one attempted write. */
  function Attempted<T>(faults: seq<bool>, t: Tables, w: Result<Wrote<T>>): (Tables, Result<T>) {
    if Fails(faults) then (t, Err(DRIVER_FAILURE))
    else match w case Ok(wrote) => (wrote.tables, Ok(wrote.row)) case Err(error) => (t, Err(error))
  }

  /** The tables and the answer after one attempted deletion. */
  function AttemptedDelete(faults: seq<bool>, t: Tables, w: Result<Tables>): (Tables, Result<()>) {
    if Fails(faults) then (t, Err(DRIVER_FAILURE))
    else match w case Ok(t') => (t', Ok(())) case Err(error) => (t, Err(error))
  }

  class Database {
    var tables: Tables
    var saved: Tables          // the tables at the last Begin
    var faults: seq<bool>

    constructor (t: Tables, failures: seq<bool>)
      ensures tables == t && faults == failures
    {
      tables, saved, faults := t, t, failures;
    }

    /** Consume one entry of the schedule. */
    method Attempt() returns (failed: bool)
      modifies this`faults
      ensures failed == Fails(old(faults)) && faults == Later(old(faults))
    {
      failed := faults != [] && faults[0];
      if faults != [] {
        faults := faults[1..];
      }
    }

    // ---- transactions ----

    method Begin() returns (r: Result<()>)
      modifies this`saved, this`faults
      ensures saved == tables && faults == Later(old(faults))
      ensures r == if Fails(old(faults)) then Err(DRIVER_FAILURE) else Ok(())
    {
      var failed := Attempt();
      saved := tables;
      r := if failed then Err(DRIVER_FAILURE) else Ok(());
    }

    /** A transaction whose commit fails is undone. */
    method Commit() returns (r: Result<()>)
      modifies this`tables, this`faults
      ensures tables == if Fails(old(faults)) then saved else old(tables)
      ensures faults == Later(old(faults))
      ensures r == if Fails(old(faults)) then Err(DRIVER_FAILURE) else Ok(())
    {
      var failed := Attempt();
      if failed {
        tables := saved;
        return Err(DRIVER_FAILURE);
      }
      r := Ok(());
    }

    method Rollback()
      modifies this`tables
      ensures tables == saved
    {
      tables := saved;
    }

    // ---- statements ----

    method CreateEntity(p: CreateEntityParams) returns (r: Result<Entity>)
      modifies this`tables, this`faults
      ensures (tables, r) == Attempted(old(faults), old(tables), Sql.CreateEntity(old(tables), p))
      ensures faults == Later(old(faults))
    {
      var failed := Attempt();
      if failed {
        return Err(DRIVER_FAILURE);
      }
      var w :- Sql.CreateEntity(tables, p);
      tables := w.tables;
      r := Ok(w.row);
    }

    method GetEntity(id: Id) returns (r: Result<Entity>)
      modifies this`faults
      ensures r == if Fails(old(faults)) then Err(DRIVER_FAILURE) else Sql.GetEntity(tables, id)
      ensures faults == Later(old(faults))
    {
      var failed := Attempt();
      r := if failed then Err(DRIVER_FAILURE) else Sql.GetEntity(tables, id);
    }

    method UpdateEntity(id: Id, patch: EntityPatch) returns (r: Result<Entity>)
      modifies this`tables, this`faults
      ensures (tables, r) == Attempted(old(faults), old(tables), Sql.UpdateEntity(old(tables), id, patch))
      ensures faults == Later(old(faults))
    {
      var failed := Attempt();
      if failed {
        return Err(DRIVER_FAILURE);
      }
      var w :- Sql.UpdateEntity(tables, id, patch);
      tables := w.tables;
      r := Ok(w.row);
    }

    method DeleteEntity(id: Id) returns (r: Result<()>)
      modifies this`tables, this`faults
      ensures (tables, r) == AttemptedDelete(old(faults), old(tables), Sql.DeleteEntity(old(tables), id))
      ensures faults == Later(old(faults))
    {
      var failed := Attempt();
      if failed {
        return Err(DRIVER_FAILURE);
      }
      var t :- Sql.DeleteEntity(tables, id);
      tables := t;
      r := Ok(());
    }

    method CreateMemory(p: CreateMemoryParams) returns (r: Result<Memory>)
      modifies this`tables, this`faults
      ensures (tables, r) == Attempted(old(faults), old(tables), Sql.CreateMemory(old(tables), p))
      ensures faults == Later(old(faults))
    {
      var failed := Attempt();
      if failed {
        return Err(DRIVER_FAILURE);
      }
      var w :- Sql.CreateMemory(tables, p);
      tables := w.tables;
      r := Ok(w.row);
    }

    method UpdateMemory(id: Id, patch: MemoryPatch) returns (r: Result<Memory>)
      modifies this`tables, this`faults
      ensures (tables, r) == Attempted(old(faults), old(tables), Sql.UpdateMemory(old(tables), id, patch))
      ensures faults == Later(old(faults))
    {
      var failed := Attempt();
      if failed {
        return Err(DRIVER_FAILURE);
      }
      var w :- Sql.UpdateMemory(tables, id, patch);
      tables := w.tables;
      r := Ok(w.row);
    }

    method GetMemory(id: Id) returns (r: Result<Memory>)
      modifies this`faults
      ensures r == if Fails(old(faults)) then Err(DRIVER_FAILURE) else Sql.GetMemory(tables, id)
      ensures faults == Later(old(faults))
    {
      var failed := Attempt();
      r := if failed then Err(DRIVER_FAILURE) else Sql.GetMemory(tables, id);
    }

    method DeleteMemory(id: Id) returns (r: Result<()>)
      modifies this`tables, this`faults
      ensures (tables, r) == AttemptedDelete(old(faults), old(tables), Sql.DeleteMemory(old(tables), id))
      ensures faults == Later(old(faults))
    {
      var failed := Attempt();
      if failed {
        return Err(DRIVER_FAILURE);
      }
      var t :- Sql.DeleteMemory(tables, id);
      tables := t;
      r := Ok(());
    }

    method RelationshipExists(from: Id, to: Id, kind: string) returns (r: Result<bool>)
      modifies this`faults
      ensures r == if Fails(old(faults)) then Err(DRIVER_FAILURE)
          else Ok(Sql.RelationshipExists(tables, from, to, kind))
      ensures faults == Later(old(faults))
    {
      var failed := Attempt();
      if failed {
        return Err(DRIVER_FAILURE);
      }
      r := Ok(Sql.RelationshipExists(tables, from, to, kind));
    }

    method CreateRelationship(p: CreateRelationshipParams) returns (r: Result<Relationship>)
      modifies this`tables, this`faults
      ensures (tables, r) == Attempted(old(faults), old(tables), Sql.CreateRelationship(old(tables), p))
      ensures faults == Later(old(faults))
    {
      var failed := Attempt();
      if failed {
        return Err(DRIVER_FAILURE);
      }
      var w :- Sql.CreateRelationship(tables, p);
      tables := w.tables;
      r := Ok(w.row);
    }

    method GetRelationship(id: Id) returns (r: Result<Relationship>)
      modifies this`faults
      ensures r == if Fails(old(faults)) then Err(DRIVER_FAILURE) else Sql.GetRelationship(tables, id)
      ensures faults == Later(old(faults))
    {
      var failed := Attempt();
      r := if failed then Err(DRIVER_FAILURE) else Sql.GetRelationship(tables, id);
    }

    method DeleteRelationship(id: Id) returns (r: Result<()>)
      modifies this`tables, this`faults
      ensures (tables, r) == AttemptedDelete(old(faults), old(tables), Sql.DeleteRelationship(old(tables), id))
      ensures faults == Later(old(faults))
    {
      var failed := Attempt();
      if failed {
        return Err(DRIVER_FAILURE);
      }
      var t :- Sql.DeleteRelationship(tables, id);
      tables := t;
      r := Ok(());
    }

    method CreateIngestSource(rawText: string, subjectId: Option<Id>, model: string, actions: seq<Action>)
      returns (r: Result<IngestSource>)
      modifies this`tables, this`faults
      ensures (tables, r) == Attempted(old(faults), old(tables),
                                       Sql.CreateIngestSource(old(tables), rawText, subjectId, model, actions))
      ensures faults == Later(old(faults))
    {
      var failed := Attempt();
      if failed {
        return Err(DRIVER_FAILURE);
      }
      var w :- Sql.CreateIngestSource(tables, rawText, subjectId, model, actions);
      tables := w.tables;
      r := Ok(w.row);
    }
  }
}
