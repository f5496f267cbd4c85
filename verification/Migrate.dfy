/** The migration runner, resumable after a failure at any statement. */
module Migrate {
  import opened Types
  import opened Ordering
  import opened KeyOrder
  import opened Connection

  /** The migrations for a backend, by name; the graph projection is not for plain postgres. */
  function LoadMigrations(files: set<string>, isAge: string -> bool, postgres: bool): (names: seq<string>)
    ensures Distinct(names) && Sorted(names)
    ensures forall n :: n in names <==> n in files && !(postgres && isAge(n))
  {
    SortedKeys(set n | n in files && !(postgres && isAge(n)))
  }

  /** The names not applied yet, in order. */
  function Missing(names: seq<string>, applied: seq<string>): seq<string> {
    if names == [] then []
    else
      var n := |names| - 1;
      Missing(names[..n], applied) + if names[n] in applied then [] else [names[n]]
  }

  lemma {:induction false} MissingIs(names: seq<string>, applied: seq<string>)
    ensures forall x :: x in Missing(names, applied) <==> x in names && x !in applied
    decreases |names|
  {
    if names != [] {
      var n := |names| - 1;
      MissingIs(names[..n], applied);
      assert names == names[..n] + [names[n]];
    }
  }

  lemma MissingSnoc(names: seq<string>, applied: seq<string>, i: nat)
    requires i < |names|
    ensures Missing(names[..i + 1], applied) == Missing(names[..i], applied) + if names[i] in applied then []
        else [names[i]]
  {
    assert names[..i + 1][..i] == names[..i];
  }

  class Runner {
    var created: bool            // the bookkeeping table exists
    var applied: seq<string>     // its rows, oldest first
    var schema: seq<string>      // the migrations in force, oldest first
    var faults: seq<bool>

    constructor (failures: seq<bool>)
      ensures !created && applied == [] && schema == [] && faults == failures
    {
      created, applied, schema, faults := false, [], [], failures;
    }

    method Attempt() returns (failed: bool)
      modifies this`faults
      ensures failed == Fails(old(faults)) && faults == Later(old(faults))
    {
      failed := faults != [] && faults[0];
      if faults != [] {
        faults := faults[1..];
      }
    }

    method Applied(name: string) returns (r: Result<bool>)
      modifies this`faults
      ensures r.Ok? ==> created && r.value == (name in applied)
      ensures old(faults) == [] ==> faults == [] && (r.Ok? <==> created)
    {
      var failed := Attempt();
      if failed || !created {
        return Err(DRIVER_FAILURE);
      }
      r := Ok(name in applied);
    }

    /** One migration and its bookkeeping row, or neither: the transaction begins, runs the script, records it
        and commits, and a failure at any of the four undoes it. */
    method Apply(name: string) returns (r: Result<()>)
      requires created && name !in applied
      modifies this`applied, this`schema, this`faults
      ensures r.Ok? ==> applied == old(applied) + [name] && schema == old(schema) + [name]
      ensures r.Err? ==> applied == old(applied) && schema == old(schema)
      ensures old(faults) == [] ==> faults == [] && r.Ok?
    {
      var savedApplied, savedSchema := applied, schema;
      var failed := Attempt();
      if failed {
        return Err(DRIVER_FAILURE);
      }
      failed := Attempt();
      if failed {
        return Err(DRIVER_FAILURE);
      }
      schema := schema + [name];
      failed := Attempt();
      if failed {
        schema := savedSchema;
        return Err(DRIVER_FAILURE);
      }
      applied := applied + [name];
      failed := Attempt();
      if failed {
        applied, schema := savedApplied, savedSchema;
        return Err(DRIVER_FAILURE);
      }
      r := Ok(());
    }

    /** Every run appends the first missing migrations, each together with its effect; success means none is
        missing any more. */
    method Run(names: seq<string>) returns (r: Result<()>, ghost done: nat)
      requires Distinct(names)
      modifies this
      ensures done <= |names| && (r.Ok? ==> done == |names|)
      ensures applied == old(applied) + Missing(names[..done], old(applied))
      ensures schema == old(schema) + Missing(names[..done], old(applied))
      ensures old(faults) == [] ==> faults == [] && r.Ok?
      ensures r.Ok? ==> created
    {
      done := 0;
      var failed := Attempt();
      if failed {
        return Err(DRIVER_FAILURE), 0;
      }
      created := true;
      var i := 0;
      while i < |names|
        invariant 0 <= i <= |names| && done == i && created
        invariant applied == old(applied) + Missing(names[..i], old(applied))
        invariant schema == old(schema) + Missing(names[..i], old(applied))
        invariant old(faults) == [] ==> faults == []
      {
        MissingSnoc(names, old(applied), i);
        MissingIs(names[..i], old(applied));
        NotYet(names, i);
        var already := Applied(names[i]);
        if already.Err? {
          return Err(already.error), done;
        }
        if !already.value {
          var step := Apply(names[i]);
          if step.Err? {
            return step, done;
          }
        }
        i := i + 1;
        done := i;
      }
      assert names[..i] == names;
      r := Ok(());
    }

    /** Whether nothing is missing. */
    method Current(names: seq<string>) returns (r: Result<bool>)
      modifies this`faults
      ensures r.Ok? ==> (r.value <==> Missing(names, applied) == [])
      ensures old(faults) == [] && created ==> r.Ok?
    {
      MissingIs(names, applied);
      var i := 0;
      while i < |names|
        invariant 0 <= i <= |names| && forall k :: 0 <= k < i ==> names[k] in applied
        invariant old(faults) == [] ==> faults == []
      {
        var already :- Applied(names[i]);
        if !already {
          assert names[i] in Missing(names, applied);
          return Ok(false);
        }
        i := i + 1;
      }
      if Missing(names, applied) != [] {
        assert Missing(names, applied)[0] in Missing(names, applied);
        assert false;
      }
      r := Ok(true);
    }
  }

  lemma NotYet(names: seq<string>, i: nat)
    requires Distinct(names) && i < |names|
    ensures names[i] !in names[..i]
  {
  }

  // ---- any number of runs ----

  /** The rows after runs that got as far as the given numbers of migrations. */
  function AfterRuns(names: seq<string>, applied: seq<string>, reached: seq<nat>): seq<string>
    requires forall i :: 0 <= i < |reached| ==> reached[i] <= |names|
  {
    if reached == [] then applied
    else
      var n := |reached| - 1;
      var before := AfterRuns(names, applied, reached[..n]);
      before + Missing(names[..reached[n]], before)
  }

  function Furthest(reached: seq<nat>): nat {
    if reached == [] then 0
    else
      var n := |reached| - 1;
      if reached[n] > Furthest(reached[..n]) then reached[n] else Furthest(reached[..n])
  }

  lemma {:induction false} MissingBeyond(names: seq<string>, j: nat, k: nat)
    requires Distinct(names) && j <= |names| && k <= |names|
    ensures Missing(names[..k], names[..j]) == if j < k then names[j..k] else []
    decreases k
  {
    if k > 0 {
      MissingSnoc(names, names[..j], k - 1);
      MissingBeyond(names, j, k - 1);
      if k - 1 < j {
        assert names[..j][k - 1] == names[k - 1];
      } else {
        assert names[k - 1] !in names[..j];
      }
    }
  }

  /** From an empty database, however often the runner fails and is started again: the migrations applied are
      the first ones in order, each once, as many as the run that got furthest. */
  lemma {:induction false} RunsApplyPrefix(names: seq<string>, reached: seq<nat>)
    requires Distinct(names) && forall i :: 0 <= i < |reached| ==> reached[i] <= |names|
    ensures Furthest(reached) <= |names| && AfterRuns(names, [], reached) == names[..Furthest(reached)]
    decreases |reached|
  {
    if reached != [] {
      var n := |reached| - 1;
      RunsApplyPrefix(names, reached[..n]);
      MissingBeyond(names, Furthest(reached[..n]), reached[n]);
    }
  }
}
