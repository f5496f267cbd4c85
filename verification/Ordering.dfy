/** ORDER BY: a set of rows listed by a sort key, ties broken by identifier.  The database leaves
    the order of ties open; this model fixes one, so that a listing is a function of its rows. */
module Ordering {
  import opened Types

  /** A row with its sort key.  A descending sort uses the negated column as the key. */
  datatype Row<+T> = Row(key: int, id: Id, value: T)

  predicate Before<T>(a: Row<T>, b: Row<T>) {
    a.key < b.key || (a.key == b.key && a.id <= b.id)
  }

  ghost predicate DistinctIds<T>(rows: set<Row<T>>) {
    forall a, b :: a in rows && b in rows && a.id == b.id ==> a == b
  }

  ghost predicate Distinct<T>(s: seq<T>) {
    forall i, j :: 0 <= i < j < |s| ==> s[i] != s[j]
  }

  lemma LeastExists<T>(rows: set<Row<T>>)
    requires rows != {}
    ensures exists m :: m in rows && forall r :: r in rows ==> Before(m, r)
  {
    var a :| a in rows;
    if rows == {a} {
      assert forall r :: r in rows ==> Before(a, r);
    } else {
      LeastExists(rows - {a});
      var m :| m in rows - {a} && forall r :: r in rows - {a} ==> Before(m, r);
      var least := if Before(a, m) then a else m;
      forall r | r in rows
        ensures Before(least, r)
      {
        if r != a {
          assert r in rows - {a};
        }
      }
    }
  }

  /** The first row of the listing. */
  function Least<T(==, !new)>(rows: set<Row<T>>): (m: Row<T>)
    requires rows != {} && DistinctIds(rows)
    ensures m in rows
    ensures forall r :: r in rows ==> Before(m, r)
  {
    LeastExists(rows);
    var m :| m in rows && forall r :: r in rows ==> Before(m, r);
    m
  }

  /** The listing: every row once, in order. */
  function Listing<T(==, !new)>(rows: set<Row<T>>): (l: seq<Row<T>>)
    requires DistinctIds(rows)
    ensures |l| == |rows|
    ensures forall r :: r in l <==> r in rows
    ensures Distinct(l)
    ensures forall i, j :: 0 <= i < j < |l| ==> Before(l[i], l[j])
    decreases |rows|
  {
    if rows == {} then [] else
      var m := Least(rows);
      var rest := Listing(rows - {m});
      [m] + rest
  }

  function Values<T>(l: seq<Row<T>>): (v: seq<T>)
    ensures |v| == |l|
    ensures forall i :: 0 <= i < |l| ==> v[i] == l[i].value
  {
    seq(|l|, i requires 0 <= i < |l| => l[i].value)
  }

  /** The values of a listing are those of its rows, each once. */
  lemma ListedValues<T(!new)>(rows: set<Row<T>>)
    requires DistinctIds(rows)
    requires forall a, b :: a in rows && b in rows && a.value == b.value ==> a == b
    ensures Distinct(Values(Listing(rows)))
    ensures forall r :: r in rows ==> r.value in Values(Listing(rows))
    ensures forall v :: v in Values(Listing(rows)) ==> exists r :: r in rows && r.value == v
  {
    var l := Listing(rows);
    forall r | r in rows
      ensures r.value in Values(l)
    {
      var k :| 0 <= k < |l| && l[k] == r;
      assert Values(l)[k] == r.value;
    }
    forall v | v in Values(l)
      ensures exists r :: r in rows && r.value == v
    {
      var k :| 0 <= k < |l| && Values(l)[k] == v;
      assert l[k] in rows;
    }
    forall i, j | 0 <= i < j < |l|
      ensures Values(l)[i] != Values(l)[j]
    {
      assert l[i] in rows && l[j] in rows;
    }
  }

  // ---- SELECT ... ORDER BY over a table keyed by identifier ----

  /** rowOf gives each record its own identifier and sort key. */
  ghost predicate Keyed<T(!new)>(table: map<Id, T>, rowOf: T -> Row<T>, ids: set<Id>) {
    ids <= table.Keys && forall i :: i in ids ==> rowOf(table[i]).id == i && rowOf(table[i]).value == table[i]
  }

  function RowsOf<T(==, !new)>(table: map<Id, T>, rowOf: T -> Row<T>, ids: set<Id>): set<Row<T>>
    requires ids <= table.Keys
  {
    set i | i in ids :: rowOf(table[i])
  }

  lemma RowsOfDistinct<T(!new)>(table: map<Id, T>, rowOf: T -> Row<T>, ids: set<Id>)
    requires Keyed(table, rowOf, ids)
    ensures DistinctIds(RowsOf(table, rowOf, ids)) && |RowsOf(table, rowOf, ids)| == |ids|
  {
    var rows := RowsOf(table, rowOf, ids);
    if ids != {} {
      var i :| i in ids;
      RowsOfDistinct(table, rowOf, ids - {i});
      assert rows == RowsOf(table, rowOf, ids - {i}) + {rowOf(table[i])};
    }
  }

  /** The records named by ids, in the order of their rows. */
  function Select<T(==, !new)>(table: map<Id, T>, rowOf: T -> Row<T>, ids: set<Id>): (l: seq<T>)
    requires Keyed(table, rowOf, ids)
    ensures Distinct(l) && |l| == |ids|
    ensures forall v :: v in l <==> rowOf(v).id in ids && table[rowOf(v).id] == v
  {
    RowsOfDistinct(table, rowOf, ids);
    SelectCorrect(table, rowOf, ids);
    Values(Listing(RowsOf(table, rowOf, ids)))
  }

  lemma SelectCorrect<T(!new)>(table: map<Id, T>, rowOf: T -> Row<T>, ids: set<Id>)
    requires Keyed(table, rowOf, ids) && DistinctIds(RowsOf(table, rowOf, ids))
    ensures Distinct(Values(Listing(RowsOf(table, rowOf, ids))))
    ensures forall v :: v in Values(Listing(RowsOf(table, rowOf, ids))) <==>
        rowOf(v).id in ids && table[rowOf(v).id] == v
  {
    var rows := RowsOf(table, rowOf, ids);
    assert forall r :: r in rows ==> r.id in ids && r == rowOf(table[r.id]) && r.value == table[r.id];
    ListedValues(rows);
    forall v | rowOf(v).id in ids && table[rowOf(v).id] == v
      ensures v in Values(Listing(rows))
    {
      assert rowOf(v) in rows;
    }
  }

  /** The records come in row order. */
  lemma SelectSorted<T(!new)>(table: map<Id, T>, rowOf: T -> Row<T>, ids: set<Id>)
    requires Keyed(table, rowOf, ids)
    ensures var l := Select(table, rowOf, ids);
            forall i, j :: 0 <= i < j < |l| ==> Before(rowOf(l[i]), rowOf(l[j]))
  {
    RowsOfDistinct(table, rowOf, ids);
    var rows := RowsOf(table, rowOf, ids);
    var l := Listing(rows);
    forall i | 0 <= i < |l|
      ensures l[i] == rowOf(Values(l)[i])
    {
      assert l[i] in rows;
    }
  }

  ghost function Elements<T>(s: seq<T>): set<T> {
    set x | x in s
  }
}
