/** The order in which a commit walks its keys: strings sorted by code point. */
module KeyOrder {
  import opened Ordering
  import opened Commit

  predicate Leq(a: string, b: string) {
    a == "" || (b != "" && (a[0] < b[0] || (a[0] == b[0] && Leq(a[1..], b[1..]))))
  }

  lemma {:induction false} LeqTotal(a: string, b: string)
    ensures Leq(a, b) || Leq(b, a)
    ensures Leq(a, b) && Leq(b, a) ==> a == b
  {
    if a != "" && b != "" {
      LeqTotal(a[1..], b[1..]);
      if a[0] == b[0] && a[1..] == b[1..] {
        assert a == [a[0]] + a[1..] && b == [b[0]] + b[1..];
      }
    }
  }

  lemma {:induction false} LeqTransitive(a: string, b: string, c: string)
    requires Leq(a, b) && Leq(b, c)
    ensures Leq(a, c)
  {
    if a != "" && b[0] == a[0] && c[0] == b[0] {
      LeqTransitive(a[1..], b[1..], c[1..]);
    }
  }

  predicate IsLeast(m: string, keys: set<string>) {
    m in keys && forall k :: k in keys ==> Leq(m, k)
  }

  lemma LeastExists(keys: set<string>)
    requires keys != {}
    ensures exists m :: IsLeast(m, keys)
  {
    var k :| k in keys;
    LeqTotal(k, k);
    if keys == {k} {
      assert IsLeast(k, keys);
    } else {
      LeastExists(keys - {k});
      var m :| IsLeast(m, keys - {k});
      LeqTotal(k, m);
      var least := if Leq(k, m) then k else m;
      forall j | j in keys
        ensures Leq(least, j)
      {
        if j != k {
          assert j in keys - {k};
          if least == k {
            LeqTransitive(k, m, j);
          }
        }
      }
      assert IsLeast(least, keys);
    }
  }

  lemma LeastUnique(keys: set<string>)
    ensures forall a, b :: IsLeast(a, keys) && IsLeast(b, keys) ==> a == b
  {
    forall a, b | IsLeast(a, keys) && IsLeast(b, keys)
      ensures a == b
    {
      LeqTotal(a, b);
    }
  }

  function Least(keys: set<string>): (m: string)
    requires keys != {}
    ensures IsLeast(m, keys)
  {
    LeastExists(keys);
    LeastUnique(keys);
    var m :| m in keys && IsLeast(m, keys);
    m
  }

  ghost predicate Sorted(keys: seq<string>) {
    forall i, j :: 0 <= i < j < |keys| ==> Leq(keys[i], keys[j])
  }

  /** The keys of a map, collected and sorted. */
  function SortedKeys(keys: set<string>): (s: seq<string>)
    ensures forall k :: k in s <==> k in keys
    ensures Distinct(s) && Sorted(s)
    decreases |keys|
  {
    if keys == {} then [] else
      var m := Least(keys);
      [m] + SortedKeys(keys - {m})
  }

  lemma SortedKeysList<T>(table: map<string, T>)
    ensures Lists(SortedKeys(table.Keys), table)
  {
  }

  /** The strings agree up to i and differ there, a carrying the smaller character. */
  predicate SmallerAt(a: string, b: string, i: nat) {
    i < |a| && i < |b| && a[..i] == b[..i] && a[i] < b[i]
  }

  lemma {:induction false} LeqDiffers(a: string, b: string) returns (i: nat)
    requires Leq(a, b) && !(a <= b)
    ensures SmallerAt(a, b, i)
    decreases |a|
  {
    i := 0;
    if a[0] == b[0] {
      assert a == [a[0]] + a[1..] && b == [b[0]] + b[1..];
      i := LeqDiffers(a[1..], b[1..]);
      assert a[..i + 1] == [a[0]] + a[1..][..i] && b[..i + 1] == [b[0]] + b[1..][..i];
      i := i + 1;
    }
  }

  lemma {:induction false} PrefixLeq(a: string, b: string)
    requires a <= b
    ensures Leq(a, b)
    decreases |a|
  {
    if a != "" {
      assert b[0] == a[0] && a[1..] <= b[1..];
      PrefixLeq(a[1..], b[1..]);
    }
  }

  lemma {:induction false} SmallerLeq(a: string, b: string, i: nat)
    requires SmallerAt(a, b, i)
    ensures Leq(a, b)
    decreases i
  {
    if i > 0 {
      assert a[0] == a[..i][0] == b[..i][0] == b[0];
      assert a[1..][..i - 1] == a[..i][1..] && b[1..][..i - 1] == b[..i][1..];
      SmallerLeq(a[1..], b[1..], i - 1);
    }
  }

  /** The order of strings by code point: a prefix comes first, and otherwise the first difference decides. */
  lemma LeqMeans(a: string, b: string)
    ensures Leq(a, b) <==> a <= b || exists i :: SmallerAt(a, b, i)
  {
    hide Leq, SmallerAt;
    if Leq(a, b) && !(a <= b) {
      var i := LeqDiffers(a, b);
    }
    if a <= b {
      PrefixLeq(a, b);
    }
    if i: nat :| SmallerAt(a, b, i) {
      SmallerLeq(a, b, i);
    }
  }
}
