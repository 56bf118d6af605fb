/**
 Resources that belong to allocations: who owns what, and that no two owners share.
 */
module AllocPool {

  type Pool = map<nat, set<nat>>

  ghost function Union(m: Pool): set<nat> {
    set a, x | a in m && x in m[a] :: x
  }

  ghost predicate Disjoint(m: Pool) {
    forall a, b :: a in m && b in m && a != b ==> m[a] !! m[b]
  }

  lemma Put(m: Pool, a: nat, x: set<nat>)
    requires Disjoint(m) && (a in m ==> m[a] == {}) && x !! Union(m)
    ensures Disjoint(m[a := x]) && Union(m[a := x]) == Union(m) + x
  {
    var n := m[a := x];
    forall b, y | b in m && y in m[b] ensures y in Union(m) && y in Union(n) { assert y in n[b]; }
    forall y | y in x ensures y in Union(n) { assert y in n[a]; }
  }

  lemma Take(m: Pool, a: nat)
    requires Disjoint(m) && a in m
    ensures Disjoint(m[a := {}]) && Union(m[a := {}]) == Union(m) - m[a]
    ensures Disjoint(m - {a}) && Union(m - {a}) == Union(m) - m[a]
    ensures m[a] <= Union(m)
  {
    var n := m[a := {}];
    forall y | y in Union(m) - m[a]
      ensures y in Union(n) && y in Union(m - {a})
    {
      var b :| b in m && y in m[b];
      assert y in n[b] && y in (m - {a})[b];
    }
  }

  lemma Owner(m: Pool, x: nat) returns (a: nat)
    requires x in Union(m)
    ensures a in m && x in m[a]
  {
    a :| a in m && x in m[a];
  }

  /** Owners of nothing do not matter. */
  lemma SameOwners(m: Pool, n: Pool)
    requires Disjoint(m)
    requires forall a :: a in m && m[a] != {} ==> a in n && n[a] == m[a]
    requires forall a :: a in n && n[a] != {} ==> a in m && n[a] == m[a]
    ensures Disjoint(n) && Union(n) == Union(m)
  {
    forall a, b | a in n && b in n && a != b
      ensures n[a] !! n[b]
    {
      if n[a] != {} && n[b] != {} { assert m[a] !! m[b]; }
    }
    forall y | y in Union(m) ensures y in Union(n) {
      var a :| a in m && y in m[a];
      assert y in n[a];
    }
    forall y | y in Union(n) ensures y in Union(m) {
      var a :| a in n && y in n[a];
      assert y in m[a];
    }
  }

  /** Some number is not in a finite set. */
  lemma {:induction false} Above(s: set<nat>) returns (n: nat)
    ensures forall x :: x in s ==> x < n
  {
    if s == {} {
      n := 0;
    } else {
      var x :| x in s;
      var m := Above(s - {x});
      n := if m <= x then x + 1 else m;
      assert forall y :: y in s ==> y == x || y in s - {x};
    }
  }
}
