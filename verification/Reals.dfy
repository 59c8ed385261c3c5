/** What the timer and the two limiters share: real arithmetic, and finding the oldest entry. */
module Reals {
  function Min(a: real, b: real): real { if a < b then a else b }

  function Max(a: real, b: real): real { if a < b then b else a }

  function Abs(a: real): real { if a < 0.0 then -a else a }

  /** `base * 2**n`. */
  function Doubled(base: real, n: nat): real {
    if n == 0 then base else 2.0 * Doubled(base, n - 1)
  }

  /** A key whose value is no younger than any other's. */
  method Oldest<V>(t: map<string, V>, age: V -> real) returns (k: string)
    requires t != map[]
    ensures k in t && forall j :: j in t ==> age(t[k]) <= age(t[j])
  {
    k :| k in t;
    var rest := t.Keys;
    while rest != {}
      invariant rest <= t.Keys && k in t
      invariant forall j :: j in t && j !in rest ==> age(t[k]) <= age(t[j])
      decreases |rest|
    {
      var j :| j in rest;
      if age(t[j]) < age(t[k]) {
        k := j;
      }
      rest := rest - {j};
    }
  }

  lemma {:induction false} SubsetSize<T>(a: set<T>, b: set<T>)
    requires a <= b
    ensures |a| <= |b|
  {
    if a != {} {
      var x :| x in a;
      SubsetSize(a - {x}, b - {x});
    }
  }
}
