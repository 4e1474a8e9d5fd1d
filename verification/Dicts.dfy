/** A Python dictionary: lookups by key, and an iteration order that is the order of first
    insertion. Assigning to a key that is present keeps its place; popping it and assigning
    again moves it to the end. */
module Dicts {
  import opened Core

  type Dict<K, V> = seq<(K, V)>

  /** What makes a sequence of pairs a dictionary: one entry per key. */
  predicate Unique<K(==), V>(d: Dict<K, V>) {
    forall i, j | 0 <= i < j < |d| :: d[i].0 != d[j].0
  }

  predicate Has<K(==), V>(d: Dict<K, V>, k: K) {
    exists i | 0 <= i < |d| :: d[i].0 == k
  }

  function Get<K(==), V>(d: Dict<K, V>, k: K): (r: Option<V>)
    ensures r.Some? <==> Has(d, k)
    ensures r.Some? ==> (k, r.value) in d
  {
    if d == [] then None
    else if d[0].0 == k then assert d[0] == (k, d[0].1); Some(d[0].1)
    else
      assert Has(d, k) <==> Has(d[1..], k) by {
        if Has(d, k) {
          var i :| 0 <= i < |d| && d[i].0 == k;
          assert d[1..][i - 1].0 == k;
        }
      }
      Get(d[1..], k)
  }

  /** `d[k] = v`. */
  function Put<K(==), V>(d: Dict<K, V>, k: K, v: V): Dict<K, V> {
    if d == [] then [(k, v)]
    else if d[0].0 == k then [(k, v)] + d[1..]
    else [d[0]] + Put(d[1..], k, v)
  }

  /** `d.pop(k, None)`. */
  function Remove<K(==), V>(d: Dict<K, V>, k: K): Dict<K, V> {
    if d == [] then []
    else if d[0].0 == k then d[1..]
    else [d[0]] + Remove(d[1..], k)
  }

  lemma {:induction false} GetAt<K, V>(d: Dict<K, V>, i: nat)
    requires Unique(d) && i < |d|
    ensures Get(d, d[i].0) == Some(d[i].1)
  {
    if i > 0 {
      assert d[0].0 != d[i].0;
      assert d[1..][i - 1] == d[i];
      GetAt(d[1..], i - 1);
    }
  }

  lemma {:induction false} GetIn<K, V>(d: Dict<K, V>, k: K, v: V)
    requires Unique(d)
    ensures Get(d, k) == Some(v) <==> (k, v) in d
  {
    if (k, v) in d {
      var i :| 0 <= i < |d| && d[i] == (k, v);
      GetAt(d, i);
    }
  }

  /** Assignment changes one lookup and no other, and keeps keys unique. */
  lemma {:induction false} PutGets<K, V>(d: Dict<K, V>, k: K, v: V, q: K)
    ensures Get(Put(d, k, v), q) == if q == k then Some(v) else Get(d, q)
  {
    if d == [] {
      assert [(k, v)][1..] == [];
    } else if d[0].0 == k {
      assert Put(d, k, v)[1..] == d[1..];
    } else {
      assert Put(d, k, v)[1..] == Put(d[1..], k, v);
      PutGets(d[1..], k, v, q);
    }
  }

  lemma {:induction false} PutKeepsUnique<K, V>(d: Dict<K, V>, k: K, v: V)
    requires Unique(d)
    ensures Unique(Put(d, k, v))
    ensures forall q :: Has(Put(d, k, v), q) <==> q == k || Has(d, q)
  {
    forall q
      ensures Has(Put(d, k, v), q) <==> q == k || Has(d, q)
    {
      PutGets(d, k, v, q);
    }
    if d != [] && d[0].0 != k {
      PutKeepsUnique(d[1..], k, v);
      var rest := Put(d[1..], k, v);
      assert !Has(d[1..], d[0].0) by {
        assert forall i | 0 <= i < |d[1..]| :: d[1..][i] == d[i + 1];
      }
      assert forall i | 0 <= i < |rest| :: rest[i].0 != d[0].0;
    }
  }

  /** The last entry apart from the rest. */
  lemma LastGet<K, V>(d: Dict<K, V>, k: K)
    requires Unique(d) && d != []
    ensures Get(d, k) == if k == d[|d| - 1].0 then Some(d[|d| - 1].1) else Get(d[..|d| - 1], k)
    ensures Unique(d[..|d| - 1]) && !Has(d[..|d| - 1], d[|d| - 1].0)
  {
    var n := |d| - 1;
    assert forall i | 0 <= i < n :: d[..n][i] == d[i];
    if k == d[n].0 {
      GetAt(d, n);
    } else if Has(d, k) {
      var i :| 0 <= i < |d| && d[i].0 == k;
      assert d[..n][i].0 == k;
      GetAt(d, i);
      GetAt(d[..n], i);
    }
  }
}
