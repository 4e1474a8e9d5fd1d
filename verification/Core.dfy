/** Shapes every other module shares: options, results and setting names. */
module Core {

  datatype Option<+T> = None | Some(value: T)

  datatype Result<+T, +E> = Ok(value: T) | Err(error: E) {
    predicate IsFailure() { Err? }

    function PropagateFailure<U>(): Result<U, E>
      requires Err?
    {
      Err(error)
    }

    function Extract(): T
      requires Ok?
    {
      value
    }
  }

  /** A setting is named by its namespace and its key; everywhere outside a URL it is spelled
      `namespace.key`. */
  datatype Name = Name(namespace: string, key: string) {
    function Qualified(): string { namespace + "." + key }
  }

  /** Names without dots can be read back from their spelling, whatever the other name is. */
  lemma QualifiedDetermines(a: Name, b: Name)
    requires '.' !in b.namespace && '.' !in b.key
    requires a.Qualified() == b.Qualified()
    ensures a == b
  {
    var q := a.Qualified();
    assert q[|a.namespace|] == '.';
    assert forall i | 0 <= i < |b.namespace| :: q[i] == b.namespace[i];
    assert forall i | 0 <= i < |b.key| :: q[|b.namespace| + 1 + i] == b.key[i];
    assert |a.namespace| <= |b.namespace|;
    assert |a.namespace| >= |b.namespace| by {
      assert q[|b.namespace|] == '.';
      if |a.namespace| > |b.namespace| {
        assert q[|b.namespace| + 1 + (|a.namespace| - |b.namespace| - 1)] == '.';
      }
    }
    assert a.namespace == q[..|a.namespace|] && b.namespace == q[..|b.namespace|];
    assert a.key == q[|a.namespace| + 1..] && b.key == q[|b.namespace| + 1..];
  }

  /** No element occurs twice. */
  predicate Distinct<T(==)>(s: seq<T>) {
    forall i, j | 0 <= i < j < |s| :: s[i] != s[j]
  }
}
