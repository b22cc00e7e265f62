/** Shared wrappers and small integer helpers. */
module Common {
  datatype Option<+T> = None | Some(value: T)

  datatype Result<+T> = Ok(value: T) | Err(reason: string)

  /** A stable API identifier; the code only ever compares it. */
  type TargetId(==, !new)

  /**
   Always true. A predicate whose body sits under `forall z | Unfold(z)` stays folded in a proof until the
   proof asserts `Unfold(true)`, which keeps large invariants cheap to carry around. `UnfoldBatch` does the
   same for the bookkeeping of a batch in progress.
   */
  predicate Unfold(z: bool) { true }

  predicate UnfoldBatch(z: bool) { true }

  function Min(a: nat, b: nat): nat { if a <= b then a else b }

  function Max(a: nat, b: nat): nat { if a >= b then a else b }

  /** `Ord::clamp`, which panics on an inverted range: the precondition is that panic's absence. */
  function Clamp(x: nat, lo: nat, hi: nat): nat
    requires lo <= hi
  {
    if x < lo then lo else if x > hi then hi else x
  }

  predicate StrictlyIncreasing(s: seq<nat>) {
    forall i, j :: 0 <= i < j < |s| ==> s[i] < s[j]
  }

  predicate Distinct<T(==)>(s: seq<T>) {
    forall i, j :: 0 <= i < j < |s| ==> s[i] != s[j]
  }

  /** The values of the listed keys that are in a table, in order, repeats included. */
  function Pick<K(==), V>(table: map<K, V>, keys: seq<K>): seq<V> {
    if keys == [] then []
    else (if keys[0] in table then [table[keys[0]]] else []) + Pick(table, keys[1..])
  }

  lemma {:induction false} PickCorrect<K, V>(table: map<K, V>, keys: seq<K>)
    ensures forall v :: v in Pick(table, keys) ==> exists k :: k in keys && k in table && table[k] == v
    ensures forall k :: k in keys && k in table ==> table[k] in Pick(table, keys)
  {
    if keys != [] {
      PickCorrect(table, keys[1..]);
      assert forall k :: k in keys <==> k == keys[0] || k in keys[1..];
    }
  }

  /** The elements of a set, in some order. */
  method Listing<T(==)>(s: set<T>) returns (list: seq<T>)
    ensures Distinct(list) && forall x :: x in list <==> x in s
  {
    list := [];
    var rest := s;
    while rest != {}
      invariant rest <= s && Distinct(list) && forall x :: x in list <==> x in s - rest
      decreases rest
    {
      var x :| x in rest;
      assert forall i :: 0 <= i < |list| ==> list[i] in list && list[i] != x;
      list, rest := list + [x], rest - {x};
    }
  }
}
