/** Optional values, results, and Python's truthiness of an optional string. */
module Common {

  datatype Option<T> = None | Some(value: T)

  datatype Result<T, E> = Ok(value: T) | Err(error: E)

  /** Python's `bool(x)` for a value that is either `None` or a `str`:
      false for `None` and for the empty string. */
  predicate Truthy(x: Option<string>)
  {
    x.Some? && |x.value| > 0
  }

  /** No value occurs twice. */
  predicate Distinct<T(==)>(vs: seq<T>)
  {
    forall i, j :: 0 <= i < j < |vs| ==> vs[i] != vs[j]
  }

  /** The set of the entries of `vs`. */
  function Elements<T>(vs: seq<T>): set<T>
  {
    set v | v in vs
  }

  /** Dropping the head of a list without repeats leaves one without repeats
      that does not hold the head. */
  lemma DistinctTail<T>(vs: seq<T>)
    requires Distinct(vs) && vs != []
    ensures Distinct(vs[1..]) && vs[0] !in vs[1..]
  {
    var rest := vs[1..];
    forall i, j | 0 <= i < j < |rest| ensures rest[i] != rest[j] {
      assert rest[i] == vs[i + 1] && rest[j] == vs[j + 1];
    }
    forall j | 0 <= j < |rest| ensures rest[j] != vs[0] {
      assert rest[j] == vs[j + 1];
    }
  }

  /** A list without repeats has as many distinct members as entries. */
  lemma {:induction false} DistinctCardinality<T>(vs: seq<T>)
    requires Distinct(vs)
    ensures |Elements(vs)| == |vs|
  {
    if vs != [] {
      var rest := vs[1..];
      DistinctTail(vs);
      DistinctCardinality(rest);
      assert Elements(vs) == Elements(rest) + {vs[0]};
    }
  }
}
