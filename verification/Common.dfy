/** Result types shared by the models. */
module Common {

  datatype Option<+T> = None | Some(value: T)

  /** A returned value, or the error the Python code raises. */
  datatype Result<+T, +E> = Ok(value: T) | Err(error: E)

  /** The values of an insertion-ordered dictionary. */
  function Values<K(==), V>(order: seq<K>, dictionary: map<K, V>): (values: seq<V>)
    requires forall k :: k in order ==> k in dictionary
    ensures |values| == |order| && forall i :: 0 <= i < |order| ==> values[i] == dictionary[order[i]]
  {
    if order == [] then [] else Values(order[..|order| - 1], dictionary) + [dictionary[order[|order| - 1]]]
  }

  lemma SomeMember<T>(s: set<T>) returns (x: T)
    requires |s| > 0
    ensures x in s
  {
    assert (forall y :: y !in s) ==> s == {};
    x :| x in s;
  }
}
