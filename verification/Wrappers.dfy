/** The one wrapper type the project needs, and a few words about sequences. */
module Wrappers {

  datatype Option<+T> = None | Some(value: T)

  /** The value kept by a variable that is only assigned while it is still nil. */
  function FirstOf<T>(held: Option<T>, later: seq<T>): (r: Option<T>) {
    if held.Some? then held
    else if later == [] then None
    else Some(later[0])
  }

  /** No element occurs twice. */
  predicate Distinct<T(==)>(s: seq<T>) {
    forall i, j :: 0 <= i < j < |s| ==> s[i] != s[j]
  }

  lemma ConcatAssociates<T>(a: seq<T>, b: seq<T>, c: seq<T>)
    ensures (a + b) + c == a + (b + c)
  {
  }

  lemma ConcatEmpty<T>(a: seq<T>)
    ensures a + [] == a
  {
  }
}
