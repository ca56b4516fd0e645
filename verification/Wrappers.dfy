/** Optional values, results that carry an error instead of raising one, and facts about finite sets. */
module Wrappers {

  datatype Option<+T> = None | Some(value: T) {
    function GetOr(default: T): T {
      match this
      case Some(v) => v
      case None => default
    }
  }

  datatype Result<+T, +E> = Ok(value: T) | Err(error: E)

  /** A non-empty set has an element. */
  lemma Pick<T>(elements: set<T>) returns (element: T)
    requires elements != {}
    ensures element in elements
  {
    element :| element in elements;
  }

  /** A prefix one element longer. */
  lemma TakeOneMore<T>(elements: seq<T>, i: nat)
    requires i < |elements|
    ensures elements[..i + 1] == elements[..i] + [elements[i]]
  {
  }

  lemma AppendAssociates<T>(a: seq<T>, b: seq<T>, c: seq<T>)
    ensures a + b + c == a + (b + c)
  {
  }

  lemma SubsetCount<T>(small: set<T>, large: set<T>)
    requires small <= large
    ensures |small| <= |large|
  {
    assert large == small + (large - small);
  }
}
