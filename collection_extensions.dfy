/** CollectionExtensions.FirstIndex: a read-only linear search. */
module CollectionExtensions {

  /**
   * The index of the first element satisfying `condition`, or -1 when there is none.
   * The collection is a value here, so the search cannot modify it.
   */
  function FirstIndex<T>(collection: seq<T>, condition: T -> bool): (r: int)
    ensures -1 <= r < |collection|
    ensures r == -1 <==> forall i :: 0 <= i < |collection| ==> !condition(collection[i])
    ensures 0 <= r ==> condition(collection[r])
    ensures 0 <= r ==> forall i :: 0 <= i < r ==> !condition(collection[i])
  {
    FirstIndexFrom(collection, condition, 0)
  }

  /** The `for` loop of FirstIndex, entered at position `i`. */
  function FirstIndexFrom<T>(collection: seq<T>, condition: T -> bool, i: nat): (r: int)
    requires i <= |collection|
    ensures r == -1 || i <= r < |collection|
    ensures r == -1 <==> forall k :: i <= k < |collection| ==> !condition(collection[k])
    ensures 0 <= r ==> condition(collection[r])
    ensures 0 <= r ==> forall k :: i <= k < r ==> !condition(collection[k])
    decreases |collection| - i
  {
    if i == |collection| then -1
    else if condition(collection[i]) then i
    else FirstIndexFrom(collection, condition, i + 1)
  }
}
