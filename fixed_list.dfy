/**
 * FixedList / NativeFixedList: a buffer whose capacity is fixed when it is created.
 * Items are appended in place, the buffer can be shrunk to its length (never grown),
 * and the used prefix can be reversed in place. Both source types share this model:
 * the unmanaged allocation of NativeFixedList is not modelled.
 */
module FixedLists {

  /** The reverse of a sequence: the last element first. */
  function Reversed<T>(s: seq<T>): (r: seq<T>)
    ensures |r| == |s|
    decreases |s|
  {
    if s == [] then [] else [s[|s| - 1]] + Reversed(s[..|s| - 1])
  }

  lemma {:induction false} ReversedAt<T>(s: seq<T>, k: nat)
    requires k < |s|
    ensures Reversed(s)[k] == s[|s| - 1 - k]
    decreases |s|
  {
    if k > 0 {
      ReversedAt(s[..|s| - 1], k - 1);
    }
  }

  /** Reversing twice gives back the original order. */
  lemma ReversedTwice<T>(s: seq<T>)
    ensures Reversed(Reversed(s)) == s
  {
    var r := Reversed(s);
    forall k | 0 <= k < |s|
      ensures Reversed(r)[k] == s[k]
    {
      ReversedAt(r, k);
      ReversedAt(s, |s| - 1 - k);
    }
  }

  class FixedList<T(0)> {
    /** The backing array; its length is the capacity. */
    var collection: array<T>
    /** The number of items in use. */
    var length: nat

    ghost predicate Valid()
      reads this
    {
      length <= collection.Length
    }

    function Capacity(): nat
      reads this
    {
      collection.Length
    }

    /** The items in use, in order. */
    ghost function Items(): seq<T>
      requires Valid()
      reads this, collection
    {
      collection[..length]
    }

    constructor (size: nat)
      ensures Valid() && fresh(collection)
      ensures length == 0 && Capacity() == size && Items() == []
    {
      collection := new T[size];
      length := 0;
    }

    /** Writes `item` at the old length and counts it; every other slot is unchanged. */
    method Add(item: T)
      requires Valid() && length < Capacity()
      modifies this`length, collection
      ensures Valid() && collection == old(collection)
      ensures length == old(length) + 1
      ensures collection[..] == old(collection[..])[old(length) := item]
      ensures Items() == old(Items()) + [item]
    {
      collection[length] := item;
      length := length + 1;
    }

    /** Appends `items` in enumeration order. */
    method AddRange(items: seq<T>)
      requires Valid() && length + |items| <= Capacity()
      modifies this`length, collection
      ensures Valid() && collection == old(collection)
      ensures length == old(length) + |items|
      ensures Items() == old(Items()) + items
      ensures forall k :: length <= k < Capacity() ==> collection[k] == old(collection[k])
    {
      for i := 0 to |items|
        invariant Valid() && collection == old(collection)
        invariant length == old(length) + i
        invariant Items() == old(Items()) + items[..i]
        invariant forall k :: length <= k < collection.Length ==> collection[k] == old(collection[k])
      {
        Add(items[i]);
      }
    }

    /**
     * Shrinks the backing array to the length when there is unused room, keeping the items;
     * otherwise nothing changes. The capacity never grows.
     */
    method TrimExcess()
      requires Valid()
      modifies this`collection
      ensures Valid() && length == old(length)
      ensures Items() == old(Items())
      ensures Capacity() <= old(Capacity()) && Capacity() == length && collection[..] == Items()
      ensures old(length) < old(Capacity()) ==> fresh(collection) && Capacity() == length
      ensures old(length) == old(Capacity()) ==> collection == old(collection)
    {
      if length < collection.Length {
        var newArray := new T[length];
        var i := 0;
        while i < length
          invariant 0 <= i <= length < collection.Length
          invariant collection == old(collection)
          invariant newArray[..i] == collection[..i]
        {
          newArray[i] := collection[i];
          i := i + 1;
        }
        collection := newArray;
      }
    }

    /** Reverses the items in place, with `start`/`end` counters meeting in the middle. */
    method Reverse()
      requires Valid()
      modifies collection
      ensures Items() == Reversed(old(Items()))
      ensures forall k :: length <= k < Capacity() ==> collection[k] == old(collection[k])
    {
      var end: int := length - 1;
      var start := 0;
      while end > start
        invariant 0 <= start <= end + 1 <= length
        invariant start + end == length - 1
        invariant forall k :: 0 <= k < start ==>
          collection[k] == old(collection[length - 1 - k]) && collection[length - 1 - k] == old(collection[k])
        invariant forall k :: start <= k <= end ==> collection[k] == old(collection[k])
        invariant forall k :: length <= k < collection.Length ==> collection[k] == old(collection[k])
      {
        var temp := collection[end];
        collection[end] := collection[start];
        collection[start] := temp;
        end := end - 1;
        start := start + 1;
      }
      ghost var items := old(Items());
      forall k | 0 <= k < length
        ensures collection[k] == Reversed(items)[k]
      {
        ReversedAt(items, k);
      }
    }

    /** NativeFixedList.ToArray: a copy of the whole backing array, unused slots included. */
    method ToArray() returns (r: array<T>)
      ensures fresh(r)
      ensures r.Length == Capacity() && r[..] == collection[..]
    {
      r := new T[collection.Length];
      var i := 0;
      while i < collection.Length
        invariant 0 <= i <= collection.Length
        invariant r[..i] == collection[..i]
      {
        r[i] := collection[i];
        i := i + 1;
      }
    }

    /** The implicit `T[]` conversion of FixedList: the backing array itself, not a copy. */
    function AsArray(): (r: array<T>)
      reads this
      ensures r == collection && r.Length == Capacity()
    {
      collection
    }
  }
}
