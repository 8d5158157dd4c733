/**
 * The bounded history buffer (genetic_algorithms/helpers/history.py): a list of items
 * that grows up to its maximum size; once full, a new item replaces the one at index 0.
 */
module BoundedHistory {
  import opened Wrappers

  /** `items[1:]`, which is empty for an empty list. */
  function Tail<T>(items: seq<T>): seq<T> {
    if items == [] then [] else items[1..]
  }

  /** The items after `append(item)`. */
  function Appended<T>(items: seq<T>, maxSize: int, item: T): seq<T> {
    if |items| == maxSize then [item] + Tail(items) else items + [item]
  }

  /**
   * When the buffer is not full, the item goes at the end and everything else stays;
   * when it is full, the item replaces the entry at index 0 and the length stays.
   */
  lemma AppendedEffect<T>(items: seq<T>, maxSize: int, item: T)
    ensures |items| != maxSize ==>
      (var r := Appended(items, maxSize, item);
       |r| == |items| + 1 && r[..|items|] == items && r[|items|] == item)
    ensures |items| == maxSize && items != [] ==>
      (var r := Appended(items, maxSize, item);
       |r| == |items| && r[0] == item && r[1..] == items[1..])
  {
  }

  /** With a positive maximum size, the length never exceeds it. */
  lemma AppendedBounded<T>(items: seq<T>, maxSize: int, item: T)
    requires 1 <= maxSize && |items| <= maxSize
    ensures 1 <= |Appended(items, maxSize, item)| <= maxSize
  {
  }

  /**
   * With maximum size 0 the bound does not hold: the first item is stored (the
   * buffer counts as full, and the item replaces index 0 of an empty list), and
   * the buffer then grows with every append.
   */
  lemma AppendedSizeZero<T>(x: T, y: T)
    ensures Appended([], 0, x) == [x]
    ensures Appended([x], 0, y) == [x, y]
  {
  }

  /** `History`: its maximum size and its items. */
  class History<T> {
    const maxSize: int
    var items: seq<T>

    /** Once the buffer has a positive maximum size, it never holds more items. */
    ghost predicate Valid()
      reads this
    {
      maxSize >= 1 ==> |items| <= maxSize
    }

    /** `History(size)`: empty. */
    constructor (size: int)
      ensures maxSize == size && items == [] && Valid()
    {
      maxSize := size;
      items := [];
    }

    /** `append`. */
    method Append(item: T)
      requires Valid()
      modifies this
      ensures Valid()
      ensures items == Appended(old(items), maxSize, item)
      ensures old(IsFull()) && maxSize >= 1 ==> |items| == |old(items)| && IsFull()
      ensures !old(IsFull()) ==> |items| == |old(items)| + 1
    {
      if maxSize >= 1 {
        AppendedBounded(items, maxSize, item);
      }
      if |items| == maxSize {
        items := [item] + Tail(items);
      } else {
        items := items + [item];
      }
    }

    /**
     * `__getitem__` with an integer index: negative ones count from the end, and an
     * index outside the list raises IndexError (None).
     */
    function Get(index: int): (r: Option<T>)
      reads this
      ensures r.Some? <==> -|items| <= index < |items|
      ensures 0 <= index < |items| ==> r == Some(items[index])
      ensures -|items| <= index < 0 ==> r == Some(items[|items| + index])
    {
      if index < -|items| || index >= |items| then None
      else if index < 0 then Some(items[|items| + index])
      else Some(items[index])
    }

    /** `__iter__`: the items in stored order. */
    function Iterate(): (r: seq<T>)
      reads this
      ensures |r| == |items| && forall i :: 0 <= i < |r| ==> Get(i) == Some(r[i])
      ensures forall i :: 0 <= i < |r| ==> Get(i - |r|) == Some(r[i])
    {
      items
    }

    /** `is_full`: in a buffer with a positive bound, exactly when no item can be added. */
    predicate IsFull()
      reads this
      ensures Valid() && maxSize >= 1 ==> (IsFull() <==> |items| >= maxSize)
    {
      |items| == maxSize
    }
  }
}
