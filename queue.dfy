/**
 * The drive simulation's first-in-first-out queue (utils/dsa.ts, feature 6),
 * an array that is pushed at the back and shifted at the front.
 */
module Queue {
  import opened Types

  class RecruitmentQueue<T> {
    var items: seq<T>

    /** `new RecruitmentQueue()`: empty. */
    constructor ()
      ensures items == []
    {
      items := [];
    }

    /** `enqueue(item)`: `push` at the back. */
    method Enqueue(item: T)
      modifies this
      ensures items == old(items) + [item]
    {
      items := items + [item];
    }

    /** `dequeue()`: `shift` from the front; `undefined` (here `None`) when empty, leaving the queue empty. */
    method Dequeue() returns (r: Option<T>)
      modifies this
      ensures old(items) == [] ==> r == None && items == []
      ensures old(items) != [] ==> r == Some(old(items)[0]) && items == old(items)[1..]
    {
      if items == [] {
        r := None;
      } else {
        r := Some(items[0]);
        items := items[1..];
      }
    }

    /** `size()`. */
    function Size(): (n: nat)
      reads this
      ensures n == |GetItems()|
    {
      |items|
    }

    /** `getItems()`: the queued items, front first. */
    function GetItems(): seq<T>
      reads this
    {
      items
    }

    /** `clear()`. */
    method Clear()
      modifies this
      ensures items == []
    {
      items := [];
    }
  }

  /**
   * First in, first out: enqueueing a sequence of items into an empty queue
   * and then dequeueing as many times gives the items back in the same order.
   */
  method FifoOrder<T>(xs: seq<T>) returns (out: seq<T>)
    ensures out == xs
  {
    var q := new RecruitmentQueue<T>();
    for i := 0 to |xs|
      invariant q.items == xs[..i]
    {
      q.Enqueue(xs[i]);
      assert xs[..i + 1] == xs[..i] + [xs[i]];
    }
    assert xs[..|xs|] == xs;
    out := [];
    while q.Size() > 0
      invariant out + q.items == xs
      decreases |q.items|
    {
      var r := q.Dequeue();
      out := out + [r.value];
    }
  }
}
