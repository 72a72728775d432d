/** Queue of collections/queue.go: a FIFO queue over a Go slice, whose
    front is the first element. Items are integers, one instance of `any`. */
module CollectionsQueue {

  /** The items that n successive Dequeues take off a queue holding s, in
      the order they come off. */
  function Dequeued(s: seq<int>, n: nat): (r: seq<int>)
    requires n <= |s|
    ensures |r| == n
  {
    if n == 0 then [] else [s[0]] + Dequeued(s[1..], n - 1)
  }

  /** Dequeueing takes the items off in the order they were enqueued. */
  lemma {:induction false} DequeuedPrefix(s: seq<int>, n: nat)
    requires n <= |s|
    ensures Dequeued(s, n) == s[..n]
  {
    if n > 0 {
      DequeuedPrefix(s[1..], n - 1);
      assert s[..n] == [s[0]] + s[1..][..n - 1];
    }
  }

  /** After EnqueueAll(xs) on a queue holding s, draining the queue returns
      s and then xs in their original order. */
  lemma EnqueueAllThenDequeue(s: seq<int>, xs: seq<int>)
    ensures Dequeued(s + xs, |s + xs|)[|s|..] == xs
  {
    DequeuedPrefix(s + xs, |s + xs|);
    assert (s + xs)[..|s + xs|] == s + xs;
  }

  class Queue {
    var items: seq<int>

    /** NewQueue: an empty queue. */
    constructor ()
      ensures items == []
    {
      items := [];
    }

    /** Enqueue: the item goes to the back and the size grows by one. */
    method Enqueue(item: int)
      modifies this
      ensures items == old(items) + [item]
      ensures Size() == old(Size()) + 1
    {
      items := items + [item];
    }

    /** EnqueueAll: the items go to the back in order. */
    method EnqueueAll(xs: seq<int>)
      modifies this
      ensures items == old(items) + xs
    {
      items := items + xs;
    }

    /** Dequeue: returns the front item and removes it; it panics on an
        empty queue. */
    method Dequeue() returns (item: int)
      requires items != []
      modifies this
      ensures [item] == Dequeued(old(items), 1)
      ensures [item] + items == old(items)
      ensures Size() == old(Size()) - 1
    {
      item := items[0];
      items := items[1..];
    }

    /** IsEmpty holds iff the size is 0. */
    function IsEmpty(): (b: bool)
      reads this
      ensures b <==> Size() == 0
    {
      |items| == 0
    }

    /** HasItems is the negation of IsEmpty. */
    function HasItems(): (b: bool)
      reads this
      ensures b <==> !IsEmpty()
    {
      |items| > 0
    }

    function Size(): (n: nat)
      reads this
      ensures n == |items|
    {
      |items|
    }
  }
}
