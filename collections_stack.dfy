/** Stack of collections/stack.go: a LIFO stack over a Go slice, whose top
    is the last element. Items are integers, one instance of `any`. */
module CollectionsStack {
  import opened SeqUtil

  /** The items that n successive Pops take off a stack holding s, in the
      order they come off. */
  function Popped(s: seq<int>, n: nat): (r: seq<int>)
    requires n <= |s|
    ensures |r| == n
  {
    if n == 0 then [] else [s[|s| - 1]] + Popped(s[..|s| - 1], n - 1)
  }

  /** After pushing xs onto any stack, |xs| Pops return xs back to front. */
  lemma {:induction false} PushAllThenPop(s: seq<int>, xs: seq<int>)
    ensures Popped(s + xs, |xs|) == Reversed(xs)
  {
    if xs != [] {
      var last := |xs| - 1;
      assert (s + xs)[..|s + xs| - 1] == s + xs[..last];
      PushAllThenPop(s, xs[..last]);
      var p := Popped(s + xs, |xs|);
      forall i | 0 <= i < |xs|
        ensures p[i] == Reversed(xs)[i]
      {
        if i > 0 {
          assert p[i] == Reversed(xs[..last])[i - 1];
        }
      }
    }
  }

  class Stack {
    var items: seq<int>

    /** NewStack: an empty stack. */
    constructor ()
      ensures items == []
    {
      items := [];
    }

    /** Push: the item becomes the top and the size grows by one. */
    method Push(item: int)
      modifies this
      ensures items == old(items) + [item]
      ensures Size() == old(Size()) + 1 && Top() == item
    {
      items := items + [item];
    }

    /** PushAll: the items are pushed in order, so the last one is on top. */
    method PushAll(xs: seq<int>)
      modifies this
      ensures items == old(items) + xs
      ensures Popped(items, |xs|) == Reversed(xs)
    {
      PushAllThenPop(items, xs);
      items := items + xs;
    }

    /** The item on top. */
    function Top(): (t: int)
      requires items != []
      reads this
      ensures t == items[Size() - 1]
    {
      items[|items| - 1]
    }

    /** Pop: returns the most recently pushed item and removes it; it
        panics on an empty stack. */
    method Pop() returns (item: int)
      requires items != []
      modifies this
      ensures item == old(Top()) && [item] == Popped(old(items), 1)
      ensures items + [item] == old(items)
      ensures Size() == old(Size()) - 1
    {
      var end := |items| - 1;
      item := items[end];
      items := items[..end];
    }

    /** IsEmpty holds iff the size is 0. */
    function IsEmpty(): (b: bool)
      reads this
      ensures b <==> Size() == 0
    {
      |items| == 0
    }

    /** HasItems is the negation of IsEmpty. */
    function HasItems(): (b: bool)
      reads this
      ensures b <==> !IsEmpty()
    {
      |items| > 0
    }

    function Size(): (n: nat)
      reads this
      ensures n == |items|
    {
      |items|
    }
  }
}
